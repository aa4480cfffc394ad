/** The deals' own main action bar container. It follows the boards
    container's resolution but keeps its defaults under the fixed `deal`
    key, blanks them instead of deleting them when the URL names an unknown
    board, and always renders the deals' action bar. */
module DealActionBar {
  import opened Wrappers
  import opened BoardActionBar

  /** Blanks the `deal` defaults. */
  function Blank(d: Defaults): (r: Defaults)
    ensures Get(r.boards, "deal") == Some("") && Get(r.pipelines, "deal") == Some("")
    ensures forall u :: u != "deal" ==> SameFor(d, r, u)
  {
    Defaults(d.boards["deal" := ""], d.pipelines["deal" := ""])
  }

  /** `Main.render()` of the deals container. */
  function Render(params: Params, stored: Defaults, boardsLoading: bool,
                  detail: Query<Board>, last: Query<Board>): (r: Rendered)
    ensures boardsLoading ==> r == Rendered(PageHeader, stored)
    ensures forall u :: u != "deal" ==> SameFor(stored, r.defaults, u)
    ensures r.view.Reload? <==> !boardsLoading && Truthy(Get(params, "id")) && detail == Loaded(None)
    ensures r.view.Reload? ==> r.view.href == "/deal/board" && r.defaults == Blank(Persisted("deal", params, stored))
    ensures r.view.ActionBar? <==> !boardsLoading && Truthy(Get(params, "id")) && detail.Loaded? && detail.value.Some?
    ensures r.view.ActionBar? ==> r.view.component == DealsMainActionBar
    ensures r.view == Nothing <==>
              !boardsLoading && !Truthy(Get(params, "id")) && last.Loaded? && !Truthy(Get(stored.boards, "deal")) &&
              (last.value.None? || |last.value.value.pipelines| == 0)
  {
    if boardsLoading then Rendered(PageHeader, stored)
    else
      var boardId := Get(params, "id");
      var pipelineId := Get(params, "pipelineId");
      var defaults := Persisted("deal", params, stored);
      if Truthy(boardId) && detail.Loading? then Rendered(Spinner, defaults)
      else if !Truthy(boardId) && last.Loading? then Rendered(Spinner, defaults)
      else
        var lastBoard := if !Truthy(boardId) && last.Loaded? then last.value else None;
        var currentBoard := if Truthy(boardId) && detail.Loaded? then detail.value else None;
        var defaultBoardId := Get(defaults.boards, "deal");
        var defaultPipelineId := Get(defaults.pipelines, "deal");
        if !Truthy(boardId) && Truthy(defaultBoardId) then
          Rendered(Redirect(defaultBoardId.value, defaultPipelineId), defaults)
        else if !Truthy(boardId) && lastBoard.Some? && |lastBoard.value.pipelines| > 0 then
          Rendered(Redirect(lastBoard.value.id, Some(lastBoard.value.pipelines[0].id)), defaults)
        else if currentBoard.None? && Truthy(boardId) then
          Rendered(Reload("/deal/board"), Blank(defaults))
        else if currentBoard.None? then
          Rendered(Nothing, defaults)
        else
          Rendered(ActionBar(DealsMainActionBar, currentBoard.value,
                             CurrentPipeline(currentBoard.value.pipelines, pipelineId)), defaults)
  }

  /** Two views that differ at most in the action bar component. */
  predicate SameExceptComponent(a: View, b: View) {
    a == b || (a.ActionBar? && b.ActionBar? && a.board == b.board && a.pipeline == b.pipeline)
  }

  /** Two stores a render cannot tell apart for type `t`: the board default
      is truthy in both or in neither, and when it is, both entries agree. */
  predicate Indistinguishable(a: Defaults, b: Defaults, t: string) {
    Truthy(Get(a.boards, t)) == Truthy(Get(b.boards, t)) &&
    (Truthy(Get(a.boards, t)) ==> SameFor(a, b, t))
  }

  /** A render reads the stored defaults only through `Indistinguishable`,
      and keeps stores that are so indistinguishable. */
  lemma RenderSeesOnlyTruthyDefaults(t: string, params: Params, a: Defaults, b: Defaults, boardsLoading: bool,
                                     detail: Query<Board>, last: Query<Board>)
    requires Indistinguishable(a, b, t)
    ensures BoardActionBar.Render(t, params, a, boardsLoading, detail, last).view ==
            BoardActionBar.Render(t, params, b, boardsLoading, detail, last).view
    ensures Indistinguishable(BoardActionBar.Render(t, params, a, boardsLoading, detail, last).defaults,
                              BoardActionBar.Render(t, params, b, boardsLoading, detail, last).defaults, t)
  {
  }

  /** The deals container renders what the boards container renders for the
      `deal` type, apart from the bar component, and its stored defaults are
      indistinguishable from the boards container's ones. */
  lemma AgreesWithBoardsContainer(params: Params, stored: Defaults, boardsLoading: bool,
                                  detail: Query<Board>, last: Query<Board>)
    ensures var d := Render(params, stored, boardsLoading, detail, last);
            var b := BoardActionBar.Render("deal", params, stored, boardsLoading, detail, last);
            SameExceptComponent(d.view, b.view) &&
            Indistinguishable(d.defaults, b.defaults, "deal") &&
            forall u :: u != "deal" ==> SameFor(d.defaults, b.defaults, u)
  {
  }

  /** After an unknown board id, the next render of either container is the
      same whichever container handled the unknown board. */
  lemma BlankingEquivalentToDeleting(params: Params, stored: Defaults, last: Query<Board>,
                                     later: Params, boardsLoading: bool,
                                     detail2: Query<Board>, last2: Query<Board>)
    requires Truthy(Get(params, "id"))
    ensures var d := Render(params, stored, false, Loaded(None), last);
            var b := BoardActionBar.Render("deal", params, stored, false, Loaded(None), last);
            BoardActionBar.Render("deal", later, d.defaults, boardsLoading, detail2, last2).view ==
            BoardActionBar.Render("deal", later, b.defaults, boardsLoading, detail2, last2).view
  {
    var d := Render(params, stored, false, Loaded(None), last);
    var b := BoardActionBar.Render("deal", params, stored, false, Loaded(None), last);
    AgreesWithBoardsContainer(params, stored, false, Loaded(None), last);
    RenderSeesOnlyTruthyDefaults("deal", later, d.defaults, b.defaults, boardsLoading, detail2, last2);
  }
}
