/** The boards' main action bar container: how it resolves the board and
    pipeline to show from the URL, the stored per-type defaults and the
    query results, and how it reads and edits the filter parameters of the
    URL. Local storage, the URL's parsed query and the Apollo query states
    are passed in; the view to render, the URL change to make and the
    defaults to store are returned. */
module BoardActionBar {
  import opened Wrappers

  datatype Pipeline = Pipeline(id: string)

  datatype Board = Board(id: string, pipelines: seq<Pipeline>)

  /** An Apollo query's state: still loading, or loaded with its (possibly
      null) field. */
  datatype Query<T> = Loading | Loaded(value: Option<T>)

  /** The URL's parsed query parameters. */
  type Params = map<string, string>

  /** The default board and pipeline per board type, as stored in local
      storage under the board and pipeline storage keys. */
  datatype Defaults = Defaults(boards: map<string, string>, pipelines: map<string, string>)

  datatype Bar = DealMainActionBar | FundamentalMainActionBar | DealsMainActionBar

  /** What the container renders. `Redirect` sets the `id` and `pipelineId`
      URL parameters and renders nothing; `Reload` assigns
      `window.location.href`; `InvalidElement` is the render failure of an
      element whose component is `undefined`. */
  datatype View =
    | PageHeader
    | Spinner
    | Nothing
    | Redirect(id: string, pipelineId: Option<string>)
    | Reload(href: string)
    | ActionBar(component: Bar, board: Board, pipeline: Option<Pipeline>)
    | InvalidElement

  datatype Rendered = Rendered(view: View, defaults: Defaults)

  /** JavaScript truthiness of an optional string. */
  predicate Truthy(v: Option<string>) {
    v.Some? && v.value != ""
  }

  /** Both stores hold the same entries for `t`. */
  predicate SameFor(a: Defaults, b: Defaults, t: string) {
    Get(a.boards, t) == Get(b.boards, t) && Get(a.pipelines, t) == Get(b.pipelines, t)
  }

  /** Stores `boardId` and `pipelineId` as the defaults of `t`. */
  function Remember(d: Defaults, t: string, boardId: string, pipelineId: string): (r: Defaults)
    ensures Get(r.boards, t) == Some(boardId) && Get(r.pipelines, t) == Some(pipelineId)
    ensures forall u :: u != t ==> SameFor(d, r, u)
  {
    Defaults(d.boards[t := boardId], d.pipelines[t := pipelineId])
  }

  /** Deletes the defaults of `t`. */
  function Forget(d: Defaults, t: string): (r: Defaults)
    ensures t !in r.boards && t !in r.pipelines
    ensures forall u :: u != t ==> SameFor(d, r, u)
  {
    Defaults(d.boards - {t}, d.pipelines - {t})
  }

  /** `pipelines.find(pipe => pipe._id === id)`: the first pipeline with
      that id, if any. */
  function FindPipeline(pipelines: seq<Pipeline>, id: string): (r: Option<Pipeline>)
    ensures r.None? <==> forall i :: 0 <= i < |pipelines| ==> pipelines[i].id != id
    ensures r.Some? ==> exists i :: 0 <= i < |pipelines| && pipelines[i] == r.value && r.value.id == id &&
                          forall j :: 0 <= j < i ==> pipelines[j].id != id
    decreases |pipelines|
  {
    if pipelines == [] then None
    else if pipelines[0].id == id then Some(pipelines[0])
    else
      var r := FindPipeline(pipelines[1..], id);
      assert forall i :: 1 <= i < |pipelines| ==> pipelines[i] == pipelines[1..][i - 1];
      if r.Some? then
        var i :| 0 <= i < |pipelines[1..]| && pipelines[1..][i] == r.value && r.value.id == id &&
                 forall j :: 0 <= j < i ==> pipelines[1..][j].id != id;
        assert pipelines[i + 1] == r.value;
        r
      else r
  }

  /** The current pipeline: the one the URL names when it names one
      (possibly none), otherwise the board's first pipeline. */
  function CurrentPipeline(pipelines: seq<Pipeline>, pipelineId: Option<string>): (r: Option<Pipeline>)
    ensures Truthy(pipelineId) ==> r == FindPipeline(pipelines, pipelineId.value)
    ensures !Truthy(pipelineId) ==> (r.Some? <==> |pipelines| > 0)
    ensures !Truthy(pipelineId) && |pipelines| > 0 ==> r == Some(pipelines[0])
  {
    if Truthy(pipelineId) then FindPipeline(pipelines, pipelineId.value)
    else if |pipelines| > 0 then Some(pipelines[0])
    else None
  }

  /** The component the board type selects; other types select nothing. */
  function ComponentFor(t: string): (c: Option<Bar>)
    ensures c.Some? <==> t == "deal" || t == "ticket"
    ensures t == "deal" ==> c == Some(DealMainActionBar)
    ensures t == "ticket" ==> c == Some(FundamentalMainActionBar)
  {
    if t == "deal" then Some(DealMainActionBar)
    else if t == "ticket" then Some(FundamentalMainActionBar)
    else None
  }

  /** The stored defaults after the URL has been read: both ids present
      make them the defaults of the type. */
  function Persisted(t: string, params: Params, stored: Defaults): (d: Defaults)
    ensures Truthy(Get(params, "id")) && Truthy(Get(params, "pipelineId")) ==>
              Get(d.boards, t) == Some(params["id"]) && Get(d.pipelines, t) == Some(params["pipelineId"])
    ensures !(Truthy(Get(params, "id")) && Truthy(Get(params, "pipelineId"))) ==> d == stored
    ensures forall u :: u != t ==> SameFor(stored, d, u)
  {
    var boardId := Get(params, "id");
    var pipelineId := Get(params, "pipelineId");
    if Truthy(boardId) && Truthy(pipelineId) then Remember(stored, t, boardId.value, pipelineId.value) else stored
  }

  /** `Main.render()` of the boards container for board type `t`. The
      last-board query runs only without a board id in the URL and the
      board detail query only with one. */
  function Render(t: string, params: Params, stored: Defaults, boardsLoading: bool,
                  detail: Query<Board>, last: Query<Board>): (r: Rendered)
    // while the board list loads only the header is shown, nothing stored
    ensures boardsLoading ==> r == Rendered(PageHeader, stored)
    // other board types' defaults are never touched
    ensures forall u :: u != t ==> SameFor(stored, r.defaults, u)
    // both ids in the URL become the type's defaults, before any spinner
    ensures !boardsLoading && !r.view.Reload? ==> r.defaults == Persisted(t, params, stored)
    ensures !boardsLoading && Truthy(Get(params, "id")) && Truthy(Get(params, "pipelineId")) && !r.view.Reload? ==>
              SameFor(r.defaults, Remember(stored, t, params["id"], params["pipelineId"]), t)
    // spinner while the query that runs is loading
    ensures !boardsLoading ==>
              (r.view == Spinner <==>
                 (Truthy(Get(params, "id")) && detail.Loading?) || (!Truthy(Get(params, "id")) && last.Loading?))
    // without a board id: the stored default first, then the last board
    ensures !boardsLoading && !Truthy(Get(params, "id")) && last.Loaded? && Truthy(Get(stored.boards, t)) ==>
              r.view == Redirect(stored.boards[t], Get(stored.pipelines, t))
    ensures !boardsLoading && !Truthy(Get(params, "id")) && last.Loaded? && !Truthy(Get(stored.boards, t)) &&
            last.value.Some? && |last.value.value.pipelines| > 0 ==>
              r.view == Redirect(last.value.value.id, Some(last.value.value.pipelines[0].id))
    // an unknown board id forgets this type's defaults and reloads its board page
    ensures r.view.Reload? <==> !boardsLoading && Truthy(Get(params, "id")) && detail == Loaded(None)
    ensures r.view.Reload? ==> r.view.href == "/" + t + "/board" && r.defaults == Forget(Persisted(t, params, stored), t)
    // the bar shows the loaded board and its current pipeline
    ensures r.view.ActionBar? <==>
              !boardsLoading && Truthy(Get(params, "id")) && detail.Loaded? && detail.value.Some? && ComponentFor(t).Some?
    ensures r.view.ActionBar? ==>
              r.view == ActionBar(ComponentFor(t).value, detail.value.value,
                                  CurrentPipeline(detail.value.value.pipelines, Get(params, "pipelineId")))
    // no current board and no redirect: nothing renders
    ensures r.view == Nothing <==>
              !boardsLoading && !Truthy(Get(params, "id")) && last.Loaded? && !Truthy(Get(stored.boards, t)) &&
              (last.value.None? || |last.value.value.pipelines| == 0)
    // a type without a component fails where the bar would render
    ensures r.view == InvalidElement <==>
              !boardsLoading && Truthy(Get(params, "id")) && detail.Loaded? && detail.value.Some? && ComponentFor(t).None?
  {
    if boardsLoading then Rendered(PageHeader, stored)
    else
      var boardId := Get(params, "id");
      var pipelineId := Get(params, "pipelineId");
      var defaults := Persisted(t, params, stored);
      if Truthy(boardId) && detail.Loading? then Rendered(Spinner, defaults)
      else if !Truthy(boardId) && last.Loading? then Rendered(Spinner, defaults)
      else
        var lastBoard := if !Truthy(boardId) && last.Loaded? then last.value else None;
        var currentBoard := if Truthy(boardId) && detail.Loaded? then detail.value else None;
        var defaultBoardId := Get(defaults.boards, t);
        var defaultPipelineId := Get(defaults.pipelines, t);
        if !Truthy(boardId) && Truthy(defaultBoardId) then
          Rendered(Redirect(defaultBoardId.value, defaultPipelineId), defaults)
        else if !Truthy(boardId) && lastBoard.Some? && |lastBoard.value.pipelines| > 0 then
          Rendered(Redirect(lastBoard.value.id, Some(lastBoard.value.pipelines[0].id)), defaults)
        else if currentBoard.None? && Truthy(boardId) then
          Rendered(Reload("/" + t + "/board"), Forget(defaults, t))
        else if currentBoard.None? then
          Rendered(Nothing, defaults)
        else if ComponentFor(t).None? then
          Rendered(InvalidElement, defaults)
        else
          Rendered(ActionBar(ComponentFor(t).value, currentBoard.value,
                             CurrentPipeline(currentBoard.value.pipelines, pipelineId)), defaults)
  }

  /** What one visit stores, the next visit without ids in the URL uses:
      it is redirected to the same board and pipeline. */
  lemma RememberedDefaultsRedirect(t: string, params: Params, stored: Defaults,
                                   detail: Query<Board>, last: Query<Board>,
                                   later: Params, lastAgain: Option<Board>)
    requires Truthy(Get(params, "id")) && Truthy(Get(params, "pipelineId"))
    requires !Truthy(Get(later, "id"))
    ensures var first := Render(t, params, stored, false, detail, last);
            first.view.Reload? ||
            Render(t, later, first.defaults, false, Loading, Loaded(lastAgain)).view ==
              Redirect(params["id"], Some(params["pipelineId"]))
  {
  }

  /** After an unknown board id, the next visit without ids in the URL is
      not sent back to the forgotten board: the last board decides. */
  lemma ForgottenBoardNotRevisited(t: string, params: Params, stored: Defaults, last: Query<Board>,
                                   later: Params, lastBoard: Board)
    requires Truthy(Get(params, "id"))
    requires |lastBoard.pipelines| > 0
    requires !Truthy(Get(later, "id"))
    ensures var first := Render(t, params, stored, false, Loaded(None), last);
            Render(t, later, first.defaults, false, Loading, Loaded(Some(lastBoard))).view ==
              Redirect(lastBoard.id, Some(lastBoard.pipelines[0].id))
  {
  }

  // ------------------------------------------------------------- filters

  const DateFilterParams: seq<string> := ["nextDay", "nextWeek", "nextMonth", "overdue", "noCloseDate"]

  const CommonParams: seq<string> :=
    ["companyIds", "customerIds", "assignedUserIds", "productIds"] + DateFilterParams

  /** The date filter keys in the order the parsed query enumerates them
      (the query parser sorts keys by code unit). */
  const SortedDateFilterParams: seq<string> := ["nextDay", "nextMonth", "nextWeek", "noCloseDate", "overdue"]

  /** Code-unit order on strings, as `Array.prototype.sort` compares them:
      `a` is a prefix of `b`, or at the first position where they differ
      `a` has the smaller code unit. */
  predicate CodeUnitLeq(a: string, b: string) {
    a <= b || exists k :: 0 <= k < |a| && k < |b| && a[..k] == b[..k] && a[k] < b[k]
  }

  /** Date filter `a` comes no later than `b` in enumeration order. */
  predicate Precedes(a: string, b: string) {
    exists i, j :: 0 <= i <= j < |SortedDateFilterParams| &&
                   SortedDateFilterParams[i] == a && SortedDateFilterParams[j] == b
  }

  /** The enumeration order of the date filters is code-unit order: each
      key sorts strictly before the next. */
  lemma DateFiltersSorted(i: nat)
    requires 0 < i < |SortedDateFilterParams|
    ensures SortedDateFilterParams[i - 1] != SortedDateFilterParams[i]
    ensures CodeUnitLeq(SortedDateFilterParams[i - 1], SortedDateFilterParams[i])
  {
    var a, b := SortedDateFilterParams[i - 1], SortedDateFilterParams[i];
    var k := if i <= 2 then 4 else if i == 3 then 1 else 0;
    assert a[..k] == b[..k] && a[k] < b[k];
  }

  /** The filter parameters present in the URL. */
  function FiltersIn(params: Params, filters: seq<string>): set<string> {
    set k | k in params.Keys && k in filters
  }

  /** `isFiltered()`: the loop over the URL parameters stops at the first
      filter parameter. */
  method IsFiltered(params: Params) returns (r: bool)
    ensures r <==> FiltersIn(params, CommonParams) != {}
  {
    var keys := params.Keys;
    while keys != {}
      invariant keys <= params.Keys
      invariant forall k :: k in params.Keys - keys ==> k !in CommonParams
      decreases keys
    {
      var param :| param in keys;
      if param in CommonParams {
        assert param in FiltersIn(params, CommonParams);
        return true;
      }
      keys := keys - {param};
    }
    assert forall k :: k !in FiltersIn(params, CommonParams);
    return false;
  }

  /** `clearFilter()`: every filter parameter leaves the URL, everything else
      stays. */
  function ClearFilter(params: Params): (r: Params)
    ensures FiltersIn(r, CommonParams) == {}
    ensures forall k :: k in params && k !in CommonParams ==> k in r && r[k] == params[k]
    ensures r.Keys <= params.Keys
  {
    map k | k in params && k !in CommonParams :: params[k]
  }

  /** The first key of `order` present in the URL. */
  function FirstIn(params: Params, order: seq<string>): (r: Option<string>)
    ensures r.None? <==> forall i :: 0 <= i < |order| ==> order[i] !in params
    ensures r.Some? ==> r.value in params && r.value in order
    ensures r.Some? ==> exists i :: 0 <= i < |order| && order[i] == r.value &&
                          forall j :: 0 <= j < i ==> order[j] !in params
    decreases |order|
  {
    if order == [] then None
    else if order[0] in params then Some(order[0])
    else
      assert forall i :: 1 <= i < |order| ==> order[i] == order[1..][i - 1];
      var r := FirstIn(params, order[1..]);
      if r.Some? then
        var i :| 0 <= i < |order[1..]| && order[1..][i] == r.value &&
                 forall j :: 0 <= j < i ==> order[1..][j] !in params;
        assert order[i + 1] == r.value;
        r
      else r
  }

  /** The first date filter parameter in enumeration order. */
  function FirstDateFilter(params: Params): (r: Option<string>)
    ensures r.None? <==> FiltersIn(params, DateFilterParams) == {}
    ensures r.Some? ==> r.value in FiltersIn(params, DateFilterParams)
    ensures r.Some? ==> forall k :: k in FiltersIn(params, DateFilterParams) ==> Precedes(r.value, k)
  {
    assert forall k :: k in DateFilterParams <==> k in SortedDateFilterParams;
    var r := FirstIn(params, SortedDateFilterParams);
    assert r.Some? ==> r.value in FiltersIn(params, DateFilterParams);
    assert r.None? ==> forall k :: k !in FiltersIn(params, DateFilterParams);
    if r.Some? then
      var i :| 0 <= i < |SortedDateFilterParams| && SortedDateFilterParams[i] == r.value &&
               forall j :: 0 <= j < i ==> SortedDateFilterParams[j] !in params;
      assert forall k :: k in FiltersIn(params, DateFilterParams) ==> Precedes(r.value, k) by {
        forall k | k in FiltersIn(params, DateFilterParams)
          ensures Precedes(r.value, k)
        {
          var m :| 0 <= m < |SortedDateFilterParams| && SortedDateFilterParams[m] == k;
          assert !(m < i);
        }
      }
      r
    else r
  }

  /** A set difference inside a singleton has at most one element. */
  lemma AtMostOneLeft(a: set<string>, b: set<string>, x: string)
    requires a - b <= {x}
    ensures |a - b| <= 1
  {
    if a - b != {} {
      assert a - b == {x};
    }
  }

  /** `onDateFilterSelect(name, value)`: the first date filter in the URL,
      if any, is removed, then `name=value` is set. */
  function OnDateFilterSelect(params: Params, name: string, value: string): (r: Params)
    ensures name in r && r[name] == value
    ensures forall k :: k in params && k != name && k !in DateFilterParams ==> k in r && r[k] == params[k]
    ensures r.Keys <= params.Keys + {name}
    ensures |FiltersIn(params, DateFilterParams) - FiltersIn(r, DateFilterParams)| <= 1
    ensures FiltersIn(params, DateFilterParams) == {} ==> r == params[name := value]
    ensures var f := FirstDateFilter(params); f.Some? && f.value != name ==> f.value !in r
    ensures forall k :: k in params && k != name && Some(k) != FirstDateFilter(params) ==> k in r && r[k] == params[k]
  {
    var first := FirstDateFilter(params);
    var base := if first.Some? then params - {first.value} else params;
    var r := base[name := value];
    AtMostOneLeft(FiltersIn(params, DateFilterParams), FiltersIn(r, DateFilterParams),
                  if first.Some? then first.value else name);
    r
  }

  /** A set of at most one element holding `k` is `{k}`. */
  lemma OnlyMember(s: set<string>, k: string)
    requires |s| <= 1 && k in s
    ensures s == {k}
  {
    var rest := s - {k};
    assert |s| == |rest| + 1;
    assert rest == {};
  }

  /** Selecting a date filter keeps the URL to a single date filter: with
      at most one before, exactly the selected one is left. */
  lemma DateFilterStaysSingle(params: Params, name: string, value: string)
    requires |FiltersIn(params, DateFilterParams)| <= 1
    requires name in DateFilterParams
    ensures FiltersIn(OnDateFilterSelect(params, name, value), DateFilterParams) == {name}
  {
    var r := OnDateFilterSelect(params, name, value);
    var first := FirstDateFilter(params);
    if first.Some? {
      var k := first.value;
      OnlyMember(FiltersIn(params, DateFilterParams), k);
      assert r == (params - {k})[name := value];
    } else {
      assert r == params[name := value];
    }
  }
}
