/** The knowledge base row's accordion state: `collapse` toggles a topic
    id in the list of open rows kept in local storage, and the row opens
    when a category of its topic becomes the current one. Local storage is
    passed in and returned: `None` when the key holds nothing, otherwise
    the parsed list of ids. */
module KnowledgeRow {
  import opened Wrappers
  import opened Seqs

  /** The stored list of open topic ids, `[]` when nothing is stored. */
  function Values(stored: Option<seq<string>>): (values: seq<string>) {
    if stored.Some? then stored.value else []
  }

  datatype CollapseResult = CollapseResult(open: bool, stored: Option<seq<string>>)

  /** `collapse(id, click, isCurrent)`: with `click`, the id's membership in
      the stored list flips (removal drops every occurrence, addition appends
      one) and the list is written back; without it storage is not written.
      The row is open when it is the current one or listed. */
  function Collapse(stored: Option<seq<string>>, id: string, click: bool, isCurrent: bool): (r: CollapseResult)
    ensures !click ==> r.stored == stored
    ensures click ==> r.stored.Some?
    ensures click ==> (id in Values(r.stored) <==> id !in Values(stored))
    ensures click ==> forall x :: x != id ==> (x in Values(r.stored) <==> x in Values(stored))
    ensures click && id !in Values(stored) ==> r.stored == Some(Values(stored) + [id])
    ensures click && id in Values(stored) ==> |Values(r.stored)| < |Values(stored)|
    ensures r.open <==> isCurrent || id in Values(r.stored)
  {
    var values := Values(stored);
    var after :=
      if !click then stored
      else if id in values then Some(Filter(values, key => key != id))
      else Some(values + [id]);
    FilterDropsOne(values, id);
    CollapseResult(isCurrent || id in Values(after), after)
  }

  lemma FilterDropsOne(values: seq<string>, id: string)
    ensures id in values ==> |Filter(values, key => key != id)| < |values|
  {
    if id !in values {
      return;
    }
    var i :| 0 <= i < |values| && values[i] == id;
    assert values == values[..i] + values[i..];
    assert values[i..] == [id] + values[i + 1..];
    FilterConcat(values[..i], values[i..], key => key != id);
    FilterConcat([id], values[i + 1..], key => key != id);
  }

  /** Toggling the same row twice restores which ids are open (their order
      and multiplicity may differ). */
  lemma ToggleTwiceRestoresMembership(stored: Option<seq<string>>, id: string)
    ensures var once := Collapse(stored, id, true, false).stored;
            var twice := Collapse(once, id, true, false).stored;
            forall x :: x in Values(twice) <==> x in Values(stored)
  {
  }

  /** The constructor: the row's `detailed` flag starts as whether its
      topic is listed; storage is only read. */
  function Initial(stored: Option<seq<string>>, topicId: string): (detailed: bool)
    ensures detailed <==> topicId in Values(stored)
  {
    Collapse(stored, topicId, false, false).open
  }

  /** `toggle`: a click on the row writes storage back and sets `detailed`
      from it. Storage is shared by every row on the page, so it is an input
      and an output of its own. */
  function Toggle(stored: Option<seq<string>>, topicId: string): (r: CollapseResult)
    ensures r.open <==> topicId !in Values(stored)
    ensures r.open <==> topicId in Values(r.stored)
  {
    Collapse(stored, topicId, true, false)
  }

  /** `componentWillReceiveProps`: the row opens when the current topic's
      categories contain the next current category id, and otherwise keeps
      its flag. Storage is read but never written, so only the flag is
      returned. */
  function ReceiveProps(detailed: bool, stored: Option<seq<string>>, categories: seq<string>,
                        nextCurrentCategoryId: string): (d: bool)
    ensures nextCurrentCategoryId in categories ==> d
    ensures nextCurrentCategoryId !in categories ==> d == detailed
  {
    if nextCurrentCategoryId in categories then Collapse(stored, "", false, true).open
    else detailed
  }

  /** A click always leaves the row in the state storage records for it. */
  lemma ToggleAgreesWithStorage(stored: Option<seq<string>>, topicId: string)
    ensures var t := Toggle(stored, topicId);
            t.open == Initial(t.stored, topicId)
  {
  }

  /** Two rows share one storage key: a click on one row leaves what a
      freshly mounted other row would read unchanged. */
  lemma ToggleLeavesOtherRows(stored: Option<seq<string>>, clicked: string, other: string)
    ensures clicked != other ==> Initial(Toggle(stored, clicked).stored, other) == Initial(stored, other)
  {
  }
}
