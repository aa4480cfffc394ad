/** The `Tags` list component: which tags it renders, the overflow label
    it adds when a limit hides some, and the class name of the list. */
module Tags {
  import opened Wrappers
  import opened Text

  datatype Tag = Tag(name: string, colorCode: string)

  /** What follows the tag labels: nothing, the bare text `0` that React
      prints for the value of a guard that is `0`, or the `+n` overflow
      label. */
  datatype Badge = NoBadge | StrayZero | Count(text: string)

  /** The rendered list: its class name, the tag labels in order, and what
      follows them. */
  datatype TagList = TagList(className: string, shown: seq<Tag>, overflow: Badge)

  /** A `limit` prop that is given and non-zero (`0` means no limit). */
  predicate LimitSet(limit: Option<int>) {
    limit.Some? && limit.value != 0
  }

  /** The end index `Array.prototype.slice(0, end)` uses: a negative end
      counts back from the length, and the result is clamped to the array. */
  function SliceEnd(length: nat, end: int): (k: nat)
    ensures k <= length
    ensures 0 <= end ==> k == if end < length then end else length
    ensures end < 0 ==> k == if length + end < 0 then 0 else length + end
  {
    if end < 0 then (if length + end < 0 then 0 else length + end)
    else if end < length then end
    else length
  }

  /** `className: length > 0 ? "tags" : ""`. */
  function ClassName(length: nat): (c: string)
    ensures c == "tags" <==> length > 0
    ensures c != "tags" ==> c == ""
  {
    if length > 0 then "tags" else ""
  }

  /** The tags `tags.slice(0, limit ? limit : length)` keeps. */
  function Shown(tags: seq<Tag>, limit: Option<int>): (r: seq<Tag>)
    ensures r <= tags
    ensures !LimitSet(limit) ==> r == tags
    ensures LimitSet(limit) && limit.value > 0 ==>
              |r| == if limit.value < |tags| then limit.value else |tags|
  {
    tags[..SliceEnd(|tags|, if LimitSet(limit) then limit.value else |tags|)]
  }

  /** The overflow guard as written: `limit && length - limit > 0 && label`.
      An absent limit yields `undefined` and a guard that fails on the
      comparison yields `false`, neither of which renders; a limit of `0`
      yields `0` itself, which React renders as the text `0`. */
  function Overflow(length: nat, limit: Option<int>): (b: Badge)
    ensures b == StrayZero <==> limit == Some(0)
    ensures b.Count? <==> LimitSet(limit) && length > limit.value
    ensures b.Count? ==> b.text == "+" + Decimal(length - limit.value)
  {
    if limit.None? then NoBadge
    else if limit.value == 0 then StrayZero
    else if length - limit.value > 0 then Count("+" + Decimal(length - limit.value))
    else NoBadge
  }

  /** The guard the overflow label evidently means, `limit > 0 && length -
      limit > 0`: a label only for a positive limit that hides tags, and
      never a stray `0`. */
  function IntendedOverflow(length: nat, limit: Option<int>): (b: Badge)
    ensures b != StrayZero
    ensures b.Count? <==> limit.Some? && limit.value > 0 && length > limit.value
    ensures b.Count? ==> b.text == "+" + Decimal(length - limit.value)
  {
    if limit.Some? && limit.value > 0 && length - limit.value > 0 then Count("+" + Decimal(length - limit.value))
    else NoBadge
  }

  /** `Tags({ tags, limit })`. */
  function RenderTags(tags: seq<Tag>, limit: Option<int>): (list: TagList)
    ensures list.className == ClassName(|tags|) && list.shown <= tags
    ensures !LimitSet(limit) ==> list.shown == tags
    ensures list.overflow == StrayZero <==> limit == Some(0)
    ensures list.overflow.Count? <==> LimitSet(limit) && |tags| > limit.value
  {
    TagList(ClassName(|tags|), Shown(tags, limit), Overflow(|tags|, limit))
  }

  /** The list with the intended overflow guard. */
  function RenderTagsIntended(tags: seq<Tag>, limit: Option<int>): (list: TagList)
    ensures list.className == ClassName(|tags|) && list.shown <= tags
    ensures !LimitSet(limit) ==> list.shown == tags
    ensures list.overflow != StrayZero
    ensures list.overflow.Count? <==> LimitSet(limit) && limit.value > 0 && |tags| > limit.value
  {
    TagList(ClassName(|tags|), Shown(tags, limit), IntendedOverflow(|tags|, limit))
  }

  /** The number an overflow label announces. */
  function Announced(badge: Badge): (n: nat) {
    if badge.Count? && |badge.text| > 1 && AllDigits(badge.text[1..]) then Value(badge.text[1..]) else 0
  }

  /** The count a `+n` label announces is `n`. */
  lemma AnnouncedCount(n: nat)
    ensures Announced(Count("+" + Decimal(n))) == n
  {
    assert ("+" + Decimal(n))[1..] == Decimal(n);
    ValueOfDecimal(n);
  }

  /** With a positive limit, every tag is accounted for exactly once: the
      tags shown plus the number the overflow label announces is the total. */
  lemma ShownPlusAnnouncedIsTotal(tags: seq<Tag>, limit: int)
    requires limit > 0
    ensures var r := RenderTags(tags, Some(limit));
            |r.shown| + Announced(r.overflow) == |tags|
  {
    if |tags| > limit {
      AnnouncedCount(|tags| - limit);
    }
  }

  /** Without a `limit` prop every tag is shown and nothing follows them. */
  lemma NoLimitShowsAll(tags: seq<Tag>)
    ensures RenderTags(tags, None) == TagList(ClassName(|tags|), tags, NoBadge)
  {
  }

  /** As written, a `limit` of `0` shows every tag and then the text `0`. */
  lemma ZeroLimitShowsStrayZero(tags: seq<Tag>)
    ensures RenderTags(tags, Some(0)) == TagList(ClassName(|tags|), tags, StrayZero)
  {
  }

  /** With the intended guard, an absent limit and a limit of `0` both show
      every tag and nothing after them, and for every non-negative limit the
      shown tags plus the announced count are the total. */
  lemma IntendedAccountsForEveryTag(tags: seq<Tag>, limit: Option<int>)
    requires limit.None? || limit.value >= 0
    ensures var r := RenderTagsIntended(tags, limit);
            |r.shown| + Announced(r.overflow) == |tags| &&
            (!LimitSet(limit) ==> r == TagList(ClassName(|tags|), tags, NoBadge))
  {
    if limit.Some? && limit.value > 0 && |tags| > limit.value {
      AnnouncedCount(|tags| - limit.value);
    }
  }
}
