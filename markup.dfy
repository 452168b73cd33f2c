/**
 * The markup template grammar (src/utils.js): a template such as `@[__id__:__display__]`
 * is literal text with at most one each of the placeholders `__id__`, `__display__`
 * and `__type__`. The template is taken here already split at its placeholders: a
 * `Hole` is the first occurrence of a placeholder name, as the regular expression built
 * by `markupToRegex` turns only that occurrence into a capture group; any later
 * occurrence stays part of a `Literal`.
 */
module Markup {
  import opened Basics

  datatype Placeholder = Id | Display | Type

  datatype Segment = Literal(text: string) | Hole(p: Placeholder)

  /** `p` occurs in `t` as a placeholder. */
  predicate Has(t: seq<Segment>, p: Placeholder) {
    t != [] && (t[0] == Hole(p) || Has(t[1..], p))
  }

  /** No placeholder occurs twice. */
  predicate UniqueHoles(t: seq<Segment>) {
    t == [] || ((t[0].Hole? ==> !Has(t[1..], t[0].p)) && UniqueHoles(t[1..]))
  }

  type Template = t: seq<Segment> | UniqueHoles(t)

  function PlaceholderText(p: Placeholder): string {
    match p
    case Id => "__id__"
    case Display => "__display__"
    case Type => "__type__"
  }

  /** The parameter name by which `getPositionOfCapturingGroup` asks for a placeholder. */
  function ParameterName(p: Placeholder): string {
    match p
    case Id => "id"
    case Display => "display"
    case Type => "type"
  }

  function SegmentText(s: Segment): string {
    match s
    case Literal(l) => l
    case Hole(p) => PlaceholderText(p)
  }

  /** The template as the string the component is configured with. */
  function TemplateText(t: seq<Segment>): string {
    if t == [] then "" else SegmentText(t[0]) + TemplateText(t[1..])
  }

  /** A template the scanner accepts: it holds `__id__` or `__display__`. */
  predicate Valid(t: Template) {
    Has(t, Id) || Has(t, Display)
  }

  /** The placeholders in template order, which is the order of the capture groups. */
  function Holes(t: seq<Segment>): (h: seq<Placeholder>)
    ensures |h| <= |t|
  {
    if t == [] then []
    else (if t[0].Hole? then [t[0].p] else []) + Holes(t[1..])
  }

  /** The capture group of a placeholder `t` holds: how many placeholders come before it. */
  function Rank(t: seq<Segment>, p: Placeholder): (r: nat)
    requires Has(t, p)
    ensures r < |Holes(t)| && Holes(t)[r] == p
  {
    if t[0] == Hole(p) then 0
    else if t[0].Hole? then 1 + Rank(t[1..], p)
    else Rank(t[1..], p)
  }

  /** `markup.indexOf(placeholder)`, with null for an absent placeholder. */
  function PlaceholderIndex(t: seq<Segment>, p: Placeholder): (r: Option<nat>)
    ensures r.Some? <==> Has(t, p)
  {
    if t == [] then None
    else if t[0] == Hole(p) then Some(0)
    else match PlaceholderIndex(t[1..], p)
      case None => None
      case Some(k) => Some(|SegmentText(t[0])| + k)
  }

  /** The order `numericComparator` sorts by: null after every number. */
  predicate SortsBefore(a: Option<nat>, b: Option<nat>) {
    a.Some? && (b.None? || a.value < b.value)
  }

  function InsertSorted(x: Option<nat>, s: seq<Option<nat>>): seq<Option<nat>> {
    if s == [] || SortsBefore(x, s[0]) then [x] + s else [s[0]] + InsertSorted(x, s[1..])
  }

  /** `[indexDisplay, indexId, indexType].sort(numericComparator)`, a stable sort. */
  function SortIndices(s: seq<Option<nat>>): seq<Option<nat>> {
    if s == [] then [] else InsertSorted(s[|s| - 1], SortIndices(s[..|s| - 1]))
  }

  /** `Array.prototype.indexOf`: the first position holding `x`, or -1. */
  function IndexIn(s: seq<Option<nat>>, x: Option<nat>): int {
    if s == [] then -1
    else if s[0] == x then 0
    else var k := IndexIn(s[1..], x); if k < 0 then -1 else k + 1
  }

  datatype TemplateError = UnknownParameter(name: string) | MissingMandatoryPlaceholder

  /**
   * `getPositionOfCapturingGroup`: which capture group holds the parameter `name`.
   * It fails for a name other than id, display or type, and for a template with
   * neither `__id__` nor `__display__`; it gives null for an absent `__type__`.
   */
  function CapturingGroupPosition(t: Template, name: string): (r: Result<Option<int>, TemplateError>)
    ensures r.Failure? <==>
      (name != "id" && name != "display" && name != "type") || (!Has(t, Id) && !Has(t, Display))
    ensures r.Success? && name == "type" ==> (r.value.None? <==> !Has(t, Type))
    ensures r.Success? && name != "type" ==> r.value.Some?
  {
    if name != "id" && name != "display" && name != "type" then Failure(UnknownParameter(name))
    else
      var indexDisplay := PlaceholderIndex(t, Display);
      var indexId := PlaceholderIndex(t, Id);
      var indexType := PlaceholderIndex(t, Type);
      if indexDisplay.None? && indexId.None? then Failure(MissingMandatoryPlaceholder)
      else if indexType.None? && name == "type" then Success(None)
      else
        var sorted := SortIndices([indexDisplay, indexId, indexType]);
        var display := if indexDisplay.None? then indexId else indexDisplay;
        var id := if indexId.None? then indexDisplay else indexId;
        if name == "id" then Success(Some(IndexIn(sorted, id)))
        else if name == "display" then Success(Some(IndexIn(sorted, display)))
        else Success(if indexType.None? then None else Some(IndexIn(sorted, indexType)))
  }

  /** 1 when `o` is a number below `n`. */
  function Below(o: Option<nat>, n: nat): nat {
    if o.Some? && o.value < n then 1 else 0
  }

  /** How many placeholders of `t` start before text offset `n`. */
  function CountBelow(t: seq<Segment>, n: nat): nat {
    Below(PlaceholderIndex(t, Display), n) + Below(PlaceholderIndex(t, Id), n)
      + Below(PlaceholderIndex(t, Type), n)
  }

  /** Dropping the leading segment shifts the offset of every other placeholder by its width. */
  lemma ShiftedBelow(t: seq<Segment>, q: Placeholder, k: nat)
    requires t != [] && t[0] != Hole(q)
    ensures Below(PlaceholderIndex(t, q), |SegmentText(t[0])| + k) == Below(PlaceholderIndex(t[1..], q), k)
  {
  }

  /** A leading literal shifts every placeholder offset by its length and adds no placeholder. */
  lemma LiteralStep(t: seq<Segment>, k: nat)
    requires t != [] && t[0].Literal?
    ensures CountBelow(t, |SegmentText(t[0])| + k) == CountBelow(t[1..], k)
    ensures Holes(t) == Holes(t[1..])
  {
    ShiftedBelow(t, Display, k);
    ShiftedBelow(t, Id, k);
    ShiftedBelow(t, Type, k);
  }

  /** A leading placeholder precedes every other one. */
  lemma HoleStep(t: seq<Segment>, k: nat)
    requires t != [] && t[0].Hole? && !Has(t[1..], t[0].p)
    ensures CountBelow(t, |SegmentText(t[0])| + k) == 1 + CountBelow(t[1..], k)
    ensures Holes(t) == [t[0].p] + Holes(t[1..])
  {
    var q0 := t[0].p;
    forall q | q != q0
      ensures Below(PlaceholderIndex(t, q), |SegmentText(t[0])| + k) == Below(PlaceholderIndex(t[1..], q), k)
    {
      ShiftedBelow(t, q, k);
    }
    assert PlaceholderIndex(t, q0) == Some(0);
    assert PlaceholderIndex(t[1..], q0) == None;
  }

  /** A placeholder's offset in the template text counts exactly the placeholders before it. */
  lemma {:induction false} CountBelowIsRank(t: seq<Segment>, p: Placeholder)
    requires UniqueHoles(t) && Has(t, p)
    ensures CountBelow(t, PlaceholderIndex(t, p).value) == Rank(t, p)
  {
    if t[0] == Hole(p) {
      FirstIsRankZero(t, p);
    } else {
      CountBelowIsRank(t[1..], p);
      RankStep(t, p);
    }
  }

  /** A placeholder that opens the template has offset 0 and rank 0. */
  lemma FirstIsRankZero(t: seq<Segment>, p: Placeholder)
    requires t != [] && t[0] == Hole(p)
    ensures PlaceholderIndex(t, p) == Some(0) && CountBelow(t, 0) == 0 && Rank(t, p) == 0
  {
  }

  /** Past a leading segment other than `p`, offset and rank both grow by that segment's share. */
  lemma RankStep(t: seq<Segment>, p: Placeholder)
    requires t != [] && t[0] != Hole(p) && Has(t[1..], p)
    requires t[0].Hole? ==> !Has(t[1..], t[0].p)
    requires CountBelow(t[1..], PlaceholderIndex(t[1..], p).value) == Rank(t[1..], p)
    ensures CountBelow(t, PlaceholderIndex(t, p).value) == Rank(t, p)
  {
    var k := PlaceholderIndex(t[1..], p).value;
    if t[0].Literal? {
      LiteralRankStep(t, p, k);
    } else {
      HoleRankStep(t, p, k);
    }
  }

  lemma LiteralRankStep(t: seq<Segment>, p: Placeholder, k: nat)
    requires t != [] && t[0].Literal? && PlaceholderIndex(t[1..], p) == Some(k)
    ensures PlaceholderIndex(t, p) == Some(|SegmentText(t[0])| + k)
    ensures CountBelow(t, |SegmentText(t[0])| + k) == CountBelow(t[1..], k)
    ensures Rank(t, p) == Rank(t[1..], p)
  {
    LiteralStep(t, k);
  }

  lemma HoleRankStep(t: seq<Segment>, p: Placeholder, k: nat)
    requires t != [] && t[0].Hole? && t[0] != Hole(p) && !Has(t[1..], t[0].p)
    requires PlaceholderIndex(t[1..], p) == Some(k)
    ensures PlaceholderIndex(t, p) == Some(|SegmentText(t[0])| + k)
    ensures CountBelow(t, |SegmentText(t[0])| + k) == 1 + CountBelow(t[1..], k)
    ensures Rank(t, p) == 1 + Rank(t[1..], p)
  {
    HoleStep(t, k);
  }

  /** Present placeholders sit at different offsets of the template text. */
  lemma DistinctIndices(t: seq<Segment>, p: Placeholder, q: Placeholder)
    requires UniqueHoles(t) && Has(t, p) && Has(t, q) && p != q
    ensures PlaceholderIndex(t, p) != PlaceholderIndex(t, q)
  {
    CountBelowIsRank(t, p);
    CountBelowIsRank(t, q);
  }

  /** With distinct numbers, the sorted position of a number counts the numbers below it. */
  lemma SortedPosition(a: Option<nat>, b: Option<nat>, c: Option<nat>, x: nat)
    requires Some(x) == a || Some(x) == b || Some(x) == c
    requires a.Some? && b.Some? ==> a != b
    requires a.Some? && c.Some? ==> a != c
    requires b.Some? && c.Some? ==> b != c
    ensures IndexIn(SortIndices([a, b, c]), Some(x)) == Below(a, x) + Below(b, x) + Below(c, x)
  {
    SortThree(a, b, c);
    var s2 := if SortsBefore(b, a) then [b, a] else [a, b];
    InsertIntoTwo(c, s2[0], s2[1]);
    var s3 := SortIndices([a, b, c]);
    IndexInThree(s3[0], s3[1], s3[2], Some(x));
  }

  /** Sorting three values inserts the last into the sorted first two. */
  lemma SortThree(a: Option<nat>, b: Option<nat>, c: Option<nat>)
    ensures SortIndices([a, b, c]) == InsertSorted(c, if SortsBefore(b, a) then [b, a] else [a, b])
  {
    assert [a, b, c][..2] == [a, b];
    assert [a, b][..1] == [a];
    assert [a][..0] == [];
    assert SortIndices([a]) == [a];
    assert [a][1..] == [];
    assert InsertSorted(b, []) == [b];
  }

  lemma InsertIntoTwo(c: Option<nat>, u: Option<nat>, v: Option<nat>)
    ensures InsertSorted(c, [u, v]) ==
      if SortsBefore(c, u) then [c, u, v] else if SortsBefore(c, v) then [u, c, v] else [u, v, c]
  {
    assert [u, v][1..] == [v];
    assert [v][1..] == [];
    assert InsertSorted(c, []) == [c];
  }

  lemma IndexInThree(u: Option<nat>, v: Option<nat>, w: Option<nat>, x: Option<nat>)
    ensures IndexIn([u, v, w], x) == if u == x then 0 else if v == x then 1 else if w == x then 2 else -1
  {
    assert [u, v, w][1..] == [v, w];
    assert [v, w][1..] == [w];
    assert [w][1..] == [];
    assert IndexIn([w], x) == if w == x then 0 else -1;
    assert IndexIn([v, w], x) == if v == x then 0 else if w == x then 1 else -1;
  }

  /** The other of the two mandatory placeholders. */
  function Partner(p: Placeholder): Placeholder {
    if p == Id then Display else Id
  }

  /**
   * For a valid template, the capture group of a present placeholder is its rank among
   * the present placeholders in template order; an absent `__id__` or `__display__`
   * shares the group of the other one; an absent `__type__` has none.
   */
  lemma GroupPositionIsRank(t: Template, p: Placeholder)
    requires Valid(t)
    ensures CapturingGroupPosition(t, ParameterName(p)) ==
      if Has(t, p) then Success(Some(Rank(t, p)))
      else if p == Type then Success(None)
      else Success(Some(Rank(t, Partner(p))))
  {
    if p == Type {
      if Has(t, Type) { TypeGroupPosition(t); }
    } else {
      var q := if Has(t, p) then p else Partner(p);
      var found := PlaceholderIndex(t, q);
      assert CapturingGroupPosition(t, ParameterName(p)) == Success(Some(IndexIn(SortIndices(Indices(t)), found)));
      SortedRank(t, q);
    }
  }

  /** The offsets of `__display__`, `__id__` and `__type__`, in the order the source lists them. */
  function Indices(t: seq<Segment>): seq<Option<nat>> {
    [PlaceholderIndex(t, Display), PlaceholderIndex(t, Id), PlaceholderIndex(t, Type)]
  }

  /** Among the sorted offsets, a present placeholder's offset sits at its rank. */
  lemma SortedRank(t: Template, q: Placeholder)
    requires Has(t, q)
    ensures IndexIn(SortIndices(Indices(t)), PlaceholderIndex(t, q)) == Rank(t, q)
  {
    var d, i, ty := PlaceholderIndex(t, Display), PlaceholderIndex(t, Id), PlaceholderIndex(t, Type);
    if d.Some? && i.Some? { DistinctIndices(t, Display, Id); }
    if d.Some? && ty.Some? { DistinctIndices(t, Display, Type); }
    if i.Some? && ty.Some? { DistinctIndices(t, Id, Type); }
    CountBelowIsRank(t, q);
    SortedPosition(d, i, ty, PlaceholderIndex(t, q).value);
  }

  lemma TypeGroupPosition(t: Template)
    requires Valid(t) && Has(t, Type)
    ensures CapturingGroupPosition(t, "type") == Success(Some(Rank(t, Type)))
  {
    assert CapturingGroupPosition(t, "type") ==
      Success(Some(IndexIn(SortIndices(Indices(t)), PlaceholderIndex(t, Type))));
    SortedRank(t, Type);
  }

  /** The markup of one mention: `makeMentionsMarkup` substitutes each placeholder. */
  function MakeMentionsMarkup(t: seq<Segment>, id: string, display: string, mtype: string): string {
    if t == [] then ""
    else
      var head := match t[0]
        case Literal(l) => l
        case Hole(Id) => id
        case Hole(Display) => display
        case Hole(Type) => mtype;
      head + MakeMentionsMarkup(t[1..], id, display, mtype)
  }
}
