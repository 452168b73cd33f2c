/**
 * `iterateMentionsMarkup` (src/utils.js:95-126): the walk over a marked-up value that
 * reports, in order, the plain text between mentions and every mention match, each with
 * its offset in the marked-up value and its offset in the plain text. The callbacks the
 * source passes are replaced by the trace of the calls it would make.
 */
module Scanner {
  import opened Basics
  import opened Markup
  import opened Matcher

  /** `displayTransform(id, display, type)`; `type` is `null` when the template has none. */
  type Transform = (string, string, Option<string>) -> string

  /** The transform used when none is passed: the display as captured. */
  function Identity(): Transform {
    (id: string, display: string, mtype: Option<string>) => display
  }

  /** One call of a callback: `textIteratee(substr, index, plainIndex)` or `markupIteratee(...)`. */
  datatype Event =
    | TextRun(text: string, index: nat, plainIndex: nat)
    | MentionMatch(matched: string, index: nat, plainIndex: nat, id: string, display: string,
                   mtype: Option<string>, lastEnd: nat)

  /** The part of the marked-up value an event covers. */
  function Raw(e: Event): string {
    if e.TextRun? then e.text else e.matched
  }

  /** The part of the plain text an event covers. */
  function Shown(e: Event): string {
    if e.TextRun? then e.text else e.display
  }

  /** The marked-up text the events cover, in order. */
  function Emitted(events: seq<Event>): string {
    if events == [] then "" else Raw(events[0]) + Emitted(events[1..])
  }

  /** The plain text the events stand for, in order. */
  function Projected(events: seq<Event>): string {
    if events == [] then "" else Shown(events[0]) + Projected(events[1..])
  }

  /** The capture-group layout of a template: where id, display and type are captured. */
  datatype Layout = Layout(idPos: nat, displayPos: nat, typePos: Option<nat>)

  /** Every group the layout reads exists among `n` groups. */
  predicate Fits(l: Layout, n: nat) {
    l.idPos < n && l.displayPos < n && (l.typePos.Some? ==> l.typePos.value < n)
  }

  /**
   * The groups the scanner reads: for each placeholder, its rank among the present ones;
   * an absent `__id__` or `__display__` reads the group of the other.
   */
  function GroupLayout(t: Template): (l: Layout)
    requires Valid(t)
    ensures Fits(l, |Holes(t)|)
    ensures l.typePos.Some? <==> Has(t, Type)
  {
    var i := if Has(t, Id) then Id else Display;
    var d := if Has(t, Display) then Display else Id;
    Layout(Rank(t, i), Rank(t, d), if Has(t, Type) then Some(Rank(t, Type)) else None)
  }

  /**
   * The layout is the one `getPositionOfCapturingGroup` computes for the names
   * `id`, `display` and `type`.
   */
  lemma LayoutFromGroupPositions(t: Template)
    requires Valid(t)
    ensures CapturingGroupPosition(t, "id") == Success(Some(GroupLayout(t).idPos))
    ensures CapturingGroupPosition(t, "display") == Success(Some(GroupLayout(t).displayPos))
    ensures CapturingGroupPosition(t, "type") ==
      if GroupLayout(t).typePos.Some? then Success(Some(GroupLayout(t).typePos.value)) else Success(None)
  {
    GroupPositionIsRank(t, Id);
    GroupPositionIsRank(t, Display);
    GroupPositionIsRank(t, Type);
  }

  /**
   * Successive `regex.exec` results: each one starts at or after where the one before it
   * ended, is not empty, lies within the value and has the groups the layout reads.
   */
  predicate Ordered(hits: seq<Match>, start: nat, len: nat, l: Layout) {
    hits == []
    || (start <= hits[0].index < hits[0].end <= len && Fits(l, |hits[0].groups|)
        && Ordered(hits[1..], hits[0].end, len, l))
  }

  /** Every result `regex.exec` gives, in order, once `lastIndex == start`, until it gives `null`. */
  function Execs(t: Template, value: string, start: nat): (r: seq<Match>)
    requires Valid(t) && start <= |value|
    ensures Ordered(r, start, |value|, GroupLayout(t))
    decreases |value| - start
  {
    match FindNext(t, value, start)
    case None => []
    case Some(m) =>
      assert Fits(GroupLayout(t), |Holes(t)|);
      var rest := Execs(t, value, m.end);
      assert ([m] + rest)[1..] == rest;
      [m] + rest
  }

  /** The callbacks for one `regex.exec` hit: the text before it, then the mention itself. */
  function MatchEvents(value: string, l: Layout, tf: Transform, m: Match, start: nat, plain: nat): (r: seq<Event>)
    requires start <= m.index <= m.end <= |value| && Fits(l, |m.groups|)
    ensures |r| == 2 && r[0] == TextRun(value[start..m.index], start, plain) && r[1].MentionMatch?
    ensures r[1].matched == value[m.index..m.end] && r[1].index == m.index
    ensures r[1].plainIndex == plain + (m.index - start) && r[1].lastEnd == start
  {
    var id := m.groups[l.idPos];
    var mtype := if l.typePos.Some? then Some(m.groups[l.typePos.value]) else None;
    var display := tf(id, m.groups[l.displayPos], mtype);
    var before := value[start..m.index];
    [TextRun(before, start, plain),
     MentionMatch(value[m.index..m.end], m.index, plain + |before|, id, display, mtype, start)]
  }

  /** The callbacks made for the hits `hits`, resuming at `start` with plain offset `plain`. */
  function EventsFrom(value: string, l: Layout, tf: Transform, hits: seq<Match>, start: nat, plain: nat): seq<Event>
    requires start <= |value| && Ordered(hits, start, |value|, l)
    decreases |hits|
  {
    if hits == [] then (if start < |value| then [TextRun(value[start..], start, plain)] else [])
    else
      var me := MatchEvents(value, l, tf, hits[0], start, plain);
      me + EventsFrom(value, l, tf, hits[1..], hits[0].end, me[1].plainIndex + |me[1].display|)
  }

  /** Every callback `iterateMentionsMarkup(value, markup, ..., displayTransform)` makes, in order. */
  function Scan(t: Template, value: string, tf: Transform): seq<Event>
    requires Valid(t)
  {
    EventsFrom(value, GroupLayout(t), tf, Execs(t, value, 0), 0, 0)
  }

  /** One `regex.exec` hit, and where the next search resumes. */
  lemma ExecsStep(t: Template, value: string, start: nat)
    requires Valid(t) && start <= |value| && FindNext(t, value, start).Some?
    ensures var m := FindNext(t, value, start).value;
      start <= m.index < m.end <= |value| && |m.groups| == |Holes(t)|
      && Execs(t, value, start) != [] && Execs(t, value, start)[0] == m
      && Execs(t, value, start)[1..] == Execs(t, value, m.end)
  {
    var m := FindNext(t, value, start).value;
    assert Fits(GroupLayout(t), |Holes(t)|);
    assert Execs(t, value, start) == [m] + Execs(t, value, m.end);
  }

  /** The mention matches among the events. */
  function MentionEvents(events: seq<Event>): (r: seq<Event>)
    ensures forall e :: e in r ==> e.MentionMatch? && e in events
    ensures forall e :: e in events && e.MentionMatch? ==> e in r
  {
    if events == [] then []
    else (if events[0].MentionMatch? then [events[0]] else []) + MentionEvents(events[1..])
  }

  /** The body of the `while` loop for one hit: read the groups, transform the display, make both calls. */
  method HitEvents(value: string, l: Layout, tf: Transform, m: Match, start: nat, plain: nat)
    returns (emitted: seq<Event>)
    requires start <= m.index <= m.end <= |value| && Fits(l, |m.groups|)
    ensures emitted == MatchEvents(value, l, tf, m, start, plain)
  {
    var id := m.groups[l.idPos];
    var display := m.groups[l.displayPos];
    var mtype := if l.typePos.Some? then Some(m.groups[l.typePos.value]) else None;
    display := tf(id, display, mtype);
    var substr := value[start..m.index];
    emitted := [TextRun(substr, start, plain)];
    emitted := emitted + [MentionMatch(value[m.index..m.end], m.index, plain + |substr|, id, display, mtype, start)];
  }

  /** The events so far, followed by those of the hits from `start` on, make the whole scan. */
  predicate Resumes(t: Template, value: string, tf: Transform, events: seq<Event>, start: nat, plain: nat)
    requires Valid(t)
  {
    start <= |value|
    && events + EventsFrom(value, GroupLayout(t), tf, Execs(t, value, start), start, plain) == Scan(t, value, tf)
  }

  /** `iterateMentionsMarkup`'s loop: `regex.exec` until it fails, then the trailing text. */
  method IterateMentionsMarkup(t: Template, value: string, tf: Transform) returns (events: seq<Event>)
    requires Valid(t)
    ensures events == Scan(t, value, tf)
  {
    var l := GroupLayout(t);
    var start: nat := 0;
    var plain: nat := 0;
    events := [];
    var next := FindNext(t, value, start);
    while next.Some?
      invariant Resumes(t, value, tf, events, start, plain) && next == FindNext(t, value, start)
      decreases |value| - start
    {
      events, start, plain := Advance(t, value, tf, l, events, start, plain, next.value);
      next := FindNext(t, value, start);
    }
    assert Execs(t, value, start) == [];
    if start < |value| {
      events := events + [TextRun(value[start..], start, plain)];
    }
  }

  /** One turn of the loop: the callbacks for the hit `m`, and the offsets after it. */
  method Advance(t: Template, value: string, tf: Transform, l: Layout, events: seq<Event>, start: nat, plain: nat, m: Match)
    returns (events': seq<Event>, start': nat, plain': nat)
    requires Valid(t) && l == GroupLayout(t) && Resumes(t, value, tf, events, start, plain)
    requires FindNext(t, value, start) == Some(m)
    ensures start < start' <= |value| && Resumes(t, value, tf, events', start', plain')
  {
    var emitted := HitEvents(value, l, tf, m, start, plain);
    LoopStep(t, value, tf, start, plain, events, m, emitted);
    events' := events + emitted;
    plain' := plain + |emitted[0].text| + |emitted[1].display|;
    start' := m.end;
  }

  /** One turn of the loop of `IterateMentionsMarkup` keeps its invariant. */
  lemma LoopStep(t: Template, value: string, tf: Transform, start: nat, plain: nat,
                 events: seq<Event>, m: Match, emitted: seq<Event>)
    requires Valid(t) && start <= |value| && FindNext(t, value, start) == Some(m)
    requires Fits(GroupLayout(t), |m.groups|)
    requires emitted == MatchEvents(value, GroupLayout(t), tf, m, start, plain)
    requires Resumes(t, value, tf, events, start, plain)
    ensures start < m.end <= |value|
    ensures Resumes(t, value, tf, events + emitted, m.end, plain + |emitted[0].text| + |emitted[1].display|)
  {
    var l := GroupLayout(t);
    ExecsStep(t, value, start);
    var hits := Execs(t, value, start);
    var rest := EventsFrom(value, l, tf, hits[1..], m.end, plain + |emitted[0].text| + |emitted[1].display|);
    assert EventsFrom(value, l, tf, hits, start, plain) == emitted + rest;
    assert events + (emitted + rest) == (events + emitted) + rest;
  }

  lemma EmittedAppend(a: seq<Event>, b: seq<Event>)
    ensures Emitted(a + b) == Emitted(a) + Emitted(b)
  {
    if a == [] {
      assert a + b == b;
    } else {
      assert (a + b)[1..] == a[1..] + b;
      EmittedAppend(a[1..], b);
    }
  }

  lemma ProjectedAppend(a: seq<Event>, b: seq<Event>)
    ensures Projected(a + b) == Projected(a) + Projected(b)
  {
    if a == [] {
      assert a + b == b;
    } else {
      assert (a + b)[1..] == a[1..] + b;
      ProjectedAppend(a[1..], b);
    }
  }

  /**
   * The events follow each other without gap or overlap: each starts, in the marked-up
   * value and in the plain text, where the one before it ended.
   */
  predicate Chained(evs: seq<Event>, start: int, plain: int) {
    evs == [] ||
    (evs[0].index == start && evs[0].plainIndex == plain
     && Chained(evs[1..], start + |Raw(evs[0])|, plain + |Shown(evs[0])|))
  }

  /**
   * The events alternate: a text run (possibly empty) before every mention, and at most
   * one trailing text run, which is never empty.
   */
  predicate Alternates(evs: seq<Event>) {
    evs == []
    || (|evs| == 1 && evs[0].TextRun? && evs[0].text != [])
    || (|evs| >= 2 && evs[0].TextRun? && evs[1].MentionMatch? && Alternates(evs[2..]))
  }

  /**
   * The shape of a scan: the events alternate, follow each other without gap, and
   * together cover exactly the rest of the value.
   */
  lemma {:induction false} EventsShape(value: string, l: Layout, tf: Transform, hits: seq<Match>, start: nat, plain: nat)
    requires start <= |value| && Ordered(hits, start, |value|, l)
    ensures var evs := EventsFrom(value, l, tf, hits, start, plain);
      Alternates(evs) && Chained(evs, start, plain) && Emitted(evs) == value[start..]
    decreases |hits|
  {
    if hits == [] {
      TrailingShape(value, start, plain);
    } else {
      var m := hits[0];
      var me := MatchEvents(value, l, tf, m, start, plain);
      var plain' := me[1].plainIndex + |me[1].display|;
      var rest := EventsFrom(value, l, tf, hits[1..], m.end, plain');
      assert EventsFrom(value, l, tf, hits, start, plain) == me + rest;
      EventsShape(value, l, tf, hits[1..], m.end, plain');
      ShapePrepend(me, rest, start, plain);
      MatchEmitted(me, value, start, m.index, m.end);
      assert Emitted(me + rest) == value[start..];
    }
  }

  /** The events after the last match: the trailing text run, if there is text left. */
  lemma TrailingShape(value: string, start: nat, plain: nat)
    requires start <= |value|
    ensures var evs := if start < |value| then [TextRun(value[start..], start, plain)] else [];
      Alternates(evs) && Chained(evs, start, plain) && Emitted(evs) == value[start..]
  {
    if start < |value| {
      var evs := [TextRun(value[start..], start, plain)];
      assert Emitted(evs) == value[start..] + Emitted([]);
      assert Chained(evs[1..], |value|, plain + |value| - start);
    }
  }

  /** The text before a match and the match itself are the value between the two resume points. */
  lemma MatchEmitted(me: seq<Event>, value: string, start: nat, index: nat, end: nat)
    requires start <= index <= end <= |value|
    requires |me| == 2 && me[0].TextRun? && me[1].MentionMatch?
    requires me[0].text == value[start..index] && me[1].matched == value[index..end]
    ensures Emitted(me) + value[end..] == value[start..]
  {
    assert Emitted(me[1..]) == value[index..end] + Emitted([]);
    assert Emitted(me) == value[start..index] + Emitted(me[1..]);
    assert value[start..] == value[start..index] + value[index..end] + value[end..];
  }

  /** A text run and a mention put in front of a well-shaped scan keep it well shaped. */
  lemma ShapePrepend(me: seq<Event>, rest: seq<Event>, start: int, plain: int)
    requires |me| == 2 && me[0].TextRun? && me[1].MentionMatch?
    requires me[0].index == start && me[0].plainIndex == plain
    requires me[1].index == start + |me[0].text| && me[1].plainIndex == plain + |me[0].text|
    requires Alternates(rest) && Chained(rest, me[1].index + |me[1].matched|, me[1].plainIndex + |me[1].display|)
    ensures Alternates(me + rest) && Chained(me + rest, start, plain)
    ensures Emitted(me + rest) == Emitted(me) + Emitted(rest)
  {
    var evs := me + rest;
    assert evs[2..] == rest;
    assert evs[1..][1..] == rest;
    EmittedAppend(me, rest);
  }

  /** The shape of the whole scan of `iterateMentionsMarkup`. */
  lemma ScanShape(t: Template, value: string, tf: Transform)
    requires Valid(t)
    ensures Alternates(Scan(t, value, tf)) && Chained(Scan(t, value, tf), 0, 0)
  {
    EventsShape(value, GroupLayout(t), tf, Execs(t, value, 0), 0, 0);
  }

  /** Reconstruction: the text runs and the matched mention strings, in callback order, give back the value. */
  lemma ScanIsValue(t: Template, value: string, tf: Transform)
    requires Valid(t)
    ensures Emitted(Scan(t, value, tf)) == value
  {
    EventsShape(value, GroupLayout(t), tf, Execs(t, value, 0), 0, 0);
  }

  /** Chained events: each offset is where the emitted and the shown text before it end. */
  lemma {:induction false} ChainedOffsets(evs: seq<Event>, start: int, plain: int)
    requires Chained(evs, start, plain)
    ensures forall k :: 0 <= k < |evs| ==>
      evs[k].index == start + |Emitted(evs[..k])| && evs[k].plainIndex == plain + |Projected(evs[..k])|
  {
    if evs != [] {
      ChainedOffsets(evs[1..], start + |Raw(evs[0])|, plain + |Shown(evs[0])|);
      forall k | 0 < k < |evs|
        ensures evs[k].index == start + |Emitted(evs[..k])| && evs[k].plainIndex == plain + |Projected(evs[..k])|
      {
        assert evs[..k] == [evs[0]] + evs[1..][..k - 1];
        EmittedAppend([evs[0]], evs[1..][..k - 1]);
        ProjectedAppend([evs[0]], evs[1..][..k - 1]);
        assert Emitted([evs[0]]) == Raw(evs[0]) + Emitted([]);
        assert Projected([evs[0]]) == Shown(evs[0]) + Projected([]);
        assert evs[k] == evs[1..][k - 1];
      }
      assert evs[..0] == [];
    }
  }

  /**
   * The offsets `iterateMentionsMarkup` passes: each markup offset is the length of
   * everything emitted before it, each plain offset the length of everything shown before it.
   */
  lemma ScanOffsets(t: Template, value: string, tf: Transform)
    requires Valid(t)
    ensures var evs := Scan(t, value, tf);
      forall k :: 0 <= k < |evs| ==>
        evs[k].index == |Emitted(evs[..k])| && evs[k].plainIndex == |Projected(evs[..k])|
  {
    ScanShape(t, value, tf);
    ChainedOffsets(Scan(t, value, tf), 0, 0);
  }

  /** Chained events lie at or after the start, in order, and end where their emitted text ends. */
  lemma {:induction false} ChainedBounds(evs: seq<Event>, start: int, plain: int)
    requires Chained(evs, start, plain)
    ensures forall k :: 0 <= k < |evs| ==> start <= evs[k].index && plain <= evs[k].plainIndex
    ensures forall j, k :: 0 <= j < k < |evs| ==>
      evs[j].index + |Raw(evs[j])| <= evs[k].index && evs[j].plainIndex + |Shown(evs[j])| <= evs[k].plainIndex
    ensures forall k :: 0 <= k < |evs| ==> evs[k].index + |Raw(evs[k])| <= start + |Emitted(evs)|
    ensures forall k :: 0 <= k < |evs| ==> evs[k].plainIndex + |Shown(evs[k])| <= plain + |Projected(evs)|
  {
    if evs != [] {
      ChainedBounds(evs[1..], start + |Raw(evs[0])|, plain + |Shown(evs[0])|);
      forall k | 0 < k < |evs|
        ensures evs[k] == evs[1..][k - 1]
      {
      }
    }
  }

  /** Each event's raw text sits in the value at its markup offset. */
  lemma {:induction false} ChainedInValue(evs: seq<Event>, value: string, start: nat, plain: int)
    requires Chained(evs, start, plain) && start <= |value| && Emitted(evs) == value[start..]
    ensures forall k :: 0 <= k < |evs| ==> OccursAt(value, Raw(evs[k]), evs[k].index)
  {
    if evs != [] {
      var r0 := Raw(evs[0]);
      var start1 := start + |r0|;
      assert value[start..] == r0 + Emitted(evs[1..]);
      assert value[start..start1] == value[start..][..|r0|] == r0;
      assert value[start1..] == value[start..][|r0|..] == Emitted(evs[1..]);
      ChainedInValue(evs[1..], value, start1, plain + |Shown(evs[0])|);
      forall k | 0 < k < |evs|
        ensures evs[k] == evs[1..][k - 1]
      {
      }
    }
  }

  /** Every callback's text is the slice of the value at its markup offset. */
  lemma ScanInValue(t: Template, value: string, tf: Transform)
    requires Valid(t)
    ensures var evs := Scan(t, value, tf);
      forall k :: 0 <= k < |evs| ==> OccursAt(value, Raw(evs[k]), evs[k].index)
  {
    ScanShape(t, value, tf);
    ScanIsValue(t, value, tf);
    ChainedInValue(Scan(t, value, tf), value, 0, 0);
  }
}
