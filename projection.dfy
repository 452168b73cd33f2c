/**
 * The projections of a marked-up value (src/utils.js:268-315): the plain text the user
 * sees (`getPlainText`), the text with the mentions removed (`getPlainAndStripped`), the
 * list of mentions (`getMentions`) and where the last one ends (`getEndOfLastMention`).
 */
module Projection {
  import opened Basics
  import opened Markup
  import opened Matcher
  import opened Scanner

  /**
   * The type `getPlainText` hands to the transform: `arguments[typePos + 1]`, which for a
   * template without `__type__` (`typePos` is `null`) is the first group.
   */
  function TypeArgument(l: Layout, m: Match): string
    requires Fits(l, |m.groups|)
  {
    if l.typePos.Some? then m.groups[l.typePos.value] else m.groups[0]
  }

  /** What the replacer of `getPlainText` puts in place of one match. */
  function Replacement(l: Layout, tf: Transform, m: Match): string
    requires Fits(l, |m.groups|)
  {
    tf(m.groups[l.idPos], m.groups[l.displayPos], Some(TypeArgument(l, m)))
  }

  /** `value.replace(regex, replacer)` over the matches `hits`, from `start` on. */
  function ReplaceFrom(value: string, l: Layout, tf: Transform, hits: seq<Match>, start: nat): string
    requires start <= |value| && Ordered(hits, start, |value|, l)
    decreases |hits|
  {
    if hits == [] then value[start..]
    else value[start..hits[0].index] + Replacement(l, tf, hits[0]) + ReplaceFrom(value, l, tf, hits[1..], hits[0].end)
  }

  /** `value.replace(regex, ``)` over the matches `hits`, from `start` on. */
  function StripFrom(value: string, l: Layout, hits: seq<Match>, start: nat): string
    requires start <= |value| && Ordered(hits, start, |value|, l)
    decreases |hits|
  {
    if hits == [] then value[start..]
    else value[start..hits[0].index] + StripFrom(value, l, hits[1..], hits[0].end)
  }

  /** `getPlainText(value, markup, displayTransform)`. */
  function PlainText(t: Template, value: string, tf: Transform): string
    requires Valid(t)
  {
    ReplaceFrom(value, GroupLayout(t), tf, Execs(t, value, 0), 0)
  }

  /** The `stripped` part of `getPlainAndStripped`. */
  function Stripped(t: Template, value: string): string
    requires Valid(t)
  {
    StripFrom(value, GroupLayout(t), Execs(t, value, 0), 0)
  }

  /** The transform gives the same display whatever type it is handed, as the identity does. */
  ghost predicate IgnoresType(tf: Transform) {
    forall id: string, display: string, x: Option<string>, y: Option<string> :: tf(id, display, x) == tf(id, display, y)
  }

  lemma IdentityIgnoresType()
    ensures IgnoresType(Identity())
  {
  }

  /** The text runs of a trace, in order: what is left of the value once the mentions are cut out. */
  function Runs(evs: seq<Event>): string {
    if evs == [] then "" else (if evs[0].TextRun? then evs[0].text else "") + Runs(evs[1..])
  }

  /**
   * The replacer sees the same id and display as the scan; where the two disagree on the
   * type, a transform that ignores the type makes no difference.
   */
  lemma {:induction false} ReplaceIsProjected(value: string, l: Layout, tf: Transform, hits: seq<Match>, start: nat, plain: nat)
    requires start <= |value| && Ordered(hits, start, |value|, l)
    requires l.typePos.Some? || IgnoresType(tf)
    ensures ReplaceFrom(value, l, tf, hits, start) == Projected(EventsFrom(value, l, tf, hits, start, plain))
    decreases |hits|
  {
    if hits == [] {
      if start == |value| {
        assert value[start..] == [];
      }
    } else {
      var m := hits[0];
      var me := MatchEvents(value, l, tf, m, start, plain);
      var rest := EventsFrom(value, l, tf, hits[1..], m.end, me[1].plainIndex + |me[1].display|);
      ReplaceIsProjected(value, l, tf, hits[1..], m.end, me[1].plainIndex + |me[1].display|);
      ProjectedPair(me, rest);
      DisplayIsReplacement(value, l, tf, m, start, plain);
    }
  }

  lemma ProjectedPair(me: seq<Event>, rest: seq<Event>)
    requires |me| == 2 && me[0].TextRun? && me[1].MentionMatch?
    ensures Projected(me + rest) == me[0].text + me[1].display + Projected(rest)
  {
    ProjectedAppend(me, rest);
    assert me[1..][1..] == [];
  }

  /** The replacer's text for a match is the display the scan reports for it. */
  lemma DisplayIsReplacement(value: string, l: Layout, tf: Transform, m: Match, start: nat, plain: nat)
    requires start <= m.index <= m.end <= |value| && Fits(l, |m.groups|)
    requires l.typePos.Some? || IgnoresType(tf)
    ensures MatchEvents(value, l, tf, m, start, plain)[1].display == Replacement(l, tf, m)
  {
    var mtype := if l.typePos.Some? then Some(m.groups[l.typePos.value]) else None;
    assert MatchEvents(value, l, tf, m, start, plain)[1].display == tf(m.groups[l.idPos], m.groups[l.displayPos], mtype);
  }

  /** Cutting the matches out leaves exactly the text runs the scan reports. */
  lemma {:induction false} StripIsRuns(value: string, l: Layout, tf: Transform, hits: seq<Match>, start: nat, plain: nat)
    requires start <= |value| && Ordered(hits, start, |value|, l)
    ensures StripFrom(value, l, hits, start) == Runs(EventsFrom(value, l, tf, hits, start, plain))
    decreases |hits|
  {
    if hits == [] {
      if start == |value| {
        assert value[start..] == [];
      }
    } else {
      var m := hits[0];
      var me := MatchEvents(value, l, tf, m, start, plain);
      var rest := EventsFrom(value, l, tf, hits[1..], m.end, me[1].plainIndex + |me[1].display|);
      StripIsRuns(value, l, tf, hits[1..], m.end, me[1].plainIndex + |me[1].display|);
      var evs := me + rest;
      assert evs[1..][1..] == rest;
      assert evs[0] == me[0] && evs[1..][0] == me[1];
    }
  }

  /**
   * `getPlainText` is the scan's plain text: text runs interleaved with transformed
   * displays, whenever the template has a type or the transform ignores it.
   */
  lemma PlainTextIsProjected(t: Template, value: string, tf: Transform)
    requires Valid(t)
    ensures Has(t, Type) || IgnoresType(tf) ==> PlainText(t, value, tf) == Projected(Scan(t, value, tf))
  {
    if Has(t, Type) || IgnoresType(tf) {
      ReplaceIsProjected(value, GroupLayout(t), tf, Execs(t, value, 0), 0, 0);
    }
  }

  /** The `stripped` text is the scan's text runs alone. */
  lemma StrippedIsRuns(t: Template, value: string, tf: Transform)
    requires Valid(t)
    ensures Stripped(t, value) == Runs(Scan(t, value, tf))
  {
    StripIsRuns(value, GroupLayout(t), tf, Execs(t, value, 0), 0, 0);
  }

  /** Without a mention in the value, both projections are the value itself. */
  lemma NoMentionsProjections(t: Template, value: string, tf: Transform)
    requires Valid(t) && MentionEvents(Scan(t, value, tf)) == []
    ensures PlainText(t, value, tf) == value && Stripped(t, value) == value
  {
    var l := GroupLayout(t);
    var hits := Execs(t, value, 0);
    if hits != [] {
      assert false;
    }
  }

  /** The record `getPlainAndStripped` returns. */
  datatype PlainAndStripped = PlainAndStripped(plain: string, stripped: string)

  /** `getPlainAndStripped(value, markup, displayTransform)`. */
  function GetPlainAndStripped(t: Template, value: string, tf: Transform): (r: PlainAndStripped)
    requires Valid(t)
    ensures r.stripped == Runs(Scan(t, value, tf))
    ensures Has(t, Type) || IgnoresType(tf) ==> r.plain == Projected(Scan(t, value, tf))
  {
    StrippedIsRuns(t, value, tf);
    PlainTextIsProjected(t, value, tf);
    PlainAndStripped(PlainText(t, value, tf), Stripped(t, value))
  }

  /** One entry of the list `getMentions` returns. */
  datatype Mention = Mention(id: string, display: string, mtype: Option<string>, index: nat, plainTextIndex: nat)

  /** The entries the mention callback of `getMentions` pushes, in order. */
  function MentionsOf(evs: seq<Event>): (r: seq<Mention>)
    ensures |r| <= |evs|
  {
    if evs == [] then []
    else
      var e := evs[0];
      (if e.MentionMatch? then [Mention(e.id, e.display, e.mtype, e.index, e.plainIndex)] else []) + MentionsOf(evs[1..])
  }

  /** `getMentions`: the mention callback pushes one entry per match. */
  method GetMentions(t: Template, value: string, tf: Transform) returns (mentions: seq<Mention>)
    requires Valid(t)
    ensures mentions == MentionsOf(Scan(t, value, tf))
  {
    var events := IterateMentionsMarkup(t, value, tf);
    mentions := PushMentions(events);
  }

  /** The pushes of the mention callback over the callbacks `events`, in order. */
  method PushMentions(events: seq<Event>) returns (mentions: seq<Mention>)
    ensures mentions == MentionsOf(events)
  {
    mentions := [];
    var i := 0;
    while i < |events|
      invariant 0 <= i <= |events|
      invariant mentions + MentionsOf(events[i..]) == MentionsOf(events)
    {
      var e := events[i];
      assert events[i..][1..] == events[i + 1..];
      MentionsCons(events[i..]);
      if e.MentionMatch? {
        var entry := Mention(e.id, e.display, e.mtype, e.index, e.plainIndex);
        assert mentions + MentionsOf(events[i..]) == (mentions + [entry]) + MentionsOf(events[i + 1..]);
        mentions := mentions + [entry];
      }
      i := i + 1;
    }
  }

  /** Every matched markup is non-empty, as every `regex.exec` hit is. */
  predicate MatchesNonEmpty(evs: seq<Event>) {
    evs == [] || ((evs[0].MentionMatch? ==> evs[0].matched != []) && MatchesNonEmpty(evs[1..]))
  }

  /** One entry per `regex.exec` hit, at the hit's index. */
  lemma {:induction false} MentionsPerHit(value: string, l: Layout, tf: Transform, hits: seq<Match>, start: nat, plain: nat)
    requires start <= |value| && Ordered(hits, start, |value|, l)
    ensures var evs := EventsFrom(value, l, tf, hits, start, plain);
      MatchesNonEmpty(evs) && |MentionsOf(evs)| == |hits|
      && forall k :: 0 <= k < |hits| ==> MentionsOf(evs)[k].index == hits[k].index
    decreases |hits|
  {
    if hits != [] {
      var m := hits[0];
      var me := MatchEvents(value, l, tf, m, start, plain);
      var rest := EventsFrom(value, l, tf, hits[1..], m.end, me[1].plainIndex + |me[1].display|);
      MentionsPerHit(value, l, tf, hits[1..], m.end, me[1].plainIndex + |me[1].display|);
      var evs := me + rest;
      assert evs[1..][1..] == rest;
      assert evs[0] == me[0] && evs[1..][0] == me[1];
      var e := me[1];
      assert MentionsOf(evs) == [Mention(e.id, e.display, e.mtype, e.index, e.plainIndex)] + MentionsOf(rest);
      assert forall k :: 1 <= k < |hits| ==> hits[k] == hits[1..][k - 1];
    }
  }

  /** Every entry starts at or after `start` in the value and `plain` in the plain text, and ends by `end`. */
  predicate Within(r: seq<Mention>, start: int, plain: int, end: int) {
    forall k :: 0 <= k < |r| ==>
      start <= r[k].index && plain <= r[k].plainTextIndex && r[k].plainTextIndex + |r[k].display| <= end
  }

  /** The entries come in strictly increasing `index`, each display ending before the next starts. */
  predicate Increasing(r: seq<Mention>) {
    forall j, k :: 0 <= j < k < |r| ==>
      r[j].index < r[k].index && r[j].plainTextIndex + |r[j].display| <= r[k].plainTextIndex
  }

  /** The entry pushed for the event `e`, if any, followed by the entries of `rest`. */
  lemma MentionsCons(evs: seq<Event>)
    requires evs != []
    ensures var e := evs[0];
      MentionsOf(evs) ==
        if e.MentionMatch? then [Mention(e.id, e.display, e.mtype, e.index, e.plainIndex)] + MentionsOf(evs[1..])
        else MentionsOf(evs[1..])
  {
  }

  lemma WithinCons(m: Mention, tail: seq<Mention>, start: int, plain: int, start1: int, plain1: int, end: int)
    requires Within(tail, start1, plain1, end) && start <= start1 && plain <= plain1
    requires start <= m.index && plain <= m.plainTextIndex && m.plainTextIndex + |m.display| <= end
    ensures Within([m] + tail, start, plain, end) && Within(tail, start, plain, end)
  {
    assert forall k :: 1 <= k < |[m] + tail| ==> ([m] + tail)[k] == tail[k - 1];
  }

  lemma IncreasingCons(m: Mention, tail: seq<Mention>, start1: int, plain1: int, end: int)
    requires Increasing(tail) && Within(tail, start1, plain1, end)
    requires m.index < start1 && m.plainTextIndex + |m.display| <= plain1
    ensures Increasing([m] + tail)
  {
    assert forall k :: 1 <= k < |[m] + tail| ==> ([m] + tail)[k] == tail[k - 1];
  }

  /** The entries lie within the stretch the trace covers, in the value and in the plain text. */
  lemma {:induction false} MentionsWithin(evs: seq<Event>, start: int, plain: int)
    requires Chained(evs, start, plain)
    ensures Within(MentionsOf(evs), start, plain, plain + |Projected(evs)|)
  {
    if evs != [] {
      var e := evs[0];
      var start1, plain1 := start + |Raw(e)|, plain + |Shown(e)|;
      var tail := MentionsOf(evs[1..]);
      var end := plain + |Projected(evs)|;
      assert Within(tail, start1, plain1, end) by {
        MentionsWithin(evs[1..], start1, plain1);
        assert plain1 + |Projected(evs[1..])| == end;
      }
      MentionsCons(evs);
      if e.MentionMatch? {
        WithinCons(Mention(e.id, e.display, e.mtype, e.index, e.plainIndex), tail, start, plain, start1, plain1, end);
      } else {
        assert Within(tail, start, plain, end);
      }
    }
  }

  /** In a chained trace whose matches are non-empty, the entries are `Increasing`. */
  lemma {:induction false} MentionsOrdered(evs: seq<Event>, start: int, plain: int)
    requires Chained(evs, start, plain) && MatchesNonEmpty(evs)
    ensures Increasing(MentionsOf(evs))
  {
    if evs != [] {
      var e := evs[0];
      var start1, plain1 := start + |Raw(e)|, plain + |Shown(e)|;
      var tail := MentionsOf(evs[1..]);
      MentionsOrdered(evs[1..], start1, plain1);
      MentionsWithin(evs[1..], start1, plain1);
      MentionsCons(evs);
      if e.MentionMatch? {
        IncreasingCons(Mention(e.id, e.display, e.mtype, e.index, e.plainIndex), tail, start1, plain1,
                       plain1 + |Projected(evs[1..])|);
      }
    }
  }

  /** `getMentions` over a value: one entry per match, in order of `index` and of `plainTextIndex`. */
  lemma ScanMentions(t: Template, value: string, tf: Transform)
    requires Valid(t)
    ensures var r := MentionsOf(Scan(t, value, tf));
      |r| == |Execs(t, value, 0)|
      && (forall k :: 0 <= k < |r| ==> r[k].index == Execs(t, value, 0)[k].index)
      && Increasing(r)
  {
    MentionsPerHit(value, GroupLayout(t), tf, Execs(t, value, 0), 0, 0);
    ScanShape(t, value, tf);
    MentionsOrdered(Scan(t, value, tf), 0, 0);
  }

  /** `getEndOfLastMention` on the list of mentions: 0 for none, else where the last display ends. */
  function EndOfLast(ms: seq<Mention>): nat {
    if ms == [] then 0 else ms[|ms| - 1].plainTextIndex + |ms[|ms| - 1].display|
  }

  /** `getEndOfLastMention(value, markup, displayTransform)`. */
  function EndOfLastMention(t: Template, value: string, tf: Transform): nat
    requires Valid(t)
  {
    EndOfLast(MentionsOf(Scan(t, value, tf)))
  }

  /**
   * `getEndOfLastMention` is 0 without mentions; otherwise every mention ends at or before
   * it, and it lies within the plain text.
   */
  lemma EndOfLastMentionBounds(t: Template, value: string, tf: Transform)
    requires Valid(t)
    ensures var r := MentionsOf(Scan(t, value, tf));
      var end := EndOfLastMention(t, value, tf);
      (r == [] ==> end == 0)
      && (forall k :: 0 <= k < |r| ==> r[k].plainTextIndex + |r[k].display| <= end)
      && end <= |Projected(Scan(t, value, tf))|
  {
    var evs := Scan(t, value, tf);
    var r := MentionsOf(evs);
    ScanMentions(t, value, tf);
    ScanShape(t, value, tf);
    MentionsWithin(evs, 0, 0);
    EndOfLastIsLast(r, 0, 0, |Projected(evs)|);
  }

  /** In an increasing list within bounds, the last display's end is the furthest one, and within the bound. */
  lemma EndOfLastIsLast(r: seq<Mention>, start: int, plain: int, end: int)
    requires Increasing(r) && Within(r, start, plain, end)
    ensures forall k :: 0 <= k < |r| ==> r[k].plainTextIndex + |r[k].display| <= EndOfLast(r)
    ensures r != [] ==> EndOfLast(r) <= end
  {
  }
}
