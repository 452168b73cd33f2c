/**
 * `mapPlainTextIndex` (src/utils.js:135-169): an offset in the plain text is carried over
 * to the marked-up value by walking the callbacks of the scan until one of them claims it.
 * Also `findStartOfMentionInPlainText` and `isInsideOfMention` (src/utils.js:174-195).
 *
 * The properties are proved for any trace of callbacks that alternates and is chained
 * (`Scanner.Alternates`, `Scanner.Chained`), which every scan is (`Scanner.ScanShape`).
 */
module IndexMapper {
  import opened Basics
  import opened Markup
  import opened Scanner

  /** The `inMarkupCorrection` argument: what an offset strictly inside a mention maps to. */
  datatype Policy = Start | End | Null

  /**
   * Whether the callback for `e` sets `result`, and to what: a text run claims an offset up
   * to and including its end, a mention an offset before its end.
   */
  function HitAt(e: Event, p: int, policy: Policy): Option<Option<int>> {
    if e.TextRun? then
      if e.plainIndex + |e.text| >= p then Some(Some(e.index + p - e.plainIndex)) else None
    else if e.plainIndex + |e.display| > p then
      Some(if policy == Null then None else Some(e.index + (if policy == End then |e.matched| else 0)))
    else None
  }

  /** The `result` left by the callbacks: the first one that sets it wins. */
  function FirstHit(evs: seq<Event>, p: int, policy: Policy): Option<Option<int>> {
    if evs == [] then None
    else if HitAt(evs[0], p, policy).Some? then HitAt(evs[0], p, policy)
    else FirstHit(evs[1..], p, policy)
  }

  /** `result === undefined ? value.length : result`, with `null` as `None`. */
  function MapIndex(evs: seq<Event>, len: nat, p: int, policy: Policy): Option<int> {
    match FirstHit(evs, p, policy)
    case None => Some(len)
    case Some(r) => r
  }

  /** What `mapPlainTextIndex(value, markup, p, policy, displayTransform)` returns. */
  function PlainToMarkup(t: Template, value: string, tf: Transform, p: int, policy: Policy): Option<int>
    requires Valid(t)
  {
    MapIndex(Scan(t, value, tf), |value|, p, policy)
  }

  /** `mapPlainTextIndex`: the callbacks run over the scan and keep the first result set. */
  method MapPlainTextIndex(t: Template, value: string, p: int, policy: Policy, tf: Transform)
    returns (r: Option<int>)
    requires Valid(t)
    ensures r == PlainToMarkup(t, value, tf, p, policy)
  {
    var events := IterateMentionsMarkup(t, value, tf);
    var result: Option<Option<int>> := None;
    var i := 0;
    while i < |events|
      invariant 0 <= i <= |events|
      invariant FirstHit(events, p, policy) == if result.Some? then result else FirstHit(events[i..], p, policy)
    {
      var e := events[i];
      assert events[i..][1..] == events[i + 1..];
      if result.None? {
        if e.TextRun? {
          if e.plainIndex + |e.text| >= p {
            result := Some(Some(e.index + p - e.plainIndex));
          }
        } else if e.plainIndex + |e.display| > p {
          if policy == Null {
            result := Some(None);
          } else {
            result := Some(Some(e.index + if policy == End then |e.matched| else 0));
          }
        }
      }
      i := i + 1;
    }
    r := if result.None? then Some(|value|) else result.value;
  }

  /** Events that end, in the plain text, before `p` claim nothing. */
  lemma {:induction false} NoHitBefore(evs: seq<Event>, start: int, plain: int, k: nat, p: int, policy: Policy)
    requires Chained(evs, start, plain) && k < |evs| && evs[k].plainIndex < p
    ensures FirstHit(evs, p, policy) == FirstHit(evs[k..], p, policy)
  {
    if k > 0 {
      var e := evs[0];
      ChainedBounds(evs[1..], start + |Raw(e)|, plain + |Shown(e)|);
      assert evs[1..][k - 1] == evs[k];
      assert HitAt(e, p, policy).None?;
      NoHitBefore(evs[1..], start + |Raw(e)|, plain + |Shown(e)|, k - 1, p, policy);
      assert evs[1..][k - 1..] == evs[k..];
    }
  }

  /** An offset inside a text run, or at its end, maps linearly into it. */
  lemma MapInTextRun(evs: seq<Event>, start: int, plain: int, k: nat, p: int, policy: Policy)
    requires Chained(evs, start, plain) && k < |evs| && evs[k].TextRun?
    requires evs[k].plainIndex < p <= evs[k].plainIndex + |evs[k].text|
    ensures FirstHit(evs, p, policy) == Some(Some(evs[k].index + (p - evs[k].plainIndex)))
  {
    NoHitBefore(evs, start, plain, k, p, policy);
  }

  /**
   * An offset strictly inside a mention maps to the start of its markup under `Start`,
   * past its end under `End`, and to `null` under `Null`.
   */
  lemma MapInsideMention(evs: seq<Event>, start: int, plain: int, k: nat, p: int, policy: Policy)
    requires Chained(evs, start, plain) && k < |evs| && evs[k].MentionMatch?
    requires evs[k].plainIndex < p < evs[k].plainIndex + |evs[k].display|
    ensures FirstHit(evs, p, policy) ==
      Some(match policy
        case Start => Some(evs[k].index)
        case End => Some(evs[k].index + |evs[k].matched|)
        case Null => None)
  {
    NoHitBefore(evs, start, plain, k, p, policy);
  }

  /** Every mention shows at least one character, as it does with the identity transform. */
  predicate DisplaysNonEmpty(evs: seq<Event>) {
    evs == [] || ((evs[0].MentionMatch? ==> evs[0].display != []) && DisplaysNonEmpty(evs[1..]))
  }

  /** The first two events claim nothing when `p` lies past both of them. */
  lemma SkipPair(evs: seq<Event>, start: int, plain: int, p: int, policy: Policy)
    requires Alternates(evs) && Chained(evs, start, plain) && |evs| >= 2
    requires plain + |evs[0].text| < p && evs[1].plainIndex + |evs[1].display| <= p
    ensures FirstHit(evs, p, policy) == FirstHit(evs[2..], p, policy)
    ensures Alternates(evs[2..]) && Chained(evs[2..], evs[1].index + |evs[1].matched|, evs[1].plainIndex + |evs[1].display|)
  {
    assert evs[1..][1..] == evs[2..];
  }

  /** With non-empty displays, the plain start of a mention maps to the start of its markup, whatever the policy. */
  lemma {:induction false} MapAtMentionStart(evs: seq<Event>, start: int, plain: int, k: nat, policy: Policy)
    requires Alternates(evs) && Chained(evs, start, plain) && DisplaysNonEmpty(evs)
    requires k < |evs| && evs[k].MentionMatch?
    ensures FirstHit(evs, evs[k].plainIndex, policy) == Some(Some(evs[k].index))
  {
    var p := evs[k].plainIndex;
    assert evs[1..][1..] == evs[2..];
    if k == 1 {
    } else {
      var rest := evs[2..];
      ChainedBounds(rest, evs[1].index + |evs[1].matched|, evs[1].plainIndex + |evs[1].display|);
      assert rest[k - 2] == evs[k];
      SkipPair(evs, start, plain, p, policy);
      MapAtMentionStart(rest, evs[1].index + |evs[1].matched|, evs[1].plainIndex + |evs[1].display|, k - 2, policy);
    }
  }

  /**
   * With non-empty displays, the plain start of a text run maps to the start of its markup,
   * whatever the policy: at offset 0 and right after a mention, the run's callback claims the offset.
   */
  lemma {:induction false} RunStart(evs: seq<Event>, start: int, plain: int, k: nat, policy: Policy)
    requires Alternates(evs) && Chained(evs, start, plain) && DisplaysNonEmpty(evs)
    requires k < |evs| && evs[k].TextRun?
    ensures FirstHit(evs, evs[k].plainIndex, policy) == Some(Some(evs[k].index))
  {
    var p := evs[k].plainIndex;
    if k > 0 {
      assert evs[1..][1..] == evs[2..];
      var rest := evs[2..];
      ChainedBounds(rest, evs[1].index + |evs[1].matched|, evs[1].plainIndex + |evs[1].display|);
      assert rest[k - 2] == evs[k];
      SkipPair(evs, start, plain, p, policy);
      RunStart(rest, evs[1].index + |evs[1].matched|, evs[1].plainIndex + |evs[1].display|, k - 2, policy);
    }
  }

  /** An offset past the end of the plain text is claimed by no callback. */
  lemma {:induction false} MapPastEnd(evs: seq<Event>, start: int, plain: int, p: int, policy: Policy)
    requires Chained(evs, start, plain) && p > plain + |Projected(evs)|
    ensures FirstHit(evs, p, policy) == None
  {
    if evs != [] {
      MapPastEnd(evs[1..], start + |Raw(evs[0])|, plain + |Shown(evs[0])|, p, policy);
    }
  }

  /** `null` under `Null` exactly when the offset lies strictly inside some mention. */
  lemma {:induction false} NullIffInside(evs: seq<Event>, start: int, plain: int, p: int)
    requires Alternates(evs) && Chained(evs, start, plain)
    ensures FirstHit(evs, p, Null) == Some(None) <==>
      exists k :: 0 <= k < |evs| && evs[k].MentionMatch? && evs[k].plainIndex < p < evs[k].plainIndex + |evs[k].display|
  {
    if exists k :: 0 <= k < |evs| && evs[k].MentionMatch? && evs[k].plainIndex < p < evs[k].plainIndex + |evs[k].display| {
      var k :| 0 <= k < |evs| && evs[k].MentionMatch? && evs[k].plainIndex < p < evs[k].plainIndex + |evs[k].display|;
      MapInsideMention(evs, start, plain, k, p, Null);
    } else if FirstHit(evs, p, Null) == Some(None) {
      var k := NullWitness(evs, start, plain, p);
      assert false;
    }
  }

  /** Where `null` comes from: the first mention that claims the offset, which lies strictly inside it. */
  lemma {:induction false} NullWitness(evs: seq<Event>, start: int, plain: int, p: int) returns (k: nat)
    requires Alternates(evs) && Chained(evs, start, plain) && FirstHit(evs, p, Null) == Some(None)
    ensures k < |evs| && evs[k].MentionMatch? && evs[k].plainIndex < p < evs[k].plainIndex + |evs[k].display|
  {
    assert |evs| >= 2;
    if evs[1].plainIndex + |evs[1].display| > p {
      k := 1;
    } else {
      SkipPair(evs, start, plain, p, Null);
      var j := NullWitness(evs[2..], evs[1].index + |evs[1].matched|, evs[1].plainIndex + |evs[1].display|, p);
      assert evs[2..][j] == evs[j + 2];
      k := j + 2;
    }
  }

  /** With `p` at or after the plain start, a `Start` or `End` result is at or after the markup start. */
  lemma {:induction false} HitAtLeast(evs: seq<Event>, start: int, plain: int, p: int, policy: Policy)
    requires Chained(evs, start, plain) && plain <= p && policy != Null
    ensures var r := FirstHit(evs, p, policy); r.Some? ==> r.value.Some? && r.value.value >= start
  {
    if evs != [] && HitAt(evs[0], p, policy).None? {
      HitAtLeast(evs[1..], start + |Raw(evs[0])|, plain + |Shown(evs[0])|, p, policy);
    }
  }

  /**
   * Under `Start` and `End` the result is never strictly inside the markup of a mention:
   * a splice at that point never cuts a mention token apart.
   */
  lemma {:induction false} MapNotInsideToken(evs: seq<Event>, start: int, plain: int, len: nat, p: int, policy: Policy)
    requires Alternates(evs) && Chained(evs, start, plain) && start + |Emitted(evs)| == len && policy != Null
    ensures MapIndex(evs, len, p, policy).Some?
    ensures forall k :: 0 <= k < |evs| && evs[k].MentionMatch? ==>
      !(evs[k].index < MapIndex(evs, len, p, policy).value < evs[k].index + |evs[k].matched|)
  {
    if |evs| == 1 {
      assert Emitted(evs) == evs[0].text + Emitted(evs[1..]);
      assert FirstHit(evs, p, policy) == HitAt(evs[0], p, policy) || FirstHit(evs, p, policy) == FirstHit(evs[1..], p, policy);
    } else if |evs| >= 2 {
      var start2, plain2 := evs[1].index + |evs[1].matched|, evs[1].plainIndex + |evs[1].display|;
      var rest := evs[2..];
      assert evs[1..][1..] == rest;
      assert evs[1..][0] == evs[1];
      ChainedBounds(rest, start2, plain2);
      assert forall k :: 2 <= k < |evs| ==> evs[k] == rest[k - 2];
      var r := MapIndex(evs, len, p, policy);
      if plain + |evs[0].text| >= p {
        assert r == Some(start + p - plain);
      } else if plain2 > p {
        assert FirstHit(evs, p, policy) == FirstHit(evs[1..], p, policy);
        assert r == Some(evs[1].index + (if policy == End then |evs[1].matched| else 0));
      } else {
        SkipPair(evs, start, plain, p, policy);
        assert Emitted(evs) == evs[0].text + (evs[1].matched + Emitted(rest));
        assert len == start2 + |Emitted(rest)|;
        MapNotInsideToken(rest, start2, plain2, len, p, policy);
        HitAtLeast(rest, start2, plain2, p, policy);
        assert r == MapIndex(rest, len, p, policy);
        assert r.value >= start2;
      }
    }
  }

  /** Under `Start` or `End`, an offset at or before a mention's plain start maps at or before its markup. */
  lemma {:induction false} MapBeforeMention(evs: seq<Event>, start: int, plain: int, k: nat, p: int, policy: Policy)
    requires Alternates(evs) && Chained(evs, start, plain) && policy != Null
    requires k < |evs| && evs[k].MentionMatch? && p <= evs[k].plainIndex
    ensures var r := FirstHit(evs, p, policy); r.Some? && r.value.Some? && r.value.value <= evs[k].index
  {
    var start2, plain2 := evs[1].index + |evs[1].matched|, evs[1].plainIndex + |evs[1].display|;
    var rest := evs[2..];
    assert evs[1..][1..] == rest;
    if k >= 2 {
      ChainedBounds(rest, start2, plain2);
      assert rest[k - 2] == evs[k];
      if plain + |evs[0].text| < p && plain2 <= p {
        SkipPair(evs, start, plain, p, policy);
        MapBeforeMention(rest, start2, plain2, k - 2, p, policy);
      }
    }
  }

  /**
   * With non-empty displays, under `Start` or `End`, an offset at or after a mention's plain
   * end maps at or after the end of its markup.
   */
  lemma {:induction false} MapAfterMention(evs: seq<Event>, start: int, plain: int, len: nat, k: nat, p: int, policy: Policy)
    requires Alternates(evs) && Chained(evs, start, plain) && DisplaysNonEmpty(evs)
    requires start + |Emitted(evs)| == len && policy != Null
    requires k < |evs| && evs[k].MentionMatch? && evs[k].plainIndex + |evs[k].display| <= p
    ensures var r := MapIndex(evs, len, p, policy); r.Some? && r.value >= evs[k].index + |evs[k].matched|
  {
    var start2, plain2 := evs[1].index + |evs[1].matched|, evs[1].plainIndex + |evs[1].display|;
    var rest := evs[2..];
    assert evs[1..][1..] == rest;
    ChainedBounds(rest, start2, plain2);
    assert evs[1] == evs[1..][0];
    if k >= 2 {
      assert rest[k - 2] == evs[k];
    }
    SkipPair(evs, start, plain, p, policy);
    assert len == start2 + |Emitted(rest)|;
    if k == 1 {
      HitAtLeast(rest, start2, plain2, p, policy);
    } else {
      MapAfterMention(rest, start2, plain2, len, k - 2, p, policy);
    }
  }

  /** A trace that alternates and holds no mention is at most one text run. */
  lemma NoMentionShape(evs: seq<Event>)
    requires Alternates(evs) && MentionEvents(evs) == []
    ensures |evs| <= 1
  {
  }

  /** With no mention in the value, plain offsets 0 to the length map to themselves. */
  lemma MapWithoutMentions(t: Template, value: string, tf: Transform, p: int, policy: Policy)
    requires Valid(t) && MentionEvents(Scan(t, value, tf)) == [] && 0 <= p <= |value|
    ensures PlainToMarkup(t, value, tf, p, policy) == Some(p)
  {
    var evs := Scan(t, value, tf);
    ScanShape(t, value, tf);
    ScanIsValue(t, value, tf);
    NoMentionShape(evs);
    if evs != [] {
      assert Emitted(evs) == evs[0].text + Emitted([]);
    }
  }

  /** The mention `e` shows the plain offset `p`, its start included. */
  predicate Contains(e: Event, p: int) {
    e.MentionMatch? && e.plainIndex <= p < e.plainIndex + |e.display|
  }

  /** The callbacks of `findStartOfMentionInPlainText`: the last mention containing `p` sets the result. */
  function LastStart(evs: seq<Event>, p: int, found: Option<int>): Option<int> {
    if evs == [] then found
    else LastStart(evs[1..], p, if Contains(evs[0], p) then Some(evs[0].plainIndex) else found)
  }

  /** What `findStartOfMentionInPlainText(value, markup, p, displayTransform)` returns, `undefined` as `None`. */
  function MentionStart(t: Template, value: string, tf: Transform, p: int): Option<int>
    requires Valid(t)
  {
    LastStart(Scan(t, value, tf), p, None)
  }

  /** `findStartOfMentionInPlainText`: `result` and `foundMention` set by the mention callbacks. */
  method FindStartOfMentionInPlainText(t: Template, value: string, p: int, tf: Transform)
    returns (r: Option<int>)
    requires Valid(t)
    ensures r == MentionStart(t, value, tf, p)
  {
    var events := IterateMentionsMarkup(t, value, tf);
    var result := p;
    var foundMention := false;
    var i := 0;
    while i < |events|
      invariant 0 <= i <= |events|
      invariant LastStart(events[i..], p, if foundMention then Some(result) else None) == LastStart(events, p, None)
    {
      var e := events[i];
      assert events[i..][1..] == events[i + 1..];
      if e.MentionMatch? && e.plainIndex <= p && e.plainIndex + |e.display| > p {
        result := e.plainIndex;
        foundMention := true;
      }
      i := i + 1;
    }
    r := if foundMention then Some(result) else None;
  }

  /** A result other than the initial one is the plain start of a mention containing `p`. */
  lemma {:induction false} LastStartFound(evs: seq<Event>, p: int, found: Option<int>)
    ensures var r := LastStart(evs, p, found);
      r == found || exists k :: 0 <= k < |evs| && Contains(evs[k], p) && r == Some(evs[k].plainIndex)
  {
    if evs != [] {
      var found' := if Contains(evs[0], p) then Some(evs[0].plainIndex) else found;
      LastStartFound(evs[1..], p, found');
      var r := LastStart(evs, p, found);
      if r != found' {
        var k :| 0 <= k < |evs[1..]| && Contains(evs[1..][k], p) && r == Some(evs[1..][k].plainIndex);
        assert evs[1..][k] == evs[k + 1];
      }
    }
  }

  /** When no mention contains `p`, the result stays as it was. */
  lemma {:induction false} LastStartNone(evs: seq<Event>, p: int, found: Option<int>)
    requires forall k :: 0 <= k < |evs| ==> !Contains(evs[k], p)
    ensures LastStart(evs, p, found) == found
  {
    if evs != [] {
      assert !Contains(evs[0], p);
      assert forall k :: 0 <= k < |evs[1..]| ==> evs[1..][k] == evs[k + 1];
      LastStartNone(evs[1..], p, found);
    }
  }

  /** In a chained trace, the mention containing `p` is the only one, so its start is the result. */
  lemma {:induction false} LastStartUnique(evs: seq<Event>, start: int, plain: int, k: nat, p: int, found: Option<int>)
    requires Chained(evs, start, plain) && k < |evs| && Contains(evs[k], p)
    ensures LastStart(evs, p, found) == Some(evs[k].plainIndex)
  {
    var rest := evs[1..];
    var start1, plain1 := start + |Raw(evs[0])|, plain + |Shown(evs[0])|;
    ChainedBounds(rest, start1, plain1);
    if k == 0 {
      assert forall j :: 0 <= j < |rest| ==> !Contains(rest[j], p);
      LastStartNone(rest, p, Some(evs[0].plainIndex));
    } else {
      assert rest[k - 1] == evs[k];
      assert !Contains(evs[0], p);
      LastStartUnique(rest, start1, plain1, k - 1, p, found);
    }
  }

  /**
   * `findStartOfMentionInPlainText` over a chained trace: the plain start of the mention
   * containing `p` when there is one, `undefined` otherwise.
   */
  lemma MentionStartIff(evs: seq<Event>, start: int, plain: int, p: int)
    requires Chained(evs, start, plain)
    ensures forall k :: 0 <= k < |evs| && Contains(evs[k], p) ==> LastStart(evs, p, None) == Some(evs[k].plainIndex)
    ensures LastStart(evs, p, None).None? <==> forall k :: 0 <= k < |evs| ==> !Contains(evs[k], p)
  {
    forall k | 0 <= k < |evs| && Contains(evs[k], p)
      ensures LastStart(evs, p, None) == Some(evs[k].plainIndex)
    {
      LastStartUnique(evs, start, plain, k, p, None);
    }
    if forall k :: 0 <= k < |evs| ==> !Contains(evs[k], p) {
      LastStartNone(evs, p, None);
    }
  }

  /** `isInsideOfMention`: a mention start was found and it is not `p` itself. */
  predicate InsideOfMention(evs: seq<Event>, p: int) {
    var s := LastStart(evs, p, None);
    s.Some? && s.value != p
  }

  /**
   * Over a chained trace, `isInsideOfMention` holds exactly when `p` lies strictly inside a
   * mention, which is exactly when `mapPlainTextIndex` gives `null` under `Null`.
   */
  lemma InsideIff(evs: seq<Event>, start: int, plain: int, p: int)
    requires Alternates(evs) && Chained(evs, start, plain)
    ensures InsideOfMention(evs, p) <==>
      exists k :: 0 <= k < |evs| && evs[k].MentionMatch? && evs[k].plainIndex < p < evs[k].plainIndex + |evs[k].display|
    ensures InsideOfMention(evs, p) <==> FirstHit(evs, p, Null) == Some(None)
  {
    NullIffInside(evs, start, plain, p);
    MentionStartIff(evs, start, plain, p);
    LastStartFound(evs, p, None);
  }

  /** Under `Start` and `End` no callback sets `null`, so `mapPlainTextIndex` returns a number. */
  lemma {:induction false} NotNull(evs: seq<Event>, len: nat, p: int, policy: Policy)
    requires policy != Null
    ensures MapIndex(evs, len, p, policy).Some?
  {
    if evs != [] && HitAt(evs[0], p, policy).None? {
      NotNull(evs[1..], len, p, policy);
    }
  }

  /** A result set by a callback lies at or before the end of the stretch the trace covers. */
  lemma {:induction false} HitAtMost(evs: seq<Event>, start: int, plain: int, p: int, policy: Policy)
    requires Chained(evs, start, plain)
    ensures var r := FirstHit(evs, p, policy); r.Some? && r.value.Some? ==> r.value.value <= start + |Emitted(evs)|
  {
    if evs != [] {
      var e := evs[0];
      assert Emitted(evs) == Raw(e) + Emitted(evs[1..]);
      if HitAt(e, p, policy).None? {
        HitAtMost(evs[1..], start + |Raw(e)|, plain + |Shown(e)|, p, policy);
      }
    }
  }

  /** Under `Start` or `End`, a plain offset that is not negative maps into the value, ends included. */
  lemma MapInRange(t: Template, value: string, tf: Transform, p: int, policy: Policy)
    requires Valid(t) && policy != Null && 0 <= p
    ensures var r := PlainToMarkup(t, value, tf, p, policy); r.Some? && 0 <= r.value <= |value|
  {
    var evs := Scan(t, value, tf);
    ScanShape(t, value, tf);
    ScanIsValue(t, value, tf);
    NotNull(evs, |value|, p, policy);
    HitAtLeast(evs, 0, 0, p, policy);
    HitAtMost(evs, 0, 0, p, policy);
  }
}
