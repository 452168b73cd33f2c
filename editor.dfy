/**
 * `applyChangeToValue` (src/utils.js:199-266): a change the user made to the plain text,
 * with the selection before and after it, is carried over to the marked-up value by
 * splicing (`spliceString`, src/utils.js:33-35) at offsets mapped so that no mention
 * token is cut apart, then corrected when the host rewrote more than the selection covers.
 */
module Editor {
  import opened Basics
  import opened Markup
  import opened Scanner
  import opened IndexMapper
  import opened Projection

  /** `spliceString(str, start, end, insert)`: `substring` clamps both offsets into the string. */
  function SpliceString(str: string, start: int, end: int, insert: string): string {
    Substring(str, 0, start) + insert + SubstringFrom(str, end)
  }

  /** The spliced string is the prefix up to the clamped start, the insertion, and the rest from the clamped end. */
  lemma SpliceShape(str: string, start: int, end: int, insert: string)
    ensures var r := SpliceString(str, start, end, insert);
      var a := Clamp(start, |str|);
      |r| == a + |insert| + |str| - Clamp(end, |str|)
      && r[..a] == str[..a] && OccursAt(r, insert, a) && r[a + |insert|..] == str[Clamp(end, |str|)..]
  {
    var r := SpliceString(str, start, end, insert);
    var a := Clamp(start, |str|);
    assert r == str[..a] + insert + str[Clamp(end, |str|)..];
    assert r[a..a + |insert|] == insert;
  }

  /**
   * Text lying wholly before the (clamped) start of a splice stays where it was; text lying
   * wholly after its (clamped) end moves by what the splice adds.
   */
  lemma SpliceKeeps(str: string, start: int, end: int, insert: string, sub: string, x: int)
    requires OccursAt(str, sub, x)
    ensures x + |sub| <= Clamp(start, |str|) ==> OccursAt(SpliceString(str, start, end, insert), sub, x)
    ensures Clamp(end, |str|) <= x ==>
      OccursAt(SpliceString(str, start, end, insert), sub, x - Clamp(end, |str|) + Clamp(start, |str|) + |insert|)
  {
    var a, b := Clamp(start, |str|), Clamp(end, |str|);
    var r := SpliceString(str, start, end, insert);
    assert r == str[..a] + insert + str[b..];
    if x + |sub| <= a {
      assert r[x..x + |sub|] == str[..a][x..x + |sub|];
    }
    if b <= x {
      var y := x - b + a + |insert|;
      assert r[y..y + |sub|] == str[b..][x - b..x - b + |sub|];
    }
  }

  /** The offsets and text `applyChangeToValue` first splices with, in plain-text terms. */
  datatype Window = Window(insert: string, spliceStart: int, spliceEnd: int)

  /**
   * The edit window (src/utils.js:212-229): a collapsed selection that did not move while the
   * length stayed the same is taken to have replaced the character before it; the insertion
   * is what the new plain text holds between the adjusted start and the end after the change.
   */
  function EditWindow(oldLen: nat, newPlain: string, startBefore: int, endBefore: int, endAfter: int): Window {
    var lengthDelta := oldLen - |newPlain|;
    var start := if startBefore == endBefore && endBefore == endAfter && oldLen == |newPlain| then startBefore - 1 else startBefore;
    var insert := Slice(newPlain, start, endAfter);
    var spliceStart := Min(start, endAfter);
    var spliceEnd := if start == endAfter then Max(endBefore, start + lengthDelta) else endBefore;
    Window(insert, spliceStart, spliceEnd)
  }

  /** The window names the change exactly: the new text is the previous one with `[spliceStart, spliceEnd)` replaced. */
  predicate Describes(prev: string, newPlain: string, w: Window) {
    0 <= w.spliceStart <= w.spliceEnd <= |prev| && newPlain == prev[..w.spliceStart] + w.insert + prev[w.spliceEnd..]
  }

  /** Typing, pasting or deleting over the selection `[c, d)` leaves the caret after the inserted text. */
  lemma ReplaceSelectionWindow(prev: string, c: int, d: int, ins: string)
    requires 0 <= c <= d <= |prev| && !(c == d && ins == [])
    ensures var newPlain := prev[..c] + ins + prev[d..];
      var w := EditWindow(|prev|, newPlain, c, d, c + |ins|);
      w == Window(ins, c, d) && Describes(prev, newPlain, w)
  {
    var newPlain := prev[..c] + ins + prev[d..];
    assert newPlain[c..c + |ins|] == ins;
  }

  /** Backspace with a collapsed selection at `c` removes the character before it. */
  lemma BackspaceWindow(prev: string, c: int)
    requires 1 <= c <= |prev|
    ensures var newPlain := prev[..c - 1] + prev[c..];
      var w := EditWindow(|prev|, newPlain, c, c, c - 1);
      w == Window("", c - 1, c) && Describes(prev, newPlain, w)
  {
    var newPlain := prev[..c - 1] + prev[c..];
    assert newPlain == prev[..c - 1] + "" + prev[c..];
  }

  /** Delete with a collapsed selection at `c` removes the character after it. */
  lemma DeleteWindow(prev: string, c: int)
    requires 0 <= c < |prev|
    ensures var newPlain := prev[..c] + prev[c + 1..];
      var w := EditWindow(|prev|, newPlain, c, c, c);
      w == Window("", c, c + 1) && Describes(prev, newPlain, w)
  {
    var newPlain := prev[..c] + prev[c + 1..];
    assert newPlain == prev[..c] + "" + prev[c + 1..];
  }

  /**
   * A combining input (an accent composed onto the character before the caret) keeps the
   * length and the caret; the correction at src/utils.js:212-217 makes the window that character.
   */
  lemma CombiningWindow(prev: string, c: int, x: char)
    requires 1 <= c <= |prev|
    ensures var newPlain := prev[..c - 1] + [x] + prev[c..];
      var w := EditWindow(|prev|, newPlain, c, c, c);
      w == Window([x], c - 1, c) && Describes(prev, newPlain, w)
  {
    var newPlain := prev[..c - 1] + [x] + prev[c..];
    assert newPlain[c - 1..c] == [x];
  }

  /** `mapPlainTextIndex` under `START` or `END`, which always returns a number. */
  function MarkupPoint(t: Template, value: string, tf: Transform, p: int, policy: Policy): int
    requires Valid(t) && policy != Null
  {
    NotNull(Scan(t, value, tf), |value|, p, policy);
    PlainToMarkup(t, value, tf, p, policy).value
  }

  /** `willRemoveMention`: one of the splice points maps to `null` under `NULL`. */
  function WillRemoveMention(t: Template, value: string, tf: Transform, spliceStart: int, spliceEnd: int): bool
    requires Valid(t)
  {
    PlainToMarkup(t, value, tf, spliceStart, Null).None? || PlainToMarkup(t, value, tf, spliceEnd, Null).None?
  }

  /** The first index at which `a` and `b` differ, reading past the end of either as `undefined`. */
  function FirstDifference(a: string, b: string): (r: nat)
    requires a != b
    ensures r <= |a| && r <= |b|
    ensures forall j :: 0 <= j < r ==> a[j] == b[j]
    ensures CharAt(a, r) != CharAt(b, r)
  {
    if a == [] || b == [] || a[0] != b[0] then 0
    else
      assert a == [a[0]] + a[1..] && b == [b[0]] + b[1..];
      1 + FirstDifference(a[1..], b[1..])
  }

  /** `spliceString(value, mapPlainTextIndex(start, START), mapPlainTextIndex(end, END), insert)`. */
  function SpliceMapped(t: Template, value: string, tf: Transform, start: int, end: int, insert: string): string
    requires Valid(t)
  {
    SpliceString(value, MarkupPoint(t, value, tf, start, Start), MarkupPoint(t, value, tf, end, End), insert)
  }

  /**
   * The correction for an auto-completion (src/utils.js:246-260): the splice restarts at the
   * first difference between the wanted and the obtained plain text and ends where the
   * unchanged remainder last occurs in the old plain text.
   */
  function Corrected(t: Template, value: string, tf: Transform, prev: string, newPlain: string, control: string,
                     endAfter: int): string
    requires Valid(t) && newPlain != control
  {
    var spliceStart := FirstDifference(newPlain, control);
    SpliceMapped(t, value, tf, spliceStart, LastIndexOf(prev, SubstringFrom(newPlain, endAfter)),
                 Slice(newPlain, spliceStart, endAfter))
  }

  /** What `applyChangeToValue(value, markup, plainTextValue, sb, eb, ea, displayTransform)` returns. */
  function ApplyChange(t: Template, value: string, newPlain: string, startBefore: int, endBefore: int, endAfter: int,
                       tf: Transform): string
    requires Valid(t)
  {
    var prev := PlainText(t, value, tf);
    var w := EditWindow(|prev|, newPlain, startBefore, endBefore, endAfter);
    var candidate := SpliceMapped(t, value, tf, w.spliceStart, w.spliceEnd, w.insert);
    if WillRemoveMention(t, value, tf, w.spliceStart, w.spliceEnd) then candidate
    else
      var control := PlainText(t, candidate, tf);
      if control == newPlain then candidate else Corrected(t, value, tf, prev, newPlain, control, endAfter)
  }

  /** `applyChangeToValue`: the selection variables are reassigned as the function goes. */
  method ApplyChangeToValue(t: Template, value: string, plainTextValue: string,
                            selectionStartBeforeChange: int, selectionEndBeforeChange: int, selectionEndAfterChange: int,
                            tf: Transform) returns (newValue: string)
    requires Valid(t)
    ensures newValue == ApplyChange(t, value, plainTextValue, selectionStartBeforeChange, selectionEndBeforeChange,
                                    selectionEndAfterChange, tf)
  {
    var oldPlainTextValue := PlainText(t, value, tf);
    var w := ChangeWindow(|oldPlainTextValue|, plainTextValue, selectionStartBeforeChange, selectionEndBeforeChange,
                          selectionEndAfterChange);
    var insert, spliceStart, spliceEnd := w.insert, w.spliceStart, w.spliceEnd;
    var controlSpliceStart := MapPlainTextIndex(t, value, spliceStart, Null, tf);
    var controlSpliceEnd := MapPlainTextIndex(t, value, spliceEnd, Null, tf);
    var willRemoveMention := controlSpliceStart.None? || controlSpliceEnd.None?;
    newValue := SpliceAt(t, value, tf, spliceStart, spliceEnd, insert);
    if !willRemoveMention {
      var controlPlainTextValue := PlainText(t, newValue, tf);
      if controlPlainTextValue != plainTextValue {
        spliceStart := DiffStart(plainTextValue, controlPlainTextValue);
        insert := Slice(plainTextValue, spliceStart, selectionEndAfterChange);
        spliceEnd := LastIndexOf(oldPlainTextValue, SubstringFrom(plainTextValue, selectionEndAfterChange));
        newValue := SpliceAt(t, value, tf, spliceStart, spliceEnd, insert);
      }
    }
  }

  /** The edit window, computed by reassigning the selection as `applyChangeToValue` does. */
  method ChangeWindow(oldLength: nat, plainTextValue: string, selectionStartBeforeChange: int,
                      selectionEndBeforeChange: int, selectionEndAfterChange: int) returns (w: Window)
    ensures w == EditWindow(oldLength, plainTextValue, selectionStartBeforeChange, selectionEndBeforeChange,
                            selectionEndAfterChange)
  {
    var lengthDelta := oldLength - |plainTextValue|;
    var startBefore := selectionStartBeforeChange;
    if startBefore == selectionEndBeforeChange && selectionEndBeforeChange == selectionEndAfterChange
       && oldLength == |plainTextValue| {
      startBefore := startBefore - 1;
    }
    var insert := Slice(plainTextValue, startBefore, selectionEndAfterChange);
    var spliceStart := Min(startBefore, selectionEndAfterChange);
    var spliceEnd := selectionEndBeforeChange;
    if startBefore == selectionEndAfterChange {
      spliceEnd := Max(selectionEndBeforeChange, startBefore + lengthDelta);
    }
    w := Window(insert, spliceStart, spliceEnd);
  }

  /** Maps both ends of a splice with `START` and `END` and splices the value there. */
  method SpliceAt(t: Template, value: string, tf: Transform, spliceStart: int, spliceEnd: int, insert: string)
    returns (newValue: string)
    requires Valid(t)
    ensures newValue == SpliceMapped(t, value, tf, spliceStart, spliceEnd, insert)
  {
    var mappedSpliceStart := MapPlainTextIndex(t, value, spliceStart, Start, tf);
    var mappedSpliceEnd := MapPlainTextIndex(t, value, spliceEnd, End, tf);
    NotNull(Scan(t, value, tf), |value|, spliceStart, Start);
    NotNull(Scan(t, value, tf), |value|, spliceEnd, End);
    newValue := SpliceString(value, mappedSpliceStart.value, mappedSpliceEnd.value, insert);
  }

  /** The loop that finds the start of the difference: it stops at the first index where the texts differ. */
  method DiffStart(plainTextValue: string, controlPlainTextValue: string) returns (spliceStart: nat)
    requires plainTextValue != controlPlainTextValue
    ensures forall j :: 0 <= j < spliceStart ==> CharAt(plainTextValue, j) == CharAt(controlPlainTextValue, j)
    ensures CharAt(plainTextValue, spliceStart) != CharAt(controlPlainTextValue, spliceStart)
    ensures spliceStart == FirstDifference(plainTextValue, controlPlainTextValue)
  {
    var first := FirstDifference(plainTextValue, controlPlainTextValue);
    spliceStart := 0;
    while CharAt(plainTextValue, spliceStart) == CharAt(controlPlainTextValue, spliceStart)
      invariant spliceStart <= first
      decreases first - spliceStart
    {
      spliceStart := spliceStart + 1;
    }
  }

  /**
   * Neither splice point falls strictly inside a mention's markup: the `START` and `END`
   * mappings only ever land on the boundaries of a mention.
   */
  lemma SplicePointsSafe(t: Template, value: string, tf: Transform, p: int, policy: Policy)
    requires Valid(t) && policy != Null
    ensures var evs := Scan(t, value, tf);
      forall k :: 0 <= k < |evs| && evs[k].MentionMatch? ==>
        !(evs[k].index < MarkupPoint(t, value, tf, p, policy) < evs[k].index + |evs[k].matched|)
  {
    ScanShape(t, value, tf);
    ScanIsValue(t, value, tf);
    MapNotInsideToken(Scan(t, value, tf), 0, 0, |value|, p, policy);
  }

  /** `willRemoveMention` holds exactly when a splice point lies strictly inside a mention's display. */
  lemma WillRemoveIff(t: Template, value: string, tf: Transform, spliceStart: int, spliceEnd: int)
    requires Valid(t)
    ensures var evs := Scan(t, value, tf);
      WillRemoveMention(t, value, tf, spliceStart, spliceEnd) <==>
        exists k :: 0 <= k < |evs| && evs[k].MentionMatch?
          && (evs[k].plainIndex < spliceStart < evs[k].plainIndex + |evs[k].display|
              || evs[k].plainIndex < spliceEnd < evs[k].plainIndex + |evs[k].display|)
  {
    var evs := Scan(t, value, tf);
    ScanShape(t, value, tf);
    NullIffInside(evs, 0, 0, spliceStart);
    NullIffInside(evs, 0, 0, spliceEnd);
  }

  /**
   * The splice keeps every mention outside the window: one whose display ends by
   * `spliceStart` stays where it was, one that starts at or after `spliceEnd` moves by what
   * the splice adds.
   */
  lemma SpliceKeepsMentions(t: Template, value: string, tf: Transform, spliceStart: int, spliceEnd: int, insert: string)
    requires Valid(t) && DisplaysNonEmpty(Scan(t, value, tf))
    ensures var evs := Scan(t, value, tf);
      var a := MarkupPoint(t, value, tf, spliceStart, Start);
      var b := MarkupPoint(t, value, tf, spliceEnd, End);
      var r := SpliceString(value, a, b, insert);
      (forall k :: 0 <= k < |evs| && evs[k].MentionMatch? && evs[k].plainIndex + |evs[k].display| <= spliceStart ==>
         OccursAt(r, evs[k].matched, evs[k].index))
      && (forall k :: 0 <= k < |evs| && evs[k].MentionMatch? && spliceEnd <= evs[k].plainIndex ==>
         OccursAt(r, evs[k].matched, evs[k].index - Clamp(b, |value|) + Clamp(a, |value|) + |insert|))
  {
    var evs := Scan(t, value, tf);
    var a := MarkupPoint(t, value, tf, spliceStart, Start);
    var b := MarkupPoint(t, value, tf, spliceEnd, End);
    forall k | 0 <= k < |evs| && evs[k].MentionMatch? && evs[k].plainIndex + |evs[k].display| <= spliceStart
      ensures OccursAt(SpliceString(value, a, b, insert), evs[k].matched, evs[k].index)
    {
      KeptBefore(t, value, tf, spliceStart, b, insert, k);
    }
    forall k | 0 <= k < |evs| && evs[k].MentionMatch? && spliceEnd <= evs[k].plainIndex
      ensures OccursAt(SpliceString(value, a, b, insert), evs[k].matched, evs[k].index - Clamp(b, |value|) + Clamp(a, |value|) + |insert|)
    {
      KeptAfter(t, value, tf, spliceStart, spliceEnd, insert, k);
    }
  }

  /**
   * A mention whose display ends by `spliceStart` stays where it was when the value is
   * spliced from the `START`-mapped `spliceStart`, whatever the end of the splice.
   */
  lemma KeptBefore(t: Template, value: string, tf: Transform, spliceStart: int, b: int, insert: string, k: nat)
    requires Valid(t) && DisplaysNonEmpty(Scan(t, value, tf))
    requires var evs := Scan(t, value, tf);
      k < |evs| && evs[k].MentionMatch? && evs[k].plainIndex + |evs[k].display| <= spliceStart
    ensures var evs := Scan(t, value, tf);
      OccursAt(SpliceString(value, MarkupPoint(t, value, tf, spliceStart, Start), b, insert), evs[k].matched, evs[k].index)
  {
    var evs := Scan(t, value, tf);
    var a := MarkupPoint(t, value, tf, spliceStart, Start);
    assert evs[k].index + |evs[k].matched| <= a <= |value| by {
      ScanShape(t, value, tf);
      ScanIsValue(t, value, tf);
      MapAfterMention(evs, 0, 0, |value|, k, spliceStart, Start);
      ChainedBounds(evs, 0, 0);
      MapInRange(t, value, tf, spliceStart, Start);
    }
    assert OccursAt(value, evs[k].matched, evs[k].index) by {
      ScanInValue(t, value, tf);
      assert Raw(evs[k]) == evs[k].matched;
    }
    SpliceKeeps(value, a, b, insert, evs[k].matched, evs[k].index);
  }

  /** `SpliceKeepsMentions` for one mention after the window. */
  lemma KeptAfter(t: Template, value: string, tf: Transform, spliceStart: int, spliceEnd: int, insert: string, k: nat)
    requires Valid(t)
    requires var evs := Scan(t, value, tf); k < |evs| && evs[k].MentionMatch? && spliceEnd <= evs[k].plainIndex
    ensures var evs := Scan(t, value, tf);
      var a := MarkupPoint(t, value, tf, spliceStart, Start);
      var b := MarkupPoint(t, value, tf, spliceEnd, End);
      OccursAt(SpliceString(value, a, b, insert), evs[k].matched,
               evs[k].index - Clamp(b, |value|) + Clamp(a, |value|) + |insert|)
  {
    var evs := Scan(t, value, tf);
    var b := MarkupPoint(t, value, tf, spliceEnd, End);
    assert b <= evs[k].index by {
      ScanShape(t, value, tf);
      MapBeforeMention(evs, 0, 0, k, spliceEnd, End);
    }
    assert OccursAt(value, evs[k].matched, evs[k].index) by {
      ScanInValue(t, value, tf);
      assert Raw(evs[k]) == evs[k].matched;
    }
    SpliceKeeps(value, MarkupPoint(t, value, tf, spliceStart, Start), b, insert, evs[k].matched, evs[k].index);
  }


  /**
   * In a value without mentions, an edit over the selection `[c, d)` whose new plain text
   * forms no mention either makes the new plain text the new value.
   */
  lemma EditWithoutMentions(t: Template, value: string, tf: Transform, c: int, d: int, ins: string)
    requires Valid(t) && 0 <= c <= d <= |value| && !(c == d && ins == [])
    requires MentionEvents(Scan(t, value, tf)) == []
    requires MentionEvents(Scan(t, value[..c] + ins + value[d..], tf)) == []
    ensures var newPlain := value[..c] + ins + value[d..];
      ApplyChange(t, value, newPlain, c, d, c + |ins|, tf) == newPlain
  {
    var newPlain := value[..c] + ins + value[d..];
    NoMentionsProjections(t, value, tf);
    NoMentionsProjections(t, newPlain, tf);
    ReplaceSelectionWindow(value, c, d, ins);
    MapWithoutMentions(t, value, tf, c, Start);
    MapWithoutMentions(t, value, tf, d, End);
    MapWithoutMentions(t, value, tf, c, Null);
    MapWithoutMentions(t, value, tf, d, Null);
    assert SpliceString(value, c, d, ins) == newPlain;
  }
}
