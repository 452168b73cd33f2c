/**
 * The non-UI logic of the `MentionsInput` component (src/MentionsInput.js): the array data
 * provider, the focused suggestion, the query counter that discards stale results, the
 * insertion of a chosen mention, and the selection kept across a change of the text.
 * The marked-up `value`, the `markup` template and `displayTransform` are props, passed in
 * as parameters; the component state and instance fields the logic updates are the
 * fields of `MentionsInput`.
 */
module Component {
  import opened Basics
  import opened Markup
  import opened Scanner
  import opened IndexMapper
  import opened Projection
  import opened Editor
  import opened Suggestions

  /** `data[i].display || data[i].id`: the text a query is searched in. */
  function SearchedText(item: Item): string {
    if item.display != [] then item.display else item.id
  }

  /** Whether the array provider keeps `item`: the query occurs in its text once both are case-folded by `lower`. */
  predicate Matches(item: Item, query: string, lower: string -> string) {
    IndexOf(lower(SearchedText(item)), lower(query)) >= 0
  }

  /** The elements of `data` the array provider keeps for `query`, in their order. */
  function Filter(data: seq<Item>, query: string, lower: string -> string): seq<Item> {
    if data == [] then [] else (if Matches(data[0], query, lower) then [data[0]] else []) + Filter(data[1..], query, lower)
  }

  /** Filtering a concatenation filters each part: the kept elements stay in their order. */
  lemma {:induction false} FilterAppend(a: seq<Item>, b: seq<Item>, query: string, lower: string -> string)
    ensures Filter(a + b, query, lower) == Filter(a, query, lower) + Filter(b, query, lower)
  {
    if a == [] {
      assert a + b == b;
    } else {
      var head := if Matches(a[0], query, lower) then [a[0]] else [];
      assert (a + b)[0] == a[0] && (a + b)[1..] == a[1..] + b;
      assert Filter(a + b, query, lower) == head + Filter(a[1..] + b, query, lower);
      FilterAppend(a[1..], b, query, lower);
      assert Filter(a, query, lower) == head + Filter(a[1..], query, lower);
    }
  }

  /** An element is among the results exactly when it is in the data and matches the query. */
  lemma {:induction false} FilterMembers(data: seq<Item>, query: string, lower: string -> string, x: Item)
    ensures x in Filter(data, query, lower) <==> x in data && Matches(x, query, lower)
  {
    if data != [] {
      FilterMembers(data[1..], query, lower, x);
      assert data == [data[0]] + data[1..];
    }
  }

  /** The function `_getDataProvider` builds for array data: the loop pushes each matching element. */
  method ArrayProvider(data: seq<Item>, query: string, lower: string -> string) returns (results: seq<Item>)
    ensures results == Filter(data, query, lower)
  {
    results := [];
    var i := 0;
    while i < |data|
      invariant i <= |data|
      invariant results == Filter(data[..i], query, lower)
    {
      FilterAppend(data[..i], [data[i]], query, lower);
      assert data[..i + 1] == data[..i] + [data[i]];
      if IndexOf(lower(SearchedText(data[i])), lower(query)) >= 0 {
        results := results + [data[i]];
      }
      i := i + 1;
    }
    assert data[..i] == data;
  }

  /** The focus after `shiftFocus(delta)` with `count` suggestions: `(count + focusIndex + delta) % count`. */
  function Shifted(count: int, focus: int, delta: int): int
    requires count > 0
  {
    JsRem(count + focus + delta, count)
  }

  /**
   * From a focus in `[0, count)`, a step of one either way stays in `[0, count)`, moving by
   * one modulo `count`: DOWN wraps from the last item to the first, UP from the first to the last.
   */
  lemma ShiftWraps(count: int, focus: int, delta: int)
    requires count > 0 && 0 <= focus < count && (delta == 1 || delta == -1)
    ensures var r := Shifted(count, focus, delta);
      0 <= r < count && r == (focus + delta) % count
      && (focus == count - 1 && delta == 1 ==> r == 0)
      && (focus == 0 && delta == -1 ==> r == count - 1)
  {
    var x := count + focus + delta;
    assert Shifted(count, focus, delta) == x % count;
    if focus + delta == count {
      ModTwice(count);
    } else if focus + delta == -1 {
      ModBelow(x, count);
      ModNeg(-1, count);
    } else {
      ModAbove(x, count);
      ModBelow(focus + delta, count);
    }
  }

  lemma ModBelow(x: int, n: int)
    requires 0 <= x < n
    ensures x % n == x
  {
  }

  lemma ModAbove(x: int, n: int)
    requires n <= x < 2 * n
    ensures x % n == x - n
  {
    ModBelow(x - n, n);
    assert (x - n) % n == x % n;
  }

  lemma ModTwice(n: int)
    requires 0 < n
    ensures (2 * n) % n == 0 && n % n == 0
  {
  }

  lemma ModNeg(x: int, n: int)
    requires -n <= x < 0
    ensures x % n == x + n
  {
  }

  /** The focus `updateSuggestions` keeps: one at or past the new count moves to the last item, or 0. */
  function ClampFocus(focus: int, count: nat): int {
    if focus >= count then Max(count - 1, 0) else focus
  }

  /** A clamped focus is unchanged below the count, and a focus at or above 0 lands in `[0, count)` when there are suggestions. */
  lemma ClampFocusRange(focus: int, count: nat)
    ensures focus < count ==> ClampFocus(focus, count) == focus
    ensures 0 <= focus ==> 0 <= ClampFocus(focus, count) && (count > 0 ==> ClampFocus(focus, count) < count)
  {
  }

  /** The markup `addMention` inserts: the template filled in, and a space after it when `appendSpaceOnAdd` is set. */
  function MentionMarkup(t: Template, item: Item, d: Descriptor): string {
    MakeMentionsMarkup(t, item.id, item.display, d.mtype) + (if d.appendSpaceOnAdd then " " else "")
  }

  /** The text `addMention` puts in the plain text: the transformed display, with the same optional space. */
  function DisplayValue(tf: Transform, item: Item, d: Descriptor): string {
    tf(item.id, item.display, Some(d.mtype)) + (if d.appendSpaceOnAdd then " " else "")
  }

  /** Where `addMention` splices the markup: from the `START`-mapped query start, as long as the query is. */
  function MentionSpliceStart(t: Template, tf: Transform, value: string, e: Entry): int
    requires Valid(t)
  {
    MarkupPoint(t, value, tf, e.querySequenceStart, Start)
  }

  /** The new value `addMention` computes for `item` chosen from the suggestions of `e`. */
  function ValueWithMention(t: Template, tf: Transform, value: string, item: Item, e: Entry): string
    requires Valid(t)
  {
    var start := MentionSpliceStart(t, tf, value, e);
    SpliceString(value, start, start + e.querySequenceEnd - e.querySequenceStart, MentionMarkup(t, item, e.descriptor))
  }

  /** The new plain text `addMention` computes: the query replaced by the display value. */
  function PlainWithMention(tf: Transform, item: Item, e: Entry): string {
    SpliceString(e.plainTextValue, e.querySequenceStart, e.querySequenceEnd, DisplayValue(tf, item, e.descriptor))
  }

  /**
   * In the plain text, the query `[qs, qe)` is replaced by the display value, and the caret
   * `qs + |displayValue|` sits right after it.
   */
  lemma AddMentionPlain(tf: Transform, item: Item, e: Entry)
    requires 0 <= e.querySequenceStart <= e.querySequenceEnd <= |e.plainTextValue|
    ensures var dv := DisplayValue(tf, item, e.descriptor);
      var qs, qe := e.querySequenceStart, e.querySequenceEnd;
      PlainWithMention(tf, item, e) == e.plainTextValue[..qs] + dv + e.plainTextValue[qe..]
      && OccursAt(PlainWithMention(tf, item, e), dv, qs)
  {
    var dv := DisplayValue(tf, item, e.descriptor);
    var r := PlainWithMention(tf, item, e);
    SpliceShape(e.plainTextValue, e.querySequenceStart, e.querySequenceEnd, dv);
    assert r == r[..e.querySequenceStart] + r[e.querySequenceStart..e.querySequenceStart + |dv|]
                + r[e.querySequenceStart + |dv|..];
  }

  /**
   * In the value, the markup `[start, start + (qe - qs))` is replaced by the mention's
   * markup, where `start` is the `START`-mapped query start.
   */
  lemma AddMentionValue(t: Template, tf: Transform, value: string, item: Item, e: Entry)
    requires Valid(t) && 0 <= e.querySequenceStart <= e.querySequenceEnd
    ensures var start := MentionSpliceStart(t, tf, value, e);
      var end := Clamp(start + e.querySequenceEnd - e.querySequenceStart, |value|);
      var r := ValueWithMention(t, tf, value, item, e);
      0 <= start <= end
      && r == value[..start] + MentionMarkup(t, item, e.descriptor) + value[end..]
  {
    var start := MentionSpliceStart(t, tf, value, e);
    var ins := MentionMarkup(t, item, e.descriptor);
    MapInRange(t, value, tf, e.querySequenceStart, Start);
    SpliceShape(value, start, start + e.querySequenceEnd - e.querySequenceStart, ins);
    var r := ValueWithMention(t, tf, value, item, e);
    assert r == r[..start] + r[start..start + |ins|] + r[start + |ins|..];
  }

  /** Adding a mention keeps every mention whose display ends by the query start where it was. */
  lemma AddMentionKeeps(t: Template, tf: Transform, value: string, item: Item, e: Entry)
    requires Valid(t) && DisplaysNonEmpty(Scan(t, value, tf))
    ensures var evs := Scan(t, value, tf);
      forall k :: 0 <= k < |evs| && evs[k].MentionMatch? && evs[k].plainIndex + |evs[k].display| <= e.querySequenceStart ==>
        OccursAt(ValueWithMention(t, tf, value, item, e), evs[k].matched, evs[k].index)
  {
    var start := MentionSpliceStart(t, tf, value, e);
    var b := start + e.querySequenceEnd - e.querySequenceStart;
    var ins := MentionMarkup(t, item, e.descriptor);
    var evs := Scan(t, value, tf);
    forall k | 0 <= k < |evs| && evs[k].MentionMatch? && evs[k].plainIndex + |evs[k].display| <= e.querySequenceStart
      ensures OccursAt(ValueWithMention(t, tf, value, item, e), evs[k].matched, evs[k].index)
    {
      KeptBefore(t, value, tf, e.querySequenceStart, b, ins, k);
    }
  }

  /** Where `updateMentionsQueries` looks for a trigger: from the end of the last mention before the caret up to the caret. */
  datatype Searched = Searched(substringStartIndex: nat, substring: string)

  /**
   * What `updateMentionsQueries` searches for triggers: nothing when the caret maps to
   * `null`, else the plain text from the end of the last mention in the markup up to the
   * mapped caret.
   */
  function SearchWindow(t: Template, tf: Transform, value: string, plainTextValue: string, caretPosition: int): Option<Searched>
    requires Valid(t)
  {
    var positionInValue := PlainToMarkup(t, value, tf, caretPosition, Null);
    if positionInValue.None? then None
    else
      var start := EndOfLastMention(t, Substring(value, 0, positionInValue.value), tf);
      Some(Searched(start, Substring(plainTextValue, start, caretPosition)))
  }

  /** No query is issued exactly when the caret lies strictly inside a mention's display. */
  lemma SearchWindowNone(t: Template, tf: Transform, value: string, plainTextValue: string, caretPosition: int)
    requires Valid(t)
    ensures var evs := Scan(t, value, tf);
      SearchWindow(t, tf, value, plainTextValue, caretPosition).None? <==>
        exists k :: 0 <= k < |evs| && evs[k].MentionMatch?
          && evs[k].plainIndex < caretPosition < evs[k].plainIndex + |evs[k].display|
  {
    WillRemoveIff(t, value, tf, caretPosition, caretPosition);
  }

  /** A searched window starts at the end of the last mention in the markup before the caret, and that end is at most its plain text's length. */
  lemma SearchWindowStart(t: Template, tf: Transform, value: string, plainTextValue: string, caretPosition: int)
    requires Valid(t)
    ensures var w := SearchWindow(t, tf, value, plainTextValue, caretPosition);
      w.Some? ==>
        var prefix := Substring(value, 0, PlainToMarkup(t, value, tf, caretPosition, Null).value);
        var r := MentionsOf(Scan(t, prefix, tf));
        (r == [] ==> w.value.substringStartIndex == 0)
        && (forall k :: 0 <= k < |r| ==> r[k].plainTextIndex + |r[k].display| <= w.value.substringStartIndex)
        && w.value.substringStartIndex <= |Projected(Scan(t, prefix, tf))|
  {
    var w := SearchWindow(t, tf, value, plainTextValue, caretPosition);
    if w.Some? {
      EndOfLastMentionBounds(t, Substring(value, 0, PlainToMarkup(t, value, tf, caretPosition, Null).value), tf);
    }
  }

  /** The selection `handleChange` stores, and whether it must be restored after rendering. */
  datatype Selection = Selection(start: int, end: int, restore: bool)

  /**
   * The selection after a change: when the caret after the change falls in a mention of the
   * old value that starts before the old selection end, both ends collapse to that
   * mention's start; otherwise the selection is the target's. A `null` selection end reads as 0.
   */
  function SelectionAfterChange(t: Template, tf: Transform, value: string, selectionEnd: Option<int>,
                                targetStart: int, targetEnd: int): Selection
    requires Valid(t)
  {
    var startOfMention := MentionStart(t, value, tf, targetStart);
    var endBefore := if selectionEnd.Some? then selectionEnd.value else 0;
    if startOfMention.Some? && endBefore > startOfMention.value then Selection(startOfMention.value, startOfMention.value, true)
    else Selection(targetStart, targetEnd, false)
  }

  /**
   * The selection collapses, to `s`, exactly when some mention of the old value starts at
   * `s`, holds the caret in its display, and starts before the old selection end.
   */
  lemma SelectionCollapse(t: Template, tf: Transform, value: string, selectionEnd: int, targetStart: int, targetEnd: int)
    requires Valid(t)
    ensures var sel := SelectionAfterChange(t, tf, value, Some(selectionEnd), targetStart, targetEnd);
      var evs := Scan(t, value, tf);
      (sel.restore ==>
         sel.start == sel.end && sel.start < selectionEnd
         && exists k :: 0 <= k < |evs| && Contains(evs[k], targetStart) && evs[k].plainIndex == sel.start)
      && (!sel.restore ==> sel == Selection(targetStart, targetEnd, false))
      && ((exists k :: 0 <= k < |evs| && Contains(evs[k], targetStart) && evs[k].plainIndex < selectionEnd) ==> sel.restore)
  {
    var evs := Scan(t, value, tf);
    ScanShape(t, value, tf);
    MentionStartIff(evs, 0, 0, targetStart);
    LastStartFound(evs, targetStart, None);
  }

  /** The arithmetic of `addMention`: the new value, the new plain text and the new caret. */
  method MentionInserted(t: Template, tf: Transform, value: string, item: Item, e: Entry)
    returns (newValue: string, newPlainTextValue: string, newCaretPosition: int)
    requires Valid(t)
    ensures newValue == ValueWithMention(t, tf, value, item, e)
    ensures newPlainTextValue == PlainWithMention(tf, item, e)
    ensures newCaretPosition == e.querySequenceStart + |DisplayValue(tf, item, e.descriptor)|
  {
    var mapped := MapPlainTextIndex(t, value, e.querySequenceStart, Start, tf);
    NotNull(Scan(t, value, tf), |value|, e.querySequenceStart, Start);
    var start := mapped.value;
    var end := start + e.querySequenceEnd - e.querySequenceStart;
    var insert := MakeMentionsMarkup(t, item.id, item.display, e.descriptor.mtype);
    if e.descriptor.appendSpaceOnAdd {
      insert := insert + " ";
    }
    newValue := SpliceString(value, start, end, insert);
    var displayValue := tf(item.id, item.display, Some(e.descriptor.mtype));
    if e.descriptor.appendSpaceOnAdd {
      displayValue := displayValue + " ";
    }
    newCaretPosition := e.querySequenceStart + |displayValue|;
    newPlainTextValue := SpliceString(e.plainTextValue, e.querySequenceStart, e.querySequenceEnd, displayValue);
  }

  /** The selection adjustment of `handleChange`, reading the start of a mention off the callbacks. */
  method AdjustSelection(t: Template, tf: Transform, value: string, selectionEnd: Option<int>,
                         targetStart: int, targetEnd: int) returns (sel: Selection)
    requires Valid(t)
    ensures sel == SelectionAfterChange(t, tf, value, selectionEnd, targetStart, targetEnd)
  {
    var selectionStart := targetStart;
    var newEnd := targetEnd;
    var setSelectionAfterMentionChange := false;
    var startOfMention := FindStartOfMentionInPlainText(t, value, selectionStart, tf);
    var endBefore := if selectionEnd.Some? then selectionEnd.value else 0;
    if startOfMention.Some? && endBefore > startOfMention.value {
      selectionStart := startOfMention.value;
      newEnd := selectionStart;
      setSelectionAfterMentionChange := true;
    }
    sel := Selection(selectionStart, newEnd, setSelectionAfterMentionChange);
  }

  class MentionsInput {
    /** `state.focusIndex`: the highlighted suggestion. */
    var focusIndex: int
    /** `_queryId`: the generation of the latest query. */
    var queryId: int
    /** `this.suggestions`, which every update also writes to `state.suggestions`. */
    var suggestions: SuggestionMap
    var selectionStart: Option<int>
    var selectionEnd: Option<int>
    var setSelectionAfterMentionChange: bool

    /** The focus names a suggestion whenever there are some. */
    predicate FocusOk()
      reads this
    {
      0 <= focusIndex && (Total(suggestions) > 0 ==> focusIndex < Total(suggestions))
    }

    /** The initial state and `_queryId = 0`. */
    constructor()
      ensures focusIndex == 0 && queryId == 0 && suggestions == []
      ensures selectionStart == None && selectionEnd == None && !setSelectionAfterMentionChange
      ensures FocusOk()
    {
      focusIndex := 0;
      queryId := 0;
      suggestions := [];
      selectionStart := None;
      selectionEnd := None;
      setSelectionAfterMentionChange := false;
    }

    /** `shiftFocus(delta)`, reached from the UP and DOWN keys only while there are suggestions. */
    method ShiftFocus(delta: int)
      requires Total(suggestions) > 0
      modifies this
      ensures focusIndex == Shifted(Total(old(suggestions)), old(focusIndex), delta)
      ensures suggestions == old(suggestions) && queryId == old(queryId)
      ensures selectionStart == old(selectionStart) && selectionEnd == old(selectionEnd)
      ensures setSelectionAfterMentionChange == old(setSelectionAfterMentionChange)
      ensures old(FocusOk()) && (delta == 1 || delta == -1) ==> FocusOk()
    {
      var suggestionsCount := CountSuggestions(suggestions);
      if FocusOk() && (delta == 1 || delta == -1) {
        ShiftWraps(suggestionsCount, focusIndex, delta);
      }
      focusIndex := JsRem(suggestionsCount + focusIndex + delta, suggestionsCount);
    }

    /** `clearSuggestions`: a new generation, no suggestions, focus back to the first. */
    method ClearSuggestions()
      modifies this
      ensures queryId == old(queryId) + 1 && suggestions == [] && focusIndex == 0
      ensures selectionStart == old(selectionStart) && selectionEnd == old(selectionEnd)
      ensures setSelectionAfterMentionChange == old(setSelectionAfterMentionChange)
      ensures FocusOk()
    {
      queryId := queryId + 1;
      suggestions := [];
      focusIndex := 0;
    }

    /**
     * `updateMentionsQueries` up to the trigger matching: a new generation and no
     * suggestions, then the window of plain text searched for a trigger, if any.
     */
    method UpdateMentionsQueries(t: Template, tf: Transform, value: string, plainTextValue: string, caretPosition: int)
      returns (searched: Option<Searched>)
      requires Valid(t)
      modifies this
      ensures queryId == old(queryId) + 1 && suggestions == [] && focusIndex == old(focusIndex)
      ensures selectionStart == old(selectionStart) && selectionEnd == old(selectionEnd)
      ensures setSelectionAfterMentionChange == old(setSelectionAfterMentionChange)
      ensures searched == SearchWindow(t, tf, value, plainTextValue, caretPosition)
      ensures old(FocusOk()) ==> FocusOk()
    {
      queryId := queryId + 1;
      suggestions := [];
      var positionInValue := MapPlainTextIndex(t, value, caretPosition, Null, tf);
      if positionInValue.None? {
        return None;
      }
      var mentions := GetMentions(t, Substring(value, 0, positionInValue.value), tf);
      var substringStartIndex := if mentions == [] then 0 else mentions[|mentions| - 1].plainTextIndex + |mentions[|mentions| - 1].display|;
      assert substringStartIndex == EndOfLast(mentions);
      searched := Some(Searched(substringStartIndex, Substring(plainTextValue, substringStartIndex, caretPosition)));
    }

    /**
     * `updateSuggestions`: results for an older generation are dropped; otherwise the entry
     * for the descriptor's type is replaced and the focus is kept on a suggestion.
     */
    method UpdateSuggestions(forQueryId: int, e: Entry)
      modifies this
      ensures forQueryId != old(queryId) ==> suggestions == old(suggestions) && focusIndex == old(focusIndex)
      ensures forQueryId == old(queryId) ==>
        suggestions == Merge(old(suggestions), e.descriptor.mtype, e)
        && focusIndex == ClampFocus(old(focusIndex), Total(suggestions))
      ensures queryId == old(queryId)
      ensures selectionStart == old(selectionStart) && selectionEnd == old(selectionEnd)
      ensures setSelectionAfterMentionChange == old(setSelectionAfterMentionChange)
      ensures old(FocusOk()) ==> FocusOk()
    {
      if forQueryId != queryId {
        return;
      }
      suggestions := Merge(suggestions, e.descriptor.mtype, e);
      var suggestionsCount := CountSuggestions(suggestions);
      ClampFocusRange(focusIndex, suggestionsCount);
      focusIndex := if focusIndex >= suggestionsCount then Max(suggestionsCount as int - 1, 0) else focusIndex;
    }

    /**
     * `addMention(item, e)`: splices the mention into the value and its display into the
     * plain text, puts the caret after the display, and closes the suggestions.
     */
    method AddMention(t: Template, tf: Transform, value: string, item: Item, e: Entry)
      returns (newValue: string, newPlainTextValue: string, mentions: seq<Mention>)
      requires Valid(t)
      modifies this
      ensures newValue == ValueWithMention(t, tf, value, item, e)
      ensures newPlainTextValue == PlainWithMention(tf, item, e)
      ensures mentions == MentionsOf(Scan(t, newValue, Identity()))
      ensures var caret := e.querySequenceStart + |DisplayValue(tf, item, e.descriptor)|;
        selectionStart == Some(caret) && selectionEnd == Some(caret) && setSelectionAfterMentionChange
      ensures queryId == old(queryId) + 1 && suggestions == [] && focusIndex == 0
      ensures FocusOk()
    {
      var newCaretPosition;
      newValue, newPlainTextValue, newCaretPosition := MentionInserted(t, tf, value, item, e);
      selectionStart := Some(newCaretPosition);
      selectionEnd := Some(newCaretPosition);
      setSelectionAfterMentionChange := true;
      mentions := GetMentions(t, newValue, Identity());
      ClearSuggestions();
    }

    /**
     * `handleChange`: the change is applied to the value, the plain text is read back from
     * the new value, and the selection is taken from the target unless a mention was cut.
     */
    method HandleChange(t: Template, tf: Transform, value: string, targetValue: string,
                        targetSelectionStart: int, targetSelectionEnd: int)
      returns (newValue: string, newPlainTextValue: string, mentions: seq<Mention>)
      requires Valid(t) && selectionStart.Some? && selectionEnd.Some?
      modifies this
      ensures newValue == ApplyChange(t, value, targetValue, old(selectionStart).value, old(selectionEnd).value,
                                      targetSelectionEnd, tf)
      ensures newPlainTextValue == PlainText(t, newValue, tf)
      ensures mentions == MentionsOf(Scan(t, newValue, Identity()))
      ensures var sel := SelectionAfterChange(t, tf, value, old(selectionEnd), targetSelectionStart, targetSelectionEnd);
        selectionStart == Some(sel.start) && selectionEnd == Some(sel.end) && setSelectionAfterMentionChange == sel.restore
      ensures focusIndex == old(focusIndex) && queryId == old(queryId) && suggestions == old(suggestions)
    {
      newValue := ApplyChangeToValue(t, value, targetValue, selectionStart.value, selectionEnd.value,
                                     targetSelectionEnd, tf);
      newPlainTextValue := PlainText(t, newValue, tf);
      var sel := AdjustSelection(t, tf, value, selectionEnd, targetSelectionStart, targetSelectionEnd);
      selectionStart := Some(sel.start);
      selectionEnd := Some(sel.end);
      setSelectionAfterMentionChange := sel.restore;
      mentions := GetMentions(t, newValue, Identity());
    }
  }
}
