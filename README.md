# react-mentions: the markup ↔ plain-text engine, in Dafny

This project models the core of `react-mentions`, a text input that supports `@mentions`. The component stores a marked-up value such as `Hello @[Alice](user:1)`. It shows the user a plain-text projection of that value, `Hello Alice`, and keeps the two in step while the user edits.

The model covers:

- **Markup template.** A template such as `@[__display__](__id__)` is literal text plus at most one each of `__id__`, `__display__` and `__type__`. It determines which capture group holds what (`getPositionOfCapturingGroup`). Its matcher is defined directly: each placeholder lazily matches one or more characters that are not line terminators, a global `exec` finds the leftmost start, and the lexicographically smallest group lengths win.
- **Scanner.** `iterateMentionsMarkup` reports alternating text runs and mentions, each with its offset in the markup and in the plain text. Its callback trace is the value of `Scanner.Scan`.
- **Index mapper.** `mapPlainTextIndex` under the `START`, `END` and `NULL` policies, plus `findStartOfMentionInPlainText` and `isInsideOfMention`.
- **Projections.** `getPlainText`, `getPlainAndStripped`, `getMentions`, `getEndOfLastMention` and `makeMentionsMarkup`.
- **Edit application.** `applyChangeToValue`: a plain-text edit, together with the selection before and after it, is carried over to the marked-up value. It splices with `spliceString` at mapped offsets that never cut a mention token, and it reconciles an auto-correction made by the host.
- **Suggestions.** `countSuggestions`, `getSuggestions` and `getSuggestion` flatten the per-type result lists. The `extend` merge is used by `updateSuggestions`.
- **Component logic.** The non-UI logic of `MentionsInput` is the class `Component.MentionsInput`, with fields `focusIndex`, `queryId` (`_queryId`), `suggestions`, `selectionStart`, `selectionEnd` and `setSelectionAfterMentionChange`. It covers:
  - the array data provider;
  - focus shifting;
  - the query generation counter;
  - `updateSuggestions`;
  - `addMention`;
  - the selection adjustment in `handleChange`.

Props (`value`, `markup`, `displayTransform`) and the DOM event's target (its value and selection) are method parameters. `displayTransform` is an uninterpreted function `(id, display, type) -> string`; `Scanner.Identity` is its default, which returns the display.

Where a comment and the code disagree, the model follows the code. The comment on `findStartOfMentionInPlainText` (src/utils.js:171-173) says the function returns its input when the offset is not inside a mention. The code returns `undefined` (src/utils.js:186-188), which is modelled as `None`.

Several JavaScript behaviours are modelled as written:

- **`substring` and `slice`.** `substring` clamps its bounds and swaps them when they are reversed (`Basics.Substring`). `slice` counts negative bounds from the end (`Basics.Slice`).
- **`lastIndexOf`.** It may return -1.
- **The type passed by `getPlainText`.** It passes `arguments[typePos + 1]` as the type, which is the first group when the template has no `__type__` (`Projection.TypeArgument`). The scanner passes no type in that case.

Modules, one per file:
- `Basics`
- `Markup`
- `Matcher`
- `Scanner`
- `IndexMapper` (mapper.dfy)
- `Projection`
- `RoundTrip`
- `Editor`
- `Suggestions`
- `Component` (mentions_input.dfy)

## Model

| member | source | states |
|---|---|---|
| Markup.CapturingGroupPosition | src/utils.js:54-90 | It fails exactly for a parameter name other than id, display or type, or for a template with neither `__id__` nor `__display__`. For `type` it gives null exactly when `__type__` is absent. For id and display it always gives a number. |
| Markup.GroupPositionIsRank | src/utils.js:60-89 | For a valid template, a present placeholder's group is its rank among the present placeholders in template order. A missing `__id__` or `__display__` shares the other's group, and a missing `__type__` gives null. |
| Markup.SortedRank | src/utils.js:80-89 | After the offsets are sorted with null last, the position of a present placeholder's offset is its rank. |
| Markup.TypeGroupPosition | src/utils.js:74-89 | With `__type__` present, its group is its rank. |
| Markup.PlaceholderIndex | src/utils.js:60-67 | `markup.indexOf(placeholder)` is a number exactly when the placeholder is present. |
| Markup.Rank | src/utils.js:80-88 | The rank of a present placeholder indexes the list of placeholders in template order, at that placeholder. |
| Scanner.LayoutFromGroupPositions | src/utils.js:97-99 | The group layout the scanner reads agrees with `getPositionOfCapturingGroup` for id, display and type. |
| Scanner.GroupLayout | src/utils.js:97-109 | Every group the layout reads exists, and a type group is read exactly when `__type__` is present. |
| Matcher.MatchFrom | src/utils.js:21-31 | A lazy match at `i` ends within the text, after `i` when the template has a placeholder, and has one group per placeholder. |
| Matcher.MatchSound | src/utils.js:21-31 | What the lazy matcher reports is a match: each group is non-empty with no line terminator, and the filled-in template occurs at `i` and ends where the match ends. |
| Matcher.MatchLeast | src/utils.js:21-31 | If any match exists at `i`, the lazy matcher finds one, and its group lengths are lexicographically at most those of every other match. |
| Matcher.FindNextFirst | src/utils.js:106 | `exec` from `lastIndex` reports the match at the first start position where one exists, and no start before it has a match. |
| Matcher.FindNextLeftmost | src/utils.js:106 | The start `exec` reports is the leftmost at or after `lastIndex`. |
| Matcher.FindNext | src/utils.js:106 | A reported match lies within the text, at or after `lastIndex`, and is non-empty for a template with a placeholder. |
| Scanner.Execs | src/utils.js:106-121 | The successive `exec` results are ordered and do not overlap, and each resumes at the previous `lastIndex`. |
| Scanner.ExecsStep | src/utils.js:106-121 | The first `exec` hit heads the list of hits, and the rest resume at its end. |
| Scanner.MatchEvents | src/utils.js:107-118 | One hit makes a text-run callback for the text since `start`, then a mention callback. The mention callback receives the matched text, its index, and a plain offset advanced by the run's length. |
| Scanner.HitEvents | src/utils.js:107-118 | The loop body makes exactly the two callbacks of `MatchEvents`. |
| Scanner.IterateMentionsMarkup | src/utils.js:95-126 | The `while (regex.exec)` loop followed by the trailing-text call produces exactly the trace `Scan`. |
| Scanner.Advance | src/utils.js:106-121 | One loop iteration strictly advances `start` and keeps the already-made calls a prefix of `Scan`. |
| Scanner.LoopStep | src/utils.js:106-121 | The loop invariant is preserved by one hit. |
| Scanner.ScanShape | src/utils.js:95-126 | The callbacks alternate: a possibly empty text run before each mention, and at most one non-empty trailing run. Each callback's offsets are where the previous one's markup and plain text end. |
| Scanner.ScanIsValue | src/utils.js:95-126 | The text runs and matched mention strings, concatenated in callback order, give back exactly the value. |
| Scanner.ScanOffsets | src/utils.js:113-120 | Each markup offset is the total length emitted before it. Each plain offset is the total length of the earlier runs plus the earlier transformed displays. |
| Scanner.ChainedOffsets | src/utils.js:113-120 | The same facts hold for any chained trace, relative to its starting offsets. |
| Scanner.ChainedBounds | src/utils.js:113-120 | Chained callbacks are in order and do not overlap in either text, and all of them lie within what the trace covers. |
| Scanner.ScanInValue | src/utils.js:113-117 | Every callback's text occurs in the value at its markup offset. |
| Scanner.MentionEvents | src/utils.js:117 | The mention callbacks of a trace are exactly its mention events. |
| IndexMapper.MapPlainTextIndex | src/utils.js:135-169 | The callbacks that set `result` compute `PlainToMarkup`: the first callback to claim the offset wins, and `value.length` is the result when none does. |
| IndexMapper.MapInTextRun | src/utils.js:141-147 | An offset after a text run's start and up to its end maps linearly to the run's markup start plus the distance into the run. |
| IndexMapper.RunStart | src/utils.js:141-147 | When displays are non-empty, the offset at a text run's own start maps to the run's markup start under every policy. That offset is 0, or the caret right after a mention, which therefore maps to that mention's markup end. With `MapInTextRun` this covers every offset of a run. |
| IndexMapper.MapAtMentionStart | src/utils.js:141-160 | When displays are non-empty, an offset exactly at a mention's plain start maps to that mention's markup start under every policy. |
| IndexMapper.MapInsideMention | src/utils.js:149-160 | An offset strictly inside a mention gives the markup start under `START`, the markup start plus the match length under `END`, and null under `NULL`. |
| IndexMapper.MapPastEnd | src/utils.js:166-168 | An offset past the end of the plain text is claimed by no callback, so it maps to `value.length`. |
| IndexMapper.MapWithoutMentions | src/utils.js:135-169 | When the value has no mention, the offsets 0 to the length map to themselves. |
| IndexMapper.NullIffInside | src/utils.js:149-157 | Under `NULL` the result is null exactly when the offset lies strictly inside some mention's display. |
| IndexMapper.NullWitness | src/utils.js:149-157 | A null result names the mention that contains the offset. |
| IndexMapper.NotNull | src/utils.js:155-168 | Under `START` and `END` the result is always a number. |
| IndexMapper.MapInRange | src/utils.js:135-169 | Under `START` and `END`, a non-negative offset maps into `[0, value.length]`. |
| IndexMapper.MapNotInsideToken | src/utils.js:135-169 | Under `START` and `END` the result never falls strictly inside a mention's markup. |
| IndexMapper.MapBeforeMention | src/utils.js:141-160 | An offset at or before a mention's plain start maps to at most its markup start. |
| IndexMapper.MapAfterMention | src/utils.js:141-168 | When displays are non-empty, an offset at or after a mention's plain end maps to at least its markup end. |
| IndexMapper.HitAtLeast | src/utils.js:141-160 | An offset at or after a trace's plain start maps, under `START` and `END`, to at least its markup start. |
| IndexMapper.HitAtMost | src/utils.js:141-160 | A claimed offset maps to at most the end of the markup the trace covers. |
| IndexMapper.NoHitBefore | src/utils.js:141-160 | Callbacks that end before the offset claim nothing. |
| IndexMapper.FindStartOfMentionInPlainText | src/utils.js:174-189 | The callbacks set `result` and `foundMention` as `MentionStart` says: the plain start of the last mention whose display holds the offset, or `undefined`. |
| IndexMapper.MentionStartIff | src/utils.js:174-189 | When a mention's display holds the offset, the result is that mention's plain start. The result is `undefined` exactly when no mention holds the offset. |
| IndexMapper.LastStartUnique | src/utils.js:178-183 | Because displays do not overlap, the mention holding the offset is the one the loop reports. |
| IndexMapper.LastStartFound | src/utils.js:178-188 | A reported start belongs to a mention that holds the offset. |
| IndexMapper.LastStartNone | src/utils.js:178-188 | If no mention holds the offset, nothing is reported. |
| IndexMapper.InsideIff | src/utils.js:192-195 | `isInsideOfMention` holds exactly when the offset is strictly inside some mention's display, and exactly when `mapPlainTextIndex` under `NULL` gives null. |
| Projection.PlainTextIsProjected | src/utils.js:268-280 | With a `__type__` in the template, or a transform that ignores the type, `getPlainText` is the text runs interleaved with the transformed displays. |
| Projection.ReplaceIsProjected | src/utils.js:268-280 | The `replace` over all hits equals the plain text of the scan from the same point. |
| Projection.DisplayIsReplacement | src/utils.js:272-279 | The replacer's result is the display the scanner reports, when the two agree on the type. |
| Projection.StrippedIsRuns | src/utils.js:287-293 | `stripped` is the scan's text runs alone, in order. |
| Projection.StripIsRuns | src/utils.js:290 | The `replace` with the empty string keeps exactly the text between hits. |
| Projection.GetPlainAndStripped | src/utils.js:287-293 | `stripped` is the text runs. `plain` is the projected plain text under the condition of `PlainTextIsProjected`. |
| Projection.NoMentionsProjections | src/utils.js:268-293 | Without mentions, both `plain` and `stripped` equal the value. |
| Projection.IdentityIgnoresType | src/utils.js:268-280 | The default transform ignores the type, so `PlainTextIsProjected` applies to it. |
| Projection.GetMentions | src/utils.js:295-307 | The loop that pushes one record per mention callback computes `MentionsOf(Scan)`. |
| Projection.PushMentions | src/utils.js:297-305 | The pushes over the callbacks, in order, give `MentionsOf`. |
| Projection.ScanMentions | src/utils.js:295-307 | There is one mention per `exec` hit, at that hit's index. The indices strictly increase, and each mention's plain end is at most the next one's plain start. |
| Projection.MentionsPerHit | src/utils.js:295-307 | Each hit yields exactly one mention record, at the hit's index. |
| Projection.MentionsWithin | src/utils.js:295-307 | Every mention lies within the offsets the trace covers. |
| Projection.MentionsOrdered | src/utils.js:295-307 | Mentions from a chained trace with non-empty matches are strictly increasing in index, and non-overlapping and ordered in plain offset. |
| Projection.EndOfLastMentionBounds | src/utils.js:309-315 | `getEndOfLastMention` is 0 without mentions. Otherwise every mention ends at or before it, and it lies within the plain text. |
| Projection.EndOfLastIsLast | src/utils.js:311-314 | The last mention's plain end bounds every mention's end. |
| RoundTrip.FillIsMarkup | src/utils.js:317-322 | `makeMentionsMarkup` is the template filled with the placeholder values, in group order. |
| RoundTrip.MarkupRoundTrip | src/utils.js:317-322 | Scanning the markup written for one mention, with the default transform, gives an empty text run and then exactly one mention carrying the written id, display and type. A missing `__id__` or `__display__` reads the other. This needs values without line terminators, each followed in the template by a literal whose first character the value lacks. |
| RoundTrip.WrittenIsFound | src/utils.js:106 | The first `exec` on the written markup matches all of it, with the written groups. |
| RoundTrip.LeastIsWritten | src/utils.js:21-31 | When the template is delimited, no other match at the same start has lexicographically smaller or equal group lengths. |
| RoundTrip.GroupAt | src/utils.js:317-322 | The k-th group holds the value of the k-th placeholder. |
| RoundTrip.GroupsCapturable | src/utils.js:24-26 | Non-empty values without line terminators are groups a lazy `(.+?)` accepts. |
| RoundTrip.NothingAtEnd | src/utils.js:106 | No match starts at the very end of the text. |
| RoundTrip.OneHit | src/utils.js:95-126 | When the first match covers the whole value, the scan is exactly that match's two callbacks. |
| Editor.SpliceShape | src/utils.js:33-35 | `spliceString` keeps the prefix before the clamped start, places the insertion there, and continues with the text from the clamped end. Its length follows from that. |
| Editor.SpliceKeeps | src/utils.js:33-35 | Text wholly before the clamped start stays in place. Text at or after the clamped end moves by the length of the insertion minus the length removed. |
| Editor.ReplaceSelectionWindow | src/utils.js:212-229 | For typing or pasting over a selection `[c, d)`, the window is that selection and that insertion, and it describes the edit exactly. |
| Editor.BackspaceWindow | src/utils.js:219-229 | Backspace at a collapsed caret gives the window `[c-1, c)` with an empty insertion. |
| Editor.DeleteWindow | src/utils.js:219-229 | Delete at a collapsed caret gives the window `[c, c+1)` with an empty insertion. |
| Editor.CombiningWindow | src/utils.js:212-229 | A combining input that keeps the length and the caret has its start decremented by one. The window is then the composed character. |
| Editor.ChangeWindow | src/utils.js:202-229 | Reassigning the selection variables computes `EditWindow`. |
| Editor.ApplyChangeToValue | src/utils.js:199-266 | The method computes `ApplyChange`. It returns the candidate splice when a mention is being removed or the control plain text matches. Otherwise it re-splices from the first difference to the last occurrence of the unchanged remainder. |
| Editor.SpliceAt | src/utils.js:231-238 | Both splice points are mapped (`START` for the start, `END` for the end) and the value is spliced there. |
| Editor.DiffStart | src/utils.js:245-249 | The diff loop stops at the first index where the two plain texts differ, reading `undefined` past either end. |
| Editor.FirstDifference | src/utils.js:245-249 | The first difference is within both strings. The strings agree before it and differ at it. |
| Editor.SplicePointsSafe | src/utils.js:231-232 | Neither mapped splice point falls strictly inside a mention's markup. |
| Editor.WillRemoveIff | src/utils.js:234-236 | `willRemoveMention` holds exactly when a splice point lies strictly inside some mention's display. |
| Editor.SpliceKeepsMentions | src/utils.js:231-238 | When displays are non-empty, the candidate splice keeps every mention that ends by `spliceStart` in place. Every mention that starts at or after `spliceEnd` is shifted by the splice. |
| Editor.KeptBefore | src/utils.js:231-238 | A mention ending by the plain splice start stays in place, whatever the markup end of the splice. |
| Editor.KeptAfter | src/utils.js:231-238 | A mention starting at or after the plain splice end moves by the splice's change in length. |
| Editor.EditWithoutMentions | src/utils.js:199-266 | Suppose neither the value nor the new plain text has a mention. Then replacing a selection gives the new plain text as the new value. |
| Suggestions.CountSuggestions | src/utils.js:324-332 | The loop adds up the result counts of all types. |
| Suggestions.GetSuggestions | src/utils.js:334-348 | There is one group per type, in the order the types were added, holding that type's results and entry. |
| Suggestions.Paired | src/utils.js:361-368 | Each result is paired with its group's entry, in order. |
| Suggestions.FlattenLength | src/utils.js:360-369 | The flattened list is as long as `countSuggestions` says. |
| Suggestions.GetSuggestionDefined | src/utils.js:360-369 | `getSuggestion` is defined exactly for the indices in `[0, countSuggestions)`. |
| Suggestions.GetSuggestionAt | src/utils.js:360-369 | The j-th result of the k-th type is at the flattened index (results of earlier types) + j, paired with its entry. |
| Suggestions.FlattenAt | src/utils.js:361-368 | The same position holds in the reduced list itself. |
| Suggestions.MergeEffect | src/MentionsInput.js:547 | After `extend`, the descriptor's type holds the new entry and every other type holds what it held. The total count trades the old entry's results for the new ones. |
| Component.ArrayProvider | src/MentionsInput.js:42-54 | The loop returns `Filter`: the elements, in order, whose display (or id when the display is empty) contains the query after case folding. |
| Component.FilterMembers | src/MentionsInput.js:42-54 | An element is among the results exactly when it is in the data and matches. |
| Component.FilterAppend | src/MentionsInput.js:46-51 | Filtering keeps the original order: filtering a concatenation filters each part. |
| Component.ShiftWraps | src/MentionsInput.js:355-361 | From a focus in `[0, count)`, a step of one stays in `[0, count)` and equals `(focus + delta) mod count`. DOWN wraps from the last item to the first, and UP from the first to the last. |
| Component.ClampFocusRange | src/MentionsInput.js:549-553 | A focus below the new count is kept. A non-negative focus lands in `[0, count)` when there are suggestions. |
| Component.AddMentionPlain | src/MentionsInput.js:572-585 | The new plain text replaces `[qs, qe)` with the display value, and the caret `qs + |displayValue|` sits right after it. |
| Component.AddMentionValue | src/MentionsInput.js:558-567 | The new value replaces markup `[start, start + (qe - qs))` with the mention markup. Here `start` is the `START`-mapped `qs`, and the markup has a trailing space when `appendSpaceOnAdd` is set. |
| Component.AddMentionKeeps | src/MentionsInput.js:558-567 | Mentions ending by `qs` stay in place in the new value. |
| Component.MentionInserted | src/MentionsInput.js:558-585 | The offset arithmetic of `addMention` computes `ValueWithMention`, `PlainWithMention` and the caret. |
| Component.SearchWindowNone | src/MentionsInput.js:471-478 | No query is issued exactly when the caret lies strictly inside a mention's display. |
| Component.SearchWindowStart | src/MentionsInput.js:480-488 | The searched substring starts at the end of the last mention in the markup prefix before the mapped caret. That end bounds every mention of the prefix and is at most the prefix's plain length. |
| Component.SelectionCollapse | src/MentionsInput.js:267-286 | The selection collapses to `s`, and is flagged for restoring, exactly when a mention holding the new caret starts at `s` before the old selection end. Otherwise the target's selection is taken. |
| Component.AdjustSelection | src/MentionsInput.js:267-286 | The `findStartOfMentionInPlainText` test computes `SelectionAfterChange`. |
| Component.MentionsInput.constructor | src/MentionsInput.js:110-121 | Initial state: focus 0, no suggestions, null selection, and `_queryId` 0 (its field initialiser at src/MentionsInput.js:606). |
| Component.MentionsInput.ShiftFocus | src/MentionsInput.js:355-361 | Sets `focusIndex` to `(count + focusIndex + delta) % count` with JavaScript's remainder. Nothing else changes, and with a step of one the focus stays on a suggestion. |
| Component.MentionsInput.ClearSuggestions | src/MentionsInput.js:513-520 | `_queryId` strictly increases, the suggestions are emptied, and the focus returns to 0. |
| Component.MentionsInput.UpdateMentionsQueries | src/MentionsInput.js:462-489 | `_queryId` strictly increases and the suggestions are emptied. The result is the searched window, or nothing when the caret maps to null. |
| Component.MentionsInput.UpdateSuggestions | src/MentionsInput.js:531-554 | A stale `queryId` changes nothing. Otherwise the descriptor's type gets the new entry, and a focus at or past the new count becomes `max(count - 1, 0)`. |
| Component.MentionsInput.AddMention | src/MentionsInput.js:558-595 | Returns the new value, the new plain text and the mentions. It sets the caret after the display, flags the selection for restoring, and clears the suggestions. |
| Component.MentionsInput.HandleChange | src/MentionsInput.js:243-290 | The new value is `applyChangeToValue` of the stored selection. The new plain text is read back from the new value, the mentions are read from it with the default transform, and the selection is `SelectionAfterChange`. |

## Left out

- Regular expressions are not modelled as such. The template's matcher is defined directly by its lazy-leftmost rule, and `escapeRegex` only builds regex source, so it has no counterpart. A template is taken already split at its placeholders. Literal text that spells a placeholder name (`__id__`) together with a neighbouring placeholder is therefore not modelled; `markup.indexOf` would find that name where the model sees literal text. Values substituted by `makeMentionsMarkup` are taken literally; `$` replacement patterns and placeholder names inside values are not modelled.
- `markupToRegex`'s `matchAtEnd` flag is not modelled; no modelled function passes it.
- The `'undefined'` string comparisons in `applyChangeToValue` (src/utils.js:203-209) never hold for integer selections. They are not modelled, because selections are integers here.
- `mapPlainTextIndex`'s early return for a non-number offset (src/utils.js:136-138) is not modelled, because offsets are integers here.
- Editor.EditWithoutMentions: no general theorem states that the plain text of `applyChangeToValue`'s result is the new plain text. That is proved only for edits in text without mentions. With mentions it depends on how the regular expression re-matches the spliced text.
- Editor.SpliceKeepsMentions: the mentions before the splice are proved kept only when every display is non-empty. A mention with an empty display has the same plain start as its successor.
- RoundTrip.MarkupRoundTrip: it requires that each placeholder is followed by a non-empty literal whose first character its value lacks. Otherwise a lazy group may stop early. A trailing placeholder takes a single character.
- Projection.PlainTextIsProjected: equality with the scan's plain text is proved only when the template has `__type__` or the transform ignores the type. Otherwise `getPlainText` hands the transform the first group as the type, while the scanner hands it none (`Projection.TypeArgument` models the difference).
- Component.SearchWindowStart: it does not prove that the searched window starts at or before the caret. That would relate the scan of a prefix of the value to the scan of the whole value.
- Trigger matching in `updateMentionsQueries` (`_getTriggerRegex`, the `RegExp` or `\s`-class trigger) and the `queryData` call are not modelled. They are regex and asynchronous machinery; the model stops at the searched window.
- `toLowerCase` is the function parameter `lower`; Unicode case folding is not modelled.
- Component.MentionsInput.HandleChange requires a stored selection. With a null selection, `applyChangeToValue` would compute on `null`, which is not modelled. The IE blur guard on the active element (src/MentionsInput.js:245-249) is left out with the DOM.
- `addMention` passes the descriptor's `type` to the transform and to `makeMentionsMarkup`. It is modelled as a string, so an absent `type` (written as "undefined" by `replace`) is not modelled.
- `selectFocused`, `setFocusIndex`, `handleSelect`, `handleBlur`, `handleKeyDown` key routing, `isLoading`, IME composition state, rendering, refs, caret position and overlay scrolling are UI and event plumbing.
- `setSelection` and the DOM selection APIs are left out.
- `onChange` and `onAdd` callbacks are outputs: the methods return what would be passed to `onChange`.
- The `hasOwnProperty` early `return` in `getSuggestions` and `getDescriptor` cannot fire for the plain objects the component builds. A suggestions object is modelled as a sequence of (type, entry) pairs in insertion order.
- Suggestions.Merge: a new type is appended last. JavaScript enumerates integer-like keys first, in ascending numeric order, so mention types such as `"1"` are not ordered as the object would order them.
- Component.MentionsInput.UpdateSuggestions: the focus clamp reads the focus as last written by the model. The source clamps `this.state.focusIndex` (src/MentionsInput.js:549), which inside a batched React handler is still the value committed before the handler. React's batched `setState` is not modelled, so when several `Mention` children answer synchronously in one handler, the model chains the clamps where the source clamps the committed focus once per answer.
- `extend`, `areValuesEqual` and `isNumber` are JavaScript object helpers, not modelled apart from the `extend` merge used by `updateSuggestions` (`Suggestions.Merge`).
- Unicode: strings are sequences of characters, and lengths count characters. Line terminators are `\n`, `\r`, U+2028 and U+2029.
