# VS Code diff font patch — the line marking pass in Dafny

The script injected into VS Code (`diff-font-patch.js`) watches the editor's
page. When inline chat shows a diff, it finds each insertion row of an overlay
and marks the rendered text line at the same vertical offset with the class
`custom-diff-line`. This project models one marking pass (`markDiffLines`)
and the small module-level state around it: `lastMatchCount` and the
start-up phase.

The page is modelled as plain data:

- an **overlay** (`.view-overlays`) is a list of direct-child **rows**. Each row
  records whether it holds a `.char-insert` element and the text of its
  `style.top`. An overlay may also have an **overflow-guard** ancestor, given as
  the list of `.view-lines` **containers** under it;
- a **container** says whether it carries `line-delete`. Its `.view-line`
  elements sit in an `array<Line>`, and a **line** is its `offsetTop` plus
  whether it carries the mark.

Modules:

- `Wrappers`: `Option`. `None` stands for NaN.
- `EcmaParseInt`: the decimal case of ECMAScript's `parseInt` (section 19.2.5
  of ECMA-262). It skips leading white space, takes one optional sign and then
  the longest run of digits.
- `LineMarking`: the pass as a function on snapshots. A snapshot maps each line
  array to its contents. The pass folds container visits over the guards of
  the overlays in document order. Lemmas cover the offset set, exact marking,
  skipped containers, kept offsets, the match count and idempotence. A closed
  form (`Apply` of an `Effect`) states what the whole pass does to each array.
- `DiffFontPatch`: the pass as the script runs it. Loops build the set, walk
  containers and mark array elements in place. Class `Patch` holds
  `lastMatchCount` and the phase. Each method is proved against the fold.
- `Scenarios`: verified client methods. Only the contracts above are used to
  derive them. An insertion row at `"329px"` over lines at 329 and 347 marks
  only the 329 line and logs once. A second pass changes nothing and logs
  nothing. After the insertion row disappears the mark stays.

An overlay whose offset set is empty returns early (`diff-font-patch.js:27`),
so its lines keep whatever marks an earlier pass gave them. `OverlaySkipped`,
`PassMarksByLastOverlay` and `Scenarios.RemovedMarkerScenario` state this.

## Model

| member | source | states |
|---|---|---|
| `DiffFontPatch.CollectInsertTops` | diff-font-patch.js:20-26 | the loop over the direct-child rows builds exactly `InsertTops(rows)` |
| `LineMarking.InsertTopsMembership` | diff-font-patch.js:21-25 | an offset is in the set iff some row holds an insertion marker and its `style.top` parses to that offset (both directions) |
| `LineMarking.InsertTopsOfPixelRow` | diff-font-patch.js:21-24 | an insertion row whose top is `"<n>px"` puts n in the set |
| `LineMarking.InsertTopsEmpty` | diff-font-patch.js:21-27 | if every row lacks an insertion marker or has a NaN top, the set is empty |
| `EcmaParseInt.ParseIntNumeral` | diff-font-patch.js:23-24 | `parseInt` keeps the leading integer: a numeral followed by a non-digit suffix such as `px` reads back as its number, negative numbers too (a zero followed by `x` or `X`, a hexadecimal prefix, excepted) |
| `EcmaParseInt.ParseIntWithoutDigits` | diff-font-patch.js:23-24 | a top with no digit at all (`""`, `"auto"`) is NaN and is skipped |
| `EcmaParseInt.ParseIntPixels` | diff-font-patch.js:4-6 | `parseInt("329px")` is 329, the offset the header comment pairs with `offsetTop` 329 |
| `DiffFontPatch.MarkLines` | diff-font-patch.js:37-47 | the array afterwards is every old line marked iff its offset is in the set, with offsets kept; the returned count is the number of lines whose offset is in the set |
| `DiffFontPatch.VisitContainer` | diff-font-patch.js:33-35 | a `line-delete` container or an empty one is left alone and counts 0; any other is marked as `MarkLines` says |
| `DiffFontPatch.MarkGuardLines` | diff-font-patch.js:32-48 | after the containers of a guard are visited in order, the page equals the `MarkGuard` fold, and the count equals `GuardMatches` |
| `DiffFontPatch.MarkOverlayLines` | diff-font-patch.js:20-48 | one overlay: an empty set or a missing guard changes nothing; otherwise the page equals the `MarkOverlay` fold |
| `DiffFontPatch.Patch.MarkDiffLines` | diff-font-patch.js:16-58 | every reachable line array ends as `MarkPass` of the old page; `lastMatchCount` becomes the pass's `totalMatches`; a log line is written iff that count differs from the old `lastMatchCount` and is positive |
| `DiffFontPatch.Patch.constructor` | diff-font-patch.js:13-14 | at load `lastMatchCount` is 0 and the script waits for the editor |
| `DiffFontPatch.Patch.Init` | diff-font-patch.js:76-83 | if the editor root is present, the phase becomes observing and a fallback pass is scheduled after 1000 ms; otherwise the phase is unchanged and `init` is retried after 500 ms |
| `LineMarking.OverlayMarksExactly` | diff-font-patch.js:37-46 | after an overlay with a non-empty set, each line of each non-deletion container under its guard keeps its offset and is marked iff that offset is in the set |
| `LineMarking.OverlayKeepsUnreached` | diff-font-patch.js:32-33 | an array held by no non-deletion container of the guard (a `line-delete` container, or lines elsewhere) is unchanged |
| `LineMarking.OverlaySkipped` | diff-font-patch.js:27-30 | an overlay with no qualifying insertion row, or with no guard, changes nothing and counts 0, so earlier marks are kept |
| `LineMarking.RelabelKeepsOffsets` | diff-font-patch.js:40-45 | marking changes only the mark flag: length and offsets are kept |
| `LineMarking.RelabelLastWins` | diff-font-patch.js:39-46 | marking against one set and then another equals marking against the second set only |
| `LineMarking.MatchCountByOffsets` | diff-font-patch.js:38-43 | a container's match count depends only on the offsets, not on the marks already there |
| `LineMarking.MarkedCountOfRelabel` | diff-font-patch.js:39-43 | after a visit, the number of marked lines equals the number of matches the visit counted |
| `LineMarking.MarkGuardIsApply` | diff-font-patch.js:32-48 | visiting a guard's containers in order equals marking each non-deletion container's array against the set |
| `LineMarking.GuardEffectReaches` | diff-font-patch.js:32-33 | a guard's effect names an array iff a non-deletion container of the guard holds it, always with the overlay's set |
| `LineMarking.OverlayEffectReaches` | diff-font-patch.js:27-33 | an overlay's effect names exactly the arrays it reaches, with its own set |
| `LineMarking.MarkPassIsApply` | diff-font-patch.js:19-49 | the whole pass equals applying the overlays' effects in order, a later overlay overriding an earlier one |
| `LineMarking.PassMarksByLastOverlay` | diff-font-patch.js:19-49 | after the pass, an array reached by overlay j and by no later overlay holds its old lines marked against overlay j's set; earlier overlays' marks on it are overwritten |
| `LineMarking.PassKeepsUnreached` | diff-font-patch.js:27-33 | after the pass, an array that no overlay reaches (no non-empty set, no guard, or only deletion containers holding it) is unchanged |
| `LineMarking.PassKeepsOffsets` | diff-font-patch.js:40-45 | the pass keeps every array and every offset; only marks change |
| `LineMarking.GuardMatchesByOffsets` | diff-font-patch.js:37-43 | the matches counted over a guard depend only on the offsets |
| `LineMarking.PassMatchesByOffsets` | diff-font-patch.js:17-43 | `totalMatches` depends only on the offsets, not on the marks before the pass |
| `LineMarking.SecondPassQuiet` | diff-font-patch.js:37-57 | idempotence: a second pass over unchanged overlays leaves every mark as the first left it, counts the same `totalMatches` and writes no log line |

## Left out

- The `MutationObserver` subscription and the `setTimeout` debounce (`debouncedMark`, `startObserving`, the 300 ms quiet period) are host timers and events. The model has no clock, so a burst of mutations collapsing into one pass is not modelled.
- The `DOMContentLoaded` hook-up and the host timers are not modelled. `Init` returns the timeout it would schedule and does not run it.
- CSS selector matching (`querySelectorAll`, `:scope > div`, `closest`, `querySelector('.char-insert')`) is replaced by the abstract overlay, row, guard and container records. The records stand for what the selectors return, within the limit on containers stated below.
- `offsetTop` comes from layout and is an input. The font change the class causes is a stylesheet effect.
- The text of the `console.log` lines is not modelled. The model records only whether the count log is written. The "Observer started" line is not modelled.
- `EcmaParseInt.ParseInt`: radix and the `0x`/`0X` hexadecimal prefix are not modelled, so `"0x10px"` reads 0 here where ECMAScript reads 16. White space outside the ten listed characters (other Unicode Zs characters) is not skipped. Very long digit runs are not rounded to IEEE doubles; ECMAScript would lose precision there.
- Other classes on a line are not modelled. A line has only its offset and the `custom-diff-line` flag, so the model does not show that the pass leaves other classes untouched.
- Nested `.view-lines` containers are not modelled. Each container owns one line array, and two containers either share the whole array or none of it. In the script, `querySelectorAll('.view-line')` (`diff-font-patch.js:34`) returns every descendant line. So a `line-delete` container nested inside another `.view-lines` container would have its lines marked through the outer one. `OverlayKeepsUnreached` and `PassKeepsUnreached` say that `line-delete` lines are never touched, and that holds only under this disjoint-or-identical assumption.
- Row contents and `style.top` are never written by the pass, so they are plain values.
