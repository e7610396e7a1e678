# Diff Paste: a verified model of the paste gate, change classifier and snapshot slot

The Diff Paste editor extension replaces the editor's paste with one that
can show a diff. Its automatic paste command leaves small pastes to the
editor's plain paste. Any other paste goes through the forced diff paste.
That command saves the document text in a single process-wide slot,
lets the editor paste, and then compares the text before and after. If
the change is meaningful, it opens a diff whose left side is served from
the slot by a content provider. If only white space changed, it clears
the slot and shows a notice. Deactivating the extension clears the slot.

The model has five modules:

- `Text` (text.dfy): JavaScript's `split("\n")` and `trim()`, written out.
  `Trim` strips the ECMA-262 WhiteSpace and LineTerminator code points,
  '\r' among them. Split/join round trips, a characterization of `Trim`,
  and the effect of turning LF line breaks into CRLF are proved.
- `Classifier` (classifier.dfy): `textChangedMeaningfully` as a method
  with the source's indexed loop and early returns. It is proved equal to
  the reference predicate `Meaningful`. A ghost result records how many
  line pairs were compared, so the early return at the first mismatch is
  part of its contract.
- `PasteGate` (paste_gate.dfy): the selection-length fold, the threshold
  setting with its default of 100, and the plain-paste condition.
- `DiffPaste` (diff_paste.dfy): the slot as the fields of class `Session`,
  with the two commands, the provider and `deactivate` as its members.
  Five client methods at the end show what a caller can prove from those
  contracts alone.
- `Wrappers` (wrappers.dfy): `Option`.

The editor host is reduced to inputs and one output:

- The inputs are the active editor (or none), its document's URI and
  text, the text under each selection, the clipboard text, the
  `minPasteSize` setting (or none), and the document text after the
  host's paste.
- The output is an `Outcome`: the host is asked for a plain paste, a
  diff view, or the white-space notice.

The slot is cleared only after a not-meaningful change and on
`deactivate`. After a meaningful change it keeps the captured text, which
the diff view's left side needs.

## Model

| member | source | states |
|---|---|---|
| `Text.Split` | src/extension.ts:112-113 | splitting on '\n' gives one piece more than there are '\n' characters, empty pieces included, and no piece contains '\n' |
| `Text.JoinSplit` | src/extension.ts:112-113 | joining the pieces of a split with '\n' gives back the original text |
| `Text.SplitJoin` | src/extension.ts:112-113 | any non-empty list of '\n'-free lines is what splitting their '\n'-join gives |
| `Text.SplitPrefix` | src/extension.ts:112-113 | a separator-free prefix extends the first piece of the split and leaves the others alone |
| `Text.SplitTwoLines` | src/extension.ts:112-113 | two '\n'-free lines joined by '\n' split into exactly those two lines |
| `Text.SplitToCrlf` | src/extension.ts:112-113 | after writing every line break as CRLF, the split has the same lines with a '\r' added to every line but the last |
| `Text.TrimStartSpec` | src/extension.ts:120 | the leading-white-space trim keeps a suffix that starts with a non-white character, and every dropped character is white |
| `Text.TrimEndSpec` | src/extension.ts:120 | the trailing-white-space trim keeps a prefix that ends with a non-white character, and every dropped character is white |
| `Text.Trim` | src/extension.ts:120 | the trimmed line is no longer than the line, and it neither starts nor ends with white space |
| `Text.TrimDecomposes` | src/extension.ts:120 | the trimmed line is the infix that starts right after the leading white space, and everything on either side of it is white |
| `Text.TrimStartOf` | src/extension.ts:120 | white space followed by a text that starts with a non-white character trims at the front to exactly that text |
| `Text.TrimEndOf` | src/extension.ts:120 | a text that ends with a non-white character followed by white space trims at the back to exactly that text |
| `Text.TrimUnique` | src/extension.ts:120 | a core with no surrounding white space, wrapped in any white space, trims to exactly that core |
| `Text.TrimIdempotent` | src/extension.ts:120 | trimming twice gives the same line as trimming once |
| `Text.TrimAppendWhiteSpace` | src/extension.ts:120 | appending a white-space character, such as '\r', does not change the trimmed line |
| `Text.TrimNoSurroundingWhiteSpace` | src/extension.ts:120 | a line that neither starts nor ends with white space is its own trim |
| `Classifier.FirstDifference` | src/extension.ts:119-122 | the first position where the trimmed lines differ: every pair before it is equal once trimmed, and the pair at it differs unless it is the line count |
| `Classifier.FirstDifferenceAt` | src/extension.ts:119-122 | a position preceded only by equal trimmed pairs and holding a differing one (or at the end) is the first difference |
| `Classifier.TextChangedMeaningfully` | src/extension.ts:111-126 | the loop's answer equals the reference predicate; with different line counts it compares nothing; otherwise it stops right after the first differing pair, or compares every pair and answers false |
| `Classifier.LineCountsDiffer` | src/extension.ts:115-117 | texts with different numbers of '\n' characters are always a meaningful change |
| `Classifier.SameAfterTrim` | src/extension.ts:119-125 | equal line counts and every pair of lines equal once trimmed is not a meaningful change |
| `Classifier.MismatchIsMeaningful` | src/extension.ts:119-122 | equal line counts with one pair that differs once trimmed is a meaningful change, and the first difference is no later than that pair |
| `Classifier.MeaningfulIffDifference` | src/extension.ts:119-125 | with equal line counts, the change is meaningful exactly when there is a first difference before the end |
| `Classifier.Reflexive` | src/extension.ts:111-126 | a text compared with itself is never a meaningful change |
| `Classifier.Symmetric` | src/extension.ts:111-126 | the classification does not depend on which text is the old one |
| `Classifier.CrlfLineTrim` | src/extension.ts:120 | a line and the same line with its CRLF-conversion ending trim to the same text |
| `Classifier.CrlfNotMeaningful` | src/extension.ts:111-126 | the LF and CRLF versions of the same text are not a meaningful change |
| `Classifier.TrimIndented` | src/extension.ts:120 | adding white space around a line does not change its trim |
| `Classifier.ReindentedSecondLine` | src/extension.ts:111-126 | re-indenting the second line of a two-line text is not a meaningful change |
| `Classifier.ChangedSecondLine` | src/extension.ts:119-122 | replacing the second line of a two-line text by one that trims differently is a meaningful change |
| `Classifier.IndentationOnly` | src/extension.ts:111-126 | "foo\nbar" against "foo\n  bar  " is not a meaningful change |
| `Classifier.ChangedWord` | src/extension.ts:119-122 | "foo\nbar" against "foo\nbaz" is a meaningful change |
| `Classifier.RemovedLine` | src/extension.ts:115-117 | "foo\nbar" against "foo" is a meaningful change |
| `Classifier.SwappedLines` | src/extension.ts:119-122 | comparison is by position: "a\nb" against "b\na" is a meaningful change |
| `PasteGate.MinPasteSize` | src/extension.ts:34-35 | the threshold is the `minPasteSize` setting when it is set, and 100 otherwise |
| `PasteGate.PlainPasteSuffices` | src/extension.ts:45 | the plain paste is chosen exactly when both the clipboard length and the replaced length are strictly below the threshold; then the threshold is positive and every single selection is shorter than it |
| `PasteGate.ReplacedLength` | src/extension.ts:39-42 | the summed selection lengths are at least each selection's length, and are 0 exactly when every selection is empty |
| `PasteGate.ReplacedLengthIsConcatLength` | src/extension.ts:39-42 | the replaced length is the length of all selected texts put together |
| `PasteGate.ReplacedLengthConcat` | src/extension.ts:39-42 | the replaced length of two groups of selections is the sum of their replaced lengths |
| `PasteGate.DiffFlowWhenEitherReaches` | src/extension.ts:45-52 | the plain paste is skipped exactly when the clipboard length or the replaced length reaches the threshold, equality included |
| `PasteGate.MoreSelectionsStayInDiffFlow` | src/extension.ts:39-45 | adding selections never turns a diff-flow paste into a plain paste |
| `PasteGate.LongSelectionReachesDiffFlow` | src/extension.ts:39-45 | one selection at least as long as the threshold sends the paste to the diff flow, whatever the clipboard holds |
| `PasteGate.ShortClipOverLongSelection` | src/extension.ts:34-52 | with the setting unset (threshold 100), 50 clipboard characters over a 150-character selection go to the diff flow |
| `DiffPaste.Session.constructor` | src/extension.ts:5-6 | the slot starts with no text and no URI |
| `DiffPaste.Session.Provide` | src/extension.ts:9-13 | the provider returns the slot's text verbatim, whatever URI it is asked for |
| `DiffPaste.Session.ForceDiffPaste` | src/extension.ts:57-93 | with no editor: a plain paste and the slot unchanged; with one: after a meaningful change the slot holds the pre-paste text and the document's URI and a diff is shown, otherwise the slot is empty and the notice is shown; the slot invariant is kept |
| `DiffPaste.Session.AutoDiffPaste` | src/extension.ts:22-54 | with no editor, or both lengths below the threshold (default 100): a plain paste and the slot unchanged; otherwise exactly the forced diff paste's result and slot |
| `DiffPaste.Session.Deactivate` | src/extension.ts:128-132 | the slot is left with no text and no URI |
| `DiffPaste.ProviderAfterMeaningfulPaste` | src/extension.ts:57-93 | after a meaningful forced paste the diff is shown and the provider serves the pre-paste text, whatever an earlier paste left |
| `DiffPaste.ProviderAfterWhitespaceOnlyPaste` | src/extension.ts:84-91 | after a white-space-only forced paste the notice is shown and the provider serves "", even if an earlier paste filled the slot |
| `DiffPaste.ProviderAfterDeactivate` | src/extension.ts:128-132 | after `deactivate` the provider serves "" |
| `DiffPaste.ServedTextHasOrigin` | src/extension.ts:5-6 | after an automatic and a forced paste, whatever their inputs, a non-empty text served by the provider comes with a recorded document URI, because the slot's text and URI are set together (src/extension.ts:71-72) and cleared together (src/extension.ts:86-87) |
| `DiffPaste.ForcedPasteNeverPlain` | src/extension.ts:57-93 | a forced paste with an editor never falls back to the plain paste, however short the clipboard text, and shows a diff exactly when the change is meaningful |

## Left out

- Host calls (the plain-paste and `vscode.diff` commands, the clipboard read, the notice, the configuration read, registering the provider and the commands in `activate`): their results are parameters, and what is asked of the host is the returned `Outcome`.
- Rejected host calls: a host call that rejects ends the command at that point, and this is not modelled. If the awaited paste (src/extension.ts:75-77) rejects, the slot keeps the text and URI captured at src/extension.ts:71-72, unclassified, and neither a diff nor the notice is shown. If `showDiff` (src/extension.ts:83) rejects, the slot is as after a meaningful change but no diff appears. The model's commands always reach `ShowDiff` or `WhitespaceNotice` once an editor is present.
- `showDiff` (src/extension.ts:99-108): the diff title and the virtual URI are built with the path library and the URI parser, which are not part of this model. The outcome `ShowDiff` stands for the whole call.
- Asynchronous sequencing: each command runs to completion as one atomic step, assuming every host call succeeds (see the line on rejected host calls). A second paste started while the first awaits the host is not modelled, and neither is the source.
- The automatic command starts the forced one through the host's command dispatch, and that command reads the active editor again. The model assumes it finds the same editor and document.
- `.length` counts UTF-16 code units. Here strings are sequences of Unicode scalar values, so a character outside the Basic Multilingual Plane counts as 1 rather than 2, in the gate's lengths too.
- The `minPasteSize` setting is a JavaScript number. The model takes an integer, so fractional, NaN and infinite thresholds are not modelled.
- `Text.IsWhiteSpace` lists the space separators of current Unicode versions. Engines built on older Unicode tables (before U+180E left the category) may trim a slightly different set.
- `lastDocUri` is written but read nowhere in the source. The model keeps it in the slot and in the slot invariant only.
