# UX audit backend, modelled in Dafny

The backend accepts a screenshot of a user interface at `POST /upload` and audits it.

1. The OCR step turns the engine's word list into normalized text boxes `{text, x, y, w, h}`.
2. Five rule detectors run over those boxes: text size, button size, heading hierarchy, vertical spacing and horizontal alignment.
3. A contrast sampler compares the first three bytes of each box's raw pixels with the first three bytes of a 5-pixel band above it. These are the first pixel when the image has at least three channels. It uses the relative-luminance contrast ratio of WCAG 2.1.
4. Each of the six issue lists is clustered into horizontal lines. Each line is merged into one record, and the six grouped lists are returned as JSON.

The project has one module per source file, plus two shared modules:

- `Boxes` (`boxes.dfy`) holds the shared records: `Rect`, `TextBox`, `Issue`, `ContrastIssue` and the `Element` the line grouper accepts.
- `Sorting` (`sorting.dfy`) models `Array.prototype.sort` with an integer comparator. It is a stable insertion sort, proved sorted, a permutation and stable.
- `Ocr` (`ocr.dfy`) models `extractTextWithBoxes`, including whitespace trimming.
- `Rules` (`rules.dfy`) models `isValidBox` and the five detectors. Each detector is a method with the source's loop, proved equal to a specification function. The lemmas state the rule's properties about that function.
- `Contrast` (`contrast.dfy`) models luminance, the contrast ratio and `checkTextContrast`.
- `Audit` (`audit.dfy`) models `groupByLine` and the `/upload` handler.

Things the code does that a reader might not expect. The model follows the code in each case:

- Issue types are spelled `"text"` and `"button"` in the code, which the model's `Kind` follows.
- The heading detector sorts by height descending and then flags a pair whose first height is smaller. That can never happen, so the heading list is always empty. `Rules.HierarchyNeverFlags` proves this.
- Contrast findings carry `position` and no `boundingBox`. The grouper's filter therefore drops them, and the grouped contrast list is always empty. `Audit.ContrastNeverGrouped` proves this.
- The alignment key is `Math.round(y / tolerance) * tolerance`. With tolerance 5, y = 3 rounds to key 5, not 0. So boxes at y = 0, 2 and 3 fall into two buckets, and only the first two are flagged (`Rules.AlignmentExample`).
- `checkSpacing` sorts and compares all boxes, valid or not (`Rules.SpacingIgnoresValidity`).
- With tolerance 0, every alignment key is `NaN`, so all valid boxes share one bucket. The model gives that bucket key 0.

## Model

| member | source | states |
|---|---|---|
| Boxes.MinOf | backend/routes/audit.js:29-30 | Math.min over a mapped non-empty list, as the grouper and the alignment detector (rules.js:103) use it: a lower bound that some member attains |
| Boxes.MaxOf | backend/routes/audit.js:31-32 | Math.max over a mapped non-empty list, as the grouper and the alignment detector (rules.js:104) use it: an upper bound that some member attains |
| Sorting.SortBySorted | backend/routes/rules.js:74 | the sorted copy is ascending by the comparator's key |
| Sorting.SortByPermutes | backend/routes/audit.js:16 | the sorted copy is a permutation of the input |
| Sorting.SortStable | backend/routes/rules.js:54 | elements with equal keys keep their input order (the sort is stable) |
| Sorting.InsertSorted | backend/routes/rules.js:54 | inserting into a sorted sequence keeps it sorted |
| Ocr.TrimStart | backend/routes/ocr.js:28 | the result is a suffix of the input; every character dropped is whitespace; the result does not start with whitespace |
| Ocr.TrimEnd | backend/routes/ocr.js:28 | the result is a prefix of the input; every character dropped is whitespace; the result does not end with whitespace |
| Ocr.TrimEmptyIff | backend/routes/ocr.js:28 | trimming gives the empty string exactly when every character is whitespace; otherwise the result has non-whitespace at both ends |
| Ocr.TrimIdempotent | backend/routes/ocr.js:39 | trimming a trimmed text changes nothing |
| Ocr.TrimSlice | backend/routes/ocr.js:28-39 | trim returns the contiguous slice of the input between its leading and its trailing whitespace; everything dropped on either side is whitespace |
| Ocr.KeepExamples | backend/routes/ocr.js:24-37 | the filter drops whitespace-only text, a missing bbox, a non-numeric corner and a zero width, and keeps a padded word with a negative left edge |
| Ocr.NormalizeExample | backend/routes/ocr.js:38-44 | the padded word at x0 = -3 becomes text "Hi" at x 0 with its full width 10 |
| Ocr.Normalize | backend/routes/ocr.js:38-44 | a kept word becomes a box whose text is the trimmed text; x and y are the corner, clamped to 0; w and h are the positive extents |
| Ocr.NormalizeWords | backend/routes/ocr.js:23-44 | no more boxes than words, and every box is well formed: non-empty trimmed text, x, y >= 0, w, h > 0 |
| Ocr.NormalizeMembers | backend/routes/ocr.js:23-44 | a box is in the output exactly when some word passes the filter and normalizes to it |
| Ocr.NormalizeAppend | backend/routes/ocr.js:23-44 | filter-then-map distributes over concatenation, so words keep their relative order |
| Ocr.ExtractTextWithBoxes | backend/routes/ocr.js:4-49 | the result is empty when the buffer is empty, the metadata is missing or zero, or the engine throws; when none of these holds, the result is the normalized word list |
| Rules.InvalidBoxIgnored | backend/routes/rules.js:4-15 | a box failing isValidBox (zero or negative width or height) changes nothing in the text-size, button-size and heading results wherever it sits, and falls into no alignment bucket |
| Rules.TextSizeIssues | backend/routes/rules.js:18-31 | at most one issue per box; each has type text, severity high, and a valid box with height below the minimum |
| Rules.CheckTextSize | backend/routes/rules.js:18-31 | the loop returns exactly TextSizeIssues of its input |
| Rules.TextSizeMembers | backend/routes/rules.js:20-28 | an issue is reported exactly when it is the issue of a valid input box whose height is below the minimum |
| Rules.TextSizeAppend | backend/routes/rules.js:20-29 | issues come out in input order (the detector distributes over concatenation) |
| Rules.TextSizeBoundary | backend/routes/rules.js:21 | boxes whose height is at least the minimum are never flagged (strict comparison) |
| Rules.ButtonSizeIssues | backend/routes/rules.js:34-47 | at most one issue per element; each has type button, severity high, and width or height below the minimum |
| Rules.CheckButtonSize | backend/routes/rules.js:34-47 | the loop returns exactly ButtonSizeIssues of its input |
| Rules.ButtonSizeMembers | backend/routes/rules.js:36-44 | an issue is reported exactly when it is the issue of a valid element whose width or height is below the minimum |
| Rules.ButtonSizeAppend | backend/routes/rules.js:36-45 | issues come out in input order |
| Rules.Headings | backend/routes/rules.js:52-53 | every heading is a valid box taller than 20 px |
| Rules.HeadingsFromInput | backend/routes/rules.js:52-53 | the headings are taken from the input (a sub-multiset) |
| Rules.HeadingsMembers | backend/routes/rules.js:52-53 | a box is a heading exactly when it is in the input, valid and taller than 20 px |
| Rules.HeadingsAppend | backend/routes/rules.js:52-53 | the filter distributes over concatenation, so headings keep their input order |
| Rules.HierarchyIssuesEmpty | backend/routes/rules.js:56-67 | the scan reports nothing exactly when no height is smaller than the next one |
| Rules.ScanHierarchy | backend/routes/rules.js:56-67 | the loop over adjacent pairs returns exactly HierarchyIssues |
| Rules.CheckHeadingHierarchy | backend/routes/rules.js:50-69 | the detector returns the scan of the headings sorted by descending height, and that is always empty |
| Rules.HierarchyNeverFlags | backend/routes/rules.js:52-58 | after the descending sort, the flagging condition can never hold, so no input yields a heading issue |
| Rules.HierarchyScanFlagsIncrease | backend/routes/rules.js:58-65 | on an unsorted pair 24 px then 30 px, the scan would flag the upper box with medium severity |
| Rules.SpacingIssues | backend/routes/rules.js:75-87 | no issue for at most one box, at most one per adjacent pair otherwise; every issue has type spacing and severity low |
| Rules.ScanSpacing | backend/routes/rules.js:75-87 | the loop over adjacent pairs returns exactly SpacingIssues |
| Rules.CheckSpacing | backend/routes/rules.js:72-89 | the detector returns SpacingIssues of the boxes sorted by y, at most n - 1 of them |
| Rules.SpacingMembers | backend/routes/rules.js:75-87 | an issue is reported exactly when some adjacent pair has a gap strictly between 0 and the minimum; the issue is about the upper box |
| Rules.SpacingExample | backend/routes/rules.js:78-79 | boxes at y 0 (h 10) and y 15 give gap 5 and one issue; with the second box at y 20 the gap is 10 and there is no issue |
| Rules.SpacingIgnoresValidity | backend/routes/rules.js:74-79 | a zero-width box is still compared and flagged, because the spacing rule does not filter by validity |
| Rules.RoundDivNearest | backend/routes/rules.js:97 | for either sign of a non-zero tolerance, the rounded quotient is the integer nearest y / tolerance, with halves rounded up as Math.round does |
| Rules.AlignKey | backend/routes/rules.js:97 | the key is a multiple of the tolerance and the one nearest y, halves going to the larger quotient; tolerance 0 gives the single key 0 |
| Rules.Bucket | backend/routes/rules.js:96-99 | a bucket holds only valid boxes with its key |
| Rules.BucketMembers | backend/routes/rules.js:96-99 | a box is in a bucket exactly when it is in the input, valid and has that key |
| Rules.AlignmentIssues | backend/routes/rules.js:106-113 | one issue per member of the line |
| Rules.PushAlignmentIssues | backend/routes/rules.js:106-113 | the inner loop appends exactly one alignment issue per member, in order |
| Rules.GroupByKey | backend/routes/rules.js:94-100 | the first loop builds the groups object and remembers the order in which keys were created |
| Rules.GroupsOfBuckets | backend/routes/rules.js:94-100 | the keys are created once each; a key is present exactly when its bucket is non-empty, that is when some valid box has it; each list is that key's boxes in input order |
| Rules.GroupsOfValues | backend/routes/rules.js:101 | every key that Object.values visits is present and holds its bucket |
| Rules.ValuesOrderPermutes | backend/routes/rules.js:101 | Object.values visits the created keys rearranged: array-index keys first, ascending, then the other keys in creation order |
| Rules.ValuesOrderDistinct | backend/routes/rules.js:101 | every created key is visited exactly once |
| Rules.ValuesOrderExample | backend/routes/rules.js:101 | keys created as 10, 0, -5 are visited as 0, 10, -5 |
| Rules.EmitPass | backend/routes/rules.js:101-115 | the second loop emits the flagged buckets in visiting order |
| Rules.CheckAlignment | backend/routes/rules.js:92-117 | the detector returns the flagged buckets in Object.values order; as a multiset, that is one issue for every valid box whose bucket's x-spread exceeds the tolerance |
| Rules.AlignmentCovered | backend/routes/rules.js:101-115 | emitting the flagged buckets over any duplicate-free key list that contains every non-empty bucket's key gives, as a multiset, one issue per box in a misaligned bucket |
| Rules.AlignmentResultFlagged | backend/routes/rules.js:101-115 | the result holds each flagged box's issue exactly once, whatever the bucket order |
| Rules.SingleBoxAligned | backend/routes/rules.js:105 | a bucket of one box is never misaligned |
| Rules.AlignmentExampleBuckets | backend/routes/rules.js:97 | with tolerance 5, y 0 and 2 get key 0 and y 3 gets key 5 |
| Rules.AlignmentExample | backend/routes/rules.js:92-117 | boxes at x 10, 40, 12 and y 0, 2, 3: exactly the first two are flagged |
| Contrast.Linearize | backend/routes/contrast.js:4-7 | the linearized channel lies in [0, 1] |
| Contrast.Luminance | backend/routes/contrast.js:3-9 | the relative luminance lies in [0, 1] |
| Contrast.LuminanceRatio | backend/routes/contrast.js:14 | the ratio lies in [1, 21] |
| Contrast.ContrastRatio | backend/routes/contrast.js:11-15 | the contrast ratio of any two colours lies in [1, 21] |
| Contrast.LuminanceRatioSymmetric | backend/routes/contrast.js:14 | the ratio does not depend on the order of its arguments, and equal luminances give 1 |
| Contrast.ContrastRatioSymmetric | backend/routes/contrast.js:11-15 | contrastRatio(c1, c2) equals contrastRatio(c2, c1), and a colour against itself gives 1 |
| Contrast.BlackOnWhite | backend/routes/contrast.js:3-15 | black against white gives exactly 21 |
| Contrast.BandPlacement | backend/routes/contrast.js:42-43 | the background band has the box's x and width and is 5 px above it, clamped to the top edge; it fits exactly when y >= 5 or the image is at least 5 px tall |
| Contrast.SampledInside | backend/routes/contrast.js:25-43 | a box is sampled exactly when its rectangle lies inside the image, and when its band also fits, the band lies inside the image too |
| Contrast.FirstColor | backend/routes/contrast.js:39-48 | a colour exists exactly when the buffer holds three bytes, and it is the first three |
| Contrast.SampleColors | backend/routes/contrast.js:35-48 | both colours exist exactly when both extractions succeed with at least three bytes each; they are the first three bytes of the box's and of the band's buffers |
| Contrast.BoxContrast | backend/routes/contrast.js:24-63 | a box yields an issue exactly when it is inside the image, its band fits, both samples exist and the ratio is below the threshold; the issue carries the text, the box as position, and the ratio in [1, threshold) |
| Contrast.ContrastIssues | backend/routes/contrast.js:24-65 | at most one issue per box, every ratio below the threshold |
| Contrast.CheckTextContrast | backend/routes/contrast.js:17-67 | the loop returns exactly ContrastIssues of its input |
| Contrast.ContrastAppend | backend/routes/contrast.js:24-65 | issues come out in input order |
| Contrast.ContrastMembers | backend/routes/contrast.js:24-65 | an issue is reported exactly when some box yields it |
| Contrast.ExtractionFailureSkips | backend/routes/contrast.js:61-63 | a box whose extraction fails is skipped and the rest are still checked |
| Audit.Cleaned | backend/routes/audit.js:15 | the filter keeps exactly the rule issues, those that have a boundingBox |
| Audit.FindFrom | backend/routes/audit.js:20 | the first group whose representative is within the threshold, or none when no group is |
| Audit.PlaceOpens | backend/routes/audit.js:20-25 | an element that is not within the threshold of any representative opens a new group at the end, with its own y as representative |
| Audit.PlaceJoins | backend/routes/audit.js:20-25 | otherwise it is appended to the first group within the threshold (inclusive); representatives and the other groups are unchanged |
| Audit.Cluster | backend/routes/audit.js:19-26 | no more groups than elements; every group is non-empty and its representative is its first member's y |
| Audit.ClusterLines | backend/routes/audit.js:19-26 | the forEach loop returns exactly Cluster of the sorted elements |
| Audit.PlaceKeepsClustered | backend/routes/audit.js:20-25 | placing the next element in y order preserves the clustering invariant |
| Audit.ClusterClustered | backend/routes/audit.js:19-26 | on y-sorted input the groups concatenate back to the input; they are led by their first member and banded within the threshold; representatives are more than the threshold apart |
| Audit.Merge | backend/routes/audit.js:28-34 | the merged record keeps the first member's type, message and severity; its box is the smallest box covering every member |
| Audit.MergeAll | backend/routes/audit.js:28 | one record per group |
| Audit.MergeAllAt | backend/routes/audit.js:28-34 | record k is group k merged |
| Audit.LineGroups | backend/routes/audit.js:14-35 | at most one record per kept issue |
| Audit.GroupByLine | backend/routes/audit.js:14-35 | the grouper returns LineGroups of its input, at most one record per kept issue |
| Audit.GroupByLinePartition | backend/routes/audit.js:14-26 | the groups partition the sorted kept issues (same multiset), are led by their first member, banded, and spread more than the threshold apart |
| Audit.GroupByLineLines | backend/routes/audit.js:19-26 | with a non-negative threshold every member is within the threshold of its representative, and representatives strictly increase |
| Audit.GroupByLineMerged | backend/routes/audit.js:28-34 | output k is group k merged, and its box starts at the group's representative y |
| Audit.GroupByLineEmpty | backend/routes/audit.js:15-34 | the output is empty exactly when no rule issue is given |
| Audit.GroupSingleton | backend/routes/audit.js:14-35 | a single issue comes back unchanged |
| Audit.LineExample | backend/routes/audit.js:14-35 | issues at y 0, 5 and 30 with threshold 20 give two records: the union of the first two, then the third |
| Audit.ContrastNeverGrouped | backend/routes/audit.js:63 | grouping contrast findings always yields an empty list |
| Audit.ButtonCandidates | backend/routes/audit.js:51 | at most one per box; a box is a candidate exactly when its text is longer than three characters |
| Audit.ButtonCandidatesAppend | backend/routes/audit.js:51 | candidates keep their input order |
| Audit.RunAudit | backend/routes/audit.js:50-68 | the audit step returns Report of the boxes and findings; the grouped contrast and heading lists are empty |
| Audit.Upload | backend/routes/audit.js:38-73 | no image gives 400; an undecodable image gives 500; otherwise the response is the report over the OCR boxes and their contrast findings at threshold 4.5; an empty buffer, a zero width or height, or an OCR failure on a decodable image gives six empty lists |
| Audit.NormalizedBoxesValid | backend/routes/ocr.js:38-44 | every box the OCR step produces passes isValidBox, has x, y >= 0 and non-empty trimmed text |
| Audit.SmallTextReported | backend/routes/audit.js:50-62 | a 12 px box and a 20 px box give exactly one grouped text-size issue, for the 12 px box at threshold 16 |
| Audit.EmptyReport | backend/routes/audit.js:50-68 | with no text boxes every one of the six lists is empty, whatever the contrast findings |

## Left out

- The OCR engine (tesseract) is not modelled. Its word list, or its failure, is the parameter `recognized`.
- The image library (sharp) is not modelled. Its metadata, or its failure, is the parameter `meta`. Its region extraction, or its failure, is the parameter `extract`.
- The HTTP layer is not modelled: Express routing, the multipart upload, JSON serialization, logging and `async` scheduling.
- The frontend and `server.js` are not part of this model.
- Contrast.Linearize: the `Math.pow(x, 2.4)` branch is the parameter `gamma`. The model assumes only that it maps [0, 1] into [0, 1], and, for `BlackOnWhite`, that it maps 1 to 1. Floating-point rounding is not modelled; reals are exact.
- Contrast.BoxContrast: the ratio is kept unrounded. The source's `parseFloat(ratio.toFixed(2))` and its message text are not modelled.
- Contrast.BoxContrast: a sampled buffer shorter than three bytes yields `NaN` in the source, and `NaN < threshold` is false. The model represents this as "no sample", so the box is not flagged. Other `NaN` sources are not modelled.
- Messages are kept as the values their templates interpolate, not as formatted French strings.
- `isValidBox`'s `typeof` checks and the grouper's `typeof boundingBox.y === "number"` are enforced by the types. Only `w > 0 && h > 0` remains as a test on values.
- Coordinates are integers, as the OCR engine reports them. Non-integer coordinates are not modelled.
- Contrast.CheckTextContrast: each extraction is assumed to depend only on its rectangle, not on earlier `.extract` calls on the same sharp instance.
- Audit.ButtonCandidates: text length counts Dafny characters, not UTF-16 code units, so it differs from `text.length` for characters outside the Basic Multilingual Plane.
- Ocr.TrimStart: whitespace is the set listed in `IsWhitespace`, which follows ECMAScript's `trim`. Nothing beyond that set is modelled.
- Rules.ValuesOrder: every array-index key is a non-negative integer below 2^32 - 1 and is visited in ascending order. Larger keys, and negative keys, are visited in creation order. Number-to-string conversion is not modelled, so integers beyond 2^53 are not merged as JavaScript would merge them.
- Audit.ClusterLines: the group objects that `groupByLine` finds and then mutates through shared references are modelled as values updated by index. Aliasing is not modelled.
- Audit.Upload: the only failure modelled as a 500 is the contrast step's metadata read. An unexpected exception elsewhere is not modelled.
- Audit.Upload: an empty uploaded buffer is treated as an `image` value; whether the decoder then fails is left to `meta`.
