# QR dashboard core, modelled in Dafny

This project models the logic of a QR-code management dashboard that does not depend on React or on the network:

- **`makeQR`** (src/utils/makeQR.ts). It derives a 21x21 QR-like pattern deterministically from a seed string and returns it as SVG markup:
  - it hashes the seed into a signed 32-bit state;
  - it draws three finder squares in the corners;
  - it then walks the grid row by row, drawing the timing cells of row and column 6 by parity and every other cell by the low bit of a xorshift-style state.
- **`scoreClass`** (src/utils/score.ts): the colour band of a score.
- **`getBadgeClass`** (src/utils/badges.ts): the badge class of a QR type, and the inline copy of that mapping in the table row.
- **The dashboard data logic of src/App.tsx**:
  - the folder choices `ALL_FOLDERS`;
  - `avgScore`;
  - the search and folder filter;
  - the clamped selection.

Modules:

| file | module | contents |
|---|---|---|
| seq_util.dfy | `SeqUtil` | substring search (`includes`), subsequences (`filter`), duplicate-free sequences (`Set`), first occurrences |
| qr_bits.dfy | `QRBits` | the seed hash in 32-bit signed arithmetic, and the advance step on `bv32` with JavaScript's sign-propagating `>>` written out |
| qr_layout.dfy | `QRLayout` | the finder squares, the cell zones and the row-major walk as functions, proved to draw exactly the cells that are on, in order |
| qr_svg.dfy | `QRSvg` | the SVG text, and `MakeQR`, an imperative method whose loops mirror the source's, proved to return exactly `Document(seed, fg, bg)` |
| score.dfy, badges.dfy, types.dfy, app.dfy | `Score`, `Badges`, `Types`, `App` | the pure helpers and the dashboard data logic |

How `makeQR`'s values are represented:

- The seed is a sequence of UTF-16 code units (`bv16`), as `charCodeAt` reads it.
- The hash is an `int` that is reduced to int32 after each step (`ToInt32`, the `| 0` and `Math.imul` of line 13).
- The hash is converted once to its two's-complement bits (`ToBits`).
- The cell walk then works on `bv32`.
- In the source, the `forEach` callback and the nested loops each append to `d`. In the model each append is the method `WriteRect`. Its contract keeps `d` equal to the prefix followed by the markup of the rectangles drawn so far.

## Model

| member | source | states |
|---|---|---|
| QRBits.ToInt32 | src/utils/makeQR.ts:13 | the result is in the signed 32-bit range, is congruent to the input modulo 2^32, and is the input itself when that is already in range |
| QRBits.Imul | src/utils/makeQR.ts:13 | `Math.imul`: a signed 32-bit value congruent to the exact product modulo 2^32 |
| QRBits.HashStep | src/utils/makeQR.ts:13 | one step, `Math.imul(31, h) + code` truncated to int32: a signed 32-bit value congruent to 31*h + code modulo 2^32 |
| QRBits.HashStepExact | src/utils/makeQR.ts:13 | a hash step is the int32 reduction of the exact 31*h + code |
| QRBits.SeedHash | src/utils/makeQR.ts:12-13 | the hash of any seed is a signed 32-bit value |
| QRBits.SeedHashIsReducedPolynomial | src/utils/makeQR.ts:13 | wrapping after every step gives the int32 reduction of the exact polynomial sum of code[i] * 31^(n-1-i) |
| QRBits.EmptySeedHash | src/utils/makeQR.ts:12-13 | the empty seed hashes to 0 |
| QRBits.SeedHashSnoc | src/utils/makeQR.ts:13 | one more code unit is one more hash step on the hash so far |
| QRBits.ToBits | src/utils/makeQR.ts:26 | the bit pattern is zero exactly when the int32 value is zero |
| QRBits.Asr7 | src/utils/makeQR.ts:26 | definition of the sign-propagating `h >> 7` on 32 bits (its meaning is stated by `Asr7Bits`) |
| QRBits.Asr7Bits | src/utils/makeQR.ts:26 | `h >> 7` moves every bit down seven places and copies the sign bit into the top seven |
| QRBits.XorShl13 | src/utils/makeQR.ts:26 | definition of `h ^= h << 13` |
| QRBits.XorAsr7 | src/utils/makeQR.ts:26 | definition of `h ^= h >> 7` |
| QRBits.XorShl17 | src/utils/makeQR.ts:26 | definition of `h ^= h << 17` |
| QRBits.Advance | src/utils/makeQR.ts:26 | definition of the advance: the three statements in source order |
| QRBits.AdvanceN | src/utils/makeQR.ts:20-26 | definition of the state after n advances |
| QRBits.AdvanceZero | src/utils/makeQR.ts:26 | 0 is a fixed point of the advance, and the nonzero state 0xFC001FFF also advances to 0, so the advance is not injective |
| QRBits.AdvanceNZero | src/utils/makeQR.ts:26 | starting from 0 the state stays 0 after any number of advances |
| QRBits.AdvanceLowBit | src/utils/makeQR.ts:26-27 | the bit a data cell reads is bit 0 xor bit 7 of the state before the advance |
| QRLayout.InFinder | src/utils/makeQR.ts:21 | definition of the finder test: the three 7x7 corner zones, as the `continue` condition writes them |
| QRLayout.ZoneOf | src/utils/makeQR.ts:21-22 | definition of the classification: finder first, then row or column 6 (timing), otherwise data |
| QRLayout.FinderTriple | src/utils/makeQR.ts:16-18 | definition of one zone's three squares: 7x7 at the origin in fg, 5x5 inset by one in bg, 3x3 inset by two in fg |
| QRLayout.Finders | src/utils/makeQR.ts:15-19 | definition of the nine finder rectangles, the triples of the origins [0,0], [14,0], [0,14] as (y, x) pairs in that order |
| QRLayout.FindersLayout | src/utils/makeQR.ts:15-19 | exactly nine finder rectangles: triples at (x,y) = (0,0), (0,14), (14,0) in that emission order; in each triple the outer and inner squares are foreground and the middle one background |
| QRLayout.FirstFinder | src/utils/makeQR.ts:15-16 | the first rectangle after the background is the 7x7 foreground square at (0,0) |
| QRLayout.FinderRectsPrefix | src/utils/makeQR.ts:15-19 | each further zone origin appends its triple after those already drawn |
| QRLayout.FindersStayInFinderZones | src/utils/makeQR.ts:15-21 | finder rectangles lie inside the canvas and cover only cells the walk skips as finder cells |
| QRLayout.DrawsCell | src/utils/makeQR.ts:21-27 | definition of whether one cell is drawn: never in a finder zone, on even r + c in the timing zone, on the low bit of the advanced state in the data zone |
| QRLayout.NextState | src/utils/makeQR.ts:21-26 | definition of the state after one cell: advanced only at a data cell |
| QRLayout.Visit | src/utils/makeQR.ts:21-27 | definition of one iteration of the inner loop on the rectangles drawn and the state |
| QRLayout.Scan | src/utils/makeQR.ts:20-27 | definition of the row-major walk up to cell (r, c), rows top to bottom, columns left to right |
| QRLayout.CellRects | src/utils/makeQR.ts:20-28 | definition of the unit rectangles of the whole walk |
| QRLayout.DataCellsBeforeCounts | src/utils/makeQR.ts:20-26 | the closed-form count of data cells before (r, c) grows by one exactly at data cells and carries over between rows |
| QRLayout.DataCellTotal | src/utils/makeQR.ts:20-26 | there are 280 data cells |
| QRLayout.ScanState | src/utils/makeQR.ts:20-26 | the state on reaching (r, c) is the start state advanced once per earlier data cell; finder and timing cells leave it unchanged |
| QRLayout.WalkAdvances280 | src/utils/makeQR.ts:20-26 | a full walk advances the state exactly 280 times, whatever the seed and its length |
| QRLayout.CellOn | src/utils/makeQR.ts:20-27 | definition, without the walk, of whether cell (r, c) is on: drawn in the state reached after one advance per earlier data cell |
| QRLayout.ScanStep | src/utils/makeQR.ts:21-27 | one cell adds its unit rectangle exactly when the cell is on (stated without the walk's state), and adds nothing otherwise |
| QRLayout.ScanRects | src/utils/makeQR.ts:20-27 | up to (r, c) the walk has drawn a rectangle exactly for each earlier cell that is on, and nothing else |
| QRLayout.ScanRowMajor | src/utils/makeQR.ts:20 | the rectangles drawn so far are in strictly increasing row-major order |
| QRLayout.CellRectsExactly | src/utils/makeQR.ts:20-27 | a rectangle is among the cell rectangles if and only if it is the unit foreground square of a grid cell that is on |
| QRLayout.CellRectsRowMajor | src/utils/makeQR.ts:20 | cell rectangles come row by row, left to right, each cell at most once |
| QRLayout.PatternInCanvas | src/utils/makeQR.ts:14-27 | every rectangle lies within the 21x21 canvas, and no cell rectangle lies in a finder zone |
| QRLayout.TimingCellsExplicit | src/utils/makeQR.ts:21-22 | the timing cells are exactly (6,7)..(6,13) and (7,6)..(13,6) |
| QRLayout.TimingSegmentSizes | src/utils/makeQR.ts:21-22 | each timing segment has seven cells |
| QRLayout.TimingCellCount | src/utils/makeQR.ts:21-22 | there are exactly 14 timing cells |
| QRLayout.TimingOnCells | src/utils/makeQR.ts:22-24 | a timing cell is on if and only if it is one of (6,8), (6,10), (6,12), (8,6), (10,6), (12,6), whatever the start state |
| QRLayout.TimingIndependentOfSeed | src/utils/makeQR.ts:22-25 | two walks from any two start states draw the same timing rectangles |
| QRLayout.ZeroStateDrawsNoData | src/utils/makeQR.ts:26-27 | from state 0 every drawn cell rectangle is a timing cell |
| QRSvg.Decimal | src/utils/makeQR.ts:16-18 | a printed number is a non-empty string of decimal digits |
| QRSvg.DecimalRoundTrip | src/utils/makeQR.ts:16-18 | a printed number reads back as itself and has no leading zero |
| QRSvg.MarkupAppend | src/utils/makeQR.ts:14-28 | writing two runs of rectangles one after the other gives the markup of their concatenation |
| QRSvg.RectMarkup | src/utils/makeQR.ts:16-18 | definition of one `<rect>` with x, y, width, height and fill in the source's attribute order |
| QRSvg.BackdropMarkup | src/utils/makeQR.ts:14 | definition of the background `<rect>` without a position |
| QRSvg.SvgOpen | src/utils/makeQR.ts:29 | definition of the opening `<svg>` tag |
| QRSvg.Document | src/utils/makeQR.ts:11-30 | definition of the returned string: the opening tag, then the background and the pattern, then `</svg>` |
| QRSvg.HashSeed | src/utils/makeQR.ts:13 | the loop over the code units computes `SeedHash(seed)` |
| QRSvg.WriteRect | src/utils/makeQR.ts:16-18 | one append adds exactly the markup of one more rectangle |
| QRSvg.WriteFinder | src/utils/makeQR.ts:16-18 | the three appends of one zone add exactly that zone's triple |
| QRSvg.DrawFinders | src/utils/makeQR.ts:15-19 | the `forEach` appends exactly the markup of the nine finder rectangles |
| QRSvg.AdvanceState | src/utils/makeQR.ts:26 | the three xor-shift statements compute `Advance(h)` |
| QRSvg.VisitCell | src/utils/makeQR.ts:21-27 | for one cell, the source's branches decide drawing and the next state exactly as `DrawsCell` and `NextState` say |
| QRSvg.DrawCells | src/utils/makeQR.ts:20-28 | the nested loops append exactly the markup of `CellRects(h0)` |
| QRSvg.MakeQR | src/utils/makeQR.ts:11-30 | the procedure returns exactly `Document(seed, fg, bg)`: the svg tag, the background, the finders, the cells, the closing tag |
| QRSvg.SvgOpenText | src/utils/makeQR.ts:29 | the opening tag is the svg namespace tag with viewBox "0 0 21 21" and crisp edges |
| QRSvg.BackdropText | src/utils/makeQR.ts:14 | the background is a 21x21 rectangle filled with `bg` |
| QRSvg.DocumentFrame | src/utils/makeQR.ts:14-29 | for every seed the document is the opening tag, then the background, then the pattern, then `</svg>` |
| QRSvg.MarkupStartsWithFinder | src/utils/makeQR.ts:15-16 | the pattern's markup begins with the outer top-left finder square |
| QRSvg.ColoursPassThrough | src/utils/makeQR.ts:14-16 | both `fg` and `bg` occur verbatim in the document |
| QRSvg.EmptySeedDrawsNoData | src/utils/makeQR.ts:12-27 | the empty seed starts the walk at 0 and draws no data cell |
| QRSvg.SingleLetterStates | src/utils/makeQR.ts:13 | the seeds "A" and "B" hash to 65 and 66 |
| QRSvg.SeedsAAndBDiffer | src/utils/makeQR.ts:20-27 | the seeds "A" and "B" already differ at the first data cell (row 0, column 7) |
| QRSvg.CompanyWebsiteHash | src/utils/makeQR.ts:13 | the label "Company Website" hashes to 2113944504 |
| QRSvg.BusinessCardHash | src/utils/makeQR.ts:13 | the label "Business Card" hashes to 1369384816 |
| QRSvg.SampleLabelsDiffer | src/utils/makeQR.ts:20-27 | the labels "Company Website" and "Business Card" differ in their data cells: (row 0, column 7) is on for the first and off for the second |
| Score.ScoreClass | src/utils/score.ts:1-5 | the class is `score-good` if and only if score >= 85, `score-warn` if and only if 70 <= score < 85, and `score-low` if and only if score < 70 |
| Score.ScoreClassTotal | src/utils/score.ts:1-5 | the result is always one of the three classes |
| Score.ScoreClassMonotone | src/utils/score.ts:2-4 | a higher score never gets a worse class |
| Badges.BadgeClass | src/utils/badges.ts:3-5 | `URL` maps to `badge-url` and `Text` to `badge-text`, in both directions |
| Badges.BadgeClassInjective | src/utils/badges.ts:3-5 | distinct types get distinct classes |
| Badges.DetailBadgeAttr | src/components/DetailPanel.tsx:13-21 | definition of the detail panel's badge class, "badge " followed by `getBadgeClass` |
| Badges.TableBadgeAttr | src/components/QRTable.jsx:30 | definition of the table row's badge class, with the comparison written inline |
| Badges.TableAgreesWithDetail | src/components/QRTable.jsx:30 | the table row's inline badge class equals the one the detail panel builds from `getBadgeClass` |
| App.Folders | src/App.tsx:15 | the `map`: one folder per record, the i-th record's folder at position i |
| App.FoldersUsed | src/App.tsx:15 | a folder is in the map exactly when some record is filed in it |
| App.FolderNames | src/App.tsx:15 | a folder is listed if and only if some record has it and it is not the placeholder '—' |
| App.Distinct | src/App.tsx:15 | the `Set` spread keeps exactly the elements of its input, each once |
| App.AllFolders | src/App.tsx:15 | definition of `ALL_FOLDERS`: "All folders" followed by the spread `Set` of the named folders |
| App.AllFoldersContents | src/App.tsx:15 | the list starts with 'All folders', never contains '—', and otherwise holds exactly the folders some record uses |
| App.AllFoldersNoDuplicates | src/App.tsx:15 | the list has no duplicates if and only if no record's folder is itself named 'All folders' |
| App.DistinctKeepsFirstOccurrenceOrder | src/App.tsx:15 | the `Set` spread lists two elements in the order of their first occurrences in its input |
| App.FolderNamesKeepRecordOrder | src/App.tsx:15 | after dropping '—', two folders come in the order in which a record is first filed in each |
| App.AllFoldersFollowRecordOrder | src/App.tsx:15 | after 'All folders', the list offers two folders in the order in which a record is first filed in each |
| App.RecordsFolderNames | src/App.tsx:7-15 | the built-in records use Marketing, Events, Retail, Personal, in that order |
| App.RecordsFolders | src/App.tsx:7-15 | for the built-in records the list is All folders, Marketing, Events, Retail, Personal |
| App.ScoreSum | src/App.tsx:19 | definition of the `reduce`: the scores summed left to right from 0 |
| App.AvgScore | src/App.tsx:17-20 | 0 for no records; otherwise the unique integer within one half of the mean, with ties going up as with `Math.round` |
| App.RoundHalfUp | src/App.tsx:19 | integer round-half-up of s / n lies within one half of it |
| App.ScoreSumBounds | src/App.tsx:19 | scores between lo and hi sum to between n*lo and n*hi |
| App.AvgScoreWithinBounds | src/App.tsx:17-20 | the average of a non-empty list lies between any lower and upper bound of its scores |
| App.RoundedWithinBounds | src/App.tsx:19 | a value within one half of s / n lies between any integer bounds of s / n |
| App.RecordsAverage | src/App.tsx:7-20 | the built-in records average 84 |
| App.Matches | src/App.tsx:28-31 | definition of the filter predicate: lower-cased label or content contains the lower-cased query, and the folder is 'All folders' or the record's own |
| App.Filtered | src/App.tsx:27-32 | a record is kept if and only if it is in the input, its lower-cased label or content contains the lower-cased query, and the folder filter is 'All folders' or its folder |
| App.FilteredSnoc | src/App.tsx:27-32 | one more record is kept, at the end, exactly when it matches |
| App.FilteredIsSubsequence | src/App.tsx:27-32 | the kept records are an order-preserving subsequence of the input |
| App.EmptyQueryMatches | src/App.tsx:28-31 | every record matches the empty query under 'All folders' (given that lower-casing '' gives '') |
| App.EmptySearchKeepsAll | src/App.tsx:27-32 | an empty query with 'All folders' keeps every record (given that lower-casing '' gives '') |
| App.SafeIndex | src/App.tsx:34 | the clamped index never exceeds the selection, is non-negative for a non-negative selection, is a valid position of a non-empty list, stays put when already valid, and becomes the last position when past the end |
| App.SelectedRecord | src/App.tsx:35 | for a non-negative selection there is no record exactly when the list is empty; a negative selection selects nothing; a selected record is the one at the clamped index |

## Left out

- Rendering and user interface: the React components, the selection-reset handlers (src/App.tsx:37-45), the sidebar and the raw-HTML injection of the SVG. They hold no logic beyond what is modelled above.
- Network and authentication: the hooks that fetch records and folders, the auth context, the Firebase client, and the create-panel submission. These are asynchronous calls into code that is not part of this model.
- Build and lint configuration.
- Default parameter values: `MakeQR` always takes both colours. The defaults '#1A0A05' and '#FFFFFF' are the constants `QRSvg.DefaultFg` and `QRSvg.DefaultBg`.
- JavaScript numbers:
  - The hash state is modelled exactly in int32/`bv32`.
  - `App.AvgScore` takes integer scores, as every record in the dashboard has. For them, `Math.round` of a floating-point quotient equals integer round-half-up. Fractional scores are not covered.
  - `Score.ScoreClass` takes a real. NaN and the infinities are not modelled.
- App.Filtered: `toLowerCase` is the parameter `lower`, an arbitrary function, because locale and Unicode case mapping are not modelled. Substring search is sequence containment.
- `QRRecord.date`: it is declared with a template-literal type of three dash-separated numbers, but the built-in records hold strings such as 'Feb 15'. It is a plain string here.
- Types.QRRecord: the source's `label` field is named `name`, because `label` is a reserved word in Dafny.
