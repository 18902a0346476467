# PixelCounter colour tally, modelled in Dafny

PixelCounter scans an image drawn on a canvas and counts its colours. Each
pixel's four channels (red, green, blue, alpha) are quantised to the nearest
multiple of 51. The counts go into a table keyed by the text
`"r,g,b,a"`. When the scan ends, the table is ranked by count and the top 20
colours are shown with their share of the image. This project models the
`ColorMap` class of `app.ts` and the arithmetic that `ColorMapUI` applies to
its result. It proves what the code does.

- `quantise.dfy` (module `Quantise`): `round`, the channel quantiser, as
  `Round`. `getKey` as `GetKey`, the quantised channels printed in decimal and
  joined with commas.
- `table.dfy` (module `Table`): the count table as a value. This covers the
  increment `addPixel` performs, the total of all counts, and the ranking
  `getOrderedSwatches` produces. The ranking is sorted by count and is a
  permutation of the table's entries.
- `scan.dfy` (module `Scan`): what one run of `processPixel` does, as values.
  `CursorPath` gives the coordinates visited, `Tally` the table left behind,
  and `ProgressValues` the percentages reported.
- `color_map.dfy` (module `PixelCounter`): the `ColorMap` class. Its `dict`
  field is a `map<string, nat>` that the methods update in place.
  `ProcessPixel` is the tail-recursive `processPixel` written as a `while`
  loop over the (row, column) cursor. `UiCall` records the calls made on the
  UI object, in order.
- `color_map_ui.dfy` (module `ColorMapUI`): `slice(0, 20)` and the
  percentage share computed by `getSwatch`.
- `arith.dfy` (module `Arithmetic`): facts about multiplication and division
  that the proofs use.

Three behaviours of the code are easy to miss:

- **Pixel (0,0) is never counted.** The cursor starts at (0,0) and moves one
  column before every sample (app.ts:107, 115). So a scan counts
  `width*height - 1` pixels (`ScanTotal`).
  - A one-colour image gives that colour a count of `width*height - 1`
    (`ScanUniform`).
  - A 2x2 image of black, grey, black, white gives each of the three colours
    a count of 1 (`TwoByTwoScan`).
- **The table is never reset.** `dict` is initialised once, when the
  `ColorMap` is built (app.ts:98). A second `processImage` that starts after
  the first has finished adds to the first one's counts. Overlapping calls
  are listed under "## Left out". `ProcessPixel` and `ProcessImage` therefore state the new
  table in terms of `old(dict)`.
- **The top-20 cut and the shares are computed in `ColorMapUI`**
  (app.ts:64, 84). `ColorMap` hands the whole ranked list to the UI.

## Model

| member | source | states |
|---|---|---|
| `Quantise.Round` | app.ts:208-210 | The quantised channel is one of 0, 51, 102, 153, 204, 255. It is a multiple of 51 within 25 of the input. |
| `Quantise.RoundIsUnique` | app.ts:208-210 | Any multiple of 51 within 25 of the channel equals `Round` of it, so `Round` is the nearest bucket. |
| `Quantise.RoundIdempotent` | app.ts:208-210 | Quantising an already quantised channel changes nothing. |
| `Quantise.RoundMonotone` | app.ts:208-210 | `n <= m` implies `Round(n) <= Round(m)`. |
| `Quantise.Decimal` | app.ts:159 | A number interpolated into the key is printed as a non-empty string of decimal digits. The first digit is '0' only for the number 0, so there is no leading zero. |
| `Quantise.DecimalRoundTrip` | app.ts:159 | Reading the printed digits back gives the number, so distinct channel values print differently. |
| `Quantise.DecimalExamples` | app.ts:159 | 0, 51 and 255 print as "0", "51" and "255". |
| `Quantise.JoinKeyInjective` | app.ts:159 | Two comma-joined keys are equal only when all four quantised channels are equal. |
| `Quantise.GetKeyIffSameQuantised` | app.ts:151-160 | Two pixels get the same key if and only if their four channels quantise equally. |
| `Table.Increment` | app.ts:141-149 | After `addPixel`'s update, the key is in the table and its count is one more than before (an unseen key counts as 0). Every other key's count is unchanged. |
| `Table.TotalIncrement` | app.ts:141-149 | Each `addPixel` raises the sum of all counts by exactly 1. |
| `Table.CountAtMostTotal` | app.ts:98 | No single count exceeds the sum of all counts. |
| `Table.InsertByCount` | app.ts:169-171 | Inserting into a list sorted by count keeps it sorted and adds exactly that entry. |
| `Table.SortByCount` | app.ts:169-171 | The sort returns a permutation of its input with counts non-increasing. |
| `Table.RankingEntries` | app.ts:162-174 | A ranking of the table has one entry per key. Each entry carries its key's count, every key appears, and no key appears twice. |
| `Scan.CursorPathAt` | app.ts:114-128 | After 1, 2, ... moves, the cursor path is at the row-major positions 1, 2, ...; the path to (row, column) has `row*width + column` entries. |
| `Scan.CursorStep` | app.ts:115-118 | One move of the cursor (next column, or column 0 of the next row) extends its path by the new position. |
| `Scan.VisitsAt` | app.ts:114-128 | A scan samples `width*height - 1` coordinates; the i-th is the position `i + 1` steps from (0,0). |
| `Scan.VisitsInImage` | app.ts:116-127 | Every sampled coordinate lies inside the image; no row at or past `height` is sampled. |
| `Scan.VisitsRowMajor` | app.ts:115-118 | Samples come strictly in row-major order, column varying fastest, so none is taken twice. |
| `Scan.VisitsSkipOrigin` | app.ts:107-115 | (0,0) is never sampled. |
| `Scan.VisitsCoverRest` | app.ts:114-138 | Every coordinate of the image other than (0,0) is sampled. |
| `Scan.FirstVisit` | app.ts:107-115 | The first sample is (0,1), or (1,0) when the image is one column wide. |
| `Scan.ScanStep` | app.ts:114-131 | A pass of processPixel that samples moves the cursor to the next position and increments the count of the pixel found there. |
| `Scan.TallyAppend` | app.ts:130-131 | Sampling one more coordinate increments the count of that pixel's key. |
| `Scan.TallyTotal` | app.ts:130-131 | Sampling a list of coordinates raises the total count by the list's length. |
| `Scan.TallySameKey` | app.ts:130-131 | Sampling pixels that all share one key adds the number sampled to that key only. |
| `Scan.ScanTotal` | app.ts:114-138 | One scan adds exactly `width*height - 1` to the table's total. |
| `Scan.ScanUniform` | app.ts:114-138 | An image of one quantised colour and at least two pixels, scanned into an empty table, gives that single key with count `width*height - 1`. |
| `Scan.TwoByTwoScan` | app.ts:114-138 | The 2x2 image black, grey / black, white scans to black 1, grey 1, white 1. |
| `Scan.ProgressMonotone` | app.ts:116-121 | The progress values, one per completed row, never decrease. |
| `Scan.ProgressEndsAtHundred` | app.ts:116-127 | There are `height` progress values, none above 100, and the last is 100. |
| `PixelCounter.ProgressStep` | app.ts:118-121 | Completing row `r` appends `floor(100*r/height)` to the progress calls. |
| `PixelCounter.ColorMap.constructor` | app.ts:98-101 | A new `ColorMap` starts with an empty table. |
| `PixelCounter.ColorMap.AddPixel` | app.ts:141-149 | The new table is the old one with the pixel's key incremented. |
| `PixelCounter.ColorMap.GetOrderedSwatches` | app.ts:162-174 | Returns every (key, count) entry of the table exactly once, counts non-increasing; the table is unchanged. |
| `PixelCounter.ColorMap.ProcessPixel` | app.ts:114-138 | The table becomes the old table plus one increment per coordinate of `Visits`, in order. The UI receives `height` progress calls and then the ranked table. |
| `PixelCounter.ColorMap.ProcessImage` | app.ts:103-112 | On a failed acquisition, the UI gets one error with getImage's message and the table is unchanged. Otherwise the UI is started and then the scan runs on the table as it stands. |
| `ColorMapUI.TopSwatches` | app.ts:64 | The kept list is the first `min(20, n)` entries of the ranked list. |
| `ColorMapUI.TopSwatchesAreLargest` | app.ts:62-64 | From a ranked list, the kept entries stay ranked, and no dropped entry outnumbers a kept one. |
| `ColorMapUI.Share` | app.ts:83-84 | The share is the whole percentage nearest to `count*100/total`, halves rounding up. |
| `ColorMapUI.ShareAtMostHundred` | app.ts:84 | A count no larger than the total has a share of at most 100. |
| `ColorMapUI.ShareMonotone` | app.ts:84 | A larger count never gets a smaller share. |
| `ColorMapUI.ShareOfWhole` | app.ts:84 | A count equal to the total has a share of 100. |
| `ColorMapUI.ShownEntries` | app.ts:62-84 | For a ranking of a table totalling at most `width*height`, the report has `min(20, entries)` rows. Each row is a table entry with its count and a share in 0..100. |
| `ColorMapUI.ShownRanked` | app.ts:62-84 | The report's rows are ordered by count, and hence by share, non-increasing. |
| `ColorMapUI.ShownAreMostFrequent` | app.ts:62-84 | Any table entry left out of the report has a count no larger than every shown row. |

## Left out

- DOM work in `ColorMapUI`: the constructor, `error`, `information`, the
  styling in `progress`, and the element creation in `showSwatches` and
  `getSwatch` (app.ts:12-94). These are screen side effects. The model keeps
  only the values the UI receives (`UiCall`), plus the top-20 cut and share
  arithmetic (`ColorMapUI`).
- `getImage` and `get2dContext` (app.ts:177-206) are asynchronous browser
  I/O. Their outcome is an input to `ProcessImage`: a drawn `Image` or one
  of the two rejection reasons.
  - The fixed width of 25 and the height scaled from the picture's aspect
    ratio (app.ts:185-186) are not modelled. Any width and height are allowed.
  - A height or width of 0 is excluded by the precondition. The source can
    reach height 0: `Math.floor((25 / img.width) * img.height)` (app.ts:186)
    is 0 for a picture more than 25 times wider than high. In that case
    `processPixel` samples 24 transparent-black pixels of row 0, outside the
    empty canvas. It then calls `progress(Infinity)`, because app.ts:120
    divides by 0, and `getSwatch` shows shares of `Infinity%`. The model does
    not cover that run.
  - The always-true `if (image.context)` test (app.ts:105) is not modelled.
  - A promise that never settles is not modelled. `getImage` has no `onerror`
    handler, and it sets `img.onload` (app.ts:184) after the image may
    already have loaded. In either case the UI gets no call at all, while
    `ProcessImage` always reports either an error or a scan.
  - Exceptions thrown inside the `.then` callback are not modelled. The
    `.catch` at app.ts:109-111 receives them too. An example is
    `getImageData` (app.ts:130) refusing a cross-origin canvas during the
    first synchronous stretch of `processPixel`. The UI then gets `Start`
    followed by an error whose message is neither of the two rejection
    texts. A throw in a later `setTimeout` stretch is uncaught and reaches
    no UI call. `ProcessImage` models only the two rejections of
    `getImage` and a scan that completes.
- `getImageData` (app.ts:130) is a canvas call. The model reads the pixel
  from the image grid instead. Outside the grid it yields transparent black,
  as a canvas does, but a scan never reads there (`VisitsInImage`).
- The `setTimeout` hop when `(column + row) % 50 == 0` (app.ts:133-137) is
  cooperative scheduling. Within one scan it changes neither the pixels
  visited nor their order, so `ProcessPixel` is one plain loop.
- Elapsed-time measurement in `start` and `end` (app.ts:27-39) is not
  modelled. It uses `performance.now()` and float rounding.
- The entry script (app.ts:213-214) is not modelled. It builds the one `ColorMap`
  and calls `processImage('img')`.
- The order among swatches with equal counts is not stated.
  `Array.prototype.sort` has been stable since ES2019, so ties keep the order of `Object.keys`. That is the
  order in which keys were first inserted. The table is modelled as a `map`,
  which keeps no insertion order, so the model cannot state it. It promises
  only "non-increasing by count" and "a permutation of the entries".
- `PixelCounter.ColorMap.ProcessImage`: its contract covers only calls whose
  scans do not overlap. The source allows overlap through the
  `setTimeout` hop (app.ts:133-137).
  - During the hop, other code can run. A second `processImage` for another
    image id can then start its own scan (app.ts:104-108). The two scans then
    add to the same `dict` in turns, and the first scan's `showSwatches`
    ranks a table that already holds part of the second scan's counts. The
    `ensures` (`dict == Tally(old(dict), ...)` and
    `ReportsScan(calls[1..], img, dict)`) does not describe that case.
  - A second call with the same id before `onload` fires replaces
    `img.onload` (app.ts:184). The first call's promise then never settles,
    and it makes no UI call.
- `PixelCounter.ColorMap.ProcessPixel`: progress is the exact integer
  `floor(100*rows/height)`. The source computes
  `Math.floor((rows / height) * 100)` in doubles, which can be one lower for
  some inputs (29/100 gives 28). The contracts (`ProcessPixel` through
  `ReportsScan`, and `ProgressStep`) give the exact integer values. Of those
  facts, only monotonicity, the range 0..100 and the final 100 also hold for
  the source's double arithmetic.
- `ColorMapUI.Share`: the share is the exact half-up rounding of the rational
  `count*100/total`. The source's `Math.round((count / total) * 100)` works in
  doubles and can differ by one when the product lands just below a half.
- `Quantise.Decimal`: only non-negative integers are printed, and that
  covers every channel value. From 10^21 on, JavaScript switches to
  exponent form (`1e+21`), and `Decimal` does not model that or any other
  number formatting.
