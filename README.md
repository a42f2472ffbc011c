# Child clothing inventory: growth forecast, size predictor and item list

This project models, in Dafny, the parts of the clothing-inventory application that compute
something. The rest of the application stores records and draws pages.

- **Growth model** (`frontend/src/lib/growth.js`, module `Growth` in `growth.dfy`):
  - a child's age in whole average months (30.44 days), floored and never negative;
  - the median height curve, interpolated linearly between ten fixed (age, height) checkpoints
    and clamped at 0 and 60 months;
  - the nearest size on the fixed ladder 50, 56, ..., 158, where a tie keeps the smaller size;
  - the 13-point monthly forecast. When a positive height was measured, the forecast is shifted
    so that it passes through that height today.
- **Naive size predictor** (`frontend/src/lib/predict.js`, module `Predict` in `predict.dfy`):
  - a starting size parsed from the current size, with 100 as the fallback;
  - a one-size bump every 8 months while the child is under 3 years old, and every 12 months
    after that, over 13 monthly points.
- **Inventory list** (`frontend/src/pages/Items.jsx`, module `Items` in `items.dfy`):
  - the filtered view, where an empty child or status filter means "all";
  - adding an item, which needs a selected child, and deleting an item by id;
  - choosing the first child as the default once the children are loaded.
  - The page state is the class `Items.ItemsPage`. Its fields are the lists and selections that
    the page keeps in React state.

Shared pieces:
- `records.dfy` (module `Records`): the item enumerations and the measured-height range from the
  backend schemas.
- `calendar.dfy` (module `Calendar`): month arithmetic with a year carry, as
  `new Date(y, mo + m, 1)` does it for a four-digit year.
- `wrappers.dfy` (module `Wrappers`): an `Option` type for JavaScript's `null`, `undefined` and
  `NaN`.

How the code's loops are modelled:
- Each loop in the source is a Dafny method with a loop: `HeightAtMonths`, `HeightToSize`,
  `PredictionSeries` and `PredictSizes`.
- Each such method is proved equal to a specification function: `MedianHeight`, `NearestSize`,
  `Forecast` and `SizeForecast`.
- The properties the source promises are proved as lemmas about those functions.
- `MedianHeight` is characterized independently of the loop, by the predicate `OnCurve`. The
  predicate uses the unique segment `(PTS[k].months, PTS[k+1].months]` that holds the age. The
  loop instead takes the first segment whose closed range holds the age.
- `NearestSize` is the step at the unique first-nearest index. `Nearest` is a second, recursive
  reference definition that folds from the right. Both definitions are proved to agree, and so
  is the method's left-to-right scan.

Inputs that the source reads from the environment are parameters here:
- The reference instant is an `Instant`: epoch milliseconds, plus the local year and month.
  It replaces `Date.now()` and `new Date()`.
- The predictor needs each month start in epoch milliseconds. The function `localMs` gives this
  in place of the local time zone.
- Server answers are parameters: the created item, whether a delete succeeded, and the fetched
  lists.

Heights and ages are `real`:
- `Math.floor` is `.Floor`.
- `Math.round(x)` is `Floor(x + 0.5)`. This is exact for finite numbers.
- `Math.abs(s - h)` is `Dist`.
- The month length 1000·60·60·24·30.44 ms is exactly 2630016000 in double arithmetic.
- The year length 365.25 days is 31557600000 ms.

## Model

| member | source | states |
|---|---|---|
| Growth.MonthsSince | frontend/src/lib/growth.js:6-12 | The result is never negative, and it is 0 for a birthdate after the reference instant. Otherwise it is the floor of the elapsed time in 30.44-day months: `months·MS ≤ now − birth < (months+1)·MS`. |
| Growth.CheckpointsIncrease | frontend/src/lib/growth.js:15-19 | The checkpoint table is strictly increasing in both age and height, for any two indices. |
| Growth.OnCurve | frontend/src/lib/growth.js:21-29 | Characterizes the median height at age m. It is the first checkpoint's height up to 0 months and the last checkpoint's from 60 months on. In between it is the straight line through the two checkpoints whose half-open segment holds m. CurveDefined shows such a height always exists. |
| Growth.BracketExists | frontend/src/lib/growth.js:24-30 | Every age strictly between 0 and 60 months lies in some segment of the table. |
| Growth.BracketUnique | frontend/src/lib/growth.js:24-30 | At most one half-open segment holds a given age. |
| Growth.CurveDefined | frontend/src/lib/growth.js:21-29 | Every age has a median height: 50 up to 0 months, 110 from 60 months on, and otherwise `a.h + (m−a.m)/(b.m−a.m)·(b.h−a.h)` on the one segment that holds the age. At 60 months the last segment's line and the clamp agree. |
| Growth.MedianHeight | frontend/src/lib/growth.js:21-29 | The median height at age m satisfies that characterization. |
| Growth.HeightAtMonths | frontend/src/lib/growth.js:21-32 | The clamp-then-scan loop returns the median height for every age. The fallback `return 104` after the loop is proved unreachable. |
| Growth.LerpBetween | frontend/src/lib/growth.js:27-28 | An interpolated value lies between the heights of the two checkpoints around it. |
| Growth.LerpMonotone | frontend/src/lib/growth.js:27-28 | Within one segment, interpolation does not decrease as the age grows. |
| Growth.MedianHeightBetweenCheckpoints | frontend/src/lib/growth.js:24-29 | For an age between two neighbouring checkpoints, the height lies between their heights. |
| Growth.MedianHeightAtCheckpoint | frontend/src/lib/growth.js:15-29 | At each checkpoint's age the curve gives exactly that checkpoint's height. |
| Growth.MedianHeightMonotone | frontend/src/lib/growth.js:21-32 | The median height never decreases as the age grows. |
| Growth.MedianHeightRange | frontend/src/lib/growth.js:21-32 | The height is 50 for every m ≤ 0 and 110 for every m ≥ 60, and always within [50, 110]. |
| Growth.StepsEvenlySpaced | frontend/src/lib/growth.js:36 | The size ladder has 19 steps, starting at 50 and rising by 6 each time. |
| Growth.FirstNearestUnique | frontend/src/lib/growth.js:37-38 | Only one index can be the first step nearest to a height. |
| Growth.NearestIsFirstNearest | frontend/src/lib/growth.js:37-38 | The reference nearest-step function picks a step that is as close as any step, and strictly closer than every earlier step. |
| Growth.FirstNearestIndex | frontend/src/lib/growth.js:37-38 | The index picked is as close to the height as any step, and strictly closer than every earlier (smaller) step. |
| Growth.NearestSize | frontend/src/lib/growth.js:34-40 | The value `heightToSize` returns: no size for a zero height, otherwise the ladder step at FirstNearestIndex. NearestSizeAgrees, NearestSizeOf88 and NearestSizeTieKeepsSmaller pin it down, and HeightToSize is proved equal to it. |
| Growth.NearestSizeAgrees | frontend/src/lib/growth.js:34-40 | There is no size exactly when the height is 0 (falsy). Otherwise the size equals the step that the recursive reference definition picks. |
| Growth.NearestSizeOf88 | frontend/src/lib/growth.js:36-38 | A height of 88 maps to size 86. |
| Growth.NearestSizeTieKeepsSmaller | frontend/src/lib/growth.js:38 | A height of 89 is equally far from 86 and 92, and maps to 86. |
| Growth.HeightToSize | frontend/src/lib/growth.js:34-40 | The running-best scan returns the nearest size. |
| Growth.Round | frontend/src/lib/growth.js:58 | `Math.round` gives the integer n with x − ½ < n ≤ x + ½. |
| Growth.Delta | frontend/src/lib/growth.js:46-47 | The calibration offset. With a positive measured height it brings the median height now exactly to the measured height (estNow + delta == measured). Otherwise it is 0. ForecastUncalibrated and ForecastCalibratedStart use it. |
| Growth.Forecast | frontend/src/lib/growth.js:43-62 | The 13-point forecast as a value, one point per offset. ForecastMonths, ForecastPointHeight, ForecastUncalibrated, ForecastCalibratedStart, ForecastCalibratedBounds and ForecastDisplayedHeightsRise state its properties, and PredictionSeries is proved equal to it. |
| Growth.ForecastPointFor | frontend/src/lib/growth.js:51-58 | One turn of the loop (date, median height plus delta, size of the unrounded height, rounded height) gives exactly the forecast's point for that offset. |
| Growth.PredictionSeries | frontend/src/lib/growth.js:43-62 | The loop builds exactly the forecast: the age and delta are computed once, then one point is added per offset 0..12. |
| Growth.ForecastMonths | frontend/src/lib/growth.js:50-51 | There are 13 points. Point 0 is the current month, and each later point is in the calendar month after the previous point, with December rolling over to January. |
| Growth.ForecastPointHeight | frontend/src/lib/growth.js:53-58 | A point's size is computed from the unrounded calibrated height, and its displayed height is that height rounded. |
| Growth.ForecastUncalibrated | frontend/src/lib/growth.js:46-54 | Without a positive numeric measured height, delta is 0. The forecast is the median curve, at least 50 cm, and every point has a size. |
| Growth.ForecastCalibratedStart | frontend/src/lib/growth.js:46-58 | With a measured height c > 0, point 0's unrounded height is c and its displayed height is round(c). Every point is the median curve shifted by the same delta. |
| Growth.ForecastCalibratedBounds | frontend/src/lib/growth.js:46-54 | With c > 0, every unrounded height lies in [c, c + 60], so it is positive and every point has a size (never null). |
| Growth.ForecastHeightsRise | frontend/src/lib/growth.js:52-53 | Forecast heights never decrease from one offset to a later one. |
| Growth.ForecastDisplayedHeightsRise | frontend/src/lib/growth.js:58 | Displayed (rounded) heights never decrease along the forecast. |
| Growth.StoredKidForecast | backend/models/Kid.js:11 | For a child whose stored height is in [40, 200], or who has no height, every forecast height is at least 40 cm and every point has a size. |
| Calendar.AddMonths | frontend/src/lib/growth.js:51 | `new Date(y, mo + m, 1)` is m months after (y, mo), with the year carry. It stays in the same year when no December boundary is crossed. |
| Calendar.AddMonthsStep | frontend/src/lib/predict.js:8 | Adding one more month steps to the next calendar month, and December rolls over to January of the next year. |
| Predict.StartSize | frontend/src/lib/predict.js:5 | The starting size is the parsed size, unless parsing gives NaN or 0, in which case it is 100. It is never 0. |
| Predict.AgeYears | frontend/src/lib/predict.js:9 | The child's age in average years at the first of a month: elapsed milliseconds divided by 365.25 days. BumpEvery and SizeSteps use it. |
| Predict.BumpEvery | frontend/src/lib/predict.js:10 | The bump period is 8 or 12, and it is 8 exactly when the child is under 3 years old at that point. |
| Predict.BumpAt | frontend/src/lib/predict.js:11 | The size goes up at offset m exactly when m is non-zero and the period divides m. SizeSteps and BumpOnlyAt8Or12 pin it down. |
| Predict.SizeForecast | frontend/src/lib/predict.js:2-19 | The 13 predicted points as a value. SizeSteps, SizesRise, LastSizeBound, AlwaysUnder3BumpsAt8, AlwaysOver3BumpsAt12 and SizeForecastMonths state its properties, and PredictSizes is proved equal to it. |
| Predict.PredictSizes | frontend/src/lib/predict.js:2-19 | The single counter loop produces exactly the 13 predicted points: offset m carries the starting size plus the number of bumps at offsets 1..m. |
| Predict.SizeSteps | frontend/src/lib/predict.js:10-11 | Point 0 carries the starting size. Each later size equals the previous one, plus 1 exactly when the period for that point's age (8 under 3 years, else 12) divides the offset. |
| Predict.BumpOnlyAt8Or12 | frontend/src/lib/predict.js:7-11 | Within offsets 0..12 a bump can occur only at offset 8 or 12. |
| Predict.BumpsThroughBound | frontend/src/lib/predict.js:7-11 | By offset m there has been at most one bump if m ≥ 8, and at most two if m ≥ 12. |
| Predict.SizesRise | frontend/src/lib/predict.js:11 | Sizes never decrease, and they grow by at most one per month. |
| Predict.LastSizeBound | frontend/src/lib/predict.js:5-11 | The last size lies between the starting size and the starting size + 2. |
| Predict.AlwaysUnder3BumpsAt8 | frontend/src/lib/predict.js:1-11 | A child under 3 at every point gets exactly one bump, at offset 8. |
| Predict.AlwaysOver3BumpsAt12 | frontend/src/lib/predict.js:1-11 | A child aged 3 or older at every point gets exactly one bump, at offset 12. |
| Predict.SizeForecastMonths | frontend/src/lib/predict.js:7-8 | There are 13 points, dated the first days of consecutive months, starting with the current month. |
| Items.FilterMembers | frontend/src/pages/Items.jsx:43 | Filtering keeps exactly the elements the test accepts, and the result is never longer than the input. |
| Items.FilterCounts | frontend/src/pages/Items.jsx:43 | Every accepted element is kept as many times as it occurs, and every rejected element is kept 0 times. |
| Items.FilterKeepsOrder | frontend/src/pages/Items.jsx:43 | The filtered list is a subsequence of the input: the original order is kept. |
| Items.FilterAll | frontend/src/pages/Items.jsx:43-46 | Filtering with a test that every element passes returns the whole list. |
| Items.Matches | frontend/src/pages/Items.jsx:44-45 | An item passes when the child filter is empty or names its child, and the status filter is empty or names its status. FilterItems states the shown list in terms of it. |
| Items.FilterItems | frontend/src/pages/Items.jsx:42-47 | An item is shown iff (no child is selected or its child is the selected one) and (no status is selected or its status is the selected one). The shown list is an order-preserving subsequence with multiplicities kept, and with both filters empty it is the whole list. |
| Items.RemoveById | frontend/src/pages/Items.jsx:65 | No item with the id is left, every other item is kept with its multiplicity and in its original order, and nothing changes when no item has the id. |
| Items.FilterCommutes | frontend/src/pages/Items.jsx:42-47 | Applying two filters in either order gives the same list. |
| Items.RemoveCommutesWithFilter | frontend/src/pages/Items.jsx:42-66 | Deleting an item and then filtering gives the same list as filtering and then deleting. |
| Items.FilterAppend | frontend/src/pages/Items.jsx:42-47 | Filtering a concatenation gives the concatenation of the filtered parts. |
| Items.AddedItemShownLast | frontend/src/pages/Items.jsx:42-59 | An appended item that passes the filters shows up last in the filtered list, after the items that were shown before. |
| Items.AddedItemHidden | frontend/src/pages/Items.jsx:42-59 | An appended item that fails the filters leaves the filtered list unchanged. |
| Items.ItemsPage.constructor | frontend/src/pages/Items.jsx:7-21 | The page starts with empty lists, the child remembered from an earlier visit or "" (all), status filter "needed" and the empty form (jacket, "", winter, needed, ""). |
| Items.ItemsPage.Filtered | frontend/src/pages/Items.jsx:42-47 | The list the page shows: FilterItems applied to the page's items and its two filters. AddItem and RemoveItem state how it changes. |
| Items.ItemsPage.KidsLoaded | frontend/src/pages/Items.jsx:25-31 | The fetched children are stored. If no child was selected when the page was shown and the list is non-empty, the first child's id becomes the selection. Nothing else changes. |
| Items.ItemsPage.ItemsLoaded | frontend/src/pages/Items.jsx:34 | The fetched items replace the list, and nothing else changes. |
| Items.ItemsPage.SelectKid | frontend/src/pages/Items.jsx:79 | Choosing in the child filter sets the selection ("" for all), and nothing else changes. |
| Items.ItemsPage.SelectStatus | frontend/src/pages/Items.jsx:95 | Choosing in the status filter sets the status filter ("" for all), and nothing else changes. |
| Items.ItemsPage.AddItem | frontend/src/pages/Items.jsx:49-61 | With no child selected, nothing is sent and items and form are unchanged. Otherwise the request body is the form plus the selected child. When the server answers with an item, it is appended after the existing items, which are unchanged, and the form is reset to jacket/""/winter/needed/"". A failed request changes nothing. The shown list gains the new item at its end when the item passes the filters, and is otherwise unchanged. |
| Items.ItemsPage.RemoveItem | frontend/src/pages/Items.jsx:63-66 | After a successful delete the list is the old list with every item of that id removed and the rest in order. A failed delete changes nothing. The other fields are unchanged. The shown list becomes the old shown list without the items of that id. |

## Left out

- Month labels (`toLocaleString`) depend on the locale, so they are not modelled. A point carries its (year, month) instead.
- Time zones and the clock are not modelled. The reference instant and the local epoch milliseconds of each month start are parameters. `predictionSeries` reads the clock twice (`new Date()` and `Date.now()`); the model uses a single instant.
- Calendar.AddMonths: years are taken as four-digit years. JavaScript's `new Date(y, ...)` reads a year 0 to 99 as 1900 to 1999, which the model does not reproduce; the clock never yields such a year.
- IEEE floating point is not modelled: heights, ages and divisions are exact reals. Rounding effects near a month or year boundary are not captured.
- Invalid birthdates are not modelled. For an unparseable birthdate string the source computes `NaN` months, and `heightAtMonths(NaN)` then falls through every comparison to the fallback 104 rather than to age 0. The model takes the birthdate as a valid instant, which the backend schema requires.
- `parseInt` is not modelled as a string parser. Its result is an `Option<int>`, with `None` for `NaN`.
- `typeof currentHeight === "number"` is folded into the `Option`: a non-number or `NaN` is `None`.
- The server requests themselves are not modelled: HTTP, authentication, persistence and `localStorage` writes. The created item, the success of a delete and the fetched lists are parameters.
- React's asynchronous updates are not modelled. Each handler is applied to the state as one atomic step. The `await` between sending and applying, during which other updates may land, is not captured.
- Items.ItemsPage.AddItem: the form's own `required` size check and the disabled submit button are browser behaviour and are not modelled. Only the handler's own guard on the selected child is modelled.
- The JSX rendering of the lists and forms is not modelled.
