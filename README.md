# Golf handicap tracker: verified model of the scoring logic

This project models the scoring logic of a golf round tracker. It does not model the user interface or the database. It covers three parts:

- **The handicap calculator** (`Handicap.Calculate`). A course has a course rating and a slope rating. When both are truthy (present and not 0), the round gets the World Handicap System score differential `(score − courseRating) × 113 / slopeRating`. Otherwise the round gets the simple handicap `(score − par) × 18 / holes`. The result is rounded with JavaScript's `Math.round`, at one of two precisions: two decimals on the add-score form and one decimal on the live scorecard. A `Precision` parameter keeps this difference. Exactly one of the two figures is ever set.
- **The add-score form** (module `AddScore`). The submit guard refuses a form with no course or no score. The insert step looks up the course, and the preview shows the handicap that would be saved.
- **The live scorecard** (module `LiveScorecard`). This is a class whose state is the chosen course id, the chosen course and the list of hole entries. Choosing a course lays out a blank round, with one entry per hole and `Math.round(par / holes)` as each hole's par. Entering strokes replaces one entry. Pure functions compute the running totals and the save checks, which refuse a round with no strokes and then a round with unfilled holes. A complete round becomes a record carrying the one-decimal handicap.
- **The dashboard statistics** (module `Dashboard`). These are computed over the stored rows:
  - The query fetches only rows whose simple handicap is not null.
  - Each row's handicap is `simple_handicap || score_differential`.
  - Null handicaps are dropped.
  - The average, the minimum and the first handicap are reported, each rounded to one decimal, together with the number of rows.

No floating point is used. The course rating is a whole number of tenths. Each rounded figure is held as a whole number of hundredths or tenths, computed by `Rounding.RoundDiv` with exact integer division. The specification of `Math.round` is stated on exact reals (`Rounding.IsJsRound`: `v ≤ x + ½ < v + 1`), so halves round toward +∞.

The model keeps some quirks of the code:
- A course with only one rating, or with a rating of 0, is scored with the simple method.
- The per-hole pars need not add up to the course par. For example, par 35 over 9 holes gives a card par of 36.
- A row whose simple handicap is 0 contributes no handicap, but still counts as a round, unless it has a differential.
- When rows exist but no handicap survives, the statistics are not numbers (`Dashboard.Stats.NotANumber`).
- The statistics query only fetches rows whose simple handicap is not null. So a round scored with the score differential never reaches the dashboard (`Dashboard.RatedRoundsInvisible`).
- The statistics query has no ordering. Its "latest" handicap is the first surviving row in the order the store returns the rows.

Rounding and stroke entry follow the code:
- The add-score form rounds to two decimals (`src/pages/AddScore.tsx`, lines 77 and 85) and the live scorecard to one (`src/pages/LiveScorecard.tsx`, lines 99 and 102).
- The live scorecard never stores a round before it is saved.
- A stroke entry may be 0 or negative; the code does not check it.

## Model

| member | source | states |
|---|---|---|
| `Rounding.RoundDiv` | src/pages/AddScore.tsx:77 | the integer computed is `Math.round(n / d)` of the exact rational `n / d`: the unique `v` with `v ≤ n/d + ½ < v + 1`, for either sign of `d` |
| `Rounding.HalvesRoundUp` | src/pages/AddScore.tsx:85 | halves round toward +∞: −0.125 becomes −0.12 at two decimals, and 0.125 becomes 0.13 |
| `Handicap.Calculate` | src/pages/AddScore.tsx:72-88 | exactly one figure is set; a course with a truthy rating and a truthy slope gets `Math.round((score − CR)·113/SR · k)` and no simple handicap; every other course gets `Math.round((score − par)·18/holes · k)` and no differential, with k = 100 or 10 |
| `Handicap.PartialRatingIsSimple` | src/pages/AddScore.tsx:73 | a missing or zero course rating, or a missing or zero slope rating, routes the round to the simple method |
| `Handicap.WorkedExamples` | src/pages/AddScore.tsx:72-88 | 85 on an unrated 18-hole par 72 gives 13.00; 50 on an unrated 9-hole par 36 gives 28.00; 85 at rating 72.5 and slope 130 gives 10.87 at two decimals and 10.9 at one |
| `Handicap.FindCourse` | src/pages/AddScore.tsx:94 | the result is missing exactly when no course has the id; otherwise it is the first course with that id |
| `AddScore.CreateScore` | src/pages/AddScore.tsx:91-105 | refuses without a user, then when no course has the id; succeeds whenever a user is signed in and some course has the id; the record then carries the user, the form's course id, score and date, and exactly the calculator's two-decimal figures for the course `find` returns |
| `AddScore.Submit` | src/pages/AddScore.tsx:128-139 | refuses with nothing inserted exactly when the course id or the score is empty; otherwise it is the insert step |
| `AddScore.Preview` | src/pages/AddScore.tsx:141-144 | present exactly when a score is entered and the id names a course; when present, it is the calculator's two-decimal result for the course `find` returns, with exactly one figure set |
| `AddScore.PreviewIsWhatIsSaved` | src/pages/AddScore.tsx:141-144 | for a signed-in user whose courses all have non-empty ids, the preview is present exactly when submitting succeeds, and it equals the saved record's figures |
| `LiveScorecard.ParPerHole` | src/pages/LiveScorecard.tsx:129 | each hole's par is `Math.round(course.par / course.holes)` |
| `LiveScorecard.FreshHoles` | src/pages/LiveScorecard.tsx:130-134 | a new round has exactly `holes` entries, numbered 1..holes in order, each with the par per hole and no strokes |
| `LiveScorecard.FilledHoles` | src/pages/LiveScorecard.tsx:79 | the filled count lies between 0 and the number of entries |
| `LiveScorecard.FilledHolesAll` | src/pages/LiveScorecard.tsx:79 | the filled count equals the number of entries exactly when every entry has strokes; 0 strokes counts as filled |
| `LiveScorecard.TotalsAppend` | src/pages/LiveScorecard.tsx:148-150 | `TotalStrokes`, `TotalPar`, `FilledHoles` and `ScoreToPar` are the left-to-right `reduce` from 0: all are 0 on an empty card, and a hole adds its strokes (0 when empty) to the stroke total, its par to the par total, 1 to the filled count if it has strokes, and strokes minus par to the score to par |
| `LiveScorecard.FreshRoundTotals` | src/pages/LiveScorecard.tsx:129-149 | a new round has 0 strokes, 0 filled holes, and a total par of `holes × round(par/holes)` |
| `LiveScorecard.ParDriftExample` | src/pages/LiveScorecard.tsx:129 | par 35 over 9 holes gives a card par of 36, not 35 |
| `LiveScorecard.ChangeStrokeTotals` | src/pages/LiveScorecard.tsx:139-150 | replacing one hole's strokes moves the stroke total and the score to par by exactly the difference, and the filled count by the change in filledness; the par total is unchanged |
| `LiveScorecard.SaveRound` | src/pages/LiveScorecard.tsx:75-103 | refusals in order: no course or user, then no filled hole, then fewer filled holes than the course has; on success, score = total strokes and the figures are the calculator's one-decimal result for the course |
| `LiveScorecard.FreshRoundRefused` | src/pages/LiveScorecard.tsx:79-83 | a freshly laid-out round is refused with the no-strokes error |
| `LiveScorecard.SaveSucceedsIffComplete` | src/pages/LiveScorecard.tsx:79-87 | on a laid-out round, saving succeeds exactly when every hole has strokes |
| `LiveScorecard.Scorecard.constructor` | src/pages/LiveScorecard.tsx:35-37 | the screen opens with no course id, no course and no entries |
| `LiveScorecard.Scorecard.SelectCourse` | src/pages/LiveScorecard.tsx:124-137 | the id is always remembered; a known id selects that course and replaces the entries with a fresh layout, discarding earlier strokes; an unknown id changes neither course nor entries; the layout invariant is kept |
| `LiveScorecard.Scorecard.ChangeStroke` | src/pages/LiveScorecard.tsx:139-146 | only the strokes of the entry at the index change; length, numbering, pars and every other entry stay the same |
| `LiveScorecard.Scorecard.ClearCourse` | src/pages/LiveScorecard.tsx:198 | the change-course button deselects the course and keeps the id and the entries |
| `LiveScorecard.Scorecard.Save` | src/pages/LiveScorecard.tsx:75-103 | saving the screen's round is `SaveRound` of its state, and it succeeds exactly when a course is chosen, a user is signed in and every hole is filled |
| `Dashboard.StoredRow` | src/pages/LiveScorecard.tsx:96-105 | a stored result keeps which of its two columns are null, and each present figure is stored in hundredths: ×10 for a one-decimal figure, unchanged for a two-decimal one |
| `Dashboard.FetchedRows` | src/pages/Dashboard.tsx:75-79 | every fetched row has a non-null simple handicap, at most as many rows come back as are stored, and nothing comes back exactly when no stored row has a simple handicap |
| `Dashboard.FetchedRowsMembers` | src/pages/Dashboard.tsx:75-79 | each stored row with a non-null simple handicap is fetched, and each fetched row is a stored row |
| `Dashboard.FetchedRowsAppend` | src/pages/Dashboard.tsx:75-79 | the filter keeps the store's order: filtering two runs of rows gives the first run filtered followed by the second |
| `Dashboard.RowHandicapCases` | src/pages/Dashboard.tsx:86 | the simple handicap or, failing it, the differential: a row has no handicap exactly when its simple handicap is null or 0 and it has no differential; a handicap is always one of the row's figures; a handicap of 0 only comes from a differential of 0; a nonzero simple handicap always wins |
| `Dashboard.Handicaps` | src/pages/Dashboard.tsx:85-87 | at most one handicap per row is collected, and none when no row has a handicap |
| `Dashboard.HandicapsAppend` | src/pages/Dashboard.tsx:85-87 | the map and filter keep order and multiplicity: one row gives exactly its non-null handicap, and two runs of rows give the first run's handicaps followed by the second's |
| `Dashboard.HandicapsCollectAll` | src/pages/Dashboard.tsx:85-87 | every non-null row handicap is collected |
| `Dashboard.HandicapsComeFromRows` | src/pages/Dashboard.tsx:85-87 | every collected value is some row's handicap |
| `Dashboard.SumAppend` | src/pages/Dashboard.tsx:89 | `Sum` is the `reduce((a, b) => a + b, 0)` fold: it is 0 for no figures, a single figure sums to itself, and it is additive over two runs |
| `Dashboard.SumAtLeastMin` | src/pages/Dashboard.tsx:89-90 | the sum of n handicaps is at least n times the smallest |
| `Dashboard.SumAtMostMax` | src/pages/Dashboard.tsx:89 | the sum of n handicaps is at most n times the largest |
| `Dashboard.Min` | src/pages/Dashboard.tsx:90 | the minimum is one of the handicaps and no larger than any of them |
| `Dashboard.ComputeStats` | src/pages/Dashboard.tsx:83-98 | null exactly when there are no rows; not numbers exactly when rows exist but no handicap survives; otherwise the average, minimum and first handicap, each rounded by `Math.round(x·10)/10`; the round count is the number of rows |
| `Dashboard.DashboardStats` | src/pages/Dashboard.tsx:71-98 | the dashboard shows nothing exactly when no stored row has a simple handicap |
| `Dashboard.BestIsLowestRound` | src/pages/Dashboard.tsx:90-95 | the reported best is the rounding of one collected handicap, and is at most the rounding of each of them |
| `Dashboard.AverageBetweenBestAndWorst` | src/pages/Dashboard.tsx:89-95 | the reported average lies between the reported best and the rounding of the largest handicap |
| `Dashboard.LatestIsFirstSurviving` | src/pages/Dashboard.tsx:91-96 | the reported latest is the rounding of the first row's handicap that survives the filter, in row order |
| `Dashboard.ZeroSimpleHandicapDropped` | src/pages/Dashboard.tsx:85-97 | inserting a row with simple handicap 0 and no differential anywhere among other rows leaves the collected handicaps unchanged, yet adds one to the round count; if no other handicap survives, the statistics are not numbers |
| `Dashboard.FetchedRowsUseSimpleHandicap` | src/pages/Dashboard.tsx:79-86 | among fetched rows, the differential is used only when the simple handicap is 0 |
| `Dashboard.RatedRoundsInvisible` | src/pages/Dashboard.tsx:75-97 | adding rows with a null simple handicap anywhere in the store changes no statistic, not even the round count |
| `Dashboard.RatedResultNotFetched` | src/pages/Dashboard.tsx:79 | a rated course's result, at either precision, is stored with a null simple handicap and so is never fetched |

## Left out

- Authentication: session listeners, redirects, and the signed-in user. The user is an `Option` parameter, so only the "not authenticated" and "missing data" refusals are modelled.
- Database access: the course and score queries, inserts and cache invalidation. Courses arrive as a sequence and rows as a sequence in the store's order. The insert is the record returned by the model, and a failed insert is not modelled.
- The user interface: toasts, navigation and rendering. Error messages are constructors (`SaveError.NoStrokesEntered` and `SaveError.HolesMissing(n)` carry the two scorecard messages), not strings.
- The landing page, the navigation bar and the course CRUD page. They hold no scoring logic.
- Parsing of form strings with `parseInt`/`parseFloat`. Scores and strokes arrive already parsed as `Option<int>`, where `None` is an empty field, so NaN inputs are not modelled.
- IEEE-754 behaviour. Figures are exact rationals rounded once, so binary artefacts such as `Math.round(1.005*100)` are not reproduced. `Infinity`/`NaN` from a statistic over no handicaps is collapsed into `Stats.NotANumber`.
- A course rating that is not a multiple of 0.1. The form steps in tenths, so the rating is held in tenths.
- Courses with zero or negative holes. `Handicap.HoleCount` is at least 1, so the division by holes and the per-hole layout are always defined.
- Dates. A date is an opaque string, and the live scorecard's "today" is a parameter.
- The inserted record. The live scorecard omits the unused handicap key where the form sends null; both are modelled as `None`.
- Autosave, debouncing, resume, pause and discard of in-progress rounds. The code has none of these: a live round is never persisted before it is saved.
- The HTML `min`/`max` hints on strokes and slope. The code does not enforce them, so they are not preconditions.
- `LiveScorecard.Scorecard.ChangeStroke` requires the index to be within the entries. The screen only passes indices of rendered entries.
