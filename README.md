# Funding order-book analysis of the Bitfinex dashboard, in Dafny

This project models the decision logic of the Bitfinex funding dashboard (`app.py`).
For each currency the page fetches the funding order book. It keeps the lending side (entries with a positive amount) and groups the entries by exact rate, summing their amounts. It orders the groups by rate and takes the lowest rate as the reference rate ("FRR", the head of the queue).
From that book `display_column` derives several figures:

- the cumulative-depth column and the mean volume per level;
- the "wall", the heaviest level at or above the FRR;
- the "fishing" rate, the highest rate in the book;
- two strategy scans:
  - "dynamic average": the first level heavier than 3 × the mean;
  - "depth accumulation": the first level where the cumulative amount reaches 2,000,000;
- the three biggest walls, listed in rate order.

Rates and amounts are Dafny `real`s. Every step only compares, adds or scales them by constants. A raw book entry and a grouped level are both `Levels.Level(rate, amount)`.

Modules, one per stage of the analysis:

- `Levels` — the `Level` record and the sums over a book (`Sum`, `AmountAt`, `Rates`), and the order predicates.
- `Normalizer` — `get_stable_data` after the fetch. `GetStableData` is a loop proved equal to the function `Normalize`. Lemmas characterise `Normalize` as the unique strictly ascending book that holds the kept amount at each kept rate.
- `Depth` — the cumulative column (`CumulativeColumn`, a loop proved against `DepthAt`) and the mean volume.
- `Walls` — the wall (`WallIndex`, `Wall`) and the fishing rate (`MaxRate`).
- `Scans` — the two "first match, else fallback" scans.
- `Ranking` — `nlargest(3)` followed by `sort_values` on the rate.
- `Dashboard` — `DisplayColumn`, which composes the stages the way `display_column` does.

The thresholds 3 and 2,000,000 and the wall count 3 are named constants: `Scans.BreakoutFactor`, `Scans.DepthTarget` and `Ranking.WallCount`. The functions take them as parameters.

pandas' `groupby` returns its groups in ascending key order, so the explicit `asks.sort` at `app.py:28` receives a list that is already sorted. `Normalize` builds that order directly: each kept entry is merged into a sorted book. `GetStableData` states the result of the sort (`StrictlyAscending`); it does not run a second sort.

The comments at `app.py:7` and `app.py:20` say that an analysis of the 24-hour high was dropped from this version; the code fetches only the order book, and the model has no such analysis.

In the code the wall search has exactly one fallback, the first level (`app.py:53`). `WallOverWholeBook` proves that this fallback is never taken on a book from `get_stable_data`. The breakout factor is fixed at 3 in the code.

## Model

| member | source | states |
|---|---|---|
| `Normalizer.Kept` | app.py:23 | the kept entries are no more numerous than the raw ones, and every one has a positive amount |
| `Normalizer.KeptMembers` | app.py:23 | an entry is kept exactly when it is in the raw book and its amount is positive |
| `Normalizer.KeptCounts` | app.py:23 | every raw entry with a positive amount is kept as many times as it occurs in the raw book, and no other entry is kept (so `Sum(Kept(raw))` counts every positive raw row once per occurrence) |
| `Normalizer.MergeSums` | app.py:26 | adding one entry raises the total by its amount, and raises the amount at its rate and at no other rate. The rate set gains exactly its rate, and the book grows by at most one level |
| `Normalizer.MergeKeepsShape` | app.py:26-28 | merging into a strictly ascending book keeps it strictly ascending, and keeps every amount positive |
| `Normalizer.Normalize` | app.py:23-28 | the grouped book is strictly ascending with positive amounts. It holds exactly the kept rates, at each rate the kept amount there, and in total the kept mass |
| `Normalizer.BookDeterminedByAmounts` | app.py:26-28 | two strictly ascending books with the same rates and the same amount at every rate are equal |
| `Normalizer.NormalizeCanonical` | app.py:23-28 | a book equals the grouped book if and only if it is strictly ascending, has the kept rates, and holds the kept amount at every rate |
| `Normalizer.NormalizeRates` | app.py:23-28 | a rate is in the grouped book if and only if some raw entry with a positive amount has that rate |
| `Normalizer.NormalizeConservesMass` | app.py:23-26 | the grouped book's total equals the sum of the positive raw amounts. It is empty exactly when no raw amount is positive |
| `Normalizer.ReferenceRateIsLowest` | app.py:31 | the FRR is 0 for an empty book; otherwise it is a rate of the book and no level lies below it |
| `Normalizer.AddLevel` | app.py:26 | one grouping step by scan-and-insert (scan to the first rate not below the entry's, then add to it or insert before it) yields the same book as `Merge`, the grouping step that `MergeSums` and `MergeKeepsShape` describe |
| `Normalizer.GetStableData` | app.py:18-31 | the result list is the grouped book, strictly ascending with positive amounts. The FRR is the head's rate, or 0. The list is empty exactly when no raw amount is positive |
| `Depth.CumulativeColumn` | app.py:42 | the cumulative column has one row per level, and row i is the total amount of levels 0 through i |
| `Depth.DepthIncreasing` | app.py:42 | over positive amounts the cumulative column strictly increases, so it never decreases |
| `Depth.DepthTotal` | app.py:42 | the last row of the cumulative column is the book's total amount |
| `Depth.NoBreakoutInSmallBook` | app.py:43 | over positive amounts, a book of at most `factor` levels has no level heavier than `factor` × the mean amount |
| `Walls.HeaviestFrom` | app.py:52-53 | over a suffix, None exactly when no level is at or above the FRR. Otherwise a qualifying level at least as heavy as every qualifying level, and strictly heavier than every earlier qualifying level (idxmax keeps the first maximum) |
| `Walls.WallIndex` | app.py:52-53 | when some level is at or above the FRR, the wall is the first heaviest such level; otherwise it is level 0 |
| `Walls.WallOverWholeBook` | app.py:31-53 | with the FRR taken from the head of a sorted book, the fallback is never taken, and the wall is the first heaviest level of the whole book |
| `Walls.MaxRate` | app.py:59 | the fishing rate is a rate of the book and no level lies above it |
| `Walls.MaxRateIsLast` | app.py:59 | in a sorted book the fishing rate is the last level's rate |
| `Walls.LadderOrdered` | app.py:31-59 | FRR ≤ wall rate ≤ fishing rate |
| `Scans.FirstAboveFrom` | app.py:82 | the index found is the first one from the start point whose amount exceeds the limit, or the length when none does |
| `Scans.DynamicAverage` | app.py:43-82 | if some level is heavier than factor × mean, the rate of the first such level; otherwise the lowest level's rate |
| `Scans.FirstReachingFrom` | app.py:83 | the index found is the first one from the start point whose cumulative amount reaches the target, or the length when none does |
| `Scans.DepthAccumulation` | app.py:83 | if the cumulative amount reaches the target, the rate of the first level where it does; otherwise the highest level's rate |
| `Scans.DepthTargetPersists` | app.py:42-83 | over positive amounts, every level after the one the depth scan finds also meets the target |
| `Scans.ScansStayInBook` | app.py:82-83 | both scan results are rates present in the book |
| `Ranking.ByAmountDesc` | app.py:89 | the ranking is a permutation of the book with amounts non-increasing |
| `Ranking.ByAmountDescHeavierFirst` | app.py:89 | for a book sorted by rate, among equal amounts the ranking puts the lower rate (earlier row) first, as `nlargest(keep='first')` does |
| `Ranking.ByRate` | app.py:89 | the re-sort by rate is a permutation in ascending rate order |
| `Ranking.TopWalls` | app.py:89 | the panel lists min(count, n) levels in ascending rate order, drawn from the book. Each is at least as heavy as every level left out |
| `Ranking.TopWallsTieBreak` | app.py:89 | for a sorted book, every listed level outranks every level left out: it is heavier, or equally heavy at a lower rate |
| `Dashboard.DisplayColumn` | app.py:38-89 | None exactly when no raw amount is positive. Otherwise all figures come from the grouped book, with FRR ≤ wall rate ≤ fishing rate, both scan rates in the book, and the last cumulative row equal to the kept mass |

## Left out

- The network fetch through ccxt (`app.py:11-15`, `app.py:21`): the model takes the raw entry list as its input.
- The bare `except: pass` (`app.py:32`), which turns any fetch or parse failure into an empty book with reference rate 0. The model's empty-input path yields the same `([], 0)`; the failures themselves belong to the fetch.
- The `period` and `count` columns of the raw book (`app.py:22`): they are read but never used by the analysis.
- The refresh loop (`time.sleep(15)`, `st.rerun()`, `app.py:101-102`): this is scheduling.
- All Streamlit rendering: headers, markdown, metrics, charts and tables. This includes the `head(30)` and `head(10)` display slices and the percent and annualised formatting (`rate*100`, `rate*36500`), which are presentation only.
- IEEE floating point (`astype(float)` at `app.py:23`): rates and amounts are exact reals, so sums do not round and grouping compares rates exactly.
- The mutation of the DataFrame when the cumulative column is added (`app.py:42`): `CumulativeColumn` returns the column as a new sequence beside the book.
