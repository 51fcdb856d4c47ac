# High-quality momentum ranking: a Dafny model

This project models the pure core of a small batch script (`main.py`) that
ranks equities by "high-quality momentum" (HQM). The script loads a ticker
universe, requests prices and return statistics in batches of 100 symbols,
zero-fills null values, and scores every instrument. For each of four
lookback windows (1 year, 6 months, 3 months, 1 month) it takes the
percentile of the instrument's return within the whole universe. The HQM
score is the mean of the four percentiles. The script then keeps the 50
best scores and splits a fixed budget evenly across them, buying
`floor(position_size / price)` shares of each.

The model is a functional pipeline over sequences of immutable records.
Prices, returns, percentiles and scores are exact rationals (`real`).

| file | module | what it holds |
|---|---|---|
| `types.dfy` | `Types` | windows, the per-stage row records (`Quote`, `Stock`, `Scored`, `Trade`), errors |
| `batching.dfy` | `Batching` | `chunks`, `','.join`, `str.split(',')` and their round trips |
| `fetch.dfy` | `Fetch` | building the table from the batch responses; `fillna(value = 0)` |
| `scoring.dfy` | `Scoring` | `percentileofscore` (`kind='rank'`), the four-window scoring loop |
| `selection.dfy` | `Selection` | sort by HQM score descending, keep 50 |
| `sizing.dfy` | `Sizing` | position size and share counts, "no overspend" |
| `pipeline.dfy` | `Pipeline` | the whole run and its end-to-end properties |

Points where the code behaves differently from what its names suggest; the
model follows the code:

- **Percentile ties.** The usual "percentile of a score" is the percentage
  of values ≤ the score. The code calls `percentileofscore` with its default
  `kind='rank'`. That counts values below the score fully, values equal to
  it by half, and adds one half when the score occurs at all. So tied
  values get less than the "≤" percentage. `Scoring.PercentileVersusWeak`
  proves exactly when the two agree. A maximum return that is tied gets less
  than 100: `Scoring.PercentileTopIff` shows that 100 is reached exactly by
  a return strictly above every other.
- **Missing symbol.** An instrument absent from a batch response is not
  zero-filled: `data[symbol]` raises. The model stops with `MissingSymbol`.
- **Missing price.** `fillna` runs over every column, so a null price becomes
  0. Sizing then divides by that 0. The model stops with `ZeroPrice` for the
  first such selected row. A negative price is not an error in the code; it
  gives a negative share count, and the model does the same.
- **Tie order.** `sort_values` is not stable by default, so the contracts
  promise no order among equal scores: only the ordering, subset and top-k
  properties (`Selection.IsTop`), and `Selection.PrefixOfSortedIsTop` holds
  for any descending rearrangement. `Selection.SortByScore`, and through it
  `Pipeline.Run`, computes one admissible order (an earlier row before an
  equal later one). Where tied rows straddle 50th place and only one of them
  has a zero price, `Run` may succeed or fail where the program does the
  opposite; no lemma depends on that choice.
- **Empty universe.** No request is made, and the run stops at
  `PORTFOLIO_SIZE / 0` with `EmptySelection` (`Pipeline.EmptyUniverse`).

## Model

| member | source | states |
|---|---|---|
| Batching.ChunksFrom | main.py:30-32 | the slices from a start offset: each is non-empty and at most `n` long, all but the last are exactly `n` long, their concatenation is the rest of the list, and their number is the ceiling of the remaining length over `n` |
| Batching.Chunks | main.py:30-32 | `chunks(lst, n)` concatenates back to `lst`; every chunk has 1..n elements, all but the last exactly `n`; there are `(len + n - 1) / n` chunks |
| Batching.Split | main.py:46 | `str.split(',')` returns one more piece than there are commas, and no piece contains a comma |
| Batching.SplitJoin | main.py:38-46 | splitting the comma-joined batch gives the batch back when it is non-empty and no symbol contains a comma |
| Batching.JoinSplit | main.py:46 | joining the pieces of any split string restores the string |
| Batching.Join | main.py:39 | `','.join(group)` starts with the first symbol and is as long as all the symbols plus one comma between each neighbouring pair; an empty group joins to the empty string |
| Batching.JoinAll | main.py:38-39 | one symbol string per batch, each the comma join of that batch |
| Batching.SymbolStrings | main.py:35-39 | there is one symbol string per batch of 100 tickers, `ceil(len / 100)` in all |
| Batching.BatchRoundTrip | main.py:35-46 | for comma-free tickers, the symbols read back from all the symbol strings are exactly the loaded tickers, in file order |
| Batching.Symbols | main.py:46 | the symbols read back from the symbol strings: at least one per string, and none containing a comma |
| Fetch.Lookup | main.py:46-51 | a batch's rows succeed exactly when every symbol has an entry; each row carries its symbol and that entry's price and statistics; on failure the error names the first missing symbol |
| Fetch.Tabulate | main.py:43-66 | the table succeeds exactly when every symbol of every batch is in its own response; its tickers are the split symbols in request order; the row of the `k`-th symbol of batch `i` sits after the rows of the earlier batches and is that symbol's entry in batch `i`'s own response; a failure names the first symbol, in request order, that its own batch's response lacks |
| Fetch.RepeatedTickerScenario | main.py:43-51 | a ticker requested in two batches ("A", then "A,B") gets one row per request, each from its own batch's response |
| Fetch.FillMissing | main.py:68 | zero-fill keeps the ticker and every present value, and turns each null price or return into 0 |
| Fetch.FillCompleteIsIdentity | main.py:68 | a row with nothing null passes through the zero-fill unchanged |
| Fetch.FillTable | main.py:68 | the zero-fill of the table keeps its length and zero-fills every row on its own |
| Scoring.Percentile | main.py:84 | the `kind='rank'` percentile of a score lies in [0, 100] |
| Scoring.CountTies | main.py:84 | the values counted by `<=` but not by `<` are exactly the occurrences of the score |
| Scoring.TiesMeanRank | main.py:84 | the `kind='rank'` half-rank count is twice the mean 1-based rank of the score's ties when the score occurs, and twice the number of smaller values when it does not |
| Scoring.RankSumClosed | main.py:84 | the ranks `b + 1` .. `b + m` sum to `m * (2b + m + 1) / 2` |
| Scoring.PercentileMonotone | main.py:84 | a higher return never gets a lower percentile |
| Scoring.PercentileTopIff | main.py:84 | a return gets percentile 100 exactly when it is strictly greater than every other return in its column |
| Scoring.PercentileSingleton | main.py:84 | in a one-instrument column the instrument gets percentile 100 |
| Scoring.PercentileVersusWeak | main.py:84 | the code's percentile is at most the "percentage ≤" percentile, with equality exactly when the score occurs at most once |
| Scoring.ThreeInstrumentScenario | main.py:84 | returns 0.10, 0.30, 0.20 get percentiles 100/3, 100, 200/3 |
| Scoring.ScoreRow | main.py:80-87 | a scored row keeps its stock, has each window's percentile ranked against that window's whole column, and has an HQM score equal to the mean of the four percentiles and within [0, 100] |
| Scoring.Score | main.py:77-87 | the scored table keeps every stock in order; each row's percentile in each window is ranked against that window's whole column; its HQM score is the mean of its four percentiles and lies in [0, 100] |
| Scoring.Mean | main.py:87 | `statistics.mean`: the mean times the number of values is their sum |
| Scoring.MeanOfFour | main.py:87 | the mean of four percentiles is their sum divided by four |
| Scoring.ScoreRowLoop | main.py:80-87 | the window loop, which resets the HQM score to the running mean after each window, leaves the row with each window's percentile against that window's full column and the mean of all four percentiles as its HQM score |
| Scoring.ScoreTable | main.py:77-87 | the row loop gives every row, in order, the scored row of the whole-table definition: percentiles against the complete, unchanged return columns and the four-window mean |
| Scoring.WindowPercentileMonotone | main.py:84 | within one window, the row with the higher return has the higher or equal percentile |
| Scoring.ScoreDominance | main.py:80-87 | a row whose returns are at least another's in every window has at least its HQM score |
| Scoring.SingleInstrumentScore | main.py:77-87 | a one-instrument universe scores 100 in every window and overall |
| Selection.Insert | main.py:91 | inserting a row into a descending sequence keeps it descending and adds exactly that row |
| Selection.SortByScore | main.py:91 | the sorted table is a rearrangement of the rows with non-increasing HQM scores |
| Selection.PrefixOfSortedIsTop | main.py:91-94 | the first `k` rows of any descending rearrangement form a top-`k` selection, however ties were ordered |
| Selection.SelectTop | main.py:91-95 | the selection has `min(50, n)` rows with non-increasing scores, is a sub-multiset of the table, and no kept row scores below a dropped one |
| Selection.KeptIsFromTable | main.py:94 | every kept row is a row of the scored table |
| Sizing.PositionSize | main.py:97 | the per-instrument budget times the number of selected rows is the total budget |
| Sizing.Shares | main.py:101 | for a positive price, the share count is the largest whole number whose cost fits the position size, and it is non-negative for a non-negative position size |
| Sizing.FirstZeroPrice | main.py:100-101 | finds the first selected row whose price is 0, or reports that none is |
| Sizing.SizePositions | main.py:97-101 | sizing fails on an empty selection or a zero price (naming the first zero-price row) and otherwise succeeds; each trade keeps its row; with a positive price its share count is `floor(position_size / price)`, the largest count whose cost fits the position size, and it is non-negative for a non-negative budget |
| Sizing.SizeAll | main.py:100-101 | the sizing loop over rows with non-zero prices: one trade per row, in order, each buying the floor of `size / price` shares, the most whose cost fits `size` for a positive price, and none negative for a non-negative size |
| Sizing.NoOverspend | main.py:97-101 | with positive prices, sizing a non-empty selection succeeds and the summed cost of all trades is at most the budget |
| Sizing.UniformPriceScenario | main.py:97-101 | with the budget of 1,000,000, fifty rows at price 100 get 20,000 each and 200 shares each |
| Pipeline.Universe | main.py:68-87 | the scored table has one row per fetched row, in order: that row zero-filled, scored against the whole zero-filled table, with an HQM score in [0, 100] |
| Pipeline.EmptyUniverse | main.py:30-97 | an empty ticker list stops with the empty-selection error |
| Pipeline.Run | main.py:30-101 | a successful run found an entry for every requested symbol, and sizes between 1 and 50 rows, none with price 0; when it succeeds is stated by `Pipeline.RunSucceeds` |
| Pipeline.RunSucceeds | main.py:30-101 | the run succeeds exactly when the ticker list is non-empty, every symbol has an entry in its batch's response, and no selected row has price 0 |
| Pipeline.MissingSymbolStops | main.py:43-51 | a symbol missing from its batch's response stops the run with a missing-symbol error |
| Pipeline.SelectedTickers | main.py:77-95 | every selected row carries a requested ticker and an HQM score in [0, 100] |
| Pipeline.SizedIsTop | main.py:91-101 | sizing keeps the selection: the trades are for a top-50 selection of the scored table, in descending order |
| Pipeline.SizedProperties | main.py:91-101 | the sized table is a top-50 selection of the scored universe and has `min(50, n)` rows with non-increasing scores in [0, 100], each for a fetched ticker; with positive prices it spends at most the budget |
| Pipeline.RunProperties | main.py:30-101 | a successful run over comma-free tickers yields a top-50 selection of the universe scored from the responses: `min(50, n)` rows with non-increasing scores in [0, 100], each for a loaded ticker, and with positive prices spends at most the budget |

## Left out

- Reading the API token from the environment and the ticker column from the CSV file (main.py:11-12): process and file I/O. The ticker column is the input sequence of `Batching.SymbolStrings` and `Pipeline.Run`.
- The HTTP request and JSON decoding (main.py:44-45): network I/O. The decoded response of one batch request is the parameter `fetch`, a map from symbol to price and statistics.
- A JSON null for a whole `stats` object (the code would fail indexing it): the model's response entry always has a statistics record; only its individual fields may be null.
- An absent key in a symbol's entry (`price`, `stats`, or one of the four `…ChangePercent` keys, main.py:51-58): the code raises `KeyError`, while an `Entry` in the model always has all of them; only a null value (`None`, zero-filled at main.py:68) is represented.
- DataFrame mechanics (`append`, `.loc`, `reset_index`, main.py:41-66, 95): replaced by sequences of records with the same meaning; re-indexing is a sequence's own 0-based indexing.
- The spreadsheet output, column formats and colours (main.py:104-164): presentation and file output.
- Floating-point rounding, NaN and infinity: all arithmetic is on exact rationals with `.Floor`. The exception raised for a zero price is not modelled by kind; the run stops with `ZeroPrice`.
- Batching.Chunks: requires a positive chunk size, since Python's `range` raises on a step of 0; the script only uses 100.
- Scoring.Percentile: requires a non-empty column. The script only ranks a row's return within its own column, which contains it, so scipy's result for an empty array is never reached.
- Selection.SelectTop: does not state which of several equally scored rows is kept at the boundary, because the source's default sort is not stable.
