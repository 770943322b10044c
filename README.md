# BeatTheHouse: a model of the odds pipeline

BeatTheHouse gets upcoming matches and bookmaker prices from an odds API. From them it
builds a fixtures table and an odds table. Then it recommends bets: it takes the
lowest-priced home/draw/away quotes, up to a maximum number of bets, and gives each
of them the stake `funds / max_bets`. This project models the three functions of
`BeatTheHouse/src/main.py` that do this work after the events have been fetched, and
proves what they compute.

- **Raw events** (`events.dfy`) are the JSON objects the API returns. Each key may be
  missing, so each is an `Option`. A lookup with `d[key]` on a missing key raises
  Python's `KeyError`. The model returns that as `Err(KeyError(key))`. A lookup with
  `.get(key, default)` falls back to the default.
- **`prepare_fixture_data`** (`fixtures.dfy`) is a list comprehension. It is modelled
  as a recursive function, `Fixtures.PrepareFixtureData`.
- **`prepare_odds_data`** (`odds.dfy`) is three nested loops over events, bookmakers
  and markets, plus an inner loop that fills one record per market.
  - The method `OddsTable.PrepareOddsData` keeps the loops. Its helper
    `OddsTable.FillRecord` is the inner loop.
  - `PrepareOddsData` is proved to return exactly what the specification function
    `OddsTable.OddsRecords` gives. `FillRecord` is proved to return exactly what
    `OddsTable.ApplyOutcomes` gives for a fresh record.
  - The lemmas about `OddsRecords` state when the call succeeds, that records and
    head-to-head markets correspond one to one and in order, and what is in each
    record's `home_win` / `draw` / `away_win` slots.
- **`recommend_bets`** (`recommend.dfy`) is a pandas pipeline. It is modelled as pure
  functions over sequences: `melt` (all `home_win` rows, then all `draw` rows, then
  all `away_win` rows), `dropna`, the ascending sort on `odds`, `head(max_bets)` and
  the stake column `funds / max_bets`.
  - pandas raises `KeyError` when a column named in `melt` does not exist. That happens
    when the table is empty, or when no record has a price for one of the three
    outcomes. The model returns `Err(MissingColumns)`.
  - A zero `max_bets` raises `ZeroDivisionError`. The model returns `Err(ZeroDivision)`.
  - A negative `max_bets` makes `head` drop that many rows from the end. The model
    does the same.
- **`scenarios.dfy`** works two inputs through the model.

`recommend_bets` does not:
- select at most one bet per event;
- stake in proportion to price;
- round stakes, or move a rounding residual onto the last stake;
- return an unstaked result when there are too few events.

`prepare_odds_data` does not sort its output. `Scenarios.SameEventTwice` shows that two
bets on the same match are recommended, each with half the funds.

## Model

| member | source | states |
|---|---|---|
| Events.ReadHeader | BeatTheHouse/src/main.py:37-39 | reading `home_team`, `away_team` and `commence_time` (also at lines 28-30) succeeds iff all three keys are present; it returns their values, and otherwise the KeyError of the first missing key in that order |
| Events.BookmakersOf | BeatTheHouse/src/main.py:40 | `event.get('bookmakers', [])`: an absent list counts as empty; `OddsTable.OddsRecordsSucceed` (through `EventWellFormed`) and `OddsTable.OddsRecordsFollowH2hMarkets` use it, so an event without bookmakers adds no record and raises nothing |
| Events.MarketsOf | BeatTheHouse/src/main.py:41 | `bookmaker.get('markets', [])`: an absent list counts as empty; `OddsTable.BookmakerRecordsSucceed` and `OddsTable.BookmakerRecordsAligned` use it, so a bookmaker without markets adds no record and raises nothing |
| Fixtures.FixtureOf | BeatTheHouse/src/main.py:27-30 | the dictionary built for one event; it has no contract of its own, and `Fixtures.FixturesOnePerEvent` and `Fixtures.FixturesFirstFailure` state what it gives |
| Fixtures.PrepareFixtureData | BeatTheHouse/src/main.py:26-32 | `prepare_fixture_data`; it has no contract of its own, and its contract is `Fixtures.FixturesOnePerEvent` and `Fixtures.FixturesFirstFailure` |
| Fixtures.FixturesOnePerEvent | BeatTheHouse/src/main.py:26-32 | fixture extraction succeeds iff every event has `home_team`, `away_team` and `commence_time`; it then gives one fixture per event in input order, with the event's teams and date and with `sport` = `sport_title` or `""` |
| Fixtures.FixturesFirstFailure | BeatTheHouse/src/main.py:27-31 | on failure, the error is the KeyError of the first incomplete event, for the first missing key in the order the dict literal reads them |
| OddsTable.Blank | BeatTheHouse/src/main.py:44 | the record literal: it holds the given teams and date, and every price slot is absent |
| OddsTable.SetSlot | BeatTheHouse/src/main.py:46-51 | `record['home_win' / 'away_win' / 'draw'] = outcome['price']` (lines 47, 49, 51): the assigned slot holds the price, and the teams, date and other slots are unchanged |
| OddsTable.LowerChar | BeatTheHouse/src/main.py:50 | `lower()` on one character: an ASCII capital becomes the small letter at the same alphabet position, any other character is unchanged, and the result is never a capital |
| OddsTable.Lower | BeatTheHouse/src/main.py:50 | `name.lower()`: same length, each character lowered by `LowerChar`, no capitals left; a string without capitals is unchanged |
| OddsTable.IsDrawLabel | BeatTheHouse/src/main.py:50 | `name.lower() == 'draw'`; characterised by `OddsTable.DrawLabelAnyCase` |
| OddsTable.SlotFor | BeatTheHouse/src/main.py:46-51 | the if/elif chain over an outcome's name; `OddsTable.ApplyOutcome` proves it selects exactly the slot `Hits` describes, with home first, then away, then draw |
| OddsTable.ApplyOutcomes | BeatTheHouse/src/main.py:45-51 | the loop over a market's outcomes; its ensures keeps the teams and date, `OddsTable.ApplyOutcomesSucceed` states when it succeeds and `OddsTable.SlotIsLastHit` what each slot holds |
| OddsTable.MarketRecord | BeatTheHouse/src/main.py:42-52 | one market: no record unless its key is `h2h`; its contract is `OddsTable.MarketRecordSucceeds` |
| OddsTable.MarketRecords | BeatTheHouse/src/main.py:41-52 | the market loop; its contract is `OddsTable.MarketRecordsSucceed` and `OddsTable.MarketRecordsAligned` |
| OddsTable.BookmakerRecords | BeatTheHouse/src/main.py:40-52 | the bookmaker loop; its contract is `OddsTable.BookmakerRecordsSucceed` and `OddsTable.BookmakerRecordsAligned` |
| OddsTable.EventRecords | BeatTheHouse/src/main.py:37-52 | one event: its keys are read through `Events.ReadHeader`, then its bookmakers |
| OddsTable.OddsRecords | BeatTheHouse/src/main.py:34-53 | `prepare_odds_data` as a function; its contract is `OddsTable.OddsRecordsSucceed`, `OddsTable.OddsRecordsFollowH2hMarkets` and `OddsTable.OddsRecordContents` |
| OddsTable.DrawLabelAnyCase | BeatTheHouse/src/main.py:50 | an outcome name lowers to `draw` iff it is `draw` in any mix of upper and lower case |
| OddsTable.ApplyOutcome | BeatTheHouse/src/main.py:45-51 | one outcome fails iff it has no `name`, or it selects a slot and has no `price`; the teams and date are kept; each slot takes the outcome's price iff the outcome hits it, and is otherwise unchanged |
| OddsTable.ApplyOutcomesSucceed | BeatTheHouse/src/main.py:45-51 | the loop over a market's outcomes succeeds iff every outcome is well formed |
| OddsTable.SlotKeptWithoutHit | BeatTheHouse/src/main.py:45-51 | a slot that no outcome hits keeps its value |
| OddsTable.SlotTakesHit | BeatTheHouse/src/main.py:45-51 | a slot holds the price of its last hitting outcome |
| OddsTable.SlotIsLastHit | BeatTheHouse/src/main.py:45-51 | both of the above: a later hit overwrites an earlier one, and no hit leaves the slot as it was; the home check comes before the away check, which comes before the draw check |
| OddsTable.MarketRecordSucceeds | BeatTheHouse/src/main.py:42-52 | one market succeeds iff it has a `key` and, when the key is `h2h`, it has `outcomes` that are all well formed |
| OddsTable.MarketRecordsSucceed | BeatTheHouse/src/main.py:41-52 | a bookmaker's markets succeed iff every one of them is well formed |
| OddsTable.BookmakerRecordsSucceed | BeatTheHouse/src/main.py:40-52 | an event's bookmakers succeed iff every market of every bookmaker is well formed |
| OddsTable.OddsRecordsSucceed | BeatTheHouse/src/main.py:36-53 | `prepare_odds_data` succeeds iff every event has its team and date keys and every market under it is well formed |
| OddsTable.MarketRecordsAligned | BeatTheHouse/src/main.py:41-52 | a bookmaker gives exactly one record per `h2h` market, in market order, each built from that market |
| OddsTable.BookmakerRecordsAligned | BeatTheHouse/src/main.py:40-52 | an event gives exactly one record per `h2h` market of its bookmakers, in bookmaker then market order |
| OddsTable.OddsRecordsFollowH2hMarkets | BeatTheHouse/src/main.py:35-53 | on success, the odds table has exactly one record per `h2h` market, counted over every bookmaker of every event and in event, bookmaker, market order; other markets and missing `bookmakers`/`markets` add nothing |
| OddsTable.OddsRecordContents | BeatTheHouse/src/main.py:37-52 | the k-th record comes from an `h2h` market, carries its own event's teams and date, and each slot is absent when no outcome hits it and is otherwise the last hitting outcome's price |
| OddsTable.BuiltFromSlots | BeatTheHouse/src/main.py:44-51 | a record built from a fresh record and a market's outcomes has each slot absent when no outcome hits it, and otherwise the last hitting outcome's price |
| OddsTable.MarketSitesAreH2h | BeatTheHouse/src/main.py:41-42 | the markets one bookmaker contributes are its own `h2h` markets, for its event |
| OddsTable.BookmakerSitesAreH2h | BeatTheHouse/src/main.py:40-42 | the markets an event contributes are `h2h` markets, for that event, each one a market of one of the given bookmakers |
| OddsTable.H2hSitesAreH2h | BeatTheHouse/src/main.py:36-42 | every market that contributes a record is an `h2h` market of one of the bookmakers of one of the input events |
| OddsTable.FillRecord | BeatTheHouse/src/main.py:43-51 | the loop that fills a fresh record from a market's outcomes returns what the outcome-by-outcome specification gives, including the KeyError of the first bad outcome |
| OddsTable.PrepareOddsData | BeatTheHouse/src/main.py:34-53 | the nested loops return exactly `OddsRecords(events)`: the same records in the same order, or the same first error |
| Recommend.HasColumn | BeatTheHouse/src/main.py:53-59 | `pd.DataFrame(odds_records)` has a price column for a slot iff some record has that key, and `melt` raises `KeyError` on a missing column; `Recommend.RecommendBetsFailures` proves the result is `Err(MissingColumns)` exactly when a column is missing, whatever `max_bets` is |
| Recommend.HasAllColumns | BeatTheHouse/src/main.py:53-59 | all three price columns `melt` names exist; by `Recommend.RecommendBetsFailures` it fails for an empty table and for one with no draw price anywhere |
| Recommend.MeltColumn | BeatTheHouse/src/main.py:57-59 | one value column of `melt`; its contract is `Recommend.MeltColumnAt` |
| Recommend.Melt | BeatTheHouse/src/main.py:57-59 | `melt` over the three value columns; its contract is `Recommend.MeltLayout` |
| Recommend.DropNa | BeatTheHouse/src/main.py:60 | `dropna(subset=['odds'])`; its contract is `Recommend.DropNaAppend`, `Recommend.DropNaColumnSize` and `Recommend.DropNaColumnMembers` |
| Recommend.Present | BeatTheHouse/src/main.py:57-60 | the melted table after `dropna`; its contract is `Recommend.PresentSize` and `Recommend.PresentMembers` |
| Recommend.RecommendBets | BeatTheHouse/src/main.py:55-64 | `recommend_bets`; its contract is `Recommend.RecommendBetsFailures`, `Recommend.RecommendLength`, `Recommend.RecommendSorted`, `Recommend.RecommendCheapest`, `Recommend.RecommendQuoted`, `Recommend.RecommendStakes`, `Recommend.RecommendStakesSumToFunds` and `Recommend.RecommendIgnoresFixtures` |
| Recommend.MeltColumnAt | BeatTheHouse/src/main.py:57-59 | one melted column has a row per record, with the record's date, teams, the column's market and its price (possibly absent) |
| Recommend.MeltLayout | BeatTheHouse/src/main.py:57-59 | `melt` gives 3n rows: record i is row i (home_win), row n+i (draw) and row 2n+i (away_win) |
| Recommend.DropNaAppend | BeatTheHouse/src/main.py:60 | `dropna` works row by row, so it distributes over concatenation |
| Recommend.DropNaColumnSize | BeatTheHouse/src/main.py:57-60 | after `dropna`, a column has as many rows as there are records quoting that outcome |
| Recommend.PriceCountBySlot | BeatTheHouse/src/main.py:57-60 | the number of present prices is the sum of the per-outcome counts |
| Recommend.PresentSize | BeatTheHouse/src/main.py:57-60 | the melted table after `dropna` has exactly K rows, K being the number of present prices over all records |
| Recommend.DropNaColumnMembers | BeatTheHouse/src/main.py:57-60 | a row is in one column after `dropna` iff it has that market and some record quotes exactly that price for it |
| Recommend.PresentMembers | BeatTheHouse/src/main.py:57-60 | a row is in the melted table after `dropna` iff some record quotes exactly that (date, teams, market, price) |
| Recommend.Insert | BeatTheHouse/src/main.py:61 | inserting into a list sorted by odds keeps it sorted and adds exactly that row |
| Recommend.SortByOdds | BeatTheHouse/src/main.py:61 | the result is in non-decreasing odds order and is a permutation of the input |
| Recommend.Head | BeatTheHouse/src/main.py:62 | `head(n)` is a prefix of length min(n, len) for n ≥ 0 and max(len + n, 0) for n < 0 |
| Recommend.WithStake | BeatTheHouse/src/main.py:63 | assigning the stake column keeps every row, in order, and gives each the same stake |
| Recommend.RecommendBetsFailures | BeatTheHouse/src/main.py:55-63 | `recommend_bets` succeeds iff the three outcome columns exist and `max_bets` ≠ 0; it gives `Err(MissingColumns)` exactly when one of the three columns is missing, for any `max_bets`, since `melt` raises before the division (so an empty table, or one with no draw price anywhere, fails that way); with all columns present, `max_bets` = 0 fails by division by zero |
| Recommend.RecommendLength | BeatTheHouse/src/main.py:57-62 | the result has min(max_bets, K) rows for max_bets ≥ 0, and max(K + max_bets, 0) for negative max_bets |
| Recommend.RecommendSorted | BeatTheHouse/src/main.py:61-62 | the recommended odds are in non-decreasing order |
| Recommend.PrefixIsCheapest | BeatTheHouse/src/main.py:61-62 | a prefix of a sorted table is a sub-multiset of it, and none of its rows is dearer than a row left out |
| Recommend.RecommendCheapest | BeatTheHouse/src/main.py:57-62 | the chosen rows are a sub-multiset of the present prices, and each chosen price is ≤ every present price that was not chosen |
| Recommend.RecommendQuoted | BeatTheHouse/src/main.py:57-62 | every recommended row is a price some record quotes, for that record's date, teams and market |
| Recommend.RecommendStakes | BeatTheHouse/src/main.py:63 | every recommended stake equals funds / max_bets |
| Recommend.EqualStakesTotal | BeatTheHouse/src/main.py:63 | n equal stakes q total n·q |
| Recommend.EqualStakesSumToFunds | BeatTheHouse/src/main.py:63 | with non-zero funds, equal stakes of funds / m sum to the funds iff there are exactly m of them |
| Recommend.RecommendStakesSumToFunds | BeatTheHouse/src/main.py:62-63 | with non-zero funds, the stakes sum to the funds iff the result has exactly max_bets rows |
| Recommend.RecommendIgnoresFixtures | BeatTheHouse/src/main.py:55-64 | the fixtures argument has no effect on the result |
| Scenarios.NoDrawMarket | BeatTheHouse/src/main.py:36-52 | an `h2h` market with a home price of 1.5, an away price of 2.5 and no draw outcome gives exactly one record: home_win 1.5, away_win 2.5, draw absent |
| Scenarios.SameEventTwice | BeatTheHouse/src/main.py:55-63 | with prices 1.5 / 3.0 / 2.5 on one match and max_bets 2, the recommendation is that match's home and away quotes, each with stake funds / 2 |

## Left out

- `fetch_upcoming_events` (`main.py:17-24`) is an HTTP request to the odds API. The model starts from the list of events it returns.
- Loading the API key from the environment (`main.py:7-11`) and the `SPORTS_LEAGUES` constant (`main.py:13-15`) are configuration, not logic.
- `BeatTheHouse/src/BeatTheHouse.py` is the Streamlit user interface and is not part of this model.
- Date parsing with `pd.to_datetime(...).date()` (`main.py:30,39`) is left out. The `commence_time` value is treated as an opaque timestamp and copied as the date. A value that does not parse is not modelled.
- Prices and stakes are `real`. Floating-point rounding of `funds / max_bets` and of the stake total is not modelled.
- `reset_index` (`main.py:56`) only adds an index column, which plays no part in the result. Fixture and odds tables are modelled as sequences of records, not DataFrames.
- Recommend.SortByOdds: it is a stable insertion sort, but pandas' default sort is not guaranteed stable. The proved properties do not depend on tie order: sortedness, permutation, and each chosen price ≤ each unchosen one. Which of several equal-priced rows is chosen is not modelled.
- A JSON `null` where the code expects a list or a price is not modelled. Event fields are either present with a value of the right type or absent.
- `str.lower()` is modelled for ASCII letters only. Other characters are left unchanged, which is enough for the comparison with `"draw"`.
- Recommend.RecommendBetsFailures: it reports the missing-column case as one `MissingColumns` error. It does not name which column, and does not model the text of pandas' message.
- OddsTable.OddsRecordsSucceed: it states when the odds loops succeed. It does not state which KeyError is raised on failure. That error is fixed by `OddsTable.OddsRecords`, which `OddsTable.PrepareOddsData` is proved to return.
