# Idle Airport Tycoon research advisor: the price and payback core

This project models the bookkeeping behind an advisor for the game Idle Airport
Tycoon. For every research the player can buy, the program keeps a table of
observed upgrade prices, each noted at some in-game discount level. Its core
does the following:

* looks up or renormalises a price for a research level and a discount
  (`Database.Elem._get_price`);
* extrapolates a price for a level nobody has recorded from the growth between
  consecutive recorded levels (`get_new_price_estimate`);
* computes the payback threshold of a price from the research's growth kind
  (`get_price_info_with_payback`);
* files new observations (`add_cost`) and completion levels (`mark_completed`);
* streams a research's upcoming levels with cost and payback
  (`Research.get_payback_values`);
* merges those streams into one stream ordered by payback
  (`get_next_payback_values`);
* decides at start-up which researches the player must be asked about, and in
  which form (`get_researches_needing_update` and the form-mode choice in
  `set_next_database_update_form`).

The unit registry (`UnitStorage`) and the display scaling of an amount
(`factor_price`) are modelled too.

The model is organised by the program's structure:

| file | module | models |
|---|---|---|
| `wrappers.dfy` | `Wrappers` | `Option` and `Result` |
| `sequences.dfy` | `Sequences` | list algebra shared by the proofs |
| `decimals.dfy` | `Decimals` | decimal coefficient and exponent, `adjusted()`, powers of ten |
| `units.dfy` | `Units` | `Unit`, `UnitStorage`, `factor_price` |
| `prices.dfy` | `Prices` | `Database.Price`, the price table, `_get_price`, the payback formula |
| `estimation.dfy` | `Estimation` | `get_new_price_estimate`, `get_price_info_with_payback` as functions |
| `geometric.dfy` | `GeometricPrices` | the extrapolation is exact when prices grow geometrically with the level |
| `database.dfy` | `Database` | `Database.Elem` as a class: `add_cost`, `mark_completed`, and the loops of the estimate |
| `research.dfy` | `Progression` | `PaybackValue`, `Research` as a class, the `get_payback_values` generator |
| `ranking.dfy` | `Ranking` | the stable `sorted` by payback that the merge uses |
| `merging.dfy` | `Merging` | the merge's state, one yield, and the invariant that one yield keeps |
| `next_payback.dfy` | `NextPayback` | `get_next_payback_values` as a method, and the merge theorems |
| `updates.dfy` | `Updates` | the update questions asked at start-up |

Modelling choices:

* Prices are exact real numbers.
* A research's price table is an insertion-ordered list of levels. Each level
  holds an insertion-ordered list of prices observed at distinct discounts.
  The program's nested dictionaries keep insertion order, and the
  extrapolation depends on that order (`reversed(keys)` and `islice(..., 5)`).
* A record that the program mutates in place (`Database.Elem`, `Research`)
  is a Dafny class. Its mutators are methods with `modifies` clauses.
  `Elem.Data()` gives the record as a value, and the specification functions
  are stated over that value.
* Generators are modelled by the prefix a consumer takes from them: the first
  `n` values. `WalkPrefix` shows that a larger `n` only extends the prefix.
* A value in the merged stream names its research by position in the list of
  researches.
* The arithmetic needs facts that the program never checks, gathered in
  `Sane`:
  * recorded amounts are positive;
  * no price was observed at 100 percent off;
  * no level is filed twice, and no discount twice within a level;
  * no level is empty;
  * each price is filed under its own level.

  The payback needs `PaybackDefined`, and for the streams `Growing` (the
  percent growth is positive).
* The extrapolation assumes that prices grow geometrically with the level.
  `GeometricPrices.Geometric(prices, c, m)` states that data: every price of
  level L was observed from the undiscounted price `c * m^L`. On such data
  `ExtrapolateExact` proves the extrapolated price is the true one.

Two places where the code does more than its names suggest, and the model
follows the code:

* `get_price_info_with_payback` extrapolates even for a level at or above
  `last_level`. The generator and the update check never ask for such a level.
* With `last_level` set, the scan for multipliers starts below it
  (main.py:177-187), but `get_estimates` walks every recorded level
  (main.py:235). Prices at or above the completion level never enter the
  multipliers, yet they still enter the estimates.
* The update check's second `level not in prices` test is redundant.
  `UpdateQueryModes` proves that it never changes the outcome.

## Model

| member | source | states |
|---|---|---|
| Units.UnitForExponent | main.py:63-64 | the registry has a unit exactly for exponent 0 and for every multiple of 3 from 6 to 48, and the unit found carries that exponent; any other exponent is the dictionary's KeyError (None) |
| Units.UnitForShort | main.py:69-70 | a unit is found exactly when some registry entry has that short code, and it has that code |
| Units.IsValidUnitShort | main.py:66-67 | a code is valid exactly when some registered unit has it |
| Units.RegistryLayout | main.py:41-58 | the registry has 16 units, and the unit at position k has exponent 0 for k = 0 and 3k + 3 otherwise |
| Units.RegistryInjective | main.py:41-61 | no two units share an exponent or a short code, so the two lookup dictionaries lose no unit |
| Units.ExponentShortRoundTrip | main.py:60-70 | looking up the short code of the unit for an exponent gives the same unit back |
| Units.ShortExponentRoundTrip | main.py:60-70 | looking up the exponent of the unit for a valid short code gives the same unit back |
| Units.DisplayExponent | main.py:80-87 | the display exponent is 0 up to adjusted exponent 7; above that it is the largest multiple of 3 not above the adjusted exponent, and at least 6 |
| Units.QuantumFor | main.py:80-88 | two fractional digits up to adjusted exponent 1, none up to 7, three above, each case in both directions |
| Units.DisplayExponentRegistered | main.py:87-89 | the display exponent has a unit exactly when the adjusted exponent is at most 50 |
| Units.FactorPrice | main.py:76-89 | fails with the unknown exponent exactly when the adjusted exponent is 51 or more; otherwise the amount is rescaled by the unit's exponent (`scaleb`), keeps one to three integer digits from adjusted exponent 8 on (amounts of 10^8 and more), and is unchanged below 10^8 |
| Prices.FindLevel | main.py:129 | a level's prices are found exactly when the table has an entry for that level |
| Prices.FindDiscount | main.py:133 | a price is found exactly when one was observed at that discount, and it is one of the level's prices |
| Prices.ValuesAt | main.py:141-142 | each price of a level renormalised to the asked discount, position by position |
| Prices.ValueAt | main.py:106-109 | a price asked for at the discount it was observed at is its recorded amount times the unit multiplier (`Value`, which also models `get_price()` without an argument); the other discounts are stated by ValueAtConsistent |
| Prices.ValueAtConsistent | main.py:106-116 | renormalising is exact: a price observed from undiscounted price b at a discount other than 100 renormalises to b * (1 - at/100) at any discount `at` |
| Prices.GetPrice | main.py:125-145 | no price exactly for a completed level or a level without prices; an exact, non-estimated price exactly when (level, d) is recorded and not completed; otherwise an estimate renormalised from the discount-0 price when there is one, else the mean of all of the level's renormalised prices |
| Prices.DiscountInvariance | main.py:133-145 | when every price of a level comes from the same undiscounted price b, the price at any discount d is b * (1 - d/100), whichever branch of the lookup produces it |
| Prices.MultiplierAboveOne | main.py:166-170 | the percent formula's multiplier minus one is p / (100 + p * level), so the division by `multiplier - 1` is defined |
| Prices.PaybackClosedForm | main.py:161-170 | the payback `Payback` computes is twice the price, three times the price, or for the percent kind price * (100 + p * (level + 1)) / p, which is `price * m / (m - 1)` for the level multiplier m |
| Prices.PaybackAbovePrice | main.py:161-170 | for a positive price, a non-negative level and a positive percent, the payback exceeds the price |
| Estimation.PairRatios | main.py:216-226 | the ratios are positive, and there is none exactly when the levels share no discount |
| Estimation.PairRatiosPaired | main.py:216-223 | the ratios are, one for each lower-level price whose discount is also observed at the upper level and in the lower level's order, the upper price over the lower price at that discount; no shared discount is skipped |
| Estimation.PairMultiplier | main.py:209-226 | a multiplier exactly when both levels L-1 and L have prices and share a discount, and then it is positive |
| Estimation.MaxLevel | main.py:183 | the largest recorded level: no level is above it and some level equals it |
| Estimation.MultipliersFrom | main.py:228-232 | at most k multipliers, all positive |
| Estimation.MultipliersFromFirst | main.py:177-232 | the scan is downward and nearest first: the first multiplier found from upper level L0 is that of the highest contributing pair (L-1, L) with L <= L0, no pair between L and L0 contributes, and the remaining multipliers are the scan from L - 1 with one slot fewer |
| Estimation.MultipliersFromFrame | main.py:177-232 | the scan from L0 down depends only on the multipliers of the pairs (L-1, L) with 1 <= L <= L0 |
| Estimation.Multipliers | main.py:246 | at most five multipliers are averaged |
| Estimation.MultipliersEmpty | main.py:175-232 | no multiplier is found exactly when no pair (L-1, L) in the scanned range has two recorded levels sharing a discount |
| Estimation.ScanBelowLastLevel | main.py:177-187 | with a completion level set, two records whose pairs below it have the same multipliers average the same multipliers: prices at or above the completion level never enter the multipliers (the estimates still use them) |
| Estimation.ScaledEstimates | main.py:238-243 | a level with prices contributes at least one estimate |
| Estimation.LevelEstimates | main.py:236-243 | a level with prices contributes at least one estimate, scaled by multiplier^(level - L) |
| Estimation.LevelEstimatesRecorded | main.py:238-243 | a level with a price at the asked discount contributes exactly that price, times multiplier^(level - L) |
| Estimation.EstimatesFrom | main.py:234-243 | a non-empty table gives at least one estimate |
| Estimation.EstimatesNewestFirst | main.py:235 | the levels are visited last-inserted first: the estimates of the levels filed later all come before those of the levels filed earlier |
| Estimation.Take | main.py:246-249 | `islice(..., n)` keeps the first min(n, length) values, as a prefix of the input |
| Estimation.Extrapolate | main.py:245-253 | the extrapolation fails (StatisticsError) exactly when no scanned pair (L-1, L) of recorded levels shares a discount |
| GeometricPrices.PowAdd | main.py:237 | `m^a * m^b == m^(a+b)` for all integer exponents, so the level factor `multiplier ** (level - L)` composes across levels |
| GeometricPrices.BasePow | main.py:237 | the undiscounted price of level L under the growth law, built one factor of m per level, is `c * m^L`, for negative L as well |
| GeometricPrices.RatioExact | main.py:216-223 | two prices at one discount, observed from b and m * b, have ratio exactly m |
| GeometricPrices.PairRatiosExact | main.py:216-223 | levels whose prices were observed from b and m * b give only the ratio m |
| GeometricPrices.PairMultiplierExact | main.py:209-226 | when every level L was observed from `c * m^L`, every contributing pair's multiplier is m |
| GeometricPrices.MultipliersFromExact | main.py:228-232 | on such data every multiplier the scan collects is m |
| GeometricPrices.LevelEstimatesExact | main.py:234-243 | on such data every estimate a level contributes, its recorded price or each renormalised one, times `m^(level - L)`, is `c * m^level * (1 - d/100)` |
| GeometricPrices.EstimatesFromExact | main.py:234-243 | on such data every estimate of every recorded level is `c * m^level * (1 - d/100)` |
| GeometricPrices.MultiplierMeanExact | main.py:246-247 | on such data the mean of the collected multipliers is m |
| GeometricPrices.EstimateMeanExact | main.py:248-250 | on such data, with m as the multiplier, the mean of the first five estimates is `c * m^level * (1 - d/100)` |
| GeometricPrices.ExtrapolateExact | main.py:245-253 | on such data the extrapolation, whenever it succeeds, returns exactly `c * m^level * (1 - d/100)`, whichever levels and discounts it draws on |
| Estimation.PriceInfoWithPayback | main.py:151-172 | the looked-up price with its own flag when there is one; else the extrapolated price, always flagged as an estimate; its payback by the formula; (None, None, False) exactly when both fail |
| Estimation.ExactOnlyWhenRecorded | main.py:151-159 | a price is reported as exact exactly when (level, d) is recorded and the level is not completed |
| Database.IndexOfLevel | main.py:256 | the position of the first entry filed under a level; None exactly when no entry has that level |
| Database.FindLevelAfterAdd | main.py:255-265 | after filing p, p's level holds its old prices followed by p (or just p when the level is new), and every other level is unchanged |
| Database.RecordedAfterAdd | main.py:255-265 | filing a price for an unrecorded (level, d) records exactly it and leaves every other (level, discount) entry as it was |
| Database.AddPriceWellFormed | main.py:255-265 | filing a price whose (level, d) is not yet recorded keeps the table well formed: no duplicate level or discount, no empty level |
| Database.AddPriceNumeric | main.py:263-265 | filing a positive price observed below 100 percent off keeps every amount positive and renormalisable |
| Database.NewLevelLast | main.py:257-259 | a new level goes after every existing level, holding only the new price |
| Database.Elem.constructor | main.py:119-123 | the record holds the given growth kind, percent, completion level and prices |
| Database.Elem.AddCost | main.py:255-265 | files the price under (level, d) and keeps the table well formed; when the pair is already recorded (the program's assertion) it reports failure and changes nothing; the completion level is untouched |
| Database.Elem.MarkCompleted | main.py:267-268 | sets the completion level and changes nothing else |
| Database.Elem.ScanMultipliers | main.py:175-232 | the downward scan over level pairs collects exactly `Multipliers(Data())`, the first five multipliers of the nearest contributing pairs |
| Database.Elem.CollectEstimates | main.py:234-249 | walking the levels newest first collects exactly `Take(EstimatesFrom(...), 5)`, the first five estimates |
| Database.Elem.NewPriceEstimate | main.py:245-253 | returns `Extrapolate(Data(), level, d)`: the extrapolated price, None exactly when no scanned pair of levels shares a discount |
| Database.Elem.PriceInfoWithPayback | main.py:151-172 | returns `Estimation.PriceInfoWithPayback(Data(), level, d)`: the price, its payback and its estimate flag |
| Database.AddedCostIsQuoted | main.py:255-265 | after the player files the price asked for at (level, d), the lookup returns exactly that price, not flagged as an estimate |
| Database.CompletedHidesLevels | main.py:126-127 | once completed at L, no level at or above L has a looked-up price |
| Database.CompletionKeepsLowerLevels | main.py:267-268 | marking completion at L leaves the lookup of every level below L unchanged |
| Progression.GrowingDefined | main.py:166-170 | with a positive growth percent, the payback is defined at every level from 0 on |
| Progression.WalkRestart | main.py:417-419 | restarting a research's stream at the level after its k-th value continues the same stream |
| Progression.WalkPrefix | main.py:343-362 | taking more values from the generator only extends what was taken |
| Progression.EntryIsPriceInfo | main.py:347-360 | a level yields nothing exactly when it is completed or has no price; otherwise it yields the price query's cost, flag and payback at that level |
| Progression.EntryPayback | main.py:351-360 | every yielded value carries its level, lies below the completion level, and has the payback of its cost |
| Progression.PaybackValuesShape | main.py:343-362 | the stream visits consecutive levels from its start, each below the completion level and each with a payback, and takes at most n of them |
| Progression.PaybackValuesStop | main.py:347-358 | a stream cut short stopped at a level that is completed or whose price can neither be looked up nor extrapolated |
| Progression.CompletedStreamBelow | main.py:348-349 | after `mark_completed(L)` the stream yields no level at or above L |
| Progression.Research.constructor | main.py:333-338 | a research without a saved level starts at level 0 |
| Progression.Research.IncreaseLevel | main.py:340-341 | the level goes up by one |
| Progression.Research.LevelValue | main.py:348-360 | one pass of the generator's loop gives the stream's value at that level, or nothing |
| Progression.Research.GetPaybackValues | main.py:343-362 | the first n values yielded are the stream from the given start level, or from the research's own level when none is given |
| Ranking.Insert | main.py:409-412 | stable insertion adds exactly one element and keeps all the others |
| Ranking.InsertionPoint | main.py:409-412 | the insertion point comes after every element of the leading run whose key is not above the new key, and in front of the first element with a greater key; in a sorted list every element from it on has a greater key, so the new element goes after all elements with an equal key |
| Ranking.InsertPosition | main.py:409-412 | the insertion puts the new element at its insertion point and leaves the other elements in their order |
| Ranking.SortByKey | main.py:409-412 | the sort is a permutation of its input |
| Ranking.SortByKeySorted | main.py:409-412 | the sort orders by payback, a missing payback counting as 0, and keeps exactly the input's elements |
| Ranking.SortedUnchanged | main.py:409-412 | sorting an already sorted list leaves it unchanged |
| Ranking.InsertWithKey | main.py:409-412 | inserting into a sorted list puts the new element after every element with the same key |
| Ranking.SortByKeyKeepsOrder | main.py:409-412 | the sort is stable: the elements with any one key come out in the order they went in |
| Ranking.SortAfterAppend | main.py:421-423 | appending to a sorted list and sorting again is a stable insertion of the new value |
| Ranking.SortByKeyDistinct | main.py:414 | sorting keeps at most one value per research |
| Merging.RunPreserves | main.py:415-423 | any property that one yield keeps holds after every run |
| Merging.RunMeasure | main.py:415-423 | each yield adds one value, so a run of n yields adds at most n values, and fewer only when nothing is left pending |
| Merging.SeedsAreFirst | main.py:403-407 | each seed is the first value of its research's stream |
| Merging.SeedsDistinct | main.py:403-407 | no research is seeded twice |
| Merging.SeedsCover | main.py:403-407 | a research without a seed has no value at its current level |
| Merging.InitialInv | main.py:403-414 | the merge starts sorted, with at most one pending value per research, each its research's next value, and the unseeded researches exhausted |
| Merging.RefillShape | main.py:416-423 | after a yield the pending list is the tail plus the next value of the yielded research if it has one, and is still sorted with one value per research |
| Merging.StepNext | main.py:416-423 | after a yield every pending value is still the next value of its research |
| Merging.StepAbsent | main.py:416-423 | after a yield a research with no pending value still has no next value |
| Merging.StepStreams | main.py:416-420 | after a yield the values yielded for each research are still a prefix of that research's stream |
| Merging.RefillAbove | main.py:416-423 | when paybacks grow with level, nothing pending after a yield sorts before the value just yielded |
| NextPayback.StepInv | main.py:415-423 | one yield keeps the merge's invariant |
| NextPayback.RunInv | main.py:415-423 | every state the merge passes through satisfies the invariant |
| NextPayback.RunLength | main.py:415-423 | a run yields at most n values, and fewer only when nothing is left pending |
| NextPayback.MergeCorrect | main.py:402-423 | for every research, the merged stream holds exactly that research's own stream from its current level, in order and without gaps; every value names an existing research; at most n values are yielded, and fewer only when every research is exhausted |
| NextPayback.RunInRange | main.py:402-423 | a run only yields values of existing researches |
| NextPayback.MergeSorted | main.py:409-423 | when each research's paybacks grow with its level, the merged stream comes out in payback order |
| NextPayback.StartValues | main.py:403-414 | the first loop collects each research's first value and sorts them: the merge's starting list |
| NextPayback.NextPaybackValues | main.py:402-423 | the first n values the generator yields are the specified merge of the researches' streams |
| Updates.UpdateQuery | main.py:709-725 | a discount question proposes the looked-up estimate; a level question proposes the extrapolated price |
| Updates.UpdateQueryNone | main.py:709-725 | no question is asked exactly when the research is complete at its level or the price at (level, d) is recorded |
| Updates.UpdateQueryModes | main.py:712-725 | a discount question exactly when the level has prices but none at this discount; a level question exactly when the level has none and is not completed; `level_last_known` exactly when a completion level is known as well |
| Updates.DiscountProposesPrice | main.py:712-713 | a discount question always proposes a price, and the lookup flagged it as an estimate |
| Updates.AnswerSettles | main.py:255-265 | answering a question with `add_cost` keeps the table sane, and the research is not asked about (level, d) again |
| Updates.CompletionSettles | main.py:267-268 | after `mark_completed(L)` no question is asked about a level at or above L |
| Updates.Questions | main.py:705-711 | one question or none per research, each the question for that research at its current level |
| Updates.AskedComplete | main.py:705-725 | from a position on, every question asked appears exactly once, tagged with its research, in research order |
| Updates.RequestsComplete | main.py:703-725 | every research whose record calls for a question is asked exactly that question, once, in the database's order, and no other research is asked |

## Left out

- Decimal `quantize`, float conversion and rounding: `Price.get_price` sends the undiscounted price through `factor_price` and `float` before renormalising it (main.py:111-113). The model renormalises exactly over the reals.
- Units.FactorPrice: states the rescaling structurally (coefficient and exponent) and not that the rescaled amount times the unit's multiplier equals the input. The final `quantize` is not modelled.
- Negative amounts: `Decimal` has a natural coefficient, so `factor_price` of a negative number is not modelled.
- `print_price`, the logging, the JSON loading and saving of `Database` and `State`, and every npyscreen form are I/O and are not modelled.
- The `State` class and the lookup of a research by name (main.py:365-399 and 704-708) are not modelled. The update check works on a list of records and levels in the database's order. The `StopIteration` the name lookup raises for a research missing from the state is not modelled.
- Generators are modelled by the prefix of n values a consumer takes, not as suspended computations.
- NextPayback.NextPaybackValues: assumes that no research record changes while the merged stream is consumed. The program's UI can buy a level or file a price between two values it takes.
- NextPayback.MergeSorted: holds only when each research's paybacks do not decrease with level (`Monotone`). The program does not check this.
- Statistical means are averages of exact reals. `statistics.mean` over floats can round.
- Database.Elem.AddCost: requires a valid unit code. The caller validates it before calling (main.py:594), and the model does not raise the KeyError.
- Database.Elem.constructor: requires a well-formed table. The program builds it from JSON dictionaries, whose keys are distinct, and it files each price under its own level and discount (main.py:276-285). It also accepts an empty level `{}`, which the model excludes: on an empty level `_get_price` raises `StatisticsError` from the mean, and that path is not modelled.
- Progression.Research.GetPaybackValues: requires a sane record with positive percent growth (`Sane`, `Growing`). The program does not check this. Otherwise its arithmetic could divide by zero.
- PairRatios: its own contract states only positivity and when there is no ratio. Which ratios it holds, and in what order, is stated by PairRatiosPaired. The program walks a set intersection, in hash order. The model walks the lower level's insertion order, and over exact reals the mean does not depend on the order.
- MultipliersFrom: its own contract states only the bound and positivity. Which pairs are used, nearest first, is stated by MultipliersFromFirst. When none is found is stated by MultipliersFromEmpty.
- Multipliers: its own contract states only the bound of five. It is the scan from one below `ScanTop`, which MultipliersFromFirst characterises as the five contributing pairs nearest the top of the scan.
- LevelEstimates: its own contract states only non-emptiness. Its value for a recorded discount is stated by LevelEstimatesRecorded. Its values in general are stated on geometric data by LevelEstimatesExact.
- ScaledEstimates: its own contract states only non-emptiness. Its values are stated through LevelEstimates, as above.
- EstimatesFrom: its own contract states only non-emptiness. The newest-first order is stated by EstimatesNewestFirst, and the values on geometric data by EstimatesFromExact.
- Extrapolate: the contract states when the extrapolation fails. Its value is stated only for prices that grow geometrically, by ExtrapolateExact. No closed form is proved for other data.
- Insert: its own contract states the length and the multiset. Where the new element goes is stated by InsertionPoint and InsertPosition.
- SortByKey: its own contract states a permutation. Sortedness is stated by SortByKeySorted, and stability by SortByKeyKeepsOrder.
