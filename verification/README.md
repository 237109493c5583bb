# fibstrategy watch engine, in Dafny

A model of the core of a Telegram bot that watches Solana token prices. The user
adds a contract address with a low and a high USD price. The bot derives the
"Fib75" level `low + 0.25 * (high - low)` and a band of ±2% around it. A polling
loop fetches the best trading pair for every watched contract and alerts when the
price moves from outside the band (below or above) into it. Each contract gets at
most two alerts and is then dropped from the watchlist.

Modules:

- `FibBand` (`fib_band.dfy`): the level and band computation and the classification
  of a price as below, inside or above the band. Decimals are exact, so they are
  modelled as `real`.
- `Text` (`text.dfy`): ASCII lower-casing for the chain filter, and the last
  `/`-separated segment of a pair URL, which the bot uses as a token name.
- `PairSelection` (`pair_selection.dfy`): choosing the best pair. The Solana pairs
  are kept, sorted by `(volume.h24, liquidity.usd)` largest first with -1 for a
  missing field, and the head is taken. `SortDesc` is the stable descending sort
  that `list.sort(reverse=True)` performs, and `TopPair` is the head of that sort.
  `PickTopPair` is proved to return `TopPair`, which is the earliest Solana pair
  with a largest key.
- `Alerts` (`alerts.dfy`): the per-contract record `TokenState` and `Evaluate`, the
  transition the alert loop applies to one entry in one cycle. The price fetch is
  an input (`Fetch`): it raised, it found no usable pair, or it found a pair, whose
  price may be missing. Whether sending the alert message raised is an input too.
- `Watchlist` (`watchlist.dfy`): the global dictionary as a class holding a
  `map<string, TokenState>` and the dictionary's key insertion order. It has the
  add, remove and clear commands, the per-key step, and one polling cycle over a
  snapshot of the keys. Commands that run while the loop waits on the network are
  modelled as a list of commands that take effect before each key's step.

Points of the code's behaviour worth noting (the model follows the code):

- The watchlist has one level, keyed by contract. There is no owner.
- `prev_position` starts as `"unknown"`. A first observation inside the band
  therefore does not alert (`FreshEntryInsideNeverAlerts`).
- If sending the alert message raises, the exception skips the rest of the step.
  The counter and the previous position are not updated, so the delivery failure is
  not counted.
- Adding does not need the preview fetch to find a pair. Only a raising fetch stops
  the add.
- Re-adding a contract replaces its entry with a fresh one. All progress is lost.

## Model

| member | source | states |
|---|---|---|
| FibBand.ComputeFibBand | main.py:120-125 | the level is a quarter of the way from low to high; the band reaches 2% of the level on each side; for `0 <= low < high`: `low < fib < high` and `0 < band_min < fib < band_max` |
| FibBand.Position | main.py:113-118 | below iff `price < band_min`; above iff `band_min <= price` and `price > band_max`; inside iff `band_min <= price <= band_max`; never unknown |
| FibBand.LevelIsInside | main.py:113-125 | the level itself classifies as inside the band it defines |
| Text.LowerChar | main.py:75 | A–Z move to a–z; every other character is unchanged; no upper-case ASCII letter is left |
| Text.Lower | main.py:75 | same length, lower-cased character by character |
| Text.IsSolanaCaseInsensitive | main.py:75 | a chain id passes the filter iff it spells "solana" in any mix of cases |
| Text.LastSegment | main.py:260 | the result is a '/'-free suffix of the URL that is the whole URL or follows a '/' (the last element of `split("/")`) |
| Text.LastSegmentAfterSlash | main.py:175 | for `prefix + "/" + tail` with no '/' in tail, the result is tail |
| Text.LastSegmentNoSlash | main.py:175 | a string with no '/' is its own last segment |
| PairSelection.SolanaPairs | main.py:75 | the comprehension's result, never longer than its input; what it holds and in which order is stated by the three lemmas below |
| PairSelection.SolanaPairsMembers | main.py:75-76 | the filtered list holds exactly the input's pairs whose lowered chain id is "solana", and is empty iff there is none |
| PairSelection.SolanaPairsAppend | main.py:75 | filtering a concatenation is the concatenation of the filtered parts: the filter keeps input order |
| PairSelection.SolanaPairsIndex | main.py:75 | the k-th filtered pair sits at an input index whose filtered prefix is exactly the first k filtered pairs |
| PairSelection.FilterSolana | main.py:75 | the loop builds exactly the filtered list of the comprehension |
| PairSelection.SortField | main.py:79-91 | a missing or unreadable volume or liquidity sorts as -1, a present one as its value |
| PairSelection.VolKey | main.py:79-84 | the first sort key, `vol_h24`, is `SortField` of the 24-hour volume |
| PairSelection.LiqKey | main.py:86-91 | the second sort key, `liq_usd`, is `SortField` of the USD liquidity |
| PairSelection.KeyGe | main.py:93 | the tuple comparison of `(vol_h24, liq_usd)`: volume first, liquidity on a tie |
| PairSelection.KeyGeTotal | main.py:93 | any two keys are comparable, so the descending sort is well defined |
| PairSelection.SortDesc | main.py:93 | the sort result has its input's length; `SortDescCorrect` proves it a sorted permutation and `SortDescHead` fixes its head |
| PairSelection.InsertDesc | main.py:93 | inserting into the sorted list adds exactly one occurrence of the element |
| PairSelection.InsertDescSorted | main.py:93 | insertion keeps the list sorted largest key first and puts the larger of the two candidates at the head |
| PairSelection.SortDescCorrect | main.py:93 | the sort result is a permutation of its input, sorted by descending `(volume.h24, liquidity.usd)` |
| PairSelection.SortDescHead | main.py:93-95 | the head of the stable descending sort is the earliest element with a largest key |
| PairSelection.FrontAfterSort | main.py:93-95 | finds the index that the sort brings to the front: a largest key with only strictly smaller keys before it |
| PairSelection.FirstMaxExists | main.py:93-95 | every nonempty list has an earliest element with a largest key |
| PairSelection.TopPair | main.py:73-97 | the value `pick_top_pair` returns: None exactly when the filtered list is empty |
| PairSelection.TopPairIsEarliestBest | main.py:73-97 | the choice is None iff no pair is on Solana; otherwise it is a Solana pair of the input with a largest key, the earliest such pair in input order |
| PairSelection.TopPairEarliestInInput | main.py:73-97 | the chosen pair sits at an index of the input before which every Solana pair has a strictly smaller key |
| PairSelection.PickTopPair | main.py:73-97 | returns None when the filtered list is empty and otherwise the head of the stable descending sort of the Solana pairs (`TopPair`) |
| Alerts.NewTokenState | main.py:168-189 | the added entry keeps the user's range and its band, has zero alerts and position unknown; its URL is the preview pair's URL ("" without a pair) and its name is that URL's last segment ("" without a pair) |
| Alerts.Named | main.py:260-261 | only the name and URL change; a name once set is kept, otherwise it becomes the pair URL's last segment; a non-empty pair URL replaces the stored URL, and an empty one leaves it as it was |
| Alerts.Evaluate | main.py:237-294 | alert iff a crossing from below/above into the band with fewer than two alerts and the send did not raise; +1 per alert; retire at two or when already at two; no pair leaves the entry untouched; no price changes only name and URL; the new position is recorded otherwise |
| Alerts.AlertCap | main.py:242-291 | over any sequence of cycles an entry with `n < 2` alerts gets at most `2 - n` more, and one at two or more gets none |
| Alerts.NoRealertWhileInside | main.py:271-294 | while every price seen stays inside the band an entry gets at most one alert, and none unless last seen below or above |
| Alerts.FreshEntryInsideNeverAlerts | main.py:186 | a fresh entry whose prices are all inside its band is never alerted |
| Alerts.Scenario | main.py:271-294 | range 1..2 gives level 1.25 and band [1.225, 1.275]; prices 1.30, 1.26, 1.26, 1.30, 1.25 give alerts only on the second and the fifth, and the fifth retires the entry |
| Watchlist.Without | main.py:204 | popping a key removes exactly that key and keeps the order duplicate-free |
| Watchlist.WithoutAppend | main.py:204 | popping distributes over concatenation, so the remaining keys keep their relative order |
| Watchlist.WithoutAbsent | main.py:204 | popping a key the order does not hold leaves the order unchanged |
| Watchlist.AddSpec | main.py:164-189 | a bad range or a raising preview is refused with the map unchanged; otherwise exactly `contract` maps to a fresh entry with zero alerts and position unknown; a new key goes to the end of the key order and an existing key keeps its place |
| Watchlist.RemoveSpec | main.py:203-208 | removes only `contract`, and the other keys keep their order (`Without`); reports not tracking iff it was absent, with the watchlist unchanged |
| Watchlist.ApplyCommand | main.py:223-224 | clear empties the map; every command keeps the map well formed |
| Watchlist.StepSpec | main.py:237-294 | a key no longer present is skipped; no other entry changes; the stepped entry stays exactly when `Evaluate` does not retire it, and then holds `Evaluate`'s new state, with fewer than two alerts and its counter grown by one exactly when an alert fired; the key order stays as it was, or loses exactly the retired key (`Without`) |
| Watchlist.CycleSpec | main.py:233-240 | the cycle's alerts are snapshotted keys, and the map stays well formed |
| Watchlist.CommandsKeepBelowTwo | main.py:178-189 | commands never create an entry with two alerts |
| Watchlist.CycleRetires | main.py:242-291 | after a cycle over a snapshot of all keys, no entry has two or more alerts |
| Watchlist.CycleMonotone | main.py:288 | with no command in between, a cycle only removes keys and never lowers an alert counter |
| Watchlist.Watchlist.constructor | main.py:60 | the watchlist starts empty |
| Watchlist.Watchlist.Add | main.py:164-189 | the new map and the add result are those of `AddSpec` |
| Watchlist.Watchlist.Remove | main.py:203-208 | the new map and the answer are those of `RemoveSpec` |
| Watchlist.Watchlist.Clear | main.py:224 | the map and its key order become empty |
| Watchlist.Watchlist.Retire | main.py:291 | pops the key from the map and from the key order |
| Watchlist.Watchlist.Step | main.py:237-294 | the in-place update of one snapshotted key equals `StepSpec` |
| Watchlist.Watchlist.Cycle | main.py:233-294 | iterating over the snapshot of the keys yields the watchlist and the alerted keys of `CycleSpec` |

## Left out

- Telegram handlers, replies and message text, `cmd_list`, `cmd_start`, `cmd_help`, `remember_chat_id`, `main` and the application setup: user interface and transport.
- The HTTP requests in `fetch_best_pair` and in the alert loop: network I/O. Their outcome is the `Fetch` input. A non-200 status, a `pairs` field that is missing, empty or not a list, and no Solana pair all give `NoPair`. A body that is not JSON or not a JSON object makes the fetch raise (`FetchRaised`), so an add is refused.
- Whether the chat id is known when an alert fires: without one, no message is sent but the alert still counts, exactly as with a successful send. Only a raising delivery is modelled (`Observation.sendRaises`). It also stands for building the alert text raising: rounding an amount of 10^22 or more to six places exceeds the 28-digit decimal context, and such an entry never counts an alert.
- `asyncio.sleep`, the endless loop and task creation: scheduling. Only one pass of the loop body is modelled.
- Interleaving inside a step: another handler can run while the step waits on the fetch or the send, after the entry was looked up. A remove or re-add at that moment is not modelled. Commands are modelled only between the steps of a cycle.
- `persist_state` and `load_state`: file and JSON I/O through library serialisers.
- `parse_decimal`, `dquant` and the 28-digit context precision: parsing and display rounding. Decimals are exact reals, so arithmetic beyond 28 significant digits is not rounded in the model. An unparseable price is modelled as a missing one.
- Decimal's special values (infinities, NaN): `parse_decimal` accepts "inf", "Infinity" and "nan", and the model's reals have no such values. An add with an infinite high bound passes `0 <= low < high`. The level and both band edges are then infinite, and the entry is stored before the reply fails to format them. `low < fib < high` then fails because the level equals the high bound, every finite price classifies as below, and the entry can never alert. A NaN bound makes the comparison at main.py:164 raise, so that add is refused. `ComputeFibBand`'s range facts hold only for finite bounds.
- `float(...)` in the sort keys: floating point. The keys are exact reals, and a missing or unconvertible value is -1. NaN and infinities are not modelled.
- `Pair.model_validate` and its `ValidationError` path: a library call. A pair record is assumed to validate.
- Text.Lower: lower-cases ASCII letters only, while Python's `str.lower` maps all of Unicode. For the comparison with "solana" the two agree: no non-ASCII character lower-cases to a string containing s, o, l, a or n.
- PairSelection.PickTopPair: does not sort a list in place. It scans for the element the sort would put first, proved equal to `SortDesc(...)[0]`.
- Logging and environment configuration.
