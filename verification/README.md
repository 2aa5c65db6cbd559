# cryptowatch markets client: the local data shaping

The `Markets` client of this Cryptowatch wrapper sends HTTP requests and
then reshapes the decoded JSON into tables. This project models the
reshaping for four calls and proves properties of it:

- `ohlc` joins the requested period identifiers with commas for the query.
  For each key of the response it stamps every candle with the key's
  period (`int(key)`) and the label the fixed 13-entry table pairs with
  that period. A key that is not an integer, or whose period is not in the
  table, raises. The stamped frames are concatenated, and the result is
  sorted by (Period, CloseTime).
- `summary_24h_all` splits each `"<exchange>:<pair>"` key into Market and
  Pair. It lifts Close, High and Low out of the nested price object,
  derives Open = Close - absolute change, and emits the columns Market,
  Pair, Open, High, Low, Close, volume, volumeQuote.
- `trades` returns the trades of the response sorted by Timestamp,
  newest first.
- `summary_24h` adds the `pair` entry to the decoded result object.

Modules:

- `Results`: `Option`, `Result`, and `Failure`, the exceptions the Python
  code raises.
- `Text`: `str.split`, `str.join` and `int()`.
- `Sorting`: a sorted permutation of a sequence.
- `Ohlc`, `Summaries` and `Trades`: the calls themselves.

The OHLC reshaping takes the period table as a parameter `t`, the two
parallel lists `values` and `labels`. After the request,
`Markets.ohlc` is `Ohlc.Reshape(Ohlc.Periods, resp)`, where `Ohlc.Periods` holds the 13
entries of markets.py:248-249. The lemmas about the reshaping hold for
every table, and the lemmas about the labels hold for `Periods`.

A table is a sequence of typed rows. In `ohlc` and `summary_24h_all` a
response object is a sequence of (key, value) pairs in the dict's iteration
order. In `summary_24h` it is a map from key to JSON value.

Two cases the code handles without saying so:

- A summary key with more than one colon keeps only pieces 0 and 1 of
  `key.split(":")` (markets.py:153-154). The rest of the key is dropped.
  `Summaries.ExtraColonsDropped` states exactly that.
- An empty response fails.
  - In `ohlc`, `pd.concat([])` raises ValueError (markets.py:258). The
    model returns `Failure.NothingToConcatenate`.
  - In `summary_24h_all`, the frame built from an empty object has no
    `price` column, so `df["price"]` raises KeyError (markets.py:155). The
    model returns `Failure.MissingColumn("price")`.

## Model

| member | source | states |
|---|---|---|
| Ohlc.PeriodsQuery | markets.py:238-239 | a query value exists exactly when at least one period is given, and it is then the comma-join of the periods; splitting it on "," gives back the given periods when none contains a comma |
| Ohlc.IndexOf | markets.py:255 | `list.index`: None exactly when the value is absent, otherwise the first position holding it |
| Ohlc.LabelFor | markets.py:248-256 | the lookup fails exactly for periods outside the table, with that period as the error, and otherwise returns a label standing at a position of that period |
| Ohlc.LabelLookup | markets.py:255-256 | in a table that lists no period twice, a lookup returns label l exactly when l stands beside the period |
| Ohlc.PeriodsAscend | markets.py:248 | the periods of the fixed table are strictly ascending, so none is listed twice |
| Ohlc.LabelsNameTheirPeriods | markets.py:248-249 | every label of the fixed table ("1m" … "1w") reads as the number of seconds of the period it is paired with |
| Ohlc.LabelNamesPeriod | markets.py:248-256 | every label the fixed table hands out for a period reads as that period's number of seconds |
| Ohlc.ResolveKey | markets.py:254-256 | a key resolves exactly when `int(key)` succeeds and the period is in the table; a non-integer key fails first with ValueError, and an integer outside the table fails in the index lookup |
| Ohlc.ResolveAll | markets.py:250-257 | the loop succeeds exactly when every key resolves, giving one block per key in key order with that key's candles, period and label; otherwise it fails with the error of the first key that does not resolve |
| Ohlc.Stamp | markets.py:251-256 | a key's frame has one row per candle, and each row is that candle with the key's period and label |
| Ohlc.Concat | markets.py:258 | `pd.concat` of the frames has as many rows as the frames have candles together |
| Ohlc.ConcatAt | markets.py:258 | candle j of frame i lands in the concatenation after all candles of the earlier frames |
| Ohlc.ConcatMembers | markets.py:258 | a row is in the concatenation exactly when it is a candle of some frame stamped with that frame's period and label |
| Ohlc.Reshape | markets.py:247-260 | the call succeeds exactly when the response has at least one key and every key resolves; an empty response fails in `pd.concat`, and any other failure is the error of the first key that does not resolve; a result is a permutation of the concatenated frames ordered by Period and then CloseTime |
| Ohlc.ReshapeLabels | markets.py:254-259 | every row of any rearrangement of the stamped frames (the sorted result among them) carries the label the table gives its period |
| Ohlc.ReshapeRowsFromKeys | markets.py:250-259 | every row of any rearrangement of the stamped frames is a candle of some key of the response, stamped with that key's period and label |
| Ohlc.ReshapeKeepsKeyCandles | markets.py:250-259 | every key of a resolved response is valid, and every candle of every key appears in any rearrangement of the stamped frames, stamped with the key's period and label |
| Ohlc.ReshapeKeepsEveryCandle | markets.py:250-258 | any rearrangement of the stamped frames has as many rows as the response has candles over all keys |
| Summaries.Summary24h | markets.py:126-127 | the result has the input's keys plus "pair"; "pair" maps to the given pair, and every other entry is unchanged |
| Summaries.Summary24hRemovable | markets.py:127 | on a result without "pair", removing "pair" again restores the input |
| Summaries.SplitKey | markets.py:153-154 | the split fails (IndexError) exactly when the key has no colon; otherwise Market is the text before the first colon and Pair the text after it, up to the next colon or the end |
| Summaries.SplitKeyOfJoin | markets.py:153-154 | a key built as market ":" pair, neither containing a colon, splits back into that market and pair |
| Summaries.ExtraColonsDropped | markets.py:153-154 | a key with further colons keeps only its first two pieces, and the text after the second colon is lost |
| Summaries.OneColonKey | markets.py:153-154 | a key with exactly one colon splits, and Market ":" Pair rebuilds the key |
| Summaries.KeySplitUnique | markets.py:153-154 | Market and Pair are determined by the key: any two splits the description admits coincide |
| Summaries.FlattenRow | markets.py:153-161 | one entry flattens exactly when its key has a colon; the row takes Market and Pair from the key, Close, High and Low from the price object, Open = Close - absolute change, and volume and volumeQuote unchanged |
| Summaries.FlattenRows | markets.py:150-162 | the result has one flattened row per entry in key order when every key has a colon; otherwise it fails with NoPairInKey for the first key without one |
| Summaries.SummariesAll | markets.py:144-163 | an empty response fails for want of a `price` column; a non-empty one behaves as FlattenRows |
| Trades.SortTrades | markets.py:98-99 | the result is a permutation of the trades with non-increasing Timestamp |
| Trades.TimestampColumnDetermined | markets.py:99 | any two non-increasing rearrangements of the same trades have the same Timestamp column, so the unstable tie order cannot change that column |
| Text.Split | markets.py:153-154 | `str.split` gives at least one piece, and no piece contains the separator |
| Text.Join | markets.py:239 | `",".join` of no items is empty; a non-empty join starts with the first item, followed by a comma when there is a second; a join of a non-empty list of comma-free items has one comma fewer than there are items; `Text.SplitOfJoin` fixes the whole text |
| Text.SplitOfJoin | markets.py:239 | splitting a comma-join of a non-empty list of comma-free items gives back the list |
| Text.JoinOfSplit | markets.py:153-154 | joining the pieces of `str.split` rebuilds the text |
| Text.SplitCount | markets.py:153-154 | `str.split` gives one piece more than the number of separators in the text |
| Text.ParseInt | markets.py:254 | `int(key)` accepts exactly an optional sign followed by at least one digit, and fails with ValueError on anything else |
| Text.LeadingZeroIgnored | markets.py:254 | `int()` of a digit string with a leading zero equals `int()` of the string without it, so "060" is read as 60 |
| Text.SignedDigits | markets.py:254 | `int()` of "+" then digits equals `int()` of the digits, and `int()` of "-" then digits is its negation |
| Text.ParseOfShow | markets.py:254 | `int()` of the decimal spelling of any integer, either sign, gives that integer back |
| Sorting.Insert | markets.py:259 | inserting into a sorted sequence adds exactly the new element and keeps the sequence sorted |
| Sorting.Sort | markets.py:99 | `sort_values` gives a permutation of its input ordered by the key |

## Left out

- HTTP requests, the `apikey` parameter and the configuration read (markets.py:2, 16-17): I/O. Every modelled call starts from the decoded response.
- `list`, `all_market_prices`, `order_book` and `oder_book_liquidity` (markets.py:30, 67, 184, 209): they pass the response through or wrap it in a frame with no logic of their own.
- `details` (markets.py:50-56): it returns the two arguments and two fields of the response in a list. That is a field selection with nothing to state.
- The `exchanges.py`, `pairs.py` and `assets.py` clients are not part of this model.
- JSON decoding into typed records: the model assumes every candle has seven numbers, every trade four, and every summary its price object. pandas' errors and NaN padding for malformed arrays are not modelled.
- Prices and volumes are `real`. Float rounding in `Open = Close - Change_abs` is not modelled.
- `pd.to_datetime(..., unit="s")` on the Timestamp column (markets.py:100): the model keeps the integer timestamps. It does not model the OutOfBoundsDatetime error pandas raises for a timestamp outside the datetime64[ns] range (before 1677 or after 2262).
- Ohlc.PeriodsQuery: takes the period identifiers as strings only. `",".join(periods)` (markets.py:239) raises TypeError on a non-string element, such as an integer period; that error is not modelled.
- The `before` and `after` parameters of `ohlc` and `limit` of `trades` are sent to the server unchanged. Their filtering happens on the server.
- The `Change_%` helper column (markets.py:158) is built and then dropped by the column selection. The model omits it.
- Text.ParseInt: models `int()` for ASCII digits with an optional sign only. The whitespace, underscores and non-ASCII digits Python also accepts are left out.
- Sorting.Sort: the order of rows with equal sort keys is left open. In `trades` (markets.py:99), `sort_values` on a single key makes no stability promise. In `ohlc` (markets.py:259), the order of rows with equal (Period, CloseTime) is left open as well.
- Summaries.Summary24h: the result is a map, so the key order of the returned dict is not modelled. Python keeps the response's key order there and appends "pair" when it is new (markets.py:127).
- The `reset_index` calls change only the frame's index labels. The model has no index.
