/** Local post-processing of `Markets.summary_24h` and
    `Markets.summary_24h_all`.
 */
module Summaries {
  import opened Results
  import opened Text

  /** A JSON value as the response body decodes it. */
  datatype Json =
    | JNull
    | JBool(b: bool)
    | JNumber(n: real)
    | JString(s: string)
    | JArray(items: seq<Json>)
    | JObject(fields: map<string, Json>)

  // summary_24h

  /** `dict_.update({"pair": pair})` on the decoded `result` object. */
  function Summary24h(result: map<string, Json>, pair: string): (r: map<string, Json>)
    ensures r.Keys == result.Keys + {"pair"}
    ensures r["pair"] == JString(pair)
    ensures forall k :: k in result && k != "pair" ==> r[k] == result[k]
  {
    result["pair" := JString(pair)]
  }

  /** Adding the pair to a result that has none is undone by removing it. */
  lemma Summary24hRemovable(result: map<string, Json>, pair: string)
    requires "pair" !in result
    ensures Summary24h(result, pair) - {"pair"} == result
  {
  }

  // summary_24h_all

  datatype Change = Change(percentage: real, absolute: real)

  datatype Price = Price(last: real, high: real, low: real, change: Change)

  /** The value of one `"<exchange>:<pair>"` key of the response. */
  datatype MarketSummary = MarketSummary(price: Price, volume: real, volumeQuote: real)

  /** One row of the result table; the fields are the columns, in the order
      Market, Pair, Open, High, Low, Close, volume, volumeQuote. */
  datatype SummaryRow = SummaryRow(
    market: string,
    pair: string,
    open: real,
    high: real,
    low: real,
    close: real,
    volume: real,
    volumeQuote: real)

  /** `market` is the text before the first colon of `key` and `pair` the
      text after it, up to the next colon or the end. */
  ghost predicate IsKeySplit(key: string, market: string, pair: string)
  {
    && ':' !in market
    && ':' !in pair
    && |market| + 1 + |pair| <= |key|
    && key[..|market| + 1 + |pair|] == market + [':'] + pair
    && (|market| + 1 + |pair| == |key| || key[|market| + 1 + |pair|] == ':')
  }

  /** The first piece of a split is a prefix that ends at a separator or at
      the end of the text. */
  lemma FirstPiece(s: string, c: char)
    ensures |Split(s, c)[0]| <= |s|
    ensures s[..|Split(s, c)[0]|] == Split(s, c)[0]
    ensures |Split(s, c)[0]| == |s| || s[|Split(s, c)[0]|] == c
  {
  }

  /** `key.split(":")[0]` and `key.split(":")[1]`; the second raises
      IndexError when the key has no colon. */
  function SplitKey(key: string): (r: Result<(string, string), Failure>)
    ensures r.Err? <==> ':' !in key
    ensures r.Err? ==> r.error == NoPairInKey(key)
    ensures r.Ok? ==> IsKeySplit(key, r.value.0, r.value.1)
  {
    var pieces := Split(key, ':');
    if |pieces| < 2 then Err(NoPairInKey(key))
    else
      assert IsKeySplit(key, pieces[0], pieces[1]) by {
        var i := FirstIndex(key, ':');
        var rest := key[i + 1..];
        assert pieces == [key[..i]] + Split(rest, ':');
        FirstPiece(rest, ':');
        var n := i + 1 + |pieces[1]|;
        assert key[..n] == key[..i] + [':'] + rest[..|pieces[1]|];
      }
      Ok((pieces[0], pieces[1]))
  }

  /** A key made of a market and a pair, neither with a colon, splits back
      into them. */
  lemma SplitKeyOfJoin(market: string, pair: string)
    requires ':' !in market && ':' !in pair
    ensures SplitKey(market + [':'] + pair) == Ok((market, pair))
  {
    SplitAtFirst(market, pair, ':');
  }

  /** A key with further colons keeps only its first two pieces: the text
      after the second colon appears in no column. */
  lemma ExtraColonsDropped(market: string, pair: string, tail: string)
    requires ':' !in market && ':' !in pair
    ensures SplitKey(market + [':'] + pair + [':'] + tail) == Ok((market, pair))
  {
    assert market + [':'] + pair + [':'] + tail == market + [':'] + (pair + [':'] + tail);
    SplitAtFirst(market, pair + [':'] + tail, ':');
    SplitAtFirst(pair, tail, ':');
  }

  /** A key with exactly one colon is its market, a colon and its pair. */
  lemma OneColonKey(key: string)
    requires CountChar(key, ':') == 1
    ensures SplitKey(key).Ok?
    ensures SplitKey(key).value.0 + [':'] + SplitKey(key).value.1 == key
  {
    var pieces := Split(key, ':');
    SplitCount(key, ':');
    JoinOfSplit(key, ':');
    assert pieces[1..] == [pieces[1]];
  }

  /** `row` is the flattened form of the entry `(key, s)`: Market and Pair
      from the key, Close, High and Low lifted out of the price object,
      Open derived from Close and the absolute change. */
  ghost predicate Flattened(key: string, s: MarketSummary, row: SummaryRow)
  {
    && IsKeySplit(key, row.market, row.pair)
    && row.close == s.price.last
    && row.high == s.price.high
    && row.low == s.price.low
    && row.open == row.close - s.price.change.absolute
    && row.volume == s.volume
    && row.volumeQuote == s.volumeQuote
  }

  function FlattenRow(key: string, s: MarketSummary): (r: Result<SummaryRow, Failure>)
    ensures r.Err? <==> ':' !in key
    ensures r.Err? ==> r.error == NoPairInKey(key)
    ensures r.Ok? ==> Flattened(key, s, r.value)
  {
    match SplitKey(key)
    case Err(e) => Err(e)
    case Ok((market, pair)) =>
      var p := s.price;
      Ok(SummaryRow(market, pair, p.last - p.change.absolute, p.high, p.low, p.last, s.volume, s.volumeQuote))
  }

  /** Every entry flattened, in key order; the first key without a colon
      makes the whole call fail. */
  function FlattenRows(result: seq<(string, MarketSummary)>): (r: Result<seq<SummaryRow>, Failure>)
    ensures r.Ok? <==> forall i :: 0 <= i < |result| ==> ':' in result[i].0
    ensures r.Ok? ==> |r.value| == |result|
    ensures r.Ok? ==> forall i :: 0 <= i < |result| ==> Flattened(result[i].0, result[i].1, r.value[i])
    ensures r.Err? ==> exists i :: 0 <= i < |result| && ':' !in result[i].0 && r.error == NoPairInKey(result[i].0)
                         && forall h :: 0 <= h < i ==> ':' in result[h].0
  {
    if |result| == 0 then Ok([])
    else
      match FlattenRow(result[0].0, result[0].1)
      case Err(e) => Err(e)
      case Ok(row) =>
        match FlattenRows(result[1..])
        case Err(e) =>
          FirstMissingColonShifts(result, e);
          Err(e)
        case Ok(rows) =>
          assert forall i :: 0 < i < |result| ==> result[1..][i - 1] == result[i];
          Ok([row] + rows)
  }

  /** A key without a colon that is the first such in `result[1..]` is the
      first such in `result` too, when `result[0]` has a colon. */
  lemma FirstMissingColonShifts(result: seq<(string, MarketSummary)>, e: Failure)
    requires |result| > 0 && ':' in result[0].0
    requires exists i :: 0 <= i < |result[1..]| && ':' !in result[1..][i].0 && e == NoPairInKey(result[1..][i].0)
               && forall h :: 0 <= h < i ==> ':' in result[1..][h].0
    ensures exists i :: 0 <= i < |result| && ':' !in result[i].0 && e == NoPairInKey(result[i].0)
              && forall h :: 0 <= h < i ==> ':' in result[h].0
  {
    var i :| 0 <= i < |result[1..]| && ':' !in result[1..][i].0 && e == NoPairInKey(result[1..][i].0)
             && forall h :: 0 <= h < i ==> ':' in result[1..][h].0;
    assert result[1..][i] == result[i + 1];
    forall h | 0 <= h < i + 1
      ensures ':' in result[h].0
    {
      if h > 0 {
        assert result[1..][h - 1] == result[h];
      }
    }
  }

  /** `Markets.summary_24h_all` after the request. An empty response fails
      because the frame built from it has no `price` column. */
  function SummariesAll(result: seq<(string, MarketSummary)>): (r: Result<seq<SummaryRow>, Failure>)
    ensures |result| == 0 ==> r == Err(MissingColumn("price"))
    ensures r.Ok? <==> |result| > 0 && forall i :: 0 <= i < |result| ==> ':' in result[i].0
    ensures r.Ok? ==> |r.value| == |result|
    ensures r.Ok? ==> forall i :: 0 <= i < |result| ==> Flattened(result[i].0, result[i].1, r.value[i])
    ensures r.Err? && |result| > 0 ==>
              exists i :: 0 <= i < |result| && ':' !in result[i].0 && r.error == NoPairInKey(result[i].0)
                && forall h :: 0 <= h < i ==> ':' in result[h].0
  {
    if |result| == 0 then Err(MissingColumn("price")) else FlattenRows(result)
  }

  /** Market and Pair of a row are determined by its key: whatever splits
      `IsKeySplit` admits are the same. */
  lemma KeySplitUnique(key: string, m1: string, p1: string, m2: string, p2: string)
    requires IsKeySplit(key, m1, p1) && IsKeySplit(key, m2, p2)
    ensures m1 == m2 && p1 == p2
  {
    PrefixBeforeColon(key, m1, m2);
    var rest := key[|m1| + 1..];
    assert rest[..|p1|] == p1 by {
      assert key[..|m1| + 1 + |p1|][|m1| + 1..] == p1;
    }
    assert rest[..|p2|] == p2 by {
      assert key[..|m1| + 1 + |p2|][|m1| + 1..] == p2;
    }
    PrefixBeforeColon(rest, p1, p2);
  }

  /** Two colon-free prefixes of `s`, each followed by a colon or the end,
      are the same prefix. */
  lemma PrefixBeforeColon(s: string, a: string, b: string)
    requires ':' !in a && ':' !in b
    requires |a| <= |s| && s[..|a|] == a && (|a| == |s| || s[|a|] == ':')
    requires |b| <= |s| && s[..|b|] == b && (|b| == |s| || s[|b|] == ':')
    ensures a == b
  {
  }
}
