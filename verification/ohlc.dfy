/** Local post-processing of `Markets.ohlc`: the `periods` query value, and
    the reshaping of the response (one candle list per period key) into a
    single table stamped with period and label and sorted by
    (Period, CloseTime).
 */
module Ohlc {
  import opened Results
  import opened Text
  import opened Sorting

  /** The two parallel lists of the reshaping: `values`, periods in
      seconds, and `labels`, the human label of each, position by
      position. */
  datatype PeriodTable = PeriodTable(values: seq<int>, labels: seq<string>)

  /** A table whose lists have one label per period. */
  type Table = t: PeriodTable | |t.values| == |t.labels| witness PeriodTable([], [])

  /** The table `Markets.ohlc` uses: the periods the service can return. */
  const Periods: Table := PeriodTable(
    [60, 180, 300, 900, 1800, 3600, 7200, 14400, 21600, 43200, 86400, 259200, 604800],
    ["1m", "3m", "5m", "15m", "30m", "1h", "2h", "4h", "6h", "12h", "1d", "3d", "1w"])

  /** One candle of the response: the seven numbers of one array. */
  datatype Candle = Candle(
    closeTime: int,
    openPrice: real,
    highPrice: real,
    lowPrice: real,
    closePrice: real,
    volume: real,
    quoteVolume: real)

  /** One row of the result table: the candle's seven columns followed by
      the `Period` and `Label` columns. */
  datatype OhlcRow = OhlcRow(candle: Candle, period: int, periodLabel: string)

  /** The response's `result` object, its keys in iteration order. */
  type Response = seq<(string, seq<Candle>)>

  // The `periods` query parameter

  /** The `periods` query value: the identifiers joined with commas when
      there is at least one, otherwise no parameter at all. */
  function PeriodsQuery(periods: Option<seq<string>>): (q: Option<string>)
    ensures q.Some? <==> periods.Some? && |periods.value| > 0
    ensures q.Some? ==> q.value == Join(periods.value, ',')
    ensures q.Some? && (forall k :: 0 <= k < |periods.value| ==> ',' !in periods.value[k])
            ==> Split(q.value, ',') == periods.value
  {
    match periods
    case Some(ps) =>
      if |ps| > 0 then
        assert (forall k :: 0 <= k < |ps| ==> ',' !in ps[k]) ==> Split(Join(ps, ','), ',') == ps by {
          if forall k :: 0 <= k < |ps| ==> ',' !in ps[k] { SplitOfJoin(ps, ','); }
        }
        Some(Join(ps, ','))
      else None
    case None => None
  }

  // The period table

  /** `list.index`: the position of the first occurrence of `x`, if any. */
  function IndexOf(s: seq<int>, x: int): (r: Option<nat>)
    ensures r.None? <==> x !in s
    ensures r.Some? ==> r.value < |s| && s[r.value] == x && forall k :: 0 <= k < r.value ==> s[k] != x
  {
    IndexFrom(s, x, 0)
  }

  /** The scan of `list.index` from position `start` on. */
  function IndexFrom(s: seq<int>, x: int, start: nat): (r: Option<nat>)
    requires start <= |s|
    requires forall k :: 0 <= k < start ==> s[k] != x
    ensures r.None? <==> x !in s
    ensures r.Some? ==> start <= r.value < |s| && s[r.value] == x && forall k :: 0 <= k < r.value ==> s[k] != x
    decreases |s| - start
  {
    if start == |s| then None
    else if s[start] == x then Some(start)
    else IndexFrom(s, x, start + 1)
  }

  /** `labels[values.index(period)]`: the label standing at the period's
      first position in the table. */
  function LabelFor(t: Table, period: int): (r: Result<string, Failure>)
    ensures r.Err? <==> period !in t.values
    ensures r.Err? ==> r.error == PeriodNotInTable(period)
    ensures r.Ok? ==> exists i :: 0 <= i < |t.values| && t.values[i] == period && t.labels[i] == r.value
  {
    match IndexOf(t.values, period)
    case None => Err(PeriodNotInTable(period))
    case Some(i) => Ok(t.labels[i])
  }

  /** No period is listed twice. */
  predicate Distinct(t: Table)
  {
    forall i, j :: 0 <= i < j < |t.values| ==> t.values[i] != t.values[j]
  }

  /** In a table without repeated periods a lookup succeeds with `tag`
      exactly when `tag` stands beside the period. */
  lemma LabelLookup(t: Table, period: int, tag: string)
    requires Distinct(t)
    ensures LabelFor(t, period) == Ok(tag) <==>
            exists i :: 0 <= i < |t.values| && t.values[i] == period && t.labels[i] == tag
  {
  }

  /** The table of `Markets.ohlc` lists its periods in strictly ascending
      order, so none twice. */
  lemma PeriodsAscend()
    ensures forall i, j :: 0 <= i < j < |Periods.values| ==> Periods.values[i] < Periods.values[j]
    ensures Distinct(Periods)
  {
  }

  /** Seconds a label stands for: a decimal count followed by one of the
      units m (minute), h (hour), d (day) or w (week). */
  function LabelSeconds(text: string): (r: Option<int>)
    ensures r.Some? ==> r.value >= 0
  {
    if |text| < 2 || !AllDigits(text[..|text| - 1]) then None
    else
      var n := DigitsValue(text[..|text| - 1]);
      match text[|text| - 1]
      case 'm' => Some(n * 60)
      case 'h' => Some(n * 3600)
      case 'd' => Some(n * 86400)
      case 'w' => Some(n * 604800)
      case _ => None
  }

  /** Every label of the table names the length of its period. */
  lemma LabelsNameTheirPeriods()
    ensures forall i :: 0 <= i < |Periods.labels| ==> LabelSeconds(Periods.labels[i]) == Some(Periods.values[i])
  {
    ShortLabelsNamed();
    LongLabelsNamed();
  }

  /** A label the table of `Markets.ohlc` hands out names its period. */
  lemma LabelNamesPeriod(period: int, tag: string)
    requires LabelFor(Periods, period) == Ok(tag)
    ensures LabelSeconds(tag) == Some(period)
  {
    LabelsNameTheirPeriods();
  }

  lemma ShortLabelsNamed()
    ensures LabelSeconds("1m") == Some(60) && LabelSeconds("3m") == Some(180)
    ensures LabelSeconds("5m") == Some(300) && LabelSeconds("15m") == Some(900)
    ensures LabelSeconds("30m") == Some(1800) && LabelSeconds("1h") == Some(3600)
    ensures LabelSeconds("2h") == Some(7200)
  {
    assert LabelSeconds("1m") == Some(60) by { CountOf("1m"); }
    assert LabelSeconds("3m") == Some(180) by { CountOf("3m"); }
    assert LabelSeconds("5m") == Some(300) by { CountOf("5m"); }
    assert LabelSeconds("15m") == Some(900) by { CountOf("15m"); }
    assert LabelSeconds("30m") == Some(1800) by { CountOf("30m"); }
    assert LabelSeconds("1h") == Some(3600) by { CountOf("1h"); }
    assert LabelSeconds("2h") == Some(7200) by { CountOf("2h"); }
  }

  lemma LongLabelsNamed()
    ensures LabelSeconds("4h") == Some(14400) && LabelSeconds("6h") == Some(21600)
    ensures LabelSeconds("12h") == Some(43200) && LabelSeconds("1d") == Some(86400)
    ensures LabelSeconds("3d") == Some(259200) && LabelSeconds("1w") == Some(604800)
  {
    assert LabelSeconds("4h") == Some(14400) by { CountOf("4h"); }
    assert LabelSeconds("6h") == Some(21600) by { CountOf("6h"); }
    assert LabelSeconds("12h") == Some(43200) by { CountOf("12h"); }
    assert LabelSeconds("1d") == Some(86400) by { CountOf("1d"); }
    assert LabelSeconds("3d") == Some(259200) by { CountOf("3d"); }
    assert LabelSeconds("1w") == Some(604800) by { CountOf("1w"); }
  }

  /** The count in front of a one- or two-digit label. */
  lemma CountOf(text: string)
    requires 2 <= |text| <= 3 && AllDigits(text[..|text| - 1])
    ensures |text| == 2 ==> DigitsValue(text[..1]) == DigitValue(text[0])
    ensures |text| == 3 ==> DigitsValue(text[..2]) == 10 * DigitValue(text[0]) + DigitValue(text[1])
  {
    var one := text[..1];
    assert one[..0] == [] && one[0] == text[0];
    assert DigitsValue(one) == DigitValue(text[0]);
    if |text| == 3 {
      var two := text[..2];
      assert two[..1] == one && two[1] == text[1];
    }
  }

  // Reshaping the response

  /** `int(key)` followed by `values.index`: the period a response key
      names and its label, or the reason the loop raises on it. */
  function ResolveKey(t: Table, key: string): (r: Result<(int, string), Failure>)
    ensures r.Ok? <==> ParseInt(key).Ok? && ParseInt(key).value in t.values
    ensures r.Ok? ==> ParseInt(key) == Ok(r.value.0) && LabelFor(t, r.value.0) == Ok(r.value.1)
    ensures ParseInt(key).Err? ==> r == Err(NotAnInteger(key))
    ensures ParseInt(key).Ok? && r.Err? ==> r == Err(PeriodNotInTable(ParseInt(key).value))
  {
    match ParseInt(key)
    case Err(e) => Err(e)
    case Ok(p) =>
      match LabelFor(t, p)
      case Err(e) => Err(e)
      case Ok(l) => Ok((p, l))
  }

  /** A response key is usable when `int(key)` succeeds and the period is
      in the table. */
  predicate ValidKey(t: Table, key: string)
  {
    ResolveKey(t, key).Ok?
  }

  /** The candles of one key together with the period and label the loop
      stamps on them. */
  datatype Block = Block(period: int, periodLabel: string, candles: seq<Candle>)

  /** Every key of the response resolved, in key order; the first key that
      does not resolve stops the loop. */
  function ResolveAll(t: Table, resp: Response): (r: Result<seq<Block>, Failure>)
    ensures r.Ok? <==> forall i :: 0 <= i < |resp| ==> ValidKey(t, resp[i].0)
    ensures r.Ok? ==> |r.value| == |resp|
    ensures r.Ok? ==> forall i :: 0 <= i < |resp| ==>
              && r.value[i].candles == resp[i].1
              && ResolveKey(t, resp[i].0) == Ok((r.value[i].period, r.value[i].periodLabel))
    ensures r.Err? ==> exists i :: 0 <= i < |resp| && ResolveKey(t, resp[i].0) == Err(r.error)
                         && forall h :: 0 <= h < i ==> ValidKey(t, resp[h].0)
  {
    if |resp| == 0 then Ok([])
    else
      match ResolveKey(t, resp[0].0)
      case Err(e) => Err(e)
      case Ok((p, l)) =>
        match ResolveAll(t, resp[1..])
        case Err(e) =>
          assert exists i :: 0 <= i < |resp| && ResolveKey(t, resp[i].0) == Err(e)
                   && forall h :: 0 <= h < i ==> ValidKey(t, resp[h].0) by {
            var i :| 0 <= i < |resp[1..]| && ResolveKey(t, resp[1..][i].0) == Err(e)
                   && forall h :: 0 <= h < i ==> ValidKey(t, resp[1..][h].0);
            assert resp[1..][i] == resp[i + 1];
            forall h | 0 <= h < i + 1
              ensures ValidKey(t, resp[h].0)
            {
              if h > 0 {
                assert resp[1..][h - 1] == resp[h];
              }
            }
          }
          Err(e)
        case Ok(rest) =>
          assert forall i :: 0 < i < |resp| ==> resp[1..][i - 1] == resp[i];
          Ok([Block(p, l, resp[0].1)] + rest)
  }

  /** One key's frame: every candle with the block's period and label. */
  function Stamp(b: Block): (rows: seq<OhlcRow>)
    ensures |rows| == |b.candles|
    ensures forall k :: 0 <= k < |rows| ==> rows[k] == OhlcRow(b.candles[k], b.period, b.periodLabel)
  {
    seq(|b.candles|, k requires 0 <= k < |b.candles| => OhlcRow(b.candles[k], b.period, b.periodLabel))
  }

  /** Number of candles over all blocks. */
  function TotalCandles(blocks: seq<Block>): nat
  {
    if |blocks| == 0 then 0 else |blocks[0].candles| + TotalCandles(blocks[1..])
  }

  /** `pd.concat` of the frames, in block order. */
  function Concat(blocks: seq<Block>): (rows: seq<OhlcRow>)
    ensures |rows| == TotalCandles(blocks)
  {
    if |blocks| == 0 then [] else Stamp(blocks[0]) + Concat(blocks[1..])
  }

  /** Candle `j` of block `i` sits after the candles of all earlier blocks. */
  lemma {:induction false} ConcatAt(blocks: seq<Block>, i: nat, j: nat)
    requires i < |blocks| && j < |blocks[i].candles|
    ensures TotalCandles(blocks[..i]) + j < |Concat(blocks)|
    ensures Concat(blocks)[TotalCandles(blocks[..i]) + j] == OhlcRow(blocks[i].candles[j], blocks[i].period, blocks[i].periodLabel)
  {
    if i == 0 {
      assert blocks[..0] == [];
    } else {
      ConcatAt(blocks[1..], i - 1, j);
      assert blocks[..i][0] == blocks[0];
      assert blocks[..i][1..] == blocks[1..][..i - 1];
    }
  }

  /** The block and candle position that row `k` of the concatenation
      holds. */
  lemma {:induction false} BlockOf(blocks: seq<Block>, k: nat) returns (i: nat, j: nat)
    requires k < TotalCandles(blocks)
    ensures i < |blocks| && j < |blocks[i].candles|
    ensures TotalCandles(blocks[..i]) + j == k
  {
    if k < |blocks[0].candles| {
      i, j := 0, k;
      assert blocks[..0] == [];
    } else {
      var i', j' := BlockOf(blocks[1..], k - |blocks[0].candles|);
      i, j := i' + 1, j';
      assert blocks[..i][0] == blocks[0];
      assert blocks[..i][1..] == blocks[1..][..i'];
    }
  }

  /** A row is in the concatenation exactly when it is a candle of some
      block stamped with that block's period and label. */
  lemma {:induction false} ConcatMembers(blocks: seq<Block>, row: OhlcRow)
    ensures row in Concat(blocks) <==>
            exists i :: 0 <= i < |blocks| && InBlock(blocks[i], row)
  {
    if row in Concat(blocks) {
      var i := ConcatMemberFrom(blocks, row);
    }
    if exists i :: 0 <= i < |blocks| && InBlock(blocks[i], row) {
      var i :| 0 <= i < |blocks| && InBlock(blocks[i], row);
      ConcatMemberOf(blocks, i, row);
    }
  }

  /** `row` is a candle of block `b` stamped with its period and label. */
  predicate InBlock(b: Block, row: OhlcRow)
  {
    row.candle in b.candles && row.period == b.period && row.periodLabel == b.periodLabel
  }

  lemma ConcatMemberFrom(blocks: seq<Block>, row: OhlcRow) returns (i: nat)
    requires row in Concat(blocks)
    ensures i < |blocks| && InBlock(blocks[i], row)
  {
    var cat := Concat(blocks);
    var k :| 0 <= k < |cat| && cat[k] == row;
    var j;
    i, j := BlockOf(blocks, k);
    ConcatAt(blocks, i, j);
  }

  lemma ConcatMemberOf(blocks: seq<Block>, i: nat, row: OhlcRow)
    requires i < |blocks| && InBlock(blocks[i], row)
    ensures row in Concat(blocks)
  {
    var j :| 0 <= j < |blocks[i].candles| && blocks[i].candles[j] == row.candle;
    ConcatAt(blocks, i, j);
  }

  /** Rows ordered by Period, then by CloseTime. */
  function PeriodThenCloseTime(a: OhlcRow, b: OhlcRow): bool
  {
    a.period < b.period || (a.period == b.period && a.candle.closeTime <= b.candle.closeTime)
  }

  lemma PeriodThenCloseTimeIsTotalPreorder()
    ensures TotalPreorder(PeriodThenCloseTime)
  {
  }

  /** `row` is `candle` stamped with the period `int(key)` and its label. */
  predicate FromKey(t: Table, key: string, candle: Candle, row: OhlcRow)
  {
    row.candle == candle && ResolveKey(t, key) == Ok((row.period, row.periodLabel))
  }

  /** `row` is one of the candles of the response entry, stamped from the
      entry's key. */
  predicate InKey(t: Table, entry: (string, seq<Candle>), row: OhlcRow)
  {
    row.candle in entry.1 && FromKey(t, entry.0, row.candle, row)
  }

  /** `Markets.ohlc` after the request: the stamped frames of all keys,
      concatenated and sorted by (Period, CloseTime). It fails when the
      response has no keys (`pd.concat` of nothing) or when some key is
      not an integer or not a period of the table. */
  function Reshape(t: Table, resp: Response): (r: Result<seq<OhlcRow>, Failure>)
    ensures r.Ok? <==> |resp| > 0 && forall i :: 0 <= i < |resp| ==> ValidKey(t, resp[i].0)
    ensures |resp| == 0 ==> r == Err(NothingToConcatenate)
    ensures r.Err? && |resp| > 0 ==>
              exists i :: 0 <= i < |resp| && ResolveKey(t, resp[i].0) == Err(r.error) &&
                forall h :: 0 <= h < i ==> ValidKey(t, resp[h].0)
    ensures r.Ok? ==> multiset(r.value) == multiset(Concat(ResolveAll(t, resp).value))
    ensures r.Ok? ==> forall i, j :: 0 <= i < j < |r.value| ==>
              r.value[i].period < r.value[j].period ||
              (r.value[i].period == r.value[j].period && r.value[i].candle.closeTime <= r.value[j].candle.closeTime)
  {
    if |resp| == 0 then Err(NothingToConcatenate)
    else
      match ResolveAll(t, resp)
      case Err(e) => Err(e)
      case Ok(blocks) =>
        PeriodThenCloseTimeIsTotalPreorder();
        var rows := Sort(Concat(blocks), PeriodThenCloseTime);
        assert forall i, j :: 0 <= i < j < |rows| ==> PeriodThenCloseTime(rows[i], rows[j]);
        Ok(rows)
  }

  // The lemmas below hold for every rearrangement of the stamped frames,
  // whatever order the sort leaves rows with equal keys in; `Reshape`'s
  // result is one of them.

  /** Every row carries the label the table gives its period. */
  lemma {:induction false} ReshapeLabels(t: Table, resp: Response, blocks: seq<Block>, rows: seq<OhlcRow>)
    requires ResolveAll(t, resp) == Ok(blocks)
    requires multiset(rows) == multiset(Concat(blocks))
    ensures forall k :: 0 <= k < |rows| ==> LabelFor(t, rows[k].period) == Ok(rows[k].periodLabel)
  {
    RowsKeepTag(blocks, rows, (p, l) => LabelFor(t, p) == Ok(l));
  }

  /** A property of (period, label) pairs that holds for every block holds
      for every row of any rearrangement of their concatenation. */
  lemma {:induction false} RowsKeepTag(blocks: seq<Block>, rows: seq<OhlcRow>, good: (int, string) -> bool)
    requires forall i :: 0 <= i < |blocks| ==> good(blocks[i].period, blocks[i].periodLabel)
    requires multiset(rows) == multiset(Concat(blocks))
    ensures forall k :: 0 <= k < |rows| ==> good(rows[k].period, rows[k].periodLabel)
  {
    forall k | 0 <= k < |rows|
      ensures good(rows[k].period, rows[k].periodLabel)
    {
      assert rows[k] in multiset(Concat(blocks));
      RowKeepsTag(blocks, rows[k], good);
    }
  }

  lemma {:induction false} RowKeepsTag(blocks: seq<Block>, row: OhlcRow, good: (int, string) -> bool)
    requires forall i :: 0 <= i < |blocks| ==> good(blocks[i].period, blocks[i].periodLabel)
    requires row in Concat(blocks)
    ensures good(row.period, row.periodLabel)
  {
    var i := ConcatMemberFrom(blocks, row);
    assert row.period == blocks[i].period && row.periodLabel == blocks[i].periodLabel;
  }

  /** Every row is a candle of some key stamped with that key's period and
      label. */
  lemma {:induction false} ReshapeRowsFromKeys(t: Table, resp: Response, blocks: seq<Block>, rows: seq<OhlcRow>)
    requires ResolveAll(t, resp) == Ok(blocks)
    requires multiset(rows) == multiset(Concat(blocks))
    ensures forall row :: row in rows ==> exists i :: 0 <= i < |resp| && InKey(t, resp[i], row)
  {
    forall row | row in rows
      ensures exists i :: 0 <= i < |resp| && InKey(t, resp[i], row)
    {
      assert row in multiset(Concat(blocks));
      var i := ConcatMemberFrom(blocks, row);
      assert InKey(t, resp[i], row);
    }
  }

  /** `candle` stamped with the period `int(key)` and its label. */
  function StampWith(t: Table, key: string, candle: Candle): OhlcRow
    requires ValidKey(t, key)
  {
    OhlcRow(candle, ResolveKey(t, key).value.0, ResolveKey(t, key).value.1)
  }

  /** Every candle of every key appears among the rows, stamped with the
      key's period and label. */
  lemma {:induction false} ReshapeKeepsKeyCandles(t: Table, resp: Response, blocks: seq<Block>, rows: seq<OhlcRow>)
    requires ResolveAll(t, resp) == Ok(blocks)
    requires multiset(rows) == multiset(Concat(blocks))
    ensures forall i, j :: 0 <= i < |resp| && 0 <= j < |resp[i].1| ==>
              ValidKey(t, resp[i].0) && StampWith(t, resp[i].0, resp[i].1[j]) in rows
  {
    forall i, j | 0 <= i < |resp| && 0 <= j < |resp[i].1|
      ensures ValidKey(t, resp[i].0) && StampWith(t, resp[i].0, resp[i].1[j]) in rows
    {
      var row := StampWith(t, resp[i].0, resp[i].1[j]);
      ConcatMemberOf(blocks, i, row);
      assert row in multiset(rows);
    }
  }

  /** Every candle of the response is kept: the table has one row per
      candle of every key. */
  lemma {:induction false} ReshapeKeepsEveryCandle(t: Table, resp: Response, blocks: seq<Block>, rows: seq<OhlcRow>)
    requires ResolveAll(t, resp) == Ok(blocks)
    requires multiset(rows) == multiset(Concat(blocks))
    ensures |rows| == CandleCount(resp)
  {
    assert |rows| == |multiset(rows)| == |multiset(Concat(blocks))| == |Concat(blocks)|;
    TotalOfResolved(resp, blocks);
  }

  /** Number of candles over all keys of the response. */
  function CandleCount(resp: Response): nat
  {
    if |resp| == 0 then 0 else |resp[0].1| + CandleCount(resp[1..])
  }

  lemma {:induction false} TotalOfResolved(resp: Response, blocks: seq<Block>)
    requires |blocks| == |resp|
    requires forall i :: 0 <= i < |resp| ==> blocks[i].candles == resp[i].1
    ensures TotalCandles(blocks) == CandleCount(resp)
  {
    if |resp| > 0 {
      assert forall i :: 0 <= i < |resp[1..]| ==> blocks[1..][i].candles == resp[1..][i].1 by {
        forall i | 0 <= i < |resp[1..]|
          ensures blocks[1..][i].candles == resp[1..][i].1
        {
          assert blocks[1..][i] == blocks[i + 1];
          assert resp[1..][i] == resp[i + 1];
        }
      }
      TotalOfResolved(resp[1..], blocks[1..]);
    }
  }
}
