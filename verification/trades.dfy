/** Local post-processing of `Markets.trades`: the trades of the response,
    most recent first.
 */
module Trades {
  import opened Sorting

  /** One trade of the response: the ID, Timestamp, Price and Amount
      columns. The timestamp is in Unix seconds. */
  datatype Trade = Trade(id: int, timestamp: int, price: real, amount: real)

  /** Descending order on Timestamp; trades of the same second are tied. */
  function NewerOrSame(a: Trade, b: Trade): bool
  {
    a.timestamp >= b.timestamp
  }

  lemma NewerOrSameIsTotalPreorder()
    ensures TotalPreorder(NewerOrSame)
  {
  }

  /** `sort_values("Timestamp", ascending=False)`: the same trades, the
      Timestamp column non-increasing. Nothing is promised about the order
      of trades with equal timestamps. */
  function SortTrades(trades: seq<Trade>): (r: seq<Trade>)
    ensures multiset(r) == multiset(trades)
    ensures |r| == |trades|
    ensures forall i, j :: 0 <= i < j < |r| ==> r[i].timestamp >= r[j].timestamp
  {
    NewerOrSameIsTotalPreorder();
    var r := Sort(trades, NewerOrSame);
    assert |r| == |multiset(r)| == |multiset(trades)| == |trades|;
    assert forall i, j :: 0 <= i < j < |r| ==> NewerOrSame(r[i], r[j]);
    r
  }

  /** The Timestamp column of a table. */
  function Timestamps(trades: seq<Trade>): (ts: seq<int>)
    ensures |ts| == |trades|
    ensures forall k :: 0 <= k < |ts| ==> ts[k] == trades[k].timestamp
  {
    seq(|trades|, k requires 0 <= k < |trades| => trades[k].timestamp)
  }

  /** Whatever order ties come out in, the Timestamp column of the result is
      fixed: any two non-increasing rearrangements of the same trades have
      the same Timestamp column. */
  lemma TimestampColumnDetermined(a: seq<Trade>, b: seq<Trade>)
    requires multiset(a) == multiset(b)
    requires forall i, j :: 0 <= i < j < |a| ==> a[i].timestamp >= a[j].timestamp
    requires forall i, j :: 0 <= i < j < |b| ==> b[i].timestamp >= b[j].timestamp
    ensures Timestamps(a) == Timestamps(b)
  {
    SameTimestampBag(a, b);
    SortedBagUnique(Timestamps(a), Timestamps(b));
  }

  /** Rearranging trades rearranges their timestamps. */
  lemma {:induction false} SameTimestampBag(a: seq<Trade>, b: seq<Trade>)
    requires multiset(a) == multiset(b)
    ensures multiset(Timestamps(a)) == multiset(Timestamps(b))
    decreases |a|
  {
    if |a| == 0 {
      assert |b| == |multiset(b)| == 0;
    } else {
      assert a[0] in multiset(b);
      var k :| 0 <= k < |b| && b[k] == a[0];
      var b' := b[..k] + b[k + 1..];
      DropMatching(a, b, k);
      SameTimestampBag(a[1..], b');
      AddBackTimestamp(a, b, k);
    }
  }

  /** Taking the first trade of `a` out of both bags keeps them equal. */
  lemma DropMatching(a: seq<Trade>, b: seq<Trade>, k: nat)
    requires multiset(a) == multiset(b) && 0 < |a| && k < |b| && b[k] == a[0]
    ensures multiset(a[1..]) == multiset(b[..k] + b[k + 1..])
  {
    var x := multiset{a[0]};
    var rest, rest' := multiset(a[1..]), multiset(b[..k] + b[k + 1..]);
    assert a == [a[0]] + a[1..];
    assert multiset(a) == rest + x;
    MultisetWithout(b, k);
    assert multiset(b) == rest' + x;
    assert rest == (rest + x) - x;
    assert rest' == (rest' + x) - x;
  }

  /** Putting the matched trade back adds the same timestamp to both bags. */
  lemma AddBackTimestamp(a: seq<Trade>, b: seq<Trade>, k: nat)
    requires 0 < |a| && k < |b| && b[k] == a[0]
    requires multiset(Timestamps(a[1..])) == multiset(Timestamps(b[..k] + b[k + 1..]))
    ensures multiset(Timestamps(a)) == multiset(Timestamps(b))
  {
    var ta, tb := Timestamps(a), Timestamps(b);
    var ta', tb' := Timestamps(a[1..]), Timestamps(b[..k] + b[k + 1..]);
    TimestampsWithout(b, k);
    assert tb' == tb[..k] + tb[k + 1..];
    MultisetWithout(tb, k);
    assert multiset(tb) == multiset(tb') + multiset{tb[k]};
    assert ta' == ta[1..];
    assert ta == [ta[0]] + ta[1..];
    assert multiset(ta) == multiset(ta') + multiset{ta[0]};
    assert ta[0] == tb[k];
  }

  lemma TimestampsWithout(b: seq<Trade>, k: nat)
    requires k < |b|
    ensures Timestamps(b[..k] + b[k + 1..]) == Timestamps(b)[..k] + Timestamps(b)[k + 1..]
  {
    var lhs := Timestamps(b[..k] + b[k + 1..]);
    var rhs := Timestamps(b)[..k] + Timestamps(b)[k + 1..];
    forall i | 0 <= i < |lhs|
      ensures lhs[i] == rhs[i]
    {
      if i < k {
        assert (b[..k] + b[k + 1..])[i] == b[i];
      } else {
        assert (b[..k] + b[k + 1..])[i] == b[i + 1];
      }
    }
  }

  /** A bag of integers has one non-increasing arrangement. */
  lemma {:induction false} SortedBagUnique(x: seq<int>, y: seq<int>)
    requires multiset(x) == multiset(y)
    requires forall i, j :: 0 <= i < j < |x| ==> x[i] >= x[j]
    requires forall i, j :: 0 <= i < j < |y| ==> y[i] >= y[j]
    ensures x == y
    decreases |x|
  {
    assert |x| == |multiset(x)| == |multiset(y)| == |y|;
    if |x| > 0 {
      assert x[0] in multiset(y);
      assert y[0] in multiset(x);
      assert x[0] == y[0];
      assert x == [x[0]] + x[1..];
      assert multiset(x) == multiset{x[0]} + multiset(x[1..]);
      assert y == [y[0]] + y[1..];
      assert multiset(y) == multiset{y[0]} + multiset(y[1..]);
      assert multiset(x[1..]) == multiset(x) - multiset{x[0]};
      assert multiset(y[1..]) == multiset(y) - multiset{y[0]};
      assert multiset(x[1..]) == multiset(y[1..]);
      SortedBagUnique(x[1..], y[1..]);
    }
  }
}
