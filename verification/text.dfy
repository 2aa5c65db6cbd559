/** Text operations the client relies on: Python's `str.split` with an
    explicit one-character separator, `str.join`, and `int()` applied to a
    response key.
 */
module Text {
  import opened Results

  /** Index of the first occurrence of `c` in `s`. */
  function FirstIndex(s: string, c: char): (i: nat)
    requires c in s
    ensures i < |s| && s[i] == c && forall k :: 0 <= k < i ==> s[k] != c
  {
    if s[0] == c then 0
    else
      var i := 1 + FirstIndex(s[1..], c);
      assert s[..i] == [s[0]] + s[1..][..i - 1];
      i
  }

  /** Number of occurrences of `c` in `s`. */
  function CountChar(s: string, c: char): nat
  {
    if |s| == 0 then 0
    else (if s[0] == c then 1 else 0) + CountChar(s[1..], c)
  }

  /** `s.split(c)`: the pieces between consecutive occurrences of `c`,
      empty pieces included, so that there is always at least one. */
  function Split(s: string, c: char): (pieces: seq<string>)
    ensures |pieces| >= 1
    ensures forall k :: 0 <= k < |pieces| ==> c !in pieces[k]
    decreases |s|
  {
    if c in s then
      var i := FirstIndex(s, c);
      [s[..i]] + Split(s[i + 1..], c)
    else
      [s]
  }

  /** `c.join(xs)`: the elements with one `c` between neighbours. When no
      element contains `c`, the separators are exactly the ones inserted. */
  function Join(xs: seq<string>, c: char): (s: string)
    ensures |xs| == 0 ==> s == ""
    ensures |xs| > 0 ==> xs[0] <= s
    ensures |xs| > 1 ==> |xs[0]| < |s| && s[|xs[0]|] == c
    ensures |xs| > 0 && (forall k :: 0 <= k < |xs| ==> c !in xs[k]) ==> CountChar(s, c) == |xs| - 1
  {
    if |xs| == 0 then ""
    else if |xs| == 1 then
      assert c !in xs[0] ==> CountChar(xs[0], c) == 0 by {
        if c !in xs[0] { NoneCounted(xs[0], c); }
      }
      xs[0]
    else
      var rest := Join(xs[1..], c);
      assert c !in xs[0] ==> CountChar(xs[0] + [c] + rest, c) == 1 + CountChar(rest, c) by {
        if c !in xs[0] { CountSplitAt(xs[0], rest, c); }
      }
      xs[0] + [c] + rest
  }

  /** Splitting stops at the first separator. */
  lemma SplitAtFirst(a: string, b: string, c: char)
    requires c !in a
    ensures Split(a + [c] + b, c) == [a] + Split(b, c)
  {
    var s := a + [c] + b;
    assert s[|a|] == c;
    var i := FirstIndex(s, c);
    assert i == |a|;
    assert s[..i] == a;
    assert s[i + 1..] == b;
  }

  /** Splitting on `c` makes one more piece than there are `c`s. */
  lemma {:induction false} SplitCount(s: string, c: char)
    ensures |Split(s, c)| == CountChar(s, c) + 1
    decreases |s|
  {
    if |s| == 0 {
    } else if s[0] == c {
      assert s == [] + [c] + s[1..];
      SplitAtFirst([], s[1..], c);
      SplitCount(s[1..], c);
    } else if c in s {
      var i := FirstIndex(s, c);
      var a, b := s[..i], s[i + 1..];
      assert s == a + [c] + b;
      CountSplitAt(a, b, c);
      SplitCount(b, c);
    } else {
      NoneCounted(s, c);
    }
  }

  lemma {:induction false} NoneCounted(s: string, c: char)
    requires c !in s
    ensures CountChar(s, c) == 0
    decreases |s|
  {
    if |s| > 0 {
      assert c !in s[1..];
      NoneCounted(s[1..], c);
    }
  }

  lemma {:induction false} CountSplitAt(a: string, b: string, c: char)
    requires c !in a
    ensures CountChar(a + [c] + b, c) == 1 + CountChar(b, c)
    decreases |a|
  {
    if |a| == 0 {
      assert a + [c] + b == [c] + b;
      assert ([c] + b)[1..] == b;
    } else {
      assert (a + [c] + b)[1..] == a[1..] + [c] + b;
      assert c !in a[1..];
      CountSplitAt(a[1..], b, c);
    }
  }

  /** Joining the pieces of a split gives back the original text. */
  lemma {:induction false} JoinOfSplit(s: string, c: char)
    ensures Join(Split(s, c), c) == s
    decreases |s|
  {
    if c in s {
      var i := FirstIndex(s, c);
      var rest := Split(s[i + 1..], c);
      JoinOfSplit(s[i + 1..], c);
      assert Split(s, c) == [s[..i]] + rest;
      assert ([s[..i]] + rest)[1..] == rest;
      assert s == s[..i] + [c] + s[i + 1..];
    }
  }

  /** Splitting a join recovers the list, provided it is non-empty and no
      element contains the separator. */
  lemma {:induction false} SplitOfJoin(xs: seq<string>, c: char)
    requires |xs| > 0
    requires forall k :: 0 <= k < |xs| ==> c !in xs[k]
    ensures Split(Join(xs, c), c) == xs
  {
    if |xs| > 1 {
      SplitOfJoin(xs[1..], c);
      SplitAtFirst(xs[0], Join(xs[1..], c), c);
    }
  }

  // Decimal integers

  predicate IsDigit(ch: char)
  {
    '0' <= ch <= '9'
  }

  predicate AllDigits(s: string)
  {
    forall k :: 0 <= k < |s| ==> IsDigit(s[k])
  }

  function DigitValue(ch: char): (d: nat)
    requires IsDigit(ch)
    ensures d < 10
  {
    ch as int - '0' as int
  }

  function DigitChar(d: nat): (ch: char)
    requires d < 10
    ensures IsDigit(ch) && DigitValue(ch) == d
  {
    ('0' as int + d) as char
  }

  /** Value of a string of decimal digits, most significant first. */
  function DigitsValue(s: string): nat
    requires AllDigits(s)
  {
    if |s| == 0 then 0
    else 10 * DigitsValue(s[..|s| - 1]) + DigitValue(s[|s| - 1])
  }

  /** Shortest decimal spelling of `n`. */
  function ShowNat(n: nat): (s: string)
    ensures |s| >= 1 && AllDigits(s)
  {
    if n < 10 then [DigitChar(n)] else ShowNat(n / 10) + [DigitChar(n % 10)]
  }

  /** `int(s)` for a sign-optional decimal literal: an optional `+` or `-`
      followed by at least one ASCII digit, leading zeros allowed.
      Anything else raises ValueError. */
  function ParseInt(s: string): (r: Result<int, Failure>)
    ensures r.Ok? <==> (|s| > 0 && AllDigits(s)) || (|s| > 1 && (s[0] == '+' || s[0] == '-') && AllDigits(s[1..]))
    ensures r.Err? ==> r.error == NotAnInteger(s)
    ensures |s| == 0 ==> r.Err?
    ensures r.Ok? && AllDigits(s) ==> r.value >= 0
  {
    if |s| > 0 && (s[0] == '+' || s[0] == '-') then
      var body := s[1..];
      if |body| > 0 && AllDigits(body) then
        var v: int := DigitsValue(body);
        Ok(if s[0] == '-' then -v else v)
      else Err(NotAnInteger(s))
    else if |s| > 0 && AllDigits(s) then Ok(DigitsValue(s))
    else Err(NotAnInteger(s))
  }

  lemma {:induction false} DigitsOfShow(n: nat)
    ensures DigitsValue(ShowNat(n)) == n
  {
    if n >= 10 {
      var s := ShowNat(n);
      assert s[..|s| - 1] == ShowNat(n / 10);
      DigitsOfShow(n / 10);
    }
  }

  /** `int(str(n))` gives back `n`, for either sign. */
  lemma ParseOfShow(n: int)
    ensures n >= 0 ==> ParseInt(ShowNat(n)) == Ok(n)
    ensures ParseInt(['-'] + ShowNat(if n < 0 then -n else n)) == Ok(if n < 0 then n else -n)
  {
    var m: nat := if n < 0 then -n else n;
    DigitsOfShow(m);
    var s := ShowNat(m);
    assert (['-'] + s)[1..] == s;
  }

  /** A leading zero does not change the value of a digit string. */
  lemma {:induction false} DigitsLeadingZero(s: string)
    requires AllDigits(s)
    ensures AllDigits(['0'] + s) && DigitsValue(['0'] + s) == DigitsValue(s)
  {
    var z := ['0'] + s;
    assert forall k :: 0 <= k < |z| ==> IsDigit(z[k]) by {
      forall k | 0 <= k < |z| ensures IsDigit(z[k]) {
        if k > 0 { assert z[k] == s[k - 1]; }
      }
    }
    if |s| > 0 {
      assert z[..|z| - 1] == ['0'] + s[..|s| - 1];
      DigitsLeadingZero(s[..|s| - 1]);
    }
  }

  /** `int("0" + s) == int(s)` for a digit string `s`. */
  lemma LeadingZeroIgnored(s: string)
    requires |s| > 0 && AllDigits(s)
    ensures ParseInt(['0'] + s) == ParseInt(s)
  {
    DigitsLeadingZero(s);
  }

  /** `int("+" + s) == int(s)` and `int("-" + s) == -int(s)` for a digit
      string `s`. */
  lemma SignedDigits(s: string)
    requires |s| > 0 && AllDigits(s)
    ensures ParseInt(['+'] + s) == ParseInt(s)
    ensures ParseInt(['-'] + s) == Ok(-ParseInt(s).value)
  {
    assert (['+'] + s)[1..] == s;
    assert (['-'] + s)[1..] == s;
  }
}
