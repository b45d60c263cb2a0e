/** Shared vocabulary of the bookkeeping model: nullable values, the
    JavaScript rounding the application uses, natural powers over `real`,
    and sums over sequences of table rows. */
module Base {

  /** A nullable column or an optional argument. */
  datatype Option<T> = None | Some(value: T) {
    function GetOr(default: T): T {
      match this
      case Some(v) => v
      case None => default
    }
  }

  /** JavaScript truthiness of a nullable number: null and 0 both read as "absent". */
  predicate Truthy(o: Option<int>) {
    o.Some? && o.value != 0
  }

  /** JavaScript truthiness of a nullable text column: null and "" are falsy. */
  predicate TruthyText(o: Option<string>) {
    o.Some? && o.value != ""
  }

  function Max(a: real, b: real): (r: real)
    ensures r >= a && r >= b
    ensures r == a || r == b
  {
    if a >= b then a else b
  }

  function Min(a: real, b: real): (r: real)
    ensures r <= a && r <= b
    ensures r == a || r == b
  {
    if a <= b then a else b
  }

  function Abs(x: real): (r: real)
    ensures r >= 0.0
    ensures r == x || r == -x
  {
    if x >= 0.0 then x else -x
  }

  /** `Math.round`: the nearest whole number, halves rounded toward +infinity. */
  function JsRound(x: real): (r: real)
    ensures r == r.Floor as real
    ensures x - 0.5 < r <= x + 0.5
  {
    (x + 0.5).Floor as real
  }

  /** `Math.round(x * 100) / 100`: rounding to whole cents. */
  function Round2(x: real): (r: real)
    ensures r * 100.0 == (r * 100.0).Floor as real
    ensures x - 0.005 < r <= x + 0.005
  {
    JsRound(x * 100.0) / 100.0
  }

  /** `Math.pow(b, n)` for a natural exponent. */
  function Pow(b: real, n: nat): real
  {
    if n == 0 then 1.0 else b * Pow(b, n - 1)
  }

  lemma {:induction false} PowAbove1(b: real, n: nat)
    requires b > 1.0 && n > 0
    ensures Pow(b, n) > 1.0
  {
    if n > 1 {
      PowAbove1(b, n - 1);
      assert b * Pow(b, n - 1) > 1.0 * Pow(b, n - 1);
    }
  }

  /** Sum of `f` over the rows of `s`, in table order. */
  function Sum<T>(s: seq<T>, f: T -> real): real
    decreases |s|
  {
    if |s| == 0 then 0.0 else Sum(s[..|s| - 1], f) + f(s[|s| - 1])
  }

  lemma SumAppend<T>(s: seq<T>, x: T, f: T -> real)
    ensures Sum(s + [x], f) == Sum(s, f) + f(x)
  {
    assert (s + [x])[..|s|] == s;
  }

  lemma {:induction false} SumConcat<T>(s: seq<T>, t: seq<T>, f: T -> real)
    ensures Sum(s + t, f) == Sum(s, f) + Sum(t, f)
    decreases |t|
  {
    if |t| == 0 {
      assert s + t == s;
    } else {
      var t' := t[..|t| - 1];
      assert s + t == (s + t') + [t[|t| - 1]];
      SumAppend(s + t', t[|t| - 1], f);
      SumConcat(s, t', f);
      SumAppend(t', t[|t| - 1], f);
      assert t == t' + [t[|t| - 1]];
    }
  }

  /** Replacing one row changes the sum by the difference of that row's values. */
  lemma {:induction false} SumUpdate<T>(s: seq<T>, i: nat, x: T, f: T -> real)
    requires i < |s|
    ensures Sum(s[i := x], f) == Sum(s, f) - f(s[i]) + f(x)
    decreases |s|
  {
    var n := |s| - 1;
    if i < n {
      assert s[i := x][..n] == s[..n][i := x];
      SumUpdate(s[..n], i, x, f);
    } else {
      assert s[i := x][..n] == s[..n];
    }
  }

  /** Two row functions that agree on every row give the same sum. */
  lemma {:induction false} SumPointwise<T>(s: seq<T>, f: T -> real, g: T -> real)
    requires forall i :: 0 <= i < |s| ==> f(s[i]) == g(s[i])
    ensures Sum(s, f) == Sum(s, g)
    decreases |s|
  {
    if |s| > 0 {
      SumPointwise(s[..|s| - 1], f, g);
    }
  }

  /** A prefix of a prefix is a prefix, and the rows past it agree. */
  lemma PrefixOfPrefix<T>(a: seq<T>, b: seq<T>, c: seq<T>)
    requires |a| <= |b| <= |c| && b[..|a|] == a && c[..|b|] == b
    ensures c[..|a|] == a
    ensures forall i :: |a| <= i < |b| ==> c[i] == b[i]
  {
    assert c[..|a|] == c[..|b|][..|a|];
    forall i | |a| <= i < |b| ensures c[i] == b[i] {
      assert c[i] == c[..|b|][i];
    }
  }

  /** Rows that correspond one to one give the same sum. */
  lemma {:induction false} SumMap<T>(r: seq<T>, s: seq<T>, f: T -> real, g: T -> real)
    requires |r| == |s| && forall i :: 0 <= i < |s| ==> f(r[i]) == g(s[i])
    ensures Sum(r, f) == Sum(s, g)
    decreases |s|
  {
    if |s| > 0 {
      SumMap(r[..|r| - 1], s[..|s| - 1], f, g);
    }
  }

  lemma {:induction false} SumNonNegative<T>(s: seq<T>, f: T -> real)
    requires forall i :: 0 <= i < |s| ==> f(s[i]) >= 0.0
    ensures Sum(s, f) >= 0.0
    decreases |s|
  {
    if |s| > 0 {
      SumNonNegative(s[..|s| - 1], f);
    }
  }

  lemma {:induction false} SumZero<T>(s: seq<T>, f: T -> real)
    requires forall i :: 0 <= i < |s| ==> f(s[i]) == 0.0
    ensures Sum(s, f) == 0.0
    decreases |s|
  {
    if |s| > 0 {
      SumZero(s[..|s| - 1], f);
    }
  }

  /** Sum of two row functions is the sum of their sums. */
  lemma {:induction false} SumAdd<T>(s: seq<T>, f: T -> real, g: T -> real, h: T -> real)
    requires forall i :: 0 <= i < |s| ==> h(s[i]) == f(s[i]) + g(s[i])
    ensures Sum(s, h) == Sum(s, f) + Sum(s, g)
    decreases |s|
  {
    if |s| > 0 {
      SumAdd(s[..|s| - 1], f, g, h);
    }
  }

  /** Rows kept by `keep`, in order. */
  function Filter<T>(s: seq<T>, keep: T -> bool): (r: seq<T>)
    ensures |r| <= |s|
    ensures forall i :: 0 <= i < |r| ==> r[i] in s && keep(r[i])
    ensures forall i :: 0 <= i < |s| && keep(s[i]) ==> s[i] in r
    decreases |s|
  {
    if |s| == 0 then []
    else if keep(s[|s| - 1]) then Filter(s[..|s| - 1], keep) + [s[|s| - 1]]
    else Filter(s[..|s| - 1], keep)
  }

  function Count<T>(s: seq<T>, keep: T -> bool): (n: nat)
    ensures n <= |s|
  {
    |Filter(s, keep)|
  }

  /** Filtering distributes over concatenation. */
  lemma {:induction false} FilterAppend<T>(a: seq<T>, b: seq<T>, keep: T -> bool)
    ensures Filter(a + b, keep) == Filter(a, keep) + Filter(b, keep)
    decreases |b|
  {
    if |b| == 0 {
      assert a + b == a;
    } else {
      var n := |b| - 1;
      var tail := if keep(b[n]) then [b[n]] else [];
      calc {
        Filter(a + b, keep);
      == { assert (a + b)[..|a + b| - 1] == a + b[..n]; assert (a + b)[|a + b| - 1] == b[n]; }
        Filter(a + b[..n], keep) + tail;
      == { FilterAppend(a, b[..n], keep); }
        (Filter(a, keep) + Filter(b[..n], keep)) + tail;
        Filter(a, keep) + (Filter(b[..n], keep) + tail);
      }
    }
  }

  /** Summing `f` over the kept rows equals summing a function that is 0 on the others. */
  lemma {:induction false} SumFilter<T>(s: seq<T>, keep: T -> bool, f: T -> real, g: T -> real)
    requires forall i :: 0 <= i < |s| ==> g(s[i]) == (if keep(s[i]) then f(s[i]) else 0.0)
    ensures Sum(Filter(s, keep), f) == Sum(s, g)
    decreases |s|
  {
    if |s| > 0 {
      var n := |s| - 1;
      SumFilter(s[..n], keep, f, g);
      if keep(s[n]) {
        SumAppend(Filter(s[..n], keep), s[n], f);
      }
    }
  }
}
