/** Small helpers shared by every module: an Option type, sums, maxima and
    PHP's negative-offset `array_slice`. */
module Common {

  datatype Option<+T> = None | Some(value: T) {
    /** PHP's `??`: the value, or the default when it is null. */
    function GetOr(default: T): T {
      match this
      case Some(v) => v
      case None => default
    }
  }

  /** A JSON number or null in arithmetic: null counts as 0. */
  function Num(x: Option<real>): real {
    x.GetOr(0.0)
  }

  /** PHP's truth value of a JSON number or null. */
  predicate Truthy(x: Option<real>) {
    x.Some? && x.value != 0.0
  }

  /** PHP 8's `$a < $b` on two JSON numbers, each possibly null. Two numbers
      compare as numbers; when one side is null both sides compare as
      booleans, false before true. */
  predicate LooseLess(a: Option<real>, b: Option<real>) {
    if a.Some? && b.Some? then a.value < b.value else !Truthy(a) && Truthy(b)
  }

  /** Loose comparison is a strict order: never both ways. */
  lemma LooseLessAsymmetric(a: Option<real>, b: Option<real>)
    ensures !(LooseLess(a, b) && LooseLess(b, a))
  {
  }

  /** PHP 8's `$a < $b` on two decimal columns read as numeric strings, each
      possibly null: null compares as the empty string, which is below every
      non-empty string. */
  predicate ColumnLess(a: Option<real>, b: Option<real>) {
    if a.Some? && b.Some? then a.value < b.value else a.None? && b.Some?
  }

  function Abs(x: real): real { if x < 0.0 then -x else x }

  function Max(a: real, b: real): real { if a >= b then a else b }

  function Min(a: real, b: real): real { if a <= b then a else b }

  /** `round($x, 2)`: the nearest hundredth, halves away from zero. */
  function Round2(x: real): (r: real)
    ensures (r * 100.0).Floor as real == r * 100.0
    ensures x >= 0.0 ==> r * 100.0 - 0.5 <= x * 100.0 < r * 100.0 + 0.5
    ensures x < 0.0 ==> r * 100.0 - 0.5 < x * 100.0 <= r * 100.0 + 0.5
    ensures -0.005 <= r - x <= 0.005
    ensures x >= 0.0 ==> r >= 0.0
  {
    var f := if x >= 0.0 then (x * 100.0 + 0.5).Floor else -((-x) * 100.0 + 0.5).Floor;
    HundredthsBack(f);
    f as real / 100.0
  }

  /** A whole number of hundredths, scaled back by 100, is that whole number. */
  lemma HundredthsBack(f: int)
    ensures (f as real / 100.0) * 100.0 == f as real
    ensures ((f as real / 100.0) * 100.0).Floor == f
  {
  }

  /** A value between two hundredths rounds to a value between them. */
  lemma Round2Between(x: real, lo: int, hi: int)
    requires lo as real / 100.0 <= x <= hi as real / 100.0
    ensures lo as real / 100.0 <= Round2(x) <= hi as real / 100.0
  {
    if x >= 0.0 {
      var f := (x * 100.0 + 0.5).Floor;
      assert lo as real <= x * 100.0 <= hi as real;
      assert lo <= f <= hi;
    } else {
      var f := ((-x) * 100.0 + 0.5).Floor;
      assert -hi as real <= (-x) * 100.0 <= -lo as real;
      assert -hi <= f <= -lo;
    }
  }

  /** `array_sum`, accumulated from the front as PHP does. */
  function Sum(s: seq<real>): real
    decreases |s|
  {
    if s == [] then 0.0 else Sum(s[..|s| - 1]) + s[|s| - 1]
  }

  /** `array_slice($s, -$n)` for n > 0: the last n elements, or all of them when
      there are fewer. */
  function TakeLast<T>(s: seq<T>, n: nat): (r: seq<T>)
    ensures |r| == if n < |s| then n else |s|
    ensures n < |s| ==> r == s[|s| - n..]
    ensures n >= |s| ==> r == s
  {
    if n < |s| then s[|s| - n..] else s
  }

  /** PHP's `max(array)` of a non-empty array. */
  function MaxOf(s: seq<real>): (m: real)
    requires |s| > 0
    ensures m in s
    ensures forall i :: 0 <= i < |s| ==> s[i] <= m
    decreases |s|
  {
    if |s| == 1 then s[0] else Max(MaxOf(s[..|s| - 1]), s[|s| - 1])
  }

  /** PHP's `min(array)` of a non-empty array. */
  function MinOf(s: seq<real>): (m: real)
    requires |s| > 0
    ensures m in s
    ensures forall i :: 0 <= i < |s| ==> m <= s[i]
    decreases |s|
  {
    if |s| == 1 then s[0] else Min(MinOf(s[..|s| - 1]), s[|s| - 1])
  }

  lemma {:induction false} SumAppend(s: seq<real>, t: seq<real>)
    ensures Sum(s + t) == Sum(s) + Sum(t)
    decreases |t|
  {
    if t == [] {
      assert s + t == s;
    } else {
      assert (s + t)[..|s + t| - 1] == s + t[..|t| - 1];
      SumAppend(s, t[..|t| - 1]);
    }
  }

  lemma {:induction false} SumNonNegative(s: seq<real>)
    requires forall i :: 0 <= i < |s| ==> s[i] >= 0.0
    ensures Sum(s) >= 0.0
    decreases |s|
  {
    if s != [] {
      SumNonNegative(s[..|s| - 1]);
    }
  }

  /** A sum of n terms drawn from [lo, hi] lies in [n*lo, n*hi]. */
  lemma {:induction false} SumBounds(s: seq<real>, lo: real, hi: real)
    requires forall i :: 0 <= i < |s| ==> lo <= s[i] <= hi
    ensures |s| as real * lo <= Sum(s) <= |s| as real * hi
    decreases |s|
  {
    if s != [] {
      SumBounds(s[..|s| - 1], lo, hi);
    }
  }

  /** A quotient of a value in [n*lo, n*hi] by a positive n lies in [lo, hi]. */
  lemma QuotientBetween(x: real, n: real, lo: real, hi: real)
    requires n > 0.0 && n * lo <= x <= n * hi
    ensures lo <= x / n <= hi
  {
    assert x / n * n == x;
  }

  lemma {:induction false} SumZeroIffAllZero(s: seq<real>)
    requires forall i :: 0 <= i < |s| ==> s[i] >= 0.0
    ensures Sum(s) == 0.0 <==> forall i :: 0 <= i < |s| ==> s[i] == 0.0
    decreases |s|
  {
    if s != [] {
      SumZeroIffAllZero(s[..|s| - 1]);
      SumNonNegative(s[..|s| - 1]);
    }
  }

  /** No element occurs twice. */
  predicate Distinct<T(==)>(s: seq<T>) {
    forall i, j :: 0 <= i < j < |s| ==> s[i] != s[j]
  }

  /** A sequence without repetitions has as many elements as its set. */
  lemma {:induction false} DistinctCard<T>(s: seq<T>)
    requires Distinct(s)
    ensures |set x | x in s| == |s|
    decreases |s|
  {
    if s != [] {
      var init := s[..|s| - 1];
      DistinctCard(init);
      assert (set x | x in s) == (set x | x in init) + {s[|s| - 1]};
      assert s[|s| - 1] !in init;
    }
  }

  /** A subset is no larger, and a subset as large is the whole set. */
  lemma {:induction false} SubsetCard<T>(a: set<T>, b: set<T>)
    requires a <= b
    ensures |a| <= |b|
    ensures |a| == |b| ==> a == b
    decreases |b|
  {
    if b != {} {
      var x :| x in b;
      if x in a {
        SubsetCard(a - {x}, b - {x});
        assert a == (a - {x}) + {x} && b == (b - {x}) + {x};
      } else {
        SubsetCard(a, b - {x});
      }
    }
  }
}
