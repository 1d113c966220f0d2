/** Value-level stand-ins for the Python and numpy behaviour the rest of the model
    relies on: exceptions as results, str() of integers and slice bounds. */
module Base {

  datatype Option<T> = None | Some(value: T)

  /** The Python exceptions the modelled code raises or catches. */
  datatype PyError =
    | KeyError
    | IndexError
    | ValueError
    | TypeError
    | ZeroDivisionError
    | AttributeError
    | IOError
    | UnboundLocalError
    | FitpackError  // dfitpack.error, raised by scipy's spline fitting

  datatype Result<T> = Ok(value: T) | Err(error: PyError)
  {
    predicate IsFailure() { Err? }
  }

  /** FLAG_TRUE and FLAG_FALSE of the preferences module. */
  const FLAG_TRUE: int := 1
  const FLAG_FALSE: int := 0

  function DigitChar(d: int): (c: char)
    requires 0 <= d < 10
    ensures '0' <= c <= '9' && c as int - '0' as int == d
  {
    ('0' as int + d) as char
  }

  /** str(n) for a non-negative integer, in decimal without leading zeros. */
  function NatToString(n: nat): (s: string)
    ensures |s| >= 1
    ensures forall k :: 0 <= k < |s| ==> '0' <= s[k] <= '9'
    ensures (|s| == 1) == (n < 10)
  {
    if n < 10 then [DigitChar(n)] else NatToString(n / 10) + [DigitChar(n % 10)]
  }

  /** str(n) for any integer. */
  function IntToString(n: int): (s: string)
    ensures |s| >= 1
    ensures (s[0] == '-') == (n < 0)
  {
    if n < 0 then "-" + NatToString(-n) else NatToString(n)
  }

  /** Distinct integers have distinct decimal spellings. */
  lemma {:induction false} NatToStringInjective(a: nat, b: nat)
    requires NatToString(a) == NatToString(b)
    ensures a == b
  {
    var sa, sb := NatToString(a), NatToString(b);
    if a < 10 || b < 10 {
      assert |sa| == 1 && |sb| == 1;
      assert a < 10 && b < 10;
      assert sa[0] == DigitChar(a) && sb[0] == DigitChar(b);
    } else {
      var pa, pb := NatToString(a / 10), NatToString(b / 10);
      assert sa == pa + [DigitChar(a % 10)];
      assert sb == pb + [DigitChar(b % 10)];
      assert |pa| == |pb|;
      assert pa == sa[..|sa| - 1] && pb == sb[..|sb| - 1];
      NatToStringInjective(a / 10, b / 10);
      assert sa[|sa| - 1] == DigitChar(a % 10) && sb[|sb| - 1] == DigitChar(b % 10);
    }
  }

  lemma IntToStringInjective(a: int, b: int)
    requires IntToString(a) == IntToString(b)
    ensures a == b
  {
    if a < 0 {
      assert b < 0;
      assert NatToString(-a) == IntToString(a)[1..] == IntToString(b)[1..] == NatToString(-b);
      NatToStringInjective(-a, -b);
    } else {
      assert b >= 0;
      NatToStringInjective(a, b);
    }
  }

  lemma IntToStringDistinct(a: int, b: int)
    ensures a != b ==> IntToString(a) != IntToString(b)
  {
    if IntToString(a) == IntToString(b) {
      IntToStringInjective(a, b);
    }
  }

  /** A numpy float64 result: finite, or nan/inf after a division by zero. */
  datatype Float = Fin(val: real) | NonFinite

  /** The bound a Python slice uses for index i on a sequence of length n. */
  function SliceBound(i: int, n: nat): (k: nat)
    ensures k <= n
    ensures 0 <= i <= n ==> k == i
    ensures i > n ==> k == n
    ensures i < 0 ==> k == if i + n < 0 then 0 else i + n
  {
    if i < 0 then (if i + n < 0 then 0 else i + n) else if i > n then n else i
  }

  /** Python's s[lo:hi]. */
  function PySlice<T>(s: seq<T>, lo: int, hi: int): (r: seq<T>)
    ensures SliceBound(lo, |s|) <= SliceBound(hi, |s|) ==>
      r == s[SliceBound(lo, |s|)..SliceBound(hi, |s|)]
    ensures SliceBound(lo, |s|) > SliceBound(hi, |s|) ==> r == []
  {
    var a, b := SliceBound(lo, |s|), SliceBound(hi, |s|);
    if a <= b then s[a..b] else []
  }

  /** Python's s[i] with a negative i counting from the end. */
  function PyIndex<T>(s: seq<T>, i: int): (r: Result<T>)
    ensures r.Ok? <==> -|s| <= i < |s|
    ensures 0 <= i < |s| ==> r == Ok(s[i])
    ensures -|s| <= i < 0 ==> r == Ok(s[|s| + i])
  {
    if 0 <= i < |s| then Ok(s[i]) else if -|s| <= i < 0 then Ok(s[|s| + i]) else Err(IndexError)
  }

  /** div0(a, b): element-wise a / b, with 0 wherever the quotient is not finite,
      which over the reals is where b is 0. */
  function Div0(a: seq<real>, b: seq<real>): (c: seq<real>)
    requires |a| == |b|
    ensures |c| == |a|
    ensures forall i :: 0 <= i < |a| && b[i] != 0.0 ==> c[i] * b[i] == a[i]
    ensures forall i :: 0 <= i < |a| && b[i] == 0.0 ==> c[i] == 0.0
  {
    seq(|a|, i requires 0 <= i < |a| => if b[i] != 0.0 then a[i] / b[i] else 0.0)
  }

  /** A rectangular matrix of the given width. */
  ghost predicate IsMatrix<T>(m: seq<seq<T>>, width: nat)
  {
    forall i :: 0 <= i < |m| ==> |m[i]| == width
  }

  /** Python 2's a / b on integers, which rounds toward negative infinity. */
  function PyDiv(a: int, b: int): (q: int)
    requires b != 0
    ensures b > 0 ==> q * b <= a < q * b + b
    ensures b < 0 ==> q * b >= a > q * b + b
  {
    if b > 0 then a / b else (-a) / (-b)
  }

  /** numpy's integer a / b between scalars: floor division, with 0 (and only a
      warning) for a zero divisor. */
  function NumpyDiv(a: int, b: int): (q: int)
    ensures b == 0 ==> q == 0
    ensures b > 0 ==> q * b <= a < q * b + b
    ensures b < 0 ==> q * b >= a > q * b + b
  {
    if b == 0 then 0 else PyDiv(a, b)
  }

  function Min(a: int, b: int): int { if a <= b then a else b }
  function Max(a: int, b: int): int { if a >= b then a else b }

  /** The elements of s satisfying p, in their original order. */
  function Filter<T>(s: seq<T>, p: T -> bool): (r: seq<T>)
    ensures |r| <= |s|
    ensures forall x :: x in r ==> x in s && p(x)
  {
    if s == [] then [] else (if p(s[0]) then [s[0]] else []) + Filter(s[1..], p)
  }

  /** Filtering keeps exactly the elements that satisfy the predicate. */
  lemma {:induction false} FilterMembers<T>(s: seq<T>, p: T -> bool, x: T)
    ensures x in Filter(s, p) <==> x in s && p(x)
  {
    if s != [] {
      FilterMembers(s[1..], p, x);
      assert s == [s[0]] + s[1..];
    }
  }

  /** Filtering commutes with concatenation, so relative order is preserved. */
  lemma {:induction false} FilterAppend<T>(a: seq<T>, b: seq<T>, p: T -> bool)
    ensures Filter(a + b, p) == Filter(a, p) + Filter(b, p)
  {
    if a == [] {
      assert a + b == b;
    } else {
      assert (a + b)[1..] == a[1..] + b;
      FilterAppend(a[1..], b, p);
    }
  }
}
