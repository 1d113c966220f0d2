/** The values recurrence/recurrence.py computes, over an abstract distance:
    the recurrence plot, its thresholded diagonals and columns, the line and
    vertical length distributions and the measures derived from them, and
    the memo dictionaries of the Recurrence class as one value with the
    change each method makes to it. */
module RqaSpec {
  import opened Base
  import opened RunLengths

  /** A recurrence norm: whether it is symmetric (is_simmetric) and the
      distance it computes between two vectors (one row of compute). */
  datatype Norm = Norm(symmetric: bool, dist: (seq<real>, seq<real>) -> real)

  type Matrix = seq<seq<real>>

  ghost predicate Square(m: Matrix)
  {
    IsMatrix(m, |m|)
  }

  // ---------------------------------------------------------------- the plot

  /** The series the rows are compared with: y for a cross plot, x itself otherwise. */
  function Partner(x: Matrix, y: Option<Matrix>): Matrix
  {
    if y.Some? then y.value else x
  }

  /** Entry (i, j) of _plot(x, y). */
  function Cell(norm: Norm, x: Matrix, y: Option<Matrix>, i: nat, j: nat): real
    requires i < |x| && j < |x| && |Partner(x, y)| >= |x|
  {
    var z := Partner(x, y);
    if i == j then (if y.Some? then norm.dist(x[i], z[i]) else 0.0)
    else if !norm.symmetric then 0.0
    else if i < j then norm.dist(x[i], z[j])
    else norm.dist(x[j], z[i])
  }

  /** _plot(x, y): the diagonal holds the distances of equal indices for a
      cross plot and 0 otherwise; a symmetric norm fills both triangles with
      the distance of the earlier row of x to the later row of the partner;
      a norm that is not symmetric leaves everything off the diagonal 0. */
  function PlotSpec(norm: Norm, x: Matrix, y: Option<Matrix>): (m: Matrix)
    requires |Partner(x, y)| >= |x|
    ensures |m| == |x| && Square(m)
    ensures forall i :: 0 <= i < |x| ==> m[i][i] == if y.Some? then norm.dist(x[i], y.value[i]) else 0.0
    ensures norm.symmetric ==> forall i, j :: 0 <= i < j < |x| ==>
      m[i][j] == m[j][i] == norm.dist(x[i], Partner(x, y)[j])
    ensures !norm.symmetric ==> forall i, j :: 0 <= i < |x| && 0 <= j < |x| && i != j ==> m[i][j] == 0.0
  {
    seq(|x|, i requires 0 <= i < |x| => seq(|x|, j requires 0 <= j < |x| => Cell(norm, x, y, i, j)))
  }

  // ---------------------------------------------------------------- recurrence rate

  /** The entries of a row below th. */
  function RowBelow(row: seq<real>, th: real): nat
  {
    if row == [] then 0 else RowBelow(row[..|row| - 1], th) + (if row[|row| - 1] < th then 1 else 0)
  }

  /** np.sum(rplot < th): the recurrent points. */
  function CountBelow(m: Matrix, th: real): nat
  {
    if m == [] then 0 else CountBelow(m[..|m| - 1], th) + RowBelow(m[|m| - 1], th)
  }

  /** rqa_rr: the recurrent points over rplot.size, nan for an empty plot. */
  function RRSpec(m: Matrix, th: real): Float
  {
    if |m| == 0 then NonFinite else Fin(CountBelow(m, th) as real / (|m| * |m|) as real)
  }

  lemma {:induction false} RowBelowBound(row: seq<real>, th: real)
    ensures RowBelow(row, th) <= |row|
  {
    if row != [] {
      RowBelowBound(row[..|row| - 1], th);
    }
  }

  lemma {:induction false} CountBelowBound(m: Matrix, th: real, w: nat)
    requires IsMatrix(m, w)
    ensures CountBelow(m, th) <= |m| * w
  {
    if m != [] {
      CountBelowBound(m[..|m| - 1], th, w);
      RowBelowBound(m[|m| - 1], th);
      assert (|m| - 1) * w + w == |m| * w;
    }
  }

  /** The recurrence rate of a non-empty plot is a fraction between 0 and 1. */
  lemma RRBounds(m: Matrix, th: real)
    requires Square(m) && |m| > 0
    ensures RRSpec(m, th).Fin? && 0.0 <= RRSpec(m, th).val <= 1.0
  {
    CountBelowBound(m, th, |m|);
    var c, t := CountBelow(m, th) as real, (|m| * |m|) as real;
    assert c <= t && t > 0.0;
    FractionBounds(c, t);
  }

  lemma FractionBounds(c: real, t: real)
    requires 0.0 <= c <= t && t > 0.0
    ensures 0.0 <= c / t <= 1.0
  {
    assert c / t * t == c;
  }

  // ---------------------------------------------------------------- thresholded views

  /** Entry (i, j) of (rplot < th).astype(int). */
  function Below(m: Matrix, th: real, i: nat, j: nat): (b: int)
    requires Square(m) && i < |m| && j < |m|
    ensures b == 0 || b == 1
  {
    if m[i][j] < th then 1 else 0
  }

  /** np.diagonal((rplot < th).astype(int), dd): entries (i, i + dd) above the
      main diagonal for dd > 0, entries (i - dd, i) below it for dd < 0. */
  function Diagonal(m: Matrix, th: real, dd: int): (v: seq<int>)
    requires Square(m)
    ensures Binary(v)
    ensures |v| == if dd >= 0 then Max(|m| - dd, 0) else Max(|m| + dd, 0)
  {
    var n := |m|;
    if dd >= 0 then
      var v := seq(Max(n - dd, 0), i requires 0 <= i < Max(n - dd, 0) => Below(m, th, i, i + dd));
      assert forall k :: 0 <= k < |v| ==> v[k] == Below(m, th, k, k + dd);
      v
    else
      var v := seq(Max(n + dd, 0), i requires 0 <= i < Max(n + dd, 0) => Below(m, th, i - dd, i));
      assert forall k :: 0 <= k < |v| ==> v[k] == Below(m, th, k - dd, k);
      v
  }

  /** (rplot < th).astype(int)[:, c]. */
  function Column(m: Matrix, th: real, c: nat): (v: seq<int>)
    requires Square(m) && c < |m|
    ensures Binary(v) && |v| == |m|
  {
    seq(|m|, i requires 0 <= i < |m| => Below(m, th, i, c))
  }

  // ---------------------------------------------------------------- length distributions

  /** Adding the run-length histograms of diagonals lo .. hi-1, each with
      weight w, into p: the diagonal loop of rqa_l_freq_dist. */
  function LineFrom(m: Matrix, th: real, p: Counts, lo: int, hi: int, w: int): Counts
    requires Square(m)
    decreases hi - lo
  {
    if hi <= lo then p
    else AddCounts(LineFrom(m, th, p, lo, hi - 1, w), LengthCounts(Diagonal(m, th, hi - 1)), w)
  }

  /** rqa_l_freq_dist: with a symmetric norm the main diagonal is seeded as one
      line of length n and the diagonals above it count twice; otherwise every
      diagonal from -n to n-1 counts once. */
  function LineDist(m: Matrix, th: real, symmetric: bool): Counts
    requires Square(m)
  {
    if symmetric then LineFrom(m, th, [(|m|, 1)], 1, |m|, 2) else LineFrom(m, th, [], -|m|, |m|, 1)
  }

  /** The column loop of rqa_v_freq_dist over columns 0 .. c-1. */
  function VertFrom(m: Matrix, th: real, c: nat): Counts
    requires Square(m) && c <= |m|
  {
    if c == 0 then [] else AddCounts(VertFrom(m, th, c - 1), LengthCounts(Column(m, th, c - 1)), 1)
  }

  /** rqa_v_freq_dist. */
  function VertDist(m: Matrix, th: real): Counts
    requires Square(m)
  {
    VertFrom(m, th, |m|)
  }

  lemma LineFromStep(m: Matrix, th: real, p: Counts, lo: int, hi: int, w: int)
    requires Square(m) && lo <= hi
    ensures LineFrom(m, th, p, lo, hi + 1, w) == AddCounts(LineFrom(m, th, p, lo, hi, w), LengthCounts(Diagonal(m, th, hi)), w)
  {
  }

  lemma VertFromStep(m: Matrix, th: real, c: nat)
    requires Square(m) && c < |m|
    ensures VertFrom(m, th, c + 1) == AddCounts(VertFrom(m, th, c), LengthCounts(Column(m, th, c)), 1)
  {
  }

  /** Runs of length q over diagonals lo .. hi-1. */
  function DiagRuns(m: Matrix, th: real, lo: int, hi: int, q: int): nat
    requires Square(m)
    decreases hi - lo
  {
    if hi <= lo then 0 else DiagRuns(m, th, lo, hi - 1, q) + RunCount(Diagonal(m, th, hi - 1), q)
  }

  /** Runs of length q over columns 0 .. c-1. */
  function ColumnRuns(m: Matrix, th: real, c: nat, q: int): nat
    requires Square(m) && c <= |m|
  {
    if c == 0 then 0 else ColumnRuns(m, th, c - 1, q) + RunCount(Column(m, th, c - 1), q)
  }

  /** Two weighted additions in a row add the weighted sum. */
  lemma WeightedStep(g0: int, g1: int, g2: int, w: int, a: int, b: int, c: int)
    requires g1 == g0 + w * a && g2 == g1 + w * b && c == a + b
    ensures g2 == g0 + w * c
  {
    Distribute(w, a, b);
  }

  lemma {:induction false} LineFromGet(m: Matrix, th: real, p: Counts, lo: int, hi: int, w: int, q: int)
    requires Square(m)
    ensures Get(LineFrom(m, th, p, lo, hi, w), q) == Get(p, q) + w * DiagRuns(m, th, lo, hi, q)
    decreases hi - lo
  {
    if hi > lo {
      LineFromGet(m, th, p, lo, hi - 1, w, q);
      var x := Diagonal(m, th, hi - 1);
      var prev := LineFrom(m, th, p, lo, hi - 1, w);
      assert LineFrom(m, th, p, lo, hi, w) == AddCounts(prev, LengthCounts(x), w);
      AddHistogramGet(prev, x, w, q);
      var a, b := DiagRuns(m, th, lo, hi - 1, q), RunCount(x, q);
      WeightedStep(Get(p, q), Get(prev, q), Get(LineFrom(m, th, p, lo, hi, w), q), w, a, b, DiagRuns(m, th, lo, hi, q));
    }
  }

  /** No diagonal above the main one holds a run as long as the plot. */
  lemma {:induction false} DiagRunsShort(m: Matrix, th: real, lo: int, hi: int, q: int)
    requires Square(m) && lo >= 1 && q >= |m|
    ensures DiagRuns(m, th, lo, hi, q) == 0
    decreases hi - lo
  {
    if hi > lo {
      DiagRunsShort(m, th, lo, hi - 1, q);
      var x := Diagonal(m, th, hi - 1);
      RunsFacts(x);
      if q >= 2 {
        CountAbsent(Runs(x), q);
      }
    }
  }

  /** With a symmetric norm the line distribution maps n to 1 and every other
      length to twice its number of runs over the diagonals 1 .. n-1. */
  lemma LineDistSymmetric(m: Matrix, th: real, q: int)
    requires Square(m)
    ensures Get(LineDist(m, th, true), q) == if q == |m| then 1 else 2 * DiagRuns(m, th, 1, |m|, q)
  {
    var seed: Counts := [(|m|, 1)];
    assert Get(seed, q) == if q == |m| then 1 else 0 by {
      assert seed[1..] == [];
    }
    LineFromGet(m, th, seed, 1, |m|, 2, q);
    if q == |m| {
      DiagRunsShort(m, th, 1, |m|, q);
    }
  }

  /** So every count but the seeded one is even. */
  lemma LineDistEven(m: Matrix, th: real, q: int)
    requires Square(m) && q != |m|
    ensures Get(LineDist(m, th, true), q) % 2 == 0
  {
    LineDistSymmetric(m, th, q);
    var d := DiagRuns(m, th, 1, |m|, q);
    assert Get(LineDist(m, th, true), q) == 2 * d;
    EvenDouble(d);
  }

  lemma EvenDouble(d: int)
    ensures (2 * d) % 2 == 0
  {
  }

  /** Otherwise every length maps to its number of runs over all diagonals. */
  lemma LineDistPlain(m: Matrix, th: real, q: int)
    requires Square(m)
    ensures Get(LineDist(m, th, false), q) == DiagRuns(m, th, -|m|, |m|, q)
  {
    LineFromGet(m, th, [], -|m|, |m|, 1, q);
  }

  lemma VertFromGet(m: Matrix, th: real, c: nat, q: int)
    requires Square(m) && c <= |m|
    ensures Get(VertFrom(m, th, c), q) == ColumnRuns(m, th, c, q)
  {
    VertFromAddRuns(m, th, c);
    AddRunsGet([], Columns(m, th, c), 1, q);
    ColumnRunsOf(m, th, c, q);
  }

  /** The vertical distribution maps every length to its number of runs over
      all columns, each column counting once. */
  lemma VertDistGet(m: Matrix, th: real, q: int)
    requires Square(m)
    ensures Get(VertDist(m, th), q) == ColumnRuns(m, th, |m|, q)
  {
    VertFromGet(m, th, |m|, q);
  }

  // ---------------------------------------------------------------- the seeded entry

  lemma {:induction false} AddCountsPrefix(p: Counts, dl: Counts, w: int)
    ensures Keys(p) <= Keys(AddCounts(p, dl, w))
  {
    if dl != [] {
      AddCountsPrefix(p, dl[..|dl| - 1], w);
      var q0 := AddCounts(p, dl[..|dl| - 1], w);
      var item := dl[|dl| - 1];
      SetKeys(q0, item.0, Get(q0, item.0) + w * item.1);
    }
  }

  /** The keys of a come first, in order, among the keys of b. */
  predicate KeysPrefix(a: Counts, b: Counts)
  {
    Keys(a) <= Keys(b)
  }

  lemma PrefixStep(p: Counts, prev: Counts, dl: Counts, w: int)
    requires KeysPrefix(p, prev)
    ensures KeysPrefix(p, AddCounts(prev, dl, w))
  {
    AddCountsPrefix(prev, dl, w);
    var a, b, c := Keys(p), Keys(prev), Keys(AddCounts(prev, dl, w));
    assert c[..|b|][..|a|] == c[..|a|];
  }

  lemma NewKeyStep(p: Counts, prev: Counts, dl: Counts, w: int, q: int, n: int)
    requires DistinctKeys(prev)
    requires q in Keys(prev) && q !in Keys(p) ==> 2 <= q < n
    requires q in Keys(dl) ==> 2 <= q < n
    ensures DistinctKeys(AddCounts(prev, dl, w))
    ensures q in Keys(AddCounts(prev, dl, w)) && q !in Keys(p) ==> 2 <= q < n
  {
    AddCountsKeys(prev, dl, w, q);
  }

  /** Diagonals lo .. hi-1 of the thresholded plot, in loop order. */
  function Diagonals(m: Matrix, th: real, lo: int, hi: int): (xs: seq<seq<int>>)
    requires Square(m)
    ensures |xs| == if hi <= lo then 0 else hi - lo
    ensures forall i :: 0 <= i < |xs| ==> Binary(xs[i])
    decreases hi - lo
  {
    if hi <= lo then [] else Diagonals(m, th, lo, hi - 1) + [Diagonal(m, th, hi - 1)]
  }

  /** Every diagonal from 1 on is binary and shorter than the plot. */
  lemma {:induction false} DiagonalsShort(m: Matrix, th: real, lo: int, hi: int)
    requires Square(m) && lo >= 1
    ensures forall i :: 0 <= i < |Diagonals(m, th, lo, hi)| ==>
      |Diagonals(m, th, lo, hi)[i]| < |m| || Diagonals(m, th, lo, hi)[i] == []
    decreases hi - lo
  {
    if hi > lo {
      DiagonalsShort(m, th, lo, hi - 1);
      var x := Diagonal(m, th, hi - 1);
      assert |x| < |m| || x == [];
    }
  }

  lemma SnocInit(xs: seq<seq<int>>, init: seq<seq<int>>, x: seq<int>)
    requires xs == init + [x]
    ensures xs[..|xs| - 1] == init && xs[|xs| - 1] == x
  {
  }

  /** Adding the histograms of xs one after another, each with weight w. */
  function AddRuns(p: Counts, xs: seq<seq<int>>, w: int): Counts
    requires forall i :: 0 <= i < |xs| ==> Binary(xs[i])
  {
    if xs == [] then p else AddCounts(AddRuns(p, xs[..|xs| - 1], w), LengthCounts(xs[|xs| - 1]), w)
  }

  lemma {:induction false} LineFromAddRuns(m: Matrix, th: real, p: Counts, lo: int, hi: int, w: int)
    requires Square(m)
    ensures LineFrom(m, th, p, lo, hi, w) == AddRuns(p, Diagonals(m, th, lo, hi), w)
    decreases hi - lo
  {
    if hi > lo {
      LineFromAddRuns(m, th, p, lo, hi - 1, w);
      var xs := Diagonals(m, th, lo, hi);
      SnocInit(xs, Diagonals(m, th, lo, hi - 1), Diagonal(m, th, hi - 1));
      assert AddRuns(p, xs, w) == AddCounts(AddRuns(p, Diagonals(m, th, lo, hi - 1), w), LengthCounts(Diagonal(m, th, hi - 1)), w);
    }
  }

  /** Adding histograms of binary sequences shorter than n keeps the keys of
      p first and distinct, and adds only lengths from 2 to n-1. */
  lemma {:induction false} AddRunsKeys(p: Counts, xs: seq<seq<int>>, w: int, q: int, n: int)
    requires DistinctKeys(p)
    requires forall i :: 0 <= i < |xs| ==> Binary(xs[i]) && (|xs[i]| < n || xs[i] == [])
    ensures DistinctKeys(AddRuns(p, xs, w))
    ensures KeysPrefix(p, AddRuns(p, xs, w))
    ensures q in Keys(AddRuns(p, xs, w)) && q !in Keys(p) ==> 2 <= q < n
  {
    if xs == [] {
      assert Keys(p) <= Keys(p);
    } else {
      var init, x := xs[..|xs| - 1], xs[|xs| - 1];
      assert forall i :: 0 <= i < |init| ==> init[i] == xs[i];
      AddRunsKeys(p, init, w, q, n);
      var prev := AddRuns(p, init, w);
      LengthCountsKeys(x, q);
      PrefixStep(p, prev, LengthCounts(x), w);
      NewKeyStep(p, prev, LengthCounts(x), w, q, n);
    }
  }

  /** Adding the diagonals from 1 on keeps the keys of p first and distinct,
      and every key they add is a length from 2 to n-1. */
  lemma LineFromKeys(m: Matrix, th: real, p: Counts, lo: int, hi: int, w: int, q: int)
    requires Square(m) && DistinctKeys(p) && lo >= 1
    ensures DistinctKeys(LineFrom(m, th, p, lo, hi, w))
    ensures KeysPrefix(p, LineFrom(m, th, p, lo, hi, w))
    ensures q in Keys(LineFrom(m, th, p, lo, hi, w)) && q !in Keys(p) ==> 2 <= q < |m|
  {
    var xs := Diagonals(m, th, lo, hi);
    DiagonalsShort(m, th, lo, hi);
    AddRunsKeys(p, xs, w, q, |m|);
    LineFromAddRuns(m, th, p, lo, hi, w);
  }

  /** With a symmetric norm the seeded entry (n, 1) stays first, and every
      other entry is a distinct length from 2 to n-1. */
  lemma LineDistHead(m: Matrix, th: real)
    requires Square(m)
    ensures var d := LineDist(m, th, true);
      d != [] && d[0] == (|m|, 1) && DistinctKeys(d) &&
      forall k :: 1 <= k < |d| ==> 2 <= d[k].0 < |m|
  {
    var seed: Counts := [(|m|, 1)];
    var d := LineDist(m, th, true);
    LineFromKeys(m, th, seed, 1, |m|, 2, 0);
    assert Keys(seed) == [|m|];
    assert Keys(d)[0] == |m|;
    KeysAt(d, 0);
    LineDistSymmetric(m, th, |m|);
    forall k | 1 <= k < |d|
      ensures 2 <= d[k].0 < |m|
    {
      KeysAt(d, k);
      KeysAt(d[1..], k - 1);
      assert d[1..][k - 1] == d[k];
      LineFromKeys(m, th, seed, 1, |m|, 2, d[k].0);
    }
  }

  /** Columns 0 .. c-1 of the thresholded plot, in loop order. */
  function Columns(m: Matrix, th: real, c: nat): (xs: seq<seq<int>>)
    requires Square(m) && c <= |m|
    ensures |xs| == c
    ensures forall i :: 0 <= i < |xs| ==> Binary(xs[i])
  {
    if c == 0 then [] else Columns(m, th, c - 1) + [Column(m, th, c - 1)]
  }

  lemma {:induction false} VertFromAddRuns(m: Matrix, th: real, c: nat)
    requires Square(m) && c <= |m|
    ensures VertFrom(m, th, c) == AddRuns([], Columns(m, th, c), 1)
  {
    if c > 0 {
      VertFromAddRuns(m, th, c - 1);
      var xs := Columns(m, th, c);
      SnocInit(xs, Columns(m, th, c - 1), Column(m, th, c - 1));
      assert AddRuns([], xs, 1) == AddCounts(AddRuns([], Columns(m, th, c - 1), 1), LengthCounts(Column(m, th, c - 1)), 1);
    }
  }

  /** Runs of length q over the sequences of xs. */
  function RunsOf(xs: seq<seq<int>>, q: int): nat
  {
    if xs == [] then 0 else RunsOf(xs[..|xs| - 1], q) + RunCount(xs[|xs| - 1], q)
  }

  lemma {:induction false} ColumnRunsOf(m: Matrix, th: real, c: nat, q: int)
    requires Square(m) && c <= |m|
    ensures ColumnRuns(m, th, c, q) == RunsOf(Columns(m, th, c), q)
  {
    if c > 0 {
      ColumnRunsOf(m, th, c - 1, q);
      var xs := Columns(m, th, c);
      SnocInit(xs, Columns(m, th, c - 1), Column(m, th, c - 1));
    }
  }

  /** Adding the histograms of xs with weight w adds w times their runs of
      each length. */
  lemma {:induction false} AddRunsGet(p: Counts, xs: seq<seq<int>>, w: int, q: int)
    requires forall i :: 0 <= i < |xs| ==> Binary(xs[i])
    ensures Get(AddRuns(p, xs, w), q) == Get(p, q) + w * RunsOf(xs, q)
  {
    if xs != [] {
      var init, x := xs[..|xs| - 1], xs[|xs| - 1];
      assert forall i :: 0 <= i < |init| ==> init[i] == xs[i];
      AddRunsGet(p, init, w, q);
      var prev := AddRuns(p, init, w);
      AddHistogramGet(prev, x, w, q);
      WeightedStep(Get(p, q), Get(prev, q), Get(AddRuns(p, xs, w), q), w, RunsOf(init, q), RunCount(x, q), RunsOf(xs, q));
    }
  }

  lemma {:induction false} AddRunsNonNeg(p: Counts, xs: seq<seq<int>>, w: int)
    requires forall i :: 0 <= i < |xs| ==> Binary(xs[i])
    requires NonNeg(p) && w >= 0
    ensures NonNeg(AddRuns(p, xs, w))
  {
    if xs != [] {
      var init, x := xs[..|xs| - 1], xs[|xs| - 1];
      assert forall i :: 0 <= i < |init| ==> init[i] == xs[i];
      AddRunsNonNeg(p, init, w);
      LengthCountsNonNeg(x);
      AddCountsNonNeg(AddRuns(p, init, w), LengthCounts(x), w);
    }
  }

  // ---------------------------------------------------------------- sorting and maxima

  predicate SortedNat(s: seq<nat>)
  {
    forall i, j :: 0 <= i < j < |s| ==> s[i] <= s[j]
  }

  function Insert(t: seq<nat>, v: nat): (r: seq<nat>)
    ensures multiset(r) == multiset(t) + multiset{v} && |r| == |t| + 1
    ensures SortedNat(t) ==> SortedNat(r)
  {
    if t == [] then [v]
    else if v <= t[0] then [v] + t
    else
      assert t == [t[0]] + t[1..];
      var u := Insert(t[1..], v);
      assert SortedNat(t) ==> SortedNat([t[0]] + u) by {
        if SortedNat(t) {
          ConsSorted(t[0], t[1..], v, u);
        }
      }
      [t[0]] + u
  }

  /** Putting a in front of a sorted arrangement of s and v keeps it sorted
      when a comes before s and v. */
  lemma ConsSorted(a: nat, s: seq<nat>, v: nat, u: seq<nat>)
    requires SortedNat([a] + s) && a < v
    requires multiset(u) == multiset(s) + multiset{v} && (SortedNat(s) ==> SortedNat(u))
    ensures SortedNat([a] + u)
  {
    var t := [a] + s;
    assert SortedNat(s) by {
      forall i, j | 0 <= i < j < |s| ensures s[i] <= s[j] {
        assert t[i + 1] == s[i] && t[j + 1] == s[j];
      }
    }
    forall k | 0 <= k < |u| ensures a <= u[k] {
      assert u[k] in multiset(u);
      if u[k] != v {
        assert u[k] in multiset(s);
        assert u[k] in s;
        assert t[0] == a;
        var j :| 0 <= j < |s| && s[j] == u[k];
        assert t[j + 1] == s[j];
      }
    }
    var r := [a] + u;
    forall i, j | 0 <= i < j < |r| ensures r[i] <= r[j] {
      assert r[j] == u[j - 1];
      if i > 0 {
        assert r[i] == u[i - 1];
      }
    }
  }

  /** np.sort on naturals. */
  function SortNat(s: seq<nat>): (r: seq<nat>)
    ensures SortedNat(r) && multiset(r) == multiset(s) && |r| == |s|
  {
    if s == [] then []
    else
      assert s == s[..|s| - 1] + [s[|s| - 1]];
      Insert(SortNat(s[..|s| - 1]), s[|s| - 1])
  }

  /** The last element of a sorted arrangement of s is the maximum of s. */
  lemma SortedLast(t: seq<nat>, s: seq<nat>)
    requires SortedNat(t) && multiset(t) == multiset(s) && s != []
    ensures |t| == |s| && t[|t| - 1] == MaxOf(s)
  {
    assert |t| == |multiset(t)| == |multiset(s)| == |s|;
    var top := t[|t| - 1];
    assert top in multiset(t);
    assert top in s;
    var mx := MaxOf(s);
    assert mx in multiset(s);
    assert mx in t;
    var k :| 0 <= k < |t| && t[k] == mx;
    assert mx <= top;
    assert top <= mx;
  }

  /** When top is at least every element of rest, the element before the
      last of a sorted arrangement of [top] + rest is the maximum of rest. */
  lemma SortedSecondLast(t: seq<nat>, top: nat, rest: seq<nat>)
    requires SortedNat(t) && multiset(t) == multiset([top] + rest) && rest != []
    requires forall r :: r in rest ==> r <= top
    ensures |t| == |rest| + 1 && t[|t| - 2] == MaxOf(rest)
  {
    var all := [top] + rest;
    SortedLast(t, all);
    MaxIsFirst(top, rest);
    var init := t[..|t| - 1];
    DropLast(t, top, rest);
    SortedPrefix(t);
    SortedLast(init, rest);
    assert init[|init| - 1] == t[|t| - 2];
  }

  lemma DropLast(t: seq<nat>, top: nat, rest: seq<nat>)
    requires |t| >= 2 && t[|t| - 1] == top
    requires multiset(t) == multiset([top] + rest)
    ensures multiset(t[..|t| - 1]) == multiset(rest)
  {
    var init := t[..|t| - 1];
    assert t == init + [t[|t| - 1]];
    assert multiset(t) == multiset(init) + multiset{top};
    assert multiset([top] + rest) == multiset{top} + multiset(rest);
    assert multiset(init) == multiset(t) - multiset{top};
    assert multiset(rest) == multiset([top] + rest) - multiset{top};
  }

  lemma SortedPrefix(t: seq<nat>)
    requires SortedNat(t) && t != []
    ensures SortedNat(t[..|t| - 1])
  {
  }

  lemma MaxIsFirst(top: nat, rest: seq<nat>)
    requires forall r :: r in rest ==> r <= top
    ensures MaxOf([top] + rest) == top
  {
    var all := [top] + rest;
    var mx := MaxOf(all);
    assert all[0] == top;
    assert top <= mx;
    var k :| 0 <= k < |all| && all[k] == mx;
    if k > 0 {
      assert rest[k - 1] == mx;
    }
  }

  /** The lengths of d with a positive count, 0 for the others: the
      l * (n > 0) of _rqa_lv_max without its leading 0. */
  function Lengths(d: Counts): (ls: seq<nat>)
    ensures |ls| == |d|
  {
    seq(|d|, i requires 0 <= i < |d| => if d[i].1 > 0 then d[i].0 else 0)
  }

  /** The longest length with a positive count, or 0 when there is none. */
  function Longest(d: Counts): nat
  {
    MaxOf([0] + Lengths(d))
  }

  lemma LongestMeaning(d: Counts)
    ensures forall i :: 0 <= i < |d| && d[i].1 > 0 ==> d[i].0 <= Longest(d)
    ensures Longest(d) == 0 || exists i :: 0 <= i < |d| && d[i].1 > 0 && d[i].0 == Longest(d)
  {
    var ls := [0] + Lengths(d);
    forall i | 0 <= i < |d| && d[i].1 > 0 ensures d[i].0 <= Longest(d) {
      assert ls[i + 1] == d[i].0;
      assert ls[i + 1] in ls;
    }
    if Longest(d) != 0 {
      var k :| 0 <= k < |ls| && ls[k] == Longest(d);
      assert k > 0 && d[k - 1].1 > 0 && d[k - 1].0 == Longest(d);
    }
  }

  /** _rqa_lv_max's value before it is stored: entry -offset of the sorted
      [0] + lengths, or IndexError when there are fewer than offset entries. */
  function LvMaxSpec(d: Counts, offset: nat): Result<nat>
    requires offset >= 1
  {
    var ls := [0] + Lengths(d);
    if |ls| < offset then Err(IndexError) else Ok(SortNat(ls)[|ls| - offset])
  }

  /** v_max is the longest length with a positive count, or 0. */
  lemma VMaxIsLongest(d: Counts)
    ensures LvMaxSpec(d, 1) == Ok(Longest(d))
  {
    var ls := [0] + Lengths(d);
    SortedLast(SortNat(ls), ls);
  }

  /** l_max with a symmetric norm skips the seeded main diagonal: it is the
      longest other line with a positive count, or 0. */
  lemma LMaxSkipsSeed(m: Matrix, th: real)
    requires Square(m)
    ensures var d := LineDist(m, th, true);
      d != [] && d[0] == (|m|, 1) && LvMaxSpec(d, 2) == Ok(Longest(d[1..]))
  {
    LineDistHead(m, th);
    SkipHead(LineDist(m, th, true), |m|);
  }

  /** A distribution headed by (n, 1) whose other lengths are below n has
      entry -2 of its sorted lengths equal to the longest of the others. */
  lemma SkipHead(d: Counts, n: nat)
    requires d != [] && d[0] == (n, 1)
    requires forall k :: 1 <= k < |d| ==> d[k].0 < n
    ensures LvMaxSpec(d, 2) == Ok(Longest(d[1..]))
  {
    var rest := [0] + Lengths(d[1..]);
    var ls := [0] + Lengths(d);
    assert Lengths(d) == [n] + Lengths(d[1..]);
    assert multiset(ls) == multiset([n] + rest) by {
      assert ls == [0] + [n] + Lengths(d[1..]);
      assert [n] + rest == [n] + [0] + Lengths(d[1..]);
    }
    forall r | r in rest ensures r <= n {
      var k :| 0 <= k < |rest| && rest[k] == r;
      if k > 0 {
        assert d[1..][k - 1] == d[k];
      }
    }
    SortedSecondLast(SortNat(ls), n, rest);
  }

  lemma {:induction false} LineFromNonNeg(m: Matrix, th: real, p: Counts, lo: int, hi: int, w: int)
    requires Square(m) && NonNeg(p) && w >= 0
    ensures NonNeg(LineFrom(m, th, p, lo, hi, w))
    decreases hi - lo
  {
    if hi > lo {
      LineFromNonNeg(m, th, p, lo, hi - 1, w);
      var x := Diagonal(m, th, hi - 1);
      LengthCountsNonNeg(x);
      AddCountsNonNeg(LineFrom(m, th, p, lo, hi - 1, w), LengthCounts(x), w);
    }
  }

  lemma VertFromNonNeg(m: Matrix, th: real, c: nat)
    requires Square(m) && c <= |m|
    ensures NonNeg(VertFrom(m, th, c))
  {
    VertFromAddRuns(m, th, c);
    AddRunsNonNeg([], Columns(m, th, c), 1);
  }

  /** Both distributions hold only non-negative counts. */
  lemma LineDistNonNeg(m: Matrix, th: real, symmetric: bool)
    requires Square(m)
    ensures NonNeg(LineDist(m, th, symmetric))
  {
    if symmetric {
      var seed: Counts := [(|m|, 1)];
      assert NonNeg(seed);
      LineFromNonNeg(m, th, seed, 1, |m|, 2);
      assert LineDist(m, th, true) == LineFrom(m, th, seed, 1, |m|, 2);
    } else {
      LineFromNonNeg(m, th, [], -|m|, |m|, 1);
    }
  }

  lemma VertDistNonNeg(m: Matrix, th: real)
    requires Square(m)
    ensures NonNeg(VertDist(m, th))
  {
    VertFromNonNeg(m, th, |m|);
  }

  // ---------------------------------------------------------------- measures

  /** The test _rqa_lv_dist_min applies to each entry: length at least mMin
      and a non-zero count. */
  function Keep(mMin: real): ((nat, int)) -> bool
  {
    (e: (nat, int)) => e.0 as real >= mMin && e.1 != 0
  }

  /** The entries _rqa_lv_dist_min keeps, in dictionary order. */
  function Selected(d: Counts, mMin: real): Counts
  {
    Filter(d, Keep(mMin))
  }

  /** Selecting entry by entry: appending an entry appends it to the
      selection exactly when it passes the test. */
  lemma SelectedSnoc(d: Counts, e: (nat, int), mMin: real)
    ensures Selected(d + [e], mMin) ==
      Selected(d, mMin) + (if e.0 as real >= mMin && e.1 != 0 then [e] else [])
  {
    FilterAppend(d, [e], Keep(mMin));
    assert [e][1..] == [];
  }

  /** l.astype(float).dot(p). */
  function Dot(l: seq<nat>, p: seq<int>): real
    requires |l| == |p|
  {
    if l == [] then 0.0 else (l[0] as real) * (p[0] as real) + Dot(l[1..], p[1..])
  }

  /** p.sum(). */
  function Total(p: seq<int>): real
  {
    if p == [] then 0.0 else p[0] as real + Total(p[1..])
  }

  /** numpy division: finite only when both operands are and the divisor is
      not zero, otherwise nan or inf. No divisor here is ever infinite. */
  function FDiv(a: Float, b: Float): Float
  {
    if a.Fin? && b.Fin? && b.val != 0.0 then Fin(a.val / b.val) else NonFinite
  }

  function FScale(a: Float, k: real): Float
  {
    if a.Fin? then Fin(a.val * k) else NonFinite
  }

  /** rqa_rr(th) * n * n, the divisor of det and lam. */
  function RateDen(m: Matrix, th: real): Float
  {
    FScale(RRSpec(m, th), (|m| * |m|) as real)
  }

  /** det and lam: the points on selected lines over rr * n * n. */
  function Fraction(d: Counts, mMin: real, m: Matrix, th: real): Float
  {
    var s := Selected(d, mMin);
    FDiv(Fin(Dot(Keys(s), Values(s))), RateDen(m, th))
  }

  /** l and tt: the points on selected lines over the number of selected lines. */
  function MeanLength(d: Counts, mMin: real): Float
  {
    var s := Selected(d, mMin);
    FDiv(Fin(Dot(Keys(s), Values(s))), Fin(Total(Values(s))))
  }

  /** The divisor of det and lam is the number of recurrent points. */
  lemma RateDenCount(m: Matrix, th: real)
    requires |m| > 0
    ensures RateDen(m, th) == Fin(CountBelow(m, th) as real)
  {
    var n := |m|;
    SquarePositive(n);
    var c, t := CountBelow(m, th) as real, (n * n) as real;
    DivMul(c, t);
    assert RRSpec(m, th) == Fin(c / t);
  }

  lemma SquarePositive(n: int)
    requires n > 0
    ensures (n * n) as real > 0.0
  {
    assert n * n >= n by {
      assert n * n == n * (n - 1) + n;
      assert n * (n - 1) >= 0;
    }
  }

  lemma DivMul(c: real, t: real)
    requires t > 0.0
    ensures c / t * t == c
  {
  }

  /** So det and lam are the points on selected lines over the recurrent
      points, and not finite exactly when there is no recurrent point. */
  lemma FractionMeaning(d: Counts, mMin: real, m: Matrix, th: real)
    ensures var s := Selected(d, mMin);
      Fraction(d, mMin, m, th) ==
        if |m| > 0 && CountBelow(m, th) > 0 then Fin(Dot(Keys(s), Values(s)) / CountBelow(m, th) as real)
        else NonFinite
  {
    if |m| > 0 {
      RateDenCount(m, th);
    }
  }

  lemma MulAtLeast(k: real, lo: real, c: real)
    requires k >= lo && c >= 0.0
    ensures k * c >= lo * c
  {
    assert (k - lo) * c >= 0.0;
  }

  lemma {:induction false} DotAtLeast(s: Counts, mMin: real)
    requires forall i :: 0 <= i < |s| ==> s[i].0 as real >= mMin && s[i].1 > 0
    ensures Dot(Keys(s), Values(s)) >= mMin * Total(Values(s))
    ensures s != [] ==> Total(Values(s)) > 0.0
  {
    if s != [] {
      var t := s[1..];
      assert forall i :: 0 <= i < |t| ==> t[i] == s[i + 1];
      DotAtLeast(t, mMin);
      assert Keys(s)[1..] == Keys(t) && Values(s)[1..] == Values(t);
      var k, c := s[0].0 as real, s[0].1 as real;
      MulAtLeast(k, mMin, c);
      var dt, tt := Dot(Keys(t), Values(t)), Total(Values(t));
      assert Dot(Keys(s), Values(s)) == k * c + dt;
      assert Total(Values(s)) == c + tt;
      SumAtLeast(k * c, dt, c, tt, mMin, Dot(Keys(s), Values(s)), Total(Values(s)));
    }
  }

  /** The bound a >= lo * c adds up over a head and a tail. */
  lemma SumAtLeast(a: real, dt: real, c: real, tt: real, lo: real, dot: real, total: real)
    requires a >= lo * c && dt >= lo * tt && dot == a + dt && total == c + tt
    ensures dot >= lo * total
  {
    assert lo * total == lo * c + lo * tt;
  }

  lemma QuotientAtLeast(a: real, t: real, lo: real)
    requires t > 0.0 && a >= lo * t
    ensures a / t >= lo
  {
    var v := a / t;
    assert v * t == a;
    if v < lo {
      MulPositive(lo - v, t);
    }
  }

  lemma MulPositive(x: real, y: real)
    requires x > 0.0 && y > 0.0
    ensures x * y > 0.0
  {
  }

  /** l and tt are at least the minimum length when some line is selected,
      and not finite when none is. */
  lemma MeanAtLeast(d: Counts, mMin: real)
    requires NonNeg(d)
    ensures Selected(d, mMin) == [] ==> MeanLength(d, mMin) == NonFinite
    ensures Selected(d, mMin) != [] ==>
      MeanLength(d, mMin).Fin? && MeanLength(d, mMin).val >= mMin
  {
    var s := Selected(d, mMin);
    forall i | 0 <= i < |s| ensures s[i].0 as real >= mMin && s[i].1 > 0 {
      assert s[i] in s;
      var k :| 0 <= k < |d| && d[k] == s[i];
    }
    DotAtLeast(s, mMin);
    if s != [] {
      QuotientAtLeast(Dot(Keys(s), Values(s)), Total(Values(s)), mMin);
    }
  }
}
