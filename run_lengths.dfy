/** count_seq of recurrence/recurrence.py: the histogram of the lengths of the
    maximal runs of 1s in a 0/1 vector, and the count dictionaries the
    recurrence measures accumulate. Dictionary keys str(length) are modelled
    by the lengths themselves. */
module RunLengths {
  import opened Base

  // ---------------------------------------------------------------- runs

  /** A vector of 0s and 1s, as (rplot < th).astype(int) produces. */
  ghost predicate Binary(x: seq<int>)
  {
    forall k :: 0 <= k < |x| ==> x[k] == 0 || x[k] == 1
  }

  /** Reading x left to right: the lengths of the runs of 1s already ended by
      a 0, and the length of the run still open at the end. */
  function Scan(x: seq<int>): (seq<nat>, nat)
  {
    if x == [] then ([], 0)
    else
      var prev := Scan(x[..|x| - 1]);
      if x[|x| - 1] == 1 then (prev.0, prev.1 + 1)
      else if prev.1 > 0 then (prev.0 + [prev.1], 0)
      else (prev.0, 0)
  }

  /** The lengths of the maximal runs of 1s, left to right: what
      stop - start + 1 pairs up in count_seq. */
  function Runs(x: seq<int>): seq<nat>
  {
    var s := Scan(x);
    if s.1 > 0 then s.0 + [s.1] else s.0
  }

  function Ones(x: seq<int>): nat
  {
    if x == [] then 0 else Ones(x[..|x| - 1]) + (if x[|x| - 1] == 1 then 1 else 0)
  }

  function Sum(s: seq<nat>): nat
  {
    if s == [] then 0 else Sum(s[..|s| - 1]) + s[|s| - 1]
  }

  lemma SumSnoc(s: seq<nat>, v: nat)
    ensures Sum(s + [v]) == Sum(s) + v
  {
    assert (s + [v])[..|s|] == s;
  }

  lemma {:induction false} ScanFacts(x: seq<int>)
    ensures var s := Scan(x);
      Sum(s.0) + s.1 == Ones(x) && s.1 <= |x| &&
      forall r :: r in s.0 ==> 1 <= r <= |x|
  {
    if x != [] {
      ScanFacts(x[..|x| - 1]);
      var prev := Scan(x[..|x| - 1]);
      if x[|x| - 1] != 1 && prev.1 > 0 {
        SumSnoc(prev.0, prev.1);
      }
    }
  }

  /** Every run has a length between 1 and |x|, and the runs together hold
      every 1 of x exactly once. */
  lemma RunsFacts(x: seq<int>)
    ensures forall r :: r in Runs(x) ==> 1 <= r <= |x|
    ensures Sum(Runs(x)) == Ones(x)
  {
    ScanFacts(x);
    var s := Scan(x);
    if s.1 > 0 {
      SumSnoc(s.0, s.1);
    }
  }

  function AllOnes(r: nat): (x: seq<int>)
    ensures |x| == r && forall k :: 0 <= k < r ==> x[k] == 1
  {
    seq(r, k => 1)
  }

  lemma {:induction false} ScanOnes(r: nat)
    ensures Scan(AllOnes(r)) == ([], r)
  {
    if r > 0 {
      assert AllOnes(r)[..r - 1] == AllOnes(r - 1);
      ScanOnes(r - 1);
    }
  }

  /** A block of r > 0 ones is one run of length r. */
  lemma RunsOnes(r: nat)
    requires r > 0
    ensures Runs(AllOnes(r)) == [r]
  {
    ScanOnes(r);
  }

  lemma {:induction false} ScanAfterZero(x: seq<int>, y: seq<int>)
    ensures Scan(x + [0] + y) == (Runs(x) + Scan(y).0, Scan(y).1)
  {
    var z := x + [0] + y;
    if y == [] {
      assert z == x + [0];
      assert z[..|z| - 1] == x;
      assert Runs(x) + [] == Runs(x);
    } else {
      var y0 := y[..|y| - 1];
      assert z[..|z| - 1] == x + [0] + y0;
      assert z[|z| - 1] == y[|y| - 1];
      ScanAfterZero(x, y0);
      var s0 := Scan(y0);
      assert (Runs(x) + s0.0) + [s0.1] == Runs(x) + (s0.0 + [s0.1]);
    }
  }

  /** A 0 separates runs: the runs of x, 0, y are those of x followed by those of y. */
  lemma RunsSplit(x: seq<int>, y: seq<int>)
    ensures Runs(x + [0] + y) == Runs(x) + Runs(y)
  {
    ScanAfterZero(x, y);
  }

  // ---------------------------------------------------------------- counting

  function Count(s: seq<nat>, l: int): nat
  {
    if s == [] then 0 else Count(s[..|s| - 1], l) + (if s[|s| - 1] == l then 1 else 0)
  }

  lemma {:induction false} CountAbsent(s: seq<nat>, l: int)
    requires l !in s
    ensures Count(s, l) == 0
  {
    if s != [] {
      assert s[..|s| - 1] <= s;
      CountAbsent(s[..|s| - 1], l);
    }
  }

  function MinOf(s: seq<nat>): (m: nat)
    requires s != []
    ensures m in s && forall r :: r in s ==> m <= r
  {
    if |s| == 1 then s[0]
    else
      var m := MinOf(s[1..]);
      assert forall r :: r in s ==> r == s[0] || r in s[1..];
      if s[0] < m then s[0] else m
  }

  function MaxOf(s: seq<nat>): (m: nat)
    requires s != []
    ensures m in s && forall r :: r in s ==> r <= m
  {
    if |s| == 1 then s[0]
    else
      var m := MaxOf(s[1..]);
      assert forall r :: r in s ==> r == s[0] || r in s[1..];
      if s[0] > m then s[0] else m
  }

  // ---------------------------------------------------------------- count dictionaries

  /** A dictionary from a length to a count, its entries in insertion order. */
  type Counts = seq<(nat, int)>

  function Keys(d: Counts): (ks: seq<nat>)
    ensures |ks| == |d|
  {
    if d == [] then [] else [d[0].0] + Keys(d[1..])
  }

  function Values(d: Counts): (vs: seq<int>)
    ensures |vs| == |d|
  {
    if d == [] then [] else [d[0].1] + Values(d[1..])
  }

  /** No key occurs twice, as in a Python dictionary. */
  predicate DistinctKeys(d: Counts)
  {
    d == [] || (d[0].0 !in Keys(d[1..]) && DistinctKeys(d[1..]))
  }

  /** d.get(key, 0). */
  function Get(d: Counts, key: int): int
  {
    if d == [] then 0 else if d[0].0 == key then d[0].1 else Get(d[1..], key)
  }

  /** d[key] = v: an existing entry keeps its place, a new one goes last. */
  function Set(d: Counts, key: nat, v: int): Counts
  {
    if d == [] then [(key, v)]
    else if d[0].0 == key then [(key, v)] + d[1..]
    else [d[0]] + Set(d[1..], key, v)
  }

  lemma {:induction false} KeysAt(d: Counts, k: nat)
    requires k < |d|
    ensures Keys(d)[k] == d[k].0
  {
    if k > 0 {
      KeysAt(d[1..], k - 1);
    }
  }

  /** A key of d is the key of some entry. */
  lemma {:induction false} KeyIndex(d: Counts, q: int) returns (k: nat)
    requires q in Keys(d)
    ensures k < |d| && d[k].0 == q
  {
    if d[0].0 == q {
      k := 0;
    } else {
      var j := KeyIndex(d[1..], q);
      k := j + 1;
    }
  }

  lemma {:induction false} KeysSnoc(d: Counts, e: (nat, int))
    ensures Keys(d + [e]) == Keys(d) + [e.0]
  {
    if d != [] {
      assert (d + [e])[1..] == d[1..] + [e];
      KeysSnoc(d[1..], e);
    }
  }

  lemma {:induction false} ValuesSnoc(d: Counts, e: (nat, int))
    ensures Values(d + [e]) == Values(d) + [e.1]
  {
    if d != [] {
      assert (d + [e])[1..] == d[1..] + [e];
      ValuesSnoc(d[1..], e);
    }
  }

  /** Assigning a key adds it to the keys, at the end when it is new. */
  lemma {:induction false} SetKeys(d: Counts, key: nat, v: int)
    ensures Keys(Set(d, key, v)) == if key in Keys(d) then Keys(d) else Keys(d) + [key]
  {
    if d != [] && d[0].0 != key {
      SetKeys(d[1..], key, v);
      assert key in Keys(d) <==> key in Keys(d[1..]);
    }
  }

  lemma {:induction false} GetSet(d: Counts, key: nat, v: int, q: int)
    ensures Get(Set(d, key, v), q) == if q == key then v else Get(d, q)
  {
    if d != [] && d[0].0 != key {
      GetSet(d[1..], key, v, q);
    }
  }

  lemma {:induction false} SetDistinct(d: Counts, key: nat, v: int)
    requires DistinctKeys(d)
    ensures DistinctKeys(Set(d, key, v))
  {
    if d != [] && d[0].0 != key {
      SetDistinct(d[1..], key, v);
      SetKeys(d[1..], key, v);
    }
  }

  lemma {:induction false} GetAbsent(d: Counts, key: int)
    requires key !in Keys(d)
    ensures Get(d, key) == 0
  {
    if d != [] {
      GetAbsent(d[1..], key);
    }
  }

  lemma {:induction false} GetAt(d: Counts, k: nat)
    requires DistinctKeys(d) && k < |d|
    ensures Get(d, d[k].0) == d[k].1
  {
    if k > 0 {
      KeysAt(d[1..], k - 1);
      assert d[1..][k - 1] == d[k];
      GetAt(d[1..], k - 1);
    }
  }

  /** Keys that differ position by position are distinct. */
  lemma {:induction false} DistinctByIndex(d: Counts)
    requires forall a, b :: 0 <= a < b < |d| ==> d[a].0 != d[b].0
    ensures DistinctKeys(d)
  {
    if d != [] {
      var t := d[1..];
      assert forall a, b :: 0 <= a < b < |t| ==> t[a].0 != t[b].0 by {
        forall a, b | 0 <= a < b < |t| ensures t[a].0 != t[b].0 {
          assert t[a] == d[a + 1] && t[b] == d[b + 1];
        }
      }
      DistinctByIndex(t);
      if d[0].0 in Keys(t) {
        var k := KeyIndex(t, d[0].0);
      }
    }
  }

  lemma {:induction false} DistinctSnoc(d: Counts, e: (nat, int))
    ensures DistinctKeys(d + [e]) <==> DistinctKeys(d) && e.0 !in Keys(d)
  {
    if d != [] {
      assert (d + [e])[1..] == d[1..] + [e];
      KeysSnoc(d[1..], e);
      DistinctSnoc(d[1..], e);
    }
  }

  /** dl added into p with weight w, item by item in dl's order: the inner loop
      of rqa_l_freq_dist and rqa_v_freq_dist. */
  function AddCounts(p: Counts, dl: Counts, w: int): Counts
  {
    if dl == [] then p
    else
      var q := AddCounts(p, dl[..|dl| - 1], w);
      var item := dl[|dl| - 1];
      Set(q, item.0, Get(q, item.0) + w * item.1)
  }

  lemma {:induction false} GetSnocGeneral(d: Counts, e: (nat, int), q: int)
    ensures Get(d + [e], q) == if q in Keys(d) then Get(d, q) else if e.0 == q then e.1 else 0
  {
    if d != [] {
      assert (d + [e])[1..] == d[1..] + [e];
      if d[0].0 != q {
        GetSnocGeneral(d[1..], e, q);
      }
    }
  }

  lemma GetSnoc(d: Counts, e: (nat, int), q: int)
    requires DistinctKeys(d + [e])
    ensures Get(d + [e], q) == Get(d, q) + (if e.0 == q then e.1 else 0)
  {
    GetSnocGeneral(d, e, q);
    DistinctSnoc(d, e);
    if q !in Keys(d) {
      GetAbsent(d, q);
    }
  }

  lemma Distribute(w: int, a: int, b: int)
    ensures w * (a + b) == w * a + w * b
  {
  }

  /** Adding dl with weight w adds w times dl's count to every key. */
  lemma {:induction false} AddCountsGet(p: Counts, dl: Counts, w: int, q: int)
    requires DistinctKeys(dl)
    ensures Get(AddCounts(p, dl, w), q) == Get(p, q) + w * Get(dl, q)
  {
    if dl != [] {
      var init := dl[..|dl| - 1];
      var item := dl[|dl| - 1];
      assert dl == init + [item];
      DistinctSnoc(init, item);
      AddCountsGet(p, init, w, q);
      var q0 := AddCounts(p, init, w);
      var v := Get(q0, item.0) + w * item.1;
      GetSet(q0, item.0, v, q);
      GetSnoc(init, item, q);
      var a := Get(init, q);
      if q == item.0 {
        Distribute(w, a, item.1);
      }
    }
  }

  /** No key appears but those of p and dl, and the keys stay distinct. */
  lemma {:induction false} AddCountsKeys(p: Counts, dl: Counts, w: int, q: int)
    requires DistinctKeys(p)
    ensures DistinctKeys(AddCounts(p, dl, w))
    ensures q in Keys(AddCounts(p, dl, w)) <==> q in Keys(p) || q in Keys(dl)
  {
    if dl != [] {
      var init := dl[..|dl| - 1];
      var item := dl[|dl| - 1];
      assert dl == init + [item];
      AddCountsKeys(p, init, w, q);
      var q0 := AddCounts(p, init, w);
      var v := Get(q0, item.0) + w * item.1;
      SetDistinct(q0, item.0, v);
      SetKeys(q0, item.0, v);
      KeysSnoc(init, item);
    }
  }

  /** The loop over dl.iteritems() adding each item with weight w. */
  method AddItems(p: Counts, dl: Counts, w: int) returns (r: Counts)
    ensures r == AddCounts(p, dl, w)
  {
    r := p;
    var k := 0;
    while k < |dl|
      invariant 0 <= k <= |dl|
      invariant r == AddCounts(p, dl[..k], w)
    {
      var item := dl[k];
      assert dl[..k + 1][..k] == dl[..k];
      r := Set(r, item.0, Get(r, item.0) + w * item.1);
      k := k + 1;
    }
    assert dl[..k] == dl;
  }

  /** Assigning a new key appends its entry. */
  lemma {:induction false} SetNew(d: Counts, key: nat, v: int)
    requires key !in Keys(d)
    ensures Set(d, key, v) == d + [(key, v)]
  {
    if d != [] {
      SetNew(d[1..], key, v);
      assert d == [d[0]] + d[1..];
    }
  }

  /** The keys of a dictionary whose k-th key is lo + k are the range from lo. */
  lemma RangeKeys(r: Counts, lo: int, q: int)
    requires forall k :: 0 <= k < |r| ==> r[k].0 == lo + k
    ensures q in Keys(r) <==> lo <= q < lo + |r|
  {
    if lo <= q < lo + |r| {
      var k := q - lo;
      KeysAt(r, k);
      assert r[k].0 == q;
      assert Keys(r)[k] == q;
    }
    if q in Keys(r) {
      var k := KeyIndex(r, q);
      assert r[k].0 == lo + k;
    }
  }

  lemma {:induction false} DistinctRange(r: Counts, lo: int)
    requires forall k :: 0 <= k < |r| ==> r[k].0 == lo + k
    ensures DistinctKeys(r)
  {
    DistinctByIndex(r);
  }

  // ---------------------------------------------------------------- count_seq

  /** The histogram count_seq(x) returns: for each length from max(shortest run, 2)
      up to the longest run, the number of runs of that length; {} when x has no run. */
  function LengthCounts(x: seq<int>): (r: Counts)
    requires Binary(x)
  {
    var d := Runs(x);
    if d == [] then []
    else
      var lo := Max(MinOf(d), 2);
      var hi := MaxOf(d);
      seq(if hi + 1 - lo > 0 then hi + 1 - lo else 0, k requires 0 <= k < hi + 1 - lo => (lo + k, Count(d, lo + k)))
  }

  /** count_seq: the loop over the lengths from max(shortest run, 2) to the
      longest run, storing each length's number of runs. */
  method CountSeq(x: seq<int>) returns (ld: Counts)
    requires Binary(x)
    ensures ld == LengthCounts(x)
  {
    var d := Runs(x);
    ld := [];
    if |d| > 0 {
      var lo := Max(MinOf(d), 2);
      var hi := MaxOf(d);
      var ll := lo;
      while ll < hi + 1
        invariant lo <= ll && (ll <= hi + 1 || ll == lo)
        invariant |ld| == ll - lo
        invariant forall k :: 0 <= k < |ld| ==> ld[k] == (lo + k, Count(d, lo + k))
      {
        RangeKeys(ld, lo, ll);
        SetNew(ld, ll, Count(d, ll));
        ld := Set(ld, ll, Count(d, ll));
        ll := ll + 1;
      }
      assert |ld| == if hi + 1 - lo > 0 then hi + 1 - lo else 0;
    }
  }

  /** The keys are exactly the lengths from max(shortest run, 2) to the
      longest run, each once, so lengths 1 and 0 never appear and a vector
      without a run gives {}; every key is a possible run length of x. */
  lemma LengthCountsKeys(x: seq<int>, l: int)
    requires Binary(x)
    ensures DistinctKeys(LengthCounts(x))
    ensures l in Keys(LengthCounts(x)) <==>
      Runs(x) != [] && Max(MinOf(Runs(x)), 2) <= l <= MaxOf(Runs(x))
    ensures l in Keys(LengthCounts(x)) ==> 2 <= l <= |x|
  {
    var d := Runs(x);
    RunsFacts(x);
    var r := LengthCounts(x);
    if d != [] {
      var lo := Max(MinOf(d), 2);
      assert forall k :: 0 <= k < |r| ==> r[k].0 == lo + k;
      DistinctRange(r, lo);
      RangeKeys(r, lo, l);
    }
  }

  /** Every length from 2 on is mapped to its number of runs (0 when absent),
      and lengths below 2 to nothing. */
  lemma LengthCountsValue(x: seq<int>, l: int)
    requires Binary(x)
    ensures Get(LengthCounts(x), l) == if l >= 2 then Count(Runs(x), l) else 0
  {
    var d := Runs(x);
    var r := LengthCounts(x);
    LengthCountsKeys(x, l);
    if l in Keys(r) {
      var lo := Max(MinOf(d), 2);
      assert r[l - lo] == (l, Count(d, l));
      GetAt(r, l - lo);
    } else {
      GetAbsent(r, l);
      if l >= 2 {
        assert l !in d;
        CountAbsent(d, l);
      }
    }
  }

  /** The number of maximal runs of 1s of length q in x, counting only q >= 2. */
  function RunCount(x: seq<int>, q: int): nat
  {
    if q >= 2 then Count(Runs(x), q) else 0
  }

  /** Adding the histogram of x with weight w adds w times its runs of each length. */
  lemma AddHistogramGet(p: Counts, x: seq<int>, w: int, q: int)
    requires Binary(x)
    ensures Get(AddCounts(p, LengthCounts(x), w), q) == Get(p, q) + w * RunCount(x, q)
  {
    LengthCountsKeys(x, q);
    LengthCountsValue(x, q);
    AddCountsGet(p, LengthCounts(x), w, q);
  }

  // ---------------------------------------------------------------- non-negative counts

  predicate NonNeg(d: Counts)
  {
    forall i :: 0 <= i < |d| ==> d[i].1 >= 0
  }

  lemma {:induction false} GetNonNeg(d: Counts, key: int)
    requires NonNeg(d)
    ensures Get(d, key) >= 0
  {
    if d != [] && d[0].0 != key {
      GetNonNeg(d[1..], key);
    }
  }

  lemma {:induction false} SetNonNeg(d: Counts, key: nat, v: int)
    requires NonNeg(d) && v >= 0
    ensures NonNeg(Set(d, key, v))
  {
    if d != [] && d[0].0 != key {
      SetNonNeg(d[1..], key, v);
    }
  }

  /** Adding non-negative counts with a non-negative weight keeps every count non-negative. */
  lemma {:induction false} AddCountsNonNeg(p: Counts, dl: Counts, w: int)
    requires NonNeg(p) && NonNeg(dl) && w >= 0
    ensures NonNeg(AddCounts(p, dl, w))
  {
    if dl != [] {
      var init := dl[..|dl| - 1];
      var item := dl[|dl| - 1];
      AddCountsNonNeg(p, init, w);
      var q0 := AddCounts(p, init, w);
      GetNonNeg(q0, item.0);
      assert item.1 >= 0;
      assert w * item.1 >= 0;
      SetNonNeg(q0, item.0, Get(q0, item.0) + w * item.1);
    }
  }

  lemma LengthCountsNonNeg(x: seq<int>)
    requires Binary(x)
    ensures NonNeg(LengthCounts(x))
  {
    var r := LengthCounts(x);
    forall i | 0 <= i < |r|
      ensures r[i].1 >= 0
    {
      LengthCountsEntry(x, i);
    }
  }

  lemma LengthCountsEntry(x: seq<int>, i: nat)
    requires Binary(x) && i < |LengthCounts(x)|
    ensures LengthCounts(x)[i].1 >= 0
  {
    var d := Runs(x);
    var r := LengthCounts(x);
    assert d != [];
    var lo := Max(MinOf(d), 2);
    var hi := MaxOf(d);
    assert r == seq(if hi + 1 - lo > 0 then hi + 1 - lo else 0, k requires 0 <= k < hi + 1 - lo => (lo + k, Count(d, lo + k)));
    assert r[i].1 == Count(d, lo + i);
  }
}
