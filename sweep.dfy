/** The mask-to-rectangles sweep inside FitsIO.new_flagset_from_array
    (dw/core/io.py): columns are visited left to right while a dictionary of open
    row runs, each with the column where it opened, is closed and extended. */
module Sweep {
  import opened Base
  import FitsFlags

  /** The dictionary key (start row, stop row), both inclusive. */
  datatype Run = Run(s: int, e: int)

  /** A dictionary entry: the run and the column where it was opened. */
  datatype OpenRect = OpenRect(run: Run, since: int)

  predicate WfRun(r: Run, h: nat)
  {
    0 <= r.s <= r.e < h
  }

  predicate WfOpen(open: seq<OpenRect>, h: nat)
  {
    forall k :: 0 <= k < |open| ==> WfRun(open[k].run, h)
  }

  function Keys(open: seq<OpenRect>): (ks: seq<Run>)
    ensures |ks| == |open| && forall k :: 0 <= k < |open| ==> ks[k] == open[k].run
  {
    seq(|open|, k requires 0 <= k < |open| => open[k].run)
  }

  /** Column i of the mask, A[:, i]. */
  function Column(A: seq<seq<int>>, L: nat, i: nat): (col: seq<int>)
    requires IsMatrix(A, L) && i < L
    ensures |col| == |A| && forall j :: 0 <= j < |A| ==> col[j] == A[j][i]
  {
    seq(|A|, j requires 0 <= j < |A| => A[j][i])
  }

  // ------------------------------------------------------------- closing phase

  predicate MinOne(col: seq<int>, r: Run)
    requires WfRun(r, |col|)
  {
    r.s != 0 && col[r.s - 1] == FLAG_TRUE
  }

  predicate PlusOne(col: seq<int>, r: Run)
    requires WfRun(r, |col|)
  {
    r.e != |col| - 1 && col[r.e + 1] == FLAG_TRUE
  }

  predicate AllTrue(col: seq<int>, r: Run)
    requires WfRun(r, |col|)
  {
    forall k :: r.s <= k <= r.e ==> col[k] == FLAG_TRUE
  }

  predicate AnyFalse(col: seq<int>, r: Run)
    requires WfRun(r, |col|)
  {
    exists k :: r.s <= k <= r.e && col[k] == FLAG_FALSE
  }

  /** The first inner loop of a column over the first k keys: a run still open in
      the last column, exactly matching it, is emitted up to that column; a run
      the column breaks or widens is emitted up to the previous column and
      deleted; any other run stays open. */
  function CloseUpTo(col: seq<int>, last: bool, i: int, open: seq<OpenRect>, k: nat): (r: (seq<FitsFlags.Rect>, seq<OpenRect>))
    requires WfOpen(open, |col|) && k <= |open|
    ensures forall x :: x in r.1 ==> x in open[..k]
    ensures WfOpen(r.1, |col|)
  {
    if k == 0 then ([], [])
    else
      var prev := CloseUpTo(col, last, i, open, k - 1);
      var o := open[k - 1];
      var run := o.run;
      assert open[..k] == open[..k - 1] + [o];
      if last && AllTrue(col, run) && !MinOne(col, run) && !PlusOne(col, run) then
        (prev.0 + [FitsFlags.Rect(run.s, run.e, o.since, i)], prev.1 + [o])
      else if AnyFalse(col, run) || MinOne(col, run) || PlusOne(col, run) then
        (prev.0 + [FitsFlags.Rect(run.s, run.e, o.since, i - 1)], prev.1)
      else
        (prev.0, prev.1 + [o])
  }

  // ---------------------------------------------------------------- scan phase

  /** The scan loop's variables newRectangle, start and the dictionary. */
  datatype ScanState = ScanState(newRect: bool, start: int, open: seq<OpenRect>)

  /** rectangles[r] = i unless r is already a key. */
  function AddRun(open: seq<OpenRect>, r: Run, i: int): seq<OpenRect>
  {
    if r in Keys(open) then open else open + [OpenRect(r, i)]
  }

  /** The second inner loop of column i after its first j rows. */
  function ScanUpTo(col: seq<int>, i: int, open0: seq<OpenRect>, j: nat): (st: ScanState)
    requires j <= |col| && WfOpen(open0, |col|)
    ensures WfOpen(st.open, |col|)
    ensures st.newRect ==> 0 <= st.start < j
  {
    if j == 0 then ScanState(false, 0, open0)
    else
      var st := ScanUpTo(col, i, open0, j - 1);
      var jj := j - 1;
      if col[jj] == FLAG_TRUE && !st.newRect then
        ScanState(true, jj, st.open)
      else if col[jj] == FLAG_FALSE && st.newRect then
        ScanState(false, st.start, AddRun(st.open, Run(st.start, jj - 1), i))
      else if jj == |col| - 1 && st.newRect then
        ScanState(false, st.start, AddRun(st.open, Run(st.start, jj), i))
      else
        st
  }

  /** Every open run emitted up to column i. */
  function EmitAll(open: seq<OpenRect>, i: int): (rs: seq<FitsFlags.Rect>)
    ensures |rs| == |open|
  {
    seq(|open|, k requires 0 <= k < |open| => FitsFlags.Rect(open[k].run.s, open[k].run.e, open[k].since, i))
  }

  /** One iteration of the column loop: closing, scanning, and in the last column
      the emission of every entry when a run is still being scanned. */
  function ColumnStep(col: seq<int>, L: nat, i: int, open: seq<OpenRect>): (r: (seq<FitsFlags.Rect>, seq<OpenRect>))
    requires WfOpen(open, |col|)
    ensures WfOpen(r.1, |col|)
  {
    var closed := CloseUpTo(col, i == L - 1, i, open, |open|);
    assert open[..|open|] == open;
    var st := ScanUpTo(col, i, closed.1, |col|);
    var final := if i == L - 1 && st.newRect then EmitAll(st.open, i) else [];
    (closed.0 + final, st.open)
  }

  /** The result list and the dictionary after the first i columns. */
  function SweepUpTo(A: seq<seq<int>>, L: nat, i: nat): (r: (seq<FitsFlags.Rect>, seq<OpenRect>))
    requires IsMatrix(A, L) && i <= L
    ensures WfOpen(r.1, |A|)
  {
    if i == 0 then ([], [])
    else
      var prev := SweepUpTo(A, L, i - 1);
      var step := ColumnStep(Column(A, L, i - 1), L, i - 1, prev.1);
      (prev.0 + step.0, step.1)
  }

  /** sweep(A) for a mask of |A| rows and L columns. */
  function SweepSpec(A: seq<seq<int>>, L: nat): seq<FitsFlags.Rect>
    requires IsMatrix(A, L)
  {
    SweepUpTo(A, L, L).0
  }

  /** The sweep as the source runs it, with the dictionary held as a sequence of
      entries in insertion order. */
  method Sweep(A: seq<seq<int>>, L: nat) returns (result: seq<FitsFlags.Rect>)
    requires IsMatrix(A, L)
    ensures result == SweepSpec(A, L)
  {
    var open: seq<OpenRect> := [];
    result := [];
    var i := 0;
    while i < L
      invariant 0 <= i <= L
      invariant result == SweepUpTo(A, L, i).0 && open == SweepUpTo(A, L, i).1
    {
      var emitted;
      emitted, open := SweepColumn(Column(A, L, i), L, i, open);
      result := result + emitted;
      i := i + 1;
    }
  }

  /** One iteration of the column loop. */
  method SweepColumn(col: seq<int>, L: nat, i: int, open0: seq<OpenRect>)
      returns (emitted: seq<FitsFlags.Rect>, open: seq<OpenRect>)
    requires WfOpen(open0, |col|)
    ensures (emitted, open) == ColumnStep(col, L, i, open0)
  {
    var kept;
    emitted, kept := CloseColumn(col, i == L - 1, i, open0);
    var newRect, start;
    newRect, start, open := ScanColumn(col, i, kept);
    if i == L - 1 && newRect {
      emitted := emitted + EmitAll(open, i);
    } else {
      assert emitted == emitted + [];
    }
  }

  /** The first inner loop, over a snapshot of the dictionary's keys. */
  method CloseColumn(col: seq<int>, last: bool, i: int, keys: seq<OpenRect>)
      returns (emitted: seq<FitsFlags.Rect>, kept: seq<OpenRect>)
    requires WfOpen(keys, |col|)
    ensures (emitted, kept) == CloseUpTo(col, last, i, keys, |keys|)
  {
    emitted, kept := [], [];
    var k := 0;
    while k < |keys|
      invariant 0 <= k <= |keys|
      invariant (emitted, kept) == CloseUpTo(col, last, i, keys, k)
    {
      var o := keys[k];
      var run := o.run;
      if last && AllTrue(col, run) && !MinOne(col, run) && !PlusOne(col, run) {
        emitted := emitted + [FitsFlags.Rect(run.s, run.e, o.since, i)];
        kept := kept + [o];
      } else if AnyFalse(col, run) || MinOne(col, run) || PlusOne(col, run) {
        emitted := emitted + [FitsFlags.Rect(run.s, run.e, o.since, i - 1)];
      } else {
        kept := kept + [o];
      }
      k := k + 1;
    }
  }

  /** The second inner loop: open a run at each flagged cell after a gap and
      record it when it ends. */
  method ScanColumn(col: seq<int>, i: int, kept: seq<OpenRect>)
      returns (newRect: bool, start: int, open: seq<OpenRect>)
    requires WfOpen(kept, |col|)
    ensures ScanState(newRect, start, open) == ScanUpTo(col, i, kept, |col|)
  {
    open := kept;
    newRect := false;
    start := 0;
    var j := 0;
    while j < |col|
      invariant 0 <= j <= |col|
      invariant ScanState(newRect, start, open) == ScanUpTo(col, i, kept, j)
    {
      if col[j] == FLAG_TRUE && !newRect {
        start := j;
        newRect := true;
      } else if col[j] == FLAG_FALSE && newRect {
        open := AddRun(open, Run(start, j - 1), i);
        newRect := false;
      } else if j == |col| - 1 && newRect {
        open := AddRun(open, Run(start, j), i);
        newRect := false;
      }
      j := j + 1;
    }
  }

  // ---------------------------------------------------------------- soundness

  /** Every cell of A is FLAG_TRUE or FLAG_FALSE. */
  ghost predicate Binary(A: seq<seq<int>>)
  {
    forall y, x :: 0 <= y < |A| && 0 <= x < |A[y]| ==> A[y][x] == FLAG_TRUE || A[y][x] == FLAG_FALSE
  }

  /** The rectangle lies in the mask and every cell it covers is flagged. */
  ghost predicate SoundRect(A: seq<seq<int>>, L: nat, r: FitsFlags.Rect)
    requires IsMatrix(A, L)
  {
    0 <= r.ymin <= r.ymax < |A| && 0 <= r.xmin <= r.xmax < L &&
    forall y, x :: r.ymin <= y <= r.ymax && r.xmin <= x <= r.xmax ==> A[y][x] == FLAG_TRUE
  }

  /** The entry's run is flagged in every column from the one it opened in up to c. */
  ghost predicate OpenSound(A: seq<seq<int>>, L: nat, o: OpenRect, c: int)
    requires IsMatrix(A, L)
  {
    0 <= o.run.s <= o.run.e < |A| && 0 <= o.since <= c < L &&
    forall y, x :: o.run.s <= y <= o.run.e && o.since <= x <= c ==> A[y][x] == FLAG_TRUE
  }

  lemma {:induction false} CloseSound(A: seq<seq<int>>, L: nat, i: nat, open: seq<OpenRect>, k: nat)
    requires IsMatrix(A, L) && Binary(A) && i < L
    requires WfOpen(open, |A|) && k <= |open|
    requires forall o :: o in open ==> OpenSound(A, L, o, i - 1)
    ensures var r := CloseUpTo(Column(A, L, i), i == L - 1, i, open, k);
      (forall x :: x in r.0 ==> SoundRect(A, L, x)) && (forall o :: o in r.1 ==> OpenSound(A, L, o, i))
  {
    var col := Column(A, L, i);
    if k > 0 {
      CloseSound(A, L, i, open, k - 1);
      var o := open[k - 1];
      assert o in open;
      var run := o.run;
      if i == L - 1 && AllTrue(col, run) && !MinOne(col, run) && !PlusOne(col, run) {
        ExtendSound(A, L, i, o);
        assert SoundRect(A, L, FitsFlags.Rect(run.s, run.e, o.since, i));
      } else if AnyFalse(col, run) || MinOne(col, run) || PlusOne(col, run) {
        assert SoundRect(A, L, FitsFlags.Rect(run.s, run.e, o.since, i - 1));
      } else {
        assert !AnyFalse(col, run);
        ExtendSound(A, L, i, o);
      }
    }
  }

  /** A run flagged up to column i - 1 and all flagged in column i is flagged up to i. */
  lemma ExtendSound(A: seq<seq<int>>, L: nat, i: nat, o: OpenRect)
    requires IsMatrix(A, L) && Binary(A) && i < L
    requires WfRun(o.run, |A|) && OpenSound(A, L, o, i - 1)
    requires AllTrue(Column(A, L, i), o.run) || !AnyFalse(Column(A, L, i), o.run)
    ensures OpenSound(A, L, o, i)
  {
    var col := Column(A, L, i);
    forall y | o.run.s <= y <= o.run.e ensures A[y][i] == FLAG_TRUE {
      assert col[y] == A[y][i];
    }
  }

  lemma {:induction false} ScanSound(A: seq<seq<int>>, L: nat, i: nat, open0: seq<OpenRect>, j: nat)
    requires IsMatrix(A, L) && Binary(A) && i < L
    requires WfOpen(open0, |A|) && j <= |A|
    requires forall o :: o in open0 ==> OpenSound(A, L, o, i)
    ensures var st := ScanUpTo(Column(A, L, i), i, open0, j);
      (forall o :: o in st.open ==> OpenSound(A, L, o, i)) &&
      (st.newRect ==> forall y :: st.start <= y < j ==> A[y][i] == FLAG_TRUE)
  {
    var col := Column(A, L, i);
    if j > 0 {
      ScanSound(A, L, i, open0, j - 1);
      var st := ScanUpTo(col, i, open0, j - 1);
      var jj := j - 1;
      if col[jj] == FLAG_TRUE && !st.newRect {
      } else if col[jj] == FLAG_FALSE && st.newRect {
        assert OpenSound(A, L, OpenRect(Run(st.start, jj - 1), i), i);
      } else if jj == |col| - 1 && st.newRect {
        assert OpenSound(A, L, OpenRect(Run(st.start, jj), i), i);
      } else if st.newRect {
        assert col[jj] == FLAG_TRUE;
      }
    }
  }

  lemma ColumnStepSound(A: seq<seq<int>>, L: nat, i: nat, open: seq<OpenRect>)
    requires IsMatrix(A, L) && Binary(A) && i < L
    requires WfOpen(open, |A|)
    requires forall o :: o in open ==> OpenSound(A, L, o, i - 1)
    ensures var r := ColumnStep(Column(A, L, i), L, i, open);
      (forall x :: x in r.0 ==> SoundRect(A, L, x)) && (forall o :: o in r.1 ==> OpenSound(A, L, o, i))
  {
    var col := Column(A, L, i);
    CloseSound(A, L, i, open, |open|);
    assert open[..|open|] == open;
    var closed := CloseUpTo(col, i == L - 1, i, open, |open|);
    ScanSound(A, L, i, closed.1, |col|);
    var st := ScanUpTo(col, i, closed.1, |col|);
    var final := if i == L - 1 && st.newRect then EmitAll(st.open, i) else [];
    forall x | x in final
      ensures SoundRect(A, L, x)
    {
      var k :| 0 <= k < |final| && final[k] == x;
      assert st.open[k] in st.open;
    }
  }

  lemma {:induction false} SweepUpToSound(A: seq<seq<int>>, L: nat, i: nat)
    requires IsMatrix(A, L) && Binary(A) && i <= L
    ensures var r := SweepUpTo(A, L, i);
      (forall x :: x in r.0 ==> SoundRect(A, L, x)) && (forall o :: o in r.1 ==> OpenSound(A, L, o, i - 1))
  {
    if i > 0 {
      SweepUpToSound(A, L, i - 1);
      ColumnStepSound(A, L, i - 1, SweepUpTo(A, L, i - 1).1);
    }
  }

  /** On a 0/1 mask every emitted (r0, r1, c0, c1) has r0 <= r1 and c0 <= c1, lies
      inside the mask, and covers only flagged cells. */
  lemma SweepSound(A: seq<seq<int>>, L: nat)
    requires IsMatrix(A, L) && Binary(A)
    ensures forall x :: x in SweepSpec(A, L) ==> SoundRect(A, L, x)
  {
    SweepUpToSound(A, L, L);
  }

  // ------------------------------------------------------------- incompleteness

  /** A mask whose flagged cells fill its last column yields no rectangle: the run
      is opened in the last column and never emitted. */
  lemma LastColumnLost()
    ensures SweepSpec([[0, 1], [0, 1]], 2) == []
  {
    var A := [[0, 1], [0, 1]];
    assert Column(A, 2, 0) == [0, 0];
    assert Column(A, 2, 1) == [1, 1];
    assert ScanUpTo([0, 0], 0, [], 1) == ScanState(false, 0, []);
    assert ScanUpTo([0, 0], 0, [], 2) == ScanState(false, 0, []);
    assert CloseUpTo([0, 0], false, 0, [], 0) == ([], []);
    assert ColumnStep([0, 0], 2, 0, []).1 == [];
    assert ColumnStep([0, 0], 2, 0, []).0 == [];
    assert SweepUpTo(A, 2, 1) == ([], []);
    assert CloseUpTo([1, 1], true, 1, [], 0) == ([], []);
    assert ScanUpTo([1, 1], 1, [], 1) == ScanState(true, 0, []);
    assert ScanUpTo([1, 1], 1, [], 2) == ScanState(false, 0, [OpenRect(Run(0, 1), 1)]);
  }

  /** A run of one flagged cell in the bottom row is never recorded. */
  lemma BottomCellLost()
    ensures SweepSpec([[0, 0], [1, 0]], 2) == []
  {
    var A := [[0, 0], [1, 0]];
    assert Column(A, 2, 0) == [0, 1];
    assert Column(A, 2, 1) == [0, 0];
    assert ScanUpTo([0, 1], 0, [], 1) == ScanState(false, 0, []);
    assert ScanUpTo([0, 1], 0, [], 2) == ScanState(true, 1, []);
    assert CloseUpTo([0, 1], false, 0, [], 0) == ([], []);
    assert ColumnStep([0, 1], 2, 0, []).1 == [];
    assert ColumnStep([0, 1], 2, 0, []).0 == [];
    assert SweepUpTo(A, 2, 1) == ([], []);
    assert ScanUpTo([0, 0], 1, [], 1) == ScanState(false, 0, []);
    assert ScanUpTo([0, 0], 1, [], 2) == ScanState(false, 0, []);
  }
}
