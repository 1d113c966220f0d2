/** The mask algebra and the deletion order of MergeFlagSetsCommand in
    dw/core/commands.py: the element-wise sum of the selected masks, its
    "> 0" test, and what deleting several operations one after the other does
    to the operation numbers of a FITS flag table. */
module FlagMerge {
  import opened Base
  import FitsFlags

  type Mask = seq<seq<int>>

  // ---------------------------------------------------------------- OR-reduce

  /** The sum of cell (i, j) over the masks; a cell missing from a mask adds 0. */
  function SumAt(ms: seq<Mask>, i: nat, j: nat): int
  {
    if ms == [] then 0
    else
      var m := ms[|ms| - 1];
      SumAt(ms[..|ms| - 1], i, j) + (if i < |m| && j < |m[i]| then m[i][j] else 0)
  }

  /** reduce(add, masks) for masks of the given shape. */
  function SumMasks(ms: seq<Mask>, rows: nat, cols: nat): (s: Mask)
    ensures |s| == rows && IsMatrix(s, cols)
    ensures forall i, j :: 0 <= i < rows && 0 <= j < cols ==> s[i][j] == SumAt(ms, i, j)
  {
    seq(rows, i requires 0 <= i < rows => seq(cols, j requires 0 <= j < cols => SumAt(ms, i, j)))
  }

  /** (s > 0).astype(int). */
  function Positive(s: Mask): (m: Mask)
    ensures |m| == |s| && forall i :: 0 <= i < |s| ==> |m[i]| == |s[i]|
  {
    seq(|s|, i requires 0 <= i < |s| => seq(|s[i]|, j requires 0 <= j < |s[i]| => if s[i][j] > 0 then 1 else 0))
  }

  /** No mask has a negative cell. */
  ghost predicate NonNegative(ms: seq<Mask>)
  {
    forall k, i, j :: 0 <= k < |ms| && 0 <= i < |ms[k]| && 0 <= j < |ms[k][i]| ==> ms[k][i][j] >= 0
  }

  /** A cell sums to more than 0 exactly when some mask has a positive value there. */
  lemma {:induction false} SumAtPositive(ms: seq<Mask>, i: nat, j: nat)
    requires NonNegative(ms)
    ensures SumAt(ms, i, j) >= 0
    ensures SumAt(ms, i, j) > 0 <==> exists k :: 0 <= k < |ms| && i < |ms[k]| && j < |ms[k][i]| && ms[k][i][j] > 0
  {
    if ms != [] {
      var init := ms[..|ms| - 1];
      assert NonNegative(init) by {
        forall k, a, b | 0 <= k < |init| && 0 <= a < |init[k]| && 0 <= b < |init[k][a]|
          ensures init[k][a][b] >= 0
        {
          assert init[k] == ms[k];
        }
      }
      SumAtPositive(init, i, j);
      if exists k :: 0 <= k < |ms| && i < |ms[k]| && j < |ms[k][i]| && ms[k][i][j] > 0 {
        var k :| 0 <= k < |ms| && i < |ms[k]| && j < |ms[k][i]| && ms[k][i][j] > 0;
        if k < |ms| - 1 {
          assert init[k] == ms[k];
        }
      }
      if exists k :: 0 <= k < |init| && i < |init[k]| && j < |init[k][i]| && init[k][i][j] > 0 {
        var k :| 0 <= k < |init| && i < |init[k]| && j < |init[k][i]| && init[k][i][j] > 0;
        assert init[k] == ms[k];
      }
    }
  }

  /** Merging ORs the masks: a merged cell is 1 when some input mask flags it
      and 0 otherwise. */
  lemma MergeIsOr(ms: seq<Mask>, rows: nat, cols: nat, i: nat, j: nat)
    requires NonNegative(ms) && i < rows && j < cols
    ensures var m := Positive(SumMasks(ms, rows, cols));
      (m[i][j] == 1 <==> exists k :: 0 <= k < |ms| && i < |ms[k]| && j < |ms[k][i]| && ms[k][i][j] > 0) &&
      (m[i][j] == 0 || m[i][j] == 1)
  {
    SumAtPositive(ms, i, j);
  }

  // ---------------------------------------------------------------- deleting in turn

  /** del_table for each operation number of ns, in that order, each on the
      table the previous one left behind. */
  function DeleteInTurn(es: seq<FitsFlags.FlagRow>, ns: seq<int>): seq<FitsFlags.FlagRow>
  {
    if ns == [] then es else FitsFlags.DelTableRows(DeleteInTurn(es, ns[..|ns| - 1]), ns[|ns| - 1])
  }

  /** What one del_table of operation n does to a record numbered c: it goes
      when c is n, and is numbered one lower when c is above n. */
  function DelStep(c: int, n: int): Option<int>
  {
    if c == n then None else if c > n then Some(c - 1) else Some(c)
  }

  /** The number a record that started as operation v carries after the
      deletions of ns, or None once it has been deleted. */
  function Track(v: int, ns: seq<int>): Option<int>
  {
    if ns == [] then Some(v)
    else
      var c := Track(v, ns[..|ns| - 1]);
      if c.None? then None else DelStep(c.value, ns[|ns| - 1])
  }

  /** The records that survive the deletions of ns, in order, with their final numbers. */
  function TrackRows(es: seq<FitsFlags.FlagRow>, ns: seq<int>): seq<FitsFlags.FlagRow>
  {
    if es == [] then []
    else
      var c := Track(es[0].nop, ns);
      (if c.Some? then [es[0].(nop := c.value)] else []) + TrackRows(es[1..], ns)
  }

  lemma {:induction false} TrackRowsAppend(a: seq<FitsFlags.FlagRow>, b: seq<FitsFlags.FlagRow>, ns: seq<int>)
    ensures TrackRows(a + b, ns) == TrackRows(a, ns) + TrackRows(b, ns)
  {
    if a == [] {
      assert a + b == b;
    } else {
      assert (a + b)[1..] == a[1..] + b;
      TrackRowsAppend(a[1..], b, ns);
    }
  }

  lemma DelTableRowsAppend(a: seq<FitsFlags.FlagRow>, b: seq<FitsFlags.FlagRow>, n: int)
    ensures FitsFlags.DelTableRows(a + b, n) == FitsFlags.DelTableRows(a, n) + FitsFlags.DelTableRows(b, n)
  {
    FilterAppend(a, b, (r: FitsFlags.FlagRow) => r.nop != n);
  }

  lemma DelTableRowsSingle(x: FitsFlags.FlagRow, n: int)
    ensures FitsFlags.DelTableRows([x], n) == if x.nop != n then [FitsFlags.Renumber(x, n)] else []
  {
    assert [x][1..] == [];
  }

  /** One more deletion on the tracked records is one more step of tracking. */
  lemma {:induction false} TrackRowsStep(es: seq<FitsFlags.FlagRow>, ns: seq<int>, n: int)
    ensures FitsFlags.DelTableRows(TrackRows(es, ns), n) == TrackRows(es, ns + [n])
  {
    if es == [] {
      assert FitsFlags.DelTableRows([], n) == [];
    } else {
      var c := Track(es[0].nop, ns);
      var head := if c.Some? then [es[0].(nop := c.value)] else [];
      TrackRowsStep(es[1..], ns, n);
      DelTableRowsAppend(head, TrackRows(es[1..], ns), n);
      assert (ns + [n])[..|ns + [n]| - 1] == ns;
      if c.Some? {
        DelTableRowsSingle(es[0].(nop := c.value), n);
      } else {
        assert FitsFlags.DelTableRows([], n) == [];
      }
    }
  }

  /** Deleting in turn keeps exactly the records whose tracked number survives. */
  lemma {:induction false} DeleteInTurnTracks(es: seq<FitsFlags.FlagRow>, ns: seq<int>)
    ensures DeleteInTurn(es, ns) == TrackRows(es, ns)
  {
    if ns == [] {
      TrackRowsNone(es);
    } else {
      var init := ns[..|ns| - 1];
      DeleteInTurnTracks(es, init);
      TrackRowsStep(es, init, ns[|ns| - 1]);
      assert init + [ns[|ns| - 1]] == ns;
    }
  }

  lemma {:induction false} TrackRowsNone(es: seq<FitsFlags.FlagRow>)
    ensures TrackRows(es, []) == es
  {
    if es != [] {
      TrackRowsNone(es[1..]);
      assert es[0].(nop := es[0].nop) == es[0];
      assert es == [es[0]] + es[1..];
    }
  }

  /** The merge as written, on operations 1..4 with the handles of 2 and 3:
      after operation 2 goes, operation 3 has become 2 and the handle's 3 names
      what was operation 4. Operation 3's record survives and operation 4's,
      which was not selected, is deleted. */
  lemma StaleNopDeletesWrongSet(a: FitsFlags.FlagRow, b: FitsFlags.FlagRow, c: FitsFlags.FlagRow, d: FitsFlags.FlagRow)
    requires a.nop == 1 && b.nop == 2 && c.nop == 3 && d.nop == 4
    ensures DeleteInTurn([a, b, c, d], [2, 3]) == [a, c.(nop := 2)]
  {
    var ns := [2, 3];
    DeleteInTurnTracks([a, b, c, d], ns);
    var left := TrackRows([a, b], ns);
    var right := TrackRows([c, d], ns);
    assert left == [a] by {
      StaleNopTracks();
      TrackRowsSingle(a, ns);
      TrackRowsSingle(b, ns);
      assert a.(nop := 1) == a;
      TrackRowsAppend([a], [b], ns);
    }
    assert right == [c.(nop := 2)] by {
      StaleNopTracks();
      TrackRowsSingle(c, ns);
      TrackRowsSingle(d, ns);
      TrackRowsAppend([c], [d], ns);
    }
    TrackRowsAppend([a, b], [c, d], ns);
    assert [a, b] + [c, d] == [a, b, c, d];
  }

  lemma StaleNopTracks()
    ensures Track(1, [2, 3]) == Some(1) && Track(2, [2, 3]) == None
    ensures Track(3, [2, 3]) == Some(2) && Track(4, [2, 3]) == None
  {
    assert [2, 3][..1] == [2] && [2][..0] == [];
  }

  lemma TrackRowsSingle(x: FitsFlags.FlagRow, ns: seq<int>)
    ensures TrackRows([x], ns) == if Track(x.nop, ns).Some? then [x.(nop := Track(x.nop, ns).value)] else []
  {
    assert [x][1..] == [];
  }

  // ---------------------------------------------------------------- corrected order

  predicate StrictlyDescending(s: seq<int>)
  {
    forall a, b :: 0 <= a < b < |s| ==> s[a] > s[b]
  }

  function InsertDesc(x: int, s: seq<int>): (r: seq<int>)
    ensures |r| == |s| + 1
    ensures forall y :: y in r <==> y == x || y in s
  {
    if s == [] || x >= s[0] then [x] + s else [s[0]] + InsertDesc(x, s[1..])
  }

  function SortDesc(s: seq<int>): (r: seq<int>)
    ensures |r| == |s|
    ensures forall y :: y in r <==> y in s
  {
    if s == [] then [] else InsertDesc(s[0], SortDesc(s[1..]))
  }

  lemma {:induction false} InsertDescSorted(x: int, s: seq<int>)
    requires StrictlyDescending(s) && x !in s
    ensures StrictlyDescending(InsertDesc(x, s))
  {
    if s != [] && x < s[0] {
      InsertDescSorted(x, s[1..]);
      var t := InsertDesc(x, s[1..]);
      forall y | y in t ensures y < s[0] {
        if y != x {
          var b :| 0 <= b < |s[1..]| && s[1..][b] == y;
          assert s[b + 1] == y;
        }
      }
      var r := InsertDesc(x, s);
      assert r == [s[0]] + t;
      forall a, b | 0 <= a < b < |r| ensures r[a] > r[b] {
        if a == 0 {
          assert r[b] == t[b - 1] && t[b - 1] in t;
        } else {
          assert r[a] == t[a - 1] && r[b] == t[b - 1];
        }
      }
    }
  }

  lemma {:induction false} SortDescSorted(s: seq<int>)
    requires forall a, b :: 0 <= a < b < |s| ==> s[a] != s[b]
    ensures StrictlyDescending(SortDesc(s))
  {
    if s != [] {
      var t := s[1..];
      SortDescSorted(t);
      forall b | 0 <= b < |t| ensures t[b] != s[0] {
        assert t[b] == s[b + 1];
      }
      InsertDescSorted(s[0], SortDesc(t));
    }
  }

  /** Tracking along a strictly descending list of numbers, after its first k
      entries: a record is gone exactly when its number was among them; a record
      below the last deleted number still has its own number, and one above it
      is still numbered above it. */
  lemma {:induction false} TrackDescending(v: int, ns: seq<int>, k: nat)
    requires StrictlyDescending(ns) && k <= |ns|
    ensures Track(v, ns[..k]).None? <==> v in ns[..k]
    ensures k == 0 ==> Track(v, ns[..k]) == Some(v)
    ensures k > 0 && v < ns[k - 1] ==> Track(v, ns[..k]) == Some(v)
    ensures k > 0 && v > ns[k - 1] && v !in ns[..k] ==> Track(v, ns[..k]).Some? && Track(v, ns[..k]).value >= ns[k - 1]
  {
    if k == 0 {
      assert ns[..0] == [];
    } else {
      TrackDescending(v, ns, k - 1);
      var p := ns[k - 1];
      assert ns[..k][..k - 1] == ns[..k - 1];
      assert ns[..k] == ns[..k - 1] + [p];
    }
  }

  /** The deletion the merge evidently intends: the selected operations taken
      from the highest number down, each number once, so that no deletion
      renumbers an operation still to be deleted. */
  function MergeDeletes(es: seq<FitsFlags.FlagRow>, ns: seq<int>): seq<FitsFlags.FlagRow>
  {
    DeleteInTurn(es, SortDesc(FitsFlags.Distinct(ns)))
  }

  /** In that order a record is deleted exactly when its operation was
      selected, and the others keep their order. */
  lemma {:induction false} MergeDeletesExactly(es: seq<FitsFlags.FlagRow>, ns: seq<int>)
    ensures var d := SortDesc(FitsFlags.Distinct(ns));
      MergeDeletes(es, ns) == TrackRows(es, d) &&
      forall v :: Track(v, d).None? <==> v in ns
  {
    var d := SortDesc(FitsFlags.Distinct(ns));
    DeleteInTurnTracks(es, d);
    SortDescSorted(FitsFlags.Distinct(ns));
    assert d[..|d|] == d;
    forall v ensures Track(v, d).None? <==> v in ns {
      TrackDescending(v, d, |d|);
    }
  }

  /** The kept records of the corrected deletion are the unselected ones, in order. */
  lemma {:induction false} MergeKeepsUnselected(es: seq<FitsFlags.FlagRow>, ns: seq<int>)
    ensures var out := MergeDeletes(es, ns);
      |out| == |Filter(es, (r: FitsFlags.FlagRow) => r.nop !in ns)| &&
      forall k :: 0 <= k < |out| ==>
        out[k] == Filter(es, (r: FitsFlags.FlagRow) => r.nop !in ns)[k].(nop := out[k].nop)
  {
    var d := SortDesc(FitsFlags.Distinct(ns));
    MergeDeletesExactly(es, ns);
    KeptRows(es, ns, d);
  }

  /** The corrected order on the same table: with the handles of 2 and 3,
      operation 3 goes first and then operation 2, so operations 1 and 4 are
      kept and 4 is renumbered 2. */
  lemma CorrectedKeepsUnselected(a: FitsFlags.FlagRow, b: FitsFlags.FlagRow, c: FitsFlags.FlagRow, d: FitsFlags.FlagRow)
    requires a.nop == 1 && b.nop == 2 && c.nop == 3 && d.nop == 4
    ensures MergeDeletes([a, b, c, d], [2, 3]) == [a, d.(nop := 2)]
  {
    var ns := [3, 2];
    DescendingOfTwoThree();
    DeleteInTurnTracks([a, b, c, d], ns);
    var left := TrackRows([a, b], ns);
    var right := TrackRows([c, d], ns);
    assert left == [a] by {
      CorrectedTracks();
      TrackRowsSingle(a, ns);
      TrackRowsSingle(b, ns);
      assert a.(nop := 1) == a;
      TrackRowsAppend([a], [b], ns);
    }
    assert right == [d.(nop := 2)] by {
      CorrectedTracks();
      TrackRowsSingle(c, ns);
      TrackRowsSingle(d, ns);
      TrackRowsAppend([c], [d], ns);
    }
    TrackRowsAppend([a, b], [c, d], ns);
    assert [a, b] + [c, d] == [a, b, c, d];
  }

  /** With a single selected operation the key-order deletion is already the
      intended one. */
  lemma OneSetAgrees(es: seq<FitsFlags.FlagRow>, n: int)
    ensures DeleteInTurn(es, [n]) == MergeDeletes(es, [n])
  {
    assert FitsFlags.Distinct([n]) == [n] by {
      assert [n][..0] == [];
    }
    assert SortDesc([n]) == [n] by {
      assert [n][1..] == [];
    }
  }

  lemma DescendingOfTwoThree()
    ensures SortDesc(FitsFlags.Distinct([2, 3])) == [3, 2]
  {
    assert FitsFlags.Distinct([2, 3]) == [2, 3] by {
      assert [2, 3][..1] == [2] && [2][..0] == [];
    }
    assert [2, 3][1..] == [3] && [3][1..] == [];
  }

  lemma CorrectedTracks()
    ensures Track(1, [3, 2]) == Some(1) && Track(2, [3, 2]) == None
    ensures Track(3, [3, 2]) == None && Track(4, [3, 2]) == Some(2)
  {
    assert [3, 2][..1] == [3] && [3][..0] == [];
  }

  lemma {:induction false} KeptRows(es: seq<FitsFlags.FlagRow>, ns: seq<int>, d: seq<int>)
    requires forall v :: Track(v, d).None? <==> v in ns
    ensures var out := TrackRows(es, d);
      var kept := Filter(es, (r: FitsFlags.FlagRow) => r.nop !in ns);
      |out| == |kept| && forall k :: 0 <= k < |out| ==> out[k] == kept[k].(nop := out[k].nop)
  {
    if es != [] {
      KeptRows(es[1..], ns, d);
    }
  }
}
