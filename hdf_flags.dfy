/** The HDF flag sets of dw/core/io.py (class HdfIO): one table per flag set in
    the "Flag" group beside the data table, one row of per-channel int8 flags per
    time sample. */
module HdfFlags {
  import opened Base
  import FitsFlags

  /** A value stored in an Int8Col cell (numpy's wrap-around cast). */
  function Int8(v: int): (r: int)
    ensures -128 <= r < 128
    ensures -128 <= v < 128 ==> r == v
  {
    (v + 128) % 256 - 128
  }

  /** An area (a0, a1, a2, a3): rows [a0, a1) and channels [a2, a3), both half-open. */
  datatype Area = Area(a0: int, a1: int, a2: int, a3: int)

  /** The attributes set on a new table when an algorithm name is given. */
  datatype Attrs = Attrs(algorithm: string, params: FitsFlags.Params, flagresult: Option<string>)

  /** Python truthiness of the algorithm argument. */
  predicate Truthy(s: Option<string>)
  {
    s.Some? && s.value != ""
  }

  // ---------------------------------------------------------------- table names

  function MaxLen(names: seq<string>): (m: nat)
    ensures forall s :: s in names ==> |s| <= m
  {
    if names == [] then 0 else Max(|names[0]|, MaxLen(names[1..]))
  }

  function Pow10(k: nat): (p: nat)
    ensures p >= 1
  {
    if k == 0 then 1 else 10 * Pow10(k - 1)
  }

  /** A number of at least 10^L has more than L decimal digits. */
  lemma {:induction false} LongNumbers(k: nat, L: nat)
    requires k >= Pow10(L)
    ensures |NatToString(k)| > L
  {
    if L > 0 {
      assert k >= 10;
      assert k / 10 >= Pow10(L - 1);
      LongNumbers(k / 10, L - 1);
    }
  }

  function TableName(prefix: string, n: nat): string
  {
    prefix + NatToString(n)
  }

  /** The name-retry loop of setup_new_flagset: the first prefix+str(n), counting
      n from 0, that is not already a table of the group. */
  method FreeName(existing: seq<string>, prefix: string) returns (name: string, n: nat)
    ensures name == TableName(prefix, n) && name !in existing
    ensures forall k :: 0 <= k < n ==> TableName(prefix, k) in existing
  {
    var bound := Pow10(MaxLen(existing));
    n := 0;
    while TableName(prefix, n) in existing
      invariant n <= bound
      invariant forall k :: 0 <= k < n ==> TableName(prefix, k) in existing
      decreases bound - n
    {
      if n >= bound {
        LongNumbers(n, MaxLen(existing));
        assert false;
      }
      n := n + 1;
    }
    name := TableName(prefix, n);
  }

  /** The names of the group's tables index the dictionary get_flagsets returns. */
  function FlagsetsDict(names: seq<string>): (d: map<string, nat>)
    ensures d.Keys == set s | s in names
    ensures forall s :: s in d ==> d[s] < |names| && names[d[s]] == s
  {
    if names == [] then map[]
    else
      var rest := FlagsetsDict(names[..|names| - 1]);
      rest[names[|names| - 1] := |names| - 1]
  }

  // ---------------------------------------------------------------- row buffers

  /** Area ar contains row ii. */
  predicate Covers(ar: Area, ii: int)
  {
    ar.a0 <= ii < ar.a1
  }

  /** Channel x (0 <= x < columns) of a row is written by ar's channel loop: some xx
      in [a2, a3) indexes it, straight (xx == x) or from the end (xx == x - columns). */
  predicate Hits(ar: Area, columns: nat, x: int)
  {
    ar.a2 <= x < ar.a3 || ar.a2 <= x - columns < ar.a3
  }

  /** The channel loop of ar reaches an index outside [-columns, columns), where the
      assignment raises IndexError. */
  predicate Overruns(ar: Area, columns: nat)
  {
    ar.a2 < ar.a3 && (ar.a2 + columns < 0 || ar.a3 > columns)
  }

  /** Channel x of row ii is written by one of the first n areas. */
  predicate InSomeAreaUpTo(areas: seq<Area>, n: nat, ii: int, columns: nat, x: int)
    requires n <= |areas|
  {
    exists k :: 0 <= k < n && Covers(areas[k], ii) && Hits(areas[k], columns, x)
  }

  predicate InSomeArea(areas: seq<Area>, ii: int, columns: nat, x: int)
  {
    InSomeAreaUpTo(areas, |areas|, ii, columns, x)
  }

  /** One of the first n areas containing row ii overruns the row. */
  predicate OverrunsUpTo(areas: seq<Area>, n: nat, ii: int, columns: nat)
    requires n <= |areas|
  {
    exists k :: 0 <= k < n && Covers(areas[k], ii) && Overruns(areas[k], columns)
  }

  predicate RowOverruns(areas: seq<Area>, ii: int, columns: nat)
  {
    OverrunsUpTo(areas, |areas|, ii, columns)
  }

  lemma UpToStep(areas: seq<Area>, n: nat, ii: int, columns: nat)
    requires n < |areas|
    ensures forall x :: InSomeAreaUpTo(areas, n + 1, ii, columns, x) <==>
      InSomeAreaUpTo(areas, n, ii, columns, x) || (Covers(areas[n], ii) && Hits(areas[n], columns, x))
    ensures OverrunsUpTo(areas, n + 1, ii, columns) <==>
      OverrunsUpTo(areas, n, ii, columns) || (Covers(areas[n], ii) && Overruns(areas[n], columns))
  {
  }

  /** The row-buffer loop shared by new_flagset and upd_flagset: each area containing
      row ii writes v into its channels a2 .. a3-1 in turn, with Python's indexing, so a
      negative channel counts from the end of the row; a channel outside the row raises
      IndexError and the buffer is abandoned. */
  method WriteAreas(row: seq<int>, areas: seq<Area>, ii: int, v: int) returns (r: Result<seq<int>>)
    ensures r.Err? <==> RowOverruns(areas, ii, |row|)
    ensures r.Err? ==> r.error == IndexError
    ensures r.Ok? ==> |r.value| == |row| && forall x :: 0 <= x < |row| ==>
      r.value[x] == if InSomeArea(areas, ii, |row|, x) then v else row[x]
  {
    var cols := |row|;
    var buf := row;
    var jj := 0;
    while jj < |areas|
      invariant 0 <= jj <= |areas| && |buf| == cols
      invariant !OverrunsUpTo(areas, jj, ii, cols)
      invariant forall x :: 0 <= x < cols ==>
        buf[x] == if InSomeAreaUpTo(areas, jj, ii, cols, x) then v else row[x]
    {
      var ar := areas[jj];
      UpToStep(areas, jj, ii, cols);
      if ar.a0 <= ii < ar.a1 {
        var xx := ar.a2;
        while xx < ar.a3
          invariant ar.a2 <= xx && (ar.a2 < ar.a3 ==> xx <= ar.a3) && (ar.a3 <= ar.a2 ==> xx == ar.a2)
          invariant ar.a2 < xx ==> 0 <= ar.a2 + cols && xx <= cols
          invariant |buf| == cols
          invariant forall x :: 0 <= x < cols ==>
            buf[x] == if InSomeAreaUpTo(areas, jj, ii, cols, x) || ar.a2 <= x < xx || ar.a2 <= x - cols < xx
                      then v else row[x]
        {
          if xx >= cols || xx + cols < 0 {
            assert Covers(areas[jj], ii) && Overruns(areas[jj], cols);
            return Err(IndexError);
          }
          buf := buf[if xx < 0 then xx + cols else xx := v];
          xx := xx + 1;
        }
        assert !Overruns(ar, cols);
        forall x | 0 <= x < cols
          ensures (ar.a2 <= x < xx || ar.a2 <= x - cols < xx) == Hits(ar, cols, x)
        {
        }
      }
      jj := jj + 1;
    }
    return Ok(buf);
  }

  /** Writes a computed row buffer into row ii of m. */
  method StoreRow(m: array2<int>, ii: nat, row: seq<int>)
    requires ii < m.Length0 && |row| == m.Length1
    modifies m
    ensures forall i, x :: 0 <= i < m.Length0 && 0 <= x < m.Length1 ==>
      m[i, x] == if i == ii then row[x] else old(m[i, x])
  {
    var x := 0;
    while x < m.Length1
      invariant 0 <= x <= m.Length1
      invariant forall i, c :: 0 <= i < m.Length0 && 0 <= c < m.Length1 ==>
        m[i, c] == if i == ii && c < x then row[c] else old(m[i, c])
    {
      m[ii, x] := row[x];
      x := x + 1;
    }
  }

  /** With every area's channels inside the row there is no IndexError and no wrap:
      the channels written are exactly [a2, a3). */
  lemma {:induction false} InsideRowNoWrap(areas: seq<Area>, ii: int, columns: nat, x: int)
    requires forall k :: 0 <= k < |areas| ==> 0 <= areas[k].a2 && areas[k].a3 <= columns
    requires 0 <= x < columns
    ensures !RowOverruns(areas, ii, columns)
    ensures InSomeArea(areas, ii, columns, x) <==>
      exists k :: 0 <= k < |areas| && Covers(areas[k], ii) && areas[k].a2 <= x < areas[k].a3
  {
    if InSomeArea(areas, ii, columns, x) {
      var k :| 0 <= k < |areas| && Covers(areas[k], ii) && Hits(areas[k], columns, x);
      assert areas[k].a2 <= x < areas[k].a3;
    }
    forall k | 0 <= k < |areas|
      ensures !Overruns(areas[k], columns)
    {
    }
  }

  /** A negative channel counts from the end of the row: channels [-1, 0) of a row of
      four set channel 3. */
  lemma NegativeChannelWraps()
    ensures InSomeArea([Area(0, 1, -1, 0)], 0, 4, 3)
    ensures !InSomeArea([Area(0, 1, -1, 0)], 0, 4, 0)
    ensures !RowOverruns([Area(0, 1, -1, 0)], 0, 4)
  {
    assert Covers([Area(0, 1, -1, 0)][0], 0) && Hits([Area(0, 1, -1, 0)][0], 4, 3);
  }

  // ---------------------------------------------------------------- flag sets

  class HdfFlagSet {
    const name: string
    const attrs: Option<Attrs>
    const cells: array2<int>

    constructor (name: string, attrs: Option<Attrs>, cells: array2<int>)
      ensures this.name == name && this.attrs == attrs && this.cells == cells
    {
      this.name := name;
      this.attrs := attrs;
      this.cells := cells;
    }

    /** new_flagset_from_array: row ii of the table is row ii of the array, cast to int8. */
    constructor NewFlagsetFromArray(existing: seq<string>, rows: nat, columns: nat, flags: seq<seq<int>>,
                                    prefix: string, algorithm: Option<string>, params: FitsFlags.Params,
                                    flagresult: Option<string>)
      requires |flags| >= rows && IsMatrix(flags, columns)
      ensures name !in existing && exists n: nat :: name == TableName(prefix, n)
      ensures attrs == if Truthy(algorithm) then Some(Attrs(algorithm.value, params, flagresult)) else None
      ensures fresh(cells) && cells.Length0 == rows && cells.Length1 == columns
      ensures forall ii, xx :: 0 <= ii < rows && 0 <= xx < columns ==> cells[ii, xx] == Int8(flags[ii][xx])
    {
      var nm, n := FreeName(existing, prefix);
      name := nm;
      attrs := if Truthy(algorithm) then Some(Attrs(algorithm.value, params, flagresult)) else None;
      var m := new int[rows, columns];
      var ii := 0;
      while ii < rows
        invariant 0 <= ii <= rows
        invariant forall i, x :: 0 <= i < ii && 0 <= x < columns ==> m[i, x] == Int8(flags[i][x])
      {
        var xx := 0;
        while xx < columns
          invariant 0 <= xx <= columns
          invariant forall i, x :: 0 <= i < ii && 0 <= x < columns ==> m[i, x] == Int8(flags[i][x])
          invariant forall x :: 0 <= x < xx ==> m[ii, x] == Int8(flags[ii][x])
        {
          m[ii, xx] := Int8(flags[ii][xx]);
          xx := xx + 1;
        }
        ii := ii + 1;
      }
      cells := m;
    }

    /** Row i of the table as a sequence (rowh['channels']). */
    method ReadRow(i: nat) returns (row: seq<int>)
      requires i < cells.Length0
      ensures |row| == cells.Length1 && forall x :: 0 <= x < |row| ==> row[x] == cells[i, x]
    {
      row := [];
      while |row| < cells.Length1
        invariant |row| <= cells.Length1
        invariant forall x :: 0 <= x < |row| ==> row[x] == cells[i, x]
      {
        row := row + [cells[i, |row|]];
      }
    }

    /** The cell after HdfIO.upd_flagset as written: the visited rows are the
        slice [min a0 : max a1], and every visited row receives the channels of
        the areas that contain row_start, the fixed row_index. */
    ghost function UpdAsWritten(areas: seq<Area>, v: int, i: int, j: int, was: int): int
      requires areas != []
      reads this
    {
      var start := MinA0(areas);
      if InSlice(start, MaxA1(areas), cells.Length0, i) && InSomeArea(areas, start, cells.Length1, j) then Int8(v) else was
    }

    /** The cell after the update the loop evidently intends, with row_index
        advancing with the visited row. */
    ghost function UpdIntended(areas: seq<Area>, v: int, i: int, j: int, was: int): int
      requires areas != []
      reads this
    {
      if InSlice(MinA0(areas), MaxA1(areas), cells.Length0, i) && InSomeArea(areas, i, cells.Length1, j) then Int8(v) else was
    }

    /** No row from lo up to and including a has an area overrunning it. */
    ghost predicate ClearThrough(areas: seq<Area>, lo: int, a: int)
      reads this
    {
      forall i :: lo <= i <= a ==> !RowOverruns(areas, i, cells.Length1)
    }

    /** HdfIO.upd_flagset as written. An empty area list fails in min(). Since the
        row index never advances, either every visited row overruns or none does, so
        an IndexError comes at the first visited row, before anything is written. */
    method UpdFlagset(areas: seq<Area>, v: int) returns (r: Result<()>)
      modifies cells
      ensures areas == [] ==> r == Err(ValueError) && unchanged(cells)
      ensures areas != [] ==> (r.Err? <==>
        SliceBound(MinA0(areas), cells.Length0) < SliceBound(MaxA1(areas), cells.Length0) &&
        RowOverruns(areas, MinA0(areas), cells.Length1))
      ensures areas != [] && r.Err? ==> r == Err(IndexError)
      ensures areas != [] && r.Err? ==> forall i, j :: 0 <= i < cells.Length0 && 0 <= j < cells.Length1 ==>
        cells[i, j] == old(cells[i, j])
      ensures areas != [] && r.Ok? ==> forall i, j :: 0 <= i < cells.Length0 && 0 <= j < cells.Length1 ==>
        cells[i, j] == UpdAsWritten(areas, v, i, j, old(cells[i, j]))
    {
      if areas == [] {
        return Err(ValueError);
      }
      var rowStart, rowStop := MinA0(areas), MaxA1(areas);
      var rowIndex := rowStart;
      var start := SliceBound(rowStart, cells.Length0);
      var i := start;
      var stop := SliceBound(rowStop, cells.Length0);
      while i < stop
        invariant start <= i || stop <= start
        invariant i <= stop || i == start
        invariant i > start ==> !RowOverruns(areas, rowIndex, cells.Length1)
        invariant forall a, b :: 0 <= a < cells.Length0 && 0 <= b < cells.Length1 ==>
          cells[a, b] == if a < i then UpdAsWritten(areas, v, a, b, old(cells[a, b])) else old(cells[a, b])
      {
        var row := ReadRow(i);
        var upd := WriteAreas(row, areas, rowIndex, Int8(v));
        if upd.Err? {
          assert i == start;
          forall a, b | 0 <= a < cells.Length0 && 0 <= b < cells.Length1
            ensures cells[a, b] == old(cells[a, b])
          {
            if a < i {
              assert !InSlice(rowStart, rowStop, cells.Length0, a);
            }
          }
          return Err(IndexError);
        }
        StoreRow(cells, i, upd.value);
        i := i + 1;
      }
      if !(start < stop) {
        assert !(start < SliceBound(MaxA1(areas), cells.Length0));
      }
      return Ok(());
    }

    /** The same loop with row_index following the visited row. An IndexError comes at
        the first visited row with an overrunning area; the rows before it keep their
        update. */
    method UpdFlagsetIntended(areas: seq<Area>, v: int) returns (r: Result<()>)
      modifies cells
      ensures areas == [] ==> r == Err(ValueError) && unchanged(cells)
      ensures areas != [] ==> (r.Err? <==> exists i ::
        InSlice(MinA0(areas), MaxA1(areas), cells.Length0, i) && RowOverruns(areas, i, cells.Length1))
      ensures areas != [] && r.Err? ==> r == Err(IndexError)
      ensures areas != [] ==> forall i, j :: 0 <= i < cells.Length0 && 0 <= j < cells.Length1 ==>
        cells[i, j] == if ClearThrough(areas, SliceBound(MinA0(areas), cells.Length0), i)
                       then UpdIntended(areas, v, i, j, old(cells[i, j])) else old(cells[i, j])
    {
      if areas == [] {
        return Err(ValueError);
      }
      var rowStart, rowStop := MinA0(areas), MaxA1(areas);
      var start := SliceBound(rowStart, cells.Length0);
      var i := start;
      var stop := SliceBound(rowStop, cells.Length0);
      while i < stop
        invariant start <= i || stop <= start
        invariant i <= stop || i == start
        invariant forall a :: start <= a < i ==> !RowOverruns(areas, a, cells.Length1)
        invariant forall a, b :: 0 <= a < cells.Length0 && 0 <= b < cells.Length1 ==>
          cells[a, b] == if a < i then UpdIntended(areas, v, a, b, old(cells[a, b])) else old(cells[a, b])
      {
        var row := ReadRow(i);
        var upd := WriteAreas(row, areas, i, Int8(v));
        if upd.Err? {
          assert InSlice(rowStart, rowStop, cells.Length0, i);
          forall a | 0 <= a < cells.Length0
            ensures ClearThrough(areas, start, a) <==> a < i
          {
            if a >= i {
              assert start <= i <= a && RowOverruns(areas, i, cells.Length1);
            }
          }
          return Err(IndexError);
        }
        StoreRow(cells, i, upd.value);
        i := i + 1;
      }
      forall a | 0 <= a < cells.Length0 && a < i
        ensures ClearThrough(areas, start, a)
      {
      }
      forall a | 0 <= a < cells.Length0 && InSlice(rowStart, rowStop, cells.Length0, a)
        ensures a < i
      {
      }
      return Ok(());
    }

    /** With a single area the update as written sets exactly the cells of that area,
        so the fixed row index is harmless there. */
    lemma SingleAreaExact(ar: Area, v: int, i: int, j: int, was: int)
      requires 0 <= ar.a0 && 0 <= i < cells.Length0
      ensures UpdAsWritten([ar], v, i, j, was) ==
        if Covers(ar, i) && Hits(ar, cells.Length1, j) then Int8(v) else was
    {
      assert MinA0([ar]) == ar.a0 && MaxA1([ar]) == ar.a1;
      assert [ar][0] == ar;
    }

    /** Two stacked areas show the fixed row index: the second row takes the first
        area's channels and never receives its own. */
    lemma FixedRowIndexDiffers(v: int, was: int)
      requires cells.Length0 >= 2 && cells.Length1 >= 2
      requires Int8(v) != was
      ensures var areas := [Area(0, 1, 0, 1), Area(1, 2, 1, 2)];
        UpdAsWritten(areas, v, 1, 0, was) == Int8(v) && UpdIntended(areas, v, 1, 0, was) == was &&
        UpdAsWritten(areas, v, 1, 1, was) == was && UpdIntended(areas, v, 1, 1, was) == Int8(v)
    {
      var areas := [Area(0, 1, 0, 1), Area(1, 2, 1, 2)];
      assert MinA0(areas) == 0 && MaxA1(areas) == 2;
      assert InSomeArea(areas, 0, cells.Length1, 0) by { assert areas[0] == Area(0, 1, 0, 1); }
      assert !InSomeArea(areas, 1, cells.Length1, 0);
      assert !InSomeArea(areas, 0, cells.Length1, 1);
      assert InSomeArea(areas, 1, cells.Length1, 1) by { assert areas[1] == Area(1, 2, 1, 2); }
    }
  }

  /** setup_new_flagset followed by new_flagset's fill: every row is FLAG_FALSE,
      except, when areas are given, the channels of the areas containing that row,
      which are FLAG_TRUE. An area overrunning some row raises IndexError at the first
      such row. */
  method NewFlagset(existing: seq<string>, rows: nat, columns: nat, areas: seq<Area>,
                    prefix: string, algorithm: Option<string>, params: FitsFlags.Params,
                    flagresult: Option<string>) returns (r: Result<HdfFlagSet>)
    ensures r.Err? <==> exists ii :: 0 <= ii < rows && RowOverruns(areas, ii, columns)
    ensures r.Err? ==> r.error == IndexError
    ensures r.Ok? ==> var fs := r.value;
      fs.name !in existing && (exists n: nat :: fs.name == TableName(prefix, n)) &&
      fs.attrs == (if Truthy(algorithm) then Some(Attrs(algorithm.value, params, flagresult)) else None) &&
      fresh(fs.cells) && fs.cells.Length0 == rows && fs.cells.Length1 == columns &&
      forall ii, xx :: 0 <= ii < rows && 0 <= xx < columns ==>
        fs.cells[ii, xx] == if InSomeArea(areas, ii, columns, xx) then FLAG_TRUE else FLAG_FALSE
  {
    var nm, n := FreeName(existing, prefix);
    var at := if Truthy(algorithm) then Some(Attrs(algorithm.value, params, flagresult)) else None;
    var m := new int[rows, columns];
    var ii := 0;
    while ii < rows
      invariant 0 <= ii <= rows
      invariant forall i :: 0 <= i < ii ==> !RowOverruns(areas, i, columns)
      invariant forall i, x :: 0 <= i < ii && 0 <= x < columns ==>
        m[i, x] == if InSomeArea(areas, i, columns, x) then FLAG_TRUE else FLAG_FALSE
    {
      var row := seq(columns, _ => FLAG_FALSE);
      if areas != [] {
        var buf := WriteAreas(row, areas, ii, FLAG_TRUE);
        if buf.Err? {
          return Err(IndexError);
        }
        row := buf.value;
      }
      StoreRow(m, ii, row);
      ii := ii + 1;
    }
    var fs := new HdfFlagSet(nm, at, m);
    return Ok(fs);
  }

  function MinA0(areas: seq<Area>): (m: int)
    requires areas != []
    ensures forall k :: 0 <= k < |areas| ==> m <= areas[k].a0
    ensures exists k :: 0 <= k < |areas| && m == areas[k].a0
  {
    if |areas| == 1 then areas[0].a0
    else
      var rest := MinA0(areas[1..]);
      assert forall k :: 1 <= k < |areas| ==> areas[k] == areas[1..][k - 1];
      if areas[0].a0 <= rest then areas[0].a0 else rest
  }

  function MaxA1(areas: seq<Area>): (m: int)
    requires areas != []
    ensures forall k :: 0 <= k < |areas| ==> areas[k].a1 <= m
    ensures exists k :: 0 <= k < |areas| && m == areas[k].a1
  {
    if |areas| == 1 then areas[0].a1
    else
      var rest := MaxA1(areas[1..]);
      assert forall k :: 1 <= k < |areas| ==> areas[k] == areas[1..][k - 1];
      if areas[0].a1 >= rest then areas[0].a1 else rest
  }

  /** Row i is visited by iterrows(start, stop), which follows slice semantics. */
  predicate InSlice(lo: int, hi: int, n: nat, i: int)
  {
    SliceBound(lo, n) <= i < SliceBound(hi, n)
  }

  /** Only rows in [min a0, max a1) are visited. */
  lemma VisitedRows(areas: seq<Area>, n: nat, i: int)
    requires areas != [] && 0 <= i < n
    requires InSlice(MinA0(areas), MaxA1(areas), n, i)
    requires MinA0(areas) >= 0 && MaxA1(areas) >= 0
    ensures MinA0(areas) <= i < MaxA1(areas)
  {
  }
}
