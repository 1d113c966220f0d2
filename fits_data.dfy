/** The FITS data helpers of dw/core/io.py (class FitsIO): splitting a data column
    into chunks of one section's bins, the corrected-data checks, the rows the
    median is taken over, the scan classification, the polarisation labels, the
    dataset lookup and the placement of a fit in the fit file. */
module FitsData {
  import opened Base
  import FitsFlags

  type Matrix = seq<seq<real>>

  /** The extension a table reference [fileh, extension, column] points at, with
      the stored column of a numeric table. */
  datatype Extension =
    | DataTable(column: Matrix, width: nat)
    | CorrDataTable(column: Matrix, width: nat)
    | FlagTableExt(table: FitsFlags.FlagTable)
    | OtherTable

  predicate Numeric(ext: Extension)
  {
    ext.DataTable? || ext.CorrDataTable?
  }

  /** What get_data and get_cdata return: float chunks of a column, or a flag matrix. */
  datatype Loaded = Chunks(chunks: seq<Matrix>) | FlagMatrix(mask: array2<int>)

  /** len(column[0]), or 1 when the column has no rows and the lookup fails. */
  function RowLength(column: Matrix, width: nat): nat
  {
    if column == [] then 1 else width
  }

  /** column[:, r:r+b]. */
  function Chunk(column: Matrix, r: int, b: int): (c: Matrix)
    ensures |c| == |column|
    ensures forall i :: 0 <= i < |column| ==> c[i] == PySlice(column[i], r, r + b)
  {
    seq(|column|, i requires 0 <= i < |column| => PySlice(column[i], r, r + b))
  }

  function NonNeg(n: int): nat
  {
    if n < 0 then 0 else n
  }

  /** The list get_data builds for a numeric column: the whole column when l / b
      is 1, else one chunk of b channels for each a in range(l / b). */
  function DataChunks(column: Matrix, l: nat, b: int): (r: seq<Matrix>)
  {
    var n := NumpyDiv(l, b);
    if n == 1 then [column] else seq(NonNeg(n), a requires 0 <= a < NonNeg(n) => Chunk(column, a * b, b))
  }

  /** The matrix gen_flag_table returns for the records of the given section. */
  ghost predicate FlagMask(t: FitsFlags.FlagTable, section: string, m: array2<int>)
    reads m
  {
    m.Length0 == t.rows && m.Length1 == t.columns &&
    forall i, j :: 0 <= i < t.rows && 0 <= j < t.columns ==>
      m[i, j] == if FitsFlags.Flagged(t, FitsFlags.BySection(section), i, j) then FLAG_TRUE else FLAG_FALSE
  }

  /** get_data. The number of bins is that of the first section. */
  method GetData(ext: Extension, column: string, bins: seq<int>) returns (r: Result<Loaded>)
    ensures ext.OtherTable? ==> r == Err(UnboundLocalError)
    ensures Numeric(ext) && bins == [] ==> r == Err(IndexError)
    ensures Numeric(ext) && bins != [] ==>
      r == Ok(Chunks(DataChunks(ext.column, RowLength(ext.column, ext.width), bins[0])))
    ensures Numeric(ext) && bins != [] && bins[0] == 0 ==> r == Ok(Chunks([]))
    ensures ext.FlagTableExt? ==> (r.Ok? && r.value.FlagMatrix? && FlagMask(ext.table, column, r.value.mask))
  {
    match ext {
      case OtherTable =>
        return Err(UnboundLocalError);
      case FlagTableExt(t) =>
        var m := FitsFlags.GenFlagTable(t, FitsFlags.BySection(column));
        return Ok(FlagMatrix(m));
      case _ =>
        var l := RowLength(ext.column, ext.width);
        if bins == [] {
          return Err(IndexError);
        }
        var b := bins[0];
        var dat := NumericChunks(ext.column, l, b);
        return Ok(Chunks(dat));
    }
  }

  /** The chunk loop of get_data. */
  method NumericChunks(column: Matrix, l: nat, b: int) returns (dat: seq<Matrix>)
    ensures dat == DataChunks(column, l, b)
  {
    var n := NumpyDiv(l, b);
    dat := [];
    if n == 1 {
      dat := [column];
    } else {
      var a := 0;
      while a < n
        invariant 0 <= a <= NonNeg(n) && |dat| == a
        invariant forall k :: 0 <= k < a ==> dat[k] == Chunk(column, k * b, b)
      {
        dat := dat + [Chunk(column, a * b, b)];
        a := a + 1;
      }
    }
  }

  function Concat(rows: seq<seq<real>>): seq<real>
  {
    if rows == [] then [] else Concat(rows[..|rows| - 1]) + rows[|rows| - 1]
  }

  lemma BlockInside(a: nat, n: nat, b: nat)
    requires a < n
    ensures 0 <= a * b && a * b + b <= n * b
  {
    assert n * b == (n - a - 1) * b + a * b + b;
  }

  /** Values [a * b, a * b + b) of a row holding at least k blocks of b. */
  function Block(row: seq<real>, b: nat, a: nat, k: nat): (r: seq<real>)
    requires a < k && k * b <= |row|
    ensures |r| == b
  {
    BlockInside(a, k, b);
    row[a * b..a * b + b]
  }

  /** With positive bins and l / b not 1, chunk a of row i is that row's block a. */
  lemma ChunkOfRow(column: Matrix, width: nat, b: nat, a: nat, i: nat)
    requires IsMatrix(column, width) && b > 0 && NumpyDiv(width, b) != 1
    requires a < NonNeg(NumpyDiv(width, b)) && i < |column|
    ensures NonNeg(NumpyDiv(width, b)) * b <= |column[i]|
    ensures DataChunks(column, width, b)[a][i] == Block(column[i], b, a, NonNeg(NumpyDiv(width, b)))
  {
    var n := NonNeg(NumpyDiv(width, b));
    var lo := a * b;
    BlockInside(a, n, b);
    assert n * b <= width;
    assert 0 <= lo <= lo + b <= |column[i]|;
    assert DataChunks(column, width, b)[a] == Chunk(column, lo, b);
    assert Chunk(column, lo, b)[i] == PySlice(column[i], lo, lo + b);
  }

  /** The first k blocks of b values of a row, side by side, are its first k * b values. */
  lemma {:induction false} ConcatBlocks(row: seq<real>, b: nat, k: nat)
    requires k * b <= |row|
    ensures Concat(seq(k, a requires 0 <= a < k => Block(row, b, a, k))) == row[..k * b]
  {
    var parts := seq(k, a requires 0 <= a < k => Block(row, b, a, k));
    if k == 0 {
      assert parts == [];
    } else {
      var m := k - 1;
      var lo := m * b;
      assert lo + b == k * b;
      assert 0 <= lo;
      ConcatBlocks(row, b, m);
      var prev := seq(m, a requires 0 <= a < m => Block(row, b, a, m));
      forall a | 0 <= a < m
        ensures parts[a] == prev[a]
      {
        BlockInside(a, m, b);
      }
      assert parts[..m] == prev;
      assert parts[m] == row[lo..lo + b];
      assert Concat(parts) == Concat(prev) + parts[m];
      assert row[..lo + b] == row[..lo] + row[lo..lo + b];
    }
  }

  /** When l / b is not 1 and the bins are positive, the chunks of a row of a
      rectangular column, put back together, give that row's first (l / b) * b
      channels. */
  lemma DataChunksReassemble(column: Matrix, width: nat, b: nat, i: nat)
    requires IsMatrix(column, width) && b > 0 && NumpyDiv(width, b) != 1 && i < |column|
    ensures var cs := DataChunks(column, width, b);
      |cs| * b <= |column[i]| &&
      Concat(seq(|cs|, a requires 0 <= a < |cs| => cs[a][i])) == column[i][..|cs| * b]
  {
    var cs := DataChunks(column, width, b);
    var n := NonNeg(NumpyDiv(width, b));
    assert |cs| == n;
    assert n * b <= |column[i]| by {
      if n > 0 {
        ChunkOfRow(column, width, b, 0, i);
      }
    }
    forall a | 0 <= a < n
      ensures cs[a][i] == Block(column[i], b, a, n)
    {
      ChunkOfRow(column, width, b, a, i);
    }
    assert seq(n, a requires 0 <= a < n => cs[a][i]) == seq(n, a requires 0 <= a < n => Block(column[i], b, a, n));
    ConcatBlocks(column[i], b, n);
  }

  // ------------------------------------------------------------------ get_cdata

  /** A row of the correction file's FIT DATA TABLE. */
  datatype CorrRow = CorrRow(section: int, fit: seq<real>)

  /** The correction rows selected by `corrtab.field('section') == section`. */
  function SectionRows(corr: seq<CorrRow>, section: int): (r: seq<CorrRow>)
    ensures forall x :: x in r ==> x in corr && x.section == section
  {
    Filter(corr, (c: CorrRow) => c.section == section)
  }

  /** The chunk get_cdata builds for columns [r, r+b): each data row divided by the
      same slice of the one matching correction row. */
  function CorrectedChunk(column: Matrix, fit: seq<real>, r: int, b: int): (c: Matrix)
    requires forall i :: 0 <= i < |column| ==> |column[i]| == |fit|
    ensures |c| == |column|
  {
    seq(|column|, i requires 0 <= i < |column| => Div0(PySlice(column[i], r, r + b), PySlice(fit, r, r + b)))
  }

  /** Every check of get_cdata on a DATA TABLE before the chunk loop passed. */
  predicate CdataChecked(column: Matrix, width: nat, bins: seq<int>, corr: seq<CorrRow>)
  {
    corr != [] && RowLength(column, width) == |corr[0].fit| && bins != [] &&
    NumpyDiv(RowLength(column, width), bins[0]) != 1
  }

  /** get_cdata. The section is the integer after the column name's "Ch"; the
      correction rows of the FIT DATA TABLE all hold fits of one length. */
  method GetCdata(ext: Extension, column: string, bins: seq<int>, corr: seq<CorrRow>) returns (r: Result<Loaded>)
    requires Numeric(ext) ==> IsMatrix(ext.column, ext.width)
    requires forall k :: 0 <= k < |corr| ==> |corr[k].fit| == |corr[0].fit|
    ensures ParseInt(PyDrop(column, 2)).Err? ==> r == Err(ValueError)
    ensures ParseInt(PyDrop(column, 2)).Ok? ==> (ext.OtherTable? || ext.CorrDataTable?) ==> r == Err(UnboundLocalError)
    ensures ParseInt(PyDrop(column, 2)).Ok? && ext.DataTable? ==>
      (r.Ok? <==> (CdataChecked(ext.column, ext.width, bins, corr) &&
        (ext.column == [] || NumpyDiv(RowLength(ext.column, ext.width), bins[0]) < 2 ||
         |SectionRows(corr, ParseInt(PyDrop(column, 2)).value)| == 1)))
    ensures ParseInt(PyDrop(column, 2)).Ok? && ext.DataTable? && r.Ok? && ext.column != [] ==>
      var b := bins[0];
      var ms := SectionRows(corr, ParseInt(PyDrop(column, 2)).value);
      r.value.Chunks? && |r.value.chunks| == NonNeg(NumpyDiv(ext.width, b)) &&
      (|r.value.chunks| > 0 ==> (|ms| == 1 &&
        forall a :: 0 <= a < |r.value.chunks| ==> r.value.chunks[a] == CorrectedChunk(ext.column, ms[0].fit, a * b, b)))
    ensures ParseInt(PyDrop(column, 2)).Ok? && ext.DataTable? ==>
      CdataChecked(ext.column, ext.width, bins, corr) && bins[0] == 0 ==> r == Ok(Chunks([]))
    ensures ParseInt(PyDrop(column, 2)).Ok? && ext.FlagTableExt? ==>
      (r.Ok? && r.value.FlagMatrix? && FlagMask(ext.table, column, r.value.mask))
  {
    var parsed := ParseInt(PyDrop(column, 2));
    if parsed.Err? {
      return Err(ValueError);
    }
    var section := parsed.value;
    match ext {
      case OtherTable =>
        return Err(UnboundLocalError);
      case CorrDataTable(_, _) =>
        return Err(UnboundLocalError);
      case FlagTableExt(t) =>
        var m := FitsFlags.GenFlagTable(t, FitsFlags.BySection(column));
        return Ok(FlagMatrix(m));
      case DataTable(col, width) =>
        var l := RowLength(col, width);
        if corr == [] {
          return Err(IndexError);
        }
        if l != |corr[0].fit| {
          return Err(ValueError);
        }
        if bins == [] {
          return Err(IndexError);
        }
        var b := bins[0];
        var n := NumpyDiv(l, b);
        if n == 1 {
          return Err(ValueError);
        }
        var ms := SectionRows(corr, section);
        assert forall k :: 0 <= k < |ms| ==> ms[k] in corr;
        r := CorrectedChunks(col, ms, n, b);
    }
  }

  /** The loop over chunks of get_cdata. */
  method CorrectedChunks(col: Matrix, ms: seq<CorrRow>, n: int, b: int) returns (r: Result<Loaded>)
    requires forall k :: 0 <= k < |ms| ==> forall i :: 0 <= i < |col| ==> |col[i]| == |ms[k].fit|
    ensures r.Err? <==> col != [] && n >= 1 && |ms| != 1
    ensures r.Err? ==> r.error == ValueError
    ensures r.Ok? ==> r.value.Chunks? && |r.value.chunks| == NonNeg(n)
    ensures r.Ok? && col != [] && n >= 1 ==> (|ms| == 1 &&
      forall a :: 0 <= a < NonNeg(n) ==> r.value.chunks[a] == CorrectedChunk(col, ms[0].fit, a * b, b))
    ensures r.Ok? && col == [] ==> forall a :: 0 <= a < NonNeg(n) ==> r.value.chunks[a] == []
  {
    var dat: seq<Matrix> := [];
    var a := 0;
    while a < n
      invariant 0 <= a <= NonNeg(n) && |dat| == a
      invariant a > 0 && col != [] ==> |ms| == 1
      invariant col != [] && a > 0 ==> forall k :: 0 <= k < a ==> dat[k] == CorrectedChunk(col, ms[0].fit, k * b, b)
      invariant col == [] ==> forall k :: 0 <= k < a ==> dat[k] == []
    {
      var t := DivideChunk(col, ms, a * b, b);
      if t.Err? {
        return Err(ValueError);
      }
      dat := dat + [t.value];
      a := a + 1;
    }
    return Ok(Chunks(dat));
  }

  /** One chunk of get_cdata: every row of col[:, r:r+b] goes through div0 with the
      matching correction rows, which broadcast onto the row only when there is
      exactly one of them. */
  method DivideChunk(col: Matrix, ms: seq<CorrRow>, r: int, b: int) returns (res: Result<Matrix>)
    requires forall k :: 0 <= k < |ms| ==> forall i :: 0 <= i < |col| ==> |col[i]| == |ms[k].fit|
    ensures col == [] ==> res == Ok([])
    ensures col != [] && |ms| != 1 ==> res == Err(ValueError)
    ensures col != [] && |ms| == 1 ==> res == Ok(CorrectedChunk(col, ms[0].fit, r, b))
  {
    var t := Chunk(col, r, b);
    var i := 0;
    while i < |t|
      invariant 0 <= i <= |t| && |t| == |col|
      invariant i > 0 ==> |ms| == 1
      invariant forall q :: 0 <= q < i ==> t[q] == Div0(PySlice(col[q], r, r + b), PySlice(ms[0].fit, r, r + b))
      invariant forall q :: i <= q < |t| ==> t[q] == PySlice(col[q], r, r + b)
    {
      if |ms| != 1 {
        return Err(ValueError);
      }
      t := t[i := Div0(t[i], PySlice(ms[0].fit, r, r + b))];
      i := i + 1;
    }
    if col != [] {
      assert t == CorrectedChunk(col, ms[0].fit, r, b);
    }
    return Ok(t);
  }

  // ----------------------------------------------------------------- get_median

  /** np.arange(lo, hi). */
  function Arange(lo: int, hi: int): (r: seq<int>)
    ensures |r| == NonNeg(hi - lo) && forall k :: 0 <= k < |r| ==> r[k] == lo + k
  {
    seq(NonNeg(hi - lo), k requires 0 <= k < NonNeg(hi - lo) => lo + k)
  }

  /** The row indices np.r_[excluded:range_i, -range_s:-excluded], where a zero
      range stands for half of the s rows. */
  function MedianRowIndices(s: nat, rangeI: int, rangeS: int, excluded: int): seq<int>
  {
    var ri := if rangeI == 0 then s / 2 else rangeI;
    var rs := if rangeS == 0 then s / 2 else rangeS;
    Arange(excluded, ri) + Arange(-rs, -excluded)
  }

  /** rows[idx], numpy fancy indexing, which fails on any index outside [-s, s). */
  function Take(rows: Matrix, idx: seq<int>): (r: Result<Matrix>)
    ensures r.Ok? <==> forall k :: 0 <= k < |idx| ==> -|rows| <= idx[k] < |rows|
    ensures r.Ok? ==> |r.value| == |idx| && forall k :: 0 <= k < |idx| ==> PyIndex(rows, idx[k]) == Ok(r.value[k])
  {
    if idx == [] then Ok([])
    else
      match PyIndex(rows, idx[0])
      case Err(e) => Err(e)
      case Ok(row) =>
        match Take(rows, idx[1..])
        case Err(e) => Err(e)
        case Ok(rest) =>
          assert forall k :: 1 <= k < |idx| ==> idx[k] == idx[1..][k - 1];
          Ok([row] + rest)
  }

  /** data_a[rows, mpol:Mpol] for one table, checked against the b columns vstack expects. */
  function TableSelection(rows: Matrix, width: nat, b: int, pol: int, rangeI: int, rangeS: int, excluded: int): (r: Result<Matrix>)
    requires IsMatrix(rows, width)
  {
    match Take(rows, MedianRowIndices(|rows|, rangeI, rangeS, excluded))
    case Err(e) => Err(e)
    case Ok(sel) =>
      if NonNeg(SliceBound(b * pol + b, width) - SliceBound(b * pol, width)) != b then Err(ValueError)
      else Ok(seq(|sel|, k requires 0 <= k < |sel| => PySlice(sel[k], b * pol, b * pol + b)))
  }

  /** One of the tables get_median averages over: its column and row width. */
  datatype MedianTable = MedianTable(rows: Matrix, width: nat)

  ghost predicate WellShaped(tables: seq<MedianTable>)
  {
    forall k :: 0 <= k < |tables| ==> IsMatrix(tables[k].rows, tables[k].width)
  }

  /** The rows stacked after the first k tables. */
  function MedianUpTo(tables: seq<MedianTable>, b: int, pol: int, lri: seq<int>, lrs: seq<int>, lex: seq<int>, k: nat): Result<Matrix>
    requires WellShaped(tables) && k <= |tables|
  {
    if k == 0 then Ok([])
    else
      match MedianUpTo(tables, b, pol, lri, lrs, lex, k - 1)
      case Err(e) => Err(e)
      case Ok(data) =>
        if k - 1 >= |lri| || k - 1 >= |lrs| || k - 1 >= |lex| then Err(IndexError)
        else
          match TableSelection(tables[k - 1].rows, tables[k - 1].width, b, pol, lri[k - 1], lrs[k - 1], lex[k - 1])
          case Err(e) => Err(e)
          case Ok(sel) => Ok(data + sel)
  }

  /** get_median up to the median itself: the channel axis range(b) and the stacked
      rows whose per-channel median is returned. */
  method GetMedianRows(tables: seq<MedianTable>, bins: seq<int>, section: int, pol: int,
                       lri: seq<int>, lrs: seq<int>, lex: seq<int>) returns (r: Result<(seq<int>, Matrix)>)
    requires WellShaped(tables)
    ensures tables == [] ==> r == Err(IndexError)
    ensures tables != [] && PyIndex(bins, section).Err? ==> r == Err(IndexError)
    ensures tables != [] && PyIndex(bins, section).Ok? ==>
      var b := PyIndex(bins, section).value;
      if b < 0 then r == Err(ValueError)
      else match MedianUpTo(tables, b, pol, lri, lrs, lex, |tables|)
        case Err(e) => r == Err(e)
        case Ok(data) => r == Ok((Arange(0, b), data))
  {
    if tables == [] {
      return Err(IndexError);
    }
    var bo := PyIndex(bins, section);
    if bo.Err? {
      return Err(IndexError);
    }
    var b := bo.value;
    if b < 0 {
      return Err(ValueError);
    }
    var data := StackSelections(tables, b, pol, lri, lrs, lex);
    if data.Err? {
      return Err(data.error);
    }
    return Ok((Arange(0, b), data.value));
  }

  /** The loop of get_median over the tables, stopping at the first that fails. */
  method StackSelections(tables: seq<MedianTable>, b: int, pol: int, lri: seq<int>, lrs: seq<int>, lex: seq<int>)
    returns (r: Result<Matrix>)
    requires WellShaped(tables)
    ensures r == MedianUpTo(tables, b, pol, lri, lrs, lex, |tables|)
  {
    var data: Matrix := [];
    var k := 0;
    while k < |tables|
      invariant 0 <= k <= |tables|
      invariant MedianUpTo(tables, b, pol, lri, lrs, lex, k) == Ok(data)
    {
      if k >= |lri| || k >= |lrs| || k >= |lex| {
        assert MedianUpTo(tables, b, pol, lri, lrs, lex, k + 1) == Err(IndexError);
        MedianErrorSticks(tables, b, pol, lri, lrs, lex, k + 1);
        return Err(IndexError);
      }
      var sel := TableSelection(tables[k].rows, tables[k].width, b, pol, lri[k], lrs[k], lex[k]);
      if sel.Err? {
        MedianErrorSticks(tables, b, pol, lri, lrs, lex, k + 1);
        return Err(sel.error);
      }
      data := data + sel.value;
      k := k + 1;
    }
    return Ok(data);
  }

  /** Once a table fails, get_median fails with that error. */
  lemma {:induction false} MedianErrorSticks(tables: seq<MedianTable>, b: int, pol: int, lri: seq<int>, lrs: seq<int>, lex: seq<int>, k: nat)
    requires WellShaped(tables) && 0 < k <= |tables|
    requires MedianUpTo(tables, b, pol, lri, lrs, lex, k).Err?
    ensures MedianUpTo(tables, b, pol, lri, lrs, lex, |tables|) == MedianUpTo(tables, b, pol, lri, lrs, lex, k)
    decreases |tables| - k
  {
    if k < |tables| {
      assert MedianUpTo(tables, b, pol, lri, lrs, lex, k + 1) == MedianUpTo(tables, b, pol, lri, lrs, lex, k);
      MedianErrorSticks(tables, b, pol, lri, lrs, lex, k + 1);
    }
  }

  /** With ranges inside the table the selected rows are the window
      [excluded, range_i) followed by the window [s - range_s, s - excluded). */
  lemma MedianWindows(s: nat, rangeI: int, rangeS: int, excluded: int, k: nat)
    requires rangeI != 0 && rangeS != 0
    requires 0 <= excluded <= rangeI <= s && excluded <= rangeS <= s
    requires k < |MedianRowIndices(s, rangeI, rangeS, excluded)|
    ensures var idx := MedianRowIndices(s, rangeI, rangeS, excluded);
      |idx| == (rangeI - excluded) + (rangeS - excluded) &&
      (k < rangeI - excluded ==> idx[k] == excluded + k) &&
      (k >= rangeI - excluded ==> s + idx[k] == s - rangeS + (k - (rangeI - excluded)))
  {
  }

  /** With the default ranges and nothing excluded an even table contributes every row. */
  lemma MedianDefaultRows(s: nat)
    requires s % 2 == 0
    ensures var idx := MedianRowIndices(s, 0, 0, 0);
      |idx| == s && forall k :: 0 <= k < s ==> (if idx[k] < 0 then s + idx[k] else idx[k]) == k
  {
  }

  // ------------------------------------------------------------------ set_type

  datatype ScanKind = On | Off | OTF | Unknown

  /** The scan types of an on-the-fly map. */
  const OTF_TYPES: seq<string> := ["RA", "DEC", "AZ", "EL", "GLON", "GLAT", "GCIRCLE"]

  /** set_type as written: the or-chain after `t == 'RA'` has the non-empty string
      'DEC' as its second operand, so every type other than TRACKING is OTF. A
      file without the signal keyword counts as REFERENCE. */
  function SetTypeAsWritten(t: string, signal: Option<string>): (r: ScanKind)
    ensures r == On <==> t == "TRACKING" && signal == Some("SIGNAL")
    ensures r == Off <==> t == "TRACKING" && (signal.None? || signal == Some("REFERENCE"))
    ensures r == OTF <==> t != "TRACKING"
  {
    var s := if signal.Some? then signal.value else "REFERENCE";
    if t == "TRACKING" then
      if s == "SIGNAL" then On else if s == "REFERENCE" then Off else Unknown
    else OTF
  }

  /** set_type with the membership test the or-chain evidently means. */
  function SetType(t: string, signal: Option<string>): (r: ScanKind)
    ensures r == OTF <==> t in OTF_TYPES
    ensures r == Unknown <==> (t == "TRACKING" && signal.Some? && signal.value != "SIGNAL" && signal.value != "REFERENCE") ||
                              (t != "TRACKING" && t !in OTF_TYPES)
    ensures t == "TRACKING" || t in OTF_TYPES ==> r == SetTypeAsWritten(t, signal)
  {
    var s := if signal.Some? then signal.value else "REFERENCE";
    if t == "TRACKING" then
      if s == "SIGNAL" then On else if s == "REFERENCE" then Off else Unknown
    else if t in OTF_TYPES then OTF
    else Unknown
  }

  /** A scan type outside the list, such as "FOCUS", is OTF as written and Unknown as intended. */
  lemma SetTypeUnlistedType()
    ensures SetTypeAsWritten("FOCUS", None) == OTF
    ensures SetType("FOCUS", None) == Unknown
  {
    assert "FOCUS" !in OTF_TYPES;
  }

  // ----------------------------------------------------------------- get_polars

  const POLARS: seq<string> := ["L", "R", "Q", "U"]

  /** get_polars: LR for two bins-wide blocks per row of Ch0, LRQU for four, None otherwise. */
  function GetPolars(ch0: Matrix, width: nat, bins: seq<int>): (r: Result<Option<seq<string>>>)
    ensures ch0 == [] || bins == [] ==> r == Err(IndexError)
    ensures ch0 != [] && bins != [] && bins[0] == 0 ==> r == Ok(None)
    ensures ch0 != [] && bins != [] ==> (r.Ok? &&
      (r.value.Some? <==> NumpyDiv(width, bins[0]) == 2 || NumpyDiv(width, bins[0]) == 4))
    ensures r.Ok? && r.value.Some? ==> r.value.value == POLARS[..NumpyDiv(width, bins[0])]
  {
    if ch0 == [] || bins == [] then Err(IndexError)
    else
      var n := NumpyDiv(width, bins[0]);
      if n == 2 then Ok(Some(["L", "R"]))
      else if n == 4 then Ok(Some(["L", "R", "Q", "U"]))
      else Ok(None)
  }

  /** For positive bins the labelled blocks fit the row and no further block does. */
  lemma PolarsFitRow(ch0: Matrix, width: nat, bins: seq<int>)
    requires bins != [] && bins[0] > 0
    requires GetPolars(ch0, width, bins).Ok? && GetPolars(ch0, width, bins).value.Some?
    ensures var n := |GetPolars(ch0, width, bins).value.value|;
      n * bins[0] <= width < (n + 1) * bins[0]
  {
  }

  // ---------------------------------------------------------- get_feed_section

  /** s[n:] */
  function PyDrop(s: string, n: nat): string
  {
    if n <= |s| then s[n..] else []
  }

  predicate IsDigit(c: char)
  {
    '0' <= c <= '9'
  }

  predicate AllDigits(s: string)
  {
    forall k :: 0 <= k < |s| ==> IsDigit(s[k])
  }

  /** The value of a string of decimal digits. */
  function DigitsValue(s: string): nat
    requires AllDigits(s)
  {
    if s == [] then 0
    else
      assert IsDigit(s[|s| - 1]);
      10 * DigitsValue(s[..|s| - 1]) + (s[|s| - 1] as int - '0' as int)
  }

  /** int(s), for an optional sign followed by decimal digits. */
  function ParseInt(s: string): (r: Result<int>)
    ensures r.Err? ==> r.error == ValueError
  {
    var neg := s != [] && s[0] == '-';
    var digits := if s != [] && (s[0] == '-' || s[0] == '+') then s[1..] else s;
    if digits != [] && AllDigits(digits) then
      var v: int := DigitsValue(digits);
      Ok(if neg then -v else v)
    else Err(ValueError)
  }

  lemma {:induction false} DigitsOfNat(n: nat)
    ensures AllDigits(NatToString(n))
    ensures DigitsValue(NatToString(n)) == n
  {
    var s := NatToString(n);
    if n >= 10 {
      DigitsOfNat(n / 10);
      assert s == NatToString(n / 10) + [DigitChar(n % 10)];
      assert s[..|s| - 1] == NatToString(n / 10);
    } else {
      assert s == [DigitChar(n)];
      assert s[..0] == [];
    }
  }

  /** A leading minus sign negates the digits after it. */
  lemma ParseMinus(s: string, d: string, v: nat)
    requires s == "-" + d && d != [] && AllDigits(d) && DigitsValue(d) == v
    ensures ParseInt(s) == Ok(0 - v)
  {
    assert s[0] == '-' && s[1..] == d;
  }

  lemma ParseNegative(n: int)
    requires n < 0
    ensures ParseInt(IntToString(n)) == Ok(n)
  {
    var d := NatToString(-n);
    DigitsOfNat(-n);
    NegativeSpelling(n);
    ParseMinus(IntToString(n), d, -n);
  }

  lemma NegativeSpelling(n: int)
    requires n < 0
    ensures IntToString(n) == "-" + NatToString(-n)
  {
  }

  lemma ParseNonNegative(n: nat)
    ensures ParseInt(IntToString(n)) == Ok(n)
  {
    var s := IntToString(n);
    DigitsOfNat(n);
    assert s == NatToString(n);
    assert IsDigit(s[0]);
    assert ParseInt(s) == Ok(DigitsValue(s));
  }

  /** int() reads back what str() writes. */
  lemma ParseIntToString(n: int)
    ensures ParseInt(IntToString(n)) == Ok(n)
  {
    if n < 0 {
      ParseNegative(n);
    } else {
      ParseNonNegative(n);
    }
  }

  /** s.split(c)[-1]: the part of s after its last c, or all of s. */
  function AfterLast(s: string, c: char): (r: string)
    ensures c !in r && |r| <= |s| && r == s[|s| - |r|..]
  {
    if s == [] then []
    else if s[|s| - 1] == c then []
    else AfterLast(s[..|s| - 1], c) + [s[|s| - 1]]
  }

  lemma {:induction false} AfterLastPlain(p: string, c: char, t: string)
    requires c !in t
    ensures AfterLast(p + [c] + t, c) == t
  {
    var s := p + [c] + t;
    if t == [] {
      assert s[|s| - 1] == c;
    } else {
      var u, x := t[..|t| - 1], t[|t| - 1];
      assert t == u + [x];
      assert c !in u;
      assert s == (p + [c] + u) + [x];
      assert s[|s| - 1] == x && x != c;
      assert s[..|s| - 1] == p + [c] + u;
      AfterLastPlain(p, c, u);
    }
  }

  /** The position of x in s, the first one. */
  function IndexOf(s: seq<int>, x: int): (r: Option<nat>)
    ensures r.None? <==> x !in s
    ensures r.Some? ==> r.value < |s| && s[r.value] == x && forall k :: 0 <= k < r.value ==> s[k] != x
  {
    if s == [] then None
    else if s[0] == x then Some(0)
    else match IndexOf(s[1..], x)
      case None => None
      case Some(k) => Some(k + 1)
  }

  /** The first feed, in key order, whose sections contain dataset, and the
      section's position among that feed's sections. */
  function FindSection(fs: seq<(int, seq<int>)>, dataset: int): (r: Option<(int, nat)>)
    ensures r.None? <==> forall k :: 0 <= k < |fs| ==> dataset !in fs[k].1
    ensures r.Some? ==> exists k :: (0 <= k < |fs| && fs[k].0 == r.value.0 &&
      IndexOf(fs[k].1, dataset) == Some(r.value.1) && forall q :: 0 <= q < k ==> dataset !in fs[q].1)
  {
    if fs == [] then None
    else match IndexOf(fs[0].1, dataset)
      case Some(i) => Some((fs[0].0, i))
      case None =>
        var rest := FindSection(fs[1..], dataset);
        assert forall k :: 1 <= k < |fs| ==> fs[k] == fs[1..][k - 1];
        if rest.Some? then
          assert exists k :: (1 <= k < |fs| && fs[k].0 == rest.value.0 &&
            IndexOf(fs[k].1, dataset) == Some(rest.value.1) && forall q :: 0 <= q < k ==> dataset !in fs[q].1) by {
            var k :| 0 <= k < |fs[1..]| && fs[1..][k].0 == rest.value.0 &&
              IndexOf(fs[1..][k].1, dataset) == Some(rest.value.1) && forall q :: 0 <= q < k ==> dataset !in fs[1..][q].1;
            assert fs[k + 1] == fs[1..][k];
          }
          rest
        else rest
  }

  /** get_feed_section: (feed, index) of the dataset whose number follows the last
      'h' of the column name; no match gives None. */
  function GetFeedSection(fs: seq<(int, seq<int>)>, column: string): (r: Result<Option<(int, nat)>>)
    ensures r.Err? <==> ParseInt(AfterLast(column, 'h')).Err?
    ensures r.Ok? ==> r.value == FindSection(fs, ParseInt(AfterLast(column, 'h')).value)
  {
    match ParseInt(AfterLast(column, 'h'))
    case Err(e) => Err(e)
    case Ok(d) => Ok(FindSection(fs, d))
  }

  /** The column "Ch" + str(i) of a dataset finds section i. */
  lemma FeedSectionOfColumn(fs: seq<(int, seq<int>)>, i: int)
    ensures GetFeedSection(fs, "Ch" + IntToString(i)) == Ok(FindSection(fs, i))
  {
    var t := IntToString(i);
    assert 'h' !in t by {
      if i < 0 {
        assert t == "-" + NatToString(-i);
        assert forall k :: 1 <= k < |t| ==> t[k] == NatToString(-i)[k - 1];
      }
    }
    assert "Ch" + t == "C" + ['h'] + t;
    AfterLastPlain("C", 'h', t);
    ParseIntToString(i);
  }

  // -------------------------------------------------------------- upd_fit_file

  /** fit_data[row][l*pol : l*pol+l] = fit, with l = len(fit): the slice must hold
      exactly l values, except that one value broadcasts over an empty slice. */
  function UpdFitRow(row: seq<real>, fit: seq<real>, pol: int): (r: Result<seq<real>>)
    ensures var lo, hi := SliceBound(|fit| * pol, |row|), SliceBound(|fit| * pol + |fit|, |row|);
      (r.Ok? <==> NonNeg(hi - lo) == |fit| || (|fit| == 1 && NonNeg(hi - lo) == 0)) &&
      (r.Err? ==> r.error == ValueError) &&
      (r.Ok? ==> |r.value| == |row|) &&
      (r.Ok? && NonNeg(hi - lo) == |fit| ==> (r.value[lo..lo + |fit|] == fit &&
        r.value[..lo] == row[..lo] && r.value[lo + |fit|..] == row[lo + |fit|..])) &&
      (r.Ok? && NonNeg(hi - lo) != |fit| ==> r.value == row)
  {
    var l := |fit|;
    var lo, hi := SliceBound(l * pol, |row|), SliceBound(l * pol + l, |row|);
    if NonNeg(hi - lo) == l then Ok(row[..lo] + fit + row[lo + l..])
    else if l == 1 && NonNeg(hi - lo) == 0 then Ok(row)
    else Err(ValueError)
  }

  /** A fit placed inside the row reads back from the same slice. */
  lemma UpdFitRowReadBack(row: seq<real>, fit: seq<real>, pol: nat)
    requires |fit| * pol + |fit| <= |row|
    ensures UpdFitRow(row, fit, pol).Ok?
    ensures PySlice(UpdFitRow(row, fit, pol).value, |fit| * pol, |fit| * pol + |fit|) == fit
  {
    assert 0 <= |fit| * pol;
  }

  /** upd_fit_file on the FIT DATA TABLE: the row of the selected section gets the
      fit in the slice of the selected polarisation. */
  function UpdFitFile(table: seq<seq<real>>, section: int, pol: int, fit: seq<real>): (r: Result<seq<seq<real>>>)
    ensures PyIndex(table, section).Err? ==> r == Err(IndexError)
    ensures PyIndex(table, section).Ok? ==>
      var i := if section < 0 then |table| + section else section;
      match UpdFitRow(table[i], fit, pol)
      case Err(e) => r == Err(e)
      case Ok(row) => r == Ok(table[i := row])
  {
    if PyIndex(table, section).Err? then Err(IndexError)
    else
      var i := if section < 0 then |table| + section else section;
      match UpdFitRow(table[i], fit, pol)
      case Err(e) => Err(e)
      case Ok(row) => Ok(table[i := row])
  }
}
