/** The C kernels of libdw/src/lib.c: a structure shared with the Python side
    that holds the input spectrogram, the output flag matrices and the maps
    between available and selected flag products. Matrices are row-major
    buffers of rows * cols cells; buffer addresses are nullable array references. */
module LibDw {

  /** dw_struct. A ctypes Structure starts zero-filled: every buffer address NULL and
      every count 0. */
  class DwStruct {
    var data: array?<real>
    var rows: int
    var cols: int
    var flagData: array?<array?<bv8>>
    var lFlag: int
    var flagDataInd: array?<int>
    var flagProduct: array?<int>
    var lFlagProd: int

    constructor ()
      ensures data == null && rows == 0 && cols == 0
      ensures flagData == null && lFlag == 0
      ensures flagDataInd == null && flagProduct == null && lFlagProd == 0
    {
      data := null;
      rows := 0;
      cols := 0;
      flagData := null;
      lFlag := 0;
      flagDataInd := null;
      flagProduct := null;
      lFlagProd := 0;
    }

    /** The slot array is allocated with lFlag entries. */
    ghost predicate SlotsAllocated()
      reads this
    {
      flagData != null && flagData.Length == lFlag
    }

    /** init_dw: record the data buffer and its shape. */
    method InitDw(d: array<real>, r: int, c: int) returns (status: int)
      modifies this
      ensures data == d && rows == r && cols == c
      ensures flagData == old(flagData) && lFlag == old(lFlag)
      ensures flagDataInd == old(flagDataInd) && flagProduct == old(flagProduct) && lFlagProd == old(lFlagProd)
      ensures status == 0
    {
      data := d;
      rows := r;
      cols := c;
      return 0;
    }

    /** dw_alloc_flag_out: a fresh array of n slots (malloc leaves them
        undefined; here they are NULL) and l_flag = n. */
    method AllocFlagOut(n: int) returns (status: int)
      requires n >= 0
      modifies this
      ensures fresh(flagData) && flagData.Length == n && lFlag == n
      ensures forall k :: 0 <= k < n ==> flagData[k] == null
      ensures data == old(data) && rows == old(rows) && cols == old(cols)
      ensures flagDataInd == old(flagDataInd) && flagProduct == old(flagProduct) && lFlagProd == old(lFlagProd)
      ensures status == 0
    {
      flagData := new array?<bv8>[n](_ => null);
      lFlag := n;
      return 0;
    }

    /** dw_set_flag_out as the C code is written: the only guard is the upper
        bound, so the store happens exactly when i < l_flag. */
    static predicate SetFlagOutStoresAsWritten(i: int, l: int)
    {
      !(i >= l)
    }

    /** dw_set_flag_out with the slot index checked on both sides: -1 and no
        change for an index outside [0, l_flag), otherwise slot i is set. */
    method SetFlagOut(m: array<bv8>, i: int) returns (status: int)
      requires SlotsAllocated()
      modifies flagData
      ensures status == (if 0 <= i < lFlag then 0 else -1)
      ensures forall k :: 0 <= k < flagData.Length ==>
        flagData[k] == (if k == i then m else old(flagData[k]))
    {
      if i < 0 || i >= lFlag {
        return -1;
      }
      flagData[i] := m;
      return 0;
    }

    /** dw_set_flag_prod: copy the first l entries of fp into a fresh
        flag_product and the first l_flag entries of fdi into a fresh
        flag_data_ind. */
    method SetFlagProd(fp: array<int>, l: int, fdi: array<int>) returns (status: int)
      requires 0 <= l <= fp.Length
      requires 0 <= lFlag <= fdi.Length
      modifies this
      ensures fresh(flagProduct) && flagProduct[..] == old(fp[..l])
      ensures fresh(flagDataInd) && flagDataInd[..] == old(fdi[..lFlag])
      ensures lFlagProd == l
      ensures data == old(data) && rows == old(rows) && cols == old(cols)
      ensures flagData == old(flagData) && lFlag == old(lFlag)
      ensures status == 0
    {
      flagProduct := CopyPrefix(fp, l);
      lFlagProd := l;
      flagDataInd := CopyPrefix(fdi, lFlag);
      return 0;
    }

    /** A flag matrix that matches the data shape. */
    ghost predicate IsFlagMatrix(m: array?<bv8>)
      reads this
    {
      m != null && rows >= 0 && cols > 0 && m.Length == rows * cols
    }

    /** dw_single_channel: in matrix 0 every cell of column `channel` is set
        to 1 and no other cell changes. */
    method SingleChannel(channel: int) returns (status: int)
      requires SlotsAllocated() && lFlag >= 1 && IsFlagMatrix(flagData[0])
      requires 0 <= channel < cols
      modifies flagData[0]
      ensures forall k :: 0 <= k < old(flagData[0]).Length ==>
        old(flagData[0])[k] == if Col(k, cols) == channel then 1 else old(flagData[0][k])
      ensures status == 0
    {
      var m := flagData[0];
      var row := 0;
      while row < rows
        invariant 0 <= row <= rows
        invariant forall k :: 0 <= k < m.Length ==>
          m[k] == if Col(k, cols) == channel && RowIx(k, cols) < row then 1 else old(m[k])
      {
        var w := row * cols + channel;
        CellOf(row, channel, rows, cols);
        m[w] := 1;
        forall k | 0 <= k < m.Length
          ensures m[k] == if Col(k, cols) == channel && RowIx(k, cols) < row + 1 then 1 else old(m[k])
        {
          if k != w && Col(k, cols) == channel && RowIx(k, cols) == row {
            SameCell(k, row, channel, cols);
          }
        }
        row := row + 1;
      }
      forall k | 0 <= k < m.Length
        ensures RowIx(k, cols) < rows
      {
        RowOf(k, rows, cols);
      }
      return 0;
    }

    /** The cells dw_even_odd sets: the even columns of the matrix in slot
        flag_product[0] and the odd columns of the one in slot
        flag_product[1], each only when that product is selected. */
    ghost predicate EvenOddCell(m: array<bv8>, k: int)
      requires cols > 0 && flagProduct != null && flagProduct.Length >= 2 && SlotsAllocated()
      reads this, flagProduct, flagData
    {
      (0 <= flagProduct[0] < flagData.Length && flagData[flagProduct[0]] == m && Col(k, cols) % 2 == 0) ||
      (0 <= flagProduct[1] < flagData.Length && flagData[flagProduct[1]] == m && Col(k, cols) % 2 == 1)
    }

    /** The matrix a selected product writes to exists and has the data shape. */
    ghost predicate ProductReady(p: int)
      requires flagProduct != null && 0 <= p < flagProduct.Length && SlotsAllocated()
      reads this, flagProduct, flagData
    {
      flagProduct[p] > -1 ==> flagProduct[p] < lFlag && IsFlagMatrix(flagData[flagProduct[p]])
    }

    /** The matrices dw_even_odd may write. */
    ghost function EvenOddTargets(): set<array<bv8>>
      requires flagProduct != null && flagProduct.Length >= 2 && SlotsAllocated()
      requires ProductReady(0) && ProductReady(1)
      reads this, flagProduct, flagData
    {
      (if flagProduct[0] > -1 then {flagData[flagProduct[0]]} else {}) +
      (if flagProduct[1] > -1 then {flagData[flagProduct[1]]} else {})
    }

    /** dw_even_odd: exactly the EvenOddCell cells become 1; channel_start is
        unused by the C code. */
    method EvenOdd(channelStart: real) returns (status: int)
      requires SlotsAllocated() && flagProduct != null && flagProduct.Length >= 2
      requires ProductReady(0) && ProductReady(1)
      requires cols > 0
      modifies EvenOddTargets()
      ensures forall m :: m in old(EvenOddTargets()) ==>
        forall k :: 0 <= k < m.Length ==> m[k] == if old(EvenOddCell(m, k)) then 1 else old(m[k])
      ensures status == 0
    {
      var f0, f1 := flagProduct[0], flagProduct[1];
      if f0 > -1 {
        var a := flagData[f0];
        var b := if f1 > -1 then flagData[f1] else a;
        FlagColumns(a, rows, cols, 0);
        if f1 > -1 {
          FlagColumns(b, rows, cols, 1);
        }
      } else if f1 > -1 {
        FlagColumns(flagData[f1], rows, cols, 1);
      }
      return 0;
    }

    /** dw_full_dwt: not implemented in the C code; it returns 0 and writes nothing. */
    method FullDwt(thK: real) returns (status: int)
      ensures status == 0
    {
      return 0;
    }
  }

  /** A fresh array holding the first n entries of src, copied one by one. */
  method CopyPrefix(src: array<int>, n: int) returns (dst: array<int>)
    requires 0 <= n <= src.Length
    ensures fresh(dst) && dst[..] == src[..n]
  {
    dst := new int[n];
    var ii := 0;
    while ii < n
      invariant 0 <= ii <= n
      invariant dst[..ii] == src[..ii]
    {
      dst[ii] := src[ii];
      ii := ii + 1;
    }
    assert dst[..] == dst[..n];
  }

  /** The column and the row of cell k of a row-major matrix with cols columns. */
  function Col(k: int, cols: int): int
    requires cols > 0
  {
    k % cols
  }

  function RowIx(k: int, cols: int): int
    requires cols > 0
  {
    k / cols
  }

  /** A product of x and a positive d lies strictly between -d and d only for x = 0. */
  lemma MulBounded(x: int, d: int)
    requires d > 0 && -d < x * d < d
    ensures x == 0
  {
    assert x >= 1 ==> x * d >= d;
    assert x <= -1 ==> x * d <= -d;
  }

  /** Euclidean division has one quotient and one remainder. */
  lemma DivModUnique(k: int, d: int, q: int, r: int)
    requires d > 0 && 0 <= r < d && k == q * d + r
    ensures k / d == q && k % d == r
  {
    var q', r' := k / d, k % d;
    assert q' * d + r' == q * d + r;
    assert (q - q') * d == r' - r;
    MulBounded(q - q', d);
  }

  /** Cell (row, c) of a row-major rows x cols matrix sits at row * cols + c,
      and that index gives back its row and column. */
  lemma CellOf(row: int, c: int, rows: int, cols: int)
    requires 0 <= row < rows && 0 <= c < cols
    ensures 0 <= row * cols + c < rows * cols
    ensures Col(row * cols + c, cols) == c && RowIx(row * cols + c, cols) == row
  {
    assert (rows - row) * cols >= cols by {
      assert rows - row >= 1;
    }
    DivModUnique(row * cols + c, cols, row, c);
  }

  /** A cell is determined by its row and column. */
  lemma SameCell(k: int, row: int, c: int, cols: int)
    requires cols > 0 && Col(k, cols) == c && RowIx(k, cols) == row
    ensures k == row * cols + c
  {
  }

  lemma RowOf(k: int, rows: int, cols: int)
    requires cols > 0 && rows >= 0 && 0 <= k < rows * cols
    ensures RowIx(k, cols) < rows
  {
    var q := k / cols;
    assert q * cols <= k;
    assert q >= rows ==> q * cols >= rows * cols;
  }

  /** One parity of dw_even_odd's loops: every column ii = start, start + 2, ...
      of m, row by row; every other cell is kept. */
  method FlagColumns(m: array<bv8>, rows: int, cols: int, start: int)
    requires rows >= 0 && cols > 0 && m.Length == rows * cols
    requires start == 0 || start == 1
    modifies m
    ensures forall k :: 0 <= k < m.Length ==>
      m[k] == if Col(k, cols) % 2 == start then 1 else old(m[k])
  {
    var ii := start;
    while ii < cols
      invariant start <= ii && ii % 2 == start
      invariant forall k :: 0 <= k < m.Length ==>
        m[k] == if Col(k, cols) % 2 == start && Col(k, cols) < ii then 1 else old(m[k])
    {
      var row := 0;
      while row < rows
        invariant 0 <= row <= rows
        invariant forall k :: 0 <= k < m.Length ==>
          m[k] == if (Col(k, cols) % 2 == start && Col(k, cols) < ii) || (Col(k, cols) == ii && RowIx(k, cols) < row) then 1 else old(m[k])
      {
        var w := row * cols + ii;
        CellOf(row, ii, rows, cols);
        m[w] := 1;
        forall k | 0 <= k < m.Length
          ensures m[k] == if (Col(k, cols) % 2 == start && Col(k, cols) < ii) || (Col(k, cols) == ii && RowIx(k, cols) < row + 1) then 1 else old(m[k])
        {
          if k != w && Col(k, cols) == ii && RowIx(k, cols) == row {
            SameCell(k, row, ii, cols);
          }
        }
        row := row + 1;
      }
      forall k | 0 <= k < m.Length
        ensures RowIx(k, cols) < rows
      {
        RowOf(k, rows, cols);
      }
      ii := ii + 2;
    }
    assert forall k :: 0 <= k < m.Length ==> Col(k, cols) < ii;
  }

  /** Slot -1 passes the guard of dw_set_flag_out as written, so the C code
      stores below the start of its slot array. */
  lemma SetFlagOutNegativeSlot()
    ensures DwStruct.SetFlagOutStoresAsWritten(-1, 1) && !(0 <= -1 < 1)
  {
  }

  /** bootstrap_resample: output slot ii receives rand() % len_in, an index
      into the input and not one of its values. rand() is the sequence
      `draws` of non-negative numbers. */
  method BootstrapResample(xIn: array<real>, lenIn: int, xOut: array<real>, lenOut: int, draws: seq<nat>)
    returns (status: int)
    requires lenIn > 0 && 0 <= lenOut <= xOut.Length && |draws| >= lenOut
    modifies xOut
    ensures forall ii :: 0 <= ii < lenOut ==> xOut[ii] == (draws[ii] % lenIn) as real
    ensures forall ii :: 0 <= ii < lenOut ==> 0.0 <= xOut[ii] < lenIn as real
    ensures forall ii :: lenOut <= ii < xOut.Length ==> xOut[ii] == old(xOut[ii])
    ensures status == 0
  {
    var ii := 0;
    while ii < lenOut
      invariant 0 <= ii <= lenOut
      invariant forall q :: 0 <= q < ii ==> xOut[q] == (draws[q] % lenIn) as real
      invariant forall q :: ii <= q < xOut.Length ==> xOut[q] == old(xOut[q])
    {
      xOut[ii] := (draws[ii] % lenIn) as real;
      ii := ii + 1;
    }
    return 0;
  }
}
