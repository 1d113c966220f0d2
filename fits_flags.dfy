/** The FITS flag table of dw/core/io.py (class FitsIO): one record per flagged
    rectangle, grouped into flag sets by their operation number `nop`. */
module FitsFlags {
  import opened Base

  /** (ymin, ymax, xmin, xmax), both ends inclusive: rows are time samples,
      columns are channels. */
  datatype Rect = Rect(ymin: int, ymax: int, xmin: int, xmax: int)

  datatype FlagRow = FlagRow(
    nop: int,
    algorithm: string,
    params: string,
    flagresult: string,
    rect: Rect,
    feed: string,
    section: string,
    pola: string)

  /** The FLAG TABLE extension: the data-matrix shape kept in its header and its rows. */
  datatype FlagTable = FlagTable(rows: nat, columns: nat, entries: seq<FlagRow>)

  /** Widths of the character columns of the table. */
  const ALGORITHM_WIDTH: nat := 150
  const PARAMS_WIDTH: nat := 500
  const FLAGRESULT_WIDTH: nat := 150
  const TEXT_WIDTH: nat := 10

  const TABLE_NAME := "FLAG TABLE"

  /** A string stored in a character column of the given width. */
  function Fit(s: string, width: nat): (r: string)
    ensures |r| <= width && r <= s
    ensures |s| <= width ==> r == s
  {
    if |s| <= width then s else s[..width]
  }

  /** The text numpy gives an absent (None) argument when it is stored in a
      character column. */
  const NONE_TEXT := "None"

  /** A possibly-absent text value as stored in a character column: the column
      holds str() of the value, so an absent value is stored as "None". */
  function Cell(v: Option<string>, width: nat): (r: string)
    ensures |r| <= width
    ensures v.Some? ==> r == Fit(v.value, width)
    ensures v.None? && width >= |NONE_TEXT| ==> r == NONE_TEXT
  {
    if v.Some? then Fit(v.value, width) else Fit(NONE_TEXT, width)
  }

  /** The `params` argument: absent, a string, or a dictionary given as its
      (str(key), str(value)) items in iteration order. */
  datatype Params = NoParams | ParamText(text: string) | ParamDict(items: seq<(string, string)>)

  function DictString(items: seq<(string, string)>): string
  {
    if items == [] then "" else items[0].0 + ": " + items[0].1 + " " + DictString(items[1..])
  }

  /** The text written to the params column. */
  function ParamsString(p: Params): string
  {
    match p
    case NoParams => ""
    case ParamText(t) => t
    case ParamDict(items) => DictString(items)
  }

  /** Each further dictionary item appends "key: value " to the text. */
  lemma {:induction false} DictStringSnoc(items: seq<(string, string)>, k: string, v: string)
    ensures DictString(items + [(k, v)]) == DictString(items) + k + ": " + v + " "
  {
    if items == [] {
      assert items + [(k, v)] == [(k, v)];
    } else {
      var head := items[0].0 + ": " + items[0].1 + " ";
      var tail := items[1..];
      assert (items + [(k, v)])[1..] == tail + [(k, v)];
      assert DictString(items) == head + DictString(tail);
      assert DictString(items + [(k, v)]) == head + DictString(tail + [(k, v)]);
      DictStringSnoc(tail, k, v);
      assert head + (DictString(tail) + k + ": " + v + " ") == (head + DictString(tail)) + k + ": " + v + " ";
    }
  }

  // ---------------------------------------------------------------- gen_flag_table

  /** Which records describe a flag set: a number selects by operation, a string by section. */
  datatype SelectKey = ByNop(nop: int) | BySection(section: string)

  predicate Selected(r: FlagRow, key: SelectKey)
  {
    match key
    case ByNop(n) => r.nop == n
    case BySection(s) => r.section == s
  }

  /** k lies in the numpy slice [lo:hi] of an axis of length n. */
  predicate InSlice(lo: int, hi: int, n: nat, k: int)
  {
    SliceBound(lo, n) <= k < SliceBound(hi, n)
  }

  /** Cell (i, j) is written by the record's slice assignment. */
  predicate Covers(r: FlagRow, rows: nat, columns: nat, i: int, j: int)
  {
    InSlice(r.rect.ymin, r.rect.ymax + 1, rows, i) && InSlice(r.rect.xmin, r.rect.xmax + 1, columns, j)
  }

  /** Some of the first k records selected by key covers cell (i, j). */
  predicate FlaggedBy(es: seq<FlagRow>, k: nat, key: SelectKey, rows: nat, columns: nat, i: int, j: int)
    requires k <= |es|
  {
    exists q :: 0 <= q < k && Selected(es[q], key) && Covers(es[q], rows, columns, i, j)
  }

  predicate Flagged(t: FlagTable, key: SelectKey, i: int, j: int)
  {
    FlaggedBy(t.entries, |t.entries|, key, t.rows, t.columns, i, j)
  }

  /** For rectangles with non-negative corners the slices are the inclusive ranges. */
  lemma CoversInclusive(r: FlagRow, rows: nat, columns: nat, i: int, j: int)
    requires r.rect.ymin >= 0 && r.rect.ymax >= 0 && r.rect.xmin >= 0 && r.rect.xmax >= 0
    requires 0 <= i < rows && 0 <= j < columns
    ensures Covers(r, rows, columns, i, j) <==>
      r.rect.ymin <= i <= r.rect.ymax && r.rect.xmin <= j <= r.rect.xmax
  {
  }

  /** Overlapping record sets simply OR: the cells flagged by a concatenation are
      those flagged by either part. */
  lemma FlaggedAppend(a: seq<FlagRow>, b: seq<FlagRow>, key: SelectKey, rows: nat, columns: nat, i: int, j: int)
    ensures FlaggedBy(a + b, |a + b|, key, rows, columns, i, j) <==>
      FlaggedBy(a, |a|, key, rows, columns, i, j) || FlaggedBy(b, |b|, key, rows, columns, i, j)
  {
    var ab := a + b;
    if FlaggedBy(ab, |ab|, key, rows, columns, i, j) {
      var q :| 0 <= q < |ab| && Selected(ab[q], key) && Covers(ab[q], rows, columns, i, j);
      if q < |a| {
        assert ab[q] == a[q];
      } else {
        assert ab[q] == b[q - |a|];
      }
    }
    if FlaggedBy(a, |a|, key, rows, columns, i, j) {
      var q :| 0 <= q < |a| && Selected(a[q], key) && Covers(a[q], rows, columns, i, j);
      assert ab[q] == a[q];
    }
    if FlaggedBy(b, |b|, key, rows, columns, i, j) {
      var q :| 0 <= q < |b| && Selected(b[q], key) && Covers(b[q], rows, columns, i, j);
      assert ab[|a| + q] == b[q];
    }
  }

  /** m[y0:y1, x0:x1] = FLAG_TRUE, with the bounds already normalised. */
  method FillRect(m: array2<int>, y0: nat, y1: nat, x0: nat, x1: nat)
    requires y1 <= m.Length0 && x1 <= m.Length1
    modifies m
    ensures forall i, j :: 0 <= i < m.Length0 && 0 <= j < m.Length1 ==>
      m[i, j] == if y0 <= i < y1 && x0 <= j < x1 then FLAG_TRUE else old(m[i, j])
  {
    var i := y0;
    while i < y1
      invariant if y0 <= y1 then y0 <= i <= y1 else i == y0
      invariant forall a, b :: 0 <= a < m.Length0 && 0 <= b < m.Length1 ==>
        m[a, b] == if y0 <= a < i && x0 <= b < x1 then FLAG_TRUE else old(m[a, b])
    {
      var j := x0;
      while j < x1
        invariant y0 <= i < y1
        invariant if x0 <= x1 then x0 <= j <= x1 else j == x0
        invariant forall a, b :: 0 <= a < m.Length0 && 0 <= b < m.Length1 ==>
          m[a, b] == if (y0 <= a < i && x0 <= b < x1) || (a == i && x0 <= b < j) then FLAG_TRUE else old(m[a, b])
      {
        m[i, j] := FLAG_TRUE;
        j := j + 1;
      }
      i := i + 1;
    }
  }

  /** gen_flag_table: the rows x columns matrix with every selected record's
      rectangle set to FLAG_TRUE. */
  method GenFlagTable(t: FlagTable, key: SelectKey) returns (m: array2<int>)
    ensures fresh(m) && m.Length0 == t.rows && m.Length1 == t.columns
    ensures forall i, j :: 0 <= i < t.rows && 0 <= j < t.columns ==>
      m[i, j] == if Flagged(t, key, i, j) then FLAG_TRUE else FLAG_FALSE
  {
    m := new int[t.rows, t.columns]((i, j) => FLAG_FALSE);
    var k := 0;
    while k < |t.entries|
      invariant 0 <= k <= |t.entries|
      invariant forall i, j :: 0 <= i < t.rows && 0 <= j < t.columns ==>
        m[i, j] == if FlaggedBy(t.entries, k, key, t.rows, t.columns, i, j) then FLAG_TRUE else FLAG_FALSE
    {
      var r := t.entries[k];
      if Selected(r, key) {
        FillRect(m, SliceBound(r.rect.ymin, t.rows), SliceBound(r.rect.ymax + 1, t.rows),
                 SliceBound(r.rect.xmin, t.columns), SliceBound(r.rect.xmax + 1, t.columns));
      }
      k := k + 1;
    }
  }

  /** get_flagc: per channel, 1 when no sample of that channel is flagged in
      section "Ch<section>", 0 otherwise (the product over rows of |cell - 1|). */
  method GetFlagc(t: Option<FlagTable>, section: int) returns (r: Result<seq<int>>)
    ensures t.None? ==> r == Err(KeyError)
    ensures t.Some? ==> r.Ok? && |r.value| == t.value.columns
    ensures t.Some? ==> forall j :: 0 <= j < t.value.columns ==>
      r.value[j] == if exists i :: 0 <= i < t.value.rows && Flagged(t.value, BySection("Ch" + IntToString(section)), i, j) then 0 else 1
  {
    if t.None? {
      return Err(KeyError);
    }
    var tab := t.value;
    var key := BySection("Ch" + IntToString(section));
    var m := GenFlagTable(tab, key);
    var flagc: seq<int> := [];
    var j := 0;
    while j < tab.columns
      invariant 0 <= j <= tab.columns && |flagc| == j
      invariant forall c :: 0 <= c < j ==>
        flagc[c] == if exists i :: 0 <= i < tab.rows && Flagged(tab, key, i, c) then 0 else 1
    {
      var prod := 1;
      var i := 0;
      while i < tab.rows
        invariant 0 <= i <= tab.rows
        invariant prod == if exists a :: 0 <= a < i && Flagged(tab, key, a, j) then 0 else 1
      {
        var cell := m[i, j] - 1;
        var abs := if cell < 0 then -cell else cell;
        prod := prod * abs;
        i := i + 1;
      }
      flagc := flagc + [prod];
      j := j + 1;
    }
    return Ok(flagc);
  }

  // ---------------------------------------------------------------- new_flagset

  /** The operation number of the table's last record, 0 when the table is absent or empty. */
  function LastNop(t: Option<FlagTable>): int
  {
    if t.None? || t.value.entries == [] then 0 else t.value.entries[|t.value.entries| - 1].nop
  }

  /** The records new_flagset appends: one per area, all under operation number nop. */
  function NewRows(nop: int, areas: seq<Rect>, feed: Option<string>, section: Option<string>,
                   pola: Option<string>, algorithm: Option<string>, params: Params,
                   flagresult: Option<string>): (r: seq<FlagRow>)
    ensures |r| == |areas|
    ensures forall k :: 0 <= k < |areas| ==> r[k].nop == nop && r[k].rect == areas[k]
    ensures forall k :: 0 <= k < |areas| ==>
      r[k].algorithm == Cell(algorithm, ALGORITHM_WIDTH) && r[k].flagresult == Cell(flagresult, FLAGRESULT_WIDTH) &&
      r[k].feed == Cell(feed, TEXT_WIDTH) && r[k].section == Cell(section, TEXT_WIDTH) &&
      r[k].pola == Cell(pola, TEXT_WIDTH) && r[k].params == Fit(ParamsString(params), PARAMS_WIDTH)
  {
    seq(|areas|, k requires 0 <= k < |areas| =>
      FlagRow(nop, Cell(algorithm, ALGORITHM_WIDTH), Fit(ParamsString(params), PARAMS_WIDTH),
              Cell(flagresult, FLAGRESULT_WIDTH), areas[k], Cell(feed, TEXT_WIDTH),
              Cell(section, TEXT_WIDTH), Cell(pola, TEXT_WIDTH)))
  }

  function Entries(t: Option<FlagTable>): seq<FlagRow>
  {
    if t.Some? then t.value.entries else []
  }

  /** FitsIO.new_flagset: append one record per area under operation number
      LastNop + 1; the table is created with the given shape when absent.
      Returns the extension name and the new table. */
  function NewFlagset(t: Option<FlagTable>, rows: nat, columns: nat, areas: seq<Rect>,
                      feed: Option<string>, section: Option<string>, pola: Option<string>,
                      algorithm: Option<string>, params: Params, flagresult: Option<string>): (r: (string, FlagTable))
    ensures r.0 == TABLE_NAME
    ensures r.1.entries == Entries(t) + NewRows(LastNop(t) + 1, areas, feed, section, pola, algorithm, params, flagresult)
    ensures t.Some? ==> r.1.rows == t.value.rows && r.1.columns == t.value.columns
    ensures t.None? ==> r.1.rows == rows && r.1.columns == columns
  {
    var base := if t.Some? then t.value else FlagTable(rows, columns, []);
    (TABLE_NAME, base.(entries := base.entries + NewRows(LastNop(t) + 1, areas, feed, section, pola, algorithm, params, flagresult)))
  }

  /** The existing records are kept as they are, and each area becomes one record,
      in order, with operation number LastNop + 1 and the stored field values. */
  lemma NewFlagsetSpec(t: Option<FlagTable>, rows: nat, columns: nat, areas: seq<Rect>,
                       feed: Option<string>, section: Option<string>, pola: Option<string>,
                       algorithm: Option<string>, params: Params, flagresult: Option<string>, k: nat)
    requires k < |areas|
    ensures var out := NewFlagset(t, rows, columns, areas, feed, section, pola, algorithm, params, flagresult).1.entries;
      |out| == |Entries(t)| + |areas| && out[..|Entries(t)|] == Entries(t) &&
      out[|Entries(t)| + k] == FlagRow(LastNop(t) + 1, Cell(algorithm, ALGORITHM_WIDTH),
        Fit(ParamsString(params), PARAMS_WIDTH), Cell(flagresult, FLAGRESULT_WIDTH), areas[k],
        Cell(feed, TEXT_WIDTH), Cell(section, TEXT_WIDTH), Cell(pola, TEXT_WIDTH))
  {
    var out := NewFlagset(t, rows, columns, areas, feed, section, pola, algorithm, params, flagresult).1.entries;
    var added := NewRows(LastNop(t) + 1, areas, feed, section, pola, algorithm, params, flagresult);
    assert out[|Entries(t)| + k] == added[k];
  }

  /** A flag set added to a table whose operation numbers are 1..K gets number K + 1
      when the records are in operation order. */
  lemma NewFlagsetNextNop(t: FlagTable, areas: seq<Rect>, feed: Option<string>, section: Option<string>,
                          pola: Option<string>, algorithm: Option<string>, params: Params,
                          flagresult: Option<string>)
    requires t.entries != []
    requires forall a, b :: 0 <= a < b < |t.entries| ==> t.entries[a].nop <= t.entries[b].nop
    requires areas != []
    ensures var r := NewFlagset(Some(t), 0, 0, areas, feed, section, pola, algorithm, params, flagresult).1;
      forall k :: 0 <= k < |t.entries| ==> t.entries[k].nop < r.entries[|r.entries| - 1].nop
  {
    var r := NewFlagset(Some(t), 0, 0, areas, feed, section, pola, algorithm, params, flagresult).1;
    assert r.entries[|t.entries| + |areas| - 1].nop == t.entries[|t.entries| - 1].nop + 1;
  }

  // ---------------------------------------------------------------- del_table

  function Renumber(r: FlagRow, n: int): FlagRow
  {
    if r.nop > n then r.(nop := r.nop - 1) else r
  }

  function KeepOthers(es: seq<FlagRow>, n: int): seq<FlagRow>
  {
    Filter(es, (r: FlagRow) => r.nop != n)
  }

  /** The records of del_table: operation n removed, later numbers shifted down. */
  function DelTableRows(es: seq<FlagRow>, n: int): (r: seq<FlagRow>)
  {
    var kept := KeepOthers(es, n);
    seq(|kept|, k requires 0 <= k < |kept| => Renumber(kept[k], n))
  }

  /** del_table on the whole table; a file without a flag table has no 'FLAG TABLE' key. */
  method DelTable(t: Option<FlagTable>, n: int) returns (r: Result<FlagTable>)
    ensures t.None? ==> r == Err(KeyError)
    ensures t.Some? ==> r == Ok(t.value.(entries := DelTableRows(t.value.entries, n)))
  {
    if t.None? {
      return Err(KeyError);
    }
    var kept := KeepOthers(t.value.entries, n);
    var nnop := kept;
    var i := 0;
    while i < |nnop|
      invariant 0 <= i <= |nnop| && |nnop| == |kept|
      invariant forall k :: 0 <= k < i ==> nnop[k] == Renumber(kept[k], n)
      invariant forall k :: i <= k < |nnop| ==> nnop[k] == kept[k]
    {
      if nnop[i].nop > n {
        nnop := nnop[i := nnop[i].(nop := nnop[i].nop - 1)];
      }
      i := i + 1;
    }
    assert nnop == DelTableRows(t.value.entries, n);
    return Ok(t.value.(entries := nnop));
  }

  /** Every record of operation n goes, every other record stays with only its
      operation number possibly lowered by one. */
  lemma DelTableRowsSpec(es: seq<FlagRow>, n: int)
    ensures forall r :: r in DelTableRows(es, n) ==> r.nop != n || (exists s :: s in es && s.nop == n + 1 && r == s.(nop := n))
    ensures forall s :: s in es && s.nop != n ==> Renumber(s, n) in DelTableRows(es, n)
    ensures forall s :: s in es && s.nop < n ==> s in DelTableRows(es, n)
  {
    var kept := KeepOthers(es, n);
    var out := DelTableRows(es, n);
    forall r | r in out
      ensures r.nop != n || (exists s :: s in es && s.nop == n + 1 && r == s.(nop := n))
    {
      var k :| 0 <= k < |out| && out[k] == r;
      FilterMembers(es, (x: FlagRow) => x.nop != n, kept[k]);
    }
    forall s | s in es && s.nop != n
      ensures Renumber(s, n) in out
    {
      FilterMembers(es, (x: FlagRow) => x.nop != n, s);
      var k :| 0 <= k < |kept| && kept[k] == s;
      assert out[k] == Renumber(s, n);
    }
  }

  function NopSet(es: seq<FlagRow>): set<int>
  {
    set r | r in es :: r.nop
  }

  /** Contiguous operation numbers 1..K stay contiguous as 1..K-1 after deleting one of them. */
  lemma DelTableKeepsContiguous(es: seq<FlagRow>, n: int, K: int)
    requires forall x :: x in NopSet(es) <==> 1 <= x <= K
    requires 1 <= n <= K
    ensures forall x :: x in NopSet(DelTableRows(es, n)) <==> 1 <= x <= K - 1
  {
    var kept := KeepOthers(es, n);
    var out := DelTableRows(es, n);
    forall y | y in NopSet(out)
      ensures 1 <= y <= K - 1
    {
      var r :| r in out && r.nop == y;
      var k :| 0 <= k < |out| && out[k] == r;
      FilterMembers(es, (x: FlagRow) => x.nop != n, kept[k]);
      assert kept[k].nop in NopSet(es);
    }
    forall y | 1 <= y <= K - 1
      ensures y in NopSet(out)
    {
      var want := if y < n then y else y + 1;
      assert want in NopSet(es);
      var s :| s in es && s.nop == want;
      FilterMembers(es, (x: FlagRow) => x.nop != n, s);
      var k :| 0 <= k < |kept| && kept[k] == s;
      assert out[k] == Renumber(s, n) && out[k].nop == y;
    }
  }

  // ---------------------------------------------------------------- del_sel_flags

  /** Closed intervals [a0, a1] and [b0, b1] meet iff min of the ends minus max of the
      starts is not negative (so touching intervals meet). */
  predicate Between(x: int, lo: int, hi: int) { lo <= x <= hi }

  lemma IntervalsMeet(a0: int, a1: int, b0: int, b1: int)
    ensures Min(a1, b1) - Max(a0, b0) >= 0 <==> exists x :: Between(x, a0, a1) && Between(x, b0, b1)
  {
    if Min(a1, b1) - Max(a0, b0) >= 0 {
      var x := Max(a0, b0);
      assert Between(x, a0, a1) && Between(x, b0, b1);
    }
  }

  /** A record is deleted when it meets the selected rectangle (closed intervals on
      both axes) and belongs to the same feed, section and polarisation. */
  predicate SelHit(r: FlagRow, feed: string, section: string, pola: string, sel: Rect)
  {
    Min(r.rect.xmax, sel.xmax) - Max(r.rect.xmin, sel.xmin) >= 0 &&
    Min(r.rect.ymax, sel.ymax) - Max(r.rect.ymin, sel.ymin) >= 0 &&
    r.feed == feed && r.section == section && r.pola == pola
  }

  /** del_sel_flags; feed and section arrive as their str() forms. */
  function DelSelFlags(t: Option<FlagTable>, feed: string, section: string, pola: string, sel: Rect): (r: Result<FlagTable>)
    ensures t.None? ==> r == Err(KeyError)
    ensures t.Some? ==> r.Ok? && r.value.rows == t.value.rows && r.value.columns == t.value.columns
  {
    if t.None? then Err(KeyError)
    else Ok(t.value.(entries := Filter(t.value.entries, (x: FlagRow) => !SelHit(x, feed, section, pola, sel))))
  }

  /** Deleting by selection removes exactly the hit records, keeps the others
      verbatim and in order, and renumbers nothing. */
  lemma DelSelFlagsSpec(t: FlagTable, feed: string, section: string, pola: string, sel: Rect, a: seq<FlagRow>, b: seq<FlagRow>)
    requires t.entries == a + b
    ensures var out := DelSelFlags(Some(t), feed, section, pola, sel).value.entries;
      forall r :: r in out <==> r in t.entries && !SelHit(r, feed, section, pola, sel)
    ensures DelSelFlags(Some(t), feed, section, pola, sel).value.entries ==
      DelSelFlags(Some(t.(entries := a)), feed, section, pola, sel).value.entries +
      DelSelFlags(Some(t.(entries := b)), feed, section, pola, sel).value.entries
  {
    var p := (x: FlagRow) => !SelHit(x, feed, section, pola, sel);
    forall r
      ensures r in Filter(t.entries, p) <==> r in t.entries && p(r)
    {
      FilterMembers(t.entries, p, r);
    }
    FilterAppend(a, b, p);
  }

  // ---------------------------------------------------------------- get_flagsets

  /** The distinct values of s, in order of first occurrence (the iteration of a set). */
  function Distinct(s: seq<int>): (r: seq<int>)
    ensures forall x :: x in r <==> x in s
    ensures forall a, b :: 0 <= a < b < |r| ==> r[a] != r[b]
  {
    if s == [] then []
    else
      var rest := Distinct(s[..|s| - 1]);
      if s[|s| - 1] in rest then rest else rest + [s[|s| - 1]]
  }

  /** A FITS flag set: an operation of one feed and section. */
  datatype FlagsetId = FlagsetId(feed: int, section: int, nop: int)

  /** The dictionary key the source builds for a flag set. The dictionaries of the
      model are keyed by FlagsetId; FlagsetKeyInjective shows that within one
      dataset this loses nothing. */
  function FlagsetName(id: FlagsetId): string
  {
    "Flag_F" + IntToString(id.feed) + "S" + IntToString(id.section) + ":" + IntToString(id.nop)
  }


  /** Distinct operations of the same feed and section get distinct keys. */
  lemma FlagsetKeyInjective(feed: int, section: int, a: int, b: int)
    requires FlagsetName(FlagsetId(feed, section, a)) == FlagsetName(FlagsetId(feed, section, b))
    ensures a == b
  {
    var p := "Flag_F" + IntToString(feed) + "S" + IntToString(section) + ":";
    assert FlagsetName(FlagsetId(feed, section, a)) == p + IntToString(a);
    assert FlagsetName(FlagsetId(feed, section, b)) == p + IntToString(b);
    assert IntToString(a) == (p + IntToString(a))[|p|..];
    assert IntToString(b) == (p + IntToString(b))[|p|..];
    IntToStringInjective(a, b);
  }

  /** What the interface shows for a flag set: feed, section, polarisation of the
      operation's first record and the algorithm column of its records. */
  datatype Rif = Rif(feed: int, section: int, pola: string, algorithms: seq<string>)

  function NopRows(es: seq<FlagRow>, nop: int): seq<FlagRow>
  {
    Filter(es, (r: FlagRow) => r.nop == nop)
  }

  function RifOf(es: seq<FlagRow>, feed: int, section: int, nop: int): Result<Rif>
  {
    var rows := NopRows(es, nop);
    if rows == [] then Err(IndexError)
    else Ok(Rif(feed, section, rows[0].pola, seq(|rows|, k requires 0 <= k < |rows| => rows[k].algorithm)))
  }

  /** The two dictionaries built for the operations in nops, in that order. */
  function BuildFlagsets(es: seq<FlagRow>, feed: int, section: int, nops: seq<int>): (map<FlagsetId, int>, map<FlagsetId, Rif>)
    requires forall a :: a in nops ==> NopRows(es, a) != []
  {
    if nops == [] then (map[], map[])
    else
      var rest := BuildFlagsets(es, feed, section, nops[..|nops| - 1]);
      var a := nops[|nops| - 1];
      var key := FlagsetId(feed, section, a);
      (rest.0[key := a], rest.1[key := RifOf(es, feed, section, a).value])
  }

  /** Every operation gets its own key holding its number and its Rif, and no other key appears. */
  lemma BuildFlagsetsSpec(es: seq<FlagRow>, feed: int, section: int, nops: seq<int>)
    requires forall a :: a in nops ==> NopRows(es, a) != []
    ensures var r := BuildFlagsets(es, feed, section, nops);
      (forall a :: a in nops ==> FlagsetId(feed, section, a) in r.0 && r.0[FlagsetId(feed, section, a)] == a) &&
      (forall k :: k in r.0 ==> exists a :: a in nops && k == FlagsetId(feed, section, a)) &&
      r.1.Keys == r.0.Keys &&
      (forall k :: k in r.1 ==> Ok(r.1[k]) == RifOf(es, feed, section, r.0[k]))
  {
    BuildFlagsetsKeys(es, feed, section, nops);
    BuildFlagsetsRifs(es, feed, section, nops);
    var r := BuildFlagsets(es, feed, section, nops);
    forall k | k in r.0 ensures exists a :: a in nops && k == FlagsetId(feed, section, a) {
      assert k == FlagsetId(feed, section, k.nop);
    }
  }

  /** The keys of both dictionaries are the operations' ids, each holding its operation number. */
  lemma {:induction false} BuildFlagsetsKeys(es: seq<FlagRow>, feed: int, section: int, nops: seq<int>)
    requires forall a :: a in nops ==> NopRows(es, a) != []
    ensures var r := BuildFlagsets(es, feed, section, nops);
      (forall a :: a in nops ==> FlagsetId(feed, section, a) in r.0) &&
      (forall k :: k in r.0 ==> k.feed == feed && k.section == section && k.nop in nops && r.0[k] == k.nop) &&
      r.1.Keys == r.0.Keys
  {
    if nops != [] {
      var init := nops[..|nops| - 1];
      var a := nops[|nops| - 1];
      assert nops == init + [a];
      BuildFlagsetsKeys(es, feed, section, init);
    }
  }

  /** The Rif under an operation's key is the one its records give. */
  lemma {:induction false} BuildFlagsetsRifs(es: seq<FlagRow>, feed: int, section: int, nops: seq<int>)
    requires forall a :: a in nops ==> NopRows(es, a) != []
    ensures var r := BuildFlagsets(es, feed, section, nops);
      forall k :: k in r.1 ==> Ok(r.1[k]) == RifOf(es, feed, section, k.nop)
  {
    if nops != [] {
      var init := nops[..|nops| - 1];
      var a := nops[|nops| - 1];
      assert nops == init + [a];
      BuildFlagsetsRifs(es, feed, section, init);
    }
  }

  /** The records of the dataset with (feed, section index) fs. */
  function FeedSectionRows(es: seq<FlagRow>, feed: int, section: int): seq<FlagRow>
  {
    Filter(es, (r: FlagRow) => OfFeedSection(r, feed, section))
  }

  function FeedSectionNops(es: seq<FlagRow>, feed: int, section: int): (r: seq<int>)
    ensures forall a :: a in r ==> NopRows(es, a) != []
  {
    var filt := FeedSectionRows(es, feed, section);
    var nops := Distinct(seq(|filt|, k requires 0 <= k < |filt| => filt[k].nop));
    assert forall a :: a in nops ==> NopRows(es, a) != [] by {
      forall a | a in nops ensures NopRows(es, a) != [] {
        var k :| 0 <= k < |filt| && filt[k].nop == a;
        FeedSectionRowsMembers(es, feed, section, filt[k]);
        FilterMembers(es, (r: FlagRow) => r.nop == a, filt[k]);
      }
    }
    nops
  }

  /** FitsIO.get_flagsets for the dataset whose (feed, section index) is fs. */
  function GetFlagsets(t: Option<FlagTable>, fs: Option<(int, int)>): (r: Result<(map<FlagsetId, int>, map<FlagsetId, Rif>)>)
    ensures t.None? ==> r == Err(KeyError)
    ensures t.Some? && fs.None? ==> r == Err(TypeError)
    ensures t.Some? && fs.Some? ==> r.Ok?
  {
    if t.None? then Err(KeyError)
    else if fs.None? then Err(TypeError)
    else
      var es := t.value.entries;
      Ok(BuildFlagsets(es, fs.value.0, fs.value.1, FeedSectionNops(es, fs.value.0, fs.value.1)))
  }

  predicate OfFeedSection(r: FlagRow, feed: int, section: int)
  {
    r.section == IntToString(section) && r.feed == IntToString(feed)
  }

  lemma FeedSectionRowsMembers(es: seq<FlagRow>, feed: int, section: int, x: FlagRow)
    ensures x in FeedSectionRows(es, feed, section) <==> x in es && OfFeedSection(x, feed, section)
  {
    FilterMembers(es, (r: FlagRow) => OfFeedSection(r, feed, section), x);
  }

  /** One handle per operation that has a record of the dataset's feed and
      section: its key holds the operation number and nothing else is listed. */
  lemma GetFlagsetsHandles(t: FlagTable, feed: int, section: int, nop: int)
    ensures var r := GetFlagsets(Some(t), Some((feed, section))).value;
      (exists s :: s in t.entries && s.nop == nop && OfFeedSection(s, feed, section))
        <==> (FlagsetId(feed, section, nop) in r.0 && r.0[FlagsetId(feed, section, nop)] == nop)
    ensures var r := GetFlagsets(Some(t), Some((feed, section))).value;
      forall k :: k in r.0 ==> k.feed == feed && k.section == section && k.nop == r.0[k]
  {
    var es := t.entries;
    var nops := FeedSectionNops(es, feed, section);
    BuildFlagsetsKeys(es, feed, section, nops);
    assert BuildFlagsets(es, feed, section, nops) == GetFlagsets(Some(t), Some((feed, section))).value;
    FeedSectionNopsMembers(es, feed, section, nop);
  }

  /** An operation is listed exactly when one of its records belongs to the dataset. */
  lemma FeedSectionNopsMembers(es: seq<FlagRow>, feed: int, section: int, nop: int)
    ensures nop in FeedSectionNops(es, feed, section) <==> exists s :: s in es && s.nop == nop && OfFeedSection(s, feed, section)
  {
    var filt := FeedSectionRows(es, feed, section);
    var ns := seq(|filt|, k requires 0 <= k < |filt| => filt[k].nop);
    assert FeedSectionNops(es, feed, section) == Distinct(ns);
    if exists s :: s in es && s.nop == nop && OfFeedSection(s, feed, section) {
      var s :| s in es && s.nop == nop && OfFeedSection(s, feed, section);
      FeedSectionRowsMembers(es, feed, section, s);
      var k :| 0 <= k < |filt| && filt[k] == s;
      assert ns[k] == nop;
    }
    if nop in ns {
      var k :| 0 <= k < |filt| && ns[k] == nop;
      FeedSectionRowsMembers(es, feed, section, filt[k]);
    }
  }

  /** Each listed flag set's Rif comes from the first record of its operation. */
  lemma GetFlagsetsRif(t: FlagTable, feed: int, section: int)
    ensures var r := GetFlagsets(Some(t), Some((feed, section))).value;
      r.1.Keys == r.0.Keys &&
      forall k :: k in r.1 ==> Ok(r.1[k]) == RifOf(t.entries, feed, section, r.0[k])
  {
    BuildFlagsetsSpec(t.entries, feed, section, FeedSectionNops(t.entries, feed, section));
  }

  // ---------------------------------------------------------------- get_table_meta

  datatype MetaLabel = AlgorithmMeta | ParamsMeta | FlagresultMeta

  function MetaOf(r: FlagRow, field: MetaLabel): string
  {
    match field
    case AlgorithmMeta => r.algorithm
    case ParamsMeta => r.params
    case FlagresultMeta => r.flagresult
  }

  /** get_table_meta: the field of the operation's first record. */
  function TableMeta(t: FlagTable, nop: int, field: MetaLabel): (r: Result<string>)
    ensures r.Err? <==> forall s :: s in t.entries ==> s.nop != nop
    ensures r.Ok? ==> exists k :: (0 <= k < |t.entries| && t.entries[k].nop == nop &&
      (forall q :: 0 <= q < k ==> t.entries[q].nop != nop) && r.value == MetaOf(t.entries[k], field))
  {
    var rows := NopRows(t.entries, nop);
    FirstOfFilter(t.entries, nop);
    if rows == [] then Err(IndexError) else Ok(MetaOf(rows[0], field))
  }

  lemma {:induction false} FirstOfFilter(es: seq<FlagRow>, nop: int)
    ensures NopRows(es, nop) == [] <==> forall s :: s in es ==> s.nop != nop
    ensures NopRows(es, nop) != [] ==> exists k :: (0 <= k < |es| && es[k] == NopRows(es, nop)[0] &&
      es[k].nop == nop && forall q :: 0 <= q < k ==> es[q].nop != nop)
  {
    var p := (r: FlagRow) => r.nop == nop;
    if es != [] {
      FirstOfFilter(es[1..], nop);
      assert es == [es[0]] + es[1..];
      if p(es[0]) {
        assert NopRows(es, nop)[0] == es[0];
      } else {
        assert NopRows(es, nop) == NopRows(es[1..], nop);
        if NopRows(es, nop) != [] {
          var k :| 0 <= k < |es| - 1 && es[1..][k] == NopRows(es[1..], nop)[0] &&
            es[1..][k].nop == nop && forall q :: 0 <= q < k ==> es[1..][q].nop != nop;
          assert es[k + 1] == es[1..][k];
          assert forall q :: 0 <= q < k + 1 ==> es[q].nop != nop by {
            forall q | 0 <= q < k + 1 ensures es[q].nop != nop {
              if q > 0 { assert es[q] == es[1..][q - 1]; }
            }
          }
        }
      }
    }
  }

  // ---------------------------------------------------------------- propag_to_feed

  function CopySuffix(nop: int, ofeed: string): string
  {
    "(copy of nop=" + IntToString(nop) + ", feed=" + ofeed + ")"
  }

  /** propag_to_feed: copy every rectangle of operation nop under another feed, as
      a new operation whose params record where the copy came from. */
  function PropagToFeed(t: Option<FlagTable>, nop: int, feed: string): (r: Result<FlagTable>)
    ensures t.None? ==> r == Err(KeyError)
    ensures t.Some? ==> (r.Err? <==> NopRows(t.value.entries, nop) == [])
  {
    if t.None? then Err(KeyError)
    else
      var rows := NopRows(t.value.entries, nop);
      if rows == [] then Err(IndexError)
      else
        var first := rows[0];
        var areas := seq(|rows|, k requires 0 <= k < |rows| => rows[k].rect);
        Ok(NewFlagset(t, 0, 0, areas, Some(feed), Some(first.section), Some(first.pola),
                      Some(first.algorithm), ParamText(first.params + CopySuffix(nop, first.feed)),
                      Some(first.flagresult)).1)
  }

  /** The copy appends one record per rectangle of the operation, in order, under
      the next operation number and the new feed; earlier records are untouched. */
  lemma PropagToFeedSpec(t: FlagTable, nop: int, feed: string)
    requires NopRows(t.entries, nop) != []
    ensures var rows := NopRows(t.entries, nop);
      var out := PropagToFeed(Some(t), nop, feed).value.entries;
      |out| == |t.entries| + |rows| && out[..|t.entries|] == t.entries &&
      forall k :: 0 <= k < |rows| ==>
        out[|t.entries| + k].rect == rows[k].rect &&
        out[|t.entries| + k].nop == LastNop(Some(t)) + 1 &&
        out[|t.entries| + k].feed == Fit(feed, TEXT_WIDTH) &&
        out[|t.entries| + k].section == Fit(rows[0].section, TEXT_WIDTH) &&
        out[|t.entries| + k].params == Fit(rows[0].params + CopySuffix(nop, rows[0].feed), PARAMS_WIDTH)
  {
    var rows := NopRows(t.entries, nop);
    var first := rows[0];
    var areas := seq(|rows|, k requires 0 <= k < |rows| => rows[k].rect);
    forall k | 0 <= k < |rows| {
      NewFlagsetSpec(Some(t), 0, 0, areas, Some(feed), Some(first.section), Some(first.pola),
                     Some(first.algorithm), ParamText(first.params + CopySuffix(nop, first.feed)),
                     Some(first.flagresult), k);
    }
  }

  // ---------------------------------------------------------------- propag_flag_table

  /** A target file's flag table after the source table is propagated to it: the
      source records after its own, or the whole source table when it has none. */
  function AppendTable(target: Option<FlagTable>, src: FlagTable): FlagTable
  {
    if target.Some? then target.value.(entries := target.value.entries + src.entries) else src
  }

  /** The effect of the first k targets: the files that could not be opened and
      the updated flag tables. A path absent from `disk` cannot be opened; the
      value of a present path is its flag table, if any. */
  function PropagUpTo(src: FlagTable, files: seq<string>, disk: map<string, Option<FlagTable>>, k: nat): (r: (seq<string>, map<string, Option<FlagTable>>))
    requires k <= |files|
    ensures r.1.Keys == disk.Keys
  {
    if k == 0 then ([], disk)
    else
      var (errs, d) := PropagUpTo(src, files, disk, k - 1);
      var f := files[k - 1];
      if f in d then (errs, d[f := Some(AppendTable(d[f], src))]) else (errs + [f], d)
  }

  /** propag_flag_table: best effort, collecting the names of the files that failed. */
  method PropagFlagTable(src: Option<FlagTable>, files: seq<string>, disk: map<string, Option<FlagTable>>)
    returns (r: Result<(seq<string>, map<string, Option<FlagTable>>)>)
    ensures src.None? ==> r == Err(KeyError)
    ensures src.Some? ==> r == Ok(PropagUpTo(src.value, files, disk, |files|))
  {
    if src.None? {
      return Err(KeyError);
    }
    var errorl: seq<string> := [];
    var d := disk;
    var k := 0;
    while k < |files|
      invariant 0 <= k <= |files|
      invariant (errorl, d) == PropagUpTo(src.value, files, disk, k)
    {
      var f := files[k];
      if f in d {
        d := d[f := Some(AppendTable(d[f], src.value))];
      } else {
        errorl := errorl + [f];
      }
      k := k + 1;
    }
    return Ok((errorl, d));
  }

  /** The failures are exactly the targets that cannot be opened, in order; no file
      appears or disappears, files not listed are untouched, and a file listed
      once receives the source records after its own. */
  lemma PropagUpToSpec(src: FlagTable, files: seq<string>, disk: map<string, Option<FlagTable>>, k: nat)
    requires k <= |files|
    ensures PropagUpTo(src, files, disk, k).0 == Filter(files[..k], (f: string) => f !in disk)
    ensures PropagUpTo(src, files, disk, k).1.Keys == disk.Keys
    ensures forall f :: f in disk && f !in files[..k] ==> PropagUpTo(src, files, disk, k).1[f] == disk[f]
    ensures forall q :: 0 <= q < k && files[q] in disk && (forall p :: 0 <= p < k && p != q ==> files[p] != files[q]) ==>
      PropagUpTo(src, files, disk, k).1[files[q]] == Some(AppendTable(disk[files[q]], src))
  {
    PropagUpToErrors(src, files, disk, k);
    PropagUpToUntouched(src, files, disk, k);
    forall q | 0 <= q < k && files[q] in disk && (forall p :: 0 <= p < k && p != q ==> files[p] != files[q]) {
      PropagUpToAppended(src, files, disk, k, q);
    }
  }

  lemma {:induction false} PropagUpToErrors(src: FlagTable, files: seq<string>, disk: map<string, Option<FlagTable>>, k: nat)
    requires k <= |files|
    ensures PropagUpTo(src, files, disk, k).0 == Filter(files[..k], (f: string) => f !in disk)
  {
    if k > 0 {
      PropagUpToErrors(src, files, disk, k - 1);
      var notIn := (f: string) => f !in disk;
      assert files[..k] == files[..k - 1] + [files[k - 1]];
      FilterAppend(files[..k - 1], [files[k - 1]], notIn);
      assert Filter([files[k - 1]], notIn) == if notIn(files[k - 1]) then [files[k - 1]] else [];
    }
  }

  lemma {:induction false} PropagUpToUntouched(src: FlagTable, files: seq<string>, disk: map<string, Option<FlagTable>>, k: nat)
    requires k <= |files|
    ensures forall f :: f in disk && f !in files[..k] ==> PropagUpTo(src, files, disk, k).1[f] == disk[f]
  {
    if k > 0 {
      PropagUpToUntouched(src, files, disk, k - 1);
      assert files[..k] == files[..k - 1] + [files[k - 1]];
    }
  }

  lemma {:induction false} PropagUpToAppended(src: FlagTable, files: seq<string>, disk: map<string, Option<FlagTable>>, k: nat, q: nat)
    requires q < k <= |files| && files[q] in disk
    requires forall p :: 0 <= p < k && p != q ==> files[p] != files[q]
    ensures PropagUpTo(src, files, disk, k).1[files[q]] == Some(AppendTable(disk[files[q]], src))
  {
    var f := files[k - 1];
    var d := PropagUpTo(src, files, disk, k - 1).1;
    assert PropagUpTo(src, files, disk, k).1 == if f in d then d[f := Some(AppendTable(d[f], src))] else d;
    if q == k - 1 {
      var pre := files[..k - 1];
      assert f !in pre by {
        forall p | 0 <= p < |pre| ensures pre[p] != f {
          assert pre[p] == files[p];
        }
      }
      PropagUpToUntouched(src, files, disk, k - 1);
    } else {
      assert files[k - 1] != files[q];
      PropagUpToAppended(src, files, disk, k - 1, q);
    }
  }
}
