/** The Recurrence class of recurrence/recurrence.py: the plot it keeps, the
    memo dictionaries r_plot resets, and the rqa_* methods that fill them.
    Every method keeps Valid(): each memo entry is the value the method would
    compute from the current plot. */
module RecurrencePlot {
  import opened Base
  import opened RunLengths
  import opened RqaSpec
  import opened RqaMemo

  /** What an rqa_* method gives back: -1 before any plot, a raised
      exception, or a value. */
  datatype Measure<T> = NoPlot | Raised(error: PyError) | Value(value: T)

  function FromResult<T>(res: Result<T>): Measure<T>
  {
    if res.Ok? then Value(res.value) else Raised(res.error)
  }

  /** rqa_l_freq_dist's loop over diagonals lo .. hi-1, adding each
      diagonal's run-length histogram with weight w. */
  method AddDiagonals(m: Matrix, th: real, p: Counts, lo: int, hi: int, w: int) returns (d: Counts)
    requires Square(m)
    ensures d == LineFrom(m, th, p, lo, hi, w)
  {
    d := p;
    if lo < hi {
      var dd := lo;
      while dd < hi
        invariant lo <= dd <= hi
        invariant d == LineFrom(m, th, p, lo, dd, w)
      {
        var x := Diagonal(m, th, dd);
        var dl := CountSeq(x);
        LineFromStep(m, th, p, lo, dd, w);
        var next := AddItems(d, dl, w);
        assert next == LineFrom(m, th, p, lo, dd + 1, w);
        d := next;
        dd := dd + 1;
      }
    }
  }

  /** rqa_l_freq_dist's table: with a symmetric norm the main diagonal is
      one line of length n and diagonals 1 .. n-1 count twice, otherwise
      diagonals -n .. n-1 count once. */
  method LineFreqDist(m: Matrix, th: real, symmetric: bool) returns (d: Counts)
    requires Square(m)
    ensures d == LineDist(m, th, symmetric)
  {
    var n := |m|;
    if symmetric {
      d := AddDiagonals(m, th, [(n, 1)], 1, n, 2);
    } else {
      d := AddDiagonals(m, th, [], -n, n, 1);
    }
  }

  /** The column loop of rqa_v_freq_dist. */
  method VertFreqDist(m: Matrix, th: real) returns (d: Counts)
    requires Square(m)
    ensures d == VertDist(m, th)
  {
    d := [];
    var c := 0;
    while c < |m|
      invariant 0 <= c <= |m|
      invariant d == VertFrom(m, th, c)
    {
      var dl := CountSeq(Column(m, th, c));
      VertFromStep(m, th, c);
      d := AddItems(d, dl, 1);
      c := c + 1;
    }
  }

  /** The loop of _rqa_lv_dist_min: the lengths of at least mMin with a
      non-zero count, and those counts, in dictionary order. */
  method SelectLines(d: Counts, mMin: real) returns (l: seq<nat>, p: seq<int>)
    ensures l == Keys(Selected(d, mMin)) && p == Values(Selected(d, mMin))
  {
    l, p := [], [];
    var i := 0;
    while i < |d|
      invariant 0 <= i <= |d|
      invariant l == Keys(Selected(d[..i], mMin)) && p == Values(Selected(d[..i], mMin))
    {
      var item := d[i];
      assert d[..i + 1] == d[..i] + [item];
      SelectedSnoc(d[..i], item, mMin);
      var prev := Selected(d[..i], mMin);
      if item.0 as real >= mMin && item.1 != 0 {
        assert Selected(d[..i + 1], mMin) == prev + [item];
        KeysSnoc(prev, item);
        ValuesSnoc(prev, item);
      } else {
        assert Selected(d[..i + 1], mMin) == prev;
      }
      if item.0 as real >= mMin {
        if item.1 != 0 {
          l := l + [item.0];
          p := p + [item.1];
        }
      }
      i := i + 1;
    }
    assert d[..|d|] == d;
  }

  /** The entries of a at distance less than lag from the main diagonal
      hold the plot's values, and every other entry is still 0. */
  ghost predicate Filled(a: array2<real>, norm: Norm, x: Matrix, y: Option<Matrix>, lag: int)
    requires |Partner(x, y)| >= |x|
    reads a
  {
    a.Length0 == |x| && a.Length1 == |x| &&
    forall p, q :: 0 <= p < |x| && 0 <= q < |x| ==>
      a[p, q] == if -lag < p - q < lag then Cell(norm, x, y, p, q) else 0.0
  }

  /** The first loop of _plot: the cross distances on the main diagonal. */
  method FillMain(a: array2<real>, norm: Norm, x: Matrix, y: Option<Matrix>)
    requires y.Some? && |Partner(x, y)| >= |x|
    requires a.Length0 == |x| && a.Length1 == |x|
    requires forall p, q :: 0 <= p < |x| && 0 <= q < |x| ==> a[p, q] == 0.0
    modifies a
    ensures Filled(a, norm, x, y, 1)
  {
    var n, z := |x|, Partner(x, y);
    var i := 0;
    while i < n
      invariant 0 <= i <= n
      invariant forall p, q :: 0 <= p < n && 0 <= q < n ==>
        a[p, q] == if p == q && p < i then Cell(norm, x, y, p, q) else 0.0
    {
      a[i, i] := norm.dist(x[i], z[i]);
      i := i + 1;
    }
  }

  /** One pass of the inner loop of _plot: the distances at lag written on
      both off-diagonals of that lag. */
  method FillLag(a: array2<real>, norm: Norm, x: Matrix, y: Option<Matrix>, lag: int)
    requires norm.symmetric && |Partner(x, y)| >= |x| && 1 <= lag < |x|
    requires Filled(a, norm, x, y, lag)
    modifies a
    ensures Filled(a, norm, x, y, lag + 1)
  {
    var n, z := |x|, Partner(x, y);
    var i := 0;
    while i < n - lag
      invariant 0 <= i <= n - lag
      invariant forall p, q :: 0 <= p < n && 0 <= q < n ==>
        a[p, q] == if -lag < p - q < lag || (p - q == lag && q < i) || (q - p == lag && p < i)
          then Cell(norm, x, y, p, q) else 0.0
    {
      var d := norm.dist(x[i], z[lag + i]);
      a[lag + i, i] := d;
      a[i, lag + i] := d;
      i := i + 1;
    }
  }

  /** The array's contents as rows. */
  function Snapshot(a: array2<real>): (m: Matrix)
    reads a
    ensures |m| == a.Length0
    ensures forall i :: 0 <= i < |m| ==> |m[i]| == a.Length1 && forall j :: 0 <= j < a.Length1 ==> m[i][j] == a[i, j]
  {
    seq(a.Length0, i requires 0 <= i < a.Length0 reads a => seq(a.Length1, j requires 0 <= j < a.Length1 reads a => a[i, j]))
  }

  class Recurrence {
    var norm: Norm
    var rplot: Option<Matrix>
    var crplot: Option<Matrix>
    var memo: Memos
    /** is_simmetric when each p_l entry was computed: set_norm does not
        reset the memos, so it may differ from the current norm. */
    ghost var lineSym: map<real, bool>

    ghost predicate Valid()
      reads this
    {
      match rplot
      case None => memo == NoMemos
      case Some(m) => Square(m) && MemosOk(m, memo, lineSym)
    }

    constructor(norm: Norm)
      ensures this.norm == norm && rplot == None && crplot == None && Valid()
    {
      this.norm := norm;
      rplot := None;
      crplot := None;
      memo := NoMemos;
      lineSym := map[];
    }

    /** set_norm replaces the norm and keeps the plot and every memo. */
    method SetNorm(norm: Norm)
      requires Valid()
      modifies this
      ensures Valid() && this.norm == norm
      ensures rplot == old(rplot) && crplot == old(crplot) && memo == old(memo) && lineSym == old(lineSym)
    {
      this.norm := norm;
    }

    /** _plot(x, y): a zero matrix, the cross distances on the diagonal for a
        cross plot, and with a symmetric norm each lag's distances written
        on both off-diagonals of that lag. */
    method Plot(x: Matrix, y: Option<Matrix>) returns (m: Matrix)
      requires |Partner(x, y)| >= |x|
      ensures m == PlotSpec(norm, x, y)
    {
      var n := |x|;
      var a := new real[n, n]((i, j) => 0.0);
      if y.Some? {
        FillMain(a, norm, x, y);
      }
      assert Filled(a, norm, x, y, 1);
      if norm.symmetric {
        var lag := 1;
        while lag < n
          invariant 1 <= lag && (lag <= n || n == 0)
          invariant Filled(a, norm, x, y, lag)
        {
          FillLag(a, norm, x, y, lag);
          lag := lag + 1;
        }
      }
      assert forall p, q :: 0 <= p < n && 0 <= q < n ==> a[p, q] == Cell(norm, x, y, p, q);
      m := Snapshot(a);
      forall i | 0 <= i < n
        ensures m[i] == PlotSpec(norm, x, y)[i]
      {
        assert forall j :: 0 <= j < n ==> m[i][j] == Cell(norm, x, y, i, j);
      }
    }

    /** r_plot: the new plot, with every memo dictionary reset to empty. */
    method RPlot(x: Matrix) returns (m: Matrix)
      requires Valid()
      modifies this
      ensures Valid() && m == PlotSpec(norm, x, None)
      ensures rplot == Some(m) && memo == NoMemos
      ensures norm == old(norm) && crplot == old(crplot)
    {
      m := Plot(x, None);
      rplot := Some(m);
      memo := NoMemos;
      lineSym := map[];
      NoMemosOk(m);
    }

    /** cr_plot: stores the cross plot and returns 0; neither the recurrence
        plot nor its memos change. */
    method CrPlot(x: Matrix, y: Matrix) returns (r: int)
      requires Valid() && |y| >= |x|
      modifies this
      ensures Valid() && r == 0 && crplot == Some(PlotSpec(norm, x, Some(y)))
      ensures norm == old(norm) && rplot == old(rplot) && memo == old(memo) && lineSym == old(lineSym)
    {
      var c := Plot(x, Some(y));
      crplot := Some(c);
      r := 0;
    }

    /** rqa_rr: the recurrence rate, memoized per threshold. */
    method RqaRr(th: real) returns (r: Measure<Float>)
      requires Valid()
      modifies this
      ensures Valid() && norm == old(norm) && rplot == old(rplot) && crplot == old(crplot)
      ensures lineSym == old(lineSym)
      ensures old(rplot).None? ==> r == NoPlot && memo == old(memo)
      ensures old(rplot).Some? ==>
        memo == RrStep(rplot.value, old(memo), th) && r == Value(RRSpec(rplot.value, th))
    {
      if rplot.None? {
        return NoPlot;
      }
      var m := rplot.value;
      ghost var M0 := memo;
      if th !in memo.rr {
        memo := memo.(rr := memo.rr[th := RRSpec(m, th)]);
      }
      RrStepOk(m, M0, lineSym, th);
      r := Value(memo.rr[th]);
    }

    /** rqa_l_freq_dist: the diagonal line distribution, memoized per threshold. */
    method RqaLFreqDist(th: real) returns (r: Measure<Counts>)
      requires Valid()
      modifies this
      ensures Valid() && norm == old(norm) && rplot == old(rplot) && crplot == old(crplot)
      ensures old(rplot).None? ==> r == NoPlot && memo == old(memo) && lineSym == old(lineSym)
      ensures old(rplot).Some? ==>
        memo == FreqStep(rplot.value, old(memo), Lines, th, norm.symmetric) &&
        lineSym == SymAfter(old(lineSym), old(memo), memo, th, norm.symmetric) &&
        th in lineSym && r == Value(LineDist(rplot.value, th, lineSym[th]))
    {
      if rplot.None? {
        return NoPlot;
      }
      var m := rplot.value;
      ghost var M0, S0 := memo, lineSym;
      if th !in memo.pL {
        var d := LineFreqDist(m, th, norm.symmetric);
        memo := memo.(pL := memo.pL[th := d]);
        lineSym := lineSym[th := norm.symmetric];
      }
      FreqStepOk(m, M0, S0, Lines, th, norm.symmetric);
      r := Value(memo.pL[th]);
    }

    /** rqa_v_freq_dist: the vertical line distribution, memoized per threshold. */
    method RqaVFreqDist(th: real) returns (r: Measure<Counts>)
      requires Valid()
      modifies this
      ensures Valid() && norm == old(norm) && rplot == old(rplot) && crplot == old(crplot)
      ensures lineSym == old(lineSym)
      ensures old(rplot).None? ==> r == NoPlot && memo == old(memo)
      ensures old(rplot).Some? ==>
        memo == FreqStep(rplot.value, old(memo), Verticals, th, norm.symmetric) &&
        r == Value(VertDist(rplot.value, th))
    {
      if rplot.None? {
        return NoPlot;
      }
      var m := rplot.value;
      ghost var M0 := memo;
      if th !in memo.pV {
        var d := VertFreqDist(m, th);
        memo := memo.(pV := memo.pV[th := d]);
      }
      FreqStepOk(m, M0, lineSym, Verticals, th, norm.symmetric);
      r := Value(memo.pV[th]);
    }

    /** The freq_dist argument of _rqa_meas and _rqa_lv_max. */
    method FreqDist(th: real, dir: Direction) returns (d: Counts)
      requires Valid() && rplot.Some?
      modifies this
      ensures Valid() && norm == old(norm) && rplot == old(rplot) && crplot == old(crplot)
      ensures memo == FreqStep(rplot.value, old(memo), dir, th, norm.symmetric)
      ensures lineSym == SymAfter(old(lineSym), old(memo), memo, th, norm.symmetric)
      ensures th in DistOf(memo, dir) && d == DistOf(memo, dir)[th]
    {
      var r;
      if dir.Lines? {
        r := RqaLFreqDist(th);
      } else {
        r := RqaVFreqDist(th);
      }
      d := r.value;
    }

    /** _rqa_lv_dist_min with ret_sum = 0: the selected lengths and counts. */
    method LvDistMin(th: real, mMin: real, dir: Direction) returns (l: seq<nat>, p: seq<int>)
      requires Valid() && rplot.Some?
      modifies this
      ensures Valid() && norm == old(norm) && rplot == old(rplot) && crplot == old(crplot)
      ensures memo == FreqStep(rplot.value, old(memo), dir, th, norm.symmetric)
      ensures lineSym == SymAfter(old(lineSym), old(memo), memo, th, norm.symmetric)
      ensures th in DistOf(memo, dir)
      ensures l == Keys(Selected(DistOf(memo, dir)[th], mMin))
      ensures p == Values(Selected(DistOf(memo, dir)[th], mMin))
    {
      var d := FreqDist(th, dir);
      l, p := SelectLines(d, mMin);
    }

    /** _rqa_meas once its caller has computed the divisor den: the memoized
        value, or l . p / den stored under (th, mMin). */
    method Meas(th: real, mMin: real, k: Kind, den: Float) returns (v: Float)
      requires Valid() && rplot.Some?
      requires ByRate(k) ==> th in memo.rr && den == FScale(memo.rr[th], (|rplot.value| * |rplot.value|) as real)
      requires !ByRate(k) ==> (th in DistOf(memo, DirOf(k)) &&
        den == Fin(Total(Values(Selected(DistOf(memo, DirOf(k))[th], mMin)))))
      modifies this
      ensures Valid() && norm == old(norm) && rplot == old(rplot) && crplot == old(crplot)
      ensures memo == MeasCore(rplot.value, old(memo), k, th, mMin, norm.symmetric)
      ensures lineSym == SymAfter(old(lineSym), old(memo), memo, th, norm.symmetric)
      ensures v == TableOf(memo, k)[th][mMin]
    {
      var m := rplot.value;
      ghost var M0, S0 := memo, lineSym;
      MeasCoreOk(m, M0, S0, k, th, mMin, norm.symmetric);
      var t: Table := TableOf(memo, k);
      if th in t && mMin in t[th] {
        return t[th][mMin];
      }
      var l, p := LvDistMin(th, mMin, DirOf(k));
      FreqStepShape(m, M0, DirOf(k), th, norm.symmetric);
      t := TableOf(memo, k);
      var row: Row := if th in t then t[th] else map[];
      v := FDiv(Fin(Dot(l, p)), den);
      assert v == MeasSpec(m, k, DistOf(memo, DirOf(k))[th], th, mMin);
      memo := WithTable(memo, k, t[th := row[mMin := v]]);
      WithTableFacts(memo, k, t[th := row[mMin := v]]);
    }

    /** rqa_det and rqa_lam: rqa_rr(th) * n * n is evaluated as the divisor
        before _rqa_meas looks at the memo. */
    method RateMeas(th: real, mMin: real, k: Kind) returns (v: Float)
      requires Valid() && rplot.Some? && ByRate(k)
      modifies this
      ensures Valid() && norm == old(norm) && rplot == old(rplot) && crplot == old(crplot)
      ensures memo == MeasStep(rplot.value, old(memo), k, th, mMin, norm.symmetric)
      ensures lineSym == SymAfter(old(lineSym), old(memo), memo, th, norm.symmetric)
      ensures v == TableOf(memo, k)[th][mMin]
    {
      var m := rplot.value;
      var rate := RqaRr(th);
      v := Meas(th, mMin, k, FScale(rate.value, (|m| * |m|) as real));
    }

    /** rqa_l and rqa_tt: the number of selected lines, from
        _rqa_lv_dist_min with ret_sum = 1, is evaluated as the divisor before
        _rqa_meas looks at the memo. */
    method MeanMeas(th: real, mMin: real, k: Kind) returns (v: Float)
      requires Valid() && rplot.Some? && !ByRate(k)
      modifies this
      ensures Valid() && norm == old(norm) && rplot == old(rplot) && crplot == old(crplot)
      ensures memo == MeasStep(rplot.value, old(memo), k, th, mMin, norm.symmetric)
      ensures lineSym == SymAfter(old(lineSym), old(memo), memo, th, norm.symmetric)
      ensures v == TableOf(memo, k)[th][mMin]
    {
      var m := rplot.value;
      ghost var M0, S0 := memo, lineSym;
      var _, p := LvDistMin(th, mMin, DirOf(k));
      ghost var M1, S1 := memo, lineSym;
      FreqStepShape(m, M0, DirOf(k), th, norm.symmetric);
      v := Meas(th, mMin, k, Fin(Total(p)));
      MeasCoreOk(m, M1, S1, k, th, mMin, norm.symmetric);
      SymCompose(S0, M0, M1, memo, th, norm.symmetric);
    }

    /** rqa_det: the fraction of recurrent points on diagonal lines of at
        least lMin, for the line distribution stored for th. */
    method RqaDet(th: real, lMin: real) returns (r: Measure<Float>)
      requires Valid()
      modifies this
      ensures Valid() && norm == old(norm) && rplot == old(rplot) && crplot == old(crplot)
      ensures old(rplot).None? ==> r == NoPlot && memo == old(memo) && lineSym == old(lineSym)
      ensures old(rplot).Some? ==>
        memo == MeasStep(rplot.value, old(memo), Det, th, lMin, norm.symmetric) &&
        lineSym == SymAfter(old(lineSym), old(memo), memo, th, norm.symmetric) &&
        th in lineSym && th in memo.det && lMin in memo.det[th] && r == Value(memo.det[th][lMin]) &&
        r == Value(Fraction(LineDist(rplot.value, th, lineSym[th]), lMin, rplot.value, th))
    {
      if rplot.None? {
        return NoPlot;
      }
      ghost var M0, S0 := memo, lineSym;
      MeasStepOk(rplot.value, M0, S0, Det, th, lMin, norm.symmetric);
      var v := RateMeas(th, lMin, Det);
      r := Value(v);
    }

    /** rqa_lam: the fraction of recurrent points on vertical lines of at
        least vMin. */
    method RqaLam(th: real, vMin: real) returns (r: Measure<Float>)
      requires Valid()
      modifies this
      ensures Valid() && norm == old(norm) && rplot == old(rplot) && crplot == old(crplot)
      ensures lineSym == old(lineSym)
      ensures old(rplot).None? ==> r == NoPlot && memo == old(memo)
      ensures old(rplot).Some? ==>
        memo == MeasStep(rplot.value, old(memo), Lam, th, vMin, norm.symmetric) &&
        r == Value(Fraction(VertDist(rplot.value, th), vMin, rplot.value, th))
    {
      if rplot.None? {
        return NoPlot;
      }
      ghost var M0, S0 := memo, lineSym;
      MeasStepOk(rplot.value, M0, S0, Lam, th, vMin, norm.symmetric);
      var v := RateMeas(th, vMin, Lam);
      r := Value(v);
    }

    /** rqa_l: the mean length of the diagonal lines of at least lMin. */
    method RqaL(th: real, lMin: real) returns (r: Measure<Float>)
      requires Valid()
      modifies this
      ensures Valid() && norm == old(norm) && rplot == old(rplot) && crplot == old(crplot)
      ensures old(rplot).None? ==> r == NoPlot && memo == old(memo) && lineSym == old(lineSym)
      ensures old(rplot).Some? ==>
        memo == MeasStep(rplot.value, old(memo), MeanLine, th, lMin, norm.symmetric) &&
        lineSym == SymAfter(old(lineSym), old(memo), memo, th, norm.symmetric) &&
        th in lineSym && r == Value(MeanLength(LineDist(rplot.value, th, lineSym[th]), lMin))
    {
      if rplot.None? {
        return NoPlot;
      }
      ghost var M0, S0 := memo, lineSym;
      MeasStepOk(rplot.value, M0, S0, MeanLine, th, lMin, norm.symmetric);
      var v := MeanMeas(th, lMin, MeanLine);
      r := Value(v);
    }

    /** rqa_tt: the mean length of the vertical lines of at least vMin. */
    method RqaTt(th: real, vMin: real) returns (r: Measure<Float>)
      requires Valid()
      modifies this
      ensures Valid() && norm == old(norm) && rplot == old(rplot) && crplot == old(crplot)
      ensures lineSym == old(lineSym)
      ensures old(rplot).None? ==> r == NoPlot && memo == old(memo)
      ensures old(rplot).Some? ==>
        memo == MeasStep(rplot.value, old(memo), Trapping, th, vMin, norm.symmetric) &&
        r == Value(MeanLength(VertDist(rplot.value, th), vMin))
    {
      if rplot.None? {
        return NoPlot;
      }
      ghost var M0, S0 := memo, lineSym;
      MeasStepOk(rplot.value, M0, S0, Trapping, th, vMin, norm.symmetric);
      var v := MeanMeas(th, vMin, Trapping);
      r := Value(v);
    }

    /** The value rqa_ratio stores: rqa_det(th, lMin) / rqa_rr(th), det
        evaluated first. */
    method DetOverRr(th: real, lMin: real) returns (v: Float)
      requires Valid() && rplot.Some?
      modifies this
      ensures Valid() && norm == old(norm) && rplot == old(rplot) && crplot == old(crplot)
      ensures memo == RrStep(rplot.value, MeasStep(rplot.value, old(memo), Det, th, lMin, norm.symmetric), th)
      ensures lineSym == SymAfter(old(lineSym), old(memo), memo, th, norm.symmetric)
      ensures th in memo.det && lMin in memo.det[th] && v == FDiv(memo.det[th][lMin], memo.rr[th])
    {
      var det := RateMeas(th, lMin, Det);
      ghost var M2 := memo;
      var rate := RqaRr(th);
      assert memo == RrStep(rplot.value, M2, th) && memo.det == M2.det;
      v := FDiv(det, rate.value);
    }

    /** rqa_ratio: det over rr, memoized per threshold and minimum length;
        the row for th is created before det and rr are evaluated. */
    method RqaRatio(th: real, lMin: real) returns (r: Measure<Float>)
      requires Valid()
      modifies this
      ensures Valid() && norm == old(norm) && rplot == old(rplot) && crplot == old(crplot)
      ensures old(rplot).None? ==> r == NoPlot && memo == old(memo) && lineSym == old(lineSym)
      ensures old(rplot).Some? ==>
        memo == RatioStep(rplot.value, old(memo), th, lMin, norm.symmetric) &&
        lineSym == SymAfter(old(lineSym), old(memo), memo, th, norm.symmetric) &&
        th in lineSym &&
        r == Value(FDiv(Fraction(LineDist(rplot.value, th, lineSym[th]), lMin, rplot.value, th), RRSpec(rplot.value, th)))
    {
      if rplot.None? {
        return NoPlot;
      }
      var m := rplot.value;
      ghost var M0, S0 := memo, lineSym;
      RatioStepOk(m, M0, S0, th, lMin, norm.symmetric);
      if th in memo.ratio && lMin in memo.ratio[th] {
        return Value(memo.ratio[th][lMin]);
      }
      if th !in memo.ratio {
        memo := memo.(ratio := memo.ratio[th := map[]]);
      }
      RatioRowOk(m, M0, S0, th);
      ghost var M1 := memo;
      assert M1 == M0.(ratio := if th in M0.ratio then M0.ratio else M0.ratio[th := map[]]);
      var v := DetOverRr(th, lMin);
      memo := memo.(ratio := Store(memo.ratio, th, lMin, v));
      assert memo == RatioStep(m, M0, th, lMin, norm.symmetric);
      r := Value(v);
    }

    /** _rqa_lv_max: the entry offset places from the end of the sorted
        lengths with a positive count, with a 0 put in front; memoized only
        when that entry exists. */
    method LvMax(th: real, dir: Direction) returns (r: Measure<nat>)
      requires Valid() && rplot.Some?
      modifies this
      ensures Valid() && norm == old(norm) && rplot == old(rplot) && crplot == old(crplot)
      ensures memo == MaxStep(rplot.value, old(memo), dir, th, norm.symmetric)
      ensures lineSym == SymAfter(old(lineSym), old(memo), memo, th, norm.symmetric)
      ensures r == FromResult(MaxResult(rplot.value, old(memo), dir, th, norm.symmetric))
    {
      var m := rplot.value;
      ghost var M0, S0 := memo, lineSym;
      MaxStepOk(m, M0, S0, dir, th, norm.symmetric);
      var t := MaxTable(memo, dir);
      if th in t {
        return Value(t[th]);
      }
      var d := FreqDist(th, dir);
      var sorted := LvMaxSpec(d, MaxOffset(dir));
      if sorted.Err? {
        return Raised(sorted.error);
      }
      memo := WithMax(memo, dir, MaxTable(memo, dir)[th := sorted.value]);
      r := Value(sorted.value);
    }

    /** rqa_l_max: with a symmetric norm the longest diagonal line besides
        the main diagonal, or 0; otherwise IndexError exactly when there is
        no diagonal line at all. */
    method RqaLMax(th: real) returns (r: Measure<nat>)
      requires Valid()
      modifies this
      ensures Valid() && norm == old(norm) && rplot == old(rplot) && crplot == old(crplot)
      ensures old(rplot).None? ==> r == NoPlot && memo == old(memo) && lineSym == old(lineSym)
      ensures old(rplot).Some? ==>
        memo == MaxStep(rplot.value, old(memo), Lines, th, norm.symmetric) &&
        lineSym == SymAfter(old(lineSym), old(memo), memo, th, norm.symmetric) &&
        r == FromResult(MaxResult(rplot.value, old(memo), Lines, th, norm.symmetric)) &&
        th in lineSym && LineDist(rplot.value, th, true) != [] &&
        (lineSym[th] ==> r == Value(Longest(LineDist(rplot.value, th, true)[1..]))) &&
        (!lineSym[th] ==> (r == Raised(IndexError) <==> LineDist(rplot.value, th, false) == []))
    {
      if rplot.None? {
        return NoPlot;
      }
      LMaxMeaning(rplot.value, memo, lineSym, th, norm.symmetric);
      r := LvMax(th, Lines);
    }

    /** rqa_v_max: the longest vertical line, or 0 when there is none. */
    method RqaVMax(th: real) returns (r: Measure<nat>)
      requires Valid()
      modifies this
      ensures Valid() && norm == old(norm) && rplot == old(rplot) && crplot == old(crplot)
      ensures old(rplot).None? ==> r == NoPlot && memo == old(memo) && lineSym == old(lineSym)
      ensures old(rplot).Some? ==>
        memo == MaxStep(rplot.value, old(memo), Verticals, th, norm.symmetric) &&
        lineSym == old(lineSym) &&
        r == Value(Longest(VertDist(rplot.value, th)))
    {
      if rplot.None? {
        return NoPlot;
      }
      VMaxMeaning(rplot.value, memo, lineSym, th, norm.symmetric);
      r := LvMax(th, Verticals);
    }

    /** rqa_div: one over rqa_l_max, raising ZeroDivisionError when it is 0. */
    method RqaDiv(th: real) returns (r: Measure<real>)
      requires Valid()
      modifies this
      ensures Valid() && norm == old(norm) && rplot == old(rplot) && crplot == old(crplot)
      ensures old(rplot).None? ==> r == NoPlot && memo == old(memo) && lineSym == old(lineSym)
      ensures old(rplot).Some? ==>
        memo == MaxStep(rplot.value, old(memo), Lines, th, norm.symmetric) &&
        lineSym == SymAfter(old(lineSym), old(memo), memo, th, norm.symmetric) &&
        r == FromResult(DivOf(MaxResult(rplot.value, old(memo), Lines, th, norm.symmetric))) &&
        th in lineSym && LineDist(rplot.value, th, true) != [] &&
        (var longest := Longest(LineDist(rplot.value, th, true)[1..]);
         (lineSym[th] && longest == 0 ==> r == Raised(ZeroDivisionError)) &&
         (lineSym[th] && longest != 0 ==> r == Value(1.0 / longest as real)))
    {
      if rplot.None? {
        return NoPlot;
      }
      DivMeaning(rplot.value, memo, lineSym, th, norm.symmetric);
      var lm := RqaLMax(th);
      if lm.Raised? {
        return Raised(lm.error);
      }
      if lm.value == 0 {
        return Raised(ZeroDivisionError);
      }
      r := Value(1.0 / lm.value as real);
    }
  }
}
