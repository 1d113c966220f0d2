/** The memo dictionaries of the Recurrence class of recurrence/recurrence.py
    as one value, the change each rqa_* method makes to them, and the
    invariant they keep: every stored entry is the value its method would
    compute from the current plot. */
module RqaMemo {
  import opened Base
  import opened RunLengths
  import opened RqaSpec

  /** measure_dict[str(th)]: minimum length to value. */
  type Row = map<real, Float>

  /** A per-(th, min) memo: threshold to row. */
  type Table = map<real, Row>

  /** The dictionaries r_plot creates: rr, p_l, p_v, det, lam, ratio, l, tt,
      l_max and v_max. */
  datatype Memos = Memos(
    rr: map<real, Float>,
    pL: map<real, Counts>,
    pV: map<real, Counts>,
    det: Table,
    lam: Table,
    ratio: Table,
    l: Table,
    tt: Table,
    lMax: map<real, nat>,
    vMax: map<real, nat>)

  const NoMemos: Memos := Memos(map[], map[], map[], map[], map[], map[], map[], map[], map[], map[])

  /** Diagonal lines (rqa_l_freq_dist) or vertical lines (rqa_v_freq_dist). */
  datatype Direction = Lines | Verticals

  /** The four measures _rqa_meas computes. */
  datatype Kind = Det | Lam | MeanLine | Trapping

  function DirOf(k: Kind): Direction
  {
    if k.Det? || k.MeanLine? then Lines else Verticals
  }

  /** det and lam divide by rr * n * n; l and tt by the number of selected lines. */
  predicate ByRate(k: Kind)
  {
    k.Det? || k.Lam?
  }

  function DistOf(M: Memos, dir: Direction): map<real, Counts>
  {
    if dir.Lines? then M.pL else M.pV
  }

  function TableOf(M: Memos, k: Kind): Table
  {
    match k
    case Det => M.det
    case Lam => M.lam
    case MeanLine => M.l
    case Trapping => M.tt
  }

  function WithTable(M: Memos, k: Kind, t: Table): Memos
  {
    match k
    case Det => M.(det := t)
    case Lam => M.(lam := t)
    case MeanLine => M.(l := t)
    case Trapping => M.(tt := t)
  }

  function MaxTable(M: Memos, dir: Direction): map<real, nat>
  {
    if dir.Lines? then M.lMax else M.vMax
  }

  function WithMax(M: Memos, dir: Direction, t: map<real, nat>): Memos
  {
    if dir.Lines? then M.(lMax := t) else M.(vMax := t)
  }

  /** l_max reads entry -2 of the sorted lengths, v_max entry -1. */
  function MaxOffset(dir: Direction): nat
  {
    if dir.Lines? then 2 else 1
  }

  predicate Cached(t: Table, th: real, mm: real)
  {
    th in t && mm in t[th]
  }

  /** measure_dict[str(th)][str(m_min)] = v, creating the row when it is missing. */
  function Store(t: Table, th: real, mm: real, v: Float): Table
  {
    t[th := (if th in t then t[th] else map[])[mm := v]]
  }

  /** The distribution freq_dist(th) computes; sym is is_simmetric at that time. */
  function FreqSpec(m: Matrix, th: real, dir: Direction, sym: bool): Counts
    requires Square(m)
  {
    if dir.Lines? then LineDist(m, th, sym) else VertDist(m, th)
  }

  /** The value _rqa_meas stores for measure k from distribution d. */
  function MeasSpec(m: Matrix, k: Kind, d: Counts, th: real, mm: real): Float
  {
    if ByRate(k) then Fraction(d, mm, m, th) else MeanLength(d, mm)
  }

  // ---------------------------------------------------------------- the invariant

  ghost predicate RrOk(m: Matrix, M: Memos)
  {
    forall th :: th in M.rr ==> M.rr[th] == RRSpec(m, th)
  }

  /** Every line distribution is the one computed with the symmetry S records. */
  ghost predicate LinesOk(m: Matrix, M: Memos, S: map<real, bool>)
    requires Square(m)
  {
    forall th :: th in M.pL ==> th in S && M.pL[th] == LineDist(m, th, S[th])
  }

  ghost predicate VertsOk(m: Matrix, M: Memos)
    requires Square(m)
  {
    forall th :: th in M.pV ==> M.pV[th] == VertDist(m, th)
  }

  /** Every stored measure was computed from the stored distribution. */
  ghost predicate TableOk(m: Matrix, M: Memos, k: Kind)
  {
    forall th, mm :: th in TableOf(M, k) && mm in TableOf(M, k)[th] ==>
      th in DistOf(M, DirOf(k)) &&
      TableOf(M, k)[th][mm] == MeasSpec(m, k, DistOf(M, DirOf(k))[th], th, mm)
  }

  /** Every stored ratio is det over rr. */
  ghost predicate RatioOk(m: Matrix, M: Memos)
  {
    forall th, mm :: th in M.ratio && mm in M.ratio[th] ==>
      th in M.pL && M.ratio[th][mm] == FDiv(Fraction(M.pL[th], mm, m, th), RRSpec(m, th))
  }

  /** Every stored maximum is the sorted entry of the stored distribution. */
  ghost predicate MaxOk(M: Memos, dir: Direction)
  {
    forall th :: th in MaxTable(M, dir) ==>
      th in DistOf(M, dir) && LvMaxSpec(DistOf(M, dir)[th], MaxOffset(dir)) == Ok(MaxTable(M, dir)[th])
  }

  ghost predicate MemosOk(m: Matrix, M: Memos, S: map<real, bool>)
    requires Square(m)
  {
    && RrOk(m, M) && LinesOk(m, M, S) && VertsOk(m, M)
    && TableOk(m, M, Det) && TableOk(m, M, Lam) && TableOk(m, M, MeanLine) && TableOk(m, M, Trapping)
    && RatioOk(m, M) && MaxOk(M, Lines) && MaxOk(M, Verticals)
  }

  // ---------------------------------------------------------------- the steps

  /** rqa_rr(th) once a plot exists. */
  function RrStep(m: Matrix, M: Memos, th: real): (r: Memos)
    ensures th in r.rr && r == M.(rr := r.rr)
  {
    if th in M.rr then M else M.(rr := M.rr[th := RRSpec(m, th)])
  }

  /** rqa_l_freq_dist(th) or rqa_v_freq_dist(th) once a plot exists. */
  function FreqStep(m: Matrix, M: Memos, dir: Direction, th: real, sym: bool): (r: Memos)
    requires Square(m)
    ensures th in DistOf(r, dir)
  {
    if th in DistOf(M, dir) then M
    else if dir.Lines? then M.(pL := M.pL[th := LineDist(m, th, sym)])
    else M.(pV := M.pV[th := VertDist(m, th)])
  }

  /** The symmetry record after a step from M to M2 that may create p_l[th]
      with is_simmetric equal to sym. */
  ghost function SymAfter(S: map<real, bool>, M: Memos, M2: Memos, th: real, sym: bool): map<real, bool>
  {
    if th !in M.pL && th in M2.pL then S[th := sym] else S
  }

  /** The part of _rqa_meas after its caller has computed the divisor. */
  function MeasCore(m: Matrix, M: Memos, k: Kind, th: real, mm: real, sym: bool): (r: Memos)
    requires Square(m)
    ensures Cached(TableOf(r, k), th, mm)
  {
    if Cached(TableOf(M, k), th, mm) then M
    else
      var M2 := FreqStep(m, M, DirOf(k), th, sym);
      var d := DistOf(M2, DirOf(k))[th];
      WithTable(M2, k, Store(TableOf(M2, k), th, mm, MeasSpec(m, k, d, th, mm)))
  }

  /** rqa_det, rqa_lam, rqa_l or rqa_tt once a plot exists: the divisor is
      evaluated first, through rqa_rr for det and lam and through freq_dist
      for l and tt, and only then is the memo consulted. */
  function MeasStep(m: Matrix, M: Memos, k: Kind, th: real, mm: real, sym: bool): (r: Memos)
    requires Square(m)
    ensures Cached(TableOf(r, k), th, mm)
  {
    var M1 := if ByRate(k) then RrStep(m, M, th) else FreqStep(m, M, DirOf(k), th, sym);
    MeasCore(m, M1, k, th, mm, sym)
  }

  /** rqa_ratio once a plot exists. */
  function RatioStep(m: Matrix, M: Memos, th: real, mm: real, sym: bool): (r: Memos)
    requires Square(m)
    ensures Cached(r.ratio, th, mm)
  {
    if Cached(M.ratio, th, mm) then M
    else
      var M1 := M.(ratio := if th in M.ratio then M.ratio else M.ratio[th := map[]]);
      var M2 := MeasStep(m, M1, Det, th, mm, sym);
      var M3 := RrStep(m, M2, th);
      M3.(ratio := Store(M3.ratio, th, mm, FDiv(M3.det[th][mm], M3.rr[th])))
  }

  /** _rqa_lv_max once a plot exists: the distribution is computed (and
      memoized) even when the sorted entry does not exist. */
  function MaxStep(m: Matrix, M: Memos, dir: Direction, th: real, sym: bool): (r: Memos)
    requires Square(m)
  {
    if th in MaxTable(M, dir) then M
    else
      var M1 := FreqStep(m, M, dir, th, sym);
      var v := LvMaxSpec(DistOf(M1, dir)[th], MaxOffset(dir));
      if v.Ok? then WithMax(M1, dir, MaxTable(M1, dir)[th := v.value]) else M1
  }

  /** What _rqa_lv_max returns or raises. */
  function MaxResult(m: Matrix, M: Memos, dir: Direction, th: real, sym: bool): Result<nat>
    requires Square(m)
  {
    if th in MaxTable(M, dir) then Ok(MaxTable(M, dir)[th])
    else LvMaxSpec(DistOf(FreqStep(m, M, dir, th, sym), dir)[th], MaxOffset(dir))
  }

  /** 1.0 / float(l_max), which raises ZeroDivisionError for 0. */
  function DivOf(r: Result<nat>): Result<real>
  {
    if r.Err? then Err(r.error) else if r.value == 0 then Err(ZeroDivisionError) else Ok(1.0 / r.value as real)
  }

  // ---------------------------------------------------------------- preservation

  /** Every entry of a is kept in b. */
  ghost predicate Grows(a: map<real, Counts>, b: map<real, Counts>)
  {
    forall th :: th in a ==> th in b && b[th] == a[th]
  }

  lemma TableFrame(m: Matrix, M: Memos, M2: Memos, k: Kind)
    requires TableOk(m, M, k) && TableOf(M2, k) == TableOf(M, k)
    requires Grows(DistOf(M, DirOf(k)), DistOf(M2, DirOf(k)))
    ensures TableOk(m, M2, k)
  {
  }

  lemma MaxFrame(M: Memos, M2: Memos, dir: Direction)
    requires MaxOk(M, dir) && MaxTable(M2, dir) == MaxTable(M, dir)
    requires Grows(DistOf(M, dir), DistOf(M2, dir))
    ensures MaxOk(M2, dir)
  {
  }

  /** A step that keeps every stored measure and only adds distributions
      keeps the invariant, once the rates and distributions are right. */
  lemma Frame(m: Matrix, M: Memos, S: map<real, bool>, M2: Memos, S2: map<real, bool>)
    requires Square(m) && MemosOk(m, M, S)
    requires Grows(M.pL, M2.pL) && Grows(M.pV, M2.pV)
    requires M2.det == M.det && M2.lam == M.lam && M2.l == M.l && M2.tt == M.tt
    requires M2.ratio == M.ratio && M2.lMax == M.lMax && M2.vMax == M.vMax
    requires RrOk(m, M2) && LinesOk(m, M2, S2) && VertsOk(m, M2)
    ensures MemosOk(m, M2, S2)
  {
    TableFrame(m, M, M2, Det);
    TableFrame(m, M, M2, Lam);
    TableFrame(m, M, M2, MeanLine);
    TableFrame(m, M, M2, Trapping);
    MaxFrame(M, M2, Lines);
    MaxFrame(M, M2, Verticals);
  }

  /** r_plot's fresh dictionaries satisfy the invariant. */
  lemma NoMemosOk(m: Matrix)
    requires Square(m)
    ensures MemosOk(m, NoMemos, map[])
  {
  }

  /** rqa_rr stores the recurrence rate and changes nothing else; a second
      call finds it cached. */
  lemma RrStepOk(m: Matrix, M: Memos, S: map<real, bool>, th: real)
    requires Square(m) && MemosOk(m, M, S)
    ensures var r := RrStep(m, M, th);
      MemosOk(m, r, S) && r.rr[th] == RRSpec(m, th) && r == M.(rr := r.rr) &&
      (th in M.rr ==> r == M)
  {
    var r := RrStep(m, M, th);
    if th !in M.rr {
      assert RrOk(m, r);
      Frame(m, M, S, r, S);
    }
  }

  /** A freq_dist call stores the distribution for th, records the symmetry
      it used, and changes nothing else; a second call finds it cached. */
  lemma FreqStepOk(m: Matrix, M: Memos, S: map<real, bool>, dir: Direction, th: real, sym: bool)
    requires Square(m) && MemosOk(m, M, S)
    ensures var r := FreqStep(m, M, dir, th, sym);
      var S2 := SymAfter(S, M, r, th, sym);
      MemosOk(m, r, S2) &&
      (dir.Lines? ==> th in S2 && r.pL[th] == LineDist(m, th, S2[th])) &&
      (dir.Verticals? ==> r.pV[th] == VertDist(m, th)) &&
      (th !in DistOf(M, dir) && dir.Lines? ==> S2[th] == sym)
  {
    var r := FreqStep(m, M, dir, th, sym);
    var S2 := SymAfter(S, M, r, th, sym);
    FreqStepShape(m, M, dir, th, sym);
    if th !in DistOf(M, dir) {
      if dir.Lines? {
        assert S2 == S[th := sym];
        assert LinesOk(m, r, S2);
      } else {
        assert VertsOk(m, r);
      }
      Frame(m, M, S, r, S2);
    }
  }

  /** freq_dist changes at most its own distribution entry, and only when it is missing. */
  lemma FreqStepShape(m: Matrix, M: Memos, dir: Direction, th: real, sym: bool)
    requires Square(m)
    ensures var r := FreqStep(m, M, dir, th, sym);
      (th in DistOf(M, dir) ==> r == M) &&
      r == M.(pL := r.pL, pV := r.pV) && Grows(M.pL, r.pL) && Grows(M.pV, r.pV) &&
      (dir.Lines? ==> r.pV == M.pV) && (dir.Verticals? ==> r.pL == M.pL)
  {
  }

  /** Storing a measure computed from the stored distribution keeps the invariant. */
  lemma StoreMeasOk(m: Matrix, M: Memos, S: map<real, bool>, k: Kind, th: real, mm: real, v: Float)
    requires Square(m) && MemosOk(m, M, S)
    requires th in DistOf(M, DirOf(k)) && v == MeasSpec(m, k, DistOf(M, DirOf(k))[th], th, mm)
    ensures MemosOk(m, WithTable(M, k, Store(TableOf(M, k), th, mm, v)), S)
  {
    var t := Store(TableOf(M, k), th, mm, v);
    var r := WithTable(M, k, t);
    StoreTableOk(m, M, k, th, mm, v);
    WithTableFacts(M, k, t);
    OneTable(m, M, S, r, k);
  }

  /** WithTable changes table k and nothing else. */
  lemma WithTableFacts(M: Memos, k: Kind, t: Table)
    ensures var r := WithTable(M, k, t);
      r.rr == M.rr && r.pL == M.pL && r.pV == M.pV && r.ratio == M.ratio &&
      r.lMax == M.lMax && r.vMax == M.vMax && TableOf(r, k) == t &&
      forall k2: Kind :: k2 != k ==> TableOf(r, k2) == TableOf(M, k2)
  {
  }

  /** A change of one measure table that keeps it correct keeps the invariant. */
  lemma OneTable(m: Matrix, M: Memos, S: map<real, bool>, r: Memos, k: Kind)
    requires Square(m) && MemosOk(m, M, S)
    requires r.rr == M.rr && r.pL == M.pL && r.pV == M.pV && r.ratio == M.ratio
    requires r.lMax == M.lMax && r.vMax == M.vMax && TableOk(m, r, k)
    requires forall k2: Kind :: k2 != k ==> TableOf(r, k2) == TableOf(M, k2)
    ensures MemosOk(m, r, S)
  {
    if k != Det { TableFrame(m, M, r, Det); }
    if k != Lam { TableFrame(m, M, r, Lam); }
    if k != MeanLine { TableFrame(m, M, r, MeanLine); }
    if k != Trapping { TableFrame(m, M, r, Trapping); }
    MaxFrame(M, r, Lines);
    MaxFrame(M, r, Verticals);
  }

  lemma StoreTableOk(m: Matrix, M: Memos, k: Kind, th: real, mm: real, v: Float)
    requires TableOk(m, M, k)
    requires th in DistOf(M, DirOf(k)) && v == MeasSpec(m, k, DistOf(M, DirOf(k))[th], th, mm)
    ensures TableOk(m, WithTable(M, k, Store(TableOf(M, k), th, mm, v)), k)
  {
    var r := WithTable(M, k, Store(TableOf(M, k), th, mm, v));
    assert TableOf(r, k) == Store(TableOf(M, k), th, mm, v);
    assert DistOf(r, DirOf(k)) == DistOf(M, DirOf(k));
  }

  /** rqa_ratio's empty row for a new threshold keeps the invariant. */
  lemma RatioRowOk(m: Matrix, M: Memos, S: map<real, bool>, th: real)
    requires Square(m) && MemosOk(m, M, S)
    ensures MemosOk(m, M.(ratio := if th in M.ratio then M.ratio else M.ratio[th := map[]]), S)
  {
    var r := M.(ratio := if th in M.ratio then M.ratio else M.ratio[th := map[]]);
    Frame2(m, M, S, r);
  }

  /** Storing det over rr as the ratio keeps the invariant. */
  lemma StoreRatioOk(m: Matrix, M: Memos, S: map<real, bool>, th: real, mm: real, v: Float)
    requires Square(m) && MemosOk(m, M, S)
    requires th in M.pL && v == FDiv(Fraction(M.pL[th], mm, m, th), RRSpec(m, th))
    ensures MemosOk(m, M.(ratio := Store(M.ratio, th, mm, v)), S)
  {
    var r := M.(ratio := Store(M.ratio, th, mm, v));
    assert RatioOk(m, r);
    Frame2(m, M, S, r);
  }

  /** A change of the ratios alone keeps everything but RatioOk. */
  lemma Frame2(m: Matrix, M: Memos, S: map<real, bool>, r: Memos)
    requires Square(m) && MemosOk(m, M, S)
    requires r == M.(ratio := r.ratio)
    requires forall th, mm :: th in r.ratio && mm in r.ratio[th] ==>
      (th in M.ratio && mm in M.ratio[th] && r.ratio[th][mm] == M.ratio[th][mm]) ||
      (th in M.pL && r.ratio[th][mm] == FDiv(Fraction(M.pL[th], mm, m, th), RRSpec(m, th)))
    ensures MemosOk(m, r, S)
  {
    TableFrame(m, M, r, Det);
    TableFrame(m, M, r, Lam);
    TableFrame(m, M, r, MeanLine);
    TableFrame(m, M, r, Trapping);
    MaxFrame(M, r, Lines);
    MaxFrame(M, r, Verticals);
  }

  /** Storing the sorted entry of the stored distribution as a maximum keeps the invariant. */
  lemma StoreMaxOk(m: Matrix, M: Memos, S: map<real, bool>, dir: Direction, th: real, v: nat)
    requires Square(m) && MemosOk(m, M, S)
    requires th in DistOf(M, dir) && LvMaxSpec(DistOf(M, dir)[th], MaxOffset(dir)) == Ok(v)
    ensures MemosOk(m, WithMax(M, dir, MaxTable(M, dir)[th := v]), S)
  {
    var t := MaxTable(M, dir)[th := v];
    var r := WithMax(M, dir, t);
    StoreMaxTableOk(M, dir, th, v);
    WithMaxFacts(M, dir, t);
    OneMax(m, M, S, r, dir);
  }

  /** WithMax changes maximum table dir and nothing else. */
  lemma WithMaxFacts(M: Memos, dir: Direction, t: map<real, nat>)
    ensures var r := WithMax(M, dir, t);
      r.rr == M.rr && r.pL == M.pL && r.pV == M.pV && r.ratio == M.ratio &&
      r.det == M.det && r.lam == M.lam && r.l == M.l && r.tt == M.tt &&
      MaxTable(r, dir) == t &&
      forall d2: Direction :: d2 != dir ==> MaxTable(r, d2) == MaxTable(M, d2)
  {
  }

  /** A change of one maximum table that keeps it correct keeps the invariant. */
  lemma OneMax(m: Matrix, M: Memos, S: map<real, bool>, r: Memos, dir: Direction)
    requires Square(m) && MemosOk(m, M, S)
    requires r.rr == M.rr && r.pL == M.pL && r.pV == M.pV && r.ratio == M.ratio
    requires r.det == M.det && r.lam == M.lam && r.l == M.l && r.tt == M.tt && MaxOk(r, dir)
    requires forall d2: Direction :: d2 != dir ==> MaxTable(r, d2) == MaxTable(M, d2)
    ensures MemosOk(m, r, S)
  {
    TableFrame(m, M, r, Det);
    TableFrame(m, M, r, Lam);
    TableFrame(m, M, r, MeanLine);
    TableFrame(m, M, r, Trapping);
    if dir != Lines { MaxFrame(M, r, Lines); }
    if dir != Verticals { MaxFrame(M, r, Verticals); }
  }

  lemma StoreMaxTableOk(M: Memos, dir: Direction, th: real, v: nat)
    requires MaxOk(M, dir)
    requires th in DistOf(M, dir) && LvMaxSpec(DistOf(M, dir)[th], MaxOffset(dir)) == Ok(v)
    ensures MaxOk(WithMax(M, dir, MaxTable(M, dir)[th := v]), dir)
  {
    var r := WithMax(M, dir, MaxTable(M, dir)[th := v]);
    assert MaxTable(r, dir) == MaxTable(M, dir)[th := v];
    assert DistOf(r, dir) == DistOf(M, dir);
  }

  // ---------------------------------------------------------------- the rqa_* steps

  /** What det, lam, l and tt do before consulting their memo: rqa_rr for
      det and lam, freq_dist for l and tt. */
  function PreStep(m: Matrix, M: Memos, k: Kind, th: real, sym: bool): Memos
    requires Square(m)
  {
    if ByRate(k) then RrStep(m, M, th) else FreqStep(m, M, DirOf(k), th, sym)
  }

  lemma PreStepOk(m: Matrix, M: Memos, S: map<real, bool>, k: Kind, th: real, sym: bool)
    requires Square(m) && MemosOk(m, M, S)
    ensures var r := PreStep(m, M, k, th, sym);
      MemosOk(m, r, SymAfter(S, M, r, th, sym)) && TableOf(r, k) == TableOf(M, k) &&
      r.ratio == M.ratio && Grows(M.pL, r.pL)
  {
    if ByRate(k) {
      RrStepOk(m, M, S, th);
    } else {
      FreqStepOk(m, M, S, DirOf(k), th, sym);
      FreqStepShape(m, M, DirOf(k), th, sym);
    }
  }

  /** The measure part of _rqa_meas stores the measure computed from the
      stored distribution and keeps the invariant. */
  lemma MeasCoreOk(m: Matrix, M: Memos, S: map<real, bool>, k: Kind, th: real, mm: real, sym: bool)
    requires Square(m) && MemosOk(m, M, S)
    ensures var r := MeasCore(m, M, k, th, mm, sym);
      MemosOk(m, r, SymAfter(S, M, r, th, sym)) && th in DistOf(r, DirOf(k)) &&
      TableOf(r, k)[th][mm] == MeasSpec(m, k, DistOf(r, DirOf(k))[th], th, mm) &&
      (Cached(TableOf(M, k), th, mm) ==> r == M) &&
      r.ratio == M.ratio && Grows(M.pL, r.pL)
  {
    if !Cached(TableOf(M, k), th, mm) {
      var M2 := FreqStep(m, M, DirOf(k), th, sym);
      FreqStepOk(m, M, S, DirOf(k), th, sym);
      FreqStepShape(m, M, DirOf(k), th, sym);
      var S2 := SymAfter(S, M, M2, th, sym);
      var d := DistOf(M2, DirOf(k))[th];
      var t := Store(TableOf(M2, k), th, mm, MeasSpec(m, k, d, th, mm));
      StoreMeasOk(m, M2, S2, k, th, mm, MeasSpec(m, k, d, th, mm));
      WithTableFacts(M2, k, t);
    }
  }

  /** Two steps that only add line distributions record the symmetry as one step does. */
  lemma SymCompose(S: map<real, bool>, M: Memos, M1: Memos, M2: Memos, th: real, sym: bool)
    requires Grows(M.pL, M1.pL) && Grows(M1.pL, M2.pL)
    ensures SymAfter(SymAfter(S, M, M1, th, sym), M1, M2, th, sym) == SymAfter(S, M, M2, th, sym)
  {
  }

  /** det, lam, l and tt store the measure computed from the stored
      distribution, keep the invariant, return the memoized value on a
      repeated call and leave the ratios alone. */
  lemma MeasStepOk(m: Matrix, M: Memos, S: map<real, bool>, k: Kind, th: real, mm: real, sym: bool)
    requires Square(m) && MemosOk(m, M, S)
    ensures var r := MeasStep(m, M, k, th, mm, sym);
      var S2 := SymAfter(S, M, r, th, sym);
      MemosOk(m, r, S2) && th in DistOf(r, DirOf(k)) &&
      TableOf(r, k)[th][mm] == MeasSpec(m, k, DistOf(r, DirOf(k))[th], th, mm) &&
      (Cached(TableOf(M, k), th, mm) ==> TableOf(r, k)[th][mm] == TableOf(M, k)[th][mm]) &&
      r.ratio == M.ratio
  {
    var M1 := PreStep(m, M, k, th, sym);
    assert MeasStep(m, M, k, th, mm, sym) == MeasCore(m, M1, k, th, mm, sym);
    PreStepOk(m, M, S, k, th, sym);
    var S1 := SymAfter(S, M, M1, th, sym);
    MeasCoreOk(m, M1, S1, k, th, mm, sym);
    var r := MeasCore(m, M1, k, th, mm, sym);
    SymCompose(S, M, M1, r, th, sym);
  }

  /** A second identical call of det, lam, l or tt changes nothing. */
  lemma MeasStepIdem(m: Matrix, M: Memos, k: Kind, th: real, mm: real, sym: bool)
    requires Square(m)
    ensures var r := MeasStep(m, M, k, th, mm, sym);
      MeasStep(m, r, k, th, mm, sym) == r
  {
    var M1 := PreStep(m, M, k, th, sym);
    assert MeasStep(m, M, k, th, mm, sym) == MeasCore(m, M1, k, th, mm, sym);
    assert HasDivisor(M1, k, th);
    CoreKeepsDivisor(m, M1, k, th, mm, sym);
    var r := MeasCore(m, M1, k, th, mm, sym);
    assert PreStep(m, r, k, th, sym) == r;
    assert MeasStep(m, r, k, th, mm, sym) == MeasCore(m, r, k, th, mm, sym);
  }

  /** The divisor of measure k at th is memoized. */
  predicate HasDivisor(M: Memos, k: Kind, th: real)
  {
    if ByRate(k) then th in M.rr else th in DistOf(M, DirOf(k))
  }

  /** After the divisor step the divisor is memoized, and the measure step
      keeps it. */
  lemma CoreKeepsDivisor(m: Matrix, M1: Memos, k: Kind, th: real, mm: real, sym: bool)
    requires Square(m) && HasDivisor(M1, k, th)
    ensures HasDivisor(MeasCore(m, M1, k, th, mm, sym), k, th)
  {
    if !Cached(TableOf(M1, k), th, mm) {
      var M2 := FreqStep(m, M1, DirOf(k), th, sym);
      var d := DistOf(M2, DirOf(k))[th];
      WithTableFacts(M2, k, Store(TableOf(M2, k), th, mm, MeasSpec(m, k, d, th, mm)));
    }
  }

  /** rqa_ratio stores det over rr for the stored line distribution and keeps
      the invariant; a repeated call returns the memoized value unchanged. */
  lemma RatioStepOk(m: Matrix, M: Memos, S: map<real, bool>, th: real, mm: real, sym: bool)
    requires Square(m) && MemosOk(m, M, S)
    ensures var r := RatioStep(m, M, th, mm, sym);
      var S2 := SymAfter(S, M, r, th, sym);
      MemosOk(m, r, S2) && th in r.pL &&
      r.ratio[th][mm] == FDiv(Fraction(r.pL[th], mm, m, th), RRSpec(m, th)) &&
      (Cached(M.ratio, th, mm) ==> r == M)
  {
    if !Cached(M.ratio, th, mm) {
      RatioMissOk(m, M, S, th, mm, sym);
    }
  }

  /** rqa_ratio when the ratio is not memoized yet: det, then rr, then the
      store of det over rr. */
  lemma RatioMissOk(m: Matrix, M: Memos, S: map<real, bool>, th: real, mm: real, sym: bool)
    requires Square(m) && MemosOk(m, M, S) && !Cached(M.ratio, th, mm)
    ensures var r := RatioStep(m, M, th, mm, sym);
      MemosOk(m, r, SymAfter(S, M, r, th, sym)) && th in r.pL &&
      r.ratio[th][mm] == FDiv(Fraction(r.pL[th], mm, m, th), RRSpec(m, th))
  {
    var M1 := M.(ratio := if th in M.ratio then M.ratio else M.ratio[th := map[]]);
    var M2 := MeasStep(m, M1, Det, th, mm, sym);
    RatioHeadOk(m, M, S, th, mm, sym);
    var S1 := SymAfter(S, M, M2, th, sym);
    RatioTailOk(m, M2, S1, th, mm);
    var M3 := RrStep(m, M2, th);
    var r := M3.(ratio := Store(M3.ratio, th, mm, FDiv(M3.det[th][mm], M3.rr[th])));
    assert RatioStep(m, M, th, mm, sym) == r;
  }

  /** The det step of rqa_ratio, after the ratio row exists. */
  lemma RatioHeadOk(m: Matrix, M: Memos, S: map<real, bool>, th: real, mm: real, sym: bool)
    requires Square(m) && MemosOk(m, M, S)
    ensures var M1 := M.(ratio := if th in M.ratio then M.ratio else M.ratio[th := map[]]);
      var M2 := MeasStep(m, M1, Det, th, mm, sym);
      MemosOk(m, M2, SymAfter(S, M, M2, th, sym)) && th in M2.pL &&
      Cached(M2.det, th, mm) && M2.det[th][mm] == Fraction(M2.pL[th], mm, m, th)
  {
    var M1 := M.(ratio := if th in M.ratio then M.ratio else M.ratio[th := map[]]);
    RatioRowOk(m, M, S, th);
    MeasStepOk(m, M1, S, Det, th, mm, sym);
  }

  /** The rr step of rqa_ratio and the store of det over rr. */
  lemma RatioTailOk(m: Matrix, M2: Memos, S1: map<real, bool>, th: real, mm: real)
    requires Square(m) && MemosOk(m, M2, S1) && th in M2.pL
    requires Cached(M2.det, th, mm) && M2.det[th][mm] == Fraction(M2.pL[th], mm, m, th)
    ensures var M3 := RrStep(m, M2, th);
      var r := M3.(ratio := Store(M3.ratio, th, mm, FDiv(M3.det[th][mm], M3.rr[th])));
      MemosOk(m, r, S1) && r.pL == M2.pL &&
      r.ratio[th][mm] == FDiv(Fraction(r.pL[th], mm, m, th), RRSpec(m, th))
  {
    var M3 := RrStep(m, M2, th);
    RrStepOk(m, M2, S1, th);
    var v := FDiv(M3.det[th][mm], M3.rr[th]);
    StoreRatioOk(m, M3, S1, th, mm, v);
  }

  /** l_max and v_max: the stored, returned or raised result is the sorted
      entry of the stored distribution, which is memoized only when it exists. */
  lemma MaxStepOk(m: Matrix, M: Memos, S: map<real, bool>, dir: Direction, th: real, sym: bool)
    requires Square(m) && MemosOk(m, M, S)
    ensures var r := MaxStep(m, M, dir, th, sym);
      var S2 := SymAfter(S, M, r, th, sym);
      var res := MaxResult(m, M, dir, th, sym);
      MemosOk(m, r, S2) && th in DistOf(r, dir) &&
      res == LvMaxSpec(DistOf(r, dir)[th], MaxOffset(dir)) &&
      (res.Ok? <==> th in MaxTable(r, dir)) &&
      (res.Ok? ==> MaxTable(r, dir)[th] == res.value)
  {
    if th !in MaxTable(M, dir) {
      var M1 := FreqStep(m, M, dir, th, sym);
      FreqStepOk(m, M, S, dir, th, sym);
      var S1 := SymAfter(S, M, M1, th, sym);
      var v := LvMaxSpec(DistOf(M1, dir)[th], MaxOffset(dir));
      if v.Ok? {
        var t := MaxTable(M1, dir)[th := v.value];
        StoreMaxOk(m, M1, S1, dir, th, v.value);
        WithMaxFacts(M1, dir, t);
      }
    }
  }

  /** A second call of l_max or v_max changes nothing and gives the same result. */
  lemma MaxStepIdem(m: Matrix, M: Memos, dir: Direction, th: real, sym: bool)
    requires Square(m)
    ensures var r := MaxStep(m, M, dir, th, sym);
      MaxStep(m, r, dir, th, sym) == r && MaxResult(m, r, dir, th, sym) == MaxResult(m, M, dir, th, sym)
  {
    if th !in MaxTable(M, dir) {
      var M1 := FreqStep(m, M, dir, th, sym);
      var v := LvMaxSpec(DistOf(M1, dir)[th], MaxOffset(dir));
      if v.Ok? {
        WithMaxFacts(M1, dir, MaxTable(M1, dir)[th := v.value]);
      }
    }
  }

  // ---------------------------------------------------------------- what the results mean

  /** l and tt are not finite when no line of at least the minimum length
      occurs, and otherwise at least that minimum. */
  lemma MeanMeasureAtLeast(m: Matrix, M: Memos, S: map<real, bool>, k: Kind, th: real, mm: real, sym: bool)
    requires Square(m) && MemosOk(m, M, S) && !ByRate(k)
    ensures var r := MeasStep(m, M, k, th, mm, sym);
      th in DistOf(r, DirOf(k)) &&
      var d := DistOf(r, DirOf(k))[th];
      var v := TableOf(r, k)[th][mm];
      (Selected(d, mm) == [] ==> v == NonFinite) &&
      (Selected(d, mm) != [] ==> v.Fin? && v.val >= mm)
  {
    MeasStepOk(m, M, S, k, th, mm, sym);
    var r := MeasStep(m, M, k, th, mm, sym);
    var S2 := SymAfter(S, M, r, th, sym);
    var d := DistOf(r, DirOf(k))[th];
    if DirOf(k).Lines? {
      LineDistNonNeg(m, th, S2[th]);
    } else {
      VertDistNonNeg(m, th);
    }
    MeanAtLeast(d, mm);
  }

  /** det and lam are the points on selected lines over the recurrent points,
      and not finite when there is no recurrent point. */
  lemma RateMeasureMeaning(m: Matrix, M: Memos, S: map<real, bool>, k: Kind, th: real, mm: real, sym: bool)
    requires Square(m) && MemosOk(m, M, S) && ByRate(k)
    ensures var r := MeasStep(m, M, k, th, mm, sym);
      th in DistOf(r, DirOf(k)) &&
      var s := Selected(DistOf(r, DirOf(k))[th], mm);
      TableOf(r, k)[th][mm] ==
        if |m| > 0 && CountBelow(m, th) > 0 then Fin(Dot(Keys(s), Values(s)) / CountBelow(m, th) as real)
        else NonFinite
  {
    MeasStepOk(m, M, S, k, th, mm, sym);
    var r := MeasStep(m, M, k, th, mm, sym);
    FractionMeaning(DistOf(r, DirOf(k))[th], mm, m, th);
  }

  /** v_max is the longest vertical line, or 0 when there is none. */
  lemma VMaxMeaning(m: Matrix, M: Memos, S: map<real, bool>, th: real, sym: bool)
    requires Square(m) && MemosOk(m, M, S)
    ensures MaxResult(m, M, Verticals, th, sym) == Ok(Longest(VertDist(m, th)))
  {
    MaxStepOk(m, M, S, Verticals, th, sym);
    VMaxIsLongest(VertDist(m, th));
  }

  /** l_max on a distribution built with a symmetric norm is the longest
      diagonal line besides the main diagonal, or 0; built otherwise it
      raises IndexError exactly when there is no line at all. */
  lemma LMaxMeaning(m: Matrix, M: Memos, S: map<real, bool>, th: real, sym: bool)
    requires Square(m) && MemosOk(m, M, S)
    ensures var r := MaxStep(m, M, Lines, th, sym);
      var S2 := SymAfter(S, M, r, th, sym);
      var d := LineDist(m, th, true);
      th in S2 && d != [] &&
      (S2[th] ==> MaxResult(m, M, Lines, th, sym) == Ok(Longest(d[1..]))) &&
      (!S2[th] ==> (MaxResult(m, M, Lines, th, sym) == Err(IndexError) <==> LineDist(m, th, false) == []))
  {
    MaxStepOk(m, M, S, Lines, th, sym);
    LMaxSkipsSeed(m, th);
  }

  /** div is one over the longest diagonal line besides the main diagonal,
      and raises ZeroDivisionError when there is no such line. */
  lemma DivMeaning(m: Matrix, M: Memos, S: map<real, bool>, th: real, sym: bool)
    requires Square(m) && MemosOk(m, M, S)
    ensures var r := MaxStep(m, M, Lines, th, sym);
      var S2 := SymAfter(S, M, r, th, sym);
      var d := LineDist(m, th, true);
      var q := DivOf(MaxResult(m, M, Lines, th, sym));
      th in S2 && d != [] &&
      (S2[th] && Longest(d[1..]) == 0 ==> q == Err(ZeroDivisionError)) &&
      (S2[th] && Longest(d[1..]) != 0 ==> q == Ok(1.0 / Longest(d[1..]) as real))
  {
    LMaxMeaning(m, M, S, th, sym);
  }
}
