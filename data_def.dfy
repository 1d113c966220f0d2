/** The helpers of dw/core/data_def.py: a column array spread over a matrix,
    the choice list of a combo box, the correction curve of a fit, and the
    DWData wrappers that delegate to the commands. */
module DataDef {
  import opened Base
  import FitsFlags
  import Commands
  import RfiDect

  // ---------------------------------------------------------------- to2D

  /** to2D: a len(array) x n_ch matrix whose row ii is array[ii] throughout;
      rows of a zero value keep the zeros they start with. */
  method To2D(values: seq<real>, nCh: nat) returns (a: array2<real>)
    ensures fresh(a) && a.Length0 == |values| && a.Length1 == nCh
    ensures forall i, j :: 0 <= i < |values| && 0 <= j < nCh ==> a[i, j] == values[i]
  {
    a := new real[|values|, nCh]((i, j) => 0.0);
    var ii := 0;
    while ii < |values|
      invariant 0 <= ii <= |values|
      invariant forall i, j :: 0 <= i < ii && 0 <= j < nCh ==> a[i, j] == values[i]
      invariant forall i, j :: ii <= i < |values| && 0 <= j < nCh ==> a[i, j] == 0.0
    {
      if values[ii] != 0.0 {
        forall j | 0 <= j < nCh {
          a[ii, j] := values[ii];
        }
      }
      ii := ii + 1;
    }
  }

  // ---------------------------------------------------------------- list2choices

  /** An element of the list handed to list2choices. */
  datatype Elem = IntElem(n: int) | StrElem(s: string)

  /** str(c). */
  function Str(c: Elem): string
  {
    match c
    case IntElem(n) => IntToString(n)
    case StrElem(s) => s
  }

  predicate IsSpace(ch: char)
  {
    ch == ' ' || ch == '\t' || ch == '\n' || ch == '\r' || ch == 11 as char || ch == 12 as char
  }

  predicate IsDigit(ch: char) { '0' <= ch <= '9' }

  /** s without its leading and trailing white space. */
  function Strip(s: string): (t: string)
    ensures |t| <= |s|
    ensures t != [] ==> !IsSpace(t[0]) && !IsSpace(t[|t| - 1])
    decreases |s|
  {
    if s == [] then []
    else if IsSpace(s[0]) then Strip(s[1..])
    else if IsSpace(s[|s| - 1]) then Strip(s[..|s| - 1])
    else s
  }

  /** Python 2's int(s) accepts s: a sign and decimal digits, with white
      space around them. */
  predicate IntLiteral(s: string)
  {
    var u := Unsigned(Strip(s));
    u != [] && forall k :: 0 <= k < |u| ==> IsDigit(u[k])
  }

  /** t without a leading sign. */
  function Unsigned(t: string): string
  {
    if t != [] && (t[0] == '+' || t[0] == '-') then t[1..] else t
  }

  /** Whether int(c) succeeds. */
  predicate IntConvertible(c: Elem)
  {
    c.IntElem? || IntLiteral(c.s)
  }

  /** The (key, label) pair of the element at position idx. */
  function ChoiceOf(idx: nat, c: Elem): (string, string)
  {
    (if IntConvertible(c) then Str(c) else NatToString(idx), Str(c))
  }

  /** DWObs.list2choices: one pair per element, in order; the label is
      str(c), the key str(c) when int(c) succeeds and the position otherwise. */
  method List2Choices(clist: seq<Elem>) returns (choices: seq<(string, string)>)
    ensures |choices| == |clist|
    ensures forall i :: 0 <= i < |clist| ==> choices[i].1 == Str(clist[i])
    ensures forall i :: 0 <= i < |clist| ==>
      choices[i].0 == if IntConvertible(clist[i]) then Str(clist[i]) else NatToString(i)
  {
    choices := [];
    var q := 0;
    while q < |clist|
      invariant 0 <= q <= |clist| && |choices| == q
      invariant forall i :: 0 <= i < q ==> choices[i] == ChoiceOf(i, clist[i])
    {
      choices := choices + [ChoiceOf(q, clist[q])];
      q := q + 1;
    }
  }

  /** The keys are distinct when no element converts to an integer, and when
      every element is a distinct integer. */
  lemma ChoiceKeysDistinct(clist: seq<Elem>, i: nat, j: nat)
    requires i < j < |clist|
    requires (!IntConvertible(clist[i]) && !IntConvertible(clist[j])) ||
             (clist[i].IntElem? && clist[j].IntElem? && clist[i] != clist[j])
    ensures ChoiceOf(i, clist[i]).0 != ChoiceOf(j, clist[j]).0
  {
    if ChoiceOf(i, clist[i]).0 == ChoiceOf(j, clist[j]).0 {
      if clist[i].IntElem? {
        IntToStringInjective(clist[i].n, clist[j].n);
      } else {
        NatToStringInjective(i, j);
      }
    }
  }

  /** A string element that converts and a later one that does not can get
      the same key: ["1", "x"] gives the key "1" twice. */
  lemma ChoiceKeysCanCollide()
    ensures ChoiceOf(0, StrElem("1")) == ("1", "1")
    ensures ChoiceOf(1, StrElem("x")).0 == "1"
  {
    var one, ex := "1", "x";
    assert Strip(one) == one && Unsigned(one) == one && IsDigit(one[0]);
    assert Strip(ex) == ex && Unsigned(ex) == ex && !IsDigit(ex[0]);
    assert DigitChar(1) == '1';
    assert NatToString(1) == [DigitChar(1)] == one;
  }

  // ---------------------------------------------------------------- get_fit

  /** The two fits get_fit can ask for. */
  datatype FitType = Spline | Chebyshev

  /** The exception the fit raises on nx x samples and ny y samples, if any.
      UnivariateSpline hands its arguments to dfitpack's curfit, whose checks
      (1 <= k <= 5, more points than k, as many y as x, s >= 0) all raise
      dfitpack.error. Chebyshev.fit first takes the domain of x, which fails
      with ValueError on an empty x; chebfit then rejects a negative degree
      with ValueError and unequal lengths with TypeError. */
  function FitFailure(t: FitType, order: int, smooth: int, degree: int, nx: nat, ny: nat): Option<PyError>
  {
    match t
    case Spline =>
      if !(1 <= order <= 5) || nx <= order || nx != ny || smooth < 0 then Some(FitpackError) else None
    case Chebyshev =>
      if nx == 0 || degree < 0 then Some(ValueError)
      else if nx != ny then Some(TypeError)
      else None
  }

  /** [x, f(x), corr, res]. */
  datatype Fit = Fit(x: seq<real>, fx: seq<real>, corr: seq<Float>, res: seq<real>)

  function Zeros(n: nat): (z: seq<Float>)
    ensures |z| == n && forall i :: 0 <= i < n ==> z[i] == Fin(0.0)
  {
    seq(n, i => Fin(0.0))
  }

  /** np.max. */
  function SeqMax(s: seq<real>): (m: real)
    requires s != []
    ensures m in s && forall i :: 0 <= i < |s| ==> s[i] <= m
  {
    if |s| == 1 then s[0]
    else
      var rest := SeqMax(s[1..]);
      assert forall i :: 1 <= i < |s| ==> s[i] == s[1..][i - 1];
      if s[0] >= rest then s[0] else rest
  }

  /** f(x) / max(f(x)); a zero maximum gives inf and nan everywhere. */
  function Normalised(fx: seq<real>): (n: seq<Float>)
    requires fx != []
    ensures |n| == |fx|
  {
    Scaled(fx, SeqMax(fx))
  }

  /** fx / m, element by element, as numpy divides. */
  function Scaled(fx: seq<real>, m: real): (n: seq<Float>)
    ensures |n| == |fx|
  {
    seq(|fx|, i requires 0 <= i < |fx| => if m == 0.0 then NonFinite else Fin(fx[i] / m))
  }

  /** The fitted function applied to every sample. */
  function Apply(f: real -> real, x: seq<real>): (fx: seq<real>)
    ensures |fx| == |x| && forall i :: 0 <= i < |x| ==> fx[i] == f(x[i])
  {
    seq(|x|, i requires 0 <= i < |x| => f(x[i]))
  }

  /** DWObs.get_fit with the fitted function given: zeros(begin) and
      zeros(N - end) around the normalised fit of data[begin:end] (end 0
      meaning up to the end), and the residual y - f(x). */
  function GetFit(t: FitType, f: real -> real, xs: seq<real>, ys: seq<real>, order: int, smooth: int,
                  degree: int, begin: int, end: int): (r: Result<Fit>)
    ensures begin < 0 || end > |xs| ==> r == Err(ValueError)
  {
    if begin < 0 || |xs| - end < 0 then Err(ValueError)
    else
      var x := PySlice(xs, begin, if end == 0 then |xs| else end);
      var y := PySlice(ys, begin, if end == 0 then |ys| else end);
      var failure := FitFailure(t, order, smooth, degree, |x|, |y|);
      if failure.Some? then Err(failure.value) else Ok(Fitted(f, x, y, begin, |xs| - end))
  }

  /** [x, f(x), corr, res] of a fit that succeeds on the samples (x, y),
      with the given paddings around the normalised fit. */
  function Fitted(f: real -> real, x: seq<real>, y: seq<real>, left: nat, right: nat): Fit
    requires x != [] && |x| == |y|
  {
    var fx := Apply(f, x);
    Fit(x, fx, Zeros(left) + Normalised(fx) + Zeros(right), seq(|x|, i requires 0 <= i < |x| => y[i] - fx[i]))
  }

  /** The correction is zero in both paddings and the normalised fit between
      them, and the residual is y - f(x). */
  lemma FittedShape(f: real -> real, x: seq<real>, y: seq<real>, left: nat, right: nat)
    requires x != [] && |x| == |y|
    ensures var r := Fitted(f, x, y, left, right);
      r.x == x && r.fx == Apply(f, x) && |r.corr| == left + |x| + right &&
      (forall i :: 0 <= i < |r.corr| && !(left <= i < left + |x|) ==> r.corr[i] == Fin(0.0)) &&
      (forall i :: left <= i < left + |x| ==> r.corr[i] == Normalised(r.fx)[i - left]) &&
      |r.res| == |x| && forall i :: 0 <= i < |x| ==> r.res[i] == y[i] - f(x[i])
  {
    var fx := Apply(f, x);
    var corr := Zeros(left) + Normalised(fx) + Zeros(right);
    forall i | left <= i < left + |x|
      ensures corr[i] == Normalised(fx)[i - left]
    {
      assert corr[i] == (Zeros(left) + Normalised(fx))[i];
    }
  }

  /** Once np.zeros accepts both paddings, get_fit fails exactly as the fit
      does on the sliced samples: an empty Chebyshev slice with ValueError,
      ragged Chebyshev samples with TypeError, and a spline without more points
      than its degree, or on ragged samples, with dfitpack.error. */
  lemma GetFitErrors(t: FitType, f: real -> real, xs: seq<real>, ys: seq<real>, order: int, smooth: int,
                     degree: int, begin: int, end: int)
    requires 0 <= begin && end <= |xs|
    ensures var x := PySlice(xs, begin, if end == 0 then |xs| else end);
      var y := PySlice(ys, begin, if end == 0 then |ys| else end);
      var r := GetFit(t, f, xs, ys, order, smooth, degree, begin, end);
      (r.Err? <==> FitFailure(t, order, smooth, degree, |x|, |y|).Some?) &&
      (t == Chebyshev && x == [] ==> r == Err(ValueError)) &&
      (t == Chebyshev && x != [] && degree >= 0 && |x| != |y| ==> r == Err(TypeError)) &&
      (t == Spline && (|x| <= order || |x| != |y|) ==> r == Err(FitpackError))
  {
  }

  /** An empty slice, begin == end, fails for either fit: with ValueError
      from Chebyshev's domain and with dfitpack.error from the spline. */
  lemma GetFitEmptySlice(f: real -> real, xs: seq<real>, ys: seq<real>, order: int, smooth: int,
                         degree: int, begin: int)
    requires 0 < begin <= |xs|
    ensures GetFit(Chebyshev, f, xs, ys, order, smooth, degree, begin, begin) == Err(ValueError)
    ensures GetFit(Spline, f, xs, ys, order, smooth, degree, begin, begin) == Err(FitpackError)
  {
  }

  /** For 0 <= begin < end <= N the fit succeeds exactly when the fit accepts
      the end - begin samples; then the correction has length N, is zero
      outside [begin, end) and holds the normalised fit inside, and the
      residual is y - f(x) over the same range. */
  lemma GetFitPadding(t: FitType, f: real -> real, xs: seq<real>, ys: seq<real>, order: int, smooth: int,
                      degree: int, begin: int, end: int)
    requires 0 <= begin < end <= |xs| && end <= |ys|
    ensures var r := GetFit(t, f, xs, ys, order, smooth, degree, begin, end);
      (r.Ok? <==> FitFailure(t, order, smooth, degree, end - begin, end - begin).None?) &&
      (r.Ok? ==>
        r.value.x == xs[begin..end] && |r.value.corr| == |xs| &&
        (forall i :: 0 <= i < |xs| && !(begin <= i < end) ==> r.value.corr[i] == Fin(0.0)) &&
        (forall i :: begin <= i < end ==> r.value.corr[i] == Normalised(r.value.fx)[i - begin]) &&
        |r.value.res| == end - begin &&
        forall i :: 0 <= i < end - begin ==> r.value.res[i] == ys[begin + i] - f(xs[begin + i]))
  {
    var x, y := xs[begin..end], ys[begin..end];
    assert PySlice(xs, begin, end) == x && PySlice(ys, begin, end) == y;
    if FitFailure(t, order, smooth, degree, end - begin, end - begin).None? {
      FittedShape(f, x, y, begin, |xs| - end);
    }
  }

  /** With end 0 the right padding is as long as the data, so a successful
      fit's correction is twice the data's length. */
  lemma GetFitEndZero(t: FitType, f: real -> real, xs: seq<real>, ys: seq<real>, order: int, smooth: int,
                      degree: int, begin: int)
    requires 0 <= begin < |xs| && |ys| == |xs|
    ensures var r := GetFit(t, f, xs, ys, order, smooth, degree, begin, 0);
      (r.Ok? <==> FitFailure(t, order, smooth, degree, |xs| - begin, |xs| - begin).None?) &&
      (r.Ok? ==> r.value.x == xs[begin..] && |r.value.corr| == 2 * |xs|)
  {
  }

  /** When some fitted value is positive the normalised fit is f(x) divided
      by its maximum: finite, at most 1, and exactly 1 at the maximum. */
  lemma NormalisedPeak(fx: seq<real>)
    requires exists i :: 0 <= i < |fx| && fx[i] > 0.0
    ensures var n, m := Normalised(fx), SeqMax(fx);
      (forall i :: 0 <= i < |fx| ==> n[i] == Fin(fx[i] / m) && n[i].val <= 1.0) &&
      exists i :: 0 <= i < |fx| && n[i] == Fin(1.0)
  {
    var m := SeqMax(fx);
    var p :| 0 <= p < |fx| && fx[p] > 0.0;
    var k :| 0 <= k < |fx| && fx[k] == m;
    assert m > 0.0 by {
      assert fx[p] <= m;
    }
    var n := Scaled(fx, m);
    assert Normalised(fx) == n;
    forall i | 0 <= i < |fx|
      ensures n[i] == Fin(fx[i] / m) && n[i].val <= 1.0
    {
      ScaledAt(fx, m, i);
    }
    ScaledAt(fx, m, k);
  }

  lemma ScaledAt(fx: seq<real>, m: real, i: nat)
    requires i < |fx| && m > 0.0 && fx[i] <= m
    ensures var n := Scaled(fx, m)[i];
      n == Fin(fx[i] / m) && n.val <= 1.0 && (fx[i] == m ==> n.val == 1.0)
  {
    var a := fx[i];
    var v := a / m;
    assert Scaled(fx, m)[i] == Fin(v);
    DivideAtMost(a, m, v);
  }

  lemma DivideAtMost(a: real, m: real, v: real)
    requires m > 0.0 && a <= m && v == a / m
    ensures v <= 1.0 && v * m == a && (a == m ==> v == 1.0)
  {
  }

  // ---------------------------------------------------------------- DWData wrappers

  /** The datasets after get_flagsets(i): the dataset's handle dictionaries
      rebuilt from the flag table, or the error it raises. */
  function Refreshed(ds: seq<Commands.Dataset>, t: Option<FitsFlags.FlagTable>, i: int): Result<seq<Commands.Dataset>>
  {
    var dsr := PyIndex(ds, i);
    if dsr.Err? then Err(IndexError)
    else
      var g := FitsFlags.GetFlagsets(t, dsr.value.feedSection);
      if g.Err? then Err(g.error)
      else Ok(ds[Commands.Slot(|ds|, i) :=
                 dsr.value.(flagsets := Commands.Handles(g.value.0), flagsetsRif := g.value.1)])
  }

  /** What upd_flagset leaves behind: the refreshed datasets, and an error
      when refreshing fails or the key is not among the dataset's flag sets. */
  ghost predicate UpdOutcome(oldDs: seq<Commands.Dataset>, t: Option<FitsFlags.FlagTable>, i: int,
                             k: Commands.Key, newDs: seq<Commands.Dataset>, r: Result<()>)
  {
    var g := Refreshed(oldDs, t, i);
    (g.Err? ==> r == Err(g.error) && newDs == oldDs) &&
    (g.Ok? ==> newDs == g.value && PyIndex(newDs, i).Ok? &&
                (r.Ok? <==> k in PyIndex(newDs, i).value.flagsets) &&
                (r.Err? ==> r.error == KeyError))
  }

  /** DWData.upd_flagset: get_flagsets, then UpdFlagSetCommand; with the FITS
      backend the update itself writes nothing. */
  method UpdFlagset(d: Commands.DwData, i: int, k: Commands.Key, areas: seq<FitsFlags.Rect>, value: int)
    returns (r: Result<()>)
    modifies d
    ensures d.Session() == old(d.Session()) && d.flagTable == old(d.flagTable)
    ensures UpdOutcome(old(d.datasets), d.flagTable, i, k, d.datasets, r)
  {
    r := d.GetFlagSets(i);
    if r.Err? {
      return;
    }
    SlotAfterRefresh(old(d.datasets), d.flagTable, i);
    r := d.UpdFlagSet(i, k, areas, value);
  }

  lemma SlotAfterRefresh(ds: seq<Commands.Dataset>, t: Option<FitsFlags.FlagTable>, i: int)
    requires Refreshed(ds, t, i).Ok?
    ensures PyIndex(Refreshed(ds, t, i).value, i).Ok?
  {
    Commands.SlotInRange(ds, i);
  }

  /** DWData.deflag_flagset: upd_flagset with FLAG_FALSE. */
  method DeflagFlagset(d: Commands.DwData, i: int, k: Commands.Key, areas: seq<FitsFlags.Rect>)
    returns (r: Result<()>)
    modifies d
    ensures d.Session() == old(d.Session()) && d.flagTable == old(d.flagTable)
    ensures UpdOutcome(old(d.datasets), d.flagTable, i, k, d.datasets, r)
  {
    r := UpdFlagset(d, i, k, areas, FLAG_FALSE);
  }

  /** get_table_meta on a handle, an AttributeError becoming "". On the table
      data new_flagset stores, tableh[1] is its second record: with fewer than
      two records that raises IndexError, which is not caught; otherwise the
      record has no .data attribute. An operation handle reads the first record
      of its operation. */
  function MetaValue(t: Option<FitsFlags.FlagTable>, h: Commands.Handle, field: FitsFlags.MetaLabel): Result<string>
  {
    match h
    case TableHandle(e) => if |e| < 2 then Err(IndexError) else Ok("")
    case OpHandle(n) => if t.None? then Err(IndexError) else FitsFlags.TableMeta(t.value, n, field)
  }

  /** DWData.get_flagset_meta: the algorithm, params and flagresult of a
      flag set; errors other than AttributeError propagate. */
  function FlagsetMeta(ds: seq<Commands.Dataset>, t: Option<FitsFlags.FlagTable>, i: int, k: Commands.Key)
    : (r: Result<map<string, string>>)
    ensures r.Ok? ==> r.value.Keys == {"algorithm", "params", "flagresult"}
    ensures PyIndex(ds, i).Err? ==> r == Err(IndexError)
    ensures PyIndex(ds, i).Ok? && k !in PyIndex(ds, i).value.flagsets ==> r == Err(KeyError)
  {
    var dsr := PyIndex(ds, i);
    if dsr.Err? then Err(IndexError)
    else if k !in dsr.value.flagsets then Err(KeyError)
    else
      var h := dsr.value.flagsets[k];
      var a := MetaValue(t, h, FitsFlags.AlgorithmMeta);
      var p := MetaValue(t, h, FitsFlags.ParamsMeta);
      var f := MetaValue(t, h, FitsFlags.FlagresultMeta);
      if a.Err? then Err(a.error)
      else if p.Err? then Err(p.error)
      else if f.Err? then Err(f.error)
      else Ok(map["algorithm" := a.value, "params" := p.value, "flagresult" := f.value])
  }

  /** The metadata of the table data is empty; that of an operation is its
      first record's, and fails exactly when the operation has no record. */
  lemma FlagsetMetaValues(ds: seq<Commands.Dataset>, t: Option<FitsFlags.FlagTable>, i: int, k: Commands.Key)
    requires PyIndex(ds, i).Ok? && k in PyIndex(ds, i).value.flagsets
    ensures var h := PyIndex(ds, i).value.flagsets[k];
      var r := FlagsetMeta(ds, t, i, k);
      (h.TableHandle? && |h.entries| < 2 ==> r == Err(IndexError)) &&
      (h.TableHandle? && |h.entries| >= 2 ==> r == Ok(map["algorithm" := "", "params" := "", "flagresult" := ""])) &&
      (h.OpHandle? && t.Some? ==>
        (r.Err? <==> forall s :: s in t.value.entries ==> s.nop != h.nop) &&
        (r.Ok? ==>
          exists q :: 0 <= q < |t.value.entries| && t.value.entries[q].nop == h.nop &&
            (forall p :: 0 <= p < q ==> t.value.entries[p].nop != h.nop) &&
            r.value == map["algorithm" := t.value.entries[q].algorithm, "params" := t.value.entries[q].params,
                           "flagresult" := t.value.entries[q].flagresult]))
  {
    var h := PyIndex(ds, i).value.flagsets[k];
    if h.OpHandle? && t.Some? {
      var a := FitsFlags.TableMeta(t.value, h.nop, FitsFlags.AlgorithmMeta);
      var p := FitsFlags.TableMeta(t.value, h.nop, FitsFlags.ParamsMeta);
      var f := FitsFlags.TableMeta(t.value, h.nop, FitsFlags.FlagresultMeta);
      if a.Ok? {
        var q :| 0 <= q < |t.value.entries| && t.value.entries[q].nop == h.nop &&
          (forall p :: 0 <= p < q ==> t.value.entries[p].nop != h.nop) &&
          a.value == FitsFlags.MetaOf(t.value.entries[q], FitsFlags.AlgorithmMeta);
        FirstUnique(t.value, h.nop, q, p, FitsFlags.ParamsMeta);
        FirstUnique(t.value, h.nop, q, f, FitsFlags.FlagresultMeta);
      }
    }
  }

  /** Every field is read from the same first record. */
  lemma FirstUnique(t: FitsFlags.FlagTable, nop: int, q: nat, r: Result<string>, field: FitsFlags.MetaLabel)
    requires q < |t.entries| && t.entries[q].nop == nop && forall p :: 0 <= p < q ==> t.entries[p].nop != nop
    requires r == FitsFlags.TableMeta(t, nop, field)
    ensures r == Ok(FitsFlags.MetaOf(t.entries[q], field))
  {
    var es := t.entries;
    var q' :| 0 <= q' < |es| && es[q'].nop == nop && (forall p :: 0 <= p < q' ==> es[p].nop != nop) &&
      r.value == FitsFlags.MetaOf(es[q'], field);
    assert q' == q;
  }

  /** DWData.auto_flag_get_out: the available outputs of the selected
      algorithm and, for each, whether it is selected; without an algorithm
      the attribute lookup on None fails. */
  method AutoFlagGetOut(d: Commands.DwData) returns (r: Result<(seq<string>, map<string, bool>)>)
    ensures d.selectedAlg == null ==> r == Err(AttributeError)
    ensures d.selectedAlg != null ==>
      r.Ok? && r.value.0 == d.selectedAlg.availOutputs &&
      (forall l :: l in r.value.1 <==> l in r.value.0) &&
      forall l :: l in r.value.1 ==> r.value.1[l] == d.selectedAlg.IsOutSelected(l)
  {
    if d.selectedAlg == null {
      return Err(AttributeError);
    }
    var alg := d.selectedAlg;
    var avail := alg.availOutputs;
    var options: map<string, bool> := map[];
    var q := 0;
    while q < |avail|
      invariant 0 <= q <= |avail|
      invariant forall l :: l in options <==> l in avail[..q]
      invariant forall l :: l in options ==> options[l] == alg.IsOutSelected(l)
    {
      options := options[avail[q] := alg.IsOutSelected(avail[q])];
      assert avail[..q + 1] == avail[..q] + [avail[q]];
      q := q + 1;
    }
    assert avail[..q] == avail;
    return Ok((avail, options));
  }
}
