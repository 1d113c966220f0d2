/** The bookkeeping of the automatic RFI detection algorithms of
    dw/flag/rfi_dect_func.py: parameter dictionaries, the available, default
    and selected flag outputs, the registry of executable algorithms, the
    bound check and flag rule of SimpleThreshold and the index maps that
    FlagLibDw hands to libdw. The numerical detection itself is not part of
    this model. */
module RfiDect {
  import opened Base
  import LibDw

  // ---------------------------------------------------------------- dictionaries

  /** A parameter value: an integer, a float, or the (value, lower, upper)
      tuple of SimpleThreshold, whose upper bound may be NaN (None here). */
  datatype ParamValue = PInt(i: int) | PReal(r: real) | PBound(value: real, lo: real, hi: Option<real>)

  /** A parameter dictionary, its entries in insertion order. */
  type Params = seq<(string, ParamValue)>

  function Keys<V>(d: seq<(string, V)>): (ks: seq<string>)
    ensures |ks| == |d| && forall k :: 0 <= k < |d| ==> ks[k] == d[k].0
  {
    seq(|d|, k requires 0 <= k < |d| => d[k].0)
  }

  predicate DistinctKeys<V>(d: seq<(string, V)>)
  {
    forall a, b :: 0 <= a < b < |d| ==> d[a].0 != d[b].0
  }

  function Lookup<V>(d: seq<(string, V)>, key: string): (r: Option<V>)
    ensures r.None? <==> key !in Keys(d)
  {
    if d == [] then None
    else if d[|d| - 1].0 == key then Some(d[|d| - 1].1)
    else Lookup(d[..|d| - 1], key)
  }

  /** d[key] = v: the entry is replaced where it stands, or appended. */
  function Put<V>(d: seq<(string, V)>, key: string, v: V): (r: seq<(string, V)>)
  {
    if key in Keys(d) then
      seq(|d|, k requires 0 <= k < |d| => if d[k].0 == key then (key, v) else d[k])
    else d + [(key, v)]
  }

  lemma {:induction false} LookupPut<V>(d: seq<(string, V)>, key: string, v: V, other: string)
    requires DistinctKeys(d)
    ensures DistinctKeys(Put(d, key, v))
    ensures Lookup(Put(d, key, v), other) == if other == key then Some(v) else Lookup(d, other)
    ensures Keys(d) <= Keys(Put(d, key, v))
  {
    var r := Put(d, key, v);
    if key in Keys(d) {
      assert Keys(r) == Keys(d);
      LookupReplaced(d, key, v, other);
    } else {
      assert r[..|r| - 1] == d;
    }
  }

  lemma {:induction false} LookupReplaced<V>(d: seq<(string, V)>, key: string, v: V, other: string)
    requires key in Keys(d)
    ensures var r := seq(|d|, k requires 0 <= k < |d| => if d[k].0 == key then (key, v) else d[k]);
      Lookup(r, other) == if other == key then Some(v) else Lookup(d, other)
  {
    var r := seq(|d|, k requires 0 <= k < |d| => if d[k].0 == key then (key, v) else d[k]);
    var init := d[..|d| - 1];
    var rinit := seq(|init|, k requires 0 <= k < |init| => if init[k].0 == key then (key, v) else init[k]);
    assert r[..|r| - 1] == rinit;
    if d[|d| - 1].0 != key {
      assert key in Keys(init) by {
        var k :| 0 <= k < |d| && Keys(d)[k] == key;
        assert k < |d| - 1;
        assert Keys(init)[k] == key;
      }
      LookupReplaced(init, key, v, other);
    } else if other != key {
      if other in Keys(init) || other in Keys(rinit) {
        LookupSameKeys(init, rinit, other);
      }
    }
  }

  /** Two dictionaries that agree everywhere except on the values stored under `key`. */
  lemma {:induction false} LookupSameKeys<V>(a: seq<(string, V)>, b: seq<(string, V)>, other: string)
    requires |a| == |b| && forall k :: 0 <= k < |a| ==> a[k].0 == b[k].0 && (a[k].0 == other ==> a[k] == b[k])
    ensures Lookup(a, other) == Lookup(b, other)
  {
    if a != [] {
      LookupSameKeys(a[..|a| - 1], b[..|b| - 1], other);
    }
  }

  /** dict.update(kv): every pair of kv is put in turn. */
  function UpdateAll<V>(d: seq<(string, V)>, kv: seq<(string, V)>): seq<(string, V)>
  {
    if kv == [] then d else Put(UpdateAll(d, kv[..|kv| - 1]), kv[|kv| - 1].0, kv[|kv| - 1].1)
  }

  /** After an update each given key holds its (last) given value and every other
      key keeps its value: there is no range or type check. */
  lemma {:induction false} UpdateAllSpec<V>(d: seq<(string, V)>, kv: seq<(string, V)>, key: string)
    requires DistinctKeys(d)
    ensures DistinctKeys(UpdateAll(d, kv))
    ensures Lookup(UpdateAll(d, kv), key) == if key in Keys(kv) then Lookup(kv, key) else Lookup(d, key)
    ensures Keys(d) <= Keys(UpdateAll(d, kv))
  {
    if kv != [] {
      var init := kv[..|kv| - 1];
      var u := UpdateAll(d, init);
      UpdateAllSpec(d, init, key);
      LookupPut(u, kv[|kv| - 1].0, kv[|kv| - 1].1, key);
      LookupLast(kv, key);
    }
  }

  /** The last pair of a dictionary literal wins. */
  lemma LookupLast<V>(kv: seq<(string, V)>, key: string)
    requires kv != []
    ensures key in Keys(kv) <==> key in Keys(kv[..|kv| - 1]) || key == kv[|kv| - 1].0
    ensures Lookup(kv, key) == if kv[|kv| - 1].0 == key then Some(kv[|kv| - 1].1) else Lookup(kv[..|kv| - 1], key)
  {
    assert Keys(kv) == Keys(kv[..|kv| - 1]) + [kv[|kv| - 1].0];
  }

  /** The attribute view of a dictionary (self.__dict__.update(self.params)). */
  function AsMap<V>(d: seq<(string, V)>): (m: map<string, V>)
    ensures m.Keys == set k | k in Keys(d)
  {
    if d == [] then map[] else AsMap(d[..|d| - 1])[d[|d| - 1].0 := d[|d| - 1].1]
  }

  lemma {:induction false} AsMapLookup<V>(d: seq<(string, V)>, key: string)
    requires key in Keys(d)
    ensures Lookup(d, key) == Some(AsMap(d)[key])
  {
    if d[|d| - 1].0 != key {
      var k :| 0 <= k < |d| && Keys(d)[k] == key;
      assert Keys(d[..|d| - 1])[k] == key;
      AsMapLookup(d[..|d| - 1], key);
    }
  }

  // ---------------------------------------------------------------- algorithms

  datatype Kind =
    | SimpleThreshold
    | FullChan
    | FullDwt
    | LibDwBase
    | SingleChLibdw
    | EvenOddLibdw

  function Name(k: Kind): string
  {
    match k
    case SimpleThreshold => "SimpleThreshold"
    case FullChan => "Full_channel"
    case FullDwt => "Channel_DWT"
    case LibDwBase => "_libdw"
    case SingleChLibdw => "Single_channel_libdw"
    case EvenOddLibdw => "Even_odd_libdw"
  }

  predicate IsExec(k: Kind)
  {
    k == SimpleThreshold
  }

  predicate IsLibDw(k: Kind)
  {
    k == LibDwBase || k == SingleChLibdw || k == EvenOddLibdw
  }

  /** The class-level def_params. */
  function DefParams(k: Kind): (p: Params)
    ensures DistinctKeys(p)
  {
    match k
    case SimpleThreshold => [("num_of_rms_above_median", PBound(2.0, 0.0, None))]
    case FullChan => [("median_size_time", PInt(1)), ("median_size_freq", PInt(5)), ("th_k", PReal(10.0)), ("p_th", PReal(0.01))]
    case FullDwt => [("level", PInt(0)), ("th_k", PReal(1.0))]
    case LibDwBase => []
    case SingleChLibdw => [("channel", PInt(0))]
    case EvenOddLibdw => [("channel_start", PInt(0))]
  }

  /** [str(i) for i in range(lo, hi)]. */
  function Labels(lo: int, hi: int): (r: seq<string>)
    ensures |r| == if lo < hi then hi - lo else 0
    ensures forall k :: 0 <= k < |r| ==> r[k] == IntToString(lo + k)
  {
    seq(if lo < hi then hi - lo else 0, k => IntToString(lo + k))
  }

  /** The available outputs of _define_output; level is FullDwt's level. */
  function AvailOutputs(k: Kind, level: int): seq<string>
  {
    match k
    case SimpleThreshold => ["L", "R", "Q", "U"]
    case FullChan => ["Normal", "Not_normal"]
    case FullDwt => Labels(0, level)
    case LibDwBase => []
    case SingleChLibdw => ["Test"]
    case EvenOddLibdw => ["Even", "Odd"]
  }

  function DefOutputs(k: Kind, level: int): seq<string>
  {
    match k
    case SimpleThreshold => ["L", "R"]
    case FullChan => ["Not_normal"]
    case FullDwt => Labels(PyDiv(level, 2), Min(level, PyDiv(level, 2) + 3))
    case LibDwBase => []
    case SingleChLibdw => ["Test"]
    case EvenOddLibdw => ["Even", "Odd"]
  }

  /** FullDwt's labels: "0" .. str(level - 1) are available, and the defaults
      are at most three of them, starting at level / 2. */
  lemma DwtLabels(level: int)
    ensures forall x :: x in DefOutputs(FullDwt, level) ==> x in AvailOutputs(FullDwt, level)
    ensures |DefOutputs(FullDwt, level)| <= 3
    ensures level >= 2 ==> DefOutputs(FullDwt, level)[0] == IntToString(PyDiv(level, 2))
  {
    var lo, hi := PyDiv(level, 2), Min(level, PyDiv(level, 2) + 3);
    DwtBounds(level);
    if lo < hi {
      LabelsWithin(lo, hi, level);
    }
  }

  lemma DwtBounds(level: int)
    ensures var lo, hi := PyDiv(level, 2), Min(level, PyDiv(level, 2) + 3);
      (lo < hi ==> 0 <= lo && hi <= level && hi - lo <= 3) && (level >= 2 ==> lo < hi)
  {
  }

  /** A run of labels inside [0, level) is a sub-run of the available ones. */
  lemma LabelsWithin(lo: int, hi: int, level: int)
    requires 0 <= lo && hi <= level
    ensures forall x :: x in Labels(lo, hi) ==> x in Labels(0, level)
  {
    forall x | x in Labels(lo, hi)
      ensures x in Labels(0, level)
    {
      var k :| 0 <= k < |Labels(lo, hi)| && Labels(lo, hi)[k] == x;
      assert Labels(0, level)[lo + k] == x;
    }
  }

  /** The available labels of every algorithm are distinct. */
  lemma AvailDistinct(k: Kind, level: int)
    ensures forall a, b :: 0 <= a < b < |AvailOutputs(k, level)| ==> AvailOutputs(k, level)[a] != AvailOutputs(k, level)[b]
  {
    if k == FullDwt {
      forall a, b | 0 <= a < b < |Labels(0, level)|
        ensures Labels(0, level)[a] != Labels(0, level)[b]
      {
        IntToStringDistinct(a, b);
      }
    }
  }

  // ---------------------------------------------------------------- registry

  /** A class of the algorithm hierarchy and its direct subclasses. */
  datatype AlgClass = AlgClass(kind: Kind, subs: seq<AlgClass>)

  /** The subclasses of FlagAlgorithm, in definition order. */
  function Hierarchy(): seq<AlgClass>
  {
    [AlgClass(SimpleThreshold, []), AlgClass(FullChan, []), AlgClass(FullDwt, []),
     AlgClass(LibDwBase, [AlgClass(SingleChLibdw, []), AlgClass(EvenOddLibdw, [])])]
  }

  function KindsOf(cs: seq<AlgClass>): (r: seq<Kind>)
    ensures |r| == |cs| && forall k :: 0 <= k < |cs| ==> r[k] == cs[k].kind
  {
    seq(|cs|, k requires 0 <= k < |cs| => cs[k].kind)
  }

  /** get_implementations on a class whose direct subclasses are subs: the
      subclasses, then what each subclass's get_implementations returns, kept
      only when is_exec. */
  function Implementations(subs: seq<AlgClass>): seq<Kind>
    decreases subs, 1
  {
    Filter(KindsOf(subs) + Nested(subs), IsExec)
  }

  function Nested(subs: seq<AlgClass>): seq<Kind>
    decreases subs, 0
  {
    if subs == [] then []
    else Nested(subs[..|subs| - 1]) + Implementations(subs[|subs| - 1].subs)
  }

  /** x is a kind somewhere below the classes cs. */
  predicate Below(cs: seq<AlgClass>, x: Kind)
    decreases cs
  {
    exists k :: 0 <= k < |cs| && (cs[k].kind == x || Below(cs[k].subs, x))
  }

  /** get_implementations returns exactly the executable classes below. */
  lemma {:induction false} ImplementationsSpec(subs: seq<AlgClass>, x: Kind)
    ensures x in Implementations(subs) <==> IsExec(x) && Below(subs, x)
    decreases subs, 1
  {
    FilterMembers(KindsOf(subs) + Nested(subs), IsExec, x);
    NestedSpec(subs, x);
    if x in KindsOf(subs) {
      var k :| 0 <= k < |subs| && KindsOf(subs)[k] == x;
      assert subs[k].kind == x;
    }
    if Below(subs, x) && x !in KindsOf(subs) {
      var k :| 0 <= k < |subs| && (subs[k].kind == x || Below(subs[k].subs, x));
      assert KindsOf(subs)[k] == subs[k].kind;
    }
  }

  lemma {:induction false} NestedSpec(subs: seq<AlgClass>, x: Kind)
    ensures x in Nested(subs) <==> IsExec(x) && exists k :: 0 <= k < |subs| && Below(subs[k].subs, x)
    decreases subs, 0
  {
    if subs != [] {
      var init := subs[..|subs| - 1];
      var last := subs[|subs| - 1];
      NestedSpec(init, x);
      ImplementationsSpec(last.subs, x);
      if exists k :: 0 <= k < |subs| && Below(subs[k].subs, x) {
        var k :| 0 <= k < |subs| && Below(subs[k].subs, x);
        if k < |init| {
          assert init[k] == subs[k];
        }
      }
      if exists k :: 0 <= k < |init| && Below(init[k].subs, x) {
        var k :| 0 <= k < |init| && Below(init[k].subs, x);
        assert subs[k] == init[k];
      }
    }
  }

  /** The registry offers SimpleThreshold and nothing else. */
  lemma RegistryIsSimpleThreshold()
    ensures forall x :: x in Implementations(Hierarchy()) <==> x == SimpleThreshold
  {
    forall x
      ensures x in Implementations(Hierarchy()) <==> x == SimpleThreshold
    {
      ImplementationsSpec(Hierarchy(), x);
      if x == SimpleThreshold {
        assert Hierarchy()[0].kind == x;
      }
    }
  }

  // ---------------------------------------------------------------- outputs

  /** AutoFlagSet: one flag output of an algorithm. The params of an output
      are the same dictionary object as the algorithm's, so they are read
      from the algorithm and not stored here. feed and section are attributes
      the flagging command sets on the outputs after compute. */
  datatype AutoFlagSet = AutoFlagSet(
    flagData: seq<seq<real>>,
    algorithm: string,
    flagresult: string,
    pola: Option<string>,
    feed: Option<int>,
    section: Option<int>)

  /** np.zeros of the given shape. */
  function ZeroMask(rows: nat, cols: nat): (m: seq<seq<real>>)
    ensures |m| == rows && forall i :: 0 <= i < rows ==> |m[i]| == cols && forall j :: 0 <= j < cols ==> m[i][j] == 0.0
  {
    seq(rows, i => seq(cols, j => 0.0))
  }

  /** The flag_results dictionary after set_output's loop has seen labels[..k]. */
  function OutputsUpTo(name: string, avail: seq<string>, rows: nat, cols: nat, labels: seq<string>, k: nat): seq<(string, AutoFlagSet)>
    requires k <= |labels|
  {
    if k == 0 then []
    else
      var d := OutputsUpTo(name, avail, rows, cols, labels, k - 1);
      var l := labels[k - 1];
      if l in avail then Put(d, l, AutoFlagSet(ZeroMask(rows, cols), name, l, None, None, None)) else d
  }

  /** set_output selects exactly the requested labels that are available, each
      with a zero mask, the algorithm's name and the label as flagresult. */
  lemma {:induction false} OutputsUpToSpec(name: string, avail: seq<string>, rows: nat, cols: nat, labels: seq<string>, k: nat, l: string)
    requires k <= |labels|
    ensures DistinctKeys(OutputsUpTo(name, avail, rows, cols, labels, k))
    ensures l in Keys(OutputsUpTo(name, avail, rows, cols, labels, k)) <==> l in labels[..k] && l in avail
    ensures l in Keys(OutputsUpTo(name, avail, rows, cols, labels, k)) ==>
      Lookup(OutputsUpTo(name, avail, rows, cols, labels, k), l) == Some(AutoFlagSet(ZeroMask(rows, cols), name, l, None, None, None))
  {
    if k > 0 {
      var d := OutputsUpTo(name, avail, rows, cols, labels, k - 1);
      OutputsUpToSpec(name, avail, rows, cols, labels, k - 1, l);
      var x := labels[k - 1];
      assert labels[..k] == labels[..k - 1] + [x];
      if x in avail {
        OutputsUpToSpec(name, avail, rows, cols, labels, k - 1, x);
        LookupPut(d, x, AutoFlagSet(ZeroMask(rows, cols), name, x, None, None, None), l);
        var r := Put(d, x, AutoFlagSet(ZeroMask(rows, cols), name, x, None, None, None));
        assert x in Keys(r) by {
          LookupPut(d, x, AutoFlagSet(ZeroMask(rows, cols), name, x, None, None, None), x);
        }
        assert l in Keys(r) <==> l in Keys(d) || l == x by {
          LookupPut(d, x, AutoFlagSet(ZeroMask(rows, cols), name, x, None, None, None), l);
        }
      }
    }
  }

  /** Number of entries of s that are among the keys. */
  function CountSel(s: seq<string>, keys: seq<string>): (n: nat)
    ensures n <= |s|
  {
    if s == [] then 0 else CountSel(s[..|s| - 1], keys) + (if s[|s| - 1] in keys then 1 else 0)
  }

  predicate Distinct(s: seq<string>)
  {
    forall a, b :: 0 <= a < b < |s| ==> s[a] != s[b]
  }

  lemma {:induction false} CountSelSet(s: seq<string>, keys: seq<string>)
    requires Distinct(s)
    ensures CountSel(s, keys) == |set x | x in s && x in keys|
  {
    if s != [] {
      var init := s[..|s| - 1];
      var last := s[|s| - 1];
      CountSelSet(init, keys);
      var a := set x | x in init && x in keys;
      var b := set x | x in s && x in keys;
      assert last !in init;
      if last in keys {
        assert b == a + {last};
      } else {
        assert b == a;
      }
    }
  }

  lemma {:induction false} DistinctCard(s: seq<string>)
    requires Distinct(s)
    ensures |set x | x in s| == |s|
  {
    if s != [] {
      var init := s[..|s| - 1];
      DistinctCard(init);
      assert (set x | x in s) == (set x | x in init) + {s[|s| - 1]};
    }
  }

  /** With distinct available labels and selected keys drawn from them, every
      key is counted once. */
  lemma CountSelKeys(avail: seq<string>, keys: seq<string>)
    requires Distinct(avail) && Distinct(keys)
    requires forall x :: x in keys ==> x in avail
    ensures CountSel(avail, keys) == |keys|
  {
    CountSelSet(avail, keys);
    DistinctCard(keys);
    assert (set x | x in avail && x in keys) == (set x | x in keys);
  }

  lemma CountSelPrefix(s: seq<string>, keys: seq<string>, j: nat)
    requires j < |s|
    ensures CountSel(s[..j + 1], keys) == CountSel(s[..j], keys) + (if s[j] in keys then 1 else 0)
  {
    assert s[..j + 1][..j] == s[..j];
  }

  lemma {:induction false} CountSelMono(s: seq<string>, keys: seq<string>, j: nat)
    requires j <= |s|
    ensures CountSel(s[..j], keys) <= CountSel(s, keys)
    decreases |s| - j
  {
    if j < |s| {
      CountSelPrefix(s, keys, j);
      CountSelMono(s, keys, j + 1);
    } else {
      assert s[..j] == s;
    }
  }

  /** SimpleThreshold's acceptance of its threshold parameter: ValueError when
      the value is not strictly inside (lower, upper); a NaN upper bound never
      rejects. A parameter that is not a tuple cannot be indexed. */
  function BoundCheck(p: Option<ParamValue>): (r: Result<real>)
    ensures r.Ok? ==> (p.Some? && p.value.PBound? && r.value == p.value.value &&
      p.value.lo < r.value && (p.value.hi.Some? ==> r.value < p.value.hi.value))
    ensures p.Some? && p.value.PBound? ==>
      (r == Err(ValueError) <==> p.value.value <= p.value.lo || (p.value.hi.Some? && p.value.value >= p.value.hi.value))
  {
    match p
    case None => Err(AttributeError)
    case Some(PBound(v, lo, hi)) =>
      if v <= lo || (hi.Some? && v >= hi.value) then Err(ValueError) else Ok(v)
    case Some(_) => Err(TypeError)
  }

  /** With the default bounds (0, NaN) only the lower bound can reject. */
  lemma DefaultBoundOnlyLower(v: real)
    ensures BoundCheck(Some(PBound(v, 0.0, None))).Err? <==> v <= 0.0
  {
  }

  /** One cell of SimpleThreshold's result: scipy's threshold with threshmin th
      (values below th become 0), then every positive value becomes 1. */
  function ThresholdCell(x: real, th: real): real
  {
    if x < th then 0.0 else if x > 0.0 then 1.0 else x
  }

  /** For a threshold k * rms >= 0 the cell is 0 or 1, and it is 1 exactly when
      the deviation from the median reaches the threshold and is positive. */
  lemma ThresholdRule(d: real, med: real, k: real, rms: real)
    requires k * rms >= 0.0
    ensures ThresholdCell(d - med, k * rms) == 1.0 || ThresholdCell(d - med, k * rms) == 0.0
    ensures ThresholdCell(d - med, k * rms) == 1.0 <==> d - med >= k * rms && d - med > 0.0
  {
  }

  /** Raising k never flags a cell that a smaller k left unflagged. */
  lemma ThresholdMonotone(d: real, med: real, k1: real, k2: real, rms: real)
    requires rms >= 0.0 && 0.0 <= k1 <= k2
    ensures ThresholdCell(d - med, k2 * rms) == 1.0 ==> ThresholdCell(d - med, k1 * rms) == 1.0
  {
    assert k1 * rms <= k2 * rms;
  }

  function ThresholdMatrix(m: seq<seq<real>>, med: real, k: real, rms: real): (r: seq<seq<real>>)
    ensures |r| == |m| && forall i :: 0 <= i < |m| ==> (|r[i]| == |m[i]| &&
      forall j :: 0 <= j < |m[i]| ==> r[i][j] == ThresholdCell(m[i][j] - med, k * rms))
  {
    seq(|m|, i requires 0 <= i < |m| => seq(|m[i]|, j requires 0 <= j < |m[i]| => ThresholdCell(m[i][j] - med, k * rms)))
  }

  /** The data matrix SimpleThreshold reads for a polarisation label. */
  function PolIndex(lbl: string): Option<nat>
  {
    if lbl == "L" then Some(0) else if lbl == "R" then Some(1)
    else if lbl == "Q" then Some(2) else if lbl == "U" then Some(3) else None
  }

  /** The FlagAlgorithm object. rows and cols are the shape of data[0], which
      set_output gives to its zero masks; maxLevel is what the wavelet library
      reports as the deepest level for the data length. */
  class Algorithm {
    const kind: Kind
    const rows: nat
    const cols: nat
    var params: Params
    var attrs: map<string, ParamValue>
    var availOutputs: seq<string>
    var defOutputs: seq<string>
    var flagResults: seq<(string, AutoFlagSet)>
    /** The ctypes structure of the libdw algorithms. */
    const dw: LibDw.DwStruct?

    ghost predicate Valid()
      reads this
    {
      DistinctKeys(params) && DistinctKeys(flagResults) && Distinct(availOutputs) &&
      (forall l :: l in Keys(flagResults) ==> l in availOutputs) &&
      (kind == SimpleThreshold ==> availOutputs == AvailOutputs(SimpleThreshold, 0)) &&
      (IsLibDw(kind) <==> dw != null)
    }

    /** FlagAlgorithm.__init__: params is a copy of the class defaults updated
        with kwargs (FullDwt's level 0 replaced by maxLevel), the attributes
        mirror it, and the default outputs that are available are selected.
        For the libdw algorithms set_output has already handed the index maps
        to a zero-filled structure when init_dw records the data buffer and
        its shape. */
    constructor (k: Kind, r: nat, c: nat, kwargs: Params, maxLevel: nat, buf: array<real>)
      requires k != LibDwBase
      requires k == FullDwt ==> forall q :: 0 <= q < |kwargs| && kwargs[q].0 == "level" ==> kwargs[q].1.PInt?
      ensures Valid() && kind == k && rows == r && cols == c
      ensures params == InitParams(k, kwargs, maxLevel) && attrs == AsMap(params)
      ensures availOutputs == AvailOutputs(k, LevelOf(UpdateAll(DefParams(k), kwargs), maxLevel))
      ensures defOutputs == DefOutputs(k, LevelOf(UpdateAll(DefParams(k), kwargs), maxLevel))
      ensures flagResults == OutputsUpTo(Name(k), availOutputs, r, c, defOutputs, |defOutputs|)
      ensures IsLibDw(k) ==> fresh(dw) && dw.lFlag == |flagResults| && dw.lFlagProd == |availOutputs|
      ensures IsLibDw(k) ==> dw.data == buf && dw.rows == r && dw.cols == c
    {
      kind := k;
      rows := r;
      cols := c;
      var level := LevelOf(UpdateAll(DefParams(k), kwargs), maxLevel);
      var p := InitParams(k, kwargs, maxLevel);
      InitParamsDistinct(k, kwargs, maxLevel);
      var avail, def, fr := InitOutputs(k, level, r, c);
      params := p;
      attrs := AsMap(p);
      availOutputs := avail;
      defOutputs := def;
      flagResults := fr;
      var s: LibDw.DwStruct? := null;
      if IsLibDw(k) {
        s := new LibDw.DwStruct();
      }
      dw := s;
      new;
      assert Valid();
      if IsLibDw(k) {
        StoreIndexMaps();
        var status := dw.InitDw(buf, r, c);
      }
    }

    /** _define_output and the set_output(None) of __init__, on values. */
    static method InitOutputs(k: Kind, level: int, r: nat, c: nat)
      returns (avail: seq<string>, def: seq<string>, fr: seq<(string, AutoFlagSet)>)
      ensures avail == AvailOutputs(k, level) && def == DefOutputs(k, level)
      ensures fr == OutputsUpTo(Name(k), avail, r, c, def, |def|)
      ensures Distinct(avail) && DistinctKeys(fr) && forall l :: l in Keys(fr) ==> l in avail
      ensures k == SimpleThreshold ==> avail == AvailOutputs(SimpleThreshold, 0)
    {
      avail, def := AvailOutputs(k, level), DefOutputs(k, level);
      fr := OutputsUpTo(Name(k), avail, r, c, def, |def|);
      AvailDistinct(k, level);
      OutputsSelected(Name(k), avail, r, c, def);
    }

    /** FullDwt's level after _autoset_params: a level of 0 becomes maxLevel. */
    static function LevelOf(p: Params, maxLevel: nat): int
    {
      var v := Lookup(p, "level");
      if v.Some? && v.value.PInt? then (if v.value.i == 0 then maxLevel else v.value.i) else 0
    }

    /** The parameter dictionary __init__ leaves behind. */
    static function InitParams(k: Kind, kwargs: Params, maxLevel: nat): Params
    {
      var p := UpdateAll(DefParams(k), kwargs);
      if k == FullDwt && Lookup(p, "level") == Some(PInt(0)) then Put(p, "level", PInt(maxLevel)) else p
    }

    static lemma InitParamsDistinct(k: Kind, kwargs: Params, maxLevel: nat)
      ensures DistinctKeys(InitParams(k, kwargs, maxLevel))
    {
      InitParamsSpec(k, kwargs, maxLevel, "");
    }

    /** Each key of the initial parameters holds its kwargs value if given and
        its class default otherwise, except that FullDwt's level 0 is the
        deepest level. No value is checked. */
    static lemma InitParamsSpec(k: Kind, kwargs: Params, maxLevel: nat, key: string)
      ensures DistinctKeys(InitParams(k, kwargs, maxLevel))
      ensures Lookup(InitParams(k, kwargs, maxLevel), key) ==
        if k == FullDwt && key == "level" && Lookup(UpdateAll(DefParams(k), kwargs), "level") == Some(PInt(0))
        then Some(PInt(maxLevel))
        else if key in Keys(kwargs) then Lookup(kwargs, key) else Lookup(DefParams(k), key)
    {
      var p := UpdateAll(DefParams(k), kwargs);
      UpdateAllSpec(DefParams(k), kwargs, key);
      if k == FullDwt && Lookup(p, "level") == Some(PInt(0)) {
        LookupPut(p, "level", PInt(maxLevel), key);
      }
    }

    /** upd_params_values(**kv): the given keys are overwritten, the attributes
        follow, nothing is checked. */
    method UpdParamsValues(kv: Params)
      requires Valid()
      modifies this
      ensures Valid()
      ensures params == UpdateAll(old(params), kv) && attrs == old(attrs) + AsMap(params)
      ensures availOutputs == old(availOutputs) && defOutputs == old(defOutputs) && flagResults == old(flagResults)
      ensures forall key :: Lookup(params, key) == if key in Keys(kv) then Lookup(kv, key) else Lookup(old(params), key)
    {
      UpdateAllSpec(params, kv, "");
      forall key ensures Lookup(UpdateAll(params, kv), key) == if key in Keys(kv) then Lookup(kv, key) else Lookup(params, key) {
        UpdateAllSpec(params, kv, key);
      }
      params := UpdateAll(params, kv);
      attrs := attrs + AsMap(params);
    }

    /** upd_param_value(param, value): one key overwritten. */
    method UpdParamValue(param: string, value: ParamValue)
      requires Valid()
      modifies this
      ensures Valid()
      ensures params == Put(old(params), param, value) && attrs == old(attrs) + AsMap(params)
      ensures availOutputs == old(availOutputs) && defOutputs == old(defOutputs) && flagResults == old(flagResults)
      ensures forall key :: Lookup(params, key) == if key == param then Some(value) else Lookup(old(params), key)
    {
      LookupPut(params, param, value, "");
      forall key ensures Lookup(Put(params, param, value), key) == if key == param then Some(value) else Lookup(params, key) {
        LookupPut(params, param, value, key);
      }
      params := Put(params, param, value);
      attrs := attrs + AsMap(params);
    }

    predicate IsOutSelected(lbl: string)
      reads this
    {
      lbl in Keys(flagResults)
    }

    predicate IsOutAvail(lbl: string)
      reads this
    {
      lbl in availOutputs
    }

    predicate IsOutDefault(lbl: string)
      reads this
    {
      lbl in defOutputs
    }

    /** set_output(labels): None means the defaults; only available labels are
        kept; FlagLibDw then hands the index maps to libdw. */
    method SetOutput(labels: Option<seq<string>>)
      requires Valid()
      modifies this, dw
      ensures Valid()
      ensures var ls := if labels.Some? then labels.value else defOutputs;
        flagResults == OutputsUpTo(Name(kind), availOutputs, rows, cols, ls, |ls|)
      ensures forall l :: IsOutSelected(l) <==> IsOutAvail(l) && l in (if labels.Some? then labels.value else defOutputs)
      ensures params == old(params) && attrs == old(attrs) && availOutputs == old(availOutputs) && defOutputs == old(defOutputs)
      ensures IsLibDw(kind) ==> dw.lFlag == |flagResults| && dw.lFlagProd == |availOutputs|
      ensures IsLibDw(kind) ==> dw.SlotsAllocated() && forall i :: 0 <= i < dw.lFlag ==> OutMatrix(dw.flagData[i], rows * cols)
      ensures IsLibDw(kind) ==> dw.flagProduct != null && dw.flagDataInd != null
      ensures IsLibDw(kind) ==> dw.flagProduct.Length == |availOutputs| && dw.flagDataInd.Length == |flagResults|
      ensures IsLibDw(kind) ==>
        forall j :: 0 <= j < |availOutputs| ==> dw.flagProduct[j] == Rank(availOutputs, Keys(flagResults), j)
      ensures IsLibDw(kind) ==> IndexMapsInverse(dw.flagProduct[..], dw.flagDataInd[..])
    {
      var ls := if labels.Some? then labels.value else defOutputs;
      var d := SelectOutputs(Name(kind), availOutputs, rows, cols, ls);
      OutputsSelected(Name(kind), availOutputs, rows, cols, ls);
      flagResults := d;
      if IsLibDw(kind) {
        StoreIndexMaps();
      }
    }

    /** The loop of set_output: each available label, in order, gets a zero mask. */
    static method SelectOutputs(name: string, avail: seq<string>, r: nat, c: nat, ls: seq<string>)
      returns (d: seq<(string, AutoFlagSet)>)
      ensures d == OutputsUpTo(name, avail, r, c, ls, |ls|)
    {
      d := [];
      var k := 0;
      while k < |ls|
        invariant 0 <= k <= |ls|
        invariant d == OutputsUpTo(name, avail, r, c, ls, k)
      {
        var l := ls[k];
        if l in avail {
          d := Put(d, l, AutoFlagSet(ZeroMask(r, c), name, l, None, None, None));
        }
        k := k + 1;
      }
    }

    /** The rest of FlagLibDw.set_output: libdw gets one slot per selected
        output, each pointing at a zero-filled rows * cols byte matrix, and
        the two index maps between available and selected outputs. */
    method StoreIndexMaps()
      requires Valid() && dw != null
      modifies dw
      ensures dw.lFlag == |flagResults| && dw.lFlagProd == |availOutputs|
      ensures dw.SlotsAllocated() && fresh(dw.flagData)
      ensures forall i :: 0 <= i < dw.lFlag ==> OutMatrix(dw.flagData[i], rows * cols)
      ensures dw.flagProduct != null && dw.flagDataInd != null
      ensures dw.flagProduct.Length == |availOutputs| && dw.flagDataInd.Length == |flagResults|
      ensures forall j :: 0 <= j < |availOutputs| ==>
        dw.flagProduct[j] == Rank(availOutputs, Keys(flagResults), j)
      ensures IndexMapsInverse(dw.flagProduct[..], dw.flagDataInd[..])
      ensures dw.data == old(dw.data) && dw.rows == old(dw.rows) && dw.cols == old(dw.cols)
    {
      var keys := Keys(flagResults);
      var fp, fdi := RankMaps(availOutputs, keys);
      var status := dw.AllocFlagOut(|keys|);
      AttachMasks(dw, rows * cols);
      status := dw.SetFlagProd(fp, |availOutputs|, fdi);
      assert dw.flagProduct[..] == fp[..] && dw.flagDataInd[..] == fdi[..];
    }

    /** The threshold parameter as the attribute lookup finds it. */
    function ThresholdParam(): Option<ParamValue>
      reads this
    {
      if "num_of_rms_above_median" in attrs then Some(attrs["num_of_rms_above_median"]) else None
    }

    /** compute of SimpleThreshold, given med[p] and rms[p], the median of the
        values above 10 in data[p] and the RMS of those values about it. The bound check comes first and raises before any
        output is touched; then every selected output, in order, gets its
        polarisation and the thresholded matrix of that polarisation. */
    method ComputeThreshold(data: seq<seq<seq<real>>>, med: seq<real>, rms: seq<real>)
      returns (r: Result<seq<(string, AutoFlagSet)>>)
      requires Valid() && kind == SimpleThreshold
      requires |med| == |data| && |rms| == |data|
      modifies this
      ensures Valid()
      ensures BoundCheck(old(ThresholdParam())).Err? ==>
        r == Err(BoundCheck(old(ThresholdParam())).error) && flagResults == old(flagResults)
      ensures r.Ok? <==> BoundCheck(old(ThresholdParam())).Ok? && forall q :: 0 <= q < |old(flagResults)| ==> PolIndex(old(flagResults)[q].0).Some? && PolIndex(old(flagResults)[q].0).value < |data|
      ensures r.Ok? ==> (r.value == flagResults && |flagResults| == |old(flagResults)| &&
        forall q :: 0 <= q < |flagResults| ==>
          flagResults[q] == Thresholded(old(flagResults)[q], data, med, rms, BoundCheck(old(ThresholdParam())).value))
      ensures Keys(flagResults) == Keys(old(flagResults))
      ensures params == old(params) && attrs == old(attrs) && availOutputs == old(availOutputs) && defOutputs == old(defOutputs)
    {
      var chk := BoundCheck(ThresholdParam());
      if chk.Err? {
        return Err(chk.error);
      }
      var fr0 := flagResults;
      var fr := fr0;
      var k := 0;
      while k < |fr0|
        invariant 0 <= k <= |fr0| && |fr| == |fr0| && Keys(fr) == Keys(fr0)
        invariant forall q :: 0 <= q < k ==> PolIndex(fr0[q].0).Some? && PolIndex(fr0[q].0).value < |data|
        invariant forall q :: 0 <= q < k ==> fr[q] == Thresholded(fr0[q], data, med, rms, chk.value)
        invariant forall q :: k <= q < |fr0| ==> fr[q] == fr0[q]
      {
        var lab := fr0[k].0;
        assert lab in Keys(fr0);
        var idx := PolIndex(lab).value;
        if idx >= |data| {
          flagResults := fr;
          return Err(IndexError);
        }
        fr := fr[k := Thresholded(fr0[k], data, med, rms, chk.value)];
        k := k + 1;
      }
      flagResults := fr;
      return Ok(fr);
    }
  }

  /** One selected output after SimpleThreshold's compute. */
  function Thresholded(e: (string, AutoFlagSet), data: seq<seq<seq<real>>>, med: seq<real>, rms: seq<real>, k: real): (string, AutoFlagSet)
    requires PolIndex(e.0).Some? && PolIndex(e.0).value < |data| && |med| == |data| && |rms| == |data|
  {
    var lab := e.0;
    var p := PolIndex(lab).value;
    (lab, e.1.(flagData := ThresholdMatrix(data[p], med[p], k, rms[p]), pola := Some(lab)))
  }

  /** set_output selects exactly the requested labels that are available. */
  lemma OutputsSelected(name: string, avail: seq<string>, rows: nat, cols: nat, labels: seq<string>)
    ensures DistinctKeys(OutputsUpTo(name, avail, rows, cols, labels, |labels|))
    ensures forall l :: l in Keys(OutputsUpTo(name, avail, rows, cols, labels, |labels|)) <==> l in labels && l in avail
  {
    OutputsUpToSpec(name, avail, rows, cols, labels, |labels|, "");
    assert labels[..|labels|] == labels;
    forall l ensures l in Keys(OutputsUpTo(name, avail, rows, cols, labels, |labels|)) <==> l in labels && l in avail {
      OutputsUpToSpec(name, avail, rows, cols, labels, |labels|, l);
    }
  }

  /** A zero-filled flag matrix of the given number of bytes. */
  ghost predicate OutMatrix(m: array?<bv8>, size: nat)
    reads m
  {
    m != null && m.Length == size && forall j :: 0 <= j < size ==> m[j] == 0
  }

  /** The rank loop of FlagLibDw.set_output: position j of flag_product gets
      the rank of label j among the selected ones, or -1, and flag_data_ind
      maps each rank back to its position. */
  method RankMaps(avail: seq<string>, keys: seq<string>) returns (fp: array<int>, fdi: array<int>)
    requires Distinct(avail) && Distinct(keys) && forall x :: x in keys ==> x in avail
    ensures fresh(fp) && fresh(fdi) && fp.Length == |avail| && fdi.Length == |keys|
    ensures forall j :: 0 <= j < |avail| ==> fp[j] == Rank(avail, keys, j)
    ensures IndexMapsInverse(fp[..], fdi[..])
  {
    fp := new int[|avail|];
    fdi := new int[|keys|];
    CountSelKeys(avail, keys);
    var ii, jj := 0, 0;
    while jj < |avail|
      invariant 0 <= jj <= |avail|
      invariant ii == CountSel(avail[..jj], keys) && ii <= |keys|
      invariant forall q :: 0 <= q < jj ==> fp[q] == Rank(avail, keys, q)
      invariant forall i :: 0 <= i < ii ==> 0 <= fdi[i] < jj && Rank(avail, keys, fdi[i]) == i
    {
      RankStep(avail, keys, jj);
      fp[jj] := -1;
      if avail[jj] in keys {
        fp[jj] := ii;
        fdi[ii] := jj;
        ii := ii + 1;
      }
      jj := jj + 1;
    }
    assert avail[..jj] == avail;
    IndexMapsAreInverse(avail, keys, fp[..], fdi[..]);
  }

  /** The rank of position j among the selected positions, or -1. */
  function Rank(avail: seq<string>, keys: seq<string>, j: nat): int
    requires j < |avail|
  {
    if avail[j] in keys then CountSel(avail[..j], keys) else -1
  }

  /** One step of the rank loop. */
  lemma RankStep(avail: seq<string>, keys: seq<string>, j: nat)
    requires j < |avail|
    ensures CountSel(avail[..j + 1], keys) == CountSel(avail[..j], keys) + (if avail[j] in keys then 1 else 0)
    ensures CountSel(avail[..j + 1], keys) <= CountSel(avail, keys)
    ensures Rank(avail, keys, j) == if avail[j] in keys then CountSel(avail[..j], keys) else -1
  {
    CountSelPrefix(avail, keys, j);
    CountSelMono(avail, keys, j + 1);
  }

  /** The dw_set_flag_out calls of FlagLibDw.set_output: slot i gets a fresh
      zero-filled matrix for every i < l_flag. */
  method AttachMasks(s: LibDw.DwStruct, size: nat)
    requires s.SlotsAllocated()
    modifies s.flagData
    ensures forall i :: 0 <= i < s.lFlag ==> OutMatrix(s.flagData[i], size) && fresh(s.flagData[i])
  {
    var ii := 0;
    while ii < s.lFlag
      invariant 0 <= ii <= s.lFlag
      invariant forall i :: 0 <= i < ii ==> OutMatrix(s.flagData[i], size) && fresh(s.flagData[i])
    {
      var m := new bv8[size](_ => 0);
      var status := s.SetFlagOut(m, ii);
      ii := ii + 1;
    }
  }

  /** The number of cells of an array of the given shape. */
  function Product(shape: seq<nat>): nat
  {
    if shape == [] then 1 else shape[0] * Product(shape[1..])
  }

  /** The shape FlagAlgorithm.set_output gives every output mask: that of
      data[0]. For the 2-D data matrix of a libdw algorithm this drops the
      row dimension. */
  function MaskShapeAsWritten(dataShape: seq<nat>): (s: seq<nat>)
    requires |dataShape| >= 1
    ensures |s| == |dataShape| - 1
  {
    dataShape[1..]
  }

  /** For a libdw algorithm on a rows x cols matrix with two rows or more the
      Python mask holds fewer bytes than the rows * cols that dw_single_channel
      and dw_even_odd address through the buffer address they are handed. */
  lemma LibDwMaskTooSmall(rows: nat, cols: nat)
    requires rows >= 2 && cols >= 1
    ensures Product(MaskShapeAsWritten([rows, cols])) == cols < rows * cols
  {
    assert [rows, cols][1..] == [cols];
    assert Product([cols]) == cols * Product([]);
    assert rows * cols >= 2 * cols;
  }

  /** The two index maps of FlagLibDw are mutually inverse: a non-negative rank
      in flag_product points to a flag_data_ind entry that points back, and
      every flag_data_ind entry is a position whose rank is its index. */
  ghost predicate IndexMapsInverse(fp: seq<int>, fdi: seq<int>)
  {
    (forall j :: 0 <= j < |fp| && fp[j] != -1 ==> 0 <= fp[j] < |fdi| && fdi[fp[j]] == j) &&
    (forall i :: 0 <= i < |fdi| ==> 0 <= fdi[i] < |fp| && fp[fdi[i]] == i) &&
    (forall j :: 0 <= j < |fp| ==> fp[j] >= -1)
  }

  lemma IndexMapsAreInverse(avail: seq<string>, keys: seq<string>, fp: seq<int>, fdi: seq<int>)
    requires |fp| == |avail| && |fdi| == CountSel(avail, keys)
    requires forall q :: 0 <= q < |avail| ==> fp[q] == Rank(avail, keys, q)
    requires forall i :: 0 <= i < |fdi| ==> 0 <= fdi[i] < |avail| && Rank(avail, keys, fdi[i]) == i
    ensures IndexMapsInverse(fp, fdi)
  {
    forall j | 0 <= j < |fp| && fp[j] != -1
      ensures 0 <= fp[j] < |fdi| && fdi[fp[j]] == j
    {
      RankStep(avail, keys, j);
      var q := fdi[fp[j]];
      assert avail[q] in keys by {
        assert Rank(avail, keys, q) == fp[j] >= 0;
      }
      RankInjective(avail, keys, j, q);
    }
  }

  /** Two selected positions with the same rank are the same position. */
  lemma RankInjective(avail: seq<string>, keys: seq<string>, a: nat, b: nat)
    requires a < |avail| && b < |avail| && avail[a] in keys && avail[b] in keys
    requires CountSel(avail[..a], keys) == CountSel(avail[..b], keys)
    ensures a == b
  {
    RankStrict(avail, keys, a, b);
    RankStrict(avail, keys, b, a);
  }

  /** A selected position has a smaller rank than every later position. */
  lemma RankStrict(s: seq<string>, keys: seq<string>, a: nat, b: nat)
    requires a < |s| && b < |s|
    ensures a < b && s[a] in keys ==> CountSel(s[..a], keys) < CountSel(s[..b], keys)
  {
    if a < b {
      CountSelPrefix(s, keys, a);
      CountSelBetween(s, keys, a + 1, b);
    }
  }

  lemma {:induction false} CountSelBetween(s: seq<string>, keys: seq<string>, i: nat, j: nat)
    requires i <= j <= |s|
    ensures CountSel(s[..i], keys) <= CountSel(s[..j], keys)
    decreases j - i
  {
    if i < j {
      CountSelPrefix(s, keys, j - 1);
      CountSelBetween(s, keys, i, j - 1);
    }
  }
}
