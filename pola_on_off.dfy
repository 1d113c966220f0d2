/** scripts/pola_on_off.py: the on/off/cal files of a polarisation run, each
    classified by its filename and given the rows of the observation that fall
    inside its time window; the pairwise on - off differences of a range of
    them; and the rows of every file in one state, concatenated. */
module PolaOnOff {
  import opened Base

  /** CLOCK: the length of one subtime tick, in seconds. */
  const CLOCK: real := 1.0 / 200000000.0

  /** DATA_KEYS, in order; a Columns value holds one array per key. */
  const DATA_KEYS: seq<string> := ["channels_l", "channels_r", "stokes_q", "stokes_u", "integration_l"]

  // ---------------------------------------------------------------- str.find

  /** sub occurs in s at position i. */
  predicate MatchAt(sub: string, s: string, i: int)
  {
    0 <= i && i + |sub| <= |s| && s[i..i + |sub|] == sub
  }

  /** sub occurs in s as a contiguous piece. */
  predicate Occurs(sub: string, s: string)
  {
    exists i :: 0 <= i <= |s| && MatchAt(sub, s, i)
  }

  /** A match in s after its first character is a match in s[1..]. */
  lemma ShiftMatch(sub: string, s: string, i: int)
    requires s != [] && i >= 0
    ensures MatchAt(sub, s, i + 1) <==> MatchAt(sub, s[1..], i)
  {
    if i + 1 + |sub| <= |s| {
      assert s[1..][i..i + |sub|] == s[i + 1..i + 1 + |sub|];
    }
  }

  /** s.find(sub): the first position of sub in s, or -1 when there is none. */
  function Find(s: string, sub: string): (r: int)
    ensures r >= -1
    ensures r == -1 <==> !Occurs(sub, s)
    ensures r >= 0 ==> MatchAt(sub, s, r) && forall j :: 0 <= j < r ==> !MatchAt(sub, s, j)
    decreases |s|
  {
    if |s| < |sub| then -1
    else if s[..|sub|] == sub then
      assert MatchAt(sub, s, 0);
      0
    else
      var f := Find(s[1..], sub);
      assert forall i :: 0 <= i ==> (MatchAt(sub, s, i + 1) <==> MatchAt(sub, s[1..], i)) by {
        forall i | 0 <= i
          ensures MatchAt(sub, s, i + 1) <==> MatchAt(sub, s[1..], i)
        {
          ShiftMatch(sub, s, i);
        }
      }
      assert !MatchAt(sub, s, 0);
      if f == -1 then
        assert forall i :: !MatchAt(sub, s, i) by {
          forall i
            ensures !MatchAt(sub, s, i)
          {
            if i > 0 {
              assert !MatchAt(sub, s[1..], i - 1);
            }
          }
        }
        -1
      else
        assert forall j :: 0 < j < f + 1 ==> !MatchAt(sub, s, j) by {
          forall j | 0 < j < f + 1
            ensures !MatchAt(sub, s, j)
          {
            assert !MatchAt(sub, s[1..], j - 1);
          }
        }
        f + 1
  }

  // ---------------------------------------------------------------- OnOff

  datatype State = On | Off | Cal

  /** The state a filename gives: 'cal' if it mentions cal, otherwise 'off'
      if it mentions off, otherwise 'on' if it mentions on, otherwise none. */
  function Classify(filename: string): Option<State>
  {
    if Occurs("cal", filename) then Some(Cal)
    else if Occurs("off", filename) then Some(Off)
    else if Occurs("on", filename) then Some(On)
    else None
  }

  /** The value of one observation row under a key: one number, as a
      scalar column such as Int32Col stores it, or a vector of numbers, as a
      column such as Float32Col(32) stores it. */
  datatype Sample = Scalar(x: real) | Vector(xs: seq<real>)

  /** The list np_array is given: one value per selected observation row. */
  type Rows = seq<Sample>

  /** The five arrays of an entry, in DATA_KEYS order. */
  datatype Columns = Columns(channelsL: Rows, channelsR: Rows, stokesQ: Rows, stokesU: Rows, integrationL: Rows)

  /** The array of key k of DATA_KEYS. */
  function Col(c: Columns, k: nat): Rows
    requires k < |DATA_KEYS|
  {
    if k == 0 then c.channelsL else if k == 1 then c.channelsR else if k == 2 then c.stokesQ
    else if k == 3 then c.stokesU else c.integrationL
  }

  /** One row of the observation: its time, its subtime in CLOCK ticks, and
      its value under each key. The channel and Stokes columns hold one value
      per channel; integration_l is one number per row in DW data (an
      Int32Col), and is allowed to be either here. */
  datatype Record = Record(time: int, subtime: int, channelsL: seq<real>, channelsR: seq<real>,
                           stokesQ: seq<real>, stokesU: seq<real>, integrationL: Sample)

  /** The value of a row under key k of DATA_KEYS. */
  function Value(x: Record, k: nat): Sample
    requires k < |DATA_KEYS|
  {
    if k == 0 then Vector(x.channelsL) else if k == 1 then Vector(x.channelsR)
    else if k == 2 then Vector(x.stokesQ) else if k == 3 then Vector(x.stokesU) else x.integrationL
  }

  /** The instant of a row, in seconds. */
  function Stamp(x: Record): real
  {
    x.time as real + x.subtime as real * CLOCK
  }

  /** The rows strictly inside (t0, tf). */
  function InWindow(dataset: seq<Record>, t0: real, tf: real): (w: seq<Record>)
    ensures forall x :: x in w <==> x in dataset && t0 < Stamp(x) < tf
  {
    var keep := (x: Record) => t0 < Stamp(x) < tf;
    assert forall x :: x in Filter(dataset, keep) <==> x in dataset && keep(x) by {
      forall x
        ensures x in Filter(dataset, keep) <==> x in dataset && keep(x)
      {
        FilterMembers(dataset, keep, x);
      }
    }
    Filter(dataset, keep)
  }

  /** The column of key k over some rows. */
  function Column(w: seq<Record>, k: nat): (rows: Rows)
    requires k < |DATA_KEYS|
    ensures |rows| == |w| && forall i :: 0 <= i < |w| ==> rows[i] == Value(w[i], k)
  {
    seq(|w|, i requires 0 <= i < |w| => Value(w[i], k))
  }

  /** The five arrays get_pola_data builds for the window (t0, tf). */
  function WindowColumns(dataset: seq<Record>, t0: real, tf: real): (c: Columns)
    ensures forall k :: 0 <= k < |DATA_KEYS| ==> Col(c, k) == Column(InWindow(dataset, t0, tf), k)
  {
    var w := InWindow(dataset, t0, tf);
    Columns(Column(w, 0), Column(w, 1), Column(w, 2), Column(w, 3), Column(w, 4))
  }

  /** The window (t0, tf) holds a row of the dataset. */
  predicate Keeps(dataset: seq<Record>, t0: real, tf: real)
  {
    InWindow(dataset, t0, tf) != []
  }

  /** One file of the run: its name, the state its name gives, its first and
      last times (read from the file), and its arrays once get_pola_data has
      filled them. */
  class OnOff {
    const filename: string
    const state: Option<State>
    const tStart: real
    const tStop: real
    var data: Option<Columns>

    /** OnOff.__init__: each mention in the filename overrides the earlier
        ones, in the order on, off, cal. */
    constructor (filename: string, tStart: real, tStop: real)
      ensures this.filename == filename && state == Classify(filename)
      ensures this.tStart == tStart && this.tStop == tStop && data.None?
    {
      var st: Option<State> := None;
      if Find(filename, "on") > -1 {
        st := Some(On);
      }
      if Find(filename, "off") > -1 {
        st := Some(Off);
      }
      if Find(filename, "cal") > -1 {
        st := Some(Cal);
      }
      this.filename := filename;
      state := st;
      this.tStart := tStart;
      this.tStop := tStop;
      data := None;
    }

    /** The file holds the arrays of the dataset rows inside its window. */
    ghost predicate Filled(dataset: seq<Record>)
      reads this
    {
      data == Some(WindowColumns(dataset, tStart, tStop))
    }

    /** The inner loop of get_pola_data for this file: its arrays over the
        rows inside its window, and whether the first of them is empty. */
    method Fill(dataset: seq<Record>) returns (empty: bool)
      modifies this
      ensures Filled(dataset)
      ensures empty <==> !Keeps(dataset, tStart, tStop)
    {
      var c := WindowColumns(dataset, tStart, tStop);
      data := Some(c);
      empty := |c.channelsL| == 0;
    }
  }

  // ---------------------------------------------------------------- snapshots

  /** What diff_on_off and append read of one file. */
  datatype Entry = Entry(state: Option<State>, data: Option<Columns>)

  /** The set of keys in a key list. */
  function Elems(s: seq<string>): set<string>
  {
    if s == [] then {} else {s[0]} + Elems(s[1..])
  }

  /** No key occurs twice. */
  predicate Distinct(s: seq<string>)
  {
    s == [] || (s[0] !in Elems(s[1..]) && Distinct(s[1..]))
  }

  /** `keys` with `key` removed. */
  function Without(keys: seq<string>, key: string): (r: seq<string>)
    ensures |r| <= |keys|
  {
    if keys == [] then []
    else (if keys[0] == key then [] else [keys[0]]) + Without(keys[1..], key)
  }

  /** The keys left after get_pola_data with clean: those whose window holds
      a row. */
  function Kept(keys: seq<string>, entries: map<string, OnOff>, dataset: seq<Record>): (r: seq<string>)
    ensures |r| <= |keys|
  {
    if keys == [] then []
    else
      var k := keys[0];
      (if k in entries && Keeps(dataset, entries[k].tStart, entries[k].tStop) then [k] else [])
        + Kept(keys[1..], entries, dataset)
  }

  /** The OrderedDict of files, keyed by their name stem, in insertion order. */
  class OnOffDict {
    var keys: seq<string>
    var entries: map<string, OnOff>

    /** The key order lists each key of the dict exactly once. */
    ghost predicate Valid()
      reads this
    {
      DictValid(keys, entries)
    }

    constructor ()
      ensures Valid() && keys == [] && entries == map[]
    {
      keys := [];
      entries := map[];
    }

    /** d[key] = o: a new key goes last, a present key keeps its place. */
    method Put(key: string, o: OnOff)
      requires Valid()
      modifies this
      ensures Valid() && entries == old(entries)[key := o]
      ensures keys == if key in old(entries) then old(keys) else old(keys) + [key]
    {
      if key !in entries {
        ElemsAppend(keys, [key]);
        DistinctAppend(keys, [key]);
        assert Elems([key]) == {key} by {
          assert [key][1..] == [];
        }
        keys := keys + [key];
      }
      entries := entries[key := o];
    }

    /** The files in key order, as diff_on_off and append read them. */
    ghost function Snapshot(): (es: seq<Entry>)
      requires Valid()
      reads this, entries.Values
      ensures |es| == |keys|
    {
      EntriesOf(keys, entries)
    }

    /** get_pola_data: every file gets the dataset rows strictly inside its
        time window, key by key; with clean, a file whose window holds no
        row is dropped from the dict. The keys are visited in the order they
        had on entry. */
    method GetPolaData(dataset: seq<Record>, clean: bool)
      requires Valid()
      modifies this, entries.Values
      ensures Valid()
      ensures keys == if clean then Kept(old(keys), old(entries), dataset) else old(keys)
      ensures forall k :: k in entries ==> k in old(entries) && entries[k] == old(entries)[k]
      ensures forall k :: k in old(entries) ==> old(entries)[k].Filled(dataset)
    {
      var ks := keys;
      var es := entries;
      var curKeys, curEntries := keys, entries;
      ghost var done: seq<string> := [];
      assert forall j :: 0 <= j < |ks| ==> ks[j] in es by {
        forall j | 0 <= j < |ks|
          ensures ks[j] in es
        {
          ElemsIndex(ks, j);
        }
      }
      var i := 0;
      while i < |ks|
        invariant 0 <= i <= |ks| && Round(ks, es, i, curKeys, curEntries, done, dataset, clean)
        invariant Visited(ks, es, i, dataset)
      {
        curKeys, curEntries, done := VisitKey(ks, es, i, curKeys, curEntries, done, dataset, clean);
        i := i + 1;
      }
      assert ks[..i] == ks;
      keys, entries := curKeys, curEntries;
      forall k | k in es
        ensures es[k].Filled(dataset)
      {
        var j := ElemsIndexOf(ks, k);
      }
    }

    /** on_off[on_off.keys()[ii]], a negative ii counting from the end. */
    method At(ii: int) returns (r: Result<Entry>)
      requires Valid()
      ensures r == PyIndex(Snapshot(), ii)
    {
      var k := PyIndex(keys, ii);
      if k.Err? {
        return Err(IndexError);
      }
      var idx := if ii >= 0 then ii else |keys| + ii;
      assert keys[idx] == k.value;
      EntriesAt(keys, entries, idx);
      var o := entries[k.value];
      r := Ok(Entry(o.state, o.data));
    }

    /** diff_on_off up to its median: the per-key lists of on - off
        differences. */
    method DiffOnOff(iStart: int, iStop: int) returns (r: Result<seq<seq<Mat>>>)
      requires Valid()
      ensures r == DiffSpec(Snapshot(), iStart, iStop)
    {
      var s := Normalize(iStart, |keys|);
      var t := Normalize(iStop, |keys|);
      var counts := CountRows(s, t);
      if counts.Err? {
        return Err(counts.error);
      }
      if counts.value == [] {
        return Err(ValueError);
      }
      var n := MinOf(counts.value);
      r := PairDiffs(s, t, n);
    }

    /** The first loop of diff_on_off: the rows of channels_l of every file
        in [s, t). */
    method CountRows(s: int, t: int) returns (r: Result<seq<nat>>)
      requires Valid()
      ensures r == CountsUpTo(Snapshot(), s, if t > s then t - s else 0)
    {
      ghost var es := Snapshot();
      var counts: seq<nat> := [];
      var ii := s;
      while ii < t
        invariant s <= ii && (s < t ==> ii <= t) && (t <= s ==> ii == s)
        invariant CountsUpTo(es, s, ii - s) == Ok(counts)
      {
        var e := At(ii);
        if e.Err? || e.value.data.None? {
          CountsErrStays(es, s, ii - s + 1, t - s);
          return Err(if e.Err? then IndexError else AttributeError);
        }
        counts := counts + [|e.value.data.value.channelsL|];
        ii := ii + 1;
      }
      r := Ok(counts);
    }

    /** The second loop of diff_on_off: pair by pair from s. */
    method PairDiffs(s: int, t: int, n: nat) returns (r: Result<seq<seq<Mat>>>)
      requires Valid()
      ensures r == Diffs(PairFn(Snapshot(), s, n), NPairs(s, t), 0)
    {
      ghost var pair := PairFn(Snapshot(), s, n);
      var diffs: seq<seq<Mat>> := [[], [], [], [], []];
      var ii := s;
      var p: nat := 0;
      while ii < t
        invariant ii == s + 2 * p && p <= NPairs(s, t)
        invariant Diffs(pair, p, 0) == Ok(diffs)
      {
        NPairsBounds(s, t, p);
        var next := PairStep(ii, n, p, diffs, s);
        if next.Err? {
          DiffsErrStays(pair, p, 5, NPairs(s, t));
          return next;
        }
        diffs := next.value;
        p := p + 1;
        ii := ii + 2;
      }
      NPairsBounds(s, t, p);
      r := Ok(diffs);
    }

    /** One iteration of that loop: pair p, the files ii and ii + 1. */
    method PairStep(ii: int, n: nat, ghost p: nat, diffs: seq<seq<Mat>>, ghost s: int)
      returns (r: Result<seq<seq<Mat>>>)
      requires Valid() && ii == s + 2 * p
      requires Diffs(PairFn(Snapshot(), s, n), p, 0) == Ok(diffs)
      ensures r == Diffs(PairFn(Snapshot(), s, n), p, 5)
    {
      var a := At(ii);
      var b := At(ii + 1);
      PairFnRound(Snapshot(), s, n, p, a, b);
      r := PairRound(a, b, PairFn(Snapshot(), s, n), p, n, diffs);
    }

    /** append: for each key, the arrays of the files in the given state,
        in key order, joined along the rows. */
    method Append(state: Option<State>) returns (r: Result<seq<Array>>)
      requires Valid()
      ensures r == AppendSpec(Snapshot(), state)
    {
      var outd := Gather(state);
      r := JoinAll(outd, Snapshot(), state);
    }

    /** The first loop of append: outd[dkey] over all the files. */
    method Gather(state: Option<State>) returns (outd: seq<seq<Option<Rows>>>)
      requires Valid()
      ensures |outd| == 5 && forall d :: 0 <= d < 5 ==> outd[d] == Blocks(Snapshot(), state, d, |keys|)
    {
      ghost var es := Snapshot();
      outd := [[], [], [], [], []];
      var i := 0;
      while i < |keys|
        invariant 0 <= i <= |keys| && |outd| == 5
        invariant forall d :: 0 <= d < 5 ==> outd[d] == Blocks(es, state, d, i)
      {
        EntriesAt(keys, entries, i);
        var o := entries[keys[i]];
        outd := TakeEntry(Entry(o.state, o.data), state, outd);
        i := i + 1;
      }
    }
  }

  /** The last loop of append: each outd[dkey] concatenated, key by key. */
  method JoinAll(outd: seq<seq<Option<Rows>>>, ghost es: seq<Entry>, ghost state: Option<State>)
    returns (r: Result<seq<Array>>)
    requires |outd| == 5 && forall d :: 0 <= d < 5 ==> outd[d] == Blocks(es, state, d, |es|)
    ensures r == AppendSpec(es, state)
  {
    var out: seq<Array> := [];
    var d := 0;
    while d < 5
      invariant 0 <= d <= 5
      invariant JoinedUpTo(es, state, d) == Ok(out)
    {
      var c := Concatenate(outd[d]);
      if c.Err? {
        JoinedErrStays(es, state, d + 1, |DATA_KEYS|);
        return Err(c.error);
      }
      out := out + [c.value];
      d := d + 1;
    }
    r := Ok(out);
  }

  /** The inner loop of append for one file e: under every key, its array
      goes last when its state is the one asked for. */
  method TakeEntry(e: Entry, state: Option<State>, outd0: seq<seq<Option<Rows>>>) returns (outd: seq<seq<Option<Rows>>>)
    requires |outd0| == 5
    ensures |outd| == 5
    ensures forall d :: 0 <= d < 5 ==> outd[d] == if e.state == state then outd0[d] + [Block(e, d)] else outd0[d]
  {
    outd := outd0;
    var dk := 0;
    while dk < 5
      invariant 0 <= dk <= 5 && |outd| == 5
      invariant forall d :: 0 <= d < 5 ==> outd[d] == if e.state == state && d < dk then outd0[d] + [Block(e, d)] else outd0[d]
    {
      if e.state == state {
        outd := outd[dk := outd[dk] + [Block(e, dk)]];
      }
      dk := dk + 1;
    }
  }

  /** One pair (a, b) = (files ii, ii + 1) of the second loop of
      diff_on_off, key by key. The loop body reads both files anew for every
      key; the reads do not change between keys, so they are made once. */
  method PairRound(a: Result<Entry>, b: Result<Entry>, ghost pair: (nat, nat) -> Result<Mat>, ghost p: nat,
                   n: nat, diffs0: seq<seq<Mat>>) returns (r: Result<seq<seq<Mat>>>)
    requires forall kk :: 0 <= kk < 5 ==> pair(p, kk) == PairOf(a, b, kk, n)
    requires Diffs(pair, p, 0) == Ok(diffs0)
    ensures r == Diffs(pair, p, 5)
  {
    var diffs := diffs0;
    var k := 0;
    while k < 5
      invariant 0 <= k <= 5
      invariant Diffs(pair, p, k) == Ok(diffs)
    {
      var d := PairOf(a, b, k, n);
      if d.Err? {
        DiffsErrStays(pair, p, k + 1, p + 1);
        return Err(d.error);
      }
      diffs := diffs[k := diffs[k] + [d.value]];
      k := k + 1;
    }
    r := Ok(diffs);
  }

  /** The state of get_pola_data after i of the keys ks it began with: the
      keys kept so far, then the keys still to visit, and the files of those
      keys unchanged. */
  ghost predicate Round(ks: seq<string>, es: map<string, OnOff>, i: nat, curKeys: seq<string>,
                        curEntries: map<string, OnOff>, done: seq<string>, dataset: seq<Record>, clean: bool)
  {
    i <= |ks| && DictValid(curKeys, curEntries) &&
    (clean ==> done == Kept(ks[..i], es, dataset)) &&
    (!clean ==> done == ks[..i]) &&
    curKeys == done + ks[i..] &&
    forall k :: k in curEntries ==> k in es && curEntries[k] == es[k]
  }

  /** The files of the first i keys hold their arrays. */
  ghost predicate Visited(ks: seq<string>, es: map<string, OnOff>, i: nat, dataset: seq<Record>)
    reads es.Values
  {
    forall j :: 0 <= j < i && j < |ks| ==> ks[j] in es && es[ks[j]].Filled(dataset)
  }

  /** One round of the loop of get_pola_data: the file of key i gets its
      arrays and, with clean and an empty window, its key leaves the dict. */
  method VisitKey(ks: seq<string>, es: map<string, OnOff>, i: nat, curKeys: seq<string>,
                  curEntries: map<string, OnOff>, ghost done: seq<string>, dataset: seq<Record>, clean: bool)
    returns (keys': seq<string>, entries': map<string, OnOff>, ghost done': seq<string>)
    requires i < |ks| && ks[i] in es && Round(ks, es, i, curKeys, curEntries, done, dataset, clean)
    requires Visited(ks, es, i, dataset)
    modifies es[ks[i]]
    ensures Visited(ks, es, i + 1, dataset)
    ensures Round(ks, es, i + 1, keys', entries', done', dataset, clean)
  {
    var key := ks[i];
    ghost var rest := ks[i + 1..];
    SliceSplit(ks, i);
    AppendAssoc(done, [key], rest);
    var empty := es[key].Fill(dataset);
    KeptStep(ks, es, dataset, i, !empty);
    keys', entries', done' := curKeys, curEntries, done;
    if clean && empty {
      WithoutMiddle(done, key, rest);
      WithoutDistinct(curKeys, key);
      ElemsWithout(curKeys, key);
      keys' := Without(curKeys, key);
      entries' := curEntries - {key};
    } else {
      done' := done + [key];
    }
  }

  /** The entries of the keys ks, in that order. */
  ghost function EntriesOf(ks: seq<string>, entries: map<string, OnOff>): (es: seq<Entry>)
    requires Elems(ks) <= entries.Keys
    reads entries.Values
    ensures |es| == |ks|
  {
    if ks == [] then []
    else [Entry(entries[ks[0]].state, entries[ks[0]].data)] + EntriesOf(ks[1..], entries)
  }

  /** Entry i of EntriesOf is the file of key i. */
  lemma {:induction false} EntriesAt(ks: seq<string>, entries: map<string, OnOff>, i: int)
    requires Elems(ks) <= entries.Keys && 0 <= i < |ks|
    ensures ks[i] in entries && EntriesOf(ks, entries)[i] == Entry(entries[ks[i]].state, entries[ks[i]].data)
  {
    if i > 0 {
      EntriesAt(ks[1..], entries, i - 1);
    }
  }

  /** The key order lists each key of the map exactly once. */
  ghost predicate DictValid(keys: seq<string>, entries: map<string, OnOff>)
  {
    Distinct(keys) && entries.Keys == Elems(keys)
  }

  /** The keys from i on, and up to i + 1, split at key i. */
  lemma SliceSplit(s: seq<string>, i: nat)
    requires i < |s|
    ensures s[i..] == [s[i]] + s[i + 1..] && s[..i + 1] == s[..i] + [s[i]]
  {
  }

  lemma AppendAssoc(a: seq<string>, b: seq<string>, c: seq<string>)
    ensures a + (b + c) == a + b + c
  {
  }

  /** Kept over one more key. */
  lemma KeptStep(ks: seq<string>, es: map<string, OnOff>, dataset: seq<Record>, i: nat, keep: bool)
    requires i < |ks| && keep == (ks[i] in es && Keeps(dataset, es[ks[i]].tStart, es[ks[i]].tStop))
    ensures Kept(ks[..i + 1], es, dataset) == if keep then Kept(ks[..i], es, dataset) + [ks[i]] else Kept(ks[..i], es, dataset)
  {
    KeptAppend(ks[..i], [ks[i]], es, dataset);
    assert ks[..i + 1] == ks[..i] + [ks[i]];
    assert Kept([ks[i]], es, dataset) == (if keep then [ks[i]] else []) + Kept([], es, dataset);
  }

  lemma {:induction false} KeptAppend(a: seq<string>, b: seq<string>, es: map<string, OnOff>, dataset: seq<Record>)
    ensures Kept(a + b, es, dataset) == Kept(a, es, dataset) + Kept(b, es, dataset)
  {
    if a == [] {
      assert a + b == b;
    } else {
      assert (a + b)[1..] == a[1..] + b;
      KeptAppend(a[1..], b, es, dataset);
    }
  }

  lemma {:induction false} ElemsAppend(a: seq<string>, b: seq<string>)
    ensures Elems(a + b) == Elems(a) + Elems(b)
  {
    if a == [] {
      assert a + b == b;
    } else {
      assert (a + b)[1..] == a[1..] + b;
      ElemsAppend(a[1..], b);
    }
  }

  lemma {:induction false} ElemsIndex(s: seq<string>, i: int)
    requires 0 <= i < |s|
    ensures s[i] in Elems(s)
  {
    if i > 0 {
      ElemsIndex(s[1..], i - 1);
    }
  }

  lemma {:induction false} ElemsIndexOf(s: seq<string>, x: string) returns (i: nat)
    requires x in Elems(s)
    ensures i < |s| && s[i] == x
  {
    if s[0] != x {
      var j := ElemsIndexOf(s[1..], x);
      i := j + 1;
    } else {
      i := 0;
    }
  }

  lemma {:induction false} DistinctAppend(a: seq<string>, b: seq<string>)
    ensures Distinct(a + b) <==> Distinct(a) && Distinct(b) && Elems(a) !! Elems(b)
  {
    if a == [] {
      assert a + b == b;
    } else {
      assert (a + b)[1..] == a[1..] + b;
      DistinctAppend(a[1..], b);
      ElemsAppend(a[1..], b);
    }
  }

  /** Without removes exactly the key. */
  lemma {:induction false} ElemsWithout(keys: seq<string>, key: string)
    ensures Elems(Without(keys, key)) == Elems(keys) - {key}
  {
    if keys != [] {
      ElemsWithout(keys[1..], key);
      assert Elems([keys[0]]) == {keys[0]} by {
        assert [keys[0]][1..] == [];
      }
      ElemsAppend(if keys[0] == key then [] else [keys[0]], Without(keys[1..], key));
    }
  }

  lemma {:induction false} WithoutDistinct(keys: seq<string>, key: string)
    requires Distinct(keys)
    ensures Distinct(Without(keys, key))
  {
    if keys != [] {
      WithoutDistinct(keys[1..], key);
      ElemsWithout(keys[1..], key);
      var rest := Without(keys[1..], key);
      if keys[0] == key {
        assert Without(keys, key) == rest;
      } else {
        assert Without(keys, key) == [keys[0]] + rest;
        assert ([keys[0]] + rest)[1..] == rest;
      }
    }
  }

  /** Every kept key was a key whose window holds a row. */
  lemma {:induction false} KeptSound(keys: seq<string>, es: map<string, OnOff>, dataset: seq<Record>)
    ensures forall k :: k in Elems(Kept(keys, es, dataset)) ==>
      k in Elems(keys) && k in es && Keeps(dataset, es[k].tStart, es[k].tStop)
  {
    if keys != [] {
      KeptSound(keys[1..], es, dataset);
      var k := keys[0];
      var head := if k in es && Keeps(dataset, es[k].tStart, es[k].tStop) then [k] else [];
      ElemsAppend(head, Kept(keys[1..], es, dataset));
      assert Elems([k]) == {k} by {
        assert [k][1..] == [];
      }
    }
  }

  /** Removing a key from a list of distinct keys that holds it once. */
  lemma WithoutMiddle(done: seq<string>, key: string, rest: seq<string>)
    requires Distinct(done + [key] + rest)
    ensures Without(done + [key] + rest, key) == done + rest
  {
    DistinctAppend(done + [key], rest);
    DistinctAppend(done, [key]);
    ElemsAppend(done, [key]);
    assert Elems([key]) == {key} by {
      assert [key][1..] == [];
    }
    WithoutAppend(done + [key], rest, key);
    WithoutAppend(done, [key], key);
    WithoutAbsent(done, key);
    WithoutAbsent(rest, key);
    assert Without([key], key) == [];
  }

  lemma {:induction false} WithoutAppend(a: seq<string>, b: seq<string>, key: string)
    ensures Without(a + b, key) == Without(a, key) + Without(b, key)
  {
    if a == [] {
      assert a + b == b;
    } else {
      assert (a + b)[1..] == a[1..] + b;
      WithoutAppend(a[1..], b, key);
    }
  }

  lemma {:induction false} WithoutAbsent(a: seq<string>, key: string)
    requires key !in Elems(a)
    ensures Without(a, key) == a
  {
    if a != [] {
      WithoutAbsent(a[1..], key);
      assert a == [a[0]] + a[1..];
    }
  }

  // ---------------------------------------------------------------- diff_on_off

  /** A 2-D numpy array: its number of columns and its rows. */
  datatype Mat = Mat(width: nat, cells: seq<seq<real>>)

  /** Every row holds width values. */
  predicate MatOk(m: Mat)
  {
    forall i :: 0 <= i < |m.cells| ==> |m.cells[i]| == m.width
  }

  /** np_array of the values builds a 2-D array from a non-empty list of
      vectors of one length. A list of numbers, an empty list or a ragged
      one gives a 1-D array. */
  predicate Is2D(rows: Rows)
  {
    rows != [] && rows[0].Vector? &&
    forall i :: 0 <= i < |rows| ==> rows[i].Vector? && |rows[i].xs| == |rows[0].xs|
  }

  /** The rows of a 2-D array, read back as the vectors they were built from. */
  function AsRows(cells: seq<seq<real>>): (rows: Rows)
    ensures |rows| == |cells| && forall i :: 0 <= i < |cells| ==> rows[i] == Vector(cells[i])
  {
    seq(|cells|, i requires 0 <= i < |cells| => Vector(cells[i]))
  }

  /** The vectors of a list of them. */
  function Cells(rows: Rows): (cells: seq<seq<real>>)
    requires forall i :: 0 <= i < |rows| ==> rows[i].Vector?
    ensures AsRows(cells) == rows
  {
    seq(|rows|, i requires 0 <= i < |rows| => rows[i].xs)
  }

  /** The 2-D array of a list of vectors of one length. */
  function Grid2D(rows: Rows): (m: Mat)
    requires Is2D(rows)
    ensures MatOk(m) && m.width == |rows[0].xs| && AsRows(m.cells) == rows
  {
    Mat(|rows[0].xs|, Cells(rows))
  }

  /** rows[:n, :]: the first n rows of a 2-D array; a 1-D array has too
      few axes for the 2-D index. */
  function Trunc(rows: Rows, n: nat): (r: Result<Mat>)
    ensures r.Err? <==> !Is2D(rows)
    ensures r.Err? ==> r.error == IndexError
    ensures r.Ok? ==> (MatOk(r.value) && r.value.width == |rows[0].xs| &&
      AsRows(r.value.cells) == rows[..if n < |rows| then n else |rows|])
  {
    if !Is2D(rows) then Err(IndexError)
    else Ok(Mat(|rows[0].xs|, Cells(rows[..if n < |rows| then n else |rows|])))
  }

  /** Two sizes of one axis broadcast when they agree or one of them is 1. */
  predicate Broadcast(a: nat, b: nat)
  {
    a == b || a == 1 || b == 1
  }

  /** The size of a broadcast axis. */
  function Joint(a: nat, b: nat): nat
  {
    if a == 1 then b else a
  }

  /** Element (i, j) of m read through broadcasting: an axis of size 1 is
      read at 0. */
  function Cell(m: Mat, i: nat, j: nat): real
    requires MatOk(m) && (i < |m.cells| || |m.cells| == 1) && (j < m.width || m.width == 1)
  {
    m.cells[if |m.cells| == 1 then 0 else i][if m.width == 1 then 0 else j]
  }

  /** a - b for two 2-D arrays, with numpy broadcasting; shapes that do not
      broadcast raise ValueError. */
  function Sub(a: Mat, b: Mat): (r: Result<Mat>)
    requires MatOk(a) && MatOk(b)
    ensures r.Ok? <==> Broadcast(|a.cells|, |b.cells|) && Broadcast(a.width, b.width)
    ensures r.Err? ==> r.error == ValueError
  {
    if !Broadcast(|a.cells|, |b.cells|) || !Broadcast(a.width, b.width) then Err(ValueError)
    else
      var rows := Joint(|a.cells|, |b.cells|);
      var w := Joint(a.width, b.width);
      Ok(Mat(w, seq(rows, i requires 0 <= i < rows => seq(w, j requires 0 <= j < w => Cell(a, i, j) - Cell(b, i, j)))))
  }

  /** i_start and i_stop below 0 count from the end, once. */
  function Normalize(i: int, len: nat): (k: int)
    ensures i < 0 ==> k == len + i
    ensures i >= 0 ==> k == i
  {
    if i < 0 then len + i else i
  }

  /** shape[0] of the channels_l array of file ii: the dict index raises
      IndexError, an array never filled (None) raises AttributeError. */
  function CountAt(es: seq<Entry>, ii: int): (r: Result<nat>)
    ensures r.Err? <==> PyIndex(es, ii).Err? || PyIndex(es, ii).value.data.None?
    ensures r.Err? ==> r.error == if PyIndex(es, ii).Err? then IndexError else AttributeError
    ensures r.Ok? ==> r.value == |PyIndex(es, ii).value.data.value.channelsL|
  {
    var e := PyIndex(es, ii);
    if e.Err? then Err(IndexError)
    else if e.value.data.None? then Err(AttributeError)
    else Ok(|e.value.data.value.channelsL|)
  }

  /** The counts of the m files from s on, or the first failure. */
  function CountsUpTo(es: seq<Entry>, s: int, m: nat): Result<seq<nat>>
  {
    if m == 0 then Ok([])
    else
      var p := CountsUpTo(es, s, m - 1);
      if p.Err? then p
      else
        var c := CountAt(es, s + m - 1);
        if c.Err? then Err(c.error) else Ok(p.value + [c.value])
  }

  /** The smallest of a non-empty list, as min() gives it. */
  function MinOf(xs: seq<nat>): (m: nat)
    requires xs != []
    ensures m in xs && forall j :: 0 <= j < |xs| ==> m <= xs[j]
  {
    if |xs| == 1 then xs[0]
    else
      var r := MinOf(xs[1..]);
      assert forall j :: 1 <= j < |xs| ==> xs[j] == xs[1..][j - 1];
      if xs[0] <= r then xs[0] else r
  }

  /** The difference of pair (a, b) under key k, both cut to n rows, in the
      order the loop body evaluates it: the two states as the progress line
      prints them (None cannot be concatenated to a string), then the two
      arrays. */
  function PairOf(a: Result<Entry>, b: Result<Entry>, k: nat, n: nat): (r: Result<Mat>)
    requires k < |DATA_KEYS|
  {
    if a.Err? then Err(IndexError)
    else if a.value.state.None? then Err(TypeError)
    else if b.Err? then Err(IndexError)
    else if b.value.state.None? then Err(TypeError)
    else if a.value.data.None? then Err(TypeError)
    else
      var ta := Trunc(Col(a.value.data.value, k), n);
      if ta.Err? then Err(ta.error)
      else if b.value.data.None? then Err(TypeError)
      else
        var tb := Trunc(Col(b.value.data.value, k), n);
        if tb.Err? then Err(tb.error)
        else Sub(ta.value, tb.value)
  }

  /** The difference of files ii and ii + 1 under key k. */
  function PairAt(es: seq<Entry>, ii: int, k: nat, n: nat): Result<Mat>
    requires k < |DATA_KEYS|
  {
    PairOf(PyIndex(es, ii), PyIndex(es, ii + 1), k, n)
  }

  /** pair(q, kk) of diff_on_off: the difference of pair q, the files
      s + 2q and s + 2q + 1, under key kk. */
  function PairFn(es: seq<Entry>, s: int, n: nat): (nat, nat) -> Result<Mat>
  {
    (q: nat, kk: nat) => if kk < |DATA_KEYS| then PairAt(es, s + 2 * q, kk, n) else Err(IndexError)
  }

  /** pair(q, kk) reads the files s + 2q and s + 2q + 1 of the dict. */
  lemma PairFnAt(es: seq<Entry>, s: int, n: nat, q: nat, kk: nat)
    requires kk < 5
    ensures PairFn(es, s, n)(q, kk) == PairOf(PyIndex(es, s + 2 * q), PyIndex(es, s + 2 * q + 1), kk, n)
  {
  }

  /** Every key of pair p reads the same two files. */
  lemma PairFnRound(es: seq<Entry>, s: int, n: nat, p: nat, a: Result<Entry>, b: Result<Entry>)
    requires a == PyIndex(es, s + 2 * p) && b == PyIndex(es, s + 2 * p + 1)
    ensures forall kk :: 0 <= kk < 5 ==> PairFn(es, s, n)(p, kk) == PairOf(a, b, kk, n)
  {
    forall kk | 0 <= kk < 5
      ensures PairFn(es, s, n)(p, kk) == PairOf(a, b, kk, n)
    {
      PairFnAt(es, s, n, p, kk);
    }
  }

  /** The per-key lists of differences after p whole pairs and k keys of
      the next (pair by pair, key by key within a pair), pair(q, kk) being
      the difference of pair q under key kk; or the first failure in that
      order. */
  function Diffs(pair: (nat, nat) -> Result<Mat>, p: nat, k: nat): (r: Result<seq<seq<Mat>>>)
    requires k <= 5
    ensures r.Ok? ==> |r.value| == 5
    decreases 6 * p + k
  {
    if k == 0 then
      if p == 0 then Ok([[], [], [], [], []]) else Diffs(pair, p - 1, 5)
    else
      var prev := Diffs(pair, p, k - 1);
      if prev.Err? then prev
      else
        var d := pair(p, k - 1);
        if d.Err? then Err(d.error)
        else Ok(prev.value[k - 1 := prev.value[k - 1] + [d.value]])
  }

  /** The number of pairs xrange(s, t, 2) visits. */
  function NPairs(s: int, t: int): nat
  {
    if t > s then (t - s + 1) / 2 else 0
  }

  /** Pair p starts inside the range exactly when p < NPairs(s, t). */
  lemma NPairsBounds(s: int, t: int, p: nat)
    ensures s + 2 * p < t <==> p < NPairs(s, t)
  {
  }

  /** diff_on_off before its median: for the files in [i_start, i_stop),
      n_samp is the fewest rows of channels_l; then for each pair (ii, ii + 1)
      with ii stepping by 2 through the range, the difference of the first
      n_samp rows, key by key. */
  function DiffSpec(es: seq<Entry>, iStart: int, iStop: int): Result<seq<seq<Mat>>>
  {
    DiffRange(es, Normalize(iStart, |es|), Normalize(iStop, |es|))
  }

  /** DiffSpec over the normalised range [s, t). */
  function DiffRange(es: seq<Entry>, s: int, t: int): Result<seq<seq<Mat>>>
  {
    var cs := CountsUpTo(es, s, if t > s then t - s else 0);
    if cs.Err? then Err(cs.error)
    else if cs.value == [] then Err(ValueError)
    else Diffs(PairFn(es, s, MinOf(cs.value)), NPairs(s, t), 0)
  }

  /** n_samp of a range whose counts all succeed. */
  function NSamp(es: seq<Entry>, s: int, t: int): nat
    requires s < t && CountsUpTo(es, s, t - s).Ok?
  {
    MinOf(CountsUpTo(es, s, t - s).value)
  }

  lemma {:induction false} CountsErrStays(es: seq<Entry>, s: int, m: nat, total: nat)
    requires m <= total && CountsUpTo(es, s, m).Err?
    ensures CountsUpTo(es, s, total) == CountsUpTo(es, s, m)
    decreases total - m
  {
    if m < total {
      CountsErrStays(es, s, m, total - 1);
    }
  }

  /** Once a difference fails, the whole loop fails with it. */
  lemma {:induction false} DiffsErrStays(pair: (nat, nat) -> Result<Mat>, p: nat, k: nat, total: nat)
    requires k <= 5 && (p < total || (p == total && k == 0)) && Diffs(pair, p, k).Err?
    ensures Diffs(pair, total, 0) == Diffs(pair, p, k)
    decreases 6 * (total - p) - k
  {
    if p < total {
      if k == 5 {
        DiffsErrStays(pair, p + 1, 0, total);
      } else {
        DiffsErrStays(pair, p, k + 1, total);
      }
    }
  }

  /** The counts are those of the files s, s + 1, ... in turn; a failure is
      the failure of one of them. */
  lemma {:induction false} CountsMeaning(es: seq<Entry>, s: int, m: nat)
    ensures var r := CountsUpTo(es, s, m);
      (r.Ok? ==> |r.value| == m && forall j :: 0 <= j < m ==> CountAt(es, s + j) == Ok(r.value[j])) &&
      (r.Err? ==> exists ii :: s <= ii < s + m && CountAt(es, ii) == Err(r.error))
  {
    if m > 0 {
      CountsMeaning(es, s, m - 1);
    }
  }

  /** The lists of the loop: one per key, list kk holding one difference
      per pair visited so far. */
  lemma {:induction false} DiffsLength(pair: (nat, nat) -> Result<Mat>, p: nat, k: nat, kk: nat)
    requires k <= 5 && kk < 5
    ensures var r := Diffs(pair, p, k);
      r.Ok? ==> |r.value[kk]| == p + (if kk < k then 1 else 0)
    decreases 6 * p + k
  {
    if k == 0 {
      if p > 0 {
        DiffsLength(pair, p - 1, 5, kk);
      }
    } else {
      DiffsLength(pair, p, k - 1, kk);
    }
  }

  /** Entry q of list kk is the difference of pair q under key kk. */
  lemma {:induction false} DiffsEntry(pair: (nat, nat) -> Result<Mat>, p: nat, k: nat, kk: nat, q: nat)
    requires k <= 5 && kk < 5
    ensures var r := Diffs(pair, p, k);
      r.Ok? && q < |r.value[kk]| ==> pair(q, kk) == Ok(r.value[kk][q])
    decreases 6 * p + k
  {
    if k == 0 {
      if p > 0 {
        DiffsEntry(pair, p - 1, 5, kk, q);
      }
    } else {
      DiffsEntry(pair, p, k - 1, kk, q);
      DiffsLength(pair, p, k - 1, kk);
    }
  }

  /** The difference holds a - b element by element, an axis of size 1
      stretched to the other's size. */
  lemma SubCells(a: Mat, b: Mat)
    requires MatOk(a) && MatOk(b)
    ensures var r := Sub(a, b);
      r.Ok? ==> (MatOk(r.value) && |r.value.cells| == Joint(|a.cells|, |b.cells|) &&
        r.value.width == Joint(a.width, b.width) &&
        forall i, j :: 0 <= i < |r.value.cells| && 0 <= j < r.value.width ==>
          r.value.cells[i][j] == Cell(a, i, j) - Cell(b, i, j))
  {
  }

  /** An empty range has no counts, and min() of an empty list raises
      ValueError. */
  lemma DiffEmptyRange(es: seq<Entry>, iStart: int, iStop: int)
    requires Normalize(iStop, |es|) <= Normalize(iStart, |es|)
    ensures DiffSpec(es, iStart, iStop) == Err(ValueError)
  {
  }

  /** On success there is one list per key, each holding the difference of
      every pair of the range, in pair order. */
  lemma DiffLists(es: seq<Entry>, iStart: int, iStop: int, k: nat, q: nat)
    requires k < |DATA_KEYS| && DiffSpec(es, iStart, iStop).Ok?
    ensures var s := Normalize(iStart, |es|);
      var t := Normalize(iStop, |es|);
      var r := DiffSpec(es, iStart, iStop).value;
      s < t && |r| == 5 && |r[k]| == NPairs(s, t) &&
      (q < NPairs(s, t) ==> PairAt(es, s + 2 * q, k, NSamp(es, s, t)) == Ok(r[k][q]))
  {
    var s := Normalize(iStart, |es|);
    var t := Normalize(iStop, |es|);
    assert DiffSpec(es, iStart, iStop) == DiffRange(es, s, t);
    DiffRangeOk(es, s, t);
    var n := NSamp(es, s, t);
    DiffsOfPairs(es, s, n, NPairs(s, t), k, q);
  }

  /** The lists of Diffs over the pairs of the dict: p entries for key k,
      entry q being pair q's difference. */
  lemma DiffsOfPairs(es: seq<Entry>, s: int, n: nat, p: nat, k: nat, q: nat)
    requires k < |DATA_KEYS|
    ensures var r := Diffs(PairFn(es, s, n), p, 0);
      r.Ok? ==> |r.value[k]| == p && (q < p ==> PairAt(es, s + 2 * q, k, n) == Ok(r.value[k][q]))
  {
    var pair := PairFn(es, s, n);
    DiffsLength(pair, p, 0, k);
    DiffsEntry(pair, p, 0, k, q);
    assert pair(q, k) == PairAt(es, s + 2 * q, k, n);
  }

  /** A successful range is non-empty, every file in it is counted, and the
      result is the pairs' differences at n_samp rows. */
  lemma DiffRangeOk(es: seq<Entry>, s: int, t: int)
    requires DiffRange(es, s, t).Ok?
    ensures s < t && CountsUpTo(es, s, t - s).Ok?
    ensures s < t && CountsUpTo(es, s, t - s).Ok? ==>
      DiffRange(es, s, t) == Diffs(PairFn(es, s, NSamp(es, s, t)), NPairs(s, t), 0)
  {
    assert CountsUpTo(es, s, 0) == Ok([]);
  }

  /** n_samp is the row count of one of the files counted and no larger
      than any of them. */
  lemma NSampMeaning(es: seq<Entry>, s: int, t: int)
    requires s < t && CountsUpTo(es, s, t - s).Ok?
    ensures exists ii :: s <= ii < t && CountAt(es, ii) == Ok(NSamp(es, s, t))
    ensures forall ii :: s <= ii < t ==> CountAt(es, ii).Ok? && NSamp(es, s, t) <= CountAt(es, ii).value
  {
    var cs := CountsUpTo(es, s, t - s).value;
    CountsMeaning(es, s, t - s);
    forall ii | s <= ii < t
      ensures CountAt(es, ii).Ok? && NSamp(es, s, t) <= CountAt(es, ii).value
    {
      assert CountAt(es, s + (ii - s)) == Ok(cs[ii - s]);
    }
    var j :| 0 <= j < |cs| && cs[j] == NSamp(es, s, t);
    assert CountAt(es, s + j) == Ok(cs[j]);
  }

  /** A pair both of whose files were counted differs in exactly n_samp
      rows of channels_l. */
  lemma CountedPairRows(es: seq<Entry>, iStart: int, iStop: int, q: nat)
    requires DiffSpec(es, iStart, iStop).Ok?
    requires Normalize(iStart, |es|) + 2 * q + 1 < Normalize(iStop, |es|)
    ensures var s := Normalize(iStart, |es|);
      var t := Normalize(iStop, |es|);
      q < |DiffSpec(es, iStart, iStop).value[0]| &&
      |DiffSpec(es, iStart, iStop).value[0][q].cells| == NSamp(es, s, t)
  {
    var s := Normalize(iStart, |es|);
    var t := Normalize(iStop, |es|);
    var n := NSamp(es, s, t);
    NPairsBounds(s, t, q);
    DiffLists(es, iStart, iStop, 0, q);
    NSampMeaning(es, s, t);
    var ii := s + 2 * q;
    assert CountAt(es, ii).Ok? && CountAt(es, ii + 1).Ok?;
    var a := PyIndex(es, ii).value.data.value;
    var b := PyIndex(es, ii + 1).value.data.value;
    var ta := Trunc(Col(a, 0), n).value;
    var tb := Trunc(Col(b, 0), n).value;
    assert |ta.cells| == n && |tb.cells| == n;
    SubCells(ta, tb);
  }

  /** Two files, on then off, of three and two rows of one channel, with
      integration_l a vector like the other keys. */
  function ShortLastPair(): seq<Entry>
  {
    var three := [Vector([1.0]), Vector([1.0]), Vector([1.0])];
    var two := [Vector([1.0]), Vector([1.0])];
    [Entry(Some(On), Some(Columns(three, three, three, three, three))),
     Entry(Some(Off), Some(Columns(two, two, two, two, two)))]
  }

  /** With the default i_stop = -1 the range leaves out the last file, yet
      an even number of files pairs the last one all the same: its rows are
      not counted in n_samp, and a last file shorter than the others makes
      the difference fail to broadcast. */
  lemma LastFileUncounted()
    ensures DiffSpec(ShortLastPair(), 0, -1) == Err(ValueError)
  {
    var es := ShortLastPair();
    var three := [Vector([1.0]), Vector([1.0]), Vector([1.0])];
    var two := [Vector([1.0]), Vector([1.0])];
    assert PyIndex(es, 0) == Ok(es[0]) && PyIndex(es, 1) == Ok(es[1]);
    assert CountAt(es, 0) == Ok(3);
    assert CountsUpTo(es, 0, 0) == Ok([]);
    assert CountsUpTo(es, 0, 1) == Ok([] + [3]);
    assert [] + [3] == [3];
    assert MinOf([3]) == 3;
    assert Is2D(three) && Is2D(two) && three[..3] == three;
    var pair := PairFn(es, 0, 3);
    assert PairAt(es, 0, 0, 3) == Err(ValueError);
    assert Diffs(pair, 0, 1) == Err(ValueError);
    DiffsErrStays(pair, 0, 1, 1);
  }

  /** The same two files with the last one counted: n_samp is 2 and every
      difference succeeds. */
  lemma LastFileCounted()
    ensures DiffSpec(ShortLastPair(), 0, 2).Ok?
  {
    var es := ShortLastPair();
    var three := [Vector([1.0]), Vector([1.0]), Vector([1.0])];
    var two := [Vector([1.0]), Vector([1.0])];
    var pair := CountedPair(es, three, two);
    OneChannelRows(three, two);
    forall k | 0 <= k < 5
      ensures pair(0, k).Ok?
    {
      assert Col(es[0].data.value, k) == three && Col(es[1].data.value, k) == two;
    }
    RoundOk(pair, 0, 5);
  }

  /** Both files of an on/off pair are counted: n_samp is the shorter
      file's two rows, and diff_on_off(es, 0, 2) is the loop over that one
      pair. */
  lemma CountedPair(es: seq<Entry>, three: Rows, two: Rows) returns (pair: (nat, nat) -> Result<Mat>)
    requires |es| == 2 && |three| == 3 && |two| == 2
    requires es[0].state == Some(On) && es[0].data.Some? && es[0].data.value.channelsL == three
    requires es[1].state == Some(Off) && es[1].data.Some? && es[1].data.value.channelsL == two
    ensures pair == PairFn(es, 0, 2)
    ensures DiffSpec(es, 0, 2) == Diffs(pair, 1, 0)
  {
    assert PyIndex(es, 0) == Ok(es[0]) && PyIndex(es, 1) == Ok(es[1]);
    assert CountAt(es, 0) == Ok(3) && CountAt(es, 1) == Ok(2);
    assert CountsUpTo(es, 0, 0) == Ok([]);
    assert CountsUpTo(es, 0, 1) == Ok([] + [3]);
    assert [] + [3] == [3] && [3] + [2] == [3, 2];
    assert CountsUpTo(es, 0, 2) == Ok([3] + [2]);
    assert MinOf([3, 2]) == 2;
    pair := PairFn(es, 0, 2);
  }

  /** The first k keys of pair p succeed when each of their differences does. */
  lemma {:induction false} RoundOk(pair: (nat, nat) -> Result<Mat>, p: nat, k: nat)
    requires k <= 5 && Diffs(pair, p, 0).Ok?
    requires forall kk :: 0 <= kk < k ==> pair(p, kk).Ok?
    ensures Diffs(pair, p, k).Ok?
  {
    if k > 0 {
      RoundOk(pair, p, k - 1);
    }
  }

  /** Three and two rows of one channel both cut to two rows, and their
      difference. */
  lemma OneChannelRows(three: Rows, two: Rows)
    requires three == [Vector([1.0]), Vector([1.0]), Vector([1.0])] && two == [Vector([1.0]), Vector([1.0])]
    ensures var m := Mat(1, Cells(two));
      Trunc(three, 2) == Ok(m) && Trunc(two, 2) == Ok(m) && Sub(m, m).Ok?
  {
    assert Is2D(three) && Is2D(two) && three[..2] == two && two[..2] == two;
  }

  /** Two files shaped like DW data, on then off, of three and two rows of
      one channel, whose integration_l holds one number per row. */
  function ScalarIntegrationPair(): seq<Entry>
  {
    var three := [Vector([1.0]), Vector([1.0]), Vector([1.0])];
    var two := [Vector([1.0]), Vector([1.0])];
    var i3 := [Scalar(1.0), Scalar(1.0), Scalar(1.0)];
    var i2 := [Scalar(1.0), Scalar(1.0)];
    [Entry(Some(On), Some(Columns(three, three, three, three, i3))),
     Entry(Some(Off), Some(Columns(two, two, two, two, i2)))]
  }

  /** The files that succeed in LastFileCounted, but with a scalar
      integration_l: the four vector keys of the pair succeed, and the 2-D
      index [:n_samp, :] of the 1-D integration_l array raises IndexError. */
  lemma ScalarIntegrationFails()
    ensures DiffSpec(ScalarIntegrationPair(), 0, 2) == Err(IndexError)
  {
    var es := ScalarIntegrationPair();
    var three := [Vector([1.0]), Vector([1.0]), Vector([1.0])];
    var two := [Vector([1.0]), Vector([1.0])];
    var i3 := [Scalar(1.0), Scalar(1.0), Scalar(1.0)];
    var pair := CountedPair(es, three, two);
    OneChannelRows(three, two);
    forall k | 0 <= k < 4
      ensures pair(0, k).Ok?
    {
      assert Col(es[0].data.value, k) == three && Col(es[1].data.value, k) == two;
    }
    assert Col(es[0].data.value, 4) == i3 && !Is2D(i3);
    assert pair(0, 4) == Err(IndexError);
    RoundOk(pair, 0, 4);
    assert Diffs(pair, 0, 5) == Err(IndexError);
    DiffsErrStays(pair, 0, 5, 1);
  }

  /** On success every file of every pair is filled and its array under
      every key is 2-D. */
  lemma DiffNeeds2D(es: seq<Entry>, iStart: int, iStop: int, k: nat, q: nat)
    requires k < |DATA_KEYS|
    ensures var s := Normalize(iStart, |es|);
      var t := Normalize(iStop, |es|);
      DiffSpec(es, iStart, iStop).Ok? ==>
        s < t && (q < NPairs(s, t) ==>
          PyIndex(es, s + 2 * q).Ok? && PyIndex(es, s + 2 * q).value.data.Some? &&
          Is2D(Col(PyIndex(es, s + 2 * q).value.data.value, k)) &&
          PyIndex(es, s + 2 * q + 1).Ok? && PyIndex(es, s + 2 * q + 1).value.data.Some? &&
          Is2D(Col(PyIndex(es, s + 2 * q + 1).value.data.value, k)))
  {
    if DiffSpec(es, iStart, iStop).Ok? {
      DiffLists(es, iStart, iStop, k, q);
    }
  }

  /** The file's integration_l holds one number per row, as in DW data. */
  predicate ScalarIntegration(e: Entry)
  {
    e.data.Some? ==> forall i :: 0 <= i < |e.data.value.integrationL| ==> e.data.value.integrationL[i].Scalar?
  }

  /** When every file's integration_l holds one number per row, diff_on_off
      never succeeds, whatever its range: an empty range fails in min(), and
      otherwise the first pair cannot index integration_l as a 2-D array. */
  lemma ScalarIntegrationNeverDiffs(es: seq<Entry>, iStart: int, iStop: int)
    requires forall i :: 0 <= i < |es| ==> ScalarIntegration(es[i])
    ensures DiffSpec(es, iStart, iStop).Err?
  {
    var s := Normalize(iStart, |es|);
    var t := Normalize(iStop, |es|);
    DiffNeeds2D(es, iStart, iStop, 4, 0);
    if s < t {
      NPairsBounds(s, t, 0);
      var e := PyIndex(es, s);
      if e.Ok? {
        var idx := if s >= 0 then s else |es| + s;
        assert e.value == es[idx];
        assert ScalarIntegration(e.value);
      }
    }
  }

  // ---------------------------------------------------------------- append

  /** A numpy array as np_array builds it from a list of rows: 2-D when the
      rows are many and of one length, else 1-D over the rows. */
  datatype Array = Flat(items: Rows) | Grid(m: Mat)

  /** The rows of an array, along its first axis. */
  function Items(a: Array): Rows
  {
    match a
    case Flat(items) => items
    case Grid(m) => AsRows(m.cells)
  }

  function AsArray(rows: Rows): (a: Array)
    ensures Items(a) == rows
    ensures a.Grid? <==> Is2D(rows)
  {
    if Is2D(rows) then Grid(Grid2D(rows)) else Flat(rows)
  }

  /** data[dkey] of a file: None until get_pola_data has filled it. */
  function Block(e: Entry, k: nat): Option<Rows>
    requires k < |DATA_KEYS|
  {
    if e.data.None? then None else Some(Col(e.data.value, k))
  }

  /** outd[dkey] after the first m files: the arrays of those in the given
      state, in key order. */
  function Blocks(es: seq<Entry>, state: Option<State>, k: nat, m: nat): seq<Option<Rows>>
    requires k < |DATA_KEYS| && m <= |es|
  {
    if m == 0 then []
    else Blocks(es, state, k, m - 1) + if es[m - 1].state == state then [Block(es[m - 1], k)] else []
  }

  /** Two arrays joined along axis 0: both 1-D, or both 2-D of one width;
      None (never filled) or a difference in the number of axes or in the
      width raises ValueError. */
  function Glue(x: Array, y: Array): (r: Result<Array>)
  {
    match (x, y)
    case (Flat(a), Flat(b)) => Ok(Flat(a + b))
    case (Grid(a), Grid(b)) =>
      if a.width == b.width then Ok(Grid(Mat(a.width, a.cells + b.cells))) else Err(ValueError)
    case _ => Err(ValueError)
  }

  /** np_concatenate(bs, 0); an empty list raises ValueError. */
  function Concatenate(bs: seq<Option<Rows>>): (r: Result<Array>)
    ensures r.Err? ==> r.error == ValueError
  {
    if bs == [] then Err(ValueError)
    else if |bs| == 1 then (if bs[0].None? then Err(ValueError) else Ok(AsArray(bs[0].value)))
    else
      var p := Concatenate(bs[..|bs| - 1]);
      var last := bs[|bs| - 1];
      if p.Err? then p
      else if last.None? then Err(ValueError)
      else Glue(p.value, AsArray(last.value))
  }

  /** The joined arrays of the first d keys, or the first failure. */
  function JoinedUpTo(es: seq<Entry>, state: Option<State>, d: nat): (r: Result<seq<Array>>)
    requires d <= |DATA_KEYS|
    ensures r.Ok? ==> |r.value| == d
  {
    if d == 0 then Ok([])
    else
      var p := JoinedUpTo(es, state, d - 1);
      if p.Err? then p
      else
        var c := Concatenate(Blocks(es, state, d - 1, |es|));
        if c.Err? then Err(c.error) else Ok(p.value + [c.value])
  }

  /** append(data, state): the five joined arrays, or ValueError. */
  function AppendSpec(es: seq<Entry>, state: Option<State>): Result<seq<Array>>
  {
    JoinedUpTo(es, state, |DATA_KEYS|)
  }

  lemma {:induction false} JoinedErrStays(es: seq<Entry>, state: Option<State>, d: nat, total: nat)
    requires d <= total <= |DATA_KEYS| && JoinedUpTo(es, state, d).Err?
    ensures JoinedUpTo(es, state, total) == JoinedUpTo(es, state, d)
    decreases total - d
  {
    if d < total {
      JoinedErrStays(es, state, d, total - 1);
    }
  }


  /** With no file in the state asked for, there is nothing to concatenate:
      append raises ValueError. */
  lemma AppendNoMatch(es: seq<Entry>, state: Option<State>)
    requires forall i :: 0 <= i < |es| ==> es[i].state != state
    ensures AppendSpec(es, state) == Err(ValueError)
  {
    BlocksNone(es, state, 0, |es|);
    JoinedErrStays(es, state, 1, |DATA_KEYS|);
  }

  lemma {:induction false} BlocksNone(es: seq<Entry>, state: Option<State>, k: nat, m: nat)
    requires k < |DATA_KEYS| && m <= |es|
    requires forall i :: 0 <= i < m ==> es[i].state != state
    ensures Blocks(es, state, k, m) == []
  {
    if m > 0 {
      BlocksNone(es, state, k, m - 1);
    }
  }

  /** On success, the array of key k holds exactly the rows of that key of
      the files in the state asked for. */
  lemma AppendRows(es: seq<Entry>, state: Option<State>, k: nat, row: Sample)
    requires k < |DATA_KEYS| && AppendSpec(es, state).Ok?
    ensures row in Items(AppendSpec(es, state).value[k]) <==>
      exists i :: 0 <= i < |es| && es[i].state == state && es[i].data.Some? && row in Col(es[i].data.value, k)
  {
    JoinedAt(es, state, |DATA_KEYS|, k);
    var bs := Blocks(es, state, k, |es|);
    ConcatRows(bs, row);
    BlocksRows(es, state, k, |es|, row);
  }

  /** Entry k of the joined arrays is the concatenation under key k. */
  lemma {:induction false} JoinedAt(es: seq<Entry>, state: Option<State>, d: nat, k: nat)
    requires k < d <= |DATA_KEYS| && JoinedUpTo(es, state, d).Ok?
    ensures Concatenate(Blocks(es, state, k, |es|)).Ok?
    ensures JoinedUpTo(es, state, d).value[k] == Concatenate(Blocks(es, state, k, |es|)).value
  {
    if k < d - 1 {
      JoinedAt(es, state, d - 1, k);
    }
  }

  /** The rows of a concatenation are those of its parts, none of which is
      None. */
  lemma {:induction false} ConcatRows(bs: seq<Option<Rows>>, row: Sample)
    requires Concatenate(bs).Ok?
    ensures row in Items(Concatenate(bs).value) <==> exists j :: 0 <= j < |bs| && bs[j].Some? && row in bs[j].value
    decreases |bs|
  {
    if |bs| > 1 {
      var init := bs[..|bs| - 1];
      var last := bs[|bs| - 1];
      ConcatRows(init, row);
      var joined := Concatenate(init).value;
      var y := AsArray(last.value);
      GlueItems(joined, y);
      assert Concatenate(bs) == Glue(joined, y);
      assert Items(Concatenate(bs).value) == Items(joined) + last.value;
      assert forall j :: 0 <= j < |init| ==> init[j] == bs[j];
    }
  }

  lemma GlueItems(x: Array, y: Array)
    requires Glue(x, y).Ok?
    ensures Items(Glue(x, y).value) == Items(x) + Items(y)
  {
  }

  /** The parts gathered for key k are the arrays of the files in the state
      asked for. */
  lemma {:induction false} BlocksRows(es: seq<Entry>, state: Option<State>, k: nat, m: nat, row: Sample)
    requires k < |DATA_KEYS| && m <= |es|
    ensures var bs := Blocks(es, state, k, m);
      (exists j :: 0 <= j < |bs| && bs[j].Some? && row in bs[j].value) <==>
      (exists i :: 0 <= i < m && es[i].state == state && es[i].data.Some? && row in Col(es[i].data.value, k))
  {
    if m > 0 {
      BlocksRows(es, state, k, m - 1, row);
      var prev := Blocks(es, state, k, m - 1);
      var bs := Blocks(es, state, k, m);
      assert forall j :: 0 <= j < |prev| ==> bs[j] == prev[j];
      var last := es[m - 1].state == state && es[m - 1].data.Some? && row in Col(es[m - 1].data.value, k);
      if es[m - 1].state == state {
        assert bs == prev + [Block(es[m - 1], k)];
        if last {
          assert bs[|prev|].Some? && row in bs[|prev|].value;
        }
        if j :| 0 <= j < |bs| && bs[j].Some? && row in bs[j].value {
          if j == |prev| {
            assert last;
          } else {
            assert prev[j] == bs[j];
          }
        }
      } else {
        assert bs == prev;
      }
    }
  }
}
