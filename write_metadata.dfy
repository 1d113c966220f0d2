/** The metadata interpolator of scripts/writemetadata.py: a tab-separated
    metadata file read into per-key lists, and a cursor over its epochs that
    brackets each observation time and interpolates between the two samples
    around it. */
module WriteMetadata {
  import opened Base

  const TAB: char := '\t'

  /** META_DICT_KEYS; all but 'name' are interpolated as numbers. */
  const META_DICT_KEYS: seq<string> := ["azim", "elev", "asc", "decl", "name", "local_osc"]
  const NAME_INDEX: nat := 4

  // ---------------------------------------------------------------- str.split

  /** s.split(sep): the pieces between the separators, at least one. */
  function Split(s: string, sep: char): (parts: seq<string>)
    ensures |parts| >= 1
    ensures forall i, k :: 0 <= i < |parts| && 0 <= k < |parts[i]| ==> parts[i][k] != sep
  {
    if s == [] then [[]]
    else
      var rest := Split(s[1..], sep);
      if s[0] == sep then [[]] + rest else [[s[0]] + rest[0]] + rest[1..]
  }

  /** sep.join(parts). */
  function Join(parts: seq<string>, sep: char): string
    requires |parts| >= 1
  {
    if |parts| == 1 then parts[0] else parts[0] + [sep] + Join(parts[1..], sep)
  }

  /** Splitting loses nothing: joining the pieces gives the line back. */
  lemma {:induction false} SplitJoin(s: string, sep: char)
    ensures Join(Split(s, sep), sep) == s
  {
    if s != [] {
      var rest := Split(s[1..], sep);
      SplitJoin(s[1..], sep);
      if s[0] == sep {
        assert ([[]] + rest)[1..] == rest;
      } else {
        var parts := [[s[0]] + rest[0]] + rest[1..];
        if |rest| == 1 {
          assert parts == [[s[0]] + rest[0]];
        } else {
          assert parts[1..] == rest[1..];
          assert Join(rest, sep) == rest[0] + [sep] + Join(rest[1..], sep);
        }
      }
    }
  }

  // ---------------------------------------------------------------- the metadata

  /** self.metadata after get_meta_d: the dates, their epochs, and one list
      of raw field strings per key of META_DICT_KEYS. */
  datatype Metadata = Metadata(date: seq<string>, epoch: seq<real>, fields: seq<seq<string>>)

  ghost predicate WellFormed(md: Metadata)
  {
    |md.date| == |md.epoch| && |md.fields| == |META_DICT_KEYS| &&
    forall k :: 0 <= k < |md.fields| ==> |md.fields[k]| == |md.epoch|
  }

  /** One interpolated sample: a value per key of META_DICT_KEYS. */
  datatype Sample = Sample(azim: real, elev: real, asc: real, decl: real, name: string, localOsc: real)

  /** The numeric value a sample holds for field f of META_DICT_KEYS. */
  function Numeric(smp: Sample, f: nat): real
    requires f < |META_DICT_KEYS| && f != NAME_INDEX
  {
    if f == 0 then smp.azim else if f == 1 then smp.elev else if f == 2 then smp.asc
    else if f == 3 then smp.decl else smp.localOsc
  }

  /** np.interp(t, [e0, e1], [v0, v1]): the end values outside the interval
      and at its right end, the straight line inside. */
  function Interp(t: real, e0: real, e1: real, v0: real, v1: real): real
  {
    if t > e1 then v1
    else if t < e0 then v0
    else if t == e1 then v1
    else v0 + (v1 - v0) * ((t - e0) / (e1 - e0))
  }

  /** Between its samples the interpolation stays between their values and
      meets them at the ends. */
  lemma InterpBetween(t: real, e0: real, e1: real, v0: real, v1: real)
    requires e0 <= t <= e1
    ensures var v := Interp(t, e0, e1, v0, v1);
      (v0 <= v1 ==> v0 <= v <= v1) && (v1 <= v0 ==> v1 <= v <= v0) &&
      (t == e1 ==> v == v1) && (t == e0 && e0 < e1 ==> v == v0)
  {
    if t < e1 {
      var lambda := (t - e0) / (e1 - e0);
      FractionInUnit(t - e0, e1 - e0, lambda);
      ScaledBetween(v1 - v0, lambda);
    }
  }

  lemma FractionInUnit(a: real, b: real, lambda: real)
    requires 0.0 <= a < b && lambda == a / b
    ensures 0.0 <= lambda < 1.0 && (a == 0.0 ==> lambda == 0.0)
  {
    assert lambda * b == a;
    assert (1.0 - lambda) * b == b - a;
    if lambda >= 1.0 {
      assert false;
    }
  }

  lemma ScaledBetween(d: real, lambda: real)
    requires 0.0 <= lambda <= 1.0
    ensures d >= 0.0 ==> 0.0 <= d * lambda <= d
    ensures d <= 0.0 ==> d <= d * lambda <= 0.0
  {
    assert d - d * lambda == d * (1.0 - lambda);
  }

  /** Whether the name comes from the later sample, as written: when the
      later sample lies farther from t than the earlier one. */
  function LaterAsWritten(t: real, e0: real, e1: real): bool
  {
    e1 - t > t - e0
  }

  /** Whether the later sample is the nearer one; a tie goes to the earlier. */
  function LaterNearer(t: real, e0: real, e1: real): bool
  {
    e1 - t < t - e0
  }

  /** The distance from t to the sample a choice picks, and to the other. */
  function Picked(later: bool, t: real, e0: real, e1: real): real
  {
    Dist(if later then e1 else e0, t)
  }

  function Other(later: bool, t: real, e0: real, e1: real): real
  {
    Dist(if later then e0 else e1, t)
  }

  function Dist(a: real, b: real): real { if a >= b then a - b else b - a }

  /** The corrected choice is never the farther sample. */
  lemma NearerIsNearer(t: real, e0: real, e1: real)
    requires e0 <= t <= e1
    ensures Picked(LaterNearer(t, e0, e1), t, e0, e1) <= Other(LaterNearer(t, e0, e1), t, e0, e1)
  {
  }

  /** As written, a time just after a sample takes the name of the next,
      farther one. */
  lemma AsWrittenPicksFarther()
    ensures var t, e0, e1 := 1.0, 0.0, 10.0;
      Picked(LaterAsWritten(t, e0, e1), t, e0, e1) > Other(LaterAsWritten(t, e0, e1), t, e0, e1)
  {
  }

  /** As written, the choice is the farther sample whenever the two
      distances differ. */
  lemma AsWrittenIsFarther(t: real, e0: real, e1: real)
    requires e0 <= t <= e1 && e1 - t != t - e0
    ensures Picked(LaterAsWritten(t, e0, e1), t, e0, e1) > Other(LaterAsWritten(t, e0, e1), t, e0, e1)
  {
  }

  /** Field f of META_DICT_KEYS interpolated at t between samples p - 1
      and p. */
  function InterpField(md: Metadata, p: nat, t: real, num: string -> real, f: nat): real
    requires WellFormed(md) && 1 <= p < |md.epoch| && f < |META_DICT_KEYS|
  {
    Interp(t, md.epoch[p - 1], md.epoch[p], num(md.fields[f][p - 1]), num(md.fields[f][p]))
  }

  /** The sample with every numeric key interpolated and the name of the
      given sample. */
  function SampleWithName(md: Metadata, p: nat, t: real, num: string -> real, name: string): (smp: Sample)
    requires WellFormed(md) && 1 <= p < |md.epoch|
    ensures smp.name == name
    ensures forall f :: 0 <= f < |META_DICT_KEYS| && f != NAME_INDEX ==> Numeric(smp, f) == InterpField(md, p, t, num, f)
  {
    Sample(InterpField(md, p, t, num, 0), InterpField(md, p, t, num, 1), InterpField(md, p, t, num, 2),
           InterpField(md, p, t, num, 3), name, InterpField(md, p, t, num, 5))
  }

  function SampleAsWritten(md: Metadata, p: nat, t: real, num: string -> real): Sample
    requires WellFormed(md) && 1 <= p < |md.epoch|
  {
    SampleWithName(md, p, t, num,
      md.fields[NAME_INDEX][if LaterAsWritten(t, md.epoch[p - 1], md.epoch[p]) then p else p - 1])
  }

  function SampleNearer(md: Metadata, p: nat, t: real, num: string -> real): Sample
    requires WellFormed(md) && 1 <= p < |md.epoch|
  {
    SampleWithName(md, p, t, num,
      md.fields[NAME_INDEX][if LaterNearer(t, md.epoch[p - 1], md.epoch[p]) then p else p - 1])
  }

  /** Every interpolated value of a bracketed time lies between the two
      samples' values. */
  lemma InterpolatedBetween(md: Metadata, p: nat, t: real, num: string -> real, name: string, f: nat)
    requires WellFormed(md) && 1 <= p < |md.epoch| && md.epoch[p - 1] <= t <= md.epoch[p]
    requires f < |META_DICT_KEYS| && f != NAME_INDEX
    ensures var v0, v1 := num(md.fields[f][p - 1]), num(md.fields[f][p]);
      var v := Numeric(SampleWithName(md, p, t, num, name), f);
      (v0 <= v <= v1) || (v1 <= v <= v0)
  {
    InterpBetween(t, md.epoch[p - 1], md.epoch[p], num(md.fields[f][p - 1]), num(md.fields[f][p]));
  }

  /** A sample of a time within the first and last epoch, interpolated
      between two consecutive epochs that bracket it. */
  ghost predicate InterpolatedAt(md: Metadata, t: real, smp: Sample, num: string -> real, nearer: bool)
    requires WellFormed(md)
  {
    InRange(md.epoch, t) && exists p :: SampleAt(md, p, t, smp, num, nearer)
  }

  /** The sample at t interpolated between samples p - 1 and p, which
      bracket t, named as written or after the nearer sample. */
  ghost predicate SampleAt(md: Metadata, p: int, t: real, smp: Sample, num: string -> real, nearer: bool)
    requires WellFormed(md)
  {
    1 <= p < |md.epoch| && md.epoch[p - 1] <= t <= md.epoch[p] &&
    smp == if nearer then SampleNearer(md, p, t, num) else SampleAsWritten(md, p, t, num)
  }

  /** t lies within the first and the last epoch. */
  predicate InRange(e: seq<real>, t: real)
  {
    e != [] && e[0] <= t <= e[|e| - 1]
  }

  /** Entry q of the metadata holds the line: its date, the date's epoch,
      and the next fields under the keys in order. */
  ghost predicate LineRead(md: Metadata, q: nat, line: string, toEpoch: string -> real)
    requires WellFormed(md) && q < |md.date|
  {
    var sl := Split(line, TAB);
    |sl| > |META_DICT_KEYS| && md.date[q] == sl[0] && md.epoch[q] == toEpoch(sl[0]) &&
    forall k :: 0 <= k < |META_DICT_KEYS| ==> md.fields[k][q] == sl[k + 1]
  }

  /** The metadata with one more line appended to every list. */
  function AddLine(md: Metadata, line: string, toEpoch: string -> real): (md': Metadata)
    requires WellFormed(md) && |Split(line, TAB)| > |META_DICT_KEYS|
    ensures WellFormed(md') && |md'.date| == |md.date| + 1
    ensures LineRead(md', |md.date|, line, toEpoch)
    ensures forall q :: 0 <= q < |md.date| ==> md'.date[q] == md.date[q] && md'.epoch[q] == md.epoch[q]
    ensures forall k, q :: 0 <= k < |META_DICT_KEYS| && 0 <= q < |md.date| ==> md'.fields[k][q] == md.fields[k][q]
  {
    var sl := Split(line, TAB);
    Metadata(md.date + [sl[0]], md.epoch + [toEpoch(sl[0])],
             seq(|META_DICT_KEYS|, k requires 0 <= k < |META_DICT_KEYS| => md.fields[k] + [sl[k + 1]]))
  }

  // ---------------------------------------------------------------- class Meta

  class Meta {
    var cursor: int
    var metadata: Option<Metadata>

    ghost predicate Valid()
      reads this
    {
      cursor >= 1 && (metadata.Some? ==> WellFormed(metadata.value))
    }

    /** Meta.__init__: the cursor starts at 1; nothing is read yet. */
    constructor ()
      ensures Valid() && cursor == 1 && metadata.None?
    {
      cursor := 1;
      metadata := None;
    }

    /** get_meta_d over the lines of the open file, date_to_epoch given:
        field 0 of each line is its date, fields 1 to 6 go to the keys in
        order, one entry per line. A line with fewer than seven fields
        raises, and the metadata read before stays. */
    method GetMetaD(lines: seq<string>, toEpoch: string -> real) returns (r: Result<()>)
      requires Valid()
      modifies this
      ensures Valid() && cursor == old(cursor)
      ensures r.Err? <==> exists j :: 0 <= j < |lines| && |Split(lines[j], TAB)| <= |META_DICT_KEYS|
      ensures r.Err? ==> r.error == IndexError && metadata == old(metadata)
      ensures r.Ok? ==>
        metadata.Some? && |metadata.value.date| == |lines| &&
        forall j :: 0 <= j < |lines| ==> LineRead(metadata.value, j, lines[j], toEpoch)
    {
      var md := Metadata([], [], seq(|META_DICT_KEYS|, k => []));
      var j := 0;
      while j < |lines|
        invariant 0 <= j <= |lines|
        invariant forall q :: 0 <= q < j ==> |Split(lines[q], TAB)| > |META_DICT_KEYS|
        invariant WellFormed(md) && |md.date| == j
        invariant forall q :: 0 <= q < j ==> LineRead(md, q, lines[q], toEpoch)
      {
        var sl := Split(lines[j], TAB);
        if |sl| <= |META_DICT_KEYS| {
          return Err(IndexError);
        }
        md := AddLine(md, lines[j], toEpoch);
        j := j + 1;
      }
      metadata := Some(md);
      return Ok(());
    }

    /** The cursor search of get_meta_interp_1: None (the -1 return) for a
        time outside the epochs; otherwise the cursor, reset to 1 when the
        sample before it is later than t, advances until the epoch at it is
        no earlier than t. Epochs run out with an IndexError. */
    method Seek(t: real) returns (r: Result<Option<nat>>)
      requires Valid()
      modifies this
      ensures Valid() && metadata == old(metadata)
      ensures metadata.None? ==> r == Err(AttributeError) && cursor == old(cursor)
      ensures metadata.Some? && metadata.value.epoch == [] ==> r == Err(IndexError) && cursor == old(cursor)
      ensures metadata.Some? && metadata.value.epoch != [] ==>
        var e := metadata.value.epoch;
        ((t < e[0] || t > e[|e| - 1]) ==> r == Ok(None) && cursor == old(cursor)) &&
        (r == Ok(None) ==> t < e[0] || t > e[|e| - 1]) &&
        (r.Ok? && r.value.Some? ==>
          r.value.value == cursor && 1 <= cursor < |e| && e[cursor - 1] <= t <= e[cursor])
      ensures metadata.Some? && old(cursor) <= |metadata.value.epoch| && metadata.value.epoch[old(cursor) - 1] <= t ==>
        old(cursor) <= cursor <= |metadata.value.epoch| &&
        forall q :: old(cursor) <= q < cursor ==> metadata.value.epoch[q] < t
    {
      if metadata.None? {
        return Err(AttributeError);
      }
      var e := metadata.value.epoch;
      if e == [] {
        return Err(IndexError);
      }
      if t < e[0] || t > e[|e| - 1] {
        return Ok(None);
      }
      if cursor - 1 >= |e| {
        return Err(IndexError);
      }
      if e[cursor - 1] > t {
        cursor := 1;
      }
      while cursor < |e| && e[cursor] < t
        invariant 1 <= cursor <= |e| && e[cursor - 1] <= t
        invariant metadata == old(metadata)
        invariant e[old(cursor) - 1] <= t ==>
          old(cursor) <= cursor && forall q :: old(cursor) <= q < cursor ==> e[q] < t
        decreases |e| - cursor
      {
        cursor := cursor + 1;
      }
      if cursor >= |e| {
        return Err(IndexError);
      }
      return Ok(Some(cursor));
    }

    /** get_meta_interp_1 as written: the numeric keys interpolated between
        the bracketing samples, the name taken as the source takes it. */
    method GetMetaInterp1(t: real, num: string -> real) returns (r: Result<Option<Sample>>)
      requires Valid()
      modifies this
      ensures Valid() && metadata == old(metadata)
      ensures metadata.Some? && metadata.value.epoch != [] ==>
        var e := metadata.value.epoch;
        (r.Ok? && r.value.None? <==> t < e[0] || t > e[|e| - 1])
      ensures r.Ok? && r.value.Some? ==>
        metadata.Some? &&
        var e := metadata.value.epoch;
        1 <= cursor < |e| && e[cursor - 1] <= t <= e[cursor] &&
        r.value.value == SampleAsWritten(metadata.value, cursor, t, num)
    {
      var s := Seek(t);
      if s.Err? {
        return Err(s.error);
      }
      if s.value.None? {
        return Ok(None);
      }
      return Ok(Some(SampleAsWritten(metadata.value, cursor, t, num)));
    }

    /** get_meta_interp_1 with the name of the nearer sample. */
    method GetMetaInterp1Nearer(t: real, num: string -> real) returns (r: Result<Option<Sample>>)
      requires Valid()
      modifies this
      ensures Valid() && metadata == old(metadata)
      ensures metadata.Some? && metadata.value.epoch != [] ==>
        var e := metadata.value.epoch;
        (r.Ok? && r.value.None? <==> t < e[0] || t > e[|e| - 1])
      ensures r.Ok? && r.value.Some? ==>
        metadata.Some? &&
        SampleAt(metadata.value, cursor, t, r.value.value, num, true)
    {
      var s := Seek(t);
      if s.Err? {
        return Err(s.error);
      }
      if s.value.None? {
        return Ok(None);
      }
      return Ok(Some(SampleNearer(metadata.value, cursor, t, num)));
    }

    /** One observation time of get_meta_interp: the sample of
        get_meta_interp_1 (as written or with the nearer name), whose -1 for a
        time outside the epochs fails on subscripting. */
    method InterpolateOne(t: real, num: string -> real, nearer: bool) returns (r: Result<Sample>)
      requires Valid()
      modifies this
      ensures Valid() && metadata == old(metadata)
      ensures r.Ok? ==>
        metadata.Some? && InRange(metadata.value.epoch, t) && SampleAt(metadata.value, cursor, t, r.value, num, nearer)
    {
      var s;
      if nearer {
        s := GetMetaInterp1Nearer(t, num);
      } else {
        s := GetMetaInterp1(t, num);
      }
      if s.Err? {
        return Err(s.error);
      }
      if s.value.None? {
        return Err(TypeError);
      }
      return Ok(s.value.value);
    }

    /** get_meta_interp as written: one sample per observation time, in order,
        each bracketed by two consecutive epochs and named by the as-written
        choice of get_meta_interp_1; a time outside the epochs makes the -1 it
        gets back fail on subscripting. */
    method GetMetaInterp(ts: seq<real>, num: string -> real) returns (r: Result<seq<Sample>>)
      requires Valid()
      modifies this
      ensures Valid() && metadata == old(metadata)
      ensures r.Ok? ==> |r.value| == |ts| && (|ts| > 0 ==> metadata.Some?)
      ensures r.Ok? && metadata.Some? ==>
        forall j :: 0 <= j < |ts| ==> InterpolatedAt(metadata.value, ts[j], r.value[j], num, false)
    {
      r := Interpolate(ts, num, false);
    }

    /** get_meta_interp with every sample named after the nearer epoch. */
    method GetMetaInterpNearer(ts: seq<real>, num: string -> real) returns (r: Result<seq<Sample>>)
      requires Valid()
      modifies this
      ensures Valid() && metadata == old(metadata)
      ensures r.Ok? ==> |r.value| == |ts| && (|ts| > 0 ==> metadata.Some?)
      ensures r.Ok? && metadata.Some? ==>
        forall j :: 0 <= j < |ts| ==> InterpolatedAt(metadata.value, ts[j], r.value[j], num, true)
    {
      r := Interpolate(ts, num, true);
    }

    /** The loop of get_meta_interp over the observation times. */
    method Interpolate(ts: seq<real>, num: string -> real, nearer: bool) returns (r: Result<seq<Sample>>)
      requires Valid()
      modifies this
      ensures Valid() && metadata == old(metadata)
      ensures r.Ok? ==> |r.value| == |ts| && (|ts| > 0 ==> metadata.Some?)
      ensures r.Ok? && metadata.Some? ==>
        forall j :: 0 <= j < |ts| ==> InterpolatedAt(metadata.value, ts[j], r.value[j], num, nearer)
    {
      if metadata.None? {
        if ts == [] {
          return Ok([]);
        }
        return Err(AttributeError);
      }
      var md := metadata.value;
      var e := md.epoch;
      var out: seq<Sample> := [];
      ghost var ps: seq<int> := [];
      var j := 0;
      while j < |ts|
        invariant 0 <= j <= |ts| && |out| == j && |ps| == j
        invariant cursor >= 1 && metadata == Some(md)
        invariant forall q :: 0 <= q < j ==> InRange(e, ts[q]) && SampleAt(md, ps[q], ts[q], out[q], num, nearer)
      {
        var s := InterpolateOne(ts[j], num, nearer);
        if s.Err? {
          return Err(s.error);
        }
        out := out + [s.value];
        ps := ps + [cursor];
        j := j + 1;
      }
      forall q | 0 <= q < |ts|
        ensures InterpolatedAt(md, ts[q], out[q], num, nearer)
      {
        assert SampleAt(md, ps[q], ts[q], out[q], num, nearer);
      }
      return Ok(out);
    }
  }
}
