/** The non-graphical parts of bpc/bpcgui.py: the ChoicesVariable that feeds
    the feed and section combo boxes, and the rule that accepts a fit range. */
module BpcGui {
  import opened Base
  import DataDef

  /** A choice key: a given one, or the position of a bare value. */
  datatype ChoiceKey = GivenKey(key: string) | IndexKey(idx: nat)

  /** An element handed to set: a tuple of strings, or a bare value. */
  datatype ChoiceItem = TupleItem(parts: seq<string>) | BareItem(value: string)

  /** A stored choice: the initial (key, value) pair, or a normalised
      (key, value, img) triple. */
  datatype Entry =
    | Pair(key: ChoiceKey, value: string)
    | Triple(key: ChoiceKey, value: string, img: Option<string>)

  /** _normalize_choice: a 2-tuple gets no image, a 3-tuple keeps its third
      part, a bare value is keyed by its position; a tuple of any other
      length fails to unpack. */
  function NormalizeChoice(idx: nat, c: ChoiceItem): (r: Result<Entry>)
    ensures r.Err? <==> c.TupleItem? && |c.parts| != 2 && |c.parts| != 3
    ensures r.Err? ==> r.error == ValueError
    ensures r.Ok? ==> r.value.Triple? && r.value.value == (if c.TupleItem? then c.parts[1] else c.value)
    ensures c.TupleItem? && |c.parts| == 2 ==> r == Ok(Triple(GivenKey(c.parts[0]), c.parts[1], None))
    ensures c.TupleItem? && |c.parts| == 3 ==> r == Ok(Triple(GivenKey(c.parts[0]), c.parts[1], Some(c.parts[2])))
    ensures c.BareItem? ==> r == Ok(Triple(IndexKey(idx), c.value, None))
  {
    match c
    case TupleItem(parts) =>
      if |parts| == 2 then Ok(Triple(GivenKey(parts[0]), parts[1], None))
      else if |parts| == 3 then Ok(Triple(GivenKey(parts[0]), parts[1], Some(parts[2])))
      else Err(ValueError)
    case BareItem(v) => Ok(Triple(IndexKey(idx), v, None))
  }

  /** The normalised list of the first n items, or the first failure. */
  function NormalizedUpTo(cs: seq<ChoiceItem>, n: nat): (r: Result<seq<Entry>>)
    requires n <= |cs|
    ensures r.Ok? ==> |r.value| == n && forall i :: 0 <= i < n ==> Ok(r.value[i]) == NormalizeChoice(i, cs[i])
    ensures r.Err? <==> exists i :: 0 <= i < n && NormalizeChoice(i, cs[i]).Err?
  {
    if n == 0 then Ok([])
    else
      var p := NormalizedUpTo(cs, n - 1);
      if p.Err? then p
      else
        var e := NormalizeChoice(n - 1, cs[n - 1]);
        if e.Err? then Err(e.error) else Ok(p.value + [e.value])
  }

  class ChoicesVariable {
    var choices: seq<Entry>
    var default: ChoiceKey

    /** The initial state: the single choice ("0", "0"), default "0". */
    constructor ()
      ensures choices == [Pair(GivenKey("0"), "0")] && default == GivenKey("0")
    {
      choices := [Pair(GivenKey("0"), "0")];
      default := GivenKey("0");
    }

    /** __call__: the current choices. */
    method Call() returns (r: seq<Entry>)
      ensures r == choices
    {
      r := choices;
    }

    /** set: the normalised choices in input order replace the old ones and
        the first key becomes the default. A failing item leaves everything
        as it was; an empty list empties the choices and then fails on the
        default, which keeps its old value. */
    method Set(cs: seq<ChoiceItem>) returns (r: Result<()>)
      modifies this
      ensures var nz := NormalizedUpTo(cs, |cs|);
        (nz.Err? ==> r == Err(ValueError) && choices == old(choices) && default == old(default)) &&
        (nz.Ok? ==> choices == nz.value) &&
        (nz.Ok? && cs == [] ==> r == Err(IndexError) && default == old(default)) &&
        (nz.Ok? && cs != [] ==> r.Ok? && default == choices[0].key)
    {
      var normalized: seq<Entry> := [];
      var idx := 0;
      while idx < |cs|
        invariant 0 <= idx <= |cs|
        invariant NormalizedUpTo(cs, idx) == Ok(normalized)
      {
        var e := NormalizeChoice(idx, cs[idx]);
        if e.Err? {
          FailureStays(cs, idx + 1);
          return Err(e.error);
        }
        normalized := normalized + [e.value];
        idx := idx + 1;
      }
      choices := normalized;
      if normalized == [] {
        return Err(IndexError);
      }
      default := normalized[0].key;
      return Ok(());
    }
  }

  /** Once an item fails, the whole list fails. */
  lemma {:induction false} FailureStays(cs: seq<ChoiceItem>, n: nat)
    requires 1 <= n <= |cs| && NormalizedUpTo(cs, n).Err?
    ensures NormalizedUpTo(cs, |cs|).Err?
    decreases |cs| - n
  {
    if n < |cs| {
      FailureStays(cs, n + 1);
    }
  }

  /** Bare values are keyed by position, so their keys never clash; set on a
      list of bare values yields exactly their values, keyed 0, 1, 2. */
  lemma BareKeys(cs: seq<ChoiceItem>)
    requires forall i :: 0 <= i < |cs| ==> cs[i].BareItem?
    ensures var nz := NormalizedUpTo(cs, |cs|);
      nz.Ok? && forall i :: 0 <= i < |cs| ==> nz.value[i] == Triple(IndexKey(i), cs[i].value, None)
  {
  }

  // ---------------------------------------------------------------- fit range

  /** The fit range properties_changed accepts: a non-zero last sample below
      the number of samples and above the first, or last sample 0 (the
      whole band) with the first below the number of samples. */
  predicate FitRangeAccepted(frangei: nat, franges: nat, n: nat)
  {
    (franges != 0 && franges < n && frangei < franges) || (franges == 0 && frangei < n)
  }

  /** properties_changed: -1 for a rejected range of an image with samples,
      None when the update goes ahead. */
  function PropertiesChanged(x: Option<seq<real>>, frangei: nat, franges: nat): (r: Option<int>)
    ensures r.Some? <==> x.Some? && !FitRangeAccepted(frangei, franges, |x.value|)
    ensures r.Some? ==> r.value == -1
  {
    if x.Some? && !FitRangeAccepted(frangei, franges, |x.value|) then Some(-1) else None
  }

  /** An accepted range is one get_fit can slice: the fit then fails only as
      the fit itself does on the selected samples, and a successful fit gives
      a correction the length of the band, or twice that when the last sample
      is 0. */
  lemma AcceptedRangeFits(t: DataDef.FitType, f: real -> real, xs: seq<real>, ys: seq<real>,
                          order: int, smooth: int, degree: int, frangei: nat, franges: nat)
    requires |ys| == |xs| && FitRangeAccepted(frangei, franges, |xs|)
    ensures var r := DataDef.GetFit(t, f, xs, ys, order, smooth, degree, frangei, franges);
      var m := if franges == 0 then |xs| - frangei else franges - frangei;
      (r.Ok? <==> DataDef.FitFailure(t, order, smooth, degree, m, m).None?) &&
      (r.Ok? ==> |r.value.corr| == if franges == 0 then 2 * |xs| else |xs|)
  {
    if franges == 0 {
      DataDef.GetFitEndZero(t, f, xs, ys, order, smooth, degree, frangei);
    } else {
      DataDef.GetFitPadding(t, f, xs, ys, order, smooth, degree, frangei, franges);
    }
  }
}
