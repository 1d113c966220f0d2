/** The flag commands of dw/core/commands.py for a FITS file: each command
    object is built and executed at once, so a command is one method of the
    shared DwData object, changing its datasets' handle dictionaries, the
    file's flag table, the correction switch or the automatic-flagging state. */
module Commands {
  import opened Base
  import FitsFlags
  import Sweep
  import RfiDect
  import FlagMerge

  type Mask = FlagMerge.Mask

  // ---------------------------------------------------------------- Command

  datatype CommandKind =
    | OpenCmd | OpenDirCmd | FitFileCmd | ApplyCorrCmd | OpenCorrectionCmd
    | ToggleCorrectionCmd | PropagFlagCmd | PropagToFeedsCmd | CloseCmd
    | NewFlagSetCmd | UpdFlagSetCmd | GetFlagSetsCmd | DelFlagSetCmd
    | DelSelFlagCmd | MergeFlagSetsCmd | ArrayFlagSetCmd | AutoFlagInitCmd
    | AutoFlagComputeCmd

  /** The attributes a subclass sets before it calls Command.__init__. */
  datatype Presets = Presets(undoable: Option<bool>, loggable: Option<bool>, flag: Option<bool>)

  datatype CommandFlags = CommandFlags(isUndoable: bool, isLoggable: bool, isFlag: bool)

  function PresetsOf(k: CommandKind): Presets
  {
    match k
    case OpenCmd | OpenDirCmd | FitFileCmd => Presets(Some(false), None, None)
    case AutoFlagInitCmd | AutoFlagComputeCmd => Presets(None, None, Some(true))
    case _ => Presets(None, None, None)
  }

  /** Command.__init__: an attribute the subclass set is kept, a missing one
      gets its default (undoable, loggable, not a flagging command). */
  function Construct(p: Presets): (f: CommandFlags)
    ensures p.undoable.Some? ==> f.isUndoable == p.undoable.value
    ensures p.loggable.Some? ==> f.isLoggable == p.loggable.value
    ensures p.flag.Some? ==> f.isFlag == p.flag.value
    ensures p.undoable.None? ==> f.isUndoable
    ensures p.loggable.None? ==> f.isLoggable
    ensures p.flag.None? ==> !f.isFlag
  {
    CommandFlags(
      if p.undoable.Some? then p.undoable.value else true,
      if p.loggable.Some? then p.loggable.value else true,
      if p.flag.Some? then p.flag.value else false)
  }

  /** Every command is logged; only the opening commands cannot be undone and
      only the two automatic-flagging commands are flagging commands. */
  lemma CommandDefaults(k: CommandKind)
    ensures Construct(PresetsOf(k)).isLoggable
    ensures !Construct(PresetsOf(k)).isUndoable <==> k == OpenCmd || k == OpenDirCmd || k == FitFileCmd
    ensures Construct(PresetsOf(k)).isFlag <==> k == AutoFlagInitCmd || k == AutoFlagComputeCmd
  {
  }

  // ---------------------------------------------------------------- state

  /** A key of a dataset's flagsets dictionary: the extension name that
      new_flagset returns, or one of the keys get_flagsets builds. */
  datatype Key = TableKey | SetKey(id: FitsFlags.FlagsetId)

  /** A flag-set handle. get_flagsets makes [fileh, flag table, nop], whose
      table is the one the file holds when the handle is used; new_flagset
      returns the table data itself. */
  datatype Handle = OpHandle(nop: int) | TableHandle(entries: seq<FitsFlags.FlagRow>)

  /** The fields of a DwDataSet the flag commands use. */
  datatype Dataset = Dataset(
    nSamples: nat,
    nChannels: nat,
    feedSection: Option<(int, int)>,
    flagsets: map<Key, Handle>,
    flagsetsRif: map<FitsFlags.FlagsetId, FitsFlags.Rif>)

  /** The position list[i] refers to. */
  function Slot(n: nat, i: int): int
  {
    if i < 0 then n + i else i
  }

  lemma SlotInRange<T>(s: seq<T>, i: int)
    requires PyIndex(s, i).Ok?
    ensures 0 <= Slot(|s|, i) < |s| && PyIndex(s, i).value == s[Slot(|s|, i)]
  {
  }

  /** The handle's operation number, its third element. Indexing the table data
      new_flagset stores reads its records, so fewer than three raise IndexError. */
  function HandleNop(h: Handle): (r: Result<int>)
    ensures h.OpHandle? ==> r == Ok(h.nop)
    ensures h.TableHandle? ==> r == Err(if |h.entries| < 3 then IndexError else TypeError)
  {
    match h
    case OpHandle(n) => Ok(n)
    case TableHandle(e) => if |e| < 3 then Err(IndexError) else Err(TypeError)
  }

  /** The handle dictionary GetFlagSetsCommand stores. */
  function Handles(m: map<FitsFlags.FlagsetId, int>): (h: map<Key, Handle>)
    ensures TableKey !in h
    ensures forall id :: SetKey(id) in h <==> id in m
    ensures forall id :: id in m ==> h[SetKey(id)] == OpHandle(m[id])
  {
    map id | id in m :: SetKey(id) := OpHandle(m[id])
  }

  /** The DwData object of dw/core/data_def.py with a FITS file open: the
      file's flag table, the datasets, the correction file and switch, and
      the automatic-flagging state. */
  class DwData {
    var flagTable: Option<FitsFlags.FlagTable>
    var datasets: seq<Dataset>
    var corrFile: Option<string>
    var correction: bool
    var selectedAlg: RfiDect.Algorithm?
    var workingDataset: Option<int>
    var lastFlagList: Option<seq<RfiDect.AutoFlagSet>>

    /** DwData.__init__ followed by opening a file with the given flag table
        and datasets: no correction file, correction off, no algorithm. */
    constructor (t: Option<FitsFlags.FlagTable>, ds: seq<Dataset>)
      ensures flagTable == t && datasets == ds
      ensures corrFile.None? && !correction && selectedAlg == null && workingDataset.None? && lastFlagList.None?
    {
      flagTable := t;
      datasets := ds;
      corrFile := None;
      correction := false;
      selectedAlg := null;
      workingDataset := None;
      lastFlagList := None;
    }

    /** Everything but the flag table and the datasets. */
    function Session(): (Option<string>, bool, RfiDect.Algorithm?, Option<int>, Option<seq<RfiDect.AutoFlagSet>>)
      reads this
    {
      (corrFile, correction, selectedAlg, workingDataset, lastFlagList)
    }

    // ------------------------------------------------------------ NewFlagSetCommand

    /** new_flagset on the dataset's shape with algorithm "Manual", the result
        stored in the dataset's flagsets under the returned key. Without areas
        new_flagset fails on len(None), after creating a table that was missing. */
    method NewFlagSet(i: int, areas: Option<seq<FitsFlags.Rect>>, feed: Option<string>,
                      section: Option<string>, pola: Option<string>) returns (r: Result<()>)
      modifies this
      ensures Session() == old(Session())
      ensures PyIndex(old(datasets), i).Err? ==>
        r == Err(IndexError) && flagTable == old(flagTable) && datasets == old(datasets)
      ensures PyIndex(old(datasets), i).Ok? && areas.None? ==>
        var ds := PyIndex(old(datasets), i).value;
        r == Err(TypeError) && datasets == old(datasets) &&
        flagTable == Some(if old(flagTable).Some? then old(flagTable).value else FitsFlags.FlagTable(ds.nSamples, ds.nChannels, []))
      ensures PyIndex(old(datasets), i).Ok? && areas.Some? ==>
        var ds := PyIndex(old(datasets), i).value;
        var res := FitsFlags.NewFlagset(old(flagTable), ds.nSamples, ds.nChannels, areas.value, feed, section, pola,
                                        Some("Manual"), FitsFlags.NoParams, None);
        r.Ok? && res.0 == FitsFlags.TABLE_NAME && flagTable == Some(res.1) &&
        datasets == old(datasets)[Slot(|old(datasets)|, i) := ds.(flagsets := ds.flagsets[TableKey := TableHandle(res.1.entries)])]
    {
      var dsr := PyIndex(datasets, i);
      if dsr.Err? {
        return Err(IndexError);
      }
      var ds := dsr.value;
      if areas.None? {
        if flagTable.None? {
          flagTable := Some(FitsFlags.FlagTable(ds.nSamples, ds.nChannels, []));
        }
        return Err(TypeError);
      }
      var res := FitsFlags.NewFlagset(flagTable, ds.nSamples, ds.nChannels, areas.value, feed, section, pola,
                                      Some("Manual"), FitsFlags.NoParams, None);
      flagTable := Some(res.1);
      datasets := datasets[Slot(|datasets|, i) := ds.(flagsets := ds.flagsets[TableKey := TableHandle(res.1.entries)])];
      return Ok(());
    }

    // ------------------------------------------------------------ UpdFlagSetCommand

    /** upd_flagset of the FITS backend does nothing; only the lookups of the
        dataset and of the handle can fail. */
    method UpdFlagSet(i: int, k: Key, areas: seq<FitsFlags.Rect>, value: int) returns (r: Result<()>)
      ensures PyIndex(datasets, i).Err? ==> r == Err(IndexError)
      ensures PyIndex(datasets, i).Ok? ==> (r.Ok? <==> k in PyIndex(datasets, i).value.flagsets)
      ensures PyIndex(datasets, i).Ok? && r.Err? ==> r.error == KeyError
    {
      var dsr := PyIndex(datasets, i);
      if dsr.Err? {
        return Err(IndexError);
      }
      if k !in dsr.value.flagsets {
        return Err(KeyError);
      }
      return Ok(());
    }

    // ------------------------------------------------------------ GetFlagSetsCommand

    /** The dataset's flagsets and flagsets_rif become the two dictionaries of
        get_flagsets; the entry new_flagset stored is dropped with the rest. */
    method GetFlagSets(i: int) returns (r: Result<()>)
      modifies this
      ensures Session() == old(Session()) && flagTable == old(flagTable)
      ensures PyIndex(old(datasets), i).Err? ==> r == Err(IndexError) && datasets == old(datasets)
      ensures PyIndex(old(datasets), i).Ok? ==>
        var ds := PyIndex(old(datasets), i).value;
        var g := FitsFlags.GetFlagsets(flagTable, ds.feedSection);
        (g.Err? ==> r == Err(g.error) && datasets == old(datasets)) &&
        (g.Ok? ==> r.Ok? && datasets == old(datasets)[Slot(|old(datasets)|, i) :=
                     ds.(flagsets := Handles(g.value.0), flagsetsRif := g.value.1)])
    {
      var dsr := PyIndex(datasets, i);
      if dsr.Err? {
        return Err(IndexError);
      }
      var ds := dsr.value;
      var g := FitsFlags.GetFlagsets(flagTable, ds.feedSection);
      if g.Err? {
        return Err(g.error);
      }
      datasets := datasets[Slot(|datasets|, i) := ds.(flagsets := Handles(g.value.0), flagsetsRif := g.value.1)];
      return Ok(());
    }

    // ------------------------------------------------------------ DelFlagSetCommand

    /** del_table with the handle's operation number. */
    method DelFlagSet(i: int, k: Key) returns (r: Result<()>)
      modifies this
      ensures Session() == old(Session()) && datasets == old(datasets)
      ensures r.Err? ==> flagTable == old(flagTable)
      ensures r.Ok? <==> (PyIndex(datasets, i).Ok? && k in PyIndex(datasets, i).value.flagsets &&
        old(flagTable).Some? && PyIndex(datasets, i).value.flagsets[k].OpHandle?)
      ensures r.Ok? ==>
        var n := PyIndex(datasets, i).value.flagsets[k].nop;
        flagTable == Some(old(flagTable).value.(entries := FitsFlags.DelTableRows(old(flagTable).value.entries, n)))
    {
      var dsr := PyIndex(datasets, i);
      if dsr.Err? {
        return Err(IndexError);
      }
      if k !in dsr.value.flagsets {
        return Err(KeyError);
      }
      if flagTable.None? {
        return Err(KeyError);
      }
      var n := HandleNop(dsr.value.flagsets[k]);
      if n.Err? {
        return Err(n.error);
      }
      var t := FitsFlags.DelTable(flagTable, n.value);
      flagTable := Some(t.value);
      return Ok(());
    }

    // ------------------------------------------------------------ DelSelFlagCommand

    /** del_sel_flags with the dataset's feed and section. */
    method DelSelFlag(i: int, rect: FitsFlags.Rect, pola: string) returns (r: Result<()>)
      modifies this
      ensures Session() == old(Session()) && datasets == old(datasets)
      ensures r.Err? ==> flagTable == old(flagTable)
      ensures PyIndex(datasets, i).Err? ==> r == Err(IndexError)
      ensures PyIndex(datasets, i).Ok? && PyIndex(datasets, i).value.feedSection.None? ==> r == Err(TypeError)
      ensures PyIndex(datasets, i).Ok? && PyIndex(datasets, i).value.feedSection.Some? ==>
        var fs := PyIndex(datasets, i).value.feedSection.value;
        var d := FitsFlags.DelSelFlags(old(flagTable), IntToString(fs.0), IntToString(fs.1), pola, rect);
        (d.Err? ==> r == Err(d.error)) && (d.Ok? ==> r.Ok? && flagTable == Some(d.value))
    {
      var dsr := PyIndex(datasets, i);
      if dsr.Err? {
        return Err(IndexError);
      }
      var fs := dsr.value.feedSection;
      if fs.None? {
        return Err(TypeError);
      }
      var d := FitsFlags.DelSelFlags(flagTable, IntToString(fs.value.0), IntToString(fs.value.1), pola, rect);
      if d.Err? {
        return Err(d.error);
      }
      flagTable := Some(d.value);
      return Ok(());
    }

    // ------------------------------------------------------------ MergeFlagSetsCommand

    /** MergeFlagSetsCommand as written: read every selected mask, OR them,
        call del_table on each selected handle in key order, each with the
        operation number the handle held before the loop, then write the merged
        mask as a new flag set with no feed, section, polarisation, algorithm,
        parameters or result. Every failure comes before the first deletion, so
        a failed merge changes nothing. */
    method MergeFlagSets(i: int, keys: seq<Key>) returns (r: Result<()>)
      modifies this
      ensures Session() == old(Session()) && datasets == old(datasets)
      ensures var m := MergeOutcome(old(flagTable), PyIndex(datasets, i), keys, false);
        (m.Err? ==> r == Err(m.error) && flagTable == old(flagTable)) &&
        (m.Ok? ==> r.Ok? && flagTable == Some(m.value))
    {
      r := Merge(i, keys, false);
    }

    /** The merge with the deletions it evidently intends: each selected
        operation once, from the highest number down, so that no deletion
        renumbers one still to come. */
    method MergeFlagSetsCorrected(i: int, keys: seq<Key>) returns (r: Result<()>)
      modifies this
      ensures Session() == old(Session()) && datasets == old(datasets)
      ensures var m := MergeOutcome(old(flagTable), PyIndex(datasets, i), keys, true);
        (m.Err? ==> r == Err(m.error) && flagTable == old(flagTable)) &&
        (m.Ok? ==> r.Ok? && flagTable == Some(m.value))
    {
      r := Merge(i, keys, true);
    }

    /** The merge, with the deletion loop as written or as intended. */
    method Merge(i: int, keys: seq<Key>, intended: bool) returns (r: Result<()>)
      modifies this
      ensures Session() == old(Session()) && datasets == old(datasets)
      ensures var m := MergeOutcome(old(flagTable), PyIndex(datasets, i), keys, intended);
        (m.Err? ==> r == Err(m.error) && flagTable == old(flagTable)) &&
        (m.Ok? ==> r.Ok? && flagTable == Some(m.value))
    {
      if keys == [] {
        return Err(TypeError);
      }
      var dsr := PyIndex(datasets, i);
      if dsr.Err? {
        return Err(IndexError);
      }
      var masks: seq<Mask> := [];
      var k := 0;
      while k < |keys|
        invariant 0 <= k <= |keys|
        invariant MaskList(flagTable, dsr.value.flagsets, keys[..k]) == Ok(masks)
      {
        assert keys[..k + 1][..k] == keys[..k];
        var fl := dsr.value.flagsets;
        if keys[k] !in fl {
          MaskListErrStays(flagTable, fl, keys, k + 1);
          return Err(KeyError);
        }
        var m := HandleMask(flagTable, fl[keys[k]]);
        if m.Err? {
          MaskListErrStays(flagTable, fl, keys, k + 1);
          return Err(m.error);
        }
        masks := masks + [m.value];
        k := k + 1;
      }
      assert keys[..|keys|] == keys;
      var t := flagTable.value;
      var merged := FlagMerge.Positive(FlagMerge.SumMasks(masks, t.rows, t.columns));
      var es;
      if intended {
        es := DeleteAll(t.entries, dsr.value.flagsets, keys);
      } else {
        es := DeleteInKeyOrder(t.entries, dsr.value.flagsets, keys);
      }
      var rects := Sweep.Sweep(merged, t.columns);
      var res := FitsFlags.NewFlagset(Some(t.(entries := es)), dsr.value.nSamples, dsr.value.nChannels, rects,
                                      None, None, None, None, FitsFlags.NoParams, None);
      flagTable := Some(res.1);
      return Ok(());
    }

    // ------------------------------------------------------------ ArrayFlagSetCommand

    /** One new_flagset_from_array per array, in list order, each with that
        array's feed, section, polarisation, algorithm, parameters and result.
        The dataset is looked up in the loop, so an empty list touches nothing. */
    method ArrayFlagSet(i: int, arrays: seq<FlagArray>) returns (r: Result<()>)
      requires WellShaped(arrays)
      modifies this
      ensures Session() == old(Session()) && datasets == old(datasets)
      ensures r.Err? <==> arrays != [] && PyIndex(datasets, i).Err?
      ensures r.Err? ==> r.error == IndexError && flagTable == old(flagTable)
      ensures r.Ok? && arrays == [] ==> flagTable == old(flagTable)
      ensures r.Ok? && arrays != [] ==>
        flagTable == SaveArrays(old(flagTable), PyIndex(datasets, i).value.nSamples, PyIndex(datasets, i).value.nChannels, arrays)
    {
      if arrays == [] {
        return Ok(());
      }
      var dsr := PyIndex(datasets, i);
      if dsr.Err? {
        return Err(IndexError);
      }
      flagTable := SaveAll(flagTable, dsr.value.nSamples, dsr.value.nChannels, arrays);
      return Ok(());
    }

    // ------------------------------------------------------------ AutoFlagComputeCommand

    /** last_flag_list is cleared, the selected algorithm (SimpleThreshold)
        gets set_output when labels are given, then compute; every result gets
        the working dataset's feed and section and is either saved as flag sets
        or kept in last_flag_list. */
    method AutoFlagCompute(outLabels: Option<seq<string>>, save: bool, data: seq<seq<seq<real>>>,
                           med: seq<real>, rms: seq<real>, show: FloatPrinters)
      returns (r: Result<()>)
      requires selectedAlg != null ==> selectedAlg.Valid() && selectedAlg.kind == RfiDect.SimpleThreshold
      requires selectedAlg != null ==> forall p :: 0 <= p < |data| ==> IsMatrix(data[p], selectedAlg.cols)
      requires |med| == |data| && |rms| == |data|
      modifies this, selectedAlg
      ensures selectedAlg == old(selectedAlg) && datasets == old(datasets) && workingDataset == old(workingDataset)
      ensures corrFile == old(corrFile) && correction == old(correction)
      ensures old(selectedAlg) == null ==> r == Err(AttributeError)
      ensures r.Err? ==> flagTable == old(flagTable) && lastFlagList.None?
      ensures selectedAlg != null ==> (selectedAlg.Valid() &&
        selectedAlg.params == old(selectedAlg.params) && selectedAlg.attrs == old(selectedAlg.attrs))
      ensures selectedAlg != null && RfiDect.BoundCheck(old(selectedAlg.ThresholdParam())).Err? ==>
        r == Err(RfiDect.BoundCheck(old(selectedAlg.ThresholdParam())).error)
      ensures r.Ok? ==> selectedAlg != null
      ensures r.Ok? ==> Selected(selectedAlg.flagResults, outLabels, selectedAlg.availOutputs, old(selectedAlg.flagResults))
      ensures r.Ok? ==> Computed(selectedAlg.flagResults, data, med, rms, RfiDect.BoundCheck(old(selectedAlg.ThresholdParam())))
      ensures r.Ok? && selectedAlg.flagResults != [] ==> (WorkingFeedSection(datasets, workingDataset).Some? &&
        TaggedWith(selectedAlg.flagResults, WorkingFeedSection(datasets, workingDataset).value))
      ensures r.Ok? ==> WellShaped(ArraysOf(Values(selectedAlg.flagResults), selectedAlg.params, show, selectedAlg.cols))
      ensures r.Ok? && !save ==> lastFlagList == Some(Values(selectedAlg.flagResults)) && flagTable == old(flagTable)
      ensures r.Ok? && save ==> lastFlagList.None?
      ensures r.Ok? && save && selectedAlg.flagResults == [] ==> flagTable == old(flagTable)
      ensures r.Ok? && save && selectedAlg.flagResults != [] ==>
        var ds := PyIndex(datasets, workingDataset.value).value;
        flagTable == SaveArrays(old(flagTable), ds.nSamples, ds.nChannels,
                                ArraysOf(Values(selectedAlg.flagResults), selectedAlg.params, show, selectedAlg.cols))
    {
      lastFlagList := None;
      var alg := selectedAlg;
      if alg == null {
        return Err(AttributeError);
      }
      var c := RunThreshold(alg, outLabels, data, med, rms);
      if c.Err? {
        return c;
      }
      ghost var computed := alg.flagResults;
      var t := TagAll(alg, datasets, workingDataset);
      if t.Err? {
        return t;
      }
      if computed != [] {
        TaggedKeeps(computed, WorkingFeedSection(datasets, workingDataset).value, data, med, rms,
                    RfiDect.BoundCheck(old(selectedAlg.ThresholdParam())), alg.cols);
      }
      var flags := Values(alg.flagResults);
      ArraysShaped(flags, alg.params, show, alg.cols);
      if save {
        var w := if workingDataset.Some? then workingDataset.value else 0;
        r := ArrayFlagSet(w, ArraysOf(flags, alg.params, show, alg.cols));
      } else {
        lastFlagList := Some(flags);
        r := Ok(());
      }
    }


    // ------------------------------------------------------------ PropagToFeeds

    /** propag_to_feed for each target feed, in order, with the operation
        number of the handle. */
    method PropagToFeeds(i: int, k: Key, feeds: seq<string>) returns (r: Result<()>)
      modifies this
      ensures Session() == old(Session()) && datasets == old(datasets)
      ensures r.Err? ==> flagTable == old(flagTable)
      ensures PyIndex(datasets, i).Err? ==> r == Err(IndexError)
      ensures PyIndex(datasets, i).Ok? && k !in PyIndex(datasets, i).value.flagsets ==> r == Err(KeyError)
      ensures PyIndex(datasets, i).Ok? && k in PyIndex(datasets, i).value.flagsets ==>
        var n := HandleNop(PyIndex(datasets, i).value.flagsets[k]);
        (n.Err? ==> r == Err(n.error)) &&
        (n.Ok? && feeds == [] ==> r.Ok? && flagTable == old(flagTable)) &&
        (n.Ok? && feeds != [] && old(flagTable).None? ==> r == Err(KeyError)) &&
        (n.Ok? && feeds != [] && old(flagTable).Some? ==>
          var p := PropagFeeds(old(flagTable).value, n.value, feeds);
          (p.Err? ==> r == Err(p.error)) && (p.Ok? ==> r.Ok? && flagTable == Some(p.value)))
    {
      var dsr := PyIndex(datasets, i);
      if dsr.Err? {
        return Err(IndexError);
      }
      if k !in dsr.value.flagsets {
        return Err(KeyError);
      }
      var n := HandleNop(dsr.value.flagsets[k]);
      if n.Err? {
        return Err(n.error);
      }
      if feeds == [] {
        return Ok(());
      }
      if flagTable.None? {
        return Err(KeyError);
      }
      var p := PropagAll(flagTable.value, n.value, feeds);
      if p.Err? {
        return Err(p.error);
      }
      flagTable := Some(p.value);
      return Ok(());
    }

    // ------------------------------------------------------------ ToggleCorrection

    /** ToggleCorrection as written: flip the correction switch. The guard
        raises only when the data object has no cfileh attribute at all, and
        DWData.__init__ always binds it, to None until a correction file is
        opened, so the switch flips with or without a correction file. */
    method ToggleCorrection() returns (r: Result<()>)
      modifies this
      ensures flagTable == old(flagTable) && datasets == old(datasets) && corrFile == old(corrFile)
      ensures selectedAlg == old(selectedAlg) && workingDataset == old(workingDataset) && lastFlagList == old(lastFlagList)
      ensures r.Ok? && correction == Toggled(old(correction))
    {
      correction := Toggled(correction);
      return Ok(());
    }

    /** The toggle as its error message means it: without a correction file it
        is refused. */
    method ToggleCorrectionCorrected() returns (r: Result<()>)
      modifies this
      ensures flagTable == old(flagTable) && datasets == old(datasets) && corrFile == old(corrFile)
      ensures selectedAlg == old(selectedAlg) && workingDataset == old(workingDataset) && lastFlagList == old(lastFlagList)
      ensures old(corrFile).None? ==> r == Err(IOError) && correction == old(correction)
      ensures old(corrFile).Some? ==> r.Ok? && correction == Toggled(old(correction))
    {
      if corrFile.None? {
        return Err(IOError);
      }
      correction := Toggled(correction);
      return Ok(());
    }
  }

  // ---------------------------------------------------------------- merge

  /** gen_flag_table for operation n. */
  function OpMask(t: FitsFlags.FlagTable, n: int): (m: Mask)
    ensures |m| == t.rows && IsMatrix(m, t.columns)
  {
    seq(t.rows, i requires 0 <= i < t.rows =>
      seq(t.columns, j requires 0 <= j < t.columns =>
        if FitsFlags.Flagged(t, FitsFlags.ByNop(n), i, j) then FLAG_TRUE else FLAG_FALSE))
  }

  /** get_data on a handle: the mask of its operation in the current table. On
      the table data new_flagset stores, table[1] is its second record, which
      raises IndexError for fewer than two and has no .data attribute otherwise. */
  function HandleMask(t: Option<FitsFlags.FlagTable>, h: Handle): (r: Result<Mask>)
    ensures h.TableHandle? ==> r == Err(if |h.entries| < 2 then IndexError else AttributeError)
    ensures h.OpHandle? ==> (r.Ok? <==> t.Some?)
    ensures h.OpHandle? && t.Some? ==> r == Ok(OpMask(t.value, h.nop))
  {
    match h
    case TableHandle(e) => if |e| < 2 then Err(IndexError) else Err(AttributeError)
    case OpHandle(n) => if t.None? then Err(KeyError) else Ok(OpMask(t.value, n))
  }

  /** The first loop of the merge: the masks of the keys in order. */
  function MaskList(t: Option<FitsFlags.FlagTable>, fl: map<Key, Handle>, keys: seq<Key>): (r: Result<seq<Mask>>)
    ensures r.Ok? ==> |r.value| == |keys|
    ensures r.Ok? ==> forall k :: 0 <= k < |keys| ==>
      keys[k] in fl && fl[keys[k]].OpHandle? && t.Some? && r.value[k] == OpMask(t.value, fl[keys[k]].nop)
    ensures r.Err? ==> exists k :: 0 <= k < |keys| && (keys[k] !in fl || HandleMask(t, fl[keys[k]]).Err?)
  {
    if keys == [] then Ok([])
    else
      var r := MaskList(t, fl, keys[..|keys| - 1]);
      var k := keys[|keys| - 1];
      if r.Err? then r
      else if k !in fl then Err(KeyError)
      else
        var m := HandleMask(t, fl[k]);
        if m.Err? then Err(m.error) else Ok(r.value + [m.value])
  }

  /** The first failing key ends the loop. */
  lemma {:induction false} MaskListErrStays(t: Option<FitsFlags.FlagTable>, fl: map<Key, Handle>, keys: seq<Key>, m: nat)
    requires m <= |keys| && MaskList(t, fl, keys[..m]).Err?
    ensures MaskList(t, fl, keys) == MaskList(t, fl, keys[..m])
    decreases |keys| - m
  {
    if m < |keys| {
      assert keys[..m + 1][..m] == keys[..m];
      MaskListErrStays(t, fl, keys, m + 1);
    } else {
      assert keys[..m] == keys;
    }
  }

  /** The operation numbers the handles of the keys hold. */
  function Nops(fl: map<Key, Handle>, keys: seq<Key>): (ns: seq<int>)
    requires forall k :: 0 <= k < |keys| ==> keys[k] in fl && fl[keys[k]].OpHandle?
    ensures |ns| == |keys| && forall k :: 0 <= k < |keys| ==> ns[k] == fl[keys[k]].nop
  {
    seq(|keys|, k requires 0 <= k < |keys| => fl[keys[k]].nop)
  }

  /** The records the deletion loop of the merge leaves: as written, del_table
      with each handle's number in key order; as intended, each selected
      operation once from the highest number down. */
  function MergeKept(es: seq<FitsFlags.FlagRow>, ns: seq<int>, intended: bool): seq<FitsFlags.FlagRow>
  {
    if intended then FlagMerge.MergeDeletes(es, ns) else FlagMerge.DeleteInTurn(es, ns)
  }

  /** MergeFlagSetsCommand on values: the new flag table, or the error. */
  function MergeOutcome(t: Option<FitsFlags.FlagTable>, dsr: Result<Dataset>, keys: seq<Key>, intended: bool)
    : Result<FitsFlags.FlagTable>
  {
    if keys == [] then Err(TypeError)
    else if dsr.Err? then Err(IndexError)
    else
      var fl := dsr.value.flagsets;
      var ms := MaskList(t, fl, keys);
      if ms.Err? then Err(ms.error)
      else
        var tv := t.value;
        var merged := FlagMerge.Positive(FlagMerge.SumMasks(ms.value, tv.rows, tv.columns));
        var kept := tv.(entries := MergeKept(tv.entries, Nops(fl, keys), intended));
        Ok(FitsFlags.NewFlagset(Some(kept), dsr.value.nSamples, dsr.value.nChannels, Sweep.SweepSpec(merged, tv.columns),
                                None, None, None, None, FitsFlags.NoParams, None).1)
  }

  /** The second loop of the merge as written: del_table on each selected
      handle in key order, with the number the handle holds. */
  method DeleteInKeyOrder(es: seq<FitsFlags.FlagRow>, fl: map<Key, Handle>, keys: seq<Key>) returns (out: seq<FitsFlags.FlagRow>)
    requires forall k :: 0 <= k < |keys| ==> keys[k] in fl && fl[keys[k]].OpHandle?
    ensures out == FlagMerge.DeleteInTurn(es, Nops(fl, keys))
  {
    var ns := Nops(fl, keys);
    out := es;
    var k := 0;
    while k < |keys|
      invariant 0 <= k <= |keys|
      invariant out == FlagMerge.DeleteInTurn(es, ns[..k])
    {
      var n := HandleNop(fl[keys[k]]);
      var t := FitsFlags.DelTable(Some(FitsFlags.FlagTable(0, 0, out)), n.value);
      assert ns[..k + 1][..k] == ns[..k];
      out := t.value.entries;
      k := k + 1;
    }
    assert ns[..k] == ns;
  }

  /** The second loop of the merge as intended: del_table for each selected
      operation, from the highest number down and each number once. */
  method DeleteAll(es: seq<FitsFlags.FlagRow>, fl: map<Key, Handle>, keys: seq<Key>) returns (out: seq<FitsFlags.FlagRow>)
    requires forall k :: 0 <= k < |keys| ==> keys[k] in fl && fl[keys[k]].OpHandle?
    ensures out == FlagMerge.MergeDeletes(es, Nops(fl, keys))
  {
    var order := FlagMerge.SortDesc(FitsFlags.Distinct(Nops(fl, keys)));
    out := es;
    var k := 0;
    while k < |order|
      invariant 0 <= k <= |order|
      invariant out == FlagMerge.DeleteInTurn(es, order[..k])
    {
      var t := FitsFlags.DelTable(Some(FitsFlags.FlagTable(0, 0, out)), order[k]);
      assert order[..k + 1][..k] == order[..k];
      out := t.value.entries;
      k := k + 1;
    }
    assert order[..k] == order;
  }

  /** What the finding on the merge comes to with the handles of operations
      2 and 3 out of 1..4: deleting with the numbers the handles hold, in key
      order, as the command is written, keeps operation 3 (renumbered 2) and
      deletes operation 4; the deletion this model uses keeps exactly the
      unselected operations 1 and 4. */
  lemma MergeAsWrittenDiffers(a: FitsFlags.FlagRow, b: FitsFlags.FlagRow, c: FitsFlags.FlagRow, d: FitsFlags.FlagRow,
                              fl: map<Key, Handle>, k2: Key, k3: Key)
    requires a.nop == 1 && b.nop == 2 && c.nop == 3 && d.nop == 4
    requires k2 in fl && k3 in fl && fl[k2] == OpHandle(2) && fl[k3] == OpHandle(3)
    ensures FlagMerge.DeleteInTurn([a, b, c, d], Nops(fl, [k2, k3])) == [a, c.(nop := 2)]
    ensures FlagMerge.MergeDeletes([a, b, c, d], Nops(fl, [k2, k3])) == [a, d.(nop := 2)]
  {
    assert Nops(fl, [k2, k3]) == [2, 3];
    FlagMerge.StaleNopDeletesWrongSet(a, b, c, d);
    FlagMerge.CorrectedKeepsUnselected(a, b, c, d);
  }

  /** A merged cell is set exactly when one of the merged operations flags it
      in the table as it was before the merge, and it is always 0 or 1. */
  lemma MergedMaskIsUnion(t: FitsFlags.FlagTable, fl: map<Key, Handle>, keys: seq<Key>, i: nat, j: nat)
    requires MaskList(Some(t), fl, keys).Ok? && i < t.rows && j < t.columns
    ensures var m := FlagMerge.Positive(FlagMerge.SumMasks(MaskList(Some(t), fl, keys).value, t.rows, t.columns));
      (m[i][j] == FLAG_TRUE <==> exists k :: 0 <= k < |keys| && keys[k] in fl && fl[keys[k]].OpHandle? &&
                                  FitsFlags.Flagged(t, FitsFlags.ByNop(fl[keys[k]].nop), i, j)) &&
      (m[i][j] == FLAG_TRUE || m[i][j] == FLAG_FALSE)
  {
    var ms := MaskList(Some(t), fl, keys).value;
    assert FlagMerge.NonNegative(ms);
    FlagMerge.MergeIsOr(ms, t.rows, t.columns, i, j);
    if exists k :: 0 <= k < |ms| && i < |ms[k]| && j < |ms[k][i]| && ms[k][i][j] > 0 {
      var k :| 0 <= k < |ms| && i < |ms[k]| && j < |ms[k][i]| && ms[k][i][j] > 0;
      assert FitsFlags.Flagged(t, FitsFlags.ByNop(fl[keys[k]].nop), i, j);
    }
    if exists k :: 0 <= k < |keys| && keys[k] in fl && fl[keys[k]].OpHandle? &&
                   FitsFlags.Flagged(t, FitsFlags.ByNop(fl[keys[k]].nop), i, j) {
      var k :| 0 <= k < |keys| && keys[k] in fl && fl[keys[k]].OpHandle? &&
               FitsFlags.Flagged(t, FitsFlags.ByNop(fl[keys[k]].nop), i, j);
      assert ms[k][i][j] > 0;
    }
  }

  /** The merged flag set is written after every deletion: the table left by
      the deletions is kept as it is, and each new record carries the next
      operation number, "None" in the five text fields the merge leaves unset,
      an empty params text, and a rectangle of merged cells. */
  lemma MergeWritesAfterDeleting(t: FitsFlags.FlagTable, ds: Dataset, keys: seq<Key>, intended: bool)
    requires MergeOutcome(Some(t), Ok(ds), keys, intended).Ok?
    ensures keys != [] && MaskList(Some(t), ds.flagsets, keys).Ok?
    ensures var ms := MaskList(Some(t), ds.flagsets, keys).value;
      var kept := MergeKept(t.entries, Nops(ds.flagsets, keys), intended);
      var merged := FlagMerge.Positive(FlagMerge.SumMasks(ms, t.rows, t.columns));
      var out := MergeOutcome(Some(t), Ok(ds), keys, intended).value;
      IsMatrix(merged, t.columns) &&
      out.rows == t.rows && out.columns == t.columns &&
      |out.entries| >= |kept| && out.entries[..|kept|] == kept &&
      forall q :: |kept| <= q < |out.entries| ==>
        out.entries[q].nop == FitsFlags.LastNop(Some(t.(entries := kept))) + 1 &&
        out.entries[q].algorithm == FitsFlags.NONE_TEXT && out.entries[q].params == "" && out.entries[q].flagresult == FitsFlags.NONE_TEXT &&
        out.entries[q].feed == FitsFlags.NONE_TEXT && out.entries[q].section == FitsFlags.NONE_TEXT && out.entries[q].pola == FitsFlags.NONE_TEXT &&
        Sweep.SoundRect(merged, t.columns, out.entries[q].rect)
  {
    var ms := MaskList(Some(t), ds.flagsets, keys).value;
    var kept := t.(entries := MergeKept(t.entries, Nops(ds.flagsets, keys), intended));
    var merged := FlagMerge.Positive(FlagMerge.SumMasks(ms, t.rows, t.columns));
    var rects := Sweep.SweepSpec(merged, t.columns);
    assert Sweep.Binary(merged);
    Sweep.SweepSound(merged, t.columns);
    var out := MergeOutcome(Some(t), Ok(ds), keys, intended).value;
    assert out == FitsFlags.NewFlagset(Some(kept), ds.nSamples, ds.nChannels, rects, None, None, None, None, FitsFlags.NoParams, None).1;
    forall q | |kept.entries| <= q < |out.entries|
      ensures out.entries[q].nop == FitsFlags.LastNop(Some(kept)) + 1
      ensures out.entries[q].algorithm == FitsFlags.NONE_TEXT && out.entries[q].params == "" && out.entries[q].flagresult == FitsFlags.NONE_TEXT
      ensures out.entries[q].feed == FitsFlags.NONE_TEXT && out.entries[q].section == FitsFlags.NONE_TEXT && out.entries[q].pola == FitsFlags.NONE_TEXT
      ensures Sweep.SoundRect(merged, t.columns, out.entries[q].rect)
    {
      FitsFlags.NewFlagsetSpec(Some(kept), ds.nSamples, ds.nChannels, rects, None, None, None, None,
                               FitsFlags.NoParams, None, q - |kept.entries|);
      assert rects[q - |kept.entries|] in rects;
    }
  }

  // ---------------------------------------------------------------- array save

  /** One flag array handed to new_flagset_from_array: the mask, its number of
      columns, and the values written to each record. */
  datatype FlagArray = FlagArray(
    mask: Mask,
    width: nat,
    feed: Option<string>,
    section: Option<string>,
    pola: Option<string>,
    algorithm: Option<string>,
    params: FitsFlags.Params,
    flagresult: Option<string>)

  /** Each array is a rectangular matrix of its width, as a 2-D numpy array is. */
  ghost predicate WellShaped(arrays: seq<FlagArray>)
  {
    forall k :: 0 <= k < |arrays| ==> IsMatrix(arrays[k].mask, arrays[k].width)
  }

  /** new_flagset_from_array: the rectangles of the sweep written as a new flag set. */
  function SaveArray(t: Option<FitsFlags.FlagTable>, rows: nat, cols: nat, a: FlagArray): FitsFlags.FlagTable
    requires IsMatrix(a.mask, a.width)
  {
    FitsFlags.NewFlagset(t, rows, cols, Sweep.SweepSpec(a.mask, a.width), a.feed, a.section, a.pola,
                         a.algorithm, a.params, a.flagresult).1
  }

  /** The flag table after saving the arrays one after the other. */
  function SaveArrays(t: Option<FitsFlags.FlagTable>, rows: nat, cols: nat, arrays: seq<FlagArray>): Option<FitsFlags.FlagTable>
    requires WellShaped(arrays)
  {
    if arrays == [] then t
    else
      assert WellShaped(arrays[..|arrays| - 1]);
      Some(SaveArray(SaveArrays(t, rows, cols, arrays[..|arrays| - 1]), rows, cols, arrays[|arrays| - 1]))
  }

  lemma WellShapedPrefix(arrays: seq<FlagArray>, k: nat)
    requires WellShaped(arrays) && k <= |arrays|
    ensures WellShaped(arrays[..k])
  {
  }

  /** SaveArrays on one more array of the list. */
  lemma SaveArraysSnoc(t: Option<FitsFlags.FlagTable>, rows: nat, cols: nat, arrays: seq<FlagArray>, k: nat)
    requires WellShaped(arrays) && k < |arrays|
    ensures WellShaped(arrays[..k]) && WellShaped(arrays[..k + 1])
    ensures SaveArrays(t, rows, cols, arrays[..k + 1]) == Some(SaveArray(SaveArrays(t, rows, cols, arrays[..k]), rows, cols, arrays[k]))
  {
    assert arrays[..k + 1][..k] == arrays[..k];
  }

  /** The loop of ArrayFlagSetCommand: sweep each mask and write its rectangles. */
  method SaveAll(t: Option<FitsFlags.FlagTable>, rows: nat, cols: nat, arrays: seq<FlagArray>)
    returns (out: Option<FitsFlags.FlagTable>)
    requires WellShaped(arrays)
    ensures out == SaveArrays(t, rows, cols, arrays)
  {
    out := t;
    var k := 0;
    while k < |arrays|
      invariant 0 <= k <= |arrays| && WellShaped(arrays[..k])
      invariant out == SaveArrays(t, rows, cols, arrays[..k])
    {
      var a := arrays[k];
      var rects := Sweep.Sweep(a.mask, a.width);
      var res := FitsFlags.NewFlagset(out, rows, cols, rects, a.feed, a.section, a.pola,
                                      a.algorithm, a.params, a.flagresult);
      SaveArraysSnoc(t, rows, cols, arrays, k);
      out := Some(res.1);
      k := k + 1;
    }
    assert arrays[..k] == arrays;
  }

  /** Saving one array keeps every earlier record and appends one record per
      rectangle of that array's sweep, in order, all under the next operation
      number and with that array's own values. */
  lemma SaveArraySpec(t: Option<FitsFlags.FlagTable>, rows: nat, cols: nat, a: FlagArray, q: nat)
    requires IsMatrix(a.mask, a.width)
    ensures var after := SaveArray(t, rows, cols, a).entries;
      |after| == |FitsFlags.Entries(t)| + |Sweep.SweepSpec(a.mask, a.width)| &&
      after[..|FitsFlags.Entries(t)|] == FitsFlags.Entries(t)
    ensures var after := SaveArray(t, rows, cols, a).entries;
      var rects := Sweep.SweepSpec(a.mask, a.width);
      q < |rects| ==>
        after[|FitsFlags.Entries(t)| + q] ==
          FitsFlags.FlagRow(FitsFlags.LastNop(t) + 1, FitsFlags.Cell(a.algorithm, FitsFlags.ALGORITHM_WIDTH),
            FitsFlags.Fit(FitsFlags.ParamsString(a.params), FitsFlags.PARAMS_WIDTH),
            FitsFlags.Cell(a.flagresult, FitsFlags.FLAGRESULT_WIDTH), rects[q],
            FitsFlags.Cell(a.feed, FitsFlags.TEXT_WIDTH), FitsFlags.Cell(a.section, FitsFlags.TEXT_WIDTH),
            FitsFlags.Cell(a.pola, FitsFlags.TEXT_WIDTH))
  {
    var rects := Sweep.SweepSpec(a.mask, a.width);
    if q < |rects| {
      FitsFlags.NewFlagsetSpec(t, rows, cols, rects, a.feed, a.section, a.pola, a.algorithm, a.params, a.flagresult, q);
    }
  }

  /** Every array whose mask has a set cell adds one operation, numbered one
      past the last, and a mask without one adds nothing. */
  lemma SaveArrayNop(t: Option<FitsFlags.FlagTable>, rows: nat, cols: nat, a: FlagArray)
    requires IsMatrix(a.mask, a.width)
    ensures Sweep.SweepSpec(a.mask, a.width) == [] ==> SaveArray(t, rows, cols, a).entries == FitsFlags.Entries(t)
    ensures Sweep.SweepSpec(a.mask, a.width) != [] ==>
      FitsFlags.LastNop(Some(SaveArray(t, rows, cols, a))) == FitsFlags.LastNop(t) + 1
  {
    var rects := Sweep.SweepSpec(a.mask, a.width);
    var after := SaveArray(t, rows, cols, a).entries;
    if rects != [] {
      SaveArraySpec(t, rows, cols, a, |rects| - 1);
    }
  }

  /** The value a mask cell is compared with in the sweep: 1.0 and 0.0 are
      FLAG_TRUE and FLAG_FALSE, anything else equals neither. */
  function IntCell(x: real): (v: int)
    ensures (v == FLAG_TRUE <==> x == 1.0) && (v == FLAG_FALSE <==> x == 0.0)
  {
    if x == 1.0 then FLAG_TRUE else if x == 0.0 then FLAG_FALSE else 2
  }

  function IntMask(m: seq<seq<real>>): (r: Mask)
    ensures |r| == |m| && forall i :: 0 <= i < |m| ==> |r[i]| == |m[i]|
    ensures forall i, j :: 0 <= i < |m| && 0 <= j < |m[i]| ==> r[i][j] == IntCell(m[i][j])
  {
    seq(|m|, i requires 0 <= i < |m| => seq(|m[i]|, j requires 0 <= j < |m[i]| => IntCell(m[i][j])))
  }

  /** How Python 2 prints a float: str() on its own, repr() as an element of
      a tuple. Float formatting is left out, so both are given. */
  datatype FloatPrinters = FloatPrinters(str: real -> string, repr: real -> string)

  /** str() of a parameter value. A bound is the tuple (value, lower, upper),
      whose elements are printed with repr(), a missing upper bound as nan. */
  function ParamStr(v: RfiDect.ParamValue, show: FloatPrinters): string
  {
    match v
    case PInt(n) => IntToString(n)
    case PReal(x) => show.str(x)
    case PBound(x, lo, hi) =>
      "(" + show.repr(x) + ", " + show.repr(lo) + ", " + (if hi.Some? then show.repr(hi.value) else "nan") + ")"
  }

  /** The (str(key), str(value)) items new_flagset joins into the params column. */
  function ParamItems(p: RfiDect.Params, show: FloatPrinters): (items: seq<(string, string)>)
    ensures |items| == |p| && forall k :: 0 <= k < |p| ==> items[k] == (p[k].0, ParamStr(p[k].1, show))
  {
    seq(|p|, k requires 0 <= k < |p| => (p[k].0, ParamStr(p[k].1, show)))
  }

  function IntText(v: Option<int>): Option<string>
  {
    if v.Some? then Some(IntToString(v.value)) else None
  }

  /** An algorithm output as ArrayFlagSetCommand reads it: its params are the
      algorithm's dictionary. */
  function FlagArrayOf(f: RfiDect.AutoFlagSet, params: RfiDect.Params, show: FloatPrinters, cols: nat): FlagArray
  {
    FlagArray(IntMask(f.flagData), cols, IntText(f.feed), IntText(f.section), f.pola, Some(f.algorithm),
              FitsFlags.ParamDict(ParamItems(params, show)), Some(f.flagresult))
  }

  function ArraysOf(fs: seq<RfiDect.AutoFlagSet>, params: RfiDect.Params, show: FloatPrinters, cols: nat): (a: seq<FlagArray>)
    ensures |a| == |fs| && forall q :: 0 <= q < |fs| ==> a[q] == FlagArrayOf(fs[q], params, show, cols)
  {
    seq(|fs|, q requires 0 <= q < |fs| => FlagArrayOf(fs[q], params, show, cols))
  }

  /** flag_results.values(). */
  function Values(fr: seq<(string, RfiDect.AutoFlagSet)>): (vs: seq<RfiDect.AutoFlagSet>)
    ensures |vs| == |fr| && forall q :: 0 <= q < |fr| ==> vs[q] == fr[q].1
  {
    seq(|fr|, q requires 0 <= q < |fr| => fr[q].1)
  }

  /** The outputs with feed and section set. */
  function Tagged(fr: seq<(string, RfiDect.AutoFlagSet)>, feed: int, section: int): (r: seq<(string, RfiDect.AutoFlagSet)>)
    ensures RfiDect.Keys(r) == RfiDect.Keys(fr)
    ensures |r| == |fr| && forall q :: 0 <= q < |fr| ==> r[q].1 == fr[q].1.(feed := Some(feed), section := Some(section))
  {
    seq(|fr|, q requires 0 <= q < |fr| => (fr[q].0, fr[q].1.(feed := Some(feed), section := Some(section))))
  }

  /** Every output holds the thresholded matrix of its polarisation's data,
      with the bound k the check accepted. */
  ghost predicate Computed(fr: seq<(string, RfiDect.AutoFlagSet)>, data: seq<seq<seq<real>>>,
                           med: seq<real>, rms: seq<real>, k: Result<real>)
  {
    k.Ok? && |med| == |data| && |rms| == |data| &&
    forall q :: 0 <= q < |fr| ==>
      RfiDect.PolIndex(fr[q].0).Some? && RfiDect.PolIndex(fr[q].0).value < |data| &&
      fr[q].1.pola == Some(fr[q].0) &&
      fr[q].1.flagData == RfiDect.ThresholdMatrix(data[RfiDect.PolIndex(fr[q].0).value],
        med[RfiDect.PolIndex(fr[q].0).value], k.value, rms[RfiDect.PolIndex(fr[q].0).value])
  }

  /** The feed and section of datasets[working_dataset], when there is one. */
  function WorkingFeedSection(ds: seq<Dataset>, w: Option<int>): Option<(int, int)>
  {
    if w.Some? && PyIndex(ds, w.value).Ok? then PyIndex(ds, w.value).value.feedSection else None
  }

  ghost predicate TaggedWith(fr: seq<(string, RfiDect.AutoFlagSet)>, fs: (int, int))
  {
    forall q :: 0 <= q < |fr| ==> fr[q].1.feed == Some(fs.0) && fr[q].1.section == Some(fs.1)
  }

  /** The keys set_output leaves: the given labels that are available, or the
      selection as it was when no labels are given. */
  ghost predicate Selected(fr: seq<(string, RfiDect.AutoFlagSet)>, outLabels: Option<seq<string>>,
                           avail: seq<string>, before: seq<(string, RfiDect.AutoFlagSet)>)
  {
    forall l :: l in RfiDect.Keys(fr) <==>
      if outLabels.Some? && outLabels.value != [] then l in outLabels.value && l in avail
      else l in RfiDect.Keys(before)
  }

  /** The set_output and compute calls of AutoFlagComputeCommand. */
  method RunThreshold(alg: RfiDect.Algorithm, outLabels: Option<seq<string>>, data: seq<seq<seq<real>>>,
                      med: seq<real>, rms: seq<real>) returns (r: Result<()>)
    requires alg.Valid() && alg.kind == RfiDect.SimpleThreshold
    requires forall p :: 0 <= p < |data| ==> IsMatrix(data[p], alg.cols)
    requires |med| == |data| && |rms| == |data|
    modifies alg
    ensures alg.Valid() && alg.params == old(alg.params) && alg.attrs == old(alg.attrs)
    ensures alg.availOutputs == old(alg.availOutputs)
    ensures RfiDect.BoundCheck(old(alg.ThresholdParam())).Err? ==> r == Err(RfiDect.BoundCheck(old(alg.ThresholdParam())).error)
    ensures r.Ok? ==> Selected(alg.flagResults, outLabels, alg.availOutputs, old(alg.flagResults))
    ensures r.Ok? ==> Computed(alg.flagResults, data, med, rms, RfiDect.BoundCheck(old(alg.ThresholdParam())))
    ensures r.Ok? ==> forall q :: 0 <= q < |alg.flagResults| ==> IsMatrix(alg.flagResults[q].1.flagData, alg.cols)
  {
    ghost var before := alg.flagResults;
    if outLabels.Some? && outLabels.value != [] {
      alg.SetOutput(outLabels);
      forall l ensures l in RfiDect.Keys(alg.flagResults) <==> l in outLabels.value && l in alg.availOutputs {
        assert alg.IsOutSelected(l) <==> alg.IsOutAvail(l) && l in outLabels.value;
      }
    }
    assert Selected(alg.flagResults, outLabels, alg.availOutputs, before);
    var selected := alg.flagResults;
    var k := RfiDect.BoundCheck(alg.ThresholdParam());
    var res := alg.ComputeThreshold(data, med, rms);
    if res.Err? {
      return Err(res.error);
    }
    ComputedShapes(alg.flagResults, selected, data, med, rms, k.value, alg.cols);
    assert k == RfiDect.BoundCheck(old(alg.ThresholdParam()));
    return Ok(());
  }

  /** The feed and section loop of AutoFlagComputeCommand: a non-empty result
      needs the working dataset and its feed and section. */
  method TagAll(alg: RfiDect.Algorithm, ds: seq<Dataset>, w: Option<int>) returns (r: Result<()>)
    requires alg.Valid()
    modifies alg
    ensures alg.Valid() && alg.params == old(alg.params) && alg.attrs == old(alg.attrs)
    ensures alg.availOutputs == old(alg.availOutputs) && alg.defOutputs == old(alg.defOutputs)
    ensures old(alg.flagResults) == [] ==> r.Ok? && alg.flagResults == []
    ensures old(alg.flagResults) != [] ==> (r.Ok? <==> WorkingFeedSection(ds, w).Some?)
    ensures old(alg.flagResults) != [] && w.None? ==> r == Err(TypeError)
    ensures old(alg.flagResults) != [] && w.Some? && PyIndex(ds, w.value).Err? ==> r == Err(IndexError)
    ensures r.Ok? && old(alg.flagResults) != [] ==>
      alg.flagResults == Tagged(old(alg.flagResults), WorkingFeedSection(ds, w).value.0, WorkingFeedSection(ds, w).value.1)
  {
    if alg.flagResults == [] {
      return Ok(());
    }
    if w.None? {
      return Err(TypeError);
    }
    var dsr := PyIndex(ds, w.value);
    if dsr.Err? {
      return Err(IndexError);
    }
    var fs := dsr.value.feedSection;
    if fs.None? {
      return Err(TypeError);
    }
    TagOutputs(alg, fs.value.0, fs.value.1);
    return Ok(());
  }


  /** Setting feed and section changes neither the keys, nor the masks, nor
      the polarisations. */
  lemma TaggedKeeps(fr: seq<(string, RfiDect.AutoFlagSet)>, fs: (int, int), data: seq<seq<seq<real>>>,
                    med: seq<real>, rms: seq<real>, k: Result<real>, cols: nat)
    requires Computed(fr, data, med, rms, k)
    requires forall q :: 0 <= q < |fr| ==> IsMatrix(fr[q].1.flagData, cols)
    ensures var tg := Tagged(fr, fs.0, fs.1);
      RfiDect.Keys(tg) == RfiDect.Keys(fr) && Computed(tg, data, med, rms, k) && TaggedWith(tg, fs) &&
      forall q :: 0 <= q < |tg| ==> IsMatrix(tg[q].1.flagData, cols)
  {
    var tg := Tagged(fr, fs.0, fs.1);
    forall q | 0 <= q < |tg| ensures tg[q].0 == fr[q].0 {
      assert RfiDect.Keys(tg)[q] == RfiDect.Keys(fr)[q];
    }
  }

  /** SimpleThreshold's outputs are the thresholded data, of the data's shape. */
  lemma ComputedShapes(fr: seq<(string, RfiDect.AutoFlagSet)>, prev: seq<(string, RfiDect.AutoFlagSet)>,
                       data: seq<seq<seq<real>>>, med: seq<real>, rms: seq<real>, k: real, cols: nat)
    requires forall p :: 0 <= p < |data| ==> IsMatrix(data[p], cols)
    requires |fr| == |prev| && |med| == |data| && |rms| == |data|
    requires forall q :: 0 <= q < |prev| ==> RfiDect.PolIndex(prev[q].0).Some? && RfiDect.PolIndex(prev[q].0).value < |data|
    requires forall q :: 0 <= q < |prev| ==> fr[q] == RfiDect.Thresholded(prev[q], data, med, rms, k)
    ensures forall q :: 0 <= q < |fr| ==> IsMatrix(fr[q].1.flagData, cols)
    ensures Computed(fr, data, med, rms, Ok(k))
  {
    forall q | 0 <= q < |fr|
      ensures RfiDect.PolIndex(fr[q].0).Some? && RfiDect.PolIndex(fr[q].0).value < |data|
      ensures fr[q].1.pola == Some(fr[q].0)
      ensures fr[q].1.flagData == RfiDect.ThresholdMatrix(data[RfiDect.PolIndex(fr[q].0).value],
        med[RfiDect.PolIndex(fr[q].0).value], k, rms[RfiDect.PolIndex(fr[q].0).value])
    {
      assert fr[q] == RfiDect.Thresholded(prev[q], data, med, rms, k);
      var p := RfiDect.PolIndex(prev[q].0).value;
      assert fr[q].0 == prev[q].0;
      assert RfiDect.PolIndex(fr[q].0).value == p;
      assert fr[q].1.flagData == RfiDect.ThresholdMatrix(data[p], med[p], k, rms[p]);
    }
  }

  lemma ArraysShaped(fs: seq<RfiDect.AutoFlagSet>, params: RfiDect.Params, show: FloatPrinters, cols: nat)
    requires forall q :: 0 <= q < |fs| ==> IsMatrix(fs[q].flagData, cols)
    ensures WellShaped(ArraysOf(fs, params, show, cols))
  {
  }

  /** The loop of AutoFlagComputeCommand that sets feed and section on every
      output object, which are the objects of the algorithm's flag_results. */
  method TagOutputs(alg: RfiDect.Algorithm, feed: int, section: int)
    requires alg.Valid()
    modifies alg
    ensures alg.Valid()
    ensures alg.flagResults == Tagged(old(alg.flagResults), feed, section)
    ensures alg.params == old(alg.params) && alg.attrs == old(alg.attrs)
    ensures alg.availOutputs == old(alg.availOutputs) && alg.defOutputs == old(alg.defOutputs)
  {
    var fr := alg.flagResults;
    var out := fr;
    var q := 0;
    while q < |fr|
      invariant 0 <= q <= |fr| && |out| == |fr|
      invariant forall p :: 0 <= p < q ==> out[p] == (fr[p].0, fr[p].1.(feed := Some(feed), section := Some(section)))
      invariant forall p :: q <= p < |fr| ==> out[p] == fr[p]
    {
      out := out[q := (fr[q].0, fr[q].1.(feed := Some(feed), section := Some(section)))];
      q := q + 1;
    }
    assert out == Tagged(fr, feed, section);
    alg.flagResults := out;
  }

  // ---------------------------------------------------------------- feed propagation

  /** propag_to_feed for each feed in turn, each on the table the previous call wrote. */
  function PropagFeeds(t: FitsFlags.FlagTable, nop: int, feeds: seq<string>): Result<FitsFlags.FlagTable>
  {
    if feeds == [] then Ok(t)
    else
      var p := PropagFeeds(t, nop, feeds[..|feeds| - 1]);
      if p.Err? then p else FitsFlags.PropagToFeed(Some(p.value), nop, feeds[|feeds| - 1])
  }

  /** Once a call has failed the loop is over. */
  lemma {:induction false} PropagErrStays(t: FitsFlags.FlagTable, nop: int, feeds: seq<string>, m: nat)
    requires m <= |feeds| && PropagFeeds(t, nop, feeds[..m]).Err?
    ensures PropagFeeds(t, nop, feeds) == PropagFeeds(t, nop, feeds[..m])
    decreases |feeds| - m
  {
    if m < |feeds| {
      var f := feeds[..m + 1];
      assert f[..m] == feeds[..m];
      PropagErrStays(t, nop, feeds, m + 1);
    } else {
      assert feeds[..m] == feeds;
    }
  }

  /** The loop of PropagToFeeds. */
  method PropagAll(t: FitsFlags.FlagTable, nop: int, feeds: seq<string>) returns (r: Result<FitsFlags.FlagTable>)
    ensures r == PropagFeeds(t, nop, feeds)
  {
    var cur := t;
    var j := 0;
    while j < |feeds|
      invariant 0 <= j <= |feeds|
      invariant PropagFeeds(t, nop, feeds[..j]) == Ok(cur)
    {
      assert feeds[..j + 1][..j] == feeds[..j];
      var p := FitsFlags.PropagToFeed(Some(cur), nop, feeds[j]);
      if p.Err? {
        PropagErrStays(t, nop, feeds, j + 1);
        return p;
      }
      cur := p.value;
      j := j + 1;
    }
    assert feeds[..j] == feeds;
    return Ok(cur);
  }

  /** A copy keeps the table it is made on as its prefix, so the operation's
      records are still there for the next copy. */
  lemma PropagKeepsPrefix(t: FitsFlags.FlagTable, nop: int, feed: string)
    requires FitsFlags.NopRows(t.entries, nop) != []
    ensures FitsFlags.PropagToFeed(Some(t), nop, feed).Ok?
    ensures var out := FitsFlags.PropagToFeed(Some(t), nop, feed).value.entries;
      |out| >= |t.entries| && out[..|t.entries|] == t.entries && FitsFlags.NopRows(out, nop) != []
  {
    FitsFlags.PropagToFeedSpec(t, nop, feed);
    var out := FitsFlags.PropagToFeed(Some(t), nop, feed).value.entries;
    assert out == t.entries + out[|t.entries|..];
    FilterAppend(t.entries, out[|t.entries|..], (r: FitsFlags.FlagRow) => r.nop == nop);
  }

  /** Only an operation without records fails, and then it fails at the first
      feed, before the table is written; otherwise the table grows at the end. */
  lemma {:induction false} PropagFailsFirst(t: FitsFlags.FlagTable, nop: int, feeds: seq<string>)
    ensures PropagFeeds(t, nop, feeds).Err? <==> feeds != [] && FitsFlags.NopRows(t.entries, nop) == []
    ensures PropagFeeds(t, nop, feeds).Err? ==> PropagFeeds(t, nop, feeds).error == IndexError
    ensures PropagFeeds(t, nop, feeds).Ok? ==>
      var p := PropagFeeds(t, nop, feeds).value.entries;
      |p| >= |t.entries| && p[..|t.entries|] == t.entries &&
      (FitsFlags.NopRows(t.entries, nop) != [] ==> FitsFlags.NopRows(p, nop) != [])
  {
    if feeds != [] {
      var init := feeds[..|feeds| - 1];
      PropagFailsFirst(t, nop, init);
      var p := PropagFeeds(t, nop, init);
      if p.Ok? && FitsFlags.NopRows(p.value.entries, nop) != [] {
        PropagKeepsPrefix(p.value, nop, feeds[|feeds| - 1]);
        var out := FitsFlags.PropagToFeed(Some(p.value), nop, feeds[|feeds| - 1]).value.entries;
        assert out[..|t.entries|] == out[..|p.value.entries|][..|t.entries|];
      }
    }
  }

  /** Operation numbers never decrease along the table. */
  ghost predicate Ordered(es: seq<FitsFlags.FlagRow>)
  {
    forall a, b :: 0 <= a < b < |es| ==> es[a].nop <= es[b].nop
  }

  lemma {:induction false} NopRowsNone(es: seq<FitsFlags.FlagRow>, nop: int)
    requires forall k :: 0 <= k < |es| ==> es[k].nop != nop
    ensures FitsFlags.NopRows(es, nop) == []
  {
    if es != [] {
      NopRowsNone(es[1..], nop);
    }
  }

  /** In an ordered table the operation's records come before the last one. */
  lemma OrderedLast(p: FitsFlags.FlagTable, nop: int)
    requires Ordered(p.entries) && FitsFlags.NopRows(p.entries, nop) != []
    ensures nop <= FitsFlags.LastNop(Some(p))
    ensures forall a :: 0 <= a < |p.entries| ==> p.entries[a].nop <= FitsFlags.LastNop(Some(p))
  {
    FitsFlags.FirstOfFilter(p.entries, nop);
  }

  /** The records a copy appends all carry the number one past the last. */
  lemma PropagAdded(p: FitsFlags.FlagTable, nop: int, feed: string)
    requires FitsFlags.NopRows(p.entries, nop) != []
    ensures var out := FitsFlags.PropagToFeed(Some(p), nop, feed).value.entries;
      |out| >= |p.entries| && out == p.entries + out[|p.entries|..] &&
      forall k :: |p.entries| <= k < |out| ==> out[k].nop == FitsFlags.LastNop(Some(p)) + 1
  {
    var out := FitsFlags.PropagToFeed(Some(p), nop, feed).value.entries;
    FitsFlags.PropagToFeedSpec(p, nop, feed);
    var n := |p.entries|;
    forall k | n <= k < |out| ensures out[k].nop == FitsFlags.LastNop(Some(p)) + 1 {
      assert out[n + (k - n)] == out[k];
    }
    assert out == out[..n] + out[n..];
  }

  /** Appending records numbered above every existing one keeps the order. */
  lemma OrderedAppend(a: seq<FitsFlags.FlagRow>, b: seq<FitsFlags.FlagRow>, top: int)
    requires Ordered(a) && forall k :: 0 <= k < |a| ==> a[k].nop <= top
    requires forall k :: 0 <= k < |b| ==> b[k].nop == top + 1
    ensures Ordered(a + b)
  {
    var c := a + b;
    forall x, y | 0 <= x < y < |c| ensures c[x].nop <= c[y].nop {
      if y < |a| {
        assert c[x] == a[x] && c[y] == a[y];
      } else if x < |a| {
        assert c[x] == a[x] && c[y] == b[y - |a|];
      } else {
        assert c[x] == b[x - |a|] && c[y] == b[y - |a|];
      }
    }
  }

  /** One copy on an ordered table keeps it ordered and adds no record of the
      copied operation. */
  lemma PropagStep(p: FitsFlags.FlagTable, nop: int, feed: string)
    requires Ordered(p.entries) && FitsFlags.NopRows(p.entries, nop) != []
    ensures FitsFlags.PropagToFeed(Some(p), nop, feed).Ok?
    ensures Ordered(FitsFlags.PropagToFeed(Some(p), nop, feed).value.entries)
    ensures FitsFlags.NopRows(FitsFlags.PropagToFeed(Some(p), nop, feed).value.entries, nop) == FitsFlags.NopRows(p.entries, nop)
  {
    var out := FitsFlags.PropagToFeed(Some(p), nop, feed).value.entries;
    PropagAdded(p, nop, feed);
    OrderedLast(p, nop);
    var added := out[|p.entries|..];
    var last := FitsFlags.LastNop(Some(p));
    assert forall k :: 0 <= k < |added| ==> added[k].nop == last + 1 by {
      forall k | 0 <= k < |added| ensures added[k].nop == last + 1 {
        assert added[k] == out[|p.entries| + k];
      }
    }
    OrderedAppend(p.entries, added, last);
    FilterAppend(p.entries, added, (r: FitsFlags.FlagRow) => r.nop == nop);
    NopRowsNone(added, nop);
  }

  /** On a table in operation order every copy is made of exactly the records
      of the original operation, and the table stays in order. */
  lemma {:induction false} PropagCopiesOriginal(t: FitsFlags.FlagTable, nop: int, feeds: seq<string>)
    requires Ordered(t.entries) && FitsFlags.NopRows(t.entries, nop) != []
    ensures PropagFeeds(t, nop, feeds).Ok?
    ensures Ordered(PropagFeeds(t, nop, feeds).value.entries)
    ensures FitsFlags.NopRows(PropagFeeds(t, nop, feeds).value.entries, nop) == FitsFlags.NopRows(t.entries, nop)
  {
    if feeds != [] {
      var init := feeds[..|feeds| - 1];
      PropagCopiesOriginal(t, nop, init);
      var p := PropagFeeds(t, nop, init).value;
      PropagStep(p, nop, feeds[|feeds| - 1]);
    }
  }

  // ---------------------------------------------------------------- correction toggle

  function Toggled(c: bool): bool
  {
    if c == false then true else false
  }

  /** Two toggles restore the switch. */
  lemma ToggleTwice(c: bool)
    ensures Toggled(Toggled(c)) == c && Toggled(c) != c
  {
  }

  /** A fresh data object, with no correction file, has its correction turned
      on by the toggle as written, and refused by the corrected one. */
  method ToggleWithoutCorrectionFile(t: Option<FitsFlags.FlagTable>, ds: seq<Dataset>)
    returns (asWritten: Result<bool>, corrected: Result<bool>)
    ensures asWritten == Ok(true)
    ensures corrected == Err(IOError)
  {
    var d := new DwData(t, ds);
    var r := d.ToggleCorrection();
    asWritten := Ok(d.correction);
    var e := new DwData(t, ds);
    var q := e.ToggleCorrectionCorrected();
    var on := e.correction;
    corrected := if q.Err? then Err(q.error) else Ok(on);
  }
}
