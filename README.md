# dishwasher-rfi flagging core in Dafny

A model of the flagging core of dishwasher-rfi. This radio-astronomy tool reads
time x frequency spectrograms from single-dish telescopes. It lets an operator
or a detection algorithm mark radio-frequency interference (RFI) as flag sets,
and stores those flag sets next to the data. The model is written in Dafny, with
proofs of what each piece promises.

Modules, following the structure of the program:

- **Base**: Python's exceptions as a `Result`, `str()` of integers, list
  indexing with negative indices, slice bounds, and `div0`.
- **FitsFlags**: the FITS flag table (`FitsIO`). It is a sequence of records
  `(nop, algorithm, params, flagresult, rect, feed, section, pola)` with
  inclusive rectangles. It covers:
  - `gen_flag_table`, `new_flagset` (operation numbers), `del_table`
    (deletion and renumbering), `del_sel_flags`;
  - `get_flagsets`, `get_table_meta`, `propag_to_feed`, `propag_flag_table`.
- **Sweep**: the mask-to-rectangles sweep of `new_flagset_from_array`, proved
  sound, with its incompleteness exhibited.
- **HdfFlags**: the HDF flag sets (`HdfIO`). Each is a `rows x cols` array of
  int8 flags with half-open areas. It covers the name retry of
  `setup_new_flagset`, the fill of `new_flagset` and
  `new_flagset_from_array`, `upd_flagset` and `get_flagsets`.
- **FitsData**: the FITS data helpers. It covers:
  - `get_data` chunking, the `get_cdata` checks and the `get_median` rows;
  - `set_type`, `get_polars`, `get_feed_section`;
  - where `upd_fit_file` places a fit.
- **FlagMerge** and **Commands**: the flag commands of `dw/core/commands.py`,
  as methods of a `DwData` class. Each command is built and run at once.
  The commands are new, update, get, delete, delete-selected, merge,
  array-save, automatic flagging, feed propagation and the correction
  toggle, plus the `Command` defaults.
- **RfiDect**: the bookkeeping of the detection plug-ins in
  `dw/flag/rfi_dect_func.py`. It covers:
  - parameter dictionaries and the registry of executable algorithms;
  - available, default and selected outputs;
  - SimpleThreshold's bound check and flag rule;
  - FullDWT's labels;
  - the index maps FlagLibDw hands to libdw.
- **LibDw**: the C kernels of `libdw/src/lib.c` over row-major byte matrices.
- **RunLengths**, **RqaSpec**, **RqaMemo**, **RecurrencePlot**: the recurrence
  quantification engine of `recurrence/recurrence.py`. It is modelled over an
  abstract distance and covers:
  - `count_seq` and the recurrence plot;
  - the line and vertical length distributions;
  - the rate, determinism, laminarity, mean-length, trapping-time,
    maximum-length and divergence measures;
  - the per-threshold memo dictionaries of the `Recurrence` class.
- **DataDef**: the helpers of `dw/core/data_def.py`, namely `to2D`,
  `list2choices`, the slicing and padding of `get_fit`, and the `DWData`
  wrappers.
- **Widgets**, **BpcGui**, **WriteMetadata**, **PolaOnOff**: the non-graphical
  helpers of the plotting widgets and of the bandpass GUI's `ChoicesVariable`
  and fit-range rule, the metadata interpolator of `scripts/writemetadata.py`,
  and the on/off pairing of `scripts/pola_on_off.py`.

Some code works by changing things step by step: the sweep, the HDF row
updates, the commands, the libdw kernels, the metadata cursor, the on/off
dictionaries and the recurrence memos. That code is written as classes and
methods with loops. Each method is proved against a specification function,
and the properties are proved about those functions. The pure helpers are
functions with lemmas.

FITS flag rectangles include both their end rows and end channels, while
HDF areas are half-open. The sweep is sound but does not cover every mask
(`Sweep.LastColumnLost`, `Sweep.BottomCellLost`), so no round trip from a mask
to its rectangles is claimed. `FitsIO.upd_flagset` does nothing.

Where the code has a defect (see "## Findings"), the member named after the
code's function runs it as written, and a separately named member (suffix
`Corrected`, `Intended` or `Nearer`) runs the evident intent. Both are proved.

## Model

| member | source | states |
|---|---|---|
| Base.Div0 | dw/core/io.py:50-55 | the quotient has the length of the inputs; where the divisor is non-zero it times the divisor gives the dividend, and where the divisor is zero the entry is 0 |
| Base.PyIndex | dw/core/io.py:1039 | indexing succeeds exactly for -n <= i < n, a non-negative index reads position i and a negative one counts from the end |
| Base.PySlice | dw/core/io.py:949 | a slice keeps the elements between the clamped bounds, and is empty when the clamped start lies past the clamped stop |
| Base.NumpyDiv | dw/core/io.py:944 | l/b with a numpy integer b is floor division, and 0 (with a warning, not an exception) for b = 0 |
| Base.IntToStringInjective | dw/core/io.py:1038 | two integers with the same decimal spelling are equal, so "Ch"+str(section) names one section only |
| FitsData.Chunk | dw/core/io.py:949 | `column[:, r:r+b]` keeps one slice per row, each the Python slice of that row |
| FitsData.GetData | dw/core/io.py:930-967 | an unknown extension fails with UnboundLocalError; a DATA or CORR DATA TABLE with no bins fails with IndexError, otherwise it gives the chunk list, which is empty for 0 bins since numpy's integer l/b is then 0; a FLAG TABLE gives the mask gen_flag_table builds |
| FitsData.NumericChunks | dw/core/io.py:943-950 | the loop yields the whole column when l/b is 1 and else the l/b chunks of b channels, in order |
| FitsData.ChunkOfRow | dw/core/io.py:947-950 | for positive bins, chunk a of row i is that row's a-th block of b channels |
| FitsData.ConcatBlocks | dw/core/io.py:947-950 | the first k blocks of b values laid side by side are the first k*b values of the row |
| FitsData.DataChunksReassemble | dw/core/io.py:943-950 | the chunks of a row put back together give exactly the first (l/b)*b channels of that row, so no channel is lost, doubled or reordered |
| FitsData.SectionRows | dw/core/io.py:977 | the selected correction rows are rows of the table whose section is the one asked for |
| FitsData.CorrectedChunk | dw/core/io.py:992-995 | the corrected chunk has one row per data row |
| FitsData.GetCdata | dw/core/io.py:969-999 | a column name whose tail is not an integer fails with ValueError; a table other than DATA or FLAG TABLE gives UnboundLocalError; a DATA TABLE succeeds iff the lengths match, the data is not total power and, when there is a chunk to correct, exactly one correction row matches the section; 0 bins give no chunks, numpy's l/b being 0; the chunks are then each data chunk divided by the same slice of that row |
| FitsData.CorrectedChunks | dw/core/io.py:990-996 | the chunk loop fails, with ValueError, exactly when there are rows, at least one chunk and not exactly one matching correction row; otherwise it yields n chunks, each the corrected chunk for columns [a*b, a*b+b) |
| FitsData.DivideChunk | dw/core/io.py:992-995 | an empty chunk stays empty; with rows, the per-row div0 against the correction slice succeeds only when exactly one correction row matches, and gives the corrected chunk |
| FitsData.Arange | dw/core/io.py:1054 | np.arange(lo, hi) holds hi-lo consecutive integers starting at lo, none when hi <= lo |
| FitsData.Take | dw/core/io.py:1054 | fancy indexing succeeds iff every index lies in [-s, s), and then element k is the row that index k names |
| FitsData.GetMedianRows | dw/core/io.py:1037-1058 | no tables or a section without bins fails with IndexError, negative bins with ValueError; otherwise the channel axis is range(b) and the stacked data is every table's selection in order, or the first table's failure |
| FitsData.StackSelections | dw/core/io.py:1041-1055 | the vstack loop gives the stacked selections of all tables, stopping at the first failure |
| FitsData.MedianErrorSticks | dw/core/io.py:1041-1055 | once a table's selection fails, get_median fails with that same error whatever the later tables hold |
| FitsData.MedianWindows | dw/core/io.py:1054 | the rows picked are the window [excluded, range_i) followed by the last range_s - excluded rows ending excluded rows before the end |
| FitsData.MedianDefaultRows | dw/core/io.py:1047-1054 | with range 0 (half the table each way) and nothing excluded, an even table contributes each of its rows exactly once, in order |
| FitsData.SetTypeAsWritten | dw/core/io.py:1119-1133 | as written: TRACKING with signal SIGNAL is On, TRACKING with REFERENCE or a missing signal keyword is Off, and every other scan type is OTF |
| FitsData.SetType | dw/core/io.py:1119-1133 | corrected: OTF exactly for the listed scan types, Unknown for an unlisted type or a TRACKING scan with another signal, and the same answer as written for TRACKING and the listed types |
| FitsData.SetTypeUnlistedType | dw/core/io.py:1131 | the scan type FOCUS comes out OTF as written and Unknown when corrected |
| FitsData.GetPolars | dw/core/io.py:1166-1173 | an empty Ch0 column or no bins fails with IndexError; bins 0 give None, numpy's l/b being 0; otherwise the labels are L,R for l/b = 2, L,R,Q,U for l/b = 4 and None for anything else |
| FitsData.PolarsFitRow | dw/core/io.py:1166-1173 | for positive bins the labelled blocks fit in the row and one more block would not |
| FitsData.ParseInt | dw/core/io.py:977 | int() of a string fails only with ValueError |
| FitsData.ParseIntToString | dw/core/io.py:977 | int() reads back what str() writes, so a section number round-trips through its column name |
| FitsData.AfterLast | dw/core/io.py:1160 | `split('h')[-1]` is a suffix of the name holding no 'h' |
| FitsData.AfterLastPlain | dw/core/io.py:1160 | the part after the last 'h' is exactly the text following it |
| FitsData.IndexOf | dw/core/io.py:1162-1164 | the position found holds x and no earlier one does; none exactly when x is absent |
| FitsData.FindSection | dw/core/io.py:1161-1165 | the result is the first feed in key order whose sections hold the dataset, with the dataset's first position there; nothing exactly when no feed holds it |
| FitsData.GetFeedSection | dw/core/io.py:1158-1165 | fails exactly when the text after the last 'h' is not an integer; otherwise it is the (feed, index) found for that number |
| FitsData.FeedSectionOfColumn | dw/core/io.py:1158-1165 | the column "Ch"+str(i) finds the feed and position of section i |
| FitsData.UpdFitRow | dw/core/io.py:846 | the slice assignment succeeds iff the clamped slice holds exactly len(fit) values, or one value is broadcast over an empty slice; it writes the fit into the slice and leaves the rest of the row alone, and fails with ValueError otherwise |
| FitsData.UpdFitRowReadBack | dw/core/io.py:843-846 | a fit placed inside the row reads back from the same slice |
| FitsData.UpdFitFile | dw/core/io.py:843-846 | a section outside the table fails with IndexError; otherwise only that section's row changes, by the slice assignment, or the assignment's error is returned |
| FitsFlags.Fit | dw/core/io.py:1342-1348 | a string stored in a fixed-width character column is a prefix of the string no longer than the width, and the string itself when it fits |
| FitsFlags.DictStringSnoc | dw/core/io.py:1332-1338 | each further dictionary item appends "key: value " to the params text |
| FitsFlags.CoversInclusive | dw/core/io.py:1079-1081 | for non-negative corners the slices `[ymin:ymax+1, xmin:xmax+1]` cover exactly the inclusive rectangle |
| FitsFlags.FlaggedAppend | dw/core/io.py:1079-1081 | the cells flagged by two record lists together are those flagged by either list: later records only add flags |
| FitsFlags.FillRect | dw/core/io.py:1081 | the slice assignment sets the cells inside the bounds to FLAG_TRUE and leaves every other cell of the matrix as it was |
| FitsFlags.GenFlagTable | dw/core/io.py:1069-1082 | the fresh rows x columns matrix holds FLAG_TRUE at exactly the cells that some record selected by operation number or by section covers, and FLAG_FALSE elsewhere |
| FitsFlags.GetFlagc | dw/core/io.py:1060-1067 | a file without a flag table fails with KeyError; otherwise there is one value per channel, 0 when some sample of that channel is flagged in section "Ch"+str(section) and 1 when none is |
| FitsFlags.Cell | dw/core/io.py:1341-1347 | a text argument is stored cut to its column's width; an absent (None) one is stored as the text "None" |
| FitsFlags.NewRows | dw/core/io.py:1340-1348 | the new records are one per area, in order, each with that area, the given operation number, and the stored text of each argument, "None" for an absent one and an empty params text for absent params |
| FitsFlags.NewFlagset | dw/core/io.py:1301-1358 | the returned name is FLAG TABLE; the old records are followed by one record per area under operation number last nop + 1, with 0 as the last nop for an empty or missing table; a missing table is created with the given shape and an existing one keeps its own |
| FitsFlags.NewFlagsetSpec | dw/core/io.py:1332-1354 | the old records keep their place and values, and new record k holds area k, number last nop + 1 and the algorithm, params text, result, feed, section and polarisation cut to their column widths, with "None" for each absent one |
| FitsFlags.NewFlagsetNextNop | dw/core/io.py:1325 | with records in operation order, the new flag set's number exceeds every existing one |
| FitsFlags.DelTable | dw/core/io.py:1514-1539 | a file without a flag table fails with KeyError; otherwise only the record list changes, to the records of other operations with the later numbers lowered by one |
| FitsFlags.DelTableRowsSpec | dw/core/io.py:1520-1524 | no record of the deleted operation survives (a survivor with its number came from the next operation), every record of another operation survives renumbered, and earlier operations survive unchanged |
| FitsFlags.DelTableKeepsContiguous | dw/core/io.py:1520-1524 | operation numbers 1..K become 1..K-1 after one of them is deleted |
| FitsFlags.IntervalsMeet | dw/core/io.py:1552-1554 | `min(a1, b1) - max(a0, b0) >= 0` holds exactly when the two closed intervals share a point, so the overlap test of del_sel_flags is an intersection test |
| FitsFlags.DelSelFlags | dw/core/io.py:1541-1558 | a file without a flag table fails with KeyError; otherwise the table keeps its shape |
| FitsFlags.DelSelFlagsSpec | dw/core/io.py:1546-1557 | a record survives exactly when it is not a hit (same feed, section and polarisation and a rectangle meeting the selection); survivors keep their order and values, since filtering a concatenation filters each part |
| FitsFlags.Distinct | dw/core/io.py:1449 | `set(filt['nop'])` holds the same values as the list, each once |
| FitsFlags.FlagsetKeyInjective | dw/core/io.py:1455-1456 | two operations of the same feed and section get distinct 'Flag_F..S..:nop' keys |
| FitsFlags.BuildFlagsetsSpec | dw/core/io.py:1449-1457 | every listed operation has a key holding its number, no other key appears, both dictionaries share their keys, and each key's Rif is the one the operation's records give |
| FitsFlags.BuildFlagsetsKeys | dw/core/io.py:1449-1457 | the keys are exactly the listed operations of this feed and section, each holding its own number, and both dictionaries have the same keys |
| FitsFlags.BuildFlagsetsRifs | dw/core/io.py:1450-1456 | the Rif under a key is the feed, section, first polarisation and algorithms of that operation's records |
| FitsFlags.FeedSectionNops | dw/core/io.py:1445-1449 | each operation listed for the dataset has at least one record |
| FitsFlags.GetFlagsets | dw/core/io.py:1436-1457 | a file without a flag table fails with KeyError, a dataset without a feed and section (None from get_feed_section) with TypeError, and otherwise the dictionaries are built |
| FitsFlags.FeedSectionRowsMembers | dw/core/io.py:1445-1447 | the filtered records are exactly the table's records of the dataset's feed and section |
| FitsFlags.GetFlagsetsHandles | dw/core/io.py:1444-1457 | an operation gets a handle holding its number exactly when one of its records belongs to the dataset's feed and section, and every key is of that feed and section |
| FitsFlags.FeedSectionNopsMembers | dw/core/io.py:1445-1449 | an operation is listed exactly when one of its records belongs to the dataset |
| FitsFlags.GetFlagsetsRif | dw/core/io.py:1450-1456 | each listed flag set's Rif comes from its operation's records, and the two dictionaries have the same keys |
| FitsFlags.TableMeta | dw/core/io.py:1503-1512 | fails exactly when no record has the operation number; otherwise it is the asked field of that operation's first record |
| FitsFlags.FirstOfFilter | dw/core/io.py:1510-1511 | the records of an operation are empty iff none has its number, and the first of them is its earliest record in the table |
| FitsFlags.PropagToFeed | dw/core/io.py:1483-1501 | a file without a flag table fails with KeyError, and an operation with no records fails (the `[0]` on an empty selection) |
| FitsFlags.PropagToFeedSpec | dw/core/io.py:1488-1501 | the old records are kept and one record per rectangle of the operation is appended, in order, under the next operation number and the new feed, with the first record's section and the params text extended by "(copy of nop=.., feed=..)" |
| FitsFlags.PropagUpTo | dw/core/io.py:1465-1480 | the loop over the first k files never adds or removes a file |
| FitsFlags.PropagFlagTable | dw/core/io.py:1459-1481 | a file without a flag table fails with KeyError; otherwise every target file is processed |
| FitsFlags.PropagUpToSpec | dw/core/io.py:1465-1481 | the error list is exactly the targets that cannot be opened, in order; no file appears or disappears; unlisted files are untouched; a file listed once gets the source records appended to its flag table, or the source table when it had none |
| FitsFlags.PropagUpToErrors | dw/core/io.py:1479-1480 | the error list is exactly the targets that cannot be opened, in order |
| FitsFlags.PropagUpToUntouched | dw/core/io.py:1465-1480 | files not among the targets keep their flag tables |
| FitsFlags.PropagUpToAppended | dw/core/io.py:1468-1478 | a file listed once ends with its records followed by the source's, or with the source table when it had none |
| HdfFlags.Int8 | dw/core/io.py:508-512 | a value stored in an Int8Col cell lies in [-128, 128) and is the value itself when it already fits |
| HdfFlags.LongNumbers | dw/core/io.py:529-539 | a number of at least 10^L has more than L decimal digits, so the name-retry loop ends once n outgrows every existing name |
| HdfFlags.FreeName | dw/core/io.py:528-539 | the name chosen is prefix+str(n) for the first n, counting from 0, whose name is not already a table of the group |
| HdfFlags.FlagsetsDict | dw/core/io.py:660-673 | the dictionary's keys are exactly the group's table names, each naming that table |
| HdfFlags.UpToStep | dw/core/io.py:586-589 | each further area adds the channels it writes in the row, and its overrun, to those of the areas before it |
| HdfFlags.WriteAreas | dw/core/io.py:586-589 | the row-buffer loop fails with IndexError exactly when an area containing the row reaches a channel outside [-columns, columns); otherwise the value is in every channel some such area writes, a negative channel counting from the end, and every other channel keeps its value |
| HdfFlags.StoreRow | dw/core/io.py:590-591 | storing a row buffer writes exactly that row of the table |
| HdfFlags.InsideRowNoWrap | dw/core/io.py:586-589 | when every area's channels lie inside the row there is no IndexError and the channels set are exactly the areas' [a2, a3) |
| HdfFlags.NegativeChannelWraps | dw/core/io.py:588-589 | channel -1 of a four-channel row is channel 3, and it does not raise |
| HdfFlags.NewFlagset | dw/core/io.py:484-595 | the result is IndexError exactly when some area overruns some row; otherwise the new table gets a free prefix+str(n) name, the attributes only for a truthy algorithm, and every one of the rows x columns cells is FLAG_TRUE where some area containing the row writes it and FLAG_FALSE elsewhere, all FLAG_FALSE for no areas |
| HdfFlags.HdfFlagSet.NewFlagsetFromArray | dw/core/io.py:597-626 | the new table gets a free name and the attributes as above, and row ii is row ii of the array cast to int8 |
| HdfFlags.HdfFlagSet.ReadRow | dw/core/io.py:649 | the row read is row i of the table |
| HdfFlags.HdfFlagSet.UpdFlagset | dw/core/io.py:628-657 | as written: an empty area list fails in min() and changes nothing; IndexError, with nothing written, exactly when the visited rows are not empty and an area containing row_start overruns the row; otherwise each visited row takes the value in the channels written by every area containing the first visited row, since row_index never advances |
| HdfFlags.HdfFlagSet.UpdFlagsetIntended | dw/core/io.py:628-657 | corrected: IndexError exactly when some visited row has an overrunning area; every visited row up to the first such one takes the value in the channels written by the areas containing that row itself, and every other row is unchanged |
| HdfFlags.HdfFlagSet.SingleAreaExact | dw/core/io.py:638-655 | with a single area the update as written sets exactly the cells of its rows and the channels it writes, so the fixed row index is harmless there |
| HdfFlags.HdfFlagSet.FixedRowIndexDiffers | dw/core/io.py:646-653 | with two stacked areas the second row takes the first area's channels and never gets its own as written, while the corrected update gives it its own |
| HdfFlags.MinA0 | dw/core/io.py:644 | min(x_mins) is a lower bound of the areas' first rows and is one of them |
| HdfFlags.MaxA1 | dw/core/io.py:645 | max(x_maxs) is an upper bound of the areas' end rows and is one of them |
| HdfFlags.VisitedRows | dw/core/io.py:648 | iterrows(start, stop) visits only rows in [min start, max stop) |
| Sweep.Keys | dw/core/io.py:1386 | the snapshot of the dictionary's keys lists every open run once, in order |
| Sweep.Column | dw/core/io.py:1384 | `A[:, i]` holds cell i of every row, in row order |
| Sweep.CloseUpTo | dw/core/io.py:1386-1398 | the runs still open after the closing loop were open before it, and each stays a run inside the column |
| Sweep.ScanUpTo | dw/core/io.py:1400-1413 | the scan keeps every open run inside the column, and a run being scanned started at an earlier row |
| Sweep.EmitAll | dw/core/io.py:1415-1417 | in the last column with a run still being scanned, one rectangle is emitted per open run |
| Sweep.ColumnStep | dw/core/io.py:1383-1417 | one column step keeps every open run inside the column |
| Sweep.SweepUpTo | dw/core/io.py:1383-1417 | the open runs after the first i columns stay inside the mask |
| Sweep.Sweep | dw/core/io.py:1377-1418 | the nested loops compute the sweep specification column by column |
| Sweep.SweepColumn | dw/core/io.py:1384-1417 | one iteration of the column loop computes one column step |
| Sweep.CloseColumn | dw/core/io.py:1386-1398 | the loop over the key snapshot emits and deletes exactly as the closing specification does |
| Sweep.ScanColumn | dw/core/io.py:1400-1413 | the row loop opens and records runs exactly as the scanning specification does |
| Sweep.CloseSound | dw/core/io.py:1386-1398 | on a 0/1 mask every rectangle the closing loop emits is inside the mask and covers only flagged cells, and every run it keeps is flagged up to this column |
| Sweep.ExtendSound | dw/core/io.py:1396 | a run flagged up to the previous column that has no unflagged cell in this column is flagged up to this column |
| Sweep.ScanSound | dw/core/io.py:1400-1413 | every run the scan records is all flagged in this column, as is the run being scanned |
| Sweep.ColumnStepSound | dw/core/io.py:1383-1417 | a whole column step emits only sound rectangles and keeps only runs flagged up to this column |
| Sweep.SweepUpToSound | dw/core/io.py:1383-1417 | after the first i columns every emitted rectangle is sound and every open run is flagged up to column i - 1 |
| Sweep.SweepSound | dw/core/io.py:1377-1418 | on a 0/1 mask every emitted (r0, r1, c0, c1) has r0 <= r1 and c0 <= c1, lies inside the mask and covers only flagged cells |
| Sweep.LastColumnLost | dw/core/io.py:1394-1417 | a mask flagged only in its whole last column yields no rectangle, because the run opened there is never emitted |
| Sweep.BottomCellLost | dw/core/io.py:1402-1413 | a single flagged cell in the bottom row yields no rectangle, because the run ending in the last row is never recorded |
| Commands.Construct | dw/core/commands.py:87-101 | an attribute the subclass preset is kept; a missing is_undoable or is_loggable becomes True and a missing is_flag becomes False |
| Commands.CommandDefaults | dw/core/commands.py:87-101 | every command is loggable; exactly the open, open-directory and fit-file commands cannot be undone, and exactly the two automatic-flagging commands are flagging commands |
| Commands.SlotInRange | dw/core/commands.py:343 | `datasets[i]` with a valid, possibly negative, index reads the element at the slot it names, which lies inside the list |
| Commands.Handles | dw/core/commands.py:407-408 | the stored handle dictionary has exactly the keys get_flagsets returned, each holding the operation's number |
| Commands.DwData.constructor | dw/core/data_def.py:210-222 | a fresh data object holds the opened flag table and datasets, no correction file, correction off, no selected algorithm, no working dataset and no saved flag list |
| Commands.DwData.NewFlagSet | dw/core/commands.py:339-349 | a bad dataset index fails with IndexError and changes nothing; no areas makes new_flagset fail with TypeError after the table has been created; otherwise the table gains the new records and the dataset's flagsets hold the returned handle under the returned key, and nothing else changes |
| Commands.DwData.UpdFlagSet | dw/core/commands.py:377-383 | the FITS update does nothing, so the command succeeds exactly when the dataset index is valid and the key is in its flagsets, failing with IndexError or KeyError otherwise |
| Commands.DwData.GetFlagSets | dw/core/commands.py:404-410 | a bad dataset index fails with IndexError; otherwise the dataset's flagsets and flagsets_rif become the two dictionaries get_flagsets returns, or its error is returned and nothing changes |
| Commands.DwData.DelFlagSet | dw/core/commands.py:433-437 | succeeds exactly when the index is valid, the key is stored, the table exists and the handle is an operation handle; the table then loses that operation's records with later numbers lowered, and on failure nothing changes |
| Commands.DwData.DelSelFlag | dw/core/commands.py:459-465 | a bad index fails with IndexError and a dataset without feed and section with TypeError; otherwise the table becomes the result of del_sel_flags for str(feed) and str(section), or its error is returned |
| Commands.DwData.MergeFlagSets | dw/core/commands.py:489-513 | as written: the table becomes the merge outcome with del_table called on each selected handle in key order with its stale operation number, or on its first error nothing changes; the datasets and the session are untouched |
| Commands.DwData.MergeFlagSetsCorrected | dw/core/commands.py:489-513 | corrected: the same merge with each selected operation deleted once, from the highest number down; on its first error nothing changes, and the datasets and the session are untouched |
| Commands.DwData.Merge | dw/core/commands.py:489-513 | the mask-reading loop, the deletion loop (as written or as intended) and the write give exactly the merge outcome, and every failure leaves the table as it was |
| Commands.DwData.ArrayFlagSet | dw/core/commands.py:537-552 | fails with IndexError exactly when there are arrays and the dataset index is bad; otherwise the table becomes the result of saving each array in list order, and stays as it was for no arrays |
| Commands.DwData.AutoFlagCompute | dw/core/commands.py:597-621 | without a selected algorithm it fails with AttributeError; a threshold outside its bounds fails with that error; on success the outputs are selected (when labels are given) and computed, tagged with the working dataset's feed and section, and either written through array-save with last_flag_list cleared or kept in last_flag_list with the table untouched |
| Commands.DwData.PropagToFeeds | dw/core/commands.py:287-290 | a bad index fails with IndexError and a missing key with KeyError; otherwise one propag_to_feed per target feed runs in list order with the handle's operation number, the table changing only on success |
| Commands.DwData.ToggleCorrection | dw/core/commands.py:257-266 | as written: the correction switch is flipped whether or not a correction file is open, since cfileh is always bound, and nothing else changes |
| Commands.DwData.ToggleCorrectionCorrected | dw/core/commands.py:257-266 | corrected: without a correction file the toggle is refused with IOError and nothing changes; with one, correction is flipped and nothing else changes |
| Commands.OpMask | dw/core/commands.py:495-496 | the mask of an operation has the table's rows and columns |
| Commands.HandleMask | dw/core/io.py:930-935 | get_data on an operation handle gives its operation's mask, and KeyError without a flag table; on the table data new_flagset stores it fails with IndexError below two records and AttributeError from two records up |
| Commands.HandleNop | dw/core/commands.py:288 | an operation handle gives its number; the table data new_flagset stores gives IndexError below three records, and otherwise TypeError (see Left out) |
| Commands.MaskList | dw/core/commands.py:493-496 | success gives one mask per key, in order, each the operation mask of its handle; failure means some key is missing or its handle cannot be read |
| Commands.MaskListErrStays | dw/core/commands.py:494-496 | the first key that fails ends the read loop with that failure |
| Commands.Nops | dw/core/commands.py:503-505 | the numbers used for deletion are the ones the handles hold, in key order |
| Commands.DeleteInKeyOrder | dw/core/commands.py:503-505 | as written: the deletion loop calls del_table in key order with the number each handle held before the loop, which is FlagMerge.DeleteInTurn of those numbers |
| Commands.DeleteAll | dw/core/commands.py:503-505 | corrected: the deletion loop deletes the selected operations from the highest number down, each once, which by FlagMerge.MergeKeepsUnselected keeps exactly the unselected records |
| Commands.MergeAsWrittenDiffers | dw/core/commands.py:503-505 | with handles of operations 2 and 3 out of 1..4, deleting with the handles' numbers in key order, as written, keeps operation 3 and deletes the unselected 4, while the corrected deletion keeps exactly 1 and 4 |
| Commands.MergedMaskIsUnion | dw/core/commands.py:499-500 | a merged cell is 1 exactly when one of the merged operations flags it in the table as it was before the merge, and every cell is 0 or 1 |
| Commands.MergeWritesAfterDeleting | dw/core/commands.py:502-513 | for either deletion loop, the merged set is written after every deletion: the table left by the deletions is kept as its prefix, and each new record has the next number, the text "None" in algorithm, result, feed, section and polarisation (new_flagset_from_array's defaults), an empty params text, and a rectangle sound for the merged mask |
| Commands.SaveArraysSnoc | dw/core/commands.py:540-552 | saving one more array applies one more save to the table the earlier arrays left |
| Commands.SaveAll | dw/core/commands.py:540-552 | the loop saves every array in list order |
| Commands.SaveArraySpec | dw/core/commands.py:541-552 | saving one array keeps every earlier record and appends one record per rectangle of the array's sweep, in order, under the next operation number with that array's algorithm, params, result, feed, section and polarisation as stored, "None" where the array has none |
| Commands.SaveArrayNop | dw/core/commands.py:541-552 | an array whose sweep yields no rectangle adds nothing, and otherwise it adds exactly one operation numbered one past the last |
| Commands.IntCell | dw/core/io.py:1390-1406 | a float mask cell equals FLAG_TRUE exactly when it is 1.0 and FLAG_FALSE exactly when it is 0.0 |
| Commands.IntMask | dw/core/commands.py:545 | the mask handed to the sweep has the shape of the float mask, cell by cell |
| Commands.ParamItems | dw/core/io.py:1334-1336 | the params dictionary contributes one (str(key), str(value)) item per parameter, in order |
| Commands.ArraysOf | dw/core/commands.py:540-552 | one flag array per computed result, in order |
| Commands.Values | dw/core/commands.py:614 | `flag_results.values()` lists the result objects in key order |
| Commands.Tagged | dw/core/commands.py:615-617 | tagging keeps the keys and sets feed and section on every result object, changing nothing else |
| Commands.RunThreshold | dw/core/commands.py:612-614 | set_output runs only for given labels, then compute; a threshold outside its bounds gives that error, and success leaves selected, computed outputs of the data's width, with parameters untouched |
| Commands.TagAll | dw/core/commands.py:615-617 | no results need nothing; otherwise tagging succeeds exactly when the working dataset exists and has a feed and section, failing with TypeError without a working dataset and IndexError for a bad one |
| Commands.TaggedKeeps | dw/core/commands.py:615-617 | setting feed and section changes neither the keys, nor the masks, nor what compute produced |
| Commands.ComputedShapes | dw/flag/rfi_dect_func.py:347-350 | SimpleThreshold's outputs are the thresholded data, of the data's shape |
| Commands.ArraysShaped | dw/core/commands.py:540-552 | results of the data's width give well-shaped flag arrays |
| Commands.TagOutputs | dw/core/commands.py:615-617 | the loop sets feed and section on every output object of the algorithm and changes nothing else of it |
| Commands.PropagErrStays | dw/core/commands.py:289-290 | once a copy has failed the loop is over and the rest of the feeds do nothing |
| Commands.PropagAll | dw/core/commands.py:289-290 | the loop copies to each feed in turn, stopping at the first failure |
| Commands.PropagKeepsPrefix | dw/core/io.py:1488-1501 | a copy keeps the table it is made on as its prefix, so the operation's records are still there for the next feed |
| Commands.PropagFailsFirst | dw/core/commands.py:288-290 | only an operation without records fails, with IndexError at the first feed, before anything is written; otherwise the table only grows at its end |
| Commands.OrderedLast | dw/core/io.py:1325 | in a table in operation order the last record's number is the largest |
| Commands.PropagAdded | dw/core/io.py:1500-1501 | the records a copy appends all carry the number one past the last |
| Commands.OrderedAppend | dw/core/io.py:1341-1354 | appending records numbered above every existing one keeps the table in operation order |
| Commands.PropagStep | dw/core/io.py:1483-1501 | one copy on an ordered table keeps it ordered and adds no record to the copied operation |
| Commands.PropagCopiesOriginal | dw/core/commands.py:288-290 | on a table in operation order every feed's copy is made of exactly the original operation's records, later copies never copy earlier copies, and the table stays in order |
| Commands.ToggleTwice | dw/core/commands.py:263-266 | two toggles restore the switch and one toggle changes it |
| Commands.ToggleWithoutCorrectionFile | dw/core/commands.py:258-266 | on a fresh data object, whose cfileh is bound to None, the toggle as written turns the correction on, while the corrected toggle refuses with IOError |
| FlagMerge.SumMasks | dw/core/commands.py:499 | `reduce(add, masks)` has the given shape and holds at each cell the sum of the masks there |
| FlagMerge.Positive | dw/core/commands.py:500 | `(s > 0).astype(int)` keeps the shape of the summed mask |
| FlagMerge.SumAtPositive | dw/core/commands.py:499-500 | for masks with no negative cell the sum is never negative and is positive exactly when some mask has a positive value there |
| FlagMerge.MergeIsOr | dw/core/commands.py:499-500 | merging ORs the masks: a merged cell is 1 when some input mask flags it and 0 otherwise |
| FlagMerge.TrackRowsAppend | dw/core/commands.py:503-505 | the survivors of a concatenation are the survivors of each part, in order |
| FlagMerge.DelTableRowsAppend | dw/core/io.py:1520-1524 | del_table acts on each record independently, so it distributes over concatenation |
| FlagMerge.DelTableRowsSingle | dw/core/io.py:1520-1524 | one record survives a deletion, renumbered, exactly when it is of another operation |
| FlagMerge.TrackRowsStep | dw/core/io.py:1520-1524 | one more del_table on the tracked records is one more step of tracking their numbers |
| FlagMerge.DeleteInTurnTracks | dw/core/commands.py:503-505 | deleting in turn keeps exactly the records whose tracked number survives, with that number |
| FlagMerge.TrackRowsNone | dw/core/commands.py:503-505 | with no deletion every record stays as it is |
| FlagMerge.StaleNopDeletesWrongSet | dw/core/commands.py:503-505 | as written, merging the handles of operations 2 and 3 out of 1..4 keeps operation 3's record (renumbered 2) and deletes operation 4's, which was not selected |
| FlagMerge.StaleNopTracks | dw/core/commands.py:503-505 | after deleting 2 and then 3, operation 1 keeps its number, 2 is gone, 3 has become 2 and 4 is gone |
| FlagMerge.TrackRowsSingle | dw/core/commands.py:503-505 | one record survives the deletions exactly when its tracked number does, carrying it |
| FlagMerge.InsertDesc | dw/core/commands.py:503 | inserting into the ordered list adds exactly that one number |
| FlagMerge.SortDesc | dw/core/commands.py:503 | sorting keeps the length and the members |
| FlagMerge.InsertDescSorted | dw/core/commands.py:503 | inserting a new number into a strictly descending list keeps it strictly descending |
| FlagMerge.SortDescSorted | dw/core/commands.py:503 | sorting distinct numbers gives a strictly descending list |
| FlagMerge.TrackDescending | dw/core/commands.py:503-505 | along a strictly descending list a record is deleted exactly when its number was listed, numbers below the latest deletion never move, and higher survivors stay at or above it |
| FlagMerge.MergeDeletesExactly | dw/core/commands.py:503-505 | corrected: deleting the selected operations from the highest number down deletes a record exactly when its operation was selected |
| FlagMerge.MergeKeepsUnselected | dw/core/commands.py:503-505 | corrected: the kept records are exactly the unselected ones, in order, changed at most in their number |
| FlagMerge.CorrectedKeepsUnselected | dw/core/commands.py:503-505 | corrected, on the table of operations 1..4 with 2 and 3 selected: operations 1 and 4 are kept, 4 renumbered 2 |
| FlagMerge.DescendingOfTwoThree | dw/core/commands.py:503 | the corrected order deletes operation 3 before operation 2 |
| FlagMerge.CorrectedTracks | dw/core/commands.py:503-505 | after deleting 3 and then 2, operation 1 keeps its number, 2 and 3 are gone and 4 has become 2 |
| FlagMerge.KeptRows | dw/core/commands.py:503-505 | when tracking deletes exactly the selected numbers, the survivors are the unselected records in order |
| FlagMerge.OneSetAgrees | dw/core/commands.py:503-505 | with one selected operation the key-order deletion as written already deletes exactly as intended |
| RfiDect.Keys | dw/flag/rfi_dect_func.py:263 | `keys()` lists the dictionary's keys in its order |
| RfiDect.Lookup | dw/flag/rfi_dect_func.py:270 | a key is found exactly when it is among the keys |
| RfiDect.LookupPut | dw/flag/rfi_dect_func.py:198 | storing a key keeps the keys distinct and loses none; afterwards that key holds the new value and every other key keeps its own |
| RfiDect.LookupReplaced | dw/flag/rfi_dect_func.py:198 | replacing the value of a present key in place changes only that key's lookup |
| RfiDect.LookupSameKeys | dw/flag/rfi_dect_func.py:198-207 | two dictionaries with the same key order that agree under a key give the same lookup for it |
| RfiDect.UpdateAllSpec | dw/flag/rfi_dect_func.py:201-207 | after `params.update(par_dict)` each given key holds its last given value and every other key keeps its value; keys stay distinct and none is lost, and nothing is range-checked |
| RfiDect.LookupLast | dw/flag/rfi_dect_func.py:206 | the last pair of a keyword set wins |
| RfiDect.AsMap | dw/flag/rfi_dect_func.py:199 | `self.__dict__.update(self.params)` exposes exactly the parameter names as attributes |
| RfiDect.AsMapLookup | dw/flag/rfi_dect_func.py:199 | each attribute holds the value of the parameter of that name |
| RfiDect.DefParams | dw/flag/rfi_dect_func.py:330 | each class's def_params has distinct keys |
| RfiDect.Labels | dw/flag/rfi_dect_func.py:460-461 | `map(str, range(lo, hi))` holds hi - lo labels, the k-th being str(lo + k), and none when hi <= lo |
| RfiDect.DwtLabels | dw/flag/rfi_dect_func.py:456-461 | FullDWT's defaults are available labels, at most three of them, and start at str(level / 2) for a level of 2 or more |
| RfiDect.DwtBounds | dw/flag/rfi_dect_func.py:461 | the default range [level / 2, min(level, level / 2 + 3)) lies inside [0, level), spans at most 3, and is non-empty for a level of 2 or more |
| RfiDect.LabelsWithin | dw/flag/rfi_dect_func.py:460-461 | a run of labels inside [0, level) is among the available ones |
| RfiDect.AvailDistinct | dw/flag/rfi_dect_func.py:336 | every algorithm's available labels are distinct |
| RfiDect.KindsOf | dw/flag/rfi_dect_func.py:151 | `__subclasses__()` lists one class per direct subclass, in order |
| RfiDect.ImplementationsSpec | dw/flag/rfi_dect_func.py:148-157 | get_implementations returns a class exactly when it is executable and lies below the class asked |
| RfiDect.NestedSpec | dw/flag/rfi_dect_func.py:151 | the nested part of the list holds an executable class exactly when it lies below some direct subclass |
| RfiDect.RegistryIsSimpleThreshold | dw/flag/rfi_dect_func.py:148-157 | the registry offers SimpleThreshold and nothing else |
| RfiDect.ZeroMask | dw/flag/rfi_dect_func.py:248 | `np.zeros` of the given shape is that many rows of that many zeros |
| RfiDect.OutputsUpToSpec | dw/flag/rfi_dect_func.py:243-253 | set_output's loop keeps keys distinct, selects exactly the requested labels that are available, and gives each a zero mask, the algorithm's name and the label as flagresult |
| RfiDect.CountSel | dw/flag/rfi_dect_func.py:660-671 | the count of selected labels among the first positions is at most their number |
| RfiDect.CountSelSet | dw/flag/rfi_dect_func.py:655-671 | over distinct labels, the count is the size of the set of labels both listed and selected |
| RfiDect.DistinctCard | dw/flag/rfi_dect_func.py:655 | distinct labels make a set of the same size |
| RfiDect.CountSelKeys | dw/flag/rfi_dect_func.py:655-671 | when the selected labels are distinct available ones, counting over the available list counts every selected label once, so ii ends at l_flag |
| RfiDect.CountSelPrefix | dw/flag/rfi_dect_func.py:664-670 | the counter ii grows by one exactly at a selected label |
| RfiDect.CountSelMono | dw/flag/rfi_dect_func.py:660-671 | the counter never exceeds its final value |
| RfiDect.BoundCheck | dw/flag/rfi_dect_func.py:343-344 | the threshold passes only when strictly inside (lower, upper), and with a bounded parameter it is rejected with ValueError exactly when value <= lower or value >= upper; a NaN upper bound never rejects |
| RfiDect.DefaultBoundOnlyLower | dw/flag/rfi_dect_func.py:330 | with the default bounds (0, NaN) the check rejects exactly the values <= 0 |
| RfiDect.ThresholdRule | dw/flag/rfi_dect_func.py:349-350 | for a non-negative threshold a cell is 0 or 1, and it is 1 exactly when the deviation from the median reaches k * rms and is positive |
| RfiDect.ThresholdMonotone | dw/flag/rfi_dect_func.py:349-350 | raising k never flags a cell that a smaller k left unflagged |
| RfiDect.ThresholdMatrix | dw/flag/rfi_dect_func.py:349-350 | the result has the data's shape and each cell is the flag rule applied to that cell |
| RfiDect.Algorithm.constructor | dw/flag/rfi_dect_func.py:135-145 | params is the class defaults updated with kwargs (FullDWT's level 0 replaced by the deepest level), the attributes mirror it, the available and default outputs are those of the class, the outputs are selected from the defaults, and a libdw algorithm gets a struct holding the data and sizes |
| RfiDect.Algorithm.InitOutputs | dw/flag/rfi_dect_func.py:221-228 | _define_output sets the class's available and default labels, and the outputs of set_output on the defaults have distinct available keys |
| RfiDect.Algorithm.InitParamsDistinct | dw/flag/rfi_dect_func.py:142-144 | the initial parameters have distinct keys |
| RfiDect.Algorithm.InitParamsSpec | dw/flag/rfi_dect_func.py:141-145 | each initial parameter holds its kwargs value if given and its class default otherwise, except that FullDWT's level 0 becomes the deepest level; the class defaults themselves are a separate value and never change |
| RfiDect.Algorithm.UpdParamsValues | dw/flag/rfi_dect_func.py:201-207 | the given keys are overwritten, the other keys keep their values, the attributes follow, and the outputs are untouched |
| RfiDect.Algorithm.UpdParamValue | dw/flag/rfi_dect_func.py:192-199 | one key is overwritten, the others keep their values, and the outputs are untouched |
| RfiDect.Algorithm.SetOutput | dw/flag/rfi_dect_func.py:235-253 | None means the defaults; the outputs become the selected available labels, a label is selected exactly when it is available and requested, the parameters and label lists do not change, and a libdw algorithm's struct gets the new counts, a zeroed rows x cols mask in every output slot, the rank map from available to selected outputs and its inverse |
| RfiDect.Algorithm.SelectOutputs | dw/flag/rfi_dect_func.py:243-253 | the loop builds the selected outputs in request order |
| RfiDect.Algorithm.StoreIndexMaps | dw/flag/rfi_dect_func.py:654-676 | libdw gets one fresh rows x cols byte matrix per selected output, l_flag and l_flag_prod are the two counts, flag_product[j] is the rank of label j among the selected ones or -1, and the two index maps are mutually inverse |
| RfiDect.Algorithm.ComputeThreshold | dw/flag/rfi_dect_func.py:339-353 | a threshold outside its bounds raises before any output changes; otherwise each output becomes the flag rule applied to its polarisation's data with that polarisation recorded, keys and parameters unchanged |
| RfiDect.OutputsSelected | dw/flag/rfi_dect_func.py:243-253 | the selected keys are distinct and are exactly the requested labels that are available |
| RfiDect.RankMaps | dw/flag/rfi_dect_func.py:660-671 | flag_product has one entry per available label, the rank among selected labels or -1, flag_data_ind one entry per selected label, and the two maps are mutually inverse |
| RfiDect.RankStep | dw/flag/rfi_dect_func.py:663-670 | one loop step puts the current count at a selected label, -1 at another, and advances the count only at a selected label |
| RfiDect.AttachMasks | dw/flag/rfi_dect_func.py:667-669 | every libdw slot below l_flag gets a fresh zero-filled matrix of the given size |
| RfiDect.MaskShapeAsWritten | dw/flag/rfi_dect_func.py:248 | as written the mask has the shape of data[0], one dimension fewer than the data |
| RfiDect.LibDwMaskTooSmall | dw/flag/rfi_dect_func.py:248 | for a libdw algorithm on a rows x cols matrix with two rows or more that mask holds cols bytes, fewer than the rows * cols that the C kernels write |
| RfiDect.IndexMapsAreInverse | dw/flag/rfi_dect_func.py:660-671 | maps built from the ranks are mutually inverse |
| RfiDect.RankInjective | dw/flag/rfi_dect_func.py:664-666 | two selected positions with the same rank are the same position |
| RfiDect.RankStrict | dw/flag/rfi_dect_func.py:664-670 | a selected position has a smaller rank than every later position |
| RfiDect.CountSelBetween | dw/flag/rfi_dect_func.py:660-671 | the counter never decreases along the loop |
| LibDw.DwStruct.constructor | dw/flag/rfi_dect_func.py:621-633 | a new structure has every buffer reference null and every count 0 |
| LibDw.DwStruct.InitDw | libdw/src/lib.c:49-65 | the structure records the data buffer and its rows and columns, returns 0, and its flag fields are untouched |
| LibDw.DwStruct.AllocFlagOut | libdw/src/lib.c:67-80 | the slot array is replaced by a fresh one of n empty slots, l_flag becomes n, every other field is kept and 0 is returned |
| LibDw.DwStruct.SetFlagOut | libdw/src/lib.c:82-97 | corrected guard: an index outside [0, l_flag) returns -1 and changes nothing; otherwise exactly slot i now holds the given matrix and 0 is returned |
| LibDw.DwStruct.SetFlagProd | libdw/src/lib.c:99-129 | flag_product becomes a fresh copy of the first l_flag_prod entries of the product array and flag_data_ind a fresh copy of the first l_flag labels; l_flag_prod is recorded and the data and slots are kept |
| LibDw.DwStruct.SingleChannel | libdw/src/lib.c:135-155 | in flag matrix 0 every cell of the chosen column becomes 1 and every other cell keeps its value |
| LibDw.DwStruct.EvenOdd | libdw/src/lib.c:157-214 | in each selected product's matrix, the columns of that product's parity (index 0, 2, ... for product 0; 1, 3, ... for product 1) become 1 across all rows, every other cell keeps its value, and unselected products (-1) write nothing |
| LibDw.DwStruct.FullDwt | libdw/src/lib.c:216-227 | the unimplemented kernel returns 0 and changes no state |
| LibDw.CopyPrefix | libdw/src/lib.c:113-118 | the copy loop yields a fresh array equal to the first n entries of its source |
| LibDw.CellOf | libdw/src/lib.c:151 | the row-major index row * cols + c of a cell lies inside the rows x cols buffer and gives back that row and column |
| LibDw.SameCell | libdw/src/lib.c:191 | an index is fixed by its row and column, so two loop writes to different cells never collide |
| LibDw.RowOf | libdw/src/lib.c:149-152 | every index inside the buffer has a row below rows, so the row loop reaches every cell of the column |
| LibDw.FlagColumns | libdw/src/lib.c:189-191 | the nested loop over columns start, start + 2, ... and all rows sets exactly the cells whose column has the given parity to 1 and keeps all others |
| LibDw.SetFlagOutNegativeSlot | libdw/src/lib.c:91-94 | slot -1 passes the C guard although it is outside the slot array |
| LibDw.BootstrapResample | libdw/src/lib.c:235-252 | each of the first len_out output slots receives draw % len_in, an index in [0, len_in) rather than an input value; slots past len_out are kept and 0 is returned |
| DataDef.To2D | dw/core/data_def.py:73-86 | a fresh len(array) x n_ch matrix whose every cell in row ii equals array[ii]; rows of a zero value are left at the zeros they start with, which is the same value |
| DataDef.Strip | dw/core/data_def.py:128 | stripping white space never lengthens a string and leaves none at either end |
| DataDef.List2Choices | dw/core/data_def.py:124-133 | one (key, label) pair per element in order; the label is str(c); the key is str(c) when int(c) succeeds and the element's position otherwise |
| DataDef.ChoiceKeysDistinct | dw/core/data_def.py:124-133 | two elements that both fail int(), or two distinct integers, get different keys |
| DataDef.ChoiceKeysCanCollide | dw/core/data_def.py:127-131 | a convertible string "1" at position 0 and a non-convertible "x" at position 1 both get key "1" |
| DataDef.Zeros | dw/core/data_def.py:149-150 | np.zeros(n) is n finite zeros |
| DataDef.SeqMax | dw/core/data_def.py:162 | np.max is an element of the samples and no sample exceeds it |
| DataDef.Normalised | dw/core/data_def.py:162 | f(x) / max(f(x)) has one entry per sample |
| DataDef.Scaled | dw/core/data_def.py:162 | numpy's element-wise division keeps the length |
| DataDef.Apply | dw/core/data_def.py:161 | evaluating the fitted function keeps one value per sample, f(x[i]) at i |
| DataDef.GetFit | dw/core/data_def.py:148-165 | a begin below 0 or an end past the samples makes np.zeros fail with ValueError |
| DataDef.GetFitErrors | dw/core/data_def.py:153-160 | once the paddings are valid, get_fit fails exactly when the fit rejects the sliced samples: an empty x gives ValueError for Chebyshev, ragged samples TypeError, and a spline without more points than its degree, or on ragged samples, dfitpack.error |
| DataDef.GetFitEmptySlice | dw/core/data_def.py:153-160 | begin == end gives ValueError for the Chebyshev fit and dfitpack.error for the spline |
| DataDef.GetFitPadding | dw/core/data_def.py:148-165 | for 0 <= begin < end <= N the fit succeeds exactly when the fit accepts the end - begin samples; then the correction has length N, is zero outside [begin, end) and holds the normalised fit inside; the residual is y - f(x) over the slice |
| DataDef.GetFitEndZero | dw/core/data_def.py:150-153 | with end 0 the fit runs to the last sample, succeeding exactly when the fit accepts those samples, but the right padding is N zeros, so the correction is twice as long as the data |
| DataDef.NormalisedPeak | dw/core/data_def.py:162 | when some fitted value is positive the normalised fit is finite, at most 1 everywhere, and exactly 1 at the maximum |
| DataDef.ScaledAt | dw/core/data_def.py:162 | dividing a value by a positive maximum it does not exceed gives a finite value at most 1, and 1 at the maximum |
| DataDef.DivideAtMost | dw/core/data_def.py:162 | a / m for 0 < m and a <= m is at most 1, times m gives a back, and is 1 for a = m |
| DataDef.UpdFlagset | dw/core/data_def.py:261-270 | the flag table and session stay as they were; the dataset's flag sets are refreshed first, a failed refresh is returned as is, and the update then fails with KeyError exactly when the key is not among the refreshed flag sets |
| DataDef.SlotAfterRefresh | dw/core/data_def.py:269-270 | after a successful refresh the dataset index is still valid |
| DataDef.DeflagFlagset | dw/core/data_def.py:272-279 | deflagging has the outcome of upd_flagset (with FLAG_FALSE) |
| DataDef.FlagsetMeta | dw/core/data_def.py:498-513 | a result has exactly the keys algorithm, params, flagresult; an invalid dataset index gives IndexError and a missing flag-set key KeyError |
| DataDef.FlagsetMetaValues | dw/core/data_def.py:505-513 | for the table-data handle the lookup fails with IndexError when it holds fewer than two records, and otherwise every field is "" (the AttributeError is caught); for an operation handle the lookup fails exactly when no table record has its nop, and otherwise all three fields come from the first such record |
| DataDef.FirstUnique | dw/core/io.py:1503-1512 | get_table_meta reads a field from the first record with the given nop |
| DataDef.AutoFlagGetOut | dw/core/data_def.py:562-572 | without a selected algorithm the attribute lookup fails; otherwise the available outputs are returned in order with a dictionary over exactly those labels giving each its is_out_selected |
| Widgets.MuRangeOrder | dw/gui/widgets.py:113-120 | a non-negative factor keeps an axis's limits in order and a negative one reverses them |
| Widgets.ScaleOrder | dw/gui/widgets.py:120 | multiplying by a non-negative factor keeps order and by a negative one reverses strict order |
| Widgets.MuRangeInverse | dw/gui/widgets.py:113-120 | converting the limits with the factors and back with their reciprocals gives the original limits |
| Widgets.Unscale | dw/gui/widgets.py:120 | a * k * (1 / k) is a for any non-zero k |
| Widgets.ArgMin | dw/gui/widgets.py:174-175 | numpy argmin is the first index of a smallest element |
| Widgets.ArgMax | dw/gui/widgets.py:186 | numpy argmax is the first index of a largest element |
| Widgets.Offsets | dw/gui/widgets.py:185 | x_array - x has one entry a[i] - x per element |
| Widgets.Distances | dw/gui/widgets.py:174 | np.abs(x_array - x) has one entry abs(a[i] - x) per element |
| Widgets.NearestCoord | dw/gui/widgets.py:166-177 | fails with ValueError exactly when either array is empty; otherwise each returned value is an element of its array at least as close to the target as every other element |
| Widgets.Members | dw/gui/widgets.py:200 | a sequence with an element satisfying the test keeps at least one element in its filtered copy |
| Widgets.FloorCoordFails | dw/gui/widgets.py:179-188 | floor_coord fails exactly when every element is above x |
| Widgets.FloorCoordLargestBelow | dw/gui/widgets.py:179-188 | on an ascending array whose first element is at most x, floor_coord returns an element of the array at most x that is the largest such element |
| Widgets.CeilCoordSmallestAbove | dw/gui/widgets.py:190-201 | on an ascending array: it fails exactly on the empty array; past the last element it returns the last element; otherwise it returns an element at least x that is the smallest such element |
| Widgets.FilterSplit | dw/gui/widgets.py:186 | when the test holds on exactly a prefix (or exactly a suffix) of length k, boolean indexing keeps exactly that part |
| Widgets.FilterAll | dw/gui/widgets.py:186 | boolean indexing with a test that holds everywhere keeps everything and one that holds nowhere keeps nothing |
| Widgets.AtMost | dw/gui/widgets.py:186 | on an ascending array, the count k of elements at most x splits it into a prefix at most x and a suffix above x |
| Widgets.Below | dw/gui/widgets.py:200 | on an ascending array, the count k of elements below x splits it into a prefix below x and a suffix at least x |
| Widgets.FloorCoordNeedsOrder | dw/gui/widgets.py:185-188 | on the unsorted array [5, 1] with x = 2 the filtered index points at 5, which is above x |
| Widgets.OrderedRect | dw/gui/widgets.py:245-260 | other items fail (minx is unbound); a rectangle gives its corners reordered so min x <= max x and min y <= max y; a range gives its ends in order with ylimits[1] and ylimits[0] as the y values |
| Widgets.OrderedRectIdempotent | dw/gui/widgets.py:245-253 | ordering an ordered rectangle changes nothing, and swapping its two corners gives the same ordering |
| BpcGui.NormalizeChoice | bpc/bpcgui.py:47-59 | a 2-tuple gives (key, value, None), a 3-tuple (key, value, img), a bare value (its position, value, None); a tuple of any other length fails to unpack with ValueError, and nothing else fails |
| BpcGui.NormalizedUpTo | bpc/bpcgui.py:38-40 | the normalised first n items, each equal to normalising that item at its position, and a failure exactly when one of them fails |
| BpcGui.ChoicesVariable.constructor | bpc/bpcgui.py:33-35 | a new variable holds the single choice ("0", "0") with default "0" |
| BpcGui.ChoicesVariable.Call | bpc/bpcgui.py:44-45 | calling the variable returns its current choices |
| BpcGui.ChoicesVariable.Set | bpc/bpcgui.py:37-42 | when an item fails, ValueError and nothing changes; otherwise the choices become the normalised items in order, and the default becomes the first key, or, for an empty list, stays as it was while IndexError is raised |
| BpcGui.FailureStays | bpc/bpcgui.py:39-40 | once one item fails to normalise, the whole list fails |
| BpcGui.BareKeys | bpc/bpcgui.py:54-56 | a list of bare values always normalises, to its values keyed 0, 1, 2, ... with no image |
| BpcGui.PropertiesChanged | bpc/bpcgui.py:500-516 | -1 is returned exactly for an image with samples whose fit range is rejected, i.e. neither a last sample that is non-zero, below the sample count and above the first, nor a last sample 0 with the first below the sample count |
| BpcGui.AcceptedRangeFits | bpc/bpcgui.py:506-510 | for every range the dialog accepts, get_fit fails only where the fit itself rejects the selected samples, and a successful fit's correction has the data's length, or twice it when the last sample is 0 |
| WriteMetadata.Split | scripts/writemetadata.py:79 | line.split('\t') yields at least one piece and no piece contains the separator |
| WriteMetadata.SplitJoin | scripts/writemetadata.py:79 | splitting loses nothing: joining the pieces with the separator gives the line back |
| WriteMetadata.InterpBetween | scripts/writemetadata.py:117-119 | np.interp between two samples stays between their values and meets each value at its own epoch |
| WriteMetadata.FractionInUnit | scripts/writemetadata.py:117-119 | the interpolation weight (t - e0) / (e1 - e0) of a time inside [e0, e1) lies in [0, 1) and is 0 at e0 |
| WriteMetadata.ScaledBetween | scripts/writemetadata.py:117-119 | a difference scaled by a weight in [0, 1] lies between 0 and the difference |
| WriteMetadata.NearerIsNearer | scripts/writemetadata.py:122-125 | corrected name choice: the sample whose name is taken is never farther from the observation time than the other one |
| WriteMetadata.AsWrittenPicksFarther | scripts/writemetadata.py:122-125 | as written, time 1 between epochs 0 and 10 takes the name of the sample at 10, the farther one |
| WriteMetadata.AsWrittenIsFarther | scripts/writemetadata.py:122-125 | as written, whenever the two distances differ the name comes from the farther sample |
| WriteMetadata.SampleWithName | scripts/writemetadata.py:115-125 | the sample carries the given name and every numeric key interpolated between the two bracketing samples |
| WriteMetadata.InterpolatedBetween | scripts/writemetadata.py:115-119 | every interpolated value of a bracketed time lies between the values of the two samples around it |
| WriteMetadata.AddLine | scripts/writemetadata.py:79-85 | reading one line appends its date, its epoch and its fields under the keys in order to every list, and keeps all earlier entries |
| WriteMetadata.Meta.constructor | scripts/writemetadata.py:46-48 | a new reader has its cursor at 1 and no metadata yet |
| WriteMetadata.Meta.GetMetaD | scripts/writemetadata.py:71-87 | fails with IndexError exactly when some line has too few fields, keeping the earlier metadata; otherwise entry j of the metadata holds line j's date, epoch and fields, and the cursor is kept |
| WriteMetadata.Meta.Seek | scripts/writemetadata.py:101-113 | a time outside the epochs gives the -1 return and leaves the cursor alone; otherwise the cursor ends on the first epoch at or after t with the previous epoch at or before t, having passed only epochs before t |
| WriteMetadata.Meta.GetMetaInterp1 | scripts/writemetadata.py:101-127 | as written: no sample exactly for a time outside the epochs; otherwise the sample bracketed by the cursor, named by the as-written choice |
| WriteMetadata.Meta.GetMetaInterp1Nearer | scripts/writemetadata.py:101-127 | corrected: the same bracketing and interpolation with the name of the nearer sample |
| WriteMetadata.Meta.InterpolateOne | scripts/writemetadata.py:135-137 | a result is the sample of a time inside the epochs, bracketed by the cursor and named as written or after the nearer sample; the -1 of an outside time fails when subscripted |
| WriteMetadata.Meta.GetMetaInterp | scripts/writemetadata.py:129-139 | as written: one sample per observation time in order, each interpolated between two consecutive epochs that bracket it and named by get_meta_interp_1's as-written choice; the metadata is unchanged |
| WriteMetadata.Meta.GetMetaInterpNearer | scripts/writemetadata.py:129-139 | corrected: the same samples, each named after the nearer of its two epochs |
| WriteMetadata.Meta.Interpolate | scripts/writemetadata.py:134-139 | the loop gives one bracketed sample per observation time, in order, named as the flag chooses, or the first failure |
| PolaOnOff.ShiftMatch | scripts/pola_on_off.py:54 | a match of the pattern in a string after its first character is a match one place earlier in the string's tail |
| PolaOnOff.Find | scripts/pola_on_off.py:54-59 | str.find returns -1 exactly when the pattern does not occur; otherwise it returns a position where the pattern matches, with no match before it |
| PolaOnOff.InWindow | scripts/pola_on_off.py:103 | the rows kept are exactly those of the dataset whose time + subtime * CLOCK lies strictly between t0 and tf |
| PolaOnOff.Column | scripts/pola_on_off.py:103 | the column of a key has one entry per row, the row's value under that key |
| PolaOnOff.WindowColumns | scripts/pola_on_off.py:102-103 | each of the five DATA_KEYS arrays is that key's column over the rows inside the window |
| PolaOnOff.OnOff.constructor | scripts/pola_on_off.py:48-61 | the file's state is the last of on, off, cal (in that order of testing) found in its name, or None; its window is the given start and stop and no data is read yet |
| PolaOnOff.OnOff.Fill | scripts/pola_on_off.py:100-105 | afterwards the file holds the columns of the dataset rows inside its window, and the result says exactly whether that window holds no row |
| PolaOnOff.Without | scripts/pola_on_off.py:106 | removing a key never lengthens the key list |
| PolaOnOff.Kept | scripts/pola_on_off.py:99-106 | the keys left after cleaning are no more than the keys before |
| PolaOnOff.OnOffDict.constructor | scripts/pola_on_off.py:80 | a new dictionary is valid and empty |
| PolaOnOff.OnOffDict.Put | scripts/pola_on_off.py:93 | storing a file under a key maps that key to it and keeps every other entry; a new key goes last in key order and a present key keeps its place; the keys stay distinct |
| PolaOnOff.OnOffDict.Snapshot | scripts/pola_on_off.py:120 | the dictionary read in key order has one entry per key |
| PolaOnOff.OnOffDict.GetPolaData | scripts/pola_on_off.py:97-106 | every file that was in the dictionary now holds the dataset rows inside its window; with clean the keys left are exactly, in order, those whose window holds a row, and without clean all keys stay; no surviving key changes its file |
| PolaOnOff.OnOffDict.At | scripts/pola_on_off.py:120 | on_off[on_off.keys()[ii]] is the ii-th file in key order, a negative ii counting from the end, and IndexError out of range |
| PolaOnOff.OnOffDict.DiffOnOff | scripts/pola_on_off.py:109-131 | diff_on_off up to its median gives exactly the result of the specification DiffSpec of the files in key order |
| PolaOnOff.OnOffDict.CountRows | scripts/pola_on_off.py:118-120 | the first loop collects, in order, the row count of every file in [i_start, i_stop), or stops at the first failure |
| PolaOnOff.OnOffDict.PairDiffs | scripts/pola_on_off.py:127-130 | the second loop gives the per-key lists of differences of the specification, pair by pair from i_start |
| PolaOnOff.OnOffDict.PairStep | scripts/pola_on_off.py:128-130 | one iteration of that loop adds pair p's five differences, key by key, or fails as the specification does |
| PolaOnOff.OnOffDict.Append | scripts/pola_on_off.py:215-228 | append gives exactly the specification AppendSpec of the files in key order |
| PolaOnOff.OnOffDict.Gather | scripts/pola_on_off.py:220-223 | the gathered lists hold, for every key, the arrays of the files in the state asked for, in key order |
| PolaOnOff.JoinAll | scripts/pola_on_off.py:225-228 | concatenating the gathered lists key by key gives the specification AppendSpec |
| PolaOnOff.TakeEntry | scripts/pola_on_off.py:221-223 | one file adds, under each key, its array at the end when its state is the one asked for, and nothing otherwise |
| PolaOnOff.PairRound | scripts/pola_on_off.py:128-130 | one pair of the second loop extends the differences of the previous pairs by the five differences of this pair |
| PolaOnOff.VisitKey | scripts/pola_on_off.py:100-106 | one round of the loop fills the file of key i and, with clean and an empty window, removes exactly that key, keeping the loop's invariant |
| PolaOnOff.EntriesOf | scripts/pola_on_off.py:99 | reading the files of a list of keys gives one entry per key |
| PolaOnOff.EntriesAt | scripts/pola_on_off.py:120 | entry i of the files read in key order is the file of key i |
| PolaOnOff.KeptStep | scripts/pola_on_off.py:105-106 | cleaning one more key keeps it exactly when its window holds a row |
| PolaOnOff.KeptAppend | scripts/pola_on_off.py:99-106 | cleaning two runs of keys one after the other is cleaning them joined |
| PolaOnOff.ElemsAppend | scripts/pola_on_off.py:93 | the keys of two joined key lists are the keys of both |
| PolaOnOff.ElemsIndex | scripts/pola_on_off.py:120 | every key in the list is one of its keys |
| PolaOnOff.ElemsIndexOf | scripts/pola_on_off.py:120 | every key of the dictionary sits at some position of the key list |
| PolaOnOff.DistinctAppend | scripts/pola_on_off.py:93 | two joined key lists have no repeated key exactly when neither has one and they share none |
| PolaOnOff.ElemsWithout | scripts/pola_on_off.py:106 | pop removes exactly the popped key from the key set |
| PolaOnOff.WithoutDistinct | scripts/pola_on_off.py:106 | pop keeps the keys distinct |
| PolaOnOff.KeptSound | scripts/pola_on_off.py:105-106 | every key left after cleaning was a key of the dictionary whose window holds a row |
| PolaOnOff.WithoutMiddle | scripts/pola_on_off.py:106 | popping a key that appears once removes it from its place and keeps the order of the other keys |
| PolaOnOff.WithoutAppend | scripts/pola_on_off.py:106 | removing a key from two joined lists removes it from each |
| PolaOnOff.WithoutAbsent | scripts/pola_on_off.py:106 | removing a key that is not there changes nothing |
| PolaOnOff.Trunc | scripts/pola_on_off.py:130 | a[:n, :] of a 2-D array is its first n rows (all of them when n is larger) with the same width; an array that is not 2-D (numbers, an empty list or ragged vectors) fails with IndexError and nothing else does |
| PolaOnOff.Sub | scripts/pola_on_off.py:130 | a - b succeeds exactly when both the row counts and the widths broadcast (equal, or one of them 1), and fails with ValueError otherwise |
| PolaOnOff.Normalize | scripts/pola_on_off.py:112-116 | a negative index counts once from the end; others are kept |
| PolaOnOff.CountAt | scripts/pola_on_off.py:120 | shape[0] of file ii's first array: IndexError for an index outside the keys, AttributeError for an array never filled, otherwise its row count |
| PolaOnOff.MinOf | scripts/pola_on_off.py:121 | min() of a non-empty list is one of its elements and no element is below it |
| PolaOnOff.PairFnAt | scripts/pola_on_off.py:130 | pair q under key kk reads the files i_start + 2q and i_start + 2q + 1 |
| PolaOnOff.Diffs | scripts/pola_on_off.py:123-130 | a result holds one list per key of DATA_KEYS |
| PolaOnOff.NPairsBounds | scripts/pola_on_off.py:127 | pair p of xrange(i_start, i_stop, 2) starts inside the range exactly when p is below the number of pairs |
| PolaOnOff.CountsErrStays | scripts/pola_on_off.py:119-120 | once a row count fails, the whole first loop fails with that error |
| PolaOnOff.DiffsErrStays | scripts/pola_on_off.py:127-130 | once a difference fails, the whole second loop fails with that error |
| PolaOnOff.CountsMeaning | scripts/pola_on_off.py:118-120 | the counts are those of the files i_start, i_start + 1, ... in turn, and a failure is the failure of one of those files |
| PolaOnOff.DiffsLength | scripts/pola_on_off.py:127-130 | after p whole pairs and k keys of the next one, list kk holds p differences, plus one when kk < k |
| PolaOnOff.DiffsEntry | scripts/pola_on_off.py:130 | entry q of list kk is the difference of pair q under key kk |
| PolaOnOff.SubCells | scripts/pola_on_off.py:130 | the difference has the broadcast shape and holds a - b cell by cell, an axis of size 1 stretched to the other's size |
| PolaOnOff.DiffEmptyRange | scripts/pola_on_off.py:119-121 | an empty range gives no counts, and min() of the empty list raises ValueError |
| PolaOnOff.DiffLists | scripts/pola_on_off.py:109-131 | on success the range is non-empty, and there is one list per key holding the difference of every pair of the range in pair order, each rows truncated to n_samp |
| PolaOnOff.NSampMeaning | scripts/pola_on_off.py:118-121 | n_samp is the row count of one of the files counted and no larger than any of them |
| PolaOnOff.CountedPairRows | scripts/pola_on_off.py:127-130 | a pair both of whose files lie inside the counted range differs in exactly n_samp rows |
| PolaOnOff.LastFileUncounted | scripts/pola_on_off.py:115-130 | with the default i_stop = -1 and two files, the uncounted last file is still paired; when it has fewer rows than n_samp the subtraction fails with ValueError |
| PolaOnOff.LastFileCounted | scripts/pola_on_off.py:115-130 | the same two files with i_stop = 2 count both, and with integration_l a vector per row the difference succeeds |
| PolaOnOff.ScalarIntegrationFails | scripts/pola_on_off.py:127-130 | the same two files with integration_l one number per row, as DW data stores it: the four vector keys succeed and `[:n_samp, :]` on the 1-D integration_l array raises IndexError |
| PolaOnOff.DiffNeeds2D | scripts/pola_on_off.py:127-130 | on success the range is non-empty, and both files of every pair are filled and 2-D under every key |
| PolaOnOff.ScalarIntegrationNeverDiffs | scripts/pola_on_off.py:109-130 | when every file's integration_l holds one number per row, diff_on_off fails for every i_start and i_stop |
| PolaOnOff.AsArray | scripts/pola_on_off.py:103 | np.array of the collected values holds exactly those values, and is 2-D exactly when they are vectors of one length |
| PolaOnOff.Concatenate | scripts/pola_on_off.py:226 | np.concatenate fails only with ValueError |
| PolaOnOff.JoinedUpTo | scripts/pola_on_off.py:225-226 | a result of the first d concatenations has d arrays |
| PolaOnOff.JoinedErrStays | scripts/pola_on_off.py:225-226 | once a concatenation fails, the whole last loop fails with that error |
| PolaOnOff.AppendNoMatch | scripts/pola_on_off.py:222-226 | with no file in the state asked for there is nothing to concatenate and append raises ValueError |
| PolaOnOff.BlocksNone | scripts/pola_on_off.py:222-223 | with no file in the state asked for the gathered list is empty |
| PolaOnOff.AppendRows | scripts/pola_on_off.py:215-228 | on success a row is in key k's array exactly when it is a row of key k of some file in the state asked for |
| PolaOnOff.JoinedAt | scripts/pola_on_off.py:225-226 | array k of the result is the concatenation of the arrays gathered under key k |
| PolaOnOff.ConcatRows | scripts/pola_on_off.py:226 | the rows of a concatenation are exactly those of its parts |
| PolaOnOff.GlueItems | scripts/pola_on_off.py:226 | joining two arrays gives the rows of the first followed by those of the second |
| PolaOnOff.BlocksRows | scripts/pola_on_off.py:220-223 | a row is in one of the arrays gathered under key k exactly when it is a row of key k of some file in the state asked for |
| RunLengths.SumSnoc | recurrence/recurrence.py:61 | the total of the run lengths grows by the length of each run added |
| RunLengths.ScanFacts | recurrence/recurrence.py:56-61 | scanning a vector, the closed runs and the open one together hold every 1 once; the open run and every closed run are at most the vector's length, and closed runs have length at least 1 |
| RunLengths.RunsFacts | recurrence/recurrence.py:56-61 | every run length stop - start + 1 lies between 1 and the vector's length, and the runs together hold every 1 of the vector exactly once |
| RunLengths.AllOnes | recurrence/recurrence.py:56-57 | a block of r ones has length r and holds only ones |
| RunLengths.ScanOnes | recurrence/recurrence.py:56-57 | scanning a block of r ones closes no run and leaves one open run of length r |
| RunLengths.RunsOnes | recurrence/recurrence.py:56-61 | a block of r > 0 ones is one run of length r |
| RunLengths.ScanAfterZero | recurrence/recurrence.py:56-57 | after a 0 the scan of the rest starts afresh, with the runs of the prefix all closed |
| RunLengths.RunsSplit | recurrence/recurrence.py:56-61 | a 0 separates runs: the runs of x, 0, y are those of x followed by those of y |
| RunLengths.CountAbsent | recurrence/recurrence.py:63 | a length no run has is counted 0 times |
| RunLengths.MinOf | recurrence/recurrence.py:62 | np.min of the run lengths is one of them and none is smaller |
| RunLengths.MaxOf | recurrence/recurrence.py:62 | np.max of the run lengths is one of them and none is larger |
| RunLengths.Keys | recurrence/recurrence.py:211 | a dictionary has one key per entry |
| RunLengths.Values | recurrence/recurrence.py:347 | a dictionary has one value per entry |
| RunLengths.KeysAt | recurrence/recurrence.py:348 | key k of d.keys() is the key of entry k |
| RunLengths.KeyIndex | recurrence/recurrence.py:213 | every key of a dictionary is the key of one of its entries |
| RunLengths.KeysSnoc | recurrence/recurrence.py:215 | adding an entry at the end adds its key at the end of the keys |
| RunLengths.ValuesSnoc | recurrence/recurrence.py:215 | adding an entry at the end adds its value at the end of the values |
| RunLengths.SetKeys | recurrence/recurrence.py:215-217 | assigning a key keeps the key order; a new key goes last |
| RunLengths.GetSet | recurrence/recurrence.py:217 | after assigning v to a key, that key holds v and every other key keeps its value |
| RunLengths.SetDistinct | recurrence/recurrence.py:217 | assigning a key keeps the keys distinct |
| RunLengths.GetAbsent | recurrence/recurrence.py:212-215 | a missing key reads as 0, the value the except branch stores |
| RunLengths.GetAt | recurrence/recurrence.py:211 | with distinct keys, the value looked up under entry k's key is entry k's value |
| RunLengths.DistinctByIndex | recurrence/recurrence.py:62-63 | keys that differ position by position are distinct |
| RunLengths.DistinctSnoc | recurrence/recurrence.py:215 | adding an entry keeps the keys distinct exactly when its key is new |
| RunLengths.GetSnocGeneral | recurrence/recurrence.py:215 | an entry added at the end shows only under its own key, and only when the key was not already there |
| RunLengths.GetSnoc | recurrence/recurrence.py:215 | with distinct keys, an entry added at the end adds its value under its key |
| RunLengths.Distribute | recurrence/recurrence.py:217 | the weight distributes over a sum of counts |
| RunLengths.AddCountsGet | recurrence/recurrence.py:211-217 | adding the items of dl with weight w adds w times dl's count to every key's count |
| RunLengths.AddCountsKeys | recurrence/recurrence.py:211-217 | adding dl keeps the keys distinct, and the keys afterwards are exactly those of the old counts and of dl |
| RunLengths.AddItems | recurrence/recurrence.py:211-217 | the loop over dl.iteritems() gives the counts with dl added item by item with weight w |
| RunLengths.SetNew | recurrence/recurrence.py:63 | assigning a new key appends its entry |
| RunLengths.RangeKeys | recurrence/recurrence.py:62-63 | the keys of the loop over xrange(lo, hi + 1) are exactly lo, ..., hi |
| RunLengths.DistinctRange | recurrence/recurrence.py:62-63 | the keys of that loop are distinct |
| RunLengths.CountSeq | recurrence/recurrence.py:54-65 | count_seq builds exactly the histogram of run lengths from max(shortest run, 2) to the longest run, and {} for a vector without a run |
| RunLengths.LengthCountsKeys | recurrence/recurrence.py:59-65 | the keys are distinct and are exactly the lengths from max(shortest run, 2) to the longest run, so lengths 0 and 1 never appear and every key is at most the vector's length |
| RunLengths.LengthCountsValue | recurrence/recurrence.py:61-63 | every length from 2 on maps to its number of runs (0 when absent), and lengths below 2 read as 0 |
| RunLengths.AddHistogramGet | recurrence/recurrence.py:210-217 | adding the histogram of a diagonal with weight w adds w times its runs of each length of 2 or more |
| RunLengths.GetNonNeg | recurrence/recurrence.py:217 | a value read from non-negative counts is non-negative |
| RunLengths.SetNonNeg | recurrence/recurrence.py:217 | assigning a non-negative value keeps the counts non-negative |
| RunLengths.AddCountsNonNeg | recurrence/recurrence.py:211-217 | adding non-negative counts with a non-negative weight keeps every count non-negative |
| RunLengths.LengthCountsNonNeg | recurrence/recurrence.py:63 | count_seq's counts are non-negative |
| RunLengths.LengthCountsEntry | recurrence/recurrence.py:63 | every entry of count_seq's result has a non-negative count |
| RqaSpec.PlotSpec | recurrence/recurrence.py:100-124 | the plot is square with one row per sample; its diagonal holds the distance of equal indices for a cross plot and 0 otherwise; a symmetric norm fills both triangles with the same distance of the lagged pair, and a non-symmetric one leaves the off-diagonal at 0 |
| RqaSpec.RowBelowBound | recurrence/recurrence.py:188 | a row has no more points below the threshold than entries |
| RqaSpec.CountBelowBound | recurrence/recurrence.py:188 | a plot has no more points below the threshold than its size |
| RqaSpec.RRBounds | recurrence/recurrence.py:179-189 | the recurrence rate of a non-empty plot is a finite fraction between 0 and 1 |
| RqaSpec.Below | recurrence/recurrence.py:210 | (rplot < th).astype(int) holds only 0s and 1s |
| RqaSpec.Diagonal | recurrence/recurrence.py:210 | np.diagonal of the thresholded plot at offset dd is binary, with n - abs(dd) entries (none past the plot) |
| RqaSpec.Column | recurrence/recurrence.py:234 | a column of the thresholded plot is binary with one entry per row |
| RqaSpec.LineFromStep | recurrence/recurrence.py:209-217 | one more diagonal adds its count_seq histogram with weight k to the line distribution |
| RqaSpec.VertFromStep | recurrence/recurrence.py:233-241 | one more column adds its count_seq histogram with weight 1 to the vertical distribution |
| RqaSpec.LineFromGet | recurrence/recurrence.py:209-217 | over diagonals lo .. hi-1, every length's count grows by k times its number of runs over those diagonals |
| RqaSpec.DiagRunsShort | recurrence/recurrence.py:209-210 | no diagonal above the main one holds a run as long as the plot |
| RqaSpec.LineDistSymmetric | recurrence/recurrence.py:200-219 | with a symmetric norm the line distribution maps n to 1 and every other length to twice its number of runs over diagonals 1 .. n-1 |
| RqaSpec.LineDistEven | recurrence/recurrence.py:204-217 | with a symmetric norm every count except the seeded one is even |
| RqaSpec.LineDistPlain | recurrence/recurrence.py:205-217 | with a non-symmetric norm every length maps to its number of runs over all diagonals -n .. n-1 |
| RqaSpec.VertFromGet | recurrence/recurrence.py:233-241 | after the first c columns every length maps to its number of runs in those columns |
| RqaSpec.VertDistGet | recurrence/recurrence.py:222-243 | the vertical distribution maps every length to its number of runs over all columns, each counted once |
| RqaSpec.AddCountsPrefix | recurrence/recurrence.py:211-217 | adding items never removes a key |
| RqaSpec.PrefixStep | recurrence/recurrence.py:211-217 | the keys already present stay first, in order, when a histogram is added |
| RqaSpec.NewKeyStep | recurrence/recurrence.py:211-217 | adding a histogram whose lengths lie in [2, n) keeps the keys distinct and adds only lengths in [2, n) |
| RqaSpec.Diagonals | recurrence/recurrence.py:209-210 | the diagonals lo .. hi-1 of the thresholded plot, one per offset, each binary |
| RqaSpec.DiagonalsShort | recurrence/recurrence.py:209-210 | every diagonal above the main one is shorter than the plot |
| RqaSpec.LineFromAddRuns | recurrence/recurrence.py:209-217 | the loop's distribution is the histograms of the diagonals added in loop order |
| RqaSpec.AddRunsKeys | recurrence/recurrence.py:209-217 | adding histograms of binary sequences shorter than n keeps the existing keys first and distinct and adds only lengths in [2, n) |
| RqaSpec.LineFromKeys | recurrence/recurrence.py:209-217 | adding the diagonals from 1 on keeps the existing keys first and distinct, and every new key is a length in [2, n) |
| RqaSpec.LineDistHead | recurrence/recurrence.py:200-219 | with a symmetric norm the seeded entry (n, 1) stays first, and every other entry is a distinct length in [2, n) |
| RqaSpec.Columns | recurrence/recurrence.py:233-234 | the first c columns of the thresholded plot, each binary |
| RqaSpec.VertFromAddRuns | recurrence/recurrence.py:233-241 | the vertical distribution is the histograms of the columns added in loop order |
| RqaSpec.ColumnRunsOf | recurrence/recurrence.py:234 | the runs over the first c columns are those of the column list |
| RqaSpec.AddRunsGet | recurrence/recurrence.py:211-217 | adding the histograms of a list with weight w adds w times its runs of each length |
| RqaSpec.AddRunsNonNeg | recurrence/recurrence.py:211-217 | adding histograms with a non-negative weight keeps every count non-negative |
| RqaSpec.Insert | recurrence/recurrence.py:349 | inserting into a sorted list keeps it sorted and adds exactly that element |
| RqaSpec.ConsSorted | recurrence/recurrence.py:349 | a smaller head in front of a sorted rearrangement keeps it sorted |
| RqaSpec.SortNat | recurrence/recurrence.py:349 | np.sort of naturals is sorted and a permutation of its input |
| RqaSpec.SortedLast | recurrence/recurrence.py:349 | the last element of the sorted lengths is their maximum |
| RqaSpec.SortedSecondLast | recurrence/recurrence.py:349 | when the head is the largest, entry -2 of the sorted lengths is the maximum of the others |
| RqaSpec.DropLast | recurrence/recurrence.py:349 | a sorted list without its last element (the head) is a permutation of the rest |
| RqaSpec.SortedPrefix | recurrence/recurrence.py:349 | a prefix of a sorted list is sorted |
| RqaSpec.MaxIsFirst | recurrence/recurrence.py:349 | the maximum of a list headed by its largest element is that element |
| RqaSpec.Lengths | recurrence/recurrence.py:347-349 | l * (n > 0) has one entry per dictionary entry |
| RqaSpec.LongestMeaning | recurrence/recurrence.py:347-349 | the longest length is at least every length with a positive count, and is 0 or one of them |
| RqaSpec.VMaxIsLongest | recurrence/recurrence.py:361-367 | v_max is the longest vertical length with a positive count, or 0 |
| RqaSpec.LMaxSkipsSeed | recurrence/recurrence.py:353-359 | with a symmetric norm entry -2 skips the seeded main diagonal: l_max is the longest other line with a positive count, or 0 |
| RqaSpec.SkipHead | recurrence/recurrence.py:349 | a distribution headed by (n, 1) whose other lengths are below n has entry -2 of its sorted lengths equal to the longest of the others |
| RqaSpec.LineFromNonNeg | recurrence/recurrence.py:209-217 | adding diagonals with a non-negative weight keeps every count non-negative |
| RqaSpec.VertFromNonNeg | recurrence/recurrence.py:233-241 | adding columns keeps every count non-negative |
| RqaSpec.LineDistNonNeg | recurrence/recurrence.py:191-219 | the line distribution holds only non-negative counts |
| RqaSpec.VertDistNonNeg | recurrence/recurrence.py:222-243 | the vertical distribution holds only non-negative counts |
| RqaSpec.SelectedSnoc | recurrence/recurrence.py:268-272 | one more item is selected exactly when its length is at least the minimum and its count is non-zero |
| RqaSpec.RateDenCount | recurrence/recurrence.py:285-286 | rr * n * n, the divisor of det and lam, is the number of recurrent points |
| RqaSpec.FractionMeaning | recurrence/recurrence.py:245-297 | det and lam are the points on selected lines over the recurrent points, and are not finite exactly when the plot is empty or has no recurrent point |
| RqaSpec.DotAtLeast | recurrence/recurrence.py:261 | the dot product of selected lengths and counts is at least the minimum length times the total count, which is positive when something is selected |
| RqaSpec.MeanAtLeast | recurrence/recurrence.py:317-335 | l and tt are finite and at least the minimum length when some line is selected, and not finite when none is |
| RqaMemo.RrStep | recurrence/recurrence.py:185-189 | rqa_rr leaves th memoized and changes no other dictionary |
| RqaMemo.FreqStep | recurrence/recurrence.py:197-219 | a freq_dist call leaves a distribution memoized for th |
| RqaMemo.MeasCore | recurrence/recurrence.py:251-263 | after _rqa_meas the measure for (th, m_min) is memoized |
| RqaMemo.MeasStep | recurrence/recurrence.py:279-297 | after det, lam, l or tt the measure for (th, m_min) is memoized |
| RqaMemo.RatioStep | recurrence/recurrence.py:299-315 | after rqa_ratio the ratio for (th, l_min) is memoized |
| RqaMemo.TableFrame | recurrence/recurrence.py:251-263 | a measure table stays correct when it is kept and distributions are only added |
| RqaMemo.MaxFrame | recurrence/recurrence.py:343-351 | a maximum table stays correct when it is kept and distributions are only added |
| RqaMemo.Frame | recurrence/recurrence.py:191-243 | a step that keeps every stored measure and only adds correct rates and distributions keeps the memo invariant |
| RqaMemo.NoMemosOk | recurrence/recurrence.py:157-167 | the fresh dictionaries r_plot creates satisfy the memo invariant |
| RqaMemo.RrStepOk | recurrence/recurrence.py:179-189 | rqa_rr stores the recurrence rate of the plot, changes nothing else and keeps the invariant; a repeated call finds it cached and changes nothing |
| RqaMemo.FreqStepOk | recurrence/recurrence.py:191-243 | a freq_dist call keeps the invariant and stores the line distribution for the symmetry recorded for th, or the vertical distribution; a new line entry records the norm's current symmetry |
| RqaMemo.FreqStepShape | recurrence/recurrence.py:197-200 | freq_dist changes at most its own dictionary, only adds to it, and changes nothing when th is cached |
| RqaMemo.StoreMeasOk | recurrence/recurrence.py:261 | storing a measure computed from the stored distribution keeps the invariant |
| RqaMemo.WithTableFacts | recurrence/recurrence.py:261 | writing one measure table changes that table and nothing else |
| RqaMemo.OneTable | recurrence/recurrence.py:256-261 | a change of one measure table that keeps it correct keeps the invariant |
| RqaMemo.StoreTableOk | recurrence/recurrence.py:261 | storing the measure of the stored distribution keeps its table correct |
| RqaMemo.RatioRowOk | recurrence/recurrence.py:308-311 | rqa_ratio's empty row for a new threshold keeps the invariant |
| RqaMemo.StoreRatioOk | recurrence/recurrence.py:313 | storing det over rr as the ratio keeps the invariant |
| RqaMemo.Frame2 | recurrence/recurrence.py:305-313 | a change of the ratios alone that keeps or correctly adds each ratio keeps the invariant |
| RqaMemo.StoreMaxOk | recurrence/recurrence.py:349 | storing the sorted entry of the stored distribution as a maximum keeps the invariant |
| RqaMemo.WithMaxFacts | recurrence/recurrence.py:349 | writing one maximum table changes that table and nothing else |
| RqaMemo.OneMax | recurrence/recurrence.py:349 | a change of one maximum table that keeps it correct keeps the invariant |
| RqaMemo.StoreMaxTableOk | recurrence/recurrence.py:349 | storing the sorted entry of the stored distribution keeps its maximum table correct |
| RqaMemo.PreStepOk | recurrence/recurrence.py:285-286 | the divisor step of det, lam, l and tt keeps the invariant, only adds line distributions and leaves the measure table and the ratios as they were |
| RqaMemo.MeasCoreOk | recurrence/recurrence.py:251-263 | the measure part of _rqa_meas stores the measure computed from the stored distribution, keeps the invariant, and changes nothing when the measure is cached |
| RqaMemo.SymCompose | recurrence/recurrence.py:197-203 | two steps that only add line distributions record the same symmetry as one step does |
| RqaMemo.MeasStepOk | recurrence/recurrence.py:279-297 | det, lam, l and tt keep the invariant and leave the measure of the stored distribution memoized; a repeated call returns the memoized value, and the ratios are untouched |
| RqaMemo.MeasStepIdem | recurrence/recurrence.py:251-252 | a second identical call of det, lam, l or tt changes nothing |
| RqaMemo.CoreKeepsDivisor | recurrence/recurrence.py:285-286 | after the divisor step the divisor is memoized, and the measure step keeps it |
| RqaMemo.RatioStepOk | recurrence/recurrence.py:299-315 | rqa_ratio keeps the invariant and stores det over rr for the stored line distribution; a repeated call changes nothing |
| RqaMemo.RatioMissOk | recurrence/recurrence.py:308-313 | when the ratio is not memoized, rqa_ratio runs det, then rr, then stores det over rr, keeping the invariant |
| RqaMemo.RatioHeadOk | recurrence/recurrence.py:313 | the det step of rqa_ratio memoizes det of the stored line distribution and keeps the invariant |
| RqaMemo.RatioTailOk | recurrence/recurrence.py:313 | the rr step of rqa_ratio and the store of det over rr keep the invariant and the line distributions |
| RqaMemo.MaxStepOk | recurrence/recurrence.py:337-351 | l_max and v_max keep the invariant; the result is entry -offset of the sorted lengths of the stored distribution, and it is memoized exactly when it exists |
| RqaMemo.MaxStepIdem | recurrence/recurrence.py:343-344 | a second call of l_max or v_max changes nothing and gives the same result |
| RqaMemo.MeanMeasureAtLeast | recurrence/recurrence.py:317-335 | l and tt are not finite when no line of at least the minimum length occurs, and otherwise finite and at least that minimum |
| RqaMemo.RateMeasureMeaning | recurrence/recurrence.py:279-297 | det and lam are the points on selected lines over the recurrent points, and not finite when the plot has no recurrent point |
| RqaMemo.VMaxMeaning | recurrence/recurrence.py:361-367 | v_max is the longest vertical line, or 0 when there is none |
| RqaMemo.LMaxMeaning | recurrence/recurrence.py:353-359 | l_max on a distribution built with a symmetric norm is the longest diagonal line besides the main diagonal, or 0; one built otherwise raises IndexError exactly when it is empty |
| RqaMemo.DivMeaning | recurrence/recurrence.py:369-375 | div is one over the longest diagonal line besides the main one, and raises ZeroDivisionError when there is no such line |
| RecurrencePlot.AddDiagonals | recurrence/recurrence.py:209-217 | the loop over diagonals lo .. hi-1 gives exactly the specification distribution LineFrom, each diagonal's histogram added with weight k |
| RecurrencePlot.LineFreqDist | recurrence/recurrence.py:200-219 | the computed table is exactly the line distribution of the specification for the norm's symmetry |
| RecurrencePlot.VertFreqDist | recurrence/recurrence.py:231-243 | the column loop gives exactly the vertical distribution of the specification |
| RecurrencePlot.SelectLines | recurrence/recurrence.py:265-277 | the loop collects exactly the lengths of at least m_min with a non-zero count, and their counts, in dictionary order |
| RecurrencePlot.FillMain | recurrence/recurrence.py:110-111 | filling the diagonal of the zero matrix writes the cross distances of equal indices and nothing else |
| RecurrencePlot.FillLag | recurrence/recurrence.py:114-117 | one lag writes that lag's distances on both off-diagonals and keeps the lags already written |
| RecurrencePlot.Snapshot | recurrence/recurrence.py:124 | the array read as rows has its shape and holds its cells |
| RecurrencePlot.Recurrence.constructor | recurrence/recurrence.py:94-98 | a new object holds the given norm and no plot |
| RecurrencePlot.Recurrence.SetNorm | recurrence/recurrence.py:97-98 | set_norm replaces the norm and keeps the plot and every memo |
| RecurrencePlot.Recurrence.Plot | recurrence/recurrence.py:100-124 | _plot returns exactly the specification plot PlotSpec of the norm and samples |
| RecurrencePlot.Recurrence.RPlot | recurrence/recurrence.py:155-168 | r_plot stores and returns the specification plot of x and resets every memo dictionary to empty |
| RecurrencePlot.Recurrence.CrPlot | recurrence/recurrence.py:170-173 | cr_plot stores the cross plot and returns 0; the recurrence plot and its memos do not change |
| RecurrencePlot.Recurrence.RqaRr | recurrence/recurrence.py:179-189 | without a plot -1; otherwise the recurrence rate of the plot, memoized under th |
| RecurrencePlot.Recurrence.RqaLFreqDist | recurrence/recurrence.py:191-219 | without a plot -1; otherwise the line distribution for the symmetry recorded for th (the norm's when th is new), memoized |
| RecurrencePlot.Recurrence.RqaVFreqDist | recurrence/recurrence.py:222-243 | without a plot -1; otherwise the vertical distribution, memoized |
| RecurrencePlot.Recurrence.FreqDist | recurrence/recurrence.py:268 | the freq_dist argument returns the distribution memoized for th in its direction |
| RecurrencePlot.Recurrence.LvDistMin | recurrence/recurrence.py:265-277 | the selected lengths and counts of the distribution memoized for th |
| RecurrencePlot.Recurrence.Meas | recurrence/recurrence.py:245-263 | _rqa_meas returns the value memoized under (th, m_min), computing and storing l . p / den when it is missing |
| RecurrencePlot.Recurrence.RateMeas | recurrence/recurrence.py:285-297 | det and lam evaluate rr * n * n before _rqa_meas and return the memoized measure |
| RecurrencePlot.Recurrence.MeanMeas | recurrence/recurrence.py:323-335 | l and tt evaluate the number of selected lines before _rqa_meas and return the memoized measure |
| RecurrencePlot.Recurrence.RqaDet | recurrence/recurrence.py:279-287 | without a plot -1; otherwise the fraction of recurrent points on diagonal lines of at least l_min in the memoized line distribution, itself memoized |
| RecurrencePlot.Recurrence.RqaLam | recurrence/recurrence.py:289-297 | without a plot -1; otherwise the fraction of recurrent points on vertical lines of at least v_min |
| RecurrencePlot.Recurrence.RqaL | recurrence/recurrence.py:317-325 | without a plot -1; otherwise the mean length of the diagonal lines of at least l_min |
| RecurrencePlot.Recurrence.RqaTt | recurrence/recurrence.py:327-335 | without a plot -1; otherwise the mean length of the vertical lines of at least v_min |
| RecurrencePlot.Recurrence.DetOverRr | recurrence/recurrence.py:313 | the stored ratio is det over rr, with det evaluated first |
| RecurrencePlot.Recurrence.RqaRatio | recurrence/recurrence.py:299-315 | without a plot -1; otherwise det over the recurrence rate for the memoized line distribution, memoized under (th, l_min) |
| RecurrencePlot.Recurrence.LvMax | recurrence/recurrence.py:337-351 | the entry offset places from the end of the sorted lengths with a positive count (a 0 put in front), memoized only when that entry exists, IndexError otherwise |
| RecurrencePlot.Recurrence.RqaLMax | recurrence/recurrence.py:353-359 | without a plot -1; with a symmetric norm the longest diagonal line besides the main diagonal, or 0; otherwise IndexError exactly when there is no diagonal line at all |
| RecurrencePlot.Recurrence.RqaVMax | recurrence/recurrence.py:361-367 | without a plot -1; otherwise the longest vertical line, or 0 |
| RecurrencePlot.Recurrence.RqaDiv | recurrence/recurrence.py:369-375 | without a plot -1; otherwise one over l_max, raising ZeroDivisionError when it is 0 |

## Left out

- **File formats.** The pytables and astropy calls are left out: opening, reading columns and headers, writing, `flush` and `close`. Tables are values in memory. When a propagation target cannot be opened, that is an input of the model.
- **Commands and the HDF backend.** The commands run on the FITS backend only. On the HDF backend the same commands call `HdfIO` methods, and the model covers those on their own in HdfFlags.
- **Commands not modelled.**
  - OpenCommand, OpenDirCommand, FitFileCommand, ApplyCorrCommand, OpenCorrectionCommand, PropagFlagCommand and CloseCommand are file I/O. They appear only in the `Command` defaults.
  - AutoFlagInitCommand builds an algorithm object through the plug-in registry. The model takes the selected algorithm as state.
- **Logging and undo.** The logging in `Command._execute`, the command history and `print` output are left out.
- **Numerics.** These are parameters or left out:
  - numpy's median and RMS: SimpleThreshold takes them as inputs, and `get_median` is modelled only as far as the rows it takes;
  - FullChan's median filter, percentile and normality test;
  - FullDWT's wavelet reconstruction, `noise_dwt` and `baseline_dwt`;
  - Chebyshev and spline fitting: `get_fit` takes the fitted function as a parameter, and the fit's failures are those of its argument checks (see DataDef.GetFit below);
  - `rqa_entr`, which needs a logarithm;
  - the distance norms of `recurrence/norms.py`: the model uses an abstract symmetric or non-symmetric distance;
  - `integration_to_seconds` and the frequency and time scales.
- **Floating point.** Every value is an exact real. NaN and infinity appear only where the code relies on them: the NaN upper bound of SimpleThreshold, and the NaN and infinite recurrence measures.
- **Python 2 dictionaries.** Dictionary iteration order is taken as insertion order. pola_on_off uses an OrderedDict, so there the order is exact.
- **Memo keys.** The memo keys `str(th)` are taken as the exact threshold. Two thresholds that print alike under Python 2's 12-digit `str(float)` share one memo in the code, but not in the model.
- **FlagLibDw.compute.** It `eval`s a parameter string and calls the C library through ctypes. Only the index-map bookkeeping and the C kernels themselves are modelled. The Python masks and the C buffers are separate arrays in the model, so their aliasing is not captured.
- **libdw runtime.** These are left out:
  - OpenMP (the loops write disjoint cells and are modelled sequentially);
  - timing and `printf`;
  - `malloc` failure and `free`;
  - `rand()`, whose draws are a parameter of `LibDw.BootstrapResample`.
- **LibDw.DwStruct.SingleChannel**: requires the channel to lie inside the matrix (and the flag matrices to be allocated). The C code writes outside the buffer otherwise.
- **LibDw.DwStruct.EvenOdd**: requires allocated flag matrices of rows * cols cells, for the same reason.
- RecurrencePlot.Recurrence.CrPlot: requires the second series to be at least as long as the first. With a shorter one the outcome depends on the distance norm, which is left out, and on np.fill_diagonal repeating its values.
- **`bootstrap_resample` of `dw/flag/rfi_dect_func.py`.** It draws random numbers and is not modelled.
- HdfFlags.NewFlagset: on IndexError the model returns only the error. In `new_flagset`, `setup_new_flagset` has already created the table in the group, and the rows before the failing one were appended to it; that half-built table is not modelled.
- HdfFlags.HdfFlagSet.UpdFlagsetIntended: the rows updated before an IndexError are taken as written. Whether pytables' row buffer reaches the file after the exception is not modelled.
- Commands.HandleNop: on table data of three or more records, element 2 is a FITS record, not an operation number. What comparing the `nop` column against a record does, in `del_table` and `propag_to_feed`, is not modelled; the model reports TypeError there. For the same reason, Commands.DwData.PropagToFeeds with no target feeds reports TypeError on such a handle, where the code reads the record and does nothing.
- **FitsIO.upd_flagset.** It does nothing, so the update command only checks its arguments.
- **writemetadata.**
  - `date_to_epoch` (strptime and timegm) is a parameter: the epochs are given.
  - `get_meta` and `get_meta_interp_v` are not modelled. They are a plain file read and a vectorised variant that no other code calls.
  - The conversions of fields to float are taken as given numbers.
- **pola_on_off.**
  - `get_on_off_time` and `OnOff.set_time` are left out. They are directory globbing and FITS header reads, and the windows are given.
  - `write_on_off_sequence`, `write_on_off` and `plot_uq` are HDF writing and plotting.
  - numpy's array construction is modelled only as far as the script uses it. A list of numbers, an empty list or a ragged list of vectors is a flat array.
  - `diff_on_off` indexes every key's array as 2-D (`[:n_samp, :]`). DW data stores integration_l as one number per row, and then `diff_on_off` always fails (PolaOnOff.ScalarIntegrationNeverDiffs). Its successful results, such as PolaOnOff.LastFileCounted, hold only for data whose integration_l is a vector per row. The script's intent for that column is not claimed.
- DataDef.GetFit: the fit's exceptions are modelled as its argument checks: dfitpack's checks for the spline (degree 1 to 5, more points than the degree, as many y as x, a non-negative smoothing factor) and the domain, degree and length checks of Chebyshev.fit. The optional weights are not modelled (the bpc dialog passes its flag curve), nor is the ValueError later scipy releases raise for an x that is not increasing.
- **GUI.** Only the fit-range rule of `properties_changed` is modelled. The GUI, its widgets, the Qt event wiring, `dw/gui/dw_gui.py` and `dw/flag/widget.py` are not part of this model.
- **`dw/flag/algorithms.py` and `scripts/readmeta.py`.** A broken stub and a printing loop; not part of this model.

## Findings

| source | as written | input that shows it | evidently intended | confidence | as-written member | corrected member |
|---|---|---|---|---|---|---|
| dw/core/io.py:1131 | `t == 'RA' or 'DEC' or ...` is always true, because the non-empty string 'DEC' is truthy, so every scan type except TRACKING is OTF | scan type FOCUS | OTF only for the listed scan types, Unknown otherwise | high, not executed | FitsData.SetTypeAsWritten | FitsData.SetType |
| scripts/writemetadata.py:122-125 | the name is taken from the sample at the cursor exactly when it is farther from the observation time than the sample before it | epochs 0 and 10, observation time 1: the name of the sample at 10 | the name of the nearer sample, ties going to the earlier one | medium, not executed | WriteMetadata.AsWrittenPicksFarther | WriteMetadata.Meta.GetMetaInterpNearer |
| libdw/src/lib.c:91-94 | `dw_set_flag_out` checks only `i_flag >= l_flag` | `i_flag = -1` with `l_flag = 1` passes and writes `flag_data[-1]` | -1 for any index outside `[0, l_flag)` | high, not executed | LibDw.SetFlagOutNegativeSlot | LibDw.DwStruct.SetFlagOut |
| dw/core/commands.py:503-505 | the merge deletes in key order with the operation numbers the handles held before the loop, while each `del_table` lowers the higher numbers | operations 1..4, merging 2 and 3: operation 3 survives as 2 and the unselected 4 is deleted | exactly the selected operations are deleted | high, not executed | Commands.MergeAsWrittenDiffers | Commands.DwData.MergeFlagSetsCorrected |
| dw/core/io.py:646-653 | `HdfIO.upd_flagset` sets `row_index = row_start` once and never advances it | areas [0,1)x[0,1) and [1,2)x[1,2): row 1 gets channel 0 and not channel 1 | each visited row tested against the areas with its own index | high, not executed | HdfFlags.HdfFlagSet.FixedRowIndexDiffers | HdfFlags.HdfFlagSet.UpdFlagsetIntended |
| dw/flag/rfi_dect_func.py:248 | output masks are `np_zeros(self.data[0].shape)`, one row of `cols` bytes, which FlagLibDw hands to libdw | a 2 x 1 matrix: a 1-byte mask where libdw writes 2 bytes | a `rows x cols` mask per output | medium, not executed | RfiDect.LibDwMaskTooSmall | RfiDect.Algorithm.StoreIndexMaps |
| dw/core/commands.py:257-266 | ToggleCorrection raises only when the data object lacks a `cfileh` attribute, but `DWData.__init__` always binds it, to None until a correction file is opened | a fresh DWData: the toggle turns the correction on with no correction file | the toggle refused without a correction file, as its error message says | medium, not executed | Commands.ToggleWithoutCorrectionFile | Commands.DwData.ToggleCorrectionCorrected |
