# Tolerancing and MTF merit-function scripts for OpticStudio, modelled in Dafny

The scripts drive the OpticStudio optical-design program through its API.
Under that glue sit four pieces of index-heavy sequential logic, which this
project models as pure functions over immutable editor states:

- **Coordinate-break injection** (`Lens`, `Injection`). The lens data editor
  is a sequence of `Surface` rows. The mirror surfaces are listed, then
  processed from the highest index down. Each mirror gets two coordinate
  breaks: a variable-tilt break in front and a fixed break behind. The
  break behind picks up the decenters and tilts (cells 12-15) of the break
  in front with factor -1, and its order flag (Par6) is set to 1.
- **Misalignment synthesis** (`Misalign`, `Tolerancing`). A fixed-order
  stream of random draws becomes decenter writes (Par1/Par2 of the row in
  front of each listed surface other than the final one) and REAX/REAY aim operands. The targets of
  these operands depend on the surface's role: final surface, stop, or
  ordinary mirror.
- **MTF merit-function construction** (`Merit`, `MtfMerit`).
  - The merit function is a sequence of `MeritRow`s.
  - It is truncated at the first DMFS row.
  - Per configuration, a CONF row is appended, then for every field a
    GMTS/OPGT pair and a GMTT/OPGT pair. Each OPGT names the 1-based row of
    the sample right before it.
  - The MTF run repeats this for a rising frequency schedule. It passes 5
    fields; the stage lemmas are stated for any field count.
- **Optimiser polling** (`Optimizer`). Two drivers poll an external
  optimiser: one with an iteration cap, one with an iteration cap and a
  stall counter. The polled merit values are an input sequence. The stall
  counter is incremented on every poll, reset on an improving one, and
  compared with `> 5`, so the driver stops after six non-improving polls
  from the start, or five after an improving one.
- **Field pruning and configuration order** (`Fields`). Fields 9, 8, 7 and 6
  are removed in that order, and the plotting loop visits configurations
  1 to mcs in order.

Random draws and polled merit values are inputs or parameters. The
engine's field removal is modelled as `Fields.RemoveField`: delete the
1-based field and renumber the rest (its out-of-range case is listed under
"Left out"). Float arithmetic is modelled with `real`.

## Model

| member | source | states |
|---|---|---|
| Lens.ListMirrorPlanes | MisAlignmentGenerator.py:170-179 | the result holds exactly the indices whose material is `MIRROR`, each below the surface count, in strictly increasing order |
| Lens.MirrorIndicesFrom | MisAlignmentGenerator.py:175-178 | from a start index on, the scan keeps exactly the mirror indices, increasing and in range |
| Lens.ListMirrorPlanesCount | MisAlignmentGenerator.py:170-179 | the mirror list has one entry per mirror surface (its length is the mirror count) |
| Lens.MirrorIndicesCount | MisAlignmentGenerator.py:175-178 | the scan from index n has as many entries as there are mirrors from n on |
| Lens.InsertNewSurfaceAt | MisAlignmentGenerator.py:209-211 | a blank surface appears at the index; surfaces before it keep their index, later ones move up by one |
| Lens.CoordinateBreakOf | MisAlignmentGenerator.py:195-202 | the surface becomes a coordinate break; tilt cells 14 and 15 become variable exactly when asked; material and parameters are kept |
| Lens.CBify | MisAlignmentGenerator.py:195-202 | only the surface at the index changes, and it changes into that coordinate break |
| Lens.WithPickups | MisAlignmentGenerator.py:184-192 | cells 12-15 pick up the source surface with factor -1; other solves are kept and none is added; Par6 becomes 1 |
| Lens.CreatePickupsAndSetOrder | MisAlignmentGenerator.py:181-192 | only the target surface changes, and it gets those pickups and that order flag |
| Lens.SurfaceDisplacement | MisAlignmentGenerator.py:137-144 | only row surface-1 changes, and only its Par1/Par2 values, which become the given decenter |
| Injection.BreaksAreWellFormed | MisAlignmentGenerator.py:208-213 | the front break has variable tilts; the back break has no variable and picks up the given index with factor -1 and order 1 |
| Injection.InjectAt | MisAlignmentGenerator.py:208-213 | one loop step turns the surface at the index into front break, surface, back break; everything else keeps its order |
| Injection.InjectStep | MisAlignmentGenerator.py:208-213 | processing a mirror below all processed ones keeps the editor below it as it was, so the still-unprocessed list entries still address mirrors |
| Injection.MirrorListGap | MisAlignmentGenerator.py:170-179 | no mirror lies strictly between two neighbouring entries of the mirror list |
| Injection.MirrorListHead | MisAlignmentGenerator.py:170-179 | no mirror lies before the first entry of the mirror list |
| Injection.AddCoordinateBreaks | MisAlignmentGenerator.py:204-213 | the descending loop yields the reference bracketing (each mirror replaced by front break, mirror, back break) and adds exactly two surfaces per mirror |
| Injection.BracketedLength | MisAlignmentGenerator.py:204-213 | the bracketed form of a suffix has its length plus two per mirror in it |
| Injection.OriginalSurfacePlacement | MisAlignmentGenerator.py:204-213 | every original surface sits unchanged at its shifted index; a mirror has a variable-tilt break just before it and, just after it, a fixed break picking up the index the front break had when created |
| Injection.ShiftedMonotone | MisAlignmentGenerator.py:204-213 | original surfaces keep their relative order |
| Injection.BracketedFromIsBracketed | MisAlignmentGenerator.py:204-213 | in the bracketed form of every suffix, each mirror has a variable-tilt break before it and a pickup break after it |
| Injection.InjectionBracketsEveryMirror | MisAlignmentGenerator.py:195-213 | after injection every mirror of the editor is preceded by a variable-tilt break and followed by a fixed pickup break |
| Injection.InjectionKeepsMirrorOrder | MisAlignmentGenerator.py:204-213 | the mirror surfaces of the result, in order, are exactly those of the input |
| Injection.InjectionKeepsMirrorCount | MisAlignmentGenerator.py:204-213 | the number of mirrors, and so the length of a fresh mirror list, is unchanged |
| Merit.AddOperand | MtfMFGenerator.py:141-142 | one operand of the given type is appended; existing rows are unchanged |
| Merit.RemoveAllMtfRows | MisAlignmentGenerator.py:95-100 | no operand remains |
| Merit.FirstDmfsFrom | MtfMFGenerator.py:98-103 | the scan returns -1 exactly when no DMFS lies at or after the start, else the first DMFS position |
| Merit.FirstDmfs | MtfMFGenerator.py:98-103 | -1 exactly when there is no DMFS, else the position of the first DMFS |
| Merit.RemoveAllAfterDMFS | MtfMFGenerator.py:94-105 | with the first DMFS at r > 0 the result is the first r rows; with no DMFS or a DMFS at row 0 the rows are unchanged |
| Merit.RemoveAllAfterDMFSIdempotent | MtfMFGenerator.py:99-105 | after one purge no DMFS remains at a position a second purge would cut at, so purging twice is purging once |
| Merit.RemoveAfterDmfs | MtfMFGenerator.py:94-105 | the intended purge keeps everything up to and including the first DMFS, wherever it is |
| Merit.RemoveAfterDmfsKeepsMarker | MtfMFGenerator.py:94-105 | the intended purge keeps its marker, so rows appended after it are removed by the next purge |
| Merit.DmfsAtRowZeroNotPurged | MtfMFGenerator.py:104-105 | a merit function starting with DMFS is left whole by the purge as written, unlike the intended purge |
| Misalign.RoleOf | MisAlignmentGenerator.py:250-260 | the final surface takes precedence; the stop role is for the stop surface when it is not final |
| Misalign.PupilOffset | MisAlignmentGenerator.py:234-239 | the shared pupil offset times stopRad is (px3 - px2, py3 - py2), taken from the first four draws |
| Misalign.PlanSurface | MisAlignmentGenerator.py:244-260 | final surface: no decenter, aim (x1+x3, y1+y3); stop: decenter (x1+px2, y1+py2), no aim; other: decenter (x1+x2, y1+y2), aim (x3-x2, y3-y2) |
| Misalign.PlanPrefixAt | MisAlignmentGenerator.py:241-260 | the i-th listed surface is planned from the i-th block of six draws after the four pupil draws |
| Misalign.PlanFollowsList | MisAlignmentGenerator.py:243-260 | the plans follow the list: a decenter exactly for non-final surfaces, an aim exactly for surfaces that are final or not the stop |
| Misalign.DisplacementsFollowList | MisAlignmentGenerator.py:254-255 | the decenter writes go, in list order, to exactly the listed surfaces other than the final one |
| Misalign.AimsFollowList | MisAlignmentGenerator.py:257-260 | the aim targets go, in list order, to exactly the listed surfaces other than the stop (the final surface always gets one) |
| Misalign.AddREAOp | MisAlignmentGenerator.py:102-128 | one REAX or REAY row is appended with Param1 = surf, Param3 = Param4 = 0, Param5/6 = pupil offset, target = miss, weight 1 |
| Misalign.AddREAOperands | MisAlignmentGenerator.py:130-135 | an REAX row with the x miss and then an REAY row with the y miss are appended |
| Misalign.ReaRows | MisAlignmentGenerator.py:257-260 | two rows are appended per aim target; existing rows are unchanged |
| Misalign.ReaRowsLayout | MisAlignmentGenerator.py:257-260 | the j-th appended pair is REAX then REAY aimed at the j-th target, both with the shared pupil offset |
| Misalign.SharedPupilOffset | MisAlignmentGenerator.py:238-239 | every appended REA row carries Param5 = (px3 - px2)/stopRad and Param6 = (py3 - py2)/stopRad |
| Misalign.SynthesizeSurface | MisAlignmentGenerator.py:244-260 | the loop body's branches produce exactly the decenter and the REA pair that the role-based plan prescribes |
| Misalign.SynthesizeNext | MisAlignmentGenerator.py:243-260 | from the state after i listed surfaces (4 + 6i draws taken, the writes and rows of the first i plans), one iteration reads the six draws at the running draw count and reaches the state after i + 1 surfaces |
| Misalign.SynthesisLoop | MisAlignmentGenerator.py:241-260 | after the four pupil draws the loop takes six draws per listed surface, 4 + 6 * (list length) in all, and yields the decenter writes and REA rows of the whole plan, in list order |
| Misalign.MisalignSystem | MisAlignmentGenerator.py:230-260 | the loop consumes 4 + 6 * (mirrors + 1) draws and yields the planned decenters and REA rows for the mirrors followed by the final surface |
| Misalign.ApplyDisplacements | MisAlignmentGenerator.py:254-255 | the editor keeps its length, and the row in front of each written surface holds in Par1/Par2 the last decenter written to that surface |
| Misalign.ApplyDisplacementsFrame | MisAlignmentGenerator.py:137-144 | every row keeps its material, kind, solves and every parameter other than Par1/Par2; a row in front of no written surface is unchanged |
| Tolerancing.DisplacedSurfacesMembers | MisAlignmentGenerator.py:254-255 | every decentered surface is a listed surface other than the final one |
| Tolerancing.DecentersLandOnLeadingBreaks | MisAlignmentGenerator.py:204-255 | after injection, every decenter is written to a surface that is a mirror, so it lands in the variable-tilt break right in front of that mirror; every other surface, mirrors included, is left as it was |
| Optimizer.LocalOptimize | MisAlignmentGenerator.py:157-168 | at most 11 polls; the stop rule (merit at or below target, or counter past 10) holds at the returned count and at no earlier count; the last observed value is returned |
| Optimizer.LocalOptimizeMTF | MtfMFGenerator.py:159-177 | at most 501 polls; the stop rule (merit at or below target, counter past 500, or stall counter past 5) holds at the returned count and at no earlier count; the last observed value is returned |
| Optimizer.StallExceeds | MtfMFGenerator.py:161-172 | the stall counter exceeds j exactly when more than j polls ran and the last j did not improve |
| Optimizer.StallPositive | MtfMFGenerator.py:161-172 | the stall counter is positive exactly after the first poll |
| Optimizer.StallStop | MtfMFGenerator.py:165-174 | the stall stop fires exactly when at least six polls ran and the last five did not improve |
| Optimizer.MtfOptimizeOutcome | MtfMFGenerator.py:163-177 | a returned value above target means all 501 polls were used or the last five of at least six polls did not improve |
| Optimizer.ConstantStall | MtfMFGenerator.py:161-172 | with a merit value that never moves, the stall counter after k polls is k |
| Optimizer.ConstantMeritStopsAtSixthPoll | MtfMFGenerator.py:163-174 | with a merit value that never moves and starts above target, the driver stops at the sixth poll and not before |
| MtfMerit.AddMTFOPGT | MtfMFGenerator.py:107-130 | two rows are appended and the old ones kept; the sample has the given type, Param1 = 2, Param3 = field + 1, Param4 = freq, Param6 = 1; the OPGT has the target, weight 1, and Param1 = old row count + 1, the sample's 1-based row |
| MtfMerit.AddFieldPairs | MtfMFGenerator.py:144-146 | four rows are appended per remaining field; the old rows are kept |
| MtfMerit.AddConfigs | MtfMFGenerator.py:139-146 | one block of 1 + 4 * nFields rows is appended per remaining configuration; the old rows are kept |
| MtfMerit.OptimizeMTFGreaterThan | MtfMFGenerator.py:132-146 | mcs blocks of 1 + 4 * nFields rows are appended after the existing rows, which are kept |
| MtfMerit.OptimizeMTFGreaterThanLength | MtfMFGenerator.py:137-146 | exactly mcs * (1 + 4 * nFields) rows are appended |
| MtfMerit.FieldPairsLayout | MtfMFGenerator.py:144-146 | slot j of field f is the GMTS sample, its gate, the GMTT sample, its gate, each gate naming the row just before it |
| MtfMerit.ConfigsConfLayout | MtfMFGenerator.py:139-143 | block mc starts with a CONF row selecting configuration mc + 1 |
| MtfMerit.ConfigsPairLayout | MtfMFGenerator.py:139-146 | after its CONF row, block mc holds the field pairs of fields 0 .. nFields - 1 |
| MtfMerit.OptimizeMTFGreaterThanLayout | MtfMFGenerator.py:137-146 | the appended rows are, per configuration in order, a CONF row for mc + 1 and then for each field a GMTS sample, its OPGT, a GMTT sample, its OPGT |
| MtfMerit.AddMTFOPGTKeepsGating | MtfMFGenerator.py:124-130 | appending a pair keeps every OPGT right after an MTF sample and naming that sample's row |
| MtfMerit.FieldPairsKeepGating | MtfMFGenerator.py:144-146 | appending field pairs keeps every OPGT gating the sample before it |
| MtfMerit.ConfigsKeepGating | MtfMFGenerator.py:139-146 | appending configuration blocks keeps every OPGT gating the sample before it |
| MtfMerit.OptimizeMTFGreaterThanKeepsGating | MtfMFGenerator.py:139-146 | the whole construction keeps every OPGT gating the sample before it |
| MtfMerit.FieldPairsOnlyMtf | MtfMFGenerator.py:144-146 | field pairs append only GMTS, GMTT and OPGT rows |
| MtfMerit.ConfigsOnlyMtf | MtfMFGenerator.py:139-146 | configuration blocks append only CONF, GMTS, GMTT and OPGT rows |
| MtfMerit.AppendedRowsAreMtfOperands | MtfMFGenerator.py:139-146 | every appended row is CONF, GMTS, GMTT or OPGT, so none is a DMFS marker |
| MtfMerit.FrequencySchedule | MtfMFGenerator.py:214-237 | the frequencies are startfreq + i * 0.25, all at most maxfreq, strictly increasing; the next step would pass maxfreq; empty exactly when startfreq > maxfreq |
| MtfMerit.AfterSchedule | MtfMFGenerator.py:214-237 | with the intended purge, a merit function with a DMFS marker keeps the marker, and every row up to it, through the whole frequency run |
| MtfMerit.AfterScheduleAsWritten | MtfMFGenerator.py:214-237 | as written, a merit function without DMFS is never purged: its rows stay as a prefix, every added row is a CONF/GMTS/GMTT/OPGT operand, it stays without DMFS and grows by two sets of MTF operands per frequency |
| MtfMerit.StageRestarts | MtfMFGenerator.py:218-233 | with the intended purge, a stage keeps the marker and what precedes it, so the next stage starts from the same base |
| MtfMerit.CorrectedScheduleStable | MtfMFGenerator.py:214-237 | with the intended purge, the whole run ends with the kept prefix plus one set of MTF operands, the last frequency's |
| MtfMerit.StageAsWrittenOnUnmarked | MtfMFGenerator.py:230-233 | a stage as written on a merit function without DMFS purges nothing (the old rows stay as a prefix), appends one set of rows that are all MTF operands, and leaves no DMFS |
| MtfMerit.AsWrittenFirstStage | MtfMFGenerator.py:219-222 | the first stage as written cuts the marker and everything after it (the first d rows survive), then appends one set of MTF operands |
| MtfMerit.AsWrittenScheduleGrows | MtfMFGenerator.py:214-237 | as written, from a first DMFS at row d > 0, the run ends with the original first d rows followed only by MTF operands, 2 * (number of frequencies) sets of them, and no DMFS |
| MtfMerit.AsWrittenScheduleStep | MtfMFGenerator.py:214-237 | as written, once the DMFS marker is gone, each further frequency keeps the previous result as a prefix, appends two sets of MTF operands and brings no DMFS back |
| MtfMerit.DuplicatedOperandsExample | MtfMFGenerator.py:214-237 | on [CONF, DMFS] with one frequency, the code as written keeps the CONF row and follows it with two sets of MTF operands only; the intended purge keeps [CONF, DMFS] and follows it with one set |
| Fields.RemoveField | PlotCentralFieldMTF.py:93 | a valid 1-based number removes that field and shifts later ones down; any other number changes nothing |
| Fields.RemoveExtremeFields | PlotCentralFieldMTF.py:89-93 | fields 1-5 and those after 9 are kept in order; with at least 9 fields the count drops by 4; the k-th removal takes the field that originally had number 9 - k |
| Fields.AscendingRemovalKeepsSeventh | PlotCentralFieldMTF.py:92 | the same removals in ascending order would keep the original seventh field as the sixth, which is why the descending order matters |
| Fields.ConfigurationsVisited | PlotCentralFieldMTF.py:98-101 | configurations 1..mcs are each visited exactly once, in ascending order |

## Left out

- Session plumbing is not modelled. This covers connecting to OpticStudio, licence checks, opening, closing and saving files, and the sample directory. These are thin wrappers over an external program.
- Gaussian sampling (`random.gauss`) is not modelled. The draws are an input sequence in the order the code takes them, and no distributional claim is made. `Misalign.MisalignSystem` requires the sequence to hold all 4 + 6 * (M + 1) draws.
- The stop surface, its semi-diameter, the last surface index and the mirror list are read from the editor in the source. Here they are parameters of `Misalign.MisalignSystem` (`stop`, `stopRad`, `last`, `mirrors`); `Tolerancing.DecentersLandOnLeadingBreaks` passes the list `Lens.ListMirrorPlanes` computes. `stopRad` must be non-zero, because the source divides by it.
- Floating point is not modelled: sums, differences, the division by `stopRad` and the 0.25 frequency step are exact `real` arithmetic.
- Optimiser numerics, `time.sleep`, and the `Cancel`/`Close` calls are not modelled. The driver sees the initial merit value and one value per poll, given as a sequence. `Optimizer.LocalOptimize` and `Optimizer.LocalOptimizeMTF` require enough polled values to reach the iteration cap.
- Optimizer.LocalOptimizeMTF: the source reads `CurrentMeritFunction` twice per poll, once to compare and once to store. The model takes one observation per poll, i.e. both reads return the same value.
- `HammerOptimize` is not modelled. It runs the engine's global optimiser, which changes lens variables, reads the current merit value every 600 seconds until it is at or below target, and then cancels and closes the tool. Its loop has no iteration cap and need not terminate, and the only logic on the script's side is the `mf > target` test.
- `RemoveAllVariables` is a single call into the engine's tool set with no logic of its own.
- The closing `LocalOptimize(1e-8)` call of `MisalignSystem` is not modelled. `Misalign.MisalignSystem` stops after the synthesis loop; the polling policy is modelled on its own in `Optimizer.LocalOptimize`.
- `Misalign.MisalignSystem` returns the decenter writes as a list rather than editing the editor in place. `Misalign.ApplyDisplacements` applies them.
- Lens.CreatePickupsAndSetOrder records the pickup source index as written when the pair is created. Whether the engine renumbers stored pickup sources when later insertions shift surfaces is not visible in the code.
- In the OptimizeMTF run, each stage reopens the file the previous stage saved. The model passes the merit function from stage to stage. The optimiser runs between stages change lens variables only, so they are not modelled there.
- The MTF analysis and plotting in `PlotMtfAllConfigs` are external computation and file output. Only the order of configurations is modelled.
- Merit.RemoveAllAfterDMFS: reads `GetOperandAt(r)` as the operand in 0-based row r, the base `DeleteRowsAt` uses. The code does not fix the base of `GetOperandAt`, and MtfMFGenerator.py:130 numbers operands from 1 (`RowIndex + 1`). If `GetOperandAt` takes a 1-based operand number, `dmfsrow` is the marker's 1-based number: the cut then starts right after the marker, `> 0` is exactly the "found" test, and neither finding below applies. That reading has a gap of its own, which this model does not cover: `range(nRows)` at MtfMFGenerator.py:99-100 would ask for operand 0, which does not exist, and would never inspect operand nRows, so a DMFS in the last row would go unfound.
- Fields.RemoveField: the engine's behaviour for a field number outside 1 .. count is not visible. It is modelled as leaving the list unchanged.
- Surface and operand cells the scripts never touch are not modelled. This includes radius, thickness, semi-diameter and the other merit columns.

## Findings

| source | as written | input that shows it | evidently intended | confidence | as-written member | corrected member |
|---|---|---|---|---|---|---|
| MtfMFGenerator.py:104-105 | `DeleteRowsAt(dmfsrow, nRows - dmfsrow)` deletes the first DMFS row together with everything after it | a saved merit function [CONF, DMFS] with one configuration and one frequency: the local stage cuts the DMFS and appends 21 rows; the global stage then finds no DMFS and appends 21 more, so the saved file holds two copies of the MTF operands, and every further frequency adds two more. This assumes `GetOperandAt(r)` reads 0-based row r (see Merit.RemoveAllAfterDMFS under "Left out") | keep the DMFS row and delete only what follows it, so that every stage rebuilds the MTF operands on the same base, as the method's docstring says ("after the first DMFS") | low, not executed; depends on the index base of `GetOperandAt` | MtfMerit.AsWrittenScheduleGrows | MtfMerit.CorrectedScheduleStable |
| MtfMFGenerator.py:104 | `if(dmfsrow > 0)` skips a DMFS found at row 0 | a merit function [DMFS, GMTS, OPGT]: nothing is deleted, and the next construction appends after the old operands. This assumes `GetOperandAt(r)` reads 0-based row r (see Merit.RemoveAllAfterDMFS under "Left out") | `dmfsrow >= 0`: a DMFS in the first row also marks where the default merit function starts | low, not executed; depends on the index base of `GetOperandAt` | Merit.DmfsAtRowZeroNotPurged | Merit.RemoveAfterDmfs |
