/** Misalignment synthesis: a fixed-order stream of Gaussian draws becomes
    decenters written in front of each mirror and pairs of REAX/REAY
    operands that say where the chief ray should land. The draws are an
    input; nothing here is random. */
module Misalign {
  import opened Lens
  import opened Merit

  datatype Option<T> = None | Some(value: T)

  datatype Offset = Offset(x: real, y: real)

  /** The six draws of one listed surface: decenter (x1, y1), vertex
      displacement (x2, y2) and aim miss (x3, y3). */
  datatype SurfaceDraws = SurfaceDraws(x1: real, y1: real, x2: real, y2: real, x3: real, y3: real)

  /** How a listed surface is treated. The final surface takes precedence
      over the stop when both coincide. */
  datatype Role = Final | Stop | Ordinary

  function RoleOf(surf: nat, stop: nat, last: nat): (r: Role)
    ensures r == Final <==> surf == last
    ensures r == Stop <==> surf != last && surf == stop
  {
    if surf == last then Final else if surf == stop then Stop else Ordinary
  }

  /** Draws a trial takes for `surfaces` listed surfaces: four pupil draws
      (px2, py2, px3, py3) first, then six per listed surface. */
  function DrawCount(surfaces: nat): nat {
    4 + 6 * surfaces
  }

  /** The draws of the `i`-th listed surface. */
  function DrawsOf(draws: seq<real>, i: nat): SurfaceDraws
    requires DrawCount(i + 1) <= |draws|
  {
    var b := DrawCount(i);
    SurfaceDraws(draws[b], draws[b + 1], draws[b + 2], draws[b + 3], draws[b + 4], draws[b + 5])
  }

  /** The shared vertex-displacement draw (px2, py2) the stop surface reuses. */
  function StopDisplacementDraw(draws: seq<real>): Offset
    requires 4 <= |draws|
  {
    Offset(draws[0], draws[1])
  }

  /** Pupil offset shared by every REA operand of a trial:
      ((px3 - px2) / stopRad, (py3 - py2) / stopRad). */
  function PupilOffset(draws: seq<real>, stopRad: real): (r: Offset)
    requires 4 <= |draws| && stopRad != 0.0
    ensures r.x * stopRad == draws[2] - draws[0]
    ensures r.y * stopRad == draws[3] - draws[1]
  {
    Offset((draws[2] - draws[0]) / stopRad, (draws[3] - draws[1]) / stopRad)
  }

  /** What one listed surface receives: an optional decenter for the row in
      front of it and an optional aim target. */
  datatype SurfacePlan = SurfacePlan(surf: nat, displacement: Option<Offset>, aim: Option<Offset>)

  /** The treatment of one listed surface, by role: the final surface is not
      displaced and is aimed at (x1 + x3, y1 + y3); the stop is displaced by
      (x1 + px2, y1 + py2) and gets no aim target; any other surface is
      displaced by (x1 + x2, y1 + y2) and aimed at (x3 - x2, y3 - y2). */
  function PlanSurface(surf: nat, stop: nat, last: nat, d: SurfaceDraws, stopDraw: Offset): (p: SurfacePlan)
    ensures p.surf == surf
    ensures p.displacement.None? <==> RoleOf(surf, stop, last) == Final
    ensures p.aim.None? <==> RoleOf(surf, stop, last) == Stop
    ensures RoleOf(surf, stop, last) == Final ==> p.aim == Some(Offset(d.x1 + d.x3, d.y1 + d.y3))
    ensures RoleOf(surf, stop, last) == Stop ==> p.displacement == Some(Offset(d.x1 + stopDraw.x, d.y1 + stopDraw.y))
    ensures RoleOf(surf, stop, last) == Ordinary ==>
              && p.displacement == Some(Offset(d.x1 + d.x2, d.y1 + d.y2))
              && p.aim == Some(Offset(d.x3 - d.x2, d.y3 - d.y2))
  {
    var x2 := if surf == stop then stopDraw.x else d.x2;
    var y2 := if surf == stop then stopDraw.y else d.y2;
    var displacement := if surf != last then Some(Offset(d.x1 + x2, d.y1 + y2)) else None;
    var aim :=
      if surf == last then Some(Offset(d.x1 + d.x3, d.y1 + d.y3))
      else if surf != stop then Some(Offset(d.x3 - x2, d.y3 - y2))
      else None;
    SurfacePlan(surf, displacement, aim)
  }

  /** The plans of the first `n` listed surfaces, the `i`-th one using the
      `i`-th block of six draws. */
  function PlanPrefix(list: seq<nat>, stop: nat, last: nat, draws: seq<real>, n: nat): (r: seq<SurfacePlan>)
    requires n <= |list| && DrawCount(|list|) <= |draws|
    ensures |r| == n
  {
    if n == 0 then []
    else PlanPrefix(list, stop, last, draws, n - 1)
         + [PlanSurface(list[n - 1], stop, last, DrawsOf(draws, n - 1), StopDisplacementDraw(draws))]
  }

  /** The `i`-th plan is the `i`-th listed surface's, drawn from the `i`-th
      block of six draws after the four pupil draws. */
  lemma {:induction false} PlanPrefixAt(list: seq<nat>, stop: nat, last: nat, draws: seq<real>, n: nat)
    requires n <= |list| && DrawCount(|list|) <= |draws|
    ensures forall i :: 0 <= i < n ==>
              PlanPrefix(list, stop, last, draws, n)[i]
              == PlanSurface(list[i], stop, last, DrawsOf(draws, i), StopDisplacementDraw(draws))
  {
    if n > 0 {
      PlanPrefixAt(list, stop, last, draws, n - 1);
    }
  }

  function Plan(list: seq<nat>, stop: nat, last: nat, draws: seq<real>): seq<SurfacePlan>
    requires DrawCount(|list|) <= |draws|
  {
    PlanPrefix(list, stop, last, draws, |list|)
  }

  /** A decenter written to Par1/Par2 of the row in front of `surface`. */
  datatype DecenterWrite = DecenterWrite(surface: nat, offset: Offset)

  /** An aim target for `surface`. */
  datatype Aim = Aim(surface: nat, target: Offset)

  function Displacements(plans: seq<SurfacePlan>): seq<DecenterWrite> {
    if plans == [] then []
    else
      var p := plans[|plans| - 1];
      Displacements(plans[..|plans| - 1])
      + (if p.displacement.Some? then [DecenterWrite(p.surf, p.displacement.value)] else [])
  }

  function Aims(plans: seq<SurfacePlan>): seq<Aim> {
    if plans == [] then []
    else
      var p := plans[|plans| - 1];
      Aims(plans[..|plans| - 1]) + (if p.aim.Some? then [Aim(p.surf, p.aim.value)] else [])
  }

  /** The listed surfaces that get a displacement: all but the final one. */
  function DisplacedSurfaces(list: seq<nat>, last: nat): seq<nat> {
    if list == [] then []
    else
      var s := list[|list| - 1];
      DisplacedSurfaces(list[..|list| - 1], last) + (if s != last then [s] else [])
  }

  /** The listed surfaces that get an aim target: all but the stop, unless
      the stop is the final surface. */
  function AimedSurfaces(list: seq<nat>, stop: nat, last: nat): seq<nat> {
    if list == [] then []
    else
      var s := list[|list| - 1];
      AimedSurfaces(list[..|list| - 1], stop, last) + (if s == last || s != stop then [s] else [])
  }

  /** Plans that follow a list surface by surface: same surfaces, a
      displacement exactly off the final surface, an aim exactly off the stop. */
  predicate FollowsList(plans: seq<SurfacePlan>, list: seq<nat>, stop: nat, last: nat) {
    && |plans| == |list|
    && forall i :: 0 <= i < |plans| ==>
         && plans[i].surf == list[i]
         && (plans[i].displacement.Some? <==> list[i] != last)
         && (plans[i].aim.Some? <==> (list[i] == last || list[i] != stop))
  }

  lemma PlanFollowsList(list: seq<nat>, stop: nat, last: nat, draws: seq<real>)
    requires DrawCount(|list|) <= |draws|
    ensures FollowsList(Plan(list, stop, last, draws), list, stop, last)
  {
    PlanPrefixAt(list, stop, last, draws, |list|);
  }

  /** Decenters go, in list order, to exactly the listed surfaces other than
      the final one. */
  lemma {:induction false} DisplacementsFollowList(plans: seq<SurfacePlan>, list: seq<nat>, stop: nat, last: nat)
    requires FollowsList(plans, list, stop, last)
    ensures |Displacements(plans)| == |DisplacedSurfaces(list, last)|
    ensures forall j :: 0 <= j < |Displacements(plans)| ==>
              Displacements(plans)[j].surface == DisplacedSurfaces(list, last)[j]
    decreases |plans|
  {
    if plans != [] {
      var n := |plans| - 1;
      assert FollowsList(plans[..n], list[..n], stop, last);
      DisplacementsFollowList(plans[..n], list[..n], stop, last);
    }
  }

  /** Aim targets go, in list order, to exactly the listed surfaces other
      than the stop (the final surface always gets one). */
  lemma {:induction false} AimsFollowList(plans: seq<SurfacePlan>, list: seq<nat>, stop: nat, last: nat)
    requires FollowsList(plans, list, stop, last)
    ensures |Aims(plans)| == |AimedSurfaces(list, stop, last)|
    ensures forall j :: 0 <= j < |Aims(plans)| ==>
              Aims(plans)[j].surface == AimedSurfaces(list, stop, last)[j]
    decreases |plans|
  {
    if plans != [] {
      var n := |plans| - 1;
      assert FollowsList(plans[..n], list[..n], stop, last);
      AimsFollowList(plans[..n], list[..n], stop, last);
    }
  }

  /** One more listed surface adds its plan at the end. */
  lemma PlanStep(list: seq<nat>, stop: nat, last: nat, draws: seq<real>, i: nat)
    requires i < |list| && DrawCount(|list|) <= |draws|
    ensures PlanPrefix(list, stop, last, draws, i + 1)
            == PlanPrefix(list, stop, last, draws, i)
               + [PlanSurface(list[i], stop, last, DrawsOf(draws, i), StopDisplacementDraw(draws))]
  {
  }

  /** The cells of one REAX/REAY operand: Param1 = surface, Param3 = Param4 = 0,
      Param5/Param6 = pupil offset, the miss as target, weight 1. */
  predicate IsReaRow(row: MeritRow, kind: OperandType, surf: nat, target: real, pupil: Offset) {
    && row.kind == kind
    && Param(1) in row.cells && row.cells[Param(1)] == Int(surf)
    && Param(3) in row.cells && row.cells[Param(3)] == Real(0.0)
    && Param(4) in row.cells && row.cells[Param(4)] == Real(0.0)
    && Param(5) in row.cells && row.cells[Param(5)] == Real(pupil.x)
    && Param(6) in row.cells && row.cells[Param(6)] == Real(pupil.y)
    && Target in row.cells && row.cells[Target] == Real(target)
    && Weight in row.cells && row.cells[Weight] == Real(1.0)
  }

  /** Appends one REAX (`reax`) or REAY operand aimed at `surf`. */
  function AddREAOp(rows: seq<MeritRow>, surf: nat, missCenter: real, missPupilX: real, missPupilY: real, reax: bool): (r: seq<MeritRow>)
    ensures |r| == |rows| + 1 && r[..|rows|] == rows
    ensures IsReaRow(r[|rows|], if reax then REAX else REAY, surf, missCenter, Offset(missPupilX, missPupilY))
  {
    var cells := map[Param(1) := Int(surf), Param(3) := Real(0.0), Param(4) := Real(0.0),
                     Param(5) := Real(missPupilX), Param(6) := Real(missPupilY),
                     Target := Real(missCenter), Weight := Real(1.0)];
    AddOperand(rows, if reax then REAX else REAY, cells)
  }

  /** Appends the REAX/REAY pair of one aim target. */
  function AddREAOperands(rows: seq<MeritRow>, surface: nat, missx: real, missy: real, pupilx: real, pupily: real): (r: seq<MeritRow>)
    ensures |r| == |rows| + 2 && r[..|rows|] == rows
    ensures IsReaRow(r[|rows|], REAX, surface, missx, Offset(pupilx, pupily))
    ensures IsReaRow(r[|rows| + 1], REAY, surface, missy, Offset(pupilx, pupily))
  {
    var r1 := AddREAOp(rows, surface, missx, pupilx, pupily, true);
    var r := AddREAOp(r1, surface, missy, pupilx, pupily, false);
    assert r[|rows|] == r1[|rows|];
    r
  }

  /** All aim targets as REA pairs appended after `rows`, in order. */
  function ReaRows(rows: seq<MeritRow>, aims: seq<Aim>, pupil: Offset): (r: seq<MeritRow>)
    ensures |r| == |rows| + 2 * |aims| && r[..|rows|] == rows
  {
    if aims == [] then rows
    else
      var a := aims[|aims| - 1];
      AddREAOperands(ReaRows(rows, aims[..|aims| - 1], pupil), a.surface, a.target.x, a.target.y, pupil.x, pupil.y)
  }

  /** The appended rows come in REAX/REAY pairs, the `j`-th pair aimed at the
      `j`-th aim target, each row carrying the shared pupil offset. */
  lemma {:induction false} ReaRowsLayout(rows: seq<MeritRow>, aims: seq<Aim>, pupil: Offset)
    ensures forall j :: 0 <= j < |aims| ==>
              && IsReaRow(ReaRows(rows, aims, pupil)[|rows| + 2 * j], REAX, aims[j].surface, aims[j].target.x, pupil)
              && IsReaRow(ReaRows(rows, aims, pupil)[|rows| + 2 * j + 1], REAY, aims[j].surface, aims[j].target.y, pupil)
    decreases |aims|
  {
    if aims != [] {
      var n := |aims| - 1;
      var a := aims[n];
      var prev := ReaRows(rows, aims[..n], pupil);
      var r := ReaRows(rows, aims, pupil);
      assert r == AddREAOperands(prev, a.surface, a.target.x, a.target.y, pupil.x, pupil.y);
      ReaRowsLayout(rows, aims[..n], pupil);
      forall j | 0 <= j < |aims|
        ensures IsReaRow(r[|rows| + 2 * j], REAX, aims[j].surface, aims[j].target.x, pupil)
        ensures IsReaRow(r[|rows| + 2 * j + 1], REAY, aims[j].surface, aims[j].target.y, pupil)
      {
        if j < n {
          assert aims[..n][j] == aims[j];
          assert r[|rows| + 2 * j] == r[..|prev|][|rows| + 2 * j] == prev[|rows| + 2 * j];
          assert r[|rows| + 2 * j + 1] == r[..|prev|][|rows| + 2 * j + 1] == prev[|rows| + 2 * j + 1];
        }
      }
    }
  }

  /** Every appended REA operand carries the same pupil offset, the one
      computed from the trial's pupil draws and the stop radius. */
  lemma {:induction false} SharedPupilOffset(rows: seq<MeritRow>, aims: seq<Aim>, draws: seq<real>, stopRad: real, i: nat)
    requires 4 <= |draws| && stopRad != 0.0
    requires |rows| <= i < |ReaRows(rows, aims, PupilOffset(draws, stopRad))|
    ensures Param(5) in ReaRows(rows, aims, PupilOffset(draws, stopRad))[i].cells
    ensures Param(6) in ReaRows(rows, aims, PupilOffset(draws, stopRad))[i].cells
    ensures ReaRows(rows, aims, PupilOffset(draws, stopRad))[i].cells[Param(5)] == Real((draws[2] - draws[0]) / stopRad)
    ensures ReaRows(rows, aims, PupilOffset(draws, stopRad))[i].cells[Param(6)] == Real((draws[3] - draws[1]) / stopRad)
    decreases |aims|
  {
    var pupil := PupilOffset(draws, stopRad);
    var n := |aims| - 1;
    var a := aims[n];
    var prev := ReaRows(rows, aims[..n], pupil);
    var r := ReaRows(rows, aims, pupil);
    assert r == AddREAOperands(prev, a.surface, a.target.x, a.target.y, pupil.x, pupil.y);
    if i < |prev| {
      SharedPupilOffset(rows, aims[..n], draws, stopRad, i);
      assert r[i] == r[..|prev|][i] == prev[i];
    } else if i == |prev| {
      assert IsReaRow(r[i], REAX, a.surface, a.target.x, pupil);
    } else {
      assert IsReaRow(r[i], REAY, a.surface, a.target.y, pupil);
    }
  }

  /** The body of the synthesis loop for one listed surface whose six draws
      are `d`: the stop reuses the shared draw (px2, py2) in place of its own
      x2/y2, every surface but the final one gets a decenter, and the REA pair
      is chosen by role. */
  method SynthesizeSurface(surf: nat, stop: nat, last: nat, d: SurfaceDraws, px2: real, py2: real,
                           px: real, py: real, writes: seq<DecenterWrite>, rows: seq<MeritRow>)
    returns (writes': seq<DecenterWrite>, rows': seq<MeritRow>)
    ensures var p := PlanSurface(surf, stop, last, d, Offset(px2, py2));
            && writes' == writes + (if p.displacement.Some? then [DecenterWrite(surf, p.displacement.value)] else [])
            && rows' == (if p.aim.Some? then AddREAOperands(rows, surf, p.aim.value.x, p.aim.value.y, px, py) else rows)
  {
    ghost var p := PlanSurface(surf, stop, last, d, Offset(px2, py2));
    var x1, y1, x2, y2, x3, y3 := d.x1, d.y1, d.x2, d.y2, d.x3, d.y3;
    if surf == stop {
      x2 := px2;
      y2 := py2;
    }
    writes' := writes;
    if surf != last {
      var shift := Offset(x1 + x2, y1 + y2);
      assert p.displacement == Some(shift);
      writes' := writes + [DecenterWrite(surf, shift)];
    }
    rows' := rows;
    if surf == last {
      var miss := Offset(x1 + x3, y1 + y3);
      assert p.aim == Some(miss);
      rows' := AddREAOperands(rows, surf, miss.x, miss.y, px, py);
    } else if surf != stop {
      var miss := Offset(x3 - x2, y3 - y2);
      assert p.aim == Some(miss);
      rows' := AddREAOperands(rows, surf, miss.x, miss.y, px, py);
    }
  }

  /** The synthesis run. The listed surfaces are the mirrors followed by the
      final surface; four pupil draws are taken first, then six per listed
      surface in list order. Returns the decenter writes, the merit function
      with the REA pairs appended, and the number of draws consumed. */
  method MisalignSystem(mirrors: seq<nat>, stop: nat, last: nat, draws: seq<real>, stopRad: real, mfe: seq<MeritRow>)
    returns (writes: seq<DecenterWrite>, rows: seq<MeritRow>, used: nat)
    requires stopRad != 0.0
    requires DrawCount(|mirrors| + 1) <= |draws|
    ensures used == 4 + 6 * (|mirrors| + 1)
    ensures writes == Displacements(Plan(mirrors + [last], stop, last, draws))
    ensures rows == ReaRows(mfe, Aims(Plan(mirrors + [last], stop, last, draws)), PupilOffset(draws, stopRad))
  {
    var pupil := PupilOffset(draws, stopRad);
    var list := mirrors + [last];
    writes, rows, used := SynthesisLoop(list, stop, last, draws, pupil, mfe);
  }

  /** After the first `i` listed surfaces, `used` draws have been taken and
      the writes and rows are those of the first `i` plans. */
  predicate SynthesizedUpTo(list: seq<nat>, stop: nat, last: nat, draws: seq<real>, pupil: Offset, mfe: seq<MeritRow>,
                            i: nat, used: nat, writes: seq<DecenterWrite>, rows: seq<MeritRow>)
    requires i <= |list| && DrawCount(|list|) <= |draws|
  {
    && used == DrawCount(i)
    && writes == Displacements(PlanPrefix(list, stop, last, draws, i))
    && rows == ReaRows(mfe, Aims(PlanPrefix(list, stop, last, draws, i)), pupil)
  }

  /** The loop over the listed surfaces, after the four pupil draws: each
      iteration takes the next six draws. */
  method SynthesisLoop(list: seq<nat>, stop: nat, last: nat, draws: seq<real>, pupil: Offset, mfe: seq<MeritRow>)
    returns (writes: seq<DecenterWrite>, rows: seq<MeritRow>, used: nat)
    requires DrawCount(|list|) <= |draws|
    ensures used == DrawCount(|list|)
    ensures writes == Displacements(Plan(list, stop, last, draws))
    ensures rows == ReaRows(mfe, Aims(Plan(list, stop, last, draws)), pupil)
  {
    used := 4;
    writes := [];
    rows := mfe;
    var i := 0;
    while i < |list|
      invariant i <= |list|
      invariant SynthesizedUpTo(list, stop, last, draws, pupil, mfe, i, used, writes, rows)
    {
      writes, rows, used := SynthesizeNext(list, stop, last, draws, pupil, mfe, i, used, writes, rows);
      i := i + 1;
    }
  }

  /** One iteration of the synthesis loop: takes the six draws from
      position `used` on, which is where the `i`-th block starts, and extends
      the writes and the rows by the `i`-th plan. */
  method SynthesizeNext(list: seq<nat>, stop: nat, last: nat, draws: seq<real>, pupil: Offset, mfe: seq<MeritRow>,
                        i: nat, used: nat, writes: seq<DecenterWrite>, rows: seq<MeritRow>)
    returns (writes': seq<DecenterWrite>, rows': seq<MeritRow>, used': nat)
    requires i < |list| && DrawCount(|list|) <= |draws|
    requires SynthesizedUpTo(list, stop, last, draws, pupil, mfe, i, used, writes, rows)
    ensures SynthesizedUpTo(list, stop, last, draws, pupil, mfe, i + 1, used', writes', rows')
  {
    var d := SurfaceDraws(draws[used], draws[used + 1], draws[used + 2], draws[used + 3], draws[used + 4], draws[used + 5]);
    assert d == DrawsOf(draws, i);
    writes', rows' := SynthesizeSurface(list[i], stop, last, d, draws[0], draws[1], pupil.x, pupil.y, writes, rows);
    used' := used + 6;
    ReaStep(list, stop, last, draws, i, mfe, pupil);
  }

  /** Relates one more loop step to one more plan. */
  lemma ReaStep(list: seq<nat>, stop: nat, last: nat, draws: seq<real>, i: nat, mfe: seq<MeritRow>, pupil: Offset)
    requires i < |list| && DrawCount(|list|) <= |draws|
    ensures var p := PlanSurface(list[i], stop, last, DrawsOf(draws, i), StopDisplacementDraw(draws));
            var prev := PlanPrefix(list, stop, last, draws, i);
            var next := PlanPrefix(list, stop, last, draws, i + 1);
            && Displacements(next) == Displacements(prev) + (if p.displacement.Some? then [DecenterWrite(list[i], p.displacement.value)] else [])
            && ReaRows(mfe, Aims(next), pupil)
               == (if p.aim.Some? then AddREAOperands(ReaRows(mfe, Aims(prev), pupil), list[i], p.aim.value.x, p.aim.value.y, pupil.x, pupil.y)
                   else ReaRows(mfe, Aims(prev), pupil))
  {
    PlanStep(list, stop, last, draws, i);
    var p := PlanSurface(list[i], stop, last, DrawsOf(draws, i), StopDisplacementDraw(draws));
    var prev := PlanPrefix(list, stop, last, draws, i);
    var next := PlanPrefix(list, stop, last, draws, i + 1);
    assert next[..|next| - 1] == prev;
    assert next[|next| - 1] == p;
    if p.aim.Some? {
      var an := Aims(next);
      assert an == Aims(prev) + [Aim(list[i], p.aim.value)];
      assert an[..|an| - 1] == Aims(prev);
    } else {
      assert Aims(next) == Aims(prev);
    }
  }


  /** No write after the `j`-th one goes to the same surface. */
  predicate LastWriteTo(writes: seq<DecenterWrite>, j: nat)
    requires j < |writes|
  {
    forall k :: j < k < |writes| ==> writes[k].surface != writes[j].surface
  }

  /** For every written surface `s`, row `s - 1` holds in Par1/Par2 the last
      decenter written to `s`. */
  predicate HoldsLastWrites(r: seq<Surface>, writes: seq<DecenterWrite>) {
    forall j :: 0 <= j < |writes| && 1 <= writes[j].surface <= |r| && LastWriteTo(writes, j) ==>
      var row := r[writes[j].surface - 1].params;
      && DecenterXParam in row && row[DecenterXParam] == writes[j].offset.x
      && DecenterYParam in row && row[DecenterYParam] == writes[j].offset.y
  }

  /** Applies decenter writes to the editor, each to the row in front of its
      surface; a later write to the same surface overrides an earlier one. */
  function ApplyDisplacements(lde: seq<Surface>, writes: seq<DecenterWrite>): (r: seq<Surface>)
    requires forall j :: 0 <= j < |writes| ==> 1 <= writes[j].surface <= |lde|
    ensures |r| == |lde|
    ensures HoldsLastWrites(r, writes)
    decreases |writes|
  {
    if writes == [] then lde
    else
      var w := writes[|writes| - 1];
      var prev := ApplyDisplacements(lde, writes[..|writes| - 1]);
      var r := SurfaceDisplacement(prev, w.surface, w.offset.x, w.offset.y);
      LastWriteStep(prev, writes, r);
      r
  }

  /** One more write keeps the earlier last writes to other surfaces and
      makes itself the last write to its own surface. */
  lemma LastWriteStep(prev: seq<Surface>, writes: seq<DecenterWrite>, r: seq<Surface>)
    requires writes != [] && 1 <= writes[|writes| - 1].surface <= |prev|
    requires HoldsLastWrites(prev, writes[..|writes| - 1])
    requires r == SurfaceDisplacement(prev, writes[|writes| - 1].surface, writes[|writes| - 1].offset.x, writes[|writes| - 1].offset.y)
    ensures HoldsLastWrites(r, writes)
  {
    var n := |writes| - 1;
    var w := writes[n];
    var init := writes[..n];
    forall j | 0 <= j < |writes| && 1 <= writes[j].surface <= |r| && LastWriteTo(writes, j)
      ensures var row := r[writes[j].surface - 1].params;
              && DecenterXParam in row && row[DecenterXParam] == writes[j].offset.x
              && DecenterYParam in row && row[DecenterYParam] == writes[j].offset.y
    {
      if j < n {
        assert init[j] == writes[j];
        assert writes[n].surface != writes[j].surface;
        assert LastWriteTo(init, j) by {
          forall k | j < k < |init| ensures init[k].surface != init[j].surface {
            assert init[k] == writes[k];
          }
        }
      }
    }
  }

  /** `a` is `b` with at most its Par1/Par2 values changed. */
  ghost predicate SameButDecenter(a: Surface, b: Surface) {
    && a.material == b.material
    && a.kind == b.kind
    && a.solves == b.solves
    && forall k :: k != DecenterXParam && k != DecenterYParam ==>
         && (k in a.params <==> k in b.params)
         && (k in b.params ==> a.params[k] == b.params[k])
  }

  lemma SameButDecenterTrans(a: Surface, b: Surface, c: Surface)
    requires SameButDecenter(a, b) && SameButDecenter(b, c)
    ensures SameButDecenter(a, c)
  {
  }

  /** One write changes at most Par1/Par2 of one row, the row in front of its
      surface. */
  lemma DisplacementFrame(prev: seq<Surface>, w: DecenterWrite, i: nat)
    requires 1 <= w.surface <= |prev| && i < |prev|
    ensures SameButDecenter(SurfaceDisplacement(prev, w.surface, w.offset.x, w.offset.y)[i], prev[i])
    ensures i + 1 != w.surface ==> SurfaceDisplacement(prev, w.surface, w.offset.x, w.offset.y)[i] == prev[i]
  {
  }

  /** Under the writes, every surface keeps everything but its Par1/Par2
      values, and a surface that is not in front of any written surface is
      untouched. */
  lemma {:induction false} ApplyDisplacementsFrame(lde: seq<Surface>, writes: seq<DecenterWrite>, i: nat)
    requires forall j :: 0 <= j < |writes| ==> 1 <= writes[j].surface <= |lde|
    requires i < |lde|
    ensures SameButDecenter(ApplyDisplacements(lde, writes)[i], lde[i])
    ensures (forall j :: 0 <= j < |writes| ==> writes[j].surface != i + 1) ==> ApplyDisplacements(lde, writes)[i] == lde[i]
    decreases |writes|
  {
    if writes == [] {
      assert ApplyDisplacements(lde, writes) == lde;
    } else {
      var n := |writes| - 1;
      var w := writes[n];
      var init := writes[..n];
      ApplyDisplacementsFrame(lde, init, i);
      var prev := ApplyDisplacements(lde, init);
      var r := SurfaceDisplacement(prev, w.surface, w.offset.x, w.offset.y);
      assert ApplyDisplacements(lde, writes) == r;
      DisplacementFrame(prev, w, i);
      SameButDecenterTrans(r[i], prev[i], lde[i]);
      if forall j :: 0 <= j < |writes| ==> writes[j].surface != i + 1 {
        assert forall j :: 0 <= j < |init| ==> init[j] == writes[j];
        assert w.surface != i + 1;
      }
    }
  }
}
