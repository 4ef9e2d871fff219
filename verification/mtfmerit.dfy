/** MTF merit-function construction: per configuration, a CONF operand
    followed, for every field, by a GMTS sample and a GMTT sample, each
    gated by an OPGT operand that points back at it. Also the frequency
    schedule of the MTF optimisation run. */
module MtfMerit {
  import opened Merit

  /** An MTF sample operand of the given kind for the 0-based field `field`:
      Param1 = 2, Param3 = field + 1, Param4 = freq, Param6 = 1. */
  predicate IsMtfSample(row: MeritRow, kind: OperandType, field: int, freq: real) {
    && row.kind == kind
    && Param(1) in row.cells && row.cells[Param(1)] == Int(2)
    && Param(3) in row.cells && row.cells[Param(3)] == Int(field + 1)
    && Param(4) in row.cells && row.cells[Param(4)] == Real(freq)
    && Param(6) in row.cells && row.cells[Param(6)] == Int(1)
  }

  /** An OPGT operand with the given target, weight 1, whose Param1 names the
      1-based row `refersTo`. */
  predicate IsGate(row: MeritRow, target: real, refersTo: int) {
    && row.kind == OPGT
    && Target in row.cells && row.cells[Target] == Real(target)
    && Weight in row.cells && row.cells[Weight] == Real(1.0)
    && Param(1) in row.cells && row.cells[Param(1)] == Int(refersTo)
  }

  /** A CONF operand selecting the 1-based configuration `config`. */
  predicate IsConf(row: MeritRow, config: int) {
    row.kind == CONF && Param(1) in row.cells && row.cells[Param(1)] == Int(config)
  }

  /** Appends an MTF sample of kind `kind` (GMTS or GMTT) and an OPGT
      operand requiring it to exceed `target`; the OPGT refers to the sample
      by its 1-based row number, which is the old row count plus one. */
  function AddMTFOPGT(rows: seq<MeritRow>, field: nat, freq: real, target: real, kind: OperandType): (r: seq<MeritRow>)
    ensures |r| == |rows| + 2 && r[..|rows|] == rows
    ensures IsMtfSample(r[|rows|], kind, field, freq)
    ensures IsGate(r[|rows| + 1], target, |rows| + 1)
  {
    var mtfIndex := |rows|;
    var withMtf := AddOperand(rows, kind, map[Param(1) := Int(2), Param(3) := Int(field + 1),
                                                Param(4) := Real(freq), Param(6) := Int(1)]);
    var r := AddOperand(withMtf, OPGT, map[Target := Real(target), Weight := Real(1.0),
                                          Param(1) := Int(mtfIndex + 1)]);
    assert r[|rows|] == withMtf[|rows|];
    r
  }

  /** The GMTS and GMTT pairs of fields `f` .. `nFields - 1`, appended in order. */
  function AddFieldPairs(rows: seq<MeritRow>, f: nat, nFields: nat, freq: real, target: real): (r: seq<MeritRow>)
    requires f <= nFields
    ensures |r| == |rows| + 4 * (nFields - f) && r[..|rows|] == rows
    decreases nFields - f
  {
    if f == nFields then rows
    else
      var withPairs := AddMTFOPGT(AddMTFOPGT(rows, f, freq, target, GMTS), f, freq, target, GMTT);
      var r := AddFieldPairs(withPairs, f + 1, nFields, freq, target);
      PrefixTrans(rows, withPairs, r);
      r
  }

  lemma PrefixTrans(a: seq<MeritRow>, b: seq<MeritRow>, c: seq<MeritRow>)
    requires |a| <= |b| <= |c|
    requires b[..|a|] == a && c[..|b|] == b
    ensures c[..|a|] == a
  {
    assert c[..|b|][..|a|] == c[..|a|];
  }

  /** Rows per configuration: one CONF and two pairs per field. */
  function BlockSize(nFields: nat): nat {
    1 + 4 * nFields
  }

  /** a * b by repeated addition, so that block offsets stay linear. */
  function Times(a: nat, b: nat): nat {
    if a == 0 then 0 else b + Times(a - 1, b)
  }

  lemma {:induction false} TimesIsProduct(a: nat, b: nat)
    ensures Times(a, b) == a * b
  {
    if a > 0 {
      TimesIsProduct(a - 1, b);
    }
  }

  /** The blocks of configurations `mc` .. `mcs - 1`, appended in order. */
  function AddConfigs(rows: seq<MeritRow>, mc: nat, mcs: nat, nFields: nat, freq: real, target: real): (r: seq<MeritRow>)
    requires mc <= mcs
    ensures |r| == |rows| + Times(mcs - mc, BlockSize(nFields)) && r[..|rows|] == rows
    decreases mcs - mc
  {
    if mc == mcs then rows
    else
      var withConf := AddOperand(rows, CONF, map[Param(1) := Int(mc + 1)]);
      var withBlock := AddFieldPairs(withConf, 0, nFields, freq, target);
      var r := AddConfigs(withBlock, mc + 1, mcs, nFields, freq, target);
      PrefixTrans(rows, withConf, withBlock);
      PrefixTrans(rows, withBlock, r);
      r
  }

  /** For every configuration, a CONF row followed by the GMTS/GMTT pairs of
      the first `nFields` fields, all appended after `rows`. */
  function OptimizeMTFGreaterThan(rows: seq<MeritRow>, mcs: nat, nFields: nat, freq: real, target: real): (r: seq<MeritRow>)
    ensures |r| == |rows| + Times(mcs, BlockSize(nFields))
    ensures r[..|rows|] == rows
  {
    AddConfigs(rows, 0, mcs, nFields, freq, target)
  }

  /** Slot `j` (0..3) of field `f` in a field section that starts at row
      `start` with field `f0`: the GMTS sample, its gate, the GMTT sample, its
      gate. A gate at 0-based row i names the 1-based row i, which is the
      sample right before it. */
  predicate PairRowAt(r: seq<MeritRow>, start: int, f0: int, f: int, j: int, freq: real, target: real) {
    var i := start + 4 * (f - f0) + j;
    && 0 <= i < |r|
    && (if j == 0 then IsMtfSample(r[i], GMTS, f, freq)
        else if j == 2 then IsMtfSample(r[i], GMTT, f, freq)
        else IsGate(r[i], target, i))
  }

  lemma PairRowAtPrefix(a: seq<MeritRow>, b: seq<MeritRow>, start: int, f0: int, f: int, j: int, freq: real, target: real)
    requires |a| <= |b| && b[..|a|] == a
    requires PairRowAt(a, start, f0, f, j, freq, target)
    ensures PairRowAt(b, start, f0, f, j, freq, target)
  {
    assert b[start + 4 * (f - f0) + j] == a[start + 4 * (f - f0) + j];
  }

  lemma {:induction false} FieldPairsLayout(rows: seq<MeritRow>, f0: nat, nFields: nat, freq: real, target: real)
    requires f0 <= nFields
    ensures forall f, j :: f0 <= f < nFields && 0 <= j < 4 ==>
              PairRowAt(AddFieldPairs(rows, f0, nFields, freq, target), |rows|, f0, f, j, freq, target)
    decreases nFields - f0
  {
    if f0 < nFields {
      var withGmts := AddMTFOPGT(rows, f0, freq, target, GMTS);
      var withPairs := AddMTFOPGT(withGmts, f0, freq, target, GMTT);
      var r := AddFieldPairs(rows, f0, nFields, freq, target);
      FieldPairsLayout(withPairs, f0 + 1, nFields, freq, target);
      assert r == AddFieldPairs(withPairs, f0 + 1, nFields, freq, target);
      forall f, j | f0 <= f < nFields && 0 <= j < 4
        ensures PairRowAt(r, |rows|, f0, f, j, freq, target)
      {
        if f == f0 {
          FirstFieldPair(rows, f0, j, freq, target);
          PairRowAtPrefix(withPairs, r, |rows|, f0, f, j, freq, target);
        } else {
          PairRowAtShift(r, |rows|, f0, f, j, freq, target);
        }
      }
    }
  }

  /** The four rows one field appends sit in slots 0 .. 3 of that field. */
  lemma FirstFieldPair(rows: seq<MeritRow>, f0: nat, j: int, freq: real, target: real)
    requires 0 <= j < 4
    ensures PairRowAt(AddMTFOPGT(AddMTFOPGT(rows, f0, freq, target, GMTS), f0, freq, target, GMTT), |rows|, f0, f0, j, freq, target)
  {
    var withGmts := AddMTFOPGT(rows, f0, freq, target, GMTS);
    var withPairs := AddMTFOPGT(withGmts, f0, freq, target, GMTT);
    assert withPairs[..|withGmts|][|rows|] == withGmts[|rows|];
    assert withPairs[..|withGmts|][|rows| + 1] == withGmts[|rows| + 1];
  }

  /** Slots of a field section that starts one field later. */
  lemma PairRowAtShift(r: seq<MeritRow>, start: int, f0: int, f: int, j: int, freq: real, target: real)
    requires PairRowAt(r, start + 4, f0 + 1, f, j, freq, target)
    ensures PairRowAt(r, start, f0, f, j, freq, target)
  {
    assert start + 4 + 4 * (f - (f0 + 1)) + j == start + 4 * (f - f0) + j;
  }

  /** Block of configuration `mc` (0-based) in a run of blocks that starts at
      row `base` with configuration `mc0` begins with a CONF row selecting the
      1-based configuration mc + 1. */
  predicate ConfRowAt(r: seq<MeritRow>, base: int, mc0: nat, mc: nat, nFields: nat)
    requires mc0 <= mc
  {
    var i := base + Times(mc - mc0, BlockSize(nFields));
    0 <= i < |r| && IsConf(r[i], mc + 1)
  }

  /** ... and continues with the field section of fields 0 .. nFields - 1. */
  predicate BlockPairRowAt(r: seq<MeritRow>, base: int, mc0: nat, mc: nat, nFields: nat, f: int, j: int, freq: real, target: real)
    requires mc0 <= mc
  {
    PairRowAt(r, base + Times(mc - mc0, BlockSize(nFields)) + 1, 0, f, j, freq, target)
  }

  lemma {:induction false} ConfigsConfLayout(rows: seq<MeritRow>, mc0: nat, mcs: nat, nFields: nat, freq: real, target: real)
    requires mc0 <= mcs
    ensures forall mc :: mc0 <= mc < mcs ==>
              ConfRowAt(AddConfigs(rows, mc0, mcs, nFields, freq, target), |rows|, mc0, mc, nFields)
    decreases mcs - mc0
  {
    if mc0 < mcs {
      var withConf := AddOperand(rows, CONF, map[Param(1) := Int(mc0 + 1)]);
      var withBlock := AddFieldPairs(withConf, 0, nFields, freq, target);
      var r := AddConfigs(rows, mc0, mcs, nFields, freq, target);
      ConfigsConfLayout(withBlock, mc0 + 1, mcs, nFields, freq, target);
      assert r == AddConfigs(withBlock, mc0 + 1, mcs, nFields, freq, target);
      FirstConf(rows, mc0, nFields, freq, target);
      ConfRowAtPrefix(withBlock, r, |rows|, mc0, mc0, nFields);
      forall mc | mc0 <= mc < mcs
        ensures ConfRowAt(r, |rows|, mc0, mc, nFields)
      {
        if mc > mc0 {
          ConfRowAtShift(r, |rows|, |withBlock|, mc0, mc, nFields);
        }
      }
    }
  }

  /** The CONF row a block starts with stays in front of its field section. */
  lemma FirstConf(rows: seq<MeritRow>, mc0: nat, nFields: nat, freq: real, target: real)
    ensures ConfRowAt(AddFieldPairs(AddOperand(rows, CONF, map[Param(1) := Int(mc0 + 1)]), 0, nFields, freq, target),
                      |rows|, mc0, mc0, nFields)
  {
    var withConf := AddOperand(rows, CONF, map[Param(1) := Int(mc0 + 1)]);
    var withBlock := AddFieldPairs(withConf, 0, nFields, freq, target);
    assert withBlock[..|withConf|][|rows|] == withConf[|rows|];
  }

  lemma ConfRowAtPrefix(a: seq<MeritRow>, b: seq<MeritRow>, base: int, mc0: nat, mc: nat, nFields: nat)
    requires mc0 <= mc
    requires |a| <= |b| && b[..|a|] == a
    requires ConfRowAt(a, base, mc0, mc, nFields)
    ensures ConfRowAt(b, base, mc0, mc, nFields)
  {
    var i := base + Times(mc - mc0, BlockSize(nFields));
    assert b[..|a|][i] == b[i];
  }

  /** Blocks of a run that starts one configuration later. */
  lemma ConfRowAtShift(r: seq<MeritRow>, base: int, next: int, mc0: nat, mc: nat, nFields: nat)
    requires mc0 < mc
    requires next == base + BlockSize(nFields)
    requires ConfRowAt(r, next, mc0 + 1, mc, nFields)
    ensures ConfRowAt(r, base, mc0, mc, nFields)
  {
    assert Times(mc - mc0, BlockSize(nFields)) == BlockSize(nFields) + Times(mc - (mc0 + 1), BlockSize(nFields));
  }

  lemma {:induction false} ConfigsPairLayout(rows: seq<MeritRow>, mc0: nat, mcs: nat, nFields: nat, freq: real, target: real)
    requires mc0 <= mcs
    ensures forall mc, f, j :: mc0 <= mc < mcs && 0 <= f < nFields && 0 <= j < 4 ==>
              BlockPairRowAt(AddConfigs(rows, mc0, mcs, nFields, freq, target), |rows|, mc0, mc, nFields, f, j, freq, target)
    decreases mcs - mc0
  {
    if mc0 < mcs {
      var withConf := AddOperand(rows, CONF, map[Param(1) := Int(mc0 + 1)]);
      var withBlock := AddFieldPairs(withConf, 0, nFields, freq, target);
      var r := AddConfigs(rows, mc0, mcs, nFields, freq, target);
      ConfigsPairLayout(withBlock, mc0 + 1, mcs, nFields, freq, target);
      FieldPairsLayout(withConf, 0, nFields, freq, target);
      assert r == AddConfigs(withBlock, mc0 + 1, mcs, nFields, freq, target);
      forall mc, f, j | mc0 <= mc < mcs && 0 <= f < nFields && 0 <= j < 4
        ensures BlockPairRowAt(r, |rows|, mc0, mc, nFields, f, j, freq, target)
      {
        if mc == mc0 {
          BlockPairFirst(withBlock, r, |rows|, mc, nFields, f, j, freq, target);
        } else {
          BlockPairStep(r, |rows|, |withBlock|, mc0, mc, nFields, f, j, freq, target);
        }
      }
    }
  }

  lemma BlockPairFirst(block: seq<MeritRow>, r: seq<MeritRow>, base: int, mc: nat, nFields: nat, f: int, j: int, freq: real, target: real)
    requires |block| <= |r| && r[..|block|] == block
    requires PairRowAt(block, base + 1, 0, f, j, freq, target)
    ensures BlockPairRowAt(r, base, mc, mc, nFields, f, j, freq, target)
  {
    PairRowAtPrefix(block, r, base + 1, 0, f, j, freq, target);
  }

  lemma BlockPairStep(r: seq<MeritRow>, base: int, next: int, mc0: nat, mc: nat, nFields: nat, f: int, j: int, freq: real, target: real)
    requires mc0 < mc
    requires next == base + BlockSize(nFields)
    requires BlockPairRowAt(r, next, mc0 + 1, mc, nFields, f, j, freq, target)
    ensures BlockPairRowAt(r, base, mc0, mc, nFields, f, j, freq, target)
  {
    assert Times(mc - mc0, BlockSize(nFields)) == BlockSize(nFields) + Times(mc - (mc0 + 1), BlockSize(nFields));
  }

  /** The layout of the appended rows: the block of configuration mc starts
      at row |rows| + mc * (1 + 4 * nFields) with a CONF row selecting
      configuration mc + 1; inside it, field f contributes a GMTS sample, an
      OPGT naming that sample's 1-based row, a GMTT sample and another OPGT
      naming it. */
  lemma OptimizeMTFGreaterThanLayout(rows: seq<MeritRow>, mcs: nat, nFields: nat, freq: real, target: real)
    ensures forall mc :: 0 <= mc < mcs ==>
              ConfRowAt(OptimizeMTFGreaterThan(rows, mcs, nFields, freq, target), |rows|, 0, mc, nFields)
    ensures forall mc, f, j :: 0 <= mc < mcs && 0 <= f < nFields && 0 <= j < 4 ==>
              BlockPairRowAt(OptimizeMTFGreaterThan(rows, mcs, nFields, freq, target), |rows|, 0, mc, nFields, f, j, freq, target)
  {
    ConfigsConfLayout(rows, 0, mcs, nFields, freq, target);
    ConfigsPairLayout(rows, 0, mcs, nFields, freq, target);
  }

  /** The number of appended rows is one block of 1 + 4 * nFields rows per
      configuration. */
  lemma OptimizeMTFGreaterThanLength(rows: seq<MeritRow>, mcs: nat, nFields: nat, freq: real, target: real)
    ensures |OptimizeMTFGreaterThan(rows, mcs, nFields, freq, target)| == |rows| + mcs * (1 + 4 * nFields)
  {
    TimesIsProduct(mcs, BlockSize(nFields));
  }

  /** Row `i` is an OPGT that gates the MTF sample right before it, naming
      that sample's 1-based row number (which is `i`). */
  predicate GatesPrevious(rows: seq<MeritRow>, i: nat)
    requires i < |rows|
  {
    && 1 <= i
    && (rows[i - 1].kind == GMTS || rows[i - 1].kind == GMTT)
    && Param(1) in rows[i].cells && rows[i].cells[Param(1)] == Int(i)
  }

  /** Every OPGT row gates the row right before it. */
  predicate WellGated(rows: seq<MeritRow>) {
    forall i :: 0 <= i < |rows| && rows[i].kind == OPGT ==> GatesPrevious(rows, i)
  }

  lemma AddMTFOPGTKeepsGating(rows: seq<MeritRow>, field: nat, freq: real, target: real, kind: OperandType)
    requires WellGated(rows)
    requires kind == GMTS || kind == GMTT
    ensures WellGated(AddMTFOPGT(rows, field, freq, target, kind))
  {
    var r := AddMTFOPGT(rows, field, freq, target, kind);
    forall i | 0 <= i < |r| && r[i].kind == OPGT
      ensures GatesPrevious(r, i)
    {
      if i < |rows| {
        assert r[i] == rows[i];
        assert r[i - 1] == rows[i - 1];
      }
    }
  }

  lemma {:induction false} FieldPairsKeepGating(rows: seq<MeritRow>, f: nat, nFields: nat, freq: real, target: real)
    requires f <= nFields
    requires WellGated(rows)
    ensures WellGated(AddFieldPairs(rows, f, nFields, freq, target))
    decreases nFields - f
  {
    if f < nFields {
      AddMTFOPGTKeepsGating(rows, f, freq, target, GMTS);
      AddMTFOPGTKeepsGating(AddMTFOPGT(rows, f, freq, target, GMTS), f, freq, target, GMTT);
      FieldPairsKeepGating(AddMTFOPGT(AddMTFOPGT(rows, f, freq, target, GMTS), f, freq, target, GMTT), f + 1, nFields, freq, target);
    }
  }

  lemma {:induction false} ConfigsKeepGating(rows: seq<MeritRow>, mc: nat, mcs: nat, nFields: nat, freq: real, target: real)
    requires mc <= mcs
    requires WellGated(rows)
    ensures WellGated(AddConfigs(rows, mc, mcs, nFields, freq, target))
    decreases mcs - mc
  {
    if mc < mcs {
      var withConf := AddOperand(rows, CONF, map[Param(1) := Int(mc + 1)]);
      assert WellGated(withConf) by {
        forall i | 0 <= i < |withConf| && withConf[i].kind == OPGT
          ensures GatesPrevious(withConf, i)
        {
          assert withConf[i] == rows[i];
          assert withConf[i - 1] == rows[i - 1];
        }
      }
      FieldPairsKeepGating(withConf, 0, nFields, freq, target);
      ConfigsKeepGating(AddFieldPairs(withConf, 0, nFields, freq, target), mc + 1, mcs, nFields, freq, target);
    }
  }

  /** Appending the MTF operands keeps every OPGT right after the sample it
      gates and pointing at it. */
  lemma OptimizeMTFGreaterThanKeepsGating(rows: seq<MeritRow>, mcs: nat, nFields: nat, freq: real, target: real)
    requires WellGated(rows)
    ensures WellGated(OptimizeMTFGreaterThan(rows, mcs, nFields, freq, target))
  {
    ConfigsKeepGating(rows, 0, mcs, nFields, freq, target);
  }

  /** Rows from `from` on are all operands this module writes. */
  predicate OnlyMtfOperands(rows: seq<MeritRow>, from: nat) {
    forall i :: from <= i < |rows| ==> rows[i].kind in {CONF, GMTS, GMTT, OPGT}
  }

  /** Appending MTF operands to rows that are MTF operands from `d` on keeps
      the first `d` rows and the property. */
  lemma KeepsMtfTail(a: seq<MeritRow>, r: seq<MeritRow>, d: nat)
    ensures d <= |a| <= |r| && r[..|a|] == a && OnlyMtfOperands(a, d) && OnlyMtfOperands(r, |a|)
            ==> r[..d] == a[..d] && OnlyMtfOperands(r, d)
  {
    if d <= |a| <= |r| && r[..|a|] == a && OnlyMtfOperands(a, d) && OnlyMtfOperands(r, |a|) {
      assert r[..|a|][..d] == r[..d];
      forall i | d <= i < |r| ensures r[i].kind in {CONF, GMTS, GMTT, OPGT} {
        if i < |a| { assert r[i] == r[..|a|][i]; }
      }
    }
  }

  lemma {:induction false} FieldPairsOnlyMtf(rows: seq<MeritRow>, from: nat, f: nat, nFields: nat, freq: real, target: real)
    requires f <= nFields && from <= |rows|
    requires OnlyMtfOperands(rows, from)
    ensures OnlyMtfOperands(AddFieldPairs(rows, f, nFields, freq, target), from)
    decreases nFields - f
  {
    if f < nFields {
      var withGmts := AddMTFOPGT(rows, f, freq, target, GMTS);
      var withPairs := AddMTFOPGT(withGmts, f, freq, target, GMTT);
      assert OnlyMtfOperands(withGmts, from) by {
        forall i | from <= i < |withGmts| ensures withGmts[i].kind in {CONF, GMTS, GMTT, OPGT} {
          if i < |rows| { assert withGmts[i] == rows[i]; }
        }
      }
      assert OnlyMtfOperands(withPairs, from) by {
        forall i | from <= i < |withPairs| ensures withPairs[i].kind in {CONF, GMTS, GMTT, OPGT} {
          if i < |withGmts| { assert withPairs[i] == withGmts[i]; }
        }
      }
      FieldPairsOnlyMtf(withPairs, from, f + 1, nFields, freq, target);
    }
  }

  lemma {:induction false} ConfigsOnlyMtf(rows: seq<MeritRow>, from: nat, mc: nat, mcs: nat, nFields: nat, freq: real, target: real)
    requires mc <= mcs && from <= |rows|
    requires OnlyMtfOperands(rows, from)
    ensures OnlyMtfOperands(AddConfigs(rows, mc, mcs, nFields, freq, target), from)
    decreases mcs - mc
  {
    if mc < mcs {
      var withConf := AddOperand(rows, CONF, map[Param(1) := Int(mc + 1)]);
      assert OnlyMtfOperands(withConf, from) by {
        forall i | from <= i < |withConf| ensures withConf[i].kind in {CONF, GMTS, GMTT, OPGT} {
          if i < |rows| { assert withConf[i] == rows[i]; }
        }
      }
      FieldPairsOnlyMtf(withConf, from, 0, nFields, freq, target);
      ConfigsOnlyMtf(AddFieldPairs(withConf, 0, nFields, freq, target), from, mc + 1, mcs, nFields, freq, target);
    }
  }

  /** Every appended operand is a CONF, GMTS, GMTT or OPGT; in particular
      none is a DMFS marker. */
  lemma AppendedRowsAreMtfOperands(rows: seq<MeritRow>, mcs: nat, nFields: nat, freq: real, target: real)
    ensures OnlyMtfOperands(OptimizeMTFGreaterThan(rows, mcs, nFields, freq, target), |rows|)
    ensures !HasDmfs(OptimizeMTFGreaterThan(rows, mcs, nFields, freq, target)[|rows|..])
  {
    var r := OptimizeMTFGreaterThan(rows, mcs, nFields, freq, target);
    ConfigsOnlyMtf(rows, |rows|, 0, mcs, nFields, freq, target);
    var extra := r[|rows|..];
    forall i | 0 <= i < |extra|
      ensures !IsDmfs(extra[i])
    {
      assert extra[i] == r[|rows| + i];
    }
  }

  /** Frequencies visited by the MTF optimisation run: startfreq,
      startfreq + 0.25, ... while not above maxfreq. */
  method FrequencySchedule(startfreq: real, maxfreq: real) returns (freqs: seq<real>)
    ensures forall i :: 0 <= i < |freqs| ==> freqs[i] == startfreq + (i as real) * 0.25 && freqs[i] <= maxfreq
    ensures startfreq + (|freqs| as real) * 0.25 > maxfreq
    ensures forall i, j :: 0 <= i < j < |freqs| ==> freqs[i] < freqs[j]
    ensures |freqs| == 0 <==> startfreq > maxfreq
  {
    freqs := [];
    var freq := startfreq;
    while freq <= maxfreq
      invariant freq == startfreq + (|freqs| as real) * 0.25
      invariant forall i :: 0 <= i < |freqs| ==> freqs[i] == startfreq + (i as real) * 0.25 && freqs[i] <= maxfreq
      decreases if freq <= maxfreq then ((maxfreq - freq) * 4.0).Floor + 1 else 0
    {
      freqs := freqs + [freq];
      freq := freq + 0.25;
    }
    if |freqs| == 0 {
      assert freq == startfreq;
    } else {
      assert freqs[0] == startfreq;
    }
  }

  /** Fields per MTF block and sample threshold used by the MTF run. */
  const RunFields: nat := 5
  const RunThreshold: real := 0.5

  /** Rows one call of OptimizeMTFGreaterThan appends: one block per
      configuration. */
  function SetRows(mcs: nat, fields: nat): nat {
    Times(mcs, BlockSize(fields))
  }

  /** The merit function one optimisation stage leaves behind: the purge as
      intended, then the MTF operands for `freq`. The run passes RunFields
      fields; the stage lemmas below hold for any field count. */
  function Stage(rows: seq<MeritRow>, mcs: nat, fields: nat, freq: real): seq<MeritRow> {
    OptimizeMTFGreaterThan(RemoveAfterDmfs(rows), mcs, fields, freq, RunThreshold)
  }

  /** The same stage with the purge as written. */
  function StageAsWritten(rows: seq<MeritRow>, mcs: nat, fields: nat, freq: real): seq<MeritRow> {
    OptimizeMTFGreaterThan(RemoveAllAfterDMFS(rows), mcs, fields, freq, RunThreshold)
  }

  /** Each frequency runs a local stage and then a global stage, each
      reloading what the previous one saved. With the intended purge, a
      marked merit function keeps its marker and everything before it
      through the whole run. */
  function AfterSchedule(rows: seq<MeritRow>, mcs: nat, fields: nat, freqs: seq<real>): (r: seq<MeritRow>)
    ensures HasDmfs(rows) ==> HasDmfs(r) && RemoveAfterDmfs(r) == RemoveAfterDmfs(rows)
    decreases |freqs|
  {
    if freqs == [] then rows
    else
      var prev := AfterSchedule(rows, mcs, fields, freqs[..|freqs| - 1]);
      var f := freqs[|freqs| - 1];
      var local := Stage(prev, mcs, fields, f);
      StageKeepsBase(prev, mcs, fields, f);
      StageKeepsBase(local, mcs, fields, f);
      Stage(local, mcs, fields, f)
  }

  /** The same run with the purge as written. On a merit function without
      DMFS nothing is ever purged and every frequency adds two sets of MTF
      operands. */
  function AfterScheduleAsWritten(rows: seq<MeritRow>, mcs: nat, fields: nat, freqs: seq<real>): (r: seq<MeritRow>)
    ensures !HasDmfs(rows) ==> !HasDmfs(r) && |r| == |rows| + Times(|freqs|, SetRows(mcs, fields) + SetRows(mcs, fields))
    ensures !HasDmfs(rows) ==> r[..|rows|] == rows && OnlyMtfOperands(r, |rows|)
    decreases |freqs|
  {
    if freqs == [] then rows
    else
      var n := |freqs| - 1;
      var prev := AfterScheduleAsWritten(rows, mcs, fields, freqs[..n]);
      var f := freqs[n];
      AsWrittenTwoStages(prev, mcs, fields, f);
      var r := StageAsWritten(StageAsWritten(prev, mcs, fields, f), mcs, fields, f);
      KeepsMtfTail(prev, r, |rows|);
      assert Times(|freqs|, SetRows(mcs, fields) + SetRows(mcs, fields))
             == SetRows(mcs, fields) + SetRows(mcs, fields) + Times(n, SetRows(mcs, fields) + SetRows(mcs, fields));
      r
  }

  /** A stage keeps a marked merit function marked, with the same base. */
  lemma StageKeepsBase(rows: seq<MeritRow>, mcs: nat, fields: nat, freq: real)
    ensures HasDmfs(rows) ==> HasDmfs(Stage(rows, mcs, fields, freq))
    ensures HasDmfs(rows) ==> RemoveAfterDmfs(Stage(rows, mcs, fields, freq)) == RemoveAfterDmfs(rows)
  {
    if HasDmfs(rows) {
      StageRestarts(rows, mcs, fields, freq, freq);
      var kept := RemoveAfterDmfs(rows);
      var r := Stage(rows, mcs, fields, freq);
      var i :| 0 <= i < |kept| && IsDmfs(kept[i]);
      assert r[..|kept|] == kept;
      assert r[i] == kept[i];
    }
  }

  /** A stage on a merit function with a DMFS marker keeps the marker and
      what is before it, and only that, so a second stage starts afresh. */
  lemma StageRestarts(rows: seq<MeritRow>, mcs: nat, fields: nat, f1: real, f2: real)
    requires HasDmfs(rows)
    ensures RemoveAfterDmfs(Stage(rows, mcs, fields, f1)) == RemoveAfterDmfs(rows)
    ensures Stage(Stage(rows, mcs, fields, f1), mcs, fields, f2) == Stage(rows, mcs, fields, f2)
  {
    var kept := RemoveAfterDmfs(rows);
    var r := Stage(rows, mcs, fields, f1);
    AppendedRowsAreMtfOperands(kept, mcs, fields, f1, RunThreshold);
    var extra := r[|kept|..];
    assert r == kept + extra;
    RemoveAfterDmfsKeepsMarker(rows, extra);
  }

  /** With the intended purge, a merit function with a DMFS marker ends the
      whole run holding exactly one set of MTF operands, the last
      frequency's, after the kept marker. */
  lemma {:induction false} CorrectedScheduleStable(rows: seq<MeritRow>, mcs: nat, fields: nat, freqs: seq<real>)
    requires HasDmfs(rows)
    requires freqs != []
    ensures AfterSchedule(rows, mcs, fields, freqs) == Stage(rows, mcs, fields, freqs[|freqs| - 1])
    ensures |AfterSchedule(rows, mcs, fields, freqs)| == |RemoveAfterDmfs(rows)| + SetRows(mcs, fields)
    decreases |freqs|
  {
    var n := |freqs| - 1;
    var f := freqs[n];
    var prev := AfterSchedule(rows, mcs, fields, freqs[..n]);
    if n == 0 {
      assert prev == rows;
      StageRestarts(rows, mcs, fields, f, f);
    } else {
      CorrectedScheduleStable(rows, mcs, fields, freqs[..n]);
      var g := freqs[..n][n - 1];
      assert prev == Stage(rows, mcs, fields, g);
      StageRestarts(rows, mcs, fields, g, f);
      StageRestarts(rows, mcs, fields, f, f);
    }
  }

  /** A stage as written on a merit function without DMFS purges nothing
      and leaves no DMFS behind. */
  lemma StageAsWrittenOnUnmarked(rows: seq<MeritRow>, mcs: nat, fields: nat, freq: real)
    requires !HasDmfs(rows)
    ensures !HasDmfs(StageAsWritten(rows, mcs, fields, freq))
    ensures |StageAsWritten(rows, mcs, fields, freq)| == |rows| + SetRows(mcs, fields)
    ensures StageAsWritten(rows, mcs, fields, freq)[..|rows|] == rows
    ensures OnlyMtfOperands(StageAsWritten(rows, mcs, fields, freq), |rows|)
  {
    var r := StageAsWritten(rows, mcs, fields, freq);
    AppendedRowsAreMtfOperands(rows, mcs, fields, freq, RunThreshold);
    assert r == rows + r[|rows|..];
    NoDmfsConcat(rows, r[|rows|..]);
  }

  lemma NoDmfsConcat(a: seq<MeritRow>, b: seq<MeritRow>)
    requires !HasDmfs(a) && !HasDmfs(b)
    ensures !HasDmfs(a + b)
  {
    forall i | 0 <= i < |a + b|
      ensures !IsDmfs((a + b)[i])
    {
      if i < |a| {
        assert (a + b)[i] == a[i];
      } else {
        assert (a + b)[i] == b[i - |a|];
      }
    }
  }

  /** The first stage as written cuts the DMFS marker and everything after
      it, then appends one set of MTF operands. */
  lemma AsWrittenFirstStage(rows: seq<MeritRow>, d: nat, mcs: nat, fields: nat, freq: real)
    requires 0 < d && FirstDmfsAt(rows, d)
    ensures !HasDmfs(StageAsWritten(rows, mcs, fields, freq))
    ensures |StageAsWritten(rows, mcs, fields, freq)| == d + SetRows(mcs, fields)
    ensures StageAsWritten(rows, mcs, fields, freq)[..d] == rows[..d]
    ensures OnlyMtfOperands(StageAsWritten(rows, mcs, fields, freq), d)
  {
    var cut := RemoveAllAfterDMFS(rows);
    assert cut == rows[..d];
    assert !HasDmfs(cut) by {
      forall i | 0 <= i < |cut| ensures !IsDmfs(cut[i]) {
        assert cut[i] == rows[i];
      }
    }
    StageAsWrittenOnUnmarked(cut, mcs, fields, freq);
  }

  /** With the purge as written, a merit function whose first DMFS is at row
      d > 0 loses the marker in the first stage and from then on gains a
      further set of MTF operands at every stage: after the run it holds
      2 * |freqs| sets. */
  lemma {:induction false} AsWrittenScheduleGrows(rows: seq<MeritRow>, d: nat, mcs: nat, fields: nat, freqs: seq<real>)
    requires 0 < d && FirstDmfsAt(rows, d)
    requires freqs != []
    ensures !HasDmfs(AfterScheduleAsWritten(rows, mcs, fields, freqs))
    ensures |AfterScheduleAsWritten(rows, mcs, fields, freqs)| == d + Times(|freqs|, SetRows(mcs, fields) + SetRows(mcs, fields))
    ensures AfterScheduleAsWritten(rows, mcs, fields, freqs)[..d] == rows[..d]
    ensures OnlyMtfOperands(AfterScheduleAsWritten(rows, mcs, fields, freqs), d)
    decreases |freqs|
  {
    var n := |freqs| - 1;
    var f := freqs[n];
    var prev := AfterScheduleAsWritten(rows, mcs, fields, freqs[..n]);
    if n == 0 {
      assert prev == rows;
      AsWrittenScheduleFirst(rows, d, mcs, fields, f);
    } else {
      AsWrittenScheduleGrows(rows, d, mcs, fields, freqs[..n]);
      AsWrittenScheduleStep(rows, mcs, fields, freqs);
      KeepsMtfTail(prev, AfterScheduleAsWritten(rows, mcs, fields, freqs), d);
    }
  }

  /** One more frequency, as written, on a run that has already lost its
      DMFS marker: two further sets of MTF operands, still no DMFS. */
  lemma AsWrittenScheduleStep(rows: seq<MeritRow>, mcs: nat, fields: nat, freqs: seq<real>)
    requires freqs != []
    requires !HasDmfs(AfterScheduleAsWritten(rows, mcs, fields, freqs[..|freqs| - 1]))
    ensures !HasDmfs(AfterScheduleAsWritten(rows, mcs, fields, freqs))
    ensures |AfterScheduleAsWritten(rows, mcs, fields, freqs)|
            == |AfterScheduleAsWritten(rows, mcs, fields, freqs[..|freqs| - 1])| + SetRows(mcs, fields) + SetRows(mcs, fields)
    ensures AfterScheduleAsWritten(rows, mcs, fields, freqs)[..|AfterScheduleAsWritten(rows, mcs, fields, freqs[..|freqs| - 1])|]
            == AfterScheduleAsWritten(rows, mcs, fields, freqs[..|freqs| - 1])
    ensures OnlyMtfOperands(AfterScheduleAsWritten(rows, mcs, fields, freqs), |AfterScheduleAsWritten(rows, mcs, fields, freqs[..|freqs| - 1])|)
  {
    var n := |freqs| - 1;
    AsWrittenTwoStages(AfterScheduleAsWritten(rows, mcs, fields, freqs[..n]), mcs, fields, freqs[n]);
  }

  /** The first frequency as written: the marker goes, two sets of MTF
      operands come in. */
  lemma AsWrittenScheduleFirst(rows: seq<MeritRow>, d: nat, mcs: nat, fields: nat, freq: real)
    requires 0 < d && FirstDmfsAt(rows, d)
    ensures !HasDmfs(StageAsWritten(StageAsWritten(rows, mcs, fields, freq), mcs, fields, freq))
    ensures |StageAsWritten(StageAsWritten(rows, mcs, fields, freq), mcs, fields, freq)| == d + SetRows(mcs, fields) + SetRows(mcs, fields)
    ensures StageAsWritten(StageAsWritten(rows, mcs, fields, freq), mcs, fields, freq)[..d] == rows[..d]
    ensures OnlyMtfOperands(StageAsWritten(StageAsWritten(rows, mcs, fields, freq), mcs, fields, freq), d)
  {
    var first := StageAsWritten(rows, mcs, fields, freq);
    AsWrittenFirstStage(rows, d, mcs, fields, freq);
    StageAsWrittenOnUnmarked(first, mcs, fields, freq);
    KeepsMtfTail(first, StageAsWritten(first, mcs, fields, freq), d);
  }

  /** Both stages of one frequency, as written, on a merit function without
      DMFS: two further sets of MTF operands and still no DMFS. */
  lemma AsWrittenTwoStages(rows: seq<MeritRow>, mcs: nat, fields: nat, freq: real)
    ensures !HasDmfs(rows) ==> !HasDmfs(StageAsWritten(StageAsWritten(rows, mcs, fields, freq), mcs, fields, freq))
    ensures !HasDmfs(rows) ==>
              |StageAsWritten(StageAsWritten(rows, mcs, fields, freq), mcs, fields, freq)| == |rows| + SetRows(mcs, fields) + SetRows(mcs, fields)
    ensures !HasDmfs(rows) ==>
              StageAsWritten(StageAsWritten(rows, mcs, fields, freq), mcs, fields, freq)[..|rows|] == rows
              && OnlyMtfOperands(StageAsWritten(StageAsWritten(rows, mcs, fields, freq), mcs, fields, freq), |rows|)
  {
    if !HasDmfs(rows) {
      var first := StageAsWritten(rows, mcs, fields, freq);
      StageAsWrittenOnUnmarked(rows, mcs, fields, freq);
      StageAsWrittenOnUnmarked(first, mcs, fields, freq);
      KeepsMtfTail(first, StageAsWritten(first, mcs, fields, freq), |rows|);
    }
  }

  /** Concrete instance: a merit function [CONF, DMFS] and one frequency.
      Run as written, the two stages leave two full sets of MTF operands
      after the CONF row (2 * 21 rows for one configuration and the run's
      RunFields = 5 fields); run as
      intended, one set after the kept marker. */
  lemma DuplicatedOperandsExample(rows: seq<MeritRow>, mcs: nat, fields: nat, freq: real)
    requires |rows| == 2 && rows[0].kind == CONF && rows[1].kind == DMFS
    ensures |AfterScheduleAsWritten(rows, mcs, fields, [freq])| == 1 + SetRows(mcs, fields) + SetRows(mcs, fields)
    ensures |AfterSchedule(rows, mcs, fields, [freq])| == 2 + SetRows(mcs, fields)
    ensures AfterScheduleAsWritten(rows, mcs, fields, [freq])[0] == rows[0]
    ensures OnlyMtfOperands(AfterScheduleAsWritten(rows, mcs, fields, [freq]), 1)
    ensures AfterSchedule(rows, mcs, fields, [freq])[..2] == rows
    ensures OnlyMtfOperands(AfterSchedule(rows, mcs, fields, [freq]), 2)
  {
    assert FirstDmfsAt(rows, 1);
    AsWrittenScheduleGrows(rows, 1, mcs, fields, [freq]);
    assert AfterScheduleAsWritten(rows, mcs, fields, [freq])[..1][0] == rows[..1][0];
    assert RemoveAfterDmfs(rows) == rows;
    CorrectedScheduleStable(rows, mcs, fields, [freq]);
    AppendedRowsAreMtfOperands(rows, mcs, fields, freq, RunThreshold);
  }
}
