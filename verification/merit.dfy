/** The merit function editor: an ordered sequence of operand rows, and the
    two ways the scripts clear it before writing their own operands. */
module Merit {

  /** Operand types the scripts create or look for; anything else a loaded
      file may hold is `OtherOperand`. */
  datatype OperandType = REAX | REAY | DMFS | CONF | GMTS | GMTT | OPGT | OtherOperand(code: string)

  /** Cells of one operand row. */
  datatype Column = Param(n: nat) | Target | Weight

  /** A cell value written through the integer or the double accessor. */
  datatype Value = Int(i: int) | Real(x: real)

  datatype MeritRow = MeritRow(kind: OperandType, cells: map<Column, Value>)

  /** Appends a fresh operand of the given type, as `AddOperand` followed by
      `ChangeType` does. */
  function AddOperand(rows: seq<MeritRow>, kind: OperandType, cells: map<Column, Value>): (r: seq<MeritRow>)
    ensures |r| == |rows| + 1 && r[..|rows|] == rows
    ensures r[|rows|] == MeritRow(kind, cells)
  {
    rows + [MeritRow(kind, cells)]
  }

  /** Deletes every operand of the merit function. */
  function RemoveAllMtfRows(rows: seq<MeritRow>): (r: seq<MeritRow>)
    ensures |r| == 0
  {
    rows[..0]
  }

  predicate IsDmfs(row: MeritRow) {
    row.kind == DMFS
  }

  predicate HasDmfs(rows: seq<MeritRow>) {
    exists i :: 0 <= i < |rows| && IsDmfs(rows[i])
  }

  /** `r` is the position of the first DMFS row. */
  predicate FirstDmfsAt(rows: seq<MeritRow>, r: int) {
    && 0 <= r < |rows|
    && IsDmfs(rows[r])
    && forall i :: 0 <= i < r ==> !IsDmfs(rows[i])
  }

  /** Position of the first DMFS row at or after `from`, or -1 when there is
      none; the scan stops at the first DMFS. */
  function FirstDmfsFrom(rows: seq<MeritRow>, from: nat): (r: int)
    requires from <= |rows|
    ensures r == -1 || from <= r < |rows|
    ensures r == -1 <==> forall i :: from <= i < |rows| ==> !IsDmfs(rows[i])
    ensures r != -1 ==> IsDmfs(rows[r]) && forall i :: from <= i < r ==> !IsDmfs(rows[i])
    decreases |rows| - from
  {
    if from == |rows| then -1
    else if IsDmfs(rows[from]) then from
    else FirstDmfsFrom(rows, from + 1)
  }

  function FirstDmfs(rows: seq<MeritRow>): (r: int)
    ensures r == -1 <==> !HasDmfs(rows)
    ensures r != -1 ==> FirstDmfsAt(rows, r)
  {
    FirstDmfsFrom(rows, 0)
  }

  /** The purge as written: when the first DMFS row is at a position r > 0,
      the DMFS row and everything after it are deleted; a DMFS at position 0,
      or no DMFS at all, leaves the rows as they are. */
  function RemoveAllAfterDMFS(rows: seq<MeritRow>): (r: seq<MeritRow>)
    ensures forall d :: 0 < d && FirstDmfsAt(rows, d) ==> r == rows[..d]
    ensures !HasDmfs(rows) || FirstDmfsAt(rows, 0) ==> r == rows
  {
    var d := FirstDmfs(rows);
    if d > 0 then rows[..d] else rows
  }

  /** After one purge no DMFS row is left at a position a second purge
      would cut at, so purging twice is purging once. */
  lemma RemoveAllAfterDMFSIdempotent(rows: seq<MeritRow>)
    ensures !HasDmfs(RemoveAllAfterDMFS(rows)) || FirstDmfsAt(RemoveAllAfterDMFS(rows), 0)
    ensures RemoveAllAfterDMFS(RemoveAllAfterDMFS(rows)) == RemoveAllAfterDMFS(rows)
  {
    var d := FirstDmfs(rows);
    if d > 0 {
      var r := rows[..d];
      assert forall i :: 0 <= i < |r| ==> r[i] == rows[i];
    }
  }

  /** The purge as its description intends: keep everything up to and
      including the first DMFS row, wherever it is, and delete the rest. */
  function RemoveAfterDmfs(rows: seq<MeritRow>): (r: seq<MeritRow>)
    ensures forall d :: FirstDmfsAt(rows, d) ==> r == rows[..d + 1]
    ensures !HasDmfs(rows) ==> r == rows
  {
    var d := FirstDmfs(rows);
    if d >= 0 then rows[..d + 1] else rows
  }

  /** The intended purge keeps its DMFS marker, so whatever is appended after
      it is removed again by the next purge. */
  lemma RemoveAfterDmfsKeepsMarker(rows: seq<MeritRow>, extra: seq<MeritRow>)
    requires HasDmfs(rows)
    requires !HasDmfs(extra)
    ensures HasDmfs(RemoveAfterDmfs(rows))
    ensures RemoveAfterDmfs(RemoveAfterDmfs(rows) + extra) == RemoveAfterDmfs(rows)
  {
    var d := FirstDmfs(rows);
    var kept := rows[..d + 1];
    var t := kept + extra;
    assert t[d] == rows[d];
    assert forall i :: 0 <= i < d ==> t[i] == rows[i];
    assert FirstDmfsAt(t, d);
    assert t[..d + 1] == kept;
  }

  /** The purge as written leaves a merit function whose first row is DMFS
      untouched, whatever follows the marker; the intended purge cuts right
      after it. */
  lemma DmfsAtRowZeroNotPurged(rows: seq<MeritRow>)
    requires |rows| >= 2 && IsDmfs(rows[0])
    ensures RemoveAllAfterDMFS(rows) == rows
    ensures RemoveAfterDmfs(rows) == rows[..1]
    ensures RemoveAllAfterDMFS(rows) != RemoveAfterDmfs(rows)
  {
    assert FirstDmfsAt(rows, 0);
  }
}
