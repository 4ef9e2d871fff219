/** The lens data editor as the tolerancing scripts see it: an ordered
    sequence of surfaces, some of them mirrors, and the few editor
    operations the scripts apply to it (insert a surface, turn it into a
    coordinate break, attach pickups, write decenters). */
module Lens {

  /** Surface type, as far as these scripts distinguish them. */
  datatype SurfaceType = Standard | CoordinateBreak

  /** A solve attached to one editor cell. A cell without a solve is fixed. */
  datatype Solve = Variable | Pickup(source: int, scale: real)

  /** One row of the lens data editor.
      `solves` maps an editor cell index to the solve on that cell;
      `params` maps a parameter column number (Par1, Par2, ...) to the
      value the scripts wrote there. */
  datatype Surface = Surface(
    material: string,
    kind: SurfaceType,
    solves: map<int, Solve>,
    params: map<int, real>
  )

  const MirrorMaterial: string := "MIRROR"

  /** Editor cells holding decenter X, decenter Y, tilt about X, tilt about Y
      of a coordinate break. The editor's parameter columns start at cell 12,
      so cell 12 is Par1 (decenter X), 13 is Par2 (decenter Y), 14 is Par3 and
      15 is Par4: pickups address these columns by cell number (`solves`),
      decenter writes by Par number (`params`). */
  const DecenterXCell: int := 12
  const DecenterYCell: int := 13
  const TiltXCell: int := 14
  const TiltYCell: int := 15

  /** Parameter columns written by the scripts. */
  const DecenterXParam: int := 1
  const DecenterYParam: int := 2
  const OrderParam: int := 6

  const PickupScale: real := -1.0

  /** The surface the editor inserts: no material, standard type, nothing set. */
  const NewSurface: Surface := Surface("", Standard, map[], map[])

  predicate IsMirror(s: Surface) {
    s.material == MirrorMaterial
  }

  /** Inserts a fresh surface at `index`; every surface at or after `index`
      moves up by one. */
  function InsertNewSurfaceAt(lde: seq<Surface>, index: nat): (r: seq<Surface>)
    requires index <= |lde|
    ensures |r| == |lde| + 1
    ensures r[index] == NewSurface
    ensures forall i :: 0 <= i < index ==> r[i] == lde[i]
    ensures forall i :: index < i < |r| ==> r[i] == lde[i - 1]
  {
    lde[..index] + [NewSurface] + lde[index..]
  }

  /** The surface after a change of type to coordinate break; when `variable`
      holds, both tilt cells become optimisation variables. */
  function CoordinateBreakOf(s: Surface, variable: bool): (r: Surface)
    ensures r.kind == CoordinateBreak && r.material == s.material && r.params == s.params
    ensures variable ==> r.solves == s.solves[TiltXCell := Variable][TiltYCell := Variable]
    ensures !variable ==> r.solves == s.solves
  {
    var solves := if variable then s.solves[TiltXCell := Variable][TiltYCell := Variable] else s.solves;
    s.(kind := CoordinateBreak, solves := solves)
  }

  /** Makes surface `index` a coordinate break, with variable tilts when asked. */
  function CBify(lde: seq<Surface>, index: nat, variable: bool): (r: seq<Surface>)
    requires index < |lde|
    ensures |r| == |lde|
    ensures r[index] == CoordinateBreakOf(lde[index], variable)
    ensures forall i :: 0 <= i < |lde| && i != index ==> r[i] == lde[i]
  {
    lde[index := CoordinateBreakOf(lde[index], variable)]
  }

  /** The surface after its four decenter/tilt cells pick up surface `from`
      with scale factor -1 and its order flag is set to 1. */
  function WithPickups(s: Surface, from: int): (r: Surface)
    ensures r.kind == s.kind && r.material == s.material
    ensures forall c :: DecenterXCell <= c <= TiltYCell ==> c in r.solves && r.solves[c] == Pickup(from, PickupScale)
    ensures forall c :: c in s.solves && !(DecenterXCell <= c <= TiltYCell) ==> c in r.solves && r.solves[c] == s.solves[c]
    ensures forall c :: c in r.solves ==> c in s.solves || DecenterXCell <= c <= TiltYCell
    ensures r.params == s.params[OrderParam := 1.0]
  {
    var p := Pickup(from, PickupScale);
    s.(solves := s.solves[DecenterXCell := p][DecenterYCell := p][TiltXCell := p][TiltYCell := p],
       params := s.params[OrderParam := 1.0])
  }

  /** Attaches the -1 pickups of surface `indexTo` to surface `indexFrom` and
      sets the order flag of `indexTo`. */
  function CreatePickupsAndSetOrder(lde: seq<Surface>, indexFrom: nat, indexTo: nat): (r: seq<Surface>)
    requires indexTo < |lde|
    ensures |r| == |lde|
    ensures r[indexTo] == WithPickups(lde[indexTo], indexFrom)
    ensures forall i :: 0 <= i < |lde| && i != indexTo ==> r[i] == lde[i]
  {
    lde[indexTo := WithPickups(lde[indexTo], indexFrom)]
  }

  /** Indices, from `n` on, of the surfaces whose material is the mirror tag. */
  function MirrorIndicesFrom(lde: seq<Surface>, n: nat): (r: seq<nat>)
    requires n <= |lde|
    ensures forall k :: 0 <= k < |r| ==> n <= r[k] < |lde| && IsMirror(lde[r[k]])
    ensures forall j :: n <= j < |lde| && IsMirror(lde[j]) ==> j in r
    ensures forall k, l :: 0 <= k < l < |r| ==> r[k] < r[l]
    decreases |lde| - n
  {
    if n == |lde| then []
    else if IsMirror(lde[n]) then [n] + MirrorIndicesFrom(lde, n + 1)
    else MirrorIndicesFrom(lde, n + 1)
  }

  /** The mirror list: every index whose surface is a mirror, in increasing order. */
  function ListMirrorPlanes(lde: seq<Surface>): (r: seq<nat>)
    ensures forall k :: 0 <= k < |r| ==> r[k] < |lde| && IsMirror(lde[r[k]])
    ensures forall j :: 0 <= j < |lde| && IsMirror(lde[j]) ==> j in r
    ensures forall k, l :: 0 <= k < l < |r| ==> r[k] < r[l]
  {
    MirrorIndicesFrom(lde, 0)
  }

  /** Number of mirrors in a run of surfaces. */
  function CountMirrors(s: seq<Surface>): nat
  {
    if s == [] then 0 else (if IsMirror(s[0]) then 1 else 0) + CountMirrors(s[1..])
  }

  lemma {:induction false} CountMirrorsAppend(a: seq<Surface>, b: seq<Surface>)
    ensures CountMirrors(a + b) == CountMirrors(a) + CountMirrors(b)
    decreases |a|
  {
    if a == [] {
      assert a + b == b;
    } else {
      assert (a + b)[1..] == a[1..] + b;
      CountMirrorsAppend(a[1..], b);
    }
  }

  /** The mirror list has exactly one entry per mirror surface. */
  lemma {:induction false} MirrorIndicesCount(lde: seq<Surface>, n: nat)
    requires n <= |lde|
    ensures |MirrorIndicesFrom(lde, n)| == CountMirrors(lde[n..])
    decreases |lde| - n
  {
    if n < |lde| {
      MirrorIndicesCount(lde, n + 1);
      assert lde[n..][1..] == lde[n + 1..];
    }
  }

  lemma ListMirrorPlanesCount(lde: seq<Surface>)
    ensures |ListMirrorPlanes(lde)| == CountMirrors(lde)
  {
    MirrorIndicesCount(lde, 0);
    assert lde[0..] == lde;
  }

  /** Writes a decenter into Par1/Par2 of the row before `surface`. */
  function SurfaceDisplacement(lde: seq<Surface>, surface: nat, missx: real, missy: real): (r: seq<Surface>)
    requires 1 <= surface <= |lde|
    ensures |r| == |lde|
    ensures forall i :: 0 <= i < |lde| && i != surface - 1 ==> r[i] == lde[i]
    ensures r[surface - 1].material == lde[surface - 1].material
    ensures r[surface - 1].kind == lde[surface - 1].kind
    ensures r[surface - 1].solves == lde[surface - 1].solves
    ensures r[surface - 1].params == lde[surface - 1].params[DecenterXParam := missx][DecenterYParam := missy]
  {
    var row := lde[surface - 1];
    lde[surface - 1 := row.(params := row.params[DecenterXParam := missx][DecenterYParam := missy])]
  }
}
