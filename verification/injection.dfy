/** Coordinate-break injection: every mirror gets a variable-tilt
    coordinate break in front of it and a fixed coordinate break behind it
    whose decenter and tilt cells pick up the front one with factor -1. */
module Injection {
  import opened Lens

  /** The coordinate break inserted in front of a mirror: both tilts variable. */
  const LeadingBreak: Surface := CoordinateBreakOf(NewSurface, true)

  /** The coordinate break inserted behind a mirror, picking up surface `from`. */
  function TrailingBreak(from: int): Surface {
    WithPickups(CoordinateBreakOf(NewSurface, false), from)
  }

  predicate IsLeadingBreak(s: Surface) {
    && s.kind == CoordinateBreak
    && !IsMirror(s)
    && TiltXCell in s.solves && s.solves[TiltXCell] == Variable
    && TiltYCell in s.solves && s.solves[TiltYCell] == Variable
  }

  /** A fixed coordinate break: no variable cell, cells 12-15 pick up
      `from` with factor -1, order flag set. */
  predicate IsTrailingBreak(s: Surface, from: int) {
    && s.kind == CoordinateBreak
    && !IsMirror(s)
    && (forall c :: c in s.solves ==> s.solves[c] != Variable)
    && (forall c :: DecenterXCell <= c <= TiltYCell ==> c in s.solves && s.solves[c] == Pickup(from, PickupScale))
    && OrderParam in s.params && s.params[OrderParam] == 1.0
  }

  /** A trailing break whatever surface it picks up. */
  predicate IsPickupBreak(s: Surface) {
    && DecenterXCell in s.solves
    && s.solves[DecenterXCell].Pickup?
    && IsTrailingBreak(s, s.solves[DecenterXCell].source)
  }

  lemma BreaksAreWellFormed(from: int)
    ensures IsLeadingBreak(LeadingBreak)
    ensures IsTrailingBreak(TrailingBreak(from), from)
    ensures IsPickupBreak(TrailingBreak(from))
  {
  }

  /** One step of the injection loop for the mirror at `index`: insert behind
      it, make that a fixed break, insert in front of it, make that a variable
      break, and link the two by pickups. */
  function InjectAt(lde: seq<Surface>, index: nat): (r: seq<Surface>)
    requires index < |lde|
    ensures r == lde[..index] + [LeadingBreak, lde[index], TrailingBreak(index)] + lde[index + 1..]
  {
    var s1 := InsertNewSurfaceAt(lde, index + 1);
    var s2 := CBify(s1, index + 1, false);
    var s3 := InsertNewSurfaceAt(s2, index);
    var s4 := CBify(s3, index, true);
    var r := CreatePickupsAndSetOrder(s4, index, index + 2);
    assert |r| == |lde| + 2;
    assert r[index] == LeadingBreak;
    assert r[index + 1] == lde[index];
    assert r[index + 2] == TrailingBreak(index);
    assert forall i :: 0 <= i < index ==> r[i] == lde[i];
    assert forall i :: index + 2 < i < |r| ==> r[i] == lde[i - 2];
    r
  }

  /** The reference result: original surface `j` becomes the three surfaces
      [leading break, mirror, trailing break picking up index `j`] when it is
      a mirror and stays alone otherwise. */
  function Piece(lde: seq<Surface>, j: nat): seq<Surface>
    requires j < |lde|
  {
    if IsMirror(lde[j]) then [LeadingBreak, lde[j], TrailingBreak(j)] else [lde[j]]
  }

  function BracketedFrom(lde: seq<Surface>, p: nat): seq<Surface>
    requires p <= |lde|
    decreases |lde| - p
  {
    if p == |lde| then [] else Piece(lde, p) + BracketedFrom(lde, p + 1)
  }

  function Bracketed(lde: seq<Surface>): seq<Surface> {
    BracketedFrom(lde, 0)
  }

  /** A run of non-mirrors is left as it is. */
  lemma {:induction false} BracketedSkipsPlainRun(lde: seq<Surface>, a: nat, p: nat)
    requires a <= p <= |lde|
    requires forall j :: a <= j < p ==> !IsMirror(lde[j])
    ensures BracketedFrom(lde, a) == lde[a..p] + BracketedFrom(lde, p)
    decreases p - a
  {
    if a < p {
      BracketedSkipsPlainRun(lde, a + 1, p);
      var rest := BracketedFrom(lde, p);
      assert Piece(lde, a) == [lde[a]];
      assert BracketedFrom(lde, a) == [lde[a]] + (lde[a + 1..p] + rest);
      assert lde[a..p] == [lde[a]] + lde[a + 1..p];
      ConcatAssoc([lde[a]], lde[a + 1..p], rest);
    } else {
      assert lde[a..p] == [];
    }
  }

  /** Processing the mirror at `m` on a state whose part from `p` on is
      already bracketed extends the bracketed part down to `m`. */
  lemma InjectStep(lde: seq<Surface>, t: seq<Surface>, m: nat, p: nat)
    requires m < p <= |lde|
    requires IsMirror(lde[m])
    requires forall j :: m < j < p ==> !IsMirror(lde[j])
    requires t == lde[..p] + BracketedFrom(lde, p)
    ensures m < |t|
    ensures InjectAt(t, m) == lde[..m] + BracketedFrom(lde, m)
  {
    var rest := BracketedFrom(lde, p);
    var head := lde[..p];
    BracketedSkipsPlainRun(lde, m + 1, p);
    assert t[..m] == head[..m] == lde[..m];
    assert t[m] == head[m] == lde[m];
    assert t[m + 1..] == head[m + 1..] + rest;
    assert head[m + 1..] == lde[m + 1..p];
    var piece := [LeadingBreak, lde[m], TrailingBreak(m)];
    assert BracketedFrom(lde, m) == piece + (lde[m + 1..p] + rest);
    assert InjectAt(t, m) == lde[..m] + piece + (lde[m + 1..p] + rest);
    ConcatAssoc(lde[..m], piece, lde[m + 1..p] + rest);
  }

  lemma ConcatAssoc(a: seq<Surface>, b: seq<Surface>, c: seq<Surface>)
    ensures a + b + c == a + (b + c)
  {
  }

  /** Successor of the `k`-th mirror in the mirror list, or the surface count. */
  function NextMirror(lde: seq<Surface>, k: nat): nat
    requires k < |ListMirrorPlanes(lde)|
  {
    var mList := ListMirrorPlanes(lde);
    if k + 1 == |mList| then |lde| else mList[k + 1]
  }

  /** No mirror lies strictly between two neighbouring entries of the mirror list. */
  lemma MirrorListGap(lde: seq<Surface>, k: nat)
    requires k < |ListMirrorPlanes(lde)|
    ensures ListMirrorPlanes(lde)[k] < NextMirror(lde, k) <= |lde|
    ensures forall j :: ListMirrorPlanes(lde)[k] < j < NextMirror(lde, k) ==> !IsMirror(lde[j])
  {
  }

  /** No mirror lies before the first entry of the mirror list. */
  lemma MirrorListHead(lde: seq<Surface>, p: nat)
    requires p == (if |ListMirrorPlanes(lde)| == 0 then |lde| else ListMirrorPlanes(lde)[0])
    ensures p <= |lde|
    ensures forall j :: 0 <= j < p ==> !IsMirror(lde[j])
  {
  }

  /** The injection loop: mirrors are processed from the highest index down,
      so every entry of the mirror list not yet processed still addresses
      its mirror. */
  method AddCoordinateBreaks(lde: seq<Surface>) returns (t: seq<Surface>)
    ensures t == Bracketed(lde)
    ensures |t| == |lde| + 2 * |ListMirrorPlanes(lde)|
  {
    var mList := ListMirrorPlanes(lde);
    t := lde;
    var k := |mList|;
    var p := |lde|;
    assert lde[..p] == lde;
    while k > 0
      invariant 0 <= k <= |mList|
      invariant p == (if k == |mList| then |lde| else mList[k])
      invariant p <= |lde|
      invariant t == lde[..p] + BracketedFrom(lde, p)
      invariant forall i :: 0 <= i < k ==> mList[i] < p
      invariant forall i :: 0 <= i < k ==> mList[i] < |t| && IsMirror(t[mList[i]])
    {
      k := k - 1;
      var index := mList[k];
      MirrorListGap(lde, k);
      InjectStep(lde, t, index, p);
      t := InjectAt(t, index);
      p := index;
      PendingEntriesAddressMirrors(lde, t, p, k);
    }
    MirrorListHead(lde, p);
    BracketedSkipsPlainRun(lde, 0, p);
    assert lde[0..p] == lde[..p];
    BracketedLength(lde, 0);
    ListMirrorPlanesCount(lde);
    assert lde[0..] == lde;
  }

  /** Entries of the mirror list below the processed part still address
      mirrors, since the editor below it is unchanged. */
  lemma PendingEntriesAddressMirrors(lde: seq<Surface>, t: seq<Surface>, p: nat, k: nat)
    requires p <= |lde| && t == lde[..p] + BracketedFrom(lde, p)
    requires k <= |ListMirrorPlanes(lde)|
    requires forall i :: 0 <= i < k ==> ListMirrorPlanes(lde)[i] < p
    ensures forall i :: 0 <= i < k ==> ListMirrorPlanes(lde)[i] < |t| && IsMirror(t[ListMirrorPlanes(lde)[i]])
  {
    var mList := ListMirrorPlanes(lde);
    forall i | 0 <= i < k
      ensures mList[i] < |t| && IsMirror(t[mList[i]])
    {
      assert t[mList[i]] == lde[..p][mList[i]] == lde[mList[i]];
    }
  }

  lemma {:induction false} BracketedLength(lde: seq<Surface>, p: nat)
    requires p <= |lde|
    ensures |BracketedFrom(lde, p)| == |lde| - p + 2 * CountMirrors(lde[p..])
    decreases |lde| - p
  {
    if p < |lde| {
      BracketedLength(lde, p + 1);
      assert lde[p..][1..] == lde[p + 1..];
    }
  }

  /** Where original surface `j` starts in the bracketed suffix from `p`. */
  function PieceStart(lde: seq<Surface>, p: nat, j: nat): nat
    requires p <= j <= |lde|
  {
    (j - p) + 2 * CountMirrors(lde[p..j])
  }

  /** Position of original surface `j` after injection. */
  function Shifted(lde: seq<Surface>, j: nat): nat
    requires j < |lde|
  {
    PieceStart(lde, 0, j) + (if IsMirror(lde[j]) then 1 else 0)
  }

  /** Every piece sits at its start offset inside the bracketed suffix. */
  lemma {:induction false} PieceAt(lde: seq<Surface>, p: nat, j: nat, o: nat)
    requires p <= j < |lde|
    requires o < |Piece(lde, j)|
    ensures PieceStart(lde, p, j) + o < |BracketedFrom(lde, p)|
    ensures BracketedFrom(lde, p)[PieceStart(lde, p, j) + o] == Piece(lde, j)[o]
    decreases j - p, 1
  {
    if j > p {
      PieceAtStep(lde, p, j, o);
    } else {
      assert lde[p..j] == [];
      BracketedFromSplit(lde, p, o);
    }
  }

  /** The inductive step of PieceAt: one piece more in front moves the
      position of piece `j` by the length of that piece. */
  lemma PieceAtStep(lde: seq<Surface>, p: nat, j: nat, o: nat)
    requires p < j < |lde|
    requires o < |Piece(lde, j)|
    ensures PieceStart(lde, p, j) + o < |BracketedFrom(lde, p)|
    ensures BracketedFrom(lde, p)[PieceStart(lde, p, j) + o] == Piece(lde, j)[o]
    decreases j - p, 0
  {
    PieceAt(lde, p + 1, j, o);
    PieceStartStep(lde, p, j);
    IndexAfterPrefix(BracketedFrom(lde, p), Piece(lde, p), BracketedFrom(lde, p + 1),
                     PieceStart(lde, p, j), PieceStart(lde, p + 1, j), o, Piece(lde, j)[o]);
  }

  /** An element at offset `s2 + o` of `b` sits at offset `|a| + s2 + o` of
      `a + b`. */
  lemma IndexAfterPrefix(ab: seq<Surface>, a: seq<Surface>, b: seq<Surface>, s: nat, s2: nat, o: nat, v: Surface)
    requires ab == a + b && s == |a| + s2
    requires s2 + o < |b| && b[s2 + o] == v
    ensures s + o < |ab| && ab[s + o] == v
  {
  }

  lemma PieceStartStep(lde: seq<Surface>, p: nat, j: nat)
    requires p < j <= |lde|
    ensures PieceStart(lde, p, j) == |Piece(lde, p)| + PieceStart(lde, p + 1, j)
  {
    assert lde[p..j][1..] == lde[p + 1..j];
    assert lde[p..j][0] == lde[p];
  }

  /** Indexing the bracketed suffix from `p`: the piece of `p` comes first,
      then the bracketed suffix from `p + 1`. */
  lemma BracketedFromSplit(lde: seq<Surface>, p: nat, x: nat)
    requires p < |lde|
    ensures |BracketedFrom(lde, p)| == |Piece(lde, p)| + |BracketedFrom(lde, p + 1)|
    ensures x < |Piece(lde, p)| ==> BracketedFrom(lde, p)[x] == Piece(lde, p)[x]
    ensures |Piece(lde, p)| <= x < |BracketedFrom(lde, p)| ==>
              BracketedFrom(lde, p)[x] == BracketedFrom(lde, p + 1)[x - |Piece(lde, p)|]
  {
  }

  /** After injection, original surface `j` is unchanged at its shifted
      position; an original mirror is preceded by a variable-tilt break and
      followed by a fixed break that picks up index `j`, the front break's
      index when the pair was created. */
  lemma OriginalSurfacePlacement(lde: seq<Surface>, j: nat)
    requires j < |lde|
    ensures Shifted(lde, j) < |Bracketed(lde)|
    ensures Bracketed(lde)[Shifted(lde, j)] == lde[j]
    ensures IsMirror(lde[j]) ==>
              && Shifted(lde, j) + 1 < |Bracketed(lde)|
              && IsLeadingBreak(Bracketed(lde)[Shifted(lde, j) - 1])
              && IsTrailingBreak(Bracketed(lde)[Shifted(lde, j) + 1], j)
  {
    if IsMirror(lde[j]) {
      PieceAt(lde, 0, j, 0);
      PieceAt(lde, 0, j, 1);
      PieceAt(lde, 0, j, 2);
      BreaksAreWellFormed(j);
    } else {
      PieceAt(lde, 0, j, 0);
    }
  }

  /** Shifted positions keep the original order. */
  lemma ShiftedMonotone(lde: seq<Surface>, i: nat, j: nat)
    requires i < j < |lde|
    ensures Shifted(lde, i) < Shifted(lde, j)
  {
    assert lde[..j] == lde[..i] + lde[i..j];
    CountMirrorsAppend(lde[..i], lde[i..j]);
    assert lde[i..j] == [lde[i]] + lde[i + 1..j];
    CountMirrorsAppend([lde[i]], lde[i + 1..j]);
    assert lde[0..i] == lde[..i];
    assert lde[0..j] == lde[..j];
  }

  /** Predicate on an editor state: every mirror has a variable-tilt break
      right before it and a fixed pickup break right after it. */
  predicate MirrorsBracketed(t: seq<Surface>) {
    forall i :: 0 <= i < |t| && IsMirror(t[i]) ==>
      0 < i < |t| - 1 && IsLeadingBreak(t[i - 1]) && IsPickupBreak(t[i + 1])
  }

  lemma {:induction false} BracketedFromIsBracketed(lde: seq<Surface>, p: nat)
    requires p <= |lde|
    ensures MirrorsBracketed(BracketedFrom(lde, p))
    decreases |lde| - p
  {
    if p < |lde| {
      BracketedFromIsBracketed(lde, p + 1);
      BreaksAreWellFormed(p);
      var piece := Piece(lde, p);
      assert MirrorsBracketed(piece) by {
        if IsMirror(lde[p]) {
          assert piece == [LeadingBreak, lde[p], TrailingBreak(p)];
        }
      }
      MirrorsBracketedConcat(piece, BracketedFrom(lde, p + 1));
    }
  }

  /** Bracketing survives concatenation: a bracketed mirror is never the
      first or last surface of its part. */
  lemma MirrorsBracketedConcat(a: seq<Surface>, b: seq<Surface>)
    requires MirrorsBracketed(a) && MirrorsBracketed(b)
    ensures MirrorsBracketed(a + b)
  {
    var t := a + b;
    forall i | 0 <= i < |t| && IsMirror(t[i])
      ensures 0 < i < |t| - 1 && IsLeadingBreak(t[i - 1]) && IsPickupBreak(t[i + 1])
    {
      if i < |a| {
        assert t[i] == a[i];
        assert t[i - 1] == a[i - 1] && t[i + 1] == a[i + 1];
      } else {
        assert t[i] == b[i - |a|];
        assert t[i - 1] == b[i - |a| - 1] && t[i + 1] == b[i - |a| + 1];
      }
    }
  }

  /** After injection, every mirror of the editor, old or new position, is
      bracketed by a variable break in front and a pickup break behind; so a
      mirror is never the first or the last surface. */
  lemma InjectionBracketsEveryMirror(lde: seq<Surface>)
    ensures MirrorsBracketed(Bracketed(lde))
  {
    BracketedFromIsBracketed(lde, 0);
  }

  /** The mirror surfaces, in order, as a subsequence of the editor. */
  function MirrorSurfaces(s: seq<Surface>): seq<Surface> {
    if s == [] then [] else (if IsMirror(s[0]) then [s[0]] else []) + MirrorSurfaces(s[1..])
  }

  /** The mirror subsequence of a non-empty editor: its first surface if
      that is a mirror, then the mirrors of the rest. */
  lemma MirrorSurfacesCons(s: seq<Surface>)
    requires s != []
    ensures MirrorSurfaces(s) == MirrorHead(s) + MirrorSurfaces(s[1..])
  {
  }

  function MirrorHead(s: seq<Surface>): seq<Surface>
    requires s != []
  {
    if IsMirror(s[0]) then [s[0]] else []
  }

  lemma {:induction false} MirrorSurfacesAppend(a: seq<Surface>, b: seq<Surface>)
    ensures MirrorSurfaces(a + b) == MirrorSurfaces(a) + MirrorSurfaces(b)
    decreases |a|
  {
    if a == [] {
      assert a + b == b;
    } else {
      var ab := a + b;
      var t := a[1..];
      assert ab[1..] == t + b;
      assert MirrorHead(ab) == MirrorHead(a) by {
        assert ab[0] == a[0];
      }
      MirrorSurfacesAppend(t, b);
      MirrorSurfacesCons(ab);
      MirrorSurfacesCons(a);
      var h, x, y := MirrorHead(a), MirrorSurfaces(t), MirrorSurfaces(b);
      assert h + (x + y) == (h + x) + y;
    }
  }

  /** Injection adds no mirror and loses none: the mirror surfaces, in
      their relative order, are exactly those of the original editor. */
  lemma {:induction false} InjectionKeepsMirrorOrder(lde: seq<Surface>, p: nat)
    requires p <= |lde|
    ensures MirrorSurfaces(BracketedFrom(lde, p)) == MirrorSurfaces(lde[p..])
    decreases |lde| - p
  {
    if p < |lde| {
      InjectionKeepsMirrorOrder(lde, p + 1);
      MirrorSurfacesAppend(Piece(lde, p), BracketedFrom(lde, p + 1));
      assert lde[p..][1..] == lde[p + 1..];
      if IsMirror(lde[p]) {
        var piece := Piece(lde, p);
        assert piece == [LeadingBreak] + ([lde[p]] + [TrailingBreak(p)]);
        MirrorSurfacesAppend([LeadingBreak], [lde[p]] + [TrailingBreak(p)]);
        MirrorSurfacesAppend([lde[p]], [TrailingBreak(p)]);
        assert [LeadingBreak][1..] == [];
        assert [TrailingBreak(p)][1..] == [];
        assert [lde[p]][1..] == [];
      } else {
        assert Piece(lde, p)[1..] == [];
      }
    }
  }

  /** The mirror count is unchanged by injection. */
  lemma InjectionKeepsMirrorCount(lde: seq<Surface>)
    ensures CountMirrors(Bracketed(lde)) == CountMirrors(lde)
    ensures |ListMirrorPlanes(Bracketed(lde))| == |ListMirrorPlanes(lde)|
  {
    InjectionKeepsMirrorOrder(lde, 0);
    assert lde[0..] == lde;
    MirrorSurfacesCount(Bracketed(lde));
    MirrorSurfacesCount(lde);
    ListMirrorPlanesCount(lde);
    ListMirrorPlanesCount(Bracketed(lde));
  }

  lemma {:induction false} MirrorSurfacesCount(s: seq<Surface>)
    ensures |MirrorSurfaces(s)| == CountMirrors(s)
    decreases |s|
  {
    if s != [] {
      MirrorSurfacesCount(s[1..]);
    }
  }
}
