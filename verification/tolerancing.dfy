/** The two scripts' steps in sequence: coordinate breaks are injected
    first, then the mirrors are listed again on the changed editor and the
    misalignment is synthesized from that list. The decenter for a listed
    surface goes to the row in front of it, which after injection is the
    variable-tilt break of that mirror. */
module Tolerancing {
  import opened Lens
  import opened Injection
  import opened Misalign

  /** The surfaces that get a decenter are listed surfaces other than the
      final one. */
  lemma {:induction false} DisplacedSurfacesMembers(list: seq<nat>, last: nat)
    ensures forall k :: 0 <= k < |DisplacedSurfaces(list, last)| ==>
              DisplacedSurfaces(list, last)[k] in list && DisplacedSurfaces(list, last)[k] != last
    decreases |list|
  {
    if list != [] {
      var n := |list| - 1;
      DisplacedSurfacesMembers(list[..n], last);
      var d := DisplacedSurfaces(list, last);
      var prev := DisplacedSurfaces(list[..n], last);
      forall k | 0 <= k < |d|
        ensures d[k] in list && d[k] != last
      {
        if k < |prev| {
          assert d[k] == prev[k];
          assert prev[k] in list[..n];
        } else {
          assert d[k] == list[n];
        }
      }
    }
  }

  /** On an editor with injected breaks, listing the mirrors again and
      synthesizing a misalignment writes every decenter to the variable-tilt
      break right in front of a mirror; every other surface, the mirrors
      included, is left exactly as it was. */
  lemma DecentersLandOnLeadingBreaks(lde: seq<Surface>, t: seq<Surface>, last: nat, stop: nat, draws: seq<real>)
    requires t == Bracketed(lde)
    requires last + 1 == |t|
    requires DrawCount(|ListMirrorPlanes(t)| + 1) <= |draws|
    ensures var writes := Displacements(Plan(ListMirrorPlanes(t) + [last], stop, last, draws));
            forall j :: 0 <= j < |writes| ==>
              1 <= writes[j].surface < |t| && IsMirror(t[writes[j].surface]) && IsLeadingBreak(t[writes[j].surface - 1])
    ensures var writes := Displacements(Plan(ListMirrorPlanes(t) + [last], stop, last, draws));
            forall i :: 0 <= i < |t| && !IsLeadingBreak(t[i]) ==> ApplyDisplacements(t, writes)[i] == t[i]
  {
    var mirrors := ListMirrorPlanes(t);
    var list := mirrors + [last];
    var plans := Plan(list, stop, last, draws);
    var writes := Displacements(plans);
    InjectionBracketsEveryMirror(lde);
    PlanFollowsList(list, stop, last, draws);
    DisplacementsFollowList(plans, list, stop, last);
    DisplacedSurfacesMembers(list, last);
    forall j | 0 <= j < |writes|
      ensures 1 <= writes[j].surface < |t| && IsMirror(t[writes[j].surface]) && IsLeadingBreak(t[writes[j].surface - 1])
    {
      var s := writes[j].surface;
      assert s == DisplacedSurfaces(list, last)[j];
      assert s in mirrors;
      var k :| 0 <= k < |mirrors| && mirrors[k] == s;
      assert IsMirror(t[s]);
    }
    forall i | 0 <= i < |t| && !IsLeadingBreak(t[i])
      ensures ApplyDisplacements(t, writes)[i] == t[i]
    {
      ApplyDisplacementsFrame(t, writes, i);
    }
  }
}
