/** Field-point pruning and the configuration loop of the MTF plotting
    script. Fields are numbered from 1 in the system's field list. */
module Fields {

  function Min(a: int, b: int): int {
    if a <= b then a else b
  }

  /** The engine's field removal: deletes the field numbered `n` (1-based)
      and renumbers the ones after it; a number outside 1 .. |fields| leaves
      the list as it is. */
  function RemoveField<T>(fields: seq<T>, n: int): (r: seq<T>)
    ensures 1 <= n <= |fields| ==> |r| == |fields| - 1
    ensures 1 <= n <= |fields| ==> forall i :: 0 <= i < |r| ==> r[i] == (if i < n - 1 then fields[i] else fields[i + 1])
    ensures !(1 <= n <= |fields|) ==> r == fields
  {
    if 1 <= n <= |fields| then fields[..n - 1] + fields[n..] else fields
  }

  /** Lowest and highest field number the pruning removes. */
  const FirstExtreme: nat := 6
  const LastExtreme: nat := 9

  /** Removes fields 9, 8, 7 and 6, in that order. Returns the pruned list
      and the fields removed, in removal order. Fields 1 to 5 and those past
      9 stay, in their order; every removal takes the field that carried
      that number in the original list. */
  method RemoveExtremeFields<T>(fields: seq<T>) returns (r: seq<T>, removed: seq<T>)
    ensures r == fields[..Min(FirstExtreme - 1, |fields|)] + fields[Min(LastExtreme, |fields|)..]
    ensures |fields| >= LastExtreme ==> |r| == |fields| - 4
    ensures forall i :: 0 <= i < Min(FirstExtreme - 1, |fields|) ==> r[i] == fields[i]
    ensures |fields| >= LastExtreme ==> forall i :: FirstExtreme - 1 <= i < |r| ==> r[i] == fields[i + 4]
    ensures |removed| == Min(LastExtreme, |fields|) - Min(FirstExtreme - 1, |fields|)
    ensures forall k :: 0 <= k < |removed| ==> removed[k] == fields[Min(LastExtreme, |fields|) - 1 - k]
  {
    var top := Min(LastExtreme, |fields|);
    r := fields;
    removed := [];
    var x := LastExtreme;
    while x > FirstExtreme - 1
      invariant FirstExtreme - 1 <= x <= LastExtreme
      invariant r == fields[..Min(x, |fields|)] + fields[top..]
      invariant |removed| == top - Min(x, |fields|)
      invariant forall k :: 0 <= k < |removed| ==> removed[k] == fields[top - 1 - k]
    {
      if 1 <= x <= |r| {
        removed := removed + [r[x - 1]];
        assert r[..x - 1] == fields[..x - 1];
      }
      r := RemoveField(r, x);
      x := x - 1;
    }
  }

  /** The same four removals in ascending order would not prune fields 6-9:
      after removing 6 the old field 7 is numbered 6, so removing 7 takes
      the old field 8, and the old field 7 survives as the sixth field. */
  lemma AscendingRemovalKeepsSeventh<T>(fields: seq<T>)
    requires |fields| >= LastExtreme
    ensures var r := RemoveField(RemoveField(RemoveField(RemoveField(fields, 6), 7), 8), 9);
            |r| >= 6 && r[5] == fields[6]
  {
    var r1 := RemoveField(fields, 6);
    var r2 := RemoveField(r1, 7);
    var r3 := RemoveField(r2, 8);
    var r4 := RemoveField(r3, 9);
    assert r1[5] == fields[6];
    assert r2[5] == fields[6];
    if 8 <= |r2| {
      assert r3[5] == fields[6];
    }
    if 9 <= |r3| {
      assert r4[5] == r3[5];
    }
  }

  /** The configurations the plotting loop selects, in order: for mc from 0
      to mcs - 1 it makes configuration mc + 1 current. */
  method ConfigurationsVisited(mcs: nat) returns (visited: seq<int>)
    ensures |visited| == mcs
    ensures forall i, j :: 0 <= i < j < |visited| ==> visited[i] < visited[j]
    ensures forall c :: c in visited <==> 1 <= c <= mcs
  {
    visited := [];
    var mc := 0;
    while mc < mcs
      invariant mc <= mcs
      invariant |visited| == mc
      invariant forall i :: 0 <= i < mc ==> visited[i] == i + 1
    {
      visited := visited + [mc + 1];
      mc := mc + 1;
    }
    forall c | 1 <= c <= mcs
      ensures c in visited
    {
      assert visited[c - 1] == c;
    }
  }
}
