/** `orbits`: the orbits of a permutation group partition its points. */
module PointOrbits {
  import opened Finite
  import opened Permutations

  // ----- orbits

  function OrbitOf(group: set<Perm>, point: nat): set<nat> {
    set g | g in group && point < |g| :: g[point]
  }

  lemma OrbitContains(n: nat, group: set<Perm>, x: nat)
    requires IsGroup(n, group) && x < n
    ensures x in OrbitOf(group, x)
    ensures forall y :: y in OrbitOf(group, x) ==> y < n
  {
    assert Identity(n)[x] == x;
  }

  /** Two orbits of a group are equal as soon as they meet. */
  lemma OrbitsAgree(n: nat, group: set<Perm>, x: nat, y: nat)
    requires IsGroup(n, group) && x < n && y in OrbitOf(group, x)
    ensures y < n && OrbitOf(group, y) == OrbitOf(group, x)
  {
    var a :| a in group && x < |a| && a[x] == y;
    assert y < n;
    hide Bijective;
    forall z ensures z in OrbitOf(group, y) <==> z in OrbitOf(group, x) {
      if z in OrbitOf(group, y) {
        var b :| b in group && y < |b| && b[y] == z;
        assert Compose(b, a) in group && Compose(b, a)[x] == z;
      }
      if z in OrbitOf(group, x) {
        var b :| b in group && x < |b| && b[x] == z;
        var c := Inverse(a);
        assert Compose(b, c) in group && Compose(b, c)[y] == z;
      }
    }
  }

  predicate Listed(x: nat, lists: seq<seq<nat>>) {
    exists i :: 0 <= i < |lists| && x in lists[i]
  }

  ghost predicate OrbitList(n: nat, group: set<Perm>, result: seq<seq<nat>>) {
    && (forall i :: 0 <= i < |result| ==>
         && result[i] != [] && result[i][0] < n && StrictlyIncreasing(result[i])
         && forall x :: x in result[i] <==> x in OrbitOf(group, result[i][0]))
    && forall i, j, x :: 0 <= i < j < |result| && x in result[i] ==> x !in result[j]
  }

  /** Every point lies in exactly one of the lists, and each list is a whole orbit. */
  ghost predicate OrbitPartition(n: nat, group: set<Perm>, result: seq<seq<nat>>) {
    OrbitList(n, group, result) && forall x: nat :: x < n ==> Listed(x, result)
  }

  /** Some element of the group carries `x` to `y`. */
  ghost predicate Carries(group: set<Perm>, x: nat, y: nat) {
    exists g :: g in group && x < |g| && g[x] == y
  }

  ghost predicate ListedTogether(x: nat, y: nat, lists: seq<seq<nat>>) {
    exists i :: 0 <= i < |lists| && x in lists[i] && y in lists[i]
  }

  /** Two points are listed together exactly when the group carries one to the other. */
  lemma TogetherWhenCarried(n: nat, group: set<Perm>, result: seq<seq<nat>>, x: nat, y: nat)
    requires IsGroup(n, group) && OrbitPartition(n, group, result) && x < n
    ensures ListedTogether(x, y, result) <==> Carries(group, x, y)
  {
    hide IsGroup;
    assert Listed(x, result);
    var i :| 0 <= i < |result| && x in result[i];
    OrbitsAgree(n, group, result[i][0], x);
    if y in OrbitOf(group, x) { assert y in result[i]; }
    if ListedTogether(x, y, result) {
      var j :| 0 <= j < |result| && x in result[j] && y in result[j];
      assert j == i;
    }
  }

  method Orbits(ghost n: nat, group: set<Perm>) returns (result: seq<seq<nat>>)
    requires IsGroup(n, group)
    ensures OrbitPartition(n, group, result)
  {
    var first :| first in group;
    var unseen: set<nat> := Below(|first|);
    BelowMembers(n);
    result := [];
    while unseen != {}
      invariant OrbitList(n, group, result)
      invariant forall x: nat :: x in unseen <==> x < n && !Listed(x, result)
      decreases |unseen|
    {
      var point := MinOf(unseen);
      var orbit := OrbitOf(group, point);
      NextOrbit(n, group, result, point);
      ghost var left := unseen;
      result := result + [Ascending(orbit)];
      unseen := unseen - orbit;
      SubsetSize(unseen, left);
      OrbitContains(n, group, point);
    }
  }

  lemma OrbitListAppend(n: nat, group: set<Perm>, result: seq<seq<nat>>, last: seq<nat>)
    requires OrbitList(n, group, result)
    requires last != [] && last[0] < n && StrictlyIncreasing(last)
    requires forall x :: x in last <==> x in OrbitOf(group, last[0])
    requires forall i, x :: 0 <= i < |result| && x in result[i] ==> x !in last
    ensures OrbitList(n, group, result + [last])
  {
    hide OrbitOf, StrictlyIncreasing;
  }

  lemma NextOrbit(n: nat, group: set<Perm>, result: seq<seq<nat>>, point: nat)
    requires IsGroup(n, group) && OrbitList(n, group, result)
    requires point < n && !Listed(point, result)
    ensures OrbitList(n, group, result + [Ascending(OrbitOf(group, point))])
    ensures forall x: nat ::
      Listed(x, result + [Ascending(OrbitOf(group, point))]) <==> Listed(x, result) || x in OrbitOf(group, point)
  {
    hide IsGroup, OrbitOf, Listed;
    var orbit := OrbitOf(group, point);
    OrbitContains(n, group, point);
    forall i, x | 0 <= i < |result| && x in result[i] ensures x !in orbit {
      if x in orbit { MeetsListed(n, group, result, i, point, x); }
    }
    assert point in Ascending(orbit);
    OrbitsAgree(n, group, point, Ascending(orbit)[0]);
    OrbitListAppend(n, group, result, Ascending(orbit));
    hide OrbitList;
    forall x: nat ensures Listed(x, result + [Ascending(orbit)]) <==> Listed(x, result) || x in orbit {
      ListedAppend(x, result, Ascending(orbit));
    }
  }

  lemma ListedAppend(x: nat, lists: seq<seq<nat>>, last: seq<nat>)
    ensures Listed(x, lists + [last]) <==> Listed(x, lists) || x in last
  {
    if Listed(x, lists) {
      var i :| 0 <= i < |lists| && x in lists[i];
      assert x in (lists + [last])[i];
    }
    if x in last { assert x in (lists + [last])[|lists|]; }
  }

  /** A point whose orbit meets a listed orbit is listed. */
  lemma MeetsListed(n: nat, group: set<Perm>, result: seq<seq<nat>>, i: nat, point: nat, x: nat)
    requires IsGroup(n, group) && OrbitList(n, group, result)
    requires point < n && i < |result| && x in result[i] && x in OrbitOf(group, point)
    ensures Listed(point, result)
  {
    OrbitContains(n, group, point);
    OrbitsAgree(n, group, point, x);
    OrbitsAgree(n, group, result[i][0], x);
  }
}
