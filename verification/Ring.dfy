/**
 The hash ring. A ring maps the id of every label to its point on the circle of 32-bit
 values; the owner of a point is the label met first when walking clockwise from it.
 */
module Ring {
  import opened Hashing
  import opened Wrappers
  import opened Sequences

  type Points = map<UInt32, UInt32>

  /** The three labels of a physical server agree on this number. */
  function Physical(id: UInt32): UInt32 {
    id % 100000
  }

  lemma PhysicalIsSmall(id: UInt32)
    ensures Physical(id) < 100000 && Physical(Physical(id)) == Physical(id)
  {
  }

  /** Clockwise distance on the circle: `(to - from) mod 2^32`. */
  function Distance(from: UInt32, to: UInt32): UInt32 {
    if from <= to then to - from else to - from + 0x1_0000_0000
  }

  lemma DistanceIsModular(from: UInt32, to: UInt32)
    ensures Distance(from, to) == (to - from) % 0x1_0000_0000
  {
  }

  ghost predicate Injective(ring: Points) {
    forall l, m :: l in ring && m in ring && ring[l] == ring[m] ==> l == m
  }

  ghost predicate Closest(ring: Points, h: UInt32, l: UInt32) {
    && l in ring
    && forall m :: m in ring ==> Distance(h, ring[l]) <= Distance(h, ring[m])
  }

  /** The label that serves a point. */
  ghost function Owner(ring: Points, h: UInt32): (l: UInt32)
    requires ring != map[]
    ensures Closest(ring, h, l)
  {
    ClosestExists(ring, h);
    var l :| Closest(ring, h, l);
    l
  }

  lemma {:induction false} ClosestExists(ring: Points, h: UInt32)
    requires ring != map[]
    ensures exists l :: Closest(ring, h, l)
    decreases |ring|
  {
    var l :| l in ring;
    var rest := ring - {l};
    if rest == map[] {
      assert ring.Keys == {l} + rest.Keys;
      assert Closest(ring, h, l);
    } else {
      assert |rest.Keys| < |ring.Keys|;
      ClosestExists(rest, h);
      var m :| Closest(rest, h, m);
      assert Closest(ring, h, if Distance(h, ring[l]) <= Distance(h, ring[m]) then l else m);
    }
  }

  lemma OwnerUnique(ring: Points, h: UInt32, l: UInt32)
    requires Injective(ring) && Closest(ring, h, l)
    ensures l == Owner(ring, h)
  {
  }

  /** A label owns its own point. */
  lemma OwnerOfOwnPoint(ring: Points, l: UInt32)
    requires Injective(ring) && l in ring
    ensures Owner(ring, ring[l]) == l
  {
  }

  /** The next label clockwise from a label; the label itself when it is alone. */
  ghost function Successor(ring: Points, l: UInt32): (s: UInt32)
    requires l in ring
    ensures s in ring
  {
    if ring - {l} == map[] then l else Owner(ring - {l}, ring[l])
  }

  /** Inserting label d at point p takes over exactly the points that are nearer to p. */
  lemma OwnerAfterInsert(ring: Points, d: UInt32, p: UInt32, h: UInt32)
    requires ring != map[] && d !in ring && Injective(ring[d := p])
    ensures Owner(ring[d := p], h)
         == if Distance(h, p) < Distance(h, ring[Owner(ring, h)]) then d else Owner(ring, h)
    ensures Owner(ring[d := p], h) == d ==> Owner(ring, h) == Owner(ring, p)
    ensures Successor(ring[d := p], d) == Owner(ring, p)
  {
    var o := Owner(ring, h);
    var after := ring[d := p];
    assert Injective(ring) by {
      assert forall l :: l in ring ==> ring[l] == after[l];
    }
    OwnerUnique(after, h, if Distance(h, p) < Distance(h, ring[o]) then d else o);
    if Distance(h, p) < Distance(h, ring[o]) {
      forall m | m in ring
        ensures Distance(p, ring[o]) <= Distance(p, ring[m])
      {
        assert Distance(h, ring[o]) <= Distance(h, ring[m]);
      }
      OwnerUnique(ring, p, o);
    }
    assert after - {d} == ring;
  }

  /** A new label either leaves the successor of a label alone, or comes between the two. */
  lemma SuccessorAfterInsert(ring: Points, d: UInt32, p: UInt32, u: UInt32)
    requires u in ring && d !in ring && Injective(ring[d := p])
    ensures var after := ring[d := p];
            && (Successor(after, u) == d ==> Successor(after, d) == Successor(ring, u))
            && (Successor(after, u) != d ==> Successor(after, u) == Successor(ring, u))
  {
    var after, rest := ring[d := p], ring - {u};
    assert Injective(ring) by {
      assert forall l :: l in ring ==> ring[l] == after[l];
    }
    assert after - {u} == rest[d := p] && after - {d} == ring;
    if rest == map[] {
      SuccessorBesideOne(ring, d, p, u);
    } else {
      OwnerAfterInsert(rest, d, p, ring[u]);
      if Owner(rest[d := p], ring[u]) == d {
        Between(ring, u, Owner(rest, ring[u]), p);
      }
    }
  }

  lemma SuccessorBesideOne(ring: Points, d: UInt32, p: UInt32, u: UInt32)
    requires u in ring && d !in ring && ring - {u} == map[]
    ensures var after := ring[d := p]; Successor(after, u) == d && Successor(after, d) == u
  {
    var after := ring[d := p];
    assert forall l :: l in ring ==> l == u || l in ring - {u};
    assert forall l :: l in after - {u} ==> l == d;
    assert forall l :: l in after - {d} ==> l == u;
    assert d in after - {u} && u in after - {d};
  }

  /** Between a label and its successor, the successor is the owner. */
  lemma Between(ring: Points, u: UInt32, s: UInt32, p: UInt32)
    requires Injective(ring) && u in ring && ring[u] != p && Closest(ring - {u}, ring[u], s)
    requires Distance(ring[u], p) < Distance(ring[u], ring[s])
    ensures Owner(ring, p) == s
  {
    forall m | m in ring
      ensures Distance(p, ring[s]) <= Distance(p, ring[m])
    {
      assert m != u ==> m in ring - {u};
    }
    OwnerUnique(ring, p, s);
  }

  /** Different labels have different successors. */
  lemma SuccessorInjective(ring: Points, u: UInt32, v: UInt32)
    requires u in ring && v in ring && u != v && Injective(ring)
    ensures Successor(ring, u) != Successor(ring, v)
  {
    assert v in ring - {u} && u in ring - {v};
    assert ring[u] != ring[v];
  }

  /** A document on the point of the new label is not moved to it. */
  lemma OwnPointStays(src: UInt32, dest: UInt32)
    ensures !ShouldMove(src, dest, dest)
  {
  }

  /** The interval test of the transfer functions: three comparisons, all strict at both ends of interest. */
  predicate ShouldMove(src: UInt32, name: UInt32, dest: UInt32) {
    || (src < name && name < dest)
    || (src < name && dest < src)
    || (name < dest && dest <= src)
  }

  /** Exact form of the interval test, tie included: of the points that src served, those that move
      are the ones that dest serves now, except the point of dest itself. */
  lemma IntervalTestIsExact(ring: Points, d: UInt32, p: UInt32, h: UInt32)
    requires ring != map[] && d !in ring && Injective(ring[d := p])
    requires Owner(ring, h) == Owner(ring, p)
    ensures ShouldMove(ring[Owner(ring, p)], h, p) <==> Owner(ring[d := p], h) == d && h != p
  {
    OwnerAfterInsert(ring, d, p, h);
    var src := Owner(ring, p);
    assert ring[src] != p by {
      assert ring[d := p][src] == ring[src];
    }
  }

  /** One step of the cascade in pick_src: does the candidate replace the best so far? */
  predicate BeatsAsSource(name: UInt32, candidate: UInt32, best: UInt32) {
    || (name < candidate && candidate < best)
    || (name < candidate && best < name)
    || (name > best && candidate < best)
  }

  /** One step of the cascade in pick_dest. */
  predicate BeatsAsDestination(name: UInt32, candidate: UInt32, best: UInt32) {
    || (name < candidate && candidate <= best)
    || (name < candidate && best < name)
    || (name > best && candidate < best)
  }

  /** Index that pick_src chooses among the given points. */
  function PickSource(name: UInt32, points: seq<UInt32>): (k: nat)
    requires |points| > 0
    ensures k < |points|
  {
    var last := |points| - 1;
    if last == 0 then 0 else
    var k := PickSource(name, points[..last]);
    if BeatsAsSource(name, points[last], points[k]) then last else k
  }

  ghost predicate Nearest(name: UInt32, points: seq<UInt32>, k: nat) {
    && k < |points|
    && forall j :: 0 <= j < |points| ==> Distance(name, points[k]) <= Distance(name, points[j])
  }

  /** One step of either cascade prefers the nearer point, but never one that ties with the name. */
  lemma CascadeStep(name: UInt32, candidate: UInt32, best: UInt32)
    ensures BeatsAsSource(name, candidate, best)
       <==> candidate != name && Distance(name, candidate) < Distance(name, best)
    ensures candidate != best ==> (BeatsAsDestination(name, candidate, best)
       <==> candidate != name && Distance(name, candidate) < Distance(name, best))
  {
  }

  /** Whatever the ties, pick_src returns the nearest point, not counting ties after the first point. */
  lemma {:induction false} PickSourceSkipsTies(name: UInt32, points: seq<UInt32>, j: nat)
    requires j < |points| && (j == 0 || points[j] != name)
    ensures var k := PickSource(name, points);
            && (k == 0 || points[k] != name)
            && Distance(name, points[k]) <= Distance(name, points[j])
  {
    hide BeatsAsSource, Distance;
    var last := |points| - 1;
    if last > 0 {
      var k := PickSource(name, points[..last]);
      CascadeStep(name, points[last], points[k]);
      PickSourceSkipsTies(name, points[..last], if j < last then j else 0);
    }
  }

  /** pick_src is right exactly when the name does not tie with a point after the first. */
  lemma {:induction false} PickSourceIsNearest(name: UInt32, points: seq<UInt32>)
    requires |points| > 0 && Distinct(points)
    ensures Nearest(name, points, PickSource(name, points)) <==> name !in points[1..]
  {
    var k := PickSource(name, points);
    PickSourceSkipsTies(name, points, 0);
    if name in points[1..] {
      var j :| 1 <= j < |points| && points[j] == name;
      assert Distance(name, points[j]) == 0 && points[k] != name;
    } else {
      forall j | 0 <= j < |points|
        ensures Distance(name, points[k]) <= Distance(name, points[j])
      {
        assert j > 0 ==> points[j] == points[1..][j - 1];
        PickSourceSkipsTies(name, points, j);
      }
    }
  }

  /** Index that pick_dest chooses among the eligible points, if there is any. */
  function PickDestination(name: UInt32, points: seq<UInt32>, eligible: seq<bool>): (k: Option<nat>)
    requires |points| == |eligible|
    ensures k.Some? ==> k.value < |points| && eligible[k.value]
    ensures k.None? <==> true !in eligible
  {
    if |points| == 0 then None else
    var last := |points| - 1;
    assert eligible == eligible[..last] + [eligible[last]];
    var k := PickDestination(name, points[..last], eligible[..last]);
    if !eligible[last] then k
    else if k.None? || BeatsAsDestination(name, points[last], points[k.value]) then Some(last)
    else k
  }

  ghost predicate NearestEligible(name: UInt32, points: seq<UInt32>, eligible: seq<bool>, k: nat)
    requires |points| == |eligible|
  {
    && k < |points| && eligible[k]
    && forall j :: 0 <= j < |points| && eligible[j] ==> Distance(name, points[k]) <= Distance(name, points[j])
  }

  function FirstEligible(eligible: seq<bool>): (k: nat)
    requires true in eligible
    ensures k < |eligible| && eligible[k] && true !in eligible[..k]
  {
    var last := |eligible| - 1;
    assert eligible == eligible[..last] + [eligible[last]];
    if true in eligible[..last] then
      var k := FirstEligible(eligible[..last]);
      assert eligible[..k] == eligible[..last][..k];
      k
    else last
  }

  /** Whatever the ties, pick_dest returns the nearest eligible point, not counting ties after the first
      eligible point. */
  lemma {:induction false} PickDestinationSkipsTies(name: UInt32, points: seq<UInt32>, eligible: seq<bool>, j: nat)
    requires |points| == |eligible| && j < |points| && eligible[j]
    requires points[j] != name || j == FirstEligible(eligible)
    ensures var k := PickDestination(name, points, eligible).value;
            && (points[k] != name || points[FirstEligible(eligible)] == name)
            && Distance(name, points[k]) <= Distance(name, points[j])
  {
    var last := |points| - 1;
    var init := eligible[..last];
    assert eligible == init + [eligible[last]];
    assert FirstEligible(eligible) == if true in init then FirstEligible(init) else last;
    hide FirstEligible, BeatsAsDestination, Distance;
    if true in init {
      var f, k := FirstEligible(init), PickDestination(name, points[..last], init).value;
      CascadeStep(name, points[last], points[k]);
      assert PickDestination(name, points, eligible).value
          == if eligible[last] && BeatsAsDestination(name, points[last], points[k]) then last else k;
      hide PickDestination;
      PickDestinationSkipsTies(name, points[..last], init, if j < last then j else f);
      assert points[..last][f] == points[f] && points[..last][k] == points[k];
    }
  }

  /** The nearest eligible point, not counting ties with the name unless the first eligible point ties. */
  ghost predicate ChosenDestination(name: UInt32, points: seq<UInt32>, eligible: seq<bool>, k: nat)
    requires |points| == |eligible| && true in eligible
  {
    && k < |points| && eligible[k] && (points[k] != name || points[FirstEligible(eligible)] == name)
    && forall j :: 0 <= j < |points| && eligible[j] && (points[j] != name || j == FirstEligible(eligible)) ==>
         Distance(name, points[k]) <= Distance(name, points[j])
  }

  lemma PickDestinationIsChosen(name: UInt32, points: seq<UInt32>, eligible: seq<bool>)
    requires |points| == |eligible| && true in eligible
    ensures ChosenDestination(name, points, eligible, PickDestination(name, points, eligible).value)
  {
    hide Distance, PickDestination;
    PickDestinationSkipsTies(name, points, eligible, FirstEligible(eligible));
    forall j | 0 <= j < |points| && eligible[j] && (points[j] != name || j == FirstEligible(eligible))
      ensures Distance(name, points[PickDestination(name, points, eligible).value]) <= Distance(name, points[j])
    {
      PickDestinationSkipsTies(name, points, eligible, j);
    }
  }

  /** All that can be chosen are at the same point. */
  lemma ChosenIsUnique(name: UInt32, points: seq<UInt32>, eligible: seq<bool>, k: nat, k': nat)
    requires |points| == |eligible| && true in eligible
    requires ChosenDestination(name, points, eligible, k) && ChosenDestination(name, points, eligible, k')
    ensures points[k] == points[k']
  {
    hide FirstEligible;
  }

  /** pick_dest is right exactly when the name ties with no eligible point, or with the first one. */
  lemma {:induction false} PickDestinationIsNearest(name: UInt32, points: seq<UInt32>, eligible: seq<bool>)
    requires |points| == |eligible| && true in eligible
    ensures NearestEligible(name, points, eligible, PickDestination(name, points, eligible).value)
       <==> (points[FirstEligible(eligible)] == name
             || forall j :: 0 <= j < |points| && eligible[j] ==> points[j] != name)
  {
    var f, k := FirstEligible(eligible), PickDestination(name, points, eligible).value;
    PickDestinationSkipsTies(name, points, eligible, f);
    if points[f] != name {
      if j :| 0 <= j < |points| && eligible[j] && points[j] == name {
        assert Distance(name, points[j]) == 0;
      } else {
        forall j | 0 <= j < |points| && eligible[j]
          ensures Distance(name, points[k]) <= Distance(name, points[j])
        {
          PickDestinationSkipsTies(name, points, eligible, j);
        }
      }
    }
  }

  /** The array of labels holds exactly the labels of the ring, in the order of their points. */
  ghost predicate Sorted(ids: seq<UInt32>, ring: Points) {
    && (forall l :: l in ring <==> l in ids)
    && (forall i, j :: 0 <= i < j < |ids| ==> ring[ids[i]] < ring[ids[j]])
  }

  lemma SortedIsInjective(ids: seq<UInt32>, ring: Points)
    requires Sorted(ids, ring)
    ensures Injective(ring)
    ensures forall i, j :: 0 <= i < j < |ids| ==> ids[i] != ids[j]
  {
  }

  /** What the lookup returns, first label at or after the point and else the first of all, is the owner. */
  lemma {:induction false} FirstAtLeastIsOwner(ids: seq<UInt32>, ring: Points, h: UInt32, k: nat)
    requires Sorted(ids, ring) && k < |ids|
    requires forall i :: 0 <= i < k ==> ring[ids[i]] < h
    requires ring[ids[k]] >= h || (k == 0 && forall i :: 0 <= i < |ids| ==> ring[ids[i]] < h)
    ensures ring != map[] && ids[k] == Owner(ring, h)
  {
    SortedIsInjective(ids, ring);
    forall m | m in ring
      ensures Distance(h, ring[ids[k]]) <= Distance(h, ring[m])
    {
      var i :| 0 <= i < |ids| && ids[i] == m;
    }
    OwnerUnique(ring, h, ids[k]);
  }

  /** Stepping to the next array index, modulo the size, steps to the next label on the ring. */
  lemma NextIsSuccessor(ids: seq<UInt32>, ring: Points, i: nat)
    requires Sorted(ids, ring) && i < |ids|
    ensures ids[i] in ring && ids[if i + 1 == |ids| then 0 else i + 1] == Successor(ring, ids[i])
  {
    SortedIsInjective(ids, ring);
    var rest := ring - {ids[i]};
    if |ids| == 1 {
      assert rest == map[];
    } else {
      var next := ids[if i + 1 == |ids| then 0 else i + 1];
      forall m | m in rest
        ensures Distance(ring[ids[i]], ring[next]) <= Distance(ring[ids[i]], ring[m])
      {
        var j :| 0 <= j < |ids| && ids[j] == m;
      }
      assert next in rest;
      OwnerUnique(rest, ring[ids[i]], next);
    }
  }

  /** Inserting a label before the first point that is not smaller keeps the array sorted. */
  lemma InsertKeepsSorted(ids: seq<UInt32>, ring: Points, l: UInt32, point: UInt32, k: nat)
    requires Sorted(ids, ring) && l !in ring && k <= |ids|
    requires forall i :: 0 <= i < k ==> ring[ids[i]] < point
    requires forall i :: k <= i < |ids| ==> ring[ids[i]] > point
    ensures Sorted(Inserted(ids, k, l), ring[l := point])
  {
  }

  lemma EraseKeepsSorted(ids: seq<UInt32>, ring: Points, k: nat)
    requires Sorted(ids, ring) && k < |ids|
    ensures Sorted(Erased(ids, k), ring - {ids[k]})
  {
  }

  ghost predicate Farthest(ring: Points, h: UInt32, s: set<UInt32>, l: UInt32)
    requires s <= ring.Keys
  {
    && l in s
    && forall m :: m in s ==> Distance(h, ring[m]) <= Distance(h, ring[l])
  }

  lemma {:induction false} FarthestExists(ring: Points, h: UInt32, s: set<UInt32>)
    requires s != {} && s <= ring.Keys
    ensures exists l :: Farthest(ring, h, s, l)
  {
    hide Distance;
    var l :| l in s;
    var rest := s - {l};
    if rest == {} {
      assert s == {l};
      assert Farthest(ring, h, s, l);
    } else {
      FarthestExists(ring, h, rest);
      var m :| Farthest(ring, h, rest, m);
      assert Farthest(ring, h, s, if Distance(h, ring[l]) <= Distance(h, ring[m]) then m else l);
    }
  }

  /** Walking from h, l comes before o and m does not come strictly between them. */
  lemma NotBetween(h: UInt32, l: UInt32, o: UInt32, m: UInt32)
    requires Distance(h, l) < Distance(h, o)
    requires Distance(h, o) <= Distance(h, m) || Distance(h, m) < Distance(h, l)
    ensures Distance(l, o) <= Distance(l, m)
  {
  }

  /** When some labels go away, a point that one of them served is taken over by a label that
      directly follows one of them. */
  lemma HeirFollowsARemovedLabel(ring: Points, gone: set<UInt32>, h: UInt32)
    requires Injective(ring) && gone <= ring.Keys && ring - gone != map[]
    requires Owner(ring, h) in gone
    ensures exists l :: l in gone && Successor(ring, l) == Owner(ring - gone, h)
  {
    var heir := Owner(ring - gone, h);
    forall l, m | l in ring && m in ring && l != m
      ensures Distance(h, ring[l]) != Distance(h, ring[m])
    {
      assert ring[l] != ring[m];
    }
    hide Distance;
    var before := set l | l in gone && Distance(h, ring[l]) < Distance(h, ring[heir]);
    assert Owner(ring, h) in before;
    FarthestExists(ring, h, before);
    var l :| Farthest(ring, h, before, l);
    forall m | m in ring - {l}
      ensures Distance(ring[l], ring[heir]) <= Distance(ring[l], ring[m])
    {
      assert m in before || m in gone || m in ring - gone;
      NotBetween(h, ring[l], ring[heir], ring[m]);
    }
    OwnerUnique(ring - {l}, ring[l], heir);
  }

  /** A point whose owner stays is not affected by a removal. */
  lemma OwnerSurvives(ring: Points, gone: set<UInt32>, h: UInt32)
    requires Injective(ring) && ring != map[] && Owner(ring, h) !in gone
    ensures ring - gone != map[] && Owner(ring - gone, h) == Owner(ring, h)
  {
    assert Owner(ring, h) in ring - gone;
    OwnerUnique(ring - gone, h, Owner(ring, h));
  }
}
