/**
 What follows from the refinement: placement is canonical, what adding a server and removing it again
 restores, and how long caches and databases stay sound.
 */
module Consequences {
  import opened Hashing
  import opened Wrappers
  import opened Ring
  import opened ServerModel
  import opened Migration
  import opened SystemModel
  import opened SystemRuns
  import opened Seats
  import opened Refinement

  /** Where documents are kept depends only on which servers are there and on what was edited, not on how
      the servers came and went. */
  lemma PlacementIsCanonical(vnodes: bool, ops: seq<Op>, ops': seq<Op>)
    requires WellFormed(ops) && NoneStranded(vnodes, ops) && Run(vnodes, ops).Running?
    requires WellFormed(ops') && NoneStranded(vnodes, ops') && Run(vnodes, ops').Running?
    requires Alive(ops) == Alive(ops') && Reference(ops) == Reference(ops')
    ensures var s, t := Run(vnodes, ops).state, Run(vnodes, ops').state;
            && s.servers.Keys == t.servers.Keys
            && forall p :: p in s.servers ==> Effective(s.servers[p]) == Effective(t.servers[p])
  {
    RunPlaces(vnodes, ops);
    RunPlaces(vnodes, ops');
    ReadyRing(Run(vnodes, ops).state);
    ReadyRing(Run(vnodes, ops').state);
    hide Owned, Effective, Coherent, Ready, Run, WellFormed, NoneStranded, Alive, Reference, RingOf;
  }

  // Adding a server, and removing it again.

  lemma OldLabelsStay(s: State, t: State, id: UInt32)
    requires Ready(s) && Ready(t) && t.vnodes == s.vnodes && t.servers.Keys == s.servers.Keys + {id}
    requires id !in s.servers
    ensures forall l :: l in s.ring <==> l in t.ring && Physical(l) != id
    ensures forall l :: l in s.ring ==> s.ring[l] == t.ring[l]
  {
    ReadyRing(s);
    ReadyRing(t);
    ServersAreSmall(t);
    RingMembers(t.vnodes, s.servers.Keys);
    RingMembers(t.vnodes, t.servers.Keys);
    hide HashUint, Physical, Injective, LabelsOf, Ready, RingOf;
  }

  lemma OldRingStays(s: State, t: State, id: UInt32)
    requires Ready(s) && Ready(t) && t.vnodes == s.vnodes && t.servers.Keys == s.servers.Keys + {id}
    requires id !in s.servers
    ensures s.ring == t.ring - LabelsOf(t.vnodes, id)
  {
    OldLabelsStay(s, t, id);
    OthersOnRing(t, id);
    hide Physical, LabelsOf, Ready;
  }

  lemma ServersAreSmall(s: State)
    requires Ready(s)
    ensures forall p :: p in s.servers ==> p < 100000
  {
  }

  /** A document that does not sit on the new server sits where it was before. */
  lemma SeatBefore(s: State, t: State, id: UInt32, name: CString)
    requires Ready(s) && Ready(t) && t.vnodes == s.vnodes && t.servers.Keys == s.servers.Keys + {id}
    requires id !in s.servers && s.ring != map[] && t.ring != map[] && Seat(t.ring, id, HashString(name)) != id
    ensures Seat(t.ring, id, HashString(name)) == HomeOf(s.ring, name)
  {
    OldLabelsStay(s, t, id);
    hide HashUint, HashString, Distance, Physical, LabelsOf, CarriedOff;
    var h := HashString(name);
    var l := Owner(t.ring, h);
    var u := if Physical(l) == id then Successor(t.ring, l) else l;
    assert Physical(u) != id;
    assert Closest(s.ring, h, u) by {
      forall x | x in s.ring
        ensures Distance(h, s.ring[u]) <= Distance(h, s.ring[x])
      {
        assert Physical(l) == id ==> x in t.ring - {l};
      }
    }
    OwnerUnique(s.ring, h, u);
  }

  /** Adding a server moves documents to the new server only, stranded or not: no other server gains one. */
  lemma AddOnlyFillsTheNewServer(s: State, m: Documents, id: UInt32, cap: nat, p: UInt32)
    requires Ready(s) && Placed(s, m) && id < 100000 && id !in s.servers && cap > 0 && p in s.servers
    ensures var t := AddServerLabels(s, id, cap).0;
            Effective(t.servers[p]).Items <= Effective(s.servers[p]).Items
  {
    AddServerSpreads(s, m, id, cap);
    EmptyTogether(s);
    var t := AddServerLabels(s, id, cap).0;
    hide HashString, Seat, HomeOf, AddServerLabels, Effective, Ready, Coherent;
    forall n | n in Seated(m, t.ring, id, p)
      ensures n in Owned(m, s.ring, p)
    {
      SeatBefore(s, t, id, n);
    }
  }

  /** On its way back from server id, a document that was carried off from the point of label t goes astray:
      the follower that pick_dest chooses belongs to another server than t. */
  ghost predicate Misdirected(s: State, id: UInt32, t: UInt32)
    requires Shape(s, {}) && id in s.servers && t in s.ring && HasLabels(s.ring, s.vnodes, id)
  {
    var f := Followers(s, id);
    && CarriedOff(s.ring, id, t) && true in Foreign(f, id)
    && exists k: nat :: ChosenDestination(s.ring[t], PointsOf(s.ring, f), Foreign(f, id), k)
                        && Physical(f[k]) != Physical(t)
  }

  /** The follower that pick_dest chooses for a point. */
  ghost function Chosen(s: State, id: UInt32, h: UInt32): UInt32
    requires HasLabels(s.ring, s.vnodes, id) && true in Foreign(Followers(s, id), id)
  {
    var f := Followers(s, id);
    f[PickDestination(h, PointsOf(s.ring, f), Foreign(f, id)).value]
  }

  lemma ChosenFollower(s: State, id: UInt32, t: UInt32)
    requires Shape(s, {}) && id in s.servers && t in s.ring && HasLabels(s.ring, s.vnodes, id)
    requires CarriedOff(s.ring, id, t) && true in Foreign(Followers(s, id), id)
    ensures Misdirected(s, id, t) <==> Physical(Chosen(s, id, s.ring[t])) != Physical(t)
  {
    hide PickDestination, ChosenDestination, Physical, CarriedOff;
    var f := Followers(s, id);
    var h, points, foreign := s.ring[t], PointsOf(s.ring, f), Foreign(f, id);
    var k := PickDestination(h, points, foreign).value;
    PickDestinationIsChosen(h, points, foreign);
    assert Injective(s.ring);
    hide Shape, Followers;
    forall j: nat | ChosenDestination(h, points, foreign, j)
      ensures j < |f| && f[j] == f[k]
    {
      ChosenInRange(h, points, foreign, j);
      ChosenIsUnique(h, points, foreign, j, k);
      assert points[j] == s.ring[f[j]] && points[k] == s.ring[f[k]];
    }
  }

  lemma ChosenInRange(name: UInt32, points: seq<UInt32>, eligible: seq<bool>, k: nat)
    requires |points| == |eligible| && true in eligible && ChosenDestination(name, points, eligible, k)
    ensures k < |points|
  {
  }

  /** Without virtual nodes nothing is carried off. */
  lemma NothingCarriedOff(ring: Points, id: UInt32, t: UInt32)
    requires Labelled(false, ring) && t in ring
    ensures !CarriedOff(ring, id, t)
  {
    hide Distance;
  }

  /** Where a document is after server id has been added and removed again. */
  ghost function SeatAfterReturn(s: State, id: UInt32, name: CString): Option<UInt32>
    requires Shape(s, {}) && id in s.servers && HasLabels(s.ring, s.vnodes, id) && s.ring != map[]
  {
    var seat := Seat(s.ring, id, HashString(name));
    if seat == id then GoesTo(RemovalPolicy(s, id), PhysicalOf(Followers(s, id)), name) else Some(seat)
  }

  lemma CarriedOffReturns(s: State, id: UInt32, name: CString)
    requires Shape(s, {}) && id in s.servers && HasLabels(s.ring, s.vnodes, id) && s.ring != map[]
    requires s.ring - LabelsOf(s.vnodes, id) != map[]
    requires var t := Owner(s.ring, HashString(name));
             s.ring[t] == HashString(name) && Physical(t) != id && CarriedOff(s.ring, id, t)
    ensures var t := Owner(s.ring, HashString(name));
            SeatAfterReturn(s, id, name) == Some(Physical(t)) <==> !Misdirected(s, id, t)
  {
    hide HashString, Distance, PickDestination, CarriedOff, LabelsOf, NextBest;
    var t := Owner(s.ring, HashString(name));
    assert Labelled(s.vnodes, s.ring);
    if !s.vnodes {
      NothingCarriedOff(s.ring, id, t);
      assert false;
    }
    ForeignMeansAnother(s, id);
    ChosenFollower(s, id, t);
    hide Owner, Misdirected, Successor, Physical;
  }

  /** A document is astray after the removal: it was carried off and then misdirected. */
  ghost predicate Astray(s: State, id: UInt32, name: CString)
    requires Shape(s, {}) && id in s.servers && HasLabels(s.ring, s.vnodes, id) && s.ring != map[]
  {
    var t := Owner(s.ring, HashString(name));
    s.ring[t] == HashString(name) && Physical(t) != id && Misdirected(s, id, t)
  }

  lemma ReturnsHome(s: State, t: State, id: UInt32, name: CString)
    requires Ready(s) && Ready(t) && t.vnodes == s.vnodes && t.servers.Keys == s.servers.Keys + {id}
    requires id !in s.servers && s.ring != map[] && t.ring != map[] && HasLabels(t.ring, t.vnodes, id)
    ensures SeatAfterReturn(t, id, name) == Some(HomeOf(s.ring, name)) <==> !Astray(t, id, name)
  {
    var o := Owner(t.ring, HashString(name));
    OldLabelsStay(s, t, id);
    OldRingStays(s, t, id);
    hide HashString, HashUint, Distance, CarriedOff, LabelsOf, NextBest, RemovalPolicy, Followers;
    if Seat(t.ring, id, HashString(name)) != id {
      SeatBefore(s, t, id, name);
    } else if Physical(o) == id {
      RemovalTargets(t, id, name);
    } else {
      OwnerOfOwnPoint(s.ring, o);
      CarriedOffReturns(t, id, name);
    }
  }

  ghost function Returned(m: Documents, s: State, id: UInt32, p: UInt32): Documents
    requires Shape(s, {}) && id in s.servers && HasLabels(s.ring, s.vnodes, id) && s.ring != map[]
  {
    map n | n in m && SeatAfterReturn(s, id, n) == Some(p) :: m[n]
  }

  lemma ReturnedAre(m: Documents, s: State, id: UInt32, p: UInt32)
    requires Shape(s, {}) && id in s.servers && HasLabels(s.ring, s.vnodes, id) && s.ring != map[] && p != id
    ensures Seated(m, s.ring, id, p)
            + Arriving(RemovalPolicy(s, id), PhysicalOf(Followers(s, id)), Seated(m, s.ring, id, id), p)
         == Returned(m, s, id, p)
  {
    hide Seat, HashString, GoesTo, Followers, RemovalPolicy, Shape, LabelsOf;
  }

  lemma RemovalReturns(s: State, m: Documents, id: UInt32)
    requires Shape(s, {}) && id in s.servers && SpreadAs(s, m, id) && s.ring != map[]
    requires s.ring - LabelsOf(s.vnodes, id) != map[]
    ensures HasLabels(s.ring, s.vnodes, id)
    ensures var r := RemoveLabels(s, id);
            && r.Running? && r.state.ring == s.ring - LabelsOf(s.vnodes, id)
            && r.state.servers.Keys == s.servers.Keys - {id}
            && AllCoherent(r.state.servers)
            && forall p :: p in r.state.servers ==> Effective(r.state.servers[p]) == Returned(m, s, id, p)
  {
    hide Injective, Physical, LabelsOf, Coherent, Effective, Seat, Seated, HashString, GoesTo, Followers, RemovalPolicy;
    assert HasLabels(s.ring, s.vnodes, id);
    var policy, dests := RemovalPolicy(s, id), PhysicalOf(Followers(s, id));
    ForeignMeansAnother(s, id);
    SeatedApart(m, s.ring, id, id);
    MigrateMovesExactly(s.servers, id, id, policy, dests);
    forall p | p in s.servers && p != id
      ensures Seated(m, s.ring, id, p) + Arriving(policy, dests, Seated(m, s.ring, id, id), p) == Returned(m, s, id, p)
    {
      ReturnedAre(m, s, id, p);
    }
    hide Migrate, Shape, Arriving, Returned;
  }

  lemma RemovalIsExact(s: State, t: State, m: Documents, id: UInt32)
    requires Ready(s) && Ready(t) && t.vnodes == s.vnodes && t.servers.Keys == s.servers.Keys + {id}
    requires id !in s.servers && s.ring != map[] && t.ring != map[] && Placed(s, m) && SpreadAs(t, m, id)
    ensures HasLabels(t.ring, t.vnodes, id)
    ensures var r := RemoveLabels(t, id);
            && r.Running? && r.state.ring == s.ring && r.state.servers.Keys == s.servers.Keys
            && AllCoherent(r.state.servers)
            && ((forall p :: p in s.servers ==> Effective(r.state.servers[p]) == Effective(s.servers[p]))
                <==> (forall n :: n in m ==> !Astray(t, id, n)))
  {
    hide HashString, HashUint, LabelsOf, Astray, SpreadAs, RemoveLabels, AllCoherent, SeatAfterReturn, HomeOf;
    OldRingStays(s, t, id);
    RemovalReturns(t, m, id);
    AllReturnHome(s, t, m, id);
    assert EachHoldsItsOwn(s.servers, s.ring, m);
    hide Ready, Placed;
    ReturnedIsOwned(m, s.ring, s.servers.Keys, t, id);
    hide Returned, Owned, Effective;
  }

  lemma AllReturnHome(s: State, t: State, m: Documents, id: UInt32)
    requires Ready(s) && Ready(t) && t.vnodes == s.vnodes && t.servers.Keys == s.servers.Keys + {id}
    requires id !in s.servers && s.ring != map[] && t.ring != map[] && HasLabels(t.ring, t.vnodes, id)
    ensures forall n :: n in m ==> HomeOf(s.ring, n) in s.servers.Keys
    ensures forall n :: n in m ==> (SeatAfterReturn(t, id, n) == Some(HomeOf(s.ring, n)) <==> !Astray(t, id, n))
  {
    forall n | n in m
      ensures SeatAfterReturn(t, id, n) == Some(HomeOf(s.ring, n)) <==> !Astray(t, id, n)
      ensures HomeOf(s.ring, n) in s.servers
    {
      hide HashString, HashUint, LabelsOf, Astray, SeatAfterReturn, HomeOf;
      ReturnsHome(s, t, id, n);
      HomeIsServer(s, n);
    }
  }

  /** Adding a server and removing it again gives every other server its documents back, exactly when no
      document was carried off and then misdirected. Those left behind come home of themselves. */
  lemma AddThenRemoveIsExact(s: State, m: Documents, id: UInt32, cap: nat)
    requires Ready(s) && Placed(s, m) && id < 100000 && id !in s.servers && cap > 0 && s.ring != map[]
    ensures var t := AddServerLabels(s, id, cap).0;
            var r := RemoveLabels(t, id);
            && t.ring != map[] && HasLabels(t.ring, t.vnodes, id)
            && r.Running? && r.state.ring == s.ring && r.state.servers.Keys == s.servers.Keys
            && AllCoherent(r.state.servers)
            && ((forall p :: p in s.servers ==> Effective(r.state.servers[p]) == Effective(s.servers[p]))
                <==> (forall n :: n in m ==> !Astray(t, id, n)))
  {
    AddServerSpreads(s, m, id, cap);
    RemovalIsExact(s, AddServerLabels(s, id, cap).0, m, id);
    hide AddServerLabels, Astray, Effective, Coherent, RemoveLabels, Ready, Placed, SpreadAs;
  }

  lemma ReturnedIsOwned(m: Documents, ring: Points, servers: set<UInt32>, s: State, id: UInt32)
    requires Shape(s, {}) && id in s.servers && HasLabels(s.ring, s.vnodes, id) && s.ring != map[] && ring != map[]
    requires forall n :: n in m ==> HomeOf(ring, n) in servers
    ensures (forall p :: p in servers ==> Returned(m, s, id, p) == Owned(m, ring, p))
       <==> (forall n :: n in m ==> SeatAfterReturn(s, id, n) == Some(HomeOf(ring, n)))
  {
    hide SeatAfterReturn, HomeOf, Shape;
    if forall p :: p in servers ==> Returned(m, s, id, p) == Owned(m, ring, p) {
      forall n | n in m
        ensures SeatAfterReturn(s, id, n) == Some(HomeOf(ring, n))
      {
        assert n in Owned(m, ring, HomeOf(ring, n));
      }
    }
  }

  /** Without virtual nodes nobody goes astray. */
  lemma NobodyAstray(s: State, id: UInt32, name: CString)
    requires Shape(s, {}) && id in s.servers && HasLabels(s.ring, s.vnodes, id) && s.ring != map[] && !s.vnodes
    ensures !Astray(s, id, name)
  {
    hide HashString, Distance;
    NothingCarriedOff(s.ring, id, Owner(s.ring, HashString(name)));
  }

  /** The same in a run, on whatever state it has reached. */
  lemma AddThenRemoveRestores(vnodes: bool, ops: seq<Op>, id: UInt32, cap: nat, there: seq<Op>, back: seq<Op>)
    requires there == ops + [AddServer(id, cap)] && back == there + [RemoveServer(id)]
    requires WellFormed(ops) && NoneStranded(vnodes, ops) && Run(vnodes, ops).Running? && Alive(ops) != {}
    requires Admissible(Alive(ops), AddServer(id, cap))
    ensures WellFormed(there) && WellFormed(back)
    ensures Run(vnodes, there).Running? && Run(vnodes, back).Running?
    ensures var s, t, r := Run(vnodes, ops).state, Run(vnodes, there).state, Run(vnodes, back).state;
            && t.ring != map[] && HasLabels(t.ring, t.vnodes, id) && s.servers.Keys == r.servers.Keys
            && ((forall p :: p in s.servers ==> Effective(r.servers[p]) == Effective(s.servers[p]))
                <==> (forall n :: n in Reference(ops) ==> !Astray(t, id, n)))
  {
    hide Ready, Placed, Reference, NoneStranded, Astray, Effective, RemoveLabels, AddServerLabels, ForwardEdit, ForwardGet;
    var s := Run(vnodes, ops).state;
    RunPlaces(vnodes, ops);
    EmptyTogether(s);
    AddThenRemoveIsExact(s, Reference(ops), id, cap);
    RunStep(vnodes, ops, AddServer(id, cap), there);
    RunStep(vnodes, there, RemoveServer(id), back);
    hide Run, WellFormed, Alive;
  }

  /** Caches agree with databases, and no document is on two servers. */
  ghost predicate Sound(servers: Servers) {
    && AllCoherent(servers)
    && forall p, q :: p in servers && q in servers && p != q ==> Effective(servers[p]).Keys !! Effective(servers[q]).Keys
  }

  lemma SpreadIsSound(s: State, m: Documents, id: UInt32)
    requires SpreadAs(s, m, id)
    ensures Sound(s.servers)
  {
    hide Seat, HashString, Effective, Coherent;
  }

  lemma PlacedIsSound(s: State, m: Documents)
    requires Placed(s, m)
    ensures Sound(s.servers)
  {
    hide HomeOf, HashString, Effective, Coherent;
  }

  /** A run is sound as long as no document was stranded, and still just after the first one was. */
  lemma RunIsSound(vnodes: bool, ops: seq<Op>)
    requires WellFormed(ops) && Run(vnodes, ops).Running?
    requires ops == [] || NoneStranded(vnodes, Init(ops))
    ensures Sound(Run(vnodes, ops).state.servers)
  {
    if ops != [] {
      var init, op := Init(ops), Last(ops);
      hide Init, Last, Ready, Placed, Sound, SpreadAs, Effective, StrandsNone, AnswersFrom, NoneStranded, Reference;
      var s, m := Run(vnodes, init).state, Reference(init);
      RunPlaces(vnodes, init);
      if op.AddServer? {
        AddServerSpreads(s, m, op.id, op.cap);
        SpreadIsSound(Run(vnodes, ops).state, m, op.id);
      } else {
        OtherStepsPlace(s, m, op);
        PlacedIsSound(Run(vnodes, ops).state, ReferenceStep(m, s.servers.Keys, op));
      }
    }
  }

  lemma OtherStepsPlace(s: State, m: Documents, op: Op)
    requires Ready(s) && Placed(s, m) && Admissible(s.servers.Keys, op) && !op.AddServer?
    ensures Step(s, op).Running? ==> Placed(Step(s, op).state, ReferenceStep(m, s.servers.Keys, op))
  {
    hide Placed, Ready, Step, AnswersFrom;
    StepRefines(s, m, op);
  }

  /** Every cache holds copies of what its server's database holds, and nothing else. */
  lemma CachesAreCoherent(vnodes: bool, ops: seq<Op>, p: UInt32)
    requires WellFormed(ops) && Run(vnodes, ops).Running? && p in Alive(ops)
    requires ops == [] || NoneStranded(vnodes, Init(ops))
    ensures var server := Run(vnodes, ops).state.servers[p];
            forall c :: c in server.cache ==> c.key in server.db && server.db[c.key] == c.val
  {
    RunIsSound(vnodes, ops);
    assert Coherent(Run(vnodes, ops).state.servers[p]);
  }

  /** Different servers never hold the same document. */
  lemma DatabasesAreDisjoint(vnodes: bool, ops: seq<Op>, p: UInt32, q: UInt32)
    requires WellFormed(ops) && Run(vnodes, ops).Running? && p in Alive(ops) && q in Alive(ops) && p != q
    requires ops == [] || NoneStranded(vnodes, Init(ops))
    ensures var servers := Run(vnodes, ops).state.servers;
            && servers[p].db.Keys !! servers[q].db.Keys
            && Effective(servers[p]).Keys !! Effective(servers[q]).Keys
  {
    RunIsSound(vnodes, ops);
    var s := Run(vnodes, ops).state;
    ApplyEditsKeys(s.servers[p].db, s.servers[p].queue);
    ApplyEditsKeys(s.servers[q].db, s.servers[q].queue);
    hide ApplyEdits, Run, Ready, WellFormed;
  }
}
