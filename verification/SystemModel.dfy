/**
 The whole system as a state machine: a ring of labels and the physical servers behind them. Every
 step computes what the load balancer does, ties and misplacements included.
 */
module SystemModel {
  import opened Hashing
  import opened Wrappers
  import opened Ring
  import opened Migration
  import opened ServerModel

  datatype State = State(vnodes: bool, ring: Points, servers: map<UInt32, Server>)

  /** Some steps end in exit(-1); what was printed before stays printed. */
  datatype Outcome =
    | Running(state: State, out: seq<Message>)
    | Exited(out: seq<Message>)

  /** The labels of a physical server with virtual nodes. */
  function Replicas(p: UInt32): seq<UInt32>
    requires p < 100000
  {
    [p, p + 100000, p + 200000]
  }

  function LabelsOf(vnodes: bool, p: UInt32): set<UInt32>
    requires p < 100000
  {
    if vnodes then {p, p + 100000, p + 200000} else {p}
  }

  /** All labels of the server are on the ring. */
  predicate HasLabels(ring: Points, vnodes: bool, p: UInt32) {
    p < 100000 && LabelsOf(vnodes, p) <= ring.Keys
  }

  lemma LabelsShareServer(vnodes: bool, p: UInt32)
    requires p < 100000
    ensures forall l :: l in LabelsOf(vnodes, p) ==> Physical(l) == p
  {
  }

  function PointsOf(ring: Points, ids: seq<UInt32>): seq<UInt32>
    requires forall id :: id in ids ==> id in ring
  {
    seq(|ids|, i requires 0 <= i < |ids| => ring[ids[i]])
  }

  /** What holds of ring and servers between two steps; while the labels of a server are inserted one
      after the other, that server is the busy one. */
  ghost predicate Shape(s: State, busy: set<UInt32>) {
    && Injective(s.ring)
    && (forall l :: l in s.ring ==> Physical(l) in s.servers && l in LabelsOf(s.vnodes, Physical(l)))
    && (forall p :: p in s.servers ==> p < 100000 && s.servers[p].cap > 0)
    && (forall p {:trigger HasLabels(s.ring, s.vnodes, p)} ::
          p in s.servers && p !in busy ==> HasLabels(s.ring, s.vnodes, p))
  }

  /** The decision taken when label dest is inserted just before label src. */
  function AddPolicy(vnodes: bool, ring: Points, src: UInt32, dest: UInt32): (policy: Policy)
    requires src in ring && dest in ring && HasLabels(ring, vnodes, Physical(src))
    ensures Suits(policy, 1)
  {
    if vnodes then
      var replicas := Replicas(Physical(src));
      OwnInterval(ring[src], ring[dest], src, replicas, PointsOf(ring, replicas))
    else
      Interval(ring[src], ring[dest])
  }

  /** What may be inserted next: a label of a server that exists, on a free point. */
  ghost predicate Insertable(s: State, id: UInt32, point: UInt32) {
    && Shape(s, {Physical(id)}) && Physical(id) in s.servers && id in LabelsOf(s.vnodes, Physical(id))
    && id !in s.ring && Injective(s.ring[id := point])
  }

  /** The servers that remain have kept their cache capacities. */
  ghost predicate CapacitiesStay(before: Servers, after: Servers) {
    forall p :: p in before && p in after ==> after[p].cap == before[p].cap
  }

  /** Inserts one label of a server and lets the next label on the ring hand over documents. */
  ghost function AddLabel(s: State, id: UInt32, point: UInt32): (r: (State, seq<Message>))
    requires Insertable(s, id, point)
    ensures r.0.vnodes == s.vnodes && r.0.ring == s.ring[id := point] && r.0.servers.Keys == s.servers.Keys
    ensures Shape(r.0, {Physical(id)}) && CapacitiesStay(s.servers, r.0.servers)
  {
    InsertKeepsLabels(s, id, point);
    var ring := s.ring[id := point];
    var src := Successor(ring, id);
    var p, q := Physical(src), Physical(id);
    if p == q then (s.(ring := ring), [])
    else
      assert HasLabels(ring, s.vnodes, p);
      var (servers, ms) := Migrate(s.servers, p, src, AddPolicy(s.vnodes, ring, src, id), [q]);
      (State(s.vnodes, ring, servers), ms)
  }

  lemma InsertKeepsLabels(s: State, id: UInt32, point: UInt32)
    requires Insertable(s, id, point)
    ensures Shape(s.(ring := s.ring[id := point]), {Physical(id)})
  {
    hide Physical, LabelsOf, Injective;
    forall p | p in s.servers && p != Physical(id)
      ensures HasLabels(s.ring[id := point], s.vnodes, p)
    {
      assert HasLabels(s.ring, s.vnodes, p);
    }
  }

  /** Placement: no server holds a document that another one serves, and none is missing. */
  ghost predicate Placed(s: State, m: Documents) {
    && AllCoherent(s.servers)
    && EachHoldsItsOwn(s.servers, s.ring, m)
    && (s.ring == map[] ==> m == map[])
  }

  /** For a document on the point of label t, src is the next best label of its server: the nearest one
      other than t, provided that t is not the first label of the server. */
  ghost predicate NextBest(ring: Points, t: UInt32, src: UInt32)
    requires t in ring && src in ring
  {
    && src != t && t != Physical(src)
    && forall l :: l in ring && l != t && Physical(l) == Physical(src) ==>
         Distance(ring[t], ring[src]) <= Distance(ring[t], ring[l])
  }

  /** The points that an insertion leaves on the wrong server: the point of the new label itself, which the
      strict interval test does not move; and the point of a second or third label of the source server, when
      the label that sends is the next best, because pick_src passes over such a tie. */
  ghost predicate TieLost(ring: Points, src: UInt32, dest: UInt32, h: UInt32)
    requires src in ring && dest in ring
  {
    || h == ring[dest]
    || exists t :: t in ring && ring[t] == h && Physical(t) == Physical(src) && NextBest(ring, t, src)
  }

  /** Without a tie among its later labels, the label picked for a point of this server is its owner. */
  lemma TrueSourceIsOwner(ring: Points, p: UInt32, h: UInt32)
    requires Injective(ring) && HasLabels(ring, true, p)
    requires Owner(ring, h) in LabelsOf(true, p)
    requires h !in PointsOf(ring, Replicas(p))[1..]
    ensures Replicas(p)[PickSource(h, PointsOf(ring, Replicas(p)))] == Owner(ring, h)
  {
  }

  /** No server has other labels than its own. */
  ghost predicate Labelled(vnodes: bool, ring: Points) {
    forall l :: l in ring ==> l in LabelsOf(vnodes, Physical(l))
  }

  /** With a tie, pick_src names the next best label, unless the tie is with the first label. */
  lemma PickSourceNames(ring: Points, p: UInt32, t: UInt32, src: UInt32)
    requires Injective(ring) && Labelled(true, ring) && HasLabels(ring, true, p)
    requires t in ring && src in ring && Physical(src) == p
    ensures src != t && Replicas(p)[PickSource(ring[t], PointsOf(ring, Replicas(p)))] == src <==> NextBest(ring, t, src)
  {
    hide PickSource, Distance, NextBest;
    var k := PickSource(ring[t], PointsOf(ring, Replicas(p)));
    var named := Replicas(p)[k];
    if t == p {
      PickSourceSkipsTies(ring[t], PointsOf(ring, Replicas(p)), 0);
      assert Distance(ring[t], ring[named]) <= Distance(ring[t], ring[p]);
      AtNoDistance(ring, t, named);
      assert !NextBest(ring, t, src) by { FirstIsNeverPassedOver(ring, t, src); }
    } else {
      NamedIsNextBest(ring, p, t);
      NextBestIsUnique(ring, t, src, named);
    }
  }

  lemma AtNoDistance(ring: Points, t: UInt32, l: UInt32)
    requires Injective(ring) && t in ring && l in ring && Distance(ring[t], ring[l]) <= Distance(ring[t], ring[t])
    ensures t == l
  {
  }

  lemma FirstIsNeverPassedOver(ring: Points, t: UInt32, src: UInt32)
    requires t in ring && src in ring && t == Physical(src)
    ensures !NextBest(ring, t, src)
  {
  }

  lemma NextBestIsUnique(ring: Points, t: UInt32, src: UInt32, other: UInt32)
    requires Injective(ring) && t in ring && src in ring && other in ring && Physical(other) == Physical(src)
    requires NextBest(ring, t, other)
    ensures NextBest(ring, t, src) <==> src == other
  {
  }

  lemma NamedIsNextBest(ring: Points, p: UInt32, t: UInt32)
    requires Injective(ring) && Labelled(true, ring) && HasLabels(ring, true, p) && t in ring && t != p
    ensures var named := Replicas(p)[PickSource(ring[t], PointsOf(ring, Replicas(p)))];
            named in ring && Physical(named) == p && named != t && NextBest(ring, t, named)
  {
    hide PickSource, Distance;
    var h, points := ring[t], PointsOf(ring, Replicas(p));
    var k := PickSource(h, points);
    assert points[k] == ring[Replicas(p)[k]] && points[0] == ring[p];
    PickSourceSkipsTies(h, points, 0);
    forall l | l in ring && l != t && Physical(l) == p
      ensures Distance(h, points[k]) <= Distance(h, ring[l])
    {
      var j := ReplicaIndex(ring, p, l);
      PickSourceSkipsTies(h, points, j);
    }
  }

  lemma ReplicaIndex(ring: Points, p: UInt32, l: UInt32) returns (j: nat)
    requires Labelled(true, ring) && HasLabels(ring, true, p) && l in ring && Physical(l) == p
    ensures j < 3 && Replicas(p)[j] == l && PointsOf(ring, Replicas(p))[j] == ring[l]
  {
    hide Physical;
    assert l in LabelsOf(true, p);
    j := LabelPosition(true, p, l);
    hide LabelsOf, Labelled, HasLabels;
  }

  lemma FarBehind(ring: Points, id: UInt32, src: UInt32, owner: UInt32)
    requires Injective(ring) && id in ring && src in ring && owner in ring && |{id, src, owner}| == 3
    requires Closest(ring - {id}, ring[id], src)
    ensures ShouldMove(ring[src], ring[owner], ring[id])
  {
    assert ring[src] != ring[owner] && ring[src] != ring[id] && ring[owner] != ring[id];
    assert owner in ring - {id};
    assert Distance(ring[id], ring[src]) <= Distance(ring[id], ring[owner]);
  }

  /** A document on the point of another label moves to the new label exactly when the sender is next best,
      wherever it belongs. */
  lemma TiedMoves(vnodes: bool, ring: Points, l: UInt32, t: UInt32)
    requires Injective(ring) && Labelled(vnodes, ring) && l in ring && t in ring && t != l
    requires Physical(Successor(ring, l)) != Physical(l)
    requires HasLabels(ring, vnodes, Physical(Successor(ring, l)))
    ensures Decide(AddPolicy(vnodes, ring, Successor(ring, l), l), 1, ring[t]).Move?
       <==> NextBest(ring, t, Successor(ring, l))
  {
    hide Distance, PickSource, NextBest, Injective;
    var src := Successor(ring, l);
    if t == src {
      assert !ShouldMove(ring[src], ring[t], ring[l]);
      NotItsOwnNextBest(ring, t);
    } else {
      FarBehind(ring, l, src, t);
      hide ShouldMove, Successor;
      if vnodes {
        PickSourceNames(ring, Physical(src), t, src);
      } else {
        OnlyLabelIsNextBest(ring, t, src);
      }
    }
  }

  lemma NotItsOwnNextBest(ring: Points, t: UInt32)
    requires t in ring
    ensures !NextBest(ring, t, t)
  {
  }

  lemma OnlyLabelIsNextBest(ring: Points, t: UInt32, src: UInt32)
    requires Labelled(false, ring) && t in ring && src in ring && src != t
    ensures NextBest(ring, t, src)
  {
  }

  lemma PointsSurviveInsert(ring: Points, id: UInt32, point: UInt32, p: UInt32)
    requires id !in ring && HasLabels(ring, true, p)
    ensures HasLabels(ring[id := point], true, p)
    ensures PointsOf(ring[id := point], Replicas(p)) == PointsOf(ring, Replicas(p))
  {
  }

  lemma UntiedSource(before: Points, id: UInt32, point: UInt32, h: UInt32)
    requires before != map[] && id !in before && Injective(before[id := point])
    requires var p := Physical(Owner(before, h)); HasLabels(before, true, p) && Owner(before, h) in LabelsOf(true, p)
    requires forall l :: l in before ==> before[l] != h
    ensures var p := Physical(Owner(before, h));
            && HasLabels(before[id := point], true, p)
            && Replicas(p)[PickSource(h, PointsOf(before[id := point], Replicas(p)))] == Owner(before, h)
  {
    hide Distance, PickSource, Physical, Owner;
    var p := Physical(Owner(before, h));
    PointsSurviveInsert(before, id, point, p);
    assert Injective(before) by {
      assert forall l :: l in before ==> before[id := point][l] == before[l];
    }
    TrueSourceIsOwner(before, p, h);
  }

  lemma UntiedMoves(vnodes: bool, before: Points, id: UInt32, point: UInt32, h: UInt32)
    requires before != map[] && id !in before && Injective(before[id := point]) && Labelled(vnodes, before)
    requires var p := Physical(Owner(before, point));
             p != Physical(id) && HasLabels(before, vnodes, p) && Physical(Owner(before, h)) == p
    requires h != point && forall l :: l in before ==> before[l] != h
    ensures var ring, src := before[id := point], Owner(before, point);
            Decide(AddPolicy(vnodes, ring, src, id), 1, h).Move? <==> Owner(ring, h) == id
  {
    var src, owner := Owner(before, point), Owner(before, h);
    OwnerAfterInsert(before, id, point, h);
    if owner == src {
      IntervalTestIsExact(before, id, point, h);
    }
    if vnodes {
      UntiedSource(before, id, point, h);
    } else {
      assert owner in LabelsOf(false, Physical(owner)) && src in LabelsOf(false, Physical(src));
    }
    hide Distance, ShouldMove, PickSource, Injective, Owner, Physical, HasLabels, PointsOf, Replicas;
  }

  /** The decision to move a document, tie included: it is right exactly when the point is not lost. */
  lemma MovesIsExact(vnodes: bool, before: Points, id: UInt32, point: UInt32, h: UInt32)
    requires before != map[] && id !in before && Injective(before[id := point])
    requires Labelled(vnodes, before[id := point])
    requires var p := Physical(Owner(before, point));
             p != Physical(id) && HasLabels(before, vnodes, p) && Physical(Owner(before, h)) == p
    ensures var ring, src := before[id := point], Owner(before, point);
            (Decide(AddPolicy(vnodes, ring, src, id), 1, h).Move? <==> Owner(ring, h) == id)
            <==> !TieLost(ring, src, id, h)
  {
    hide Distance, ShouldMove, PickSource, NextBest, LabelsOf, Decide, AddPolicy;
    var ring, src := before[id := point], Owner(before, point);
    OwnerAfterInsert(before, id, point, h);
    OwnerOfOwnPoint(ring, id);
    assert Labelled(vnodes, before);
    if h == point {
      OwnPointDecided(vnodes, ring, src, id);
    } else if t :| t in before && before[t] == h {
      OwnerOfOwnPoint(ring, t);
      TiedMoves(vnodes, ring, id, t);
    } else {
      UntiedMoves(vnodes, before, id, point, h);
    }
  }

  lemma OwnPointDecided(vnodes: bool, ring: Points, src: UInt32, id: UInt32)
    requires src in ring && id in ring && HasLabels(ring, vnodes, Physical(src))
    ensures !Decide(AddPolicy(vnodes, ring, src, id), 1, ring[id]).Move?
  {
    OwnPointStays(ring[src], ring[id]);
  }

  /** The server that hands over documents when a label is inserted is another one. */
  ghost predicate HandsOver(s: State, id: UInt32, point: UInt32)
    requires id !in s.ring
  {
    Physical(Successor(s.ring[id := point], id)) != Physical(id)
  }

  lemma HandsOverSource(s: State, id: UInt32, point: UInt32)
    requires Insertable(s, id, point) && HandsOver(s, id, point)
    ensures s.ring != map[]
    ensures var src := Owner(s.ring, point);
            && src == Successor(s.ring[id := point], id) && src in LabelsOf(s.vnodes, Physical(src))
            && Physical(src) in s.servers && HasLabels(s.ring, s.vnodes, Physical(src))
  {
    var ring := s.ring[id := point];
    assert ring - {id} == s.ring;
    OwnerAfterInsert(s.ring, id, point, point);
  }

  lemma HomeAfterInsert(s: State, id: UInt32, point: UInt32, name: CString)
    requires Insertable(s, id, point) && s.ring != map[]
    ensures var ring, h := s.ring[id := point], HashString(name);
            && (Owner(ring, h) == id ==> Owner(s.ring, h) == Owner(s.ring, point))
            && (Owner(ring, h) != id ==> Owner(ring, h) == Owner(s.ring, h))
            && Physical(Owner(s.ring, h)) in s.servers
            && Owner(s.ring, h) in LabelsOf(s.vnodes, Physical(Owner(s.ring, h)))
  {
    OwnerAfterInsert(s.ring, id, point, HashString(name));
  }

  lemma QuietInsertKeepsHome(s: State, id: UInt32, point: UInt32, name: CString)
    requires Insertable(s, id, point) && s.ring != map[] && !HandsOver(s, id, point)
    ensures HomeOf(s.ring[id := point], name) == HomeOf(s.ring, name)
  {
    hide HashString, Physical, Distance, LabelsOf;
    assert s.ring[id := point] - {id} == s.ring;
    OwnerAfterInsert(s.ring, id, point, point);
    HomeAfterInsert(s, id, point, name);
  }

  lemma QuietInsertKeepsOwned(s: State, m: Documents, id: UInt32, point: UInt32, r: UInt32)
    requires Insertable(s, id, point) && Placed(s, m) && !HandsOver(s, id, point)
    ensures Owned(m, s.ring[id := point], r) == Owned(m, s.ring, r)
  {
    hide HomeOf, HandsOver;
    if s.ring != map[] {
      forall n | n in m
        ensures HomeOf(s.ring[id := point], n) == HomeOf(s.ring, n)
      {
        QuietInsertKeepsHome(s, id, point, n);
      }
    }
  }

  /** No document lies on a point that the insertion of the label leaves on the wrong server. */
  ghost predicate LosesNone(s: State, m: Documents, id: UInt32, point: UInt32)
    requires Insertable(s, id, point)
  {
    HandsOver(s, id, point) ==>
      var ring := s.ring[id := point];
      var src := Successor(ring, id);
      && src in ring && HasLabels(ring, s.vnodes, Physical(src))
      && forall n :: n in m ==> !TieLost(ring, src, id, HashString(n))
  }

  /** Inserting a label keeps placement exactly when no document is lost to a tie. */
  lemma AddLabelPlacesExactly(s: State, m: Documents, id: UInt32, point: UInt32)
    requires Insertable(s, id, point) && Placed(s, m)
    ensures Placed(AddLabel(s, id, point).0, m) <==> LosesNone(s, m, id, point)
  {
    var ring := s.ring[id := point];
    if HandsOver(s, id, point) {
      HandsOverSource(s, id, point);
      var src := Owner(s.ring, point);
      var p, q := Physical(src), Physical(id);
      var policy := AddPolicy(s.vnodes, ring, src, id);
      AddLabelAffects(s, m, id, point);
      MigrationPlacesExactly(s.servers, p, src, policy, [q], m, s.ring, ring);
      AddLabelSendsHome(s, m, id, point);
    } else {
      forall r | r in s.servers
        ensures Owned(m, ring, r) == Owned(m, s.ring, r)
      {
        QuietInsertKeepsOwned(s, m, id, point, r);
      }
    }
  }

  lemma AddLabelAffects(s: State, m: Documents, id: UInt32, point: UInt32)
    requires Insertable(s, id, point) && HandsOver(s, id, point)
    ensures s.ring != map[]
    ensures var ring, src := s.ring[id := point], Owner(s.ring, point);
            && src in ring && HasLabels(ring, s.vnodes, Physical(src))
            && OnlyAffects(m, s.ring, ring, Physical(src), AddPolicy(s.vnodes, ring, src, id), [Physical(id)])
  {
    hide HashString, Decide, Shape, AddPolicy, Distance, Owner, Physical, LabelsOf, Successor;
    HandsOverSource(s, id, point);
    forall n | n in m
      ensures HomeOf(s.ring, n) != Physical(Owner(s.ring, point)) ==>
                HomeOf(s.ring[id := point], n) == HomeOf(s.ring, n)
    {
      HomeAfterInsert(s, id, point, n);
    }
  }

  /** The documents of the source server go home exactly when none of them is lost to a tie. */
  lemma AddLabelSendsHome(s: State, m: Documents, id: UInt32, point: UInt32)
    requires Insertable(s, id, point) && HandsOver(s, id, point)
    ensures s.ring != map[]
    ensures var ring, src := s.ring[id := point], Owner(s.ring, point);
            && src in ring && HasLabels(ring, s.vnodes, Physical(src))
            && (SendsHome(m, s.ring, ring, Physical(src), AddPolicy(s.vnodes, ring, src, id), [Physical(id)])
                <==> forall n :: n in m ==> !TieLost(ring, src, id, HashString(n)))
  {
    HandsOverSource(s, id, point);
    var ring, src := s.ring[id := point], Owner(s.ring, point);
    var p, q := Physical(src), Physical(id);
    var policy := AddPolicy(s.vnodes, ring, src, id);
    forall n | n in m
      ensures HomeOf(s.ring, n) == p ==>
                (HomeOf(ring, n) == Destination(policy, [q], p, n)
                 <==> !TieLost(ring, src, id, HashString(n)))
      ensures HomeOf(s.ring, n) != p ==> !TieLost(ring, src, id, HashString(n))
    {
      var h := HashString(n);
      hide HashString, TieLost, AddPolicy, Decide;
      HomeAfterInsert(s, id, point, n);
      if HomeOf(s.ring, n) == p {
        MovesIsExact(s.vnodes, s.ring, id, point, h);
      } else {
        TieLostIsOwned(s, id, point, h);
      }
    }
  }

  lemma TieLostIsOwned(s: State, id: UInt32, point: UInt32, h: UInt32)
    requires Insertable(s, id, point) && HandsOver(s, id, point)
    ensures s.ring != map[]
    ensures var ring, src := s.ring[id := point], Owner(s.ring, point);
            && src in ring
            && (TieLost(ring, src, id, h) ==> Physical(Owner(s.ring, h)) == Physical(src))
  {
    HandsOverSource(s, id, point);
    hide NextBest, Physical, Distance, Owner;
    var ring, src := s.ring[id := point], Owner(s.ring, point);
    if h != point && TieLost(ring, src, id, h) {
      var t :| t in ring && ring[t] == h && Physical(t) == Physical(src) && NextBest(ring, t, src);
      OwnerOfOwnPoint(s.ring, t);
    }
  }

  /** The labels of a server in the order in which the code visits them. */
  function LabelList(vnodes: bool, p: UInt32): seq<UInt32>
    requires p < 100000
  {
    if vnodes then Replicas(p) else [p]
  }

  /** The labels that directly follow the labels of a server. */
  ghost function Followers(s: State, p: UInt32): seq<UInt32>
    requires HasLabels(s.ring, s.vnodes, p)
  {
    var ids := LabelList(s.vnodes, p);
    seq(|ids|, i requires 0 <= i < |ids| => Successor(s.ring, ids[i]))
  }

  ghost function RemovalPolicy(s: State, p: UInt32): (policy: Policy)
    requires Shape(s, {}) && p in s.servers
    ensures Suits(policy, |Followers(s, p)|)
  {
    var followers := Followers(s, p);
    if s.vnodes then NearestOf(PointsOf(s.ring, followers), Foreign(followers, p)) else Everything
  }

  lemma OthersOnRing(s: State, p: UInt32)
    requires Shape(s, {}) && p in s.servers
    ensures forall l :: l in s.ring - LabelsOf(s.vnodes, p) <==> l in s.ring && Physical(l) != p
    ensures s.ring - LabelsOf(s.vnodes, p) != map[] <==> s.servers.Keys != {p}
  {
    LabelsShareServer(s.vnodes, p);
    if q :| q in s.servers && q != p {
      LabelsShareServer(s.vnodes, q);
      assert HasLabels(s.ring, s.vnodes, q) && q in LabelsOf(s.vnodes, q);
      assert q in s.ring - LabelsOf(s.vnodes, p);
    } else {
      assert s.servers.Keys == {p};
    }
  }

  lemma OthersKeepLabels(s: State, p: UInt32, q: UInt32)
    requires Shape(s, {}) && p in s.servers && q in s.servers && p != q
    ensures HasLabels(s.ring - LabelsOf(s.vnodes, p), s.vnodes, q)
  {
    LabelsShareServer(s.vnodes, p);
    LabelsShareServer(s.vnodes, q);
    assert HasLabels(s.ring, s.vnodes, q);
    hide Physical, LabelsOf, Shape;
  }

  lemma RemovalKeepsLabels(s: State, p: UInt32)
    requires Shape(s, {}) && p in s.servers
    ensures Shape(State(s.vnodes, s.ring - LabelsOf(s.vnodes, p), s.servers - {p}), {})
  {
    hide Physical, LabelsOf, HasLabels;
    OthersOnRing(s, p);
    forall q | q in s.servers && q != p
      ensures HasLabels(s.ring - LabelsOf(s.vnodes, p), s.vnodes, q)
    {
      OthersKeepLabels(s, p, q);
    }
  }

  /** Takes a server off the ring and gives its documents to its followers. */
  ghost function RemoveLabels(s: State, p: UInt32): (r: Outcome)
    requires Shape(s, {}) && p in s.servers
    ensures r.Running? ==>
              && Shape(r.state, {}) && r.state.vnodes == s.vnodes
              && r.state.ring == s.ring - LabelsOf(s.vnodes, p)
              && r.state.servers.Keys == s.servers.Keys - {p} && CapacitiesStay(s.servers, r.state.servers)
  {
    RemovalKeepsLabels(s, p);
    var followers := Followers(s, p);
    var foreign := Foreign(followers, p);
    var ring := s.ring - LabelsOf(s.vnodes, p);
    if true in foreign then
      var (servers, ms) := Migrate(s.servers, p, p, RemovalPolicy(s, p), PhysicalOf(followers));
      Running(s.(ring := ring, servers := servers - {p}), ms)
    else if !s.vnodes then
      Running(s.(ring := ring, servers := s.servers - {p}), [])
    else
      var (sent, ms) := SolveQueue(s.servers[p], p);
      if sent.db == map[] then Running(s.(ring := ring, servers := s.servers - {p}), ms) else Exited(ms)
  }

  lemma LabelPosition(vnodes: bool, p: UInt32, l: UInt32) returns (i: nat)
    requires p < 100000 && l in LabelsOf(vnodes, p)
    ensures i < |LabelList(vnodes, p)| && LabelList(vnodes, p)[i] == l
  {
    if vnodes {
      i := if l == p then 0 else if l == p + 100000 then 1 else 2;
    } else {
      i := 0;
    }
  }

  lemma FollowersAre(s: State, p: UInt32)
    requires Shape(s, {}) && p in s.servers
    ensures var f := Followers(s, p);
            && |f| == |LabelList(s.vnodes, p)|
            && (forall i :: 0 <= i < |f| ==> f[i] in s.ring && Physical(f[i]) in s.servers)
            && (forall l :: l in LabelsOf(s.vnodes, p) ==> l in s.ring && Successor(s.ring, l) in f)
  {
    hide Physical, Injective, Successor, LabelList;
    var f := Followers(s, p);
    forall l | l in LabelsOf(s.vnodes, p)
      ensures Successor(s.ring, l) in f
    {
      var i := LabelPosition(s.vnodes, p, l);
      assert f[i] == Successor(s.ring, l);
    }
  }

  /** With a second server on the ring, the label that takes over a point of p is among the followers. */
  lemma HeirIsFollower(s: State, p: UInt32, h: UInt32)
    requires Shape(s, {}) && p in s.servers && s.ring - LabelsOf(s.vnodes, p) != map[]
    requires Owner(s.ring, h) in LabelsOf(s.vnodes, p)
    ensures var heir := Owner(s.ring - LabelsOf(s.vnodes, p), h);
            && heir in Followers(s, p) && Physical(heir) != p
            && forall l :: l in s.ring && Physical(l) != p ==>
                 h != s.ring[l] && Distance(h, s.ring[heir]) <= Distance(h, s.ring[l])
  {
    hide Physical, Distance;
    FollowersAre(s, p);
    LabelsShareServer(s.vnodes, p);
    hide Followers, LabelsOf;
    var gone := LabelsOf(s.vnodes, p);
    HeirFollowsARemovedLabel(s.ring, gone, h);
    var heir := Owner(s.ring - gone, h);
    assert heir in s.ring && heir !in gone;
    forall l | l in s.ring && Physical(l) != p
      ensures h != s.ring[l] && Distance(h, s.ring[heir]) <= Distance(h, s.ring[l])
    {
      assert l in s.ring - gone;
      OwnerOfOwnPoint(s.ring, l);
    }
  }

  /** Some follower belongs to another server exactly when there is another server. */
  lemma ForeignMeansAnother(s: State, p: UInt32)
    requires Shape(s, {}) && p in s.servers
    ensures true in Foreign(Followers(s, p), p) <==> s.ring - LabelsOf(s.vnodes, p) != map[]
  {
    OthersOnRing(s, p);
    FollowersAre(s, p);
    var f, rest := Followers(s, p), s.ring - LabelsOf(s.vnodes, p);
    assert p in s.ring && p in LabelsOf(s.vnodes, p);
    hide Physical, Followers, Distance, LabelsOf;
    if rest != map[] {
      OwnerOfOwnPoint(s.ring, p);
      HeirIsFollower(s, p, s.ring[p]);
      var i :| 0 <= i < |f| && f[i] == Owner(rest, s.ring[p]);
      assert Foreign(f, p)[i];
    } else {
      forall i | 0 <= i < |f|
        ensures !Foreign(f, p)[i]
      {
        assert f[i] !in rest;
      }
    }
  }

  lemma PickDestinationFindsHeir(s: State, p: UInt32, h: UInt32)
    requires s.vnodes && Shape(s, {}) && p in s.servers && s.ring - LabelsOf(true, p) != map[]
    requires Owner(s.ring, h) in LabelsOf(true, p)
    ensures var f := Followers(s, p);
            var k := PickDestination(h, PointsOf(s.ring, f), Foreign(f, p));
            k.Some? && f[k.value] == Owner(s.ring - LabelsOf(true, p), h)
  {
    hide Physical, Distance, LabelsOf, PickDestination;
    HeirIsFollower(s, p, h);
    FollowersAre(s, p);
    var f := Followers(s, p);
    var heir := Owner(s.ring - LabelsOf(true, p), h);
    var points, foreign := PointsOf(s.ring, f), Foreign(f, p);
    assert Injective(s.ring);
    hide Shape, Followers, Successor, Owner;
    var i :| 0 <= i < |f| && f[i] == heir;
    assert foreign[i];
    PickDestinationIsNearest(h, points, foreign);
    var k := PickDestination(h, points, foreign).value;
    assert points[k] == s.ring[f[k]] && points[i] == s.ring[heir];
    NearestIsUnique(s.ring, h, f[k], heir);
  }

  /** pick_dest and force_move send every document of p to the server that serves it afterwards. */
  lemma RemovalTargets(s: State, p: UInt32, name: CString)
    requires Shape(s, {}) && p in s.servers && s.ring - LabelsOf(s.vnodes, p) != map[]
    requires Owner(s.ring, HashString(name)) in LabelsOf(s.vnodes, p)
    ensures GoesTo(RemovalPolicy(s, p), PhysicalOf(Followers(s, p)), name)
            == Some(Physical(Owner(s.ring - LabelsOf(s.vnodes, p), HashString(name))))
  {
    hide HashString, Physical, Distance, LabelsOf, PickDestination, Successor, Owner, Injective;
    assert HasLabels(s.ring, s.vnodes, p);
    hide Shape;
    var h, f := HashString(name), Followers(s, p);
    if s.vnodes {
      PickDestinationFindsHeir(s, p, h);
    } else {
      HeirIsFollower(s, p, h);
    }
  }

  lemma NearestIsUnique(ring: Points, h: UInt32, l: UInt32, l': UInt32)
    requires Injective(ring) && l in ring && l' in ring && Distance(h, ring[l]) == Distance(h, ring[l'])
    ensures l == l'
  {
  }

  lemma RemovalAffects(s: State, p: UInt32, m: Documents)
    requires Shape(s, {}) && p in s.servers && s.ring - LabelsOf(s.vnodes, p) != map[]
    ensures var dests, rest := PhysicalOf(Followers(s, p)), s.ring - LabelsOf(s.vnodes, p);
            && OnlyAffects(m, s.ring, rest, p, RemovalPolicy(s, p), dests)
            && SendsHome(m, s.ring, rest, p, RemovalPolicy(s, p), dests)
  {
    var dests, rest := PhysicalOf(Followers(s, p)), s.ring - LabelsOf(s.vnodes, p);
    LabelsShareServer(s.vnodes, p);
    hide HashString, Physical, Distance, LabelsOf, Followers, GoesTo, RemovalPolicy;
    forall n | n in m
      ensures if HomeOf(s.ring, n) == p then GoesTo(RemovalPolicy(s, p), dests, n) == Some(HomeOf(rest, n)) && HomeOf(rest, n) != p
              else HomeOf(rest, n) == HomeOf(s.ring, n)
    {
      if Owner(s.ring, HashString(n)) in LabelsOf(s.vnodes, p) {
        RemovalTargets(s, p, n);
        HeirIsFollower(s, p, HashString(n));
      } else {
        OwnerSurvives(s.ring, LabelsOf(s.vnodes, p), HashString(n));
      }
    }
  }

  lemma RemovalMigrates(s: State, p: UInt32, m: Documents)
    requires Shape(s, {}) && p in s.servers && Placed(s, m) && s.ring - LabelsOf(s.vnodes, p) != map[]
    ensures var servers := Migrate(s.servers, p, p, RemovalPolicy(s, p), PhysicalOf(Followers(s, p))).0;
            && servers.Keys == s.servers.Keys && AllCoherent(servers)
            && EachHoldsItsOwn(servers, s.ring - LabelsOf(s.vnodes, p), m)
  {
    hide Injective, Physical, LabelsOf, Coherent, Effective, Owned;
    FollowersAre(s, p);
    RemovalAffects(s, p, m);
    hide Shape, Followers, RemovalPolicy, LabelsOf, Physical, OnlyAffects, SendsHome, Owned, Effective, Coherent, Migrate;
    var dests := PhysicalOf(Followers(s, p));
    MigrationPlacesExactly(s.servers, p, p, RemovalPolicy(s, p), dests, m, s.ring, s.ring - LabelsOf(s.vnodes, p));
  }

  lemma RemovalOfOneOfMany(s: State, p: UInt32, m: Documents)
    requires Shape(s, {}) && p in s.servers && Placed(s, m) && s.ring - LabelsOf(s.vnodes, p) != map[]
    ensures var result := RemoveLabels(s, p);
            && result.Running?
            && result.state.vnodes == s.vnodes
            && result.state.ring == s.ring - LabelsOf(s.vnodes, p)
            && result.state.servers.Keys == s.servers.Keys - {p}
            && Placed(result.state, m)
  {
    hide Injective, Physical, LabelsOf, Coherent, Effective, Owned;
    ForeignMeansAnother(s, p);
    RemovalMigrates(s, p, m);
    hide Shape, Followers, RemovalPolicy, LabelsOf, Physical, Owned, Effective, Coherent, Migrate;
  }

  lemma HomeIsServer(s: State, name: CString)
    requires Shape(s, {}) && s.ring != map[]
    ensures HomeOf(s.ring, name) in s.servers
  {
  }

  lemma LastServerOwnsAll(s: State, p: UInt32, m: Documents)
    requires Shape(s, {}) && p in s.servers && s.servers.Keys == {p}
    ensures Owned(m, s.ring, p) == m
  {
    hide HomeOf, Physical, Injective;
    assert s.ring != map[] by {
      assert HasLabels(s.ring, s.vnodes, p) && p in s.ring;
    }
    hide Shape;
    forall n | n in m
      ensures HomeOf(s.ring, n) in s.servers.Keys
    {
      HomeIsServer(s, n);
    }
  }

  lemma RemovalOfTheLast(s: State, p: UInt32, m: Documents)
    requires Shape(s, {}) && p in s.servers && Placed(s, m) && s.servers.Keys == {p}
    ensures var result := RemoveLabels(s, p);
            && (result.Exited? <==> s.vnodes && m != map[])
            && (result.Running? ==> result.state == State(s.vnodes, map[], map[]))
  {
    ForeignMeansAnother(s, p);
    OthersOnRing(s, p);
    SolveQueueIsEager(s.servers[p], p);
    LastServerOwnsAll(s, p, m);
  }

  /** Removing a server keeps placement, whatever the ties, as long as another server is there. Removing
      the last one drops the documents, or ends the program if virtual nodes are on and there are any. */
  lemma RemovalKeepsPlacement(s: State, p: UInt32, m: Documents)
    requires Shape(s, {}) && p in s.servers && Placed(s, m)
    ensures var last, result := s.servers.Keys == {p}, RemoveLabels(s, p);
            && (result.Exited? <==> last && s.vnodes && m != map[])
            && (result.Running? ==>
                && Shape(result.state, {}) && result.state.vnodes == s.vnodes
                && result.state.ring == s.ring - LabelsOf(s.vnodes, p)
                && result.state.servers.Keys == s.servers.Keys - {p}
                && Placed(result.state, if last then map[] else m))
  {
    OthersOnRing(s, p);
    if s.servers.Keys == {p} {
      RemovalOfTheLast(s, p, m);
    } else {
      RemovalOfOneOfMany(s, p, m);
    }
  }
}
