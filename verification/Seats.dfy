/**
 Where every document sits while the labels of a server are inserted, ties included, and which documents
 end up on a server that does not serve them.
 */
module Seats {
  import opened Hashing
  import opened Ring
  import opened ServerModel
  import opened Migration
  import opened SystemModel
  import opened SystemRuns

  /** Label l stands directly before the label that pick_src names for the documents on the point of t. */
  ghost predicate Takes(ring: Points, l: UInt32, t: UInt32)
    requires l in ring && t in ring
  {
    Physical(Successor(ring, l)) == Physical(t) && NextBest(ring, t, Successor(ring, l))
  }

  ghost predicate CarriedOff(ring: Points, id: UInt32, t: UInt32)
    requires t in ring
  {
    exists l :: l in ring && Physical(l) == id && Takes(ring, l, t)
  }

  /** Server id has just been added to the ring. A document on the point of one of its labels was left behind
      if the next label belongs to another server; a document on the point of an older label was carried off
      if a label of id takes it. No other document is on a wrong server. */
  ghost predicate Stranded(ring: Points, id: UInt32, h: UInt32)
    requires ring != map[]
  {
    var t := Owner(ring, h);
    && ring[t] == h
    && if Physical(t) == id then Physical(Successor(ring, t)) != id else CarriedOff(ring, id, t)
  }

  /** The server on which a document sits after the labels of server id that are on the ring. */
  ghost function Seat(ring: Points, id: UInt32, h: UInt32): UInt32
    requires ring != map[]
  {
    var t := Owner(ring, h);
    if !Stranded(ring, id, h) then Physical(t)
    else if Physical(t) == id then Physical(Successor(ring, t))
    else id
  }

  // One insertion moves documents from seat to seat.

  lemma NextBestKept(ring: Points, l: UInt32, point: UInt32, t: UInt32, src: UInt32)
    requires l !in ring && t in ring && src in ring && Physical(src) != Physical(l)
    ensures NextBest(ring[l := point], t, src) <==> NextBest(ring, t, src)
  {
    hide Physical, Distance;
  }

  lemma OldTaker(ring: Points, l: UInt32, point: UInt32, t: UInt32, x: UInt32)
    requires l !in ring && Injective(ring[l := point]) && t in ring && Physical(t) != Physical(l) && x in ring
    ensures var after := ring[l := point];
            && (Takes(after, x, t) ==> Takes(ring, x, t))
            && (Takes(ring, x, t) ==> Takes(after, x, t) || Takes(after, l, t))
  {
    hide Physical, NextBest, Successor, Injective;
    SuccessorAfterInsert(ring, l, point, x);
    if Physical(Successor(ring, x)) == Physical(t) {
      NextBestKept(ring, l, point, t, Successor(ring, x));
    }
  }

  /** A label added to those of id carries off what it takes itself. */
  lemma CarriedOffStep(ring: Points, l: UInt32, point: UInt32, t: UInt32)
    requires l !in ring && Injective(ring[l := point]) && t in ring && Physical(t) != Physical(l)
    ensures CarriedOff(ring[l := point], Physical(l), t)
       <==> CarriedOff(ring, Physical(l), t) || Takes(ring[l := point], l, t)
  {
    hide Physical, Takes, Injective;
    forall x | x in ring
      ensures Takes(ring[l := point], x, t) ==> Takes(ring, x, t)
      ensures Takes(ring, x, t) ==> Takes(ring[l := point], x, t) || Takes(ring[l := point], l, t)
    {
      OldTaker(ring, l, point, t, x);
    }
  }

  lemma SuccessorIsNextBest(ring: Points, t: UInt32)
    requires t in ring && Physical(Successor(ring, t)) != Physical(t)
    ensures NextBest(ring, t, Successor(ring, t))
  {
    PhysicalIsSmall(Successor(ring, t));
    hide Physical, Distance;
    forall l | l in ring && l != t
      ensures Distance(ring[t], ring[Successor(ring, t)]) <= Distance(ring[t], ring[l])
    {
      assert l in ring - {t};
    }
  }

  /** A document left behind on the point of label t stays with the server of the next label. */
  lemma LeftBehindStep(ring: Points, l: UInt32, point: UInt32, t: UInt32)
    requires l !in ring && Injective(ring[l := point]) && t in ring && Physical(t) == Physical(l)
    ensures var after := ring[l := point];
            var src, at := Successor(after, l), Physical(Successor(ring, t));
            Physical(Successor(after, t))
              == if Physical(src) != Physical(l) && at == Physical(src) && NextBest(after, t, src) then Physical(l) else at
  {
    hide Physical, NextBest, Successor, Injective;
    var after := ring[l := point];
    var src, u := Successor(after, l), Successor(ring, t);
    SuccessorAfterInsert(ring, l, point, t);
    SuccessorInjective(after, l, t);
    if Physical(u) == Physical(src) && Physical(u) != Physical(l) {
      SuccessorIsNextBest(ring, t);
      NextBestKept(ring, l, point, t, u);
      NextBestIsUnique(after, t, src, u);
    }
  }

  lemma OldOwners(ring: Points, l: UInt32, point: UInt32, h: UInt32)
    requires ring != map[] && l !in ring && Injective(ring[l := point])
    ensures var after, t := ring[l := point], Owner(ring, h);
            && (h != point && ring[t] == h ==> Owner(after, h) == t && after[t] == h)
            && (h == point ==> Owner(after, h) == l && ring[t] != h && t == Successor(after, l))
            && (h != point && ring[t] != h ==> after[Owner(after, h)] != h && forall x :: x in ring ==> ring[x] != h)
  {
    var after := ring[l := point];
    assert after - {l} == ring;
    assert Injective(ring) by {
      assert forall x :: x in ring ==> ring[x] == after[x];
    }
    OwnerAfterInsert(ring, l, point, h);
    OwnerOfOwnPoint(after, l);
    forall x | x in ring && ring[x] == h
      ensures Owner(ring, h) == x && Owner(after, h) == x
    {
      OwnerOfOwnPoint(ring, x);
      OwnerOfOwnPoint(after, x);
    }
  }

  /** The next insertion moves a document exactly if the transfer that follows it does. */
  lemma SeatStep(s: State, l: UInt32, point: UInt32, h: UInt32)
    requires Insertable(s, l, point) && s.ring != map[]
    ensures var ring := s.ring[l := point];
            var src, id, at := Successor(ring, l), Physical(l), Seat(s.ring, Physical(l), h);
            && (Physical(src) != id ==> HasLabels(ring, s.vnodes, Physical(src)))
            && Seat(ring, id, h) == if Physical(src) != id && at == Physical(src)
                                       && Decide(AddPolicy(s.vnodes, ring, src, l), 1, h).Move? then id else at
  {
    hide Physical, NextBest, LabelsOf, Decide, AddPolicy, HasLabels, CarriedOff, Successor;
    var ring := s.ring[l := point];
    var src, t := Successor(ring, l), Owner(s.ring, h);
    InsertKeepsLabels(s, l, point);
    OldOwners(s.ring, l, point, h);
    if Physical(src) != Physical(l) {
      assert HasLabels(ring, s.vnodes, Physical(src));
    }
    if h == point {
      if Physical(src) != Physical(l) {
        OwnPointDecided(s.vnodes, ring, src, l);
      }
    } else if s.ring[t] == h {
      if Physical(src) != Physical(l) {
        TiedMoves(s.vnodes, ring, l, t);
      }
      if Physical(t) == Physical(l) {
        LeftBehindStep(s.ring, l, point, t);
      } else {
        CarriedOffStep(s.ring, l, point, t);
      }
    } else {
      OwnerAfterInsert(s.ring, l, point, h);
      if Physical(src) != Physical(l) && Physical(t) == Physical(src) {
        UntiedMoves(s.vnodes, s.ring, l, point, h);
      }
    }
  }

  /** The documents that sit on a server. */
  ghost function Seated(m: Documents, ring: Points, id: UInt32, r: UInt32): Documents {
    if ring == map[] then map[]
    else map n | n in m && Seat(ring, id, HashString(n)) == r :: m[n]
  }

  /** Every document is on the server where it sits, with its pending edits, and on no other. */
  ghost predicate SpreadAs(s: State, m: Documents, id: UInt32) {
    && AllCoherent(s.servers)
    && (forall r :: r in s.servers ==> Effective(s.servers[r]) == Seated(m, s.ring, id, r))
    && (s.ring == map[] ==> m == map[])
  }

  lemma QuietSeats(s: State, m: Documents, l: UInt32, point: UInt32, r: UInt32)
    requires Insertable(s, l, point) && !HandsOver(s, l, point) && (s.ring == map[] ==> m == map[])
    ensures Seated(m, s.ring[l := point], Physical(l), r) == Seated(m, s.ring, Physical(l), r)
  {
    hide Seat, Physical, HashString, Insertable, Successor;
    if s.ring != map[] {
      forall n | n in m
        ensures Seat(s.ring[l := point], Physical(l), HashString(n)) == Seat(s.ring, Physical(l), HashString(n))
      {
        SeatStep(s, l, point, HashString(n));
      }
    }
  }

  /** From one ring to the next, the documents that sit on p and go to id change their seat. */
  ghost predicate SeatsMove(m: Documents, before: Points, after: Points, id: UInt32, p: UInt32, policy: Policy)
    requires Suits(policy, 1)
  {
    && before != map[] && after != map[]
    && forall n :: n in m ==>
         Seat(after, id, HashString(n))
           == if Seat(before, id, HashString(n)) == p && Decide(policy, 1, HashString(n)).Move? then id
              else Seat(before, id, HashString(n))
  }

  lemma SeatedAfterMove(m: Documents, before: Points, after: Points, id: UInt32, p: UInt32, policy: Policy, r: UInt32)
    requires Suits(policy, 1) && SeatsMove(m, before, after, id, p, policy) && p != id
    ensures var docs := Seated(m, before, id, p);
            Seated(m, after, id, r) == if r == p then docs - Leaving(policy, [id], docs)
                                       else Seated(m, before, id, r) + Arriving(policy, [id], docs, r)
  {
    hide Seat, HashString, Decide, Suits;
  }

  lemma HandOverMovesSeats(s: State, m: Documents, l: UInt32, point: UInt32)
    requires Insertable(s, l, point) && HandsOver(s, l, point)
    ensures var ring := s.ring[l := point];
            var src := Successor(ring, l);
            && HasLabels(ring, s.vnodes, Physical(src))
            && SeatsMove(m, s.ring, ring, Physical(l), Physical(src), AddPolicy(s.vnodes, ring, src, l))
  {
    HandsOverSource(s, l, point);
    hide Seat, Physical, HashString, Insertable, Successor, Decide, AddPolicy, HasLabels;
    SeatStep(s, l, point, 0);
    forall n | n in m {
      SeatStep(s, l, point, HashString(n));
    }
  }

  lemma SeatedApart(m: Documents, ring: Points, id: UInt32, p: UInt32)
    ensures forall r :: r != p ==> Seated(m, ring, id, r).Keys !! Seated(m, ring, id, p).Keys
  {
    hide Seat, HashString;
  }

  /** After every single insertion, every document is exactly where it sits. */
  lemma AddLabelSpreads(s: State, m: Documents, l: UInt32, point: UInt32)
    requires Insertable(s, l, point) && SpreadAs(s, m, Physical(l))
    ensures SpreadAs(AddLabel(s, l, point).0, m, Physical(l))
  {
    var id := Physical(l);
    if HandsOver(s, l, point) {
      HandsOverSource(s, l, point);
      HandOverMovesSeats(s, m, l, point);
      HandOverSpreads(s, m, l, point);
    } else {
      hide Seated, Coherent, Effective, Insertable, Successor, Physical;
      forall r | r in s.servers
        ensures Seated(m, s.ring[l := point], id, r) == Seated(m, s.ring, id, r)
      {
        QuietSeats(s, m, l, point, r);
      }
    }
  }

  lemma HandOverSpreads(s: State, m: Documents, l: UInt32, point: UInt32)
    requires Insertable(s, l, point) && SpreadAs(s, m, Physical(l)) && HandsOver(s, l, point)
    requires var ring := s.ring[l := point];
             var src := Successor(ring, l);
             && HasLabels(ring, s.vnodes, Physical(src)) && Physical(src) in s.servers
             && SeatsMove(m, s.ring, ring, Physical(l), Physical(src), AddPolicy(s.vnodes, ring, src, l))
    ensures SpreadAs(AddLabel(s, l, point).0, m, Physical(l))
  {
    var ring, id := s.ring[l := point], Physical(l);
    var src := Successor(ring, l);
    var p, policy := Physical(src), AddPolicy(s.vnodes, ring, src, l);
    SeatedApart(m, s.ring, id, p);
    MigrateMovesExactly(s.servers, p, src, policy, [id]);
    hide Seated, Coherent, Effective, Leaving, Arriving, AddPolicy, Shape, Migrate, HasLabels, SeatsMove;
    forall r | r in s.servers
      ensures Effective(Migrate(s.servers, p, src, policy, [id]).0[r]) == Seated(m, ring, id, r)
    {
      SeatedAfterMove(m, s.ring, ring, id, p, policy, r);
    }
  }

  /** Before the first insertion every document sits where it is served. */
  lemma SeatAtFirst(s: State, id: UInt32, name: CString)
    requires Shape(s, {}) && id !in s.servers && s.ring != map[]
    ensures Seat(s.ring, id, HashString(name)) == HomeOf(s.ring, name) && HomeOf(s.ring, name) != id
  {
    hide HashString, Physical, LabelsOf, Distance, NextBest, Successor;
    HomeIsServer(s, name);
  }

  lemma NewServerSpreads(s: State, m: Documents, id: UInt32, cap: nat)
    requires Ready(s) && Placed(s, m) && id < 100000 && id !in s.servers && cap > 0
    ensures SpreadAs(WithNewServer(s, id, cap), m, id)
  {
    hide HashString, HomeOf, Seat;
    var t := WithNewServer(s, id, cap);
    assert Coherent(t.servers[id]) && Effective(t.servers[id]) == map[];
    hide Effective, Coherent;
    if s.ring != map[] {
      forall n | n in m
        ensures Seat(s.ring, id, HashString(n)) == HomeOf(s.ring, n) && HomeOf(s.ring, n) != id
      {
        SeatAtFirst(s, id, n);
      }
    }
    assert Seated(m, s.ring, id, id) == map[];
    forall r | r in s.servers
      ensures Seated(m, s.ring, id, r) == Owned(m, s.ring, r)
    {
    }
  }

  lemma {:induction false} AddLabelsSpread(s: State, id: UInt32, labels: seq<UInt32>, m: Documents)
    requires Adding(s, id, labels) && SpreadAs(s, m, id)
    ensures SpreadAs(AddLabels(s, id, labels).0, m, id)
    decreases |labels|
  {
    hide HashString, HashUint;
    if labels != [] {
      var l := labels[0];
      var s1 := AddHashed(s, id, labels).0;
      hide Adding, SpreadAs, Insertable, AddLabel;
      AddLabelSpreads(s, m, l, HashUint(l));
      AddLabelsSpread(s1, id, labels[1..], m);
    }
  }

  /** Adding a server leaves every document on exactly one server: the one where it sits. */
  lemma AddServerSpreads(s: State, m: Documents, id: UInt32, cap: nat)
    requires Ready(s) && Placed(s, m) && id < 100000 && id !in s.servers && cap > 0
    ensures var t := AddServerLabels(s, id, cap).0; SpreadAs(t, m, id) && t.ring != map[]
  {
    NewServerSpreads(s, m, id, cap);
    NewServerIsBusy(s, id, cap);
    var t := AddServerLabels(s, id, cap).0;
    assert HasLabels(t.ring, t.vnodes, id) && id in LabelsOf(t.vnodes, id) && id in t.ring;
    hide HashString, HashUint, SpreadAs, Ready, Adding;
    AddLabelsSpread(WithNewServer(s, id, cap), id, LabelList(s.vnodes, id), m);
  }

  /** No document was left behind or carried off when server id was added to the ring. */
  ghost predicate NoneStrandedBy(ring: Points, m: Documents, id: UInt32) {
    forall n :: n in m && ring != map[] ==> !Stranded(ring, id, HashString(n))
  }

  lemma StrandedMeansElsewhere(ring: Points, id: UInt32, name: CString)
    requires ring != map[]
    ensures Stranded(ring, id, HashString(name)) <==> Seat(ring, id, HashString(name)) != HomeOf(ring, name)
  {
    hide HashString, Physical, NextBest, Successor, CarriedOff, Distance;
    var t := Owner(ring, HashString(name));
    hide Owner;
  }

  /** Documents are placed exactly when none is stranded. */
  lemma SpreadIsPlaced(s: State, m: Documents, id: UInt32)
    requires Shape(s, {}) && s.ring != map[] && SpreadAs(s, m, id)
    ensures Placed(s, m) <==> NoneStrandedBy(s.ring, m, id)
  {
    hide HashString, Physical, Stranded, Seat, HomeOf, Effective, Coherent;
    forall n | n in m
      ensures Stranded(s.ring, id, HashString(n)) <==> Seat(s.ring, id, HashString(n)) != HomeOf(s.ring, n)
      ensures HomeOf(s.ring, n) in s.servers
    {
      StrandedMeansElsewhere(s.ring, id, n);
      HomeIsServer(s, n);
    }
    if NoneStrandedBy(s.ring, m, id) {
      forall r | r in s.servers
        ensures Seated(m, s.ring, id, r) == Owned(m, s.ring, r)
      {
      }
    }
    if Placed(s, m) {
      forall n | n in m
        ensures Seat(s.ring, id, HashString(n)) == HomeOf(s.ring, n)
      {
        var home := HomeOf(s.ring, n);
        assert n in Owned(m, s.ring, home) && Owned(m, s.ring, home) == Seated(m, s.ring, id, home);
      }
    }
  }

  /** Adding a server is right exactly when it strands no document: a condition on the ring with its labels
      and on the names, whatever the order of the insertions. */
  lemma AddPlacesExactly(s: State, m: Documents, id: UInt32, cap: nat)
    requires Ready(s) && Placed(s, m) && id < 100000 && id !in s.servers && cap > 0
    ensures var t := AddServerLabels(s, id, cap).0;
            t.ring != map[] && (Placed(t, m) <==> NoneStrandedBy(t.ring, m, id))
  {
    AddServerSpreads(s, m, id, cap);
    hide SpreadAs, Placed, AddServerLabels, NoneStrandedBy, HashUint;
    SpreadIsPlaced(AddServerLabels(s, id, cap).0, m, id);
  }

  /** A stranded document is not found: the get of its name is answered with nothing. */
  lemma StrandedIsNotFound(s: State, m: Documents, id: UInt32, name: CString)
    requires Ready(s) && SpreadAs(s, m, id) && s.ring != map[] && Stranded(s.ring, id, HashString(name))
    ensures var out := ForwardGet(s, name).out; out != [] && out[|out| - 1].reply == NoContent
  {
    hide HashString, HashUint, Physical, Stranded, Seat, Distance, LabelsOf, Effective, Coherent, Fetch;
    StrandedMeansElsewhere(s.ring, id, name);
    HomeIsServer(s, name);
    var home := HomeOf(s.ring, name);
    assert name !in Seated(m, s.ring, id, home);
    FetchReads(s.servers[home], Owner(s.ring, HashString(name)), name);
  }
}
