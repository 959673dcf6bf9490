/**
 What the whole system prints, message by message, told from the requests alone: one account for each server,
 one plain map, and the ring. No database, cache, array or list occurs in a ledger.
 */
module Ledgers {
  import opened Hashing
  import opened Ring
  import opened Recency
  import opened ServerModel
  import opened Accounts
  import opened Migration
  import opened SystemModel
  import opened SystemRuns
  import opened Seats
  import opened Refinement

  type Ledger = map<UInt32, Account>

  /** What a request makes of the ledger and what it prints, or what it prints before the program ends. */
  datatype Printed =
    | Going(ledger: Ledger, out: seq<Message>)
    | Ended(out: seq<Message>)

  function AccountOf(ledger: Ledger, p: UInt32): Account {
    if p in ledger then ledger[p] else Account(0, [], [])
  }

  /** The names whose documents change their seat from p to id. */
  ghost function Leavers(m: Documents, before: Points, after: Points, id: UInt32, p: UInt32): set<CString> {
    set n | n in m && before != map[] && after != map[]
            && Seat(before, id, HashString(n)) == p && Seat(after, id, HashString(n)) == id
  }

  /** A label of server id is inserted: the server behind the next label executes the edits that it owes, under
      that label, and gives away the documents that leave; if that is id itself, nothing happens. */
  ghost function Inserted(ring: Points, ledger: Ledger, m: Documents, id: UInt32, l: UInt32)
      : (Ledger, seq<Message>)
  {
    var after := ring[l := HashUint(l)];
    var src := Successor(after, l);
    var p := Physical(src);
    if p == id then (ledger, [])
    else
      var (b, ms) := Flushed(AccountOf(ledger, p), src);
      (ledger[p := GivenAway(b, Leavers(m, ring, after, id, p))], ms)
  }

  ghost function AllInserted(ring: Points, ledger: Ledger, m: Documents, id: UInt32, labels: seq<UInt32>)
      : (Ledger, seq<Message>)
    decreases |labels|
  {
    if labels == [] then (ledger, [])
    else
      var (ledger1, ms) := Inserted(ring, ledger, m, id, labels[0]);
      var (ledger2, ms') := AllInserted(ring[labels[0] := HashUint(labels[0])], ledger1, m, id, labels[1..]);
      (ledger2, ms + ms')
  }

  /** A server leaves. It executes the edits that it owes if another one takes over. The last server goes in
      silence, unless virtual nodes are on and there are documents. */
  ghost function Removed(vnodes: bool, ledger: Ledger, m: Documents, p: UInt32): Printed {
    var ms := Flushed(AccountOf(ledger, p), p).1;
    if ledger.Keys != {p} then Going(ledger - {p}, ms)
    else if vnodes && m != map[] then Ended(ms)
    else Going(map[], [])
  }

  /** One request. Edits and gets are answered under the label that serves the name. */
  ghost function Entered(vnodes: bool, ledger: Ledger, m: Documents, op: Op): Printed {
    var ring := RingOf(vnodes, ledger.Keys);
    match op
    case AddServer(id, cap) =>
      if id >= 100000 then Ended([])
      else
        var (after, ms) := AllInserted(ring, ledger[id := Account(cap, [], [])], m, id,
                                        if vnodes then [id, id + 100000, id + 200000] else [id]);
        Going(after, ms)
    case RemoveServer(p) => Removed(vnodes, ledger, m, p)
    case EditRequest(name, content) =>
      if ring == map[] then Going(ledger, [])
      else
        var l := Owner(ring, HashString(name));
        var a := AccountOf(ledger, Physical(l));
        if |a.pending| == 1000 then Ended([])
        else
          var (b, notice) := Submitted(a, l, m, Edit(name, content));
          Going(ledger[Physical(l) := b], [notice])
    case GetRequest(name) =>
      if ring == map[] then Going(ledger, [])
      else
        var l := Owner(ring, HashString(name));
        var (b, ms) := Asked(AccountOf(ledger, Physical(l)), l, m, name);
        Going(ledger[Physical(l) := b], ms)
  }

  /** A whole run. */
  ghost function LedgerRun(vnodes: bool, ops: seq<Op>): Printed {
    if ops == [] then Going(map[], [])
    else
      match LedgerRun(vnodes, Init(ops))
      case Ended(out) => Ended(out)
      case Going(ledger, out) =>
        match Entered(vnodes, ledger, Reference(Init(ops)), Last(ops))
        case Ended(more) => Ended(out + more)
        case Going(after, more) => Going(after, out + more)
  }

  // The servers keep their accounts.

  ghost predicate AllKept(servers: Servers, ledger: Ledger) {
    servers.Keys == ledger.Keys && forall p :: p in servers ==> Kept(servers[p], ledger[p])
  }

  /** A migration prints what the sender owes, and is an event for the sender only. */
  lemma MigrationIsKept(servers: Servers, ledger: Ledger, p: UInt32, id: UInt32, policy: Policy, dests: seq<UInt32>)
    requires p in servers && servers[p].cap > 0 && Suits(policy, |dests|) && AllKept(servers, ledger)
    requires forall q :: q in servers && q != p ==> Effective(servers[q]).Keys !! Effective(servers[p]).Keys
    ensures var (after, ms) := Migrate(servers, p, id, policy, dests);
            var (b, ms') := Flushed(ledger[p], id);
            ms == ms' && AllKept(after, ledger[p := GivenAway(b, Leaving(policy, dests, Effective(servers[p])))])
  {
    hide Kept, Effective, Leaving, Arriving, Suits, Release, Receive;
    FlushIsKept(servers[p], ledger[p], id);
    CoherentWhenKept(servers[p], ledger[p]);
    SolveQueueIsEager(servers[p], id);
    var sent := SolveQueue(servers[p], id).0;
    hide SolveQueue, Flushed, Coherent;
    ReleaseIsKept(sent, Flushed(ledger[p], id).0, Leaving(policy, dests, sent.db));
    forall q | q in servers && q != p
      ensures Kept(Receive(servers[q], Arriving(policy, dests, sent.db, q)), ledger[q])
    {
      ArrivingKeys(policy, dests, sent.db, q);
      ReceiveIsKept(servers[q], ledger[q], Arriving(policy, dests, sent.db, q));
    }
  }

  lemma LeaversLeave(s: State, m: Documents, l: UInt32, point: UInt32)
    requires Insertable(s, l, point) && HandsOver(s, l, point) && SpreadAs(s, m, Physical(l))
    ensures var ring, id := s.ring[l := point], Physical(l);
            var src := Successor(ring, l);
            && HasLabels(ring, s.vnodes, Physical(src)) && Physical(src) in s.servers
            && Leaving(AddPolicy(s.vnodes, ring, src, l), [id], Effective(s.servers[Physical(src)]))
               == Leavers(m, s.ring, ring, id, Physical(src))
  {
    HandsOverSource(s, l, point);
    HandOverMovesSeats(s, m, l, point);
    hide Seat, HashString, Physical, Decide, AddPolicy, HasLabels, Successor, Insertable, Coherent, Effective;
  }

  lemma InsertionIsKept(s: State, m: Documents, ledger: Ledger, l: UInt32)
    requires Insertable(s, l, HashUint(l)) && SpreadAs(s, m, Physical(l)) && AllKept(s.servers, ledger)
    ensures var (t, ms) := AddLabel(s, l, HashUint(l));
            var (after, ms') := Inserted(s.ring, ledger, m, Physical(l), l);
            ms == ms' && AllKept(t.servers, after)
  {
    if HandsOver(s, l, HashUint(l)) {
      LeaversLeave(s, m, l, HashUint(l));
      HandsOverSource(s, l, HashUint(l));
      var ring, id := s.ring[l := HashUint(l)], Physical(l);
      var src := Successor(ring, l);
      SpreadIsApart(s, m, id, Physical(src));
      hide HashUint, Seated, Coherent, Physical, AddPolicy, HasLabels, Successor, AllKept, Leaving, Leavers, Effective, Migrate;
      hide Flushed, Shape, Injective, LabelsOf, SpreadAs;
      MigrationIsKept(s.servers, ledger, Physical(src), src, AddPolicy(s.vnodes, ring, src, l), [id]);
    }
  }

  lemma SpreadIsApart(s: State, m: Documents, id: UInt32, p: UInt32)
    requires SpreadAs(s, m, id) && p in s.servers
    ensures forall q :: q in s.servers && q != p ==> Effective(s.servers[q]).Keys !! Effective(s.servers[p]).Keys
    ensures s.servers[p].cap > 0
  {
    hide Effective, Seated;
    SeatedApart(m, s.ring, id, p);
  }

  lemma {:induction false} InsertionsAreKept(s: State, id: UInt32, labels: seq<UInt32>, m: Documents, ledger: Ledger)
    requires Adding(s, id, labels) && SpreadAs(s, m, id) && AllKept(s.servers, ledger)
    ensures var (t, ms) := AddLabels(s, id, labels);
            var (after, ms') := AllInserted(s.ring, ledger, m, id, labels);
            ms == ms' && AllKept(t.servers, after)
    decreases |labels|
  {
    hide HashString, HashUint, AllKept, SpreadAs;
    if labels != [] {
      var l := labels[0];
      var s1 := AddHashed(s, id, labels).0;
      hide Adding, Insertable, AddLabel, Inserted;
      AddLabelSpreads(s, m, l, HashUint(l));
      InsertionIsKept(s, m, ledger, l);
      InsertionsAreKept(s1, id, labels[1..], m, Inserted(s.ring, ledger, m, id, l).0);
    }
  }

  lemma AdditionIsKept(s: State, m: Documents, ledger: Ledger, id: UInt32, cap: nat)
    requires Ready(s) && Placed(s, m) && AllKept(s.servers, ledger)
    requires id < 100000 && id !in s.servers && cap > 0
    ensures var (t, ms) := AddServerLabels(s, id, cap);
            var (after, ms') := AllInserted(s.ring, ledger[id := Account(cap, [], [])], m, id, LabelList(s.vnodes, id));
            ms == ms' && AllKept(t.servers, after)
  {
    hide HashString, HashUint, Placed, SpreadAs, Ready, Adding, Kept, AllInserted;
    NewServerIsBusy(s, id, cap);
    NewServerSpreads(s, m, id, cap);
    NewAccount(cap);
    var s0 := WithNewServer(s, id, cap);
    assert AllKept(s0.servers, ledger[id := Account(cap, [], [])]);
    hide AllKept, WithNewServer;
    InsertionsAreKept(s0, id, LabelList(s.vnodes, id), m, ledger[id := Account(cap, [], [])]);
  }

  ghost predicate Same(r: Outcome, e: Printed) {
    && (r.Running? <==> e.Going?) && r.out == e.out
    && (r.Running? ==> AllKept(r.state.servers, e.ledger))
  }

  lemma AdditionIsEntered(s: State, m: Documents, ledger: Ledger, id: UInt32, cap: nat)
    requires Ready(s) && Placed(s, m) && AllKept(s.servers, ledger)
    requires id < 100000 && id !in s.servers && cap > 0
    ensures var (t, ms) := AddServerLabels(s, id, cap);
            Same(Running(t, ms), Entered(s.vnodes, ledger, m, AddServer(id, cap)))
  {
    hide Placed, AllKept, AllInserted, RingOf, Ready, LabelList, AddServerLabels, CapacitiesStay, HasCapacity;
    hide HashString, HashUint, Owner, Physical, Submitted, Asked, Removed;
    ReadyRing(s);
    SameServers(s.servers, ledger);
    LabelListIs(s.vnodes, id);
    AdditionIsKept(s, m, ledger, id, cap);
  }

  lemma PlacedIsApart(s: State, m: Documents, p: UInt32)
    requires Placed(s, m) && p in s.servers
    ensures forall q :: q in s.servers && q != p ==> Effective(s.servers[q]).Keys !! Effective(s.servers[p]).Keys
    ensures s.servers[p].cap > 0
  {
    hide Effective, HomeOf, HashString;
  }

  lemma RemovalOfManyIsKept(s: State, m: Documents, ledger: Ledger, p: UInt32)
    requires Ready(s) && Placed(s, m) && AllKept(s.servers, ledger) && p in s.servers && s.servers.Keys != {p}
    ensures Same(RemoveLabels(s, p), Removed(s.vnodes, ledger, m, p))
  {
    hide HashString, HashUint, Kept, Effective, Flushed, Migrate, Leaving, Coherent, Placed, AllKept;
    SameServers(s.servers, ledger);
    PlacedIsApart(s, m, p);
    OthersOnRing(s, p);
    ForeignMeansAnother(s, p);
    var policy, dests := RemovalPolicy(s, p), PhysicalOf(Followers(s, p));
    hide Followers, RemovalPolicy, LabelsOf, Physical, Shape, Injective;
    MigrationIsKept(s.servers, ledger, p, p, policy, dests);
    var after := Migrate(s.servers, p, p, policy, dests).0;
    OneLess(after, ledger, p, GivenAway(Flushed(ledger[p], p).0, Leaving(policy, dests, Effective(s.servers[p]))));
  }

  lemma SameServers(servers: Servers, ledger: Ledger)
    requires AllKept(servers, ledger)
    ensures servers.Keys == ledger.Keys
  {
  }

  lemma OneLess(servers: Servers, ledger: Ledger, p: UInt32, a: Account)
    requires AllKept(servers, ledger[p := a])
    ensures AllKept(servers - {p}, ledger - {p})
  {
    hide Kept;
  }

  lemma NothingOwed(server: Server, id: UInt32)
    requires server.cap > 0 && Effective(server) == map[]
    ensures SolveQueue(server, id).1 == []
  {
    ApplyEditsKeys(server.db, server.queue);
  }

  lemma RemovalOfTheLastIsKept(s: State, m: Documents, ledger: Ledger, p: UInt32)
    requires Ready(s) && Placed(s, m) && AllKept(s.servers, ledger) && p in s.servers && s.servers.Keys == {p}
    ensures Same(RemoveLabels(s, p), Removed(s.vnodes, ledger, m, p))
  {
    OthersOnRing(s, p);
    ForeignMeansAnother(s, p);
    LastServerOwnsAll(s, p, m);
    var server := s.servers[p];
    assert Effective(server) == m && Coherent(server) && Kept(server, ledger[p]);
    hide Placed, Kept, Shape, LabelsOf, Physical, Owned, Followers;
    FlushIsKept(server, ledger[p], p);
    SolveQueueIsEager(server, p);
    if m == map[] {
      NothingOwed(server, p);
    }
    hide SolveQueue, Flushed, Effective, Coherent;
  }

  /** The server that serves a name knows as much of it as the whole system. */
  lemma HomeKnows(s: State, m: Documents, ledger: Ledger, name: CString)
    requires Ready(s) && Placed(s, m) && AllKept(s.servers, ledger) && s.ring != map[]
    ensures var p := Physical(Owner(s.ring, HashString(name)));
            && p in s.servers && p in ledger && Kept(s.servers[p], ledger[p]) && s.servers[p].cap > 0
            && |ledger[p].pending| == |s.servers[p].queue|
            && (name in Effective(s.servers[p]) <==> name in m)
            && GetReply(Effective(s.servers[p]), name) == GetReply(m, name)
  {
    HomeIsServer(s, name);
    var p := HomeOf(s.ring, name);
    assert EachHoldsItsOwn(s.servers, s.ring, m);
    CoherentWhenKept(s.servers[p], ledger[p]);
    RepliesCount(s.servers[p].db, s.servers[p].queue);
    hide HashString, Shape, Follows, Owner, Physical, Effective;
  }

  lemma OneKept(servers: Servers, ledger: Ledger, p: UInt32, server: Server, a: Account)
    requires AllKept(servers, ledger) && p in servers && Kept(server, a)
    ensures AllKept(servers[p := server], ledger[p := a])
  {
    hide Kept;
  }

  lemma EditIsEntered(s: State, m: Documents, ledger: Ledger, e: Edit)
    requires Ready(s) && Placed(s, m) && AllKept(s.servers, ledger)
    ensures Same(ForwardEdit(s, e), Entered(s.vnodes, ledger, m, EditRequest(e.name, e.content)))
  {
    hide HashString, HashUint, Owner, Physical, Effective, OnlyServerChanges, RingOf, Kept, Enqueue, Submitted, AllKept;
    hide Ready, Placed;
    ReadyRing(s);
    SameServers(s.servers, ledger);
    if s.ring != map[] {
      HomeKnows(s, m, ledger, e.name);
      var l := Owner(s.ring, HashString(e.name));
      var p := Physical(l);
      SubmitIsKept(s.servers[p], ledger[p], l, m, e);
      OneKept(s.servers, ledger, p, Enqueue(s.servers[p], l, e).0, Submitted(ledger[p], l, m, e).0);
    }
  }

  lemma GetIsEntered(s: State, m: Documents, ledger: Ledger, name: CString)
    requires Ready(s) && Placed(s, m) && AllKept(s.servers, ledger)
    ensures Same(ForwardGet(s, name), Entered(s.vnodes, ledger, m, GetRequest(name)))
  {
    hide HashString, HashUint, Owner, Physical, Effective, OnlyServerChanges, RingOf, Kept, Fetch, Asked, AllKept;
    hide Ready, Placed;
    ReadyRing(s);
    SameServers(s.servers, ledger);
    if s.ring != map[] {
      HomeKnows(s, m, ledger, name);
      var l := Owner(s.ring, HashString(name));
      var p := Physical(l);
      GetIsKept(s.servers[p], ledger[p], l, m, name);
      OneKept(s.servers, ledger, p, Fetch(s.servers[p], l, name).0, Asked(ledger[p], l, m, name).0);
    }
  }

  /** Every request prints what the ledger says, and leaves the servers with their accounts; ties do not matter
      for this request. */
  lemma StepIsEntered(s: State, m: Documents, ledger: Ledger, op: Op)
    requires Ready(s) && Placed(s, m) && AllKept(s.servers, ledger) && Admissible(s.servers.Keys, op)
    ensures Same(Step(s, op), Entered(s.vnodes, ledger, m, op))
  {
    match op
    case AddServer(id, cap) =>
      hide Placed, AllKept, AddServerLabels, Entered, Ready;
      AdditionIsEntered(s, m, ledger, id, cap);
    case RemoveServer(p) =>
      hide Placed, AllKept, RemoveLabels, Removed, RingOf, Ready;
      if s.servers.Keys == {p} {
        RemovalOfTheLastIsKept(s, m, ledger, p);
      } else {
        RemovalOfManyIsKept(s, m, ledger, p);
      }
    case EditRequest(name, content) =>
      hide Placed, AllKept, ForwardEdit, Entered;
      EditIsEntered(s, m, ledger, Edit(name, content));
    case GetRequest(name) =>
      hide Placed, AllKept, ForwardGet, Entered;
      GetIsEntered(s, m, ledger, name);
  }

  /** The whole transcript of a run that strands no document, and whether it comes to its end, are those of the
      ledger. */
  lemma {:induction false} RunIsLedger(vnodes: bool, ops: seq<Op>)
    requires WellFormed(ops) && NoneStranded(vnodes, ops)
    ensures Same(Run(vnodes, ops), LedgerRun(vnodes, ops))
  {
    if ops != [] {
      RunIsLedger(vnodes, Init(ops));
      if Run(vnodes, Init(ops)).Running? {
        RunPlaces(vnodes, Init(ops));
        hide Step, Entered, Ready, Placed, AllKept;
        StepIsEntered(Run(vnodes, Init(ops)).state, Reference(Init(ops)), LedgerRun(vnodes, Init(ops)).ledger, Last(ops));
      }
    }
  }
}
