/**
 The replies "created" and "overridden". They are printed when an edit is executed, possibly long after it was
 requested and on another server; still they are those of the plain map at the time of the request.
 */
module Replies {
  import opened Hashing
  import opened Wrappers
  import opened Ring
  import opened ServerModel
  import opened Migration
  import opened SystemModel
  import opened SystemRuns
  import opened Seats
  import opened Refinement

  /** The replies to edits of one name, in order. */
  function About(name: CString, rs: seq<Reply>): seq<Reply> {
    if rs == [] then []
    else (if rs[0] == Created(name) || rs[0] == Overridden(name) then [rs[0]] else []) + About(name, rs[1..])
  }

  lemma {:induction false} AboutConcat(name: CString, a: seq<Reply>, b: seq<Reply>)
    ensures About(name, a + b) == About(name, a) + About(name, b)
  {
    if a == [] {
      assert a + b == b;
    } else {
      assert (a + b)[1..] == a[1..] + b;
      AboutConcat(name, a[1..], b);
    }
  }

  /** The replies to edits of a name that still wait on a server. */
  function Pending(server: Server, name: CString): seq<Reply> {
    About(name, EditReplies(server.db, server.queue))
  }

  /** They depend on one bit of the database. */
  lemma {:induction false} AboutDepends(name: CString, m: Documents, m': Documents, q: seq<Edit>)
    requires name in m <==> name in m'
    ensures About(name, EditReplies(m, q)) == About(name, EditReplies(m', q))
    decreases |q|
  {
    if q != [] {
      AboutDepends(name, m[q[0].name := q[0].content], m'[q[0].name := q[0].content], q[1..]);
    }
  }

  lemma {:induction false} NothingPending(name: CString, m: Documents, q: seq<Edit>)
    requires forall e :: e in q ==> e.name != name
    ensures About(name, EditReplies(m, q)) == []
    decreases |q|
  {
    if q != [] {
      NothingPending(name, m[q[0].name := q[0].content], q[1..]);
    }
  }

  lemma {:induction false} NoEditOf(name: CString, m: Documents, q: seq<Edit>)
    requires name !in ApplyEdits(m, q)
    ensures forall e :: e in q ==> e.name != name
    decreases |q|
  {
    if q != [] {
      ApplyEditsKeys(m, q);
      NoEditOf(name, m[q[0].name := q[0].content], q[1..]);
    }
  }

  lemma NotEffectiveNotPending(server: Server, name: CString, docs: Documents)
    requires name !in Effective(server)
    ensures Pending(server, name) == [] && Pending(Receive(server, docs), name) == []
  {
    NoEditOf(name, server.db, server.queue);
    NothingPending(name, server.db, server.queue);
    NothingPending(name, server.db + docs, server.queue);
  }

  /** No server but r knows the document, or has a pending edit of it. */
  ghost predicate Sits(servers: Servers, name: CString, r: UInt32) {
    && AllCoherent(servers) && r in servers
    && forall q :: q in servers && q != r ==> name !in Effective(servers[q])
  }

  /** A migration prints what was pending, if the document sits on the sender, and nothing otherwise. */
  lemma MigrateReplies(servers: Servers, p: UInt32, id: UInt32, policy: Policy, dests: seq<UInt32>,
                       name: CString, r: UInt32)
    requires p in servers && servers[p].cap > 0 && Suits(policy, |dests|) && Sits(servers, name, r)
    requires r == p ==> GoesTo(policy, dests, name) != Some(p)
    ensures var (after, out) := Migrate(servers, p, id, policy, dests);
            var r' := if r == p && GoesTo(policy, dests, name).Some? then GoesTo(policy, dests, name).value else r;
            r' in servers ==> About(name, Answers(out)) + Pending(after[r'], name) == Pending(servers[r], name)
  {
    hide GoesTo, Suits, Coherent;
    SolveQueueIsEager(servers[p], id);
    var sent := SolveQueue(servers[p], id).0;
    var goes := GoesTo(policy, dests, name);
    hide SolveQueue;
    if r != p {
      NotEffectiveNotPending(servers[p], name, map[]);
      AboutDepends(name, servers[r].db, servers[r].db + Arriving(policy, dests, sent.db, r), servers[r].queue);
    } else if goes.Some? && goes.value in servers {
      NotEffectiveNotPending(servers[goes.value], name, Arriving(policy, dests, sent.db, goes.value));
    }
  }

  // While a server is added, the pending edits of a name are on the server where its document sits.

  ghost function PendingAt(s: State, id: UInt32, name: CString): seq<Reply> {
    if s.ring == map[] then []
    else
      var seat := Seat(s.ring, id, HashString(name));
      if seat in s.servers then Pending(s.servers[seat], name) else []
  }

  lemma SeatIsServer(s: State, id: UInt32, name: CString)
    requires Shape(s, {id}) && id in s.servers && s.ring != map[]
    ensures Seat(s.ring, id, HashString(name)) in s.servers
  {
    hide HashString, LabelsOf, Physical, CarriedOff, Distance;
  }

  lemma SeatSits(s: State, m: Documents, id: UInt32, name: CString)
    requires Shape(s, {id}) && id in s.servers && SpreadAs(s, m, id) && s.ring != map[]
    ensures Sits(s.servers, name, Seat(s.ring, id, HashString(name)))
  {
    hide HashString, Seat, Coherent, Effective, Shape;
    SeatIsServer(s, id, name);
  }

  lemma HandOverSeat(s: State, l: UInt32, point: UInt32, name: CString)
    requires Insertable(s, l, point) && HandsOver(s, l, point)
    ensures s.ring != map[]
    ensures var ring, id, seat := s.ring[l := point], Physical(l), Seat(s.ring, Physical(l), HashString(name));
            var src := Successor(ring, l);
            && HasLabels(ring, s.vnodes, Physical(src)) && Physical(src) in s.servers
            && var goes := GoesTo(AddPolicy(s.vnodes, ring, src, l), [id], name);
               && goes != Some(Physical(src))
               && Seat(ring, id, HashString(name)) == if seat == Physical(src) && goes.Some? then goes.value else seat
  {
    HandsOverSource(s, l, point);
    SeatStep(s, l, point, HashString(name));
    hide HashString, Seat, Physical, Decide, AddPolicy, HasLabels, Shape, Successor, Injective, LabelsOf;
  }

  lemma HandOverReplies(s: State, m: Documents, l: UInt32, point: UInt32, name: CString)
    requires Insertable(s, l, point) && SpreadAs(s, m, Physical(l)) && HandsOver(s, l, point)
    ensures var r := AddLabel(s, l, point);
            About(name, Answers(r.1)) + PendingAt(r.0, Physical(l), name) == PendingAt(s, Physical(l), name)
  {
    hide HashString, Seat, SpreadAs, Physical, GoesTo, AddPolicy, HasLabels, Pending, Migrate, Successor, Sits;
    hide About, Answers, Injective, LabelsOf;
    HandOverSeat(s, l, point, name);
    SeatSits(s, m, Physical(l), name);
    SeatIsServer(s, Physical(l), name);
    SeatIsServer(AddLabel(s, l, point).0, Physical(l), name);
    hide Shape;
    var ring, id := s.ring[l := point], Physical(l);
    var src := Successor(ring, l);
    MigrateReplies(s.servers, Physical(src), src, AddPolicy(s.vnodes, ring, src, l), [id], name,
                   Seat(s.ring, id, HashString(name)));
  }

  lemma AddLabelReplies(s: State, m: Documents, l: UInt32, point: UInt32, name: CString)
    requires Insertable(s, l, point) && SpreadAs(s, m, Physical(l))
    ensures var r := AddLabel(s, l, point);
            About(name, Answers(r.1)) + PendingAt(r.0, Physical(l), name) == PendingAt(s, Physical(l), name)
  {
    hide HashString, Seat, SpreadAs, Pending, Decide, AddPolicy, HasLabels, LabelsOf, Migrate;
    if s.ring == map[] {
      FirstLabelReplies(s, m, l, point, name);
    } else if HandsOver(s, l, point) {
      HandOverReplies(s, m, l, point, name);
    } else {
      SeatStep(s, l, point, HashString(name));
      NoMessages(name);
    }
  }

  lemma FirstLabelReplies(s: State, m: Documents, l: UInt32, point: UInt32, name: CString)
    requires Insertable(s, l, point) && SpreadAs(s, m, Physical(l)) && s.ring == map[]
    ensures var r := AddLabel(s, l, point);
            About(name, Answers(r.1)) == [] && PendingAt(r.0, Physical(l), name) == []
  {
    hide HashString, Distance, LabelsOf, HasLabels, Pending;
    assert s.ring[l := point] - {l} == map[];
    var seat := Seat(s.ring[l := point], Physical(l), HashString(name));
    if seat in s.servers {
      NotEffectiveNotPending(s.servers[seat], name, map[]);
    }
  }

  lemma {:induction false} AddLabelsReplies(s: State, id: UInt32, labels: seq<UInt32>, m: Documents, name: CString)
    requires Adding(s, id, labels) && SpreadAs(s, m, id)
    ensures var r := AddLabels(s, id, labels);
            About(name, Answers(r.1)) + PendingAt(r.0, id, name) == PendingAt(s, id, name)
    decreases |labels|
  {
    hide HashString, HashUint, About, PendingAt, SpreadAs;
    if labels == [] {
      assert About(name, Answers([])) == [] by { NoMessages(name); }
    } else {
      var l := labels[0];
      var (s1, ms) := AddHashed(s, id, labels);
      hide Adding, Insertable, AddLabel, Answers;
      AddLabelSpreads(s, m, l, HashUint(l));
      AddLabelReplies(s, m, l, HashUint(l), name);
      AddLabelsReplies(s1, id, labels[1..], m, name);
      var more := AddLabels(s1, id, labels[1..]);
      TwoParts(name, ms, more.1);
      Reassociate(About(name, Answers(ms)), About(name, Answers(more.1)), PendingAt(more.0, id, name));
    }
  }

  lemma NoMessages(name: CString)
    ensures About(name, Answers([])) == []
  {
  }

  lemma Reassociate(a: seq<Reply>, b: seq<Reply>, c: seq<Reply>)
    ensures (a + b) + c == a + (b + c)
  {
  }

  lemma TwoParts(name: CString, a: seq<Message>, b: seq<Message>)
    ensures About(name, Answers(a + b)) == About(name, Answers(a)) + About(name, Answers(b))
  {
    AnswersConcat(a, b);
    AboutConcat(name, Answers(a), Answers(b));
  }

  // Between two requests, they are on the server that serves the name.

  ghost function PendingHome(s: State, name: CString): seq<Reply> {
    if s.ring == map[] || HomeOf(s.ring, name) !in s.servers then [] else Pending(s.servers[HomeOf(s.ring, name)], name)
  }

  lemma HomeSits(s: State, m: Documents, name: CString)
    requires Ready(s) && Placed(s, m) && s.ring != map[]
    ensures Sits(s.servers, name, HomeOf(s.ring, name))
  {
    hide HashString, HomeOf, Coherent, Effective;
    HomeIsServer(s, name);
  }

  lemma UnknownIsNotPending(s: State, m: Documents, name: CString, p: UInt32)
    requires Placed(s, m) && name !in m && p in s.servers
    ensures Pending(s.servers[p], name) == []
  {
    hide HomeOf;
    NotEffectiveNotPending(s.servers[p], name, map[]);
  }

  lemma AddServerReplies(s: State, m: Documents, id: UInt32, cap: nat, name: CString)
    requires Ready(s) && Placed(s, m) && id < 100000 && id !in s.servers && cap > 0
    requires NoneStrandedBy(AddServerLabels(s, id, cap).0.ring, m, id)
    ensures var (t, out) := AddServerLabels(s, id, cap);
            About(name, Answers(out)) + PendingHome(t, name) == PendingHome(s, name)
  {
    hide HashString, HashUint, Placed, SpreadAs, Ready, Adding, About, Answers, Pending;
    var s0 := WithNewServer(s, id, cap);
    NewServerIsBusy(s, id, cap);
    NewServerSpreads(s, m, id, cap);
    AddLabelsReplies(s0, id, LabelList(s.vnodes, id), m, name);
    SamePendingAtFirst(s, id, cap, name);
    SamePendingAtLast(s, m, id, cap, name);
    hide PendingAt, PendingHome, AddLabels, WithNewServer;
  }

  lemma SamePendingAtFirst(s: State, id: UInt32, cap: nat, name: CString)
    requires Ready(s) && id !in s.servers
    ensures PendingAt(WithNewServer(s, id, cap), id, name) == PendingHome(s, name)
  {
    hide HashString, Seat, HomeOf;
    if s.ring != map[] {
      SeatAtFirst(s, id, name);
    }
  }

  lemma SamePendingAtLast(s: State, m: Documents, id: UInt32, cap: nat, name: CString)
    requires Ready(s) && Placed(s, m) && id < 100000 && id !in s.servers && cap > 0
    requires NoneStrandedBy(AddServerLabels(s, id, cap).0.ring, m, id)
    ensures var t := AddServerLabels(s, id, cap).0; PendingAt(t, id, name) == PendingHome(t, name)
  {
    hide HashString, HashUint, Placed, Seat, Stranded, HomeOf, Pending;
    AddPlacesExactly(s, m, id, cap);
    var t := AddServerLabels(s, id, cap).0;
    hide AddServerLabels;
    if name in m {
      StrandedMeansElsewhere(t.ring, id, name);
    } else {
      forall p | p in t.servers
        ensures Pending(t.servers[p], name) == []
      {
        UnknownIsNotPending(t, m, name, p);
      }
    }
  }

  lemma RemovalReplies(s: State, m: Documents, p: UInt32, name: CString)
    requires Ready(s) && Placed(s, m) && p in s.servers && s.servers.Keys != {p}
    ensures var r := RemoveLabels(s, p);
            r.Running? && About(name, Answers(r.out)) + PendingHome(r.state, name) == PendingHome(s, name)
  {
    hide HashString, HashUint, Placed, About, Answers, Pending, GoesTo, HomeOf, LabelsOf, Physical, Distance, Followers, RemovalPolicy;
    OthersOnRing(s, p);
    ForeignMeansAnother(s, p);
    EmptyTogether(s);
    HomeSits(s, m, name);
    HomeIsServer(s, name);
    RemovalRoute(s, p, name);
    MigrateReplies(s.servers, p, p, RemovalPolicy(s, p), PhysicalOf(Followers(s, p)), name, HomeOf(s.ring, name));
    HomeIsServer(RemoveLabels(s, p).state, name);
    hide Migrate, Shape, Injective;
  }

  /** A document of the leaving server goes to its new home; the others are at home already. */
  lemma RemovalRoute(s: State, p: UInt32, name: CString)
    requires Ready(s) && p in s.servers && s.ring - LabelsOf(s.vnodes, p) != map[] && s.ring != map[]
    ensures var goes := GoesTo(RemovalPolicy(s, p), PhysicalOf(Followers(s, p)), name);
            var rest := s.ring - LabelsOf(s.vnodes, p);
            && (HomeOf(s.ring, name) == p ==> goes != Some(p))
            && HomeOf(rest, name) == if HomeOf(s.ring, name) == p && goes.Some? then goes.value else HomeOf(s.ring, name)
  {
    hide HashString, HashUint, Followers, RemovalPolicy, GoesTo, HomeOf, LabelsOf, Physical, Injective;
    var m: Documents := map[name := []];
    RemovalAffects(s, p, m);
    assert name in m;
    FollowersAre(s, p);
    hide Shape;
  }

  lemma GetReplies(s: State, m: Documents, name: CString, asked: CString)
    requires Ready(s) && Placed(s, m)
    ensures var r := ForwardGet(s, asked);
            About(name, Answers(r.out)) + PendingHome(r.state, name) == PendingHome(s, name)
  {
    hide HashString, HashUint, Placed, Physical, Owner, About, Answers, Pending, Fetch, OnlyServerChanges;
    if s.ring == map[] {
      NoMessages(name);
    } else {
      HomeSits(s, m, name);
      HomeSits(s, m, asked);
      FetchReplies(s.servers[HomeOf(s.ring, asked)], Owner(s.ring, HashString(asked)), asked, name);
      if HomeOf(s.ring, asked) != HomeOf(s.ring, name) {
        NotEffectiveNotPending(s.servers[HomeOf(s.ring, asked)], name, map[]);
      }
    }
  }

  lemma FetchReplies(server: Server, id: UInt32, asked: CString, name: CString)
    requires Coherent(server)
    ensures var r := Fetch(server, id, asked);
            About(name, Answers(r.1)) == Pending(server, name) && Pending(r.0, name) == []
  {
    SolveQueueIsEager(server, id);
    var (s1, ms) := SolveQueue(server, id);
    GetKeepsCoherent(s1, id, asked);
    var m := GetDocument(s1, id, asked).1;
    hide SolveQueue, GetDocument, Coherent;
    TwoParts(name, ms, [m]);
    assert [m][1..] == [];
    assert About(name, Answers([m])) == [];
  }

  lemma EditAddsPending(server: Server, id: UInt32, e: Edit, name: CString)
    ensures Pending(Enqueue(server, id, e).0, name)
         == Pending(server, name) + if e.name == name then [EditReply(Effective(server), e)] else []
  {
    ApplyEditsAppend(server.db, server.queue, e);
    AboutConcat(name, EditReplies(server.db, server.queue), [EditReply(Effective(server), e)]);
    assert [EditReply(Effective(server), e)][1..] == [];
  }

  /** The reply that an edit has to get, by the plain map. */
  function Due(m: Documents, servers: set<UInt32>, op: Op, name: CString): seq<Reply> {
    if op.EditRequest? && op.name == name && servers != {} then [EditReply(m, Edit(name, op.content))] else []
  }

  lemma EditReplied(s: State, m: Documents, name: CString, e: Edit)
    requires Ready(s) && Placed(s, m) && ForwardEdit(s, e).Running?
    ensures var r := ForwardEdit(s, e);
            About(name, Answers(r.out)) + PendingHome(r.state, name)
              == PendingHome(s, name) + Due(m, s.servers.Keys, EditRequest(e.name, e.content), name)
  {
    hide HashString, HashUint, Physical, Owner, Pending, Enqueue, Effective, OnlyServerChanges, Coherent, Answers, About;
    EmptyTogether(s);
    if s.ring == map[] {
      NoMessages(name);
    } else {
      var p, l := HomeOf(s.ring, e.name), Owner(s.ring, HashString(e.name));
      HomeIsServer(s, e.name);
      HomeIsServer(s, name);
      EditAddsPending(s.servers[p], l, e, name);
      QueuedIsNoAnswer(s.servers[p], l, e, name);
      assert EditReply(Owned(m, s.ring, p), e) == EditReply(m, e);
    }
  }

  lemma QueuedIsNoAnswer(server: Server, id: UInt32, e: Edit, name: CString)
    ensures About(name, Answers([Enqueue(server, id, e).1])) == []
  {
    assert [Enqueue(server, id, e).1][1..] == [];
  }

  /** A request prints replies that were pending, and adds the one that it makes due. */
  lemma StepReplies(s: State, m: Documents, op: Op, name: CString)
    requires Ready(s) && Placed(s, m) && Admissible(s.servers.Keys, op) && Step(s, op).Running?
    requires StrandsNone(m, Step(s, op).state.ring, op) && !(op.RemoveServer? && s.servers.Keys == {op.id})
    ensures var r := Step(s, op);
            About(name, Answers(r.out)) + PendingHome(r.state, name)
              == PendingHome(s, name) + Due(m, s.servers.Keys, op, name)
  {
    hide Placed, Ready, PendingHome, About, Answers, NoneStrandedBy, AddServerLabels, RemoveLabels, ForwardEdit, ForwardGet;
    match op
    case AddServer(id, cap) =>
      AddServerReplies(s, m, id, cap, name);
    case RemoveServer(id) =>
      RemovalReplies(s, m, id, name);
    case EditRequest(n, content) =>
      EditReplied(s, m, name, Edit(n, content));
    case GetRequest(n) =>
      GetReplies(s, m, name, n);
  }

  /** The replies to the edits of a name, by the plain map at the time of each request. */
  function AllDue(ops: seq<Op>, name: CString): seq<Reply> {
    if ops == [] then [] else AllDue(Init(ops), name) + Due(Reference(Init(ops)), Alive(Init(ops)), Last(ops), name)
  }

  /** What has been printed about a name, followed by what is pending on the server that serves it, is what is
      due: no reply is lost, doubled, reordered or changed by a migration. */
  lemma {:induction false} RepliesAreDue(vnodes: bool, ops: seq<Op>, name: CString)
    requires WellFormed(ops) && NoneStranded(vnodes, ops) && KeepsAServer(ops) && Run(vnodes, ops).Running?
    ensures var r := Run(vnodes, ops);
            About(name, Answers(r.out)) + PendingHome(r.state, name) == AllDue(ops, name)
  {
    if ops == [] {
      NoMessages(name);
    } else {
      var init, op := Init(ops), Last(ops);
      RepliesAreDue(vnodes, init, name);
      RunPlaces(vnodes, init);
      ReadyRing(Run(vnodes, ops).state);
      var s := Run(vnodes, init).state;
      hide Ready, Placed, Step, StrandsNone, PendingHome, About, Answers, Reference, RingOf;
      StepReplies(s, Reference(init), op, name);
      TwoParts(name, Run(vnodes, init).out, Step(s, op).out);
      hide Run, NoneStranded, KeepsAServer, WellFormed, Alive, Init, Last, Due;
      Reassociate(About(name, Answers(Run(vnodes, init).out)), About(name, Answers(Step(s, op).out)),
                  PendingHome(Step(s, op).state, name));
      Reassociate(About(name, Answers(Run(vnodes, init).out)), PendingHome(s, name),
                  Due(Reference(init), Alive(init), op, name));
    }
  }

  lemma GetLeavesNonePending(s: State, m: Documents, name: CString)
    requires Ready(s) && Placed(s, m)
    ensures PendingHome(ForwardGet(s, name).state, name) == []
  {
    hide HashString, HashUint, Physical, Owner, About, Answers, Pending, Fetch, OnlyServerChanges, Coherent, Effective;
    if s.ring != map[] {
      HomeIsServer(s, name);
      FetchReplies(s.servers[HomeOf(s.ring, name)], Owner(s.ring, HashString(name)), name, name);
    }
  }

  lemma AskedRun(vnodes: bool, ops: seq<Op>, name: CString, asked: seq<Op>)
    requires WellFormed(ops) && NoneStranded(vnodes, ops) && KeepsAServer(ops) && Run(vnodes, ops).Running?
    requires asked == ops + [GetRequest(name)]
    ensures WellFormed(asked) && NoneStranded(vnodes, asked) && KeepsAServer(asked) && Run(vnodes, asked).Running?
    ensures Run(vnodes, asked).state == ForwardGet(Run(vnodes, ops).state, name).state
    ensures AllDue(asked, name) == AllDue(ops, name)
  {
    hide Ready, ForwardGet, AddServerLabels, RemoveLabels, ForwardEdit, RingOf;
    RunStep(vnodes, ops, GetRequest(name), asked);
    assert Init(asked) == ops && Last(asked) == GetRequest(name);
    hide Run, Init, Last, Alive, Reference;
  }

  /** Once a name has been asked for, every reply to its edits has been printed, in order and as due. */
  lemma RepliesArePrinted(vnodes: bool, ops: seq<Op>, name: CString, asked: seq<Op>)
    requires WellFormed(ops) && NoneStranded(vnodes, ops) && KeepsAServer(ops) && Run(vnodes, ops).Running?
    requires asked == ops + [GetRequest(name)]
    ensures WellFormed(asked) && About(name, Answers(Run(vnodes, asked).out)) == AllDue(ops, name)
  {
    hide Ready, Placed, ForwardGet, PendingHome, About, Answers, NoneStranded, AllDue;
    AskedRun(vnodes, ops, name, asked);
    RepliesAreDue(vnodes, asked, name);
    RunPlaces(vnodes, ops);
    GetLeavesNonePending(Run(vnodes, ops).state, Reference(ops), name);
  }
}
