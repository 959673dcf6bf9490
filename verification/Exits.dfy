/**
 When the program ends before its requests do.
 */
module Exits {
  import opened Hashing
  import opened Ring
  import opened ServerModel
  import opened Migration
  import opened SystemModel
  import opened SystemRuns

  /** Additions and gets never end the program. A removal does exactly if it takes the last server, with virtual
      nodes on and documents left; an edit, if the queue of the owner is full. */
  lemma StepExitsExactly(s: State, m: Documents, op: Op)
    requires Ready(s) && Placed(s, m) && Admissible(s.servers.Keys, op)
    ensures Step(s, op).Exited? <==>
            match op
            case EditRequest(name, _) =>
              s.ring != map[] && HomeOf(s.ring, name) in s.servers
              && |s.servers[HomeOf(s.ring, name)].queue| == 1000
            case RemoveServer(id) => s.vnodes && s.servers.Keys == {id} && m != map[]
            case _ => false
  {
    match op
    case EditRequest(name, content) =>
      if s.ring != map[] {
        HomeIsServer(s, name);
      }
    case RemoveServer(id) =>
      RemovalKeepsPlacement(s, id, m);
    case _ =>
  }

  ghost predicate QueuesUpTo(servers: Servers, n: nat) {
    forall p :: p in servers ==> |servers[p].queue| <= n
  }

  lemma {:induction false} SolveQueueEmpties(s: Server, id: UInt32)
    requires s.cap > 0
    ensures SolveQueue(s, id).0.queue == []
    decreases |s.queue|
  {
    if s.queue != [] {
      SolveQueueEmpties(EditDocument(s.(queue := s.queue[1..]), id, s.queue[0]).0, id);
    }
  }

  lemma MigrationKeepsQueues(servers: Servers, p: UInt32, id: UInt32, policy: Policy, dests: seq<UInt32>, n: nat)
    requires p in servers && servers[p].cap > 0 && Suits(policy, |dests|) && QueuesUpTo(servers, n)
    ensures QueuesUpTo(Migrate(servers, p, id, policy, dests).0, n)
  {
    SolveQueueEmpties(servers[p], id);
    hide SolveQueue, Suits;
  }

  lemma {:induction false} AddLabelsKeepQueues(s: State, id: UInt32, labels: seq<UInt32>, n: nat)
    requires Adding(s, id, labels) && QueuesUpTo(s.servers, n)
    ensures QueuesUpTo(AddLabels(s, id, labels).0.servers, n)
    decreases |labels|
  {
    hide HashUint;
    if labels != [] {
      var s1 := AddHashed(s, id, labels).0;
      AddLabelKeepsQueues(s, labels[0], HashUint(labels[0]), n);
      hide AddLabel, Insertable, Adding, QueuesUpTo;
      AddLabelsKeepQueues(s1, id, labels[1..], n);
    }
  }

  lemma AddLabelKeepsQueues(s: State, l: UInt32, point: UInt32, n: nat)
    requires Insertable(s, l, point) && QueuesUpTo(s.servers, n)
    ensures QueuesUpTo(AddLabel(s, l, point).0.servers, n)
  {
    var ring := s.ring[l := point];
    var src := Successor(ring, l);
    var p := Physical(src);
    InsertKeepsLabels(s, l, point);
    if p != Physical(l) {
      assert HasLabels(ring, s.vnodes, p);
      hide Physical, Successor, AddPolicy, QueuesUpTo, Migrate;
      MigrationKeepsQueues(s.servers, p, src, AddPolicy(s.vnodes, ring, src, l), [Physical(l)], n);
    }
  }

  lemma AddKeepsQueues(s: State, id: UInt32, cap: nat, n: nat)
    requires Ready(s) && Admissible(s.servers.Keys, AddServer(id, cap)) && QueuesUpTo(s.servers, n)
    ensures QueuesUpTo(AddServerLabels(s, id, cap).0.servers, n)
  {
    NewServerIsBusy(s, id, cap);
    hide Adding, Ready;
    AddLabelsKeepQueues(WithNewServer(s, id, cap), id, LabelList(s.vnodes, id), n);
  }

  lemma RemovalKeepsQueues(s: State, id: UInt32, n: nat)
    requires Ready(s) && id in s.servers && QueuesUpTo(s.servers, n) && RemoveLabels(s, id).Running?
    ensures QueuesUpTo(RemoveLabels(s, id).state.servers, n)
  {
    hide HashUint, Distance, LabelsOf, Physical, Followers, RemovalPolicy, Migrate, SolveQueue;
    MigrationKeepsQueues(s.servers, id, id, RemovalPolicy(s, id), PhysicalOf(Followers(s, id)), n);
  }

  lemma StepKeepsQueues(s: State, op: Op, n: nat)
    requires Ready(s) && Admissible(s.servers.Keys, op) && QueuesUpTo(s.servers, n) && Step(s, op).Running?
    ensures QueuesUpTo(Step(s, op).state.servers, if op.EditRequest? then n + 1 else n)
  {
    hide HashString, HashUint, Distance, LabelsOf, Physical, OnlyServerChanges, AddServerLabels, RemoveLabels;
    match op
    case AddServer(id, cap) =>
      AddKeepsQueues(s, id, cap, n);
    case RemoveServer(id) =>
      RemovalKeepsQueues(s, id, n);
    case EditRequest(name, content) =>
    case GetRequest(name) =>
      if s.ring != map[] {
        GetKeepsQueues(s, name, n);
      }
  }

  lemma GetKeepsQueues(s: State, name: CString, n: nat)
    requires Ready(s) && s.ring != map[] && QueuesUpTo(s.servers, n)
    ensures QueuesUpTo(ForwardGet(s, name).state.servers, n)
  {
    hide HashString, HashUint, Distance, LabelsOf, Physical, OnlyServerChanges;
    var l := Owner(s.ring, HashString(name));
    SolveQueueEmpties(s.servers[Physical(l)], l);
    hide SolveQueue;
  }

  function EditCount(ops: seq<Op>): nat {
    if ops == [] then 0 else EditCount(Init(ops)) + if Last(ops).EditRequest? then 1 else 0
  }

  lemma {:induction false} RunKeepsQueues(vnodes: bool, ops: seq<Op>)
    requires WellFormed(ops) && Run(vnodes, ops).Running?
    ensures QueuesUpTo(Run(vnodes, ops).state.servers, EditCount(ops))
  {
    if ops != [] {
      RunKeepsQueues(vnodes, Init(ops));
      hide Step, Ready, QueuesUpTo;
      StepKeepsQueues(Run(vnodes, Init(ops)).state, Last(ops), EditCount(Init(ops)));
    }
  }

  lemma EditFits(s: State, name: CString, content: CString, n: nat)
    requires Ready(s) && QueuesUpTo(s.servers, n) && n < 1000
    ensures Step(s, EditRequest(name, content)).Running?
  {
    hide HashString, HashUint, Physical, LabelsOf;
  }

  lemma RemovalFits(s: State, id: UInt32)
    requires Ready(s) && id in s.servers && s.servers.Keys != {id}
    ensures Step(s, RemoveServer(id)).Running?
  {
    OthersOnRing(s, id);
    ForeignMeansAnother(s, id);
  }

  /** A run of at most 1000 edits that never removes the last server comes to its end, wherever its documents
      are. */
  lemma {:induction false} RunsToTheEnd(vnodes: bool, ops: seq<Op>)
    requires WellFormed(ops) && KeepsAServer(ops) && EditCount(ops) <= 1000
    ensures Run(vnodes, ops).Running?
  {
    if ops != [] {
      var init, op := Init(ops), Last(ops);
      RunsToTheEnd(vnodes, init);
      RunKeepsQueues(vnodes, init);
      var s := Run(vnodes, init).state;
      hide Ready, QueuesUpTo, RemoveLabels, ForwardEdit, ForwardGet, AddServerLabels;
      match op
      case EditRequest(name, content) => EditFits(s, name, content, EditCount(init));
      case RemoveServer(id) => RemovalFits(s, id);
      case _ =>
    }
  }
}
