/**
 Runs of the system: sequences of requests from the empty ring on, compared with a plain map.
 */
module SystemRuns {
  import opened Hashing
  import opened Sequences
  import opened Ring
  import opened ServerModel
  import opened SystemModel

  datatype Op =
    | AddServer(id: UInt32, cap: nat)
    | RemoveServer(id: UInt32)
    | EditRequest(name: CString, content: CString)
    | GetRequest(name: CString)

  /** Every label stands at its hash. */
  ghost predicate Hashed(ring: Points) {
    forall l :: l in ring ==> ring[l] == HashUint(l)
  }

  /** The states between two requests. */
  ghost predicate Ready(s: State) {
    Shape(s, {}) && Hashed(s.ring)
  }

  lemma FreshLabelIsInsertable(s: State, id: UInt32)
    requires Shape(s, {Physical(id)}) && Hashed(s.ring) && Physical(id) in s.servers
    requires id in LabelsOf(s.vnodes, Physical(id)) && id !in s.ring
    ensures Insertable(s, id, HashUint(id))
  {
    hide HashUint, Physical, LabelsOf, HasLabels;
    forall l | l in s.ring
      ensures s.ring[l] != HashUint(id)
    {
      HashUintInjective(l, id);
    }
  }

  /** Server id still has to get the given labels. */
  ghost predicate Adding(s: State, id: UInt32, labels: seq<UInt32>) {
    && Shape(s, {id}) && Hashed(s.ring) && id in s.servers
    && (forall l :: l in LabelsOf(s.vnodes, id) <==> l in labels || (l in s.ring && Physical(l) == id))
    && Distinct(labels) && (forall l :: l in labels ==> l !in s.ring)
  }

  /** Inserts label l of server id at its hash. */
  ghost function AddHashed(s: State, id: UInt32, labels: seq<UInt32>): (r: (State, seq<Message>))
    requires Adding(s, id, labels) && labels != []
    ensures Insertable(s, labels[0], HashUint(labels[0])) && Physical(labels[0]) == id
    ensures r == AddLabel(s, labels[0], HashUint(labels[0]))
    ensures Adding(r.0, id, labels[1..])
  {
    var l := labels[0];
    LabelsShareServer(s.vnodes, id);
    FreshLabelIsInsertable(s, l);
    assert labels == [l] + labels[1..];
    AddLabel(s, l, HashUint(l))
  }

  /** Inserts the given labels of server id one after the other. */
  ghost function AddLabels(s: State, id: UInt32, labels: seq<UInt32>): (r: (State, seq<Message>))
    requires Adding(s, id, labels)
    ensures Adding(r.0, id, []) && r.0.vnodes == s.vnodes && r.0.servers.Keys == s.servers.Keys
    ensures CapacitiesStay(s.servers, r.0.servers)
    decreases |labels|
  {
    if labels == [] then (s, [])
    else
      var (s1, ms) := AddHashed(s, id, labels);
      var (s2, ms') := AddLabels(s1, id, labels[1..]);
      (s2, ms + ms')
  }

  function WithNewServer(s: State, id: UInt32, cap: nat): State {
    s.(servers := s.servers[id := Server(map[], [], cap, [])])
  }

  lemma LabelListIs(vnodes: bool, id: UInt32)
    requires id < 100000
    ensures LabelList(vnodes, id) == if vnodes then [id, id + 100000, id + 200000] else [id]
  {
  }

  lemma LabelListOnce(vnodes: bool, id: UInt32)
    requires id < 100000
    ensures Distinct(LabelList(vnodes, id))
    ensures forall l :: l in LabelsOf(vnodes, id) <==> l in LabelList(vnodes, id)
  {
  }

  lemma {:induction false} NewServerIsBusy(s: State, id: UInt32, cap: nat)
    requires Ready(s) && id < 100000 && id !in s.servers && cap > 0
    ensures Adding(WithNewServer(s, id, cap), id, LabelList(s.vnodes, id))
  {
    hide Physical, LabelsOf, LabelList;
    var s0 := WithNewServer(s, id, cap);
    LabelsShareServer(s.vnodes, id);
    LabelListOnce(s.vnodes, id);
    forall p | p in s0.servers && p != id
      ensures HasLabels(s0.ring, s0.vnodes, p)
    {
      assert HasLabels(s.ring, s.vnodes, p);
    }
  }

  lemma AllLabelsAdded(s: State, id: UInt32)
    requires Adding(s, id, [])
    ensures Ready(s)
  {
  }

  ghost predicate HasCapacity(servers: map<UInt32, Server>, p: UInt32, cap: nat) {
    p in servers && servers[p].cap == cap
  }

  lemma NewCapacity(s: State, id: UInt32, cap: nat, after: map<UInt32, Server>)
    requires id !in s.servers && id in after && CapacitiesStay(WithNewServer(s, id, cap).servers, after)
    ensures HasCapacity(after, id, cap) && CapacitiesStay(s.servers, after)
  {
  }

  /** Adds a server under one label, or under three one after the other. */
  ghost function AddServerLabels(s: State, id: UInt32, cap: nat): (r: (State, seq<Message>))
    requires Ready(s) && id < 100000 && id !in s.servers && cap > 0
    ensures Ready(r.0) && r.0.vnodes == s.vnodes && r.0.servers.Keys == s.servers.Keys + {id}
    ensures HasCapacity(r.0.servers, id, cap) && CapacitiesStay(s.servers, r.0.servers)
  {
    NewServerIsBusy(s, id, cap);
    var r := AddLabels(WithNewServer(s, id, cap), id, LabelList(s.vnodes, id));
    AllLabelsAdded(r.0, id);
    NewCapacity(s, id, cap, r.0.servers);
    r
  }

  /** What the program demands of a request. */
  ghost predicate Admissible(servers: set<UInt32>, op: Op) {
    match op
    case AddServer(id, cap) => id < 100000 && id !in servers && cap > 0
    case RemoveServer(id) => id in servers
    case _ => true
  }

  /** One request to the load balancer. */
  ghost function Step(s: State, op: Op): (r: Outcome)
    requires Ready(s) && Admissible(s.servers.Keys, op)
    ensures r.Running? ==> Ready(r.state) && r.state.vnodes == s.vnodes
                           && r.state.servers.Keys == ServersAfter(s.servers.Keys, op)
  {
    match op
    case AddServer(id, cap) => var (t, ms) := AddServerLabels(s, id, cap); Running(t, ms)
    case RemoveServer(id) => RemoveLabels(s, id)
    case EditRequest(name, content) => ForwardEdit(s, Edit(name, content))
    case GetRequest(name) => ForwardGet(s, name)
  }

  /** Which servers are there after a request. */
  function ServersAfter(servers: set<UInt32>, op: Op): set<UInt32> {
    match op
    case AddServer(id, _) => servers + {id}
    case RemoveServer(id) => servers - {id}
    case _ => servers
  }

  /** Nothing but the server that serves the name has changed, and that one has kept its capacity. */
  ghost predicate OnlyServerChanges(s: State, t: State, name: CString) {
    && t.vnodes == s.vnodes && t.ring == s.ring && t.servers.Keys == s.servers.Keys
    && forall p :: p in s.servers ==>
         && t.servers[p].cap == s.servers[p].cap
         && (s.ring == map[] || p != Physical(Owner(s.ring, HashString(name))) ==> t.servers[p] == s.servers[p])
  }

  /** An edit goes to the queue of the owner of its name; a full queue ends the program. Without servers
      it is dropped. */
  ghost function ForwardEdit(s: State, e: Edit): (r: Outcome)
    requires Ready(s)
    ensures r.Running? ==> Ready(r.state) && OnlyServerChanges(s, r.state, e.name)
  {
    if s.ring == map[] then Running(s, [])
    else
      var l := Owner(s.ring, HashString(e.name));
      var p := Physical(l);
      if |s.servers[p].queue| == TASK_QUEUE_SIZE then Exited([])
      else
        var (server, m) := Enqueue(s.servers[p], l, e);
        WithServer(s, p, server, [m])
  }

  /** A get makes the owner of the name work off its queue first. Without servers there is no answer. */
  ghost function ForwardGet(s: State, name: CString): (r: Outcome)
    requires Ready(s)
    ensures r.Running? && Ready(r.state) && OnlyServerChanges(s, r.state, name)
  {
    if s.ring == map[] then Running(s, [])
    else
      var l := Owner(s.ring, HashString(name));
      var p := Physical(l);
      var (server, ms) := Fetch(s.servers[p], l, name);
      WithServer(s, p, server, ms)
  }

  ghost function WithServer(s: State, p: UInt32, server: Server, ms: seq<Message>): (r: Outcome)
    requires Ready(s) && p in s.servers && server.cap == s.servers[p].cap
    ensures r == Running(State(s.vnodes, s.ring, s.servers[p := server]), ms)
    ensures Ready(r.state) && r.state.servers.Keys == s.servers.Keys
  {
    WithServerReady(s, p, server);
    Running(s.(servers := s.servers[p := server]), ms)
  }

  lemma WithServerReady(s: State, p: UInt32, server: Server)
    requires Ready(s) && p in s.servers && server.cap == s.servers[p].cap
    ensures Ready(s.(servers := s.servers[p := server]))
  {
  }

  // Runs from the empty ring. The last request of the sequence is the latest one.

  function Last(ops: seq<Op>): Op
    requires ops != []
  {
    ops[|ops| - 1]
  }

  function Init(ops: seq<Op>): seq<Op>
    requires ops != []
  {
    ops[..|ops| - 1]
  }

  /** The servers that are there after the requests. */
  function Alive(ops: seq<Op>): set<UInt32> {
    if ops == [] then {} else ServersAfter(Alive(Init(ops)), Last(ops))
  }

  /** No request removes the last server. */
  predicate KeepsAServer(ops: seq<Op>) {
    ops == [] || (KeepsAServer(Init(ops)) && !(Last(ops).RemoveServer? && Alive(Init(ops)) == {Last(ops).id}))
  }

  ghost predicate WellFormed(ops: seq<Op>) {
    ops == [] || (WellFormed(Init(ops)) && Admissible(Alive(Init(ops)), Last(ops)))
  }

  /** State and whole transcript after the requests, or the transcript up to the exit. */
  ghost function Run(vnodes: bool, ops: seq<Op>): (r: Outcome)
    requires WellFormed(ops)
    ensures r.Running? ==> Ready(r.state) && r.state.vnodes == vnodes && r.state.servers.Keys == Alive(ops)
  {
    if ops == [] then Running(State(vnodes, map[], map[]), [])
    else
      match Run(vnodes, Init(ops))
      case Exited(out) => Exited(out)
      case Running(s, out) =>
        match Step(s, Last(ops))
        case Exited(more) => Exited(out + more)
        case Running(t, more) => Running(t, out + more)
  }

  /** The reference: one map, changed by edits only. Edits without servers are dropped, and so is
      everything when the last server goes. */
  function Reference(ops: seq<Op>): Documents {
    if ops == [] then map[]
    else ReferenceStep(Reference(Init(ops)), Alive(Init(ops)), Last(ops))
  }

  function ReferenceStep(m: Documents, servers: set<UInt32>, op: Op): Documents {
    match op
    case EditRequest(name, content) => if servers == {} then m else m[name := content]
    case RemoveServer(id) => if servers == {id} then map[] else m
    case _ => m
  }

  /** The cache capacity that was asked for when the server was last added. */
  function Capacity(ops: seq<Op>, p: UInt32): nat {
    if ops == [] then 0
    else if Last(ops).AddServer? && Last(ops).id == p then Last(ops).cap
    else Capacity(Init(ops), p)
  }

  lemma StepCapacities(s: State, op: Op)
    requires Ready(s) && Admissible(s.servers.Keys, op) && Step(s, op).Running?
    ensures CapacitiesStay(s.servers, Step(s, op).state.servers)
    ensures op.AddServer? ==> HasCapacity(Step(s, op).state.servers, op.id, op.cap)
  {
    hide Ready;
  }

  /** Every server of a run has the capacity that it was last added with. */
  lemma {:induction false} RunCapacities(vnodes: bool, ops: seq<Op>)
    requires WellFormed(ops) && Run(vnodes, ops).Running?
    ensures forall p :: p in Run(vnodes, ops).state.servers ==>
              Run(vnodes, ops).state.servers[p].cap == Capacity(ops, p)
  {
    if ops != [] {
      RunCapacities(vnodes, Init(ops));
      hide Step, Ready;
      StepCapacities(Run(vnodes, Init(ops)).state, Last(ops));
    }
  }
}
