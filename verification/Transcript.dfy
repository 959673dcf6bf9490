/**
 Under which label every message is printed, in any state, whatever the ties.
 */
module Transcripts {
  import opened Hashing
  import opened Ring
  import opened ServerModel
  import opened Migration
  import opened SystemModel
  import opened SystemRuns

  predicate Under(ms: seq<Message>, l: UInt32) {
    forall i :: 0 <= i < |ms| ==> ms[i].label_ == l
  }

  lemma {:induction false} FlushUnder(s: Server, id: UInt32)
    requires s.cap > 0
    ensures Under(SolveQueue(s, id).1, id)
    decreases |s.queue|
  {
    if s.queue != [] {
      FlushUnder(EditDocument(s.(queue := s.queue[1..]), id, s.queue[0]).0, id);
    }
  }

  lemma MigrationUnder(servers: Servers, p: UInt32, id: UInt32, policy: Policy, dests: seq<UInt32>)
    requires p in servers && servers[p].cap > 0 && Suits(policy, |dests|)
    ensures Under(Migrate(servers, p, id, policy, dests).1, id)
  {
    FlushUnder(servers[p], id);
    hide SolveQueue, Suits;
  }

  /** A label that is inserted makes the next label on the ring print, no other. */
  lemma AddLabelUnder(s: State, l: UInt32, point: UInt32)
    requires Insertable(s, l, point)
    ensures Under(AddLabel(s, l, point).1, Successor(s.ring[l := point], l))
  {
    var ring := s.ring[l := point];
    var src := Successor(ring, l);
    InsertKeepsLabels(s, l, point);
    if Physical(src) != Physical(l) {
      assert HasLabels(ring, s.vnodes, Physical(src));
      hide Physical, Successor, AddPolicy, Migrate, HasLabels;
      MigrationUnder(s.servers, Physical(src), src, AddPolicy(s.vnodes, ring, src, l), [Physical(l)]);
    }
  }

  /** The ring after the first labels of the list have been inserted. */
  ghost function WithLabels(ring: Points, labels: seq<UInt32>): Points
    decreases |labels|
  {
    if labels == [] then ring else WithLabels(ring[labels[0] := HashUint(labels[0])], labels[1..])
  }

  lemma {:induction false} WithLabelsHas(ring: Points, labels: seq<UInt32>)
    ensures ring.Keys <= WithLabels(ring, labels).Keys
    ensures forall l :: l in labels ==> l in WithLabels(ring, labels)
    decreases |labels|
  {
    hide HashUint;
    if labels != [] {
      WithLabelsHas(ring[labels[0] := HashUint(labels[0])], labels[1..]);
    }
  }

  /** The label that follows label i at the moment when that one is inserted. */
  ghost function NextWhenInserted(ring: Points, labels: seq<UInt32>, i: nat): UInt32
    requires i < |labels|
  {
    WithLabelsHas(ring, labels[..i + 1]);
    assert labels[i] in labels[..i + 1];
    Successor(WithLabels(ring, labels[..i + 1]), labels[i])
  }

  lemma FirstNext(ring: Points, labels: seq<UInt32>)
    requires labels != []
    ensures NextWhenInserted(ring, labels, 0) == Successor(ring[labels[0] := HashUint(labels[0])], labels[0])
  {
    hide HashUint, Successor;
    assert labels[..1] == [labels[0]] && labels[..1][1..] == [];
    var ring1 := ring[labels[0] := HashUint(labels[0])];
    assert WithLabels(ring, labels[..1]) == WithLabels(ring1, []) == ring1;
  }

  lemma LaterNext(ring: Points, labels: seq<UInt32>, i: nat)
    requires i + 1 < |labels|
    ensures NextWhenInserted(ring, labels, i + 1)
            == NextWhenInserted(ring[labels[0] := HashUint(labels[0])], labels[1..], i)
  {
    hide HashUint, Successor;
    assert labels[..i + 2][1..] == labels[1..][..i + 1];
  }

  /** The label is the next one on the ring when one of the given labels is inserted. */
  ghost predicate Follows(ring: Points, labels: seq<UInt32>, next: UInt32) {
    exists i: nat :: i < |labels| && next == NextWhenInserted(ring, labels, i)
  }

  lemma FollowsLater(ring: Points, labels: seq<UInt32>, next: UInt32)
    requires labels != [] && Follows(ring[labels[0] := HashUint(labels[0])], labels[1..], next)
    ensures Follows(ring, labels, next)
  {
    hide HashUint, NextWhenInserted;
    var i: nat :| i < |labels[1..]| && next == NextWhenInserted(ring[labels[0] := HashUint(labels[0])], labels[1..], i);
    LaterNext(ring, labels, i);
  }

  lemma FirstUnder(s: State, id: UInt32, labels: seq<UInt32>)
    requires Adding(s, id, labels) && labels != []
    ensures AddHashed(s, id, labels).0.ring == s.ring[labels[0] := HashUint(labels[0])]
    ensures forall k :: 0 <= k < |AddHashed(s, id, labels).1| ==>
              Follows(s.ring, labels, AddHashed(s, id, labels).1[k].label_)
  {
    var l := labels[0];
    var ms := AddHashed(s, id, labels).1;
    hide HashUint;
    AddLabelUnder(s, l, HashUint(l));
    FirstNext(s.ring, labels);
    hide Adding, Insertable, Successor, NextWhenInserted;
  }

  /** What the insertion of several labels prints. */
  lemma {:induction false} AddLabelsUnder(s: State, id: UInt32, labels: seq<UInt32>, k: nat)
    requires Adding(s, id, labels) && k < |AddLabels(s, id, labels).1|
    ensures Follows(s.ring, labels, AddLabels(s, id, labels).1[k].label_)
    decreases |labels|
  {
    hide HashUint, Adding, Insertable, AddLabel, Successor, Follows, CapacitiesStay, Physical;
    if labels != [] {
      var (s1, ms) := AddHashed(s, id, labels);
      FirstUnder(s, id, labels);
      if k >= |ms| {
        AddLabelsUnder(s1, id, labels[1..], k - |ms|);
        FollowsLater(s.ring, labels, AddLabels(s1, id, labels[1..]).1[k - |ms|].label_);
      }
    }
  }

  lemma RemovalUnder(s: State, p: UInt32)
    requires Shape(s, {}) && p in s.servers
    ensures Under(RemoveLabels(s, p).out, p)
  {
    hide Migrate, SolveQueue, Followers, RemovalPolicy, LabelsOf, Physical;
    FlushUnder(s.servers[p], p);
    MigrationUnder(s.servers, p, p, RemovalPolicy(s, p), PhysicalOf(Followers(s, p)));
  }

  lemma GetUnder(s: State, name: CString)
    requires Ready(s) && s.ring != map[]
    ensures Under(ForwardGet(s, name).out, Owner(s.ring, HashString(name)))
  {
    hide HashString, HashUint, Owner, Physical, LabelsOf, OnlyServerChanges, GetDocument;
    var l := Owner(s.ring, HashString(name));
    FlushUnder(s.servers[Physical(l)], l);
    GetLabel(SolveQueue(s.servers[Physical(l)], l).0, l, name);
    hide SolveQueue, Ready;
  }

  lemma GetLabel(s: Server, id: UInt32, name: CString)
    requires s.cap > 0
    ensures GetDocument(s, id, name).1.label_ == id
  {
  }

  /** An edit is acknowledged with one notice: its name, and how many edits wait now. */
  lemma EditNotice(s: State, e: Edit)
    requires Ready(s) && s.ring != map[] && ForwardEdit(s, e).Running?
    ensures var r, l := ForwardEdit(s, e), Owner(s.ring, HashString(e.name));
            && Physical(l) in r.state.servers
            && r.out == [Message(l, Queued(e.name), QueueSize(|r.state.servers[Physical(l)].queue|))]
            && r.state.servers[Physical(l)].queue == s.servers[Physical(l)].queue + [e]
  {
    hide HashString, HashUint, Owner, Physical, LabelsOf, OnlyServerChanges;
  }

  /** What a request prints is printed by these labels only. */
  ghost predicate Prints(s: State, op: Op, l: UInt32)
    requires Ready(s)
  {
    match op
    case AddServer(id, _) =>
      id < 100000 && Follows(s.ring, if s.vnodes then [id, id + 100000, id + 200000] else [id], l)
    case RemoveServer(id) => l == id
    case EditRequest(name, _) => s.ring != map[] && l == Owner(s.ring, HashString(name))
    case GetRequest(name) => s.ring != map[] && l == Owner(s.ring, HashString(name))
  }

  lemma AdditionUnder(s: State, id: UInt32, cap: nat, k: nat)
    requires Ready(s) && id < 100000 && id !in s.servers && cap > 0 && k < |AddServerLabels(s, id, cap).1|
    ensures Prints(s, AddServer(id, cap), AddServerLabels(s, id, cap).1[k].label_)
  {
    hide HashString, HashUint, Owner, Adding, Ready, LabelList, Follows, AddLabels, CapacitiesStay, HasCapacity;
    NewServerIsBusy(s, id, cap);
    LabelListIs(s.vnodes, id);
    AddLabelsUnder(WithNewServer(s, id, cap), id, LabelList(s.vnodes, id), k);
  }

  lemma StepUnder(s: State, op: Op)
    requires Ready(s) && Admissible(s.servers.Keys, op)
    ensures forall k :: 0 <= k < |Step(s, op).out| ==> Prints(s, op, Step(s, op).out[k].label_)
  {
    hide HashString, HashUint, Owner, Successor, RemoveLabels, AddServerLabels, Follows;
    match op
    case AddServer(id, cap) =>
      var out := AddServerLabels(s, id, cap).1;
      hide Ready, ForwardEdit, ForwardGet;
      forall k | 0 <= k < |out|
        ensures Prints(s, op, out[k].label_)
      {
        AdditionUnder(s, id, cap, k);
      }
    case RemoveServer(id) =>
      RemovalUnder(s, id);
    case EditRequest(name, content) =>
      if s.ring != map[] && Step(s, op).Running? {
        EditNotice(s, Edit(name, content));
      }
    case GetRequest(name) =>
      if s.ring != map[] {
        GetUnder(s, name);
        hide ForwardGet, Ready;
      }
  }
}
