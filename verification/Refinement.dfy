/**
 The main results: a run answers every get like one plain map, and keeps every document where lookups find
 it, exactly when no addition of a server strands a document.
 */
module Refinement {
  import opened Hashing
  import opened Ring
  import opened ServerModel
  import opened Migration
  import opened SystemModel
  import opened SystemRuns
  import opened Seats

  // Single steps keep placement.

  lemma OwnedAfterEdit(m: Documents, ring: Points, e: Edit, q: UInt32)
    requires ring != map[]
    ensures Owned(m[e.name := e.content], ring, q)
         == if HomeOf(ring, e.name) == q then Owned(m, ring, q)[e.name := e.content] else Owned(m, ring, q)
  {
  }

  /** Replacing one server by a coherent one with the right documents keeps placement. */
  lemma WithServerPlaced(s: State, m: Documents, m': Documents, p: UInt32, server: Server)
    requires Ready(s) && Placed(s, m) && s.ring != map[] && p in s.servers
    requires Coherent(server) && Effective(server) == Owned(m', s.ring, p)
    requires forall q :: q in s.servers && q != p ==> Owned(m', s.ring, q) == Owned(m, s.ring, q)
    ensures Placed(State(s.vnodes, s.ring, s.servers[p := server]), m')
  {
    hide Owned, Effective, Coherent, Shape;
  }

  lemma EditKeepsPlacement(s: State, m: Documents, e: Edit)
    requires Ready(s) && Placed(s, m)
    ensures var r := ForwardEdit(s, e);
            r.Running? ==> Placed(r.state, if s.ring == map[] then m else m[e.name := e.content])
  {
    if s.ring != map[] {
      HomeIsServer(s, e.name);
      var p := HomeOf(s.ring, e.name);
      var l := Owner(s.ring, HashString(e.name));
      var server := s.servers[p];
      ApplyEditsAppend(server.db, server.queue, e);
      var after := Enqueue(server, l, e).0;
      assert Coherent(after) && Effective(after) == Owned(m, s.ring, p)[e.name := e.content];
      hide HashString, Ready, Placed, Coherent, Effective, Owned, Enqueue;
      forall q
        ensures Owned(m[e.name := e.content], s.ring, q)
             == if q == p then Owned(m, s.ring, q)[e.name := e.content] else Owned(m, s.ring, q)
      {
        OwnedAfterEdit(m, s.ring, e, q);
      }
      WithServerPlaced(s, m, m[e.name := e.content], p, after);
    }
  }

  /** A get is answered from the map, and it keeps placement. */
  lemma GetAnswers(s: State, m: Documents, name: CString)
    requires Ready(s) && Placed(s, m)
    ensures var r := ForwardGet(s, name);
            && Placed(r.state, m)
            && (s.ring == map[] ==> r.out == [])
            && (s.ring != map[] ==> r.out != [] && r.out[|r.out| - 1].reply == GetReply(m, name))
  {
    if s.ring != map[] {
      hide HashString, Fetch, Coherent, Effective, Distance, LabelsOf, HasLabels;
      HomeIsServer(s, name);
      var l := Owner(s.ring, HashString(name));
      var p := Physical(l);
      hide Physical, Owner;
      FetchReads(s.servers[p], l, name);
      assert GetReply(Owned(m, s.ring, p), name) == GetReply(m, name);
      WithServerPlaced(s, m, m, p, Fetch(s.servers[p], l, name).0);
    }
  }

  lemma EmptyTogether(s: State)
    requires Ready(s)
    ensures s.ring == map[] <==> s.servers == map[]
  {
    hide Physical, LabelsOf;
    if p :| p in s.servers {
      assert HasLabels(s.ring, s.vnodes, p);
      LabelsInclude(s.vnodes, p);
    }
  }

  lemma LabelsInclude(vnodes: bool, p: UInt32)
    requires p < 100000
    ensures p in LabelsOf(vnodes, p)
  {
  }

  /** Every get is answered with what the map holds. */
  ghost predicate AnswersFrom(s: State, m: Documents)
    requires Ready(s)
  {
    forall name :: s.ring != map[] ==>
      var out := ForwardGet(s, name).out;
      out != [] && out[|out| - 1].reply == GetReply(m, name)
  }

  lemma PlacedAnswers(s: State, m: Documents)
    requires Ready(s) && Placed(s, m)
    ensures AnswersFrom(s, m)
  {
    hide Placed, Ready, ForwardGet;
    forall name | s.ring != map[]
      ensures var out := ForwardGet(s, name).out; out != [] && out[|out| - 1].reply == GetReply(m, name)
    {
      GetAnswers(s, m, name);
    }
  }

  /** Adding a server is right, for placement and for every get, exactly when it strands no document. */
  lemma AddIsExact(s: State, m: Documents, id: UInt32, cap: nat)
    requires Ready(s) && Placed(s, m) && Admissible(s.servers.Keys, AddServer(id, cap))
    ensures var t := AddServerLabels(s, id, cap).0;
            && (Placed(t, m) <==> NoneStrandedBy(t.ring, m, id))
            && (AnswersFrom(t, m) <==> NoneStrandedBy(t.ring, m, id))
  {
    hide Placed, Ready, SpreadAs, ForwardGet, Stranded, HashString, HashUint, Owner, CapacitiesStay, HasCapacity;
    hide AddLabels, LabelList, WithNewServer, AnswersFrom;
    AddPlacesExactly(s, m, id, cap);
    AddServerSpreads(s, m, id, cap);
    var t := AddServerLabels(s, id, cap).0;
    hide AddServerLabels;
    if Placed(t, m) {
      PlacedAnswers(t, m);
    } else {
      StrandedAnswersWrong(t, m, id);
    }
  }

  lemma StrandedAnswersWrong(t: State, m: Documents, id: UInt32)
    requires Ready(t) && SpreadAs(t, m, id) && !NoneStrandedBy(t.ring, m, id)
    ensures !AnswersFrom(t, m)
  {
    hide Ready, SpreadAs, ForwardGet, Stranded, HashString;
    var n :| n in m && t.ring != map[] && Stranded(t.ring, id, HashString(n));
    StrandedIsNotFound(t, m, id, n);
    assert GetReply(m, n) == Content(m[n]);
  }

  /** A request strands no document; only the addition of a server can. */
  ghost predicate StrandsNone(before: Documents, ring: Points, op: Op) {
    op.AddServer? ==> NoneStrandedBy(ring, before, op.id)
  }

  /** A request changes the documents of the whole system as the reference map changes, and every get after it
      is right, exactly when it strands no document. */
  lemma StepRefines(s: State, m: Documents, op: Op)
    requires Ready(s) && Placed(s, m) && Admissible(s.servers.Keys, op)
    ensures var r, after := Step(s, op), ReferenceStep(m, s.servers.Keys, op);
            r.Running? ==>
              && (Placed(r.state, after) <==> StrandsNone(m, r.state.ring, op))
              && (AnswersFrom(r.state, after) <==> StrandsNone(m, r.state.ring, op))
  {
    hide Placed, Adding, AnswersFrom, NoneStrandedBy;
    EmptyTogether(s);
    var r, after := Step(s, op), ReferenceStep(m, s.servers.Keys, op);
    match op
    case AddServer(id, cap) =>
      AddIsExact(s, m, id, cap);
    case RemoveServer(id) =>
      RemovalKeepsPlacement(s, id, m);
      if r.Running? {
        PlacedAnswers(r.state, after);
      }
    case EditRequest(name, content) =>
      EditKeepsPlacement(s, m, Edit(name, content));
      if r.Running? {
        PlacedAnswers(r.state, after);
      }
    case GetRequest(name) =>
      GetAnswers(s, m, name);
      PlacedAnswers(r.state, after);
  }

  /** The ring of the given servers. */
  ghost function RingOf(vnodes: bool, servers: set<UInt32>): Points {
    map l | l in (set p, l | p in servers && p < 100000 && l in LabelsOf(vnodes, p) :: l) :: HashUint(l)
  }

  lemma RingMembers(vnodes: bool, servers: set<UInt32>)
    requires forall p :: p in servers ==> p < 100000
    ensures var ring := RingOf(vnodes, servers);
            && (forall l :: l in ring <==> Physical(l) in servers && l in LabelsOf(vnodes, Physical(l)))
            && (forall l :: l in ring ==> ring[l] == HashUint(l))
            && Injective(ring)
  {
    hide HashUint, Physical, LabelsOf;
    var ring := RingOf(vnodes, servers);
    forall l | l in ring
      ensures Physical(l) in servers && l in LabelsOf(vnodes, Physical(l))
    {
      var p :| p in servers && p < 100000 && l in LabelsOf(vnodes, p);
      LabelsShareServer(vnodes, p);
    }
    forall l, x | l in ring && x in ring && HashUint(l) == HashUint(x)
      ensures l == x
    {
      HashUintInjective(l, x);
    }
  }

  lemma ReadyRing(s: State)
    requires Ready(s)
    ensures s.ring == RingOf(s.vnodes, s.servers.Keys)
  {
    hide HashUint, Physical, LabelsOf, Injective;
    forall p, l | p in s.servers && l in LabelsOf(s.vnodes, p)
      ensures l in s.ring
    {
      assert HasLabels(s.ring, s.vnodes, p);
    }
  }

  /** No request of the run, as far as it gets, strands a document: a condition on names and server ids. */
  ghost predicate NoneStranded(vnodes: bool, ops: seq<Op>)
    requires WellFormed(ops)
  {
    ops == [] ||
    (NoneStranded(vnodes, Init(ops))
     && (Run(vnodes, ops).Running? ==> StrandsNone(Reference(Init(ops)), RingOf(vnodes, Alive(ops)), Last(ops))))
  }

  /** Between any two requests of the run, every document is where a lookup finds it. */
  ghost predicate AlwaysPlaced(vnodes: bool, ops: seq<Op>)
    requires WellFormed(ops)
  {
    && (ops == [] || AlwaysPlaced(vnodes, Init(ops)))
    && (Run(vnodes, ops).Running? ==> Placed(Run(vnodes, ops).state, Reference(ops)))
  }

  /** Between any two requests of the run, every get would be answered right. */
  ghost predicate GetsRight(vnodes: bool, ops: seq<Op>)
    requires WellFormed(ops)
  {
    && (ops == [] || GetsRight(vnodes, Init(ops)))
    && (Run(vnodes, ops).Running? ==> AnswersFrom(Run(vnodes, ops).state, Reference(ops)))
  }

  /** Placement and right answers hold throughout a run exactly when no addition strands a document. */
  lemma {:induction false} RunRefines(vnodes: bool, ops: seq<Op>)
    requires WellFormed(ops)
    ensures AlwaysPlaced(vnodes, ops) <==> NoneStranded(vnodes, ops)
    ensures GetsRight(vnodes, ops) <==> NoneStranded(vnodes, ops)
  {
    if ops != [] {
      var init := Init(ops);
      RunRefines(vnodes, init);
      if Run(vnodes, ops).Running? && NoneStranded(vnodes, init) {
        hide Placed, Ready, AnswersFrom, StrandsNone, Step;
        StepRefines(Run(vnodes, init).state, Reference(init), Last(ops));
        ReadyRing(Run(vnodes, ops).state);
      }
    }
  }

  lemma RunPlaces(vnodes: bool, ops: seq<Op>)
    requires WellFormed(ops) && NoneStranded(vnodes, ops) && Run(vnodes, ops).Running?
    ensures Placed(Run(vnodes, ops).state, Reference(ops))
  {
    RunRefines(vnodes, ops);
  }

  lemma RunStep(vnodes: bool, ops: seq<Op>, op: Op, next: seq<Op>)
    requires WellFormed(ops) && Run(vnodes, ops).Running? && Admissible(Alive(ops), op)
    requires next == ops + [op]
    ensures WellFormed(next)
    ensures Alive(next) == ServersAfter(Alive(ops), op)
    ensures Reference(next) == ReferenceStep(Reference(ops), Alive(ops), op)
    ensures var before, more := Run(vnodes, ops), Step(Run(vnodes, ops).state, op);
            Run(vnodes, next) == match more
                                 case Running(t, out) => Running(t, before.out + out)
                                 case Exited(out) => Exited(before.out + out)
  {
  }

  /** Whole-system refinement: however servers came and went, a get is answered with what the reference
      map holds, and the answer is the last thing printed. */
  lemma GetReadsReference(vnodes: bool, ops: seq<Op>, name: CString, asked: seq<Op>)
    requires WellFormed(ops) && NoneStranded(vnodes, ops) && Run(vnodes, ops).Running?
    requires asked == ops + [GetRequest(name)]
    ensures WellFormed(asked)
    ensures var before, after := Run(vnodes, ops).out, Run(vnodes, asked);
            && after.Running? && before <= after.out
            && (Alive(ops) == {} ==> after.out == before)
            && (Alive(ops) != {} ==>
                  && |before| < |after.out|
                  && after.out[|after.out| - 1].reply == GetReply(Reference(ops), name))
  {
    hide Placed, ForwardGet, OnlyServerChanges, NoneStranded, AlwaysPlaced, GetsRight, Reference, Ready, AddServerLabels, RemoveLabels, ForwardEdit;
    var s := Run(vnodes, ops).state;
    RunPlaces(vnodes, ops);
    RunStep(vnodes, ops, GetRequest(name), asked);
    hide WellFormed, Run, Alive;
    EmptyTogether(s);
    GetAnswers(s, Reference(ops), name);
  }

  /** What the reference map holds is the latest edit, made while servers were there, and not lost since
      because all of them went. */
  ghost predicate LatestEdit(ops: seq<Op>, name: CString, content: CString, i: nat) {
    && i < |ops| && ops[i] == EditRequest(name, content)
    && (forall j :: i <= j <= |ops| ==> Alive(ops[..j]) != {})
    && (forall j :: i < j < |ops| && ops[j].EditRequest? ==> ops[j].name != name)
  }

  ghost predicate LatestEdited(ops: seq<Op>, name: CString, content: CString) {
    exists i: nat :: LatestEdit(ops, name, content, i)
  }

  lemma LatestEditExtends(ops: seq<Op>, name: CString, content: CString, i: nat)
    requires ops != []
    ensures LatestEdit(ops, name, content, i) <==>
            && Alive(ops) != {}
            && (if i < |Init(ops)|
                then LatestEdit(Init(ops), name, content, i) && !(Last(ops).EditRequest? && Last(ops).name == name)
                else i == |Init(ops)| && Last(ops) == EditRequest(name, content))
  {
    hide Alive, Last;
    var init := Init(ops);
    assert Last(ops) == ops[|init|] by { AboutLast(ops); }
    forall j | 0 <= j <= |init|
      ensures ops[..j] == init[..j]
    {
    }
    assert ops[..|ops|] == ops;
    assert Last(ops) == EditRequest(name, content) ==> Alive(init) == Alive(ops) by { AliveAfterEdit(ops); }
    assert init[..|init|] == init;
  }

  lemma LatestEditBounded(ops: seq<Op>, name: CString, content: CString, i: nat)
    requires LatestEdit(ops, name, content, i)
    ensures i < |ops|
  {
  }

  lemma AboutLast(ops: seq<Op>)
    requires ops != []
    ensures Last(ops) == ops[|ops| - 1]
  {
  }

  lemma AliveAfterEdit(ops: seq<Op>)
    requires ops != []
    ensures Last(ops).EditRequest? ==> Alive(ops) == Alive(Init(ops))
  {
  }

  lemma {:induction false} ReferenceIsLatestEdit(ops: seq<Op>, name: CString, content: CString)
    ensures (name in Reference(ops) && Reference(ops)[name] == content)
       <==> LatestEdited(ops, name, content)
    ensures Alive(ops) == {} ==> Reference(ops) == map[]
  {
    if ops != [] {
      var init := Init(ops);
      ReferenceIsLatestEdit(init, name, content);
      forall i: nat { LatestEditExtends(ops, name, content, i); }
      hide LatestEdit;
      if Last(ops) == EditRequest(name, content) && Alive(ops) != {} {
        assert LatestEdit(ops, name, content, |init|);
      } else if i: nat :| LatestEdit(init, name, content, i) {
        LatestEditBounded(init, name, content, i);
      }
    }
  }

  /** The promise of the system in terms of the requests alone: a get is answered with the content of the
      latest edit of its name, made while servers were there and kept since; without such an edit it is
      answered with nothing. */
  lemma GetAnswersLatestEdit(vnodes: bool, ops: seq<Op>, name: CString, asked: seq<Op>)
    requires WellFormed(ops) && NoneStranded(vnodes, ops) && Run(vnodes, ops).Running? && Alive(ops) != {}
    requires asked == ops + [GetRequest(name)]
    ensures WellFormed(asked) && Run(vnodes, asked).out != []
    ensures var out := Run(vnodes, asked).out;
            var reply := out[|out| - 1].reply;
            && (forall content :: reply == Content(content) <==> LatestEdited(ops, name, content))
            && (reply == NoContent <==> forall content :: !LatestEdited(ops, name, content))
  {
    GetReadsReference(vnodes, ops, name, asked);
    hide Run, WellFormed, NoneStranded, Alive, LatestEdit, Reference;
    forall content
      ensures LatestEdited(ops, name, content) <==> GetReply(Reference(ops), name) == Content(content)
    {
      ReferenceIsLatestEdit(ops, name, content);
    }
  }

  // A simple sufficient condition: no document ever shares its point with a label.

  /** No label of the server stands where the document hashes to. */
  ghost predicate Apart(vnodes: bool, name: CString, id: UInt32) {
    forall l :: id < 100000 && l in LabelsOf(vnodes, id) ==> HashString(name) != HashUint(l)
  }

  function Edited(ops: seq<Op>): set<CString> {
    set op | op in ops && op.EditRequest? :: op.name
  }

  function Added(ops: seq<Op>): set<UInt32> {
    set op | op in ops && op.AddServer? :: op.id
  }

  /** No edited document ever shares its point with a label of an added server. */
  ghost predicate NoTies(vnodes: bool, ops: seq<Op>) {
    forall n, id :: n in Edited(ops) && id in Added(ops) ==> Apart(vnodes, n, id)
  }

  lemma {:induction false} ReferenceIsEdited(ops: seq<Op>)
    ensures Reference(ops).Keys <= Edited(ops)
    ensures Alive(ops) <= Added(ops)
  {
    if ops != [] {
      ReferenceIsEdited(Init(ops));
      InitMembers(ops);
    }
  }

  lemma InitMembers(ops: seq<Op>)
    requires ops != []
    ensures Edited(Init(ops)) <= Edited(ops) && Added(Init(ops)) <= Added(ops)
    ensures Last(ops).EditRequest? ==> Last(ops).name in Edited(ops)
    ensures Last(ops).AddServer? ==> Last(ops).id in Added(ops)
  {
  }

  lemma ApartStrandsNone(vnodes: bool, servers: set<UInt32>, m: Documents, id: UInt32)
    requires forall n, p :: n in m && p in servers ==> Apart(vnodes, n, p)
    ensures NoneStrandedBy(RingOf(vnodes, servers), m, id)
  {
    hide HashString, HashUint, LabelsOf, Distance;
    var ring := RingOf(vnodes, servers);
    forall n | n in m && ring != map[]
      ensures !Stranded(ring, id, HashString(n))
    {
      var t := Owner(ring, HashString(n));
      var p :| p in servers && p < 100000 && t in LabelsOf(vnodes, p);
      assert Apart(vnodes, n, p);
    }
  }

  /** No document is stranded in a run in which no edited name hashes to a label of an added server. */
  lemma {:induction false} NoTiesStrandNone(vnodes: bool, ops: seq<Op>)
    requires WellFormed(ops) && NoTies(vnodes, ops)
    ensures NoneStranded(vnodes, ops)
  {
    if ops != [] {
      var init := Init(ops);
      InitMembers(ops);
      NoTiesStrandNone(vnodes, init);
      ReferenceIsEdited(init);
      ReferenceIsEdited(ops);
      if Last(ops).AddServer? {
        hide Apart, Ready, NoneStrandedBy, Run;
        ApartStrandsNone(vnodes, Alive(ops), Reference(init), Last(ops).id);
      }
    }
  }
}
