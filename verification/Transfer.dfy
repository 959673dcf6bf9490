/**
 The walk that carries documents from one physical server to others.
 */
module Transfers {
  import opened Hashing
  import opened Wrappers
  import opened Sequences
  import opened Ring
  import opened Migration
  import opened Picking
  import M = ServerModel
  import opened LinkedLists
  import opened HashMaps
  import opened LruCaches
  import opened Stores

  /** An entry of the ring: a label and the server it shares with its sibling labels. */
  datatype Label = Label(id: UInt32, store: Store)

  function Ids(labels: seq<Label>): seq<UInt32> {
    seq(|labels|, i requires 0 <= i < |labels| => labels[i].id)
  }

  type Fleet = map<UInt32, Store>

  ghost predicate Disjoint(a: set<object>, b: set<object>) {
    a !! b
  }

  /** The servers, but for those to skip, are valid, share nothing, live within the frame, and stand for the
      given values. */
  ghost predicate ShowsBut(fleet: Fleet, frame: set<object>, servers: Servers, skip: set<UInt32>)
    reads frame
  {
    && fleet.Keys == servers.Keys
    && (forall r :: r in fleet && r !in skip ==>
          && fleet[r] in frame && fleet[r] in fleet[r].Repr && fleet[r].Repr <= frame
          && fleet[r].Valid() && fleet[r].View() == servers[r])
    && (forall r, q :: r in fleet && q in fleet && r !in skip && q !in skip && r != q ==>
          Disjoint(fleet[r].Repr, fleet[q].Repr))
  }

  ghost predicate Shows(fleet: Fleet, frame: set<object>, servers: Servers)
    reads frame
  {
    ShowsBut(fleet, frame, servers, {})
  }

  function WithServer(servers: Servers, p: UInt32, server: M.Server): Servers {
    servers[p := server]
  }

  /** To change a server, take it out of the frame, change it, and put it back. */
  lemma TakeOut(fleet: Fleet, frame: set<object>, servers: Servers, skip: set<UInt32>, p: UInt32, more: set<UInt32>)
    requires more == skip + {p}
    requires ShowsBut(fleet, frame, servers, skip) && p in fleet && p !in skip
    ensures fleet[p] in frame && fleet[p] in fleet[p].Repr && fleet[p].Repr <= frame
    ensures fleet[p].Valid() && p in servers && fleet[p].View() == servers[p]
    ensures ShowsBut(fleet, frame - fleet[p].Repr, servers, more)
  {
    hide Store.Valid, Store.View;
    forall r | r in fleet && r !in more
      ensures Disjoint(fleet[r].Repr, fleet[p].Repr)
    {
    }
  }

  lemma PutBack(fleet: Fleet, frame: set<object>, servers: Servers, skip: set<UInt32>, p: UInt32, fewer: set<UInt32>)
    requires fewer == skip - {p}
    requires ShowsBut(fleet, frame, servers, skip) && p in fleet && p in skip
    requires fleet[p].Valid() && fleet[p] in fleet[p].Repr && fleet[p].Repr !! frame
    ensures ShowsBut(fleet, frame + fleet[p].Repr, WithServer(servers, p, fleet[p].View()), fewer)
  {
    hide Store.Valid, Store.View;
  }

  /** Carries one document over, as every transfer function does it. */
  method MoveDocument(src: Store, dest: Store, name: CString, content: CString) returns (ghost k: nat)
    requires src.Valid() && dest.Valid() && src.Repr !! dest.Repr
    requires name in src.db.M && src.db.M[name] == content
    modifies src.Repr, dest.Repr
    ensures src.Valid() && src.Repr == old(src.Repr)
    ensures dest.Valid() && old(dest.Repr) <= dest.Repr && fresh(dest.Repr - old(dest.Repr))
    ensures src.View() == M.Release(old(src.View()), {name})
    ensures dest.View() == M.Receive(old(dest.View()), map[name := content])
    ensures src.db.LostEntry(name, k)
  {
    hide HashMap.Valid, LruCache.Valid, Bucket;
    dest.Write(name, content);
    k := src.Forget(name);
  }

  lemma TakeTwoOut(fleet: Fleet, frame: set<object>, servers: Servers, p: UInt32, q: UInt32)
    requires Shows(fleet, frame, servers) && p in fleet && q in fleet && p != q
    ensures fleet[p].Repr <= frame && fleet[p].Valid() && p in servers && fleet[p].View() == servers[p]
    ensures fleet[q].Repr <= frame && fleet[q].Valid() && q in servers && fleet[q].View() == servers[q]
    ensures fleet[p] in fleet[p].Repr && fleet[q] in fleet[q].Repr && Disjoint(fleet[p].Repr, fleet[q].Repr)
    ensures ShowsBut(fleet, frame - fleet[p].Repr - fleet[q].Repr, servers, {p, q})
  {
    hide Store.Valid, Store.View;
    TakeOut(fleet, frame, servers, {}, p, {p});
    TakeOut(fleet, frame - fleet[p].Repr, servers, {p}, q, {p, q});
  }

  lemma PutTwoBack(fleet: Fleet, others: set<object>, servers: Servers, p: UInt32, q: UInt32)
    requires ShowsBut(fleet, others, servers, {p, q}) && p in fleet && q in fleet && p != q
    requires fleet[p].Valid() && fleet[p] in fleet[p].Repr && fleet[p].Repr !! others
    requires fleet[q].Valid() && fleet[q] in fleet[q].Repr && fleet[q].Repr !! others + fleet[p].Repr
    ensures Shows(fleet, others + fleet[p].Repr + fleet[q].Repr,
                  WithServer(WithServer(servers, p, fleet[p].View()), q, fleet[q].View()))
  {
    hide Store.Valid, Store.View, WithServer;
    PutBack(fleet, others, servers, {p, q}, p, {q});
    PutBack(fleet, others + fleet[p].Repr, WithServer(servers, p, fleet[p].View()), {q}, q, {});
  }

  method MoveInFleet(src: Store, dest: Store, name: CString, content: CString, ghost fleet: Fleet,
                     ghost frame: set<object>, ghost servers: Servers, ghost p: UInt32, ghost q: UInt32)
      returns (ghost k: nat, ghost grown: set<object>)
    requires Shows(fleet, frame, servers) && p in fleet && q in fleet && p != q && fleet[p] == src && fleet[q] == dest
    requires name in src.db.M && src.db.M[name] == content
    modifies frame
    ensures frame <= grown && fresh(grown - frame)
    ensures Shows(fleet, grown, MovedOne(servers, p, q, name, content))
    ensures src.db.LostEntry(name, k)
  {
    hide Store.Valid, Store.View, HashMap.LostEntry, Bucket, M.Release, M.Receive, Shows, ShowsBut;
    TakeTwoOut(fleet, frame, servers, p, q);
    ghost var others := frame - src.Repr - dest.Repr;
    k := MoveDocument(src, dest, name, content);
    PutTwoBack(fleet, others, servers, p, q);
    grown := others + src.Repr + dest.Repr;
  }

  /** The label shares the object of its server. */
  ghost predicate Backed(l: Label, fleet: Fleet) {
    Physical(l.id) in fleet && fleet[Physical(l.id)] == l.store
  }

  /** The sender and the destinations of a transfer are servers of the fleet; nobody sends to itself. */
  ghost predicate Routed(fleet: Fleet, p: UInt32, src: Store, id: UInt32, policy: Policy, dests: seq<Label>) {
    && p in fleet && fleet[p] == src && Fits(policy, id, Ids(dests))
    && (forall i :: 0 <= i < |dests| ==> Backed(dests[i], fleet))
    && (forall n :: GoesTo(policy, PhysicalOf(Ids(dests)), n) != Some(p))
  }

  /** Visits one document: decides, and carries it over if it has to go. */
  method CarryOne(src: Store, id: UInt32, policy: Policy, dests: seq<Label>, name: CString, content: CString,
                  ghost fleet: Fleet, ghost frame: set<object>, ghost p: UInt32,
                  ghost base: Servers, ghost visited: M.Documents)
      returns (d: Decision, ghost k: nat, ghost grown: set<object>)
    requires Routed(fleet, p, src, id, policy, dests) && base.Keys == fleet.Keys && name !in visited
    requires Shows(fleet, frame, Carried(base, p, policy, PhysicalOf(Ids(dests)), visited))
    requires name in src.db.M && src.db.M[name] == content
    modifies frame
    ensures frame <= grown && fresh(grown - frame)
    ensures d == Decide(policy, |dests|, HashString(name))
    ensures !d.Stuck? ==>
              Shows(fleet, grown, Carried(base, p, policy, PhysicalOf(Ids(dests)), visited[name := content]))
    ensures d.Move? ==> src.db.LostEntry(name, k)
    ensures !d.Move? ==> src.db.Chains == old(src.db.Chains) && src.db.Layout == old(src.db.Layout)
  {
    hide Carried, Shows, Physical, Decide, HashString;
    grown, k := frame, 0;
    var nameHash := ComputeHashString(name);
    d := MakeDecision(policy, id, Ids(dests), nameHash);
    ghost var servers := Carried(base, p, policy, PhysicalOf(Ids(dests)), visited);
    CarriedOneMore(base, p, policy, PhysicalOf(Ids(dests)), visited, name, content);
    if d.Move? {
      ghost var q := Physical(dests[d.k].id);
      k, grown := MoveInFleet(src, dests[d.k].store, name, content, fleet, frame, servers, p, q);
    }
  }

  // The keys that a walk over the buckets still has to visit.

  ghost function TailKeys(tail: seq<Entry<CString>>): set<CString> {
    set e | e in tail :: e.key
  }

  ghost function Rest(keys: set<CString>, hmax: nat, i: nat, tail: seq<Entry<CString>>): set<CString>
    requires hmax > 0
  {
    (set k | k in keys && Bucket(k, hmax) > i) + TailKeys(tail)
  }

  /** The entry in hand is one of those to visit; afterwards, kept or erased, it is the only one less. */
  lemma RestStep(m: map<CString, CString>, hmax: nat, i: nat, c: seq<Entry<CString>>, j: nat)
    requires hmax > 0 && Holds(c, i, hmax, m) && j < |c|
    ensures var n, todo := c[j].key, Rest(m.Keys, hmax, i, c[j..]);
            && n in todo && n in m && m[n] == c[j].val && Bucket(n, hmax) == i
            && (forall k :: 0 <= k < |c| && c[k].key == n ==> k == j)
            && Rest(m.Keys, hmax, i, c[j + 1..]) == todo - {n}
            && Rest((m - {n}).Keys, hmax, i, Erased(c, j)[j..]) == todo - {n}
  {
  }

  /** The walk has visited some of the documents and still has to visit the others, each of them once. */
  ghost predicate Visits(docs: M.Documents, visited: M.Documents, todo: set<CString>) {
    && visited.Keys !! todo && visited.Keys + todo == docs.Keys
    && forall n :: n in visited ==> visited[n] == docs[n]
  }

  ghost predicate NoneStuck(policy: Policy, n: nat, docs: M.Documents)
    requires Suits(policy, n)
  {
    forall name :: name in docs ==> !Decide(policy, n, HashString(name)).Stuck?
  }

  lemma SenderIs(src: Store, fleet: Fleet, frame: set<object>, p: UInt32, base: Servers,
                 policy: Policy, dests: seq<UInt32>, visited: M.Documents)
    requires p in fleet && fleet[p] == src && p in base && Suits(policy, |dests|)
    requires Shows(fleet, frame, Carried(base, p, policy, dests, visited))
    ensures src in frame && src.Repr <= frame && src.Valid() && src.db.Valid()
    ensures src.db.M == base[p].db - Leaving(policy, dests, visited)
  {
    hide Leaving, Arriving, HashMap.Valid, LruCache.Valid;
  }

  lemma NotYetVisited(docs: M.Documents, visited: M.Documents, todo: set<CString>, n: CString)
    requires Visits(docs, visited, todo) && n in todo
    ensures n !in visited && n in docs
  {
  }

  lemma StuckOrNot(policy: Policy, n: nat, visited: M.Documents, docs: M.Documents, name: CString, content: CString)
    requires Suits(policy, n) && name in docs
    ensures Decide(policy, n, HashString(name)).Stuck? ==> !NoneStuck(policy, n, docs)
    ensures !Decide(policy, n, HashString(name)).Stuck? && NoneStuck(policy, n, visited)
        ==> NoneStuck(policy, n, visited[name := content])
  {
  }

  /** After the visit of the entry at position j one document less is to be visited, whether its entry was
      kept or erased. */
  lemma AfterVisit(docs: M.Documents, visited: M.Documents, m: map<CString, CString>, m': map<CString, CString>,
                   hmax: nat, i: nat, c: seq<Entry<CString>>, c': seq<Entry<CString>>, j: nat, k: nat,
                   policy: Policy, dests: seq<UInt32>)
    requires hmax > 0 && Holds(c, i, hmax, m) && j < |c| && Suits(policy, |dests|)
    requires Visits(docs, visited, Rest(m.Keys, hmax, i, c[j..]))
    requires m == docs - Leaving(policy, dests, visited)
    requires m' == docs - Leaving(policy, dests, visited[c[j].key := c[j].val])
    requires if GoesTo(policy, dests, c[j].key).Some? then k < |c| && c[k].key == c[j].key && c' == Erased(c, k) else c' == c
    ensures var j' := if GoesTo(policy, dests, c[j].key).Some? then j else j + 1;
            && j' <= |c'|
            && Visits(docs, visited[c[j].key := c[j].val], Rest(m'.Keys, hmax, i, c'[j'..]))
  {
    hide Holds, Rest, GoesTo, Bucket;
    RestStep(m, hmax, i, c, j);
    LeavingOneMore(policy, dests, visited, c[j].key, c[j].val);
    hide Leaving;
    if GoesTo(policy, dests, c[j].key).Some? {
      assert m' == m - {c[j].key};
    } else {
      assert m' == m;
    }
  }

  /** The walk stands before bucket i; past the last one there is nothing left to visit. */
  ghost predicate AtBucket(docs: M.Documents, visited: M.Documents, db: HashMap<CString>, i: nat)
    reads db
  {
    && |db.buckets| > 0 && |db.Chains| == |db.Layout| == |db.buckets|
    && Visits(docs, visited, if i < |db.buckets| then Rest(db.M.Keys, |db.buckets|, i, db.Chains[i][0..]) else {})
  }

  lemma FirstBucket(db: HashMap<CString>, docs: M.Documents, visited: M.Documents)
    requires db.Valid() && db.M == docs && visited == map[]
    ensures AtBucket(docs, visited, db, 0)
  {
  }

  lemma NextBucket(db: HashMap<CString>, docs: M.Documents, visited: M.Documents, i: nat)
    requires db.Valid() && i < |db.buckets| && Visits(docs, visited, Rest(db.M.Keys, |db.buckets|, i, []))
    ensures AtBucket(docs, visited, db, i + 1)
  {
  }

  /** One turn of the inner loop: the next pointer is read first, so that erasing the node does no harm. */
  method VisitNode(src: Store, id: UInt32, policy: Policy, dests: seq<Label>, i: nat, node: Node<Entry<CString>>,
                   ghost j: nat, ghost fleet: Fleet, ghost frame: set<object>, ghost p: UInt32,
                   ghost base: Servers, ghost visited: M.Documents)
      returns (ok: bool, next: Node?<Entry<CString>>, ghost j': nat, ghost visited': M.Documents, ghost grown: set<object>)
    requires Routed(fleet, p, src, id, policy, dests) && base.Keys == fleet.Keys
    requires Shows(fleet, frame, Carried(base, p, policy, PhysicalOf(Ids(dests)), visited))
    requires src.db.ListsValid() && i < |src.db.buckets| && j < |src.db.Layout[i]| && node == src.db.Layout[i][j]
    requires |src.db.Chains[i]| == |src.db.Layout[i]|
    requires Visits(base[p].db, visited, Rest(src.db.M.Keys, |src.db.buckets|, i, src.db.Chains[i][j..]))
    modifies frame
    ensures frame <= grown && fresh(grown - frame)
    ensures ok ==>
              && Shows(fleet, grown, Carried(base, p, policy, PhysicalOf(Ids(dests)), visited'))
              && src.db.ListsValid() && next == src.db.NodeIn(i, j')
              && j' <= |src.db.Chains[i]| == |src.db.Layout[i]|
              && |src.db.Chains[i]| - j' == old(|src.db.Chains[i]|) - j - 1
              && Visits(base[p].db, visited', Rest(src.db.M.Keys, |src.db.buckets|, i, src.db.Chains[i][j'..]))
              && (NoneStuck(policy, |dests|, visited) ==> NoneStuck(policy, |dests|, visited'))
    ensures !ok ==> !NoneStuck(policy, |dests|, base[p].db)
  {
    hide Shows, Carried, Bucket, Holds, Rest, Visits, NoneStuck, Leaving, HashString, Decide, Physical;
    hide HashMap.ListValid, Store.Valid, LruCache.Valid;
    ghost var phys := PhysicalOf(Ids(dests));
    SenderIs(src, fleet, frame, p, base, policy, phys, visited);
    src.db.ChainsHold(i);
    var e, after := src.db.Visit(i, j, node);
    next := after;
    ghost var m, c := src.db.M, src.db.Chains[i];
    RestStep(m, |src.db.buckets|, i, c, j);
    NotYetVisited(base[p].db, visited, Rest(m.Keys, |src.db.buckets|, i, c[j..]), e.key);
    var d;
    ghost var k;
    d, k, grown := CarryOne(src, id, policy, dests, e.key, e.val, fleet, frame, p, base, visited);
    ok := !d.Stuck?;
    visited' := visited[e.key := e.val];
    j' := if d.Move? then j else j + 1;
    StuckOrNot(policy, |dests|, visited, base[p].db, e.key, e.val);
    if ok {
      SenderIs(src, fleet, grown, p, base, policy, phys, visited');
      AfterVisit(base[p].db, visited, m, src.db.M, |src.db.buckets|, i, c, src.db.Chains[i], j, k, policy, phys);
    }
  }

  method WalkBucket(src: Store, id: UInt32, policy: Policy, dests: seq<Label>, i: nat, ghost fleet: Fleet,
                    ghost frame: set<object>, ghost p: UInt32, ghost base: Servers, ghost visited: M.Documents)
      returns (ok: bool, ghost visited': M.Documents, ghost grown: set<object>)
    requires Routed(fleet, p, src, id, policy, dests) && base.Keys == fleet.Keys
    requires Shows(fleet, frame, Carried(base, p, policy, PhysicalOf(Ids(dests)), visited))
    requires i < |src.db.buckets| && AtBucket(base[p].db, visited, src.db, i) && NoneStuck(policy, |dests|, visited)
    modifies frame
    ensures frame <= grown && fresh(grown - frame)
    ensures ok ==>
              && Shows(fleet, grown, Carried(base, p, policy, PhysicalOf(Ids(dests)), visited'))
              && AtBucket(base[p].db, visited', src.db, i + 1)
              && NoneStuck(policy, |dests|, visited')
    ensures !ok ==> !NoneStuck(policy, |dests|, base[p].db)
  {
    hide Shows, Carried, Rest, Visits, NoneStuck, HashMap.ListValid, Physical;
    grown, visited' := frame, visited;
    SenderIs(src, fleet, frame, p, base, policy, PhysicalOf(Ids(dests)), visited);
    src.db.ChainsHold(i);
    ghost var j := 0;
    var node := src.db.Head(i);
    while node != null
      invariant frame <= grown && fresh(grown - frame)
      invariant Shows(fleet, grown, Carried(base, p, policy, PhysicalOf(Ids(dests)), visited'))
      invariant src.db.ListsValid() && i < |src.db.buckets| == |src.db.Chains| == |src.db.Layout|
      invariant 0 <= j <= |src.db.Chains[i]| == |src.db.Layout[i]| && node == src.db.NodeIn(i, j)
      invariant Visits(base[p].db, visited', Rest(src.db.M.Keys, |src.db.buckets|, i, src.db.Chains[i][j..]))
      invariant NoneStuck(policy, |dests|, visited')
      decreases |src.db.Chains[i]| - j
    {
      ok, node, j, visited', grown :=
        VisitNode(src, id, policy, dests, i, node, j, fleet, grown, p, base, visited');
      if !ok {
        return;
      }
    }
    ok := true;
    assert src.db.Chains[i][j..] == [];
    SenderIs(src, fleet, grown, p, base, policy, PhysicalOf(Ids(dests)), visited');
    NextBucket(src.db, base[p].db, visited', i);
  }

  lemma StartWalk(src: Store, fleet: Fleet, frame: set<object>, p: UInt32, base: Servers,
                  policy: Policy, dests: seq<UInt32>, visited: M.Documents)
    requires p in fleet && fleet[p] == src && Suits(policy, |dests|) && visited == map[]
    requires Shows(fleet, frame, base)
    ensures Shows(fleet, frame, Carried(base, p, policy, dests, visited)) && NoneStuck(policy, |dests|, visited)
    ensures AtBucket(base[p].db, visited, src.db, 0)
  {
    hide Carried, AtBucket, HashMap.Valid, LruCache.Valid;
    CarriedNothing(base, p, policy, dests);
    FirstBucket(src.db, base[p].db, visited);
  }

  lemma EndWalk(db: HashMap<CString>, docs: M.Documents, visited: M.Documents)
    requires AtBucket(docs, visited, db, |db.buckets|)
    ensures visited == docs
  {
  }

  /** Walks over all buckets of the sender. */
  method Walk(src: Store, id: UInt32, policy: Policy, dests: seq<Label>, ghost fleet: Fleet,
              ghost frame: set<object>, ghost p: UInt32, ghost base: Servers)
      returns (ok: bool, ghost grown: set<object>)
    requires Routed(fleet, p, src, id, policy, dests) && base.Keys == fleet.Keys && Shows(fleet, frame, base)
    modifies frame
    ensures frame <= grown && fresh(grown - frame)
    ensures ok <==> NoneStuck(policy, |dests|, base[p].db)
    ensures ok ==> Shows(fleet, grown, Carried(base, p, policy, PhysicalOf(Ids(dests)), base[p].db))
  {
    hide Shows, Carried, AtBucket, NoneStuck, GoesTo, Physical;
    ghost var phys, docs := PhysicalOf(Ids(dests)), base[p].db;
    ghost var visited: M.Documents := map[];
    grown := frame;
    StartWalk(src, fleet, frame, p, base, policy, phys, visited);
    for i := 0 to |src.db.buckets|
      invariant frame <= grown && fresh(grown - frame)
      invariant Shows(fleet, grown, Carried(base, p, policy, phys, visited))
      invariant NoneStuck(policy, |dests|, visited) && AtBucket(docs, visited, src.db, i)
    {
      ok, visited, grown := WalkBucket(src, id, policy, dests, i, fleet, grown, p, base, visited);
      if !ok {
        return;
      }
    }
    EndWalk(src.db, docs, visited);
    ok := true;
  }

  // One server of the fleet answers a request or works off its queue; the others stay as they are.

  method FlushInFleet(src: Store, id: UInt32, ghost fleet: Fleet, ghost frame: set<object>, ghost p: UInt32,
                      ghost servers: Servers)
      returns (out: seq<M.Message>, ghost grown: set<object>)
    requires Shows(fleet, frame, servers) && p in fleet && fleet[p] == src
    modifies frame
    ensures frame <= grown && fresh(grown - frame)
    ensures var r := M.SolveQueue(servers[p], id);
            Shows(fleet, grown, WithServer(servers, p, r.0)) && out == r.1
  {
    hide Store.Valid, Store.View, M.SolveQueue;
    TakeOut(fleet, frame, servers, {}, p, {p});
    hide ShowsBut;
    ghost var others := frame - src.Repr;
    out := src.SolveQueue(id);
    PutBack(fleet, others, servers, {p}, p, {});
    grown := others + src.Repr;
  }

  method EditInFleet(store: Store, id: UInt32, e: M.Edit, ghost fleet: Fleet, ghost frame: set<object>, ghost p: UInt32,
                     ghost servers: Servers)
      returns (ok: bool, m: M.Message)
    requires Shows(fleet, frame, servers) && p in fleet && fleet[p] == store
    modifies frame
    ensures p in servers && (ok <==> |servers[p].queue| != M.TASK_QUEUE_SIZE)
    ensures ok ==> var r := M.Enqueue(servers[p], id, e);
                   Shows(fleet, frame, WithServer(servers, p, r.0)) && m == r.1
  {
    hide Store.Valid, Store.View, M.Enqueue;
    TakeOut(fleet, frame, servers, {}, p, {p});
    hide ShowsBut;
    ghost var others := frame - store.Repr;
    ok, m := store.HandleEdit(id, e);
    assert frame == others + store.Repr;
    PutBack(fleet, others, servers, {p}, p, {});
  }

  method GetInFleet(store: Store, id: UInt32, name: CString, ghost fleet: Fleet, ghost frame: set<object>,
                    ghost p: UInt32, ghost servers: Servers)
      returns (out: seq<M.Message>, ghost grown: set<object>)
    requires Shows(fleet, frame, servers) && p in fleet && fleet[p] == store
    modifies frame
    ensures frame <= grown && fresh(grown - frame)
    ensures p in servers && servers[p].cap > 0
    ensures var r := M.Fetch(servers[p], id, name);
            Shows(fleet, grown, WithServer(servers, p, r.0)) && out == r.1
  {
    hide Store.Valid, Store.View, M.Fetch;
    CapIsPositive(fleet, frame, p, servers);
    TakeOut(fleet, frame, servers, {}, p, {p});
    hide ShowsBut;
    ghost var others := frame - store.Repr;
    out := store.HandleGet(id, name);
    PutBack(fleet, others, servers, {p}, p, {});
    grown := others + store.Repr;
  }

  /** A transfer: the sender works off its queue, then walks over its documents. It ends the program when
      there is nowhere to send a document. */
  method Transfer(src: Store, id: UInt32, policy: Policy, dests: seq<Label>, ghost fleet: Fleet,
                  ghost frame: set<object>, ghost p: UInt32, ghost servers: Servers)
      returns (ok: bool, out: seq<M.Message>, ghost grown: set<object>)
    requires Routed(fleet, p, src, id, policy, dests) && Shows(fleet, frame, servers)
    modifies frame
    ensures frame <= grown && fresh(grown - frame)
    ensures p in servers && servers[p].cap > 0
    ensures ok <==> NoneStuck(policy, |dests|, M.SolveQueue(servers[p], id).0.db)
    ensures out == M.SolveQueue(servers[p], id).1
    ensures ok ==> Shows(fleet, grown, Migrate(servers, p, id, policy, PhysicalOf(Ids(dests))).0)
  {
    hide Shows, Carried, NoneStuck, GoesTo, Physical, M.SolveQueue, Ids, PhysicalOf, Fits;
    CapIsPositive(fleet, frame, p, servers);
    ghost var flushed := WithServer(servers, p, M.SolveQueue(servers[p], id).0);
    out, grown := FlushInFleet(src, id, fleet, frame, p, servers);
    ok, grown := Walk(src, id, policy, dests, fleet, grown, p, flushed);
  }

  lemma CapIsPositive(fleet: Fleet, frame: set<object>, p: UInt32, servers: Servers)
    requires p in fleet && Shows(fleet, frame, servers)
    ensures fleet.Keys == servers.Keys && servers[p].cap > 0
  {
    hide HashMap.Valid, LruCache.Valid, Disjoint;
  }

  /** What a transfer between two labels makes of the servers: nothing if they share one. */
  ghost function Handed(servers: Servers, src: UInt32, dest: UInt32, policy: Policy): (r: (Servers, seq<M.Message>))
    requires Physical(src) in servers && servers[Physical(src)].cap > 0 && Suits(policy, 1)
  {
    if Physical(src) == Physical(dest) then (servers, [])
    else Migrate(servers, Physical(src), src, policy, [Physical(dest)])
  }

  lemma NeverStuck(policy: Policy, docs: M.Documents)
    requires Suits(policy, 1) && !policy.NearestOf?
    ensures NoneStuck(policy, 1, docs)
  {
  }

  /** Transfers to a single destination: transfer_files, and the common end of transfer_files_multiple_srcs. */
  method TransferToOne(src: Label, dest: Label, policy: Policy, ghost fleet: Fleet, ghost frame: set<object>,
                       ghost servers: Servers)
      returns (out: seq<M.Message>, ghost grown: set<object>)
    requires Shows(fleet, frame, servers) && Backed(src, fleet) && Backed(dest, fleet)
    requires Suits(policy, 1) && !policy.NearestOf?
    modifies frame
    ensures frame <= grown && fresh(grown - frame)
    ensures Physical(src.id) in servers && servers[Physical(src.id)].cap > 0
    ensures var r := Handed(servers, src.id, dest.id, policy); Shows(fleet, grown, r.0) && out == r.1
  {
    hide Shows, NoneStuck, Physical, Migrate, M.SolveQueue, HashString;
    ghost var p := Physical(src.id);
    CapIsPositive(fleet, frame, p, servers);
    if Physical(src.id) == Physical(dest.id) {
      return [], frame;
    }
    assert PhysicalOf(Ids([dest])) == [Physical(dest.id)];
    var ok;
    ok, out, grown := Transfer(src.store, src.id, policy, [dest], fleet, frame, p, servers);
    NeverStuck(policy, M.SolveQueue(servers[p], src.id).0.db);
    MigrateSays(servers, p, src.id, policy, [Physical(dest.id)]);
  }

  lemma MigrateSays(servers: Servers, p: UInt32, id: UInt32, policy: Policy, dests: seq<UInt32>)
    requires p in servers && servers[p].cap > 0 && Suits(policy, |dests|)
    ensures Migrate(servers, p, id, policy, dests).1 == M.SolveQueue(servers[p], id).1
  {
  }

  function Hashes(ids: seq<UInt32>): seq<UInt32> {
    seq(|ids|, i requires 0 <= i < |ids| => HashUint(ids[i]))
  }

  method TransferFiles(src: Label, dest: Label, forceMove: bool, ghost fleet: Fleet, ghost frame: set<object>,
                       ghost servers: Servers)
      returns (out: seq<M.Message>, ghost grown: set<object>)
    requires Shows(fleet, frame, servers) && Backed(src, fleet) && Backed(dest, fleet)
    modifies frame
    ensures frame <= grown && fresh(grown - frame)
    ensures Physical(src.id) in servers && servers[Physical(src.id)].cap > 0
    ensures var policy := if forceMove then Everything else Interval(HashUint(src.id), HashUint(dest.id));
            var r := Handed(servers, src.id, dest.id, policy);
            Shows(fleet, grown, r.0) && out == r.1
  {
    hide Shows, Backed, Handed, HashUint;
    var policy := if forceMove then Everything else Interval(HashUint(src.id), HashUint(dest.id));
    out, grown := TransferToOne(src, dest, policy, fleet, frame, servers);
  }

  method TransferFilesMultipleSrcs(replicas: seq<Label>, src: Label, dest: Label, ghost fleet: Fleet,
                                   ghost frame: set<object>, ghost servers: Servers)
      returns (out: seq<M.Message>, ghost grown: set<object>)
    requires Shows(fleet, frame, servers) && Backed(src, fleet) && Backed(dest, fleet) && |replicas| == 3
    modifies frame
    ensures frame <= grown && fresh(grown - frame)
    ensures Physical(src.id) in servers && servers[Physical(src.id)].cap > 0
    ensures var ids := Ids(replicas);
            var policy := OwnInterval(HashUint(src.id), HashUint(dest.id), src.id, ids, Hashes(ids));
            var r := Handed(servers, src.id, dest.id, policy);
            Shows(fleet, grown, r.0) && out == r.1
  {
    hide Shows, Backed, Handed, HashUint;
    var ids := Ids(replicas);
    var policy := OwnInterval(HashUint(src.id), HashUint(dest.id), src.id, ids, Hashes(ids));
    out, grown := TransferToOne(src, dest, policy, fleet, frame, servers);
  }

  /** The decision taken for the documents of server p when it leaves. */
  function NearestAmong(ids: seq<UInt32>, p: UInt32): (policy: Policy)
    ensures Suits(policy, |ids|)
  {
    NearestOf(Hashes(ids), Foreign(ids, p))
  }

  /** When a server leaves there is no early return; without a label of another server the program ends at
      the first document. */
  method TransferFilesMultipleDests(src: Label, dests: seq<Label>, ghost fleet: Fleet, ghost frame: set<object>,
                                    ghost servers: Servers)
      returns (ok: bool, out: seq<M.Message>, ghost grown: set<object>)
    requires Shows(fleet, frame, servers) && Backed(src, fleet)
    requires forall i :: 0 <= i < |dests| ==> Backed(dests[i], fleet)
    modifies frame
    ensures frame <= grown && fresh(grown - frame)
    ensures Physical(src.id) in servers && servers[Physical(src.id)].cap > 0
    ensures out == M.SolveQueue(servers[Physical(src.id)], src.id).1
    ensures ok <==> true in Foreign(Ids(dests), Physical(src.id))
                    || M.SolveQueue(servers[Physical(src.id)], src.id).0.db == map[]
    ensures ok ==> Shows(fleet, grown, Migrate(servers, Physical(src.id), src.id,
                                               NearestAmong(Ids(dests), Physical(src.id)), PhysicalOf(Ids(dests))).0)
  {
    hide Shows, HashUint, Physical, Migrate, M.SolveQueue, NoneStuck, HashString, PickDestination;
    ghost var p := Physical(src.id);
    var ids := Ids(dests);
    CapIsPositive(fleet, frame, p, servers);
    var policy := NearestAmong(ids, Physical(src.id));
    NobodySendsToItself(Hashes(ids), ids, p);
    StuckWithoutOthers(Hashes(ids), Foreign(ids, p), M.SolveQueue(servers[p], src.id).0.db);
    ok, out, grown := Transfer(src.store, src.id, policy, dests, fleet, frame, p, servers);
  }

  lemma NobodySendsToItself(points: seq<UInt32>, ids: seq<UInt32>, p: UInt32)
    requires |points| == |ids|
    ensures forall n :: GoesTo(NearestOf(points, Foreign(ids, p)), PhysicalOf(ids), n) != Some(p)
  {
  }

  lemma StuckWithoutOthers(points: seq<UInt32>, eligible: seq<bool>, docs: M.Documents)
    requires |points| == |eligible|
    ensures NoneStuck(NearestOf(points, eligible), |points|, docs) <==> true in eligible || docs == map[]
  {
  }
}
