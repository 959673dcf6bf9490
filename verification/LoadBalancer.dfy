/**
 The load balancer: the sorted array of labels in front of the physical servers. Every method is shown to
 make the step of the state machine.
 */
module LoadBalancers {
  import opened Hashing
  import opened Sequences
  import opened Ring
  import opened Migration
  import S = SystemModel
  import R = SystemRuns
  import M = ServerModel
  import opened ArrayLists
  import opened Stores
  import opened Transfers

  // The comparators that the array is searched with.

  function CompareUints(a: UInt32, b: UInt32): int {
    if a > b then 1 else if a < b then -1 else 0
  }

  function CmpServers(first: Label, second: Label): int {
    CompareUints(HashUint(first.id), HashUint(second.id))
  }

  function CmpServerToHash(srv: Label, hash: UInt32): int {
    CompareUints(HashUint(srv.id), hash)
  }

  function CmpServerToId(srv: Label, id: UInt32): int {
    srv.id - id
  }

  /** What becomes of a negative index that is passed on as `unsigned int`. */
  function AsUnsigned(index: int): nat {
    if index < 0 then 0xFFFF_FFFF else index
  }

  /** The next index, modulo the size. */
  function Next(index: int, size: nat): (next: nat)
    requires size > 0 && -1 <= index < size
    ensures next == if index + 1 == size then 0 else index + 1
  {
    (index + 1) % size
  }

  /** The array holds the labels of the ring in the order of their hashes, each with its server's object. */
  ghost predicate Listed(labels: seq<Label>, fleet: Fleet, ring: Points) {
    && R.Hashed(ring) && Sorted(Ids(labels), ring)
    && forall i :: 0 <= i < |labels| ==> Backed(labels[i], fleet)
  }

  ghost predicate HashesAscend(labels: seq<Label>) {
    forall i, j :: 0 <= i < j < |labels| ==> HashUint(labels[i].id) < HashUint(labels[j].id)
  }

  lemma ListedAscends(labels: seq<Label>, fleet: Fleet, ring: Points)
    requires Listed(labels, fleet, ring)
    ensures HashesAscend(labels)
    ensures forall i :: 0 <= i < |labels| ==> labels[i].id in ring
  {
    hide HashUint, Backed;
    forall i | 0 <= i < |labels|
      ensures labels[i].id in ring && ring[Ids(labels)[i]] == HashUint(labels[i].id)
    {
      assert Ids(labels)[i] in Ids(labels);
    }
  }

  lemma ListedHashes(labels: seq<Label>, fleet: Fleet, ring: Points)
    requires Listed(labels, fleet, ring)
    ensures R.Hashed(ring)
  {
  }

  lemma NotListed(labels: seq<Label>, fleet: Fleet, ring: Points, id: UInt32)
    requires Listed(labels, fleet, ring) && forall l :: l in labels ==> l.id != id
    ensures id !in ring
  {
  }

  lemma InsertKeepsListed(labels: seq<Label>, fleet: Fleet, ring: Points, l: Label, k: nat)
    requires Listed(labels, fleet, ring) && Backed(l, fleet) && l.id !in ring && k <= |labels|
    requires forall i :: 0 <= i < k ==> HashUint(labels[i].id) <= HashUint(l.id)
    requires forall i :: k <= i < |labels| ==> HashUint(labels[i].id) > HashUint(l.id)
    ensures Listed(Inserted(labels, k, l), fleet, ring[l.id := HashUint(l.id)])
  {
    hide HashUint, Sorted;
    ListedAscends(labels, fleet, ring);
    forall i | 0 <= i < k
      ensures HashUint(labels[i].id) != HashUint(l.id)
    {
      HashUintInjective(labels[i].id, l.id);
    }
    InsertKeepsSorted(Ids(labels), ring, l.id, HashUint(l.id), k);
    assert Ids(Inserted(labels, k, l)) == Inserted(Ids(labels), k, l.id);
  }

  lemma EraseKeepsListed(labels: seq<Label>, fleet: Fleet, ring: Points, k: nat)
    requires Listed(labels, fleet, ring) && k < |labels|
    ensures Listed(Erased(labels, k), fleet, ring - {labels[k].id})
  {
    hide HashUint, Sorted;
    EraseKeepsSorted(Ids(labels), ring, k);
    assert Ids(Erased(labels, k)) == Erased(Ids(labels), k);
  }

  lemma OwnerListed(labels: seq<Label>, fleet: Fleet, ring: Points, h: UInt32, k: nat)
    requires Listed(labels, fleet, ring) && k < |labels|
    requires forall i :: 0 <= i < k ==> HashUint(labels[i].id) < h
    requires HashUint(labels[k].id) >= h || (k == 0 && forall i :: 0 <= i < |labels| ==> HashUint(labels[i].id) < h)
    ensures ring != map[] && labels[k].id == Owner(ring, h) && Backed(labels[k], fleet)
  {
    hide HashUint, Backed, Owner;
    ListedAscends(labels, fleet, ring);
    FirstAtLeastIsOwner(Ids(labels), ring, h, k);
  }

  lemma NextListed(labels: seq<Label>, fleet: Fleet, ring: Points, i: nat)
    requires Listed(labels, fleet, ring) && i < |labels|
    ensures labels[i].id in ring && labels[Next(i, |labels|)].id == Successor(ring, labels[i].id)
    ensures Backed(labels[i], fleet) && Backed(labels[Next(i, |labels|)], fleet)
  {
    hide HashUint, Sorted, Successor, Next;
    NextIsSuccessor(Ids(labels), ring, i);
  }

  /** The policy that the transfer after an insertion works with. */
  function InsertPolicy(vnodes: bool, src: UInt32, dest: UInt32, replicas: seq<UInt32>): (policy: Policy)
    requires |replicas| == 3
    ensures Suits(policy, 1) && !policy.NearestOf?
  {
    if vnodes then OwnInterval(HashUint(src), HashUint(dest), src, replicas, Hashes(replicas))
    else Interval(HashUint(src), HashUint(dest))
  }

  lemma ReplicasHash(ring: Points, p: UInt32)
    requires R.Hashed(ring) && S.HasLabels(ring, true, p)
    ensures S.PointsOf(ring, S.Replicas(p)) == Hashes(S.Replicas(p))
  {
    hide HashUint;
  }

  /** A label of the source that is not on the ring means that source and destination share a server. */
  lemma MissingMeansSameServer(s: S.State, id: UInt32, point: UInt32, l: UInt32)
    requires S.Insertable(s, id, point)
    requires var ring := s.ring[id := point];
             var p := Physical(Successor(ring, id));
             p < 100000 && l in S.LabelsOf(s.vnodes, p) && l !in ring
    ensures Physical(Successor(s.ring[id := point], id)) == Physical(id)
  {
    hide Physical, Successor, S.LabelsOf;
    S.InsertKeepsLabels(s, id, point);
    var ring := s.ring[id := point];
    var p := Physical(Successor(ring, id));
    assert p != Physical(id) ==> S.HasLabels(ring, s.vnodes, p);
  }

  /** The transfer that follows the insertion of a label makes the step of the state machine. Replicas that
      were not found do no harm: then source and destination share a server and nothing is decided. */
  lemma InsertTransfers(s: S.State, id: UInt32, src: UInt32, replicas: seq<UInt32>)
    requires S.Insertable(s, id, HashUint(id)) && R.Hashed(s.ring) && |replicas| == 3
    requires var ring := s.ring[id := HashUint(id)];
             && src == Successor(ring, id)
             && (s.vnodes && S.HasLabels(ring, true, Physical(src)) ==> replicas == S.Replicas(Physical(src)))
    ensures Physical(src) in s.servers && s.servers[Physical(src)].cap > 0
    ensures var h := Handed(s.servers, src, id, InsertPolicy(s.vnodes, src, id, replicas));
            S.AddLabel(s, id, HashUint(id)) == (S.State(s.vnodes, s.ring[id := HashUint(id)], h.0), h.1)
  {
    hide HashUint, Successor, Physical, Migrate, S.LabelsOf;
    S.InsertKeepsLabels(s, id, HashUint(id));
    var ring := s.ring[id := HashUint(id)];
    if Physical(src) != Physical(id) {
      assert S.HasLabels(ring, s.vnodes, Physical(src));
      if s.vnodes {
        ReplicasHash(ring, Physical(src));
      }
    }
  }

  lemma ShowsOneMore(fleet: Fleet, frame: set<object>, servers: Servers, id: UInt32, store: Store)
    requires Shows(fleet, frame, servers) && id !in fleet
    requires store.Valid() && store in store.Repr && store.Repr !! frame
    ensures Shows(fleet[id := store], frame + store.Repr, WithServer(servers, id, store.View()))
  {
    hide Store.Valid, Store.View;
  }

  lemma ShowsOneLess(fleet: Fleet, frame: set<object>, servers: Servers, p: UInt32)
    requires Shows(fleet, frame, servers)
    ensures Shows(fleet - {p}, frame, servers - {p})
  {
  }

  lemma ListedInSmaller(labels: seq<Label>, fleet: Fleet, ring: Points, p: UInt32)
    requires Listed(labels, fleet, ring) && forall l :: l in ring ==> Physical(l) != p
    ensures Listed(labels, fleet - {p}, ring)
  {
    ListedAscends(labels, fleet, ring);
    hide Sorted, Physical, R.Hashed, HashUint;
  }

  lemma ListedInLarger(labels: seq<Label>, fleet: Fleet, ring: Points, id: UInt32, store: Store)
    requires Listed(labels, fleet, ring) && id !in fleet
    ensures Listed(labels, fleet[id := store], ring)
  {
  }

  lemma NoLabelsLeft(s: S.State, id: UInt32, labels: seq<UInt32>)
    requires labels == [] && R.Adding(s, id, labels)
    ensures R.AddLabels(s, id, labels) == (s, [])
  {
  }

  lemma LabelsAreThere(s: S.State, p: UInt32)
    requires S.Shape(s, {}) && p in s.servers
    ensures p < 100000 && Physical(p) == p && p in s.ring && S.HasLabels(s.ring, s.vnodes, p)
  {
    assert S.HasLabels(s.ring, s.vnodes, p) && p in S.LabelsOf(s.vnodes, p);
  }

  /** Without virtual nodes, handing everything to the next label makes the step of the state machine. */
  lemma SingleRemoval(s: S.State, p: UInt32)
    requires S.Shape(s, {}) && !s.vnodes && p in s.servers
    ensures p in s.ring && Physical(p) == p && s.servers[p].cap > 0
    ensures var h := Handed(s.servers, p, Successor(s.ring, p), Everything);
            S.RemoveLabels(s, p) == S.Running(S.State(s.vnodes, s.ring - {p}, h.0 - {p}), h.1)
  {
    assert S.HasLabels(s.ring, s.vnodes, p) && S.LabelsOf(s.vnodes, p) == {p};
    hide S.Shape, Successor, Migrate, S.LabelsOf;
    var f := S.Followers(s, p);
    assert f == [Successor(s.ring, p)] && PhysicalOf(f) == [Physical(f[0])];
    assert Foreign(f, p) == [Physical(f[0]) != p];
  }

  /** With virtual nodes, handing every document to the nearest eligible follower does. */
  lemma ReplicatedRemoval(s: S.State, p: UInt32, f: seq<UInt32>)
    requires S.Shape(s, {}) && R.Hashed(s.ring) && s.vnodes && p in s.servers && f == S.Followers(s, p)
    ensures s.servers[p].cap > 0
    ensures var sent := M.SolveQueue(s.servers[p], p);
            S.RemoveLabels(s, p) ==
              if true in Foreign(f, p) || sent.0.db == map[] then
                S.Running(S.State(s.vnodes, s.ring - S.LabelsOf(true, p),
                                  Migrate(s.servers, p, p, NearestAmong(f, p), PhysicalOf(f)).0 - {p}), sent.1)
              else S.Exited(sent.1)
  {
    hide HashUint, Physical;
    S.FollowersAre(s, p);
    assert S.PointsOf(s.ring, f) == Hashes(f);
    var policy, dests := NearestAmong(f, p), PhysicalOf(f);
    assert S.RemovalPolicy(s, p) == policy;
    hide S.Shape, S.Followers, S.LabelsOf, NearestAmong, S.RemovalPolicy;
    MigrateSays(s.servers, p, p, policy, dests);
    if M.SolveQueue(s.servers[p], p).0.db == map[] {
      NothingToCarry(s.servers, p, policy, dests);
    }
  }

  lemma NothingToCarry(servers: Servers, p: UInt32, policy: Policy, dests: seq<UInt32>)
    requires p in servers && servers[p].cap > 0 && Suits(policy, |dests|)
    requires M.SolveQueue(servers[p], p).0.db == map[]
    ensures Migrate(servers, p, p, policy, dests).0 - {p} == servers - {p}
  {
    hide M.SolveQueue, Carried, Suits;
    var sent := M.SolveQueue(servers[p], p).0;
    CarriedNothing(WithServer(servers, p, sent), p, policy, dests);
  }

  class LoadBalancer {
    const vnodes: bool
    const servers: ArrayList<Label>
    ghost var fleet: Fleet
    ghost var frame: set<object>
    ghost var state: S.State

    /** The state is the one that the array and the servers' objects stand for. */
    ghost predicate Standing()
      reads this, servers, servers.data, frame
    {
      && this !in frame && servers !in frame && servers.data !in frame
      && servers.Valid()
      && state.vnodes == vnodes
      && Listed(servers.Contents, fleet, state.ring)
      && Shows(fleet, frame, state.servers)
    }

    /** Between two requests. */
    ghost predicate Valid()
      reads this, servers, servers.data, frame
    {
      Standing() && R.Ready(state)
    }

    lemma StandingMeans()
      requires Standing()
      ensures state.vnodes == vnodes && fleet.Keys == state.servers.Keys && R.Hashed(state.ring)
    {
    }

    constructor (enableVnodes: bool)
      ensures Valid() && state == S.State(enableVnodes, map[], map[])
      ensures fresh(servers) && fresh(servers.data) && frame == {}
    {
      vnodes := enableVnodes;
      servers := new ArrayList<Label>();
      fleet, frame := map[], {};
      state := S.State(enableVnodes, map[], map[]);
    }

    /** What a method shows of the step that it makes: the new state and the answers, or the exit. */
    ghost predicate Shown(ok: bool, out: seq<M.Message>, step: S.Outcome)
      reads this, servers, servers.data, frame
    {
      if ok then step == S.Running(state, out) && Valid() else step == S.Exited(out)
    }

    /** al_find_by with the comparators of the load balancer. */
    method FindLabel(id: UInt32) returns (index: int)
      requires Standing()
      ensures -1 <= index < |servers.Contents| == servers.size
      ensures index >= 0 <==> id in state.ring
      ensures index >= 0 ==> servers.Contents[index].id == id
    {
      hide HashUint, Shows, Listed;
      ListedAscends(servers.Contents, fleet, state.ring);
      index := servers.FindBy(HashUint(id), id, CmpServerToHash, CmpServerToId);
      if index < 0 {
        NotListed(servers.Contents, fleet, state.ring, id);
      }
    }

    /** Inserts the label into the array. */
    method Place(id: UInt32, store: Store) returns (destIndex: nat)
      requires Standing() && id !in state.ring && Backed(Label(id, store), fleet)
      modifies this`state, servers, servers.data
      ensures Standing() && (servers.data == old(servers.data) || fresh(servers.data))
      ensures state == old(state).(ring := old(state).ring[id := HashUint(id)])
      ensures destIndex < |servers.Contents| == servers.size && servers.Contents[destIndex] == Label(id, store)
    {
      hide HashUint, Shows, Listed, Backed, ArrayList.Valid;
      ListedAscends(servers.Contents, fleet, state.ring);
      destIndex := servers.InsertOrdered(Label(id, store), CmpServers);
      InsertKeepsListed(old(servers.Contents), fleet, state.ring, Label(id, store), destIndex);
      InsertedElements(old(servers.Contents), destIndex, Label(id, store));
      state := state.(ring := state.ring[id := HashUint(id)]);
    }

    /** The labels that stand for the three replicas of a server; a replica that is not on the ring yet is
        replaced by the last label of all. */
    method FindReplicas(p: UInt32) returns (replicas: seq<Label>)
      requires Standing() && servers.size > 0 && p < 100000
      ensures |replicas| == 3
      ensures S.HasLabels(state.ring, true, p) ==> Ids(replicas) == S.Replicas(p)
    {
      hide Shows, Listed;
      replicas := [];
      for i := 0 to 3
        invariant |replicas| == i
        invariant S.HasLabels(state.ring, true, p) ==>
                    forall j :: 0 <= j < i ==> replicas[j].id == p + j * 100000
      {
        var id := p + i * 100000;
        var index := FindLabel(id);
        replicas := replicas + [servers.Get(AsUnsigned(index))];
      }
    }

    /** The transfer that follows an insertion. */
    method HandOver(src: Label, dest: Label, ghost before: S.State) returns (out: seq<M.Message>, ghost grown: set<object>)
      requires Standing() && servers.size > 0 && R.Hashed(before.ring) && S.Insertable(before, dest.id, HashUint(dest.id))
      requires state == before.(ring := before.ring[dest.id := HashUint(dest.id)])
      requires src.id == Successor(state.ring, dest.id) && Backed(src, fleet) && Backed(dest, fleet)
      modifies frame
      ensures frame <= grown && fresh(grown - frame)
      ensures var r := S.AddLabel(before, dest.id, HashUint(dest.id));
              Shows(fleet, grown, r.0.servers) && out == r.1
    {
      hide HashUint, Shows, Listed, Physical, Handed, ArrayList.Valid, S.Insertable, Successor;
      if vnodes {
        PhysicalIsSmall(src.id);
        var replicas := FindReplicas(Physical(src.id));
        InsertTransfers(before, dest.id, src.id, Ids(replicas));
        out, grown := TransferFilesMultipleSrcs(replicas, src, dest, fleet, frame, state.servers);
      } else {
        InsertTransfers(before, dest.id, src.id, [0, 0, 0]);
        out, grown := TransferFiles(src, dest, false, fleet, frame, state.servers);
      }
    }

    /** Inserts a label and lets its successor on the ring hand over documents. */
    method AddLabel(id: UInt32, store: Store) returns (out: seq<M.Message>)
      requires Standing() && S.Insertable(state, id, HashUint(id)) && Backed(Label(id, store), fleet)
      modifies this`state, this`frame, servers, servers.data, frame
      ensures fleet == old(fleet) && Standing() && (servers.data == old(servers.data) || fresh(servers.data))
      ensures old(frame) <= frame && fresh(frame - old(frame))
      ensures (state, out) == S.AddLabel(old(state), id, HashUint(id))
    {
      hide HashUint, Shows, Listed, Physical, Handed, ArrayList.Valid, S.Shape, Injective;
      ghost var before := state;
      ListedHashes(servers.Contents, fleet, state.ring);
      var destIndex := Place(id, store);
      NextListed(servers.Contents, fleet, state.ring, destIndex);
      var src, dest := servers.Get(Next(destIndex, servers.size)), servers.Get(destIndex);
      ghost var grown;
      out, grown := HandOver(src, dest, before);
      frame := grown;
      state := S.AddLabel(before, id, HashUint(id)).0;
    }

    /** A new server, without labels yet, joins the fleet. */
    ghost method Enrol(id: UInt32, store: Store)
      requires Standing() && id !in fleet
      requires store.Valid() && store in store.Repr && store.Repr !! frame + {this, servers, servers.data}
      modifies this`fleet, this`frame, this`state
      ensures Standing() && frame == old(frame) + store.Repr
      ensures fleet == old(fleet)[id := store]
      ensures state == old(state).(servers := WithServer(old(state).servers, id, store.View()))
    {
      hide ArrayList.Valid, Store.Valid, Store.View, Physical, HashUint, Shows, Listed, WithServer;
      ShowsOneMore(fleet, frame, state.servers, id, store);
      ListedInLarger(servers.Contents, fleet, state.ring, id, store);
      fleet, frame := fleet[id := store], frame + store.Repr;
      state := state.(servers := WithServer(state.servers, id, store.View()));
    }

    /** Inserts the next label of a server that is being added. */
    method AddNext(id: UInt32, label_: UInt32, store: Store, ghost labels: seq<UInt32>) returns (out: seq<M.Message>)
      requires Standing() && R.Adding(state, id, labels) && labels != [] && labels[0] == label_
      requires id in fleet && fleet[id] == store
      modifies this`state, this`frame, servers, servers.data, frame
      ensures fleet == old(fleet) && Standing() && (servers.data == old(servers.data) || fresh(servers.data))
      ensures old(frame) <= frame && fresh(frame - old(frame))
      ensures R.Adding(state, id, labels[1..])
      ensures var rest := R.AddLabels(state, id, labels[1..]);
              R.AddLabels(old(state), id, labels) == (rest.0, out + rest.1)
    {
      hide R.Adding, HashUint, S.Insertable, S.AddLabel, Standing;
      ghost var r := R.AddHashed(state, id, labels);
      out := AddLabel(label_, store);
    }

    /** Inserts the one label, or the three labels, of a new server. */
    method AddAll(id: UInt32, store: Store) returns (out: seq<M.Message>)
      requires Standing() && id < 100000 && R.Adding(state, id, S.LabelList(vnodes, id))
      requires id in fleet && fleet[id] == store
      modifies this`state, this`frame, servers, servers.data, frame
      ensures Standing() && (servers.data == old(servers.data) || fresh(servers.data))
      ensures old(frame) <= frame && fresh(frame - old(frame))
      ensures (state, out) == R.AddLabels(old(state), id, S.LabelList(vnodes, id))
    {
      hide R.Adding, HashUint, Standing, R.AddLabels;
      ghost var labels := S.LabelList(vnodes, id);
      out := AddNext(id, id, store, labels);
      if vnodes {
        var second := AddNext(id, id + 100000, store, labels[1..]);
        var third := AddNext(id, id + 200000, store, labels[1..][1..]);
        NoLabelsLeft(state, id, labels[1..][1..][1..]);
        assert out + (second + (third + [])) == out + second + third;
        out := out + second + third;
      } else {
        NoLabelsLeft(state, id, labels[1..]);
        assert out + [] == out;
      }
    }

    /** loader_add_server. */
    method AddServer(id: UInt32, cacheSize: nat) returns (out: seq<M.Message>)
      requires Valid() && R.Admissible(state.servers.Keys, R.AddServer(id, cacheSize))
      modifies this`fleet, this`state, this`frame, servers, servers.data, frame
      ensures Valid() && (servers.data == old(servers.data) || fresh(servers.data))
      ensures old(frame) <= frame && fresh(frame - old(frame))
      ensures (state, out) == R.AddServerLabels(old(state), id, cacheSize)
    {
      hide R.Adding, HashUint, Standing, R.Ready, R.AddLabels, S.LabelList;
      ghost var before := state;
      StandingMeans();
      var store := new Store(cacheSize);
      R.NewServerIsBusy(before, id, cacheSize);
      Enrol(id, store);
      assert state == R.WithNewServer(before, id, cacheSize);
      out := AddAll(id, store);
      R.AllLabelsAdded(state, id);
    }

    /** The label that serves a name: binary search for the first hash that is not smaller. */
    method FindOwner(name: CString) returns (srv: Label)
      requires Standing() && servers.size > 0
      ensures state.ring != map[] && srv.id == Owner(state.ring, HashString(name)) && Backed(srv, fleet)
    {
      hide HashUint, HashString, Shows, Backed, Owner;
      var hashDocument := ComputeHashString(name);
      ListedAscends(servers.Contents, fleet, state.ring);
      ghost var k;
      srv, k := servers.GetOrdered(hashDocument, CmpServerToHash);
      OwnerListed(servers.Contents, fleet, state.ring, hashDocument, k);
    }

    /** Without labels there is no server. */
    lemma EmptyRing()
      requires Standing()
      ensures servers.size == 0 <==> state.ring == map[]
    {
      hide HashUint, Shows, ArrayList.Get;
      if servers.size > 0 {
        assert Ids(servers.Contents)[0] in state.ring;
      }
    }

    /** loader_forward_request for an edit. */
    method ForwardEdit(e: M.Edit) returns (ok: bool, out: seq<M.Message>)
      requires Valid()
      modifies this`state, frame
      ensures frame == old(frame) && servers.data == old(servers.data)
      ensures Shown(ok, out, R.ForwardEdit(old(state), e))
    {
      hide HashUint, HashString, Shows, Listed, Physical, M.Enqueue, Owner, ArrayList.Valid;
      EmptyRing();
      if servers.size == 0 {
        return true, [];
      }
      var srv := FindOwner(e.name);
      ghost var p := Physical(srv.id);
      var m;
      ok, m := EditInFleet(srv.store, srv.id, e, fleet, frame, p, state.servers);
      out := if ok then [m] else [];
      if ok {
        state := state.(servers := WithServer(state.servers, p, M.Enqueue(state.servers[p], srv.id, e).0));
      }
    }

    /** loader_forward_request for a get. */
    method ForwardGet(name: CString) returns (out: seq<M.Message>)
      requires Valid()
      modifies this`state, this`frame, frame
      ensures servers.data == old(servers.data) && old(frame) <= frame && fresh(frame - old(frame))
      ensures Shown(true, out, R.ForwardGet(old(state), name))
    {
      hide HashUint, HashString, Shows, Listed, Physical, M.Fetch, Owner, ArrayList.Valid;
      EmptyRing();
      if servers.size == 0 {
        return [];
      }
      var srv := FindOwner(name);
      ghost var p := Physical(srv.id);
      ghost var grown;
      out, grown := GetInFleet(srv.store, srv.id, name, fleet, frame, p, state.servers);
      frame := grown;
      state := state.(servers := WithServer(state.servers, p, M.Fetch(state.servers[p], srv.id, name).0));
    }

    /** Erases the label at an index of the array. */
    method EraseAt(index: nat)
      requires Standing() && index < |servers.Contents|
      modifies this`state, servers, servers.data
      ensures Standing() && (servers.data == old(servers.data) || fresh(servers.data))
      ensures state == old(state).(ring := old(state).ring - {old(servers.Contents)[index].id})
    {
      hide HashUint, Shows, Listed, ArrayList.Valid;
      SizeIs();
      servers.Erase(index);
      EraseKeepsListed(old(servers.Contents), fleet, state.ring, index);
      state := state.(ring := state.ring - {old(servers.Contents)[index].id});
    }

    lemma SizeIs()
      requires Standing()
      ensures servers.size == |servers.Contents|
    {
    }

    /** A server without labels leaves the fleet. */
    ghost method Expel(p: UInt32)
      requires Standing() && forall l :: l in state.ring ==> Physical(l) != p
      modifies this`fleet, this`state
      ensures Standing() && state == old(state).(servers := old(state).servers - {p})
    {
      hide HashUint, Shows, Listed, ArrayList.Valid, Physical;
      ShowsOneLess(fleet, frame, state.servers, p);
      ListedInSmaller(servers.Contents, fleet, state.ring, p);
      fleet := fleet - {p};
      state := state.(servers := state.servers - {p});
    }

    /** The label found for id, its index, and the next label. */
    method LabelAndNext(id: UInt32) returns (index: int, srv: Label, next: Label)
      requires Standing() && id in state.ring
      ensures 0 <= index < |servers.Contents| && servers.Contents[index] == srv && srv.id == id
      ensures next.id == Successor(state.ring, id) && Backed(srv, fleet) && Backed(next, fleet)
    {
      hide HashUint, Shows, Listed, Successor, Physical;
      index := FindLabel(id);
      NextListed(servers.Contents, fleet, state.ring, index);
      srv, next := servers.Get(AsUnsigned(index)), servers.Get(Next(index, servers.size));
    }

    /** internal_loader_remove_server: everything goes to the next label. */
    method RemoveSingle(id: UInt32) returns (out: seq<M.Message>)
      requires Valid() && !vnodes && id in state.servers
      modifies this`fleet, this`state, this`frame, servers, servers.data, frame
      ensures servers.data == old(servers.data) || fresh(servers.data)
      ensures old(frame) <= frame && fresh(frame - old(frame))
      ensures Shown(true, out, S.RemoveLabels(old(state), id))
    {
      hide HashUint, Shows, Listed, Handed, Physical, S.RemoveLabels;
      ghost var before := state;
      SingleRemoval(before, id);
      var index, src, dest := LabelAndNext(id);
      ghost var grown;
      out, grown := TransferFiles(src, dest, true, fleet, frame, state.servers);
      frame := grown;
      state := state.(servers := Handed(before.servers, src.id, dest.id, Everything).0);
      EraseAt(index);
      S.OthersOnRing(before, id);
      Expel(id);
    }

    /** The labels that follow the three labels of a server. */
    method FindFollowers(p: UInt32) returns (dests: seq<Label>)
      requires Standing() && vnodes && S.HasLabels(state.ring, true, p)
      ensures Ids(dests) == S.Followers(state, p) && forall i :: 0 <= i < |dests| ==> Backed(dests[i], fleet)
    {
      hide Standing, Successor, Backed;
      StandingMeans();
      dests := [];
      for i := 0 to 3
        invariant |dests| == i
        invariant forall j :: 0 <= j < i ==>
                    Backed(dests[j], fleet) && dests[j].id == Successor(state.ring, S.Replicas(p)[j])
      {
        var newId := p + 100000 * i;
        assert newId == S.Replicas(p)[i];
        var _, _, dest := LabelAndNext(newId);
        dests := dests + [dest];
      }
    }

    /** Erases the three labels of a server. */
    method EraseReplicas(p: UInt32)
      requires Standing() && S.HasLabels(state.ring, true, p)
      modifies this`state, servers, servers.data
      ensures Standing() && (servers.data == old(servers.data) || fresh(servers.data))
      ensures state == old(state).(ring := old(state).ring - S.LabelsOf(true, p))
    {
      hide Standing;
      for i := 0 to 3
        invariant Standing() && (servers.data == old(servers.data) || fresh(servers.data))
        invariant state == old(state).(ring := old(state).ring - (set j | 0 <= j < i :: p + 100000 * j))
      {
        var index := FindLabel(p + 100000 * i);
        EraseAt(index);
      }
      assert (set j | 0 <= j < 3 :: p + 100000 * j) == S.LabelsOf(true, p) by {
        assert p + 100000 * 0 == p && p + 100000 * 1 == p + 100000 && p + 100000 * 2 == p + 200000;
      }
    }

    /** internal_loader_remove_server_with_vnodes: every document goes to the nearest follower of another
        server. */
    method RemoveReplicated(id: UInt32) returns (ok: bool, out: seq<M.Message>)
      requires Valid() && vnodes && id in state.servers
      modifies this`fleet, this`state, this`frame, servers, servers.data, frame
      ensures servers.data == old(servers.data) || fresh(servers.data)
      ensures old(frame) <= frame && fresh(frame - old(frame))
      ensures Shown(ok, out, S.RemoveLabels(old(state), id))
    {
      hide HashUint, Shows, Listed, Physical, S.RemoveLabels, Migrate, NearestAmong, Foreign, S.Followers;
      hide S.LabelsOf, M.SolveQueue, ArrayList.Valid, S.Placed, S.RemovalPolicy, M.Effective, S.CapacitiesStay;
      ghost var before := state;
      LabelsAreThere(before, id);
      var index, src, _ := LabelAndNext(id);
      var dests := FindFollowers(id);
      ReplicatedRemoval(before, id, Ids(dests));
      ghost var grown;
      ok, out, grown := TransferFilesMultipleDests(src, dests, fleet, frame, state.servers);
      if !ok {
        return;
      }
      frame := grown;
      state := state.(servers := Migrate(before.servers, id, id, NearestAmong(Ids(dests), id), PhysicalOf(Ids(dests))).0);
      EraseReplicas(id);
      S.OthersOnRing(before, id);
      Expel(id);
    }

    /** loader_remove_server. */
    method RemoveServer(id: UInt32) returns (ok: bool, out: seq<M.Message>)
      requires Valid() && id in state.servers
      modifies this`fleet, this`state, this`frame, servers, servers.data, frame
      ensures servers.data == old(servers.data) || fresh(servers.data)
      ensures old(frame) <= frame && fresh(frame - old(frame))
      ensures Shown(ok, out, S.RemoveLabels(old(state), id))
    {
      hide Shown, Valid, S.RemoveLabels;
      if vnodes {
        ok, out := RemoveReplicated(id);
      } else {
        out := RemoveSingle(id);
        ok := true;
      }
    }
  }
}
