/**
 Migration of documents between physical servers. The three transfer functions differ only in how they
 decide where a document goes; that decision is a policy.
 */
module Migration {
  import opened Hashing
  import opened Wrappers
  import opened Ring
  import opened ServerModel

  function PhysicalOf(ids: seq<UInt32>): seq<UInt32> {
    seq(|ids|, i requires 0 <= i < |ids| => Physical(ids[i]))
  }

  /** Which of the labels belong to another server than p. */
  function Foreign(ids: seq<UInt32>, p: UInt32): seq<bool> {
    seq(|ids|, i requires 0 <= i < |ids| => Physical(ids[i]) != p)
  }

  /** How a transfer function decides about a document:
      - Everything: transfer_files with force_move;
      - Interval: transfer_files without it;
      - OwnInterval: transfer_files_multiple_srcs, where pick_src must also name the sending label;
      - NearestOf: transfer_files_multiple_dests, where pick_dest chooses among eligible labels. */
  datatype Policy =
    | Everything
    | Interval(src: UInt32, dest: UInt32)
    | OwnInterval(src: UInt32, dest: UInt32, sender: UInt32, replicas: seq<UInt32>, points: seq<UInt32>)
    | NearestOf(points: seq<UInt32>, eligible: seq<bool>)

  datatype Decision = Stay | Move(k: nat) | Stuck

  /** The policy can choose among n destinations. */
  predicate Suits(policy: Policy, n: nat) {
    match policy
    case OwnInterval(_, _, _, replicas, points) => n == 1 && |replicas| == |points| && |points| > 0
    case NearestOf(points, eligible) => n == |points| && n == |eligible|
    case _ => n == 1
  }

  function Decide(policy: Policy, n: nat, h: UInt32): (d: Decision)
    requires Suits(policy, n)
    ensures d.Move? ==> d.k < n
  {
    match policy
    case Everything => Move(0)
    case Interval(src, dest) => if ShouldMove(src, h, dest) then Move(0) else Stay
    case OwnInterval(src, dest, sender, replicas, points) =>
      if ShouldMove(src, h, dest) && replicas[PickSource(h, points)] == sender then Move(0) else Stay
    case NearestOf(points, eligible) =>
      match PickDestination(h, points, eligible)
      case None => Stuck
      case Some(k) => Move(k)
  }

  /** The server that a document moves to, if it moves. */
  function GoesTo(policy: Policy, dests: seq<UInt32>, name: CString): Option<UInt32>
    requires Suits(policy, |dests|)
  {
    var d := Decide(policy, |dests|, HashString(name));
    if d.Move? then Some(dests[d.k]) else None
  }

  function Leaving(policy: Policy, dests: seq<UInt32>, docs: Documents): set<CString>
    requires Suits(policy, |dests|)
  {
    set n | n in docs && GoesTo(policy, dests, n).Some?
  }

  function Arriving(policy: Policy, dests: seq<UInt32>, docs: Documents, r: UInt32): Documents
    requires Suits(policy, |dests|)
  {
    map n | n in docs && GoesTo(policy, dests, n) == Some(r) :: docs[n]
  }

  type Servers = map<UInt32, Server>

  ghost predicate AllCoherent(servers: Servers) {
    forall r :: r in servers ==> Coherent(servers[r])
  }

  /** Server p has visited some of its documents and sent away those that have to go. */
  function Carried(servers: Servers, p: UInt32, policy: Policy, dests: seq<UInt32>, visited: Documents): Servers
    requires p in servers && Suits(policy, |dests|)
  {
    map r | r in servers ::
      if r == p then Release(servers[p], Leaving(policy, dests, visited))
      else Receive(servers[r], Arriving(policy, dests, visited, r))
  }

  lemma CarriedNothing(servers: Servers, p: UInt32, policy: Policy, dests: seq<UInt32>)
    requires p in servers && Suits(policy, |dests|)
    ensures Carried(servers, p, policy, dests, map[]) == servers
  {
    NothingMoves(servers[p]);
    assert Leaving(policy, dests, map[]) == {};
    forall r | r in servers && r != p
      ensures Receive(servers[r], Arriving(policy, dests, map[], r)) == servers[r]
    {
      NothingMoves(servers[r]);
      assert Arriving(policy, dests, map[], r) == map[];
    }
  }

  /** One document has gone from p to q. */
  function MovedOne(servers: Servers, p: UInt32, q: UInt32, n: CString, c: CString): Servers
    requires p in servers && q in servers
  {
    servers[p := Release(servers[p], {n})][q := Receive(servers[q], map[n := c])]
  }

  /** Visiting one more document changes the two servers concerned, or none. */
  lemma CarriedOneMore(servers: Servers, p: UInt32, policy: Policy, dests: seq<UInt32>, visited: Documents,
                       n: CString, c: CString)
    requires p in servers && Suits(policy, |dests|) && n !in visited
    requires GoesTo(policy, dests, n) != Some(p)
    ensures var before, after := Carried(servers, p, policy, dests, visited), Carried(servers, p, policy, dests, visited[n := c]);
            match GoesTo(policy, dests, n)
            case None => after == before
            case Some(q) => q in servers ==> after == MovedOne(before, p, q, n, c)
  {
    hide GoesTo, Release, Receive, Leaving, Arriving;
    var goes := GoesTo(policy, dests, n);
    LeavingOneMore(policy, dests, visited, n, c);
    OneMoreMoves(servers[p], Leaving(policy, dests, visited), map[], n, c);
    forall r | r in servers
      ensures Arriving(policy, dests, visited[n := c], r)
           == if goes == Some(r) then Arriving(policy, dests, visited, r)[n := c] else Arriving(policy, dests, visited, r)
    {
      ArrivingOneMore(policy, dests, visited, n, c, r);
    }
    if goes.Some? && goes.value in servers {
      OneMoreMoves(servers[goes.value], {}, Arriving(policy, dests, visited, goes.value), n, c);
    }
  }

  lemma LeavingOneMore(policy: Policy, dests: seq<UInt32>, visited: Documents, n: CString, c: CString)
    requires Suits(policy, |dests|)
    ensures Leaving(policy, dests, visited[n := c])
         == if GoesTo(policy, dests, n).Some? then Leaving(policy, dests, visited) + {n} else Leaving(policy, dests, visited)
  {
  }

  lemma ArrivingOneMore(policy: Policy, dests: seq<UInt32>, visited: Documents, n: CString, c: CString, r: UInt32)
    requires Suits(policy, |dests|) && n !in visited
    ensures Arriving(policy, dests, visited[n := c], r)
         == if GoesTo(policy, dests, n) == Some(r) then Arriving(policy, dests, visited, r)[n := c]
            else Arriving(policy, dests, visited, r)
  {
    hide GoesTo;
  }

  /** Server p works off its queue and sends its documents away as the policy says. */
  function Migrate(servers: Servers, p: UInt32, id: UInt32, policy: Policy, dests: seq<UInt32>)
      : (r: (Servers, seq<Message>))
    requires p in servers && servers[p].cap > 0 && Suits(policy, |dests|)
    ensures r.0.Keys == servers.Keys
    ensures forall q :: q in servers ==> r.0[q].cap == servers[q].cap
  {
    var (sent, ms) := SolveQueue(servers[p], id);
    (Carried(servers[p := sent], p, policy, dests, sent.db), ms)
  }

  /** Conservation: nothing is lost or duplicated between the servers. */
  lemma MigrateMovesExactly(servers: Servers, p: UInt32, id: UInt32, policy: Policy, dests: seq<UInt32>)
    requires p in servers && AllCoherent(servers) && Suits(policy, |dests|)
    requires forall r :: r in servers && r != p ==> Effective(servers[r]).Keys !! Effective(servers[p]).Keys
    ensures var docs, after := Effective(servers[p]), Migrate(servers, p, id, policy, dests).0;
            && after.Keys == servers.Keys && AllCoherent(after)
            && Effective(after[p]) == docs - Leaving(policy, dests, docs)
            && forall r :: r in after && r != p ==>
                 Effective(after[r]) == Effective(servers[r]) + Arriving(policy, dests, docs, r)
  {
    hide GoesTo, Leaving, Arriving;
    SolveQueueIsEager(servers[p], id);
    var sent := SolveQueue(servers[p], id).0;
    hide SolveQueue;
    ReleaseKeepsCoherent(sent, Leaving(policy, dests, sent.db));
    forall r | r in servers && r != p
      ensures Coherent(Receive(servers[r], Arriving(policy, dests, sent.db, r)))
      ensures Effective(Receive(servers[r], Arriving(policy, dests, sent.db, r)))
           == Effective(servers[r]) + Arriving(policy, dests, sent.db, r)
    {
      ArrivingKeys(policy, dests, sent.db, r);
      ReceiveKeepsCoherent(servers[r], Arriving(policy, dests, sent.db, r));
    }
  }

  lemma ArrivingKeys(policy: Policy, dests: seq<UInt32>, docs: Documents, r: UInt32)
    requires Suits(policy, |dests|)
    ensures Arriving(policy, dests, docs, r).Keys <= docs.Keys
  {
  }

  /** The server that serves a document. */
  ghost function HomeOf(ring: Points, name: CString): UInt32
    requires ring != map[]
  {
    Physical(Owner(ring, HashString(name)))
  }

  /** The documents that belong on a server when m holds the documents of the whole system. */
  ghost function Owned(m: Documents, ring: Points, p: UInt32): Documents {
    if ring == map[] then map[]
    else map n | n in m && HomeOf(ring, n) == p :: m[n]
  }

  /** Every server, with its queue worked off, holds the documents that it owns and no others. */
  ghost predicate EachHoldsItsOwn(servers: Servers, ring: Points, m: Documents) {
    forall r :: r in servers ==> Effective(servers[r]) == Owned(m, ring, r)
  }

  /** The server that holds a document of p after the migration. */
  function Destination(policy: Policy, dests: seq<UInt32>, p: UInt32, name: CString): UInt32
    requires Suits(policy, |dests|)
  {
    match GoesTo(policy, dests, name)
    case Some(q) => q
    case None => p
  }

  /** What server r holds after server p, holding docs, has sent its documents away. */
  ghost function HeldAfter(m: Documents, before: Points, p: UInt32, policy: Policy, dests: seq<UInt32>, r: UInt32)
      : Documents
    requires Suits(policy, |dests|)
  {
    var docs := Owned(m, before, p);
    if r == p then docs - Leaving(policy, dests, docs)
    else Owned(m, before, r) + Arriving(policy, dests, docs, r)
  }

  /** The ring changes from before to after, and only documents of p may have to move. */
  ghost predicate OnlyAffects(m: Documents, before: Points, after: Points, p: UInt32,
                              policy: Policy, dests: seq<UInt32>)
    requires Suits(policy, |dests|)
  {
    && before != map[] && after != map[]
    && forall n :: n in m ==>
         if HomeOf(before, n) == p then GoesTo(policy, dests, n) != Some(p)
         else HomeOf(after, n) == HomeOf(before, n)
  }

  /** Every document of p goes to the server that serves it afterwards. */
  ghost predicate SendsHome(m: Documents, before: Points, after: Points, p: UInt32,
                            policy: Policy, dests: seq<UInt32>)
    requires Suits(policy, |dests|) && before != map[] && after != map[]
  {
    forall n :: n in m && HomeOf(before, n) == p ==> HomeOf(after, n) == Destination(policy, dests, p, n)
  }

  lemma HeldAfterIsOwned(m: Documents, before: Points, after: Points, p: UInt32,
                         policy: Policy, dests: seq<UInt32>, r: UInt32)
    requires Suits(policy, |dests|) && OnlyAffects(m, before, after, p, policy, dests)
    requires SendsHome(m, before, after, p, policy, dests)
    ensures HeldAfter(m, before, p, policy, dests, r) == Owned(m, after, r)
  {
    hide HomeOf, GoesTo;
    var held, owned := HeldAfter(m, before, p, policy, dests, r), Owned(m, after, r);
    forall n
      ensures n in held <==> n in owned
      ensures n in held && n in owned ==> held[n] == owned[n]
    {
    }
  }

  lemma HeldOnlyAtDestination(m: Documents, before: Points, after: Points, p: UInt32,
                              policy: Policy, dests: seq<UInt32>, n: CString)
    requires Suits(policy, |dests|) && OnlyAffects(m, before, after, p, policy, dests)
    requires n in m && HomeOf(before, n) == p
    requires var q := Destination(policy, dests, p, n);
             HeldAfter(m, before, p, policy, dests, q) == Owned(m, after, q)
    ensures HomeOf(after, n) == Destination(policy, dests, p, n)
  {
    hide HomeOf, GoesTo;
    assert n in HeldAfter(m, before, p, policy, dests, Destination(policy, dests, p, n));
  }

  lemma MigrateLeavesHeldAfter(servers: Servers, p: UInt32, id: UInt32, policy: Policy, dests: seq<UInt32>,
                               m: Documents, before: Points)
    requires p in servers && AllCoherent(servers) && Suits(policy, |dests|)
    requires EachHoldsItsOwn(servers, before, m)
    ensures var result := Migrate(servers, p, id, policy, dests).0;
            && result.Keys == servers.Keys && AllCoherent(result)
            && forall r :: r in result ==> Effective(result[r]) == HeldAfter(m, before, p, policy, dests, r)
  {
    hide HomeOf, GoesTo, Migrate, Coherent;
    MigrateMovesExactly(servers, p, id, policy, dests);
  }

  /** A migration fits a change of the ring exactly when it sends every document of p home. */
  lemma MigrationPlacesExactly(servers: Servers, p: UInt32, id: UInt32, policy: Policy, dests: seq<UInt32>,
                               m: Documents, before: Points, after: Points)
    requires p in servers && AllCoherent(servers) && Suits(policy, |dests|)
    requires EachHoldsItsOwn(servers, before, m) && OnlyAffects(m, before, after, p, policy, dests)
    requires forall q :: q in dests ==> q in servers
    ensures var result := Migrate(servers, p, id, policy, dests).0;
            && result.Keys == servers.Keys && AllCoherent(result)
            && (EachHoldsItsOwn(result, after, m) <==> SendsHome(m, before, after, p, policy, dests))
  {
    var result := Migrate(servers, p, id, policy, dests).0;
    MigrateLeavesHeldAfter(servers, p, id, policy, dests, m, before);
    hide Migrate, Effective, HeldAfter, Owned, Coherent;
    if SendsHome(m, before, after, p, policy, dests) {
      forall r | r in result
        ensures Effective(result[r]) == Owned(m, after, r)
      {
        HeldAfterIsOwned(m, before, after, p, policy, dests, r);
      }
    } else if EachHoldsItsOwn(result, after, m) {
      forall n | n in m && HomeOf(before, n) == p
        ensures HomeOf(after, n) == Destination(policy, dests, p, n)
      {
        HeldOnlyAtDestination(m, before, after, p, policy, dests, n);
      }
      assert false;
    }
  }
}
