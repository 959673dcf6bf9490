/**
 What a server prints, message by message, told from the requests it has had: the edits it still owes a reply
 for, and the history of the uses of its cache. Neither database nor cache occurs here.
 */
module Accounts {
  import opened Hashing
  import opened Wrappers
  import opened CacheModel
  import opened Recency
  import opened ServerModel

  datatype Account = Account(cap: nat, pending: seq<Reply>, history: History)

  /** The name that makes room when another one comes: as many names are ahead of it as a full cache allows. */
  ghost predicate Oldest(a: Account, name: CString) {
    Resident(a.history, a.cap, name) && |Ahead(a.history, name)| + 1 == a.cap
  }

  /** What is logged when a stored name is asked for or edited. */
  ghost function LogOf(a: Account, name: CString): Log {
    if Resident(a.history, a.cap, name) then Hit(name)
    else if exists v :: Oldest(a, v) then
      var v :| Oldest(a, v);
      MissEvicting(name, v)
    else Miss(name)
  }

  function Used(a: Account, name: CString): Account {
    a.(history := a.history + [Use(name)])
  }

  function NameIn(r: Reply): CString {
    if r.Created? || r.Overridden? then r.name else []
  }

  /** All edits that are owed are executed, oldest first. */
  ghost function Flushed(a: Account, id: UInt32): (Account, seq<Message>)
    decreases |a.pending|
  {
    if a.pending == [] then (a, [])
    else
      var r := a.pending[0];
      var (b, ms) := Flushed(Used(a, NameIn(r)).(pending := a.pending[1..]), id);
      (b, [Message(id, r, LogOf(a, NameIn(r)))] + ms)
  }

  /** A get of a name that holds what the map says, after the edits that are owed. */
  ghost function Asked(a: Account, id: UInt32, m: Documents, name: CString): (Account, seq<Message>) {
    var (b, ms) := Flushed(a, id);
    if name in m then (Used(b, name), ms + [Message(id, Content(m[name]), LogOf(b, name))])
    else (b, ms + [Message(id, NoContent, Absent(name))])
  }

  /** An edit is owed a reply, the one of the plain map at this time. */
  function Submitted(a: Account, id: UInt32, m: Documents, e: Edit): (Account, Message) {
    (a.(pending := a.pending + [EditReply(m, e)]), Message(id, Queued(e.name), QueueSize(|a.pending| + 1)))
  }

  function GivenAway(a: Account, names: set<CString>): Account {
    a.(history := a.history + [Gone(names)])
  }

  /** The server has kept the account. */
  ghost predicate Kept(s: Server, a: Account) {
    && Coherent(s) && s.cap == a.cap
    && EditReplies(s.db, s.queue) == a.pending
    && Follows(s.cache, a.history, a.cap)
  }

  lemma OldestIsLast(c: Slots, a: Account, name: CString)
    requires Follows(c, a.history, a.cap)
    ensures Oldest(a, name) <==> |c| == a.cap && |c| > 0 && c[|c| - 1].key == name
  {
    FollowsBounded(c, a.history, a.cap);
    assert Resident(a.history, a.cap, name) <==> Holds(c, name);
    hide Resident, Ahead;
    if Holds(c, name) {
      var i := PlaceOf(c, a.history, a.cap, name);
      hide Follows;
    }
  }

  /** The log of a use of the cache is told by the account. */
  lemma LogIs(c: Slots, a: Account, name: CString, val: CString)
    requires Follows(c, a.history, a.cap) && a.cap > 0
    ensures LogOf(a, name) == if Holds(c, name) then Hit(name) else MissLog(name, Put(c, a.cap, name, val).evicted)
  {
    hide Resident, Ahead;
    if !Holds(c, name) {
      if |c| == a.cap {
        OldestIsLast(c, a, c[|c| - 1].key);
        var v :| Oldest(a, v);
        OldestIsLast(c, a, v);
        forall v | Oldest(a, v)
          ensures v == c[|c| - 1].key
        {
          OldestIsLast(c, a, v);
        }
      } else if v :| Oldest(a, v) {
        OldestIsLast(c, a, v);
      }
    }
  }

  lemma DistinctWhenKept(s: Server, a: Account)
    requires Kept(s, a)
    ensures DistinctKeys(s.cache)
  {
  }

  /** Executing the oldest edit that is owed prints what the account says. */
  lemma EditIsKept(s: Server, a: Account, id: UInt32)
    requires Kept(s, a) && s.queue != []
    ensures a.pending != []
    ensures var (t, m) := EditDocument(s.(queue := s.queue[1..]), id, s.queue[0]);
            var r := a.pending[0];
            && m == Message(id, r, LogOf(a, NameIn(r)))
            && Kept(t, Used(a, NameIn(r)).(pending := a.pending[1..]))
  {
    hide Touch, Put, Follows, LogOf, Bounded;
    var e, popped := s.queue[0], s.(queue := s.queue[1..]);
    EditKeepsCoherent(popped, id, e);
    assert DistinctKeys(s.cache) by { DistinctWhenKept(s, a); }
    PutAfterTouch(s.cache, s.cap, e.name, e.content);
    LogIs(s.cache, a, e.name, e.content);
    PutFollows(s.cache, a.history, a.cap, e.name, e.content);
  }

  /** Working off the queue prints what the account says. */
  lemma {:induction false} FlushIsKept(s: Server, a: Account, id: UInt32)
    requires Kept(s, a)
    ensures var (t, ms) := SolveQueue(s, id);
            t.queue == [] && ms == Flushed(a, id).1 && Kept(t, Flushed(a, id).0)
    decreases |s.queue|
  {
    if s.queue != [] {
      EditIsKept(s, a, id);
      hide Kept, LogOf, EditDocument;
      var (s1, m) := EditDocument(s.(queue := s.queue[1..]), id, s.queue[0]);
      var r := a.pending[0];
      FlushIsKept(s1, Used(a, NameIn(r)).(pending := a.pending[1..]), id);
    }
  }

  /** So does a get, for a map that agrees with the server about the name. */
  lemma GetIsKept(s: Server, a: Account, id: UInt32, m: Documents, name: CString)
    requires Kept(s, a) && GetReply(Effective(s), name) == GetReply(m, name)
    ensures var (t, ms) := Fetch(s, id, name);
            ms == Asked(a, id, m, name).1 && Kept(t, Asked(a, id, m, name).0)
  {
    FlushIsKept(s, a, id);
    SolveQueueIsEager(s, id);
    var t, b := SolveQueue(s, id).0, Flushed(a, id).0;
    GetKeepsCoherent(t, id, name);
    hide SolveQueue, Flushed, LogOf, Put, Touch, Follows;
    if Holds(t.cache, name) {
      HitIsStored(t, name);
      LogIs(t.cache, b, name, t.db[name]);
      TouchFollows(t.cache, b.history, b.cap, name);
    } else if name in t.db {
      LogIs(t.cache, b, name, t.db[name]);
      PutFollows(t.cache, b.history, b.cap, name, t.db[name]);
    }
  }

  lemma SubmitIsKept(s: Server, a: Account, id: UInt32, m: Documents, e: Edit)
    requires Kept(s, a) && (e.name in Effective(s) <==> e.name in m)
    ensures var (t, notice) := Enqueue(s, id, e);
            notice == Submitted(a, id, m, e).1 && Kept(t, Submitted(a, id, m, e).0)
  {
    hide Follows, Bounded;
    ApplyEditsAppend(s.db, s.queue, e);
    RepliesCount(s.db, s.queue);
  }

  lemma {:induction false} RepliesCount(m: Documents, q: seq<Edit>)
    ensures |EditReplies(m, q)| == |q|
    decreases |q|
  {
    if q != [] {
      RepliesCount(m[q[0].name := q[0].content], q[1..]);
    }
  }

  /** Giving documents away, with nothing pending, is an event of the history; the others are not affected. */
  lemma ReleaseIsKept(s: Server, a: Account, names: set<CString>)
    requires Kept(s, a) && s.queue == []
    ensures Kept(Release(s, names), GivenAway(a, names))
  {
    hide Follows, Bounded, Without;
    ReleaseKeepsCoherent(s, names);
    WithoutFollows(s.cache, a.history, a.cap, names);
  }

  lemma ReceiveIsKept(s: Server, a: Account, docs: Documents)
    requires Kept(s, a) && docs.Keys !! Effective(s).Keys
    ensures Kept(Receive(s, docs), a)
  {
    hide Follows, Bounded;
    ReceiveKeepsCoherent(s, docs);
    ApplyEditsCommutes(s.db, s.queue, docs);
  }

  // One step on any coherent server, without a history.

  /** An edit, executed, puts its pair in front; the others keep their order, and only the last one can be lost,
      by a new name in a full cache. */
  lemma EditUsesCache(s: Server, id: UInt32, e: Edit)
    requires Coherent(s)
    ensures var c, after := s.cache, EditDocument(s, id, e).0.cache;
            && after != [] && after[0] == Slot(e.name, e.content)
            && after[1..] == if Holds(c, e.name) then Without(c, {e.name})
                             else if |c| == s.cap then c[..|c| - 1] else c
  {
    hide Touch;
    PutAfterTouch(s.cache, s.cap, e.name, e.content);
    if Holds(s.cache, e.name) {
      WithoutOne(s.cache, IndexOf(s.cache, e.name));
    }
  }

  /** So does a get of a stored name; a get of any other name leaves the cache alone. */
  lemma GetUsesCache(s: Server, id: UInt32, name: CString)
    requires Coherent(s)
    ensures var c, after := s.cache, GetDocument(s, id, name).0.cache;
            if name in s.db then
              && after != [] && after[0] == Slot(name, s.db[name])
              && after[1..] == if Holds(c, name) then Without(c, {name})
                               else if |c| == s.cap then c[..|c| - 1] else c
            else after == c
  {
    if Holds(s.cache, name) {
      HitIsStored(s, name);
      WithoutOne(s.cache, IndexOf(s.cache, name));
    }
  }

  /** The log tells exactly what the cache did: a hit, or which name was lost and why, or that none was. */
  lemma EditLogs(s: Server, id: UInt32, e: Edit)
    requires Coherent(s)
    ensures var (t, m) := EditDocument(s, id, e);
            && (m.log == Hit(e.name) <==> Holds(s.cache, e.name))
            && (m.log == Miss(e.name) <==> !Holds(s.cache, e.name) && |s.cache| < s.cap)
            && (forall v :: m.log == MissEvicting(e.name, v)
                  <==> !Holds(s.cache, e.name) && |s.cache| == s.cap && v == s.cache[|s.cache| - 1].key)
            && (forall v :: m.log == MissEvicting(e.name, v) <==> Holds(s.cache, v) && !Holds(t.cache, v))
  {
    hide Touch;
    PutAfterTouch(s.cache, s.cap, e.name, e.content);
    forall v
      ensures Put(s.cache, s.cap, e.name, e.content).evicted == Some(v)
              <==> Holds(s.cache, v) && !Holds(EditDocument(s, id, e).0.cache, v)
    {
      EvictedIsLost(s.cache, s.cap, e.name, e.content, v);
    }
  }

  /** So does the log of a get, which also tells when nothing was found. */
  lemma GetLogs(s: Server, id: UInt32, name: CString)
    requires Coherent(s)
    ensures var (t, m) := GetDocument(s, id, name);
            && (m.log == Hit(name) <==> Holds(s.cache, name))
            && (m.log == Absent(name) <==> name !in s.db)
            && (m.log == Miss(name) <==> !Holds(s.cache, name) && name in s.db && |s.cache| < s.cap)
            && (forall v :: m.log == MissEvicting(name, v)
                  <==> !Holds(s.cache, name) && name in s.db && |s.cache| == s.cap && v == s.cache[|s.cache| - 1].key)
            && (forall v :: m.log == MissEvicting(name, v) <==> Holds(s.cache, v) && !Holds(t.cache, v))
  {
    if Holds(s.cache, name) {
      HitIsStored(s, name);
      TouchKeepsBounded(s.cache, s.cap, name);
      SameNames(s.cache, Touch(s.cache, name));
      hide Touch;
    } else if name in s.db {
      forall v
        ensures Put(s.cache, s.cap, name, s.db[name]).evicted == Some(v)
                <==> Holds(s.cache, v) && !Holds(GetDocument(s, id, name).0.cache, v)
      {
        EvictedIsLost(s.cache, s.cap, name, s.db[name], v);
      }
      hide Put;
    }
  }

  lemma SameNames(c: Slots, c': Slots)
    requires forall s :: s in c' <==> s in c
    ensures forall v :: Holds(c, v) <==> Holds(c', v)
  {
    forall v
      ensures Holds(c, v) <==> Holds(c', v)
    {
      if Holds(c, v) {
        assert c[IndexOf(c, v)] in c';
      }
      if Holds(c', v) {
        assert c'[IndexOf(c', v)] in c;
      }
    }
  }

  // Whole runs of one server.

  ghost function AccountStep(a: Account, m: Documents, id: UInt32, op: ServerOp): (Account, seq<Message>) {
    match op
    case Submit(e) => var (b, notice) := Submitted(a, id, m, e); (b, [notice])
    case Ask(name) => Asked(a, id, m, name)
    case GiveAway(names) => var (b, ms) := Flushed(a, id); (GivenAway(b, names), ms)
    case TakeIn(docs) => (a, [])
  }

  ghost function AccountRun(a: Account, m: Documents, id: UInt32, ops: seq<ServerOp>): (Account, seq<Message>)
    decreases |ops|
  {
    if ops == [] then (a, [])
    else
      var (b, ms) := AccountStep(a, m, id, ops[0]);
      var (c, ms') := AccountRun(b, EagerStep(m, ops[0]).0, id, ops[1..]);
      (c, ms + ms')
  }

  lemma StepIsKept(s: Server, a: Account, id: UInt32, op: ServerOp)
    requires Kept(s, a) && (op.TakeIn? ==> op.docs.Keys !! Effective(s).Keys)
    ensures var (t, ms) := ServerStep(s, id, op);
            ms == AccountStep(a, Effective(s), id, op).1 && Kept(t, AccountStep(a, Effective(s), id, op).0)
  {
    CoherentWhenKept(s, a);
    hide Kept, Coherent, Effective, SolveQueue, Flushed, Fetch, Enqueue;
    match op
    case Submit(e) => SubmitIsKept(s, a, id, Effective(s), e);
    case Ask(name) => GetIsKept(s, a, id, Effective(s), name);
    case GiveAway(names) =>
      FlushIsKept(s, a, id);
      ReleaseIsKept(SolveQueue(s, id).0, Flushed(a, id).0, names);
    case TakeIn(docs) => ReceiveIsKept(s, a, docs);
  }

  /** Every message that a server ever prints, and the contents of its cache at any time, are told by its
      account: by the requests alone. */
  lemma {:induction false} RunIsKept(s: Server, a: Account, id: UInt32, ops: seq<ServerOp>)
    requires Kept(s, a) && Legal(Effective(s), ops)
    ensures var (t, ms) := ServerRun(s, id, ops);
            && ms == AccountRun(a, Effective(s), id, ops).1
            && Kept(t, AccountRun(a, Effective(s), id, ops).0)
    decreases |ops|
  {
    if ops != [] {
      assert Coherent(s) by { CoherentWhenKept(s, a); }
      StepIsTransparent(s, id, ops[0]);
      StepIsKept(s, a, id, ops[0]);
      hide Kept, Coherent, ServerStep, EagerStep, Effective, Answered, AccountStep;
      RunIsKept(ServerStep(s, id, ops[0]).0, AccountStep(a, Effective(s), id, ops[0]).0, id, ops[1..]);
    }
  }

  lemma CoherentWhenKept(s: Server, a: Account)
    requires Kept(s, a)
    ensures Coherent(s) && s.cap == a.cap
  {
  }

  lemma NewAccount(cap: nat)
    requires cap > 0
    ensures Kept(Server(map[], [], cap, []), Account(cap, [], []))
  {
    NothingCached(cap);
  }

  /** The cache of a server that started empty: the names resident by its history, in the order of their last
      use, each with the stored content. */
  lemma CacheOfRun(cap: nat, id: UInt32, ops: seq<ServerOp>)
    requires cap > 0 && Legal(map[], ops)
    ensures var t := ServerRun(Server(map[], [], cap, []), id, ops).0;
            var h := AccountRun(Account(cap, [], []), map[], id, ops).0.history;
            && (forall n :: Holds(t.cache, n) <==> Resident(h, cap, n))
            && (forall i :: 0 <= i < |t.cache| ==> |Ahead(h, t.cache[i].key)| == i)
            && (forall c :: c in t.cache ==> c.key in t.db && t.db[c.key] == c.val)
  {
    var s, a := Server(map[], [], cap, []), Account(cap, [], []);
    NewAccount(cap);
    RunIsKept(s, a, id, ops);
    SameCapacity(a, map[], id, ops);
    var t, h := ServerRun(s, id, ops).0, AccountRun(a, map[], id, ops).0.history;
    hide ServerRun, AccountRun, Legal, Resident, Ahead;
    forall i | 0 <= i < |t.cache|
      ensures |Ahead(h, t.cache[i].key)| == i
    {
      CountKeys(t.cache[..i]);
    }
  }

  lemma {:induction false} FlushKeepsCapacity(a: Account, id: UInt32)
    ensures Flushed(a, id).0.cap == a.cap
    decreases |a.pending|
  {
    if a.pending != [] {
      FlushKeepsCapacity(Used(a, NameIn(a.pending[0])).(pending := a.pending[1..]), id);
    }
  }

  lemma {:induction false} SameCapacity(a: Account, m: Documents, id: UInt32, ops: seq<ServerOp>)
    ensures AccountRun(a, m, id, ops).0.cap == a.cap
    decreases |ops|
  {
    if ops != [] {
      FlushKeepsCapacity(a, id);
      SameCapacity(AccountStep(a, m, id, ops[0]).0, EagerStep(m, ops[0]).0, id, ops[1..]);
    }
  }
}
