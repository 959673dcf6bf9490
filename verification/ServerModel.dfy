/**
 The value a physical server stands for, and what its operations compute: a database, a cache in
 front of it, and a queue of edits that are executed only when somebody needs their effect.
 */
module ServerModel {
  import opened Hashing
  import opened Wrappers
  import opened CacheModel

  const TASK_QUEUE_SIZE := 1000

  type Documents = map<CString, CString>

  datatype Edit = Edit(name: CString, content: CString)

  datatype Reply =
    | Created(name: CString)
    | Overridden(name: CString)
    | Content(text: CString)
    | NoContent
    | Queued(name: CString)

  datatype Log =
    | Hit(name: CString)
    | Miss(name: CString)
    | MissEvicting(name: CString, victim: CString)
    | Absent(name: CString)
    | QueueSize(size: nat)

  /** What is printed for one request, under the label through which the server was reached. */
  datatype Message = Message(label_: UInt32, reply: Reply, log: Log)

  datatype Server = Server(db: Documents, cache: Slots, cap: nat, queue: seq<Edit>)

  function MissLog(name: CString, evicted: Option<CString>): Log {
    match evicted
    case None => Miss(name)
    case Some(victim) => MissEvicting(name, victim)
  }

  function EditDocument(s: Server, id: UInt32, e: Edit): (Server, Message)
    requires s.cap > 0
  {
    var hit := Holds(s.cache, e.name);
    var put := Put(Touch(s.cache, e.name), s.cap, e.name, e.content);
    (s.(db := s.db[e.name := e.content], cache := put.slots),
     Message(id,
             if hit || e.name in s.db then Overridden(e.name) else Created(e.name),
             if hit then Hit(e.name) else MissLog(e.name, put.evicted)))
  }

  function GetDocument(s: Server, id: UInt32, name: CString): (Server, Message)
    requires s.cap > 0
  {
    if Holds(s.cache, name) then
      (s.(cache := Touch(s.cache, name)),
       Message(id, Content(s.cache[IndexOf(s.cache, name)].val), Hit(name)))
    else if name in s.db then
      var put := Put(s.cache, s.cap, name, s.db[name]);
      (s.(cache := put.slots), Message(id, Content(s.db[name]), MissLog(name, put.evicted)))
    else
      (s, Message(id, NoContent, Absent(name)))
  }

  /** Executes the whole queue, oldest edit first. */
  function SolveQueue(s: Server, id: UInt32): (r: (Server, seq<Message>))
    requires s.cap > 0
    ensures r.0.cap == s.cap
    decreases |s.queue|
  {
    if s.queue == [] then (s, [])
    else
      var (s1, m) := EditDocument(s.(queue := s.queue[1..]), id, s.queue[0]);
      var (s2, ms) := SolveQueue(s1, id);
      (s2, [m] + ms)
  }

  function Enqueue(s: Server, id: UInt32, e: Edit): (Server, Message) {
    (s.(queue := s.queue + [e]), Message(id, Queued(e.name), QueueSize(|s.queue| + 1)))
  }

  function Fetch(s: Server, id: UInt32, name: CString): (r: (Server, seq<Message>))
    requires s.cap > 0
    ensures |r.1| > 0 && r.0.cap == s.cap
  {
    var (s1, ms) := SolveQueue(s, id);
    var (s2, m) := GetDocument(s1, id, name);
    (s2, ms + [m])
  }

  /** The sending side of a migration: the documents leave the database and the cache. */
  function Release(s: Server, names: set<CString>): Server {
    s.(db := s.db - names, cache := Without(s.cache, names))
  }

  /** The receiving side writes the database only. */
  function Receive(s: Server, docs: Documents): Server {
    s.(db := s.db + docs)
  }

  lemma NothingMoves(s: Server)
    ensures Release(s, {}) == s && Receive(s, map[]) == s
  {
    WithoutAbsent(s.cache, {});
    assert s.db - {} == s.db && s.db + map[] == s.db;
  }

  lemma OneMoreMoves(s: Server, names: set<CString>, docs: Documents, n: CString, c: CString)
    ensures Release(Release(s, names), {n}) == Release(s, names + {n})
    ensures Receive(Receive(s, docs), map[n := c]) == Receive(s, docs[n := c])
  {
    WithoutTwice(s.cache, names, {n});
    assert s.db - names - {n} == s.db - (names + {n});
    assert s.db + docs + map[n := c] == s.db + docs[n := c];
  }

  function ApplyEdits(m: Documents, q: seq<Edit>): Documents
    decreases |q|
  {
    if q == [] then m else ApplyEdits(m[q[0].name := q[0].content], q[1..])
  }

  /** The documents of a server once its queue is worked off. */
  function Effective(s: Server): Documents {
    ApplyEdits(s.db, s.queue)
  }

  /** Every cached pair is in the database with the same value. */
  ghost predicate Coherent(s: Server) {
    && s.cap > 0
    && Bounded(s.cache, s.cap)
    && forall c :: c in s.cache ==> c.key in s.db && s.db[c.key] == c.val
  }

  lemma HitIsStored(s: Server, name: CString)
    requires Coherent(s) && Holds(s.cache, name)
    ensures name in s.db && s.db[name] == s.cache[IndexOf(s.cache, name)].val
  {
  }

  lemma EditKeepsCoherent(s: Server, id: UInt32, e: Edit)
    requires Coherent(s)
    ensures var r := EditDocument(s, id, e);
            && Coherent(r.0)
            && r.1.reply == EditReply(s.db, e)
  {
    hide Touch, Put;
    PutAfterTouch(s.cache, s.cap, e.name, e.content);
    PutKeepsBounded(s.cache, s.cap, e.name, e.content);
    if Holds(s.cache, e.name) {
      HitIsStored(s, e.name);
    }
  }

  lemma GetKeepsCoherent(s: Server, id: UInt32, name: CString)
    requires Coherent(s)
    ensures var r := GetDocument(s, id, name);
            && Coherent(r.0) && r.0.db == s.db && r.0.queue == s.queue
            && r.1.reply == GetReply(s.db, name)
  {
    hide Touch, Put;
    if Holds(s.cache, name) {
      HitIsStored(s, name);
      TouchKeepsBounded(s.cache, s.cap, name);
    } else if name in s.db {
      PutKeepsBounded(s.cache, s.cap, name, s.db[name]);
    }
  }

  // The eager server: a plain map, without cache and queue.

  function EditReply(m: Documents, e: Edit): Reply {
    if e.name in m then Overridden(e.name) else Created(e.name)
  }

  function GetReply(m: Documents, name: CString): Reply {
    if name in m then Content(m[name]) else NoContent
  }

  function EditReplies(m: Documents, q: seq<Edit>): seq<Reply>
    decreases |q|
  {
    if q == [] then [] else [EditReply(m, q[0])] + EditReplies(m[q[0].name := q[0].content], q[1..])
  }

  /** The replies that answer a request, leaving out the notices that an edit was queued. */
  function Answers(ms: seq<Message>): seq<Reply> {
    if ms == [] then []
    else (if ms[0].reply.Queued? then [] else [ms[0].reply]) + Answers(ms[1..])
  }

  lemma {:induction false} AnswersConcat(a: seq<Message>, b: seq<Message>)
    ensures Answers(a + b) == Answers(a) + Answers(b)
  {
    if a == [] {
      assert a + b == b;
    } else {
      assert (a + b)[1..] == a[1..] + b;
      AnswersConcat(a[1..], b);
    }
  }

  /** Working off the queue brings the database to its effective contents and answers every edit as the
      eager server would have done. */
  lemma {:induction false} SolveQueueIsEager(s: Server, id: UInt32)
    requires Coherent(s)
    ensures var r := SolveQueue(s, id);
            && Coherent(r.0) && r.0.queue == [] && r.0.db == Effective(s)
            && Answers(r.1) == EditReplies(s.db, s.queue)
    decreases |s.queue|
  {
    if s.queue != [] {
      var e, popped := s.queue[0], s.(queue := s.queue[1..]);
      var (s1, m) := EditDocument(popped, id, e);
      EditKeepsCoherent(popped, id, e);
      hide EditDocument, Coherent;
      SolveQueueIsEager(s1, id);
      var (s2, ms) := SolveQueue(s1, id);
      assert ([m] + ms)[1..] == ms;
    }
  }

  /** A get with its flush answers from the database with all edits applied, and changes nothing of it. */
  lemma FetchReads(s: Server, id: UInt32, name: CString)
    requires s.cap > 0 && Coherent(s)
    ensures var (after, ms) := Fetch(s, id, name);
            && Coherent(after) && Effective(after) == Effective(s)
            && ms[|ms| - 1].reply == GetReply(Effective(s), name)
  {
    SolveQueueIsEager(s, id);
    GetKeepsCoherent(SolveQueue(s, id).0, id, name);
    hide SolveQueue, Coherent, CacheModel.Put;
  }

  lemma {:induction false} ApplyEditsAppend(m: Documents, q: seq<Edit>, e: Edit)
    ensures ApplyEdits(m, q + [e]) == ApplyEdits(m, q)[e.name := e.content]
    ensures EditReplies(m, q + [e]) == EditReplies(m, q) + [EditReply(ApplyEdits(m, q), e)]
    decreases |q|
  {
    if q == [] {
      assert [e][1..] == [];
    } else {
      assert (q + [e])[1..] == q[1..] + [e];
      ApplyEditsAppend(m[q[0].name := q[0].content], q[1..], e);
    }
  }

  lemma {:induction false} ApplyEditsKeys(m: Documents, q: seq<Edit>)
    ensures m.Keys <= ApplyEdits(m, q).Keys
    ensures q != [] ==> q[0].name in ApplyEdits(m, q)
    decreases |q|
  {
    if q != [] {
      ApplyEditsKeys(m[q[0].name := q[0].content], q[1..]);
    }
  }

  /** Documents that arrive under other names commute with the pending edits. */
  lemma {:induction false} ApplyEditsCommutes(m: Documents, q: seq<Edit>, docs: Documents)
    requires docs.Keys !! ApplyEdits(m, q).Keys
    ensures ApplyEdits(m + docs, q) == ApplyEdits(m, q) + docs
    ensures EditReplies(m + docs, q) == EditReplies(m, q)
    decreases |q|
  {
    if q != [] {
      ApplyEditsKeys(m, q);
      var m' := m[q[0].name := q[0].content];
      assert m' + docs == (m + docs)[q[0].name := q[0].content];
      ApplyEditsCommutes(m', q[1..], docs);
    }
  }

  lemma ReceiveKeepsCoherent(s: Server, docs: Documents)
    requires Coherent(s) && docs.Keys !! Effective(s).Keys
    ensures Coherent(Receive(s, docs)) && Effective(Receive(s, docs)) == Effective(s) + docs
  {
    ApplyEditsKeys(s.db, s.queue);
    ApplyEditsCommutes(s.db, s.queue, docs);
  }

  /** Coherence survives the receiving of documents exactly when no cached document arrives with another
      content: the receiver does not update its cache. */
  lemma ReceiveCoherentExactly(s: Server, docs: Documents)
    requires Coherent(s)
    ensures Coherent(Receive(s, docs)) <==> forall c :: c in s.cache && c.key in docs ==> docs[c.key] == c.val
  {
  }

  lemma ReleaseKeepsCoherent(s: Server, names: set<CString>)
    requires Coherent(s)
    ensures Coherent(Release(s, names))
  {
    WithoutKeepsBounded(s.cache, s.cap, names);
    forall c | c in Without(s.cache, names)
      ensures c in s.cache && c.key !in names
    {
      WithoutMembers(s.cache, names, c);
    }
  }

  // A server on its own, under any sequence of requests and migrations.

  datatype ServerOp =
    | Submit(e: Edit)
    | Ask(name: CString)
    | GiveAway(names: set<CString>)
    | TakeIn(docs: Documents)

  function ServerStep(s: Server, id: UInt32, op: ServerOp): (r: (Server, seq<Message>))
    requires s.cap > 0
    ensures r.0.cap == s.cap
  {
    match op
    case Submit(e) => var (s1, m) := Enqueue(s, id, e); (s1, [m])
    case Ask(name) => Fetch(s, id, name)
    case GiveAway(names) => var (s1, ms) := SolveQueue(s, id); (Release(s1, names), ms)
    case TakeIn(docs) => (Receive(s, docs), [])
  }

  function ServerRun(s: Server, id: UInt32, ops: seq<ServerOp>): (Server, seq<Message>)
    requires s.cap > 0
    decreases |ops|
  {
    if ops == [] then (s, [])
    else
      var (s1, ms) := ServerStep(s, id, ops[0]);
      var (s2, ms') := ServerRun(s1, id, ops[1..]);
      (s2, ms + ms')
  }

  function EagerStep(m: Documents, op: ServerOp): (Documents, seq<Reply>) {
    match op
    case Submit(e) => (m[e.name := e.content], [EditReply(m, e)])
    case Ask(name) => (m, [GetReply(m, name)])
    case GiveAway(names) => (m - names, [])
    case TakeIn(docs) => (m + docs, [])
  }

  function EagerRun(m: Documents, ops: seq<ServerOp>): (Documents, seq<Reply>)
    decreases |ops|
  {
    if ops == [] then (m, [])
    else
      var (m1, rs) := EagerStep(m, ops[0]);
      var (m2, rs') := EagerRun(m1, ops[1..]);
      (m2, rs + rs')
  }

  /** Migrations only ever bring in documents that the server does not have. */
  ghost predicate Legal(m: Documents, ops: seq<ServerOp>)
    decreases |ops|
  {
    ops == [] || ((ops[0].TakeIn? ==> ops[0].docs.Keys !! m.Keys) && Legal(EagerStep(m, ops[0]).0, ops[1..]))
  }

  /** The messages give the eager replies, except that edits pending before come first and edits still
      pending are not answered yet. */
  ghost predicate Answered(before: Server, ms: seq<Message>, eager: seq<Reply>, after: Server) {
    Answers(ms) + EditReplies(after.db, after.queue) == EditReplies(before.db, before.queue) + eager
  }

  lemma AnsweredChains(s: Server, ms: seq<Message>, rs: seq<Reply>, t: Server,
                       ms': seq<Message>, rs': seq<Reply>, u: Server)
    requires Answered(s, ms, rs, t) && Answered(t, ms', rs', u)
    ensures Answered(s, ms + ms', rs + rs', u)
  {
    AnswersConcat(ms, ms');
    hide Answers, EditReplies;
    var before, between, after := EditReplies(s.db, s.queue), EditReplies(t.db, t.queue), EditReplies(u.db, u.queue);
    calc {
      Answers(ms) + Answers(ms') + after;
      Answers(ms) + (Answers(ms') + after);
      Answers(ms) + between + rs';
      before + (rs + rs');
    }
  }

  lemma StepIsTransparent(s: Server, id: UInt32, op: ServerOp)
    requires Coherent(s) && (op.TakeIn? ==> op.docs.Keys !! Effective(s).Keys)
    ensures var (s1, ms) := ServerStep(s, id, op);
            && Coherent(s1)
            && Effective(s1) == EagerStep(Effective(s), op).0
            && Answered(s, ms, EagerStep(Effective(s), op).1, s1)
  {
    match op
    case Submit(e) =>
      ApplyEditsAppend(s.db, s.queue, e);
    case Ask(name) =>
      SolveQueueIsEager(s, id);
      var (s1, ms) := SolveQueue(s, id);
      GetKeepsCoherent(s1, id, name);
      AnswersConcat(ms, [GetDocument(s1, id, name).1]);
    case GiveAway(names) =>
      SolveQueueIsEager(s, id);
      ReleaseKeepsCoherent(SolveQueue(s, id).0, names);
    case TakeIn(docs) =>
      ReceiveKeepsCoherent(s, docs);
      ApplyEditsCommutes(s.db, s.queue, docs);
  }

  /** Cache and laziness are transparent: for every capacity and every placement of the queue flushes, a
      server gives the answers of the eager server, those of its pending edits last. */
  lemma {:induction false} RunIsTransparent(s: Server, id: UInt32, ops: seq<ServerOp>)
    requires Coherent(s) && Legal(Effective(s), ops)
    ensures var (t, ms) := ServerRun(s, id, ops);
            && Coherent(t)
            && Effective(t) == EagerRun(Effective(s), ops).0
            && Answered(s, ms, EagerRun(Effective(s), ops).1, t)
    decreases |ops|
  {
    if ops != [] {
      StepIsTransparent(s, id, ops[0]);
      var (s1, ms) := ServerStep(s, id, ops[0]);
      hide Coherent, ServerStep, EagerStep, Effective, Answered;
      RunIsTransparent(s1, id, ops[1..]);
      var (s2, ms') := ServerRun(s1, id, ops[1..]);
      AnsweredChains(s, ms, EagerStep(Effective(s), ops[0]).1, s1, ms', EagerRun(Effective(s1), ops[1..]).1, s2);
    }
  }

  /** Two servers that differ in the capacity of their caches only, the smaller cache being a prefix. */
  ghost predicate Smaller(s: Server, t: Server) {
    && Coherent(s) && Coherent(t)
    && s.cap <= t.cap && s.db == t.db && s.queue == t.queue
    && s.cache <= t.cache
  }

  lemma EditKeepsSmaller(s: Server, t: Server, id: UInt32, e: Edit)
    requires Smaller(s, t)
    ensures Smaller(EditDocument(s, id, e).0, EditDocument(t, id, e).0)
  {
    EditKeepsCoherent(s, id, e);
    EditKeepsCoherent(t, id, e);
    hide Touch, Put;
    PutAfterTouch(s.cache, s.cap, e.name, e.content);
    PutAfterTouch(t.cache, t.cap, e.name, e.content);
    PutKeepsPrefix(s.cache, t.cache, s.cap, t.cap, e.name, e.content);
  }

  lemma GetKeepsSmaller(s: Server, t: Server, id: UInt32, name: CString)
    requires Smaller(s, t)
    ensures Smaller(GetDocument(s, id, name).0, GetDocument(t, id, name).0)
  {
    GetKeepsCoherent(s, id, name);
    GetKeepsCoherent(t, id, name);
    hide Touch, Put;
    if Holds(t.cache, name) {
      HitIsStored(t, name);
    }
    if Holds(s.cache, name) {
      assert s.cache[IndexOf(s.cache, name)] == t.cache[IndexOf(s.cache, name)];
      TouchKeepsPrefix(s.cache, t.cache, name);
    } else if name in s.db {
      if Holds(t.cache, name) {
        TouchIsPut(t.cache, t.cap, name);
      }
      PutKeepsPrefix(s.cache, t.cache, s.cap, t.cap, name, s.db[name]);
    }
  }

  lemma {:induction false} SolveQueueKeepsSmaller(s: Server, t: Server, id: UInt32)
    requires Smaller(s, t)
    ensures Smaller(SolveQueue(s, id).0, SolveQueue(t, id).0)
    decreases |s.queue|
  {
    if s.queue != [] {
      var s', t' := s.(queue := s.queue[1..]), t.(queue := t.queue[1..]);
      EditKeepsSmaller(s', t', id, s.queue[0]);
      hide EditDocument;
      SolveQueueKeepsSmaller(EditDocument(s', id, s.queue[0]).0, EditDocument(t', id, t.queue[0]).0, id);
    }
  }

  /** Under the same requests and migrations the smaller cache stays a prefix of the larger one, so that
      every hit of the smaller is a hit of the larger. */
  lemma {:induction false} SmallerCacheIsPrefix(s: Server, t: Server, id: UInt32, ops: seq<ServerOp>)
    requires Smaller(s, t) && Legal(Effective(s), ops)
    ensures Smaller(ServerRun(s, id, ops).0, ServerRun(t, id, ops).0)
    decreases |ops|
  {
    if ops != [] {
      var s1, t1 := ServerStep(s, id, ops[0]).0, ServerStep(t, id, ops[0]).0;
      assert Smaller(s1, t1) && Effective(s1) == EagerStep(Effective(s), ops[0]).0 by {
        StepIsTransparent(s, id, ops[0]);
        StepIsTransparent(t, id, ops[0]);
        StepKeepsSmaller(s, t, id, ops[0]);
      }
      hide Smaller, ServerStep, EagerStep, Effective;
      SmallerCacheIsPrefix(s1, t1, id, ops[1..]);
    }
  }

  lemma StepKeepsSmaller(s: Server, t: Server, id: UInt32, op: ServerOp)
    requires Smaller(s, t) && (op.TakeIn? ==> op.docs.Keys !! Effective(s).Keys)
    ensures Smaller(ServerStep(s, id, op).0, ServerStep(t, id, op).0)
  {
    match op
    case Submit(e) =>
    case Ask(name) =>
      SolveQueueKeepsSmaller(s, t, id);
      GetKeepsSmaller(SolveQueue(s, id).0, SolveQueue(t, id).0, id, name);
    case GiveAway(names) =>
      SolveQueueKeepsSmaller(s, t, id);
      var s1, t1 := SolveQueue(s, id).0, SolveQueue(t, id).0;
      ReleaseKeepsCoherent(s1, names);
      ReleaseKeepsCoherent(t1, names);
      WithoutKeepsPrefix(s1.cache, t1.cache, names);
    case TakeIn(docs) =>
      ReceiveKeepsCoherent(s, docs);
      ReceiveKeepsCoherent(t, docs);
  }
}
