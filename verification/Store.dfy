/**
 A physical server: database, cache and queue. The labels of a server share one such object.
 */
module Stores {
  import opened Hashing
  import opened Wrappers
  import CacheModel
  import M = ServerModel
  import opened HashMaps
  import opened LruCaches

  class Store {
    const db: HashMap<CString>
    const cache: LruCache
    var queue: seq<M.Edit>
    ghost var Repr: set<object>

    ghost predicate Valid()
      reads this, Repr
    {
      && this in Repr && db in Repr && cache in Repr && db.Repr <= Repr && cache.Repr <= Repr
      && db in db.Repr && cache in cache.Repr && cache.dll in cache.Repr
      && this !in db.Repr && this !in cache.Repr && db.Repr !! cache.Repr
      && db.Valid() && cache.Valid() && cache.cap > 0
    }

    ghost function View(): M.Server
      reads this, Repr
      requires Valid()
    {
      M.Server(db.M, cache.Slots(), cache.cap, queue)
    }

    constructor (cacheSize: nat)
      requires cacheSize > 0
      ensures Valid() && fresh(Repr) && View() == M.Server(map[], [], cacheSize, [])
    {
      var table := new HashMap<CString>(HASHMAP_SIZE);
      var lru := new LruCache(cacheSize);
      db, cache, queue := table, lru, [];
      Repr := {this} + table.Repr + lru.Repr;
    }

    /** Writes a document to the database. */
    method Write(name: CString, content: CString)
      requires Valid()
      modifies Repr
      ensures Valid() && old(Repr) <= Repr && fresh(Repr - old(Repr))
      ensures View() == old(View()).(db := old(View()).db[name := content])
    {
      hide HashMap.Valid, LruCache.Valid;
      db.Set(name, content);
      Repr := Repr + db.Repr;
    }

    method LookUp(name: CString) returns (hit: Option<CString>)
      requires Valid()
      modifies Repr
      ensures Valid() && Repr == old(Repr)
      ensures View() == old(View()).(cache := CacheModel.Touch(old(View()).cache, name))
      ensures var c := old(View()).cache;
              hit == if CacheModel.Holds(c, name) then Some(c[CacheModel.IndexOf(c, name)].val) else None
    {
      hide HashMap.Valid, LruCache.Valid;
      hit := cache.Get(name);
    }

    method Remember(name: CString, content: CString) returns (evicted: Option<CString>)
      requires Valid()
      modifies Repr
      ensures Valid() && old(Repr) <= Repr && fresh(Repr - old(Repr))
      ensures var put := CacheModel.Put(old(View()).cache, old(View()).cap, name, content);
              View() == old(View()).(cache := put.slots) && evicted == put.evicted
    {
      hide HashMap.Valid, LruCache.Valid;
      var _, victim := cache.Put(name, content);
      evicted := victim;
      Repr := Repr + cache.Repr;
    }

    /** Takes a document out of database and cache; k is its position in its bucket. */
    method Forget(name: CString) returns (ghost k: nat)
      requires Valid() && name in db.M
      modifies Repr
      ensures Valid() && Repr == old(Repr)
      ensures View() == M.Release(old(View()), {name})
      ensures db.LostEntry(name, k)
    {
      var _, at := db.Remove(name);
      k := at;
      hide HashMap.Valid, LruCache.Valid, Bucket;
      cache.Remove(name);
    }

    method EditDocument(id: UInt32, e: M.Edit) returns (m: M.Message)
      requires Valid()
      modifies Repr
      ensures Valid() && old(Repr) <= Repr && fresh(Repr - old(Repr))
      ensures (View(), m) == M.EditDocument(old(View()), id, e) && queue == old(queue)
    {
      hide HashMap.Valid, LruCache.Valid, CacheModel.Touch, CacheModel.Put;
      var hit := LookUp(e.name);
      var content := db.Get(e.name);
      Write(e.name, e.content);
      var evicted := Remember(e.name, e.content);
      var reply := if hit.Some? || content.Some? then M.Overridden(e.name) else M.Created(e.name);
      m := M.Message(id, reply, if hit.Some? then M.Hit(e.name) else M.MissLog(e.name, evicted));
    }

    method GetDocument(id: UInt32, name: CString) returns (m: M.Message)
      requires Valid()
      modifies Repr
      ensures Valid() && old(Repr) <= Repr && fresh(Repr - old(Repr))
      ensures (View(), m) == M.GetDocument(old(View()), id, name)
    {
      hide HashMap.Valid, LruCache.Valid, CacheModel.Put;
      var hit := LookUp(name);
      if hit.Some? {
        return M.Message(id, M.Content(hit.value), M.Hit(name));
      }
      var local := db.Get(name);
      if local.Some? {
        var evicted := Remember(name, local.value);
        m := M.Message(id, M.Content(local.value), M.MissLog(name, evicted));
      } else {
        m := M.Message(id, M.NoContent, M.Absent(name));
      }
    }

    method SolveQueue(id: UInt32) returns (out: seq<M.Message>)
      requires Valid()
      modifies Repr
      ensures Valid() && old(Repr) <= Repr && fresh(Repr - old(Repr))
      ensures (View(), out) == M.SolveQueue(old(View()), id)
      ensures queue == []
    {
      hide HashMap.Valid, LruCache.Valid, M.EditDocument;
      out := [];
      assert [] + M.SolveQueue(View(), id).1 == M.SolveQueue(View(), id).1;
      while |queue| > 0
        invariant Valid() && old(Repr) <= Repr && fresh(Repr - old(Repr))
        invariant var rest := M.SolveQueue(View(), id);
                  M.SolveQueue(old(View()), id) == (rest.0, out + rest.1)
        decreases |queue|
      {
        var e := queue[0];
        ghost var before := View();
        queue := queue[1..];
        assert Valid() && View() == before.(queue := before.queue[1..]);
        var m := EditDocument(id, e);
        ghost var rest := M.SolveQueue(View(), id);
        assert out + ([m] + rest.1) == (out + [m]) + rest.1;
        out := out + [m];
      }
      assert out + [] == out;
    }

    /** An edit waits in the queue, unless that is full, in which case the program ends. A get waits for
        nobody: the queue is worked off first. */
    method HandleEdit(id: UInt32, e: M.Edit) returns (ok: bool, m: M.Message)
      requires Valid()
      modifies Repr
      ensures Valid() && Repr == old(Repr)
      ensures ok <==> |old(View()).queue| != M.TASK_QUEUE_SIZE
      ensures ok ==> (View(), m) == M.Enqueue(old(View()), id, e)
    {
      hide HashMap.Valid, LruCache.Valid;
      m := M.Message(id, M.Queued(e.name), M.QueueSize(|queue| + 1));
      ok := |queue| != M.TASK_QUEUE_SIZE;
      if ok {
        queue := queue + [e];
      }
    }

    method HandleGet(id: UInt32, name: CString) returns (out: seq<M.Message>)
      requires Valid()
      modifies Repr
      ensures Valid() && old(Repr) <= Repr && fresh(Repr - old(Repr))
      ensures (View(), out) == M.Fetch(old(View()), id, name)
    {
      hide HashMap.Valid, LruCache.Valid, M.SolveQueue, M.GetDocument;
      out := SolveQueue(id);
      var m := GetDocument(id, name);
      out := out + [m];
    }
  }
}
