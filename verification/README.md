# A consistent-hashing document store, modelled and proved

The program keeps documents (name, content) on a changing set of servers. Each server stands on a ring of
32-bit hashes under one label, or under three labels when virtual nodes are on; a document belongs to the
server whose label is met first when walking clockwise from the hash of its name. A server has a hash-table
database, an LRU cache in front of it and a queue of edits that are executed only when their effect is
needed. When a server is added or removed, the documents whose owner changes move to their new owner.

The project has two halves, joined by contracts.

**What the system computes**, as values: `Hashing`, `Ring`, `CacheModel`, `ServerModel`, `Migration`,
`SystemModel`, `SystemRuns`. A state is a ring (label to point) and the physical servers; `SystemRuns.Step` is
one request, `SystemRuns.Run` a whole run with its transcript. The functions keep every peculiarity of the
code: the strict comparisons at ties, the cascades of `pick_src` and `pick_dest`, the receiver that writes its
database but not its cache. On top of them:

* `Seats`: where every document sits after each insertion of a label, ties included, in closed form, and which
  documents end up stranded on a server that does not serve them.
* `Refinement`: every get of a run is answered right, and every document is on the server that a lookup finds,
  if and only if no addition of a server strands a document (`Refinement.RunRefines`). Right means: with the
  content of the latest edit of the name, however servers came and went (`Refinement.GetAnswersLatestEdit`).
* `Replies`: in such a run the replies "created" and "overridden", printed when an edit is executed, are those
  of a plain map at the time of the request, none lost, doubled or reordered (`Replies.RepliesAreDue`).
* `Consequences`: placement does not depend on history, and adding a server and removing it again restores
  the others exactly when no document goes astray (`Consequences.AddThenRemoveIsExact`).
* `Recency`, `Accounts`: which names a cache holds, in which order, and what every log line says, told from the
  requests that a server has had. The history of a cache is the list of the uses of its names and of the removals;
  a name is cached as long as fewer than the capacity of other names have been used since (`Accounts.CacheOfRun`),
  and every message of a server follows from that history (`Accounts.RunIsKept`).
* `Ledgers`: the whole transcript, message by message with labels, replies and log lines, and whether the run comes
  to its end, as a function of the requests that mentions no database, cache or queue (`Ledgers.RunIsLedger`).
* `Transcripts`: under which label each request prints, in any state and whatever the ties.
* `Exits`: when the program ends early. `Witnesses`: runs in which ties do harm, and one in which they do not.

**How the code computes it**, on the heap: `ArrayLists`, `LinkedLists`, `DoublyLinkedLists`, `HashMaps`,
`LruCaches`, `Stores`, `Picking`, `Transfers`, `LoadBalancers`, `Program`. These are classes and loops with the
fields and the control flow of the C files. Each method is proved to do exactly what the corresponding value
function says, up to `Program.ApplyRequests`: the transcript of the request loop, run over resizable arrays,
linked buckets and cache nodes, is the transcript of `SystemRuns.Run`. The labels of one server share one
`Store` object, as in the code.

A reply is a value (`Created`, `Overridden`, `Content`, `NoContent`, `Queued`) with the log line that goes with
it and the label under which the server was reached; the printed text is a function of these.

## Where the code departs from what one would expect

The model follows the code in each case.

* **Ties.** A lookup takes the first hash that is at least the hash of the name, but the tests that decide
  about migration are strict, and `pick_src` passes over ties with the second and third label of a server. Two
  things can go wrong when a server is added. A document on the point of one of its labels is left behind, unless
  the next label on the ring belongs to it as well: then that label, inserted later, took the document along. And
  with virtual nodes a document on the point of an older label can be carried off to the new server. These are
  the stranded documents (`Seats.Stranded`), a condition on the ring and the names alone; a stranded document is
  not found (`Seats.StrandedIsNotFound`), and any other is. Every pair of servers strands some document, with
  and without virtual nodes (`Witnesses.EveryPairLosesOne`). `Witnesses.TieHappens` is such a run without
  virtual nodes; `Witnesses.TieIsRescued` is the same run with them, which is answered right;
  `Witnesses.TieCarriesOff` is a run that carries a document off. The theorems about runs assume
  `Refinement.NoneStranded`, which holds in particular when no edited name hashes to a label of an added server
  (`Refinement.NoTiesStrandNone`). Removal is right whatever the ties (`SystemModel.RemovalKeepsPlacement`).
* **Stale caches.** A receiver writes its database but not its cache. That is harmless as long as no document is
  known to two servers; after a tie it can bring back an old content (`Witnesses.StaleAnswer`).
* **Reversed search.** `al_find_by` halves the interval in the wrong direction for an ascending array. It
  still finds every label, because the search ends at an exact match or at index 0, and a scan follows.
* **Missing index.** While the labels of a server are being inserted, `al_find_by` can return -1 and `al_get`
  then takes the last label. `LoadBalancers.MissingMeansSameServer` and
  `LoadBalancers.InsertTransfers` show that this never matters.
* **Return value of put.** `lru_cache_put` returns true when the key existed; its header says the opposite.
* **No servers.** An edit or a get without servers is dropped. Removing the last server drops the documents
  without virtual nodes; with virtual nodes it ends the program if there is any document.

## Model

| member | source | states |
|---|---|---|
| Hashing.XorShiftIsInvolution | skel/utils.c:11-13 | xor-ing the high half onto the low half twice gives back the number |
| Hashing.HashUintBijective | skel/utils.c:7-16 | the label hash has an explicit two-sided inverse on all 32-bit values |
| Hashing.HashUintInjective | skel/utils.c:7-16 | two labels never share a point of the ring |
| Hashing.ComputeHashString | skel/utils.c:18-28 | the loop over machine words computes the unbounded base-33 number modulo 2^32 |
| Hashing.HashStringOnto | skel/utils.c:18-28 | every 32-bit value is the hash of some name, so every point of the ring can be tied |
| Ring.DistanceIsModular | skel/arraylist.c:42-59 | the distance by which ownership is defined is the difference modulo 2^32 |
| Ring.FirstAtLeastIsOwner | skel/arraylist.c:42-59 | in a sorted array, the first label at or after a point, or else the first of all, is the nearest clockwise |
| Ring.NextIsSuccessor | skel/load_balancer.c:85-91 | stepping to the next array index, modulo the size, steps to the next label on the ring |
| Ring.InsertKeepsSorted | skel/arraylist.c:130-154 | inserting between the smaller and the greater hashes keeps the array sorted and complete for the new ring |
| Ring.EraseKeepsSorted | skel/arraylist.c:91-105 | erasing one index leaves the sorted array of the ring without that label |
| Ring.OwnerAfterInsert | skel/load_balancer.c:83-93 | a new label takes over exactly the points nearer to it than to their owner, all from one owner |
| Ring.IntervalTestIsExact | skel/server.c:226-239 | for a point of the old owner the three comparisons hold if and only if the new label becomes owner and the hashes differ, wrap-around included |
| Ring.CascadeStep | skel/server.c:281-297 | one turn of either cascade prefers a candidate exactly when it is nearer clockwise, ties with the name apart |
| Ring.PickSourceSkipsTies | skel/server.c:351-383 | whatever the ties, pick_src returns the nearest label not counting later labels that tie with the name |
| Ring.PickSourceIsNearest | skel/server.c:351-383 | pick_src returns the nearest label if and only if the name ties with no label or with the first |
| Ring.PickDestinationSkipsTies | skel/server.c:265-305 | the same for pick_dest among the eligible labels |
| Ring.PickDestinationIsNearest | skel/server.c:265-305 | pick_dest returns the nearest eligible label if and only if the name ties with no eligible label or with the first such |
| Ring.HeirFollowsARemovedLabel | skel/load_balancer.c:184-194 | who takes over a point of removed labels directly follows one of the removed labels |
| Ring.OwnerSurvives | skel/load_balancer.c:172-215 | removing labels does not change the owner of a point that they did not own |
| Ring.SuccessorAfterInsert | skel/load_balancer.c:85-91 | a new label either leaves the successor of a label alone or comes directly between the two |
| Ring.PickDestinationIsChosen | skel/server.c:265-305 | pick_dest chooses the nearest eligible label, ties counted only if the first eligible label ties |
| CacheModel.PutKeepsBounded | skel/lru_cache.c:97-148 | a put keeps keys distinct and the capacity respected, holds the new pair in front, and loses the last pair only if full |
| CacheModel.EvictedIsLost | skel/lru_cache.c:113-129 | the key reported as evicted is the one key that was held before the put and is not held after it |
| CacheModel.PutKeepsPrefix | skel/lru_cache.c:97-148 | a put keeps the smaller cache a prefix of the larger one |
| CacheModel.TouchKeepsPrefix | skel/lru_cache.c:150-164 | a hit keeps the smaller cache a prefix of the larger one |
| Recency.FollowsIsUnique | skel/lru_cache.c:97-186 | the history of uses and removals determines the keys of a cache and their order |
| Recency.PutFollows | skel/lru_cache.c:97-148 | storing a pair is a use of its name: afterwards the cache holds the names resident by the longer history, in its order |
| Recency.TouchFollows | skel/lru_cache.c:150-164 | so is a hit |
| Recency.WithoutFollows | skel/lru_cache.c:166-186 | removing keys is a removal in the history and keeps the order of the others |
| ServerModel.HitIsStored | skel/server.c:72-79 | a hit of a coherent cache is the stored content |
| ServerModel.SolveQueueIsEager | skel/server.c:130-154 | working off the queue leaves the database with all edits applied, stays coherent, and answers like an eager map |
| ServerModel.FetchReads | skel/server.c:176-186 | a get with its flush answers from the database with all edits applied, and leaves that unchanged |
| ServerModel.ReceiveKeepsCoherent | skel/server.c:242-246 | writing documents that the receiver does not hold into its database only keeps its cache coherent |
| ServerModel.ReceiveCoherentExactly | skel/server.c:242-246 | coherence survives the receiving of documents if and only if no cached one arrives with another content |
| ServerModel.ReleaseKeepsCoherent | skel/server.c:247-255 | giving documents away out of database and cache keeps the cache coherent |
| ServerModel.StepIsTransparent | skel/server.c:156-187 | one server operation answers like the eager, cacheless map |
| ServerModel.RunIsTransparent | skel/server.c:19-187 | over whole runs, with any capacity and any placement of flushes, the answers are those of an eager map without cache |
| ServerModel.SmallerCacheIsPrefix | skel/server.c:19-187 | over the same run, the smaller cache is always a prefix of the larger one, so its hits are hits of the larger one |
| Accounts.EditUsesCache | skel/server.c:26-49 | an executed edit puts its pair in front of the cache, the others keep their order, and only the last one is lost, by a new name in a full cache |
| Accounts.GetUsesCache | skel/server.c:70-100 | so does a get of a stored name, hit or miss; a get of any other name leaves the cache alone |
| Accounts.EditLogs | skel/server.c:51-60 | the log is a hit if and only if the name was cached, an eviction of v if and only if it was not, the cache was full and v was last, that is, v and only v got lost, and a plain miss otherwise |
| Accounts.GetLogs | skel/server.c:70-102 | the same for a get, and the log tells that there is no such document if and only if it is not stored |
| Accounts.LogIs | skel/server.c:51-60 | hit, miss and the evicted name follow from the history: the name that is pushed out is the one with a full cache of other names used since |
| Accounts.FlushIsKept | skel/server.c:130-154 | working off the queue prints, under the given label, the replies that are owed, oldest first, each with the log that the history calls for, and each edit is a use |
| Accounts.GetIsKept | skel/server.c:176-186 | a get prints those, then the content with its log, and is a use of the name if it is stored |
| Accounts.SubmitIsKept | skel/server.c:158-175 | a queued edit is owed one more reply, and its notice gives its name and the number of edits waiting |
| Accounts.RunIsKept | skel/server.c:19-187 | over any run of one server, all its messages follow from its requests alone |
| Accounts.CacheOfRun | skel/server.c:19-187 | after any run the cache holds exactly the names with fewer than its capacity of others used since, latest first, each with the stored content |
| Migration.CarriedOneMore | skel/server.c:217-262 | visiting one more document changes exactly sender and receiver, or nothing |
| Migration.MigrateMovesExactly | skel/server.c:202-263 | conservation: the sender loses exactly the documents that have to go, each receiver gains exactly those sent to it, caches stay coherent |
| Migration.MigrationPlacesExactly | skel/server.c:202-444 | a migration fits a change of the ring if and only if every document of the sender goes to the server that serves it afterwards |
| SystemModel.TrueSourceIsOwner | skel/server.c:351-383 | without a tie among the later labels, pick_src names the owner of the document on the whole ring |
| SystemModel.PickSourceNames | skel/server.c:351-383 | for a document on the point of a label, pick_src names another label if and only if that is the nearest other label of the server and the tied one is not its first |
| SystemModel.TiedMoves | skel/server.c:412-427 | a document on the point of another label moves to the new label if and only if the sender is that next best label, wherever the document belongs |
| SystemModel.MovesIsExact | skel/server.c:412-427 | the decision to move a document, ties included, is right if and only if its hash is not one of the lost points |
| SystemModel.AddLabel | skel/load_balancer.c:71-136 | inserting a label changes the ring by that label only, keeps labels and servers in shape, and every server its capacity |
| SystemModel.AddLabelPlacesExactly | skel/load_balancer.c:71-136 | inserting a label keeps every document where a lookup finds it if and only if no document lies on a lost point; always if source and destination share a server |
| SystemModel.RemoveLabels | skel/load_balancer.c:152-215 | removing a server takes exactly its labels off the ring, keeps the rest in shape, and every other server its capacity (`Transcripts.RemovalUnder` tells the label of what is printed) |
| SystemModel.HeirIsFollower | skel/load_balancer.c:184-194 | with another server present, the heir of a point is among the immediate successors of the removed labels and nearest of all foreign labels |
| SystemModel.ForeignMeansAnother | skel/server.c:300-304 | pick_dest has an eligible label if and only if another server is there, so its exit is unreachable then |
| SystemModel.PickDestinationFindsHeir | skel/server.c:307-349 | pick_dest among three followers finds the owner on the ring without the removed server, ties included |
| SystemModel.RemovalTargets | skel/load_balancer.c:152-215 | every document of a leaving server is sent to its owner on the remaining ring |
| SystemModel.RemovalKeepsPlacement | skel/load_balancer.c:152-224 | removal keeps placement whatever the ties; the program ends if and only if the last server is removed with virtual nodes on and documents left |
| SystemRuns.AddServerLabels | skel/load_balancer.c:138-150 | adding a server under one or three labels leads to a state between requests with one server more, of the capacity asked for; the others keep theirs |
| SystemRuns.RunCapacities | skel/load_balancer.c:73-76 | in every run each server has the cache capacity of the latest request that added it |
| SystemRuns.ForwardEdit | skel/load_balancer.c:226-239 | a forwarded edit changes nothing but the server that serves the name, and not its capacity |
| SystemRuns.ForwardGet | skel/load_balancer.c:226-239 | a forwarded get never ends the program and changes nothing but the server that serves the name, and not its capacity |
| SystemRuns.Step | skel/main.c:103-124 | every request that does not end the program leads to a state between requests with the expected servers |
| SystemRuns.Run | skel/main.c:91-128 | every reachable state between requests is in shape and has exactly the servers added and not removed |
| Transcripts.AddLabelUnder | skel/load_balancer.c:85-93 | whatever the insertion of a label prints is printed under the next label on the ring |
| Transcripts.RemovalUnder | skel/load_balancer.c:152-215 | whatever a removal prints is printed under the id of the server that leaves |
| Transcripts.GetUnder | skel/load_balancer.c:226-239 | whatever a get prints, pending replies included, is printed under the label that owns the name |
| Transcripts.EditNotice | skel/server.c:168-171 | an accepted edit prints one message: under the owner of the name, the name, and the length of that server's queue with the edit at its end |
| Transcripts.StepUnder | skel/main.c:103-124 | every message of every request carries one of these labels; for an addition the next label at the time that each of the one or three labels is inserted |
| Seats.SeatStep | skel/load_balancer.c:98-136 | one insertion changes the seat of a document exactly if the transfer that follows it moves it, ties included |
| Seats.AddLabelSpreads | skel/load_balancer.c:98-136 | after every single insertion each document, with its pending edits, is on the one server where it sits |
| Seats.AddServerSpreads | skel/load_balancer.c:138-150 | the same after a server has been added, with or without virtual nodes |
| Seats.SpreadIsPlaced | skel/arraylist.c:42-59 | documents are where lookups find them if and only if none is stranded |
| Seats.AddPlacesExactly | skel/load_balancer.c:138-150 | adding a server keeps every document where a lookup finds it if and only if it strands none, a condition on the final ring and the names |
| Seats.StrandedIsNotFound | skel/load_balancer.c:226-239 | the get of a stranded document is answered with nothing |
| Refinement.AddIsExact | skel/load_balancer.c:138-150 | after adding a server every get is right if and only if no document is stranded |
| Refinement.EditKeepsPlacement | skel/load_balancer.c:226-239 | an edit changes the documents of the system by that one document, and keeps placement |
| Refinement.GetAnswers | skel/load_balancer.c:226-239 | a get is answered from the documents of the whole system, as the last thing printed |
| Refinement.StepRefines | skel/main.c:103-124 | a request changes the documents of the system as it changes one plain map, and every get after it is right, if and only if it strands no document; only adding a server can |
| Refinement.RunRefines | skel/main.c:91-128 | every get between any two requests of a run is right if and only if no addition strands a document, and so is every document's place |
| Refinement.NoTiesStrandNone | skel/main.c:91-128 | no document is stranded in a run in which no edited name hashes to a label of an added server |
| Refinement.GetReadsReference | skel/main.c:91-128 | after any run that strands no document, a get is answered with what the plain map holds |
| Refinement.ReferenceIsLatestEdit | skel/main.c:91-128 | the plain map holds a content if and only if it is that of the latest edit made while servers were there and kept since |
| Refinement.GetAnswersLatestEdit | skel/main.c:91-128 | after any run that strands no document, a get is answered with the content of the latest edit of its name, and with nothing if and only if there is none |
| Ledgers.MigrationIsKept | skel/server.c:202-263 | a migration prints what the sender owes, under the sender's label, and is a removal in the history of the sender's cache and nothing for the others |
| Ledgers.InsertionIsKept | skel/load_balancer.c:98-136 | the insertion of a label prints what the server behind the next label owes, and takes from its history the documents that change their seat, ties included |
| Ledgers.StepIsEntered | skel/main.c:103-124 | a request in a state where documents are in their places prints what the ledger says, message by message, and exits if and only if the ledger says so |
| Ledgers.RunIsLedger | skel/main.c:91-128 | the whole transcript of a run that strands no document, and whether the run comes to its end, are those of the ledger |
| Replies.MigrateReplies | skel/server.c:202-263 | a migration prints what was pending about a document if it sits on the sender and nothing otherwise |
| Replies.StepReplies | skel/main.c:103-124 | a request prints replies that were pending, in order, and adds the one that it makes due |
| Replies.RepliesAreDue | skel/main.c:91-128 | in a run that strands no document and keeps a server, what was printed about a name followed by what is pending is what a plain map owes for its edits |
| Replies.RepliesArePrinted | skel/main.c:91-128 | once the name has been asked for, all of it has been printed |
| Consequences.PlacementIsCanonical | skel/load_balancer.c:138-224 | two histories that strand no document, with the same servers and the same documents in the end, leave the same contents on every server |
| Consequences.SeatBefore | skel/load_balancer.c:138-150 | a document that does not sit on the new server sits where it was, stranded or not |
| Consequences.AddOnlyFillsTheNewServer | skel/load_balancer.c:138-150 | adding a server gives no other server a document, whatever the ties |
| Consequences.AddThenRemoveIsExact | skel/load_balancer.c:138-224 | adding a server and removing it gives every other server its documents back if and only if none was carried off and then sent to a follower of a third server |
| Consequences.NobodyAstray | skel/load_balancer.c:152-170 | without virtual nodes that never happens, whatever the ties |
| Consequences.AddThenRemoveRestores | skel/load_balancer.c:138-224 | the same for the state that any run without stranded documents has reached |
| Consequences.CachesAreCoherent | skel/server.c:26-49 | in a run, up to and including the first addition that strands a document, every cache entry is in the database of its server with the same content |
| Consequences.DatabasesAreDisjoint | skel/server.c:242-250 | in such a run different servers never hold the same document |
| Exits.StepExitsExactly | skel/queue.c:30-33 | additions and gets never end the program; a removal does if and only if it takes the last server with virtual nodes on and documents left, an edit if and only if it meets a full queue |
| Exits.RunsToTheEnd | skel/queue.c:28-36 | a run of at most 1000 edits that never removes the last server comes to its end, wherever its documents are |
| Witnesses.TwoServerRun | skel/load_balancer.c:138-150 | one server, one document, a second server, a get: the answer is right if and only if the document is not stranded |
| Witnesses.EveryPairLosesOne | skel/server.c:226-239 | with and without virtual nodes, for every pair of servers some name is lost in such a run |
| Witnesses.TieExists | skel/utils.c:7-28 | the hash of the name "rlyi" is the hash of label 7332 |
| Witnesses.TieBreaksRefinement | skel/server.c:226-239 | without virtual nodes every document on the point of the second server is lost |
| Witnesses.TieHappens | skel/server.c:226-239 | that run with the name "rlyi" and the servers 0 and 7332 |
| Witnesses.TieIsRescued | skel/load_balancer.c:138-150 | the same run with virtual nodes is answered right |
| Witnesses.TieCarriesOff | skel/server.c:351-383 | with virtual nodes a document on the point of label 100000 is carried off from server 0 to server 7332 and lost |
| Witnesses.StaleAnswer | skel/server.c:242-246 | a seven-request run without virtual nodes in which a tie makes a get answer with the content before the latest edit |
| ArrayLists.ArrayList.Resize | skel/arraylist.c:27-31 | a new block of the given capacity with the elements kept |
| ArrayLists.ArrayList.Get | skel/arraylist.c:33-40 | the element at the index, the last one if the index is past the end |
| ArrayLists.ArrayList.GetOrdered | skel/arraylist.c:42-59 | binary search returns the first element not before the target, the first of all if there is none |
| ArrayLists.ArrayList.FindBy | skel/arraylist.c:61-89 | the reversed search plus scan returns an index of the target, or -1 if and only if it is absent, in whatever order the elements are |
| ArrayLists.ArrayList.Erase | skel/arraylist.c:91-105 | the contents lose exactly that element; the capacity stays a power of two, at least half used |
| ArrayLists.ArrayList.Insert | skel/arraylist.c:107-128 | the contents gain exactly that element there; the capacity stays a power of two, at least half used |
| ArrayLists.ArrayList.InsertOrdered | skel/arraylist.c:130-154 | the element lands after all that are not greater and before all that are |
| LinkedLists.LinkedList.InsertNth | skel/linked_list.c:34-81 | a fresh node at that position, or at the end; links, head, tail and size stay right |
| LinkedLists.LinkedList.RemoveNth | skel/linked_list.c:83-117 | unlinks that node, or the last one; links, head, tail and size stay right |
| DoublyLinkedLists.DList.InsertNth | skel/doubly_linked_list.c:37-75 | links a node in at that position, both directions, head and tail included |
| DoublyLinkedLists.DList.InsertNthNode | skel/doubly_linked_list.c:97-104 | the same with a fresh node |
| DoublyLinkedLists.DList.RemoveNode | skel/doubly_linked_list.c:77-95 | unlinks a node in both directions, head and tail included |
| HashMaps.HashMap.Get | skel/hashmap.c:31-44 | the value that the table holds for the key, if any |
| HashMaps.HashMap.Set | skel/hashmap.c:46-99 | the table as a map gains or replaces exactly that key; every key stays in the bucket of its hash, once |
| HashMaps.HashMap.Remove | skel/hashmap.c:101-123 | the table as a map loses exactly that key; its bucket loses one entry and no other entry moves |
| LruCaches.LruCache.Get | skel/lru_cache.c:150-164 | returns the cached value and makes it the most recent; nodes and table keep pointing at each other |
| LruCaches.LruCache.Put | skel/lru_cache.c:97-148 | the entries, most recent first, the evicted key and the result are those of the pure put; true if the key existed |
| LruCaches.LruCache.Remove | skel/lru_cache.c:166-186 | the entries lose exactly that key |
| Stores.Store.EditDocument | skel/server.c:19-63 | database, cache, reply and log are those of the pure edit, which `Accounts.EditUsesCache` and `Accounts.EditLogs` pin down |
| Stores.Store.GetDocument | skel/server.c:65-106 | database, cache, reply and log are those of the pure get, which `Accounts.GetUsesCache` and `Accounts.GetLogs` pin down |
| Stores.Store.SolveQueue | skel/server.c:130-154 | the loop executes the whole queue, oldest first, with all replies |
| Stores.Store.HandleEdit | skel/server.c:158-175 | queues the edit with the notice that `Transcripts.EditNotice` pins down, or ends the program if and only if the queue is full |
| Stores.Store.HandleGet | skel/server.c:176-186 | works off the queue, then answers the get |
| Picking.PickSrc | skel/server.c:351-383 | the loop with its running best computes the pure cascade over the replicas |
| Picking.PickDest | skel/server.c:265-305 | the loop computes the pure cascade over the labels of other servers, none if there is none |
| Transfers.MoveDocument | skel/server.c:241-258 | one document leaves database and cache of the sender and enters the database of the receiver |
| Transfers.VisitNode | skel/server.c:218-261 | one turn of the inner loop: exactly one document less to visit, moved or kept as decided, even though its node may be unlinked |
| Transfers.Walk | skel/server.c:216-262 | the walk over all buckets visits every document once and carries exactly those that have to go; it fails if and only if some document has nowhere to go |
| Transfers.TransferFiles | skel/server.c:202-263 | nothing if the labels share a server, otherwise the migration by interval or of everything, printed under the sender's label |
| Transfers.TransferFilesMultipleSrcs | skel/server.c:385-444 | the same with the test that pick_src names the sender |
| Transfers.TransferFilesMultipleDests | skel/server.c:307-349 | the migration to the nearest eligible follower; it ends the program if and only if no follower is eligible and there is a document |
| LoadBalancers.MissingMeansSameServer | skel/load_balancer.c:121-131 | al_find_by misses a label of the source only if source and destination are labels of the same server, where the transfer returns at once |
| LoadBalancers.InsertTransfers | skel/load_balancer.c:98-136 | whatever al_find_by returned for labels not inserted yet, the transfer after an insertion makes the step of the state machine |
| LoadBalancers.SingleRemoval | skel/load_balancer.c:152-170 | handing everything to the next label makes the step of the state machine |
| LoadBalancers.ReplicatedRemoval | skel/load_balancer.c:172-215 | handing every document to the nearest eligible follower makes the step of the state machine, exit included |
| LoadBalancers.LoadBalancer.FindLabel | skel/load_balancer.c:127-128 | the index of a label in the array, or -1 if and only if it is not on the ring |
| LoadBalancers.LoadBalancer.FindOwner | skel/load_balancer.c:233-235 | the label that the lookup returns is the owner of the name |
| LoadBalancers.LoadBalancer.AddLabel | skel/load_balancer.c:71-136 | array, shared servers and replies after the insertion are those of the state machine |
| LoadBalancers.LoadBalancer.AddServer | skel/load_balancer.c:138-150 | the same for one or three labels sharing one server, whose cache has the capacity asked for |
| LoadBalancers.LoadBalancer.RemoveServer | skel/load_balancer.c:217-224 | array, servers, replies or exit are those of the state machine, with and without virtual nodes |
| LoadBalancers.LoadBalancer.ForwardEdit | skel/load_balancer.c:226-239 | the owner's queue, reply or exit are those of the state machine |
| LoadBalancers.LoadBalancer.ForwardGet | skel/load_balancer.c:226-239 | the owner's state and replies are those of the state machine |
| Program.ApplyRequest | skel/main.c:103-124 | one turn of the request loop makes one step of the state machine |
| Program.ExitIsFinal | skel/main.c:91-128 | once the program has ended, the transcript is complete |
| Program.ApplyRequests | skel/main.c:91-128 | the loop over the heap prints exactly the transcript of the run and ends early if and only if the run does |

## Left out

- Reading and parsing of requests, the usage message, and the printed wording: requests and replies are values.
- Memory management: allocation failure, freeing, duplicated strings, and the fixed 1000-byte buffers for
  replies and logs, which a long document content can exceed.
- Diagnostics: the message printed for a request without servers, the messages printed before an exit, and
  the debug printers.
- `skel/queue.c` as an object of its own: the queue of edits is a field of type `seq`, with the bound of 1000
  entries and the exit at a push.
- Stores.Store.constructor: a cache of capacity 0 is excluded, because the code then follows the null tail
  of an empty list.
- SystemRuns.Step: adding an id that is present or not below 100000, and removing an id that is absent, are
  excluded; the code checks none of this and its labels then collide or its index is -1.
- Refinement.GetAnswersLatestEdit: assumes `NoneStranded`. That is exactly the condition for all gets of a run
  and its prefixes to be right; what a single get answers after a run that did strand a document is not
  characterised beyond the runs in `Witnesses`.
- Ledgers.RunIsLedger: assumes `NoneStranded`, as the ledger's plain map answers all gets. `Ledgers.StepIsEntered` needs
  only that documents are in their places before the request, and the facts in `Accounts` and `Transcripts` nothing of
  the kind.
- Replies.RepliesAreDue: assumes that the last server is never removed; that drops what is pending.
- Overflow of sizes and indices beyond 32 bits: array and list sizes are natural numbers.
- `size` of the hash table, which the code decrements and never increments.
- Transfers.Walk: the three transfer functions share one walk that is given the decision as a parameter; each
  keeps its own early return, its own hashes and its own exit.
- The arrays of three labels that are passed to the transfer functions are sequences.
- Running time, and the cost of repeated resizing around the shrink threshold.
