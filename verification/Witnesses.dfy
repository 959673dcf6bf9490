/**
 Ties do strand documents: for every pair of servers there is a run that loses one. Some runs are written
 out with a name and server ids.
 */
module Witnesses {
  import opened Hashing
  import opened Ring
  import opened CacheModel
  import opened ServerModel
  import opened Migration
  import opened SystemModel
  import opened SystemRuns
  import opened Seats
  import opened Refinement

  lemma {:induction false} LoneServerKeeps(s: State, id: UInt32, labels: seq<UInt32>)
    requires Adding(s, id, labels) && s.servers.Keys == {id}
    ensures AddLabels(s, id, labels).0.servers == s.servers
    decreases |labels|
  {
    hide HashString, HashUint, Distance, LabelsOf;
    if labels != [] {
      LoneServerKeeps(AddHashed(s, id, labels).0, id, labels[1..]);
    }
  }

  lemma FirstServerIsEmpty(vnodes: bool, a: UInt32)
    requires a < 100000
    ensures var r := Step(State(vnodes, map[], map[]), AddServer(a, 1));
            r.Running? && r.state.servers == map[a := Server(map[], [], 1, [])]
  {
    hide HashString, HashUint, Distance;
    var s := State(vnodes, map[], map[]);
    NewServerIsBusy(s, a, 1);
    LoneServerKeeps(WithNewServer(s, a, 1), a, LabelList(vnodes, a));
  }

  lemma EditFitsEmptyQueue(s: State, name: CString, content: CString)
    requires Ready(s) && forall p :: p in s.servers ==> s.servers[p].queue == []
    ensures Step(s, EditRequest(name, content)).Running?
  {
  }

  lemma NothingToStrand(vnodes: bool, a: UInt32, name: CString, content: CString, two: seq<Op>)
    requires two == [AddServer(a, 1)] + [EditRequest(name, content)] && WellFormed(two)
    ensures NoneStranded(vnodes, two)
  {
    hide HashString, HashUint, Run, Ready, Stranded, RingOf;
    var one := Init(two);
    assert one == [AddServer(a, 1)] && Init(one) == [];
    assert Reference(Init(one)) == map[];
    assert NoneStranded(vnodes, one);
    assert !Last(two).AddServer?;
  }

  lemma OneServerOneDocument(vnodes: bool, a: UInt32, name: CString, content: CString, one: seq<Op>, two: seq<Op>)
    requires a < 100000
    requires one == [AddServer(a, 1)] && two == one + [EditRequest(name, content)]
    ensures WellFormed(two) && NoneStranded(vnodes, two)
    ensures Run(vnodes, two).Running? && Alive(two) == {a} && Reference(two) == map[name := content]
  {
    hide HashString, HashUint, Step, Ready, NoneStranded, Init, Last;
    RunStep(vnodes, [], AddServer(a, 1), one);
    FirstServerIsEmpty(vnodes, a);
    hide Run, WellFormed, Alive, Reference;
    EditFitsEmptyQueue(Run(vnodes, one).state, name, content);
    RunStep(vnodes, one, EditRequest(name, content), two);
    NothingToStrand(vnodes, a, name, content, two);
  }

  lemma StepIsAddOrGet(s: State, id: UInt32, name: CString)
    requires Ready(s) && id < 100000 && id !in s.servers
    ensures Step(s, AddServer(id, 1)).Running? && Step(s, AddServer(id, 1)).state == AddServerLabels(s, id, 1).0
    ensures var t := AddServerLabels(s, id, 1).0;
            Step(t, GetRequest(name)) == ForwardGet(t, name)
  {
  }

  lemma GetAfterAdd(s: State, m: Documents, id: UInt32, name: CString)
    requires Ready(s) && Placed(s, m) && id < 100000 && id !in s.servers && m.Keys == {name}
    ensures var t := AddServerLabels(s, id, 1).0;
            var out := ForwardGet(t, name).out;
            && t.ring == RingOf(s.vnodes, s.servers.Keys + {id}) && t.ring != map[] && out != []
            && out[|out| - 1].reply == if Stranded(t.ring, id, HashString(name)) then NoContent else Content(m[name])
  {
    hide HashString, HashUint, Stranded, SpreadAs, Placed, ForwardGet;
    AddServerSpreads(s, m, id, 1);
    AddPlacesExactly(s, m, id, 1);
    var t := AddServerLabels(s, id, 1).0;
    ReadyRing(t);
    hide AddServerLabels, Ready, RingOf;
    if Stranded(t.ring, id, HashString(name)) {
      StrandedIsNotFound(t, m, id, name);
    } else {
      GetAnswers(t, m, name);
    }
  }

  /** The last thing that the run prints is the given reply. */
  ghost predicate AnswersWith(vnodes: bool, asked: seq<Op>, reply: Reply) {
    && WellFormed(asked) && Run(vnodes, asked).Running?
    && var out := Run(vnodes, asked).out;
       out != [] && out[|out| - 1].reply == reply
  }

  /** One server, one document, a second server, a get. */
  function TwoServers(a: UInt32, id: UInt32, name: CString, content: CString): seq<Op> {
    [AddServer(a, 1), EditRequest(name, content), AddServer(id, 1), GetRequest(name)]
  }

  lemma BeforeTheGet(vnodes: bool, a: UInt32, id: UInt32, name: CString, content: CString, three: seq<Op>)
      returns (s: State)
    requires a < 100000 && id < 100000 && a != id
    requires three == [AddServer(a, 1), EditRequest(name, content), AddServer(id, 1)]
    ensures Ready(s) && Placed(s, map[name := content]) && s.vnodes == vnodes && s.servers.Keys == {a}
    ensures WellFormed(three) && Alive(three) == {a, id} && Reference(three) == map[name := content]
    ensures Run(vnodes, three).Running? && Run(vnodes, three).state == AddServerLabels(s, id, 1).0
  {
    hide HashString, HashUint, Ready, Step, Placed, NoneStranded, Init, Last;
    var one := [AddServer(a, 1)];
    var two := one + [EditRequest(name, content)];
    OneServerOneDocument(vnodes, a, name, content, one, two);
    RunPlaces(vnodes, two);
    s := Run(vnodes, two).state;
    assert three == two + [AddServer(id, 1)];
    RunStep(vnodes, two, AddServer(id, 1), three);
    StepIsAddOrGet(s, id, name);
    hide Run, WellFormed, Reference, Alive;
  }

  lemma TheGet(vnodes: bool, a: UInt32, id: UInt32, name: CString, content: CString, three: seq<Op>)
    requires a < 100000 && id < 100000 && a != id
    requires three == [AddServer(a, 1), EditRequest(name, content), AddServer(id, 1)]
    ensures WellFormed(three) && Reference(three) == map[name := content] && Run(vnodes, three).Running?
    ensures var ring := RingOf(vnodes, {a, id});
            var out := ForwardGet(Run(vnodes, three).state, name).out;
            && ring != map[] && out != []
            && out[|out| - 1].reply == if Stranded(ring, id, HashString(name)) then NoContent else Content(content)
  {
    hide HashString, HashUint, Ready, Placed, ForwardGet, Stranded, RingOf, Run, WellFormed, Alive, Reference;
    var s := BeforeTheGet(vnodes, a, id, name, content, three);
    hide AddServerLabels;
    GetAfterAdd(s, map[name := content], id, name);
    assert {a} + {id} == {a, id};
  }

  /** The answer is right exactly when the document is not stranded. */
  lemma TwoServerRun(vnodes: bool, a: UInt32, id: UInt32, name: CString, content: CString)
    requires a < 100000 && id < 100000 && a != id
    ensures Reference(TwoServers(a, id, name, content)) == map[name := content]
    ensures var ring := RingOf(vnodes, {a, id});
            && ring != map[]
            && AnswersWith(vnodes, TwoServers(a, id, name, content),
                           if Stranded(ring, id, HashString(name)) then NoContent else Content(content))
  {
    hide HashString, ForwardGet, Stranded, RingOf, AnswersWith, Run, WellFormed, Reference;
    var three := [AddServer(a, 1), EditRequest(name, content), AddServer(id, 1)];
    TheGet(vnodes, a, id, name, content, three);
    assert TwoServers(a, id, name, content) == three + [GetRequest(name)];
    hide TwoServers;
    GetEndsRun(vnodes, three, name, TwoServers(a, id, name, content));
  }

  lemma GetEndsRun(vnodes: bool, ops: seq<Op>, name: CString, asked: seq<Op>)
    requires WellFormed(ops) && Run(vnodes, ops).Running? && asked == ops + [GetRequest(name)]
    requires ForwardGet(Run(vnodes, ops).state, name).out != []
    ensures Reference(asked) == Reference(ops)
    ensures var out := ForwardGet(Run(vnodes, ops).state, name).out;
            AnswersWith(vnodes, asked, out[|out| - 1].reply)
  {
    hide Ready, ForwardGet, OnlyServerChanges, AddServerLabels, RemoveLabels, ForwardEdit;
    RunStep(vnodes, ops, GetRequest(name), asked);
    hide Run, WellFormed, Reference, Alive;
  }

  /** Going from label to label, some label of a server comes directly before the first label of another. */
  lemma {:induction false} LastOfItsServer(ring: Points, l: UInt32, x: UInt32) returns (last: UInt32)
    requires Injective(ring) && l in ring && x in ring && Physical(l) != Physical(x)
    ensures last in ring && Physical(last) == Physical(l) && Physical(Successor(ring, last)) != Physical(l)
    ensures Distance(ring[l], ring[Successor(ring, last)]) <= Distance(ring[l], ring[x])
    decreases Distance(ring[l], ring[x])
  {
    hide Physical;
    var u := Successor(ring, l);
    assert x in ring - {l};
    if Physical(u) != Physical(l) {
      return l;
    }
    last := LastOfItsServer(ring, u, x);
  }

  lemma LabelsOfBoth(vnodes: bool, a: UInt32, id: UInt32)
    requires a < 100000 && id < 100000
    ensures var ring := RingOf(vnodes, {a, id}); a in ring && id in ring && Physical(a) == a && Physical(id) == id
  {
    hide HashUint;
    RingMembers(vnodes, {a, id});
  }

  /** With and without virtual nodes, every second server loses a document of the first one: there is a name
      whose get is answered with nothing. */
  lemma EveryPairLosesOne(vnodes: bool, a: UInt32, id: UInt32, content: CString)
    requires a < 100000 && id < 100000 && a != id
    ensures exists name :: AnswersWith(vnodes, TwoServers(a, id, name, content), NoContent)
  {
    hide HashString, HashUint, Distance, Physical, LabelsOf, AnswersWith, RingOf;
    var ring := RingOf(vnodes, {a, id});
    LabelsOfBoth(vnodes, a, id);
    RingMembers(vnodes, {a, id});
    var l := LastOfItsServer(ring, id, a);
    HashStringOnto(ring[l]);
    var name :| HashString(name) == ring[l];
    OwnerOfOwnPoint(ring, l);
    TwoServerRun(vnodes, a, id, name, content);
  }

  // Hash values written out.

  const TIED_NAME: CString := [114, 108, 121, 105]
  const TIED_SERVER: UInt32 := 7332

  lemma {:induction false} XorWithZero(b: nat)
    ensures Xor(0, b) == b
  {
    if b != 0 {
      XorWithZero(b / 2);
    }
  }

  lemma XorByBits(a: nat, b: nat, x: nat, y: nat)
    requires x < 2 && y < 2
    ensures Xor(2 * a + x, 2 * b + y) == 2 * Xor(a, b) + if x == y then 0 else 1
  {
  }

  // Exclusive ors of the two halves of intermediate hash values, from the highest bit down.

  lemma FirstRound()
    ensures Xor(2404, 30156) == 31912
  {
    hide Xor;
    XorWithZero(0);
    XorByBits(0, 0, 0, 1); XorByBits(0, 1, 0, 1); XorByBits(0, 3, 0, 1); XorByBits(0, 7, 1, 0);
    XorByBits(1, 14, 0, 1); XorByBits(2, 29, 0, 0); XorByBits(4, 58, 1, 1); XorByBits(9, 117, 0, 1);
    XorByBits(18, 235, 1, 1); XorByBits(37, 471, 1, 0); XorByBits(75, 942, 0, 0); XorByBits(150, 1884, 0, 1);
    XorByBits(300, 3769, 1, 1); XorByBits(601, 7539, 0, 0); XorByBits(1202, 15078, 0, 0);
  }

  lemma SecondRound()
    ensures Xor(31901, 4792) == 28197
  {
    hide Xor;
    XorWithZero(0);
    XorByBits(0, 0, 1, 0); XorByBits(1, 0, 1, 0); XorByBits(3, 0, 1, 1); XorByBits(7, 1, 1, 0);
    XorByBits(15, 2, 1, 0); XorByBits(31, 4, 0, 1); XorByBits(62, 9, 0, 0); XorByBits(124, 18, 1, 1);
    XorByBits(249, 37, 0, 0); XorByBits(498, 74, 0, 1); XorByBits(996, 149, 1, 1); XorByBits(1993, 299, 1, 1);
    XorByBits(3987, 599, 1, 0); XorByBits(7975, 1198, 0, 0); XorByBits(15950, 2396, 1, 0);
  }

  /** Ties do occur: the name "rlyi" stands where server 7332 stands. */
  lemma TieExists()
    ensures HashString(TIED_NAME) == HashUint(TIED_SERVER)
  {
    hide Xor;
    assert Base33(TIED_NAME[..1]) == 177687;
    assert TIED_NAME[..2][..1] == TIED_NAME[..1] && Base33(TIED_NAME[..2]) == 5863779;
    assert TIED_NAME[..3][..2] == TIED_NAME[..2] && Base33(TIED_NAME[..3]) == 193504828;
    HashOf7332();
    hide HashUint;
  }

  lemma RoundOf100000()
    ensures Xor(24437, 1563) == 22894
  {
    hide Xor;
    XorWithZero(0);
    XorByBits(0, 0, 1, 0); XorByBits(1, 0, 0, 0); XorByBits(2, 0, 1, 0); XorByBits(5, 0, 1, 0);
    XorByBits(11, 0, 1, 1); XorByBits(23, 1, 1, 1); XorByBits(47, 3, 1, 0); XorByBits(95, 6, 0, 0);
    XorByBits(190, 12, 1, 0); XorByBits(381, 24, 1, 0); XorByBits(763, 48, 1, 1); XorByBits(1527, 97, 0, 1);
    XorByBits(3054, 195, 1, 0); XorByBits(6109, 390, 0, 1); XorByBits(12218, 781, 1, 1);
  }

  lemma RoundOf200000()
    ensures Xor(49991, 43889) == 26678
  {
    hide Xor;
    XorWithZero(0);
    XorByBits(0, 0, 1, 1); XorByBits(1, 1, 1, 0); XorByBits(3, 2, 0, 1); XorByBits(6, 5, 0, 0);
    XorByBits(12, 10, 0, 1); XorByBits(24, 21, 0, 0); XorByBits(48, 42, 1, 1); XorByBits(97, 85, 1, 1);
    XorByBits(195, 171, 0, 0); XorByBits(390, 342, 1, 1); XorByBits(781, 685, 0, 1); XorByBits(1562, 1371, 0, 1);
    XorByBits(3124, 2743, 0, 0); XorByBits(6248, 5486, 1, 0); XorByBits(12497, 10972, 1, 0); XorByBits(24995, 21944, 1, 1);
  }

  lemma RoundOf107332()
    ensures Xor(26841, 31719) == 4926
  {
    hide Xor;
    XorWithZero(0);
    XorByBits(0, 0, 1, 1); XorByBits(1, 1, 1, 1); XorByBits(3, 3, 0, 1); XorByBits(6, 7, 1, 1);
    XorByBits(13, 15, 0, 0); XorByBits(26, 30, 0, 1); XorByBits(52, 61, 0, 1); XorByBits(104, 123, 1, 1);
    XorByBits(209, 247, 1, 1); XorByBits(419, 495, 0, 1); XorByBits(838, 991, 1, 0); XorByBits(1677, 1982, 1, 0);
    XorByBits(3355, 3964, 0, 1); XorByBits(6710, 7929, 0, 1); XorByBits(13420, 15859, 1, 1);
  }

  lemma UpperHalf(k: UInt32)
    ensures XorShift(k) / 0x1_0000 == k / 0x1_0000
  {
    hide Xor;
    XorOfHalfWords(k / 0x1_0000, k % 0x1_0000);
  }

  /** The upper halves of the hashes of some labels of the servers 0 and 7332. */
  lemma SomeHashes()
    ensures HashUint(0) == 0
    ensures HashUint(100000) / 0x1_0000 == 6028 && HashUint(200000) / 0x1_0000 == 3788
    ensures HashUint(7332) / 0x1_0000 == 31901 && HashUint(107332) / 0x1_0000 == 62080
  {
    ZeroHash();
    HashOf100000();
    HashOf200000();
    HashOf107332();
    HashOf7332();
    hide HashUint;
  }

  lemma ZeroHash()
    ensures HashUint(0) == 0
  {
  }

  lemma HashOf7332()
    ensures HashUint(7332) == 2090692133
  {
    hide Xor;
    XorWithZero(7332);
    assert XorShift(7332) == 7332 && MulWrapping(7332, 0x45d9f3b) == 157578700;
    FirstRound();
    assert XorShift(157578700) == 157580456 && MulWrapping(157580456, 0x45d9f3b) == 2090668728;
    SecondRound();
    assert XorShift(2090668728) == 2090692133;
  }

  lemma HashOf100000()
    ensures HashUint(100000) / 0x1_0000 == 6028
  {
    hide Xor;
    XorWithZero(17232);
    XorByBits(0, 17232, 1, 0);
    assert XorShift(100000) == 100001 && MulWrapping(100001, 0x45d9f3b) == 1601504795;
    RoundOf100000();
    assert XorShift(1601504795) == 1601526126 && MulWrapping(1601526126, 0x45d9f3b) == 395112026;
    UpperHalf(395112026);
  }

  lemma HashOf200000()
    ensures HashUint(200000) / 0x1_0000 == 3788
  {
    hide Xor;
    XorWithZero(848);
    XorByBits(0, 848, 1, 0);
    XorByBits(1, 1696, 1, 0);
    assert XorShift(200000) == 200003 && MulWrapping(200003, 0x45d9f3b) == 3276254065;
    RoundOf200000();
    assert XorShift(3276254065) == 3276236854 && MulWrapping(3276236854, 0x45d9f3b) == 248286834;
    UpperHalf(248286834);
  }

  lemma HashOf107332()
    ensures HashUint(107332) / 0x1_0000 == 62080
  {
    hide Xor;
    XorWithZero(20898);
    XorByBits(0, 20898, 1, 0);
    assert XorShift(107332) == 107333 && MulWrapping(107333, 0x45d9f3b) == 1759083495;
    RoundOf107332();
    assert XorShift(1759083495) == 1759056702 && MulWrapping(1759056702, 0x45d9f3b) == 4068536650;
    UpperHalf(4068536650);
  }

  /** Without virtual nodes, every document on the point of a new server is lost. */
  lemma TieBreaksRefinement(a: UInt32, id: UInt32, name: CString, content: CString)
    requires a < 100000 && id < 100000 && a != id && HashString(name) == HashUint(id)
    ensures AnswersWith(false, TwoServers(a, id, name, content), NoContent)
  {
    hide HashString, HashUint, Distance, AnswersWith, RingOf, Physical;
    var ring := RingOf(false, {a, id});
    RingMembers(false, {a, id});
    LabelsOfBoth(false, a, id);
    OwnerOfOwnPoint(ring, id);
    assert a in ring - {id};
    TwoServerRun(false, a, id, name, content);
  }

  /** Server 7332 is added after an edit of "rlyi", and the document is lost. */
  lemma TieHappens(content: CString)
    ensures AnswersWith(false, TwoServers(0, TIED_SERVER, TIED_NAME, content), NoContent)
  {
    hide HashString, HashUint, AnswersWith;
    TieExists();
    TieBreaksRefinement(0, TIED_SERVER, TIED_NAME, content);
  }

  lemma RingOfZeroAndTied()
    ensures var ring := RingOf(true, {0, TIED_SERVER});
            && (forall l :: l in ring <==> l in {0, 100000, 200000, 7332, 107332, 207332})
            && (forall l :: l in ring ==> ring[l] == HashUint(l))
            && Injective(ring)
  {
    hide HashUint;
    var ring := RingOf(true, {0, TIED_SERVER});
    RingMembers(true, {0, TIED_SERVER});
    hide RingOf;
    forall l | l in ring
      ensures l in {0, 100000, 200000, 7332, 107332, 207332}
    {
    }
  }

  /** With virtual nodes the same requests are answered right: label 107332 is inserted between label 7332 and
      the next label, and takes the document along. */
  lemma TieIsRescued(content: CString)
    ensures AnswersWith(true, TwoServers(0, TIED_SERVER, TIED_NAME, content), Content(content))
  {
    hide HashString, HashUint, AnswersWith, RingOf;
    var ring := RingOf(true, {0, TIED_SERVER});
    RingOfZeroAndTied();
    TieExists();
    SomeHashes();
    OwnerOfOwnPoint(ring, 7332);
    assert 107332 in ring - {7332};
    TwoServerRun(true, 0, TIED_SERVER, TIED_NAME, content);
  }

  /** With virtual nodes a document on the point of label 100000 is carried off to server 7332, although label
      100000 still serves it: pick_src names label 0, which comes next after a label of 7332. */
  lemma TieCarriesOff(content: CString)
    ensures exists name :: HashString(name) == HashUint(100000)
                           && AnswersWith(true, TwoServers(0, TIED_SERVER, name, content), NoContent)
  {
    hide HashString, HashUint, AnswersWith, RingOf;
    var ring := RingOf(true, {0, TIED_SERVER});
    RingOfZeroAndTied();
    SomeHashes();
    var l := LastOfItsServer(ring, 7332, 0);
    assert Successor(ring, l) == 0;
    HashStringOnto(HashUint(100000));
    var name :| HashString(name) == HashUint(100000);
    OwnerOfOwnPoint(ring, 100000);
    assert NextBest(ring, 100000, 0);
    assert Takes(ring, l, 100000);
    TwoServerRun(true, 0, TIED_SERVER, name, content);
  }

  // A tie can do worse than lose a document: it can bring back an old content.

  /** All that the server has cached is an old content of the document. */
  ghost predicate CachesOnly(server: Server, name: CString, content: CString) {
    server.queue == [] && server.cap == 1 && server.cache == [Slot(name, content)]
  }

  lemma GetFillsCache(name: CString, content: CString, id: UInt32)
    ensures CachesOnly(Fetch(Server(map[], [], 1, [Edit(name, content)]), id, name).0, name, content)
  {
    var e := Edit(name, content);
    var waiting := Server(map[], [], 1, [e]);
    var edited := EditDocument(waiting.(queue := [e][1..]), id, e).0;
    assert edited == Server(map[name := content], [Slot(name, content)], 1, []);
    assert SolveQueue(waiting, id).0 == edited;
  }

  lemma CachedIsAnswered(server: Server, name: CString, content: CString, id: UInt32)
    requires CachesOnly(server, name, content)
    ensures var out := Fetch(server, id, name).1; out[|out| - 1].reply == Content(content)
  {
    assert SolveQueue(server, id) == (server, []);
    assert server.cache[0].key == name && Holds(server.cache, name) && IndexOf(server.cache, name) == 0;
    hide Put;
  }

  /** A document that does not go stays cached by the sender; a receiver keeps its cache anyway. */
  lemma MigrationKeepsCached(servers: Servers, p: UInt32, id: UInt32, policy: Policy, dests: seq<UInt32>,
                             q: UInt32, name: CString, content: CString)
    requires p in servers && servers[p].cap > 0 && Suits(policy, |dests|) && q in servers
    requires CachesOnly(servers[q], name, content) && (q == p ==> GoesTo(policy, dests, name).None?)
    ensures CachesOnly(Migrate(servers, p, id, policy, dests).0[q], name, content)
  {
    hide GoesTo, Suits;
    if q == p {
      var gone := Leaving(policy, dests, servers[p].db);
      assert SolveQueue(servers[p], id).0 == servers[p] && name !in gone;
      assert Without([Slot(name, content)], gone) == [Slot(name, content)] + Without([], gone);
    }
  }

  lemma OnlyServerOwns(s: State, a: UInt32, name: CString)
    requires Ready(s) && s.servers.Keys == {a}
    ensures s.ring != map[] && HomeOf(s.ring, name) == a
  {
    hide HashString, HashUint, LabelsOf;
    assert HasLabels(s.ring, s.vnodes, a);
    EmptyTogether(s);
    HomeIsServer(s, name);
  }

  lemma EditThenGetCaches(s: State, a: UInt32, name: CString, content: CString)
    requires Ready(s) && s.servers == map[a := Server(map[], [], 1, [])]
    ensures var t := ForwardEdit(s, Edit(name, content));
            && t.Running?
            && var u := ForwardGet(t.state, name).state;
               u.servers.Keys == {a} && CachesOnly(u.servers[a], name, content)
  {
    hide HashString, HashUint, Physical, CachesOnly, Fetch, Distance, LabelsOf, HasLabels, Shape;
    OnlyServerOwns(s, a, name);
    var t := ForwardEdit(s, Edit(name, content)).state;
    assert t.servers[a] == Server(map[], [], 1, [Edit(name, content)]);
    GetFillsCache(name, content, Owner(s.ring, HashString(name)));
  }

  /** A server is added on the point of the document: the old server keeps it, cached. */
  lemma AddKeepsCached(s: State, a: UInt32, id: UInt32, name: CString, content: CString)
    requires Ready(s) && !s.vnodes && s.servers.Keys == {a} && CachesOnly(s.servers[a], name, content)
    requires id < 100000 && id != a && HashString(name) == HashUint(id)
    ensures var t := AddServerLabels(s, id, 1).0;
            && t.servers.Keys == {a, id} && CachesOnly(t.servers[a], name, content)
            && t.servers[id].queue == [] && t.ring != map[] && Owner(t.ring, HashString(name)) == id
  {
    hide HashString, HashUint, Distance, CachesOnly, ShouldMove, Migrate;
    NewServerIsBusy(s, id, 1);
    var s0 := WithNewServer(s, id, 1);
    var t := AddHashed(s0, id, [id]).0;
    assert AddLabels(s0, id, [id]).0 == t;
    hide AddLabels;
    OwnerOfOwnPoint(t.ring, id);
    var src := Successor(t.ring, id);
    hide Successor, Injective;
    if Physical(src) != id {
      OwnPointDecided(false, t.ring, src, id);
      MigrationKeepsCached(s0.servers, a, src, AddPolicy(false, t.ring, src, id), [id], a, name, content);
      QueueStays(s0.servers, a, src, AddPolicy(false, t.ring, src, id), [id], id);
    }
  }

  lemma QueueStays(servers: Servers, p: UInt32, id: UInt32, policy: Policy, dests: seq<UInt32>, q: UInt32)
    requires p in servers && servers[p].cap > 0 && Suits(policy, |dests|) && q in servers && q != p
    ensures Migrate(servers, p, id, policy, dests).0[q].queue == servers[q].queue
  {
  }

  /** The second edit goes to the new server, and comes back when that server is removed; the cache of the old
      server does not notice. */
  lemma RemovalKeepsCached(s: State, a: UInt32, id: UInt32, name: CString, content: CString, later: CString)
    requires Ready(s) && s.servers.Keys == {a, id} && a != id && CachesOnly(s.servers[a], name, content)
    requires s.servers[id].queue == [] && s.ring != map[] && HomeOf(s.ring, name) == id
    ensures var t := ForwardEdit(s, Edit(name, later));
            && t.Running? && t.state.servers.Keys == {a, id}
            && var u := RemoveLabels(t.state, id);
               u.Running? && u.state.servers.Keys == {a} && CachesOnly(u.state.servers[a], name, content)
  {
    hide HashString, HashUint, Distance, CachesOnly, LabelsOf, HasLabels, Successor, Migrate, Physical;
    var t := ForwardEdit(s, Edit(name, later)).state;
    assert t.servers[a] == s.servers[a];
    OthersOnRing(t, id);
    ForeignMeansAnother(t, id);
    var policy, dests := RemovalPolicy(t, id), PhysicalOf(Followers(t, id));
    hide Shape, Followers, RemovalPolicy;
    MigrationKeepsCached(t.servers, id, id, policy, dests, a, name, content);
  }

  lemma OnlyServerAnswers(s: State, a: UInt32, name: CString, content: CString)
    requires Ready(s) && s.servers.Keys == {a} && CachesOnly(s.servers[a], name, content)
    ensures var out := ForwardGet(s, name).out; out != [] && out[|out| - 1].reply == Content(content)
  {
    hide HashString, HashUint, Fetch, CachesOnly, Distance;
    OnlyServerOwns(s, a, name);
    CachedIsAnswered(s.servers[a], name, content, Owner(s.ring, HashString(name)));
  }

  /** The run is in state s, with the given documents in the reference map. */
  ghost predicate Reached(vnodes: bool, ops: seq<Op>, s: State, m: Documents) {
    && WellFormed(ops) && Run(vnodes, ops).Running? && Run(vnodes, ops).state == s && Reference(ops) == m
    && Alive(ops) == s.servers.Keys
  }

  lemma ReachNext(vnodes: bool, ops: seq<Op>, s: State, m: Documents, op: Op, next: seq<Op>)
    requires Reached(vnodes, ops, s, m) && Ready(s) && Admissible(s.servers.Keys, op) && next == ops + [op]
    requires Step(s, op).Running?
    ensures Reached(vnodes, next, Step(s, op).state, ReferenceStep(m, s.servers.Keys, op))
  {
    hide Ready, Step;
    RunStep(vnodes, ops, op, next);
    hide Run, WellFormed, Reference, Alive;
  }

  lemma CachedRun(a: UInt32, name: CString, content: CString, ops: seq<Op>) returns (s: State)
    requires a < 100000
    requires ops == [AddServer(a, 1), EditRequest(name, content), GetRequest(name)]
    ensures Ready(s) && !s.vnodes && s.servers.Keys == {a} && CachesOnly(s.servers[a], name, content)
    ensures Reached(false, ops, s, map[name := content])
  {
    hide HashString, HashUint, Ready, CachesOnly, Reached, RemoveLabels;
    var s0 := State(false, map[], map[]);
    assert Ready(s0) && Reached(false, [], s0, map[]) by { EmptyRun(); }
    FirstServerIsEmpty(false, a);
    ReachNext(false, [], s0, map[], AddServer(a, 1), [AddServer(a, 1)]);
    var s1 := Step(s0, AddServer(a, 1)).state;
    hide AddServerLabels;
    EditThenGetCaches(s1, a, name, content);
    ReachNext(false, [AddServer(a, 1)], s1, map[], EditRequest(name, content), [AddServer(a, 1), EditRequest(name, content)]);
    var s2 := Step(s1, EditRequest(name, content)).state;
    hide ForwardEdit, ForwardGet;
    ReachNext(false, [AddServer(a, 1), EditRequest(name, content)], s2, map[name := content], GetRequest(name), ops);
    s := Step(s2, GetRequest(name)).state;
  }

  lemma EmptyRun()
    ensures var s := State(false, map[], map[]); Ready(s) && Reached(false, [], s, map[])
  {
  }

  lemma StaleRun(a: UInt32, id: UInt32, name: CString, content: CString, later: CString, ops: seq<Op>) returns (s: State)
    requires a < 100000 && id < 100000 && a != id && HashString(name) == HashUint(id)
    requires ops == [AddServer(a, 1), EditRequest(name, content), GetRequest(name)]
                    + [AddServer(id, 1), EditRequest(name, later), RemoveServer(id)]
    ensures Ready(s) && s.servers.Keys == {a} && CachesOnly(s.servers[a], name, content)
    ensures Reached(false, ops, s, map[name := later])
  {
    hide HashString, HashUint, Ready, CachesOnly, Reached, AddServerLabels, ForwardEdit, ForwardGet, RemoveLabels;
    var first := [AddServer(a, 1), EditRequest(name, content), GetRequest(name)];
    var s3 := CachedRun(a, name, content, first);
    AddKeepsCached(s3, a, id, name, content);
    ReachNext(false, first, s3, map[name := content], AddServer(id, 1), first + [AddServer(id, 1)]);
    var s4 := Step(s3, AddServer(id, 1)).state;
    assert HomeOf(s4.ring, name) == id by { assert id % 100000 == id; }
    RemovalKeepsCached(s4, a, id, name, content, later);
    var fifth := first + [AddServer(id, 1), EditRequest(name, later)];
    ReachNext(false, first + [AddServer(id, 1)], s4, map[name := content], EditRequest(name, later), fifth);
    var s5 := Step(s4, EditRequest(name, later)).state;
    assert map[name := content][name := later] == map[name := later];
    ReachNext(false, fifth, s5, map[name := later], RemoveServer(id), ops);
    s := Step(s5, RemoveServer(id)).state;
  }

  /** An edit that is lost twice: server id is added on the point of a cached document, the document is edited
      there, and the server is removed. The next get is answered with the old content. */
  lemma StaleAnswer(a: UInt32, id: UInt32, name: CString, content: CString, later: CString)
    requires a < 100000 && id < 100000 && a != id && HashString(name) == HashUint(id)
    ensures var ops := [AddServer(a, 1), EditRequest(name, content), GetRequest(name),
                        AddServer(id, 1), EditRequest(name, later), RemoveServer(id)];
            && WellFormed(ops) && Reference(ops) == map[name := later]
            && AnswersWith(false, ops + [GetRequest(name)], Content(content))
  {
    hide HashString, HashUint, Ready, CachesOnly, ForwardGet, AnswersWith;
    var ops := [AddServer(a, 1), EditRequest(name, content), GetRequest(name),
                AddServer(id, 1), EditRequest(name, later), RemoveServer(id)];
    var s := StaleRun(a, id, name, content, later, ops);
    hide Run, WellFormed, Reference, Alive;
    OnlyServerAnswers(s, a, name, content);
    GetEndsRun(false, ops, name, ops + [GetRequest(name)]);
  }
}
