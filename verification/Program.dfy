/**
 The request loop of the program.
 */
module Program {
  import opened SystemRuns
  import S = SystemModel
  import M = ServerModel
  import opened LoadBalancers

  /** One turn of the request loop. */
  method ApplyRequest(lb: LoadBalancer, op: Op) returns (ok: bool, out: seq<M.Message>)
    requires lb.Valid() && Admissible(lb.state.servers.Keys, op)
    modifies lb`fleet, lb`state, lb`frame, lb.servers, lb.servers.data, lb.frame
    ensures lb.servers.data == old(lb.servers.data) || fresh(lb.servers.data)
    ensures old(lb.frame) <= lb.frame && fresh(lb.frame - old(lb.frame))
    ensures lb.Shown(ok, out, Step(old(lb.state), op))
  {
    hide LoadBalancer.Standing, Ready, S.RemoveLabels, AddServerLabels, ForwardEdit, ForwardGet;
    match op
    case AddServer(id, cap) =>
      out := lb.AddServer(id, cap);
      ok := true;
    case RemoveServer(id) =>
      ok, out := lb.RemoveServer(id);
    case EditRequest(name, content) =>
      ok, out := lb.ForwardEdit(M.Edit(name, content));
    case GetRequest(name) =>
      out := lb.ForwardGet(name);
      ok := true;
  }

  lemma {:induction false} PrefixWellFormed(ops: seq<Op>, i: nat)
    requires WellFormed(ops) && i <= |ops|
    ensures WellFormed(ops[..i])
    ensures i < |ops| ==> Admissible(Alive(ops[..i]), ops[i])
    decreases |ops|
  {
    if i < |ops| {
      if i < |ops| - 1 {
        PrefixWellFormed(Init(ops), i);
        assert Init(ops)[..i] == ops[..i];
      }
    } else {
      assert ops[..i] == ops;
    }
  }

  /** Once the program has ended, nothing is printed any more. */
  lemma {:induction false} ExitIsFinal(vnodes: bool, ops: seq<Op>, i: nat)
    requires WellFormed(ops) && i <= |ops| && WellFormed(ops[..i]) && Run(vnodes, ops[..i]).Exited?
    ensures Run(vnodes, ops) == Run(vnodes, ops[..i])
    decreases |ops|
  {
    if i < |ops| {
      assert Init(ops)[..i] == ops[..i];
      ExitIsFinal(vnodes, Init(ops), i);
    } else {
      assert ops[..i] == ops;
    }
  }

  /** The whole transcript, over the whole heap: what is printed is what the state machine says. */
  method ApplyRequests(enableVnodes: bool, requests: seq<Op>) returns (ok: bool, transcript: seq<M.Message>)
    requires WellFormed(requests)
    ensures ok <==> Run(enableVnodes, requests).Running?
    ensures transcript == Run(enableVnodes, requests).out
  {
    hide LoadBalancer.Standing, Ready, Step;
    var lb := new LoadBalancer(enableVnodes);
    transcript := [];
    for i := 0 to |requests|
      invariant fresh(lb) && fresh(lb.servers) && fresh(lb.servers.data) && fresh(lb.frame)
      invariant lb.Valid() && WellFormed(requests[..i])
      invariant Run(enableVnodes, requests[..i]) == S.Running(lb.state, transcript)
    {
      PrefixWellFormed(requests, i);
      PrefixWellFormed(requests, i + 1);
      assert Init(requests[..i + 1]) == requests[..i];
      var more;
      ok, more := ApplyRequest(lb, requests[i]);
      transcript := transcript + more;
      if !ok {
        ExitIsFinal(enableVnodes, requests, i + 1);
        return;
      }
    }
    assert requests[..|requests|] == requests;
    ok := true;
  }
}
