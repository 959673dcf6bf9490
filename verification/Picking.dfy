/**
 The decisions of the transfer functions, computed by the loops of the program.
 */
module Picking {
  import opened Hashing
  import opened Wrappers
  import opened Ring
  import opened Migration

  /** pick_src: the cascade over the labels of the sending server. */
  method PickSrc(nameHash: UInt32, hashes: seq<UInt32>) returns (ans: nat)
    requires |hashes| > 0
    ensures ans == PickSource(nameHash, hashes)
  {
    ans := 0;
    var bestHash := hashes[0];
    for i := 1 to |hashes|
      invariant ans == PickSource(nameHash, hashes[..i]) && bestHash == hashes[ans]
    {
      assert hashes[..i + 1][..i] == hashes[..i];
      if nameHash < hashes[i] && hashes[i] < bestHash {
        ans, bestHash := i, hashes[i];
      }
      if nameHash < hashes[i] && bestHash < nameHash {
        ans, bestHash := i, hashes[i];
        continue;
      }
      if nameHash > bestHash && hashes[i] < bestHash {
        ans, bestHash := i, hashes[i];
        continue;
      }
    }
    assert hashes[..|hashes|] == hashes;
  }

  /** pick_dest: the cascade over the candidates that are not labels of the sending server. */
  method PickDest(nameHash: UInt32, dests: seq<UInt32>, src: UInt32, hashes: seq<UInt32>) returns (ans: Option<nat>)
    requires |dests| == |hashes|
    ensures ans == PickDestination(nameHash, hashes, Foreign(dests, Physical(src)))
  {
    hide Physical;
    ans := None;
    var bestHash: UInt32 := 0;
    ghost var eligible := Foreign(dests, Physical(src));
    for i := 0 to |dests|
      invariant ans == PickDestination(nameHash, hashes[..i], eligible[..i])
      invariant ans.Some? ==> bestHash == hashes[ans.value]
    {
      assert hashes[..i + 1][..i] == hashes[..i] && eligible[..i + 1][..i] == eligible[..i];
      if Physical(dests[i]) == Physical(src) {
        continue;
      }
      if ans == None {
        ans, bestHash := Some(i), hashes[i];
        continue;
      }
      if nameHash < hashes[i] && hashes[i] <= bestHash {
        ans, bestHash := Some(i), hashes[i];
        continue;
      }
      if nameHash < hashes[i] && bestHash < nameHash {
        ans, bestHash := Some(i), hashes[i];
        continue;
      }
      if nameHash > bestHash && hashes[i] < bestHash {
        ans, bestHash := Some(i), hashes[i];
        continue;
      }
    }
    assert hashes[..|hashes|] == hashes && eligible[..|dests|] == eligible;
  }

  /** The policy that a transfer of label src to the given labels follows. */
  predicate Fits(policy: Policy, src: UInt32, dests: seq<UInt32>) {
    && Suits(policy, |dests|)
    && (policy.NearestOf? ==> policy.eligible == Foreign(dests, Physical(src)))
  }

  method MakeDecision(policy: Policy, src: UInt32, dests: seq<UInt32>, nameHash: UInt32) returns (d: Decision)
    requires Fits(policy, src, dests)
    ensures d == Decide(policy, |dests|, nameHash)
  {
    match policy
    case Everything =>
      d := Move(0);
    case Interval(srcHash, destHash) =>
      d := if ShouldMove(srcHash, nameHash, destHash) then Move(0) else Stay;
    case OwnInterval(srcHash, destHash, sender, replicas, points) =>
      var shouldMove := ShouldMove(srcHash, nameHash, destHash);
      var trueSrc := PickSrc(nameHash, points);
      if replicas[trueSrc] != sender {
        shouldMove := false;
      }
      d := if shouldMove then Move(0) else Stay;
    case NearestOf(points, eligible) =>
      var k := PickDest(nameHash, dests, src, points);
      d := if k.Some? then Move(k.value) else Stuck;
  }
}
