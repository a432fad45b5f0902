/**
 The peer list of src/client.c:148-232 and 608-642, with its mutex as one thread finds it: locking it
 twice blocks for ever. add_peer, remove_peer and remove_peers are as written; the module shows when the
 two senders as written get through, and what a broadcast leaves when the failing peers are removed by
 descriptor once the lock is released.
 */
module Peers {

  // ---------- What the operations do to the live prefix ----------

  /** The first position of p in s, or |s|. */
  function IndexOf(s: seq<int>, p: int): (i: nat)
    ensures i <= |s| && p !in s[..i] && (i < |s| ==> s[i] == p)
  {
    if s == [] then 0
    else
      var i := IndexOf(s[..|s| - 1], p);
      assert s == s[..|s| - 1] + [s[|s| - 1]];
      if i < |s| - 1 then i else if s[i] == p then i else |s|
  }

  /** The last element takes the place of the first p. */
  function Without(s: seq<int>, p: int): seq<int> {
    var i := IndexOf(s, p);
    if i == |s| then s else s[i := s[|s| - 1]][..|s| - 1]
  }

  function WithoutAll(s: seq<int>, ps: seq<int>): seq<int> {
    if ps == [] then s else Without(WithoutAll(s, ps[..|ps| - 1]), ps[|ps| - 1])
  }

  /** Whom a broadcast sends to: everyone but the sender. */
  function Others(s: seq<int>, sender: int): seq<int> {
    if s == [] then []
    else
      var last := s[|s| - 1];
      Others(s[..|s| - 1], sender) + if last == sender then [] else [last]
  }

  /** The indices of the peers to which sending fails. */
  function FailingAt(s: seq<int>, sender: int, fails: set<int>): (ks: seq<nat>)
    ensures forall j :: 0 <= j < |ks| ==> ks[j] < |s|
  {
    if s == [] then []
    else
      var last := s[|s| - 1];
      FailingAt(s[..|s| - 1], sender, fails) + if last != sender && last in fails then [|s| - 1] else []
  }

  function At(s: seq<int>, ks: seq<nat>): (ps: seq<int>)
    requires forall j :: 0 <= j < |ks| ==> ks[j] < |s|
    ensures |ps| == |ks|
  {
    seq(|ks|, j requires 0 <= j < |ks| => s[ks[j]])
  }

  lemma WithoutRemovesOne(s: seq<int>, p: int)
    ensures multiset(Without(s, p)) == multiset(s) - multiset{p}
  {
    var i := IndexOf(s, p);
    if i < |s| {
      LastFillsGap(s, i);
    } else {
      assert s[..i] == s;
    }
  }

  lemma LastFillsGap(s: seq<int>, i: nat)
    requires i < |s|
    ensures multiset(s[i := s[|s| - 1]][..|s| - 1]) == multiset(s) - multiset{s[i]}
  {
    var n := |s| - 1;
    assert s == s[..n] + [s[n]];
    if i < n {
      assert s[i := s[n]][..n] == s[..n][i := s[n]];
    } else {
      assert s[i := s[n]][..n] == s[..n];
    }
  }

  /** One place is filled with the last element, the first place of p; nothing else moves. */
  lemma WithoutFillsGap(s: seq<int>, p: int)
    ensures p !in s ==> Without(s, p) == s
    ensures p in s ==>
              exists i :: 0 <= i < |s| && s[i] == p && p !in s[..i] && |Without(s, p)| == |s| - 1
                && forall k :: 0 <= k < |s| - 1 ==> Without(s, p)[k] == if k == i then s[|s| - 1] else s[k]
  {
    var i := IndexOf(s, p);
    if i == |s| {
      assert s[..i] == s;
    }
  }

  /** remove_peers takes away exactly the given descriptors, as often as given. */
  lemma {:induction false} WithoutAllRemoves(s: seq<int>, ps: seq<int>)
    ensures multiset(WithoutAll(s, ps)) == multiset(s) - multiset(ps)
  {
    if ps != [] {
      var init, p := ps[..|ps| - 1], ps[|ps| - 1];
      WithoutAllRemoves(s, init);
      WithoutRemovesOne(WithoutAll(s, init), p);
      assert ps == init + [p];
    }
  }

  /** A broadcast sends once to each live peer other than the sender. */
  lemma {:induction false} OthersExactly(s: seq<int>, sender: int)
    ensures multiset(Others(s, sender)) == multiset(s)[sender := 0]
  {
    if s != [] {
      OthersExactly(s[..|s| - 1], sender);
      assert s == s[..|s| - 1] + [s[|s| - 1]];
    }
  }

  /** It sends in the order of the list. */
  lemma {:induction false} OthersInOrder(a: seq<int>, b: seq<int>, sender: int)
    ensures Others(a + b, sender) == Others(a, sender) + Others(b, sender)
    decreases |b|
  {
    if b == [] {
      assert a + b == a;
    } else {
      var init, last := b[..|b| - 1], b[|b| - 1];
      OthersInOrder(a, init, sender);
      assert (a + b)[..|a + b| - 1] == a + init && (a + b)[|a + b| - 1] == last;
      var here := if last == sender then [] else [last];
      assert Others(a, sender) + (Others(init, sender) + here) == Others(a, sender) + Others(init, sender) + here;
    }
  }

  /** The indices collected are those of the failing peers, in order. */
  lemma {:induction false} FailingAtIs(s: seq<int>, sender: int, fails: set<int>)
    ensures var ks := FailingAt(s, sender, fails);
            && (forall i, j :: 0 <= i < j < |ks| ==> ks[i] < ks[j])
            && (forall k: nat :: k in ks <==> k < |s| && s[k] != sender && s[k] in fails)
  {
    if s != [] {
      FailingAtIs(s[..|s| - 1], sender, fails);
    }
  }

  /** The failing descriptors, each as often as it is listed. */
  lemma {:induction false} FailingExactly(s: seq<int>, sender: int, fails: set<int>, p: int)
    ensures multiset(At(s, FailingAt(s, sender, fails)))[p] ==
            if p in fails && p != sender then multiset(s)[p] else 0
  {
    if s != [] {
      var init, last := s[..|s| - 1], s[|s| - 1];
      FailingExactly(init, sender, fails, p);
      var ks := FailingAt(init, sender, fails);
      assert s == init + [last];
      var here := if last != sender && last in fails then [|s| - 1] else [];
      assert FailingAt(s, sender, fails) == ks + here;
      assert At(s, ks + here) == At(init, ks) + At(s, here);
      assert At(s, here) == if here == [] then [] else [last];
    }
  }

  /** Removing the failing peers by descriptor leaves precisely the others. */
  lemma PruningLeavesTheRest(s: seq<int>, sender: int, fails: set<int>, p: int)
    ensures multiset(WithoutAll(s, At(s, FailingAt(s, sender, fails))))[p] ==
            if p in fails && p != sender then 0 else multiset(s)[p]
  {
    WithoutAllRemoves(s, At(s, FailingAt(s, sender, fails)));
    FailingExactly(s, sender, fails, p);
  }

  /** No index is collected exactly when sending failed to nobody but, at most, the sender. */
  lemma {:induction false} NoFailure(s: seq<int>, sender: int, fails: set<int>)
    ensures FailingAt(s, sender, fails) == [] <==> forall p :: p in s && p != sender ==> p !in fails
  {
    if s != [] {
      var init, last := s[..|s| - 1], s[|s| - 1];
      NoFailure(init, sender, fails);
      assert s == init + [last];
    }
  }

  // ---------- Runs ----------

  /** `fails` are the descriptors on which sending fails. */
  datatype Op = AddOp(peer: int) | RemoveOp(peer: int) | ShareOp(sender: int, fails: set<int>)

  function After(live: seq<int>, op: Op): seq<int> {
    match op
    case AddOp(p) => live + [p]
    case RemoveOp(p) => Without(live, p)
    case ShareOp(sender, fails) => WithoutAll(live, At(live, FailingAt(live, sender, fails)))
  }

  function AfterAll(live: seq<int>, ops: seq<Op>): seq<int> {
    if ops == [] then live else After(AfterAll(live, ops[..|ops| - 1]), ops[|ops| - 1])
  }

  /** Every addition of the run finds fewer than `room` live peers. */
  ghost predicate HasRoom(live: seq<int>, ops: seq<Op>, room: nat) {
    forall k :: 0 <= k < |ops| && ops[k].AddOp? ==> |AfterAll(live, ops[..k])| < room
  }

  /** How often p is live after one more operation of a run. */
  function Tally(count: nat, op: Op, p: int): nat {
    match op
    case AddOp(q) => if q == p then count + 1 else count
    case RemoveOp(q) => if q == p && count > 0 then count - 1 else count
    case ShareOp(sender, fails) => if p in fails && p != sender then 0 else count
  }

  function TallyAll(count: nat, ops: seq<Op>, p: int): nat {
    if ops == [] then count else Tally(TallyAll(count, ops[..|ops| - 1], p), ops[|ops| - 1], p)
  }

  /** Over any run the live prefix holds each descriptor as often as it was added and not removed. */
  lemma {:induction false} RunTally(live: seq<int>, ops: seq<Op>, p: int)
    ensures multiset(AfterAll(live, ops))[p] == TallyAll(multiset(live)[p], ops, p)
  {
    if ops != [] {
      var init, op := ops[..|ops| - 1], ops[|ops| - 1];
      RunTally(live, init, p);
      var now := AfterAll(live, init);
      match op {
        case AddOp(_) =>
        case RemoveOp(q) => WithoutRemovesOne(now, q);
        case ShareOp(sender, fails) => PruningLeavesTheRest(now, sender, fails, p);
      }
    }
  }

  // ---------- The list ----------

  datatype Outcome = Done | SelfDeadlock

  /** The first send that fails, or the number of sends. */
  function FirstFailure(fails: seq<bool>): (k: nat)
    ensures k <= |fails| && (k < |fails| ==> fails[k]) && forall j :: 0 <= j < k ==> !fails[j]
  {
    if fails == [] || fails[0] then 0 else 1 + FirstFailure(fails[1..])
  }

  class PeerList {
    /** This thread holds the mutex. */
    var locked: bool
    var capacity: nat
    var size: nat
    var arr: array<int>

    ghost predicate Valid()
      reads this
    {
      0 < capacity <= arr.Length <= 2 * capacity && size <= arr.Length
    }

    /** The live prefix of the array. */
    ghost function Live(): (live: seq<int>)
      requires Valid()
      reads this, arr
      ensures |live| == size
    {
      arr[..size]
    }

    constructor (capacity: nat)
      requires 0 < capacity
      ensures Valid() && fresh(arr) && Live() == [] && this.capacity == capacity && !locked
    {
      this.capacity, size, locked := capacity, 0, false;
      arr := new int[capacity];
    }

    /**
     add_peer. From `capacity` peers on the array is reallocated to twice `capacity`, which itself
     never changes; so one peer too many is written outside the array: then ok is false.
     */
    method AddPeer(peer: int) returns (ok: bool)
      requires Valid() && !locked
      modifies this, arr
      ensures Valid() && !locked && capacity == old(capacity) && (arr == old(arr) || fresh(arr))
      ensures ok <==> |old(Live())| < 2 * capacity
      ensures Live() == if ok then old(Live()) + [peer] else old(Live())
    {
      if size >= capacity {
        var bigger := new int[capacity * 2];
        forall k | 0 <= k < size {
          bigger[k] := arr[k];
        }
        assert bigger[..size] == arr[..size];
        arr := bigger;
      }
      ghost var live := arr[..size];
      ok := size < arr.Length;
      if ok {
        arr[size] := peer;
        size := size + 1;
        assert arr[..size] == live + [peer];
      }
    }

    /** remove_peer: blocks for ever when this thread already holds the mutex. */
    method RemovePeer(peer: int) returns (outcome: Outcome)
      requires Valid()
      modifies `size, `locked, arr
      ensures Valid() && locked == old(locked)
      ensures outcome.SelfDeadlock? <==> old(locked)
      ensures Live() == if outcome.Done? then Without(old(Live()), peer) else old(Live())
    {
      if locked {
        return SelfDeadlock;
      }
      locked := true;
      ghost var live := arr[..size];
      ghost var at := IndexOf(live, peer);
      var i := 0;
      while i < size
        invariant i <= at && size == |live| && arr[..size] == live && locked
      {
        if arr[i] == peer {
          assert live[i] == peer && i == at;
          size := size - 1;
          arr[i] := arr[size];
          assert arr[..size] == live[i := live[size]][..size];
          break;
        }
        assert i != at;
        i := i + 1;
      }
      locked, outcome := false, Done;
    }

    /** remove_peers, given descriptors: done unless there is one to remove and this thread holds the mutex. */
    method RemovePeers(peers: seq<int>) returns (outcome: Outcome)
      requires Valid()
      modifies `size, `locked, arr
      ensures Valid() && locked == old(locked)
      ensures outcome.SelfDeadlock? <==> old(locked) && peers != []
      ensures Live() == if outcome.Done? then WithoutAll(old(Live()), peers) else old(Live())
    {
      outcome := Done;
      for i := 0 to |peers|
        invariant Valid() && locked == old(locked) && outcome.Done? && (locked ==> i == 0)
        invariant Live() == WithoutAll(old(Live()), peers[..i])
      {
        outcome := RemovePeer(peers[i]);
        if outcome.SelfDeadlock? {
          return;
        }
        assert peers[..i + 1][..i] == peers[..i];
      }
      assert peers[..|peers|] == peers;
    }

    /** The sending loop of share_tfile_to_peers; it collects the indices of the failing peers. */
    method SendToOthers(sender: int, fails: set<int>) returns (sent: seq<int>, failing: seq<nat>)
      requires Valid()
      ensures sent == Others(Live(), sender) && failing == FailingAt(Live(), sender, fails)
    {
      sent, failing := [], [];
      for i := 0 to size
        invariant sent == Others(arr[..i], sender) && failing == FailingAt(arr[..i], sender, fails)
      {
        assert arr[..i + 1][..i] == arr[..i];
        if arr[i] != sender {
          sent := sent + [arr[i]];
          if arr[i] in fails {
            failing := failing + [i];
          }
        }
      }
    }

    /**
     share_tfile_to_peers as written: remove_peers is called, with indices for descriptors, while the
     broadcast holds the mutex. So it finishes exactly when sending failed to nobody but the sender.
     */
    method ShareAsWritten(sender: int, fails: set<int>) returns (sent: seq<int>, outcome: Outcome)
      requires Valid() && !locked
      modifies `size, `locked, arr
      ensures Valid() && Live() == old(Live()) && (locked <==> outcome.SelfDeadlock?)
      ensures multiset(sent) == multiset(Live())[sender := 0]
      ensures outcome.Done? <==> forall p :: p in Live() && p != sender ==> p !in fails
    {
      locked := true;
      var failing;
      sent, failing := SendToOthers(sender, fails);
      OthersExactly(Live(), sender);
      NoFailure(Live(), sender, fails);
      outcome := RemovePeers(failing);
      if outcome.Done? {
        locked := false;
      }
    }

    /**
     share_tfiles_to_peer as written, with the outcome of each send to the newcomer: the first failing
     one blocks in remove_peer. So it finishes exactly when no send fails.
     */
    method ShareListAsWritten(peer: int, fails: seq<bool>) returns (tried: nat, outcome: Outcome)
      requires Valid() && !locked
      modifies `size, `locked, arr
      ensures Valid() && Live() == old(Live()) && (locked <==> outcome.SelfDeadlock?)
      ensures outcome.Done? <==> forall k :: 0 <= k < |fails| ==> !fails[k]
      ensures tried == if outcome.Done? then |fails| else FirstFailure(fails) + 1
    {
      locked := true;
      for i := 0 to |fails|
        invariant Valid() && Live() == old(Live()) && locked && i <= FirstFailure(fails)
      {
        if fails[i] {
          outcome := RemovePeer(peer);
          return i + 1, outcome;
        }
      }
      locked := false;
      tried, outcome := |fails|, Done;
    }

    /** The broadcast with the failing peers removed by descriptor after unlocking: precisely they are gone. */
    method Share(sender: int, fails: set<int>) returns (sent: seq<int>)
      requires Valid() && !locked
      modifies `size, `locked, arr
      ensures Valid() && !locked && Live() == After(old(Live()), ShareOp(sender, fails))
      ensures multiset(sent) == multiset(old(Live()))[sender := 0]
      ensures forall p :: multiset(Live())[p] ==
                          if p in fails && p != sender then 0 else multiset(old(Live()))[p]
    {
      ghost var live := Live();
      locked := true;
      var failing;
      sent, failing := SendToOthers(sender, fails);
      OthersExactly(live, sender);
      forall p
        ensures multiset(After(live, ShareOp(sender, fails)))[p] ==
                if p in fails && p != sender then 0 else multiset(live)[p]
      {
        PruningLeavesTheRest(live, sender, fails, p);
      }
      var descriptors := At(arr[..size], failing);
      locked := false;
      var outcome := RemovePeers(descriptors);
    }

    method Do(op: Op) returns (ok: bool)
      requires Valid() && !locked
      modifies this, arr
      ensures Valid() && !locked && capacity == old(capacity) && (arr == old(arr) || fresh(arr))
      ensures ok <==> (op.AddOp? ==> |old(Live())| < 2 * capacity)
      ensures ok ==> Live() == After(old(Live()), op)
    {
      hide WithoutAll, Without, Others, FailingAt;
      ok := true;
      match op {
        case AddOp(p) => ok := AddPeer(p);
        case RemoveOp(p) => var outcome := RemovePeer(p);
        case ShareOp(sender, fails) => var sent := Share(sender, fails);
      }
    }

    /** A run succeeds exactly while the array has room, and leaves what the operations say. */
    method Run(ops: seq<Op>) returns (ok: bool)
      requires Valid() && !locked
      modifies this, arr
      ensures Valid() && (arr == old(arr) || fresh(arr))
      ensures ok <==> HasRoom(old(Live()), ops, 2 * old(capacity))
      ensures ok ==> Live() == AfterAll(old(Live()), ops)
    {
      hide After;
      ghost var live, room := Live(), 2 * capacity;
      for i := 0 to |ops|
        invariant Valid() && !locked && (arr == old(arr) || fresh(arr)) && 2 * capacity == room
        invariant Live() == AfterAll(live, ops[..i])
        invariant forall k :: 0 <= k < i && ops[k].AddOp? ==> |AfterAll(live, ops[..k])| < room
      {
        assert ops[..i + 1][..i] == ops[..i];
        ok := Do(ops[i]);
        if !ok {
          return;
        }
      }
      assert ops[..|ops|] == ops;
      ok := true;
    }
  }
}
