/**
 The request branch of readWorker as it stands (src/client.c:511-528): it skips the peer
 `fd_data.client_fd`, but the worker's argument is a single int (src/client.c:411-413), so that field
 is whatever lies behind it: for each connection some peer, or nobody. So the request may also go back
 where it came from.
 */
module RelayAsWritten {
  import opened Bytes
  import opened Tree
  import opened Sets
  import opened Wave

  /** A message on the connection from its first node to its second. */
  type Hop = (nat, nat)
  type Flight = multiset<Hop>

  /** The peer that the worker reading from a connection happens to skip. */
  type Skips = map<Hop, nat>

  /** What stays fixed. */
  datatype Setup = Setup(tree: Parents, holders: set<nat>, skips: Skips)

  function Skipped(c: Setup, m: Hop): Option<nat> {
    if m in c.skips then Some(c.skips[m]) else None
  }

  /** A holder replies; any other node sends the request to all its peers but the one skipped. */
  function Onward(c: Setup, m: Hop): set<Hop> {
    if m.1 in c.holders then {} else Targets(c.tree, Task(m.1, Skipped(c, m)))
  }

  function Handle(c: Setup, flight: Flight, m: Hop): Flight {
    flight - multiset{m} + multiset(Onward(c, m))
  }

  /** The requester sends to every peer. */
  function FirstSent(c: Setup, origin: nat): set<Hop> {
    Targets(c.tree, Task(origin, None))
  }

  predicate IsRelay(c: Setup, flight: Flight, run: seq<Hop>)
    decreases |run|
  {
    run == [] || (run[0] in flight && IsRelay(c, Handle(c, flight, run[0]), run[1..]))
  }

  /** No run of the relay is longer than some bound. */
  ghost predicate DiesOut(c: Setup, flight: Flight) {
    exists bound: nat :: Bounded(c, flight, bound)
  }

  ghost predicate Bounded(c: Setup, flight: Flight, bound: nat) {
    forall run :: IsRelay(c, flight, run) ==> |run| <= bound
  }

  // ---------- Following one message ----------

  /** Each hop is sent on because of the one before. */
  predicate IsChain(c: Setup, chain: seq<Hop>) {
    forall k :: 0 <= k < |chain| - 1 ==> chain[k + 1] in Onward(c, chain[k])
  }

  ghost predicate StartsIn(chain: seq<Hop>, first: set<Hop>) {
    chain != [] && chain[0] in first
  }

  ghost predicate Repeats(chain: seq<Hop>) {
    exists i, j :: 0 <= i < j < |chain| && chain[i] == chain[j]
  }

  /** Followed from the requester on, the request crosses some connection twice in one direction. */
  ghost predicate ComesRound(c: Setup, first: set<Hop>) {
    exists chain :: IsChain(c, chain) && StartsIn(chain, first) && Repeats(chain)
  }

  /** A chain from a message in flight is what the relay may do next. */
  lemma {:induction false} ChainIsRelay(c: Setup, flight: Flight, chain: seq<Hop>)
    requires IsChain(c, chain) && chain != [] && chain[0] in flight
    ensures IsRelay(c, flight, chain)
    decreases |chain|
  {
    var next := Handle(c, flight, chain[0]);
    if |chain| > 1 {
      assert chain[1] in Onward(c, chain[0]);
      assert chain[1] in next;
      forall k | 0 <= k < |chain[1..]| - 1 ensures chain[1..][k + 1] in Onward(c, chain[1..][k]) {
        assert chain[(k + 1) + 1] in Onward(c, chain[k + 1]);
      }
      ChainIsRelay(c, next, chain[1..]);
    }
  }

  /** Once round, it can go round again. */
  lemma GoesRoundAgain(c: Setup, chain: seq<Hop>) returns (longer: seq<Hop>)
    requires IsChain(c, chain) && Repeats(chain)
    ensures IsChain(c, longer) && Repeats(longer) && |longer| > |chain| && longer[0] == chain[0]
  {
    hide Onward;
    var i, j :| 0 <= i < j < |chain| && chain[i] == chain[j];
    longer := chain[..j] + chain[i..];
    forall k | 0 <= k < |longer| - 1 ensures longer[k + 1] in Onward(c, longer[k]) {
      if k < j - 1 {
        assert longer[k] == chain[k] && longer[k + 1] == chain[k + 1];
      } else if k == j - 1 {
        assert longer[k] == chain[k] && longer[k + 1] == chain[i] == chain[j];
      } else {
        assert longer[k] == chain[k - j + i] && longer[k + 1] == chain[k - j + i + 1];
      }
    }
    assert longer[i] == chain[i] && longer[j] == chain[i];
  }

  lemma {:induction false} GoesRoundFor(c: Setup, chain: seq<Hop>, n: nat) returns (longer: seq<Hop>)
    requires IsChain(c, chain) && Repeats(chain)
    ensures IsChain(c, longer) && Repeats(longer) && |longer| > n && longer[0] == chain[0]
  {
    hide IsChain, Repeats;
    assert chain != [] by { RepeatsNonempty(chain); }
    if n == 0 {
      longer := chain;
    } else {
      longer := GoesRoundFor(c, chain, n - 1);
      longer := GoesRoundAgain(c, longer);
    }
  }

  lemma RepeatsNonempty(chain: seq<Hop>)
    requires Repeats(chain)
    ensures chain != []
  {}

  // ---------- Without coming round ----------

  /** No chain from m has more than d hops. */
  ghost predicate Within(c: Setup, m: Hop, d: nat) {
    forall chain :: IsChain(c, chain) && chain != [] && chain[0] == m ==> |chain| <= d
  }

  lemma OnwardWithin(c: Setup, m: Hop, d: nat, next: Hop)
    requires Within(c, m, d) && next in Onward(c, m)
    ensures d > 0 && Within(c, next, d - 1)
  {
    assert IsChain(c, [m]) && |[m]| <= d;
    forall chain | IsChain(c, chain) && chain != [] && chain[0] == next ensures |chain| <= d - 1 {
      var longer := [m] + chain;
      forall k | 0 <= k < |longer| - 1 ensures longer[k + 1] in Onward(c, longer[k]) {
        if k > 0 {
          assert longer[k] == chain[k - 1] && longer[k + 1] == chain[k];
        }
      }
      assert IsChain(c, longer);
    }
  }

  /** All connections, in both directions. */
  function Connections(t: Parents): set<Hop> {
    set a: nat, b: nat | a < |t| && b < |t| && Adjacent(t, a, b) :: (a, b)
  }

  lemma OnwardAreConnections(c: Setup, m: Hop)
    ensures Onward(c, m) <= Connections(c.tree)
  {}

  /** A request that never comes round makes chains no longer than there are connections. */
  lemma ChainsAreShort(c: Setup, first: set<Hop>, m: Hop)
    requires first <= Connections(c.tree) && m in first && !ComesRound(c, first)
    ensures Within(c, m, |Connections(c.tree)|)
  {
    hide Connections, Onward;
    forall chain | IsChain(c, chain) && chain != [] && chain[0] == m
      ensures |chain| <= |Connections(c.tree)|
    {
      assert StartsIn(chain, first) && !Repeats(chain);
      forall k | 0 <= k < |chain| ensures chain[k] in Connections(c.tree) {
        if k > 0 {
          assert chain[(k - 1) + 1] in Onward(c, chain[k - 1]);
          OnwardAreConnections(c, chain[k - 1]);
        }
      }
      DistinctInSet(chain, Connections(c.tree));
    }
  }

  /** How many deliveries a message leads to, itself included, up to chains of d hops. */
  ghost function Weight(c: Setup, m: Hop, d: nat): nat
    decreases d
  {
    if d == 0 then 0 else 1 + Sum(multiset(Onward(c, m)), x => Weight(c, x, d - 1))
  }

  ghost function Weights(c: Setup, d: nat): Hop -> nat {
    x => Weight(c, x, d)
  }

  /** Looking further than the longest chain adds nothing. */
  lemma {:induction false} WeightSettles(c: Setup, m: Hop, d: nat)
    requires Within(c, m, d)
    ensures Weight(c, m, d + 1) == Weight(c, m, d) == 1 + Sum(multiset(Onward(c, m)), Weights(c, d))
    decreases d
  {
    hide Onward, Sum, Within;
    assert d > 0 by { SomeHop(c, m, d); }
    forall x | x in multiset(Onward(c, m)) ensures Weight(c, x, d) == Weight(c, x, d - 1) {
      OnwardWithin(c, m, d, x);
      WeightSettles(c, x, d - 1);
    }
    SumSame(multiset(Onward(c, m)), Weights(c, d), Weights(c, d - 1));
    SumSame(multiset(Onward(c, m)), Weights(c, d - 1), x => Weight(c, x, d - 1));
    SumSame(multiset(Onward(c, m)), Weights(c, d), x => Weight(c, x, d));
  }

  lemma SomeHop(c: Setup, m: Hop, d: nat)
    requires Within(c, m, d)
    ensures d > 0
  {
    assert IsChain(c, [m]);
  }

  lemma MoreIsWithin(c: Setup, m: Hop, d: nat)
    requires Within(c, m, d)
    ensures Within(c, m, d + 1)
  {}

  /** Each delivery uses up one of what its message leads to. */
  lemma {:induction false} RelayUsesWeight(c: Setup, flight: Flight, run: seq<Hop>, d: nat)
    requires IsRelay(c, flight, run) && forall m :: m in flight ==> Within(c, m, d)
    ensures |run| <= Sum(flight, Weights(c, d))
    decreases |run|
  {
    hide Onward, Sum, Within;
    if run != [] {
      var m, rest, on := run[0], flight - multiset{run[0]}, multiset(Onward(c, run[0]));
      assert d > 0 by { SomeHop(c, m, d); }
      forall x | x in Handle(c, flight, m) ensures Within(c, x, d) {
        if x in Onward(c, m) {
          OnwardWithin(c, m, d, x);
          MoreIsWithin(c, x, d - 1);
        }
      }
      RelayUsesWeight(c, Handle(c, flight, m), run[1..], d);
      SumTakes(flight, Weights(c, d), m);
      SumPlus(rest, on, Weights(c, d));
      WeightSettles(c, m, d);
    }
  }

  /**
   As written, whatever each worker skips, a request dies out exactly when, followed from the requester on, it
   never crosses a connection twice in one direction.
   */
  lemma DiesOutIffNeverRound(c: Setup, origin: nat)
    ensures DiesOut(c, multiset(FirstSent(c, origin))) <==> !ComesRound(c, FirstSent(c, origin))
  {
    hide Onward, Within, IsChain, Repeats, IsRelay, Sum, Weights;
    var first := FirstSent(c, origin);
    if ComesRound(c, first) {
      var chain :| IsChain(c, chain) && StartsIn(chain, first) && Repeats(chain);
      forall bound: nat ensures !Bounded(c, multiset(first), bound) {
        var longer := GoesRoundFor(c, chain, bound);
        ChainIsRelay(c, multiset(first), longer);
      }
    } else {
      var d := |Connections(c.tree)|;
      forall m | m in multiset(first) ensures Within(c, m, d) {
        FirstAreConnections(c, origin);
        ChainsAreShort(c, first, m);
      }
      forall run | IsRelay(c, multiset(first), run) ensures |run| <= Sum(multiset(first), Weights(c, d)) {
        RelayUsesWeight(c, multiset(first), run, d);
      }
      assert Bounded(c, multiset(first), Sum(multiset(first), Weights(c, d)));
    }
  }

  lemma FirstAreConnections(c: Setup, origin: nat)
    ensures FirstSent(c, origin) <= Connections(c.tree)
  {}

  // ---------- When nobody is skipped ----------

  /** The stray fields are no peer's. */
  ghost predicate NobodySkipped(c: Setup) {
    forall m: Hop :: m in c.skips ==> !Adjacent(c.tree, m.1, c.skips[m])
  }

  /** Then a request dies out exactly when every peer of the requester holds the chunk. */
  lemma DiesOutIffPeersHold(c: Setup, origin: nat)
    requires IsTree(c.tree) && origin < |c.tree| && origin !in c.holders && NobodySkipped(c)
    ensures DiesOut(c, multiset(FirstSent(c, origin))) <==>
            forall p :: Adjacent(c.tree, origin, p) ==> p in c.holders
  {
    hide IsChain, Onward, DiesOut, Repeats;
    var first := FirstSent(c, origin);
    DiesOutIffNeverRound(c, origin);
    if forall p :: Adjacent(c.tree, origin, p) ==> p in c.holders {
      forall chain: seq<Hop> | IsChain(c, chain) && StartsIn(chain, first) ensures !Repeats(chain) {
        HeldChainIsShort(c, origin, chain);
      }
    } else {
      var p :| Adjacent(c.tree, origin, p) && p !in c.holders;
      var chain := PingPong(c, origin, p);
    }
  }

  lemma HeldChainIsShort(c: Setup, origin: nat, chain: seq<Hop>)
    requires forall p :: Adjacent(c.tree, origin, p) ==> p in c.holders
    requires IsChain(c, chain) && StartsIn(chain, FirstSent(c, origin))
    ensures !Repeats(chain)
  {
    hide IsChain, Onward;
    HolderStops(c, chain[0]);
    if |chain| > 1 {
      SecondHop(c, chain);
    }
  }

  lemma HolderStops(c: Setup, m: Hop)
    ensures m.1 in c.holders ==> Onward(c, m) == {}
  {}

  lemma SecondHop(c: Setup, chain: seq<Hop>)
    requires IsChain(c, chain) && |chain| > 1
    ensures chain[1] in Onward(c, chain[0])
  {
    assert chain[0 + 1] in Onward(c, chain[0]);
  }

  /** Two connected nodes without the chunk send the request to and fro. */
  lemma PingPong(c: Setup, a: nat, b: nat) returns (chain: seq<Hop>)
    requires Adjacent(c.tree, a, b) && a !in c.holders && b !in c.holders && NobodySkipped(c)
    ensures IsChain(c, chain) && StartsIn(chain, FirstSent(c, a)) && Repeats(chain)
  {
    chain := [(a, b), (b, a), (a, b)];
    assert Adjacent(c.tree, b, a);
    assert (b, a) in Onward(c, (a, b)) && (a, b) in Onward(c, (b, a));
    assert chain[0] == chain[2];
  }

  // ---------- When each worker skips where the request came from ----------

  /** The skipping that was meant. */
  ghost predicate SkipsSender(c: Setup) {
    forall a: nat, b: nat :: Adjacent(c.tree, a, b) ==> (a, b) in c.skips && c.skips[(a, b)] == a
  }

  /** Then every request dies out, whoever holds the chunk: each hop leads into a smaller part of the tree. */
  lemma SkippingSenderDiesOut(c: Setup, origin: nat)
    requires IsTree(c.tree) && SkipsSender(c)
    ensures DiesOut(c, multiset(FirstSent(c, origin)))
  {
    hide IsChain, Repeats, DiesOut, SkipsSender, IsTree;
    DiesOutIffNeverRound(c, origin);
    forall chain: seq<Hop> | IsChain(c, chain) && StartsIn(chain, FirstSent(c, origin)) ensures !Repeats(chain) {
      assert Adjacent(c.tree, chain[0].0, chain[0].1);
      ShrinkingNeverRepeats(c, chain);
    }
  }

  lemma ShrinkingNeverRepeats(c: Setup, chain: seq<Hop>)
    requires IsTree(c.tree) && SkipsSender(c) && IsChain(c, chain) && chain != []
    requires Adjacent(c.tree, chain[0].0, chain[0].1)
    ensures !Repeats(chain)
  {
    hide IsChain, SkipsSender, IsTree, Adjacent, Side;
    forall i, j | 0 <= i < j < |chain| ensures chain[i] != chain[j] {
      ChainShrinks(c, chain, i, j);
    }
  }

  lemma {:induction false} ChainShrinks(c: Setup, chain: seq<Hop>, i: nat, j: nat)
    requires IsTree(c.tree) && SkipsSender(c) && IsChain(c, chain) && i < j < |chain|
    requires Adjacent(c.tree, chain[0].0, chain[0].1)
    ensures Adjacent(c.tree, chain[i].0, chain[i].1) && Adjacent(c.tree, chain[j].0, chain[j].1)
    ensures Side(c.tree, chain[j].0, chain[j].1) < Side(c.tree, chain[i].0, chain[i].1)
    decreases j
  {
    hide IsTree, Adjacent, Side;
    HopsAreConnections(c, chain, i);
    HopsAreConnections(c, chain, j - 1);
    HopsAreConnections(c, chain, j);
    assert chain[(j - 1) + 1] in Onward(c, chain[j - 1]);
    SideShrinks(c.tree, chain[j - 1].0, chain[j - 1].1, chain[j].1);
    if i < j - 1 {
      ChainShrinks(c, chain, i, j - 1);
    }
  }

  lemma HopsAreConnections(c: Setup, chain: seq<Hop>, j: nat)
    requires IsChain(c, chain) && j < |chain| && Adjacent(c.tree, chain[0].0, chain[0].1)
    ensures Adjacent(c.tree, chain[j].0, chain[j].1)
  {
    hide Adjacent;
    if j > 0 {
      assert chain[(j - 1) + 1] in Onward(c, chain[j - 1]);
    }
  }

  // ---------- Where it gets ----------

  /** The hops of a walk. */
  function Hops(walk: seq<nat>): (hops: seq<Hop>)
    requires walk != []
    ensures |hops| == |walk| - 1 && forall k :: 0 <= k < |hops| ==> hops[k] == (walk[k], walk[k + 1])
  {
    seq(|walk| - 1, k requires 0 <= k < |walk| - 1 => (walk[k], walk[k + 1]))
  }

  /** A walk from the requester is followed exactly if no node on the way holds the chunk or skips the next. */
  lemma FollowedIff(c: Setup, origin: nat, walk: seq<nat>)
    requires IsPath(c.tree, walk) && |walk| > 1 && walk[0] == origin
    ensures IsChain(c, Hops(walk)) && StartsIn(Hops(walk), FirstSent(c, origin)) <==>
            forall k :: 0 < k < |walk| - 1 ==>
              walk[k] !in c.holders && Skipped(c, (walk[k - 1], walk[k])) != Some(walk[k + 1])
  {
    hide Onward;
    var hops := Hops(walk);
    assert Adjacent(c.tree, walk[0], walk[0 + 1]);
    assert hops[0] in FirstSent(c, origin);
    forall k | 0 <= k < |hops| - 1
      ensures hops[k + 1] in Onward(c, hops[k]) <==>
              walk[k + 1] !in c.holders && Skipped(c, (walk[k], walk[k + 1])) != Some(walk[k + 2])
    {
      assert Adjacent(c.tree, walk[k + 1], walk[(k + 1) + 1]);
      GoesOnIff(c, hops[k], walk[k + 2]);
    }
    if IsChain(c, hops) {
      forall k | 0 < k < |walk| - 1
        ensures walk[k] !in c.holders && Skipped(c, (walk[k - 1], walk[k])) != Some(walk[k + 1])
      {
        assert hops[(k - 1) + 1] in Onward(c, hops[k - 1]);
      }
    } else {
      var k :| 0 <= k < |hops| - 1 && hops[k + 1] !in Onward(c, hops[k]);
      assert !(walk[k + 1] !in c.holders && Skipped(c, (walk[(k + 1) - 1], walk[k + 1])) != Some(walk[(k + 1) + 1]));
    }
  }

  /** From each connection a request goes on to all other peers, unless it has come to a holder. */
  lemma GoesOnIff(c: Setup, m: Hop, p: nat)
    requires Adjacent(c.tree, m.1, p)
    ensures (m.1, p) in Onward(c, m) <==> m.1 !in c.holders && Skipped(c, m) != Some(p)
  {}

  /** The request arrives at z. */
  ghost predicate GetsTo(c: Setup, origin: nat, z: nat) {
    exists chain: seq<Hop> :: IsChain(c, chain) && StartsIn(chain, FirstSent(c, origin)) && chain[|chain| - 1].1 == z
  }

  /** Each chain is a walk from the requester that avoids holders on its way. */
  lemma {:induction false} ChainIsWalk(c: Setup, origin: nat, chain: seq<Hop>) returns (walk: seq<nat>)
    requires IsChain(c, chain) && StartsIn(chain, FirstSent(c, origin)) && origin < |c.tree|
    ensures Clear(c.tree, walk, origin, c.holders, chain[|chain| - 1].1) && |walk| == |chain| + 1
    decreases |chain|
  {
    var n := |chain| - 1;
    if n == 0 {
      walk := [origin, chain[0].1];
    } else {
      var init := chain[..n];
      assert IsChain(c, init) by {
        forall k | 0 <= k < |init| - 1 ensures init[k + 1] in Onward(c, init[k]) {
          assert chain[k + 1] in Onward(c, chain[k]);
        }
      }
      walk := ChainIsWalk(c, origin, init);
      assert chain[(n - 1) + 1] in Onward(c, chain[n - 1]);
      walk := walk + [chain[n].1];
    }
  }

  /**
   With nobody skipped, or with the skipping that was meant, the request arrives exactly at the nodes with no
   holder between them and the requester.
   */
  lemma GetsToUnlessBehind(c: Setup, origin: nat, z: nat)
    requires IsTree(c.tree) && origin < |c.tree| && z < |c.tree| && z != origin && (NobodySkipped(c) || SkipsSender(c))
    ensures GetsTo(c, origin, z) <==> !BehindHolder(c.tree, origin, c.holders, z)
  {
    hide IsTree, Onward, IsChain, BehindHolder, Reachable, NobodySkipped, SkipsSender, FirstSent;
    if GetsTo(c, origin, z) {
      var chain: seq<Hop> :| IsChain(c, chain) && StartsIn(chain, FirstSent(c, origin)) && chain[|chain| - 1].1 == z;
      var walk := ChainIsWalk(c, origin, chain);
      assert Reachable(c.tree, origin, c.holders, z) by { ClearIsReachable(c.tree, walk, origin, c.holders, z); }
      if BehindHolder(c.tree, origin, c.holders, z) {
        BehindIsUnreachable(c.tree, origin, c.holders, z);
      }
    }
    if !BehindHolder(c.tree, origin, c.holders, z) {
      var path := SimplePath(c.tree, origin, z);
      NotBehindIsClear(c.tree, path, origin, c.holders, z);
      SimplePathFollowed(c, origin, path);
      assert IsChain(c, Hops(path)) && StartsIn(Hops(path), FirstSent(c, origin));
      assert Hops(path)[|Hops(path)| - 1].1 == z;
    }
  }

  lemma ClearIsReachable(t: Parents, walk: seq<nat>, origin: nat, held: set<nat>, z: nat)
    requires Clear(t, walk, origin, held, z)
    ensures Reachable(t, origin, held, z)
  {}

  lemma SimplePathFollowed(c: Setup, origin: nat, path: seq<nat>)
    requires IsPath(c.tree, path) && Simple(path) && path[0] == origin && path[|path| - 1] != origin
    requires Clear(c.tree, path, origin, c.holders, path[|path| - 1]) && (NobodySkipped(c) || SkipsSender(c))
    ensures |path| > 1 && IsChain(c, Hops(path)) && StartsIn(Hops(path), FirstSent(c, origin))
  {
    hide IsChain, FirstSent;
    forall k | 0 < k < |path| - 1
      ensures path[k] !in c.holders && Skipped(c, (path[k - 1], path[k])) != Some(path[k + 1])
    {
      assert Adjacent(c.tree, path[k - 1], path[(k - 1) + 1]) && Adjacent(c.tree, path[k], path[k + 1]);
      assert path[k - 1] != path[k + 1];
    }
    FollowedIff(c, origin, path);
  }
}
