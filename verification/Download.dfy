/**
 The download loop (src/client.c:682-720). The reader thread handles the payloads that arrive while
 the loop sleeps, for this file or for others; which ones, in which round, is the environment's choice.
 */
module Download {
  import opened Bytes
  import opened Tfile
  import opened Chunks
  import opened Delivery
  import opened NodeFiles
  import opened FileStore
  import Framing

  /** The worker's receive buffer. */
  type Buffer = b: seq<Byte> | |b| == Framing.BUFFER
    witness seq<Byte>(Framing.BUFFER, _ => 0)

  /** A FILE_DATA message in the buffer, and the stale hashes its verification may meet. */
  datatype Incoming = Incoming(buffer: Buffer, stale: ChunkHashes)

  function HashOf(m: Incoming): Digest {
    Decode(m.buffer).hash
  }

  function ArrivalOf(m: Incoming): Arrival {
    var p := Decode(m.buffer);
    Arrival(p.index, p.declared, p.data, m.stale)
  }

  // ---------- What the node comes to ----------

  function HandledOne(md5: Md5, n: Node, m: Incoming): (Effect, Node) {
    Handled(md5, n, Decode(m.buffer), m.stale)
  }

  /** A round of messages, up to one that crashes the process. */
  function HandledAll(md5: Md5, n: Node, round: seq<Incoming>): (bool, Node)
    decreases |round|
  {
    if round == [] then (false, n)
    else
      var (effect, next) := HandledOne(md5, n, round[0]);
      if effect.Fault? then (true, next) else HandledAll(md5, next, round[1..])
  }

  /** The first k rounds, up to a crash. */
  function HandledBy(md5: Md5, n: Node, rounds: seq<seq<Incoming>>, k: nat): (bool, Node)
    requires k <= |rounds|
  {
    if k == 0 then (false, n)
    else
      var (crashed, next) := HandledBy(md5, n, rounds, k - 1);
      if crashed then (true, next) else HandledAll(md5, next, rounds[k - 1])
  }

  /** The chunks verify_tfile does not report. */
  function MissingAt(md5: Md5, n: Node, d: Digest, stale: ChunkHashes): set<nat> {
    set i: nat | i < NUM_CHUNKS && !Reports(md5, n, d, stale, i)
  }

  /** The loop ended and saved the file; it has not ended in the given rounds; the process crashed. */
  datatype Outcome = Complete | Waiting | Crash

  ghost predicate Ascending(s: seq<nat>) {
    forall i, j :: 0 <= i < j < |s| ==> s[i] < s[j]
  }

  /** Before round k nothing has crashed, and exactly the missing chunks are asked for, at least one, each once. */
  ghost predicate AsksForMissing(md5: Md5, n: Node, d: Digest, rounds: seq<seq<Incoming>>, stales: seq<ChunkHashes>,
                                 k: nat, asked: seq<nat>)
    requires k <= |rounds| && k < |stales|
  {
    var (crashed, now) := HandledBy(md5, n, rounds, k);
    && !crashed && !CannotVerify(now, d) && asked != []
    && (forall i :: i in asked <==> i in MissingAt(md5, now, d, stales[k]))
    && Ascending(asked)
  }

  /** The reader thread's work during one round. */
  method HandleRound(store: Store, round: seq<Incoming>) returns (crashed: bool)
    requires store.Valid()
    modifies store`disk, store.ht`entries, store.ht.table
    ensures store.Valid()
    ensures (crashed, store.Files()) == HandledAll(store.md5, old(store.Files()), round)
  {
    hide Handled, Decode, Store.Valid;
    ghost var n := store.Files();
    for k := 0 to |round|
      invariant store.Valid()
      invariant HandledAll(store.md5, store.Files(), round[k..]) == HandledAll(store.md5, n, round)
    {
      assert round[k..][0] == round[k] && round[k..][1..] == round[k + 1..];
      var effect := store.HandleFileData(round[k].buffer, round[k].stale);
      if effect.Fault? {
        return true;
      }
    }
    assert round[|round|..] == [];
    crashed := false;
  }

  /**
   download_file: until every chunk is verified, ask for exactly the missing ones and wait a round;
   then save. Without an end by the last round it is still waiting. It crashes exactly when a round does, or
   when it verifies a mapping that its file does not fill.
   */
  method DownloadFile(store: Store, d: Digest, rounds: seq<seq<Incoming>>, stales: seq<ChunkHashes>)
    returns (requests: seq<seq<nat>>, outcome: Outcome)
    requires store.Valid() && |stales| == |rounds| + 1
    modifies store`disk, store.ht`entries, store.ht.table
    ensures store.Valid()
    ensures |requests| <= |rounds| + 1
    ensures forall k :: 0 <= k < |requests| ==>
              AsksForMissing(store.md5, old(store.Files()), d, rounds, stales, k, requests[k])
    ensures outcome.Waiting? <==> |requests| == |rounds| + 1
    ensures outcome.Waiting? ==> (false, store.Files()) == HandledBy(store.md5, old(store.Files()), rounds, |rounds|)
    ensures !outcome.Waiting? ==>
              var (crashed, now) := HandledBy(store.md5, old(store.Files()), rounds, |requests|);
              && (outcome.Crash? <==> crashed || CannotVerify(now, d))
              && (outcome.Crash? ==> store.Files() == now)
              && (outcome.Complete? ==>
                    && MissingAt(store.md5, now, d, stales[|requests|]) == {}
                    && d in now.entries && store.Files() == SavedIn(now, d)
                    && d in store.ht.entries && !store.ht.entries[d].mapped)
  {
    hide Store.Valid, IsChunkVerified, Reports, HandledAll, CannotVerify;
    ghost var n := store.Files();
    requests := [];
    while true
      invariant store.Valid() && |requests| <= |rounds|
      invariant (false, store.Files()) == HandledBy(store.md5, n, rounds, |requests|)
      invariant forall k :: 0 <= k < |requests| ==> AsksForMissing(store.md5, n, d, rounds, stales, k, requests[k])
      decreases |rounds| - |requests|
    {
      var k := |requests|;
      var chunks := store.VerifyTfile(d, stales[k]);
      if chunks.None? {
        return requests, Crash;
      }
      FullAndEmptyBitmaps(chunks.value);
      if chunks.value == VERIFIED_FILE {
        break;
      }
      var asked := MissingChunks(chunks.value);
      requests := requests + [asked];
      if k == |rounds| {
        return requests, Waiting;
      }
      var crashed := HandleRound(store, rounds[k]);
      if crashed {
        return requests, Crash;
      }
    }
    ReportedIsKnown(store.md5, store.Files(), d, stales[|requests|]);
    var found := store.SaveTfile(d);
    outcome := Complete;
  }

  lemma ReportedIsKnown(md5: Md5, n: Node, d: Digest, stale: ChunkHashes)
    requires Reports(md5, n, d, stale, 0)
    ensures d in n.entries
  {}

  /** The request loop: one request for each chunk the bitmap lacks, in order. */
  method MissingChunks(chunks: bv8) returns (asked: seq<nat>)
    ensures forall i: nat :: i in asked <==> i < NUM_CHUNKS && !IsChunkVerified(chunks, i)
    ensures Ascending(asked)
  {
    hide IsChunkVerified;
    asked := [];
    for i := 0 to NUM_CHUNKS
      invariant forall k: nat :: k in asked <==> k < i && !IsChunkVerified(chunks, k)
      invariant Ascending(asked) && forall k :: 0 <= k < |asked| ==> asked[k] < i
    {
      if !IsChunkVerified(chunks, i) {
        asked := asked + [i];
      }
    }
  }

  // ---------- In terms of one file ----------

  /** What a round brings for file d, in order. */
  function ArrivalsFor(d: Digest, round: seq<Incoming>): seq<Arrival> {
    if round == [] then []
    else (if HashOf(round[0]) == d then [ArrivalOf(round[0])] else []) + ArrivalsFor(d, round[1..])
  }

  /** Everything that arrives for d in the first k rounds, in order. */
  function ArrivedBy(d: Digest, rounds: seq<seq<Incoming>>, k: nat): seq<Arrival>
    requires k <= |rounds|
  {
    if k == 0 then [] else ArrivedBy(d, rounds, k - 1) + ArrivalsFor(d, rounds[k - 1])
  }

  lemma {:induction false} DeliverInTwoParts(md5: Md5, v: View, a: seq<Arrival>, b: seq<Arrival>)
    ensures DeliverAll(md5, v, a + b) == DeliverAll(md5, DeliverAll(md5, v, a), b)
    decreases |a|
  {
    if a == [] {
      assert a + b == b;
    } else {
      assert (a + b)[1..] == a[1..] + b;
      DeliverInTwoParts(md5, Deliver(md5, v, a[0]).1, a[1..], b);
    }
  }

  /** Entry d is sound and its file not cut, and no other definition is on its path. */
  ghost predicate OwnPath(n: Node, d: Digest) {
    && d in n.entries && SlotOk(d, n.entries[d]) && !Cut(n.entries[d], n.disk)
    && forall e :: e in n.entries && e != d ==> PathOf(n.entries[e]) != PathOf(n.entries[d])
  }

  /** One message, as it concerns a file with a path of its own. */
  lemma HandledOwn(md5: Md5, n: Node, d: Digest, m: Incoming)
    requires OwnPath(n, d)
    ensures var (effect, after) := HandledOne(md5, n, m);
            && OwnPath(after, d) && after.entries.Keys == n.entries.Keys
            && ViewIn(after, d) == (if HashOf(m) == d then Deliver(md5, ViewIn(n, d), ArrivalOf(m)).1 else ViewIn(n, d))
            && (HashOf(m) == d ==> effect == Deliver(md5, ViewIn(n, d), ArrivalOf(m)).0)
  {
    hide Handled, Deliver, Decode, ViewOf, Cut;
    var p := Decode(m.buffer);
    if p.hash in n.entries {
      HandledOnlyAt(md5, n, p, m.stale);
      if p.hash == d {
        HandledIsDeliver(md5, n, p, m.stale);
        HandledStaysWhole(md5, n, p, m.stale);
      } else {
        OtherPathsKept(p.hash, n, HandledOne(md5, n, m).1, d);
      }
    } else {
      UnknownChangesNothing(md5, n, p, m.stale);
    }
  }

  lemma UnknownChangesNothing(md5: Md5, n: Node, p: Payload, stale: ChunkHashes)
    requires p.hash !in n.entries
    ensures Handled(md5, n, p, stale).1 == n
  {}

  lemma HandledStaysWhole(md5: Md5, n: Node, p: Payload, stale: ChunkHashes)
    requires p.hash in n.entries && SlotOk(p.hash, n.entries[p.hash]) && !Cut(n.entries[p.hash], n.disk)
    ensures var after := Handled(md5, n, p, stale).1;
            && p.hash in after.entries && SlotOk(p.hash, after.entries[p.hash])
            && !Cut(after.entries[p.hash], after.disk)
  {
    hide Has, Fit, Patch;
    OpenedLength(n, p.hash);
  }

  /** A round that does not crash does to such a file what its own payloads do. */
  lemma {:induction false} RoundOwn(md5: Md5, n: Node, d: Digest, round: seq<Incoming>)
    requires OwnPath(n, d) && !HandledAll(md5, n, round).0
    ensures var after := HandledAll(md5, n, round).1;
            && OwnPath(after, d) && ViewIn(after, d) == DeliverAll(md5, ViewIn(n, d), ArrivalsFor(d, round))
    decreases |round|
  {
    hide Deliver, HandledOne, ViewIn, OwnPath, HashOf, ArrivalOf;
    if round != [] {
      var next := HandledOne(md5, n, round[0]).1;
      OwnKnown(n, d);
      HandledOwn(md5, n, d, round[0]);
      OwnKnown(next, d);
      RoundOwn(md5, next, d, round[1..]);
      OwnKnown(HandledAll(md5, n, round).1, d);
      if HashOf(round[0]) == d {
        assert ArrivalsFor(d, round)[1..] == ArrivalsFor(d, round[1..]);
      } else {
        assert ArrivalsFor(d, round) == ArrivalsFor(d, round[1..]);
      }
    } else {
      OwnKnown(n, d);
    }
  }

  lemma OwnKnown(n: Node, d: Digest)
    requires OwnPath(n, d)
    ensures d in n.entries
  {}

  /** So do all the rounds of a download. */
  lemma {:induction false} RoundsOwn(md5: Md5, n: Node, d: Digest, rounds: seq<seq<Incoming>>, k: nat)
    requires OwnPath(n, d) && k <= |rounds| && !HandledBy(md5, n, rounds, k).0
    ensures var after := HandledBy(md5, n, rounds, k).1;
            && OwnPath(after, d) && ViewIn(after, d) == DeliverAll(md5, ViewIn(n, d), ArrivedBy(d, rounds, k))
  {
    hide HandledAll, ViewIn, OwnPath, DeliverAll, ArrivalsFor;
    OwnKnown(n, d);
    if k > 0 {
      RoundsOwn(md5, n, d, rounds, k - 1);
      var next := HandledBy(md5, n, rounds, k - 1).1;
      OwnKnown(next, d);
      RoundOwn(md5, next, d, rounds[k - 1]);
      OwnKnown(HandledBy(md5, n, rounds, k).1, d);
      DeliverInTwoParts(md5, ViewIn(n, d), ArrivedBy(d, rounds, k - 1), ArrivalsFor(d, rounds[k - 1]));
    } else {
      NothingDelivered(md5, ViewIn(n, d));
    }
  }

  lemma NothingDelivered(md5: Md5, v: View)
    ensures DeliverAll(md5, v, []) == v
  {}

  /** What arrives for d are the messages of its hash. */
  lemma {:induction false} ArrivesIff(d: Digest, round: seq<Incoming>, p: Arrival)
    ensures p in ArrivalsFor(d, round) <==>
            exists j :: 0 <= j < |round| && HashOf(round[j]) == d && ArrivalOf(round[j]) == p
    decreases |round|
  {
    hide HashOf, ArrivalOf;
    if round != [] {
      var rest := round[1..];
      ArrivesIff(d, rest, p);
      if p in ArrivalsFor(d, rest) {
        var j :| 0 <= j < |rest| && HashOf(rest[j]) == d && ArrivalOf(rest[j]) == p;
        assert round[j + 1] == rest[j];
      }
      if exists j :: 0 <= j < |round| && HashOf(round[j]) == d && ArrivalOf(round[j]) == p {
        var j :| 0 <= j < |round| && HashOf(round[j]) == d && ArrivalOf(round[j]) == p;
        if j > 0 {
          assert rest[j - 1] == round[j];
        }
      }
    }
  }

  /** p is one of the payloads for d in the first k rounds. */
  ghost predicate Brought(d: Digest, rounds: seq<seq<Incoming>>, k: nat, p: Arrival) {
    exists r, j :: 0 <= r < k && r < |rounds| && 0 <= j < |rounds[r]| && HashOf(rounds[r][j]) == d
      && ArrivalOf(rounds[r][j]) == p
  }

  lemma {:induction false} BroughtIff(d: Digest, rounds: seq<seq<Incoming>>, k: nat, p: Arrival)
    requires k <= |rounds|
    ensures p in ArrivedBy(d, rounds, k) <==> Brought(d, rounds, k, p)
  {
    hide HashOf, ArrivalOf, ArrivalsFor;
    if k > 0 {
      BroughtIff(d, rounds, k - 1, p);
      ArrivesIff(d, rounds[k - 1], p);
      if Brought(d, rounds, k - 1, p) {
        var r, j :| 0 <= r < k - 1 && r < |rounds| && 0 <= j < |rounds[r]| && HashOf(rounds[r][j]) == d
          && ArrivalOf(rounds[r][j]) == p;
        assert Brought(d, rounds, k, p);
      }
    }
  }

  /** Some message in some round carries the true bytes of chunk i, and no stale entry gets it skipped. */
  ghost predicate Carried(md5: Md5, file: seq<Byte>, v: View, d: Digest, rounds: seq<seq<Incoming>>, i: nat) {
    exists p :: Brought(d, rounds, |rounds|, p) && Authentic(file, p) && p.index == i && NotFooled(md5, v, p)
  }

  /**
   When, over all rounds, nothing crashes, every payload for the file fits its chunk and each insecure chunk
   is carried by one of them, nothing is missing after the last round, whatever the stale entries.
   */
  lemma DownloadEnds(md5: Md5, file: seq<Byte>, n: Node, d: Digest, rounds: seq<seq<Incoming>>, stale: ChunkHashes)
    requires OwnPath(n, d) && !HandledBy(md5, n, rounds, |rounds|).0
    requires ViewIn(n, d).def == Describe(md5, ViewIn(n, d).def.name, file)
    requires forall p :: Brought(d, rounds, |rounds|, p) ==> Fits(ViewIn(n, d).def, p)
    requires forall i :: i in Insecure(md5, ViewIn(n, d)) ==> Carried(md5, file, ViewIn(n, d), d, rounds, i)
    ensures MissingAt(md5, HandledBy(md5, n, rounds, |rounds|).1, d, stale) == {}
  {
    hide Has, Secure, Fits, Foolable, DeliverAll, ArrivedBy, ViewIn, OwnPath, HandledBy, Brought, Authentic, NotFooled;
    OwnKnown(n, d);
    var v, arrived := ViewIn(n, d), ArrivedBy(d, rounds, |rounds|);
    forall k | 0 <= k < |arrived| ensures Fits(v.def, arrived[k]) {
      BroughtIff(d, rounds, |rounds|, arrived[k]);
    }
    forall i | i in Insecure(md5, v) ensures Supplied(md5, file, v, arrived, i) {
      var p :| Brought(d, rounds, |rounds|, p) && Authentic(file, p) && p.index == i && NotFooled(md5, v, p);
      BroughtIff(d, rounds, |rounds|, p);
      var k :| 0 <= k < |arrived| && arrived[k] == p;
    }
    DownloadCompletes(md5, file, v, arrived);
    RoundsOwn(md5, n, d, rounds, |rounds|);
    var after := HandledBy(md5, n, rounds, |rounds|).1;
    OwnKnown(after, d);
    forall i: nat | i < NUM_CHUNKS ensures Reports(md5, after, d, stale, i) {
      assert i !in Insecure(md5, ViewIn(after, d));
      MeaningOfVerified(md5, ViewIn(after, d), stale, i);
    }
  }

  // ---------- When it crashes ----------

  lemma {:induction false} HandledInTwoParts(md5: Md5, n: Node, a: seq<Incoming>, b: seq<Incoming>)
    ensures var first := HandledAll(md5, n, a);
            HandledAll(md5, n, a + b) == if first.0 then first else HandledAll(md5, first.1, b)
    decreases |a|
  {
    hide HandledOne;
    if a == [] {
      assert a + b == b;
    } else {
      assert (a + b)[0] == a[0] && (a + b)[1..] == a[1..] + b;
      HandledInTwoParts(md5, HandledOne(md5, n, a[0]).1, a[1..], b);
    }
  }

  /** Message k of the round is the first to fault. */
  ghost predicate FaultsAt(md5: Md5, n: Node, round: seq<Incoming>, k: nat)
    requires k < |round|
  {
    !HandledAll(md5, n, round[..k]).0 && HandledOne(md5, HandledAll(md5, n, round[..k]).1, round[k]).0.Fault?
  }

  /** A message that faults ends the round there and then: what comes after it has no effect. */
  lemma FaultEndsRound(md5: Md5, n: Node, round: seq<Incoming>, k: nat)
    requires k < |round| && FaultsAt(md5, n, round, k)
    ensures HandledAll(md5, n, round) == (true, HandledOne(md5, HandledAll(md5, n, round[..k]).1, round[k]).1)
  {
    hide HandledOne;
    assert round == round[..k] + round[k..];
    HandledInTwoParts(md5, n, round[..k], round[k..]);
  }

  /** A round crashes exactly when one of its messages faults. */
  lemma {:induction false} RoundCrashesIff(md5: Md5, n: Node, round: seq<Incoming>)
    ensures HandledAll(md5, n, round).0 <==> exists k :: 0 <= k < |round| && FaultsAt(md5, n, round, k)
    decreases |round|
  {
    hide HandledOne, FaultsAt;
    forall k | 0 <= k < |round| && FaultsAt(md5, n, round, k) ensures HandledAll(md5, n, round).0 {
      FaultEndsRound(md5, n, round, k);
    }
    if round != [] {
      var init, last := round[..|round| - 1], |round| - 1;
      RoundCrashesIff(md5, n, init);
      assert round == init + [round[last]];
      HandledInTwoParts(md5, n, init, [round[last]]);
      if HandledAll(md5, n, init).0 {
        var k :| 0 <= k < |init| && FaultsAt(md5, n, init, k);
        PrefixFaults(md5, n, round, last, k);
      } else {
        LastFaults(md5, n, round);
      }
    }
  }

  lemma PrefixFaults(md5: Md5, n: Node, round: seq<Incoming>, m: nat, k: nat)
    requires k < m <= |round|
    ensures FaultsAt(md5, n, round[..m], k) <==> FaultsAt(md5, n, round, k)
  {
    hide HandledAll, HandledOne;
    assert round[..m][..k] == round[..k] && round[..m][k] == round[k];
  }

  lemma LastFaults(md5: Md5, n: Node, round: seq<Incoming>)
    requires round != [] && !HandledAll(md5, n, round[..|round| - 1]).0
    ensures var k := |round| - 1;
            FaultsAt(md5, n, round, k) <==> HandledAll(md5, HandledAll(md5, n, round[..k]).1, [round[k]]).0
  {
    hide HandledOne;
  }

  /** A message that fits its chunk of a known file; or that, for an unknown one, copies nothing. */
  predicate Sane(n: Node, m: Incoming) {
    if HashOf(m) in n.entries then Fits(n.entries[HashOf(m)].def, ArrivalOf(m)) else ArrivalOf(m).declared == 0
  }

  ghost predicate AllOwnPaths(n: Node) {
    forall d :: d in n.entries ==> OwnPath(n, d)
  }

  ghost predicate AllSane(n: Node, round: seq<Incoming>) {
    forall k :: 0 <= k < |round| ==> Sane(n, round[k])
  }

  lemma SaneDoesNotCrash(md5: Md5, n: Node, m: Incoming)
    requires AllOwnPaths(n) && Sane(n, m)
    ensures var (effect, after) := HandledOne(md5, n, m);
            && !effect.Fault? && AllOwnPaths(after)
            && after.entries.Keys == n.entries.Keys
            && forall d :: d in n.entries ==> after.entries[d].def == n.entries[d].def
  {
    hide Handled, Deliver, Decode, ViewOf, Cut, Fits;
    var p, after := Decode(m.buffer), HandledOne(md5, n, m).1;
    forall d | d in n.entries ensures OwnPath(after, d) && after.entries.Keys == n.entries.Keys {
      HandledOwn(md5, n, d, m);
    }
    if p.hash in n.entries {
      HandledOnlyAt(md5, n, p, m.stale);
      HandledOwn(md5, n, p.hash, m);
      ViewKeepsDefinition(n.entries[p.hash], n.disk);
      FittingNeverFaults(md5, ViewIn(n, p.hash), ArrivalOf(m));
    } else {
      UnknownChangesNothing(md5, n, p, m.stale);
      UnknownEffect(md5, n, p, m.stale);
    }
  }

  lemma UnknownEffect(md5: Md5, n: Node, p: Payload, stale: ChunkHashes)
    requires p.hash !in n.entries
    ensures Handled(md5, n, p, stale).0.Fault? <==> p.declared != 0
  {}

  /** While each definition has a path of its own, it takes a message that does not fit to crash a round. */
  lemma {:induction false} SaneRoundDoesNotCrash(md5: Md5, n: Node, round: seq<Incoming>)
    requires AllOwnPaths(n) && AllSane(n, round)
    ensures !HandledAll(md5, n, round).0 && AllOwnPaths(HandledAll(md5, n, round).1)
    decreases |round|
  {
    hide HandledOne, AllOwnPaths, Fits, HashOf, ArrivalOf;
    if round != [] {
      SaneDoesNotCrash(md5, n, round[0]);
      var next := HandledOne(md5, n, round[0]).1;
      forall k | 0 <= k < |round[1..]| ensures Sane(next, round[1..][k]) {
        assert Sane(n, round[k + 1]);
      }
      SaneRoundDoesNotCrash(md5, next, round[1..]);
    }
  }
}
