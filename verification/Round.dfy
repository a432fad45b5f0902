/**
 One round of download_file (src/client.c:682-717) with the whole network in it: the requests for the
 chunks the asker lacks travel over the tree of peers, one wave each (src/client.c:488-529), a node that
 verifies the chunk when its request arrives answers it, and the asker takes the answers in. Everything
 else that the nodes of Transfer can do goes on at the same time. As in Wave, a request is passed on to
 all peers but the one it came from.
 */
module Round {
  import opened Bytes
  import opened Tfile
  import opened Chunks
  import opened Delivery
  import opened NodeFiles
  import opened Tree
  import Transfer
  import Wave

  /** What stays fixed: the network of Transfer, the tree of peers, who downloads, and what. */
  datatype Setup = Setup(net: Transfer.Setup, tree: Parents, asker: nat, hash: Digest)

  /** `waves` has the request for each chunk asked for, `pending` the answers not yet taken in. */
  datatype State = State(base: Transfer.State, waves: map<nat, Wave.State>, pending: multiset<seq<Byte>>)

  datatype Act =
    | Other(act: Transfer.Act)
    | Arrive(chunk: nat, src: nat, dst: nat, stale: ChunkHashes)
    | Relay(chunk: nat, task: Wave.Task)
    | TakeIn(payload: seq<Byte>, leftover: seq<Byte>, stale: ChunkHashes)

  /** Node n has chunk i of the file. */
  predicate Holds(c: Setup, base: Transfer.State, n: nat, i: nat) {
    Transfer.Holds(c.net, base, n, c.hash, i)
  }

  function Holders(c: Setup, base: Transfer.State, i: nat): set<nat> {
    set n: nat | n < |base.nodes| && Holds(c, base, n, i)
  }

  predicate Knows(c: Setup, base: Transfer.State) {
    c.asker < |base.nodes| && c.hash in base.nodes[c.asker].entries
  }

  /** The chunks the asker lacks. */
  function Lacks(c: Setup, base: Transfer.State): set<nat>
    requires Knows(c, base)
  {
    Insecure(c.net.md5, ViewIn(base.nodes[c.asker], c.hash))
  }

  function Request(c: Setup, i: nat): Transfer.Message {
    Transfer.RequestMsg(c.hash, i, c.asker)
  }

  /** The chunks the asker lacks are those it asks for. */
  function Start(c: Setup, base: Transfer.State): State
    requires Knows(c, base)
  {
    State(base, map i | i in Lacks(c, base) :: Wave.Start(c.asker, Holders(c, base, i)), multiset{})
  }

  /** The step of Transfer at a node the request reaches: it answers, or it relays and changes nothing there. */
  function Answering(c: Setup, i: nat, node: nat, stale: ChunkHashes): Transfer.Act {
    Transfer.Answer(node, Request(c, i), stale)
  }

  predicate Enabled(c: Setup, s: State, act: Act) {
    match act
    case Other(a) => Transfer.Enabled(c.net, s.base, a)
    case Arrive(i, a, b, stale) =>
      && i in s.waves && Wave.Enabled(s.waves[i], Wave.Receive(a, b))
      && Transfer.Enabled(c.net, s.base, Answering(c, i, b, stale))
    case Relay(i, task) => i in s.waves && Wave.Enabled(s.waves[i], Wave.Spread(task)) && task.node !in s.base.down
    case TakeIn(payload, leftover, stale) =>
      payload in s.pending && Transfer.Enabled(c.net, s.base, Transfer.Take(c.asker, payload, leftover, stale))
  }

  /** What verify_tfile decides when the request for chunk i arrives at node b. */
  function VerdictAt(c: Setup, base: Transfer.State, b: nat, i: nat, stale: ChunkHashes): Verdict
    requires b < |base.nodes|
  {
    Requested(c.net.md5, base.nodes[b], c.hash, i, stale).0
  }

  /** The payload of an answer. */
  function PayloadOf(verdict: Verdict): multiset<seq<Byte>> {
    if verdict.Answered? && verdict.payload.Some? then multiset{verdict.payload.value} else multiset{}
  }

  function Next(c: Setup, s: State, act: Act): State
    requires Enabled(c, s, act)
  {
    match act
    case Other(a) => Sync(c, s.(base := Transfer.Next(c.net, s.base, a)))
    case Arrive(i, a, b, stale) =>
      Sync(c, State(Transfer.Next(c.net, s.base, Answering(c, i, b, stale)),
                    s.waves[i := Wave.Next(c.tree, s.waves[i], Wave.Receive(a, b))],
                    s.pending + PayloadOf(VerdictAt(c, s.base, b, i, stale))))
    case Relay(i, task) => s.(waves := s.waves[i := Wave.Next(c.tree, s.waves[i], Wave.Spread(task))])
    case TakeIn(payload, leftover, stale) =>
      Sync(c, s.(base := Transfer.Next(c.net, s.base, Transfer.Take(c.asker, payload, leftover, stale)),
                 pending := s.pending - multiset{payload}))
  }

  /** Nodes that have come to hold a chunk answer requests for it from now on. */
  function Sync(c: Setup, s: State): State {
    s.(waves := map i | i in s.waves :: s.waves[i].(holders := Holders(c, s.base, i)))
  }

  predicate IsRun(c: Setup, s: State, acts: seq<Act>)
    decreases |acts|, 0
  {
    acts == [] ||
    (IsRun(c, s, acts[..|acts| - 1]) && Enabled(c, Final(c, s, acts[..|acts| - 1]), acts[|acts| - 1]))
  }

  function Final(c: Setup, s: State, acts: seq<Act>): State
    requires IsRun(c, s, acts)
    decreases |acts|, 1
  {
    if acts == [] then s else Next(c, Final(c, s, acts[..|acts| - 1]), acts[|acts| - 1])
  }

  /** Every request is at rest, and every answer has been taken in. */
  predicate Over(s: State) {
    (forall i :: i in s.waves ==> Wave.Quiet(s.waves[i])) && s.pending == multiset{}
  }

  // ---------- The invariant ----------

  /** The payload that carries the true bytes of chunk i. */
  function TruePayload(c: Setup, i: nat): seq<Byte>
    requires c.hash in c.net.world && i < NUM_CHUNKS
  {
    Encode(c.hash, i, Slice(c.net.world[c.hash], i))
  }

  /** An answered request has its payload pending, or the asker has the chunk. */
  ghost predicate WaveOk(c: Setup, base0: Transfer.State, s: State, i: nat)
    requires c.hash in c.net.world && i in s.waves
  {
    var w := s.waves[i];
    && i < NUM_CHUNKS && Request(c, i) in s.base.sent
    && Wave.Inv(c.tree, w, c.asker, Holders(c, base0, i)) && w.holders == Holders(c, s.base, i)
    && (w.replied != {} ==> TruePayload(c, i) in s.pending || Holds(c, s.base, c.asker, i))
  }

  ghost predicate NetOk(c: Setup) {
    && Transfer.SetupOk(c.net) && Transfer.NamesClean(c.net) && Transfer.AllReceivable(c.net.world)
    && |c.net.disks| == |c.tree|
  }

  ghost predicate BaseOk(c: Setup, base: Transfer.State) {
    && NetOk(c) && c.hash in c.net.world && Transfer.Inv(c.net, base) && base.down == {} && Knows(c, base)
  }

  ghost predicate Core(c: Setup, base0: Transfer.State, s: State) {
    && BaseOk(c, s.base)
    && (forall i :: i in s.waves ==> WaveOk(c, base0, s, i))
    && (forall i: nat :: i < NUM_CHUNKS && i !in s.waves ==> Holds(c, s.base, c.asker, i))
  }

  ghost predicate Inv(c: Setup, base0: Transfer.State, s: State) {
    Core(c, base0, s) && forall p :: p in s.pending ==> Transfer.DataMsg(c.asker, p) in s.base.sent
  }

  /** The round can start: each missing chunk has been asked for. */
  ghost predicate Ready(c: Setup, base: Transfer.State)
    requires Knows(c, base)
  {
    forall i :: i in Lacks(c, base) ==> Request(c, i) in base.sent
  }

  lemma StartInv(c: Setup, base: Transfer.State)
    requires IsTree(c.tree) && BaseOk(c, base) && Ready(c, base)
    ensures Inv(c, base, Start(c, base))
  {
    hide Transfer.Inv, NetOk, Wave.Inv, Secure, IsTree, ViewIn;
    var s := Start(c, base);
    forall i | i in s.waves ensures WaveOk(c, base, s, i) {
      assert i in Lacks(c, base);
      AskerInTree(c, base);
      Wave.StartInv(c.tree, c.asker, Holders(c, base, i));
    }
    forall i: nat | i < NUM_CHUNKS && i !in s.waves ensures Holds(c, base, c.asker, i) {
      assert i !in Lacks(c, base);
    }
  }

  lemma AskerInTree(c: Setup, base: Transfer.State)
    requires BaseOk(c, base)
    ensures c.hash in c.net.world && Knows(c, base) && |base.nodes| == |c.tree| && c.asker < |c.tree|
  {
    hide Transfer.SetupOk, Transfer.NamesClean;
  }

  // ---------- Every step keeps it ----------

  /** From base to base' nothing is lost. */
  ghost predicate Grows(c: Setup, base: Transfer.State, base': Transfer.State) {
    base.sent <= base'.sent && forall n: nat, i: nat :: Holds(c, base, n, i) ==> Holds(c, base', n, i)
  }

  lemma BaseStep(c: Setup, base: Transfer.State, act: Transfer.Act)
    requires BaseOk(c, base) && Transfer.Enabled(c.net, base, act)
    ensures var base' := Transfer.Next(c.net, base, act);
            BaseOk(c, base') && Grows(c, base, base')
  {
    hide Transfer.Inv, Transfer.AllReceivable, Transfer.SetupOk, Transfer.NamesClean, Transfer.Enabled, Transfer.Next,
         Transfer.Holds;
    Transfer.CleanSizes(c.net);
    Transfer.NextKeepsInv(c.net, base, act);
    Transfer.NextStaysUp(c.net, base, act);
    Transfer.NextKeepsSecure(c.net, base, act);
  }

  /** A wave is as good after the rest of the system has moved on, once its holders are up to date. */
  lemma SyncKeepsWave(c: Setup, base0: Transfer.State, s: State, s': State, i: nat)
    requires BaseOk(c, s.base) && i in s.waves && i in s'.waves && WaveOk(c, base0, s, i)
    requires Grows(c, s.base, s'.base)
    requires s'.waves[i] == s.waves[i].(holders := Holders(c, s'.base, i))
    requires TruePayload(c, i) in s.pending ==> TruePayload(c, i) in s'.pending || Holds(c, s'.base, c.asker, i)
    ensures WaveOk(c, base0, s', i)
  {
    hide Wave.Inv, BaseOk, TruePayload, Holds;
    assert c.hash in c.net.world by { AskerInTree(c, s.base); }
    NodesStay(c, s.base, s'.base, i);
    Wave.MoreHoldersKeepInv(c.tree, s.waves[i], c.asker, Holders(c, base0, i), Holders(c, s'.base, i));
  }

  lemma NodesStay(c: Setup, base: Transfer.State, base': Transfer.State, i: nat)
    requires Grows(c, base, base')
    ensures Holders(c, base, i) <= Holders(c, base', i)
  {
    forall n: nat | n < |base.nodes| && Holds(c, base, n, i) ensures n < |base'.nodes| && Holds(c, base', n, i) {
      assert Holds(c, base', n, i);
    }
  }

  /** After a step of the base, with the waves brought up to date, and the given answers still pending. */
  lemma SyncKeepsInv(c: Setup, base0: Transfer.State, s: State, base': Transfer.State, pending: multiset<seq<Byte>>)
    requires Core(c, base0, s) && BaseOk(c, base') && Grows(c, s.base, base')
    requires forall p :: p in pending ==> Transfer.DataMsg(c.asker, p) in base'.sent
    requires forall i :: i in s.waves && TruePayload(c, i) in s.pending ==>
                           TruePayload(c, i) in pending || Holds(c, base', c.asker, i)
    ensures Inv(c, base0, Sync(c, State(base', s.waves, pending)))
  {
    hide BaseOk, TruePayload, Holds, WaveOk, Grows;
    var s' := Sync(c, State(base', s.waves, pending));
    AskerInTree(c, s.base);
    forall i | i in s'.waves ensures WaveOk(c, base0, s', i) {
      WaveIndex(c, base0, s, i);
      SyncKeepsWave(c, base0, s, s', i);
    }
    forall i: nat | i < NUM_CHUNKS && i !in s'.waves ensures Holds(c, base', c.asker, i) {
      HoldsStays(c, s.base, base', c.asker, i);
    }
  }

  lemma WaveIndex(c: Setup, base0: Transfer.State, s: State, i: nat)
    requires c.hash in c.net.world && i in s.waves && WaveOk(c, base0, s, i)
    ensures i < NUM_CHUNKS
  {}

  lemma HoldsStays(c: Setup, base: Transfer.State, base': Transfer.State, n: nat, i: nat)
    requires Grows(c, base, base') && Holds(c, base, n, i)
    ensures Holds(c, base', n, i)
  {}

  lemma OtherKeepsInv(c: Setup, base0: Transfer.State, s: State, act: Transfer.Act)
    requires Inv(c, base0, s) && Enabled(c, s, Other(act))
    ensures Inv(c, base0, Next(c, s, Other(act)))
  {
    hide Inv, Core, BaseOk, Sync, Transfer.Enabled, Transfer.Next, TruePayload;
    InvParts(c, base0, s);
    BaseStep(c, s.base, act);
    SyncKeepsInv(c, base0, s, Transfer.Next(c.net, s.base, act), s.pending);
  }

  lemma InvParts(c: Setup, base0: Transfer.State, s: State)
    requires Inv(c, base0, s)
    ensures Core(c, base0, s) && BaseOk(c, s.base) && c.hash in c.net.world
    ensures forall i :: i in s.waves ==> i < NUM_CHUNKS && WaveOk(c, base0, s, i)
    ensures forall p :: p in s.pending ==> Transfer.DataMsg(c.asker, p) in s.base.sent
  {}

  /** Taking in an answer gives the asker its chunk. */
  lemma TakeInKeepsInv(c: Setup, base0: Transfer.State, s: State,
                       payload: seq<Byte>, leftover: seq<Byte>, stale: ChunkHashes)
    requires Inv(c, base0, s) && Enabled(c, s, TakeIn(payload, leftover, stale))
    ensures Inv(c, base0, Next(c, s, TakeIn(payload, leftover, stale)))
  {
    hide Inv, Core, BaseOk, Sync, Transfer.Enabled, Transfer.Next, TruePayload, WaveOk, Holds;
    InvParts(c, base0, s);
    var take := Transfer.Take(c.asker, payload, leftover, stale);
    BaseStep(c, s.base, take);
    var base' := Transfer.Next(c.net, s.base, take);
    var pending := s.pending - multiset{payload};
    forall i | i in s.waves && TruePayload(c, i) in s.pending
      ensures TruePayload(c, i) in pending || Holds(c, base', c.asker, i)
    {
      if TruePayload(c, i) == payload {
        TakenHolds(c, s.base, i, leftover, stale);
      }
    }
    SyncKeepsInv(c, base0, s, base', pending);
  }

  lemma TakenHolds(c: Setup, base: Transfer.State, i: nat, leftover: seq<Byte>, stale: ChunkHashes)
    requires BaseOk(c, base) && i < NUM_CHUNKS
    requires Transfer.Enabled(c.net, base, Transfer.Take(c.asker, TruePayload(c, i), leftover, stale))
    ensures Holds(c, Transfer.Next(c.net, base, Transfer.Take(c.asker, TruePayload(c, i), leftover, stale)), c.asker, i)
  {
    hide Transfer.Inv, Transfer.SetupOk, Transfer.NamesClean, Transfer.Taken, Secure, Encode, Decode, Slice,
         Transfer.Next, Transfer.Enabled;
    var payload := TruePayload(c, i);
    var take := Transfer.Take(c.asker, payload, leftover, stale);
    Transfer.TruePayloads(c.net.world, c.hash, i);
    Transfer.OversizedPayload(c.net.world, payload);
    Transfer.TakeGains(c.net, base, take);
  }

  /** verify_tfile reports chunk i at a node exactly when it holds it; then it answers with the true bytes. */
  lemma AnswersIffHolds(c: Setup, base: Transfer.State, b: nat, i: nat, stale: ChunkHashes)
    requires BaseOk(c, base) && i < NUM_CHUNKS && b < |base.nodes|
    ensures var verdict := VerdictAt(c, base, b, i, stale);
            && (verdict.Answered? <==> Holds(c, base, b, i))
            && verdict == if Holds(c, base, b, i) then Answered(Some(TruePayload(c, i))) else Relayed
  {
    hide Transfer.SetupOk, Transfer.NamesClean, Requested, Secure, Encode, Slice, Transfer.TrueMessage, Transfer.NodeOk;
    Transfer.AnsweringIsTrue(c.net, base.nodes[b], c.hash, i, stale);
  }

  /** Replacing one wave by one that is as good, and adding answers, keeps the rest. */
  lemma WaveStepKeepsCore(c: Setup, base0: Transfer.State, s: State, i: nat, w: Wave.State, more: multiset<seq<Byte>>)
    requires Core(c, base0, s) && i in s.waves
    requires WaveOk(c, base0, State(s.base, s.waves[i := w], s.pending + more), i)
    ensures Core(c, base0, State(s.base, s.waves[i := w], s.pending + more))
  {
    hide BaseOk, Wave.Inv, Holds;
    var s' := State(s.base, s.waves[i := w], s.pending + more);
    assert c.hash in c.net.world by { AskerInTree(c, s.base); }
    forall j | j in s'.waves ensures WaveOk(c, base0, s', j) {
      if j != i {
        assert WaveOk(c, base0, s, j);
      }
    }
  }

  lemma RelayKeepsInv(c: Setup, base0: Transfer.State, s: State, i: nat, task: Wave.Task)
    requires Inv(c, base0, s) && Enabled(c, s, Relay(i, task))
    ensures Inv(c, base0, Next(c, s, Relay(i, task)))
  {
    hide BaseOk, Wave.Inv, Holds, Wave.Targets;
    InvParts(c, base0, s);
    var w := Wave.Next(c.tree, s.waves[i], Wave.Spread(task));
    Wave.SpreadKeepsInv(c.tree, s.waves[i], c.asker, Holders(c, base0, i), task);
    assert s.pending + multiset{} == s.pending;
    WaveStepKeepsCore(c, base0, s, i, w, multiset{});
  }

  /** A request that arrives is answered or relayed as the wave has it: by who holds the chunk. */
  lemma ArriveKeepsInv(c: Setup, base0: Transfer.State, s: State, i: nat, a: nat, b: nat, stale: ChunkHashes)
    requires Inv(c, base0, s) && Enabled(c, s, Arrive(i, a, b, stale))
    ensures Inv(c, base0, Next(c, s, Arrive(i, a, b, stale)))
  {
    hide BaseOk, Wave.Inv, Transfer.Enabled, Transfer.Next, TruePayload, Sync, VerdictAt;
    InvParts(c, base0, s);
    AskerInTree(c, s.base);
    assert b < |s.base.nodes| by { EnabledNode(c, s.base, Answering(c, i, b, stale)); }
    var answer := Answering(c, i, b, stale);
    var w := Wave.Next(c.tree, s.waves[i], Wave.Receive(a, b));
    Wave.ReceiveKeepsInv(c.tree, s.waves[i], c.asker, Holders(c, base0, i), a, b);
    AnswersIffHolds(c, s.base, b, i, stale);
    assert b in s.waves[i].holders <==> Holds(c, s.base, b, i);
    var more := PayloadOf(VerdictAt(c, s.base, b, i, stale));
    WaveStepKeepsCore(c, base0, s, i, w, more);
    BaseStep(c, s.base, answer);
    AnswerIsSent(c, s.base, i, b, stale);
    SyncKeepsInv(c, base0, State(s.base, s.waves[i := w], s.pending + more),
                 Transfer.Next(c.net, s.base, answer), s.pending + more);
  }

  lemma EnabledNode(c: Setup, base: Transfer.State, act: Transfer.Act)
    requires Transfer.Enabled(c.net, base, act)
    ensures act.node < |base.nodes| && act.node !in base.down
  {}

  lemma AnswerIsSent(c: Setup, base: Transfer.State, i: nat, b: nat, stale: ChunkHashes)
    requires b < |base.nodes| && Transfer.Enabled(c.net, base, Answering(c, i, b, stale))
    ensures forall p :: p in PayloadOf(VerdictAt(c, base, b, i, stale)) ==>
              Transfer.DataMsg(c.asker, p) in Transfer.Next(c.net, base, Answering(c, i, b, stale)).sent
    ensures base.sent <= Transfer.Next(c.net, base, Answering(c, i, b, stale)).sent
  {
    hide Requested;
  }

  lemma NextKeepsInv(c: Setup, base0: Transfer.State, s: State, act: Act)
    requires Inv(c, base0, s) && Enabled(c, s, act)
    ensures Inv(c, base0, Next(c, s, act))
  {
    hide Inv, Next, Enabled;
    match act {
      case Other(a) => OtherKeepsInv(c, base0, s, a);
      case Arrive(i, a, b, stale) => ArriveKeepsInv(c, base0, s, i, a, b, stale);
      case Relay(i, task) => RelayKeepsInv(c, base0, s, i, task);
      case TakeIn(payload, leftover, stale) => TakeInKeepsInv(c, base0, s, payload, leftover, stale);
    }
  }

  lemma {:induction false} RunKeepsInv(c: Setup, base0: Transfer.State, acts: seq<Act>)
    requires IsTree(c.tree) && BaseOk(c, base0) && Ready(c, base0) && IsRun(c, Start(c, base0), acts)
    ensures Inv(c, base0, Final(c, Start(c, base0), acts))
  {
    hide Inv, Next, Enabled, BaseOk, IsTree, Ready, Start;
    AskerInTree(c, base0);
    if acts == [] {
      StartInv(c, base0);
    } else {
      RunKeepsInv(c, base0, acts[..|acts| - 1]);
      NextKeepsInv(c, base0, Final(c, Start(c, base0), acts[..|acts| - 1]), acts[|acts| - 1]);
    }
  }

  // ---------- A round ends, and then the download is complete ----------

  /** Each chunk the asker lacks, some other node has. */
  ghost predicate HeldElsewhere(c: Setup, base: Transfer.State)
    requires Knows(c, base)
  {
    forall i :: i in Lacks(c, base) ==> Holders(c, base, i) - {c.asker} != {}
  }

  /** A run of Transfer that leads to base. */
  ghost predicate Reaches(c: Setup, acts: seq<Transfer.Act>, base: Transfer.State) {
    NetOk(c) && Transfer.Leads(c.net, acts, base)
  }

  /** The first k chunks that the asker lacks have been asked for. */
  ghost predicate AskedFor(c: Setup, base: Transfer.State, k: nat)
    requires Knows(c, base)
  {
    forall i :: i in Lacks(c, base) && i < k ==> Request(c, i) in base.sent
  }

  /**
   Wherever the network has got to, a node with the definition can ask for what it lacks: the loop that
   sends the requests makes the round ready, and changes no node.
   */
  lemma {:induction false} RequestsGoOut(c: Setup, acts: seq<Transfer.Act>, base: Transfer.State, k: nat)
    returns (longer: seq<Transfer.Act>, base': Transfer.State)
    requires Reaches(c, acts, base) && Knows(c, base) && k <= NUM_CHUNKS
    ensures acts <= longer && Reaches(c, longer, base') && base'.nodes == base.nodes && AskedFor(c, base', k)
    ensures k == NUM_CHUNKS ==> Ready(c, base')
  {
    hide Reaches, ViewIn, Secure;
    longer, base' := acts, base;
    if k > 0 {
      longer, base' := RequestsGoOut(c, acts, base, k - 1);
      if k - 1 in Lacks(c, base) {
        longer, base' := OneRequestGoesOut(c, longer, base', k - 1);
      }
    }
  }

  lemma OneRequestGoesOut(c: Setup, acts: seq<Transfer.Act>, base: Transfer.State, i: nat)
    returns (longer: seq<Transfer.Act>, base': Transfer.State)
    requires Reaches(c, acts, base) && Knows(c, base) && i in Lacks(c, base)
    ensures acts <= longer && Reaches(c, longer, base')
    ensures base'.nodes == base.nodes && base'.sent == base.sent + {Request(c, i)}
  {
    hide Transfer.SetupOk, Transfer.NamesClean, Transfer.AllReceivable, Transfer.Leads, Secure, ViewIn, Has, Cut;
    ReachedOk(c, acts, base);
    Transfer.EntryIs(c.net, base.nodes[c.asker], c.hash);
    var v := ViewIn(base.nodes[c.asker], c.hash);
    Transfer.TrueViewKnown(c.net, c.hash, v);
    Transfer.HasIsSecure(c.net.md5, v, NO_HASHES, i);
    longer, base' := Transfer.OneMore(c.net, acts, base, Transfer.Ask(c.asker, c.hash, i, NO_HASHES));
  }

  lemma ReachedOk(c: Setup, acts: seq<Transfer.Act>, base: Transfer.State)
    requires Reaches(c, acts, base) && Knows(c, base)
    ensures BaseOk(c, base)
  {
    hide Transfer.Inv, Transfer.AllReceivable, Transfer.SetupOk, Transfer.NamesClean, Transfer.Leads, ViewIn;
    Transfer.LeadsThere(c.net, acts, base);
    Transfer.CleanSizes(c.net);
    Transfer.RunKeepsInv(c.net, acts);
    Transfer.RunStaysUp(c.net, acts);
    assert c.hash in c.net.world by { KnownFile(c, base); }
  }

  lemma KnownFile(c: Setup, base: Transfer.State)
    requires Transfer.Inv(c.net, base) && Knows(c, base)
    ensures c.hash in c.net.world
  {
    hide ViewIn, Cut;
    Transfer.EntryIs(c.net, base.nodes[c.asker], c.hash);
    Transfer.TrueViewKnown(c.net, c.hash, ViewIn(base.nodes[c.asker], c.hash));
  }

  /** A round started where a run of Transfer has led, with every missing chunk asked for. */
  ghost predicate Starts(c: Setup, before: seq<Transfer.Act>, base: Transfer.State) {
    IsTree(c.tree) && Reaches(c, before, base) && Knows(c, base) && Ready(c, base)
  }

  /**
   From any state the network can reach: if each chunk the asker lacks has been asked for and some other
   node has it, then once all the requests are at rest and all the answers taken in, the asker has the
   published file.
   */
  lemma RoundCompletes(c: Setup, before: seq<Transfer.Act>, base: Transfer.State, acts: seq<Act>, stale: ChunkHashes)
    requires Starts(c, before, base) && HeldElsewhere(c, base) && IsRun(c, Start(c, base), acts)
    requires Over(Final(c, Start(c, base), acts))
    ensures var end := Final(c, Start(c, base), acts).base;
            && Knows(c, end) && c.hash in c.net.world
            && HasAll(c.net.md5, ViewIn(end.nodes[c.asker], c.hash), stale)
            && ViewIn(end.nodes[c.asker], c.hash).content == Some(c.net.world[c.hash])
  {
    hide Inv, BaseOk, IsRun, Final, Reaches, IsTree, Holders, HasAll, ViewIn;
    ReachedOk(c, before, base);
    var s := Final(c, Start(c, base), acts);
    RunKeepsInv(c, base, acts);
    InvParts(c, base, s);
    AskerInTree(c, s.base);
    forall i: nat | i < NUM_CHUNKS ensures Holds(c, s.base, c.asker, i) {
      if i in s.waves {
        WavesFromStart(c, base, acts, i);
        HoldersInTree(c, base, i);
        Wave.QuietIsAnswered(c.tree, s.waves[i], c.asker, Holders(c, base, i));
      }
    }
    AllHeldIsComplete(c, s.base, stale);
  }

  /**
   In a round no request gets past a node that had the chunk when the round started; and a request at rest,
   when nobody but perhaps the asker has come to have the chunk meanwhile, has reached exactly the nodes with
   no such node in between, and exactly those among them that have the chunk, but the asker, have answered.
   */
  lemma RequestStops(c: Setup, before: seq<Transfer.Act>, base: Transfer.State, acts: seq<Act>, i: nat)
    requires Starts(c, before, base) && IsRun(c, Start(c, base), acts) && i in Final(c, Start(c, base), acts).waves
    ensures var (end, had) := (Final(c, Start(c, base), acts), Holders(c, base, i));
            var w := end.waves[i];
            && (forall z :: z in w.reached ==> z < |c.tree| && !Wave.BehindHolder(c.tree, c.asker, had, z))
            && (Wave.Quiet(w) && Holders(c, end.base, i) - {c.asker} == had - {c.asker} ==>
                  && (forall z: nat :: z < |c.tree| && !Wave.BehindHolder(c.tree, c.asker, had, z) ==> z in w.reached)
                  && w.replied == w.reached * had - {c.asker})
  {
    hide Inv, BaseOk, IsRun, Final, Reaches, IsTree, Holders, Wave.Quiet, Wave.Inv, Wave.BehindHolder;
    ReachedOk(c, before, base);
    var s, had := Final(c, Start(c, base), acts), Holders(c, base, i);
    RunKeepsInv(c, base, acts);
    InvParts(c, base, s);
    var w := s.waves[i];
    Wave.ReachedInTree(c.tree, w, c.asker, had);
    forall z | z in w.reached ensures z < |c.tree| && !Wave.BehindHolder(c.tree, c.asker, had, z) {
      assert z in Nodes(c.tree);
      Wave.ReachedNotBehind(c.tree, w, c.asker, had, z);
    }
    if Wave.Quiet(w) && Holders(c, s.base, i) - {c.asker} == had - {c.asker} {
      Wave.RestsExactly(c.tree, w, c.asker, had);
    }
  }

  lemma HoldersInTree(c: Setup, base: Transfer.State, i: nat)
    requires BaseOk(c, base)
    ensures Holders(c, base, i) * Nodes(c.tree) == Holders(c, base, i)
  {}

  lemma {:induction false} WavesFromStart(c: Setup, base: Transfer.State, acts: seq<Act>, i: nat)
    requires Knows(c, base) && IsRun(c, Start(c, base), acts)
    ensures i in Final(c, Start(c, base), acts).waves <==> i in Lacks(c, base)
  {
    hide Next, Enabled, Lacks;
    if acts != [] {
      var init := acts[..|acts| - 1];
      WavesFromStart(c, base, init, i);
      NextKeepsWaves(c, Final(c, Start(c, base), init), acts[|acts| - 1], i);
    }
  }

  lemma NextKeepsWaves(c: Setup, s: State, act: Act, i: nat)
    requires Enabled(c, s, act)
    ensures i in Next(c, s, act).waves <==> i in s.waves
  {
    hide Transfer.Enabled, Transfer.Next, Wave.Next, Wave.Enabled, Holders;
  }

  lemma AllHeldIsComplete(c: Setup, base: Transfer.State, stale: ChunkHashes)
    requires BaseOk(c, base) && forall i: nat :: i < NUM_CHUNKS ==> Holds(c, base, c.asker, i)
    ensures HasAll(c.net.md5, ViewIn(base.nodes[c.asker], c.hash), stale)
    ensures ViewIn(base.nodes[c.asker], c.hash).content == Some(c.net.world[c.hash])
  {
    hide Secure, Has, Describe, UnforgeableFile, ViewIn, Cut, Transfer.NamesClean, Transfer.TrueMessage;
    var v := ViewIn(base.nodes[c.asker], c.hash);
    Transfer.EntryIs(c.net, base.nodes[c.asker], c.hash);
    Transfer.TrueViewKnown(c.net, c.hash, v);
    assert Transfer.FileOk(c.net.md5, c.hash, c.net.world[c.hash]);
    forall i | 0 <= i < NUM_CHUNKS ensures Has(c.net.md5, v, stale, i) {
      assert Holds(c, base, c.asker, i);
      Transfer.HasIsSecure(c.net.md5, v, stale, i);
    }
    Transfer.CompleteIsTrue(c.net.md5, c.net.world[c.hash], v, stale);
  }

  /** The steps of the round itself. */
  function Work(acts: seq<Act>): nat {
    if acts == [] then 0 else Work(acts[..|acts| - 1]) + if acts[|acts| - 1].Other? then 0 else 1
  }

  /** What the requests for the first k chunks can still do, answers included. */
  function WaveLoad(c: Setup, s: State, k: nat): int {
    if k == 0 then 0
    else WaveLoad(c, s, k - 1) + if k - 1 in s.waves then 2 * Wave.Potential(c.tree, s.waves[k - 1]) else 0
  }

  function Load(c: Setup, s: State): int {
    WaveLoad(c, s, NUM_CHUNKS) + |s.pending|
  }

  lemma {:induction false} WaveLoadIs(c: Setup, s: State, s': State, i: nat, k: nat, less: nat)
    requires s'.waves.Keys == s.waves.Keys && i in s.waves
    requires Wave.Potential(c.tree, s'.waves[i]) + less <= Wave.Potential(c.tree, s.waves[i])
    requires forall j :: j in s.waves && j != i ==>
               Wave.Potential(c.tree, s'.waves[j]) == Wave.Potential(c.tree, s.waves[j])
    ensures WaveLoad(c, s', k) + (if i < k then 2 * less else 0) <= WaveLoad(c, s, k)
  {
    hide Wave.Potential;
    if k > 0 {
      WaveLoadIs(c, s, s', i, k - 1, less);
    }
  }

  lemma {:induction false} SameWaveLoad(c: Setup, s: State, s': State, k: nat)
    requires s'.waves.Keys == s.waves.Keys
    requires forall j :: j in s.waves ==> Wave.Potential(c.tree, s'.waves[j]) == Wave.Potential(c.tree, s.waves[j])
    ensures WaveLoad(c, s', k) == WaveLoad(c, s, k)
  {
    hide Wave.Potential;
    if k > 0 {
      SameWaveLoad(c, s, s', k - 1);
    }
  }

  lemma StartPotential(c: Setup, base: Transfer.State, i: nat)
    requires Knows(c, base) && i in Start(c, base).waves
    ensures Wave.Potential(c.tree, Start(c, base).waves[i]) == 2 * |c.tree| - 1
  {
    hide Holders, Lacks;
  }

  lemma {:induction false} StartWaveLoad(c: Setup, base: Transfer.State, k: nat)
    requires Knows(c, base) && |c.tree| > 0
    ensures WaveLoad(c, Start(c, base), k) <= k * (4 * |c.tree| - 2)
  {
    hide Start, Wave.Potential;
    if k > 0 {
      StartWaveLoad(c, base, k - 1);
      if k - 1 in Start(c, base).waves {
        StartPotential(c, base, k - 1);
      }
      assert k * (4 * |c.tree| - 2) == (k - 1) * (4 * |c.tree| - 2) + (4 * |c.tree| - 2);
    }
  }

  /** A step of the base changes who holds what, not what the waves can still do. */
  lemma SyncSameLoad(c: Setup, s: State, base: Transfer.State, pending: multiset<seq<Byte>>)
    ensures Load(c, Sync(c, State(base, s.waves, pending))) == WaveLoad(c, s, NUM_CHUNKS) + |pending|
  {
    hide Holders;
    SameWaveLoad(c, s, Sync(c, State(base, s.waves, pending)), NUM_CHUNKS);
  }

  /** A delivery or onward send uses up what its wave can do; an answer taken in was pending. */
  lemma StepUsesLoad(c: Setup, base0: Transfer.State, s: State, act: Act)
    requires Inv(c, base0, s) && Enabled(c, s, act)
    ensures Load(c, Next(c, s, act)) + (if act.Other? then 0 else 1) <= Load(c, s)
  {
    hide Inv, Transfer.Enabled, Transfer.Next, Sync, WaveLoad;
    match act {
      case Other(a) => SyncSameLoad(c, s, Transfer.Next(c.net, s.base, a), s.pending);
      case Arrive(i, a, b, stale) => ArriveUsesLoad(c, base0, s, i, a, b, stale);
      case Relay(i, task) => WaveStepLoad(c, base0, s, i, Wave.Spread(task));
      case TakeIn(payload, leftover, stale) =>
        var take := Transfer.Take(c.asker, payload, leftover, stale);
        SyncSameLoad(c, s, Transfer.Next(c.net, s.base, take), s.pending - multiset{payload});
    }
  }

  lemma ArriveUsesLoad(c: Setup, base0: Transfer.State, s: State, i: nat, a: nat, b: nat, stale: ChunkHashes)
    requires Inv(c, base0, s) && Enabled(c, s, Arrive(i, a, b, stale))
    ensures Load(c, Next(c, s, Arrive(i, a, b, stale))) + 1 <= Load(c, s)
  {
    hide Inv, Transfer.Next, Transfer.Enabled, Sync, WaveLoad, Wave.Next, VerdictAt;
    EnabledNode(c, s.base, Answering(c, i, b, stale));
    WaveStepLoad(c, base0, s, i, Wave.Receive(a, b));
    var waves := s.waves[i := Wave.Next(c.tree, s.waves[i], Wave.Receive(a, b))];
    SyncSameLoad(c, s.(waves := waves), Transfer.Next(c.net, s.base, Answering(c, i, b, stale)),
                 s.pending + PayloadOf(VerdictAt(c, s.base, b, i, stale)));
  }

  lemma WaveStepLoad(c: Setup, base0: Transfer.State, s: State, i: nat, act: Wave.Act)
    requires Inv(c, base0, s) && i in s.waves && Wave.Enabled(s.waves[i], act) && !act.Acquire?
    ensures WaveLoad(c, s.(waves := s.waves[i := Wave.Next(c.tree, s.waves[i], act)]), NUM_CHUNKS) + 2 <=
            WaveLoad(c, s, NUM_CHUNKS)
  {
    hide BaseOk, Wave.Inv, Wave.Next, Wave.Enabled, Wave.Potential;
    InvParts(c, base0, s);
    Wave.StepUsesPotential(c.tree, s.waves[i], c.asker, Holders(c, base0, i), act);
    WaveLoadIs(c, s, s.(waves := s.waves[i := Wave.Next(c.tree, s.waves[i], act)]), i, NUM_CHUNKS, 1);
  }

  lemma {:induction false} LoadIsNat(c: Setup, base0: Transfer.State, s: State, k: nat)
    requires Inv(c, base0, s)
    ensures WaveLoad(c, s, k) >= 0
  {
    hide BaseOk, Wave.Inv;
    InvParts(c, base0, s);
    if k > 0 {
      LoadIsNat(c, base0, s, k - 1);
      if k - 1 in s.waves {
        Wave.ReachedInTree(c.tree, s.waves[k - 1], c.asker, Holders(c, base0, k - 1));
      }
    }
  }

  lemma {:induction false} RunUsesLoad(c: Setup, base0: Transfer.State, acts: seq<Act>)
    requires IsTree(c.tree) && BaseOk(c, base0) && Ready(c, base0) && IsRun(c, Start(c, base0), acts)
    ensures Work(acts) + Load(c, Final(c, Start(c, base0), acts)) <= Load(c, Start(c, base0))
  {
    hide Inv, Next, Enabled, BaseOk, IsTree, Ready, Start, Load;
    AskerInTree(c, base0);
    if acts != [] {
      var init := acts[..|acts| - 1];
      RunUsesLoad(c, base0, init);
      RunKeepsInv(c, base0, init);
      StepUsesLoad(c, base0, Final(c, Start(c, base0), init), acts[|acts| - 1]);
    }
  }

  /** An answer on its way can be taken in. */
  lemma PendingCanBeTaken(c: Setup, s: State, payload: seq<Byte>) returns (act: Act)
    requires BaseOk(c, s.base) && payload in s.pending && Transfer.DataMsg(c.asker, payload) in s.base.sent
    ensures act.TakeIn? && Enabled(c, s, act)
  {
    hide Decode, Transfer.SetupOk, Transfer.NamesClean, Slice;
    Transfer.SentIsTrue(c.net, s.base, c.asker, payload);
    Transfer.OversizedPayload(c.net.world, payload);
    act := TakeIn(payload, seq<Byte>(Transfer.Framing.BUFFER - |payload|, _ => 0), NO_HASHES);
  }

  /** Whatever else goes on, a round takes a bounded number of steps; short of its end one more is possible. */
  lemma RoundEnds(c: Setup, before: seq<Transfer.Act>, base: Transfer.State, acts: seq<Act>)
    requires Starts(c, before, base) && IsRun(c, Start(c, base), acts)
    ensures Work(acts) <= 2 * NUM_CHUNKS * (2 * |c.tree| - 1)
    ensures !Over(Final(c, Start(c, base), acts)) ==>
              exists act: Act :: !act.Other? && Enabled(c, Final(c, Start(c, base), acts), act)
  {
    hide Inv, BaseOk, IsRun, Final, Reaches, IsTree, WaveLoad, Enabled, Wave.Quiet;
    ReachedOk(c, before, base);
    AskerInTree(c, base);
    var s := Final(c, Start(c, base), acts);
    RunKeepsInv(c, base, acts);
    RunUsesLoad(c, base, acts);
    LoadIsNat(c, base, s, NUM_CHUNKS);
    StartWaveLoad(c, base, NUM_CHUNKS);
    if !Over(s) {
      var act := CanGoOn(c, base, s);
    }
  }

  lemma CanGoOn(c: Setup, base0: Transfer.State, s: State) returns (act: Act)
    requires Inv(c, base0, s) && !Over(s)
    ensures !act.Other? && Enabled(c, s, act)
  {
    hide BaseOk, WaveOk, Wave.Quiet, Transfer.Enabled;
    InvParts(c, base0, s);
    if s.pending != multiset{} {
      var payload :| payload in s.pending;
      act := PendingCanBeTaken(c, s, payload);
    } else {
      var i :| i in s.waves && !Wave.Quiet(s.waves[i]);
      act := WaveCanGoOn(c, base0, s, i);
    }
  }

  lemma WaveCanGoOn(c: Setup, base0: Transfer.State, s: State, i: nat) returns (act: Act)
    requires BaseOk(c, s.base) && i in s.waves && WaveOk(c, base0, s, i) && !Wave.Quiet(s.waves[i])
    ensures !act.Other? && Enabled(c, s, act)
  {
    hide Transfer.SetupOk, Transfer.NamesClean, Transfer.AllReceivable, Wave.TasksOk, Wave.Covered, Adjacent, IsTree,
         Transfer.NodeOk, Transfer.TrueMessage, Transfer.Asked;
    var w := s.waves[i];
    if w.flight != multiset{} {
      var m :| m in w.flight;
      Wave.FlightAt(c.tree, w, m.0, m.1);
      act := Arrive(i, m.0, m.1, NO_HASHES);
    } else {
      var task :| task in w.tasks;
      act := Relay(i, task);
    }
  }
}
