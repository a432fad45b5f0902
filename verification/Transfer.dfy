/**
 The whole exchange among nodes that all follow this code: publishing, spreading definitions, asking
 for chunks, answering, taking in the answers and saving (src/client.c:106-118, 421-558, 571-606, 682-720),
 with each node's entries and disk as NodeFiles has them. `sent` holds every message ever sent; any of
 them may arrive anywhere it could be routed to, at any time, repeatedly or never. A payload is taken in
 from the worker's buffer, of which it fills the first part. A node that takes in one larger than the
 buffer, copies outside its memory, or reads a mapping beyond its file, is down from then on.
 */
module Transfer {
  import opened Bytes
  import opened Tfile
  import opened Chunks
  import opened Delivery
  import opened NodeFiles
  import Framing

  /** A file on a node's disk that is published; `main` gives the path as the name, too. */
  datatype Offer = Offer(node: nat, path: string)

  /** The files that get published, by hash. */
  type World = map<Digest, seq<Byte>>

  /** What stays fixed: the disks at the start, which of the files on them get published, and their bytes. */
  datatype Setup = Setup(md5: Md5, disks: seq<Disk>, offers: set<Offer>, world: World)

  datatype Message =
    | DefMsg(def: TDef)
    | RequestMsg(hash: Digest, index: int, origin: nat)
    | DataMsg(dst: nat, payload: seq<Byte>)

  datatype State = State(nodes: seq<Node>, sent: set<Message>, down: set<nat>)

  datatype Act =
    | Publish(node: nat, path: string)
    | Learn(node: nat, def: TDef)
    | Ask(node: nat, hash: Digest, index: nat, stale: ChunkHashes)
    | Answer(node: nat, request: Message, stale: ChunkHashes)
    | Take(node: nat, payload: seq<Byte>, leftover: seq<Byte>, stale: ChunkHashes)
    | Save(node: nat, hash: Digest)

  /** A name with its end must fit its place in a definition. */
  const NAME_LEN: nat := 32

  ghost predicate OfferOk(c: Setup, o: Offer) {
    && o.node < |c.disks| && o.path in c.disks[o.node] && |o.path| < NAME_LEN
    && c.md5(Content(c, o)) in c.world && c.world[c.md5(Content(c, o))] == Content(c, o)
  }

  /** The bytes offered. */
  function Content(c: Setup, o: Offer): seq<Byte>
    requires o.node < |c.disks|
  {
    FileAt(c.disks[o.node], o.path)
  }

  /** File `file` is offered under `path`. */
  ghost predicate OfferedAs(c: Setup, file: seq<Byte>, path: string) {
    exists o :: o in c.offers && o.node < |c.disks| && o.path == path && Content(c, o) == file
  }

  /**
   The files of the world are those offered. They are long enough for generate_tfile, none has the hash
   that marks an empty slot, and no other bytes have the hash of one of them or of one of their chunks.
   */
  ghost predicate SetupOk(c: Setup) {
    && (forall o :: o in c.offers ==> OfferOk(c, o))
    && (forall h :: h in c.world ==> FileOk(c.md5, h, c.world[h]) && exists path :: OfferedAs(c, c.world[h], path))
  }

  ghost predicate FileOk(md5: Md5, h: Digest, file: seq<Byte>) {
    md5(file) == h != ZERO && |file| >= MIN_SIZE && UnforgeableFile(md5, file)
  }

  /** Files offered under one name are the same. */
  ghost predicate NamesClean(c: Setup) {
    forall o, p :: o in c.offers && p in c.offers && o.path == p.path && o.node < |c.disks| && p.node < |c.disks| ==>
                     Content(c, o) == Content(c, p)
  }

  /** Files offered under one name are of one length. */
  ghost predicate SizesClean(c: Setup) {
    forall o, p :: o in c.offers && p in c.offers && o.path == p.path && o.node < |c.disks| && p.node < |c.disks| ==>
                     |Content(c, o)| == |Content(c, p)|
  }

  lemma CleanSizes(c: Setup)
    requires NamesClean(c)
    ensures SizesClean(c)
  {}

  function Start(c: Setup): State {
    State(seq(|c.disks|, n requires 0 <= n < |c.disks| => Node(map[], c.disks[n])), {}, {})
  }

  predicate Enabled(c: Setup, s: State, act: Act) {
    act.node < |s.nodes| && act.node !in s.down &&
    var node := s.nodes[act.node];
    match act
    case Publish(n, path) =>
      && Offer(n, path) in c.offers && n < |c.disks|
      && path in node.disk && node.disk[path] == Content(c, Offer(n, path))
      && c.md5(node.disk[path]) !in node.entries
    case Learn(n, def) => DefMsg(def) in s.sent
    case Ask(n, h, i, stale) => h in node.entries && i < NUM_CHUNKS && !Reports(c.md5, node, h, stale, i)
    case Answer(n, r, _) => r in s.sent && r.RequestMsg?
    case Take(n, payload, leftover, _) =>
      DataMsg(n, payload) in s.sent && HEADER_SIZE <= |payload| && InBuffer(payload, leftover)
    case Save(_, h) => h in node.entries
  }

  /** The payload overruns the worker's buffer, or it and what the buffer held before fill it. */
  predicate InBuffer(payload: seq<Byte>, leftover: seq<Byte>) {
    |payload| > Framing.BUFFER || |payload| + |leftover| == Framing.BUFFER
  }

  function Next(c: Setup, s: State, act: Act): State
    requires Enabled(c, s, act)
  {
    var node := s.nodes[act.node];
    match act
    case Publish(n, path) =>
      var def := Describe(c.md5, path, node.disk[path]);
      s.(nodes := s.nodes[n := WithEntry(node, Slot(def, Some(path), false))], sent := s.sent + {DefMsg(def)})
    case Learn(n, def) =>
      if def.fHash in node.entries then s
      else s.(nodes := s.nodes[n := WithEntry(node, Slot(def, None, false))])
    case Ask(n, h, i, _) =>
      if CannotVerify(node, h) then s.(down := s.down + {n})
      else s.(sent := s.sent + {RequestMsg(h, i, n)})
    case Answer(n, r, stale) =>
      var (verdict, after) := Requested(c.md5, node, r.hash, r.index, stale);
      if verdict.Crashed? then s.(down := s.down + {n})
      else if verdict.Relayed? || verdict.payload.None? then s.(nodes := s.nodes[n := after])
      else s.(nodes := s.nodes[n := after], sent := s.sent + {DataMsg(r.origin, verdict.payload.value)})
    case Take(n, payload, leftover, stale) =>
      var (effect, after) := Taken(c.md5, node, payload, leftover, stale);
      s.(nodes := s.nodes[n := after], down := if effect.Fault? then s.down + {n} else s.down)
    case Save(n, h) => s.(nodes := s.nodes[n := SavedIn(node, h)])
  }

  function WithEntry(n: Node, s: Slot): Node {
    n.(entries := n.entries[s.def.fHash := s])
  }

  /** Receiving a payload into the buffer, and the FILE_DATA branch on what is then in it. */
  function Taken(md5: Md5, n: Node, payload: seq<Byte>, leftover: seq<Byte>, stale: ChunkHashes): (Effect, Node)
    requires HEADER_SIZE <= |payload|
  {
    if |payload| > Framing.BUFFER then (Fault, n) else Handled(md5, n, Decode(payload + leftover), stale)
  }

  predicate IsRun(c: Setup, acts: seq<Act>)
    decreases |acts|, 0
  {
    acts == [] ||
    (IsRun(c, acts[..|acts| - 1]) && Enabled(c, Final(c, acts[..|acts| - 1]), acts[|acts| - 1]))
  }

  function Final(c: Setup, acts: seq<Act>): State
    requires IsRun(c, acts)
    decreases |acts|, 1
  {
    if acts == [] then Start(c) else Next(c, Final(c, acts[..|acts| - 1]), acts[|acts| - 1])
  }

  // ---------- The invariant ----------

  /** A definition that generate_tfile made for an offered file. */
  ghost predicate TrueDef(c: Setup, def: TDef) {
    && def.fHash in c.world && def == Describe(c.md5, def.name, c.world[def.fHash])
    && OfferedAs(c, c.world[def.fHash], def.name)
  }

  /** A view with a true definition, and bytes (if any) of the defined length. */
  ghost predicate TrueView(c: Setup, h: Digest, v: View) {
    && v.def.fHash == h && TrueDef(c, v.def)
    && (v.content.Some? ==> |v.content.value| == v.def.size)
  }

  /** An entry with a true definition, at a path its file is offered under, and with all its bytes once opened. */
  ghost predicate EntryOk(c: Setup, h: Digest, s: Slot, disk: Disk) {
    && s.def.fHash == h && TrueDef(c, s.def) && OfferedAs(c, c.world[h], PathOf(s))
    && (s.mapped ==> s.fLoc.Some? && s.def.size > 0)
    && (s.fLoc.Some? ==> PathOf(s) in disk && |disk[PathOf(s)]| == s.def.size)
  }

  ghost predicate NodeOk(c: Setup, n: Node) {
    forall h :: h in n.entries ==> EntryOk(c, h, n.entries[h], n.disk)
  }

  /** A payload that carries the true bytes of a chunk of a published file, and their number up to 32 bits. */
  predicate TruePayload(world: World, payload: seq<Byte>) {
    && |payload| >= HEADER_SIZE
    && var p := Decode(payload);
       && p.hash in world && 0 <= p.index < NUM_CHUNKS
       && p.data == Slice(world[p.hash], p.index) && p.declared == |p.data| % 0x1_0000_0000
  }

  ghost predicate TrueMessage(c: Setup, m: Message) {
    match m
    case DefMsg(def) => TrueDef(c, def)
    case RequestMsg(_, _, _) => true
    case DataMsg(_, payload) => TruePayload(c.world, payload)
  }

  /** Requests, and so their answers, name an asker that has the definition. */
  predicate Asked(nodes: seq<Node>, m: Message) {
    match m
    case DefMsg(_) => true
    case RequestMsg(h, _, origin) => origin < |nodes| && h in nodes[origin].entries
    case DataMsg(dst, payload) =>
      dst < |nodes| && |payload| >= HEADER_SIZE && Decode(payload).hash in nodes[dst].entries
  }

  ghost predicate Inv(c: Setup, s: State) {
    && |s.nodes| == |c.disks|
    && (forall n :: 0 <= n < |s.nodes| ==> NodeOk(c, s.nodes[n]))
    && (forall m :: m in s.sent ==> TrueMessage(c, m) && Asked(s.nodes, m))
  }

  /** Where names are clean, no two definitions are on one path. */
  lemma PathsDiffer(c: Setup, n: Node, d: Digest, e: Digest)
    requires SetupOk(c) && NamesClean(c) && NodeOk(c, n) && d in n.entries && e in n.entries && d != e
    ensures PathOf(n.entries[d]) != PathOf(n.entries[e])
  {
    hide Describe, UnforgeableFile;
    assert EntryOk(c, d, n.entries[d], n.disk) && EntryOk(c, e, n.entries[e], n.disk);
    assert FileOk(c.md5, d, c.world[d]) && FileOk(c.md5, e, c.world[e]);
  }

  lemma EntryIs(c: Setup, n: Node, h: Digest)
    requires NodeOk(c, n) && h in n.entries
    ensures EntryOk(c, h, n.entries[h], n.disk) && SlotOk(h, n.entries[h]) && !Cut(n.entries[h], n.disk)
    ensures TrueView(c, h, ViewIn(n, h))
  {
    hide TrueDef;
  }

  lemma TrueViewKnown(c: Setup, h: Digest, v: View)
    requires TrueView(c, h, v)
    ensures h in c.world && v.def.fHash == h && v.def == Describe(c.md5, v.def.name, c.world[h])
    ensures v.content.Some? ==> |v.content.value| == v.def.size
  {}

  /** On bytes of the defined length stale entries have no say. */
  lemma HasIsSecure(md5: Md5, v: View, stale: ChunkHashes, i: nat)
    requires i < NUM_CHUNKS && (v.content.Some? ==> |v.content.value| == v.def.size)
    ensures Has(md5, v, stale, i) <==> Secure(md5, v, i)
  {
    hide Secure, Foolable;
    if v.content.Some? {
      SecureBySlice(md5, v.def, v.content.value, v.found, i);
      MeaningOfVerified(md5, v, stale, i);
    } else {
      NoContentInsecure(md5, v, i);
    }
  }

  lemma NoContentInsecure(md5: Md5, v: View, i: nat)
    requires i < NUM_CHUNKS && v.content.None?
    ensures !Secure(md5, v, i)
  {}

  /** Bytes that verify as a chunk of a published file are that chunk. */
  lemma VerifiedIsTrue(md5: Md5, file: seq<Byte>, v: View, stale: ChunkHashes, i: nat)
    requires UnforgeableFile(md5, file) && v.def == Describe(md5, v.def.name, file) && i < NUM_CHUNKS
    requires v.content.Some? && |v.content.value| == v.def.size && Has(md5, v, stale, i)
    ensures Slice(v.content.value, i) == Slice(file, i)
  {
    hide Slice, Secure, Has;
    HasIsSecure(md5, v, stale, i);
    SecureBySlice(md5, v.def, v.content.value, v.found, i);
  }

  /** A file all of whose chunks verify is the published file. */
  lemma CompleteIsTrue(md5: Md5, file: seq<Byte>, v: View, stale: ChunkHashes)
    requires UnforgeableFile(md5, file) && v.def == Describe(md5, v.def.name, file)
    requires v.content.Some? ==> |v.content.value| == v.def.size
    requires HasAll(md5, v, stale)
    ensures v.content == Some(file)
  {
    hide Slice, Length, Offset;
    assert Has(md5, v, stale, 0);
    forall i | 0 <= i < NUM_CHUNKS ensures Slice(v.content.value, i) == Slice(file, i) {
      VerifiedIsTrue(md5, file, v, stale, i);
    }
    SlicesDetermineFile(v.content.value, file);
  }

  lemma OpenedIsContent(v: View)
    requires v.content.Some? && |v.content.value| == v.def.size
    ensures Opened(v) == v.content.value
  {}

  /** A node answers with the true bytes of the chunk. */
  lemma AnswerIsTrue(c: Setup, h: Digest, v: View, stale: ChunkHashes, i: nat)
    requires SetupOk(c) && TrueView(c, h, v) && i < NUM_CHUNKS && Has(c.md5, v, stale, i)
    ensures v.content == Some(Opened(v)) && Slice(Opened(v), i) == Slice(c.world[h], i)
  {
    hide Length, Offset;
    assert FileOk(c.md5, h, c.world[h]);
    assert v.content.Some?;
    OpenedIsContent(v);
    VerifiedIsTrue(c.md5, c.world[h], v, stale, i);
  }

  lemma TruePayloads(world: World, h: Digest, i: nat)
    requires h in world && i < NUM_CHUNKS
    ensures var payload := Encode(h, i, Slice(world[h], i));
            TruePayload(world, payload) && Decode(payload).hash == h && Decode(payload).index == i
  {
    hide Encode, Decode, Slice;
    var data := Slice(world[h], i);
    DecodeEncode(h, i, data, []);
    assert Encode(h, i, data) + [] == Encode(h, i, data) && data + [] == data;
  }

  lemma LeftoverHarmless(payload: seq<Byte>, leftover: seq<Byte>)
    requires |payload| >= HEADER_SIZE
    ensures var (p, q) := (Decode(payload), Decode(payload + leftover));
            q == p.(data := p.data + leftover)
  {
    hide FromLe, SwapWord;
    var buffer := payload + leftover;
    assert buffer[..16] == payload[..16] && buffer[16..20] == payload[16..20] && buffer[20..24] == payload[20..24];
    assert buffer[24..] == payload[24..] + leftover;
  }

  function ArrivalOf(p: Payload, stale: ChunkHashes): Arrival {
    Arrival(p.index, p.declared, p.data, stale)
  }

  /** A true payload that the buffer holds is an authentic arrival, whatever follows it there. */
  lemma TrueArrival(world: World, payload: seq<Byte>, leftover: seq<Byte>, stale: ChunkHashes)
    requires TruePayload(world, payload) && |payload| <= Framing.BUFFER
    ensures var p := Decode(payload + leftover);
            && p.hash == Decode(payload).hash && p.index == Decode(payload).index
            && Authentic(world[p.hash], ArrivalOf(p, stale))
  {
    hide Decode, Slice;
    LeftoverHarmless(payload, leftover);
    DecodedLength(payload);
  }

  lemma DecodedLength(payload: seq<Byte>)
    requires |payload| >= HEADER_SIZE
    ensures |Decode(payload).data| == |payload| - HEADER_SIZE
  {}

  /**
   Taking in a true payload for a true view that the buffer holds never faults, secures the chunk it
   carries, keeps every secure one, and leaves a true view.
   */
  lemma TakeIsTrue(c: Setup, v: View, payload: seq<Byte>, leftover: seq<Byte>, stale: ChunkHashes, j: nat)
    requires TruePayload(c.world, payload) && |payload| <= Framing.BUFFER
    requires TrueView(c, Decode(payload).hash, v) && j < NUM_CHUNKS
    ensures var p := Decode(payload + leftover);
            var (effect, after) := Deliver(c.md5, v, ArrivalOf(p, stale));
            && p.hash == Decode(payload).hash && p.index == Decode(payload).index
            && !effect.Fault? && TrueView(c, p.hash, after)
            && (p.index == j || Secure(c.md5, v, j) ==> Secure(c.md5, after, j))
  {
    hide Deliver, Describe, Secure, Has, Authentic, Slice, Decode, Fits, OfferedAs;
    TrueArrival(c.world, payload, leftover, stale);
    var p := Decode(payload + leftover);
    var arrival := ArrivalOf(p, stale);
    AuthenticIndex(c.world[p.hash], arrival);
    AuthenticDeliverySecures(c.md5, c.world[p.hash], v, arrival);
    HasIsSecure(c.md5, v, stale, p.index);
    FittingNeverFaults(c.md5, v, arrival);
    if Secure(c.md5, v, j) {
      DeliveryKeepsSecure(c.md5, v, arrival, j);
    }
    DeliveredLength(c.md5, v, arrival);
  }

  lemma DeliveredLength(md5: Md5, v: View, p: Arrival)
    requires (v.content.Some? ==> |v.content.value| == v.def.size) && 0 <= p.index < NUM_CHUNKS
    ensures var after := Deliver(md5, v, p).1;
            after.def == v.def && (after.content.Some? ==> |after.content.value| == v.def.size)
  {}

  // ---------- Every step keeps it ----------

  /** Where sizes are clean, definitions on one path are of one size. */
  lemma SizesAgree(c: Setup, n: Node, d: Digest, e: Digest)
    requires SizesClean(c) && NodeOk(c, n) && d in n.entries && e in n.entries
    requires PathOf(n.entries[d]) == PathOf(n.entries[e])
    ensures n.entries[d].def.size == n.entries[e].def.size
  {
    hide Describe;
    assert EntryOk(c, d, n.entries[d], n.disk) && EntryOk(c, e, n.entries[e], n.disk);
    DescribeNamed(c.md5, n.entries[d].def.name, c.world[d]);
    DescribeNamed(c.md5, n.entries[e].def.name, c.world[e]);
  }

  /** An operation on entry d that keeps its bytes at their length spoils no entry of the node. */
  lemma OperationKeepsNode(c: Setup, n: Node, n': Node, d: Digest)
    requires SetupOk(c) && SizesClean(c) && NodeOk(c, n) && d in n.entries && OnlyAt(d, n, n')
    requires EntryOk(c, d, n'.entries[d], n'.disk) && (n'.entries[d].fLoc.None? ==> n' == n)
    ensures NodeOk(c, n')
  {
    hide EntryOk, ViewIn, Cut, SetupOk, SizesClean;
    forall h | h in n'.entries ensures EntryOk(c, h, n'.entries[h], n'.disk) {
      if h != d {
        if PathOf(n.entries[h]) == PathOf(n.entries[d]) {
          SizesAgree(c, n, d, h);
          SamePathEntryOk(c, n, n', d, h);
        } else {
          OtherEntryOk(c, n, n', d, h);
        }
      }
    }
  }

  lemma SamePathEntryOk(c: Setup, n: Node, n': Node, d: Digest, h: Digest)
    requires d in n.entries && OnlyAt(d, n, n') && h in n.entries && h != d
    requires PathOf(n.entries[h]) == PathOf(n.entries[d]) && n.entries[h].def.size == n.entries[d].def.size
    requires EntryOk(c, h, n.entries[h], n.disk) && EntryOk(c, d, n'.entries[d], n'.disk)
    requires n'.entries[d].fLoc.None? ==> n' == n
    ensures h in n'.entries && EntryOk(c, h, n'.entries[h], n'.disk)
  {
    hide TrueDef, OfferedAs;
  }

  lemma OtherEntryOk(c: Setup, n: Node, n': Node, d: Digest, h: Digest)
    requires d in n.entries && OnlyAt(d, n, n') && h in n.entries && h != d
    requires PathOf(n.entries[h]) != PathOf(n.entries[d]) && EntryOk(c, h, n.entries[h], n.disk)
    ensures h in n'.entries && EntryOk(c, h, n'.entries[h], n'.disk)
  {
    hide TrueDef, OfferedAs;
    var path := PathOf(n.entries[h]);
    assert path in n.disk ==> path in n'.disk && FileAt(n'.disk, path) == FileAt(n.disk, path);
  }

  lemma OpenedEntryOk(c: Setup, n: Node, d: Digest)
    requires d in n.entries && EntryOk(c, d, n.entries[d], n.disk)
    ensures EntryOk(c, d, OpenedIn(n, d).entries[d], OpenedIn(n, d).disk) && OpenedIn(n, d).entries[d].fLoc.Some?
  {
    hide TrueDef, OfferedAs, Fit;
  }

  lemma HandledEntryOk(c: Setup, n: Node, p: Payload, stale: ChunkHashes)
    requires p.hash in n.entries && EntryOk(c, p.hash, n.entries[p.hash], n.disk)
    ensures var after := Handled(c.md5, n, p, stale).1;
            && p.hash in after.entries && EntryOk(c, p.hash, after.entries[p.hash], after.disk)
            && (after.entries[p.hash].fLoc.None? ==> after == n)
  {
    hide TrueDef, OfferedAs, Fit, Has;
    OpenedEntryOk(c, n, p.hash);
  }

  /** A node that gets more entries, or operates on one, and messages that are true, keep the invariant. */
  lemma UpdateKeepsInv(c: Setup, s: State, n: nat, node: Node, s': State)
    requires Inv(c, s) && n < |s.nodes| && NodeOk(c, node) && s.nodes[n].entries.Keys <= node.entries.Keys
    requires s'.nodes == s.nodes[n := node]
    requires forall m :: m in s'.sent && m !in s.sent ==> TrueMessage(c, m) && Asked(s'.nodes, m)
    ensures Inv(c, s')
  {
    hide NodeOk, TrueMessage, Decode;
    forall m | m in s.sent ensures Asked(s'.nodes, m) {
      assert Asked(s.nodes, m);
    }
  }

  lemma PublishKeepsInv(c: Setup, s: State, act: Act)
    requires SetupOk(c) && SizesClean(c) && Inv(c, s) && Enabled(c, s, act) && act.Publish?
    ensures Inv(c, Next(c, s, act))
  {
    hide Describe, Decode, UnforgeableFile, Reports;
    var node, path := s.nodes[act.node], act.path;
    var file, def := node.disk[path], Describe(c.md5, path, node.disk[path]);
    assert OfferOk(c, Offer(act.node, path));
    DescribeNamed(c.md5, path, file);
    assert OfferedAs(c, file, path);
    var slot := Slot(def, Some(path), false);
    UpdateKeepsInv(c, s, act.node, WithEntry(node, slot), Next(c, s, act));
  }

  lemma DescribeNamed(md5: Md5, name: string, file: seq<Byte>)
    ensures var def := Describe(md5, name, file);
            def.name == name && def.fHash == md5(file) && def.size == |file|
  {}

  lemma LearnKeepsInv(c: Setup, s: State, act: Act)
    requires Inv(c, s) && Enabled(c, s, act) && act.Learn?
    ensures Inv(c, Next(c, s, act))
  {
    hide TrueDef, Decode, Reports, TruePayload, OfferedAs;
    var node, slot := s.nodes[act.node], Slot(act.def, None, false);
    assert TrueMessage(c, DefMsg(act.def));
    if act.def.fHash !in node.entries {
      LearntEntryOk(c, act.def, node.disk);
      UpdateKeepsInv(c, s, act.node, WithEntry(node, slot), Next(c, s, act));
    }
  }

  lemma LearntEntryOk(c: Setup, def: TDef, disk: Disk)
    requires TrueDef(c, def)
    ensures EntryOk(c, def.fHash, Slot(def, None, false), disk)
  {}

  /** A node that has the chunk answers with its true payload; one that has not does nothing. */
  lemma AnsweringIsTrue(c: Setup, n: Node, h: Digest, index: int, stale: ChunkHashes)
    requires SetupOk(c) && NodeOk(c, n)
    ensures var (verdict, after) := Requested(c.md5, n, h, index, stale);
            && !verdict.Crashed? && (verdict.Relayed? ==> after == n)
            && (verdict.Answered? <==>
                  0 <= index < NUM_CHUNKS && h in n.entries && Secure(c.md5, ViewIn(n, h), index))
            && (verdict.Answered? ==>
                  && h in n.entries && h in c.world && 0 <= index < NUM_CHUNKS && after == OpenedIn(n, h)
                  && verdict.payload == Some(Encode(h, index, Slice(c.world[h], index))))
  {
    hide Has, Secure, Encode, Slice, Opened, TrueDef, ViewIn, OpenedIn, SetupOk;
    if h in n.entries {
      EntryIs(c, n, h);
      var v := ViewIn(n, h);
      assert v.def == n.entries[h].def by { ViewDefinition(n, h); }
      if 0 <= index < NUM_CHUNKS {
        TrueViewLength(c, h, v);
        HasIsSecure(c.md5, v, stale, index);
        if Has(c.md5, v, stale, index) {
          AnswerIsTrue(c, h, v, stale, index);
          NoEmptyChunk(c, h, v, index);
        }
      }
    }
  }

  lemma ViewDefinition(n: Node, h: Digest)
    requires h in n.entries
    ensures ViewIn(n, h).def == n.entries[h].def
  {}

  lemma TrueViewLength(c: Setup, h: Digest, v: View)
    requires TrueView(c, h, v)
    ensures v.content.Some? ==> |v.content.value| == v.def.size
  {}

  lemma NoEmptyChunk(c: Setup, h: Digest, v: View, i: nat)
    requires SetupOk(c) && TrueView(c, h, v) && i < NUM_CHUNKS
    ensures h in c.world && Length(v.def.size, i) > 0
  {
    hide UnforgeableFile;
    assert FileOk(c.md5, h, c.world[h]);
    DescribeNamed(c.md5, v.def.name, c.world[h]);
    ChunkLengths(v.def.size, i);
  }

  lemma AnswerKeepsInv(c: Setup, s: State, act: Act)
    requires SetupOk(c) && SizesClean(c) && Inv(c, s) && Enabled(c, s, act) && act.Answer?
    ensures Inv(c, Next(c, s, act))
  {
    hide SetupOk, SizesClean, TrueDef, Encode, Decode, Slice, Secure, Requested, Reports, ViewIn, OnlyAt, OpenedIn,
         OfferedAs, EntryOk, TruePayload;
    var node, r := s.nodes[act.node], act.request;
    assert Asked(s.nodes, r);
    AnsweringIsTrue(c, node, r.hash, r.index, act.stale);
    var (verdict, after) := Requested(c.md5, node, r.hash, r.index, act.stale);
    if verdict.Answered? {
      OpenedOnlyAt(node, r.hash);
      OnlyAtKeys(r.hash, node, after);
      OpenedEntryOk(c, node, r.hash);
      OperationKeepsNode(c, node, after, r.hash);
      TruePayloads(c.world, r.hash, r.index);
      TruePayloadLong(c.world, verdict.payload.value);
      UpdateKeepsInv(c, s, act.node, after, Next(c, s, act));
    }
  }

  lemma TruePayloadLong(world: World, payload: seq<Byte>)
    requires TruePayload(world, payload)
    ensures |payload| >= HEADER_SIZE
  {}

  lemma OnlyAtKeys(d: Digest, n: Node, n': Node)
    requires d in n.entries && OnlyAt(d, n, n')
    ensures n'.entries.Keys == n.entries.Keys && d in n'.entries
  {}

  lemma TakeKeepsInv(c: Setup, s: State, act: Act)
    requires SetupOk(c) && SizesClean(c) && Inv(c, s) && Enabled(c, s, act) && act.Take?
    ensures Inv(c, Next(c, s, act))
  {
    hide SetupOk, SizesClean, TrueDef, Decode, TruePayload, Handled, Reports, OnlyAt, OfferedAs, EntryOk;
    var node, m := s.nodes[act.node], DataMsg(act.node, act.payload);
    var s' := Next(c, s, act);
    assert TrueMessage(c, m) && Asked(s.nodes, m);
    if |act.payload| <= Framing.BUFFER {
      LeftoverHarmless(act.payload, act.leftover);
      var p := Decode(act.payload + act.leftover);
      var after := Handled(c.md5, node, p, act.stale).1;
      HandledOnlyAt(c.md5, node, p, act.stale);
      OnlyAtKeys(p.hash, node, after);
      HandledEntryOk(c, node, p, act.stale);
      OperationKeepsNode(c, node, after, p.hash);
      UpdateKeepsInv(c, s, act.node, after, s');
    } else {
      assert s'.nodes == s.nodes;
    }
  }

  lemma SaveKeepsInv(c: Setup, s: State, act: Act)
    requires SetupOk(c) && SizesClean(c) && Inv(c, s) && Enabled(c, s, act) && act.Save?
    ensures Inv(c, Next(c, s, act))
  {
    hide SetupOk, SizesClean, TrueDef, Decode, TruePayload, Reports, OfferedAs;
    var node, after := s.nodes[act.node], SavedIn(s.nodes[act.node], act.hash);
    assert EntryOk(c, act.hash, node.entries[act.hash], node.disk);
    OperationKeepsNode(c, node, after, act.hash);
    UpdateKeepsInv(c, s, act.node, after, Next(c, s, act));
  }

  /** Every step keeps definitions, paths, lengths and payloads true, and answers addressed to who asked. */
  lemma NextKeepsInv(c: Setup, s: State, act: Act)
    requires SetupOk(c) && SizesClean(c) && Inv(c, s) && Enabled(c, s, act)
    ensures Inv(c, Next(c, s, act))
  {
    hide SetupOk, SizesClean, Describe, Reports, Decode, Requested, Taken, NodeOk;
    match act {
      case Publish(n, path) => PublishKeepsInv(c, s, act);
      case Learn(n, def) => LearnKeepsInv(c, s, act);
      case Ask(n, h, i, _) =>
      case Answer(n, r, stale) => AnswerKeepsInv(c, s, act);
      case Take(n, payload, leftover, stale) => TakeKeepsInv(c, s, act);
      case Save(n, h) => SaveKeepsInv(c, s, act);
    }
  }

  lemma {:induction false} RunKeepsInv(c: Setup, acts: seq<Act>)
    requires SetupOk(c) && SizesClean(c) && IsRun(c, acts)
    ensures Inv(c, Final(c, acts))
  {
    hide SetupOk, SizesClean, Inv, Next, Enabled;
    if acts == [] {
      StartInv(c);
    } else {
      RunKeepsInv(c, acts[..|acts| - 1]);
      NextKeepsInv(c, Final(c, acts[..|acts| - 1]), acts[|acts| - 1]);
    }
  }

  lemma StartInv(c: Setup)
    ensures Inv(c, Start(c))
  {}

  // ---------- What it gives ----------

  /** In every run each chunk payload ever sent is the true slice of the published file. */
  lemma PayloadsAreTrue(c: Setup, acts: seq<Act>, dst: nat, payload: seq<Byte>)
    requires SetupOk(c) && SizesClean(c) && IsRun(c, acts) && DataMsg(dst, payload) in Final(c, acts).sent
    ensures TruePayload(c.world, payload)
  {
    hide TruePayload, IsRun, Final, SetupOk, SizesClean;
    RunKeepsInv(c, acts);
    assert TrueMessage(c, DataMsg(dst, payload));
  }

  /** In every run, a node at which the download loop can end has exactly the published file. */
  lemma DownloadIsExact(c: Setup, acts: seq<Act>, node: nat, h: Digest, stale: ChunkHashes)
    requires SetupOk(c) && SizesClean(c) && IsRun(c, acts)
    requires var s := Final(c, acts);
             node < |s.nodes| && h in s.nodes[node].entries && HasAll(c.md5, ViewIn(s.nodes[node], h), stale)
    ensures h in c.world && ViewIn(Final(c, acts).nodes[node], h).content == Some(c.world[h])
  {
    hide IsRun, Final, Describe, HasAll, ViewIn, SizesClean, UnforgeableFile;
    RunKeepsInv(c, acts);
    EntryIs(c, Final(c, acts).nodes[node], h);
    var v := ViewIn(Final(c, acts).nodes[node], h);
    TrueViewKnown(c, h, v);
    assert FileOk(c.md5, h, c.world[h]);
    CompleteIsTrue(c.md5, c.world[h], v, stale);
  }

  /** Chunk i of h is at node n. */
  predicate Holds(c: Setup, s: State, n: nat, h: Digest, i: nat) {
    && n < |s.nodes| && h in s.nodes[n].entries && i < NUM_CHUNKS
    && Secure(c.md5, ViewIn(s.nodes[n], h), i)
  }

  ghost predicate LosesNothing(c: Setup, s: State, s': State) {
    forall n, h, i :: Holds(c, s, n, h, i) ==> Holds(c, s', n, h, i)
  }

  /** An operation on entry d leaves what the node has of its other files. */
  lemma OthersHold(c: Setup, n: Node, n': Node, d: Digest, e: Digest)
    requires SetupOk(c) && NamesClean(c) && NodeOk(c, n) && d in n.entries && OnlyAt(d, n, n')
    requires e in n.entries && e != d
    ensures e in n'.entries && ViewIn(n', e) == ViewIn(n, e)
  {
    PathsDiffer(c, n, d, e);
    OtherPathsKept(d, n, n', e);
  }

  /** Taking in a payload that was sent goes wrong exactly when it exceeds the buffer; else it gains its chunk. */
  lemma TakeGains(c: Setup, s: State, take: Act)
    requires Inv(c, s) && take.Take? && Enabled(c, s, take)
    ensures var p, s' := Decode(take.payload), Next(c, s, take);
            && (take.node in s'.down <==> |take.payload| > Framing.BUFFER)
            && p.hash in s.nodes[take.node].entries && 0 <= p.index < NUM_CHUNKS
            && (|take.payload| <= Framing.BUFFER ==>
                  Holds(c, s', take.node, p.hash, p.index)
                  && forall j: nat :: Holds(c, s, take.node, p.hash, j) ==> Holds(c, s', take.node, p.hash, j))
  {
    hide TrueDef, Decode, Slice, Handled, Deliver, Secure, ViewIn, Reports, EntryOk;
    var node, m := s.nodes[take.node], DataMsg(take.node, take.payload);
    assert TrueMessage(c, m) && Asked(s.nodes, m);
    if |take.payload| <= Framing.BUFFER {
      LeftoverHarmless(take.payload, take.leftover);
      var p := Decode(take.payload + take.leftover);
      EntryIs(c, node, p.hash);
      HandledIsDeliver(c.md5, node, p, take.stale);
      var index: nat := p.index;
      forall j: nat | j < NUM_CHUNKS
        ensures Secure(c.md5, ViewIn(node, p.hash), j) || j == index ==>
                  Secure(c.md5, ViewIn(Handled(c.md5, node, p, take.stale).1, p.hash), j)
      {
        TakeIsTrue(c, ViewIn(node, p.hash), take.payload, take.leftover, take.stale, j);
      }
      TakeIsTrue(c, ViewIn(node, p.hash), take.payload, take.leftover, take.stale, index);
    }
  }

  lemma TakeLosesNothing(c: Setup, s: State, take: Act, h: Digest, i: nat)
    requires SetupOk(c) && NamesClean(c) && Inv(c, s) && take.Take? && Enabled(c, s, take)
    requires Holds(c, s, take.node, h, i)
    ensures Holds(c, Next(c, s, take), take.node, h, i)
  {
    hide SetupOk, NamesClean, Decode, Handled, Secure, ViewIn, OnlyAt, NodeOk, Reports, TruePayload;
    TakeGains(c, s, take);
    if |take.payload| <= Framing.BUFFER && Decode(take.payload).hash != h {
      var node, p := s.nodes[take.node], Decode(take.payload + take.leftover);
      LeftoverHarmless(take.payload, take.leftover);
      HandledOnlyAt(c.md5, node, p, take.stale);
      OthersHold(c, node, Handled(c.md5, node, p, take.stale).1, p.hash, h);
    }
  }

  lemma AnswerLosesNothing(c: Setup, s: State, act: Act, h: Digest, i: nat)
    requires SetupOk(c) && NamesClean(c) && Inv(c, s) && act.Answer? && Enabled(c, s, act)
    requires Holds(c, s, act.node, h, i)
    ensures Holds(c, Next(c, s, act), act.node, h, i)
  {
    hide NamesClean, Requested, Secure, ViewIn, OnlyAt, NodeOk, Reports, TruePayload, OpenedIn, Encode, Slice, TrueDef,
         Opened, UnforgeableFile;
    var node, r := s.nodes[act.node], act.request;
    AnsweringIsTrue(c, node, r.hash, r.index, act.stale);
    if Requested(c.md5, node, r.hash, r.index, act.stale).0.Answered? {
      OpenedOnlyAt(node, r.hash);
      if r.hash == h {
        EntryIs(c, node, h);
        OpenedKeepsSecure(c, node, h, i);
      } else {
        OthersHold(c, node, OpenedIn(node, r.hash), r.hash, h);
      }
      OnlyAtKeys(r.hash, node, OpenedIn(node, r.hash));
    }
  }

  lemma OpenedKeepsSecure(c: Setup, n: Node, h: Digest, i: nat)
    requires NodeOk(c, n) && h in n.entries && i < NUM_CHUNKS && Secure(c.md5, ViewIn(n, h), i)
    ensures h in OpenedIn(n, h).entries && Secure(c.md5, ViewIn(OpenedIn(n, h), h), i)
  {
    hide TrueDef, HashOfRange, OfferedAs;
    EntryIs(c, n, h);
    OpenedIsContent(ViewIn(n, h));
    OpeningIsOpened(n, h);
  }

  /** Saving unmaps the file at its node and changes nothing else anywhere. */
  lemma SaveUnmaps(c: Setup, s: State, act: Act)
    requires act.Save? && Enabled(c, s, act)
    ensures var (node, s') := (s.nodes[act.node], Next(c, s, act));
            && s' == s.(nodes := s'.nodes) && |s'.nodes| == |s.nodes|
            && (forall n :: 0 <= n < |s.nodes| && n != act.node ==> s'.nodes[n] == s.nodes[n])
            && s'.nodes[act.node].disk == node.disk && s'.nodes[act.node].entries.Keys == node.entries.Keys
            && s'.nodes[act.node].entries[act.hash] == node.entries[act.hash].(mapped := false)
            && forall h :: h in node.entries && h != act.hash ==> s'.nodes[act.node].entries[h] == node.entries[h]
  {
    SavedUnmaps(s.nodes[act.node], act.hash);
  }

  lemma SaveLosesNothing(c: Setup, s: State, act: Act, h: Digest, i: nat)
    requires SetupOk(c) && NamesClean(c) && Inv(c, s) && act.Save? && Enabled(c, s, act)
    requires Holds(c, s, act.node, h, i)
    ensures Holds(c, Next(c, s, act), act.node, h, i)
  {
    hide TrueDef, Secure, OfferedAs, Reports, TruePayload;
    var node := s.nodes[act.node];
    assert EntryOk(c, act.hash, node.entries[act.hash], node.disk);
    if act.hash == h {
      SavingKeepsViewIff(node, h);
    } else {
      OthersHold(c, node, SavedIn(node, act.hash), act.hash, h);
    }
  }

  /** No step of anybody ever loses a secure chunk at any node. */
  lemma NextKeepsSecure(c: Setup, s: State, act: Act)
    requires SetupOk(c) && NamesClean(c) && Inv(c, s) && Enabled(c, s, act)
    ensures |Next(c, s, act).nodes| == |s.nodes| && s.sent <= Next(c, s, act).sent
    ensures forall n, h :: 0 <= n < |s.nodes| && h in s.nodes[n].entries ==> h in Next(c, s, act).nodes[n].entries
    ensures LosesNothing(c, s, Next(c, s, act))
  {
    hide SetupOk, NamesClean, Inv, Describe, Secure, Reports, TruePayload, Handled, Requested, CannotVerify;
    var s' := Next(c, s, act);
    NextKeepsEntries(c, s, act);
    forall n: nat, h, i: nat | Holds(c, s, n, h, i) ensures Holds(c, s', n, h, i) {
      if n == act.node {
        match act {
          case Take(_, _, _, _) => TakeLosesNothing(c, s, act, h, i);
          case Answer(_, _, _) => AnswerLosesNothing(c, s, act, h, i);
          case Save(_, _) => SaveLosesNothing(c, s, act, h, i);
          case Publish(_, path) => DescribeNamed(c.md5, path, s.nodes[n].disk[path]);
          case _ =>
        }
      }
    }
  }

  lemma NextKeepsEntries(c: Setup, s: State, act: Act)
    requires Enabled(c, s, act)
    ensures |Next(c, s, act).nodes| == |s.nodes| && s.sent <= Next(c, s, act).sent
    ensures forall n, h :: 0 <= n < |s.nodes| && h in s.nodes[n].entries ==> h in Next(c, s, act).nodes[n].entries
  {
    hide Describe, Has, Opened, Encode, Slice, Fit;
  }

  /**
   A step changes one node, and takes it down exactly if it verifies a mapping that its file does not fill,
   gets a payload the buffer does not hold, or copies outside the buffer or the file.
   */
  lemma StepIsLocal(c: Setup, s: State, act: Act)
    requires Enabled(c, s, act)
    ensures forall m :: 0 <= m < |s.nodes| && m != act.node ==> Next(c, s, act).nodes[m] == s.nodes[m]
    ensures Next(c, s, act).down - {act.node} == s.down
    ensures act.node in Next(c, s, act).down <==>
            match act
            case Ask(n, h, _, _) => Cut(s.nodes[n].entries[h], s.nodes[n].disk)
            case Answer(n, r, _) =>
              r.hash in s.nodes[n].entries && Cut(s.nodes[n].entries[r.hash], s.nodes[n].disk)
            case Take(n, payload, leftover, stale) =>
              || |payload| > Framing.BUFFER
              || Handled(c.md5, s.nodes[n], Decode(payload + leftover), stale).0.Fault?
            case _ => false
  {
    hide Describe, Has, Opened, Encode, Slice, Fit, Handled, Decode;
  }

  lemma {:induction false} RunKeepsEntries(c: Setup, acts: seq<Act>, k: nat)
    requires IsRun(c, acts) && k <= |acts|
    ensures IsRun(c, acts[..k]) && |Final(c, acts).nodes| == |Final(c, acts[..k]).nodes|
    ensures Final(c, acts[..k]).sent <= Final(c, acts).sent
    ensures forall n, h :: 0 <= n < |Final(c, acts).nodes| && h in Final(c, acts[..k]).nodes[n].entries ==>
                             h in Final(c, acts).nodes[n].entries
  {
    hide Next, Enabled;
    if k == |acts| {
      assert acts[..k] == acts;
    } else {
      var init := acts[..|acts| - 1];
      RunKeepsEntries(c, init, k);
      assert init[..k] == acts[..k];
      NextKeepsEntries(c, Final(c, init), acts[|acts| - 1]);
    }
  }

  /**
   Nothing sent is ever lost, and nothing has to wait: whatever was sent, or known to node n, at some point
   of a run can be learnt, answered, taken in or saved at n at any later point, as often as one likes.
   */
  lemma AnyoneCanGoOn(c: Setup, acts: seq<Act>, k: nat, n: nat)
    requires IsRun(c, acts) && k <= |acts| && n < |Final(c, acts).nodes| && n !in Final(c, acts).down
    ensures IsRun(c, acts[..k]) && |Final(c, acts[..k]).nodes| == |Final(c, acts).nodes|
    ensures var s, s' := Final(c, acts[..k]), Final(c, acts);
            && (forall def :: DefMsg(def) in s.sent ==> Enabled(c, s', Learn(n, def)))
            && (forall r, stale :: r in s.sent && r.RequestMsg? ==> Enabled(c, s', Answer(n, r, stale)))
            && (forall h :: h in s.nodes[n].entries ==> Enabled(c, s', Save(n, h)))
            && (forall payload, leftover, stale ::
                  DataMsg(n, payload) in s.sent && HEADER_SIZE <= |payload| && InBuffer(payload, leftover) ==>
                    Enabled(c, s', Take(n, payload, leftover, stale)))
  {
    hide IsRun, Final, InBuffer;
    RunKeepsEntries(c, acts, k);
  }

  /**
   In every run, taking in a payload that was sent goes wrong exactly when it exceeds the worker's
   buffer; otherwise the chunk it carries is gained, and no chunk of any file at any node is lost.
   */
  lemma TakingNeverHarms(c: Setup, acts: seq<Act>, take: Act)
    requires SetupOk(c) && NamesClean(c) && IsRun(c, acts) && take.Take? && Enabled(c, Final(c, acts), take)
    ensures var p, s, s' := Decode(take.payload), Final(c, acts), Next(c, Final(c, acts), take);
            && (take.node in s'.down <==> |take.payload| > Framing.BUFFER)
            && (|take.payload| <= Framing.BUFFER ==> p.index >= 0 && Holds(c, s', take.node, p.hash, p.index))
            && LosesNothing(c, s, s')
  {
    hide IsRun, Final, SetupOk, NamesClean, Next, Enabled, Inv;
    CleanSizes(c);
    RunKeepsInv(c, acts);
    TakeGains(c, Final(c, acts), take);
    NextKeepsSecure(c, Final(c, acts), take);
  }

  // ---------- Which files the workers can receive ----------

  /** The last chunk, the largest, fits the worker's buffer behind its header. */
  predicate Receivable(file: seq<Byte>) {
    HEADER_SIZE + Length(|file|, NUM_CHUNKS - 1) <= Framing.BUFFER
  }

  /** Each chunk's payload fits the buffer exactly when the last one's does. */
  lemma ReceivableIff(h: Digest, file: seq<Byte>)
    ensures (forall i :: 0 <= i < NUM_CHUNKS ==> |Encode(h, i, Slice(file, i))| <= Framing.BUFFER) <==> Receivable(file)
  {
    hide Encode, Slice, Length;
    forall i | 0 <= i < NUM_CHUNKS
      ensures |Encode(h, i, Slice(file, i))| <= HEADER_SIZE + Length(|file|, NUM_CHUNKS - 1)
    {
      ChunkLengths(|file|, i);
      ChunkLengths(|file|, NUM_CHUNKS - 1);
    }
    assert |Encode(h, NUM_CHUNKS - 1, Slice(file, NUM_CHUNKS - 1))| == HEADER_SIZE + Length(|file|, NUM_CHUNKS - 1);
  }

  /** Every file up to 799766 bytes can be received, one of 799767 cannot, nor any from 799809 on. */
  lemma ReceivableSizes(file: seq<Byte>)
    ensures |file| <= 799766 ==> Receivable(file)
    ensures |file| == 799767 || |file| >= 799809 ==> !Receivable(file)
  {}

  ghost predicate AllReceivable(world: World) {
    forall h :: h in world ==> Receivable(world[h])
  }

  /** A true payload larger than the buffer carries a chunk of a file that cannot be received. */
  lemma OversizedPayload(world: World, payload: seq<Byte>)
    requires TruePayload(world, payload) && AllReceivable(world)
    ensures |payload| <= Framing.BUFFER
  {
    hide Decode, Length, Offset;
    var p := Decode(payload);
    DecodedLength(payload);
    ChunkLengths(|world[p.hash]|, p.index);
    ChunkLengths(|world[p.hash]|, NUM_CHUNKS - 1);
    assert Receivable(world[p.hash]);
  }

  lemma SentIsTrue(c: Setup, s: State, dst: nat, payload: seq<Byte>)
    requires Inv(c, s) && DataMsg(dst, payload) in s.sent
    ensures TruePayload(c.world, payload) && dst < |s.nodes| && Decode(payload).hash in s.nodes[dst].entries
  {
    hide TruePayload, Decode;
    assert TrueMessage(c, DataMsg(dst, payload)) && Asked(s.nodes, DataMsg(dst, payload));
  }

  lemma NextStaysUp(c: Setup, s: State, act: Act)
    requires SetupOk(c) && Inv(c, s) && Enabled(c, s, act) && AllReceivable(c.world)
    ensures Next(c, s, act).down == s.down
  {
    hide SetupOk, Handled, Describe, Requested, Reports, AllReceivable, TruePayload, TrueDef, EntryOk, Cut;
    match act {
      case Take(_, _, _, _) =>
        SentIsTrue(c, s, act.node, act.payload);
        OversizedPayload(c.world, act.payload);
        TakeGains(c, s, act);
      case Answer(_, _, _) => AnsweringIsTrue(c, s.nodes[act.node], act.request.hash, act.request.index, act.stale);
      case Ask(_, _, _, _) => EntryIs(c, s.nodes[act.node], act.hash);
      case _ =>
    }
  }

  lemma {:induction false} RunStaysUp(c: Setup, acts: seq<Act>)
    requires SetupOk(c) && SizesClean(c) && AllReceivable(c.world) && IsRun(c, acts)
    ensures Final(c, acts).down == {}
  {
    hide Inv, SetupOk, SizesClean, Next, Enabled, AllReceivable;
    if acts != [] {
      var init := acts[..|acts| - 1];
      RunStaysUp(c, init);
      RunKeepsInv(c, init);
      NextStaysUp(c, Final(c, init), acts[|acts| - 1]);
    }
  }

  // ---------- When all goes well ----------

  /** The run `acts` leads to s. */
  predicate Leads(c: Setup, acts: seq<Act>, s: State) {
    IsRun(c, acts) && Final(c, acts) == s
  }

  lemma NoStep(c: Setup)
    ensures Leads(c, [], Start(c))
  {}

  lemma OneMore(c: Setup, acts: seq<Act>, s: State, act: Act) returns (longer: seq<Act>, s': State)
    requires Leads(c, acts, s) && Enabled(c, s, act)
    ensures Leads(c, longer, s') && s' == Next(c, s, act) && longer == acts + [act]
  {
    hide Enabled, Next;
    longer, s' := acts + [act], Next(c, s, act);
    assert longer[..|longer| - 1] == acts;
  }

  lemma LeadsThere(c: Setup, acts: seq<Act>, s: State)
    requires Leads(c, acts, s)
    ensures IsRun(c, acts) && Final(c, acts) == s
  {}

  /** A published file, as yet untouched. */
  function Publisher(c: Setup, o: Offer): Node
    requires o.node < |c.disks| && o.path in c.disks[o.node]
  {
    var def := Describe(c.md5, o.path, Content(c, o));
    Node(map[def.fHash := Slot(def, Some(o.path), false)], c.disks[o.node])
  }

  lemma PublishStep(c: Setup, acts: seq<Act>, s: State, o: Offer) returns (longer: seq<Act>, s': State)
    requires SetupOk(c) && o in c.offers && Leads(c, acts, s) && o.node < |s.nodes| && s.down == {}
    requires OfferOk(c, o) && s.nodes[o.node] == Node(map[], c.disks[o.node])
    ensures Leads(c, longer, s') && s'.down == {} && s'.nodes == s.nodes[o.node := Publisher(c, o)]
    ensures s'.sent == s.sent + {DefMsg(Describe(c.md5, o.path, Content(c, o)))}
  {
    hide Leads, Describe, SetupOk;
    DescribeNamed(c.md5, o.path, Content(c, o));
    longer, s' := OneMore(c, acts, s, Publish(o.node, o.path));
  }

  /** The node has published the file and not touched it since. */
  ghost predicate Publishes(c: Setup, n: Node, o: Offer)
    requires o.node < |c.disks|
  {
    var def := Describe(c.md5, o.path, Content(c, o));
    && def.fHash in n.entries && n.entries[def.fHash] == Slot(def, Some(o.path), false)
    && o.path in n.disk && n.disk[o.path] == Content(c, o)
  }

  lemma PublisherPublishes(c: Setup, o: Offer)
    requires o.node < |c.disks| && o.path in c.disks[o.node]
    ensures Publishes(c, Publisher(c, o), o)
  {
    hide Describe;
  }

  /** The acts that publish the given offers one after the other. */
  function Publishing(offers: seq<Offer>): (acts: seq<Act>)
    ensures |acts| == |offers|
  {
    seq(|offers|, k requires 0 <= k < |offers| => Publish(offers[k].node, offers[k].path))
  }

  /** Offers of the setup, no two of one node with the same bytes. */
  ghost predicate CanPublish(c: Setup, offers: seq<Offer>) {
    && (forall k :: 0 <= k < |offers| ==> offers[k] in c.offers && OfferOk(c, offers[k]))
    && (forall j, k :: 0 <= j < k < |offers| && offers[j].node == offers[k].node ==>
          HashOf(c, offers[j]) != HashOf(c, offers[k]))
  }

  function HashOf(c: Setup, o: Offer): Digest {
    if o.node < |c.disks| then c.md5(Content(c, o)) else ZERO
  }

  /** Every offer is published, and no node has done anything else. */
  ghost predicate HavePublished(c: Setup, s: State, offers: seq<Offer>) {
    && s.down == {} && |s.nodes| == |c.disks|
    && (forall n :: 0 <= n < |s.nodes| ==> s.nodes[n].disk == c.disks[n])
    && (forall k :: 0 <= k < |offers| && offers[k].node < |c.disks| ==>
          && Publishes(c, s.nodes[offers[k].node], offers[k])
          && DefMsg(Describe(c.md5, offers[k].path, Content(c, offers[k]))) in s.sent)
    && (forall n, h :: 0 <= n < |s.nodes| && h in s.nodes[n].entries ==> Among(c, offers, n, h))
  }

  /** One of the offers is of node n and has hash h. */
  ghost predicate Among(c: Setup, offers: seq<Offer>, n: nat, h: Digest) {
    exists k :: 0 <= k < |offers| && offers[k].node == n && HashOf(c, offers[k]) == h
  }

  /** Any offers at all can be published, in any order, before anything else happens. */
  lemma {:induction false} AllGetPublished(c: Setup, offers: seq<Offer>)
    requires CanPublish(c, offers)
    ensures IsRun(c, Publishing(offers)) && HavePublished(c, Final(c, Publishing(offers)), offers)
  {
    hide CanPublish, Enabled, Next;
    if offers == [] {
      NothingPublished(c);
    } else {
      hide HavePublished;
      var acts, last := Publishing(offers), |offers| - 1;
      var init := offers[..last];
      assert CanPublish(c, init) by { FewerOffers(c, offers, last); }
      AllGetPublished(c, init);
      assert acts[..last] == Publishing(init);
      OneMorePublished(c, Final(c, Publishing(init)), offers);
    }
  }

  lemma NothingPublished(c: Setup)
    ensures HavePublished(c, Start(c), [])
  {}

  lemma FewerOffers(c: Setup, offers: seq<Offer>, n: nat)
    requires n <= |offers| && CanPublish(c, offers)
    ensures CanPublish(c, offers[..n])
  {}

  lemma OneMorePublished(c: Setup, s: State, offers: seq<Offer>)
    requires CanPublish(c, offers) && offers != [] && HavePublished(c, s, offers[..|offers| - 1])
    ensures var o := offers[|offers| - 1];
            && Enabled(c, s, Publish(o.node, o.path))
            && HavePublished(c, Next(c, s, Publish(o.node, o.path)), offers)
  {
    hide Describe, Publishes, OfferOk, Next, Enabled, Content, Among;
    var last := |offers| - 1;
    var o, init := offers[last], offers[..last];
    assert OfferOk(c, o);
    NotYetPublished(c, s, offers);
    PublishedBy(c, s, o);
    var s' := Next(c, s, Publish(o.node, o.path));
    forall k | 0 <= k < last && offers[k].node < |c.disks|
      ensures Publishes(c, s'.nodes[offers[k].node], offers[k])
      ensures DefMsg(Describe(c.md5, offers[k].path, Content(c, offers[k]))) in s'.sent
    {
      assert init[k] == offers[k];
      StillPublished(c, s, o, offers[k]);
    }
    forall n, h | 0 <= n < |s'.nodes| && h in s'.nodes[n].entries
      ensures Among(c, offers, n, h)
    {
      assert Among(c, init, n, h) || (n == o.node && h == HashOf(c, o));
      OneMoreAmong(c, offers, n, h);
    }
  }

  lemma OneMoreAmong(c: Setup, offers: seq<Offer>, n: nat, h: Digest)
    requires offers != []
    ensures var (o, init) := (offers[|offers| - 1], offers[..|offers| - 1]);
            Among(c, offers, n, h) <==> Among(c, init, n, h) || (n == o.node && h == HashOf(c, o))
  {
    hide HashOf;
    forall k | 0 <= k < |offers| - 1 ensures offers[..|offers| - 1][k] == offers[k] {}
  }

  lemma NotYetPublished(c: Setup, s: State, offers: seq<Offer>)
    requires CanPublish(c, offers) && offers != [] && HavePublished(c, s, offers[..|offers| - 1])
    ensures var o := offers[|offers| - 1];
            o.node < |c.disks| && HashOf(c, o) !in s.nodes[o.node].entries
  {
    hide Describe, Publishes;
    var last := |offers| - 1;
    var o, init := offers[last], offers[..last];
    assert OfferOk(c, o);
    forall k | 0 <= k < |init| && init[k].node == o.node ensures HashOf(c, init[k]) != HashOf(c, o) {
      assert offers[k] == init[k];
    }
  }

  /** What publishing an offer whose bytes are still there does. */
  lemma PublishedBy(c: Setup, s: State, o: Offer)
    requires o in c.offers && OfferOk(c, o) && s.down == {} && |s.nodes| == |c.disks|
    requires s.nodes[o.node].disk == c.disks[o.node] && HashOf(c, o) !in s.nodes[o.node].entries
    ensures Enabled(c, s, Publish(o.node, o.path))
    ensures var s', def := Next(c, s, Publish(o.node, o.path)), Describe(c.md5, o.path, Content(c, o));
            && def.fHash == HashOf(c, o) && s'.down == {} && s'.sent == s.sent + {DefMsg(def)}
            && s'.nodes == s.nodes[o.node := WithEntry(s.nodes[o.node], Slot(def, Some(o.path), false))]
            && Publishes(c, s'.nodes[o.node], o)
  {
    hide Describe;
    DescribeNamed(c.md5, o.path, Content(c, o));
  }

  lemma StillPublished(c: Setup, s: State, o: Offer, p: Offer)
    requires o in c.offers && OfferOk(c, o) && s.down == {} && |s.nodes| == |c.disks|
    requires s.nodes[o.node].disk == c.disks[o.node] && HashOf(c, o) !in s.nodes[o.node].entries
    requires p.node < |c.disks| && Publishes(c, s.nodes[p.node], p)
    ensures Enabled(c, s, Publish(o.node, o.path))
    ensures Publishes(c, Next(c, s, Publish(o.node, o.path)).nodes[p.node], p)
  {
    hide Describe;
    DescribeNamed(c.md5, o.path, Content(c, o));
    DescribeNamed(c.md5, p.path, Content(c, p));
  }

  /**
   Some node has published a file. Node a learns of it, asks for a chunk, and gets the answer; then it can
   take that in.
   */
  lemma FetchSteps(c: Setup, acts: seq<Act>, s: State, o: Offer, a: nat, i: nat)
    returns (longer: seq<Act>, s': State, payload: seq<Byte>)
    requires SetupOk(c) && o in c.offers && OfferOk(c, o) && Leads(c, acts, s) && s.down == {} && i < NUM_CHUNKS
    requires o.node < |s.nodes| && a < |s.nodes| && a != o.node && Publishes(c, s.nodes[o.node], o)
    requires DefMsg(Describe(c.md5, o.path, Content(c, o))) in s.sent
    requires c.md5(Content(c, o)) !in s.nodes[a].entries
    ensures payload == Encode(c.md5(Content(c, o)), i, Slice(Content(c, o), i))
    ensures Leads(c, longer, s') && s'.down == {} && s.sent <= s'.sent
    ensures DataMsg(a, payload) in s'.sent && RequestMsg(c.md5(Content(c, o)), i, a) in s'.sent
    ensures s'.nodes == s.nodes[a := WithEntry(s.nodes[a], Slot(Describe(c.md5, o.path, Content(c, o)), None, false))]
                               [o.node := OpenedPublisher(c, s.nodes[o.node], o)]
  {
    hide Leads, Describe, SetupOk, Encode, Slice, Requested, Has, OpenedPublisher, Publishes;
    var file := Content(c, o);
    var def := Describe(c.md5, o.path, file);
    DescribeNamed(c.md5, o.path, file);
    longer, s' := OneMore(c, acts, s, Learn(a, def));
    var s1 := s';
    assert s1.nodes[a] == WithEntry(s.nodes[a], Slot(def, None, false));
    NoContentMissing(c.md5, s1.nodes[a].disk, def, NO_HASHES, i);
    longer, s' := OneMore(c, longer, s1, Ask(a, def.fHash, i, NO_HASHES));
    PublisherAnswers(c, s.nodes[o.node], o, i);
    longer, s' := OneMore(c, longer, s', Answer(o.node, RequestMsg(def.fHash, i, a), NO_HASHES));
    payload := Encode(def.fHash, i, Slice(file, i));
  }

  /** The publisher with the file open. */
  function OpenedPublisher(c: Setup, n: Node, o: Offer): Node
    requires o.node < |c.disks|
  {
    var def := Describe(c.md5, o.path, Content(c, o));
    n.(entries := n.entries[def.fHash := Slot(def, Some(o.path), true)])
  }

  lemma NoContentMissing(md5: Md5, disk: Disk, def: TDef, stale: ChunkHashes, i: nat)
    requires i < NUM_CHUNKS
    ensures !Has(md5, ViewOf(Slot(def, None, false), disk), stale, i)
  {}

  lemma PublisherAnswers(c: Setup, n: Node, o: Offer, i: nat)
    requires SetupOk(c) && o in c.offers && OfferOk(c, o) && i < NUM_CHUNKS && Publishes(c, n, o)
    ensures var h, file := c.md5(Content(c, o)), Content(c, o);
            Requested(c.md5, n, h, i, NO_HASHES) ==
            (Answered(Some(Encode(h, i, Slice(file, i)))), OpenedPublisher(c, n, o))
  {
    hide Describe, Encode, Slice, Has, Opened, UnforgeableFile, Length;
    var h, file := c.md5(Content(c, o)), Content(c, o);
    assert FileOk(c.md5, h, c.world[h]);
    DescribeNamed(c.md5, o.path, file);
    PublishedVerifies(c.md5, o.path, file, [], NO_HASHES);
    assert ViewIn(n, h) == View(Describe(c.md5, o.path, file), Some(file), []);
    OpenedIsContent(ViewIn(n, h));
    ChunkLengths(|file|, i);
    FitSame(file);
    assert n.disk[o.path := file] == n.disk;
  }

  /** The file is published, and another node takes in its last chunk, which is too large: it goes down. */
  lemma LargeFileRun(c: Setup, o: Offer) returns (acts: seq<Act>, s: State, act: Act)
    requires SetupOk(c) && |c.disks| >= 2 && o in c.offers && OfferOk(c, o) && !Receivable(Content(c, o))
    ensures Leads(c, acts, s) && Enabled(c, s, act) && Next(c, s, act).down != {}
  {
    hide Leads, Describe, SetupOk, Encode, Slice, Publisher, Publishes, OpenedPublisher, Handled, Length;
    NoStep(c);
    var a := if o.node == 0 then 1 else 0;
    acts, s := PublishStep(c, [], Start(c), o);
    PublisherPublishes(c, o);
    var payload;
    acts, s, payload := FetchSteps(c, acts, s, o, a, NUM_CHUNKS - 1);
    act := Take(a, payload, [], NO_HASHES);
    assert |payload| > Framing.BUFFER;
    assert a in Next(c, s, act).down;
  }

  /** The bytes at a path once a chunk of a file that is no longer has been taken in there. */
  function Overwritten(old': seq<Byte>, file: seq<Byte>, i: nat): seq<Byte>
    requires i < NUM_CHUNKS
  {
    Patch(Fit(old', |file|), Offset(|file|, i), Slice(file, i))
  }

  /** Taking in the first chunk for a definition opens what lies on its path and writes the chunk there. */
  lemma FirstTake(c: Setup, n: Node, path: string, file: seq<Byte>, i: nat, leftover: seq<Byte>)
    requires |file| >= MIN_SIZE && i < NUM_CHUNKS && Length(|file|, i) < 0x1_0000_0000
    requires c.md5(file) in n.entries && n.entries[c.md5(file)] == Slot(Describe(c.md5, path, file), None, false)
    ensures var p := Decode(Encode(c.md5(file), i, Slice(file, i)) + leftover);
            var (effect, after) := Handled(c.md5, n, p, NO_HASHES);
            && !effect.Fault? && p.hash == c.md5(file)
            && after.disk == n.disk[path := Overwritten(FileAt(n.disk, path), file, i)]
            && forall h :: h in n.entries && h != c.md5(file) ==> h in after.entries && after.entries[h] == n.entries[h]
  {
    hide Describe, Encode, Decode, Slice, Length, Fit, Patch, Has;
    var h := c.md5(file);
    DescribeNamed(c.md5, path, file);
    DecodeEncode(h, i, Slice(file, i), leftover);
    var p := Decode(Encode(h, i, Slice(file, i)) + leftover);
    NoContentMissing(c.md5, n.disk, Describe(c.md5, path, file), NO_HASHES, i);
    ChunkLengths(|file|, i);
    ChunkWithin(|file|, i);
    assert p.data[..p.declared] == Slice(file, i);
    assert Offset(|file|, i) == i * ChunkSize(|file|);
  }

  /** What is left of a file on whose path a chunk of another, no longer one, has been written. */
  lemma OverwrittenInsecure(c: Setup, name: string, x: seq<Byte>, y: seq<Byte>) returns (i: nat, j: nat)
    requires |x| >= MIN_SIZE && UnforgeableFile(c.md5, x) && |y| <= |x| && x != y
    ensures i < NUM_CHUNKS && j < NUM_CHUNKS
    ensures !Secure(c.md5, View(Describe(c.md5, name, x), Some(Overwritten(x, y, i)), []), j)
  {
    hide Slice, Fit, Patch, Offset, Length;
    if |y| < |x| {
      i, j := 0, NUM_CHUNKS - 1;
      LastChunkEnds(|x|);
      ChunkLengths(|x|, j);
    } else {
      i := DifferingChunk(x, y);
      j := i;
      FitSame(x);
      PatchedChunk(x, i, Slice(y, i));
      assert Slice(Overwritten(x, y, i), i) == Slice(y, i);
      ChunkLengths(|x|, i);
      SecureBySlice(c.md5, Describe(c.md5, name, x), Overwritten(x, y, i), [], i);
    }
  }

  lemma LastChunkEnds(size: nat)
    ensures Offset(size, NUM_CHUNKS - 1) + Length(size, NUM_CHUNKS - 1) == size
  {}

  lemma DifferingChunk(x: seq<Byte>, y: seq<Byte>) returns (i: nat)
    requires |x| == |y| && x != y
    ensures i < NUM_CHUNKS && Slice(x, i) != Slice(y, i)
  {
    hide Slice;
    if forall k :: 0 <= k < NUM_CHUNKS ==> Slice(x, k) == Slice(y, k) {
      SlicesDetermineFile(x, y);
    }
    i :| i < NUM_CHUNKS && Slice(x, i) != Slice(y, i);
  }

  /** Two files of one name: whoever published the one that is no shorter loses it by fetching from the other. */
  lemma SameNameRun(c: Setup, o: Offer, p: Offer) returns (acts: seq<Act>, s: State, act: Act)
    requires SetupOk(c) && AllReceivable(c.world) && o in c.offers && p in c.offers && OfferOk(c, o) && OfferOk(c, p)
    requires o.path == p.path && Content(c, o) != Content(c, p) && |Content(c, p)| <= |Content(c, o)|
    ensures Leads(c, acts, s) && Enabled(c, s, act) && !LosesNothing(c, s, Next(c, s, act))
  {
    hide Leads, Describe, SetupOk, Encode, Slice, Overwritten, Secure, UnforgeableFile, Next, Enabled, LosesNothing,
         Publishes, OpenedPublisher;
    var x, y := Content(c, o), Content(c, p);
    TwoFiles(c, o, p);
    DescribeNamed(c.md5, o.path, x);
    NoStep(c);
    acts, s := PublishStep(c, [], Start(c), o);
    acts, s := PublishStep(c, acts, s, p);
    PublisherPublishes(c, p);
    var i, j := OverwrittenInsecure(c, o.path, x, y);
    var payload;
    acts, s, payload := FetchSteps(c, acts, s, p, o.node, i);
    act := SameNameTake(c, o, p, s, i, j);
  }

  /** The taking in. */
  lemma SameNameTake(c: Setup, o: Offer, p: Offer, s: State, i: nat, j: nat) returns (act: Act)
    requires SetupOk(c) && AllReceivable(c.world) && OfferOk(c, o) && OfferOk(c, p) && o.path == p.path
    requires i < NUM_CHUNKS && j < NUM_CHUNKS && o.node < |s.nodes| && s.down == {}
    requires var (x, y) := (Content(c, o), Content(c, p));
             && x != y && s.nodes[o.node] == WithEntry(Publisher(c, o), Slot(Describe(c.md5, p.path, y), None, false))
             && !Secure(c.md5, View(Describe(c.md5, o.path, x), Some(Overwritten(x, y, i)), []), j)
             && DataMsg(o.node, Encode(c.md5(y), i, Slice(y, i))) in s.sent
    ensures Enabled(c, s, act) && !LosesNothing(c, s, Next(c, s, act))
  {
    hide Describe, SetupOk, Encode, Decode, Slice, Handled, Length, Overwritten, Secure, UnforgeableFile;
    var x, y := Content(c, o), Content(c, p);
    var hx, hy := c.md5(x), c.md5(y);
    TwoFiles(c, o, p);
    DescribeNamed(c.md5, o.path, x);
    DescribeNamed(c.md5, p.path, y);
    var payload := Encode(hy, i, Slice(y, i));
    TruePayloads(c.world, hy, i);
    OversizedPayload(c.world, payload);
    var leftover := seq<Byte>(Framing.BUFFER - |payload|, _ => 0);
    act := Take(o.node, payload, leftover, NO_HASHES);
    PayloadLength(hy, i, y);
    FirstTake(c, s.nodes[o.node], p.path, y, i, leftover);
    PublishedSecure(c.md5, o.path, x, j);
    assert ViewIn(s.nodes[o.node], hx) == View(Describe(c.md5, o.path, x), Some(x), []);
    var after := Next(c, s, act).nodes[o.node];
    assert after.entries[hx] == Slot(Describe(c.md5, o.path, x), Some(o.path), false);
    assert ViewIn(after, hx) == View(Describe(c.md5, o.path, x), Some(Overwritten(x, y, i)), []);
    assert Holds(c, s, o.node, hx, j) && !Holds(c, Next(c, s, act), o.node, hx, j);
  }

  lemma PayloadLength(h: Digest, i: nat, file: seq<Byte>)
    requires i < NUM_CHUNKS && |Encode(h, i, Slice(file, i))| <= Framing.BUFFER
    ensures Length(|file|, i) < 0x1_0000_0000
  {
    hide Encode, Length, Slice;
  }

  lemma TwoFiles(c: Setup, o: Offer, p: Offer)
    requires SetupOk(c) && OfferOk(c, o) && OfferOk(c, p) && Content(c, o) != Content(c, p)
    ensures c.md5(Content(c, o)) != c.md5(Content(c, p))
    ensures FileOk(c.md5, c.md5(Content(c, o)), Content(c, o)) && FileOk(c.md5, c.md5(Content(c, p)), Content(c, p))
  {
    hide UnforgeableFile;
  }

  /**
   Two files of one name and different length: the publisher of the longer one answers a request, which maps
   the file, and then fetches the shorter one, which cuts it; the next request for it brings the node down.
   */
  lemma CutRun(c: Setup, o: Offer, p: Offer) returns (acts: seq<Act>, s: State, act: Act)
    requires SetupOk(c) && AllReceivable(c.world) && o in c.offers && p in c.offers && OfferOk(c, o) && OfferOk(c, p)
    requires o.path == p.path && |Content(c, p)| < |Content(c, o)|
    ensures Leads(c, acts, s) && Enabled(c, s, act) && Next(c, s, act).down != {}
  {
    hide Leads, Describe, SetupOk, Encode, Slice, UnforgeableFile, Next, Enabled, Publishes;
    var x, y := Content(c, o), Content(c, p);
    TwoFiles(c, o, p);
    DescribeNamed(c.md5, o.path, x);
    DescribeNamed(c.md5, p.path, y);
    NoStep(c);
    acts, s := PublishStep(c, [], Start(c), o);
    acts, s := PublishStep(c, acts, s, p);
    PublisherPublishes(c, o);
    PublisherPublishes(c, p);
    var payload;
    acts, s, payload := FetchSteps(c, acts, s, o, p.node, 0);
    StillPublishes(c, Publisher(c, p), p, Slot(Describe(c.md5, o.path, x), None, false));
    acts, s, payload := FetchSteps(c, acts, s, p, o.node, 0);
    var take := CutTake(c, o, p, s);
    acts, s := OneMore(c, acts, s, take);
    act := Answer(o.node, RequestMsg(c.md5(x), 0, p.node), NO_HASHES);
    CutAnswer(c, s, act);
  }

  lemma StillPublishes(c: Setup, n: Node, o: Offer, s: Slot)
    requires o.node < |c.disks| && Publishes(c, n, o) && s.def.fHash != Describe(c.md5, o.path, Content(c, o)).fHash
    ensures Publishes(c, WithEntry(n, s), o)
  {
    hide Describe;
  }

  lemma CutTake(c: Setup, o: Offer, p: Offer, s: State) returns (take: Act)
    requires SetupOk(c) && AllReceivable(c.world) && OfferOk(c, o) && OfferOk(c, p) && o.path == p.path
    requires o.node < |s.nodes| && s.down == {} && |Content(c, p)| < |Content(c, o)|
    requires var n := s.nodes[o.node];
             && c.md5(Content(c, o)) in n.entries && c.md5(Content(c, p)) in n.entries
             && n.entries[c.md5(Content(c, o))] == Slot(Describe(c.md5, o.path, Content(c, o)), Some(o.path), true)
             && n.entries[c.md5(Content(c, p))] == Slot(Describe(c.md5, p.path, Content(c, p)), None, false)
             && DataMsg(o.node, Encode(c.md5(Content(c, p)), 0, Slice(Content(c, p), 0))) in s.sent
    ensures Enabled(c, s, take) && Next(c, s, take).down == {} && Next(c, s, take).sent == s.sent
    ensures |Next(c, s, take).nodes| == |s.nodes|
    ensures CannotVerify(Next(c, s, take).nodes[o.node], c.md5(Content(c, o)))
  {
    hide Describe, SetupOk, Encode, Decode, Slice, Handled, Length, UnforgeableFile;
    var x, y := Content(c, o), Content(c, p);
    var hx, hy := c.md5(x), c.md5(y);
    TwoFiles(c, o, p);
    DescribeNamed(c.md5, o.path, x);
    DescribeNamed(c.md5, p.path, y);
    var payload := Encode(hy, 0, Slice(y, 0));
    TruePayloads(c.world, hy, 0);
    OversizedPayload(c.world, payload);
    var leftover := seq<Byte>(Framing.BUFFER - |payload|, _ => 0);
    take := Take(o.node, payload, leftover, NO_HASHES);
    PayloadLength(hy, 0, y);
    FirstTake(c, s.nodes[o.node], p.path, y, 0, leftover);
    var after := Next(c, s, take).nodes[o.node];
    assert after.entries[hx] == s.nodes[o.node].entries[hx];
    assert |FileAt(after.disk, o.path)| == |y|;
  }

  lemma CutAnswer(c: Setup, s: State, act: Act)
    requires act.Answer? && act.node < |s.nodes| && s.down == {} && act.request in s.sent && act.request.RequestMsg?
    requires CannotVerify(s.nodes[act.node], act.request.hash)
    ensures Enabled(c, s, act) && Next(c, s, act).down != {}
  {
    hide CannotVerify, Reports;
    assert act.node in Next(c, s, act).down;
  }

  /** With two nodes or more: no run brings a node down exactly when sizes are clean and every file can be received. */
  lemma NobodyGoesDownIff(c: Setup)
    requires SetupOk(c) && |c.disks| >= 2
    ensures (forall acts :: IsRun(c, acts) ==> Final(c, acts).down == {}) <==> SizesClean(c) && AllReceivable(c.world)
  {
    hide IsRun, Final, Receivable, Enabled, Inv, Next, Leads;
    if SizesClean(c) && AllReceivable(c.world) {
      forall acts | IsRun(c, acts) ensures Final(c, acts).down == {} {
        RunStaysUp(c, acts);
      }
    } else {
      var acts, s, act;
      if !AllReceivable(c.world) {
        var o := LargeOffer(c);
        acts, s, act := LargeFileRun(c, o);
      } else {
        var o, p := LengthClash(c);
        acts, s, act := CutRun(c, o, p);
      }
      acts, s := OneMore(c, acts, s, act);
      LeadsThere(c, acts, s);
    }
  }

  lemma LargeOffer(c: Setup) returns (o: Offer)
    requires SetupOk(c) && !AllReceivable(c.world)
    ensures o in c.offers && OfferOk(c, o) && !Receivable(Content(c, o))
  {
    hide Receivable, UnforgeableFile;
    var h :| h in c.world && !Receivable(c.world[h]);
    var path :| OfferedAs(c, c.world[h], path);
    o :| o in c.offers && o.node < |c.disks| && o.path == path && Content(c, o) == c.world[h];
  }

  lemma LengthClash(c: Setup) returns (o: Offer, p: Offer)
    requires SetupOk(c) && !SizesClean(c)
    ensures o in c.offers && p in c.offers && OfferOk(c, o) && OfferOk(c, p)
    ensures o.path == p.path && |Content(c, p)| < |Content(c, o)|
  {
    hide UnforgeableFile;
    o, p :| o in c.offers && p in c.offers && o.path == p.path && o.node < |c.disks| && p.node < |c.disks|
      && |Content(c, o)| != |Content(c, p)|;
    if |Content(c, o)| < |Content(c, p)| {
      o, p := p, o;
    }
  }

  lemma ContentClash(c: Setup) returns (o: Offer, p: Offer)
    requires SetupOk(c) && !NamesClean(c)
    ensures o in c.offers && p in c.offers && OfferOk(c, o) && OfferOk(c, p)
    ensures o.path == p.path && Content(c, p) != Content(c, o) && |Content(c, p)| <= |Content(c, o)|
  {
    hide UnforgeableFile;
    o, p :| o in c.offers && p in c.offers && o.path == p.path && o.node < |c.disks| && p.node < |c.disks|
      && Content(c, o) != Content(c, p);
    if |Content(c, o)| < |Content(c, p)| {
      o, p := p, o;
    }
  }

  /** No run brings a node down, or loses a secure chunk. */
  ghost predicate AllWell(c: Setup) {
    forall acts, act :: IsRun(c, acts) && Enabled(c, Final(c, acts), act) ==>
      StepWell(c, Final(c, acts), act)
  }

  ghost predicate StepWell(c: Setup, s: State, act: Act)
    requires Enabled(c, s, act)
  {
    Next(c, s, act).down == {} && LosesNothing(c, s, Next(c, s, act))
  }

  /**
   Among two or more nodes all goes well, in every run, exactly when files of one name are the same and
   every file can be received.
   */
  lemma AllWellIff(c: Setup)
    requires SetupOk(c) && |c.disks| >= 2
    ensures AllWell(c) <==> NamesClean(c) && AllReceivable(c.world)
  {
    hide IsRun, Final, Receivable, Enabled, StepWell, Inv, Next, Leads;
    if NamesClean(c) && AllReceivable(c.world) {
      forall acts, act | IsRun(c, acts) && Enabled(c, Final(c, acts), act) ensures StepWell(c, Final(c, acts), act) {
        CleanStepWell(c, acts, act);
      }
    } else {
      var acts, s, act;
      if !AllReceivable(c.world) {
        var o := LargeOffer(c);
        acts, s, act := LargeFileRun(c, o);
      } else {
        var o, p := ContentClash(c);
        acts, s, act := SameNameRun(c, o, p);
      }
      LeadsThere(c, acts, s);
      NotWell(c, s, act);
    }
  }

  lemma NotWell(c: Setup, s: State, act: Act)
    requires Enabled(c, s, act) && (Next(c, s, act).down != {} || !LosesNothing(c, s, Next(c, s, act)))
    ensures !StepWell(c, s, act)
  {
    hide Next, Enabled, LosesNothing;
  }

  lemma CleanStepWell(c: Setup, acts: seq<Act>, act: Act)
    requires SetupOk(c) && NamesClean(c) && AllReceivable(c.world)
    requires IsRun(c, acts) && Enabled(c, Final(c, acts), act)
    ensures StepWell(c, Final(c, acts), act)
  {
    hide IsRun, Final, SetupOk, NamesClean, Next, Enabled, Inv, AllReceivable;
    CleanSizes(c);
    RunKeepsInv(c, acts);
    RunStaysUp(c, acts);
    NextStaysUp(c, Final(c, acts), act);
    NextKeepsSecure(c, Final(c, acts), act);
  }
}
