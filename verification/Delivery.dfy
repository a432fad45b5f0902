/**
 Chunk payloads: how send_chunk_message lays one out (src/client.c:571-606) and what the FILE_DATA
 branch of readWorker does to a node's bytes for the file (src/client.c:530-558), as written:
 a size mismatch is only reported, and the copy goes ahead.
 */
module Delivery {
  import opened Bytes
  import opened Tfile
  import opened Chunks
  import opened Sets

  // ---------- Layout ----------

  /** chunk_payload_t after parsing, with the bytes that follow it in the receive buffer. */
  datatype Payload = Payload(hash: Digest, index: int, declared: nat, data: seq<Byte>)

  const HEADER_SIZE: nat := 24

  /** A 32-bit two's complement word as the C int it stands for. */
  function AsInt(word: nat): int {
    if word < 0x8000_0000 then word else word - 0x1_0000_0000
  }

  /** Hash, host-order index, network-order size cast to 32 bits, then the chunk bytes. */
  function Encode(hash: Digest, index: int, data: seq<Byte>): (p: seq<Byte>)
    ensures |p| == HEADER_SIZE + |data|
  {
    hash + ToLe(index % 0x1_0000_0000, 4) + ToLe(SwapWord(|data| % 0x1_0000_0000), 4) + data
  }

  function Decode(buffer: seq<Byte>): Payload
    requires |buffer| >= HEADER_SIZE
  {
    Payload(buffer[..16], AsInt(FromLe(buffer[16..20])), SwapWord(FromLe(buffer[20..24])), buffer[24..])
  }

  /** Decoding, in a buffer with leftover bytes, returns what was sent; the size, up to 32 bits. */
  lemma DecodeEncode(hash: Digest, index: int, data: seq<Byte>, leftover: seq<Byte>)
    requires -0x8000_0000 <= index < 0x8000_0000
    ensures Decode(Encode(hash, index, data) + leftover) ==
            Payload(hash, index, |data| % 0x1_0000_0000, data + leftover)
    ensures Decode(Encode(hash, index, data)).declared == |data| <==> |data| < 0x1_0000_0000
  {
    hide SwapWord, ToLe, FromLe;
    var i, n := index % 0x1_0000_0000, |data| % 0x1_0000_0000;
    Pow256Of4();
    LeDecodesEncoding(i, 4);
    LeDecodesEncoding(SwapWord(n), 4);
    SwapWordTwice(n);
    var p := Encode(hash, index, data);
    assert p[..16] == hash && p[16..20] == ToLe(i, 4) && p[20..24] == ToLe(SwapWord(n), 4);
    var q := p + leftover;
    assert q[..16] == hash && q[16..20] == p[16..20] && q[20..24] == p[20..24];
    assert q[24..] == data + leftover;
  }

  /**
   A payload header byte by byte: the hash, the index least significant byte first, the size most significant
   byte first.
   */
  predicate HeaderIs(p: seq<Byte>, hash: Digest, index: nat, size: nat) {
    && |p| >= HEADER_SIZE && p[..16] == hash
    && p[16] + 0x100 * (p[17] as int) + 0x1_0000 * (p[18] as int) + 0x100_0000 * (p[19] as int) == index
    && 0x100_0000 * (p[20] as int) + 0x1_0000 * (p[21] as int) + 0x100 * (p[22] as int) + p[23] == size
  }

  /** What goes out: index and size up to 32 bits, then the chunk. */
  lemma EncodeLayout(hash: Digest, index: int, data: seq<Byte>)
    ensures HeaderIs(Encode(hash, index, data), hash, index % 0x1_0000_0000, |data| % 0x1_0000_0000)
    ensures Encode(hash, index, data)[HEADER_SIZE..] == data
  {
    hide SwapWord, ToLe, FromLe;
    Pow256Of4();
    var p, i, n := Encode(hash, index, data), index % 0x1_0000_0000, |data| % 0x1_0000_0000;
    assert p[..16] == hash && p[16..20] == ToLe(i, 4) && p[20..24] == ToLe(SwapWord(n), 4) && p[24..] == data;
    LeDecodesEncoding(i, 4);
    FourBytes(p[16..20]);
    SwapWordIsNetworkOrder(n);
  }

  // ---------- Effect on a node's bytes ----------

  datatype Effect = Skipped | Written | Fault

  /** A FILE_DATA payload as the handler sees it, and the stale hashes its verification may meet. */
  datatype Arrival = Arrival(index: int, declared: nat, data: seq<Byte>, stale: ChunkHashes)

  /** ftruncate: cut, or extend with zeros. */
  function Fit(b: seq<Byte>, n: nat): (r: seq<Byte>)
    ensures |r| == n
    ensures forall x :: 0 <= x < n ==> r[x] == if x < |b| then b[x] else 0
  {
    if |b| >= n then b[..n] else b + seq<Byte>(n - |b|, _ => 0)
  }

  /** The bytes open_tfile maps: the node's file, made as long as the definition says. */
  function Opened(v: View): (r: seq<Byte>)
    ensures |r| == v.def.size
  {
    Fit(if v.content.Some? then v.content.value else v.found, v.def.size)
  }

  function Patch(b: seq<Byte>, at: nat, data: seq<Byte>): (r: seq<Byte>)
    requires at + |data| <= |b|
    ensures |r| == |b|
    ensures forall x :: 0 <= x < |b| ==> r[x] == if at <= x < at + |data| then data[x - at] else b[x]
  {
    b[..at] + data + b[at + |data|..]
  }

  /**
   The FILE_DATA branch for a known definition. A verified chunk is skipped. Otherwise the file is
   opened and `declared` bytes are copied to the start of the chunk; a copy from or to memory outside
   the buffer or the mapping is a Fault.
   */
  function Deliver(md5: Md5, v: View, p: Arrival): (r: (Effect, View))
    ensures r.1.def == v.def && (v.content.Some? ==> r.1.content.Some?)
    ensures p.index < NUM_CHUNKS && !r.0.Skipped? ==>
              r.1.content.Some? && |r.1.content.value| == v.def.size
  {
    if 0 <= p.index < NUM_CHUNKS && Has(md5, v, p.stale, p.index) then (Skipped, v)
    else if p.index >= NUM_CHUNKS then (if p.declared == 0 then Written else Fault, v)
    else
      var mapped := Opened(v);
      var at := p.index * ChunkSize(v.def.size);
      if p.declared == 0 then (Written, View(v.def, Some(mapped), []))
      else if at < 0 || p.declared > |p.data| || at + p.declared > v.def.size then
        (Fault, View(v.def, Some(mapped), []))
      else (Written, View(v.def, Some(Patch(mapped, at, p.data[..p.declared])), []))
  }

  /** Whether the copy stays inside the buffer and inside a mapping of the defined size. */
  predicate CopyInside(def: TDef, p: Arrival) {
    var at := p.index * ChunkSize(def.size);
    p.index < NUM_CHUNKS && 0 <= at && p.declared <= |p.data| && at + p.declared <= def.size
  }

  /**
   The whole effect, for every payload: a reported chunk is skipped; anything else faults exactly if it
   copies something and the copy goes outside; and afterwards exactly the `declared` bytes at the start of
   the chunk are those that came, whether or not more came or the chunk is shorter.
   */
  lemma DeliverMeans(md5: Md5, v: View, p: Arrival)
    ensures var (effect, after) := Deliver(md5, v, p);
            && (effect.Skipped? <==> 0 <= p.index < NUM_CHUNKS && Has(md5, v, p.stale, p.index))
            && (effect.Fault? <==> !effect.Skipped? && p.declared > 0 && !CopyInside(v.def, p))
            && after.def == v.def && (effect.Skipped? || p.index >= NUM_CHUNKS ==> after == v)
            && (!effect.Skipped? && p.index < NUM_CHUNKS ==>
                  after.content.Some? && |after.content.value| == v.def.size && after.found == [])
            && (effect.Written? && p.index < NUM_CHUNKS ==>
                  forall x :: 0 <= x < v.def.size ==>
                    after.content.value[x] ==
                    var k := x - p.index * ChunkSize(v.def.size);
                    if 0 <= k < p.declared then p.data[k] else Opened(v)[x])
  {
    hide Has, Fit;
  }

  /** The payload names a chunk, and its declared size fits that chunk and its bytes. */
  predicate Fits(def: TDef, p: Arrival) {
    0 <= p.index < NUM_CHUNKS && p.declared <= Length(def.size, p.index) && p.declared <= |p.data|
  }

  lemma DeliverVerified(md5: Md5, v: View, p: Arrival)
    requires 0 <= p.index < NUM_CHUNKS && Has(md5, v, p.stale, p.index)
    ensures Deliver(md5, v, p) == (Skipped, v)
  {}

  /** A payload that fits a missing chunk is written over the start of that chunk. */
  lemma DeliverFitting(md5: Md5, v: View, p: Arrival)
    requires Fits(v.def, p) && !Has(md5, v, p.stale, p.index)
    ensures var b := Patch(Opened(v), Offset(v.def.size, p.index), p.data[..p.declared]);
            Deliver(md5, v, p) == (Written, View(v.def, Some(b), []))
  {
    hide Has, Length;
    if p.declared == 0 {
      var b, at := Opened(v), Offset(v.def.size, p.index);
      assert b == b[..at] + [] + b[at..];
    }
  }

  /** A chunk that lies wholly before or after the patched range keeps its bytes. */
  lemma PatchOutside(b: seq<Byte>, at: nat, data: seq<Byte>, i: nat)
    requires i < NUM_CHUNKS && at + |data| <= |b|
    requires Offset(|b|, i) + Length(|b|, i) <= at || at + |data| <= Offset(|b|, i)
    ensures Slice(Patch(b, at, data), i) == Slice(b, i)
  {}

  /** A write whose size fits its chunk leaves every other chunk as it was. */
  lemma WriteStaysInChunk(b: seq<Byte>, index: nat, data: seq<Byte>, j: nat)
    requires index < NUM_CHUNKS && |data| <= Length(|b|, index) && j < NUM_CHUNKS && j != index
    ensures Slice(Patch(b, Offset(|b|, index), data), j) == Slice(b, j)
  {
    hide Length, Offset;
    if j < index {
      SlicesDisjoint(|b|, j, index);
    } else {
      SlicesDisjoint(|b|, index, j);
    }
    PatchOutside(b, Offset(|b|, index), data, j);
  }

  /** Writing a whole chunk's worth of bytes makes them that chunk. */
  lemma PatchedChunk(b: seq<Byte>, index: nat, piece: seq<Byte>)
    requires index < NUM_CHUNKS && |piece| == Length(|b|, index)
    ensures Slice(Patch(b, Offset(|b|, index), piece), index) == piece
  {
    hide Length, Offset;
  }

  lemma FittingNeverFaults(md5: Md5, v: View, p: Arrival)
    requires Fits(v.def, p)
    ensures !Deliver(md5, v, p).0.Fault?
  {
    if !Has(md5, v, p.stale, p.index) {
      DeliverFitting(md5, v, p);
    }
  }

  /** What is in a chunk's place stays there when the file is opened, if the file reaches that far. */
  lemma OpeningKeepsChunk(md5: Md5, v: View, j: nat)
    requires j < NUM_CHUNKS && v.content.Some?
    requires HashOfRange(md5, v.content.value, Offset(v.def.size, j), Length(v.def.size, j)) == Some(v.def.cHashes[j])
    ensures md5(Slice(Opened(v), j)) == v.def.cHashes[j]
  {
    hide Length, Offset;
    var b, at, n := v.content.value, Offset(v.def.size, j), Length(v.def.size, j);
    if n == 0 {
      assert Slice(Opened(v), j) == [];
    } else {
      assert Slice(Opened(v), j) == b[at..][..n];
    }
  }

  /**
   No payload that fits its chunk ever harms a secure chunk, whatever its bytes: a verified chunk is
   skipped, and a write to a missing one stays inside it.
   */
  lemma DeliveryKeepsSecure(md5: Md5, v: View, p: Arrival, j: nat)
    requires Fits(v.def, p) && j < NUM_CHUNKS && Secure(md5, v, j)
    ensures !Deliver(md5, v, p).0.Fault? && Secure(md5, Deliver(md5, v, p).1, j)
  {
    hide Length, Offset, Slice, Deliver, Secure, Has, HashOfRange, Foolable;
    FittingNeverFaults(md5, v, p);
    MeaningOfVerified(md5, v, p.stale, j);
    if Has(md5, v, p.stale, p.index) {
      DeliverVerified(md5, v, p);
    } else {
      DeliverFitting(md5, v, p);
      assert j != p.index;
      SecureByChunk(md5, v, p.stale, p.index, j);
      OpeningKeepsChunk(md5, v, j);
      var mapped, at := Opened(v), Offset(v.def.size, p.index);
      WriteStaysInChunk(mapped, p.index, p.data[..p.declared], j);
      SecureBySlice(md5, v.def, Patch(mapped, at, p.data[..p.declared]), [], j);
    }
  }

  /** Where some chunk is missing, a secure chunk is secure by the bytes in its own place. */
  lemma SecureByChunk(md5: Md5, v: View, stale: ChunkHashes, missing: nat, j: nat)
    requires missing < NUM_CHUNKS && j < NUM_CHUNKS && !Has(md5, v, stale, missing) && Secure(md5, v, j)
    ensures v.content.Some?
    ensures HashOfRange(md5, v.content.value, Offset(v.def.size, j), Length(v.def.size, j)) == Some(v.def.cHashes[j])
  {}

  /** p carries the true bytes of its chunk of `file`. */
  predicate Authentic(file: seq<Byte>, p: Arrival) {
    && 0 <= p.index < NUM_CHUNKS
    && p.declared == |Slice(file, p.index)|
    && Slice(file, p.index) <= p.data
  }

  /** The chunk is not reported merely because a stale entry matches. */
  predicate NotFooled(md5: Md5, v: View, p: Arrival)
    requires 0 <= p.index < NUM_CHUNKS
  {
    Has(md5, v, p.stale, p.index) ==> Secure(md5, v, p.index)
  }

  /** The true bytes of a chunk make it secure, unless a stale entry gets them skipped. */
  lemma AuthenticDeliverySecures(md5: Md5, file: seq<Byte>, v: View, p: Arrival)
    requires v.def == Describe(md5, v.def.name, file) && Authentic(file, p)
    ensures Fits(v.def, p)
    ensures Secure(md5, Deliver(md5, v, p).1, p.index) <==> NotFooled(md5, v, p)
  {
    hide Length, Offset, Deliver, ChunkOk, Slice, Secure, Foolable;
    var piece := Slice(file, p.index);
    if Has(md5, v, p.stale, p.index) {
      DeliverVerified(md5, v, p);
    } else {
      DeliverFitting(md5, v, p);
      assert p.data[..p.declared] == piece;
      var mapped, at := Opened(v), Offset(v.def.size, p.index);
      PatchedChunk(mapped, p.index, piece);
      SecureBySlice(md5, v.def, Patch(mapped, at, piece), [], p.index);
    }
  }

  // ---------- Runs of deliveries ----------

  /** The chunks that are not secure. */
  function Insecure(md5: Md5, v: View): set<nat> {
    set i: nat | i < NUM_CHUNKS && !Secure(md5, v, i)
  }

  function DeliverAll(md5: Md5, v: View, ps: seq<Arrival>): (r: View)
    ensures r.def == v.def
    decreases |ps|
  {
    if ps == [] then v else DeliverAll(md5, Deliver(md5, v, ps[0]).1, ps[1..])
  }

  /** Each authentic payload for an insecure chunk that is not skipped lowers the number of those. */
  lemma AuthenticDeliveryProgresses(md5: Md5, file: seq<Byte>, v: View, p: Arrival)
    requires v.def == Describe(md5, v.def.name, file) && Authentic(file, p)
    requires !Secure(md5, v, p.index) && NotFooled(md5, v, p)
    ensures |Insecure(md5, Deliver(md5, v, p).1)| < |Insecure(md5, v)|
  {
    hide Secure, Deliver, Authentic, Fits, NotFooled;
    var after := Deliver(md5, v, p).1;
    var lost := Insecure(md5, v);
    AuthenticIndex(file, p);
    AuthenticDeliverySecures(md5, file, v, p);
    forall j | j in Insecure(md5, after) ensures j in lost && j != p.index {
      if j !in lost {
        DeliveryKeepsSecure(md5, v, p, j);
      }
    }
    assert p.index in lost;
    SubsetSize(Insecure(md5, after), lost - {p.index});
  }

  /** Over any run of fitting payloads, authentic, corrupt or repeated, no secure chunk is lost. */
  lemma {:induction false} RunKeepsSecure(md5: Md5, v: View, ps: seq<Arrival>, j: nat)
    requires j < NUM_CHUNKS && Secure(md5, v, j)
    requires forall k :: 0 <= k < |ps| ==> Fits(v.def, ps[k])
    ensures Secure(md5, DeliverAll(md5, v, ps), j)
    decreases |ps|
  {
    hide Secure, Deliver, Fits;
    if ps != [] {
      DeliveryKeepsSecure(md5, v, ps[0], j);
      RunKeepsSecure(md5, Deliver(md5, v, ps[0]).1, ps[1..], j);
    }
  }

  /** A payload that is not skipped leaves nothing for a stale entry to say. */
  lemma StaysNotFooled(md5: Md5, v: View, first: Arrival, p: Arrival)
    requires Fits(v.def, first) && 0 <= p.index < NUM_CHUNKS && NotFooled(md5, v, p)
    ensures NotFooled(md5, Deliver(md5, v, first).1, p)
  {
    hide Length, Offset, Slice, Secure, Foolable, Deliver, Has;
    if Has(md5, v, first.stale, first.index) {
      DeliverVerified(md5, v, first);
    } else {
      DeliverFitting(md5, v, first);
      var after := Deliver(md5, v, first).1;
      SecureBySlice(md5, v.def, after.content.value, [], p.index);
      MeaningOfVerified(md5, after, p.stale, p.index);
    }
  }

  /** A chunk delivered authentically anywhere in the run ends secure. */
  lemma {:induction false} RunSecures(md5: Md5, file: seq<Byte>, v: View, ps: seq<Arrival>, k: nat)
    requires v.def == Describe(md5, v.def.name, file)
    requires forall i :: 0 <= i < |ps| ==> Fits(v.def, ps[i])
    requires k < |ps| && Authentic(file, ps[k]) && NotFooled(md5, v, ps[k])
    ensures Secure(md5, DeliverAll(md5, v, ps), ps[k].index)
    decreases |ps|
  {
    hide Secure, Deliver, Fits, Authentic, NotFooled;
    var next := Deliver(md5, v, ps[0]).1;
    AuthenticIndex(file, ps[k]);
    if k == 0 {
      AuthenticDeliverySecures(md5, file, v, ps[0]);
      RunKeepsSecure(md5, next, ps[1..], ps[0].index);
    } else {
      StaysNotFooled(md5, v, ps[0], ps[k]);
      RunSecures(md5, file, next, ps[1..], k - 1);
    }
  }

  lemma AuthenticIndex(file: seq<Byte>, p: Arrival)
    requires Authentic(file, p)
    ensures 0 <= p.index < NUM_CHUNKS
  {}

  /** Some payload of the run carries the true bytes of chunk i, and no stale entry gets it skipped. */
  ghost predicate Supplied(md5: Md5, file: seq<Byte>, v: View, ps: seq<Arrival>, i: nat) {
    exists k :: 0 <= k < |ps| && Authentic(file, ps[k]) && ps[k].index == i && NotFooled(md5, v, ps[k])
  }

  /**
   Once one authentic payload for each insecure chunk has arrived, in any order and among any other
   fitting payloads, every chunk is secure, so download_file leaves its loop.
   */
  lemma DownloadCompletes(md5: Md5, file: seq<Byte>, v: View, ps: seq<Arrival>)
    requires v.def == Describe(md5, v.def.name, file)
    requires forall k :: 0 <= k < |ps| ==> Fits(v.def, ps[k])
    requires forall i :: i in Insecure(md5, v) ==> Supplied(md5, file, v, ps, i)
    ensures Insecure(md5, DeliverAll(md5, v, ps)) == {}
  {
    hide Secure, DeliverAll, Fits, Authentic, NotFooled;
    forall i: nat | i < NUM_CHUNKS ensures Secure(md5, DeliverAll(md5, v, ps), i) {
      if i in Insecure(md5, v) {
        assert Supplied(md5, file, v, ps, i);
        var k :| 0 <= k < |ps| && Authentic(file, ps[k]) && ps[k].index == i && NotFooled(md5, v, ps[k]);
        RunSecures(md5, file, v, ps, k);
      } else {
        RunKeepsSecure(md5, v, ps, i);
      }
    }
  }

  // ---------- What a payload larger than its chunk does ----------

  /** No other byte string has the MD5 of p. */
  ghost predicate Unforgeable(md5: Md5, p: seq<Byte>) {
    forall x :: md5(x) == md5(p) ==> x == p
  }

  ghost predicate UnforgeableFile(md5: Md5, file: seq<Byte>) {
    Unforgeable(md5, file) && forall i :: 0 <= i < NUM_CHUNKS ==> Unforgeable(md5, Slice(file, i))
  }

  /** Payloads of this index and declared size never fault and never un-verify a chunk. */
  ghost predicate Harmless(md5: Md5, def: TDef, index: int, declared: nat) {
    forall v: View, p: Arrival, j: nat | v.def == def && v.content.Some? && |v.content.value| == def.size
      && p.index == index && p.declared == declared <= |p.data| && j < NUM_CHUNKS && Has(md5, v, p.stale, j) ::
      !Deliver(md5, v, p).0.Fault? && Has(md5, Deliver(md5, v, p).1, p.stale, j)
  }

  /** A byte other than x. */
  function Flip(x: Byte): Byte {
    if x == 0 then 1 else 0
  }

  /**
   On a published file, whatever the index, copying is harmless exactly when nothing is copied, or the
   index names a chunk and the declared size fits it.
   */
  lemma HarmlessIffItFits(md5: Md5, name: string, file: seq<Byte>, index: int, declared: nat)
    requires |file| >= MIN_SIZE && UnforgeableFile(md5, file)
    ensures Harmless(md5, Describe(md5, name, file), index, declared) <==>
            declared == 0 || (0 <= index < NUM_CHUNKS && declared <= Length(|file|, index))
  {
    hide Has, Deliver, Length, UnforgeableFile, Describe, Secure, Foolable;
    var def := Describe(md5, name, file);
    DescribedSize(md5, name, file);
    if declared == 0 || (0 <= index < NUM_CHUNKS && declared <= Length(|file|, index)) {
      forall v: View, p: Arrival, j: nat | v.def == def && v.content.Some? && |v.content.value| == def.size
        && p.index == index && p.declared == declared <= |p.data| && j < NUM_CHUNKS && Has(md5, v, p.stale, j)
        ensures !Deliver(md5, v, p).0.Fault? && Has(md5, Deliver(md5, v, p).1, p.stale, j)
      {
        if 0 <= index < NUM_CHUNKS {
          MeaningOfVerified(md5, v, p.stale, j);
          SecureBySlice(md5, def, v.content.value, v.found, j);
          DeliveryKeepsSecure(md5, v, p, j);
          MeaningOfVerified(md5, Deliver(md5, v, p).1, p.stale, j);
        } else {
          EmptyCopyKeepsView(md5, v, p);
          SameContentSameReport(md5, v, Deliver(md5, v, p).1, p.stale, j);
        }
      }
    } else {
      var v, p, j := HarmfulPayload(md5, name, file, index, declared);
    }
  }

  lemma EmptyCopyKeepsView(md5: Md5, v: View, p: Arrival)
    requires !(0 <= p.index < NUM_CHUNKS) && p.declared == 0 && v.content.Some? && |v.content.value| == v.def.size
    ensures !Deliver(md5, v, p).0.Fault?
    ensures Deliver(md5, v, p).1.def == v.def && Deliver(md5, v, p).1.content == v.content
  {
    assert Opened(v) == v.content.value;
  }

  lemma SameContentSameReport(md5: Md5, v: View, w: View, stale: ChunkHashes, j: nat)
    requires j < NUM_CHUNKS && v.def == w.def && v.content == w.content
    ensures Has(md5, v, stale, j) <==> Has(md5, w, stale, j)
  {}

  /** A copy of something to no chunk faults; one larger than its chunk does harm. */
  lemma HarmfulPayload(md5: Md5, name: string, file: seq<Byte>, index: int, declared: nat)
    returns (v: View, p: Arrival, j: nat)
    requires |file| >= MIN_SIZE && UnforgeableFile(md5, file) && declared > 0
    requires 0 <= index < NUM_CHUNKS ==> declared > Length(|file|, index)
    ensures v.def == Describe(md5, name, file) && v.content.Some? && |v.content.value| == |file|
    ensures p.index == index && p.declared == declared <= |p.data|
    ensures j < NUM_CHUNKS && Has(md5, v, p.stale, j)
    ensures Deliver(md5, v, p).0.Fault? || !Has(md5, Deliver(md5, v, p).1, p.stale, j)
  {
    if 0 <= index < NUM_CHUNKS {
      v, p, j := OversizedHarm(md5, name, file, index, declared);
    } else {
      v := View(Describe(md5, name, file), Some(file), []);
      p := Arrival(index, declared, seq<Byte>(declared, _ => 0), NO_HASHES);
      j := 0;
      PublishedVerifies(md5, name, file, [], NO_HASHES);
      NoSuchChunkFaults(md5, v, p);
    }
  }

  lemma NoSuchChunkFaults(md5: Md5, v: View, p: Arrival)
    requires !(0 <= p.index < NUM_CHUNKS) && p.declared > 0 && v.def.size >= MIN_SIZE
    ensures Deliver(md5, v, p).0.Fault?
  {
    if p.index < 0 {
      var c := ChunkSize(v.def.size);
      assert c > 0 && p.index * c < 0;
    }
  }

  lemma DescribedSize(md5: Md5, name: string, file: seq<Byte>)
    ensures Describe(md5, name, file).size == |file|
  {}

  /** The harm: a copy that runs past its chunk faults or damages the verified chunk after it. */
  lemma OversizedHarm(md5: Md5, name: string, file: seq<Byte>, index: nat, declared: nat)
    returns (v: View, p: Arrival, j: nat)
    requires |file| >= MIN_SIZE && UnforgeableFile(md5, file) && index < NUM_CHUNKS
    requires declared > Length(|file|, index)
    ensures v.def == Describe(md5, name, file) && v.content.Some? && |v.content.value| == |file|
    ensures p.index == index && p.declared == declared <= |p.data|
    ensures j < NUM_CHUNKS && Has(md5, v, p.stale, j)
    ensures Deliver(md5, v, p).0.Fault? || !Has(md5, Deliver(md5, v, p).1, p.stale, j)
  {
    var def, n, at := Describe(md5, name, file), Length(|file|, index), Offset(|file|, index);
    ChunkLengths(|file|, index);
    var bad := Patch(file, at, [Flip(file[at])]);
    j := if index < NUM_CHUNKS - 1 then index + 1 else 0;
    v := View(def, Some(bad), []);
    var wrong: Byte := if at + n < |file| then Flip(file[at + n]) else 0;
    p := Arrival(index, declared, seq<Byte>(declared, _ => wrong), NO_HASHES);
    DamagedChunkMissing(md5, name, file, bad, NO_HASHES, index, at);
    WriteStaysInChunk(file, index, [Flip(file[at])], j);
    DescribedHash(md5, name, file, j);
    SecureBySlice(md5, def, bad, [], j);
    MeaningOfVerified(md5, v, NO_HASHES, j);
    if at + declared <= |file| {
      OversizedWrite(md5, v, p);
      var after := Patch(bad, at, p.data);
      NextChunkStarts(|file|, index);
      assert after[at + n] == wrong != file[at + n];
      DamagedChunkMissing(md5, name, file, after, NO_HASHES, j, at + n);
    } else {
      OversizedFaults(md5, v, p);
    }
  }

  lemma DescribedHash(md5: Md5, name: string, file: seq<Byte>, i: nat)
    requires i < NUM_CHUNKS
    ensures Describe(md5, name, file).cHashes[i] == md5(Slice(file, i))
  {}

  lemma NextChunkStarts(size: nat, index: nat)
    requires index < NUM_CHUNKS && size >= MIN_SIZE
    ensures index < NUM_CHUNKS - 1 ==> Offset(size, index + 1) == Offset(size, index) + Length(size, index)
    ensures index == NUM_CHUNKS - 1 ==> Offset(size, index) + Length(size, index) == size
  {}

  lemma OversizedWrite(md5: Md5, v: View, p: Arrival)
    requires 0 <= p.index < NUM_CHUNKS && v.content.Some? && |v.content.value| == v.def.size
    requires !Has(md5, v, p.stale, p.index) && 0 < p.declared == |p.data|
    requires Offset(v.def.size, p.index) + p.declared <= v.def.size
    ensures Deliver(md5, v, p) ==
            (Written, View(v.def, Some(Patch(v.content.value, Offset(v.def.size, p.index), p.data)), []))
  {
    hide Has;
    assert Opened(v) == v.content.value;
    assert p.data[..p.declared] == p.data;
  }

  lemma OversizedFaults(md5: Md5, v: View, p: Arrival)
    requires 0 <= p.index < NUM_CHUNKS && !Has(md5, v, p.stale, p.index) && p.declared > 0
    requires Offset(v.def.size, p.index) + p.declared > v.def.size
    ensures Deliver(md5, v, p).0.Fault?
  {
    hide Has;
  }

  /** Bytes that differ from the file at position q inside chunk i do not verify as chunk i. */
  lemma DamagedChunkMissing(md5: Md5, name: string, file: seq<Byte>, b: seq<Byte>,
                            stale: ChunkHashes, i: nat, q: nat)
    requires UnforgeableFile(md5, file) && |b| == |file| && i < NUM_CHUNKS
    requires Offset(|file|, i) <= q < Offset(|file|, i) + Length(|file|, i) && b[q] != file[q]
    ensures !Has(md5, View(Describe(md5, name, file), Some(b), []), stale, i)
  {
    hide Length, Offset;
    SecureBySlice(md5, Describe(md5, name, file), b, [], i);
    MeaningOfVerified(md5, View(Describe(md5, name, file), Some(b), []), stale, i);
    var r := q - Offset(|file|, i);
    assert Slice(b, i)[r] == b[q] && Slice(file, i)[r] == file[q];
  }

  // ---------- What a file shorter than its definition does ----------

  /** No fitting payload un-verifies chunk j, whatever the stale entries. */
  ghost predicate Keeps(md5: Md5, v: View, j: nat)
    requires j < NUM_CHUNKS
  {
    forall p: Arrival, stale: ChunkHashes | Fits(v.def, p) && Has(md5, v, stale, j) ::
      Has(md5, Deliver(md5, v, p).1, stale, j)
  }

  /**
   For a published file, however long the node's bytes for it are: fitting payloads never un-verify
   chunk j exactly when those bytes, if there are any, reach the end of the chunk or are the file.
   */
  lemma KeepsIffNotFoolable(md5: Md5, name: string, file: seq<Byte>, content: Option<seq<Byte>>,
                            found: seq<Byte>, j: nat)
    requires |file| >= MIN_SIZE && UnforgeableFile(md5, file) && j < NUM_CHUNKS
    ensures var v := View(Describe(md5, name, file), content, found);
            Keeps(md5, v, j) <==> !Foolable(md5, v, j)
  {
    hide Has, Deliver, Secure, Foolable, Describe, UnforgeableFile, Fits;
    var v := View(Describe(md5, name, file), content, found);
    if Foolable(md5, v, j) {
      var stale, p := ShortFileLosesChunk(md5, name, file, v, j);
    } else {
      forall p: Arrival, stale: ChunkHashes | Fits(v.def, p) && Has(md5, v, stale, j)
        ensures Has(md5, Deliver(md5, v, p).1, stale, j)
      {
        MeaningOfVerified(md5, v, stale, j);
        DeliveryKeepsSecure(md5, v, p, j);
        MeaningOfVerified(md5, Deliver(md5, v, p).1, stale, j);
      }
    }
  }

  /** The loss: reported by a matching stale entry, then one byte of the missing chunk is written. */
  lemma ShortFileLosesChunk(md5: Md5, name: string, file: seq<Byte>, v: View, j: nat)
    returns (stale: ChunkHashes, p: Arrival)
    requires UnforgeableFile(md5, file) && j < NUM_CHUNKS
    requires v.def == Describe(md5, name, file) && Foolable(md5, v, j)
    ensures Fits(v.def, p) && Has(md5, v, stale, j) && !Has(md5, Deliver(md5, v, p).1, stale, j)
  {
    hide Deliver, Describe, UnforgeableFile, Offset, Secure, Has;
    DescribedSize(md5, name, file);
    var at := Offset(|file|, j);
    stale := v.def.cHashes;
    p := Arrival(j, 1, [Flip(file[at])], stale[j := OtherDigest(stale[j])]);
    FoolableNotSecure(md5, v, j);
    MeaningOfVerified(md5, v, stale, j);
    MeaningOfVerified(md5, v, p.stale, j);
    DeliverFitting(md5, v, p);
    var after := Patch(Opened(v), at, p.data[..p.declared]);
    assert after[at] == Flip(file[at]);
    DamagedChunkMissing(md5, name, file, after, stale, j, at);
  }

  /** An empty file on disk is enough: each chunk of a published file can be lost this way. */
  lemma EmptyFileIsFoolable(md5: Md5, name: string, file: seq<Byte>, j: nat)
    requires |file| >= MIN_SIZE && UnforgeableFile(md5, file) && j < NUM_CHUNKS
    ensures Foolable(md5, View(Describe(md5, name, file), Some([]), []), j)
  {
    ChunkLengths(|file|, j);
    DescribedSize(md5, name, file);
  }
}
