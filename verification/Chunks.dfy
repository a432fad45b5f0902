/**
 How src/file.c cuts a file into eight chunks, hashes them, and reports which chunks a node holds.
 MD5 is an abstract function of the bytes it is fed; MD5_Update appends.
 */
module Chunks {
  import opened Bytes
  import opened Tfile

  const BLOCK_READ_SIZE: nat := 8192
  const MIN_SIZE: nat := 256
  const VERIFIED_FILE: bv8 := 0xFF
  const UNVERIFIED_FILE: bv8 := 0x00

  function ChunkSize(size: nat): nat {
    size / NUM_CHUNKS
  }

  function Offset(size: nat, i: nat): nat {
    i * ChunkSize(size)
  }

  /** The last chunk takes what the other seven leave. */
  function Length(size: nat, i: nat): (n: nat)
    requires i < NUM_CHUNKS
    ensures Offset(size, i) + n <= size
  {
    ChunkFits(size, i);
    if i == NUM_CHUNKS - 1 then size - Offset(size, i) else ChunkSize(size)
  }

  lemma ChunkFits(size: nat, i: nat)
    requires i < NUM_CHUNKS
    ensures Offset(size, i) + ChunkSize(size) <= size
  {
    OffsetsAscend(size, i + 1, NUM_CHUNKS);
  }

  lemma OffsetsAscend(size: nat, i: nat, j: nat)
    requires i <= j
    ensures Offset(size, i) <= Offset(size, j)
    ensures Offset(size, i + 1) == Offset(size, i) + ChunkSize(size)
  {
    assert (j - i) * ChunkSize(size) >= 0;
    assert j * ChunkSize(size) == i * ChunkSize(size) + (j - i) * ChunkSize(size);
  }

  function Slice(b: seq<Byte>, i: nat): (s: seq<Byte>)
    requires i < NUM_CHUNKS
    ensures |s| == Length(|b|, i)
  {
    b[Offset(|b|, i)..][..Length(|b|, i)]
  }

  /** Chunks do not overlap. */
  lemma SlicesDisjoint(size: nat, i: nat, j: nat)
    requires i < j < NUM_CHUNKS
    ensures Offset(size, i) + Length(size, i) <= Offset(size, j)
  {
    OffsetsAscend(size, i, i + 1);
    OffsetsAscend(size, i + 1, j);
  }

  function FirstSlices(b: seq<Byte>, n: nat): seq<Byte>
    requires n <= NUM_CHUNKS
  {
    if n == 0 then [] else FirstSlices(b, n - 1) + Slice(b, n - 1)
  }

  /** The eight chunks, in order, are the whole file. */
  lemma SlicesMakeTheFile(b: seq<Byte>)
    ensures FirstSlices(b, NUM_CHUNKS) == b
  {
    FirstSlicesArePrefix(b, NUM_CHUNKS - 1);
    assert b == b[..Offset(|b|, NUM_CHUNKS - 1)] + b[Offset(|b|, NUM_CHUNKS - 1)..];
  }

  lemma {:induction false} FirstSlicesArePrefix(b: seq<Byte>, n: nat)
    requires n < NUM_CHUNKS
    ensures Offset(|b|, n) <= |b|
    ensures FirstSlices(b, n) == b[..Offset(|b|, n)]
  {
    hide Offset, Length, Slice;
    ChunkFits(|b|, n);
    if n > 0 {
      FirstSlicesArePrefix(b, n - 1);
      SliceExtendsPrefix(b, n - 1);
    } else {
      FirstOffset(|b|);
    }
  }

  lemma FirstOffset(size: nat)
    ensures Offset(size, 0) == 0
  {}

  lemma SliceExtendsPrefix(b: seq<Byte>, i: nat)
    requires i < NUM_CHUNKS - 1
    ensures Offset(|b|, i) <= Offset(|b|, i + 1) <= |b|
    ensures b[..Offset(|b|, i)] + Slice(b, i) == b[..Offset(|b|, i + 1)]
  {
    hide Offset;
    OffsetsAscend(|b|, i, i + 1);
    ChunkFits(|b|, i + 1);
  }

  /** The last chunk is at most seven bytes longer than the rest; from MIN_SIZE on none is empty. */
  lemma ChunkLengths(size: nat, i: nat)
    requires i < NUM_CHUNKS
    ensures ChunkSize(size) <= Length(size, i) <= ChunkSize(size) + 7
    ensures i < NUM_CHUNKS - 1 ==> Length(size, i) == ChunkSize(size)
    ensures size >= MIN_SIZE ==> Length(size, i) > 0
  {}

  /** Files of one length that agree on all eight chunks are equal. */
  lemma SlicesDetermineFile(a: seq<Byte>, b: seq<Byte>)
    requires |a| == |b| && forall i :: 0 <= i < NUM_CHUNKS ==> Slice(a, i) == Slice(b, i)
    ensures a == b
  {
    FirstSlicesAgree(a, b, NUM_CHUNKS);
    SlicesMakeTheFile(a);
    SlicesMakeTheFile(b);
  }

  lemma {:induction false} FirstSlicesAgree(a: seq<Byte>, b: seq<Byte>, n: nat)
    requires n <= NUM_CHUNKS && |a| == |b|
    requires forall i :: 0 <= i < NUM_CHUNKS ==> Slice(a, i) == Slice(b, i)
    ensures FirstSlices(a, n) == FirstSlices(b, n)
  {
    if n > 0 {
      FirstSlicesAgree(a, b, n - 1);
    }
  }

  // ---------- Hashing a range of a file ----------

  /** What hashing `size` bytes at `offset` yields: nothing when the file ends before them. */
  function HashOfRange(md5: Md5, file: seq<Byte>, offset: nat, size: nat): Option<Digest> {
    if size == 0 then Some(md5([]))
    else if offset + size <= |file| then Some(md5(file[offset..][..size]))
    else None
  }

  /** read(2) on a regular file: up to n bytes from the position on. */
  function Read(file: seq<Byte>, pos: nat, n: nat): (s: seq<Byte>)
    ensures |s| <= n
    ensures |s| == n <==> n == 0 || pos + n <= |file|
    ensures |s| == n > 0 ==> s == file[pos..pos + n]
  {
    if pos >= |file| then []
    else if pos + n <= |file| then file[pos..pos + n]
    else file[pos..]
  }

  /** md5_hash: whole blocks first, then the remainder. */
  method Md5Hash(md5: Md5, file: seq<Byte>, offset: nat, size: nat) returns (r: Option<Digest>)
    ensures r == HashOfRange(md5, file, offset, size)
    ensures r.None? <==> size > 0 && offset + size > |file|
    ensures r.Some? ==> r.value == md5(if size == 0 then [] else file[offset..offset + size])
  {
    var pos := offset;
    var context: seq<Byte> := [];
    var blocks := size / BLOCK_READ_SIZE;
    for i := 0 to blocks
      invariant pos == offset + i * BLOCK_READ_SIZE
      invariant i > 0 ==> pos <= |file|
      invariant context == if i == 0 then [] else file[offset..pos]
    {
      var block := Read(file, pos, BLOCK_READ_SIZE);
      if |block| != BLOCK_READ_SIZE {
        return None;
      }
      context := context + block;
      pos := pos + |block|;
    }
    var rest := Read(file, pos, size % BLOCK_READ_SIZE);
    if |rest| != size % BLOCK_READ_SIZE {
      return None;
    }
    context := context + rest;
    assert size == blocks * BLOCK_READ_SIZE + |rest|;
    if size > 0 {
      assert offset + size <= |file|;
      assert context == file[offset..offset + size];
      assert file[offset..][..size] == file[offset..offset + size];
    }
    r := Some(md5(context));
  }

  // ---------- Definitions and verification ----------

  /** The definition that generate_tfile computes for a file. */
  function Describe(md5: Md5, name: string, b: seq<Byte>): TDef {
    var hashes := seq<Digest>(NUM_CHUNKS, i requires 0 <= i < NUM_CHUNKS => md5(Slice(b, i)));
    TDef(name, md5(b), hashes, |b|)
  }

  /**
   The hash verify_tfile compares for chunk i. The result of md5_hash is ignored there, so for a
   chunk past the end of a file on disk the array entry keeps the stale value it had.
   */
  function ChunkHash(md5: Md5, size: nat, b: seq<Byte>, stale: ChunkHashes, i: nat): Digest
    requires i < NUM_CHUNKS
  {
    match HashOfRange(md5, b, Offset(size, i), Length(size, i))
    case Some(d) => d
    case None => stale[i]
  }

  /** Whether bytes b, of whatever length, verify as chunk i of def. */
  predicate ChunkOk(md5: Md5, def: TDef, b: seq<Byte>, stale: ChunkHashes, i: nat)
    requires i < NUM_CHUNKS
  {
    md5(b) == def.fHash || ChunkHash(md5, def.size, b, stale, i) == def.cHashes[i]
  }

  /**
   One node's view of a file: its definition, the node's bytes for it (None while the node has no
   location for it), and what a file of the definition's name holds before there is a location.
   */
  datatype View = View(def: TDef, content: Option<seq<Byte>>, found: seq<Byte>)

  predicate Has(md5: Md5, v: View, stale: ChunkHashes, i: nat)
    requires i < NUM_CHUNKS
  {
    v.content.Some? && ChunkOk(md5, v.def, v.content.value, stale, i)
  }

  ghost predicate HasAll(md5: Md5, v: View, stale: ChunkHashes) {
    forall i :: 0 <= i < NUM_CHUNKS ==> Has(md5, v, stale, i)
  }

  /** Chunk i verifies by itself: the whole file, or the bytes in the chunk's place, hash as defined. */
  predicate Secure(md5: Md5, v: View, i: nat)
    requires i < NUM_CHUNKS
  {
    && v.content.Some?
    && (md5(v.content.value) == v.def.fHash
        || HashOfRange(md5, v.content.value, Offset(v.def.size, i), Length(v.def.size, i)) == Some(v.def.cHashes[i]))
  }

  /** Chunk i ends beyond the node's file, so verify_tfile compares an entry it never wrote. */
  predicate Foolable(md5: Md5, v: View, i: nat)
    requires i < NUM_CHUNKS
  {
    && v.content.Some? && md5(v.content.value) != v.def.fHash
    && Length(v.def.size, i) > 0
    && Offset(v.def.size, i) + Length(v.def.size, i) > |v.content.value|
  }

  /** For a file of any length: a chunk is reported iff it is secure, or a stale entry happens to match. */
  lemma MeaningOfVerified(md5: Md5, v: View, stale: ChunkHashes, i: nat)
    requires i < NUM_CHUNKS
    ensures Has(md5, v, stale, i) <==>
            Secure(md5, v, i) || (Foolable(md5, v, i) && stale[i] == v.def.cHashes[i])
  {}

  /** A digest other than d. */
  function OtherDigest(d: Digest): (r: Digest)
    ensures r != d
  {
    var first: Byte := if d[0] == 0 then 1 else 0;
    var other := d[0 := first];
    assert other[0] != d[0];
    other
  }

  /** Stale entries leave the report for chunk i alone exactly when the node's file reaches its end. */
  lemma StaleIrrelevantIff(md5: Md5, v: View, i: nat)
    requires i < NUM_CHUNKS
    ensures (forall s, o :: Has(md5, v, s, i) <==> Has(md5, v, o, i)) <==> !Foolable(md5, v, i)
  {
    hide Has, Secure, Foolable;
    forall s ensures Has(md5, v, s, i) <==> Secure(md5, v, i) || (Foolable(md5, v, i) && s[i] == v.def.cHashes[i]) {
      MeaningOfVerified(md5, v, s, i);
    }
    if Foolable(md5, v, i) {
      var hit, miss := v.def.cHashes, v.def.cHashes[i := OtherDigest(v.def.cHashes[i])];
      FoolableNotSecure(md5, v, i);
      assert Has(md5, v, hit, i) && !Has(md5, v, miss, i);
    }
  }

  lemma FoolableNotSecure(md5: Md5, v: View, i: nat)
    requires i < NUM_CHUNKS && Foolable(md5, v, i)
    ensures !Secure(md5, v, i)
  {}

  /** On bytes of the defined length a chunk is secure iff its slice, or the whole, hashes as defined. */
  lemma SecureBySlice(md5: Md5, def: TDef, b: seq<Byte>, found: seq<Byte>, i: nat)
    requires i < NUM_CHUNKS && |b| == def.size
    ensures !Foolable(md5, View(def, Some(b), found), i)
    ensures Secure(md5, View(def, Some(b), found), i) <==>
            md5(b) == def.fHash || md5(Slice(b, i)) == def.cHashes[i]
  {
    if Length(def.size, i) == 0 {
      assert Slice(b, i) == [];
    }
  }

  /** A file that was just described verifies completely. */
  lemma PublishedVerifies(md5: Md5, name: string, b: seq<Byte>, found: seq<Byte>, stale: ChunkHashes)
    ensures HasAll(md5, View(Describe(md5, name, b), Some(b), found), stale)
  {}

  /** is_chunk_verified: bit 7 - i of the bitmap; no bit for an index out of range. */
  predicate IsChunkVerified(chunks: bv8, i: int) {
    if i < 0 || i >= NUM_CHUNKS then false
    else (chunks >> (NUM_CHUNKS - 1 - i)) & 1 == 1
  }

  /** The value verify_tfile ORs in for chunk i. */
  function ChunkBit(ok: bool, i: nat): bv8
    requires i < NUM_CHUNKS
  {
    (if ok then 1 else 0 as bv8) << (NUM_CHUNKS - 1 - i)
  }

  /** The bit of chunk i: chunk 0 has the most significant one. */
  function Mask(i: nat): bv8
    requires i < NUM_CHUNKS
  {
    match i
    case 0 => 0x80 case 1 => 0x40 case 2 => 0x20 case 3 => 0x10
    case 4 => 0x08 case 5 => 0x04 case 6 => 0x02 case _ => 0x01
  }

  /** The bitmap with chunk i alone: chunk 0 is the highest bit, chunk 7 the lowest. */
  lemma OneChunkBitmaps(i: nat, j: nat)
    requires i < NUM_CHUNKS && j < NUM_CHUNKS
    ensures var bitmaps: seq<bv8> := [0x80, 0x40, 0x20, 0x10, 0x08, 0x04, 0x02, 0x01];
            && ChunkBit(true, i) == bitmaps[i]
            && (IsChunkVerified(bitmaps[i], j) <==> i == j)
  {
    hide IsChunkVerified, ChunkBit;
    ShiftedBit(i);
    SelectedBit(Mask(i), j);
  }

  lemma OrSetsOneBit(chunks: bv8, ok: bool, i: nat, j: nat)
    requires i < NUM_CHUNKS && j < NUM_CHUNKS
    ensures IsChunkVerified(chunks | ChunkBit(ok, i), j) <==>
            IsChunkVerified(chunks, j) || (ok && i == j)
  {
    hide IsChunkVerified, ChunkBit;
    ShiftedBit(i);
    SelectedBit(chunks, j);
    SelectedBit(chunks | ChunkBit(ok, i), j);
    MasksAreDisjoint(chunks, i, j);
  }

  lemma MasksAreDisjoint(chunks: bv8, i: nat, j: nat)
    requires i < NUM_CHUNKS && j < NUM_CHUNKS
    ensures (chunks | Mask(i)) & Mask(j) != 0 <==> chunks & Mask(j) != 0 || i == j
  {}

  lemma ShiftedBit(i: nat)
    requires i < NUM_CHUNKS
    ensures ChunkBit(true, i) == Mask(i)
    ensures ChunkBit(false, i) == 0
  {}

  lemma SelectedBit(chunks: bv8, i: nat)
    requires i < NUM_CHUNKS
    ensures IsChunkVerified(chunks, i) <==>
            chunks & Mask(i) != 0
  {}

  /** VERIFIED_FILE is the bitmap with all eight bits, UNVERIFIED_FILE the one with none. */
  lemma FullAndEmptyBitmaps(chunks: bv8)
    ensures chunks == VERIFIED_FILE <==> forall i :: 0 <= i < NUM_CHUNKS ==> IsChunkVerified(chunks, i)
    ensures chunks == UNVERIFIED_FILE <==>
            forall i :: 0 <= i < NUM_CHUNKS ==> !IsChunkVerified(chunks, i)
  {
    forall i | 0 <= i < NUM_CHUNKS
      ensures IsChunkVerified(chunks, i) <==>
              chunks & Mask(i) != 0
    {
      SelectedBit(chunks, i);
    }
    if forall i :: 0 <= i < NUM_CHUNKS ==> IsChunkVerified(chunks, i) {
      assert IsChunkVerified(chunks, 0) && IsChunkVerified(chunks, 1) && IsChunkVerified(chunks, 2);
      assert IsChunkVerified(chunks, 3) && IsChunkVerified(chunks, 4) && IsChunkVerified(chunks, 5);
      assert IsChunkVerified(chunks, 6) && IsChunkVerified(chunks, 7);
    }
    if forall i :: 0 <= i < NUM_CHUNKS ==> !IsChunkVerified(chunks, i) {
      assert !IsChunkVerified(chunks, 0) && !IsChunkVerified(chunks, 1) && !IsChunkVerified(chunks, 2);
      assert !IsChunkVerified(chunks, 3) && !IsChunkVerified(chunks, 4) && !IsChunkVerified(chunks, 5);
      assert !IsChunkVerified(chunks, 6) && !IsChunkVerified(chunks, 7);
    }
  }
}
