/**
 A node's files (src/file.c): the operations that publish, list, open, save and verify a file through
 the table, and the chunk sending and receiving of src/client.c on top of them, each proved to do to
 entries and disk what NodeFiles says. Opening and mapping succeed, except that a mapping of no bytes
 fails as mmap does.
 */
module FileStore {
  import opened Bytes
  import opened Tfile
  import opened Probing
  import opened HashTable
  import opened Chunks
  import opened Delivery
  import opened NodeFiles

  // ---------- Listing ----------

  /** The definitions of nonzero size in a run of slots, in order. */
  function Sized(t: seq<Slot>): seq<TDef> {
    if t == [] then []
    else
      var last := t[|t| - 1];
      Sized(t[..|t| - 1]) + if last.def.size > 0 then [last.def] else []
  }

  lemma {:induction false} SizedBound(t: seq<Slot>)
    requires EmptiesBlank(t)
    ensures |Sized(t)| <= Count(t)
  {
    if t != [] {
      SizedBound(t[..|t| - 1]);
    }
  }

  /** Stopping once as many definitions are listed as there are entries drops nothing. */
  lemma {:induction false} EarlyStopDropsNothing(t: seq<Slot>, i: nat)
    requires i <= |t| && EmptiesBlank(t) && |Sized(t[..i])| == Count(t)
    ensures Sized(t) == Sized(t[..i])
  {
    if i == |t| {
      assert t[..i] == t;
    } else {
      var u := t[..|t| - 1];
      assert u[..i] == t[..i];
      SizedBound(t[..i]);
      CountPrefix(u, i);
      EarlyStopDropsNothing(u, i);
    }
  }

  lemma {:induction false} CountPrefix(t: seq<Slot>, i: nat)
    requires i <= |t|
    ensures Count(t[..i]) <= Count(t)
  {
    if i == |t| {
      assert t[..i] == t;
    } else {
      CountPrefix(t[..|t| - 1], i);
      assert t[..|t| - 1][..i] == t[..i];
    }
  }

  /** Each sized slot is listed. */
  lemma {:induction false} SizedComplete(t: seq<Slot>)
    ensures forall j :: 0 <= j < |t| && t[j].def.size > 0 ==> t[j].def in Sized(t)
  {
    if t != [] {
      var u := t[..|t| - 1];
      SizedComplete(u);
      forall j | 0 <= j < |t| && t[j].def.size > 0 ensures t[j].def in Sized(t) {
        if j < |u| {
          assert u[j] == t[j];
        }
      }
    }
  }

  /** Only definitions in occupied slots are listed, and no hash twice. */
  lemma {:induction false} SizedSound(t: seq<Slot>)
    requires EmptiesBlank(t) && Distinct(t)
    ensures forall k :: 0 <= k < |Sized(t)| ==> Sized(t)[k].size > 0 && HoldsDef(t, Sized(t)[k])
    ensures forall k, l :: 0 <= k < l < |Sized(t)| ==> Sized(t)[k].fHash != Sized(t)[l].fHash
  {
    if t != [] {
      var n := |t| - 1;
      var u, last := t[..n], t[n];
      SizedSound(u);
      forall k | 0 <= k < |Sized(u)|
        ensures HoldsDef(t, Sized(u)[k]) && (last.def.size > 0 ==> Sized(u)[k].fHash != last.def.fHash)
      {
        assert HoldsDef(u, Sized(u)[k]);
        var j :| 0 <= j < |u| && Occupied(u[j]) && u[j].def == Sized(u)[k];
        assert Occupied(t[j]) && t[j].def == Sized(u)[k];
      }
      if last.def.size > 0 {
        assert Occupied(t[n]);
        assert HoldsDef(t, last.def);
      }
    }
  }

  /** They are listed in the order of their slots. */
  lemma {:induction false} SizedInOrder(a: seq<Slot>, b: seq<Slot>)
    ensures Sized(a + b) == Sized(a) + Sized(b)
    decreases |b|
  {
    if b == [] {
      assert a + b == a;
    } else {
      var init, last := b[..|b| - 1], b[|b| - 1];
      SizedInOrder(a, init);
      assert (a + b)[..|a + b| - 1] == a + init && (a + b)[|a + b| - 1] == last;
      var here := if last.def.size > 0 then [last.def] else [];
      assert Sized(a) + (Sized(init) + here) == Sized(a) + Sized(init) + here;
    }
  }

  ghost predicate HoldsDef(t: seq<Slot>, def: TDef) {
    exists j :: 0 <= j < |t| && Occupied(t[j]) && t[j].def == def
  }

  /** list_tfiles. */
  method ListTfiles(ht: HTable) returns (list: seq<TDef>)
    requires ht.Valid()
    ensures forall d :: d in ht.entries && ht.entries[d].def.size > 0 ==> ht.entries[d].def in list
    ensures forall k :: 0 <= k < |list| ==>
              && list[k].size > 0 && list[k].fHash in ht.entries
              && ht.entries[list[k].fHash].def == list[k]
    ensures forall k, l :: 0 <= k < l < |list| ==> list[k].fHash != list[l].fHash
    ensures list == Sized(ht.table[..])
  {
    hide Clustered, IsPow2, Distinct, EmptiesBlank, Count, Represents;
    ghost var t := ht.table[..];
    list := [];
    var i := 0;
    while i < ht.capacity && |list| < ht.size
      invariant i <= ht.capacity && list == Sized(t[..i])
    {
      assert t[..i + 1][..i] == t[..i];
      if ht.table[i].def.size > 0 {
        list := list + [ht.table[i].def];
      }
      i := i + 1;
    }
    BlanksInPrefix(t, i);
    SizedBound(t[..i]);
    CountPrefix(t, i);
    if i == ht.capacity {
      assert t[..i] == t;
    } else {
      EarlyStopDropsNothing(t, i);
    }
    SizedComplete(t);
    SizedSound(t);
    ListedAreEntries(t, ht.entries);
  }

  lemma ListedAreEntries(t: seq<Slot>, m: map<Digest, Slot>)
    requires Represents(t, m)
    requires forall j :: 0 <= j < |t| && t[j].def.size > 0 ==> t[j].def in Sized(t)
    ensures forall d :: d in m && m[d].def.size > 0 ==> m[d].def in Sized(t)
    ensures forall def :: HoldsDef(t, def) ==> def.fHash in m && m[def.fHash].def == def
  {
    forall d | d in m && m[d].def.size > 0 ensures m[d].def in Sized(t) {
      var j :| 0 <= j < |t| && Occupied(t[j]) && t[j].def.fHash == d;
      assert m[d] == t[j];
    }
  }

  lemma BlanksInPrefix(t: seq<Slot>, i: nat)
    requires EmptiesBlank(t) && i <= |t|
    ensures EmptiesBlank(t[..i])
  {}

  // ---------- One node's files ----------

  /** What send_chunk_message comes to. */
  datatype Sending = Faulted | Nothing | Message(payload: seq<Byte>)

  class Store {
    const md5: Md5
    const ht: HTable
    var disk: Disk

    ghost predicate Valid()
      reads this, ht, ht.table
    {
      ht.Valid() && forall d :: d in ht.entries ==> SlotOk(d, ht.entries[d])
    }

    /** A node at start-up: an empty table, and whatever files lie on its disk. */
    constructor (md5: Md5, disk: Disk)
      ensures Valid() && fresh(ht) && fresh(ht.table)
      ensures Files() == Node(map[], disk) && this.md5 == md5
    {
      this.md5, this.disk := md5, disk;
      StartingCapacityIsPow2();
      this.ht := new HTable(STARTING_CAPACITY);
    }

    /** The abstract value. */
    ghost function Files(): Node
      reads this, ht
    {
      Node(ht.entries, disk)
    }

    /** generate_tfile: publishes a file of this node; one with the zero hash only spoils the count. */
    method GenerateTfile(path: string, name: string) returns (r: Option<TDef>)
      requires Valid()
      modifies ht, ht.table
      ensures Valid() <==> (r.Some? ==> r.value.fHash != ZERO)
      ensures ht.table == old(ht.table) || fresh(ht.table)
      ensures r.Some? <==> path in disk && |disk[path]| >= MIN_SIZE && md5(disk[path]) !in old(ht.entries)
      ensures r.Some? ==> r.value == Describe(md5, name, disk[path])
      ensures ht.entries == if r.None? || r.value.fHash == ZERO then old(ht.entries)
                            else old(ht.entries)[r.value.fHash := Slot(r.value, Some(path), false)]
    {
      hide Clustered, Distinct, EmptiesBlank, Represents, IsPow2, Count, Describe, ChunkHash;
      if path !in disk {
        return None;
      }
      var file := disk[path];
      if |file| < MIN_SIZE {
        return None;
      }
      var whole := Md5Hash(md5, file, 0, |file|);
      assert file[0..][..|file|] == file;
      var known := ht.Search(whole.value);
      if known.Some? {
        return None;
      }
      var hashes := HashOnDisk(file, |file|, NO_HASHES);
      var def := TDef(name, whole.value, hashes, |file|);
      DescribedHashes(md5, name, file, hashes);
      var added := AddAt(def, Some(path));
      r := Some(def);
    }

    /** The end of generate_tfile and all of add_tfile: adds a definition and sets its path. */
    method AddAt(def: TDef, path: Option<string>) returns (added: bool)
      requires Valid()
      modifies ht, ht.table
      ensures (Valid() <==> def.fHash != ZERO) && (ht.table == old(ht.table) || fresh(ht.table))
      ensures added <==> def.fHash !in old(ht.entries)
      ensures ht.entries == if added && def.fHash != ZERO then old(ht.entries)[def.fHash := Slot(def, path, false)]
                            else old(ht.entries)
    {
      hide Clustered, Distinct, EmptiesBlank, Represents, IsPow2, Count;
      var i := ht.Add(def);
      if i.Some? {
        ht.SetLocations(i.value, path, false);
      }
      added := i.Some?;
    }

    /** add_tfile: stores a definition received from a peer; the zero hash only spoils the count. */
    method AddTfile(def: TDef) returns (added: bool)
      requires Valid()
      modifies ht, ht.table
      ensures (Valid() <==> def.fHash != ZERO) && (ht.table == old(ht.table) || fresh(ht.table))
      ensures added <==> def.fHash !in old(ht.entries)
      ensures ht.entries == if added && def.fHash != ZERO then old(ht.entries)[def.fHash := Slot(def, None, false)]
                            else old(ht.entries)
    {
      added := AddAt(def, None);
    }

    /** The chunk hashes of a file on disk: the last chunk first, then the other seven. */
    method HashOnDisk(file: seq<Byte>, size: nat, stale: ChunkHashes) returns (hashes: ChunkHashes)
      ensures forall i :: 0 <= i < NUM_CHUNKS ==> hashes[i] == ChunkHash(md5, size, file, stale, i)
    {
      hashes := stale;
      var chunkSize := size / NUM_CHUNKS;
      var offset := chunkSize * (NUM_CHUNKS - 1);
      var last := Md5Hash(md5, file, offset, size - offset);
      if last.Some? {
        hashes := hashes[NUM_CHUNKS - 1 := last.value];
      }
      for i := 0 to NUM_CHUNKS - 1
        invariant forall k :: 0 <= k < i || k == NUM_CHUNKS - 1 ==>
                    hashes[k] == ChunkHash(md5, size, file, stale, k)
        invariant forall k :: i <= k < NUM_CHUNKS - 1 ==> hashes[k] == stale[k]
      {
        var hash := Md5Hash(md5, file, i * chunkSize, chunkSize);
        if hash.Some? {
          hashes := hashes[i := hash.value];
        }
      }
    }

    /** The chunk hashes of a mapped file, each taken in one go. */
    method HashMapped(b: seq<Byte>, ghost stale: ChunkHashes) returns (hashes: ChunkHashes)
      ensures forall i :: 0 <= i < NUM_CHUNKS ==> hashes[i] == ChunkHash(md5, |b|, b, stale, i)
    {
      hashes := NO_HASHES;
      var chunkSize := |b| / NUM_CHUNKS;
      var offset := chunkSize * (NUM_CHUNKS - 1);
      hashes := hashes[NUM_CHUNKS - 1 := md5(b[offset..][..|b| - offset])];
      MappedHash(md5, b, stale, NUM_CHUNKS - 1);
      for i := 0 to NUM_CHUNKS - 1
        invariant forall k :: 0 <= k < i || k == NUM_CHUNKS - 1 ==>
                    hashes[k] == ChunkHash(md5, |b|, b, stale, k)
      {
        ChunkFits(|b|, i);
        hashes := hashes[i := md5(b[chunkSize * i..][..chunkSize])];
        MappedHash(md5, b, stale, i);
      }
    }

    /**
     verify_tfile: bit i of the bitmap says whether the node has chunk i. A mapped file that ends before its
     mapping does crashes it: None.
     */
    method VerifyTfile(d: Digest, stale: ChunkHashes) returns (r: Option<bv8>)
      requires Valid()
      ensures r.None? <==> CannotVerify(Files(), d)
      ensures r.Some? ==> forall i :: 0 <= i < NUM_CHUNKS ==>
                (IsChunkVerified(r.value, i) <==> Reports(md5, Files(), d, stale, i))
    {
      hide Clustered, Distinct, EmptiesBlank, Represents, IsPow2, Count;
      FullAndEmptyBitmaps(UNVERIFIED_FILE);
      FullAndEmptyBitmaps(VERIFIED_FILE);
      var i := ht.Search(d);
      if i.None? {
        return Some(UNVERIFIED_FILE);
      }
      var slot := ht.table[i.value];
      var hashes;
      if slot.mapped {
        var file := FileAt(disk, PathOf(slot));
        if |file| < slot.def.size {
          return None;
        }
        var b := Prefix(file, slot.def.size);
        if SameDigest(md5(b), slot.def.fHash) {
          return Some(VERIFIED_FILE);
        }
        hashes := HashMapped(b, stale);
      } else if slot.fLoc.Some? {
        if slot.fLoc.value !in disk {
          return Some(UNVERIFIED_FILE);
        }
        var file := disk[slot.fLoc.value];
        var whole := Md5Hash(md5, file, 0, |file|);
        assert file[0..][..|file|] == file;
        if SameDigest(whole.value, slot.def.fHash) {
          return Some(VERIFIED_FILE);
        }
        hashes := HashOnDisk(file, slot.def.size, stale);
      } else {
        return Some(UNVERIFIED_FILE);
      }
      var chunks := CompareHashes(hashes, slot.def.cHashes);
      r := Some(chunks);
    }

    /** The comparison loop at the end of verify_tfile. */
    method CompareHashes(hashes: ChunkHashes, expected: ChunkHashes) returns (chunks: bv8)
      ensures forall i :: 0 <= i < NUM_CHUNKS ==> (IsChunkVerified(chunks, i) <==> hashes[i] == expected[i])
    {
      hide IsChunkVerified, ChunkBit;
      FullAndEmptyBitmaps(UNVERIFIED_FILE);
      chunks := UNVERIFIED_FILE;
      for i := 0 to NUM_CHUNKS
        invariant forall k :: 0 <= k < NUM_CHUNKS ==>
                    (IsChunkVerified(chunks, k) <==> k < i && hashes[k] == expected[k])
      {
        var ok := SameDigest(hashes[i], expected[i]);
        var next := chunks | ChunkBit(ok, i);
        assert ok <==> hashes[i] == expected[i];
        forall k: nat | k < NUM_CHUNKS
          ensures IsChunkVerified(next, k) <==> IsChunkVerified(chunks, k) || (ok && i == k)
        {
          OrSetsOneBit(chunks, ok, i, k);
        }
        chunks := next;
      }
    }

    /**
     open_tfile: maps the file, creating it if need be, with the size its definition gives. Returns
     where the chunk starts and how long it is; the chunk number is checked from above only.
     */
    method OpenTfile(d: Digest, chunk: int) returns (r: Option<(int, nat)>)
      requires Valid()
      modifies `disk, ht`entries, ht.table
      ensures Valid()
      ensures Files() == if chunk < NUM_CHUNKS && d in old(ht.entries) then OpenedIn(old(Files()), d) else old(Files())
      ensures r.Some? <==> chunk < NUM_CHUNKS && d in old(ht.entries) && old(ht.entries[d].def.size) > 0
      ensures r.Some? ==> ht.entries[d].mapped && r.value.0 == chunk * ChunkSize(ht.entries[d].def.size)
      ensures r.Some? && 0 <= chunk ==> r.value.1 == Length(ht.entries[d].def.size, chunk)
    {
      hide Clustered, Distinct, EmptiesBlank, Represents, IsPow2, Count, Length, Fit;
      if chunk >= NUM_CHUNKS {
        return None;
      }
      var i := ht.Search(d);
      if i.None? {
        return None;
      }
      var slot := ht.table[i.value];
      if slot.mapped {
        assert ht.entries[d := ht.entries[d]] == ht.entries;
      } else {
        var path := PathOf(slot);
        disk := disk[path := Fit(FileAt(disk, path), slot.def.size)];
        ht.SetLocations(i.value, Some(path), slot.def.size > 0);
        if slot.def.size == 0 {
          return None;
        }
      }
      var chunkSize := slot.def.size / NUM_CHUNKS;
      var at := chunk * chunkSize;
      if chunk == NUM_CHUNKS - 1 {
        LastChunkLength(slot.def.size);
        chunkSize := slot.def.size - at;
      }
      OtherChunkLength(slot.def.size, chunk);
      r := Some((at, chunkSize));
    }

    /** save_tfile: drops the mapping; its bytes are the file's already. */
    method SaveTfile(d: Digest) returns (found: bool)
      requires Valid()
      modifies ht`entries, ht.table
      ensures Valid()
      ensures found <==> d in old(ht.entries)
      ensures Files() == if found then SavedIn(old(Files()), d) else old(Files())
      ensures found ==> d in ht.entries && !ht.entries[d].mapped
      ensures found ==> ht.entries[d].def == old(ht.entries[d].def) && ht.entries[d].fLoc == old(ht.entries[d].fLoc)
      ensures ht.entries.Keys == old(ht.entries.Keys)
      ensures forall e :: e in ht.entries && e != d ==> ht.entries[e] == old(ht.entries)[e]
    {
      hide Clustered, Distinct, EmptiesBlank, Represents, IsPow2, Count;
      var i := ht.Search(d);
      if i.None? {
        return false;
      }
      var slot := ht.table[i.value];
      if slot.mapped {
        ht.SetLocations(i.value, slot.fLoc, false);
      }
      found := true;
    }

    /** The FILE_DATA branch of readWorker, given the receive buffer and whatever it held before. */
    method HandleFileData(buffer: seq<Byte>, stale: ChunkHashes) returns (effect: Effect)
      requires Valid() && |buffer| >= HEADER_SIZE
      modifies `disk, ht`entries, ht.table
      ensures Valid()
      ensures (effect, Files()) == Handled(md5, old(Files()), Decode(buffer), stale)
    {
      hide Decode, IsChunkVerified, Has, HTable.Valid, SlotOk, Fit, Patch, ViewOf, Cut;
      var p := Decode(buffer);
      var chunks := VerifyTfile(p.hash, stale);
      if chunks.None? {
        return Fault;
      }
      BitsInRange(chunks.value, p.index);
      if IsChunkVerified(chunks.value, p.index) {
        return Skipped;
      }
      ghost var before := Files();
      var dest := OpenTfile(p.hash, p.index);
      if p.declared == 0 {
        return Written;
      }
      if dest.None? {
        return Fault;
      }
      var (at, _) := dest.value;
      var slot := ht.Search(p.hash);
      var s := ht.table[slot.value];
      if at < 0 || p.declared > |p.data| || at + p.declared > s.def.size {
        return Fault;
      }
      OpenedLength(before, p.hash);
      disk := disk[PathOf(s) := Patch(FileAt(disk, PathOf(s)), at, p.data[..p.declared])];
      effect := Written;
    }

    /**
     send_chunk_message: the payload for a chunk, or nothing when it cannot be opened or is empty. A chunk
     that the file under the mapping does not reach crashes it.
     */
    method ChunkMessage(d: Digest, chunk: nat) returns (r: Sending)
      requires Valid()
      modifies `disk, ht`entries, ht.table
      ensures Valid()
      ensures Files() == if chunk < NUM_CHUNKS && d in old(ht.entries) then OpenedIn(old(Files()), d) else old(Files())
      ensures chunk >= NUM_CHUNKS || d !in old(ht.entries) ==> r.Nothing?
      ensures chunk < NUM_CHUNKS && d in old(ht.entries) ==>
                var size, file := ht.entries[d].def.size, FileAt(disk, PathOf(ht.entries[d]));
                && (r.Nothing? <==> Length(size, chunk) == 0)
                && (r.Faulted? <==> Length(size, chunk) > 0 && Offset(size, chunk) + Length(size, chunk) > |file|)
                && (r.Message? ==> r.payload == Encode(d, chunk, file[Offset(size, chunk)..][..Length(size, chunk)]))
      ensures r.Message? ==> HeaderIs(r.payload, d, chunk, (|r.payload| - HEADER_SIZE) % 0x1_0000_0000)
    {
      hide HTable.Valid, SlotOk, Fit, Encode, HeaderIs;
      var dest := OpenTfile(d, chunk);
      if dest.None? || dest.value.1 == 0 {
        return Nothing;
      }
      var (at, length) := dest.value;
      var slot := ht.Search(d);
      var file := FileAt(disk, PathOf(ht.table[slot.value]));
      if at + length > |file| {
        return Faulted;
      }
      EncodeLayout(d, chunk, file[at..][..length]);
      r := Message(Encode(d, chunk, file[at..][..length]));
    }
  }

  /**
   The REQUEST_FILE_DATA branch of readWorker up to its decision: a node that has the chunk verified
   answers with its bytes; any other node passes the request on and changes nothing.
   */
  method HandleRequest(store: Store, d: Digest, index: int, stale: ChunkHashes) returns (verdict: Verdict)
    requires store.Valid()
    modifies store`disk, store.ht`entries, store.ht.table
    ensures store.Valid()
    ensures (verdict, store.Files()) == Requested(store.md5, old(store.Files()), d, index, stale)
    ensures verdict.Crashed? <==> CannotVerify(old(store.Files()), d)
    ensures verdict.Answered? <==> !verdict.Crashed? && Reports(store.md5, old(store.Files()), d, stale, index)
    ensures !verdict.Answered? ==> store.Files() == old(store.Files())
    ensures verdict.Answered? ==>
              && store.Files() == OpenedIn(old(store.Files()), d)
              && var v := ViewIn(old(store.Files()), d);
                 verdict.payload == if Length(v.def.size, index) == 0 then None
                                    else Some(Encode(d, index, Slice(Opened(v), index)))
  {
    hide Store.Valid, IsChunkVerified, Has, Encode, Slice, Length, ViewOf, Opened, Offset;
    ghost var before := store.Files();
    var chunks := store.VerifyTfile(d, stale);
    if chunks.None? {
      return Crashed;
    }
    BitsInRange(chunks.value, index);
    if !IsChunkVerified(chunks.value, index) {
      return Relayed;
    }
    assert SlotOk(d, before.entries[d]) by { SlotsOk(store, d); }
    OpenedChunk(before, d, index);
    var sending := store.ChunkMessage(d, index);
    verdict := Answered(if sending.Message? then Some(sending.payload) else None);
  }

  lemma SlotsOk(store: Store, d: Digest)
    requires store.Valid() && d in store.ht.entries
    ensures SlotOk(d, store.ht.entries[d])
  {}

  /** The bytes send_chunk_message takes from a file that is open are the slice that Opened has there. */
  lemma OpenedChunk(n: Node, d: Digest, i: nat)
    requires d in n.entries && SlotOk(d, n.entries[d]) && !Cut(n.entries[d], n.disk) && i < NUM_CHUNKS
    ensures var ready := OpenedIn(n, d);
            var size, file := n.entries[d].def.size, FileAt(ready.disk, PathOf(ready.entries[d]));
            && ready.entries[d].def.size == size && Offset(size, i) + Length(size, i) <= |file|
            && file[Offset(size, i)..][..Length(size, i)] == Slice(Opened(ViewIn(n, d)), i)
  {
    hide Offset, Length, Fit;
    var ready, size := OpenedIn(n, d), n.entries[d].def.size;
    var file := FileAt(ready.disk, PathOf(ready.entries[d]));
    OpenedLength(n, d);
    OpeningIsOpened(n, d);
    ChunkWithin(size, i);
    var b := Opened(ViewIn(n, d));
    assert b == Prefix(file, size);
    PrefixSlice(file, size, Offset(size, i), Length(size, i));
  }

  lemma PrefixSlice(b: seq<Byte>, n: nat, at: nat, k: nat)
    requires at + k <= n <= |b|
    ensures b[at..][..k] == Prefix(b, n)[at..][..k]
  {}

  lemma BitsInRange(chunks: bv8, i: int)
    ensures IsChunkVerified(chunks, i) ==> 0 <= i < NUM_CHUNKS
  {}

  lemma LastChunkLength(size: nat)
    ensures Length(size, NUM_CHUNKS - 1) == size - (NUM_CHUNKS - 1) * (size / NUM_CHUNKS)
  {}

  lemma OtherChunkLength(size: nat, chunk: int)
    ensures 0 <= chunk < NUM_CHUNKS - 1 ==> Length(size, chunk) == size / NUM_CHUNKS
  {}

  lemma DescribedHashes(md5: Md5, name: string, file: seq<Byte>, hashes: ChunkHashes)
    requires forall i :: 0 <= i < NUM_CHUNKS ==> hashes[i] == ChunkHash(md5, |file|, file, NO_HASHES, i)
    ensures Describe(md5, name, file) == TDef(name, md5(file), hashes, |file|)
  {
    forall i | 0 <= i < NUM_CHUNKS ensures hashes[i] == md5(Slice(file, i)) {
      MappedHash(md5, file, NO_HASHES, i);
    }
  }

  /** On a whole file the hash compared for chunk i is that of its i-th slice. */
  lemma MappedHash(md5: Md5, b: seq<Byte>, stale: ChunkHashes, i: nat)
    requires i < NUM_CHUNKS
    ensures ChunkHash(md5, |b|, b, stale, i) == md5(Slice(b, i))
    ensures Slice(b, i) == b[i * ChunkSize(|b|)..][..Length(|b|, i)]
  {
    if Length(|b|, i) == 0 {
      assert Slice(b, i) == [];
    }
  }
}
