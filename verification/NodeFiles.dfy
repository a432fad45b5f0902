/**
 What one node has: its entries and the files on its disk, and what opening, writing, saving, answering and
 taking in do to them (src/file.c:155-230, src/client.c:488-558). A mapping and its file are the same bytes
 (MAP_SHARED), so two entries on one path share them too. Reading or writing through a mapping beyond the
 end of its file is a crash, as is a copy to memory outside a mapping.
 */
module NodeFiles {
  import opened Bytes
  import opened Tfile
  import opened Chunks
  import opened Delivery

  type Disk = map<string, seq<Byte>>

  datatype Node = Node(entries: map<Digest, Slot>, disk: Disk)

  /** The path open_tfile uses: the recorded one, or the definition's name. */
  function PathOf(s: Slot): string {
    if s.fLoc.Some? then s.fLoc.value else s.def.name
  }

  function FileAt(disk: Disk, path: string): seq<Byte> {
    if path in disk then disk[path] else []
  }

  /** What a mapping of n bytes shows of a file. */
  function Prefix(b: seq<Byte>, n: nat): (r: seq<Byte>)
    ensures |b| >= n ==> |r| == n
  {
    if |b| <= n then b else b[..n]
  }

  function ViewOf(s: Slot, disk: Disk): View {
    var file := FileAt(disk, PathOf(s));
    View(s.def,
         if s.mapped then Some(Prefix(file, s.def.size))
         else if s.fLoc.Some? && PathOf(s) in disk then Some(file)
         else None,
         if s.fLoc.None? then file else [])
  }

  /** The node's view of a file it has a definition of. */
  function ViewIn(n: Node, d: Digest): View
    requires d in n.entries
  {
    ViewOf(n.entries[d], n.disk)
  }

  /** The file ends before its mapping does. */
  predicate Cut(s: Slot, disk: Disk) {
    s.mapped && |FileAt(disk, PathOf(s))| < s.def.size
  }

  /** A mapped entry has a path and is not empty. */
  ghost predicate SlotOk(d: Digest, s: Slot) {
    s.def.fHash == d && (s.mapped ==> s.fLoc.Some? && s.def.size > 0)
  }

  // ---------- The operations ----------

  function OpenedSlot(s: Slot): Slot {
    if s.mapped then s else Slot(s.def, Some(PathOf(s)), s.def.size > 0)
  }

  /** Opening makes the file of an unmapped entry as long as its definition says. */
  function OpenedDisk(s: Slot, disk: Disk): Disk {
    if s.mapped then disk else disk[PathOf(s) := Fit(FileAt(disk, PathOf(s)), s.def.size)]
  }

  /** open_tfile. */
  function OpenedIn(n: Node, d: Digest): Node
    requires d in n.entries
  {
    var s := n.entries[d];
    Node(n.entries[d := OpenedSlot(s)], OpenedDisk(s, n.disk))
  }

  /** A copy into the mapping of an entry, that is, into its file. */
  function WrittenIn(n: Node, d: Digest, at: nat, data: seq<Byte>): Node
    requires d in n.entries && at + |data| <= |FileAt(n.disk, PathOf(n.entries[d]))|
  {
    var path := PathOf(n.entries[d]);
    n.(disk := n.disk[path := Patch(FileAt(n.disk, path), at, data)])
  }

  /** save_tfile: the mapping goes, the bytes are in the file already. */
  function SavedIn(n: Node, d: Digest): Node
    requires d in n.entries
  {
    n.(entries := n.entries[d := n.entries[d].(mapped := false)])
  }

  /** The chunk is reported by verify_tfile. */
  predicate Reports(md5: Md5, n: Node, d: Digest, stale: ChunkHashes, index: int) {
    0 <= index < NUM_CHUNKS && d in n.entries && Has(md5, ViewIn(n, d), stale, index)
  }

  /** Verifying a mapped file reads all of its mapping. */
  predicate CannotVerify(n: Node, d: Digest) {
    d in n.entries && Cut(n.entries[d], n.disk)
  }

  /** The FILE_DATA branch of readWorker. */
  function Handled(md5: Md5, n: Node, p: Payload, stale: ChunkHashes): (Effect, Node) {
    if CannotVerify(n, p.hash) then (Fault, n)
    else if Reports(md5, n, p.hash, stale, p.index) then (Skipped, n)
    else if p.hash !in n.entries || p.index >= NUM_CHUNKS then (if p.declared == 0 then Written else Fault, n)
    else
      var ready := OpenedIn(n, p.hash);
      var size := n.entries[p.hash].def.size;
      var at := p.index * ChunkSize(size);
      if p.declared == 0 then (Written, ready)
      else if at < 0 || p.declared > |p.data| || at + p.declared > size then (Fault, ready)
      else
        OpenedLength(n, p.hash);
        (Written, WrittenIn(ready, p.hash, at, p.data[..p.declared]))
  }

  lemma OpenedLength(n: Node, d: Digest)
    requires d in n.entries && !Cut(n.entries[d], n.disk)
    ensures var ready := OpenedIn(n, d);
            && PathOf(ready.entries[d]) == PathOf(n.entries[d])
            && |FileAt(ready.disk, PathOf(ready.entries[d]))| >= n.entries[d].def.size
            && (!n.entries[d].mapped ==>
                  |FileAt(ready.disk, PathOf(ready.entries[d]))| == n.entries[d].def.size)
  {}

  datatype Verdict = Crashed | Relayed | Answered(payload: Option<seq<Byte>>)

  /** The REQUEST_FILE_DATA branch up to its decision: an empty chunk is answered with nothing. */
  function Requested(md5: Md5, n: Node, d: Digest, index: int, stale: ChunkHashes): (Verdict, Node) {
    if CannotVerify(n, d) then (Crashed, n)
    else if !Reports(md5, n, d, stale, index) then (Relayed, n)
    else
      var ready := OpenedIn(n, d);
      (Answered(ChunkPayload(n, d, index)), ready)
  }

  /** The payload of a chunk of an entry that is not cut, once it is open. */
  function ChunkPayload(n: Node, d: Digest, index: nat): Option<seq<Byte>>
    requires d in n.entries && index < NUM_CHUNKS
  {
    if Length(n.entries[d].def.size, index) == 0 then None
    else Some(Encode(d, index, Slice(Opened(ViewIn(n, d)), index)))
  }

  // ---------- In terms of one file ----------

  /** Opening a file that is not cut gives the view that Opened describes. */
  lemma OpeningIsOpened(n: Node, d: Digest)
    requires d in n.entries && SlotOk(d, n.entries[d]) && !Cut(n.entries[d], n.disk)
    ensures var v := ViewIn(n, d);
            && ViewIn(OpenedIn(n, d), d) == View(v.def, Some(Opened(v)), [])
            && !Cut(OpenedIn(n, d).entries[d], OpenedIn(n, d).disk)
  {
    hide Fit;
    var s := n.entries[d];
    OpenedLength(n, d);
    if s.mapped {
      FitSame(ViewIn(n, d).content.value);
    }
  }

  lemma FitSame(b: seq<Byte>)
    ensures Fit(b, |b|) == b
  {}

  /** A copy within the mapping is a patch of what the mapping shows. */
  lemma WritingIsPatch(n: Node, d: Digest, at: nat, data: seq<Byte>)
    requires d in n.entries && SlotOk(d, n.entries[d]) && n.entries[d].mapped && !Cut(n.entries[d], n.disk)
    requires at + |data| <= n.entries[d].def.size
    ensures var v := ViewIn(n, d);
            ViewIn(WrittenIn(n, d, at, data), d) == v.(content := Some(Patch(v.content.value, at, data)))
  {
    var s := n.entries[d];
    PatchedPrefix(FileAt(n.disk, PathOf(s)), s.def.size, at, data);
  }

  lemma PatchedPrefix(b: seq<Byte>, n: nat, at: nat, data: seq<Byte>)
    requires at + |data| <= n <= |b|
    ensures Prefix(Patch(b, at, data), n) == Patch(Prefix(b, n), at, data)
  {}

  /** Unless its file is cut, the FILE_DATA branch does to a known file what Deliver says. */
  lemma HandledIsDeliver(md5: Md5, n: Node, p: Payload, stale: ChunkHashes)
    requires p.hash in n.entries && SlotOk(p.hash, n.entries[p.hash]) && !Cut(n.entries[p.hash], n.disk)
    ensures var (effect, after) := Handled(md5, n, p, stale);
            && p.hash in after.entries
            && (effect, ViewIn(after, p.hash)) ==
               Deliver(md5, ViewIn(n, p.hash), Arrival(p.index, p.declared, p.data, stale))
  {
    hide Has, Fit, Opened, Patch, ViewOf, OpenedDisk, Cut;
    var d := p.hash;
    ViewKeepsDefinition(n.entries[d], n.disk);
    OpeningIsOpened(n, d);
    var (effect, after) := Handled(md5, n, p, stale);
    var at := p.index * ChunkSize(n.entries[d].def.size);
    if effect.Written? && p.declared > 0 && p.index < NUM_CHUNKS {
      OpenedSlotMapped(n.entries[d]);
      OpenedLength(n, d);
      WritingIsPatch(OpenedIn(n, d), d, at, p.data[..p.declared]);
    }
  }

  /**
   A payload crashes the node exactly if verifying does, or it copies something for an unknown file, or for a
   chunk that is not reported outside buffer or mapping. When nothing is known of the file, or the chunk is
   reported, nothing changes.
   */
  lemma HandledFaultsIff(md5: Md5, n: Node, p: Payload, stale: ChunkHashes)
    ensures Handled(md5, n, p, stale).0.Fault? <==>
            || CannotVerify(n, p.hash)
            || (p.declared > 0 && p.hash !in n.entries)
            || (p.declared > 0 && p.hash in n.entries && !Reports(md5, n, p.hash, stale, p.index)
                && !CopyInside(n.entries[p.hash].def, Arrival(p.index, p.declared, p.data, stale)))
    ensures CannotVerify(n, p.hash) || p.hash !in n.entries || Reports(md5, n, p.hash, stale, p.index) ==>
              Handled(md5, n, p, stale).1 == n
  {
    hide Has, Cut, ViewOf;
  }

  lemma OpenedSlotMapped(s: Slot)
    requires s.def.size > 0
    ensures OpenedSlot(s).mapped && OpenedSlot(s).def == s.def
    ensures OpenedSlot(s).fLoc == if s.mapped then s.fLoc else Some(PathOf(s))
  {}

  lemma ViewKeepsDefinition(s: Slot, disk: Disk)
    ensures ViewOf(s, disk).def == s.def
  {}

  /** Saving changes what the node has of the file only if that is longer than its definition. */
  lemma SavingKeepsViewIff(n: Node, d: Digest)
    requires d in n.entries && SlotOk(d, n.entries[d]) && (n.entries[d].mapped ==> PathOf(n.entries[d]) in n.disk)
    ensures ViewIn(SavedIn(n, d), d) == ViewIn(n, d) <==>
            !n.entries[d].mapped || |FileAt(n.disk, PathOf(n.entries[d]))| <= n.entries[d].def.size
  {}

  /** Saving unmaps the entry and changes nothing else: not its definition or path, no other entry, no byte. */
  lemma SavedUnmaps(n: Node, d: Digest)
    requires d in n.entries
    ensures var after := SavedIn(n, d);
            && after.disk == n.disk && after.entries.Keys == n.entries.Keys
            && !after.entries[d].mapped && after.entries[d].def == n.entries[d].def
            && after.entries[d].fLoc == n.entries[d].fLoc
            && forall e :: e in n.entries && e != d ==> after.entries[e] == n.entries[e]
  {}

  /** So from then on, opening other entries, on whatever paths, cannot make verifying it crash. */
  lemma {:induction false} SavedStaysVerifiable(n: Node, d: Digest, others: seq<Digest>)
    requires d in n.entries && forall k :: 0 <= k < |others| ==> others[k] in n.entries && others[k] != d
    ensures !CannotVerify(OpenedAll(SavedIn(n, d), others), d)
  {
    hide OpenedIn, SavedIn;
    SavedUnmaps(n, d);
    OpeningOthersKeepsEntry(SavedIn(n, d), d, others);
  }

  function OpenedAll(n: Node, ds: seq<Digest>): Node
    requires forall k :: 0 <= k < |ds| ==> ds[k] in n.entries
    decreases |ds|
  {
    if ds == [] then n
    else
      OpenedKeepsKeys(n, ds[0]);
      OpenedAll(OpenedIn(n, ds[0]), ds[1..])
  }

  lemma OpenedKeepsKeys(n: Node, d: Digest)
    requires d in n.entries
    ensures OpenedIn(n, d).entries.Keys == n.entries.Keys
  {}

  lemma {:induction false} OpeningOthersKeepsEntry(n: Node, d: Digest, others: seq<Digest>)
    requires d in n.entries && forall k :: 0 <= k < |others| ==> others[k] in n.entries && others[k] != d
    ensures d in OpenedAll(n, others).entries && OpenedAll(n, others).entries[d] == n.entries[d]
    decreases |others|
  {
    if others != [] {
      OpenedKeepsKeys(n, others[0]);
      OpeningOthersKeepsEntry(OpenedIn(n, others[0]), d, others[1..]);
    }
  }

  // ---------- In terms of the other files ----------

  /** Entry d alone may differ, still at its path, and so may the file there, but no other. */
  ghost predicate OnlyAt(d: Digest, n: Node, n': Node)
    requires d in n.entries
  {
    && d in n'.entries && n'.entries == n.entries[d := n'.entries[d]]
    && n'.entries[d].def == n.entries[d].def && PathOf(n'.entries[d]) == PathOf(n.entries[d])
    && forall path :: path != PathOf(n.entries[d]) ==>
         (path in n'.disk <==> path in n.disk) && FileAt(n'.disk, path) == FileAt(n.disk, path)
  }

  /** What the node has of a file on another path is the same. */
  lemma OtherPathsKept(d: Digest, n: Node, n': Node, e: Digest)
    requires d in n.entries && OnlyAt(d, n, n') && e in n.entries && PathOf(n.entries[e]) != PathOf(n.entries[d])
    ensures e in n'.entries && n'.entries[e] == n.entries[e] && ViewIn(n', e) == ViewIn(n, e)
    ensures Cut(n'.entries[e], n'.disk) <==> Cut(n.entries[e], n.disk)
  {
    assert e != d;
  }

  lemma OpenedOnlyAt(n: Node, d: Digest)
    requires d in n.entries
    ensures OnlyAt(d, n, OpenedIn(n, d))
  {
    hide Fit;
  }

  lemma HandledOnlyAt(md5: Md5, n: Node, p: Payload, stale: ChunkHashes)
    requires p.hash in n.entries
    ensures OnlyAt(p.hash, n, Handled(md5, n, p, stale).1)
  {
    hide Fit, Patch, Has;
    OpenedOnlyAt(n, p.hash);
  }

  // ---------- Definitions that share a path ----------

  function Smaller(a: nat, b: nat): nat {
    if a <= b then a else b
  }

  /**
   Opening entry s leaves the node's view of another entry e alone exactly when s is mapped already, their
   paths differ, or as much of the file is left as e had: of a mapped e up to its own size, of one with a
   path the whole file, of one without the bytes that lie on its path.
   */
  lemma OpeningSparesIff(s: Slot, e: Slot, disk: Disk)
    requires e.mapped ==> e.fLoc.Some?
    ensures ViewOf(e, OpenedDisk(s, disk)) == ViewOf(e, disk) <==>
            || s.mapped || PathOf(e) != PathOf(s)
            || (var length := |FileAt(disk, PathOf(s))|;
                if e.mapped then Smaller(e.def.size, s.def.size) == Smaller(e.def.size, length)
                else length == s.def.size && (PathOf(s) in disk || e.fLoc.None?))
  {
    var path := PathOf(s);
    if !s.mapped && PathOf(e) == path {
      var file, after := FileAt(disk, path), Fit(FileAt(disk, path), s.def.size);
      assert FileAt(OpenedDisk(s, disk), path) == after;
      FitIsSameIff(file, s.def.size);
      FitPrefixIff(file, s.def.size, e.def.size);
    }
  }

  lemma FitIsSameIff(b: seq<Byte>, n: nat)
    ensures Fit(b, n) == b <==> |b| == n
  {}

  lemma FitPrefixIff(b: seq<Byte>, n: nat, k: nat)
    ensures Prefix(Fit(b, n), k) == Prefix(b, k) <==> Smaller(k, n) == Smaller(k, |b|)
  {
    assert |Prefix(b, k)| == Smaller(k, |b|) && |Prefix(Fit(b, n), k)| == Smaller(k, n);
  }

  /** A mapping that is whole is cut by opening another entry on its path exactly when that is smaller. */
  lemma OpeningCutsIff(s: Slot, e: Slot, disk: Disk)
    requires e.mapped && !Cut(e, disk)
    ensures Cut(e, OpenedDisk(s, disk)) <==> !s.mapped && PathOf(e) == PathOf(s) && s.def.size < e.def.size
  {
    hide Fit;
  }

  /**
   A published file, mapped or not, on whose path another definition of size n is opened: it was complete,
   and what is left of it are exactly the chunks that end within the first n bytes.
   */
  lemma SharedNameKeepsChunkIff(md5: Md5, name: string, file: seq<Byte>, path: string, mapped: bool,
                                disk: Disk, s: Slot, i: nat)
    requires |file| >= MIN_SIZE && UnforgeableFile(md5, file) && i < NUM_CHUNKS
    requires path in disk && disk[path] == file && !s.mapped && PathOf(s) == path
    ensures var published := Slot(Describe(md5, name, file), Some(path), mapped);
            && Secure(md5, ViewOf(published, disk), i)
            && (Secure(md5, ViewOf(published, OpenedDisk(s, disk)), i) <==>
                Offset(|file|, i) + Length(|file|, i) <= s.def.size)
  {
    hide Offset, Length, UnforgeableFile, Secure;
    var def, b := Describe(md5, name, file), Fit(file, s.def.size);
    var seen := if mapped then Prefix(b, |file|) else b;
    PublishedSecure(md5, name, file, i);
    ChunkFits(|file|, i);
    ResizedSecureIff(md5, name, file, seen, i);
    ChunkWithin(|file|, i);
    assert ViewOf(Slot(def, Some(path), mapped), disk) == View(def, Some(file), []);
    assert ViewOf(Slot(def, Some(path), mapped), OpenedDisk(s, disk)) == View(def, Some(seen), []);
  }

  lemma ChunkWithin(size: nat, i: nat)
    requires i < NUM_CHUNKS
    ensures Offset(size, i) + Length(size, i) <= size
  {}

  lemma PublishedSecure(md5: Md5, name: string, file: seq<Byte>, i: nat)
    requires i < NUM_CHUNKS
    ensures Secure(md5, View(Describe(md5, name, file), Some(file), []), i)
  {}

  /** Of a file that was cut or extended, exactly the chunks that it still reaches are secure. */
  lemma ResizedSecureIff(md5: Md5, name: string, file: seq<Byte>, b: seq<Byte>, i: nat)
    requires |file| >= MIN_SIZE && UnforgeableFile(md5, file) && i < NUM_CHUNKS
    requires b <= file || file <= b
    ensures Secure(md5, View(Describe(md5, name, file), Some(b), []), i) <==>
            Offset(|file|, i) + Length(|file|, i) <= |b|
  {
    hide Offset, Length;
    var at, k := Offset(|file|, i), Length(|file|, i);
    ChunkLengths(|file|, i);
    ChunkWithin(|file|, i);
    if at + k <= |b| {
      assert b[at..][..k] == Slice(file, i);
    }
  }
}
