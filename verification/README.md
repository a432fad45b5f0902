# Grintorrent: a verified model

A Dafny 4.11 model of the peer-to-peer core of Grintorrent and proofs about it. `dafny verify dfyconfig.toml` checks
the whole project.

## What is modelled

| files | part of the program |
|---|---|
| `Bytes.dfy`, `Tfile.dfy`, `Sets.dfy` | bytes, 16-byte digests read as two words, the mask that picks a slot, definitions and slots |
| `Probing.dfy`, `HashTable.dfy` | the open-addressing table of definitions: probing, adding, doubling, searching |
| `HashTableAsWritten.dfy` | the same three operations exactly as the code has them, and when they work |
| `Chunks.dfy` | cutting a file into eight chunks, block-wise hashing, the bitmap of verified chunks |
| `Delivery.dfy` | the chunk payload, and what one payload, or any run of payloads, does to a node's file |
| `NodeFiles.dfy` | one node's entries and disk, with mappings that share their file, and what each operation does to them |
| `FileStore.dfy`, `Download.dfy` | the operations themselves: publish, list, open, save, verify, answer, take in, and the download loop |
| `Framing.dfy` | sending and receiving messages over a byte stream that splits every write and read as it likes |
| `Peers.dfy` | the list of peers and the broadcast |
| `Tree.dfy`, `Wave.dfy` | one message spreading over the tree of peers: a flooded definition or a relayed request |
| `RelayAsWritten.dfy` | the relay of requests exactly as the code has it |
| `Gossip.dfy`, `Flooding.dfy`, `Rest.dfy` | all definitions at once in a network that nodes keep joining; each flood in it is a wave; it comes to rest |
| `Newcomers.dfy` | how often a node that joins during a flood hears of the definition |
| `Transfer.dfy` | publishing, asking, answering and taking in among any number of nodes, end to end |
| `Round.dfy` | a round of a download with its requests travelling through the tree while everything else goes on |

The main results:

- **The table is a map.** Across any run of additions and searches, and any number of doublings, up to an addition of
  the zero hash, it answers as a finite map in which the first definition of a hash stays (`HTable.Run`,
  `FirstWriteWins`): each search finds exactly the first definition added before (`RepliesAreRight`, `RunFromNew`).
  An empty slot always exists, so probing ends, and re-adding entries while doubling never doubles again.
- **Secure chunks are never lost, and a download ends.** A chunk is secure when the bytes in its place, or the whole
  file, hash as the definition says. Whatever payloads for a file arrive, as long as their declared size fits their
  chunk, no secure chunk of it is lost; once each insecure chunk has arrived intact somewhere among them, and was not
  skipped for a stale match, everything is secure, so the loop ends (`RunKeepsSecure`, `DownloadCompletes`,
  `DownloadEnds`, `DownloadFile`). On a file of the defined length secure is what `verify_tfile` reports
  (`HasIsSecure`). All this for a file that has its path to itself.
- **A round brings the file.** From any state the network can reach: when each chunk the downloader lacks has been
  asked for, then, whatever else goes on, the round takes a bounded number of steps of its own (`RoundEnds`), and when
  it is over and each of those chunks was at some other node, the downloader has exactly the published file
  (`RoundCompletes`); and the asking can always be done (`RequestsGoOut`). Requests travel as in `Wave.dfy`. The
  conditions are those of the next result.
- **When all goes well.** Let no other bytes share the MD5 of a published file or of one of its chunks. Among two or
  more nodes, in every run no node crashes and no secure chunk of any file is lost exactly when files published under
  one name are the same and every published file can be received (`AllWellIff`); no node crashes exactly when files of
  one name have one length and every one can be received (`NobodyGoesDownIff`). As long as files of one name have one
  length, each chunk payload ever sent is the true slice, and a node whose chunks all verify has exactly the published
  file (`PayloadsAreTrue`, `DownloadIsExact`).
- **A flood is exact.** In a settled network of N nodes, among any other traffic, in any order and whoever joins, a
  definition published once is delivered to those nodes exactly N - 1 times and never to one that has it
  (`FloodReachesAllOnce`, `EachFloodIsExact`). A node that joins meanwhile below one of them hears of it from there
  once or twice: twice exactly when the host took it on its peer list before its broadcast and made the list of files
  after it had the definition (`HearsTwiceIff`). In no network is every delivery news once a node may join
  (`NewsIffNobodyJoins`).
- **Nobody misses a definition.** However joins, publications and deliveries interleave, once nothing is in flight or
  under way every table holds exactly the published hashes (`NobodyMissesADefinition`). And it gets there: while
  nobody joins or publishes, every run ends, although a newcomer may hear of a definition twice and pass both copies
  on (`ComesToRest`, `EveryoneLearnsEverything`). Anybody can publish anything new at any time (`NewsGetsEverywhere`).
- **A relayed request is answered** exactly when some other node holds the chunk, by the first holder on each path
  (`AnsweredIffHeld`, `HolderOnPathAnswers`), and there it stops: it never gets behind a holder
  (`NobodyBehindHolder`), and at rest it has reached exactly the nodes with no holder in between
  (`RequestStopsAtHolders`), in a round with other traffic too (`RequestStops`).
- **Framing never mixes anything up.** For every list of messages and every split of the payload calls, what the
  reader gets is an initial part of what was sent; when no call fails, it is everything exactly if each payload fits
  the reader's 100000-byte buffer (`Transmit`).

## Where the code departs from its intent

Each departure is kept as the code has it in one place, with a proof of exactly when the code does what it is for; the
general results are proved of the repaired operation, and the comments say which is which.

- `src/htable.c:48-52, 97-101`: the probe wraps one step late and reads slot `capacity`. Search and add work exactly
  when some slot from the home slot to the last is empty or holds the key (`SearchAsWritten`, `AddAsWritten`); two
  hashes that share the last slot of a new table as home show the failure (`SecondEntryAtLastHomeOverruns`).
- `src/htable.c:64-71`: the copy loop re-adds the slots whose first sixteen hash bits are zero, into the old table,
  which asks for a resize again. While such a slot exists it never returns (`ResizeNeverReturns`), so an addition to a
  reachable table works only when no resize is due (`AddAsWritten`). 129 given definitions go into a new table one
  after the other, and then no addition returns (`TableStopsAt129`); no additions at all, of any definitions, ever get
  further (`NeverGrows`).
- `src/client.c:533, 547-557`: a payload of the wrong size is reported and copied all the same, and the chunk number
  is checked from above only. That is harmless exactly when nothing is copied, or the number is that of a chunk and
  the declared size fits it (`HarmlessIffItFits`).
- `src/client.c:426, 443`: the reader receives a message of any size into 100000 bytes. A list of messages gets
  through exactly when every payload fits (`Transmit`). The chunks of a file do exactly when the last one does behind
  its 24-byte header (`ReceivableIff`): up to 799766 bytes, and no more from 799809 on; 799767 is the first size that
  fails (`ReceivableSizes`). Taking in a payload goes wrong exactly when it is too large (`TakingNeverHarms`), and one
  file that is brings some run to a crash (`LargeFileRun`, in `AllWellIff` and `NobodyGoesDownIff`).
- `src/message.c:69`: the discard loop is never left. `receive_message` returns exactly when the caller takes the
  whole payload (`ReturnsIffAllTaken`), as `readWorker` does.
- `src/client.c:522`: the field that should name the connection to skip lies behind the worker's one-int argument
  (`src/client.c:411-413`), so each worker skips some peer or nobody. Whatever they skip, a request dies out exactly
  when, followed from the requester on, it never crosses a connection twice in one direction (`DiesOutIffNeverRound`).
  When nobody is skipped that is exactly when every peer of the requester holds the chunk (`DiesOutIffPeersHold`);
  with the skipping that was meant it always is so (`SkippingSenderDiesOut`).
- `src/client.c:160-172, 203-216`: both senders of definitions remove a peer to which sending failed while they hold
  the lock that removal takes; the broadcast also gives indices for descriptors. The broadcast finishes exactly when
  sending fails to nobody but the sender (`ShareAsWritten`), the list for a newcomer exactly when no send fails
  (`ShareListAsWritten`); otherwise they keep the lock for ever.
- `src/client.c:609-616`: `capacity` never grows, so the array takes exactly twice its capacity (`AddPeer`, `Run`).
- `src/file.c:305-313`: failed hashing is ignored in `verify_tfile`, so a chunk past the end of a short file is
  compared by whatever the array held. The model carries these stale hashes. They leave the report for chunk i alone
  exactly when the node has no bytes, or the whole file hashes as defined, or the chunk is empty, or the node's file
  reaches the chunk's end (`StaleIrrelevantIff`, whose negation is `Foolable`). A chunk that is not foolable is
  reported iff secure (`MeaningOfVerified`), and fitting payloads never un-verify chunk i of a published file exactly
  when it is not foolable (`KeepsIffNotFoolable`); an empty file on disk loses one to a single byte
  (`ShortFileLosesChunk`, `EmptyFileIsFoolable`).
- `src/file.c:169-183`: a definition without a path is opened under its name, whatever file is there, and cut or
  extended to its size, under any mapping of it. That leaves another entry's view alone exactly when the opened one is
  mapped already, the paths differ, or as much of the file is left as the other had (`OpeningSparesIff`); it cuts a
  mapping exactly when it is on the same path and smaller (`OpeningCutsIff`), and of a published file exactly the
  chunks that end within the new length survive (`SharedNameKeepsChunkIff`). Two nodes that publish different files
  under one name (`src/client.c:110` takes the path for the name) are enough: whoever has the longer one loses a chunk
  of it by fetching the other (`SameNameRun`), and crashes if it was mapped and the lengths differ (`CutRun`); the
  exact conditions are those of `AllWellIff` and `NobodyGoesDownIff`.

## Conventions

The zero hash marks an empty slot; adding it spoils a table, and what comes after that is not modelled. Allocation and
opening of files succeed, and each operation on a node's state is atomic. MD5 (RFC 1321) is any function from bytes to
digests. A pointer into the table is an index. A `Fault`, `Crash`, `OutOfBounds` or `Overrun` is an access outside the
memory it belongs to; `StillRunning`, `Hung` and `SelfDeadlock` are calls that do not come back.

## Model

| member | source | states |
|---|---|---|
| Bytes.MaskIsModulo | src/htable.c:35 | masking with capacity - 1 is reduction modulo a power-of-two capacity |
| Bytes.SameDigest | src/htable.c:44 | comparing two halves of a hash as words is comparing all sixteen bytes |
| Bytes.IsZero | src/htable.c:40 | testing both halves for zero recognises exactly the all-zero hash |
| Bytes.SwapWordTwice | src/client.c:541 | ntohl undoes htonl on every 32-bit word |
| Bytes.SwapWordIsNetworkOrder | src/client.c:592 | a word that went through htonl lies in memory with its most significant byte first |
| Probing.HomeIsHashModuloCapacity | src/htable.c:32-35 | the slot where probing starts is the first half of the hash modulo the capacity |
| Probing.EmptySlotExists | src/htable.c:37-53 | a table with fewer entries than slots has an empty slot, so a probe ends |
| Probing.ProbeAdvances | src/htable.c:48-52 | each step of the cyclic probe comes strictly closer to any empty slot and never passes it |
| Probing.EmptyStopMeansAbsent | src/htable.c:91-92 | a probe that stops at an empty slot proves the key is nowhere in the table |
| Probing.StopIsUnique | src/htable.c:37-53 | all probes for one key stop at the same slot |
| Probing.StoreKeepsTable | src/htable.c:40-43 | storing a new key where its probe stopped keeps every cluster unbroken, keys distinct, and adds one entry to the represented map |
| Probing.RelocateKeepsTable | src/htable.c:68-69 | setting the locations of an entry changes that entry of the map alone |
| HashTable.FirstWriteWins | src/htable.c:27-54 | after any run, a hash is bound exactly if it was added, and to the first definition added for it |
| HashTable.RepliesAreRight | src/htable.c:27-103 | in every run from an empty table, a search finds exactly the first definition added before for its hash, and an addition is refused exactly if there is one |
| HashTable.HTable.constructor | src/htable.c:12-16 | a new table is valid, empty, and represents the empty map |
| HashTable.HTable.Probe | src/htable.c:37-53 | (repaired wrap) the probe ends, at the key's slot if the key is stored and at an empty slot if not |
| HashTable.HTable.Search | src/htable.c:82-103 | (repaired) finds a slot exactly if the hash was added, and that slot holds the hash's entry |
| HashTable.HTable.Add | src/htable.c:27-54 | (repaired) a known hash returns NULL and changes no entry; a new one is stored with no locations; the zero hash is counted and not kept, and spoils the table; the capacity doubles exactly when less than twice the size |
| HashTable.HTable.Resize | src/htable.c:57-78 | (repaired) the capacity doubles and every entry survives with its locations |
| HashTable.HTable.Readd | src/htable.c:67-69 | (repaired) re-adding an entry while resizing stores it with its locations and never resizes again |
| HashTable.HTable.Run | src/htable.c:27-103 | (repaired) any run of additions and searches answers as the first-write-wins map does, one reply per operation, across every resize, up to the first addition of the zero hash; the table is valid after it iff there is none |
| HashTable.HTable.RunFromNew | src/htable.c:12-103 | (repaired) on a new table every reply, up to the first addition of the zero hash, is the one that RepliesAreRight describes |
| HashTableAsWritten.SearchAsWritten | src/htable.c:82-103 | as written, a search stays in the table iff some slot from home to the last is empty or holds the key, and then answers as the map does |
| HashTableAsWritten.AddAsWritten | src/htable.c:27-54 | as written, an addition ever returns with the right table and result iff its hash is not zero, no resize is due and its probe stays in the table |
| HashTableAsWritten.ResizeNeverReturns | src/htable.c:57-78 | as written, a resize of an overfull table that has a slot with sixteen zero hash bits never returns |
| HashTableAsWritten.ResizeDropsEverything | src/htable.c:57-78 | as written, a resize of a table without such a slot returns, with twice the slots, the old count and no entry |
| HashTableAsWritten.TableStopsAt129 | src/htable.c:27-78 | as written, 129 definitions with first bytes 0 to 128 are added to a new table one after the other, and then no addition of anything ever returns |
| HashTableAsWritten.NeverGrows | src/htable.c:27-78 | as written, after any additions that all returned, a table that was new has 256 slots and counts at most 129 entries |
| HashTableAsWritten.SecondEntryAtLastHomeOverruns | src/htable.c:48-52 | as written, the second of two concrete hashes added to a new table is probed for outside it |
| Chunks.SlicesMakeTheFile | src/file.c:89-101 | the eight chunks in order are the whole file, for every size |
| Chunks.SlicesDisjoint | src/file.c:193-204 | no two chunks overlap |
| Chunks.ChunkLengths | src/file.c:88-94 | the last chunk is at most seven bytes longer than the others, and from the minimum size on none is empty |
| Chunks.Md5Hash | src/file.c:22-56 | hashes exactly the bytes [offset, offset + size), for every size, and fails exactly if the file ends before them |
| Chunks.MeaningOfVerified | src/file.c:241-328 | for a file of any length, chunk i is reported iff the bytes in its place or the whole file hash as defined, or it ends past the file and the stale entry matches |
| Chunks.StaleIrrelevantIff | src/file.c:299-313 | stale entries never change the report for chunk i iff there are no bytes, the whole file matches, the chunk is empty or the file reaches its end |
| Chunks.PublishedVerifies | src/file.c:60-119 | a file that was just described verifies completely |
| Chunks.OrSetsOneBit | src/file.c:328 | ORing in the bit of chunk i adds chunk i, if it matched, and changes no other chunk |
| Chunks.FullAndEmptyBitmaps | src/file.h:15-16 | 0xFF is the bitmap with all eight chunks and 0x00 the one with none |
| Chunks.OneChunkBitmaps | src/file.c:328 | chunk 0 is the highest bit of the bitmap and chunk 7 the lowest |
| Delivery.DecodeEncode | src/client.c:583-600 | decoding a payload returns its hash, index and bytes, and its size iff that is below 2^32 |
| Delivery.EncodeLayout | src/client.c:583-600 | a payload is the hash, the index with its low byte first, the size with its high byte first, then the chunk |
| Delivery.WriteStaysInChunk | src/client.c:557 | a copy no larger than its chunk leaves every other chunk as it was |
| Delivery.DeliverMeans | src/client.c:530-558 | for every payload, fitting or not: it is skipped iff reported, faults iff its copy leaves the buffer or the file, and otherwise overwrites exactly the declared bytes from the start of the chunk on |
| Delivery.DeliveryKeepsSecure | src/client.c:530-558 | a payload that fits its chunk, whatever its bytes and however long the node's file, faults nowhere and harms no secure chunk |
| Delivery.AuthenticDeliverySecures | src/client.c:530-558 | the true bytes of a chunk make it secure iff they are not skipped for a chunk that is reported without being so |
| Delivery.AuthenticDeliveryProgresses | src/client.c:530-558 | true bytes for an insecure chunk, unless so skipped, strictly lower the number of insecure chunks |
| Delivery.RunKeepsSecure | src/client.c:530-558 | no run of fitting payloads, true, corrupt or repeated, harms a secure chunk |
| Delivery.DownloadCompletes | src/client.c:682-717 | after a run of fitting payloads with one true payload per insecure chunk, none of those skipped for a stale match, in any order, every chunk is secure |
| Delivery.HarmlessIffItFits | src/client.c:533-557 | as written, payloads of an index and declared size are harmless to a published file iff the size is zero, or the index is that of a chunk and the size fits it |
| Delivery.KeepsIffNotFoolable | src/client.c:530-558 | fitting payloads never un-verify chunk i of a published file iff the node's bytes, if any, reach the chunk's end or are the file |
| Delivery.ShortFileLosesChunk | src/file.c:299-313 | wherever that fails, a stale match and a fitting payload of one byte lose the chunk |
| Delivery.EmptyFileIsFoolable | src/file.c:299-313 | an empty file on disk is such a case, for each chunk of a published file |
| FileStore.ListTfiles | src/file.c:137-149 | lists each stored definition of nonzero size, only stored ones, no hash twice, in the order of the slots |
| FileStore.SizedInOrder | src/file.c:137-149 | what is listed from two parts of a table is what is listed from the first, then from the second |
| FileStore.EarlyStopDropsNothing | src/file.c:141 | stopping once as many definitions are listed as there are entries drops none |
| FileStore.Store.GenerateTfile | src/file.c:60-119 | publishes exactly a file that exists, is long enough and is new, under its true definition and path, kept unless its hash is zero |
| FileStore.Store.AddTfile | src/file.c:122-133 | adds a received definition without locations exactly if its hash is new, kept unless that is zero |
| FileStore.Store.HashOnDisk | src/file.c:302-313 | the chunk hashes of a file on disk, with the stale entry wherever hashing failed |
| FileStore.Store.HashMapped | src/file.c:258-271 | the chunk hashes of a mapped file; the same as from disk on the same bytes |
| FileStore.Store.VerifyTfile | src/file.c:233-331 | crashes exactly on a mapping that its file does not fill; otherwise bit i is set exactly if the node's bytes, mapped or on disk, verify as chunk i |
| FileStore.Store.CompareHashes | src/file.c:319-330 | bit i is set exactly if the i-th hashes agree |
| FileStore.Store.OpenTfile | src/file.c:155-205 | makes an unmapped file as long as defined and maps it, changes nothing else, and returns where the chunk starts and its length |
| FileStore.Store.SaveTfile | src/file.c:208-230 | the entry, if known, is no longer mapped and keeps its definition and path; other entries and every byte of every file stay |
| FileStore.Store.HandleFileData | src/client.c:530-558 | the branch as written has exactly the effect and outcome that Handled gives for entries and disk |
| FileStore.Store.ChunkMessage | src/client.c:571-606 | opens the file; nothing for an empty chunk, a crash if the file does not reach it, otherwise the payload with the file's bytes there, its index and size in the byte order of the wire |
| NodeFiles.HandledIsDeliver | src/client.c:530-558 | unless its mapping is cut, taking in a payload does to the view of its file what Deliver says, though mapping and file are the same bytes |
| NodeFiles.HandledOnlyAt | src/client.c:530-558 | taking in a payload changes the entry it is for and the file on that path, and nothing else |
| NodeFiles.HandledFaultsIff | src/client.c:530-558 | taking in a payload faults iff its mapping is cut, or it is not skipped and copies bytes for an unknown file or outside the buffer or the file; for an unknown file or a reported chunk it changes nothing |
| NodeFiles.SavingKeepsViewIff | src/file.c:208-230 | saving keeps the node's view of the file iff it was not mapped or the file is no longer than defined |
| NodeFiles.SavedUnmaps | src/file.c:208-230 | after saving the entry is unmapped, with its definition and path, and nothing else has changed |
| NodeFiles.SavedStaysVerifiable | src/file.c:155-230 | after saving, no opening of other entries, however many and on whatever paths, makes verifying this one crash |
| NodeFiles.OpeningSparesIff | src/file.c:169-183 | opening one entry leaves another's view alone iff it is mapped already, the paths differ, or as much of the file is left as the other had, mapped or not |
| NodeFiles.OpeningCutsIff | src/file.c:169-183 | opening one entry cuts another's mapping iff it was unmapped, on the same path and smaller |
| NodeFiles.SharedNameKeepsChunkIff | src/file.c:169-183 | a published file, mapped or not, is complete, and after another definition is opened on its path keeps exactly the chunks that end within that definition's size |
| FileStore.HandleRequest | src/client.c:488-529 | crashes iff the mapping is cut; else answers exactly if the chunk is verified, with its slice, or nothing if it is empty; otherwise relays and changes nothing |
| Download.DownloadFile | src/client.c:682-720 | whatever payloads arrive, for any files: each round asks for exactly the missing chunks, each once, in ascending order; the loop ends exactly with every chunk verified, and then saves, which unmaps the file; it crashes exactly when a round does or a mapping it verifies is cut |
| Download.HandleRound | src/client.c:530-558 | a round of payloads for any files does to entries and disk what they do one after the other, up to one that crashes |
| Download.RoundCrashesIff | src/client.c:530-558 | a round crashes iff one of its payloads faults on what those before it left |
| Download.FaultEndsRound | src/client.c:530-558 | what comes after a payload that faults has no effect |
| Download.RoundsOwn | src/client.c:530-558 | the rounds do to a file with a path of its own what its own payloads do |
| Download.BroughtIff | src/client.c:682-717 | what arrives for a file by some round is exactly what its messages in those rounds carry |
| Download.SaneRoundDoesNotCrash | src/client.c:530-558 | while each definition has a path of its own, only a payload that does not fit crashes a round |
| Download.DownloadEnds | src/client.c:682-717 | for a file with a path of its own: when nothing crashes, its payloads fit and some message of some round carries the true bytes of each insecure chunk, not skipped, nothing is missing after the last, whatever the stale entries, so the loop ends |
| Framing.HeaderLayout | src/message.h:13-18 | a header is the type, seven bytes of padding, and the size with its low byte first |
| Framing.SendMessage | src/message.c:8-31 | success means the whole frame went out, failure a proper prefix of it |
| Framing.ReceiveMessage | src/message.c:35-78 | (with `<` in the discard loop) success consumes exactly one frame, delivers the first min(size, payload) bytes, and leaves the rest of the buffer alone, for every split; it fails iff it stops short of the caller's part, and hangs iff it stops after that |
| Framing.ReadPayload | src/message.c:51-63 | the read loop puts the stream's next bytes into the buffer in order, however the reads are split |
| Framing.Discard | src/message.c:66-75 | (with `<`) drops exactly the extra bytes |
| Framing.ReturnsIffAllTaken | src/message.c:66-75 | as written, receive_message returns iff the caller takes the whole payload |
| Framing.RepairedLoopEnds | src/message.c:66-75 | with `<` the loop is left once there were as many replies as extra bytes |
| Framing.ReadMessages | src/client.c:429-448 | reads an initial part of the messages sent, none larger than the buffer, all of them if the stream is used up, and stops before the first that is larger |
| Framing.Transmit | src/message.c:8-99 | for every list of messages and every split, the reader gets an initial part, and when no call fails all of it iff every payload fits the buffer |
| Peers.PeerList.AddPeer | src/client.c:609-624 | adds the peer, within the array exactly while fewer than twice `capacity` peers are live |
| Peers.PeerList.RemovePeer | src/client.c:627-642 | the last peer takes the place of the first occurrence; it blocks exactly if this thread holds the lock already |
| Peers.WithoutRemovesOne | src/client.c:635-640 | removal takes away exactly one occurrence of the descriptor, or nothing |
| Peers.WithoutFillsGap | src/client.c:635-640 | the last peer takes the place of the first occurrence, and all others stay where they are |
| Peers.PeerList.RemovePeers | src/client.c:226-232 | removes the given descriptors one after the other |
| Peers.WithoutAllRemoves | src/client.c:226-232 | exactly the given descriptors are gone, as often as given |
| Peers.OthersExactly | src/client.c:198-212 | a broadcast sends once to each live peer other than the sender |
| Peers.OthersInOrder | src/client.c:198-212 | it sends in the order of the list |
| Peers.FailingAtIs | src/client.c:198-216 | the indices it collects are exactly those of the failing peers other than the sender, in order |
| Peers.PeerList.ShareAsWritten | src/client.c:179-219 | as written, a broadcast finishes iff sending failed to no peer but the sender, and otherwise keeps the lock |
| Peers.PeerList.ShareListAsWritten | src/client.c:148-173 | as written, sending the list to a newcomer finishes iff no send fails, and otherwise stops at the first failure with the lock kept |
| Peers.PeerList.Share | src/client.c:179-232 | (removing descriptors after unlocking) afterwards precisely the failing peers are gone |
| Peers.RunTally | src/client.c:179-232 | over any run each descriptor is live as often as it was added and not removed |
| Peers.PeerList.Run | src/client.c:608-642 | a run stays inside the array exactly while it has room, and leaves what the operations say |
| Tree.OneWayIn | src/client.c:82-103 | a node outside a connected part of the tree has at most one connection into it |
| Tree.ClosedIsEverything | src/client.c:82-103 | a part of the tree closed under connections is the whole tree |
| Tree.NoWayRound | src/client.c:82-103 | whatever lies on the path without repeats between two nodes, every way between them goes through |
| Wave.WaveStops | src/client.c:488-529 | every run of a relay or flood is bounded, and each delivery is the first at its node |
| Wave.FloodReachesAllOnce | src/client.c:469-486 | in every delivery order a flood over N nodes ends after exactly N - 1 deliveries with every node reached |
| Wave.RequestIsAnswered | src/client.c:488-529 | (skipping the incoming connection) a request at rest was answered if some other node held the chunk when it was sent, and only holders answered |
| Wave.AnsweredIffHeld | src/client.c:488-529 | (skipping the incoming connection) a request is answered iff some other node holds the chunk |
| Wave.HolderOnPathAnswers | src/client.c:518-532 | on any path from the requester to a holder, that holder or a node before it answered |
| Wave.NobodyBehindHolder | src/client.c:494-528 | (skipping the incoming connection) on a path without repeats, no node behind one that held the chunk from the start is ever reached |
| Wave.RequestStopsAtHolders | src/client.c:494-532 | (skipping the incoming connection) at rest, if nobody comes to hold the chunk meanwhile, exactly the nodes with no holder strictly between them and the requester were reached, and exactly the holders among those answered |
| Wave.AnswersIffMet | src/client.c:494-511 | in every run a node has answered exactly if the request was delivered to it when it held the chunk, from the start or since |
| RelayAsWritten.DiesOutIffNeverRound | src/client.c:511-528 | as written, whichever peer each worker skips, a request dies out iff followed from the requester it never crosses a connection twice in one direction |
| RelayAsWritten.FollowedIff | src/client.c:511-528 | as written, a walk from the requester is followed iff no node on it before the last holds the chunk or skips the next |
| RelayAsWritten.GetsToUnlessBehind | src/client.c:511-528 | as written, with nobody skipped or with the sender skipped, the request can get exactly to the nodes with no holder between them and the requester |
| RelayAsWritten.DiesOutIffPeersHold | src/client.c:511-528 | as written, when the stray fields are nobody's, a request dies out iff every peer of the requester holds the chunk |
| RelayAsWritten.SkippingSenderDiesOut | src/client.c:511-528 | with each worker skipping where the request came from, it always dies out |
| RelayAsWritten.PingPong | src/client.c:517-526 | as written, with nobody skipped, two connected nodes without the chunk send a request to and fro |
| Gossip.NextKeepsInv | src/client.c:148-219 | every join, publication, delivery and broadcast keeps: what a node knows, each neighbour knows or is about to be told |
| Gossip.NobodyMissesADefinition | src/client.c:395-413 | in every interleaving with joins, a network at rest has exactly the published hashes in every table, each with a published definition |
| Gossip.RunKeepsEntries | src/htable.c:27-54 | in every run a node keeps, under each hash, the first definition it came to know |
| Tree.SideShrinks | src/client.c:198-212 | what a node passes on to another peer always heads into a strictly smaller part of the tree |
| Rest.RunSheds | src/client.c:148-219 | every delivery and every send, duplicates included, lowers the weight of what is in flight or under way |
| Rest.ComesToRest | src/client.c:148-219 | from any reachable network no run of deliveries and sends exceeds a bound, and short of rest another step is possible |
| Rest.EveryoneLearnsEverything | src/client.c:395-413 | when no delivery or send is left to do, every node knows every published hash and no other |
| Rest.NewsGetsEverywhere | src/client.c:106-219 | from any reachable network any number of definitions under new hashes can be published, by whomever, and then some work brings the network to rest with each of them known to every node |
| Flooding.ReachableIsSettled | src/client.c:395-413 | whenever nobody is just joining, each node's peers are exactly its tree neighbours |
| Flooding.RunShows | src/client.c:469-486 | what the nodes of a settled network do among themselves about one definition is a run of the wave, whatever else goes on and whoever joins |
| Flooding.EachFloodIsExact | src/client.c:179-219 | whoever joins, a definition published once is delivered to the N nodes of a settled network at most N - 1 times, only to ones without it, and exactly N - 1 times in the end |
| Newcomers.NewcomerHearsTwice | src/client.c:395-413 | in every settled network every new definition has a flood with one node joining in which that node is told a second time |
| Newcomers.NewsIffNobodyJoins | src/client.c:148-219 | every delivery in every flood with at most k nodes joining is to a node without the definition iff k is zero |
| Newcomers.HearsTwiceIff | src/client.c:148-219 | a newcomer hears from its host once or twice: twice iff the host accepts it before its broadcast and makes the list after it has the definition |
| Transfer.VerifiedIsTrue | src/file.c:319-331 | bytes that verify as a chunk of a published file are that chunk |
| Transfer.AnsweringIsTrue | src/client.c:488-511 | a node answers a request iff it has the chunk, with the true payload, and never crashes or changes anything otherwise |
| Transfer.TakeIsTrue | src/client.c:530-558 | taking in a true payload that the buffer holds faults nowhere, secures its chunk and harms no secure one |
| Transfer.NextKeepsInv | src/client.c:469-558 | where files of one name have one length, every step keeps definitions, paths, file lengths and payloads true to the published files |
| Transfer.StepIsLocal | src/client.c:469-558 | a step changes only its node, and takes it down iff it verifies a cut mapping, gets a payload too large for the buffer, or copies outside buffer or file |
| Transfer.AnyoneCanGoOn | src/client.c:429-558 | in every run, whatever was sent or known at some point can be learnt, answered, taken in or saved at any later one |
| Transfer.AllGetPublished | src/client.c:106-118 | any offers, no two of one node with the same hash, can be published one after the other, and each node then has exactly those it published |
| Transfer.PayloadsAreTrue | src/client.c:571-606 | where files of one name have one length, in every run each payload ever sent is the true slice of the published file |
| Transfer.DownloadIsExact | src/client.c:682-720 | where files of one name have one length, in every run a node at which the download loop can end has exactly the published file |
| Transfer.TakingNeverHarms | src/client.c:426-558 | where files of one name are the same, in every run taking in a payload goes wrong iff it exceeds the buffer, otherwise gains the chunk it carries, and loses no secure chunk of any file |
| Transfer.HasIsSecure | src/file.c:241-331 | on bytes of the defined length a chunk is reported iff it is secure, whatever the stale entries |
| Transfer.NextKeepsSecure | src/client.c:469-558 | where files of one name are the same, no step of any node loses a secure chunk of any file anywhere |
| Transfer.SaveUnmaps | src/file.c:208-230 | saving in a run unmaps the file and changes nothing else anywhere |
| Transfer.ReceivableIff | src/client.c:426-448 | the payloads of all eight chunks of a file fit the buffer iff the last one's does |
| Transfer.ReceivableSizes | src/client.c:426-448 | files up to 799766 bytes can be received; 799767 bytes, and 799809 or more, cannot |
| Transfer.NobodyGoesDownIff | src/client.c:426-558 | among two or more nodes no run brings one down iff files of one name have one length and every published file can be received |
| Transfer.AllWellIff | src/file.c:155-205 | among two or more nodes no run brings one down or loses a secure chunk iff files of one name are the same and every published file can be received |
| Transfer.SameNameRun | src/client.c:106-118 | two different files of one name: a run in which the publisher of one that is no shorter loses a secure chunk of it |
| Transfer.CutRun | src/file.c:176-183 | two files of one name and different length: a run in which the publisher of the longer one crashes |
| Round.AnswersIffHolds | src/client.c:494-511 | a request that arrives is answered iff the node has the chunk, and then with its true bytes |
| Round.RequestStops | src/client.c:494-528 | in a round, whatever else goes on, no request gets past a node that had the chunk at the start; at rest, if nobody but perhaps the asker came to have it meanwhile, it reached exactly the nodes with no such node in between, and exactly those among them with the chunk, but the asker, answered |
| Round.NextKeepsInv | src/client.c:488-558 | every step keeps each request a wave whose holders are the nodes with the chunk, and each answered request's payload pending or taken |
| Round.RequestsGoOut | src/client.c:690-712 | wherever the network has got to, the requests for all that a node lacks can be sent, and sending them changes no node |
| Round.RoundCompletes | src/client.c:682-717 | (skipping the incoming connection; files of one name the same and all receivable) from any reachable state with each missing chunk asked for and held elsewhere, once requests are at rest and answers taken in, the downloader has the published file |
| Round.RoundEnds | src/client.c:682-717 | (on the same conditions, whoever holds what) whatever else goes on, a round takes a bounded number of steps of its own, and before it is over another is possible |

## Left out

- `src/ui.c`, `src/ui_adapter.c`, argument parsing and start-up: no behaviour of the network depends on them.
- Sockets, host names and accept calls: a connection is a tree edge, a byte stream, or a one-shot reply.
- ADDR_SELF and REQUEST_ADDR_SELF messages: the call that would use them is commented out.
- MD5 itself: an unseen library; collisions are excluded only where a result names the hypothesis.
- `ttl`: carried in requests and never consulted.
- Data races on the unlocked table, and failing allocations.
- Definitions of negative size: sizes are natural numbers.
- The port that `download_file` opens, which adds the reply connections to the peer list: a reply is delivered once.
- A mapping is good up to the end of its file; that the rest of the file's last memory page reads as zeros is not
  modelled, nor files changed by other programs.
- In `Transfer.dfy`, publishing an offered file whose bytes have been overwritten since the start.
- Names of NAME_LEN characters or more, which have no end in a definition; offers have shorter ones.
- Peers that leave or whose connections break: only `Peers.dfy` models failing sends.
- A publication that fails because the hash is already known, which `main` broadcasts all the same, is not modelled.
- Framing.Transmit: the whole frame sequence is written before reading starts; reading from a stream that is still
  being written would wait rather than fail.
- Round.RoundCompletes: a reply connection always opens, and a node that is answering or relaying does so as one step.
