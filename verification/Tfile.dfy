/** File definitions exchanged between peers, and the table slots that hold them. */
module Tfile {
  import opened Bytes

  /** Every file is cut into this many chunks. */
  const NUM_CHUNKS: nat := 8

  type ChunkHashes = s: seq<Digest> | |s| == NUM_CHUNKS
    witness [ZERO, ZERO, ZERO, ZERO, ZERO, ZERO, ZERO, ZERO]

  /** tfile_def_t: what peers tell each other about a file. */
  datatype TDef = TDef(name: string, fHash: Digest, cHashes: ChunkHashes, size: nat)

  /** tfile_t: a definition, the file's path where it has one, and whether the file is mapped into memory. */
  datatype Slot = Slot(def: TDef, fLoc: Option<string>, mapped: bool)

  const NO_HASHES: ChunkHashes := [ZERO, ZERO, ZERO, ZERO, ZERO, ZERO, ZERO, ZERO]

  /** A slot as calloc leaves it. */
  const EMPTY_SLOT := Slot(TDef("", ZERO, NO_HASHES, 0), None, false)

  predicate Occupied(s: Slot) {
    s.def.fHash != ZERO
  }
}
