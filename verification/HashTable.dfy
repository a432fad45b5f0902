/**
 The tfile table of src/htable.c: open addressing with linear probing, doubling when more than half
 full. The class follows the code with two repairs, each of which the module HashTableAsWritten
 compares with the code as it stands:
 - the probe wraps from the last slot to slot 0 (the code first steps onto slot `capacity`);
 - resizing re-adds every occupied entry, with its locations, into the new table (the code tests
   for emptiness the wrong way round and re-adds into the old table).
 A tfile_t pointer is an index into the table. Each call is atomic and allocation succeeds.
 */
module HashTable {
  import opened Bytes
  import opened Tfile
  import opened Probing

  const STARTING_CAPACITY: nat := 256

  lemma StartingCapacityIsPow2()
    ensures IsPow2(STARTING_CAPACITY)
  {
    assert IsPow2(2) && IsPow2(4) && IsPow2(8);
    assert IsPow2(16) && IsPow2(32) && IsPow2(64);
  }

  datatype Op = AddOp(def: TDef) | FindOp(hash: Digest)
  datatype Reply = Stored | Duplicate | Found(slot: Slot) | Absent

  /** The zero hash marks an empty slot; a definition that carries it is counted but not kept. */
  predicate Proper(op: Op) {
    op.AddOp? ==> op.def.fHash != ZERO
  }

  /** The position of the first addition of the zero hash, or |ops|. */
  function FirstImproper(ops: seq<Op>): (i: nat)
    ensures i <= |ops| && (i < |ops| ==> !Proper(ops[i])) && forall k :: 0 <= k < i ==> Proper(ops[k])
  {
    if ops == [] || !Proper(ops[0]) then 0 else 1 + FirstImproper(ops[1..])
  }

  /** What one operation means on a finite map: the first definition of a hash stays. */
  function Meaning(m: map<Digest, Slot>, op: Op): (map<Digest, Slot>, Reply) {
    match op
    case AddOp(def) =>
      if def.fHash in m then (m, Duplicate) else (m[def.fHash := Slot(def, None, false)], Stored)
    case FindOp(d) => (m, if d in m then Found(m[d]) else Absent)
  }

  function MeaningOfRun(m: map<Digest, Slot>, ops: seq<Op>): (r: (map<Digest, Slot>, seq<Reply>))
    ensures |r.1| == |ops|
  {
    if ops == [] then (m, [])
    else
      var before := MeaningOfRun(m, ops[..|ops| - 1]);
      var last := Meaning(before.0, ops[|ops| - 1]);
      (last.0, before.1 + [last.1])
  }

  /** The position of the first addition of d in ops, or |ops|. */
  function FirstAdd(ops: seq<Op>, d: Digest): (i: nat)
    ensures i <= |ops|
    ensures i < |ops| ==> ops[i].AddOp? && ops[i].def.fHash == d
    ensures forall k :: 0 <= k < i && ops[k].AddOp? ==> ops[k].def.fHash != d
  {
    if ops == [] then 0
    else
      var i := FirstAdd(ops[..|ops| - 1], d);
      if i < |ops| - 1 then i
      else if ops[i].AddOp? && ops[i].def.fHash == d then i
      else |ops|
  }

  /** After any run on an empty table, each hash is bound to the first definition added for it. */
  lemma {:induction false} FirstWriteWins(ops: seq<Op>, d: Digest)
    ensures var m := MeaningOfRun(map[], ops).0;
            var i := FirstAdd(ops, d);
            && (d in m <==> i < |ops|)
            && (d in m ==> m[d] == Slot(ops[i].def, None, false))
  {
    if ops != [] {
      FirstWriteWins(ops[..|ops| - 1], d);
    }
  }

  /**
   What operation k of a run on an empty table must answer: a search finds the first definition added before
   for its hash, with no locations, if there is one; an addition is a duplicate exactly if there is one.
   */
  predicate RightReply(ops: seq<Op>, k: nat, reply: Reply)
    requires k < |ops|
  {
    match ops[k]
    case FindOp(d) =>
      var i := FirstAdd(ops[..k], d);
      reply == if i < k then Found(Slot(ops[i].def, None, false)) else Absent
    case AddOp(def) => reply == if FirstAdd(ops[..k], def.fHash) < k then Duplicate else Stored
  }

  /** The finite map answers so, every operation of every run. */
  lemma {:induction false} RepliesAreRight(ops: seq<Op>, k: nat)
    requires k < |ops|
    ensures RightReply(ops, k, MeaningOfRun(map[], ops).1[k])
  {
    hide FirstAdd;
    var init := ops[..|ops| - 1];
    if k < |init| {
      RepliesAreRight(init, k);
      assert init[..k] == ops[..k];
    } else {
      match ops[k] {
        case FindOp(d) => FirstWriteWins(init, d);
        case AddOp(def) => FirstWriteWins(init, def.fHash);
      }
    }
  }

  class HTable {
    var capacity: nat
    var size: nat
    var table: array<Slot>
    /** The abstract value: which slot each stored hash has. */
    ghost var entries: map<Digest, Slot>

    ghost predicate Valid()
      reads this, table
    {
      && capacity == table.Length && IsPow2(capacity) && STARTING_CAPACITY <= capacity
      && 2 * size <= capacity + 2
      && size == Count(table[..]) == |entries|
      && Clustered(table[..]) && Distinct(table[..]) && EmptiesBlank(table[..])
      && Represents(table[..], entries)
    }

    /** init_htable, for any power-of-two capacity. */
    constructor (n: nat)
      requires IsPow2(n) && STARTING_CAPACITY <= n
      ensures Valid() && fresh(table)
      ensures entries == map[] && size == 0 && capacity == n
    {
      capacity := n;
      size := 0;
      table := new Slot[n](_ => EMPTY_SLOT);
      entries := map[];
      new;
      CountBlank(table[..]);
    }

    /** The probe loop shared by add_htable and search_htable. */
    method Probe(d: Digest) returns (i: nat)
      requires Valid()
      ensures i < table.Length && StopsAt(table[..], d, i)
      ensures d in entries <==> Occupied(table[i])
      ensures d in entries ==> entries[d] == table[i]
    {
      hide Home, IsPow2, IsZero, SameDigest, Clustered, Distinct, Represents, PassedOthers, Count;
      ghost var t := table[..];
      ghost var e := EmptySlotExists(t);
      i := Home(d, capacity);
      ProbeStarts(t, d);
      while true
        invariant i < capacity && PassedOthers(t, d, i)
        decreases capacity - Steps(Home(d, capacity), i, capacity)
      {
        assert t[i] == table[i];
        if IsZero(table[i].def.fHash) {
          EmptyStopMeansAbsent(t, d, i);
          AbsentFromMap(t, entries, d);
          return;
        } else if SameDigest(d, table[i].def.fHash) {
          PresentInMap(t, entries, i);
          return;
        }
        ProbeAdvances(t, d, i, e);
        i := if i + 1 == capacity then 0 else i + 1;
      }
    }

    /** search_htable. */
    method Search(d: Digest) returns (r: Option<nat>)
      requires Valid()
      ensures r.Some? <==> d in entries
      ensures r.Some? ==> r.value < table.Length && Occupied(table[r.value]) && table[r.value] == entries[d]
    {
      var i := Probe(d);
      r := if IsZero(table[i].def.fHash) then None else Some(i);
    }

    /**
     add_htable: stores a new definition with no locations; a known hash changes no entry. The zero hash is
     written to a slot that still counts as empty, and the size no longer agrees with the entries.
     */
    method Add(def: TDef) returns (r: Option<nat>)
      requires Valid()
      modifies this, table
      ensures (Valid() <==> def.fHash != ZERO) && (table == old(table) || fresh(table))
      ensures r.None? <==> def.fHash in old(entries)
      ensures entries == if r.None? || def.fHash == ZERO then old(entries)
                         else old(entries)[def.fHash := Slot(def, None, false)]
      ensures size == if r.None? then old(size) else old(size) + 1
      ensures r.Some? ==> r.value < table.Length && table[r.value] == Slot(def, None, false)
      ensures capacity == if old(capacity) < 2 * old(size) then 2 * old(capacity) else old(capacity)
      ensures old(capacity) >= 2 * old(size) ==> table == old(table)
      decreases if capacity < 2 * size then 2 else 0, 0
    {
      hide Clustered, Distinct, EmptiesBlank, Represents, IsPow2, Count;
      if capacity < size * 2 {
        Resize();
      }
      r := Insert(def);
    }

    /** The part of add_htable after its capacity check. */
    method Insert(def: TDef) returns (r: Option<nat>)
      requires Valid() && 2 * size <= capacity
      modifies `size, `entries, table
      ensures Valid() <==> def.fHash != ZERO
      ensures r.None? <==> def.fHash in old(entries)
      ensures entries == if r.None? || def.fHash == ZERO then old(entries)
                         else old(entries)[def.fHash := Slot(def, None, false)]
      ensures size == if r.None? then old(size) else old(size) + 1
      ensures r.Some? ==> r.value < table.Length && table[r.value] == Slot(def, None, false)
    {
      hide Clustered, Distinct, EmptiesBlank, Represents, IsPow2, Count, StopsAt, IsZero;
      ZeroAbsent(table[..], entries);
      var i := Probe(def.fHash);
      if IsZero(table[i].def.fHash) {
        ghost var t, s := table[..], Slot(def, None, false);
        assert t[i] == table[i];
        BlankSlot(t, i);
        if def.fHash != ZERO {
          StoreKeepsTable(t, entries, s, i);
          entries := entries[def.fHash := s];
        }
        table[i] := table[i].(def := def);
        assert table[..] == t[i := s];
        size := size + 1;
        r := Some(i);
      } else {
        r := None;
      }
    }

    /** Says where the file of the entry in slot i is, as the callers of add and search do. */
    method SetLocations(i: nat, fLoc: Option<string>, mapped: bool)
      requires i < table.Length
      modifies this`entries, table
      ensures old(Valid() && Occupied(table[i])) ==>
                Valid() && entries == old(entries[table[i].def.fHash := Slot(table[i].def, fLoc, mapped)])
      ensures !old(Occupied(table[i])) ==> entries == old(entries)
      ensures table[..] == old(table[..])[i := Slot(old(table[i].def), fLoc, mapped)]
    {
      hide Clustered, Distinct, EmptiesBlank, Represents, IsPow2, Count;
      ghost var t := table[..];
      if Valid() && Occupied(table[i]) {
        RelocateKeepsTable(t, entries, Slot(table[i].def, fLoc, mapped), i);
      }
      table[i] := Slot(table[i].def, fLoc, mapped);
      if Occupied(table[i]) {
        entries := entries[table[i].def.fHash := table[i]];
      }
      assert table[..] == t[i := table[i]];
    }

    /** One turn of the loop of resize_htable: add the definition, then set its locations. */
    method Readd(s: Slot)
      requires Valid() && Occupied(s) && s.def.fHash !in entries && 2 * size <= capacity
      modifies this, table
      ensures Valid() && table == old(table) && capacity == old(capacity)
      ensures entries == old(entries)[s.def.fHash := s]
      decreases 0, 1
    {
      hide Clustered, Distinct, EmptiesBlank, Represents, IsPow2, Count;
      var r := Add(s.def);
      SetLocations(r.value, s.fLoc, s.mapped);
    }

    /** resize_htable: every entry, with its locations, moves to a table twice the size. */
    method Resize()
      requires Valid()
      modifies this
      ensures Valid() && fresh(table)
      ensures capacity == 2 * old(capacity)
      ensures entries == old(entries) && size == old(size)
      decreases 1, 0
    {
      hide Clustered, Distinct, EmptiesBlank, Represents, Count;
      var bigger := new HTable(capacity * 2);
      ghost var t := table[..];
      BlankRepresentsNothing(t[..0]);
      var i := 0;
      while i < capacity
        invariant i <= capacity && unchanged(this) && unchanged(table)
        invariant fresh(bigger) && fresh(bigger.table) && bigger.Valid()
        invariant bigger.capacity == 2 * capacity && bigger.size <= i
        invariant Represents(t[..i], bigger.entries)
      {
        PrefixRepresents(t, i, bigger.entries);
        if !IsZero(table[i].def.fHash) {
          bigger.Readd(table[i]);
        }
        i := i + 1;
      }
      assert t[..i] == t;
      RepresentedMapIsUnique(t, entries, bigger.entries);
      table, capacity := bigger.table, bigger.capacity;
    }

    /** One operation answers, and changes the entries, as it does on the finite map. */
    method Do(op: Op) returns (reply: Reply)
      requires Valid()
      modifies this, table
      ensures (Valid() <==> Proper(op)) && (table == old(table) || fresh(table))
      ensures if Proper(op) then (entries, reply) == Meaning(old(entries), op)
              else entries == old(entries) && size == old(size) + 1 && reply == Stored
    {
      hide Clustered, Distinct, EmptiesBlank, Represents, IsPow2, Count;
      ZeroAbsent(table[..], entries);
      match op {
        case AddOp(def) =>
          var r := Add(def);
          reply := if r.Some? then Stored else Duplicate;
        case FindOp(d) =>
          var r := Search(d);
          reply := if r.Some? then Found(table[r.value]) else Absent;
      }
    }

    /**
     Any run of additions and searches answers as the finite map does, across every resize, up to the first
     addition of the zero hash; that one, and it alone, leaves the table with a size that is not its entries'.
     */
    method Run(ops: seq<Op>) returns (replies: seq<Reply>)
      requires Valid()
      modifies this, table
      ensures Valid() <==> forall k :: 0 <= k < |ops| ==> Proper(ops[k])
      ensures table == old(table) || fresh(table)
      ensures var n := FirstImproper(ops);
              && |replies| == (if n < |ops| then n + 1 else n)
              && (entries, replies[..n]) == MeaningOfRun(old(entries), ops[..n])
              && (n < |ops| ==> replies[n..] == [Stored] && size == |entries| + 1)
    {
      hide Clustered, Distinct, EmptiesBlank, Represents, IsPow2, Count, FirstImproper, MeaningOfRun;
      replies := [];
      MeaningOfNone(entries, ops);
      for i := 0 to |ops|
        invariant Valid() && (table == old(table) || fresh(table)) && i <= FirstImproper(ops)
        invariant (entries, replies) == MeaningOfRun(old(entries), ops[..i])
      {
        MeaningOfNext(old(entries), ops, i);
        ghost var before := replies;
        var reply := Do(ops[i]);
        replies := replies + [reply];
        if !Proper(ops[i]) {
          assert i == FirstImproper(ops) && replies[..i] == before && replies[i..] == [Stored];
          return;
        }
      }
      assert replies[..|ops|] == replies;
    }

    /** Any run on a new table, up to the first addition of the zero hash: every operation is rightly answered. */
    static method RunFromNew(ops: seq<Op>) returns (replies: seq<Reply>)
      ensures var n := FirstImproper(ops); |replies| == if n < |ops| then n + 1 else n
      ensures forall k :: 0 <= k < |replies| ==> RightReply(ops, k, replies[k])
    {
      hide Clustered, Distinct, EmptiesBlank, Represents, IsPow2, Count, FirstImproper, MeaningOfRun, RightReply;
      StartingCapacityIsPow2();
      var table := new HTable(STARTING_CAPACITY);
      replies := table.Run(ops);
      ghost var n := FirstImproper(ops);
      forall k | 0 <= k < |replies| ensures RightReply(ops, k, replies[k]) {
        if k < n {
          RepliesAreRight(ops[..n], k);
          PrefixReply(ops, n, k, replies[k]);
        } else {
          assert replies[n] == replies[n..][0];
          ZeroIsNew(ops);
        }
      }
    }
  }

  lemma ZeroIsNew(ops: seq<Op>)
    requires FirstImproper(ops) < |ops|
    ensures RightReply(ops, FirstImproper(ops), Stored)
  {
    hide FirstImproper, FirstAdd;
    var n := FirstImproper(ops);
    forall k | 0 <= k < n ensures ops[..n][k].AddOp? ==> ops[..n][k].def.fHash != ops[n].def.fHash {
      assert Proper(ops[k]);
    }
  }

  lemma PrefixReply(ops: seq<Op>, n: nat, k: nat, reply: Reply)
    requires k < n <= |ops| && RightReply(ops[..n], k, reply)
    ensures RightReply(ops, k, reply)
  {
    assert ops[..n][..k] == ops[..k];
  }

  lemma MeaningOfNone(m: map<Digest, Slot>, ops: seq<Op>)
    ensures MeaningOfRun(m, ops[..0]) == (m, [])
  {}

  lemma MeaningOfNext(m: map<Digest, Slot>, ops: seq<Op>, i: nat)
    requires i < |ops|
    ensures var (before, last) := (MeaningOfRun(m, ops[..i]), MeaningOfRun(m, ops[..i + 1]));
            last == (Meaning(before.0, ops[i]).0, before.1 + [Meaning(before.0, ops[i]).1])
  {
    assert ops[..i + 1][..i] == ops[..i];
  }

  lemma ZeroAbsent(t: seq<Slot>, m: map<Digest, Slot>)
    requires Represents(t, m)
    ensures ZERO !in m
  {}
}
