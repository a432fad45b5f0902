/**
 add_htable, resize_htable and search_htable exactly as src/htable.c has them, on values. A call that
 has not returned after `fuel` loop turns and nested calls is StillRunning; a call that touches
 memory outside the allocation (or writes through NULL) ends as OutOfBounds.
 */
module HashTableAsWritten {
  import opened Bytes
  import opened Tfile
  import opened Probing
  import opened HashTable

  datatype Table = Table(capacity: nat, size: nat, slots: seq<Slot>)

  datatype Walked = Hit(i: nat) | Vacant(i: nat) | PastEnd

  datatype Outcome = Done(table: Table, added: Option<nat>) | OutOfBounds | StillRunning

  predicate Shape(t: Table) {
    IsPow2(t.capacity) && |t.slots| == t.capacity
  }

  /** The probe loop: the wrap test sends index capacity - 1 on to slot `capacity`. */
  function Walk(t: seq<Slot>, d: Digest, i: nat): (w: Walked)
    requires i <= |t|
    ensures w.Hit? ==> i <= w.i < |t| && Occupied(t[w.i]) && t[w.i].def.fHash == d
    ensures w.Vacant? ==> i <= w.i < |t| && !Occupied(t[w.i])
    ensures !w.PastEnd? ==> forall p :: i <= p < w.i ==> Occupied(t[p]) && t[p].def.fHash != d
    decreases |t| - i
  {
    if i == |t| then PastEnd
    else if !Occupied(t[i]) then Vacant(i)
    else if t[i].def.fHash == d then Hit(i)
    else Walk(t, d, i + 1)
  }

  function Insert(t: Table, def: TDef): (o: Outcome)
    requires Shape(t)
    ensures o.Done? ==> Shape(o.table)
  {
    match Walk(t.slots, def.fHash, Home(def.fHash, t.capacity))
    case Vacant(i) =>
      Done(Table(t.capacity, t.size + 1, t.slots[i := t.slots[i].(def := def)]), Some(i))
    case Hit(_) => Done(t, None)
    case PastEnd => OutOfBounds
  }

  function Add(t: Table, def: TDef, fuel: nat): (o: Outcome)
    requires Shape(t)
    ensures o.Done? ==> Shape(o.table)
    decreases fuel, 1
  {
    if t.capacity < t.size * 2 then
      match Resize(t, 0, t.capacity * 2, fuel)
      case Done(t', _) => Insert(t', def)
      case o => o
    else Insert(t, def)
  }

  /** The copy loop of resize_htable from slot i on: it re-adds, into the old table, the slots whose
      first sixteen hash bits are zero, then installs a blank table. */
  function Resize(t: Table, i: nat, newCapacity: nat, fuel: nat): (o: Outcome)
    requires Shape(t) && IsPow2(newCapacity)
    ensures o.Done? ==> Shape(o.table)
    decreases fuel, 0
  {
    if fuel == 0 then StillRunning
    else if i >= t.capacity then
      Done(Table(newCapacity, t.size, seq(newCapacity, _ => EMPTY_SLOT)), None)
    else if LowBitsZero(t.slots[i]) then
      match Add(t, t.slots[i].def, fuel - 1)
      case Done(t', r) =>
        if r.None? || r.value >= t'.capacity || i >= t'.capacity then OutOfBounds
        else
          var moved := t'.slots[r.value].(fLoc := t'.slots[i].fLoc, mapped := t'.slots[i].mapped);
          Resize(t'.(slots := t'.slots[r.value := moved]), i + 1, newCapacity, fuel - 1)
      case o => o
    else Resize(t, i + 1, newCapacity, fuel - 1)
  }

  predicate LowBitsZero(s: Slot) {
    s.def.fHash[0] == 0 && s.def.fHash[1] == 0
  }

  /** The invariant the class keeps, on a table value. */
  ghost predicate WellFormed(t: Table, m: map<Digest, Slot>) {
    && Shape(t) && t.size == Count(t.slots) && STARTING_CAPACITY <= t.capacity
    && 2 * t.size <= t.capacity + 2
    && Clustered(t.slots) && Distinct(t.slots) && EmptiesBlank(t.slots) && Represents(t.slots, m)
  }

  /** A probe stays inside the table iff, from its home on, some slot is empty or holds the key. */
  ghost predicate ProbeStaysInside(t: seq<Slot>, d: Digest)
    requires IsPow2(|t|)
  {
    exists i :: Home(d, |t|) <= i < |t| && (Occupied(t[i]) ==> t[i].def.fHash == d)
  }

  /** As written, a search answers as the map does when its probe stays inside, and not otherwise. */
  lemma SearchAsWritten(t: Table, m: map<Digest, Slot>, d: Digest)
    requires WellFormed(t, m)
    ensures var w := Walk(t.slots, d, Home(d, t.capacity));
            && (!w.PastEnd? <==> ProbeStaysInside(t.slots, d))
            && (!w.PastEnd? ==> StopsAt(t.slots, d, w.i) && (w.Hit? <==> d in m))
            && (w.Hit? ==> m[d] == t.slots[w.i])
  {
    hide IsPow2, Home, Clustered, Represents, Distinct, Count;
    var home, w := Home(d, t.capacity), Walk(t.slots, d, Home(d, t.capacity));
    if w.PastEnd? {
      WalkPassesEverything(t.slots, d, home);
    } else {
      assert StopsAt(t.slots, d, w.i);
      if w.Vacant? {
        EmptyStopMeansAbsent(t.slots, d, w.i);
        AbsentFromMap(t.slots, m, d);
      } else {
        PresentInMap(t.slots, m, w.i);
      }
    }
  }

  lemma {:induction false} WalkPassesEverything(t: seq<Slot>, d: Digest, i: nat)
    requires i <= |t| && Walk(t, d, i).PastEnd?
    ensures forall p :: i <= p < |t| ==> Occupied(t[p]) && t[p].def.fHash != d
    decreases |t| - i
  {
    if i < |t| {
      WalkPassesEverything(t, d, i + 1);
    }
  }

  /** While some slot from i on has sixteen zero bits, the copy loop recurses without end. */
  lemma {:induction false} ResizeNeverReturns(t: Table, i: nat, j: nat, newCapacity: nat, fuel: nat)
    requires Shape(t) && IsPow2(newCapacity) && t.capacity < 2 * t.size
    requires i <= j < t.capacity && LowBitsZero(t.slots[j])
    ensures Resize(t, i, newCapacity, fuel) == StillRunning
    decreases fuel
  {
    hide IsPow2, Insert, LowBitsZero;
    DoubleIsPow2(t.capacity);
    if fuel > 0 {
      if LowBitsZero(t.slots[i]) {
        ResizeNeverReturns(t, 0, i, t.capacity * 2, fuel - 1);
      } else {
        ResizeNeverReturns(t, i + 1, j, newCapacity, fuel - 1);
      }
    }
  }

  /** Without such a slot it drops every entry: an empty table of twice the size, the old count kept. */
  lemma {:induction false} ResizeDropsEverything(t: Table, i: nat, newCapacity: nat, fuel: nat)
    requires Shape(t) && IsPow2(newCapacity) && fuel > t.capacity - i && i <= t.capacity
    requires forall j :: i <= j < t.capacity ==> !LowBitsZero(t.slots[j])
    ensures Resize(t, i, newCapacity, fuel) ==
            Done(Table(newCapacity, t.size, seq(newCapacity, _ => EMPTY_SLOT)), None)
    decreases t.capacity - i
  {
    hide IsPow2, Insert, LowBitsZero;
    if i < t.capacity {
      ResizeDropsEverything(t, i + 1, newCapacity, fuel - 1);
    }
  }

  lemma DoubleIsPow2(c: nat)
    requires IsPow2(c)
    ensures IsPow2(c * 2)
  {}

  /** An addition that returns having done what it does on the finite map. */
  ghost predicate AddsCorrectly(t: Table, m: map<Digest, Slot>, def: TDef, fuel: nat)
    requires Shape(t)
  {
    var (o, after) := (Add(t, def, fuel), Meaning(m, AddOp(def)).0);
    o.Done? && WellFormed(o.table, after) && (o.added.None? <==> def.fHash in m)
  }

  /**
   As written, an addition to a reachable table ever returns with the right result exactly when the
   hash is not the empty mark, no resize is due and the probe stays inside the table.
   */
  lemma AddAsWritten(t: Table, m: map<Digest, Slot>, def: TDef)
    requires WellFormed(t, m)
    ensures (exists fuel :: AddsCorrectly(t, m, def, fuel)) <==>
            def.fHash != ZERO && 2 * t.size <= t.capacity && ProbeStaysInside(t.slots, def.fHash)
  {
    hide Clustered, Distinct, Represents, EmptiesBlank, Count, Insert, Add, ProbeStaysInside, Home, IsPow2;
    if t.capacity < 2 * t.size {
      forall fuel ensures Add(t, def, fuel) == StillRunning {
        OverfullNeverReturns(t, m, def, fuel);
      }
    } else {
      forall fuel ensures Add(t, def, fuel) == Insert(t, def) {
        RoomyInserts(t, def, fuel);
      }
      InsertAsWritten(t, m, def);
      assert AddsCorrectly(t, m, def, 0) <==> def.fHash != ZERO && ProbeStaysInside(t.slots, def.fHash);
    }
  }

  lemma RoomyInserts(t: Table, def: TDef, fuel: nat)
    requires Shape(t) && t.capacity >= 2 * t.size
    ensures Add(t, def, fuel) == Insert(t, def)
  {}

  lemma OverfullNeverReturns(t: Table, m: map<Digest, Slot>, def: TDef, fuel: nat)
    requires WellFormed(t, m) && t.capacity < 2 * t.size
    ensures Add(t, def, fuel) == StillRunning
  {
    hide IsPow2, Insert, Clustered, Distinct, Represents, Count;
    var e := EmptySlotExists(t.slots);
    DoubleIsPow2(t.capacity);
    ResizeNeverReturns(t, 0, e, t.capacity * 2, fuel);
  }

  /**
   The insertion is right exactly when its probe stays inside and the hash is not zero: a zero hash is
   counted but leaves its slot marked empty.
   */
  lemma InsertAsWritten(t: Table, m: map<Digest, Slot>, def: TDef)
    requires WellFormed(t, m) && 2 * t.size <= t.capacity
    ensures var (o, after) := (Insert(t, def), Meaning(m, AddOp(def)).0);
            o.Done? && WellFormed(o.table, after) && (o.added.None? <==> def.fHash in m) <==>
            def.fHash != ZERO && ProbeStaysInside(t.slots, def.fHash)
  {
    hide IsPow2, Home, Clustered, Distinct, Represents, StopsAt, ProbeStaysInside, Count;
    SearchAsWritten(t, m, def.fHash);
    var w := Walk(t.slots, def.fHash, Home(def.fHash, t.capacity));
    if w.Vacant? {
      BlankSlot(t.slots, w.i);
      CountUpdate(t.slots, w.i, Slot(def, None, false));
      if def.fHash != ZERO {
        StoreKeepsTable(t.slots, m, Slot(def, None, false), w.i);
      }
    }
  }

  const LAST_HOME: Digest := [255, 0, 0, 0, 0, 0, 0, 0, 1, 0, 0, 0, 0, 0, 0, 0]
  const LAST_HOME_TOO: Digest := [255, 0, 0, 0, 0, 0, 0, 0, 2, 0, 0, 0, 0, 0, 0, 0]

  /** A table as init_htable makes it. */
  function NewTable(): (t: Table)
    ensures Shape(t)
  {
    StartingCapacityIsPow2();
    Table(STARTING_CAPACITY, 0, seq(STARTING_CAPACITY, _ => EMPTY_SLOT))
  }

  /** A concrete failure: the second of two hashes whose home is the last slot of a new table. */
  lemma SecondEntryAtLastHomeOverruns(first: TDef, second: TDef)
    requires first.fHash == LAST_HOME && second.fHash == LAST_HOME_TOO
    ensures var o := Add(NewTable(), first, 0);
            o.Done? && Add(o.table, second, 0) == OutOfBounds
  {
    hide Home, IsPow2, Add;
    StartingCapacityIsPow2();
    HomeIsFirstByte(LAST_HOME);
    HomeIsFirstByte(LAST_HOME_TOO);
    LastSlotClash(NewTable(), first, second);
  }

  /** Two new keys whose home is an empty last slot: the probe for the second leaves the table. */
  lemma LastSlotClash(t: Table, first: TDef, second: TDef)
    requires Shape(t) && 2 * (t.size + 1) <= t.capacity && !Occupied(t.slots[t.capacity - 1])
    requires first.fHash != ZERO && first.fHash != second.fHash
    requires Home(first.fHash, t.capacity) == Home(second.fHash, t.capacity) == t.capacity - 1
    ensures var o := Add(t, first, 0);
            o.Done? && Add(o.table, second, 0) == OutOfBounds
  {
    hide Home, IsPow2;
  }

  /** In a new table a hash whose first word is a single byte has that byte as its home. */
  lemma HomeIsFirstByte(d: Digest)
    requires forall k :: 1 <= k < 8 ==> d[k] == 0
    requires IsPow2(STARTING_CAPACITY)
    ensures Home(d, STARTING_CAPACITY) == d[0]
  {
    AllZero(d[0..8][1..]);
    HomeIsHashModuloCapacity(d, STARTING_CAPACITY);
  }

  // ---------- A new table stops at 129 entries ----------

  /** Additions one after the other, up to the first that does not return or leaves the table. */
  function AddAll(t: Table, defs: seq<TDef>, fuel: nat): (o: Outcome)
    requires Shape(t)
    ensures o.Done? ==> Shape(o.table)
  {
    if defs == [] then Done(t, None)
    else
      match AddAll(t, defs[..|defs| - 1], fuel)
      case Done(t', _) => Add(t', defs[|defs| - 1], fuel)
      case o => o
  }

  /** The k-th of the hashes 0 to 128 in the first byte: all distinct, none zero, each with home k. */
  function NthHash(k: Byte): Digest {
    [k, 0, 0, 0, 0, 0, 0, 0, 1, 0, 0, 0, 0, 0, 0, 0]
  }

  ghost predicate HaveNthHashes(defs: seq<TDef>) {
    |defs| <= 129 && forall k :: 0 <= k < |defs| ==> defs[k].fHash == NthHash(k)
  }

  lemma NewTableOk()
    ensures WellFormed(NewTable(), map[])
  {
    StartingCapacityIsPow2();
    CountBlank(NewTable().slots);
  }

  /** The first 129 additions are all done, each correctly. */
  lemma {:induction false} NthHashesGoIn(defs: seq<TDef>, fuel: nat) returns (m: map<Digest, Slot>)
    requires HaveNthHashes(defs)
    ensures var o := AddAll(NewTable(), defs, fuel);
            && o.Done? && WellFormed(o.table, m) && o.table.capacity == STARTING_CAPACITY
            && o.table.size == |defs|
            && (forall j :: |defs| <= j < STARTING_CAPACITY ==> !Occupied(o.table.slots[j]))
  {
    hide WellFormed, IsPow2, Home, Insert, Add;
    if defs == [] {
      m := map[];
      NewTableOk();
    } else {
      var n := |defs| - 1;
      m := NthHashesGoIn(defs[..n], fuel);
      m := NthHashGoesIn(AddAll(NewTable(), defs[..n], fuel).table, m, n, defs[n], fuel);
    }
  }

  lemma NthHashGoesIn(t: Table, m: map<Digest, Slot>, n: nat, def: TDef, fuel: nat) returns (after: map<Digest, Slot>)
    requires WellFormed(t, m) && t.capacity == STARTING_CAPACITY && t.size == n <= 128 && def.fHash == NthHash(n)
    requires forall j :: n <= j < STARTING_CAPACITY ==> !Occupied(t.slots[j])
    ensures var o := Add(t, def, fuel);
            && o.Done? && WellFormed(o.table, after) && o.table.capacity == STARTING_CAPACITY
            && o.table.size == n + 1
            && (forall j :: n < j < STARTING_CAPACITY ==> !Occupied(o.table.slots[j]))
  {
    hide Clustered, Distinct, Represents, EmptiesBlank, Count, Home, IsPow2;
    after := Meaning(m, AddOp(def)).0;
    RoomyInserts(t, def, fuel);
    HomeIsFirstByte(def.fHash);
    assert Walk(t.slots, def.fHash, n) == Vacant(n);
    assert ProbeStaysInside(t.slots, def.fHash);
    assert def.fHash[8] != 0;
    InsertAsWritten(t, m, def);
  }

  /**
   A table with room for 256 entries never gets its 130th: these 129 definitions are added to a new
   table one after the other, and then no addition at all returns, however long one waits.
   */
  lemma TableStopsAt129(defs: seq<TDef>, def: TDef, fuel: nat, later: nat)
    requires |defs| == 129 && HaveNthHashes(defs)
    ensures var o := AddAll(NewTable(), defs, fuel);
            o.Done? && o.table.size == 129 && Add(o.table, def, later) == StillRunning
  {
    hide WellFormed, Add;
    var m := NthHashesGoIn(defs, fuel);
    OverfullNeverReturns(AddAll(NewTable(), defs, fuel).table, m, def, later);
  }

  /** How many slots do not start with sixteen zero hash bits. */
  function CountHigh(t: seq<Slot>): (n: nat)
    ensures n <= |t|
  {
    if t == [] then 0
    else CountHigh(t[..|t| - 1]) + if LowBitsZero(t[|t| - 1]) then 0 else 1
  }

  lemma {:induction false} CountHighUpdate(t: seq<Slot>, i: nat, s: Slot)
    requires i < |t|
    ensures CountHigh(t[i := s]) <= CountHigh(t) + 1
  {
    hide LowBitsZero;
    var n := |t| - 1;
    if i < n {
      assert t[i := s][..n] == t[..n][i := s];
      CountHighUpdate(t[..n], i, s);
    } else {
      assert t[i := s][..n] == t[..n];
    }
  }

  lemma {:induction false} LowSlotExists(t: seq<Slot>) returns (j: nat)
    requires CountHigh(t) < |t|
    ensures j < |t| && LowBitsZero(t[j])
  {
    j := |t| - 1;
    if !LowBitsZero(t[j]) {
      j := LowSlotExists(t[..j]);
    }
  }

  lemma {:induction false} CountHighBlank(t: seq<Slot>)
    requires forall i :: 0 <= i < |t| ==> t[i] == EMPTY_SLOT
    ensures CountHigh(t) == 0
  {
    if t != [] {
      CountHighBlank(t[..|t| - 1]);
    }
  }

  /** As written, no run of additions at all, returning, ever gets a new table past 129 entries or 256 slots. */
  lemma {:induction false} NeverGrows(defs: seq<TDef>, fuel: nat)
    ensures var o := AddAll(NewTable(), defs, fuel);
            o.Done? ==> o.table.capacity == STARTING_CAPACITY && CountHigh(o.table.slots) <= o.table.size <= 129
  {
    hide IsPow2, Add, CountHigh;
    if defs == [] {
      CountHighBlank(NewTable().slots);
    } else {
      var before := AddAll(NewTable(), defs[..|defs| - 1], fuel);
      NeverGrows(defs[..|defs| - 1], fuel);
      if before.Done? {
        AddStaysSmall(before.table, defs[|defs| - 1], fuel);
      }
    }
  }

  lemma AddStaysSmall(t: Table, def: TDef, fuel: nat)
    requires Shape(t) && t.capacity == STARTING_CAPACITY && CountHigh(t.slots) <= t.size <= 129
    ensures var o := Add(t, def, fuel);
            o.Done? ==> o.table.capacity == STARTING_CAPACITY && CountHigh(o.table.slots) <= o.table.size <= 129
  {
    hide IsPow2, CountHigh, Home, Resize, LowBitsZero;
    if t.size == 129 {
      var j := LowSlotExists(t.slots);
      DoubleIsPow2(t.capacity);
      ResizeNeverReturns(t, 0, j, t.capacity * 2, fuel);
    } else {
      RoomyInserts(t, def, fuel);
      var w := Walk(t.slots, def.fHash, Home(def.fHash, t.capacity));
      if w.Vacant? {
        CountHighUpdate(t.slots, w.i, t.slots[w.i].(def := def));
      }
    }
  }
}
