/**
 Linear probing over a power-of-two table of slots: the cluster invariant, what it lets a probe
 conclude, and the counting argument that keeps an empty slot available.
 */
module Probing {
  import opened Bytes
  import opened Tfile

  /** The slot at which a probe for d starts: the first half of the hash masked by capacity - 1. */
  function Home(d: Digest, n: nat): (i: nat)
    requires IsPow2(n)
    ensures i < n
  {
    MaskIsModulo(Half(d, 0), n);
    And(Half(d, 0), n - 1)
  }

  lemma HomeIsHashModuloCapacity(d: Digest, n: nat)
    requires IsPow2(n)
    ensures Home(d, n) == Half(d, 0) % n
  {
    MaskIsModulo(Half(d, 0), n);
  }

  /** How many cyclic steps lead from slot i to slot j in a table of n slots. */
  function Steps(i: nat, j: nat, n: nat): nat
    requires i < n && j < n
  {
    if i <= j then j - i else j + n - i
  }

  function Next(i: nat, n: nat): (j: nat)
    requires i < n
    ensures j < n
  {
    if i + 1 == n then 0 else i + 1
  }

  function HomeOf(s: Slot, n: nat): (i: nat)
    requires IsPow2(n)
    ensures i < n
  {
    Home(s.def.fHash, n)
  }

  /** Slot p lies on the probe path from home to slot j, before j. */
  predicate Before(home: nat, p: nat, j: nat, n: nat)
    requires home < n && p < n && j < n
  {
    Steps(home, p, n) < Steps(home, j, n)
  }

  /** All slots cyclically between an entry's home and its slot are occupied. */
  ghost predicate Clustered(t: seq<Slot>)
    requires IsPow2(|t|)
  {
    forall j, p | 0 <= j < |t| && 0 <= p < |t| && Occupied(t[j]) && Before(HomeOf(t[j], |t|), p, j, |t|) ::
      Occupied(t[p])
  }

  ghost predicate Distinct(t: seq<Slot>) {
    forall i, j | 0 <= i < |t| && 0 <= j < |t| && Occupied(t[i]) && Occupied(t[j]) && i != j ::
      t[i].def.fHash != t[j].def.fHash
  }

  /** The occupied slots of t are exactly the entries of m. */
  ghost predicate Represents(t: seq<Slot>, m: map<Digest, Slot>) {
    && (forall j :: 0 <= j < |t| && Occupied(t[j]) ==>
         t[j].def.fHash in m && m[t[j].def.fHash] == t[j])
    && (forall d :: d in m ==> Holds(t, d))
  }

  ghost predicate Holds(t: seq<Slot>, d: Digest) {
    exists j :: 0 <= j < |t| && Occupied(t[j]) && t[j].def.fHash == d
  }

  ghost predicate EmptiesBlank(t: seq<Slot>) {
    forall j :: 0 <= j < |t| && !Occupied(t[j]) ==> t[j] == EMPTY_SLOT
  }

  function Count(t: seq<Slot>): (c: nat)
    ensures c <= |t|
  {
    if t == [] then 0 else Count(t[..|t| - 1]) + if Occupied(t[|t| - 1]) then 1 else 0
  }

  /** The pigeonhole step: fewer entries than slots leaves an empty slot. */
  lemma {:induction false} EmptySlotExists(t: seq<Slot>) returns (e: nat)
    requires Count(t) < |t|
    ensures e < |t| && !Occupied(t[e])
  {
    if Occupied(t[|t| - 1]) {
      e := EmptySlotExists(t[..|t| - 1]);
    } else {
      e := |t| - 1;
    }
  }

  lemma {:induction false} CountUpdate(t: seq<Slot>, i: nat, s: Slot)
    requires i < |t|
    ensures Count(t[i := s]) ==
            Count(t) - (if Occupied(t[i]) then 1 else 0) + if Occupied(s) then 1 else 0
  {
    var last := |t| - 1;
    if i < last {
      CountUpdate(t[..last], i, s);
      assert t[i := s][..last] == t[..last][i := s];
    } else {
      assert t[i := s][..last] == t[..last];
    }
  }

  lemma {:induction false} CountBlank(t: seq<Slot>)
    requires forall j :: 0 <= j < |t| ==> !Occupied(t[j])
    ensures Count(t) == 0
  {
    if t != [] {
      CountBlank(t[..|t| - 1]);
    }
  }

  lemma BlankRepresentsNothing(t: seq<Slot>)
    requires forall j :: 0 <= j < |t| ==> !Occupied(t[j])
    ensures Represents(t, map[])
  {}

  /**
   A probe for d stopped at i: every slot it passed is occupied by another key, and i either holds d
   or is empty.
   */
  ghost predicate StopsAt(t: seq<Slot>, d: Digest, i: nat)
    requires IsPow2(|t|)
  {
    && i < |t|
    && (Occupied(t[i]) ==> t[i].def.fHash == d)
    && PassedOthers(t, d, i)
  }

  ghost predicate PassedOthers(t: seq<Slot>, d: Digest, i: nat)
    requires IsPow2(|t|) && i < |t|
  {
    forall p :: 0 <= p < |t| && Before(Home(d, |t|), p, i, |t|) ==>
      Occupied(t[p]) && t[p].def.fHash != d
  }

  lemma ProbeStarts(t: seq<Slot>, d: Digest)
    requires IsPow2(|t|)
    ensures PassedOthers(t, d, Home(d, |t|))
  {}

  /** A probe that passes a slot of another key comes one step closer to any empty slot. */
  lemma ProbeAdvances(t: seq<Slot>, d: Digest, i: nat, e: nat)
    requires IsPow2(|t|) && i < |t| && PassedOthers(t, d, i)
    requires Occupied(t[i]) && t[i].def.fHash != d
    requires e < |t| && !Occupied(t[e])
    ensures PassedOthers(t, d, Next(i, |t|))
    ensures var home := Home(d, |t|);
            Steps(home, i, |t|) < Steps(home, Next(i, |t|), |t|) <= Steps(home, e, |t|)
  {
    hide IsPow2, Home;
    var home := Home(d, |t|);
    StepsCompare(home, i, e, |t|);
    assert !Before(home, e, i, |t|);
    forall p | 0 <= p < |t| && Before(home, p, Next(i, |t|), |t|)
      ensures Occupied(t[p]) && t[p].def.fHash != d
    {
      StepsCompare(home, p, i, |t|);
    }
  }

  lemma AbsentFromMap(t: seq<Slot>, m: map<Digest, Slot>, d: Digest)
    requires Represents(t, m) && !Holds(t, d)
    ensures d !in m
  {}

  lemma PresentInMap(t: seq<Slot>, m: map<Digest, Slot>, i: nat)
    requires Represents(t, m) && i < |t| && Occupied(t[i])
    ensures t[i].def.fHash in m && m[t[i].def.fHash] == t[i]
  {}

  /** An empty stop proves absence: d's own cluster would have to cover the stop. */
  lemma EmptyStopMeansAbsent(t: seq<Slot>, d: Digest, i: nat)
    requires IsPow2(|t|) && Clustered(t) && StopsAt(t, d, i) && !Occupied(t[i])
    ensures !Holds(t, d)
  {
    forall j | 0 <= j < |t| && Occupied(t[j])
      ensures t[j].def.fHash != d
    {
      StepsCompare(Home(d, |t|), i, j, |t|);
    }
  }

  lemma StepsCompare(home: nat, i: nat, j: nat, n: nat)
    requires home < n && i < n && j < n
    ensures i == j || Before(home, i, j, n) || Before(home, j, i, n)
  {}

  /** Two probes for the same key stop at the same slot. */
  lemma StopIsUnique(t: seq<Slot>, d: Digest, i: nat, j: nat)
    requires IsPow2(|t|) && StopsAt(t, d, i) && StopsAt(t, d, j)
    ensures i == j
  {
    var home := Home(d, |t|);
    assert !Before(home, i, j, |t|) && !Before(home, j, i, |t|);
    StepsCompare(home, i, j, |t|);
  }

  /** Writing an entry over an empty slot, or over the slot of its own key, updates the map. */
  lemma WriteRepresents(t: seq<Slot>, m: map<Digest, Slot>, s: Slot, i: nat)
    requires Distinct(t) && Represents(t, m) && Occupied(s) && i < |t|
    requires if Occupied(t[i]) then t[i].def.fHash == s.def.fHash else s.def.fHash !in m
    ensures Distinct(t[i := s]) && Represents(t[i := s], m[s.def.fHash := s])
  {
    var u, m' := t[i := s], m[s.def.fHash := s];
    forall k | k in m' ensures Holds(u, k) {
      if k == s.def.fHash {
        assert Occupied(u[i]) && u[i].def.fHash == k;
      } else {
        var j :| 0 <= j < |t| && Occupied(t[j]) && t[j].def.fHash == k;
        assert Occupied(u[j]) && u[j].def.fHash == k;
      }
    }
  }

  lemma BlankSlot(t: seq<Slot>, i: nat)
    requires EmptiesBlank(t) && i < |t| && !Occupied(t[i])
    ensures t[i] == EMPTY_SLOT
  {}

  /** Storing a new key in the empty slot its probe stopped at keeps every table invariant. */
  lemma StoreKeepsTable(t: seq<Slot>, m: map<Digest, Slot>, s: Slot, i: nat)
    requires IsPow2(|t|) && Clustered(t) && Distinct(t) && Represents(t, m) && EmptiesBlank(t)
    requires Occupied(s) && StopsAt(t, s.def.fHash, i) && !Occupied(t[i])
    ensures s.def.fHash !in m
    ensures Clustered(t[i := s]) && Distinct(t[i := s]) && EmptiesBlank(t[i := s])
    ensures Represents(t[i := s], m[s.def.fHash := s])
    ensures Count(t[i := s]) == Count(t) + 1
  {
    EmptyStopMeansAbsent(t, s.def.fHash, i);
    WriteRepresents(t, m, s, i);
    CountUpdate(t, i, s);
  }

  /** Rewriting the locations of a stored entry keeps every table invariant. */
  lemma RelocateKeepsTable(t: seq<Slot>, m: map<Digest, Slot>, s: Slot, i: nat)
    requires IsPow2(|t|) && Clustered(t) && Distinct(t) && Represents(t, m) && EmptiesBlank(t)
    requires i < |t| && Occupied(t[i]) && s.def == t[i].def
    ensures s.def.fHash in m
    ensures Clustered(t[i := s]) && Distinct(t[i := s]) && EmptiesBlank(t[i := s])
    ensures Represents(t[i := s], m[s.def.fHash := s])
    ensures Count(t[i := s]) == Count(t)
  {
    WriteRepresents(t, m, s, i);
    CountUpdate(t, i, s);
  }

  /** A table represents at most one map. */
  lemma RepresentedMapIsUnique(t: seq<Slot>, m1: map<Digest, Slot>, m2: map<Digest, Slot>)
    requires Represents(t, m1) && Represents(t, m2)
    ensures m1 == m2
  {
    forall d ensures d in m1 <==> d in m2 {}
  }

  /** Reading one more slot of a table extends the represented map by that slot alone. */
  lemma PrefixRepresents(t: seq<Slot>, i: nat, m: map<Digest, Slot>)
    requires i < |t| && Distinct(t) && Represents(t[..i], m)
    ensures Occupied(t[i]) ==> t[i].def.fHash !in m
    ensures Occupied(t[i]) ==> Represents(t[..i + 1], m[t[i].def.fHash := t[i]])
    ensures !Occupied(t[i]) ==> Represents(t[..i + 1], m)
  {
    assert t[..i + 1] == t[..i] + [t[i]];
    if Occupied(t[i]) {
      var d, u, m' := t[i].def.fHash, t[..i + 1], m[t[i].def.fHash := t[i]];
      assert !Holds(t[..i], d);
      forall k | k in m' ensures Holds(u, k) {
        if k == d {
          assert Occupied(u[i]) && u[i].def.fHash == d;
        } else {
          var j :| 0 <= j < i && Occupied(t[..i][j]) && t[..i][j].def.fHash == k;
          assert Occupied(u[j]) && u[j].def.fHash == k;
        }
      }
    } else {
      forall k | k in m ensures Holds(t[..i + 1], k) {
        var j :| 0 <= j < i && Occupied(t[..i][j]) && t[..i][j].def.fHash == k;
        assert Occupied(t[..i + 1][j]) && t[..i + 1][j].def.fHash == k;
      }
    }
  }
}
