/**
 The tree of peers: a client connects to at most one existing peer when it starts
 (src/client.c:83-95), so node i > 0 hangs below a node parent[i] < i.
 */
module Tree {

  type Parents = seq<nat>

  predicate IsTree(t: Parents) {
    |t| > 0 && forall i :: 1 <= i < |t| ==> t[i] < i
  }

  /** Nodes a and b are connected to each other. */
  predicate Adjacent(t: Parents, a: nat, b: nat) {
    a < |t| && b < |t| && ((b > 0 && t[b] == a) || (a > 0 && t[a] == b))
  }

  function Nodes(t: Parents): (s: set<nat>)
    ensures |s| == |t| && forall i: nat :: i in s <==> i < |t|
  {
    if t == [] then {} else Nodes(t[..|t| - 1]) + {|t| - 1}
  }

  /** A connected set of nodes: each but its top has its parent in the set. */
  ghost predicate Topped(t: Parents, s: set<nat>, top: nat) {
    && top in s && (forall v :: v in s ==> v < |t|)
    && (forall v :: v in s && v != top ==> v > 0 && t[v] in s)
  }

  lemma {:induction false} TopIsLeast(t: Parents, s: set<nat>, top: nat, v: nat)
    requires IsTree(t) && Topped(t, s, top) && v in s
    ensures top <= v
  {
    if v != top {
      TopIsLeast(t, s, top, t[v]);
    }
  }

  /** A node outside a connected set is connected to at most one node in it: a tree has no cycles. */
  lemma OneWayIn(t: Parents, s: set<nat>, top: nat, b: nat, x: nat, y: nat)
    requires IsTree(t) && Topped(t, s, top) && b !in s
    requires x in s && y in s && Adjacent(t, x, b) && Adjacent(t, y, b)
    ensures x == y
  {
    TopIsLeast(t, s, top, x);
    TopIsLeast(t, s, top, y);
  }

  /** Adding a node connected to a connected set keeps it connected. */
  lemma Grow(t: Parents, s: set<nat>, top: nat, a: nat, b: nat) returns (newTop: nat)
    requires IsTree(t) && Topped(t, s, top) && a in s && b !in s && Adjacent(t, a, b)
    ensures Topped(t, s + {b}, newTop)
  {
    newTop := if b > 0 && t[b] == a then top else b;
  }

  /** A nonempty set closed under connections is the whole tree. */
  lemma ClosedIsEverything(t: Parents, s: set<nat>, v: nat)
    requires IsTree(t) && v in s && v < |t|
    requires forall a, b :: a in s && Adjacent(t, a, b) ==> b in s
    ensures Nodes(t) <= s
  {
    RootInClosed(t, s, v);
    forall i | i in Nodes(t) ensures i in s {
      EachInClosed(t, s, i);
    }
  }

  lemma {:induction false} RootInClosed(t: Parents, s: set<nat>, v: nat)
    requires IsTree(t) && v in s && v < |t|
    requires forall a, b :: a in s && Adjacent(t, a, b) ==> b in s
    ensures 0 in s
  {
    if v > 0 {
      assert Adjacent(t, v, t[v]);
      RootInClosed(t, s, t[v]);
    }
  }

  lemma {:induction false} EachInClosed(t: Parents, s: set<nat>, i: nat)
    requires IsTree(t) && 0 in s && i < |t|
    requires forall a, b :: a in s && Adjacent(t, a, b) ==> b in s
    ensures i in s
  {
    if i > 0 {
      EachInClosed(t, s, t[i]);
      assert Adjacent(t, t[i], i);
    }
  }

  // ---------- Sides of a connection ----------

  /** Node i lies in the subtree under top. */
  predicate Below(t: Parents, top: nat, i: nat)
    requires IsTree(t)
    decreases i
  {
    i == top || (0 < i < |t| && Below(t, top, t[i]))
  }

  function Subtree(t: Parents, top: nat): set<nat>
    requires IsTree(t)
  {
    set i: nat | i < |t| && Below(t, top, i)
  }

  /** What lies beyond b, seen from its neighbour a. */
  function Side(t: Parents, a: nat, b: nat): set<nat>
    requires IsTree(t) && Adjacent(t, a, b)
  {
    if b > 0 && t[b] == a then Subtree(t, b) else Nodes(t) - Subtree(t, a)
  }

  lemma {:induction false} BelowIsLater(t: Parents, top: nat, i: nat)
    requires IsTree(t) && Below(t, top, i)
    ensures top <= i
    decreases i
  {
    if i != top {
      BelowIsLater(t, top, t[i]);
    }
  }

  lemma {:induction false} BelowChains(t: Parents, x: nat, y: nat, i: nat)
    requires IsTree(t) && Below(t, x, y) && Below(t, y, i)
    ensures Below(t, x, i)
    decreases i
  {
    if i != y {
      BelowChains(t, x, y, t[i]);
    }
  }

  /** Subtrees under two children of one node are disjoint. */
  lemma {:induction false} SiblingsDisjoint(t: Parents, x: nat, y: nat, i: nat)
    requires IsTree(t) && 0 < x < |t| && 0 < y < |t| && x != y && t[x] == t[y]
    ensures !(Below(t, x, i) && Below(t, y, i))
    decreases i
  {
    if Below(t, x, i) && Below(t, y, i) {
      if i == x {
        BelowIsLater(t, y, t[x]);
      } else if i == y {
        BelowIsLater(t, x, t[y]);
      } else {
        SiblingsDisjoint(t, x, y, t[i]);
      }
    }
  }

  /** Whatever b passes on, other than back, moves into a strictly smaller side, away from b. */
  lemma SideShrinks(t: Parents, a: nat, b: nat, p: nat)
    requires IsTree(t) && Adjacent(t, a, b) && Adjacent(t, b, p) && p != a
    ensures Side(t, b, p) < Side(t, a, b)
  {
    if b > 0 && t[b] == a {
      forall i | i in Subtree(t, p) ensures i in Subtree(t, b) && i != b {
        BelowIsLater(t, p, i);
        BelowChains(t, b, p, i);
      }
      assert b in Subtree(t, b);
    } else {
      assert t[a] == b && b !in Subtree(t, a) by {
        if Below(t, a, b) {
          BelowIsLater(t, a, b);
        }
      }
      assert b in Side(t, a, b);
      if p > 0 && t[p] == b {
        forall i | i in Subtree(t, p) ensures i !in Subtree(t, a) && i != b {
          SiblingsDisjoint(t, a, p, i);
          BelowIsLater(t, p, i);
        }
      } else {
        forall i | i in Subtree(t, a) ensures i in Subtree(t, b) {
          BelowChains(t, b, a, i);
        }
        assert b in Subtree(t, b);
      }
    }
  }

  /** The only connection into a side is the one it lies beyond. */
  lemma OnlyWayIn(t: Parents, a: nat, b: nat, x: nat, y: nat)
    requires IsTree(t) && Adjacent(t, a, b) && Adjacent(t, x, y)
    requires x !in Side(t, a, b) && y in Side(t, a, b)
    ensures x == a && y == b
  {
    if y > 0 && t[y] == x {
      assert forall top :: Below(t, top, x) ==> Below(t, top, y);
    } else {
      assert forall top :: Below(t, top, y) ==> Below(t, top, x);
    }
  }

  lemma SidesApart(t: Parents, a: nat, b: nat, x: nat)
    requires IsTree(t) && Adjacent(t, a, b)
    ensures b in Side(t, a, b)
    ensures x in Side(t, b, a) ==> x !in Side(t, a, b)
  {
    if !(b > 0 && t[b] == a) && Below(t, a, b) {
      BelowIsLater(t, a, b);
    }
  }

  // ---------- Paths ----------

  ghost predicate IsPath(t: Parents, path: seq<nat>) {
    path != [] && path[0] < |t| && forall k :: 0 <= k < |path| - 1 ==> Adjacent(t, path[k], path[k + 1])
  }

  ghost predicate Leads(t: Parents, path: seq<nat>, a: nat, b: nat) {
    IsPath(t, path) && path[0] == a && path[|path| - 1] == b
  }

  /** No node twice. */
  ghost predicate Simple(path: seq<nat>) {
    forall i, j :: 0 <= i < j < |path| ==> path[i] != path[j]
  }

  /** Along a path without repeats the later nodes lie ahead of each connection, */
  lemma {:induction false} LaterAhead(t: Parents, path: seq<nat>, k: nat, j: nat)
    requires IsTree(t) && IsPath(t, path) && Simple(path) && k < j < |path|
    ensures Adjacent(t, path[k], path[k + 1]) && path[j] in Side(t, path[k], path[k + 1])
    decreases j - k
  {
    hide IsTree, Adjacent, Side;
    assert Adjacent(t, path[k], path[k + 1]);
    if j == k + 1 {
      SidesApart(t, path[k], path[k + 1], path[k]);
    } else {
      LaterAhead(t, path, k + 1, j);
      SideShrinks(t, path[k], path[k + 1], path[k + 2]);
    }
  }

  /** and the earlier ones behind it. */
  lemma {:induction false} EarlierBehind(t: Parents, path: seq<nat>, i: nat, k: nat)
    requires IsTree(t) && IsPath(t, path) && Simple(path) && i <= k < |path| - 1
    ensures Adjacent(t, path[k], path[k + 1]) && Adjacent(t, path[k + 1], path[k])
    ensures path[i] in Side(t, path[k + 1], path[k])
    decreases k
  {
    hide IsTree, Side;
    assert Adjacent(t, path[k], path[k + 1]);
    if i == k {
      SidesApart(t, path[k + 1], path[k], path[k]);
    } else {
      EarlierBehind(t, path, i, k - 1);
      SideShrinks(t, path[k + 1], path[k], path[k - 1]);
    }
  }

  /** Every way into a side goes through its connection. */
  lemma {:induction false} WalkCrosses(t: Parents, walk: seq<nat>, a: nat, b: nat) returns (m: nat)
    requires IsTree(t) && IsPath(t, walk) && Adjacent(t, a, b)
    requires walk[0] !in Side(t, a, b) && walk[|walk| - 1] in Side(t, a, b)
    ensures m < |walk| - 1 && walk[m] == a && walk[m + 1] == b
  {
    hide IsTree, Adjacent, Side;
    m := 0;
    while walk[m + 1] !in Side(t, a, b)
      invariant m < |walk| - 1 && walk[m] !in Side(t, a, b)
      decreases |walk| - m
    {
      m := m + 1;
    }
    assert Adjacent(t, walk[m], walk[m + 1]);
    OnlyWayIn(t, a, b, walk[m], walk[m + 1]);
  }

  /** Whatever lies on the path without repeats between two nodes, every way between them goes through. */
  lemma NoWayRound(t: Parents, path: seq<nat>, k: nat, walk: seq<nat>) returns (m: nat)
    requires IsTree(t) && IsPath(t, path) && Simple(path) && 0 < k < |path| - 1
    requires Leads(t, walk, path[0], path[|path| - 1])
    ensures 0 < m < |walk| - 1 && walk[m] == path[k]
  {
    hide IsTree, Adjacent, Side;
    LaterAhead(t, path, k, |path| - 1);
    EarlierBehind(t, path, 0, k);
    SidesApart(t, path[k], path[k + 1], path[0]);
    m := WalkCrosses(t, walk, path[k], path[k + 1]);
  }

  ghost predicate SimplyReached(t: Parents, a: nat, b: nat) {
    exists path :: Leads(t, path, a, b) && Simple(path)
  }

  /** Between any two nodes there is a path without repeats. */
  lemma SimplePath(t: Parents, a: nat, b: nat) returns (path: seq<nat>)
    requires IsTree(t) && a < |t| && b < |t|
    ensures Leads(t, path, a, b) && Simple(path)
  {
    hide Adjacent, IsTree;
    var s := set x: nat | x < |t| && SimplyReached(t, a, x);
    assert Leads(t, [a], a, a) && Simple([a]);
    forall x, y | x in s && Adjacent(t, x, y) ensures y in s {
      var p := OneFurther(t, a, x, y);
    }
    ClosedIsEverything(t, s, a);
    assert b in Nodes(t);
    path :| Leads(t, path, a, b) && Simple(path);
  }

  lemma OneFurther(t: Parents, a: nat, x: nat, y: nat) returns (longer: seq<nat>)
    requires SimplyReached(t, a, x) && Adjacent(t, x, y)
    ensures y < |t| && Leads(t, longer, a, y) && Simple(longer)
  {
    var p :| Leads(t, p, a, x) && Simple(p);
    if y in p {
      var k :| 0 <= k < |p| && p[k] == y;
      longer := p[..k + 1];
    } else {
      longer := p + [y];
    }
  }
}
