/** Sizes of finite sets, and sums over multisets. */
module Sets {

  lemma {:induction false} SubsetSize<T>(a: set<T>, b: set<T>)
    requires a <= b
    ensures |a| <= |b|
    ensures |a| == |b| ==> a == b
    decreases |a|
  {
    if a != {} {
      var x :| x in a;
      SubsetSize(a - {x}, b - {x});
      assert a == (a - {x}) + {x} && b == (b - {x}) + {x};
    } else if b != {} {
      var x :| x in b;
      assert |b| == |b - {x}| + 1;
    }
  }

  /** Distinct members of a set are no more than it has. */
  lemma {:induction false} DistinctInSet<T>(s: seq<T>, all: set<T>)
    requires forall i, j :: 0 <= i < j < |s| ==> s[i] != s[j]
    requires forall i :: 0 <= i < |s| ==> s[i] in all
    ensures |s| <= |all|
  {
    if s != [] {
      var n := |s| - 1;
      DistinctInSet(s[..n], all - {s[n]});
    }
  }

  // ---------- Sums over multisets ----------

  ghost function Sum<T>(s: multiset<T>, w: T -> nat): nat {
    if s == multiset{} then 0
    else
      var x :| x in s;
      w(x) + Sum(s - multiset{x}, w)
  }

  lemma {:induction false} SumTakes<T>(s: multiset<T>, w: T -> nat, x: T)
    requires x in s
    ensures Sum(s, w) == w(x) + Sum(s - multiset{x}, w)
    decreases |s|
  {
    var y :| y in s && Sum(s, w) == w(y) + Sum(s - multiset{y}, w);
    if y != x {
      SumTakes(s - multiset{y}, w, x);
      SumTakes(s - multiset{x}, w, y);
      assert s - multiset{y} - multiset{x} == s - multiset{x} - multiset{y};
    }
  }

  lemma SumAddsOne<T>(s: multiset<T>, w: T -> nat, x: T)
    ensures Sum(s + multiset{x}, w) == Sum(s, w) + w(x)
  {
    SumTakes(s + multiset{x}, w, x);
    assert s + multiset{x} - multiset{x} == s;
  }

  lemma {:induction false} SumPlus<T>(s: multiset<T>, more: multiset<T>, w: T -> nat)
    ensures Sum(s + more, w) == Sum(s, w) + Sum(more, w)
    decreases |more|
  {
    if more == multiset{} {
      assert s + more == s;
    } else {
      var x :| x in more;
      var rest := more - multiset{x};
      SumPlus(s, rest, w);
      SumTakes(more, w, x);
      SumAddsOne(s + rest, w, x);
      assert s + more == s + rest + multiset{x};
    }
  }

  /** The sum depends only on the weights of the members. */
  lemma {:induction false} SumSame<T>(s: multiset<T>, w: T -> nat, v: T -> nat)
    requires forall x :: x in s ==> w(x) == v(x)
    ensures Sum(s, w) == Sum(s, v)
    decreases |s|
  {
    if s != multiset{} {
      var x :| x in s;
      SumTakes(s, w, x);
      SumTakes(s, v, x);
      SumSame(s - multiset{x}, w, v);
    }
  }
}
