/**
 A network comes to rest. Newcomers may hear of a definition twice, by the host's list and by a flood,
 and pass on both copies (src/client.c:469-486 relays whatever it receives); but in a tree every copy
 only ever moves away from where it came from. So unless nodes keep joining or publishing, every run is
 finite, duplicates and all.
 */
module Rest {
  import opened Bytes
  import opened Tfile
  import opened Tree
  import opened Gossip
  import opened Sets

  /** Adding the elements of a set of bounded weight adds at most their number times the bound. */
  lemma {:induction false} SumAddsSet<T>(s: multiset<T>, w: T -> nat, more: set<T>, bound: nat)
    requires forall x :: x in more ==> w(x) <= bound
    ensures Sum(s + multiset(more), w) <= Sum(s, w) + |more| * bound
    decreases |more|
  {
    if more == {} {
      assert s + multiset(more) == s;
    } else {
      var x :| x in more;
      var rest := more - {x};
      SumAddsSet(s, w, rest, bound);
      SumAddsOne(s + multiset(rest), w, x);
      assert s + multiset(more) == s + multiset(rest) + multiset{x};
      OneMore(|rest|, bound);
      assert |more| == |rest| + 1;
    }
  }

  lemma OneMore(n: nat, bound: nat)
    ensures (n + 1) * bound == n * bound + bound
  {}

  // ---------- Weights ----------

  function Pow(x: nat, n: nat): (p: nat)
    ensures x > 0 ==> p > 0
  {
    if n == 0 then 1 else x * Pow(x, n - 1)
  }

  lemma {:induction false} PowMonotone(x: nat, m: nat, n: nat)
    requires x > 0 && m <= n
    ensures Pow(x, m) <= Pow(x, n)
  {
    if m < n {
      PowMonotone(x, m, n - 1);
      assert Pow(x, n) == x * Pow(x, n - 1);
    }
  }

  /** A message of one size outweighs one smaller message to each of n nodes, with something to spare. */
  lemma OneOutweighsMany(n: nat, size: nat)
    requires size > 0
    ensures n * Pow(n + 2, size - 1) + 2 <= Pow(n + 2, size)
  {
    var p := Pow(n + 2, size - 1);
    assert Pow(n + 2, size) == (n + 2) * p == n * p + 2 * p;
  }

  /** The weight of a copy on its way, growing with what lies ahead of it. */
  function MsgWeight(t: Parents, m: Msg): nat {
    if IsTree(t) && Adjacent(t, m.src, m.dst) then Pow(|t| + 2, |Side(t, m.src, m.dst)|) else 0
  }

  /** The weight of work under way: more than that of all it will send; k bounds the size of a list. */
  function TaskWeight(t: Parents, k: nat, task: Task): nat {
    match task
    case Share(n, _, from) =>
      if from.None? then Pow(|t| + 2, |t|)
      else if IsTree(t) && Adjacent(t, from.value, n) then Pow(|t| + 2, |Side(t, from.value, n)|) - 1
      else 0
    case Accept(_, _) => k * Pow(|t| + 2, |t|) + 3
    case List(_, _) => k * Pow(|t| + 2, |t|) + 2
    case SendList(_, _, defs) => |defs| * Pow(|t| + 2, |t|) + 1
  }

  function WeighMsgs(t: Parents): Msg -> nat {
    m => MsgWeight(t, m)
  }

  function WeighTasks(t: Parents, k: nat): Task -> nat {
    task => TaskWeight(t, k, task)
  }

  /** The weight of everything in flight and under way. */
  ghost function Load(g: State, k: nat): nat {
    Sum(g.flight, WeighMsgs(g.parents)) + Sum(g.tasks, WeighTasks(g.parents, k))
  }

  // ---------- Every step sheds weight ----------

  /** A table never holds more definitions than were published. */
  lemma TableSize(g: State, a: nat)
    requires TablesOk(g) && a < |g.table|
    ensures |g.table[a]| <= |g.published|
  {
    ValuesBound(g.table[a], g.published);
  }

  lemma {:induction false} ValuesBound(table: map<Digest, TDef>, defs: set<TDef>)
    requires forall h :: h in table ==> table[h] in defs && table[h].fHash == h
    ensures |table| <= |defs|
    decreases |table|
  {
    if table != map[] {
      var h :| h in table;
      var rest := table - {h};
      assert table.Keys == rest.Keys + {h};
      forall x | x in rest ensures rest[x] in defs - {table[h]} && rest[x].fHash == x {}
      ValuesBound(rest, defs - {table[h]});
    }
  }

  lemma {:induction false} CopiesSize(node: nat, peers: set<nat>, def: TDef, from: Option<nat>)
    ensures |Copies(node, peers, def, from)| <= |peers|
    decreases |peers|
  {
    if peers == {} {
      assert Copies(node, peers, def, from) == {};
    } else {
      var p :| p in peers;
      CopiesSize(node, peers - {p}, def, from);
      var here := if Some(p) != from then {Msg(node, p, def)} else {};
      assert Copies(node, peers, def, from) == Copies(node, peers - {p}, def, from) + here;
    }
  }

  lemma {:induction false} ListedSize(host: nat, child: nat, defs: map<Digest, TDef>)
    ensures |Listed(host, child, defs)| <= |defs|
    decreases |defs|
  {
    if defs == map[] {
      assert Listed(host, child, defs) == {};
    } else {
      var h :| h in defs;
      var rest := defs - {h};
      assert defs.Keys == rest.Keys + {h};
      ListedSize(host, child, rest);
      assert Listed(host, child, defs) == Listed(host, child, rest) + {Msg(host, child, defs[h])};
    }
  }

  lemma PeersSize(g: State, n: nat)
    requires PeersOk(g) && n < |g.peers|
    ensures |g.peers[n]| <= |g.parents|
  {
    hide IsTree;
    forall p | p in g.peers[n] ensures p in Nodes(g.parents) {
      assert Adjacent(g.parents, n, p);
    }
    SubsetSize(g.peers[n], Nodes(g.parents));
  }

  lemma SideSize(t: Parents, a: nat, b: nat)
    requires IsTree(t) && Adjacent(t, a, b)
    ensures |Side(t, a, b)| <= |t|
  {
    SubsetSize(Side(t, a, b), Nodes(t));
  }

  /** A neighbour's side leaves out the node itself. */
  lemma SideLeavesOut(t: Parents, b: nat, p: nat)
    requires IsTree(t) && Adjacent(t, b, p)
    ensures |Side(t, b, p)| <= |t| - 1
  {
    assert b in Nodes(t) && b !in Side(t, b, p) by {
      if p > 0 && t[p] == b && Below(t, p, b) {
        BelowIsLater(t, p, b);
      }
    }
    SubsetSize(Side(t, b, p), Nodes(t));
  }

  /** What a broadcast sends weighs less than the broadcast. */
  lemma ShareOutweighsCopies(g: State, k: nat, n: nat, def: TDef, from: Option<nat>)
    requires PeersOk(g) && n < |g.table| && (from.Some? ==> Adjacent(g.parents, n, from.value))
    ensures Sum(g.flight + multiset(Copies(n, g.peers[n], def, from)), WeighMsgs(g.parents)) + 1 <=
            Sum(g.flight, WeighMsgs(g.parents)) + TaskWeight(g.parents, k, Share(n, def, from))
  {
    hide Pow, Side, IsTree, Copies, MsgWeight, Adjacent, Sum;
    var t, copies := g.parents, Copies(n, g.peers[n], def, from);
    SizePositive(g, n, from);
    var size := if from.None? then |t| else |Side(t, from.value, n)|;
    forall m | m in copies ensures WeighMsgs(t)(m) <= Pow(|t| + 2, size - 1) {
      CopyWeight(g, n, def, from, m, size);
    }
    SumAddsSet(g.flight, WeighMsgs(t), copies, Pow(|t| + 2, size - 1));
    CopiesSize(n, g.peers[n], def, from);
    PeersSize(g, n);
    Product(|copies|, |t|, Pow(|t| + 2, size - 1));
    OneOutweighsMany(|t|, size);
  }

  lemma Product(a: nat, b: nat, p: nat)
    requires a <= b
    ensures a * p <= b * p
  {}

  lemma SizePositive(g: State, n: nat, from: Option<nat>)
    requires PeersOk(g) && n < |g.table| && (from.Some? ==> Adjacent(g.parents, n, from.value))
    ensures from.Some? ==> Adjacent(g.parents, from.value, n) && |Side(g.parents, from.value, n)| > 0
    ensures |g.parents| > 0
  {
    if from.Some? {
      NearInSide(g.parents, from.value, n);
    }
  }

  lemma NearInSide(t: Parents, a: nat, b: nat)
    requires IsTree(t) && Adjacent(t, a, b)
    ensures b in Side(t, a, b)
  {
    if !(b > 0 && t[b] == a) {
      if Below(t, a, b) {
        BelowIsLater(t, a, b);
      }
    }
  }

  lemma CopyWeight(g: State, n: nat, def: TDef, from: Option<nat>, m: Msg, size: nat)
    requires PeersOk(g) && n < |g.table| && m in Copies(n, g.peers[n], def, from)
    requires from.Some? ==> Adjacent(g.parents, from.value, n)
    requires size > 0 && size == if from.None? then |g.parents| else |Side(g.parents, from.value, n)|
    ensures MsgWeight(g.parents, m) <= Pow(|g.parents| + 2, size - 1)
  {
    hide Pow, Side, IsTree;
    var t := g.parents;
    assert m.src == n && m.dst in g.peers[n] && Some(m.dst) != from;
    assert Adjacent(t, n, m.dst);
    if from.None? {
      SideLeavesOut(t, n, m.dst);
    } else {
      SideShrinks(t, from.value, n, m.dst);
      SubsetSize(Side(t, n, m.dst), Side(t, from.value, n));
    }
    PowMonotone(|t| + 2, |Side(t, n, m.dst)|, size - 1);
  }

  lemma ReceiveSheds(g: State, k: nat, m: Msg)
    requires PeersOk(g) && MsgOk(g, m) && Enabled(g, Receive(m))
    ensures Load(Next(g, Receive(m)), k) + 1 == Load(g, k)
  {
    hide Pow, Side, Adjacent, Known, Store, Sum, IsTree;
    var t := g.parents;
    SumTakes(g.flight, WeighMsgs(t), m);
    SumAddsOne(g.tasks, WeighTasks(t, k), Share(m.dst, m.def, Some(m.src)));
  }

  lemma ListOutweighsMessages(g: State, host: nat, child: nat, defs: map<Digest, TDef>)
    requires PeersOk(g) && Adjacent(g.parents, host, child)
    ensures Sum(g.flight + multiset(Listed(host, child, defs)), WeighMsgs(g.parents)) <=
            Sum(g.flight, WeighMsgs(g.parents)) + |defs| * Pow(|g.parents| + 2, |g.parents|)
  {
    hide Pow, Side, Adjacent, IsTree, Sum;
    var t, listed := g.parents, Listed(host, child, defs);
    forall m | m in listed ensures WeighMsgs(t)(m) <= Pow(|t| + 2, |t|) {
      SideSize(t, host, child);
      PowMonotone(|t| + 2, |Side(t, host, child)|, |t|);
    }
    SumAddsSet(g.flight, WeighMsgs(t), listed, Pow(|t| + 2, |t|));
    ListedSize(host, child, defs);
    Product(|listed|, |defs|, Pow(|t| + 2, |t|));
  }

  lemma DoSheds(g: State, k: nat, task: Task)
    requires Sound(g) && Enabled(g, Do(task)) && |g.published| <= k
    ensures Load(Next(g, Do(task)), k) + 1 <= Load(g, k)
  {
    hide Pow, Side, IsTree, Known, PeersOk, TablesOk, SourcesOk, MsgOk, Copies, Listed, MsgWeight, Sum, Adjacent;
    var t, w := g.parents, WeighTasks(g.parents, k);
    var rest := g.tasks - multiset{task};
    SumTakes(g.tasks, w, task);
    assert TaskOk(g, task);
    match task {
      case Share(n, def, from) => ShareOutweighsCopies(g, k, n, def, from);
      case Accept(host, child) => SumAddsOne(rest, w, List(host, child));
      case List(host, child) =>
        SumAddsOne(rest, w, SendList(host, child, g.table[host]));
        TableSize(g, host);
        Product(|g.table[host]|, k, Pow(|t| + 2, |t|));
      case SendList(host, child, defs) => ListOutweighsMessages(g, host, child, defs);
    }
  }

  /** Deliveries and work under way; joining and publishing are the users' doing. */
  predicate IsWork(act: Act) {
    act.Receive? || act.Do?
  }

  lemma WorkKeepsPublished(g: State, act: Act)
    requires Enabled(g, act) && IsWork(act)
    ensures Next(g, act).published == g.published
  {
    SamePublished(g, act);
  }

  lemma {:induction false} RunSheds(g: State, acts: seq<Act>)
    requires Inv(g) && IsRun(g, acts) && forall k :: 0 <= k < |acts| ==> IsWork(acts[k])
    ensures Inv(Final(g, acts)) && Final(g, acts).published == g.published
    ensures Load(Final(g, acts), |g.published|) + |acts| <= Load(g, |g.published|)
  {
    hide PeersOk, TablesOk, SourcesOk, MsgOk, TaskOk, Linked, Covered, Load, Next, Enabled;
    if acts != [] {
      var init, act := acts[..|acts| - 1], acts[|acts| - 1];
      RunSheds(g, init);
      var now := Final(g, init);
      NextKeepsInv(now, act);
      WorkKeepsPublished(now, act);
      match act {
        case Receive(m) =>
          EnabledMsg(now, m);
          ReceiveSheds(now, |g.published|, m);
        case Do(task) => DoSheds(now, |g.published|, task);
        case _ =>
      }
    }
  }

  lemma EnabledMsg(g: State, m: Msg)
    requires Sound(g) && Enabled(g, Receive(m))
    ensures MsgOk(g, m)
  {}

  /**
   From any reachable network, while nobody joins or publishes, no run of deliveries and sends is longer
   than the network's load; and short of rest another step is always possible. So it comes to rest.
   */
  lemma ComesToRest(before: seq<Act>, acts: seq<Act>)
    requires IsRun(START, before) && IsRun(Final(START, before), acts)
    requires forall k :: 0 <= k < |acts| ==> IsWork(acts[k])
    ensures var g := Final(START, before);
            && |acts| <= Load(g, |g.published|)
            && (!Quiet(Final(g, acts)) ==> exists act :: IsWork(act) && Enabled(Final(g, acts), act))
  {
    hide Inv, Load, IsRun, Final, START;
    RunKeepsInv(before);
    RunSheds(Final(START, before), acts);
    if !Quiet(Final(Final(START, before), acts)) {
      NotQuietGoesOn(Final(Final(START, before), acts));
    }
  }

  /** When no delivery and no send is left to do, every node knows every published hash. */
  lemma EveryoneLearnsEverything(before: seq<Act>, acts: seq<Act>, a: nat, h: Digest)
    requires IsRun(START, before) && IsRun(Final(START, before), acts)
    requires forall k :: 0 <= k < |acts| ==> IsWork(acts[k])
    requires forall act :: IsWork(act) ==> !Enabled(Final(Final(START, before), acts), act)
    requires a < |Final(Final(START, before), acts).table|
    ensures var g := Final(Final(START, before), acts);
            h in g.table[a] <==> exists def :: IsPublished(g, def, h)
  {
    hide Inv, Load, IsRun, Final, START, Enabled, Quiet, IsWork;
    RunKeepsInv(before);
    RunSheds(Final(START, before), acts);
    var g := Final(Final(START, before), acts);
    if !Quiet(g) {
      NotQuietGoesOn(g);
    }
    QuietTables(g, a, h);
  }

  lemma NotQuietGoesOn(g: State)
    requires Inv(g) && !Quiet(g)
    ensures exists act :: IsWork(act) && Enabled(g, act)
  {
    hide Linked, Covered, TablesOk, SourcesOk;
    if g.flight != multiset{} {
      var m :| m in g.flight;
      assert MsgOk(g, m) && Enabled(g, Receive(m));
    } else {
      var task :| task in g.tasks;
      assert TaskOk(g, task) && Enabled(g, Do(task));
    }
  }

  // ---------- News gets everywhere ----------

  /** Nodes of the network publish definitions under hashes that are new to them, no two under one. */
  ghost predicate PublishesNews(g: State, acts: seq<Act>) {
    && (forall k :: 0 <= k < |acts| ==>
          acts[k].Publish? && acts[k].node < |g.table| && !Known(g, acts[k].node, acts[k].def.fHash))
    && (forall j, k :: 0 <= j < k < |acts| && acts[j].Publish? && acts[k].Publish? ==>
          acts[j].def.fHash != acts[k].def.fHash)
  }

  /** The definition is published under hash h. */
  ghost predicate Announces(acts: seq<Act>, def: TDef, h: Digest) {
    def.fHash == h && exists k :: 0 <= k < |acts| && acts[k].Publish? && acts[k].def == def
  }

  lemma PublishStep(g: State, n: nat, def: TDef)
    requires Enabled(g, Publish(n, def))
    ensures var g' := Next(g, Publish(n, def));
            && |g'.table| == |g.table| && g'.published == g.published + {def}
            && forall a, h :: Known(g', a, h) <==> Known(g, a, h) || (a == n && h == def.fHash)
  {}

  /** Any number of definitions can be published before anything else happens. */
  lemma {:induction false} AllGetPublished(g: State, acts: seq<Act>)
    requires PublishesNews(g, acts)
    ensures IsRun(g, acts) && |Final(g, acts).table| == |g.table|
    ensures forall def, h :: Announces(acts, def, h) ==> def in Final(g, acts).published
    ensures forall a, h :: Known(Final(g, acts), a, h) && !Known(g, a, h) ==> exists def :: Announces(acts, def, h)
  {
    hide Next;
    if acts != [] {
      var n := |acts| - 1;
      var init, act := acts[..n], acts[n];
      assert PublishesNews(g, init);
      AllGetPublished(g, init);
      var now := Final(g, init);
      forall def, h | Announces(init, def, h) ensures h != act.def.fHash {
        var k :| 0 <= k < |init| && init[k].Publish? && init[k].def == def;
        assert acts[k] == init[k];
      }
      assert Enabled(now, act);
      PublishStep(now, act.node, act.def);
      forall def, h ensures Announces(acts, def, h) <==> Announces(init, def, h) || (def == act.def && h == def.fHash) {
        MoreAnnounced(acts, def, h);
      }
      forall a, h | Known(Final(g, acts), a, h) && !Known(g, a, h) ensures exists def :: Announces(acts, def, h) {
        if Known(now, a, h) {
          var def :| Announces(init, def, h);
          assert Announces(acts, def, h);
        } else {
          assert Announces(acts, act.def, h);
        }
      }
    }
  }

  lemma MoreAnnounced(acts: seq<Act>, def: TDef, h: Digest)
    requires acts != [] && acts[|acts| - 1].Publish?
    ensures Announces(acts, def, h) <==>
            Announces(acts[..|acts| - 1], def, h) || (def == acts[|acts| - 1].def && h == def.fHash)
  {
    var n := |acts| - 1;
    forall k | 0 <= k < n ensures acts[..n][k] == acts[k] {}
  }

  /** Whatever has been done, some further work brings the network to rest. */
  lemma {:induction false} RestIsReached(g: State, done: seq<Act>) returns (acts: seq<Act>)
    requires Inv(g) && IsRun(g, done) && forall k :: 0 <= k < |done| ==> IsWork(done[k])
    ensures IsRun(g, acts) && Quiet(Final(g, acts)) && forall k :: 0 <= k < |acts| ==> IsWork(acts[k])
    decreases Load(g, |g.published|) - |done|
  {
    hide Inv, Load, Enabled, Quiet, IsWork, Next;
    RunSheds(g, done);
    if Quiet(Final(g, done)) {
      return done;
    }
    NotQuietGoesOn(Final(g, done));
    var act :| IsWork(act) && Enabled(Final(g, done), act);
    assert (done + [act])[..|done + [act]| - 1] == done;
    RunSheds(g, done + [act]);
    acts := RestIsReached(g, done + [act]);
  }

  /**
   From any reachable network, any definitions under new hashes can be published, by whomever, and some work
   then brings the network to rest with each of them known to every node.
   */
  lemma NewsGetsEverywhere(before: seq<Act>, news: seq<Act>) returns (acts: seq<Act>)
    requires IsRun(START, before) && PublishesNews(Final(START, before), news)
    ensures IsRun(START, before + news)
    ensures var g := Final(START, before + news);
            && IsRun(g, acts) && (forall k :: 0 <= k < |acts| ==> IsWork(acts[k])) && Quiet(Final(g, acts))
            && forall k, a: nat :: 0 <= k < |news| && a < |Final(g, acts).table| && news[k].Publish? ==>
                 Known(Final(g, acts), a, news[k].def.fHash)
  {
    hide Inv, Load, Enabled, Quiet, IsWork, Next, START;
    AllGetPublished(Final(START, before), news);
    RunOn(START, before, news);
    RunKeepsInv(before + news);
    var g := Final(START, before + news);
    acts := RestIsReached(g, []);
    RunSheds(g, acts);
    var end := Final(g, acts);
    forall k, a: nat | 0 <= k < |news| && a < |end.table| && news[k].Publish?
      ensures Known(end, a, news[k].def.fHash)
    {
      assert Announces(news, news[k].def, news[k].def.fHash);
      assert IsPublished(end, news[k].def, news[k].def.fHash);
      QuietTables(end, a, news[k].def.fHash);
    }
  }

  lemma {:induction false} RunOn(g: State, a: seq<Act>, b: seq<Act>)
    requires IsRun(g, a) && IsRun(Final(g, a), b)
    ensures IsRun(g, a + b) && Final(g, a + b) == Final(Final(g, a), b)
    decreases |b|
  {
    hide Enabled, Next;
    if b == [] {
      assert a + b == a;
    } else {
      RunOn(g, a, b[..|b| - 1]);
      assert (a + b)[..|a + b| - 1] == a + b[..|b| - 1];
    }
  }
}
