/**
 One definition's flood inside the full network: from a settled network (no newcomer is joining) on, with
 any number of other definitions under way, newcomers joining, and everything interleaved, each definition
 by itself behaves among the nodes that were there as a wave over their tree. So they get it exactly
 N - 1 times, never twice; Newcomers says how often those who join meanwhile do.
 */
module Flooding {
  import opened Bytes
  import opened Tfile
  import opened Tree
  import opened Gossip
  import Wave

  /** Every node has exactly its tree neighbours as peers, and nobody is joining. */
  ghost predicate Settled(g: State) {
    && Sound(g)
    && (forall a: nat, b: nat :: a < |g.peers| ==> (b in g.peers[a] <==> Adjacent(g.parents, a, b)))
    && (forall task :: task in g.tasks ==> task.Share?)
  }

  /** Every reachable network in which nobody is just joining is settled. */
  lemma ReachableIsSettled(acts: seq<Act>)
    requires IsRun(START, acts) && forall task :: task in Final(START, acts).tasks ==> task.Share?
    ensures Settled(Final(START, acts))
  {
    hide Adjacent, TablesOk, SourcesOk, MsgOk, TaskOk, Covered, IsRun, Final, IsTree;
    RunKeepsInv(acts);
    var g := Final(START, acts);
    assert forall a: nat, b: nat :: Accept(a, b) !in g.tasks;
  }

  /** No other definition of this hash exists. */
  ghost predicate OnlyOne(g: State, def: TDef) {
    forall d :: d in g.published && d.fHash == def.fHash ==> d == def
  }

  ghost predicate Unpublished(g: State, def: TDef) {
    forall d :: d in g.published ==> d.fHash != def.fHash
  }

  /** Anything but another publication of the hash. */
  predicate Calm(act: Act, def: TDef) {
    act.Publish? ==> act.def.fHash != def.fHash
  }

  ghost predicate AllCalm(acts: seq<Act>, def: TDef) {
    forall k :: 0 <= k < |acts| ==> Calm(acts[k], def)
  }

  // ---------- Newcomers are below ----------

  /** Node b joined below node a, after the tree was t. */
  predicate Below(g: State, t: Parents, a: nat, b: nat) {
    |t| <= b < |g.parents| && g.parents[b] == a
  }

  predicate MsgDown(g: State, t: Parents, m: Msg) {
    (m.src < |t| && m.dst < |t|) || Below(g, t, m.src, m.dst)
  }

  /** What a newcomer is about to pass on it heard from above; an old node heard it from an old one. */
  predicate TaskDown(g: State, t: Parents, def: TDef, task: Task) {
    match task
    case Share(n, d, from) =>
      d == def ==> if n < |t| then from.Some? ==> from.value < |t| else from.Some? && Below(g, t, from.value, n)
    case Accept(host, child) => Below(g, t, host, child)
    case List(host, child) => Below(g, t, host, child)
    case SendList(host, child, _) => Below(g, t, host, child)
  }

  /** Old nodes keep their old neighbours, and def travels among them or downwards. */
  ghost predicate Amid(g: State, t: Parents, def: TDef) {
    && Sound(g) && OnlyOne(g, def) && IsTree(t) && t <= g.parents
    && (forall a: nat, b: nat :: a < |t| && b < |t| ==> (b in g.peers[a] <==> Adjacent(t, a, b)))
    && (forall m :: m in g.flight && m.def == def ==> MsgDown(g, t, m))
    && (forall task :: task in g.tasks ==> TaskDown(g, t, def, task))
  }

  lemma AmidParts(g: State, t: Parents, def: TDef)
    requires Amid(g, t, def)
    ensures IsTree(g.parents) && |g.table| == |g.peers| == |g.parents| && |t| <= |g.parents|
    ensures forall n: nat :: n < |t| ==> g.parents[n] == t[n]
  {}

  /** Joining adds nodes at the end. */
  lemma StillDown(g: State, g': State, t: Parents, def: TDef)
    requires g.parents <= g'.parents
    ensures forall m :: MsgDown(g, t, m) ==> MsgDown(g', t, m)
    ensures forall task :: TaskDown(g, t, def, task) ==> TaskDown(g', t, def, task)
  {}

  /** A peer to which def is passed on is an old node, seen from an old one, or below. */
  lemma CopyIsDown(g: State, t: Parents, def: TDef, task: Task, p: nat)
    requires Amid(g, t, def) && task in g.tasks && task.Share? && task.def == def && task.node < |g.peers|
    requires p in g.peers[task.node] && Some(p) != task.from
    ensures MsgDown(g, t, Msg(task.node, p, def))
  {
    hide TablesOk, SourcesOk, MsgOk, TaskOk;
    assert Adjacent(g.parents, task.node, p);
    assert TaskDown(g, t, def, task);
  }

  lemma DoStaysDown(g: State, t: Parents, def: TDef, task: Task)
    requires Amid(g, t, def) && Enabled(g, Do(task))
    ensures var g' := Next(g, Do(task));
            && (forall m :: m in g'.flight && m.def == def ==> MsgDown(g', t, m))
            && (forall x :: x in g'.tasks ==> TaskDown(g', t, def, x))
  {
    hide Sound, Adjacent, IsTree, OnlyOne, MsgDown, Below;
    var g' := Next(g, Do(task));
    assert TaskDown(g, t, def, task);
    assert g'.parents == g.parents;
    StillDown(g, g', t, def);
    forall m | m in g'.flight && m.def == def ensures MsgDown(g', t, m) {
      if m !in g.flight {
        if task.Share? {
          CopyIsDown(g, t, def, task, m.dst);
        } else {
          BelowIsDown(g, t, m);
        }
      }
    }
  }

  lemma BelowIsDown(g: State, t: Parents, m: Msg)
    ensures Below(g, t, m.src, m.dst) ==> MsgDown(g, t, m)
  {}

  lemma ReceiveStaysDown(g: State, t: Parents, def: TDef, m: Msg)
    requires Amid(g, t, def) && Enabled(g, Receive(m))
    ensures var g' := Next(g, Receive(m));
            && (forall x :: x in g'.flight && x.def == def ==> MsgDown(g', t, x))
            && (forall x :: x in g'.tasks ==> TaskDown(g', t, def, x))
  {
    hide Sound, Adjacent, IsTree, OnlyOne;
  }

  lemma StaysAmid(g: State, t: Parents, def: TDef, act: Act)
    requires Amid(g, t, def) && Enabled(g, act) && Calm(act, def)
    ensures Amid(Next(g, act), t, def)
  {
    hide Sound, Next, IsTree, OnlyOne, MsgDown, TaskDown, Adjacent;
    NextKeepsSound(g, act);
    NextKeepsNames(g, t, def, act);
    NextKeepsOldPeers(g, t, def, act);
    NextStaysDown(g, t, def, act);
  }

  lemma NextStaysDown(g: State, t: Parents, def: TDef, act: Act)
    requires Amid(g, t, def) && Enabled(g, act) && Calm(act, def)
    ensures var g' := Next(g, act);
            && (forall m :: m in g'.flight && m.def == def ==> MsgDown(g', t, m))
            && (forall x :: x in g'.tasks ==> TaskDown(g', t, def, x))
  {
    hide Sound, Adjacent, IsTree, MsgDown, TaskDown, Copies, Listed, Gossip.Store;
    AmidParts(g, t, def);
    NextKeepsNames(g, t, def, act);
    StillDown(g, Next(g, act), t, def);
    match act {
      case Do(task) => DoStaysDown(g, t, def, task);
      case Receive(m) => ReceiveStaysDown(g, t, def, m);
      case Publish(n, d) => OtherShareDown(Next(g, act), t, def, Share(n, d, None));
      case Connect(host) => NewcomerDown(Next(g, act), t, def, host, |g.table|);
    }
  }

  lemma NextKeepsOldPeers(g: State, t: Parents, def: TDef, act: Act)
    requires Amid(g, t, def) && Enabled(g, act)
    ensures var g' := Next(g, act);
            && |g.peers| <= |g'.peers| && |t| <= |g.peers|
            && forall a: nat, b: nat :: a < |t| && b < |t| ==> (b in g'.peers[a] <==> Adjacent(t, a, b))
  {
    hide Sound, Adjacent, IsTree, MsgDown, TaskDown, Copies, Listed, Gossip.Store;
    AmidParts(g, t, def);
    if act.Do? {
      DoKeepsOldPeers(g, t, def, act.task);
    }
  }

  lemma NextKeepsNames(g: State, t: Parents, def: TDef, act: Act)
    requires Amid(g, t, def) && Enabled(g, act) && Calm(act, def)
    ensures OnlyOne(Next(g, act), def) && g.parents <= Next(g, act).parents && t <= Next(g, act).parents
  {
    hide Sound, Adjacent, IsTree, MsgDown, TaskDown, Copies, Listed, Gossip.Store;
  }

  lemma DoKeepsOldPeers(g: State, t: Parents, def: TDef, task: Task)
    requires Amid(g, t, def) && Enabled(g, Do(task))
    ensures var g' := Next(g, Do(task));
            && |g'.peers| == |g.peers|
            && forall a: nat, b: nat :: a < |t| && b < |t| ==> (b in g'.peers[a] <==> Adjacent(t, a, b))
  {
    hide Sound, Adjacent, IsTree, MsgDown, Copies, Listed;
    AmidParts(g, t, def);
    assert TaskDown(g, t, def, task);
  }

  lemma OtherShareDown(g: State, t: Parents, def: TDef, task: Task)
    requires task.Share? && task.def != def
    ensures TaskDown(g, t, def, task)
  {}

  lemma NewcomerDown(g: State, t: Parents, def: TDef, host: nat, child: nat)
    requires |t| <= child < |g.parents| && g.parents[child] == host
    ensures TaskDown(g, t, def, Accept(host, child))
  {}

  // ---------- The wave among the old nodes ----------

  /** The wave w over t is what the old nodes do among themselves about def. */
  ghost predicate Shows(g: State, t: Parents, w: Wave.State, def: TDef) {
    && (forall n: nat :: n in w.reached <==> n < |t| && Known(g, n, def.fHash))
    && (forall a: nat, b: nat :: w.flight[(a, b)] == if a < |t| && b < |t| then g.flight[Msg(a, b, def)] else 0)
    && (forall task :: w.tasks[task] == if task.node < |t| then g.tasks[Share(task.node, def, task.from)] else 0)
    && w.replied == {} && w.holders == {}
  }

  function Project(act: Act, t: Parents, def: TDef): seq<Wave.Act> {
    match act
    case Receive(m) => if m.def == def && m.dst < |t| then [Wave.Receive(m.src, m.dst)] else []
    case Do(task) =>
      if task.Share? && task.def == def && task.node < |t| then [Wave.Spread(Wave.Task(task.node, task.from))] else []
    case _ => []
  }

  function ProjectAll(acts: seq<Act>, t: Parents, def: TDef): seq<Wave.Act> {
    if acts == [] then [] else ProjectAll(acts[..|acts| - 1], t, def) + Project(acts[|acts| - 1], t, def)
  }

  /** How many times def is delivered to the first n nodes in a run. */
  function ReceiptsAmong(acts: seq<Act>, def: TDef, n: nat): nat {
    if acts == [] then 0
    else
      var last := acts[|acts| - 1];
      ReceiptsAmong(acts[..|acts| - 1], def, n) +
      if last.Receive? && last.msg.def == def && last.msg.dst < n then 1 else 0
  }

  /** The wave depends only on who of the old nodes knows the hash, and on what is between them. */
  lemma SameShows(g: State, g': State, t: Parents, w: Wave.State, def: TDef)
    requires Shows(g, t, w, def)
    requires forall n: nat :: n < |t| ==> (Known(g', n, def.fHash) <==> Known(g, n, def.fHash))
    requires forall a: nat, b: nat :: a < |t| && b < |t| ==> g'.flight[Msg(a, b, def)] == g.flight[Msg(a, b, def)]
    requires forall n, from :: n < |t| ==> g'.tasks[Share(n, def, from)] == g.tasks[Share(n, def, from)]
    ensures Shows(g', t, w, def)
  {
    hide Known;
  }

  lemma PublishShows(g: State, t: Parents, w: Wave.State, def: TDef, act: Act)
    requires act.Publish? && Enabled(g, act) && Calm(act, def) && Shows(g, t, w, def)
    ensures Shows(Next(g, act), t, w, def)
  {
    hide Shows;
    SameShows(g, Next(g, act), t, w, def);
  }

  lemma ConnectShows(g: State, t: Parents, w: Wave.State, def: TDef, act: Act)
    requires act.Connect? && Enabled(g, act) && |t| <= |g.table| && Shows(g, t, w, def)
    ensures Shows(Next(g, act), t, w, def)
  {
    hide Shows;
    SameShows(g, Next(g, act), t, w, def);
  }

  lemma OtherReceiptShows(g: State, t: Parents, w: Wave.State, def: TDef, act: Act)
    requires act.Receive? && Enabled(g, act) && Shows(g, t, w, def)
    requires if act.msg.def == def then act.msg.dst >= |t| else act.msg.def.fHash != def.fHash
    ensures Shows(Next(g, act), t, w, def)
  {
    hide Shows;
    SameShows(g, Next(g, act), t, w, def);
  }

  lemma OtherTaskShows(g: State, t: Parents, w: Wave.State, def: TDef, task: Task)
    requires Amid(g, t, def) && Enabled(g, Do(task)) && Shows(g, t, w, def)
    requires Project(Do(task), t, def) == []
    ensures Shows(Next(g, Do(task)), t, w, def)
  {
    hide Shows, Sound, Adjacent, IsTree, OnlyOne, Copies, Listed;
    assert TaskDown(g, t, def, task);
    var g' := Next(g, Do(task));
    forall a: nat, b: nat | a < |t| && b < |t| ensures g'.flight[Msg(a, b, def)] == g.flight[Msg(a, b, def)] {
      NothingNewBetween(g, t, def, task, a, b);
    }
    SameShows(g, g', t, w, def);
  }

  lemma NothingNewBetween(g: State, t: Parents, def: TDef, task: Task, a: nat, b: nat)
    requires TaskDown(g, t, def, task) && Enabled(g, Do(task)) && a < |t| && b < |t|
    requires Project(Do(task), t, def) == []
    ensures Next(g, Do(task)).flight[Msg(a, b, def)] == g.flight[Msg(a, b, def)]
  {
    var m := Msg(a, b, def);
    match task {
      case Share(n, d, from) => assert m !in Copies(n, g.peers[n], d, from);
      case SendList(host, child, defs) => assert m !in Listed(host, child, defs);
      case _ =>
    }
  }

  /** A step that is nothing to the old nodes' flood leaves the wave where it is. */
  lemma OtherStepShows(g: State, t: Parents, w: Wave.State, def: TDef, act: Act)
    requires Amid(g, t, def) && Enabled(g, act) && Calm(act, def)
    requires Shows(g, t, w, def) && Project(act, t, def) == []
    ensures Shows(Next(g, act), t, w, def)
  {
    hide Adjacent, PeersOk, TablesOk, SourcesOk, TaskOk, Shows, Next, TaskDown, MsgDown, IsTree;
    AmidParts(g, t, def);
    match act {
      case Publish(_, _) => PublishShows(g, t, w, def, act);
      case Receive(m) =>
        assert MsgOk(g, m);
        OtherReceiptShows(g, t, w, def, act);
      case Do(task) => OtherTaskShows(g, t, w, def, task);
      case Connect(_) => ConnectShows(g, t, w, def, act);
    }
  }

  lemma ReceiptShows(g: State, t: Parents, w: Wave.State, def: TDef, m: Msg)
    requires Amid(g, t, def) && Shows(g, t, w, def) && Enabled(g, Receive(m)) && m.def == def && m.dst < |t|
    ensures Wave.Enabled(w, Wave.Receive(m.src, m.dst))
    ensures Shows(Next(g, Receive(m)), t, Wave.Next(t, w, Wave.Receive(m.src, m.dst)), def)
  {
    hide Amid;
    assert m.src < |t| by { OldMessage(g, t, def, m); }
    var g' := Next(g, Receive(m));
    assert w.flight[(m.src, m.dst)] == g.flight[m];
    assert forall a: nat :: Known(g', a, def.fHash) <==> a == m.dst || Known(g, a, def.fHash);
  }

  lemma OldMessage(g: State, t: Parents, def: TDef, m: Msg)
    requires Amid(g, t, def) && m in g.flight && m.def == def && m.dst < |t|
    ensures m.src < |t|
  {
    hide Sound, Adjacent, IsTree, OnlyOne, TaskDown;
    assert MsgDown(g, t, m);
  }

  lemma ShareShows(g: State, t: Parents, w: Wave.State, def: TDef, task: Task)
    requires Amid(g, t, def) && Shows(g, t, w, def) && Enabled(g, Do(task))
    requires task.Share? && task.def == def && task.node < |t|
    ensures Wave.Enabled(w, Wave.Spread(Wave.Task(task.node, task.from)))
    ensures Shows(Next(g, Do(task)), t, Wave.Next(t, w, Wave.Spread(Wave.Task(task.node, task.from))), def)
  {
    hide Amid, Adjacent, Copies, Wave.Targets;
    var g', x := Next(g, Do(task)), Wave.Task(task.node, task.from);
    AmidParts(g, t, def);
    assert w.tasks[x] == g.tasks[task];
    assert g'.table == g.table;
    CopiesAreTargets(g, t, def, task);
  }

  lemma CopiesAreTargets(g: State, t: Parents, def: TDef, task: Task)
    requires Amid(g, t, def) && task.Share? && task.def == def && task.node < |t| <= |g.peers|
    ensures forall a: nat, b: nat ::
              multiset(Wave.Targets(t, Wave.Task(task.node, task.from)))[(a, b)] ==
              if a < |t| && b < |t| then multiset(Copies(task.node, g.peers[task.node], def, task.from))[Msg(a, b, def)]
              else 0
  {
    hide Sound, IsTree, OnlyOne, TaskDown, MsgDown;
    var copies := Copies(task.node, g.peers[task.node], def, task.from);
    var targets := Wave.Targets(t, Wave.Task(task.node, task.from));
    forall a: nat, b: nat
      ensures (a, b) in targets <==> a < |t| && b < |t| && Msg(a, b, def) in copies
    {
      assert Adjacent(t, task.node, b) ==> b < |t|;
    }
  }

  /**
   Along any run without another publication of the hash, with any joining, the old nodes' treatment of def
   is a run of the wave.
   */
  lemma {:induction false} RunShows(g: State, t: Parents, w: Wave.State, def: TDef, acts: seq<Act>)
    requires Amid(g, t, def) && Shows(g, t, w, def) && IsRun(g, acts) && AllCalm(acts, def)
    ensures var end := Final(g, acts);
            && Amid(end, t, def)
            && Wave.IsRun(t, w, ProjectAll(acts, t, def))
            && Shows(end, t, Wave.Final(t, w, ProjectAll(acts, t, def)), def)
            && Wave.Deliveries(ProjectAll(acts, t, def)) == ReceiptsAmong(acts, def, |t|)
  {
    hide Amid, Shows, Next, Wave.Next, Enabled;
    if acts != [] {
      var init, act := acts[..|acts| - 1], acts[|acts| - 1];
      RunShows(g, t, w, def, init);
      var g1, w1 := Final(g, init), Wave.Final(t, w, ProjectAll(init, t, def));
      assert Calm(act, def);
      StaysAmid(g1, t, def, act);
      var step := Project(act, t, def);
      if step == [] {
        OtherStepShows(g1, t, w1, def, act);
        assert ProjectAll(acts, t, def) == ProjectAll(init, t, def);
      } else {
        match act {
          case Receive(m) => ReceiptShows(g1, t, w1, def, m);
          case Do(task) => ShareShows(g1, t, w1, def, task);
          case _ =>
        }
        assert ProjectAll(acts, t, def)[..|ProjectAll(acts, t, def)| - 1] == ProjectAll(init, t, def);
      }
    }
  }

  /** Publishing a new hash starts a wave at the publisher. */
  lemma PublishStartsWave(g: State, n: nat, def: TDef)
    requires Settled(g) && Enabled(g, Publish(n, def)) && Unpublished(g, def)
    ensures var g' := Next(g, Publish(n, def));
            Amid(g', g.parents, def) && Shows(g', g.parents, Wave.Start(n, {}), def)
  {
    hide Settled, Amid, Shows, Next, Unpublished, Known;
    NewHashUnseen(g, def);
    PublishIsAmid(g, n, def);
    NodesInTree(g);
    UnseenStartsWave(g, n, def);
  }

  lemma NodesInTree(g: State)
    requires Settled(g)
    ensures |g.table| == |g.parents| == |g.peers| && IsTree(g.parents)
  {}

  /** A hash that was never published is in no table, and nothing is said about it. */
  lemma NewHashUnseen(g: State, def: TDef)
    requires Settled(g) && Unpublished(g, def)
    ensures forall n: nat :: !Known(g, n, def.fHash)
    ensures forall m :: m in g.flight ==> m.def != def
    ensures forall task :: task in g.tasks && task.Share? ==> task.def != def
  {
    hide PeersOk, SourcesOk, Adjacent;
    forall m | m in g.flight ensures m.def != def {
      assert MsgOk(g, m);
    }
    forall task | task in g.tasks && task.Share? ensures task.def != def {
      assert TaskOk(g, task);
    }
  }

  lemma PublishIsAmid(g: State, n: nat, def: TDef)
    requires Settled(g) && Enabled(g, Publish(n, def)) && Unpublished(g, def)
    requires forall m :: m in g.flight ==> m.def != def
    requires forall task :: task in g.tasks && task.Share? ==> task.def != def
    ensures Amid(Next(g, Publish(n, def)), g.parents, def)
  {
    hide Adjacent, Sound, IsTree;
    NodesInTree(g);
    NextKeepsSound(g, Publish(n, def));
  }

  lemma UnseenStartsWave(g: State, n: nat, def: TDef)
    requires Enabled(g, Publish(n, def)) && |g.table| == |g.parents| && forall a: nat :: !Known(g, a, def.fHash)
    requires forall m :: m in g.flight ==> m.def != def
    requires forall task :: task in g.tasks && task.Share? ==> task.def != def
    ensures Shows(Next(g, Publish(n, def)), g.parents, Wave.Start(n, {}), def)
  {
    var g', w := Next(g, Publish(n, def)), Wave.Start(n, {});
    forall a: nat ensures Known(g', a, def.fHash) <==> a == n {
      assert !Known(g, a, def.fHash);
    }
    forall task
      ensures w.tasks[task] == if task.node < |g.parents| then g'.tasks[Share(task.node, def, task.from)] else 0
    {
      assert Share(task.node, def, task.from) !in g.tasks;
    }
    forall a: nat, b: nat ensures g'.flight[Msg(a, b, def)] == 0 {
      assert Msg(a, b, def) !in g.flight;
    }
  }

  /** A flood: def is published at n in a settled network g, and acts are what follows. */
  ghost predicate Flood(g: State, n: nat, def: TDef, acts: seq<Act>) {
    && Settled(g) && Enabled(g, Publish(n, def)) && Unpublished(g, def)
    && IsRun(Next(g, Publish(n, def)), acts) && AllCalm(acts, def)
  }

  function End(g: State, n: nat, def: TDef, acts: seq<Act>): State
    requires Enabled(g, Publish(n, def)) && IsRun(Next(g, Publish(n, def)), acts)
  {
    Final(Next(g, Publish(n, def)), acts)
  }

  /** The wave behind a flood. */
  lemma FloodIsWave(g: State, n: nat, def: TDef, acts: seq<Act>) returns (wacts: seq<Wave.Act>)
    requires Flood(g, n, def, acts)
    ensures IsTree(g.parents) && n < |g.parents| && Amid(End(g, n, def, acts), g.parents, def)
    ensures wacts == ProjectAll(acts, g.parents, def) && Wave.IsRun(g.parents, Wave.Start(n, {}), wacts)
    ensures Shows(End(g, n, def, acts), g.parents, Wave.Final(g.parents, Wave.Start(n, {}), wacts), def)
    ensures Wave.Deliveries(wacts) == ReceiptsAmong(acts, def, |g.parents|)
  {
    hide Settled, Amid, Shows, Final, IsRun, Wave.Final, Wave.IsRun, Wave.Start;
    PublishStartsWave(g, n, def);
    NodesInTree(g);
    RunShows(Next(g, Publish(n, def)), g.parents, Wave.Start(n, {}), def, acts);
    wacts := ProjectAll(acts, g.parents, def);
  }

  /** Nothing is in flight or under way for def among the first n nodes. */
  ghost predicate QuietAmong(g: State, def: TDef, n: nat) {
    && (forall m :: m in g.flight && m.src < n && m.dst < n ==> m.def != def)
    && (forall task :: task in g.tasks && task.Share? && task.node < n ==> task.def != def)
  }

  /**
   A definition published once in a settled network of N nodes is delivered to them at most N - 1 times,
   always to one that did not have it, whatever else goes on and whoever joins; and once nothing is left to do
   about it among them, it was delivered to them exactly N - 1 times and each of them has it.
   */
  lemma EachFloodIsExact(g: State, n: nat, def: TDef, acts: seq<Act>)
    requires Flood(g, n, def, acts)
    ensures var end, old' := End(g, n, def, acts), |g.parents|;
            && ReceiptsAmong(acts, def, old') <= old' - 1
            && (forall m :: m in end.flight && m.def == def && m.dst < old' ==> !Known(end, m.dst, def.fHash))
            && (QuietAmong(end, def, old') ==>
                 && ReceiptsAmong(acts, def, old') == old' - 1
                 && forall a: nat :: a < old' ==> Known(end, a, def.fHash))
  {
    hide Flood, Shows, Amid, IsRun, Wave.IsRun, Final, Wave.Final, Next, Enabled, QuietAmong, Known, Wave.Quiet, End;
    assert Enabled(g, Publish(n, def)) && IsRun(Next(g, Publish(n, def)), acts) by { FloodRuns(g, n, def, acts); }
    var wacts := FloodIsWave(g, n, def, acts);
    var end, w := End(g, n, def, acts), Wave.Final(g.parents, Wave.Start(n, {}), wacts);
    Wave.WaveStops(g.parents, n, {}, wacts);
    NewInFlight(end, g.parents, w, def);
    if QuietAmong(end, def, |g.parents|) {
      QuietWave(end, g.parents, w, def);
      NoAcquire(acts, g.parents, def);
      Wave.FloodReachesAllOnce(g.parents, n, wacts);
      ReachedKnow(end, w, def, g.parents);
    }
  }

  lemma FloodRuns(g: State, n: nat, def: TDef, acts: seq<Act>)
    requires Flood(g, n, def, acts)
    ensures Enabled(g, Publish(n, def)) && IsRun(Next(g, Publish(n, def)), acts)
  {}

  lemma NewInFlight(g: State, t: Parents, w: Wave.State, def: TDef)
    requires Amid(g, t, def) && Shows(g, t, w, def)
    requires forall a, b :: Wave.Enabled(w, Wave.Receive(a, b)) ==> b !in w.reached
    ensures forall m :: m in g.flight && m.def == def && m.dst < |t| ==> !Known(g, m.dst, def.fHash)
  {
    hide Known, Sound, Adjacent, IsTree, OnlyOne, TaskDown;
    forall m | m in g.flight && m.def == def && m.dst < |t| ensures !Known(g, m.dst, def.fHash) {
      assert MsgDown(g, t, m);
      assert w.flight[(m.src, m.dst)] == g.flight[Msg(m.src, m.dst, def)];
      assert Wave.Enabled(w, Wave.Receive(m.src, m.dst));
    }
  }

  lemma ReachedKnow(g: State, w: Wave.State, def: TDef, t: Parents)
    requires Shows(g, t, w, def) && w.reached == Nodes(t)
    ensures forall a: nat :: a < |t| ==> Known(g, a, def.fHash)
  {
    hide Known;
    forall a: nat | a < |t| ensures Known(g, a, def.fHash) {
      assert a in Nodes(t);
    }
  }

  lemma QuietWave(g: State, t: Parents, w: Wave.State, def: TDef)
    requires Shows(g, t, w, def) && QuietAmong(g, def, |t|)
    ensures Wave.Quiet(w)
  {
    forall m: (nat, nat) ensures w.flight[m] == 0 {
      assert m == (m.0, m.1);
      assert m.0 < |t| && m.1 < |t| ==> Msg(m.0, m.1, def) !in g.flight;
    }
    forall task ensures w.tasks[task] == 0 {
      assert task.node < |t| ==> Share(task.node, def, task.from) !in g.tasks;
    }
  }

  lemma {:induction false} NoAcquire(acts: seq<Act>, t: Parents, def: TDef)
    ensures forall k :: 0 <= k < |ProjectAll(acts, t, def)| ==> !ProjectAll(acts, t, def)[k].Acquire?
  {
    if acts != [] {
      NoAcquire(acts[..|acts| - 1], t, def);
    }
  }
}
