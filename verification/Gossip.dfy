/**
 Definitions spreading through a growing network (src/client.c:148-219, 381-416, 469-486). Many
 definitions are under way at once, every thread's work is its own atomic step, messages arrive in any
 order, and newcomers connect at any time. Connections do not fail.
 */
module Gossip {
  import opened Bytes
  import opened Tfile
  import opened Tree

  datatype Msg = Msg(src: nat, dst: nat, def: TDef)

  /**
   Work started and not yet done: share_tfile_to_peers for a definition; and for a newcomer, the host's
   accept loop up to add_peer, up to list_tfiles, and up to sending the list.
   */
  datatype Task =
    | Share(node: nat, def: TDef, from: Option<nat>)
    | Accept(host: nat, child: nat)
    | List(host: nat, child: nat)
    | SendList(host: nat, child: nat, defs: map<Digest, TDef>)

  /** `published` and `sources` record every published definition, and a node that published its hash. */
  datatype State = State(parents: Parents, table: seq<map<Digest, TDef>>, peers: seq<set<nat>>,
                         flight: multiset<Msg>, tasks: multiset<Task>,
                         published: set<TDef>, sources: map<Digest, nat>)

  datatype Act =
    | Publish(node: nat, def: TDef)
    | Receive(msg: Msg)
    | Do(task: Task)
    | Connect(host: nat)

  /** A first node, alone and without files. */
  const START := State([0], [map[]], [{}], multiset{}, multiset{}, {}, map[])

  predicate Enabled(g: State, act: Act) {
    match act
    case Publish(n, def) => n < |g.table| && def.fHash !in g.table[n]
    case Receive(m) => m in g.flight && m.dst < |g.table|
    case Do(task) => task in g.tasks && TaskNode(task) < |g.table| && |g.peers| == |g.table|
    case Connect(host) => host < |g.table|
  }

  function TaskNode(task: Task): nat {
    if task.Share? then task.node else task.host
  }

  /** First-write-wins storing, as add_htable does it. */
  function Store(table: map<Digest, TDef>, def: TDef): map<Digest, TDef> {
    if def.fHash in table then table else table[def.fHash := def]
  }

  /** share_tfile_to_peers: to every peer but the one the definition came from. */
  function Copies(node: nat, peers: set<nat>, def: TDef, from: Option<nat>): set<Msg> {
    set p | p in peers && Some(p) != from :: Msg(node, p, def)
  }

  /** share_tfiles_to_peer: the listed definitions to the newcomer. */
  function Listed(host: nat, child: nat, defs: map<Digest, TDef>): set<Msg> {
    set h | h in defs :: Msg(host, child, defs[h])
  }

  function Next(g: State, act: Act): State
    requires Enabled(g, act)
  {
    match act
    case Publish(n, def) =>
      g.(table := g.table[n := Store(g.table[n], def)], published := g.published + {def},
         sources := g.sources[def.fHash := n],
         tasks := g.tasks + multiset{Share(n, def, None)})
    case Receive(m) =>
      g.(flight := g.flight - multiset{m}, table := g.table[m.dst := Store(g.table[m.dst], m.def)],
         tasks := g.tasks + multiset{Share(m.dst, m.def, Some(m.src))})
    case Do(task) => Done(g.(tasks := g.tasks - multiset{task}), task)
    case Connect(host) =>
      var child := |g.table|;
      g.(parents := g.parents + [host], table := g.table + [map[]], peers := g.peers + [{host}],
         tasks := g.tasks + multiset{Accept(host, child)})
  }

  function Done(g: State, task: Task): State
    requires TaskNode(task) < |g.table| == |g.peers|
  {
    match task
    case Share(n, def, from) => g.(flight := g.flight + multiset(Copies(n, g.peers[n], def, from)))
    case Accept(host, child) =>
      g.(peers := g.peers[host := g.peers[host] + {child}], tasks := g.tasks + multiset{List(host, child)})
    case List(host, child) => g.(tasks := g.tasks + multiset{SendList(host, child, g.table[host])})
    case SendList(host, child, defs) => g.(flight := g.flight + multiset(Listed(host, child, defs)))
  }

  predicate IsRun(g: State, acts: seq<Act>)
    decreases |acts|, 0
  {
    acts == [] ||
    (IsRun(g, acts[..|acts| - 1]) && Enabled(Final(g, acts[..|acts| - 1]), acts[|acts| - 1]))
  }

  function Final(g: State, acts: seq<Act>): State
    requires IsRun(g, acts)
    decreases |acts|, 1
  {
    if acts == [] then g else Next(Final(g, acts[..|acts| - 1]), acts[|acts| - 1])
  }

  // ---------- The invariant ----------

  predicate Known(g: State, a: nat, h: Digest) {
    a < |g.table| && h in g.table[a]
  }

  predicate IsPublished(g: State, def: TDef, h: Digest) {
    def in g.published && def.fHash == h
  }

  /** A message crosses a connection with a published definition, whose hash its sender has. */
  predicate MsgOk(g: State, m: Msg) {
    && m.dst < |g.table| && Adjacent(g.parents, m.src, m.dst)
    && Known(g, m.src, m.def.fHash) && m.def in g.published
  }

  /** What a node is about to send it has in its table; what it heard, the node it heard it from has. */
  ghost predicate TaskOk(g: State, task: Task) {
    match task
    case Share(n, def, from) =>
      && Known(g, n, def.fHash) && def in g.published
      && (from.Some? ==> Known(g, from.value, def.fHash) && Adjacent(g.parents, n, from.value))
    case Accept(host, child) => host < |g.table| && child < |g.table| && Adjacent(g.parents, host, child)
    case List(host, child) => host < |g.table| && child < |g.table| && Adjacent(g.parents, host, child)
    case SendList(host, child, defs) =>
      && host < |g.table| && child < |g.table| && Adjacent(g.parents, host, child)
      && forall h :: h in defs ==> Known(g, host, h) && IsPublished(g, defs[h], h)
  }

  /** Tables hold published definitions under their own hashes. */
  ghost predicate TablesOk(g: State) {
    forall a, h :: 0 <= a < |g.table| && h in g.table[a] ==> IsPublished(g, g.table[a][h], h)
  }

  /** Every published hash is known where it was published. */
  ghost predicate SourcesOk(g: State) {
    forall def :: def in g.published ==> def.fHash in g.sources && Known(g, g.sources[def.fHash], def.fHash)
  }

  ghost predicate PeersOk(g: State) {
    && IsTree(g.parents) && |g.table| == |g.peers| == |g.parents|
    && (forall a, p :: 0 <= a < |g.peers| && p in g.peers[a] ==> Adjacent(g.parents, a, p))
  }

  ghost predicate Sound(g: State) {
    && PeersOk(g) && TablesOk(g) && SourcesOk(g)
    && (forall m :: m in g.flight ==> MsgOk(g, m))
    && (forall task :: task in g.tasks ==> TaskOk(g, task))
  }

  /** Connected nodes are on each other's peer lists, or the accept loop is about to see to it. */
  ghost predicate Linked(g: State) {
    forall a: nat, b: nat :: Adjacent(g.parents, a, b) && a < |g.peers| ==> b in g.peers[a] || Accept(a, b) in g.tasks
  }

  predicate InFlight(g: State, a: nat, b: nat, h: Digest) {
    exists m :: m in g.flight && m.src == a && m.dst == b && m.def.fHash == h
  }

  predicate Sharing(g: State, a: nat, b: nat, h: Digest) {
    exists task :: task in g.tasks && task.Share? && task.node == a && task.def.fHash == h && task.from != Some(b)
  }

  predicate Joining(g: State, a: nat, b: nat, h: Digest) {
    || Accept(a, b) in g.tasks
    || List(a, b) in g.tasks
    || exists task :: task in g.tasks && task.SendList? && task.host == a && task.child == b && h in task.defs
  }

  /** What a knows, its neighbour b knows or is about to be told. */
  predicate CoveredAt(g: State, a: nat, b: nat, h: Digest) {
    Known(g, b, h) || InFlight(g, a, b, h) || Sharing(g, a, b, h) || Joining(g, a, b, h)
  }

  ghost predicate Covered(g: State) {
    forall a, b, h :: Adjacent(g.parents, a, b) && Known(g, a, h) ==> CoveredAt(g, a, b, h)
  }

  ghost predicate Inv(g: State) {
    Sound(g) && Linked(g) && Covered(g)
  }

  lemma StartInv()
    ensures Inv(START)
  {}

  // ---------- Every step keeps it ----------

  /** Nothing known, in flight or under way is lost, except possibly the work just done. */
  ghost predicate Keeps(g: State, g': State, done: set<Task>) {
    && g'.parents == g.parents
    && (forall a, h :: Known(g, a, h) ==> Known(g', a, h))
    && (forall m :: m in g.flight ==> m in g'.flight)
    && (forall task :: task in g.tasks && task !in done ==> task in g'.tasks)
  }

  lemma KeepsCoverage(g: State, g': State, a: nat, b: nat, h: Digest)
    requires Keeps(g, g', {}) && CoveredAt(g, a, b, h)
    ensures CoveredAt(g', a, b, h)
  {}

  lemma PublishKeepsCovered(g: State, n: nat, def: TDef)
    requires Covered(g) && Enabled(g, Publish(n, def))
    ensures Covered(Next(g, Publish(n, def)))
  {
    hide CoveredAt, Adjacent;
    var g' := Next(g, Publish(n, def));
    assert Keeps(g, g', {});
    forall a, b, h | Adjacent(g'.parents, a, b) && Known(g', a, h) ensures CoveredAt(g', a, b, h) {
      if Known(g, a, h) {
        KeepsCoverage(g, g', a, b, h);
      } else {
        ShareCovers(g', Share(n, def, None), b);
      }
    }
  }

  lemma ShareCovers(g: State, task: Task, b: nat)
    requires task.Share? && task in g.tasks && task.from != Some(b)
    ensures CoveredAt(g, task.node, b, task.def.fHash)
  {
    assert Sharing(g, task.node, b, task.def.fHash);
  }

  lemma ReceiveKeepsCovered(g: State, m: Msg)
    requires Covered(g) && MsgOk(g, m) && Enabled(g, Receive(m))
    ensures Covered(Next(g, Receive(m)))
  {
    hide Adjacent;
    var g' := Next(g, Receive(m));
    assert forall a, h :: Known(g, a, h) ==> Known(g', a, h);
    assert Known(g', m.dst, m.def.fHash);
    forall a, b, h | Adjacent(g'.parents, a, b) && Known(g', a, h) ensures CoveredAt(g', a, b, h) {
      if Known(g, a, h) {
        ReceiveKeepsCoverage(g, m, a, b, h);
      } else {
        assert a == m.dst && h == m.def.fHash;
        if b == m.src {
          assert Known(g, b, h);
        } else {
          ShareCovers(g', Share(m.dst, m.def, Some(m.src)), b);
        }
      }
    }
  }

  lemma ReceiveKeepsCoverage(g: State, m: Msg, a: nat, b: nat, h: Digest)
    requires Enabled(g, Receive(m)) && CoveredAt(g, a, b, h)
    ensures CoveredAt(Next(g, Receive(m)), a, b, h)
  {
    var g' := Next(g, Receive(m));
    if Known(g, b, h) {
      assert Known(g', b, h);
    } else if InFlight(g, a, b, h) {
      var x :| x in g.flight && x.src == a && x.dst == b && x.def.fHash == h;
      if x == m {
        assert Known(g', b, h);
      } else {
        assert x in g'.flight;
      }
    } else if Sharing(g, a, b, h) {
      var task :| task in g.tasks && task.Share? && task.node == a && task.def.fHash == h && task.from != Some(b);
      assert task in g'.tasks;
    } else if exists task :: task in g.tasks && task.SendList? && task.host == a && task.child == b && h in task.defs {
      var task :| task in g.tasks && task.SendList? && task.host == a && task.child == b && h in task.defs;
      assert task in g'.tasks;
    }
  }

  /** Doing some work loses only that. */
  lemma DoKeeps(g: State, task: Task)
    requires Enabled(g, Do(task))
    ensures Keeps(g, Next(g, Do(task)), {task})
    ensures Next(g, Do(task)).table == g.table
  {}

  lemma LosesOnlyTask(g: State, g': State, task: Task, a: nat, b: nat, h: Digest)
    requires Keeps(g, g', {task}) && CoveredAt(g, a, b, h)
    ensures CoveredAt(g', a, b, h) || TaskCovers(task, a, b, h)
  {
    hide Known;
    if InFlight(g, a, b, h) {
      assert InFlight(g', a, b, h);
    } else if Sharing(g, a, b, h) {
      var x :| x in g.tasks && x.Share? && x.node == a && x.def.fHash == h && x.from != Some(b);
      assert x == task || x in g'.tasks;
    } else if exists x :: x in g.tasks && x.SendList? && x.host == a && x.child == b && h in x.defs {
      var x :| x in g.tasks && x.SendList? && x.host == a && x.child == b && h in x.defs;
      assert x == task || x in g'.tasks;
    }
  }

  predicate TaskCovers(task: Task, a: nat, b: nat, h: Digest) {
    match task
    case Share(n, def, from) => n == a && def.fHash == h && from != Some(b)
    case Accept(host, child) => host == a && child == b
    case List(host, child) => host == a && child == b
    case SendList(host, child, defs) => host == a && child == b && h in defs
  }

  lemma DoKeepsCovered(g: State, task: Task)
    requires Covered(g) && TaskOk(g, task) && Linked(g) && Enabled(g, Do(task))
    ensures Covered(Next(g, Do(task)))
  {
    hide Adjacent, CoveredAt;
    var g' := Next(g, Do(task));
    DoKeeps(g, task);
    forall a, b, h | Adjacent(g'.parents, a, b) && Known(g', a, h) ensures CoveredAt(g', a, b, h) {
      assert Known(g, a, h);
      LosesOnlyTask(g, g', task, a, b, h);
      if TaskCovers(task, a, b, h) {
        TaskDoneCovers(g, task, a, b, h);
      }
    }
  }

  /** What a task covered before, its messages or its successor cover after. */
  lemma TaskDoneCovers(g: State, task: Task, a: nat, b: nat, h: Digest)
    requires TaskOk(g, task) && Linked(g) && Enabled(g, Do(task)) && Adjacent(g.parents, a, b) && Known(g, a, h)
    requires TaskCovers(task, a, b, h)
    ensures CoveredAt(Next(g, Do(task)), a, b, h)
  {
    hide Adjacent;
    var g' := Next(g, Do(task));
    match task {
      case Share(n, def, from) =>
        if b in g.peers[a] {
          var m := Msg(n, b, def);
          assert m in Copies(n, g.peers[n], def, from);
          assert m in g'.flight;
        } else {
          assert Accept(a, b) in g'.tasks;
        }
      case Accept(_, _) => assert List(a, b) in g'.tasks;
      case List(_, _) => assert SendList(a, b, g.table[a]) in g'.tasks;
      case SendList(_, _, defs) =>
        var m := Msg(a, b, defs[h]);
        assert m in Listed(a, b, defs);
        assert m in g'.flight;
    }
  }

  lemma ConnectKeepsCovered(g: State, host: nat)
    requires PeersOk(g) && Covered(g) && host < |g.table|
    ensures Covered(Next(g, Connect(host)))
  {
    var g' := Next(g, Connect(host));
    forall a, b, h | Adjacent(g'.parents, a, b) && Known(g', a, h) ensures CoveredAt(g', a, b, h) {
      assert Known(g, a, h);
      if b == |g.table| {
        assert a == host;
        assert Accept(host, b) in g'.tasks;
      } else {
        assert Adjacent(g.parents, a, b);
        ConnectKeepsCoverage(g, host, a, b, h);
      }
    }
  }

  lemma ConnectKeepsCoverage(g: State, host: nat, a: nat, b: nat, h: Digest)
    requires host < |g.table| && CoveredAt(g, a, b, h)
    ensures CoveredAt(Next(g, Connect(host)), a, b, h)
  {
    var g' := Next(g, Connect(host));
    assert forall task :: task in g.tasks ==> task in g'.tasks;
    assert g'.flight == g.flight;
    if Known(g, b, h) {
      assert Known(g', b, h);
    }
  }

  /** Nodes, tables and published definitions only ever grow. */
  ghost predicate Grows(g: State, g': State) {
    && |g.table| <= |g'.table| && g.published <= g'.published
    && (forall a, h :: Known(g, a, h) ==> Known(g', a, h))
    && (forall a, b :: Adjacent(g.parents, a, b) ==> Adjacent(g'.parents, a, b))
  }

  lemma NextGrows(g: State, act: Act)
    requires Enabled(g, act)
    ensures Grows(g, Next(g, act))
  {}

  /** Whatever a node has under a hash it keeps: the first definition it came to know. */
  lemma NextKeepsEntries(g: State, act: Act, a: nat, h: Digest)
    requires Enabled(g, act) && Known(g, a, h)
    ensures Known(Next(g, act), a, h) && Next(g, act).table[a][h] == g.table[a][h]
  {
    hide Copies, Listed;
  }

  lemma {:induction false} RunKeepsEntries(g: State, acts: seq<Act>, a: nat, h: Digest)
    requires IsRun(g, acts) && Known(g, a, h)
    ensures Known(Final(g, acts), a, h) && Final(g, acts).table[a][h] == g.table[a][h]
  {
    hide Enabled, Next;
    if acts != [] {
      RunKeepsEntries(g, acts[..|acts| - 1], a, h);
      NextKeepsEntries(Final(g, acts[..|acts| - 1]), acts[|acts| - 1], a, h);
    }
  }

  lemma GrowingKeepsOk(g: State, g': State)
    requires Grows(g, g')
    ensures forall m :: MsgOk(g, m) ==> MsgOk(g', m)
    ensures forall task :: TaskOk(g, task) ==> TaskOk(g', task)
  {
    hide Known;
  }

  lemma SamePeersOk(g: State, g': State)
    requires PeersOk(g) && g'.parents == g.parents && g'.peers == g.peers && |g'.table| == |g.table|
    ensures PeersOk(g')
  {}

  lemma NextKeepsPeers(g: State, act: Act)
    requires PeersOk(g) && Enabled(g, act) && (act.Do? ==> TaskOk(g, act.task))
    ensures PeersOk(Next(g, act))
  {
    hide PeersOk, Known, Copies, Listed;
    var g' := Next(g, act);
    match act {
      case Publish(n, def) => SamePeersOk(g, g');
      case Receive(m) => SamePeersOk(g, g');
      case Do(task) =>
        match task {
          case Share(n, def, from) => SamePeersOk(g, g');
          case Accept(host, child) => AcceptKeepsPeers(g, host, child);
          case List(host, child) => SamePeersOk(g, g');
          case SendList(host, child, defs) => SamePeersOk(g, g');
        }
      case Connect(host) => ConnectKeepsPeers(g, host);
    }
  }

  lemma AcceptKeepsPeers(g: State, host: nat, child: nat)
    requires PeersOk(g) && Enabled(g, Do(Accept(host, child))) && Adjacent(g.parents, host, child)
    ensures PeersOk(Next(g, Do(Accept(host, child))))
  {
    hide IsTree;
    assert Next(g, Do(Accept(host, child))).peers == g.peers[host := g.peers[host] + {child}];
  }

  lemma ConnectKeepsPeers(g: State, host: nat)
    requires PeersOk(g) && host < |g.table|
    ensures PeersOk(Next(g, Connect(host)))
  {
    assert Next(g, Connect(host)).peers == g.peers + [{host}];
  }

  lemma StoreMeaning(table: map<Digest, TDef>, def: TDef)
    ensures var after := Store(table, def);
            && after.Keys == table.Keys + {def.fHash}
            && (forall h :: h in table ==> after[h] == table[h])
            && (def.fHash !in table ==> after[def.fHash] == def)
  {}

  /** Storing a published definition keeps the tables sound. */
  lemma StoreKeepsTables(g: State, g': State, n: nat, def: TDef)
    requires TablesOk(g) && n < |g.table| && g'.table == g.table[n := Store(g.table[n], def)]
    requires g.published <= g'.published && def in g'.published
    ensures TablesOk(g')
  {
    hide Store;
    StoreMeaning(g.table[n], def);
  }

  lemma NextKeepsTables(g: State, act: Act)
    requires TablesOk(g) && Enabled(g, act) && (act.Receive? ==> act.msg.def in g.published)
    ensures TablesOk(Next(g, act))
  {
    hide Copies, Listed, Store;
    var g' := Next(g, act);
    match act {
      case Publish(n, def) => StoreKeepsTables(g, g', n, def);
      case Receive(m) => StoreKeepsTables(g, g', m.dst, m.def);
      case Do(task) => assert g'.table == g.table && g'.published == g.published;
      case Connect(host) => assert g'.table == g.table + [map[]] && g'.published == g.published;
    }
  }

  lemma NextKeepsSources(g: State, act: Act)
    requires SourcesOk(g) && Enabled(g, act)
    ensures SourcesOk(Next(g, act))
  {
    hide Known, Copies, Listed, Store, Done;
    var g' := Next(g, act);
    NextGrows(g, act);
    if act.Publish? {
      PublishedIsKnown(g, act.node, act.def);
      assert g'.published == g.published + {act.def} && g'.sources == g.sources[act.def.fHash := act.node];
    } else {
      SamePublished(g, act);
    }
  }

  lemma SamePublished(g: State, act: Act)
    requires Enabled(g, act) && !act.Publish?
    ensures Next(g, act).published == g.published && Next(g, act).sources == g.sources
  {
    hide Copies, Listed, Store, Known, Adjacent;
    match act {
      case Receive(m) =>
      case Do(task) => assert Done(g.(tasks := g.tasks - multiset{task}), task).published == g.published;
      case Connect(host) =>
      case Publish(_, _) =>
    }
  }

  lemma PublishedIsKnown(g: State, n: nat, def: TDef)
    requires Enabled(g, Publish(n, def))
    ensures Known(Next(g, Publish(n, def)), n, def.fHash)
  {}

  lemma NextKeepsMsgs(g: State, act: Act, m: Msg)
    requires Sound(g) && Enabled(g, act) && m in Next(g, act).flight
    ensures MsgOk(Next(g, act), m)
  {
    hide Grows, PeersOk, TablesOk, SourcesOk, TaskOk, MsgOk;
    var g' := Next(g, act);
    NextGrows(g, act);
    GrowingKeepsOk(g, g');
    if m in g.flight {
      assert MsgOk(g, m);
    } else {
      assert act.Do?;
      NewMsgOk(g, act.task, m);
    }
  }

  lemma NewMsgOk(g: State, task: Task, m: Msg)
    requires PeersOk(g) && Enabled(g, Do(task)) && TaskOk(g, task)
    requires m in Next(g, Do(task)).flight && m !in g.flight
    ensures MsgOk(g, m)
  {
    hide IsTree;
    match task {
      case Share(n, def, from) => assert m in Copies(n, g.peers[n], def, from);
      case Accept(_, _) =>
      case List(_, _) =>
      case SendList(host, child, defs) => assert m in Listed(host, child, defs);
    }
  }

  lemma NextKeepsTasks(g: State, act: Act, task: Task)
    requires Sound(g) && Enabled(g, act) && task in Next(g, act).tasks
    ensures TaskOk(Next(g, act), task)
  {
    hide Grows, PeersOk, TablesOk, SourcesOk, TaskOk, MsgOk;
    var g' := Next(g, act);
    NextGrows(g, act);
    GrowingKeepsOk(g, g');
    if task in g.tasks {
      assert TaskOk(g, task);
    } else {
      NewTaskOk(g, act, task);
    }
  }

  lemma NewTaskOk(g: State, act: Act, task: Task)
    requires Sound(g) && Enabled(g, act) && task in Next(g, act).tasks && task !in g.tasks
    ensures TaskOk(Next(g, act), task)
  {
    hide PeersOk, TablesOk, SourcesOk, TaskOk, MsgOk, Known, Copies, Listed, Store;
    match act {
      case Publish(n, def) =>
        PublishedIsKnown(g, n, def);
        ShareOk(Next(g, act), n, def, None);
      case Receive(m) => ReceivedShareOk(g, m);
      case Do(done) => FollowUpOk(g, done, task);
      case Connect(host) => NewcomerOk(g, host);
    }
  }

  lemma ShareOk(g: State, n: nat, def: TDef, from: Option<nat>)
    requires Known(g, n, def.fHash) && def in g.published
    requires from.Some? ==> Known(g, from.value, def.fHash) && Adjacent(g.parents, n, from.value)
    ensures TaskOk(g, Share(n, def, from))
  {}

  lemma ReceivedShareOk(g: State, m: Msg)
    requires Enabled(g, Receive(m)) && MsgOk(g, m)
    ensures TaskOk(Next(g, Receive(m)), Share(m.dst, m.def, Some(m.src)))
  {}

  lemma FollowUpOk(g: State, done: Task, task: Task)
    requires Enabled(g, Do(done)) && TaskOk(g, done) && TablesOk(g)
    requires task in Next(g, Do(done)).tasks && task !in g.tasks
    ensures TaskOk(Next(g, Do(done)), task)
  {
    hide Copies, Listed;
    var g' := Next(g, Do(done));
    assert g'.table == g.table && g'.published == g.published;
    if done.List? {
      assert task == SendList(done.host, done.child, g.table[done.host]);
    } else {
      assert done.Accept? && task == List(done.host, done.child);
    }
  }

  lemma NewcomerOk(g: State, host: nat)
    requires host < |g.table| && PeersOk(g)
    ensures TaskOk(Next(g, Connect(host)), Accept(host, |g.table|))
  {}

  lemma MsgPublished(g: State, m: Msg)
    requires MsgOk(g, m)
    ensures m.def in g.published
  {}

  lemma NextKeepsSound(g: State, act: Act)
    requires Sound(g) && Enabled(g, act)
    ensures Sound(Next(g, act))
  {
    hide PeersOk, TablesOk, SourcesOk, MsgOk, TaskOk, Next;
    if act.Receive? {
      MsgPublished(g, act.msg);
    }
    assert act.Do? ==> TaskOk(g, act.task);
    NextKeepsPeers(g, act);
    NextKeepsTables(g, act);
    NextKeepsSources(g, act);
    forall m | m in Next(g, act).flight ensures MsgOk(Next(g, act), m) {
      NextKeepsMsgs(g, act, m);
    }
    forall task | task in Next(g, act).tasks ensures TaskOk(Next(g, act), task) {
      NextKeepsTasks(g, act, task);
    }
  }

  /** More peers and more tasks, on the same tree, keep the links. */
  lemma MoreKeepsLinked(g: State, g': State)
    requires Linked(g) && g'.parents == g.parents && |g'.peers| == |g.peers|
    requires forall a :: 0 <= a < |g.peers| ==> g.peers[a] <= g'.peers[a]
    requires forall task :: task in g.tasks && task.Accept? ==>
               task in g'.tasks || (task.host < |g'.peers| && task.child in g'.peers[task.host])
    ensures Linked(g')
  {
    hide Adjacent;
  }

  lemma ConnectKeepsLinked(g: State, host: nat)
    requires Linked(g) && PeersOk(g) && host < |g.table|
    ensures Linked(Next(g, Connect(host)))
  {
    var g' := Next(g, Connect(host));
    var child := |g.table|;
    assert Accept(host, child) in g'.tasks && g'.peers[child] == {host};
    forall a: nat, b: nat | Adjacent(g'.parents, a, b) && a < |g'.peers|
      ensures b in g'.peers[a] || Accept(a, b) in g'.tasks
    {
      if a != child && b != child {
        assert Adjacent(g.parents, a, b);
        assert b in g.peers[a] || Accept(a, b) in g.tasks;
      }
    }
  }

  lemma DoKeepsLinked(g: State, task: Task)
    requires Linked(g) && Enabled(g, Do(task))
    ensures Linked(Next(g, Do(task)))
  {
    hide Linked, Copies, Listed, Known;
    var g' := Next(g, Do(task));
    DoKeeps(g, task);
    if task.Accept? {
      assert g'.peers == g.peers[task.host := g.peers[task.host] + {task.child}];
    } else {
      assert g'.peers == g.peers;
    }
    MoreKeepsLinked(g, g');
  }

  lemma NextKeepsLinked(g: State, act: Act)
    requires Linked(g) && PeersOk(g) && Enabled(g, act)
    ensures Linked(Next(g, act))
  {
    hide Linked, PeersOk, Store;
    match act {
      case Publish(_, _) => MoreKeepsLinked(g, Next(g, act));
      case Receive(_) => MoreKeepsLinked(g, Next(g, act));
      case Do(task) => DoKeepsLinked(g, task);
      case Connect(host) => ConnectKeepsLinked(g, host);
    }
  }

  /** Every step keeps the invariant. */
  lemma NextKeepsInv(g: State, act: Act)
    requires Inv(g) && Enabled(g, act)
    ensures Inv(Next(g, act))
  {
    hide PeersOk, TablesOk, SourcesOk, MsgOk, TaskOk, Linked, Covered, Next;
    NextKeepsSound(g, act);
    NextKeepsLinked(g, act);
    match act {
      case Publish(n, def) => PublishKeepsCovered(g, n, def);
      case Receive(m) => ReceiveKeepsCovered(g, m);
      case Do(task) => DoKeepsCovered(g, task);
      case Connect(host) => ConnectKeepsCovered(g, host);
    }
  }

  lemma {:induction false} RunKeepsInv(acts: seq<Act>)
    requires IsRun(START, acts)
    ensures Inv(Final(START, acts))
  {
    hide Inv;
    if acts == [] {
      StartInv();
    } else {
      RunKeepsInv(acts[..|acts| - 1]);
      NextKeepsInv(Final(START, acts[..|acts| - 1]), acts[|acts| - 1]);
    }
  }

  predicate Quiet(g: State) {
    g.flight == multiset{} && g.tasks == multiset{}
  }

  /**
   Nobody misses a definition: in whatever order nodes join, publish, receive and send, once nothing is
   in flight or under way each node's table holds exactly the published hashes, each with one
   published definition of it.
   */
  lemma NobodyMissesADefinition(acts: seq<Act>, a: nat, h: Digest)
    requires IsRun(START, acts) && Quiet(Final(START, acts)) && a < |Final(START, acts).table|
    ensures var g := Final(START, acts);
            && (h in g.table[a] <==> exists def :: IsPublished(g, def, h))
            && (h in g.table[a] ==> IsPublished(g, g.table[a][h], h))
  {
    hide Final, IsRun, Inv, Quiet;
    RunKeepsInv(acts);
    QuietTables(Final(START, acts), a, h);
  }

  lemma QuietTables(g: State, a: nat, h: Digest)
    requires Inv(g) && Quiet(g) && a < |g.table|
    ensures h in g.table[a] <==> exists def :: IsPublished(g, def, h)
    ensures h in g.table[a] ==> IsPublished(g, g.table[a][h], h)
  {
    hide Linked, MsgOk, TaskOk, Covered, PeersOk;
    if def :| IsPublished(g, def, h) {
      KnownEverywhere(g, g.sources[h], h);
      assert Known(g, a, h);
    }
  }

  /** At rest, what one node knows all know. */
  lemma KnownEverywhere(g: State, source: nat, h: Digest)
    requires PeersOk(g) && Covered(g) && Quiet(g) && Known(g, source, h)
    ensures forall a: nat :: a < |g.table| ==> Known(g, a, h)
  {
    hide Adjacent, IsTree;
    var knowing := set n: nat | n < |g.table| && Known(g, n, h);
    forall x, y | x in knowing && Adjacent(g.parents, x, y) ensures y in knowing {
      assert CoveredAt(g, x, y, h);
    }
    ClosedIsEverything(g.parents, knowing, source);
    forall a: nat | a < |g.table| ensures Known(g, a, h) {
      assert a in Nodes(g.parents);
    }
  }
}
