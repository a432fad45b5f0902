/**
 What joining does to a flood (src/client.c:148-219, 381-416): a newcomer may be told of a definition
 twice, by its host's broadcast and with its host's list. When that happens, and that it takes somebody
 joining.
 */
module Newcomers {
  import opened Bytes
  import opened Tfile
  import opened Tree
  import opened Gossip
  import opened Flooding
  import Wave

  // ---------- Joining is what it takes ----------

  function Joins(acts: seq<Act>): nat {
    if acts == [] then 0 else Joins(acts[..|acts| - 1]) + if acts[|acts| - 1].Connect? then 1 else 0
  }

  /** Each delivery of def in the run is to a node without it. */
  ghost predicate DeliversNews(g: State, acts: seq<Act>, def: TDef) {
    forall i :: 0 <= i < |acts| && acts[i].Receive? && acts[i].msg.def == def && IsRun(g, acts[..i]) ==>
                  !Known(Final(g, acts[..i]), acts[i].msg.dst, def.fHash)
  }

  /** So is every delivery in a flood with at most k nodes joining. */
  ghost predicate AlwaysNews(g: State, n: nat, def: TDef, k: nat)
    requires Enabled(g, Publish(n, def))
  {
    forall acts :: Flood(g, n, def, acts) && Joins(acts) <= k ==> DeliversNews(Next(g, Publish(n, def)), acts, def)
  }

  lemma {:induction false} StepOfRun(g: State, acts: seq<Act>, i: nat)
    requires IsRun(g, acts) && i < |acts|
    ensures IsRun(g, acts[..i]) && Enabled(Final(g, acts[..i]), acts[i])
  {
    hide Enabled, Next;
    var init := acts[..|acts| - 1];
    if i < |init| {
      StepOfRun(g, init, i);
      assert init[..i] == acts[..i];
    }
  }

  lemma {:induction false} NobodyJoined(g: State, acts: seq<Act>)
    requires IsRun(g, acts) && Joins(acts) == 0
    ensures |Final(g, acts).table| == |g.table|
  {
    hide Enabled, Next;
    if acts != [] {
      NobodyJoined(g, acts[..|acts| - 1]);
      OnlyJoiningAdds(Final(g, acts[..|acts| - 1]), acts[|acts| - 1]);
    }
  }

  lemma OnlyJoiningAdds(g: State, act: Act)
    requires Enabled(g, act) && !act.Connect?
    ensures |Next(g, act).table| == |g.table|
  {
    hide Copies, Listed, Gossip.Store;
  }

  lemma {:induction false} FewerJoins(acts: seq<Act>, i: nat)
    requires i <= |acts|
    ensures Joins(acts[..i]) <= Joins(acts)
  {
    if i < |acts| {
      FewerJoins(acts[..|acts| - 1], i);
      assert acts[..|acts| - 1][..i] == acts[..i];
    } else {
      assert acts[..i] == acts;
    }
  }

  /** While nobody joins, a definition is only delivered to nodes without it. */
  lemma WithoutJoinersNews(g: State, n: nat, def: TDef, acts: seq<Act>)
    requires Flood(g, n, def, acts) && Joins(acts) == 0
    ensures DeliversNews(Next(g, Publish(n, def)), acts, def)
  {
    hide Flood, IsRun, Final, Next, Known, Joins;
    FloodRuns(g, n, def, acts);
    var g1 := Next(g, Publish(n, def));
    forall i | 0 <= i < |acts| && acts[i].Receive? && acts[i].msg.def == def && IsRun(g1, acts[..i])
      ensures !Known(Final(g1, acts[..i]), acts[i].msg.dst, def.fHash)
    {
      StepOfRun(g1, acts, i);
      PrefixFlood(g, n, def, acts, i);
      FewerJoins(acts, i);
      NobodyJoined(g1, acts[..i]);
      SameNodes(g, n, def, acts[..i]);
      EachFloodIsExact(g, n, def, acts[..i]);
    }
  }

  lemma PrefixFlood(g: State, n: nat, def: TDef, acts: seq<Act>, i: nat)
    requires Flood(g, n, def, acts) && i < |acts|
    ensures Flood(g, n, def, acts[..i])
  {
    hide Settled, Enabled, Next, Final, IsRun, Unpublished;
    StepOfRun(Next(g, Publish(n, def)), acts, i);
    forall k | 0 <= k < i ensures Calm(acts[..i][k], def) {
      assert acts[..i][k] == acts[k];
    }
  }

  lemma SameNodes(g: State, n: nat, def: TDef, acts: seq<Act>)
    requires Flood(g, n, def, acts)
    ensures Enabled(g, Publish(n, def)) && |Next(g, Publish(n, def)).table| == |g.parents|
  {
    hide IsRun, Unpublished;
    NodesInTree(g);
  }

  // ---------- One joining node is enough ----------

  predicate Leads(g: State, acts: seq<Act>, g': State) {
    IsRun(g, acts) && Final(g, acts) == g'
  }

  lemma OneMore(g: State, acts: seq<Act>, g': State, act: Act) returns (longer: seq<Act>, g'': State)
    requires Leads(g, acts, g') && Enabled(g', act)
    ensures g'' == Next(g', act) && Leads(g, longer, g'') && longer == acts + [act]
  {
    hide Enabled, Next;
    longer, g'' := acts + [act], Next(g', act);
    assert longer[..|longer| - 1] == acts;
  }

  lemma NoStep(g: State)
    ensures Leads(g, [], g)
  {}

  lemma LeadsThere(g: State, acts: seq<Act>, g': State)
    requires Leads(g, acts, g')
    ensures IsRun(g, acts) && Final(g, acts) == g'
  {}

  /** The publisher, about to broadcast, takes in a newcomer, up to having it on its peer list. */
  lemma JoinBeforeBroadcast(g: State, n: nat, def: TDef, acts: seq<Act>, s: State)
    returns (longer: seq<Act>, s': State)
    requires Leads(g, acts, s) && n < |s.table| == |s.peers| && Share(n, def, None) in s.tasks
    ensures var c := |s.table|;
            && longer == acts + [Connect(n)] + [Do(Accept(n, c))] && Leads(g, longer, s')
            && c in s'.peers[n] && List(n, c) in s'.tasks && Share(n, def, None) in s'.tasks
            && |s'.table| == |s'.peers| == c + 1 && s'.table[n] == s.table[n]
  {
    hide Leads;
    longer, s' := OneMore(g, acts, s, Connect(n));
    longer, s' := OneMore(g, longer, s', Do(Accept(n, |s.table|)));
  }

  lemma BroadcastPutsCopy(s: State, n: nat, c: nat, def: TDef)
    requires n < |s.table| == |s.peers| && c in s.peers[n] && Share(n, def, None) in s.tasks
    ensures Next(s, Do(Share(n, def, None))).flight[Msg(n, c, def)] == s.flight[Msg(n, c, def)] + 1
  {
    assert Msg(n, c, def) in Copies(n, s.peers[n], def, None);
  }

  lemma ListPutsCopy(s: State, n: nat, c: nat, def: TDef, defs: map<Digest, TDef>)
    requires n < |s.table| == |s.peers| && SendList(n, c, defs) in s.tasks
    requires def.fHash in defs && defs[def.fHash] == def
    ensures Next(s, Do(SendList(n, c, defs))).flight[Msg(n, c, def)] >= s.flight[Msg(n, c, def)] + 1
  {
    assert Msg(n, c, def) in Listed(n, c, defs);
  }

  /** Then the broadcast and the list put two copies on their way to the newcomer. */
  lemma TwoCopies(g: State, n: nat, c: nat, def: TDef, acts: seq<Act>, s: State)
    returns (longer: seq<Act>, s': State)
    requires Leads(g, acts, s) && n < |s.table| == |s.peers| && c in s.peers[n] && n != c < |s.table|
    requires List(n, c) in s.tasks && Share(n, def, None) in s.tasks
    requires def.fHash in s.table[n] && s.table[n][def.fHash] == def
    ensures longer == acts + [Do(Share(n, def, None))] + [Do(List(n, c))] + [Do(SendList(n, c, s.table[n]))]
    ensures Leads(g, longer, s') && s'.flight[Msg(n, c, def)] >= 2 && |s'.table| == |s.table|
  {
    hide Leads, Copies, Listed;
    var table := s.table[n];
    BroadcastPutsCopy(s, n, c, def);
    longer, s' := OneMore(g, acts, s, Do(Share(n, def, None)));
    longer, s' := OneMore(g, longer, s', Do(List(n, c)));
    assert SendList(n, c, table) in s'.tasks;
    ListPutsCopy(s', n, c, def, table);
    longer, s' := OneMore(g, longer, s', Do(SendList(n, c, table)));
  }

  /**
   In every settled network each new definition has a flood, with one node joining, in which that node hears
   of it a second time: it gets on the publisher's peer list before the broadcast, and is sent the list after
   the publication.
   */
  lemma NewcomerHearsTwice(g: State, n: nat, def: TDef) returns (acts: seq<Act>)
    requires Settled(g) && Enabled(g, Publish(n, def)) && Unpublished(g, def)
    ensures Flood(g, n, def, acts) && Joins(acts) == 1 && !DeliversNews(Next(g, Publish(n, def)), acts, def)
  {
    hide Leads, Settled, Unpublished, DeliversNews;
    var g1, c, m := Next(g, Publish(n, def)), |g.table|, Msg(n, |g.table|, def);
    NodesInTree(g);
    NoStep(g1);
    assert n < |g1.table| == |g1.peers| == c && Share(n, def, None) in g1.tasks;
    assert def.fHash in g1.table[n] && g1.table[n][def.fHash] == def;
    var s, table := g1, g1.table[n];
    acts, s := JoinBeforeBroadcast(g1, n, def, [], s);
    acts, s := TwoCopies(g1, n, c, def, acts, s);
    acts, s := OneMore(g1, acts, s, Receive(m));
    var before := acts;
    assert Known(s, c, def.fHash) && m in s.flight;
    var last;
    acts, last := OneMore(g1, before, s, Receive(m));
    assert acts == [Connect(n), Do(Accept(n, c)), Do(Share(n, def, None)), Do(List(n, c)), Do(SendList(n, c, table)),
                    Receive(m), Receive(m)];
    OneJoins(n, c, def, table);
    SecondHearing(g1, before, s, acts, last, def, m);
    LeadsThere(g1, acts, last);
  }

  lemma SecondHearing(g: State, before: seq<Act>, s: State, acts: seq<Act>, s': State, def: TDef, m: Msg)
    requires Leads(g, before, s) && acts == before + [Receive(m)] && m.def == def && Known(s, m.dst, def.fHash)
    ensures !DeliversNews(g, acts, def)
  {
    hide Known, IsRun, Final;
    LeadsThere(g, before, s);
    assert acts[..|before|] == before && acts[|before|] == Receive(m);
  }

  lemma OneJoins(n: nat, c: nat, def: TDef, table: map<Digest, TDef>)
    ensures var acts := [Connect(n), Do(Accept(n, c)), Do(Share(n, def, None)), Do(List(n, c)),
                         Do(SendList(n, c, table)), Receive(Msg(n, c, def)), Receive(Msg(n, c, def))];
            Joins(acts) == 1 && AllCalm(acts, def)
  {
    var acts := [Connect(n), Do(Accept(n, c)), Do(Share(n, def, None)), Do(List(n, c)),
                 Do(SendList(n, c, table)), Receive(Msg(n, c, def)), Receive(Msg(n, c, def))];
    assert acts[..6][..5] == acts[..5] && acts[..5][..4] == acts[..4] && acts[..4][..3] == acts[..3];
    assert acts[..3][..2] == acts[..2] && acts[..2][..1] == acts[..1] && acts[..1][..0] == [];
    assert Joins(acts[..1]) == 1;
    assert Joins(acts[..2]) == 1 && Joins(acts[..3]) == 1 && Joins(acts[..4]) == 1;
    assert Joins(acts[..5]) == 1 && Joins(acts[..6]) == 1;
  }

  /** Every delivery is news, in every flood with at most k nodes joining, exactly when k is zero. */
  lemma NewsIffNobodyJoins(g: State, n: nat, def: TDef, k: nat)
    requires Settled(g) && Enabled(g, Publish(n, def)) && Unpublished(g, def)
    ensures AlwaysNews(g, n, def, k) <==> k == 0
  {
    hide Flood, Joins, DeliversNews, Settled, Enabled, Next;
    if k == 0 {
      forall acts | Flood(g, n, def, acts) && Joins(acts) <= k
        ensures DeliversNews(Next(g, Publish(n, def)), acts, def)
      {
        WithoutJoinersNews(g, n, def, acts);
      }
    } else {
      var acts := NewcomerHearsTwice(g, n, def);
    }
  }

  // ---------- How often a newcomer hears ----------

  /** A newcomer, its host, and the definition. */
  datatype Case = Case(host: nat, child: nat, def: TDef)

  function Copy(x: Case): Msg {
    Msg(x.host, x.child, x.def)
  }

  predicate IsBroadcast(act: Act, x: Case) {
    act.Do? && act.task.Share? && act.task.node == x.host && act.task.def == x.def
  }

  /** What has happened between the two: kept along a run. */
  datatype History = History(accepted: bool, listed: bool, broadcast: bool,
                             acceptFirst: bool, storedFirst: bool, heard: nat)

  const NOTHING := History(false, false, false, false, false, 0)

  function After(h: History, s: State, act: Act, x: Case): History {
    History(h.accepted || act == Do(Accept(x.host, x.child)),
            h.listed || act == Do(List(x.host, x.child)),
            h.broadcast || IsBroadcast(act, x),
            h.acceptFirst || (IsBroadcast(act, x) && h.accepted),
            h.storedFirst || (act == Do(List(x.host, x.child)) && Known(s, x.host, x.def.fHash)),
            h.heard + if act == Receive(Copy(x)) then 1 else 0)
  }

  function HistoryOf(g: State, acts: seq<Act>, x: Case): History
    requires IsRun(g, acts)
  {
    if acts == [] then NOTHING
    else After(HistoryOf(g, acts[..|acts| - 1], x), Final(g, acts[..|acts| - 1]), acts[|acts| - 1], x)
  }

  // What the fields say of the run.

  /** The host takes the newcomer on its peer list before it broadcasts. */
  ghost predicate AcceptsBeforeBroadcast(acts: seq<Act>, x: Case) {
    exists i, j :: 0 <= i < j < |acts| && acts[i] == Do(Accept(x.host, x.child)) && IsBroadcast(acts[j], x)
  }

  /** The host has the definition when it makes the list for the newcomer. */
  ghost predicate ListsAfterStoring(g: State, acts: seq<Act>, x: Case) {
    exists j :: 0 <= j < |acts| && acts[j] == Do(List(x.host, x.child)) && KnownAt(g, acts, j, x)
  }

  ghost predicate KnownAt(g: State, acts: seq<Act>, j: nat, x: Case) {
    j <= |acts| && IsRun(g, acts[..j]) && Known(Final(g, acts[..j]), x.host, x.def.fHash)
  }

  function Heard(acts: seq<Act>, m: Msg): nat {
    if acts == [] then 0 else Heard(acts[..|acts| - 1], m) + if acts[|acts| - 1] == Receive(m) then 1 else 0
  }

  lemma {:induction false} HistoryMeans(g: State, acts: seq<Act>, x: Case)
    requires IsRun(g, acts)
    ensures var h := HistoryOf(g, acts, x);
            && (h.accepted <==> Do(Accept(x.host, x.child)) in acts)
            && (h.acceptFirst <==> AcceptsBeforeBroadcast(acts, x))
            && (h.storedFirst <==> ListsAfterStoring(g, acts, x))
            && h.heard == Heard(acts, Copy(x))
  {
    hide Enabled, Next, IsBroadcast, Known, KnownAt, AcceptsBeforeBroadcast, ListsAfterStoring;
    if acts == [] {
      NothingHappened(g, x);
    } else {
      var init, last := acts[..|acts| - 1], acts[|acts| - 1];
      HistoryMeans(g, init, x);
      assert acts == init + [last];
      BroadcastExtends(init, last, x);
      StoringExtends(g, init, last, x);
      KnownAtIs(g, acts, x);
    }
  }

  lemma NothingHappened(g: State, x: Case)
    ensures !AcceptsBeforeBroadcast([], x) && !ListsAfterStoring(g, [], x)
  {}

  lemma KnownAtIs(g: State, acts: seq<Act>, x: Case)
    requires acts != [] && IsRun(g, acts)
    ensures KnownAt(g, acts, |acts| - 1, x) <==> Known(Final(g, acts[..|acts| - 1]), x.host, x.def.fHash)
  {}

  lemma BroadcastExtends(init: seq<Act>, last: Act, x: Case)
    ensures AcceptsBeforeBroadcast(init + [last], x) <==>
            AcceptsBeforeBroadcast(init, x) || (IsBroadcast(last, x) && Do(Accept(x.host, x.child)) in init)
  {
    hide IsBroadcast;
    var acts := init + [last];
    if AcceptsBeforeBroadcast(init, x) {
      var i, j :| 0 <= i < j < |init| && init[i] == Do(Accept(x.host, x.child)) && IsBroadcast(init[j], x);
      assert acts[i] == init[i] && acts[j] == init[j];
    } else if IsBroadcast(last, x) && Do(Accept(x.host, x.child)) in init {
      var i :| 0 <= i < |init| && init[i] == Do(Accept(x.host, x.child));
      assert acts[i] == init[i] && acts[|init|] == last;
    }
  }

  lemma StoringExtends(g: State, init: seq<Act>, last: Act, x: Case)
    ensures ListsAfterStoring(g, init + [last], x) <==>
            || ListsAfterStoring(g, init, x)
            || (last == Do(List(x.host, x.child)) && KnownAt(g, init + [last], |init|, x))
  {
    var acts := init + [last];
    forall j | 0 <= j < |init| ensures KnownAt(g, acts, j, x) <==> KnownAt(g, init, j, x) {
      assert acts[..j] == init[..j];
    }
    if ListsAfterStoring(g, init, x) {
      var j :| 0 <= j < |init| && init[j] == Do(List(x.host, x.child)) && KnownAt(g, init, j, x);
      assert acts[j] == init[j] && KnownAt(g, acts, j, x);
    } else if last == Do(List(x.host, x.child)) && KnownAt(g, acts, |init|, x) {
      assert acts[|init|] == last;
    }
  }

  // ---------- The law, along a run ----------

  function One(b: bool): nat {
    if b then 1 else 0
  }

  /** Copies for the newcomer: delivered, or on their way. */
  function CopyCount(s: State, h: History, x: Case): nat {
    h.heard + s.flight[Copy(x)]
  }

  predicate IsSendList(task: Task, x: Case) {
    task.SendList? && task.host == x.host && task.child == x.child
  }

  ghost predicate NoSendList(s: State, x: Case) {
    forall task :: task in s.tasks ==> !IsSendList(task, x)
  }

  /** Before the newcomer connects. */
  ghost predicate NotYet(s: State, h: History, x: Case) {
    && x.child >= |s.parents| && !h.accepted && !h.listed && !h.acceptFirst && !h.storedFirst
    && CopyCount(s, h, x) == 0
  }

  /** Connected, not yet on the peer list. */
  ghost predicate Connected(s: State, h: History, x: Case)
    requires x.host < |s.peers|
  {
    && s.tasks[Accept(x.host, x.child)] == 1 && List(x.host, x.child) !in s.tasks && NoSendList(s, x)
    && x.child !in s.peers[x.host] && !h.accepted && !h.listed && !h.acceptFirst && !h.storedFirst
    && CopyCount(s, h, x) == 0
  }

  /** On the peer list, the list of files not yet made. */
  ghost predicate OnPeerList(s: State, h: History, x: Case)
    requires x.host < |s.peers|
  {
    && Accept(x.host, x.child) !in s.tasks && s.tasks[List(x.host, x.child)] == 1 && NoSendList(s, x)
    && x.child in s.peers[x.host] && h.accepted && !h.listed && !h.storedFirst
    && CopyCount(s, h, x) == One(h.acceptFirst)
  }

  ghost predicate OnlySendList(s: State, x: Case, defs: map<Digest, TDef>) {
    && s.tasks[SendList(x.host, x.child, defs)] == 1
    && forall task :: task in s.tasks && IsSendList(task, x) ==> task == SendList(x.host, x.child, defs)
  }

  /** The list made, not yet sent. */
  ghost predicate HasList(s: State, h: History, x: Case)
    requires x.host < |s.peers|
  {
    && Accept(x.host, x.child) !in s.tasks && List(x.host, x.child) !in s.tasks
    && (exists defs :: OnlySendList(s, x, defs) && (x.def.fHash in defs <==> h.storedFirst))
    && x.child in s.peers[x.host] && h.accepted && h.listed && (h.broadcast ==> h.acceptFirst || h.storedFirst)
    && CopyCount(s, h, x) == One(h.acceptFirst)
  }

  /** All done with the newcomer. */
  ghost predicate Served(s: State, h: History, x: Case)
    requires x.host < |s.peers|
  {
    && Accept(x.host, x.child) !in s.tasks && List(x.host, x.child) !in s.tasks && NoSendList(s, x)
    && x.child in s.peers[x.host] && h.accepted && h.listed && (h.broadcast ==> h.acceptFirst || h.storedFirst)
    && CopyCount(s, h, x) == One(h.acceptFirst) + One(h.storedFirst)
  }

  /** Where host and newcomer have got to. */
  ghost predicate Stage(s: State, h: History, x: Case)
    requires x.host < |s.peers|
  {
    || NotYet(s, h, x)
    || (x.child < |s.parents| && s.parents[x.child] == x.host
        && (Connected(s, h, x) || OnPeerList(s, h, x) || HasList(s, h, x) || Served(s, h, x)))
  }

  ghost predicate MayBroadcast(s: State, x: Case) {
    exists from :: Share(x.host, x.def, from) in s.tasks
  }

  /** The host broadcasts once, after it has come to know the definition. */
  ghost predicate BroadcastOk(s: State, h: History, x: Case) {
    && (h.acceptFirst ==> h.broadcast)
    && (h.broadcast ==> Known(s, x.host, x.def.fHash) && !MayBroadcast(s, x))
    && (Known(s, x.host, x.def.fHash) ==> h.broadcast || MayBroadcast(s, x))
  }

  /** What the wave says of an old node: it hears once, and has at most one broadcast to make. */
  ghost predicate HostOk(s: State, x: Case) {
    && (forall m :: m in s.flight && m.def == x.def && m.dst == x.host ==> !Known(s, x.host, x.def.fHash))
    && (forall from :: Share(x.host, x.def, from) in s.tasks ==>
          s.tasks[Share(x.host, x.def, from)] == 1 && Known(s, x.host, x.def.fHash))
    && (forall from, other :: Share(x.host, x.def, from) in s.tasks && Share(x.host, x.def, other) in s.tasks ==>
          from == other)
  }

  lemma WaveHostOk(t: Parents, s: State, w: Wave.State, n: nat, x: Case)
    requires Amid(s, t, x.def) && Shows(s, t, w, x.def) && Wave.Inv(t, w, n, {}) && x.host < |t|
    ensures HostOk(s, x)
  {
    hide Amid, Known, Adjacent, IsTree, Wave.Covered, Topped;
    forall m | m in s.flight && m.def == x.def && m.dst == x.host ensures !Known(s, x.host, x.def.fHash) {
      OldMessage(s, t, x.def, m);
      assert w.flight[(m.src, m.dst)] == s.flight[Msg(m.src, m.dst, x.def)];
      Wave.FlightAt(t, w, m.src, m.dst);
    }
    forall from | Share(x.host, x.def, from) in s.tasks
      ensures s.tasks[Share(x.host, x.def, from)] == 1 && Known(s, x.host, x.def.fHash)
    {
      assert w.tasks[Wave.Task(x.host, from)] == s.tasks[Share(x.host, x.def, from)];
      assert Wave.TaskOk(t, w, Wave.Task(x.host, from));
    }
    forall from, other | Share(x.host, x.def, from) in s.tasks && Share(x.host, x.def, other) in s.tasks
      ensures from == other
    {
      assert Wave.Task(x.host, from) in w.tasks && Wave.Task(x.host, other) in w.tasks;
    }
  }

  /** An old host, and where it has got to with the newcomer. */
  ghost predicate Situation(s: State, t: Parents, h: History, x: Case) {
    && Amid(s, t, x.def) && x.host < |t| <= x.child && |t| <= |s.peers| && HostOk(s, x)
    && Stage(s, h, x) && BroadcastOk(s, h, x)
  }

  /** The newcomer, if it is there, is below this host. */
  predicate Fits(s: State, x: Case) {
    x.child < |s.parents| ==> s.parents[x.child] == x.host
  }

  predicate BetweenThem(task: Task, x: Case) {
    task == Accept(x.host, x.child) || task == List(x.host, x.child) || IsSendList(task, x)
  }

  /** Nothing between host and newcomer is changed. */
  ghost predicate SameBetween(s: State, s': State, x: Case)
    requires x.host < |s.peers| && x.host < |s'.peers|
  {
    && (x.child < |s.parents| <==> x.child < |s'.parents|)
    && (x.child < |s.parents| ==> s'.parents[x.child] == s.parents[x.child])
    && (x.child in s'.peers[x.host] <==> x.child in s.peers[x.host])
    && forall task :: BetweenThem(task, x) ==> s'.tasks[task] == s.tasks[task]
  }

  lemma SameStage(s: State, s': State, h: History, h': History, x: Case)
    requires x.host < |s.peers| && x.host < |s'.peers| && SameBetween(s, s', x) && Stage(s, h, x)
    requires h'.(heard := 0) == h.(heard := 0) && CopyCount(s', h', x) == CopyCount(s, h, x)
    ensures Stage(s', h', x)
  {
    assert forall task :: BetweenThem(task, x) ==> (task in s'.tasks <==> task in s.tasks);
    if HasList(s, h, x) {
      var defs :| OnlySendList(s, x, defs) && (x.def.fHash in defs <==> h.storedFirst);
      assert BetweenThem(SendList(x.host, x.child, defs), x);
      assert OnlySendList(s', x, defs);
    } else if NotYet(s, h, x) {
      assert NotYet(s', h', x);
    } else if Connected(s, h, x) {
      assert NoSendList(s', x);
    } else if OnPeerList(s, h, x) {
      assert NoSendList(s', x);
    } else {
      assert NoSendList(s', x);
    }
  }

  lemma PublishKeepsSituation(s: State, t: Parents, h: History, x: Case, act: Act)
    requires Situation(s, t, h, x) && act.Publish? && Enabled(s, act) && Calm(act, x.def)
    ensures Stage(Next(s, act), After(h, s, act, x), x) && BroadcastOk(Next(s, act), After(h, s, act, x), x)
  {
    hide Amid, Stage, HostOk;
    var s', h' := Next(s, act), After(h, s, act, x);
    assert h' == h;
    SameStage(s, s', h, h', x);
    forall from ensures Share(x.host, x.def, from) in s'.tasks <==> Share(x.host, x.def, from) in s.tasks {}
    assert MayBroadcast(s', x) <==> MayBroadcast(s, x);
  }

  lemma ConnectKeepsSituation(s: State, t: Parents, h: History, x: Case, act: Act)
    requires Situation(s, t, h, x) && act.Connect? && Enabled(s, act) && Fits(Next(s, act), x)
    ensures Stage(Next(s, act), After(h, s, act, x), x) && BroadcastOk(Next(s, act), After(h, s, act, x), x)
  {
    hide Amid, HostOk, Stage;
    var s', h' := Next(s, act), After(h, s, act, x);
    assert h' == h;
    AmidParts(s, t, x.def);
    forall from ensures Share(x.host, x.def, from) in s'.tasks <==> Share(x.host, x.def, from) in s.tasks {}
    assert MayBroadcast(s', x) <==> MayBroadcast(s, x);
    if x.child == |s.parents| {
      NothingBetweenYet(s, t, x);
      NotYetStage(s, h, x);
      assert Connected(s', h', x);
      assert Stage(s', h', x) by { AStage(s', h', x); }
    } else {
      SameStage(s, s', h, h', x);
    }
  }

  lemma AStage(s: State, h: History, x: Case)
    requires x.host < |s.peers| && x.child < |s.parents| && s.parents[x.child] == x.host
    requires Connected(s, h, x) || OnPeerList(s, h, x) || HasList(s, h, x) || Served(s, h, x)
    ensures Stage(s, h, x)
  {}

  lemma NotYetStage(s: State, h: History, x: Case)
    requires x.host < |s.peers| && Stage(s, h, x) && x.child >= |s.parents|
    ensures NotYet(s, h, x)
  {}

  /** A node that is not there is on no list and no task is for it. */
  lemma NothingBetweenYet(s: State, t: Parents, x: Case)
    requires Amid(s, t, x.def) && x.host < |t| && x.child >= |s.parents|
    ensures x.host < |s.peers| && x.child !in s.peers[x.host]
    ensures forall task :: BetweenThem(task, x) ==> task !in s.tasks
  {
    hide TablesOk, SourcesOk, MsgOk, TaskOk, OnlyOne;
    forall task | BetweenThem(task, x) ensures task !in s.tasks {
      assert task in s.tasks ==> TaskDown(s, t, x.def, task);
    }
  }

  lemma ReceiveKeepsSituation(s: State, t: Parents, h: History, x: Case, m: Msg)
    requires Situation(s, t, h, x) && Enabled(s, Receive(m))
    ensures var act := Receive(m);
            Stage(Next(s, act), After(h, s, act, x), x) && BroadcastOk(Next(s, act), After(h, s, act, x), x)
  {
    hide Amid, Stage;
    var s', h' := Next(s, Receive(m)), After(h, s, Receive(m), x);
    assert CopyCount(s', h', x) == CopyCount(s, h, x);
    SameStage(s, s', h, h', x);
    OtherHash(s, t, x.def, m);
    if m.dst == x.host && m.def == x.def {
      assert Share(x.host, x.def, Some(m.src)) in s'.tasks;
    } else {
      assert Known(s', x.host, x.def.fHash) <==> Known(s, x.host, x.def.fHash);
      forall from ensures Share(x.host, x.def, from) in s'.tasks <==> Share(x.host, x.def, from) in s.tasks {}
      assert MayBroadcast(s', x) <==> MayBroadcast(s, x);
    }
  }

  lemma OtherHash(s: State, t: Parents, def: TDef, m: Msg)
    requires Amid(s, t, def) && m in s.flight
    ensures m.def == def || m.def.fHash != def.fHash
  {
    hide PeersOk, TablesOk, SourcesOk, TaskOk, MsgDown, TaskDown, Adjacent, IsTree;
    assert MsgOk(s, m);
  }

  /** The host's one broadcast reaches the newcomer if it is on the peer list. */
  lemma BroadcastKeepsSituation(s: State, t: Parents, h: History, x: Case, task: Task)
    requires Situation(s, t, h, x) && Enabled(s, Do(task)) && IsBroadcast(Do(task), x)
    ensures var act := Do(task);
            Stage(Next(s, act), After(h, s, act, x), x) && BroadcastOk(Next(s, act), After(h, s, act, x), x)
  {
    hide Amid, Copies, Listed, Known;
    var s', h' := Next(s, Do(task)), After(h, s, Do(task), x);
    assert MayBroadcast(s, x) by { assert Share(x.host, x.def, task.from) in s.tasks; }
    AmidParts(s, t, x.def);
    if x.child >= |s.parents| {
      NothingBetweenYet(s, t, x);
    }
    BroadcastCopies(s, t, x, task);
    assert forall other :: BetweenThem(other, x) ==> s'.tasks[other] == s.tasks[other];
    assert Known(s', x.host, x.def.fHash) <==> Known(s, x.host, x.def.fHash) by { SameTable(s, s', x); }
    BroadcastUsedUp(s, x, task);
    BroadcastStage(s, s', h, h', x);
  }

  lemma SameTable(s: State, s': State, x: Case)
    requires s'.table == s.table
    ensures Known(s', x.host, x.def.fHash) <==> Known(s, x.host, x.def.fHash)
  {}

  lemma BroadcastUsedUp(s: State, x: Case, task: Task)
    requires HostOk(s, x) && Enabled(s, Do(task)) && IsBroadcast(Do(task), x)
    ensures !MayBroadcast(Next(s, Do(task)), x)
  {
    hide Copies, Known;
  }

  lemma BroadcastCopies(s: State, t: Parents, x: Case, task: Task)
    requires Amid(s, t, x.def) && x.host < |t| <= x.child && x.host < |s.peers|
    requires Enabled(s, Do(task)) && IsBroadcast(Do(task), x)
    ensures Next(s, Do(task)).flight[Copy(x)] == s.flight[Copy(x)] + One(x.child in s.peers[x.host])
  {
    hide Sound, OnlyOne, MsgDown, Adjacent, IsTree;
    assert TaskDown(s, t, x.def, task);
    assert Copy(x) in Copies(task.node, s.peers[task.node], task.def, task.from) <==> x.child in s.peers[x.host];
  }

  lemma BroadcastStage(s: State, s': State, h: History, h': History, x: Case)
    requires x.host < |s.peers| && x.host < |s'.peers| && SameBetween(s, s', x) && Stage(s, h, x)
    requires !h.acceptFirst && h' == h.(broadcast := true, acceptFirst := h.accepted)
    requires x.child >= |s.parents| ==> x.child !in s.peers[x.host]
    requires s'.flight[Copy(x)] == s.flight[Copy(x)] + One(x.child in s.peers[x.host])
    ensures Stage(s', h', x)
  {
    assert forall task :: BetweenThem(task, x) ==> (task in s'.tasks <==> task in s.tasks);
    if HasList(s, h, x) {
      var defs :| OnlySendList(s, x, defs) && (x.def.fHash in defs <==> h.storedFirst);
      assert BetweenThem(SendList(x.host, x.child, defs), x);
      assert OnlySendList(s', x, defs);
    } else if NotYet(s, h, x) {
      assert NotYet(s', h', x);
    } else if Connected(s, h, x) {
      assert NoSendList(s', x);
    } else if OnPeerList(s, h, x) {
      assert NoSendList(s', x);
    } else {
      assert NoSendList(s', x);
    }
  }

  lemma OtherTaskKeepsSituation(s: State, t: Parents, h: History, x: Case, task: Task)
    requires Situation(s, t, h, x) && Enabled(s, Do(task)) && !IsBroadcast(Do(task), x) && !BetweenThem(task, x)
    ensures var act := Do(task);
            Stage(Next(s, act), After(h, s, act, x), x) && BroadcastOk(Next(s, act), After(h, s, act, x), x)
  {
    hide Amid, HostOk, Stage, Known, Next, MayBroadcast, SameBetween;
    var s', h' := Next(s, Do(task)), After(h, s, Do(task), x);
    assert h' == h;
    OtherTaskNoCopy(s, x, task);
    OtherTaskSame(s, x, task);
    SameStage(s, s', h, h', x);
  }

  lemma OtherTaskSame(s: State, x: Case, task: Task)
    requires x.host < |s.peers| && Enabled(s, Do(task)) && !IsBroadcast(Do(task), x) && !BetweenThem(task, x)
    ensures var s' := Next(s, Do(task));
            && x.host < |s'.peers| && SameBetween(s, s', x)
            && (Known(s', x.host, x.def.fHash) <==> Known(s, x.host, x.def.fHash))
            && (MayBroadcast(s', x) <==> MayBroadcast(s, x))
  {
    hide Copies, Listed, MayBroadcast;
    OtherTaskNoBroadcast(s, x, task);
  }

  lemma OtherTaskNoBroadcast(s: State, x: Case, task: Task)
    requires Enabled(s, Do(task)) && !IsBroadcast(Do(task), x)
    ensures MayBroadcast(Next(s, Do(task)), x) <==> MayBroadcast(s, x)
  {
    hide Copies, Listed;
    var s' := Next(s, Do(task));
    forall from ensures Share(x.host, x.def, from) in s'.tasks <==> Share(x.host, x.def, from) in s.tasks {}
  }

  lemma OtherTaskNoCopy(s: State, x: Case, task: Task)
    requires Enabled(s, Do(task)) && !IsBroadcast(Do(task), x) && !IsSendList(task, x)
    ensures Next(s, Do(task)).flight[Copy(x)] == s.flight[Copy(x)]
  {
    match task {
      case Share(n, d, from) => assert Copy(x) !in Copies(n, s.peers[n], d, from);
      case SendList(host, child, defs) => assert Copy(x) !in Listed(host, child, defs);
      case _ =>
    }
  }

  /** The broadcast is none of what happens between the two while the newcomer joins. */
  lemma JoiningKeepsBroadcast(s: State, h: History, x: Case, task: Task)
    requires x.host < |s.table| && BroadcastOk(s, h, x) && Enabled(s, Do(task)) && BetweenThem(task, x)
    ensures BroadcastOk(Next(s, Do(task)), After(h, s, Do(task), x), x)
    ensures MayBroadcast(Next(s, Do(task)), x) <==> MayBroadcast(s, x)
  {
    hide Copies, Listed;
    var s' := Next(s, Do(task));
    assert Known(s', x.host, x.def.fHash) <==> Known(s, x.host, x.def.fHash);
    forall from ensures Share(x.host, x.def, from) in s'.tasks <==> Share(x.host, x.def, from) in s.tasks {}
    assert MayBroadcast(s', x) <==> MayBroadcast(s, x);
  }

  lemma AcceptKeepsSituation(s: State, t: Parents, h: History, x: Case)
    requires Situation(s, t, h, x) && Enabled(s, Do(Accept(x.host, x.child)))
    ensures var act := Do(Accept(x.host, x.child));
            Stage(Next(s, act), After(h, s, act, x), x) && BroadcastOk(Next(s, act), After(h, s, act, x), x)
  {
    hide Amid, HostOk, BroadcastOk, Known;
    var act := Do(Accept(x.host, x.child));
    var s', h' := Next(s, act), After(h, s, act, x);
    JoiningKeepsBroadcast(s, h, x, Accept(x.host, x.child));
    if x.child >= |s.parents| {
      NothingBetweenYet(s, t, x);
    }
    assert Connected(s, h, x);
    assert OnPeerList(s', h', x);
  }

  lemma ListKeepsSituation(s: State, t: Parents, h: History, x: Case)
    requires Situation(s, t, h, x) && Enabled(s, Do(List(x.host, x.child)))
    ensures var act := Do(List(x.host, x.child));
            Stage(Next(s, act), After(h, s, act, x), x) && BroadcastOk(Next(s, act), After(h, s, act, x), x)
  {
    hide Amid, HostOk;
    var act := Do(List(x.host, x.child));
    var s', h' := Next(s, act), After(h, s, act, x);
    JoiningKeepsBroadcast(s, h, x, List(x.host, x.child));
    if x.child >= |s.parents| {
      NothingBetweenYet(s, t, x);
    }
    assert OnPeerList(s, h, x);
    assert OnlySendList(s', x, s.table[x.host]);
    assert HasList(s', h', x);
  }

  lemma SendListKeepsSituation(s: State, t: Parents, h: History, x: Case, task: Task)
    requires Situation(s, t, h, x) && Enabled(s, Do(task)) && IsSendList(task, x)
    ensures var act := Do(task);
            Stage(Next(s, act), After(h, s, act, x), x) && BroadcastOk(Next(s, act), After(h, s, act, x), x)
  {
    hide Amid, HostOk, BroadcastOk, Known, Listed;
    var s', h' := Next(s, Do(task)), After(h, s, Do(task), x);
    JoiningKeepsBroadcast(s, h, x, task);
    if x.child >= |s.parents| {
      NothingBetweenYet(s, t, x);
    }
    assert HasList(s, h, x);
    ListCopies(s, t, x, task);
    assert Served(s', h', x);
  }

  lemma ListCopies(s: State, t: Parents, x: Case, task: Task)
    requires Amid(s, t, x.def) && Enabled(s, Do(task)) && IsSendList(task, x)
    ensures Next(s, Do(task)).flight[Copy(x)] == s.flight[Copy(x)] + One(x.def.fHash in task.defs)
  {
    hide PeersOk, TablesOk, SourcesOk, MsgOk, MsgDown, TaskDown, Adjacent, IsTree;
    assert TaskOk(s, task);
    var defs := task.defs;
    if x.def.fHash in defs {
      assert IsPublished(s, defs[x.def.fHash], x.def.fHash);
      assert Copy(x) in Listed(x.host, x.child, defs);
    } else {
      forall d | d in defs ensures defs[d] != x.def {
        assert IsPublished(s, defs[d], d);
      }
      assert Copy(x) !in Listed(x.host, x.child, defs);
    }
  }

  lemma NextKeepsSituation(s: State, t: Parents, h: History, x: Case, act: Act)
    requires Situation(s, t, h, x) && Enabled(s, act) && Calm(act, x.def) && Fits(Next(s, act), x)
    requires HostOk(Next(s, act), x)
    ensures Situation(Next(s, act), t, After(h, s, act, x), x)
  {
    hide Stage, BroadcastOk, HostOk, Next, Enabled, Amid, After, Known;
    StaysAmid(s, t, x.def, act);
    AmidParts(Next(s, act), t, x.def);
    match act {
      case Publish(_, _) => PublishKeepsSituation(s, t, h, x, act);
      case Connect(_) => ConnectKeepsSituation(s, t, h, x, act);
      case Receive(m) => ReceiveKeepsSituation(s, t, h, x, m);
      case Do(task) =>
        if IsBroadcast(act, x) {
          BroadcastKeepsSituation(s, t, h, x, task);
        } else if !BetweenThem(task, x) {
          OtherTaskKeepsSituation(s, t, h, x, task);
        } else if task.Accept? {
          AcceptKeepsSituation(s, t, h, x);
        } else if task.List? {
          ListKeepsSituation(s, t, h, x);
        } else {
          SendListKeepsSituation(s, t, h, x, task);
        }
    }
  }

  lemma {:induction false} RunKeepsSituation(g: State, n: nat, acts: seq<Act>, x: Case)
    requires Flood(g, n, x.def, acts) && x.host < |g.parents| <= x.child && Fits(End(g, n, x.def, acts), x)
    ensures Situation(End(g, n, x.def, acts), g.parents, HistoryOf(Next(g, Publish(n, x.def)), acts, x), x)
  {
    hide Situation, Next, Enabled, Settled, Unpublished, After;
    var g1 := Next(g, Publish(n, x.def));
    FloodHostOk(g, n, acts, x);
    if acts == [] {
      SituationAtFirst(g, n, x);
    } else {
      var init, last := acts[..|acts| - 1], acts[|acts| - 1];
      PrefixFlood(g, n, x.def, acts, |init|);
      PeersInOrder(Final(g1, init), last, x);
      RunKeepsSituation(g, n, init, x);
      assert Calm(last, x.def);
      NextKeepsSituation(Final(g1, init), g.parents, HistoryOf(g1, init, x), x, last);
    }
  }

  lemma PeersInOrder(s: State, act: Act, x: Case)
    requires Enabled(s, act) && Fits(Next(s, act), x)
    ensures Fits(s, x)
  {
    hide Copies, Listed, Gossip.Store;
  }

  lemma FloodHostOk(g: State, n: nat, acts: seq<Act>, x: Case)
    requires Flood(g, n, x.def, acts) && x.host < |g.parents|
    ensures HostOk(End(g, n, x.def, acts), x)
  {
    hide Flood, HostOk, Amid, Shows, IsRun, Final, Wave.IsRun, Wave.Final, Wave.Inv, Next, Enabled, End, IsTree;
    FloodRuns(g, n, x.def, acts);
    var wacts := FloodIsWave(g, n, x.def, acts);
    Wave.RunKeepsInv(g.parents, n, {}, wacts);
    WaveHostOk(g.parents, End(g, n, x.def, acts), Wave.Final(g.parents, Wave.Start(n, {}), wacts), n, x);
  }

  lemma SituationAtFirst(g: State, n: nat, x: Case)
    requires Settled(g) && Enabled(g, Publish(n, x.def)) && Unpublished(g, x.def)
    requires x.host < |g.parents| <= x.child && HostOk(Next(g, Publish(n, x.def)), x)
    ensures Situation(Next(g, Publish(n, x.def)), g.parents, NOTHING, x)
  {
    hide Settled, Unpublished, HostOk, Amid;
    NodesInTree(g);
    NewHashUnseen(g, x.def);
    PublishIsAmid(g, n, x.def);
    var g1 := Next(g, Publish(n, x.def));
    assert Copy(x) !in g1.flight;
    assert NotYet(g1, NOTHING, x);
    assert Known(g1, x.host, x.def.fHash) ==> x.host == n by {
      assert !Known(g, x.host, x.def.fHash);
    }
    assert Share(n, x.def, None) in g1.tasks;
    forall from ensures Share(x.host, x.def, from) in g1.tasks ==> x.host == n {}
  }

  /** Nothing is left between host and newcomer, or to be said about def among the nodes there before. */
  ghost predicate Settles(s: State, x: Case, old': nat) {
    && QuietAmong(s, x.def, old') && Copy(x) !in s.flight
    && forall task :: BetweenThem(task, x) ==> task !in s.tasks
  }

  /**
   Whoever joins below a node of a settled network while a definition floods it hears of it from that node
   once or twice: twice exactly when the host took it on its peer list before its broadcast and made the list
   of files for it after it had the definition.
   */
  lemma HearsTwiceIff(g: State, n: nat, acts: seq<Act>, x: Case)
    requires Flood(g, n, x.def, acts) && x.host < |g.parents| <= x.child
    requires var end := End(g, n, x.def, acts);
             x.child < |end.parents| && end.parents[x.child] == x.host && Settles(end, x, |g.parents|)
    ensures 1 <= Heard(acts, Copy(x)) <= 2
    ensures Heard(acts, Copy(x)) == 2 <==>
            AcceptsBeforeBroadcast(acts, x) && ListsAfterStoring(Next(g, Publish(n, x.def)), acts, x)
  {
    hide Flood, HostOk, Amid, IsRun, Final, Next, Enabled, End, Known, HistoryOf, AcceptsBeforeBroadcast,
         ListsAfterStoring, Heard;
    FloodRuns(g, n, x.def, acts);
    var g1, end := Next(g, Publish(n, x.def)), End(g, n, x.def, acts);
    RunKeepsSituation(g, n, acts, x);
    EachFloodIsExact(g, n, x.def, acts);
    HistoryMeans(g1, acts, x);
    var h := HistoryOf(g1, acts, x);
    NothingLeft(end, x, |g.parents|);
    ServedAtLast(end, h, x);
  }

  lemma NothingLeft(s: State, x: Case, old': nat)
    requires Settles(s, x, old') && x.host < old'
    ensures !MayBroadcast(s, x) && s.flight[Copy(x)] == 0
    ensures Accept(x.host, x.child) !in s.tasks && List(x.host, x.child) !in s.tasks && NoSendList(s, x)
  {}

  lemma ServedAtLast(s: State, h: History, x: Case)
    requires x.host < |s.peers| && Stage(s, h, x) && x.child < |s.parents| && BroadcastOk(s, h, x)
    requires !MayBroadcast(s, x) && s.flight[Copy(x)] == 0 && Known(s, x.host, x.def.fHash)
    requires Accept(x.host, x.child) !in s.tasks && List(x.host, x.child) !in s.tasks && NoSendList(s, x)
    ensures h.heard == One(h.acceptFirst) + One(h.storedFirst) >= 1
  {
    hide Known;
    forall defs ensures !OnlySendList(s, x, defs) {
      assert IsSendList(SendList(x.host, x.child, defs), x);
    }
  }
}
