/**
 One message spreading over the tree of peers: a definition being flooded (src/client.c:179-219,
 469-486) or a chunk request being relayed (src/client.c:488-529). A node that receives it from a peer
 passes it on to every other peer, except that a node that holds the requested chunk replies instead.
 A request is passed on as a definition is, to all peers but the one it came from; RelayAsWritten shows
 what the request branch does as it stands. Messages arrive in any order.
 */
module Wave {
  import opened Bytes
  import opened Tree
  import opened Sets

  /** A node about to pass the message on, and the peer it came from (None at the origin). */
  datatype Task = Task(node: nat, from: Option<nat>)

  datatype State = State(reached: set<nat>, holders: set<nat>, replied: set<nat>,
                         flight: multiset<(nat, nat)>, tasks: multiset<Task>)

  /** A delivery, a node passing the message on, or a node coming to hold the chunk. */
  datatype Act = Receive(src: nat, dst: nat) | Spread(task: Task) | Acquire(node: nat)

  function Start(origin: nat, holders: set<nat>): State {
    State({origin}, holders, {}, multiset{}, multiset{Task(origin, None)})
  }

  predicate Enabled(w: State, act: Act) {
    match act
    case Receive(a, b) => (a, b) in w.flight
    case Spread(task) => task in w.tasks
    case Acquire(_) => true
  }

  function Targets(t: Parents, task: Task): set<(nat, nat)> {
    set b: nat | b < |t| && Adjacent(t, task.node, b) && Some(b) != task.from :: (task.node, b)
  }

  function Next(t: Parents, w: State, act: Act): State
    requires Enabled(w, act)
  {
    match act
    case Receive(a, b) =>
      var w' := w.(flight := w.flight - multiset{(a, b)}, reached := w.reached + {b});
      if b in w.holders then w'.(replied := w.replied + {b})
      else w'.(tasks := w.tasks + multiset{Task(b, Some(a))})
    case Spread(task) =>
      w.(tasks := w.tasks - multiset{task}, flight := w.flight + multiset(Targets(t, task)))
    case Acquire(b) => w.(holders := w.holders + {b})
  }

  predicate IsRun(t: Parents, w: State, acts: seq<Act>)
    decreases |acts|, 0
  {
    acts == [] ||
    (IsRun(t, w, acts[..|acts| - 1]) && Enabled(Final(t, w, acts[..|acts| - 1]), acts[|acts| - 1]))
  }

  function Final(t: Parents, w: State, acts: seq<Act>): State
    requires IsRun(t, w, acts)
    decreases |acts|, 1
  {
    if acts == [] then w else Next(t, Final(t, w, acts[..|acts| - 1]), acts[|acts| - 1])
  }

  function Deliveries(acts: seq<Act>): nat {
    if acts == [] then 0 else Deliveries(acts[..|acts| - 1]) + if acts[|acts| - 1].Receive? then 1 else 0
  }

  /** Deliveries and onward sends; a node coming to hold the chunk is not the protocol's doing. */
  function Work(acts: seq<Act>): nat {
    if acts == [] then 0 else Work(acts[..|acts| - 1]) + if acts[|acts| - 1].Acquire? then 0 else 1
  }

  predicate Quiet(w: State) {
    w.flight == multiset{} && w.tasks == multiset{}
  }

  // ---------- The invariant ----------

  predicate HasTask(w: State, a: nat) {
    exists task :: task in w.tasks && task.node == a
  }

  /** Each message in flight crosses the edge of the reached set, once. */
  ghost predicate FlightOk(t: Parents, w: State) {
    forall m :: m in w.flight ==>
      Adjacent(t, m.0, m.1) && m.0 in w.reached && m.1 !in w.reached && w.flight[m] == 1
  }

  /** A node about to pass the message on has sent nothing, and none it would send to is reached. */
  ghost predicate TaskOk(t: Parents, w: State, task: Task) {
    && w.tasks[task] == 1 && task.node in w.reached
    && (task.from.Some? ==> task.from.value in w.reached)
    && (forall b: nat :: Adjacent(t, task.node, b) ==> (task.node, b) !in w.flight)
    && (forall b: nat :: Adjacent(t, task.node, b) && Some(b) != task.from ==> b !in w.reached)
  }

  ghost predicate TasksOk(t: Parents, w: State) {
    && (forall task :: task in w.tasks ==> TaskOk(t, w, task))
    && (forall x, y :: x in w.tasks && y in w.tasks && x.node == y.node ==> x == y)
  }

  /** Wherever the wave can still go, it is on its way, unless a reply stopped it there. */
  ghost predicate Covered(t: Parents, w: State) {
    forall a, b :: a in w.reached && Adjacent(t, a, b) && b !in w.reached ==>
      (a, b) in w.flight || HasTask(w, a) || a in w.replied
  }

  /** A way on which nobody held the chunk, its ends aside. */
  ghost predicate Clear(t: Parents, walk: seq<nat>, origin: nat, held: set<nat>, z: nat) {
    Leads(t, walk, origin, z) && forall k :: 0 < k < |walk| - 1 ==> walk[k] !in held
  }

  ghost predicate Reachable(t: Parents, origin: nat, held: set<nat>, z: nat) {
    exists walk :: Clear(t, walk, origin, held, z)
  }

  /** A holder stops it: none of those that held the chunk from the start sends it on or is about to. */
  ghost predicate Stopped(t: Parents, w: State, origin: nat, held: set<nat>) {
    && (forall m :: m in w.flight ==> m.0 == origin || m.0 !in held)
    && (forall task :: task in w.tasks ==> task.node == origin || task.node !in held)
    && (forall z :: z in w.reached ==> Reachable(t, origin, held, z))
  }

  ghost predicate Inv(t: Parents, w: State, origin: nat, held: set<nat>) {
    && IsTree(t) && Stopped(t, w, origin, held)
    && (exists top :: Topped(t, w.reached, top))
    && FlightOk(t, w) && TasksOk(t, w) && Covered(t, w)
    && origin in w.reached && w.replied <= w.reached * w.holders - {origin}
    && held <= w.holders && w.reached * held - {origin} <= w.replied
  }

  lemma StartInv(t: Parents, origin: nat, holders: set<nat>)
    requires IsTree(t) && origin < |t|
    ensures Inv(t, Start(origin, holders), origin, holders)
  {
    var w := Start(origin, holders);
    assert Clear(t, [origin], origin, holders, origin);
    assert Topped(t, w.reached, origin);
    assert Task(origin, None) in w.tasks;
  }

  /** A delivery keeps the invariant and always reaches a new node. */
  lemma ReceiveKeepsInv(t: Parents, w: State, origin: nat, held: set<nat>, a: nat, b: nat)
    requires Inv(t, w, origin, held) && (a, b) in w.flight
    ensures b !in w.reached && b < |t|
    ensures Inv(t, Next(t, w, Receive(a, b)), origin, held)
  {
    hide TasksOk, Covered, FlightOk, Adjacent, IsTree, Stopped;
    ReceiveKeepsStopped(t, w, origin, held, a, b);
    FlightAt(t, w, a, b);
    var top :| Topped(t, w.reached, top);
    var newTop := Grow(t, w.reached, top, a, b);
    ReceiveKeepsFlight(t, w, top, a, b);
    ReceiveKeepsTasks(t, w, top, a, b);
    ReceiveKeepsCovered(t, w, a, b);
  }

  lemma ReceiveKeepsStopped(t: Parents, w: State, origin: nat, held: set<nat>, a: nat, b: nat)
    requires FlightOk(t, w) && Stopped(t, w, origin, held) && held <= w.holders && (a, b) in w.flight
    ensures Stopped(t, Next(t, w, Receive(a, b)), origin, held)
  {
    hide Adjacent, Clear, Reachable;
    assert Adjacent(t, a, b) && Reachable(t, origin, held, a);
    OneFarther(t, origin, held, a, b);
  }

  /** A way to a node that passes the message on goes on to its neighbours. */
  lemma OneFarther(t: Parents, origin: nat, held: set<nat>, a: nat, b: nat)
    requires Reachable(t, origin, held, a) && Adjacent(t, a, b) && (a == origin || a !in held)
    ensures Reachable(t, origin, held, b)
  {
    if a == origin {
      assert Clear(t, [a, b], origin, held, b);
    } else {
      var walk :| Clear(t, walk, origin, held, a);
      assert Clear(t, walk + [b], origin, held, b);
    }
  }

  lemma FlightAt(t: Parents, w: State, a: nat, b: nat)
    requires FlightOk(t, w) && (a, b) in w.flight
    ensures Adjacent(t, a, b) && a in w.reached && b !in w.reached && b < |t|
  {}

  lemma ReceiveKeepsFlight(t: Parents, w: State, top: nat, a: nat, b: nat)
    requires IsTree(t) && Topped(t, w.reached, top) && FlightOk(t, w) && (a, b) in w.flight
    ensures FlightOk(t, Next(t, w, Receive(a, b)))
  {
    hide Adjacent, IsTree;
    forall x | x in w.reached && Adjacent(t, x, b) ensures x == a {
      OneWayIn(t, w.reached, top, b, x, a);
    }
  }

  lemma ReceiveKeepsCovered(t: Parents, w: State, a: nat, b: nat)
    requires Covered(t, w) && (a, b) in w.flight
    ensures Covered(t, Next(t, w, Receive(a, b)))
  {
    hide Adjacent;
    var w' := Next(t, w, Receive(a, b));
    forall x, y | x in w'.reached && Adjacent(t, x, y) && y !in w'.reached
      ensures (x, y) in w'.flight || HasTask(w', x) || x in w'.replied
    {
      if x == b {
        assert b in w.holders || Task(b, Some(a)) in w'.tasks;
      } else if HasTask(w, x) {
        var task :| task in w.tasks && task.node == x;
        assert task in w'.tasks;
      }
    }
  }

  lemma ReceiveKeepsTasks(t: Parents, w: State, top: nat, a: nat, b: nat)
    requires IsTree(t) && Topped(t, w.reached, top) && FlightOk(t, w) && TasksOk(t, w) && (a, b) in w.flight
    ensures TasksOk(t, Next(t, w, Receive(a, b)))
  {
    var w' := Next(t, w, Receive(a, b));
    forall x | x in w.reached && Adjacent(t, x, b) ensures x == a {
      OneWayIn(t, w.reached, top, b, x, a);
    }
    forall task | task in w'.tasks ensures TaskOk(t, w', task) {
      if task in w.tasks {
        assert task.node != b;
        assert TaskOk(t, w, task);
        assert task.node != a;
      } else {
        assert task == Task(b, Some(a));
        forall y | Adjacent(t, b, y) && y != a ensures y !in w'.reached {
          assert Adjacent(t, y, b);
        }
      }
    }
  }

  lemma SpreadKeepsFlight(t: Parents, w: State, task: Task)
    requires FlightOk(t, w) && task in w.tasks && TaskOk(t, w, task)
    ensures FlightOk(t, Next(t, w, Spread(task)))
  {
    var w' := Next(t, w, Spread(task));
    forall m | m in w'.flight
      ensures Adjacent(t, m.0, m.1) && m.0 in w.reached && m.1 !in w.reached && w'.flight[m] == 1
    {
      if m in Targets(t, task) {
        assert m !in w.flight;
      } else {
        assert m in w.flight;
      }
    }
  }

  lemma SpreadKeepsTasks(t: Parents, w: State, task: Task)
    requires TasksOk(t, w) && task in w.tasks
    ensures TasksOk(t, Next(t, w, Spread(task)))
  {
    hide Adjacent;
    var w' := Next(t, w, Spread(task));
    forall other | other in w'.tasks ensures TaskOk(t, w', other) {
      assert TaskOk(t, w, task) && other in w.tasks && TaskOk(t, w, other);
      assert other != task;
    }
  }

  lemma SpreadKeepsCovered(t: Parents, w: State, task: Task)
    requires Covered(t, w) && task in w.tasks && TaskOk(t, w, task)
    ensures Covered(t, Next(t, w, Spread(task)))
  {
    var w' := Next(t, w, Spread(task));
    forall x, y | x in w'.reached && Adjacent(t, x, y) && y !in w'.reached
      ensures (x, y) in w'.flight || HasTask(w', x) || x in w'.replied
    {
      if x == task.node {
        assert (x, y) in Targets(t, task);
      } else if HasTask(w, x) {
        var other :| other in w.tasks && other.node == x;
        assert other in w'.tasks;
      }
    }
  }

  lemma SpreadKeepsStopped(t: Parents, w: State, origin: nat, held: set<nat>, task: Task)
    requires Stopped(t, w, origin, held) && task in w.tasks
    ensures Stopped(t, Next(t, w, Spread(task)), origin, held)
  {
    hide Reachable, Adjacent;
  }

  /** Passing the message on keeps the invariant. */
  lemma SpreadKeepsInv(t: Parents, w: State, origin: nat, held: set<nat>, task: Task)
    requires Inv(t, w, origin, held) && task in w.tasks
    ensures Inv(t, Next(t, w, Spread(task)), origin, held)
  {
    hide IsTree, Topped, FlightOk, Covered, TaskOk, Targets, Stopped;
    var w' := Next(t, w, Spread(task));
    SpreadKeepsStopped(t, w, origin, held, task);
    assert w'.reached == w.reached;
    SpreadKeepsFlight(t, w, task);
    SpreadKeepsTasks(t, w, task);
    SpreadKeepsCovered(t, w, task);
  }

  /** A wave that is not at rest can go on. */
  lemma NotQuietGoesOn(w: State)
    ensures !Quiet(w) ==> exists act: Act :: !act.Acquire? && Enabled(w, act)
  {
    if w.flight != multiset{} {
      var m :| m in w.flight;
      assert Enabled(w, Receive(m.0, m.1));
    } else if w.tasks != multiset{} {
      var task :| task in w.tasks;
      assert Enabled(w, Spread(task));
    }
  }

  lemma ActKeepsInv(t: Parents, w: State, origin: nat, held: set<nat>, act: Act)
    requires Inv(t, w, origin, held) && Enabled(w, act)
    ensures Inv(t, Next(t, w, act), origin, held)
  {
    hide Inv;
    match act {
      case Receive(a, b) => ReceiveKeepsInv(t, w, origin, held, a, b);
      case Spread(task) => SpreadKeepsInv(t, w, origin, held, task);
      case Acquire(b) => AcquireKeepsInv(t, w, origin, held, b);
    }
  }

  lemma AcquireKeepsInv(t: Parents, w: State, origin: nat, held: set<nat>, b: nat)
    requires Inv(t, w, origin, held)
    ensures Inv(t, Next(t, w, Acquire(b)), origin, held)
  {
    hide Inv;
    MoreHoldersKeepInv(t, w, origin, held, w.holders + {b});
  }

  /** Nodes coming to hold the chunk change nothing about where the wave is. */
  lemma MoreHoldersKeepInv(t: Parents, w: State, origin: nat, held: set<nat>, holders: set<nat>)
    requires Inv(t, w, origin, held) && w.holders <= holders
    ensures Inv(t, w.(holders := holders), origin, held)
  {
    hide IsTree, Topped, Adjacent, FlightOk, TasksOk, Covered;
    var w' := w.(holders := holders);
    SameFlightOk(t, w, w');
    SameTasksOk(t, w, w');
    SameCovered(t, w, w');
  }

  lemma SameFlightOk(t: Parents, w: State, w': State)
    requires FlightOk(t, w) && w'.reached == w.reached && w'.flight == w.flight
    ensures FlightOk(t, w')
  {
    hide Adjacent;
  }

  lemma SameTasksOk(t: Parents, w: State, w': State)
    requires TasksOk(t, w) && w'.reached == w.reached && w'.flight == w.flight && w'.tasks == w.tasks
    ensures TasksOk(t, w')
  {
    hide Adjacent;
    forall task | task in w'.tasks ensures TaskOk(t, w', task) {
      assert TaskOk(t, w, task);
    }
  }

  lemma SameCovered(t: Parents, w: State, w': State)
    requires Covered(t, w) && w'.reached == w.reached && w'.flight == w.flight && w'.tasks == w.tasks
    requires w'.replied == w.replied
    ensures Covered(t, w')
  {
    hide Adjacent;
    forall a ensures HasTask(w, a) ==> HasTask(w', a) {}
  }

  // ---------- Runs ----------

  /** How much the wave can still do: every unreached node, and every pending onward send. */
  function Potential(t: Parents, w: State): int {
    2 * (|t| - |w.reached|) + |w.tasks|
  }

  /** A delivery reaches one more node, and all the protocol's doing uses up potential. */
  lemma StepUsesPotential(t: Parents, w: State, origin: nat, held: set<nat>, act: Act)
    requires Inv(t, w, origin, held) && Enabled(w, act)
    ensures |Next(t, w, act).reached| == |w.reached| + if act.Receive? then 1 else 0
    ensures Potential(t, Next(t, w, act)) + (if act.Acquire? then 0 else 1) <= Potential(t, w)
  {
    hide Inv, Targets;
    if act.Receive? {
      ReceiveKeepsInv(t, w, origin, held, act.src, act.dst);
    }
  }

  lemma {:induction false} RunKeepsInv(t: Parents, origin: nat, holders: set<nat>, acts: seq<Act>)
    requires IsTree(t) && origin < |t| && IsRun(t, Start(origin, holders), acts)
    ensures var w := Final(t, Start(origin, holders), acts);
            && Inv(t, w, origin, holders)
            && |w.reached| == Deliveries(acts) + 1
            && Work(acts) + Potential(t, w) <= 2 * |t| - 1
  {
    hide Inv, Next, Enabled, IsTree;
    if acts == [] {
      StartInv(t, origin, holders);
    } else {
      hide Potential;
      var init, act := acts[..|acts| - 1], acts[|acts| - 1];
      RunKeepsInv(t, origin, holders, init);
      var w := Final(t, Start(origin, holders), init);
      ActKeepsInv(t, w, origin, holders, act);
      StepUsesPotential(t, w, origin, holders, act);
    }
  }

  lemma ReachedInTree(t: Parents, w: State, origin: nat, held: set<nat>)
    requires Inv(t, w, origin, held)
    ensures w.reached <= Nodes(t) && |w.reached| <= |t|
  {
    hide FlightOk, TasksOk, Covered, IsTree;
    var top :| Topped(t, w.reached, top);
    SubsetSize(w.reached, Nodes(t));
  }

  /** Every run is finite, and each delivery in it is the first at its node. */
  lemma WaveStops(t: Parents, origin: nat, holders: set<nat>, acts: seq<Act>)
    requires IsTree(t) && origin < |t| && IsRun(t, Start(origin, holders), acts)
    ensures Work(acts) <= 2 * |t| - 1 && Deliveries(acts) <= |t| - 1
    ensures forall a, b :: Enabled(Final(t, Start(origin, holders), acts), Receive(a, b)) ==>
              b !in Final(t, Start(origin, holders), acts).reached
  {
    hide Inv;
    var w := Final(t, Start(origin, holders), acts);
    RunKeepsInv(t, origin, holders, acts);
    ReachedInTree(t, w, origin, holders);
    forall a, b | Enabled(w, Receive(a, b)) ensures b !in w.reached {
      ReceiveKeepsInv(t, w, origin, holders, a, b);
    }
  }

  /** A wave that has come to rest without a reply has reached the whole tree. */
  lemma QuietWithoutReply(t: Parents, w: State, origin: nat, held: set<nat>)
    requires Inv(t, w, origin, held) && Quiet(w) && w.replied == {}
    ensures w.reached == Nodes(t)
  {
    hide FlightOk, TasksOk, Adjacent, Topped, IsTree;
    ReachedInTree(t, w, origin, held);
    forall a, b | a in w.reached && Adjacent(t, a, b) ensures b in w.reached {
      assert !HasTask(w, a);
    }
    ClosedIsEverything(t, w.reached, origin);
  }

  lemma {:induction false} NobodyReplies(t: Parents, origin: nat, acts: seq<Act>)
    requires IsRun(t, Start(origin, {}), acts) && forall k :: 0 <= k < |acts| ==> !acts[k].Acquire?
    ensures Final(t, Start(origin, {}), acts).replied == {}
    ensures Final(t, Start(origin, {}), acts).holders == {}
  {
    if acts != [] {
      NobodyReplies(t, origin, acts[..|acts| - 1]);
    }
  }

  lemma StepHolds(t: Parents, w: State, act: Act, b: nat)
    requires Enabled(w, act)
    ensures b in Next(t, w, act).holders <==> b in w.holders || act == Acquire(b)
    ensures b in Next(t, w, act).replied <==>
            b in w.replied || (act.Receive? && act.dst == b && b in w.holders)
  {}

  /** The holders are those from the start and the nodes that came to hold the chunk. */
  lemma {:induction false} HoldersOfRun(t: Parents, w: State, acts: seq<Act>, b: nat)
    requires IsRun(t, w, acts)
    ensures b in Final(t, w, acts).holders <==> b in w.holders || Acquire(b) in acts
  {
    hide Next, Enabled;
    if acts != [] {
      var init, act := acts[..|acts| - 1], acts[|acts| - 1];
      HoldersOfRun(t, w, init, b);
      StepHolds(t, Final(t, w, init), act, b);
      assert acts == init + [act];
    }
  }

  /** Operation k is a delivery at b, which held the chunk from the start or came to before it. */
  predicate MeetsHolder(w: State, acts: seq<Act>, b: nat, k: nat)
    requires k < |acts|
  {
    acts[k].Receive? && acts[k].dst == b && (b in w.holders || Acquire(b) in acts[..k])
  }

  /** A node answers exactly if the request is delivered to it while it holds the chunk. */
  lemma {:induction false} AnswersIffMet(t: Parents, w: State, acts: seq<Act>, b: nat)
    requires IsRun(t, w, acts) && b !in w.replied
    ensures b in Final(t, w, acts).replied <==> exists k :: 0 <= k < |acts| && MeetsHolder(w, acts, b, k)
  {
    hide Next, Enabled;
    if acts != [] {
      var n := |acts| - 1;
      var init, act := acts[..n], acts[n];
      AnswersIffMet(t, w, init, b);
      HoldersOfRun(t, w, init, b);
      StepHolds(t, Final(t, w, init), act, b);
      assert MeetsHolder(w, acts, b, n) <==> act.Receive? && act.dst == b && b in Final(t, w, init).holders;
      forall k | 0 <= k < n ensures MeetsHolder(w, init, b, k) <==> MeetsHolder(w, acts, b, k) {
        assert acts[..k] == init[..k];
      }
    }
  }

  /**
   Flooding: in every delivery order a definition published in a tree of N peers comes to rest after
   exactly N - 1 deliveries, and then every node has it.
   */
  lemma FloodReachesAllOnce(t: Parents, origin: nat, acts: seq<Act>)
    requires IsTree(t) && origin < |t| && IsRun(t, Start(origin, {}), acts)
    requires forall k :: 0 <= k < |acts| ==> !acts[k].Acquire?
    requires Quiet(Final(t, Start(origin, {}), acts))
    ensures Final(t, Start(origin, {}), acts).reached == Nodes(t)
    ensures Deliveries(acts) == |t| - 1
  {
    hide Inv, Quiet;
    RunKeepsInv(t, origin, {}, acts);
    NobodyReplies(t, origin, acts);
    QuietWithoutReply(t, Final(t, Start(origin, {}), acts), origin, {});
  }

  /** A request at rest that some other node could answer from the start has been answered. */
  lemma QuietIsAnswered(t: Parents, w: State, origin: nat, held: set<nat>)
    requires Inv(t, w, origin, held) && Quiet(w) && held * Nodes(t) - {origin} != {}
    ensures w.replied != {}
  {
    hide FlightOk, TasksOk, Covered, Topped, IsTree, Quiet;
    if w.replied == {} {
      QuietWithoutReply(t, w, origin, held);
    }
  }

  /**
   A relayed request, once at rest, has been answered if some node other than the requester held the
   chunk when it was sent; and only nodes that hold the chunk answer.
   */
  lemma RequestIsAnswered(t: Parents, origin: nat, holders: set<nat>, acts: seq<Act>)
    requires IsTree(t) && origin < |t| && IsRun(t, Start(origin, holders), acts)
    requires Quiet(Final(t, Start(origin, holders), acts))
    ensures var w := Final(t, Start(origin, holders), acts);
            && (holders * Nodes(t) - {origin} != {} ==> w.replied != {})
            && w.replied <= w.holders * Nodes(t) - {origin}
  {
    hide FlightOk, TasksOk, Covered, Topped, IsTree, Quiet, Final, IsRun;
    var w := Final(t, Start(origin, holders), acts);
    RunKeepsInv(t, origin, holders, acts);
    ReachedInTree(t, w, origin, holders);
    if holders * Nodes(t) - {origin} != {} {
      QuietIsAnswered(t, w, origin, holders);
    }
  }

  /** Without newcomers among the holders: it is answered exactly when some other node holds it. */
  lemma AnsweredIffHeld(t: Parents, origin: nat, holders: set<nat>, acts: seq<Act>)
    requires IsTree(t) && origin < |t| && IsRun(t, Start(origin, holders), acts)
    requires Quiet(Final(t, Start(origin, holders), acts))
    requires forall k :: 0 <= k < |acts| ==> !acts[k].Acquire?
    ensures Final(t, Start(origin, holders), acts).replied != {} <==> holders * Nodes(t) - {origin} != {}
  {
    RequestIsAnswered(t, origin, holders, acts);
    HoldersStay(t, Start(origin, holders), acts);
  }

  lemma {:induction false} HoldersStay(t: Parents, w: State, acts: seq<Act>)
    requires IsRun(t, w, acts) && forall k :: 0 <= k < |acts| ==> !acts[k].Acquire?
    ensures Final(t, w, acts).holders == w.holders
  {
    if acts != [] {
      HoldersStay(t, w, acts[..|acts| - 1]);
    }
  }

  /** On any path from the requester to a holder, the request was answered by the holder or before it. */
  lemma HolderOnPathAnswers(t: Parents, origin: nat, holders: set<nat>, acts: seq<Act>, path: seq<nat>)
    requires IsTree(t) && origin < |t| && IsRun(t, Start(origin, holders), acts)
    requires Quiet(Final(t, Start(origin, holders), acts))
    requires IsPath(t, path) && path[0] == origin && path[|path| - 1] in holders - {origin}
    ensures exists k :: 0 <= k < |path| && path[k] in Final(t, Start(origin, holders), acts).replied
  {
    hide FlightOk, TasksOk, Adjacent, Topped, IsTree, Final, IsRun;
    var w := Final(t, Start(origin, holders), acts);
    RunKeepsInv(t, origin, holders, acts);
    var k := 0;
    while k < |path| - 1 && path[k] !in w.replied
      invariant k < |path| && path[k] in w.reached
    {
      assert Adjacent(t, path[k], path[k + 1]) && !HasTask(w, path[k]);
      k := k + 1;
    }
  }

  // ---------- Where a request stops ----------

  /** On the path without repeats to z, somebody in between held the chunk. */
  ghost predicate BehindHolder(t: Parents, origin: nat, held: set<nat>, z: nat) {
    exists path, k :: Leads(t, path, origin, z) && Simple(path) && 0 < k < |path| - 1 && path[k] in held
  }

  /** Behind a holder there is no way that avoids holders. */
  lemma BehindIsUnreachable(t: Parents, origin: nat, held: set<nat>, z: nat)
    requires IsTree(t) && BehindHolder(t, origin, held, z)
    ensures !Reachable(t, origin, held, z)
  {
    hide IsTree, IsPath, Simple;
    var path, k :| Leads(t, path, origin, z) && Simple(path) && 0 < k < |path| - 1 && path[k] in held;
    forall walk ensures !Clear(t, walk, origin, held, z) {
      if Clear(t, walk, origin, held, z) {
        var m := NoWayRound(t, path, k, walk);
      }
    }
  }

  /** Wherever a wave has got to, nobody behind a holder is reached. */
  lemma ReachedNotBehind(t: Parents, w: State, origin: nat, held: set<nat>, z: nat)
    requires Inv(t, w, origin, held) && z in w.reached
    ensures !BehindHolder(t, origin, held, z)
  {
    hide IsTree, Reachable, BehindHolder, FlightOk, TasksOk, Covered;
    if BehindHolder(t, origin, held, z) {
      BehindIsUnreachable(t, origin, held, z);
    }
  }

  /** In no run does a request ever get past a node that held the chunk when it was sent. */
  lemma NobodyBehindHolder(t: Parents, origin: nat, holders: set<nat>, acts: seq<Act>, path: seq<nat>, k: nat, j: nat)
    requires IsTree(t) && origin < |t| && IsRun(t, Start(origin, holders), acts)
    requires IsPath(t, path) && Simple(path) && path[0] == origin && 0 < k < j < |path| && path[k] in holders
    ensures path[j] !in Final(t, Start(origin, holders), acts).reached
  {
    hide IsRun, Final, IsTree, Reachable, Adjacent;
    RunKeepsInv(t, origin, holders, acts);
    var upTo := path[..j + 1];
    assert Leads(t, upTo, origin, path[j]) && Simple(upTo) && upTo[k] in holders;
    assert BehindHolder(t, origin, holders, path[j]);
    BehindIsUnreachable(t, origin, holders, path[j]);
  }

  /** Along a way without holders a request at rest has got everywhere. */
  lemma ReachesAlong(t: Parents, w: State, origin: nat, held: set<nat>, path: seq<nat>)
    requires Inv(t, w, origin, held) && Quiet(w) && w.holders - {origin} == held - {origin}
    requires path != [] && Clear(t, path, origin, held, path[|path| - 1])
    ensures path[|path| - 1] in w.reached
  {
    hide FlightOk, TasksOk, Adjacent, Topped, IsTree, Stopped;
    assert forall x :: x in w.replied ==> x in w.holders - {origin};
    var k := 0;
    while k < |path| - 1
      invariant k < |path| && path[k] in w.reached
      decreases |path| - k
    {
      assert Adjacent(t, path[k], path[k + 1]) && !HasTask(w, path[k]);
      assert path[k] !in w.replied;
      k := k + 1;
    }
  }

  /**
   A request at rest, when nobody but perhaps the requester has come to hold the chunk meanwhile, has reached
   exactly the nodes with no holder in between, and exactly the holders among them have answered.
   */
  lemma RestsExactly(t: Parents, w: State, origin: nat, held: set<nat>)
    requires Inv(t, w, origin, held) && Quiet(w) && w.holders - {origin} == held - {origin}
    ensures forall z: nat :: z in w.reached <==> z < |t| && !BehindHolder(t, origin, held, z)
    ensures w.replied == w.reached * held - {origin}
  {
    hide FlightOk, TasksOk, Covered, Topped, IsTree, Quiet, Reachable, BehindHolder, Leads, Simple;
    ReachedInTree(t, w, origin, held);
    assert forall x :: x in w.replied ==> x in w.reached && x in w.holders - {origin};
    forall z: nat ensures z in w.reached <==> z < |t| && !BehindHolder(t, origin, held, z) {
      if z in w.reached {
        ReachedNotBehind(t, w, origin, held, z);
      }
      if z < |t| && !BehindHolder(t, origin, held, z) {
        OriginInTree(t, w, origin, held);
        var path := SimplePath(t, origin, z);
        NotBehindIsClear(t, path, origin, held, z);
        ReachesAlong(t, w, origin, held, path);
      }
    }
  }

  lemma OriginInTree(t: Parents, w: State, origin: nat, held: set<nat>)
    requires Inv(t, w, origin, held)
    ensures origin < |t|
  {
    hide FlightOk, TasksOk, Covered, IsTree, Stopped;
  }

  lemma NotBehindIsClear(t: Parents, path: seq<nat>, origin: nat, held: set<nat>, z: nat)
    requires Leads(t, path, origin, z) && Simple(path) && !BehindHolder(t, origin, held, z)
    ensures path != [] && path[|path| - 1] == z && Clear(t, path, origin, held, z)
  {
    hide IsTree, Adjacent;
  }

  /** So it is in every run without anybody coming to hold the chunk. */
  lemma RequestStopsAtHolders(t: Parents, origin: nat, holders: set<nat>, acts: seq<Act>)
    requires IsTree(t) && origin < |t| && IsRun(t, Start(origin, holders), acts)
    requires Quiet(Final(t, Start(origin, holders), acts))
    requires forall k :: 0 <= k < |acts| ==> !acts[k].Acquire?
    ensures var w := Final(t, Start(origin, holders), acts);
            && (forall z: nat :: z in w.reached <==> z < |t| && !BehindHolder(t, origin, holders, z))
            && w.replied == w.reached * holders - {origin}
  {
    hide IsRun, Final, Inv, BehindHolder, Quiet;
    RunKeepsInv(t, origin, holders, acts);
    HoldersStay(t, Start(origin, holders), acts);
    RestsExactly(t, Final(t, Start(origin, holders), acts), origin, holders);
  }
}
