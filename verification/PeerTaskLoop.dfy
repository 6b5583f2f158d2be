// The peer task manager's loop, its tasks and stop
// (rust/easytier-core/src/foundation/task.rs), step by step. Tasks end on their
// own or after an abort at any time. start and stop are called one after the
// other, but a stop may be dropped by its caller at any of its awaits.
//
// A stop aborts the loop. A loop suspended at an await is never polled again; a
// loop inside a poll goes on, past awaits that are ready, until one suspends it.
// A stop dropped before that leaves the loop astray until then.
module PeerTaskLoop {
  import opened Wrappers
  import opened Sequences

  type Item = nat
  type Task = nat

  datatype Pc =
    | Collecting                                                          // awaiting the peers
    | Choosing(peers: seq<Item>, rest: seq<Item>, removals: seq<Item>)    // looking at one entry after the other
    | Removing(peers: seq<Item>, rest: seq<Item>)
    | Joining(peers: seq<Item>, rest: seq<Item>, item: Item, task: Task)  // awaiting a removed task
    | Launching(peers: seq<Item>, rest: seq<Item>)
    | Spawning(peers: seq<Item>, rest: seq<Item>, item: Item)             // awaiting launch_task
    | Parked(peers: seq<Item>)

  datatype LoopAction =
    | Collect(peers: seq<Item>, keys: seq<Item>)
    | ChooseNext
    | RemoveNext
    | Joined
    | LaunchNext
    | Launched
    | Wake

  // Where the manager is: no loop, a loop, or inside stop.
  datatype Phase =
    | Off
    | On(pc: Pc)
    | Ending(loop: Option<Pc>)                                // awaiting the aborted loop, if still inside a poll
    | Stopping(rest: seq<Item>)
    | StopJoining(rest: seq<Item>, item: Item, task: Task)    // awaiting a removed task

  datatype Who = Current | Stray(index: nat)

  datatype Action =
    | Start
    | Stop(polled: bool)            // whether the loop is inside a poll
    | LoopEnds                      // an await suspends the aborted loop
    | ListKeys(keys: seq<Item>)     // stop lists the map's keys
    | StopNext
    | StopJoined
    | StopDone
    | DropStop                      // the caller drops the call
    | StrayEnds(index: nat)
    | Loop(who: Who, move: LoopAction)
    | TaskEnds(task: Task)

  // The map, the tasks that still run, and history: the tasks whose handle was
  // dropped while they ran, without a join.
  datatype World = World(tasks: map<Item, Task>, running: map<Task, Item>, nextTask: Task, orphans: set<Task>)

  // `strays` are the loops still inside a poll whose stop was dropped.
  // `overlapped` is history: start or stop was called beside one of them.
  datatype State = State(world: World, phase: Phase, strays: seq<Pc>, overlapped: bool)

  const Init := State(World(map[], map[], 0, {}), Off, [], false)

  // ----- the loop -----

  // An entry is removed when it is not wanted or its task is seen finished.
  predicate Removable(w: World, peers: seq<Item>, x: Item) {
    x in w.tasks && (x !in peers || w.tasks[x] !in w.running)
  }

  // A handle dropped while its task runs leaves an orphan.
  function DropHandle(w: World, t: Task): World {
    if t in w.running then w.(orphans := w.orphans + {t}) else w
  }

  // The insert of a launched task; a handle it replaces is dropped.
  function Insert(w: World, x: Item): World {
    var kept := if x in w.tasks then DropHandle(w, w.tasks[x]) else w;
    kept.(tasks := w.tasks[x := w.nextTask], running := w.running[w.nextTask := x], nextTask := w.nextTask + 1)
  }

  // One step of a loop; an action that is not possible changes nothing.
  function LoopStep(w: World, pc: Pc, a: LoopAction): (World, Pc) {
    match a
    case Collect(peers, keys) =>
      if pc.Collecting? && Elements(keys) == w.tasks.Keys then (w, Choosing(peers, keys, [])) else (w, pc)
    case ChooseNext =>
      if !pc.Choosing? then (w, pc)
      else if pc.rest == [] then (w, Removing(pc.peers, pc.removals))
      else if Removable(w, pc.peers, pc.rest[0]) then
        (w, Choosing(pc.peers, pc.rest[1..], pc.removals + [pc.rest[0]]))
      else (w, Choosing(pc.peers, pc.rest[1..], pc.removals))
    case RemoveNext =>
      if !pc.Removing? then (w, pc)
      else if pc.rest == [] then (w, Launching(pc.peers, pc.peers))
      else
        var x, rest := pc.rest[0], pc.rest[1..];
        if x in w.tasks then (w.(tasks := w.tasks - {x}), Joining(pc.peers, rest, x, w.tasks[x]))
        else (w, Removing(pc.peers, rest))
    case Joined =>
      if pc.Joining? && pc.task !in w.running then (w, Removing(pc.peers, pc.rest)) else (w, pc)
    case LaunchNext =>
      if !pc.Launching? then (w, pc)
      else if pc.rest == [] then (w, Parked(pc.peers))
      else if pc.rest[0] in w.tasks then (w, Launching(pc.peers, pc.rest[1..]))
      else (w, Spawning(pc.peers, pc.rest[1..], pc.rest[0]))
    case Launched => if pc.Spawning? then (Insert(w, pc.item), Launching(pc.peers, pc.rest)) else (w, pc)
    case Wake => if pc.Parked? then (w, Collecting) else (w, pc)
  }

  // The loop is at an await, where an abort takes effect.
  predicate AtAwait(pc: Pc) {
    pc.Collecting? || pc.Joining? || pc.Spawning? || pc.Parked?
  }

  // What is dropped with a loop: the handle it joins.
  function DropLoop(w: World, pc: Pc): World {
    if pc.Joining? then DropHandle(w, pc.task) else w
  }

  // ----- the manager -----

  function PcOf(s: State, who: Who): Option<Pc> {
    match who
    case Current => (match s.phase case On(pc) => Some(pc) case Ending(loop) => loop case _ => None)
    case Stray(i) => if i < |s.strays| then Some(s.strays[i]) else None
  }

  // The state after loop `who` has moved.
  function Moved(s: State, who: Who, w: World, pc: Pc): State {
    match who
    case Current =>
      (match s.phase
       case On(_) => s.(world := w, phase := On(pc))
       case Ending(Some(_)) => s.(world := w, phase := Ending(Some(pc)))
       case _ => s)
    case Stray(i) => if i < |s.strays| then s.(world := w, strays := s.strays[i := pc]) else s
  }

  // Whether calls overlap with a stray loop, counting a call made now.
  predicate Overlapping(s: State) {
    s.overlapped || s.strays != []
  }

  // One step; an action that is not possible changes nothing.
  function Step(s: State, a: Action): State {
    var w := s.world;
    match a
    case Start => if s.phase.Off? then s.(phase := On(Collecting), overlapped := Overlapping(s)) else s
    case Stop(polled) =>
      if s.phase.Off? then s.(phase := Ending(None), overlapped := Overlapping(s))
      else if s.phase.On? && polled then s.(phase := Ending(Some(s.phase.pc)))
      else if s.phase.On? && AtAwait(s.phase.pc) then s.(phase := Ending(None), world := DropLoop(w, s.phase.pc))
      else s
    case LoopEnds =>
      if s.phase.Ending? && s.phase.loop.Some? && AtAwait(s.phase.loop.value) then
        s.(phase := Ending(None), world := DropLoop(w, s.phase.loop.value))
      else s
    case ListKeys(keys) =>
      if s.phase == Ending(None) && Elements(keys) == w.tasks.Keys then s.(phase := Stopping(keys)) else s
    case StopNext =>
      if !s.phase.Stopping? || s.phase.rest == [] then s
      else
        var x, rest := s.phase.rest[0], s.phase.rest[1..];
        if x in w.tasks then s.(world := w.(tasks := w.tasks - {x}), phase := StopJoining(rest, x, w.tasks[x]))
        else s.(phase := Stopping(rest))
    case StopJoined =>
      if s.phase.StopJoining? && s.phase.task !in w.running then s.(phase := Stopping(s.phase.rest)) else s
    case StopDone => if s.phase.Stopping? && s.phase.rest == [] then s.(phase := Off) else s
    case DropStop =>
      (match s.phase
       case Ending(Some(pc)) => s.(phase := Off, strays := s.strays + [pc])
       case Ending(None) => s.(phase := Off)
       case StopJoining(_, _, task) => s.(phase := Off, world := DropHandle(w, task))
       case Stopping(rest) => if rest == [] then s.(phase := Off) else s  // awaiting all_task_done
       case _ => s)
    case StrayEnds(i) =>
      if i < |s.strays| && AtAwait(s.strays[i]) then
        s.(world := DropLoop(w, s.strays[i]), strays := s.strays[..i] + s.strays[i + 1..])
      else s
    case Loop(who, move) =>
      if PcOf(s, who).Some? then
        var (w', pc) := LoopStep(w, PcOf(s, who).value, move);
        Moved(s, who, w', pc)
      else s
    case TaskEnds(task) => s.(world := w.(running := w.running - {task}))
  }

  ghost function Run(actions: seq<Action>): State
    decreases |actions|
  {
    if actions == [] then Init
    else Step(Run(actions[..|actions| - 1]), actions[|actions| - 1])
  }

  // ----- invariants -----

  predicate InMap(w: World, t: Task) {
    t in w.running && w.running[t] in w.tasks && w.tasks[w.running[t]] == t
  }

  // Every running task is in the map, the one being joined, or an orphan.
  ghost predicate TasksInv(w: World, joined: Option<Task>) {
    && (forall t :: t in w.running ==> t < w.nextTask && (InMap(w, t) || joined == Some(t) || t in w.orphans))
    && (forall x :: x in w.tasks ==> w.tasks[x] < w.nextTask && w.tasks[x] !in w.orphans)
    && (forall x :: x in w.tasks && w.tasks[x] in w.running ==> w.running[w.tasks[x]] == x)
    && (forall t :: t in w.orphans ==> t < w.nextTask)
  }

  ghost predicate JoinInv(w: World, item: Item, task: Task) {
    && item !in w.tasks && task < w.nextTask && task !in w.orphans
    && (task in w.running ==> w.running[task] == item)
  }

  // Where the pass is: what may still be in the map and what may be missing.
  ghost predicate LoopInv(w: World, pc: Pc) {
    match pc
    case Choosing(peers, rest, removals) => forall x :: x in w.tasks ==> x in peers || x in rest || x in removals
    case Removing(peers, rest) => forall x :: x in w.tasks ==> x in peers || x in rest
    case Joining(peers, rest, item, task) =>
      (forall x :: x in w.tasks ==> x in peers || x in rest) && JoinInv(w, item, task)
    case Launching(peers, rest) =>
      && (forall x :: x in w.tasks ==> x in peers)
      && (forall x :: x in peers ==> x in w.tasks || x in rest)
      && (forall x :: x in rest ==> x in peers)
    case Spawning(peers, rest, item) =>
      && (forall x :: x in w.tasks ==> x in peers)
      && (forall x :: x in peers ==> x in w.tasks || x in rest || x == item)
      && (forall x :: x in rest ==> x in peers)
      && item in peers && item !in w.tasks
    case Parked(peers) => w.tasks.Keys == Elements(peers)
    case Collecting => true
  }

  function LoopJoins(pc: Pc): Option<Task> {
    if pc.Joining? then Some(pc.task) else None
  }

  // The one loop that lives: the current one, or the one gone astray while
  // the manager is off.
  function Sole(s: State): Option<Pc> {
    if s.phase.Off? then PcOf(s, Stray(0)) else PcOf(s, Current)
  }

  // The task under join.
  function Joins(s: State): Option<Task> {
    if s.phase.StopJoining? then Some(s.phase.task)
    else if Sole(s).Some? then LoopJoins(Sole(s).value)
    else None
  }

  ghost predicate PhaseInv(s: State) {
    && (s.strays == [] || (s.phase.Off? && |s.strays| == 1))
    && (Sole(s).Some? ==> LoopInv(s.world, Sole(s).value))
    && match s.phase
       case Stopping(rest) => forall x :: x in s.world.tasks ==> x in rest
       case StopJoining(rest, item, task) =>
         (forall x :: x in s.world.tasks ==> x in rest) && JoinInv(s.world, item, task)
       case _ => true
  }

  // Once a call has overlapped with a stray loop nothing is promised any more.
  ghost predicate Inv(s: State) {
    s.overlapped || (TasksInv(s.world, Joins(s)) && PhaseInv(s))
  }

  // Taking a task out of the map puts it under join.
  lemma TakeOutKeepsTasks(w: World, x: Item)
    requires TasksInv(w, None) && x in w.tasks
    ensures TasksInv(w.(tasks := w.tasks - {x}), Some(w.tasks[x]))
    ensures JoinInv(w.(tasks := w.tasks - {x}), x, w.tasks[x])
  {
    var w' := w.(tasks := w.tasks - {x});
    forall t | t in w'.running ensures InMap(w', t) || t == w.tasks[x] || t in w'.orphans {
      assert InMap(w, t) || t in w.orphans;
    }
  }

  lemma JoinKeepsTasks(w: World, t: Task)
    requires TasksInv(w, Some(t)) && t !in w.running
    ensures TasksInv(w, None)
  {
  }

  // A launched task has a new number and an item that had none.
  lemma InsertKeepsTasks(w: World, x: Item)
    requires TasksInv(w, None) && x !in w.tasks
    ensures TasksInv(Insert(w, x), None)
  {
    var w' := Insert(w, x);
    forall t | t in w'.running ensures InMap(w', t) || t in w'.orphans {
      assert t in w.running ==> InMap(w, t) || t in w.orphans;
    }
  }

  // A dropped join leaves an orphan if its task still runs.
  lemma DropKeepsTasks(w: World, item: Item, t: Task)
    requires TasksInv(w, Some(t)) && JoinInv(w, item, t)
    ensures TasksInv(DropHandle(w, t), None)
  {
    var w' := DropHandle(w, t);
    forall u | u in w'.running ensures InMap(w', u) || u in w'.orphans {
      assert InMap(w, u) || u == t || u in w.orphans;
    }
  }

  lemma EndKeepsTasks(w: World, joined: Option<Task>, task: Task)
    requires TasksInv(w, joined)
    ensures TasksInv(w.(running := w.running - {task}), joined)
  {
    var w' := w.(running := w.running - {task});
    forall t | t in w'.running ensures InMap(w', t) || joined == Some(t) || t in w'.orphans {
      assert InMap(w, t) || joined == Some(t) || t in w.orphans;
    }
  }

  lemma LoopKeepsTasks(w: World, pc: Pc, a: LoopAction)
    requires TasksInv(w, LoopJoins(pc)) && LoopInv(w, pc)
    ensures
      var (w', pc') := LoopStep(w, pc, a);
      TasksInv(w', LoopJoins(pc'))
  {
    if a.RemoveNext? && pc.Removing? && pc.rest != [] && pc.rest[0] in w.tasks {
      TakeOutKeepsTasks(w, pc.rest[0]);
    } else if a.Joined? && pc.Joining? && pc.task !in w.running {
      JoinKeepsTasks(w, pc.task);
    } else if a.Launched? && pc.Spawning? {
      InsertKeepsTasks(w, pc.item);
    }
  }

  lemma LoopKeepsInv(w: World, pc: Pc, a: LoopAction)
    requires TasksInv(w, LoopJoins(pc)) && LoopInv(w, pc)
    ensures
      var (w', pc') := LoopStep(w, pc, a);
      LoopInv(w', pc')
  {
    match a
    case RemoveNext =>
      if pc.Removing? && pc.rest != [] && pc.rest[0] in w.tasks {
        TakeOutKeepsTasks(w, pc.rest[0]);
      }
    case LaunchNext =>
      if pc.Launching? && pc.rest == [] {
        assert w.tasks.Keys == Elements(pc.peers);
      }
    case _ =>
  }

  // The handle that goes with a loop.
  lemma DropLoopKeepsTasks(w: World, pc: Pc)
    requires TasksInv(w, LoopJoins(pc)) && LoopInv(w, pc)
    ensures TasksInv(DropLoop(w, pc), None) && DropLoop(w, pc).tasks == w.tasks
  {
    if pc.Joining? {
      DropKeepsTasks(w, pc.item, pc.task);
    }
  }

  lemma StopKeepsInv(s: State, polled: bool)
    requires Inv(s)
    ensures Inv(Step(s, Stop(polled)))
  {
    if !s.overlapped && s.phase.On? && !polled {
      DropLoopKeepsTasks(s.world, s.phase.pc);
    }
  }

  lemma LoopEndsKeepsInv(s: State)
    requires Inv(s)
    ensures Inv(Step(s, LoopEnds))
  {
    if !s.overlapped && s.phase.Ending? && s.phase.loop.Some? {
      DropLoopKeepsTasks(s.world, s.phase.loop.value);
    }
  }

  lemma StrayEndsKeepsInv(s: State, i: nat)
    requires Inv(s)
    ensures Inv(Step(s, StrayEnds(i)))
  {
    if !s.overlapped && i < |s.strays| {
      DropLoopKeepsTasks(s.world, s.strays[0]);
      assert s.strays[..0] + s.strays[1..] == [];
    }
  }

  lemma StopNextKeepsInv(s: State)
    requires Inv(s)
    ensures Inv(Step(s, StopNext))
  {
    if !s.overlapped && s.phase.Stopping? && s.phase.rest != [] && s.phase.rest[0] in s.world.tasks {
      TakeOutKeepsTasks(s.world, s.phase.rest[0]);
    }
  }

  lemma StopJoinedKeepsInv(s: State)
    requires Inv(s)
    ensures Inv(Step(s, StopJoined))
  {
    if !s.overlapped && s.phase.StopJoining? && s.phase.task !in s.world.running {
      JoinKeepsTasks(s.world, s.phase.task);
    }
  }

  lemma DropStopKeepsInv(s: State)
    requires Inv(s)
    ensures Inv(Step(s, DropStop))
  {
    if !s.overlapped && s.phase.StopJoining? {
      DropKeepsTasks(s.world, s.phase.item, s.phase.task);
    }
  }

  lemma TaskEndKeepsInv(s: State, task: Task)
    requires Inv(s)
    ensures Inv(Step(s, TaskEnds(task)))
  {
    if !s.overlapped {
      EndKeepsTasks(s.world, Joins(s), task);
    }
  }

  lemma LoopMoveKeepsInv(s: State, who: Who, a: LoopAction)
    requires Inv(s)
    ensures Inv(Step(s, Loop(who, a)))
  {
    if !s.overlapped && PcOf(s, who).Some? {
      LoopKeepsTasks(s.world, PcOf(s, who).value, a);
      LoopKeepsInv(s.world, PcOf(s, who).value, a);
    }
  }

  lemma StepKeepsInv(s: State, a: Action)
    requires Inv(s)
    ensures Inv(Step(s, a))
  {
    match a
    case Start =>
    case Stop(polled) => StopKeepsInv(s, polled);
    case LoopEnds => LoopEndsKeepsInv(s);
    case ListKeys(_) =>
    case StopNext => StopNextKeepsInv(s);
    case StopJoined => StopJoinedKeepsInv(s);
    case StopDone =>
    case DropStop => DropStopKeepsInv(s);
    case StrayEnds(i) => StrayEndsKeepsInv(s, i);
    case Loop(who, move) => LoopMoveKeepsInv(s, who, move);
    case TaskEnds(task) => TaskEndKeepsInv(s, task);
  }

  // In every run, until a call overlaps with a stray loop: every running task
  // is in the map, being joined, or was orphaned.
  lemma {:induction false} RunKeepsInv(actions: seq<Action>)
    ensures Inv(Run(actions))
    decreases |actions|
  {
    if actions != [] {
      RunKeepsInv(actions[..|actions| - 1]);
      StepKeepsInv(Run(actions[..|actions| - 1]), actions[|actions| - 1]);
    }
  }

  // ----- results -----

  // A loop is dropped while it joins a task that runs.
  predicate Interrupted(w: World, pc: Pc) {
    pc.Joining? && pc.task in w.running
  }

  // A join is dropped while its task runs: with the loop that joins it, which
  // a stop has aborted, or with the stop that does.
  predicate DropsJoin(s: State, a: Action) {
    match a
    case Stop(polled) => !polled && s.phase.On? && Interrupted(s.world, s.phase.pc)
    case LoopEnds => s.phase.Ending? && s.phase.loop.Some? && Interrupted(s.world, s.phase.loop.value)
    case StrayEnds(i) => i < |s.strays| && Interrupted(s.world, s.strays[i])
    case DropStop => s.phase.StopJoining? && s.phase.task in s.world.running
    case _ => false
  }

  // start or stop is called while a loop whose stop was dropped is still
  // inside a poll.
  predicate Overlaps(s: State, a: Action) {
    (a.Start? || a.Stop?) && s.phase.Off? && s.strays != []
  }

  ghost predicate NoOverlap(actions: seq<Action>) {
    forall i :: 0 <= i < |actions| ==> !Overlaps(Run(actions[..i]), actions[i])
  }

  ghost predicate NoDroppedJoin(actions: seq<Action>) {
    forall i :: 0 <= i < |actions| ==> !DropsJoin(Run(actions[..i]), actions[i])
  }

  lemma OverlapStep(s: State, a: Action)
    requires !s.overlapped && !Overlaps(s, a)
    ensures !Step(s, a).overlapped
  {
  }

  lemma {:induction false} OverlapsAreCalls(actions: seq<Action>)
    requires NoOverlap(actions)
    ensures !Run(actions).overlapped
    decreases |actions|
  {
    if actions != [] {
      var prefix := actions[..|actions| - 1];
      forall i | 0 <= i < |prefix| ensures !Overlaps(Run(prefix[..i]), prefix[i]) {
        assert prefix[..i] == actions[..i];
      }
      OverlapsAreCalls(prefix);
      OverlapStep(Run(prefix), actions[|actions| - 1]);
    }
  }

  // As long as no call overlaps with a stray loop, after every pass the map's
  // keys are exactly the collected peers.
  lemma PassEndsWithCollectedPeers(actions: seq<Action>)
    requires NoOverlap(actions) && Run(actions).phase.On? && Run(actions).phase.pc.Parked?
    ensures Run(actions).world.tasks.Keys == Elements(Run(actions).phase.pc.peers)
  {
    OverlapsAreCalls(actions);
    RunKeepsInv(actions);
  }

  lemma LoopOrphans(w: World, pc: Pc, a: LoopAction)
    requires LoopInv(w, pc)
    ensures LoopStep(w, pc, a).0.orphans == w.orphans
  {
  }

  lemma OrphanStep(s: State, a: Action)
    requires Inv(s) && !s.overlapped && !DropsJoin(s, a)
    ensures Step(s, a).world.orphans == s.world.orphans
  {
    match a
    case Loop(who, move) =>
      if PcOf(s, who).Some? {
        LoopOrphans(s.world, PcOf(s, who).value, move);
      }
    case _ =>
  }

  lemma {:induction false} OrphansComeFromDrops(actions: seq<Action>)
    requires NoOverlap(actions) && NoDroppedJoin(actions)
    ensures Run(actions).world.orphans == {}
    decreases |actions|
  {
    if actions != [] {
      var prefix := actions[..|actions| - 1];
      forall i | 0 <= i < |prefix|
        ensures !DropsJoin(Run(prefix[..i]), prefix[i]) && !Overlaps(Run(prefix[..i]), prefix[i])
      {
        assert prefix[..i] == actions[..i];
      }
      OrphansComeFromDrops(prefix);
      OverlapsAreCalls(prefix);
      RunKeepsInv(prefix);
      OrphanStep(Run(prefix), actions[|actions| - 1]);
    }
  }

  // The item of a task under join is out of the map.
  lemma JoinedItemIsOut(s: State, t: Task)
    requires PhaseInv(s) && Joins(s) == Some(t) && t in s.world.running
    ensures s.world.running[t] !in s.world.tasks
  {
  }

  lemma RunningTasksDiffer(s: State, t: Task, u: Task)
    requires TasksInv(s.world, Joins(s)) && PhaseInv(s) && s.world.orphans == {}
    requires t in s.world.running && u in s.world.running && s.world.running[t] == s.world.running[u]
    ensures t == u
  {
    assert InMap(s.world, t) || Joins(s) == Some(t);
    assert InMap(s.world, u) || Joins(s) == Some(u);
    if Joins(s) == Some(t) {
      JoinedItemIsOut(s, t);
    } else if Joins(s) == Some(u) {
      JoinedItemIsOut(s, u);
    }
  }

  // As long as no call overlaps with a stray loop and no join is dropped while
  // its task runs, an item never has two running tasks.
  lemma OneTaskPerItem(actions: seq<Action>, t: Task, u: Task)
    requires NoOverlap(actions) && NoDroppedJoin(actions)
    ensures
      var w := Run(actions).world;
      t in w.running && u in w.running && w.running[t] == w.running[u] ==> t == u
  {
    OverlapsAreCalls(actions);
    OrphansComeFromDrops(actions);
    RunKeepsInv(actions);
    var s := Run(actions);
    if t in s.world.running && u in s.world.running && s.world.running[t] == s.world.running[u] {
      RunningTasksDiffer(s, t, u);
    }
  }

  // And a stop that runs to its end has emptied the map and joined every task.
  lemma StopJoinsEveryTask(actions: seq<Action>)
    requires NoOverlap(actions) && NoDroppedJoin(actions) && Run(actions).phase == Stopping([])
    ensures Run(actions).world.tasks == map[] && Run(actions).world.running == map[]
  {
    OverlapsAreCalls(actions);
    OrphansComeFromDrops(actions);
    RunKeepsInv(actions);
    var w := Run(actions).world;
    forall t ensures t !in w.running {
      assert t in w.running ==> InMap(w, t);
    }
  }

  // ----- one loop by itself -----

  // Steps of one loop with tasks ending in between.
  datatype LoopMove = Own(move: LoopAction) | Ends(task: Task)

  function MoveStep(w: World, pc: Pc, m: LoopMove): (World, Pc) {
    match m
    case Own(move) => LoopStep(w, pc, move)
    case Ends(task) => (w.(running := w.running - {task}), pc)
  }

  ghost function LoopRun(w: World, pc: Pc, moves: seq<LoopMove>): (World, Pc)
    decreases |moves|
  {
    if moves == [] then (w, pc)
    else
      var (w', pc') := LoopRun(w, pc, moves[..|moves| - 1]);
      MoveStep(w', pc', moves[|moves| - 1])
  }

  lemma LoopRunSnoc(w: World, pc: Pc, moves: seq<LoopMove>, m: LoopMove)
    ensures
      var (w', pc') := LoopRun(w, pc, moves);
      LoopRun(w, pc, moves + [m]) == MoveStep(w', pc', m)
  {
    assert (moves + [m])[..|moves|] == moves;
  }

  lemma {:induction false} LoopRunKeepsInv(w: World, pc: Pc, moves: seq<LoopMove>)
    requires TasksInv(w, LoopJoins(pc)) && LoopInv(w, pc)
    ensures
      var (w', pc') := LoopRun(w, pc, moves);
      TasksInv(w', LoopJoins(pc')) && LoopInv(w', pc')
    decreases |moves|
  {
    if moves != [] {
      var (w', pc') := LoopRun(w, pc, moves[..|moves| - 1]);
      LoopRunKeepsInv(w, pc, moves[..|moves| - 1]);
      match moves[|moves| - 1]
      case Own(move) =>
        LoopKeepsTasks(w', pc', move);
        LoopKeepsInv(w', pc', move);
      case Ends(task) => EndKeepsTasks(w', LoopJoins(pc'), task);
    }
  }
}
