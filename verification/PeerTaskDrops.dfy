// What dropped awaits of the peer task manager can lead to
// (rust/easytier-core/src/foundation/task.rs): the converses of one running task
// per item and of passes that end with the collected peers.
module PeerTaskDrops {
  import opened Wrappers
  import opened Sequences
  import opened PeerTaskLoop

  predicate TwoRun(w: World, x: Item, t: Task, u: Task) {
    t != u && t in w.running && u in w.running && w.running[t] == x && w.running[u] == x
  }

  lemma RunSnoc(actions: seq<Action>, a: Action)
    ensures Run(actions + [a]) == Step(Run(actions), a)
  {
    assert (actions + [a])[..|actions|] == actions;
  }

  function Lift(who: Who, m: LoopMove): Action {
    match m
    case Own(move) => Loop(who, move)
    case Ends(task) => TaskEnds(task)
  }

  lemma LiftedStep(s: State, who: Who, m: LoopMove)
    requires PcOf(s, who).Some?
    ensures
      var (w, pc) := MoveStep(s.world, PcOf(s, who).value, m);
      Step(s, Lift(who, m)) == Moved(s, who, w, pc)
  {
  }

  // A run of one loop is a run of the manager in which the rest stands still.
  lemma {:induction false} Lifted(actions: seq<Action>, who: Who, moves: seq<LoopMove>) returns (more: seq<Action>)
    requires PcOf(Run(actions), who).Some?
    ensures actions <= more
    ensures
      var s := Run(actions);
      var (w, pc) := LoopRun(s.world, PcOf(s, who).value, moves);
      Run(more) == Moved(s, who, w, pc)
    decreases |moves|
  {
    if moves == [] {
      more := actions;
    } else {
      more := Lifted(actions, who, moves[..|moves| - 1]);
      var m := moves[|moves| - 1];
      LiftedStep(Run(more), who, m);
      RunSnoc(more, Lift(who, m));
      more := more + [Lift(who, m)];
    }
  }

  // A loop takes one item out; its task ends and is joined.
  lemma RemovesOne(w: World, pc: Pc, moves: seq<LoopMove>) returns (more: seq<LoopMove>)
    requires var c := LoopRun(w, pc, moves).1; c.Removing? && c.rest != []
    ensures
      var (w1, c) := LoopRun(w, pc, moves);
      var (w2, c') := LoopRun(w, pc, more);
      c' == Removing(c.peers, c.rest[1..]) && w2.tasks == w1.tasks - {c.rest[0]}
  {
    var (w1, c) := LoopRun(w, pc, moves);
    var x := c.rest[0];
    LoopRunSnoc(w, pc, moves, Own(RemoveNext));
    more := moves + [Own(RemoveNext)];
    if x in w1.tasks {
      LoopRunSnoc(w, pc, more, Ends(w1.tasks[x]));
      more := more + [Ends(w1.tasks[x])];
      LoopRunSnoc(w, pc, more, Own(Joined));
      more := more + [Own(Joined)];
    } else {
      assert w1.tasks - {x} == w1.tasks;
    }
  }

  lemma {:induction false} RemovesAll(w: World, pc: Pc, moves: seq<LoopMove>) returns (more: seq<LoopMove>)
    requires LoopRun(w, pc, moves).1.Removing?
    ensures
      var (w1, c) := LoopRun(w, pc, moves);
      var (w2, c') := LoopRun(w, pc, more);
      c' == Launching(c.peers, c.peers) && w2.tasks == w1.tasks - Elements(c.rest)
    decreases |LoopRun(w, pc, moves).1.rest|
  {
    var (w1, c) := LoopRun(w, pc, moves);
    if c.rest == [] {
      LoopRunSnoc(w, pc, moves, Own(RemoveNext));
      more := moves + [Own(RemoveNext)];
      assert w1.tasks - Elements(c.rest) == w1.tasks;
    } else {
      more := RemovesOne(w, pc, moves);
      more := RemovesAll(w, pc, more);
      assert Elements(c.rest) == {c.rest[0]} + Elements(c.rest[1..]);
    }
  }

  // Every unwanted item among the listed ones is chosen for removal.
  lemma {:induction false} ChoosesAll(w: World, pc: Pc, moves: seq<LoopMove>) returns (more: seq<LoopMove>)
    requires LoopRun(w, pc, moves).1.Choosing?
    ensures
      var (w1, c) := LoopRun(w, pc, moves);
      var (w2, c') := LoopRun(w, pc, more);
      && w2 == w1 && c'.Removing? && c'.peers == c.peers
      && (forall x :: x in c.removals ==> x in c'.rest)
      && (forall x :: x in c.rest && x in w1.tasks && x !in c.peers ==> x in c'.rest)
      && (forall x :: x in c'.rest ==> x in c.removals || x in w1.tasks)
    decreases |LoopRun(w, pc, moves).1.rest|
  {
    var c := LoopRun(w, pc, moves).1;
    LoopRunSnoc(w, pc, moves, Own(ChooseNext));
    more := moves + [Own(ChooseNext)];
    if c.rest != [] {
      more := ChoosesAll(w, pc, more);
    }
  }

  lemma {:induction false} LaunchesAll(w: World, pc: Pc, moves: seq<LoopMove>) returns (more: seq<LoopMove>)
    requires LoopRun(w, pc, moves).1.Launching?
    ensures LoopRun(w, pc, more).1.Parked?
    decreases |LoopRun(w, pc, moves).1.rest|
  {
    var (w1, c) := LoopRun(w, pc, moves);
    LoopRunSnoc(w, pc, moves, Own(LaunchNext));
    more := moves + [Own(LaunchNext)];
    if c.rest != [] {
      if c.rest[0] !in w1.tasks {
        LoopRunSnoc(w, pc, more, Own(Launched));
        more := more + [Own(Launched)];
      }
      more := LaunchesAll(w, pc, more);
    }
  }

  lemma LaunchingReaches(w: World, pc: Pc, moves: seq<LoopMove>) returns (more: seq<LoopMove>)
    requires LoopRun(w, pc, moves).1.Launching?
    ensures LoopRun(w, pc, more).1.Collecting?
  {
    more := LaunchesAll(w, pc, moves);
    LoopRunSnoc(w, pc, more, Own(Wake));
    more := more + [Own(Wake)];
  }

  lemma RemovingReaches(w: World, pc: Pc, moves: seq<LoopMove>) returns (more: seq<LoopMove>)
    requires LoopRun(w, pc, moves).1.Removing?
    ensures LoopRun(w, pc, more).1.Collecting?
  {
    more := RemovesAll(w, pc, moves);
    more := LaunchingReaches(w, pc, more);
  }

  lemma JoinEnds(w: World, pc: Pc) returns (moves: seq<LoopMove>)
    requires pc.Joining?
    ensures LoopRun(w, pc, moves).1.Removing?
  {
    LoopRunSnoc(w, pc, [], Ends(pc.task));
    moves := [] + [Ends(pc.task)];
    LoopRunSnoc(w, pc, moves, Own(Joined));
    moves := moves + [Own(Joined)];
  }

  lemma ChoosingReaches(w: World, pc: Pc) returns (moves: seq<LoopMove>)
    requires pc.Choosing?
    ensures LoopRun(w, pc, moves).1.Collecting?
  {
    moves := ChoosesAll(w, pc, []);
    moves := RemovingReaches(w, pc, moves);
  }

  lemma JoiningReaches(w: World, pc: Pc) returns (moves: seq<LoopMove>)
    requires pc.Joining?
    ensures LoopRun(w, pc, moves).1.Collecting?
  {
    moves := JoinEnds(w, pc);
    moves := RemovingReaches(w, pc, moves);
  }

  lemma SpawningReaches(w: World, pc: Pc) returns (moves: seq<LoopMove>)
    requires pc.Spawning?
    ensures LoopRun(w, pc, moves).1.Collecting?
  {
    LoopRunSnoc(w, pc, [], Own(Launched));
    moves := [] + [Own(Launched)];
    moves := LaunchingReaches(w, pc, moves);
  }

  lemma ParkedReaches(w: World, pc: Pc) returns (moves: seq<LoopMove>)
    requires pc.Parked?
    ensures LoopRun(w, pc, moves).1.Collecting?
  {
    LoopRunSnoc(w, pc, [], Own(Wake));
    moves := [] + [Own(Wake)];
  }

  // Wherever it is, a loop can reach its next collection.
  lemma ReachesCollecting(w: World, pc: Pc) returns (moves: seq<LoopMove>)
    ensures LoopRun(w, pc, moves).1.Collecting?
  {
    match pc
    case Collecting => moves := [];
    case Choosing(_, _, _) => moves := ChoosingReaches(w, pc);
    case Removing(_, _) => moves := RemovingReaches(w, pc, []);
    case Joining(_, _, _, _) => moves := JoiningReaches(w, pc);
    case Launching(_, _) => moves := LaunchingReaches(w, pc, []);
    case Spawning(_, _, _) => moves := SpawningReaches(w, pc);
    case Parked(_) => moves := ParkedReaches(w, pc);
  }

  // The elements of a set in some order.
  ghost function Listing(s: set<Item>): (r: seq<Item>)
    ensures Elements(r) == s
  {
    if s == {} then []
    else
      var x :| x in s;
      [x] + Listing(s - {x})
  }

  // A pass that collects nobody empties the map.
  lemma EmptiesMap(w: World) returns (moves: seq<LoopMove>)
    ensures LoopRun(w, Collecting, moves).0.tasks == map[] && LoopRun(w, Collecting, moves).1.Collecting?
  {
    var all := Listing(w.tasks.Keys);
    assert forall x :: x in all <==> x in Elements(all);
    LoopRunSnoc(w, Collecting, [], Own(Collect([], all)));
    moves := [] + [Own(Collect([], all))];
    moves := ChoosesAll(w, Collecting, moves);
    moves := RemovesAll(w, Collecting, moves);
    LoopRunSnoc(w, Collecting, moves, Own(LaunchNext));
    moves := moves + [Own(LaunchNext)];
    LoopRunSnoc(w, Collecting, moves, Own(Wake));
    moves := moves + [Own(Wake)];
  }

  // With an empty map, a pass that collects one item comes to launch it.
  lemma ReachesSpawning(w: World, x: Item) returns (moves: seq<LoopMove>)
    requires w.tasks == map[]
    ensures LoopRun(w, Collecting, moves) == (w, Spawning([x], [], x))
  {
    moves := [];
    LoopRunSnoc(w, Collecting, moves, Own(Collect([x], [])));
    moves := moves + [Own(Collect([x], []))];
    LoopRunSnoc(w, Collecting, moves, Own(ChooseNext));
    moves := moves + [Own(ChooseNext)];
    LoopRunSnoc(w, Collecting, moves, Own(RemoveNext));
    moves := moves + [Own(RemoveNext)];
    LoopRunSnoc(w, Collecting, moves, Own(LaunchNext));
    moves := moves + [Own(LaunchNext)];
    assert [x][1..] == [];
  }

  // Stop takes out one item, whose task ends.
  lemma StopsOne(actions: seq<Action>) returns (more: seq<Action>)
    requires Run(actions).phase.Stopping? && Run(actions).phase.rest != []
    ensures actions <= more
    ensures
      var s, s' := Run(actions), Run(more);
      var x := s.phase.rest[0];
      && s'.phase == Stopping(s.phase.rest[1..]) && s'.overlapped == s.overlapped
      && s'.world.nextTask == s.world.nextTask && s'.world.orphans == s.world.orphans
      && s'.world.running == if x in s.world.tasks then s.world.running - {s.world.tasks[x]} else s.world.running
  {
    var s := Run(actions);
    var x := s.phase.rest[0];
    RunSnoc(actions, StopNext);
    more := actions + [StopNext];
    if x in s.world.tasks {
      RunSnoc(more, TaskEnds(s.world.tasks[x]));
      more := more + [TaskEnds(s.world.tasks[x])];
      RunSnoc(more, StopJoined);
      more := more + [StopJoined];
    }
  }

  // A stop can finish while an orphan keeps running.
  lemma {:induction false} StopFinishes(actions: seq<Action>, orphan: Task) returns (more: seq<Action>)
    requires
      var s := Run(actions);
      s.phase.Stopping? && !s.overlapped && orphan in s.world.running && orphan in s.world.orphans
    ensures actions <= more
    ensures
      var s, s' := Run(actions), Run(more);
      && s'.phase.Off? && !s'.overlapped && s'.world.tasks == map[] && s'.world.nextTask == s.world.nextTask
      && orphan in s'.world.running && s'.world.running[orphan] == s.world.running[orphan]
    decreases |Run(actions).phase.rest|
  {
    var s := Run(actions);
    RunKeepsInv(actions);
    if s.phase.rest == [] {
      RunSnoc(actions, StopDone);
      more := actions + [StopDone];
    } else {
      var next := StopsOne(actions);
      more := StopFinishes(next, orphan);
    }
  }

  // From a manager without a loop, to one that is off with an empty map and the
  // orphan still running.
  lemma ReachesEmptyMap(actions: seq<Action>, orphan: Task) returns (more: seq<Action>)
    requires
      var s := Run(actions);
      && (s.phase.Off? || s.phase == Ending(None)) && s.strays == [] && !s.overlapped
      && orphan in s.world.running && orphan in s.world.orphans
    ensures actions <= more
    ensures
      var s, s' := Run(actions), Run(more);
      && s'.phase.Off? && !s'.overlapped && s'.world.tasks == map[]
      && orphan in s'.world.running && s'.world.running[orphan] == s.world.running[orphan]
  {
    more := actions;
    if Run(actions).phase.Off? {
      RunSnoc(more, Stop(true));
      more := more + [Stop(true)];
    }
    var keys := Listing(Run(actions).world.tasks.Keys);
    RunSnoc(more, ListKeys(keys));
    more := more + [ListKeys(keys)];
    more := StopFinishes(more, orphan);
  }

  // A start relaunches the orphan's item beside it.
  lemma Relaunches(actions: seq<Action>, orphan: Task) returns (more: seq<Action>, u: Task)
    requires
      var s := Run(actions);
      s.phase.Off? && !s.overlapped && s.world.tasks == map[] && orphan in s.world.running
    ensures actions <= more && TwoRun(Run(more).world, Run(actions).world.running[orphan], orphan, u)
  {
    RunKeepsInv(actions);
    var w := Run(actions).world;
    var x := w.running[orphan];
    RunSnoc(actions, Start);
    more := actions + [Start];
    var moves := ReachesSpawning(w, x);
    more := Lifted(more, Current, moves);
    RunSnoc(more, Loop(Current, Launched));
    more := more + [Loop(Current, Launched)];
    u := w.nextTask;
  }

  // The item of the task under join.
  function JoinedItem(s: State): Item
    requires Joins(s).Some?
  {
    if s.phase.StopJoining? then s.phase.item else Sole(s).value.item
  }

  // A dropped join leaves its task an orphan, and no loop.
  lemma DroppedJoinOrphans(s: State, a: Action)
    requires Inv(s) && !s.overlapped && DropsJoin(s, a)
    ensures
      var s' := Step(s, a);
      && (s'.phase.Off? || s'.phase == Ending(None)) && s'.strays == [] && !s'.overlapped
      && s'.world.running == s.world.running
    ensures Joins(s).Some? && Joins(s).value in Step(s, a).world.orphans
    ensures Joins(s).value in s.world.running && s.world.running[Joins(s).value] == JoinedItem(s)
  {
    if a.StrayEnds? {
      assert s.strays[..0] + s.strays[1..] == [];
    }
  }

  // Every join dropped while its task runs can be followed by a start after
  // which the joined item has two running tasks.
  lemma DroppedJoinCanDuplicate(actions: seq<Action>, a: Action)
    requires !Run(actions).overlapped && DropsJoin(Run(actions), a)
    ensures exists more, u ::
      && actions + [a] <= more
      && Joins(Run(actions)).Some?
      && TwoRun(Run(more).world, JoinedItem(Run(actions)), Joins(Run(actions)).value, u)
  {
    RunKeepsInv(actions);
    var s := Run(actions);
    DroppedJoinOrphans(s, a);
    var t := Joins(s).value;
    RunSnoc(actions, a);
    var more := ReachesEmptyMap(actions + [a], t);
    var u;
    more, u := Relaunches(more, t);
    assert actions + [a] <= more && TwoRun(Run(more).world, JoinedItem(s), t, u);
  }

  // Both loops come to launch the same item of an empty map.
  lemma BothSpawning(actions: seq<Action>, x: Item) returns (more: seq<Action>)
    requires
      var s := Run(actions);
      s.phase == On(Collecting) && s.strays == [Collecting]
    ensures actions <= more
    ensures
      var s := Run(more);
      s.phase == On(Spawning([x], [], x)) && s.strays == [Spawning([x], [], x)] && s.world.tasks == map[]
  {
    var moves := EmptiesMap(Run(actions).world);
    more := Lifted(actions, Stray(0), moves);
    moves := ReachesSpawning(Run(more).world, x);
    more := Lifted(more, Stray(0), moves);
    moves := ReachesSpawning(Run(more).world, x);
    more := Lifted(more, Current, moves);
  }

  // A start beside a stray loop puts another loop beside it; so does a stop,
  // when it is dropped and a start follows.
  lemma StartsBeside(actions: seq<Action>, a: Action) returns (more: seq<Action>)
    requires !Run(actions).overlapped && Overlaps(Run(actions), a)
    ensures actions + [a] <= more && Run(more).phase == On(Collecting) && |Run(more).strays| == 1
  {
    RunKeepsInv(actions);
    RunSnoc(actions, a);
    more := actions + [a];
    if a.Stop? {
      RunSnoc(more, DropStop);
      more := more + [DropStop];
      RunSnoc(more, Start);
      more := more + [Start];
    }
  }

  lemma TwoLoopsCollect(actions: seq<Action>, a: Action) returns (more: seq<Action>)
    requires !Run(actions).overlapped && Overlaps(Run(actions), a)
    ensures actions + [a] <= more && Run(more).phase == On(Collecting) && Run(more).strays == [Collecting]
  {
    more := StartsBeside(actions, a);
    var moves := ReachesCollecting(Run(more).world, Run(more).strays[0]);
    more := Lifted(more, Stray(0), moves);
  }

  // Each of the two loops inserts a task for the item.
  lemma BothLaunch(actions: seq<Action>, x: Item) returns (more: seq<Action>)
    requires
      var s := Run(actions);
      s.phase == On(Spawning([x], [], x)) && s.strays == [Spawning([x], [], x)]
    ensures actions <= more
    ensures var n := Run(actions).world.nextTask; TwoRun(Run(more).world, x, n, n + 1)
  {
    RunSnoc(actions, Loop(Stray(0), Launched));
    more := actions + [Loop(Stray(0), Launched)];
    RunSnoc(more, Loop(Current, Launched));
    more := more + [Loop(Current, Launched)];
  }

  // Every call that overlaps with a stray loop can lead to two running tasks
  // for an item, any item: one from each loop.
  lemma OverlapCanDuplicate(actions: seq<Action>, a: Action, x: Item)
    requires !Run(actions).overlapped && Overlaps(Run(actions), a)
    ensures exists more, t, u :: actions + [a] <= more && TwoRun(Run(more).world, x, t, u)
  {
    var more := TwoLoopsCollect(actions, a);
    more := BothSpawning(more, x);
    var n := Run(more).world.nextTask;
    more := BothLaunch(more, x);
    assert actions + [a] <= more && TwoRun(Run(more).world, x, n, n + 1);
  }

  // With an empty map, a pass that collects nobody parks.
  lemma ParksWithNone(w: World) returns (moves: seq<LoopMove>)
    requires w.tasks == map[]
    ensures LoopRun(w, Collecting, moves) == (w, Parked([]))
  {
    moves := [];
    LoopRunSnoc(w, Collecting, moves, Own(Collect([], [])));
    moves := moves + [Own(Collect([], []))];
    LoopRunSnoc(w, Collecting, moves, Own(ChooseNext));
    moves := moves + [Own(ChooseNext)];
    LoopRunSnoc(w, Collecting, moves, Own(RemoveNext));
    moves := moves + [Own(RemoveNext)];
    LoopRunSnoc(w, Collecting, moves, Own(LaunchNext));
    moves := moves + [Own(LaunchNext)];
  }

  // The current loop parks with nobody while the other comes to launch `x`.
  lemma OneParksOneSpawns(actions: seq<Action>, x: Item) returns (more: seq<Action>)
    requires
      var s := Run(actions);
      s.phase == On(Collecting) && s.strays == [Collecting]
    ensures actions <= more
    ensures Run(more).phase == On(Parked([])) && Run(more).strays == [Spawning([x], [], x)]
  {
    var moves := EmptiesMap(Run(actions).world);
    more := Lifted(actions, Stray(0), moves);
    moves := ParksWithNone(Run(more).world);
    more := Lifted(more, Current, moves);
    moves := ReachesSpawning(Run(more).world, x);
    more := Lifted(more, Stray(0), moves);
  }

  // And to a pass of the current loop that has collected nobody and ended with
  // an item, any item, in the map.
  lemma OverlapCanMissPeers(actions: seq<Action>, a: Action, x: Item)
    requires !Run(actions).overlapped && Overlaps(Run(actions), a)
    ensures exists more ::
      actions + [a] <= more && Run(more).phase == On(Parked([])) && x in Run(more).world.tasks
  {
    var more := TwoLoopsCollect(actions, a);
    more := OneParksOneSpawns(more, x);
    RunSnoc(more, Loop(Stray(0), Launched));
    more := more + [Loop(Stray(0), Launched)];
    assert actions + [a] <= more && Run(more).phase == On(Parked([])) && x in Run(more).world.tasks;
  }

  // ----- all of these are reachable -----

  // A loop parks with one task.
  lemma ParksWithOne(x: Item) returns (actions: seq<Action>)
    ensures Run(actions) == State(World(map[x := 0], map[0 := x], 1, {}), On(Parked([x])), [], false)
  {
    RunSnoc([], Start);
    actions := [] + [Start];
    var moves := ReachesSpawning(Init.world, x);
    actions := Lifted(actions, Current, moves);
    RunSnoc(actions, Loop(Current, Launched));
    actions := actions + [Loop(Current, Launched)];
    RunSnoc(actions, Loop(Current, LaunchNext));
    actions := actions + [Loop(Current, LaunchNext)];
  }

  // A parked loop wakes, collects nobody and has its one task to remove.
  lemma ChoosesTheOne(w: World, x: Item) returns (moves: seq<LoopMove>)
    requires w.tasks.Keys == {x}
    ensures LoopRun(w, Parked([x]), moves) == (w, Removing([], [x]))
  {
    var pc := Parked([x]);
    LoopRunSnoc(w, pc, [], Own(Wake));
    moves := [] + [Own(Wake)];
    LoopRunSnoc(w, pc, moves, Own(Collect([], [x])));
    moves := moves + [Own(Collect([], [x]))];
    LoopRunSnoc(w, pc, moves, Own(ChooseNext));
    moves := moves + [Own(ChooseNext)];
    LoopRunSnoc(w, pc, moves, Own(ChooseNext));
    moves := moves + [Own(ChooseNext)];
    assert Elements([x]) == {x};
    assert [x][1..] == [] && [] + [x] == [x];
  }

  // A loop comes to join its one task, which runs.
  lemma JoinsTheOne(x: Item) returns (actions: seq<Action>)
    ensures Run(actions) == State(World(map[], map[0 := x], 1, {}), On(Joining([], [], x, 0)), [], false)
  {
    actions := ParksWithOne(x);
    var moves := ChoosesTheOne(Run(actions).world, x);
    actions := Lifted(actions, Current, moves);
    RunSnoc(actions, Loop(Current, RemoveNext));
    actions := actions + [Loop(Current, RemoveNext)];
    assert map[x := 0] - {x} == map[] && [x][1..] == [];
  }

  // The abort of a suspended loop drops its join.
  lemma SuspendedJoinCanBeDropped()
    ensures exists actions :: !Run(actions).overlapped && DropsJoin(Run(actions), Stop(false))
  {
    var actions := JoinsTheOne(7);
    assert DropsJoin(Run(actions), Stop(false));
  }

  // So does the end of an aborted loop that was inside a poll.
  lemma PolledJoinCanBeDropped()
    ensures exists actions :: !Run(actions).overlapped && DropsJoin(Run(actions), LoopEnds)
  {
    var actions := JoinsTheOne(7);
    RunSnoc(actions, Stop(true));
    actions := actions + [Stop(true)];
    assert DropsJoin(Run(actions), LoopEnds);
  }

  // And of one gone astray.
  lemma StrayJoinCanBeDropped()
    ensures exists actions :: !Run(actions).overlapped && DropsJoin(Run(actions), StrayEnds(0))
  {
    var actions := JoinsTheOne(7);
    RunSnoc(actions, Stop(true));
    actions := actions + [Stop(true)];
    RunSnoc(actions, DropStop);
    actions := actions + [DropStop];
    assert DropsJoin(Run(actions), StrayEnds(0));
  }

  // A stop comes to join the one task.
  lemma StopJoinsTheOne(s: State, x: Item)
    requires s.phase == Ending(None) && s.world.tasks == map[x := 0]
    ensures
      var joining := Step(Step(s, ListKeys([x])), StopNext);
      joining.phase == StopJoining([], x, 0) && joining.world.running == s.world.running
    ensures Step(Step(s, ListKeys([x])), StopNext).overlapped == s.overlapped
  {
    assert Elements([x]) == {x} && s.world.tasks.Keys == {x} && [x][1..] == [];
  }

  // A dropped stop drops its own join.
  lemma StopJoinCanBeDropped()
    ensures exists actions :: !Run(actions).overlapped && DropsJoin(Run(actions), DropStop)
  {
    var actions := ParksWithOne(7);
    RunSnoc(actions, Stop(false));
    actions := actions + [Stop(false)];
    StopJoinsTheOne(Run(actions), 7);
    RunSnoc(actions, ListKeys([7]));
    actions := actions + [ListKeys([7])];
    RunSnoc(actions, StopNext);
    actions := actions + [StopNext];
    assert DropsJoin(Run(actions), DropStop);
  }

  // A call can overlap with a stray loop.
  lemma CallsCanOverlap(a: Action)
    requires a.Start? || a.Stop?
    ensures exists actions :: !Run(actions).overlapped && Overlaps(Run(actions), a)
  {
    var actions := ParksWithOne(7);
    RunSnoc(actions, Stop(true));
    actions := actions + [Stop(true)];
    RunSnoc(actions, DropStop);
    actions := actions + [DropStop];
    assert Overlaps(Run(actions), a);
  }
}
