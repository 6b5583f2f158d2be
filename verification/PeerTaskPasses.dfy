// What one pass of the peer task manager's loop does to the tasks it finds
// (rust/easytier-core/src/foundation/task.rs): finished tasks are replaced,
// running ones are kept, missing ones are launched.
module PeerTaskPasses {
  import opened Wrappers
  import opened Sequences
  import opened PeerTaskLoop

  // The pass since the latest collection: the world then, the items it brought,
  // those whose task had finished when the pass looked at it, and the tasks
  // that ended.
  datatype Pass = Pass(from: World, peers: seq<Item>, finished: set<Item>, ended: set<Task>)

  predicate LooksAtFinished(w: World, pc: Pc) {
    pc.Choosing? && pc.rest != [] && pc.rest[0] in w.tasks && w.tasks[pc.rest[0]] !in w.running
  }

  ghost function Watch(p: Pass, w: World, pc: Pc, move: LoopAction): Pass {
    match move
    case Collect(peers, _) => if pc.Collecting? then Pass(w, peers, {}, {}) else p
    case ChooseNext => if LooksAtFinished(w, pc) then p.(finished := p.finished + {pc.rest[0]}) else p
    case _ => p
  }

  ghost function WatchEnd(p: Pass, t: Task): Pass {
    p.(ended := p.ended + {t})
  }

  // ----- invariant -----

  // The pass keeps the task it found.
  predicate Spared(p: Pass, x: Item) {
    x in p.from.tasks && x in p.peers && x !in p.finished
  }

  // Tasks leave `running` by ending.
  ghost predicate EndsAreSeen(p: Pass, w: World) {
    && p.from.nextTask <= w.nextTask
    && (forall t :: t in p.from.running || p.from.nextTask <= t < w.nextTask ==> t in w.running || t in p.ended)
    && (forall t :: t in w.running && t < p.from.nextTask ==> t in p.from.running)
    && (forall x :: x in p.from.tasks ==> p.from.tasks[x] < p.from.nextTask)
  }

  ghost predicate ChoosingInv(p: Pass, w: World, rest: seq<Item>, removals: seq<Item>) {
    && w.tasks == p.from.tasks && w.nextTask == p.from.nextTask
    && (forall x :: x in removals ==> x in p.from.tasks && !Spared(p, x))
    && (forall x :: x in p.from.tasks && !Spared(p, x) ==> x in rest || x in removals)
    && (forall x :: x in p.finished ==> x in removals)
    && (forall x :: x in p.from.tasks && p.from.tasks[x] !in p.from.running ==> x in rest || x in p.finished)
  }

  // Tasks that had ended before the pass were seen.
  ghost predicate AllSeen(p: Pass) {
    && p.finished <= p.from.tasks.Keys
    && forall x :: x in p.from.tasks && p.from.tasks[x] !in p.from.running ==> x in p.finished
  }

  ghost predicate RemovingInv(p: Pass, w: World, rest: seq<Item>) {
    && w.nextTask == p.from.nextTask && AllSeen(p)
    && (forall x :: x in w.tasks ==> x in p.from.tasks && w.tasks[x] == p.from.tasks[x])
    && (forall x :: x in w.tasks && !Spared(p, x) ==> x in rest)
    && (forall x :: x in rest ==> !Spared(p, x))
    && (forall x :: Spared(p, x) ==> x in w.tasks)
  }

  ghost predicate LaunchingInv(p: Pass, w: World) {
    && AllSeen(p)
    && (forall x :: Spared(p, x) ==> x in w.tasks && w.tasks[x] == p.from.tasks[x])
    && (forall x :: x in w.tasks && !Spared(p, x) ==> p.from.nextTask <= w.tasks[x] < w.nextTask)
  }

  ghost predicate PassInv(p: Pass, w: World, pc: Pc) {
    pc.Collecting? ||
    (&& EndsAreSeen(p, w) && pc.peers == p.peers
     && match pc
        case Choosing(_, rest, removals) => ChoosingInv(p, w, rest, removals)
        case Removing(_, rest) => RemovingInv(p, w, rest)
        case Joining(_, rest, _, _) => RemovingInv(p, w, rest)
        case Launching(_, _) => LaunchingInv(p, w)
        case Spawning(_, _, _) => LaunchingInv(p, w)
        case Parked(_) => LaunchingInv(p, w)
        case Collecting => true)
  }

  lemma CollectKeeps(p: Pass, w: World, pc: Pc, peers: seq<Item>, keys: seq<Item>)
    requires PassInv(p, w, pc) && TasksInv(w, LoopJoins(pc))
    ensures
      var (w', pc') := LoopStep(w, pc, Collect(peers, keys));
      PassInv(Watch(p, w, pc, Collect(peers, keys)), w', pc')
  {
  }

  lemma ChooseKeeps(p: Pass, w: World, pc: Pc)
    requires PassInv(p, w, pc)
    ensures
      var (w', pc') := LoopStep(w, pc, ChooseNext);
      PassInv(Watch(p, w, pc, ChooseNext), w', pc')
  {
    if pc.Choosing? && pc.rest != [] {
      var x, rest := pc.rest[0], pc.rest[1..];
      var p' := Watch(p, w, pc, ChooseNext);
      assert forall y :: y in pc.rest ==> y == x || y in rest;
      assert forall y :: y != x ==> Spared(p', y) == Spared(p, y);
    }
  }

  lemma RemoveKeeps(p: Pass, w: World, pc: Pc, a: LoopAction)
    requires PassInv(p, w, pc) && (a.RemoveNext? || a.Joined?)
    ensures
      var (w', pc') := LoopStep(w, pc, a);
      PassInv(p, w', pc')
  {
    if pc.Removing? && pc.rest != [] {
      assert forall y :: y in pc.rest ==> y == pc.rest[0] || y in pc.rest[1..];
      assert pc.rest[0] in pc.rest;
    }
  }

  lemma LaunchKeeps(p: Pass, w: World, pc: Pc, a: LoopAction)
    requires PassInv(p, w, pc) && LoopInv(w, pc) && (a.LaunchNext? || a.Launched? || a.Wake?)
    ensures
      var (w', pc') := LoopStep(w, pc, a);
      PassInv(p, w', pc')
  {
  }

  lemma WatchKeeps(p: Pass, w: World, pc: Pc, a: LoopAction)
    requires PassInv(p, w, pc) && TasksInv(w, LoopJoins(pc)) && LoopInv(w, pc)
    ensures
      var (w', pc') := LoopStep(w, pc, a);
      PassInv(Watch(p, w, pc, a), w', pc')
  {
    match a
    case Collect(peers, keys) => CollectKeeps(p, w, pc, peers, keys);
    case ChooseNext => ChooseKeeps(p, w, pc);
    case RemoveNext => RemoveKeeps(p, w, pc, a);
    case Joined => RemoveKeeps(p, w, pc, a);
    case LaunchNext => LaunchKeeps(p, w, pc, a);
    case Launched => LaunchKeeps(p, w, pc, a);
    case Wake => LaunchKeeps(p, w, pc, a);
  }

  lemma EndKeeps(p: Pass, w: World, pc: Pc, t: Task)
    requires PassInv(p, w, pc)
    ensures PassInv(WatchEnd(p, t), w.(running := w.running - {t}), pc)
  {
  }

  // ----- every run of the manager -----

  // The pass of the loop that lives.
  ghost function PassOf(actions: seq<Action>): Pass
    decreases |actions|
  {
    if actions == [] then Pass(Init.world, [], {}, {})
    else
      var s, p := Run(actions[..|actions| - 1]), PassOf(actions[..|actions| - 1]);
      match actions[|actions| - 1]
      case Loop(who, move) => if PcOf(s, who).Some? then Watch(p, s.world, PcOf(s, who).value, move) else p
      case TaskEnds(t) => WatchEnd(p, t)
      case _ => p
  }

  // The collected items of a pass that has come to its wait: each has the task
  // the pass found running, or one launched in the pass; a task that had ended
  // before the pass is always replaced; and what does not run ended meanwhile.
  ghost predicate Reconciled(p: Pass, w: World) {
    && w.tasks.Keys == Elements(p.peers)
    && (forall x :: x in p.from.tasks && p.from.tasks[x] !in p.from.running ==> x in p.finished)
    && (forall x :: x in w.tasks ==>
          && (if x in p.from.tasks && x !in p.finished then w.tasks[x] == p.from.tasks[x]
              else p.from.nextTask <= w.tasks[x] < w.nextTask)
          && (w.tasks[x] in w.running || w.tasks[x] in p.ended))
  }

  lemma ParkedIsReconciled(p: Pass, w: World, peers: seq<Item>)
    requires PassInv(p, w, Parked(peers)) && LoopInv(w, Parked(peers))
    ensures Reconciled(p, w)
  {
    assert forall x :: x in w.tasks ==> x in Elements(p.peers);
  }

  ghost predicate SolePassInv(s: State, p: Pass) {
    !s.overlapped && Sole(s).Some? ==> PassInv(p, s.world, Sole(s).value)
  }

  lemma StepKeepsPass(s: State, p: Pass, a: Action)
    requires Inv(s) && SolePassInv(s, p) && !a.Loop? && !a.TaskEnds?
    ensures SolePassInv(Step(s, a), p)
  {
  }

  lemma LoopKeepsPass(s: State, p: Pass, who: Who, move: LoopAction)
    requires Inv(s) && SolePassInv(s, p) && PcOf(s, who).Some?
    ensures SolePassInv(Step(s, Loop(who, move)), Watch(p, s.world, PcOf(s, who).value, move))
  {
    if !s.overlapped {
      assert PcOf(s, who) == Sole(s);
      WatchKeeps(p, s.world, PcOf(s, who).value, move);
    }
  }

  lemma {:induction false} RunKeepsPass(actions: seq<Action>)
    ensures SolePassInv(Run(actions), PassOf(actions))
    decreases |actions|
  {
    if actions != [] {
      var prefix, a := actions[..|actions| - 1], actions[|actions| - 1];
      var s, p := Run(prefix), PassOf(prefix);
      RunKeepsPass(prefix);
      RunKeepsInv(prefix);
      match a
      case Loop(who, move) =>
        if PcOf(s, who).Some? {
          LoopKeepsPass(s, p, who, move);
        }
      case TaskEnds(t) =>
        if Sole(s).Some? && !s.overlapped {
          EndKeeps(p, s.world, Sole(s).value, t);
        }
      case _ => StepKeepsPass(s, p, a);
    }
  }

  // In every run, until a call overlaps with a stray loop, every pass
  // reconciles the tasks with the collected items, whatever ends meanwhile.
  lemma PassReconciles(actions: seq<Action>)
    requires NoOverlap(actions) && Run(actions).phase.On? && Run(actions).phase.pc.Parked?
    ensures Reconciled(PassOf(actions), Run(actions).world)
  {
    OverlapsAreCalls(actions);
    RunKeepsInv(actions);
    RunKeepsPass(actions);
    ParkedIsReconciled(PassOf(actions), Run(actions).world, Run(actions).phase.pc.peers);
  }

  // ----- one loop by itself -----

  ghost function LoopPass(w: World, pc: Pc, moves: seq<LoopMove>): Pass
    decreases |moves|
  {
    if moves == [] then Pass(w, [], {}, {})
    else
      var (w', pc') := LoopRun(w, pc, moves[..|moves| - 1]);
      var p := LoopPass(w, pc, moves[..|moves| - 1]);
      match moves[|moves| - 1]
      case Own(move) => Watch(p, w', pc', move)
      case Ends(t) => WatchEnd(p, t)
  }

  lemma {:induction false} LoopRunKeepsPass(w: World, moves: seq<LoopMove>)
    requires TasksInv(w, None)
    ensures
      var (w', pc') := LoopRun(w, Collecting, moves);
      PassInv(LoopPass(w, Collecting, moves), w', pc')
    decreases |moves|
  {
    if moves != [] {
      var prefix := moves[..|moves| - 1];
      var (w', pc') := LoopRun(w, Collecting, prefix);
      var p := LoopPass(w, Collecting, prefix);
      LoopRunKeepsPass(w, prefix);
      LoopRunKeepsInv(w, Collecting, prefix);
      match moves[|moves| - 1]
      case Own(move) => WatchKeeps(p, w', pc', move);
      case Ends(t) => EndKeeps(p, w', pc', t);
    }
  }

  // The same for any steps of one loop from a collection to a wait.
  lemma LoopRunReconciles(w: World, moves: seq<LoopMove>)
    requires TasksInv(w, None) && LoopRun(w, Collecting, moves).1.Parked?
    ensures Reconciled(LoopPass(w, Collecting, moves), LoopRun(w, Collecting, moves).0)
  {
    var (w', pc') := LoopRun(w, Collecting, moves);
    LoopRunKeepsInv(w, Collecting, moves);
    LoopRunKeepsPass(w, moves);
    ParkedIsReconciled(LoopPass(w, Collecting, moves), w', pc'.peers);
  }
}
