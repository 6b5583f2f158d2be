// The external wake-up of the peer task loop
// (rust/easytier-core/src/foundation/task.rs), as the interleaving of any
// number of notifiers with the loop. A notify is two steps, the version bump
// and the wake of the futures that exist by then; the version is a u64 that
// wraps.
module PeerTaskSignal {
  const VERSIONS: nat := 0x1_0000_0000_0000_0000

  type Tid = nat

  datatype LoopPc =
    | Stopped
    | Recorded       // before a collection
    | Collecting     // collecting peers and reconciling
    | Armed          // the notified future exists, version not yet compared
    | Parked         // in select!

  datatype Action =
    | StartLoop
    | StopLoop
    | BeginCollect
    | CreateNotified
    | CompareVersion
    | WakeByTimer           // sleep elapsed or run_signal
    | WakeByNotified
    | Bump                  // notify: fetch_add
    | NotifyWaiters         // notify: notify_waiters

  // `count` numbers the bumps; the atomic holds it modulo 2^64. A notifier
  // between its two steps is in `bumped`, with the number of its bump.
  datatype State = State(
    count: nat,
    recorded: nat,
    loop: LoopPc,
    wake: bool,
    bumped: map<Tid, nat>,
    // history
    recordedCount: nat,     // bumps when the version was recorded
    collectCount: nat,      // bumps when the last collection began
    comparedCount: nat,     // bumps when the version was last compared
    completed: set<nat>     // notifies that have returned
  )

  const Init := State(0, 0, Stopped, false, map[], 0, 0, 0, {})

  function Version(s: State): nat {
    s.count % VERSIONS
  }

  function Record(s: State): State {
    s.(recorded := Version(s), recordedCount := s.count, loop := Recorded)
  }

  // One step; an action that is not possible changes nothing. `t` is the
  // notifier of Bump and NotifyWaiters.
  function Step(s: State, t: Tid, a: Action): State {
    match a
    case StartLoop => if s.loop.Stopped? then Record(s) else s
    case StopLoop => s.(loop := Stopped, wake := false)
    case BeginCollect =>
      if s.loop.Recorded? then s.(loop := Collecting, collectCount := s.count) else s
    case CreateNotified => if s.loop.Collecting? then s.(loop := Armed, wake := false) else s
    case CompareVersion =>
      if !s.loop.Armed? then s
      else if s.recorded != Version(s) then Record(s)
      else s.(loop := Parked, comparedCount := s.count)
    case WakeByTimer => if s.loop.Parked? then s.(loop := Recorded) else s
    case WakeByNotified => if s.loop.Parked? && s.wake then Record(s) else s
    case Bump =>
      if t in s.bumped then s else s.(count := s.count + 1, bumped := s.bumped[t := s.count + 1])
    case NotifyWaiters =>
      if t !in s.bumped then s
      else
        s.(bumped := s.bumped - {t}, completed := s.completed + {s.bumped[t]},
           wake := s.wake || s.loop.Armed? || s.loop.Parked?)
  }

  datatype Move = Move(thread: Tid, action: Action)

  ghost function Run(moves: seq<Move>): State
    decreases |moves|
  {
    if moves == [] then Init
    else
      var m := moves[|moves| - 1];
      Step(Run(moves[..|moves| - 1]), m.thread, m.action)
  }

  ghost predicate Inv(s: State) {
    && (forall t :: t in s.bumped ==> s.bumped[t] <= s.count)
    && (forall n :: n in s.completed ==> n <= s.count)
    && (!s.loop.Stopped? ==> s.recordedCount <= s.count && s.recorded == s.recordedCount % VERSIONS)
    && (s.loop.Collecting? || s.loop.Armed? || s.loop.Parked? ==>
          s.recordedCount <= s.collectCount <= s.count)
    && (s.loop.Parked? ==>
          && s.collectCount <= s.comparedCount <= s.count
          && s.comparedCount % VERSIONS == s.recorded
          && (!s.wake ==> forall n :: n in s.completed ==> n <= s.comparedCount))
  }

  lemma StepKeepsInv(s: State, t: Tid, a: Action)
    requires Inv(s)
    ensures Inv(Step(s, t, a))
  {
  }

  lemma {:induction false} RunKeepsInv(moves: seq<Move>)
    ensures Inv(Run(moves))
    decreases |moves|
  {
    if moves != [] {
      var m := moves[|moves| - 1];
      RunKeepsInv(moves[..|moves| - 1]);
      StepKeepsInv(Run(moves[..|moves| - 1]), m.thread, m.action);
    }
  }

  // Every notify that has returned came before the start of a collection.
  ghost predicate AllCollected(s: State) {
    forall n :: n in s.completed ==> n <= s.collectCount
  }

  lemma CongruentCountsAreEqual(a: nat, b: nat)
    requires a <= b < a + VERSIONS && a % VERSIONS == b % VERSIONS
    ensures a == b
  {
  }

  // Whenever the loop is parked with no wake pending, no notify is lost: unless
  // a full 2^64 bumps came between recording the version and comparing it.
  lemma NoNotifyLost(moves: seq<Move>)
    requires
      var s := Run(moves);
      s.loop.Parked? && !s.wake && s.comparedCount < s.recordedCount + VERSIONS
    ensures AllCollected(Run(moves))
    ensures Run(moves).comparedCount == Run(moves).recordedCount
  {
    RunKeepsInv(moves);
    var s := Run(moves);
    CongruentCountsAreEqual(s.recordedCount, s.comparedCount);
  }

  // A loop about to compare versions parks if and only if the bumps since it
  // recorded the version are a multiple of 2^64, so on notifies its collection
  // has not seen only if there were that many; otherwise it collects again at
  // once.
  lemma ParksOnUnseenIff(moves: seq<Move>)
    requires Run(moves).loop.Armed?
    ensures
      var s := Run(moves);
      var next := Step(s, 0, CompareVersion);
      && s.recordedCount <= s.collectCount <= s.count
      && (next.loop.Parked? <==> (s.count - s.recordedCount) % VERSIONS == 0)
      && (!next.loop.Parked? ==> next.loop.Recorded?)
  {
    RunKeepsInv(moves);
    var s := Run(moves);
    CongruentIffMultiple(s.recordedCount, s.count);
  }

  lemma CongruentIffMultiple(a: nat, b: nat)
    requires a <= b
    ensures a % VERSIONS == b % VERSIONS <==> (b - a) % VERSIONS == 0
  {
  }

  // A parked loop that wakes, by a pending wake or by its timer, goes on to a
  // collection that begins after every finished notify.
  lemma WakeLeadsToCollection(moves: seq<Move>, a: Action)
    requires Run(moves).loop.Parked? && ((a.WakeByNotified? && Run(moves).wake) || a.WakeByTimer?)
    ensures
      var collecting := Step(Step(Run(moves), 0, a), 0, BeginCollect);
      collecting.loop.Collecting? && AllCollected(collecting)
  {
    RunKeepsInv(moves);
  }

  // Some notify has reached its wake since the loop made its future.
  ghost predicate NotifiedSinceArmed(moves: seq<Move>)
    decreases |moves|
  {
    moves != [] &&
    var before, m := moves[..|moves| - 1], moves[|moves| - 1];
    if m.action.CreateNotified? && Run(before).loop.Collecting? then false
    else NotifiedSinceArmed(before) || (m.action.NotifyWaiters? && m.thread in Run(before).bumped)
  }

  // And nothing else wakes it: a wake is pending exactly if a notify came since.
  lemma {:induction false} WakePendingIffNotified(moves: seq<Move>)
    ensures Run(moves).loop.Armed? || Run(moves).loop.Parked? ==> (Run(moves).wake <==> NotifiedSinceArmed(moves))
    decreases |moves|
  {
    if moves != [] {
      WakePendingIffNotified(moves[..|moves| - 1]);
    }
  }

  // The bumps when the version was last recorded: at a start, at a comparison
  // that finds it changed, and on a notified wake, but not on the timer's.
  ghost function RecordedAt(moves: seq<Move>): nat
    decreases |moves|
  {
    if moves == [] then 0
    else
      var before, m := moves[..|moves| - 1], moves[|moves| - 1];
      var s := Run(before);
      if || (m.action.StartLoop? && s.loop.Stopped?)
         || (m.action.CompareVersion? && s.loop.Armed? && s.recorded != Version(s))
         || (m.action.WakeByNotified? && s.loop.Parked? && s.wake)
      then s.count
      else RecordedAt(before)
  }

  lemma {:induction false} VersionIsAsRecorded(moves: seq<Move>)
    ensures Run(moves).recordedCount == RecordedAt(moves) && Run(moves).recorded == RecordedAt(moves) % VERSIONS
    decreases |moves|
  {
    if moves != [] {
      VersionIsAsRecorded(moves[..|moves| - 1]);
    }
  }

  lemma RunSnoc(moves: seq<Move>, m: Move)
    ensures Run(moves + [m]) == Step(Run(moves), m.thread, m.action)
  {
    assert (moves + [m])[..|moves|] == moves;
  }

  // `n` complete notifies while the loop collects.
  lemma {:induction false} NotifyWhileCollecting(moves: seq<Move>, n: nat) returns (moves': seq<Move>)
    requires Run(moves).loop.Collecting? && Run(moves).bumped == map[]
    ensures
      var s, s' := Run(moves), Run(moves');
      && s' == s.(count := s.count + n, completed := s'.completed)
      && (n > 0 ==> s.count + n in s'.completed)
    decreases n
  {
    if n == 0 {
      moves' := moves;
    } else {
      moves' := NotifyWhileCollecting(moves, n - 1);
      var before := Run(moves');
      RunSnoc(moves', Move(1, Bump));
      moves' := moves' + [Move(1, Bump)];
      RunSnoc(moves', Move(1, NotifyWaiters));
      moves' := moves' + [Move(1, NotifyWaiters)];
      assert Run(moves').bumped == map[];
    }
  }

  // 2^64 notifies during one collection are lost: the loop parks on them.
  lemma WrappedVersionLosesNotifies()
    ensures exists moves :: Run(moves).loop.Parked? && !Run(moves).wake && !AllCollected(Run(moves))
  {
    var moves: seq<Move> := [];
    RunSnoc(moves, Move(0, StartLoop));
    moves := moves + [Move(0, StartLoop)];
    RunSnoc(moves, Move(0, BeginCollect));
    moves := moves + [Move(0, BeginCollect)];
    moves := NotifyWhileCollecting(moves, VERSIONS);
    RunSnoc(moves, Move(0, CreateNotified));
    moves := moves + [Move(0, CreateNotified)];
    RunSnoc(moves, Move(0, CompareVersion));
    moves := moves + [Move(0, CompareVersion)];
    assert VERSIONS in Run(moves).completed;
  }
}
