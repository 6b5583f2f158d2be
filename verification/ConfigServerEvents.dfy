// Which events a config-server client's hooks deliver
// (rust/easytier-contrib/easytier-ffi/src/config_server.rs): what each thread's
// calls owe, told from the schedule, and what they have sent.
module ConfigServerEvents {
  import opened Wrappers
  import opened ConfigServerHooks

  function Deletes(ids: seq<Id>): (r: seq<Event>)
    ensures |r| == |ids|
  {
    if ids == [] then [] else [DeleteInstance(ids[0])] + Deletes(ids[1..])
  }

  // ----- what calls owe and what was sent -----

  // The events a move makes due: one for an instance whose name was found
  // valid, one for each tracked instance a removal takes out, in its order.
  function Due(s: State, m: Move): seq<Event> {
    var pc := PcOf(s, m.thread);
    match m.action
    case Validate(valid) => if pc.RunInserted? && valid then [RunInstance(pc.id)] else []
    case PostRemove(ids) => if pc.Idle? then Deletes(RemovedFrom(s.tracked, ids)) else []
    case _ => []
  }

  ghost function Owed(hasCallback: bool, moves: seq<Move>, t: Tid): seq<Event>
    decreases |moves|
  {
    if moves == [] then []
    else
      var before, m := moves[..|moves| - 1], moves[|moves| - 1];
      if m.thread == t then Owed(hasCallback, before, t) + Due(Run(Init(hasCallback), before), m)
      else Owed(hasCallback, before, t)
  }

  // What a step adds to the events.
  ghost function Delivered(s: State, m: Move): seq<Event> {
    var events := Step(s, m.thread, m.action).events;
    if s.events <= events then events[|s.events|..] else []
  }

  ghost function Sent(hasCallback: bool, moves: seq<Move>, t: Tid): seq<Event>
    decreases |moves|
  {
    if moves == [] then []
    else
      var before, m := moves[..|moves| - 1], moves[|moves| - 1];
      if m.thread == t then Sent(hasCallback, before, t) + Delivered(Run(Init(hasCallback), before), m)
      else Sent(hasCallback, before, t)
  }

  // What a thread still has to send.
  function Pending(pc: Pc): seq<Event> {
    match pc
    case RunValidated(id) => [RunInstance(id)]
    case InCallback(rest) => Deletes(rest)
    case DeleteWaiting(rest) => Deletes(rest)
    case DeleteLocked(rest) => Deletes(rest)
    case Releasing(rest) => Deletes(rest)
    case _ => []
  }

  lemma OnlyEmitDelivers(s: State, m: Move)
    requires !m.action.Emit?
    ensures Step(s, m.thread, m.action).events == s.events && Delivered(s, m) == []
  {
  }

  lemma EmitSettles(s: State, m: Move)
    requires s.hasCallback && !s.stopping && m.action.Emit?
    ensures
      var s' := Step(s, m.thread, m.action);
      Pending(PcOf(s, m.thread)) == Delivered(s, m) + Pending(PcOf(s', m.thread))
  {
    var pc := PcOf(s, m.thread);
    if pc.RunValidated? {
      assert Delivered(s, m) == [RunInstance(pc.id)];
    } else if pc.DeleteLocked? && pc.rest != [] {
      assert Delivered(s, m) == [DeleteInstance(pc.rest[0])];
    }
  }

  // The calls that make events due, and the moves that keep what is pending.
  lemma DueIsPending(s: State, m: Move)
    requires m.action.Validate? || m.action.PostRemove?
    ensures
      var s' := Step(s, m.thread, m.action);
      Pending(PcOf(s, m.thread)) + Due(s, m) == Pending(PcOf(s', m.thread))
  {
    var pc := PcOf(s, m.thread);
    if m.action.Validate? && pc.RunInserted? {
      assert Pending(pc) == [];
    } else if m.action.PostRemove? && pc.Idle? {
      assert Pending(pc) == [];
    } else {
      assert Due(s, m) == [];
    }
  }

  lemma LockingKeepsPending(s: State, m: Move)
    requires m.action.AcquireDelivery? || m.action.CallbackReturns? || m.action.Release?
    ensures Pending(PcOf(Step(s, m.thread, m.action), m.thread)) == Pending(PcOf(s, m.thread))
  {
  }

  lemma OthersKeepPending(s: State, m: Move)
    requires !Step(s, m.thread, m.action).stopping
    requires !m.action.Emit? && !m.action.Validate? && !m.action.PostRemove?
    ensures Pending(PcOf(Step(s, m.thread, m.action), m.thread)) == Pending(PcOf(s, m.thread))
  {
    if m.action.AcquireDelivery? || m.action.CallbackReturns? || m.action.Release? {
      LockingKeepsPending(s, m);
    }
  }

  // One step, while nothing is stopped: what was pending or became due is sent
  // or pending.
  lemma StepSettles(s: State, m: Move)
    requires s.hasCallback && !s.stopping && !Step(s, m.thread, m.action).stopping
    ensures
      var s' := Step(s, m.thread, m.action);
      Pending(PcOf(s, m.thread)) + Due(s, m) == Delivered(s, m) + Pending(PcOf(s', m.thread))
  {
    if m.action.Emit? {
      EmitSettles(s, m);
    } else {
      OnlyEmitDelivers(s, m);
      if m.action.Validate? || m.action.PostRemove? {
        DueIsPending(s, m);
      } else {
        OthersKeepPending(s, m);
      }
    }
  }

  // Stopped or without a callback nothing is sent.
  lemma NothingSent(s: State, m: Move)
    requires s.stopping || !s.hasCallback
    ensures Delivered(s, m) == []
  {
    assert Step(s, m.thread, m.action).events == s.events;
  }

  lemma StopSendsNothing(s: State, m: Move)
    requires Step(s, m.thread, m.action).stopping && !s.stopping
    ensures Delivered(s, m) == [] && Due(s, m) == []
  {
    assert Step(s, m.thread, m.action).events == s.events;
  }

  // A stop is for good, and the callback stays as it is.
  lemma StepFlags(s: State, m: Move)
    ensures Step(s, m.thread, m.action).stopping == (s.stopping || IsStop(s, m.thread, m.action))
    ensures Step(s, m.thread, m.action).hasCallback == s.hasCallback
  {
  }

  // What thread `t` has sent of what it owes, in state `s`.
  ghost predicate SentOfOwed(s: State, t: Tid, sent: seq<Event>, owed: seq<Event>) {
    && sent <= owed
    && (s.hasCallback && !s.stopping ==> owed == sent + Pending(PcOf(s, t)))
    && (!s.hasCallback ==> sent == [])
  }

  lemma OtherMoveKeeps(s: State, m: Move, t: Tid, sent: seq<Event>, owed: seq<Event>)
    requires SentOfOwed(s, t, sent, owed) && m.thread != t
    ensures SentOfOwed(Step(s, m.thread, m.action), t, sent, owed)
  {
    StepIsLocal(s, m.thread, m.action, t);
    StepFlags(s, m);
  }

  lemma OwnMoveKeeps(s: State, m: Move, sent: seq<Event>, owed: seq<Event>)
    requires SentOfOwed(s, m.thread, sent, owed)
    ensures SentOfOwed(Step(s, m.thread, m.action), m.thread, sent + Delivered(s, m), owed + Due(s, m))
  {
    var s' := Step(s, m.thread, m.action);
    StepFlags(s, m);
    if s.stopping || !s.hasCallback {
      NothingSent(s, m);
    } else if s'.stopping {
      StopSendsNothing(s, m);
    } else {
      StepSettles(s, m);
      Regroup(sent, Pending(PcOf(s, m.thread)), Due(s, m), Delivered(s, m), Pending(PcOf(s', m.thread)));
    }
  }

  lemma Regroup(sent: seq<Event>, pending: seq<Event>, due: seq<Event>, delivered: seq<Event>, left: seq<Event>)
    requires pending + due == delivered + left
    ensures sent + pending + due == sent + delivered + left
  {
    assert sent + pending + due == sent + (pending + due);
    assert sent + delivered + left == sent + (delivered + left);
  }

  // In every interleaving a thread sends the events its calls owe, each once
  // and in order: with a callback all of them until the stop, and none after;
  // without one none.
  lemma {:induction false} EventsAreThoseOwed(hasCallback: bool, moves: seq<Move>, t: Tid)
    ensures SentOfOwed(Run(Init(hasCallback), moves), t, Sent(hasCallback, moves, t), Owed(hasCallback, moves, t))
    ensures Run(Init(hasCallback), moves).hasCallback == hasCallback
    decreases |moves|
  {
    if moves != [] {
      var before, m := moves[..|moves| - 1], moves[|moves| - 1];
      var s := Run(Init(hasCallback), before);
      EventsAreThoseOwed(hasCallback, before, t);
      StepFlags(s, m);
      if m.thread == t {
        OwnMoveKeeps(s, m, Sent(hasCallback, before, t), Owed(hasCallback, before, t));
      } else {
        OtherMoveKeeps(s, m, t, Sent(hasCallback, before, t), Owed(hasCallback, before, t));
      }
    }
  }

  // ----- what is tracked -----

  // What a move means for `id`: tracked from its insert until a removal, a
  // failed validation or the stop.
  function Tracks(tracked: bool, s: State, m: Move, id: Id): bool {
    var pc := PcOf(s, m.thread);
    match m.action
    case Insert => tracked || pc == RunChecked(id)
    case PostRemove(ids) => tracked && !(pc.Idle? && id in ids)
    case RemoveTracked(ids) => tracked && id !in ids
    case Validate(valid) => tracked && !(pc == RunInserted(id) && !valid)
    case _ => tracked && !IsStop(s, m.thread, m.action)
  }

  ghost predicate ShouldTrack(hasCallback: bool, moves: seq<Move>, id: Id)
    decreases |moves|
  {
    moves != [] &&
    var before, m := moves[..|moves| - 1], moves[|moves| - 1];
    Tracks(ShouldTrack(hasCallback, before, id), Run(Init(hasCallback), before), m, id)
  }

  lemma StepTracks(s: State, m: Move, id: Id)
    ensures id in Step(s, m.thread, m.action).tracked <==> Tracks(id in s.tracked, s, m, id)
  {
    match m.action
    case PostRemove(ids) => RemovalIsOnce(s.tracked, ids);
    case RemoveTracked(ids) => RemovalIsOnce(s.tracked, ids);
    case Validate(_) =>
      if PcOf(s, m.thread).RunInserted? {
        RemovalIsOnce(s.tracked, [PcOf(s, m.thread).id]);
      }
    case _ =>
  }

  // In every interleaving the tracked set is exactly what the schedule leaves,
  // and the hooks are stopped exactly if some call has drained them.
  lemma {:induction false} TrackedFollowsSchedule(hasCallback: bool, moves: seq<Move>, id: Id)
    ensures id in Run(Init(hasCallback), moves).tracked <==> ShouldTrack(hasCallback, moves, id)
    decreases |moves|
  {
    if moves != [] {
      TrackedFollowsSchedule(hasCallback, moves[..|moves| - 1], id);
      StepTracks(Run(Init(hasCallback), moves[..|moves| - 1]), moves[|moves| - 1], id);
    }
  }

  // ----- calls nothing interferes with -----

  lemma {:induction false} RunConcat(s: State, a: seq<Move>, b: seq<Move>)
    ensures Run(s, a + b) == Run(Run(s, a), b)
    decreases |b|
  {
    if b == [] {
      assert a + b == a;
    } else {
      assert (a + b)[..|a + b| - 1] == a + b[..|b| - 1];
      RunConcat(s, a, b[..|b| - 1]);
    }
  }

  lemma RunTwo(s: State, t: Tid, a: Action, b: Action)
    ensures Run(s, [Move(t, a), Move(t, b)]) == Step(Step(s, t, a), t, b)
  {
    var moves := [Move(t, a), Move(t, b)];
    assert moves[..1] == [Move(t, a)] && moves[..1][..0] == [];
    assert Run(s, [Move(t, a)]) == Step(Run(s, []), t, a);
  }

  // The moves of post_run_network_instance up to its event.
  function BeginRun(t: Tid, id: Id): seq<Move> {
    [Move(t, PostRun(id)), Move(t, AcquireDelivery)]
  }

  function CheckRun(t: Tid): seq<Move> {
    [Move(t, CheckStopping(true)), Move(t, Insert)]
  }

  function ValidateRun(t: Tid): seq<Move> {
    [Move(t, Validate(true)), Move(t, Emit)]
  }

  // And after an event: the callback returns and the lock is dropped.
  function EndDelivery(t: Tid): seq<Move> {
    [Move(t, CallbackReturns), Move(t, Release)]
  }

  // Hooks that deliver.
  predicate Delivering(s: State) {
    !s.stopping && s.hasCallback
  }

  // A thread at `pc` with the lock, and what is tracked and was delivered.
  predicate Inside(s: State, t: Tid, pc: Pc, tracked: set<Id>, events: seq<Event>) {
    && Delivering(s) && s.delivery == Some(t) && PcOf(s, t) == pc
    && s.tracked == tracked && s.events == events
  }

  predicate Outside(s: State, t: Tid, pc: Pc, tracked: set<Id>, events: seq<Event>) {
    && Delivering(s) && s.delivery.None? && PcOf(s, t) == pc
    && s.tracked == tracked && s.events == events
  }

  lemma BeginsRun(s: State, t: Tid, id: Id)
    requires Outside(s, t, Idle, s.tracked, s.events)
    ensures Inside(Run(s, BeginRun(t, id)), t, RunLocked(id), s.tracked, s.events)
  {
    RunTwo(s, t, PostRun(id), AcquireDelivery);
    assert PcOf(Step(s, t, PostRun(id)), t) == RunWaiting(id);
  }

  lemma ChecksRun(s: State, t: Tid, id: Id)
    requires Inside(s, t, RunLocked(id), s.tracked, s.events)
    ensures Inside(Run(s, CheckRun(t)), t, RunInserted(id), s.tracked + {id}, s.events)
  {
    RunTwo(s, t, CheckStopping(true), Insert);
    assert PcOf(Step(s, t, CheckStopping(true)), t) == RunChecked(id);
  }

  lemma ValidatesRun(s: State, t: Tid, id: Id)
    requires Inside(s, t, RunInserted(id), s.tracked, s.events)
    ensures Inside(Run(s, ValidateRun(t)), t, InCallback([]), s.tracked, s.events + [RunInstance(id)])
  {
    RunTwo(s, t, Validate(true), Emit);
    assert PcOf(Step(s, t, Validate(true)), t) == RunValidated(id);
  }

  lemma EndsDelivery(s: State, t: Tid, rest: seq<Id>)
    requires Inside(s, t, InCallback(rest), s.tracked, s.events)
    ensures Outside(Run(s, EndDelivery(t)), t, AfterEvent(rest), s.tracked, s.events)
  {
    RunTwo(s, t, CallbackReturns, Release);
    assert PcOf(Step(s, t, CallbackReturns), t) == Releasing(rest);
  }

  function PostRunMoves(t: Tid, id: Id): seq<Move> {
    BeginRun(t, id) + CheckRun(t) + ValidateRun(t) + EndDelivery(t)
  }

  // post_run_network_instance tracks the instance and delivers its run event.
  lemma PostRunDelivers(s: State, t: Tid, id: Id)
    requires Outside(s, t, Idle, s.tracked, s.events)
    ensures Outside(Run(s, PostRunMoves(t, id)), t, Idle, s.tracked + {id}, s.events + [RunInstance(id)])
  {
    BeginsRun(s, t, id);
    RunConcat(s, BeginRun(t, id), CheckRun(t));
    ChecksRun(Run(s, BeginRun(t, id)), t, id);
    RunConcat(s, BeginRun(t, id) + CheckRun(t), ValidateRun(t));
    ValidatesRun(Run(s, BeginRun(t, id) + CheckRun(t)), t, id);
    RunConcat(s, BeginRun(t, id) + CheckRun(t) + ValidateRun(t), EndDelivery(t));
    EndsDelivery(Run(s, BeginRun(t, id) + CheckRun(t) + ValidateRun(t)), t, []);
  }

  // For an instance that is not found, or once stopped, it does nothing.
  lemma RefusedRunDoesNothing(s: State, t: Tid, id: Id, found: bool)
    requires PcOf(s, t).Idle? && s.delivery.None? && (s.stopping || !found)
    ensures
      var s' := Run(s, BeginRun(t, id) + [Move(t, CheckStopping(found)), Move(t, Release)]);
      PcOf(s', t).Idle? && s'.delivery.None? && s'.tracked == s.tracked && s'.events == s.events
  {
    RunTwo(s, t, PostRun(id), AcquireDelivery);
    assert PcOf(Step(s, t, PostRun(id)), t) == RunWaiting(id);
    var locked := Run(s, BeginRun(t, id));
    assert PcOf(locked, t) == RunLocked(id) && locked.stopping == s.stopping;
    assert locked.tracked == s.tracked && locked.events == s.events;
    RunConcat(s, BeginRun(t, id), [Move(t, CheckStopping(found)), Move(t, Release)]);
    RefusesRun(locked, t, found);
  }

  lemma RefusesRun(s: State, t: Tid, found: bool)
    requires PcOf(s, t).RunLocked? && (s.stopping || !found)
    ensures
      var s' := Run(s, [Move(t, CheckStopping(found)), Move(t, Release)]);
      PcOf(s', t).Idle? && s'.delivery.None? && s'.tracked == s.tracked && s'.events == s.events
  {
    RunTwo(s, t, CheckStopping(found), Release);
    assert PcOf(Step(s, t, CheckStopping(found)), t) == Releasing([]);
  }

  function DeleteOne(t: Tid): seq<Move> {
    [Move(t, AcquireDelivery), Move(t, Emit)]
  }

  // The deletions of a removal, one after the other.
  function DeleteAll(t: Tid, n: nat): seq<Move> {
    if n == 0 then [] else DeleteOne(t) + EndDelivery(t) + DeleteAll(t, n - 1)
  }

  lemma DeletesOne(s: State, t: Tid, rest: seq<Id>)
    requires rest != [] && Outside(s, t, DeleteWaiting(rest), s.tracked, s.events)
    ensures Inside(Run(s, DeleteOne(t)), t, InCallback(rest[1..]), s.tracked, s.events + [DeleteInstance(rest[0])])
  {
    RunTwo(s, t, AcquireDelivery, Emit);
    LocksForDelete(s, t, rest);
    EmitsDelete(Step(s, t, AcquireDelivery), t, rest);
  }

  lemma LocksForDelete(s: State, t: Tid, rest: seq<Id>)
    requires Outside(s, t, DeleteWaiting(rest), s.tracked, s.events)
    ensures Inside(Step(s, t, AcquireDelivery), t, DeleteLocked(rest), s.tracked, s.events)
  {
  }

  lemma EmitsDelete(s: State, t: Tid, rest: seq<Id>)
    requires rest != [] && Inside(s, t, DeleteLocked(rest), s.tracked, s.events)
    ensures
      Inside(Step(s, t, Emit), t, InCallback(rest[1..]), s.tracked, s.events + [DeleteInstance(rest[0])])
  {
  }

  lemma DeletesFirst(s: State, t: Tid, rest: seq<Id>)
    requires rest != [] && Outside(s, t, DeleteWaiting(rest), s.tracked, s.events)
    ensures Outside(Run(s, DeleteOne(t) + EndDelivery(t)), t, AfterEvent(rest[1..]),
                    s.tracked, s.events + [DeleteInstance(rest[0])])
  {
    DeletesOne(s, t, rest);
    RunConcat(s, DeleteOne(t), EndDelivery(t));
    EndsDelivery(Run(s, DeleteOne(t)), t, rest[1..]);
  }

  lemma FirstDelete(events: seq<Event>, rest: seq<Id>)
    requires rest != []
    ensures events + [DeleteInstance(rest[0])] + Deletes(rest[1..]) == events + Deletes(rest)
  {
  }

  lemma {:induction false} DeletesAll(s: State, t: Tid, rest: seq<Id>, tracked: set<Id>, events: seq<Event>)
    requires Outside(s, t, AfterEvent(rest), tracked, events)
    ensures Outside(Run(s, DeleteAll(t, |rest|)), t, Idle, tracked, events + Deletes(rest))
    decreases |rest|
  {
    if rest == [] {
      assert events + Deletes(rest) == events;
    } else {
      var first := DeleteOne(t) + EndDelivery(t);
      DeletesFirst(s, t, rest);
      RunConcat(s, first, DeleteAll(t, |rest| - 1));
      DeletesAll(Run(s, first), t, rest[1..], tracked, events + [DeleteInstance(rest[0])]);
      FirstDelete(events, rest);
    }
  }

  lemma BeginsRemoval(s: State, t: Tid, ids: seq<Id>)
    requires Outside(s, t, Idle, s.tracked, s.events)
    ensures Run(s, [Move(t, PostRemove(ids))]) == Step(s, t, PostRemove(ids))
    ensures Outside(Step(s, t, PostRemove(ids)), t, AfterEvent(RemovedFrom(s.tracked, ids)),
                    s.tracked - (set id | id in ids), s.events)
  {
    RemovalIsOnce(s.tracked, ids);
    assert [Move(t, PostRemove(ids))][..0] == [];
  }

  // post_remove_network_instances takes out the tracked ids of its request and
  // delivers a delete event for each.
  lemma PostRemoveDelivers(s: State, t: Tid, ids: seq<Id>)
    requires Outside(s, t, Idle, s.tracked, s.events)
    ensures
      var removed := RemovedFrom(s.tracked, ids);
      Outside(Run(s, [Move(t, PostRemove(ids))] + DeleteAll(t, |removed|)), t, Idle,
              s.tracked - (set id | id in ids), s.events + Deletes(removed))
  {
    var removed := RemovedFrom(s.tracked, ids);
    BeginsRemoval(s, t, ids);
    RunConcat(s, [Move(t, PostRemove(ids))], DeleteAll(t, |removed|));
    DeletesAll(Step(s, t, PostRemove(ids)), t, removed, s.tracked - (set id | id in ids), s.events);
  }

  // start_stopping drains once it has the lock, and drops it.
  lemma StopDrains(s: State, t: Tid)
    requires PcOf(s, t).Idle? && s.delivery.None?
    ensures
      var s' := Run(s, [Move(t, StartStopping), Move(t, AcquireDelivery)] + [Move(t, Drain), Move(t, Release)]);
      s'.stopping && s'.tracked == {} && s'.events == s.events && PcOf(s', t).Idle? && s'.delivery.None?
  {
    var locking := [Move(t, StartStopping), Move(t, AcquireDelivery)];
    RunTwo(s, t, StartStopping, AcquireDelivery);
    assert PcOf(Step(s, t, StartStopping), t).StopWaiting?;
    var locked := Run(s, locking);
    assert PcOf(locked, t).StopLocked? && locked.events == s.events;
    RunConcat(s, locking, [Move(t, Drain), Move(t, Release)]);
    Drains(locked, t);
  }

  lemma Drains(s: State, t: Tid)
    requires PcOf(s, t).StopLocked?
    ensures
      var s' := Run(s, [Move(t, Drain), Move(t, Release)]);
      s'.stopping && s'.tracked == {} && s'.events == s.events && PcOf(s', t).Idle? && s'.delivery.None?
  {
    RunTwo(s, t, Drain, Release);
    assert PcOf(Step(s, t, Drain), t) == Releasing([]);
  }
}
