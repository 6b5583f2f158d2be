// Delivery and tracking of one config-server client's hooks
// (rust/easytier-contrib/easytier-ffi/src/config_server.rs), as the
// interleaving of any number of threads. Each critical section is one step;
// mutexes are not poisoned. Calls into the instance manager and the outcome of
// name validation are chosen freely.
module ConfigServerHooks {
  import opened Wrappers

  type Tid = nat
  type Id = nat

  datatype Event = RunInstance(id: Id) | DeleteInstance(id: Id)

  // Where a thread is. Threads that hold the delivery lock are those from
  // "locked" to the release.
  datatype Pc =
    | Idle
    | RunWaiting(id: Id)               // post_run: before the delivery lock
    | RunLocked(id: Id)                // before the stopping check
    | RunChecked(id: Id)               // before the insert
    | RunInserted(id: Id)              // before name validation
    | RunValidated(id: Id)             // before the event
    | InCallback(rest: seq<Id>)        // inside the foreign callback
    | DeleteWaiting(rest: seq<Id>)     // post_remove: before the delivery lock
    | DeleteLocked(rest: seq<Id>)      // before the stopping check and event
    | Releasing(rest: seq<Id>)         // before dropping the delivery lock
    | StopWaiting                      // start_stopping: before the delivery lock
    | StopLocked                       // before the drain

  datatype Action =
    | PostRun(id: Id)
    | PostRemove(ids: seq<Id>)
    | RemoveTracked(removals: seq<Id>)  // remove_config_server_tracked_instance_ids
    | StartStopping
    | AcquireDelivery
    | CheckStopping(found: bool)
    | Insert
    | Validate(valid: bool)
    | Emit
    | CallbackReturns
    | Release
    | Drain

  datatype State = State(
    hasCallback: bool,
    tracked: set<Id>,
    stopping: bool,
    delivery: Option<Tid>,
    pcs: map<Tid, Pc>,
    // history
    events: seq<Event>,
    inserted: multiset<Id>,
    retiredByRemoval: multiset<Id>,
    retiredByStop: multiset<Id>
  )

  function Init(hasCallback: bool): State {
    State(hasCallback, {}, false, None, map[], [], multiset{}, multiset{}, multiset{})
  }

  function PcOf(s: State, t: Tid): Pc {
    if t in s.pcs then s.pcs[t] else Idle
  }

  function Goto(s: State, t: Tid, pc: Pc): State {
    s.(pcs := s.pcs[t := pc])
  }

  predicate HoldsDelivery(pc: Pc) {
    || pc.RunLocked? || pc.RunChecked? || pc.RunInserted? || pc.RunValidated? || pc.InCallback?
    || pc.DeleteLocked? || pc.Releasing? || pc.StopLocked?
  }

  // remove_tracked_instance_ids: the ids of the request that were tracked,
  // each taken out once.
  function RemovedFrom(tracked: set<Id>, ids: seq<Id>): seq<Id> {
    if ids == [] then []
    else if ids[0] in tracked then [ids[0]] + RemovedFrom(tracked - {ids[0]}, ids[1..])
    else RemovedFrom(tracked, ids[1..])
  }

  function RemoveIds(s: State, ids: seq<Id>): State {
    var removed := RemovedFrom(s.tracked, ids);
    s.(tracked := s.tracked - (set id | id in removed),
       retiredByRemoval := s.retiredByRemoval + multiset(removed))
  }

  // start_stopping's section under the ids lock.
  function DrainTracked(s: State): State {
    s.(tracked := {}, stopping := true, retiredByStop := s.retiredByStop + multiset(s.tracked))
  }

  // emit_event_with_delivery_locked up to the callback.
  function EmitLocked(s: State, t: Tid, e: Event, rest: seq<Id>): State {
    if s.stopping || !s.hasCallback then Goto(s, t, Releasing(rest))
    else Goto(s.(events := s.events + [e]), t, InCallback(rest))
  }

  // One step of thread `t`; an action the thread cannot take changes nothing.
  function Step(s: State, t: Tid, a: Action): State {
    var pc := PcOf(s, t);
    match a
    case PostRun(id) => if pc.Idle? then Goto(s, t, RunWaiting(id)) else s
    case PostRemove(ids) =>
      if pc.Idle? then Goto(RemoveIds(s, ids), t, AfterEvent(RemovedFrom(s.tracked, ids))) else s
    case RemoveTracked(ids) => RemoveIds(s, ids)
    case StartStopping =>
      if pc.Idle? then Goto(s, t, StopWaiting)
      else if pc.InCallback? then DrainTracked(s)
      else s
    case AcquireDelivery =>
      if s.delivery.Some? then s
      else
        var locked := s.(delivery := Some(t));
        (match pc
         case RunWaiting(id) => Goto(locked, t, RunLocked(id))
         case DeleteWaiting(rest) => Goto(locked, t, DeleteLocked(rest))
         case StopWaiting => Goto(locked, t, StopLocked)
         case _ => s)
    case CheckStopping(found) =>
      if !pc.RunLocked? then s
      else if s.stopping || !found then Goto(s, t, Releasing([]))
      else Goto(s, t, RunChecked(pc.id))
    case Insert =>
      if !pc.RunChecked? then s
      else
        Goto(s.(tracked := s.tracked + {pc.id},
                inserted := if pc.id in s.tracked then s.inserted else s.inserted + multiset{pc.id}),
             t, RunInserted(pc.id))
    case Validate(valid) =>
      if !pc.RunInserted? then s
      else if valid then Goto(s, t, RunValidated(pc.id))
      else Goto(RemoveIds(s, [pc.id]), t, Releasing([]))
    case Emit =>
      (match pc
       case RunValidated(id) => EmitLocked(s, t, RunInstance(id), [])
       case DeleteLocked(rest) => if rest == [] then s else EmitLocked(s, t, DeleteInstance(rest[0]), rest[1..])
       case _ => s)
    case CallbackReturns => if pc.InCallback? then Goto(s, t, Releasing(pc.rest)) else s
    case Release => if pc.Releasing? then Goto(s.(delivery := None), t, AfterEvent(pc.rest)) else s
    case Drain => if pc.StopLocked? then Goto(DrainTracked(s), t, Releasing([])) else s
  }

  function AfterEvent(rest: seq<Id>): Pc {
    if rest == [] then Idle else DeleteWaiting(rest)
  }

  datatype Move = Move(thread: Tid, action: Action)

  // A schedule: any sequence of moves by any threads.
  ghost function Run(s: State, moves: seq<Move>): State
    decreases |moves|
  {
    if moves == [] then s
    else
      var m := moves[|moves| - 1];
      Step(Run(s, moves[..|moves| - 1]), m.thread, m.action)
  }

  // The delivery lock has exactly the owner its threads say it has.
  ghost predicate LockInv(s: State) {
    forall t: Tid :: HoldsDelivery(PcOf(s, t)) <==> s.delivery == Some(t)
  }

  // Every id that entered the tracked set is still there or was retired, once,
  // by one removal or by the stop.
  ghost predicate Conserved(s: State) {
    s.inserted == s.retiredByRemoval + s.retiredByStop + multiset(s.tracked)
  }

  ghost predicate Inv(s: State) {
    LockInv(s) && Conserved(s)
  }

  lemma {:induction false} RemovalIsOnce(tracked: set<Id>, ids: seq<Id>)
    ensures
      var removed := RemovedFrom(tracked, ids);
      && (forall id :: id in removed <==> id in tracked && id in ids)
      && multiset(tracked) == multiset(removed) + multiset(tracked - (set id | id in removed))
    decreases |ids|
  {
    if ids != [] {
      if ids[0] in tracked {
        var rest := RemovedFrom(tracked - {ids[0]}, ids[1..]);
        RemovalIsOnce(tracked - {ids[0]}, ids[1..]);
        var removed := [ids[0]] + rest;
        assert multiset(removed) == multiset{ids[0]} + multiset(rest);
        assert multiset(tracked) == multiset{ids[0]} + multiset(tracked - {ids[0]});
        assert tracked - (set id | id in removed) == (tracked - {ids[0]}) - (set id | id in rest);
      } else {
        RemovalIsOnce(tracked, ids[1..]);
      }
    } else {
      assert tracked - (set id: Id | id in []) == tracked;
    }
  }

  lemma RemoveKeepsConserved(s: State, ids: seq<Id>)
    requires Conserved(s)
    ensures Conserved(RemoveIds(s, ids))
  {
    RemovalIsOnce(s.tracked, ids);
  }

  // A step moves only its own thread.
  lemma StepIsLocal(s: State, t: Tid, a: Action, u: Tid)
    requires u != t
    ensures PcOf(Step(s, t, a), u) == PcOf(s, u)
  {
    match a
    case _ =>
  }

  // A step takes the delivery lock only when it is free and drops it only when
  // its thread holds it.
  lemma StepMovesLock(s: State, t: Tid, a: Action)
    requires HoldsDelivery(PcOf(s, t)) <==> s.delivery == Some(t)
    ensures
      var s' := Step(s, t, a);
      && (HoldsDelivery(PcOf(s', t)) <==> s'.delivery == Some(t))
      && (s'.delivery == s.delivery || (s'.delivery == Some(t) && s.delivery == None)
          || (s'.delivery == None && s.delivery == Some(t)))
  {
    match a
    case _ =>
  }

  lemma StepKeepsLockInv(s: State, t: Tid, a: Action)
    requires LockInv(s)
    ensures LockInv(Step(s, t, a))
  {
    var s' := Step(s, t, a);
    StepMovesLock(s, t, a);
    forall u: Tid ensures HoldsDelivery(PcOf(s', u)) <==> s'.delivery == Some(u) {
      if u != t {
        StepIsLocal(s, t, a, u);
      }
    }
  }

  lemma StepKeepsConserved(s: State, t: Tid, a: Action)
    requires Conserved(s)
    ensures Conserved(Step(s, t, a))
  {
    var pc := PcOf(s, t);
    match a
    case PostRemove(ids) => RemoveKeepsConserved(s, ids);
    case RemoveTracked(ids) => RemoveKeepsConserved(s, ids);
    case Validate(valid) =>
      if pc.RunInserted? {
        RemoveKeepsConserved(s, [pc.id]);
      }
    case Insert =>
      if pc.RunChecked? {
        if pc.id in s.tracked {
          assert s.tracked + {pc.id} == s.tracked;
        } else {
          assert multiset(s.tracked + {pc.id}) == multiset(s.tracked) + multiset{pc.id};
        }
      }
    case _ =>
  }

  // Mutual exclusion and conservation hold in every interleaving.
  lemma {:induction false} RunKeepsInv(hasCallback: bool, moves: seq<Move>)
    ensures Inv(Run(Init(hasCallback), moves))
    decreases |moves|
  {
    if moves != [] {
      var prefix := moves[..|moves| - 1];
      var m := moves[|moves| - 1];
      RunKeepsInv(hasCallback, prefix);
      StepKeepsLockInv(Run(Init(hasCallback), prefix), m.thread, m.action);
      StepKeepsConserved(Run(Init(hasCallback), prefix), m.thread, m.action);
    }
  }

  // A thread that has passed a stopping check and can still insert or emit.
  predicate PastCheck(pc: Pc) {
    pc.RunChecked? || pc.RunInserted? || pc.RunValidated?
  }

  // Stopped for good: nothing tracked and no thread that could still track or
  // deliver anything.
  ghost predicate Quiet(s: State) {
    && s.stopping
    && s.tracked == {}
    && forall t: Tid :: !PastCheck(PcOf(s, t))
  }

  // A step that performs start_stopping's drain.
  predicate IsStop(s: State, t: Tid, a: Action) {
    (a.Drain? && PcOf(s, t).StopLocked?) || (a.StartStopping? && PcOf(s, t).InCallback?)
  }

  // The drain leaves the hooks quiet: its thread owns the delivery lock, so no
  // other thread is between its stopping check and its event. Outside a
  // callback it leaves no callback running either.
  lemma StopQuiets(s: State, t: Tid, a: Action)
    requires LockInv(s) && IsStop(s, t, a)
    ensures Quiet(Step(s, t, a))
    ensures a.Drain? ==> forall u: Tid :: !PcOf(Step(s, t, a), u).InCallback?
  {
    var s' := Step(s, t, a);
    assert HoldsDelivery(PcOf(s, t));
    forall u: Tid ensures !PastCheck(PcOf(s', u)) && (a.Drain? ==> !PcOf(s', u).InCallback?) {
      if u != t {
        StepIsLocal(s, t, a, u);
        assert HoldsDelivery(PcOf(s, u)) <==> s.delivery == Some(u);
      }
    }
  }

  // Removals from the empty set.
  lemma QuietRemovals(s: State, ids: seq<Id>)
    requires s.tracked == {}
    ensures RemoveIds(s, ids).tracked == {}
  {
  }

  lemma QuietThread(s: State, t: Tid, a: Action)
    requires s.stopping && s.tracked == {} && !PastCheck(PcOf(s, t))
    ensures
      var s' := Step(s, t, a);
      && s'.stopping && s'.tracked == {} && !PastCheck(PcOf(s', t))
      && s'.events == s.events
      && s'.inserted == s.inserted
      && (PcOf(s', t).InCallback? ==> PcOf(s, t).InCallback?)
  {
    match a
    case PostRemove(ids) => QuietRemovals(s, ids);
    case RemoveTracked(ids) => QuietRemovals(s, ids);
    case _ => QuietOtherwise(s, t, a);
  }

  lemma QuietOtherwise(s: State, t: Tid, a: Action)
    requires s.stopping && s.tracked == {} && !PastCheck(PcOf(s, t))
    requires !a.PostRemove? && !a.RemoveTracked?
    ensures
      var s' := Step(s, t, a);
      && s'.stopping && s'.tracked == {} && !PastCheck(PcOf(s', t))
      && s'.events == s.events
      && s'.inserted == s.inserted
      && (PcOf(s', t).InCallback? ==> PcOf(s, t).InCallback?)
  {
  }

  lemma StepKeepsQuiet(s: State, t: Tid, a: Action)
    requires Quiet(s)
    ensures
      var s' := Step(s, t, a);
      && Quiet(s')
      && s'.events == s.events
      && s'.inserted == s.inserted
      && forall u: Tid :: PcOf(s', u).InCallback? ==> PcOf(s, u).InCallback?
  {
    var s' := Step(s, t, a);
    QuietThread(s, t, a);
    forall u: Tid ensures !PastCheck(PcOf(s', u)) && (PcOf(s', u).InCallback? ==> PcOf(s, u).InCallback?) {
      if u != t {
        StepIsLocal(s, t, a, u);
      }
    }
  }

  lemma {:induction false} QuietForever(s: State, moves: seq<Move>)
    requires Quiet(s) && Conserved(s)
    ensures
      var s' := Run(s, moves);
      && Quiet(s') && Conserved(s')
      && s'.events == s.events
      && s'.inserted == s.inserted
      && forall t: Tid :: PcOf(s', t).InCallback? ==> PcOf(s, t).InCallback?
    decreases |moves|
  {
    if moves != [] {
      var prefix := moves[..|moves| - 1];
      var m := moves[|moves| - 1];
      QuietForever(s, prefix);
      StepKeepsQuiet(Run(s, prefix), m.thread, m.action);
      StepKeepsConserved(Run(s, prefix), m.thread, m.action);
    }
  }

  // Once start_stopping has drained, in any interleaving before and after: no
  // event is ever delivered again, the tracked set stays empty, every id ever
  // tracked has been retired exactly once, by a removal or by a stop; and
  // outside a callback, no callback is running from then on.
  lemma NothingAfterStop(hasCallback: bool, before: seq<Move>, t: Tid, a: Action, after: seq<Move>)
    requires IsStop(Run(Init(hasCallback), before), t, a)
    ensures
      var stopped := Step(Run(Init(hasCallback), before), t, a);
      var final := Run(stopped, after);
      && final.events == Run(Init(hasCallback), before).events
      && final.tracked == {}
      && final.inserted == final.retiredByRemoval + final.retiredByStop
      && final.inserted == stopped.inserted
      && (a.Drain? ==> forall u: Tid :: !PcOf(final, u).InCallback?)
  {
    var s := Run(Init(hasCallback), before);
    RunKeepsInv(hasCallback, before);
    StopQuiets(s, t, a);
    var stopped := Step(s, t, a);
    StepKeepsConserved(s, t, a);
    QuietForever(stopped, after);
  }
}
