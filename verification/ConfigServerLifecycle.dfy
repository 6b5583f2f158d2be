// Start and stop of the process-wide config-server client
// (rust/easytier-contrib/easytier-ffi/src/config_server.rs), as the
// interleaving of any number of callers. The client slot's mutex is held
// across several steps; each load, store or swap of a flag is its own step.
module ConfigServerLifecycle {
  import opened Wrappers

  type Tid = nat
  type ClientId = nat

  datatype Pc =
    | Idle
    | StartWaiting                      // before the slot lock
    | StartLocked                       // before the slot and STOPPING checks
    | StartChecked                      // before ACTIVE is set
    | StartActive                       // running the client, ACTIVE set
    | StartFailed                       // before ACTIVE is cleared again
    | StopWaiting
    | StopLocked                        // before the slot check and the swap
    | StopSwapped(client: ClientId)     // holding the lock, STOPPING set
    | StopDraining(client: ClientId)    // lock dropped, before start_stopping
    | StopDrained(client: ClientId)     // before taking the client out
    | StopTaken(client: ClientId, taken: Option<ClientId>)
    | StopCleared(client: ClientId)     // ACTIVE cleared, before STOPPING is
    | Unlocking                         // before dropping the lock

  datatype Action =
    | CallStart
    | CallStop
    | Lock
    | CheckSlot(dataPlaneFree: bool)
    | SetActive
    | ClientRuns(started: bool)
    | ClearActive
    | CheckAndSwap
    | DropLock
    | DrainHooks
    | TakeClient
    | ClearStopping

  datatype State = State(
    client: Option<ClientId>,
    active: bool,
    stopping: bool,
    lock: Option<Tid>,
    pcs: map<Tid, Pc>,
    nextClient: ClientId,
    // history
    drained: set<ClientId>,
    taken: seq<ClientId>
  )

  const Init := State(None, false, false, None, map[], 0, {}, [])

  function PcOf(s: State, t: Tid): Pc {
    if t in s.pcs then s.pcs[t] else Idle
  }

  function Goto(s: State, t: Tid, pc: Pc): State {
    s.(pcs := s.pcs[t := pc])
  }

  predicate HoldsLock(pc: Pc) {
    || pc.StartLocked? || pc.StartChecked? || pc.StartActive? || pc.StartFailed?
    || pc.StopLocked? || pc.StopSwapped? || pc.Unlocking?
  }

  // One step of thread `t`; an action the thread cannot take changes nothing.
  function Step(s: State, t: Tid, a: Action): State {
    var pc := PcOf(s, t);
    match a
    case CallStart => if pc.Idle? then Goto(s, t, StartWaiting) else s
    case CallStop => if pc.Idle? then Goto(s, t, StopWaiting) else s
    case Lock =>
      if s.lock.Some? then s
      else if pc.StartWaiting? then Goto(s.(lock := Some(t)), t, StartLocked)
      else if pc.StopWaiting? then Goto(s.(lock := Some(t)), t, StopLocked)
      else s
    case CheckSlot(dataPlaneFree) =>
      if !pc.StartLocked? then s
      else if s.client.Some? || s.stopping || !dataPlaneFree then Goto(s, t, Unlocking)
      else Goto(s, t, StartChecked)
    case SetActive => if pc.StartChecked? then Goto(s.(active := true), t, StartActive) else s
    case ClientRuns(started) =>
      if !pc.StartActive? then s
      else if started then
        Goto(s.(client := Some(s.nextClient), nextClient := s.nextClient + 1), t, Unlocking)
      else Goto(s, t, StartFailed)
    case CheckAndSwap =>
      if !pc.StopLocked? then s
      else if s.client.None? then Goto(s.(active := false), t, Unlocking)
      else if s.stopping then Goto(s, t, Unlocking)
      else Goto(s.(stopping := true), t, StopSwapped(s.client.value))
    case DropLock =>
      if pc.Unlocking? then Goto(s.(lock := None), t, Idle)
      else if pc.StopSwapped? then Goto(s.(lock := None), t, StopDraining(pc.client))
      else s
    case DrainHooks =>
      if pc.StopDraining? then Goto(s.(drained := s.drained + {pc.client}), t, StopDrained(pc.client)) else s
    case TakeClient =>
      if pc.StopDrained? && s.lock.None? then
        Goto(s.(client := None, taken := if s.client.Some? then s.taken + [s.client.value] else s.taken),
             t, StopTaken(pc.client, s.client))
      else s
    case ClearActive =>
      if pc.StopTaken? then Goto(s.(active := false), t, StopCleared(pc.client))
      else if pc.StartFailed? then Goto(s.(active := false), t, Unlocking)
      else s
    case ClearStopping => if pc.StopCleared? then Goto(s.(stopping := false), t, Idle) else s
  }

  datatype Move = Move(thread: Tid, action: Action)

  ghost function Run(moves: seq<Move>): State
    decreases |moves|
  {
    if moves == [] then Init
    else
      var m := moves[|moves| - 1];
      Step(Run(moves[..|moves| - 1]), m.thread, m.action)
  }

  // A stop that has won the swap and not yet cleared STOPPING.
  predicate TearingDown(pc: Pc) {
    pc.StopSwapped? || pc.StopDraining? || pc.StopDrained? || pc.StopTaken? || pc.StopCleared?
  }

  // What a thread's position says about the shared flags and slot.
  ghost predicate ThreadInv(s: State, t: Tid) {
    var pc := PcOf(s, t);
    && (HoldsLock(pc) <==> s.lock == Some(t))
    && (TearingDown(pc) ==> s.stopping)
    && (pc.StopSwapped? || pc.StopDraining? || pc.StopDrained? ==> s.client == Some(pc.client))
    && (pc.StopDrained? || pc.StopTaken? || pc.StopCleared? ==> pc.client in s.drained)
    && (pc.StopTaken? ==> pc.taken == Some(pc.client))
    && (pc.StopTaken? || pc.StopCleared? ==> s.client == None)
    && (pc.StartChecked? || pc.StartActive? || pc.StartFailed? ==> s.client == None && !s.stopping)
    && (pc.StartActive? ==> s.active)
  }

  ghost predicate Inv(s: State) {
    && (forall t: Tid :: ThreadInv(s, t))
    && (forall t: Tid, u: Tid :: TearingDown(PcOf(s, t)) && TearingDown(PcOf(s, u)) ==> t == u)
    && (s.client.Some? ==> s.active && s.client.value < s.nextClient)
    && (forall i :: 0 <= i < |s.taken| ==> s.taken[i] in s.drained && s.taken[i] < s.nextClient)
    && (forall i, j :: 0 <= i < j < |s.taken| ==> s.taken[i] < s.taken[j])
    && (s.client.Some? ==> forall i :: 0 <= i < |s.taken| ==> s.taken[i] < s.client.value)
  }

  lemma StepIsLocal(s: State, t: Tid, a: Action, u: Tid)
    requires u != t
    ensures PcOf(Step(s, t, a), u) == PcOf(s, u)
  {
    match a
    case _ =>
  }

  // What a step by `t` may do to the parts another thread relies on.
  lemma OtherThreadsUndisturbed(s: State, t: Tid, a: Action, u: Tid)
    requires Inv(s) && u != t
    ensures ThreadInv(Step(s, t, a), u)
  {
    StepIsLocal(s, t, a, u);
    assert ThreadInv(s, t) && ThreadInv(s, u);
    assert TearingDown(PcOf(s, t)) && TearingDown(PcOf(s, u)) ==> t == u;
    match a
    case _ =>
  }

  predicate StopStep(a: Action) {
    a.CallStop? || a.CheckAndSwap? || a.DrainHooks? || a.TakeClient? || a.ClearStopping?
  }

  lemma OwnStopStep(s: State, t: Tid, a: Action)
    requires Inv(s) && StopStep(a)
    ensures ThreadInv(Step(s, t, a), t)
  {
    assert ThreadInv(s, t);
  }

  lemma OwnThreadInv(s: State, t: Tid, a: Action)
    requires Inv(s)
    ensures ThreadInv(Step(s, t, a), t)
  {
    assert ThreadInv(s, t);
    if StopStep(a) {
      OwnStopStep(s, t, a);
    }
  }

  lemma OneTearDown(s: State, t: Tid, a: Action, u: Tid, v: Tid)
    requires Inv(s)
    requires TearingDown(PcOf(Step(s, t, a), u)) && TearingDown(PcOf(Step(s, t, a), v))
    ensures u == v
  {
    assert ThreadInv(s, u) && ThreadInv(s, v) && ThreadInv(s, t);
    if u != t {
      StepIsLocal(s, t, a, u);
    }
    if v != t {
      StepIsLocal(s, t, a, v);
    }
  }

  // A step that stores false to ACTIVE leaves no client in the slot.
  lemma ActiveInv(s: State, t: Tid, a: Action)
    requires Inv(s)
    ensures Step(s, t, a).client.Some? ==> Step(s, t, a).active
  {
    assert ThreadInv(s, t);
    match a
    case _ =>
  }

  lemma SlotInv(s: State, t: Tid, a: Action)
    requires Inv(s)
    ensures
      var s' := Step(s, t, a);
      && (s'.client.Some? ==> s'.client.value < s'.nextClient)
      && (forall i :: 0 <= i < |s'.taken| ==> s'.taken[i] in s'.drained && s'.taken[i] < s'.nextClient)
      && (forall i, j :: 0 <= i < j < |s'.taken| ==> s'.taken[i] < s'.taken[j])
      && (s'.client.Some? ==> forall i :: 0 <= i < |s'.taken| ==> s'.taken[i] < s'.client.value)
  {
    assert ThreadInv(s, t);
    match a
    case _ =>
  }

  lemma StepKeepsInv(s: State, t: Tid, a: Action)
    requires Inv(s)
    ensures Inv(Step(s, t, a))
  {
    var s' := Step(s, t, a);
    forall u: Tid ensures ThreadInv(s', u) {
      if u == t {
        OwnThreadInv(s, t, a);
      } else {
        OtherThreadsUndisturbed(s, t, a, u);
      }
    }
    forall u: Tid, v: Tid | TearingDown(PcOf(s', u)) && TearingDown(PcOf(s', v)) ensures u == v {
      OneTearDown(s, t, a, u, v);
    }
    ActiveInv(s, t, a);
    SlotInv(s, t, a);
  }

  lemma {:induction false} RunKeepsInv(moves: seq<Move>)
    ensures Inv(Run(moves))
    decreases |moves|
  {
    if moves != [] {
      var m := moves[|moves| - 1];
      RunKeepsInv(moves[..|moves| - 1]);
      StepKeepsInv(Run(moves[..|moves| - 1]), m.thread, m.action);
    }
  }

  // In every interleaving: a client in the slot, or being started, is ACTIVE,
  // so no store of false by a stop has hit a newer start; a stop past its swap
  // has STOPPING set and is the only one.
  lemma FlagsAgreeWithSlot(moves: seq<Move>, t: Tid, u: Tid)
    ensures
      var s := Run(moves);
      && (s.client.Some? || PcOf(s, t).StartActive? ==> s.active)
      && (TearingDown(PcOf(s, t)) ==> s.stopping)
      && (TearingDown(PcOf(s, t)) && TearingDown(PcOf(s, u)) ==> t == u)
      && (TearingDown(PcOf(s, t)) ==> !PcOf(s, u).StartActive?)
  {
    RunKeepsInv(moves);
    assert ThreadInv(Run(moves), t) && ThreadInv(Run(moves), u);
  }

  // A stop takes out the client whose hooks it drained, and over the whole run
  // each client is taken out at most once, in the order they were started.
  lemma StopRemovesTheClientItDrained(moves: seq<Move>, t: Tid)
    requires PcOf(Run(moves), t).StopDrained? && Run(moves).lock == None
    ensures
      var s := Run(moves);
      var s' := Step(s, t, TakeClient);
      && s.client == Some(PcOf(s, t).client)
      && PcOf(s, t).client in s.drained
      && s'.taken == s.taken + [PcOf(s, t).client]
      && s'.client == None
      && forall i, j :: 0 <= i < j < |s'.taken| ==> s'.taken[i] < s'.taken[j]
  {
    RunKeepsInv(moves);
    var s := Run(moves);
    assert ThreadInv(s, t);
    StepKeepsInv(s, t, TakeClient);
  }

  // ----- the flags exactly -----

  // ACTIVE is set beside an empty slot only while a start runs its client or a
  // stop has yet to clear the flag.
  predicate KeepsActive(pc: Pc) {
    pc.StartActive? || pc.StartFailed? || pc.StopTaken?
  }

  ghost predicate FlagsExplained(s: State) {
    && (s.stopping ==> exists t: Tid :: TearingDown(PcOf(s, t)))
    && (s.active && s.client.None? ==> exists t: Tid :: KeepsActive(PcOf(s, t)))
  }

  // What thread `t` itself leaves behind.
  lemma OwnFlags(s: State, t: Tid, a: Action)
    requires ThreadInv(s, t)
    ensures
      var s' := Step(s, t, a);
      && (s'.stopping ==> TearingDown(PcOf(s', t)) || (s.stopping && !TearingDown(PcOf(s, t))))
      && (s'.active && s'.client.None? ==>
            KeepsActive(PcOf(s', t)) || (s.active && s.client.None? && !KeepsActive(PcOf(s, t))))
  {
    match a
    case _ =>
  }

  lemma StepExplainsFlags(s: State, t: Tid, a: Action)
    requires Inv(s) && FlagsExplained(s)
    ensures FlagsExplained(Step(s, t, a))
  {
    var s' := Step(s, t, a);
    assert ThreadInv(s, t);
    OwnFlags(s, t, a);
    if s'.stopping && !TearingDown(PcOf(s', t)) {
      var u: Tid :| TearingDown(PcOf(s, u));
      StepIsLocal(s, t, a, u);
      assert TearingDown(PcOf(s', u));
    }
    if s'.active && s'.client.None? && !KeepsActive(PcOf(s', t)) {
      var u: Tid :| KeepsActive(PcOf(s, u));
      StepIsLocal(s, t, a, u);
      assert KeepsActive(PcOf(s', u));
    }
  }

  lemma {:induction false} RunExplainsFlags(moves: seq<Move>)
    ensures FlagsExplained(Run(moves))
    decreases |moves|
  {
    if moves != [] {
      var m := moves[|moves| - 1];
      RunKeepsInv(moves[..|moves| - 1]);
      RunExplainsFlags(moves[..|moves| - 1]);
      StepExplainsFlags(Run(moves[..|moves| - 1]), m.thread, m.action);
    }
  }

  ghost predicate AllIdle(s: State) {
    forall t: Tid :: PcOf(s, t).Idle?
  }

  // STOPPING is set exactly while some stop tears a client down; and whenever
  // no call is under way, ACTIVE says exactly whether a client is stored and
  // the lock is free.
  lemma FlagsAreExact(moves: seq<Move>)
    ensures
      var s := Run(moves);
      && (s.stopping <==> exists t: Tid :: TearingDown(PcOf(s, t)))
      && (AllIdle(s) ==> !s.stopping && s.lock.None? && (s.active <==> s.client.Some?))
  {
    RunKeepsInv(moves);
    RunExplainsFlags(moves);
    var s := Run(moves);
    if t: Tid :| TearingDown(PcOf(s, t)) {
      assert ThreadInv(s, t);
    }
    if s.lock.Some? {
      assert ThreadInv(s, s.lock.value);
    }
  }

  // ----- calls nothing interferes with -----

  // Thread `t` takes `actions` one after the other.
  ghost function After(s: State, t: Tid, actions: seq<Action>): State
    decreases |actions|
  {
    if actions == [] then s else Step(After(s, t, actions[..|actions| - 1]), t, actions[|actions| - 1])
  }

  lemma AfterSnoc(s: State, t: Tid, actions: seq<Action>, a: Action)
    ensures After(s, t, actions + [a]) == Step(After(s, t, actions), t, a)
  {
    assert (actions + [a])[..|actions|] == actions;
  }

  // A thread at `pc` with the slot and the flags, the lock its own or free.
  predicate Stands(s: State, t: Tid, pc: Pc, client: Option<ClientId>, active: bool, stopping: bool) {
    && PcOf(s, t) == pc && s.client == client && s.active == active && s.stopping == stopping
    && s.lock == (if HoldsLock(pc) then Some(t) else None)
  }

  const START := [CallStart] + [Lock] + [CheckSlot(true)] + [SetActive]
  const STOP := [CallStop] + [Lock] + [CheckAndSwap]

  lemma Waits(s: State, t: Tid, a: Action)
    requires Stands(s, t, Idle, s.client, s.active, s.stopping) && (a.CallStart? || a.CallStop?)
    ensures
      var s', pc := Step(s, t, a), if a.CallStart? then StartWaiting else StopWaiting;
      Stands(s', t, pc, s.client, s.active, s.stopping) && s'.nextClient == s.nextClient
  {
  }

  lemma Locks(s: State, t: Tid)
    requires (PcOf(s, t).StartWaiting? || PcOf(s, t).StopWaiting?) && s.lock.None?
    ensures
      var s', pc := Step(s, t, Lock), if PcOf(s, t).StartWaiting? then StartLocked else StopLocked;
      Stands(s', t, pc, s.client, s.active, s.stopping) && s'.nextClient == s.nextClient
  {
  }

  // A call waits for the lock and gets it.
  lemma GetsLock(s: State, t: Tid, a: Action)
    requires Stands(s, t, Idle, s.client, s.active, s.stopping) && (a.CallStart? || a.CallStop?)
    ensures
      var s', pc := After(s, t, [a] + [Lock]), if a.CallStart? then StartLocked else StopLocked;
      Stands(s', t, pc, s.client, s.active, s.stopping) && s'.nextClient == s.nextClient
  {
    assert [] + [a] == [a];
    AfterSnoc(s, t, [], a);
    Waits(s, t, a);
    AfterSnoc(s, t, [a], Lock);
    Locks(After(s, t, [a]), t);
  }

  lemma StartGetsActive(s: State, t: Tid)
    requires Stands(s, t, Idle, None, s.active, false)
    ensures Stands(After(s, t, START), t, StartActive, None, true, false)
    ensures After(s, t, START).nextClient == s.nextClient
  {
    GetsLock(s, t, CallStart);
    AfterSnoc(s, t, [CallStart] + [Lock], CheckSlot(true));
    AfterSnoc(s, t, [CallStart] + [Lock] + [CheckSlot(true)], SetActive);
  }

  // A start that finds no client stores one and is ACTIVE; if the client does
  // not run, the slot stays empty and ACTIVE is cleared again.
  lemma StartStoresClient(s: State, t: Tid)
    requires Stands(s, t, Idle, None, s.active, false)
    ensures Stands(After(s, t, START + [ClientRuns(true)] + [DropLock]), t, Idle, Some(s.nextClient), true, false)
    ensures Stands(After(s, t, START + [ClientRuns(false)] + [ClearActive] + [DropLock]), t, Idle, None, false, false)
  {
    StartGetsActive(s, t);
    AfterSnoc(s, t, START, ClientRuns(true));
    AfterSnoc(s, t, START + [ClientRuns(true)], DropLock);
    AfterSnoc(s, t, START, ClientRuns(false));
    AfterSnoc(s, t, START + [ClientRuns(false)], ClearActive);
    AfterSnoc(s, t, START + [ClientRuns(false)] + [ClearActive], DropLock);
  }

  // A start that finds a client, a stop under way or the data plane in use
  // changes nothing.
  lemma RefusedStartDoesNothing(s: State, t: Tid, dataPlaneFree: bool)
    requires Stands(s, t, Idle, s.client, s.active, s.stopping)
    requires s.client.Some? || s.stopping || !dataPlaneFree
    ensures
      Stands(After(s, t, [CallStart] + [Lock] + [CheckSlot(dataPlaneFree)] + [DropLock]),
             t, Idle, s.client, s.active, s.stopping)
  {
    GetsLock(s, t, CallStart);
    AfterSnoc(s, t, [CallStart] + [Lock], CheckSlot(dataPlaneFree));
    AfterSnoc(s, t, [CallStart] + [Lock] + [CheckSlot(dataPlaneFree)], DropLock);
  }

  // A stop that finds no client clears ACTIVE; one that finds a stop under way
  // changes nothing.
  lemma StopWithoutClient(s: State, t: Tid)
    requires Stands(s, t, Idle, s.client, s.active, s.stopping) && (s.client.None? || s.stopping)
    ensures Stands(After(s, t, STOP + [DropLock]), t, Idle, s.client, s.active && s.client.Some?, s.stopping)
  {
    GetsLock(s, t, CallStop);
    AfterSnoc(s, t, [CallStop] + [Lock], CheckAndSwap);
    AfterSnoc(s, t, STOP, DropLock);
  }

  lemma StopWinsSwap(s: State, t: Tid, c: ClientId)
    requires Stands(s, t, Idle, Some(c), true, false)
    ensures Stands(After(s, t, STOP), t, StopSwapped(c), Some(c), true, true)
  {
    GetsLock(s, t, CallStop);
    AfterSnoc(s, t, [CallStop] + [Lock], CheckAndSwap);
  }

  lemma StopGetsDrained(s: State, t: Tid, c: ClientId)
    requires Stands(s, t, Idle, Some(c), true, false)
    ensures
      var s' := After(s, t, STOP + [DropLock] + [DrainHooks]);
      Stands(s', t, StopDrained(c), Some(c), true, true) && c in s'.drained
  {
    StopWinsSwap(s, t, c);
    AfterSnoc(s, t, STOP, DropLock);
    AfterSnoc(s, t, STOP + [DropLock], DrainHooks);
  }

  // A stop that finds a client drains its hooks, empties the slot and clears
  // both flags.
  lemma StopClears(s: State, t: Tid, c: ClientId)
    requires Stands(s, t, Idle, Some(c), true, false)
    ensures
      var s' := After(s, t, STOP + [DropLock] + [DrainHooks] + [TakeClient] + [ClearActive] + [ClearStopping]);
      Stands(s', t, Idle, None, false, false) && c in s'.drained
  {
    var drained := STOP + [DropLock] + [DrainHooks];
    StopGetsDrained(s, t, c);
    AfterSnoc(s, t, drained, TakeClient);
    AfterSnoc(s, t, drained + [TakeClient], ClearActive);
    AfterSnoc(s, t, drained + [TakeClient] + [ClearActive], ClearStopping);
  }
}
