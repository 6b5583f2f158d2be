// Runs of the port-forward adapter in which a client is evicted although a
// permit is free (rust/easytier-core/src/gateway/port_forward.rs).
module PortForwardWitness {
  import opened Wrappers
  import opened PortForwardSlots

  lemma StillHeld(s: State, p: Permit, h: Holder)
    requires Holds(s, h, p)
    ensures Settle(s, p) == s
  {
    assert Held(s, p);
  }

  // A loop with a new client gets as far as holding admission.
  ghost function AtAdmission(s: State, t: Tid, k: Key): State {
    Goto(s.(admission := Some(t), evictions := s.evictions[t := 0]), t, Admitted(k))
  }

  lemma AdmissionSteps(s: State, t: Tid, k: Key)
    requires s.admission == None && PcOf(s, t).Idle? && k !in s.clients
    ensures Step(Step(Step(s, t, Packet(k)), t, FlowOpened(true)), t, Admit) == AtAdmission(s, t, k)
  {
    var opening := Step(s, t, Packet(k));
    assert PcOf(opening, t) == Opening(k);
    var waiting := Step(opening, t, FlowOpened(true));
    assert waiting.pcs == s.pcs[t := WantAdmission(k)];
    assert waiting.pcs[t := Admitted(k)] == s.pcs[t := Admitted(k)];
  }

  lemma ReachesAdmission(s: State, moves: seq<Move>, t: Tid, k: Key) returns (moves': seq<Move>)
    requires var s1 := Run(s, moves); s1.admission == None && PcOf(s1, t).Idle? && k !in s1.clients
    ensures Run(s, moves') == AtAdmission(Run(s, moves), t, k)
  {
    AdmissionSteps(Run(s, moves), t, k);
    RunSnoc(s, moves, Move(t, Packet(k)));
    moves' := moves + [Move(t, Packet(k))];
    RunSnoc(s, moves', Move(t, FlowOpened(true)));
    moves' := moves' + [Move(t, FlowOpened(true))];
    RunSnoc(s, moves', Move(t, Admit));
    moves' := moves' + [Move(t, Admit)];
  }

  // With a free permit the client and its task are published.
  ghost function Published(s: State, t: Tid, k: Key, now: nat): State
    requires s.free > 0
  {
    var p, task := s.nextPermit, s.nextTask;
    Goto(s.(free := s.free - 1, live := s.live + {p}, nextPermit := p + 1,
            clients := s.clients[k := Client(p, now)],
            tasks := s.tasks[task := p], responseTasks := s.responseTasks[k := task], nextTask := task + 1,
            admission := None),
         t, Ready(k, p))
  }

  // The state between the entry and the task.
  ghost function Entered(s: State, t: Tid, k: Key, now: nat): State
    requires s.free > 0
  {
    var p := s.nextPermit;
    Goto(s.(free := s.free - 1, live := s.live + {p}, nextPermit := p + 1,
            clients := s.clients[k := Client(p, now)]),
         t, EntryPublished(k, p))
  }

  lemma EntrySteps(s: State, t: Tid, k: Key, now: nat)
    requires PcOf(s, t) == Admitted(k) && s.free > 0 && k !in s.clients
    ensures Step(Step(s, t, TryAcquire), t, PublishEntry(now)) == Entered(s, t, k, now)
  {
    var reserved := Step(s, t, TryAcquire);
    assert PcOf(reserved, t) == Reserved(k, s.nextPermit);
    assert reserved.pcs[t := EntryPublished(k, s.nextPermit)] == s.pcs[t := EntryPublished(k, s.nextPermit)];
  }

  lemma TaskSteps(s: State, t: Tid, k: Key, now: nat)
    requires s.free > 0
    ensures Step(Step(Entered(s, t, k, now), t, PublishTask), t, DropAdmission) == Published(s, t, k, now)
  {
    var started := Step(Entered(s, t, k, now), t, PublishTask);
    assert PcOf(started, t) == TaskPublished(k, s.nextPermit);
    assert started.pcs[t := Ready(k, s.nextPermit)] == s.pcs[t := Ready(k, s.nextPermit)];
  }

  lemma Publishes(s: State, moves: seq<Move>, t: Tid, k: Key, now: nat) returns (moves': seq<Move>)
    requires var s1 := Run(s, moves); PcOf(s1, t) == Admitted(k) && s1.free > 0 && k !in s1.clients
    ensures Run(s, moves') == Published(Run(s, moves), t, k, now)
  {
    EntrySteps(Run(s, moves), t, k, now);
    TaskSteps(Run(s, moves), t, k, now);
    RunSnoc(s, moves, Move(t, TryAcquire));
    moves' := moves + [Move(t, TryAcquire)];
    RunSnoc(s, moves', Move(t, PublishEntry(now)));
    moves' := moves' + [Move(t, PublishEntry(now))];
    RunSnoc(s, moves', Move(t, PublishTask));
    moves' := moves' + [Move(t, PublishTask)];
    RunSnoc(s, moves', Move(t, DropAdmission));
    moves' := moves' + [Move(t, DropAdmission)];
  }

  // One more client with its task, published by a loop that is idle again.
  predicate OneMore(s1: State, s2: State, t: Tid, k: Key, now: nat) {
    && s2.free == s1.free - 1 && s2.admission == None
    && s2.clients == s1.clients[k := Client(s1.nextPermit, now)]
    && s2.tasks == s1.tasks[s1.nextTask := s1.nextPermit]
    && s2.nextPermit == s1.nextPermit + 1 && s2.nextTask == s1.nextTask + 1
    && s2.pcs == s1.pcs[t := Idle]
  }

  // An idle loop with a free permit publishes a client and its task.
  lemma PublishesClient(s: State, moves: seq<Move>, t: Tid, k: Key, now: nat) returns (moves': seq<Move>)
    requires var s1 := Run(s, moves);
      s1.free > 0 && s1.admission == None && PcOf(s1, t).Idle? && k !in s1.clients
    ensures OneMore(Run(s, moves), Run(s, moves'), t, k, now)
  {
    var s1 := Run(s, moves);
    moves' := ReachesAdmission(s, moves, t, k);
    moves' := Publishes(s, moves', t, k, now);
    SentIsOneMore(s1, t, k, now);
    RunSnoc(s, moves', Move(t, Touch(now)));
    moves' := moves' + [Move(t, Touch(now))];
    RunSnoc(s, moves', Move(t, FinishSend));
    moves' := moves' + [Move(t, FinishSend)];
  }

  // Once the first packet is sent, the loop is idle and the client remains.
  lemma SentIsOneMore(s: State, t: Tid, k: Key, now: nat)
    requires s.free > 0
    ensures
      OneMore(s, Step(Step(Published(AtAdmission(s, t, k), t, k, now), t, Touch(now)), t, FinishSend), t, k, now)
  {
    var ready := Published(AtAdmission(s, t, k), t, k, now);
    FinishesSending(ready, t, k, s.nextPermit, now);
    assert ready.pcs[t := Idle] == s.pcs[t := Idle];
  }

  lemma FinishesSending(s: State, t: Tid, k: Key, p: Permit, now: nat)
    requires PcOf(s, t) == Ready(k, p) && k in s.clients && s.clients[k] == Client(p, now)
    ensures Step(Step(s, t, Touch(now)), t, FinishSend) == Goto(s, t, Idle)
  {
    var sent := Step(s, t, Touch(now));
    assert sent == Goto(s, t, Sending(k, p)) by {
      assert s.clients[k := Client(p, now)] == s.clients;
    }
    StillHeld(Goto(sent, t, Idle), p, Entry(k));
    assert sent.pcs[t := Idle] == s.pcs[t := Idle];
  }

  // With no permit free, a loop with a new client chooses the oldest one.
  lemma ChoosesOldest(s: State, moves: seq<Move>, t: Tid, k: Key, oldest: Key) returns (moves': seq<Move>)
    requires var s1 := Run(s, moves);
      s1.free == 0 && s1.admission == None && PcOf(s1, t).Idle? && k !in s1.clients && IsOldest(s1, oldest)
    ensures
      var s1, s2 := Run(s, moves), Run(s, moves');
      && s2.pcs == s1.pcs[t := Scanned(k, oldest, s1.releases)]
      && s2.clients == s1.clients && s2.tasks == s1.tasks && s2.live == s1.live && s2.free == 0
  {
    var s1 := Run(s, moves);
    moves' := ReachesAdmission(s, moves, t, k);
    RunSnoc(s, moves', Move(t, TryAcquire));
    moves' := moves' + [Move(t, TryAcquire)];
    var full := Run(s, moves');
    assert PcOf(full, t) == Full(k, s1.releases) && oldest in full.clients && IsOldest(full, oldest);
    RunSnoc(s, moves', Move(t, Scan(oldest)));
    moves' := moves' + [Move(t, Scan(oldest))];
    assert Run(s, moves').pcs == s1.pcs[t := Scanned(k, oldest, s1.releases)];
  }

  // Clients 0 to `n` - 1; client `i` has permit `i` and was last active at `i`.
  ghost predicate ClientsAre(s: State, n: nat) {
    && (forall k: Key :: k in s.clients <==> k < n)
    && (forall k :: k in s.clients ==> s.clients[k] == Client(k, k))
  }

  ghost predicate TasksBelow(s: State, n: int) {
    forall task :: task in s.tasks ==> s.tasks[task] == task < n
  }

  ghost predicate AllIdle(s: State) {
    forall t: Tid :: PcOf(s, t).Idle?
  }

  // `n` clients, published one after the other.
  ghost predicate Holding(s: State, n: nat) {
    && s.admission == None && s.nextPermit == n && s.nextTask == n
    && ClientsAre(s, n) && TasksBelow(s, n) && AllIdle(s)
  }

  lemma HoldingGrows(s1: State, s2: State, t: Tid, n: nat)
    requires Holding(s1, n) && OneMore(s1, s2, t, n, n)
    ensures Holding(s2, n + 1)
  {
    IdleAgain(s1, s2, t);
  }

  lemma IdleAgain(s1: State, s2: State, u: Tid)
    requires AllIdle(s1) && s2.pcs == s1.pcs[u := Idle]
    ensures AllIdle(s2)
  {
    forall t: Tid ensures PcOf(s2, t).Idle? {
      assert PcOf(s1, t).Idle?;
    }
  }

  // The loop of client `k`: the newest client has a forward of its own.
  function LoopOf(capacity: nat, k: Key): Tid {
    if k + 1 == capacity then 1 else 0
  }

  lemma {:induction false} Fills(capacity: nat, n: nat) returns (moves: seq<Move>)
    requires n <= capacity
    ensures Holding(Run(Init(capacity), moves), n) && Run(Init(capacity), moves).free == capacity - n
  {
    if n == 0 {
      moves := [];
    } else {
      var before := Fills(capacity, n - 1);
      var t := LoopOf(capacity, n - 1);
      CanPublish(Run(Init(capacity), before), t, n - 1);
      moves := PublishesClient(Init(capacity), before, t, n - 1, n - 1);
      HoldingGrows(Run(Init(capacity), before), Run(Init(capacity), moves), t, n - 1);
    }
  }

  lemma CanPublish(s: State, t: Tid, n: nat)
    requires Holding(s, n)
    ensures s.admission == None && PcOf(s, t).Idle? && n !in s.clients
  {
  }

  // The newest client's task ends; its entry still holds the permit.
  lemma NewestTaskEnds(s: State, n: nat)
    requires Holding(s, n) && n >= 1
    ensures
      var s' := Step(s, 0, TaskDropped(n - 1));
      ClientsAre(s', n) && TasksBelow(s', n - 1) && AllIdle(s') && s'.free == s.free && s'.admission == None
  {
    var s' := Step(s, 0, TaskDropped(n - 1));
    StillHeld(s.(tasks := s.tasks - {n - 1}), n - 1, Entry(n - 1));
    forall t: Tid ensures PcOf(s', t).Idle? {
      assert PcOf(s, t).Idle?;
    }
  }

  lemma CanChoose(s: State, n: nat)
    requires ClientsAre(s, n) && AllIdle(s) && n >= 1
    ensures PcOf(s, 0).Idle? && n !in s.clients && IsOldest(s, 0)
  {
  }

  // Client 0 is chosen; every other loop is idle.
  ghost predicate OldestChosen(s: State, n: nat) {
    && ClientsAre(s, n) && TasksBelow(s, n - 1)
    && PcOf(s, 0).Scanned? && PcOf(s, 0).oldest == 0
    && forall t: Tid :: t != 0 ==> PcOf(s, t).Idle?
  }

  lemma ChoiceKeepsClients(s1: State, s2: State, n: nat, seen: nat)
    requires ClientsAre(s1, n) && TasksBelow(s1, n - 1) && AllIdle(s1)
    requires s2.clients == s1.clients && s2.tasks == s1.tasks && s2.pcs == s1.pcs[0 := Scanned(n, 0, seen)]
    ensures OldestChosen(s2, n)
  {
    forall t: Tid | t != 0 ensures PcOf(s2, t).Idle? {
      assert PcOf(s1, t).Idle?;
    }
  }

  lemma OldestClientChosen(capacity: nat) returns (moves: seq<Move>)
    requires capacity >= 1
    ensures OldestChosen(Run(Init(capacity), moves), capacity)
  {
    moves := Fills(capacity, capacity);
    NewestTaskEnds(Run(Init(capacity), moves), capacity);
    RunSnoc(Init(capacity), moves, Move(0, TaskDropped(capacity - 1)));
    moves := moves + [Move(0, TaskDropped(capacity - 1))];
    var s1 := Run(Init(capacity), moves);
    CanChoose(s1, capacity);
    moves := ChoosesOldest(Init(capacity), moves, 0, capacity, 0);
    ChoiceKeepsClients(s1, Run(Init(capacity), moves), capacity, s1.releases);
  }

  // Removing the newest client then frees its permit and leaves the oldest.
  lemma NewestLeaves(s: State, n: nat)
    requires OldestChosen(s, n) && n >= 2 && n - 1 in s.live
    ensures
      var s' := Step(s, 0, RemoveEntry(n - 1));
      Evicting(s', 0) && s'.free == s.free + 1
  {
    var p := s.clients[n - 1].permit;
    forall h: Holder ensures Holds(s, h, p) ==> h == Entry(n - 1) {
      assert h.Local? ==> h.thread == 0 || PcOf(s, h.thread).Idle?;
    }
    LastReferenceFrees(s, n - 1);
  }

  // All permits taken, loop 0 with a new client finds none and chooses the
  // oldest client, one of its own. A reload then drops the forward of loop 1,
  // whose one client is the newest and has no task any more, and its permit is
  // free when the eviction comes.
  lemma FreePermitAtEviction(capacity: nat) returns (moves: seq<Move>)
    requires capacity >= 2
    ensures Evicting(Run(Init(capacity), moves), 0) && Run(Init(capacity), moves).free > 0
  {
    moves := OldestClientChosen(capacity);
    var newest := capacity - 1;
    RunKeepsInv(capacity, moves);
    HolderIsLive(Run(Init(capacity), moves), Entry(newest), newest, capacity);
    NewestLeaves(Run(Init(capacity), moves), capacity);
    RunSnoc(Init(capacity), moves, Move(0, RemoveEntry(newest)));
    moves := moves + [Move(0, RemoveEntry(newest))];
  }

  // For every semaphore: some run evicts a client although a permit is free if
  // and only if there are at least two permits.
  lemma EvictionWithFreePermit(capacity: nat)
    ensures
      (exists moves, t :: Evicting(Run(Init(capacity), moves), t) && Run(Init(capacity), moves).free > 0)
      <==> capacity >= 2
  {
    if capacity >= 2 {
      var moves := FreePermitAtEviction(capacity);
      assert Evicting(Run(Init(capacity), moves), 0) && Run(Init(capacity), moves).free > 0;
    }
    forall moves, t | Evicting(Run(Init(capacity), moves), t) && Run(Init(capacity), moves).free > 0
      ensures capacity >= 2
    {
      RunKeepsInv(capacity, moves);
      var s := Run(Init(capacity), moves);
      var oldest := PcOf(s, t).oldest;
      HolderIsLive(s, Entry(oldest), s.clients[oldest].permit, capacity);
    }
  }

  // Removing an entry that is its permit's last reference returns the permit.
  lemma LastReferenceFrees(s: State, k: Key)
    requires k in s.clients && s.clients[k].permit in s.live
    requires forall h :: Holds(s, h, s.clients[k].permit) ==> h == Entry(k)
    ensures DropEntry(s, k).free == s.free + 1
  {
    var p := s.clients[k].permit;
    var reaped := s.(clients := s.clients - {k});
    forall h ensures !Holds(reaped, h, p) {
      assert Holds(reaped, h, p) ==> Holds(s, h, p);
    }
  }
}
