// UDP client admission of the port-forward adapter
// (rust/easytier-core/src/gateway/port_forward.rs), as the interleaving of any
// number of forward loops with the reaper, configuration reloads, stop and the
// runtime dropping finished tasks.
//
// A semaphore permit is shared by its client entry, the response task and any
// loop that holds the client; it returns to the semaphore when the last of
// them lets go. The reaper, reloads and stop remove entries and task handles
// at times of their own, so the model lets any of these removals happen at any
// time.
module PortForwardSlots {
  import opened Wrappers

  const MAX_ACTIVE_UDP_CLIENTS: nat := 256

  type Tid = nat
  type Key = nat
  type Permit = nat
  type Task = nat

  datatype Holder = Entry(key: Key) | Running(task: Task) | Local(thread: Tid)

  datatype Client = Client(permit: Permit, lastActive: nat)

  // Where a forward loop is with the packet it handles.
  datatype Pc =
    | Idle
    | Opening(key: Key)                              // awaiting the flow
    | WantAdmission(key: Key)
    | Admitted(key: Key)                             // head of the reservation loop
    | Full(key: Key, seen: nat)                      // try_acquire has failed
    | Scanned(key: Key, oldest: Key, seen: nat)      // eviction candidate chosen
    | Removed(key: Key, oldest: Key, permit: Permit) // its entry is out of the map
    | Evicted(key: Key, permit: Permit)              // has dropped it, awaiting a permit
    | Reserved(key: Key, permit: Permit)
    | EntryPublished(key: Key, permit: Permit)
    | TaskPublished(key: Key, permit: Permit)        // before dropping admission
    | Ready(key: Key, permit: Permit)                // has its client, before stamping it
    | Sending(key: Key, permit: Permit)

  datatype Action =
    | Packet(key: Key)
    | FlowOpened(success: bool)
    | Admit
    | TryAcquire
    | Scan(candidate: Key)
    | RemoveOldest
    | DropEvicted
    | AcquireWaited
    | PublishEntry(now: nat)
    | PublishTask
    | DropAdmission
    | Touch(now: nat)
    | FinishSend
    | Cancel                        // cancelled or aborted at an await
    | RemoveEntry(removedKey: Key)  // reaper, reload or stop
    | RemoveHandle(handleKey: Key)  // reaper, reload or stop
    | TaskDropped(task: Task)       // a response task ended or its abort completed

  datatype State = State(
    free: nat,
    live: set<Permit>,
    clients: map<Key, Client>,
    responseTasks: map<Key, Task>,
    tasks: map<Task, Permit>,
    admission: Option<Tid>,
    pcs: map<Tid, Pc>,
    nextPermit: Permit,
    nextTask: Task,
    // history
    releases: nat,
    evictions: map<Tid, nat>
  )

  function Init(capacity: nat): State {
    State(capacity, {}, map[], map[], map[], None, map[], 0, 0, 0, map[])
  }

  function PcOf(s: State, t: Tid): Pc {
    if t in s.pcs then s.pcs[t] else Idle
  }

  function EvictionsOf(s: State, t: Tid): nat {
    if t in s.evictions then s.evictions[t] else 0
  }

  function Goto(s: State, t: Tid, pc: Pc): State {
    s.(pcs := s.pcs[t := pc])
  }

  // The permit a loop holds by itself.
  predicate HasLocal(pc: Pc, p: Permit) {
    && (pc.Removed? || pc.Reserved? || pc.EntryPublished? || pc.TaskPublished? || pc.Ready? || pc.Sending?)
    && pc.permit == p
  }

  // Whether `h` is a reference to permit `p`.
  predicate Holds(s: State, h: Holder, p: Permit) {
    match h
    case Entry(k) => k in s.clients && s.clients[k].permit == p
    case Running(task) => task in s.tasks && s.tasks[task] == p
    case Local(t) => HasLocal(PcOf(s, t), p)
  }

  ghost predicate Held(s: State, p: Permit) {
    exists h :: Holds(s, h, p)
  }

  // After a reference to `p` is gone: the last one returns the permit.
  ghost function Settle(s: State, p: Permit): (r: State)
    ensures r.pcs == s.pcs && r.admission == s.admission && r.evictions == s.evictions
    ensures r.clients == s.clients && r.tasks == s.tasks
  {
    if p in s.live && !Held(s, p) then s.(live := s.live - {p}, free := s.free + 1, releases := s.releases + 1)
    else s
  }

  // A permit leaves the semaphore into the reservation of thread `t`.
  function Acquire(s: State, t: Tid, key: Key): State
    requires s.free > 0
  {
    var p := s.nextPermit;
    Goto(s.(free := s.free - 1, live := s.live + {p}, nextPermit := p + 1), t, Reserved(key, p))
  }

  predicate IsOldest(s: State, k: Key) {
    k in s.clients && forall x :: x in s.clients ==> s.clients[k].lastActive <= s.clients[x].lastActive
  }

  ghost function DropEntry(s: State, k: Key): (r: State)
    ensures r.pcs == s.pcs && r.admission == s.admission && r.evictions == s.evictions
    ensures r.clients == s.clients - {k}
  {
    assert k !in s.clients ==> s.clients - {k} == s.clients;
    if k in s.clients then Settle(s.(clients := s.clients - {k}), s.clients[k].permit) else s
  }

  // Thread `t` lets go of the permit it holds by itself.
  ghost function DropLocal(s: State, t: Tid, next: Pc, p: Permit): State {
    Settle(Goto(s, t, next), p)
  }

  // The client stored with permit `p`, if it still is, was active now.
  function Stamped(s: State, k: Key, p: Permit, now: nat): State {
    if k in s.clients && s.clients[k].permit == p then s.(clients := s.clients[k := Client(p, now)]) else s
  }

  // One step of loop `t`; an action it cannot take changes nothing.
  ghost function Step(s: State, t: Tid, a: Action): State {
    var pc := PcOf(s, t);
    match a
    case Packet(k) =>
      if !pc.Idle? then s
      else if k in s.clients then
        Goto(s, t, Ready(k, s.clients[k].permit))
      else Goto(s, t, Opening(k))
    case FlowOpened(ok) =>
      if pc.Opening? then Goto(s, t, if ok then WantAdmission(pc.key) else Idle) else s
    case Admit =>
      if pc.WantAdmission? && s.admission.None? then
        Goto(s.(admission := Some(t), evictions := s.evictions[t := 0]), t, Admitted(pc.key))
      else s
    case TryAcquire =>
      if !pc.Admitted? then s
      else if s.free > 0 then Acquire(s, t, pc.key)
      else Goto(s, t, Full(pc.key, s.releases))
    case Scan(candidate) =>
      if !pc.Full? then s
      else if |s.clients| == 0 then Goto(s.(admission := None), t, Idle)
      else if IsOldest(s, candidate) then Goto(s, t, Scanned(pc.key, candidate, pc.seen))
      else s
    case RemoveOldest =>
      if !pc.Scanned? then s
      else if pc.oldest !in s.clients then Goto(s, t, Admitted(pc.key))
      else
        var p := s.clients[pc.oldest].permit;
        var counted := s.(evictions := s.evictions[t := EvictionsOf(s, t) + 1]);
        DropEntry(Goto(counted, t, Removed(pc.key, pc.oldest, p)), pc.oldest)
    case DropEvicted =>
      if !pc.Removed? then s
      else
        DropLocal(s.(responseTasks := s.responseTasks - {pc.oldest}), t, Evicted(pc.key, pc.permit), pc.permit)
    case AcquireWaited =>
      if pc.Evicted? && s.free > 0 then Acquire(s, t, pc.key) else s
    case PublishEntry(now) =>
      if !pc.Reserved? then s
      else
        var replaced := DropEntry(s, pc.key);
        Goto(replaced.(clients := replaced.clients[pc.key := Client(pc.permit, now)]),
             t, EntryPublished(pc.key, pc.permit))
    case PublishTask =>
      if !pc.EntryPublished? then s
      else
        var task := s.nextTask;
        Goto(s.(tasks := s.tasks[task := pc.permit], responseTasks := s.responseTasks[pc.key := task],
                nextTask := task + 1),
             t, TaskPublished(pc.key, pc.permit))
    case DropAdmission =>
      if pc.TaskPublished? then Goto(s.(admission := None), t, Ready(pc.key, pc.permit)) else s
    case Touch(now) =>
      if pc.Ready? then Goto(Stamped(s, pc.key, pc.permit, now), t, Sending(pc.key, pc.permit)) else s
    case FinishSend =>
      if pc.Sending? then DropLocal(s, t, Idle, pc.permit) else s
    case Cancel =>
      if pc.Opening? || pc.WantAdmission? then Goto(s, t, Idle)
      else if pc.Evicted? then Goto(s.(admission := None), t, Idle)
      else if pc.Sending? then DropLocal(s, t, Idle, pc.permit)
      else s
    case RemoveEntry(k) => DropEntry(s, k)
    case RemoveHandle(k) => s.(responseTasks := s.responseTasks - {k})
    case TaskDropped(task) =>
      if task in s.tasks then Settle(s.(tasks := s.tasks - {task}), s.tasks[task]) else s
  }

  datatype Move = Move(thread: Tid, action: Action)

  ghost function Run(s: State, moves: seq<Move>): State
    decreases |moves|
  {
    if moves == [] then s
    else
      var m := moves[|moves| - 1];
      Step(Run(s, moves[..|moves| - 1]), m.thread, m.action)
  }

  lemma RunSnoc(s: State, moves: seq<Move>, m: Move)
    ensures Run(s, moves + [m]) == Step(Run(s, moves), m.thread, m.action)
  {
    assert (moves + [m])[..|moves|] == moves;
  }

  // A loop about to evict.
  predicate Evicting(s: State, t: Tid) {
    PcOf(s, t).Scanned? && PcOf(s, t).oldest in s.clients
  }

  predicate HoldsAdmission(pc: Pc) {
    || pc.Admitted? || pc.Full? || pc.Scanned? || pc.Removed? || pc.Evicted?
    || pc.Reserved? || pc.EntryPublished? || pc.TaskPublished?
  }

  // Free and live permits add up; a permit is live exactly while something
  // refers to it.
  ghost predicate PermitInv(s: State, capacity: nat) {
    && s.free + |s.live| == capacity
    && (forall p :: p in s.live ==> p < s.nextPermit)
    && (forall p :: p in s.live <==> Held(s, p))
    && (forall task :: task in s.tasks ==> task < s.nextTask)
  }

  // No two entries share a permit.
  ghost predicate EntriesDistinct(s: State) {
    forall j, k :: j in s.clients && k in s.clients && s.clients[j].permit == s.clients[k].permit ==> j == k
  }

  // What a loop's position says about admission, its reservation and the
  // permits it has seen.
  ghost predicate ThreadInv(s: State, t: Tid) {
    var pc := PcOf(s, t);
    && (HoldsAdmission(pc) <==> s.admission == Some(t))
    && (pc.Reserved? ==> forall k :: k in s.clients ==> s.clients[k].permit != pc.permit)
    && (pc.Full? || pc.Scanned? ==> pc.seen <= s.releases && s.free == s.releases - pc.seen)
    && (pc.Admitted? || pc.Full? || pc.Scanned? ==> EvictionsOf(s, t) == 0)
    && EvictionsOf(s, t) <= 1
  }

  ghost predicate Inv(s: State, capacity: nat) {
    PermitInv(s, capacity) && EntriesDistinct(s) && (forall t: Tid :: ThreadInv(s, t))
  }

  // ----- permit accounting -----

  // Liveness is right except that the last reference to `p` may just have
  // gone.
  ghost predicate Unsettled(s: State, p: Permit, capacity: nat) {
    && s.free + |s.live| == capacity
    && (forall q :: q in s.live ==> q < s.nextPermit)
    && (forall q :: q != p ==> (q in s.live <==> Held(s, q)))
    && (Held(s, p) ==> p in s.live)
    && (forall task :: task in s.tasks ==> task < s.nextTask)
  }

  lemma SettleRestores(s: State, p: Permit, capacity: nat)
    requires Unsettled(s, p, capacity)
    ensures PermitInv(Settle(s, p), capacity)
  {
    var s' := Settle(s, p);
    forall q ensures Held(s', q) <==> Held(s, q) {
      assert forall h :: Holds(s', h, q) <==> Holds(s, h, q);
    }
  }

  // Taking an entry out unsettles only its own permit.
  lemma EntryRemovalUnsettles(s: State, k: Key, capacity: nat)
    requires PermitInv(s, capacity) && k in s.clients
    ensures Unsettled(s.(clients := s.clients - {k}), s.clients[k].permit, capacity)
  {
    var p := s.clients[k].permit;
    var s' := s.(clients := s.clients - {k});
    forall q ensures Held(s', q) ==> Held(s, q) {
      if h :| Holds(s', h, q) {
        assert Holds(s, h, q);
      }
    }
    forall q | q != p && Held(s, q) ensures Held(s', q) {
      var h :| Holds(s, h, q);
      assert Holds(s', h, q);
    }
  }

  lemma DropEntryKeepsPermits(s: State, k: Key, capacity: nat)
    requires PermitInv(s, capacity)
    ensures PermitInv(DropEntry(s, k), capacity)
  {
    if k in s.clients {
      EntryRemovalUnsettles(s, k, capacity);
      SettleRestores(s.(clients := s.clients - {k}), s.clients[k].permit, capacity);
    }
  }

  lemma TaskDropKeepsPermits(s: State, task: Task, capacity: nat)
    requires PermitInv(s, capacity) && task in s.tasks
    ensures PermitInv(Settle(s.(tasks := s.tasks - {task}), s.tasks[task]), capacity)
  {
    var p := s.tasks[task];
    var s' := s.(tasks := s.tasks - {task});
    forall q ensures Held(s', q) ==> Held(s, q) {
      if h :| Holds(s', h, q) {
        assert Holds(s, h, q);
      }
    }
    forall q | q != p && Held(s, q) ensures Held(s', q) {
      var h :| Holds(s, h, q);
      assert Holds(s', h, q);
    }
    SettleRestores(s', p, capacity);
  }

  lemma DropLocalKeepsPermits(s: State, t: Tid, next: Pc, p: Permit, capacity: nat)
    requires PermitInv(s, capacity) && HasLocal(PcOf(s, t), p)
    requires forall q :: !HasLocal(next, q)
    ensures PermitInv(DropLocal(s, t, next, p), capacity)
  {
    var s' := Goto(s, t, next);
    forall q ensures Held(s', q) ==> Held(s, q) {
      if h :| Holds(s', h, q) {
        assert Holds(s, h, q);
      }
    }
    forall q | q != p && Held(s, q) ensures Held(s', q) {
      var h :| Holds(s, h, q);
      assert Holds(s', h, q);
    }
    SettleRestores(s', p, capacity);
  }

  // Adding a reference to a live permit, or none at all.
  lemma MoreReferences(s: State, s': State, capacity: nat)
    requires PermitInv(s, capacity)
    requires s'.free == s.free && s'.live == s.live && s'.nextPermit == s.nextPermit
    requires forall task :: task in s'.tasks ==> task < s'.nextTask
    requires forall h, p :: Holds(s, h, p) ==> Holds(s', h, p)
    requires forall h, p :: Holds(s', h, p) ==> p in s.live
    ensures PermitInv(s', capacity)
  {
    forall p ensures p in s'.live <==> Held(s', p) {
      if Held(s, p) {
        var h :| Holds(s, h, p);
        assert Holds(s', h, p);
      }
    }
  }

  lemma HolderIsLive(s: State, h: Holder, p: Permit, capacity: nat)
    requires PermitInv(s, capacity) && Holds(s, h, p)
    ensures p in s.live
  {
    assert Held(s, p);
  }

  // A thread that neither had nor gets a permit of its own moves.
  lemma GotoKeepsPermits(s: State, s': State, t: Tid, next: Pc, capacity: nat)
    requires PermitInv(s, capacity)
    requires forall p :: !HasLocal(PcOf(s, t), p) && !HasLocal(next, p)
    requires s' == Goto(s, t, next).(admission := s'.admission, evictions := s'.evictions)
    ensures PermitInv(s', capacity)
  {
    forall h, p ensures Holds(s', h, p) <==> Holds(s, h, p) {
    }
    forall h, p | Holds(s', h, p) ensures p in s.live {
      HolderIsLive(s, h, p, capacity);
    }
    MoreReferences(s, s', capacity);
  }

  // A thread that holds a permit of its own, or takes a reference to a live
  // one, moves on holding it; entries and tasks may gain references to it too.
  lemma KeepLocal(s: State, s': State, t: Tid, p: Permit, capacity: nat)
    requires PermitInv(s, capacity) && p in s.live
    requires s'.free == s.free && s'.live == s.live && s'.nextPermit == s.nextPermit
    requires forall task :: task in s'.tasks ==> task < s'.nextTask
    requires HasLocal(PcOf(s', t), p) && forall q :: HasLocal(PcOf(s, t), q) ==> q == p
    requires forall u: Tid :: u != t ==> PcOf(s', u) == PcOf(s, u)
    requires forall h: Holder, q :: !h.Local? && Holds(s, h, q) ==> Holds(s', h, q)
    requires forall h: Holder, q :: !h.Local? && Holds(s', h, q) ==> Holds(s, h, q) || q == p
    ensures PermitInv(s', capacity)
  {
    forall h, q | Holds(s, h, q) ensures Holds(s', h, q) {
      if h.Local? && h.thread != t {
        assert PcOf(s', h.thread) == PcOf(s, h.thread);
      }
    }
    forall h, q | Holds(s', h, q) ensures q in s.live {
      if q != p {
        if h.Local? && h.thread != t {
          assert PcOf(s', h.thread) == PcOf(s, h.thread);
        }
        HolderIsLive(s, h, q, capacity);
      }
    }
    MoreReferences(s, s', capacity);
  }

  lemma AcquireKeepsPermits(s: State, t: Tid, key: Key, capacity: nat)
    requires PermitInv(s, capacity) && s.free > 0
    requires forall p :: !HasLocal(PcOf(s, t), p)
    ensures PermitInv(Acquire(s, t, key), capacity)
  {
    var s' := Acquire(s, t, key);
    var fresh' := s.nextPermit;
    assert fresh' !in s.live;
    assert Holds(s', Local(t), fresh');
    forall p ensures p in s'.live <==> Held(s', p) {
      if h :| Holds(s', h, p) {
        if p != fresh' {
          assert Holds(s, h, p);
          HolderIsLive(s, h, p, capacity);
        }
      }
      if p in s.live {
        var h :| Holds(s, h, p);
        assert Holds(s', h, p);
      }
    }
  }

  lemma PublishEntryKeepsPermits(s: State, t: Tid, now: nat, capacity: nat)
    requires Inv(s, capacity)
    ensures PermitInv(Step(s, t, PublishEntry(now)), capacity)
  {
    var pc := PcOf(s, t);
    if pc.Reserved? {
      var replaced := DropEntry(s, pc.key);
      DropEntryKeepsPermits(s, pc.key, capacity);
      HolderIsLive(replaced, Local(t), pc.permit, capacity);
      KeepLocal(replaced, Step(s, t, PublishEntry(now)), t, pc.permit, capacity);
    }
  }

  lemma EvictionKeepsPermits(s: State, t: Tid, capacity: nat)
    requires PermitInv(s, capacity) && Evicting(s, t)
    ensures PermitInv(Step(s, t, RemoveOldest), capacity)
  {
    var pc := PcOf(s, t);
    var p := s.clients[pc.oldest].permit;
    HolderIsLive(s, Entry(pc.oldest), p, capacity);
    var counted := s.(evictions := s.evictions[t := EvictionsOf(s, t) + 1]);
    var mid := Goto(counted, t, Removed(pc.key, pc.oldest, p));
    KeepLocal(s, mid, t, p, capacity);
    DropEntryKeepsPermits(mid, pc.oldest, capacity);
  }

  lemma RemoveOldestKeepsPermits(s: State, t: Tid, capacity: nat)
    requires PermitInv(s, capacity)
    ensures PermitInv(Step(s, t, RemoveOldest), capacity)
  {
    if Evicting(s, t) {
      EvictionKeepsPermits(s, t, capacity);
    } else if PcOf(s, t).Scanned? {
      GotoKeepsPermits(s, Step(s, t, RemoveOldest), t, Admitted(PcOf(s, t).key), capacity);
    }
  }

  lemma TouchKeepsPermits(s: State, t: Tid, now: nat, capacity: nat)
    requires PermitInv(s, capacity)
    ensures PermitInv(Step(s, t, Touch(now)), capacity)
  {
    var s', pc := Step(s, t, Touch(now)), PcOf(s, t);
    if pc.Ready? {
      HolderIsLive(s, Local(t), pc.permit, capacity);
      KeepLocal(s, s', t, pc.permit, capacity);
    }
  }

  lemma HandleKeepsPermits(s: State, handles: map<Key, Task>, capacity: nat)
    requires PermitInv(s, capacity)
    ensures PermitInv(s.(responseTasks := handles), capacity)
  {
    var s' := s.(responseTasks := handles);
    forall h, p ensures Holds(s', h, p) <==> Holds(s, h, p) {
    }
    forall h, p | Holds(s', h, p) ensures p in s.live {
      HolderIsLive(s, h, p, capacity);
    }
    MoreReferences(s, s', capacity);
  }

  // Whether the step takes a permit out of the semaphore.
  predicate Acquires(s: State, t: Tid, a: Action) {
    s.free > 0 && ((a.TryAcquire? && PcOf(s, t).Admitted?) || (a.AcquireWaited? && PcOf(s, t).Evicted?))
  }

  lemma PacketKeepsPermits(s: State, t: Tid, k: Key, capacity: nat)
    requires PermitInv(s, capacity)
    ensures PermitInv(Step(s, t, Packet(k)), capacity)
  {
    var s' := Step(s, t, Packet(k));
    if PcOf(s, t).Idle? {
      if k in s.clients {
        HolderIsLive(s, Entry(k), s.clients[k].permit, capacity);
        KeepLocal(s, s', t, s.clients[k].permit, capacity);
      } else {
        GotoKeepsPermits(s, s', t, Opening(k), capacity);
      }
    }
  }

  lemma PublishTaskKeepsPermits(s: State, t: Tid, capacity: nat)
    requires PermitInv(s, capacity)
    ensures PermitInv(Step(s, t, PublishTask), capacity)
  {
    if PcOf(s, t).EntryPublished? {
      HolderIsLive(s, Local(t), PcOf(s, t).permit, capacity);
      KeepLocal(s, Step(s, t, PublishTask), t, PcOf(s, t).permit, capacity);
    }
  }

  lemma DropAdmissionKeepsPermits(s: State, t: Tid, capacity: nat)
    requires PermitInv(s, capacity)
    ensures PermitInv(Step(s, t, DropAdmission), capacity)
  {
    if PcOf(s, t).TaskPublished? {
      HolderIsLive(s, Local(t), PcOf(s, t).permit, capacity);
      KeepLocal(s, Step(s, t, DropAdmission), t, PcOf(s, t).permit, capacity);
    }
  }

  lemma DropEvictedKeepsPermits(s: State, t: Tid, capacity: nat)
    requires PermitInv(s, capacity)
    ensures PermitInv(Step(s, t, DropEvicted), capacity)
  {
    var pc := PcOf(s, t);
    if pc.Removed? {
      var unlisted := s.(responseTasks := s.responseTasks - {pc.oldest});
      HandleKeepsPermits(s, s.responseTasks - {pc.oldest}, capacity);
      DropLocalKeepsPermits(unlisted, t, Evicted(pc.key, pc.permit), pc.permit, capacity);
    }
  }

  lemma SendEndsKeepsPermits(s: State, t: Tid, capacity: nat)
    requires PermitInv(s, capacity) && PcOf(s, t).Sending?
    ensures PermitInv(DropLocal(s, t, Idle, PcOf(s, t).permit), capacity)
  {
    DropLocalKeepsPermits(s, t, Idle, PcOf(s, t).permit, capacity);
  }

  lemma CancelKeepsPermits(s: State, t: Tid, capacity: nat)
    requires PermitInv(s, capacity)
    ensures PermitInv(Step(s, t, Cancel), capacity)
  {
    var s' := Step(s, t, Cancel);
    if PcOf(s, t).Sending? {
      SendEndsKeepsPermits(s, t, capacity);
    } else if s' != s {
      GotoKeepsPermits(s, s', t, Idle, capacity);
    }
  }

  // The reservation's steps up to a permit or an eviction.
  lemma ReservationKeepsPermits(s: State, t: Tid, a: Action, capacity: nat)
    requires PermitInv(s, capacity) && (a.FlowOpened? || a.Admit? || a.TryAcquire? || a.Scan? || a.AcquireWaited?)
    ensures PermitInv(Step(s, t, a), capacity)
  {
    var s' := Step(s, t, a);
    if Acquires(s, t, a) {
      AcquireKeepsPermits(s, t, PcOf(s, t).key, capacity);
    } else if s' != s {
      GotoKeepsPermits(s, s', t, PcOf(s', t), capacity);
    }
  }

  lemma StepKeepsPermits(s: State, t: Tid, a: Action, capacity: nat)
    requires Inv(s, capacity)
    ensures PermitInv(Step(s, t, a), capacity)
  {
    match a
    case Packet(k) => PacketKeepsPermits(s, t, k, capacity);
    case RemoveOldest => RemoveOldestKeepsPermits(s, t, capacity);
    case DropEvicted => DropEvictedKeepsPermits(s, t, capacity);
    case PublishEntry(now) => PublishEntryKeepsPermits(s, t, now, capacity);
    case PublishTask => PublishTaskKeepsPermits(s, t, capacity);
    case DropAdmission => DropAdmissionKeepsPermits(s, t, capacity);
    case Touch(now) => TouchKeepsPermits(s, t, now, capacity);
    case FinishSend =>
      if PcOf(s, t).Sending? {
        SendEndsKeepsPermits(s, t, capacity);
      }
    case Cancel => CancelKeepsPermits(s, t, capacity);
    case RemoveEntry(k) => DropEntryKeepsPermits(s, k, capacity);
    case RemoveHandle(k) => HandleKeepsPermits(s, s.responseTasks - {k}, capacity);
    case TaskDropped(task) =>
      if task in s.tasks {
        TaskDropKeepsPermits(s, task, capacity);
      }
    case _ => ReservationKeepsPermits(s, t, a, capacity);
  }

  // ----- the other invariants -----

  // The actions that may let go of a reference to a permit.
  predicate DropsReference(a: Action) {
    || a.RemoveOldest? || a.DropEvicted? || a.PublishEntry? || a.FinishSend? || a.Cancel?
    || a.RemoveEntry? || a.TaskDropped?
  }

  lemma SettlingIsLocal(s: State, t: Tid, a: Action, u: Tid)
    requires u != t && DropsReference(a)
    ensures PcOf(Step(s, t, a), u) == PcOf(s, u)
    ensures EvictionsOf(Step(s, t, a), u) == EvictionsOf(s, u)
  {
  }

  // The steps of a reservation up to its permit.
  predicate Reserves(a: Action) {
    a.Packet? || a.FlowOpened? || a.Admit? || a.TryAcquire? || a.Scan? || a.AcquireWaited?
  }

  lemma ReservingIsLocal(s: State, t: Tid, a: Action, u: Tid)
    requires u != t && Reserves(a)
    ensures PcOf(Step(s, t, a), u) == PcOf(s, u)
    ensures EvictionsOf(Step(s, t, a), u) == EvictionsOf(s, u)
  {
  }

  // A step moves only its own loop.
  lemma StepIsLocal(s: State, t: Tid, a: Action, u: Tid)
    requires u != t
    ensures PcOf(Step(s, t, a), u) == PcOf(s, u)
    ensures EvictionsOf(Step(s, t, a), u) == EvictionsOf(s, u)
  {
    if DropsReference(a) {
      SettlingIsLocal(s, t, a, u);
    } else if Reserves(a) {
      ReservingIsLocal(s, t, a, u);
    }
  }

  // Every change of the free count is a release.
  predicate Balanced(s: State, s': State) {
    s'.releases >= s.releases && s'.free == s.free + (s'.releases - s.releases)
  }

  lemma EntryDropsBalance(s: State, t: Tid, a: Action)
    requires a.RemoveOldest? || a.PublishEntry? || a.RemoveEntry?
    ensures Balanced(s, Step(s, t, a))
  {
  }

  lemma LocalDropsBalance(s: State, t: Tid, a: Action)
    requires a.DropEvicted? || a.FinishSend? || a.Cancel? || a.TaskDropped?
    ensures Balanced(s, Step(s, t, a))
  {
  }

  // Apart from acquisitions, every change of the free count is a release.
  lemma StepBalancesReleases(s: State, t: Tid, a: Action)
    requires !Acquires(s, t, a)
    ensures Balanced(s, Step(s, t, a))
  {
    if !DropsReference(a) {
      OnlySettlingReleases(s, t, a);
    } else if a.RemoveOldest? || a.PublishEntry? || a.RemoveEntry? {
      EntryDropsBalance(s, t, a);
    } else {
      LocalDropsBalance(s, t, a);
    }
  }

  lemma OnlySettlingReleases(s: State, t: Tid, a: Action)
    requires !Acquires(s, t, a) && !DropsReference(a)
    ensures Step(s, t, a).releases == s.releases && Step(s, t, a).free == s.free
  {
  }

  // An entry in the map was there before with the same permit, or has just
  // been published from its reservation.
  lemma StepEntries(s: State, t: Tid, a: Action, k: Key)
    requires k in Step(s, t, a).clients
    ensures
      var permit := Step(s, t, a).clients[k].permit;
      || (k in s.clients && s.clients[k].permit == permit)
      || (a.PublishEntry? && PcOf(s, t).Reserved? && k == PcOf(s, t).key && permit == PcOf(s, t).permit)
  {
    if DropsReference(a) && !a.PublishEntry? {
      SettlingEntries(s, t, a, k);
    }
  }

  lemma SettlingEntries(s: State, t: Tid, a: Action, k: Key)
    requires DropsReference(a) && !a.PublishEntry? && k in Step(s, t, a).clients
    ensures k in s.clients && s.clients[k] == Step(s, t, a).clients[k]
  {
  }

  lemma StepKeepsDistinct(s: State, t: Tid, a: Action, capacity: nat)
    requires Inv(s, capacity)
    ensures EntriesDistinct(Step(s, t, a))
  {
    var s' := Step(s, t, a);
    assert ThreadInv(s, t);
    forall j, k | j in s'.clients && k in s'.clients && s'.clients[j].permit == s'.clients[k].permit ensures j == k {
      StepEntries(s, t, a, j);
      StepEntries(s, t, a, k);
    }
  }

  // No step gives or takes another thread's admission.
  lemma AdmissionOfOthers(s: State, t: Tid, a: Action, u: Tid)
    requires ThreadInv(s, t) && u != t
    ensures Step(s, t, a).admission == Some(u) <==> s.admission == Some(u)
  {
    if DropsReference(a) && !a.Cancel? {
      SettlingKeepsAdmission(s, t, a);
    }
  }

  lemma ReservationStaysUnpublished(s: State, t: Tid, a: Action, u: Tid, capacity: nat)
    requires Inv(s, capacity) && u != t && PcOf(s, u).Reserved?
    ensures
      var s' := Step(s, t, a);
      forall k :: k in s'.clients ==> s'.clients[k].permit != PcOf(s, u).permit
  {
    var s' := Step(s, t, a);
    assert ThreadInv(s, t) && ThreadInv(s, u);
    forall k | k in s'.clients ensures s'.clients[k].permit != PcOf(s, u).permit {
      StepEntries(s, t, a, k);
    }
  }

  lemma OtherThreadInv(s: State, t: Tid, a: Action, u: Tid, capacity: nat)
    requires Inv(s, capacity) && u != t
    ensures ThreadInv(Step(s, t, a), u)
  {
    assert ThreadInv(s, t) && ThreadInv(s, u);
    StepIsLocal(s, t, a, u);
    AdmissionOfOthers(s, t, a, u);
    if PcOf(s, u).Full? || PcOf(s, u).Scanned? {
      StepBalancesReleases(s, t, a);
    }
    if PcOf(s, u).Reserved? {
      ReservationStaysUnpublished(s, t, a, u, capacity);
    }
  }

  lemma FreshPermitHasNoEntry(s: State, k: Key, capacity: nat)
    requires PermitInv(s, capacity) && k in s.clients
    ensures s.clients[k].permit < s.nextPermit
  {
    HolderIsLive(s, Entry(k), s.clients[k].permit, capacity);
  }

  // Steps of the environment that leave every loop where it is.
  predicate Environment(a: Action) {
    a.RemoveEntry? || a.RemoveHandle? || a.TaskDropped?
  }

  lemma EnvironmentKeepsThread(s: State, t: Tid, a: Action, capacity: nat)
    requires Inv(s, capacity) && Environment(a)
    ensures ThreadInv(Step(s, t, a), t)
  {
    var s' := Step(s, t, a);
    assert ThreadInv(s, t);
    assert PcOf(s', t) == PcOf(s, t) && s'.admission == s.admission && s'.evictions == s.evictions;
    StepBalancesReleases(s, t, a);
    forall k | k in s'.clients && PcOf(s, t).Reserved? ensures s'.clients[k].permit != PcOf(s, t).permit {
      StepEntries(s, t, a, k);
    }
  }

  lemma SettlingKeepsAdmission(s: State, t: Tid, a: Action)
    requires DropsReference(a) && !a.Cancel?
    ensures Step(s, t, a).admission == s.admission
    ensures HoldsAdmission(PcOf(Step(s, t, a), t)) == HoldsAdmission(PcOf(s, t))
  {
  }

  lemma OwnAdmission(s: State, t: Tid, a: Action)
    requires HoldsAdmission(PcOf(s, t)) <==> s.admission == Some(t)
    ensures HoldsAdmission(PcOf(Step(s, t, a), t)) <==> Step(s, t, a).admission == Some(t)
  {
    if DropsReference(a) && !a.Cancel? {
      SettlingKeepsAdmission(s, t, a);
    } else if Reserves(a) {
      ReservingAdmission(s, t, a);
    }
  }

  lemma ReservingAdmission(s: State, t: Tid, a: Action)
    requires Reserves(a) && (HoldsAdmission(PcOf(s, t)) <==> s.admission == Some(t))
    ensures HoldsAdmission(PcOf(Step(s, t, a), t)) <==> Step(s, t, a).admission == Some(t)
  {
    match a
    case Packet(_) => assert PcOf(s, t).Idle? ==> !HoldsAdmission(PcOf(Step(s, t, a), t));
    case FlowOpened(_) => assert PcOf(s, t).Opening? ==> !HoldsAdmission(PcOf(Step(s, t, a), t));
    case Admit =>
    case TryAcquire => assert PcOf(s, t).Admitted? ==> HoldsAdmission(PcOf(Step(s, t, a), t));
    case Scan(_) =>
    case AcquireWaited => assert PcOf(s, t).Evicted? ==> HoldsAdmission(PcOf(Step(s, t, a), t));
    case _ =>
  }

  // Outside the section before an eviction nothing is promised of the count
  // but its bound.
  lemma SettlingEvictions(s: State, t: Tid, a: Action)
    requires ThreadInv(s, t) && DropsReference(a)
    ensures
      var s' := Step(s, t, a);
      var pc' := PcOf(s', t);
      && EvictionsOf(s', t) <= 1
      && (pc'.Admitted? || pc'.Full? || pc'.Scanned? ==> EvictionsOf(s', t) == 0)
  {
    if a.RemoveOldest? {
      EvictionIsCounted(s, t);
    } else {
      OthersEvictNothing(s, t, a);
    }
  }

  lemma EvictionIsCounted(s: State, t: Tid)
    requires ThreadInv(s, t)
    ensures
      var s' := Step(s, t, RemoveOldest);
      var pc' := PcOf(s', t);
      && EvictionsOf(s', t) <= 1
      && (pc'.Admitted? || pc'.Full? || pc'.Scanned? ==> EvictionsOf(s', t) == 0)
  {
  }

  lemma OthersEvictNothing(s: State, t: Tid, a: Action)
    requires DropsReference(a) && !a.RemoveOldest?
    ensures
      var s' := Step(s, t, a);
      var pc' := PcOf(s', t);
      && EvictionsOf(s', t) == EvictionsOf(s, t)
      && (pc'.Admitted? || pc'.Full? || pc'.Scanned? ==> pc' == PcOf(s, t))
  {
  }

  lemma OwnEvictions(s: State, t: Tid, a: Action)
    requires ThreadInv(s, t)
    ensures
      var s' := Step(s, t, a);
      var pc' := PcOf(s', t);
      && EvictionsOf(s', t) <= 1
      && (pc'.Admitted? || pc'.Full? || pc'.Scanned? ==> EvictionsOf(s', t) == 0)
  {
    if DropsReference(a) {
      SettlingEvictions(s, t, a);
    }
  }

  // Only the reservation's steps lead to a loop that has found no permit.
  lemma OnlyReservingSees(s: State, t: Tid, a: Action)
    requires !Environment(a) && !Reserves(a)
    ensures
      var pc' := PcOf(Step(s, t, a), t);
      pc'.Full? || pc'.Scanned? ==> Step(s, t, a) == s
  {
    if DropsReference(a) {
      SettlingLeavesSearch(s, t, a);
    }
  }

  lemma SettlingLeavesSearch(s: State, t: Tid, a: Action)
    requires !Environment(a) && DropsReference(a)
    ensures
      var pc' := PcOf(Step(s, t, a), t);
      pc'.Full? || pc'.Scanned? ==> Step(s, t, a) == s
  {
  }

  lemma OwnSeen(s: State, t: Tid, a: Action)
    requires ThreadInv(s, t) && !Environment(a)
    ensures
      var s' := Step(s, t, a);
      var pc' := PcOf(s', t);
      pc'.Full? || pc'.Scanned? ==> pc'.seen <= s'.releases && s'.free == s'.releases - pc'.seen
  {
    if !Reserves(a) {
      OnlyReservingSees(s, t, a);
    }
  }

  lemma OwnReservation(s: State, t: Tid, a: Action, capacity: nat)
    requires Inv(s, capacity) && !Environment(a) && PcOf(Step(s, t, a), t).Reserved?
    ensures
      var s' := Step(s, t, a);
      forall k :: k in s'.clients ==> s'.clients[k].permit != PcOf(s', t).permit
  {
    var s' := Step(s, t, a);
    assert ThreadInv(s, t);
    if Acquires(s, t, a) {
      forall k | k in s'.clients ensures s'.clients[k].permit != s.nextPermit {
        FreshPermitHasNoEntry(s, k, capacity);
      }
    } else {
      OnlyAcquireReserves(s, t, a);
    }
  }

  lemma OnlyAcquireReserves(s: State, t: Tid, a: Action)
    requires !Environment(a) && !Acquires(s, t, a) && PcOf(Step(s, t, a), t).Reserved?
    ensures Step(s, t, a) == s
  {
    match a
    case _ =>
  }

  lemma OwnThreadInv(s: State, t: Tid, a: Action, capacity: nat)
    requires Inv(s, capacity)
    ensures ThreadInv(Step(s, t, a), t)
  {
    assert ThreadInv(s, t);
    if Environment(a) {
      EnvironmentKeepsThread(s, t, a, capacity);
    } else {
      OwnAdmission(s, t, a);
      OwnEvictions(s, t, a);
      OwnSeen(s, t, a);
      if PcOf(Step(s, t, a), t).Reserved? {
        OwnReservation(s, t, a, capacity);
      }
    }
  }

  lemma StepKeepsInv(s: State, t: Tid, a: Action, capacity: nat)
    requires Inv(s, capacity)
    ensures Inv(Step(s, t, a), capacity)
  {
    StepKeepsPermits(s, t, a, capacity);
    StepKeepsDistinct(s, t, a, capacity);
    forall u: Tid ensures ThreadInv(Step(s, t, a), u) {
      if u == t {
        OwnThreadInv(s, t, a, capacity);
      } else {
        OtherThreadInv(s, t, a, u, capacity);
      }
    }
  }

  lemma {:induction false} RunKeepsInv(capacity: nat, moves: seq<Move>)
    ensures Inv(Run(Init(capacity), moves), capacity)
    decreases |moves|
  {
    if moves == [] {
      forall p ensures !Held(Init(capacity), p) {
        assert forall h :: !Holds(Init(capacity), h, p);
      }
    } else {
      var m := moves[|moves| - 1];
      RunKeepsInv(capacity, moves[..|moves| - 1]);
      StepKeepsInv(Run(Init(capacity), moves[..|moves| - 1]), m.thread, m.action, capacity);
    }
  }

  // ----- results -----

  lemma {:induction false} InjectiveIntoLive(clients: map<Key, Client>, live: set<Permit>)
    requires forall k :: k in clients ==> clients[k].permit in live
    requires forall j, k :: j in clients && k in clients && clients[j].permit == clients[k].permit ==> j == k
    ensures |clients| <= |live|
    decreases |clients|
  {
    if |clients| > 0 {
      var k :| k in clients;
      var rest := clients - {k};
      assert rest.Keys == clients.Keys - {k};
      InjectiveIntoLive(rest, live - {clients[k].permit});
    }
  }

  // In every interleaving free and live permits add up to the semaphore's
  // size, so there are never more clients than permits.
  lemma ClientsWithinCapacity(capacity: nat, moves: seq<Move>)
    ensures
      var s := Run(Init(capacity), moves);
      && s.free + |s.live| == capacity
      && |s.clients| <= capacity
  {
    RunKeepsInv(capacity, moves);
    var s := Run(Init(capacity), moves);
    forall k | k in s.clients ensures s.clients[k].permit in s.live {
      HolderIsLive(s, Entry(k), s.clients[k].permit, capacity);
    }
    InjectiveIntoLive(s.clients, s.live);
  }

  lemma AtMost256Clients(moves: seq<Move>)
    ensures |Run(Init(MAX_ACTIVE_UDP_CLIENTS), moves).clients| <= 256
  {
    ClientsWithinCapacity(MAX_ACTIVE_UDP_CLIENTS, moves);
  }

  // An eviction is the first of its reservation and never a second one; while
  // it happens no other loop is between taking its permit and publishing its
  // response task, so no such client is evicted half published.
  lemma EvictionIsExclusive(capacity: nat, moves: seq<Move>, t: Tid, u: Tid)
    requires Evicting(Run(Init(capacity), moves), t)
    ensures
      var s := Run(Init(capacity), moves);
      && EvictionsOf(s, t) == 0
      && EvictionsOf(Step(s, t, RemoveOldest), t) == 1
      && (u != t ==> !HoldsAdmission(PcOf(s, u)))
  {
    RunKeepsInv(capacity, moves);
    var s := Run(Init(capacity), moves);
    assert ThreadInv(s, t) && ThreadInv(s, u);
    StepKeepsInv(s, t, RemoveOldest, capacity);
  }

  // A reservation evicts at most one client, over its whole course.
  lemma AtMostOneEviction(capacity: nat, moves: seq<Move>, t: Tid)
    ensures EvictionsOf(Run(Init(capacity), moves), t) <= 1
  {
    RunKeepsInv(capacity, moves);
    assert ThreadInv(Run(Init(capacity), moves), t);
  }

  // An eviction removes a client while no permit is free if and only if no
  // permit was returned since the reservation's failed attempt to take one.
  lemma EvictsOnlyWhenFullIff(capacity: nat, moves: seq<Move>, t: Tid)
    requires Evicting(Run(Init(capacity), moves), t)
    ensures
      var s := Run(Init(capacity), moves);
      s.free == 0 <==> s.releases == PcOf(s, t).seen
  {
    RunKeepsInv(capacity, moves);
    assert ThreadInv(Run(Init(capacity), moves), t);
  }
}
