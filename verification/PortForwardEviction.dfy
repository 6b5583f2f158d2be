// A reservation that has evicted a client waits for a permit while it holds
// admission (rust/easytier-core/src/gateway/port_forward.rs). It cannot wait
// for itself: what still holds the evicted permit is aborted response tasks and
// loops that are sending, and none of these needs admission.
module PortForwardEviction {
  import opened PortForwardSlots

  // The handle at key `k` is that of a task that holds permit `p`.
  predicate HandleFor(s: State, k: Key, p: Permit) {
    k in s.responseTasks && s.responseTasks[k] in s.tasks && s.tasks[s.responseTasks[k]] == p
  }

  ghost predicate NoHandle(s: State, p: Permit) {
    forall k :: !HandleFor(s, k, p)
  }

  ghost predicate NoEntry(s: State, p: Permit) {
    forall k :: k in s.clients ==> s.clients[k].permit != p
  }

  ghost predicate NoTask(s: State, p: Permit) {
    forall task :: task in s.tasks ==> s.tasks[task] != p
  }

  // A client's entry and its task's handle are under the same key.
  ghost predicate KeysAgree(s: State) {
    && (forall k :: k in s.responseTasks ==> s.responseTasks[k] < s.nextTask)
    && (forall k, j :: j in s.clients && HandleFor(s, k, s.clients[j].permit) ==> j == k)
  }

  // What a loop's position says about who else holds its permit.
  ghost predicate LoopKeys(s: State, t: Tid) {
    match PcOf(s, t)
    case Reserved(_, p) => NoTask(s, p)
    case EntryPublished(key, p) =>
      NoTask(s, p) && forall j :: j in s.clients && s.clients[j].permit == p ==> j == key
    case Removed(_, oldest, p) => NoEntry(s, p) && forall k :: HandleFor(s, k, p) ==> k == oldest
    case Evicted(_, p) => NoEntry(s, p) && NoHandle(s, p) && (p in s.live || s.free > 0) && p < s.nextPermit
    case _ => true
  }

  ghost predicate KeyInv(s: State) {
    KeysAgree(s) && forall t: Tid :: LoopKeys(s, t)
  }

  // ----- what a step adds -----

  // A task was there before with the same permit, or has just been published.
  lemma StepTasks(s: State, t: Tid, a: Action, task: Task)
    requires task in Step(s, t, a).tasks
    ensures
      var p := Step(s, t, a).tasks[task];
      || (task in s.tasks && s.tasks[task] == p)
      || (a.PublishTask? && PcOf(s, t).EntryPublished? && task == s.nextTask && p == PcOf(s, t).permit)
  {
    if DropsReference(a) {
      SettlingTasks(s, t, a, task);
    }
  }

  lemma SettlingTasks(s: State, t: Tid, a: Action, task: Task)
    requires DropsReference(a) && task in Step(s, t, a).tasks
    ensures task in s.tasks && s.tasks[task] == Step(s, t, a).tasks[task]
  {
  }

  // So is a handle.
  lemma StepHandles(s: State, t: Tid, a: Action, k: Key)
    requires k in Step(s, t, a).responseTasks
    ensures
      var task := Step(s, t, a).responseTasks[k];
      || (k in s.responseTasks && s.responseTasks[k] == task)
      || (a.PublishTask? && PcOf(s, t).EntryPublished? && k == PcOf(s, t).key && task == s.nextTask)
  {
    if DropsReference(a) {
      SettlingHandles(s, t, a, k);
    }
  }

  lemma SettlingHandles(s: State, t: Tid, a: Action, k: Key)
    requires DropsReference(a) && k in Step(s, t, a).responseTasks
    ensures k in s.responseTasks && s.responseTasks[k] == Step(s, t, a).responseTasks[k]
  {
  }

  lemma NumbersGrow(s: State, t: Tid, a: Action)
    ensures Step(s, t, a).nextTask >= s.nextTask && Step(s, t, a).nextPermit >= s.nextPermit
    ensures a.PublishTask? && PcOf(s, t).EntryPublished? ==> Step(s, t, a).nextTask == s.nextTask + 1
  {
    if DropsReference(a) {
      SettlingNumbers(s, t, a);
    }
  }

  lemma SettlingNumbers(s: State, t: Tid, a: Action)
    requires DropsReference(a)
    ensures Step(s, t, a).nextTask == s.nextTask && Step(s, t, a).nextPermit == s.nextPermit
  {
    if a.RemoveOldest? || a.PublishEntry? || a.RemoveEntry? {
      EntryDropNumbers(s, t, a);
    }
  }

  lemma EntryDropNumbers(s: State, t: Tid, a: Action)
    requires a.RemoveOldest? || a.PublishEntry? || a.RemoveEntry?
    ensures Step(s, t, a).nextTask == s.nextTask && Step(s, t, a).nextPermit == s.nextPermit
  {
  }

  // A handle of a running task was one before, or has just been published.
  lemma StepHandleFor(s: State, t: Tid, a: Action, k: Key, p: Permit)
    requires KeysAgree(s) && HandleFor(Step(s, t, a), k, p)
    ensures
      || HandleFor(s, k, p)
      || (a.PublishTask? && PcOf(s, t).EntryPublished? && k == PcOf(s, t).key && p == PcOf(s, t).permit)
  {
    StepHandles(s, t, a, k);
    StepTasks(s, t, a, Step(s, t, a).responseTasks[k]);
  }

  lemma StepKeepsKeysAgree(s: State, t: Tid, a: Action, capacity: nat)
    requires Inv(s, capacity) && KeyInv(s)
    ensures KeysAgree(Step(s, t, a))
  {
    var s' := Step(s, t, a);
    assert LoopKeys(s, t);
    NumbersGrow(s, t, a);
    forall k | k in s'.responseTasks ensures s'.responseTasks[k] < s'.nextTask {
      StepHandles(s, t, a, k);
    }
    forall k, j | j in s'.clients && HandleFor(s', k, s'.clients[j].permit) ensures j == k {
      var p := s'.clients[j].permit;
      StepEntries(s, t, a, j);
      StepHandleFor(s, t, a, k, p);
      assert HandleFor(s, k, p) ==> s.tasks[s.responseTasks[k]] == p;
    }
  }

  // ----- what a loop keeps -----

  // While another loop holds admission nothing is acquired or published.
  lemma OthersAddNothing(s: State, t: Tid, a: Action, u: Tid, p: Permit, capacity: nat)
    requires Inv(s, capacity) && KeyInv(s) && u != t && HoldsAdmission(PcOf(s, u))
    ensures NoEntry(s, p) ==> NoEntry(Step(s, t, a), p)
    ensures NoTask(s, p) ==> NoTask(Step(s, t, a), p)
    ensures forall k :: HandleFor(Step(s, t, a), k, p) ==> HandleFor(s, k, p)
    ensures forall j :: j in Step(s, t, a).clients && Step(s, t, a).clients[j].permit == p ==>
                          j in s.clients && s.clients[j].permit == p
    ensures !Acquires(s, t, a)
  {
    var s' := Step(s, t, a);
    assert ThreadInv(s, t) && ThreadInv(s, u);
    forall j | j in s'.clients && s'.clients[j].permit == p ensures j in s.clients && s.clients[j].permit == p {
      StepEntries(s, t, a, j);
    }
    forall task | task in s'.tasks && s'.tasks[task] == p ensures task in s.tasks && s.tasks[task] == p {
      StepTasks(s, t, a, task);
    }
    forall k | HandleFor(s', k, p) ensures HandleFor(s, k, p) {
      StepHandleFor(s, t, a, k, p);
    }
  }

  // Without an acquisition a live permit stays live or leaves one free.
  lemma LiveOrFree(s: State, t: Tid, a: Action, p: Permit)
    requires !Acquires(s, t, a) && (p in s.live || s.free > 0)
    ensures p in Step(s, t, a).live || Step(s, t, a).free > 0
  {
    StepBalancesReleases(s, t, a);
    if DropsReference(a) && p in s.live {
      SettlingLiveOrFree(s, t, a, p);
    }
  }

  lemma SettlingLiveOrFree(s: State, t: Tid, a: Action, p: Permit)
    requires DropsReference(a) && p in s.live
    ensures p in Step(s, t, a).live || Step(s, t, a).free > 0
  {
    if a.RemoveOldest? || a.PublishEntry? || a.RemoveEntry? {
      EntryDropLiveOrFree(s, t, a, p);
    }
  }

  lemma EntryDropLiveOrFree(s: State, t: Tid, a: Action, p: Permit)
    requires (a.RemoveOldest? || a.PublishEntry? || a.RemoveEntry?) && p in s.live
    ensures p in Step(s, t, a).live || Step(s, t, a).free > 0
  {
  }

  lemma OtherLoopKeys(s: State, t: Tid, a: Action, u: Tid, capacity: nat)
    requires Inv(s, capacity) && KeyInv(s) && u != t
    ensures LoopKeys(Step(s, t, a), u)
  {
    var pc := PcOf(s, u);
    assert LoopKeys(s, u);
    StepIsLocal(s, t, a, u);
    if pc.Reserved? || pc.EntryPublished? || pc.Removed? || pc.Evicted? {
      OthersAddNothing(s, t, a, u, pc.permit, capacity);
      if pc.Evicted? {
        LiveOrFree(s, t, a, pc.permit);
        NumbersGrow(s, t, a);
      }
    }
  }

  lemma AcquiredKeys(s: State, t: Tid, a: Action, capacity: nat)
    requires Inv(s, capacity) && Acquires(s, t, a)
    ensures LoopKeys(Step(s, t, a), t)
  {
    forall task | task in s.tasks ensures s.tasks[task] != s.nextPermit {
      HolderIsLive(s, Running(task), s.tasks[task], capacity);
    }
  }

  lemma PublishedKeys(s: State, t: Tid, now: nat, capacity: nat)
    requires Inv(s, capacity) && KeyInv(s) && PcOf(s, t).Reserved?
    ensures LoopKeys(Step(s, t, PublishEntry(now)), t)
  {
    var s' := Step(s, t, PublishEntry(now));
    assert ThreadInv(s, t) && LoopKeys(s, t);
    forall j | j in s'.clients && s'.clients[j].permit == PcOf(s, t).permit ensures j == PcOf(s, t).key {
      StepEntries(s, t, PublishEntry(now), j);
    }
    forall task | task in s'.tasks ensures s'.tasks[task] != PcOf(s, t).permit {
      StepTasks(s, t, PublishEntry(now), task);
    }
  }

  // The evicted entry was the only one with its permit, and its task's handle
  // is under the same key.
  lemma RemovedKeys(s: State, t: Tid, capacity: nat)
    requires Inv(s, capacity) && KeyInv(s) && Evicting(s, t)
    ensures LoopKeys(Step(s, t, RemoveOldest), t)
  {
    var s' := Step(s, t, RemoveOldest);
    var oldest := PcOf(s, t).oldest;
    var p := s.clients[oldest].permit;
    forall j | j in s'.clients ensures s'.clients[j].permit != p {
      StepEntries(s, t, RemoveOldest, j);
    }
    forall k | HandleFor(s', k, p) ensures k == oldest {
      StepHandleFor(s, t, RemoveOldest, k, p);
    }
  }

  lemma EvictedKeys(s: State, t: Tid, capacity: nat)
    requires Inv(s, capacity) && KeyInv(s) && PcOf(s, t).Removed?
    ensures LoopKeys(Step(s, t, DropEvicted), t)
  {
    var s' := Step(s, t, DropEvicted);
    var p := PcOf(s, t).permit;
    assert LoopKeys(s, t);
    HolderIsLive(s, Local(t), p, capacity);
    LiveOrFree(s, t, DropEvicted, p);
    NumbersGrow(s, t, DropEvicted);
    forall j | j in s'.clients ensures s'.clients[j].permit != p {
      StepEntries(s, t, DropEvicted, j);
    }
    forall k ensures !HandleFor(s', k, p) {
      if HandleFor(s', k, p) {
        StepHandleFor(s, t, DropEvicted, k, p);
      }
    }
  }

  // Steps of a loop's own that reach a position with something to keep.
  predicate Reaches(s: State, t: Tid, a: Action) {
    || Acquires(s, t, a) || (a.PublishEntry? && PcOf(s, t).Reserved?)
    || (a.RemoveOldest? && Evicting(s, t)) || (a.DropEvicted? && PcOf(s, t).Removed?)
  }

  // Any other step leaves its loop where it is or at a position with nothing
  // to keep.
  lemma OtherwiseStays(s: State, t: Tid, a: Action)
    requires !Reaches(s, t, a)
    ensures
      var pc' := PcOf(Step(s, t, a), t);
      pc'.Reserved? || pc'.EntryPublished? || pc'.Removed? || pc'.Evicted? ==> pc' == PcOf(s, t)
  {
    if DropsReference(a) {
      SettlingStays(s, t, a);
    }
  }

  lemma SettlingStays(s: State, t: Tid, a: Action)
    requires !Reaches(s, t, a) && DropsReference(a)
    ensures
      var pc' := PcOf(Step(s, t, a), t);
      pc'.Reserved? || pc'.EntryPublished? || pc'.Removed? || pc'.Evicted? ==> pc' == PcOf(s, t)
  {
  }

  // A loop that stays has published nothing itself.
  lemma StayingLoopKeys(s: State, t: Tid, a: Action, capacity: nat)
    requires Inv(s, capacity) && KeyInv(s) && !Reaches(s, t, a) && PcOf(Step(s, t, a), t) == PcOf(s, t)
    ensures LoopKeys(Step(s, t, a), t)
  {
    var s' := Step(s, t, a);
    var pc := PcOf(s, t);
    assert LoopKeys(s, t);
    NumbersGrow(s, t, a);
    if pc.Reserved? || pc.EntryPublished? || pc.Removed? || pc.Evicted? {
      PublishMoves(s, t, a);
      forall j | j in s'.clients ensures j in s.clients && s.clients[j].permit == s'.clients[j].permit {
        StepEntries(s, t, a, j);
      }
      forall task | task in s'.tasks ensures task in s.tasks && s.tasks[task] == s'.tasks[task] {
        StepTasks(s, t, a, task);
      }
      forall k | HandleFor(s', k, pc.permit) ensures HandleFor(s, k, pc.permit) {
        StepHandleFor(s, t, a, k, pc.permit);
      }
      if pc.Evicted? {
        LiveOrFree(s, t, a, pc.permit);
      }
    }
  }

  lemma PublishMoves(s: State, t: Tid, a: Action)
    ensures a.PublishTask? && PcOf(s, t).EntryPublished? ==> PcOf(Step(s, t, a), t) != PcOf(s, t)
  {
  }

  lemma OwnLoopKeys(s: State, t: Tid, a: Action, capacity: nat)
    requires Inv(s, capacity) && KeyInv(s)
    ensures LoopKeys(Step(s, t, a), t)
  {
    if Acquires(s, t, a) {
      AcquiredKeys(s, t, a, capacity);
    } else if a.PublishEntry? && PcOf(s, t).Reserved? {
      PublishedKeys(s, t, a.now, capacity);
    } else if a.RemoveOldest? && Evicting(s, t) {
      RemovedKeys(s, t, capacity);
    } else if a.DropEvicted? && PcOf(s, t).Removed? {
      EvictedKeys(s, t, capacity);
    } else {
      OtherwiseStays(s, t, a);
      if PcOf(Step(s, t, a), t) == PcOf(s, t) {
        StayingLoopKeys(s, t, a, capacity);
      }
    }
  }

  lemma StepKeepsKeyInv(s: State, t: Tid, a: Action, capacity: nat)
    requires Inv(s, capacity) && KeyInv(s)
    ensures KeyInv(Step(s, t, a))
  {
    StepKeepsKeysAgree(s, t, a, capacity);
    forall u: Tid ensures LoopKeys(Step(s, t, a), u) {
      if u == t {
        OwnLoopKeys(s, t, a, capacity);
      } else {
        OtherLoopKeys(s, t, a, u, capacity);
      }
    }
  }

  lemma {:induction false} RunKeepsKeyInv(capacity: nat, moves: seq<Move>)
    ensures Inv(Run(Init(capacity), moves), capacity) && KeyInv(Run(Init(capacity), moves))
    decreases |moves|
  {
    RunKeepsInv(capacity, moves);
    if moves != [] {
      var m := moves[|moves| - 1];
      RunKeepsKeyInv(capacity, moves[..|moves| - 1]);
      StepKeepsKeyInv(Run(Init(capacity), moves[..|moves| - 1]), m.thread, m.action, capacity);
    }
  }

  // ----- results -----

  // The task's handle has left the map: the task is aborted.
  predicate Aborted(s: State, task: Task) {
    forall k :: k in s.responseTasks ==> s.responseTasks[k] != task
  }

  // The loop has its client and is about to send or sending.
  predicate HasClient(pc: Pc) {
    pc.Ready? || pc.Sending?
  }

  // What holds the permit a waiting reservation has evicted: an aborted
  // response task, or a loop that sends. Neither has or wants admission.
  lemma EvictedPermitHolders(capacity: nat, moves: seq<Move>, t: Tid, h: Holder)
    requires
      var s := Run(Init(capacity), moves);
      PcOf(s, t).Evicted? && Holds(s, h, PcOf(s, t).permit)
    ensures
      var s := Run(Init(capacity), moves);
      (h.Running? && Aborted(s, h.task)) || (h.Local? && HasClient(PcOf(s, h.thread)))
  {
    RunKeepsKeyInv(capacity, moves);
    HoldersLetGo(Run(Init(capacity), moves), t, h, capacity);
  }

  lemma HoldersLetGo(s: State, t: Tid, h: Holder, capacity: nat)
    requires Inv(s, capacity) && KeyInv(s) && PcOf(s, t).Evicted? && Holds(s, h, PcOf(s, t).permit)
    ensures (h.Running? && Aborted(s, h.task)) || (h.Local? && HasClient(PcOf(s, h.thread)))
  {
    var p := PcOf(s, t).permit;
    assert LoopKeys(s, t) && ThreadInv(s, t);
    match h
    case Entry(_) =>
    case Running(task) =>
      forall k | k in s.responseTasks ensures s.responseTasks[k] != task {
        assert !HandleFor(s, k, p);
      }
    case Local(u) => assert ThreadInv(s, u);
  }

  // The references to a permit by tasks and loops.
  function Waiters(s: State, p: Permit): set<Holder> {
    (set task | task in s.tasks && s.tasks[task] == p :: Running(task))
    + (set u | u in s.pcs && HasLocal(s.pcs[u], p) :: Local(u))
  }

  lemma WaitersHold(s: State, p: Permit, h: Holder)
    requires !h.Entry?
    ensures h in Waiters(s, p) <==> Holds(s, h, p)
  {
  }

  // Only a packet gives a loop a permit it did not have, and an old one only
  // from an entry.
  lemma LocalHolders(s: State, t: Tid, a: Action, u: Tid, p: Permit)
    requires HasLocal(PcOf(Step(s, t, a), u), p) && NoEntry(s, p) && p < s.nextPermit
    ensures HasLocal(PcOf(s, u), p)
  {
    if u != t {
      StepIsLocal(s, t, a, u);
    } else if DropsReference(a) {
      SettlingLocal(s, t, a, p);
    }
  }

  lemma SettlingLocal(s: State, t: Tid, a: Action, p: Permit)
    requires HasLocal(PcOf(Step(s, t, a), t), p) && NoEntry(s, p) && DropsReference(a)
    ensures HasLocal(PcOf(s, t), p)
  {
  }

  // In every interleaving no step of any loop or of the environment adds a
  // reference to an evicted permit.
  lemma WaitersOnlyShrink(capacity: nat, moves: seq<Move>, t: Tid, u: Tid, a: Action)
    requires PcOf(Run(Init(capacity), moves), t).Evicted?
    ensures
      var s := Run(Init(capacity), moves);
      Waiters(Step(s, u, a), PcOf(s, t).permit) <= Waiters(s, PcOf(s, t).permit)
  {
    RunKeepsKeyInv(capacity, moves);
    var s := Run(Init(capacity), moves);
    var p := PcOf(s, t).permit;
    assert LoopKeys(s, t) && ThreadInv(s, t) && ThreadInv(s, u);
    forall h | h in Waiters(Step(s, u, a), p) ensures h in Waiters(s, p) {
      WaitersHold(Step(s, u, a), p, h);
      WaitersHold(s, p, h);
      match h
      case Running(task) => StepTasks(s, u, a, task);
      case Local(v) => LocalHolders(s, u, a, v, p);
    }
  }

  // In every schedule, once nothing refers to the evicted permit any more there
  // is a permit to take.
  lemma FreeOnceWaitersAreGone(capacity: nat, moves: seq<Move>, t: Tid)
    requires
      var s := Run(Init(capacity), moves);
      PcOf(s, t).Evicted? && Waiters(s, PcOf(s, t).permit) == {}
    ensures Run(Init(capacity), moves).free > 0
  {
    RunKeepsKeyInv(capacity, moves);
    var s := Run(Init(capacity), moves);
    if s.free == 0 {
      var h := SomeHolder(s, t, capacity);
      HoldersLetGo(s, t, h, capacity);
      WaitersHold(s, PcOf(s, t).permit, h);
    }
  }

  // A step by which one of them comes to let go: an aborted task is dropped, or
  // a loop stamps its client or finishes its send.
  predicate LetsGo(s: State, m: Move) {
    match m.action
    case TaskDropped(task) => task in s.tasks && Aborted(s, task)
    case Touch(_) => PcOf(s, m.thread).Ready?
    case FinishSend => PcOf(s, m.thread).Sending?
    case _ => false
  }

  function LetGo(h: Holder): Move {
    match h
    case Entry(_) => Move(0, RemoveHandle(0))
    case Running(task) => Move(0, TaskDropped(task))
    case Local(u) => Move(u, FinishSend)
  }

  lemma Fewer(a: set<Holder>, b: set<Holder>, h: Holder)
    requires a <= b - {h} && h in b
    ensures |a| < |b|
  {
    assert b - {h} == a + (b - {h} - a);
  }

  lemma TaskLetsGo(s: State, t: Tid, task: Task, p: Permit)
    requires PcOf(s, t).Evicted? && Holds(s, Running(task), p)
    ensures
      var s' := Step(s, 0, TaskDropped(task));
      PcOf(s', t) == PcOf(s, t) && Waiters(s', p) <= Waiters(s, p) - {Running(task)}
  {
    var s' := Step(s, 0, TaskDropped(task));
    assert s'.tasks == s.tasks - {task} && s'.pcs == s.pcs;
  }

  lemma SenderLetsGo(s: State, t: Tid, u: Tid, p: Permit)
    requires PcOf(s, t).Evicted? && PcOf(s, u).Sending? && HasLocal(PcOf(s, u), p)
    ensures
      var s' := Step(s, u, FinishSend);
      PcOf(s', t) == PcOf(s, t) && Waiters(s', p) <= Waiters(s, p) - {Local(u)}
  {
    var s' := Step(s, u, FinishSend);
    assert s'.tasks == s.tasks && s'.pcs == s.pcs[u := Idle];
  }

  // One reference fewer; the waiting loop is where it was.
  lemma OneLetsGo(s: State, t: Tid, h: Holder, capacity: nat)
    requires Inv(s, capacity) && KeyInv(s) && PcOf(s, t).Evicted? && Holds(s, h, PcOf(s, t).permit)
    requires h.Local? ==> PcOf(s, h.thread).Sending?
    ensures
      var m := LetGo(h);
      var s' := Step(s, m.thread, m.action);
      && LetsGo(s, m)
      && PcOf(s', t) == PcOf(s, t)
      && |Waiters(s', PcOf(s, t).permit)| < |Waiters(s, PcOf(s, t).permit)|
  {
    var p := PcOf(s, t).permit;
    HoldersLetGo(s, t, h, capacity);
    WaitersHold(s, p, h);
    if h.Running? {
      TaskLetsGo(s, t, h.task, p);
    } else {
      SenderLetsGo(s, t, h.thread, p);
    }
    Fewer(Waiters(Step(s, LetGo(h).thread, LetGo(h).action), p), Waiters(s, p), h);
  }

  // The moves after the first `n` are all by references letting go.
  ghost predicate OnlyLettingGo(capacity: nat, moves: seq<Move>, n: nat) {
    forall i :: n <= i < |moves| ==> LetsGo(Run(Init(capacity), moves[..i]), moves[i])
  }

  lemma LettingGoSnoc(capacity: nat, moves: seq<Move>, n: nat, m: Move)
    requires n <= |moves| && OnlyLettingGo(capacity, moves, n) && LetsGo(Run(Init(capacity), moves), m)
    ensures OnlyLettingGo(capacity, moves + [m], n)
  {
    var next := moves + [m];
    forall i | n <= i < |next| ensures LetsGo(Run(Init(capacity), next[..i]), next[i]) {
      if i < |moves| {
        assert next[..i] == moves[..i] && next[i] == moves[i];
      } else {
        assert next[..i] == moves && next[i] == m;
      }
    }
  }

  lemma SomeHolder(s: State, t: Tid, capacity: nat) returns (h: Holder)
    requires Inv(s, capacity) && KeyInv(s) && PcOf(s, t).Evicted? && s.free == 0
    ensures Holds(s, h, PcOf(s, t).permit)
  {
    assert LoopKeys(s, t);
    h :| Holds(s, h, PcOf(s, t).permit);
  }

  // A loop that has its client stamps it and goes on to send.
  lemma StampKeepsWaiters(s: State, t: Tid, u: Tid, p: Permit)
    requires PcOf(s, t).Evicted? && PcOf(s, u).Ready? && HasLocal(PcOf(s, u), p)
    ensures
      var s' := Step(s, u, Touch(0));
      && PcOf(s', t) == PcOf(s, t) && Waiters(s', p) <= Waiters(s, p)
      && PcOf(s', u).Sending? && HasLocal(PcOf(s', u), p)
  {
    var s' := Step(s, u, Touch(0));
    assert s'.tasks == s.tasks && s'.pcs == s.pcs[u := PcOf(s', u)];
  }

  lemma Subsets(a: set<Holder>, b: set<Holder>)
    requires a <= b
    ensures |a| <= |b|
  {
    assert b == a + (b - a);
  }

  // Some reference is about to go: a task aborted or a loop that sends.
  lemma ReadyToLetGo(capacity: nat, moves: seq<Move>, n: nat, t: Tid) returns (more: seq<Move>, h: Holder)
    requires n <= |moves| && OnlyLettingGo(capacity, moves, n)
    requires PcOf(Run(Init(capacity), moves), t).Evicted? && Run(Init(capacity), moves).free == 0
    ensures moves <= more && OnlyLettingGo(capacity, more, n)
    ensures
      var s, s' := Run(Init(capacity), moves), Run(Init(capacity), more);
      && PcOf(s', t) == PcOf(s, t) && |Waiters(s', PcOf(s, t).permit)| <= |Waiters(s, PcOf(s, t).permit)|
      && Holds(s', h, PcOf(s, t).permit) && (h.Local? ==> PcOf(s', h.thread).Sending?)
  {
    var s := Run(Init(capacity), moves);
    var p := PcOf(s, t).permit;
    RunKeepsKeyInv(capacity, moves);
    h := SomeHolder(s, t, capacity);
    HoldersLetGo(s, t, h, capacity);
    more := moves;
    if h.Local? && PcOf(s, h.thread).Ready? {
      var m := Move(h.thread, Touch(0));
      StampKeepsWaiters(s, t, h.thread, p);
      Subsets(Waiters(Step(s, h.thread, Touch(0)), p), Waiters(s, p));
      RunSnoc(Init(capacity), moves, m);
      LettingGoSnoc(capacity, moves, n, m);
      more := moves + [m];
    }
  }

  lemma {:induction false} WaitEnds(capacity: nat, moves: seq<Move>, n: nat, t: Tid) returns (more: seq<Move>)
    requires n <= |moves| && OnlyLettingGo(capacity, moves, n) && PcOf(Run(Init(capacity), moves), t).Evicted?
    ensures moves <= more && OnlyLettingGo(capacity, more, n)
    ensures PcOf(Run(Init(capacity), more), t) == PcOf(Run(Init(capacity), moves), t)
    ensures Run(Init(capacity), more).free > 0
    decreases |Waiters(Run(Init(capacity), moves), PcOf(Run(Init(capacity), moves), t).permit)|
  {
    var s := Run(Init(capacity), moves);
    RunKeepsKeyInv(capacity, moves);
    if s.free > 0 {
      more := moves;
    } else {
      var next, h := ReadyToLetGo(capacity, moves, n, t);
      RunKeepsKeyInv(capacity, next);
      OneLetsGo(Run(Init(capacity), next), t, h, capacity);
      RunSnoc(Init(capacity), next, LetGo(h));
      LettingGoSnoc(capacity, next, n, LetGo(h));
      more := WaitEnds(capacity, next + [LetGo(h)], n, t);
    }
  }

  lemma TakesFreePermit(s: State, t: Tid)
    requires PcOf(s, t).Evicted? && s.free > 0
    ensures PcOf(Step(s, t, AcquireWaited), t).Reserved?
  {
  }

  // `more` continues `moves` by references letting go until loop `t` can take
  // a permit.
  ghost predicate LetsProceed(capacity: nat, moves: seq<Move>, more: seq<Move>, t: Tid) {
    && moves <= more
    && OnlyLettingGo(capacity, more, |moves|)
    && PcOf(Step(Run(Init(capacity), more), t, AcquireWaited), t).Reserved?
  }

  // A reservation that waits for a permit is never stuck: from every reachable
  // state, aborted tasks being dropped and sends finishing, and nothing else,
  // lead to a state in which it takes a permit. No loop needs admission for it.
  lemma WaitingReservationIsNotStuck(capacity: nat, moves: seq<Move>, t: Tid)
    requires PcOf(Run(Init(capacity), moves), t).Evicted?
    ensures exists more :: LetsProceed(capacity, moves, more, t)
  {
    var more := WaitEnds(capacity, moves, |moves|, t);
    TakesFreePermit(Run(Init(capacity), more), t);
    assert LetsProceed(capacity, moves, more, t);
  }
}
