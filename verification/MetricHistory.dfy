// What the metric registry reports (rust/easytier-core/src/foundation/stats.rs),
// told from the schedule alone: which counters it has, their values, and the
// epochs they are stamped with.
module MetricHistory {
  import opened Wrappers
  import opened Arithmetic
  import opened MetricRegistry

  // The number of epochs so far.
  function TicksIn(moves: seq<Move>): nat
    decreases |moves|
  {
    if moves == [] then 0
    else TicksIn(moves[..|moves| - 1]) + if moves[|moves| - 1].action.Tick? then 1 else 0
  }

  predicate At(s: State, h: HandleId, k: Key) {
    h in s.handles && s.handles[h].key == k
  }

  // The epoch count when handle `h` last read the epoch.
  ghost function ReadAt(moves: seq<Move>, h: HandleId): nat
    decreases |moves|
  {
    if moves == [] then 0
    else
      var before, m := moves[..|moves| - 1], moves[|moves| - 1];
      var s := Run(before);
      if m == Move(h, LoadEpoch) && h in s.handles && s.handles[h].touch.Updated? then TicksIn(before)
      else ReadAt(before, h)
  }

  // A counter since it was last set, and the epoch count its stamp stands for.
  datatype Account = Account(base: nat, added: nat, stamp: nat)

  // A key nobody holds, more than three epochs above its stamp.
  ghost predicate Forgotten(s: State, k: Key, ticks: nat, stamp: nat) {
    (forall h :: !At(s, h, k)) && Epoch(ticks) > Epoch(stamp) + METRIC_RETENTION_EPOCHS
  }

  // What a move means for the counter of key `k`, at `ticks` epochs and with
  // `read` the epoch count the moving handle has read.
  ghost function Recorded(account: Option<Account>, s: State, m: Move, k: Key, ticks: nat, read: nat): Option<Account> {
    var h := m.handle;
    match m.action
    case GetCounter(key) => if key == k && account.None? then Some(Account(0, 0, ticks)) else account
    case Add(delta) =>
      if At(s, h, k) && s.handles[h].touch.Done? && account.Some? then
        Some(account.value.(added := account.value.added + delta))
      else account
    case Set(value) =>
      if At(s, h, k) && s.handles[h].touch.Done? && account.Some? && value <= U64_MAX then
        Some(account.value.(base := value, added := 0))
      else account
    case StoreStamp =>
      if At(s, h, k) && s.handles[h].touch.Loaded? && account.Some? then Some(account.value.(stamp := read))
      else account
    case Sweep(key) =>
      if key == k && account.Some? && Forgotten(s, k, ticks, account.value.stamp) then None else account
    case _ => account
  }

  ghost function AccountOf(moves: seq<Move>, k: Key): Option<Account>
    decreases |moves|
  {
    if moves == [] then None
    else
      var before, m := moves[..|moves| - 1], moves[|moves| - 1];
      Recorded(AccountOf(before, k), Run(before), m, k, TicksIn(before), ReadAt(before, m.handle))
  }

  // The registry has the counter, at the saturated sum since it was last set,
  // stamped with the epoch of the account.
  predicate Reports(s: State, k: Key, account: Option<Account>) {
    && (k in s.registry <==> account.Some?)
    && (account.Some? ==>
          && s.registry[k] in s.metrics
          && s.metrics[s.registry[k]].value == Min(account.value.base + account.value.added, U64_MAX)
          && s.metrics[s.registry[k]].lastUpdatedEpoch == Epoch(account.value.stamp))
  }

  ghost predicate ReadsAre(s: State, h: HandleId, read: nat) {
    h in s.handles && s.handles[h].touch.Loaded? ==> s.handles[h].touch.tick == read
  }

  // ----- steps -----

  lemma {:induction false} TicksAreCounted(moves: seq<Move>)
    ensures Run(moves).ticks == TicksIn(moves)
    decreases |moves|
  {
    if moves != [] {
      TicksAreCounted(moves[..|moves| - 1]);
    }
  }

  lemma StepReads(s: State, m: Move, h: HandleId, read: nat)
    requires ReadsAre(s, h, read)
    ensures
      ReadsAre(Step(s, m.handle, m.action), h,
               if m == Move(h, LoadEpoch) && h in s.handles && s.handles[h].touch.Updated? then s.ticks else read)
  {
  }

  // A handle that has read the epoch holds the one current at the read.
  lemma {:induction false} HandlesReadCurrentEpoch(moves: seq<Move>, h: HandleId)
    ensures ReadsAre(Run(moves), h, ReadAt(moves, h))
    decreases |moves|
  {
    if moves != [] {
      var before := moves[..|moves| - 1];
      HandlesReadCurrentEpoch(before, h);
      TicksAreCounted(before);
      StepReads(Run(before), moves[|moves| - 1], h, ReadAt(before, h));
    }
  }

  // A handle's metric is that of its key, and of no other key.
  lemma HandleOwnsMetric(s: State, h: HandleId, k: Key)
    requires SharingInv(s) && h in s.handles && k in s.registry
    ensures s.handles[h].metric == s.registry[k] <==> s.handles[h].key == k
  {
  }

  lemma HeldIffSomeHandle(s: State, k: Key)
    requires SharingInv(s) && k in s.registry
    ensures HasHandle(s, s.registry[k]) <==> exists h :: At(s, h, k)
  {
    if HasHandle(s, s.registry[k]) {
      var h :| h in s.handles && s.handles[h].metric == s.registry[k];
      HandleOwnsMetric(s, h, k);
      assert At(s, h, k);
    }
    if h :| At(s, h, k) {
      assert h in s.handles && s.handles[h].metric == s.registry[k];
    }
  }

  lemma SweepReports(s: State, m: Move, k: Key, account: Option<Account>, read: nat)
    requires SharingInv(s) && Reports(s, k, account) && m.action.Sweep?
    ensures Reports(Step(s, m.handle, m.action), k, Recorded(account, s, m, k, s.ticks, read))
  {
    if account.Some? {
      HeldIffSomeHandle(s, k);
      if m.action.sweptKey != k && m.action.sweptKey in s.registry {
        assert s.registry[m.action.sweptKey] != s.registry[k];
      }
    }
  }

  lemma GetReports(s: State, m: Move, k: Key, account: Option<Account>, read: nat)
    requires SharingInv(s) && Reports(s, k, account) && m.action.GetCounter?
    ensures Reports(Step(s, m.handle, m.action), k, Recorded(account, s, m, k, s.ticks, read))
  {
  }

  lemma UpdateReports(s: State, m: Move, k: Key, account: Option<Account>, read: nat)
    requires SharingInv(s) && Reports(s, k, account) && ReadsAre(s, m.handle, read)
    requires m.action.Add? || m.action.Set? || m.action.StoreStamp?
    ensures Reports(Step(s, m.handle, m.action), k, Recorded(account, s, m, k, s.ticks, read))
  {
    if account.Some? && m.handle in s.handles {
      HandleOwnsMetric(s, m.handle, k);
    }
  }

  lemma OthersReport(s: State, m: Move, k: Key, account: Option<Account>, read: nat)
    requires Reports(s, k, account)
    requires m.action.CloneHandle? || m.action.DropHandle? || m.action.LoadEpoch? || m.action.Tick?
    ensures Reports(Step(s, m.handle, m.action), k, Recorded(account, s, m, k, s.ticks, read))
  {
  }

  lemma StepReports(s: State, m: Move, k: Key, account: Option<Account>, read: nat)
    requires SharingInv(s) && Reports(s, k, account) && ReadsAre(s, m.handle, read)
    ensures Reports(Step(s, m.handle, m.action), k, Recorded(account, s, m, k, s.ticks, read))
  {
    match m.action
    case Sweep(_) => SweepReports(s, m, k, account, read);
    case GetCounter(_) => GetReports(s, m, k, account, read);
    case Add(_) => UpdateReports(s, m, k, account, read);
    case Set(_) => UpdateReports(s, m, k, account, read);
    case StoreStamp => UpdateReports(s, m, k, account, read);
    case _ => OthersReport(s, m, k, account, read);
  }

  // ----- results -----

  // In every interleaving the registry has exactly the counters the schedule
  // leaves. Each reports the saturating sum of everything added since it was
  // created or last set, by any handle of its key, and is stamped with the
  // epoch that was current when the touch stored last read it.
  lemma {:induction false} CountersFollowSchedule(moves: seq<Move>, k: Key)
    ensures Reports(Run(moves), k, AccountOf(moves, k))
    decreases |moves|
  {
    if moves != [] {
      var before, m := moves[..|moves| - 1], moves[|moves| - 1];
      CountersFollowSchedule(before, k);
      RunKeepsInv(before);
      TicksAreCounted(before);
      HandlesReadCurrentEpoch(before, m.handle);
      StepReports(Run(before), m, k, AccountOf(before, k), ReadAt(before, m.handle));
    }
  }

  // A sweep looking at a counter drops it if and only if nobody holds it and
  // its stamp is more than three epochs old.
  lemma SweepForgetsIff(moves: seq<Move>, k: Key)
    requires k in Run(moves).registry
    ensures
      Drops(Run(moves), k) <==>
      AccountOf(moves, k).Some? && Forgotten(Run(moves), k, TicksIn(moves), AccountOf(moves, k).value.stamp)
  {
    var s := Run(moves);
    CountersFollowSchedule(moves, k);
    RunKeepsInv(moves);
    TicksAreCounted(moves);
    HeldIffSomeHandle(s, k);
    DropsIffNotRetained(s, k);
  }

  // ----- handles -----

  // A move that gives out a new handle, and its key.
  function GivesOut(s: State, m: Move): Option<Key> {
    match m.action
    case GetCounter(k) => Some(k)
    case CloneHandle => if m.handle in s.handles then Some(s.handles[m.handle].key) else None
    case _ => None
  }

  // The handles given out so far.
  ghost function Given(moves: seq<Move>): nat
    decreases |moves|
  {
    if moves == [] then 0
    else
      var before, m := moves[..|moves| - 1], moves[|moves| - 1];
      Given(before) + if GivesOut(Run(before), m).Some? then 1 else 0
  }

  // The key of handle `h` from the move that gave it out until it is dropped,
  // which it cannot be during an update.
  ghost function KeyOf(moves: seq<Move>, h: HandleId): Option<Key>
    decreases |moves|
  {
    if moves == [] then None
    else
      var before, m := moves[..|moves| - 1], moves[|moves| - 1];
      var s := Run(before);
      if GivesOut(s, m).Some? && h == Given(before) then GivesOut(s, m)
      else if m == Move(h, DropHandle) && h in s.handles && s.handles[h].touch.Done? then None
      else KeyOf(before, h)
  }

  function KeyAt(s: State, h: HandleId): Option<Key> {
    if h in s.handles then Some(s.handles[h].key) else None
  }

  lemma StepHandles(s: State, m: Move, h: HandleId)
    ensures Step(s, m.handle, m.action).nextHandle == s.nextHandle + if GivesOut(s, m).Some? then 1 else 0
    ensures
      KeyAt(Step(s, m.handle, m.action), h) ==
      if GivesOut(s, m).Some? && h == s.nextHandle then GivesOut(s, m)
      else if m == Move(h, DropHandle) && h in s.handles && s.handles[h].touch.Done? then None
      else KeyAt(s, h)
  {
  }

  // In every interleaving the handles are exactly those the schedule leaves, a
  // clone's for the key of its original.
  lemma {:induction false} HandlesFollowSchedule(moves: seq<Move>, h: HandleId)
    ensures KeyAt(Run(moves), h) == KeyOf(moves, h) && Run(moves).nextHandle == Given(moves)
    decreases |moves|
  {
    if moves != [] {
      HandlesFollowSchedule(moves[..|moves| - 1], h);
      StepHandles(Run(moves[..|moves| - 1]), moves[|moves| - 1], h);
    }
  }
}
