// The metric registry and its cleanup
// (rust/easytier-core/src/foundation/stats.rs), as the interleaving of any
// number of handles with the cleanup task. A counter update is one step; the
// touch that follows it is two, reading the epoch and storing it. The sweep
// visits entries one at a time. `clear` is not part of the runs.
module MetricRegistry {
  import opened Arithmetic

  const EPOCHS: nat := 0x1_0000_0000
  const METRIC_RETENTION_EPOCHS: nat := 3

  type Key = nat
  type MetricId = nat
  type HandleId = nat

  // Where a handle is in an update: nothing to do, the epoch still to read, or
  // read at the given tick and still to store.
  datatype Touch = Done | Updated | Loaded(tick: nat)

  datatype Handle = Handle(key: Key, metric: MetricId, touch: Touch)

  // A metric's counter and stamp. The stamp is the epoch read by the touch that
  // stored last; stampTick and storedTick are the ticks of that read and store.
  datatype Metric = Metric(
    value: nat,
    lastUpdatedEpoch: nat,
    // history
    stampTick: nat,
    storedTick: nat
  )

  datatype Action =
    | GetCounter(key: Key)
    | CloneHandle
    | DropHandle
    | Add(delta: nat)
    | Set(value: nat)          // reset is Set(0)
    | LoadEpoch
    | StoreStamp
    | Tick                     // the cleanup task advances the epoch
    | Sweep(sweptKey: Key)     // and looks at one entry

  // `ticks` counts the epochs; the atomic holds it modulo 2^32.
  datatype State = State(
    ticks: nat,
    registry: map<Key, MetricId>,
    metrics: map<MetricId, Metric>,
    handles: map<HandleId, Handle>,
    nextMetric: MetricId,
    nextHandle: HandleId
  )

  const Init := State(0, map[], map[], map[], 0, 0)

  function Epoch(tick: nat): nat {
    tick % EPOCHS
  }

  // Arc::strong_count above one.
  ghost predicate HasHandle(s: State, m: MetricId) {
    exists h :: h in s.handles && s.handles[h].metric == m
  }

  // The retain predicate of cleanup_metrics.
  ghost predicate Retains(s: State, m: MetricId)
    requires m in s.metrics
  {
    || HasHandle(s, m)
    || SaturatingSub(Epoch(s.ticks), s.metrics[m].lastUpdatedEpoch) <= METRIC_RETENTION_EPOCHS
  }

  function SetHandle(s: State, h: HandleId, handle: Handle): State {
    s.(handles := s.handles[h := handle])
  }

  function SetMetric(s: State, m: MetricId, metric: Metric): State {
    s.(metrics := s.metrics[m := metric])
  }

  // One step of handle `h` (or of the registry); an action that is not
  // possible changes nothing.
  ghost function Step(s: State, h: HandleId, a: Action): State {
    match a
    case GetCounter(k) =>
      if k in s.registry then
        SetHandle(s, s.nextHandle, Handle(k, s.registry[k], Done)).(nextHandle := s.nextHandle + 1)
      else
        var m := s.nextMetric;
        var created := s.(registry := s.registry[k := m], nextMetric := m + 1,
                          metrics := s.metrics[m := Metric(0, Epoch(s.ticks), s.ticks, s.ticks)]);
        SetHandle(created, s.nextHandle, Handle(k, m, Done)).(nextHandle := s.nextHandle + 1)
    case CloneHandle =>
      if h in s.handles then
        SetHandle(s, s.nextHandle, s.handles[h].(touch := Done)).(nextHandle := s.nextHandle + 1)
      else s
    case DropHandle =>
      if h in s.handles && s.handles[h].touch.Done? then s.(handles := s.handles - {h}) else s
    case Add(delta) =>
      if h in s.handles && s.handles[h].touch.Done? && s.handles[h].metric in s.metrics then
        var m := s.metrics[s.handles[h].metric];
        SetHandle(SetMetric(s, s.handles[h].metric, m.(value := Min(m.value + delta, U64_MAX))),
                  h, s.handles[h].(touch := Updated))
      else s
    case Set(value) =>
      if h in s.handles && s.handles[h].touch.Done? && s.handles[h].metric in s.metrics && value <= U64_MAX then
        var m := s.metrics[s.handles[h].metric];
        SetHandle(SetMetric(s, s.handles[h].metric, m.(value := value)),
                  h, s.handles[h].(touch := Updated))
      else s
    case LoadEpoch =>
      if h in s.handles && s.handles[h].touch.Updated? then
        SetHandle(s, h, s.handles[h].(touch := Loaded(s.ticks)))
      else s
    case StoreStamp =>
      if h in s.handles && s.handles[h].touch.Loaded? && s.handles[h].metric in s.metrics then
        var tick := s.handles[h].touch.tick;
        var m := s.metrics[s.handles[h].metric];
        SetHandle(SetMetric(s, s.handles[h].metric,
                            m.(lastUpdatedEpoch := Epoch(tick), stampTick := tick, storedTick := s.ticks)),
                  h, s.handles[h].(touch := Done))
      else s
    case Tick => s.(ticks := s.ticks + 1)
    case Sweep(k) =>
      if k in s.registry && s.registry[k] in s.metrics && !Retains(s, s.registry[k]) then
        s.(registry := s.registry - {k}, metrics := s.metrics - {s.registry[k]})
      else s
  }

  datatype Move = Move(handle: HandleId, action: Action)

  ghost function Run(moves: seq<Move>): State
    decreases |moves|
  {
    if moves == [] then Init
    else
      var m := moves[|moves| - 1];
      Step(Run(moves[..|moves| - 1]), m.handle, m.action)
  }

  // The registry maps each key to a metric of its own; a handle's metric is
  // the registered one.
  ghost predicate SharingInv(s: State) {
    && (forall k :: k in s.registry ==> s.registry[k] in s.metrics && s.registry[k] < s.nextMetric)
    && (forall j, k :: j in s.registry && k in s.registry && s.registry[j] == s.registry[k] ==> j == k)
    && (forall h :: h in s.handles ==>
          h < s.nextHandle && s.handles[h].key in s.registry && s.registry[s.handles[h].key] == s.handles[h].metric)
  }

  ghost predicate MetricInv(m: Metric, ticks: nat) {
    && m.lastUpdatedEpoch == Epoch(m.stampTick)
    && m.stampTick <= m.storedTick <= ticks
  }

  ghost predicate ValuesInv(s: State) {
    && (forall m :: m in s.metrics ==> MetricInv(s.metrics[m], s.ticks))
    && (forall h :: h in s.handles && s.handles[h].touch.Loaded? ==> s.handles[h].touch.tick <= s.ticks)
  }

  lemma SweepKeepsSharing(s: State, h: HandleId, k: Key)
    requires SharingInv(s)
    ensures SharingInv(Step(s, h, Sweep(k)))
  {
    var s' := Step(s, h, Sweep(k));
    if s' != s {
      forall g | g in s'.handles ensures s'.handles[g].key != k {
        assert HasHandle(s, s.handles[g].metric);
      }
      forall j | j in s'.registry ensures s'.registry[j] in s'.metrics {
        assert s.registry[j] != s.registry[k];
      }
    }
  }

  lemma GetKeepsSharing(s: State, h: HandleId, k: Key)
    requires SharingInv(s)
    ensures SharingInv(Step(s, h, GetCounter(k)))
  {
  }

  lemma CloneKeepsSharing(s: State, h: HandleId)
    requires SharingInv(s)
    ensures SharingInv(Step(s, h, CloneHandle))
  {
  }

  // Steps of one handle keep the registry and each handle's key and metric.
  lemma OneHandleKeepsSharing(s: State, s': State, h: HandleId)
    requires SharingInv(s) && h in s.handles && h in s'.handles
    requires s'.registry == s.registry && s'.nextMetric == s.nextMetric && s'.nextHandle == s.nextHandle
    requires s.metrics.Keys <= s'.metrics.Keys
    requires s'.handles == s.handles[h := s'.handles[h]]
    requires s'.handles[h].key == s.handles[h].key && s'.handles[h].metric == s.handles[h].metric
    ensures SharingInv(s')
  {
    forall k | k in s'.registry ensures s'.registry[k] in s'.metrics {
      assert s.registry[k] in s.metrics.Keys;
    }
  }

  lemma UpdateKeepsSharing(s: State, h: HandleId, a: Action)
    requires SharingInv(s) && !a.GetCounter? && !a.Sweep? && !a.CloneHandle?
    ensures SharingInv(Step(s, h, a))
  {
    var s' := Step(s, h, a);
    if a.Tick? || a.DropHandle? || h !in s.handles {
      assert s' == s.(ticks := s'.ticks, handles := s'.handles);
    } else {
      OneHandleKeepsSharing(s, s', h);
    }
  }

  lemma StepKeepsSharing(s: State, h: HandleId, a: Action)
    requires SharingInv(s)
    ensures SharingInv(Step(s, h, a))
  {
    match a
    case GetCounter(k) => GetKeepsSharing(s, h, k);
    case Sweep(k) => SweepKeepsSharing(s, h, k);
    case CloneHandle => CloneKeepsSharing(s, h);
    case _ => UpdateKeepsSharing(s, h, a);
  }

  // An update of a handle's metric.
  lemma MetricUpdateKeepsValues(s: State, h: HandleId, a: Action)
    requires ValuesInv(s) && (a.Add? || a.Set? || a.StoreStamp?)
    ensures ValuesInv(Step(s, h, a))
  {
    var s' := Step(s, h, a);
    forall m | m in s'.metrics ensures MetricInv(s'.metrics[m], s'.ticks) {
      assert MetricInv(s.metrics[m], s.ticks);
    }
  }

  lemma StepKeepsValues(s: State, h: HandleId, a: Action)
    requires ValuesInv(s)
    ensures ValuesInv(Step(s, h, a))
  {
    if a.Add? || a.Set? || a.StoreStamp? {
      MetricUpdateKeepsValues(s, h, a);
    } else {
      var s' := Step(s, h, a);
      forall m | m in s'.metrics ensures MetricInv(s'.metrics[m], s'.ticks) {
        assert m in s.metrics ==> MetricInv(s.metrics[m], s.ticks);
      }
    }
  }

  lemma {:induction false} RunKeepsInv(moves: seq<Move>)
    ensures SharingInv(Run(moves)) && ValuesInv(Run(moves))
    decreases |moves|
  {
    if moves != [] {
      var m := moves[|moves| - 1];
      RunKeepsInv(moves[..|moves| - 1]);
      StepKeepsSharing(Run(moves[..|moves| - 1]), m.handle, m.action);
      StepKeepsValues(Run(moves[..|moves| - 1]), m.handle, m.action);
    }
  }

  // In every interleaving all live handles of a key share one counter, the one
  // the registry reports.
  lemma HandlesShareOneCounter(moves: seq<Move>, g: HandleId, h: HandleId)
    requires
      var s := Run(moves);
      g in s.handles && h in s.handles && s.handles[g].key == s.handles[h].key
    ensures
      var s := Run(moves);
      && s.handles[g].metric == s.handles[h].metric
      && s.handles[g].key in s.registry
      && s.registry[s.handles[g].key] == s.handles[g].metric
  {
    RunKeepsInv(moves);
  }

  // A sweep step that drops the entry of key `k`.
  ghost predicate Drops(s: State, k: Key) {
    k in s.registry && k !in Step(s, 0, Sweep(k)).registry
  }

  lemma DropsIffNotRetained(s: State, k: Key)
    requires k in s.registry && s.registry[k] in s.metrics
    ensures Drops(s, k) <==> !Retains(s, s.registry[k])
  {
  }

  lemma RecentEpochsAreClose(tick: nat, stamp: nat)
    requires stamp <= tick <= stamp + METRIC_RETENTION_EPOCHS
    ensures SaturatingSub(Epoch(tick), Epoch(stamp)) <= METRIC_RETENTION_EPOCHS
  {
  }

  // A sweep never drops a metric with a live handle, nor one whose stamp was
  // read within the last three epochs, even when the epoch counter wraps.
  lemma SweepSparesHeldAndRecent(moves: seq<Move>, k: Key, h: HandleId)
    requires Drops(Run(moves), k)
    ensures
      var s := Run(moves);
      && s.registry[k] in s.metrics
      && (h in s.handles ==> s.handles[h].key != k)
      && s.ticks > s.metrics[s.registry[k]].stampTick + METRIC_RETENTION_EPOCHS
  {
    RunKeepsInv(moves);
    var s := Run(moves);
    var m := s.registry[k];
    DropsIffNotRetained(s, k);
    assert MetricInv(s.metrics[m], s.ticks);
    if h in s.handles {
      assert HasHandle(s, s.handles[h].metric);
    }
    if s.ticks <= s.metrics[m].stampTick + METRIC_RETENTION_EPOCHS {
      RecentEpochsAreClose(s.ticks, s.metrics[m].stampTick);
    }
  }

  // A touch whose store lands in the epoch it read protects its metric for
  // three epochs from the store.
  lemma PromptTouchProtects(moves: seq<Move>, k: Key)
    requires
      var s := Run(moves);
      && k in s.registry && s.registry[k] in s.metrics
      && s.metrics[s.registry[k]].stampTick == s.metrics[s.registry[k]].storedTick
      && s.ticks <= s.metrics[s.registry[k]].storedTick + METRIC_RETENTION_EPOCHS
    ensures !Drops(Run(moves), k)
  {
    if Drops(Run(moves), k) {
      SweepSparesHeldAndRecent(moves, k, 0);
    }
  }

  // An unheld metric is dropped if and only if the epoch is more than three
  // above its stamp. When the stamp was stored plays no part.
  lemma DroppedIffStampOld(moves: seq<Move>, k: Key)
    requires k in Run(moves).registry && !HasHandle(Run(moves), Run(moves).registry[k])
    ensures
      var s := Run(moves);
      && s.registry[k] in s.metrics
      && (Drops(s, k) <==>
            Epoch(s.ticks) > Epoch(s.metrics[s.registry[k]].stampTick) + METRIC_RETENTION_EPOCHS)
  {
    RunKeepsInv(moves);
    var s := Run(moves);
    DropsIffNotRetained(s, k);
    assert MetricInv(s.metrics[s.registry[k]], s.ticks);
  }

  lemma EpochDistance(tick: nat, stamp: nat)
    requires tick / EPOCHS == stamp / EPOCHS
    ensures Epoch(tick) - Epoch(stamp) == tick - stamp
  {
  }

  // As long as the epoch counter has not wrapped since the stamp was read, that
  // is more than three epochs after the read.
  lemma DroppedIffReadLongAgo(moves: seq<Move>, k: Key)
    requires
      var s := Run(moves);
      && k in s.registry && s.registry[k] in s.metrics && !HasHandle(s, s.registry[k])
      && s.metrics[s.registry[k]].stampTick / EPOCHS == s.ticks / EPOCHS
    ensures
      var s := Run(moves);
      Drops(s, k) <==> s.ticks > s.metrics[s.registry[k]].stampTick + METRIC_RETENTION_EPOCHS
  {
    DroppedIffStampOld(moves, k);
    EpochDistance(Run(moves).ticks, Run(moves).metrics[Run(moves).registry[k]].stampTick);
  }

  lemma RunSnoc(moves: seq<Move>, m: Move)
    ensures Run(moves + [m]) == Step(Run(moves), m.handle, m.action)
  {
    assert (moves + [m])[..|moves|] == moves;
  }

  // A touch that reads the epoch, is overtaken by four ticks and then stores:
  // the metric is dropped in the very epoch it was touched in.
  lemma SlowTouchIsForgotten()
    ensures exists moves, k ::
      var s := Run(moves);
      && k in s.registry && s.registry[k] in s.metrics
      && s.metrics[s.registry[k]].storedTick == s.ticks
      && Drops(s, k)
  {
    var script := [GetCounter(5), Add(1), LoadEpoch, Tick, Tick, Tick, Tick, StoreStamp, DropHandle];
    var moves: seq<Move> := [];
    for i := 0 to |script|
      invariant Run(moves) == Slow(i)
    {
      RunSnoc(moves, Move(0, script[i]));
      SlowStep(i);
      moves := moves + [Move(0, script[i])];
    }
    var s := Run(moves);
    assert !HasHandle(s, 0);
    assert Drops(s, 5);
  }

  // The states of that run.
  ghost function Slow(i: nat): State {
    var fresh' := Metric(0, 0, 0, 0);
    var added := Metric(1, 0, 0, 0);
    match i
    case 0 => Init
    case 1 => State(0, map[5 := 0], map[0 := fresh'], map[0 := Handle(5, 0, Done)], 1, 1)
    case 2 => State(0, map[5 := 0], map[0 := added], map[0 := Handle(5, 0, Updated)], 1, 1)
    case 8 => State(4, map[5 := 0], map[0 := added.(storedTick := 4)], map[0 := Handle(5, 0, Done)], 1, 1)
    case 9 => State(4, map[5 := 0], map[0 := added.(storedTick := 4)], map[], 1, 1)
    case _ =>
      State(if 3 <= i <= 7 then i - 3 else 0, map[5 := 0], map[0 := added], map[0 := Handle(5, 0, Loaded(0))], 1, 1)
  }

  lemma SlowStep(i: nat)
    requires i < 9
    ensures
      var script := [GetCounter(5), Add(1), LoadEpoch, Tick, Tick, Tick, Tick, StoreStamp, DropHandle];
      Step(Slow(i), 0, script[i]) == Slow(i + 1)
  {
    assert map[0 := Handle(5, 0, Done)] - {0} == map[];
  }
}
