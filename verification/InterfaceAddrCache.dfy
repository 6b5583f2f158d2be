// The per-context cache of interface addresses
// (rust/easytier-core/src/connectivity/composite.rs), as the interleaving of
// any number of calls with the clock. The section under the table lock is one
// step; a call waits, collects and may be cancelled between steps.
module InterfaceAddrCache {
  import opened Wrappers

  type Tid = nat
  type Context = nat
  type CellId = nat

  // What a collection observed, and the context it was started for.
  datatype Response = Response(addresses: nat, collectedFor: Context)

  datatype Cached = Cached(collectedAt: nat, response: Response)

  // One shared cell: the cached value and the call that holds its lock.
  datatype Cell = Cell(cached: Option<Cached>, lock: Option<Tid>)

  datatype Entry = Entry(context: Context, cell: CellId)

  // A call keeps its clone of the cell from the lookup until it returns.
  datatype Pc =
    | Idle
    | WantTable(context: Context)
    | WantCell(context: Context, cell: CellId)
    | HasCell(context: Context, cell: CellId)      // lock held, cache not yet looked at
    | Collecting(context: Context, cell: CellId)   // lock held, awaiting collect()

  datatype Action =
    | Call(context: Context)
    | Lookup
    | LockCell
    | CheckCached
    | Collected(addresses: nat)
    | Cancel
    | Tick(nanos: nat)

  // A call's return: when, for which context, with what, and how old.
  datatype Return = Return(context: Context, response: Response, collectedAt: nat, at: nat, collectedHere: bool)

  datatype State = State(
    ttl: nat,
    now: nat,
    entries: seq<Entry>,
    cells: map<CellId, Cell>,
    nextCell: CellId,
    pcs: map<Tid, Pc>,
    // history
    replies: seq<Return>
  )

  function Init(ttl: nat): State {
    State(ttl, 0, [], map[], 0, map[], [])
  }

  function PcOf(s: State, t: Tid): Pc {
    if t in s.pcs then s.pcs[t] else Idle
  }

  function Goto(s: State, t: Tid, pc: Pc): State {
    s.(pcs := s.pcs[t := pc])
  }

  predicate HasClone(pc: Pc) {
    pc.WantCell? || pc.HasCell? || pc.Collecting?
  }

  predicate RefersTo(pc: Pc, cell: CellId) {
    HasClone(pc) && pc.cell == cell
  }

  predicate HoldsLock(pc: Pc, cell: CellId) {
    (pc.HasCell? || pc.Collecting?) && pc.cell == cell
  }

  // Arc::strong_count above one: some call holds a clone beside the table.
  ghost predicate Shared(s: State, cell: CellId) {
    exists t: Tid :: RefersTo(PcOf(s, t), cell)
  }

  predicate Fresh(s: State, cached: Option<Cached>) {
    cached.Some? && s.now - cached.value.collectedAt < s.ttl
  }

  // The retain predicate of the table.
  ghost predicate Keeps(s: State, e: Entry) {
    || Shared(s, e.cell)
    || e.cell !in s.cells
    || s.cells[e.cell].lock.Some?
    || Fresh(s, s.cells[e.cell].cached)
  }

  ghost function Retained(s: State, entries: seq<Entry>): (r: seq<Entry>)
    ensures forall e :: e in r <==> e in entries && Keeps(s, e)
  {
    if entries == [] then []
    else
      var rest := Retained(s, entries[1..]);
      if Keeps(s, entries[0]) then [entries[0]] + rest else rest
  }

  ghost predicate HasEntryFor(entries: seq<Entry>, c: Context) {
    exists e :: e in entries && e.context == c
  }

  ghost function EntryFor(entries: seq<Entry>, c: Context): (e: Entry)
    requires HasEntryFor(entries, c)
    ensures e in entries && e.context == c
  {
    assert entries != [];
    if entries[0].context == c then entries[0] else EntryFor(entries[1..], c)
  }

  function SetCell(s: State, cell: CellId, value: Cell): State {
    s.(cells := s.cells[cell := value])
  }

  function Unlock(s: State, t: Tid): State {
    var pc := PcOf(s, t);
    if (pc.HasCell? || pc.Collecting?) && pc.cell in s.cells
    then SetCell(s, pc.cell, s.cells[pc.cell].(lock := None))
    else s
  }

  // The section under the table lock: prune, then find or add the cell.
  ghost function LookupCell(s: State, t: Tid, c: Context): State {
    var kept := Retained(s, s.entries);
    if HasEntryFor(kept, c) then Goto(s.(entries := kept), t, WantCell(c, EntryFor(kept, c).cell))
    else
      var cell := s.nextCell;
      Goto(s.(entries := kept + [Entry(c, cell)], cells := s.cells[cell := Cell(None, None)], nextCell := cell + 1),
           t, WantCell(c, cell))
  }

  // One step of call `t`; an action it cannot take changes nothing.
  ghost function Step(s: State, t: Tid, a: Action): State {
    var pc := PcOf(s, t);
    match a
    case Call(c) => if pc.Idle? then Goto(s, t, WantTable(c)) else s
    case Lookup => if pc.WantTable? then LookupCell(s, t, pc.context) else s
    case LockCell =>
      if pc.WantCell? && pc.cell in s.cells && s.cells[pc.cell].lock.None? then
        Goto(SetCell(s, pc.cell, s.cells[pc.cell].(lock := Some(t))), t, HasCell(pc.context, pc.cell))
      else s
    case CheckCached =>
      if !pc.HasCell? || pc.cell !in s.cells then s
      else
        var cached := s.cells[pc.cell].cached;
        if Fresh(s, cached) then
          var hit := Return(pc.context, cached.value.response, cached.value.collectedAt, s.now, false);
          Goto(Unlock(s, t).(replies := s.replies + [hit]), t, Idle)
        else Goto(s, t, Collecting(pc.context, pc.cell))
    case Collected(addresses) =>
      if !pc.Collecting? then s
      else
        var response := Response(addresses, pc.context);
        var done := Return(pc.context, response, s.now, s.now, true);
        Goto(SetCell(s, pc.cell, Cell(Some(Cached(s.now, response)), None)).(replies := s.replies + [done]), t, Idle)
    case Cancel => Goto(Unlock(s, t), t, Idle)
    case Tick(nanos) => s.(now := s.now + nanos)
  }

  datatype Move = Move(thread: Tid, action: Action)

  ghost function Run(s: State, moves: seq<Move>): State
    decreases |moves|
  {
    if moves == [] then s
    else
      var m := moves[|moves| - 1];
      Step(Run(s, moves[..|moves| - 1]), m.thread, m.action)
  }

  // The table lists each context once, and each cell once.
  ghost predicate EntriesDistinct(entries: seq<Entry>) {
    && (forall i, j :: 0 <= i < j < |entries| ==> entries[i].context != entries[j].context)
    && (forall d, e :: d in entries && e in entries && d.cell == e.cell ==> d == e)
  }

  ghost predicate TableInv(s: State) {
    && EntriesDistinct(s.entries)
    && (forall e :: e in s.entries ==> e.cell in s.cells && e.cell < s.nextCell)
  }

  // A call's cell is the table's cell for its context; a lock is held by the
  // call that says so.
  ghost predicate ThreadInv(s: State, t: Tid) {
    var pc := PcOf(s, t);
    && (HasClone(pc) ==> Entry(pc.context, pc.cell) in s.entries)
    && (forall e :: e in s.entries && e.cell in s.cells ==>
          (s.cells[e.cell].lock == Some(t) <==> HoldsLock(pc, e.cell)))
  }

  ghost predicate CacheInv(s: State) {
    forall e :: e in s.entries && e.cell in s.cells && s.cells[e.cell].cached.Some? ==>
      s.cells[e.cell].cached.value.response.collectedFor == e.context
  }

  ghost predicate ReturnOk(ttl: nat, r: Return) {
    && r.response.collectedFor == r.context
    && (r.collectedHere || r.at - r.collectedAt < ttl)
  }

  ghost predicate Inv(s: State) {
    && TableInv(s)
    && CacheInv(s)
    && (forall t: Tid :: ThreadInv(s, t))
    && (forall i :: 0 <= i < |s.replies| ==> ReturnOk(s.ttl, s.replies[i]))
  }

  lemma {:induction false} RetainedDistinct(s: State, entries: seq<Entry>)
    requires EntriesDistinct(entries)
    ensures EntriesDistinct(Retained(s, entries))
  {
    if entries != [] {
      var rest := Retained(s, entries[1..]);
      RetainedDistinct(s, entries[1..]);
      forall e | e in rest ensures e.context != entries[0].context {
        assert e in entries[1..];
      }
    }
  }

  // Pruning never drops an entry whose cell a call still holds.
  lemma HeldEntrySurvives(s: State, t: Tid)
    requires Inv(s)
    ensures
      var pc := PcOf(s, t);
      HasClone(pc) ==> Entry(pc.context, pc.cell) in Retained(s, s.entries)
  {
    var pc := PcOf(s, t);
    assert ThreadInv(s, t);
    if HasClone(pc) {
      assert RefersTo(pc, pc.cell);
      assert Shared(s, pc.cell);
      assert Keeps(s, Entry(pc.context, pc.cell));
    }
  }

  // Adding an entry for a context that has none.
  lemma DistinctWithNew(kept: seq<Entry>, c: Context, cell: CellId)
    requires EntriesDistinct(kept) && !HasEntryFor(kept, c) && forall e :: e in kept ==> e.cell < cell
    ensures EntriesDistinct(kept + [Entry(c, cell)])
  {
    var entries := kept + [Entry(c, cell)];
    forall i, j | 0 <= i < j < |entries| ensures entries[i].context != entries[j].context {
      assert entries[i] in kept;
    }
  }

  lemma LookupDistinct(s: State, t: Tid, c: Context)
    requires TableInv(s)
    ensures EntriesDistinct(LookupCell(s, t, c).entries)
  {
    RetainedDistinct(s, s.entries);
    var kept := Retained(s, s.entries);
    if !HasEntryFor(kept, c) {
      DistinctWithNew(kept, c, s.nextCell);
    }
  }

  // The table after a lookup: pruned, with an entry for the context.
  lemma LookupTable(s: State, t: Tid, c: Context)
    requires Inv(s)
    ensures
      var s' := LookupCell(s, t, c);
      && TableInv(s') && CacheInv(s')
      && PcOf(s', t).WantCell? && PcOf(s', t).context == c
      && Entry(c, PcOf(s', t).cell) in s'.entries
      && (forall e :: e in Retained(s, s.entries) ==> e in s'.entries)
      && (forall e :: e in s'.entries ==> e in s.entries || e == Entry(c, s.nextCell))
  {
    LookupDistinct(s, t, c);
  }

  lemma LookupThreads(s: State, t: Tid, c: Context, u: Tid)
    requires Inv(s) && PcOf(s, t).WantTable?
    ensures ThreadInv(LookupCell(s, t, c), u)
  {
    var s' := LookupCell(s, t, c);
    LookupTable(s, t, c);
    HeldEntrySurvives(s, u);
    assert ThreadInv(s, u);
    if u != t {
      assert PcOf(s', u) == PcOf(s, u);
      forall e | e in s'.entries
        ensures s'.cells[e.cell].lock == Some(u) <==> HoldsLock(PcOf(s', u), e.cell)
      {
        if e in s.entries {
          assert s'.cells[e.cell] == s.cells[e.cell];
        } else {
          assert e.cell == s.nextCell;
        }
      }
    }
  }

  // Changing one cell by the call that holds, or takes, its lock.
  lemma CellStepThreads(s: State, t: Tid, a: Action, u: Tid)
    requires Inv(s) && (a.LockCell? || a.CheckCached? || a.Collected? || a.Cancel?)
    ensures ThreadInv(Step(s, t, a), u)
  {
    var s' := Step(s, t, a);
    assert ThreadInv(s, t) && ThreadInv(s, u);
    assert s'.entries == s.entries;
    if u != t {
      assert PcOf(s', u) == PcOf(s, u);
    }
  }

  lemma CellStepCache(s: State, t: Tid, a: Action)
    requires Inv(s) && (a.LockCell? || a.CheckCached? || a.Collected? || a.Cancel?)
    ensures TableInv(Step(s, t, a)) && CacheInv(Step(s, t, a))
  {
    var pc := PcOf(s, t);
    assert ThreadInv(s, t);
    if a.Collected? && pc.Collecting? {
      assert Entry(pc.context, pc.cell) in s.entries;
    }
  }

  lemma StepReturns(s: State, t: Tid, a: Action)
    requires Inv(s)
    ensures
      var s' := Step(s, t, a);
      forall i :: 0 <= i < |s'.replies| ==> ReturnOk(s'.ttl, s'.replies[i])
  {
    assert ThreadInv(s, t);
  }

  lemma StepKeepsInv(s: State, t: Tid, a: Action)
    requires Inv(s)
    ensures Inv(Step(s, t, a))
  {
    var s' := Step(s, t, a);
    StepReturns(s, t, a);
    if a.Lookup? && PcOf(s, t).WantTable? {
      LookupTable(s, t, PcOf(s, t).context);
      forall u: Tid ensures ThreadInv(s', u) {
        LookupThreads(s, t, PcOf(s, t).context, u);
      }
    } else if a.LockCell? || a.CheckCached? || a.Collected? || a.Cancel? {
      CellStepCache(s, t, a);
      forall u: Tid ensures ThreadInv(s', u) {
        CellStepThreads(s, t, a, u);
      }
    } else {
      forall u: Tid ensures ThreadInv(s', u) {
        assert ThreadInv(s, u);
        assert u != t ==> PcOf(s', u) == PcOf(s, u);
      }
    }
  }

  lemma {:induction false} RunKeepsInv(ttl: nat, moves: seq<Move>)
    ensures Inv(Run(Init(ttl), moves)) && Run(Init(ttl), moves).ttl == ttl
    decreases |moves|
  {
    if moves != [] {
      var m := moves[|moves| - 1];
      RunKeepsInv(ttl, moves[..|moves| - 1]);
      StepKeepsInv(Run(Init(ttl), moves[..|moves| - 1]), m.thread, m.action);
    }
  }

  // In every interleaving the table has one entry per context and at most one
  // call collects for a context at a time; a held entry is in the table.
  lemma SingleFlight(ttl: nat, moves: seq<Move>, t: Tid, u: Tid)
    ensures
      var s := Run(Init(ttl), moves);
      && EntriesDistinct(s.entries)
      && (PcOf(s, t).Collecting? && PcOf(s, u).Collecting? && PcOf(s, t).context == PcOf(s, u).context ==> t == u)
      && (PcOf(s, t).Collecting? ==> Entry(PcOf(s, t).context, PcOf(s, t).cell) in s.entries)
  {
    RunKeepsInv(ttl, moves);
    var s := Run(Init(ttl), moves);
    assert ThreadInv(s, t) && ThreadInv(s, u);
    var p, q := PcOf(s, t), PcOf(s, u);
    if p.Collecting? && q.Collecting? && p.context == q.context {
      var i :| 0 <= i < |s.entries| && s.entries[i] == Entry(p.context, p.cell);
      var j :| 0 <= j < |s.entries| && s.entries[j] == Entry(q.context, q.cell);
      assert i == j;
    }
  }

  // No lookup, by any call, removes an entry another call holds.
  lemma HeldEntryIsNotEvicted(ttl: nat, moves: seq<Move>, t: Tid, u: Tid)
    ensures
      var s := Run(Init(ttl), moves);
      var pc := PcOf(s, u);
      HasClone(pc) && u != t ==> Entry(pc.context, pc.cell) in Step(s, t, Lookup).entries
  {
    RunKeepsInv(ttl, moves);
    var s := Run(Init(ttl), moves);
    assert ThreadInv(s, u);
    HeldEntrySurvives(s, u);
    if PcOf(s, t).WantTable? {
      LookupTable(s, t, PcOf(s, t).context);
    }
  }

  // Nor does it remove a fresh one: an entry leaves the table exactly when no
  // call holds it and its value is missing or has reached the time-to-live.
  lemma EvictedIffStaleAndUnheld(ttl: nat, moves: seq<Move>, t: Tid, e: Entry)
    requires
      var s := Run(Init(ttl), moves);
      PcOf(s, t).WantTable? && e in s.entries && e.cell in s.cells
    ensures
      var s := Run(Init(ttl), moves);
      e !in Step(s, t, Lookup).entries <==> !Shared(s, e.cell) && !Fresh(s, s.cells[e.cell].cached)
  {
    RunKeepsInv(ttl, moves);
    var s := Run(Init(ttl), moves);
    if s.cells[e.cell].lock.Some? {
      assert ThreadInv(s, s.cells[e.cell].lock.value);
      assert RefersTo(PcOf(s, s.cells[e.cell].lock.value), e.cell);
      assert Shared(s, e.cell);
    }
    LookupTable(s, t, PcOf(s, t).context);
  }

  // Every response ever returned was collected for the caller's own context,
  // by this call or less than the time-to-live before.
  lemma ReturnsAreFreshAndOwn(ttl: nat, moves: seq<Move>, r: Return)
    requires r in Run(Init(ttl), moves).replies
    ensures r.response.collectedFor == r.context
    ensures r.collectedHere || r.at - r.collectedAt < ttl
  {
    RunKeepsInv(ttl, moves);
  }
}
