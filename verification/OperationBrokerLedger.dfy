// An account of the broker kept from outside: what a caller knows from its own
// calls and their replies. It never looks at the store, yet in every run it
// determines the store and every further reply.
module OperationBrokerLedger {
  import opened Wrappers
  import opened Arithmetic
  import opened OperationBroker
  import opened OperationBrokerRuns

  // Still with the broker; handed out by free or take, and whether its
  // completion is still awaited; or lost to a discard.
  datatype Fate = Held | HandedOut(awaited: bool) | Discarded

  // What was admitted, with the metadata as its completion left it and the
  // outcome; whether a drain has reported it; and whether its token has fired.
  datatype Account<K, O, M> = Account(
    kind: K,
    metadata: M,
    outcome: Option<O>,
    reported: bool,
    fate: Fate,
    fired: bool
  )

  datatype Ledger<K, O, M> = Ledger(accounts: map<nat, Account<K, O, M>>, wakes: nat)

  predicate Open<K, O, M>(l: Ledger<K, O, M>, id: nat) {
    id in l.accounts && l.accounts[id].fate.Held? && l.accounts[id].outcome.None?
  }

  function SetAccount<K, O, M>(l: Ledger<K, O, M>, id: nat, a: Account<K, O, M>): Ledger<K, O, M> {
    l.(accounts := l.accounts[id := a])
  }

  function Completed<K, O, M>(a: Account<K, O, M>, cancel: bool, complete: (K, M) -> (O, M)): Account<K, O, M> {
    var (outcome, metadata) := complete(a.kind, a.metadata);
    a.(outcome := Some(outcome), metadata := metadata, fired := a.fired || cancel)
  }

  function DiscardedAccount<K, O, M>(a: Account<K, O, M>): Account<K, O, M> {
    match a.fate
    case Held => a.(fate := Discarded, fired := true)
    case HandedOut(_) => a.(fate := HandedOut(false))
    case Discarded => a
  }

  // The entry of one call with its reply.
  function Record<K, O, M>(l: Ledger<K, O, M>, c: Call<K, O, M>, reply: Reply<K, O, M>): Ledger<K, O, M> {
    match c
    case Admit(kind, metadata) =>
      if reply.Admitted? then SetAccount(l, reply.id, Account(kind, metadata, None, false, Held, false)) else l
    case Resolve(id, cancel, complete) =>
      if Open(l, id) then SetAccount(l, id, Completed(l.accounts[id], cancel, complete))
      else if id in l.accounts && l.accounts[id].fate == HandedOut(true) && !cancel then
        SetAccount(l, id, l.accounts[id].(fate := HandedOut(false)))
      else l
    case Free(id) =>
      if !reply.Released? || id !in l.accounts then l
      else if Open(l, id) then SetAccount(l, id, l.accounts[id].(fate := HandedOut(true), fired := true))
      else SetAccount(l, id, l.accounts[id].(fate := HandedOut(false)))
    case Drain(_) =>
      if !reply.Completions? then l
      else
        l.(accounts := map id | id in l.accounts ::
             if id in ReportedIds(reply.completions) then l.accounts[id].(reported := true) else l.accounts[id])
    case Take(id, _) =>
      if reply.Taken? && id in l.accounts then SetAccount(l, id, l.accounts[id].(fate := HandedOut(false))) else l
    case RequestCancellation(id) =>
      if Open(l, id) then SetAccount(l, id, l.accounts[id].(fired := true)) else l
    case InvalidateWaiters => l.(wakes := l.wakes + 1)
    case DiscardAll =>
      Ledger(map id | id in l.accounts :: DiscardedAccount(l.accounts[id]), l.wakes + 1)
  }

  // ----- the store the account describes -----

  function Lookup<K, O, M>(s: Store<K, O, M>, id: nat): Option<Operation<K, O, M>> {
    if id in s.operations then Some(s.operations[id]) else None
  }

  // What the store holds for an account.
  function Slot<K, O, M>(a: Account<K, O, M>): Option<Operation<K, O, M>> {
    match a.fate
    case Held =>
      Some(Operation(a.kind, Some(a.metadata),
                     match a.outcome
                     case None => Pending
                     case Some(outcome) => if a.reported then OperationState.Drained(outcome) else Queued(outcome)))
    case HandedOut(awaited) => if awaited then Some(Operation(a.kind, None, Discarding)) else None
    case Discarded => None
  }

  predicate Sound<K, O, M>(a: Account<K, O, M>) {
    && (a.reported ==> a.outcome.Some?)
    && (a.fate == HandedOut(true) ==> a.outcome.None?)
  }

  ghost predicate Matches<K, O, M>(a: Account<K, O, M>, s: Store<K, O, M>, id: nat) {
    && Sound(a)
    && Lookup(s, id) == Slot(a)
    && (a.fired <==> id in s.cancelled)
  }

  ghost predicate Describes<K, O, M>(l: Ledger<K, O, M>, s: Store<K, O, M>) {
    && (forall id :: id in l.accounts <==> 1 <= id < s.nextOperationId)
    && (forall id :: id in l.accounts ==> Matches(l.accounts[id], s, id))
    && s.wakeGeneration == l.wakes % (U64_MAX + 1)
  }

  // The id a call is about.
  function About<K, O, M>(s: Store<K, O, M>, c: Call<K, O, M>): Option<nat> {
    match c
    case Admit(_, _) => Some(s.nextOperationId)
    case Resolve(id, _, _) => Some(id)
    case Free(id) => Some(id)
    case Take(id, _) => Some(id)
    case RequestCancellation(id) => Some(id)
    case _ => None
  }

  // A call about one id leaves every other alone.
  lemma OthersKept<K, O, M>(s: Store<K, O, M>, c: Call<K, O, M>, id: nat)
    requires Inv(s) && About(s, c).Some? && About(s, c) != Some(id)
    ensures
      var s' := Step(s, c).0;
      Lookup(s', id) == Lookup(s, id) && (id in s'.cancelled <==> id in s.cancelled)
  {
  }

  lemma StoredHasAccount<K, O, M>(l: Ledger<K, O, M>, s: Store<K, O, M>, id: nat)
    requires Inv(s) && Describes(l, s) && id in s.operations
    ensures id in l.accounts
  {
    assert OperationInv(s, id);
  }

  // A live id is pending in the store exactly when it is open in the account.
  lemma OpenIffPending<K, O, M>(l: Ledger<K, O, M>, s: Store<K, O, M>, id: nat)
    requires Inv(s) && Describes(l, s)
    ensures Open(l, id) <==> IsPending(s, id)
  {
    if id in s.operations {
      StoredHasAccount(l, s, id);
    }
    assert id in l.accounts ==> Matches(l.accounts[id], s, id);
  }

  lemma AdmitMatches<K, O, M>(l: Ledger<K, O, M>, s: Store<K, O, M>, c: Call<K, O, M>)
    requires Inv(s) && Describes(l, s) && c.Admit? && Step(s, c).1.Admitted?
    ensures
      var l', id := Record(l, c, Step(s, c).1), s.nextOperationId;
      id in l'.accounts && Matches(l'.accounts[id], Step(s, c).0, id)
  {
    assert s.nextOperationId !in s.cancelled;
  }

  lemma ResolveMatches<K, O, M>(l: Ledger<K, O, M>, s: Store<K, O, M>, c: Call<K, O, M>)
    requires Inv(s) && Describes(l, s) && c.Resolve? && c.id in l.accounts
    ensures
      var l' := Record(l, c, Step(s, c).1);
      c.id in l'.accounts && Matches(l'.accounts[c.id], Step(s, c).0, c.id)
  {
    assert Matches(l.accounts[c.id], s, c.id);
    OpenIffPending(l, s, c.id);
  }

  lemma FreeMatches<K, O, M>(l: Ledger<K, O, M>, s: Store<K, O, M>, c: Call<K, O, M>)
    requires Inv(s) && Describes(l, s) && c.Free? && c.id in l.accounts
    ensures
      var l' := Record(l, c, Step(s, c).1);
      c.id in l'.accounts && Matches(l'.accounts[c.id], Step(s, c).0, c.id)
  {
    assert Matches(l.accounts[c.id], s, c.id);
    OpenIffPending(l, s, c.id);
  }

  lemma TakeMatches<K, O, M>(l: Ledger<K, O, M>, s: Store<K, O, M>, c: Call<K, O, M>)
    requires Inv(s) && Describes(l, s) && (c.Take? || c.RequestCancellation?) && c.id in l.accounts
    ensures
      var l' := Record(l, c, Step(s, c).1);
      c.id in l'.accounts && Matches(l'.accounts[c.id], Step(s, c).0, c.id)
  {
    assert Matches(l.accounts[c.id], s, c.id);
    OpenIffPending(l, s, c.id);
  }

  // An id without an account changes nothing.
  lemma UnknownId<K, O, M>(l: Ledger<K, O, M>, s: Store<K, O, M>, c: Call<K, O, M>)
    requires Inv(s) && Describes(l, s) && !c.Admit? && About(s, c).Some? && About(s, c).value !in l.accounts
    ensures Step(s, c).0 == s && Record(l, c, Step(s, c).1) == l
  {
    if About(s, c).value in s.operations {
      StoredHasAccount(l, s, About(s, c).value);
    }
  }

  lemma OwnMatches<K, O, M>(l: Ledger<K, O, M>, s: Store<K, O, M>, c: Call<K, O, M>)
    requires Inv(s) && Describes(l, s) && About(s, c).Some?
    requires About(s, c).value in Record(l, c, Step(s, c).1).accounts
    ensures
      var l', id := Record(l, c, Step(s, c).1), About(s, c).value;
      Matches(l'.accounts[id], Step(s, c).0, id)
  {
    match c
    case Admit(_, _) =>
      if Step(s, c).1.Admitted? {
        AdmitMatches(l, s, c);
      }
    case _ =>
      if c.id !in l.accounts {
        UnknownId(l, s, c);
      } else if c.Resolve? {
        ResolveMatches(l, s, c);
      } else if c.Free? {
        FreeMatches(l, s, c);
      } else {
        TakeMatches(l, s, c);
      }
  }

  // Only an admission opens an account.
  lemma RecordKeepsIds<K, O, M>(l: Ledger<K, O, M>, c: Call<K, O, M>, reply: Reply<K, O, M>)
    requires !c.Admit?
    ensures Record(l, c, reply).accounts.Keys == l.accounts.Keys
  {
  }

  // A call about one id touches only its account.
  lemma RecordTouchesOne<K, O, M>(l: Ledger<K, O, M>, s: Store<K, O, M>, c: Call<K, O, M>, id: nat)
    requires Inv(s) && About(s, c).Some? && About(s, c) != Some(id)
    ensures
      var l' := Record(l, c, Step(s, c).1);
      id in l'.accounts ==> id in l.accounts && l'.accounts[id] == l.accounts[id]
  {
  }

  lemma IdsAfter<K, O, M>(l: Ledger<K, O, M>, s: Store<K, O, M>, c: Call<K, O, M>, id: nat)
    requires Inv(s) && Describes(l, s)
    ensures id in Record(l, c, Step(s, c).1).accounts <==> 1 <= id < Step(s, c).0.nextOperationId
  {
    if !c.Admit? {
      RecordKeepsIds(l, c, Step(s, c).1);
      OnlyAdmitAdds(s, c);
      assert id in l.accounts.Keys <==> 1 <= id < s.nextOperationId;
    }
  }

  lemma DrainMatches<K, O, M>(l: Ledger<K, O, M>, s: Store<K, O, M>, c: Call<K, O, M>, id: nat)
    requires Inv(s) && Describes(l, s) && c.Drain? && id in l.accounts
    ensures
      var l' := Record(l, c, Step(s, c).1);
      id in l'.accounts && Matches(l'.accounts[id], Step(s, c).0, id)
  {
    var n := Min(c.maxCount, |s.completions|);
    DrainIsPrefix(s, c.maxCount);
    assert ReportedIds(DrainReport(s, n)) == s.completions[..n];
    assert Matches(l.accounts[id], s, id);
    if id in s.completions[..n] {
      assert IsQueued(s, id);
    }
  }

  lemma DiscardMatches<K, O, M>(l: Ledger<K, O, M>, s: Store<K, O, M>, c: Call<K, O, M>, id: nat)
    requires Inv(s) && Describes(l, s) && c.DiscardAll? && id in l.accounts
    ensures
      var l' := Record(l, c, Step(s, c).1);
      id in l'.accounts && Matches(l'.accounts[id], Step(s, c).0, id)
  {
    assert Matches(l.accounts[id], s, id);
    if id in s.operations {
      assert OperationInv(s, id);
    }
  }

  lemma AccountMatches<K, O, M>(l: Ledger<K, O, M>, s: Store<K, O, M>, c: Call<K, O, M>, id: nat)
    requires Inv(s) && Describes(l, s) && id in Record(l, c, Step(s, c).1).accounts
    ensures Matches(Record(l, c, Step(s, c).1).accounts[id], Step(s, c).0, id)
  {
    if About(s, c) == Some(id) {
      OwnMatches(l, s, c);
    } else if About(s, c).Some? {
      RecordTouchesOne(l, s, c, id);
      OthersKept(s, c, id);
      assert Matches(l.accounts[id], s, id);
    } else if c.Drain? {
      DrainMatches(l, s, c, id);
    } else if c.DiscardAll? {
      DiscardMatches(l, s, c, id);
    } else {
      assert Matches(l.accounts[id], s, id);
    }
  }

  lemma WakesAfter<K, O, M>(l: Ledger<K, O, M>, s: Store<K, O, M>, c: Call<K, O, M>)
    requires Inv(s) && s.wakeGeneration == l.wakes % (U64_MAX + 1)
    ensures Step(s, c).0.wakeGeneration == Record(l, c, Step(s, c).1).wakes % (U64_MAX + 1)
  {
    if c.InvalidateWaiters? || c.DiscardAll? {
      WakesOnce(l.wakes);
    }
  }

  lemma WakesOnce(wakes: nat)
    ensures NextGeneration(wakes % (U64_MAX + 1)) == (wakes + 1) % (U64_MAX + 1)
  {
  }

  lemma StepDescribed<K, O, M>(l: Ledger<K, O, M>, s: Store<K, O, M>, c: Call<K, O, M>)
    requires Inv(s) && Describes(l, s)
    ensures Describes(Record(l, c, Step(s, c).1), Step(s, c).0)
  {
    var s', l' := Step(s, c).0, Record(l, c, Step(s, c).1);
    forall id ensures id in l'.accounts <==> 1 <= id < s'.nextOperationId {
      if id >= 0 {
        IdsAfter(l, s, c, id);
      }
    }
    forall id | id in l'.accounts ensures Matches(l'.accounts[id], s', id) {
      AccountMatches(l, s, c, id);
    }
    WakesAfter(l, s, c);
  }

  // The account after a run.
  ghost function Kept<K, O, M>(maxOperations: nat, calls: seq<Call<K, O, M>>): Ledger<K, O, M>
    decreases |calls|
  {
    if calls == [] then Ledger(map[], 0)
    else
      var n := |calls| - 1;
      Record(Kept(maxOperations, calls[..n]), calls[n], ReplyAt(maxOperations, calls, n))
  }

  // In every run the account describes the store: each operation with its kind,
  // metadata, outcome and state, each token, and the wake generation.
  lemma {:induction false} LedgerDescribesStore<K, O, M>(maxOperations: nat, calls: seq<Call<K, O, M>>)
    ensures Describes(Kept(maxOperations, calls), Run(maxOperations, calls).0)
    decreases |calls|
  {
    if calls != [] {
      var n := |calls| - 1;
      LedgerDescribesStore(maxOperations, calls[..n]);
      StepDescribed(Kept(maxOperations, calls[..n]), Run(maxOperations, calls[..n]).0, calls[n]);
    }
  }

  // ----- what every reply must be -----

  // The ids that take a slot of the store.
  function Occupied<K, O, M>(l: Ledger<K, O, M>): set<nat> {
    set id | id in l.accounts && Slot(l.accounts[id]).Some?
  }

  // The completion that a drain reports for an account.
  function ReportOf<K, O, M>(l: Ledger<K, O, M>, id: nat): Option<Completion<K, O>> {
    if id in l.accounts && l.accounts[id].outcome.Some? then
      Some(Completion(id, l.accounts[id].kind, l.accounts[id].outcome.value))
    else None
  }

  // Whether the account calls for this reply, given the queue of waiting ids.
  ghost predicate Expected<K, O, M>(l: Ledger<K, O, M>, maxOperations: nat, queue: seq<nat>, c: Call<K, O, M>,
                                    reply: Reply<K, O, M>) {
    match c
    case Admit(_, _) =>
      reply == if |Occupied(l)| >= maxOperations then AdmissionRefused(AtCapacity)
               else if |l.accounts| + 1 == U64_MAX then AdmissionRefused(IdExhausted)
               else Admitted(|l.accounts| + 1)
    case Resolve(id, _, _) => reply == Notify(Open(l, id) && queue == [])
    case Free(id) =>
      reply == if id in l.accounts && l.accounts[id].fate.Held?
               then Released(ReleasedOperation(l.accounts[id].metadata, l.accounts[id].outcome))
               else NothingToRelease
    case Drain(maxCount) =>
      && reply.Completions? && |reply.completions| == Min(maxCount, |queue|)
      && forall i :: 0 <= i < |reply.completions| ==> Some(reply.completions[i]) == ReportOf(l, queue[i])
    case Take(id, takes) =>
      reply == if id !in Occupied(l) then AccessRefused(Missing)
               else if l.accounts[id].fate.HandedOut? || !l.accounts[id].reported || l.accounts[id].outcome.None?
               then AccessRefused(NotDrained)
               else if !takes(l.accounts[id].outcome.value) then NotTaken
               else Taken(TakenOperation(l.accounts[id].metadata, l.accounts[id].outcome.value))
    case RequestCancellation(id) => reply == Requested(Open(l, id))
    case InvalidateWaiters => reply == Nothing
    case DiscardAll => reply == Nothing
  }

  // The ids admitted so far are the first numbers from 1.
  lemma {:induction false} FirstNumbers(ids: set<nat>, n: nat)
    requires forall id :: id in ids <==> 1 <= id <= n
    ensures |ids| == n
  {
    if n == 0 {
      assert ids == {};
    } else {
      FirstNumbers(ids - {n}, n - 1);
    }
  }

  lemma OccupiedIsStored<K, O, M>(l: Ledger<K, O, M>, s: Store<K, O, M>)
    requires Inv(s) && Describes(l, s)
    ensures Occupied(l) == s.operations.Keys
  {
    forall id ensures id in Occupied(l) <==> id in s.operations {
      if id in s.operations {
        StoredHasAccount(l, s, id);
      }
      assert id in l.accounts ==> Matches(l.accounts[id], s, id);
    }
  }

  lemma AdmitExpected<K, O, M>(l: Ledger<K, O, M>, s: Store<K, O, M>)
    requires Inv(s) && Describes(l, s)
    ensures |Occupied(l)| == |s.operations| && |l.accounts| + 1 == s.nextOperationId
  {
    OccupiedIsStored(l, s);
    FirstNumbers(l.accounts.Keys, s.nextOperationId - 1);
  }

  lemma FreeExpected<K, O, M>(l: Ledger<K, O, M>, s: Store<K, O, M>, c: Call<K, O, M>)
    requires Inv(s) && Describes(l, s) && c.Free?
    ensures Expected(l, s.maxOperations, s.completions, c, Step(s, c).1)
  {
    OccupiedIsStored(l, s);
    if c.id in l.accounts {
      assert Matches(l.accounts[c.id], s, c.id);
    }
  }

  lemma TakeExpected<K, O, M>(l: Ledger<K, O, M>, s: Store<K, O, M>, c: Call<K, O, M>)
    requires Inv(s) && Describes(l, s) && c.Take?
    ensures Expected(l, s.maxOperations, s.completions, c, Step(s, c).1)
  {
    OccupiedIsStored(l, s);
    if c.id in l.accounts {
      assert Matches(l.accounts[c.id], s, c.id);
    }
  }

  lemma DrainExpected<K, O, M>(l: Ledger<K, O, M>, s: Store<K, O, M>, n: nat, i: nat)
    requires Inv(s) && Describes(l, s) && i < n <= |s.completions|
    ensures Some(DrainReport(s, n)[i]) == ReportOf(l, s.completions[i])
  {
    var id := s.completions[i];
    assert IsQueued(s, id);
    assert OperationInv(s, id);
    assert Matches(l.accounts[id], s, id);
  }

  lemma ReplyExpected<K, O, M>(l: Ledger<K, O, M>, s: Store<K, O, M>, c: Call<K, O, M>)
    requires Inv(s) && Describes(l, s)
    ensures Expected(l, s.maxOperations, s.completions, c, Step(s, c).1)
  {
    match c
    case Admit(_, _) => AdmitExpected(l, s);
    case Resolve(id, _, _) => OpenIffPending(l, s, id);
    case Free(id) => FreeExpected(l, s, c);
    case Drain(maxCount) =>
      var n := Min(maxCount, |s.completions|);
      DrainIsPrefix(s, maxCount);
      forall i | 0 <= i < n ensures Some(DrainReport(s, n)[i]) == ReportOf(l, s.completions[i]) {
        DrainExpected(l, s, n, i);
      }
    case Take(id, _) => TakeExpected(l, s, c);
    case RequestCancellation(id) => OpenIffPending(l, s, id);
    case _ =>
  }

  // In every run each reply is the one the account so far calls for: what a
  // drain reports, what free and take hand out, and every refusal.
  lemma RepliesAreExpected<K, O, M>(maxOperations: nat, calls: seq<Call<K, O, M>>, c: Call<K, O, M>)
    ensures
      var l, s := Kept(maxOperations, calls), Run(maxOperations, calls).0;
      Expected(l, maxOperations, s.completions, c, Step(s, c).1)
  {
    LedgerDescribesStore(maxOperations, calls);
    ReplyExpected(Kept(maxOperations, calls), Run(maxOperations, calls).0, c);
  }

  // Every admitted operation is stored with its metadata, exactly as long as it
  // was neither handed out nor stored at a discard.
  lemma NoOperationIsLost<K, O, M>(maxOperations: nat, calls: seq<Call<K, O, M>>, id: nat)
    requires 1 <= id < Run(maxOperations, calls).0.nextOperationId
    ensures
      var l, s := Kept(maxOperations, calls), Run(maxOperations, calls).0;
      && id in l.accounts
      && (l.accounts[id].fate.Held? <==>
            id in s.operations && s.operations[id].metadata == Some(l.accounts[id].metadata))
  {
    LedgerDescribesStore(maxOperations, calls);
    var l, s := Kept(maxOperations, calls), Run(maxOperations, calls).0;
    assert Matches(l.accounts[id], s, id);
  }

  // A refusal, of any kind, leaves the store as it was.
  lemma RefusalChangesNothing<K, O, M>(s: Store<K, O, M>, c: Call<K, O, M>)
    requires Inv(s)
    ensures
      var (s', reply) := Step(s, c);
      reply.AdmissionRefused? || reply.NothingToRelease? || reply.NotTaken? || reply.AccessRefused?
      || reply == Requested(false)
      ==> s' == s
  {
  }
}
