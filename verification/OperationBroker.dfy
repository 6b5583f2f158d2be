// Lifecycle store for externally submitted asynchronous operations
// (rust/easytier-core/src/foundation/operation_broker.rs).
//
// Every operation owns one cancellation token, created with it; since ids are
// never reused, the model names a token by its operation's id and keeps the
// set of tokens that have fired.
module OperationBroker {
  import opened Wrappers
  import opened Arithmetic
  import opened Sequences

  datatype AdmissionError = AtCapacity | IdExhausted

  datatype AccessError = Missing | NotDrained

  datatype OperationState<O> = Pending | Queued(outcome: O) | Drained(outcome: O) | Discarding

  datatype Operation<K, O, M> = Operation(kind: K, metadata: Option<M>, state: OperationState<O>)

  datatype Completion<K, S> = Completion(operationId: nat, kind: K, status: S)

  datatype ReleasedOperation<M, O> = ReleasedOperation(metadata: M, outcome: Option<O>)

  datatype TakenOperation<M, T> = TakenOperation(metadata: M, value: T)

  // The broker's fields as one value.
  datatype Store<K, O, M> = Store(
    maxOperations: nat,
    nextOperationId: nat,
    operations: map<nat, Operation<K, O, M>>,
    completions: seq<nat>,
    wakeGeneration: nat,
    cancelled: set<nat>
  )

  // One call on the broker, with its arguments.
  datatype Call<!K, !O, !M> =
    | Admit(kind: K, metadata: M)
    | Resolve(id: nat, cancel: bool, complete: (K, M) -> (O, M))
    | Free(id: nat)
    | Drain(maxCount: nat)
    | Take(id: nat, takes: O -> bool)
    | RequestCancellation(id: nat)
    | InvalidateWaiters
    | DiscardAll

  // What the call returns.
  datatype Reply<K, O, M> =
    | Admitted(id: nat)
    | AdmissionRefused(admissionError: AdmissionError)
    | Notify(notify: bool)
    | Released(operation: ReleasedOperation<M, O>)
    | NothingToRelease
    | Completions(completions: seq<Completion<K, O>>)
    | Taken(taken: TakenOperation<M, O>)
    | NotTaken
    | AccessRefused(accessError: AccessError)
    | Requested(requested: bool)
    | Nothing

  predicate IsQueued<K, O, M>(s: Store<K, O, M>, id: nat) {
    id in s.operations && s.operations[id].state.Queued?
  }

  predicate IsPending<K, O, M>(s: Store<K, O, M>, id: nat) {
    id in s.operations && s.operations[id].state.Pending?
  }

  // What one stored operation always satisfies.
  ghost predicate OperationInv<K, O, M>(s: Store<K, O, M>, id: nat)
    requires id in s.operations
  {
    var op := s.operations[id];
    && 1 <= id < s.nextOperationId
    && (op.metadata.Some? <==> !op.state.Discarding?)
    && (op.state.Discarding? ==> id in s.cancelled)
  }

  // The queue lists exactly the queued ids, each once; metadata is present iff
  // the operation is not a tombstone; a tombstone's token has fired; the
  // store is within its bound.
  ghost predicate Inv<K, O, M>(s: Store<K, O, M>) {
    && 1 <= s.nextOperationId <= U64_MAX
    && s.wakeGeneration <= U64_MAX
    && |s.operations| <= s.maxOperations
    && NoDuplicates(s.completions)
    && (forall id :: id in s.completions <==> IsQueued(s, id))
    && (forall id :: id in s.operations ==> OperationInv(s, id))
    && (forall id :: id in s.cancelled ==> id < s.nextOperationId)
  }

  function Init<K, O, M>(maxOperations: nat): Store<K, O, M> {
    Store(maxOperations, 1, map[], [], 0, {})
  }

  function MarkDrained<K, O, M>(op: Operation<K, O, M>): Operation<K, O, M> {
    match op.state
    case Queued(outcome) => op.(state := Drained(outcome))
    case _ => op
  }

  // The store after the first `n` queued ids have been handed to the caller.
  function DrainPrefix<K, O, M>(s: Store<K, O, M>, n: nat): Store<K, O, M>
    requires n <= |s.completions|
  {
    var drained := s.completions[..n];
    s.(operations := map id | id in s.operations ::
         if id in drained then MarkDrained(s.operations[id]) else s.operations[id],
       completions := s.completions[n..])
  }

  // The completions reported for the first `n` queued ids, in queue order.
  function DrainReport<K, O, M>(s: Store<K, O, M>, n: nat): (r: seq<Completion<K, O>>)
    requires n <= |s.completions|
    requires forall id :: id in s.completions ==> IsQueued(s, id)
  {
    seq(n, i requires 0 <= i < n =>
      assert IsQueued(s, s.completions[i]);
      var op := s.operations[s.completions[i]];
      Completion(s.completions[i], op.kind, op.state.outcome))
  }

  // The store after the first `n` queued ids are drained, and the reply.
  function DrainStep<K, O, M>(s: Store<K, O, M>, n: nat): (Store<K, O, M>, Reply<K, O, M>)
    requires n <= |s.completions|
    requires forall id :: id in s.completions ==> IsQueued(s, id)
  {
    (DrainPrefix(s, n), Completions(DrainReport(s, n)))
  }

  // The effect of one call on the store, and its reply.
  function Step<K, O, M>(s: Store<K, O, M>, c: Call<K, O, M>): (r: (Store<K, O, M>, Reply<K, O, M>))
    requires Inv(s)
  {
    match c
    case Admit(kind, metadata) =>
      if |s.operations| >= s.maxOperations then (s, AdmissionRefused(AtCapacity))
      else if s.nextOperationId == U64_MAX then (s, AdmissionRefused(IdExhausted))
      else
        var id := s.nextOperationId;
        (s.(nextOperationId := id + 1,
            operations := s.operations[id := Operation(kind, Some(metadata), Pending)]),
         Admitted(id))
    case Resolve(id, cancel, complete) =>
      if IsPending(s, id) then
        assert OperationInv(s, id);
        var op := s.operations[id];
        var (outcome, metadata) := complete(op.kind, op.metadata.value);
        (s.(operations := s.operations[id := Operation(op.kind, Some(metadata), Queued(outcome))],
            completions := s.completions + [id],
            cancelled := if cancel then s.cancelled + {id} else s.cancelled),
         Notify(s.completions == []))
      else if id in s.operations && s.operations[id].state.Discarding? && !cancel then
        (s.(operations := s.operations - {id}), Notify(false))
      else (s, Notify(false))
    case Free(id) =>
      if id !in s.operations || s.operations[id].state.Discarding? then (s, NothingToRelease)
      else
        assert OperationInv(s, id);
        var op := s.operations[id];
        if op.state.Pending? then
          (s.(operations := s.operations[id := Operation(op.kind, None, Discarding)],
              cancelled := s.cancelled + {id}),
           Released(ReleasedOperation(op.metadata.value, None)))
        else
          (s.(operations := s.operations - {id}, completions := Retain(s.completions, {id})),
           Released(ReleasedOperation(op.metadata.value, Some(op.state.outcome))))
    case Drain(maxCount) =>
      DrainStep(s, Min(maxCount, |s.completions|))
    case Take(id, takes) =>
      if id !in s.operations then (s, AccessRefused(Missing))
      else if !s.operations[id].state.Drained? then (s, AccessRefused(NotDrained))
      else
        assert OperationInv(s, id);
        var op := s.operations[id];
        if takes(op.state.outcome) then
          (s.(operations := s.operations - {id}),
           Taken(TakenOperation(op.metadata.value, op.state.outcome)))
        else (s, NotTaken)
    case RequestCancellation(id) =>
      if IsPending(s, id) then (s.(cancelled := s.cancelled + {id}), Requested(true))
      else (s, Requested(false))
    case InvalidateWaiters =>
      (s.(wakeGeneration := NextGeneration(s.wakeGeneration)), Nothing)
    case DiscardAll =>
      (s.(operations := map[], completions := [],
          wakeGeneration := NextGeneration(s.wakeGeneration),
          cancelled := s.cancelled + s.operations.Keys),
       Nothing)
  }

  // u64::wrapping_add(1)
  function NextGeneration(generation: nat): nat {
    (generation + 1) % (U64_MAX + 1)
  }

  lemma InitInv<K, O, M>(maxOperations: nat)
    ensures Inv(Init<K, O, M>(maxOperations))
  {
  }

  lemma AdmitKeepsInv<K, O, M>(s: Store<K, O, M>, c: Call<K, O, M>)
    requires Inv(s) && c.Admit?
    ensures Inv(Step(s, c).0)
  {
    var s' := Step(s, c).0;
    forall id | id in s'.operations ensures OperationInv(s', id) {
      assert id in s.operations ==> OperationInv(s, id);
    }
    forall id ensures id in s'.completions <==> IsQueued(s', id) {
      assert id in s.completions <==> IsQueued(s, id);
      assert id in s.operations ==> OperationInv(s, id);
    }
    if s' != s {
      assert s.nextOperationId !in s.operations by {
        assert s.nextOperationId in s.operations ==> OperationInv(s, s.nextOperationId);
      }
      assert s'.operations.Keys == s.operations.Keys + {s.nextOperationId};
    }
  }

  lemma ResolveKeepsInv<K, O, M>(s: Store<K, O, M>, c: Call<K, O, M>)
    requires Inv(s) && c.Resolve?
    ensures Inv(Step(s, c).0)
  {
    var s' := Step(s, c).0;
    forall id | id in s'.operations ensures OperationInv(s', id) {
      assert OperationInv(s, id);
    }
    forall id ensures id in s'.completions <==> IsQueued(s', id) {
      assert id in s.completions <==> IsQueued(s, id);
    }
    if IsPending(s, c.id) {
      assert OperationInv(s, c.id);
      assert s'.operations.Keys == s.operations.Keys;
      assert c.id !in s.completions;
    } else {
      assert s'.operations.Keys <= s.operations.Keys;
      CardinalityMonotone(s'.operations.Keys, s.operations.Keys);
    }
  }

  lemma FreeKeepsInv<K, O, M>(s: Store<K, O, M>, c: Call<K, O, M>)
    requires Inv(s) && (c.Free? || c.Take?)
    ensures Inv(Step(s, c).0)
  {
    var s' := Step(s, c).0;
    forall id | id in s'.operations ensures OperationInv(s', id) {
      assert OperationInv(s, id);
    }
    forall id ensures id in s'.completions <==> IsQueued(s', id) {
      assert id in s.completions <==> IsQueued(s, id);
    }
    assert c.id in s.operations ==> OperationInv(s, c.id);
    assert s'.operations.Keys <= s.operations.Keys;
    CardinalityMonotone(s'.operations.Keys, s.operations.Keys);
    RetainKeepsDistinct(s.completions, {c.id});
  }

  lemma DrainKeepsInv<K, O, M>(s: Store<K, O, M>, n: nat)
    requires Inv(s) && n <= |s.completions|
    ensures Inv(DrainPrefix(s, n))
  {
    var s' := DrainPrefix(s, n);
    assert s'.operations.Keys == s.operations.Keys;
    forall id | id in s'.operations ensures OperationInv(s', id) {
      assert OperationInv(s, id);
    }
    assert s.completions == s.completions[..n] + s.completions[n..];
    DistinctParts(s.completions[..n], s.completions[n..]);
    forall id ensures id in s'.completions <==> IsQueued(s', id) {
      assert id in s.completions <==> IsQueued(s, id);
    }
  }

  lemma CardinalityMonotone<T>(a: set<T>, b: set<T>)
    requires a <= b
    ensures |a| <= |b|
  {
    assert b == a + (b - a);
    assert |a + (b - a)| == |a| + |b - a|;
  }

  lemma StepKeepsLimit<K, O, M>(s: Store<K, O, M>, c: Call<K, O, M>)
    requires Inv(s)
    ensures Step(s, c).0.maxOperations == s.maxOperations
  {
  }

  // Every call keeps the invariant.
  lemma StepKeepsInv<K, O, M>(s: Store<K, O, M>, c: Call<K, O, M>)
    requires Inv(s)
    ensures Inv(Step(s, c).0)
  {
    match c
    case Admit(_, _) => AdmitKeepsInv(s, c);
    case Resolve(_, _, _) => ResolveKeepsInv(s, c);
    case Free(_) => FreeKeepsInv(s, c);
    case Take(_, _) => FreeKeepsInv(s, c);
    case Drain(maxCount) => DrainKeepsInv(s, Min(maxCount, |s.completions|));
    case RequestCancellation(id) =>
      var s' := Step(s, c).0;
      forall k | k in s'.operations ensures OperationInv(s', k) {
        assert OperationInv(s, k);
      }
      assert id in s.operations ==> OperationInv(s, id);
      forall k ensures k in s'.completions <==> IsQueued(s', k) {
        assert k in s.completions <==> IsQueued(s, k);
      }
    case InvalidateWaiters =>
      var s' := Step(s, c).0;
      forall k | k in s'.operations ensures OperationInv(s', k) {
        assert OperationInv(s, k);
      }
      forall k ensures k in s'.completions <==> IsQueued(s', k) {
        assert k in s.completions <==> IsQueued(s, k);
      }
    case DiscardAll =>
      forall id | id in s.operations ensures id < s.nextOperationId {
        assert OperationInv(s, id);
      }
  }

  lemma DrainPrefixSplits<K, O, M>(s: Store<K, O, M>, n: nat, m: nat)
    requires Inv(s) && n + m <= |s.completions|
    ensures Inv(DrainPrefix(s, n))
    ensures DrainPrefix(DrainPrefix(s, n), m) == DrainPrefix(s, n + m)
  {
    DrainKeepsInv(s, n);
    var s1 := DrainPrefix(s, n);
    assert s1.completions[m..] == s.completions[n + m..];
    assert s1.completions[..m] == s.completions[n..n + m];
    assert s.completions[..n + m] == s.completions[..n] + s.completions[n..n + m];
    assert forall id :: id in s.completions[..n + m] <==> id in s.completions[..n] || id in s1.completions[..m];
    assert DrainPrefix(s1, m).operations == DrainPrefix(s, n + m).operations;
  }

  lemma DrainReportSplits<K, O, M>(s: Store<K, O, M>, n: nat, m: nat)
    requires Inv(s) && n + m <= |s.completions|
    ensures Inv(DrainPrefix(s, n))
    ensures DrainReport(s, n) + DrainReport(DrainPrefix(s, n), m) == DrainReport(s, n + m)
  {
    DrainKeepsInv(s, n);
    var s1 := DrainPrefix(s, n);
    forall i | 0 <= i < m ensures DrainReport(s1, m)[i] == DrainReport(s, n + m)[n + i] {
      assert s1.completions[i] == s.completions[n + i];
      assert s.completions[n + i] !in s.completions[..n];
    }
  }

  lemma DrainStepsJoin<K, O, M>(s: Store<K, O, M>, n: nat, m: nat)
    requires Inv(s) && n + m <= |s.completions|
    ensures Inv(DrainStep(s, n).0) && |DrainStep(s, n).0.completions| == |s.completions| - n
    ensures
      var first := DrainStep(s, n);
      var second := DrainStep(first.0, m);
      var once := DrainStep(s, n + m);
      second.0 == once.0 && first.1.completions + second.1.completions == once.1.completions
  {
    DrainPrefixSplits(s, n, m);
    DrainReportSplits(s, n, m);
  }

  // Draining in two steps reports and leaves exactly what one larger drain does.
  lemma DrainSplits<K, O, M>(s: Store<K, O, M>, a: nat, b: nat)
    requires Inv(s)
    ensures Inv(Step(s, Drain(a)).0)
    ensures
      var first := Step(s, Drain(a));
      var second := Step(first.0, Drain(b));
      var once := Step(s, Drain(a + b));
      && second.0 == once.0
      && first.1.completions + second.1.completions == once.1.completions
  {
    var n := Min(a, |s.completions|);
    var m := Min(b, |s.completions| - n);
    DrainStepsJoin(s, n, m);
    var first := DrainStep(s, n);
    assert Step(s, Drain(a)) == first by {
      DrainIsPrefix(s, a);
    }
    assert Step(first.0, Drain(b)) == DrainStep(first.0, m) by {
      DrainIsPrefix(first.0, b);
    }
    assert Step(s, Drain(a + b)) == DrainStep(s, n + m) by {
      DrainIsPrefix(s, a + b);
    }
  }

  // A drain takes the longest prefix of the queue within its limit.
  lemma DrainIsPrefix<K, O, M>(s: Store<K, O, M>, maxCount: nat)
    requires Inv(s)
    ensures Step(s, Drain(maxCount)) == DrainStep(s, Min(maxCount, |s.completions|))
  {
  }

  // A call replies "notify" exactly when it takes the queue from empty to
  // non-empty.
  lemma NotifyIsTheEmptyEdge<K, O, M>(s: Store<K, O, M>, c: Call<K, O, M>)
    requires Inv(s)
    ensures Step(s, c).1 == Notify(true) <==> s.completions == [] && Step(s, c).0.completions != []
  {
    match c
    case Free(id) =>
      assert s.completions == [] ==> Retain(s.completions, {id}) == [];
    case _ =>
  }

  // The reported completions with the caller's status function applied.
  function WithStatus<K, O, S>(cs: seq<Completion<K, O>>, status: O -> S): seq<Completion<K, S>> {
    seq(|cs|, i requires 0 <= i < |cs| => Completion(cs[i].operationId, cs[i].kind, status(cs[i].status)))
  }

  lemma DrainOne<K, O, M>(s: Store<K, O, M>)
    requires Inv(s) && s.completions != []
    ensures
      var id := s.completions[0];
      && IsQueued(s, id)
      && DrainPrefix(s, 1) == s.(operations := s.operations[id := MarkDrained(s.operations[id])],
                                 completions := s.completions[1..])
  {
    var id := s.completions[0];
    assert IsQueued(s, id);
    assert s.completions[..1] == [id];
    assert DrainPrefix(s, 1).operations == s.operations[id := MarkDrained(s.operations[id])];
  }

  // The drain loop has come from store `s` to store `now` with `r` collected.
  ghost predicate DrainedTo<K, O, M, S>(
    s: Store<K, O, M>, now: Store<K, O, M>, r: seq<Completion<K, S>>, status: O -> S)
    requires Inv(s)
  {
    && |r| <= |s.completions|
    && now == DrainPrefix(s, |r|)
    && r == WithStatus(DrainReport(s, |r|), status)
  }

  lemma DrainBegins<K, O, M, S>(s: Store<K, O, M>, status: O -> S)
    requires Inv(s)
    ensures DrainedTo(s, s, [], status)
  {
    assert DrainPrefix(s, 0).operations == s.operations;
  }

  lemma DrainedInv<K, O, M, S>(s: Store<K, O, M>, now: Store<K, O, M>, r: seq<Completion<K, S>>, status: O -> S)
    requires Inv(s) && DrainedTo(s, now, r, status)
    ensures Inv(now) && |now.completions| == |s.completions| - |r|
  {
    DrainKeepsInv(s, |r|);
  }

  // One turn of the drain loop.
  lemma DrainAdvances<K, O, M, S>(
    s: Store<K, O, M>, now: Store<K, O, M>, r: seq<Completion<K, S>>, c: Completion<K, S>, status: O -> S)
    requires Inv(s) && DrainedTo(s, now, r, status) && Inv(now) && now.completions != []
    requires [c] == WithStatus(DrainReport(now, 1), status)
    ensures DrainedTo(s, DrainPrefix(now, 1), r + [c], status)
  {
    DrainPrefixSplits(s, |r|, 1);
    DrainReportSplits(s, |r|, 1);
  }

  // Taking an entry out and putting one back.
  lemma Reinserted<V>(m: map<nat, V>, id: nat, v: V)
    ensures (m - {id})[id := v] == m[id := v]
    ensures id in m && m[id] == v ==> (m - {id})[id := v] == m
  {
  }

  // The mutable broker. Each method is tied to Step; the branches the source
  // guards with `expect` or `continue` are asserted unreachable.
  class Broker<K, O, M> {
    const maxOperations: nat
    var nextOperationId: nat
    var operations: map<nat, Operation<K, O, M>>
    var completions: seq<nat>
    var wakeGeneration: nat
    var cancelled: set<nat>

    ghost function Contents(): Store<K, O, M>
      reads this
    {
      Store(maxOperations, nextOperationId, operations, completions, wakeGeneration, cancelled)
    }

    ghost predicate Valid()
      reads this
    {
      Inv(Contents())
    }

    constructor (maxOperations: nat)
      ensures Valid() && Contents() == Init(maxOperations)
    {
      this.maxOperations := maxOperations;
      nextOperationId := 1;
      operations := map[];
      completions := [];
      wakeGeneration := 0;
      cancelled := {};
    }

    method Admit(kind: K, metadata: M) returns (r: Result<nat, AdmissionError>)
      requires Valid()
      modifies this
      ensures Valid()
      ensures
        var step := Step(old(Contents()), Call.Admit(kind, metadata));
        && Contents() == step.0
        && step.1 == (match r case Ok(id) => Admitted(id) case Err(e) => AdmissionRefused(e))
    {
      AdmitKeepsInv(Contents(), Call.Admit(kind, metadata));
      if |operations| >= maxOperations {
        return Err(AtCapacity);
      }
      var id := nextOperationId;
      if nextOperationId == U64_MAX {
        return Err(IdExhausted);
      }
      nextOperationId := nextOperationId + 1;
      operations := operations[id := Operation(kind, Some(metadata), Pending)];
      r := Ok(id);
    }

    method ResolvePendingWith(id: nat, cancel: bool, complete: (K, M) -> (O, M)) returns (notify: bool)
      requires Valid()
      modifies this
      ensures Valid()
      ensures
        var step := Step(old(Contents()), Resolve(id, cancel, complete));
        Contents() == step.0 && Notify(notify) == step.1
    {
      ghost var before := Contents();
      ResolveKeepsInv(before, Resolve(id, cancel, complete));
      if id !in operations {
        return false;
      }
      assert OperationInv(before, id);
      var operation := operations[id];
      operations := operations - {id};
      Reinserted(before.operations, id, operation);
      match operation.state {
        case Pending =>
          if cancel {
            cancelled := cancelled + {id};
          }
          var (outcome, metadata) := complete(operation.kind, operation.metadata.value);
          notify := completions == [];
          Reinserted(before.operations, id, Operation(operation.kind, Some(metadata), Queued(outcome)));
          operations := operations[id := Operation(operation.kind, Some(metadata), Queued(outcome))];
          completions := completions + [id];
        case Discarding =>
          if cancel {
            operations := operations[id := operation];
          }
          notify := false;
        case _ =>
          operations := operations[id := operation];
          notify := false;
      }
    }

    method Free(id: nat) returns (r: Option<ReleasedOperation<M, O>>)
      requires Valid()
      modifies this
      ensures Valid()
      ensures
        var step := Step(old(Contents()), Call.Free(id));
        && Contents() == step.0
        && step.1 == (match r case Some(released) => Released(released) case None => NothingToRelease)
    {
      ghost var before := Contents();
      FreeKeepsInv(before, Call.Free(id));
      if id !in operations {
        return None;
      }
      assert OperationInv(before, id);
      var operation := operations[id];
      operations := operations - {id};
      match operation.state {
        case Pending =>
          cancelled := cancelled + {id};
          operations := operations[id := Operation(operation.kind, None, Discarding)];
          assert operations == before.operations[id := Operation(operation.kind, None, Discarding)];
          r := Some(ReleasedOperation(operation.metadata.value, None));
        case Queued(outcome) =>
          completions := Retain(completions, {id});
          r := Some(ReleasedOperation(operation.metadata.value, Some(outcome)));
        case Drained(outcome) =>
          RetainUntouched(completions, {id}) by {
            assert !IsQueued(before, id);
          }
          r := Some(ReleasedOperation(operation.metadata.value, Some(outcome)));
        case Discarding =>
          operations := operations[id := operation];
          assert operations == before.operations;
          r := None;
      }
    }

    // One turn of the drain loop.
    method DrainFront<S>(status: O -> S) returns (c: Completion<K, S>)
      requires Valid() && completions != []
      modifies `operations, `completions
      ensures Contents() == DrainPrefix(old(Contents()), 1)
      ensures [c] == WithStatus(old(DrainReport(Contents(), 1)), status)
    {
      DrainOne(Contents());
      var id := completions[0];
      completions := completions[1..];
      if id !in operations {
        assert false;
      }
      var operation := operations[id];
      match operation.state {
        case Queued(outcome) =>
          c := Completion(id, operation.kind, status(outcome));
          operations := operations[id := operation.(state := Drained(outcome))];
        case _ =>
          assert false;
      }
    }

    method Drain<S>(maxCount: nat, status: O -> S) returns (r: seq<Completion<K, S>>)
      requires Valid()
      modifies this
      ensures Valid()
      ensures
        var step := DrainStep(old(Contents()), Min(maxCount, old(|completions|)));
        && Contents() == step.0
        && r == WithStatus(step.1.completions, status)
    {
      ghost var before := Contents();
      DrainBegins(before, status);
      r := [];
      while |r| < maxCount
        invariant |r| <= maxCount && DrainedTo(before, Contents(), r, status)
        decreases maxCount - |r|
      {
        DrainedInv(before, Contents(), r, status);
        if completions == [] {
          break;
        }
        ghost var now := Contents();
        var c := DrainFront(status);
        DrainAdvances(before, now, r, c, status);
        r := r + [c];
      }
      DrainedInv(before, Contents(), r, status);
    }

    method TakeWith<T>(id: nat, take: O -> Option<T>) returns (r: Result<Option<TakenOperation<M, T>>, AccessError>)
      requires Valid()
      modifies this
      ensures Valid()
      ensures
        var step := Step(old(Contents()), Take(id, o => take(o).Some?));
        && Contents() == step.0
        && match r
           case Err(e) => step.1 == AccessRefused(e)
           case Ok(None) => step.1 == NotTaken
           case Ok(Some(t)) =>
             step.1.Taken? && t.metadata == step.1.taken.metadata && Some(t.value) == take(step.1.taken.value)
    {
      ghost var before := Contents();
      FreeKeepsInv(before, Take(id, o => take(o).Some?));
      if id !in operations {
        return Err(Missing);
      }
      assert OperationInv(before, id);
      var operation := operations[id];
      operations := operations - {id};
      if !operation.state.Drained? {
        operations := operations[id := operation];
        assert operations == before.operations;
        return Err(NotDrained);
      }
      var value := take(operation.state.outcome);
      if value.None? {
        operations := operations[id := operation];
        assert operations == before.operations;
        return Ok(None);
      }
      r := Ok(Some(TakenOperation(operation.metadata.value, value.value)));
    }

    method WithDrained<T>(id: nat, inspect: (K, M, O) -> T) returns (r: Result<T, AccessError>)
      requires Valid()
      ensures r == Err(Missing) <==> id !in operations
      ensures r.Ok? <==> id in operations && operations[id].state.Drained?
      ensures r.Ok? ==>
        var op := operations[id];
        op.metadata.Some? && r.value == inspect(op.kind, op.metadata.value, op.state.outcome)
    {
      if id !in operations {
        return Err(Missing);
      }
      assert OperationInv(Contents(), id);
      var operation := operations[id];
      match operation.state {
        case Drained(outcome) =>
          r := Ok(inspect(operation.kind, operation.metadata.value, outcome));
        case _ =>
          r := Err(NotDrained);
      }
    }

    method RequestCancellation(id: nat) returns (requested: bool)
      requires Valid()
      modifies `cancelled
      ensures Valid()
      ensures
        var step := Step(old(Contents()), Call.RequestCancellation(id));
        Contents() == step.0 && step.1 == Requested(requested)
    {
      StepKeepsInv(Contents(), Call.RequestCancellation(id));
      if id !in operations || !operations[id].state.Pending? {
        return false;
      }
      cancelled := cancelled + {id};
      requested := true;
    }

    method InvalidateWaiters()
      requires Valid()
      modifies `wakeGeneration
      ensures Valid()
      ensures Contents() == Step(old(Contents()), Call.InvalidateWaiters).0
    {
      StepKeepsInv(Contents(), Call.InvalidateWaiters);
      wakeGeneration := NextGeneration(wakeGeneration);
    }

    method DiscardAll()
      requires Valid()
      modifies this
      ensures Valid()
      ensures Contents() == Step(old(Contents()), Call.DiscardAll).0
    {
      StepKeepsInv(Contents(), Call.DiscardAll);
      cancelled := cancelled + operations.Keys;
      operations := map[];
      completions := [];
      InvalidateWaiters();
    }
  }
}
