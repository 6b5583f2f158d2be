// What holds over every run of the broker: any finite sequence of calls, in
// any order, starting from an empty store.
module OperationBrokerRuns {
  import opened Wrappers
  import opened Arithmetic
  import opened Sequences
  import opened OperationBroker

  // What a run has shown so far: ids handed out by admission, ids in the order
  // they completed, ids in the order drains reported them, ids whose metadata
  // was handed out, and completed ids removed before any drain reported them.
  datatype History = History(
    admitted: seq<nat>,
    completed: seq<nat>,
    drained: seq<nat>,
    handedOut: seq<nat>,
    withdrawn: set<nat>
  )

  const EmptyHistory := History([], [], [], [], {})

  function ReportedIds<K, O>(cs: seq<Completion<K, O>>): seq<nat> {
    seq(|cs|, i requires 0 <= i < |cs| => cs[i].operationId)
  }

  // The history after one more call.
  ghost function Observe<K, O, M>(h: History, s: Store<K, O, M>, c: Call<K, O, M>): History
    requires Inv(s)
  {
    var reply := Step(s, c).1;
    h.(admitted := if reply.Admitted? then h.admitted + [reply.id] else h.admitted,
       completed := if c.Resolve? && IsPending(s, c.id) then h.completed + [c.id] else h.completed,
       drained := if reply.Completions? then h.drained + ReportedIds(reply.completions) else h.drained,
       handedOut := if reply.Released? || reply.Taken? then h.handedOut + [c.id] else h.handedOut,
       withdrawn :=
         if c.Free? && IsQueued(s, c.id) then h.withdrawn + {c.id}
         else if c.DiscardAll? then h.withdrawn + Elements(s.completions)
         else h.withdrawn)
  }

  // The store and history after a run.
  ghost function Run<K, O, M>(maxOperations: nat, calls: seq<Call<K, O, M>>): (r: (Store<K, O, M>, History))
    ensures Inv(r.0) && r.0.maxOperations == maxOperations
    decreases |calls|
  {
    if calls == [] then
      InitInv<K, O, M>(maxOperations);
      (Init(maxOperations), EmptyHistory)
    else
      var (s, h) := Run(maxOperations, calls[..|calls| - 1]);
      var c := calls[|calls| - 1];
      StepKeepsInv(s, c);
      StepKeepsLimit(s, c);
      (Step(s, c).0, Observe(h, s, c))
  }

  ghost predicate IdsInv<K, O, M>(s: Store<K, O, M>, h: History) {
    && StrictlyIncreasing(h.admitted)
    && (forall id :: id in h.admitted ==> id < s.nextOperationId)
    && (forall id :: id in s.operations ==> id in h.admitted)
  }

  ghost predicate HandoutInv<K, O, M>(s: Store<K, O, M>, h: History) {
    && NoDuplicates(h.handedOut)
    && (forall id :: id in h.handedOut ==> id < s.nextOperationId)
    && (forall id :: id in h.handedOut && id in s.operations ==> s.operations[id].state.Discarding?)
  }

  predicate HasOutcome<K, O, M>(s: Store<K, O, M>, id: nat)
    requires id in s.operations
  {
    s.operations[id].state.Queued? || s.operations[id].state.Drained?
  }

  ghost predicate QueueInv<K, O, M>(s: Store<K, O, M>, h: History) {
    && NoDuplicates(h.completed)
    && (forall id :: id in h.completed ==> id < s.nextOperationId)
    && (forall id :: id in s.operations ==> (id in h.completed <==> HasOutcome(s, id)))
    && (forall id :: id in h.withdrawn ==> id in h.completed)
    && h.drained + s.completions == Retain(h.completed, h.withdrawn)
  }

  lemma IncreasingAppend(ids: seq<nat>, id: nat)
    requires StrictlyIncreasing(ids) && forall x :: x in ids ==> x < id
    ensures StrictlyIncreasing(ids + [id])
  {
    var grown := ids + [id];
    forall i, j | 0 <= i < j < |grown| ensures grown[i] < grown[j] {
      assert grown[i] in ids;
    }
  }

  // Only admission adds an operation.
  lemma OnlyAdmitAdds<K, O, M>(s: Store<K, O, M>, c: Call<K, O, M>)
    requires Inv(s) && !c.Admit?
    ensures Step(s, c).0.operations.Keys <= s.operations.Keys
    ensures Step(s, c).0.nextOperationId == s.nextOperationId && !Step(s, c).1.Admitted?
  {
  }

  lemma IdsAdmit<K, O, M>(s: Store<K, O, M>, h: History, c: Call<K, O, M>)
    requires Inv(s) && IdsInv(s, h) && c.Admit?
    ensures IdsInv(Step(s, c).0, Observe(h, s, c))
  {
    IncreasingAppend(h.admitted, s.nextOperationId);
  }

  lemma IdsKept<K, O, M>(s: Store<K, O, M>, s': Store<K, O, M>, h: History, h': History)
    requires IdsInv(s, h) && h'.admitted == h.admitted
    requires s'.operations.Keys <= s.operations.Keys && s'.nextOperationId == s.nextOperationId
    ensures IdsInv(s', h')
  {
    forall id | id in s'.operations ensures id in h.admitted {
      assert id in s.operations.Keys;
    }
  }

  lemma IdsStep<K, O, M>(s: Store<K, O, M>, h: History, c: Call<K, O, M>)
    requires Inv(s) && IdsInv(s, h)
    ensures IdsInv(Step(s, c).0, Observe(h, s, c))
  {
    if c.Admit? {
      IdsAdmit(s, h, c);
    } else {
      OnlyAdmitAdds(s, c);
      IdsKept(s, Step(s, c).0, h, Observe(h, s, c));
    }
  }

  lemma HandoutStep<K, O, M>(s: Store<K, O, M>, h: History, c: Call<K, O, M>)
    requires Inv(s) && HandoutInv(s, h)
    ensures HandoutInv(Step(s, c).0, Observe(h, s, c))
  {
    var (s', reply) := Step(s, c);
    if reply.Released? || reply.Taken? {
      assert OperationInv(s, c.id);
      assert c.id !in h.handedOut;
      DistinctConcat(h.handedOut, [c.id]);
    }
  }

  // Extending the completion order by an id that was never completed before.
  lemma CompletionJoins(h: History, queue: seq<nat>, id: nat)
    requires NoDuplicates(h.completed) && id !in h.completed && id !in h.withdrawn
    requires h.drained + queue == Retain(h.completed, h.withdrawn)
    ensures NoDuplicates(h.completed + [id])
    ensures h.drained + (queue + [id]) == Retain(h.completed + [id], h.withdrawn)
  {
    DistinctConcat(h.completed, [id]);
    RetainConcat(h.completed, [id], h.withdrawn);
    assert h.drained + (queue + [id]) == (h.drained + queue) + [id];
  }

  lemma QueueStepResolve<K, O, M>(s: Store<K, O, M>, h: History, c: Call<K, O, M>)
    requires Inv(s) && QueueInv(s, h) && c.Resolve? && IsPending(s, c.id)
    ensures QueueInv(Step(s, c).0, Observe(h, s, c))
  {
    assert c.id in s.operations && !HasOutcome(s, c.id);
    assert OperationInv(s, c.id);
    CompletionJoins(h, s.completions, c.id);
  }

  // Removing queued ids removes them from the reported order and nothing else.
  lemma QueueWithdraw(h: History, queue: seq<nat>, gone: set<nat>)
    requires NoDuplicates(h.completed)
    requires h.drained + queue == Retain(h.completed, h.withdrawn)
    requires gone <= Elements(queue)
    ensures h.drained + Retain(queue, gone) == Retain(h.completed, h.withdrawn + gone)
  {
    RetainKeepsDistinct(h.completed, h.withdrawn);
    DistinctParts(h.drained, queue);
    RetainTwice(h.completed, h.withdrawn, gone);
    RetainConcat(h.drained, queue, gone);
    RetainUntouched(h.drained, gone);
  }

  lemma QueueStepFree<K, O, M>(s: Store<K, O, M>, h: History, c: Call<K, O, M>)
    requires Inv(s) && QueueInv(s, h) && c.Free?
    ensures QueueInv(Step(s, c).0, Observe(h, s, c))
  {
    var s' := Step(s, c).0;
    if IsQueued(s, c.id) {
      QueueWithdraw(h, s.completions, {c.id});
      assert c.id in h.completed;
    } else if c.id in s.operations {
      RetainUntouched(s.completions, {c.id});
    }
    forall id | id in s'.operations ensures id in h.completed <==> HasOutcome(s', id) {
      assert id in h.completed <==> HasOutcome(s, id);
    }
  }

  lemma QueueStepDrain<K, O, M>(s: Store<K, O, M>, h: History, c: Call<K, O, M>)
    requires Inv(s) && QueueInv(s, h) && c.Drain?
    ensures QueueInv(Step(s, c).0, Observe(h, s, c))
  {
    var n := Min(c.maxCount, |s.completions|);
    var s' := DrainPrefix(s, n);
    assert ReportedIds(DrainReport(s, n)) == s.completions[..n];
    assert s.completions == s.completions[..n] + s.completions[n..];
    assert (h.drained + s.completions[..n]) + s.completions[n..] == h.drained + s.completions;
    forall id | id in s'.operations ensures id in h.completed <==> HasOutcome(s', id) {
      assert id in h.completed <==> HasOutcome(s, id);
    }
  }

  lemma WithdrawAll(h: History, queue: seq<nat>)
    requires NoDuplicates(h.completed) && h.drained + queue == Retain(h.completed, h.withdrawn)
    ensures h.drained + [] == Retain(h.completed, h.withdrawn + Elements(queue))
  {
    QueueWithdraw(h, queue, Elements(queue));
    RetainAll(queue, Elements(queue));
  }

  lemma QueuedWereCompleted<K, O, M>(s: Store<K, O, M>, h: History)
    requires Inv(s) && QueueInv(s, h)
    ensures forall id :: id in s.completions ==> id in h.completed
  {
    forall id | id in s.completions ensures id in h.completed {
      assert IsQueued(s, id);
    }
  }

  lemma QueueStepDiscard<K, O, M>(s: Store<K, O, M>, h: History, c: Call<K, O, M>)
    requires Inv(s) && QueueInv(s, h) && c.DiscardAll?
    ensures QueueInv(Step(s, c).0, Observe(h, s, c))
  {
    WithdrawAll(h, s.completions);
    QueuedWereCompleted(s, h);
  }

  lemma QueueStepAdmit<K, O, M>(s: Store<K, O, M>, h: History, c: Call<K, O, M>)
    requires Inv(s) && QueueInv(s, h) && c.Admit?
    ensures QueueInv(Step(s, c).0, Observe(h, s, c))
  {
    var s' := Step(s, c).0;
    assert s.nextOperationId !in h.completed;
    forall id | id in s'.operations ensures id in h.completed <==> HasOutcome(s', id) {
      assert id in s.operations ==> (id in h.completed <==> HasOutcome(s, id));
    }
  }

  // The queue and the outcomes stay as they are.
  lemma QueueKept<K, O, M>(s: Store<K, O, M>, s': Store<K, O, M>, h: History, h': History)
    requires QueueInv(s, h)
    requires s'.completions == s.completions && s'.nextOperationId == s.nextOperationId
    requires forall id :: id in s'.operations ==> id in s.operations && s'.operations[id] == s.operations[id]
    requires h' == h.(handedOut := h'.handedOut)
    ensures QueueInv(s', h')
  {
    forall id | id in s'.operations ensures id in h.completed <==> HasOutcome(s', id) {
      assert id in h.completed <==> HasOutcome(s, id);
    }
  }

  lemma QueueStep<K, O, M>(s: Store<K, O, M>, h: History, c: Call<K, O, M>)
    requires Inv(s) && QueueInv(s, h)
    ensures QueueInv(Step(s, c).0, Observe(h, s, c))
  {
    if c.Resolve? && IsPending(s, c.id) {
      QueueStepResolve(s, h, c);
    } else if c.Free? {
      QueueStepFree(s, h, c);
    } else if c.Drain? {
      QueueStepDrain(s, h, c);
    } else if c.DiscardAll? {
      QueueStepDiscard(s, h, c);
    } else if c.Admit? {
      QueueStepAdmit(s, h, c);
    } else {
      QueueKept(s, Step(s, c).0, h, Observe(h, s, c));
    }
  }

  lemma {:induction false} RunInv<K, O, M>(maxOperations: nat, calls: seq<Call<K, O, M>>)
    ensures
      var (s, h) := Run(maxOperations, calls);
      IdsInv(s, h) && HandoutInv(s, h) && QueueInv(s, h)
    decreases |calls|
  {
    if calls != [] {
      var prefix := calls[..|calls| - 1];
      RunInv(maxOperations, prefix);
      var (s, h) := Run(maxOperations, prefix);
      var c := calls[|calls| - 1];
      IdsStep(s, h, c);
      HandoutStep(s, h, c);
      QueueStep(s, h, c);
    }
  }

  // Ids are issued in strictly increasing order over the whole run, discard
  // calls included, so none is ever reused; every stored operation was issued.
  lemma IdsNeverReused<K, O, M>(maxOperations: nat, calls: seq<Call<K, O, M>>)
    ensures
      var (s, h) := Run(maxOperations, calls);
      && StrictlyIncreasing(h.admitted)
      && NoDuplicates(h.admitted)
      && s.operations.Keys <= Elements(h.admitted)
  {
    RunInv(maxOperations, calls);
  }

  // Across all drain outputs no id is reported twice, and what was reported
  // followed by what still waits is the completion order with exactly the
  // withdrawn ids left out.
  lemma DrainsReportCompletionOrderOnce<K, O, M>(maxOperations: nat, calls: seq<Call<K, O, M>>)
    ensures
      var (s, h) := Run(maxOperations, calls);
      && NoDuplicates(h.drained)
      && NoDuplicates(h.completed)
      && h.drained + s.completions == Retain(h.completed, h.withdrawn)
  {
    RunInv(maxOperations, calls);
    var (s, h) := Run(maxOperations, calls);
    RetainKeepsDistinct(h.completed, h.withdrawn);
    DistinctParts(h.drained, s.completions);
  }

  // No operation's metadata is handed out twice, by free and take together;
  // an operation whose metadata has left the store is gone or a tombstone.
  lemma MetadataHandedOutOnce<K, O, M>(maxOperations: nat, calls: seq<Call<K, O, M>>)
    ensures
      var (s, h) := Run(maxOperations, calls);
      && NoDuplicates(h.handedOut)
      && forall id :: id in h.handedOut && id in s.operations ==> s.operations[id].metadata == None
  {
    RunInv(maxOperations, calls);
    var (s, h) := Run(maxOperations, calls);
    forall id | id in h.handedOut && id in s.operations ensures s.operations[id].metadata == None {
      assert OperationInv(s, id);
    }
  }

  // The reply of call `i` and the store before it.
  ghost function ReplyAt<K, O, M>(maxOperations: nat, calls: seq<Call<K, O, M>>, i: nat): Reply<K, O, M>
    requires i < |calls|
  {
    Step(Run(maxOperations, calls[..i]).0, calls[i]).1
  }

  // Whether completions wait before the first call and after each.
  ghost function Waits<K, O, M>(maxOperations: nat, calls: seq<Call<K, O, M>>): seq<bool> {
    seq(|calls| + 1, n requires 0 <= n <= |calls| => Run(maxOperations, calls[..n]).0.completions != [])
  }

  // Call `i` found the queue empty, replied "notify", and the queue has not
  // been empty since.
  ghost predicate SignalledAt<K, O, M>(maxOperations: nat, calls: seq<Call<K, O, M>>, i: nat)
    requires i < |calls|
  {
    var waits := Waits(maxOperations, calls);
    && !waits[i]
    && ReplyAt(maxOperations, calls, i) == Notify(true)
    && forall j :: i < j <= |calls| ==> waits[j]
  }

  // Where a sequence that starts false and is true at `n` became true for good.
  lemma {:induction false} LastRise(waits: seq<bool>, n: nat) returns (i: nat)
    requires n < |waits| && !waits[0] && waits[n]
    ensures i < n && !waits[i] && forall j :: i < j <= n ==> waits[j]
  {
    i := n - 1;
    if waits[n - 1] {
      i := LastRise(waits, n - 1);
    }
  }

  lemma RunAfterOneMore<K, O, M>(maxOperations: nat, calls: seq<Call<K, O, M>>, n: nat)
    requires n < |calls|
    ensures Run(maxOperations, calls[..n + 1]).0 == Step(Run(maxOperations, calls[..n]).0, calls[n]).0
  {
    assert calls[..n + 1][..n] == calls[..n];
  }

  // The call that takes the queue from empty to non-empty signals.
  lemma SignalNow<K, O, M>(maxOperations: nat, calls: seq<Call<K, O, M>>, n: nat)
    requires n < |calls| && !Waits(maxOperations, calls)[n] && Waits(maxOperations, calls)[n + 1]
    ensures ReplyAt(maxOperations, calls, n) == Notify(true)
  {
    RunAfterOneMore(maxOperations, calls, n);
    NotifyIsTheEmptyEdge(Run(maxOperations, calls[..n]).0, calls[n]);
  }

  lemma WaitsEnds<K, O, M>(maxOperations: nat, calls: seq<Call<K, O, M>>)
    ensures !Waits(maxOperations, calls)[0]
    ensures Waits(maxOperations, calls)[|calls|] == (Run(maxOperations, calls).0.completions != [])
  {
    assert calls[..0] == [] && calls[..|calls|] == calls;
  }

  // Whenever completions wait, the call that ended the last empty period
  // signalled.
  lemma WaitingCompletionsWereSignalled<K, O, M>(maxOperations: nat, calls: seq<Call<K, O, M>>)
    requires Run(maxOperations, calls).0.completions != []
    ensures exists i :: 0 <= i < |calls| && SignalledAt(maxOperations, calls, i)
  {
    WaitsEnds(maxOperations, calls);
    var i := LastRise(Waits(maxOperations, calls), |calls|);
    SignalNow(maxOperations, calls, i);
    assert SignalledAt(maxOperations, calls, i);
  }

  // Freeing a pending operation leaves a tombstone that occupies a slot until
  // the late completion arrives, which then removes it without queueing or
  // signalling anything; a cancel in between changes nothing.
  lemma LateCompletionIsAbsorbed<K, O, M>(
    s: Store<K, O, M>, id: nat, cancelWith: (K, M) -> (O, M), completeWith: (K, M) -> (O, M))
    requires Inv(s) && IsPending(s, id)
    ensures
      var freed := Step(s, Free(id)).0;
      && Inv(freed)
      && |freed.operations| == |s.operations|
      && Step(freed, Resolve(id, true, cancelWith)) == (freed, Notify(false))
      && var (late, reply) := Step(freed, Resolve(id, false, completeWith));
         && reply == Notify(false)
         && late.operations == s.operations - {id}
         && late.completions == s.completions
         && id in late.cancelled
  {
    StepKeepsInv(s, Free(id));
    var freed := Step(s, Free(id)).0;
    assert freed.operations.Keys == s.operations.Keys;
    assert freed.operations - {id} == s.operations - {id};
  }
}
