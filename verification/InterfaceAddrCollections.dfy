// How often the interface-address cache collects
// (rust/easytier-core/src/connectivity/composite.rs): in every interleaving a
// context is collected at most once per time-to-live, and every other call
// returns what the latest collection observed.
module InterfaceAddrCollections {
  import opened InterfaceAddrCache

  // The reply of the call whose collection `r` returns.
  function MadeBy(r: Return): Return {
    Return(r.context, r.response, r.collectedAt, r.collectedAt, true)
  }

  predicate Recent(s: State, r: Return) {
    r.collectedHere && s.now - r.at < s.ttl
  }

  // The reply of the call that cached the value.
  function CollectionOf(c: Context, cached: Cached): Return {
    Return(c, cached.response, cached.collectedAt, cached.collectedAt, true)
  }

  // The table's value for a context, if it has one.
  predicate Caches(s: State, e: Entry, c: Context) {
    e in s.entries && e.context == c && e.cell in s.cells && s.cells[e.cell].cached.Some?
  }

  // The table has a value for `r`'s context that is no older than `r`.
  ghost predicate Covered(s: State, r: Return) {
    exists e :: Caches(s, e, r.context) && s.cells[e.cell].cached.value.collectedAt >= r.at
  }

  ghost predicate RecentCovered(s: State) {
    forall r :: r in s.replies && Recent(s, r) ==> Covered(s, r)
  }

  // Whoever collects for a context does so a time-to-live after any other.
  ghost predicate CollectsLate(s: State, t: Tid) {
    PcOf(s, t).Collecting? ==>
      forall r :: r in s.replies && r.context == PcOf(s, t).context ==> !Recent(s, r)
  }

  ghost predicate CachedIsCollected(s: State) {
    forall e: Entry :: Caches(s, e, e.context) ==> CollectionOf(e.context, s.cells[e.cell].cached.value) in s.replies
  }

  predicate SameCollection(r: Return, q: Return) {
    r.collectedHere && q.collectedHere && r.context == q.context
  }

  ghost predicate Spaced(s: State) {
    forall i, j :: 0 <= i < j < |s.replies| && SameCollection(s.replies[i], s.replies[j]) ==>
      s.replies[j].at - s.replies[i].at >= s.ttl
  }

  ghost predicate HitsAreCollected(replies: seq<Return>) {
    forall r :: r in replies ==> MadeBy(r) in replies && (r.collectedHere ==> r.collectedAt == r.at)
  }

  ghost predicate CollectionInv(s: State) {
    && (forall r :: r in s.replies ==> r.at <= s.now)
    && RecentCovered(s)
    && (forall t: Tid :: CollectsLate(s, t))
    && CachedIsCollected(s)
    && Spaced(s)
    && HitsAreCollected(s.replies)
  }

  // ----- steps -----

  // A value the table keeps fresh is kept by a lookup.
  lemma LookupCovers(s: State, t: Tid, c: Context, r: Return)
    requires Inv(s) && Recent(s, r) && Covered(s, r)
    ensures Covered(LookupCell(s, t, c), r)
  {
    var s' := LookupCell(s, t, c);
    LookupTable(s, t, c);
    var e :| Caches(s, e, r.context) && s.cells[e.cell].cached.value.collectedAt >= r.at;
    assert Fresh(s, s.cells[e.cell].cached);
    assert Keeps(s, e);
    assert e in Retained(s, s.entries);
    assert Caches(s', e, r.context);
  }

  // A new entry has no value yet.
  lemma LookupCaches(s: State, t: Tid, c: Context)
    requires Inv(s) && CachedIsCollected(s)
    ensures CachedIsCollected(LookupCell(s, t, c))
  {
    var s' := LookupCell(s, t, c);
    LookupTable(s, t, c);
    forall e: Entry | Caches(s', e, e.context)
      ensures CollectionOf(e.context, s'.cells[e.cell].cached.value) in s'.replies
    {
      assert Caches(s, e, e.context);
    }
  }

  lemma LookupFrame(s: State, t: Tid, c: Context, u: Tid)
    ensures
      var s' := LookupCell(s, t, c);
      && s'.replies == s.replies && s'.now == s.now && s'.ttl == s.ttl
      && (PcOf(s', u).Collecting? ==> PcOf(s, u) == PcOf(s', u))
  {
  }

  lemma LookupCoversRecent(s: State, t: Tid, c: Context)
    requires Inv(s) && RecentCovered(s)
    ensures RecentCovered(LookupCell(s, t, c))
  {
    var s' := LookupCell(s, t, c);
    LookupFrame(s, t, c, t);
    forall r | r in s'.replies && Recent(s', r) ensures Covered(s', r) {
      LookupCovers(s, t, c, r);
    }
  }

  lemma LookupKeeps(s: State, t: Tid)
    requires Inv(s) && CollectionInv(s) && PcOf(s, t).WantTable?
    ensures CollectionInv(Step(s, t, Lookup))
  {
    var c := PcOf(s, t).context;
    var s' := LookupCell(s, t, c);
    LookupCaches(s, t, c);
    LookupCoversRecent(s, t, c);
    forall u: Tid ensures CollectsLate(s', u) {
      LookupFrame(s, t, c, u);
      assert CollectsLate(s, u);
    }
    LookupFrame(s, t, c, t);
  }

  // The same cached values.
  predicate SameValues(s: State, s': State) {
    && s'.entries == s.entries && s'.cells.Keys == s.cells.Keys
    && forall cell :: cell in s.cells ==> s'.cells[cell].cached == s.cells[cell].cached
  }

  lemma SameValuesCover(s: State, s': State, r: Return)
    requires SameValues(s, s') && Covered(s, r)
    ensures Covered(s', r)
  {
    var e :| Caches(s, e, r.context) && s.cells[e.cell].cached.value.collectedAt >= r.at;
    assert Caches(s', e, r.context);
  }

  lemma SameEntry(s: State, d: Entry, e: Entry)
    requires EntriesDistinct(s.entries) && d in s.entries && e in s.entries && d.context == e.context
    ensures d == e
  {
    var i :| 0 <= i < |s.entries| && s.entries[i] == d;
    var j :| 0 <= j < |s.entries| && s.entries[j] == e;
  }

  // A call that finds nothing fresh collects, and no recent collection exists.
  lemma MissKeeps(s: State, t: Tid)
    requires Inv(s) && CollectionInv(s) && PcOf(s, t).HasCell? && PcOf(s, t).cell in s.cells
    requires !Fresh(s, s.cells[PcOf(s, t).cell].cached)
    ensures CollectionInv(Step(s, t, CheckCached))
  {
    var s', pc := Step(s, t, CheckCached), PcOf(s, t);
    assert ThreadInv(s, t);
    forall r | r in s.replies && r.context == pc.context ensures !Recent(s, r) {
      if Recent(s, r) {
        var e :| Caches(s, e, r.context) && s.cells[e.cell].cached.value.collectedAt >= r.at;
        SameEntry(s, e, Entry(pc.context, pc.cell));
      }
    }
    forall r | r in s'.replies && Recent(s', r) ensures Covered(s', r) {
      SameValuesCover(s, s', r);
    }
    forall u: Tid ensures CollectsLate(s', u) {
      assert CollectsLate(s, u);
    }
  }

  lemma HitReplies(s: State, t: Tid)
    requires Inv(s) && CollectionInv(s) && PcOf(s, t).HasCell? && PcOf(s, t).cell in s.cells
    requires Fresh(s, s.cells[PcOf(s, t).cell].cached)
    ensures
      var s' := Step(s, t, CheckCached);
      && Spaced(s') && HitsAreCollected(s'.replies)
      && (forall r :: r in s'.replies ==> r.at <= s'.now && (r.collectedHere ==> r in s.replies))
  {
    var pc := PcOf(s, t);
    assert ThreadInv(s, t);
    assert Caches(s, Entry(pc.context, pc.cell), pc.context);
    assert CollectionOf(pc.context, s.cells[pc.cell].cached.value) in s.replies;
  }

  lemma HitKeeps(s: State, t: Tid)
    requires Inv(s) && CollectionInv(s) && PcOf(s, t).HasCell? && PcOf(s, t).cell in s.cells
    requires Fresh(s, s.cells[PcOf(s, t).cell].cached)
    ensures CollectionInv(Step(s, t, CheckCached))
  {
    var s' := Step(s, t, CheckCached);
    HitReplies(s, t);
    TableKeeps(s, s', t);
  }

  // The table's values are the same and there is no new collection.
  lemma TableKeeps(s: State, s': State, t: Tid)
    requires CollectionInv(s) && SameValues(s, s') && s'.now >= s.now && s'.ttl == s.ttl
    requires s.replies <= s'.replies && forall r :: r in s'.replies && r.collectedHere ==> r in s.replies
    requires PcOf(s', t) == PcOf(s, t) || !PcOf(s', t).Collecting?
    requires forall u: Tid :: u != t ==> PcOf(s', u) == PcOf(s, u)
    ensures RecentCovered(s') && (forall u: Tid :: CollectsLate(s', u)) && CachedIsCollected(s')
  {
    forall r | r in s'.replies && Recent(s', r) ensures Covered(s', r) {
      assert Recent(s, r);
      SameValuesCover(s, s', r);
    }
    forall u: Tid ensures CollectsLate(s', u) {
      assert CollectsLate(s, u);
    }
    forall e: Entry | Caches(s', e, e.context)
      ensures CollectionOf(e.context, s'.cells[e.cell].cached.value) in s'.replies
    {
      assert Caches(s, e, e.context);
    }
  }

  // Only one call collects for a context.
  lemma OneCollects(s: State, t: Tid, u: Tid)
    requires Inv(s) && PcOf(s, t).Collecting? && PcOf(s, u).Collecting?
    requires PcOf(s, t).context == PcOf(s, u).context
    ensures t == u
  {
    var p, q := PcOf(s, t), PcOf(s, u);
    assert ThreadInv(s, t) && ThreadInv(s, u);
    SameEntry(s, Entry(p.context, p.cell), Entry(q.context, q.cell));
  }

  lemma CollectedCovers(s: State, t: Tid, addresses: nat, r: Return)
    requires Inv(s) && PcOf(s, t).Collecting? && r.at <= s.now
    requires Covered(s, r) || r.context == PcOf(s, t).context
    ensures Covered(Step(s, t, Collected(addresses)), r)
  {
    var s', pc := Step(s, t, Collected(addresses)), PcOf(s, t);
    assert ThreadInv(s, t);
    var own := Entry(pc.context, pc.cell);
    if r.context == pc.context {
      assert Caches(s', own, r.context);
    } else {
      var e :| Caches(s, e, r.context) && s.cells[e.cell].cached.value.collectedAt >= r.at;
      assert e.cell != pc.cell;
      assert Caches(s', e, r.context);
    }
  }

  lemma CollectedSpaces(s: State, t: Tid, addresses: nat)
    requires Inv(s) && CollectionInv(s) && PcOf(s, t).Collecting?
    ensures Spaced(Step(s, t, Collected(addresses)))
  {
    var s' := Step(s, t, Collected(addresses));
    assert CollectsLate(s, t);
    forall i, j | 0 <= i < j < |s'.replies| && SameCollection(s'.replies[i], s'.replies[j])
      ensures s'.replies[j].at - s'.replies[i].at >= s'.ttl
    {
      assert s'.replies[i] == s.replies[i];
      if j == |s.replies| {
        assert !Recent(s, s.replies[i]);
      } else {
        assert s'.replies[j] == s.replies[j];
      }
    }
  }

  lemma CollectedIsCached(s: State, t: Tid, addresses: nat)
    requires Inv(s) && CollectionInv(s) && PcOf(s, t).Collecting?
    ensures CachedIsCollected(Step(s, t, Collected(addresses)))
  {
    var s', pc := Step(s, t, Collected(addresses)), PcOf(s, t);
    assert ThreadInv(s, t);
    forall e: Entry | Caches(s', e, e.context)
      ensures CollectionOf(e.context, s'.cells[e.cell].cached.value) in s'.replies
    {
      if e.cell == pc.cell {
        assert e == Entry(pc.context, pc.cell);
        assert s'.replies[|s.replies|] == CollectionOf(e.context, s'.cells[e.cell].cached.value);
      } else {
        assert Caches(s, e, e.context);
      }
    }
  }

  lemma CollectedKeeps(s: State, t: Tid, addresses: nat)
    requires Inv(s) && CollectionInv(s) && PcOf(s, t).Collecting?
    ensures CollectionInv(Step(s, t, Collected(addresses)))
  {
    var s', pc := Step(s, t, Collected(addresses)), PcOf(s, t);
    CollectedSpaces(s, t, addresses);
    CollectedIsCached(s, t, addresses);
    forall r | r in s'.replies && Recent(s', r) ensures Covered(s', r) {
      CollectedCovers(s, t, addresses, r);
    }
    forall u: Tid ensures CollectsLate(s', u) {
      assert CollectsLate(s, u);
      if u != t && PcOf(s, u).Collecting? && PcOf(s, u).context == pc.context {
        OneCollects(s, t, u);
      }
    }
  }

  lemma StepKeepsCollections(s: State, t: Tid, a: Action)
    requires Inv(s) && CollectionInv(s)
    ensures CollectionInv(Step(s, t, a))
  {
    var pc := PcOf(s, t);
    if a.Lookup? && pc.WantTable? {
      LookupKeeps(s, t);
    } else if a.CheckCached? && pc.HasCell? && pc.cell in s.cells {
      if Fresh(s, s.cells[pc.cell].cached) {
        HitKeeps(s, t);
      } else {
        MissKeeps(s, t);
      }
    } else if a.Collected? && pc.Collecting? {
      CollectedKeeps(s, t, a.addresses);
    } else {
      TableKeeps(s, Step(s, t, a), t);
    }
  }

  lemma {:induction false} RunKeepsCollections(ttl: nat, moves: seq<Move>)
    ensures CollectionInv(Run(Init(ttl), moves))
    decreases |moves|
  {
    if moves != [] {
      var m := moves[|moves| - 1];
      RunKeepsInv(ttl, moves[..|moves| - 1]);
      RunKeepsCollections(ttl, moves[..|moves| - 1]);
      StepKeepsCollections(Run(Init(ttl), moves[..|moves| - 1]), m.thread, m.action);
    }
  }

  // ----- results -----

  // In every interleaving, a call collects for a context only when no
  // collection for it was finished less than the time-to-live ago, so two
  // collections for a context finish at least that far apart.
  lemma CollectsOncePerTtl(ttl: nat, moves: seq<Move>, t: Tid, r: Return, i: nat, j: nat)
    ensures
      var s := Run(Init(ttl), moves);
      && (PcOf(s, t).Collecting? && r in s.replies && r.collectedHere && r.context == PcOf(s, t).context ==>
            s.now - r.at >= ttl)
      && (i < j < |s.replies| && SameCollection(s.replies[i], s.replies[j]) ==>
            s.replies[j].at - s.replies[i].at >= ttl)
  {
    RunKeepsInv(ttl, moves);
    RunKeepsCollections(ttl, moves);
    assert CollectsLate(Run(Init(ttl), moves), t);
  }

  // A collection for the same context finished by `at` is not the later one, if
  // the first is less than the time-to-live old then.
  lemma LatestWithinTtl(s: State, made: Return, q: Return, at: nat)
    requires Spaced(s) && made in s.replies && q in s.replies && SameCollection(made, q)
    requires q.at <= at && (at == made.at || at - made.at < s.ttl)
    ensures q.at <= made.at
  {
    var i :| 0 <= i < |s.replies| && s.replies[i] == made;
    var j :| 0 <= j < |s.replies| && s.replies[j] == q;
  }

  // Every response returned is that of a collection for its context, and no
  // later collection was finished when it was returned.
  lemma ReturnsLatestCollection(ttl: nat, moves: seq<Move>, r: Return, q: Return)
    requires r in Run(Init(ttl), moves).replies
    ensures
      var replies := Run(Init(ttl), moves).replies;
      && MadeBy(r) in replies
      && (q in replies && SameCollection(MadeBy(r), q) && q.at <= r.at ==> q.at <= r.collectedAt)
  {
    var s := Run(Init(ttl), moves);
    RunKeepsInv(ttl, moves);
    RunKeepsCollections(ttl, moves);
    ReturnsAreFreshAndOwn(ttl, moves, r);
    if q in s.replies && SameCollection(MadeBy(r), q) && q.at <= r.at {
      LatestWithinTtl(s, MadeBy(r), q, r.at);
    }
  }

  // A call that ends has returned once, for its own context, or was cancelled.
  lemma EndedCallHasReturned(ttl: nat, moves: seq<Move>, m: Move)
    requires !PcOf(Run(Init(ttl), moves), m.thread).Idle? && !m.action.Cancel?
    requires PcOf(Step(Run(Init(ttl), moves), m.thread, m.action), m.thread).Idle?
    ensures
      var s := Run(Init(ttl), moves);
      var s' := Step(s, m.thread, m.action);
      && |s'.replies| == |s.replies| + 1 && s.replies <= s'.replies
      && s'.replies[|s.replies|].context == PcOf(s, m.thread).context
      && s'.replies[|s.replies|].at == s.now
  {
    EndingReturns(Run(Init(ttl), moves), m);
  }

  lemma EndingReturns(s: State, m: Move)
    requires !PcOf(s, m.thread).Idle? && !m.action.Cancel?
    requires PcOf(Step(s, m.thread, m.action), m.thread).Idle?
    ensures
      var s' := Step(s, m.thread, m.action);
      exists r :: s'.replies == s.replies + [r] && r.context == PcOf(s, m.thread).context && r.at == s.now
  {
    var s', pc := Step(s, m.thread, m.action), PcOf(s, m.thread);
    assert m.action.CheckCached? || m.action.Collected?;
    var r := s'.replies[|s.replies|];
    assert s'.replies == s.replies + [r];
  }
}
