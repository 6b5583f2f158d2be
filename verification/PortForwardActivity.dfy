// Which client the port-forward adapter evicts
// (rust/easytier-core/src/gateway/port_forward.rs): the clients and their last
// activity, told from the schedule alone.
module PortForwardActivity {
  import opened Wrappers
  import opened PortForwardSlots

  // What a move means for client `k`. It becomes one with a publication, is
  // active when a loop that has it stamps it, and ends when it is removed; a
  // stamp meant for an earlier client under the same key does not count.
  function Recorded(seen: Option<Client>, pc: Pc, a: Action, k: Key): Option<Client> {
    match a
    case PublishEntry(now) => if pc.Reserved? && pc.key == k then Some(Client(pc.permit, now)) else seen
    case Touch(now) =>
      if pc.Ready? && pc.key == k && seen.Some? && seen.value.permit == pc.permit then
        Some(Client(pc.permit, now))
      else seen
    case RemoveOldest => if pc.Scanned? && pc.oldest == k then None else seen
    case RemoveEntry(removed) => if removed == k then None else seen
    case _ => seen
  }

  // Client `k` after `moves`: its permit and when it was last active.
  ghost function Activity(capacity: nat, moves: seq<Move>, k: Key): Option<Client>
    decreases |moves|
  {
    if moves == [] then None
    else
      var before, m := moves[..|moves| - 1], moves[|moves| - 1];
      Recorded(Activity(capacity, before, k), PcOf(Run(Init(capacity), before), m.thread), m.action, k)
  }

  function Stored(s: State, k: Key): Option<Client> {
    if k in s.clients then Some(s.clients[k]) else None
  }

  lemma SettlingStores(s: State, t: Tid, a: Action, k: Key)
    requires DropsReference(a)
    ensures Stored(Step(s, t, a), k) == Recorded(Stored(s, k), PcOf(s, t), a, k)
  {
    if !a.RemoveOldest? && !a.PublishEntry? && !a.RemoveEntry? {
      assert Step(s, t, a).clients == s.clients;
    }
  }

  lemma StepStores(s: State, t: Tid, a: Action, k: Key)
    ensures Stored(Step(s, t, a), k) == Recorded(Stored(s, k), PcOf(s, t), a, k)
  {
    if DropsReference(a) {
      SettlingStores(s, t, a, k);
    } else if !a.Touch? {
      OthersKeepClients(s, t, a);
    }
  }

  lemma OthersKeepClients(s: State, t: Tid, a: Action)
    requires !DropsReference(a) && !a.Touch?
    ensures Step(s, t, a).clients == s.clients
  {
    if Reserves(a) {
      ReservingKeepsClients(s, t, a);
    }
  }

  lemma ReservingKeepsClients(s: State, t: Tid, a: Action)
    requires Reserves(a)
    ensures Step(s, t, a).clients == s.clients
  {
  }

  // In every interleaving the map holds exactly the clients the schedule
  // leaves, each with its last activity.
  lemma {:induction false} ClientsFollowSchedule(capacity: nat, moves: seq<Move>, k: Key)
    ensures Stored(Run(Init(capacity), moves), k) == Activity(capacity, moves, k)
    decreases |moves|
  {
    if moves != [] {
      var before, m := moves[..|moves| - 1], moves[|moves| - 1];
      ClientsFollowSchedule(capacity, before, k);
      StepStores(Run(Init(capacity), before), m.thread, m.action, k);
    }
  }

  // No client was active less recently than client `k`.
  ghost predicate LeastRecentlyActive(capacity: nat, moves: seq<Move>, k: Key) {
    && Activity(capacity, moves, k).Some?
    && forall x: Key :: Activity(capacity, moves, x).Some? ==>
         Activity(capacity, moves, k).value.lastActive <= Activity(capacity, moves, x).value.lastActive
  }

  lemma OldestIsLeastRecentlyActive(capacity: nat, moves: seq<Move>, k: Key)
    ensures IsOldest(Run(Init(capacity), moves), k) <==> LeastRecentlyActive(capacity, moves, k)
  {
    var s := Run(Init(capacity), moves);
    ClientsFollowSchedule(capacity, moves, k);
    forall x: Key ensures Stored(s, x) == Activity(capacity, moves, x) {
      ClientsFollowSchedule(capacity, moves, x);
    }
    if IsOldest(s, k) {
      forall x: Key | Activity(capacity, moves, x).Some?
        ensures Activity(capacity, moves, k).value.lastActive <= Activity(capacity, moves, x).value.lastActive
      {
        assert Stored(s, x) == Activity(capacity, moves, x);
      }
    }
    if LeastRecentlyActive(capacity, moves, k) {
      forall x | x in s.clients ensures s.clients[k].lastActive <= s.clients[x].lastActive {
        assert Stored(s, x) == Activity(capacity, moves, x);
      }
    }
  }

  lemma ChoosingStep(s: State, m: Move)
    requires PcOf(Step(s, m.thread, m.action), m.thread).Scanned? && !PcOf(s, m.thread).Scanned?
    ensures PcOf(s, m.thread).Full? && IsOldest(s, PcOf(Step(s, m.thread, m.action), m.thread).oldest)
  {
    if DropsReference(m.action) {
      SettlingChoosesNothing(s, m);
    } else if !Reserves(m.action) {
      OthersChooseNothing(s, m);
    }
  }

  lemma OthersChooseNothing(s: State, m: Move)
    requires !DropsReference(m.action) && !Reserves(m.action) && !PcOf(s, m.thread).Scanned?
    ensures !PcOf(Step(s, m.thread, m.action), m.thread).Scanned?
  {
  }

  lemma SettlingChoosesNothing(s: State, m: Move)
    requires DropsReference(m.action) && !PcOf(s, m.thread).Scanned?
    ensures !PcOf(Step(s, m.thread, m.action), m.thread).Scanned?
  {
  }

  // In every interleaving, a loop that has found no permit chooses a client
  // than which none was active less recently at that moment.
  lemma ChoosesLeastRecentlyActive(capacity: nat, moves: seq<Move>, m: Move)
    requires !PcOf(Run(Init(capacity), moves), m.thread).Scanned?
    requires PcOf(Run(Init(capacity), moves + [m]), m.thread).Scanned?
    ensures LeastRecentlyActive(capacity, moves, PcOf(Run(Init(capacity), moves + [m]), m.thread).oldest)
  {
    RunSnoc(Init(capacity), moves, m);
    ChoosingStep(Run(Init(capacity), moves), m);
    OldestIsLeastRecentlyActive(capacity, moves, PcOf(Run(Init(capacity), moves + [m]), m.thread).oldest);
  }

  lemma {:induction false} SomeOldest(clients: map<Key, Client>) returns (k: Key)
    requires clients != map[]
    ensures k in clients && forall x :: x in clients ==> clients[k].lastActive <= clients[x].lastActive
    decreases |clients|
  {
    k :| k in clients;
    var rest := clients - {k};
    if rest != map[] {
      assert rest.Keys == clients.Keys - {k};
      var j := SomeOldest(rest);
      OlderOf(clients, k, j);
      if clients[j].lastActive < clients[k].lastActive {
        k := j;
      }
    } else {
      forall x | x in clients ensures x == k {
        assert x != k ==> x in rest;
      }
    }
  }

  lemma OlderOf(clients: map<Key, Client>, k: Key, j: Key)
    requires k in clients && j in clients - {k}
    requires
      var rest := clients - {k};
      forall x :: x in rest ==> rest[j].lastActive <= rest[x].lastActive
    ensures forall x :: x in clients ==>
      (if clients[j].lastActive < clients[k].lastActive then clients[j] else clients[k]).lastActive
      <= clients[x].lastActive
  {
    forall x | x in clients && x != k ensures clients[j].lastActive <= clients[x].lastActive {
      assert x in clients - {k};
    }
  }

  // It finds one unless there are no clients at all, and then gives up and lets
  // admission go.
  lemma FindsClientUnlessNone(s: State, t: Tid)
    requires PcOf(s, t).Full?
    ensures (exists k :: PcOf(Step(s, t, Scan(k)), t).Scanned?) <==> s.clients != map[]
    ensures s.clients == map[] ==>
      forall k :: PcOf(Step(s, t, Scan(k)), t).Idle? && Step(s, t, Scan(k)).admission.None?
  {
    if s.clients != map[] {
      var k := SomeOldest(s.clients);
      assert |s.clients.Keys - {k}| < |s.clients.Keys|;
      assert IsOldest(s, k) && PcOf(Step(s, t, Scan(k)), t).Scanned?;
    }
  }

  // A packet of a known client goes out under its permit; only for an unknown
  // one a flow is opened.
  lemma PacketFindsClient(capacity: nat, moves: seq<Move>, t: Tid, k: Key)
    requires PcOf(Run(Init(capacity), moves), t).Idle?
    ensures
      PcOf(Run(Init(capacity), moves + [Move(t, Packet(k))]), t) ==
      match Activity(capacity, moves, k)
      case Some(client) => Ready(k, client.permit)
      case None => Opening(k)
  {
    RunSnoc(Init(capacity), moves, Move(t, Packet(k)));
    ClientsFollowSchedule(capacity, moves, k);
  }

  // ----- response tasks -----

  // The response tasks started so far.
  ghost function Started(capacity: nat, moves: seq<Move>): nat
    decreases |moves|
  {
    if moves == [] then 0
    else
      var before, m := moves[..|moves| - 1], moves[|moves| - 1];
      Started(capacity, before)
      + if m.action.PublishTask? && PcOf(Run(Init(capacity), before), m.thread).EntryPublished? then 1 else 0
  }

  // The handle kept for client `k`: of the task last started for it, until an
  // eviction, the reaper, a reload or the stop drops it.
  function Kept(handle: Option<Task>, pc: Pc, a: Action, k: Key, started: nat): Option<Task> {
    match a
    case PublishTask => if pc.EntryPublished? && pc.key == k then Some(started) else handle
    case DropEvicted => if pc.Removed? && pc.oldest == k then None else handle
    case RemoveHandle(key) => if key == k then None else handle
    case _ => handle
  }

  ghost function HandleOf(capacity: nat, moves: seq<Move>, k: Key): Option<Task>
    decreases |moves|
  {
    if moves == [] then None
    else
      var before, m := moves[..|moves| - 1], moves[|moves| - 1];
      Kept(HandleOf(capacity, before, k), PcOf(Run(Init(capacity), before), m.thread), m.action, k,
           Started(capacity, before))
  }

  function Handle(s: State, k: Key): Option<Task> {
    if k in s.responseTasks then Some(s.responseTasks[k]) else None
  }

  lemma SettlingHandles(s: State, t: Tid, a: Action, k: Key)
    requires DropsReference(a)
    ensures Handle(Step(s, t, a), k) == Kept(Handle(s, k), PcOf(s, t), a, k, s.nextTask)
    ensures Step(s, t, a).nextTask == s.nextTask
  {
    if a.RemoveOldest? || a.PublishEntry? || a.RemoveEntry? {
      EntryDropsKeepHandles(s, t, a);
    } else if !a.DropEvicted? {
      OtherDropsKeepHandles(s, t, a);
    }
  }

  lemma OtherDropsKeepHandles(s: State, t: Tid, a: Action)
    requires a.FinishSend? || a.Cancel? || a.TaskDropped?
    ensures Step(s, t, a).responseTasks == s.responseTasks && Step(s, t, a).nextTask == s.nextTask
  {
  }

  lemma EntryDropsKeepHandles(s: State, t: Tid, a: Action)
    requires a.RemoveOldest? || a.PublishEntry? || a.RemoveEntry?
    ensures Step(s, t, a).responseTasks == s.responseTasks && Step(s, t, a).nextTask == s.nextTask
  {
  }

  lemma StepHandles(s: State, t: Tid, a: Action, k: Key)
    ensures Handle(Step(s, t, a), k) == Kept(Handle(s, k), PcOf(s, t), a, k, s.nextTask)
    ensures Step(s, t, a).nextTask == s.nextTask + if a.PublishTask? && PcOf(s, t).EntryPublished? then 1 else 0
  {
    if DropsReference(a) {
      SettlingHandles(s, t, a, k);
    }
  }

  // In every interleaving the handles are exactly those the schedule leaves.
  lemma {:induction false} HandlesFollowSchedule(capacity: nat, moves: seq<Move>, k: Key)
    ensures Handle(Run(Init(capacity), moves), k) == HandleOf(capacity, moves, k)
    ensures Run(Init(capacity), moves).nextTask == Started(capacity, moves)
    decreases |moves|
  {
    if moves != [] {
      var before, m := moves[..|moves| - 1], moves[|moves| - 1];
      HandlesFollowSchedule(capacity, before, k);
      StepHandles(Run(Init(capacity), before), m.thread, m.action, k);
    }
  }

  // ----- packets that come to nothing -----

  predicate AtAwait(pc: Pc) {
    pc.Opening? || pc.WantAdmission? || pc.Evicted? || pc.Sending?
  }

  // A loop cancelled at an await, or whose flow does not open, is left with no
  // packet, no admission and no permit.
  lemma GivenUpHoldsNothing(capacity: nat, moves: seq<Move>, t: Tid, a: Action, p: Permit)
    requires
      var pc := PcOf(Run(Init(capacity), moves), t);
      (a.Cancel? && AtAwait(pc)) || (a == FlowOpened(false) && pc.Opening?)
    ensures
      var s' := Step(Run(Init(capacity), moves), t, a);
      PcOf(s', t).Idle? && s'.admission != Some(t) && !Holds(s', Local(t), p)
  {
    var s := Run(Init(capacity), moves);
    RunKeepsInv(capacity, moves);
    StepKeepsInv(s, t, a, capacity);
    GivesUp(s, t, a);
    assert ThreadInv(Step(s, t, a), t);
  }

  lemma GivesUp(s: State, t: Tid, a: Action)
    requires (a.Cancel? && AtAwait(PcOf(s, t))) || (a == FlowOpened(false) && PcOf(s, t).Opening?)
    ensures PcOf(Step(s, t, a), t).Idle?
  {
  }
}
