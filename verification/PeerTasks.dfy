// The task map of the peer task manager
// (rust/easytier-core/src/foundation/task.rs): one pass of the main loop over
// mutable state. `ended` lists the tasks that end on their own before each of
// the pass's looks at the map; every pass is a run of the loop's steps.
module PeerTasks {
  import opened Wrappers
  import opened Sequences
  import opened PeerTaskLoop

  // `t` ends on its own during the looks.
  ghost predicate EndsOnItsOwn(ended: nat -> seq<Task>, t: Task) {
    exists i: nat :: t in ended(i)
  }

  // What has left `from` ended on its own.
  ghost predicate EndedBy(from: map<Task, Item>, to: map<Task, Item>, ended: nat -> seq<Task>) {
    && to.Keys <= from.Keys
    && forall t :: t in from && t !in to ==> EndsOnItsOwn(ended, t)
  }

  // A task that may be replaced: it had finished before the pass, or has ended
  // on its own by the time it is looked at.
  ghost predicate Replaceable(running: map<Task, Item>, ended: nat -> seq<Task>, t: Task) {
    t !in running || EndsOnItsOwn(ended, t)
  }

  class TaskMap {
    var tasks: map<Item, Task>
    var running: map<Task, Item>
    var nextTask: Task
    ghost const orphans: set<Task>

    ghost function Contents(): World
      reads this
    {
      World(tasks, running, nextTask, orphans)
    }

    ghost predicate Valid()
      reads this
    {
      TasksInv(Contents(), None)
    }

    // The pass that began in `w0` has come to `pc` by `moves`.
    ghost predicate Reached(w0: World, pc: Pc, moves: seq<LoopMove>)
      reads this
    {
      LoopRun(w0, Collecting, moves) == (Contents(), pc)
    }

    constructor ()
      ensures Valid() && tasks == map[] && running == map[] && orphans == {}
    {
      tasks := map[];
      running := map[];
      nextTask := 0;
      orphans := {};
    }

    // Tasks end on their own.
    method Elapse(ended: seq<Task>, ghost w0: World, ghost pc: Pc, ghost moves: seq<LoopMove>)
      returns (ghost more: seq<LoopMove>)
      requires Reached(w0, pc, moves)
      modifies `running
      ensures Reached(w0, pc, more)
      ensures running.Keys == old(running.Keys) - Elements(ended)
    {
      more := moves;
      assert Elements(ended[..0]) == {};
      for i := 0 to |ended|
        invariant Reached(w0, pc, more)
        invariant running.Keys == old(running.Keys) - Elements(ended[..i])
      {
        assert Elements(ended[..i + 1]) == Elements(ended[..i]) + {ended[i]};
        LoopRunSnoc(w0, Collecting, more, Ends(ended[i]));
        more := more + [Ends(ended[i])];
        running := running - {ended[i]};
      }
      assert ended[..|ended|] == ended;
    }

    // The keys of the map in some order.
    method Keys() returns (keys: seq<Item>)
      ensures NoDuplicates(keys) && Elements(keys) == tasks.Keys
    {
      keys := [];
      var rest := tasks.Keys;
      while rest != {}
        invariant rest <= tasks.Keys && NoDuplicates(keys)
        invariant Elements(keys) == tasks.Keys - rest
        decreases rest
      {
        var x :| x in rest;
        DistinctConcat(keys, [x]);
        keys := keys + [x];
        rest := rest - {x};
      }
    }

    // One look at an entry, chosen unless its item is wanted and its task runs.
    method Look(peers: seq<Item>, keys: seq<Item>, i: nat, removals: seq<Item>, ended: seq<Task>,
                ghost w0: World, ghost moves: seq<LoopMove>)
      returns (chosen: bool, ghost more: seq<LoopMove>)
      requires i < |keys| && keys[i] in tasks && Reached(w0, Choosing(peers, keys[i..], removals), moves)
      modifies `running
      ensures Reached(w0, Choosing(peers, keys[i + 1..], if chosen then removals + [keys[i]] else removals), more)
      ensures chosen <==> !(keys[i] in peers && tasks[keys[i]] in running)
      ensures running.Keys == old(running.Keys) - Elements(ended)
    {
      more := Elapse(ended, w0, Choosing(peers, keys[i..], removals), moves);
      LoopRunSnoc(w0, Collecting, more, Own(ChooseNext));
      more := more + [Own(ChooseNext)];
      chosen := keys[i] !in peers || tasks[keys[i]] !in running;
    }

    // The items whose task is not wanted any more or has finished when looked
    // at: all that had finished before, and of the wanted ones none that has
    // not ended on its own.
    method ChooseRemovals(peers: seq<Item>, ended: nat -> seq<Task>, ghost w0: World)
      returns (toRemove: seq<Item>, ghost moves: seq<LoopMove>)
      requires Contents() == w0
      modifies `running
      ensures Reached(w0, Removing(peers, toRemove), moves)
      ensures forall x :: x in tasks && (x !in peers || tasks[x] !in old(running)) ==> x in toRemove
      ensures forall x :: x in toRemove ==> x in tasks && (x !in peers || Replaceable(old(running), ended, tasks[x]))
      ensures EndedBy(old(running), running, ended)
    {
      var keys := Keys();
      toRemove := [];
      LoopRunSnoc(w0, Collecting, [], Own(Collect(peers, keys)));
      moves := [] + [Own(Collect(peers, keys))];
      for i := 0 to |keys|
        invariant Reached(w0, Choosing(peers, keys[i..], toRemove), moves)
        invariant forall j :: 0 <= j < i && (keys[j] !in peers || tasks[keys[j]] !in old(running)) ==>
          keys[j] in toRemove
        invariant forall x :: x in toRemove ==>
          x in tasks && (x !in peers || Replaceable(old(running), ended, tasks[x]))
        invariant EndedBy(old(running), running, ended)
      {
        assert keys[i] in Elements(keys);
        var chosen;
        chosen, moves := Look(peers, keys, i, toRemove, ended(i), w0, moves);
        if chosen {
          toRemove := toRemove + [keys[i]];
        }
      }
      LoopRunSnoc(w0, Collecting, moves, Own(ChooseNext));
      moves := moves + [Own(ChooseNext)];
      forall x | x in tasks && (x !in peers || tasks[x] !in old(running)) ensures x in toRemove {
        assert x in Elements(keys);
      }
    }

    // remove, abort, await: the task has ended when the await returns.
    method RemoveAndJoin(item: Item, ghost w0: World, ghost pc: Pc, ghost moves: seq<LoopMove>)
      returns (ghost more: seq<LoopMove>)
      requires Reached(w0, pc, moves) && pc.Removing? && pc.rest != [] && pc.rest[0] == item
      modifies this
      ensures Reached(w0, Removing(pc.peers, pc.rest[1..]), more)
      ensures tasks == old(tasks) - {item} && nextTask == old(nextTask)
      ensures running == if item in old(tasks) then old(running) - {old(tasks)[item]} else old(running)
    {
      LoopRunSnoc(w0, Collecting, moves, Own(RemoveNext));
      more := moves + [Own(RemoveNext)];
      if item in tasks {
        var task := tasks[item];
        tasks := tasks - {item};
        LoopRunSnoc(w0, Collecting, more, Ends(task));
        more := more + [Ends(task)];
        running := running - {task};
        LoopRunSnoc(w0, Collecting, more, Own(Joined));
        more := more + [Own(Joined)];
      } else {
        assert tasks - {item} == tasks;
      }
    }

    method RemoveAll(peers: seq<Item>, toRemove: seq<Item>, ended: nat -> seq<Task>,
                     ghost w0: World, ghost moves: seq<LoopMove>)
      returns (ghost more: seq<LoopMove>)
      requires Reached(w0, Removing(peers, toRemove), moves)
      modifies this
      ensures Reached(w0, Launching(peers, peers), more)
      ensures tasks == old(tasks) - Elements(toRemove) && nextTask == old(nextTask)
    {
      more := moves;
      assert Elements(toRemove[..0]) == {};
      for i := 0 to |toRemove|
        invariant Reached(w0, Removing(peers, toRemove[i..]), more)
        invariant tasks == old(tasks) - Elements(toRemove[..i]) && nextTask == old(nextTask)
      {
        assert Elements(toRemove[..i + 1]) == Elements(toRemove[..i]) + {toRemove[i]};
        more := Elapse(ended(i), w0, Removing(peers, toRemove[i..]), more);
        more := RemoveAndJoin(toRemove[i], w0, Removing(peers, toRemove[i..]), more);
        assert toRemove[i..][1..] == toRemove[i + 1..];
      }
      assert toRemove[..|toRemove|] == toRemove;
      LoopRunSnoc(w0, Collecting, more, Own(RemoveNext));
      more := more + [Own(RemoveNext)];
    }

    // One look at a collected item: launched unless the map has it.
    method LaunchOne(peers: seq<Item>, rest: seq<Item>, ghost w0: World, ghost moves: seq<LoopMove>)
      returns (ghost more: seq<LoopMove>)
      requires Reached(w0, Launching(peers, rest), moves) && rest != []
      modifies this
      ensures Reached(w0, Launching(peers, rest[1..]), more)
      ensures tasks == if rest[0] in old(tasks) then old(tasks) else old(tasks)[rest[0] := old(nextTask)]
      ensures old(nextTask) <= nextTask
    {
      LoopRunSnoc(w0, Collecting, moves, Own(LaunchNext));
      more := moves + [Own(LaunchNext)];
      if rest[0] in tasks {
        return;
      }
      LoopRunSnoc(w0, Collecting, more, Own(Launched));
      more := more + [Own(Launched)];
      tasks := tasks[rest[0] := nextTask];
      running := running[nextTask := rest[0]];
      nextTask := nextTask + 1;
    }

    // What is in the map stays, and what is missing gets a new task.
    method LaunchMissing(peers: seq<Item>, ended: nat -> seq<Task>, ghost w0: World, ghost moves: seq<LoopMove>)
      returns (ghost more: seq<LoopMove>)
      requires Reached(w0, Launching(peers, peers), moves)
      modifies this
      ensures Reached(w0, Parked(peers), more)
      ensures forall x :: x in old(tasks) ==> x in tasks && tasks[x] == old(tasks)[x]
      ensures forall x :: x in tasks && x !in old(tasks) ==> tasks[x] >= old(nextTask)
    {
      more := moves;
      for i := 0 to |peers|
        invariant Reached(w0, Launching(peers, peers[i..]), more) && old(nextTask) <= nextTask
        invariant forall x :: x in old(tasks) ==> x in tasks && tasks[x] == old(tasks)[x]
        invariant forall x :: x in tasks && x !in old(tasks) ==> tasks[x] >= old(nextTask)
      {
        more := Elapse(ended(i), w0, Launching(peers, peers[i..]), more);
        more := LaunchOne(peers, peers[i..], w0, more);
        assert peers[i..][1..] == peers[i + 1..];
      }
      LoopRunSnoc(w0, Collecting, more, Own(LaunchNext));
      more := more + [Own(LaunchNext)];
    }

    // One pass over the collected peers, whatever tasks end meanwhile: a run of
    // the loop's steps from a collection to the wait. Afterwards the map's keys
    // are exactly the collected items. A task that had finished before is
    // replaced by a new one; a wanted task is kept unless it had finished or
    // ended on its own; and every running task that is no orphan is the one its
    // item maps to.
    method Reconcile(peers: seq<Item>, ended: nat -> nat -> seq<Task>) returns (ghost moves: seq<LoopMove>)
      requires Valid()
      modifies this
      ensures Valid()
      ensures LoopRun(old(Contents()), Collecting, moves) == (Contents(), Parked(peers))
      ensures tasks.Keys == Elements(peers)
      ensures forall x :: x in tasks ==>
        tasks[x] >= old(nextTask) || (x in old(tasks) && tasks[x] == old(tasks)[x] && tasks[x] in old(running))
      ensures forall x :: x in tasks && x in old(tasks) && !Replaceable(old(running), ended(0), old(tasks)[x]) ==>
        tasks[x] == old(tasks)[x]
      ensures forall t :: t in running && t !in orphans ==> running[t] in peers && tasks[running[t]] == t
    {
      ghost var w0 := Contents();
      var toRemove;
      toRemove, moves := ChooseRemovals(peers, ended(0), w0);
      moves := RemoveAll(peers, toRemove, ended(1), w0, moves);
      ghost var removed := tasks;
      moves := LaunchMissing(peers, ended(2), w0, moves);
      LoopRunKeepsInv(w0, Collecting, moves);
      assert tasks.Keys == Elements(peers);
      forall x | x in tasks
        ensures tasks[x] >= w0.nextTask || (x in removed && x in w0.tasks && tasks[x] == w0.tasks[x])
      {
        assert x in removed ==> removed[x] == w0.tasks[x];
      }
      forall x | x in removed ensures x in w0.tasks && w0.tasks[x] in w0.running {
        assert x !in toRemove;
      }
      forall x | x in tasks && x in w0.tasks && !Replaceable(w0.running, ended(0), w0.tasks[x])
        ensures tasks[x] == w0.tasks[x]
      {
        assert x in Elements(peers) && x !in toRemove;
        assert x in removed;
      }
      forall t | t in running && t !in orphans ensures running[t] in peers && tasks[running[t]] == t {
        assert InMap(Contents(), t);
      }
    }
  }
}
