/**
 * The task store as the database module keeps it: the task table, the history log and the last
 * row id, updated in place. Each method does what the corresponding function of `TaskDb` or
 * `Scheduling` says of the store's value, so the properties proved about those functions hold of
 * the store.
 */
module TaskStore {
  import opened Wrappers
  import opened CommaLists
  import opened Tasks
  import opened TaskDb
  import Scheduling

  class Store {
    var tasks: map<int, Task>
    var history: seq<HistoryEntry>
    var lastId: nat

    /** The store's current value. */
    function Snapshot(): Db
      reads this
    {
      Db(tasks, history, lastId)
    }

    /** Row ids are exactly `1..lastId`, each row carrying its own id. */
    ghost predicate Valid()
      reads this
    {
      TaskDb.Valid(Snapshot())
    }

    /** A new database: no rows, no history. */
    constructor ()
      ensures Snapshot() == Db(map[], [], 0)
      ensures Valid()
    {
      tasks := map[];
      history := [];
      lastId := 0;
    }

    /** `addTask`: inserts a row under the next id and returns that id. */
    method AddTask(n: NewTask, now: Clock) returns (id: int)
      requires Valid()
      modifies this
      ensures (Snapshot(), id) == TaskDb.AddTask(old(Snapshot()), n, now)
      ensures Valid() && id == old(lastId) + 1 && tasks[id].status == Ready
    {
      AddTaskFacts(Snapshot(), n, now);
      id := lastId + 1;
      tasks := tasks[id := NewRow(id, n, now)];
      lastId := id;
    }

    /** `addHistory`: appends one entry to the log. */
    method AddHistory(taskId: int, action: string, agent: Option<string>, oldValue: Option<string>,
                      newValue: Option<string>, now: Clock)
      modifies this
      ensures Snapshot() == TaskDb.AddHistory(old(Snapshot()), taskId, action, agent, oldValue, newValue, now)
    {
      history := history + [Tasks.Entry(taskId, action, agent, oldValue, newValue, now)];
    }

    /** `updateTask`: patches the row, then logs one `update_<column>` entry per update. */
    method UpdateTask(id: int, us: seq<Update>, now: Clock)
      modifies this
      ensures Snapshot() == TaskDb.UpdateTask(old(Snapshot()), id, us, now)
    {
      if us == [] {
        return;
      }
      if id in tasks {
        tasks := tasks[id := Patch(tasks[id], us).(updatedAt := now.sql)];
      }
      ghost var patched := tasks;
      ghost var log := UpdateLog(id, us, now);
      var i := 0;
      while i < |us|
        invariant 0 <= i <= |us|
        invariant tasks == patched && lastId == old(lastId)
        invariant history == old(history) + log[..i]
      {
        assert log[i] == Tasks.Entry(id, "update_" + ColumnName(ColumnOf(us[i])), None, None, ValueText(NewValue(us[i])), now);
        AddHistory(id, "update_" + ColumnName(ColumnOf(us[i])), None, None, ValueText(NewValue(us[i])), now);
        PrefixGrows(old(history), log, i);
        i := i + 1;
      }
      assert log[..|us|] == log;
    }

    /** Extending the logged prefix by one entry appends that entry. */
    static lemma PrefixGrows(h: seq<HistoryEntry>, log: seq<HistoryEntry>, i: nat)
      requires i < |log|
      ensures h + log[..i] + [log[i]] == h + log[..i + 1]
    {
      assert log[..i + 1] == log[..i] + [log[i]];
    }

    /** `claimTask`: the four refusals in order, then the claim and its `claim` entry. */
    method Claim(id: int, agent: string, session: Option<string>, now: Clock) returns (out: Outcome<TaskError>)
      requires Valid()
      modifies this
      ensures (Snapshot(), out) == TaskDb.Claim(old(Snapshot()), id, agent, session, now)
      ensures Valid()
    {
      ClaimFacts(Snapshot(), id, agent, session, now);
      out := ClaimCheck(Snapshot(), id, agent, session);
      if out.Fail? {
        return;
      }
      var prior := tasks[id].status;
      UpdateTask(id, ClaimUpdates(agent, session, now), now);
      AddHistory(id, "claim", Some(ClaimNote(agent, session)), Some(StatusName(prior)), Some("in_progress"), now);
    }

    /** `releaseTask`: clears the claim and logs a `release` entry. */
    method Release(id: int, now: Clock) returns (out: Outcome<TaskError>)
      requires Valid()
      modifies this
      ensures (Snapshot(), out) == TaskDb.Release(old(Snapshot()), id, now)
      ensures Valid()
    {
      ReleaseFacts(Snapshot(), id, now);
      if id !in tasks {
        return Fail(NotFound(id));
      }
      var note := ReleaseNote(tasks[id]);
      UpdateTask(id, ReleaseUpdates(), now);
      AddHistory(id, "release", note, Some("in_progress"), Some("ready"), now);
      out := Pass;
    }

    /** `blockTask`: marks the task blocked with the reason and logs a `block` entry. */
    method Block(id: int, reason: string, now: Clock) returns (out: Outcome<TaskError>)
      requires Valid()
      modifies this
      ensures (Snapshot(), out) == TaskDb.Block(old(Snapshot()), id, reason, now)
      ensures Valid()
    {
      BlockFacts(Snapshot(), id, reason, now);
      if id !in tasks {
        return Fail(NotFound(id));
      }
      var prior := tasks[id].status;
      UpdateTask(id, BlockUpdates(reason), now);
      AddHistory(id, "block", None, Some(StatusName(prior)), Some("blocked"), now);
      out := Pass;
    }

    /** `unblockTask`: makes the task ready, clears the reason and logs an `unblock` entry. */
    method Unblock(id: int, now: Clock) returns (out: Outcome<TaskError>)
      requires Valid()
      modifies this
      ensures (Snapshot(), out) == TaskDb.Unblock(old(Snapshot()), id, now)
      ensures Valid()
    {
      UnblockFacts(Snapshot(), id, now);
      if id !in tasks {
        return Fail(NotFound(id));
      }
      UpdateTask(id, UnblockUpdates(), now);
      AddHistory(id, "unblock", None, Some("blocked"), Some("ready"), now);
      out := Pass;
    }

    /**
     * `autoUnblockDependents(x)`: one pass over the blocked tasks as listed before the pass; a task
     * whose list names `x` has `x` struck from it, and becomes ready when nothing remains.
     */
    method AutoUnblockDependents(x: int, now: Clock) returns (unblocked: seq<int>)
      modifies this
      ensures (Snapshot(), unblocked) == AutoUnblock(old(Snapshot()), x, now)
    {
      var pending := DepLists(Listing(tasks, lastId, BlockedOnly));
      unblocked := UnblockAll(x, pending, now);
    }

    /** The loop of `autoUnblockDependents` over the pending tasks, each with its dependency list. */
    method UnblockAll(x: int, pending: seq<(int, seq<int>)>, now: Clock) returns (unblocked: seq<int>)
      modifies this
      ensures (Snapshot(), unblocked) == UnblockSteps(old(Snapshot()), x, pending, now)
    {
      ghost var start := Snapshot();
      unblocked := [];
      var i := 0;
      assert pending[i..] == pending;
      assert [] + UnblockSteps(start, x, pending, now).1 == UnblockSteps(start, x, pending, now).1;
      while i < |pending|
        invariant 0 <= i <= |pending|
        invariant UnblockSteps(start, x, pending, now) == Resume(Snapshot(), unblocked, x, pending[i..], now)
      {
        unblocked := UnblockAt(x, pending, i, unblocked, now);
        i := i + 1;
      }
      assert pending[i..] == [];
      assert unblocked + [] == unblocked;
    }

    /** The rest of the loop from state `d`, with `done` the ids already made ready. */
    static ghost function Resume(d: Db, done: seq<int>, x: int, pending: seq<(int, seq<int>)>, now: Clock): (Db, seq<int>) {
      (UnblockSteps(d, x, pending, now).0, done + UnblockSteps(d, x, pending, now).1)
    }

    /** Resuming at position `i` is taking the step at `i` and resuming at `i + 1`. */
    static lemma ResumeAt(d: Db, done: seq<int>, x: int, pending: seq<(int, seq<int>)>, i: nat, now: Clock)
      requires i < |pending|
      ensures var step := UnblockStep(d, x, pending[i].0, pending[i].1, now);
        Resume(d, done, x, pending[i..], now)
        == Resume(step.0, done + (if step.1 then [pending[i].0] else []), x, pending[i + 1..], now)
    {
      assert pending[i..][1..] == pending[i + 1..];
      var step := UnblockStep(d, x, pending[i].0, pending[i].1, now);
      var tail := UnblockSteps(step.0, x, pending[i + 1..], now);
      assert UnblockSteps(d, x, pending[i..], now) == (tail.0, if step.1 then [pending[i].0] + tail.1 else tail.1);
      if step.1 {
        assert done + ([pending[i].0] + tail.1) == (done + [pending[i].0]) + tail.1;
      } else {
        assert done + [] == done;
      }
    }

    /** One turn of the `autoUnblockDependents` loop, at position `i` of the pending list. */
    method UnblockAt(x: int, pending: seq<(int, seq<int>)>, i: nat, done: seq<int>, now: Clock) returns (done': seq<int>)
      requires i < |pending|
      modifies this
      ensures Resume(old(Snapshot()), done, x, pending[i..], now) == Resume(Snapshot(), done', x, pending[i + 1..], now)
    {
      ResumeAt(Snapshot(), done, x, pending, i, now);
      var freed := UnblockOne(x, pending[i].0, pending[i].1, now);
      done' := if freed then done + [pending[i].0] else done;
    }

    /** The body of the `autoUnblockDependents` loop for one blocked task; the flag says whether it became ready. */
    method UnblockOne(x: int, id: int, deps: seq<int>, now: Clock) returns (freed: bool)
      modifies this
      ensures (Snapshot(), freed) == UnblockStep(old(Snapshot()), x, id, deps, now)
    {
      freed := false;
      if x in deps {
        var remaining := Without(deps, x);
        if remaining == [] {
          UpdateTask(id, [SetStatus(Ready), SetBlockedBy(None)], now);
          AddHistory(id, "auto-unblock", None, Some("blocked"), Some("ready"), now);
          freed := true;
        } else {
          UpdateTask(id, [SetBlockedBy(Some(JoinIds(remaining)))], now);
        }
      }
    }

    /** `completeTask`: the completion writes, then `autoUnblockDependents`, whose list it returns. */
    method Complete(id: int, summary: string, agent: Option<string>, now: Clock) returns (r: Result<seq<int>, TaskError>)
      requires Valid()
      modifies this
      ensures (Snapshot(), r) == TaskDb.Complete(old(Snapshot()), id, summary, agent, now)
      ensures Valid()
    {
      CompleteFacts(Snapshot(), id, summary, agent, now);
      if id !in tasks {
        return Failure(NotFound(id));
      }
      var t := tasks[id];
      UpdateTask(id, CompleteUpdates(t, summary, agent, now), now);
      AddHistory(id, "complete", Completer(t, agent), Some(StatusName(t.status)), Some("completed"), now);
      var unblocked := AutoUnblockDependents(id, now);
      r := Success(unblocked);
    }

    /** `conflictCheck(taskIds)`: the existing tasks in the order given, then every overlapping pair. */
    method ConflictCheck(taskIds: seq<int>) returns (conflicts: seq<Scheduling.Conflict>)
      ensures conflicts == Scheduling.Conflicts(Scheduling.Entries(Scheduling.Found(tasks, taskIds)))
    {
      var found: seq<Task> := [];
      var i := 0;
      while i < |taskIds|
        invariant 0 <= i <= |taskIds|
        invariant found == Scheduling.Found(tasks, taskIds[..i])
      {
        assert taskIds[..i + 1][..i] == taskIds[..i];
        if taskIds[i] in tasks {
          found := found + [tasks[taskIds[i]]];
        }
        i := i + 1;
      }
      assert taskIds[..|taskIds|] == taskIds;
      conflicts := Scheduling.ConflictPairs(Scheduling.Entries(found));
    }

    /** `assignTaskToSession`: refuses a missing task or a shared file within the session, else claims for it. */
    method AssignTaskToSession(taskId: int, session: string, agent: string, now: Clock) returns (out: Outcome<TaskError>)
      requires Valid()
      modifies this
      ensures (Snapshot(), out) == Scheduling.Assign(old(Snapshot()), taskId, session, agent, now)
      ensures Valid()
    {
      if taskId !in tasks {
        return Fail(NotFound(taskId));
      }
      var sessionTasks := Scheduling.SessionTasks(tasks, lastId, session);
      var conflict := FindConflict(taskId, Files(tasks[taskId]), sessionTasks);
      if conflict.Some? {
        return Fail(FileConflict(taskId, conflict.value.0, session, conflict.value.1));
      }
      out := Claim(taskId, agent, Some(session), now);
    }

    /** The scan of the session's tasks for the first other one sharing a file with the task. */
    static method FindConflict(taskId: int, files: seq<string>, others: seq<Task>) returns (conflict: Option<(int, seq<string>)>)
      ensures conflict == Scheduling.FirstConflict(taskId, files, others)
    {
      var i := 0;
      while i < |others|
        invariant 0 <= i <= |others|
        invariant Scheduling.FirstConflict(taskId, files, others)
               == Scheduling.FirstConflict(taskId, files, others[i..])
      {
        var other := others[i];
        FirstConflictAt(taskId, files, others, i);
        if other.id != taskId {
          var overlap := Overlap(files, Files(other));
          if overlap != [] {
            return Some((other.id, overlap));
          }
        }
        i := i + 1;
      }
      assert others[i..] == [];
      return None;
    }

    /** The search from position `i` on looks at the task at `i` first. */
    static lemma FirstConflictAt(taskId: int, files: seq<string>, others: seq<Task>, i: nat)
      requires i < |others|
      ensures Scheduling.FirstConflict(taskId, files, others[i..]) ==
        if others[i].id == taskId then Scheduling.FirstConflict(taskId, files, others[i + 1..])
        else if Overlap(files, Files(others[i])) != [] then Some((others[i].id, Overlap(files, Files(others[i]))))
        else Scheduling.FirstConflict(taskId, files, others[i + 1..])
    {
      assert others[i..][1..] == others[i + 1..];
    }

    /** The claims of `autoAssign` for one batch; a refused claim is skipped. */
    method ClaimItems(items: seq<Scheduling.BatchItem>, session: string, agent: string, now: Clock)
      requires Valid()
      modifies this
      ensures Snapshot() == Scheduling.ClaimItems(old(Snapshot()), items, session, agent, now)
      ensures Valid()
    {
      ghost var start := Snapshot();
      var k := 0;
      while k < |items|
        invariant 0 <= k <= |items|
        invariant Valid()
        invariant Scheduling.ClaimItems(start, items, session, agent, now)
               == Scheduling.ClaimItems(Snapshot(), items[k..], session, agent, now)
      {
        assert items[k..][1..] == items[k + 1..];
        var _ := Claim(items[k].id, agent, Some(session), now);
        k := k + 1;
      }
    }

    /**
     * `suggestBatch(sessionCount, autoAssign, agent)`: the ready tasks placed session by session
     * with the fewest shared files, and with `autoAssign` each placed task claimed for its session.
     */
    method SuggestBatch(count: int, autoAssign: bool, agent: string, now: Clock) returns (r: Result<seq<Scheduling.Batch>, Scheduling.BatchError>)
      requires Valid()
      modifies this
      ensures (Snapshot(), r) == Scheduling.SuggestBatch(old(Snapshot()), count, autoAssign, agent, now)
      ensures Valid()
    {
      var ready := Listing(tasks, lastId, Scheduling.ReadyOnly);
      var n := Scheduling.SessionCount(count);
      if n == 0 {
        return if ready == [] then Success([]) else Failure(Scheduling.NoSessions);
      }
      var sessions, fileSets := Scheduling.PlanBatches(n, Scheduling.Entries(ready));
      var batches := Scheduling.Batches(Scheduling.Plan(sessions, fileSets));
      r := Success(batches);
      if autoAssign {
        ghost var start := Snapshot();
        var b := 0;
        while b < |batches|
          invariant 0 <= b <= |batches|
          invariant Valid()
          invariant Scheduling.ClaimBatches(start, batches, agent, now)
                 == Scheduling.ClaimBatches(Snapshot(), batches[b..], agent, now)
        {
          assert batches[b..][1..] == batches[b + 1..];
          ClaimItems(batches[b].tasks, batches[b].session, agent, now);
          b := b + 1;
        }
      }
    }
  }
}
