/**
 * The task store as a value: the table, the history log and the last id issued, and what each
 * write operation of the store makes of it. The `Store` class performs these same operations
 * in place.
 */
module TaskDb {
  import opened Wrappers
  import opened CommaLists
  import opened Tasks

  datatype Db = Db(tasks: map<int, Task>, history: seq<HistoryEntry>, lastId: nat)

  ghost predicate Valid(d: Db) {
    WellFormed(d.tasks, d.lastId)
  }

  /** Why a store operation throws. */
  datatype TaskError =
    | NotFound(id: int)
    | AlreadyCompleted(id: int)
    | ClaimedByAgent(id: int, claimant: string)
    | ClaimedBySession(id: int, session: string)
    | FileConflict(id: int, otherId: int, session: string, files: seq<string>)

  /** The arguments of `addTask`; `None` is an omitted argument. */
  datatype NewTask = NewTask(
    title: string,
    priority: Option<Priority>,
    groupName: Option<string>,
    category: Option<string>,
    description: Option<string>,
    filesAffected: Option<string>,
    tests: Option<string>,
    blockedBy: Option<string>,
    model: Option<string>,
    reviews: Option<string>,
    parentTaskId: Option<int>,
    iteration: Option<int>)

  /** `n || null` on a number: zero is falsy. */
  function ZeroToNull(o: Option<int>): (r: Option<int>)
    ensures r.Some? ==> r.value != 0 && r == o
    ensures o.Some? && o.value != 0 ==> r == o
  {
    if o == Some(0) then None else o
  }

  /** The row `addTask` inserts under a fresh id. */
  function NewRow(id: int, n: NewTask, now: Clock): Task {
    Task(id, n.title, n.priority.GetOr(Medium), Ready,
         NullIfEmpty(n.groupName), NullIfEmpty(n.category), NullIfEmpty(n.description),
         None, NullIfEmpty(n.filesAffected), NullIfEmpty(n.tests), NullIfEmpty(n.blockedBy),
         None, None, None, None, None, None,
         n.model.GetOr("sonnet"), NullIfEmpty(n.reviews),
         ZeroToNull(n.parentTaskId), ZeroToNull(n.iteration), now.sql, now.sql)
  }

  /** `addTask`: inserts a row and returns its id (`last_insert_rowid()`). */
  function AddTask(d: Db, n: NewTask, now: Clock): (r: (Db, int)) {
    var id := d.lastId + 1;
    (d.(tasks := d.tasks[id := NewRow(id, n, now)], lastId := id), id)
  }

  /** A new task gets the next id and status `ready` (also when it names dependencies), priority MEDIUM and model `sonnet` unless given; nothing else changes. */
  lemma AddTaskFacts(d: Db, n: NewTask, now: Clock)
    requires Valid(d)
    ensures var (r, id) := AddTask(d, n, now);
      && Valid(r) && id !in d.tasks && id in r.tasks && id == d.lastId + 1
      && r.tasks[id].status == Ready
      && (n.priority.None? ==> r.tasks[id].priority == Medium)
      && (n.model.None? ==> r.tasks[id].model == "sonnet")
      && r.tasks[id].title == n.title
      && (Truthy(n.blockedBy) ==> r.tasks[id].blockedBy == n.blockedBy)
      && !Truthy(r.tasks[id].claimedBy) && r.tasks[id].iteration != Some(0)
      && (forall k :: k in d.tasks ==> r.tasks[k] == d.tasks[k])
      && r.history == d.history
  {
  }

  /** `addHistory`: appends one entry to the log. */
  function AddHistory(d: Db, taskId: int, action: string, agent: Option<string>, oldValue: Option<string>,
                      newValue: Option<string>, now: Clock): Db {
    d.(history := d.history + [Entry(taskId, action, agent, oldValue, newValue, now)])
  }

  /** The entries `updateTask` logs: one `update_<column>` per update, carrying only the new value. */
  function UpdateLog(id: int, us: seq<Update>, now: Clock): seq<HistoryEntry> {
    seq(|us|, i requires 0 <= i < |us| =>
      Entry(id, "update_" + ColumnName(ColumnOf(us[i])), None, None, ValueText(NewValue(us[i])), now))
  }

  /**
   * `updateTask`: nothing happens for an empty update; otherwise the row (if any) is patched and
   * its `updated_at` refreshed, and the log grows by one entry per update even when no row has the id.
   */
  function UpdateTask(d: Db, id: int, us: seq<Update>, now: Clock): Db {
    if us == [] then d
    else
      d.(tasks := if id in d.tasks then d.tasks[id := Patch(d.tasks[id], us).(updatedAt := now.sql)] else d.tasks,
         history := d.history + UpdateLog(id, us, now))
  }

  /** Row `id` of `r` is row `id` of `d` with the updates applied and `updated_at` refreshed; every other row is kept. */
  ghost predicate RowPatched(d: Db, r: Db, id: int, us: seq<Update>, now: Clock) {
    && r.lastId == d.lastId
    && r.tasks.Keys == d.tasks.Keys
    && (forall k :: k in d.tasks && k != id ==> r.tasks[k] == d.tasks[k])
    && (id in d.tasks ==>
          && (forall i :: 0 <= i < |us| ==> Get(r.tasks[id], ColumnOf(us[i])) == NewValue(us[i]))
          && (forall c :: !Names(us, c) && c != UpdatedAtCol ==> Get(r.tasks[id], c) == Get(d.tasks[id], c))
          && r.tasks[id].updatedAt == now.sql)
  }

  /** `updateTask` changes exactly the given columns of the one row and logs one entry per column; an empty update changes nothing. */
  lemma UpdateTaskFacts(d: Db, id: int, us: seq<Update>, now: Clock)
    requires Valid(d) && DistinctColumns(us)
    ensures us == [] ==> UpdateTask(d, id, us, now) == d
    ensures us != [] ==> RowPatched(d, UpdateTask(d, id, us, now), id, us, now)
    ensures Valid(UpdateTask(d, id, us, now))
    ensures UpdateTask(d, id, us, now).history == d.history + UpdateLog(id, us, now)
      || (us == [] && UpdateTask(d, id, us, now).history == d.history)
    ensures forall i :: 0 <= i < |us| ==>
      var e := UpdateLog(id, us, now)[i];
      e.taskId == id && e.action == "update_" + ColumnName(ColumnOf(us[i]))
      && e.agent.None? && e.oldValue.None? && e.newValue == NullIfEmpty(ValueText(NewValue(us[i])))
  {
    if us != [] {
      var r := UpdateTask(d, id, us, now);
      assert r.lastId == d.lastId && r.history == d.history + UpdateLog(id, us, now);
      UpdatedRow(d, id, us, now);
    }
  }

  /** Refreshing `updated_at` keeps every other column. */
  lemma StampKeeps(t: Task, stamp: string, c: Column)
    requires c != UpdatedAtCol
    ensures Get(t.(updatedAt := stamp), c) == Get(t, c)
  {
  }

  /** The row half of `UpdateTaskFacts`, for a non-empty update. */
  lemma UpdatedRow(d: Db, id: int, us: seq<Update>, now: Clock)
    requires DistinctColumns(us) && us != []
    ensures RowPatched(d, UpdateTask(d, id, us, now), id, us, now)
  {
    var r := UpdateTask(d, id, us, now);
    if id in d.tasks {
      var p := Patch(d.tasks[id], us);
      PatchColumns(d.tasks[id], us);
      var q := p.(updatedAt := now.sql);
      assert r.tasks == d.tasks[id := q];
      forall i | 0 <= i < |us| ensures Get(q, ColumnOf(us[i])) == NewValue(us[i]) {
        StampKeeps(p, now.sql, ColumnOf(us[i]));
      }
      forall c | !Names(us, c) && c != UpdatedAtCol ensures Get(q, c) == Get(d.tasks[id], c) {
        StampKeeps(p, now.sql, c);
      }
    } else {
      assert r.tasks == d.tasks;
    }
  }

  /** The value shown for a nullable string inside a template literal. */
  function Shown(o: Option<string>): string {
    if o.Some? then o.value else "null"
  }

  /** The four ways `claimTask` refuses, checked in the source's order. */
  function ClaimCheck(d: Db, id: int, agent: string, session: Option<string>): (r: Outcome<TaskError>)
    ensures r.Pass? ==> id in d.tasks
  {
    if id !in d.tasks then Fail(NotFound(id))
    else
      var t := d.tasks[id];
      if t.status == Completed then Fail(AlreadyCompleted(id))
      else if Truthy(t.claimedBy) && t.claimedBy.value != agent then Fail(ClaimedByAgent(id, t.claimedBy.value))
      else if Truthy(session) && Truthy(t.claimedBySession) && t.claimedBySession != session then
        Fail(ClaimedBySession(id, t.claimedBySession.value))
      else Pass
  }

  function ClaimUpdates(agent: string, session: Option<string>, now: Clock): seq<Update> {
    [SetStatus(InProgress), SetClaimedBy(Some(agent)), SetClaimedBySession(session), SetClaimedAt(Some(now.iso))]
  }

  function ClaimNote(agent: string, session: Option<string>): string {
    if Truthy(session) then agent + " (session: " + session.value + ")" else agent
  }

  /** `claimTask` */
  function Claim(d: Db, id: int, agent: string, session: Option<string>, now: Clock): (Db, Outcome<TaskError>) {
    var check := ClaimCheck(d, id, agent, session);
    if check.Fail? then (d, check)
    else
      var prior := d.tasks[id].status;
      var d1 := UpdateTask(d, id, ClaimUpdates(agent, session, now), now);
      (AddHistory(d1, id, "claim", Some(ClaimNote(agent, session)), Some(StatusName(prior)), Some("in_progress"), now), Pass)
  }

  /**
   * `claimTask` refuses, writing nothing, exactly when the id is missing, the task is completed,
   * another agent holds it, or a session is given and another session holds it. Otherwise the task
   * becomes `in_progress`, held by the agent and the session (null when none is given) since now,
   * no other column or row changes, and the log gains the four column updates and then a `claim`
   * entry for the task, naming the agent (with the session when one is given), from the prior status
   * to `in_progress`.
   */
  lemma ClaimFacts(d: Db, id: int, agent: string, session: Option<string>, now: Clock)
    requires Valid(d)
    ensures var (r, out) := Claim(d, id, agent, session, now);
      && (out.Fail? <==>
            || id !in d.tasks
            || d.tasks[id].status == Completed
            || (Truthy(d.tasks[id].claimedBy) && d.tasks[id].claimedBy != Some(agent))
            || (Truthy(session) && Truthy(d.tasks[id].claimedBySession) && d.tasks[id].claimedBySession != session))
      && (out.Fail? ==> r == d)
      && (out.Pass? ==>
            && Valid(r)
            && r.lastId == d.lastId
            && r.tasks == d.tasks[id := d.tasks[id].(status := InProgress, claimedBy := Some(agent),
                                                     claimedBySession := session, claimedAt := Some(now.iso),
                                                     updatedAt := now.sql)]
            && r.history == d.history + UpdateLog(id, ClaimUpdates(agent, session, now), now)
                 + [Entry(id, "claim", Some(ClaimNote(agent, session)), Some(StatusName(d.tasks[id].status)), Some("in_progress"), now)])
  {
    var us := ClaimUpdates(agent, session, now);
    if ClaimCheck(d, id, agent, session).Pass? {
      PatchFour(d.tasks[id], us[0], us[1], us[2], us[3]);
    }
  }

  function ReleaseUpdates(): seq<Update> {
    [SetStatus(Ready), SetClaimedBy(None), SetClaimedBySession(None), SetClaimedAt(None)]
  }

  /** The agent recorded for a release: the claimant, with its session when there is one. */
  function ReleaseNote(t: Task): Option<string> {
    if Truthy(t.claimedBySession) then Some(Shown(t.claimedBy) + " (session: " + t.claimedBySession.value + ")")
    else t.claimedBy
  }

  /** `releaseTask` */
  function Release(d: Db, id: int, now: Clock): (Db, Outcome<TaskError>) {
    if id !in d.tasks then (d, Fail(NotFound(id)))
    else
      var d1 := UpdateTask(d, id, ReleaseUpdates(), now);
      (AddHistory(d1, id, "release", ReleaseNote(d.tasks[id]), Some("in_progress"), Some("ready"), now), Pass)
  }

  /**
   * `releaseTask` fails only on a missing id; whatever the prior status, the task becomes `ready` with
   * all three claim fields null and nothing else changes, and the log gains a `release` entry naming
   * the prior claimant, with its session when it had one.
   */
  lemma ReleaseFacts(d: Db, id: int, now: Clock)
    requires Valid(d)
    ensures var (r, out) := Release(d, id, now);
      && (out.Fail? <==> id !in d.tasks)
      && (out.Fail? ==> r == d)
      && (out.Pass? ==>
            && Valid(r)
            && r.lastId == d.lastId
            && r.tasks == d.tasks[id := d.tasks[id].(status := Ready, claimedBy := None, claimedBySession := None,
                                                     claimedAt := None, updatedAt := now.sql)]
            && r.history == d.history + UpdateLog(id, ReleaseUpdates(), now)
                 + [Entry(id, "release", ReleaseNote(d.tasks[id]), Some("in_progress"), Some("ready"), now)])
  {
    var us := ReleaseUpdates();
    if id in d.tasks {
      PatchFour(d.tasks[id], us[0], us[1], us[2], us[3]);
    }
  }

  function BlockUpdates(reason: string): seq<Update> {
    [SetStatus(Blocked), SetFixRequired(Some(reason))]
  }

  /** `blockTask` */
  function Block(d: Db, id: int, reason: string, now: Clock): (Db, Outcome<TaskError>) {
    if id !in d.tasks then (d, Fail(NotFound(id)))
    else
      var prior := d.tasks[id].status;
      var d1 := UpdateTask(d, id, BlockUpdates(reason), now);
      (AddHistory(d1, id, "block", None, Some(StatusName(prior)), Some("blocked"), now), Pass)
  }

  /** `blockTask` fails only on a missing id; otherwise the task is `blocked` with the reason as `fix_required`, its claim kept, and a `block` entry from the prior status is logged. */
  lemma BlockFacts(d: Db, id: int, reason: string, now: Clock)
    requires Valid(d)
    ensures var (r, out) := Block(d, id, reason, now);
      && (out.Fail? <==> id !in d.tasks)
      && (out.Fail? ==> r == d)
      && (out.Pass? ==>
            && Valid(r)
            && r.lastId == d.lastId
            && r.tasks == d.tasks[id := d.tasks[id].(status := Blocked, fixRequired := Some(reason), updatedAt := now.sql)]
            && r.history == d.history + UpdateLog(id, BlockUpdates(reason), now)
                 + [Entry(id, "block", None, Some(StatusName(d.tasks[id].status)), Some("blocked"), now)])
  {
    var us := BlockUpdates(reason);
    if id in d.tasks {
      PatchTwo(d.tasks[id], us[0], us[1]);
    }
  }

  function UnblockUpdates(): seq<Update> {
    [SetStatus(Ready), SetFixRequired(None)]
  }

  /** `unblockTask` */
  function Unblock(d: Db, id: int, now: Clock): (Db, Outcome<TaskError>) {
    if id !in d.tasks then (d, Fail(NotFound(id)))
    else
      var d1 := UpdateTask(d, id, UnblockUpdates(), now);
      (AddHistory(d1, id, "unblock", None, Some("blocked"), Some("ready"), now), Pass)
  }

  /** `unblockTask` fails only on a missing id; whatever the prior status, the task becomes `ready` with `fix_required` null, its dependency list kept, and an `unblock` entry is logged. */
  lemma UnblockFacts(d: Db, id: int, now: Clock)
    requires Valid(d)
    ensures var (r, out) := Unblock(d, id, now);
      && (out.Fail? <==> id !in d.tasks)
      && (out.Fail? ==> r == d)
      && (out.Pass? ==>
            && Valid(r)
            && r.lastId == d.lastId
            && r.tasks == d.tasks[id := d.tasks[id].(status := Ready, fixRequired := None, updatedAt := now.sql)]
            && r.history == d.history + UpdateLog(id, UnblockUpdates(), now)
                 + [Entry(id, "unblock", None, Some("blocked"), Some("ready"), now)])
  {
    var us := UnblockUpdates();
    if id in d.tasks {
      PatchTwo(d.tasks[id], us[0], us[1]);
    }
  }

  const BlockedOnly := AnyTask.(status := Some(Blocked))

  /** The body of the `autoUnblockDependents` loop for task `id` with dependencies `deps`; the flag says whether it became ready. */
  function UnblockStep(d: Db, x: int, id: int, deps: seq<int>, now: Clock): (Db, bool) {
    if x !in deps then (d, false)
    else
      var remaining := Without(deps, x);
      if remaining == [] then
        var d1 := UpdateTask(d, id, [SetStatus(Ready), SetBlockedBy(None)], now);
        (AddHistory(d1, id, "auto-unblock", None, Some("blocked"), Some("ready"), now), true)
      else
        (UpdateTask(d, id, [SetBlockedBy(Some(JoinIds(remaining)))], now), false)
  }

  /** The loop of `autoUnblockDependents` over the pending tasks, in order, with the ids it made ready. */
  function UnblockSteps(d: Db, x: int, pending: seq<(int, seq<int>)>, now: Clock): (Db, seq<int>)
    decreases |pending|
  {
    if pending == [] then (d, [])
    else
      var (d1, ready) := UnblockStep(d, x, pending[0].0, pending[0].1, now);
      var (r, ids) := UnblockSteps(d1, x, pending[1..], now);
      (r, if ready then [pending[0].0] + ids else ids)
  }

  /** `autoUnblockDependents(x)`: one pass over the `blocked` listing, taken before any change. */
  function AutoUnblock(d: Db, x: int, now: Clock): (Db, seq<int>) {
    UnblockSteps(d, x, DepLists(Listing(d.tasks, d.lastId, BlockedOnly)), now)
  }

  /** A dependency list that names `x` and nothing else. */
  predicate FreedBy(deps: seq<int>, x: int) {
    x in deps && Without(deps, x) == []
  }

  /** The ids of the pending tasks that `x` frees, in order. */
  function Freed(pending: seq<(int, seq<int>)>, x: int): (r: seq<int>)
    ensures forall k :: k in r <==> exists p :: p in pending && p.0 == k && FreedBy(p.1, x)
  {
    if pending == [] then []
    else if FreedBy(pending[0].1, x) then [pending[0].0] + Freed(pending[1..], x)
    else Freed(pending[1..], x)
  }

  /** The entry `autoUnblockDependents` logs for a task it frees. */
  function AutoUnblockEntry(id: int, now: Clock): HistoryEntry {
    Entry(id, "auto-unblock", None, Some("blocked"), Some("ready"), now)
  }

  /** One `auto-unblock` entry per freed id, in order. */
  function AutoUnblockLog(ids: seq<int>, now: Clock): (log: seq<HistoryEntry>)
    ensures |log| == |ids|
    ensures forall i :: 0 <= i < |ids| ==>
      (log[i].taskId == ids[i] && log[i].action == "auto-unblock"
       && log[i].oldValue == Some("blocked") && log[i].newValue == Some("ready"))
  {
    seq(|ids|, i requires 0 <= i < |ids| => AutoUnblockEntry(ids[i], now))
  }

  /** The `auto-unblock` entries of a log, in log order. */
  function AutoUnblocks(log: seq<HistoryEntry>): (r: seq<HistoryEntry>)
    ensures |r| <= |log|
    ensures forall e :: e in r ==> e in log && e.action == "auto-unblock"
  {
    if log == [] then []
    else
      assert forall e :: e in log[1..] ==> e in log;
      (if log[0].action == "auto-unblock" then [log[0]] else []) + AutoUnblocks(log[1..])
  }

  lemma {:induction false} AutoUnblocksConcat(a: seq<HistoryEntry>, b: seq<HistoryEntry>)
    ensures AutoUnblocks(a + b) == AutoUnblocks(a) + AutoUnblocks(b)
    decreases |a|
  {
    if a == [] {
      assert a + b == b;
    } else {
      assert (a + b)[0] == a[0] && (a + b)[1..] == a[1..] + b;
      AutoUnblocksConcat(a[1..], b);
    }
  }

  lemma AutoUnblockLogConcat(a: seq<int>, b: seq<int>, now: Clock)
    ensures AutoUnblockLog(a + b, now) == AutoUnblockLog(a, now) + AutoUnblockLog(b, now)
  {
    var l, la, lb := AutoUnblockLog(a + b, now), AutoUnblockLog(a, now), AutoUnblockLog(b, now);
    forall i | 0 <= i < |l| ensures l[i] == (la + lb)[i] {
      if i < |a| {
        assert (a + b)[i] == a[i];
      } else {
        assert (a + b)[i] == b[i - |a|];
      }
    }
  }

  /** `updateTask` logs no `auto-unblock` entry: every entry it writes is an `update_` action. */
  lemma {:induction false} UpdateLogQuiet(id: int, us: seq<Update>, now: Clock)
    ensures AutoUnblocks(UpdateLog(id, us, now)) == []
    decreases |us|
  {
    if us != [] {
      var log := UpdateLog(id, us, now);
      assert log[0].action[0] == 'u';
      assert log[1..] == UpdateLog(id, us[1..], now);
      UpdateLogQuiet(id, us[1..], now);
    }
  }

  /** What one step adds to the log, keeping only its `auto-unblock` entries. */
  lemma StepLogTail(d: Db, x: int, id: int, deps: seq<int>, now: Clock)
    ensures var (r, _) := UnblockStep(d, x, id, deps, now);
      && d.history <= r.history
      && AutoUnblocks(r.history[|d.history|..]) == (if FreedBy(deps, x) then [AutoUnblockEntry(id, now)] else [])
  {
    var (r, _) := UnblockStep(d, x, id, deps, now);
    if x in deps {
      var remaining := Without(deps, x);
      if remaining == [] {
        var us := [SetStatus(Ready), SetBlockedBy(None)];
        UpdateLogQuiet(id, us, now);
        assert r.history[|d.history|..] == UpdateLog(id, us, now) + [AutoUnblockEntry(id, now)];
        AutoUnblocksConcat(UpdateLog(id, us, now), [AutoUnblockEntry(id, now)]);
        assert AutoUnblocks([AutoUnblockEntry(id, now)]) == [AutoUnblockEntry(id, now)];
      } else {
        var us := [SetBlockedBy(Some(JoinIds(remaining)))];
        UpdateLogQuiet(id, us, now);
        assert r.history[|d.history|..] == UpdateLog(id, us, now);
      }
    } else {
      assert r.history[|d.history|..] == [];
    }
  }

  /**
   * The loop logs exactly one `auto-unblock` entry per task it frees, in loop order, with
   * `blocked` as the old value and `ready` as the new one; earlier entries are kept.
   */
  lemma {:induction false} UnblockStepsLog(d: Db, x: int, pending: seq<(int, seq<int>)>, now: Clock)
    ensures var (r, _) := UnblockSteps(d, x, pending, now);
      && d.history <= r.history
      && AutoUnblocks(r.history[|d.history|..]) == AutoUnblockLog(Freed(pending, x), now)
    decreases |pending|
  {
    if pending == [] {
      assert UnblockSteps(d, x, pending, now).0.history[|d.history|..] == [];
    } else {
      var d1 := UnblockStep(d, x, pending[0].0, pending[0].1, now).0;
      UnblockStepsLog(d1, x, pending[1..], now);
      StepsLogCons(d, x, pending, now);
    }
  }

  /** The inductive step of `UnblockStepsLog`: the first step's entries, then the rest of the loop's. */
  lemma StepsLogCons(d: Db, x: int, pending: seq<(int, seq<int>)>, now: Clock)
    requires pending != []
    requires var d1 := UnblockStep(d, x, pending[0].0, pending[0].1, now).0;
      var r := UnblockSteps(d1, x, pending[1..], now).0;
      d1.history <= r.history && AutoUnblocks(r.history[|d1.history|..]) == AutoUnblockLog(Freed(pending[1..], x), now)
    ensures var r := UnblockSteps(d, x, pending, now).0;
      d.history <= r.history && AutoUnblocks(r.history[|d.history|..]) == AutoUnblockLog(Freed(pending, x), now)
  {
    var p0, rest := pending[0], pending[1..];
    var d1 := UnblockStep(d, x, p0.0, p0.1, now).0;
    var r := UnblockSteps(d1, x, rest, now).0;
    StepsCons(d, x, pending, now);
    StepLogTail(d, x, p0.0, p0.1, now);
    var head := if FreedBy(p0.1, x) then [p0.0] else [];
    FreedCons(pending, x);
    LogOfOne(p0.0, now);
    AutoUnblocksChain(d.history, d1.history, r.history, head, Freed(rest, x), now);
  }

  lemma StepsCons(d: Db, x: int, pending: seq<(int, seq<int>)>, now: Clock)
    requires pending != []
    ensures UnblockSteps(d, x, pending, now).0
         == UnblockSteps(UnblockStep(d, x, pending[0].0, pending[0].1, now).0, x, pending[1..], now).0
  {
  }

  lemma FreedCons(pending: seq<(int, seq<int>)>, x: int)
    requires pending != []
    ensures Freed(pending, x) == (if FreedBy(pending[0].1, x) then [pending[0].0] else []) + Freed(pending[1..], x)
  {
  }

  lemma LogOfOne(id: int, now: Clock)
    ensures AutoUnblockLog([], now) == []
    ensures AutoUnblockLog([id], now) == [AutoUnblockEntry(id, now)]
  {
  }

  /** Two log extensions in a row: the `auto-unblock` entries of the whole are those of each part. */
  lemma AutoUnblocksChain(a: seq<HistoryEntry>, b: seq<HistoryEntry>, c: seq<HistoryEntry>, ids1: seq<int>, ids2: seq<int>, now: Clock)
    requires a <= b <= c
    requires AutoUnblocks(b[|a|..]) == AutoUnblockLog(ids1, now)
    requires AutoUnblocks(c[|b|..]) == AutoUnblockLog(ids2, now)
    ensures a <= c
    ensures AutoUnblocks(c[|a|..]) == AutoUnblockLog(ids1 + ids2, now)
  {
    SuffixSplit(a, b, c);
    AutoUnblocksConcat(b[|a|..], c[|b|..]);
    AutoUnblockLogConcat(ids1, ids2, now);
  }

  lemma SuffixSplit<T>(a: seq<T>, b: seq<T>, c: seq<T>)
    requires a <= b <= c
    ensures a <= c && c[|a|..] == b[|a|..] + c[|b|..]
  {
    assert c[|a|..] == b[|a|..] + c[|b|..];
  }

  predicate DistinctIds(pending: seq<(int, seq<int>)>) {
    forall i, j :: 0 <= i < j < |pending| ==> pending[i].0 != pending[j].0
  }

  /** Freeing a task: it becomes `ready` with no dependency list, and nothing else in the table changes. */
  lemma FreeStepFacts(d: Db, id: int, now: Clock)
    requires Valid(d) && id in d.tasks
    ensures var r := UpdateTask(d, id, [SetStatus(Ready), SetBlockedBy(None)], now);
      && Valid(r) && r.tasks.Keys == d.tasks.Keys
      && (forall k :: k in d.tasks && k != id ==> r.tasks[k] == d.tasks[k])
      && r.tasks[id].status == Ready && r.tasks[id].blockedBy.None?
      && d.history <= r.history
  {
    var us := [SetStatus(Ready), SetBlockedBy(None)];
    UpdateTaskFacts(d, id, us, now);
    var r := UpdateTask(d, id, us, now);
    assert Get(r.tasks[id], ColumnOf(us[0])) == NewValue(us[0]);
    assert Get(r.tasks[id], ColumnOf(us[1])) == NewValue(us[1]);
  }

  /** Storing a reduced dependency list keeps the status and changes nothing else in the table. */
  lemma ReduceStepFacts(d: Db, id: int, list: string, now: Clock)
    requires Valid(d) && id in d.tasks
    ensures var r := UpdateTask(d, id, [SetBlockedBy(Some(list))], now);
      && Valid(r) && r.tasks.Keys == d.tasks.Keys
      && (forall k :: k in d.tasks && k != id ==> r.tasks[k] == d.tasks[k])
      && r.tasks[id].status == d.tasks[id].status && r.tasks[id].blockedBy == Some(list)
      && d.history <= r.history
  {
    var us := [SetBlockedBy(Some(list))];
    UpdateTaskFacts(d, id, us, now);
    var r := UpdateTask(d, id, us, now);
    assert Get(r.tasks[id], ColumnOf(us[0])) == NewValue(us[0]);
    assert !Names(us, StatusCol);
    assert Get(r.tasks[id], StatusCol) == Get(d.tasks[id], StatusCol);
  }

  /** One step touches only its own row: a freed row becomes `ready` with no dependencies, any other keeps its status with `x` struck from its list. */
  lemma UnblockStepFacts(d: Db, x: int, id: int, deps: seq<int>, now: Clock)
    requires Valid(d) && id in d.tasks
    ensures var (r, ready) := UnblockStep(d, x, id, deps, now);
      && Valid(r)
      && r.tasks.Keys == d.tasks.Keys
      && (forall k :: k in d.tasks && k != id ==> r.tasks[k] == d.tasks[k])
      && (x !in deps ==> r == d)
      && (ready <==> FreedBy(deps, x))
      && (FreedBy(deps, x) ==> r.tasks[id].status == Ready && r.tasks[id].blockedBy.None?)
      && (x in deps && !FreedBy(deps, x) ==>
            r.tasks[id].status == d.tasks[id].status
            && r.tasks[id].blockedBy == Some(JoinIds(Without(deps, x))))
      && d.history <= r.history
  {
    if x in deps {
      var remaining := Without(deps, x);
      if remaining == [] {
        FreeStepFacts(d, id, now);
      } else {
        ReduceStepFacts(d, id, JoinIds(remaining), now);
      }
    }
  }

  /**
   * What one step logs: nothing when `x` is not in the list; for a freed task the two `update_`
   * entries and then `auto-unblock` (blocked to ready); otherwise the one `update_blocked_by` entry.
   */
  lemma UnblockStepLog(d: Db, x: int, id: int, deps: seq<int>, now: Clock)
    ensures var (r, _) := UnblockStep(d, x, id, deps, now);
      && (x !in deps ==> r.history == d.history)
      && (FreedBy(deps, x) ==>
            && r.history == d.history + UpdateLog(id, [SetStatus(Ready), SetBlockedBy(None)], now) + [AutoUnblockEntry(id, now)]
            && |r.history| == |d.history| + 3
            && var e := r.history[|r.history| - 1];
               e.taskId == id && e.action == "auto-unblock" && e.oldValue == Some("blocked") && e.newValue == Some("ready"))
      && (x in deps && !FreedBy(deps, x) ==>
            && r.history == d.history + UpdateLog(id, [SetBlockedBy(Some(JoinIds(Without(deps, x))))], now)
            && |r.history| == |d.history| + 1
            && r.history[|r.history| - 1].action == "update_blocked_by")
  {
    var r := UnblockStep(d, x, id, deps, now).0;
    if x in deps {
      var remaining := Without(deps, x);
      if remaining == [] {
        var us := [SetStatus(Ready), SetBlockedBy(None)];
        assert r.history == d.history + UpdateLog(id, us, now) + [AutoUnblockEntry(id, now)];
      } else {
        var us := [SetBlockedBy(Some(JoinIds(remaining)))];
        assert r.history == d.history + UpdateLog(id, us, now);
        assert r.history[|r.history| - 1] == UpdateLog(id, us, now)[0];
      }
    }
  }

  /** What the loop does to every row: pending rows whose list names `x` are rewritten as one step says, every other row is kept, and the ids returned are the freed ones in loop order. */
  lemma {:induction false} UnblockStepsFacts(d: Db, x: int, pending: seq<(int, seq<int>)>, now: Clock)
    requires Valid(d) && DistinctIds(pending)
    requires forall p :: p in pending ==> p.0 in d.tasks
    ensures var (r, ids) := UnblockSteps(d, x, pending, now);
      && Valid(r)
      && r.tasks.Keys == d.tasks.Keys
      && ids == Freed(pending, x)
      && (forall k :: k in d.tasks && (forall p :: p in pending && p.0 == k ==> x !in p.1) ==> r.tasks[k] == d.tasks[k])
      && (forall p :: p in pending && FreedBy(p.1, x) ==> r.tasks[p.0].status == Ready && r.tasks[p.0].blockedBy.None?)
      && (forall p :: p in pending && x in p.1 && !FreedBy(p.1, x) ==>
            r.tasks[p.0].status == d.tasks[p.0].status
            && r.tasks[p.0].blockedBy == Some(JoinIds(Without(p.1, x))))
      && d.history <= r.history
    decreases |pending|
  {
    if pending != [] {
      var p0 := pending[0];
      var rest := pending[1..];
      var (d1, ready) := UnblockStep(d, x, p0.0, p0.1, now);
      UnblockStepFacts(d, x, p0.0, p0.1, now);
      assert DistinctIds(rest) by {
        forall i, j | 0 <= i < j < |rest| ensures rest[i].0 != rest[j].0 {
          assert rest[i] == pending[i + 1] && rest[j] == pending[j + 1];
        }
      }
      assert forall p :: p in rest ==> p.0 != p0.0 by {
        forall p | p in rest ensures p.0 != p0.0 {
          var j :| 0 <= j < |rest| && rest[j] == p;
          assert pending[j + 1] == p;
        }
      }
      UnblockStepsFacts(d1, x, rest, now);
    }
  }

  /** Every listed id is a row, each sorting strictly before the ones after it. */
  ghost predicate SortedIds(ids: seq<int>, tasks: map<int, Task>) {
    && (forall i :: 0 <= i < |ids| ==> ids[i] in tasks)
    && (forall i, j :: 0 <= i < j < |ids| ==> ids[i] in tasks && ids[j] in tasks && Before(tasks[ids[i]], tasks[ids[j]]))
  }

  /** The freed ids keep the loop's order. */
  lemma {:induction false} FreedSorted(pending: seq<(int, seq<int>)>, x: int, tasks: map<int, Task>)
    requires SortedIds(seq(|pending|, i requires 0 <= i < |pending| => pending[i].0), tasks)
    ensures SortedIds(Freed(pending, x), tasks)
    decreases |pending|
  {
    if pending != [] {
      var ids := seq(|pending|, i requires 0 <= i < |pending| => pending[i].0);
      var rest := pending[1..];
      var restIds := seq(|rest|, i requires 0 <= i < |rest| => rest[i].0);
      assert restIds == ids[1..];
      FreedSorted(rest, x, tasks);
      if FreedBy(pending[0].1, x) {
        var f := Freed(rest, x);
        assert ids[0] in tasks;
        forall j | 0 <= j < |f| ensures Before(tasks[pending[0].0], tasks[f[j]]) {
          assert f[j] in f;
          var p :| p in rest && p.0 == f[j] && FreedBy(p.1, x);
          var k :| 0 <= k < |rest| && rest[k] == p;
          assert ids[k + 1] == f[j];
        }
      }
    }
  }

  /** Each pending entry is a blocked row of the store with its parsed list, and no row comes twice. */
  lemma PendingRows(d: Db)
    requires Valid(d)
    ensures var pending := DepLists(Listing(d.tasks, d.lastId, BlockedOnly));
      && DistinctIds(pending)
      && (forall p :: p in pending ==> p.0 in d.tasks && d.tasks[p.0].status == Blocked && p.1 == Deps(d.tasks[p.0]))
  {
    var ts := Listing(d.tasks, d.lastId, BlockedOnly);
    var pending := DepLists(ts);
    ListingMembers(d.tasks, d.lastId, BlockedOnly);
    ListingDistinct(d.tasks, d.lastId, BlockedOnly);
    forall p | p in pending ensures p.0 in d.tasks && d.tasks[p.0].status == Blocked && p.1 == Deps(d.tasks[p.0]) {
      var i :| 0 <= i < |pending| && pending[i] == p;
      assert ts[i] in ts;
    }
  }

  /** Every blocked row of the store is pending. */
  lemma PendingCovers(d: Db)
    requires Valid(d)
    ensures var pending := DepLists(Listing(d.tasks, d.lastId, BlockedOnly));
      forall k :: k in d.tasks && d.tasks[k].status == Blocked ==> (k, Deps(d.tasks[k])) in pending
  {
    var ts := Listing(d.tasks, d.lastId, BlockedOnly);
    var pending := DepLists(ts);
    ListingMembers(d.tasks, d.lastId, BlockedOnly);
    forall k | k in d.tasks && d.tasks[k].status == Blocked ensures (k, Deps(d.tasks[k])) in pending {
      assert d.tasks[k] in ts;
      var i :| 0 <= i < |ts| && ts[i] == d.tasks[k];
      assert pending[i] == (k, Deps(d.tasks[k]));
    }
  }

  /** The pending ids come in listing order. */
  lemma PendingSorted(d: Db)
    requires Valid(d)
    ensures var pending := DepLists(Listing(d.tasks, d.lastId, BlockedOnly));
      SortedIds(seq(|pending|, i requires 0 <= i < |pending| => pending[i].0), d.tasks)
  {
    var ts := Listing(d.tasks, d.lastId, BlockedOnly);
    ListingMembers(d.tasks, d.lastId, BlockedOnly);
    ListingOrdered(d.tasks, d.lastId, BlockedOnly);
    StoredRowsSorted(ts, d.tasks);
  }

  /** Stored rows in `Before` order give their ids in that order. */
  lemma StoredRowsSorted(ts: seq<Task>, tasks: map<int, Task>)
    requires Ordered(ts)
    requires forall t :: t in ts ==> t.id in tasks && tasks[t.id] == t
    ensures var pending := DepLists(ts);
      SortedIds(seq(|pending|, i requires 0 <= i < |pending| => pending[i].0), tasks)
  {
    var pending := DepLists(ts);
    var ids := seq(|pending|, i requires 0 <= i < |pending| => pending[i].0);
    forall i | 0 <= i < |ids| ensures ids[i] in tasks && tasks[ids[i]] == ts[i] {
      assert ts[i] in ts;
    }
  }

  /**
   * `autoUnblockDependents(x)` touches only `blocked` tasks whose dependency list names `x`.
   * A task left with no dependency becomes `ready` with `blocked_by` cleared; any other stays
   * `blocked` with the reduced list stored, which reads back as exactly the remaining ids.
   * The log keeps its old entries and gains one `auto-unblock` entry per task returned, in order.
   */
  lemma AutoUnblockRows(d: Db, x: int, now: Clock)
    requires Valid(d)
    ensures var (r, ids) := AutoUnblock(d, x, now);
      && d.history <= r.history
      && AutoUnblocks(r.history[|d.history|..]) == AutoUnblockLog(ids, now)
    ensures var (r, _) := AutoUnblock(d, x, now);
      && Valid(r)
      && r.tasks.Keys == d.tasks.Keys
      && (forall k :: k in d.tasks && (d.tasks[k].status != Blocked || x !in Deps(d.tasks[k])) ==> r.tasks[k] == d.tasks[k])
      && (forall k :: k in d.tasks && d.tasks[k].status == Blocked && FreedBy(Deps(d.tasks[k]), x) ==>
            r.tasks[k].status == Ready && r.tasks[k].blockedBy.None?)
      && (forall k :: k in d.tasks && d.tasks[k].status == Blocked && x in Deps(d.tasks[k]) && !FreedBy(Deps(d.tasks[k]), x) ==>
            r.tasks[k].status == Blocked
            && Deps(r.tasks[k]) == Without(Deps(d.tasks[k]), x))
      && d.history <= r.history
  {
    var pending := DepLists(Listing(d.tasks, d.lastId, BlockedOnly));
    PendingRows(d);
    PendingCovers(d);
    UnblockStepsFacts(d, x, pending, now);
    UnblockStepsLog(d, x, pending, now);
    var (r, ids) := UnblockSteps(d, x, pending, now);
    forall k | k in d.tasks && (d.tasks[k].status != Blocked || x !in Deps(d.tasks[k])) ensures r.tasks[k] == d.tasks[k] {
      assert forall p :: p in pending && p.0 == k ==> x !in p.1;
    }
    forall k | k in d.tasks && d.tasks[k].status == Blocked && x in Deps(d.tasks[k]) && !FreedBy(Deps(d.tasks[k]), x)
      ensures r.tasks[k].status == Blocked && Deps(r.tasks[k]) == Without(Deps(d.tasks[k]), x)
    {
      var w := Without(Deps(d.tasks[k]), x);
      assert (k, Deps(d.tasks[k])) in pending;
      assert forall e :: e in w ==> e != 0;
      IdListRoundTrip(w);
    }
  }

  /** The ids `autoUnblockDependents(x)` returns are exactly the blocked tasks it freed, in priority-then-id order. */
  lemma AutoUnblockReturns(d: Db, x: int, now: Clock)
    requires Valid(d)
    ensures var (_, ids) := AutoUnblock(d, x, now);
      && (forall k :: k in ids <==> k in d.tasks && d.tasks[k].status == Blocked && FreedBy(Deps(d.tasks[k]), x))
      && SortedIds(ids, d.tasks)
  {
    var pending := DepLists(Listing(d.tasks, d.lastId, BlockedOnly));
    PendingRows(d);
    PendingCovers(d);
    PendingSorted(d);
    UnblockStepsFacts(d, x, pending, now);
    FreedSorted(pending, x, d.tasks);
    forall k | k in d.tasks && d.tasks[k].status == Blocked && FreedBy(Deps(d.tasks[k]), x) ensures k in Freed(pending, x) {
      assert (k, Deps(d.tasks[k])) in pending;
    }
  }

  /** `agent || task.claimed_by`: who is recorded as completing the task. */
  function Completer(t: Task, agent: Option<string>): Option<string> {
    if Truthy(agent) then agent else t.claimedBy
  }

  function CompleteUpdates(t: Task, summary: string, agent: Option<string>, now: Clock): seq<Update> {
    [SetStatus(Completed), SetCompletedAt(Some(now.iso)), SetCompletedBy(Completer(t, agent)), SetCompletionSummary(Some(summary))]
  }

  /** The writes of `completeTask` before it runs `autoUnblockDependents`. */
  function CompletionWrites(d: Db, id: int, summary: string, agent: Option<string>, now: Clock): Db
    requires id in d.tasks
  {
    var t := d.tasks[id];
    var d1 := UpdateTask(d, id, CompleteUpdates(t, summary, agent, now), now);
    AddHistory(d1, id, "complete", Completer(t, agent), Some(StatusName(t.status)), Some("completed"), now)
  }

  /** `completeTask`: the completion writes, then `autoUnblockDependents(id)`, whose list it returns. */
  function Complete(d: Db, id: int, summary: string, agent: Option<string>, now: Clock): (Db, Result<seq<int>, TaskError>) {
    if id !in d.tasks then (d, Failure(NotFound(id)))
    else
      var (r, unblocked) := AutoUnblock(CompletionWrites(d, id, summary, agent, now), id, now);
      (r, Success(unblocked))
  }

  /** The completion writes pin the row and log a `complete` entry naming the completer, from the prior status. */
  lemma CompletionWritesFacts(d: Db, id: int, summary: string, agent: Option<string>, now: Clock)
    requires Valid(d) && id in d.tasks
    ensures var m := CompletionWrites(d, id, summary, agent, now);
      && Valid(m) && m.lastId == d.lastId
      && m.tasks == d.tasks[id := d.tasks[id].(status := Completed, completedAt := Some(now.iso),
                                               completedBy := Completer(d.tasks[id], agent),
                                               completionSummary := Some(summary), updatedAt := now.sql)]
      && m.history == d.history + UpdateLog(id, CompleteUpdates(d.tasks[id], summary, agent, now), now)
           + [Entry(id, "complete", Completer(d.tasks[id], agent), Some(StatusName(d.tasks[id].status)), Some("completed"), now)]
      && d.history < m.history
  {
    var us := CompleteUpdates(d.tasks[id], summary, agent, now);
    PatchFour(d.tasks[id], us[0], us[1], us[2], us[3]);
  }

  /**
   * `completeTask` fails only on a missing id, whatever the prior status (a completed task can be
   * completed again). Otherwise the task ends `completed`, recorded as completed by the given agent
   * or else its claimant, and the returned list is exactly what `autoUnblockDependents` produced.
   */
  lemma CompleteFacts(d: Db, id: int, summary: string, agent: Option<string>, now: Clock)
    requires Valid(d)
    ensures var (r, out) := Complete(d, id, summary, agent, now);
      && (out.Failure? <==> id !in d.tasks)
      && (out.Failure? ==> r == d)
      && (out.Success? ==>
            var m := CompletionWrites(d, id, summary, agent, now);
            && Valid(r)
            && r.tasks.Keys == d.tasks.Keys
            && r.tasks[id].status == Completed
            && r.tasks[id].completedBy == (if Truthy(agent) then agent else d.tasks[id].claimedBy)
            && r.tasks[id].completionSummary == Some(summary)
            && out.value == AutoUnblock(m, id, now).1
            && id !in out.value
            && d.history < r.history)
  {
    if id in d.tasks {
      CompletionWritesFacts(d, id, summary, agent, now);
      var m := CompletionWrites(d, id, summary, agent, now);
      AutoUnblockRows(m, id, now);
      AutoUnblockReturns(m, id, now);
      assert d.history < m.history;
    }
  }
}
