/**
 * Conflict detection and batching: which tasks touch the same files (`conflictCheck`), the
 * overlap guard in front of a session claim (`assignTaskToSession`) and the greedy placement of
 * ready tasks into sessions (`suggestBatch`).
 */
module Scheduling {
  import opened Wrappers
  import opened JsNumber
  import opened CommaLists
  import opened Tasks
  import opened TaskDb

  // ---------------------------------------------------------------------------------------------
  // conflictCheck

  /** One reported pair: two tasks and the files of the first that the second also touches. */
  datatype Conflict = Conflict(taskA: int, taskB: int, files: seq<string>)

  /** The tasks among `ids` that exist, in the order given; missing ids are skipped. */
  function Found(tasks: map<int, Task>, ids: seq<int>): (ts: seq<Task>)
    ensures |ts| <= |ids|
    ensures forall t :: t in ts <==> exists id :: id in ids && id in tasks && tasks[id] == t
    decreases |ids|
  {
    if ids == [] then []
    else
      var init := ids[..|ids| - 1];
      var last := ids[|ids| - 1];
      assert ids == init + [last];
      Found(tasks, init) + (if last in tasks then [tasks[last]] else [])
  }

  /** The lookup keeps the order of `ids`: a concatenation gives the two parts' tasks in turn. */
  lemma {:induction false} FoundOrder(tasks: map<int, Task>, a: seq<int>, b: seq<int>)
    ensures Found(tasks, a + b) == Found(tasks, a) + Found(tasks, b)
    decreases |b|
  {
    if b == [] {
      assert a + b == a;
    } else {
      var init, last := b[..|b| - 1], b[|b| - 1];
      var ab := a + b;
      assert ab[..|ab| - 1] == a + init && ab[|ab| - 1] == last;
      var tail := if last in tasks then [tasks[last]] else [];
      assert Found(tasks, ab) == Found(tasks, a + init) + tail;
      assert Found(tasks, b) == Found(tasks, init) + tail;
      FoundOrder(tasks, a, init);
    }
  }

  /** A single id gives its task, or nothing when it is missing. */
  lemma FoundOne(tasks: map<int, Task>, id: int)
    ensures Found(tasks, [id]) == (if id in tasks then [tasks[id]] else [])
  {
    assert [id][..0] == [];
  }

  /** A task with its parsed `files_affected` list, as the loops see it. */
  datatype Entry = Entry(task: Task, files: seq<string>)

  /** Each task paired with its parsed file list. */
  function Entries(ts: seq<Task>): seq<Entry> {
    seq(|ts|, i requires 0 <= i < |ts| => Entry(ts[i], Files(ts[i])))
  }

  /** The files two tasks share, in the first one's order. */
  function Shared(a: Entry, b: Entry): seq<string> {
    Overlap(a.files, b.files)
  }

  /** The pair (i, j) as the inner loop reports it: once if the overlap is non-empty, else not at all. */
  function PairAt(es: seq<Entry>, i: nat, j: nat): seq<Conflict>
    requires i < j < |es|
  {
    if Shared(es[i], es[j]) != [] then [Conflict(es[i].task.id, es[j].task.id, Shared(es[i], es[j]))] else []
  }

  /** The pairs (i, j) for i < j < m, in order of j. */
  function RowConflicts(es: seq<Entry>, i: nat, m: nat): seq<Conflict>
    requires i < m <= |es|
    decreases m
  {
    if m == i + 1 then [] else RowConflicts(es, i, m - 1) + PairAt(es, i, m - 1)
  }

  /** The pairs whose first index is below n, row by row. */
  function ConflictsUpTo(es: seq<Entry>, n: nat): seq<Conflict>
    requires n <= |es|
  {
    if n == 0 then [] else ConflictsUpTo(es, n - 1) + RowConflicts(es, n - 1, |es|)
  }

  /** Every conflicting pair (i, j) with i < j, in the order the double loop finds them. */
  function Conflicts(es: seq<Entry>): seq<Conflict> {
    ConflictsUpTo(es, |es|)
  }

  /** c is the record of a pair i < j of es whose overlap is non-empty. */
  predicate Reports(es: seq<Entry>, c: Conflict, i: int, j: int)
    requires 0 <= i < j < |es|
  {
    Shared(es[i], es[j]) != [] && c == Conflict(es[i].task.id, es[j].task.id, Shared(es[i], es[j]))
  }

  lemma {:induction false} RowConflictsMembers(es: seq<Entry>, i: nat, m: nat)
    requires i < m <= |es|
    ensures forall c :: c in RowConflicts(es, i, m) <==> exists j :: i < j < m && Reports(es, c, i, j)
    decreases m
  {
    if m > i + 1 {
      RowConflictsMembers(es, i, m - 1);
      forall c ensures c in RowConflicts(es, i, m) <==> exists j :: i < j < m && Reports(es, c, i, j) {
        if Reports(es, c, i, m - 1) {
          assert c in PairAt(es, i, m - 1);
        }
        if c in PairAt(es, i, m - 1) {
          assert Reports(es, c, i, m - 1);
        }
      }
    }
  }

  lemma {:induction false} ConflictsUpToMembers(es: seq<Entry>, n: nat)
    requires n <= |es|
    ensures forall c :: c in ConflictsUpTo(es, n) <==> exists i, j :: 0 <= i < n && i < j < |es| && Reports(es, c, i, j)
  {
    if n > 0 {
      ConflictsUpToMembers(es, n - 1);
      RowConflictsMembers(es, n - 1, |es|);
      forall c | c in ConflictsUpTo(es, n)
        ensures exists i, j :: 0 <= i < n && i < j < |es| && Reports(es, c, i, j)
      {
        if c !in ConflictsUpTo(es, n - 1) {
          var j :| n - 1 < j < |es| && Reports(es, c, n - 1, j);
        }
      }
      forall c | exists i, j :: 0 <= i < n && i < j < |es| && Reports(es, c, i, j)
        ensures c in ConflictsUpTo(es, n)
      {
        var i, j :| 0 <= i < n && i < j < |es| && Reports(es, c, i, j);
        if i == n - 1 {
          assert c in RowConflicts(es, n - 1, |es|);
        }
      }
    }
  }

  /**
   * `conflictCheck` over the found tasks: a record is reported exactly for each pair i < j whose
   * overlap is non-empty, it names the two tasks in input order, and its files are exactly the
   * files of the first task that the second one also touches.
   */
  lemma ConflictsFacts(es: seq<Entry>)
    ensures forall c :: c in Conflicts(es) <==> exists i, j :: 0 <= i < j < |es| && Reports(es, c, i, j)
    ensures forall c :: c in Conflicts(es) ==>
      && c.files != []
      && exists i, j :: 0 <= i < j < |es| && c.taskA == es[i].task.id && c.taskB == es[j].task.id
                        && forall f :: f in c.files <==> f in es[i].files && f in es[j].files
  {
    ConflictsUpToMembers(es, |es|);
  }

  /** The double loop of `conflictCheck`: each pair i < j is compared once and reported if it overlaps. */
  method ConflictPairs(es: seq<Entry>) returns (conflicts: seq<Conflict>)
    ensures conflicts == Conflicts(es)
  {
    conflicts := [];
    var i := 0;
    while i < |es|
      invariant 0 <= i <= |es|
      invariant conflicts == ConflictsUpTo(es, i)
    {
      var row := RowPairs(es, i);
      conflicts := conflicts + row;
      i := i + 1;
    }
  }

  /** The inner loop of `conflictCheck`: task i against every later task, in order. */
  method RowPairs(es: seq<Entry>, i: nat) returns (row: seq<Conflict>)
    requires i < |es|
    ensures row == RowConflicts(es, i, |es|)
  {
    row := [];
    var j := i + 1;
    while j < |es|
      invariant i + 1 <= j <= |es|
      invariant row == RowConflicts(es, i, j)
    {
      var overlap := Overlap(es[i].files, es[j].files);
      assert overlap == Shared(es[i], es[j]);
      assert RowConflicts(es, i, j + 1) == RowConflicts(es, i, j) + PairAt(es, i, j);
      if |overlap| > 0 {
        row := row + [Conflict(es[i].task.id, es[j].task.id, overlap)];
      }
      j := j + 1;
    }
  }

  // ---------------------------------------------------------------------------------------------
  // assignTaskToSession

  /** `getTasksBySession`: the rows held by a session, in listing order. */
  function SessionTasks(tasks: map<int, Task>, lastId: nat, session: string): seq<Task> {
    Listing(tasks, lastId, AnyTask.(claimedBySession := Some(session)))
  }

  /** The first task of `others`, other than `taskId` itself, that shares a file with `files`. */
  function FirstConflict(taskId: int, files: seq<string>, others: seq<Task>): Option<(int, seq<string>)> {
    if others == [] then None
    else if others[0].id == taskId then FirstConflict(taskId, files, others[1..])
    else
      var overlap := Overlap(files, Files(others[0]));
      if overlap != [] then Some((others[0].id, overlap)) else FirstConflict(taskId, files, others[1..])
  }

  /**
   * The search finds nothing exactly when every other task shares no file with the task, and
   * what it finds is another task of the list with its non-empty overlap.
   */
  lemma {:induction false} FirstConflictFacts(taskId: int, files: seq<string>, others: seq<Task>)
    ensures var r := FirstConflict(taskId, files, others);
      && (r.None? <==> forall t :: t in others ==> t.id == taskId || Overlap(files, Files(t)) == [])
      && (r.Some? ==> exists t :: t in others && t.id == r.value.0 && t.id != taskId
                                  && r.value.1 == Overlap(files, Files(t)) && r.value.1 != [])
  {
    if others != [] {
      FirstConflictFacts(taskId, files, others[1..]);
      assert forall t :: t in others[1..] ==> t in others;
      assert forall t :: t in others ==> t == others[0] || t in others[1..];
    }
  }

  /** `assignTaskToSession`: refuse a missing task or a file overlap within the session, else claim. */
  function Assign(d: Db, taskId: int, session: string, agent: string, now: Clock): (Db, Outcome<TaskError>) {
    if taskId !in d.tasks then (d, Fail(NotFound(taskId)))
    else
      match FirstConflict(taskId, Files(d.tasks[taskId]), SessionTasks(d.tasks, d.lastId, session))
      case Some((other, files)) => (d, Fail(FileConflict(taskId, other, session, files)))
      case None => Claim(d, taskId, agent, Some(session), now)
  }

  /**
   * The session's other tasks share no file with the task: the hard precondition of an
   * assignment. The task itself is not compared.
   */
  ghost predicate FitsSession(d: Db, taskId: int, session: string)
    requires taskId in d.tasks
  {
    forall k :: k in d.tasks && k != taskId && d.tasks[k].claimedBySession == Some(session) ==>
      Overlap(Files(d.tasks[taskId]), Files(d.tasks[k])) == []
  }

  /**
   * `assignTaskToSession` throws without writing on a missing task or on any overlap with another
   * task of the session; otherwise it is exactly `claimTask` with that session, so a successful
   * assignment leaves the task held by the session and sharing no file with its other tasks.
   */
  lemma AssignFacts(d: Db, taskId: int, session: string, agent: string, now: Clock)
    requires Valid(d)
    ensures var (r, out) := Assign(d, taskId, session, agent, now);
      && (taskId !in d.tasks ==> r == d && out == Fail(NotFound(taskId)))
      && (taskId in d.tasks && !FitsSession(d, taskId, session) ==>
            r == d && out.Fail? && out.error.FileConflict? && out.error.files != [])
      && (taskId in d.tasks && FitsSession(d, taskId, session) ==>
            (r, out) == Claim(d, taskId, agent, Some(session), now))
      && (out.Pass? ==>
            && taskId in d.tasks && FitsSession(d, taskId, session)
            && r.tasks[taskId].status == InProgress
            && r.tasks[taskId].claimedBySession == Some(session))
  {
    var filter := AnyTask.(claimedBySession := Some(session));
    ListingMembers(d.tasks, d.lastId, filter);
    ClaimFacts(d, taskId, agent, Some(session), now);
    if taskId in d.tasks {
      var files := Files(d.tasks[taskId]);
      var others := SessionTasks(d.tasks, d.lastId, session);
      FirstConflictFacts(taskId, files, others);
      if FitsSession(d, taskId, session) {
        forall t | t in others ensures t.id == taskId || Overlap(files, Files(t)) == [] {
          assert d.tasks[t.id] == t;
        }
      } else {
        var k :| k in d.tasks && k != taskId && d.tasks[k].claimedBySession == Some(session)
                 && Overlap(files, Files(d.tasks[k])) != [];
        assert Matches(d.tasks[k], filter);
        assert d.tasks[k] in others;
      }
    }
  }

  // ---------------------------------------------------------------------------------------------
  // suggestBatch

  /** `taskFiles.filter(f => set.has(f)).length`: repeated files count each time. */
  function CountIn(files: seq<string>, s: set<string>): (c: nat)
    ensures c <= |files|
    ensures c == 0 <==> forall f :: f in files ==> f !in s
  {
    if files == [] then 0 else (if files[0] in s then 1 else 0) + CountIn(files[1..], s)
  }

  /**
   * The scan over sessions 0..k-1 for the fewest overlaps, starting from a bound no count reaches
   * (the source's `Infinity`). Only a strictly smaller count replaces the best so far.
   */
  function BestUpTo(files: seq<string>, fileSets: seq<set<string>>, k: nat): (r: (nat, nat))
    requires k <= |fileSets|
    ensures k == 0 ==> r == (0, |files| + 1)
    ensures k > 0 ==> r.0 < k && r.1 == CountIn(files, fileSets[r.0])
    ensures forall s :: 0 <= s < k ==> r.1 <= CountIn(files, fileSets[s])
    ensures forall s :: 0 <= s < r.0 ==> r.1 < CountIn(files, fileSets[s])
  {
    if k == 0 then (0, |files| + 1)
    else
      var best := BestUpTo(files, fileSets, k - 1);
      var c := CountIn(files, fileSets[k - 1]);
      if c < best.1 then (k - 1, c) else best
  }

  /** The sessions' task lists (each task with its file list) and the files each session has accumulated. */
  datatype Plan = Plan(sessions: seq<seq<Entry>>, fileSets: seq<set<string>>)

  predicate Shaped(p: Plan, n: nat) {
    |p.sessions| == n && |p.fileSets| == n
  }

  /** The session a task goes to: the first one with the fewest overlaps. */
  function Target(p: Plan, e: Entry): nat
    requires |p.fileSets| > 0
  {
    BestUpTo(e.files, p.fileSets, |p.fileSets|).0
  }

  /** One step of the outer loop: the task joins its target session, whose file set grows by its files. */
  function Place(p: Plan, e: Entry): (r: Plan)
    requires Shaped(p, |p.sessions|) && |p.sessions| > 0
    ensures Shaped(r, |p.sessions|)
  {
    var b := Target(p, e);
    Plan(p.sessions[b := p.sessions[b] + [e]], p.fileSets[b := p.fileSets[b] + (set f | f in e.files)])
  }

  /** The plan after placing the tasks of `es` in order into n initially empty sessions. */
  function PlanOf(n: nat, es: seq<Entry>): (r: Plan)
    requires n > 0
    ensures Shaped(r, n)
    decreases |es|
  {
    if es == [] then Plan(seq(n, _ => []), seq(n, _ => {}))
    else Place(PlanOf(n, es[..|es| - 1]), es[|es| - 1])
  }

  /**
   * A placement puts the task at the end of the session with the fewest overlaps, the lowest such
   * index on a tie, adds its files to that session's set, and leaves every other session alone.
   */
  lemma PlaceFacts(p: Plan, e: Entry)
    requires Shaped(p, |p.sessions|) && |p.sessions| > 0
    ensures var b := Target(p, e); var r := Place(p, e);
      && b < |p.sessions|
      && r.sessions[b] == p.sessions[b] + [e]
      && (forall f :: f in r.fileSets[b] <==> f in p.fileSets[b] || f in e.files)
      && (forall s :: 0 <= s < |p.sessions| ==> CountIn(e.files, p.fileSets[b]) <= CountIn(e.files, p.fileSets[s]))
      && (forall s :: 0 <= s < b ==> CountIn(e.files, p.fileSets[b]) < CountIn(e.files, p.fileSets[s]))
      && (forall s :: 0 <= s < |p.sessions| && s != b ==> r.sessions[s] == p.sessions[s] && r.fileSets[s] == p.fileSets[s])
  {
  }

  /** A task that overlaps nothing in session 0 goes to session 0. */
  lemma NoOverlapGoesFirst(p: Plan, e: Entry)
    requires Shaped(p, |p.sessions|) && |p.sessions| > 0
    requires CountIn(e.files, p.fileSets[0]) == 0
    ensures Target(p, e) == 0
    ensures Place(p, e).sessions[0] == p.sessions[0] + [e]
  {
  }

  /** All entries, session after session. */
  function Concat(ss: seq<seq<Entry>>): seq<Entry> {
    if ss == [] then [] else ss[0] + Concat(ss[1..])
  }

  lemma {:induction false} ConcatAppend(ss: seq<seq<Entry>>, b: nat, e: Entry)
    requires b < |ss|
    ensures multiset(Concat(ss[b := ss[b] + [e]])) == multiset(Concat(ss)) + multiset{e}
  {
    var ss' := ss[b := ss[b] + [e]];
    if b == 0 {
      assert ss'[1..] == ss[1..];
    } else {
      assert ss'[1..] == ss[1..][b - 1 := ss[b] + [e]];
      ConcatAppend(ss[1..], b - 1, e);
    }
  }

  lemma {:induction false} ConcatEmpty(n: nat)
    ensures Concat(seq(n, _ => [])) == []
  {
    if n > 0 {
      var empty: seq<seq<Entry>> := seq(n, _ => []);
      assert empty[1..] == seq(n - 1, _ => []);
      ConcatEmpty(n - 1);
    }
  }

  /** Every task placed lands in exactly one session: the sessions together are a permutation of the input. */
  lemma {:induction false} PlanPartition(n: nat, es: seq<Entry>)
    requires n > 0
    ensures multiset(Concat(PlanOf(n, es).sessions)) == multiset(es)
    decreases |es|
  {
    if es == [] {
      ConcatEmpty(n);
    } else {
      var init := es[..|es| - 1];
      var last := es[|es| - 1];
      var p := PlanOf(n, init);
      var b := Target(p, last);
      calc {
        multiset(Concat(PlanOf(n, es).sessions));
        multiset(Concat(p.sessions[b := p.sessions[b] + [last]]));
        { ConcatAppend(p.sessions, b, last); }
        multiset(Concat(p.sessions)) + multiset{last};
        { PlanPartition(n, init); }
        multiset(init) + multiset{last};
        { assert es == init + [last]; }
        multiset(es);
      }
    }
  }

  /** Session s's file set is exactly the union of the files of the tasks placed in it. */
  ghost predicate FilesMatch(p: Plan, s: nat)
    requires s < |p.sessions| && s < |p.fileSets|
  {
    forall f :: f in p.fileSets[s] <==> exists e :: e in p.sessions[s] && f in e.files
  }

  /** Each session's file set is exactly the union of the files of the tasks placed in it. */
  lemma {:induction false} PlanFiles(n: nat, es: seq<Entry>)
    requires n > 0
    ensures forall s :: 0 <= s < n ==> FilesMatch(PlanOf(n, es), s)
    decreases |es|
  {
    if es != [] {
      var init := es[..|es| - 1];
      var last := es[|es| - 1];
      var p := PlanOf(n, init);
      PlanFiles(n, init);
      PlaceFacts(p, last);
      var r := Place(p, last);
      var b := Target(p, last);
      forall s | 0 <= s < n ensures FilesMatch(r, s) {
        if s == b {
          assert FilesMatch(p, s);
          forall f ensures f in r.fileSets[s] <==> exists e :: e in r.sessions[s] && f in e.files {
            if f in r.fileSets[s] {
              if f in last.files {
                assert last in r.sessions[s];
              } else {
                var e :| e in p.sessions[s] && f in e.files;
                assert e in r.sessions[s];
              }
            }
            if exists e :: e in r.sessions[s] && f in e.files {
              var e :| e in r.sessions[s] && f in e.files;
              assert e in p.sessions[s] || e == last;
            }
          }
        } else {
          assert FilesMatch(p, s);
          assert r.sessions[s] == p.sessions[s] && r.fileSets[s] == p.fileSets[s];
        }
      }
    } else {
      forall s | 0 <= s < n ensures FilesMatch(PlanOf(n, es), s) {
      }
    }
  }

  /** Tasks that touch no files never overlap anything, so they all land in session 0, in order. */
  lemma {:induction false} FilelessAllFirst(n: nat, es: seq<Entry>)
    requires n > 0
    requires forall e :: e in es ==> e.files == []
    ensures PlanOf(n, es).sessions[0] == es
    decreases |es|
  {
    if es != [] {
      var init := es[..|es| - 1];
      var last := es[|es| - 1];
      assert forall e :: e in init ==> e in es;
      FilelessAllFirst(n, init);
      assert last in es;
      NoOverlapGoesFirst(PlanOf(n, init), last);
      assert es == init + [last];
    }
  }

  /** The placement loops of `suggestBatch`: for each task an argmin scan, then an append and a union. */
  method PlanBatches(n: nat, es: seq<Entry>) returns (sessions: seq<seq<Entry>>, fileSets: seq<set<string>>)
    requires n > 0
    ensures Plan(sessions, fileSets) == PlanOf(n, es)
  {
    sessions := seq(n, _ => []);
    fileSets := seq(n, _ => {});
    assert es[..0] == [];
    var i := 0;
    while i < |es|
      invariant 0 <= i <= |es|
      invariant Plan(sessions, fileSets) == PlanOf(n, es[..i])
    {
      ghost var p := Plan(sessions, fileSets);
      var taskFiles := es[i].files;
      var best := LeastOverlap(taskFiles, fileSets);
      assert best == Target(p, es[i]);
      sessions := sessions[best := sessions[best] + [es[i]]];
      fileSets := fileSets[best := fileSets[best] + (set f | f in taskFiles)];
      assert Plan(sessions, fileSets) == Place(p, es[i]);
      assert es[..i + 1][..i] == es[..i] && es[..i + 1][i] == es[i];
      assert PlanOf(n, es[..i + 1]) == Place(PlanOf(n, es[..i]), es[i]);
      i := i + 1;
    }
    assert es[..|es|] == es;
  }

  /** The inner loop of `suggestBatch`: the first session with the fewest overlaps. */
  method LeastOverlap(taskFiles: seq<string>, fileSets: seq<set<string>>) returns (best: nat)
    ensures best == BestUpTo(taskFiles, fileSets, |fileSets|).0
  {
    best := 0;
    var least := |taskFiles| + 1;
    var s := 0;
    while s < |fileSets|
      invariant 0 <= s <= |fileSets|
      invariant (best, least) == BestUpTo(taskFiles, fileSets, s)
    {
      var conflicts := CountIn(taskFiles, fileSets[s]);
      if conflicts < least {
        least := conflicts;
        best := s;
      }
      s := s + 1;
    }
  }

  /** One row of a suggested batch. */
  datatype BatchItem = BatchItem(id: int, title: string, priority: Priority)

  datatype Batch = Batch(session: string, tasks: seq<BatchItem>)

  /** `suggestBatch` with no sessions and a ready task indexes a missing session and throws. */
  datatype BatchError = NoSessions

  /** `session-${i + 1}` */
  function SessionName(i: nat): string {
    "session-" + NatToString(i + 1)
  }

  function Items(es: seq<Entry>): seq<BatchItem> {
    seq(|es|, k requires 0 <= k < |es| => BatchItem(es[k].task.id, es[k].task.title, es[k].task.priority))
  }

  function Batches(p: Plan): seq<Batch> {
    seq(|p.sessions|, i requires 0 <= i < |p.sessions| => Batch(SessionName(i), Items(p.sessions[i])))
  }

  /** `Array.from({ length: n })`: a negative length gives no sessions. */
  function SessionCount(count: int): nat {
    if count < 0 then 0 else count
  }

  const ReadyOnly := AnyTask.(status := Some(Ready))

  /** The batches `suggestBatch` returns for the ready tasks in listing order. */
  function Suggest(tasks: map<int, Task>, lastId: nat, count: int): Result<seq<Batch>, BatchError> {
    var ready := Listing(tasks, lastId, ReadyOnly);
    var n := SessionCount(count);
    if n == 0 then (if ready == [] then Success([]) else Failure(NoSessions))
    else Success(Batches(PlanOf(n, Entries(ready))))
  }

  /** The claims of `autoAssign`, batch by batch and task by task; a claim that throws is skipped. */
  function ClaimBatches(d: Db, batches: seq<Batch>, agent: string, now: Clock): Db
    decreases |batches|
  {
    if batches == [] then d
    else ClaimBatches(ClaimItems(d, batches[0].tasks, batches[0].session, agent, now), batches[1..], agent, now)
  }

  function ClaimItems(d: Db, items: seq<BatchItem>, session: string, agent: string, now: Clock): Db
    decreases |items|
  {
    if items == [] then d
    else ClaimItems(Claim(d, items[0].id, agent, Some(session), now).0, items[1..], session, agent, now)
  }

  /** `suggestBatch(sessionCount, autoAssign, agent)`: the store after the optional claims, and the batches. */
  function SuggestBatch(d: Db, count: int, autoAssign: bool, agent: string, now: Clock): (Db, Result<seq<Batch>, BatchError>) {
    var r := Suggest(d.tasks, d.lastId, count);
    if autoAssign && r.Success? then (ClaimBatches(d, r.value, agent, now), r) else (d, r)
  }

  /**
   * `suggestBatch` returns one batch per session, named `session-1` onwards, holding each ready
   * task exactly once; with no sessions it succeeds only when nothing is ready.
   */
  lemma SuggestFacts(tasks: map<int, Task>, lastId: nat, count: int)
    requires WellFormed(tasks, lastId)
    ensures var r := Suggest(tasks, lastId, count);
      var ready := Listing(tasks, lastId, ReadyOnly);
      && (r.Failure? <==> count <= 0 && (exists k :: k in tasks && tasks[k].status == Ready))
      && (r.Success? ==>
            && |r.value| == SessionCount(count)
            && (forall i :: 0 <= i < |r.value| ==> r.value[i].session == SessionName(i))
            && (count > 0 ==>
                  var p := PlanOf(count, Entries(ready));
                  && multiset(Concat(p.sessions)) == multiset(Entries(ready))
                  && forall i :: 0 <= i < count ==> r.value[i].tasks == Items(p.sessions[i])))
  {
    SuggestFails(tasks, lastId, count);
    if count > 0 {
      PlanPartition(count, Entries(Listing(tasks, lastId, ReadyOnly)));
    }
  }

  /** With no sessions the call fails exactly when some task is ready. */
  lemma SuggestFails(tasks: map<int, Task>, lastId: nat, count: int)
    requires WellFormed(tasks, lastId)
    ensures Suggest(tasks, lastId, count).Failure? <==> count <= 0 && (exists k :: k in tasks && tasks[k].status == Ready)
  {
    var ready := Listing(tasks, lastId, ReadyOnly);
    ListingMembers(tasks, lastId, ReadyOnly);
    if exists k :: k in tasks && tasks[k].status == Ready {
      var k :| k in tasks && tasks[k].status == Ready;
      assert Matches(tasks[k], ReadyOnly);
      assert tasks[k] in ready;
    }
    if ready != [] {
      assert ready[0] in ready;
    }
  }

  /** The claims of `autoAssign` keep the table well formed: they only rewrite existing rows. */
  lemma {:induction false} ClaimItemsValid(d: Db, items: seq<BatchItem>, session: string, agent: string, now: Clock)
    requires Valid(d)
    ensures var r := ClaimItems(d, items, session, agent, now);
      Valid(r) && r.lastId == d.lastId && r.tasks.Keys == d.tasks.Keys && |r.history| >= |d.history|
    decreases |items|
  {
    if items != [] {
      ClaimFacts(d, items[0].id, agent, Some(session), now);
      var d1 := Claim(d, items[0].id, agent, Some(session), now).0;
      ClaimItemsValid(d1, items[1..], session, agent, now);
    }
  }

  /** The row a successful `claimTask` writes. */
  function ClaimedRow(t: Task, agent: string, session: Option<string>, now: Clock): (c: Task)
    ensures c.id == t.id && c.status == InProgress && c.claimedBy == Some(agent) && c.claimedBySession == session
  {
    t.(status := InProgress, claimedBy := Some(agent), claimedBySession := session, claimedAt := Some(now.iso), updatedAt := now.sql)
  }

  /** One claim, seen row by row: the claimed row as `ClaimFacts` gives it, every other row kept. */
  lemma ClaimRow(d: Db, id: int, agent: string, session: Option<string>, now: Clock)
    requires Valid(d)
    ensures var r := Claim(d, id, agent, session, now).0;
      && Valid(r) && r.tasks.Keys == d.tasks.Keys
      && (forall k :: k in d.tasks && k != id ==> r.tasks[k] == d.tasks[k])
      && (id in d.tasks ==>
            r.tasks[id] == if ClaimCheck(d, id, agent, session).Pass? then ClaimedRow(d.tasks[id], agent, session, now) else d.tasks[id])
  {
    ClaimFacts(d, id, agent, session, now);
  }

  predicate DistinctItems(items: seq<BatchItem>) {
    forall i, j :: 0 <= i < j < |items| ==> items[i].id != items[j].id
  }

  lemma {:induction false} ClaimItemsFacts(d: Db, items: seq<BatchItem>, session: string, agent: string, now: Clock)
    requires Valid(d) && DistinctItems(items)
    ensures ItemsClaimed(d, ClaimItems(d, items, session, agent, now), items, session, agent, now)
    decreases |items|
  {
    if items != [] {
      var rest := items[1..];
      var d1 := Claim(d, items[0].id, agent, Some(session), now).0;
      ClaimRow(d, items[0].id, agent, Some(session), now);
      assert DistinctItems(rest) by {
        forall i, j | 0 <= i < j < |rest| ensures rest[i].id != rest[j].id {
          assert rest[i] == items[i + 1] && rest[j] == items[j + 1];
        }
      }
      ClaimItemsFacts(d1, rest, session, agent, now);
      ClaimItemsCons(d, items, session, agent, now);
    }
  }

  /**
   * The claims of one batch: each task whose claim checks pass (judged on the store before the
   * batch, since no other claim touches its row) ends held by the agent for the batch's session;
   * a task whose claim throws keeps its row, and so does every task outside the batch.
   */
  ghost predicate ItemsClaimed(d: Db, r: Db, items: seq<BatchItem>, session: string, agent: string, now: Clock) {
    && r.tasks.Keys == d.tasks.Keys
    && OthersKept(d, r, items)
    && (forall i :: 0 <= i < |items| && items[i].id in d.tasks ==>
          r.tasks[items[i].id] ==
            if ClaimCheck(d, items[i].id, agent, Some(session)).Pass?
            then ClaimedRow(d.tasks[items[i].id], agent, Some(session), now)
            else d.tasks[items[i].id])
  }

  /** Every row outside the batch is kept. */
  ghost predicate OthersKept(d: Db, r: Db, items: seq<BatchItem>)
    requires r.tasks.Keys == d.tasks.Keys
  {
    forall k :: k in d.tasks && (forall i :: 0 <= i < |items| ==> items[i].id != k) ==> r.tasks[k] == d.tasks[k]
  }

  /** The inductive step of `ClaimItemsFacts`: the first claim, then the claims of the rest. */
  lemma ClaimItemsCons(d: Db, items: seq<BatchItem>, session: string, agent: string, now: Clock)
    requires Valid(d) && DistinctItems(items) && items != []
    requires var d1 := Claim(d, items[0].id, agent, Some(session), now).0;
      ItemsClaimed(d1, ClaimItems(d1, items[1..], session, agent, now), items[1..], session, agent, now)
    ensures ItemsClaimed(d, ClaimItems(d, items, session, agent, now), items, session, agent, now)
  {
    var id0, rest := items[0].id, items[1..];
    ClaimRow(d, id0, agent, Some(session), now);
    var d1 := Claim(d, id0, agent, Some(session), now).0;
    var r := ClaimItems(d1, rest, session, agent, now);
    assert ClaimItems(d, items, session, agent, now) == r;
    OthersKeptCons(d, d1, r, items);
    forall i | 0 <= i < |items| && items[i].id in d.tasks
      ensures r.tasks[items[i].id] ==
        if ClaimCheck(d, items[i].id, agent, Some(session)).Pass?
        then ClaimedRow(d.tasks[items[i].id], agent, Some(session), now)
        else d.tasks[items[i].id]
    {
      var id := items[i].id;
      if i == 0 {
        forall j | 0 <= j < |rest| ensures rest[j].id != id0 {
          assert rest[j] == items[j + 1];
        }
        assert r.tasks[id0] == d1.tasks[id0];
      } else {
        assert rest[i - 1] == items[i];
        assert d1.tasks[id] == d.tasks[id];
        assert ClaimCheck(d1, id, agent, Some(session)) == ClaimCheck(d, id, agent, Some(session));
      }
    }
  }

  /** A row outside the batch is kept by the first claim and by the claims of the rest. */
  lemma OthersKeptCons(d: Db, d1: Db, r: Db, items: seq<BatchItem>)
    requires items != [] && d1.tasks.Keys == d.tasks.Keys && r.tasks.Keys == d.tasks.Keys
    requires forall k :: k in d.tasks && k != items[0].id ==> d1.tasks[k] == d.tasks[k]
    requires OthersKept(d1, r, items[1..])
    ensures OthersKept(d, r, items)
  {
    var rest := items[1..];
    forall k | k in d.tasks && (forall i :: 0 <= i < |items| ==> items[i].id != k) ensures r.tasks[k] == d.tasks[k] {
      assert items[0].id != k;
      forall i | 0 <= i < |rest| ensures rest[i].id != k {
        assert rest[i] == items[i + 1];
      }
    }
  }

  /** No task id occurs twice, within one batch or across two. */
  predicate DistinctBatches(batches: seq<Batch>) {
    && (forall b :: 0 <= b < |batches| ==> DistinctItems(batches[b].tasks))
    && (forall b, c, i, j :: 0 <= b < c < |batches| && 0 <= i < |batches[b].tasks| && 0 <= j < |batches[c].tasks| ==>
          batches[b].tasks[i].id != batches[c].tasks[j].id)
  }

  /**
   * The `autoAssign` pass: each batch task whose claim checks pass on the store before the pass
   * ends held by the agent for its own batch's session; one whose claim throws keeps its row,
   * and so does every task in no batch.
   */
  ghost predicate BatchesClaimed(d: Db, r: Db, batches: seq<Batch>, agent: string, now: Clock) {
    && r.tasks.Keys == d.tasks.Keys
    && UnbatchedKept(d, r, batches)
    && (forall b, i :: 0 <= b < |batches| && 0 <= i < |batches[b].tasks| && batches[b].tasks[i].id in d.tasks ==>
          r.tasks[batches[b].tasks[i].id] ==
            if ClaimCheck(d, batches[b].tasks[i].id, agent, Some(batches[b].session)).Pass?
            then ClaimedRow(d.tasks[batches[b].tasks[i].id], agent, Some(batches[b].session), now)
            else d.tasks[batches[b].tasks[i].id])
  }

  /** Every row in no batch is kept. */
  ghost predicate UnbatchedKept(d: Db, r: Db, batches: seq<Batch>)
    requires r.tasks.Keys == d.tasks.Keys
  {
    forall k :: k in d.tasks && (forall b, i :: 0 <= b < |batches| && 0 <= i < |batches[b].tasks| ==> batches[b].tasks[i].id != k) ==>
      r.tasks[k] == d.tasks[k]
  }

  lemma {:induction false} ClaimBatchesFacts(d: Db, batches: seq<Batch>, agent: string, now: Clock)
    requires Valid(d) && DistinctBatches(batches)
    ensures BatchesClaimed(d, ClaimBatches(d, batches, agent, now), batches, agent, now)
    decreases |batches|
  {
    if batches != [] {
      var b0, rest := batches[0], batches[1..];
      var d1 := ClaimItems(d, b0.tasks, b0.session, agent, now);
      ClaimItemsValid(d, b0.tasks, b0.session, agent, now);
      ClaimItemsFacts(d, b0.tasks, b0.session, agent, now);
      assert DistinctBatches(rest) by {
        forall b, c, i, j | 0 <= b < c < |rest| && 0 <= i < |rest[b].tasks| && 0 <= j < |rest[c].tasks|
          ensures rest[b].tasks[i].id != rest[c].tasks[j].id
        {
          assert rest[b] == batches[b + 1] && rest[c] == batches[c + 1];
        }
        forall b | 0 <= b < |rest| ensures DistinctItems(rest[b].tasks) {
          assert rest[b] == batches[b + 1];
        }
      }
      ClaimBatchesFacts(d1, rest, agent, now);
      ClaimBatchesCons(d, batches, agent, now);
    }
  }

  /** The inductive step of `ClaimBatchesFacts`: the first batch's claims, then the other batches'. */
  lemma ClaimBatchesCons(d: Db, batches: seq<Batch>, agent: string, now: Clock)
    requires Valid(d) && DistinctBatches(batches) && batches != []
    requires var d1 := ClaimItems(d, batches[0].tasks, batches[0].session, agent, now);
      && ItemsClaimed(d, d1, batches[0].tasks, batches[0].session, agent, now)
      && BatchesClaimed(d1, ClaimBatches(d1, batches[1..], agent, now), batches[1..], agent, now)
    ensures BatchesClaimed(d, ClaimBatches(d, batches, agent, now), batches, agent, now)
  {
    var b0, rest := batches[0], batches[1..];
    var d1 := ClaimItems(d, b0.tasks, b0.session, agent, now);
    var r := ClaimBatches(d1, rest, agent, now);
    assert ClaimBatches(d, batches, agent, now) == r;
    UnbatchedKeptCons(d, d1, r, batches);
    forall b, i | 0 <= b < |batches| && 0 <= i < |batches[b].tasks| && batches[b].tasks[i].id in d.tasks
      ensures r.tasks[batches[b].tasks[i].id] ==
        if ClaimCheck(d, batches[b].tasks[i].id, agent, Some(batches[b].session)).Pass?
        then ClaimedRow(d.tasks[batches[b].tasks[i].id], agent, Some(batches[b].session), now)
        else d.tasks[batches[b].tasks[i].id]
    {
      var id := batches[b].tasks[i].id;
      if b == 0 {
        forall c, j | 0 <= c < |rest| && 0 <= j < |rest[c].tasks| ensures rest[c].tasks[j].id != id {
          assert rest[c] == batches[c + 1];
        }
        assert r.tasks[id] == d1.tasks[id];
      } else {
        assert rest[b - 1] == batches[b];
        forall j | 0 <= j < |b0.tasks| ensures b0.tasks[j].id != id {
          assert batches[0].tasks[j].id != batches[b].tasks[i].id;
        }
        assert d1.tasks[id] == d.tasks[id];
        assert ClaimCheck(d1, id, agent, Some(batches[b].session)) == ClaimCheck(d, id, agent, Some(batches[b].session));
      }
    }
  }

  /** A row in no batch is kept by the first batch's claims and by the other batches'. */
  lemma UnbatchedKeptCons(d: Db, d1: Db, r: Db, batches: seq<Batch>)
    requires batches != [] && d1.tasks.Keys == d.tasks.Keys && r.tasks.Keys == d.tasks.Keys
    requires OthersKept(d, d1, batches[0].tasks)
    requires UnbatchedKept(d1, r, batches[1..])
    ensures UnbatchedKept(d, r, batches)
  {
    var b0, rest := batches[0], batches[1..];
    forall k | k in d.tasks && (forall b, i :: 0 <= b < |batches| && 0 <= i < |batches[b].tasks| ==> batches[b].tasks[i].id != k)
      ensures r.tasks[k] == d.tasks[k]
    {
      forall i | 0 <= i < |b0.tasks| ensures b0.tasks[i].id != k {
        assert b0 == batches[0];
      }
      forall b, i | 0 <= b < |rest| && 0 <= i < |rest[b].tasks| ensures rest[b].tasks[i].id != k {
        assert rest[b] == batches[b + 1];
      }
    }
  }

  lemma {:induction false} ClaimBatchesValid(d: Db, batches: seq<Batch>, agent: string, now: Clock)
    requires Valid(d)
    ensures var r := ClaimBatches(d, batches, agent, now);
      Valid(r) && r.lastId == d.lastId && r.tasks.Keys == d.tasks.Keys && |r.history| >= |d.history|
    decreases |batches|
  {
    if batches != [] {
      ClaimItemsValid(d, batches[0].tasks, batches[0].session, agent, now);
      ClaimBatchesValid(ClaimItems(d, batches[0].tasks, batches[0].session, agent, now), batches[1..], agent, now);
    }
  }
}
