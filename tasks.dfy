/**
 * The task table: the row type, the typed partial update `updateTask` applies, the history
 * log's entries, and the ordered, filtered listing of `listTasks`.
 */
module Tasks {
  import opened Wrappers
  import opened CommaLists
  import JsNumber

  datatype Priority = Critical | High | Medium | Low

  function PriorityName(p: Priority): string {
    match p
    case Critical => "CRITICAL"
    case High => "HIGH"
    case Medium => "MEDIUM"
    case Low => "LOW"
  }

  /** `CASE priority WHEN 'CRITICAL' THEN 1 ... END`: the sort key; smaller is more urgent. */
  function Rank(p: Priority): (r: nat)
    ensures 1 <= r <= 4
  {
    match p
    case Critical => 1
    case High => 2
    case Medium => 3
    case Low => 4
  }

  /** Listings put CRITICAL before HIGH before MEDIUM before LOW, and no two priorities tie. */
  lemma RankOrder()
    ensures Rank(Critical) < Rank(High) < Rank(Medium) < Rank(Low)
    ensures forall p: Priority, q: Priority :: Rank(p) == Rank(q) ==> p == q
  {
  }

  datatype Status = Ready | InProgress | Blocked | Completed

  function StatusName(s: Status): string {
    match s
    case Ready => "ready"
    case InProgress => "in_progress"
    case Blocked => "blocked"
    case Completed => "completed"
  }

  /** The current instant as two opaque renderings: `new Date().toISOString()` and SQL `datetime('now')`. */
  datatype Clock = Clock(iso: string, sql: string)

  /** One row of the `tasks` table; `None` is SQL `NULL`. */
  datatype Task = Task(
    id: int,
    title: string,
    priority: Priority,
    status: Status,
    groupName: Option<string>,
    category: Option<string>,
    description: Option<string>,
    fixRequired: Option<string>,
    filesAffected: Option<string>,
    tests: Option<string>,
    blockedBy: Option<string>,
    claimedBy: Option<string>,
    claimedBySession: Option<string>,
    claimedAt: Option<string>,
    completedAt: Option<string>,
    completedBy: Option<string>,
    completionSummary: Option<string>,
    model: string,
    reviews: Option<string>,
    parentTaskId: Option<int>,
    iteration: Option<int>,
    createdAt: string,
    updatedAt: string)

  /** One row of the append-only `task_history` table. */
  datatype HistoryEntry = HistoryEntry(
    taskId: int,
    action: string,
    agent: Option<string>,
    oldValue: Option<string>,
    newValue: Option<string>,
    timestamp: string)

  /** The row `addHistory` inserts: every text value goes through `x || null`. */
  function Entry(taskId: int, action: string, agent: Option<string>, oldValue: Option<string>,
                 newValue: Option<string>, now: Clock): HistoryEntry
  {
    HistoryEntry(taskId, action, NullIfEmpty(agent), NullIfEmpty(oldValue), NullIfEmpty(newValue), now.sql)
  }

  /** The columns of the `tasks` table. */
  datatype Column =
    | IdCol | TitleCol | PriorityCol | StatusCol | GroupNameCol | CategoryCol | DescriptionCol
    | FixRequiredCol | FilesAffectedCol | TestsCol | BlockedByCol | ClaimedByCol
    | ClaimedBySessionCol | ClaimedAtCol | CompletedAtCol | CompletedByCol
    | CompletionSummaryCol | ModelCol | ReviewsCol | ParentTaskIdCol | IterationCol
    | CreatedAtCol | UpdatedAtCol

  /** The value stored in one column. */
  datatype Value =
    | Text(text: Option<string>)
    | Number(number: Option<int>)
    | StatusValue(status: Status)
    | PriorityValue(priority: Priority)

  /** Reads one column of a row. */
  function Get(t: Task, c: Column): Value {
    match c
    case IdCol => Number(Some(t.id))
    case TitleCol => Text(Some(t.title))
    case PriorityCol => PriorityValue(t.priority)
    case StatusCol => StatusValue(t.status)
    case GroupNameCol => Text(t.groupName)
    case CategoryCol => Text(t.category)
    case DescriptionCol => Text(t.description)
    case FixRequiredCol => Text(t.fixRequired)
    case FilesAffectedCol => Text(t.filesAffected)
    case TestsCol => Text(t.tests)
    case BlockedByCol => Text(t.blockedBy)
    case ClaimedByCol => Text(t.claimedBy)
    case ClaimedBySessionCol => Text(t.claimedBySession)
    case ClaimedAtCol => Text(t.claimedAt)
    case CompletedAtCol => Text(t.completedAt)
    case CompletedByCol => Text(t.completedBy)
    case CompletionSummaryCol => Text(t.completionSummary)
    case ModelCol => Text(Some(t.model))
    case ReviewsCol => Text(t.reviews)
    case ParentTaskIdCol => Number(t.parentTaskId)
    case IterationCol => Number(t.iteration)
    case CreatedAtCol => Text(Some(t.createdAt))
    case UpdatedAtCol => Text(Some(t.updatedAt))
  }

  /**
   * One entry of the `updates` object given to `updateTask`: a column and the value to store.
   * A key whose value is `undefined` is simply absent from the list.
   */
  datatype Update =
    | SetTitle(title: string)
    | SetPriority(priority: Priority)
    | SetStatus(status: Status)
    | SetGroupName(groupName: Option<string>)
    | SetCategory(category: Option<string>)
    | SetDescription(description: Option<string>)
    | SetFixRequired(fixRequired: Option<string>)
    | SetFilesAffected(filesAffected: Option<string>)
    | SetTests(tests: Option<string>)
    | SetBlockedBy(blockedBy: Option<string>)
    | SetClaimedBy(claimedBy: Option<string>)
    | SetClaimedBySession(claimedBySession: Option<string>)
    | SetClaimedAt(claimedAt: Option<string>)
    | SetCompletedAt(completedAt: Option<string>)
    | SetCompletedBy(completedBy: Option<string>)
    | SetCompletionSummary(completionSummary: Option<string>)
    | SetModel(model: string)
    | SetReviews(reviews: Option<string>)

  function ColumnOf(u: Update): Column {
    match u
    case SetTitle(_) => TitleCol
    case SetPriority(_) => PriorityCol
    case SetStatus(_) => StatusCol
    case SetGroupName(_) => GroupNameCol
    case SetCategory(_) => CategoryCol
    case SetDescription(_) => DescriptionCol
    case SetFixRequired(_) => FixRequiredCol
    case SetFilesAffected(_) => FilesAffectedCol
    case SetTests(_) => TestsCol
    case SetBlockedBy(_) => BlockedByCol
    case SetClaimedBy(_) => ClaimedByCol
    case SetClaimedBySession(_) => ClaimedBySessionCol
    case SetClaimedAt(_) => ClaimedAtCol
    case SetCompletedAt(_) => CompletedAtCol
    case SetCompletedBy(_) => CompletedByCol
    case SetCompletionSummary(_) => CompletionSummaryCol
    case SetModel(_) => ModelCol
    case SetReviews(_) => ReviewsCol
  }

  /** The SQL name of a column, as used in the `update_<column>` history action. */
  function ColumnName(c: Column): string {
    match c
    case IdCol => "id"
    case TitleCol => "title"
    case PriorityCol => "priority"
    case StatusCol => "status"
    case GroupNameCol => "group_name"
    case CategoryCol => "category"
    case DescriptionCol => "description"
    case FixRequiredCol => "fix_required"
    case FilesAffectedCol => "files_affected"
    case TestsCol => "tests"
    case BlockedByCol => "blocked_by"
    case ClaimedByCol => "claimed_by"
    case ClaimedBySessionCol => "claimed_by_session"
    case ClaimedAtCol => "claimed_at"
    case CompletedAtCol => "completed_at"
    case CompletedByCol => "completed_by"
    case CompletionSummaryCol => "completion_summary"
    case ModelCol => "model"
    case ReviewsCol => "reviews"
    case ParentTaskIdCol => "parent_task_id"
    case IterationCol => "iteration"
    case CreatedAtCol => "created_at"
    case UpdatedAtCol => "updated_at"
  }

  /** The value an update stores. */
  function NewValue(u: Update): Value {
    match u
    case SetTitle(x) => Text(Some(x))
    case SetPriority(p) => PriorityValue(p)
    case SetStatus(s) => StatusValue(s)
    case SetGroupName(x) => Text(x)
    case SetCategory(x) => Text(x)
    case SetDescription(x) => Text(x)
    case SetFixRequired(x) => Text(x)
    case SetFilesAffected(x) => Text(x)
    case SetTests(x) => Text(x)
    case SetBlockedBy(x) => Text(x)
    case SetClaimedBy(x) => Text(x)
    case SetClaimedBySession(x) => Text(x)
    case SetClaimedAt(x) => Text(x)
    case SetCompletedAt(x) => Text(x)
    case SetCompletedBy(x) => Text(x)
    case SetCompletionSummary(x) => Text(x)
    case SetModel(x) => Text(Some(x))
    case SetReviews(x) => Text(x)
  }

  /** A value as the text the history log records. */
  function ValueText(v: Value): Option<string> {
    match v
    case Text(x) => x
    case Number(n) => if n.Some? then Some(JsNumber.IntToString(n.value)) else None
    case StatusValue(s) => Some(StatusName(s))
    case PriorityValue(p) => Some(PriorityName(p))
  }

  /** Stores one update in a row: its own column takes the new value, every other column is kept. */
  function Apply(t: Task, u: Update): Task {
    match u
    case SetTitle(x) => t.(title := x)
    case SetPriority(p) => t.(priority := p)
    case SetStatus(s) => t.(status := s)
    case SetGroupName(x) => t.(groupName := x)
    case SetCategory(x) => t.(category := x)
    case SetDescription(x) => t.(description := x)
    case SetFixRequired(x) => t.(fixRequired := x)
    case SetFilesAffected(x) => t.(filesAffected := x)
    case SetTests(x) => t.(tests := x)
    case SetBlockedBy(x) => t.(blockedBy := x)
    case SetClaimedBy(x) => t.(claimedBy := x)
    case SetClaimedBySession(x) => t.(claimedBySession := x)
    case SetClaimedAt(x) => t.(claimedAt := x)
    case SetCompletedAt(x) => t.(completedAt := x)
    case SetCompletedBy(x) => t.(completedBy := x)
    case SetCompletionSummary(x) => t.(completionSummary := x)
    case SetModel(x) => t.(model := x)
    case SetReviews(x) => t.(reviews := x)
  }

  /** An update sets its own column to its value and keeps every other column. */
  lemma ApplyColumns(t: Task, u: Update)
    ensures Get(Apply(t, u), ColumnOf(u)) == NewValue(u)
    ensures forall c :: c != ColumnOf(u) ==> Get(Apply(t, u), c) == Get(t, c)
  {
  }

  /** `UPDATE tasks SET c1 = ?, c2 = ?, ...`: the updates applied in order. */
  function Patch(t: Task, us: seq<Update>): (r: Task)
    ensures r.id == t.id && r.createdAt == t.createdAt && r.updatedAt == t.updatedAt
    decreases |us|
  {
    if us == [] then t else Patch(Apply(t, us[0]), us[1..])
  }

  /** A two-column update is its two steps in order. */
  lemma PatchTwo(t: Task, a: Update, b: Update)
    ensures Patch(t, [a, b]) == Apply(Apply(t, a), b)
  {
    assert [a, b][1..] == [b];
    assert Patch(t, [a, b]) == Patch(Apply(t, a), [b]);
    assert [b][1..] == [];
    assert Patch(Apply(t, a), [b]) == Patch(Apply(Apply(t, a), b), []);
  }

  /** A four-column update is its four steps in order. */
  lemma PatchFour(t: Task, a: Update, b: Update, c: Update, e: Update)
    ensures Patch(t, [a, b, c, e]) == Apply(Apply(Apply(Apply(t, a), b), c), e)
  {
    assert [a, b, c, e][1..] == [b, c, e];
    assert Patch(t, [a, b, c, e]) == Patch(Apply(t, a), [b, c, e]);
    assert [b, c, e][1..] == [c, e];
    assert Patch(Apply(t, a), [b, c, e]) == Patch(Apply(Apply(t, a), b), [c, e]);
    PatchTwo(Apply(Apply(t, a), b), c, e);
  }

  /** The keys of an object literal are distinct, so an update list names each column at most once. */
  predicate DistinctColumns(us: seq<Update>) {
    forall i, j :: 0 <= i < j < |us| ==> ColumnOf(us[i]) != ColumnOf(us[j])
  }

  predicate Names(us: seq<Update>, c: Column) {
    exists i :: 0 <= i < |us| && ColumnOf(us[i]) == c
  }

  /** A patch sets exactly the columns it names, each to its given value, and keeps every other column. */
  lemma {:induction false} PatchColumns(t: Task, us: seq<Update>)
    requires DistinctColumns(us)
    ensures forall i :: 0 <= i < |us| ==> Get(Patch(t, us), ColumnOf(us[i])) == NewValue(us[i])
    ensures forall c :: !Names(us, c) ==> Get(Patch(t, us), c) == Get(t, c)
    decreases |us|
  {
    if us != [] {
      var t1 := Apply(t, us[0]);
      ApplyColumns(t, us[0]);
      var rest := us[1..];
      assert DistinctColumns(rest) by {
        forall i, j | 0 <= i < j < |rest| ensures ColumnOf(rest[i]) != ColumnOf(rest[j]) {
          assert rest[i] == us[i + 1] && rest[j] == us[j + 1];
        }
      }
      PatchColumns(t1, rest);
      assert !Names(rest, ColumnOf(us[0])) by {
        forall i | 0 <= i < |rest| ensures ColumnOf(rest[i]) != ColumnOf(us[0]) {
          assert rest[i] == us[i + 1];
        }
      }
      forall i | 0 <= i < |us| ensures Get(Patch(t, us), ColumnOf(us[i])) == NewValue(us[i]) {
        if i > 0 {
          assert us[i] == rest[i - 1];
        }
      }
      forall c | !Names(us, c) ensures Get(Patch(t, us), c) == Get(t, c) {
        assert ColumnOf(us[0]) != c;
        assert !Names(rest, c) by {
          forall i | 0 <= i < |rest| ensures ColumnOf(rest[i]) != c {
            assert rest[i] == us[i + 1];
          }
        }
      }
    }
  }

  /** The dependency ids of a task: its `blocked_by` list parsed, zeros and non-numbers dropped. */
  function Deps(t: Task): seq<int> {
    ParseIdList(t.blockedBy)
  }

  /** The affected files of a task: its `files_affected` list split, trimmed, empties dropped. */
  function Files(t: Task): seq<string> {
    ParseFileList(t.filesAffected)
  }

  /** Each row's id with its parsed dependency list, as the loops over a listing see them. */
  function DepLists(ts: seq<Task>): (p: seq<(int, seq<int>)>)
    ensures |p| == |ts|
    ensures forall i :: 0 <= i < |ts| ==> p[i] == (ts[i].id, Deps(ts[i]))
  {
    seq(|ts|, i requires 0 <= i < |ts| => (ts[i].id, Deps(ts[i])))
  }

  /**
   * The `WHERE` clause of a task query; `None` leaves a column unconstrained. `getTasksBySession`
   * and `getNextTask` state theirs outright; `listTasks` builds one from its filters (`ListFilter`).
   */
  datatype Filter = Filter(
    status: Option<Status>,
    priority: Option<Priority>,
    groupName: Option<string>,
    category: Option<string>,
    claimedBy: Option<string>,
    claimedBySession: Option<string>,
    unblockedOnly: bool)

  const AnyTask := Filter(None, None, None, None, None, None, false)

  /** SQL `column = ?` never matches `NULL`, so a constrained column must hold exactly the given value. */
  predicate Matches(t: Task, f: Filter) {
    && (f.status.Some? ==> t.status == f.status.value)
    && (f.priority.Some? ==> t.priority == f.priority.value)
    && (f.groupName.Some? ==> t.groupName == f.groupName)
    && (f.category.Some? ==> t.category == f.category)
    && (f.claimedBy.Some? ==> t.claimedBy == f.claimedBy)
    && (f.claimedBySession.Some? ==> t.claimedBySession == f.claimedBySession)
    && (f.unblockedOnly ==> !Truthy(t.blockedBy))
  }

  /** The rows of a table with no deletions: ids run from 1 to the last one issued, each row under its own id. */
  ghost predicate WellFormed(tasks: map<int, Task>, lastId: nat) {
    && (forall k :: k in tasks <==> 1 <= k <= lastId)
    && (forall k :: k in tasks ==> tasks[k].id == k)
  }

  /** The rows with ids 1..n of one priority rank that match the filter, in id order. */
  function RankScan(tasks: map<int, Task>, n: nat, rank: nat, f: Filter): seq<Task> {
    if n == 0 then []
    else
      RankScan(tasks, n - 1, rank, f)
      + (if n in tasks && Rank(tasks[n].priority) == rank && Matches(tasks[n], f) then [tasks[n]] else [])
  }

  /** A task query: the rows matching its `WHERE` clause, `ORDER BY` priority rank, then id. */
  function Listing(tasks: map<int, Task>, lastId: nat, f: Filter): seq<Task> {
    RankScan(tasks, lastId, 1, f) + RankScan(tasks, lastId, 2, f)
    + RankScan(tasks, lastId, 3, f) + RankScan(tasks, lastId, 4, f)
  }

  /** `a` sorts strictly before `b` in a listing. */
  predicate Before(a: Task, b: Task) {
    Rank(a.priority) < Rank(b.priority) || (Rank(a.priority) == Rank(b.priority) && a.id < b.id)
  }

  ghost predicate Ordered(ts: seq<Task>) {
    forall i, j :: 0 <= i < j < |ts| ==> Before(ts[i], ts[j])
  }

  lemma {:induction false} RankScanMembers(tasks: map<int, Task>, n: nat, rank: nat, f: Filter)
    requires forall k :: k in tasks ==> tasks[k].id == k
    ensures forall t :: t in RankScan(tasks, n, rank, f) <==>
      (1 <= t.id <= n && t.id in tasks && tasks[t.id] == t && Rank(t.priority) == rank && Matches(t, f))
  {
    if n > 0 {
      RankScanMembers(tasks, n - 1, rank, f);
    }
  }

  lemma {:induction false} RankScanOrdered(tasks: map<int, Task>, n: nat, rank: nat, f: Filter)
    requires forall k :: k in tasks ==> tasks[k].id == k
    ensures Ordered(RankScan(tasks, n, rank, f))
    ensures forall t :: t in RankScan(tasks, n, rank, f) ==> t.id <= n && Rank(t.priority) == rank
  {
    if n > 0 {
      RankScanOrdered(tasks, n - 1, rank, f);
    }
  }

  lemma OrderedConcat(a: seq<Task>, b: seq<Task>)
    requires Ordered(a) && Ordered(b)
    requires forall x, y :: x in a && y in b ==> Before(x, y)
    ensures Ordered(a + b)
  {
    forall i, j | 0 <= i < j < |a + b| ensures Before((a + b)[i], (a + b)[j]) {
      if j < |a| {
      } else if i >= |a| {
        assert (a + b)[i] == b[i - |a|] && (a + b)[j] == b[j - |a|];
      } else {
        assert (a + b)[i] in a && (a + b)[j] in b;
      }
    }
  }

  /** A listing holds exactly the stored rows that match the filter. */
  lemma ListingMembers(tasks: map<int, Task>, lastId: nat, f: Filter)
    requires WellFormed(tasks, lastId)
    ensures forall t :: t in Listing(tasks, lastId, f) <==> t.id in tasks && tasks[t.id] == t && Matches(t, f)
  {
    RankScanMembers(tasks, lastId, 1, f);
    RankScanMembers(tasks, lastId, 2, f);
    RankScanMembers(tasks, lastId, 3, f);
    RankScanMembers(tasks, lastId, 4, f);
    forall t: Task | t.id in tasks && tasks[t.id] == t && Matches(t, f) ensures t in Listing(tasks, lastId, f) {
      assert t in RankScan(tasks, lastId, Rank(t.priority), f);
    }
  }

  /** The clause `listTasks(filters)` builds: a string filter is added only when it is truthy. */
  function ListFilter(f: Filter): Filter {
    f.(groupName := NullIfEmpty(f.groupName), category := NullIfEmpty(f.category),
       claimedBy := NullIfEmpty(f.claimedBy), claimedBySession := NullIfEmpty(f.claimedBySession))
  }

  /** `listTasks(filters)` */
  function ListTasks(tasks: map<int, Task>, lastId: nat, f: Filter): seq<Task> {
    Listing(tasks, lastId, ListFilter(f))
  }

  /**
   * `listTasks` returns exactly the stored rows that hold the given status and priority and the
   * value of each truthy string filter; an empty-string filter constrains nothing.
   */
  lemma ListTasksMembers(tasks: map<int, Task>, lastId: nat, f: Filter)
    requires WellFormed(tasks, lastId)
    ensures forall t :: t in ListTasks(tasks, lastId, f) <==>
      && t.id in tasks && tasks[t.id] == t
      && (f.status.Some? ==> t.status == f.status.value)
      && (f.priority.Some? ==> t.priority == f.priority.value)
      && (Truthy(f.groupName) ==> t.groupName == f.groupName)
      && (Truthy(f.category) ==> t.category == f.category)
      && (Truthy(f.claimedBy) ==> t.claimedBy == f.claimedBy)
      && (Truthy(f.claimedBySession) ==> t.claimedBySession == f.claimedBySession)
      && (f.unblockedOnly ==> !Truthy(t.blockedBy))
  {
    ListingMembers(tasks, lastId, ListFilter(f));
  }

  /** With a status filter alone, as the store's own calls give it, `listTasks` is that query. */
  lemma ListTasksByStatus(tasks: map<int, Task>, lastId: nat, s: Option<Status>)
    ensures ListTasks(tasks, lastId, AnyTask.(status := s)) == Listing(tasks, lastId, AnyTask.(status := s))
  {
    assert ListFilter(AnyTask.(status := s)) == AnyTask.(status := s);
  }

  /** A listing is strictly ordered by priority rank, then id. */
  lemma ListingOrdered(tasks: map<int, Task>, lastId: nat, f: Filter)
    requires WellFormed(tasks, lastId)
    ensures Ordered(Listing(tasks, lastId, f))
  {
    var s1, s2, s3, s4 := RankScan(tasks, lastId, 1, f), RankScan(tasks, lastId, 2, f),
                          RankScan(tasks, lastId, 3, f), RankScan(tasks, lastId, 4, f);
    RankScanOrdered(tasks, lastId, 1, f);
    RankScanOrdered(tasks, lastId, 2, f);
    RankScanOrdered(tasks, lastId, 3, f);
    RankScanOrdered(tasks, lastId, 4, f);
    OrderedConcat(s1, s2);
    OrderedConcat(s1 + s2, s3);
    OrderedConcat(s1 + s2 + s3, s4);
  }

  /** No row appears twice in a listing. */
  lemma ListingDistinct(tasks: map<int, Task>, lastId: nat, f: Filter)
    requires WellFormed(tasks, lastId)
    ensures forall i, j :: 0 <= i < j < |Listing(tasks, lastId, f)| ==>
      Listing(tasks, lastId, f)[i].id != Listing(tasks, lastId, f)[j].id
  {
    var l := Listing(tasks, lastId, f);
    ListingMembers(tasks, lastId, f);
    ListingOrdered(tasks, lastId, f);
    forall i, j | 0 <= i < j < |l| ensures l[i].id != l[j].id {
      assert l[i] in l && l[j] in l;
      assert Before(l[i], l[j]);
    }
  }
}
