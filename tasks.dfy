/**
 * Tasks: the rows of the `tasks` table, the three-state status field with its
 * completion timestamp, the defaults applied on creation, and the joined,
 * filtered and ordered task list.
 */
module Tasks {
  import opened Values
  import opened Bins

  datatype TaskStatus = Assigned | InProgress | Completed

  /** The text stored in `tasks.status`. */
  function TaskStatusName(s: TaskStatus): string {
    match s
    case Assigned => "assigned"
    case InProgress => "in_progress"
    case Completed => "completed"
  }

  /** `["assigned", "in_progress", "completed"].includes(status)`, returning the
      status it names. */
  function ParseTaskStatus(status: Option<string>): (r: Option<TaskStatus>)
    ensures r.Some? ==> status == Some(TaskStatusName(r.value))
    ensures r.None? ==> forall s :: status != Some(TaskStatusName(s))
  {
    match status
    case None => None
    case Some(text) =>
      if text == "assigned" then Some(Assigned)
      else if text == "in_progress" then Some(InProgress)
      else if text == "completed" then Some(Completed)
      else None
  }

  /** One row of `tasks`; its numeric id is its position in the table plus one.
      `binId` is whatever the client sent: nothing checks that the bin exists. */
  datatype Task = Task(
    binId: int,
    title: string,
    details: string,
    priority: string,
    status: TaskStatus,
    assignedTo: string,
    assignedBy: string,
    createdAt: Timestamp,
    completedAt: Option<Timestamp>)

  /** A row as `SELECT * FROM tasks WHERE id = ?` returns it. */
  datatype StoredTask = StoredTask(id: nat, task: Task)

  /** The body of `POST /api/tasks`; `None` is an absent field. */
  datatype TaskRequest = TaskRequest(
    binId: Option<int>,
    title: Option<string>,
    details: Option<string>,
    priority: Option<string>,
    assignedTo: Option<string>)

  /** `binId`, `title` and `assignedTo` must all be truthy. */
  predicate AcceptsTask(req: TaskRequest) {
    && req.binId.Some? && req.binId.value != 0
    && Present(req.title)
    && Present(req.assignedTo)
  }

  /** The completion timestamp is set exactly on completed tasks. */
  predicate CompletionConsistent(t: Task) {
    t.completedAt.Some? <==> t.status == Completed
  }

  /** The row inserted for an accepted request at time `at`. */
  function NewTask(req: TaskRequest, at: Timestamp): (t: Task)
    requires AcceptsTask(req)
    ensures t.status == Assigned && t.assignedBy == "admin"
    ensures t.createdAt == at && t.completedAt == None
    ensures CompletionConsistent(t)
    ensures t.binId == req.binId.value && t.title == req.title.value && t.assignedTo == req.assignedTo.value
    ensures req.priority == None ==> t.priority == "medium"
    ensures req.priority != None ==> t.priority == req.priority.value
    ensures Present(req.details) ==> t.details == req.details.value
    ensures !Present(req.details) ==> t.details == ""
  {
    Task(req.binId.value, req.title.value,
         if Present(req.details) then req.details.value else "",
         if req.priority.Some? then req.priority.value else "medium",
         Assigned, req.assignedTo.value, "admin", at, None)
  }

  /** The row after `UPDATE tasks SET status = ?, completed_at = ?` at time `at`:
      the timestamp is written on completion and cleared to NULL otherwise. */
  function WithStatus(t: Task, s: TaskStatus, at: Timestamp): (r: Task)
    ensures r.status == s
    ensures CompletionConsistent(r)
    ensures s == Completed ==> r.completedAt == Some(at)
    ensures r == t.(status := s, completedAt := r.completedAt)
  {
    t.(status := s, completedAt := if s == Completed then Some(at) else None)
  }

  /** Status updates are not checked against the current status: any status
      can follow any other, and leaving `completed` forgets the completion time. */
  lemma AnyTransitionAllowed(t: Task, s: TaskStatus, at: Timestamp, at': Timestamp)
    ensures WithStatus(WithStatus(t, Completed, at), s, at').status == s
    ensures s != Completed ==> WithStatus(WithStatus(t, Completed, at), s, at').completedAt == None
  {
  }

  // ---- GET /api/tasks ----

  /** One element of the task list: the task, its id and its bin's name and location. */
  datatype TaskRow = TaskRow(id: nat, task: Task, binName: string, binLocation: string)

  /** The inner join on `bins.id = tasks.bin_id` keeps a task whose bin exists;
      a truthy `assignee` also keeps only tasks assigned to it. */
  predicate Listed(t: Task, binCount: nat, assignee: Option<string>) {
    && 1 <= t.binId <= binCount
    && (Present(assignee) ==> t.assignedTo == assignee.value)
  }

  /** The joined row for the task at position `k`. */
  function JoinRow(tasks: seq<Task>, bins: seq<Bin>, k: nat): TaskRow
    requires k < |tasks| && 1 <= tasks[k].binId <= |bins|
  {
    var b := bins[tasks[k].binId - 1];
    TaskRow(k + 1, tasks[k], b.name, b.location)
  }

  /** The rows of the join and filter for the tasks from position `from` on, in id order. */
  function Joined(tasks: seq<Task>, bins: seq<Bin>, assignee: Option<string>, from: nat): (r: seq<TaskRow>)
    requires from <= |tasks|
    ensures forall row :: row in r ==>
      && from < row.id <= |tasks|
      && Listed(tasks[row.id - 1], |bins|, assignee)
      && row == JoinRow(tasks, bins, row.id - 1)
    ensures forall k :: from <= k < |tasks| && Listed(tasks[k], |bins|, assignee) ==>
      JoinRow(tasks, bins, k) in r
    ensures forall i, j :: 0 <= i < j < |r| ==> r[i].id < r[j].id
    decreases |tasks| - from
  {
    if from == |tasks| then []
    else
      var rest := Joined(tasks, bins, assignee, from + 1);
      if Listed(tasks[from], |bins|, assignee) then [JoinRow(tasks, bins, from)] + rest else rest
  }

  /** `CASE status WHEN 'assigned' THEN 0 WHEN 'in_progress' THEN 1 ELSE 2 END` */
  function StatusRank(s: TaskStatus): (r: nat)
    ensures r <= 2
    ensures r == 0 <==> s == Assigned
    ensures r == 2 <==> s == Completed
  {
    match s
    case Assigned => 0
    case InProgress => 1
    case Completed => 2
  }

  /** SQLite's BINARY collation on text: character by character, a proper
      prefix first. ISO-8601 timestamps of one format order by time this way. */
  predicate TextLe(a: string, b: string)
    decreases |a|
  {
    if a == [] then true
    else if b == [] then false
    else if a[0] != b[0] then a[0] < b[0]
    else TextLe(a[1..], b[1..])
  }

  lemma {:induction false} TextLeTotal(a: string, b: string)
    ensures TextLe(a, b) || TextLe(b, a)
    decreases |a|
  {
    if a != [] && b != [] && a[0] == b[0] {
      TextLeTotal(a[1..], b[1..]);
    }
  }

  lemma {:induction false} TextLeTransitive(a: string, b: string, c: string)
    requires TextLe(a, b) && TextLe(b, c)
    ensures TextLe(a, c)
    decreases |a|
  {
    if a != [] && b != [] && c != [] && a[0] == b[0] && b[0] == c[0] {
      TextLeTransitive(a[1..], b[1..], c[1..]);
    }
  }

  /** `ORDER BY <status rank>, created_at DESC`: may `x` be listed before `y`? */
  predicate RowBefore(x: TaskRow, y: TaskRow) {
    || StatusRank(x.task.status) < StatusRank(y.task.status)
    || (StatusRank(x.task.status) == StatusRank(y.task.status) && TextLe(y.task.createdAt, x.task.createdAt))
  }

  lemma RowBeforeTotal(x: TaskRow, y: TaskRow)
    ensures RowBefore(x, y) || RowBefore(y, x)
  {
    TextLeTotal(x.task.createdAt, y.task.createdAt);
  }

  lemma RowBeforeTransitive(x: TaskRow, y: TaskRow, z: TaskRow)
    requires RowBefore(x, y) && RowBefore(y, z)
    ensures RowBefore(x, z)
  {
    if StatusRank(x.task.status) == StatusRank(y.task.status) == StatusRank(z.task.status) {
      TextLeTransitive(z.task.createdAt, y.task.createdAt, x.task.createdAt);
    }
  }

  predicate Sorted(rows: seq<TaskRow>) {
    forall i, j :: 0 <= i < j < |rows| ==> RowBefore(rows[i], rows[j])
  }

  /** Insertion of one row into an ordered list. */
  function InsertRow(x: TaskRow, s: seq<TaskRow>): (r: seq<TaskRow>)
    ensures multiset(r) == multiset(s) + multiset{x}
  {
    if s == [] || RowBefore(x, s[0]) then [x] + s
    else
      assert s == [s[0]] + s[1..];
      [s[0]] + InsertRow(x, s[1..])
  }

  lemma {:induction false} InsertRowSorted(x: TaskRow, s: seq<TaskRow>)
    requires Sorted(s)
    ensures Sorted(InsertRow(x, s))
  {
    if s == [] || RowBefore(x, s[0]) {
      var r := [x] + s;
      forall j | 1 <= j < |r| ensures RowBefore(x, r[j]) {
        if j > 1 { RowBeforeTransitive(x, s[0], s[j - 1]); }
      }
    } else {
      InsertRowSorted(x, s[1..]);
      InsertBehindHead(x, s);
    }
  }

  /** When `x` does not go first, the head stays first and precedes every row
      of the sorted insertion into the tail. */
  lemma InsertBehindHead(x: TaskRow, s: seq<TaskRow>)
    requires Sorted(s) && s != [] && !RowBefore(x, s[0])
    requires Sorted(InsertRow(x, s[1..]))
    ensures Sorted([s[0]] + InsertRow(x, s[1..]))
  {
    RowBeforeTotal(x, s[0]);
    var t := InsertRow(x, s[1..]);
    var r := [s[0]] + t;
    forall j | 0 <= j < |t| ensures RowBefore(s[0], t[j]) {
      assert t[j] in multiset(t);
      if t[j] != x {
        assert t[j] in multiset(s[1..]);
        var k :| 0 <= k < |s[1..]| && s[1..][k] == t[j];
        assert s[k + 1] == t[j];
      }
    }
    assert forall i, j :: 0 <= i < j < |r| ==> RowBefore(r[i], r[j]) by {
      forall i, j | 0 <= i < j < |r| ensures RowBefore(r[i], r[j]) {
        if i == 0 { assert r[j] == t[j - 1]; } else { assert r[i] == t[i - 1] && r[j] == t[j - 1]; }
      }
    }
  }

  /** Insertion sort by `RowBefore`. */
  function SortRows(s: seq<TaskRow>): (r: seq<TaskRow>)
    ensures multiset(r) == multiset(s)
    ensures Sorted(r)
  {
    if s == [] then []
    else
      var rest := SortRows(s[1..]);
      InsertRowSorted(s[0], rest);
      assert s == [s[0]] + s[1..];
      InsertRow(s[0], rest)
  }

  /** Rows with strictly increasing ids hold each row at most once. */
  lemma {:induction false} IncreasingIdsOnce(s: seq<TaskRow>)
    requires forall i, j :: 0 <= i < j < |s| ==> s[i].id < s[j].id
    ensures forall x :: multiset(s)[x] <= 1
  {
    if s != [] {
      IncreasingIdsOnce(s[1..]);
      assert s == [s[0]] + s[1..];
      assert s[0] !in s[1..] by {
        forall k | 0 <= k < |s[1..]| ensures s[1..][k] != s[0] {
          assert s[1..][k] == s[k + 1];
        }
      }
    }
  }

  /** A row found at two positions is counted at least twice. */
  lemma CountedTwice(s: seq<TaskRow>, i: nat, j: nat)
    requires i < j < |s|
    ensures s[i] == s[j] ==> multiset(s)[s[i]] >= 2
  {
    assert s == s[..j] + s[j..];
    assert s[..j][i] == s[i];
    assert s[j..] == [s[j]] + s[j + 1..];
  }

  /** A sequence that holds each element at most once has no repeated element. */
  lemma OnceEach(s: seq<TaskRow>)
    requires forall x :: multiset(s)[x] <= 1
    ensures forall i, j :: 0 <= i < j < |s| ==> s[i] != s[j]
  {
    forall i, j | 0 <= i < j < |s| ensures s[i] != s[j] {
      CountedTwice(s, i, j);
    }
  }

  /** A permutation of the joined rows holds exactly the same rows, and lists
      every id at most once because the join lists each id once. */
  lemma PermutedJoin(r: seq<TaskRow>, joined: seq<TaskRow>, tasks: seq<Task>, bins: seq<Bin>, assignee: Option<string>)
    requires multiset(r) == multiset(joined)
    requires forall i, j :: 0 <= i < j < |joined| ==> joined[i].id < joined[j].id
    requires forall row :: row in joined ==>
      && 0 < row.id <= |tasks|
      && Listed(tasks[row.id - 1], |bins|, assignee)
      && row == JoinRow(tasks, bins, row.id - 1)
    requires forall k :: 0 <= k < |tasks| && Listed(tasks[k], |bins|, assignee) ==>
      JoinRow(tasks, bins, k) in joined
    ensures forall row :: row in r ==>
      && 0 < row.id <= |tasks|
      && Listed(tasks[row.id - 1], |bins|, assignee)
      && row == JoinRow(tasks, bins, row.id - 1)
    ensures forall k :: 0 <= k < |tasks| && Listed(tasks[k], |bins|, assignee) ==>
      JoinRow(tasks, bins, k) in r
    ensures forall i, j :: 0 <= i < j < |r| ==> r[i].id != r[j].id
  {
    assert forall row :: row in r <==> row in joined by {
      forall row ensures row in r <==> row in joined {
        assert row in r <==> row in multiset(r);
        assert row in joined <==> row in multiset(joined);
      }
    }
    IncreasingIdsOnce(joined);
    OnceEach(r);
    forall i, j | 0 <= i < j < |r| ensures r[i].id != r[j].id {
      assert r[i] in r && r[j] in r;
    }
  }

  /** `GET /api/tasks`: exactly the joined rows that pass the filter, each once,
      ordered by status rank and then newest first. SQL leaves the order of
      rows that tie on both keys open; this model lists them by id. */
  function ListTasks(tasks: seq<Task>, bins: seq<Bin>, assignee: Option<string>): (r: seq<TaskRow>)
    ensures Sorted(r)
    ensures multiset(r) == multiset(Joined(tasks, bins, assignee, 0))
    ensures forall row :: row in r ==>
      && 0 < row.id <= |tasks|
      && Listed(tasks[row.id - 1], |bins|, assignee)
      && row == JoinRow(tasks, bins, row.id - 1)
    ensures forall k :: 0 <= k < |tasks| && Listed(tasks[k], |bins|, assignee) ==>
      JoinRow(tasks, bins, k) in r
    ensures forall i, j :: 0 <= i < j < |r| ==> r[i].id != r[j].id
  {
    var joined := Joined(tasks, bins, assignee, 0);
    var r := SortRows(joined);
    PermutedJoin(r, joined, tasks, bins, assignee);
    r
  }

  /** In a sorted list every open task (assigned or in progress) comes before every completed one. */
  lemma {:induction false} OpenTasksFirst(rows: seq<TaskRow>, i: nat, j: nat)
    requires Sorted(rows) && i < |rows| && j < |rows|
    requires rows[i].task.status != Completed && rows[j].task.status == Completed
    ensures i < j
  {
  }
}
