/** Adding tasks to a job in adaptively sized chunks
    (convoy/batch.py:4243-4331, cargo/recurrent_job_manager.py:117-211). */
module Submission {
  import opened Common

  const MAX_TASKS_PER_CALL: nat := 100

  datatype Task = Task(id: string, commandLine: string)
  datatype Status = Added | ClientError | ServerError
  datatype TaskResult = TaskResult(id: string, status: Status)

  /** What the service says to one add_collection call: the body is too large,
      some other error, or one result per task. */
  datatype Answer = TooLarge | OtherError | Results(value: seq<TaskResult>)

  /** The calls, as the program's own log lines record them: a chunk of
      all_tasks, or a retry of some tasks of the last chunk. */
  datatype Event = Submit(lo: nat, hi: nat, answer: Answer) | Retry(tasks: seq<Task>, answer: Answer)

  /** The service may answer as it likes, depending on everything said so far. */
  type Service = (seq<Event>, seq<Task>) -> Answer

  /** The arguments of _submit_task_sub_collection. */
  datatype Job = Job(tasks: seq<Task>, taskMap: map<string, Task>, start: nat, end: nat, slice: nat)

  /** tasks lists the values of taskMap, whose keys are the task ids. */
  ghost predicate ListsValues(tasks: seq<Task>, taskMap: map<string, Task>) {
    && (forall i | 0 <= i < |tasks| :: tasks[i].id in taskMap && taskMap[tasks[i].id] == tasks[i])
    && (forall i, j | 0 <= i < j < |tasks| :: tasks[i].id != tasks[j].id)
    && (forall id | id in taskMap :: exists i | 0 <= i < |tasks| :: tasks[i].id == id)
  }

  ghost predicate JobOk(c: Job) {
    ListsValues(c.tasks, c.taskMap) && c.start < c.end <= |c.tasks| && c.slice >= 1
  }

  // ---- results ---------------------------------------------------------

  function StatusOf(value: seq<TaskResult>, id: string): Option<Status> {
    if value == [] then None
    else
      var last := value[|value| - 1];
      if last.id == id then Some(last.status) else StatusOf(value[..|value| - 1], id)
  }

  /** The tasks a retry sends again. */
  function Retried(value: seq<TaskResult>, taskMap: map<string, Task>): seq<Task>
    requires forall i | 0 <= i < |value| :: value[i].id in taskMap
  {
    if value == [] then []
    else
      var last := value[|value| - 1];
      Retried(value[..|value| - 1], taskMap) + if last.status == ServerError then [taskMap[last.id]] else []
  }

  /** The ids that the service reports a server error for, in the order of its results. */
  function ServerErrors(value: seq<TaskResult>): seq<string> {
    if value == [] then []
    else
      (if value[0].status == ServerError then [value[0].id] else []) + ServerErrors(value[1..])
  }

  lemma {:induction false} ServerErrorsSnoc(value: seq<TaskResult>)
    requires value != []
    ensures ServerErrors(value) == ServerErrors(value[..|value| - 1]) +
      if value[|value| - 1].status == ServerError then [value[|value| - 1].id] else []
  {
    var n := |value| - 1;
    if n > 0 {
      var t := value[1..];
      ServerErrorsSnoc(t);
      assert t[..n - 1] == value[..n][1..] && t[n - 1] == value[n] && value[..n][0] == value[0];
    } else {
      assert value[..n] == [] && value[1..] == [];
    }
  }

  /** What is sent again are the tasks with these ids, each once, in that order. */
  lemma {:induction false} RetriedInOrder(value: seq<TaskResult>, tasks: seq<Task>, taskMap: map<string, Task>)
    requires ListsValues(tasks, taskMap) && forall i | 0 <= i < |value| :: value[i].id in taskMap
    ensures |Retried(value, taskMap)| == |ServerErrors(value)|
    ensures forall i | 0 <= i < |ServerErrors(value)| ::
      Retried(value, taskMap)[i].id == ServerErrors(value)[i] && Retried(value, taskMap)[i] in tasks
  {
    if value != [] {
      var n := |value| - 1;
      RetriedInOrder(value[..n], tasks, taskMap);
      ServerErrorsSnoc(value);
    }
  }

  /** One result for each of the tasks, in any order. */
  ghost predicate OneEach(value: seq<TaskResult>, tasks: seq<Task>) {
    && (forall i | 0 <= i < |value| :: HasTask(tasks, value[i].id))
    && (forall i, j | 0 <= i < j < |value| :: value[i].id != value[j].id)
    && (forall t | t in tasks :: StatusOf(value, t.id).Some?)
  }

  ghost predicate HasTask(tasks: seq<Task>, id: string) {
    exists t :: t in tasks && t.id == id
  }

  ghost predicate AnswerOk(a: Answer, tasks: seq<Task>) {
    a.Results? ==> OneEach(a.value, tasks)
  }

  // ---- the log ---------------------------------------------------------

  predicate Settled(e: Event) {
    e.Submit? && !e.answer.TooLarge?
  }

  predicate Rejected(e: Event) {
    e.Submit? && e.answer.TooLarge?
  }

  /** Where the next chunk starts. */
  function StartAt(c: Job, log: seq<Event>): nat {
    if log == [] then c.start
    else if Settled(Last(log)) then Last(log).hi
    else StartAt(c, Front(log))
  }

  /** How wide the next chunk may be: halved by every rejection, back to the
      initial width once a chunk went through. */
  function SliceAt(c: Job, log: seq<Event>): nat {
    if log == [] then c.slice
    else if Rejected(Last(log)) then Max(1, SliceAt(c, Front(log)) / 2)
    else c.slice
  }

  /** The tasks that wait for a retry. */
  function Waiting(c: Job, log: seq<Event>): seq<Task> {
    if log != [] && Last(log).answer.Results? && Known(c, Last(log).answer.value)
    then Retried(Last(log).answer.value, c.taskMap)
    else []
  }

  predicate Known(c: Job, value: seq<TaskResult>) {
    forall i | 0 <= i < |value| :: value[i].id in c.taskMap
  }

  /** A chunk of one task was rejected. */
  predicate Exhausted(c: Job, log: seq<Event>) {
    log != [] && Rejected(Last(log)) && SliceAt(c, Front(log)) == 1
  }

  /** The sub-collection call has ended with an exception: a chunk of one task
      is too large, or a retry got no results. */
  predicate Stopped(c: Job, log: seq<Event>) {
    Exhausted(c, log) || (log != [] && Last(log).Retry? && !Last(log).answer.Results?)
  }

  function TasksOf(c: Job, e: Event): seq<Task> {
    match e
    case Submit(lo, hi, _) => if lo <= hi <= |c.tasks| then c.tasks[lo..hi] else []
    case Retry(tasks, _) => tasks
  }

  /** e may follow log. */
  ghost predicate MayFollow(c: Job, log: seq<Event>, e: Event) {
    && !Stopped(c, log)
    && match e
       case Submit(lo, hi, _) =>
         && Waiting(c, log) == []
         && lo == StartAt(c, log) < c.end
         && hi == Min(lo + SliceAt(c, log), c.end)
       case Retry(tasks, _) => tasks == Waiting(c, log) != []
  }

  ghost predicate Legal(c: Job, log: seq<Event>) {
    log == [] ||
    (Legal(c, Front(log)) && MayFollow(c, Front(log), Last(log)) && AnswerOk(Last(log).answer, TasksOf(c, Last(log))))
  }

  /** The call has returned normally. */
  predicate Returned(c: Job, log: seq<Event>) {
    !Stopped(c, log) && StartAt(c, log) == c.end && Waiting(c, log) == []
  }

  // ---- the chunks partition the range --------------------------------------

  function Ranges(log: seq<Event>): seq<(nat, nat)> {
    if log == [] then []
    else Ranges(Front(log)) + if Settled(Last(log)) then [(Last(log).lo, Last(log).hi)] else []
  }

  /** The ranges lie end to end from lo to hi, none of them empty. */
  predicate Chain(ranges: seq<(nat, nat)>, lo: nat, hi: nat) {
    if ranges == [] then lo == hi
    else
      var r := ranges[|ranges| - 1];
      r.0 < r.1 == hi && Chain(ranges[..|ranges| - 1], lo, r.0)
  }

  function Covering(ranges: seq<(nat, nat)>, i: nat): nat {
    if ranges == [] then 0
    else
      var r := ranges[|ranges| - 1];
      Covering(ranges[..|ranges| - 1], i) + if r.0 <= i < r.1 then 1 else 0
  }

  lemma {:induction false} SlicePositive(c: Job, log: seq<Event>)
    requires c.slice >= 1
    ensures 1 <= SliceAt(c, log) <= c.slice
  {
    if log != [] {
      SlicePositive(c, Front(log));
    }
  }

  /** The chunks the service took (or refused for another reason) partition
      what was gone through, in order. */
  lemma {:induction false} ChunksPartition(c: Job, log: seq<Event>)
    requires JobOk(c) && Legal(c, log)
    ensures Chain(Ranges(log), c.start, StartAt(c, log)) && c.start <= StartAt(c, log) <= c.end
  {
    if log != [] {
      ChunksPartition(c, Front(log));
      SlicePositive(c, Front(log));
      if Settled(Last(log)) {
        assert Ranges(log)[..|Ranges(log)| - 1] == Ranges(Front(log));
      } else {
        assert Ranges(log) == Ranges(Front(log));
      }
    }
  }

  lemma {:induction false} ChainCoversOnce(ranges: seq<(nat, nat)>, lo: nat, hi: nat, i: nat)
    requires Chain(ranges, lo, hi)
    ensures lo + |ranges| <= hi
    ensures Covering(ranges, i) == if lo <= i < hi then 1 else 0
  {
    if ranges != [] {
      var r := ranges[|ranges| - 1];
      ChainCoversOnce(ranges[..|ranges| - 1], lo, r.0, i);
    }
  }

  // ---- how many chunk submissions ------------------------------------------

  function Submissions(log: seq<Event>): nat {
    if log == [] then 0 else Submissions(Front(log)) + if Last(log).Submit? then 1 else 0
  }

  /** Floor of the binary logarithm. */
  function Log2(n: nat): nat
    requires n >= 1
  {
    if n == 1 then 0 else 1 + Log2(n / 2)
  }

  function Pow2(k: nat): nat {
    if k == 0 then 1 else 2 * Pow2(k - 1)
  }

  lemma {:induction false} Log2IsFloor(n: nat)
    requires n >= 1
    ensures Pow2(Log2(n)) <= n < Pow2(Log2(n) + 1)
  {
    if n > 1 {
      Log2IsFloor(n / 2);
    }
  }

  /** Submissions for k chunks, each of them tried at all widths. */
  function Budget(k: nat, slice: nat): nat
    requires slice >= 1
  {
    k * (1 + Log2(slice))
  }

  lemma BudgetStep(k: nat, slice: nat)
    requires slice >= 1
    ensures Budget(k + 1, slice) == Budget(k, slice) + 1 + Log2(slice)
  {
  }

  lemma BudgetGrows(k: nat, n: nat, slice: nat)
    requires slice >= 1 && k <= n
    ensures Budget(k, slice) <= Budget(n, slice)
  {
    MulMono(k, n, 1 + Log2(slice));
  }

  ghost predicate WithinBudget(c: Job, log: seq<Event>)
    requires c.slice >= 1
  {
    && 1 <= SliceAt(c, log) <= c.slice
    && Submissions(log) + Log2(SliceAt(c, log)) <=
      Budget(|Ranges(log)|, c.slice) + Log2(c.slice) + if Exhausted(c, log) then 1 else 0
  }

  lemma SettledWithinBudget(c: Job, log: seq<Event>)
    requires JobOk(c) && log != [] && Legal(c, log) && WithinBudget(c, Front(log))
    requires Settled(Last(log))
    ensures WithinBudget(c, log)
  {
    BudgetStep(|Ranges(Front(log))|, c.slice);
  }

  lemma OtherWithinBudget(c: Job, log: seq<Event>)
    requires JobOk(c) && log != [] && Legal(c, log) && WithinBudget(c, Front(log))
    requires !Settled(Last(log))
    ensures WithinBudget(c, log)
  {
    assert Ranges(log) == Ranges(Front(log));
  }

  lemma {:induction false} SubmissionsSoFar(c: Job, log: seq<Event>)
    requires JobOk(c) && Legal(c, log)
    ensures WithinBudget(c, log)
  {
    if log != [] {
      SubmissionsSoFar(c, Front(log));
      if Settled(Last(log)) {
        SettledWithinBudget(c, log);
      } else {
        OtherWithinBudget(c, log);
      }
    }
  }

  lemma WidthIsRestored(c: Job, log: seq<Event>)
    requires JobOk(c) && Legal(c, log) && (Returned(c, log) || Stopped(c, log)) && !Exhausted(c, log)
    ensures SliceAt(c, log) == c.slice
  {
  }

  lemma RoomForOneMore(c: Job, log: seq<Event>)
    requires JobOk(c) && Legal(c, log)
    ensures |Ranges(log)| + (if Exhausted(c, log) then 1 else 0) <= c.end - c.start
  {
    ChunksPartition(c, log);
    ChainCoversOnce(Ranges(log), c.start, StartAt(c, log), 0);
  }

  lemma BudgetSuffices(submissions: nat, at: nat, k: nat, n: nat, slice: nat, extra: nat)
    requires slice >= 1 && at >= 1
    requires submissions + Log2(at) <= Budget(k, slice) + Log2(slice) + extra
    requires k + extra <= n && (if extra == 0 then at == slice else extra == 1)
    ensures submissions <= Budget(n, slice)
  {
    BudgetStep(k, slice);
    BudgetGrows(k + extra, n, slice);
  }

  lemma BudgetOfLog(c: Job, log: seq<Event>) returns (extra: nat)
    requires JobOk(c) && Legal(c, log)
    ensures extra == if Exhausted(c, log) then 1 else 0
    ensures SliceAt(c, log) >= 1 && |Ranges(log)| + extra <= c.end - c.start
    ensures Submissions(log) + Log2(SliceAt(c, log)) <= Budget(|Ranges(log)|, c.slice) + Log2(c.slice) + extra
  {
    extra := if Exhausted(c, log) then 1 else 0;
    SubmissionsSoFar(c, log);
    RoomForOneMore(c, log);
  }

  /** However the service answers, a call makes at most n (1 + log2 slice)
      chunk submissions for its n tasks. */
  lemma SubmissionsBounded(c: Job, log: seq<Event>)
    requires JobOk(c) && Legal(c, log) && (Returned(c, log) || Stopped(c, log))
    ensures Submissions(log) <= Budget(c.end - c.start, c.slice)
  {
    var extra := BudgetOfLog(c, log);
    if extra == 0 {
      WidthIsRestored(c, log);
    }
    BudgetSuffices(Submissions(log), SliceAt(c, log), |Ranges(log)|, c.end - c.start, c.slice, extra);
  }

  // ---- what becomes of each task -------------------------------------------

  /** The last thing the service said about a task. */
  function LastStatus(log: seq<Event>, id: string): Option<Status> {
    if log == [] then None
    else if Last(log).answer.Results? && StatusOf(Last(log).answer.value, id).Some?
    then StatusOf(Last(log).answer.value, id)
    else LastStatus(Front(log), id)
  }

  /** Task i was in a chunk whose submission failed for another reason than
      its size. */
  predicate Skipped(log: seq<Event>, i: nat) {
    log != [] && (Skipped(Front(log), i) ||
      (Last(log).Submit? && Last(log).answer.OtherError? && Last(log).lo <= i < Last(log).hi))
  }

  predicate Closed(s: Option<Status>) {
    s.Some? && s.value != ServerError
  }

  lemma {:induction false} StatusHasResult(value: seq<TaskResult>, id: string) returns (k: nat)
    requires StatusOf(value, id).Some?
    ensures k < |value| && value[k].id == id
  {
    if value[|value| - 1].id == id {
      k := |value| - 1;
    } else {
      k := StatusHasResult(value[..|value| - 1], id);
    }
  }

  lemma {:induction false} RetriedTasks(value: seq<TaskResult>, c: Job, t: Task)
    requires Known(c, value) && ListsValues(c.tasks, c.taskMap)
    requires forall i, j | 0 <= i < j < |value| :: value[i].id != value[j].id
    ensures t in Retried(value, c.taskMap) <==>
      t.id in c.taskMap && c.taskMap[t.id] == t && StatusOf(value, t.id) == Some(ServerError)
  {
    if value != [] {
      var n := |value| - 1;
      RetriedTasks(value[..n], c, t);
      if value[n].id == t.id && StatusOf(value[..n], t.id).Some? {
        var k := StatusHasResult(value[..n], t.id);
      }
      assert c.taskMap[value[n].id].id == value[n].id;
    }
  }

  lemma ReportedWasSent(value: seq<TaskResult>, tasks: seq<Task>, id: string)
    requires OneEach(value, tasks) && StatusOf(value, id).Some?
    ensures HasTask(tasks, id)
  {
    var k := StatusHasResult(value, id);
  }

  lemma ChunkIsKnown(c: Job, lo: nat, hi: nat, t: Task)
    requires JobOk(c) && lo <= hi <= |c.tasks| && t in c.tasks[lo..hi]
    ensures t.id in c.taskMap && c.taskMap[t.id] == t
  {
  }

  /** Only tasks of the map are ever sent, so every answer is about them. */
  lemma {:induction false} AnswersAreKnown(c: Job, log: seq<Event>)
    requires JobOk(c) && log != [] && Legal(c, log) && Last(log).answer.Results?
    ensures Known(c, Last(log).answer.value)
    ensures OneEach(Last(log).answer.value, TasksOf(c, Last(log)))
    decreases |log|, 0
  {
    forall t | t in TasksOf(c, Last(log)) ensures t.id in c.taskMap {
      match Last(log) {
        case Submit(lo, hi, _) => ChunkIsKnown(c, lo, hi, t);
        case Retry(_, _) => WaitingAreKnown(c, Front(log), t);
      }
    }
    ResultsAreKnown(c, Last(log).answer.value, TasksOf(c, Last(log)));
  }

  lemma ResultsAreKnown(c: Job, value: seq<TaskResult>, tasks: seq<Task>)
    requires OneEach(value, tasks) && forall t | t in tasks :: t.id in c.taskMap
    ensures Known(c, value)
  {
    forall i | 0 <= i < |value| ensures value[i].id in c.taskMap {
      assert HasTask(tasks, value[i].id);
    }
  }

  lemma {:induction false} WaitingAreKnown(c: Job, log: seq<Event>, t: Task)
    requires JobOk(c) && Legal(c, log) && t in Waiting(c, log)
    ensures t.id in c.taskMap && c.taskMap[t.id] == t
    ensures StatusOf(Last(log).answer.value, t.id) == Some(ServerError)
    decreases |log|, 1
  {
    AnswersAreKnown(c, log);
    RetriedTasks(Last(log).answer.value, c, t);
  }

  /** Where a task of the call stands after a log. */
  ghost predicate Standing(c: Job, log: seq<Event>, i: nat)
    requires i < |c.tasks|
  {
    var s := LastStatus(log, c.tasks[i].id);
    && (i >= StartAt(c, log) ==> s.None? && !Skipped(log, i))
    && (i < StartAt(c, log) ==> (Skipped(log, i) <==> s.None?))
    && (!Stopped(c, log) ==> (s == Some(ServerError) <==> c.tasks[i] in Waiting(c, log)))
  }

  lemma NotSentNotReported(c: Job, log: seq<Event>, i: nat)
    requires JobOk(c) && i < |c.tasks| && log != [] && Legal(c, log) && c.tasks[i] !in TasksOf(c, Last(log))
    ensures LastStatus(log, c.tasks[i].id) == LastStatus(Front(log), c.tasks[i].id)
    ensures c.tasks[i] !in Waiting(c, log)
  {
    var id := c.tasks[i].id;
    if Last(log).answer.Results? {
      AnswersAreKnown(c, log);
      RetriedTasks(Last(log).answer.value, c, c.tasks[i]);
      if StatusOf(Last(log).answer.value, id).Some? {
        ReportedWasSent(Last(log).answer.value, TasksOf(c, Last(log)), id);
        var t :| t in TasksOf(c, Last(log)) && t.id == id;
        match Last(log) {
          case Submit(lo, hi, _) => ChunkIsKnown(c, lo, hi, t);
          case Retry(_, _) => WaitingAreKnown(c, Front(log), t);
        }
      }
    }
  }

  lemma SentIsReported(c: Job, log: seq<Event>, i: nat)
    requires JobOk(c) && i < |c.tasks| && log != [] && Legal(c, log) && c.tasks[i] in TasksOf(c, Last(log))
    ensures var a, id := Last(log).answer, c.tasks[i].id;
      && (a.Results? ==> StatusOf(a.value, id).Some? && LastStatus(log, id) == StatusOf(a.value, id))
      && (!a.Results? ==> LastStatus(log, id) == LastStatus(Front(log), id))
      && (c.tasks[i] in Waiting(c, log) <==> a.Results? && LastStatus(log, id) == Some(ServerError))
  {
    if Last(log).answer.Results? {
      AnswersAreKnown(c, log);
      RetriedTasks(Last(log).answer.value, c, c.tasks[i]);
    }
  }

  lemma InChunk(c: Job, lo: nat, hi: nat, i: nat)
    requires JobOk(c) && lo <= hi <= |c.tasks| && i < |c.tasks|
    ensures c.tasks[i] in c.tasks[lo..hi] <==> lo <= i < hi
  {
    if lo <= i < hi {
      assert c.tasks[lo..hi][i - lo] == c.tasks[i];
    }
  }

  lemma {:induction false} TaskStanding(c: Job, log: seq<Event>, i: nat)
    requires JobOk(c) && Legal(c, log) && c.start <= i < c.end
    ensures Standing(c, log, i)
  {
    if log != [] {
      var f := Front(log);
      TaskStanding(c, f, i);
      match Last(log) {
        case Submit(lo, hi, _) =>
          SlicePositive(c, f);
          InChunk(c, lo, hi, i);
          ChunksPartition(c, f);
        case Retry(tasks, _) =>
      }
      if c.tasks[i] in TasksOf(c, Last(log)) {
        SentIsReported(c, log, i);
      } else {
        NotSentNotReported(c, log, i);
      }
    }
  }

  /** A chunk holds tasks the service has said nothing about yet; a retry holds
      exactly the tasks whose last result was a server error. */
  lemma WhatIsSent(c: Job, log: seq<Event>, i: nat)
    requires JobOk(c) && log != [] && Legal(c, log) && c.start <= i < c.end
    ensures Last(log).Submit? && c.tasks[i] in TasksOf(c, Last(log)) ==> LastStatus(Front(log), c.tasks[i].id).None?
    ensures Last(log).Retry? ==>
      (c.tasks[i] in Last(log).tasks <==> LastStatus(Front(log), c.tasks[i].id) == Some(ServerError))
  {
    TaskStanding(c, Front(log), i);
    if Last(log).Submit? {
      SlicePositive(c, Front(log));
      InChunk(c, Last(log).lo, Last(log).hi, i);
    }
  }

  function Additions(log: seq<Event>, id: string): nat {
    if log == [] then 0
    else
      Additions(Front(log), id) +
      if Last(log).answer.Results? && StatusOf(Last(log).answer.value, id) == Some(Added) then 1 else 0
  }

  /** No task is added twice. */
  lemma {:induction false} AddedAtMostOnce(c: Job, log: seq<Event>, i: nat)
    requires JobOk(c) && Legal(c, log) && c.start <= i < c.end
    ensures Additions(log, c.tasks[i].id) == if LastStatus(log, c.tasks[i].id) == Some(Added) then 1 else 0
  {
    if log != [] {
      AddedAtMostOnce(c, Front(log), i);
      WhatIsSent(c, log, i);
      if c.tasks[i] in TasksOf(c, Last(log)) {
        SentIsReported(c, log, i);
      } else {
        NotSentNotReported(c, log, i);
        NotReportedNotAdded(c, log, i);
      }
    }
  }

  lemma NotReportedNotAdded(c: Job, log: seq<Event>, i: nat)
    requires JobOk(c) && i < |c.tasks| && log != [] && Legal(c, log) && c.tasks[i] !in TasksOf(c, Last(log))
    ensures Last(log).answer.Results? ==> StatusOf(Last(log).answer.value, c.tasks[i].id).None?
  {
    var id := c.tasks[i].id;
    if Last(log).answer.Results? && StatusOf(Last(log).answer.value, id).Some? {
      AnswersAreKnown(c, log);
      ReportedWasSent(Last(log).answer.value, TasksOf(c, Last(log)), id);
      var t :| t in TasksOf(c, Last(log)) && t.id == id;
      match Last(log) {
        case Submit(lo, hi, _) => ChunkIsKnown(c, lo, hi, t);
        case Retry(_, _) => WaitingAreKnown(c, Front(log), t);
      }
    }
  }

  /** After a normal return every task was added or had a client error, except
      exactly those of the skipped chunks: nothing is known about them. */
  lemma ReturnedOutcome(c: Job, log: seq<Event>, i: nat)
    requires JobOk(c) && Legal(c, log) && Returned(c, log) && c.start <= i < c.end
    ensures Skipped(log, i) ==> LastStatus(log, c.tasks[i].id).None?
    ensures !Skipped(log, i) ==> Closed(LastStatus(log, c.tasks[i].id))
  {
    TaskStanding(c, log, i);
  }

  /** Some chunk submission failed for another reason than its size. */
  predicate AnyOtherError(log: seq<Event>) {
    log != [] && (AnyOtherError(Front(log)) || (Last(log).Submit? && Last(log).answer.OtherError?))
  }

  lemma {:induction false} OtherErrorSkips(c: Job, log: seq<Event>) returns (i: nat)
    requires JobOk(c) && Legal(c, log)
    ensures AnyOtherError(log) ==> c.start <= i < c.end && Skipped(log, i)
  {
    i := 0;
    if log != [] {
      if AnyOtherError(Front(log)) {
        i := OtherErrorSkips(c, Front(log));
      } else if AnyOtherError(log) {
        i := Last(log).lo;
        SlicePositive(c, Front(log));
        ChunksPartition(c, Front(log));
      }
    }
  }

  lemma {:induction false} SkippedByOtherError(log: seq<Event>, i: nat)
    requires Skipped(log, i)
    ensures AnyOtherError(log)
  {
    if Skipped(Front(log), i) {
      SkippedByOtherError(Front(log), i);
    }
  }

  /** A normal return means that every task was added or had a client error if
      and only if no chunk failed for another reason than its size. */
  lemma CompleteIffNoOtherError(c: Job, log: seq<Event>)
    requires JobOk(c) && Legal(c, log) && Returned(c, log)
    ensures (forall i | c.start <= i < c.end :: Closed(LastStatus(log, c.tasks[i].id))) <==> !AnyOtherError(log)
  {
    if AnyOtherError(log) {
      var i := OtherErrorSkips(c, log);
      ReturnedOutcome(c, log, i);
    } else {
      forall i | c.start <= i < c.end ensures Closed(LastStatus(log, c.tasks[i].id)) {
        ReturnedOutcome(c, log, i);
        if Skipped(log, i) {
          SkippedByOtherError(log, i);
        }
      }
    }
  }

  lemma WaitingWasSent(c: Job, log: seq<Event>, t: Task)
    requires JobOk(c) && Legal(c, log) && t in Waiting(c, log)
    ensures t in TasksOf(c, Last(log))
  {
    WaitingAreKnown(c, log, t);
    AnswersAreKnown(c, log);
    ReportedWasSent(Last(log).answer.value, TasksOf(c, Last(log)), t.id);
    var u :| u in TasksOf(c, Last(log)) && u.id == t.id;
    match Last(log) {
      case Submit(lo, hi, _) => ChunkIsKnown(c, lo, hi, u);
      case Retry(_, _) => WaitingAreKnown(c, Front(log), u);
    }
  }

  lemma IndexInChunk(c: Job, lo: nat, hi: nat, t: Task) returns (i: nat)
    requires lo <= hi <= |c.tasks| && t in c.tasks[lo..hi]
    ensures lo <= i < hi && c.tasks[i] == t
  {
    var k :| 0 <= k < hi - lo && c.tasks[lo..hi][k] == t;
    i := lo + k;
  }

  lemma {:induction false} SentInRange(c: Job, log: seq<Event>, t: Task) returns (i: nat)
    requires JobOk(c) && log != [] && Legal(c, log) && t in TasksOf(c, Last(log))
    ensures c.start <= i < c.end && c.tasks[i] == t
    decreases |log|
  {
    var f := Front(log);
    match Last(log) {
      case Submit(lo, hi, _) =>
        ChunksPartition(c, f);
        i := IndexInChunk(c, lo, hi, t);
      case Retry(_, _) =>
        WaitingWasSent(c, f, t);
        i := SentInRange(c, f, t);
    }
  }

  /** A call that raised leaves some task without a verdict. */
  lemma StoppedIsIncomplete(c: Job, log: seq<Event>) returns (i: nat)
    requires JobOk(c) && Legal(c, log) && Stopped(c, log)
    ensures c.start <= i < c.end && !Closed(LastStatus(log, c.tasks[i].id))
  {
    var f := Front(log);
    if Exhausted(c, log) {
      ChunksPartition(c, f);
      i := StartAt(c, f);
      TaskStanding(c, log, i);
    } else {
      var t := Last(log).tasks[0];
      WaitingAreKnown(c, f, t);
      i := SentInRange(c, log, t);
      TaskStanding(c, f, i);
    }
  }

  // ---- the program -----------------------------------------------------

  /** How often the service gave a result for a task. */
  function Tries(log: seq<Event>, id: string): nat {
    if log == [] then 0
    else
      Tries(Front(log), id) +
      if Last(log).answer.Results? && StatusOf(Last(log).answer.value, id).Some? then 1 else 0
  }

  /** The service gives one result per task, and no server error for a task it
      gave `patience` results for already. */
  ghost predicate Serves(service: Service, patience: nat) {
    && (forall log, tasks :: AnswerOk(service(log, tasks), tasks))
    && (forall log, tasks, id :: Gentle(service(log, tasks), log, id, patience))
  }

  predicate Gentle(a: Answer, log: seq<Event>, id: string, patience: nat) {
    a.Results? && StatusOf(a.value, id) == Some(ServerError) ==> Tries(log, id) < patience
  }

  ghost predicate FromService(service: Service, c: Job, log: seq<Event>) {
    log == [] ||
    (FromService(service, c, Front(log)) && Last(log).answer == service(Front(log), TasksOf(c, Last(log))))
  }

  /** The loop over the results that collects what to retry. */
  method CollectRetries(value: seq<TaskResult>, taskMap: map<string, Task>) returns (retry: seq<Task>)
    requires forall i | 0 <= i < |value| :: value[i].id in taskMap
    ensures retry == Retried(value, taskMap)
  {
    retry := [];
    for k := 0 to |value|
      invariant retry == Retried(value[..k], taskMap)
    {
      assert value[..k + 1][..k] == value[..k];
      if value[k].status == ServerError {
        retry := retry + [taskMap[value[k].id]];
      }
    }
    assert value[..|value|] == value;
  }

  /** The log after one more call. */
  ghost predicate Extends(service: Service, c: Job, log: seq<Event>, after: seq<Event>, e: Event) {
    && after == log + [e] && e.answer == service(log, TasksOf(c, e))
    && Legal(c, after) && FromService(service, c, after)
    && Front(after) == log && Last(after) == e
  }

  lemma Extended(service: Service, patience: nat, c: Job, log: seq<Event>, e: Event)
    requires Serves(service, patience) && Legal(c, log) && FromService(service, c, log)
    requires MayFollow(c, log, e) && e.answer == service(log, TasksOf(c, e))
    ensures Extends(service, c, log, log + [e], e)
  {
    assert Front(log + [e]) == log;
    assert AnswerOk(service(log, TasksOf(c, e)), TasksOf(c, e));
  }

  /** Every waiting task has had k results. */
  ghost predicate Patient(c: Job, log: seq<Event>, k: nat) {
    forall t | t in Waiting(c, log) :: Tries(log, t.id) >= k
  }

  lemma RetryIsPatient(service: Service, patience: nat, c: Job, log: seq<Event>, after: seq<Event>, e: Event, k: nat)
    requires JobOk(c) && Serves(service, patience) && Legal(c, log) && Patient(c, log, k)
    requires e.Retry? && Extends(service, c, log, after, e)
    ensures Patient(c, after, k + 1)
    ensures Waiting(c, after) == [] || k + 1 <= patience
  {
    forall t | t in Waiting(c, after) ensures Tries(after, t.id) >= k + 1 && k + 1 <= patience {
      WaitingAreKnown(c, after, t);
      AnswersAreKnown(c, after);
      ReportedWasSent(e.answer.value, e.tasks, t.id);
      var u :| u in e.tasks && u.id == t.id;
      assert Gentle(service(log, e.tasks), log, t.id, patience);
    }
    if Waiting(c, after) != [] {
      assert Waiting(c, after)[0] in Waiting(c, after);
    }
  }

  /** The loop that goes through the results of a chunk and retries. */
  method RetryServerErrors(service: Service, ghost patience: nat, c: Job, before: seq<Event>)
    returns (log: seq<Event>, raised: bool)
    requires JobOk(c) && Serves(service, patience) && Legal(c, before) && FromService(service, c, before)
    requires before != [] && Last(before).Submit? && Last(before).answer.Results?
    ensures Legal(c, log) && FromService(service, c, log) && log != [] && !Rejected(Last(log))
    ensures raised == Stopped(c, log) && StartAt(c, log) == StartAt(c, before)
    ensures !raised ==> Waiting(c, log) == []
  {
    log := before;
    var value := Last(before).answer.value;
    ghost var k := 0;
    while true
      invariant Legal(c, log) && FromService(service, c, log) && !Stopped(c, log) && Patient(c, log, k)
      invariant log != [] && Last(log).answer == Results(value)
      invariant StartAt(c, log) == StartAt(c, before)
      invariant Waiting(c, log) == [] || k <= patience
      decreases patience - k
    {
      AnswersAreKnown(c, log);
      var retry := CollectRetries(value, c.taskMap);
      if |retry| == 0 {
        return log, false;
      }
      var answer := service(log, retry);
      ghost var e := Retry(retry, answer);
      Extended(service, patience, c, log, e);
      RetryIsPatient(service, patience, c, log, log + [e], e, k);
      log := log + [Retry(retry, answer)];
      k := k + 1;
      if !answer.Results? {
        return log, true;
      }
      value := answer.value;
    }
  }

  /** _submit_task_sub_collection */
  method SubmitSubCollection(service: Service, ghost patience: nat, c: Job) returns (log: seq<Event>, raised: bool)
    requires JobOk(c) && Serves(service, patience)
    ensures Legal(c, log) && FromService(service, c, log)
    ensures if raised then Stopped(c, log) else Returned(c, log)
  {
    log := [];
    var start: nat, slice: int := c.start, c.slice;
    while true
      invariant Legal(c, log) && FromService(service, c, log) && !Stopped(c, log) && Waiting(c, log) == []
      invariant start == StartAt(c, log) < c.end && slice == SliceAt(c, log) >= 1
      decreases c.end - start, slice
    {
      var chunkEnd := start + slice;
      if chunkEnd > c.end {
        chunkEnd := c.end;
      }
      var answer := service(log, c.tasks[start..chunkEnd]);
      Extended(service, patience, c, log, Submit(start, chunkEnd, answer));
      log := log + [Submit(start, chunkEnd, answer)];
      match answer {
        case TooLarge =>
          if slice == 1 {
            return log, true;
          }
          slice := slice / 2;
          if slice < 1 {
            slice := 1;
          }
          continue;
        case OtherError =>
        case Results(_) =>
          log, raised := RetryServerErrors(service, patience, c, log);
          if raised {
            return;
          }
      }
      if chunkEnd == c.end {
        return log, false;
      }
      start, slice := chunkEnd, c.slice;
    }
  }

  // ---- whole task collections ------------------------------------------

  /** The b-th block that _add_task_collection hands to the executor. */
  function Block(tasks: seq<Task>, taskMap: map<string, Task>, b: nat): Job {
    var start, end := b * MAX_TASKS_PER_CALL, Min((b + 1) * MAX_TASKS_PER_CALL, |tasks|);
    Job(tasks, taskMap, start, end, if start < end then end - start else 0)
  }

  /** The blocks are a hundred tasks each, the last one what is left. */
  lemma BlocksOfHundred(tasks: seq<Task>, taskMap: map<string, Task>, b: nat)
    requires b < CeilDiv(|tasks|, MAX_TASKS_PER_CALL)
    ensures var c := Block(tasks, taskMap, b);
      c.start == 100 * b && c.end == (if b + 1 < CeilDiv(|tasks|, MAX_TASKS_PER_CALL) then 100 * (b + 1) else |tasks|)
    ensures var c := Block(tasks, taskMap, b); 0 < c.end - c.start == c.slice <= 100
  {
    CeilDivBounds(|tasks|, MAX_TASKS_PER_CALL);
  }

  /** Block b was submitted by a call of its own, to an end or to an exception. */
  ghost predicate BlockDone(tasks: seq<Task>, taskMap: map<string, Task>, b: nat, log: seq<Event>) {
    var c := Block(tasks, taskMap, b);
    JobOk(c) && Legal(c, log) && (Returned(c, log) || Stopped(c, log))
  }

  /** Every block of the logs was submitted by a call of its own. */
  ghost predicate AllDone(tasks: seq<Task>, taskMap: map<string, Task>, logs: seq<seq<Event>>) {
    forall b | 0 <= b < |logs| :: BlockDone(tasks, taskMap, b, logs[b])
  }

  lemma OneMoreDone(tasks: seq<Task>, taskMap: map<string, Task>, logs: seq<seq<Event>>, log: seq<Event>)
    requires AllDone(tasks, taskMap, logs) && BlockDone(tasks, taskMap, |logs|, log)
    ensures AllDone(tasks, taskMap, logs + [log])
  {
  }

  /** b blocks have been handed over and the next would begin at start. */
  ghost predicate Handed(b: nat, start: nat, n: nat) {
    start == b * MAX_TASKS_PER_CALL && (start < n ==> b < CeilDiv(n, MAX_TASKS_PER_CALL)) &&
    (start >= n ==> b == CeilDiv(n, MAX_TASKS_PER_CALL))
  }

  lemma HandedNone(n: nat)
    ensures Handed(0, 0, n)
  {
    CeilDivBounds(n, MAX_TASKS_PER_CALL);
  }

  lemma HandedMore(b: nat, start: nat, n: nat)
    requires Handed(b, start, n) && start < n
    ensures Handed(b + 1, start + MAX_TASKS_PER_CALL, n)
  {
    CeilDivBounds(n, MAX_TASKS_PER_CALL);
    if start + MAX_TASKS_PER_CALL >= n {
      CeilDivUnique(n, MAX_TASKS_PER_CALL, b + 1);
    }
  }

  lemma BlockShape(tasks: seq<Task>, taskMap: map<string, Task>, b: nat, start: nat, end: nat)
    requires ListsValues(tasks, taskMap) && Handed(b, start, |tasks|) && start < |tasks|
    requires end == Min(start + MAX_TASKS_PER_CALL, |tasks|)
    ensures start < end && Block(tasks, taskMap, b) == Job(tasks, taskMap, start, end, end - start)
    ensures JobOk(Block(tasks, taskMap, b))
  {
  }

  /** _add_task_collection. The executor runs the blocks in any interleaving:
      services(b) is the service as block b sees it. Nobody looks at the
      outcome of the blocks, so the method never raises. */
  method AddTaskCollection(services: nat -> Service, ghost patience: nat, tasks: seq<Task>, taskMap: map<string, Task>)
    returns (logs: seq<seq<Event>>)
    requires ListsValues(tasks, taskMap)
    requires forall b :: Serves(services(b), patience)
    ensures |logs| == CeilDiv(|tasks|, MAX_TASKS_PER_CALL)
    ensures AllDone(tasks, taskMap, logs)
  {
    logs := [];
    var start := 0;
    HandedNone(|tasks|);
    while start < |tasks|
      invariant Handed(|logs|, start, |tasks|)
      invariant AllDone(tasks, taskMap, logs)
    {
      var end := start + MAX_TASKS_PER_CALL;
      if end > |tasks| {
        end := |tasks|;
      }
      HandedMore(|logs|, start, |tasks|);
      BlockShape(tasks, taskMap, |logs|, start, end);
      var job := Job(tasks, taskMap, start, end, end - start);
      var log, _ := SubmitSubCollection(services(|logs|), patience, job);
      OneMoreDone(tasks, taskMap, logs, log);
      logs := logs + [log];
      start := start + MAX_TASKS_PER_CALL;
    }
  }

  /** In how many chunks that were not too large, over all blocks, task i was. */
  function TotalCovering(logs: seq<seq<Event>>, i: nat): nat {
    if logs == [] then 0
    else TotalCovering(logs[..|logs| - 1], i) + Covering(Ranges(logs[|logs| - 1]), i)
  }

  /** i lies in block b and in no other. */
  predicate InBlock(tasks: seq<Task>, taskMap: map<string, Task>, b: nat, i: nat) {
    Block(tasks, taskMap, b).start <= i < Block(tasks, taskMap, b).end
  }

  lemma BlocksDisjoint(tasks: seq<Task>, taskMap: map<string, Task>, b: nat, n: nat, i: nat)
    requires InBlock(tasks, taskMap, b, i) && InBlock(tasks, taskMap, n, i)
    ensures b == n
  {
    var m := MAX_TASKS_PER_CALL;
    assert b * m <= i < (b + 1) * m && n * m <= i < (n + 1) * m;
    if b + 1 <= n {
      MulMono(b + 1, n, m);
    }
    if n + 1 <= b {
      MulMono(n + 1, b, m);
    }
  }

  lemma BlockExists(tasks: seq<Task>, taskMap: map<string, Task>, i: nat)
    requires i < |tasks|
    ensures i / MAX_TASKS_PER_CALL < CeilDiv(|tasks|, MAX_TASKS_PER_CALL)
    ensures InBlock(tasks, taskMap, i / MAX_TASKS_PER_CALL, i)
  {
    var b := i / MAX_TASKS_PER_CALL;
    assert b * MAX_TASKS_PER_CALL <= i < (b + 1) * MAX_TASKS_PER_CALL;
  }

  lemma {:induction false} CoveredByItsBlock(tasks: seq<Task>, taskMap: map<string, Task>, logs: seq<seq<Event>>,
                                             i: nat, b: nat)
    requires AllDone(tasks, taskMap, logs)
    requires InBlock(tasks, taskMap, b, i)
    ensures TotalCovering(logs, i) == if b < |logs| && i < StartAt(Block(tasks, taskMap, b), logs[b]) then 1 else 0
  {
    if logs != [] {
      var n := |logs| - 1;
      CoveredByItsBlock(tasks, taskMap, logs[..n], i, b);
      assert BlockDone(tasks, taskMap, n, logs[n]);
      var c := Block(tasks, taskMap, n);
      ChunksPartition(c, logs[n]);
      ChainCoversOnce(Ranges(logs[n]), c.start, StartAt(c, logs[n]), i);
      if InBlock(tasks, taskMap, n, i) {
        BlocksDisjoint(tasks, taskMap, b, n, i);
      }
    }
  }

  /** Entry i of the map is in a chunk that was not too large once if the call for its block
      got past it, and otherwise never; the call gets past all its tasks unless
      it raises. */
  lemma EachEntryOnce(tasks: seq<Task>, taskMap: map<string, Task>, logs: seq<seq<Event>>, i: nat)
    requires |logs| == CeilDiv(|tasks|, MAX_TASKS_PER_CALL)
    requires AllDone(tasks, taskMap, logs)
    requires i < |tasks|
    ensures var b := i / MAX_TASKS_PER_CALL;
      && b < |logs|
      && InBlock(tasks, taskMap, b, i)
      && TotalCovering(logs, i) == (if i < StartAt(Block(tasks, taskMap, b), logs[b]) then 1 else 0)
      && (Returned(Block(tasks, taskMap, b), logs[b]) ==> TotalCovering(logs, i) == 1)
  {
    var b := i / MAX_TASKS_PER_CALL;
    BlockExists(tasks, taskMap, i);
    CoveredByItsBlock(tasks, taskMap, logs, i, b);
  }

  /** A block went through: its call returned and no chunk of it was skipped. */
  predicate Clean(c: Job, log: seq<Event>) {
    Returned(c, log) && !AnyOtherError(log)
  }

  /** Task i was added or had a client error, as far as the call for its block
      was told. */
  predicate Delivered(tasks: seq<Task>, logs: seq<seq<Event>>, i: nat)
    requires i < |tasks| && i / MAX_TASKS_PER_CALL < |logs|
  {
    Closed(LastStatus(logs[i / MAX_TASKS_PER_CALL], tasks[i].id))
  }

  lemma BlockOfTask(tasks: seq<Task>, taskMap: map<string, Task>, b: nat, i: nat)
    requires InBlock(tasks, taskMap, b, i)
    ensures i < |tasks| && i / MAX_TASKS_PER_CALL == b
  {
    BlockExists(tasks, taskMap, i);
    BlocksDisjoint(tasks, taskMap, b, i / MAX_TASKS_PER_CALL, i);
  }

  lemma UncleanIsIncomplete(tasks: seq<Task>, taskMap: map<string, Task>, logs: seq<seq<Event>>, b: nat) returns (i: nat)
    requires AllDone(tasks, taskMap, logs) && b < |logs| && !Clean(Block(tasks, taskMap, b), logs[b])
    ensures i < |tasks| && i / MAX_TASKS_PER_CALL == b && !Delivered(tasks, logs, i)
  {
    var c := Block(tasks, taskMap, b);
    assert BlockDone(tasks, taskMap, b, logs[b]);
    if Stopped(c, logs[b]) {
      i := StoppedIsIncomplete(c, logs[b]);
    } else {
      i := OtherErrorSkips(c, logs[b]);
      ReturnedOutcome(c, logs[b], i);
    }
    BlockOfTask(tasks, taskMap, b, i);
  }

  /** The whole map was delivered if and only if every block went through. */
  lemma CollectionCompleteIff(tasks: seq<Task>, taskMap: map<string, Task>, logs: seq<seq<Event>>)
    requires |logs| == CeilDiv(|tasks|, MAX_TASKS_PER_CALL) && AllDone(tasks, taskMap, logs)
    ensures forall i | 0 <= i < |tasks| :: i / MAX_TASKS_PER_CALL < |logs|
    ensures (forall i | 0 <= i < |tasks| :: Delivered(tasks, logs, i)) <==>
      (forall b | 0 <= b < |logs| :: Clean(Block(tasks, taskMap, b), logs[b]))
  {
    forall i | 0 <= i < |tasks|
      ensures i / MAX_TASKS_PER_CALL < |logs|
      ensures Clean(Block(tasks, taskMap, i / MAX_TASKS_PER_CALL), logs[i / MAX_TASKS_PER_CALL]) ==> Delivered(tasks, logs, i)
    {
      var b := i / MAX_TASKS_PER_CALL;
      BlockExists(tasks, taskMap, i);
      assert BlockDone(tasks, taskMap, b, logs[b]);
      if Clean(Block(tasks, taskMap, b), logs[b]) {
        CompleteIffNoOtherError(Block(tasks, taskMap, b), logs[b]);
      }
    }
    forall b | 0 <= b < |logs| && !Clean(Block(tasks, taskMap, b), logs[b])
      ensures !(forall i | 0 <= i < |tasks| :: Delivered(tasks, logs, i))
    {
      var i := UncleanIsIncomplete(tasks, taskMap, logs, b);
    }
  }
}
