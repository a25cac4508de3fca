/** The bounded queue of transfer jobs with one worker. Every method is one stretch of the program that
    runs under the lock, or one statement the worker executes outside it; a schedule is any interleaving. */
module TransferQueue {
  import opened Common

  datatype Status = Pending | Running | Retrying | Paused | AwaitingAck | Done | Failed | Cancelled

  /** The retry count it was submitted with, and how often its function ran since, are kept beside it. */
  datatype Job = Job(status: Status, retryCount: nat, maxRetries: int, base: nat, runs: nat)

  /** Jobs and functions are objects; they are named by numbers. */
  type Ref = nat
  type Task = nat

  datatype Item = Work(id: TransferId, task: Task) | Sentinel

  /** Where the worker is. It looks at a job's status and writes it in two steps, without the lock, so what it
      saw is part of where it is. Leaving a job says whether its retry was refused. */
  datatype Worker =
    | Idle | Gone
    | Holding(id: TransferId, task: Task)
    | Started(id: TransferId, task: Task, ref: Ref)
    | Beginning(id: TransferId, task: Task, ref: Ref, waits: bool)
    | Executing(id: TransferId, task: Task, ref: Ref)
    | Settling(id: TransferId, task: Task, ref: Ref, seen: Status)
    | Marking(id: TransferId, task: Task, ref: Ref, halted: bool)
    | Deciding(id: TransferId, task: Task, ref: Ref)
    | Failing(id: TransferId, task: Task, ref: Ref)
    | Scheduling(id: TransferId, task: Task, ref: Ref)
    | Arming(id: TransferId, task: Task, ref: Ref)
    | Leaving(id: TransferId, refused: bool)

  datatype Retry = Retry(id: TransferId, task: Task)

  datatype Action =
    | Submit(ref: Ref, task: Task, maxRetries: int, retryCount: nat)
    | Cancel(id: TransferId)
    | Get | Start | Look | Begin | FuncSets(status: Status) | FuncReturns | Settle | FuncRaises | Mark | Decide | Fail
    | ScheduleRetry | ArmTimer | Finish
    | Requeue(retry: Retry)
    | Shutdown(cancelPending: bool) | Drain(cancelPending: bool) | PutSentinel

  predicate Terminal(s: Status) {
    s == Done || s == Failed || s == Cancelled
  }

  function Bound(maxRetries: int): int {
    if maxRetries < 1 then 1 else maxRetries
  }

  /** The job in the worker's hands between its start and the end of its turn. */
  predicate Busy(w: Worker) {
    w.Started? || w.Beginning? || w.Executing? || w.Settling? || w.Marking? || w.Deciding? || w.Failing? || w.Scheduling? || w.Arming?
  }

  /** The counts of a job that waits for a turn. */
  predicate WaitingCounts(j: Job) {
    j.retryCount == j.base + j.runs && (j.runs > 0 ==> j.retryCount < j.maxRetries)
  }

  /** Its function may run no more than this often. */
  predicate WithinBound(j: Job) {
    j.runs <= Bound(j.maxRetries)
  }

  /** The queue as a value. What a job's loss is due to is kept with it. */
  datatype Q = Q(
    fifo: seq<Item>, table: map<Ref, Job>, jobs: map<TransferId, Ref>, tasks: map<TransferId, Task>, queued: set<TransferId>,
    active: set<TransferId>, retryPending: set<TransferId>, retries: set<Retry>, accepting: bool, stopped: bool, worker: Worker,
    lost: set<Ref>, refused: set<Ref>, abandoned: set<Ref>)

  /** A job object belongs to one transfer; the queue holds so many items. */
  datatype Setting = Setting(maxsize: nat, idOf: Ref -> TransferId)

  predicate InFifo(fifo: seq<Item>, id: TransferId) {
    exists k :: 0 <= k < |fifo| && fifo[k].Work? && fifo[k].id == id
  }

  ghost predicate Once(fifo: seq<Item>) {
    forall i, j :: 0 <= i < j < |fifo| && fifo[i].Work? && fifo[j].Work? ==> fifo[i].id != fifo[j].id
  }

  /** No transfer waits twice, and the queued ones are those that wait or are in the worker's hand. */
  ghost predicate QueueOk(q: Q) {
    && Once(q.fifo) && (q.worker.Holding? ==> !InFifo(q.fifo, q.worker.id))
    && (forall id :: id in q.queued <==> InFifo(q.fifo, id) || (q.worker.Holding? && q.worker.id == id))
  }

  /** The worker's job is the active one; nothing is in two places. */
  ghost predicate PlacesOk(s: Setting, q: Q) {
    && (Busy(q.worker) ==> q.worker.id in q.jobs && q.jobs[q.worker.id] == q.worker.ref)
    && (if Busy(q.worker) then q.active == {q.worker.id} else if q.worker.Leaving? then q.active <= {q.worker.id} else q.active == {})
    && q.active !! q.queued && q.retryPending !! q.queued
    && (forall id :: id in q.retryPending && id in q.active ==> q.worker.Arming? || q.worker.Leaving?)
    && (forall id :: id in q.jobs ==> q.jobs[id] in q.table && s.idOf(q.jobs[id]) == id)
    && q.queued <= q.jobs.Keys && q.active <= q.jobs.Keys && q.retryPending <= q.jobs.Keys
    && (q.stopped ==> q.retryPending == {}) && (q.accepting <==> !q.stopped)
  }

  predicate Alive(q: Q, id: TransferId) {
    id in q.jobs && q.jobs[id] in q.table && !Terminal(q.table[q.jobs[id]].status)
  }

  /** A job that has not ended is queued, active or waiting for its retry. */
  ghost predicate TrackedOk(q: Q) {
    && (forall id :: Alive(q, id) ==> id in q.queued || id in q.active || id in q.retryPending)
    && (q.worker.Leaving? && Alive(q, q.worker.id) && q.worker.id in q.active && q.worker.id !in q.retryPending ==>
        q.worker.refused || q.jobs[q.worker.id] in q.abandoned)
    && (q.worker.Arming? && Alive(q, q.worker.id) && !q.stopped ==> q.worker.id in q.retryPending)
    && (q.worker.Settling? && Terminal(q.worker.seen) ==> !Alive(q, q.worker.id))
  }

  /** How often each job ran. */
  ghost predicate CountsOk(q: Q) {
    && (forall r :: r in q.table ==> WithinBound(q.table[r]))
    && (forall id :: id in q.jobs && q.jobs[id] in q.table && (id in q.queued || id in q.retryPending) ==> WaitingCounts(q.table[q.jobs[id]]))
    && (Busy(q.worker) && q.worker.ref in q.table ==> WorkCounts(q.worker, q.table[q.worker.ref]))
  }

  predicate WorkCounts(w: Worker, j: Job) {
    && (w.Started? || w.Beginning? || w.Scheduling? || w.Arming? ==> WaitingCounts(j))
    && (w.Executing? || w.Settling? || w.Marking? ==> j.retryCount + 1 == j.base + j.runs)
    && (w.Deciding? ==> j.retryCount == j.base + j.runs || (j.status == Cancelled && j.retryCount + 1 == j.base + j.runs))
  }

  /** Only a shutdown loses jobs: one that abandons them, or one that comes between the decision to
      retry and the scheduling of the retry. */
  ghost predicate LossesOk(q: Q) {
    && q.lost <= q.refused + q.abandoned && (!q.stopped ==> q.refused == {} && q.abandoned == {})
    && (q.worker.Leaving? && q.worker.refused ==> q.stopped && q.worker.id in q.active && q.worker.id in q.jobs && q.jobs[q.worker.id] in q.refused)
  }

  ghost predicate Good(s: Setting, q: Q) {
    QueueOk(q) && PlacesOk(s, q) && TrackedOk(q) && CountsOk(q) && LossesOk(q)
  }

  lemma InFifoMore(fifo: seq<Item>, x: Item)
    ensures forall id :: InFifo(fifo + [x], id) <==> InFifo(fifo, id) || (x.Work? && x.id == id)
    ensures Once(fifo + [x]) <==> Once(fifo) && (x.Work? ==> !InFifo(fifo, x.id))
  {
    forall id ensures InFifo(fifo + [x], id) <==> InFifo(fifo, id) || (x.Work? && x.id == id) {
      if InFifo(fifo, id) {
        var k :| 0 <= k < |fifo| && fifo[k].Work? && fifo[k].id == id;
        assert (fifo + [x])[k] == fifo[k];
      }
      assert (fifo + [x])[|fifo|] == x;
    }
    if Once(fifo + [x]) {
      forall i, j | 0 <= i < j < |fifo| && fifo[i].Work? && fifo[j].Work? ensures fifo[i].id != fifo[j].id {
        assert (fifo + [x])[i] == fifo[i] && (fifo + [x])[j] == fifo[j];
      }
      forall k | 0 <= k < |fifo| && fifo[k].Work? && x.Work? ensures fifo[k].id != x.id {
        assert (fifo + [x])[k] == fifo[k] && (fifo + [x])[|fifo|] == x;
      }
    }
  }

  lemma InFifoRest(fifo: seq<Item>)
    requires fifo != []
    ensures forall id :: InFifo(fifo, id) <==> (fifo[0].Work? && fifo[0].id == id) || InFifo(fifo[1..], id)
    ensures Once(fifo) ==> Once(fifo[1..]) && (fifo[0].Work? ==> !InFifo(fifo[1..], fifo[0].id))
  {
    forall id ensures InFifo(fifo, id) <==> (fifo[0].Work? && fifo[0].id == id) || InFifo(fifo[1..], id) {
      if InFifo(fifo[1..], id) {
        var k :| 0 <= k < |fifo[1..]| && fifo[1..][k].Work? && fifo[1..][k].id == id;
        assert fifo[k + 1] == fifo[1..][k];
      }
      if InFifo(fifo, id) && !(fifo[0].Work? && fifo[0].id == id) {
        var k :| 0 <= k < |fifo| && fifo[k].Work? && fifo[k].id == id;
        assert fifo[1..][k - 1] == fifo[k];
      }
    }
  }

  // ---------------------------------------------------------------- the steps

  function WithStatus(q: Q, r: Ref, st: Status): Q
    requires r in q.table
  {
    q.(table := q.table[r := q.table[r].(status := st)])
  }

  /** The transfer leaves the queue. A job that had not ended is lost. */
  function Removed(q: Q, id: TransferId): Q {
    q.(jobs := q.jobs - {id}, tasks := q.tasks - {id}, lost := if Alive(q, id) then q.lost + {q.jobs[id]} else q.lost)
  }

  predicate Admits(s: Setting, q: Q, ref: Ref) {
    q.accepting && !q.stopped && s.idOf(ref) !in q.jobs && |q.fifo| < s.maxsize
  }

  function Submitted(s: Setting, q: Q, ref: Ref, task: Task, maxRetries: int, retryCount: nat): Q {
    var id := s.idOf(ref);
    if !Admits(s, q, ref) then q
    else q.(fifo := q.fifo + [Work(id, task)], table := q.table[ref := Job(Pending, retryCount, maxRetries, retryCount, 0)],
            jobs := q.jobs[id := ref], tasks := q.tasks[id := task], queued := q.queued + {id})
  }

  function AfterCancel(q: Q, id: TransferId): Q {
    if id !in q.jobs || q.jobs[id] !in q.table then q
    else
      var c := WithStatus(q, q.jobs[id], Cancelled).(retryPending := q.retryPending - {id});
      if id !in q.queued && id !in q.active then Removed(c, id) else c
  }

  /** The worker takes the oldest item, or goes when there is none on a stopped queue. */
  function Got(q: Q): Q {
    if !q.worker.Idle? then q
    else if q.fifo == [] then if q.stopped then q.(worker := Gone) else q
    else q.(fifo := q.fifo[1..], worker := if q.fifo[0].Sentinel? then Gone else Holding(q.fifo[0].id, q.fifo[0].task))
  }

  function AfterStart(q: Q): Q {
    if !q.worker.Holding? then q
    else
      var id, task := q.worker.id, q.worker.task;
      var u := q.(queued := q.queued - {id});
      if id !in q.jobs || q.jobs[id] !in q.table then u.(worker := Leaving(id, false))
      else
        var v := if q.stopped && q.table[q.jobs[id]].status != Cancelled then WithStatus(u, q.jobs[id], Cancelled) else u;
        if v.table[q.jobs[id]].status == Cancelled then v.(worker := Leaving(id, false))
        else v.(active := v.active + {id}, worker := Started(id, task, q.jobs[id]))
  }

  predicate Waits(st: Status) {
    st == Pending || st == Paused || st == Retrying
  }

  function AfterLook(q: Q): Q {
    if !q.worker.Started? || q.worker.ref !in q.table then q
    else q.(worker := Beginning(q.worker.id, q.worker.task, q.worker.ref, Waits(q.table[q.worker.ref].status)))
  }

  function AfterBegin(q: Q): Q {
    if !q.worker.Beginning? || q.worker.ref !in q.table then q
    else
      var j := q.table[q.worker.ref];
      q.(table := q.table[q.worker.ref := j.(status := if q.worker.waits then Running else j.status, runs := j.runs + 1)],
         worker := Executing(q.worker.id, q.worker.task, q.worker.ref))
  }

  function AfterFuncSets(q: Q, st: Status): Q {
    if !q.worker.Executing? || q.worker.ref !in q.table then q else WithStatus(q, q.worker.ref, st)
  }

  function AfterReturn(q: Q): Q {
    if !q.worker.Executing? || q.worker.ref !in q.table then q
    else q.(worker := Settling(q.worker.id, q.worker.task, q.worker.ref, q.table[q.worker.ref].status))
  }

  function AfterSettle(q: Q): Q {
    if !q.worker.Settling? || q.worker.ref !in q.table then q
    else
      var u := if q.worker.seen == AwaitingAck then WithStatus(q, q.worker.ref, Failed)
               else if Terminal(q.worker.seen) then q else WithStatus(q, q.worker.ref, Done);
      u.(worker := Leaving(q.worker.id, false))
  }

  function AfterRaise(q: Q): Q {
    if !q.worker.Executing? || q.worker.ref !in q.table then q
    else if !q.stopped && q.table[q.worker.ref].status == Cancelled then q.(worker := Deciding(q.worker.id, q.worker.task, q.worker.ref))
    else q.(worker := Marking(q.worker.id, q.worker.task, q.worker.ref, q.stopped))
  }

  function AfterMark(q: Q): Q {
    if !q.worker.Marking? || q.worker.ref !in q.table then q
    else
      var w := Deciding(q.worker.id, q.worker.task, q.worker.ref);
      var j := q.table[q.worker.ref];
      if q.worker.halted then WithStatus(q, q.worker.ref, Cancelled).(worker := w)
      else
        var n := j.retryCount + 1;
        q.(table := q.table[q.worker.ref := j.(retryCount := n, status := if n > j.maxRetries then Failed else Retrying)], worker := w)
  }

  predicate ShouldRetry(j: Job) {
    j.retryCount < j.maxRetries && (j.status == Failed || j.status == Retrying || j.status == Paused)
  }

  function AfterDecide(q: Q): Q {
    if !q.worker.Deciding? || q.worker.ref !in q.table then q
    else
      var j := q.table[q.worker.ref];
      if !q.stopped && j.status != Cancelled && ShouldRetry(j) then q.(worker := Scheduling(q.worker.id, q.worker.task, q.worker.ref))
      else if j.status != Cancelled then q.(worker := Failing(q.worker.id, q.worker.task, q.worker.ref))
      else q.(worker := Leaving(q.worker.id, false))
  }

  function AfterFail(q: Q): Q {
    if !q.worker.Failing? || q.worker.ref !in q.table then q
    else WithStatus(q, q.worker.ref, Failed).(worker := Leaving(q.worker.id, false))
  }

  function Refused(q: Q): Q
    requires q.worker.Scheduling? || q.worker.Arming?
  {
    q.(worker := Leaving(q.worker.id, true), refused := q.refused + {q.worker.ref})
  }

  function AfterSchedule(q: Q): Q {
    if !q.worker.Scheduling? then q
    else if q.stopped || !q.accepting || q.worker.id in q.retryPending then Refused(q)
    else q.(retryPending := q.retryPending + {q.worker.id}, worker := Arming(q.worker.id, q.worker.task, q.worker.ref))
  }

  function AfterArm(q: Q): Q {
    if !q.worker.Arming? then q
    else if q.stopped || !q.accepting then Refused(q.(retryPending := q.retryPending - {q.worker.id}))
    else q.(retries := q.retries + {Retry(q.worker.id, q.worker.task)}, worker := Leaving(q.worker.id, false))
  }

  function AfterFinish(q: Q): Q {
    if !q.worker.Leaving? then q
    else
      var id := q.worker.id;
      var u := q.(active := q.active - {id}, worker := Idle);
      if id !in q.queued && id !in q.retryPending then Removed(u, id) else u
  }

  /** One attempt of a retry thread. While the job is still at work, or the queue is full, it tries again. */
  function AfterRequeue(s: Setting, q: Q, r: Retry): Q {
    if r !in q.retries then q
    else if q.stopped || !q.accepting then q.(retryPending := q.retryPending - {r.id}, retries := q.retries - {r})
    else if r.id !in q.retryPending || r.id !in q.jobs || r.id !in q.tasks || q.tasks[r.id] != r.task then q.(retries := q.retries - {r})
    else if r.id in q.active || |q.fifo| >= s.maxsize then q
    else q.(fifo := q.fifo + [Work(r.id, r.task)], retryPending := q.retryPending - {r.id}, queued := q.queued + {r.id}, retries := q.retries - {r})
  }

  predicate Hit(jobs: map<TransferId, Ref>, ended: set<TransferId>, r: Ref) {
    exists id :: id in ended && id in jobs && jobs[id] == r
  }

  function AfterEnding(jobs: map<TransferId, Ref>, ended: set<TransferId>, r: Ref, j: Job): Job {
    if Hit(jobs, ended, r) && !Terminal(j.status) then j.(status := Cancelled) else j
  }

  function EndedTable(jobs: map<TransferId, Ref>, ended: set<TransferId>, table: map<Ref, Job>): map<Ref, Job> {
    map r | r in table :: AfterEnding(jobs, ended, r, table[r])
  }

  function AliveOf(q: Q, ids: set<TransferId>): set<Ref> {
    set id | id in ids && Alive(q, id) :: q.jobs[id]
  }

  /** Admission ends; waiting jobs are cancelled, or left as they are. */
  function AfterShutdown(q: Q, cancelPending: bool): Q {
    var gone := q.retryPending;
    var ended := if cancelPending then q.queued + gone else {};
    var table := EndedTable(q.jobs, ended, q.table);
    var removed := gone - q.queued - q.active;
    var left := if cancelPending then {} else AliveOf(q, gone);
    var dropped := if cancelPending then {} else AliveOf(q, removed);
    q.(accepting := false, stopped := true, retryPending := {}, table := table,
       jobs := q.jobs - removed, tasks := q.tasks - removed,
       lost := q.lost + dropped, abandoned := q.abandoned + left)
  }

  /** A shutdown takes out what still waits. */
  function AfterDrain(q: Q, cancelPending: bool): Q {
    if !q.stopped || q.fifo == [] then q
    else if q.fifo[0].Sentinel? then q.(fifo := q.fifo[1..])
    else
      Discarded(q.(fifo := q.fifo[1..], queued := q.queued - {q.fifo[0].id}), q.fifo[0].id, cancelPending)
  }

  /** What is taken out is cancelled or abandoned, and forgotten unless it is at work. */
  function Discarded(q: Q, id: TransferId, cancelPending: bool): Q {
    var v := if cancelPending && Alive(q, id) then WithStatus(q, q.jobs[id], Cancelled)
             else if Alive(q, id) then q.(abandoned := q.abandoned + {q.jobs[id]}) else q;
    if id !in q.active then Removed(v, id) else v
  }

  function AfterSentinel(s: Setting, q: Q): Q {
    if !q.stopped || |q.fifo| >= s.maxsize then q else q.(fifo := q.fifo + [Sentinel])
  }

  function Next(s: Setting, q: Q, a: Action): Q {
    match a
    case Submit(ref, task, maxRetries, retryCount) => Submitted(s, q, ref, task, maxRetries, retryCount)
    case Cancel(id) => AfterCancel(q, id)
    case Get => Got(q)
    case Start => AfterStart(q)
    case Look => AfterLook(q)
    case Begin => AfterBegin(q)
    case FuncSets(st) => AfterFuncSets(q, st)
    case FuncReturns => AfterReturn(q)
    case Settle => AfterSettle(q)
    case FuncRaises => AfterRaise(q)
    case Mark => AfterMark(q)
    case Decide => AfterDecide(q)
    case Fail => AfterFail(q)
    case ScheduleRetry => AfterSchedule(q)
    case ArmTimer => AfterArm(q)
    case Finish => AfterFinish(q)
    case Requeue(r) => AfterRequeue(s, q, r)
    case Shutdown(cp) => AfterShutdown(q, cp)
    case Drain(cp) => AfterDrain(q, cp)
    case PutSentinel => AfterSentinel(s, q)
  }

  lemma SubmitKeeps(s: Setting, q: Q, ref: Ref, task: Task, maxRetries: int, retryCount: nat)
    requires Good(s, q)
    ensures Good(s, Submitted(s, q, ref, task, maxRetries, retryCount))
  {
    hide InFifo, Once;
    InFifoMore(q.fifo, Work(s.idOf(ref), task));
  }

  /** What waits nowhere may leave, if it ended or its loss is accounted for. */
  lemma RemovedKeeps(s: Setting, q: Q, id: TransferId)
    requires Good(s, q) && id !in q.queued && id !in q.active && id !in q.retryPending
    requires Alive(q, id) ==> q.jobs[id] in q.refused + q.abandoned
    ensures Good(s, Removed(q, id))
  {
    hide InFifo, Once, WaitingCounts, WorkCounts, WithinBound;
  }

  /** Cancelling a job never loses it. */
  lemma MarkKeeps(s: Setting, q: Q, id: TransferId)
    requires Good(s, q) && id in q.jobs
    ensures Good(s, WithStatus(q, q.jobs[id], Cancelled)) && Good(s, WithStatus(q, q.jobs[id], Cancelled).(retryPending := q.retryPending - {id}))
    ensures !Alive(WithStatus(q, q.jobs[id], Cancelled), id)
  {
    hide InFifo, Once;
    MarkStatus(s, q, id);
    Unpended(s, WithStatus(q, q.jobs[id], Cancelled), id);
  }

  lemma MarkStatus(s: Setting, q: Q, id: TransferId)
    requires Good(s, q) && id in q.jobs
    ensures q.jobs[id] in q.table && Good(s, WithStatus(q, q.jobs[id], Cancelled)) && !Alive(WithStatus(q, q.jobs[id], Cancelled), id)
  {
    hide InFifo, Once;
  }

  /** A job that has ended need not wait for its retry. */
  lemma Unpended(s: Setting, q: Q, id: TransferId)
    requires Good(s, q) && !Alive(q, id)
    ensures Good(s, q.(retryPending := q.retryPending - {id}))
  {
    hide InFifo, Once, WaitingCounts, WorkCounts, WithinBound;
  }

  lemma CancelKeeps(s: Setting, q: Q, id: TransferId)
    requires Good(s, q)
    ensures Good(s, AfterCancel(q, id)) && AfterCancel(q, id).lost == q.lost
  {
    hide QueueOk, TrackedOk, CountsOk, LossesOk;
    if id in q.jobs {
      MarkKeeps(s, q, id);
      var c := WithStatus(q, q.jobs[id], Cancelled).(retryPending := q.retryPending - {id});
      if id !in q.queued && id !in q.active {
        RemovedKeeps(s, c, id);
      }
    }
  }

  lemma GetKeeps(s: Setting, q: Q)
    requires Good(s, q)
    ensures Good(s, Got(q))
  {
    hide InFifo, Once;
    if q.fifo != [] {
      InFifoRest(q.fifo);
    }
  }

  lemma StartKeeps(s: Setting, q: Q)
    requires Good(s, q)
    ensures Good(s, AfterStart(q))
  {
    hide InFifo, Once;
  }

  /** The worker goes on with the job in its hands, which it may change. */
  lemma ActiveKeeps(s: Setting, q: Q, j: Job, w: Worker)
    requires Good(s, q) && Busy(q.worker) && !q.worker.Arming? && Busy(w) && !w.Arming?
    requires w.id == q.worker.id && w.ref == q.worker.ref && WithinBound(j) && WorkCounts(w, j)
    requires w.Settling? && Terminal(w.seen) ==> Terminal(j.status)
    ensures q.worker.ref in q.table && Good(s, q.(table := q.table[q.worker.ref := j], worker := w))
  {
    hide InFifo, Once, WaitingCounts, WorkCounts, WithinBound;
  }

  /** The worker is done with a job that has ended. */
  lemma LeaveKeeps(s: Setting, q: Q, j: Job)
    requires Good(s, q) && Busy(q.worker) && !q.worker.Arming? && WithinBound(j) && Terminal(j.status)
    ensures q.worker.ref in q.table && Good(s, q.(table := q.table[q.worker.ref := j], worker := Leaving(q.worker.id, false)))
  {
    hide InFifo, Once, WaitingCounts, WorkCounts, WithinBound;
  }

  /** What is known of the job in the worker's hands. */
  lemma InHand(s: Setting, q: Q)
    requires Good(s, q) && Busy(q.worker)
    ensures q.worker.ref in q.table && q.table[q.worker.ref := q.table[q.worker.ref]] == q.table
    ensures var j := q.table[q.worker.ref];
            WithinBound(j) && WorkCounts(q.worker, j) && (q.worker.Settling? && Terminal(q.worker.seen) ==> Terminal(j.status))
  {
    hide QueueOk, LossesOk, InFifo, Once;
  }

  lemma BeginKeeps(s: Setting, q: Q)
    requires Good(s, q)
    ensures Good(s, AfterLook(q)) && Good(s, AfterBegin(q))
  {
    hide Good;
    if q.worker.Started? || q.worker.Beginning? {
      InHand(s, q);
      var j := q.table[q.worker.ref];
      if q.worker.Started? {
        ActiveKeeps(s, q, j, AfterLook(q).worker);
      } else {
        ActiveKeeps(s, q, AfterBegin(q).table[q.worker.ref], AfterBegin(q).worker);
      }
    }
  }

  lemma FuncKeeps(s: Setting, q: Q, st: Status)
    requires Good(s, q)
    ensures Good(s, AfterFuncSets(q, st))
  {
    hide Good;
    if q.worker.Executing? {
      InHand(s, q);
      ActiveKeeps(s, q, q.table[q.worker.ref].(status := st), q.worker);
      assert q.(worker := q.worker) == q;
    }
  }

  lemma ReturnKeeps(s: Setting, q: Q)
    requires Good(s, q)
    ensures Good(s, AfterReturn(q)) && Good(s, AfterSettle(q))
  {
    hide Good;
    if q.worker.Executing? || q.worker.Settling? {
      InHand(s, q);
      if q.worker.Executing? {
        ActiveKeeps(s, q, q.table[q.worker.ref], AfterReturn(q).worker);
      } else {
        LeaveKeeps(s, q, AfterSettle(q).table[q.worker.ref]);
      }
    }
  }

  lemma RaiseKeeps(s: Setting, q: Q)
    requires Good(s, q)
    ensures Good(s, AfterRaise(q)) && Good(s, AfterMark(q))
  {
    hide Good;
    if q.worker.Executing? || q.worker.Marking? {
      InHand(s, q);
      if q.worker.Executing? {
        ActiveKeeps(s, q, q.table[q.worker.ref], AfterRaise(q).worker);
      } else {
        ActiveKeeps(s, q, AfterMark(q).table[q.worker.ref], AfterMark(q).worker);
      }
    }
  }

  lemma DecideKeeps(s: Setting, q: Q)
    requires Good(s, q)
    ensures Good(s, AfterDecide(q)) && Good(s, AfterFail(q))
  {
    hide Good;
    if q.worker.Deciding? || q.worker.Failing? {
      InHand(s, q);
      var j := q.table[q.worker.ref];
      if q.worker.Failing? || j.status == Cancelled {
        LeaveKeeps(s, q, if q.worker.Failing? then j.(status := Failed) else j);
      } else {
        ActiveKeeps(s, q, j, AfterDecide(q).worker);
      }
    }
  }

  lemma ScheduleKeeps(s: Setting, q: Q)
    requires Good(s, q)
    ensures Good(s, AfterSchedule(q))
  {
    hide InFifo, Once, WaitingCounts, WithinBound;
  }

  lemma ArmKeeps(s: Setting, q: Q)
    requires Good(s, q)
    ensures Good(s, AfterArm(q))
  {
    hide InFifo, Once, WaitingCounts, WithinBound;
  }

  lemma FinishKeeps(s: Setting, q: Q)
    requires Good(s, q)
    ensures Good(s, AfterFinish(q))
  {
    hide InFifo, Once;
  }

  lemma RequeueKeeps(s: Setting, q: Q, r: Retry)
    requires Good(s, q)
    ensures Good(s, AfterRequeue(s, q, r))
  {
    hide InFifo, Once;
    InFifoMore(q.fifo, Work(r.id, r.task));
  }

  lemma ShutdownKeeps(s: Setting, q: Q, cancelPending: bool)
    requires Good(s, q)
    ensures Good(s, AfterShutdown(q, cancelPending))
  {
    ShutdownCounts(s, q, cancelPending);
    hide InFifo, Once, CountsOk;
  }

  lemma ShutdownCounts(s: Setting, q: Q, cancelPending: bool)
    requires Good(s, q)
    ensures CountsOk(AfterShutdown(q, cancelPending))
  {
    hide QueueOk, TrackedOk, LossesOk, AliveOf, Hit;
  }

  lemma DropHead(s: Setting, q: Q)
    requires Good(s, q) && q.fifo != [] && q.fifo[0].Work?
    requires Alive(q, q.fifo[0].id) ==> q.jobs[q.fifo[0].id] in q.refused + q.abandoned
    ensures Good(s, Removed(q.(fifo := q.fifo[1..], queued := q.queued - {q.fifo[0].id}), q.fifo[0].id))
  {
    hide InFifo, Once, WaitingCounts, WorkCounts, WithinBound;
    InFifoRest(q.fifo);
  }

  lemma AbandonKeeps(s: Setting, q: Q, r: Ref)
    requires Good(s, q) && q.stopped
    ensures Good(s, q.(abandoned := q.abandoned + {r}))
  {
    hide InFifo, Once, WaitingCounts, WorkCounts, WithinBound;
  }

  lemma DropSentinel(s: Setting, q: Q)
    requires Good(s, q) && q.fifo != [] && q.fifo[0].Sentinel?
    ensures Good(s, q.(fifo := q.fifo[1..]))
  {
    hide InFifo, Once;
    InFifoRest(q.fifo);
  }

  lemma SentinelKeeps(s: Setting, q: Q)
    requires Good(s, q)
    ensures Good(s, AfterSentinel(s, q))
  {
    hide InFifo, Once;
    InFifoMore(q.fifo, Sentinel);
  }

  lemma DrainKeeps(s: Setting, q: Q, cancelPending: bool)
    requires Good(s, q)
    ensures Good(s, AfterDrain(q, cancelPending))
  {
    hide TrackedOk, CountsOk, LossesOk, InFifo, Once;
    if q.stopped && q.fifo != [] {
      if q.fifo[0].Sentinel? {
        DropSentinel(s, q);
      } else {
        var id := q.fifo[0].id;
        InFifoRest(q.fifo);
        assert id in q.queued && id !in q.active;
        if cancelPending && Alive(q, id) {
          MarkKeeps(s, q, id);
          DropHead(s, WithStatus(q, q.jobs[id], Cancelled));
        } else if Alive(q, id) {
          AbandonKeeps(s, q, q.jobs[id]);
          DropHead(s, q.(abandoned := q.abandoned + {q.jobs[id]}));
        } else {
          DropHead(s, q);
        }
      }
    }
  }

  lemma StepKeeps(s: Setting, q: Q, a: Action)
    requires Good(s, q)
    ensures Good(s, Next(s, q, a))
  {
    hide Good, Submitted, AfterCancel, Got, AfterStart, AfterLook, AfterBegin, AfterFuncSets, AfterReturn, AfterSettle, AfterRaise, AfterMark, AfterDecide, AfterFail, AfterSchedule, AfterArm,
      AfterFinish, AfterRequeue, AfterShutdown, AfterDrain, AfterSentinel;
    match a
    case Submit(ref, task, maxRetries, retryCount) => SubmitKeeps(s, q, ref, task, maxRetries, retryCount);
    case Cancel(id) => CancelKeeps(s, q, id);
    case Get => GetKeeps(s, q);
    case Start => StartKeeps(s, q);
    case Look => BeginKeeps(s, q);
    case Begin => BeginKeeps(s, q);
    case FuncSets(st) => FuncKeeps(s, q, st);
    case FuncReturns => ReturnKeeps(s, q);
    case Settle => ReturnKeeps(s, q);
    case FuncRaises => RaiseKeeps(s, q);
    case Mark => RaiseKeeps(s, q);
    case Decide => DecideKeeps(s, q);
    case Fail => DecideKeeps(s, q);
    case ScheduleRetry => ScheduleKeeps(s, q);
    case ArmTimer => ArmKeeps(s, q);
    case Finish => FinishKeeps(s, q);
    case Requeue(r) => RequeueKeeps(s, q, r);
    case Shutdown(cp) => ShutdownKeeps(s, q, cp);
    case Drain(cp) => DrainKeeps(s, q, cp);
    case PutSentinel => SentinelKeeps(s, q);
  }

  // ---------------------------------------------------------------- runs

  function Empty(): Q {
    Q([], map[], map[], map[], {}, {}, {}, {}, true, false, Idle, {}, {}, {})
  }

  function Run(s: Setting, q: Q, actions: seq<Action>): Q
    decreases |actions|
  {
    if actions == [] then q else Run(s, Next(s, q, actions[0]), actions[1..])
  }

  lemma {:induction false} RunKeeps(s: Setting, q: Q, actions: seq<Action>)
    requires Good(s, q)
    ensures Good(s, Run(s, q, actions))
    ensures (forall a :: a in actions ==> !a.Shutdown?) ==> Run(s, q, actions).stopped == q.stopped
    ensures (forall a :: a in actions ==> a != Shutdown(false) && a != Drain(false)) ==> Run(s, q, actions).abandoned == q.abandoned
    decreases |actions|
  {
    if actions != [] {
      hide Next, Good;
      StepKeeps(s, q, actions[0]);
      Unstopped(s, q, actions[0]);
      Unabandoned(s, q, actions[0]);
      assert actions[0] in actions && forall a :: a in actions[1..] ==> a in actions;
      RunKeeps(s, Next(s, q, actions[0]), actions[1..]);
    }
  }

  lemma Unstopped(s: Setting, q: Q, a: Action)
    ensures !a.Shutdown? ==> Next(s, q, a).stopped == q.stopped
  {
    hide Alive, Terminal, InFifo, AfterShutdown, AliveOf, EndedTable;
    match a
    case Cancel(id) => CancelStops(q, id);
    case Drain(cp) => DrainStops(q, cp);
    case _ =>
  }

  lemma CancelStops(q: Q, id: TransferId)
    ensures AfterCancel(q, id).stopped == q.stopped && AfterCancel(q, id).abandoned == q.abandoned
  {
    hide Alive, Terminal;
  }

  lemma DrainStops(q: Q, cancelPending: bool)
    ensures AfterDrain(q, cancelPending).stopped == q.stopped && (cancelPending ==> AfterDrain(q, cancelPending).abandoned == q.abandoned)
  {
    hide Terminal, Discarded;
    if q.stopped && q.fifo != [] && q.fifo[0].Work? {
      DiscardStops(q.(fifo := q.fifo[1..], queued := q.queued - {q.fifo[0].id}), q.fifo[0].id, cancelPending);
    }
  }

  lemma DiscardStops(q: Q, id: TransferId, cancelPending: bool)
    ensures Discarded(q, id, cancelPending).stopped == q.stopped && (cancelPending ==> Discarded(q, id, cancelPending).abandoned == q.abandoned)
  {
    hide Terminal;
  }

  lemma Unabandoned(s: Setting, q: Q, a: Action)
    ensures a != Shutdown(false) && a != Drain(false) ==> Next(s, q, a).abandoned == q.abandoned
  {
    hide Alive, Terminal, InFifo, AliveOf, EndedTable;
    match a
    case Cancel(id) => CancelStops(q, id);
    case Drain(cp) => DrainStops(q, cp);
    case _ =>
  }

  /** Any interleaving: no transfer waits twice, every job that has not ended is somewhere, no function
      runs more than max(1, max_retries) times, and before a shutdown no job is lost. A shutdown that
      cancels what is pending can lose only jobs whose retry it refused. */
  lemma AnyInterleaving(s: Setting, actions: seq<Action>)
    ensures var q := Run(s, Empty(), actions);
            && Once(q.fifo)
            && (forall id :: Alive(q, id) ==> id in q.queued || id in q.active || id in q.retryPending)
            && (forall id :: id in q.queued <==> InFifo(q.fifo, id) || (q.worker.Holding? && q.worker.id == id))
            && (forall r :: r in q.table ==> q.table[r].runs <= Bound(q.table[r].maxRetries))
            && ((forall a :: a in actions ==> !a.Shutdown?) ==> q.lost == {})
            && ((forall a :: a in actions ==> a != Shutdown(false) && a != Drain(false)) ==> q.lost <= q.refused)
  {
    assert Good(s, Empty());
    RunKeeps(s, Empty(), actions);
  }

  /** Where a job is lost although nothing was abandoned: its turn ends, its retry was refused, and it is
      still alive. There is no other way. */
  lemma LostExactly(s: Setting, q: Q, a: Action)
    requires Good(s, q) && a != Shutdown(false) && a != Drain(false) && q.abandoned == {}
    ensures Next(s, q, a).lost != q.lost ==> a == Finish && q.worker.Leaving? && q.worker.refused
    ensures a == Finish && q.worker.Leaving? ==>
      (Next(s, q, a).lost == if q.worker.refused && Alive(q, q.worker.id) && q.worker.id !in q.retryPending then q.lost + {q.jobs[q.worker.id]} else q.lost)
  {
    hide Good, Submitted, AfterCancel, Got, AfterStart, AfterLook, AfterBegin, AfterFuncSets, AfterReturn, AfterSettle, AfterRaise, AfterMark, AfterDecide,
      AfterFail, AfterSchedule, AfterArm, AfterFinish, AfterRequeue, AfterShutdown, AfterDrain, AfterSentinel, Alive;
    if a.Cancel? {
      CancelKeeps(s, q, a.id);
    } else if a.Finish? {
      FinishLoses(s, q);
    } else if a.Shutdown? || a.Drain? {
      DrainStops(q, true);
      CancellingLosesNone(q);
    } else {
      LosesNone(s, q, a);
    }
  }

  lemma FinishLoses(s: Setting, q: Q)
    requires Good(s, q) && q.abandoned == {}
    ensures AfterFinish(q).lost != q.lost ==> q.worker.Leaving? && q.worker.refused
    ensures q.worker.Leaving? ==>
      (AfterFinish(q).lost == if q.worker.refused && Alive(q, q.worker.id) && q.worker.id !in q.retryPending then q.lost + {q.jobs[q.worker.id]} else q.lost)
  {
    hide QueueOk, CountsOk, InFifo, Once;
  }

  lemma CancellingLosesNone(q: Q)
    ensures AfterShutdown(q, true).lost == q.lost && AfterDrain(q, true).lost == q.lost
  {
    hide AliveOf, EndedTable;
  }

  lemma LosesNone(s: Setting, q: Q, a: Action)
    requires !a.Cancel? && !a.Finish? && !a.Shutdown? && !a.Drain?
    ensures Next(s, q, a).lost == q.lost
  {
    hide AfterStart, AfterLook, AfterBegin, AfterReturn, AfterSettle, AfterRaise, AfterMark, AfterDecide, AfterFail, AfterSchedule, AfterArm, AfterRequeue;
    StartsLoseNone(q);
    CallsLoseNone(q);
    EndsLoseNone(q);
    if a.Requeue? {
      RequeueLosesNone(s, q, a.retry);
    }
  }

  lemma StartsLoseNone(q: Q)
    ensures AfterStart(q).lost == AfterLook(q).lost == q.lost
  {
    hide Waits;
  }

  lemma CallsLoseNone(q: Q)
    ensures AfterBegin(q).lost == AfterReturn(q).lost == AfterSettle(q).lost == q.lost
  {
    hide Terminal;
  }

  lemma EndsLoseNone(q: Q)
    ensures AfterRaise(q).lost == AfterMark(q).lost == AfterDecide(q).lost == AfterFail(q).lost == AfterSchedule(q).lost == AfterArm(q).lost == q.lost
  {
    hide ShouldRetry;
  }

  lemma RequeueLosesNone(s: Setting, q: Q, r: Retry)
    ensures AfterRequeue(s, q, r).lost == q.lost
  {
  }

  lemma RunCons(s: Setting, q: Q, a: Action, rest: seq<Action>)
    ensures Run(s, q, [a] + rest) == Run(s, Next(s, q, a), rest)
  {
    assert ([a] + rest)[1..] == rest;
  }

  /** The queue with one job that failed once and is about to be scheduled again. */
  function Retrier(id: TransferId, ref: Ref, task: Task): Q {
    Q([], map[ref := Job(Retrying, 1, 3, 0, 1)], map[id := ref], map[id := task], {}, {id}, {}, {}, true, false, Scheduling(id, task, ref), {}, {}, {})
  }

  lemma RaceBegins(s: Setting, ref: Ref, task: Task)
    requires s.maxsize > 0
    ensures var id := s.idOf(ref);
            Next(s, Next(s, Next(s, Empty(), Submit(ref, task, 3, 0)), Get), Start) ==
            Q([], map[ref := Job(Pending, 0, 3, 0, 0)], map[id := ref], map[id := task], {}, {id}, {}, {}, true, false, Started(id, task, ref), {}, {}, {})
  {
    var id := s.idOf(ref);
    var q1 := Next(s, Empty(), Submit(ref, task, 3, 0));
    assert q1 == Q([Work(id, task)], map[ref := Job(Pending, 0, 3, 0, 0)], map[id := ref], map[id := task], {id}, {}, {}, {}, true, false, Idle, {}, {}, {});
    var q2 := Next(s, q1, Get);
    assert q2 == Q([], q1.table, q1.jobs, q1.tasks, {id}, {}, {}, {}, true, false, Holding(id, task), {}, {}, {});
    assert q2.queued - {id} == {} && q2.active + {id} == {id};
  }

  lemma RaceGoesOn(s: Setting, ref: Ref, task: Task, q: Q)
    requires var id := s.idOf(ref);
      q == Q([], map[ref := Job(Pending, 0, 3, 0, 0)], map[id := ref], map[id := task], {}, {id}, {}, {}, true, false, Started(id, task, ref), {}, {}, {})
    ensures Next(s, Next(s, Next(s, Next(s, Next(s, q, Look), Begin), FuncRaises), Mark), Decide) == Retrier(s.idOf(ref), ref, task)
  {
    var id := s.idOf(ref);
    var q4 := Next(s, Next(s, q, Look), Begin);
    assert q4.table == map[ref := Job(Running, 0, 3, 0, 1)];
    RaceFails(s, id, ref, task, q4);
  }

  lemma RaceFails(s: Setting, id: TransferId, ref: Ref, task: Task, q: Q)
    requires q == Q([], map[ref := Job(Running, 0, 3, 0, 1)], map[id := ref], map[id := task], {}, {id}, {}, {}, true, false, Executing(id, task, ref), {}, {}, {})
    ensures Next(s, Next(s, Next(s, q, FuncRaises), Mark), Decide) == Retrier(id, ref, task)
  {
    var q5 := Next(s, Next(s, q, FuncRaises), Mark);
    assert q5.table == map[ref := Job(Retrying, 1, 3, 0, 1)];
  }

  lemma RaceShuts(s: Setting, ref: Ref, task: Task)
    ensures var id := s.idOf(ref);
            Next(s, Retrier(id, ref, task), Shutdown(true)) ==
            Q([], map[ref := Job(Retrying, 1, 3, 0, 1)], map[id := ref], map[id := task], {}, {id}, {}, {}, false, true, Scheduling(id, task, ref), {}, {}, {})
  {
    var id := s.idOf(ref);
    var q7 := Next(s, Retrier(id, ref, task), Shutdown(true));
    assert q7.table == map[ref := Job(Retrying, 1, 3, 0, 1)];
    assert q7.jobs == map[id := ref] && q7.tasks == map[id := task];
  }

  lemma RaceEnds(s: Setting, ref: Ref, task: Task, q: Q)
    requires var id := s.idOf(ref);
      q == Q([], map[ref := Job(Retrying, 1, 3, 0, 1)], map[id := ref], map[id := task], {}, {id}, {}, {}, false, true, Scheduling(id, task, ref), {}, {}, {})
    ensures var u := Next(s, Next(s, q, ScheduleRetry), Finish);
            ref in u.lost && ref in u.table && u.table[ref].status == Retrying && s.idOf(ref) !in u.jobs
  {
  }

  /** A shutdown that cancels everything pending still loses a job when it comes between the decision to
      retry and the scheduling of the retry: the job ends its turn as retrying and is forgotten. */
  lemma RetryRaceLoses(s: Setting, ref: Ref, task: Task)
    requires s.maxsize > 0
    ensures var q := Run(s, Empty(), [Submit(ref, task, 3, 0), Get, Start] + [Look, Begin, FuncRaises, Mark, Decide] + [Shutdown(true), ScheduleRetry, Finish]);
            ref in q.lost && ref in q.table && q.table[ref].status == Retrying && s.idOf(ref) !in q.jobs
  {
    hide Next;
    RaceBegins(s, ref, task);
    var q3 := Next(s, Next(s, Next(s, Empty(), Submit(ref, task, 3, 0)), Get), Start);
    RaceGoesOn(s, ref, task, q3);
    var q6 := Next(s, Next(s, Next(s, Next(s, Next(s, q3, Look), Begin), FuncRaises), Mark), Decide);
    RaceShuts(s, ref, task);
    RaceEnds(s, ref, task, Next(s, q6, Shutdown(true)));
    RunThree(s, Empty(), Submit(ref, task, 3, 0), Get, Start, []);
    RunThree(s, q3, Look, Begin, FuncRaises, [Mark, Decide]);
    RunCons(s, Next(s, Next(s, Next(s, q3, Look), Begin), FuncRaises), Mark, [Decide]);
    RunCons(s, Next(s, Next(s, Next(s, Next(s, q3, Look), Begin), FuncRaises), Mark), Decide, []);
    RunThree(s, q6, Shutdown(true), ScheduleRetry, Finish, []);
    RunJoin(s, Empty(), [Submit(ref, task, 3, 0), Get, Start], [Look, Begin, FuncRaises, Mark, Decide]);
    RunJoin(s, Empty(), [Submit(ref, task, 3, 0), Get, Start] + [Look, Begin, FuncRaises, Mark, Decide], [Shutdown(true), ScheduleRetry, Finish]);
    assert [Submit(ref, task, 3, 0), Get, Start] + [] == [Submit(ref, task, 3, 0), Get, Start];
    assert [Look, Begin, FuncRaises] + [Mark, Decide] == [Look, Begin, FuncRaises, Mark, Decide];
    assert [Mark] + [Decide] == [Mark, Decide] && [Decide] + [] == [Decide];
    assert [Shutdown(true), ScheduleRetry, Finish] + [] == [Shutdown(true), ScheduleRetry, Finish];
  }

  lemma {:induction false} RunJoin(s: Setting, q: Q, a: seq<Action>, b: seq<Action>)
    ensures Run(s, q, a + b) == Run(s, Run(s, q, a), b)
    decreases |a|
  {
    if a == [] {
      assert a + b == b;
    } else {
      assert (a + b)[1..] == a[1..] + b;
      RunJoin(s, Next(s, q, a[0]), a[1..], b);
    }
  }

  lemma RunThree(s: Setting, q: Q, a: Action, b: Action, c: Action, rest: seq<Action>)
    ensures Run(s, q, [a, b, c] + rest) == Run(s, Next(s, Next(s, Next(s, q, a), b), c), rest)
  {
    hide Next;
    RunCons(s, q, a, [b, c] + rest);
    RunCons(s, Next(s, q, a), b, [c] + rest);
    RunCons(s, Next(s, Next(s, q, a), b), c, rest);
    assert [a] + ([b, c] + rest) == [a, b, c] + rest && [b] + ([c] + rest) == [b, c] + rest;
  }

  // ---------------------------------------------------------------- cancelling what is at work

  /** The worker is about to write over the status of a job, whatever it has become since it looked. */
  predicate WritesOver(w: Worker, a: Action) {
    || (a.Begin? && w.Beginning? && w.waits)
    || (a.Settle? && w.Settling? && !Terminal(w.seen))
    || (a.Mark? && w.Marking? && !w.halted)
    || (a.Fail? && w.Failing?)
  }

  /** A job that was cancelled stays cancelled through every step but those: the job's own function setting its
      status, its being submitted anew, and exactly the four writes that follow a look taken before. */
  lemma CancelledStays(s: Setting, q: Q, a: Action, ref: Ref)
    requires Good(s, q) && ref in q.table && q.table[ref].status == Cancelled
    requires !a.FuncSets? && (a.Submit? ==> a.ref != ref)
    ensures ref in Next(s, q, a).table
    ensures Next(s, q, a).table[ref].status != Cancelled <==> Busy(q.worker) && q.worker.ref == ref && WritesOver(q.worker, a)
  {
    hide Good, Submitted, AfterCancel, Got, AfterStart, AfterLook, AfterBegin, AfterFuncSets, AfterReturn, AfterSettle, AfterRaise, AfterMark, AfterDecide,
      AfterFail, AfterSchedule, AfterArm, AfterFinish, AfterRequeue, AfterShutdown, AfterDrain, AfterSentinel, WritesOver, Busy;
    if a.Cancel? || a.Shutdown? || a.Drain? || a.Submit? {
      OutsideStays(s, q, a, ref);
    } else if a.Start? || a.Get? || a.Finish? || a.Requeue? || a.PutSentinel? || a.ScheduleRetry? || a.ArmTimer? {
      ElsewhereStays(s, q, a, ref);
    } else {
      WorkerWrites(s, q, a, ref);
    }
  }

  lemma OutsideStays(s: Setting, q: Q, a: Action, ref: Ref)
    requires ref in q.table && q.table[ref].status == Cancelled && (a.Cancel? || a.Shutdown? || a.Drain? || (a.Submit? && a.ref != ref))
    ensures ref in Next(s, q, a).table && Next(s, q, a).table[ref].status == Cancelled && !WritesOver(q.worker, a)
  {
    hide Submitted, AfterCancel, AfterShutdown, AfterDrain;
    if a.Cancel? {
      CancelStays(q, a.id, ref);
    } else if a.Shutdown? {
      ShutdownStays(q, a.cancelPending, ref);
    } else if a.Drain? {
      DrainStays(q, a.cancelPending, ref);
    } else {
      SubmitStays(s, q, a.ref, a.task, a.maxRetries, a.retryCount, ref);
    }
  }

  lemma CancelStays(q: Q, id: TransferId, ref: Ref)
    requires ref in q.table && q.table[ref].status == Cancelled
    ensures ref in AfterCancel(q, id).table && AfterCancel(q, id).table[ref].status == Cancelled
  {
    hide Alive;
  }

  lemma ShutdownStays(q: Q, cancelPending: bool, ref: Ref)
    requires ref in q.table && q.table[ref].status == Cancelled
    ensures ref in AfterShutdown(q, cancelPending).table && AfterShutdown(q, cancelPending).table[ref].status == Cancelled
  {
    hide Alive, AliveOf, Hit;
    var ended := if cancelPending then q.queued + q.retryPending else {};
    assert EndedTable(q.jobs, ended, q.table)[ref] == AfterEnding(q.jobs, ended, ref, q.table[ref]);
  }

  lemma DrainStays(q: Q, cancelPending: bool, ref: Ref)
    requires ref in q.table && q.table[ref].status == Cancelled
    ensures ref in AfterDrain(q, cancelPending).table && AfterDrain(q, cancelPending).table[ref].status == Cancelled
  {
    hide Terminal;
  }

  lemma SubmitStays(s: Setting, q: Q, other: Ref, task: Task, maxRetries: int, retryCount: nat, ref: Ref)
    requires ref in q.table && q.table[ref].status == Cancelled && other != ref
    ensures var u := Submitted(s, q, other, task, maxRetries, retryCount); ref in u.table && u.table[ref].status == Cancelled
  {
    hide Admits;
  }

  lemma ElsewhereStays(s: Setting, q: Q, a: Action, ref: Ref)
    requires ref in q.table && q.table[ref].status == Cancelled
    requires a.Start? || a.Get? || a.Finish? || a.Requeue? || a.PutSentinel? || a.ScheduleRetry? || a.ArmTimer?
    ensures ref in Next(s, q, a).table && Next(s, q, a).table[ref].status == Cancelled && !WritesOver(q.worker, a)
  {
    hide AfterStart, AfterFinish, AfterRequeue, AfterSchedule, AfterArm;
    StartStays(q, ref);
    TableStays(q);
    if a.Requeue? {
      RequeueTable(s, q, a.retry);
    }
  }

  lemma StartStays(q: Q, ref: Ref)
    requires ref in q.table && q.table[ref].status == Cancelled
    ensures ref in AfterStart(q).table && AfterStart(q).table[ref].status == Cancelled
  {
  }

  lemma TableStays(q: Q)
    ensures AfterFinish(q).table == AfterSchedule(q).table == AfterArm(q).table == q.table
  {
    hide Alive;
  }

  lemma RequeueTable(s: Setting, q: Q, r: Retry)
    ensures AfterRequeue(s, q, r).table == q.table
  {
  }

  lemma WorkerWrites(s: Setting, q: Q, a: Action, ref: Ref)
    requires ref in q.table && q.table[ref].status == Cancelled
    requires a.Look? || a.Begin? || a.FuncReturns? || a.Settle? || a.FuncRaises? || a.Mark? || a.Decide? || a.Fail?
    ensures ref in Next(s, q, a).table
    ensures Next(s, q, a).table[ref].status != Cancelled <==> Busy(q.worker) && q.worker.ref == ref && WritesOver(q.worker, a)
  {
    hide AfterLook, AfterBegin, AfterReturn, AfterSettle, AfterRaise, AfterMark, AfterDecide, AfterFail;
    if a.Begin? || a.Settle? {
      CallWrites(q, ref);
    } else if a.Mark? || a.Fail? {
      EndWrites(q, ref);
    } else {
      LooksOnly(q);
    }
  }

  lemma LooksOnly(q: Q)
    ensures AfterLook(q).table == q.table && AfterReturn(q).table == q.table && AfterRaise(q).table == q.table && AfterDecide(q).table == q.table
  {
  }

  lemma CallWrites(q: Q, ref: Ref)
    requires ref in q.table && q.table[ref].status == Cancelled
    ensures ref in AfterBegin(q).table && ref in AfterSettle(q).table
    ensures AfterBegin(q).table[ref].status != Cancelled <==> q.worker.Beginning? && q.worker.ref == ref && q.worker.waits
    ensures AfterSettle(q).table[ref].status != Cancelled <==> q.worker.Settling? && q.worker.ref == ref && !Terminal(q.worker.seen)
  {
  }

  lemma EndWrites(q: Q, ref: Ref)
    requires ref in q.table && q.table[ref].status == Cancelled
    ensures ref in AfterMark(q).table && ref in AfterFail(q).table
    ensures AfterMark(q).table[ref].status != Cancelled <==> q.worker.Marking? && q.worker.ref == ref && !q.worker.halted
    ensures AfterFail(q).table[ref].status != Cancelled <==> q.worker.Failing? && q.worker.ref == ref
  {
  }

  /** The queue when the worker has looked at its only job and is about to call its function. */
  function AboutToRun(id: TransferId, ref: Ref, task: Task, status: Status): Q {
    Q([], map[ref := Job(status, 0, 3, 0, 0)], map[id := ref], map[id := task], {}, {id}, {}, {}, true, false, Beginning(id, task, ref, true), {}, {}, {})
  }

  lemma OverwriteEnds(s: Setting, ref: Ref, task: Task)
    ensures var id := s.idOf(ref);
            var q := Next(s, Next(s, Next(s, Next(s, AboutToRun(id, ref, task, Cancelled), Begin), FuncReturns), Settle), Finish);
            ref in q.table && q.table[ref].status == Done && q.table[ref].runs == 1
  {
    var id := s.idOf(ref);
    var q1 := Next(s, AboutToRun(id, ref, task, Cancelled), Begin);
    RunsAnyway(s, id, ref, task);
    assert q1.table == map[ref := Job(Running, 0, 3, 0, 1)] && q1.worker == Executing(id, task, ref);
    EndsDone(s, id, ref, task, q1);
  }

  lemma EndsDone(s: Setting, id: TransferId, ref: Ref, task: Task, q: Q)
    requires q.table == map[ref := Job(Running, 0, 3, 0, 1)] && q.worker == Executing(id, task, ref)
    ensures var r := Next(s, Next(s, Next(s, q, FuncReturns), Settle), Finish);
            ref in r.table && r.table[ref].status == Done && r.table[ref].runs == 1
  {
    hide Alive, AfterFinish;
    var q3 := Next(s, Next(s, q, FuncReturns), Settle);
    assert q3.table == map[ref := Job(Done, 0, 3, 0, 1)];
    TableStays(q3);
  }

  lemma RunsAnyway(s: Setting, id: TransferId, ref: Ref, task: Task)
    ensures var q := Next(s, AboutToRun(id, ref, task, Cancelled), Begin);
            q.table == map[ref := Job(Running, 0, 3, 0, 1)] && q.worker == Executing(id, task, ref)
  {
  }

  lemma LookPends(s: Setting, id: TransferId, ref: Ref, task: Task, q: Q)
    requires q == Q([], map[ref := Job(Pending, 0, 3, 0, 0)], map[id := ref], map[id := task], {}, {id}, {}, {}, true, false, Started(id, task, ref), {}, {}, {})
    ensures Next(s, q, Look) == AboutToRun(id, ref, task, Pending)
  {
  }

  lemma CancelHits(s: Setting, ref: Ref, task: Task)
    ensures var id := s.idOf(ref);
            Next(s, AboutToRun(id, ref, task, Pending), Cancel(id)) == AboutToRun(id, ref, task, Cancelled)
  {
    var id := s.idOf(ref);
    var q := Next(s, AboutToRun(id, ref, task, Pending), Cancel(id));
    assert q.table == map[ref := Job(Cancelled, 0, 3, 0, 0)];
    assert q.retryPending == {};
  }

  /** A cancel that comes after the worker looked at the job and before it marks it running is lost: the call
      reports success, the function runs all the same, and the job ends completed. */
  lemma CancelIsOverwritten(s: Setting, ref: Ref, task: Task)
    requires s.maxsize > 0
    ensures var id := s.idOf(ref);
            var before := Run(s, Empty(), [Submit(ref, task, 3, 0), Get, Start] + [Look]);
            var cancelled := Next(s, before, Cancel(id));
            var after := Run(s, cancelled, [Begin, FuncReturns, Settle] + [Finish]);
            && id in before.jobs && ref in cancelled.table && cancelled.table[ref].status == Cancelled && cancelled.table[ref].runs == 0
            && ref in after.table && after.table[ref].status == Done && after.table[ref].runs == 1
  {
    hide Next, Empty;
    var id := s.idOf(ref);
    var q3 := Next(s, Next(s, Next(s, Empty(), Submit(ref, task, 3, 0)), Get), Start);
    RaceBegins(s, ref, task);
    LookPends(s, id, ref, task, q3);
    CancelHits(s, ref, task);
    OverwriteEnds(s, ref, task);
    RunThree(s, Empty(), Submit(ref, task, 3, 0), Get, Start, [Look]);
    RunCons(s, q3, Look, []);
    assert [Look] + [] == [Look];
    var c := AboutToRun(id, ref, task, Cancelled);
    RunThree(s, c, Begin, FuncReturns, Settle, [Finish]);
    RunCons(s, Next(s, Next(s, Next(s, c, Begin), FuncReturns), Settle), Finish, []);
    assert [Finish] + [] == [Finish];
  }

  lemma NoStart(q: Q)
    requires !q.worker.Holding?
    ensures AfterStart(q) == q
  {
  }

  lemma StartFacts(s: Setting, q: Q)
    requires Good(s, q) && q.worker.Holding?
    ensures q.worker.id in q.jobs ==> q.jobs[q.worker.id] in q.table
    ensures var u := AfterStart(q);
      && q.worker.id !in u.queued
      && (u.worker.Started? <==> !q.stopped && q.worker.id in q.jobs && q.table[q.jobs[q.worker.id]].status != Cancelled)
      && (u.worker.Started? ==> u.worker.ref == q.jobs[q.worker.id] && u.active == {q.worker.id})
  {
    hide QueueOk, TrackedOk, CountsOk, LossesOk;
  }

  /** What a method needs to know of a good queue. */
  lemma GoodFacts(s: Setting, q: Q)
    requires Good(s, q)
    ensures (q.accepting <==> !q.stopped) && q.active !! q.queued
    ensures forall id :: id in q.queued || id in q.retryPending ==> id in q.jobs && q.jobs[id] in q.table
    ensures q.fifo != [] && q.fifo[0].Work? ==> q.fifo[0].id in q.queued
  {
    hide TrackedOk, CountsOk, LossesOk, Once;
    if q.fifo != [] && q.fifo[0].Work? {
      assert InFifo(q.fifo, q.fifo[0].id);
    }
  }

  lemma EndedAre(jobs: map<TransferId, Ref>, ended: set<TransferId>, table: map<Ref, Job>)
    ensures forall id :: id in ended && id in jobs && jobs[id] in table ==> Terminal(EndedTable(jobs, ended, table)[jobs[id]].status)
  {
    forall id | id in ended && id in jobs && jobs[id] in table ensures Terminal(EndedTable(jobs, ended, table)[jobs[id]].status) {
      assert Hit(jobs, ended, jobs[id]);
    }
  }

  /** The jobs of these transfers have ended. */
  predicate AllEnded(jobs: map<TransferId, Ref>, ids: set<TransferId>, table: map<Ref, Job>) {
    forall id :: id in ids ==> id in jobs && jobs[id] in table && Terminal(table[jobs[id]].status)
  }

  lemma ShutdownEnds(s: Setting, q: Q)
    requires Good(s, q)
    ensures AllEnded(q.jobs, q.queued + q.retryPending, AfterShutdown(q, true).table)
  {
    GoodFacts(s, q);
    EndedAre(q.jobs, q.queued + q.retryPending, q.table);
    hide Good, Terminal;
  }

  lemma DrainTakes(s: Setting, q: Q, cancelPending: bool)
    requires Good(s, q) && q.stopped && q.fifo != []
    ensures var u := AfterDrain(q, cancelPending);
      && u.fifo == q.fifo[1..]
      && (q.fifo[0].Work? ==>
            && q.fifo[0].id !in u.queued && q.fifo[0].id !in u.jobs && q.fifo[0].id in q.jobs && q.jobs[q.fifo[0].id] in u.table
            && (cancelPending ==> Terminal(u.table[q.jobs[q.fifo[0].id]].status)))
  {
    GoodFacts(s, q);
    hide Good;
  }

  lemma NothingEnded(table: map<Ref, Job>, jobs: map<TransferId, Ref>)
    ensures EndedTable(jobs, {}, table) == table
  {
  }

  lemma OneMoreEnded(table: map<Ref, Job>, jobs: map<TransferId, Ref>, ended: set<TransferId>, id: TransferId)
    ensures var t := EndedTable(jobs, ended, table);
            EndedTable(jobs, ended + {id}, table) ==
            if id in jobs && jobs[id] in t && !Terminal(t[jobs[id]].status) then t[jobs[id] := t[jobs[id]].(status := Cancelled)] else t
  {
    forall r ensures Hit(jobs, ended + {id}, r) <==> Hit(jobs, ended, r) || (id in jobs && jobs[id] == r) {
      if id in jobs && jobs[id] == r {
        assert id in ended + {id};
      }
      if Hit(jobs, ended, r) {
        var x :| x in ended && x in jobs && jobs[x] == r;
        assert x in ended + {id};
      }
    }
  }

  // ---------------------------------------------------------------- the queue itself

  class TransferQueue {
    const setting: Setting
    var fifo: seq<Item>
    var table: map<Ref, Job>
    var jobs: map<TransferId, Ref>
    var tasks: map<TransferId, Task>
    var queued: set<TransferId>
    var active: set<TransferId>
    var retryPending: set<TransferId>
    /** Retry threads that were started and may still act; cancelling a timer only makes that less likely. */
    var retries: set<Retry>
    var accepting: bool
    var stopped: bool
    var worker: Worker
    ghost var lost: set<Ref>
    ghost var refused: set<Ref>
    ghost var abandoned: set<Ref>

    ghost function Abs(): Q
      reads this
    {
      Q(fifo, table, jobs, tasks, queued, active, retryPending, retries, accepting, stopped, worker, lost, refused, abandoned)
    }

    ghost predicate Valid()
      reads this
    {
      Good(setting, Abs())
    }

    constructor (setting: Setting)
      ensures Valid() && this.setting == setting && Abs() == Empty()
    {
      this.setting, fifo, table, jobs, tasks := setting, [], map[], map[], map[];
      queued, active, retryPending, retries, accepting, stopped, worker := {}, {}, {}, {}, true, false, Idle;
      lost, refused, abandoned := {}, {}, {};
    }

    method SetStatus(ref: Ref, st: Status)
      requires ref in table
      modifies `table
      ensures table == old(table)[ref := old(table)[ref].(status := st)]
    {
      table := table[ref := table[ref].(status := st)];
    }

    method Remove(id: TransferId)
      modifies `jobs, `tasks, `lost
      ensures Abs() == Removed(old(Abs()), id)
    {
      if id in jobs && jobs[id] in table && !Terminal(table[jobs[id]].status) {
        lost := lost + {jobs[id]};
      }
      jobs, tasks := jobs - {id}, tasks - {id};
    }

    /** Takes a job unless the queue is closed or full, or has one of that transfer already. */
    method Submit(ref: Ref, task: Task, maxRetries: int, retryCount: nat) returns (ok: bool)
      requires Valid()
      modifies this
      ensures Valid() && Abs() == Next(setting, old(Abs()), Action.Submit(ref, task, maxRetries, retryCount))
      ensures ok <==> old(accepting && !stopped && setting.idOf(ref) !in jobs && |fifo| < setting.maxsize)
    {
      hide Good, AfterCancel, Got, AfterStart, AfterLook, AfterBegin, AfterFuncSets, AfterReturn, AfterSettle, AfterRaise, AfterMark, AfterDecide, AfterFail, AfterSchedule, AfterArm, AfterFinish, AfterRequeue, AfterShutdown, AfterDrain, AfterSentinel;
      StepKeeps(setting, Abs(), Action.Submit(ref, task, maxRetries, retryCount));
      var id := setting.idOf(ref);
      if !accepting || stopped || id in jobs || |fifo| >= setting.maxsize {
        return false;
      }
      fifo := fifo + [Work(id, task)];
      table := table[ref := Job(Pending, retryCount, maxRetries, retryCount, 0)];
      jobs, tasks, queued := jobs[id := ref], tasks[id := task], queued + {id};
      ok := true;
    }

    /** Ends a job; one that neither waits in the queue nor is at work leaves at once. */
    method Cancel(id: TransferId) returns (ok: bool)
      requires Valid()
      modifies this
      ensures Valid() && Abs() == Next(setting, old(Abs()), Action.Cancel(id)) && lost == old(lost)
      ensures ok <==> id in old(jobs)
    {
      hide QueueOk, TrackedOk, CountsOk, LossesOk;
      StepKeeps(setting, Abs(), Action.Cancel(id));
      CancelKeeps(setting, Abs(), id);
      if id !in jobs {
        return false;
      }
      SetStatus(jobs[id], Cancelled);
      retryPending := retryPending - {id};
      if id !in queued && id !in active {
        Remove(id);
      }
      ok := true;
    }

    /** The worker takes an item and, under the lock, decides whether its job is to run. */
    method Take()
      requires Valid()
      modifies this
      ensures Valid() && Abs() == Next(setting, old(Abs()), Get)
      ensures old(worker.Idle? && fifo != []) ==>
        fifo == old(fifo)[1..] && worker == if old(fifo)[0].Work? then Holding(old(fifo)[0].id, old(fifo)[0].task) else Gone
      ensures old(worker.Idle? && fifo == []) ==> fifo == [] && worker == if stopped then Gone else Idle
    {
      hide Good;
      StepKeeps(setting, Abs(), Get);
      if worker.Idle? {
        if fifo != [] {
          var item := fifo[0];
          fifo := fifo[1..];
          worker := if item.Sentinel? then Gone else Holding(item.id, item.task);
        } else if stopped {
          worker := Gone;
        }
      }
    }

    method Begin()
      requires Valid()
      modifies this
      ensures Valid() && Abs() == Next(setting, old(Abs()), Start)
      ensures old(worker).Holding? ==>
        && old(worker).id !in queued
        && (worker.Started? <==>
              !old(stopped) && old(worker).id in old(jobs) && old(table)[old(jobs)[old(worker).id]].status != Cancelled)
        && (worker.Started? ==> worker.ref == old(jobs)[old(worker).id] && active == {old(worker).id})
    {
      hide Good, AfterStart;
      StepKeeps(setting, Abs(), Start);
      if worker.Holding? {
        StartFacts(setting, Abs());
        Admit(worker.id, worker.task);
      } else {
        NoStart(Abs());
      }
    }

    method Admit(id: TransferId, task: Task)
      requires worker.Holding? && worker.id == id && worker.task == task && (id in jobs ==> jobs[id] in table)
      modifies `queued, `worker, `table, `active
      ensures Abs() == AfterStart(old(Abs()))
    {
      queued := queued - {id};
      if id in jobs && stopped && table[jobs[id]].status != Cancelled {
        SetStatus(jobs[id], Cancelled);
      }
      if id in jobs && table[jobs[id]].status != Cancelled {
        active := active + {id};
        worker := Started(id, task, jobs[id]);
      } else {
        worker := Leaving(id, false);
      }
    }

    /** Looks whether the job is still waiting. */
    method Peek()
      requires Valid()
      modifies this
      ensures Valid() && Abs() == Next(setting, old(Abs()), Look)
      ensures old(worker).Started? ==>
        worker.Beginning? && worker.ref == old(worker).ref && table == old(table) && (worker.waits <==> Waits(table[worker.ref].status))
    {
      hide QueueOk, TrackedOk, CountsOk, LossesOk;
      StepKeeps(setting, Abs(), Look);
      if worker.Started? {
        worker := Beginning(worker.id, worker.task, worker.ref, Waits(table[worker.ref].status));
      }
    }

    /** Marks the job as running, if it was waiting, and calls its function. */
    method Call()
      requires Valid()
      modifies this
      ensures Valid() && Abs() == Next(setting, old(Abs()), Action.Begin)
      ensures old(worker).Beginning? ==> worker.Executing? && table[worker.ref].runs <= Bound(table[worker.ref].maxRetries)
    {
      hide QueueOk, TrackedOk, LossesOk;
      StepKeeps(setting, Abs(), Action.Begin);
      if worker.Beginning? {
        var j := table[worker.ref];
        if worker.waits {
          j := j.(status := Running);
        }
        table := table[worker.ref := j.(runs := j.runs + 1)];
        worker := Executing(worker.id, worker.task, worker.ref);
      }
    }

    /** The function came back; the worker looks at what it left. */
    method Returned()
      requires Valid()
      modifies this
      ensures Valid() && Abs() == Next(setting, old(Abs()), FuncReturns)
      ensures old(worker).Executing? ==> worker.Settling? && worker.ref == old(worker).ref && table == old(table) && worker.seen == table[worker.ref].status
    {
      hide QueueOk, TrackedOk, CountsOk, LossesOk;
      StepKeeps(setting, Abs(), FuncReturns);
      if worker.Executing? {
        worker := Settling(worker.id, worker.task, worker.ref, table[worker.ref].status);
      }
    }

    /** The job has ended, whatever its function left. */
    method SettleJob()
      requires Valid()
      modifies this
      ensures Valid() && Abs() == Next(setting, old(Abs()), Settle)
      ensures old(worker).Settling? ==>
        && worker == Leaving(old(worker).id, false) && old(worker).ref in table
        && (old(worker).seen == AwaitingAck ==> table[old(worker).ref].status == Failed)
        && (!Terminal(old(worker).seen) ==> Terminal(table[old(worker).ref].status))
        && (Terminal(old(worker).seen) ==> table == old(table))
    {
      hide QueueOk, TrackedOk, CountsOk, LossesOk;
      StepKeeps(setting, Abs(), Settle);
      if worker.Settling? {
        if worker.seen == AwaitingAck {
          SetStatus(worker.ref, Failed);
        } else if !Terminal(worker.seen) {
          SetStatus(worker.ref, Done);
        }
        worker := Leaving(worker.id, false);
      }
    }

    /** The function raised: the worker looks whether the queue stopped or the job was cancelled. */
    method Raised()
      requires Valid()
      modifies this
      ensures Valid() && Abs() == Next(setting, old(Abs()), FuncRaises)
      ensures old(worker).Executing? ==>
        && table == old(table)
        && (worker.Deciding? <==> !stopped && table[old(worker).ref].status == Cancelled)
        && (!worker.Deciding? ==> worker.Marking? && worker.ref == old(worker).ref && worker.halted == stopped)
    {
      hide QueueOk, TrackedOk, CountsOk, LossesOk;
      StepKeeps(setting, Abs(), FuncRaises);
      if worker.Executing? {
        if !stopped && table[worker.ref].status == Cancelled {
          worker := Deciding(worker.id, worker.task, worker.ref);
        } else {
          worker := Marking(worker.id, worker.task, worker.ref, stopped);
        }
      }
    }

    /** The job is marked for a retry, or as cancelled when the queue had stopped. */
    method MarkJob()
      requires Valid()
      modifies this
      ensures Valid() && Abs() == Next(setting, old(Abs()), Mark)
      ensures old(worker).Marking? ==>
        && worker.Deciding? && old(worker).ref in table
        && (old(worker).halted ==> table[old(worker).ref].status == Cancelled)
        && (!old(worker).halted ==>
              && table[old(worker).ref].retryCount == old(table)[old(worker).ref].retryCount + 1
              && (table[old(worker).ref].status == Failed <==> table[old(worker).ref].retryCount > table[old(worker).ref].maxRetries))
    {
      hide QueueOk, TrackedOk, CountsOk, LossesOk;
      StepKeeps(setting, Abs(), Mark);
      if worker.Marking? {
        var j := table[worker.ref];
        if worker.halted {
          SetStatus(worker.ref, Cancelled);
        } else {
          j := j.(retryCount := j.retryCount + 1);
          table := table[worker.ref := j.(status := if j.retryCount > j.maxRetries then Failed else Retrying)];
        }
        worker := Deciding(worker.id, worker.task, worker.ref);
      }
    }

    /** Whether a retry is scheduled, the job fails, or it leaves as cancelled. */
    method Resolve()
      requires Valid()
      modifies this
      ensures Valid() && Abs() == Next(setting, old(Abs()), Decide)
      ensures old(worker).Deciding? ==>
        && table == old(table)
        && (worker.Scheduling? <==> !stopped && table[old(worker).ref].status != Cancelled && ShouldRetry(table[old(worker).ref]))
        && (worker.Leaving? <==> table[old(worker).ref].status == Cancelled)
        && (worker.Scheduling? || worker.Leaving? || worker.Failing?)
    {
      hide QueueOk, TrackedOk, CountsOk, LossesOk;
      StepKeeps(setting, Abs(), Decide);
      if worker.Deciding? {
        var j := table[worker.ref];
        if !stopped && j.status != Cancelled && ShouldRetry(j) {
          worker := Scheduling(worker.id, worker.task, worker.ref);
        } else if j.status != Cancelled {
          worker := Failing(worker.id, worker.task, worker.ref);
        } else {
          worker := Leaving(worker.id, false);
        }
      }
    }

    method GiveUp()
      requires Valid()
      modifies this
      ensures Valid() && Abs() == Next(setting, old(Abs()), Action.Fail)
      ensures old(worker).Failing? ==> worker == Leaving(old(worker).id, false) && old(worker).ref in table && table[old(worker).ref].status == Failed
    {
      hide QueueOk, TrackedOk, CountsOk, LossesOk;
      StepKeeps(setting, Abs(), Action.Fail);
      if worker.Failing? {
        SetStatus(worker.ref, Failed);
        worker := Leaving(worker.id, false);
      }
    }

    /** The two locked stretches of scheduling a retry. */
    method Schedule()
      requires Valid()
      modifies this
      ensures Valid() && Abs() == Next(setting, old(Abs()), ScheduleRetry)
      ensures old(worker).Scheduling? ==>
        && (worker.Arming? <==> accepting && old(worker).id !in old(retryPending))
        && (worker.Arming? ==> old(worker).id in retryPending) && (!worker.Arming? ==> old(worker).ref in refused)
    {
      hide Good;
      StepKeeps(setting, Abs(), ScheduleRetry);
      GoodFacts(setting, Abs());
      if worker.Scheduling? {
        if stopped || !accepting || worker.id in retryPending {
          refused := refused + {worker.ref};
          worker := Leaving(worker.id, true);
        } else {
          retryPending := retryPending + {worker.id};
          worker := Arming(worker.id, worker.task, worker.ref);
        }
      }
    }

    method Arm()
      requires Valid()
      modifies this
      ensures Valid() && Abs() == Next(setting, old(Abs()), ArmTimer)
      ensures old(worker).Arming? ==>
        && worker.Leaving? && (worker.refused <==> stopped) && (worker.refused ==> old(worker).ref in refused)
        && (!worker.refused ==> Retry(old(worker).id, old(worker).task) in retries)
    {
      hide Good;
      StepKeeps(setting, Abs(), ArmTimer);
      GoodFacts(setting, Abs());
      if worker.Arming? {
        if stopped || !accepting {
          retryPending := retryPending - {worker.id};
          refused := refused + {worker.ref};
          worker := Leaving(worker.id, true);
        } else {
          retries := retries + {Retry(worker.id, worker.task)};
          worker := Leaving(worker.id, false);
        }
      }
    }

    /** The end of the worker's turn: a job that waits nowhere is forgotten. */
    method Conclude()
      requires Valid()
      modifies this
      ensures Valid() && Abs() == Next(setting, old(Abs()), Finish)
      ensures !stopped ==> lost == {}
    {
      hide QueueOk, TrackedOk, CountsOk, PlacesOk, Submitted, AfterCancel, Got, AfterStart, AfterLook, AfterBegin, AfterFuncSets, AfterReturn, AfterSettle, AfterRaise, AfterMark, AfterDecide, AfterFail, AfterSchedule, AfterArm, AfterRequeue, AfterShutdown, AfterDrain, AfterSentinel;
      StepKeeps(setting, Abs(), Finish);
      if worker.Leaving? {
        var id := worker.id;
        active, worker := active - {id}, Idle;
        if id !in queued && id !in retryPending {
          Remove(id);
        }
      }
    }

    /** One attempt of a retry thread. */
    method TryRequeue(r: Retry)
      requires Valid()
      modifies this
      ensures Valid() && Abs() == Next(setting, old(Abs()), Requeue(r))
      ensures fifo != old(fifo) ==>
        && r in old(retries) && accepting && r.id in old(retryPending) && r.id !in old(active) && |old(fifo)| < setting.maxsize
        && fifo == old(fifo) + [Work(r.id, r.task)] && r.id in queued && r.id !in retryPending && r !in retries
      ensures fifo == old(fifo) && r in old(retries) && r !in retries ==>
        stopped || r.id !in old(retryPending) || r.id !in old(tasks) || old(tasks)[r.id] != r.task
    {
      hide Good, Submitted, AfterCancel, Got, AfterStart, AfterLook, AfterBegin, AfterFuncSets, AfterReturn, AfterSettle, AfterRaise, AfterMark, AfterDecide, AfterFail, AfterSchedule, AfterArm, AfterFinish, AfterShutdown, AfterDrain, AfterSentinel;
      StepKeeps(setting, Abs(), Requeue(r));
      GoodFacts(setting, Abs());
      if r in retries {
        if stopped || !accepting {
          retryPending, retries := retryPending - {r.id}, retries - {r};
        } else if r.id !in retryPending || r.id !in jobs || r.id !in tasks || tasks[r.id] != r.task {
          retries := retries - {r};
        } else if r.id !in active && |fifo| < setting.maxsize {
          fifo := fifo + [Work(r.id, r.task)];
          retryPending, queued, retries := retryPending - {r.id}, queued + {r.id}, retries - {r};
        }
      }
    }

    /** Takes out one item that still waits, after admission ended. */
    method DrainOne(cancelPending: bool)
      requires Valid()
      modifies this
      ensures Valid() && Abs() == Next(setting, old(Abs()), Drain(cancelPending))
      ensures old(stopped) && old(fifo) != [] ==>
        && fifo == old(fifo)[1..]
        && (old(fifo)[0].Work? ==>
              && old(fifo)[0].id !in queued && old(fifo)[0].id !in jobs
              && old(fifo)[0].id in old(jobs) && old(jobs)[old(fifo)[0].id] in table
              && (cancelPending ==> Terminal(table[old(jobs)[old(fifo)[0].id]].status)))
    {
      hide Good, Discarded, Alive, Terminal, Submitted, AfterCancel, Got, AfterStart, AfterLook, AfterBegin, AfterFuncSets, AfterReturn, AfterSettle, AfterRaise, AfterMark, AfterDecide, AfterFail, AfterSchedule, AfterArm, AfterFinish, AfterRequeue, AfterShutdown, AfterSentinel;
      StepKeeps(setting, Abs(), Drain(cancelPending));
      if stopped && fifo != [] {
        DrainTakes(setting, Abs(), cancelPending);
      }
      if stopped && fifo != [] {
        var item := fifo[0];
        fifo := fifo[1..];
        if item.Work? {
          queued := queued - {item.id};
          Discard(item.id, cancelPending);
        }
      }
    }

    /** Wakes a waiting worker of a stopped queue while there is room. */
    method WakeWorker() returns (put: bool)
      requires Valid()
      modifies this
      ensures Valid() && Abs() == Next(setting, old(Abs()), PutSentinel)
      ensures put <==> stopped && |old(fifo)| < setting.maxsize
      ensures fifo == if put then old(fifo) + [Sentinel] else old(fifo)
    {
      hide Good, Alive, Submitted, AfterCancel, Got, AfterStart, AfterLook, AfterBegin, AfterFuncSets, AfterReturn, AfterSettle, AfterRaise, AfterMark, AfterDecide, AfterFail, AfterSchedule, AfterArm, AfterFinish, AfterRequeue, AfterShutdown, AfterDrain;
      StepKeeps(setting, Abs(), PutSentinel);
      put := stopped && |fifo| < setting.maxsize;
      if put {
        fifo := fifo + [Sentinel];
      }
    }

    method Discard(id: TransferId, cancelPending: bool)
      modifies `table, `jobs, `tasks, `lost, `abandoned
      ensures Abs() == Discarded(old(Abs()), id, cancelPending)
    {
      if id in jobs && jobs[id] in table && !Terminal(table[jobs[id]].status) {
        if cancelPending {
          SetStatus(jobs[id], Cancelled);
        } else {
          abandoned := abandoned + {jobs[id]};
        }
      }
      if id !in active {
        Remove(id);
      }
    }

    /** Admission ends for good; what waits is cancelled or abandoned, and retries are given up. */
    method Close(cancelPending: bool)
      requires Valid()
      modifies this
      ensures Valid() && Abs() == Next(setting, old(Abs()), Shutdown(cancelPending))
      ensures stopped && !accepting && retryPending == {}
      ensures cancelPending ==>
        lost == old(lost) && abandoned == old(abandoned) && AllEnded(old(jobs), old(queued) + old(retryPending), table)
    {
      hide Good, Hit, EndedTable, AfterEnding, AliveOf, Alive, Submitted, AfterCancel, Got, AfterStart, AfterLook, AfterBegin, AfterFuncSets, AfterReturn, AfterSettle, AfterRaise, AfterMark, AfterDecide, AfterFail, AfterSchedule, AfterArm, AfterFinish, AfterRequeue, AfterDrain, AfterSentinel;
      ghost var q := Abs();
      ShutdownEnds(setting, q);
      var gone := retryPending;
      var removed := gone - queued - active;
      EndPending(cancelPending, gone, removed);
      accepting, stopped, retryPending := false, true, {};
      jobs, tasks := jobs - removed, tasks - removed;
      assert Abs() == AfterShutdown(q, cancelPending);
      StepKeeps(setting, q, Shutdown(cancelPending));
    }

    method EndPending(cancelPending: bool, gone: set<TransferId>, ghost removed: set<TransferId>)
      modifies `table, `lost, `abandoned
      ensures table == EndedTable(jobs, if cancelPending then queued + gone else {}, old(table))
      ensures lost == old(lost) + (if cancelPending then {} else AliveOf(old(Abs()), removed))
      ensures abandoned == old(abandoned) + (if cancelPending then {} else AliveOf(old(Abs()), gone))
    {
      if cancelPending {
        EndAll(queued + gone);
      } else {
        NothingEnded(table, jobs);
        lost, abandoned := lost + AliveOf(Abs(), removed), abandoned + AliveOf(Abs(), gone);
      }
    }

    method EndAll(ended: set<TransferId>)
      modifies `table
      ensures table == EndedTable(jobs, ended, old(table))
    {
      var left := ended;
      NothingEnded(table, jobs);
      assert ended - left == {};
      while left != {}
        invariant left <= ended
        invariant table == EndedTable(jobs, ended - left, old(table))
      {
        var id :| id in left;
        OneMoreEnded(old(table), jobs, ended - left, id);
        assert ended - (left - {id}) == ended - left + {id};
        if id in jobs && jobs[id] in table && !Terminal(table[jobs[id]].status) {
          SetStatus(jobs[id], Cancelled);
        }
        left := left - {id};
      }
      assert ended - left == ended;
    }
  }
}
