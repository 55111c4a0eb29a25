/** The worker pool of src/task.c: a FIFO of tasks served by detached threads that share one
    mutex and one condition variable.  Every section that runs under the mutex is one step; the
    steps of the threads interleave freely. */
module TaskPool {

  const MAX_TASK_THREADS: nat := 16
  const MAX_IDLE_TASK_THREADS: nat := 2

  type Task = nat

  /** Where the threads are between two critical sections.  Threads are anonymous, so a count
      per place is enough. */
  datatype Threads = Threads(
    ready: nat,               // launched, or done with a task, and about to lock the mutex
    blocked: nat,             // asleep in hts_cond_wait
    woken: nat,               // released from hts_cond_wait, without the mutex yet
    running: seq<Task>)       // calling t_fn, without the mutex
  {
    function Awake(): nat { ready + woken + |running| }
    function Count(): nat { Awake() + blocked }
  }

  /** `tasks`, `threads` and `avail` are the variables of the program; `at`, `submitted` and
      `started` record where the threads are, what was handed in and what was taken out. */
  datatype Pool = Pool(
    tasks: seq<Task>,
    threads: nat,
    avail: nat,
    at: Threads,
    submitted: seq<Task>,
    started: seq<Task>)

  function Empty(): Pool { Pool([], 0, 0, Threads(0, 0, 0, []), [], []) }

  datatype Step =
    | Submit(task: Task)    // task_run
    | Turn(fromWait: bool)  // one critical section of task_thread
    | Finish(i: nat)        // the i-th running t_fn returns
    | Spurious              // hts_cond_wait returns without a signal

  predicate Enabled(p: Pool, step: Step) {
    match step
    case Submit(_) => true
    case Turn(fromWait) => if fromWait then p.at.woken > 0 else p.at.ready > 0
    case Finish(i) => i < |p.at.running|
    case Spurious => p.at.blocked > 0
  }

  /** hts_cond_signal: one sleeper wakes up, if there is one. */
  function Signal(at: Threads): Threads {
    if at.blocked > 0 then at.(blocked := at.blocked - 1, woken := at.woken + 1) else at
  }

  function Submitted(p: Pool, t: Task): Pool {
    var q := p.(tasks := p.tasks + [t], submitted := p.submitted + [t]);
    if q.avail > 0 then q.(at := Signal(q.at))
    else if q.threads < MAX_TASK_THREADS then
      q.(threads := q.threads + 1, at := q.at.(ready := q.at.ready + 1))
    else q
  }

  /** The loop body of task_thread for a thread that holds the mutex and is counted in `threads`
      but no longer in `at`. */
  function Serve(p: Pool): Pool
    requires p.threads > 0
  {
    if p.tasks != [] then
      p.(tasks := p.tasks[1..],
         started := p.started + [p.tasks[0]],
         at := p.at.(running := p.at.running + [p.tasks[0]]))
    else if p.avail == MAX_IDLE_TASK_THREADS then
      p.(threads := p.threads - 1)
    else
      p.(avail := p.avail + 1, at := p.at.(blocked := p.at.blocked + 1))
  }

  function Next(p: Pool, step: Step): Pool
    requires Inv(p) && Enabled(p, step)
  {
    match step
    case Submit(t) => Submitted(p, t)
    case Turn(true) => Serve(p.(avail := p.avail - 1, at := p.at.(woken := p.at.woken - 1)))
    case Turn(false) => Serve(p.(at := p.at.(ready := p.at.ready - 1)))
    case Finish(i) =>
      p.(at := p.at.(running := p.at.running[..i] + p.at.running[i + 1..],
                     ready := p.at.ready + 1))
    case Spurious => p.(at := Signal(p.at))
  }

  predicate Inv(p: Pool) {
    && p.threads == p.at.Count()
    && p.avail == p.at.blocked + p.at.woken
    && p.threads <= MAX_TASK_THREADS
    && p.avail <= MAX_IDLE_TASK_THREADS
    && (p.tasks != [] ==> p.at.Awake() > 0)
    && p.submitted == p.started + p.tasks
  }

  /** What every step keeps. */
  lemma InvKept(p: Pool, step: Step)
    requires Inv(p) && Enabled(p, step)
    ensures Inv(Next(p, step))
  {
    if step.Turn? && p.tasks != [] {
      assert p.tasks == [p.tasks[0]] + p.tasks[1..];
    }
  }

  // ---- Runs ------------------------------------------------------------------------------

  predicate Legal(p: Pool, steps: seq<Step>)
    requires Inv(p)
    decreases steps
  {
    steps != [] ==>
      Enabled(p, steps[0]) && (InvKept(p, steps[0]); Legal(Next(p, steps[0]), steps[1..]))
  }

  function Run(p: Pool, steps: seq<Step>): Pool
    requires Inv(p) && Legal(p, steps)
    decreases steps
  {
    if steps == [] then p
    else InvKept(p, steps[0]); Run(Next(p, steps[0]), steps[1..])
  }

  /** The tasks handed to task_run during a run, in order. */
  function Submissions(steps: seq<Step>): seq<Task> {
    if steps == [] then []
    else (if steps[0].Submit? then [steps[0].task] else []) + Submissions(steps[1..])
  }

  lemma StepHistory(p: Pool, step: Step)
    requires Inv(p) && Enabled(p, step)
    ensures Next(p, step).submitted == p.submitted + (if step.Submit? then [step.task] else [])
    ensures IsWork(step) ==> WorkLeft(Next(p, step)) == WorkLeft(p) - 1
    ensures IsWork(step) ==> Min2(Next(p, step).threads) == Min2(p.threads)
  {
  }

  lemma {:induction false} RunKeepsInv(p: Pool, steps: seq<Step>)
    requires Inv(p) && Legal(p, steps)
    ensures Inv(Run(p, steps))
    ensures Run(p, steps).submitted == p.submitted + Submissions(steps)
    decreases steps
  {
    if steps != [] {
      var q := Next(p, steps[0]);
      InvKept(p, steps[0]);
      StepHistory(p, steps[0]);
      RunKeepsInv(q, steps[1..]);
    }
  }

  /** Main result: in every interleaving that starts with the empty pool the caps hold, tasks
      leave the queue in the order they entered it, each once, and a waiting task always has
      some thread that is not asleep. */
  lemma PoolIsSafe(steps: seq<Step>)
    requires Legal(Empty(), steps)
    ensures var q := Run(Empty(), steps);
            && q.at.Count() <= 16
            && q.at.blocked <= q.avail <= 2
            && Submissions(steps) == q.started + q.tasks
            && (q.tasks != [] ==> q.at.blocked < q.at.Count())
  {
    RunKeepsInv(Empty(), steps);
  }

  // ---- Draining --------------------------------------------------------------------------

  predicate IsWork(step: Step) { step.Turn? || step.Finish? }

  predicate AllWork(steps: seq<Step>) {
    forall i :: 0 <= i < |steps| ==> IsWork(steps[i])
  }

  /** No thread can move on its own. */
  ghost predicate Quiet(p: Pool) {
    forall step :: IsWork(step) ==> !Enabled(p, step)
  }

  /** The number of thread steps the pool still has in it. */
  function WorkLeft(p: Pool): nat {
    2 * |p.tasks| + 2 * |p.at.running| + p.at.woken + p.at.ready
  }

  lemma {:induction false} WorkRunCountsDown(p: Pool, steps: seq<Step>)
    requires Inv(p) && Legal(p, steps) && AllWork(steps)
    ensures WorkLeft(Run(p, steps)) == WorkLeft(p) - |steps|
    ensures Min2(Run(p, steps).threads) == Min2(p.threads)
    ensures Submissions(steps) == []
    decreases steps
  {
    if steps != [] {
      assert IsWork(steps[0]);
      InvKept(p, steps[0]);
      StepHistory(p, steps[0]);
      WorkRunCountsDown(Next(p, steps[0]), steps[1..]);
    }
  }

  function Min2(n: nat): nat { if n < 2 then n else 2 }

  /** A pool in which no thread can move has no task left and keeps at most the idle threads. */
  lemma QuietIsDrained(p: Pool)
    requires Inv(p) && Quiet(p)
    ensures p.tasks == [] && p.started == p.submitted
    ensures p.threads == p.at.blocked <= MAX_IDLE_TASK_THREADS
  {
    assert !Enabled(p, Turn(true)) && !Enabled(p, Turn(false));
    assert !Enabled(p, Finish(0));
  }

  /** Once nothing more is submitted, every schedule of the threads ends within WorkLeft steps,
      and where it ends all tasks have been started and two threads are left, or as many as there
      were if these were fewer. */
  lemma PoolDrains(p: Pool, steps: seq<Step>)
    requires Inv(p) && Legal(p, steps) && AllWork(steps)
    ensures |steps| <= WorkLeft(p)
    ensures Quiet(Run(p, steps)) <==> |steps| == WorkLeft(p)
    ensures Quiet(Run(p, steps)) ==>
              && Run(p, steps).started == p.submitted
              && Run(p, steps).tasks == []
              && Run(p, steps).threads == Run(p, steps).at.blocked == Min2(p.threads)
  {
    var q := Run(p, steps);
    WorkRunCountsDown(p, steps);
    RunKeepsInv(p, steps);
    if Quiet(q) {
      QuietIsDrained(q);
    } else {
      var step :| IsWork(step) && Enabled(q, step);
    }
  }

  // ---- Lost wakeups ----------------------------------------------------------------------

  /** Whether a submission gets a thread of its own: a sleeper, or a new one. */
  predicate Wakes(p: Pool) {
    (p.avail > 0 && p.at.blocked > 0) || (p.avail == 0 && p.threads < MAX_TASK_THREADS)
  }

  /** A submission adds one awake thread exactly then; otherwise it adds none, because the pool is
      at its cap or because num_task_threads_avail still counts threads that have been signalled
      but have not run yet. */
  lemma SubmitWakesIff(p: Pool, t: Task)
    requires Inv(p)
    ensures Submitted(p, t).at.Awake() == p.at.Awake() + (if Wakes(p) then 1 else 0)
    ensures !Wakes(p) <==> (if p.avail > 0 then p.at.woken == p.avail
                            else p.at.Awake() == 16)
  {
  }

  /** The submissions of a run that got no thread of their own. */
  function Absorbed(p: Pool, steps: seq<Step>): nat
    requires Inv(p) && Legal(p, steps)
    decreases steps
  {
    if steps == [] then 0
    else
      InvKept(p, steps[0]);
      (if steps[0].Submit? && !Wakes(p) then 1 else 0) + Absorbed(Next(p, steps[0]), steps[1..])
  }

  lemma StepBacklog(p: Pool, step: Step)
    requires Inv(p) && Enabled(p, step)
    ensures Inv(Next(p, step))
    ensures var q := Next(p, step);
            |q.tasks| - q.at.Awake() <= Max(0, |p.tasks| - p.at.Awake()
                                               + if step.Submit? && !Wakes(p) then 1 else 0)
  {
    InvKept(p, step);
  }

  function Max(x: int, y: int): int { if x < y then y else x }

  /** After every run the waiting tasks outnumber the awake threads by no more than the
      submissions that woke nobody: if none did, each waiting task has a thread of its own. */
  lemma {:induction false} BacklogIsAbsorbed(p: Pool, steps: seq<Step>)
    requires Inv(p) && Legal(p, steps)
    ensures |Run(p, steps).tasks| <=
              Run(p, steps).at.Awake() + Max(0, |p.tasks| - p.at.Awake()) + Absorbed(p, steps)
    decreases steps
  {
    if steps != [] {
      StepBacklog(p, steps[0]);
      BacklogIsAbsorbed(Next(p, steps[0]), steps[1..]);
    }
  }

  /** It does happen: after a first task is done, its thread is signalled for a second one, and a
      third one submitted before that thread runs gets none, although fifteen more are allowed. */
  lemma SignalAbsorbed(a: Task, b: Task, d: Task)
    ensures var steps := [Submit(a), Turn(false), Finish(0), Turn(false), Submit(b), Submit(d)];
            && Legal(Empty(), steps) && Absorbed(Empty(), steps) == 1
            && var q := Run(Empty(), steps);
            q.tasks == [b, d] && q.threads == 1 && q.at == Threads(0, 0, 1, [])
  {
    TwoForOne(a, b, d, []);
    FirstTaskDone(a, [Submit(b)] + ([Submit(d)] + []));
    assert [Submit(a), Turn(false), Finish(0), Turn(false)] + ([Submit(b)] + ([Submit(d)] + []))
           == [Submit(a), Turn(false), Finish(0), Turn(false), Submit(b), Submit(d)];
  }

  lemma TwoForOne(a: Task, b: Task, d: Task, none: seq<Step>)
    requires none == []
    ensures var p, steps := IdleAgain(a), [Submit(b)] + ([Submit(d)] + none);
            && Legal(p, steps) && Absorbed(p, steps) == 1
            && Run(p, steps) == Pool([b, d], 1, 1, Threads(0, 0, 1, []), [a, b, d], [a])
  {
    var q := Pool([b], 1, 1, Threads(0, 0, 1, []), [a, b], [a]);
    var r := Pool([b, d], 1, 1, Threads(0, 0, 1, []), [a, b, d], [a]);
    assert Next(IdleAgain(a), Submit(b)) == q && Next(q, Submit(d)) == r;
    TwoSteps(IdleAgain(a), Submit(b), q, Submit(d), r, none);
  }

  /** One step leads from `p` to `q`. */
  predicate Leads(p: Pool, step: Step, q: Pool) {
    Inv(p) && Enabled(p, step) && Next(p, step) == q && Inv(q)
  }

  function Lost(p: Pool, step: Step): nat { if step.Submit? && !Wakes(p) then 1 else 0 }

  lemma TwoSteps(p: Pool, s1: Step, q: Pool, s2: Step, r: Pool, steps: seq<Step>)
    requires Leads(p, s1, q) && Leads(q, s2, r) && Legal(r, steps)
    ensures var all := [s1] + ([s2] + steps);
            && Legal(p, all) && Run(p, all) == Run(r, steps)
            && Absorbed(p, all) == Lost(p, s1) + Lost(q, s2) + Absorbed(r, steps)
  {
    OneMore(q, s2, steps, r);
    OneMore(p, s1, [s2] + steps, q);
  }

  /** The pool after one task, with its thread asleep. */
  function IdleAgain(a: Task): Pool { Pool([], 1, 1, Threads(0, 1, 0, []), [a], [a]) }

  lemma FirstTaskDone(a: Task, steps: seq<Step>)
    requires Legal(IdleAgain(a), steps)
    ensures var all := [Submit(a), Turn(false), Finish(0), Turn(false)] + steps;
            && Legal(Empty(), all) && Run(Empty(), all) == Run(IdleAgain(a), steps)
            && Absorbed(Empty(), all) == Absorbed(IdleAgain(a), steps)
  {
    var p := Pool([a], 1, 0, Threads(1, 0, 0, []), [a], []);
    var q := Pool([], 1, 0, Threads(0, 0, 0, [a]), [a], [a]);
    var r := Pool([], 1, 0, Threads(1, 0, 0, []), [a], [a]);
    assert Leads(Empty(), Submit(a), p) && Leads(p, Turn(false), q);
    assert Leads(q, Finish(0), r) && Leads(r, Turn(false), IdleAgain(a));
    FourSteps(Empty(), Submit(a), p, Turn(false), q, Finish(0), r, Turn(false), IdleAgain(a),
              steps);
    assert [Submit(a)] + ([Turn(false)] + ([Finish(0)] + ([Turn(false)] + steps)))
           == [Submit(a), Turn(false), Finish(0), Turn(false)] + steps;
  }

  lemma FourSteps(p: Pool, s1: Step, q: Pool, s2: Step, r: Pool, s3: Step, s: Pool, s4: Step,
                  t: Pool, steps: seq<Step>)
    requires Leads(p, s1, q) && Leads(q, s2, r) && Leads(r, s3, s) && Leads(s, s4, t)
    requires Legal(t, steps)
    ensures var all := [s1] + ([s2] + ([s3] + ([s4] + steps)));
            && Legal(p, all) && Run(p, all) == Run(t, steps)
            && Absorbed(p, all) == Lost(p, s1) + Lost(q, s2) + Lost(r, s3) + Lost(s, s4)
                                   + Absorbed(t, steps)
  {
    TwoSteps(r, s3, s, s4, t, steps);
    TwoSteps(p, s1, q, s2, r, [s3] + ([s4] + steps));
  }

  lemma OneMore(p: Pool, step: Step, steps: seq<Step>, q: Pool)
    requires Inv(p) && Enabled(p, step) && Next(p, step) == q && Inv(q) && Legal(q, steps)
    ensures Legal(p, [step] + steps) && Run(p, [step] + steps) == Run(q, steps)
    ensures Absorbed(p, [step] + steps)
            == (if step.Submit? && !Wakes(p) then 1 else 0) + Absorbed(q, steps)
  {
    assert ([step] + steps)[1..] == steps;
  }

  // ---- The program -----------------------------------------------------------------------

  datatype Outcome = Sleep | Exit | Work(task: Task)

  /** The file-scope variables of task.c.  The three ghost fields are bookkeeping. */
  class TaskPool {
    var tasks: seq<Task>
    var numTaskThreads: nat
    var numTaskThreadsAvail: nat
    ghost var at: Threads
    ghost var submitted: seq<Task>
    ghost var started: seq<Task>

    ghost function State(): Pool
      reads this
    {
      Pool(tasks, numTaskThreads, numTaskThreadsAvail, at, submitted, started)
    }

    constructor ()
      ensures State() == Empty() && Inv(State())
    {
      tasks, numTaskThreads, numTaskThreadsAvail := [], 0, 0;
      at, submitted, started := Threads(0, 0, 0, []), [], [];
    }

    method TaskLaunchThread()
      modifies this
      ensures State() == old(State()).(threads := old(numTaskThreads) + 1,
                                       at := old(at).(ready := old(at.ready) + 1))
    {
      numTaskThreads := numTaskThreads + 1;
      at := at.(ready := at.ready + 1);
    }

    method TaskRun(t: Task)
      requires Inv(State())
      modifies this
      ensures State() == Submitted(old(State()), t)
      ensures Inv(State())
    {
      InvKept(State(), Submit(t));
      tasks := tasks + [t];
      submitted := submitted + [t];
      if numTaskThreadsAvail > 0 {
        at := Signal(at);
      } else {
        if numTaskThreads < MAX_TASK_THREADS {
          TaskLaunchThread();
        }
      }
    }

    /** From the moment a thread gets the mutex until it gives it up. */
    method ThreadTurn(fromWait: bool) returns (out: Outcome)
      requires Inv(State()) && Enabled(State(), Turn(fromWait))
      modifies this
      ensures State() == Next(old(State()), Turn(fromWait))
      ensures Inv(State())
      ensures out.Work? <==> old(tasks) != []
      ensures out.Work? ==> out.task == old(tasks)[0]
      ensures out.Exit? <==> numTaskThreads < old(numTaskThreads)
    {
      InvKept(State(), Turn(fromWait));
      if fromWait {
        numTaskThreadsAvail := numTaskThreadsAvail - 1;
        at := at.(woken := at.woken - 1);
      } else {
        at := at.(ready := at.ready - 1);
      }
      if |tasks| == 0 {
        if numTaskThreadsAvail == MAX_IDLE_TASK_THREADS {
          numTaskThreads := numTaskThreads - 1;
          return Exit;
        }
        numTaskThreadsAvail := numTaskThreadsAvail + 1;
        at := at.(blocked := at.blocked + 1);
        return Sleep;
      }
      var t := tasks[0];
      tasks := tasks[1..];
      started := started + [t];
      at := at.(running := at.running + [t]);
      return Work(t);
    }
  }
}
