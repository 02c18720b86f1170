/** The thread pool: its accounting as interleaved atomic steps, and the pool object. */
module ThreadPools {
  import opened Options

  const SIZE_T: int := 0x1_0000_0000_0000_0000

  type Task = nat

  /** size_t arithmetic: n up to multiples of the width. */
  function Wrap(n: int): (r: int)
    ensures 0 <= r < SIZE_T
    decreases n < 0, if n < 0 then -n else n
  {
    if n < 0 then Wrap(n + SIZE_T) else if n >= SIZE_T then Wrap(n - SIZE_T) else n
  }

  lemma {:induction false} WrapAdd(n: int, d: int)
    ensures Wrap(Wrap(n) + d) == Wrap(n + d)
    decreases n < 0, if n < 0 then -n else n
  {
    if n < 0 {
      WrapAdd(n + SIZE_T, d);
      WrapShift(n + d);
    } else if n >= SIZE_T {
      WrapAdd(n - SIZE_T, d);
      WrapShift(n - SIZE_T + d);
    }
  }

  lemma WrapShift(n: int)
    ensures Wrap(n + SIZE_T) == Wrap(n)
  {
  }

  lemma {:induction false} WrapIsRemainder(n: int)
    ensures Wrap(n) == n % SIZE_T
    decreases n < 0, if n < 0 then -n else n
  {
    if n < 0 {
      WrapIsRemainder(n + SIZE_T);
      RemainderShift(n);
    } else if n >= SIZE_T {
      WrapIsRemainder(n - SIZE_T);
      RemainderShift(n - SIZE_T);
    }
  }

  lemma RemainderShift(n: int)
    ensures (n + SIZE_T) % SIZE_T == n % SIZE_T
  {
  }

  /** Where a worker is: not alive, at the loop test, wanting the lock, and with the lock held: testing the wait
      predicate, past it, past the test of running; or between taking a task and counting it done. */
  datatype Worker = Gone | Top | WantLock | Testing | Ready | CheckPaused | Busy(task: Task)

  datatype Holder = Nobody | By(w: nat) | Waiter(t: nat)

  datatype Pool = Pool(
    queue: seq<Task>, total: int, running: bool, paused: bool,
    holder: Holder,                     // the worker, or the caller of wait_for_tasks, that holds tasks_mutex
    workers: map<nat, Worker>,          // the live threads
    mid: set<nat>,                      // pushers that have queued their task and not yet counted it
    pushed: seq<Task>, started: seq<Task>)

  datatype Action =
    | Push(t: nat, task: Task)          // push_task up to the end of the locked block
    | Count(t: nat)                     // ++tasks_total
    | Work(w: nat)                      // the worker's next step
    | Grab(t: nat)                      // wait_for_tasks locks the mutex, at first or when woken
    | Drop(t: nat)                      // and gives it back, to sleep or at the end
    | Pause(on: bool)
    | Stop                              // destroy_threads
    | Restart                           // create_threads, after every thread has been joined
    | Spawn(w: nat)

  function Init(): Pool {
    Pool([], 0, true, false, Nobody, map[], {}, [], [])
  }

  /** One atomic step; an action that is not enabled leaves the state as it is. */
  function Step(s: Pool, a: Action): Pool {
    match a
    case Push(t, task) =>
      if t !in s.mid && s.holder.Nobody?
      then s.(queue := s.queue + [task], pushed := s.pushed + [task], mid := s.mid + {t}) else s
    case Count(t) =>
      if t in s.mid then s.(total := Wrap(s.total + 1), mid := s.mid - {t}) else s
    case Work(w) => WorkerStep(s, w)
    case Grab(t) => if s.holder.Nobody? then s.(holder := Waiter(t)) else s
    case Drop(t) => if s.holder == Waiter(t) then s.(holder := Nobody) else s
    case Pause(on) => s.(paused := on)
    case Stop => s.(running := false)
    case Restart => if s.workers == map[] then s.(running := true) else s
    case Spawn(w) => if WorkerOf(s, w).Gone? && s.running then s.(workers := s.workers[w := Top]) else s
  }

  function WorkerOf(s: Pool, w: nat): Worker {
    if w in s.workers then s.workers[w] else Gone
  }

  function WorkerStep(s: Pool, w: nat): Pool {
    match WorkerOf(s, w)
    case Gone => s
    case Top => if s.running then s.(workers := s.workers[w := WantLock]) else s.(workers := s.workers - {w})
    case WantLock => if s.holder.Nobody? then s.(holder := By(w), workers := s.workers[w := Testing]) else s
    case Testing =>
      if s.queue != [] || !s.running then s.(workers := s.workers[w := Ready])
      else s.(holder := Nobody, workers := s.workers[w := WantLock])   // waits; may wake for no reason
    case Ready =>
      if s.running then s.(workers := s.workers[w := CheckPaused])
      else s.(holder := Nobody, workers := s.workers[w := Top])
    case CheckPaused =>
      if s.paused then s.(holder := Nobody, workers := s.workers[w := Top])
      else if s.queue == [] then s   // front() of an empty queue: never reached, see FrontIsDefined
      else s.(queue := s.queue[1..], started := s.started + [s.queue[0]], holder := Nobody,
              workers := s.workers[w := Busy(s.queue[0])])
    case Busy(_) => s.(total := Wrap(s.total - 1), workers := s.workers[w := Top])
  }

  function Exec(s: Pool, acts: seq<Action>): Pool {
    if acts == [] then s else Step(Exec(s, acts[..|acts| - 1]), acts[|acts| - 1])
  }

  /** The workers that have taken a task and not yet counted it done. */
  function BusyOnes(s: Pool): set<nat> {
    set w | w in s.workers && s.workers[w].Busy?
  }

  // ---------------------------------------------------------------- invariants

  predicate Holds(w: Worker) {
    w.Testing? || w.Ready? || w.CheckPaused?
  }

  /** The mutex is held by exactly the worker inside the locked block, and there the wait predicate has its effect. */
  ghost predicate LockInv(s: Pool) {
    forall w: nat :: WorkerInv(s, w)
  }

  ghost predicate WorkerInv(s: Pool, w: nat) {
    && (Holds(WorkerOf(s, w)) <==> s.holder == By(w))
    && (WorkerOf(s, w).Ready? ==> s.queue != [] || !s.running)
    && (WorkerOf(s, w).CheckPaused? ==> s.queue != [])
  }

  /** Queued and running ones, less those not yet counted. */
  function Unfinished(s: Pool): int {
    |s.queue| + |BusyOnes(s)| - |s.mid|
  }

  /** That is the counter, as far as its width goes. */
  ghost predicate CountInv(s: Pool) {
    s.total == Wrap(Unfinished(s))
  }

  ghost predicate OrderInv(s: Pool) {
    s.pushed == s.started + s.queue
  }

  ghost predicate Inv(s: Pool) {
    LockInv(s) && CountInv(s) && OrderInv(s)
  }

  lemma StepKeepsWorker(s: Pool, a: Action, w: nat)
    requires LockInv(s)
    ensures WorkerInv(Step(s, a), w)
  {
    assert WorkerInv(s, w);
    if a.Work? || a.Spawn? { assert WorkerInv(s, a.w); }
    assert s.workers == map[] ==> WorkerOf(s, w).Gone?;
  }

  lemma StepKeepsLock(s: Pool, a: Action)
    requires LockInv(s)
    ensures LockInv(Step(s, a))
  {
    forall w: nat ensures WorkerInv(Step(s, a), w) {
      StepKeepsWorker(s, a, w);
    }
  }

  lemma StepKeepsCount(s: Pool, a: Action)
    requires CountInv(s)
    ensures CountInv(Step(s, a))
  {
    var s' := Step(s, a);
    BusyChange(s, a);
    if a.Count? {
      CountingKeeps(s, a.t);
    } else if a.Work? && WorkerOf(s, a.w).Busy? {
      FinishingKeeps(s, a.w);
    } else if a.Push? {
      PushingKeeps(s, a.t, a.task);
    } else if a.Work? {
      WorkingKeeps(s, a.w);
    }
  }

  lemma PushingKeeps(s: Pool, t: nat, task: Task)
    requires CountInv(s)
    ensures CountInv(Step(s, Push(t, task)))
  {
    var s' := Step(s, Push(t, task));
    BusyChange(s, Push(t, task));
    assert t !in s.mid ==> |s.mid + {t}| == |s.mid| + 1;
  }

  lemma WorkingKeeps(s: Pool, w: nat)
    requires CountInv(s) && !WorkerOf(s, w).Busy?
    ensures CountInv(Step(s, Work(w)))
  {
    var s' := Step(s, Work(w));
    BusyChange(s, Work(w));
    assert w !in BusyOnes(s) && |BusyOnes(s) + {w}| == |BusyOnes(s)| + 1;
  }

  lemma CountingKeeps(s: Pool, t: nat)
    requires CountInv(s)
    ensures CountInv(Step(s, Count(t)))
  {
    var s' := Step(s, Count(t));
    if t in s.mid {
      assert |s'.mid| == |s.mid| - 1;
      assert Unfinished(s') == Unfinished(s) + 1;
      WrapAdd(Unfinished(s), 1);
    }
  }

  lemma FinishingKeeps(s: Pool, w: nat)
    requires CountInv(s) && WorkerOf(s, w).Busy?
    ensures CountInv(Step(s, Work(w)))
  {
    var s' := Step(s, Work(w));
    BusyChange(s, Work(w));
    assert w in BusyOnes(s) && |BusyOnes(s')| == |BusyOnes(s)| - 1;
    assert Unfinished(s') == Unfinished(s) - 1;
    WrapAdd(Unfinished(s), -1);
  }

  /** Only taking a task and counting it done change the set of busy workers. */
  lemma BusyChange(s: Pool, a: Action)
    ensures var s' := Step(s, a);
            BusyOnes(s') == if a.Work? && WorkerOf(s, a.w).Busy? then BusyOnes(s) - {a.w}
                            else if a.Work? && WorkerOf(s, a.w).CheckPaused? && !s.paused && s.queue != []
                            then BusyOnes(s) + {a.w}
                            else BusyOnes(s)
  {
  }

  lemma StepKeepsOrder(s: Pool, a: Action)
    requires OrderInv(s)
    ensures OrderInv(Step(s, a))
  {
    if s.queue != [] {
      assert s.started + s.queue == s.started + [s.queue[0]] + s.queue[1..];
    }
  }

  lemma {:induction false} Reachable(acts: seq<Action>)
    ensures Inv(Exec(Init(), acts))
    decreases |acts|
  {
    if acts == [] {
      assert BusyOnes(Init()) == {};
    } else {
      var s, a := Exec(Init(), acts[..|acts| - 1]), acts[|acts| - 1];
      Reachable(acts[..|acts| - 1]);
      StepKeepsLock(s, a);
      StepKeepsCount(s, a);
      StepKeepsOrder(s, a);
    }
  }

  // ---------------------------------------------------------------- results over all runs

  /** Tasks start in the order they were pushed, each at most once, and none is lost: the rest is still queued. */
  lemma StartedInPushOrder(acts: seq<Action>)
    ensures var s := Exec(Init(), acts); s.started <= s.pushed && s.queue == s.pushed[|s.started|..]
  {
    Reachable(acts);
  }

  /** What the calls of push_task in the run push, in order; a push waits while the mutex is held. */
  function PushedIn(acts: seq<Action>): seq<Task> {
    if acts == [] then []
    else
      var front, a := acts[..|acts| - 1], acts[|acts| - 1];
      var s := Exec(Init(), front);
      PushedIn(front) + if a.Push? && a.t !in s.mid && s.holder.Nobody? then [a.task] else []
  }

  lemma {:induction false} PushedAreCalls(acts: seq<Action>)
    ensures Exec(Init(), acts).pushed == PushedIn(acts)
    decreases |acts|
  {
    if acts != [] {
      PushedAreCalls(acts[..|acts| - 1]);
      PushedStep(Exec(Init(), acts[..|acts| - 1]), acts[|acts| - 1]);
    }
  }

  lemma PushedStep(s: Pool, a: Action)
    ensures Step(s, a).pushed == s.pushed + if a.Push? && a.t !in s.mid && s.holder.Nobody? then [a.task] else []
  {
    assert s.pushed + [] == s.pushed;
  }

  /** A worker about to take a task finds one, even though running is read twice. */
  lemma FrontIsDefined(acts: seq<Action>, w: nat)
    ensures var s := Exec(Init(), acts); WorkerOf(s, w).CheckPaused? ==> s.queue != []
  {
    Reachable(acts);
    assert WorkerInv(Exec(Init(), acts), w);
  }

  /** The accounting: tasks_total + uncounted pushes == queued + running, modulo the width of the counter,
      which a worker can push below zero by finishing a task before its pusher has counted it. */
  lemma Accounting(acts: seq<Action>)
    ensures var s := Exec(Init(), acts);
            s.total == Wrap(|s.queue| + |BusyOnes(s)| - |s.mid|)
  {
    Reachable(acts);
  }

  /** What wait_for_tasks waits for, with tasks_mutex held; paused is what its load of that flag yields,
      before or after the load of tasks_total. */
  predicate WaitOver(s: Pool, paused: bool) {
    s.total == if paused then |s.queue| else 0
  }

  /** Running (and, unpaused, queued) tasks are as many as uncounted pushes. */
  predicate Done(s: Pool, paused: bool) {
    |BusyOnes(s)| + (if paused then 0 else |s.queue|) == |s.mid|
  }

  /** It holds exactly when those are as many: with no push under way, exactly when nothing is running (or, unpaused,
      queued). */
  lemma WaitMeansDoneExactly(acts: seq<Action>, paused: bool)
    requires var s := Exec(Init(), acts); |s.queue| + |BusyOnes(s)| < SIZE_T && |s.mid| < SIZE_T
    ensures var s := Exec(Init(), acts);
            && (WaitOver(s, paused) <==> Done(s, paused))
            && (s.mid == {} ==> (Done(s, paused) <==> BusyOnes(s) == {} && (paused || s.queue == [])))
  {
    var s := Exec(Init(), acts);
    assert CountInv(s) by { Reachable(acts); }
    WaitOf(s, paused);
  }

  lemma WaitOf(s: Pool, paused: bool)
    requires CountInv(s) && |s.queue| + |BusyOnes(s)| < SIZE_T && |s.mid| < SIZE_T
    ensures WaitOver(s, paused) <==> Done(s, paused)
    ensures s.mid == {} ==> (Done(s, paused) <==> BusyOnes(s) == {} && (paused || s.queue == []))
  {
    WrapShift(Unfinished(s));
    assert s.mid == {} ==> |s.mid| == 0;
    assert |BusyOnes(s)| == 0 <==> BusyOnes(s) == {};
  }

  /** While the waiter holds the mutex nothing is queued or taken: the queue stays, and running tasks only end. */
  lemma {:induction false} WaiterHolds(s: Pool, t: nat, acts: seq<Action>)
    requires LockInv(s) && s.holder == Waiter(t) && Drop(t) !in acts
    ensures var s' := Exec(s, acts);
            s'.holder == Waiter(t) && s'.queue == s.queue && LockInv(s') && BusyOnes(s') <= BusyOnes(s)
    decreases |acts|
  {
    if acts != [] {
      var r, a := Exec(s, acts[..|acts| - 1]), acts[|acts| - 1];
      WaiterHolds(s, t, acts[..|acts| - 1]);
      WaiterStep(r, t, a);
    }
  }

  lemma WaiterStep(s: Pool, t: nat, a: Action)
    requires LockInv(s) && s.holder == Waiter(t) && a != Drop(t)
    ensures var s' := Step(s, a);
            s'.holder == Waiter(t) && s'.queue == s.queue && LockInv(s') && BusyOnes(s') <= BusyOnes(s)
  {
    StepKeepsLock(s, a);
    BusyChange(s, a);
    if a.Work? {
      assert WorkerInv(s, a.w);
      assert !Holds(WorkerOf(s, a.w));
    }
  }

  /** The predicate of wait_for_tasks, whose loads of tasks_total and paused are separate: when it finds the total in
      one state and the flag in another of the same critical section, and no push is under way at the former, then
      nothing is running at the end of the section that was running before, and unless the flag was set nothing is
      queued. */
  lemma WaitReturnsDone(acts: seq<Action>, t: nat, rest: seq<Action>, paused: bool)
    requires var s := Exec(Init(), acts);
             && s.holder == Waiter(t) && Drop(t) !in rest && s.mid == {} && WaitOver(s, paused)
             && |s.queue| + |BusyOnes(s)| < SIZE_T
    ensures var s' := Exec(Exec(Init(), acts), rest); BusyOnes(s') == {} && (paused || s'.queue == [])
  {
    Reachable(acts);
    var s := Exec(Init(), acts);
    assert |s.mid| == 0;
    WaitOf(s, paused);
    WaiterHolds(s, t, rest);
  }

  /** A push that is under way can be missed: the wait is over although what it pushed is still queued. */
  lemma WaitMissesUncountedPush()
    ensures exists acts :: var s := Exec(Init(), acts); WaitOver(s, s.paused) && !s.paused && s.queue != []
  {
    var acts := [Push(0, 7)];
    assert acts[..0] == [];
    assert Exec(Init(), acts) == Step(Exec(Init(), []), Push(0, 7));
  }

  /** get_tasks_running, read with tasks_mutex held, is off by the uncounted pushes. */
  lemma TasksRunning(acts: seq<Action>)
    ensures var s := Exec(Init(), acts); Wrap(s.total - |s.queue|) == Wrap(|BusyOnes(s)| - |s.mid|)
  {
    var s := Exec(Init(), acts);
    assert CountInv(s) by { Reachable(acts); }
    RunningOf(s);
  }

  lemma RunningOf(s: Pool)
    requires CountInv(s)
    ensures Wrap(s.total - |s.queue|) == Wrap(|BusyOnes(s)| - |s.mid|)
  {
    WrapAdd(Unfinished(s), -|s.queue|);
    assert Unfinished(s) - |s.queue| == |BusyOnes(s)| - |s.mid|;
  }

  // ---------------------------------------------------------------- the object

  /** k steps of worker w with nobody interfering. */
  function Works(s: Pool, w: nat, k: nat): Pool
    decreases k
  {
    if k == 0 then s else Works(WorkerStep(s, w), w, k - 1)
  }

  /** Once the pool is stopped every worker ends: the one in the locked block, or any one when nobody is, has left its
      loop within four steps of its own. */
  lemma StoppedWorkerEnds(s: Pool, w: nat)
    requires LockInv(s) && (s.holder.Nobody? || s.holder == By(w))
    ensures WorkerOf(Works(Step(s, Stop), w, 4), w).Gone?
  {
    var s0 := Step(s, Stop);
    assert WorkerInv(s, w);
    var s1 := WorkerStep(s0, w);
    var s2 := WorkerStep(s1, w);
    var s3 := WorkerStep(s2, w);
    FourWorks(s0, w, s1, s2, s3, WorkerStep(s3, w), 0);
  }

  /** What an undisturbed round of the worker loop amounts to, when it does not have to wait. */
  lemma RoundOnce(s: Pool, w: nat)
    requires WorkerOf(s, w).Top? && s.holder.Nobody? && s.running && s.queue != []
    ensures s.paused ==> Works(s, w, 5) == s.(workers := s.workers[w := Top])
    ensures !s.paused ==> Works(s, w, 6) == s.(queue := s.queue[1..], started := s.started + [s.queue[0]],
                                               total := Wrap(s.total - 1), workers := s.workers[w := Top])
  {
    var s4 := s.(holder := By(w), workers := s.workers[w := CheckPaused]);
    ReachCheck(s, w);
    FinishRound(s, w, s4);
  }

  /** Pausing holds an undisturbed worker back from a waiting queue, and unpausing lets it take the oldest task. */
  lemma PauseHoldsBack(s: Pool, w: nat)
    requires WorkerOf(s, w).Top? && s.holder.Nobody? && s.running && s.queue != []
    ensures var held := Works(Step(s, Pause(true)), w, 5);
            && held == s.(paused := true, workers := s.workers[w := Top])
            && var freed := Works(Step(held, Pause(false)), w, 6);
               freed.started == s.started + [s.queue[0]] && freed.queue == s.queue[1..] && !freed.paused
  {
    var held := s.(paused := true, workers := s.workers[w := Top]);
    RoundOnce(s.(paused := true), w);
    RoundOnce(held.(paused := false), w);
  }

  /** wait_for_tasks finds the mutex free, holds it during its test, and leaves everything as it was; meanwhile nobody
      else gets in. */
  lemma WaitComesAndGoes(s: Pool, t: nat, w: nat)
    requires s.holder.Nobody?
    ensures var s1 := Step(s, Grab(t));
            && Step(s1, Drop(t)) == s
            && (forall u, task :: Step(s1, Push(u, task)) == s1)
            && (WorkerOf(s, w).WantLock? ==> WorkerStep(s1, w) == s1)
  {
  }

  lemma FinishRound(s: Pool, w: nat, s4: Pool)
    requires s4 == s.(holder := By(w), workers := s.workers[w := CheckPaused])
    requires s.holder.Nobody? && s.queue != []
    ensures s.paused ==> Works(s4, w, 1) == s.(workers := s.workers[w := Top])
    ensures !s.paused ==> Works(s4, w, 2) == s.(queue := s.queue[1..], started := s.started + [s.queue[0]],
                                                total := Wrap(s.total - 1), workers := s.workers[w := Top])
  {
    var t := WorkerStep(s4, w);
    assert Works(s4, w, 1) == Works(t, w, 0);
    assert s4.workers[w := Top] == s.workers[w := Top];
    if !s.paused {
      assert Works(s4, w, 2) == Works(t, w, 1) == Works(WorkerStep(t, w), w, 0);
      assert s4.workers[w := Busy(s.queue[0])][w := Top] == s.workers[w := Top];
    }
  }

  lemma ReachCheck(s: Pool, w: nat)
    requires WorkerOf(s, w).Top? && s.holder.Nobody? && s.running && s.queue != []
    ensures var s4 := s.(holder := By(w), workers := s.workers[w := CheckPaused]);
            Works(s, w, 6) == Works(s4, w, 2) && Works(s, w, 5) == Works(s4, w, 1)
  {
    var s1 := s.(workers := s.workers[w := WantLock]);
    assert WorkerStep(s, w) == s1;
    var s2 := s.(holder := By(w), workers := s.workers[w := Testing]);
    assert s1.workers[w := Testing] == s2.workers;
    assert WorkerStep(s1, w) == s2;
    var s3 := s2.(workers := s.workers[w := Ready]);
    assert s2.workers[w := Ready] == s3.workers;
    assert WorkerStep(s2, w) == s3;
    var s4 := s2.(workers := s.workers[w := CheckPaused]);
    assert s3.workers[w := CheckPaused] == s4.workers;
    assert WorkerStep(s3, w) == s4;
    FourWorks(s, w, s1, s2, s3, s4, 2);
    FourWorks(s, w, s1, s2, s3, s4, 1);
  }

  lemma FourWorks(s: Pool, w: nat, s1: Pool, s2: Pool, s3: Pool, s4: Pool, k: nat)
    requires WorkerStep(s, w) == s1 && WorkerStep(s1, w) == s2 && WorkerStep(s2, w) == s3 && WorkerStep(s3, w) == s4
    ensures Works(s, w, k + 4) == Works(s4, w, k)
  {
    assert Works(s, w, k + 4) == Works(s1, w, k + 3);
    assert Works(s1, w, k + 3) == Works(s2, w, k + 2);
  }

  class ThreadPool {
    var tasks: seq<Task>
    var tasksTotal: int
    var running: bool
    var paused: bool
    ghost var holder: Holder
    ghost var workers: map<nat, Worker>
    ghost var mid: set<nat>
    ghost var pushed: seq<Task>
    ghost var started: seq<Task>

    /** The object as a state of the accounting. */
    ghost function View(): Pool
      reads this
    {
      Pool(tasks, tasksTotal, running, paused, holder, workers, mid, pushed, started)
    }

    constructor ()
      ensures View() == Init()
    {
      tasks, tasksTotal, running, paused := [], 0, true, false;
      holder, workers, mid, pushed, started := Nobody, map[], {}, [], [];
    }

    /** push_task by thread t, from the first step to the last. */
    method PushTask(ghost t: nat, task: Task)
      requires holder.Nobody? && t !in mid
      modifies this
      ensures View() == Step(Step(old(View()), Push(t, task)), Count(t))
      ensures tasks == old(tasks) + [task] && tasksTotal == Wrap(old(tasksTotal) + 1)
    {
      tasks := tasks + [task];
      pushed := pushed + [task];
      tasksTotal := Wrap(tasksTotal + 1);
      assert mid + {t} - {t} == mid;
    }

    /** create_threads starts a worker. */
    method StartWorker(ghost w: nat)
      requires WorkerOf(View(), w).Gone? && running
      modifies this`workers
      ensures View() == Step(old(View()), Spawn(w)) && WorkerOf(View(), w).Top?
    {
      workers := workers[w := Top];
    }

    /** One round of worker w's loop that finds the wait predicate true; yields what it ran, if anything. */
    method WorkerRound(ghost w: nat) returns (ran: Option<Task>)
      requires WorkerOf(View(), w).Top? && holder.Nobody? && (tasks != [] || !running)
      modifies this
      ensures View() == Works(old(View()), w, if !old(running) then 1 else if old(paused) then 5 else 6)
      ensures ran == if old(running) && !old(paused) then Some(old(tasks)[0]) else None
      ensures ran.Some? ==> tasks == old(tasks)[1..] && tasksTotal == Wrap(old(tasksTotal) - 1)
      ensures ran.None? ==> tasks == old(tasks) && tasksTotal == old(tasksTotal)
    {
      if !running {
        assert Works(View(), w, 1) == Works(WorkerStep(View(), w), w, 0);
        workers := workers - {w};
        return None;
      }
      RoundOnce(View(), w);
      workers := workers[w := Top];
      if running && !paused {
        var task := tasks[0];
        tasks := tasks[1..];
        started := started + [task];
        tasksTotal := Wrap(tasksTotal - 1);
        return Some(task);
      }
      return None;
    }

    /** The test of wait_for_tasks: when the counter is in step, whether running (and, unpaused, queued) ones are as
        many as pushes under way. */
    method WaitTest() returns (over: bool)
      ensures CountInv(View()) && |tasks| + |BusyOnes(View())| < SIZE_T && |mid| < SIZE_T ==>
        (over <==> |BusyOnes(View())| + (if paused then 0 else |tasks|) == |mid|)
    {
      over := tasksTotal == if paused then |tasks| else 0;
      if CountInv(View()) && |tasks| + |BusyOnes(View())| < SIZE_T && |mid| < SIZE_T {
        WaitOf(View(), paused);
      }
    }
  }
}
