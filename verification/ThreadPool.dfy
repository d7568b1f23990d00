/** The thread pool as threads that take steps in any order.  A step is what a thread does in one
    critical section, or between two of them; the queue lock is held over several steps, so that
    others can run between the change of the queue and the post of the semaphore. */
module ThreadPool {
  import opened Options

  /** Jobs are numbered in the order in which they are pushed. */
  datatype Worker =
    | AtWait                              // in bsem_wait
    | Awake                               // the semaphore is taken
    | Counted                             // num_threads_working is incremented
    | Pulled(job: Option<nat>, post: bool)   // holds the queue lock; `post`: the semaphore is still to be posted
    | Running(k: nat)
    | Finishing                           // num_threads_working is still to be decremented

  datatype Producer =
    | Idle
    | Ready                               // thpool_wait_max has returned
    | Pushed                              // holds the queue lock; the semaphore is still to be posted
    | Posted                              // holds the queue lock

  datatype Waiter =
    | Outside
    | Locked(m: nat)                      // thpool_wait holds thcount_lock; m jobs had been pushed when it was called
    | SawEmpty(m: nat)                    // it has read a queue length of 0
    | Asleep(m: nat)                      // in pthread_cond_wait, which gives the lock up
    | Returned(m: nat)

  datatype Owner = Free | OfWorker(i: nat) | OfProducer(j: nat)

  datatype Pool = Pool(
    workers: seq<Worker>,
    producers: seq<Producer>,
    waiter: Waiter,
    pushed: nat,          // jobs pushed so far
    taken: nat,           // jobs pulled so far: the queue holds the numbers from `taken` to `pushed`
    semaphore: bool,
    rwmutex: Owner,
    working: int,         // num_threads_working
    finished: set<nat>)
  {
    function Len(): int { pushed - taken }

    predicate CountLockFree() { !waiter.Locked? && !waiter.SawEmpty? }

    predicate IsWorker(i: nat) { i < |workers| }

    predicate IsProducer(j: nat) { j < |producers| }
  }

  function Start(w: nat, p: nat): Pool {
    Pool(seq(w, _ => AtWait), seq(p, _ => Idle), Outside, 0, 0, false, Free, 0, {})
  }

  datatype Event =
    | TakeSemaphore(i: nat)
    | CountUp(i: nat)
    | Pull(i: nat)
    | PostMore(i: nat)
    | LeavePull(i: nat)
    | Finish(i: nat)
    | CountDown(i: nat)
    | WaitMax(j: nat)
    | Push(j: nat)
    | PostPush(j: nat)
    | LeavePush(j: nat)
    | WaitEnter
    | WaitWake
    | ReadLen
    | ReadWorking

  /** What a thread can do next. */
  predicate Enabled(s: Pool, maxQueue: int, ev: Event) {
    match ev
    case TakeSemaphore(i) => s.IsWorker(i) && s.workers[i].AtWait? && s.semaphore
    case CountUp(i) => s.IsWorker(i) && s.workers[i].Awake? && s.CountLockFree()
    case Pull(i) => s.IsWorker(i) && s.workers[i].Counted? && s.rwmutex.Free?
    case PostMore(i) => s.IsWorker(i) && s.workers[i].Pulled? && s.workers[i].post
    case LeavePull(i) => s.IsWorker(i) && s.workers[i].Pulled? && !s.workers[i].post
    case Finish(i) => s.IsWorker(i) && s.workers[i].Running?
    case CountDown(i) => s.IsWorker(i) && s.workers[i].Finishing? && s.CountLockFree()
    case WaitMax(j) => s.IsProducer(j) && s.producers[j].Idle? && s.CountLockFree() && s.Len() <= maxQueue
    case Push(j) => s.IsProducer(j) && s.producers[j].Ready? && s.rwmutex.Free?
    case PostPush(j) => s.IsProducer(j) && s.producers[j].Pushed?
    case LeavePush(j) => s.IsProducer(j) && s.producers[j].Posted?
    case WaitEnter => s.waiter.Outside? || s.waiter.Returned?
    case WaitWake => s.waiter.Asleep?
    case ReadLen => s.waiter.Locked?
    case ReadWorking => s.waiter.SawEmpty?
  }

  function Work(s: Pool, i: nat, w: Worker): Pool
    requires s.IsWorker(i)
  {
    s.(workers := s.workers[i := w])
  }

  function Produce(s: Pool, j: nat, p: Producer): Pool
    requires s.IsProducer(j)
  {
    s.(producers := s.producers[j := p])
  }

  function Next(s: Pool, maxQueue: int, ev: Event): Pool
    requires Enabled(s, maxQueue, ev)
  {
    match ev
    case TakeSemaphore(i) => Work(s, i, Awake).(semaphore := false)
    case CountUp(i) => Work(s, i, Counted).(working := s.working + 1)
    case Pull(i) =>
      if s.Len() == 0 then Work(s, i, Pulled(None, false)).(rwmutex := OfWorker(i))
      else Work(s, i, Pulled(Some(s.taken), s.Len() > 1)).(rwmutex := OfWorker(i), taken := s.taken + 1)
    case PostMore(i) => Work(s, i, Pulled(s.workers[i].job, false)).(semaphore := true)
    case LeavePull(i) =>
      var job := s.workers[i].job;
      Work(s, i, if job.Some? then Running(job.value) else Finishing).(rwmutex := Free)
    case Finish(i) => Work(s, i, Finishing).(finished := s.finished + {s.workers[i].k})
    case CountDown(i) => Work(s, i, AtWait).(working := s.working - 1)
    case WaitMax(j) => Produce(s, j, Ready)
    case Push(j) => Produce(s, j, Pushed).(rwmutex := OfProducer(j), pushed := s.pushed + 1)
    case PostPush(j) => Produce(s, j, Posted).(semaphore := true)
    case LeavePush(j) => Produce(s, j, Idle).(rwmutex := Free)
    case WaitEnter => s.(waiter := Locked(s.pushed))
    case WaitWake => s.(waiter := Locked(s.waiter.m))
    case ReadLen => s.(waiter := if s.Len() != 0 then Asleep(s.waiter.m) else SawEmpty(s.waiter.m))
    case ReadWorking => s.(waiter := if s.working != 0 then Asleep(s.waiter.m) else Returned(s.waiter.m))
  }

  // What every run keeps

  /** The worker is between incrementing and decrementing num_threads_working. */
  predicate IsCounted(w: Worker) { !w.AtWait? && !w.Awake? }

  function CountWorking(ws: seq<Worker>): nat {
    if ws == [] then 0 else CountWorking(ws[1..]) + if IsCounted(ws[0]) then 1 else 0
  }

  function CountReady(ps: seq<Producer>): nat {
    if ps == [] then 0 else CountReady(ps[1..]) + if ps[0].Ready? then 1 else 0
  }

  lemma {:induction false} WorkingUpdate(ws: seq<Worker>, i: nat, w: Worker)
    requires i < |ws|
    ensures CountWorking(ws[i := w])
         == CountWorking(ws) + (if IsCounted(w) then 1 else 0) - if IsCounted(ws[i]) then 1 else 0
  {
    if i > 0 {
      assert ws[i := w][1..] == ws[1..][i - 1 := w];
      WorkingUpdate(ws[1..], i - 1, w);
    }
  }

  lemma {:induction false} WorkingPositive(ws: seq<Worker>, i: nat)
    requires i < |ws| && IsCounted(ws[i])
    ensures CountWorking(ws) > 0
  {
    if i > 0 { WorkingPositive(ws[1..], i - 1); }
  }

  lemma {:induction false} ReadyUpdate(ps: seq<Producer>, j: nat, p: Producer)
    requires j < |ps|
    ensures CountReady(ps[j := p]) == CountReady(ps) + (if p.Ready? then 1 else 0) - if ps[j].Ready? then 1 else 0
  {
    if j > 0 {
      assert ps[j := p][1..] == ps[1..][j - 1 := p];
      ReadyUpdate(ps[1..], j - 1, p);
    }
  }

  lemma {:induction false} ReadyAtMost(ps: seq<Producer>)
    ensures CountReady(ps) <= |ps|
  {
    if ps != [] { ReadyAtMost(ps[1..]); }
  }

  /** The queue lock is held by exactly the thread that is inside. */
  ghost predicate LockHeld(s: Pool) {
    && (forall i :: 0 <= i < |s.workers| ==> (s.workers[i].Pulled? <==> s.rwmutex == OfWorker(i)))
    && (forall j :: 0 <= j < |s.producers| ==>
        (s.producers[j].Pushed? || s.producers[j].Posted? <==> s.rwmutex == OfProducer(j)))
    && (s.rwmutex.OfWorker? ==> s.IsWorker(s.rwmutex.i)) && (s.rwmutex.OfProducer? ==> s.IsProducer(s.rwmutex.j))
  }

  /** Worker `w` has job `k` in its hands. */
  predicate Has(w: Worker, k: nat) { (w.Pulled? && w.job == Some(k)) || (w.Running? && w.k == k) }

  predicate Holds(ws: seq<Worker>, i: nat, k: nat) { i < |ws| && Has(ws[i], k) }

  /** Every job that was pulled is finished or in the hands of exactly one worker; no other job is. */
  ghost predicate JobsOnce(ws: seq<Worker>, taken: nat, finished: set<nat>) {
    && (forall k <- finished :: k < taken)
    && (forall k: nat :: k < taken && k !in finished ==> exists i: nat :: Holds(ws, i, k))
    && (forall i: nat, k: nat :: Holds(ws, i, k) ==> k < taken && k !in finished)
    && (forall i: nat, j: nat, k: nat :: Holds(ws, i, k) && Holds(ws, j, k) ==> i == j)
  }

  /** A worker that will look at the queue before it waits again, or a post that is about to happen. */
  predicate WillLook(w: Worker) { w.Awake? || w.Counted? || (w.Pulled? && w.post) }

  ghost predicate WakeupPending(s: Pool) {
    || s.semaphore
    || (exists i :: 0 <= i < |s.workers| && WillLook(s.workers[i]))
    || (exists j :: 0 <= j < |s.producers| && s.producers[j].Pushed?)
  }

  ghost predicate WaitRight(s: Pool) {
    match s.waiter
    case Outside => true
    case Locked(m) => m <= s.pushed
    case Asleep(m) => m <= s.pushed
    case SawEmpty(m) => m <= s.taken
    case Returned(m) => forall k: nat :: k < m ==> k in s.finished
  }

  ghost predicate Inv(s: Pool, maxQueue: int) {
    && LockHeld(s)
    && s.taken <= s.pushed && JobsOnce(s.workers, s.taken, s.finished)
    && (s.Len() > 0 ==> WakeupPending(s))
    && s.working == CountWorking(s.workers)
    && WaitRight(s)
    && s.Len() + CountReady(s.producers) <= maxQueue + |s.producers|
  }

  lemma StepLock(s: Pool, maxQueue: int, ev: Event)
    requires Enabled(s, maxQueue, ev) && LockHeld(s)
    ensures LockHeld(Next(s, maxQueue, ev))
  {
  }

  lemma StepCount(s: Pool, maxQueue: int, ev: Event)
    requires Enabled(s, maxQueue, ev) && s.working == CountWorking(s.workers)
    ensures Next(s, maxQueue, ev).working == CountWorking(Next(s, maxQueue, ev).workers)
  {
    hide CountWorking;
    match ev
    case TakeSemaphore(i) => WorkingUpdate(s.workers, i, Awake);
    case CountUp(i) => WorkingUpdate(s.workers, i, Counted);
    case Pull(i) => WorkingUpdate(s.workers, i, Next(s, maxQueue, ev).workers[i]);
    case PostMore(i) => WorkingUpdate(s.workers, i, Next(s, maxQueue, ev).workers[i]);
    case LeavePull(i) => WorkingUpdate(s.workers, i, Next(s, maxQueue, ev).workers[i]);
    case Finish(i) => WorkingUpdate(s.workers, i, Finishing);
    case CountDown(i) => WorkingUpdate(s.workers, i, AtWait);
    case _ =>
  }

  lemma StepBound(s: Pool, maxQueue: int, ev: Event)
    requires Enabled(s, maxQueue, ev) && s.Len() + CountReady(s.producers) <= maxQueue + |s.producers|
    ensures var s' := Next(s, maxQueue, ev); s'.Len() + CountReady(s'.producers) <= maxQueue + |s'.producers|
  {
    hide CountReady;
    match ev
    case WaitMax(j) =>
      ReadyUpdate(s.producers, j, Ready);
      ReadyAtMost(s.producers[j := Ready]);
    case Push(j) => ReadyUpdate(s.producers, j, Pushed);
    case PostPush(j) => ReadyUpdate(s.producers, j, Posted);
    case LeavePush(j) => ReadyUpdate(s.producers, j, Idle);
    case _ =>
  }

  lemma StepWake(s: Pool, maxQueue: int, ev: Event)
    requires Enabled(s, maxQueue, ev) && (s.Len() > 0 ==> WakeupPending(s))
    ensures var s' := Next(s, maxQueue, ev); s'.Len() > 0 ==> WakeupPending(s')
  {
    var s' := Next(s, maxQueue, ev);
    match ev
    case TakeSemaphore(i) => assert WillLook(s'.workers[i]);
    case CountUp(i) => assert WillLook(s'.workers[i]);
    case Pull(i) => assert s'.Len() > 0 ==> WillLook(s'.workers[i]);
    case PostMore(i) => assert s'.semaphore;
    case Push(j) => assert s'.producers[j].Pushed?;
    case PostPush(j) => assert s'.semaphore;
    case LeavePull(i) => if s.Len() > 0 { OthersPend(s, s', i); }
    case Finish(i) => if s.Len() > 0 { OthersPend(s, s', i); }
    case CountDown(i) => if s.Len() > 0 { OthersPend(s, s', i); }
    case WaitMax(j) => if s.Len() > 0 { OthersPendProducer(s, s', j); }
    case LeavePush(j) => if s.Len() > 0 { OthersPendProducer(s, s', j); }
    case _ =>
  }

  /** A thread on which nothing depended makes a step. */
  lemma OthersPend(s: Pool, s': Pool, i: nat)
    requires s.IsWorker(i) && !WillLook(s.workers[i]) && WakeupPending(s)
    requires s'.semaphore == s.semaphore && s'.producers == s.producers
    requires |s'.workers| == |s.workers| && s'.workers == s.workers[i := s'.workers[i]]
    ensures WakeupPending(s')
  {
    if !s.semaphore && exists j :: 0 <= j < |s.workers| && WillLook(s.workers[j]) {
      var j :| 0 <= j < |s.workers| && WillLook(s.workers[j]);
      assert s'.workers[j] == s.workers[j];
    }
  }

  lemma OthersPendProducer(s: Pool, s': Pool, j: nat)
    requires s.IsProducer(j) && !s.producers[j].Pushed? && WakeupPending(s)
    requires s'.semaphore == s.semaphore && s'.workers == s.workers
    requires |s'.producers| == |s.producers| && s'.producers == s.producers[j := s'.producers[j]]
    ensures WakeupPending(s')
  {
    if !s.semaphore && exists i :: 0 <= i < |s.producers| && s.producers[i].Pushed? {
      var i :| 0 <= i < |s.producers| && s.producers[i].Pushed?;
      assert s'.producers[i] == s.producers[i];
    }
  }

  lemma StepJobs(s: Pool, maxQueue: int, ev: Event)
    requires Enabled(s, maxQueue, ev) && s.taken <= s.pushed && JobsOnce(s.workers, s.taken, s.finished)
    ensures var s' := Next(s, maxQueue, ev); s'.taken <= s'.pushed && JobsOnce(s'.workers, s'.taken, s'.finished)
  {
    hide JobsOnce;
    var s' := Next(s, maxQueue, ev);
    match ev
    case Pull(i) =>
      if s.Len() > 0 { JobTaken(s.workers, s.taken, s.finished, i, s'.workers[i]); }
      else { HandsSame(s.workers, s.taken, s.finished, i, s'.workers[i]); }
    case Finish(i) => JobDone(s.workers, s.taken, s.finished, i);
    case TakeSemaphore(i) => HandsSame(s.workers, s.taken, s.finished, i, s'.workers[i]);
    case CountUp(i) => HandsSame(s.workers, s.taken, s.finished, i, s'.workers[i]);
    case PostMore(i) => HandsSame(s.workers, s.taken, s.finished, i, s'.workers[i]);
    case LeavePull(i) => HandsSame(s.workers, s.taken, s.finished, i, s'.workers[i]);
    case CountDown(i) => HandsSame(s.workers, s.taken, s.finished, i, s'.workers[i]);
    case _ =>
  }

  lemma HandsSame(ws: seq<Worker>, taken: nat, finished: set<nat>, i: nat, w: Worker)
    requires JobsOnce(ws, taken, finished) && i < |ws| && forall k: nat :: Has(w, k) <==> Has(ws[i], k)
    ensures JobsOnce(ws[i := w], taken, finished)
  {
    var ws' := ws[i := w];
    forall j: nat, k: nat ensures Holds(ws', j, k) <==> Holds(ws, j, k) {
    }
  }

  lemma JobTaken(ws: seq<Worker>, taken: nat, finished: set<nat>, i: nat, w: Worker)
    requires JobsOnce(ws, taken, finished) && i < |ws| && ws[i].Counted? && w.Pulled? && w.job == Some(taken)
    ensures JobsOnce(ws[i := w], taken + 1, finished)
  {
    var ws' := ws[i := w];
    assert Holds(ws', i, taken);
    forall j: nat, k: nat ensures Holds(ws', j, k) <==> Holds(ws, j, k) || (j == i && k == taken) {
    }
  }

  lemma JobDone(ws: seq<Worker>, taken: nat, finished: set<nat>, i: nat)
    requires JobsOnce(ws, taken, finished) && i < |ws| && ws[i].Running?
    ensures JobsOnce(ws[i := Finishing], taken, finished + {ws[i].k})
  {
    var ws' := ws[i := Finishing];
    assert Holds(ws, i, ws[i].k);
    forall j: nat, k: nat ensures Holds(ws', j, k) <==> Holds(ws, j, k) && j != i {
    }
  }

  /** When nobody is counted as working, every job that was pulled is finished. */
  lemma IdleMeansFinished(s: Pool)
    requires JobsOnce(s.workers, s.taken, s.finished) && s.working == CountWorking(s.workers) == 0
    ensures forall k: nat :: k < s.taken ==> k in s.finished
  {
    forall k: nat | k < s.taken ensures k in s.finished {
      if k !in s.finished {
        var i: nat :| Holds(s.workers, i, k);
        WorkingPositive(s.workers, i);
      }
    }
  }

  lemma StepWait(s: Pool, maxQueue: int, ev: Event)
    requires Enabled(s, maxQueue, ev) && s.taken <= s.pushed && JobsOnce(s.workers, s.taken, s.finished)
    requires WaitRight(s) && s.working == CountWorking(s.workers)
    ensures WaitRight(Next(s, maxQueue, ev))
  {
    hide JobsOnce, CountWorking;
    match ev
    case ReadWorking => if s.working == 0 { IdleMeansFinished(s); }
    case _ =>
  }

  lemma StepInv(s: Pool, maxQueue: int, ev: Event)
    requires Enabled(s, maxQueue, ev) && Inv(s, maxQueue)
    ensures Inv(Next(s, maxQueue, ev), maxQueue)
  {
    hide LockHeld, JobsOnce, WakeupPending, WaitRight, CountWorking, CountReady, Next, Enabled, Pool.Len;
    StepLock(s, maxQueue, ev);
    StepJobs(s, maxQueue, ev);
    StepWake(s, maxQueue, ev);
    StepCount(s, maxQueue, ev);
    StepWait(s, maxQueue, ev);
    StepBound(s, maxQueue, ev);
  }

  /** The state after a run of events, in whatever order the threads make them. */
  ghost predicate Reachable(w: nat, p: nat, maxQueue: int, s: Pool, events: seq<Event>)
    decreases |events|
  {
    if events == [] then s == Start(w, p)
    else
      var last := |events| - 1;
      exists s0 :: Reachable(w, p, maxQueue, s0, events[..last]) && Enabled(s0, maxQueue, events[last])
                && s == Next(s0, maxQueue, events[last])
  }

  lemma StartInv(w: nat, p: nat, maxQueue: nat)
    ensures Inv(Start(w, p), maxQueue) && |Start(w, p).workers| == w && |Start(w, p).producers| == p
  {
    NobodyWorks(w);
    ReadyAtMost(seq(p, _ => Idle));
  }

  lemma {:induction false} NobodyWorks(w: nat)
    ensures CountWorking(seq(w, _ => AtWait)) == 0
  {
    if w > 0 {
      var ws: seq<Worker> := seq(w, _ => AtWait);
      assert ws[1..] == seq(w - 1, _ => AtWait);
      NobodyWorks(w - 1);
    }
  }

  lemma SameThreads(s: Pool, maxQueue: int, ev: Event)
    requires Enabled(s, maxQueue, ev)
    ensures |Next(s, maxQueue, ev).workers| == |s.workers| && |Next(s, maxQueue, ev).producers| == |s.producers|
  {
  }

  lemma {:induction false} ReachableInv(w: nat, p: nat, maxQueue: nat, s: Pool, events: seq<Event>)
    requires Reachable(w, p, maxQueue, s, events)
    ensures Inv(s, maxQueue) && |s.workers| == w && |s.producers| == p
    decreases |events|
  {
    hide Inv, Next, Enabled, Start;
    if events == [] {
      StartInv(w, p, maxQueue);
    } else {
      var last := |events| - 1;
      var s0 :| Reachable(w, p, maxQueue, s0, events[..last]) && Enabled(s0, maxQueue, events[last])
             && s == Next(s0, maxQueue, events[last]);
      ReachableInv(w, p, maxQueue, s0, events[..last]);
      StepInv(s0, maxQueue, events[last]);
      SameThreads(s0, maxQueue, events[last]);
    }
  }

  // What is true in every run

  /** No lost wakeup: while nobody is inside the queue lock, a waiting job means that the semaphore
      is set or a worker is on its way to the queue. */
  lemma NoLostWakeup(w: nat, p: nat, maxQueue: nat, s: Pool, events: seq<Event>)
    requires Reachable(w, p, maxQueue, s, events) && s.rwmutex.Free? && s.Len() > 0
    ensures s.semaphore || exists worker <- s.workers :: worker.Awake? || worker.Counted?
  {
    ReachableInv(w, p, maxQueue, s, events);
    hide Reachable, JobsOnce, CountWorking, CountReady, WaitRight;
    if !s.semaphore {
      var i :| 0 <= i < |s.workers| && WillLook(s.workers[i]);
      assert s.workers[i] in s.workers;
    }
  }

  /** Each pushed job is queued, in the hands of exactly one worker, or finished; the queue holds the
      newest jobs, so that jobs are pulled in the order in which they were pushed. */
  lemma ExactlyOnce(w: nat, p: nat, maxQueue: nat, s: Pool, events: seq<Event>, k: nat)
    requires Reachable(w, p, maxQueue, s, events) && k < s.pushed
    ensures if s.taken <= k then k !in s.finished && forall i: nat :: !Holds(s.workers, i, k)
            else if k in s.finished then forall i: nat :: !Holds(s.workers, i, k)
            else exists i: nat :: Holds(s.workers, i, k) && forall j: nat :: Holds(s.workers, j, k) ==> j == i
  {
    ReachableInv(w, p, maxQueue, s, events);
    hide Reachable, Holds, LockHeld, WakeupPending, CountWorking, CountReady, WaitRight;
  }

  /** When thpool_wait returns, every job pushed before the call is finished. */
  lemma WaitIsSound(w: nat, p: nat, maxQueue: nat, s: Pool, events: seq<Event>, k: nat)
    requires Reachable(w, p, maxQueue, s, events) && s.waiter.Returned? && k < s.waiter.m
    ensures k in s.finished
  {
    ReachableInv(w, p, maxQueue, s, events);
  }

  /** Producers that call thpool_wait_max before each push keep the queue within the limit, one job
      more for each of them. */
  lemma QueueBounded(w: nat, p: nat, maxQueue: nat, s: Pool, events: seq<Event>)
    requires Reachable(w, p, maxQueue, s, events)
    ensures s.Len() <= maxQueue + p
  {
    ReachableInv(w, p, maxQueue, s, events);
  }
}
