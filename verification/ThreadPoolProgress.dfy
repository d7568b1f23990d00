/** The thread pool gets its work done: whatever the order of the threads, if no more jobs are pushed every
    job is finished after a bounded number of steps, and until then some thread can make one. */
module ThreadPoolProgress {
  import opened ThreadPool

  /** The events that are neither new jobs nor new calls of thpool_wait. */
  predicate Winding(ev: Event) { !ev.WaitMax? && !ev.Push? && !ev.WaitEnter? && !ev.WaitWake? }

  // Every such event brings the end nearer

  function WorkerWeight(w: Worker): nat {
    match w
    case AtWait => 0
    case Awake => 7
    case Counted => 6
    case Pulled(_, post) => if post then 14 else 5
    case Running(_) => 3
    case Finishing => 2
  }

  function ProducerWeight(p: Producer): nat {
    match p
    case Pushed => 10
    case Posted => 1
    case _ => 0
  }

  function WaiterWeight(w: Waiter): nat {
    match w
    case Locked(_) => 2
    case SawEmpty(_) => 1
    case _ => 0
  }

  function Workers(ws: seq<Worker>): nat { if ws == [] then 0 else WorkerWeight(ws[0]) + Workers(ws[1..]) }

  function Producers(ps: seq<Producer>): nat { if ps == [] then 0 else ProducerWeight(ps[0]) + Producers(ps[1..]) }

  /** How many steps there can still be. */
  function Potential(s: Pool): nat
    requires s.taken <= s.pushed
  {
    20 * (s.pushed - s.taken) + Workers(s.workers) + Producers(s.producers) + WaiterWeight(s.waiter)
    + if s.semaphore then 8 else 0
  }

  lemma {:induction false} WorkersUpdate(ws: seq<Worker>, i: nat, w: Worker)
    requires i < |ws|
    ensures Workers(ws[i := w]) == Workers(ws) + WorkerWeight(w) - WorkerWeight(ws[i])
  {
    hide WorkerWeight;
    if i > 0 {
      assert ws[i := w][1..] == ws[1..][i - 1 := w];
      WorkersUpdate(ws[1..], i - 1, w);
    }
  }

  lemma {:induction false} ProducersUpdate(ps: seq<Producer>, j: nat, p: Producer)
    requires j < |ps|
    ensures Producers(ps[j := p]) == Producers(ps) + ProducerWeight(p) - ProducerWeight(ps[j])
  {
    hide ProducerWeight;
    if j > 0 {
      assert ps[j := p][1..] == ps[1..][j - 1 := p];
      ProducersUpdate(ps[1..], j - 1, p);
    }
  }

  lemma StepDown(s: Pool, maxQueue: int, ev: Event)
    requires Enabled(s, maxQueue, ev) && Winding(ev) && s.taken <= s.pushed
    ensures var t := Next(s, maxQueue, ev);
            t.taken <= t.pushed == s.pushed && |t.workers| == |s.workers| && Potential(t) < Potential(s)
  {
    hide Workers, Producers;
    var t := Next(s, maxQueue, ev);
    match ev
    case TakeSemaphore(i) => WorkersUpdate(s.workers, i, t.workers[i]);
    case CountUp(i) => WorkersUpdate(s.workers, i, t.workers[i]);
    case Pull(i) => WorkersUpdate(s.workers, i, t.workers[i]);
    case PostMore(i) => WorkersUpdate(s.workers, i, t.workers[i]);
    case LeavePull(i) => WorkersUpdate(s.workers, i, t.workers[i]);
    case Finish(i) => WorkersUpdate(s.workers, i, t.workers[i]);
    case CountDown(i) => WorkersUpdate(s.workers, i, t.workers[i]);
    case PostPush(j) => ProducersUpdate(s.producers, j, t.producers[j]);
    case LeavePush(j) => ProducersUpdate(s.producers, j, t.producers[j]);
    case ReadLen =>
    case ReadWorking =>
  }

  // Until the end there is something to do

  ghost predicate AllFinished(s: Pool) { s.taken == s.pushed && forall k: nat :: k < s.pushed ==> k in s.finished }

  /** The step of the thread that holds the queue lock. */
  lemma InsideLock(s: Pool, maxQueue: int) returns (ev: Event)
    requires LockHeld(s) && !s.rwmutex.Free?
    ensures Winding(ev) && Enabled(s, maxQueue, ev)
  {
    match s.rwmutex
    case OfWorker(i) => ev := if s.workers[i].post then PostMore(i) else LeavePull(i);
    case OfProducer(j) => ev := if s.producers[j].Pushed? then PostPush(j) else LeavePush(j);
  }

  /** The step of a worker that is not waiting. */
  lemma BusyWorker(s: Pool, maxQueue: int, i: nat) returns (ev: Event)
    requires LockHeld(s) && s.rwmutex.Free? && s.CountLockFree() && s.IsWorker(i) && !s.workers[i].AtWait?
    ensures Winding(ev) && Enabled(s, maxQueue, ev)
  {
    match s.workers[i]
    case Awake => ev := CountUp(i);
    case Counted => ev := Pull(i);
    case Running(_) => ev := Finish(i);
    case Finishing => ev := CountDown(i);
  }

  lemma {:induction false} AllWaiting(ws: seq<Worker>)
    requires forall i :: 0 <= i < |ws| ==> ws[i].AtWait?
    ensures CountWorking(ws) == 0
  {
    if ws != [] { AllWaiting(ws[1..]); }
  }

  /** No deadlock: while a job is not finished, some thread can make a step. */
  lemma SomethingToDo(s: Pool, maxQueue: int) returns (ev: Event)
    requires Inv(s, maxQueue) && s.workers != [] && !AllFinished(s)
    ensures Winding(ev) && Enabled(s, maxQueue, ev)
  {
    hide JobsOnce, CountReady, WaitRight, CountWorking;
    if s.waiter.Locked? {
      ev := ReadLen;
    } else if s.waiter.SawEmpty? {
      ev := ReadWorking;
    } else if !s.rwmutex.Free? {
      ev := InsideLock(s, maxQueue);
    } else if i :| 0 <= i < |s.workers| && !s.workers[i].AtWait? {
      ev := BusyWorker(s, maxQueue, i);
    } else {
      AllWaiting(s.workers);
      IdleMeansFinished(s);
      assert s.Len() > 0;
      ev := TakeSemaphore(0);
    }
  }

  // Runs without new jobs

  ghost predicate Leads(s: Pool, maxQueue: int, events: seq<Event>, t: Pool)
    decreases |events|
  {
    if events == [] then s == t
    else
      && Enabled(s, maxQueue, events[0]) && Winding(events[0])
      && Leads(Next(s, maxQueue, events[0]), maxQueue, events[1..], t)
  }

  /** Such runs have a bounded length, and one that cannot go on has finished every job. */
  lemma {:induction false} EveryRunFinishes(s: Pool, maxQueue: int, events: seq<Event>, t: Pool)
    requires Inv(s, maxQueue) && s.workers != [] && Leads(s, maxQueue, events, t)
    ensures Inv(t, maxQueue) && t.pushed == s.pushed && |events| <= Potential(s)
    ensures (exists ev :: Winding(ev) && Enabled(t, maxQueue, ev)) || AllFinished(t)
    decreases |events|
  {
    hide Next, Enabled, LockHeld, JobsOnce, WakeupPending, CountWorking, CountReady, WaitRight, Potential, Winding;
    if events == [] {
      if !AllFinished(t) { var ev := SomethingToDo(t, maxQueue); }
    } else {
      StepInv(s, maxQueue, events[0]);
      StepDown(s, maxQueue, events[0]);
      EveryRunFinishes(Next(s, maxQueue, events[0]), maxQueue, events[1..], t);
    }
  }

  /** And there is one: all jobs pushed so far can be finished from any state a run has led to. */
  lemma {:induction false} WindsDown(s: Pool, maxQueue: int) returns (events: seq<Event>, t: Pool)
    requires Inv(s, maxQueue) && s.workers != []
    ensures Leads(s, maxQueue, events, t) && t.pushed == s.pushed && AllFinished(t)
    decreases Potential(s)
  {
    hide Next, Enabled, LockHeld, JobsOnce, WakeupPending, CountWorking, CountReady, WaitRight, Potential, Winding;
    if AllFinished(s) {
      events, t := [], s;
    } else {
      var ev := SomethingToDo(s, maxQueue);
      StepInv(s, maxQueue, ev);
      StepDown(s, maxQueue, ev);
      var rest;
      rest, t := WindsDown(Next(s, maxQueue, ev), maxQueue);
      events := [ev] + rest;
      assert events[1..] == rest;
    }
  }

  /** In any run of the pool, a job that has been pushed can be brought to its end without further pushes. */
  lemma PushedJobsAreDone(w: nat, p: nat, maxQueue: nat, s: Pool, events: seq<Event>)
    returns (rest: seq<Event>, t: Pool)
    requires w > 0 && Reachable(w, p, maxQueue, s, events)
    ensures Leads(s, maxQueue, rest, t) && forall k: nat :: k < s.pushed ==> k in t.finished
  {
    hide Reachable, Leads;
    ReachableInv(w, p, maxQueue, s, events);
    hide Inv;
    rest, t := WindsDown(s, maxQueue);
  }

  /** A producer whose turn it is adds one job. */
  lemma PushAddsJob(s: Pool, maxQueue: int, j: nat)
    requires Inv(s, maxQueue) && Enabled(s, maxQueue, Push(j))
    ensures var t := Next(s, maxQueue, Push(j));
            t.pushed == s.pushed + 1 && t.taken == s.taken && t.finished == s.finished
  {
  }
}
