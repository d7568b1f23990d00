/** The job queue of the thread pool: a linked list with a front and a rear, and the binary semaphore
    that says that there may be jobs. */
module JobQueue {

  class Job<T> {
    var prev: Job?<T>   // the job behind this one
    const work: T

    constructor (work: T)
      ensures this.work == work
    {
      this.work := work;
    }
  }

  class Queue<T> {
    var front: Job?<T>
    var rear: Job?<T>
    var len: nat
    var hasJobs: nat            // the binary semaphore
    ghost var jobs: seq<Job<T>>

    /** The jobs are linked from front to rear, and all different. */
    ghost predicate Valid()
      reads this, jobs
    {
      && len == |jobs| && hasJobs <= 1
      && (jobs == [] ==> front == null && rear == null)
      && (jobs != [] ==> front == jobs[0] && rear == jobs[|jobs| - 1])
      && (forall i :: 0 <= i < |jobs| - 1 ==> jobs[i].prev == jobs[i + 1])
      && (forall i, j :: 0 <= i < j < |jobs| ==> jobs[i] != jobs[j])
    }

    constructor ()
      ensures Valid() && jobs == [] && hasJobs == 0
    {
      front, rear, len, hasJobs, jobs := null, null, 0, 0, [];
    }

    /** jobqueue_push: the job goes to the rear and the semaphore is posted. */
    method Push(job: Job<T>)
      requires Valid() && job !in jobs
      modifies this, job, rear
      ensures Valid() && jobs == old(jobs) + [job] && hasJobs == 1
    {
      job.prev := null;
      if len == 0 {
        front := job;
        rear := job;
      } else {
        rear.prev := job;
        rear := job;
      }
      len := len + 1;
      jobs := jobs + [job];
      hasJobs := 1;
    }

    /** jobqueue_pull: the front job, if there is one; the semaphore is posted again when jobs are
        left over. */
    method Pull() returns (job: Job?<T>)
      requires Valid()
      modifies this
      ensures Valid()
      ensures old(jobs) == [] ==> job == null && jobs == []
      ensures old(jobs) != [] ==> job == old(jobs)[0] && jobs == old(jobs)[1..]
      ensures hasJobs == if |old(jobs)| > 1 then 1 else old(hasJobs)
    {
      job := front;
      if len == 0 {
      } else if len == 1 {
        front := null;
        rear := null;
        len := 0;
        jobs := [];
      } else {
        front := job.prev;
        len := len - 1;
        jobs := jobs[1..];
        hasJobs := 1;
      }
    }

    /** jobqueue_clear: everything is pulled and the semaphore reset. */
    method Clear()
      requires Valid()
      modifies this
      ensures Valid() && jobs == [] && hasJobs == 0
    {
      while len > 0
        invariant Valid()
        decreases len
      {
        var _ := Pull();
      }
      front := null;
      rear := null;
      hasJobs := 0;
      len := 0;
    }
  }
}
