/** The background job queue of one type: producers and the worker, step by step between lock and unlock. */
module BackgroundJobs {
  /** Where the worker is: about to test the queue with the lock held or waiting for it, carrying out a job without
      the lock, or done with it and about to take the lock again. */
  datatype Worker<Job> = Looking | Working(job: Job) | Finished

  datatype State<Job> = State(
    jobs: seq<Job>,
    pending: nat,
    worker: Worker<Job>,
    ran: seq<Job>,
    submitted: seq<Job>)

  function Init<Job>(): State<Job> {
    State([], 0, Looking, [], [])
  }

  /** The atomic steps: everything a thread does in one critical section, or outside of all of them. */
  datatype Step<Job> = Create(job: Job) | Take | Perform | Delete

  /** bioCreateBackgroundJob. */
  function DoCreate<Job>(s: State<Job>, job: Job): State<Job> {
    s.(jobs := s.jobs + [job], pending := s.pending + 1, submitted := s.submitted + [job])
  }

  /** The worker looks at the queue; it goes on waiting while there is nothing there. */
  function DoTake<Job>(s: State<Job>): State<Job> {
    if s.worker.Looking? && s.jobs != [] then s.(worker := Working(s.jobs[0])) else s
  }

  /** The job itself, without the lock. */
  function DoPerform<Job>(s: State<Job>): State<Job> {
    if s.worker.Working? then s.(worker := Finished, ran := s.ran + [s.worker.job]) else s
  }

  /** The lock again: the job's node is deleted and the count goes down. */
  function DoDelete<Job>(s: State<Job>): State<Job> {
    if s.worker.Finished? && s.jobs != [] && s.pending > 0
    then s.(worker := Looking, jobs := s.jobs[1..], pending := s.pending - 1) else s
  }

  function Do<Job>(s: State<Job>, step: Step<Job>): State<Job> {
    match step
    case Create(job) => DoCreate(s, job)
    case Take => DoTake(s)
    case Perform => DoPerform(s)
    case Delete => DoDelete(s)
  }

  function Run<Job>(steps: seq<Step<Job>>): State<Job>
    decreases |steps|
  {
    if steps == [] then Init() else Do(Run(steps[..|steps| - 1]), steps[|steps| - 1])
  }

  /** The jobs that were created, in order. */
  function Created<Job>(steps: seq<Step<Job>>): seq<Job>
    decreases |steps|
  {
    if steps == [] then [] else
      var last := steps[|steps| - 1];
      Created(steps[..|steps| - 1]) + (if last.Create? then [last.job] else [])
  }

  /** The queue holds exactly the jobs not carried out yet, behind the one that is being deleted. */
  ghost predicate Inv<Job>(s: State<Job>) {
    && s.pending == |s.jobs|
    && (!s.worker.Looking? ==> s.jobs != [])
    && (s.worker.Working? ==> s.jobs[0] == s.worker.job)
    && s.submitted == s.ran + (if s.worker.Finished? then s.jobs[1..] else s.jobs)
  }

  lemma StepKeeps<Job>(s: State<Job>, step: Step<Job>)
    requires Inv(s)
    ensures Inv(Do(s, step))
  {
    match step
    case Create(job) =>
      if s.worker.Finished? {
        assert (s.jobs + [job])[1..] == s.jobs[1..] + [job];
      }
    case Take =>
    case Perform =>
      if s.worker.Working? {
        assert s.jobs == [s.jobs[0]] + s.jobs[1..];
      }
    case Delete =>
  }

  /** Whatever the interleaving: jobs run once and in the order they were created, the pending count is the length
      of the queue, and when it is zero every job that was created has run. */
  lemma {:induction false} JobsRunInOrder<Job>(steps: seq<Step<Job>>)
    ensures var s := Run(steps);
      && Inv(s) && s.submitted == Created(steps)
      && s.ran <= Created(steps)
      && s.pending == |s.jobs|
      && |Created(steps)| - |s.ran| <= s.pending <= |Created(steps)| - |s.ran| + 1
      && (s.pending == 0 ==> s.ran == Created(steps))
    decreases |steps|
  {
    if steps != [] {
      var init := steps[..|steps| - 1];
      JobsRunInOrder(init);
      StepKeeps(Run(init), steps[|steps| - 1]);
    }
  }

  /** Once the worker holds a job, its three steps carry it out and take it off the queue, whatever producers add
      in between. */
  lemma {:induction false} JobFinishes<Job>(s: State<Job>, a: seq<Job>, b: seq<Job>)
    requires Inv(s) && s.worker.Looking? && s.jobs != []
    ensures var s1 := CreateAll(DoTake(s), a);
      var s2 := CreateAll(DoPerform(s1), b);
      var s3 := DoDelete(s2);
      s3.ran == s.ran + [s.jobs[0]] && s3.jobs == s.jobs[1..] + a + b && s3.worker.Looking? && Inv(s3)
  {
    var s1 := CreateAll(DoTake(s), a);
    StepKeeps(s, Take);
    CreateAllIs(DoTake(s), a);
    StepKeeps(s1, Perform);
    CreateAllIs(DoPerform(s1), b);
    StepKeeps(CreateAll(DoPerform(s1), b), Delete);
    assert (s.jobs + a + b)[1..] == s.jobs[1..] + a + b;
  }

  function CreateAll<Job>(s: State<Job>, js: seq<Job>): State<Job>
    decreases |js|
  {
    if js == [] then s else CreateAll(DoCreate(s, js[0]), js[1..])
  }

  lemma {:induction false} CreateAllIs<Job>(s: State<Job>, js: seq<Job>)
    requires Inv(s)
    ensures var t := CreateAll(s, js);
      Inv(t) && t.jobs == s.jobs + js && t.worker == s.worker && t.ran == s.ran
    decreases |js|
  {
    if js == [] {
      assert s.jobs + js == s.jobs;
    } else {
      StepKeeps(s, Create(js[0]));
      CreateAllIs(DoCreate(s, js[0]), js[1..]);
      assert s.jobs + [js[0]] + js[1..] == s.jobs + js;
    }
  }
}
