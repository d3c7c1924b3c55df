// The order in which jobs leave the queue of a thread pool, told from the steps of a run alone.

module ThreadPoolOrders {
  import opened Options
  import opened ThreadPools

  /** The job that a step appends, which its client counted before */
  function AppendedIn(s: Pool, step: Step): seq<Job>
    requires Enabled(s, step)
  {
    if step.Append? then [s.clients[step.c].job] else []
  }

  /** The job that a worker holds after a step in which it looked for one */
  function TakenIn(s: Pool, step: Step): seq<Job>
    requires Enabled(s, step)
  {
    if step.Poll? && Next(s, step).workers[step.w].HasJob? then [Next(s, step).workers[step.w].job] else []
  }

  predicate Runs(start: Pool, steps: seq<Step>)
  {
    Run(start, steps).Some?
  }

  lemma LastStep(start: Pool, steps: seq<Step>)
    requires Runs(start, steps) && steps != []
    ensures var n := |steps| - 1;
            && Runs(start, steps[..n]) && Enabled(Run(start, steps[..n]).value, steps[n])
            && Run(start, steps).value == Next(Run(start, steps[..n]).value, steps[n])
  {
  }

  /** The jobs that clients appended, in the order of these steps */
  function AppendedBy(start: Pool, steps: seq<Step>): seq<Job>
    requires Runs(start, steps)
  {
    if steps == [] then []
    else
      LastStep(start, steps);
      var n := |steps| - 1;
      AppendedBy(start, steps[..n]) + AppendedIn(Run(start, steps[..n]).value, steps[n])
  }

  /** The jobs that workers took, in the order of these steps */
  function TakenBy(start: Pool, steps: seq<Step>): seq<Job>
    requires Runs(start, steps)
  {
    if steps == [] then []
    else
      LastStep(start, steps);
      var n := |steps| - 1;
      TakenBy(start, steps[..n]) + TakenIn(Run(start, steps[..n]).value, steps[n])
  }

  /** One step: what was to leave the queue, with what it appends, is what it takes and what is to leave then. */
  lemma QueueNext(s: Pool, step: Step)
    requires Enabled(s, step)
    ensures s.queue + AppendedIn(s, step) == TakenIn(s, step) + Next(s, step).queue
  {
  }

  lemma Shifted(appended: seq<Job>, taken: seq<Job>, queue: seq<Job>, more: seq<Job>, first: seq<Job>, rest: seq<Job>)
    requires appended == taken + queue && queue + more == first + rest
    ensures appended + more == (taken + first) + rest
  {
    assert appended + more == taken + (queue + more);
  }

  /** Main result: over every run jobs leave the queue in the order in which they were appended. */
  lemma {:induction false} FirstInFirstOut(size: nat, clients: nat, steps: seq<Step>)
    requires Runs(Init(size, clients), steps)
    ensures var start := Init(size, clients);
            AppendedBy(start, steps) == TakenBy(start, steps) + Run(start, steps).value.queue
    decreases |steps|
  {
    hide Next, Enabled, AppendedIn, TakenIn, Run;
    var start := Init(size, clients);
    if steps == [] {
      assert Run(start, steps) == Some(start) by { NoStep(start); }
    } else {
      var n := |steps| - 1;
      LastStep(start, steps);
      FirstInFirstOut(size, clients, steps[..n]);
      var s := Run(start, steps[..n]).value;
      QueueNext(s, steps[n]);
      Shifted(AppendedBy(start, steps[..n]), TakenBy(start, steps[..n]), s.queue, AppendedIn(s, steps[n]),
              TakenIn(s, steps[n]), Next(s, steps[n]).queue);
    }
  }

  lemma NoStep(start: Pool)
    ensures Run(start, []) == Some(start)
  {
  }

  // One worker

  /** What one worker took is what it started, and what it still holds or dropped when told to terminate. */
  ghost predicate Worked(s: Pool, taken: seq<Job>)
  {
    && |s.workers| == 1
    && match s.workers[0]
       case HasJob(j) => taken == s.starts + [j]
       case Exited => s.starts <= taken
       case _ => taken == s.starts
  }

  lemma WorkedNext(s: Pool, step: Step, taken: seq<Job>)
    requires Enabled(s, step) && Worked(s, taken)
    ensures Worked(Next(s, step), taken + TakenIn(s, step))
  {
  }

  lemma {:induction false} WorkedAlways(clients: nat, steps: seq<Step>)
    requires Runs(Init(1, clients), steps)
    ensures Worked(Run(Init(1, clients), steps).value, TakenBy(Init(1, clients), steps))
    decreases |steps|
  {
    hide Next, Enabled, TakenIn, Run, Worked;
    var start := Init(1, clients);
    if steps == [] {
      NoStep(start);
      assert Worked(start, []) by { AtFirst(clients); }
    } else {
      var n := |steps| - 1;
      LastStep(start, steps);
      WorkedAlways(clients, steps[..n]);
      WorkedNext(Run(start, steps[..n]).value, steps[n], TakenBy(start, steps[..n]));
    }
  }

  lemma AtFirst(clients: nat)
    ensures Worked(Init(1, clients), [])
  {
  }

  /** With one worker, jobs start in the order in which they were appended. */
  lemma StartsInOrder(clients: nat, steps: seq<Step>)
    requires Runs(Init(1, clients), steps)
    ensures Run(Init(1, clients), steps).value.starts <= AppendedBy(Init(1, clients), steps)
  {
    hide Run, AppendedBy, TakenBy;
    FirstInFirstOut(1, clients, steps);
    WorkedAlways(clients, steps);
  }

  // One client

  function Upto(n: nat): (jobs: seq<Job>)
    ensures |jobs| == n && forall i :: 0 <= i < n ==> jobs[i] == i
  {
    if n == 0 then [] else Upto(n - 1) + [n - 1]
  }

  /** What one client appended is what it counted, but for the job that it counted and has still to append. */
  ghost predicate Counts(s: Pool, appended: seq<Job>)
  {
    && |s.clients| == 1
    && if s.clients[0].Adding? then s.clients[0].job + 1 == s.count && appended == Upto(s.count - 1)
       else appended == Upto(s.count)
  }

  lemma CountsNext(s: Pool, step: Step, appended: seq<Job>)
    requires Enabled(s, step) && Counts(s, appended)
    ensures Counts(Next(s, step), appended + AppendedIn(s, step))
  {
  }

  lemma {:induction false} CountsAlways(size: nat, steps: seq<Step>)
    requires Runs(Init(size, 1), steps)
    ensures Counts(Run(Init(size, 1), steps).value, AppendedBy(Init(size, 1), steps))
    decreases |steps|
  {
    hide Next, Enabled, AppendedIn, Run, Counts;
    var start := Init(size, 1);
    if steps == [] {
      NoStep(start);
      assert Counts(start, []) by { NoneCounted(size); }
    } else {
      var n := |steps| - 1;
      LastStep(start, steps);
      CountsAlways(size, steps[..n]);
      CountsNext(Run(start, steps[..n]).value, steps[n], AppendedBy(start, steps[..n]));
    }
  }

  lemma NoneCounted(size: nat)
    ensures Counts(Init(size, 1), [])
  {
  }

  /** With one client and one worker, jobs start in the order in which they are dispatched: 0, 1, 2 and so on. */
  lemma OneByOne(steps: seq<Step>)
    requires Runs(Init(1, 1), steps)
    ensures var s := Run(Init(1, 1), steps).value; s.starts == Upto(|s.starts|) && |s.starts| <= s.count
  {
    hide Run, AppendedBy;
    StartsInOrder(1, steps);
    CountsAlways(1, steps);
  }
}
