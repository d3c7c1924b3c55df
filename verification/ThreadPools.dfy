// OFThreadPool of src/OFThreadPool.m as a state machine: every interleaving of its worker threads, of
// threads that dispatch jobs or wait, and of its release, with spurious wakeups. A step is what one
// thread does while it holds a lock, or one unlocked read of its flag.

module ThreadPools {
  import opened Options

  /** Jobs are numbered in the order in which they are counted. */
  type Job = nat

  datatype Worker =
    | Starting
    | AtTop              // before locking the queue, at the top of the loop or back from `wait`
    | Asleep             // in `[_queueCondition wait]`
    | HasJob(job: Job)   // took it from the queue
    | Running(job: Job)  // in `[job perform]`
    | Ran(job: Job)      // back from it
    | Counting(job: Job) // before locking the count
    | Exited

  datatype Client =
    | Idle
    | Adding(job: Job)     // counted its job, has not appended it yet
    | Checking(before: nat) // in `waitUntilDone`, called when `before` jobs had been dispatched
    | Sleeping(before: nat) // in `[_countCondition wait]`

  /** How far `dealloc` is. */
  datatype Stage = Live | QueueLocked | BothLocked(next: nat) | Flagged | Gone

  /** Where a job is. */
  datatype Place = Pending(client: nat) | Queued | With(worker: nat) | Done | Dropped | Uncounted

  datatype Pool = Pool(
    workers: seq<Worker>, terminate: seq<bool>, clients: seq<Client>, stage: Stage,
    queue: seq<Job>, count: nat, doneCount: nat,
    // history
    places: seq<Place>, starts: seq<Job>, finishes: seq<Job>)

  datatype Step =
    | Begin(w: nat)
    | Poll(w: nat)
    | Rouse(w: nat)
    | CheckHeld(w: nat)
    | Finish(w: nat)
    | CheckRan(w: nat)
    | CountDone(w: nat, woken: Option<nat>)
    | Dispatch(c: nat)
    | Append(c: nat, woken: Option<nat>)
    | CallWait(c: nat)
    | Check(c: nat)
    | RouseClient(c: nat)
    | LockQueue
    | LockCount
    | Flag
    | UnlockCount
    | Broadcast

  predicate QueueFree(s: Pool) { s.stage.Live? || s.stage.Gone? }

  predicate CountFree(s: Pool) { !s.stage.BothLocked? }

  predicate IsWorker(s: Pool, w: nat) { w < |s.workers| && w < |s.terminate| }

  /** `signal` wakes one thread that waits, if there is one. */
  predicate SignalsWorker(s: Pool, woken: Option<nat>)
  {
    match woken
    case Some(w) => w < |s.workers| && s.workers[w] == Asleep
    case None => Asleep !in s.workers
  }

  predicate SignalsClient(s: Pool, woken: Option<nat>)
  {
    match woken
    case Some(c) => c < |s.clients| && s.clients[c].Sleeping?
    case None => forall c :: 0 <= c < |s.clients| ==> !s.clients[c].Sleeping?
  }

  predicate Enabled(s: Pool, step: Step)
  {
    match step
    case Begin(w) => IsWorker(s, w) && s.workers[w] == Starting
    case Poll(w) => IsWorker(s, w) && s.workers[w] == AtTop && QueueFree(s)
    case Rouse(w) => IsWorker(s, w) && s.workers[w] == Asleep
    case CheckHeld(w) => IsWorker(s, w) && s.workers[w].HasJob?
    case Finish(w) => IsWorker(s, w) && s.workers[w].Running?
    case CheckRan(w) => IsWorker(s, w) && s.workers[w].Ran?
    case CountDone(w, woken) => IsWorker(s, w) && s.workers[w].Counting? && CountFree(s) && SignalsClient(s, woken)
    case Dispatch(c) => c < |s.clients| && s.clients[c] == Idle && s.stage.Live?
    case Append(c, woken) => c < |s.clients| && s.clients[c].Adding? && QueueFree(s) && SignalsWorker(s, woken)
    case CallWait(c) => c < |s.clients| && s.clients[c] == Idle && s.stage.Live?
    case Check(c) => c < |s.clients| && s.clients[c].Checking? && CountFree(s)
    case RouseClient(c) => c < |s.clients| && s.clients[c].Sleeping?
    // The pool is released when nobody uses it any more.
    case LockQueue => s.stage.Live? && forall c :: 0 <= c < |s.clients| ==> s.clients[c] == Idle
    case LockCount => s.stage.QueueLocked?
    case Flag => s.stage.BothLocked? && s.stage.next < |s.terminate|
    case UnlockCount => s.stage.BothLocked? && s.stage.next >= |s.terminate|
    case Broadcast => s.stage.Flagged?
  }

  function At(s: Pool, w: nat, worker: Worker): Pool
    requires w < |s.workers|
  {
    s.(workers := s.workers[w := worker])
  }

  function Put(s: Pool, j: Job, place: Place): Pool
  {
    if j < |s.places| then s.(places := s.places[j := place]) else s
  }

  function WokenWorker(s: Pool, woken: Option<nat>): Pool
    requires SignalsWorker(s, woken)
  {
    match woken
    case Some(w) => At(s, w, AtTop)
    case None => s
  }

  function WokenClient(s: Pool, woken: Option<nat>): Pool
    requires SignalsClient(s, woken)
  {
    match woken
    case Some(c) => s.(clients := s.clients[c := Checking(s.clients[c].before)])
    case None => s
  }

  function Next(s: Pool, step: Step): Pool
    requires Enabled(s, step)
  {
    match step
    case Begin(w) => At(s, w, if s.terminate[w] then Exited else AtTop)
    case Poll(w) =>
      if s.terminate[w] then At(s, w, Exited)
      else if s.queue == [] then At(s, w, Asleep)
      else Put(At(s, w, HasJob(s.queue[0])), s.queue[0], With(w)).(queue := s.queue[1..])
    case Rouse(w) => At(s, w, AtTop)
    case CheckHeld(w) =>
      var j := s.workers[w].job;
      if s.terminate[w] then Put(At(s, w, Exited), j, Dropped)
      else At(s, w, Running(j)).(starts := s.starts + [j])
    case Finish(w) => At(s, w, Ran(s.workers[w].job)).(finishes := s.finishes + [s.workers[w].job])
    case CheckRan(w) =>
      var j := s.workers[w].job;
      if s.terminate[w] then Put(At(s, w, Exited), j, Uncounted) else At(s, w, Counting(j))
    case CountDone(w, woken) =>
      var j := s.workers[w].job;
      if s.terminate[w] then Put(At(s, w, Exited), j, Uncounted)
      else Put(At(WokenClient(s, woken), w, AtTop), j, Done).(doneCount := s.doneCount + 1)
    case Dispatch(c) =>
      s.(clients := s.clients[c := Adding(s.count)], count := s.count + 1, places := s.places + [Pending(c)])
    case Append(c, woken) =>
      var j := s.clients[c].job;
      Put(WokenWorker(s, woken).(clients := s.clients[c := Idle], queue := s.queue + [j]), j, Queued)
    case CallWait(c) => s.(clients := s.clients[c := Checking(s.count)])
    case Check(c) =>
      s.(clients := s.clients[c := if s.doneCount == s.count then Idle else Sleeping(s.clients[c].before)])
    case RouseClient(c) => s.(clients := s.clients[c := Checking(s.clients[c].before)])
    case LockQueue => s.(stage := QueueLocked)
    case LockCount => s.(stage := BothLocked(0))
    case Flag => s.(terminate := s.terminate[s.stage.next := true], stage := BothLocked(s.stage.next + 1))
    case UnlockCount => s.(stage := Flagged)
    case Broadcast =>
      s.(workers := seq(|s.workers|, i requires 0 <= i < |s.workers| =>
           if s.workers[i] == Asleep then AtTop else s.workers[i]),
         stage := Gone)
  }

  function Init(size: nat, clients: nat): Pool
  {
    Pool(seq(size, _ => Starting), seq(size, _ => false), seq(clients, _ => Idle), Live, [], 0, 0, [], [], [])
  }

  /** The state after a run, if all of its steps could be taken. */
  function Run(s: Pool, steps: seq<Step>): Option<Pool>
  {
    if steps == [] then Some(s)
    else match Run(s, steps[..|steps| - 1])
      case None => None
      case Some(t) => if Enabled(t, steps[|steps| - 1]) then Some(Next(t, steps[|steps| - 1])) else None
  }

  // Every job is in one place

  function JobOf(worker: Worker): Option<Job>
  {
    if worker.HasJob? || worker.Running? || worker.Ran? || worker.Counting? then Some(worker.job) else None
  }

  ghost predicate Unrepeated(jobs: seq<Job>)
  {
    forall i, k :: 0 <= i < k < |jobs| ==> jobs[i] != jobs[k]
  }

  /** The job is where the history says, and there only. */
  ghost predicate Located(s: Pool)
  {
    && |s.places| == s.count
    && (forall c :: 0 <= c < |s.clients| && s.clients[c].Adding? ==>
          s.clients[c].job < s.count && s.places[s.clients[c].job] == Pending(c))
    && (forall i :: 0 <= i < |s.queue| ==> s.queue[i] < s.count && s.places[s.queue[i]] == Queued)
    && (forall w :: 0 <= w < |s.workers| && JobOf(s.workers[w]).Some? ==>
          JobOf(s.workers[w]).value < s.count && s.places[JobOf(s.workers[w]).value] == With(w))
    && (forall j :: 0 <= j < s.count ==> IsAt(s, j, s.places[j]))
    && Unrepeated(s.queue)
  }

  ghost predicate IsAt(s: Pool, j: Job, place: Place)
  {
    match place
    case Pending(c) => c < |s.clients| && s.clients[c] == Adding(j)
    case Queued => j in s.queue
    case With(w) => w < |s.workers| && JobOf(s.workers[w]) == Some(j)
    case Done => true
    case Dropped => true
    case Uncounted => true
  }

  // What every step keeps

  /** A worker neither locks the queue nor the count. */
  predicate Alone(step: Step)
  {
    step.Begin? || step.Rouse? || step.CheckHeld? || step.Finish? || step.CheckRan?
  }

  predicate ByClient(step: Step)
  {
    step.Dispatch? || step.Append? || step.CallWait? || step.Check? || step.RouseClient?
  }

  predicate ByRelease(step: Step)
  {
    step.LockQueue? || step.LockCount? || step.Flag? || step.UnlockCount? || step.Broadcast?
  }

  /** Nothing is where it was not. */
  lemma LocatedSame(s: Pool, t: Pool)
    requires Located(s) && t.places == s.places && t.count == s.count && t.queue == s.queue && t.clients == s.clients
    requires |t.workers| == |s.workers| && forall w :: 0 <= w < |s.workers| ==>
      JobOf(t.workers[w]) == JobOf(s.workers[w])
    ensures Located(t)
  {
    forall j | 0 <= j < t.count ensures IsAt(t, j, t.places[j]) { assert IsAt(s, j, s.places[j]); }
  }

  /** A worker leaves its job for good. */
  lemma LocatedWithout(s: Pool, w: nat, worker: Worker, place: Place)
    requires Located(s) && w < |s.workers| && JobOf(s.workers[w]).Some? && JobOf(worker).None?
    requires place.Done? || place.Dropped? || place.Uncounted?
    ensures Located(Put(At(s, w, worker), JobOf(s.workers[w]).value, place))
  {
    var t, k := Put(At(s, w, worker), JobOf(s.workers[w]).value, place), JobOf(s.workers[w]).value;
    forall j | 0 <= j < t.count ensures IsAt(t, j, t.places[j]) { assert IsAt(s, j, s.places[j]); }
    forall i | 0 <= i < |t.queue| ensures t.places[t.queue[i]] == Queued { assert t.queue[i] != k; }
  }

  lemma LocatedByWorker(s: Pool, step: Step)
    requires Located(s) && Enabled(s, step) && Alone(step)
    ensures Located(Next(s, step))
  {
    var w := step.w;
    hide Located;
    if (step.CheckHeld? || step.CheckRan?) && s.terminate[w] {
      LocatedWithout(s, w, Exited, if step.CheckHeld? then Dropped else Uncounted);
    } else {
      LocatedSame(s, Next(s, step));
    }
  }

  /** What looking into the queue changes */
  lemma PollIs(s: Pool, step: Step)
    requires Enabled(s, step) && step.Poll?
    ensures IsWorker(s, step.w) && s.workers[step.w] == AtTop && QueueFree(s)
    ensures var t, w := Next(s, step), step.w;
            && (s.terminate[w] ==> t == At(s, w, Exited))
            && (!s.terminate[w] && s.queue == [] ==> t == At(s, w, Asleep))
            && (!s.terminate[w] && s.queue != [] ==>
                  t == Put(At(s, w, HasJob(s.queue[0])), s.queue[0], With(w)).(queue := s.queue[1..]))
  {
  }

  /** The first job of the queue goes to a worker. */
  lemma TakesJob(s: Pool, w: nat)
    requires Located(s) && IsWorker(s, w) && s.workers[w] == AtTop && s.queue != []
    ensures Located(Put(At(s, w, HasJob(s.queue[0])), s.queue[0], With(w)).(queue := s.queue[1..]))
  {
    var k := s.queue[0];
    var t := Put(At(s, w, HasJob(k)), k, With(w)).(queue := s.queue[1..]);
    forall j | 0 <= j < t.count ensures IsAt(t, j, t.places[j]) {
      assert IsAt(s, j, s.places[j]);
      if s.places[j] == Queued && j != k { TakenOff(s.queue, j); }
    }
    forall i | 0 <= i < |t.queue| ensures t.places[t.queue[i]] == Queued { assert t.queue[i] == s.queue[i + 1] != k; }
  }

  lemma LocatedByPoll(s: Pool, step: Step)
    requires Located(s) && Enabled(s, step) && step.Poll?
    ensures Located(Next(s, step))
  {
    hide Enabled, Next, Located;
    PollIs(s, step);
    if s.terminate[step.w] || s.queue == [] {
      LocatedSame(s, Next(s, step));
    } else {
      TakesJob(s, step.w);
    }
  }

  lemma TakenOff(queue: seq<Job>, j: Job)
    requires j in queue && j != queue[0]
    ensures j in queue[1..]
  {
  }

  lemma LocatedByCount(s: Pool, step: Step)
    requires Located(s) && Enabled(s, step) && step.CountDone?
    ensures Located(Next(s, step))
  {
    var w, t := step.w, Next(s, step);
    if s.terminate[w] {
      LocatedWithout(s, w, Exited, Uncounted);
    } else {
      var u := Put(At(s, w, AtTop), s.workers[w].job, Done);
      LocatedWithout(s, w, AtTop, Done);
      forall j | 0 <= j < t.count ensures IsAt(t, j, t.places[j]) { assert IsAt(u, j, u.places[j]); }
    }
  }

  lemma LocatedByClient(s: Pool, step: Step)
    requires Located(s) && Enabled(s, step) && ByClient(step)
    ensures Located(Next(s, step))
  {
    hide Located, Enabled, Next;
    if step.Dispatch? { LocatedByDispatch(s, step); }
    else if step.Append? { LocatedByAppend(s, step); }
    else { LocatedByWaiter(s, step); }
  }

  lemma LocatedByDispatch(s: Pool, step: Step)
    requires Located(s) && Enabled(s, step) && step.Dispatch?
    ensures Located(Next(s, step))
  {
  }

  /** The job of a client that adds one goes to the end of the queue. */
  lemma JobArrives(s: Pool, c: nat)
    requires Located(s) && c < |s.clients| && s.clients[c].Adding?
    ensures var j := s.clients[c].job;
            Located(Put(s.(clients := s.clients[c := Idle], queue := s.queue + [j]), j, Queued))
  {
  }

  lemma LocatedByAppend(s: Pool, step: Step)
    requires Located(s) && Enabled(s, step) && step.Append?
    ensures Located(Next(s, step))
  {
    hide Located;
    var t := WokenWorker(s, step.woken);
    LocatedSame(s, t);
    JobArrives(t, step.c);
  }

  lemma LocatedByWaiter(s: Pool, step: Step)
    requires Located(s) && Enabled(s, step) && (step.CallWait? || step.Check? || step.RouseClient?)
    ensures Located(Next(s, step))
  {
  }

  lemma LocatedByRelease(s: Pool, step: Step)
    requires Located(s) && Enabled(s, step) && ByRelease(step)
    ensures Located(Next(s, step))
  {
  }

  lemma LocatedNext(s: Pool, step: Step)
    requires Located(s) && Enabled(s, step)
    ensures Located(Next(s, step))
  {
    hide Located, Logged, Counted, Flags, Ready, Enabled, Next;
    if step.Poll? { LocatedByPoll(s, step); }
    else if step.CountDone? { LocatedByCount(s, step); }
    else if ByClient(step) { LocatedByClient(s, step); }
    else if ByRelease(step) { LocatedByRelease(s, step); }
    else { LocatedByWorker(s, step); }
  }

  /** The job was started, by what is known of where it is. */
  predicate Started(s: Pool, j: Job)
  {
    j < |s.places| &&
    match s.places[j]
    case With(w) => w < |s.workers| && (s.workers[w].Running? || s.workers[w].Ran? || s.workers[w].Counting?)
    case Done => true
    case Uncounted => true
    case _ => false
  }

  predicate Finished(s: Pool, j: Job)
  {
    j < |s.places| &&
    match s.places[j]
    case With(w) => w < |s.workers| && (s.workers[w].Ran? || s.workers[w].Counting?)
    case Done => true
    case Uncounted => true
    case _ => false
  }

  /** A job starts at most once, finishes at most once, and finishes unless it is running. */
  ghost predicate Logged(s: Pool)
  {
    && Unrepeated(s.starts) && (forall j :: j in s.starts <==> Started(s, j))
    && Unrepeated(s.finishes) && (forall j :: j in s.finishes <==> Finished(s, j))
  }

  /** What no step but those of a worker with a job changes. */
  lemma SameLog(s: Pool, t: Pool)
    requires Logged(s) && t.starts == s.starts && t.finishes == s.finishes
    requires forall j: Job :: Started(t, j) <==> Started(s, j)
    requires forall j: Job :: Finished(t, j) <==> Finished(s, j)
    ensures Logged(t)
  {
  }

  lemma OneMore(jobs: seq<Job>, j: Job)
    requires Unrepeated(jobs) && j !in jobs
    ensures Unrepeated(jobs + [j]) && forall k :: k in jobs + [j] <==> k in jobs || k == j
  {
  }

  lemma LoggedByStart(s: Pool, step: Step)
    requires Located(s) && Logged(s) && Enabled(s, step) && step.CheckHeld?
    ensures Logged(Next(s, step))
  {
    var t, job := Next(s, step), s.workers[step.w].job;
    OneMore(s.starts, job);
    forall j: Job ensures (Started(t, j) <==> Started(s, j) || (j == job && t.starts != s.starts))
      && (Finished(t, j) <==> Finished(s, j)) { }
  }

  lemma LoggedByFinish(s: Pool, step: Step)
    requires Located(s) && Logged(s) && Enabled(s, step) && step.Finish?
    ensures Logged(Next(s, step))
  {
    var t, job := Next(s, step), s.workers[step.w].job;
    OneMore(s.finishes, job);
    forall j: Job ensures (Started(t, j) <==> Started(s, j)) && (Finished(t, j) <==> Finished(s, j) || j == job) { }
  }

  lemma LoggedByWorker(s: Pool, step: Step)
    requires Located(s) && Logged(s) && Enabled(s, step) && (step.Begin? || step.Rouse? || step.CheckRan?)
    ensures Logged(Next(s, step))
  {
    SameLog(s, Next(s, step));
  }

  lemma LoggedByPoll(s: Pool, step: Step)
    requires Located(s) && Logged(s) && Enabled(s, step) && step.Poll?
    ensures Logged(Next(s, step))
  {
    SameLog(s, Next(s, step));
  }

  lemma LoggedByCount(s: Pool, step: Step)
    requires Located(s) && Logged(s) && Enabled(s, step) && step.CountDone?
    ensures Logged(Next(s, step))
  {
    SameLog(s, Next(s, step));
  }

  lemma LoggedByClient(s: Pool, step: Step)
    requires Located(s) && Logged(s) && Enabled(s, step) && ByClient(step)
    ensures Logged(Next(s, step))
  {
    SameLog(s, Next(s, step));
  }

  lemma LoggedByRelease(s: Pool, step: Step)
    requires Located(s) && Logged(s) && Enabled(s, step) && ByRelease(step)
    ensures Logged(Next(s, step))
  {
    SameLog(s, Next(s, step));
  }

  lemma LoggedNext(s: Pool, step: Step)
    requires Located(s) && Logged(s) && Enabled(s, step)
    ensures Logged(Next(s, step))
  {
    hide Located, Logged, Counted, Flags, Ready, Enabled, Next;
    if step.Poll? { LoggedByPoll(s, step); }
    else if step.CountDone? { LoggedByCount(s, step); }
    else if ByClient(step) { LoggedByClient(s, step); }
    else if ByRelease(step) { LoggedByRelease(s, step); }
    else if step.CheckHeld? { LoggedByStart(s, step); }
    else if step.Finish? { LoggedByFinish(s, step); }
    else { LoggedByWorker(s, step); }
  }

  /** The counters tell how many jobs were dispatched and how many of them are done. */
  ghost predicate Counted(s: Pool)
  {
    s.count == |s.places| && s.doneCount == multiset(s.places)[Done]
  }

  lemma CountedByWorker(s: Pool, step: Step)
    requires Located(s) && Counted(s) && Enabled(s, step) && Alone(step)
    ensures Counted(Next(s, step))
  {
  }

  lemma CountedByPoll(s: Pool, step: Step)
    requires Located(s) && Counted(s) && Enabled(s, step) && step.Poll?
    ensures Counted(Next(s, step))
  {
  }

  /** What counting a job done changes */
  lemma CountDoneIs(s: Pool, step: Step)
    requires Enabled(s, step) && step.CountDone?
    ensures IsWorker(s, step.w) && s.workers[step.w].Counting? && CountFree(s) && SignalsClient(s, step.woken)
    ensures var t, w, j, stop := Next(s, step), step.w, s.workers[step.w].job, s.terminate[step.w];
            && t.workers == s.workers[w := if stop then Exited else AtTop]
            && t.places == (if j < |s.places| then s.places[j := if stop then Uncounted else Done] else s.places)
            && t.doneCount == s.doneCount + (if stop then 0 else 1)
            && t.clients == (if stop then s.clients else WokenClient(s, step.woken).clients)
            && t == s.(workers := t.workers, places := t.places, doneCount := t.doneCount, clients := t.clients)
  {
  }

  lemma CountedByCount(s: Pool, step: Step)
    requires Located(s) && Counted(s) && Enabled(s, step) && step.CountDone?
    ensures Counted(Next(s, step))
  {
    hide Enabled, Next;
    CountDoneIs(s, step);
  }

  lemma CountedByClient(s: Pool, step: Step)
    requires Located(s) && Counted(s) && Enabled(s, step) && ByClient(step)
    ensures Counted(Next(s, step))
  {
  }

  lemma CountedByRelease(s: Pool, step: Step)
    requires Located(s) && Counted(s) && Enabled(s, step) && ByRelease(step)
    ensures Counted(Next(s, step))
  {
  }

  lemma CountedNext(s: Pool, step: Step)
    requires Located(s) && Counted(s) && Enabled(s, step)
    ensures Counted(Next(s, step))
  {
    hide Located, Logged, Counted, Flags, Ready, Enabled, Next;
    if step.Poll? { CountedByPoll(s, step); }
    else if step.CountDone? { CountedByCount(s, step); }
    else if ByClient(step) { CountedByClient(s, step); }
    else if ByRelease(step) { CountedByRelease(s, step); }
    else { CountedByWorker(s, step); }
  }

  /** Until all flags are set, no worker sleeps while there are more jobs queued than workers on their way. */
  ghost predicate Ready(s: Pool)
  {
    !s.stage.Gone? && Asleep in s.workers ==> |s.queue| <= multiset(s.workers)[AtTop]
  }

  /** The flags follow the stages of the release, and without a flag no worker leaves. */
  ghost predicate Flags(s: Pool)
  {
    && |s.terminate| == |s.workers|
    && (forall w :: 0 <= w < |s.workers| ==>
          (s.terminate[w] <==> s.stage.Flagged? || s.stage.Gone? || (s.stage.BothLocked? && w < s.stage.next)))
    && (s.stage.BothLocked? ==> s.stage.next <= |s.workers|)
    && (forall w :: 0 <= w < |s.workers| && s.workers[w] == Exited ==> s.terminate[w])
    && (s.stage.Gone? ==> Asleep !in s.workers)
    && (!s.stage.Live? ==> forall c :: 0 <= c < |s.clients| ==> s.clients[c] == Idle)
    && (s.stage.Live? || s.stage.QueueLocked? ==> forall j :: 0 <= j < |s.places| ==>
      s.places[j] != Dropped && s.places[j] != Uncounted)
  }

  lemma FlagsByWorker(s: Pool, step: Step)
    requires Flags(s) && Enabled(s, step) && Alone(step)
    ensures Flags(Next(s, step))
  {
  }

  lemma FlagsByPoll(s: Pool, step: Step)
    requires Flags(s) && Enabled(s, step) && step.Poll?
    ensures Flags(Next(s, step))
  {
  }

  lemma FlagsByCount(s: Pool, step: Step)
    requires Flags(s) && Enabled(s, step) && step.CountDone?
    ensures Flags(Next(s, step))
  {
    hide Enabled, Next;
    CountDoneIs(s, step);
  }

  lemma FlagsByClient(s: Pool, step: Step)
    requires Flags(s) && Enabled(s, step) && ByClient(step)
    ensures Flags(Next(s, step))
  {
  }

  lemma FlagsByRelease(s: Pool, step: Step)
    requires Flags(s) && Enabled(s, step) && ByRelease(step)
    ensures Flags(Next(s, step))
  {
  }

  lemma FlagsNext(s: Pool, step: Step)
    requires Flags(s) && Enabled(s, step)
    ensures Flags(Next(s, step))
  {
    hide Located, Logged, Counted, Flags, Ready, Enabled, Next;
    if step.Poll? { FlagsByPoll(s, step); }
    else if step.CountDone? { FlagsByCount(s, step); }
    else if ByClient(step) { FlagsByClient(s, step); }
    else if ByRelease(step) { FlagsByRelease(s, step); }
    else { FlagsByWorker(s, step); }
  }

  lemma OneReplaced(workers: seq<Worker>, w: nat, worker: Worker)
    requires w < |workers| && workers[w] != AtTop
    ensures multiset(workers[w := worker])[AtTop] >= multiset(workers)[AtTop]
    ensures Asleep in workers[w := worker] ==> worker == Asleep || Asleep in workers
  {
  }

  lemma ReadyByWorker(s: Pool, step: Step)
    requires Flags(s) && Ready(s) && Enabled(s, step) && Alone(step)
    ensures Ready(Next(s, step))
  {
    hide Flags;
    var t := Next(s, step);
    OneReplaced(s.workers, step.w, t.workers[step.w]);
    assert t.workers == s.workers[step.w := t.workers[step.w]] && t.queue == s.queue && t.stage == s.stage;
    hide Next, Enabled;
  }

  lemma ReadyByPoll(s: Pool, step: Step)
    requires Flags(s) && Ready(s) && Enabled(s, step) && step.Poll?
    ensures Ready(Next(s, step))
  {
  }

  lemma ReadyByCount(s: Pool, step: Step)
    requires Flags(s) && Ready(s) && Enabled(s, step) && step.CountDone?
    ensures Ready(Next(s, step))
  {
    hide Enabled, Next;
    CountDoneIs(s, step);
  }

  lemma ReadyByClient(s: Pool, step: Step)
    requires Flags(s) && Ready(s) && Enabled(s, step) && ByClient(step)
    ensures Ready(Next(s, step))
  {
  }

  lemma ReadyByRelease(s: Pool, step: Step)
    requires Flags(s) && Ready(s) && Enabled(s, step) && ByRelease(step)
    ensures Ready(Next(s, step))
  {
  }

  lemma ReadyNext(s: Pool, step: Step)
    requires Flags(s) && Ready(s) && Enabled(s, step)
    ensures Ready(Next(s, step))
  {
    hide Located, Logged, Counted, Flags, Ready, Enabled, Next;
    if step.Poll? { ReadyByPoll(s, step); }
    else if step.CountDone? { ReadyByCount(s, step); }
    else if ByClient(step) { ReadyByClient(s, step); }
    else if ByRelease(step) { ReadyByRelease(s, step); }
    else { ReadyByWorker(s, step); }
  }

  ghost predicate Inv(s: Pool)
  {
    Located(s) && Logged(s) && Counted(s) && Flags(s) && Ready(s)
  }

  lemma InvNext(s: Pool, step: Step)
    requires Inv(s) && Enabled(s, step)
    ensures Inv(Next(s, step))
  {
    hide Located, Logged, Counted, Flags, Ready, Enabled, Next;
    LocatedNext(s, step);
    LoggedNext(s, step);
    CountedNext(s, step);
    FlagsNext(s, step);
    ReadyNext(s, step);
  }

  /** Every reachable state of every pool satisfies the invariant. */
  lemma {:induction false} InvAlways(size: nat, clients: nat, steps: seq<Step>)
    requires Run(Init(size, clients), steps).Some?
    ensures Inv(Run(Init(size, clients), steps).value)
  {
    if steps != [] {
      var n := |steps| - 1;
      InvAlways(size, clients, steps[..n]);
      hide Inv, Init, Next, Enabled;
      InvNext(Run(Init(size, clients), steps[..n]).value, steps[n]);
    }
  }

  /** In every reachable state every job is in one place, and in no other. */
  lemma OnePlace(size: nat, clients: nat, steps: seq<Step>, j: Job, place: Place)
    requires Run(Init(size, clients), steps).Some?
    requires var s := Run(Init(size, clients), steps).value;
             j < s.count && (place.Pending? || place.Queued? || place.With?)
    ensures var s := Run(Init(size, clients), steps).value;
            j < |s.places| && IsAt(s, j, s.places[j]) && (IsAt(s, j, place) <==> place == s.places[j])
  {
    InvAlways(size, clients, steps);
  }

  // Waiting until all jobs are done

  lemma {:induction false} AllOf<T>(s: seq<T>, x: T)
    requires multiset(s)[x] == |s|
    ensures forall i :: 0 <= i < |s| ==> s[i] == x
  {
    if s != [] {
      assert s == s[..|s| - 1] + [s[|s| - 1]];
      AtMostAll(s[..|s| - 1], x);
      AllOf(s[..|s| - 1], x);
    }
  }

  lemma {:induction false} AtMostAll<T>(s: seq<T>, x: T)
    ensures multiset(s)[x] <= |s|
  {
    if s != [] {
      assert s == s[..|s| - 1] + [s[|s| - 1]];
      AtMostAll(s[..|s| - 1], x);
    }
  }

  /** The number remembered by whoever waits is that of jobs that were dispatched. */
  ghost predicate Remembered(s: Pool)
  {
    forall c :: 0 <= c < |s.clients| && (s.clients[c].Checking? || s.clients[c].Sleeping?) ==>
      s.clients[c].before <= s.count
  }

  lemma RememberedNext(s: Pool, step: Step)
    requires Remembered(s) && Enabled(s, step)
    ensures Remembered(Next(s, step))
  {
    if !ByClient(step) && !step.CountDone? {
      assert Next(s, step).clients == s.clients;
    }
  }

  lemma {:induction false} RememberedAlways(size: nat, clients: nat, steps: seq<Step>)
    requires Run(Init(size, clients), steps).Some?
    ensures Remembered(Run(Init(size, clients), steps).value)
  {
    if steps != [] {
      var n := |steps| - 1;
      RememberedAlways(size, clients, steps[..n]);
      hide Remembered, Init, Next, Enabled;
      RememberedNext(Run(Init(size, clients), steps[..n]).value, steps[n]);
    }
  }

  /** `waitUntilDone` returns only when every job dispatched before the call is done: it was started,
      it ran to its end, and both once. */
  lemma WaitMeansDone(size: nat, clients: nat, steps: seq<Step>, c: nat, j: Job)
    requires Run(Init(size, clients), steps).Some?
    requires var s := Run(Init(size, clients), steps).value;
             && Enabled(s, Check(c)) && Next(s, Check(c)).clients[c] == Idle
             && j < s.clients[c].before
    ensures var s := Run(Init(size, clients), steps).value;
            && j < |s.places| && s.places[j] == Done
            && multiset(s.starts)[j] == 1 && multiset(s.finishes)[j] == 1
  {
    var s := Run(Init(size, clients), steps).value;
    InvAlways(size, clients, steps);
    RememberedAlways(size, clients, steps);
    AllOf(s.places, Done);
    Once(s.starts, j);
    Once(s.finishes, j);
  }

  lemma {:induction false} Once(jobs: seq<Job>, j: Job)
    requires Unrepeated(jobs)
    ensures multiset(jobs)[j] == if j in jobs then 1 else 0
  {
    if jobs != [] {
      var n := |jobs| - 1;
      assert jobs == jobs[..n] + [jobs[n]];
      Once(jobs[..n], j);
    }
  }

  ghost predicate IsDone(s: Pool, j: Job)
  {
    j < |s.places| && s.places[j] == Done
  }

  lemma DoneNext(s: Pool, step: Step, j: Job)
    requires Located(s) && Enabled(s, step) && IsDone(s, j)
    ensures IsDone(Next(s, step), j) && s.starts <= Next(s, step).starts
  {
  }

  /** A job once done stays done, and what has started is never taken back. */
  lemma {:induction false} DoneStays(s: Pool, steps: seq<Step>, j: Job)
    requires Located(s) && Run(s, steps).Some? && IsDone(s, j)
    ensures Located(Run(s, steps).value) && IsDone(Run(s, steps).value, j)
    ensures s.starts <= Run(s, steps).value.starts
  {
    if steps != [] {
      var n := |steps| - 1;
      DoneStays(s, steps[..n], j);
      hide Located, IsDone, Next, Enabled;
      LocatedNext(Run(s, steps[..n]).value, steps[n]);
      DoneNext(Run(s, steps[..n]).value, steps[n], j);
    }
  }

  // Progress

  function WorkerWork(worker: Worker): nat
  {
    match worker
    case Starting => 2
    case AtTop => 1
    case Asleep => 0
    case HasJob(_) => 6
    case Running(_) => 5
    case Ran(_) => 4
    case Counting(_) => 3
    case Exited => 0
  }

  function ClientWork(client: Client): nat
  {
    match client
    case Idle => 0
    case Adding(_) => 8
    case Checking(_) => 1
    case Sleeping(_) => 0
  }

  function WorkersWork(workers: seq<Worker>): nat
  {
    if workers == [] then 0 else WorkersWork(workers[..|workers| - 1]) + WorkerWork(workers[|workers| - 1])
  }

  function ClientsWork(clients: seq<Client>): nat
  {
    if clients == [] then 0 else ClientsWork(clients[..|clients| - 1]) + ClientWork(clients[|clients| - 1])
  }

  /** What the threads have left to do if no more calls are made. */
  function Work(s: Pool): nat
  {
    WorkersWork(s.workers) + ClientsWork(s.clients) + 6 * |s.queue|
  }

  lemma {:induction false} WorkersWorkAt(workers: seq<Worker>, w: nat, worker: Worker)
    requires w < |workers|
    ensures WorkersWork(workers[w := worker]) == WorkersWork(workers) - WorkerWork(workers[w]) + WorkerWork(worker)
  {
    var n := |workers| - 1;
    if w == n {
      assert workers[w := worker][..n] == workers[..n];
    } else {
      WorkersWorkAt(workers[..n], w, worker);
      assert workers[w := worker][..n] == workers[..n][w := worker];
    }
  }

  lemma {:induction false} ClientsWorkAt(clients: seq<Client>, c: nat, client: Client)
    requires c < |clients|
    ensures ClientsWork(clients[c := client]) == ClientsWork(clients) - ClientWork(clients[c]) + ClientWork(client)
  {
    var n := |clients| - 1;
    if c == n {
      assert clients[c := client][..n] == clients[..n];
    } else {
      ClientsWorkAt(clients[..n], c, client);
      assert clients[c := client][..n] == clients[..n][c := client];
    }
  }

  /** Steps that no call, spurious wakeup or release is the cause of. */
  predicate Internal(step: Step)
  {
    step.Begin? || step.Poll? || step.CheckHeld? || step.Finish? || step.CheckRan? || step.CountDone?
    || step.Append? || step.Check?
  }

  lemma WorkShrinksByWorker(s: Pool, step: Step)
    requires Enabled(s, step) && Internal(step) && !ByClient(step)
    ensures Work(Next(s, step)) < Work(s)
  {
    WorkersWorkAt(s.workers, step.w, Next(s, step).workers[step.w]);
    if step.CountDone? && step.woken.Some? {
      var c := step.woken.value;
      ClientsWorkAt(s.clients, c, Checking(s.clients[c].before));
    }
  }

  /** Between calls and spurious wakeups, only so many steps can be taken. */
  lemma WorkShrinks(s: Pool, step: Step)
    requires Enabled(s, step) && Internal(step)
    ensures Work(Next(s, step)) < Work(s)
  {
    if step.Append? {
      ClientsWorkAt(s.clients, step.c, Idle);
      if step.woken.Some? { WorkersWorkAt(s.workers, step.woken.value, AtTop); }
    } else if step.Check? {
      ClientsWorkAt(s.clients, step.c, Next(s, step).clients[step.c]);
    } else {
      hide *;
      WorkShrinksByWorker(s, step);
    }
  }

  /** A pool in which nothing can be done without a call or a spurious wakeup. */
  ghost predicate Quiet(s: Pool)
  {
    forall step :: Internal(step) ==> !Enabled(s, step)
  }

  lemma QuietWorker(s: Pool, w: nat)
    requires Quiet(s) && QueueFree(s) && IsWorker(s, w)
    ensures s.workers[w] == Asleep || s.workers[w] == Exited
  {
    var steps := [Begin(w), Poll(w), CheckHeld(w), Finish(w), CheckRan(w)];
    assert forall i :: 0 <= i < |steps| ==> Internal(steps[i]) && !Enabled(s, steps[i]);
    assert !Enabled(s, steps[0]) && !Enabled(s, steps[1]) && !Enabled(s, steps[2]) && !Enabled(s, steps[3])
      && !Enabled(s, steps[4]);
    if s.workers[w].Counting? {
      var woken := if exists c :: 0 <= c < |s.clients| && s.clients[c].Sleeping?
                   then var c :| 0 <= c < |s.clients| && s.clients[c].Sleeping?; Some(c) else None;
      assert Internal(CountDone(w, woken)) && Enabled(s, CountDone(w, woken));
    }
  }

  lemma QuietClient(s: Pool, c: nat)
    requires Quiet(s) && QueueFree(s) && c < |s.clients|
    ensures s.clients[c] == Idle || s.clients[c].Sleeping?
  {
    assert Internal(Check(c)) && !Enabled(s, Check(c));
    if s.clients[c].Adding? {
      var woken := if Asleep in s.workers
                   then var w :| 0 <= w < |s.workers| && s.workers[w] == Asleep; Some(w) else None;
      assert Internal(Append(c, woken)) && Enabled(s, Append(c, woken));
    }
  }

  /** A pool with a worker comes to rest only when every job that was dispatched is done. */
  lemma QuietMeansDone(s: Pool)
    requires Inv(s) && s.stage.Live? && Quiet(s) && |s.workers| > 0
    ensures s.doneCount == s.count && s.queue == []
    ensures forall j :: 0 <= j < s.count ==> s.places[j] == Done
  {
    forall w | 0 <= w < |s.workers| ensures s.workers[w] == Asleep { QuietWorker(s, w); }
    forall c | 0 <= c < |s.clients| ensures !s.clients[c].Adding? { QuietClient(s, c); }
    assert s.workers[0] == Asleep;
    assert multiset(s.workers)[AtTop] == 0;
    forall j | 0 <= j < s.count ensures s.places[j] == Done {
      assert IsAt(s, j, s.places[j]);
    }
    AllOfConverse(s.places, Done);
  }

  lemma {:induction false} AllOfConverse<T>(s: seq<T>, x: T)
    requires forall i :: 0 <= i < |s| ==> s[i] == x
    ensures multiset(s)[x] == |s|
  {
    if s != [] {
      assert s == s[..|s| - 1] + [s[|s| - 1]];
      AllOfConverse(s[..|s| - 1], x);
    }
  }

  // Release

  /** Once all flags are set no worker touches the queue or the counters, which are then given up, and
      no job starts; a job that runs can only come to its end. */
  lemma ReleasedLeavesAlone(s: Pool, step: Step)
    requires Inv(s) && (s.stage.Flagged? || s.stage.Gone?) && Enabled(s, step)
    ensures var t := Next(s, step);
            && (t.stage.Flagged? || t.stage.Gone?)
            && t.queue == s.queue && t.count == s.count && t.doneCount == s.doneCount && t.starts == s.starts
            && forall w :: 0 <= w < |s.workers| && s.workers[w].Running? && t.workers[w] != s.workers[w] ==>
                 t.workers[w] == Ran(s.workers[w].job) && t.finishes == s.finishes + [s.workers[w].job]
  {
    hide Located, Logged, Counted, Ready;
  }

  /** Of a pool that is gone, every step is one of those that can be taken only so many times, and when
      none is left all workers have terminated and every job that started has finished. */
  lemma ReleasedTerminates(s: Pool)
    requires Inv(s) && s.stage.Gone?
    ensures forall step :: Enabled(s, step) ==>
      Internal(step) && Next(s, step).stage.Gone? && Work(Next(s, step)) < Work(s)
    ensures Quiet(s) ==> forall w :: 0 <= w < |s.workers| ==> s.workers[w] == Exited
    ensures Quiet(s) ==> forall j :: j in s.starts ==> j in s.finishes
  {
    forall step | Enabled(s, step) ensures Internal(step) && Next(s, step).stage.Gone?
      && Work(Next(s, step)) < Work(s) {
      WorkShrinks(s, step);
    }
    if Quiet(s) {
      forall w | 0 <= w < |s.workers| ensures s.workers[w] == Exited { QuietWorker(s, w); }
      forall j | j in s.starts ensures j in s.finishes { assert Started(s, j); }
    }
  }

  // Waiters that are not woken

  predicate Waiting(client: Client)
  {
    client.Checking? || client.Sleeping?
  }

  /** A count that completes the jobs leaves a waiter asleep if and only if two or more were asleep:
      it signals where it would have to broadcast. */
  lemma StrandedIff(s: Pool, w: nat, woken: Option<nat>)
    requires Enabled(s, CountDone(w, woken)) && !s.terminate[w]
    ensures (exists c :: 0 <= c < |s.clients| && Next(s, CountDone(w, woken)).clients[c].Sleeping?) <==>
            (exists c, d :: 0 <= c < d < |s.clients| && s.clients[c].Sleeping? && s.clients[d].Sleeping?)
  {
    var t := Next(s, CountDone(w, woken));
    if c, d :| 0 <= c < d < |s.clients| && s.clients[c].Sleeping? && s.clients[d].Sleeping? {
      assert t.clients[c].Sleeping? || t.clients[d].Sleeping?;
    }
    if c :| 0 <= c < |s.clients| && t.clients[c].Sleeping? {
      assert s.clients[c].Sleeping? && s.clients[woken.value].Sleeping? && c != woken.value;
    }
  }

  ghost predicate OneWaits(s: Pool)
  {
    forall c, d :: 0 <= c < d < |s.clients| ==> !(Waiting(s.clients[c]) && Waiting(s.clients[d]))
  }

  /** Nobody sleeps in `waitUntilDone` while all jobs are done. */
  ghost predicate NoneStranded(s: Pool)
  {
    s.doneCount == s.count ==> forall c :: 0 <= c < |s.clients| ==> !s.clients[c].Sleeping?
  }

  lemma NoneStrandedNext(s: Pool, step: Step)
    requires Located(s) && Counted(s) && NoneStranded(s) && OneWaits(s) && Enabled(s, step)
    ensures NoneStranded(Next(s, step))
  {
    AtMostAll(s.places, Done);
    if step.CountDone? && !s.terminate[step.w] {
      StrandedIff(s, step.w, step.woken);
    }
  }

  /** As long as never more than one thread is in `waitUntilDone`, none stays asleep for ever. */
  lemma {:induction false} NeverStranded(size: nat, clients: nat, steps: seq<Step>)
    requires Run(Init(size, clients), steps).Some?
    requires forall n :: 0 <= n < |steps| ==> Run(Init(size, clients), steps[..n]).Some? ==>
               OneWaits(Run(Init(size, clients), steps[..n]).value)
    ensures NoneStranded(Run(Init(size, clients), steps).value)
  {
    if steps != [] {
      var n := |steps| - 1;
      forall m | 0 <= m < n ensures steps[..n][..m] == steps[..m] { }
      NeverStranded(size, clients, steps[..n]);
      InvAlways(size, clients, steps[..n]);
      var s := Run(Init(size, clients), steps[..n]).value;
      assert OneWaits(s);
      hide NoneStranded, OneWaits, Located, Logged, Flags, Ready, Counted, Init, Next, Enabled;
      NoneStrandedNext(s, steps[n]);
    }
  }

  /** A pool with one worker and three clients. */
  function Small(w: Worker, c: Client, d: Client, e: Client, queue: seq<Job>, count: nat, doneCount: nat,
      places: seq<Place>, starts: seq<Job>, finishes: seq<Job>): Pool
  {
    Pool([w], [false], [c, d, e], Live, queue, count, doneCount, places, starts, finishes)
  }

  lemma Onward(start: Pool, steps: seq<Step>, s: Pool, step: Step, t: Pool) returns (more: seq<Step>, next: Pool)
    requires Run(start, steps) == Some(s) && Enabled(s, step)
    requires var n := Next(s, step);
             && n.workers == t.workers && n.terminate == t.terminate && n.clients == t.clients && n.stage == t.stage
             && n.queue == t.queue && n.count == t.count && n.doneCount == t.doneCount
             && n.places == t.places && n.starts == t.starts && n.finishes == t.finishes
    ensures next == t && Run(start, more) == Some(next)
  {
    more, next := steps + [step], t;
    assert more[..|steps|] == steps;
  }

  lemma OneCalls() returns (steps: seq<Step>, s: Pool)
    ensures Run(Init(1, 3), steps) == Some(s)
    ensures s == Small(Starting, Idle, Checking(1), Idle, [0], 1, 0, [Queued], [], [])
  {
    var start := Init(1, 3);
    assert start == Small(Starting, Idle, Idle, Idle, [], 0, 0, [], [], []);
    steps, s := [], start;
    assert Run(start, steps) == Some(s);
    hide Run;
    steps, s := Onward(start, steps, s, Dispatch(0), Small(Starting, Adding(0), Idle, Idle, [], 1, 0, [Pending(0)], [],
      []));
    steps, s := Onward(start, steps, s, Append(0, None), Small(Starting, Idle, Idle, Idle, [0], 1, 0, [Queued], [],
      []));
    steps, s := Onward(start, steps, s, CallWait(1), Small(Starting, Idle, Checking(1), Idle, [0], 1, 0, [Queued], [],
      []));
  }

  lemma BothWait() returns (steps: seq<Step>, s: Pool)
    ensures Run(Init(1, 3), steps) == Some(s)
    ensures s == Small(Starting, Idle, Sleeping(1), Sleeping(1), [0], 1, 0, [Queued], [], [])
  {
    var start := Init(1, 3);
    steps, s := OneCalls();
    hide Run, Init;
    steps, s := Onward(start, steps, s, Check(1), Small(Starting, Idle, Sleeping(1), Idle, [0], 1, 0, [Queued], [],
      []));
    steps, s := Onward(start, steps, s, CallWait(2), Small(Starting, Idle, Sleeping(1), Checking(1), [0], 1, 0,
      [Queued], [], []));
    steps, s := Onward(start, steps, s, Check(2), Small(Starting, Idle, Sleeping(1), Sleeping(1), [0], 1, 0, [Queued],
      [], []));
  }

  lemma JobRan() returns (steps: seq<Step>, s: Pool)
    ensures Run(Init(1, 3), steps) == Some(s)
    ensures s == Small(Ran(0), Idle, Sleeping(1), Sleeping(1), [], 1, 0, [With(0)], [0], [0])
  {
    var start := Init(1, 3);
    steps, s := BothWait();
    hide Run, Init;
    steps, s := Onward(start, steps, s, Begin(0), Small(AtTop, Idle, Sleeping(1), Sleeping(1), [0], 1, 0, [Queued], [],
      []));
    steps, s := Onward(start, steps, s, Poll(0), Small(HasJob(0), Idle, Sleeping(1), Sleeping(1), [], 1, 0, [With(0)],
      [], []));
    steps, s := Onward(start, steps, s, CheckHeld(0), Small(Running(0), Idle, Sleeping(1), Sleeping(1), [], 1, 0,
      [With(0)], [0], []));
    steps, s := Onward(start, steps, s, Finish(0), Small(Ran(0), Idle, Sleeping(1), Sleeping(1), [], 1, 0, [With(0)],
      [0], [0]));
  }

  lemma JobCounted() returns (steps: seq<Step>, s: Pool)
    ensures Run(Init(1, 3), steps) == Some(s)
    ensures s == Small(AtTop, Idle, Checking(1), Sleeping(1), [], 1, 1, [Done], [0], [0])
  {
    var start := Init(1, 3);
    steps, s := JobRan();
    hide Run, Init;
    steps, s := Onward(start, steps, s, CheckRan(0), Small(Counting(0), Idle, Sleeping(1), Sleeping(1), [], 1, 0,
      [With(0)], [0], [0]));
    steps, s := Onward(start, steps, s, CountDone(0, Some(1)),
      Small(AtTop, Idle, Checking(1), Sleeping(1), [], 1, 1, [Done], [0], [0]));
  }

  /** With two threads waiting, one sleeps on when all is done, and only a spurious wakeup helps it. */
  lemma TwoWaiters() returns (steps: seq<Step>, s: Pool)
    ensures Run(Init(1, 3), steps) == Some(s)
    ensures s.stage.Live? && s.doneCount == s.count && |s.clients| == 3 && s.clients[2].Sleeping? && Quiet(s)
  {
    var start := Init(1, 3);
    steps, s := JobCounted();
    hide Run, Init;
    steps, s := Onward(start, steps, s, Check(1), Small(AtTop, Idle, Idle, Sleeping(1), [], 1, 1, [Done], [0], [0]));
    steps, s := Onward(start, steps, s, Poll(0), Small(Asleep, Idle, Idle, Sleeping(1), [], 1, 1, [Done], [0], [0]));
  }
}
