/**
 The worker pool: any number of threads post tasks, the workers take them off one queue, and the
 destructor stops the workers and cancels what is left.

 Each section under the mutex is one step; waiting on the condition variable releases the mutex, and a
 worker that was signalled, or woken for no reason, looks at the queue again.
 */
module WorkerPool {

  // A task by the number of its post, or one of the empty tasks pushed when the pool stops.
  datatype Item = Task(id: nat) | Empty

  datatype Worker = Ready | Waiting | Woken | Busy(item: Item) | Exited

  datatype Pool = Pool(
    queue: seq<Item>,
    stopped: bool,
    workers: seq<Worker>,
    drained: bool,
    // What has happened so far.
    posted: seq<Item>, // accepted by PostTask, in order
    popped: seq<Item>, // taken by workers, in order
    finished: seq<Item>, // run by workers to the end, as they returned
    canceled: seq<Item>) // by the destructor, in order

  datatype Event =
    | Post(signaled: nat) // a task by the number of posts so far; the worker that Signal wakes, if any waits
    | Enter(worker: nat) // a worker takes the mutex and looks at the queue
    | Finish(worker: nat) // a worker's task returns
    | WakeUp(worker: nat) // a worker wakes without a signal
    | Stop // the destructor's section
    | Drain // the workers are joined and the queue is emptied

  function EmptyTasks(n: nat): (items: seq<Item>)
    ensures |items| == n && forall i | 0 <= i < n :: items[i] == Empty
  {
    seq(n, _ => Empty)
  }

  ghost predicate Init(p: Pool) {
    && p.queue == p.posted == p.popped == p.finished == p.canceled == [] && !p.stopped && !p.drained
    && forall w | 0 <= w < |p.workers| :: p.workers[w] == Ready
  }

  predicate Is(p: Pool, w: nat, s: Worker) {
    w < |p.workers| && p.workers[w] == s
  }

  ghost predicate Enabled(p: Pool, e: Event) {
    match e
    case Post(w) => p.queue == [] && !p.stopped && (exists v: nat :: Is(p, v, Waiting)) ==> Is(p, w, Waiting)
    case Enter(w) => Is(p, w, Ready) || Is(p, w, Woken)
    case Finish(w) => w < |p.workers| && p.workers[w].Busy?
    case WakeUp(w) => Is(p, w, Waiting)
    case Stop => !p.stopped
    case Drain => p.stopped && !p.drained && forall w | 0 <= w < |p.workers| :: p.workers[w] == Exited
  }

  function Put(p: Pool, w: nat, s: Worker): Pool {
    if w < |p.workers| then p.(workers := p.workers[w := s]) else p
  }

  function WakeAll(workers: seq<Worker>): (woken: seq<Worker>)
    ensures |woken| == |workers|
    ensures forall w | 0 <= w < |workers| :: woken[w] == if workers[w] == Waiting then Woken else workers[w]
  {
    seq(|workers|, w requires 0 <= w < |workers| => if workers[w] == Waiting then Woken else workers[w])
  }

  function Apply(p: Pool, e: Event): (p': Pool)
    ensures |p'.workers| == |p.workers|
  {
    match e
    case Post(w) =>
      if p.stopped then p else
      var item := Task(|p.posted|);
      var added := p.(queue := p.queue + [item], posted := p.posted + [item]);
      if p.queue == [] && Is(p, w, Waiting) then Put(added, w, Woken) else added
    case Enter(w) =>
      if p.queue == [] then Put(p, w, Waiting)
      else if p.stopped then Put(p, w, Exited)
      else Put(p, w, Busy(p.queue[0])).(queue := p.queue[1..], popped := p.popped + [p.queue[0]])
    case Finish(w) =>
      if w < |p.workers| && p.workers[w].Busy? then Put(p, w, Ready).(finished := p.finished + [p.workers[w].item]) else p
    case WakeUp(w) => Put(p, w, Woken)
    case Stop => p.(stopped := true, queue := p.queue + EmptyTasks(|p.workers|), workers := WakeAll(p.workers))
    case Drain => p.(drained := true, queue := [], canceled := p.queue)
  }

  // ---------- What every step keeps ----------

  // No post is lost, doubled or reordered: what was taken and what waits is what was posted.
  ghost predicate Fifo(p: Pool) {
    && (forall i | 0 <= i < |p.posted| :: p.posted[i] == Task(i))
    && p.popped + p.queue + p.canceled == p.posted + (if p.stopped then EmptyTasks(|p.workers|) else [])
    && |p.popped| <= |p.posted|
    && (!p.drained ==> p.canceled == [])
  }

  // A signal is sent only when the queue was empty, yet whenever a task waits some worker does not.
  ghost predicate Attended(p: Pool) {
    && (p.queue != [] && |p.workers| > 0 ==> exists w: nat :: w < |p.workers| && p.workers[w] != Waiting)
    && (p.stopped ==> forall w | 0 <= w < |p.workers| :: p.workers[w] != Waiting)
    && (forall w | 0 <= w < |p.workers| :: p.workers[w] == Exited ==> p.stopped)
    && (p.drained ==> p.stopped && p.queue == [] && forall w | 0 <= w < |p.workers| :: p.workers[w] == Exited)
    && (p.stopped && !p.drained ==> |p.queue| >= |p.workers|)
  }

  ghost predicate Inv(p: Pool) {
    Fifo(p) && Attended(p) && RunsWhatItTook(p)
  }

  function Runs(w: Worker, item: Item): nat {
    if w == Busy(item) then 1 else 0
  }

  // How many workers are running this item.
  function Runners(workers: seq<Worker>, item: Item): nat {
    if workers == [] then 0 else Runs(workers[0], item) + Runners(workers[1..], item)
  }

  function Count(items: seq<Item>, item: Item): nat {
    multiset(items)[item]
  }

  // The items taken are those being run and those run to the end, each as often.
  ghost predicate RunsWhatItTook(p: Pool) {
    forall item :: Count(p.popped, item) == Runners(p.workers, item) + Count(p.finished, item)
  }

  lemma {:induction false} RunnersAfter(workers: seq<Worker>, w: nat, s: Worker, item: Item)
    requires w < |workers|
    ensures Runners(workers[w := s], item) + Runs(workers[w], item) == Runners(workers, item) + Runs(s, item)
  {
    if w == 0 {
      assert workers[w := s][1..] == workers[1..];
    } else {
      assert workers[w := s][1..] == workers[1..][w - 1 := s];
      RunnersAfter(workers[1..], w - 1, s, item);
    }
  }

  // Workers that run nothing before and after are runners of nothing.
  lemma {:induction false} SameRunners(before: seq<Worker>, after: seq<Worker>, item: Item)
    requires |before| == |after| && forall w | 0 <= w < |before| :: Runs(before[w], item) == Runs(after[w], item)
    ensures Runners(before, item) == Runners(after, item)
  {
    if before != [] {
      SameRunners(before[1..], after[1..], item);
    }
  }

  lemma {:induction false} NoRunners(workers: seq<Worker>, item: Item)
    requires forall w | 0 <= w < |workers| :: !workers[w].Busy?
    ensures Runners(workers, item) == 0
  {
    if workers != [] {
      NoRunners(workers[1..], item);
    }
  }

  lemma CountNext(items: seq<Item>, last: Item, item: Item)
    ensures Count(items + [last], item) == Count(items, item) + if last == item then 1 else 0
  {
  }

  lemma StepRunsWhatItTook(p: Pool, e: Event)
    requires RunsWhatItTook(p) && Enabled(p, e)
    ensures RunsWhatItTook(Apply(p, e))
  {
    var p' := Apply(p, e);
    forall item
      ensures Count(p'.popped, item) == Runners(p'.workers, item) + Count(p'.finished, item)
    {
      assert Count(p.popped, item) == Runners(p.workers, item) + Count(p.finished, item);
      match e
      case Enter(w) => EnterRunsWhatItTook(p, w, item);
      case Finish(w) =>
        RunnersAfter(p.workers, w, Ready, item);
        CountNext(p.finished, p.workers[w].item, item);
      case Post(_) => SameRunners(p.workers, p'.workers, item);
      case WakeUp(_) => SameRunners(p.workers, p'.workers, item);
      case Stop => SameRunners(p.workers, p'.workers, item);
      case Drain =>
    }
  }

  lemma EnterRunsWhatItTook(p: Pool, w: nat, item: Item)
    requires Enabled(p, Enter(w)) && Count(p.popped, item) == Runners(p.workers, item) + Count(p.finished, item)
    ensures var p' := Apply(p, Enter(w));
            Count(p'.popped, item) == Runners(p'.workers, item) + Count(p'.finished, item)
  {
    RunnersAfter(p.workers, w, Apply(p, Enter(w)).workers[w], item);
    if p.queue != [] {
      CountNext(p.popped, p.queue[0], item);
    }
  }

  lemma StepKeepsFifo(p: Pool, e: Event)
    requires Inv(p) && Enabled(p, e)
    ensures Fifo(Apply(p, e))
  {
    if !p.stopped {
      OpenKeepsFifo(p, e);
    } else if e.Drain? {
      var p' := Apply(p, e);
      assert p'.popped + p'.queue + p'.canceled == p.popped + p.queue + p.canceled;
    }
  }

  lemma OpenKeepsFifo(p: Pool, e: Event)
    requires Inv(p) && Enabled(p, e) && !p.stopped
    ensures Fifo(Apply(p, e))
  {
    var p' := Apply(p, e);
    assert p.popped + p.queue + p.canceled == p.popped + p.queue && p.posted + [] == p.posted;
    match e
    case Post(_) =>
      assert p.popped + (p.queue + [Task(|p.posted|)]) == p.posted + [Task(|p.posted|)];
      assert p'.popped + p'.queue + p'.canceled == p'.popped + p'.queue;
    case Enter(_) =>
      if p.queue != [] {
        assert p.popped + [p.queue[0]] + p.queue[1..] == p.popped + p.queue;
        assert |p.popped + p.queue| == |p.posted|;
      }
    case Stop => assert p.popped + (p.queue + EmptyTasks(|p.workers|)) == p.posted + EmptyTasks(|p.workers|);
    case Finish(_) =>
    case WakeUp(_) =>
  }

  lemma StepKeepsAttended(p: Pool, e: Event)
    requires Inv(p) && Enabled(p, e)
    ensures Attended(Apply(p, e))
  {
    var p' := Apply(p, e);
    match e
    case Post(w) =>
      if !p.stopped && |p.workers| > 0 {
        if p.queue == [] && exists v: nat :: Is(p, v, Waiting) {
          assert p'.workers[w] == Woken;
        } else if p.queue == [] {
          assert !Is(p, 0, Waiting) && p'.workers[0] != Waiting;
        } else {
          var v: nat :| v < |p.workers| && p.workers[v] != Waiting;
          assert p'.workers[v] != Waiting;
        }
      }
    case Enter(w) =>
      if p.queue != [] {
        assert p'.workers[w] != Waiting;
      }
    case Finish(w) => assert p'.workers[w] == Ready;
    case WakeUp(w) => assert p'.workers[w] == Woken;
    case Stop =>
      if |p.workers| > 0 {
        assert p'.workers[0] != Waiting;
      }
    case Drain =>
  }

  // ---------- Whole runs ----------

  ghost predicate IsRun(run: seq<Pool>, events: seq<Event>) {
    && |run| == |events| + 1 && Init(run[0])
    && forall k | 0 <= k < |events| :: Enabled(run[k], events[k]) && run[k + 1] == Apply(run[k], events[k])
  }

  lemma {:induction false} RunInv(run: seq<Pool>, events: seq<Event>, k: nat)
    requires IsRun(run, events) && k < |run|
    ensures Inv(run[k])
  {
    if k == 0 {
      forall item
        ensures Runners(run[0].workers, item) == 0
      {
        NoRunners(run[0].workers, item);
      }
    } else {
      RunInv(run, events, k - 1);
      StepRunsWhatItTook(run[k - 1], events[k - 1]);
      StepKeepsFifo(run[k - 1], events[k - 1]);
      StepKeepsAttended(run[k - 1], events[k - 1]);
    }
  }

  // Tasks are taken in the order they were posted, each once.
  lemma PoppedInOrder(run: seq<Pool>, events: seq<Event>, k: nat)
    requires IsRun(run, events) && k < |run|
    ensures run[k].popped <= run[k].posted
    ensures !run[k].stopped ==> run[k].popped + run[k].queue == run[k].posted
  {
    RunInv(run, events, k);
    var p := run[k];
    assert !p.stopped ==> p.popped + p.queue + p.canceled == p.popped + p.queue && p.posted + [] == p.posted;
    var all := p.posted + (if p.stopped then EmptyTasks(|p.workers|) else []);
    assert all[..|p.popped|] == p.popped;
  }

  // A post is accepted at the end of the queue, under a number of its own, until the pool stops.
  lemma PostIsAccepted(run: seq<Pool>, events: seq<Event>, k: nat)
    requires IsRun(run, events) && k < |events| && events[k].Post?
    ensures var p, p' := run[k], run[k + 1];
            if p.stopped then p' == p
            else exists id :: Accepts(p, p', Task(id))
  {
    RunInv(run, events, k);
    var p, p' := run[k], run[k + 1];
    assert !p.stopped ==> Accepts(p, p', Task(|p.posted|));
  }

  ghost predicate Accepts(p: Pool, p': Pool, item: Item) {
    item !in p.posted && p'.posted == p.posted + [item] && p'.queue == p.queue + [item]
  }

  // A worker that looks at the queue waits if it is empty, leaves if the pool has stopped, and otherwise runs
  // the very task that it takes off the front.
  lemma WorkerRunsWhatItTakes(run: seq<Pool>, events: seq<Event>, k: nat, w: nat)
    requires IsRun(run, events) && k < |events| && events[k] == Enter(w)
    ensures w < |run[k + 1].workers|
    ensures var p, p' := run[k], run[k + 1];
            if p.queue == [] then p'.workers[w] == Waiting && p'.queue == [] && p'.popped == p.popped
            else if p.stopped then p'.workers[w] == Exited && p'.queue == p.queue && p'.popped == p.popped
            else exists item :: Takes(p, p', item) && p'.workers[w] == Busy(item)
  {
    var p, p' := run[k], run[k + 1];
    if p.queue != [] && !p.stopped {
      assert Takes(p, p', p.queue[0]);
    }
  }

  ghost predicate Takes(p: Pool, p': Pool, item: Item) {
    p.queue == [item] + p'.queue && p'.popped == p.popped + [item]
  }

  lemma {:induction false} PostedOnce(posted: seq<Item>, id: nat)
    requires id < |posted| && forall i | 0 <= i < |posted| :: posted[i] == Task(i)
    ensures Count(posted, Task(id)) == 1
  {
    var n := |posted| - 1;
    assert posted == posted[..n] + [posted[n]];
    if id == n {
      assert Task(id) !in posted[..n];
    } else {
      PostedOnce(posted[..n], id);
    }
  }

  // Every task that was posted is in exactly one place, once: waiting, being run by one worker, run to the
  // end, or cancelled.
  lemma TasksAccountedFor(run: seq<Pool>, events: seq<Event>, k: nat, id: nat)
    requires IsRun(run, events) && k < |run| && id < |run[k].posted|
    ensures var p, task := run[k], Task(id);
            Count(p.queue, task) + Runners(p.workers, task) + Count(p.finished, task) + Count(p.canceled, task) == 1
  {
    RunInv(run, events, k);
    var p, task := run[k], Task(id);
    assert Count(p.popped, task) == Runners(p.workers, task) + Count(p.finished, task);
    PostedOnce(p.posted, id);
    OnlyOneCopy(p.posted, if p.stopped then EmptyTasks(|p.workers|) else [], p.popped, p.queue, p.canceled, task);
  }

  lemma OnlyOneCopy(posted: seq<Item>, more: seq<Item>, popped: seq<Item>, queue: seq<Item>, canceled: seq<Item>, task: Item)
    requires popped + queue + canceled == posted + more && Count(posted, task) == 1 && task !in more
    ensures Count(popped, task) + Count(queue, task) + Count(canceled, task) == 1
  {
    CountConcat(posted, more, task);
    CountConcat(popped + queue, canceled, task);
    CountConcat(popped, queue, task);
  }

  lemma CountConcat(a: seq<Item>, b: seq<Item>, item: Item)
    ensures Count(a + b, item) == Count(a, item) + Count(b, item)
  {
  }

  // A pool with a task to run can get to it: within two steps of one worker the first task is taken.
  lemma SomeWorkerTakesIt(run: seq<Pool>, events: seq<Event>, k: nat) returns (steps: seq<Event>)
    requires IsRun(run, events) && k < |run|
    requires run[k].queue != [] && !run[k].stopped && |run[k].workers| > 0
    ensures 1 <= |steps| <= 2
    ensures var p := run[k];
            && Enabled(p, steps[0])
            && var p1 := Apply(p, steps[0]);
               if |steps| == 1 then p1.popped == p.popped + [p.queue[0]] && Busy(p.queue[0]) in p1.workers
               else
                 && Enabled(p1, steps[1])
                 && var p2 := Apply(p1, steps[1]);
                    p2.popped == p.popped + [p.queue[0]] && Busy(p.queue[0]) in p2.workers
  {
    RunInv(run, events, k);
    var p := run[k];
    var w: nat :| w < |p.workers| && p.workers[w] != Waiting;
    if p.workers[w].Busy? {
      steps := [Finish(w), Enter(w)];
      var p1 := Apply(p, Finish(w));
      assert Is(p1, w, Ready);
      assert Apply(p1, Enter(w)).workers[w] == Busy(p.queue[0]);
    } else {
      assert Is(p, w, Ready) || Is(p, w, Woken);
      steps := [Enter(w)];
      assert Apply(p, Enter(w)).workers[w] == Busy(p.queue[0]);
    }
  }

  // ---------- Stopping ----------

  // After the stop no task is taken or accepted, and no worker waits.
  lemma {:induction false} NothingAfterStop(run: seq<Pool>, events: seq<Event>, j: nat, k: nat)
    requires IsRun(run, events) && j <= k < |run| && run[j].stopped
    ensures run[k].stopped && run[k].popped == run[j].popped && run[k].posted == run[j].posted
    ensures forall w | 0 <= w < |run[k].workers| :: run[k].workers[w] != Waiting
  {
    RunInv(run, events, k);
    if j < k {
      NothingAfterStop(run, events, j, k - 1);
    }
  }

  lemma StopStops(run: seq<Pool>, events: seq<Event>, k: nat)
    requires IsRun(run, events) && k < |events|
    ensures events[k] == Stop ==> run[k + 1].stopped
    ensures events[k] == Drain ==> run[k + 1].drained && run[k + 1].queue == []
  {
  }

  // The destructor cancels exactly the tasks nobody took, in order, and the empty tasks after them.
  lemma DrainCancelsTheRest(run: seq<Pool>, events: seq<Event>, k: nat)
    requires IsRun(run, events) && k < |run| && run[k].drained
    ensures var p := run[k];
            |p.popped| <= |p.posted| && p.canceled == p.posted[|p.popped|..] + EmptyTasks(|p.workers|)
  {
    RunInv(run, events, k);
    var p := run[k];
    assert p.popped + p.queue + p.canceled == p.popped + p.canceled;
    assert p.canceled == (p.popped + p.canceled)[|p.popped|..];
  }

  // How many steps a worker still has to take once the pool is stopped.
  function StepsLeft(w: Worker): nat {
    match w case Exited => 0 case Busy(_) => 2 case _ => 1
  }

  function WorkLeft(workers: seq<Worker>): nat {
    if workers == [] then 0 else StepsLeft(workers[0]) + WorkLeft(workers[1..])
  }

  lemma {:induction false} WorkLeftFalls(workers: seq<Worker>, w: nat, s: Worker)
    requires w < |workers|
    ensures WorkLeft(workers[w := s]) == WorkLeft(workers) - StepsLeft(workers[w]) + StepsLeft(s)
  {
    if w == 0 {
      assert workers[w := s][1..] == workers[1..];
    } else {
      assert workers[w := s][1..] == workers[1..][w - 1 := s];
      WorkLeftFalls(workers[1..], w - 1, s);
    }
  }

  // Joining ends: each step of a worker brings the pool nearer to all workers having left, no other step
  // takes it further away, and until then some worker has a step to take.
  lemma StopEnds(run: seq<Pool>, events: seq<Event>, k: nat)
    requires IsRun(run, events) && k < |events| && run[k].stopped && !run[k].drained
    ensures var before, after := WorkLeft(run[k].workers), WorkLeft(run[k + 1].workers);
            if events[k].Enter? || events[k].Finish? then after < before else after == before
  {
    RunInv(run, events, k);
    var p, e := run[k], events[k];
    if e.Enter? || e.Finish? {
      WorkLeftFalls(p.workers, e.worker, if e.Enter? then Exited else Ready);
      assert |p.queue| >= |p.workers| > 0;
    }
  }

  lemma StoppedWorkersMove(run: seq<Pool>, events: seq<Event>, k: nat, w: nat)
    requires IsRun(run, events) && k < |run| && run[k].stopped
    requires w < |run[k].workers| && run[k].workers[w] != Exited
    ensures Enabled(run[k], Enter(w)) || Enabled(run[k], Finish(w))
  {
    RunInv(run, events, k);
  }
}
