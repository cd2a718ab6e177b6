/**
 Whole runs of the timer subsystem: what holds in every state that any interleaving of the threads' sections
 reaches.
 */
module TimerRuns {
  import opened ShardQueues
  import opened ShardViews
  import opened TimerProtocol
  import opened Times

  ghost predicate IsRun(run: seq<State>, events: seq<Event>) {
    && |run| == |events| + 1 && Init(run[0])
    && forall k | 0 <= k < |events| ::
         && Sized(run[k])
         && Enabled(run[k], events[k])
         && run[k + 1] == Apply(run[k], events[k])
  }

  lemma {:induction false} RunInv(run: seq<State>, events: seq<Event>, k: nat)
    requires IsRun(run, events) && k < |run|
    ensures Inv(run[k])
  {
    if k == 0 {
      InitInv(run[0]);
    } else {
      RunInv(run, events, k - 1);
      StepKeepsShape(run[k - 1], events[k - 1]);
      StepKeepsAccounts(run[k - 1], events[k - 1], run[k]);
      StepKeepsPosts(run[k - 1], events[k - 1], run[k]);
      StepKeepsCovered(run[k - 1], events[k - 1]);
      StepKeepsSleep(run[k - 1], events[k - 1]);
      StepKeepsRounds(run[k - 1], events[k - 1]);
      StepKeepsQueue(run[k - 1], events[k - 1]);
    }
  }

  // Whoever inserts, publishes or checks meanwhile, the queue holds every shard, in the order of their known
  // first deadlines, so the first one is a shard known to be due first.
  lemma QueueAlwaysSorted(run: seq<State>, events: seq<Event>, k: nat)
    requires IsRun(run, events) && k < |run|
    ensures var st := run[k];
            && Sized(st) && QueueSorted(st)
            && forall s | 0 <= s < NUM_SHARDS :: st.shards[st.queue[0]].minDeadline <= st.shards[s].minDeadline
  {
    RunInv(run, events, k);
    FirstIsLeast(run[k]);
  }

  // In every reachable state the known first deadline of a timer's shard is no later than the timer, or
  // some thread that inserted a first timer no later has still to publish it.
  lemma EveryTimerCovered(run: seq<State>, events: seq<Event>, k: nat, t: TimerId)
    requires IsRun(run, events) && k < |run| && t in run[k].current
    ensures var st, s := run[k], ShardOf(t);
            && s < |st.shards| && t in st.shards[s].view.pending
            && var d := st.shards[s].view.pending[t];
               d < INFINITE ==>
                 || st.shards[s].minDeadline <= d
                 || exists th :: th in st.inserting && Publishes(st.inserting[th], s, d)
  {
    RunInv(run, events, k);
    var st, s := run[k], ShardOf(t);
    assert ShardCovered(st, s, st.shards[s].minDeadline);
    assert st.shards[s].view.pending[t] < INFINITE ==>
             Covers(st, s, st.shards[s].minDeadline, st.shards[s].view.pending[t]);
  }

  // If the poll thread sleeps past the deadline of a pending timer and has not been woken, a thread is
  // still to publish a deadline no later than that timer's, and publishing it wakes the poll thread.
  lemma NoWakeupMissed(run: seq<State>, events: seq<Event>, k: nat, t: TimerId)
    requires IsRun(run, events) && k < |run| && t in run[k].current
    requires run[k].sleep.Until? && !run[k].sleep.woken
    ensures var st, s := run[k], ShardOf(t);
            && Sized(st) && t in st.shards[s].view.pending
            && var d := st.shards[s].view.pending[t];
               d < st.sleep.time ==>
                 exists th :: th in st.inserting && Publishes(st.inserting[th], s, d)
                              && (st.checker == Idle ==>
                                    Enabled(st, Publish(th)) && Apply(st, Publish(th)).sleep.woken)
  {
    RunInv(run, events, k);
    EveryTimerCovered(run, events, k, t);
    var st, s := run[k], ShardOf(t);
    var d := st.shards[s].view.pending[t];
    if d < st.sleep.time {
      var th :| th in st.inserting && Publishes(st.inserting[th], s, d);
      assert st.checker == Idle ==> Enabled(st, Publish(th)) && Apply(st, Publish(th)).sleep.woken;
    }
  }

  // With finite clock readings the capacity never moves, so no timer that will ever fire is in a list.
  lemma ListsHoldOnlyInfinite(run: seq<State>, events: seq<Event>, k: nat, s: nat)
    requires IsRun(run, events) && k < |run| && s < NUM_SHARDS
    ensures s < |run[k].shards|
    ensures var view := run[k].shards[s].view;
            view.capacity == INFINITE && forall t | t in view.pending :: t in view.Urgent() || view.pending[t] == INFINITE
  {
    RunInv(run, events, k);
  }

  // Whatever other threads insert meanwhile, a check pops at most as many shards as there are.
  lemma ChecksEnd(run: seq<State>, events: seq<Event>, k: nat)
    requires IsRun(run, events) && k < |run| && run[k].checker != Idle
    ensures run[k].checker.rounds <= NUM_SHARDS
    ensures run[k].checker.Popped? ==> run[k].checker.rounds < NUM_SHARDS
  {
    RunInv(run, events, k);
    if run[k].checker.Popped? {
      assert |Overdue(run[k], run[k].checker.now)| > 0;
    }
  }

  // A check never gets stuck: while one is under way, one of its three steps is enabled.
  lemma ChecksProceed(run: seq<State>, events: seq<Event>, k: nat)
    requires IsRun(run, events) && k < |run| && run[k].checker != Idle
    ensures Sized(run[k])
    ensures exists e :: Enabled(run[k], e) && (e.PopShard? || e.StoreMin? || e.EndCheck?)
  {
    RunInv(run, events, k);
    var st, now := run[k], run[k].checker.now;
    if st.checker.Popped? {
      assert Enabled(st, StoreMin);
    } else {
      var s := st.queue[0];
      if now < st.shards[s].minDeadline {
        assert Enabled(st, EndCheck);
      } else {
        var view := st.shards[s].view;
        var fired := view.SomeOrder(now);
        var after := ShardView(view.pending - view.Due(now), INFINITE);
        var newMin := after.SomeMin();
        forall i | 0 <= i < |fired|
          ensures fired[i] in st.current
        {
          assert fired[i] in view.pending;
        }
        assert Enabled(st, PopShard(s, fired, after, newMin));
      }
    }
  }

  // The posts of start i.
  ghost function TimesPosted(st: State, i: nat): nat {
    multiset(st.posts)[i]
  }

  lemma {:induction false} DistinctCount(s: seq<nat>, x: nat)
    requires forall j, k | 0 <= j < k < |s| :: s[j] != s[k]
    ensures multiset(s)[x] == if x in s then 1 else 0
  {
    if s == [] {
    } else {
      var n := |s| - 1;
      DistinctCount(s[..n], x);
      assert s == s[..n] + [s[n]];
    }
  }

  // Every start is in exactly one of three states: still pending, posted exactly once and not before its
  // deadline, or cancelled and never posted.
  lemma StartsAccountedFor(run: seq<State>, events: seq<Event>, k: nat, i: nat)
    requires IsRun(run, events) && k < |run| && i < |run[k].starts|
    ensures var st := run[k];
            var start := st.starts[i];
            match start.outcome
            case Pending => start.timer in st.current && st.current[start.timer] == i && TimesPosted(st, i) == 0
            case Posted(at) =>
              start.deadline <= at && TimesPosted(st, i) == 1
              && (start.timer in st.current ==> st.current[start.timer] != i)
            case Cancelled =>
              TimesPosted(st, i) == 0 && (start.timer in st.current ==> st.current[start.timer] != i)
  {
    RunInv(run, events, k);
    DistinctCount(run[k].posts, i);
  }

  // Once posted or cancelled, a start stays so: a timer cancelled while pending is never posted for that start.
  lemma {:induction false} OutcomesAreFinal(run: seq<State>, events: seq<Event>, j: nat, k: nat, i: nat)
    requires IsRun(run, events) && j <= k < |run| && i < |run[j].starts|
    ensures i < |run[k].starts|
    ensures run[k].starts[i].timer == run[j].starts[i].timer && run[k].starts[i].deadline == run[j].starts[i].deadline
    ensures run[j].starts[i].outcome != Pending ==> run[k].starts[i].outcome == run[j].starts[i].outcome
  {
    if j < k {
      OutcomesAreFinal(run, events, j, k - 1, i);
      RunInv(run, events, k - 1);
      OutcomeKept(run[k - 1], events[k - 1], i);
    }
  }

  // ---------- What each section does ----------

  // A started timer is pending from then on, in the shard its hash selects, and its start has an entry of its own.
  lemma InsertTakesEffect(run: seq<State>, events: seq<Event>, k: nat)
    requires IsRun(run, events) && k < |events| && events[k].Insert?
    ensures var st, st', t := run[k], run[k + 1], events[k].timer;
            && t in st'.current && st'.current[t] == |st.starts|
            && st'.starts == st.starts + [Start(t, events[k].deadline, Pending)]
            && st'.shards[ShardOf(t)].view.pending == st.shards[ShardOf(t)].view.pending[t := events[k].deadline]
            && events[k].thread in st'.inserting && st'.checker == st.checker
  {
  }

  // A cancelled timer is pending no more, and the start it was pending for is settled; a timer that is not
  // pending is left alone.
  lemma CancelTakesEffect(run: seq<State>, events: seq<Event>, k: nat, t: TimerId)
    requires IsRun(run, events) && k < |events| && events[k] == Cancel(t)
    ensures t !in run[k].current ==> run[k + 1] == run[k]
    ensures t in run[k].current ==>
              var st', i := run[k + 1], run[k].current[t];
              && t !in st'.current && t !in st'.shards[ShardOf(t)].view.pending
              && i < |st'.starts| && st'.starts[i].timer == t && st'.starts[i].outcome == Cancelled
  {
    RunInv(run, events, k);
  }

  // A start that was cancelled while its timer was pending is never posted, before or after.
  lemma CancelledIsNeverPosted(run: seq<State>, events: seq<Event>, k: nat, t: TimerId, m: nat)
    requires IsRun(run, events) && k < m < |run| && events[k] == Cancel(t) && t in run[k].current
    ensures run[k].current[t] !in run[m].posts
  {
    var i := run[k].current[t];
    CancelTakesEffect(run, events, k, t);
    OutcomesAreFinal(run, events, k + 1, m, i);
    RunInv(run, events, m);
  }

  // Publishing stores an earlier first deadline, and then, and only then, wakes a poll thread that sleeps.
  lemma PublishTakesEffect(run: seq<State>, events: seq<Event>, k: nat, th: ThreadId)
    requires IsRun(run, events) && k < |events| && events[k] == Publish(th)
    ensures th in run[k].inserting && run[k].inserting[th].shard < NUM_SHARDS
    ensures var st, st', p := run[k], run[k + 1], run[k].inserting[th];
            && st'.inserting == st.inserting - {th}
            && (forall s | 0 <= s < NUM_SHARDS ::
                  st'.shards[s].view == st.shards[s].view
                  && st'.shards[s].minDeadline ==
                     if s == p.shard && p.isFirst && p.deadline < st.shards[s].minDeadline then p.deadline
                     else st.shards[s].minDeadline)
            && st'.sleep ==
               if p.isFirst && p.deadline < st.shards[p.shard].minDeadline && st.sleep.Until? then Until(st.sleep.time, true)
               else st.sleep
  {
  }

  lemma BeginTakesEffect(run: seq<State>, events: seq<Event>, k: nat)
    requires IsRun(run, events) && k < |events| && events[k].BeginCheck?
    ensures run[k + 1].checker == Checking(events[k].now, 0) && run[k + 1].shards == run[k].shards
  {
  }

  // A check tells the poll thread to sleep exactly until the least of the known first deadlines.
  lemma SleepIsLeast(run: seq<State>, events: seq<Event>, k: nat)
    requires IsRun(run, events) && k < |events| && events[k] == EndCheck
    ensures var st := run[k + 1];
            && st.checker == Idle && st.sleep.Until? && !st.sleep.woken
            && (forall s | 0 <= s < NUM_SHARDS :: st.sleep.time <= st.shards[s].minDeadline)
            && exists s :: 0 <= s < NUM_SHARDS && st.sleep.time == st.shards[s].minDeadline
  {
    RunInv(run, events, k);
    FirstIsLeast(run[k]);
    assert run[k + 1].sleep.time == run[k + 1].shards[run[k].queue[0]].minDeadline;
  }

  // ---------- A check posts what is due ----------

  // Start i of timer t was to be fired by a check at this time: it has been settled, or its turn is still to come.
  ghost predicate InHand(st: State, i: nat, t: TimerId, now: Time)
    requires Sized(st)
  {
    && i < |st.starts| && st.starts[i].timer == t && st.starts[i].deadline <= now
    && match st.starts[i].outcome
       case Pending =>
         && st.checker != Idle && st.checker.now == now
         && st.shards[ShardOf(t)].minDeadline <= now
         && (st.checker.Popped? ==> st.checker.shard != ShardOf(t))
       case Posted(at) => at == now
       case Cancelled => true
  }

  lemma StepKeepsInHand(st: State, e: Event, st': State, i: nat, t: TimerId, now: Time)
    requires Inv(st) && Enabled(st, e) && st' == Apply(st, e) && InHand(st, i, t, now)
    requires st.checker != Idle && st.checker.now == now && e != EndCheck
    ensures InHand(st', i, t, now) && st'.checker != Idle && st'.checker.now == now
  {
    OutcomeKept(st, e, i);
    if st.starts[i].outcome == Pending {
      match e
      case PopShard(_, _, _, _) => PopKeepsInHand(st, e, i, t, now);
      case Insert(_, _, _) =>
      case Cancel(_) =>
      case StoreMin =>
    }
  }

  // Popping the timer's shard posts it.
  lemma PopKeepsInHand(st: State, e: Event, i: nat, t: TimerId, now: Time)
    requires Inv(st) && Enabled(st, e) && e.PopShard? && InHand(st, i, t, now) && st.starts[i].outcome == Pending
    ensures InHand(ShardPopped(st, e.shard, e.fired, e.after, e.newMin), i, t, now)
  {
    FiredStarts(st, e);
    assert t in st.current && st.current[t] == i;
    if e.shard == ShardOf(t) {
      assert t in st.shards[e.shard].view.Due(now);
      assert t in e.fired;
    }
  }

  // The check that begins at step j is still under way in state k.
  ghost predicate CheckLasts(run: seq<State>, events: seq<Event>, j: nat, k: nat)
    requires |run| == |events| + 1
  {
    j < k < |run| && events[j].BeginCheck? && forall m | j < m < k :: events[m] != EndCheck
  }

  // Start i of timer t is due, and its shard is known to be due.
  ghost predicate KnownDue(st: State, i: nat, t: TimerId, now: Time) {
    && Sized(st) && t in st.current && st.current[t] == i && i < |st.starts|
    && st.starts[i].deadline <= now && st.shards[ShardOf(t)].minDeadline <= now
  }

  lemma BeginTakesInHand(st: State, e: Event, st': State, i: nat, t: TimerId)
    requires Inv(st) && Enabled(st, e) && e.BeginCheck? && st' == Apply(st, e) && KnownDue(st, i, t, e.now)
    ensures Sized(st') && InHand(st', i, t, e.now) && st'.checker != Idle && st'.checker.now == e.now
  {
  }

  lemma {:induction false} StaysInHand(run: seq<State>, events: seq<Event>, j: nat, k: nat, t: TimerId, i: nat, now: Time)
    requires IsRun(run, events) && CheckLasts(run, events, j, k) && events[j].now == now && KnownDue(run[j], i, t, now)
    ensures Sized(run[k]) && InHand(run[k], i, t, now) && run[k].checker != Idle && run[k].checker.now == now
  {
    var m := k - 1;
    RunStep(run, events, m);
    if m == j {
      BeginTakesInHand(run[m], events[m], run[k], i, t);
    } else {
      StaysInHand(run, events, j, m, t, i, now);
      assert events[m] != EndCheck;
      StepKeepsInHand(run[m], events[m], run[k], i, t, now);
    }
  }

  lemma RunStep(run: seq<State>, events: seq<Event>, k: nat)
    requires IsRun(run, events) && k < |events|
    ensures Inv(run[k]) && Enabled(run[k], events[k]) && run[k + 1] == Apply(run[k], events[k])
  {
    RunInv(run, events, k);
  }

  lemma CheckedIsSettled(run: seq<State>, events: seq<Event>, j: nat, k: nat, t: TimerId, i: nat, now: Time)
    requires IsRun(run, events) && CheckLasts(run, events, j, k) && k < |events| && events[k] == EndCheck
    requires events[j].now == now && KnownDue(run[j], i, t, now)
    ensures i < |run[k].starts| && (run[k].starts[i].outcome == Posted(now) || run[k].starts[i].outcome == Cancelled)
  {
    StaysInHand(run, events, j, k, t, i, now);
    RunInv(run, events, k);
    FirstIsLeast(run[k]);
  }

  // Whatever is started and cancelled meanwhile, a check posts every timer that is pending and due when it
  // begins, unless the timer is cancelled first or a thread had still to publish a deadline no later in its shard.
  lemma CheckPostsTheDue(run: seq<State>, events: seq<Event>, j: nat, k: nat, t: TimerId)
    requires IsRun(run, events) && CheckLasts(run, events, j, k) && k < |events| && events[k] == EndCheck
    requires t in run[j].current
    ensures var st, i, now := run[j], run[j].current[t], events[j].now;
            && i < |st.starts|
            && (st.starts[i].deadline <= now ==>
                  || (i < |run[k].starts| && run[k].starts[i].outcome == Posted(now))
                  || (i < |run[k].starts| && run[k].starts[i].outcome == Cancelled)
                  || exists th :: th in st.inserting && Publishes(st.inserting[th], ShardOf(t), st.starts[i].deadline))
  {
    RunInv(run, events, j);
    EveryTimerCovered(run, events, j, t);
    var i, now := run[j].current[t], events[j].now;
    if KnownDue(run[j], i, t, now) {
      CheckedIsSettled(run, events, j, k, t, i, now);
    }
  }
}
