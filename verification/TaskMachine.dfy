/**
 One task run, cancelled and waited for by any number of threads.

 Every atomic operation of `Run`, `CancelTask` and `WaitIfRunning` is one step of one thread.  A thread
 may cancel the task or wait for it from inside the task's own functor.
 */
module TaskMachine {
  type ThreadId = nat

  datatype TaskState = Pending | Running | Canceled | Completed

  // Where a thread is in Run: before the named operation, or in the functor.
  datatype RunPoint = NotRunning | StoresRunner | CallsFunctor | InFunctor | StoresCompleted | Notifies | ClearsRunner

  // Where a thread is in CancelTask or WaitIfRunning.
  datatype CallPoint =
    | NoCall
    | CancelLoads | CancelSwaps(loaded: TaskState)
    | WaitLoadsRunner | WaitLoadsState | Blocked

  datatype Local = Local(run: RunPoint, call: CallPoint)

  datatype Task = Task(
    hasFunctor: bool,
    state: TaskState,
    runner: set<ThreadId>, // the thread stored as the runner, or none
    notified: bool,
    threads: map<ThreadId, Local>,
    // What has happened so far.
    claimers: seq<ThreadId>, // whose compare-and-swap from Pending to Running succeeded
    functorCalls: nat,
    notifications: nat,
    cancelCalls: nat,
    canceledFrom: seq<TaskState>, // the states that compare-and-swaps took to Canceled
    failedSwaps: nat, // of those compare-and-swaps
    notReached: nat) // times the branch that should not be reached was

  datatype Action =
    | Claim | StoreRunner | CallFunctor | LeaveFunctor | StoreCompleted | Notify | ClearRunner
    | CallCancel | LoadForCancel | SwapToCanceled
    | CallWait | LoadRunner | LoadState | Wake

  datatype Event = Event(thread: ThreadId, action: Action)

  function At(st: Task, th: ThreadId): Local {
    if th in st.threads then st.threads[th] else Local(NotRunning, NoCall)
  }

  predicate Init(st: Task) {
    st == Task(st.hasFunctor, Pending, {}, false, map[], [], 0, 0, 0, [], 0, 0)
  }

  // A thread calls the task only from outside Run, or from the functor.
  predicate MayCall(l: Local) {
    l.call == NoCall && (l.run == NotRunning || l.run == InFunctor)
  }

  predicate Enabled(st: Task, e: Event) {
    var l := At(st, e.thread);
    match e.action
    case Claim => l == Local(NotRunning, NoCall)
    case StoreRunner => l.run == StoresRunner
    case CallFunctor => l.run == CallsFunctor
    case LeaveFunctor => l == Local(InFunctor, NoCall)
    case StoreCompleted => l.run == StoresCompleted
    case Notify => l.run == Notifies
    case ClearRunner => l.run == ClearsRunner
    case CallCancel => MayCall(l)
    case LoadForCancel => l.call == CancelLoads
    case SwapToCanceled => l.call.CancelSwaps?
    case CallWait => MayCall(l)
    case LoadRunner => l.call == WaitLoadsRunner
    case LoadState => l.call == WaitLoadsState
    case Wake => l.call == Blocked && st.notified
  }

  function GoesTo(st: Task, th: ThreadId, run: RunPoint): Task {
    st.(threads := st.threads[th := At(st, th).(run := run)])
  }

  function Calls(st: Task, th: ThreadId, call: CallPoint): Task {
    st.(threads := st.threads[th := At(st, th).(call := call)])
  }

  function Swap(st: Task, th: ThreadId, loaded: TaskState): Task {
    if loaded == Completed then
      Calls(st, th, NoCall)
    else if loaded == Canceled then
      Calls(st, th, CancelLoads).(notReached := st.notReached + 1)
    else if st.state == loaded then
      Calls(st, th, NoCall).(state := Canceled, canceledFrom := st.canceledFrom + [loaded])
    else
      Calls(st, th, CancelLoads).(failedSwaps := st.failedSwaps + 1)
  }

  function Apply(st: Task, e: Event): Task
    requires Enabled(st, e)
  {
    var th, l := e.thread, At(st, e.thread);
    match e.action
    case Claim =>
      if st.state != Pending then st else
      GoesTo(st, th, StoresRunner).(state := Running, claimers := st.claimers + [th])
    case StoreRunner => GoesTo(st, th, CallsFunctor).(runner := {th})
    case CallFunctor =>
      if st.hasFunctor then GoesTo(st, th, InFunctor).(functorCalls := st.functorCalls + 1)
      else GoesTo(st, th, StoresCompleted)
    case LeaveFunctor => GoesTo(st, th, StoresCompleted)
    case StoreCompleted => GoesTo(st, th, Notifies).(state := Completed)
    case Notify => GoesTo(st, th, ClearsRunner).(notified := true, notifications := st.notifications + 1)
    case ClearRunner => GoesTo(st, th, NotRunning).(runner := {})
    case CallCancel => Calls(st, th, CancelLoads).(cancelCalls := st.cancelCalls + 1)
    case LoadForCancel => Calls(st, th, CancelSwaps(st.state))
    case SwapToCanceled => Swap(st, th, l.call.loaded)
    case CallWait => Calls(st, th, WaitLoadsRunner)
    case LoadRunner => Calls(st, th, if th in st.runner then NoCall else WaitLoadsState)
    case LoadState => Calls(st, th, if st.state == Running then Blocked else NoCall)
    case Wake => Calls(st, th, NoCall)
  }

  // ---------- What every step keeps ----------

  predicate InCancel(l: Local) {
    l.call == CancelLoads || l.call.CancelSwaps?
  }

  // Before anyone claims the task it is untouched but for a cancel.
  ghost predicate Unclaimed(st: Task) {
    && st.claimers == []
    && (forall th :: At(st, th).run == NotRunning && At(st, th).call != Blocked)
    && st.functorCalls == st.notifications == 0 && !st.notified && st.runner == {}
    && st.state == (if st.canceledFrom == [] then Pending else Canceled)
    && (st.canceledFrom == [] || st.canceledFrom == [Pending])
  }

  // One thread has claimed it, and where that thread is tells everything.
  ghost predicate Claimed(st: Task) {
    && |st.claimers| == 1
    && var w := st.claimers[0];
       var run := At(st, w).run;
       var over := run == ClearsRunner || run == NotRunning;
       && (forall th :: th != w ==> At(st, th).run == NotRunning)
       && (run != NotRunning && run != InFunctor ==> At(st, w).call == NoCall)
       && st.runner == (if run == StoresRunner || run == NotRunning then {} else {w})
       && st.notified == over
       && st.notifications == (if over then 1 else 0)
       && st.functorCalls == (if st.hasFunctor && run != StoresRunner && run != CallsFunctor then 1 else 0)
       && (if over || run == Notifies then st.state == Completed
           else st.state == (if st.canceledFrom == [] then Running else Canceled))
       && (st.canceledFrom == [] || st.canceledFrom == [Running])
  }

  // A thread in the functor never waits for the task.
  predicate CallSound(l: Local) {
    l.run == InFunctor ==> l.call != Blocked && l.call != WaitLoadsState
  }

  ghost predicate CallsSound(st: Task) {
    forall th :: CallSound(At(st, th))
  }

  // How far the state is along the way a task takes when nobody cancels it.
  function Rank(s: TaskState): nat {
    match s case Pending => 0 case Running => 1 case Canceled => 0 case Completed => 2
  }

  ghost predicate NoneCancels(st: Task) {
    forall th :: !InCancel(At(st, th))
  }

  // At most one cancel call since `base`: there is one thread in it, it still finds the task as no cancel
  // left it, and each of its failed swaps is due to progress of the run.
  ghost predicate SingleCancel(base: Task, st: Task) {
    && base.cancelCalls <= st.cancelCalls && base.failedSwaps <= st.failedSwaps
    && (st.cancelCalls <= base.cancelCalls + 1 ==>
          && st.notReached == base.notReached && st.failedSwaps <= base.failedSwaps + 2
          && (st.cancelCalls == base.cancelCalls ==>
                NoneCancels(st) && st.state != Canceled && st.failedSwaps == base.failedSwaps)
          && (forall th, th' :: InCancel(At(st, th)) && InCancel(At(st, th')) ==> th == th')
          && (forall th :: InCancel(At(st, th)) ==> CancelOnTrack(base, st, At(st, th).call)))
  }

  predicate CancelOnTrack(base: Task, st: Task, call: CallPoint) {
    && st.state != Canceled
    && st.failedSwaps - base.failedSwaps <= Rank(st.state)
    && (call.CancelSwaps? ==>
          call.loaded != Canceled && st.failedSwaps - base.failedSwaps <= Rank(call.loaded) <= Rank(st.state))
  }

  // A cancel that loaded Completed was right for good.
  ghost predicate LoadedSound(st: Task) {
    forall th :: At(st, th).call == CancelSwaps(Completed) ==> st.state == Completed
  }

  ghost predicate Inv(st: Task) {
    (Unclaimed(st) || Claimed(st)) && CallsSound(st) && LoadedSound(st)
  }

  predicate OfRun(a: Action) {
    a in {Claim, StoreRunner, CallFunctor, LeaveFunctor, StoreCompleted, Notify, ClearRunner}
  }

  lemma OnlyOneMoves(st: Task, e: Event)
    requires Enabled(st, e)
    ensures forall th :: th != e.thread ==> At(Apply(st, e), th) == At(st, th)
  {
  }

  lemma ClaimKeepsClaim(st: Task, e: Event)
    requires Unclaimed(st) && Enabled(st, e) && OfRun(e.action)
    ensures Unclaimed(Apply(st, e)) || Claimed(Apply(st, e))
  {
    OnlyOneMoves(st, e);
    assert e.action == Claim;
  }

  lemma RunKeepsClaim(st: Task, e: Event)
    requires Claimed(st) && Enabled(st, e) && OfRun(e.action)
    ensures Claimed(Apply(st, e))
  {
    OnlyOneMoves(st, e);
    if e.action != Claim {
      assert e.thread == st.claimers[0];
    }
  }

  // A swap succeeds only from the state the task is in.
  lemma SwapKeepsUnclaimed(st: Task, e: Event)
    requires Unclaimed(st) && Enabled(st, e) && e.action == SwapToCanceled
    ensures Unclaimed(Apply(st, e))
  {
    OnlyOneMoves(st, e);
  }

  lemma SwapKeepsClaimed(st: Task, e: Event)
    requires Claimed(st) && Enabled(st, e) && e.action == SwapToCanceled
    ensures Claimed(Apply(st, e))
  {
    OnlyOneMoves(st, e);
    SwapIsCall(st, e);
    if Apply(st, e).canceledFrom == st.canceledFrom {
      SameClaimed(st, Apply(st, e));
    } else {
      NowCanceled(st, Apply(st, e));
    }
  }

  // A swap moves no thread in Run, and changes the state only to Canceled.
  lemma SwapIsCall(st: Task, e: Event)
    requires Enabled(st, e) && e.action == SwapToCanceled
    ensures var st' := Apply(st, e);
            && At(st', e.thread).run == At(st, e.thread).run && SameRun(st, st')
            && At(st, e.thread).call != NoCall
            && (if st'.canceledFrom == st.canceledFrom then st'.state == st.state
                else (st.state == Pending || st.state == Running)
                     && st'.state == Canceled && st'.canceledFrom == st.canceledFrom + [st.state])
  {
  }

  predicate SameRun(st: Task, st': Task) {
    && st'.hasFunctor == st.hasFunctor && st'.claimers == st.claimers && st'.runner == st.runner
    && st'.notified == st.notified && st'.notifications == st.notifications && st'.functorCalls == st.functorCalls
  }

  lemma SameClaimed(st: Task, st': Task)
    requires Claimed(st) && SameRun(st, st') && st'.state == st.state && st'.canceledFrom == st.canceledFrom
    requires forall th :: At(st', th).run == At(st, th).run && (At(st, th).call == NoCall ==> At(st', th).call == NoCall)
    ensures Claimed(st')
  {
  }

  lemma NowCanceled(st: Task, st': Task)
    requires Claimed(st) && SameRun(st, st') && (st.state == Pending || st.state == Running)
    requires st'.state == Canceled && st'.canceledFrom == st.canceledFrom + [st.state]
    requires forall th :: At(st', th).run == At(st, th).run && (At(st, th).call == NoCall ==> At(st', th).call == NoCall)
    ensures Claimed(st')
  {
  }

  lemma CallKeepsClaim(st: Task, e: Event)
    requires (Unclaimed(st) || Claimed(st)) && Enabled(st, e) && !OfRun(e.action) && e.action != SwapToCanceled
    ensures Unclaimed(Apply(st, e)) || Claimed(Apply(st, e))
  {
    OnlyOneMoves(st, e);
    if Claimed(st) {
      assert Claimed(Apply(st, e));
    } else {
      assert Unclaimed(Apply(st, e));
    }
  }

  lemma StepKeepsClaim(st: Task, e: Event)
    requires (Unclaimed(st) || Claimed(st)) && Enabled(st, e)
    ensures Unclaimed(Apply(st, e)) || Claimed(Apply(st, e))
  {
    if e.action == SwapToCanceled {
      if Claimed(st) {
        SwapKeepsClaimed(st, e);
      } else {
        SwapKeepsUnclaimed(st, e);
      }
    } else if !OfRun(e.action) {
      CallKeepsClaim(st, e);
    } else if Claimed(st) {
      RunKeepsClaim(st, e);
    } else {
      ClaimKeepsClaim(st, e);
    }
  }

  lemma OwnCallSound(st: Task, e: Event)
    requires CallSound(At(st, e.thread)) && Enabled(st, e)
    requires At(st, e.thread).run == InFunctor ==> e.thread in st.runner
    requires At(st, e.thread).run == CallsFunctor ==> At(st, e.thread).call == NoCall
    ensures CallSound(At(Apply(st, e), e.thread))
  {
  }

  lemma StepKeepsCalls(st: Task, e: Event)
    requires (Unclaimed(st) || Claimed(st)) && CallsSound(st) && Enabled(st, e)
    ensures CallsSound(Apply(st, e))
  {
    OnlyOneMoves(st, e);
    assert CallSound(At(st, e.thread));
    OwnCallSound(st, e);
    forall th
      ensures CallSound(At(Apply(st, e), th))
    {
      assert CallSound(At(st, th));
    }
  }

  lemma StepKeepsLoaded(st: Task, e: Event)
    requires (Unclaimed(st) || Claimed(st)) && LoadedSound(st) && Enabled(st, e)
    ensures LoadedSound(Apply(st, e))
  {
    OnlyOneMoves(st, e);
    StepSettles(st, e);
    LoadsWhatIs(st, e);
    forall th | At(Apply(st, e), th).call == CancelSwaps(Completed)
      ensures Apply(st, e).state == Completed
    {
      assert At(st, th).call == CancelSwaps(Completed) ==> st.state == Completed;
    }
  }

  lemma LoadsWhatIs(st: Task, e: Event)
    requires Enabled(st, e)
    ensures At(Apply(st, e), e.thread).call == CancelSwaps(Completed) ==>
              At(st, e.thread).call == CancelSwaps(Completed) || st.state == Completed
  {
  }

  lemma HistoryGrows(st: Task, e: Event)
    requires Enabled(st, e)
    ensures Apply(st, e).cancelCalls == st.cancelCalls + if e.action == CallCancel then 1 else 0
    ensures Apply(st, e).failedSwaps >= st.failedSwaps
  {
  }

  lemma NothingForgotten(st: Task, e: Event)
    requires Enabled(st, e)
    ensures Apply(st, e).claimers == [] ==> st.claimers == []
    ensures Apply(st, e).canceledFrom == [] ==> st.canceledFrom == []
  {
  }

  // Only a swap cancels or fails.
  lemma NoSwapNoCancel(st: Task, e: Event)
    requires Enabled(st, e) && e.action != SwapToCanceled
    ensures var st' := Apply(st, e);
            && st'.notReached == st.notReached && st'.failedSwaps == st.failedSwaps
            && (st.state != Canceled ==> st'.state != Canceled)
  {
  }

  // The run only moves the state forward.
  lemma RunMovesForward(st: Task, e: Event)
    requires (Unclaimed(st) || Claimed(st)) && Enabled(st, e) && e.action != SwapToCanceled
    requires st.state != Canceled
    ensures Rank(st.state) <= Rank(Apply(st, e).state)
  {
  }

  // A swap that fails was overtaken by the run, which moved the state forward.
  lemma OwnCancelOnTrack(base: Task, st: Task, e: Event)
    requires Enabled(st, e) && CancelOnTrack(base, st, At(st, e.thread).call)
    requires e.action == LoadForCancel || e.action == SwapToCanceled
    ensures var st' := Apply(st, e);
            && st'.notReached == st.notReached && st'.failedSwaps - base.failedSwaps <= 2
            && (InCancel(At(st', e.thread)) ==> CancelOnTrack(base, st', At(st', e.thread).call))
  {
  }

  lemma StepKeepsSingleCancel(base: Task, st: Task, e: Event)
    requires (Unclaimed(st) || Claimed(st)) && SingleCancel(base, st) && Enabled(st, e)
    ensures SingleCancel(base, Apply(st, e))
  {
    OnlyOneMoves(st, e);
    HistoryGrows(st, e);
    EntersByCalling(st, e);
    if Apply(st, e).cancelCalls <= base.cancelCalls + 1 {
      if e.action == LoadForCancel || e.action == SwapToCanceled {
        OwnCancelOnTrack(base, st, e);
      } else {
        OtherKeepsTrack(base, st, e);
      }
    }
  }

  lemma EntersByCalling(st: Task, e: Event)
    requires Enabled(st, e)
    ensures InCancel(At(Apply(st, e), e.thread)) ==> InCancel(At(st, e.thread)) || e.action == CallCancel
  {
  }

  lemma OtherKeepsTrack(base: Task, st: Task, e: Event)
    requires (Unclaimed(st) || Claimed(st)) && SingleCancel(base, st) && Enabled(st, e)
    requires Apply(st, e).cancelCalls <= base.cancelCalls + 1 && e.action != LoadForCancel && e.action != SwapToCanceled
    ensures var st' := Apply(st, e);
            && st'.notReached == st.notReached && st'.failedSwaps == st.failedSwaps
            && (st.state != Canceled ==> st'.state != Canceled)
            && forall th :: InCancel(At(st', th)) ==> CancelOnTrack(base, st', At(st', th).call)
  {
    OnlyOneMoves(st, e);
    HistoryGrows(st, e);
    NoSwapNoCancel(st, e);
    var st' := Apply(st, e);
    forall th | InCancel(At(st', th))
      ensures CancelOnTrack(base, st', At(st', th).call)
    {
      RunMovesForward(st, e);
      if e.action != CallCancel {
        assert At(st', th).call == At(st, th).call;
      }
    }
  }

  // ---------- Whole runs ----------

  ghost predicate IsPath(path: seq<Task>, events: seq<Event>) {
    && |path| == |events| + 1
    && forall k | 0 <= k < |events| :: Enabled(path[k], events[k]) && path[k + 1] == Apply(path[k], events[k])
  }

  ghost predicate IsRun(run: seq<Task>, events: seq<Event>) {
    IsPath(run, events) && Init(run[0])
  }

  lemma {:induction false} RunInv(run: seq<Task>, events: seq<Event>, k: nat)
    requires IsRun(run, events) && k < |run|
    ensures Inv(run[k])
  {
    PathInv(run, events, k);
  }

  lemma {:induction false} PathInv(path: seq<Task>, events: seq<Event>, k: nat)
    requires IsPath(path, events) && Inv(path[0]) && k < |path|
    ensures Inv(path[k])
  {
    if k > 0 {
      PathInv(path, events, k - 1);
      StepKeepsClaim(path[k - 1], events[k - 1]);
      StepKeepsCalls(path[k - 1], events[k - 1]);
      StepKeepsLoaded(path[k - 1], events[k - 1]);
    }
  }

  lemma {:induction false} PathCancelsOnce(path: seq<Task>, events: seq<Event>, k: nat)
    requires IsPath(path, events) && Inv(path[0]) && k < |path|
    requires NoneCancels(path[0]) && path[0].state != Canceled
    ensures SingleCancel(path[0], path[k])
  {
    if k > 0 {
      PathCancelsOnce(path, events, k - 1);
      PathInv(path, events, k - 1);
      StepKeepsSingleCancel(path[0], path[k - 1], events[k - 1]);
    }
  }

  // The functor is called at most once, and so is Notify; a run that is over called the functor, if any.
  lemma AtMostOnce(run: seq<Task>, events: seq<Event>, k: nat)
    requires IsRun(run, events) && k < |run|
    ensures run[k].functorCalls <= 1 && run[k].notifications <= 1
    ensures run[k].notified <==> run[k].notifications == 1
    ensures run[k].notified ==> run[k].state == Completed && run[k].functorCalls == if run[k].hasFunctor then 1 else 0
  {
    RunInv(run, events, k);
  }

  // What a state says for good: Completed stays, and a task cancelled while pending never runs.
  ghost predicate Settles(st: Task, later: Task) {
    && st.hasFunctor == later.hasFunctor
    && (st.state == Completed ==> later.state == Completed)
    && (st.notified ==> later.notified)
    && (Pending in st.canceledFrom ==>
          later.canceledFrom == st.canceledFrom && later.state == Canceled && later.functorCalls == 0)
  }

  lemma {:induction false} StatesSettle(run: seq<Task>, events: seq<Event>, j: nat, k: nat)
    requires IsRun(run, events) && j <= k < |run|
    ensures Settles(run[j], run[k])
  {
    if j == k {
      RunInv(run, events, k);
      SettlesSelf(run[k]);
    } else {
      StatesSettle(run, events, j, k - 1);
      RunInv(run, events, k - 1);
      StepSettles(run[k - 1], events[k - 1]);
      SettlesOn(run[j], run[k - 1], run[k]);
    }
  }

  lemma SettlesSelf(st: Task)
    requires Unclaimed(st) || Claimed(st)
    ensures Settles(st, st)
  {
  }

  lemma SettlesOn(st: Task, st': Task, st'': Task)
    requires Settles(st, st') && Settles(st', st'')
    ensures Settles(st, st'')
  {
  }

  lemma StepSettles(st: Task, e: Event)
    requires (Unclaimed(st) || Claimed(st)) && Enabled(st, e)
    ensures Settles(st, Apply(st, e))
  {
    if Unclaimed(st) {
      UnclaimedSettles(st, e);
    } else {
      ClaimedSettles(st, e);
    }
  }

  lemma UnclaimedSettles(st: Task, e: Event)
    requires Unclaimed(st) && Enabled(st, e)
    ensures Settles(st, Apply(st, e))
  {
  }

  lemma ClaimedSettles(st: Task, e: Event)
    requires Claimed(st) && Enabled(st, e)
    ensures Settles(st, Apply(st, e))
  {
  }

  // A thread blocked in WaitIfRunning is not the runner, and it waits for a notification that has been
  // made or that another thread is on its way to: that thread is between its claim and Notify, it is not
  // blocked itself, and it can take its next step.
  lemma BlockedWaitsForAnother(run: seq<Task>, events: seq<Event>, k: nat, th: ThreadId)
    requires IsRun(run, events) && k < |run| && At(run[k], th).call == Blocked
    ensures At(run[k], th).run == NotRunning && th !in run[k].runner
    ensures run[k].notified || exists w ::
              && w != th && At(run[k], w).run != NotRunning && At(run[k], w).run != ClearsRunner
              && At(run[k], w).call != Blocked
              && exists a :: Enabled(run[k], Event(w, a))
  {
    RunInv(run, events, k);
    var st := run[k];
    assert st.threads[th].call == Blocked;
    var w := st.claimers[0];
    assert At(st, th).run == NotRunning;
    if !st.notified {
      var a := NextAction(st, w);
      assert Enabled(st, Event(w, a));
    }
  }

  // The next operation of a thread that is in the middle of something and not blocked.
  function NextAction(st: Task, w: ThreadId): (a: Action)
    requires At(st, w).run != NotRunning && At(st, w).call != Blocked
    requires At(st, w).run != InFunctor ==> At(st, w).call == NoCall
    ensures Enabled(st, Event(w, a))
  {
    var l := At(st, w);
    match l.call
    case CancelLoads => LoadForCancel
    case CancelSwaps(_) => SwapToCanceled
    case WaitLoadsRunner => LoadRunner
    case WaitLoadsState => LoadState
    case _ =>
      match l.run
      case StoresRunner => StoreRunner
      case CallsFunctor => CallFunctor
      case InFunctor => LeaveFunctor
      case StoresCompleted => StoreCompleted
      case Notifies => Notify
      case _ => ClearRunner
  }

  // From a state in which the task is not cancelled and no thread is in CancelTask, a further cancel call does
  // not reach the branch that should not be reached, and its loop goes round at most three times.
  lemma OneCancelIsBounded(run: seq<Task>, events: seq<Event>, j: nat, k: nat)
    requires IsRun(run, events) && j <= k < |run|
    requires NoneCancels(run[j]) && run[j].state != Canceled && run[k].cancelCalls <= run[j].cancelCalls + 1
    ensures run[k].notReached == run[j].notReached && run[k].failedSwaps <= run[j].failedSwaps + 2
  {
    RunInv(run, events, j);
    assert IsPath(run[j..], events[j..]);
    PathCancelsOnce(run[j..], events[j..], k - j);
  }

  // Cancelling succeeds at most once; it stops the functor exactly when it found the task pending.
  lemma CancelStopsPendingOnly(run: seq<Task>, events: seq<Event>, k: nat)
    requires IsRun(run, events) && k < |run| && run[k].canceledFrom != []
    ensures |run[k].canceledFrom| == 1
    ensures run[k].canceledFrom == [Pending] ==> run[k].claimers == [] && run[k].functorCalls == 0
    ensures run[k].canceledFrom == [Running] ==> |run[k].claimers| == 1
    ensures run[k].canceledFrom == [Pending] || run[k].canceledFrom == [Running]
  {
    RunInv(run, events, k);
  }

  // A call of CancelTask returns only from a task that is cancelled or completed.
  lemma CancelTakesEffect(run: seq<Task>, events: seq<Event>, k: nat, th: ThreadId)
    requires IsRun(run, events) && k < |events|
    requires InCancel(At(run[k], th)) && At(run[k + 1], th).call == NoCall
    ensures run[k + 1].state == Canceled || run[k + 1].state == Completed
    ensures run[k + 1].state == Canceled ==> |run[k + 1].canceledFrom| == |run[k].canceledFrom| + 1
  {
    RunInv(run, events, k);
    OnlyOneMoves(run[k], events[k]);
    assert events[k] == Event(th, SwapToCanceled);
    ReturnsDone(run[k], th);
  }

  lemma ReturnsDone(st: Task, th: ThreadId)
    requires LoadedSound(st) && At(st, th).call.CancelSwaps?
    requires At(Apply(st, Event(th, SwapToCanceled)), th).call == NoCall
    ensures var st' := Apply(st, Event(th, SwapToCanceled));
            && (st'.state == Canceled || st'.state == Completed)
            && (st'.state == Canceled ==> |st'.canceledFrom| == |st.canceledFrom| + 1)
  {
  }

  // A cancel whose swap finds the task as it was loaded, pending or running, cancels it and returns.
  lemma SwapCancels(run: seq<Task>, events: seq<Event>, k: nat, th: ThreadId)
    requires IsRun(run, events) && k < |events| && events[k] == Event(th, SwapToCanceled)
    requires At(run[k], th).call == CancelSwaps(run[k].state) && (run[k].state == Pending || run[k].state == Running)
    ensures run[k + 1].state == Canceled && At(run[k + 1], th).call == NoCall
    ensures run[k + 1].canceledFrom == run[k].canceledFrom + [run[k].state]
  {
  }

  // One that finds it changed leaves it as it is and goes round again.
  lemma SwapFails(run: seq<Task>, events: seq<Event>, k: nat, th: ThreadId)
    requires IsRun(run, events) && k < |events| && events[k] == Event(th, SwapToCanceled)
    requires At(run[k], th).call != CancelSwaps(run[k].state)
    ensures run[k + 1].state == run[k].state && At(run[k + 1], th).call == CancelLoads
  {
    RunInv(run, events, k);
    FailedSwap(run[k], th);
  }

  lemma FailedSwap(st: Task, th: ThreadId)
    requires LoadedSound(st) && At(st, th).call.CancelSwaps? && At(st, th).call != CancelSwaps(st.state)
    ensures var st' := Apply(st, Event(th, SwapToCanceled));
            st'.state == st.state && At(st', th).call == CancelLoads
  {
  }

  // A task cancelled while pending is never run, in all that follows.
  lemma PendingCancelIsFinal(run: seq<Task>, events: seq<Event>, k: nat, th: ThreadId, m: nat)
    requires IsRun(run, events) && k < m < |run| && events[k] == Event(th, SwapToCanceled)
    requires At(run[k], th).call == CancelSwaps(Pending) && run[k].state == Pending
    ensures run[m].state == Canceled && run[m].functorCalls == 0
  {
    SwapCancels(run, events, k, th);
    StatesSettle(run, events, k + 1, m);
  }

  // ---------- Run ----------

  // Run takes a pending task, and does nothing to one that is not.
  lemma RunTakesPending(run: seq<Task>, events: seq<Event>, k: nat, th: ThreadId)
    requires IsRun(run, events) && k < |events| && events[k] == Event(th, Claim)
    ensures run[k].state == Pending ==>
              run[k + 1].state == Running && run[k + 1].claimers == [th] && At(run[k + 1], th).run != NotRunning
    ensures run[k].state != Pending ==> run[k + 1] == run[k]
  {
    RunInv(run, events, k);
  }

  // How many operations of Run a thread has still before it.
  function RunLeft(run: RunPoint): nat {
    match run
    case StoresRunner => 6
    case CallsFunctor => 5
    case InFunctor => 4
    case StoresCompleted => 3
    case Notifies => 2
    case ClearsRunner => 1
    case NotRunning => 0
  }

  // A thread in Run is never blocked by the task, and each operation of Run brings it nearer to the end.
  lemma RunProceeds(run: seq<Task>, events: seq<Event>, k: nat, th: ThreadId)
    requires IsRun(run, events) && k < |run| && At(run[k], th).run != NotRunning
    ensures exists a :: Enabled(run[k], Event(th, a))
    ensures k < |events| && events[k].thread == th && OfRun(events[k].action) ==>
              RunLeft(At(run[k + 1], th).run) < RunLeft(At(run[k], th).run)
  {
    RunInv(run, events, k);
    assert CallSound(At(run[k], th));
    var a := NextAction(run[k], th);
    assert Enabled(run[k], Event(th, a));
  }

  // Cancelling a task that is cancelled already does reach that branch, and is back in the loop after it.
  lemma CancelAgain(st: Task, th: ThreadId)
    requires st.state == Canceled && MayCall(At(st, th))
    ensures Enabled(st, Event(th, CallCancel))
    ensures var st1 := Apply(st, Event(th, CallCancel));
            && Enabled(st1, Event(th, LoadForCancel))
            && var st2 := Apply(st1, Event(th, LoadForCancel));
               && Enabled(st2, Event(th, SwapToCanceled))
               && var st3 := Apply(st2, Event(th, SwapToCanceled));
                  st3.notReached == st.notReached + 1 && At(st3, th).call == CancelLoads && st3.state == Canceled
  {
  }

  // A way on from st that takes one more cancel call and reaches the branch that should not be reached.
  ghost predicate MissesOut(st: Task, path: seq<Task>, events: seq<Event>) {
    && IsPath(path, events) && path[0] == st
    && path[|path| - 1].cancelCalls == st.cancelCalls + 1 && path[|path| - 1].notReached > st.notReached
  }

  // Exactly when one more cancel call can go wrong: the task has been cancelled and is not completed.
  lemma OneMoreCancel(run: seq<Task>, events: seq<Event>, k: nat)
    requires IsRun(run, events) && k < |run| && NoneCancels(run[k])
    ensures (exists path, steps :: MissesOut(run[k], path, steps)) <==> run[k].state == Canceled
  {
    RunInv(run, events, k);
    if run[k].state == Canceled {
      SomeMissesOut(run[k]);
    } else {
      NoneMissesOut(run[k]);
    }
  }

  lemma SomeMissesOut(st: Task)
    requires st.state == Canceled
    ensures exists path, steps :: MissesOut(st, path, steps)
  {
    var th := UnusedThread(st.threads.Keys);
    CancelAgain(st, th);
    var steps := [Event(th, CallCancel), Event(th, LoadForCancel), Event(th, SwapToCanceled)];
    var st1 := Apply(st, steps[0]);
    var st2 := Apply(st1, steps[1]);
    var path := [st, st1, st2, Apply(st2, steps[2])];
    assert MissesOut(st, path, steps);
  }

  lemma NoneMissesOut(st: Task)
    requires Inv(st) && NoneCancels(st) && st.state != Canceled
    ensures forall path, steps :: !MissesOut(st, path, steps)
  {
    forall path, steps | IsPath(path, steps) && path[0] == st
      ensures !MissesOut(st, path, steps)
    {
      PathCancelsOnce(path, steps, |path| - 1);
    }
  }

  lemma {:induction false} UnusedThread(used: set<ThreadId>) returns (th: ThreadId)
    ensures th !in used && forall x | x in used :: x < th
    decreases |used|
  {
    if used == {} {
      th := 0;
    } else {
      var x :| x in used;
      th := UnusedThread(used - {x});
      if th <= x {
        th := x + 1;
      }
      forall y | y in used
        ensures y < th
      {
        assert y == x || y in used - {x};
      }
    }
  }

  // ---------- WaitIfRunning ----------

  // The functor has been called, if there is one, and no thread is in it or on its way there.
  ghost predicate FunctorOver(st: Task) {
    && st.functorCalls == (if st.hasFunctor then 1 else 0)
    && forall th :: At(st, th).run !in {StoresRunner, CallsFunctor, InFunctor}
  }

  // A thread that waited until it was notified has waited for the functor, and was never the runner.
  lemma WakesAfterFunctor(run: seq<Task>, events: seq<Event>, k: nat)
    requires IsRun(run, events) && k < |events| && events[k].action == Wake
    ensures var st := run[k + 1];
            st.notified && st.state == Completed && FunctorOver(st) && events[k].thread !in st.runner
  {
    RunInv(run, events, k);
    var st := run[k];
    assert At(st, events[k].thread).call == Blocked;
    OnlyOneMoves(st, events[k]);
  }

  // The call that thread th makes at step j is still under way before state k.
  ghost predicate WaitsUntil(run: seq<Task>, events: seq<Event>, j: nat, k: nat, th: ThreadId)
    requires |run| == |events| + 1
  {
    && j < k < |run| && events[j] == Event(th, CallWait)
    && forall i | j < i < k :: At(run[i], th).call != NoCall
  }

  // A thread outside Run that waits for a task that was claimed before and is not cancelled meanwhile returns
  // only when the task is completed and its functor over.
  lemma WaitCoversFunctor(run: seq<Task>, events: seq<Event>, j: nat, k: nat, th: ThreadId)
    requires IsRun(run, events) && WaitsUntil(run, events, j, k, th) && At(run[k], th).call == NoCall
    requires At(run[j], th).run == NotRunning && run[j].claimers != [] && run[k].canceledFrom == []
    ensures run[k].state == Completed && FunctorOver(run[k])
  {
    WaitGoesOn(run, events, j, k, th);
    RunInv(run, events, k);
  }

  lemma {:induction false} WaitGoesOn(run: seq<Task>, events: seq<Event>, j: nat, k: nat, th: ThreadId)
    requires IsRun(run, events) && WaitsUntil(run, events, j, k, th)
    requires At(run[j], th).run == NotRunning && run[j].claimers != [] && run[k].canceledFrom == []
    ensures Waited(run[k], th)
  {
    var st, e := run[k - 1], events[k - 1];
    CancelledBefore(st, e, run[k]);
    if j + 1 < k {
      WaitGoesOn(run, events, j, k - 1, th);
      assert Waits(At(st, th));
    }
    ClaimedAt(run, events, k - 1);
    WaitStep(st, e, run[k], th);
  }

  lemma CancelledBefore(st: Task, e: Event, st': Task)
    requires Enabled(st, e) && st' == Apply(st, e) && st'.canceledFrom == []
    ensures st.canceledFrom == []
  {
  }

  lemma ClaimedAt(run: seq<Task>, events: seq<Event>, k: nat)
    requires IsRun(run, events) && k < |run| && run[k].claimers != []
    ensures Claimed(run[k])
  {
    RunInv(run, events, k);
  }

  predicate Waits(l: Local) {
    l.run == NotRunning && l.call in {WaitLoadsRunner, WaitLoadsState, Blocked}
  }

  // The task was claimed, and the thread has not returned from its call before it was completed.
  predicate Waited(st: Task, th: ThreadId) {
    st.claimers != [] && (Waits(At(st, th)) || (At(st, th) == Local(NotRunning, NoCall) && st.state == Completed))
  }

  lemma WaitStep(st: Task, e: Event, st': Task, th: ThreadId)
    requires Claimed(st) && st.canceledFrom == [] && Enabled(st, e) && st' == Apply(st, e)
    requires Waits(At(st, th)) || (At(st, th).run == NotRunning && e == Event(th, CallWait))
    ensures Waited(st', th)
  {
    OnlyOneMoves(st, e);
    if e.thread == th {
      WaitOwnStep(st, e);
    } else {
      NothingForgotten(st, e);
      ClaimedSettles(st, e);
    }
  }

  lemma WaitOwnStep(st: Task, e: Event)
    requires Claimed(st) && st.canceledFrom == [] && Enabled(st, e)
    requires Waits(At(st, e.thread)) || (At(st, e.thread).run == NotRunning && e.action == CallWait)
    ensures Waited(Apply(st, e), e.thread)
  {
  }

  // A wait blocks iff the task is running and the thread is not its runner.  In particular it returns at once
  // from a task cancelled while running, in the functor's midst.
  lemma WaitBlocksIffRunning(st: Task, th: ThreadId)
    requires MayCall(At(st, th))
    ensures Enabled(st, Event(th, CallWait))
    ensures var st1 := Apply(st, Event(th, CallWait));
            && Enabled(st1, Event(th, LoadRunner))
            && var st2 := Apply(st1, Event(th, LoadRunner));
               if th in st.runner then At(st2, th) == At(st, th)
               else
                 && Enabled(st2, Event(th, LoadState))
                 && var st3 := Apply(st2, Event(th, LoadState));
                    At(st3, th).call == if st.state == Running then Blocked else NoCall
  {
  }
}
