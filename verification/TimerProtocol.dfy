/**
 The timer subsystem run by any number of threads, one lock-protected section a step.

 Starting a timer takes two sections: `Insert` under the lock of the timer's shard and `Publish` under
 the manager's lock.  A check holds the manager's lock from `BeginCheck` to `EndCheck`; in between it
 alternates `PopShard` (under one shard's lock) and `StoreMin`, and other threads may insert and cancel.

 Every start is entered in a ledger, so that whole runs can be accounted for.
 */
module TimerProtocol {
  import opened ShardQueues
  import opened ShardViews
  import opened Times

  // The address of a timer and what hashing it gives.
  datatype TimerId = TimerId(address: nat, hash: nat)

  type ThreadId = nat

  function ShardOf(t: TimerId): (s: nat)
    ensures s < NUM_SHARDS
  {
    ShardIndex(t.hash)
  }

  datatype Outcome = Pending | Posted(at: Time) | Cancelled

  datatype Start = Start(timer: TimerId, deadline: Time, outcome: Outcome)

  datatype Shard = Shard(view: ShardView<TimerId>, minDeadline: Time)

  // A thread between the two sections of starting a timer.
  datatype Insertion = Insertion(shard: nat, deadline: Time, isFirst: bool)

  datatype Checker =
    | Idle
    | Checking(now: Time, rounds: nat)
    | Popped(now: Time, rounds: nat, shard: nat, newMin: Time)

  // What the poll thread was told by the last check: when to look again, and whether it was woken since.
  datatype Sleep = Unknown | Until(time: Time, woken: bool)

  datatype State = State(
    shards: seq<Shard>,
    queue: seq<nat>, // the shards by their known first deadlines
    starts: seq<Start>,
    current: map<TimerId, nat>, // the start each pending timer is pending for
    posts: seq<nat>, // the starts whose closures have been posted, in order
    inserting: map<ThreadId, Insertion>,
    checker: Checker,
    sleep: Sleep)

  datatype Event =
    | Insert(thread: ThreadId, timer: TimerId, deadline: Time)
    | Publish(thread: ThreadId)
    | Cancel(timer: TimerId)
    | BeginCheck(now: Time)
    | PopShard(shard: nat, fired: seq<TimerId>, after: ShardView<TimerId>, newMin: Time)
    | StoreMin
    | EndCheck

  ghost predicate Init(st: State) {
    && st.shards == seq(NUM_SHARDS, _ => Shard(ShardView(map[], INFINITE), INFINITE))
    && st.queue == seq(NUM_SHARDS, s => s)
    && st.starts == [] && st.current == map[] && st.posts == [] && st.inserting == map[]
    && st.checker == Idle && st.sleep == Unknown
  }

  // Each shard has its place in the queue.
  ghost predicate Sized(st: State) {
    && |st.shards| == |st.queue| == NUM_SHARDS
    && (forall k | 0 <= k < NUM_SHARDS :: st.queue[k] < NUM_SHARDS)
    && (forall j, k | 0 <= j < k < NUM_SHARDS :: st.queue[j] != st.queue[k])
    && (forall s | 0 <= s < NUM_SHARDS :: s in st.queue)
  }

  // The known first deadlines.
  function Deadlines(shards: seq<Shard>): map<nat, Time> {
    map s: nat | s < |shards| :: shards[s].minDeadline
  }

  function PlaceOf(queue: seq<nat>, s: nat): (k: nat)
    requires s in queue
    ensures k < |queue| && queue[k] == s
  {
    if queue[0] == s then 0 else 1 + PlaceOf(queue[1..], s)
  }

  // Writes a shard's known first deadline, restores the queue and wakes the poll thread.
  function Store(st: State, s: nat, deadline: Time): (st': State)
    requires Sized(st) && s < NUM_SHARDS
    ensures Sized(st')
  {
    var shards := st.shards[s := st.shards[s].(minDeadline := deadline)];
    var queue := Rearranged(st.queue, Deadlines(shards), PlaceOf(st.queue, s));
    RearrangedSame(st.queue, Deadlines(shards), PlaceOf(st.queue, s));
    assert forall k | 0 <= k < NUM_SHARDS :: queue[k] in st.queue;
    Wake(st.(shards := shards, queue := queue))
  }

  ghost predicate Enabled(st: State, e: Event)
    requires Sized(st)
  {
    match e
    // A timer that is pending must not be started again.
    case Insert(thread, timer, _) => thread !in st.inserting && timer !in st.current
    case Publish(thread) => thread in st.inserting && st.inserting[thread].shard < NUM_SHARDS && st.checker == Idle
    case Cancel(timer) => true
    case BeginCheck(now) => st.checker == Idle && now < INFINITE
    case PopShard(s, fired, after, newMin) =>
      && st.checker.Checking? && s == st.queue[0] && st.shards[s].minDeadline <= st.checker.now
      && st.shards[s].view.Fires(st.checker.now, fired, after)
      && after.IsMinDeadline(newMin)
      && forall i | 0 <= i < |fired| :: fired[i] in st.current
    case StoreMin => st.checker.Popped? && st.checker.shard < NUM_SHARDS
    case EndCheck => st.checker.Checking? && st.checker.now < st.shards[st.queue[0]].minDeadline
  }

  function StartsOf(current: map<TimerId, nat>, fired: seq<TimerId>): (ids: seq<nat>)
    requires forall i | 0 <= i < |fired| :: fired[i] in current
    ensures |ids| == |fired| && forall i | 0 <= i < |fired| :: ids[i] == current[fired[i]]
  {
    seq(|fired|, i requires 0 <= i < |fired| => current[fired[i]])
  }

  function MarkPosted(starts: seq<Start>, ids: seq<nat>, now: Time): (marked: seq<Start>)
    ensures |marked| == |starts|
    ensures forall i: nat | i < |starts| ::
              marked[i] == if i in ids then starts[i].(outcome := Posted(now)) else starts[i]
  {
    seq(|starts|, i requires 0 <= i < |starts| => if i in ids then starts[i].(outcome := Posted(now)) else starts[i])
  }

  ghost function Inserted(st: State, thread: ThreadId, timer: TimerId, deadline: Time): (st': State)
    requires Sized(st)
    ensures Sized(st')
  {
    var s := ShardOf(timer);
    var shard := st.shards[s];
    st.(shards := st.shards[s := shard.(view := shard.view.Insert(timer, deadline))],
        starts := st.starts + [Start(timer, deadline, Pending)],
        current := st.current[timer := |st.starts|],
        inserting := st.inserting[thread := Insertion(s, deadline, shard.view.WouldBeFirst(deadline))])
  }

  function Published(st: State, thread: ThreadId): (st': State)
    requires Sized(st) && thread in st.inserting && st.inserting[thread].shard < NUM_SHARDS
    ensures Sized(st')
  {
    var p := st.inserting[thread];
    var st1 := st.(inserting := st.inserting - {thread});
    if p.isFirst && p.deadline < st.shards[p.shard].minDeadline then Store(st1, p.shard, p.deadline) else st1
  }

  function TimerCancelled(st: State, timer: TimerId): (st': State)
    requires Sized(st)
    ensures Sized(st')
  {
    if timer !in st.current || st.current[timer] >= |st.starts| then st else
    var s, i := ShardOf(timer), st.current[timer];
    var shard := st.shards[s];
    st.(shards := st.shards[s := shard.(view := shard.view.Remove(timer))],
        starts := st.starts[i := st.starts[i].(outcome := Cancelled)],
        current := st.current - {timer})
  }

  function ShardPopped(st: State, s: nat, fired: seq<TimerId>, after: ShardView<TimerId>, newMin: Time): (st': State)
    requires Sized(st) && s < NUM_SHARDS && st.checker.Checking?
    requires forall i | 0 <= i < |fired| :: fired[i] in st.current
    ensures Sized(st')
  {
    var now := st.checker.now;
    var ids := StartsOf(st.current, fired);
    st.(shards := st.shards[s := st.shards[s].(view := after)],
        starts := MarkPosted(st.starts, ids, now),
        current := st.current - (set t | t in fired),
        posts := st.posts + ids,
        checker := Popped(now, st.checker.rounds, s, newMin))
  }

  function MinStored(st: State): (st': State)
    requires Sized(st) && st.checker.Popped? && st.checker.shard < NUM_SHARDS
    ensures Sized(st')
  {
    var c := st.checker;
    Store(st.(checker := Checking(c.now, c.rounds + 1)), c.shard, c.newMin)
  }

  function CheckEnded(st: State): (st': State)
    requires Sized(st)
    ensures Sized(st')
  {
    st.(checker := Idle, sleep := Until(st.shards[st.queue[0]].minDeadline, false))
  }

  ghost function Apply(st: State, e: Event): (st': State)
    requires Sized(st) && Enabled(st, e)
    ensures Sized(st')
  {
    match e
    case Insert(thread, timer, deadline) => Inserted(st, thread, timer, deadline)
    case Publish(thread) => Published(st, thread)
    case Cancel(timer) => TimerCancelled(st, timer)
    case BeginCheck(now) => st.(checker := Checking(now, 0))
    case PopShard(s, fired, after, newMin) => ShardPopped(st, s, fired, after, newMin)
    case StoreMin => MinStored(st)
    case EndCheck => CheckEnded(st)
  }

  // OnDeadlineChanged wakes the poll thread.
  function Wake(st: State): State {
    if st.sleep.Until? then st.(sleep := st.sleep.(woken := true)) else st
  }

  // ---------- What every step keeps ----------

  // The capacity of every shard stays at Infinite.
  ghost predicate Shaped(st: State) {
    && Sized(st)
    && (forall s | 0 <= s < NUM_SHARDS :: st.shards[s].view.capacity == INFINITE)
    && (forall th | th in st.inserting :: st.inserting[th].shard < NUM_SHARDS)
    && (st.checker != Idle ==> st.checker.now < INFINITE)
    && (st.checker.Popped? ==> st.checker.shard < NUM_SHARDS && st.checker.now < st.checker.newMin)
  }

  // The ledger and the shards agree.
  ghost predicate Accounted(st: State)
    requires Sized(st)
  {
    CurrentStarts(st) && PendingKnown(st)
  }

  ghost predicate CurrentStarts(st: State)
    requires Sized(st)
  {
    && (forall t | t in st.current :: st.current[t] < |st.starts|)
    && (forall t | t in st.current ::
          var start := st.starts[st.current[t]];
          && start.timer == t && start.outcome == Pending
          && t in st.shards[ShardOf(t)].view.pending
          && st.shards[ShardOf(t)].view.pending[t] == start.deadline)
  }

  ghost predicate PendingKnown(st: State)
    requires Sized(st)
  {
    && (forall s, t | 0 <= s < NUM_SHARDS && t in st.shards[s].view.pending :: ShardOf(t) == s && t in st.current)
    && (forall i | 0 <= i < |st.starts| && st.starts[i].outcome == Pending ::
          st.starts[i].timer in st.current && st.current[st.starts[i].timer] == i)
  }

  // A start is posted exactly when its outcome says so: once, and not before its deadline.
  ghost predicate Posts(st: State) {
    && (forall k | 0 <= k < |st.posts| :: st.posts[k] < |st.starts| && st.starts[st.posts[k]].outcome.Posted?)
    && (forall j, k | 0 <= j < k < |st.posts| :: st.posts[j] != st.posts[k])
    && (forall i | 0 <= i < |st.starts| && st.starts[i].outcome.Posted? ::
          i in st.posts && st.starts[i].deadline <= st.starts[i].outcome.at)
  }

  // With m as the known first deadline of shard s, a timer due at d will not be missed: m is no later, or
  // a thread is about to publish a deadline that is no later.
  ghost predicate Covers(st: State, s: nat, m: Time, d: Time) {
    m <= d || exists th :: th in st.inserting && Publishes(st.inserting[th], s, d)
  }

  predicate Publishes(p: Insertion, s: nat, d: Time) {
    p.shard == s && p.isFirst && p.deadline <= d
  }

  ghost predicate ShardCovered(st: State, s: nat, m: Time)
    requires s < |st.shards|
  {
    forall t | t in st.shards[s].view.pending && st.shards[s].view.pending[t] < INFINITE ::
      Covers(st, s, m, st.shards[s].view.pending[t])
  }

  // Every pending timer that will ever fire is covered, and stays so when a check stores what it computed.
  ghost predicate Covered(st: State)
    requires Sized(st)
  {
    && (forall s | 0 <= s < NUM_SHARDS :: ShardCovered(st, s, st.shards[s].minDeadline))
    && (st.checker.Popped? ==> st.checker.shard < NUM_SHARDS && ShardCovered(st, st.checker.shard, st.checker.newMin))
  }

  // The queue is in the order of the known first deadlines.
  ghost predicate QueueSorted(st: State)
    requires Sized(st)
  {
    Sorted(st.queue, Deadlines(st.shards))
  }

  lemma FirstIsLeast(st: State)
    requires Sized(st) && QueueSorted(st)
    ensures forall s | 0 <= s < NUM_SHARDS :: st.shards[st.queue[0]].minDeadline <= st.shards[s].minDeadline
  {
    forall s | 0 <= s < NUM_SHARDS
      ensures st.shards[st.queue[0]].minDeadline <= st.shards[s].minDeadline
    {
      var k := PlaceOf(st.queue, s);
      var key := Deadlines(st.shards);
      assert k > 0 ==> key[st.queue[0]] <= key[st.queue[k]];
    }
  }

  lemma StoreKeepsQueue(st: State, s: nat, deadline: Time)
    requires Sized(st) && QueueSorted(st) && s < NUM_SHARDS
    ensures QueueSorted(Store(st, s, deadline))
  {
    var shards := st.shards[s := st.shards[s].(minDeadline := deadline)];
    RearrangedSorts(st.queue, Deadlines(shards), PlaceOf(st.queue, s));
  }

  lemma StepKeepsQueue(st: State, e: Event)
    requires Shaped(st) && QueueSorted(st) && Enabled(st, e)
    ensures QueueSorted(Apply(st, e))
  {
    match e
    case Publish(thread) =>
      var p := st.inserting[thread];
      StoreKeepsQueue(st.(inserting := st.inserting - {thread}), p.shard, p.deadline);
    case StoreMin =>
      var c := st.checker;
      StoreKeepsQueue(st.(checker := Checking(c.now, c.rounds + 1)), c.shard, c.newMin);
    case Insert(thread, timer, deadline) => SameQueue(st, Inserted(st, thread, timer, deadline));
    case Cancel(timer) => SameQueue(st, TimerCancelled(st, timer));
    case PopShard(_, _, _, _) => SameQueue(st, ShardPopped(st, e.shard, e.fired, e.after, e.newMin));
    case BeginCheck(_) =>
    case EndCheck =>
  }

  lemma SameQueue(st: State, st': State)
    requires Sized(st) && Sized(st') && st'.queue == st.queue && QueueSorted(st)
    requires forall s | 0 <= s < NUM_SHARDS :: st.shards[s].minDeadline == st'.shards[s].minDeadline
    ensures QueueSorted(st')
  {
  }

  // Unless the poll thread was woken, no shard is known to be due before the time it sleeps until.
  ghost predicate SleepsSafely(st: State) {
    st.sleep.Until? && !st.sleep.woken ==>
      forall s | 0 <= s < |st.shards| :: st.sleep.time <= st.shards[s].minDeadline
  }

  // The shards known to be due by `now`.
  ghost function Overdue(st: State, now: Time): set<nat>
    requires |st.shards| == NUM_SHARDS
  {
    set s: nat | s < NUM_SHARDS && st.shards[s].minDeadline <= now
  }

  // A check has as many rounds left as there are shards known to be due.
  ghost predicate RoundsBounded(st: State)
    requires |st.shards| == NUM_SHARDS
  {
    st.checker != Idle ==>
      && st.checker.rounds + |Overdue(st, st.checker.now)| <= NUM_SHARDS
      && (st.checker.Popped? ==> st.checker.shard in Overdue(st, st.checker.now))
  }

  ghost predicate Inv(st: State) {
    && Shaped(st) && QueueSorted(st) && Accounted(st) && Posts(st) && Covered(st) && SleepsSafely(st)
    && RoundsBounded(st)
  }

  lemma InitInv(st: State)
    requires Init(st)
    ensures Inv(st)
  {
    forall s: nat | s < NUM_SHARDS
      ensures s in st.queue
    {
      assert st.queue[s] == s;
    }
  }

  lemma StepKeepsShape(st: State, e: Event)
    requires Shaped(st) && Enabled(st, e)
    ensures Shaped(Apply(st, e))
  {
  }

  // ---------- Every timer is covered ----------

  lemma CoverSurvives(st: State, st': State, s: nat, m: Time, d: Time)
    requires Covers(st, s, m, d)
    requires forall th | th in st.inserting :: th in st'.inserting && st'.inserting[th] == st.inserting[th]
    ensures Covers(st', s, m, d)
  {
  }

  // Losing timers, or a thread starting another insertion, uncovers none.
  lemma FewerStayCovered(st: State, st': State, s: nat, m: Time)
    requires s < |st.shards| && s < |st'.shards| && ShardCovered(st, s, m)
    requires forall t | t in st'.shards[s].view.pending ::
               t in st.shards[s].view.pending && st'.shards[s].view.pending[t] == st.shards[s].view.pending[t]
    requires forall th | th in st.inserting :: th in st'.inserting && st'.inserting[th] == st.inserting[th]
    ensures ShardCovered(st', s, m)
  {
  }

  // A timer that is not the first of its heap is covered by whatever covers the first.
  lemma InsertKeepsShardCovered(st: State, thread: ThreadId, timer: TimerId, deadline: Time, m: Time)
    requires Shaped(st) && thread !in st.inserting && ShardCovered(st, ShardOf(timer), m)
    ensures ShardCovered(Inserted(st, thread, timer, deadline), ShardOf(timer), m)
  {
    var st', s := Inserted(st, thread, timer, deadline), ShardOf(timer);
    var view := st.shards[s].view;
    forall t | t in st'.shards[s].view.pending && st'.shards[s].view.pending[t] < INFINITE
      ensures Covers(st', s, m, st'.shards[s].view.pending[t])
    {
      if t != timer {
        CoverSurvives(st, st', s, m, view.pending[t]);
      } else if view.WouldBeFirst(deadline) {
        assert Publishes(st'.inserting[thread], s, deadline);
      } else {
        var first :| first in view.Urgent() && view.pending[first] <= deadline;
        CoverSurvives(st, st', s, m, view.pending[first]);
        LaterIsCovered(st', s, m, view.pending[first], deadline);
      }
    }
  }

  lemma LaterIsCovered(st: State, s: nat, m: Time, d: Time, later: Time)
    requires Covers(st, s, m, d) && d <= later
    ensures Covers(st, s, m, later)
  {
  }

  lemma InsertKeepsCovered(st: State, thread: ThreadId, timer: TimerId, deadline: Time)
    requires Shaped(st) && Covered(st) && thread !in st.inserting
    ensures Covered(Inserted(st, thread, timer, deadline))
  {
    var st' := Inserted(st, thread, timer, deadline);
    forall s, m | 0 <= s < NUM_SHARDS && ShardCovered(st, s, m)
      ensures ShardCovered(st', s, m)
    {
      if s == ShardOf(timer) {
        InsertKeepsShardCovered(st, thread, timer, deadline, m);
      } else {
        FewerStayCovered(st, st', s, m);
      }
    }
  }

  // What the publishing thread covered is covered by the known first deadline afterwards.
  lemma PublishKeepsCovered(st: State, thread: ThreadId)
    requires Shaped(st) && Covered(st) && thread in st.inserting && st.checker == Idle
    ensures Covered(Published(st, thread))
  {
    var st' := Published(st, thread);
    forall s | 0 <= s < NUM_SHARDS
      ensures ShardCovered(st', s, st'.shards[s].minDeadline)
    {
      forall t | t in st.shards[s].view.pending && st.shards[s].view.pending[t] < INFINITE
        ensures Covers(st', s, st'.shards[s].minDeadline, st.shards[s].view.pending[t])
      {
        PublishKeepsCover(st, thread, s, st.shards[s].view.pending[t]);
      }
    }
  }

  lemma PublishKeepsCover(st: State, thread: ThreadId, s: nat, d: Time)
    requires Shaped(st) && thread in st.inserting && s < NUM_SHARDS && Covers(st, s, st.shards[s].minDeadline, d)
    ensures Covers(Published(st, thread), s, Published(st, thread).shards[s].minDeadline, d)
  {
    var st' := Published(st, thread);
    if d < st.shards[s].minDeadline {
      var th :| th in st.inserting && Publishes(st.inserting[th], s, d);
      assert th != thread ==> th in st'.inserting && Publishes(st'.inserting[th], s, d);
    }
  }

  // Popping a shard leaves its timers covered by the deadline the check is about to store.
  lemma PopShardKeepsCovered(st: State, e: Event)
    requires Shaped(st) && Covered(st) && Enabled(st, e) && e.PopShard?
    ensures Covered(ShardPopped(st, e.shard, e.fired, e.after, e.newMin))
  {
    var st' := ShardPopped(st, e.shard, e.fired, e.after, e.newMin);
    e.after.MinDeadlineIsBound(e.newMin);
    forall s | 0 <= s < NUM_SHARDS
      ensures ShardCovered(st', s, st'.shards[s].minDeadline)
    {
      FewerStayCovered(st, st', s, st.shards[s].minDeadline);
    }
  }

  lemma StoreMinKeepsCovered(st: State)
    requires Shaped(st) && Covered(st) && st.checker.Popped?
    ensures Covered(MinStored(st))
  {
  }

  lemma CancelKeepsCovered(st: State, timer: TimerId)
    requires Shaped(st) && Covered(st)
    ensures Covered(TimerCancelled(st, timer))
  {
  }

  lemma StepKeepsCovered(st: State, e: Event)
    requires Shaped(st) && Covered(st) && Enabled(st, e)
    ensures Covered(Apply(st, e))
  {
    match e
    case Insert(thread, timer, deadline) => InsertKeepsCovered(st, thread, timer, deadline);
    case Publish(thread) => PublishKeepsCovered(st, thread);
    case PopShard(_, _, _, _) => PopShardKeepsCovered(st, e);
    case Cancel(timer) => CancelKeepsCovered(st, timer);
    case StoreMin => StoreMinKeepsCovered(st);
    case BeginCheck(_) => CheckKeepsCovered(st, Apply(st, e));
    case EndCheck => CheckKeepsCovered(st, Apply(st, e));
  }

  lemma CheckKeepsCovered(st: State, st': State)
    requires Sized(st) && Sized(st') && Covered(st)
    requires st'.shards == st.shards && st'.inserting == st.inserting && !st'.checker.Popped?
    ensures Covered(st')
  {
  }

  lemma StepKeepsSleep(st: State, e: Event)
    requires Shaped(st) && QueueSorted(st) && SleepsSafely(st) && Enabled(st, e)
    ensures SleepsSafely(Apply(st, e))
  {
    FirstIsLeast(st);
  }

  // ---------- Every start is accounted for ----------

  lemma StepKeepsAccounts(st: State, e: Event, st': State)
    requires Sized(st) && Accounted(st) && Enabled(st, e) && st' == Apply(st, e)
    ensures Accounted(st')
  {
    match e
    case Insert(thread, timer, deadline) => InsertKeepsAccounts(st, thread, timer, deadline);
    case Cancel(timer) => CancelKeepsAccounts(st, timer);
    case PopShard(_, _, _, _) => PopShardKeepsAccounts(st, e);
    case Publish(thread) => RestKeepsAccounts(st, st');
    case BeginCheck(_) => RestKeepsAccounts(st, st');
    case StoreMin => RestKeepsAccounts(st, st');
    case EndCheck => RestKeepsAccounts(st, st');
  }

  lemma StepKeepsPosts(st: State, e: Event, st': State)
    requires Sized(st) && Accounted(st) && Posts(st) && Enabled(st, e) && st' == Apply(st, e)
    ensures Posts(st')
  {
    match e
    case Insert(thread, timer, deadline) => InsertKeepsPosts(st, thread, timer, deadline);
    case Cancel(timer) => CancelKeepsPosts(st, timer);
    case PopShard(_, _, _, _) => PopShardKeepsPosts(st, e);
    case Publish(thread) => SamePosts(st, st');
    case BeginCheck(_) => SamePosts(st, st');
    case StoreMin => SamePosts(st, st');
    case EndCheck => SamePosts(st, st');
  }

  lemma SamePosts(st: State, st': State)
    requires Posts(st) && st'.starts == st.starts && st'.posts == st.posts
    ensures Posts(st')
  {
  }

  lemma RestKeepsAccounts(st: State, st': State)
    requires Sized(st) && Sized(st') && Accounted(st)
    requires st'.starts == st.starts && st'.current == st.current
    requires forall s | 0 <= s < NUM_SHARDS :: st'.shards[s].view == st.shards[s].view
    ensures Accounted(st')
  {
  }

  lemma InsertKeepsAccounts(st: State, thread: ThreadId, timer: TimerId, deadline: Time)
    requires Sized(st) && Accounted(st) && timer !in st.current
    ensures Accounted(Inserted(st, thread, timer, deadline))
  {
    InsertKeepsCurrent(st, thread, timer, deadline);
    InsertKeepsKnown(st, thread, timer, deadline);
  }

  lemma InsertKeepsCurrent(st: State, thread: ThreadId, timer: TimerId, deadline: Time)
    requires Sized(st) && CurrentStarts(st)
    ensures CurrentStarts(Inserted(st, thread, timer, deadline))
  {
  }

  lemma InsertKeepsKnown(st: State, thread: ThreadId, timer: TimerId, deadline: Time)
    requires Sized(st) && PendingKnown(st) && timer !in st.current
    ensures PendingKnown(Inserted(st, thread, timer, deadline))
  {
  }

  lemma InsertKeepsPosts(st: State, thread: ThreadId, timer: TimerId, deadline: Time)
    requires Sized(st) && Posts(st)
    ensures Posts(Inserted(st, thread, timer, deadline))
  {
  }

  lemma CancelKeepsAccounts(st: State, timer: TimerId)
    requires Sized(st) && Accounted(st)
    ensures Accounted(TimerCancelled(st, timer))
  {
    CancelKeepsCurrent(st, timer);
    CancelKeepsKnown(st, timer);
  }

  lemma CancelKeepsCurrent(st: State, timer: TimerId)
    requires Sized(st) && Accounted(st)
    ensures CurrentStarts(TimerCancelled(st, timer))
  {
  }

  lemma CancelKeepsKnown(st: State, timer: TimerId)
    requires Sized(st) && Accounted(st)
    ensures PendingKnown(TimerCancelled(st, timer))
  {
  }

  lemma CancelKeepsPosts(st: State, timer: TimerId)
    requires Sized(st) && Accounted(st) && Posts(st)
    ensures Posts(TimerCancelled(st, timer))
  {
  }

  // The starts of the fired timers are those popped now: pending, due, and each once.
  lemma FiredStarts(st: State, e: Event)
    requires Sized(st) && Accounted(st) && Enabled(st, e) && e.PopShard?
    ensures AreDue(st, e.fired, StartsOf(st.current, e.fired), st.checker.now)
  {
    var ids := StartsOf(st.current, e.fired);
    var view := st.shards[e.shard].view;
    forall k | 0 <= k < |ids|
      ensures ids[k] < |st.starts| && st.starts[ids[k]].timer == e.fired[k]
      ensures st.starts[ids[k]].outcome == Pending && st.starts[ids[k]].deadline <= st.checker.now
    {
      assert e.fired[k] in (set t | t in e.fired);
      assert e.fired[k] in view.Due(st.checker.now);
    }
    forall t | t in st.current && st.current[t] in ids
      ensures t in e.fired
    {
      var k :| 0 <= k < |ids| && ids[k] == st.current[t];
      assert e.fired[k] == t;
    }
    forall t | t in e.fired
      ensures st.current[t] in ids
    {
      var k :| 0 <= k < |e.fired| && e.fired[k] == t;
      assert ids[k] == st.current[t];
    }
  }

  ghost predicate AreDue(st: State, fired: seq<TimerId>, ids: seq<nat>, now: Time) {
    && |ids| == |fired|
    && (forall k | 0 <= k < |ids| ::
          && ids[k] < |st.starts| && st.starts[ids[k]].timer == fired[k]
          && st.starts[ids[k]].outcome == Pending && st.starts[ids[k]].deadline <= now)
    && (forall j, k | 0 <= j < k < |ids| :: ids[j] != ids[k])
    && (forall t | t in st.current :: st.current[t] in ids <==> t in fired)
  }

  lemma PopShardKeepsAccounts(st: State, e: Event)
    requires Sized(st) && Accounted(st) && Enabled(st, e) && e.PopShard?
    ensures Accounted(ShardPopped(st, e.shard, e.fired, e.after, e.newMin))
  {
    PopShardKeepsCurrent(st, e);
    PopShardKeepsKnown(st, e);
  }

  lemma PopShardKeepsCurrent(st: State, e: Event)
    requires Sized(st) && Accounted(st) && Enabled(st, e) && e.PopShard?
    ensures CurrentStarts(ShardPopped(st, e.shard, e.fired, e.after, e.newMin))
  {
    FiredStarts(st, e);
    var st' := ShardPopped(st, e.shard, e.fired, e.after, e.newMin);
    forall t | t in st'.current
      ensures st'.starts[st.current[t]] == st.starts[st.current[t]]
      ensures t in st'.shards[ShardOf(t)].view.pending
    {
      assert t in st.current && t !in e.fired;
    }
  }

  lemma PopShardKeepsKnown(st: State, e: Event)
    requires Sized(st) && Accounted(st) && Enabled(st, e) && e.PopShard?
    ensures PendingKnown(ShardPopped(st, e.shard, e.fired, e.after, e.newMin))
  {
  }

  lemma PopShardKeepsPosts(st: State, e: Event)
    requires Sized(st) && Accounted(st) && Posts(st) && Enabled(st, e) && e.PopShard?
    ensures Posts(ShardPopped(st, e.shard, e.fired, e.after, e.newMin))
  {
    FiredStarts(st, e);
    var ids := StartsOf(st.current, e.fired);
    PostsGrow(st, ShardPopped(st, e.shard, e.fired, e.after, e.newMin), ids, e.fired, st.checker.now);
  }

  lemma PostsGrow(st: State, st': State, ids: seq<nat>, fired: seq<TimerId>, now: Time)
    requires Posts(st) && AreDue(st, fired, ids, now)
    requires st'.posts == st.posts + ids && st'.starts == MarkPosted(st.starts, ids, now)
    ensures Posts(st')
  {
  }

  lemma OverdueAtMostAll(st: State, now: Time)
    requires |st.shards| == NUM_SHARDS
    ensures |Overdue(st, now)| <= NUM_SHARDS
  {
    SubsetOfFirst(Overdue(st, now), NUM_SHARDS);
  }

  lemma {:induction false} SubsetOfFirst(s: set<nat>, n: nat)
    requires forall x | x in s :: x < n
    ensures |s| <= n
  {
    if n == 0 {
      assert s == {};
    } else {
      SubsetOfFirst(s - {n - 1}, n - 1);
    }
  }

  lemma StepKeepsRounds(st: State, e: Event)
    requires Shaped(st) && RoundsBounded(st) && Enabled(st, e)
    ensures RoundsBounded(Apply(st, e))
  {
    match e
    case BeginCheck(now) => OverdueAtMostAll(Apply(st, e), now);
    case StoreMin => StoreMinKeepsRounds(st);
    case Insert(thread, timer, deadline) => SameOverdue(st, Inserted(st, thread, timer, deadline));
    case Publish(_) =>
    case Cancel(timer) => SameOverdue(st, TimerCancelled(st, timer));
    case PopShard(_, _, _, _) => SameOverdue(st, ShardPopped(st, e.shard, e.fired, e.after, e.newMin));
    case EndCheck =>
  }

  lemma StoreMinKeepsRounds(st: State)
    requires Shaped(st) && RoundsBounded(st) && st.checker.Popped?
    ensures RoundsBounded(MinStored(st))
  {
    assert Overdue(MinStored(st), st.checker.now) == Overdue(st, st.checker.now) - {st.checker.shard};
  }

  lemma SameOverdue(st: State, st': State)
    requires |st.shards| == |st'.shards| == NUM_SHARDS
    requires forall s | 0 <= s < NUM_SHARDS :: st.shards[s].minDeadline == st'.shards[s].minDeadline
    ensures forall now :: Overdue(st, now) == Overdue(st', now)
  {
  }

  lemma OutcomeKept(st: State, e: Event, i: nat)
    requires Inv(st) && Enabled(st, e) && i < |st.starts|
    ensures var st' := Apply(st, e);
            && |st'.starts| >= |st.starts|
            && st'.starts[i].timer == st.starts[i].timer && st'.starts[i].deadline == st.starts[i].deadline
            && (st.starts[i].outcome != Pending ==> st'.starts[i].outcome == st.starts[i].outcome)
  {
    if e.PopShard? {
      FiredStarts(st, e);
    }
  }
}
