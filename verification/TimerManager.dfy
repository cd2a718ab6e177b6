/** The manager of all timer shards, and its queue of shards ordered by their first deadline. */
module TimerManagers {
  import opened AverageStats
  import opened ShardQueues
  import opened ShardViews
  import opened TimerHeaps
  import opened TimerShards
  import opened Times

  ghost predicate SameShard(t: Timer, u: Timer) {
    ShardIndex(t.hash) == ShardIndex(u.hash)
  }

  // Of the timers of a table, those in `posted` were due and have been taken out; `rest` are left.  Those of one
  // shard went in the order of their deadlines, and then nothing due is left in it.
  ghost predicate TakenOut(table: map<Timer, Time>, now: Time, posted: seq<Timer>, rest: map<Timer, Time>) {
    && Distinct(posted)
    && (forall t | t in posted :: t in table && table[t] <= now)
    && rest == table - ToSet(posted)
    && InShardOrder(table, posted)
    && ShardsDone(now, posted, rest)
  }

  ghost predicate InShardOrder(table: map<Timer, Time>, posted: seq<Timer>)
    requires forall t | t in posted :: t in table
  {
    forall i, j | 0 <= i < j < |posted| && SameShard(posted[i], posted[j]) :: table[posted[i]] <= table[posted[j]]
  }

  ghost predicate ShardsDone(now: Time, posted: seq<Timer>, rest: map<Timer, Time>) {
    forall t, u | t in posted && u in rest && SameShard(t, u) :: now < rest[u]
  }

  lemma TakenOutTwice(table: map<Timer, Time>, now: Time, posted: seq<Timer>, rest: map<Timer, Time>,
                      more: seq<Timer>, left: map<Timer, Time>)
    requires TakenOut(table, now, posted, rest) && TakenOut(rest, now, more, left)
    ensures TakenOut(table, now, posted + more, left)
  {
    assert ToSet(posted) !! ToSet(more);
    DistinctConcat(posted, more);
    assert left == table - ToSet(posted + more);
    OrderedTwice(table, now, posted, rest, more);
  }

  lemma OrderedTwice(table: map<Timer, Time>, now: Time, posted: seq<Timer>, rest: map<Timer, Time>, more: seq<Timer>)
    requires forall t | t in posted :: t in table
    requires forall t | t in more :: t in rest && t in table && rest[t] == table[t] <= now
    requires InShardOrder(table, posted) && InShardOrder(rest, more) && ShardsDone(now, posted, rest)
    ensures InShardOrder(table, posted + more)
  {
    forall i, j | 0 <= i < |posted| && 0 <= j < |more|
      ensures !SameShard(posted[i], more[j])
    {
      assert posted[i] in posted && more[j] in more;
    }
  }

  // A shard that fires its due timers in order takes them out.
  lemma FiringTakesOut(table: map<Timer, Time>, now: Time, view: ShardView<Timer>, posted: seq<Timer>, rest: map<Timer, Time>)
    requires view.InOrder(posted) && ToSet(posted) == view.Due(now)
    requires forall t | t in view.pending :: t in table && table[t] == view.pending[t]
    requires rest == table - view.Due(now)
    requires forall t, u | t in view.pending && u in rest && SameShard(t, u) :: now < rest[u]
    ensures TakenOut(table, now, posted, rest)
  {
    forall t | t in posted
      ensures t in view.Due(now)
    {
      assert t in ToSet(posted);
    }
  }

  // If nothing left is due, exactly the due timers have been taken out.
  lemma TakenOutAll(table: map<Timer, Time>, now: Time, posted: seq<Timer>, rest: map<Timer, Time>)
    requires TakenOut(table, now, posted, rest)
    requires forall t | t in rest :: now < rest[t]
    ensures ToSet(posted) == set t | t in table && table[t] <= now
  {
    forall t | t in table && table[t] <= now
      ensures t in ToSet(posted)
    {
      assert t !in rest;
    }
  }

  class TimerManager {
    const shards: seq<TimerShard>
    const shardQueue: array<TimerShard>
    // How often the poll thread has been asked to wake up.
    var wakeups: nat

    constructor ()
      ensures Valid() && Table() == map[] && Timers() == {} && wakeups == 0
      ensures fresh(shardQueue) && fresh(shards) && fresh(AllStats()) && fresh(Heaps()) && fresh(AllSlots())
      ensures forall s | s in shards :: s.minDeadline == INFINITE
    {
      var made := MakeShards();
      var queue := QueueOf(made);
      shards := made;
      shardQueue := queue;
      wakeups := 0;
      new;
      NewManager();
    }

    lemma NewManager()
      requires NewShards(shards) && |shards| == shardQueue.Length == NUM_SHARDS && shardQueue[..] == shards
      ensures Valid() && Table() == map[] && Timers() == {}
      ensures forall s | s in shards :: s.minDeadline == INFINITE
    {
    }

    static ghost predicate NewShards(made: seq<TimerShard>)
      reads made, (set s | s in made :: s.urgentTimers), (set s | s in made :: s.stats),
            (set s | s in made :: s.urgentTimers.slots), set s, t | s in made && t in s.Pending() :: t
    {
      && (forall i | 0 <= i < |made| :: made[i].IsNew(i))
      && (forall i, j | 0 <= i < j < |made| ::
            && made[i].stats != made[j].stats && made[i].urgentTimers != made[j].urgentTimers
            && made[i].urgentTimers.slots != made[j].urgentTimers.slots)
    }

    static method MakeShards() returns (made: seq<TimerShard>)
      ensures |made| == NUM_SHARDS && NewShards(made)
      ensures forall s | s in made :: fresh(s.Parts())
    {
      made := [];
      for i := 0 to NUM_SHARDS
        invariant |made| == i && NewShards(made)
        invariant forall s | s in made :: fresh(s.Parts())
      {
        made := OneMore(made);
      }
    }

    static method OneMore(made: seq<TimerShard>) returns (more: seq<TimerShard>)
      requires NewShards(made)
      ensures |more| == |made| + 1 && more[..|made|] == made && NewShards(more) && fresh(more[|made|].Parts())
    {
      var shard := new TimerShard(|made|);
      more := made + [shard];
    }

    static method QueueOf(made: seq<TimerShard>) returns (queue: array<TimerShard>)
      requires |made| == NUM_SHARDS
      ensures fresh(queue) && queue[..] == made
    {
      queue := new TimerShard[NUM_SHARDS](i requires 0 <= i < |made| => made[i]);
    }

    // Each shard and its place in the queue point at each other.
    ghost predicate QueueLinked()
      reads shardQueue, shards`shardQueueIndex
    {
      && |shards| == shardQueue.Length == NUM_SHARDS
      && (forall k | 0 <= k < NUM_SHARDS :: shardQueue[k] in shards && shardQueue[k].shardQueueIndex == k)
      && (forall i | 0 <= i < NUM_SHARDS ::
            shards[i].shardQueueIndex < NUM_SHARDS && shardQueue[shards[i].shardQueueIndex] == shards[i])
    }

    ghost predicate QueueSorted()
      requires shardQueue.Length == NUM_SHARDS
      reads shardQueue, shardQueue[..]`minDeadline
    {
      forall j, k | 0 <= j < k < NUM_SHARDS :: shardQueue[j].minDeadline <= shardQueue[k].minDeadline
    }

    // Sorted but for one shard.
    ghost predicate QueueSortedExcept(shard: TimerShard)
      requires shardQueue.Length == NUM_SHARDS
      reads shardQueue, shardQueue[..]`minDeadline
    {
      forall j, k | 0 <= j < k < NUM_SHARDS && shardQueue[j] != shard && shardQueue[k] != shard ::
        shardQueue[j].minDeadline <= shardQueue[k].minDeadline
    }

    // The known first deadlines.
    ghost function Deadlines(): map<TimerShard, Time>
      reads shards`minDeadline
    {
      map s | s in shards :: s.minDeadline
    }

    // The queue after the deadline of this shard has changed.
    ghost function Requeued(shard: TimerShard): seq<TimerShard>
      requires QueueLinked() && shard in shards
      reads this, shardQueue, shards
    {
      Rearranged(shardQueue[..], Deadlines(), shard.shardQueueIndex)
    }

    method SwapAdjacentShardsInQueue(first: nat)
      requires QueueLinked() && first < NUM_SHARDS - 1
      modifies shardQueue, shards`shardQueueIndex
      ensures QueueLinked() && shardQueue[..] == Swapped(old(shardQueue[..]), first)
    {
      var tmp := shardQueue[first];
      shardQueue[first] := shardQueue[first + 1];
      shardQueue[first + 1] := tmp;
      shardQueue[first].shardQueueIndex := first;
      shardQueue[first + 1].shardQueueIndex := first + 1;
    }

    // Restores the order of the queue after the shard's deadline has changed, and wakes the poll thread.
    method OnDeadlineChanged(shard: TimerShard)
      requires QueueLinked() && shard in shards
      modifies shardQueue, shards`shardQueueIndex, this`wakeups
      ensures QueueLinked() && shardQueue[..] == old(Requeued(shard))
      ensures old(QueueSortedExcept(shard)) ==> QueueSorted()
      ensures DeadlinesKept() && wakeups == old(wakeups) + 1
    {
      Reorder(shard);
      wakeups := wakeups + 1;
    }

    method Reorder(shard: TimerShard)
      requires QueueLinked() && shard in shards
      modifies shardQueue, shards`shardQueueIndex
      ensures QueueLinked() && shardQueue[..] == old(Requeued(shard)) && DeadlinesKept()
      ensures old(QueueSortedExcept(shard)) ==> QueueSorted()
    {
      ghost var sorts, key := QueueSortedExcept(shard), Deadlines();
      if sorts {
        RequeuedSorts(shard);
      }
      Requeue(shard, key);
      if sorts {
        NowSorted(key);
      }
    }

    // The two loops.
    method Requeue(shard: TimerShard, ghost key: map<TimerShard, Time>)
      requires QueueLinked() && shard in shards && Deadlines() == key
      modifies shardQueue, shards`shardQueueIndex
      ensures QueueLinked() && DeadlinesKept() && HasKey(key)
      ensures shardQueue[..] == old(Requeued(shard))
    {
      MoveForward(shard, key);
      MoveBackward(shard, key);
    }

    lemma RequeuedSorts(shard: TimerShard)
      requires QueueLinked() && shard in shards && QueueSortedExcept(shard)
      ensures Keyed(Requeued(shard), Deadlines()) && Sorted(Requeued(shard), Deadlines())
    {
      RearrangedSorts(shardQueue[..], Deadlines(), shard.shardQueueIndex);
    }

    lemma NowSorted(key: map<TimerShard, Time>)
      requires QueueLinked() && HasKey(key) && Keyed(shardQueue[..], key) && Sorted(shardQueue[..], key)
      ensures QueueSorted()
    {
    }

    ghost predicate HasKey(key: map<TimerShard, Time>)
      reads shards`minDeadline
    {
      forall s | s in shards :: s in key && key[s] == s.minDeadline
    }

    method MoveForward(shard: TimerShard, ghost key: map<TimerShard, Time>)
      requires QueueLinked() && shard in shards && HasKey(key)
      modifies shardQueue, shards`shardQueueIndex
      ensures QueueLinked() && HasKey(key)
      ensures MovedBack(shardQueue[..], key, shard.shardQueueIndex) ==
              old(Rearranged(shardQueue[..], key, shard.shardQueueIndex))
    {
      ghost var q, i := shardQueue[..], shard.shardQueueIndex;
      while shard.shardQueueIndex > 0
            && shard.minDeadline < shardQueue[shard.shardQueueIndex - 1].minDeadline
        invariant QueueLinked() && HasKey(key)
        invariant shardQueue[..] == q && shard.shardQueueIndex == i && Keyed(q, key)
        invariant Rearranged(q, key, i) == old(Rearranged(shardQueue[..], key, shard.shardQueueIndex))
        decreases i
      {
        SwapAdjacentShardsInQueue(shard.shardQueueIndex - 1);
        q, i := Swapped(q, i - 1), i - 1;
      }
    }

    method MoveBackward(shard: TimerShard, ghost key: map<TimerShard, Time>)
      requires QueueLinked() && shard in shards && HasKey(key)
      modifies shardQueue, shards`shardQueueIndex
      ensures QueueLinked() && HasKey(key)
      ensures shardQueue[..] == old(MovedBack(shardQueue[..], key, shard.shardQueueIndex))
    {
      ghost var q, i := shardQueue[..], shard.shardQueueIndex;
      while shard.shardQueueIndex < NUM_SHARDS - 1
            && shard.minDeadline > shardQueue[shard.shardQueueIndex + 1].minDeadline
        invariant QueueLinked() && HasKey(key)
        invariant shardQueue[..] == q && shard.shardQueueIndex == i && Keyed(q, key)
        invariant MovedBack(q, key, i) == old(MovedBack(shardQueue[..], key, shard.shardQueueIndex))
        decreases NUM_SHARDS - i
      {
        SwapAdjacentShardsInQueue(shard.shardQueueIndex);
        q, i := Swapped(q, i), i + 1;
      }
    }

    // No two shards share an object, and every pending timer is in the shard its hash selects.
    ghost predicate Apart()
      requires |shards| == NUM_SHARDS
      reads this, shards, Heaps()
    {
      && (forall s, r | s in shards && r in shards && s != r ::
            s.stats != r.stats && s.urgentTimers != r.urgentTimers && s.urgentTimers.slots != r.urgentTimers.slots)
      && (forall s, t | s in shards && t in s.Pending() :: ShardOf(t) == s)
    }

    ghost function Heaps(): set<TimerHeap> {
      set s | s in shards :: s.urgentTimers
    }

    ghost function AllStats(): set<AveragedStats> {
      set s | s in shards :: s.stats
    }

    ghost function AllSlots(): set<array<Timer>>
      reads Heaps()
    {
      set s | s in shards :: s.urgentTimers.slots
    }

    // Every pending timer of every shard.
    ghost function Timers(): set<Timer>
      reads shards, Heaps()
    {
      set s, t | s in shards && t in s.Pending() :: t
    }

    // The manager as a plain table of pending timers.
    ghost function Table(): map<Timer, Time>
      reads shards, Heaps(), Timers()
    {
      map t | t in Timers() :: t.deadline
    }

    // What holds even while a new first deadline has not been published.
    ghost predicate Healthy()
      reads this, shardQueue, shards, AllStats(), Heaps(), AllSlots(), Timers()
    {
      && QueueLinked()
      && Apart()
      && forall s | s in shards :: s.Valid() && s.heapCapacity == INFINITE
    }

    // Every shard's known first deadline is no later than its timers; those that never fire do not count.
    ghost predicate Bounded()
      reads shards, Heaps(), Timers()
    {
      forall s | s in shards :: s.View().Bound(s.minDeadline)
    }

    // Bounded, as soon as this deadline becomes the known first one of the shard.
    ghost predicate BoundedWith(shard: TimerShard, deadline: Time)
      reads shards, Heaps(), Timers()
    {
      forall s | s in shards :: s.View().Bound(if s == shard then deadline else s.minDeadline)
    }

    // The known first deadline of the shard once a timer just inserted into it is published.
    ghost function Published(shard: TimerShard, isFirst: bool, deadline: Time): Time
      reads shard`minDeadline
    {
      if isFirst && deadline < shard.minDeadline then deadline else shard.minDeadline
    }

    // What holds whenever the manager's lock is free, however many threads are between the two sections of
    // starting a timer.
    ghost predicate Orderly()
      reads this, shardQueue, shards, AllStats(), Heaps(), AllSlots(), Timers()
    {
      Healthy() && QueueSorted()
    }

    // What holds when, moreover, no thread is.
    ghost predicate Valid()
      reads this, shardQueue, shards, AllStats(), Heaps(), AllSlots(), Timers()
    {
      Orderly() && Bounded()
    }

    twostate predicate SlotsSame()
      reads Heaps()
    {
      forall s | s in shards :: s.urgentTimers.slots == old(s.urgentTimers.slots)
    }

    twostate predicate DeadlinesKept()
      reads shards
    {
      forall s | s in shards :: s.minDeadline == old(s.minDeadline)
    }

    // The storage of each heap is what it was or new.
    twostate predicate SlotsKept()
      reads Heaps()
    {
      forall a | a in AllSlots() :: a in old(AllSlots()) || fresh(a)
    }

    function ShardOf(timer: Timer): TimerShard
      requires |shards| == NUM_SHARDS
    {
      shards[ShardIndex(timer.hash)]
    }

    lemma TimersAreKeys()
      ensures Timers() == Table().Keys
    {
    }

    lemma TableIs(table: map<Timer, Time>)
      requires table.Keys == Timers()
      requires forall t | t in table :: table[t] == t.deadline
      ensures Table() == table
    {
    }

    // What the shards other than this one consist of.
    ghost function Others(shard: TimerShard): set<TimerShard> {
      set s | s in shards && s != shard
    }

    ghost function OtherStats(shard: TimerShard): set<AveragedStats> {
      set s | s in Others(shard) :: s.stats
    }

    ghost function OtherHeaps(shard: TimerShard): set<TimerHeap> {
      set s | s in Others(shard) :: s.urgentTimers
    }

    ghost function OtherSlots(shard: TimerShard): set<array<Timer>>
      reads Heaps()
    {
      set s | s in Others(shard) :: s.urgentTimers.slots
    }

    ghost function OtherTimers(shard: TimerShard): set<Timer>
      reads shards, Heaps()
    {
      set s, t | s in Others(shard) && t in s.Pending() :: t
    }

    lemma ShardApart(shard: TimerShard)
      requires Healthy() && shard in shards
      ensures shard.stats !in OtherStats(shard) && shard.urgentTimers !in OtherHeaps(shard)
      ensures shard.urgentTimers.slots !in OtherSlots(shard)
      ensures shard.Pending() !! OtherTimers(shard)
      ensures forall t | t in OtherTimers(shard) :: t.pending
    {
      forall t | t in OtherTimers(shard)
        ensures t !in shard.Pending() && t.pending
      {
        var s :| s in Others(shard) && t in s.Pending();
        assert ShardOf(t) == s;
      }
    }

    twostate predicate OthersKept(shard: TimerShard)
      reads shards, Heaps(), Timers()
    {
      forall s | s in shards && s != shard :: s.View() == old(s.View()) && s.Pending() == old(s.Pending())
    }

    // After a step of one shard, the manager is healthy if that shard is.
    twostate lemma OneShardStep(shard: TimerShard)
      requires old(Healthy()) && shard in shards
      requires unchanged(shardQueue) && unchanged(shards`shardQueueIndex)
      requires unchanged(Others(shard), OtherStats(shard), OtherHeaps(shard), old(OtherSlots(shard)))
      requires unchanged(old(OtherTimers(shard)))
      requires shard.Valid() && shard.heapCapacity == INFINITE
      requires shard.urgentTimers.slots == old(shard.urgentTimers.slots) || fresh(shard.urgentTimers.slots)
      requires forall t | t in shard.Pending() :: ShardOf(t) == shard
      requires shard.minDeadline == old(shard.minDeadline)
      ensures Healthy()
      ensures OthersKept(shard)
      ensures SlotsKept() && DeadlinesKept()
    {
      forall s | s in Others(shard)
        ensures s.Valid() && s.View() == old(s.View()) && s.Pending() == old(s.Pending())
      {
        assert forall t | t in old(s.Pending()) :: t in old(OtherTimers(shard));
        assert s.stats in OtherStats(shard) && s.urgentTimers in OtherHeaps(shard);
        assert old(s.urgentTimers.slots) in old(OtherSlots(shard));
        s.Kept();
      }
      forall s, r | s in shards && r in shards && s != r
        ensures s.urgentTimers.slots != r.urgentTimers.slots
      {
        assert s != shard ==> s in Others(shard) && s.urgentTimers in OtherHeaps(shard);
        assert r != shard ==> r in Others(shard) && r.urgentTimers in OtherHeaps(shard);
      }
      forall s | s in shards
        ensures s.Valid() && s.heapCapacity == INFINITE && forall t | t in s.Pending() :: ShardOf(t) == s
      {
        assert s != shard ==> s in Others(shard);
      }
    }

    // Moving shards in the queue touches no timer.
    twostate lemma QueueStep()
      requires old(Healthy()) && QueueLinked()
      requires unchanged(shards`heapCapacity, shards`lessUrgentTimers, AllStats(), Heaps(), old(AllSlots()))
      requires unchanged(old(Timers()))
      ensures Healthy() && SlotsSame() && Timers() == old(Timers())
      ensures forall s | s in shards :: s.View() == old(s.View()) && s.Pending() == old(s.Pending())
    {
      forall s | s in shards
        ensures s.Valid() && s.View() == old(s.View()) && s.Pending() == old(s.Pending())
      {
        assert forall t | t in old(s.Pending()) :: t in old(Timers());
        s.Kept();
      }
    }

    // The order of the queue depends on the known first deadlines alone.
    twostate lemma SortedKept()
      requires QueueLinked() && unchanged(shardQueue) && DeadlinesKept()
      requires old(QueueLinked() && QueueSorted())
      ensures QueueSorted()
    {
    }

    // The known first deadlines bound the timers if that of the shard that changed does.
    twostate lemma BoundedKept(shard: TimerShard)
      requires old(Bounded()) && DeadlinesKept() && shard in shards
      requires forall s | s in shards && s != shard :: s.View() == old(s.View())
      requires shard.View().Bound(shard.minDeadline)
      ensures Bounded()
    {
    }

    lemma AllPending()
      requires Healthy()
      ensures forall t | t in Timers() :: t.pending
    {
    }

    // Every pending timer is in the shard its hash selects.
    lemma TimerInShard(t: Timer)
      requires Healthy() && (t.pending ==> t in Timers())
      ensures t.pending <==> t in ShardOf(t).Pending()
    {
    }

    // What the manager's parts are made of.
    lemma ShardParts(shard: TimerShard)
      requires shard in shards
      ensures shard.urgentTimers in Heaps() && shard.urgentTimers.slots in AllSlots() && shard.Pending() <= Timers()
    {
    }

    twostate lemma TimersBut(timer: Timer)
      requires old(Healthy()) && Healthy()
      requires forall s | s in shards :: s.Pending() - {timer} == old(s.Pending()) - {timer}
      ensures Timers() - {timer} == old(Timers()) - {timer}
    {
      forall t
        ensures t in Timers() - {timer} <==> t in old(Timers()) - {timer}
      {
        assert forall s | s in shards :: t in s.Pending() - {timer} <==> t in old(s.Pending()) - {timer};
      }
    }

    twostate lemma TimersGain(timer: Timer)
      requires old(Healthy()) && Healthy()
      requires forall s | s in shards && s != ShardOf(timer) :: s.Pending() == old(s.Pending())
      requires ShardOf(timer).Pending() == old(ShardOf(timer).Pending()) + {timer}
      ensures Timers() == old(Timers()) + {timer}
    {
      TimersBut(timer);
    }

    twostate lemma TimersLose(timer: Timer)
      requires old(Healthy()) && Healthy() && !timer.pending
      requires forall s | s in shards && s != ShardOf(timer) :: s.Pending() == old(s.Pending())
      requires ShardOf(timer).Pending() == old(ShardOf(timer).Pending()) - {timer}
      ensures Timers() == old(Timers()) - {timer}
    {
      TimersBut(timer);
      AllPending();
    }

    // Starting a timer, first critical section: insert under the shard's lock.
    method InsertTimer(timer: Timer, deadline: Time, timeout: Time) returns (isFirst: bool)
      requires Healthy() && !timer.pending
      requires ShardOf(timer).HasRoom()
      modifies ShardOf(timer)`lessUrgentTimers, ShardOf(timer).stats, ShardOf(timer).urgentTimers
      modifies ShardOf(timer).urgentTimers.slots, timer, ShardOf(timer).Pending()`heapIndex
      ensures Healthy() && SlotsKept() && timer.pending && Timers() == old(Timers()) + {timer}
      ensures DeadlinesKept() && wakeups == old(wakeups)
      ensures old(Orderly()) ==> Orderly()
      ensures ShardOf(timer).View() == old(ShardOf(timer).View()).Insert(timer, deadline)
      ensures forall s | s in shards && s != ShardOf(timer) :: s.View() == old(s.View())
      ensures ShardOf(timer).stats.current == old(ShardOf(timer).stats.current) + [WholeSeconds(timeout) as real]
      ensures isFirst <==> old(ShardOf(timer).View()).WouldBeFirst(deadline)
      ensures old(Bounded()) ==> BoundedWith(ShardOf(timer), Published(ShardOf(timer), isFirst, deadline))
    {
      isFirst := InsertBounded(ShardOf(timer), timer, deadline, timeout);
      if old(Orderly()) {
        SortedKept();
      }
    }

    method InsertBounded(shard: TimerShard, timer: Timer, deadline: Time, timeout: Time) returns (isFirst: bool)
      requires Healthy() && !timer.pending && shard == ShardOf(timer) && shard.HasRoom()
      modifies shard`lessUrgentTimers, shard.stats, shard.urgentTimers, shard.urgentTimers.slots
      modifies timer, shard.Pending()`heapIndex
      ensures Healthy() && SlotsKept() && timer.pending && Timers() == old(Timers()) + {timer}
      ensures DeadlinesKept() && wakeups == old(wakeups)
      ensures shard.View() == old(shard.View()).Insert(timer, deadline)
      ensures forall s | s in shards && s != shard :: s.View() == old(s.View())
      ensures shard.stats.current == old(shard.stats.current) + [WholeSeconds(timeout) as real]
      ensures isFirst <==> old(shard.View()).WouldBeFirst(deadline)
      ensures old(Bounded()) ==> BoundedWith(shard, Published(shard, isFirst, deadline))
    {
      ghost var view := shard.View();
      isFirst := InsertInShard(shard, timer, deadline, timeout);
      if old(Bounded()) {
        view.InsertKeepsBound(timer, deadline, shard.minDeadline);
      }
    }

    method InsertInShard(shard: TimerShard, timer: Timer, deadline: Time, timeout: Time) returns (isFirst: bool)
      requires Healthy() && !timer.pending && shard == ShardOf(timer) && shard.HasRoom()
      modifies shard`lessUrgentTimers, shard.stats, shard.urgentTimers, shard.urgentTimers.slots
      modifies timer, shard.Pending()`heapIndex
      ensures Healthy() && SlotsKept() && timer.pending && Timers() == old(Timers()) + {timer}
      ensures DeadlinesKept() && wakeups == old(wakeups)
      ensures shard.View() == old(shard.View()).Insert(timer, deadline) && timer !in old(shard.View()).pending
      ensures forall s | s in shards && s != shard :: s.View() == old(s.View())
      ensures shard.stats.current == old(shard.stats.current) + [WholeSeconds(timeout) as real]
      ensures isFirst <==> old(shard.View()).WouldBeFirst(deadline)
    {
      isFirst := InsertApart(shard, timer, deadline, timeout);
      TimersGain(timer);
    }

    method InsertApart(shard: TimerShard, timer: Timer, deadline: Time, timeout: Time) returns (isFirst: bool)
      requires Healthy() && !timer.pending && shard == ShardOf(timer) && shard.HasRoom()
      modifies shard`lessUrgentTimers, shard.stats, shard.urgentTimers, shard.urgentTimers.slots
      modifies timer, shard.Pending()`heapIndex
      ensures Healthy() && SlotsKept() && timer.pending
      ensures DeadlinesKept() && wakeups == old(wakeups)
      ensures shard.View() == old(shard.View()).Insert(timer, deadline) && timer !in old(shard.View()).pending
      ensures shard.Pending() == old(shard.Pending()) + {timer} && OthersKept(shard)
      ensures shard.stats.current == old(shard.stats.current) + [WholeSeconds(timeout) as real]
      ensures isFirst <==> old(shard.View()).WouldBeFirst(deadline)
    {
      ShardApart(shard);
      isFirst := shard.Insert(timer, deadline, timeout);
      OneShardStep(shard);
    }

    // Starting a timer, second critical section: publish the new first deadline under the manager's lock.
    method PublishDeadline(shard: TimerShard, isFirst: bool, deadline: Time)
      requires Orderly() && shard in shards
      modifies shard`minDeadline, shardQueue, shards`shardQueueIndex, this`wakeups
      ensures Orderly() && SlotsSame() && Timers() == old(Timers())
      ensures old(BoundedWith(shard, Published(shard, isFirst, deadline))) ==> Bounded()
      ensures shard.stats.current == old(shard.stats.current)
      ensures forall s | s in shards :: s.View() == old(s.View())
      ensures shard.minDeadline == old(Published(shard, isFirst, deadline))
      ensures forall s | s in shards && s != shard :: s.minDeadline == old(s.minDeadline)
      ensures wakeups == old(wakeups) + (if isFirst && deadline < old(shard.minDeadline) then 1 else 0)
    {
      if isFirst && deadline < shard.minDeadline {
        SetDeadline(shard, deadline);
      }
    }

    // Writes a shard's known first deadline and restores the queue.
    method SetDeadline(shard: TimerShard, deadline: Time)
      requires Orderly() && shard in shards
      modifies shard`minDeadline, shardQueue, shards`shardQueueIndex, this`wakeups
      ensures Orderly() && SlotsSame() && Timers() == old(Timers())
      ensures old(BoundedWith(shard, deadline)) ==> Bounded()
      ensures forall s | s in shards :: s.View() == old(s.View())
      ensures forall s | s in shards && s != shard :: s.minDeadline == old(s.minDeadline)
      ensures shard.minDeadline == deadline && wakeups == old(wakeups) + 1
    {
      WriteDeadline(shard, deadline);
    }

    method WriteDeadline(shard: TimerShard, deadline: Time)
      requires Orderly() && shard in shards
      modifies shard`minDeadline, shardQueue, shards`shardQueueIndex, this`wakeups
      ensures Orderly() && SlotsSame() && Timers() == old(Timers())
      ensures forall s | s in shards ::
                s.View() == old(s.View()) && s.minDeadline == if s == shard then deadline else old(s.minDeadline)
      ensures wakeups == old(wakeups) + 1
    {
      StoreDeadline(shard, deadline);
      QueueStep();
    }

    method StoreDeadline(shard: TimerShard, deadline: Time)
      requires QueueLinked() && QueueSorted() && shard in shards
      modifies shard`minDeadline, shardQueue, shards`shardQueueIndex, this`wakeups
      ensures QueueLinked() && QueueSorted()
      ensures forall s | s in shards :: s.minDeadline == if s == shard then deadline else old(s.minDeadline)
      ensures wakeups == old(wakeups) + 1
    {
      shard.minDeadline := deadline;
      OnDeadlineChanged(shard);
    }

    // When every insertion has been published, the known first deadline alone decides.
    lemma SoonerIsFirst(shard: TimerShard, deadline: Time)
      requires Healthy() && Bounded() && shard in shards && deadline < shard.minDeadline
      ensures shard.View().WouldBeFirst(deadline)
    {
    }

    // A timer started in this shard with this deadline wakes the poll thread: it is due before the known first
    // deadline and before every timer of the heap.
    ghost predicate Wakes(shard: TimerShard, deadline: Time)
      reads shard, shard.urgentTimers, shard.Pending()
    {
      shard.View().WouldBeFirst(deadline) && deadline < shard.minDeadline
    }

    // Both critical sections in a row.
    method TimerInit(now: Time, timeout: Time, timer: Timer)
      requires Orderly() && !timer.pending
      requires ShardOf(timer).HasRoom()
      requires -0x8000_0000_0000_0000 <= now + timeout <= INFINITE
      modifies ShardOf(timer)`lessUrgentTimers, ShardOf(timer)`minDeadline, ShardOf(timer).stats
      modifies ShardOf(timer).urgentTimers, ShardOf(timer).urgentTimers.slots
      modifies timer, ShardOf(timer).Pending()`heapIndex
      modifies shardQueue, shards`shardQueueIndex, this`wakeups
      ensures Orderly() && SlotsKept() && timer.pending && Timers() == old(Timers()) + {timer}
      ensures old(Bounded()) ==> Bounded()
      ensures ShardOf(timer).View() == old(ShardOf(timer).View()).Insert(timer, now + timeout)
      ensures forall s | s in shards && s != ShardOf(timer) :: s.View() == old(s.View())
      ensures ShardOf(timer).stats.current == old(ShardOf(timer).stats.current) + [WholeSeconds(timeout) as real]
      ensures wakeups == old(wakeups) + (if old(Wakes(ShardOf(timer), now + timeout)) then 1 else 0)
    {
      var shard := ShardOf(timer);
      var deadline: Time := now + timeout;
      Start(shard, timer, deadline, timeout);
      AllPending();
    }

    method Start(shard: TimerShard, timer: Timer, deadline: Time, timeout: Time)
      requires Orderly() && !timer.pending && shard == ShardOf(timer) && shard.HasRoom()
      modifies shard`lessUrgentTimers, shard`minDeadline, shard.stats
      modifies shard.urgentTimers, shard.urgentTimers.slots, timer, shard.Pending()`heapIndex
      modifies shardQueue, shards`shardQueueIndex, this`wakeups
      ensures Orderly() && SlotsKept() && Timers() == old(Timers()) + {timer}
      ensures old(Bounded()) ==> Bounded()
      ensures shard.View() == old(shard.View()).Insert(timer, deadline)
      ensures forall s | s in shards && s != shard :: s.View() == old(s.View())
      ensures shard.stats.current == old(shard.stats.current) + [WholeSeconds(timeout) as real]
      ensures wakeups == old(wakeups) + (if old(Wakes(shard, deadline)) then 1 else 0)
    {
      var isFirst := InsertTimer(timer, deadline, timeout);
      PublishDeadline(shard, isFirst, deadline);
    }

    // Cancelling runs under the shard's lock alone; the known first deadline may become too early.
    method TimerCancel(timer: Timer)
      requires Healthy() && (timer.pending ==> timer in Timers())
      modifies ShardOf(timer)`lessUrgentTimers, ShardOf(timer).urgentTimers, ShardOf(timer).urgentTimers.slots
      modifies ShardOf(timer).Pending()`heapIndex, ShardOf(timer).Pending()`pending
      ensures Healthy() && SlotsKept() && DeadlinesKept() && !timer.pending && Timers() == old(Timers()) - {timer}
      ensures old(Orderly()) ==> Orderly()
      ensures old(Bounded()) ==> Bounded()
      ensures ShardOf(timer).View() == old(ShardOf(timer).View()).Remove(timer)
      ensures forall s | s in shards && s != ShardOf(timer) :: s.View() == old(s.View())
    {
      TimerInShard(timer);
      CancelBounded(ShardOf(timer), timer);
      if old(Orderly()) {
        SortedKept();
      }
    }

    method CancelBounded(shard: TimerShard, timer: Timer)
      requires Healthy() && shard == ShardOf(timer) && (timer.pending <==> timer in shard.Pending())
      modifies shard`lessUrgentTimers, shard.urgentTimers, shard.urgentTimers.slots
      modifies shard.Pending()`heapIndex, shard.Pending()`pending
      ensures Healthy() && SlotsKept() && DeadlinesKept() && !timer.pending && Timers() == old(Timers()) - {timer}
      ensures old(Bounded()) ==> Bounded()
      ensures shard.View() == old(shard.View()).Remove(timer)
      ensures forall s | s in shards && s != shard :: s.View() == old(s.View())
    {
      ghost var view := shard.View();
      CancelInShard(shard, timer);
      if old(Bounded()) {
        view.RemoveKeepsBound(timer, shard.minDeadline);
        BoundedKept(shard);
      }
    }

    method CancelInShard(shard: TimerShard, timer: Timer)
      requires Healthy() && shard == ShardOf(timer) && (timer.pending <==> timer in shard.Pending())
      modifies shard`lessUrgentTimers, shard.urgentTimers, shard.urgentTimers.slots
      modifies shard.Pending()`heapIndex, shard.Pending()`pending
      ensures Healthy() && SlotsKept() && DeadlinesKept() && !timer.pending && Timers() == old(Timers()) - {timer}
      ensures shard.View() == old(shard.View()).Remove(timer)
      ensures forall s | s in shards && s != shard :: s.View() == old(s.View())
    {
      CancelApart(shard, timer);
      TimersLose(timer);
    }

    method CancelApart(shard: TimerShard, timer: Timer)
      requires Healthy() && shard in shards && (timer.pending <==> timer in shard.Pending())
      modifies shard`lessUrgentTimers, shard.urgentTimers, shard.urgentTimers.slots
      modifies shard.Pending()`heapIndex, shard.Pending()`pending
      ensures Healthy() && SlotsKept() && DeadlinesKept() && !timer.pending
      ensures shard.View() == old(shard.View()).Remove(timer)
      ensures shard.Pending() == old(shard.Pending()) - {timer} && OthersKept(shard)
    {
      ShardApart(shard);
      shard.Cancel(timer);
      OneShardStep(shard);
    }

    // One round of the check: fire the due timers of one shard and bring its known first deadline up to date.
    method FireShard(shard: TimerShard, now: Time) returns (posted: seq<Timer>)
      requires Orderly() && shard in shards && now < INFINITE
      modifies shard`heapCapacity, shard`lessUrgentTimers, shard`minDeadline, shard.stats
      modifies shard.urgentTimers, shard.urgentTimers.slots, shard.Pending()`heapIndex, shard.Pending()`pending
      modifies shards`shardQueueIndex, shardQueue, this`wakeups
      ensures Orderly() && SlotsKept() && wakeups == old(wakeups) + 1
      ensures old(Bounded()) ==> Bounded()
      ensures old(shard.View()).Fires(now, posted, shard.View()) && now < shard.minDeadline
      ensures forall s | s in shards && s != shard :: s.View() == old(s.View()) && s.minDeadline == old(s.minDeadline)
    {
      var newMinDeadline;
      newMinDeadline, posted := PopAndBound(shard, now);
      SetDeadline(shard, newMinDeadline);
    }

    method PopAndBound(shard: TimerShard, now: Time) returns (newMinDeadline: Time, posted: seq<Timer>)
      requires Orderly() && shard in shards && now < INFINITE
      modifies shard`heapCapacity, shard`lessUrgentTimers, shard.stats
      modifies shard.urgentTimers, shard.urgentTimers.slots, shard.Pending()`heapIndex, shard.Pending()`pending
      ensures Orderly() && SlotsKept() && DeadlinesKept()
      ensures old(Bounded()) ==> BoundedWith(shard, newMinDeadline)
      ensures old(shard.View()).Fires(now, posted, shard.View())
      ensures now < newMinDeadline
      ensures forall s | s in shards && s != shard :: s.View() == old(s.View())
    {
      newMinDeadline, posted := PopInShard(shard, now);
      SortedKept();
      shard.View().MinDeadlineIsBound(newMinDeadline);
    }

    method PopInShard(shard: TimerShard, now: Time) returns (newMinDeadline: Time, posted: seq<Timer>)
      requires Healthy() && shard in shards && now < INFINITE
      modifies shard`heapCapacity, shard`lessUrgentTimers, shard.stats
      modifies shard.urgentTimers, shard.urgentTimers.slots, shard.Pending()`heapIndex, shard.Pending()`pending
      ensures Healthy() && SlotsKept() && DeadlinesKept()
      ensures old(shard.View()).Fires(now, posted, shard.View())
      ensures shard.View().IsMinDeadline(newMinDeadline) && now < newMinDeadline
      ensures forall s | s in shards && s != shard :: s.View() == old(s.View())
    {
      ShardApart(shard);
      var n;
      n, newMinDeadline, posted := shard.PopTimers(now);
      assert unchanged(Others(shard));
      assert unchanged(OtherStats(shard));
      OneShardStep(shard);
    }

    ghost function Overdue(now: Time): set<TimerShard>
      reads shards`minDeadline
    {
      set s | s in shards && s.minDeadline <= now
    }

    // The first shard of the queue has the least known first deadline.
    lemma FirstIsLeast()
      requires Orderly()
      ensures shardQueue[0] in shards && forall s | s in shards :: shardQueue[0].minDeadline <= s.minDeadline
    {
    }

    // Once no shard is known to be due and every insertion has been published, no timer is due.
    lemma NothingDue(now: Time)
      requires Bounded() && now < INFINITE && forall s | s in shards :: now < s.minDeadline
      ensures forall t | t in Table() :: now < Table()[t]
    {
      forall t | t in Table()
        ensures now < Table()[t]
      {
        var s :| s in shards && t in s.Pending();
        assert t in s.View().pending && s.View().pending[t] == t.deadline;
      }
    }

    // Fires the due timers of every shard known to be due, and says how long the poll thread may sleep.
    // When every insertion has been published, these are all the due timers.
    method TimerCheck(now: Time) returns (timeout: Time, posted: seq<Timer>)
      requires Orderly() && 0 <= now < INFINITE
      modifies shards`heapCapacity, shards`lessUrgentTimers, shards`minDeadline, shards`shardQueueIndex
      modifies AllStats(), Heaps(), AllSlots(), Timers()`heapIndex, Timers()`pending, shardQueue, this`wakeups
      ensures Orderly() && SlotsKept() && Timers() <= old(Timers())
      ensures TakenOut(old(Table()), now, posted, Table())
      ensures old(Bounded()) ==> Bounded() && ToSet(posted) == set t | t in old(Table()) && old(Table())[t] <= now
      ensures forall s | s in shards :: now < s.minDeadline
      ensures IsTimeout(now, timeout)
    {
      ghost var table := Table();
      posted := FireAll(now);
      FirstIsLeast();
      if old(Bounded()) {
        NothingDue(now);
        TakenOutAll(table, now, posted, Table());
      }
      timeout := INFINITE;
      var minDeadline := shardQueue[0].minDeadline;
      if minDeadline != INFINITE {
        timeout := minDeadline - now;
      }
    }

    // The time from now to the least known first deadline, or Infinite.
    ghost predicate IsTimeout(now: Time, timeout: Time)
      reads shards`minDeadline
    {
      if forall s | s in shards :: s.minDeadline == INFINITE then timeout == INFINITE
      else (forall s | s in shards :: now + timeout <= s.minDeadline)
           && (exists s :: s in shards && s.minDeadline == now + timeout)
    }

    // The loop of TimerCheck.  Each round leaves fewer shards whose known first deadline has passed.
    method FireAll(now: Time) returns (posted: seq<Timer>)
      requires Orderly() && now < INFINITE
      modifies shards`heapCapacity, shards`lessUrgentTimers, shards`minDeadline, shards`shardQueueIndex
      modifies AllStats(), Heaps(), AllSlots(), Timers()`heapIndex, Timers()`pending, shardQueue, this`wakeups
      ensures Orderly() && SlotsKept() && Timers() <= old(Timers()) && now < shardQueue[0].minDeadline
      ensures old(Bounded()) ==> Bounded()
      ensures TakenOut(old(Table()), now, posted, Table())
    {
      posted := [];
      ghost var table := Table();
      while shardQueue[0].minDeadline <= now
        invariant Orderly() && SlotsKept()
        invariant old(Bounded()) ==> Bounded()
        invariant TakenOut(table, now, posted, Table()) && Timers() <= old(Timers())
        decreases Overdue(now)
      {
        posted := FireMore(now, table, posted);
      }
    }

    method FireMore(now: Time, ghost table: map<Timer, Time>, posted: seq<Timer>) returns (more: seq<Timer>)
      requires Orderly() && now < INFINITE && shardQueue[0].minDeadline <= now
      requires TakenOut(table, now, posted, Table())
      modifies shards`heapCapacity, shards`lessUrgentTimers, shards`minDeadline, shards`shardQueueIndex
      modifies AllStats(), Heaps(), AllSlots(), Timers()`heapIndex, Timers()`pending, shardQueue, this`wakeups
      ensures Orderly() && SlotsKept() && Overdue(now) < old(Overdue(now))
      ensures old(Bounded()) ==> Bounded()
      ensures TakenOut(table, now, more, Table())
      ensures Timers() <= old(Timers())
    {
      ghost var before := Table();
      TimersAreKeys();
      var fired := CheckRound(now);
      TimersAreKeys();
      TakenOutTwice(table, now, posted, before, fired, Table());
      more := posted + fired;
    }

    method CheckRound(now: Time) returns (posted: seq<Timer>)
      requires Orderly() && now < INFINITE && shardQueue[0].minDeadline <= now
      modifies shards`heapCapacity, shards`lessUrgentTimers, shards`minDeadline, shards`shardQueueIndex
      modifies AllStats(), Heaps(), AllSlots(), Timers()`heapIndex, Timers()`pending, shardQueue, this`wakeups
      ensures Orderly() && SlotsKept() && Overdue(now) < old(Overdue(now))
      ensures old(Bounded()) ==> Bounded()
      ensures TakenOut(old(Table()), now, posted, Table())
    {
      ghost var table := Table();
      ghost var view;
      posted, view := FireInTable(now);
      FiringTakesOut(table, now, view, posted, Table());
    }

    method FireInTable(now: Time) returns (posted: seq<Timer>, ghost view: ShardView<Timer>)
      requires Orderly() && now < INFINITE && shardQueue[0].minDeadline <= now
      modifies shards`heapCapacity, shards`lessUrgentTimers, shards`minDeadline, shards`shardQueueIndex
      modifies AllStats(), Heaps(), AllSlots(), Timers()`heapIndex, Timers()`pending, shardQueue, this`wakeups
      ensures Orderly() && SlotsKept() && Overdue(now) < old(Overdue(now))
      ensures old(Bounded()) ==> Bounded()
      ensures view.InOrder(posted) && ToSet(posted) == view.Due(now)
      ensures forall t | t in view.pending :: t in old(Table()) && old(Table())[t] == view.pending[t]
      ensures Table() == old(Table()) - view.Due(now)
      ensures forall t, u | t in view.pending && u in Table() && SameShard(t, u) :: now < Table()[u]
    {
      ghost var first := shardQueue[0];
      view := first.View();
      ShardInTable(first);
      posted := FireFirst(now);
      RoundEffect(now);
      LaterInTable(first, now);
    }

    // A shard's part of the table.
    lemma ShardInTable(shard: TimerShard)
      requires Healthy() && shard in shards
      ensures forall t | t in shard.View().pending ::
                t in Table() && Table()[t] == shard.View().pending[t] && ShardOf(t) == shard
    {
    }

    lemma LaterInTable(shard: TimerShard, now: Time)
      requires Healthy() && shard in shards && forall t | t in shard.View().pending :: now < shard.View().pending[t]
      ensures forall t | t in Table() && ShardOf(t) == shard :: now < Table()[t]
    {
      forall t | t in Table() && ShardOf(t) == shard
        ensures now < Table()[t]
      {
        var s :| s in shards && t in s.Pending();
        assert ShardOf(t) == s;
        assert t in shard.View().pending;
      }
    }

    // Fires the first shard of the queue.
    method FireFirst(now: Time) returns (posted: seq<Timer>)
      requires Orderly() && now < INFINITE && shardQueue[0].minDeadline <= now
      modifies shards`heapCapacity, shards`lessUrgentTimers, shards`minDeadline, shards`shardQueueIndex
      modifies AllStats(), Heaps(), AllSlots(), Timers()`heapIndex, Timers()`pending, shardQueue, this`wakeups
      ensures Orderly() && SlotsKept() && Overdue(now) < old(Overdue(now))
      ensures old(Bounded()) ==> Bounded()
      ensures old(shardQueue[0].View()).InOrder(posted) && ToSet(posted) == old(shardQueue[0].View()).Due(now)
      ensures RoundTakes(now)
    {
      posted := FireOverdue(shardQueue[0], now);
    }

    method FireOverdue(shard: TimerShard, now: Time) returns (posted: seq<Timer>)
      requires Orderly() && now < INFINITE && shard in shards && shard.minDeadline <= now
      modifies shard`heapCapacity, shard`lessUrgentTimers, shard`minDeadline, shard.stats
      modifies shard.urgentTimers, shard.urgentTimers.slots, shard.Pending()`heapIndex, shard.Pending()`pending
      modifies shards`shardQueueIndex, shardQueue, this`wakeups
      ensures Orderly() && SlotsKept() && Overdue(now) < old(Overdue(now))
      ensures old(Bounded()) ==> Bounded()
      ensures old(shard.View()).InOrder(posted) && ToSet(posted) == old(shard.View()).Due(now)
      ensures shard.View().pending == old(shard.View()).pending - old(shard.View()).Due(now)
      ensures forall s | s in shards && s != shard :: s.View() == old(s.View())
    {
      assert shard in old(Overdue(now));
      posted := FireShard(shard, now);
      assert shard !in Overdue(now);
    }

    // The due timers of the first shard of the queue leave; the other shards keep theirs.
    twostate predicate RoundTakes(now: Time)
      requires old(Healthy())
      reads this, shardQueue, shards, AllStats(), Heaps(), AllSlots(), Timers()
    {
      var shard := old(shardQueue[0]);
      && shard.View().pending == old(shard.View()).pending - old(shard.View()).Due(now)
      && forall s | s in shards && s != shard :: s.View() == old(s.View())
    }

    // What that means for the timers of all.
    twostate lemma RoundEffect(now: Time)
      requires old(Healthy()) && Healthy() && RoundTakes(now)
      ensures Table() == old(Table()) - old(shardQueue[0].View()).Due(now)
    {
      TimersLeft(now);
      TimersStay(now);
      TableIs(old(Table()) - old(shardQueue[0].View()).Due(now));
    }

    twostate lemma TimersLeft(now: Time)
      requires old(Healthy()) && Healthy() && RoundTakes(now)
      ensures var gone := old(shardQueue[0].View()).Due(now);
              forall t | t in Timers() :: t in old(Table()) && t !in gone && old(Table())[t] == t.deadline
    {
      var gone := old(shardQueue[0].View()).Due(now);
      forall t | t in Timers()
        ensures t in old(Table()) && t !in gone && old(Table())[t] == t.deadline
      {
        var s :| s in shards && t in s.Pending();
        assert t in s.View().pending && s.View().pending[t] == t.deadline;
        assert t in old(s.View()).pending && old(s.View()).pending[t] == t.deadline;
        assert t in old(s.Pending()) && ShardOf(t) == s;
      }
    }

    twostate lemma TimersStay(now: Time)
      requires old(Healthy()) && Healthy() && RoundTakes(now)
      ensures forall t | t in old(Table()) && t !in old(shardQueue[0].View()).Due(now) :: t in Timers()
    {
      var gone := old(shardQueue[0].View()).Due(now);
      forall t | t in old(Table()) && t !in gone
        ensures t in Timers()
      {
        var s :| s in shards && t in old(s.Pending());
        assert t in old(s.View()).pending;
        assert t in s.View().pending;
      }
    }
  }
}
