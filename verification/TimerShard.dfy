/** One shard of timers: a heap of those due before `heapCapacity` and an unordered list of the rest. */
module TimerShards {
  import opened AverageStats
  import opened ShardViews
  import opened TimerHeaps
  import opened Times

  const ADD_DEADLINE_SCALE := 0.33
  const MIN_QUEUE_WINDOW_DURATION := 0.01
  const MAX_QUEUE_WINDOW_DURATION := 1.0

  // The shortest and the longest window, in the unit of Time.
  const MIN_WINDOW := 10 * MILLISECOND
  const MAX_WINDOW := 1000 * MILLISECOND

  function Max(x: Time, y: Time): Time {
    if x < y then y else x
  }

  function Clamp(val: real, min: real, max: real): real {
    if val < min then min else if val > max then max else val
  }

  lemma DistinctConcat(s: seq<Timer>, r: seq<Timer>)
    requires Distinct(s) && Distinct(r) && ToSet(s) !! ToSet(r)
    ensures Distinct(s + r) && ToSet(s + r) == ToSet(s) + ToSet(r)
  {
    forall i, j | 0 <= i < j < |s + r|
      ensures (s + r)[i] != (s + r)[j]
    {
      if i < |s| <= j {
        assert s[i] in ToSet(s) && r[j - |s|] in ToSet(r);
      }
    }
  }

  // How far the capacity moves, given the average time to a timer's deadline in seconds.
  function Window(average: real): (window: Time)
    ensures MIN_WINDOW <= window <= MAX_WINDOW
  {
    MILLISECOND * (Clamp(average * ADD_DEADLINE_SCALE, MIN_QUEUE_WINDOW_DURATION, MAX_QUEUE_WINDOW_DURATION) * 1000.0).Floor
  }

  // C++ division truncates.
  function WholeSeconds(t: int): int {
    if t >= 0 then t / 1_000_000 else -(-t / 1_000_000)
  }

  // LIST_REMOVE.
  function Without(s: seq<Timer>, t: Timer): (r: seq<Timer>)
    requires Distinct(s)
    ensures ToSet(r) == ToSet(s) - {t} && Distinct(r)
    ensures |r| == if t in s then |s| - 1 else |s|
  {
    if s == [] then [] else
    assert ToSet(s) == {s[0]} + ToSet(s[1..]);
    assert forall x | x in s[1..] :: x != s[0];
    if s[0] == t then s[1..] else
    var r := [s[0]] + Without(s[1..], t);
    assert ToSet(r) == {s[0]} + ToSet(Without(s[1..], t));
    assert forall x | x in Without(s[1..], t) :: x in ToSet(s[1..]);
    r
  }

  class TimerShard {
    const stats: AveragedStats
    // All and only timers due before this are in the heap.
    var heapCapacity: Time
    // The deadline of the first timer, as far as the manager knows.
    var minDeadline: Time
    // Where the manager's queue holds this shard.
    var shardQueueIndex: nat
    const urgentTimers: TimerHeap
    var lessUrgentTimers: seq<Timer>

    ghost predicate Valid()
      reads this, stats, urgentTimers, urgentTimers.slots, Pending()
    {
      && Shaped()
      && forall t | t in lessUrgentTimers :: heapCapacity <= t.deadline
    }

    // Valid, but a timer in the list may belong in the heap.
    ghost predicate Shaped()
      reads this, stats, urgentTimers, urgentTimers.slots, Pending()
    {
      && stats.Valid()
      && urgentTimers.Valid()
      && urgentTimers.count + |lessUrgentTimers| <= MAX_TIMERS
      && Distinct(lessUrgentTimers)
      && (forall t | t in Pending() :: t.pending)
      && (forall t | t in urgentTimers.members :: t !in lessUrgentTimers && t.deadline < heapCapacity)
      && (forall t | t in lessUrgentTimers :: t.heapIndex == INVALID_INDEX)
    }

    ghost function Pending(): set<Timer>
      reads this, urgentTimers
    {
      urgentTimers.members + ToSet(lessUrgentTimers)
    }

    // The shard as a plain table.
    ghost function View(): ShardView<Timer>
      reads this, urgentTimers, Pending()
    {
      ShardView(map t | t in Pending() :: t.deadline, heapCapacity)
    }

    // The objects the shard consists of, apart from its timers.
    ghost function Parts(): set<object>
      reads this, urgentTimers
    {
      {this, stats, urgentTimers, urgentTimers.slots}
    }

    // A shard as the manager's constructor leaves it, at place i of the queue.
    constructor (i: nat)
      ensures IsNew(i) && fresh(Parts())
    {
      stats := new AveragedStats(Settings(1.0 / ADD_DEADLINE_SCALE, 0.1, 0.5));
      heapCapacity := INFINITE;
      shardQueueIndex := i;
      minDeadline := INFINITE;
      urgentTimers := new TimerHeap();
      lessUrgentTimers := [];
    }

    ghost predicate IsNew(i: nat)
      reads this, stats, urgentTimers, urgentTimers.slots, Pending()
    {
      Valid() && Pending() == {} && heapCapacity == minDeadline == INFINITE && shardQueueIndex == i
    }

    ghost predicate HasRoom()
      reads this, urgentTimers
    {
      urgentTimers.count + |lessUrgentTimers| < MAX_TIMERS
    }

    // There is room while fewer timers than that are pending.
    lemma RoomIsSize()
      requires Shaped()
      ensures HasRoom() <==> |Pending()| < MAX_TIMERS
    {
      urgentTimers.CountIsSize();
      DistinctSize(lessUrgentTimers);
    }

    // If the capacity has to move past `now`, the new one does not overflow.
    ghost predicate WindowFits(now: Time)
      reads this`heapCapacity
    {
      heapCapacity <= now ==> now + MAX_WINDOW <= INFINITE
    }

    lemma UrgentAreInHeap()
      requires Valid()
      ensures View().Urgent() == urgentTimers.members
      ensures View().pending.Keys == Pending()
    {
    }

    // Any table of the pending timers and their deadlines is the view.
    lemma ViewIs(table: map<Timer, Time>)
      requires table.Keys == Pending()
      requires forall t | t in table :: table[t] == t.deadline
      ensures View() == ShardView(table, heapCapacity)
    {
    }

    // A shard keeps its timers whatever happens to its place in the queue and its known first deadline.
    twostate lemma Kept()
      requires old(Valid())
      requires unchanged(`heapCapacity, `lessUrgentTimers, stats, urgentTimers, old(urgentTimers.slots))
      requires forall t | t in old(Pending()) :: unchanged(t)
      ensures Valid() && Pending() == old(Pending()) && View() == old(View())
    {
      ViewIs(old(View()).pending);
    }

    // A timer in the list is told from one in the heap by its slot number alone.
    lemma HeapIndexDecides(t: Timer)
      requires Valid() && t in Pending()
      ensures t.heapIndex == INVALID_INDEX <==> t in lessUrgentTimers
      ensures t.heapIndex != INVALID_INDEX <==> t in urgentTimers.members
      ensures t in urgentTimers.members <==> t in View().Urgent()
    {
    }

    // The part of starting a timer that runs under the shard's lock.
    method Insert(timer: Timer, deadline: Time, timeout: Time) returns (isFirst: bool)
      requires Valid() && timer !in Pending()
      requires HasRoom()
      modifies this`lessUrgentTimers, stats, urgentTimers, urgentTimers.slots, timer, Pending()`heapIndex
      ensures Valid() && (urgentTimers.slots == old(urgentTimers.slots) || fresh(urgentTimers.slots))
      ensures Pending() == old(Pending()) + {timer}
      ensures View() == old(View()).Insert(timer, deadline)
      ensures minDeadline == old(minDeadline) && stats.current == old(stats.current) + [WholeSeconds(timeout) as real]
      ensures isFirst <==> old(View()).WouldBeFirst(deadline)
    {
      ghost var view := View();
      UrgentAreInHeap();
      isFirst := Start(timer, deadline, timeout);
      ViewIs(view.pending[timer := deadline]);
    }

    method Start(timer: Timer, deadline: Time, timeout: Time) returns (isFirst: bool)
      requires Valid() && timer !in Pending() && HasRoom()
      modifies this`lessUrgentTimers, stats, urgentTimers, urgentTimers.slots, timer, Pending()`heapIndex
      ensures Valid() && (urgentTimers.slots == old(urgentTimers.slots) || fresh(urgentTimers.slots))
      ensures Pending() == old(Pending()) + {timer} && timer.deadline == deadline
      ensures stats.current == old(stats.current) + [WholeSeconds(timeout) as real]
      ensures isFirst <==>
                deadline < heapCapacity && forall x | x in old(urgentTimers.members) :: deadline < x.deadline
    {
      Prepare(timer, deadline, timeout);
      isFirst := Place(timer);
    }

    // Puts a prepared timer where its deadline belongs.
    method Place(timer: Timer) returns (isFirst: bool)
      requires Valid() && timer !in Pending() && timer.pending && HasRoom()
      modifies this`lessUrgentTimers, urgentTimers, urgentTimers.slots, timer`heapIndex, Pending()`heapIndex
      ensures Valid() && (urgentTimers.slots == old(urgentTimers.slots) || fresh(urgentTimers.slots))
      ensures Pending() == old(Pending()) + {timer}
      ensures isFirst <==>
                timer.deadline < heapCapacity && forall x | x in old(urgentTimers.members) :: timer.deadline < x.deadline
    {
      if timer.deadline < heapCapacity {
        isFirst := AddUrgent(timer);
      } else {
        isFirst := false;
        AddLessUrgent(timer);
      }
    }

    method Prepare(timer: Timer, deadline: Time, timeout: Time)
      requires Valid() && timer !in Pending()
      modifies stats, timer`deadline, timer`pending
      ensures Valid() && timer.deadline == deadline && timer.pending
      ensures stats.current == old(stats.current) + [WholeSeconds(timeout) as real]
    {
      timer.deadline := deadline;
      timer.pending := true;
      stats.AddSample(WholeSeconds(timeout) as real);
    }

    method AddUrgent(timer: Timer) returns (isFirst: bool)
      requires Shaped() && timer !in Pending() && timer.pending && timer.deadline < heapCapacity
      requires HasRoom()
      modifies urgentTimers, urgentTimers.slots, timer`heapIndex, Pending()`heapIndex
      ensures Shaped() && (urgentTimers.slots == old(urgentTimers.slots) || fresh(urgentTimers.slots))
      ensures urgentTimers.members == old(urgentTimers.members) + {timer}
      ensures Pending() == old(Pending()) + {timer}
      ensures isFirst <==> forall x | x in old(urgentTimers.members) :: timer.deadline < x.deadline
    {
      isFirst := urgentTimers.Add(timer);
    }

    method AddLessUrgent(timer: Timer)
      requires Valid() && timer !in Pending() && timer.pending && heapCapacity <= timer.deadline
      requires HasRoom()
      modifies this`lessUrgentTimers, timer`heapIndex
      ensures Valid()
      ensures ToSet(lessUrgentTimers) == old(ToSet(lessUrgentTimers)) + {timer}
      ensures Pending() == old(Pending()) + {timer}
    {
      timer.heapIndex := INVALID_INDEX;
      lessUrgentTimers := [timer] + lessUrgentTimers;
    }

    // The part of cancelling a timer that runs under the shard's lock.
    method Cancel(timer: Timer)
      requires Valid() && (timer.pending <==> timer in Pending())
      modifies this`lessUrgentTimers, urgentTimers, urgentTimers.slots, Pending()`heapIndex, Pending()`pending
      ensures Valid() && (urgentTimers.slots == old(urgentTimers.slots) || fresh(urgentTimers.slots))
      ensures Pending() == old(Pending()) - {timer} && !timer.pending
      ensures minDeadline == old(minDeadline)
      ensures View() == old(View()).Remove(timer)
    {
      ghost var view := View();
      if timer.pending {
        Unlink(timer);
        timer.pending := false;
      }
      ViewIs(view.pending - {timer});
    }

    method Unlink(timer: Timer)
      requires Valid() && timer in Pending()
      modifies this`lessUrgentTimers, urgentTimers, urgentTimers.slots, Pending()`heapIndex
      ensures Valid() && (urgentTimers.slots == old(urgentTimers.slots) || fresh(urgentTimers.slots))
      ensures Pending() == old(Pending()) - {timer}
    {
      if timer.heapIndex == INVALID_INDEX {
        lessUrgentTimers := Without(lessUrgentTimers, timer);
      } else {
        urgentTimers.Remove(timer);
      }
      assert Pending() == old(Pending()) - {timer};
    }

    // The deadline of the first timer of the heap, Infinite without one.
    method ComputeMinDeadline() returns (m: Time)
      requires Valid()
      ensures View().IsMinDeadline(m)
    {
      UrgentAreInHeap();
      if urgentTimers.count == 0 {
        assert forall t | t in urgentTimers.members :: false;
        m := INFINITE;
      } else {
        var top := urgentTimers.Top();
        m := top.deadline;
        assert top in View().Urgent() && View().pending[top] == m;
      }
    }

    // Moves the capacity past `now` and pulls all timers under it into the heap.
    method RefillHeap(now: Time) returns (nonempty: bool)
      requires Valid()
      requires Max(now, heapCapacity) + MAX_WINDOW <= INFINITE
      modifies this`heapCapacity, this`lessUrgentTimers, stats
      modifies urgentTimers, urgentTimers.slots, Pending()`heapIndex
      ensures Valid() && (urgentTimers.slots == old(urgentTimers.slots) || fresh(urgentTimers.slots))
      ensures Pending() == old(Pending())
      ensures stats.batches == old(stats.batches) + [old(stats.current)]
      ensures heapCapacity == Max(now, old(heapCapacity)) + Window(stats.aggregateWeightedAvg)
      ensures Max(now, old(heapCapacity)) + MIN_WINDOW <= heapCapacity <= Max(now, old(heapCapacity)) + MAX_WINDOW
      ensures nonempty <==> urgentTimers.count > 0
    {
      var average := stats.UpdateAverage();
      var deadlineDelta := Clamp(average * ADD_DEADLINE_SCALE, MIN_QUEUE_WINDOW_DURATION, MAX_QUEUE_WINDOW_DURATION);
      heapCapacity := Max(now, heapCapacity) + MILLISECOND * (deadlineDelta * 1000.0).Floor;
      PullUrgent();
      nonempty := urgentTimers.count > 0;
    }

    // The walk along the list, which takes out the timers that now belong in the heap.
    method PullUrgent()
      requires Shaped()
      modifies this`lessUrgentTimers, urgentTimers, urgentTimers.slots, Pending()`heapIndex
      ensures Valid() && (urgentTimers.slots == old(urgentTimers.slots) || fresh(urgentTimers.slots))
      ensures Pending() == old(Pending())
    {
      var i := 0;
      while i < |lessUrgentTimers|
        invariant 0 <= i <= |lessUrgentTimers|
        invariant Shaped() && (urgentTimers.slots == old(urgentTimers.slots) || fresh(urgentTimers.slots))
        invariant Pending() == old(Pending())
        invariant forall k | 0 <= k < i :: heapCapacity <= lessUrgentTimers[k].deadline
        decreases |lessUrgentTimers| - i
      {
        if lessUrgentTimers[i].deadline < heapCapacity {
          MoveToHeap(i);
        } else {
          i := i + 1;
        }
      }
    }

    method MoveToHeap(i: nat)
      requires Shaped() && i < |lessUrgentTimers| && lessUrgentTimers[i].deadline < heapCapacity
      modifies this`lessUrgentTimers, urgentTimers, urgentTimers.slots, Pending()`heapIndex
      ensures Shaped() && (urgentTimers.slots == old(urgentTimers.slots) || fresh(urgentTimers.slots))
      ensures Pending() == old(Pending())
      ensures lessUrgentTimers == old(lessUrgentTimers[..i]) + old(lessUrgentTimers[i + 1..])
    {
      var timer := lessUrgentTimers[i];
      var others := lessUrgentTimers[..i] + lessUrgentTimers[i + 1..];
      assert ToSet(lessUrgentTimers) == ToSet(others) + {timer};
      lessUrgentTimers := others;
      var first := AddUrgent(timer);
    }

    // Takes out a first timer of the whole shard if one is due.
    method PopOne(now: Time) returns (timer: Timer?)
      requires Valid() && WindowFits(now)
      modifies this`heapCapacity, this`lessUrgentTimers, stats
      modifies urgentTimers, urgentTimers.slots, Pending()`heapIndex, Pending()`pending
      ensures Valid() && (urgentTimers.slots == old(urgentTimers.slots) || fresh(urgentTimers.slots))
      ensures heapCapacity == old(heapCapacity) || old(heapCapacity) <= now < heapCapacity
      ensures timer == null <==> forall t | t in old(Pending()) :: now < t.deadline
      ensures timer == null ==> Pending() == old(Pending())
      ensures timer != null ==>
                && timer in old(Pending()) && timer.deadline <= now && !timer.pending
                && (forall t | t in old(Pending()) :: timer.deadline <= t.deadline)
                && Pending() == old(Pending()) - {timer}
    {
      var nonempty := RefillIfEmpty(now);
      if !nonempty {
        return null;
      }
      timer := urgentTimers.Top();
      if timer.deadline > now {
        return null;
      }
      TakeTop(timer);
    }

    method RefillIfEmpty(now: Time) returns (nonempty: bool)
      requires Valid() && WindowFits(now)
      modifies this`heapCapacity, this`lessUrgentTimers, stats
      modifies urgentTimers, urgentTimers.slots, Pending()`heapIndex
      ensures Valid() && (urgentTimers.slots == old(urgentTimers.slots) || fresh(urgentTimers.slots))
      ensures heapCapacity == old(heapCapacity) || old(heapCapacity) <= now < heapCapacity
      ensures Pending() == old(Pending())
      ensures nonempty <==> urgentTimers.count > 0
      ensures urgentTimers.count == 0 ==> forall t | t in Pending() :: now < t.deadline
    {
      if urgentTimers.count > 0 {
        return true;
      }
      if now < heapCapacity {
        assert forall t | t in urgentTimers.members :: false;
        return false;
      }
      nonempty := RefillHeap(now);
      assert !nonempty ==> forall t | t in urgentTimers.members :: false;
    }

    method TakeTop(timer: Timer)
      requires Valid() && urgentTimers.count > 0 && timer == urgentTimers.slots[0]
      modifies urgentTimers, urgentTimers.slots, Pending()`heapIndex, timer`pending
      ensures Valid() && (urgentTimers.slots == old(urgentTimers.slots) || fresh(urgentTimers.slots))
      ensures Pending() == old(Pending()) - {timer} && !timer.pending
    {
      urgentTimers.Pop();
      timer.pending := false;
      assert Pending() == old(Pending()) - {timer};
    }

    // Fires every due timer: `posted` are the timers whose closures go to the task runner, in turn.
    method PopTimers(now: Time) returns (n: nat, newMinDeadline: Time, posted: seq<Timer>)
      requires Valid() && WindowFits(now) && now < INFINITE
      modifies this`heapCapacity, this`lessUrgentTimers, stats
      modifies urgentTimers, urgentTimers.slots, Pending()`heapIndex, Pending()`pending
      ensures Valid() && (urgentTimers.slots == old(urgentTimers.slots) || fresh(urgentTimers.slots))
      ensures old(View()).Fires(now, posted, View()) && n == |posted|
      ensures Pending() <= old(Pending())
      ensures minDeadline == old(minDeadline)
      ensures View().IsMinDeadline(newMinDeadline) && now < newMinDeadline
    {
      ghost var view := View();
      n, posted := PopAllDue(now);
      ghost var after := View();
      assert view.Fires(now, posted, after);
      newMinDeadline := MinDeadlineAfter(now);
      assert View() == after;
    }

    // Once no timer is due, the first deadline is later than now.
    method MinDeadlineAfter(now: Time) returns (m: Time)
      requires Valid() && now < INFINITE && forall t | t in Pending() :: now < t.deadline
      ensures View().IsMinDeadline(m) && now < m
    {
      m := ComputeMinDeadline();
      FirstIsLater(now, m);
    }

    lemma FirstIsLater(now: Time, m: Time)
      requires View().IsMinDeadline(m) && now < INFINITE && forall t | t in Pending() :: now < t.deadline
      ensures now < m
    {
    }

    method PopAllDue(now: Time) returns (n: nat, posted: seq<Timer>)
      requires Valid() && WindowFits(now)
      modifies this`heapCapacity, this`lessUrgentTimers, stats
      modifies urgentTimers, urgentTimers.slots, Pending()`heapIndex, Pending()`pending
      ensures Valid() && (urgentTimers.slots == old(urgentTimers.slots) || fresh(urgentTimers.slots))
      ensures old(View()).Fires(now, posted, View()) && n == |posted|
      ensures minDeadline == old(minDeadline)
      ensures Pending() <= old(Pending())
      ensures forall t | t in Pending() :: now < t.deadline
    {
      ghost var view := View();
      n, posted := PopDue(now, view);
      DueAreGone(now, view, posted);
    }

    lemma DueAreGone(now: Time, view: ShardView<Timer>, posted: seq<Timer>)
      requires PartlyFired(now, view, posted) && forall t | t in Pending() :: now < t.deadline
      ensures view.Fires(now, posted, View())
    {
    }

    // The loop of PopTimers.
    method PopDue(now: Time, ghost view: ShardView<Timer>) returns (n: nat, posted: seq<Timer>)
      requires Valid() && WindowFits(now) && view == View()
      modifies this`heapCapacity, this`lessUrgentTimers, stats
      modifies urgentTimers, urgentTimers.slots, Pending()`heapIndex, Pending()`pending
      ensures Valid() && (urgentTimers.slots == old(urgentTimers.slots) || fresh(urgentTimers.slots))
      ensures PartlyFired(now, view, posted) && n == |posted|
      ensures forall t | t in Pending() :: now < t.deadline
    {
      n, posted := 0, [];
      while true
        invariant Valid() && (urgentTimers.slots == old(urgentTimers.slots) || fresh(urgentTimers.slots))
        invariant PartlyFired(now, view, posted) && n == |posted|
        invariant Pending() <= old(Pending())
        decreases Pending()
      {
        var timer := PopNext(now, view, posted);
        if timer == null {
          break;
        }
        var fired: Timer := timer;
        posted := posted + [fired];
        n := n + 1;
      }
    }

    ghost predicate PartlyFired(now: Time, view: ShardView<Timer>, posted: seq<Timer>)
      reads this, urgentTimers, Pending()
    {
      && (heapCapacity == view.capacity || view.capacity <= now < heapCapacity)
      && view.Firing(now, posted, Pending())
      && forall t | t in Pending() :: view.pending[t] == t.deadline
    }

    method PopNext(now: Time, ghost view: ShardView<Timer>, ghost posted: seq<Timer>) returns (timer: Timer?)
      requires Valid() && WindowFits(now) && PartlyFired(now, view, posted)
      modifies this`heapCapacity, this`lessUrgentTimers, stats
      modifies urgentTimers, urgentTimers.slots, Pending()`heapIndex, Pending()`pending
      ensures Valid() && (urgentTimers.slots == old(urgentTimers.slots) || fresh(urgentTimers.slots))
      ensures timer == null ==> PartlyFired(now, view, posted) && forall t | t in Pending() :: now < t.deadline
      ensures timer != null ==> PartlyFired(now, view, posted + [timer]) && !timer.pending
      ensures timer != null ==> timer in old(Pending()) && Pending() == old(Pending()) - {timer}
    {
      ghost var left := Pending();
      timer := PopOne(now);
      if timer != null {
        view.FireNext(now, posted, left, timer);
      }
    }
  }
}
