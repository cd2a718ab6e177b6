/**
 What a timer shard is for, without its heap and list: a plain table of pending timers and their
 deadlines.  The capacity splits it: the timers due before it are urgent (they are in the heap).
 */
module ShardViews {
  import opened Times

  datatype ShardView<!T(==)> = ShardView(pending: map<T, Time>, capacity: Time) {

    ghost function Urgent(): set<T> {
      set t | t in pending && pending[t] < capacity
    }

    ghost function Due(now: Time): set<T> {
      set t | t in pending && pending[t] <= now
    }

    function Insert(t: T, deadline: Time): ShardView<T> {
      this.(pending := pending[t := deadline])
    }

    function Remove(t: T): ShardView<T> {
      this.(pending := pending - {t})
    }

    // A timer with this deadline would be the unique first one of the heap.
    ghost predicate WouldBeFirst(deadline: Time) {
      deadline < capacity && forall t | t in Urgent() :: deadline < pending[t]
    }

    // m is the deadline of the first timer of the heap; the list is not looked at.
    ghost predicate IsMinDeadline(m: Time) {
      if Urgent() == {} then m == INFINITE
      else (exists t :: t in Urgent() && pending[t] == m) && (forall t | t in Urgent() :: m <= pending[t])
    }

    // `fired` lists timers of this table, each once, in the order of their deadlines.
    ghost predicate InOrder(fired: seq<T>) {
      && (forall i | 0 <= i < |fired| :: fired[i] in pending)
      && (forall i, j | 0 <= i < j < |fired| :: fired[i] != fired[j] && pending[fired[i]] <= pending[fired[j]])
    }

    // At time `now` exactly the due timers fire, in the order `fired`, and leave the table.
    // The capacity moves only from a time that has been reached to one that has not.
    ghost predicate Fires(now: Time, fired: seq<T>, after: ShardView<T>) {
      && InOrder(fired)
      && (set t | t in fired) == Due(now)
      && after.pending == pending - Due(now)
      && (after.capacity == capacity || capacity <= now < after.capacity)
    }

    // Part of the way there: `fired` has gone and every timer in `left` comes after all of `fired`.
    ghost predicate Firing(now: Time, fired: seq<T>, left: set<T>) {
      && InOrder(fired)
      && left == pending.Keys - (set t | t in fired)
      && (forall t | t in fired :: pending[t] <= now)
      && (forall t, x | t in fired && x in left :: pending[t] <= pending[x])
    }

    lemma FireNext(now: Time, fired: seq<T>, left: set<T>, t: T)
      requires Firing(now, fired, left)
      requires t in left && pending[t] <= now && forall x | x in left :: pending[t] <= pending[x]
      ensures Firing(now, fired + [t], left - {t})
    {
    }

    // There is always an order in which the due timers can fire, and always a first deadline.
    lemma {:induction false} SomeOrder(now: Time) returns (fired: seq<T>)
      ensures InOrder(fired) && (set t | t in fired) == Due(now)
      decreases |Due(now)|
    {
      if Due(now) == {} {
        fired := [];
      } else {
        var last := LastOf(Due(now));
        var rest := Remove(last);
        assert rest.Due(now) == Due(now) - {last};
        var before := rest.SomeOrder(now);
        fired := before + [last];
        forall i | 0 <= i < |before|
          ensures before[i] in Due(now) && before[i] != last
        {
          assert before[i] in rest.Due(now);
        }
        assert (set t | t in fired) == (set t | t in before) + {last};
      }
    }

    lemma {:induction false} LastOf(some: set<T>) returns (last: T)
      requires some != {} && some <= pending.Keys
      ensures last in some && forall t | t in some :: pending[t] <= pending[last]
      decreases |some|
    {
      last :| last in some;
      if some != {last} {
        var other := LastOf(some - {last});
        if pending[last] < pending[other] {
          last := other;
        }
      }
    }

    lemma {:induction false} FirstOf(some: set<T>) returns (first: T)
      requires some != {} && some <= pending.Keys
      ensures first in some && forall t | t in some :: pending[first] <= pending[t]
      decreases |some|
    {
      first :| first in some;
      if some != {first} {
        var other := FirstOf(some - {first});
        if pending[other] < pending[first] {
          first := other;
        }
      }
    }

    lemma SomeMin() returns (m: Time)
      ensures IsMinDeadline(m)
    {
      if Urgent() == {} {
        m := INFINITE;
      } else {
        var first := FirstOf(Urgent());
        m := pending[first];
      }
    }

    // m is no later than any timer that will ever fire.
    ghost predicate Bound(m: Time) {
      forall t | t in pending && pending[t] < INFINITE :: m <= pending[t]
    }

    // Publishing a new first deadline, and only that, keeps the known deadline a bound.
    lemma InsertKeepsBound(t: T, deadline: Time, m: Time)
      requires capacity == INFINITE && Bound(m) && t !in pending
      ensures Insert(t, deadline).Bound(if WouldBeFirst(deadline) && deadline < m then deadline else m)
    {
    }

    lemma RemoveKeepsBound(t: T, m: Time)
      requires Bound(m)
      ensures Remove(t).Bound(m)
    {
    }

    // With the capacity at Infinite the heap holds every timer that will ever fire.
    lemma MinDeadlineIsBound(m: Time)
      requires capacity == INFINITE && IsMinDeadline(m)
      ensures Bound(m)
    {
      forall t | t in pending && pending[t] < INFINITE
        ensures m <= pending[t]
      {
        assert t in Urgent();
      }
    }
  }
}
