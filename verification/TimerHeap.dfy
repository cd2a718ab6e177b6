/** The array min-heap of timers; each timer knows its own slot. */
module TimerHeaps {
  import opened HeapOrder
  import opened Times

  const INVALID_INDEX := 0xffff_ffff

  // Slot numbers are 32-bit: beyond this many timers a child's slot number would wrap around.
  const MAX_TIMERS := 0x8000_0000

  const SHRINK_MIN_ELEMS := 8
  const SHRINK_FULLNESS_FACTOR := 2

  class Timer {
    var deadline: Time
    var pending: bool
    var heapIndex: nat
    // What hashing the timer's address gives; it selects the timer's shard.
    const hash: nat

    constructor (hash: nat)
      ensures !pending && heapIndex == INVALID_INDEX && deadline == 0 && this.hash == hash
    {
      deadline := 0;
      pending := false;
      heapIndex := INVALID_INDEX;
      this.hash := hash;
    }
  }

  ghost function Keys(s: seq<Timer>): (d: seq<int>)
    reads s
    ensures |d| == |s|
    ensures forall i | 0 <= i < |s| :: d[i] == s[i].deadline
  {
    seq(|s|, i requires 0 <= i < |s| reads s => s[i].deadline)
  }

  ghost predicate Distinct(s: seq<Timer>) {
    forall i, j | 0 <= i < j < |s| :: s[i] != s[j]
  }

  function ToSet(s: seq<Timer>): set<Timer> {
    set t | t in s
  }

  lemma {:induction false} DistinctSize(s: seq<Timer>)
    requires Distinct(s)
    ensures |ToSet(s)| == |s|
  {
    if s != [] {
      DistinctSize(s[1..]);
      assert ToSet(s) == ToSet(s[1..]) + {s[0]};
    }
  }

  class TimerHeap {
    // The vector's storage: `slots.Length` is its capacity, `count` its size.
    var slots: array<Timer>
    var count: nat
    ghost var members: set<Timer>

    // Every member and its slot point at each other.
    ghost predicate Linked()
      reads this, slots, members
    {
      && count <= slots.Length
      && count <= MAX_TIMERS
      && (forall k | 0 <= k < count :: slots[k] in members && slots[k].heapIndex == k)
      && (forall t | t in members :: t.heapIndex < count && slots[t.heapIndex] == t)
    }

    ghost predicate Valid()
      reads this, slots, members
    {
      Linked() && Ordered(Keys(slots[..count]))
    }

    // No member is due before t.
    ghost predicate IsLeast(t: Timer)
      reads this, members, t
    {
      t in members && forall x | x in members :: t.deadline <= x.deadline
    }

    lemma CountIsSize()
      requires Linked()
      ensures count == |members|
    {
      assert forall k | 0 <= k < count :: slots[..count][k].heapIndex == k;
      assert members == ToSet(slots[..count]);
      DistinctSize(slots[..count]);
    }

    constructor ()
      ensures Valid() && members == {} && count == 0 && fresh(slots)
    {
      slots := new Timer[0];
      count := 0;
      members := {};
    }

    // True iff the new timer is due strictly before every other.
    method Add(timer: Timer) returns (first: bool)
      requires Valid() && timer !in members && count < MAX_TIMERS
      modifies this, slots, members`heapIndex, timer`heapIndex
      ensures Valid() && members == old(members) + {timer} && count == old(count) + 1
      ensures slots == old(slots) || fresh(slots)
      ensures first <==> forall x | x in old(members) :: timer.deadline < x.deadline
    {
      ghost var d := Keys(slots[..count]);
      timer.heapIndex := count;
      PushBack(timer);
      AppendMakesUpHole(d, timer.deadline);
      assert Keys(slots[..count]) == d + [timer.deadline];
      label pushed:
      AdjustUpwards(timer.heapIndex);
      first := timer.heapIndex == 0;
      RootLeast();
      if first {
        forall x | x in old(members)
          ensures timer.deadline < x.deadline
        {
          RootIsLeast(d, old(x.heapIndex));
        }
      }
    }

    // std::vector::push_back: a full vector moves to storage twice as large.
    method PushBack(timer: Timer)
      requires Linked() && timer !in members && timer.heapIndex == count < MAX_TIMERS
      modifies this, slots
      ensures Linked() && members == old(members) + {timer} && count == old(count) + 1
      ensures slots[..count] == old(slots[..count]) + [timer]
      ensures slots == old(slots) || fresh(slots)
    {
      if count == slots.Length {
        var room := new Timer[if count == 0 then 1 else 2 * count](_ => timer);
        forall k | 0 <= k < count {
          room[k] := slots[k];
        }
        slots := room;
      }
      slots[count] := timer;
      count := count + 1;
      members := members + {timer};
    }

    method Remove(timer: Timer)
      requires Valid() && timer in members
      modifies this, slots, members`heapIndex
      ensures Valid() && members == old(members) - {timer} && count == old(count) - 1
      ensures slots == old(slots) || fresh(slots)
      ensures SHRINK_MIN_ELEMS <= count ==> slots.Length < 4 * (count + 1)
    {
      var i := timer.heapIndex;
      if i == count - 1 {
        ghost var d := Keys(slots[..count]);
        count := count - 1;
        members := members - {timer};
        assert Keys(slots[..count]) == d[..count];
      } else {
        FillFromLast(i);
        Settle(i);
      }
      MaybeShrink();
    }

    // Moves the timer that was written into slot i up or down to its place.
    method Settle(i: nat)
      requires Linked() && i < count
      requires var e := Keys(slots[..count]);
               if exists p :: Edge(p, i) && e[i] < e[p] then UpHole(e, i) else DownHole(e, i)
      modifies slots, members`heapIndex
      ensures Valid()
    {
      // C++ division truncates: the root is its own parent here.
      var parent := if i == 0 then 0 else (i - 1) / 2;
      assert i > 0 ==> Edge(parent, i);
      if slots[parent].deadline > slots[i].deadline {
        AdjustUpwards(i);
      } else {
        AdjustDownwards(i);
      }
    }

    // Writes the last timer over slot i and drops the last slot.
    method FillFromLast(i: nat)
      requires Valid() && i < count - 1
      modifies this, slots, members`heapIndex
      ensures Linked() && members == old(members) - {old(slots[i])} && count == old(count) - 1
      ensures slots == old(slots)
      ensures var e := Keys(slots[..count]);
              if exists p :: Edge(p, i) && e[i] < e[p] then UpHole(e, i) else DownHole(e, i)
    {
      ghost var d := Keys(slots[..count]);
      WriteLastOver(i);
      assert Keys(slots[..count]) == d[i := d[count]][..count];
      OverwriteMakesHole(d, i);
    }

    method WriteLastOver(i: nat)
      requires Linked() && i < count - 1
      modifies this, slots, members`heapIndex
      ensures Linked() && members == old(members) - {old(slots[i])} && count == old(count) - 1
      ensures slots == old(slots)
      ensures forall k | 0 <= k < count :: slots[k] == if k == i then old(slots[count - 1]) else old(slots[k])
    {
      members := members - {slots[i]};
      slots[i] := slots[count - 1];
      slots[i].heapIndex := i;
      count := count - 1;
    }

    method Top() returns (timer: Timer)
      requires Valid() && count > 0
      ensures IsLeast(timer) && timer == slots[0]
    {
      RootLeast();
      timer := slots[0];
    }

    // Removes a timer that no other member is due before.
    method Pop()
      requires Valid() && count > 0
      modifies this, slots, members`heapIndex
      ensures Valid() && members == old(members) - {old(slots[0])} && count == old(count) - 1
      ensures old(IsLeast(slots[0]))
      ensures slots == old(slots) || fresh(slots)
    {
      var top := Top();
      Remove(top);
    }

    lemma RootLeast()
      requires Valid()
      ensures count > 0 ==> IsLeast(slots[0])
    {
      forall x | x in members
        ensures slots[0].deadline <= x.deadline
      {
        RootIsLeast(Keys(slots[..count]), x.heapIndex);
      }
    }

    // Moves the timer in slot `start` towards the root until its parent is no later.
    method AdjustUpwards(start: nat)
      requires Linked() && start < count && UpHole(Keys(slots[..count]), start)
      modifies slots, members`heapIndex
      ensures Valid()
      ensures start > 0 && slots[0] == old(slots[start]) ==> slots[0].deadline < old(slots[0]).deadline
    {
      var i := start;
      var t := slots[i];
      ghost var v, d := slots[..count], Keys(slots[..count]);
      while i > 0
        invariant 0 <= i <= start
        invariant Detached(v, d, i, t)
        invariant UpHole(d, i)
        invariant i > 0 ==> v[0] == old(slots[0])
        invariant i == 0 < start ==> t.deadline < old(slots[0]).deadline
      {
        var parent := (i - 1) / 2;
        if slots[parent].deadline <= t.deadline {
          break;
        }
        SiftUpStep(d, i, parent);
        MoveInto(i, parent, v, d, t);
        v, d := Swap(v, i, parent), Swap(d, i, parent);
        i := parent;
      }
      SiftUpDone(d, i);
      PutBack(i, v, d, t);
    }

    // Moves the timer in slot `start` away from the root until no child is earlier.
    method AdjustDownwards(start: nat)
      requires Linked() && start < count && DownHole(Keys(slots[..count]), start)
      modifies slots, members`heapIndex
      ensures Valid()
    {
      var i := start;
      var t := slots[i];
      ghost var v, d := slots[..count], Keys(slots[..count]);
      while true
        invariant 0 <= i < count
        invariant Detached(v, d, i, t)
        invariant DownHole(d, i)
        decreases count - i
      {
        var leftChild := 1 + 2 * i;
        if leftChild >= count {
          break;
        }
        var next := EarlierChild(i, v, d, t);
        if t.deadline <= slots[next].deadline {
          break;
        }
        SiftDownStep(d, i);
        MoveInto(i, next, v, d, t);
        v, d := Swap(v, i, next), Swap(d, i, next);
        i := next;
      }
      SiftDownDone(d, i);
      PutBack(i, v, d, t);
    }

    // The left child, or the right one when that exists and is earlier.
    method EarlierChild(i: nat, ghost v: seq<Timer>, ghost d: seq<int>, ghost t: Timer) returns (next: nat)
      requires Detached(v, d, i, t) && 1 + 2 * i < count
      ensures next == SmallerChild(d, i) < count && slots[next].deadline == d[next]
    {
      var leftChild := 1 + 2 * i;
      var rightChild := leftChild + 1;
      assert forall k | leftChild <= k <= rightChild && k < count :: v[k] == slots[k];
      next := if rightChild < count && slots[leftChild].deadline > slots[rightChild].deadline
              then rightChild else leftChild;
    }

    // One step of either sifting loop: the timer in slot `from` moves into the hole at slot i.
    method MoveInto(i: nat, from: nat, ghost v: seq<Timer>, ghost d: seq<int>, ghost t: Timer)
      requires Detached(v, d, i, t) && from < count && from != i
      modifies slots, members`heapIndex
      ensures Detached(Swap(v, i, from), Swap(d, i, from), from, t)
    {
      slots[i] := slots[from];
      slots[i].heapIndex := i;
    }

    // The end of either sifting loop: timer t goes into the hole at slot i.
    method PutBack(i: nat, ghost v: seq<Timer>, ghost d: seq<int>, t: Timer)
      requires Detached(v, d, i, t) && Ordered(d)
      modifies slots, members`heapIndex
      ensures Valid() && slots[..count] == v
    {
      slots[i] := t;
      t.heapIndex := i;
      assert slots[..count] == v;
      assert Keys(v) == d;
    }

    // While a sifting loop holds timer t out of slot i: v is the heap with t put back there
    // and d the deadlines along v.
    ghost predicate Detached(v: seq<Timer>, d: seq<int>, i: nat, t: Timer)
      reads this, slots, members
    {
      && count <= slots.Length
      && count <= MAX_TIMERS
      && i < |v| == |d| == count
      && (forall k | 0 <= k < count :: v[k] in members && v[k].deadline == d[k])
      && v[i] == t
      && (forall k | 0 <= k < count && k != i :: v[k] == slots[k] && v[k].heapIndex == k && v[k] != t)
      && (forall x | x in members && x != t :: x.heapIndex < count && x.heapIndex != i && v[x.heapIndex] == x)
    }

    // Moves to smaller storage once at most a quarter of the capacity is used.
    method MaybeShrink()
      requires Valid()
      modifies this`slots
      ensures Valid() && slots[..count] == old(slots[..count])
      ensures slots == old(slots) || fresh(slots)
      ensures SHRINK_MIN_ELEMS <= count ==> slots.Length < 4 * (count + 1)
    {
      if SHRINK_MIN_ELEMS <= count <= slots.Length / SHRINK_FULLNESS_FACTOR / 2 {
        var filler := slots[0];
        var tmp := new Timer[count * SHRINK_FULLNESS_FACTOR](_ => filler);
        forall k | 0 <= k < count {
          tmp[k] := slots[k];
        }
        slots := tmp;
      }
    }

    method Contains(timer: Timer) returns (found: bool)
      requires Linked()
      ensures found <==> timer in members
    {
      for i := 0 to count
        invariant forall k | 0 <= k < i :: slots[k] != timer
      {
        if slots[i] == timer {
          return true;
        }
      }
      return false;
    }

    // The heap's own consistency check decides exactly the heap order.
    method CheckValid() returns (ok: bool)
      requires Linked()
      ensures ok <==> Valid()
    {
      ghost var d := Keys(slots[..count]);
      for i := 0 to count
        invariant forall p, k | Edge(p, k) && k < count && p < i :: d[p] <= d[k]
      {
        var leftChild := 1 + 2 * i;
        var rightChild := leftChild + 1;
        assert Edge(i, leftChild) && Edge(i, rightChild);
        if leftChild < count && slots[i].deadline > slots[leftChild].deadline {
          return false;
        }
        if rightChild < count && slots[i].deadline > slots[rightChild].deadline {
          return false;
        }
      }
      return true;
    }
  }
}
