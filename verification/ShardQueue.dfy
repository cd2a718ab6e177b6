/** The order of the shards in the manager's queue, and how a changed deadline moves one of them. */
module ShardQueues {
  import opened Times

  const NUM_SHARDS := 8

  // The shard of a timer with this hash.
  function ShardIndex(hash: nat): (s: nat)
    ensures s < NUM_SHARDS
  {
    hash % NUM_SHARDS
  }

  ghost predicate Keyed<T>(q: seq<T>, key: map<T, Time>) {
    forall k | 0 <= k < |q| :: q[k] in key
  }

  ghost predicate Sorted<T>(q: seq<T>, key: map<T, Time>)
    requires Keyed(q, key)
  {
    forall j, k | 0 <= j < k < |q| :: key[q[j]] <= key[q[k]]
  }

  // Sorted but for the shard at place i.
  ghost predicate SortedBut<T>(q: seq<T>, key: map<T, Time>, i: nat)
    requires Keyed(q, key)
  {
    forall j, k | 0 <= j < k < |q| && j != i && k != i :: key[q[j]] <= key[q[k]]
  }

  function Swapped<T>(q: seq<T>, i: nat): (r: seq<T>)
    requires i + 1 < |q|
    ensures |r| == |q|
  {
    q[i := q[i + 1]][i + 1 := q[i]]
  }

  // The shard at place i has a new deadline and is moved towards the front while it is due before its
  // neighbour, and then back while it is due after it.
  function Rearranged<T>(q: seq<T>, key: map<T, Time>, i: nat): (r: seq<T>)
    requires Keyed(q, key) && i < |q|
    ensures |r| == |q|
    decreases i
  {
    if i > 0 && key[q[i]] < key[q[i - 1]] then Rearranged(Swapped(q, i - 1), key, i - 1) else MovedBack(q, key, i)
  }

  function MovedBack<T>(q: seq<T>, key: map<T, Time>, i: nat): (r: seq<T>)
    requires Keyed(q, key) && i < |q|
    ensures |r| == |q|
    decreases |q| - i
  {
    if i + 1 < |q| && key[q[i]] > key[q[i + 1]] then MovedBack(Swapped(q, i), key, i + 1) else q
  }

  ghost predicate SameOnce<T(!new)>(q: seq<T>, r: seq<T>) {
    && (forall x :: x in r <==> x in q)
    && ((forall j, k | 0 <= j < k < |q| :: q[j] != q[k]) ==> forall j, k | 0 <= j < k < |r| :: r[j] != r[k])
  }

  lemma SwappedSame<T(!new)>(q: seq<T>, i: nat)
    requires i + 1 < |q|
    ensures SameOnce(q, Swapped(q, i))
  {
    var r := Swapped(q, i);
    forall x
      ensures x in r <==> x in q
    {
      assert x == q[i] ==> x == r[i + 1];
      assert x == q[i + 1] ==> x == r[i];
      assert forall k | 0 <= k < |q| && k != i && k != i + 1 :: r[k] == q[k];
    }
  }

  // The queue keeps its shards, each once.
  lemma {:induction false} RearrangedSame<T(!new)>(q: seq<T>, key: map<T, Time>, i: nat)
    requires Keyed(q, key) && i < |q|
    ensures SameOnce(q, Rearranged(q, key, i))
    decreases i
  {
    if i > 0 && key[q[i]] < key[q[i - 1]] {
      SwappedSame(q, i - 1);
      RearrangedSame(Swapped(q, i - 1), key, i - 1);
    } else {
      MovedBackSame(q, key, i);
    }
  }

  lemma {:induction false} MovedBackSame<T(!new)>(q: seq<T>, key: map<T, Time>, i: nat)
    requires Keyed(q, key) && i < |q|
    ensures SameOnce(q, MovedBack(q, key, i))
    decreases |q| - i
  {
    if i + 1 < |q| && key[q[i]] > key[q[i + 1]] {
      SwappedSame(q, i);
      MovedBackSame(Swapped(q, i), key, i + 1);
    }
  }

  // Either way the queue is sorted again.
  lemma {:induction false} RearrangedSorts<T>(q: seq<T>, key: map<T, Time>, i: nat)
    requires Keyed(q, key) && i < |q| && SortedBut(q, key, i)
    ensures Keyed(Rearranged(q, key, i), key) && Sorted(Rearranged(q, key, i), key)
    decreases i
  {
    if i > 0 && key[q[i]] < key[q[i - 1]] {
      RearrangedSorts(Swapped(q, i - 1), key, i - 1);
    } else {
      MovedBackSorts(q, key, i);
    }
  }

  lemma InPlaceSorts<T>(q: seq<T>, key: map<T, Time>, i: nat)
    requires Keyed(q, key) && i < |q| && SortedBut(q, key, i)
    requires i > 0 ==> key[q[i - 1]] <= key[q[i]]
    requires i + 1 < |q| ==> key[q[i]] <= key[q[i + 1]]
    ensures Sorted(q, key)
  {
  }

  lemma {:induction false} MovedBackSorts<T>(q: seq<T>, key: map<T, Time>, i: nat)
    requires Keyed(q, key) && i < |q| && SortedBut(q, key, i)
    requires i > 0 ==> key[q[i - 1]] <= key[q[i]]
    ensures Keyed(MovedBack(q, key, i), key) && Sorted(MovedBack(q, key, i), key)
    decreases |q| - i
  {
    if i + 1 < |q| && key[q[i]] > key[q[i + 1]] {
      MovedBackSorts(Swapped(q, i), key, i + 1);
    } else {
      InPlaceSorts(q, key, i);
    }
  }
}
