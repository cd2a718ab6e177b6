/**
 The order of an array-based binary min-heap, on the plain sequence of its keys.

 A sifting loop breaks the order around one position (the hole) and moves the hole along one branch.
 `UpHole` and `DownHole` say what still holds around the hole; one lemma per loop step says that
 exchanging the key with its parent or smaller child moves the hole.
 */
module HeapOrder {

  // Slot p is the parent of slot k.
  predicate Edge(p: int, k: int) {
    1 <= k && p == (k - 1) / 2
  }

  ghost predicate Ordered(d: seq<int>) {
    forall p, k | Edge(p, k) && k < |d| :: d[p] <= d[k]
  }

  // The parent of slot i is no larger than any child of slot i.
  ghost predicate Bridged(d: seq<int>, i: nat) {
    forall p, k | Edge(p, i) && Edge(i, k) && k < |d| :: d[p] <= d[k]
  }

  // Ordered, but for the edge from slot i up to its parent.
  ghost predicate UpHole(d: seq<int>, i: nat) {
    && i < |d|
    && (forall p, k | Edge(p, k) && k < |d| && k != i :: d[p] <= d[k])
    && Bridged(d, i)
  }

  // Ordered, but for the edges from slot i down to its children.
  ghost predicate DownHole(d: seq<int>, i: nat) {
    && i < |d|
    && (forall p, k | Edge(p, k) && k < |d| && p != i :: d[p] <= d[k])
    && Bridged(d, i)
  }

  function Swap<T>(s: seq<T>, i: nat, j: nat): seq<T>
    requires i < |s| && j < |s|
  {
    s[i := s[j]][j := s[i]]
  }

  // The root of an ordered heap is a least key.
  lemma {:induction false} RootIsLeast(d: seq<int>, k: nat)
    requires Ordered(d) && k < |d|
    ensures d[0] <= d[k]
  {
    if k == 0 {
    } else {
      var p := (k - 1) / 2;
      assert Edge(p, k);
      RootIsLeast(d, p);
    }
  }

  lemma SiftUpStep(d: seq<int>, i: nat, p: nat)
    requires UpHole(d, i) && Edge(p, i) && d[i] < d[p]
    ensures UpHole(Swap(d, i, p), p)
  {
  }

  lemma SiftUpDone(d: seq<int>, i: nat)
    requires UpHole(d, i)
    requires forall p | Edge(p, i) :: d[p] <= d[i]
    ensures Ordered(d)
  {
  }

  // The left child, or the right one when that exists and has a smaller key.
  function SmallerChild(d: seq<int>, i: nat): nat {
    if 2 * i + 2 < |d| && d[2 * i + 1] > d[2 * i + 2] then 2 * i + 2 else 2 * i + 1
  }

  lemma SmallerChildIsLeast(d: seq<int>, i: nat)
    ensures var c := SmallerChild(d, i);
            && Edge(i, c)
            && forall k | Edge(i, k) && k < |d| :: c < |d| && d[c] <= d[k]
  {
  }

  lemma SiftDownStep(d: seq<int>, i: nat)
    requires DownHole(d, i)
    requires var c := SmallerChild(d, i); c < |d| && d[c] < d[i]
    ensures var c := SmallerChild(d, i); DownHole(Swap(d, i, c), c)
  {
    SmallerChildIsLeast(d, i);
    var c := SmallerChild(d, i);
    var e := Swap(d, i, c);
    forall q, k | Edge(q, k) && k < |e| && q != c
      ensures e[q] <= e[k]
    {
      if k == i {
        assert Bridged(d, i);
      } else if q != i {
        assert d[q] <= d[k];
      }
    }
    forall q, k | Edge(q, c) && Edge(c, k) && k < |e|
      ensures e[q] <= e[k]
    {
      assert q == i;
      assert d[c] <= d[k];
    }
  }

  lemma SiftDownDone(d: seq<int>, i: nat)
    requires DownHole(d, i)
    requires var c := SmallerChild(d, i); c < |d| ==> d[i] <= d[c]
    ensures Ordered(d)
  {
  }

  // A key appended to an ordered heap is out of place only towards its parent.
  lemma AppendMakesUpHole(d: seq<int>, x: int)
    requires Ordered(d)
    ensures UpHole(d + [x], |d|)
  {
  }

  // Dropping the last key and writing it over slot i leaves a hole that one sifting direction closes:
  // upwards when the key is below its new parent, downwards otherwise.
  lemma OverwriteMakesHole(d: seq<int>, i: nat)
    requires Ordered(d) && i < |d| - 1
    ensures var e := d[i := d[|d| - 1]][..|d| - 1];
            if exists p :: Edge(p, i) && e[i] < e[p] then UpHole(e, i) else DownHole(e, i)
  {
    var e := d[i := d[|d| - 1]][..|d| - 1];
    forall p, k | Edge(p, i) && Edge(i, k) && k < |e|
      ensures e[p] <= e[k]
    {
      assert d[p] <= d[i] <= d[k];
    }
    if p :| Edge(p, i) && e[i] < e[p] {
      forall q, k | Edge(q, k) && k < |e| && k != i
        ensures e[q] <= e[k]
      {
        assert d[q] <= d[k];
        if q == i {
          assert d[p] <= d[i];
        }
      }
    } else {
      forall q, k | Edge(q, k) && k < |e| && q != i
        ensures e[q] <= e[k]
      {
        assert d[q] <= d[k];
      }
    }
  }
}
