/** Texts with a separator between them. */
module Joining {

  function Join<T>(texts: seq<seq<T>>, sep: T): seq<T> {
    if texts == [] then [] else if |texts| == 1 then texts[0] else texts[0] + [sep] + Join(texts[1..], sep)
  }

  // Every text with a separator after it.
  ghost function Marked<T>(texts: seq<seq<T>>, sep: T): seq<T> {
    if texts == [] then [] else Marked(texts[..|texts| - 1], sep) + texts[|texts| - 1] + [sep]
  }

  lemma {:induction false} MarkedIsJoined<T>(texts: seq<seq<T>>, sep: T)
    requires texts != []
    ensures Marked(texts, sep) == Join(texts, sep) + [sep]
  {
    if |texts| > 1 {
      MarkedFront(texts, sep);
      MarkedIsJoined(texts[1..], sep);
    }
  }

  lemma {:induction false} MarkedFront<T>(texts: seq<seq<T>>, sep: T)
    requires texts != []
    ensures Marked(texts, sep) == texts[0] + [sep] + Marked(texts[1..], sep)
  {
    var n := |texts| - 1;
    if n > 0 {
      assert texts[..n][1..] == texts[1..][..n - 1];
      MarkedFront(texts[..n], sep);
    }
  }

  // The last text goes without its separator.
  lemma JoinLast<T>(texts: seq<seq<T>>, sep: T)
    requires texts != []
    ensures Join(texts, sep) == Marked(texts[..|texts| - 1], sep) + texts[|texts| - 1]
  {
    MarkedIsJoined(texts, sep);
    assert Marked(texts, sep)[..|Marked(texts, sep)| - 1] == Join(texts, sep);
  }

  lemma MarkedNext<T>(texts: seq<seq<T>>, i: nat, sep: T)
    requires i < |texts|
    ensures Marked(texts[..i + 1], sep) == Marked(texts[..i], sep) + texts[i] + [sep]
    ensures i + 1 == |texts| ==> Join(texts, sep) == Marked(texts[..i], sep) + texts[i]
  {
    assert texts[..i + 1][..i] == texts[..i];
    if i + 1 == |texts| {
      JoinLast(texts, sep);
    }
  }
}
