/**
 What the parser makes of a text, said on the text itself: which texts it refuses and why, and what it reads
 between ampersands and equals signs (sections 3.1, 3.4 and 3.5 of RFC 3986, as the program has them).
 */
module UriReading {
  import opened AsciiSets
  import Joining
  import opened PercentCoding
  import opened Results
  import opened UriChars
  import opened Uris

  // ---------- Query pairs ----------

  // Only the first equals sign cuts a pair; the value may hold more of them.
  lemma PairIsCutOnce(key: Bytes, value: Bytes)
    requires '=' !in key
    ensures PairOf(key + EQUALS + value) == Query(Decode(key), Decode(value))
  {
    var piece := key + EQUALS + value;
    assert piece == key + (EQUALS + value);
    UntilIs(key, EQUALS + value, EQUALS);
    assert piece[|key| + 1..] == value;
  }

  // Without one, all of it is the key.
  lemma PairWithoutEquals(piece: Bytes)
    requires '=' !in piece
    ensures PairOf(piece) == Query(Decode(piece), [])
  {
    UntilIs(piece, [], EQUALS);
    assert piece + [] == piece;
  }

  ghost predicate ArePieces(pieces: seq<Bytes>) {
    pieces != [] && forall i | 0 <= i < |pieces| :: '&' !in pieces[i]
  }

  // The pieces that make pairs: an empty one at the end makes none.
  function Counted(pieces: seq<Bytes>): seq<Bytes> {
    if pieces != [] && pieces[|pieces| - 1] == [] then pieces[..|pieces| - 1] else pieces
  }

  ghost predicate PairUp(pairs: seq<Query>, pieces: seq<Bytes>) {
    |pairs| == |pieces| && forall i | 0 <= i < |pairs| :: pairs[i] == PairOf(pieces[i])
  }

  // The pairs of a query are those of the pieces between its ampersands, in order; empty pieces make empty
  // pairs, except at the end.
  lemma {:induction false} PairsOfPieces(pieces: seq<Bytes>)
    requires ArePieces(pieces)
    ensures PairUp(PairsOf(Joined(pieces)), Counted(pieces))
  {
    if |pieces| > 1 {
      PairsOfPieces(pieces[1..]);
      FirstPiece(pieces, Joined(pieces[1..]));
      CountedNext(pieces);
      PairUpNext(pieces[0], PairsOf(Joined(pieces[1..])), Counted(pieces[1..]));
    } else if pieces[0] != [] {
      LastPiece(pieces[0]);
    }
  }

  lemma CountedNext(pieces: seq<Bytes>)
    requires |pieces| > 1
    ensures Counted(pieces) == [pieces[0]] + Counted(pieces[1..])
  {
  }

  lemma PairUpNext(first: Bytes, pairs: seq<Query>, pieces: seq<Bytes>)
    requires PairUp(pairs, pieces)
    ensures PairUp([PairOf(first)] + pairs, [first] + pieces)
  {
  }

  lemma LastPiece(piece: Bytes)
    requires piece != [] && '&' !in piece
    ensures PairsOf(piece) == [PairOf(piece)]
  {
    UntilIs(piece, [], AMPERSAND);
    assert piece + [] == piece;
  }

  lemma FirstPiece(pieces: seq<Bytes>, rest: Bytes)
    requires |pieces| > 1 && '&' !in pieces[0] && rest == Joined(pieces[1..])
    ensures PairsOf(Joined(pieces)) == [PairOf(pieces[0])] + PairsOf(rest)
  {
    var first, text := pieces[0], Joined(pieces);
    assert text == first + (AMPERSAND + rest);
    UntilIs(first, AMPERSAND + rest, AMPERSAND);
    assert text[|first| + 1..] == rest;
  }

  // Every query is cut into such pieces.
  lemma {:induction false} SomePieces(query: Bytes) returns (pieces: seq<Bytes>)
    ensures ArePieces(pieces) && Joined(pieces) == query
    decreases |query|
  {
    var first := Until(query, AMPERSAND);
    if |first| == |query| {
      pieces := [query];
    } else {
      var rest := SomePieces(query[|first| + 1..]);
      pieces := [first] + rest;
      assert query == first + AMPERSAND + query[|first| + 1..];
    }
  }

  // ---------- What is refused ----------

  // No scheme is found exactly where no colon is, or the first byte is one.
  lemma SchemeNotFoundWhere(text: Bytes)
    ensures ParseResult(text) == Err(SchemeNotFound) <==> ':' !in text || text[0] == ':'
  {
    var scheme := Until(text, COLON);
    if |scheme| == |text| {
      assert scheme == text;
    } else {
      assert text[|scheme|] in COLON;
    }
  }

  ghost predicate Lists(table: Bytes, s: Bytes) {
    forall c | c in s :: c in table
  }

  // Every character is one of the fragment table, or a percent sign.
  ghost predicate ListsOrPercent(table: Bytes, s: Bytes) {
    forall c | c in s :: c in table || c == '%'
  }

  lemma SchemeListed(scheme: Bytes)
    ensures Lists(SCHEME_TABLE, scheme) <==> forall c | c in scheme :: IsSchemeChar(c)
  {
    forall c | c in scheme
      ensures c in SCHEME_TABLE <==> IsSchemeChar(c)
    {
      InSchemeTable(c);
    }
  }

  lemma TailListed(s: Bytes)
    ensures ListsOrPercent(FRAGMENT_TABLE, s) <==> IsQueryOrFragment(s)
  {
    forall c | c in s
      ensures c in FRAGMENT_TABLE <==> IsFragmentChar(c)
    {
      InFragmentTable(c);
    }
  }

  // What comes of a text whose parts are these: the first fault in the program's order, or the parts decoded.
  ghost predicate Reads(p: Parts, result: Result<URI, ParseError>)
    requires p.scheme != []
  {
    if !Lists(SCHEME_TABLE, p.scheme) then result == Err(SchemeCharacters)
    else if p.scheme[0] !in LOWER && p.scheme[0] !in UPPER then result == Err(SchemeNotAlpha)
    else if p.query == Some([]) then result == Err(EmptyQuery)
    else if p.query.Some? && !ListsOrPercent(FRAGMENT_TABLE, p.query.value) then result == Err(QueryCharacters)
    else if p.fragment.Some? && !ListsOrPercent(FRAGMENT_TABLE, p.fragment.value) then result == Err(FragmentCharacters)
    else result == Ok(Meaning(p))
  }

  lemma JudgedByTables(p: Parts)
    requires p.scheme != []
    ensures Reads(p, Judge(p))
  {
    SchemeListed(p.scheme);
    InLower(p.scheme[0]);
    InUpper(p.scheme[0]);
    TailListed(p.query.Or([]));
    TailListed(p.fragment.Or([]));
  }

  lemma TextIsRead(text: Bytes, p: Parts)
    requires Separated(p) && text == Join(p)
    ensures Reads(p, ParseResult(text))
  {
    SplitOfIsTheSplit(text, p);
    JudgedByTables(p);
  }

  // The parts of a text that is accepted, decoded, and its query by its pieces.
  lemma AcceptedIsDecoded(text: Bytes, p: Parts, pieces: seq<Bytes>)
    requires Separated(p) && text == Join(p) && ParseResult(text).Ok?
    requires p.query.Some? ==> ArePieces(pieces) && p.query.value == Joined(pieces)
    ensures var u := ParseResult(text).value;
            && u.scheme == p.scheme && u.path == Decode(p.path)
            && u.authority == (if p.authority.Some? then Decode(p.authority.value) else [])
            && u.fragment == (if p.fragment.Some? then Decode(p.fragment.value) else [])
            && if p.query.Some? then PairUp(u.queries, Counted(pieces)) else u.queries == []
  {
    TextIsRead(text, p);
    if p.query.Some? {
      PairsOfPieces(pieces);
    }
  }

  // ---------- Hexadecimal digits ----------

  const LOWER_DIGITS: Bytes := "0123456789abcdef"
  const UPPER_DIGITS: Bytes := "0123456789ABCDEF"

  // Digits of either case are read; capital ones are printed.
  lemma HexDigits(x: nat)
    requires x < 16
    ensures HexDigitToInt(LOWER_DIGITS[x]) == HexDigitToInt(UPPER_DIGITS[x]) == x
    ensures IntToHexDigit(x) == UPPER_DIGITS[x]
  {
  }

  lemma OnlyHexDigits(c: Byte)
    ensures IsHexDigit(c) <==> c in LOWER_DIGITS || c in UPPER_DIGITS
  {
  }

  // A complete escape stands for one byte, with digits of either case; a percent sign before anything else
  // stands for itself, and so does any other byte.
  lemma EscapesDecode(s: Bytes)
    requires s != []
    ensures |s| >= 3 && s[0] == '%' && IsHexDigit(s[1]) && IsHexDigit(s[2]) ==>
              Decode(s) == [(HexDigitToInt(s[1]) * 16 + HexDigitToInt(s[2])) as char] + Decode(s[3..])
    ensures s[0] != '%' || |s| < 3 || !IsHexDigit(s[1]) || !IsHexDigit(s[2]) ==> Decode(s) == [s[0]] + Decode(s[1..])
  {
  }
}
