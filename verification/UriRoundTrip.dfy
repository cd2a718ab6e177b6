/**
 Parsing undoes printing, for every URI the grammar can express (section 3 of RFC 3986) whose printed text
 does not lose an ampersand; and for no other.
 */
module UriRoundTrip {
  import opened AsciiSets
  import opened PercentCoding
  import opened Results
  import opened UriChars
  import opened UriReading
  import opened Uris

  predicate ValidScheme(s: Bytes) {
    s != [] && SchemeFault(s).None?
  }

  // Without a query the last printed component must not end in an ampersand.
  predicate EndsInAmpersand(s: Bytes) {
    s != [] && s[|s| - 1] == '&'
  }

  predicate LosesAmpersand(u: URI) {
    u.queries == [] && EndsInAmpersand(if u.path != [] then u.path else u.authority)
  }

  predicate Expressible(u: URI) {
    && ValidScheme(u.scheme)
    && HasRoom(u.authority, u.path)
    && (u.authority == [] ==> !TwoSlashes(u.path))
    && !LosesAmpersand(u)
  }

  // ---------- Encoded components ----------

  lemma ComponentsDecode(s: Bytes)
    ensures Decode(PathText(s)) == Decode(AuthorityText(s)) == Decode(SchemeText(s)) == s
    ensures Decode(QueryText(s)) == Decode(FragmentText(s)) == s
  {
    DecodeEncoded(s, PathChars());
    DecodeEncoded(s, AuthorityChars());
    DecodeEncoded(s, SchemeChars());
    DecodeEncoded(s, QueryChars());
    DecodeEncoded(s, FragmentChars());
  }

  // A delimiter outside the set is never in an encoded text.
  lemma Lacks(s: Bytes, unreserved: set<Byte>, c: Byte)
    requires c !in unreserved && c != '%' && !IsHexDigit(c)
    ensures c !in Encode(s, unreserved)
  {
  }

  lemma SchemeLacksColon(s: Bytes)
    ensures ':' !in SchemeText(s)
  {
    Lacks(s, SchemeChars(), ':');
  }

  lemma AuthorityLacksDelimiters(s: Bytes)
    ensures Free(AuthorityText(s), AUTHORITY_STOPS)
  {
    Lacks(s, AuthorityChars(), '/');
    Lacks(s, AuthorityChars(), '?');
    Lacks(s, AuthorityChars(), '#');
  }

  lemma PathLacksDelimiters(s: Bytes)
    ensures Free(PathText(s), PATH_STOPS)
  {
    Lacks(s, PathChars(), '?');
    Lacks(s, PathChars(), '#');
  }

  lemma QueryLacksDelimiters(s: Bytes)
    ensures '&' !in QueryText(s) && '=' !in QueryText(s) && '#' !in QueryText(s)
  {
    Lacks(s, QueryChars(), '&');
    Lacks(s, QueryChars(), '=');
    Lacks(s, QueryChars(), '#');
  }

  // Queries and fragments are printed with the characters the parser allows there.
  lemma QueryAndFragmentAllowed(s: Bytes)
    ensures IsQueryOrFragment(QueryText(s)) && IsQueryOrFragment(FragmentText(s))
  {
    forall c | c in QueryText(s)
      ensures IsFragmentChar(c) || c == '%'
    {
      EncodeHolds(s, QueryChars(), c);
    }
    forall c | c in FragmentText(s)
      ensures IsFragmentChar(c) || c == '%'
    {
      EncodeHolds(s, FragmentChars(), c);
    }
  }

  // ---------- Query pairs ----------

  lemma PairDecodes(query: Query)
    ensures PairOf(PairText(query)) == query
  {
    var key, value := QueryText(query.key), QueryText(query.value);
    QueryLacksDelimiters(query.key);
    assert PairText(query) == key + (EQUALS + value);
    UntilIs(key, EQUALS + value, EQUALS);
    assert PairText(query)[|key| + 1..] == value;
    ComponentsDecode(query.key);
    ComponentsDecode(query.value);
  }

  // What the text of a query may hold.
  predicate QueryLike(s: Bytes) {
    '#' !in s && IsQueryOrFragment(s)
  }

  lemma QueryLikeConcat(s: Bytes, mark: Byte, t: Bytes)
    requires QueryLike(s) && QueryLike(t) && (mark == '&' || mark == '=')
    ensures QueryLike(s + [mark] + t)
  {
  }

  lemma PairIsQueryLike(query: Query)
    ensures QueryLike(PairText(query)) && '&' !in PairText(query)
  {
    QueryLacksDelimiters(query.key);
    QueryLacksDelimiters(query.value);
    QueryAndFragmentAllowed(query.key);
    QueryAndFragmentAllowed(query.value);
    QueryLikeConcat(QueryText(query.key), '=', QueryText(query.value));
  }

  // The parser takes one pair off the front of a text of pairs.
  lemma FirstPair(first: Bytes, rest: Bytes)
    requires '&' !in first && first != []
    ensures PairsOf(first) == [PairOf(first)]
    ensures PairsOf(first + AMPERSAND + rest) == [PairOf(first)] + PairsOf(rest)
  {
    UntilIs(first, [], AMPERSAND);
    assert first + [] == first;
    var text := first + AMPERSAND + rest;
    assert text == first + (AMPERSAND + rest);
    UntilIs(first, AMPERSAND + rest, AMPERSAND);
    assert text[|first| + 1..] == rest;
  }

  lemma {:induction false} JoinedPairs(texts: seq<Bytes>, queries: seq<Query>)
    requires |texts| == |queries| > 0
    requires forall i | 0 <= i < |texts| :: texts[i] != [] && '&' !in texts[i] && PairOf(texts[i]) == queries[i]
    ensures Joined(texts) != [] && PairsOf(Joined(texts)) == queries
  {
    if |texts| == 1 {
      FirstPair(texts[0], []);
    } else {
      JoinedPairs(texts[1..], queries[1..]);
      OneMorePair(texts, Joined(texts[1..]));
    }
  }

  lemma OneMorePair(texts: seq<Bytes>, rest: Bytes)
    requires |texts| > 1 && texts[0] != [] && '&' !in texts[0] && rest == Joined(texts[1..])
    ensures Joined(texts) != [] && PairsOf(Joined(texts)) == [PairOf(texts[0])] + PairsOf(rest)
  {
    FirstPair(texts[0], rest);
    assert Joined(texts) == texts[0] + AMPERSAND + rest;
  }

  // Every list of pairs survives, repeated and empty keys and values included.
  lemma PairsRoundTrip(queries: seq<Query>)
    requires queries != []
    ensures PairsText(queries) != [] && PairsOf(PairsText(queries)) == queries
  {
    var texts := PairTexts(queries);
    forall i | 0 <= i < |texts|
      ensures texts[i] != [] && '&' !in texts[i] && PairOf(texts[i]) == queries[i]
    {
      PairDecodes(queries[i]);
      PairIsQueryLike(queries[i]);
    }
    JoinedPairs(texts, queries);
  }

  lemma {:induction false} JoinedQueryLike(texts: seq<Bytes>)
    requires forall i | 0 <= i < |texts| :: QueryLike(texts[i])
    ensures QueryLike(Joined(texts))
  {
    if |texts| > 1 {
      JoinedQueryLike(texts[1..]);
      QueryLikeConcat(texts[0], '&', Joined(texts[1..]));
    }
  }

  lemma PairsAreQueryLike(queries: seq<Query>)
    ensures QueryLike(PairsText(queries))
  {
    forall i | 0 <= i < |queries|
      ensures QueryLike(PairTexts(queries)[i])
    {
      PairIsQueryLike(queries[i]);
    }
    JoinedQueryLike(PairTexts(queries));
  }

  // ---------- What the printed text is cut into ----------

  lemma {:induction false} DropEncoded(s: Bytes, unreserved: set<Byte>)
    requires '&' in unreserved
    ensures DropAmpersand(Encode(s, unreserved)) == Encode(DropAmpersand(s), unreserved)
    ensures Encode(s, unreserved) == [] <==> s == []
  {
    if s != [] {
      var front, last := s[..|s| - 1], s[|s| - 1];
      assert s == front + [last];
      EncodeConcat(front, [last], unreserved);
      assert Encode([last], unreserved) == EncodeByte(last, unreserved);
      DropFromLast(Encode(front, unreserved), EncodeByte(last, unreserved));
    }
  }

  lemma SlashesKept(s: Bytes, unreserved: set<Byte>)
    requires '/' in unreserved
    ensures StartsWith(Encode(s, unreserved), '/') <==> StartsWith(s, '/')
    ensures TwoSlashes(Encode(s, unreserved)) <==> TwoSlashes(s)
    ensures TwoSlashes(s) ==> Encode(s, unreserved)[2..] == Encode(s[2..], unreserved)
  {
  }

  // The URI less the ampersand its text loses.
  function Cut(u: URI): URI {
    if u.queries != [] then u
    else if u.path != [] then u.(path := DropAmpersand(u.path))
    else u.(authority := DropAmpersand(u.authority))
  }

  lemma PrintedPartsAre(u: URI)
    ensures var p := PrintedParts(u);
            && p.authority == (if u.authority == [] then None else Some(AuthorityText(Cut(u).authority)))
            && p.path == PathText(Cut(u).path)
  {
    DropEncoded(u.path, PathChars());
    DropEncoded(u.authority, AuthorityChars());
  }

  lemma ValidSchemeIsPlain(scheme: Bytes)
    requires ValidScheme(scheme)
    ensures SchemeText(scheme) == scheme
  {
    EncodeUnreserved(scheme, SchemeChars());
  }

  lemma PrintedIsSeparated(u: URI)
    requires ValidScheme(u.scheme) && HasRoom(u.authority, u.path) && (u.authority == [] ==> !TwoSlashes(u.path))
    ensures Separated(PrintedParts(u))
  {
    var p, v := PrintedParts(u), Cut(u);
    PrintedPartsAre(u);
    ValidSchemeIsPlain(u.scheme);
    SchemeLacksColon(u.scheme);
    AuthorityLacksDelimiters(v.authority);
    PathLacksDelimiters(v.path);
    SlashesKept(v.path, PathChars());
    if u.queries != [] {
      PairsAreQueryLike(u.queries);
    }
  }

  lemma PrintedHasNoFault(u: URI)
    requires ValidScheme(u.scheme)
    ensures PrintedParts(u).scheme != [] && Fault(PrintedParts(u)) == None
  {
    ValidSchemeIsPlain(u.scheme);
    QueryAndFragmentAllowed(u.fragment);
    if u.queries != [] {
      PairsRoundTrip(u.queries);
      PairsAreQueryLike(u.queries);
    }
  }

  lemma PrintedMeansCut(u: URI)
    requires ValidScheme(u.scheme)
    ensures Meaning(PrintedParts(u)) == Cut(u)
  {
    PrintedPartsAre(u);
    ValidSchemeIsPlain(u.scheme);
    ComponentsDecode(Cut(u).authority);
    ComponentsDecode(Cut(u).path);
    ComponentsDecode(u.fragment);
    if u.queries != [] {
      PairsRoundTrip(u.queries);
    }
  }

  // What comes back is the URI less the ampersand its text loses.
  lemma ParsePrinted(u: URI)
    requires ValidScheme(u.scheme) && HasRoom(u.authority, u.path) && (u.authority == [] ==> !TwoSlashes(u.path))
    ensures ParseResult(Print(u)) == Ok(Cut(u))
  {
    PrintedIsSeparated(u);
    SplitOfIsTheSplit(Print(u), PrintedParts(u));
    PrintedHasNoFault(u);
    PrintedMeansCut(u);
  }

  // Whatever text it comes from, a parsed URI has a valid scheme, and room for its path.
  lemma ParsedShape(text: Bytes)
    requires ParseResult(text).Ok?
    ensures var u := ParseResult(text).value;
            ValidScheme(u.scheme) && HasRoom(u.authority, u.path)
  {
  }

  // A path of two slashes with no authority before it is read as an authority.
  lemma SlashesAreLost(u: URI)
    requires ValidScheme(u.scheme) && u.authority == [] && TwoSlashes(u.path)
    ensures ParseResult(Print(u)) != Ok(u)
  {
    if ParseResult(Print(u)) == Ok(u) {
      var p := SplitOf(Print(u));
      SplitOfIsTheSplit(Print(u), p);
      DecodeLength(p.authority.Or([]));
      PrintedSlashes(u);
      SameAfterSlashes(p, PrintedParts(u));
    }
  }

  lemma PrintedSlashes(u: URI)
    requires ValidScheme(u.scheme) && u.authority == [] && TwoSlashes(u.path)
    ensures var q := PrintedParts(u);
            && q.scheme == u.scheme && q.authority.None? && TwoSlashes(q.path) && Free(q.path, PATH_STOPS)
            && Decode(q.path[2..]) != u.path
  {
    var path := Cut(u).path;
    ValidSchemeIsPlain(u.scheme);
    PrintedPartsAre(u);
    SlashesKept(path, PathChars());
    PathLacksDelimiters(path);
    ComponentsDecode(path[2..]);
    assert |path[2..]| < |u.path|;
  }

  // Two slashes after the scheme are those before an authority.
  lemma SameAfterSlashes(p: Parts, q: Parts)
    requires Separated(p) && Join(p) == Join(q) && p.scheme == q.scheme
    requires q.authority.None? && TwoSlashes(q.path) && Free(q.path, PATH_STOPS)
    requires p.authority.Or([]) == []
    ensures p.path == q.path[2..]
  {
    var tail := Marked(QUESTION, p.query) + Marked(HASH, p.fragment);
    var tail' := Marked(QUESTION, q.query) + Marked(HASH, q.fragment);
    AfterScheme(p);
    AfterScheme(q);
    NoSlashesBefore(p, tail);
    SamePath(Marked(SLASHES, p.authority), p.path, tail, q.path, tail');
  }

  lemma AfterScheme(p: Parts)
    ensures |p.scheme| + 1 <= |Join(p)|
    ensures Join(p)[|p.scheme| + 1..]
         == Marked(SLASHES, p.authority) + (p.path + (Marked(QUESTION, p.query) + Marked(HASH, p.fragment)))
  {
  }

  lemma SamePath(mark: Bytes, path: Bytes, tail: Bytes, path': Bytes, tail': Bytes)
    requires Free(path, PATH_STOPS) && (tail == [] || tail[0] in PATH_STOPS)
    requires Free(path', PATH_STOPS) && (tail' == [] || tail'[0] in PATH_STOPS)
    requires |mark| == 2 && |path'| >= 2 && mark + (path + tail) == path' + tail'
    ensures path == path'[2..]
  {
    assert path + tail == (mark + (path + tail))[2..] == (path' + tail')[2..] == path'[2..] + tail';
    UntilIs(path, tail, PATH_STOPS);
    UntilIs(path'[2..], tail', PATH_STOPS);
  }

  lemma NoSlashesBefore(p: Parts, tail: Bytes)
    requires Separated(p) && (tail == [] || tail[0] in PATH_STOPS)
    ensures TwoSlashes(Marked(SLASHES, p.authority) + (p.path + tail)) <==> p.authority.Some?
  {
  }

  // ---------- The theorem ----------

  // Parsing undoes printing for exactly the expressible URIs.
  lemma RoundTrip(u: URI)
    ensures ParseResult(Print(u)) == Ok(u) <==> Expressible(u)
  {
    if ParseResult(Print(u)) == Ok(u) {
      ParsedShape(Print(u));
    }
    if ValidScheme(u.scheme) && HasRoom(u.authority, u.path) {
      if u.authority == [] && TwoSlashes(u.path) {
        SlashesAreLost(u);
      } else {
        ParsePrinted(u);
        assert Cut(u) == u <==> !LosesAmpersand(u);
      }
    }
  }

  // ---------- What can be parsed at all ----------

  // A text for u that hides two slashes at the front of its path, if no authority is before them.
  function PartsFor(u: URI): Parts {
    PlainParts(u).(path := if u.authority == [] then Encode(u.path, {}) else PathText(u.path))
  }

  lemma HiddenPath(path: Bytes)
    ensures Free(Encode(path, {}), PATH_STOPS) && !StartsWith(Encode(path, {}), '/') && Decode(Encode(path, {})) == path
  {
    Lacks(path, {}, '?');
    Lacks(path, {}, '#');
    DecodeEncoded(path, {});
  }

  lemma PartsForAreSeparated(u: URI)
    requires ValidScheme(u.scheme) && HasRoom(u.authority, u.path)
    ensures Separated(PartsFor(u))
  {
    ValidSchemeIsPlain(u.scheme);
    SchemeLacksColon(u.scheme);
    AuthorityLacksDelimiters(u.authority);
    PathLacksDelimiters(u.path);
    SlashesKept(u.path, PathChars());
    HiddenPath(u.path);
    if u.queries != [] {
      PairsAreQueryLike(u.queries);
    }
  }

  lemma PartsForMean(u: URI)
    requires ValidScheme(u.scheme)
    ensures PartsFor(u).scheme != [] && Judge(PartsFor(u)) == Ok(u)
  {
    PrintedHasNoFault(u);
    ValidSchemeIsPlain(u.scheme);
    ComponentsDecode(u.authority);
    ComponentsDecode(u.path);
    ComponentsDecode(u.fragment);
    HiddenPath(u.path);
    if u.queries != [] {
      PairsRoundTrip(u.queries);
    }
  }

  // The test by which Create accepts tells, with a valid scheme, exactly the URIs that some text means: it
  // refuses none that can be parsed, and none that it accepts is out of the parser's reach.
  lemma CreateAcceptsTheParsable(u: URI)
    ensures ValidScheme(u.scheme) && HasRoom(u.authority, u.path) <==> exists text :: ParseResult(text) == Ok(u)
  {
    if ValidScheme(u.scheme) && HasRoom(u.authority, u.path) {
      PartsForAreSeparated(u);
      PartsForMean(u);
      SplitOfIsTheSplit(Join(PartsFor(u)), PartsFor(u));
      assert ParseResult(Join(PartsFor(u))) == Ok(u);
    }
    forall text | ParseResult(text) == Ok(u)
      ensures ValidScheme(u.scheme) && HasRoom(u.authority, u.path)
    {
      ParsedShape(text);
    }
  }

  // Printing any parsed text and parsing again gives the same URI, but for two slashes and an ampersand.
  lemma ParsePrintParse(text: Bytes)
    requires ParseResult(text).Ok?
    ensures var u := ParseResult(text).value;
            ParseResult(Print(u)) == Ok(u) <==> (u.authority == [] ==> !TwoSlashes(u.path)) && !LosesAmpersand(u)
  {
    ParsedShape(text);
    RoundTrip(ParseResult(text).value);
  }

  // A text of a scheme and a path.
  lemma SchemeAndPath(text: Bytes, path: Bytes)
    requires text == "s:" + path && Free(path, PATH_STOPS) && !TwoSlashes(path)
    ensures ParseResult(text) == Ok(URI("s", [], Decode(path), [], []))
  {
    var p := Parts("s", None, path, None, None);
    assert Join(p) == text;
    SplitOfIsTheSplit(text, p);
  }

  lemma DecodedSlashes()
    ensures Decode("%2F%2Fx") == "//x" && Decode("a&") == "a&"
  {
  }

  // Both exceptions come up when parsing: these texts are accepted and do not survive.
  lemma TwoSlashesComeUp(text: Bytes)
    requires text == "s:%2F%2Fx"
    ensures ParseResult(text).Ok?
    ensures var u := ParseResult(text).value;
            u.path == "//x" && ParseResult(Print(u)) != Ok(u)
  {
    SchemeAndPath(text, "%2F%2Fx");
    DecodedSlashes();
    ParsePrintParse(text);
  }

  lemma AmpersandComesUp(text: Bytes)
    requires text == "s:a&"
    ensures ParseResult(text).Ok?
    ensures var u := ParseResult(text).value;
            u.path == "a&" && ParseResult(Print(u)) == Ok(u.(path := "a"))
  {
    SchemeAndPath(text, "a&");
    DecodedSlashes();
    var u := ParseResult(text).value;
    ParsedShape(text);
    ParsePrinted(u);
    assert Cut(u).path == "a";
  }

  // ---------- What is printed as it is ----------

  lemma ListedIsPlain(s: Bytes)
    ensures Lists(PATH_TABLE, s) ==> PathText(s) == s
    ensures Lists(AUTHORITY_TABLE, s) ==> AuthorityText(s) == s
    ensures Lists(QUERY_TABLE, s) ==> QueryText(s) == s
    ensures Lists(FRAGMENT_TABLE, s) ==> FragmentText(s) == s
  {
    forall c | c in s
      ensures c in PATH_TABLE ==> c in PathChars()
      ensures c in AUTHORITY_TABLE ==> c in AuthorityChars()
      ensures c in QUERY_TABLE ==> c in QueryChars()
      ensures c in FRAGMENT_TABLE ==> c in FragmentChars()
    {
      InPathTable(c);
      InAuthorityTable(c);
      InQueryTable(c);
      InFragmentTable(c);
    }
    if Lists(PATH_TABLE, s) {
      EncodeUnreserved(s, PathChars());
    }
    if Lists(AUTHORITY_TABLE, s) {
      EncodeUnreserved(s, AuthorityChars());
    }
    if Lists(QUERY_TABLE, s) {
      EncodeUnreserved(s, QueryChars());
    }
    if Lists(FRAGMENT_TABLE, s) {
      EncodeUnreserved(s, FragmentChars());
    }
  }

  ghost predicate AllListed(u: URI) {
    && ValidScheme(u.scheme) && Lists(AUTHORITY_TABLE, u.authority) && Lists(PATH_TABLE, u.path)
    && (forall i | 0 <= i < |u.queries| :: Lists(QUERY_TABLE, u.queries[i].key) && Lists(QUERY_TABLE, u.queries[i].value))
    && Lists(FRAGMENT_TABLE, u.fragment)
  }

  ghost predicate Spelled(pairs: seq<Bytes>, queries: seq<Query>) {
    |pairs| == |queries| && forall i | 0 <= i < |pairs| :: pairs[i] == queries[i].key + EQUALS + queries[i].value
  }

  lemma PairsArePlain(u: URI, pairs: seq<Bytes>)
    requires AllListed(u) && Spelled(pairs, u.queries)
    ensures PairTexts(u.queries) == pairs
  {
    forall i | 0 <= i < |pairs|
      ensures PairTexts(u.queries)[i] == pairs[i]
    {
      ListedIsPlain(u.queries[i].key);
      ListedIsPlain(u.queries[i].value);
    }
  }

  lemma PartsArePlain(u: URI, pairs: seq<Bytes>)
    requires AllListed(u) && !LosesAmpersand(u) && Spelled(pairs, u.queries)
    ensures PrintedParts(u) == Parts(
              u.scheme,
              if u.authority == [] then None else Some(u.authority),
              u.path,
              if u.queries == [] then None else Some(Joined(pairs)),
              if u.fragment == [] then None else Some(u.fragment))
  {
    PrintedPartsAre(u);
    CutIsWhole(u);
    ComponentsArePlain(u);
    PairsArePlain(u, pairs);
  }

  lemma CutIsWhole(u: URI)
    requires !LosesAmpersand(u)
    ensures Cut(u) == u
  {
  }

  lemma ComponentsArePlain(u: URI)
    requires AllListed(u)
    ensures SchemeText(u.scheme) == u.scheme && AuthorityText(u.authority) == u.authority
    ensures PathText(u.path) == u.path && FragmentText(u.fragment) == u.fragment
  {
    ValidSchemeIsPlain(u.scheme);
    ListedIsPlain(u.authority);
    ListedIsPlain(u.path);
    ListedIsPlain(u.fragment);
  }

  // A URI of characters that the tables list is printed without a single escape: its components with the
  // delimiters between them, and pairs with an equals sign in each and an ampersand between them.
  lemma PrintsPlainly(u: URI, pairs: seq<Bytes>)
    requires AllListed(u) && !LosesAmpersand(u) && Spelled(pairs, u.queries)
    ensures Print(u) == u.scheme + COLON + ((if u.authority == [] then [] else SLASHES + u.authority) + (u.path
                        + ((if u.queries == [] then [] else QUESTION + Joined(pairs))
                        + if u.fragment == [] then [] else HASH + u.fragment)))
  {
    PartsArePlain(u, pairs);
  }
}
