/**
 Parsing and printing a URI (section 3 of RFC 3986).

 A text is cut into its parts at the first delimiters; `Splits` says what a cut is, without saying how it
 is found.  Each part is then checked and percent-decoded.
 */
module Uris {
  import opened AsciiSets
  import Joining
  import opened PercentCoding
  import opened Results
  import opened UriChars

  datatype Query = Query(key: Bytes, value: Bytes)

  datatype URI = URI(scheme: Bytes, authority: Bytes, path: Bytes, queries: seq<Query>, fragment: Bytes)

  datatype ParseError =
    | SchemeNotFound | SchemeCharacters | SchemeNotAlpha
    | EmptyQuery | QueryCharacters | FragmentCharacters

  const COLON: Bytes := ":"
  const SLASHES: Bytes := "//"
  const QUESTION: Bytes := "?"
  const HASH: Bytes := "#"
  const EQUALS: Bytes := "="
  const AMPERSAND: Bytes := "&"
  const AUTHORITY_STOPS: Bytes := "/?#"
  const PATH_STOPS: Bytes := "?#"

  predicate StartsWith(s: Bytes, c: Byte) {
    s != [] && s[0] == c
  }

  predicate TwoSlashes(s: Bytes) {
    |s| >= 2 && s[0] == s[1] == '/'
  }

  // ---------- Parts of a URI text ----------

  // The text of each part; the delimiters are not in it.
  datatype Parts = Parts(
    scheme: Bytes, authority: Option<Bytes>, path: Bytes, query: Option<Bytes>, fragment: Option<Bytes>)

  function Marked(mark: Bytes, part: Option<Bytes>): Bytes {
    if part.Some? then mark + part.value else []
  }

  function Join(p: Parts): Bytes {
    p.scheme + COLON + (Marked(SLASHES, p.authority) + (p.path + (Marked(QUESTION, p.query) + Marked(HASH, p.fragment))))
  }

  // No part runs past its delimiter.
  ghost predicate Separated(p: Parts) {
    && p.scheme != [] && ':' !in p.scheme
    && (p.authority.Some? ==> Free(p.authority.value, AUTHORITY_STOPS) && (p.path == [] || p.path[0] == '/'))
    && (p.authority.None? ==> !TwoSlashes(p.path))
    && Free(p.path, PATH_STOPS)
    && (p.query.Some? ==> '#' !in p.query.value)
  }

  ghost predicate Free(s: Bytes, stops: Bytes) {
    forall c | c in stops :: c !in s
  }

  ghost predicate Splits(text: Bytes, p: Parts) {
    Separated(p) && Join(p) == text
  }

  // The first place, from i on, of any of some characters; or the end.
  function FirstStop(s: Bytes, stops: Bytes, i: nat): (n: nat)
    requires i <= |s|
    ensures i <= n <= |s| && (n == |s| || s[n] in stops)
    ensures forall k | i <= k < n :: s[k] !in stops
    decreases |s| - i
  {
    if i == |s| || s[i] in stops then i else FirstStop(s, stops, i + 1)
  }

  // The part of s before the first of some characters.
  function Until(s: Bytes, stops: Bytes): (r: Bytes)
    ensures r <= s && Free(r, stops) && (|r| == |s| || s[|r|] in stops)
  {
    s[..FirstStop(s, stops, 0)]
  }

  lemma UntilIs(s: Bytes, t: Bytes, stops: Bytes)
    requires Free(s, stops) && (t == [] || t[0] in stops)
    ensures Until(s + t, stops) == s && (s + t)[|s|..] == t
  {
  }

  function SplitFragment(rest: Bytes): Option<Bytes> {
    if StartsWith(rest, '#') then Some(rest[1..]) else None
  }

  function SplitQuery(rest: Bytes): (Option<Bytes>, Bytes) {
    if StartsWith(rest, '?') then
      var q := Until(rest[1..], HASH);
      (Some(q), rest[1 + |q|..])
    else
      (None, rest)
  }

  function SplitAuthority(rest: Bytes): (Option<Bytes>, Bytes) {
    if TwoSlashes(rest) then
      var a := Until(rest[2..], AUTHORITY_STOPS);
      (Some(a), rest[2 + |a|..])
    else
      (None, rest)
  }

  predicate HasScheme(text: Bytes) {
    0 < |Until(text, COLON)| < |text|
  }

  function SplitOf(text: Bytes): Parts
    requires HasScheme(text)
  {
    var scheme := Until(text, COLON);
    var (authority, afterAuthority) := SplitAuthority(text[|scheme| + 1..]);
    var path := Until(afterAuthority, PATH_STOPS);
    var (query, afterQuery) := SplitQuery(afterAuthority[|path|..]);
    Parts(scheme, authority, path, query, SplitFragment(afterQuery))
  }

  // A text has at most one cut into parts, and it has one unless no scheme can be found.
  lemma SplitOfIsTheSplit(text: Bytes, p: Parts)
    ensures Splits(text, p) <==> HasScheme(text) && p == SplitOf(text)
  {
    if Splits(text, p) {
      SplitIsFound(p);
    }
    if HasScheme(text) {
      SplitOfSplits(text);
    }
  }

  lemma SplitIsFound(p: Parts)
    requires Separated(p)
    ensures HasScheme(Join(p)) && SplitOf(Join(p)) == p
  {
    var tail := Marked(QUESTION, p.query) + Marked(HASH, p.fragment);
    var rest := Marked(SLASHES, p.authority) + (p.path + tail);
    var text := Join(p);
    assert text == p.scheme + (COLON + rest);
    UntilIs(p.scheme, COLON + rest, COLON);
    assert text[|p.scheme| + 1..] == rest;
    AuthorityIsFound(p, tail);
    UntilIs(p.path, tail, PATH_STOPS);
    QueryIsFound(p);
  }

  lemma AuthorityIsFound(p: Parts, tail: Bytes)
    requires Separated(p)
    requires tail == [] || tail[0] in PATH_STOPS
    ensures SplitAuthority(Marked(SLASHES, p.authority) + (p.path + tail)) == (p.authority, p.path + tail)
  {
    if p.authority.Some? {
      AfterSlashes(p.authority.value, p.path + tail);
    } else {
      assert Marked(SLASHES, p.authority) + (p.path + tail) == p.path + tail;
    }
  }

  lemma AfterSlashes(authority: Bytes, rest: Bytes)
    requires Free(authority, AUTHORITY_STOPS) && (rest == [] || rest[0] in AUTHORITY_STOPS)
    ensures SplitAuthority(SLASHES + authority + rest) == (Some(authority), rest)
  {
    var text := SLASHES + authority + rest;
    assert text[2..] == authority + rest;
    UntilIs(authority, rest, AUTHORITY_STOPS);
    assert text[2 + |authority|..] == rest;
  }

  lemma QueryIsFound(p: Parts)
    requires Separated(p)
    ensures SplitQuery(Marked(QUESTION, p.query) + Marked(HASH, p.fragment)) == (p.query, Marked(HASH, p.fragment))
    ensures SplitFragment(Marked(HASH, p.fragment)) == p.fragment
  {
    var text := Marked(QUESTION, p.query) + Marked(HASH, p.fragment);
    if p.query.Some? {
      assert text[1..] == p.query.value + Marked(HASH, p.fragment);
      UntilIs(p.query.value, Marked(HASH, p.fragment), HASH);
      assert text[1 + |p.query.value|..] == Marked(HASH, p.fragment);
    } else {
      assert text == Marked(HASH, p.fragment);
    }
  }

  lemma SplitOfSplits(text: Bytes)
    requires HasScheme(text)
    ensures Splits(text, SplitOf(text))
  {
    var p := SplitOf(text);
    var rest := text[|p.scheme| + 1..];
    var afterAuthority := SplitAuthority(rest).1;
    SchemeIsSplit(text);
    AuthorityIsSplit(rest);
    PathIsSplit(afterAuthority);
    QueryIsSplit(afterAuthority[|p.path|..]);
  }

  lemma PathIsSplit(rest: Bytes)
    ensures var path := Until(rest, PATH_STOPS);
            && rest == path + rest[|path|..] && Free(path, PATH_STOPS)
            && (rest[|path|..] == [] || rest[|path|..][0] in PATH_STOPS)
  {
  }

  lemma SchemeIsSplit(text: Bytes)
    requires HasScheme(text)
    ensures var scheme := Until(text, COLON);
            ':' !in scheme && text == scheme + COLON + text[|scheme| + 1..]
  {
  }

  lemma AuthorityIsSplit(rest: Bytes)
    ensures var (a, after) := SplitAuthority(rest);
            var path := Until(after, PATH_STOPS);
            && rest == Marked(SLASHES, a) + after
            && if a.Some? then Free(a.value, AUTHORITY_STOPS) && (path == [] || path[0] == '/') else !TwoSlashes(path)
  {
  }

  lemma QueryIsSplit(rest: Bytes)
    requires rest == [] || rest[0] in PATH_STOPS
    ensures var (q, after) := SplitQuery(rest);
            var f := SplitFragment(after);
            && rest == Marked(QUESTION, q) + Marked(HASH, f)
            && (q.Some? ==> '#' !in q.value)
  {
  }

  // ---------- Parsing ----------

  // What follows the n-th byte of s.
  function After(s: Bytes, n: nat): Bytes {
    if n < |s| then s[n + 1..] else []
  }

  function PairOf(piece: Bytes): Query {
    var key := Until(piece, EQUALS);
    Query(Decode(key), Decode(After(piece, |key|)))
  }

  function PairsOf(query: Bytes): seq<Query>
    decreases |query|
  {
    if query == [] then [] else
    var piece := Until(query, AMPERSAND);
    [PairOf(piece)] + PairsOf(After(query, |piece|))
  }

  predicate IsQueryOrFragment(s: Bytes) {
    forall c | c in s :: IsFragmentChar(c) || c == '%'
  }

  // The first fault of a scheme.
  function SchemeFault(scheme: Bytes): Option<ParseError>
    requires scheme != []
  {
    if exists c | c in scheme :: !IsSchemeChar(c) then Some(SchemeCharacters)
    else if !IsAlpha(scheme[0]) then Some(SchemeNotAlpha)
    else None
  }

  // The first fault of a query and a fragment.
  function TailFault(query: Option<Bytes>, fragment: Option<Bytes>): Option<ParseError> {
    if query == Some([]) then Some(EmptyQuery)
    else if !IsQueryOrFragment(query.Or([])) then Some(QueryCharacters)
    else if !IsQueryOrFragment(fragment.Or([])) then Some(FragmentCharacters)
    else None
  }

  function Fault(p: Parts): Option<ParseError>
    requires p.scheme != []
  {
    var f := SchemeFault(p.scheme);
    if f.Some? then f else TailFault(p.query, p.fragment)
  }

  function Meaning(p: Parts): URI {
    URI(p.scheme, Decode(p.authority.Or([])), Decode(p.path), PairsOf(p.query.Or([])), Decode(p.fragment.Or([])))
  }

  function Judge(p: Parts): Result<URI, ParseError>
    requires p.scheme != []
  {
    var f := Fault(p);
    if f.Some? then Err(f.value) else Ok(Meaning(p))
  }

  function ParseResult(text: Bytes): Result<URI, ParseError> {
    if HasScheme(text) then Judge(SplitOf(text)) else Err(SchemeNotFound)
  }

  method FindFirstOf(slice: Bytes, t: Bytes) returns (ret: Bytes)
    requires IsAscii(t)
    ensures ret == Until(slice, t)
  {
    var target := new ASCIISet(t);
    FoldAscii(t);
    ret := slice;
    for i := 0 to |slice|
      invariant ret == slice && FirstStop(slice, t, 0) == FirstStop(slice, t, i)
    {
      assert target.Test(slice[i]) <==> slice[i] in target.Members();
      if target.Test(slice[i]) {
        return slice[..i];
      }
    }
  }

  method IsQueryOrFragmentString(str: Bytes) returns (ok: bool)
    ensures ok == IsQueryOrFragment(str)
  {
    var chars := new ASCIISet(FRAGMENT_TABLE);
    FragmentTable();
    for i := 0 to |str|
      invariant IsQueryOrFragment(str[..i])
    {
      assert chars.Test(str[i]) <==> str[i] in chars.Members();
      if !chars.Test(str[i]) && str[i] != '%' {
        return false;
      }
      assert str[..i + 1] == str[..i] + [str[i]];
    }
    assert str == str[..|str|];
    return true;
  }

  method ParsePairs(queryText: Bytes) returns (pairs: seq<Query>)
    ensures pairs == PairsOf(queryText)
  {
    var substr := queryText;
    pairs := [];
    while substr != []
      invariant pairs + PairsOf(substr) == PairsOf(queryText)
      decreases |substr|
    {
      var query := FindFirstOf(substr, AMPERSAND);
      NextPair(pairs, substr);
      Skip(substr, |query|, '&');
      substr := substr[|query|..];
      if StartsWith(substr, '&') {
        substr := substr[1..];
      }
      var pair := ParsePair(query);
      pairs := pairs + [pair];
    }
  }

  lemma NextPair(pairs: seq<Query>, query: Bytes)
    requires query != []
    ensures var piece := Until(query, AMPERSAND);
            pairs + PairsOf(query) == pairs + [PairOf(piece)] + PairsOf(After(query, |piece|))
  {
  }

  lemma Skip(s: Bytes, n: nat, c: Byte)
    requires n <= |s| && (n == |s| || s[n] == c)
    ensures (if StartsWith(s[n..], c) then s[n..][1..] else s[n..]) == After(s, n)
  {
  }

  method ParsePair(query: Bytes) returns (pair: Query)
    ensures pair == PairOf(query)
  {
    var key := FindFirstOf(query, EQUALS);
    Skip(query, |key|, '=');
    var value := query[|key|..];
    if StartsWith(value, '=') {
      value := value[1..];
    }
    var k := PercentDecode(key);
    var v := PercentDecode(value);
    return Query(k, v);
  }

  method IsSchemeString(str: Bytes) returns (ok: bool)
    ensures ok <==> forall c | c in str :: IsSchemeChar(c)
  {
    forall c | c in str
      ensures c in SCHEME_TABLE <==> IsSchemeChar(c)
    {
      InSchemeTable(c);
    }
    ok := forall c | c in str :: c in SCHEME_TABLE;
  }

  method ParseScheme(text: Bytes) returns (result: Result<Bytes, ParseError>)
    ensures HasScheme(text) ==>
              var scheme := Until(text, COLON);
              result == if SchemeFault(scheme).Some? then Err(SchemeFault(scheme).value) else Ok(scheme)
    ensures !HasScheme(text) ==> result == Err(SchemeNotFound)
  {
    var scheme := FindFirstOf(text, COLON);
    if scheme == [] || |scheme| == |text| {
      return Err(SchemeNotFound);
    }
    var ok := IsSchemeString(scheme);
    if !ok {
      return Err(SchemeCharacters);
    }
    if !IsAlpha(scheme[0]) {
      return Err(SchemeNotAlpha);
    }
    return Ok(scheme);
  }

  method ParseAuthority(text: Bytes) returns (authority: Bytes, remaining: Bytes)
    ensures authority == Decode(SplitAuthority(text).0.Or([])) && remaining == SplitAuthority(text).1
  {
    authority, remaining := [], text;
    if TwoSlashes(remaining) {
      remaining := remaining[2..];
      var substr := FindFirstOf(remaining, AUTHORITY_STOPS);
      authority := PercentDecode(substr);
      remaining := remaining[|substr|..];
    }
  }

  method ParsePath(text: Bytes) returns (path: Bytes, remaining: Bytes)
    ensures path == Decode(Until(text, PATH_STOPS)) && remaining == text[|Until(text, PATH_STOPS)|..]
  {
    path, remaining := [], text;
    if remaining != [] {
      var substr := FindFirstOf(remaining, PATH_STOPS);
      path := PercentDecode(substr);
      remaining := remaining[|substr|..];
    }
  }

  // Parses the query and the fragment, once the parts before them are known.
  method ParseTail(scheme: Bytes, authority: Bytes, path: Bytes, text: Bytes, ghost p: Parts)
    returns (result: Result<URI, ParseError>)
    requires p.scheme != [] && SchemeFault(p.scheme).None?
    requires p.query == SplitQuery(text).0 && p.fragment == SplitFragment(SplitQuery(text).1)
    requires scheme == p.scheme && authority == Decode(p.authority.Or([])) && path == Decode(p.path)
    ensures result == Judge(p)
  {
    var remaining := text;
    var pairs: seq<Query> := [];
    if StartsWith(remaining, '?') {
      remaining := remaining[1..];
      var substr := FindFirstOf(remaining, HASH);
      if substr == [] {
        return Err(EmptyQuery);
      }
      var ok := IsQueryOrFragmentString(substr);
      if !ok {
        return Err(QueryCharacters);
      }
      assert remaining[|substr|..] == text[1 + |substr|..];
      remaining := remaining[|substr|..];
      pairs := ParsePairs(substr);
    }
    assert remaining == SplitQuery(text).1 && pairs == PairsOf(p.query.Or([]));
    var fragment: Bytes := [];
    if StartsWith(remaining, '#') {
      remaining := remaining[1..];
      var ok := IsQueryOrFragmentString(remaining);
      if !ok {
        return Err(FragmentCharacters);
      }
      fragment := PercentDecode(remaining);
    }
    return Ok(URI(scheme, authority, path, pairs, fragment));
  }

  lemma Stages(text: Bytes, scheme: Bytes) returns (p: Parts)
    requires HasScheme(text) && scheme == Until(text, COLON)
    ensures p.scheme == scheme && ParseResult(text) == Judge(p)
    ensures var (authority, rest) := SplitAuthority(text[|scheme| + 1..]);
            var path := Until(rest, PATH_STOPS);
            var (query, rest') := SplitQuery(rest[|path|..]);
            p.authority == authority && p.path == path && p.query == query && p.fragment == SplitFragment(rest')
  {
    p := SplitOf(text);
  }

  method Parse(uriText: Bytes) returns (result: Result<URI, ParseError>)
    ensures result == ParseResult(uriText)
  {
    var scheme := ParseScheme(uriText);
    if scheme.Err? {
      return Err(scheme.error);
    }
    ghost var p := Stages(uriText, scheme.value);
    var authority, afterAuthority := ParseAuthority(uriText[|scheme.value| + 1..]);
    var path, afterPath := ParsePath(afterAuthority);
    result := ParseTail(scheme.value, authority, path, afterPath, p);
  }

  method Create(scheme: Bytes, authority: Bytes, path: Bytes, queries: seq<Query>, fragment: Bytes)
    returns (result: Option<URI>)
    ensures result == if HasRoom(authority, path) then Some(URI(scheme, authority, path, queries, fragment)) else None
  {
    if authority != [] && path != [] && path[0] != '/' {
      return None;
    }
    return Some(URI(scheme, authority, path, queries, fragment));
  }

  // A path that follows an authority is empty or starts with a slash.
  predicate HasRoom(authority: Bytes, path: Bytes) {
    authority != [] ==> path == [] || path[0] == '/'
  }

  // ---------- Printing ----------

  function SchemeText(s: Bytes): Bytes {
    Encode(s, SchemeChars())
  }

  function AuthorityText(s: Bytes): Bytes {
    Encode(s, AuthorityChars())
  }

  function PathText(s: Bytes): Bytes {
    Encode(s, PathChars())
  }

  function QueryText(s: Bytes): Bytes {
    Encode(s, QueryChars())
  }

  function FragmentText(s: Bytes): Bytes {
    Encode(s, FragmentChars())
  }

  function PairText(query: Query): Bytes {
    QueryText(query.key) + EQUALS + QueryText(query.value)
  }

  function PairTexts(queries: seq<Query>): (texts: seq<Bytes>)
    ensures |texts| == |queries| && forall i | 0 <= i < |texts| :: texts[i] == PairText(queries[i])
  {
    seq(|queries|, i requires 0 <= i < |queries| => PairText(queries[i]))
  }

  function Joined(texts: seq<Bytes>): Bytes {
    Joining.Join<Byte>(texts, '&')
  }

  function PairsText(queries: seq<Query>): Bytes {
    Joined(PairTexts(queries))
  }

  function DropAmpersand(s: Bytes): Bytes {
    if s != [] && s[|s| - 1] == '&' then s[..|s| - 1] else s
  }

  // Every component encoded, and the empty ones left out.
  function PlainParts(u: URI): Parts {
    Parts(
      SchemeText(u.scheme),
      if u.authority == [] then None else Some(AuthorityText(u.authority)),
      PathText(u.path),
      if u.queries == [] then None else Some(PairsText(u.queries)),
      if u.fragment == [] then None else Some(FragmentText(u.fragment)))
  }

  // Without a query the path loses an ampersand at its end, or, when there is no path, the authority does.
  function Trimmed(p: Parts): Parts {
    if p.query.Some? then p
    else if p.path != [] then p.(path := DropAmpersand(p.path))
    else if p.authority.Some? then p.(authority := Some(DropAmpersand(p.authority.value)))
    else p
  }

  function PrintedParts(u: URI): Parts {
    Trimmed(PlainParts(u))
  }

  function Print(u: URI): Bytes {
    Join(PrintedParts(u))
  }

  method EncodeWith(s: Bytes, table: Bytes) returns (text: Bytes)
    ensures text == Encode(s, Folded(table))
  {
    var unreserved := new ASCIISet(table);
    text := PercentEncode(s, unreserved);
  }

  method PercentEncodePath(str: Bytes) returns (text: Bytes)
    ensures text == PathText(str)
  {
    PathTable();
    text := EncodeWith(str, PATH_TABLE);
  }

  method PercentEncodeAuthority(str: Bytes) returns (text: Bytes)
    ensures text == AuthorityText(str)
  {
    AuthorityTable();
    text := EncodeWith(str, AUTHORITY_TABLE);
  }

  method PercentEncodeScheme(str: Bytes) returns (text: Bytes)
    ensures text == SchemeText(str)
  {
    SchemeTable();
    text := EncodeWith(str, SCHEME_TABLE);
  }

  method PercentEncodeQuery(str: Bytes) returns (text: Bytes)
    ensures text == QueryText(str)
  {
    QueryTable();
    text := EncodeWith(str, QUERY_TABLE);
  }

  method PercentEncodeFragment(str: Bytes) returns (text: Bytes)
    ensures text == FragmentText(str)
  {
    FragmentTable();
    text := EncodeWith(str, FRAGMENT_TABLE);
  }

  // Every pair with an ampersand after it.
  method PrintQueries(queries: seq<Query>) returns (text: Bytes)
    requires queries != []
    ensures text == PairsText(queries) + AMPERSAND
  {
    ghost var texts := PairTexts(queries);
    text := [];
    for i := 0 to |queries|
      invariant text == Joining.Marked<Byte>(texts[..i], '&')
    {
      var pair := PrintPair(queries[i]);
      text := text + pair;
      text := text + AMPERSAND;
      Joining.MarkedNext<Byte>(texts, i, '&');
    }
    assert texts[..|queries|] == texts;
    Joining.MarkedIsJoined<Byte>(texts, '&');
  }

  method PrintPair(query: Query) returns (text: Bytes)
    ensures text == PairText(query)
  {
    text := PercentEncodeQuery(query.key);
    text := text + EQUALS;
    var value := PercentEncodeQuery(query.value);
    text := text + value;
  }

  method ToString(u: URI) returns (ret: Bytes)
    ensures ret == Print(u)
  {
    ret := PrintTrimmed(u);
    if u.fragment != [] {
      var fragment := PercentEncodeFragment(u.fragment);
      ret := Append(ret, HASH, fragment);
    }
  }

  // What is printed before the fragment.
  method PrintTrimmed(u: URI) returns (ret: Bytes)
    ensures ret + Marked(HASH, PlainParts(u).fragment) == Print(u)
  {
    ret := PrintFront(u);
    DropFromFront(PlainParts(u), ret);
    if ret[|ret| - 1] == '&' {
      ret := ret[..|ret| - 1];
    }
  }

  // What is printed before a trailing ampersand is looked for.
  method PrintFront(u: URI) returns (ret: Bytes)
    ensures ret == Front(PlainParts(u))
  {
    ghost var p := PlainParts(u);
    ret := PercentEncodeScheme(u.scheme);
    ret := ret + COLON;
    if u.authority != [] {
      var authority := PercentEncodeAuthority(u.authority);
      ret := Append(ret, SLASHES, authority);
    }
    assert ret == p.scheme + COLON + Marked(SLASHES, p.authority);
    if u.path != [] {
      var path := PercentEncodePath(u.path);
      ret := ret + path;
    }
    assert ret == p.scheme + COLON + Marked(SLASHES, p.authority) + p.path;
    if u.queries != [] {
      var queries := PrintQueries(u.queries);
      ret := Append(ret, QUESTION, queries);
    }
  }

  method Append(s: Bytes, mark: Bytes, text: Bytes) returns (ret: Bytes)
    ensures ret == s + (mark + text)
  {
    ret := s + mark;
    ret := ret + text;
  }

  // All that is printed before the fragment, and the ampersand after the last pair.
  function Front(p: Parts): Bytes {
    p.scheme + COLON + Marked(SLASHES, p.authority) + p.path
      + if p.query.Some? then QUESTION + (p.query.value + AMPERSAND) else []
  }

  // An ampersand dropped from the end of the text is dropped from the last part before the fragment.
  lemma DropFromFront(p: Parts, front: Bytes)
    requires front == Front(p)
    ensures DropAmpersand(front) + Marked(HASH, p.fragment) == Join(Trimmed(p))
  {
    var t := Trimmed(p);
    var head, a := p.scheme + COLON, Marked(SLASHES, p.authority);
    if p.query.Some? {
      var q := p.query.value;
      assert front == head + a + p.path + (QUESTION + q) + AMPERSAND;
    } else if p.path != [] {
      DropFromLast(head + a, p.path);
    } else if p.authority.Some? && p.authority.value != [] {
      DropFromLast(head + SLASHES, p.authority.value);
      assert head + a + p.path == head + SLASHES + p.authority.value;
    }
    assert DropAmpersand(front) == head + Marked(SLASHES, t.authority) + t.path + Marked(QUESTION, t.query);
    Regrouped(head, Marked(SLASHES, t.authority), t.path, Marked(QUESTION, t.query), Marked(HASH, t.fragment));
  }

  lemma DropFromLast(s: Bytes, t: Bytes)
    requires t != []
    ensures DropAmpersand(s + t) == s + DropAmpersand(t)
  {
  }

  lemma Regrouped(a: Bytes, b: Bytes, c: Bytes, d: Bytes, e: Bytes)
    ensures a + b + c + d + e == a + (b + (c + (d + e)))
  {
  }
}
