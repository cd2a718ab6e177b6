/**
 The characters each part of a URI may hold unescaped (section 2 and section 3 of RFC 3986, as the program
 has them): as the tables the program lists them in, and as predicates.
 */
module UriChars {
  import opened AsciiSets

  const LOWER: Bytes := "abcdefghijklmnopqrstuvwxyz"
  const UPPER: Bytes := "ABCDEFGHIJKLMNOPQRSTUVWXYZ"
  const DIGITS: Bytes := "0123456789"
  const MARKS: Bytes := "-_.!~*'()"

  const PATH_TABLE: Bytes := LOWER + UPPER + DIGITS + MARKS + ":@&=+$,;/"
  const AUTHORITY_TABLE: Bytes := LOWER + UPPER + DIGITS + MARKS + ":@&=+$,;[]"
  const SCHEME_TABLE: Bytes := UPPER + LOWER + DIGITS + "+-."
  const QUERY_TABLE: Bytes := LOWER + UPPER + DIGITS + MARKS + ":@+$,;/?"
  const FRAGMENT_TABLE: Bytes := LOWER + UPPER + DIGITS + MARKS + ":@&=+$,;/?"

  predicate IsAlpha(c: Byte) {
    'a' <= c <= 'z' || 'A' <= c <= 'Z'
  }

  predicate IsAlphaNum(c: Byte) {
    IsAlpha(c) || '0' <= c <= '9'
  }

  // What the path, the authority, queries and fragments have in common.
  predicate IsCommon(c: Byte) {
    || IsAlphaNum(c) || IsMark(c)
    || c == ':' || c == '@' || c == '+' || c == '$' || c == ',' || c == ';'
  }

  predicate IsMark(c: Byte) {
    || c == '-' || c == '_' || c == '.' || c == '!' || c == '~'
    || c == '*' || c == '\'' || c == '(' || c == ')'
  }

  predicate IsSchemeChar(c: Byte) {
    IsAlphaNum(c) || c == '+' || c == '-' || c == '.'
  }

  predicate IsAuthorityChar(c: Byte) {
    IsCommon(c) || c == '&' || c == '=' || c == '[' || c == ']'
  }

  predicate IsPathChar(c: Byte) {
    IsCommon(c) || c == '&' || c == '=' || c == '/'
  }

  predicate IsQueryChar(c: Byte) {
    IsCommon(c) || c == '/' || c == '?'
  }

  predicate IsFragmentChar(c: Byte) {
    IsCommon(c) || c == '/' || c == '?' || c == '&' || c == '='
  }

  function SchemeChars(): set<Byte> {
    set c: Byte | IsSchemeChar(c)
  }

  function AuthorityChars(): set<Byte> {
    set c: Byte | IsAuthorityChar(c)
  }

  function PathChars(): set<Byte> {
    set c: Byte | IsPathChar(c)
  }

  function QueryChars(): set<Byte> {
    set c: Byte | IsQueryChar(c)
  }

  function FragmentChars(): set<Byte> {
    set c: Byte | IsFragmentChar(c)
  }

  // ---------- The tables list exactly these characters ----------

  lemma InLower(c: Byte)
    ensures c in LOWER <==> 'a' <= c <= 'z'
  {
  }

  lemma InUpper(c: Byte)
    ensures c in UPPER <==> 'A' <= c <= 'Z'
  {
  }

  lemma InDigits(c: Byte)
    ensures c in DIGITS <==> '0' <= c <= '9'
  {
  }

  lemma InLetters(c: Byte)
    ensures c in LOWER + UPPER + DIGITS <==> IsAlphaNum(c)
    ensures c in UPPER + LOWER + DIGITS <==> IsAlphaNum(c)
  {
    InLower(c);
    InUpper(c);
    InDigits(c);
  }

  lemma InTable(c: Byte, tail: Bytes)
    ensures c in LOWER + UPPER + DIGITS + MARKS + tail <==> IsAlphaNum(c) || IsMark(c) || c in tail
  {
    InLetters(c);
    assert c in LOWER + UPPER + DIGITS + MARKS <==> c in LOWER + UPPER + DIGITS || c in MARKS;
  }

  // A table that lists some ASCII characters makes the set of them.
  lemma TableMakesSet(table: Bytes, chars: set<Byte>)
    requires forall c: Byte :: c in table <==> c in chars
    requires forall c | c in chars :: c < 128 as char
    ensures Folded(table) == chars
  {
  }

  lemma AreAscii()
    ensures forall c | c in PathChars() :: c < 128 as char
    ensures forall c | c in AuthorityChars() :: c < 128 as char
    ensures forall c | c in SchemeChars() :: c < 128 as char
    ensures forall c | c in QueryChars() :: c < 128 as char
    ensures forall c | c in FragmentChars() :: c < 128 as char
  {
  }

  lemma InPathTable(c: Byte)
    ensures c in PATH_TABLE <==> c in PathChars()
  {
    InTable(c, ":@&=+$,;/");
  }

  lemma PathTable()
    ensures Folded(PATH_TABLE) == PathChars()
  {
    AreAscii();
    forall c: Byte
      ensures c in PATH_TABLE <==> c in PathChars()
    {
      InPathTable(c);
    }
    TableMakesSet(PATH_TABLE, PathChars());
  }

  lemma InAuthorityTable(c: Byte)
    ensures c in AUTHORITY_TABLE <==> c in AuthorityChars()
  {
    InTable(c, ":@&=+$,;[]");
  }

  lemma AuthorityTable()
    ensures Folded(AUTHORITY_TABLE) == AuthorityChars()
  {
    AreAscii();
    forall c: Byte
      ensures c in AUTHORITY_TABLE <==> c in AuthorityChars()
    {
      InAuthorityTable(c);
    }
    TableMakesSet(AUTHORITY_TABLE, AuthorityChars());
  }

  lemma InQueryTable(c: Byte)
    ensures c in QUERY_TABLE <==> c in QueryChars()
  {
    InTable(c, ":@+$,;/?");
  }

  lemma QueryTable()
    ensures Folded(QUERY_TABLE) == QueryChars()
  {
    AreAscii();
    forall c: Byte
      ensures c in QUERY_TABLE <==> c in QueryChars()
    {
      InQueryTable(c);
    }
    TableMakesSet(QUERY_TABLE, QueryChars());
  }

  lemma InFragmentTable(c: Byte)
    ensures c in FRAGMENT_TABLE <==> c in FragmentChars()
  {
    InTable(c, ":@&=+$,;/?");
  }

  lemma FragmentTable()
    ensures Folded(FRAGMENT_TABLE) == FragmentChars()
  {
    AreAscii();
    forall c: Byte
      ensures c in FRAGMENT_TABLE <==> c in FragmentChars()
    {
      InFragmentTable(c);
    }
    TableMakesSet(FRAGMENT_TABLE, FragmentChars());
  }

  lemma InSchemeTable(c: Byte)
    ensures c in SCHEME_TABLE <==> c in SchemeChars()
  {
    InLetters(c);
  }

  lemma SchemeTable()
    ensures Folded(SCHEME_TABLE) == SchemeChars()
  {
    AreAscii();
    forall c: Byte
      ensures c in SCHEME_TABLE <==> c in SchemeChars()
    {
      InSchemeTable(c);
    }
    TableMakesSet(SCHEME_TABLE, SchemeChars());
  }
}
