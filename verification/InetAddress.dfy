/**
 Addresses as text (sections 4.2.1 to 4.2.3 of RFC 5952), and equality of addresses by their text.
 */
module InetAddresses {
  import opened Joining
  import opened Numerals

  type Octet = n: int | 0 <= n < 256

  type Bytes16 = s: seq<Octet> | |s| == 16 witness seq(16, _ => 0)

  datatype Family = IPAny | IPv4 | IPv6

  datatype InetAddress = InetAddress(bytes: Bytes16, port: nat, family: Family)

  // ---------- The range that is contracted ----------

  function Group(bytes: Bytes16, k: nat): (g: nat)
    requires k < 8
    ensures g < 0x10000
  {
    var high: int, low: int := bytes[2 * k], bytes[2 * k + 1];
    high * 256 + low
  }

  function Groups(bytes: Bytes16): (groups: seq<nat>)
    ensures |groups| == 8 && forall k | 0 <= k < 8 :: groups[k] == Group(bytes, k)
  {
    seq(8, k requires 0 <= k < 8 => Group(bytes, k))
  }

  // Groups a to b are zero.
  predicate IsZeroRun(groups: seq<nat>, a: int, b: int) {
    0 <= a < b <= |groups| && forall k | a <= k < b :: groups[k] == 0
  }

  // A zero run with no zero group beside it.
  predicate IsWholeRun(groups: seq<nat>, a: int, b: int) {
    IsZeroRun(groups, a, b) && (a == 0 || groups[a - 1] != 0) && (b == |groups| || groups[b] != 0)
  }

  // a to b is the leftmost of the longest whole runs of at least two groups that end by `open`, or there is
  // no such run and a is b.
  ghost predicate IsBest(groups: seq<nat>, open: int, a: int, b: int) {
    && (a == b || (IsWholeRun(groups, a, b) && b - a >= 2 && b <= open))
    && forall c, d | IsWholeRun(groups, c, d) && d <= open && d - c >= 2 ::
         b - a > d - c || (b - a == d - c && a <= c)
  }

  lemma BestIsUnique(groups: seq<nat>, a: int, b: int, a': int, b': int)
    requires IsBest(groups, |groups|, a, b) && IsBest(groups, |groups|, a', b')
    ensures a < b || a' < b' ==> a == a' && b == b'
  {
  }

  // A range of groups as a place and a length in bytes; the length is -1 when nothing is contracted.
  function Span(a: int, b: int): (int, int) {
    if a < b then (2 * a, 2 * (b - a)) else (0, -1)
  }

  // The range to contract: the best of the groups, or none.
  ghost predicate IsChoice(groups: seq<nat>, a: int, b: int, range: (int, int)) {
    0 <= a <= b <= 8 && IsBest(groups, 8, a, b) && range == Span(a, b)
  }

  method ChooseIPv6ContractionRange(bytes: Bytes16) returns (range: (int, int))
    ensures exists a, b :: IsChoice(Groups(bytes), a, b, range)
  {
    ghost var groups := Groups(bytes);
    ghost var a, b, c, k := 0, 0, 0, 0;
    var maxRange, curRange := (0, -1), (0, -1);
    var i := 0;
    while i < 16
      invariant 0 <= k <= 8 && i == 2 * k
      invariant k < 8 ==> IsOpenRun(groups, c, k) && curRange == Span(c, k)
      invariant 0 <= a <= b <= 8 && maxRange == Span(a, b) && IsBest(groups, if k == 8 then 8 else k - 1, a, b)
    {
      var isZero := bytes[i] == 0 && bytes[i + 1] == 0;
      assert isZero <==> groups[k] == 0;
      ghost var end := k;
      if isZero {
        if curRange.1 == -1 {
          curRange := (i, 0);
        }
        curRange := (curRange.0, curRange.1 + 2);
        end := k + 1;
      }
      assert curRange == Span(c, end);
      Closes(groups, k, c, end, a, b);
      if !isZero || i == 14 {
        if curRange.1 > 2 && curRange.1 > maxRange.1 {
          maxRange := curRange;
          a, b := c, end;
        }
        curRange := (0, -1);
        c := k + 1;
      }
      i := i + 2;
      k := k + 1;
    }
    range := maxRange;
    assert IsChoice(groups, a, b, range);
  }

  // The zero groups right before group k are those from c on.
  predicate IsOpenRun(groups: seq<nat>, c: int, k: int) {
    && 0 <= c <= k <= |groups|
    && (forall j | c <= j < k :: groups[j] == 0) && (c == 0 || groups[c - 1] != 0)
  }

  // A run is weighed against the best so far when it ends; while it goes on, the best stays.
  lemma Closes(groups: seq<nat>, k: int, c: int, end: int, a: int, b: int)
    requires |groups| == 8 && 0 <= k < 8 && IsOpenRun(groups, c, k)
    requires end == if groups[k] == 0 then k + 1 else k
    requires IsBest(groups, k - 1, a, b)
    ensures if groups[k] != 0 || k == 7 then
              var open := if k == 7 then 8 else k;
              if end - c >= 2 && end - c > b - a then IsBest(groups, open, c, end) else IsBest(groups, open, a, b)
            else
              IsBest(groups, k, a, b)
  {
  }

  // ---------- Printing ----------

  function HexFields(groups: seq<nat>): (fields: seq<string>)
    ensures |fields| == |groups| && forall k | 0 <= k < |fields| :: fields[k] == Hex(groups[k])
  {
    seq(|groups|, k requires 0 <= k < |groups| => Hex(groups[k]))
  }

  function DecimalFields(bytes: seq<Octet>): (fields: seq<string>)
    ensures |fields| == |bytes| && forall k | 0 <= k < |fields| :: fields[k] == Decimal(bytes[k])
  {
    seq(|bytes|, k requires 0 <= k < |bytes| => Decimal(bytes[k]))
  }

  // Groups a to b, all zero, are written as two colons; none are if a is b.
  function Inner(groups: seq<nat>, a: int, b: int): string
    requires 0 <= a <= b <= |groups|
  {
    if a == b then Join(HexFields(groups), ':')
    else Join(HexFields(groups[..a]), ':') + "::" + Join(HexFields(groups[b..]), ':')
  }

  method ToIPv4Address(bytes: Bytes16) returns (out: string)
    ensures out == Join(DecimalFields(bytes[..4]), '.')
  {
    ghost var fields := DecimalFields(bytes[..4]);
    out := "";
    for i := 0 to 4
      invariant out == if i < 4 then Marked(fields[..i], '.') else Join(fields, '.')
    {
      out := out + Decimal(bytes[i]);
      if i != 3 {
        out := out + ['.'];
      }
      MarkedNext(fields, i, '.');
    }
  }

  // Groups a to b of these bytes are the ones to contract, and the text is printed with them contracted.
  ghost predicate IsContracted(bytes: Bytes16, a: int, b: int, text: string) {
    0 <= a <= b <= 8 && IsBest(Groups(bytes), 8, a, b) && text == "[" + Inner(Groups(bytes), a, b) + "]"
  }

  method ToIPv6Address(bytes: Bytes16) returns (out: string)
    ensures exists a, b :: IsContracted(bytes, a, b, out)
  {
    var range := ChooseIPv6ContractionRange(bytes);
    ghost var a, b :| IsChoice(Groups(bytes), a, b, range);
    out := PrintGroups(bytes, range, a, b);
    SoFarIsLayout(Groups(bytes), a, b, 8);
    AllPrinted(Groups(bytes), a, b);
    out := out + "]";
    assert IsContracted(bytes, a, b, out);
  }

  method PrintGroups(bytes: Bytes16, range: (int, int), ghost a: int, ghost b: int) returns (out: string)
    requires 0 <= a <= b <= 8 && range == Span(a, b)
    ensures out == SoFar(Groups(bytes), a, b, 8)
  {
    ghost var groups := Groups(bytes);
    ghost var k := 0;
    out := "[";
    var i := 0;
    while i <= 14
      invariant 0 <= k <= 8 && i == 2 * k && (a < b ==> k <= a || b <= k)
      invariant out == SoFar(groups, a, b, k)
      decreases 16 - i
    {
      if i == range.0 && range.1 > 0 {
        out := AppendColons(out, i == 0, groups, a, b);
        i := range.0 + range.1;
        k := b;
      } else {
        var high: int, low: int := bytes[i], bytes[i + 1];
        var x := high * 256 + low;
        i := i + 2;
        out := AppendGroup(out, x, i < 16, groups, a, b, k);
        k := k + 1;
      }
    }
  }

  // What is printed when the first k groups are done, each step after the one before.
  ghost function SoFar(groups: seq<nat>, a: int, b: int, k: int): string
    requires |groups| == 8 && 0 <= a <= b <= 8 && 0 <= k <= 8
    decreases k
  {
    if a < b == k then
      var before := SoFar(groups, a, b, a);
      if a == 0 then before + [':'] + [':'] else before + [':']
    else if k == 0 then "["
    else
      var before := SoFar(groups, a, b, k - 1) + Hex(groups[k - 1]);
      if k < 8 then before + [':'] else before
  }

  lemma {:induction false} SoFarIsLayout(groups: seq<nat>, a: int, b: int, k: int)
    requires |groups| == 8 && 0 <= a <= b <= 8 && 0 <= k <= 8 && (a < b ==> k <= a || b <= k)
    ensures SoFar(groups, a, b, k) == Layout(groups, a, b, k)
    decreases k
  {
    if a < b == k {
      SoFarIsLayout(groups, a, b, a);
      Contracted(groups, a, b);
    } else if k > 0 {
      SoFarIsLayout(groups, a, b, k - 1);
      GroupPrinted(groups, a, b, k - 1);
    }
  }

  method AppendColons(before: string, twice: bool, ghost groups: seq<nat>, ghost a: int, ghost b: int)
    returns (out: string)
    requires |groups| == 8 && 0 <= a < b <= 8 && before == SoFar(groups, a, b, a) && (twice <==> a == 0)
    ensures out == SoFar(groups, a, b, b)
  {
    out := before;
    if twice {
      out := out + [':'];
    }
    out := out + [':'];
  }

  method AppendGroup(before: string, x: nat, more: bool, ghost groups: seq<nat>, ghost a: int, ghost b: int, ghost k: int)
    returns (out: string)
    requires |groups| == 8 && 0 <= a <= b <= 8 && 0 <= k < 8 && (a < b ==> k < a || b <= k)
    requires x < 0x10000 && x == groups[k] && before == SoFar(groups, a, b, k) && (more <==> k < 7)
    ensures out == SoFar(groups, a, b, k + 1)
  {
    var str := FormatHex(x);
    out := before + str;
    if more {
      out := out + [':'];
    }
  }

  // Formats a group; the four characters the program has room for are enough.
  method FormatHex(x: nat) returns (str: string)
    requires x < 0x10000
    ensures str == Hex(x) && |str| <= 4
  {
    HexLength(x);
    return Hex(x);
  }

  // What is printed when the first k groups are done: what the contraction closed off, and then groups.
  ghost function Layout(groups: seq<nat>, a: int, b: int, k: int): string
    requires |groups| == 8 && 0 <= a <= b <= 8 && 0 <= k <= 8
  {
    "[" + (Front(groups, a, b, k) + Printed(groups, if a < b <= k then b else 0, k))
  }

  ghost function Front(groups: seq<nat>, a: int, b: int, k: int): string
    requires |groups| == 8 && 0 <= a <= b <= 8
  {
    if a < b <= k then Join(HexFields(groups[..a]), ':') + "::" else ""
  }

  ghost function Printed(groups: seq<nat>, from: int, k: int): string
    requires 0 <= from <= k <= |groups|
  {
    if k == |groups| then Join(HexFields(groups[from..]), ':') else Marked(HexFields(groups[from..k]), ':')
  }

  lemma AllPrinted(groups: seq<nat>, a: int, b: int)
    requires |groups| == 8 && 0 <= a <= b <= 8
    ensures Layout(groups, a, b, 8) == "[" + Inner(groups, a, b)
  {
  }

  lemma Contracted(groups: seq<nat>, a: int, b: int)
    requires |groups| == 8 && 0 <= a < b <= 8
    ensures var before := Layout(groups, a, b, a);
            Layout(groups, a, b, b) == if a == 0 then before + [':'] + [':'] else before + [':']
  {
    var front, before := Join(HexFields(groups[..a]), ':'), Printed(groups, 0, a);
    PrintedBefore(groups, a);
    NonePrinted(groups, b);
    Colons(front, before, a == 0);
    assert Layout(groups, a, b, b) == "[" + (front + "::" + "");
  }

  // The groups before the contraction have a colon after each.
  lemma PrintedBefore(groups: seq<nat>, a: int)
    requires 0 <= a < |groups|
    ensures var front := Join(HexFields(groups[..a]), ':');
            Printed(groups, 0, a) == (if a == 0 then "" else front + ":") && (a == 0 ==> front == "")
  {
    assert groups[0..a] == groups[..a];
    if a > 0 {
      MarkedIsJoined(HexFields(groups[..a]), ':');
    }
  }

  lemma NonePrinted(groups: seq<nat>, b: int)
    requires 0 <= b <= |groups|
    ensures Printed(groups, b, b) == ""
  {
  }

  lemma Colons(front: string, before: string, none: bool)
    requires before == if none then "" else front + ":"
    requires none ==> front == ""
    ensures "[" + (front + "::" + "") == if none then "[" + ("" + before) + [':'] + [':'] else "[" + ("" + before) + [':']
  {
  }

  lemma GroupPrinted(groups: seq<nat>, a: int, b: int, k: int)
    requires |groups| == 8 && 0 <= a <= b <= 8 && 0 <= k < 8 && (a < b ==> k < a || b <= k)
    ensures var before := Layout(groups, a, b, k) + Hex(groups[k]);
            Layout(groups, a, b, k + 1) == if k < 7 then before + [':'] else before
  {
    NextGroup(groups, if a < b <= k then b else 0, k);
  }

  lemma NextGroup(groups: seq<nat>, from: nat, k: nat)
    requires from <= k < |groups|
    ensures Printed(groups, from, k + 1)
         == Printed(groups, from, k) + Hex(groups[k]) + if k + 1 < |groups| then ":" else ""
  {
    var fields := HexFields(groups[from..]);
    MarkedNext(fields, k - from, ':');
    assert HexFields(groups[from..k]) == fields[..k - from] && HexFields(groups[from..k + 1]) == fields[..k + 1 - from];
  }

  // ---------- What the fields spell ----------

  // The two hexadecimal digits of a byte.
  function OctetText(b: Octet): string {
    [HexDigit(b / 16), HexDigit(b % 16)]
  }

  // With its leading zeros, a field spells the two bytes of its group, the first one first; and the zeros are
  // left out.
  lemma FieldSpellsBytes(bytes: Bytes16, k: nat)
    requires k < 8
    ensures var field := HexFields(Groups(bytes))[k];
            && |field| <= 4 && Padded(field) == OctetText(bytes[2 * k]) + OctetText(bytes[2 * k + 1])
            && (field[0] == '0' ==> field == "0")
  {
    var g := Group(bytes, k);
    HexPadded(g);
    OfTwoBytes(bytes[2 * k], bytes[2 * k + 1], g);
    if g > 0 {
      NoLeadingZero(g);
    }
  }

  lemma OfTwoBytes(high: int, low: int, g: nat)
    requires 0 <= high < 256 && 0 <= low < 256 && g == high * 256 + low
    ensures g / 16 / 16 / 16 == high / 16 && g / 16 / 16 % 16 == high % 16
    ensures g / 16 % 16 == low / 16 && g % 16 == low % 16
  {
    assert g / 16 == high * 16 + low / 16;
  }

  lemma DecimalSpellsByte(bytes: Bytes16, k: nat)
    requires k < 4
    ensures var field := DecimalFields(bytes[..4])[k];
            DigitsFrom(field, 0) == bytes[k] && (field[0] == '0' ==> field == "0")
  {
    var b: int := bytes[k];
    DigitsOfDecimal(b);
    if b > 0 {
      NoLeadingZero(b);
    }
  }

  // ---------- The text tells the address ----------

  // Fields that can be told apart when a separator stands between them.
  ghost predicate Plain(fields: seq<string>, sep: char) {
    forall k | 0 <= k < |fields| :: fields[k] != "" && sep !in fields[k]
  }

  // No separator is at an end of the text, and no two are next to each other.
  ghost predicate Single(text: string, sep: char) {
    && (text != "" ==> text[0] != sep && text[|text| - 1] != sep)
    && forall k | 0 <= k < |text| - 1 :: text[k] != sep || text[k + 1] != sep
  }

  lemma {:induction false} JoinIsSingle(fields: seq<string>, sep: char)
    requires Plain(fields, sep)
    ensures Single(Join(fields, sep), sep) && (fields != [] ==> Join(fields, sep) != "")
  {
    if |fields| > 1 {
      JoinIsSingle(fields[1..], sep);
      SingleConcat(fields[0], Join(fields[1..], sep), sep);
    }
  }

  lemma SingleConcat(first: string, rest: string, sep: char)
    requires first != "" && sep !in first && rest != "" && Single(rest, sep)
    ensures Single(first + [sep] + rest, sep)
  {
  }

  lemma {:induction false} JoinInjective(f: seq<string>, g: seq<string>, sep: char)
    requires Plain(f, sep) && Plain(g, sep) && Join(f, sep) == Join(g, sep)
    ensures f == g
  {
    JoinIsSingle(f, sep);
    JoinIsSingle(g, sep);
    if f != [] {
      SameFirst(f, g, sep);
      if |f| > 1 {
        assert Join(f, sep)[|f[0]| + 1..] == Join(f[1..], sep) && Join(g, sep)[|g[0]| + 1..] == Join(g[1..], sep);
        JoinInjective(f[1..], g[1..], sep);
        assert f == [f[0]] + f[1..] && g == [g[0]] + g[1..];
      }
    }
  }

  lemma SameFirst(f: seq<string>, g: seq<string>, sep: char)
    requires Plain(f, sep) && Plain(g, sep) && Join(f, sep) == Join(g, sep) && f != [] && g != []
    ensures f[0] == g[0] && (|f| > 1 <==> |g| > 1)
  {
    FirstEnds(f, sep);
    FirstEnds(g, sep);
    var text := Join(f, sep);
    assert f[0] == text[..|f[0]|] && g[0] == text[..|g[0]|];
  }

  lemma FirstEnds(f: seq<string>, sep: char)
    requires Plain(f, sep) && f != []
    ensures var text, n := Join(f, sep), |f[0]|;
            && n <= |text| && text[..n] == f[0] && (n < |text| <==> |f| > 1) && (n < |text| ==> text[n] == sep)
            && forall k | 0 <= k < n :: text[k] != sep
  {
  }

  lemma HexFieldsPlain(groups: seq<nat>)
    ensures Plain(HexFields(groups), ':')
  {
  }

  lemma HexFieldsInjective(g: seq<nat>, h: seq<nat>)
    requires Join(HexFields(g), ':') == Join(HexFields(h), ':')
    ensures g == h
  {
    HexFieldsPlain(g);
    HexFieldsPlain(h);
    JoinInjective(HexFields(g), HexFields(h), ':');
    forall k | 0 <= k < |g|
      ensures g[k] == h[k]
    {
      assert HexFields(g)[k] == HexFields(h)[k];
      ValueOfHex(g[k]);
      ValueOfHex(h[k]);
    }
  }

  lemma DecimalFieldsInjective(g: seq<Octet>, h: seq<Octet>)
    requires Join(DecimalFields(g), '.') == Join(DecimalFields(h), '.')
    ensures g == h
  {
    JoinInjective(DecimalFields(g), DecimalFields(h), '.');
    forall k | 0 <= k < |g|
      ensures g[k] == h[k]
    {
      assert DecimalFields(g)[k] == DecimalFields(h)[k];
      DigitsOfDecimal(g[k]);
      DigitsOfDecimal(h[k]);
    }
  }

  // The only two separators in a row are those of the contraction.
  lemma DoubleIsThere(s: string, t: string, s': string, t': string)
    requires Single(s, ':') && Single(s', ':') && s + "::" + t == s' + "::" + t'
    ensures s == s' && t == t'
  {
    var text := s + "::" + t;
    if |s| == |s'| {
      assert s == text[..|s|] && t == text[|s| + 2..];
    } else if |s| < |s'| {
      NotThere(s', t', |s|);
    } else {
      NotThere(s, t, |s'|);
    }
  }

  lemma NotThere(s: string, t: string, k: nat)
    requires Single(s, ':') && k < |s|
    ensures !((s + "::" + t)[k] == ':' && (s + "::" + t)[k + 1] == ':')
  {
  }

  lemma InnerInjective(g: seq<nat>, a: int, b: int, h: seq<nat>, c: int, d: int)
    requires |g| == |h| == 8 && 0 <= a <= b <= 8 && 0 <= c <= d <= 8
    requires (a < b ==> IsZeroRun(g, a, b)) && (c < d ==> IsZeroRun(h, c, d))
    requires Inner(g, a, b) == Inner(h, c, d)
    ensures g == h
  {
    if a == b && c == d {
      HexFieldsInjective(g, h);
    } else if a == b {
      NotContracted(g, Inner(h, c, d), |Join(HexFields(h[..c]), ':')|);
    } else if c == d {
      NotContracted(h, Inner(g, a, b), |Join(HexFields(g[..a]), ':')|);
    } else {
      SameContracted(g, a, b, h, c, d);
    }
  }

  lemma NotContracted(groups: seq<nat>, text: string, k: nat)
    requires k + 1 < |text| && text[k] == text[k + 1] == ':'
    ensures Join(HexFields(groups), ':') != text
  {
    HexFieldsPlain(groups);
    JoinIsSingle(HexFields(groups), ':');
  }

  lemma SameContracted(g: seq<nat>, a: int, b: int, h: seq<nat>, c: int, d: int)
    requires |g| == |h| == 8 && 0 <= a < b <= 8 && 0 <= c < d <= 8 && IsZeroRun(g, a, b) && IsZeroRun(h, c, d)
    requires Inner(g, a, b) == Inner(h, c, d)
    ensures g == h
  {
    HexFieldsPlain(g[..a]);
    HexFieldsPlain(h[..c]);
    JoinIsSingle(HexFields(g[..a]), ':');
    JoinIsSingle(HexFields(h[..c]), ':');
    DoubleIsThere(Join(HexFields(g[..a]), ':'), Join(HexFields(g[b..]), ':'),
                  Join(HexFields(h[..c]), ':'), Join(HexFields(h[d..]), ':'));
    HexFieldsInjective(g[..a], h[..c]);
    HexFieldsInjective(g[b..], h[d..]);
    assert |g[..a]| == |h[..c]| && |g[b..]| == |h[d..]|;
    SameOutside(g, h, a, b);
  }

  lemma SameOutside(g: seq<nat>, h: seq<nat>, a: int, b: int)
    requires |g| == |h| == 8 && IsZeroRun(g, a, b) && IsZeroRun(h, a, b) && g[..a] == h[..a] && g[b..] == h[b..]
    ensures g == h
  {
  }

  // ---------- Equality ----------

  // The bytes that the family uses.
  function Significant(x: InetAddress): seq<Octet> {
    match x.family
    case IPAny => []
    case IPv4 => x.bytes[..4]
    case IPv6 => x.bytes
  }

  // What an address is printed as.
  ghost predicate IsText(x: InetAddress, text: string) {
    match x.family
    case IPAny => text == ""
    case IPv4 => text == Join(DecimalFields(x.bytes[..4]), '.')
    case IPv6 => exists a, b :: IsContracted(x.bytes, a, b, text)
  }

  method Ip(x: InetAddress) returns (ret: string)
    ensures IsText(x, ret)
  {
    ret := "";
    if x.family == IPv4 {
      ret := ToIPv4Address(x.bytes);
    } else if x.family == IPv6 {
      ret := ToIPv6Address(x.bytes);
    }
  }

  lemma SameGroups(s: Bytes16, t: Bytes16)
    requires Groups(s) == Groups(t)
    ensures s == t
  {
    forall i | 0 <= i < 16
      ensures s[i] == t[i]
    {
      assert Groups(s)[i / 2] == Groups(t)[i / 2];
      SameBytes(s, t, i / 2);
    }
  }

  lemma SameBytes(s: Bytes16, t: Bytes16, k: nat)
    requires k < 8 && Group(s, k) == Group(t, k)
    ensures s[2 * k] == t[2 * k] && s[2 * k + 1] == t[2 * k + 1]
  {
  }

  // Within a family, two addresses have the same text exactly when the bytes that count are the same.
  lemma TextTellsAddress(x: InetAddress, y: InetAddress, s: string, t: string)
    requires x.family == y.family && IsText(x, s) && IsText(y, t)
    ensures s == t <==> Significant(x) == Significant(y)
  {
    match x.family
    case IPAny =>
    case IPv4 =>
      if s == t {
        DecimalFieldsInjective(x.bytes[..4], y.bytes[..4]);
      }
    case IPv6 =>
      var a, b :| IsContracted(x.bytes, a, b, s);
      var c, d :| IsContracted(y.bytes, c, d, t);
      if s == t {
        assert Inner(Groups(x.bytes), a, b) == s[1..|s| - 1] == Inner(Groups(y.bytes), c, d);
        InnerInjective(Groups(x.bytes), a, b, Groups(y.bytes), c, d);
        SameGroups(x.bytes, y.bytes);
      }
      if x.bytes == y.bytes {
        BestIsUnique(Groups(x.bytes), a, b, c, d);
      }
  }

  // The program's comparison: by text, port and family.
  method Equal(x: InetAddress, y: InetAddress) returns (equal: bool)
    ensures equal <==> x.family == y.family && x.port == y.port && Significant(x) == Significant(y)
  {
    var s := Ip(x);
    var t := Ip(y);
    if x.family == y.family {
      TextTellsAddress(x, y, s, t);
    }
    return s == t && x.port == y.port && x.family == y.family;
  }
}
