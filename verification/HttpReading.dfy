/**
 What the parser makes of any one line of a message, said on the text of the line: printed or not, with any
 number of blanks, and ended by a line feed with or without a carriage return (section 3.2 of RFC 7230, as
 the program has it).
 */
module HttpReading {
  import opened HttpMessages
  import opened HttpParsing
  import opened HttpRoundTrip
  import opened Numerals
  import opened Results

  function Ending(returned: bool): string {
    if returned then CRLF else "\n"
  }

  // A line without its ending.  A carriage return at its end would belong to the ending.
  ghost predicate IsContent(content: string, returned: bool) {
    '\n' !in content && (!returned && content != "" ==> content[|content| - 1] != '\r')
  }

  // How long the parser takes the ends of lines to be, once it has seen this one.
  function EndAfter(p: Parser, returned: bool): nat {
    if returned then p.endLength else 1
  }

  // The parser when the line has gathered.
  function Ended(p: Parser, content: string, returned: bool): Parser
    requires Sound(p) && |content + Ending(returned)| <= MAX_LINE
  {
    var text := content + Ending(returned);
    p.(line := Written(p.line, 0, text), length := |text|, endLength := EndAfter(p, returned))
  }

  lemma EndedHolds(p: Parser, content: string, returned: bool)
    requires Sound(p) && |content + Ending(returned)| <= MAX_LINE
    ensures var q, text := Ended(p, content, returned), content + Ending(returned);
            && Sound(q) && Holds(q.line, 0, text) && q.length == |text|
            && Terminated(q.line, q.length, q.endLength)
  {
    var text := content + Ending(returned);
    assert text[|text| - 1] == '\n';
    assert returned ==> text[|text| - 2] == '\r';
  }

  // Any line that fits the buffer is handled when it ends; a longer one is refused.
  lemma AnyLine(p: Parser, content: string, returned: bool)
    requires Sound(p) && p.state != InBody && p.length == 0 && IsContent(content, returned)
    ensures var text := content + Ending(returned);
            if |text| > MAX_LINE then !Feed(p, text).ok
            else Terminated(Ended(p, content, returned).line, |text|, EndAfter(p, returned))
                 && Feed(p, text) == FinishLine(Ended(p, content, returned))
  {
    var most := content + if returned then ['\r'] else [];
    assert content + Ending(returned) == most + ['\n'];
    FeedPlain(p, most);
    FeedConcat(p, most, ['\n']);
    if |most| <= MAX_LINE {
      OneByte(Feed(p, most).parser, '\n');
      if |most| < MAX_LINE {
        EndedHolds(p, content, returned);
        EndStored(p, content, returned, most);
      }
    }
  }

  lemma EndStored(p: Parser, content: string, returned: bool, most: string)
    requires Sound(p) && |content + Ending(returned)| <= MAX_LINE && IsContent(content, returned)
    requires most == content + if returned then ['\r'] else []
    ensures Stored(p.(line := Written(p.line, 0, most), length := |most|), '\n') == Ended(p, content, returned)
  {
    var line := Written(p.line, 0, most);
    assert most != "" ==> line[|most| - 1] == most[|most| - 1];
    assert line[|most| := '\n'] == Written(p.line, 0, content + Ending(returned));
  }

  // ---------- Header lines ----------

  predicate AllBlank(s: string) {
    forall i | 0 <= i < |s| :: s[i] == ' ' || s[i] == '\t'
  }

  predicate StartsBlank(s: string) {
    s != "" && (s[0] == ' ' || s[0] == '\t')
  }

  // The header that a line is: its key, a colon, any number of blanks, and its value.
  predicate IsHeader(key: string, blanks: string, value: string) {
    ':' !in key && !StartsBlank(key) && AllBlank(blanks) && !StartsBlank(value)
  }

  function HeaderText(key: string, blanks: string, value: string): string {
    key + ":" + (blanks + value)
  }

  // A carriage return stays in the value once some line has ended without one.
  function Kept(value: string, endLength: nat, returned: bool): string {
    if returned && endLength == 1 then value + "\r" else value
  }

  // The second message has this header more than the first; `memory` is what follows the value's start.
  ghost predicate HasHeaderMore(m: Message, m': Message, key: string, value: string) {
    exists memory: string :: value <= memory && m' == WithHeader(m, key, value, memory)
  }

  // Where the parts of a header line are in the buffer.
  lemma WherePartsAre(line: seq<char>, key: string, blanks: string, value: string, ending: string)
    requires Holds(line, 0, HeaderText(key, blanks, value) + ending)
    ensures var k, b, v := |key|, |blanks|, |value|;
            && Holds(line, 0, key) && Holds(line, k, ":") && Holds(line, k + 1, blanks)
            && Holds(line, k + 1 + b, value) && Holds(line, k + 1 + b + v, ending)
  {
    HoldsConcat(line, 0, HeaderText(key, blanks, value), ending);
    HoldsConcat(line, 0, key + ":", blanks + value);
    HoldsConcat(line, 0, key, ":");
    HoldsConcat(line, |key| + 1, blanks, value);
  }

  lemma {:induction false} BlanksAreSkipped(line: seq<char>, cur: nat, at: nat, end: nat)
    requires cur <= at < end <= |line| && !IsBlank(line[at]) && forall i | cur <= i < at :: IsBlank(line[i])
    ensures SkipBlanks(line, cur, end) == at
    decreases at - cur
  {
    if cur < at {
      BlanksAreSkipped(line, cur + 1, at, end);
    }
  }

  lemma PlacesOfParts(line: seq<char>, end: nat, key: string, blanks: string, value: string, returned: bool)
    requires IsHeader(key, blanks, value) && Holds(line, 0, HeaderText(key, blanks, value) + Ending(returned))
    requires end == |HeaderText(key, blanks, value) + Ending(returned)|
    ensures HasHeader(line, end) && Colon(line, 0, end) == |key| && ValueAt(line, end) == |key| + 1 + |blanks|
  {
    var k, at := |key|, |key| + 1 + |blanks|;
    WherePartsAre(line, key, blanks, value, Ending(returned));
    assert line[k + 0] == ":"[0];
    LacksHere(line, 0, key, ':');
    ColonIsAt(line, 0, k, end);
    assert key != "" ==> line[0 + 0] == key[0];
    forall i | k + 1 <= i < at
      ensures IsBlank(line[i])
    {
      assert line[k + 1 + (i - k - 1)] == blanks[i - k - 1];
    }
    assert value != "" ==> line[at + 0] == value[0];
    assert line[at + |value| + 0] == Ending(returned)[0];
    BlanksAreSkipped(line, k + 1, at, end);
  }

  // The value runs to the end of the line, as long as the parser takes that to be.
  lemma ValueIsKept(line: seq<char>, at: nat, end: nat, value: string, endLength: nat, returned: bool)
    requires Holds(line, at, value) && Holds(line, at + |value|, Ending(returned)) && end == at + |value| + |Ending(returned)|
    requires 1 <= endLength <= 2 && (!returned ==> endLength == 1)
    ensures at <= end - endLength <= |line| && line[at..end - endLength] == Kept(value, endLength, returned)
  {
    HoldsSlice(line, at, value);
    assert returned ==> line[at + |value| + 0] == CRLF[0];
    if returned && endLength == 1 {
      assert line[at..end - 1] == line[at..at + |value|] + [line[at + |value|]];
    }
  }

  lemma HeaderIsCut(line: seq<char>, end: nat, endLength: nat, key: string, blanks: string, value: string, returned: bool,
                    m: Message)
    requires IsHeader(key, blanks, value) && Holds(line, 0, HeaderText(key, blanks, value) + Ending(returned))
    requires end == |HeaderText(key, blanks, value) + Ending(returned)| && Terminated(line, end, endLength)
    requires !returned ==> endLength == 1
    ensures AddHeader(line, end, endLength, m).Some?
    ensures HasHeaderMore(m, AddHeader(line, end, endLength, m).value, key, Kept(value, endLength, returned))
  {
    var at := |key| + 1 + |blanks|;
    PlacesOfParts(line, end, key, blanks, value, returned);
    WherePartsAre(line, key, blanks, value, Ending(returned));
    HoldsSlice(line, 0, key);
    ValueIsKept(line, at, end, value, endLength, returned);
    CutAt(line, end, endLength, |key|, at, key, Kept(value, endLength, returned), m);
  }

  lemma CutAt(line: seq<char>, end: nat, endLength: nat, colon: nat, at: nat, key: string, value: string, m: Message)
    requires Terminated(line, end, endLength) && HasHeader(line, end)
    requires Colon(line, 0, end) == colon && ValueAt(line, end) == at && at <= end - endLength
    requires line[..colon] == key && line[at..end - endLength] == value
    ensures AddHeader(line, end, endLength, m).Some?
    ensures HasHeaderMore(m, AddHeader(line, end, endLength, m).value, key, value)
  {
    assert line[at..end - endLength] <= line[at..];
  }

  predicate InHeadersNow(p: Parser) {
    p.state == InHeaders && p.length == 0
  }

  // Every header line that fits the buffer adds exactly its key and its value.
  lemma HeaderLineIsRead(p: Parser, key: string, blanks: string, value: string, returned: bool)
    requires Sound(p) && InHeadersNow(p) && IsHeader(key, blanks, value)
    requires IsContent(HeaderText(key, blanks, value), returned)
    requires |HeaderText(key, blanks, value) + Ending(returned)| <= MAX_LINE
    ensures var o, e := Feed(p, HeaderText(key, blanks, value) + Ending(returned)), EndAfter(p, returned);
            && o.ok && InHeadersNow(o.parser) && o.parser.endLength == e
            && HasHeaderMore(p.message, o.parser.message, key, Kept(value, e, returned))
  {
    var content := HeaderText(key, blanks, value);
    AnyLine(p, content, returned);
    EndedHolds(p, content, returned);
    var q := Ended(p, content, returned);
    HeaderIsCut(q.line, q.length, q.endLength, key, blanks, value, returned, q.message);
  }

  // A line that starts with a blank, or holds no colon, is refused; unless it is the empty line.
  predicate IsNoHeader(content: string) {
    StartsBlank(content) || ':' !in content
  }

  predicate EndsHeaders(p: Parser, content: string, returned: bool) {
    content == "" && (returned ==> p.endLength == 2)
  }

  lemma OtherLineIsRefused(p: Parser, content: string, returned: bool)
    requires Sound(p) && InHeadersNow(p) && IsContent(content, returned) && IsNoHeader(content)
    requires !EndsHeaders(p, content, returned)
    ensures !Feed(p, content + Ending(returned)).ok
  {
    AnyLine(p, content, returned);
    if |content + Ending(returned)| <= MAX_LINE {
      EndedHolds(p, content, returned);
      NothingToAdd(Ended(p, content, returned), content, returned);
    }
  }

  lemma NothingToAdd(q: Parser, content: string, returned: bool)
    requires Sound(q) && Holds(q.line, 0, content + Ending(returned)) && q.length == |content + Ending(returned)|
    requires Terminated(q.line, q.length, q.endLength) && q.state == InHeaders && IsNoHeader(content)
    requires q.length != q.endLength
    ensures !FinishLine(q).ok
  {
    var text := content + Ending(returned);
    assert text[0] == q.line[0 + 0];
    if ':' !in content {
      assert ':' !in text;
      LacksHere(q.line, 0, text, ':');
    }
  }

  // The empty line ends the headers.
  lemma EmptyLineEndsHeaders(p: Parser, returned: bool)
    requires Sound(p) && InHeadersNow(p) && EndsHeaders(p, "", returned)
    ensures var o := Feed(p, "" + Ending(returned));
            o.ok && o.parser.state == InBody && o.parser.message == p.message
  {
    AnyLine(p, "", returned);
  }

  // Every line is one of these: it ends the headers, is refused, or is a header.
  lemma EveryLineIsOne(content: string) returns (key: string, blanks: string, value: string)
    requires !IsNoHeader(content)
    ensures IsHeader(key, blanks, value) && content == HeaderText(key, blanks, value)
  {
    var k := Colon(content, 0, |content|);
    var at := SkipBlanks(content, k + 1, |content|);
    key, blanks, value := content[..k], content[k + 1..at], content[at..];
  }

  // ---------- First lines ----------

  // A method is known by its name alone.
  lemma MethodByName(name: string, m: Method)
    requires m != UnknownMethod
    ensures MethodNamed(name) == m <==> name == MethodName(m)
  {
  }

  // Of the versions spelled with digits, exactly three are known.
  lemma VersionByDigits(line: seq<char>, cur: nat, major: nat, minor: nat)
    requires major < 10 && minor < 10 && Peek(line, cur) == Digit(major) && Peek(line, cur + 2) == Digit(minor)
    ensures VersionAt(line, cur) ==
            if major == 1 && minor == 0 then Http10
            else if major == 1 && minor == 1 then Http11
            else if major == 2 && minor == 0 then Http20
            else UnknownVersion
  {
  }

  // The first blank ends the method and the next one the target, whatever follows.
  lemma RequestLineIsCut(line: seq<char>, end: nat, name: string, target: string, r: Request)
    requires Holds(line, 0, name) && Holds(line, |name|, " ")
    requires Holds(line, |name| + 1, target) && Holds(line, |name| + 1 + |target|, " ")
    requires ' ' !in name && ' ' !in target && |name| + 2 + |target| < end <= |line|
    ensures var (ok, r') := RequestLine(line, end, r);
            if MethodNamed(name) == UnknownMethod then !ok && r' == r
            else r'.verb == MethodNamed(name) && r'.uri == target
  {
    PartIsRead(line, 0, end, name);
    PartIsRead(line, |name| + 1, end, target);
  }

  // Without a blank there is no target, and the line is refused.
  lemma NoBlankIsRefused(line: seq<char>, end: nat, r: Request)
    requires 0 < end <= |line| && forall i | 0 <= i < end :: line[i] != ' '
    ensures RequestLine(line, end, r) == (false, r)
  {
    PassesAll(line, 0, end);
  }

  lemma {:induction false} PassesAll(line: seq<char>, cur: nat, end: nat)
    requires cur <= end <= |line| && forall i | cur <= i < end :: line[i] != ' '
    ensures SkipPast(line, cur, end, ' ') == end
    decreases end - cur
  {
    if cur < end {
      PassesAll(line, cur + 1, end);
    }
  }

  // One stray character before the version's prefix is passed over; two are not.
  lemma StrayIsSkipped(line: seq<char>, cur: nat, end: nat)
    requires cur + 7 <= end <= |line| && line[cur] != 'H'
    ensures Holds(line, cur + 1, "HTTP/") ==> ExpectAll(line, cur, end, "HTTP/") == Some(cur + 6)
    ensures line[cur + 1] != 'H' ==> ExpectAll(line, cur, end, "HTTP/") == None
  {
    if Holds(line, cur + 1, "HTTP/") {
      assert line[cur + 1 + 0] == "HTTP/"[0];
      AfterH(line, cur + 2, end);
    }
  }

  lemma AfterH(line: seq<char>, cur: nat, end: nat)
    requires 0 < cur && cur + 5 <= end <= |line| && Holds(line, cur - 1, "HTTP/")
    ensures "HTTP/"[1..] == "TTP/" && ExpectAll(line, cur, end, "TTP/") == Some(cur + 4)
  {
    assert line[cur - 1 + 1] == "HTTP/"[1] && line[cur - 1 + 2] == "HTTP/"[2];
    assert line[cur - 1 + 3] == "HTTP/"[3] && line[cur - 1 + 4] == "HTTP/"[4];
  }

  // A status line is accepted iff a code of three digits, the first not zero, stands between two blanks.
  lemma StatusLineByText(line: seq<char>, end: nat, version: Version, r: Response)
    requires version != UnknownVersion && 13 < end <= |line|
    requires Holds(line, 0, VersionName(version)) && line[8] == ' '
    ensures var (ok, r') := StatusLine(line, end, r);
            var digits := '1' <= line[9] <= '9' && '0' <= line[10] <= '9' && '0' <= line[11] <= '9';
            && (ok <==> digits && line[12] == ' ')
            && r'.version == version && r'.headers == r.headers && r'.body == r.body
            && (digits ==>
                  r'.status == (line[9] as int - '0' as int) * 100 + (line[10] as int - '0' as int) * 10 + line[11] as int - '0' as int)
            && (!digits ==> r'.status == r.status)
  {
    VersionIsRead(line, 0, end, version);
    assert Expect(line, 8, end, ' ') == Some(9);
  }

  // ---------- Numbers ----------

  // A number may follow white space and a sign.
  lemma {:induction false} NumberAfterSpaces(spaces: string, s: string)
    requires forall i | 0 <= i < |spaces| :: spaces[i] in " \t\n\r" || spaces[i] == 11 as char || spaces[i] == 12 as char
    ensures Number(spaces + s) == Number(s)
  {
    if spaces == "" {
      assert spaces + s == s;
    } else {
      assert (spaces + s)[1..] == spaces[1..] + s && IsSpace(spaces[0]);
      NumberAfterSpaces(spaces[1..], s);
    }
  }

  lemma NumberWithSign(n: nat, rest: string)
    requires rest == [] || !IsDigit(rest[0])
    ensures Number("-" + (Decimal(n) + rest)) + n == 0 && Number("+" + (Decimal(n) + rest)) == n
  {
    var digits := Decimal(n) + rest;
    DigitsConcat(Decimal(n), rest, 0);
    DigitsOfDecimal(n);
    assert ("-" + digits)[1..] == digits && ("+" + digits)[1..] == digits;
  }

  // Within 64 bits, only whole multiples of 2^32 are lost.
  lemma AtoiWraps(s: string)
    requires -0x8000_0000_0000_0000 <= Number(s) <= 0x7FFF_FFFF_FFFF_FFFF
    ensures (Number(s) - Atoi(s)) % 0x1_0000_0000 == 0
  {
  }

  // A key names the length if it starts with these letters, small ones, whatever follows.
  lemma KeysOfLength(key: string)
    ensures NamesContentLength(key) <==> exists rest :: key == "content-length" + rest
  {
    if NamesContentLength(key) {
      assert key == "content-length" + key[14..];
    }
  }

  // ---------- Printed texts ----------

  // A request with one header, and one with none whose length is generated.
  lemma RequestText(r: Request, h: Header)
    requires r.verb == Get && r.version == Http11 && r.headers == [h] && r.contentLength != UNSET
    ensures r.Print() == "GET " + r.uri + " " + "HTTP/1.1" + "\r\n" + (h.key + ": " + h.value + "\r\n") + "\r\n" + r.body
  {
    OneLine(h);
    assert r.PrintedHeaders() == [h];
    assert "GET" + " " == "GET ";
  }

  lemma RequestTextWithLength(r: Request)
    requires r.verb == Post && r.version == Http10 && r.headers == [] && r.contentLength == UNSET
    ensures r.Print() == "POST " + r.uri + " " + "HTTP/1.0" + "\r\n"
                         + ("content-length" + ": " + Decimal(|r.body|) + "\r\n") + "\r\n" + r.body
  {
    OneLine(Header(CONTENT_LENGTH, Decimal(|r.body|)));
    assert r.PrintedHeaders() == [Header(CONTENT_LENGTH, Decimal(|r.body|))];
    assert "POST" + " " == "POST ";
  }

  lemma OneLine(h: Header)
    ensures Lines(HeaderLines([h])) == h.key + ": " + h.value + CRLF
  {
  }

  // A response with one header, and a code of the table.
  lemma ResponseText(r: Response, h: Header)
    requires r.status == 404 && r.version == Http11 && r.headers == [h]
    ensures r.Print() == "HTTP/1.1" + " " + "404 Not Found" + "\r\n" + (h.key + ": " + h.value + "\r\n") + "\r\n" + r.body
  {
    OneLine(h);
    NotFound();
  }

  lemma NotFound()
    ensures StatusText(404) == "404 Not Found"
  {
    assert Code(404) == "404";
  }
}
