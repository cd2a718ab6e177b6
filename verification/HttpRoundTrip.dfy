/**
 The parser reads back what the printers print, however the text is cut into chunks, for exactly the
 messages without a delimiter inside a part and without a line longer than the parser's buffer
 (sections 3.1 and 3.2 of RFC 7230).
 */
module HttpRoundTrip {
  import opened HttpMessages
  import opened HttpParsing
  import opened Numerals
  import opened Results

  // ---------- Feeding one line ----------

  function Written(line: seq<char>, at: nat, s: string): seq<char>
    requires at + |s| <= |line|
  {
    line[..at] + s + line[at + |s|..]
  }

  // Bytes that end no line gather in the buffer, and are refused when it is full.
  lemma {:induction false} FeedPlain(p: Parser, s: string)
    requires Sound(p) && p.state != InBody && '\n' !in s
    ensures Feed(p, s).ok <==> p.length + |s| <= MAX_LINE
    ensures p.length + |s| <= MAX_LINE ==>
              Feed(p, s).parser == p.(line := Written(p.line, p.length, s), length := p.length + |s|)
    decreases |s|
  {
    if s == "" {
      assert Written(p.line, p.length, s) == p.line;
    } else if p.length < MAX_LINE {
      assert s[0] in s;
      var next := Stored(p, s[0]);
      FeedPlain(next, s[1..]);
      if p.length + |s| <= MAX_LINE {
        assert Written(next.line, next.length, s[1..]) == Written(p.line, p.length, s);
      }
    }
  }

  // The text is in the line, from this place on.
  predicate Holds(line: seq<char>, at: nat, text: string) {
    at + |text| <= |line| && forall i | 0 <= i < |text| :: line[at + i] == text[i]
  }

  lemma HoldsConcat(line: seq<char>, at: nat, s: string, t: string)
    ensures Holds(line, at, s + t) <==> Holds(line, at, s) && Holds(line, at + |s|, t)
  {
    if Holds(line, at, s + t) {
      forall i | 0 <= i < |s|
        ensures line[at + i] == s[i]
      {
        assert (s + t)[i] == s[i];
      }
      forall i | 0 <= i < |t|
        ensures line[at + |s| + i] == t[i]
      {
        assert (s + t)[|s| + i] == t[i] && line[at + (|s| + i)] == t[i];
      }
    }
  }

  lemma HoldsSlice(line: seq<char>, at: nat, text: string)
    requires Holds(line, at, text)
    ensures line[at..at + |text|] == text
  {
  }

  // The parser when a line has gathered, with its end.
  function Gathered(p: Parser, text: string): (q: Parser)
    requires Sound(p) && |text| + 2 <= MAX_LINE && p.endLength == 2
    ensures Sound(q) && Holds(q.line, 0, text + CRLF) && q.length == |text| + 2
    ensures Terminated(q.line, q.length, q.endLength)
  {
    var line := Written(p.line, 0, text + CRLF);
    assert (text + CRLF)[|text|] == '\r' && (text + CRLF)[|text| + 1] == '\n';
    p.(line := line, length := |text| + 2)
  }

  predicate AtLineStart(p: Parser) {
    p.state != InBody && p.length == 0 && p.endLength == 2
  }

  // A printed line is handled when its end comes, if it fits the buffer, and refused if not.
  lemma FeedLine(p: Parser, text: string)
    requires Sound(p) && AtLineStart(p) && '\n' !in text
    ensures |text| + 2 > MAX_LINE ==> !Feed(p, text + CRLF).ok
    ensures |text| + 2 <= MAX_LINE ==> Feed(p, text + CRLF) == FinishLine(Gathered(p, text))
  {
    var most := text + ['\r'];
    assert text + CRLF == most + ['\n'];
    FeedPlain(p, most);
    FeedConcat(p, most, ['\n']);
    if |most| <= MAX_LINE {
      var q := Feed(p, most).parser;
      OneByte(q, '\n');
      if |most| < MAX_LINE {
        StoreEnd(p, text);
      }
    }
  }

  lemma StoreEnd(p: Parser, text: string)
    requires Sound(p) && AtLineStart(p) && |text| + 2 <= MAX_LINE
    ensures var most := text + ['\r'];
            Stored(p.(line := Written(p.line, 0, most), length := |most|), '\n') == Gathered(p, text)
  {
  }

  // ---------- Reading one line ----------

  lemma {:induction false} ColonIsAt(line: seq<char>, cur: nat, at: nat, end: nat)
    requires cur <= at < end <= |line| && line[at] == ':' && forall i | cur <= i < at :: line[i] != ':'
    ensures Colon(line, cur, end) == at
    decreases at - cur
  {
  }

  lemma {:induction false} SkipPastIsAt(line: seq<char>, cur: nat, at: nat, end: nat)
    requires cur <= at < end <= |line| && line[at] == ' ' && forall i | cur <= i < at :: line[i] != ' '
    ensures SkipPast(line, cur, end, ' ') == at + 1
    decreases at - cur
  {
    if cur < at {
      SkipPastIsAt(line, cur + 1, at, end);
    }
  }

  lemma LacksHere(line: seq<char>, at: nat, text: string, c: char)
    requires Holds(line, at, text) && c !in text
    ensures forall i | at <= i < at + |text| :: line[i] != c
  {
    forall i | at <= i < at + |text|
      ensures line[i] != c
    {
      assert line[at + (i - at)] == text[i - at];
    }
  }

  // Where the parts of a header line are.
  lemma HeaderParts(line: seq<char>, h: Header)
    requires Holds(line, 0, HeaderLine(h) + CRLF)
    ensures var k := |h.key|;
            && Holds(line, 0, h.key) && Holds(line, k, ": ") && Holds(line, k + 2, h.value)
            && Holds(line, k + 2 + |h.value|, CRLF)
  {
    HoldsConcat(line, 0, HeaderLine(h), CRLF);
    HoldsConcat(line, 0, h.key + ": ", h.value);
    HoldsConcat(line, 0, h.key, ": ");
  }

  lemma HeaderPlaces(line: seq<char>, end: nat, h: Header)
    requires Holds(line, 0, HeaderLine(h) + CRLF) && end == |HeaderLine(h)| + 2 && CleanHeader(h)
    ensures Terminated(line, end, 2) && HasHeader(line, end)
    ensures Colon(line, 0, end) == |h.key| && ValueAt(line, end) == |h.key| + 2
  {
    var k := |h.key|;
    HeaderParts(line, h);
    assert line[k + 0] == ": "[0] && line[k + 1] == ": "[1];
    assert line[end - 2 + 0] == CRLF[0] && line[end - 2 + 1] == CRLF[1];
    LacksHere(line, 0, h.key, ':');
    ColonIsAt(line, 0, k, end);
    assert h.key != "" ==> line[0 + 0] == h.key[0];
    assert h.value != "" ==> line[k + 2 + 0] == h.value[0];
    assert SkipBlanks(line, k + 1, end) == SkipBlanks(line, k + 2, end) == k + 2;
  }

  // A printed header is read back whole.
  lemma HeaderIsRead(line: seq<char>, end: nat, h: Header, m: Message)
    requires Holds(line, 0, HeaderLine(h) + CRLF) && end == |HeaderLine(h)| + 2 && CleanHeader(h)
    ensures Terminated(line, end, 2)
    ensures AddHeader(line, end, 2, m) == Some(WithHeader(m, h.key, h.value, line[|h.key| + 2..]))
  {
    HeaderPlaces(line, end, h);
    HeaderParts(line, h);
    HoldsSlice(line, 0, h.key);
    HoldsSlice(line, |h.key| + 2, h.value);
  }

  lemma PrefixIsRead(line: seq<char>, cur: nat, end: nat)
    requires Holds(line, cur, "HTTP/") && cur + 5 <= end
    ensures ExpectAll(line, cur, end, "HTTP/") == Some(cur + 5)
  {
  }

  lemma VersionIsRead(line: seq<char>, cur: nat, end: nat, v: Version)
    requires v != UnknownVersion && Holds(line, cur, VersionName(v)) && cur + 8 <= end
    ensures ExpectAll(line, cur, end, "HTTP/") == Some(cur + 5) && VersionAt(line, cur + 5) == v
  {
    var name := VersionName(v);
    assert name == "HTTP/" + name[5..];
    HoldsConcat(line, cur, "HTTP/", name[5..]);
    PrefixIsRead(line, cur, end);
    assert line[cur + 5] == name[5] && line[cur + 7] == name[7];
  }

  lemma MethodIsRead(m: Method)
    requires m != UnknownMethod
    ensures MethodNamed(MethodName(m)) == m && ' ' !in MethodName(m) && '\n' !in MethodName(m)
  {
  }

  lemma RequestParts(line: seq<char>, r: Request)
    requires r.Known() && Holds(line, 0, r.FirstLine() + CRLF)
    ensures var n, u := |MethodName(r.verb)|, |r.uri|;
            && Holds(line, 0, MethodName(r.verb)) && Holds(line, n, " ") && Holds(line, n + 1, r.uri)
            && Holds(line, n + 1 + u, " ") && Holds(line, n + 2 + u, VersionName(r.version))
            && |r.FirstLine()| == n + 2 + u + 8
  {
    var name, version := MethodName(r.verb), VersionName(r.version);
    HoldsConcat(line, 0, r.FirstLine(), CRLF);
    HoldsConcat(line, 0, name + " " + r.uri + " ", version);
    HoldsConcat(line, 0, name + " " + r.uri, " ");
    HoldsConcat(line, 0, name + " ", r.uri);
    HoldsConcat(line, 0, name, " ");
  }

  // A part and the blank after it.
  lemma PartIsRead(line: seq<char>, at: nat, end: nat, part: string)
    requires Holds(line, at, part) && Holds(line, at + |part|, " ") && ' ' !in part && at + |part| < end <= |line|
    ensures SkipPast(line, at, end, ' ') == at + |part| + 1 && line[at..at + |part|] == part
  {
    assert line[at + |part| + 0] == " "[0];
    LacksHere(line, at, part, ' ');
    SkipPastIsAt(line, at, at + |part|, end);
  }

  lemma RequestTargetIsRead(line: seq<char>, at: nat, end: nat, r: Request, r0: Request)
    requires r.Known() && Holds(line, at, r.uri) && Holds(line, at + |r.uri|, " ") && ' ' !in r.uri
    requires Holds(line, at + |r.uri| + 1, VersionName(r.version)) && at + |r.uri| + 9 < end <= |line|
    ensures RequestTarget(line, at, end, r0) == (true, r0.(uri := r.uri, version := r.version))
  {
    PartIsRead(line, at, end, r.uri);
    VersionIsRead(line, at + |r.uri| + 1, end, r.version);
  }

  lemma RequestLineIsRead(line: seq<char>, end: nat, r: Request, r0: Request)
    requires r.Known() && Holds(line, 0, r.FirstLine() + CRLF) && end == |r.FirstLine()| + 2 && ' ' !in r.uri
    ensures RequestLine(line, end, r0) == (true, r0.(verb := r.verb, uri := r.uri, version := r.version))
  {
    RequestParts(line, r);
    MethodIsRead(r.verb);
    PartIsRead(line, 0, end, MethodName(r.verb));
    RequestTargetIsRead(line, |MethodName(r.verb)| + 1, end, r, r0.(verb := r.verb));
  }

  lemma StatusParts(line: seq<char>, r: Response)
    requires r.Known() && Holds(line, 0, r.FirstLine() + CRLF)
    ensures Holds(line, 0, VersionName(r.version)) && Holds(line, 8, " ") && Holds(line, 9, StatusText(r.status))
    ensures |VersionName(r.version)| == 8
  {
    HoldsConcat(line, 0, r.FirstLine(), CRLF);
    HoldsConcat(line, 0, VersionName(r.version) + " ", StatusText(r.status));
    HoldsConcat(line, 0, VersionName(r.version), " ");
  }

  lemma StatusLineIsRead(line: seq<char>, end: nat, r: Response, r0: Response)
    requires r.Known() && Holds(line, 0, r.FirstLine() + CRLF) && end == |r.FirstLine()| + 2
    ensures StatusLine(line, end, r0) == (true, r0.(status := r.status, version := r.version))
  {
    StatusTextSpells(r.status);
    StatusParts(line, r);
    StatusIsSpelled(line, end, r.version, StatusText(r.status), r.status, r0);
  }

  lemma StatusIsSpelled(line: seq<char>, end: nat, version: Version, text: string, status: int, r0: Response)
    requires version != UnknownVersion && SpellsStatus(text, status) && 9 + |text| < end
    requires Holds(line, 0, VersionName(version)) && Holds(line, 8, " ") && Holds(line, 9, text)
    ensures StatusLine(line, end, r0) == (true, r0.(status := status, version := version))
  {
    VersionIsRead(line, 0, end, version);
    CodeIsRead(line, 9, end, text, status);
    assert line[8 + 0] == " "[0];
    assert Expect(line, 8, end, ' ') == Some(9);
  }

  lemma CodeIsRead(line: seq<char>, at: nat, end: nat, text: string, status: int)
    requires SpellsStatus(text, status) && Holds(line, at, text) && at + |text| < end
    ensures StatusAt(line, at, end) && Peek(line, at + 3) == ' '
    ensures DigitValue(Peek(line, at)) * 100 + DigitValue(Peek(line, at + 1)) * 10 + DigitValue(Peek(line, at + 2)) == status
  {
    assert line[at + 0] == text[0] && line[at + 1] == text[1] && line[at + 2] == text[2] && line[at + 3] == text[3];
    Digits3(status);
  }

  // Three digits are a number below a thousand.
  lemma Digits3(n: int)
    requires 100 <= n < 1000
    ensures n / 100 * 100 + n / 10 % 10 * 10 + n % 10 == n && 1 <= n / 100 < 10
  {
    var tens := n / 10;
    assert tens / 10 == n / 100;
    assert tens == tens / 10 * 10 + tens % 10;
  }

  // ---------- Feeding headers and body ----------

  predicate Fits(text: string) {
    |text| + 2 <= MAX_LINE
  }

  // The second message is the first with some headers added, and perhaps a length set.
  ghost predicate HeadersAdded(m: Message, m': Message, headers: seq<Header>) {
    match m
    case Req(r) => m'.Req? && m'.request == r.(headers := r.headers + headers, contentLength := m'.request.contentLength)
    case Res(r) => m' == Res(r.(headers := r.headers + headers))
  }

  predicate InHeadersAtStart(p: Parser) {
    AtLineStart(p) && p.state == InHeaders
  }

  lemma FeedHeader(p: Parser, h: Header)
    requires Sound(p) && InHeadersAtStart(p) && CleanHeader(h)
    ensures var o := Feed(p, HeaderLine(h) + CRLF);
            && (o.ok <==> Fits(HeaderLine(h)))
            && (o.ok ==>
                  && InHeadersAtStart(o.parser)
                  && o.parser.message == WithHeader(p.message, h.key, h.value,
                                                    Gathered(p, HeaderLine(h)).line[|h.key| + 2..]))
  {
    var text := HeaderLine(h);
    assert '\n' !in text;
    FeedLine(p, text);
    if Fits(text) {
      var q := Gathered(p, text);
      HeaderIsRead(q.line, q.length, h, q.message);
      assert |text| > 0;
    }
  }

  // Headers without a length in them leave the length of a request alone.
  predicate NamesNoLength(headers: seq<Header>) {
    forall i | 0 <= i < |headers| :: !NamesContentLength(headers[i].key)
  }

  ghost predicate SameLength(m: Message, m': Message) {
    m.Req? ==> m'.Req? && m'.request.contentLength == m.request.contentLength
  }

  lemma FeedFirstHeader(p: Parser, headers: seq<Header>)
    requires Sound(p) && headers != []
    ensures var o := Feed(p, HeaderLine(headers[0]) + CRLF);
            Feed(p, Lines(HeaderLines(headers))) == if o.ok then Feed(o.parser, Lines(HeaderLines(headers[1..]))) else o
  {
    assert HeaderLines(headers)[1..] == HeaderLines(headers[1..]);
    FeedConcat(p, HeaderLine(headers[0]) + CRLF, Lines(HeaderLines(headers[1..])));
  }

  predicate AllFit(headers: seq<Header>) {
    forall i | 0 <= i < |headers| :: Fits(HeaderLine(headers[i]))
  }

  lemma AllFitFirst(headers: seq<Header>)
    requires headers != []
    ensures AllFit(headers) <==> Fits(HeaderLine(headers[0])) && AllFit(headers[1..])
    ensures NamesNoLength(headers) <==> !NamesContentLength(headers[0].key) && NamesNoLength(headers[1..])
    ensures CleanHeaders(headers) ==> CleanHeader(headers[0]) && CleanHeaders(headers[1..])
  {
  }

  // What comes of reading these headers: they are read if each fits the buffer, and refused if not.
  ghost predicate HeadersRead(p: Parser, headers: seq<Header>, o: Outcome) {
    && (o.ok <==> AllFit(headers))
    && (o.ok ==> InHeadersAtStart(o.parser) && HeadersAdded(p.message, o.parser.message, headers))
    && (o.ok && (NamesNoLength(headers) || HasLength(p.message)) ==> SameLength(p.message, o.parser.message))
  }

  // The first length that is set stays.
  predicate HasLength(m: Message) {
    m.Req? && m.request.contentLength != UNSET
  }

  lemma OneMoreHeader(p: Parser, headers: seq<Header>, text: string, q: Parser, o: Outcome)
    requires headers != [] && Fits(HeaderLine(headers[0]))
    requires q.message == WithHeader(p.message, headers[0].key, headers[0].value, text)
    requires HeadersRead(q, headers[1..], o)
    ensures HeadersRead(p, headers, o)
  {
  }

  // Printed headers are read in order.
  lemma {:induction false} FeedHeaders(p: Parser, headers: seq<Header>)
    requires Sound(p) && InHeadersAtStart(p) && CleanHeaders(headers)
    ensures HeadersRead(p, headers, Feed(p, Lines(HeaderLines(headers))))
    decreases |headers|
  {
    if headers != [] {
      var h, rest := headers[0], headers[1..];
      var text := HeaderLine(h) + CRLF;
      AllFitFirst(headers);
      FeedHeader(p, h);
      FeedFirstHeader(p, headers);
      var q := Feed(p, text).parser;
      if Fits(HeaderLine(h)) {
        FeedHeaders(q, rest);
        OneMoreHeader(p, headers, Gathered(p, HeaderLine(h)).line[|h.key| + 2..], q, Feed(q, Lines(HeaderLines(rest))));
      }
    }
  }

  function WithBody(m: Message, body: string): Message {
    match m
    case Req(r) => Req(r.(body := r.body + body))
    case Res(r) => Res(r.(body := r.body + body))
  }

  lemma BodyGrows(m: Message, body: string)
    requires body != ""
    ensures WithBody(AppendBody(m, body[0]), body[1..]) == WithBody(m, body)
  {
  }

  lemma {:induction false} FeedBody(p: Parser, body: string)
    requires Sound(p) && p.state == InBody
    ensures Feed(p, body) == Outcome(true, p.(message := WithBody(p.message, body)))
    decreases |body|
  {
    if body == "" {
      assert WithBody(p.message, body) == p.message;
    } else {
      var next := p.(message := AppendBody(p.message, body[0]));
      FeedBody(next, body[1..]);
      BodyGrows(p.message, body);
    }
  }

  lemma FeedEnd(p: Parser, body: string)
    requires Sound(p) && InHeadersAtStart(p)
    ensures var o := Feed(p, CRLF + body);
            o.ok && o.parser.state == InBody && o.parser.message == WithBody(p.message, body)
  {
    FeedLine(p, "");
    assert "" + CRLF == CRLF;
    FeedConcat(p, CRLF, body);
    FeedBody(Feed(p, CRLF).parser, body);
  }

  // ---------- Feeding a message ----------

  predicate AtStart(p: Parser) {
    AtLineStart(p) && p.state == InFirstLine
  }

  lemma FeedFirstLine(p: Parser, first: string, m: Message)
    requires Sound(p) && AtStart(p) && '\n' !in first
    requires Fits(first) ==> FirstLine(Gathered(p, first).line, |first| + 2, p.message) == (true, m)
    ensures var o := Feed(p, first + CRLF);
            && (o.ok <==> Fits(first))
            && (o.ok ==> InHeadersAtStart(o.parser) && o.parser.message == m)
  {
    FeedLine(p, first);
  }

  function FeedRest(p: Parser, lines: string, body: string): Outcome
    requires Sound(p)
  {
    var o := Feed(p, lines);
    if o.ok then Feed(o.parser, CRLF + body) else o
  }

  lemma FeedParts(p: Parser, first: string, lines: string, body: string)
    requires Sound(p)
    ensures var o := Feed(p, first + CRLF);
            Feed(p, first + CRLF + lines + CRLF + body) == if !o.ok then o else FeedRest(o.parser, lines, body)
  {
    assert first + CRLF + lines + CRLF + body == first + CRLF + (lines + (CRLF + body));
    FeedConcat(p, first + CRLF, lines + (CRLF + body));
    var o := Feed(p, first + CRLF);
    if o.ok {
      FeedConcat(o.parser, lines, CRLF + body);
    }
  }

  // A printed message without delimiters inside its parts is read to its end if every line fits the
  // buffer, and refused if not.
  // The first line is accepted and gives the message m.
  ghost predicate Begins(p: Parser, first: string, m: Message)
    requires Sound(p) && AtStart(p)
  {
    '\n' !in first && Fits(first) && FirstLine(Gathered(p, first).line, |first| + 2, p.message) == (true, m)
  }

  lemma FeedMessage(p: Parser, first: string, m: Message, headers: seq<Header>, body: string)
    requires Sound(p) && AtStart(p) && '\n' !in first && CleanHeaders(headers)
    requires Fits(first) ==> FirstLine(Gathered(p, first).line, |first| + 2, p.message) == (true, m)
    ensures var o := Feed(p, first + CRLF + Lines(HeaderLines(headers)) + CRLF + body);
            && (o.ok <==> Fits(first) && AllFit(headers))
            && (o.ok ==> o.parser.state == InBody && HeadersAdded(WithBody(m, body), o.parser.message, headers))
            && (o.ok && NamesNoLength(headers) ==> SameLength(m, o.parser.message))
  {
    FeedParts(p, first, Lines(HeaderLines(headers)), body);
    FeedFirstLine(p, first, m);
    var o := Feed(p, first + CRLF);
    if o.ok {
      FeedHeaders(o.parser, headers);
      var o' := Feed(o.parser, Lines(HeaderLines(headers)));
      if o'.ok {
        FeedEnd(o'.parser, body);
      }
    }
  }

  // ---------- Requests ----------

  const NEW_REQUEST := Request(UnknownMethod, "", Http11, [], UNSET, "")

  ghost predicate ForRequest(p: Parser) {
    Sound(p) && AtStart(p) && p.message == Req(NEW_REQUEST)
  }

  // The message that was read says what the request says.
  predicate Says(m: Message, r: Request) {
    && m.Req? && m.request.verb == r.verb && m.request.uri == r.uri && m.request.version == r.version
    && m.request.headers == r.PrintedHeaders() && m.request.body == r.body
  }

  // No delimiter inside a part, and no line longer than the parser's buffer.
  ghost predicate Readable(r: Request)
    requires r.Known()
  {
    && ' ' !in r.uri && '\n' !in r.uri && Fits(r.FirstLine())
    && CleanHeaders(r.PrintedHeaders()) && AllFit(r.PrintedHeaders())
  }

  function Started(r: Request): Message {
    Req(NEW_REQUEST.(verb := r.verb, uri := r.uri, version := r.version))
  }

  lemma FirstLineIsRead(p: Parser, r: Request)
    requires ForRequest(p) && r.Known() && ' ' !in r.uri && '\n' !in r.uri
    ensures '\n' !in r.FirstLine()
    ensures var first := r.FirstLine();
            Fits(first) ==> FirstLine(Gathered(p, first).line, |first| + 2, p.message) == (true, Started(r))
  {
    var first := r.FirstLine();
    MethodIsRead(r.verb);
    if Fits(first) {
      var q := Gathered(p, first);
      RequestLineIsRead(q.line, q.length, r, NEW_REQUEST);
    }
  }

  lemma StartedSays(r: Request, m: Message)
    requires HeadersAdded(WithBody(Started(r), r.body), m, r.PrintedHeaders())
    ensures Says(m, r)
  {
  }

  lemma FeedCleanRequest(p: Parser, r: Request)
    requires ForRequest(p) && r.Known() && ' ' !in r.uri && '\n' !in r.uri && CleanHeaders(r.PrintedHeaders())
    ensures var o := Feed(p, r.Print());
            && (o.ok <==> Readable(r))
            && (o.ok ==> o.parser.state == InBody && Says(o.parser.message, r))
  {
    FirstLineIsRead(p, r);
    FeedMessage(p, r.FirstLine(), Started(r), r.PrintedHeaders(), r.body);
    var o := Feed(p, r.Print());
    if o.ok {
      StartedSays(r, o.parser.message);
    }
  }

  // Reading undoes printing for exactly the readable requests.
  lemma RequestRoundTrip(p: Parser, r: Request)
    requires ForRequest(p) && r.Known()
    ensures var o := Feed(p, r.Print());
            o.ok && o.parser.state == InBody && Says(o.parser.message, r) <==> Readable(r)
  {
    var o := Feed(p, r.Print());
    if o.ok && Says(o.parser.message, r) {
      StreamsStayClean(p, r.Print());
    }
    if ' ' !in r.uri && '\n' !in r.uri && CleanHeaders(r.PrintedHeaders()) {
      FeedCleanRequest(p, r);
    }
  }

  // The same in any cut into chunks.
  lemma RequestRoundTripInChunks(p: Parser, r: Request, chunks: seq<string>)
    requires ForRequest(p) && r.Known() && Flatten(chunks) == r.Print()
    ensures var o := FeedChunks(p, chunks);
            o.ok && o.parser.state == InBody && Says(o.parser.message, r) <==> Readable(r)
  {
    ChunksDoNotMatter(p, chunks);
    RequestRoundTrip(p, r);
  }

  // The length of a parsed request is that of the first header whose key starts with content-length.
  lemma FirstLengthIsRead(p: Parser, r: Request, before: seq<Header>, h: Header, after: seq<Header>, n: nat)
    requires ForRequest(p) && r.Known() && Readable(r) && r.PrintedHeaders() == before + [h] + after
    requires NamesNoLength(before) && NamesContentLength(h.key) && h.value == Decimal(n) && n <= INT_MAX
    ensures Feed(p, r.Print()).parser.message.Req?
    ensures Feed(p, r.Print()).parser.message.request.contentLength == n
  {
    FirstLineIsRead(p, r);
    LengthOfMessage(p, r.FirstLine(), Started(r), r.PrintedHeaders(), before, h, after, r.body, n);
  }

  lemma LengthOfMessage(p: Parser, first: string, m: Message, headers: seq<Header>,
                        before: seq<Header>, h: Header, after: seq<Header>, body: string, n: nat)
    requires Sound(p) && AtStart(p) && Begins(p, first, m) && m.Req? && m.request.contentLength == UNSET
    requires headers == before + [h] + after && CleanHeaders(headers) && AllFit(headers)
    requires NamesNoLength(before) && NamesContentLength(h.key) && h.value == Decimal(n) && n <= INT_MAX
    ensures var o := Feed(p, first + CRLF + Lines(HeaderLines(headers)) + CRLF + body);
            o.parser.message.Req? && o.parser.message.request.contentLength == n
  {
    FeedFirstLine(p, first, m);
    var q := Feed(p, first + CRLF).parser;
    FeedLengthFirst(q, before, h, after, n);
    FeedEnd(Feed(q, Lines(HeaderLines(headers))).parser, body);
    FeedParts(p, first, Lines(HeaderLines(headers)), body);
  }

  // A length that was generated is read back as the length of the body.
  lemma GeneratedLengthIsRead(p: Parser, r: Request)
    requires ForRequest(p) && r.Known() && Readable(r)
    requires r.contentLength == UNSET && NamesNoLength(r.headers) && |r.body| <= INT_MAX
    ensures Feed(p, r.Print()).parser.message.Req?
    ensures Feed(p, r.Print()).parser.message.request.contentLength == |r.body|
  {
    var h := Header(CONTENT_LENGTH, Decimal(|r.body|));
    assert r.PrintedHeaders() == r.headers + [h] + [];
    FirstLengthIsRead(p, r, r.headers, h, [], |r.body|);
  }

  lemma FeedLengthFirst(p: Parser, before: seq<Header>, h: Header, after: seq<Header>, n: nat)
    requires Sound(p) && InHeadersAtStart(p) && p.message.Req? && p.message.request.contentLength == UNSET
    requires CleanHeaders(before + [h] + after) && AllFit(before + [h] + after) && NamesNoLength(before)
    requires NamesContentLength(h.key) && h.value == Decimal(n) && n <= INT_MAX
    ensures var o := Feed(p, Lines(HeaderLines(before + [h] + after)));
            o.ok && InHeadersAtStart(o.parser) && o.parser.message.Req? && o.parser.message.request.contentLength == n
  {
    CleanBothSides(before + [h], after);
    FeedLengthLast(p, before, h, n);
    var q := Feed(p, Lines(HeaderLines(before + [h]))).parser;
    FeedHeaders(q, after);
    LinesTogether(before + [h], after);
    FeedConcat(p, Lines(HeaderLines(before + [h])), Lines(HeaderLines(after)));
  }

  lemma CleanBothSides(a: seq<Header>, b: seq<Header>)
    requires CleanHeaders(a + b) && AllFit(a + b)
    ensures CleanHeaders(a) && AllFit(a) && CleanHeaders(b) && AllFit(b)
  {
    forall i | 0 <= i < |a|
      ensures CleanHeader(a[i]) && Fits(HeaderLine(a[i]))
    {
      assert a[i] == (a + b)[i];
    }
    forall i | 0 <= i < |b|
      ensures CleanHeader(b[i]) && Fits(HeaderLine(b[i]))
    {
      assert b[i] == (a + b)[|a| + i];
    }
  }

  lemma LinesTogether(a: seq<Header>, b: seq<Header>)
    ensures Lines(HeaderLines(a + b)) == Lines(HeaderLines(a)) + Lines(HeaderLines(b))
  {
    LinesConcat(HeaderLines(a), HeaderLines(b));
    assert HeaderLines(a + b) == HeaderLines(a) + HeaderLines(b);
  }

  lemma FeedLengthLast(p: Parser, headers: seq<Header>, h: Header, n: nat)
    requires Sound(p) && InHeadersAtStart(p) && p.message.Req? && p.message.request.contentLength == UNSET
    requires CleanHeaders(headers + [h]) && AllFit(headers + [h]) && NamesNoLength(headers)
    requires NamesContentLength(h.key) && h.value == Decimal(n) && n <= INT_MAX
    ensures var o := Feed(p, Lines(HeaderLines(headers + [h])));
            o.ok && InHeadersAtStart(o.parser) && o.parser.message.Req? && o.parser.message.request.contentLength == n
  {
    CleanToLast(headers, h);
    FeedHeaders(p, headers);
    var q := Feed(p, Lines(HeaderLines(headers))).parser;
    FeedLength(q, h, n);
    LinesToLast(headers, h);
    FeedConcat(p, Lines(HeaderLines(headers)), HeaderLine(h) + CRLF);
  }

  lemma CleanToLast(headers: seq<Header>, h: Header)
    requires CleanHeaders(headers + [h]) && AllFit(headers + [h])
    ensures CleanHeaders(headers) && AllFit(headers) && CleanHeader(h) && Fits(HeaderLine(h))
  {
    forall i | 0 <= i < |headers|
      ensures CleanHeader(headers[i]) && Fits(HeaderLine(headers[i]))
    {
      assert headers[i] == (headers + [h])[i];
    }
    assert (headers + [h])[|headers|] == h;
  }

  lemma LinesToLast(headers: seq<Header>, h: Header)
    ensures Lines(HeaderLines(headers + [h])) == Lines(HeaderLines(headers)) + (HeaderLine(h) + CRLF)
  {
    LinesTogether(headers, [h]);
    assert Lines(HeaderLines([h])) == HeaderLine(h) + CRLF;
  }

  lemma FeedLength(q: Parser, h: Header, n: nat)
    requires Sound(q) && InHeadersAtStart(q) && q.message.Req? && q.message.request.contentLength == UNSET
    requires NamesContentLength(h.key) && h.value == Decimal(n) && n <= INT_MAX && CleanHeader(h) && Fits(HeaderLine(h))
    ensures var o := Feed(q, HeaderLine(h) + CRLF);
            o.ok && InHeadersAtStart(o.parser) && o.parser.message.Req? && o.parser.message.request.contentLength == n
  {
    FeedHeader(q, h);
    LengthIsRead(Gathered(q, HeaderLine(h)).line, h, n);
  }

  lemma LengthIsRead(line: seq<char>, h: Header, n: nat)
    requires Holds(line, 0, HeaderLine(h) + CRLF) && h.value == Decimal(n) && n <= INT_MAX
    ensures ToLength(Atoi(line[|h.key| + 2..])) == n
  {
    var at, k := |h.key| + 2, |h.value|;
    HeaderParts(line, h);
    HoldsSlice(line, at, h.value);
    var text, rest := line[at..], line[at + k..];
    assert text == h.value + rest;
    assert rest[0] == line[at + k + 0] == CRLF[0];
    NumberOfDecimal(n, rest);
  }

  // ---------- Where the body starts ----------

  // The text is accepted and leaves the parser as q.
  ghost predicate Fed(p: Parser, text: string, q: Parser)
    requires Sound(p)
  {
    Feed(p, text).ok && q == Feed(p, text).parser
  }

  lemma {:induction false} BodyStartConcat(
      p: Parser, a: string, b: string, at: nat, mid: nat, place: Option<nat>, q: Parser)
    requires Sound(p) && Fed(p, a, q) && mid == at + |a|
    ensures BodyStart(p, a + b, at, place) == BodyStart(q, b, mid, BodyStart(p, a, at, place))
    decreases |a|
  {
    if a == "" {
      assert a + b == b;
    } else {
      var o := AddByte(p, a[0]);
      assert (a + b)[0] == a[0] && (a + b)[1..] == a[1..] + b;
      BodyStartConcat(o.parser, a[1..], b, at + 1, mid, if Enters(p, o.parser) then Some(at + 1) else place, q);
    }
  }

  // The place is not touched by a text that starts in the body or does not reach it.
  lemma {:induction false} BodyStartElsewhere(p: Parser, a: string, at: nat, place: Option<nat>)
    requires Sound(p) && Feed(p, a).ok && (p.state == InBody || Feed(p, a).parser.state != InBody)
    ensures BodyStart(p, a, at, place) == place
    decreases |a|
  {
    if a != "" {
      var o := AddByte(p, a[0]);
      if o.parser.state == InBody {
        FeedBody(o.parser, a[1..]);
      }
      BodyStartElsewhere(o.parser, a[1..], at + 1, place);
    }
  }

  // The place is inside the text in which the headers end, and the body has begun when it is found.
  lemma {:induction false} BodyStartInside(p: Parser, text: string, at: nat, place: nat)
    requires Sound(p) && Feed(p, text).ok && BodyStart(p, text, at, None) == Some(place)
    ensures at < place <= at + |text|
    ensures p.state != InBody && Feed(p, text).parser.state == InBody
    decreases |text|
  {
    if p.state == InBody || Feed(p, text).parser.state != InBody {
      BodyStartElsewhere(p, text, at, None);
    } else {
      var o := AddByte(p, text[0]);
      if Enters(p, o.parser) {
        FeedBody(o.parser, text[1..]);
        BodyStartElsewhere(o.parser, text[1..], at + 1, Some(at + 1));
      } else {
        BodyStartInside(o.parser, text[1..], at + 1, place);
      }
    }
  }

  function Later(at: nat, place: Option<nat>): Option<nat> {
    if place.Some? then Some(at + place.value) else None
  }

  // The place is counted from the start of the text.
  lemma {:induction false} BodyStartShifts(p: Parser, text: string, at: nat, from: nat, to: nat, place: Option<nat>)
    requires Sound(p) && to == at + from
    ensures BodyStart(p, text, to, Later(at, place)) == Later(at, BodyStart(p, text, from, place))
    decreases |text|
  {
    if text != "" {
      var o := AddByte(p, text[0]);
      if o.ok {
        BodyStartShifts(o.parser, text[1..], at, from + 1, to + 1, if Enters(p, o.parser) then Some(from + 1) else place);
      }
    }
  }

  // The place `end`, counted from the start of a text that is cut in three, is in this part of it or is not.
  function InPart(from: nat, part: string, end: nat): Option<nat> {
    if from < end <= from + |part| then Some(end - from) else None
  }

  // Reading on from here, the place is `end`, found already or still to come.
  ghost predicate StartsIn(q: Parser, rest: string, from: nat, end: nat)
    requires Sound(q)
  {
    Feed(q, rest).ok && if q.state == InBody then end <= from else BodyStart(q, rest, from, None) == Some(end)
  }

  lemma StartsAfter(p: Parser, before: string, rest: string, q: Parser, at: nat, from: nat, end: nat)
    requires Sound(p) && Fed(p, before, q) && from == at + |before|
    requires p.state != InBody && StartsIn(p, before + rest, at, end)
    ensures StartsIn(q, rest, from, end)
  {
    FeedConcat(p, before, rest);
    BodyStartConcat(p, before, rest, at, from, None, q);
    if q.state == InBody {
      FoundBefore(q, rest, from, end, BodyStart(p, before, at, None));
      if BodyStart(p, before, at, None).Some? {
        BodyStartInside(p, before, at, end);
      }
    } else {
      BodyStartElsewhere(p, before, at, None);
    }
  }

  lemma FoundBefore(q: Parser, rest: string, from: nat, end: nat, place: Option<nat>)
    requires Sound(q) && q.state == InBody && Feed(q, rest).ok && BodyStart(q, rest, from, place) == Some(end)
    ensures place == Some(end)
  {
    BodyStartElsewhere(q, rest, from, place);
  }

  lemma StartInPart(q: Parser, part: string, after: string, r: Parser, from: nat, to: nat, end: nat)
    requires Sound(q) && Fed(q, part, r) && to == from + |part|
    requires StartsIn(q, part + after, from, end)
    ensures BodyStart(q, part, 0, None) == InPart(from, part, end)
  {
    if q.state == InBody {
      BodyStartElsewhere(q, part, 0, None);
    } else {
      PlaceOfPart(q, part, after, r, from, to, end);
      BodyStartShifts(q, part, from, 0, from, None);
      Earlier(from, to, end, part, BodyStart(q, part, 0, None));
    }
  }

  lemma Earlier(from: nat, to: nat, end: nat, part: string, place: Option<nat>)
    requires to == from + |part|
    requires Later(from, place) == if from < end <= to then Some(end) else None
    ensures place == InPart(from, part, end)
  {
  }

  lemma PlaceOfPart(q: Parser, part: string, after: string, r: Parser, from: nat, to: nat, end: nat)
    requires Sound(q) && Fed(q, part, r) && to == from + |part| && q.state != InBody
    requires StartsIn(q, part + after, from, end)
    ensures BodyStart(q, part, from, None) == if from < end <= to then Some(end) else None
  {
    FeedConcat(q, part, after);
    BodyStartConcat(q, part, after, from, to, None, r);
    PlaceInPart(q, part, after, r, from, to, end, BodyStart(q, part, from, None));
  }

  lemma PlaceInPart(
      q: Parser, part: string, after: string, r: Parser, from: nat, to: nat, end: nat, place: Option<nat>)
    requires Sound(q) && Fed(q, part, r) && Feed(r, after).ok && to == from + |part|
    requires place == BodyStart(q, part, from, None) && BodyStart(r, after, to, place) == Some(end)
    ensures place == if from < end <= to then Some(end) else None
  {
    if place.Some? {
      BodyStartInside(q, part, from, place.value);
      BodyStartElsewhere(r, after, to, place);
    } else {
      BodyStartInside(r, after, to, end);
    }
  }

  // Of the parts a text is fed in, the one with the end of the headers in it finds the place, and no other.
  lemma PartReports(p: Parser, before: string, part: string, after: string, q: Parser, from: nat, end: nat)
    requires Sound(p) && p.state != InBody && StartsIn(p, before + (part + after), 0, end)
    requires q == Feed(p, before).parser && from == |before|
    ensures BodyStart(q, part, 0, None) == InPart(from, part, end)
  {
    FeedConcat(p, before, part + after);
    StartsAfter(p, before, part + after, q, 0, from, end);
    FeedConcat(q, part, after);
    StartInPart(q, part, after, Feed(q, part).parser, from, from + |part|, end);
  }

  // What the parser reports for chunk i, when it is passed a start that is not set.
  function ReportedStart(p: Parser, chunks: seq<string>, i: nat): Option<nat>
    requires Sound(p) && i < |chunks|
  {
    BodyStart(FeedChunks(p, chunks[..i]).parser, chunks[i], 0, None)
  }

  lemma {:induction false} FlattenAt(chunks: seq<string>, i: nat)
    requires i < |chunks|
    ensures Flatten(chunks) == Flatten(chunks[..i]) + (chunks[i] + Flatten(chunks[i + 1..]))
  {
    if i > 0 {
      FlattenAt(chunks[1..], i - 1);
      assert chunks[..i][1..] == chunks[1..][..i - 1] && chunks[i + 1..] == chunks[1..][i..];
    }
  }

  // The chunk that holds the end of the headers reports the place after it, and no other reports any.
  ghost predicate StartsReported(p: Parser, chunks: seq<string>, end: nat)
    requires Sound(p)
  {
    forall i | 0 <= i < |chunks| ::
      ReportedStart(p, chunks, i) == InPart(|Flatten(chunks[..i])|, chunks[i], end)
  }

  lemma StartIsReported(p: Parser, chunks: seq<string>, end: nat)
    requires Sound(p) && p.state != InBody && StartsIn(p, Flatten(chunks), 0, end)
    ensures StartsReported(p, chunks, end)
  {
    forall i | 0 <= i < |chunks|
      ensures ReportedStart(p, chunks, i) == InPart(|Flatten(chunks[..i])|, chunks[i], end)
    {
      var before, after := Flatten(chunks[..i]), Flatten(chunks[i + 1..]);
      FlattenAt(chunks, i);
      ChunksDoNotMatter(p, chunks[..i]);
      PartReports(p, before, chunks[i], after, Feed(p, before).parser, |before|, end);
    }
  }

  // The blank line that ends the headers.
  lemma BodyStartAtBlankLine(p: Parser, at: nat, end: nat)
    requires Sound(p) && InHeadersAtStart(p) && end == at + 2
    ensures Feed(p, CRLF).ok && Feed(p, CRLF).parser.state == InBody && BodyStart(p, CRLF, at, None) == Some(end)
  {
  }

  lemma BodyStartAtEnd(p: Parser, tail: string, body: string, at: nat, end: nat)
    requires Sound(p) && InHeadersAtStart(p) && tail == CRLF + body && end == at + 2
    ensures BodyStart(p, tail, at, None) == Some(end)
  {
    var q := Feed(p, CRLF).parser;
    BodyStartAtBlankLine(p, at, end);
    BodyStartConcat(p, CRLF, body, at, end, None, q);
    FeedBody(q, body);
    BodyStartElsewhere(q, body, end, Some(end));
  }

  lemma BodyStartAfterHead(p: Parser, head: string, tail: string, body: string, q: Parser, from: nat, end: nat)
    requires Sound(p) && Fed(p, head, q) && InHeadersAtStart(q)
    requires tail == CRLF + body && from == |head| && end == from + 2
    ensures BodyStart(p, head + tail, 0, None) == Some(end)
  {
    NotInHead(p, head, tail, q, from);
    BodyStartAtEnd(q, tail, body, from, end);
  }

  lemma NotInHead(p: Parser, head: string, tail: string, q: Parser, from: nat)
    requires Sound(p) && Fed(p, head, q) && q.state != InBody && from == |head|
    ensures BodyStart(p, head + tail, 0, None) == BodyStart(q, tail, from, None)
  {
    BodyStartElsewhere(p, head, 0, None);
    BodyStartConcat(p, head, tail, 0, from, None, q);
  }

  lemma FeedHead(p: Parser, first: string, m: Message, headers: seq<Header>)
    requires Sound(p) && AtStart(p) && Begins(p, first, m) && CleanHeaders(headers) && AllFit(headers)
    ensures var o := Feed(p, first + CRLF + Lines(HeaderLines(headers)));
            o.ok && InHeadersAtStart(o.parser)
  {
    FeedFirstLine(p, first, m);
    FeedHeaders(Feed(p, first + CRLF).parser, headers);
    FeedConcat(p, first + CRLF, Lines(HeaderLines(headers)));
  }

  // The body of a message starts where it was printed.
  lemma BodyStartOfMessage(
      p: Parser, text: string, first: string, m: Message, headers: seq<Header>, body: string, end: nat)
    requires Sound(p) && AtStart(p) && Begins(p, first, m) && CleanHeaders(headers) && AllFit(headers)
    requires text == first + CRLF + Lines(HeaderLines(headers)) + CRLF + body && end == |text| - |body|
    ensures BodyStart(p, text, 0, None) == Some(end)
  {
    var head := first + CRLF + Lines(HeaderLines(headers));
    FeedHead(p, first, m, headers);
    Regrouped(head, CRLF, body);
    BodyStartAfterHead(p, head, CRLF + body, body, Feed(p, head).parser, |head|, end);
  }

  lemma Regrouped(a: string, b: string, c: string)
    ensures a + b + c == a + (b + c)
  {
  }

  lemma MessageStartIsFound(p: Parser, text: string, first: string, m: Message, headers: seq<Header>, body: string,
                            chunks: seq<string>, end: nat)
    requires Sound(p) && AtStart(p) && Begins(p, first, m) && CleanHeaders(headers) && AllFit(headers)
    requires text == first + CRLF + Lines(HeaderLines(headers)) + CRLF + body && end == |text| - |body|
    requires Flatten(chunks) == text
    ensures StartsReported(p, chunks, end)
  {
    FeedMessage(p, first, m, headers, body);
    BodyStartOfMessage(p, text, first, m, headers, body, end);
    StartIsReported(p, chunks, end);
  }

  // However a readable request is cut, the chunk that holds the end of its headers, and no other, reports
  // where its body starts.
  lemma BodyStartIsFound(p: Parser, r: Request, chunks: seq<string>, end: nat)
    requires ForRequest(p) && r.Known() && Readable(r) && Flatten(chunks) == r.Print()
    requires end == |r.Print()| - |r.body|
    ensures StartsReported(p, chunks, end)
  {
    FirstLineIsRead(p, r);
    MessageStartIsFound(p, r.Print(), r.FirstLine(), Started(r), r.PrintedHeaders(), r.body, chunks, end);
  }

  // ---------- Responses ----------

  ghost predicate ForResponse(p: Parser) {
    Sound(p) && AtStart(p) && p.message == Res(Response(-1, Http11, [], ""))
  }

  ghost predicate ReadableResponse(r: Response) {
    CleanHeaders(r.headers) && AllFit(r.headers)
  }

  function Begun(r: Response): Message {
    Res(Response(r.status, r.version, [], ""))
  }

  lemma StatusIsRead(p: Parser, r: Response)
    requires ForResponse(p) && r.Known()
    ensures var first := r.FirstLine();
            && '\n' !in first && Fits(first)
            && FirstLine(Gathered(p, first).line, |first| + 2, p.message)
            == (true, Begun(r))
  {
    var first := r.FirstLine();
    StatusTextSpells(r.status);
    assert '\n' !in VersionName(r.version);
    var q := Gathered(p, first);
    StatusLineIsRead(q.line, q.length, r, p.message.response);
  }

  lemma BegunSays(r: Response, m: Message)
    requires HeadersAdded(WithBody(Begun(r), r.body), m, r.headers)
    ensures m == Res(r)
  {
  }

  lemma FeedCleanResponse(p: Parser, r: Response)
    requires ForResponse(p) && r.Known() && CleanHeaders(r.headers)
    ensures var o := Feed(p, r.Print());
            && (o.ok <==> AllFit(r.headers))
            && (o.ok ==> o.parser.state == InBody && o.parser.message == Res(r))
  {
    StatusIsRead(p, r);
    FeedMessage(p, r.FirstLine(), Begun(r), r.headers, r.body);
    var o := Feed(p, r.Print());
    if o.ok {
      BegunSays(r, o.parser.message);
    }
  }

  // Reading undoes printing for exactly the readable responses, and gives the very response.
  lemma ResponseRoundTrip(p: Parser, r: Response, chunks: seq<string>)
    requires ForResponse(p) && r.Known() && Flatten(chunks) == r.Print()
    ensures var o := FeedChunks(p, chunks);
            o.ok && o.parser.state == InBody && o.parser.message == Res(r) <==> ReadableResponse(r)
  {
    ChunksDoNotMatter(p, chunks);
    var o := Feed(p, r.Print());
    if o.ok && o.parser.message == Res(r) {
      StreamsStayClean(p, r.Print());
    }
    if CleanHeaders(r.headers) {
      FeedCleanResponse(p, r);
    }
  }

  lemma BodyStartOfResponseIsFound(p: Parser, r: Response, chunks: seq<string>, end: nat)
    requires ForResponse(p) && r.Known() && ReadableResponse(r) && Flatten(chunks) == r.Print()
    requires end == |r.Print()| - |r.body|
    ensures StartsReported(p, chunks, end)
  {
    StatusIsRead(p, r);
    MessageStartIsFound(p, r.Print(), r.FirstLine(), Begun(r), r.headers, r.body, chunks, end);
  }
}
