/**
 What the incremental HTTP parser does with each byte, on values: the line buffer with whatever earlier
 lines left behind in it, the length of the line so far, and the message built so far.
 */
module HttpParsing {
  import opened HttpMessages
  import opened Numerals
  import opened Results

  const MAX_LINE := 4096

  datatype ParseState = InFirstLine | InHeaders | InBody

  datatype Message = Req(request: Request) | Res(response: Response)

  datatype Parser = Parser(state: ParseState, line: seq<char>, length: nat, endLength: nat, message: Message)

  datatype Outcome = Outcome(ok: bool, parser: Parser)

  // What reading the buffer at i gives; beyond its end, a NUL.
  function Peek(line: seq<char>, i: nat): char {
    if i < |line| then line[i] else '\0'
  }

  predicate IsBlank(c: char) {
    c == ' ' || c == '\t'
  }

  // The place after the next c, or the end.
  function SkipPast(line: seq<char>, cur: nat, end: nat, c: char): (next: nat)
    requires cur <= end <= |line|
    ensures cur <= next <= end
    ensures next < end ==> cur < next && line[next - 1] == c && forall i | cur <= i < next - 1 :: line[i] != c
    decreases end - cur
  {
    if cur == end then end else if line[cur] == c then cur + 1 else SkipPast(line, cur + 1, end, c)
  }

  // The place after c, which must be here or, because a mismatch is tried once more, one further on.
  function Expect(line: seq<char>, cur: nat, end: nat, c: char): Option<nat> {
    if cur != end && Peek(line, cur) == c then Some(cur + 1)
    else
      var again := if cur == end then cur else cur + 1;
      if again != end && Peek(line, again) == c then Some(again + 1) else None
  }

  function ExpectAll(line: seq<char>, cur: nat, end: nat, text: string): Option<nat>
    decreases |text|
  {
    if text == "" then Some(cur) else
    var next := Expect(line, cur, end, text[0]);
    if next.None? then None else ExpectAll(line, next.value, end, text[1..])
  }

  // The difference of a signed character and '0'.
  function DigitValue(c: char): int {
    (if c as int < 128 then c as int else c as int - 256) - '0' as int
  }

  // The version spelled at cur by a digit, any character and a digit; nothing stops this at the line's end.
  function VersionAt(line: seq<char>, cur: nat): Version {
    var n := DigitValue(Peek(line, cur)) * 10 + DigitValue(Peek(line, cur + 2));
    if n == 10 then Http10 else if n == 11 then Http11 else if n == 20 then Http20 else UnknownVersion
  }

  function MethodNamed(name: string): Method {
    if name == "GET" then Get else if name == "POST" then Post
    else if name == "PUT" then Put else if name == "DELETE" then Delete
    else UnknownMethod
  }

  // The request line.  What was recognised before a fault has been stored already.
  function RequestLine(line: seq<char>, end: nat, r: Request): (bool, Request)
    requires end <= |line|
  {
    var uriAt := SkipPast(line, 0, end, ' ');
    if uriAt == end || MethodNamed(line[..uriAt - 1]) == UnknownMethod then (false, r)
    else RequestTarget(line, uriAt, end, r.(verb := MethodNamed(line[..uriAt - 1])))
  }

  function RequestTarget(line: seq<char>, uriAt: nat, end: nat, r: Request): (bool, Request)
    requires uriAt <= end <= |line|
  {
    var after := SkipPast(line, uriAt, end, ' ');
    if after == end then (false, r) else
    var r' := r.(uri := line[uriAt..after - 1]);
    var cur := ExpectAll(line, after, end, "HTTP/");
    if cur.None? || VersionAt(line, cur.value) == UnknownVersion then (false, r')
    else (true, r'.(version := VersionAt(line, cur.value)))
  }

  // The status line; the phrase after the code is not looked at.
  function StatusLine(line: seq<char>, end: nat, r: Response): (bool, Response) {
    var cur := ExpectAll(line, 0, end, "HTTP/");
    if cur.None? || VersionAt(line, cur.value) == UnknownVersion then (false, r) else
    StatusCode(line, cur.value + 3, end, r.(version := VersionAt(line, cur.value)))
  }

  // The status line after its version.
  function StatusCode(line: seq<char>, cur: nat, end: nat, r: Response): (bool, Response) {
    var code := Expect(line, cur, end, ' ');
    if code.None? || !StatusAt(line, code.value, end) then (false, r) else
    var status := DigitValue(Peek(line, code.value)) * 100 + DigitValue(Peek(line, code.value + 1)) * 10
                  + DigitValue(Peek(line, code.value + 2));
    (code.value + 3 != end && Peek(line, code.value + 3) == ' ', r.(status := status))
  }

  predicate StatusAt(line: seq<char>, cur: nat, end: nat) {
    && cur != end && '1' <= Peek(line, cur) <= '9'
    && cur + 1 != end && IsDigit(Peek(line, cur + 1))
    && cur + 2 != end && IsDigit(Peek(line, cur + 2))
  }

  // The first place, from cur on, that is no blank; or the end.
  function SkipBlanks(line: seq<char>, cur: nat, end: nat): (next: nat)
    requires cur <= end <= |line|
    ensures cur <= next <= end
    ensures next < end ==> !IsBlank(line[next])
    ensures forall i | cur <= i < next :: IsBlank(line[i])
    decreases end - cur
  {
    if cur < end && IsBlank(line[cur]) then SkipBlanks(line, cur + 1, end) else cur
  }

  // The place of the first colon, or the end.
  function Colon(line: seq<char>, cur: nat, end: nat): (at: nat)
    requires cur <= end <= |line|
    ensures cur <= at <= end && (at < end ==> line[at] == ':')
    ensures forall i | cur <= i < at :: line[i] != ':'
    decreases end - cur
  {
    if cur < end && line[cur] != ':' then Colon(line, cur + 1, end) else cur
  }

  // A header line that can be read: it does not start with a blank, and it has a colon.
  predicate HasHeader(line: seq<char>, end: nat)
    requires 0 < end <= |line|
  {
    !IsBlank(line[0]) && Colon(line, 0, end) < end
  }

  function ValueAt(line: seq<char>, end: nat): nat
    requires 0 < end <= |line| && HasHeader(line, end)
  {
    SkipBlanks(line, Colon(line, 0, end) + 1, end)
  }

  // A line of this length that ends as the parser found it to end.
  predicate Terminated(line: seq<char>, end: nat, endLength: nat) {
    && endLength <= end <= |line| && 1 <= endLength <= 2
    && line[end - 1] == '\n' && (endLength == 2 ==> line[end - 2] == '\r')
  }

  // What is left for the value ends where the line's end begins, or after.
  lemma ValueFits(line: seq<char>, end: nat, endLength: nat)
    requires Terminated(line, end, endLength) && HasHeader(line, end)
    ensures ValueAt(line, end) + endLength <= end
  {
  }

  function WithHeader(m: Message, key: string, value: string, text: string): Message {
    match m
    case Req(r) => Req(r.WithHeader(key, value, text))
    case Res(r) => Res(r.WithHeader(key, value))
  }

  function AppendBody(m: Message, byte: char): Message {
    match m
    case Req(r) => Req(r.(body := r.body + [byte]))
    case Res(r) => Res(r.(body := r.body + [byte]))
  }

  function FirstLine(line: seq<char>, end: nat, m: Message): (bool, Message)
    requires end <= |line|
  {
    match m
    case Req(r) => var (ok, r') := RequestLine(line, end, r); (ok, Req(r'))
    case Res(r) => var (ok, r') := StatusLine(line, end, r); (ok, Res(r'))
  }

  // A header line cut at its colon, the blanks after that and its end; `text` is the memory the value begins.
  datatype HeaderCut = HeaderCut(key: string, value: string, text: string)

  function CutHeader(line: seq<char>, end: nat, endLength: nat): Option<HeaderCut>
    requires Terminated(line, end, endLength)
  {
    if !HasHeader(line, end) then None else
    var at := ValueAt(line, end);
    ValueFits(line, end, endLength);
    Some(HeaderCut(line[..Colon(line, 0, end)], line[at..end - endLength], line[at..]))
  }

  // The message with the header of this line, if the line has one.
  function AddHeader(line: seq<char>, end: nat, endLength: nat, m: Message): Option<Message>
    requires Terminated(line, end, endLength)
  {
    var cut := CutHeader(line, end, endLength);
    if cut.None? then None else Some(WithHeader(m, cut.value.key, cut.value.value, cut.value.text))
  }

  ghost predicate Sound(p: Parser) {
    && |p.line| == MAX_LINE && p.length <= MAX_LINE && 1 <= p.endLength <= 2
  }

  // Handles a line that has just ended.
  function FinishLine(p: Parser): Outcome
    requires Terminated(p.line, p.length, p.endLength) && p.state != InBody
  {
    if p.state == InFirstLine then
      var (ok, message) := FirstLine(p.line, p.length, p.message);
      if ok then Outcome(true, p.(state := InHeaders, length := 0, message := message))
      else Outcome(false, p.(message := message))
    else if p.length == p.endLength then
      Outcome(true, p.(state := InBody, length := 0))
    else
      var message := AddHeader(p.line, p.length, p.endLength, p.message);
      if message.None? then Outcome(false, p)
      else Outcome(true, p.(length := 0, message := message.value))
  }

  // The byte added to the line.  Once a line ends without a carriage return, the ends of all later lines
  // are taken to be one byte long.
  function Stored(p: Parser, byte: char): (p': Parser)
    requires Sound(p) && p.length < MAX_LINE
    ensures Sound(p') && (byte == '\n' ==> Terminated(p'.line, p'.length, p'.endLength))
  {
    var returned := p.length > 0 && p.line[p.length - 1] == '\r';
    p.(line := p.line[p.length := byte], length := p.length + 1,
       endLength := if byte == '\n' && !returned then 1 else p.endLength)
  }

  // One byte.  A line ends with every line feed.
  function AddByte(p: Parser, byte: char): (o: Outcome)
    requires Sound(p)
    ensures Sound(o.parser)
  {
    if p.state == InBody then
      Outcome(true, p.(message := AppendBody(p.message, byte)))
    else if p.length >= MAX_LINE then
      Outcome(false, p)
    else if byte != '\n' then Outcome(true, Stored(p, byte))
    else FinishLine(Stored(p, byte))
  }

  // A whole text; the first byte that is refused ends it.
  function Feed(p: Parser, text: string): (o: Outcome)
    requires Sound(p)
    ensures Sound(o.parser)
    decreases |text|
  {
    if text == "" then Outcome(true, p) else
    var o := AddByte(p, text[0]);
    if o.ok then Feed(o.parser, text[1..]) else o
  }

  // The place after the byte that ends the headers, if it is in this text, whose first byte is at `at`.
  function BodyStart(p: Parser, text: string, at: nat, otherwise: Option<nat>): Option<nat>
    requires Sound(p)
    decreases |text|
  {
    if text == "" then otherwise else
    var o := AddByte(p, text[0]);
    if !o.ok then otherwise
    else BodyStart(o.parser, text[1..], at + 1, if Enters(p, o.parser) then Some(at + 1) else otherwise)
  }

  predicate Enters(before: Parser, after: Parser) {
    before.state != InBody && after.state == InBody
  }

  // Feeding a text in two parts is feeding it whole.
  lemma {:induction false} FeedConcat(p: Parser, a: string, b: string)
    requires Sound(p)
    ensures Feed(p, a + b) == if Feed(p, a).ok then Feed(Feed(p, a).parser, b) else Feed(p, a)
    decreases |a|
  {
    if a == "" {
      assert a + b == b;
    } else {
      var o := AddByte(p, a[0]);
      assert (a + b)[0] == a[0] && (a + b)[1..] == a[1..] + b;
      if o.ok {
        FeedConcat(o.parser, a[1..], b);
      }
    }
  }

  lemma OneByte(p: Parser, byte: char)
    requires Sound(p)
    ensures Feed(p, [byte]) == AddByte(p, byte)
  {
  }

  function Flatten(chunks: seq<string>): string {
    if chunks == [] then "" else chunks[0] + Flatten(chunks[1..])
  }

  function FeedChunks(p: Parser, chunks: seq<string>): (o: Outcome)
    requires Sound(p)
    ensures Sound(o.parser)
    decreases |chunks|
  {
    if chunks == [] then Outcome(true, p) else
    var o := Feed(p, chunks[0]);
    if o.ok then FeedChunks(o.parser, chunks[1..]) else o
  }

  // How a text is cut into chunks makes no difference.
  lemma {:induction false} ChunksDoNotMatter(p: Parser, chunks: seq<string>)
    requires Sound(p)
    ensures FeedChunks(p, chunks) == Feed(p, Flatten(chunks))
    decreases |chunks|
  {
    if chunks != [] {
      FeedConcat(p, chunks[0], Flatten(chunks[1..]));
      var o := Feed(p, chunks[0]);
      if o.ok {
        ChunksDoNotMatter(o.parser, chunks[1..]);
      }
    }
  }

  // ---------- What every byte stream keeps ----------

  // Between bytes there is no line feed in the line.
  ghost predicate NoLineFeed(p: Parser)
    requires Sound(p)
  {
    forall i | 0 <= i < p.length :: p.line[i] != '\n'
  }

  // What a parser can have read: no delimiter inside a part.
  predicate CleanHeader(h: Header) {
    && ':' !in h.key && '\n' !in h.key && '\n' !in h.value
    && (h.key != "" ==> !IsBlank(h.key[0])) && (h.value != "" ==> !IsBlank(h.value[0]))
  }

  ghost predicate CleanHeaders(headers: seq<Header>) {
    forall i | 0 <= i < |headers| :: CleanHeader(headers[i])
  }

  ghost predicate CleanMessage(m: Message) {
    match m
    case Req(r) => ' ' !in r.uri && '\n' !in r.uri && CleanHeaders(r.headers)
    case Res(r) => CleanHeaders(r.headers)
  }

  ghost predicate Clean(p: Parser)
    requires Sound(p)
  {
    NoLineFeed(p) && CleanMessage(p.message)
  }

  lemma RequestLineIsClean(line: seq<char>, end: nat, r: Request)
    requires end <= |line| && CleanMessage(Req(r))
    requires forall i | 0 <= i < end - 1 :: line[i] != '\n'
    ensures CleanMessage(Req(RequestLine(line, end, r).1))
  {
  }

  lemma HeaderIsClean(line: seq<char>, end: nat, endLength: nat)
    requires Terminated(line, end, endLength) && HasHeader(line, end)
    requires forall i | 0 <= i < end - 1 :: line[i] != '\n'
    ensures ValueAt(line, end) + endLength <= end
    ensures CleanHeader(Header(line[..Colon(line, 0, end)], line[ValueAt(line, end)..end - endLength]))
  {
  }

  lemma FinishLineIsClean(p: Parser)
    requires Sound(p) && Terminated(p.line, p.length, p.endLength) && p.state != InBody && CleanMessage(p.message)
    requires forall i | 0 <= i < p.length - 1 :: p.line[i] != '\n'
    ensures CleanMessage(FinishLine(p).parser.message)
    ensures FinishLine(p).ok ==> FinishLine(p).parser.length == 0
  {
    if p.state == InFirstLine {
      if p.message.Req? {
        RequestLineIsClean(p.line, p.length, p.message.request);
      }
    } else if p.length != p.endLength && HasHeader(p.line, p.length) {
      HeaderIsClean(p.line, p.length, p.endLength);
    }
  }

  lemma AddByteKeepsClean(p: Parser, byte: char)
    requires Sound(p) && Clean(p)
    ensures CleanMessage(AddByte(p, byte).parser.message)
    ensures AddByte(p, byte).ok ==> Clean(AddByte(p, byte).parser)
  {
    if p.state != InBody && p.length < MAX_LINE && byte == '\n' {
      FinishLineIsClean(Stored(p, byte));
    }
  }

  // On every byte stream: no line feed stays in the line, no line is longer than the buffer, and nothing
  // read has a delimiter inside it.
  lemma {:induction false} StreamsStayClean(p: Parser, text: string)
    requires Sound(p) && Clean(p)
    ensures Feed(p, text).parser.length <= MAX_LINE && CleanMessage(Feed(p, text).parser.message)
    ensures Feed(p, text).ok ==> Clean(Feed(p, text).parser)
    decreases |text|
  {
    if text != "" {
      AddByteKeepsClean(p, text[0]);
      if AddByte(p, text[0]).ok {
        StreamsStayClean(AddByte(p, text[0]).parser, text[1..]);
      }
    }
  }
}
