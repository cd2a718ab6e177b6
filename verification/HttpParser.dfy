/**
 The incremental HTTP parser: a state machine over bytes with one line buffer.  It fills either a request
 or a response, whichever it was made for.
 */
module HttpParsers {
  import opened HttpMessages
  import opened HttpParsing
  import opened Results

  class HTTPParser {
    const request: HTTPRequest?
    const response: HTTPResponse?
    var parseState: ParseState
    var curLineLength: nat
    var curLineEndLength: nat
    const curLine: array<char>

    // The objects this parser changes.
    ghost function Target(): set<object> {
      (if request == null then {} else {request}) + (if response == null then {} else {response})
    }

    ghost predicate Valid()
      reads this
    {
      && (request == null) != (response == null)
      && curLine.Length == MAX_LINE && curLineLength <= MAX_LINE && 1 <= curLineEndLength <= 2
    }

    ghost function MessageValue(): Message
      requires Valid()
      reads this, Target()
    {
      if request != null then Req(request.Value()) else Res(response.Value())
    }

    ghost function View(): (p: Parser)
      requires Valid()
      reads this, curLine, Target()
      ensures Sound(p)
    {
      Parser(parseState, curLine[..], curLineLength, curLineEndLength, MessageValue())
    }

    constructor ForRequest(req: HTTPRequest)
      ensures Valid() && request == req && fresh(curLine)
      ensures View() == Parser(InFirstLine, curLine[..], 0, 2, Req(req.Value()))
    {
      request, response := req, null;
      parseState, curLineLength, curLineEndLength := InFirstLine, 0, 2;
      curLine := new char[MAX_LINE];
    }

    constructor ForResponse(res: HTTPResponse)
      ensures Valid() && response == res && fresh(curLine)
      ensures View() == Parser(InFirstLine, curLine[..], 0, 2, Res(res.Value()))
    {
      request, response := null, res;
      parseState, curLineLength, curLineEndLength := InFirstLine, 0, 2;
      curLine := new char[MAX_LINE];
    }

    // Feeds a chunk.  `startOfBody` is set in the chunk that ends the headers: to the place after their end.
    method Parse(msg: string, start: Option<nat>) returns (ok: bool, startOfBody: Option<nat>)
      requires Valid()
      modifies this, curLine, Target()
      ensures Valid()
      ensures Outcome(ok, View()) == Feed(old(View()), msg)
      ensures startOfBody == BodyStart(old(View()), msg, 0, start)
    {
      startOfBody := start;
      for i := 0 to |msg|
        invariant Valid()
        invariant Feed(View(), msg[i..]) == Feed(old(View()), msg)
        invariant BodyStart(View(), msg[i..], i, startOfBody) == BodyStart(old(View()), msg, 0, start)
      {
        assert msg[i..][0] == msg[i] && msg[i..][1..] == msg[i + 1..];
        var foundBodyStart;
        ok, foundBodyStart := AddByte(msg[i]);
        if !ok {
          return;
        }
        if foundBodyStart {
          startOfBody := Some(i + 1);
        }
      }
      ok := true;
    }

    method AddByte(byte: char) returns (ok: bool, foundBodyStart: bool)
      requires Valid()
      modifies this, curLine, Target()
      ensures Valid()
      ensures Outcome(ok, View()) == HttpParsing.AddByte(old(View()), byte)
      ensures foundBodyStart <==> old(parseState) != InBody && parseState == InBody
    {
      foundBodyStart := false;
      if parseState == InBody {
        if request != null {
          request.AppendBody([byte]);
        } else {
          response.AppendBody([byte]);
        }
        return true, false;
      }
      if curLineLength >= MAX_LINE {
        return false, false;
      }
      var atEnd := Store(byte);
      if atEnd {
        ok, foundBodyStart := FinishLine();
      } else {
        ok := true;
      }
    }

    method Store(byte: char) returns (atEnd: bool)
      requires Valid() && curLineLength < MAX_LINE
      modifies this`curLineLength, this`curLineEndLength, curLine
      ensures Valid() && View() == Stored(old(View()), byte) && (atEnd <==> byte == '\n')
    {
      ghost var line := curLine[..];
      curLine[curLineLength] := byte;
      curLineLength := curLineLength + 1;
      atEnd := CheckLine();
      assert curLine[..] == line[old(curLineLength) := byte];
    }

    // Looks at the two last characters of the line.
    method CheckLine() returns (atEnd: bool)
      requires Valid() && curLineLength > 0
      modifies this`curLineEndLength
      ensures Valid()
      ensures atEnd <==> curLine[curLineLength - 1] == '\n'
      ensures curLineEndLength ==
              if atEnd && !(curLineLength >= 2 && curLine[curLineLength - 2] == '\r') then 1 else old(curLineEndLength)
    {
      if curLineLength >= 2 && curLine[curLineLength - 2] == '\r' && curLine[curLineLength - 1] == '\n' {
        return true;
      } else if curLineLength >= 2 && curLine[curLineLength - 2] == '\n' && curLine[curLineLength - 1] == '\r' {
      } else if curLineLength >= 1 && curLine[curLineLength - 1] == '\n' {
        curLineEndLength := 1;
        return true;
      }
      return false;
    }

    method FinishLine() returns (ok: bool, foundBodyStart: bool)
      requires Valid() && Terminated(curLine[..], curLineLength, curLineEndLength) && parseState != InBody
      modifies this`parseState, this`curLineLength, Target()
      ensures Valid()
      ensures Outcome(ok, View()) == HttpParsing.FinishLine(old(View()))
      ensures foundBodyStart <==> parseState == InBody
    {
      foundBodyStart := false;
      if parseState == InFirstLine {
        ok := HandleFirstLine();
        if !ok {
          return;
        }
        parseState := InHeaders;
      } else if curLineLength == curLineEndLength {
        foundBodyStart := true;
        parseState := InBody;
      } else {
        ok := AddHeader();
        if !ok {
          return;
        }
      }
      curLineLength := 0;
      ok := true;
    }

    method AddHeader() returns (ok: bool)
      requires Valid() && Terminated(curLine[..], curLineLength, curLineEndLength)
      modifies Target()
      ensures var added := HttpParsing.AddHeader(curLine[..], curLineLength, curLineEndLength, old(MessageValue()));
              ok == added.Some? && MessageValue() == added.Or(old(MessageValue()))
    {
      var cut := CutHeader();
      if cut.None? {
        return false;
      }
      StoreHeader(cut.value.key, cut.value.value, cut.value.text);
      return true;
    }

    // The header on the line, if there is one.
    method CutHeader() returns (cut: Option<HeaderCut>)
      requires Valid() && Terminated(curLine[..], curLineLength, curLineEndLength)
      ensures cut == HttpParsing.CutHeader(curLine[..], curLineLength, curLineEndLength)
      ensures cut.Some? ==> cut.value.value <= cut.value.text
    {
      var end := curLineLength;
      ghost var line := curLine[..];
      if curLine[0] == ' ' || curLine[0] == '\t' {
        return None;
      }
      var cur := FindColon(end);
      if cur == end {
        return None;
      }
      var key := curLine[..cur];
      cur := MovePastBlanks(cur + 1, end);
      ValueFits(line, end, curLineEndLength);
      // The check the program makes in its debug builds.
      assert end - cur >= curLineEndLength;
      return Some(HeaderCut(key, curLine[cur..end - curLineEndLength], curLine[cur..]));
    }

    method FindColon(end: nat) returns (cur: nat)
      requires end <= curLine.Length
      ensures cur == Colon(curLine[..], 0, end)
    {
      cur := 0;
      while cur != end && curLine[cur] != ':'
        invariant 0 <= cur <= end && Colon(curLine[..], cur, end) == Colon(curLine[..], 0, end)
      {
        cur := cur + 1;
      }
    }

    method MovePastBlanks(from: nat, end: nat) returns (cur: nat)
      requires from <= end <= curLine.Length
      ensures cur == SkipBlanks(curLine[..], from, end)
    {
      cur := from;
      while cur != end && (curLine[cur] == ' ' || curLine[cur] == '\t')
        invariant from <= cur <= end && SkipBlanks(curLine[..], cur, end) == SkipBlanks(curLine[..], from, end)
      {
        cur := cur + 1;
      }
    }

    method StoreHeader(key: string, value: string, text: string)
      requires Valid() && value <= text
      modifies Target()
      ensures MessageValue() == WithHeader(old(MessageValue()), key, value, text)
    {
      if request != null {
        request.AddHeader(key, value, text);
      } else {
        response.AddHeader(key, value);
      }
    }

    method HandleFirstLine() returns (ok: bool)
      requires Valid()
      modifies Target()
      ensures (ok, MessageValue()) == FirstLine(curLine[..], curLineLength, old(MessageValue()))
    {
      if request != null {
        ok := HandleRequestLine();
      } else {
        ok := HandleStatusLine();
      }
    }

    // Moves past the next blank, or to the end.
    method MovePast(from: nat, end: nat) returns (cur: nat)
      requires from <= end <= curLine.Length
      ensures cur == SkipPast(curLine[..], from, end, ' ')
    {
      cur := from;
      while cur != end
        invariant from <= cur <= end && SkipPast(curLine[..], cur, end, ' ') == SkipPast(curLine[..], from, end, ' ')
      {
        cur := cur + 1;
        if curLine[cur - 1] == ' ' {
          break;
        }
      }
    }

    method Match(from: nat, end: nat, c: char) returns (next: Option<nat>)
      requires curLine.Length == MAX_LINE
      ensures next == Expect(curLine[..], from, end, c)
    {
      var cur := from;
      if cur != end {
        cur := cur + 1;
        if Peek(curLine[..], cur - 1) == c {
          return Some(cur);
        }
      }
      if cur != end {
        cur := cur + 1;
        if Peek(curLine[..], cur - 1) == c {
          return Some(cur);
        }
      }
      return None;
    }

    method MatchAll(from: nat, end: nat, text: string) returns (next: Option<nat>)
      requires curLine.Length == MAX_LINE
      ensures next == ExpectAll(curLine[..], from, end, text)
    {
      next := Some(from);
      for i := 0 to |text|
        invariant next.Some?
        invariant ExpectAll(curLine[..], next.value, end, text[i..]) == ExpectAll(curLine[..], from, end, text)
      {
        assert text[i..][0] == text[i] && text[i..][1..] == text[i + 1..];
        next := Match(next.value, end, text[i]);
        if next.None? {
          return;
        }
      }
    }

    method HandleRequestLine() returns (ok: bool)
      requires Valid() && request != null
      modifies request
      ensures (ok, request.Value()) == RequestLine(curLine[..], curLineLength, old(request.Value()))
    {
      var end := curLineLength;
      var uriAt := MovePast(0, end);
      if uriAt == end {
        return false;
      }
      var verb := MethodNamed(curLine[..uriAt - 1]);
      if verb == UnknownMethod {
        return false;
      }
      request.verb := verb;
      ok := HandleRequestTarget(uriAt);
    }

    // The request line after its method.
    method HandleRequestTarget(uriAt: nat) returns (ok: bool)
      requires Valid() && request != null && uriAt <= curLineLength
      modifies request
      ensures (ok, request.Value()) == RequestTarget(curLine[..], uriAt, curLineLength, old(request.Value()))
    {
      var end := curLineLength;
      var cur := MovePast(uriAt, end);
      if cur == end {
        return false;
      }
      request.uri := curLine[uriAt..cur - 1];
      var version := ReadVersion(cur, end);
      if version.None? {
        return false;
      }
      request.version := version.value.0;
      return true;
    }

    // Reads a version after its prefix, and the place after it.
    method ReadVersion(from: nat, end: nat) returns (read: Option<(Version, nat)>)
      requires curLine.Length == MAX_LINE
      ensures var cur := ExpectAll(curLine[..], from, end, "HTTP/");
              read == if cur.None? || VersionAt(curLine[..], cur.value) == UnknownVersion then None
                      else Some((VersionAt(curLine[..], cur.value), cur.value + 3))
    {
      var next := MatchAll(from, end, "HTTP/");
      if next.None? {
        return None;
      }
      var version := VersionAt(curLine[..], next.value);
      if version == UnknownVersion {
        return None;
      }
      return Some((version, next.value + 3));
    }

    method HandleStatusLine() returns (ok: bool)
      requires Valid() && response != null
      modifies response
      ensures (ok, response.Value()) == StatusLine(curLine[..], curLineLength, old(response.Value()))
    {
      var end := curLineLength;
      var version := ReadVersion(0, end);
      if version.None? {
        return false;
      }
      response.version := version.value.0;
      ok := HandleStatusCode(version.value.1);
    }

    // The status line after its version.
    method HandleStatusCode(from: nat) returns (ok: bool)
      requires Valid() && response != null
      modifies response
      ensures (ok, response.Value()) == StatusCode(curLine[..], from, curLineLength, old(response.Value()))
    {
      var end := curLineLength;
      var next := Match(from, end, ' ');
      if next.None? {
        return false;
      }
      var cur := next.value;
      if !StatusAt(curLine[..], cur, end) {
        return false;
      }
      response.status := DigitValue(Peek(curLine[..], cur)) * 100 + DigitValue(Peek(curLine[..], cur + 1)) * 10
                         + DigitValue(Peek(curLine[..], cur + 2));
      cur := cur + 3;
      return cur != end && Peek(curLine[..], cur) == ' ';
    }
  }
}
