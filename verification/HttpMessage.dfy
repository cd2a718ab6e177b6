/**
 HTTP requests and responses and how they are printed (section 3 of RFC 7230).  A byte is a `char`.

 The value layer says what a message holds and what its text is; the classes are the program's objects.
 */
module HttpMessages {
  import opened Numerals

  datatype Method = UnknownMethod | Get | Post | Put | Delete

  datatype Version = UnknownVersion | Http10 | Http11 | Http20

  datatype Header = Header(key: string, value: string)

  // A length as an unsigned 64-bit number, and the one that stands for none.
  type Length = n: int | 0 <= n <= 0xFFFF_FFFF_FFFF_FFFF
  const UNSET: Length := 0xFFFF_FFFF_FFFF_FFFF
  const INT_MAX := 0x7FFF_FFFF

  const CRLF := "\r\n"
  const CONTENT_LENGTH := "content-length"

  function MethodName(m: Method): string
    requires m != UnknownMethod
  {
    match m case Get => "GET" case Post => "POST" case Put => "PUT" case Delete => "DELETE"
  }

  function VersionName(v: Version): string
    requires v != UnknownVersion
  {
    match v case Http10 => "HTTP/1.0" case Http11 => "HTTP/1.1" case Http20 => "HTTP/2.0"
  }

  // ---------- Numbers ----------

  predicate IsSpace(c: char) {
    c == ' ' || '\t' <= c <= '\r'
  }

  // The C library's reading of a number at the front of s, before it is cut to the width of an int.
  function Number(s: string): int {
    if s == [] then 0
    else if IsSpace(s[0]) then Number(s[1..])
    else if s[0] == '-' then 0 - DigitsFrom(s[1..], 0)
    else if s[0] == '+' then DigitsFrom(s[1..], 0)
    else DigitsFrom(s, 0)
  }

  // strtol stops at the ends of 64 bits; atoi keeps the low 32 of them.
  function Atoi(s: string): (n: int)
    ensures -0x8000_0000 <= n <= INT_MAX
    ensures 0 <= Number(s) <= INT_MAX ==> n == Number(s)
  {
    var wide := Number(s);
    var long := if wide > 0x7FFF_FFFF_FFFF_FFFF then 0x7FFF_FFFF_FFFF_FFFF
                else if wide < -0x8000_0000_0000_0000 then -0x8000_0000_0000_0000 else wide;
    var low := long % 0x1_0000_0000;
    if low <= INT_MAX then low else low - 0x1_0000_0000
  }

  function ToLength(n: int): Length
    requires -0x8000_0000 <= n <= INT_MAX
  {
    if n < 0 then n + 0x1_0000_0000_0000_0000 else n
  }

  // ---------- Values ----------

  predicate NamesContentLength(key: string) {
    CONTENT_LENGTH <= key
  }

  function HeaderLine(h: Header): string {
    h.key + ": " + h.value
  }

  // Every line with its end.
  function Lines(lines: seq<string>): string {
    if lines == [] then [] else lines[0] + CRLF + Lines(lines[1..])
  }

  function HeaderLines(headers: seq<Header>): (lines: seq<string>)
    ensures |lines| == |headers| && forall i | 0 <= i < |lines| :: lines[i] == HeaderLine(headers[i])
  {
    seq(|headers|, i requires 0 <= i < |headers| => HeaderLine(headers[i]))
  }

  datatype Request = Request(
    verb: Method, uri: string, version: Version, headers: seq<Header>, contentLength: Length, body: string)
  {
    // `text` is the memory the value begins.
    function WithHeader(key: string, value: string, text: string): Request {
      this.(headers := headers + [Header(key, value)],
            contentLength := if contentLength == UNSET && NamesContentLength(key) then ToLength(Atoi(text))
                             else contentLength)
    }

    predicate Known() {
      verb != UnknownMethod && version != UnknownVersion
    }

    function FirstLine(): string
      requires Known()
    {
      MethodName(verb) + " " + uri + " " + VersionName(version)
    }

    // The headers as printed: the length of the body is added when no length was set.
    function PrintedHeaders(): seq<Header> {
      headers + if contentLength == UNSET then [Header(CONTENT_LENGTH, Decimal(|body|))] else []
    }

    function Print(): string
      requires Known()
    {
      FirstLine() + CRLF + Lines(HeaderLines(PrintedHeaders())) + CRLF + body
    }
  }

  datatype Response = Response(status: int, version: Version, headers: seq<Header>, body: string)
  {
    function WithHeader(key: string, value: string): Response {
      this.(headers := headers + [Header(key, value)])
    }

    predicate Known() {
      StatusText(status) != "" && version != UnknownVersion
    }

    function FirstLine(): string
      requires Known()
    {
      VersionName(version) + " " + StatusText(status)
    }

    function Print(): string
      requires Known()
    {
      FirstLine() + CRLF + Lines(HeaderLines(headers)) + CRLF + body
    }
  }

  // What may stand after the code of a status.
  type Phrase = s: string | |s| < 50 && '\n' !in s

  // The table of status lines: the code and what it stands for; empty where the table has no entry.
  function StatusText(status: int): string {
    var phrase := StatusPhrase(status);
    if phrase == "" || !(100 <= status < 1000) then "" else Code(status) + " " + phrase
  }

  function Code(status: int): string
    requires 100 <= status < 1000
  {
    [Digit(status / 100), Digit(status / 10 % 10), Digit(status % 10)]
  }

  function StatusPhrase(status: int): Phrase {
    if status < 200 then Informational(status)
    else if status < 300 then Successful(status)
    else if status < 400 then Redirection(status)
    else if status < 405 then ClientError(status)
    else if status < 410 then ClientErrorFrom405(status)
    else if status < 416 then ClientErrorFrom410(status)
    else if status < 425 then ClientErrorFrom416(status)
    else if status < 500 then ClientErrorFrom425(status)
    else ServerError(status)
  }

  function Informational(status: int): Phrase {
    match status
    case 100 => "Continue"
    case 101 => "Switching Protocols"
    case 103 => "Early Hints"
    case _ => ""
  }

  function Successful(status: int): Phrase {
    match status
    case 200 => "OK"
    case 201 => "Created"
    case 202 => "Accepted"
    case 203 => "Non-Authoritative Information"
    case 204 => "No Content"
    case 205 => "Reset Content"
    case 206 => "Partial Content"
    case _ => ""
  }

  function Redirection(status: int): Phrase {
    match status
    case 300 => "Multiple Choices"
    case 301 => "Moved Permanently"
    case 302 => "Found"
    case 303 => "See Other"
    case 304 => "Not Modified"
    case 307 => "Temporary Redirect"
    case 308 => "Permanent Redirect"
    case _ => ""
  }

  function ClientError(status: int): Phrase {
    match status
    case 400 => "Bad Request"
    case 401 => "Unauthorized"
    case 402 => "Payment Required"
    case 403 => "Forbidden"
    case 404 => "Not Found"
    case _ => ""
  }

  function ClientErrorFrom405(status: int): Phrase {
    match status
    case 405 => "Method Not Allowed"
    case 406 => "Not Acceptable"
    case 407 => "Proxy Authentication Required"
    case 408 => "Request Timeout"
    case 409 => "Conflict"
    case _ => ""
  }

  function ClientErrorFrom410(status: int): Phrase {
    match status
    case 410 => "Gone"
    case 411 => "Length Required"
    case 412 => "Precondition Failed"
    case 413 => "Payload Too Large"
    case 414 => "URI Too Long"
    case 415 => "Unsupported Media Type"
    case _ => ""
  }

  function ClientErrorFrom416(status: int): Phrase {
    match status
    case 416 => "Range Not Satisfiable"
    case 417 => "Expectation Failed"
    case 418 => "I'm a teapot"
    case 422 => "Unprocessable Entity"
    case _ => ""
  }

  function ClientErrorFrom425(status: int): Phrase {
    match status
    case 425 => "Too Early"
    case 426 => "Upgrade Required"
    case 428 => "Precondition Required"
    case 429 => "Too Many Requests"
    case _ => ""
  }

  function ServerError(status: int): Phrase {
    match status
    case 500 => "Internal Server Error"
    case 501 => "Not Implemented"
    case 502 => "Bad Gateway"
    case 503 => "Service Unavailable"
    case 504 => "Gateway Timeout"
    case 505 => "HTTP Version Not Supported"
    case _ => ""
  }

  // A status line of the table: the three digits of the code, a blank, and a phrase on the same line.
  ghost predicate SpellsStatus(text: string, status: int) {
    && 100 <= status < 1000 && 4 < |text| < 64
    && text[0] == Digit(status / 100) && text[1] == Digit(status / 10 % 10) && text[2] == Digit(status % 10)
    && text[3] == ' ' && '\n' !in text
  }

  lemma StatusTextSpells(status: int)
    requires StatusText(status) != ""
    ensures SpellsStatus(StatusText(status), status)
  {
  }

  // ---------- Reading back a printed number ----------

  // A printed number is read back, whatever follows it but another digit.
  lemma NumberOfDecimal(n: nat, rest: string)
    requires rest == [] || !IsDigit(rest[0])
    ensures Number(Decimal(n) + rest) == n
  {
    DigitsConcat(Decimal(n), rest, 0);
    DigitsOfDecimal(n);
    assert IsDigit((Decimal(n) + rest)[0]);
  }

  // ---------- The program's objects ----------

  class HTTPRequest {
    var verb: Method
    var uri: string
    var version: Version
    var headers: seq<Header>
    var contentLength: Length
    var body: string

    constructor ()
      ensures Value() == Request(UnknownMethod, "", Http11, [], UNSET, "")
    {
      verb, uri, version, headers, contentLength, body := UnknownMethod, "", Http11, [], UNSET, "";
    }

    ghost function Value(): Request
      reads this
    {
      Request(verb, uri, version, headers, contentLength, body)
    }

    method AddHeader(key: string, value: string, text: string)
      requires value <= text
      modifies this
      ensures Value() == old(Value()).WithHeader(key, value, text)
    {
      if contentLength == UNSET {
        var i := 0;
        while i < |CONTENT_LENGTH| && i < |key| && key[i] == CONTENT_LENGTH[i]
          invariant 0 <= i <= |CONTENT_LENGTH| && i <= |key|
          invariant forall k | 0 <= k < i :: key[k] == CONTENT_LENGTH[k]
        {
          i := i + 1;
        }
        assert i == |CONTENT_LENGTH| <==> NamesContentLength(key);
        if i == |CONTENT_LENGTH| {
          contentLength := ToLength(Atoi(text));
        }
      }
      headers := headers + [Header(key, value)];
    }

    method AppendBody(part: string)
      modifies this`body
      ensures body == old(body) + part
    {
      body := body + part;
    }

    method ToString() returns (ret: string)
      requires Value().Known()
      ensures ret == Value().Print()
    {
      ret := MethodName(verb) + " " + uri + " " + VersionName(version);
      ret := ret + CRLF;
      ghost var first := ret;
      ret := PrintHeaders(ret, headers);
      if contentLength == UNSET {
        ret := PrintHeaders(ret, [Header(CONTENT_LENGTH, Decimal(|body|))]);
      }
      LengthIsLast(Value(), first);
      ret := ret + CRLF;
      ret := ret + body;
    }
  }

  lemma LengthIsLast(r: Request, before: string)
    ensures before + Lines(HeaderLines(r.PrintedHeaders()))
         == before + Lines(HeaderLines(r.headers)) + if r.contentLength == UNSET then
              Lines(HeaderLines([Header(CONTENT_LENGTH, Decimal(|r.body|))])) else []
  {
    if r.contentLength == UNSET {
      var length := [Header(CONTENT_LENGTH, Decimal(|r.body|))];
      LinesConcat(HeaderLines(r.headers), HeaderLines(length));
      assert HeaderLines(r.headers + length) == HeaderLines(r.headers) + HeaderLines(length);
    } else {
      assert r.headers + [] == r.headers;
    }
  }

  method PrintHeaders(before: string, headers: seq<Header>) returns (ret: string)
    ensures ret == before + Lines(HeaderLines(headers))
  {
    ret := before;
    for i := 0 to |headers|
      invariant ret + Lines(HeaderLines(headers[i..])) == before + Lines(HeaderLines(headers))
    {
      NextHeader(ret, headers[i..]);
      assert headers[i..][1..] == headers[i + 1..];
      ret := ret + headers[i].key + ": " + headers[i].value + CRLF;
    }
  }

  lemma NextHeader(before: string, headers: seq<Header>)
    requires headers != []
    ensures before + Lines(HeaderLines(headers))
         == before + headers[0].key + ": " + headers[0].value + CRLF + Lines(HeaderLines(headers[1..]))
  {
    assert HeaderLines(headers)[1..] == HeaderLines(headers[1..]);
  }

  lemma {:induction false} LinesConcat(a: seq<string>, b: seq<string>)
    ensures Lines(a + b) == Lines(a) + Lines(b)
  {
    if a == [] {
      assert a + b == b;
    } else {
      assert (a + b)[1..] == a[1..] + b;
      LinesConcat(a[1..], b);
    }
  }

  class HTTPResponse {
    var status: int
    var version: Version
    var headers: seq<Header>
    var body: string

    constructor ()
      ensures Value() == Response(-1, Http11, [], "")
    {
      status, version, headers, body := -1, Http11, [], "";
    }

    ghost function Value(): Response
      reads this
    {
      Response(status, version, headers, body)
    }

    method AddHeader(key: string, value: string)
      modifies this`headers
      ensures Value() == old(Value()).WithHeader(key, value)
    {
      headers := headers + [Header(key, value)];
    }

    method AppendBody(part: string)
      modifies this`body
      ensures body == old(body) + part
    {
      body := body + part;
    }

    method ToString() returns (ret: string)
      requires Value().Known()
      ensures ret == Value().Print()
    {
      ret := VersionName(version) + " " + StatusText(status);
      assert ret == Value().FirstLine();
      ret := ret + CRLF;
      ret := PrintHeaders(ret, headers);
      ret := ret + CRLF;
      ret := ret + body;
    }
  }
}
