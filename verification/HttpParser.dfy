/** Parsing one HTTP request at the front of a byte string. */
module HttpParser {
  import opened Bytes
  import opened Deframe

  datatype HttpMethod = GET | POST | PUT | DELETE | HEAD | UNKNOWN_METHOD
  datatype HttpVersion = HTTP_10 | HTTP_11 | UNKNOWN_VERSION
  type Headers = map<seq<byte>, seq<byte>>
  datatype Request = Request(verb: HttpMethod, version: HttpVersion, path: seq<byte>, query: seq<byte>,
                             headers: Headers, body: seq<byte>)

  const MAX_BODY_SIZE: nat := 10 * 1024 * 1024
  const MAX_REQUEST_LINE: nat := 8192
  const ULONG_MAX: nat := 0xFFFF_FFFF_FFFF_FFFF

  const SPACE: byte := 32
  const COLON: byte := 58
  const QUESTION: byte := 63
  const CRLF: seq<byte> := [13, 10]
  const CRLFCRLF: seq<byte> := [13, 10, 13, 10]

  // Names, as ASCII codes
  const GET_NAME: seq<byte> := [71, 69, 84] // GET
  const POST_NAME: seq<byte> := [80, 79, 83, 84] // POST
  const PUT_NAME: seq<byte> := [80, 85, 84] // PUT
  const DELETE_NAME: seq<byte> := [68, 69, 76, 69, 84, 69] // DELETE
  const HEAD_NAME: seq<byte> := [72, 69, 65, 68] // HEAD
  const HTTP_10_NAME: seq<byte> := [72, 84, 84, 80, 47, 49, 46, 48] // HTTP/1.0
  const HTTP_11_NAME: seq<byte> := [72, 84, 84, 80, 47, 49, 46, 49] // HTTP/1.1
  // content-length
  const CONTENT_LENGTH: seq<byte> := [99, 111, 110, 116, 101, 110, 116, 45, 108, 101, 110, 103, 116, 104]
  const CONNECTION: seq<byte> := [99, 111, 110, 110, 101, 99, 116, 105, 111, 110] // connection
  const KEEP_ALIVE: seq<byte> := [107, 101, 101, 112, 45, 97, 108, 105, 118, 101] // keep-alive
  const CLOSE: seq<byte> := [99, 108, 111, 115, 101] // close

  // ------------------------------------------------------------------ request line and headers

  function MethodOf(s: seq<byte>): (m: HttpMethod) {
    if s == GET_NAME then GET
    else if s == POST_NAME then POST
    else if s == PUT_NAME then PUT
    else if s == DELETE_NAME then DELETE
    else if s == HEAD_NAME then HEAD
    else UNKNOWN_METHOD
  }

  function VersionOf(s: seq<byte>): (v: HttpVersion) {
    if s == HTTP_10_NAME then HTTP_10 else if s == HTTP_11_NAME then HTTP_11 else UNKNOWN_VERSION
  }

  function ParseRequestLine(line: seq<byte>): (r: Option<Request>) {
    match Find(line, [SPACE], 0)
    case None => None
    case Some(methodEnd) =>
      match Find(line, [SPACE], methodEnd + 1)
      case None => None
      case Some(pathEnd) =>
        var fullPath := line[methodEnd + 1..pathEnd];
        var (path, query) :=
          match Find(fullPath, [QUESTION], 0)
          case None => (fullPath, [])
          case Some(q) => (fullPath[..q], fullPath[q + 1..]);
        Some(Request(MethodOf(line[..methodEnd]), VersionOf(line[pathEnd + 1..]), path, query, map[], []))
  }

  /** std::tolower in the C locale. */
  function Lower(s: seq<byte>): (r: seq<byte>)
    ensures |r| == |s|
  {
    seq(|s|, i requires 0 <= i < |s| => if 65 <= s[i] <= 90 then s[i] + 32 else s[i])
  }

  /** Without its leading spaces; a string of nothing but spaces stays as it is. */
  function SkipSpaces(s: seq<byte>): (r: seq<byte>) {
    if s != [] && s[0] == SPACE then SkipSpaces(s[1..]) else s
  }

  function TrimFront(s: seq<byte>): (r: seq<byte>) {
    if SkipSpaces(s) == [] then s else SkipSpaces(s)
  }

  /** One header line; a line without a colon is ignored, a repeated key overwrites. */
  function AddHeader(headers: Headers, line: seq<byte>): (r: Headers) {
    match Find(line, [COLON], 0)
    case None => headers
    case Some(colon) => headers[Lower(line[..colon]) := TrimFront(line[colon + 1..])]
  }

  /** Where the line that starts at pos ends: at its line break, or with the block. */
  function LineEnd(block: seq<byte>, pos: nat): (r: nat)
    requires pos <= |block|
    ensures pos <= r <= |block|
  {
    match Find(block, CRLF, pos)
    case None => |block|
    case Some(e) => e
  }

  /** The lines of a block from pos on. */
  function LinesFrom(block: seq<byte>, pos: nat): (r: seq<seq<byte>>)
    decreases |block| - pos
  {
    if pos >= |block| then []
    else [block[pos..LineEnd(block, pos)]] + LinesFrom(block, LineEnd(block, pos) + 2)
  }

  /** All header lines in turn; empty ones are skipped. */
  function AddHeaders(headers: Headers, lines: seq<seq<byte>>): (r: Headers)
    decreases |lines|
  {
    if lines == [] then headers
    else AddHeaders(if lines[0] == [] then headers else AddHeader(headers, lines[0]), lines[1..])
  }

  /** HttpCore::parseHeader: everything before the blank line. */
  function ParseHeaderBlock(header: seq<byte>): (r: Option<Request>) {
    var lineEnd := LineEnd(header, 0);
    WithHeaders(header[..lineEnd], ParseRequestLine(header[..lineEnd]), LinesFrom(header, lineEnd + 2))
  }

  function WithHeaders(line: seq<byte>, req: Option<Request>, lines: seq<seq<byte>>): (r: Option<Request>) {
    if |line| > MAX_REQUEST_LINE || req.None? then None
    else Some(req.value.(headers := AddHeaders(map[], lines)))
  }

  // ------------------------------------------------------------------ content length

  predicate IsSpace(b: byte) { b == SPACE || 9 <= b <= 13 }

  function SkipWhite(s: seq<byte>): (r: seq<byte>) {
    if s != [] && IsSpace(s[0]) then SkipWhite(s[1..]) else s
  }

  /** The number the leading digits of s stand for, after the digits already read. */
  function LeadingNumber(s: seq<byte>, sofar: nat): (n: nat) {
    if s == [] || !IsDigit(s[0]) then sofar else LeadingNumber(s[1..], 10 * sofar + (s[0] as int - 48))
  }

  /** std::stoul: None where it throws. A minus sign negates modulo 2^64. */
  function StoUL(v: seq<byte>): (r: Option<nat>) {
    var s := SkipWhite(v);
    var signed := s != [] && (s[0] == 43 || s[0] == 45);
    var digits := if signed then s[1..] else s;
    if digits == [] || !IsDigit(digits[0]) then None
    else
      var n := LeadingNumber(digits, 0);
      if n > ULONG_MAX then None
      else if signed && s[0] == 45 then Some((ULONG_MAX + 1 - n) % (ULONG_MAX + 1))
      else Some(n)
  }

  /** HttpRequest::contentLength: absent or unreadable counts as zero. */
  function ContentLength(headers: Headers): (n: nat) {
    var key := CONTENT_LENGTH;
    if key !in headers || headers[key] == [] then 0
    else match StoUL(headers[key]) case None => 0 case Some(n) => n
  }

  predicate KeepAlive(req: Request) {
    var key := CONNECTION;
    var value := if key in req.headers then req.headers[key] else [];
    if req.version == HTTP_10 then value == KEEP_ALIVE else value != CLOSE
  }

  // ------------------------------------------------------------------ one request

  /** What both parseRequest overloads compute. */
  function ParseOne(s: seq<byte>): (r: Outcome<Request>) {
    match Find(s, CRLFCRLF, 0)
    case None => if |s| > MAX_REQUEST_LINE then Rejected else Incomplete
    case Some(end) => ParseAfter(s, end, ParseHeaderBlock(s[..end]))
  }

  /** The verdict once the header block, which ends at index end, is there. */
  function ParseAfter(s: seq<byte>, end: nat, head: Option<Request>): (r: Outcome<Request>)
    requires end + 4 <= |s|
  {
    match head
    case None => Rejected
    case Some(req) => ParseBody(s, end + 4, req, ContentLength(req.headers))
  }

  function ParseBody(s: seq<byte>, headerLen: nat, req: Request, length: nat): (r: Outcome<Request>)
    requires headerLen <= |s|
  {
    if length > MAX_BODY_SIZE then Rejected
    else if |s| < headerLen + length then Incomplete
    else Parsed(req.(body := s[headerLen..headerLen + length]), headerLen + length)
  }

  lemma {:induction false} BodyStable(s: seq<byte>, t: seq<byte>, headerLen: nat, req: Request, length: nat)
    requires headerLen <= |s|
    ensures var r := ParseBody(s, headerLen, req, length);
            && (!r.Incomplete? ==> ParseBody(s + t, headerLen, req, length) == r)
            && (r.Parsed? ==> headerLen <= r.consumed <= |s| && ParseBody(s[..r.consumed], headerLen, req, length) == r)
  {
    var c := headerLen + length;
    if c <= |s| {
      assert (s + t)[headerLen..c] == s[headerLen..c] == s[..c][headerLen..c];
    }
  }

  lemma {:induction false} AfterStable(s: seq<byte>, t: seq<byte>, end: nat, head: Option<Request>)
    requires end + 4 <= |s|
    ensures !ParseAfter(s, end, head).Incomplete? ==> ParseAfter(s + t, end, head) == ParseAfter(s, end, head)
    ensures var r := ParseAfter(s, end, head);
            r.Parsed? ==> end + 4 <= r.consumed <= |s| && ParseAfter(s[..r.consumed], end, head) == r
  {
    if head.Some? {
      BodyStable(s, t, end + 4, head.value, ContentLength(head.value.headers));
    }
  }

  lemma {:induction false} ParseOneTight(s: seq<byte>)
    ensures Tight(ParseOne, s)
  {
    if ParseOne(s).Parsed? {
      var end, c := Find(s, CRLFCRLF, 0).value, ParseOne(s).consumed;
      AfterStable(s, [], end, ParseHeaderBlock(s[..end]));
      FindInPrefix(s, c, CRLFCRLF, 0);
      assert s[..c][..end] == s[..end];
    }
  }

  /** Once the blank line has arrived, only the length of the body can still change the verdict. */
  lemma {:induction false} ParseOneKeeps(s: seq<byte>, t: seq<byte>)
    requires Find(s, CRLFCRLF, 0).Some?
    ensures !ParseOne(s).Incomplete? ==> ParseOne(s + t) == ParseOne(s)
  {
    FindStable(s, t, CRLFCRLF, 0);
    var end := Find(s, CRLFCRLF, 0).value;
    assert (s + t)[..end] == s[..end];
    AfterStable(s, t, end, ParseHeaderBlock(s[..end]));
  }

  lemma {:induction false} ParseOneStable()
    ensures Stable(ParseOne)
  {
    forall s ensures Tight(ParseOne, s) { ParseOneTight(s); }
    forall s, t ensures Keeps(ParseOne, s, t) {
      if ParseOne(s).Parsed? {
        ParseOneKeeps(s, t);
      }
    }
  }
}
