/** What a parsed request means, in terms of the text a client wrote rather than of the parser's own functions. */
module HttpMeaning {
  import opened Bytes
  import opened Deframe
  import opened HttpParser
  import opened HttpRoundTrip

  // ------------------------------------------------------------------ names

  lemma {:induction false} ShortNames()
    ensures GET_NAME == Ascii("GET") && POST_NAME == Ascii("POST") && PUT_NAME == Ascii("PUT")
    ensures HEAD_NAME == Ascii("HEAD") && CRLF == Ascii("\r\n") && CRLFCRLF == Ascii("\r\n\r\n")
  {
  }

  lemma {:induction false} LongNames()
    ensures DELETE_NAME == Ascii("DELETE") && HTTP_10_NAME == Ascii("HTTP/1.0") && HTTP_11_NAME == Ascii("HTTP/1.1")
    ensures CLOSE == Ascii("close")
  {
  }

  lemma {:induction false} HeaderNames()
    ensures CONNECTION == Ascii("connection") && KEEP_ALIVE == Ascii("keep-alive")
  {
  }

  lemma {:induction false} LengthName()
    ensures CONTENT_LENGTH == Ascii("content-length")
  {
  }

  /** A method or version is recognised exactly by its name. */
  lemma {:induction false} MethodIff(s: seq<byte>)
    ensures MethodOf(s) == GET <==> s == Ascii("GET")
    ensures MethodOf(s) == POST <==> s == Ascii("POST")
    ensures MethodOf(s) == PUT <==> s == Ascii("PUT")
    ensures MethodOf(s) == DELETE <==> s == Ascii("DELETE")
    ensures MethodOf(s) == HEAD <==> s == Ascii("HEAD")
  {
    ShortNames();
    LongNames();
  }

  lemma {:induction false} VersionIff(s: seq<byte>)
    ensures VersionOf(s) == HTTP_10 <==> s == Ascii("HTTP/1.0")
    ensures VersionOf(s) == HTTP_11 <==> s == Ascii("HTTP/1.1")
  {
    LongNames();
  }

  // ------------------------------------------------------------------ keys up to case

  /** x is a capital letter and y the small one. */
  predicate SmallOf(x: byte, y: byte) {
    'A' as int <= x as int <= 'Z' as int && y as int - 'a' as int == x as int - 'A' as int
  }

  predicate SameLetter(x: byte, y: byte) { x == y || SmallOf(x, y) || SmallOf(y, x) }

  /** Equal up to the case of ASCII letters. */
  predicate SameKey(a: seq<byte>, b: seq<byte>) {
    |a| == |b| && forall i | 0 <= i < |a| :: SameLetter(a[i], b[i])
  }

  /** Capitals become the small letters, and every other byte stays. */
  lemma {:induction false} LowerIs(s: seq<byte>, i: nat)
    requires i < |s|
    ensures var capital := exists y :: SmallOf(s[i], y);
            (capital ==> SmallOf(s[i], Lower(s)[i])) && (!capital ==> Lower(s)[i] == s[i])
  {
    var x := s[i];
    if 65 <= x <= 90 {
      assert SmallOf(x, x + 32);
    }
  }

  /** Two keys are stored under one name exactly when they are equal up to case. */
  lemma {:induction false} LowerIff(a: seq<byte>, b: seq<byte>)
    ensures Lower(a) == Lower(b) <==> SameKey(a, b)
  {
    if |a| == |b| {
      forall i | 0 <= i < |a| ensures Lower(a)[i] == Lower(b)[i] <==> SameLetter(a[i], b[i]) {}
    }
  }

  // ------------------------------------------------------------------ what a header is

  /** The value of the last field with this key, up to case. */
  function LastValue(fs: seq<Field>, key: seq<byte>): (r: Option<seq<byte>>) {
    if fs == [] then None
    else
      var last := fs[|fs| - 1];
      if SameKey(last.key, key) then Some(last.value) else LastValue(fs[..|fs| - 1], key)
  }

  /** HttpRequest::getHeader: absent counts as empty. */
  function GetHeader(headers: Headers, key: seq<byte>): (r: seq<byte>) {
    var k := Lower(key);
    if k in headers then headers[k] else []
  }

  lemma {:induction false} CollectedSnoc(headers: Headers, fs: seq<Field>, f: Field)
    ensures Collected(headers, fs + [f]) == Collected(headers, fs)[Lower(f.key) := f.value]
    decreases |fs|
  {
    if fs == [] {
      assert [f][1..] == [];
      assert Collected(headers, [f]) == Collected(headers[Lower(f.key) := f.value], []);
      assert fs + [f] == [f];
    } else {
      assert (fs + [f])[1..] == fs[1..] + [f];
      CollectedSnoc(headers[Lower(fs[0].key) := fs[0].value], fs[1..], f);
    }
  }

  /** A key looked up in any case gives the last value written under it in any case. */
  lemma {:induction false} CollectedIs(fs: seq<Field>, key: seq<byte>)
    ensures var h := Collected(map[], fs);
            match LastValue(fs, key)
            case None => Lower(key) !in h
            case Some(v) => Lower(key) in h && h[Lower(key)] == v
    decreases |fs|
  {
    if fs != [] {
      var init, last := fs[..|fs| - 1], fs[|fs| - 1];
      assert fs == init + [last];
      CollectedIs(init, key);
      CollectedSnoc(map[], init, last);
      LowerIff(last.key, key);
    }
  }

  lemma {:induction false} GetHeaderIs(fs: seq<Field>, key: seq<byte>)
    ensures GetHeader(Collected(map[], fs), key) == match LastValue(fs, key) case None => [] case Some(v) => v
  {
    CollectedIs(fs, key);
  }

  /** An HTTP/1.0 request stays open only if it asks to, any other unless it asks not to. */
  lemma {:induction false} KeepAliveIff(d: Draft)
    ensures var value := LastValue(d.headers, Ascii("connection"));
            KeepAlive(Meaning(d)) <==>
            if d.version == Ascii("HTTP/1.0") then value == Some(Ascii("keep-alive")) else value != Some(Ascii("close"))
  {
    VersionIff(d.version);
    HeaderNames();
    LongNames();
    assert Lower(CONNECTION) == CONNECTION;
    CollectedIs(d.headers, CONNECTION);
  }

  // ------------------------------------------------------------------ framing

  /** The length a Content-Length header stands for: what does not fit 64 bits is no length. */
  lemma {:induction false} LengthIs(fs: seq<Field>, n: nat)
    requires LastValue(fs, Ascii("content-length")) == Some(Decimal(n))
    ensures ContentLength(Collected(map[], fs)) == if n < 0x1_0000_0000_0000_0000 then n else 0
  {
    LengthName();
    assert Lower(CONTENT_LENGTH) == CONTENT_LENGTH;
    CollectedIs(fs, CONTENT_LENGTH);
    DecimalReads(n);
    assert IsDigit(Decimal(n)[0]);
  }

  lemma {:induction false} NoLengthIs(fs: seq<Field>)
    requires LastValue(fs, Ascii("content-length")) == None
    ensures ContentLength(Collected(map[], fs)) == 0
  {
    LengthName();
    assert Lower(CONTENT_LENGTH) == CONTENT_LENGTH;
    CollectedIs(fs, CONTENT_LENGTH);
  }

  /** The header block of d on the wire, and whatever follows it. */
  function Opened(d: Draft, rest: seq<byte>): (r: seq<byte>) { HeaderBlock(d) + Ascii("\r\n\r\n") + rest }

  /** The request with the first n bytes after the blank line as its body. */
  function WithBody(d: Draft, rest: seq<byte>, n: nat): (r: Outcome<Request>)
    requires n <= |rest|
  {
    Parsed(Meaning(d.(body := rest[..n])), |HeaderBlock(d)| + 4 + n)
  }

  /**
   Framing, whatever follows: with a Content-Length of n, in any case and the last one if there are several, a request
   takes exactly n bytes after its blank line; it waits for them, is refused above 10 MB, and a length of 2^64 or more
   counts as none. Without the header it takes nothing.
   */
  lemma {:induction false} FramingIs(d: Draft, n: nat, rest: seq<byte>)
    requires GoodHead(d) && LastValue(d.headers, Ascii("content-length")) == Some(Decimal(n))
    ensures ParseOne(Opened(d, rest)) ==
            if n >= 0x1_0000_0000_0000_0000 then WithBody(d, rest, 0)
            else if n > 10 * 1024 * 1024 then Rejected
            else if |rest| < n then Incomplete
            else WithBody(d, rest, n)
  {
    LengthIs(d.headers, n);
    HeadTaken(d, rest);
  }

  lemma {:induction false} NoLengthNoBody(d: Draft, rest: seq<byte>)
    requires GoodHead(d) && LastValue(d.headers, Ascii("content-length")) == None
    ensures ParseOne(Opened(d, rest)) == WithBody(d, rest, 0)
  {
    NoLengthIs(d.headers);
    HeadTaken(d, rest);
  }

  lemma {:induction false} HeadTaken(d: Draft, rest: seq<byte>)
    requires GoodHead(d)
    ensures var length := ContentLength(Collected(map[], d.headers));
            ParseOne(Opened(d, rest)) == if length > MAX_BODY_SIZE then Rejected
                                         else if |rest| < length then Incomplete
                                         else WithBody(d, rest, length)
  {
    var req := LineMeaning(d).(headers := Collected(map[], d.headers));
    ShortNames();
    HeadFound(d, rest);
    HeaderBlockParses(d);
    BodyAfter(HeaderBlock(d), Opened(d, rest), req, rest);
  }

  lemma {:induction false} HeadFound(d: Draft, rest: seq<byte>)
    requires GoodHead(d)
    ensures Find(Opened(d, rest), CRLFCRLF, 0) == Some(|HeaderBlock(d)|)
  {
    ShortNames();
    var e := d.(body := rest);
    BlankLineEndsHeader(e, []);
    assert Opened(d, rest) == Written(e) + [];
  }

  lemma {:induction false} BodyAfter(head: seq<byte>, s: seq<byte>, req: Request, rest: seq<byte>)
    requires s == head + CRLFCRLF + rest && Find(s, CRLFCRLF, 0) == Some(|head|)
    requires ParseHeaderBlock(head) == Some(req)
    ensures var length := ContentLength(req.headers);
            ParseOne(s) == if length > MAX_BODY_SIZE then Rejected
                           else if |rest| < length then Incomplete
                           else Parsed(req.(body := rest[..length]), |head| + 4 + length)
  {
    BlockAt(s, head);
    assert s[|head| + 4..] == rest;
    BodyAt(s, |head| + 4, req, rest, ContentLength(req.headers));
  }

  lemma {:induction false} BlockAt(s: seq<byte>, head: seq<byte>)
    requires Find(s, CRLFCRLF, 0) == Some(|head|) && head <= s
    ensures ParseOne(s) == ParseAfter(s, |head|, ParseHeaderBlock(head))
  {
    assert s[..|head|] == head;
  }

  lemma {:induction false} BodyAt(s: seq<byte>, k: nat, req: Request, rest: seq<byte>, length: nat)
    requires k <= |s| && s[k..] == rest
    ensures ParseBody(s, k, req, length) == if length > MAX_BODY_SIZE then Rejected
                                            else if |rest| < length then Incomplete
                                            else Parsed(req.(body := rest[..length]), k + length)
  {
    if length <= |rest| {
      assert s[k..k + length] == rest[..length];
    }
  }

  // ------------------------------------------------------------------ lines that are no headers, and bad request lines

  lemma {:induction false} JunkSkipped(headers: Headers, a: seq<seq<byte>>, junk: seq<byte>, b: seq<seq<byte>>)
    requires Without(junk, COLON)
    ensures AddHeaders(headers, a + [junk] + b) == AddHeaders(headers, a + b)
    decreases |a|
  {
    if a == [] {
      var all := a + [junk] + b;
      assert all[0] == junk && all[1..] == b && a + b == b;
      Whole(junk);
      SkipPart(junk, junk, 0, [COLON]);
      assert Find(junk, [COLON], |junk|).None?;
    } else {
      assert (a + [junk] + b)[1..] == a[1..] + [junk] + b && (a + b)[1..] == a[1..] + b;
      assert (a + [junk] + b)[0] == a[0] == (a + b)[0];
      JunkSkipped(if a[0] == [] then headers else AddHeader(headers, a[0]), a[1..], junk, b);
    }
  }

  lemma {:induction false} PlainAppend(a: seq<seq<byte>>, b: seq<seq<byte>>)
    requires AllPlain(a) && AllPlain(b)
    ensures AllPlain(a + b)
  {
    if a == [] {
      assert a + b == b;
    } else {
      assert (a + b)[1..] == a[1..] + b;
      PlainAppend(a[1..], b);
    }
  }

  lemma {:induction false} LinesTaken(line: seq<byte>, ls: seq<seq<byte>>)
    requires Without(line, 13) && AllPlain(ls)
    ensures ParseHeaderBlock(line + Broken(ls)) == WithHeaders(line, ParseRequestLine(line), ls)
  {
    BlockLines(line + Broken(ls), line, ls, |line|);
  }

  /** A line without a colon makes no difference, wherever it stands. */
  lemma {:induction false} JunkIgnored(line: seq<byte>, a: seq<seq<byte>>, junk: seq<byte>, b: seq<seq<byte>>)
    requires Without(line, 13) && AllPlain(a) && AllPlain(b) && Plain(junk) && Without(junk, ':' as int as byte)
    ensures ParseHeaderBlock(line + Broken(a + [junk] + b)) == ParseHeaderBlock(line + Broken(a + b))
  {
    assert [junk][1..] == [];
    PlainAppend(a, [junk]);
    PlainAppend(a + [junk], b);
    PlainAppend(a, b);
    LinesTaken(line, a + [junk] + b);
    LinesTaken(line, a + b);
    JunkSkipped(map[], a, junk, b);
  }

  /** Not two spaces: at most one, with nothing but other bytes around it. */
  ghost predicate FewSpaces(line: seq<byte>) {
    Without(line, ' ' as int as byte) ||
    exists k :: 0 <= k < |line| && Without(line[..k], ' ' as int as byte) && Without(line[k + 1..], ' ' as int as byte)
  }

  lemma {:induction false} FewSpacesFail(line: seq<byte>)
    requires FewSpaces(line)
    ensures ParseRequestLine(line).None?
  {
    Whole(line);
    if Without(line, SPACE) {
      SkipPart(line, line, 0, [SPACE]);
    } else {
      var k :| 0 <= k < |line| && Without(line[..k], SPACE) && Without(line[k + 1..], SPACE);
      var tail := line[k + 1..];
      assert MatchesAt(line, line[..k], 0) && MatchesAt(line, tail, k + 1);
      SkipPart(line, line[..k], 0, [SPACE]);
      SkipPart(line, tail, k + 1, [SPACE]);
    }
  }

  /** A request whose first line has no two spaces, or is longer than 8192 bytes, is refused, whatever follows. */
  lemma {:induction false} BadLineRejected(line: seq<byte>, ls: seq<seq<byte>>, rest: seq<byte>)
    requires Without(line, 13) && AllPlain(ls) && (FewSpaces(line) || |line| > 8192)
    ensures ParseOne(line + Broken(ls) + CRLFCRLF + rest) == Rejected
  {
    var head := line + Broken(ls);
    var s := head + CRLFCRLF + rest;
    Whole(s);
    PartsMatch(s, head + CRLFCRLF, rest, 0);
    PartsMatch(s, head, CRLFCRLF, 0);
    PartsMatch(s, line, Broken(ls), 0);
    BlankLineAfter(s, line, ls, |line|);
    LinesTaken(line, ls);
    if FewSpaces(line) {
      FewSpacesFail(line);
    }
    BlockAt(s, head);
  }

  // ------------------------------------------------------------------ numbers

  lemma {:induction false} WhiteSkipped(white: seq<byte>, s: seq<byte>)
    requires forall i | 0 <= i < |white| :: white[i] as int == ' ' as int || 9 <= white[i] <= 13
    requires s == [] || !IsSpace(s[0])
    ensures SkipWhite(white + s) == s
    decreases |white|
  {
    if white == [] {
      assert white + s == s;
    } else {
      assert (white + s)[1..] == white[1..] + s;
      WhiteSkipped(white[1..], s);
    }
  }

  lemma {:induction false} DigitsEnd(digits: seq<byte>, tail: seq<byte>, sofar: nat)
    requires (forall i | 0 <= i < |digits| :: IsDigit(digits[i])) && (tail == [] || !IsDigit(tail[0]))
    ensures LeadingNumber(digits + tail, sofar) == LeadingNumber(digits, sofar)
    decreases |digits|
  {
    if digits == [] {
      assert digits + tail == tail;
    } else {
      assert (digits + tail)[1..] == digits[1..] + tail;
      DigitsEnd(digits[1..], tail, 10 * sofar + (digits[0] as int - 48));
    }
  }

  /** stoul on white space, a sign, the digits of n and anything else: it throws from 2^64 on, and a minus wraps. */
  lemma {:induction false} StoULIs(white: seq<byte>, sign: seq<byte>, n: nat, tail: seq<byte>)
    requires forall i | 0 <= i < |white| :: white[i] as int == ' ' as int || 9 <= white[i] <= 13
    requires sign == [] || sign == Ascii("+") || sign == Ascii("-")
    requires tail == [] || !IsDigit(tail[0])
    ensures StoUL(white + sign + Decimal(n) + tail) ==
            if n >= 0x1_0000_0000_0000_0000 then None
            else if sign == Ascii("-") then Some((0x1_0000_0000_0000_0000 - n) % 0x1_0000_0000_0000_0000)
            else Some(n)
  {
    assert Ascii("+") == [43] && Ascii("-") == [45];
    var digits, v := Decimal(n) + tail, white + sign + Decimal(n) + tail;
    assert v == white + (sign + digits);
    assert digits[0] == Decimal(n)[0];
    DigitsEnd(Decimal(n), tail, 0);
    DecimalReads(n);
    WhiteSkipped(white, sign + digits);
    if sign == [] {
      assert sign + digits == digits;
      UnsignedIs(v, digits, n);
    } else {
      SignedIs(v, sign[0], digits, n);
    }
  }

  lemma {:induction false} UnsignedIs(v: seq<byte>, digits: seq<byte>, n: nat)
    requires SkipWhite(v) == digits && digits != [] && IsDigit(digits[0]) && LeadingNumber(digits, 0) == n
    ensures StoUL(v) == if n >= 0x1_0000_0000_0000_0000 then None else Some(n)
  {
  }

  lemma {:induction false} SignedIs(v: seq<byte>, sign: byte, digits: seq<byte>, n: nat)
    requires SkipWhite(v) == [sign] + digits && (sign == 43 || sign == 45)
    requires digits != [] && IsDigit(digits[0]) && LeadingNumber(digits, 0) == n
    ensures StoUL(v) == if n >= 0x1_0000_0000_0000_0000 then None
                        else if sign == 45 then Some((0x1_0000_0000_0000_0000 - n) % 0x1_0000_0000_0000_0000)
                        else Some(n)
  {
    assert ([sign] + digits)[1..] == digits;
  }

  // ------------------------------------------------------------------ one request written out

  const HELD: seq<byte> := [67, 111, 110, 116, 101, 110, 116, 45, 76, 101, 110, 103, 116, 104] // Content-Length

  /** POST /a?b with one header. */
  function Posted(): (d: Draft) { Draft(POST_NAME, [47, 97], Some([98]), HTTP_11_NAME, [Field(HELD, 1, [50])], []) }

  lemma {:induction false} PostedLine(d: Draft)
    requires d.verb == POST_NAME && d.path == [47, 97] && d.query == Some([98]) && d.version == HTTP_11_NAME
    ensures Without(d.verb, SPACE) && Without(Target(d), SPACE) && Without(d.path, QUESTION)
    ensures Without(RequestLine(d), 13) && |RequestLine(d)| <= MAX_REQUEST_LINE
  {
    assert Target(d) == [47, 97, 63, 98];
    PostedText(d);
  }

  lemma {:induction false} PostedText(d: Draft)
    requires d.verb == POST_NAME && d.path == [47, 97] && d.query == Some([98]) && d.version == HTTP_11_NAME
    ensures RequestLine(d) == [80, 79, 83, 84, 32, 47, 97, 63, 98, 32, 72, 84, 84, 80, 47, 49, 46, 49]
  {
    assert Target(d) == [47, 97, 63, 98];
  }

  lemma {:induction false} TextIs()
    ensures Ascii("POST /a?b HTTP/1.1") == [80, 79, 83, 84, 32, 47, 97, 63, 98, 32, 72, 84, 84, 80, 47, 49, 46, 49]
  {
  }

  lemma {:induction false} PostedField(f: Field)
    requires f == Field(HELD, 1, [50])
    ensures GoodField(f) && SameKey(f.key, CONTENT_LENGTH) && f.value == Decimal(2) == Ascii("2")
  {
  }

  lemma {:induction false} PostedFieldText(f: Field)
    requires f == Field(HELD, 1, [50])
    ensures Line(f) == Ascii("Content-Length: 2")
  {
    assert Spaces(1) == [32];
    assert Line(f) == [67, 111, 110, 116, 101, 110, 116, 45, 76, 101, 110, 103, 116, 104, 58, 32, 50];
    FieldTextIs();
  }

  lemma {:induction false} FieldTextIs()
    ensures Ascii("Content-Length: 2") ==
            [67, 111, 110, 116, 101, 110, 116, 45, 76, 101, 110, 103, 116, 104, 58, 32, 50]
  {
  }

  lemma {:induction false} PostedHead(d: Draft)
    requires d == Posted()
    ensures GoodHead(d) && LastValue(d.headers, Ascii("content-length")) == Some(Decimal(2))
  {
    var f := d.headers[0];
    assert d.headers[1..] == [];
    PostedLine(d);
    PostedField(f);
    LengthName();
  }

  lemma {:induction false} PostedBlock(d: Draft)
    requires d == Posted()
    ensures HeaderBlock(d) == Ascii("POST /a?b HTTP/1.1") + Ascii("\r\n") + Ascii("Content-Length: 2")
  {
    var f := d.headers[0];
    assert d.headers[1..] == [];
    PostedText(d);
    TextIs();
    PostedFieldText(f);
    ShortNames();
    assert LineList(d.headers) == [Line(f)] + [];
    assert Broken(LineList(d.headers)) == CRLF + Line(f) + Broken([]);
  }

  /** A request byte by byte: a header in capitals and small letters frames the body. */
  lemma {:induction false} PostRead(rest: seq<byte>)
    ensures var head := Ascii("POST /a?b HTTP/1.1") + Ascii("\r\n") + Ascii("Content-Length: 2");
            ParseOne(head + Ascii("\r\n\r\n") + (Ascii("hi") + rest)) ==
            Parsed(Request(POST, HTTP_11, Ascii("/a"), Ascii("b"),
                           map[Ascii("content-length") := Ascii("2")], Ascii("hi")), |head| + 6)
  {
    var d, hi := Posted(), Ascii("hi");
    PostedHead(d);
    PostedBlock(d);
    FramingIs(d, 2, hi + rest);
    assert (hi + rest)[..2] == hi;
    PostedMeaning(d.(body := hi), hi);
  }

  lemma {:induction false} PostedMeaning(d: Draft, body: seq<byte>)
    requires d == Posted().(body := body)
    ensures Meaning(d) ==
            Request(POST, HTTP_11, Ascii("/a"), Ascii("b"), map[Ascii("content-length") := Ascii("2")], body)
  {
    var f := d.headers[0];
    assert d.headers[1..] == [];
    LengthName();
    PostedField(f);
    LowerIff(f.key, CONTENT_LENGTH);
    assert Lower(CONTENT_LENGTH) == CONTENT_LENGTH;
    assert Collected(map[], d.headers) == map[CONTENT_LENGTH := f.value];
    assert Ascii("/a") == [47, 97] && Ascii("b") == [98];
  }
}
