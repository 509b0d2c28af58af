/** The HTTP pipeline loop over a connection's input buffer, and what it makes of a chunked stream. */
module HttpServer {
  import opened Bytes
  import opened Deframe
  import opened HttpParser
  import opened HttpRoundTrip
  import NetBuffer

  /** A deferred response or a connection that is not kept alive leaves the loop; the next delivery enters it again. */
  function Dispose(deferred: Request -> bool, req: Request): (r: Disposition) {
    if deferred(req) || !KeepAlive(req) then Return else Continue
  }

  function Disposer(deferred: Request -> bool): (d: Request -> Disposition) {
    req => Dispose(deferred, req)
  }

  // ------------------------------------------------------------------ chunking

  /**
   Chunking changes neither the requests handled nor the leftover, exactly when only the last request leaves the loop.
   */
  lemma {:induction false} HttpChunkingIrrelevantIff(deferred: Request -> bool, s: seq<byte>)
    ensures var d := Disposer(deferred);
            Settled(d, Split(ParseOne, s)) <==>
            forall chunks | Concat(chunks) == s ::
              SameRun(DeliverAll(ParseOne, d, Start(), chunks), DeliverAll(ParseOne, d, Start(), [s]))
  {
    ParseOneStable();
    ChunkingIrrelevantIff(ParseOne, Disposer(deferred), s);
  }

  /**
   The size limit is only looked at while the blank line is missing, so a cut inside a long header
   block can be rejected although the whole is not. Header blocks of this length cannot be cut so.
   */
  ghost predicate HeadersFit(s: seq<byte>)
    decreases |s|
  {
    match Find(s, CRLFCRLF, 0)
    case None => true
    case Some(end) => end + 4 <= 8193 && (Takes(ParseOne, s) ==> HeadersFit(s[ParseOne(s).consumed..]))
  }

  /** When a prefix that does not reach the first request's end is rejected. */
  lemma {:induction false} CutInFirst(s: seq<byte>, k: nat)
    requires k <= |s| && !ParseOne(s).Rejected? && (ParseOne(s).Parsed? ==> k < ParseOne(s).consumed)
    ensures !ParseOne(s[..k]).Parsed?
    ensures ParseOne(s[..k]).Rejected? <==> Find(s[..k], CRLFCRLF, 0).None? && k > MAX_REQUEST_LINE
  {
    var a := s[..k];
    assert a + s[k..] == s;
    if Find(a, CRLFCRLF, 0).Some? {
      ParseOneKeeps(a, s[k..]);
      ParseOneTight(a);
    }
  }

  /** Some cut before the end of the first request is rejected exactly when its header block is too long. */
  lemma {:induction false} CutInFirstIff(s: seq<byte>)
    requires !ParseOne(s).Rejected?
    ensures FirstCutRejects(ParseOne, s) <==>
            Find(s, CRLFCRLF, 0).Some? && Find(s, CRLFCRLF, 0).value + 4 > MAX_REQUEST_LINE + 1
  {
    ParseOneTight(s);
    forall k | 0 <= k <= |s| && (ParseOne(s).Parsed? ==> k < ParseOne(s).consumed) && ParseOne(s[..k]).Rejected?
      ensures Find(s, CRLFCRLF, 0).Some? && Find(s, CRLFCRLF, 0).value + 4 > MAX_REQUEST_LINE + 1
    {
      CutInFirst(s, k);
      FindInPrefix(s, k, CRLFCRLF, 0);
    }
    if Find(s, CRLFCRLF, 0).Some? && Find(s, CRLFCRLF, 0).value + 4 > MAX_REQUEST_LINE + 1 {
      var k := MAX_REQUEST_LINE + 1;
      CutInFirst(s, k);
      FindInPrefix(s, k, CRLFCRLF, 0);
      assert ParseOne(s[..k]).Rejected?;
    }
  }

  lemma {:induction false} SomeCutRejectsIff(d: Request -> Disposition, s: seq<byte>)
    requires Steady(d, Split(ParseOne, s)) && !Loop(ParseOne, d, s).rejected
    ensures SomeCutRejects(ParseOne, d, s) <==> !HeadersFit(s)
    decreases |s|
  {
    ParseOneTight(s);
    ParseOneStable();
    CutInFirstIff(s);
    if ParseOne(s).Parsed? {
      var rest := s[ParseOne(s).consumed..];
      SteadyFirst(d, s, rest);
      SomeCutRejectsIff(d, rest);
    }
    SomeCutStep(ParseOne, d, s);
  }

  lemma {:induction false} SteadyFirst(d: Request -> Disposition, s: seq<byte>, rest: seq<byte>)
    requires Steady(d, Split(ParseOne, s)) && Takes(ParseOne, s) && rest == s[ParseOne(s).consumed..]
    ensures d(ParseOne(s).msg) == Continue && Steady(d, Split(ParseOne, rest))
    ensures Loop(ParseOne, d, s).rejected == Loop(ParseOne, d, rest).rejected
  {
    assert Split(ParseOne, s)[0] == ParseOne(s).msg;
    assert Split(ParseOne, s)[1..] == Split(ParseOne, rest);
  }

  /**
   While every request keeps the loop going: whether a stream is answered with an error depends on
   its chunking, unless it is answered so in one delivery too, or all its header blocks fit.
   */
  lemma {:induction false} HttpRejectionIff(deferred: Request -> bool, s: seq<byte>)
    requires Steady(Disposer(deferred), Split(ParseOne, s))
    ensures var d := Disposer(deferred);
            Loop(ParseOne, d, s).rejected || HeadersFit(s) <==>
            forall chunks | Concat(chunks) == s ::
              DeliverAll(ParseOne, d, Start(), chunks).rejected == DeliverAll(ParseOne, d, Start(), [s]).rejected
  {
    var d := Disposer(deferred);
    ParseOneStable();
    OneDelivery(ParseOne, d, s);
    if Loop(ParseOne, d, s).rejected {
      forall chunks | Concat(chunks) == s ensures DeliverAll(ParseOne, d, Start(), chunks).rejected {
        assert [] + Concat(chunks) == s;
        assert !ParseOne([]).Rejected? by { assert Find([], CRLFCRLF, 0).None?; }
        NothingInNothing(ParseOne);
        WholeRejectionSeen(ParseOne, d, Start(), [], chunks);
      }
    } else {
      SomeCutRejectsIff(d, s);
      NoChunkingRejectsIff(ParseOne, d, s);
    }
  }

  /** Requests written back to back. */
  ghost function AllWritten(drafts: seq<Draft>): (r: seq<byte>) {
    if drafts == [] then [] else Written(drafts[0]) + AllWritten(drafts[1..])
  }

  ghost function Meanings(drafts: seq<Draft>): (r: seq<Request>) {
    if drafts == [] then [] else [Meaning(drafts[0])] + Meanings(drafts[1..])
  }

  ghost predicate AllGoodDrafts(drafts: seq<Draft>) {
    drafts == [] || (Good(drafts[0]) && AllGoodDrafts(drafts[1..]))
  }

  lemma {:induction false} DraftsSplit(d: Request -> Disposition, drafts: seq<Draft>)
    requires AllGoodDrafts(drafts) && Steady(d, Meanings(drafts))
    ensures Split(ParseOne, AllWritten(drafts)) == Meanings(drafts)
    ensures Loop(ParseOne, d, AllWritten(drafts)) == Run(Meanings(drafts), [], true, false)
  {
    if drafts == [] {
      assert Find([], CRLFCRLF, 0).None?;
    } else {
      var s, first, rest := AllWritten(drafts), Written(drafts[0]), AllWritten(drafts[1..]);
      WrittenParses(drafts[0], rest);
      ParseOneTight(s);
      assert s[|first|..] == rest;
      assert Meanings(drafts)[0] == Meaning(drafts[0]);
      assert Meanings(drafts)[1..] == Meanings(drafts[1..]);
      DraftsSplit(d, drafts[1..]);
    }
  }

  /**
   End to end: well-formed pipelined requests, cut anywhere, are handled in order, each once and
   whole; and if their header blocks fit, nothing is ever answered with an error.
   */
  lemma {:induction false} RequestsArrive(deferred: Request -> bool, drafts: seq<Draft>, chunks: seq<seq<byte>>)
    requires AllGoodDrafts(drafts) && Steady(Disposer(deferred), Meanings(drafts))
    requires Concat(chunks) == AllWritten(drafts)
    ensures var r := DeliverAll(ParseOne, Disposer(deferred), Start(), chunks);
            && r.msgs == Meanings(drafts) && r.rest == [] && r.open
            && (HeadersFit(AllWritten(drafts)) ==> !r.rejected)
  {
    var d := Disposer(deferred);
    DraftsSplit(d, drafts);
    SteadySettled(d, Meanings(drafts));
    HttpChunkingIrrelevantIff(deferred, AllWritten(drafts));
    HttpRejectionIff(deferred, AllWritten(drafts));
    OneDelivery(ParseOne, d, AllWritten(drafts));
  }

  // ------------------------------------------------------------------ a stream whose chunking matters

  /** GET / with one header of 9000 bytes. */
  function LongRequest(): (d: Draft) {
    Draft(GET_NAME, [47], None, HTTP_11_NAME, [Field([120], 1, seq(9000, i => 97))], [])
  }

  lemma {:induction false} LongRequestGood()
    ensures Good(LongRequest()) && KeepAlive(Meaning(LongRequest())) && |HeaderBlock(LongRequest())| > 9000
  {
    var d := LongRequest();
    var f := d.headers[0];
    assert d.headers[1..] == [] && |f.value| == 9000;
    assert GoodField(f);
    RootLine(d);
    assert Lower(f.key) == [120];
    assert Collected(map[], d.headers) == map[[120] := f.value];
    assert LineList(d.headers) == [Line(f)] + [];
    assert Broken(LineList(d.headers)) == CRLF + Line(f) + Broken([]);
  }

  lemma {:induction false} RootLine(d: Draft)
    requires d.verb == GET_NAME && d.path == [47] && d.query == None && d.version == HTTP_11_NAME
    ensures Without(d.verb, SPACE) && Without(Target(d), SPACE) && Without(d.path, QUESTION)
    ensures Without(RequestLine(d), 13) && |RequestLine(d)| <= MAX_REQUEST_LINE
  {
    assert RequestLine(d) == [71, 69, 84, 32, 47, 32, 72, 84, 84, 80, 47, 49, 46, 49];
  }

  /** In one piece the request is handled; some other chunking of the same bytes is answered with an error. */
  lemma {:induction false} ChunkingMatters(deferred: Request -> bool)
    requires !deferred(Meaning(LongRequest()))
    ensures var (s, d) := (Written(LongRequest()), Disposer(deferred));
            && Loop(ParseOne, d, s) == Run([Meaning(LongRequest())], [], true, false)
            && !HeadersFit(s)
            && exists chunks :: Concat(chunks) == s && DeliverAll(ParseOne, d, Start(), chunks).rejected
  {
    var long, d := LongRequest(), Disposer(deferred);
    var s := Written(long);
    LongRequestGood();
    BlankLineEndsHeader(long, []);
    assert s + [] == s;
    OneRequest(d, long);
    HttpRejectionIff(deferred, s);
    OneDelivery(ParseOne, d, s);
  }

  lemma {:induction false} OneRequest(d: Request -> Disposition, draft: Draft)
    requires Good(draft) && d(Meaning(draft)) == Continue
    ensures Loop(ParseOne, d, Written(draft)) == Run([Meaning(draft)], [], true, false)
    ensures Split(ParseOne, Written(draft)) == [Meaning(draft)]
  {
    var drafts := [draft];
    assert drafts[1..] == [] && AllWritten([]) == [] && Meanings([]) == [];
    assert AllWritten(drafts) == Written(draft) + [] == Written(draft);
    assert Meanings(drafts) == [Meaning(draft)] + [] == [Meaning(draft)];
    DraftsSplit(d, drafts);
  }

  // ------------------------------------------------------------------ a stream that is not settled

  /** GET / with or without Connection: close. */
  function Get(closes: bool): (d: Draft) {
    Draft(GET_NAME, [47], None, HTTP_11_NAME, if closes then [Field(CONNECTION, 1, CLOSE)] else [], [])
  }

  lemma {:induction false} GetGood(closes: bool)
    ensures Good(Get(closes)) && KeepAlive(Meaning(Get(closes))) == !closes
  {
    var d := Get(closes);
    RootLine(d);
    if closes {
      var f := d.headers[0];
      assert d.headers[1..] == [] && GoodField(f);
      assert Lower(CONNECTION) == CONNECTION;
      assert Collected(map[], d.headers) == map[CONNECTION := CLOSE];
    } else {
      assert Collected(map[], d.headers) == map[];
    }
  }

  /**
   A request that asks to close and one after it: delivered together only the first is handled, delivered apart both.
   */
  lemma {:induction false} CloseThenGet(deferred: Request -> bool)
    ensures var (d, a, b) := (Disposer(deferred), Written(Get(true)), Written(Get(false)));
            && DeliverAll(ParseOne, d, Start(), [a + b]).msgs == [Meaning(Get(true))]
            && DeliverAll(ParseOne, d, Start(), [a, b]).msgs == [Meaning(Get(true)), Meaning(Get(false))]
            && !Settled(d, Split(ParseOne, a + b))
  {
    GetGood(true);
    GetGood(false);
    LeavesLoop(deferred, Get(true), Get(false));
  }

  /** Any request that is deferred or does not keep the connection alive, and one after it. */
  lemma {:induction false} LeavesLoop(deferred: Request -> bool, x: Draft, y: Draft)
    requires Good(x) && Good(y) && (deferred(Meaning(x)) || !KeepAlive(Meaning(x)))
    ensures var (d, a, b) := (Disposer(deferred), Written(x), Written(y));
            && DeliverAll(ParseOne, d, Start(), [a + b]).msgs == [Meaning(x)]
            && DeliverAll(ParseOne, d, Start(), [a, b]).msgs == [Meaning(x), Meaning(y)]
            && !Settled(d, Split(ParseOne, a + b))
  {
    TwoRequests(x, y);
    assert Find([], CRLFCRLF, 0).None?;
    TogetherAndApart(ParseOne, Disposer(deferred), Written(x), Written(y), Meaning(x), Meaning(y));
  }

  lemma {:induction false} TwoRequests(x: Draft, y: Draft)
    requires Good(x) && Good(y)
    ensures var a, b := Written(x), Written(y);
            && ParseOne(a) == ParseOne(a + b) == Parsed(Meaning(x), |a|) && ParseOne(b) == Parsed(Meaning(y), |b|)
            && Split(ParseOne, a + b) == [Meaning(x), Meaning(y)]
  {
    var a, b := Written(x), Written(y);
    WrittenParses(x, b);
    WrittenParses(x, []);
    WrittenParses(y, []);
    assert a + [] == a && b + [] == b;
    assert Find([], CRLFCRLF, 0).None?;
    TwoSplit(ParseOne, a, b, Meaning(x), Meaning(y));
  }

  // ------------------------------------------------------------------ the code

  /** HttpCore::parseHeader. */
  method ParseHeader(header: seq<byte>) returns (r: Option<Request>)
    ensures r == ParseHeaderBlock(header)
  {
    var found := Find(header, CRLF, 0);
    if found.None? {
      if |header| > MAX_REQUEST_LINE {
        return None;
      }
      r := ParseRequestLine(header);
      BlockIs(header, |header|);
      LineAlone(header, header);
      return;
    }
    BlockIs(header, found.value);
    var requestLine := header[..found.value];
    if |requestLine| > MAX_REQUEST_LINE {
      return None;
    }
    r := ParseRequestLine(requestLine);
    if r.None? {
      return;
    }
    var headers := ParseLines(header, found.value + 2);
    r := Some(r.value.(headers := headers));
  }

  lemma {:induction false} BlockIs(header: seq<byte>, e: nat)
    requires LineEnd(header, 0) == e
    ensures ParseHeaderBlock(header) ==
            WithHeaders(header[..e], ParseRequestLine(header[..e]), LinesFrom(header, e + 2))
  {
  }

  /** A request line that is all there is. */
  lemma {:induction false} LineAlone(header: seq<byte>, line: seq<byte>)
    requires |line| <= MAX_REQUEST_LINE && line == header
    ensures header[..|header|] == line
    ensures WithHeaders(line, ParseRequestLine(line), LinesFrom(header, |header| + 2)) == ParseRequestLine(line)
  {
    assert LinesFrom(header, |header| + 2) == [];
    assert ParseRequestLine(line).Some? ==> ParseRequestLine(line).value.headers == map[];
  }

  lemma {:induction false} FirstHeader(headers: Headers, line: seq<byte>, lines: seq<seq<byte>>)
    ensures AddHeaders(headers, [line] + lines) ==
            AddHeaders(if line == [] then headers else AddHeader(headers, line), lines)
  {
    assert ([line] + lines)[1..] == lines;
  }

  /** The line at pos, and where the one after it starts. */
  method NextLine(header: seq<byte>, pos: nat) returns (line: seq<byte>, next: nat)
    requires pos < |header|
    ensures LinesFrom(header, pos) == [line] + LinesFrom(header, next) && pos < next
  {
    var lineEnd := LineEnd(header, pos);
    line, next := header[pos..lineEnd], lineEnd + 2;
    LineTurnAt(header, pos, lineEnd);
  }

  /** The header loop of parseHeader. */
  method ParseLines(header: seq<byte>, start: nat) returns (headers: Headers)
    ensures headers == AddHeaders(map[], LinesFrom(header, start))
  {
    headers := map[];
    var pos: nat := start;
    ghost var lines := LinesFrom(header, pos);
    ghost var goal := AddHeaders(headers, lines);
    while pos < |header|
      invariant lines == LinesFrom(header, pos)
      invariant goal == AddHeaders(headers, lines)
    {
      var line, next := NextLine(header, pos);
      lines := LinesFrom(header, next);
      FirstHeader(headers, line, lines);
      if line != [] {
        headers := AddHeader(headers, line);
      }
      pos := next;
    }
    assert lines == [];
  }

  /** parseRequest over a Buffer: decide on what is peeked, consume only a complete request. */
  method ParseRequest(buf: NetBuffer.Buffer) returns (r: Outcome<Request>)
    requires buf.Valid()
    modifies buf`readerIndex, buf`writerIndex
    ensures buf.Valid() && r == ParseOne(old(buf.Contents())) && Tight(ParseOne, old(buf.Contents()))
    ensures buf.Contents() == if r.Parsed? then old(buf.Contents())[r.consumed..] else old(buf.Contents())
  {
    var data := buf.Peek();
    ParseOneTight(data);
    var headerEnd := Find(data, CRLFCRLF, 0);
    if headerEnd.None? {
      return if |data| > MAX_REQUEST_LINE then Rejected else Incomplete;
    }
    var headerLen := headerEnd.value + 4;
    var head := ParseHeader(data[..headerLen - 4]);
    if head.None? {
      return Rejected;
    }
    var contentLen := ContentLength(head.value.headers);
    r := TakeBody(buf, headerLen, head.value, contentLen);
  }

  /** The part of parseRequest after the content length is known. */
  method TakeBody(buf: NetBuffer.Buffer, headerLen: nat, request: Request, contentLen: nat)
    returns (r: Outcome<Request>)
    requires buf.Valid() && headerLen <= |buf.Contents()| && request.body == []
    modifies buf`readerIndex, buf`writerIndex
    ensures buf.Valid() && r == ParseBody(old(buf.Contents()), headerLen, request, contentLen)
    ensures r.Parsed? ==> r.consumed <= |old(buf.Contents())|
    ensures buf.Contents() == if r.Parsed? then old(buf.Contents())[r.consumed..] else old(buf.Contents())
  {
    ghost var s := buf.Contents();
    if contentLen > MAX_BODY_SIZE {
      return Rejected;
    }
    var len := buf.ReadableBytes();
    if len < headerLen + contentLen {
      return Incomplete;
    }
    buf.Retrieve(headerLen);
    var body := [];
    if contentLen > 0 {
      var rest := buf.Peek();
      body := rest[..contentLen];
      buf.Retrieve(contentLen);
    }
    assert body == s[headerLen..headerLen + contentLen];
    r := Parsed(request.(body := body), headerLen + contentLen);
  }

  /** parseRequest over an accumulated string (used by the HTTPS server): the same verdict, the same bytes consumed. */
  method ParseRequestString(data: seq<byte>) returns (r: Outcome<Request>, rest: seq<byte>)
    ensures r == ParseOne(data) && Tight(ParseOne, data)
    ensures rest == if r.Parsed? then data[r.consumed..] else data
  {
    ParseOneTight(data);
    var headerEnd := Find(data, CRLFCRLF, 0);
    if headerEnd.None? {
      return if |data| > MAX_REQUEST_LINE then Rejected else Incomplete, data;
    }
    var headerLen := headerEnd.value + 4;
    var head := ParseHeader(data[..headerEnd.value]);
    if head.None? {
      return Rejected, data;
    }
    var contentLen := ContentLength(head.value.headers);
    r, rest := TakeBodyString(data, headerLen, head.value, contentLen);
  }

  method TakeBodyString(data: seq<byte>, headerLen: nat, request: Request, contentLen: nat)
    returns (r: Outcome<Request>, rest: seq<byte>)
    requires headerLen <= |data| && request.body == []
    ensures r == ParseBody(data, headerLen, request, contentLen)
    ensures r.Parsed? ==> r.consumed <= |data|
    ensures rest == if r.Parsed? then data[r.consumed..] else data
  {
    if contentLen > MAX_BODY_SIZE {
      return Rejected, data;
    }
    var totalLen := headerLen + contentLen;
    if |data| < totalLen {
      return Incomplete, data;
    }
    var body := if contentLen > 0 then data[headerLen..headerLen + contentLen] else [];
    assert body == data[headerLen..headerLen + contentLen];
    return Parsed(request.(body := body), totalLen), data[totalLen..];
  }

  /** HttpServer::onMessage: the requests handed to the handlers, and whether the error answer was sent. */
  method OnMessage(buf: NetBuffer.Buffer, deferred: Request -> bool) returns (handled: seq<Request>, rejected: bool)
    requires buf.Valid()
    modifies buf`readerIndex, buf`writerIndex
    ensures buf.Valid()
    ensures Run(handled, buf.Contents(), true, rejected) == Loop(ParseOne, Disposer(deferred), old(buf.Contents()))
  {
    handled, rejected := [], false;
    ghost var d, s := Disposer(deferred), buf.Contents();
    ghost var whole := Loop(ParseOne, d, s);
    ResumeStart(ParseOne, d, s);
    while true
      invariant buf.Valid() && s == buf.Contents() && !rejected
      invariant whole == Resume(ParseOne, d, handled, s, true)
      decreases |s|
    {
      var r := ParseRequest(buf);
      if !r.Parsed? {
        ResumeEnd(ParseOne, d, handled, s, true);
        rejected := r.Rejected?;
        return;
      }
      ResumeStep(ParseOne, d, handled, s, true);
      handled := handled + [r.msg];
      if deferred(r.msg) || !KeepAlive(r.msg) {
        return;
      }
      s := buf.Contents();
    }
  }
}
