/** A request written out as a client writes it is parsed back, field by field. */
module HttpRoundTrip {
  import opened Bytes
  import opened Deframe
  import opened HttpParser

  /** A request as a client sees it: the target still in two parts, the headers still a list. */
  datatype Draft = Draft(verb: seq<byte>, path: seq<byte>, query: Option<seq<byte>>, version: seq<byte>,
                         headers: seq<Field>, body: seq<byte>)
  /** One header, with any number of spaces between the colon and the value. */
  datatype Field = Field(key: seq<byte>, spaces: nat, value: seq<byte>)

  ghost predicate Without(s: seq<byte>, b: byte) {
    forall i | 0 <= i < |s| :: s[i] != b
  }

  function Target(d: Draft): (r: seq<byte>) {
    match d.query case None => d.path case Some(q) => d.path + [QUESTION] + q
  }

  function RequestLine(d: Draft): (r: seq<byte>) {
    d.verb + [SPACE] + Target(d) + [SPACE] + d.version
  }

  function Spaces(n: nat): (r: seq<byte>) { seq(n, _ => SPACE) }

  function Line(f: Field): (r: seq<byte>) {
    f.key + [COLON] + Spaces(f.spaces) + f.value
  }

  function LineList(fs: seq<Field>): (r: seq<seq<byte>>) {
    if fs == [] then [] else [Line(fs[0])] + LineList(fs[1..])
  }

  /** Lines, each after its line break. */
  function Broken(ls: seq<seq<byte>>): (r: seq<byte>) {
    if ls == [] then [] else CRLF + ls[0] + Broken(ls[1..])
  }

  function HeaderBlock(d: Draft): (r: seq<byte>) { RequestLine(d) + Broken(LineList(d.headers)) }

  function Written(d: Draft): (r: seq<byte>) { HeaderBlock(d) + CRLFCRLF + d.body }

  /** Later fields overwrite earlier ones with the same key. */
  function Collected(headers: Headers, fs: seq<Field>): (r: Headers)
    decreases |fs|
  {
    if fs == [] then headers else Collected(headers[Lower(fs[0].key) := fs[0].value], fs[1..])
  }

  /** What the request line alone says. */
  function LineMeaning(d: Draft): (r: Request) {
    Request(MethodOf(d.verb), VersionOf(d.version), d.path, if d.query.Some? then d.query.value else [], map[], [])
  }

  function Meaning(d: Draft): (r: Request) {
    LineMeaning(d).(headers := Collected(map[], d.headers), body := d.body)
  }

  ghost predicate GoodField(f: Field) {
    && Without(f.key, 13) && Without(f.key, COLON) && Without(f.value, 13)
    && (if f.value == [] then f.spaces == 0 else f.value[0] != SPACE)
  }

  ghost predicate AllGood(fs: seq<Field>) {
    fs == [] || (GoodField(fs[0]) && AllGood(fs[1..]))
  }

  /** No separator inside the parts it separates. */
  ghost predicate GoodHead(d: Draft) {
    && Without(d.verb, SPACE) && Without(Target(d), SPACE) && Without(d.path, QUESTION)
    && Without(RequestLine(d), 13) && |RequestLine(d)| <= 8192
    && AllGood(d.headers)
  }

  /** And a body as long as the headers announce. */
  ghost predicate Good(d: Draft) {
    GoodHead(d) && ContentLength(Collected(map[], d.headers)) == |d.body| <= MAX_BODY_SIZE
  }

  // ------------------------------------------------------------------ searching

  /** A search may skip where nothing matches. */
  lemma {:induction false} FindSkips(s: seq<byte>, pat: seq<byte>, from: nat, to: nat)
    requires from <= to && (forall j | from <= j < to :: !MatchesAt(s, pat, j))
    ensures Find(s, pat, from) == Find(s, pat, to)
  {
    var a, b := Find(s, pat, from), Find(s, pat, to);
    assert a.Some? ==> MatchesAt(s, pat, a.value) && a.value >= to;
    assert b.Some? ==> MatchesAt(s, pat, b.value);
  }

  /** Two parts stand in s one after the other exactly when they stand there as one. */
  lemma {:induction false} PartsMatch(s: seq<byte>, a: seq<byte>, b: seq<byte>, pos: nat)
    ensures MatchesAt(s, a + b, pos) <==> MatchesAt(s, a, pos) && MatchesAt(s, b, pos + |a|)
  {
    if pos + |a| + |b| <= |s| {
      var u := s[pos..pos + |a| + |b|];
      assert u[..|a|] == s[pos..pos + |a|] && u[|a|..] == s[pos + |a|..pos + |a| + |b|];
      assert u == u[..|a|] + u[|a|..];
      assert (a + b)[..|a|] == a && (a + b)[|a|..] == b;
    }
  }

  /** A part without the pattern's first byte holds no match. */
  lemma {:induction false} SkipPart(s: seq<byte>, part: seq<byte>, pos: nat, pat: seq<byte>)
    requires MatchesAt(s, part, pos) && pat != [] && Without(part, pat[0])
    ensures Find(s, pat, pos) == Find(s, pat, pos + |part|)
  {
    forall j | pos <= j < pos + |part| ensures !MatchesAt(s, pat, j) {
      assert s[j] == s[pos..pos + |part|][j - pos];
      assert j + |pat| <= |s| ==> s[j..j + |pat|][0] == s[j];
    }
    FindSkips(s, pat, pos, pos + |part|);
  }

  /** The first separator after a part that does not contain it. */
  lemma {:induction false} SeparatorFound(s: seq<byte>, part: seq<byte>, b: byte, pos: nat)
    requires MatchesAt(s, part + [b], pos) && Without(part, b)
    ensures Find(s, [b], pos) == Some(pos + |part|) && s[pos..pos + |part|] == part
  {
    PartsMatch(s, part, [b], pos);
    SkipPart(s, part, pos, [b]);
  }

  lemma {:induction false} Whole(s: seq<byte>)
    ensures MatchesAt(s, s, 0)
  {
    assert s[0..|s|] == s;
  }

  // ------------------------------------------------------------------ the request line

  lemma {:induction false} TargetSplits(d: Draft)
    requires Without(d.path, QUESTION)
    ensures match Find(Target(d), [QUESTION], 0)
            case None => d.query.None? && Target(d) == d.path
            case Some(q) => d.query == Some(Target(d)[q + 1..]) && Target(d)[..q] == d.path
  {
    var t := Target(d);
    Whole(t);
    if d.query.Some? {
      PartsMatch(t, d.path + [QUESTION], d.query.value, 0);
      SeparatorFound(t, d.path, QUESTION, 0);
    } else {
      SkipPart(t, d.path, 0, [QUESTION]);
    }
  }

  lemma {:induction false} SpacesFound(line: seq<byte>, verb: seq<byte>, target: seq<byte>, version: seq<byte>)
    requires Without(verb, SPACE) && Without(target, SPACE)
    requires line == verb + [SPACE] + target + [SPACE] + version
    ensures var m := |verb|;
            && Find(line, [SPACE], 0) == Some(m) && Find(line, [SPACE], m + 1) == Some(m + 1 + |target|)
            && line[..m] == verb && line[m + 1..m + 1 + |target|] == target && line[m + 2 + |target|..] == version
  {
    var m := |verb|;
    Whole(line);
    PartsMatch(line, verb + [SPACE] + target + [SPACE], version, 0);
    assert verb + [SPACE] + target + [SPACE] == (verb + [SPACE]) + (target + [SPACE]);
    PartsMatch(line, verb + [SPACE], target + [SPACE], 0);
    SeparatorFound(line, verb, SPACE, 0);
    SeparatorFound(line, target, SPACE, m + 1);
  }

  lemma {:induction false} RequestLineParses(d: Draft)
    requires Without(d.verb, SPACE) && Without(Target(d), SPACE) && Without(d.path, QUESTION)
    ensures ParseRequestLine(RequestLine(d)) == Some(LineMeaning(d))
  {
    var line, target := RequestLine(d), Target(d);
    SpacesFound(line, d.verb, target, d.version);
    TargetSplits(d);
    LineIs(line, |d.verb|, |d.verb| + 1 + |target|, target);
  }

  /** The request line once its two spaces are found. */
  lemma {:induction false} LineIs(line: seq<byte>, m: nat, e: nat, target: seq<byte>)
    requires Find(line, [SPACE], 0) == Some(m) && Find(line, [SPACE], m + 1) == Some(e) && target == line[m + 1..e]
    ensures var q := Find(target, [QUESTION], 0);
            ParseRequestLine(line) ==
              Some(Request(MethodOf(line[..m]), VersionOf(line[e + 1..]), if q.None? then target else target[..q.value],
                           if q.None? then [] else target[q.value + 1..], map[], []))
  {
  }

  // ------------------------------------------------------------------ the header lines

  lemma {:induction false} FieldParses(headers: Headers, f: Field)
    requires GoodField(f)
    ensures AddHeader(headers, Line(f)) == headers[Lower(f.key) := f.value]
  {
    var l, v := Line(f), Spaces(f.spaces) + f.value;
    Whole(l);
    assert l == (f.key + [COLON]) + v;
    PartsMatch(l, f.key + [COLON], v, 0);
    SeparatorFound(l, f.key, COLON, 0);
    assert l[..|f.key|] == f.key && l[|f.key| + 1..] == v;
    SpacesSkipped(f.spaces, f.value);
  }

  lemma {:induction false} SpacesSkipped(n: nat, value: seq<byte>)
    requires value == [] || value[0] != SPACE
    ensures SkipSpaces(Spaces(n) + value) == value
  {
    if n > 0 {
      assert (Spaces(n) + value)[1..] == Spaces(n - 1) + value;
      SpacesSkipped(n - 1, value);
    } else {
      assert Spaces(0) + value == value;
    }
  }

  /** A line that is there and has no line break in it. */
  ghost predicate Plain(line: seq<byte>) { line != [] && Without(line, 13) }

  ghost predicate AllPlain(ls: seq<seq<byte>>) {
    ls == [] || (Plain(ls[0]) && AllPlain(ls[1..]))
  }

  lemma {:induction false} LineIsPlain(f: Field)
    requires GoodField(f)
    ensures Plain(Line(f))
  {
    var l := Line(f);
    forall i | 0 <= i < |l| ensures l[i] != 13 {
      if i < |f.key| {
        assert l[i] == f.key[i];
      } else if i > |f.key| + f.spaces {
        assert l[i] == f.value[i - |f.key| - 1 - f.spaces];
      }
    }
  }

  lemma {:induction false} LineListIsPlain(fs: seq<Field>)
    requires AllGood(fs)
    ensures AllPlain(LineList(fs))
  {
    if fs != [] {
      LineIsPlain(fs[0]);
      LineListIsPlain(fs[1..]);
      assert LineList(fs)[1..] == LineList(fs[1..]);
    }
  }

  /** The next line break, and the line and the lines around it. */
  lemma {:induction false} FirstLine(s: seq<byte>, pos: nat, ls: seq<seq<byte>>)
    requires ls != [] && MatchesAt(s, Broken(ls), pos)
    ensures MatchesAt(s, CRLF, pos) && MatchesAt(s, ls[0], pos + 2)
    ensures MatchesAt(s, Broken(ls[1..]), pos + 2 + |ls[0]|)
    ensures |Broken(ls)| == 2 + |ls[0]| + |Broken(ls[1..])|
  {
    PartsMatch(s, CRLF + ls[0], Broken(ls[1..]), pos);
    PartsMatch(s, CRLF, ls[0], pos);
  }

  /** A line ends where the next one begins, or with the block. */
  lemma {:induction false} LineEnds(block: seq<byte>, line: seq<byte>, pos: nat, ls: seq<seq<byte>>)
    requires MatchesAt(block, line, pos) && Without(line, 13)
    requires MatchesAt(block, Broken(ls), pos + |line|) && |block| == pos + |line| + |Broken(ls)|
    ensures LineEnd(block, pos) == pos + |line|
  {
    SkipPart(block, line, pos, CRLF);
    if ls != [] {
      FirstLine(block, pos + |line|, ls);
    }
  }

  /** One turn of the header loop. */
  lemma {:induction false} LineTurn(block: seq<byte>, pos: nat, line: seq<byte>, e: nat)
    requires pos < |block| && MatchesAt(block, line, pos) && LineEnd(block, pos) == e == pos + |line|
    ensures LinesFrom(block, pos) == [line] + LinesFrom(block, e + 2)
  {
    assert block[pos..e] == line;
    LineTurnAt(block, pos, e);
  }

  lemma {:induction false} LineTurnAt(block: seq<byte>, pos: nat, e: nat)
    requires pos < |block| && LineEnd(block, pos) == e
    ensures LinesFrom(block, pos) == [block[pos..e]] + LinesFrom(block, e + 2)
  {
  }

  /** The header loop finds the lines that were written. */
  lemma {:induction false} LinesFound(block: seq<byte>, pos: nat, ls: seq<seq<byte>>)
    requires AllPlain(ls)
    requires MatchesAt(block, Broken(ls), pos) && |block| == pos + |Broken(ls)|
    ensures LinesFrom(block, pos + 2) == ls
    decreases |ls|
  {
    if ls != [] {
      var start, e := pos + 2, pos + 2 + |ls[0]|;
      FirstLine(block, pos, ls);
      LineEnds(block, ls[0], start, ls[1..]);
      LineTurn(block, start, ls[0], e);
      LinesFound(block, e, ls[1..]);
      assert ls == [ls[0]] + ls[1..];
    }
  }

  lemma {:induction false} LineListParses(headers: Headers, fs: seq<Field>)
    requires AllGood(fs)
    ensures AddHeaders(headers, LineList(fs)) == Collected(headers, fs)
    decreases |fs|
  {
    if fs != [] {
      FieldParses(headers, fs[0]);
      LineIsPlain(fs[0]);
      assert LineList(fs)[1..] == LineList(fs[1..]);
      LineListParses(headers[Lower(fs[0].key) := fs[0].value], fs[1..]);
    }
  }

  /** A block made of a line and further lines is taken apart again. */
  lemma {:induction false} BlockLines(block: seq<byte>, line: seq<byte>, ls: seq<seq<byte>>, e: nat)
    requires block == line + Broken(ls) && e == |line| && Without(line, 13) && AllPlain(ls)
    ensures LineEnd(block, 0) == e && block[..e] == line && LinesFrom(block, e + 2) == ls
  {
    Whole(block);
    PartsMatch(block, line, Broken(ls), 0);
    LineEnds(block, line, 0, ls);
    LinesFound(block, e, ls);
  }

  lemma {:induction false} HeadersTaken(block: seq<byte>, line: seq<byte>, req: Request, fs: seq<Field>, e: nat)
    requires |line| <= MAX_REQUEST_LINE && AllGood(fs) && e <= |block|
    requires LineEnd(block, 0) == e && block[..e] == line && LinesFrom(block, e + 2) == LineList(fs)
    requires ParseRequestLine(line) == Some(req)
    ensures ParseHeaderBlock(block) == Some(req.(headers := Collected(map[], fs)))
  {
    LineListParses(map[], fs);
  }

  lemma {:induction false} HeaderBlockParses(d: Draft)
    requires GoodHead(d)
    ensures ParseHeaderBlock(HeaderBlock(d)) == Some(LineMeaning(d).(headers := Collected(map[], d.headers)))
  {
    LineListIsPlain(d.headers);
    RequestLineParses(d);
    BlockParses(HeaderBlock(d), RequestLine(d), d.headers, LineMeaning(d));
  }

  lemma {:induction false} BlockParses(block: seq<byte>, line: seq<byte>, fs: seq<Field>, req: Request)
    requires block == line + Broken(LineList(fs)) && Without(line, 13) && |line| <= MAX_REQUEST_LINE
    requires AllGood(fs) && AllPlain(LineList(fs)) && ParseRequestLine(line) == Some(req)
    ensures ParseHeaderBlock(block) == Some(req.(headers := Collected(map[], fs)))
  {
    BlockLines(block, line, LineList(fs), |line|);
    HeadersTaken(block, line, req, fs, |line|);
  }

  // ------------------------------------------------------------------ the blank line

  /** A line break followed by a line is not a blank line. */
  lemma {:induction false} NotBlank(s: seq<byte>, line: seq<byte>, pos: nat)
    requires MatchesAt(s, CRLF, pos) && MatchesAt(s, line, pos + 2) && line != [] && Without(line, 13)
    ensures Find(s, CRLFCRLF, pos) == Find(s, CRLFCRLF, pos + 2 + |line|)
  {
    assert s[pos + 1] == s[pos..pos + 2][1] == 10;
    assert s[pos + 2] == s[pos + 2..pos + 2 + |line|][0] == line[0];
    forall j | pos <= j < pos + 2 ensures !MatchesAt(s, CRLFCRLF, j) {
      if j + 4 <= |s| {
        assert s[j..j + 4][0] == s[j] && s[j..j + 4][2] == s[j + 2];
      }
    }
    FindSkips(s, CRLFCRLF, pos, pos + 2);
    SkipPart(s, line, pos + 2, CRLFCRLF);
  }

  /** The first blank line is the one after the last line. */
  lemma {:induction false} BlankLineFound(s: seq<byte>, pos: nat, ls: seq<seq<byte>>)
    requires AllPlain(ls)
    requires MatchesAt(s, Broken(ls), pos) && MatchesAt(s, CRLFCRLF, pos + |Broken(ls)|)
    ensures Find(s, CRLFCRLF, pos) == Some(pos + |Broken(ls)|)
    decreases |ls|
  {
    if ls != [] {
      var next := pos + 2 + |ls[0]|;
      LineSkipped(s, pos, ls, next);
      BlankLineFound(s, next, ls[1..]);
    }
  }

  lemma {:induction false} LineSkipped(s: seq<byte>, pos: nat, ls: seq<seq<byte>>, next: nat)
    requires ls != [] && AllPlain(ls) && MatchesAt(s, Broken(ls), pos) && next == pos + 2 + |ls[0]|
    ensures AllPlain(ls[1..]) && MatchesAt(s, Broken(ls[1..]), next) && next + |Broken(ls[1..])| == pos + |Broken(ls)|
    ensures Find(s, CRLFCRLF, pos) == Find(s, CRLFCRLF, next)
  {
    FirstLine(s, pos, ls);
    assert Plain(ls[0]);
    NotBlank(s, ls[0], pos);
  }

  lemma {:induction false} WrittenLayout(d: Draft, rest: seq<byte>)
    ensures var s := Written(d) + rest;
            && MatchesAt(s, RequestLine(d), 0) && MatchesAt(s, Broken(LineList(d.headers)), |RequestLine(d)|)
            && MatchesAt(s, HeaderBlock(d), 0) && MatchesAt(s, CRLFCRLF, |HeaderBlock(d)|)
            && MatchesAt(s, d.body, |HeaderBlock(d)| + 4)
  {
    var s := Written(d) + rest;
    Whole(s);
    PartsMatch(s, Written(d), rest, 0);
    PartsMatch(s, HeaderBlock(d) + CRLFCRLF, d.body, 0);
    PartsMatch(s, HeaderBlock(d), CRLFCRLF, 0);
    PartsMatch(s, RequestLine(d), Broken(LineList(d.headers)), 0);
  }

  lemma {:induction false} BlankLineAfter(s: seq<byte>, line: seq<byte>, ls: seq<seq<byte>>, e: nat)
    requires Without(line, 13) && AllPlain(ls) && e == |line|
    requires MatchesAt(s, line, 0) && MatchesAt(s, Broken(ls), e) && MatchesAt(s, CRLFCRLF, e + |Broken(ls)|)
    ensures Find(s, CRLFCRLF, 0) == Some(e + |Broken(ls)|)
  {
    SkipPart(s, line, 0, CRLFCRLF);
    BlankLineFound(s, e, ls);
  }

  lemma {:induction false} BlankLineEndsHeader(d: Draft, rest: seq<byte>)
    requires GoodHead(d)
    ensures Find(Written(d) + rest, CRLFCRLF, 0) == Some(|HeaderBlock(d)|)
  {
    var line := RequestLine(d);
    WrittenLayout(d, rest);
    LineListIsPlain(d.headers);
    BlankLineAfter(Written(d) + rest, line, LineList(d.headers), |line|);
  }

  lemma {:induction false} BodyTaken(s: seq<byte>, end: nat, req: Request, body: seq<byte>)
    requires end + 4 <= |s| && MatchesAt(s, body, end + 4) && ContentLength(req.headers) == |body| <= MAX_BODY_SIZE
    ensures ParseAfter(s, end, Some(req)) == Parsed(req.(body := body), end + 4 + |body|)
  {
  }

  /** A well-formed request is parsed back whole, whatever follows it. */
  lemma {:induction false} WrittenParses(d: Draft, rest: seq<byte>)
    requires Good(d)
    ensures ParseOne(Written(d) + rest) == Parsed(Meaning(d), |Written(d)|)
  {
    var s, head := Written(d) + rest, HeaderBlock(d);
    BlankLineEndsHeader(d, rest);
    WrittenLayout(d, rest);
    assert s[..|head|] == s[0..|head|] == head;
    HeaderBlockParses(d);
    BodyTaken(s, |head|, Meaning(d).(body := []), d.body);
  }

  // ------------------------------------------------------------------ numbers

  lemma {:induction false} LeadingNumberSnoc(s: seq<byte>, d: byte, sofar: nat)
    requires IsDigit(d) && forall i | 0 <= i < |s| :: IsDigit(s[i])
    ensures LeadingNumber(s + [d], sofar) == 10 * LeadingNumber(s, sofar) + (d as int - 48)
    decreases |s|
  {
    if s == [] {
      assert [d][1..] == [];
    } else {
      assert (s + [d])[1..] == s[1..] + [d];
      LeadingNumberSnoc(s[1..], d, 10 * sofar + (s[0] as int - 48));
    }
  }

  lemma {:induction false} DecimalReads(n: nat)
    ensures LeadingNumber(Decimal(n), 0) == n
  {
    if n < 10 {
      assert Decimal(n)[1..] == [];
    } else {
      DecimalReads(n / 10);
      LeadingNumberSnoc(Decimal(n / 10), (48 + n % 10) as byte, 0);
    }
  }

  /** stoul reads back every size_t that to_string wrote. */
  lemma {:induction false} StoULDecimal(n: nat)
    requires n <= ULONG_MAX
    ensures StoUL(Decimal(n)) == Some(n)
  {
    DecimalReads(n);
    assert IsDigit(Decimal(n)[0]);
  }
}
