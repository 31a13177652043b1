// server.cpp: the incremental request reader and the request parser.

module Http {
  import opened Options
  import opened Text
  import opened Numerals
  import opened Query

  const MAX_REQUEST_BYTES: nat := 2 * 1024 * 1024
  const CRLF: string := "\r\n"
  const BLANK_LINE: string := "\r\n\r\n"
  const CL_PATTERN: string := "\r\ncontent-length:"

  datatype Request = Request(verb: string, path: string, headers: map<string, string>,
                             queryParams: map<string, string>, body: string)

  const EMPTY_REQUEST: Request := Request("", "", map[], map[], "")

  // ---- Reading ----

  // What the receive loop holds: the bytes so far, and once the blank line is
  // seen where the body starts and how long it is announced to be.
  datatype Reader = Reader(raw: string, headersEnd: Option<nat>, contentLength: nat)

  // The announced length in a header section; 0 when absent or unreadable.
  function ContentLength(section: string): nat {
    var lower := Lower(section);
    match After(lower, CL_PATTERN)
    case None => 0
    case Some(rest) =>
      var value := match CutAt(rest, CRLF) case None => rest case Some(c) => c.before;
      match Stoull(Trim(value))
      case None => 0
      case Some(n) => n
  }

  function Received(st: Reader, chunk: string): Reader {
    var raw := st.raw + chunk;
    if st.headersEnd.Some? then st.(raw := raw)
    else match CutAt(raw, BLANK_LINE)
      case None => Reader(raw, None, 0)
      case Some(c) => Reader(raw, Some(|c.before| + 4), ContentLength(c.before + BLANK_LINE))
  }

  // headers_end + content_length is computed in an unsigned 64-bit size_t.
  predicate Complete(st: Reader) {
    st.headersEnd.Some? && |st.raw| >= (st.headersEnd.value + st.contentLength) % UINT64_BOUND
  }

  // The receive loop over the chunks recv delivers; when they run out recv returns 0.
  method ReadLoop(chunks: seq<string>) returns (st: Reader)
    ensures st == ReadAll(Reader("", None, 0), chunks)
  {
    st := Reader("", None, 0);
    var i := 0;
    while |st.raw| < MAX_REQUEST_BYTES && i < |chunks|
      invariant 0 <= i <= |chunks|
      invariant ReadAll(Reader("", None, 0), chunks) == ReadAll(st, chunks[i..])
      decreases |chunks| - i
    {
      assert chunks[i..][1..] == chunks[i + 1..];
      st := Received(st, chunks[i]);
      i := i + 1;
      if Complete(st) { break; }
    }
  }

  function ReadAll(st: Reader, chunks: seq<string>): Reader
    decreases |chunks|
  {
    if |st.raw| >= MAX_REQUEST_BYTES || chunks == [] then st
    else
      var next := Received(st, chunks[0]);
      if Complete(next) then next else ReadAll(next, chunks[1..])
  }

  // What the reader holds depends only on the bytes received.
  function StateOf(raw: string): Reader {
    match CutAt(raw, BLANK_LINE)
    case None => Reader(raw, None, 0)
    case Some(c) => Reader(raw, Some(|c.before| + 4), ContentLength(c.before + BLANK_LINE))
  }

  lemma ReceivedIsState(raw: string, chunk: string)
    ensures Received(StateOf(raw), chunk) == StateOf(raw + chunk)
  {
    if CutAt(raw, BLANK_LINE).Some? { CutStable(raw, chunk, BLANK_LINE); }
  }

  function Concat(chunks: seq<string>): string {
    if chunks == [] then "" else chunks[0] + Concat(chunks[1..])
  }

  // A stream that is one whole request: headers, blank line and as many body
  // bytes as announced, within the size limit.
  predicate Framed(stream: string) {
    var st := StateOf(stream);
    st.headersEnd.Some? && |stream| == st.headersEnd.value + st.contentLength && |stream| <= MAX_REQUEST_BYTES
  }

  // Short of the whole request the reader is never complete.
  lemma PrefixIncomplete(raw: string, more: string)
    requires Framed(raw + more) && more != ""
    ensures !Complete(StateOf(raw))
  {
    if CutAt(raw, BLANK_LINE).Some? {
      CutStable(raw, more, BLANK_LINE);
    }
  }

  lemma {:induction false} ReadsWhole(raw: string, chunks: seq<string>, stream: string)
    requires Framed(stream) && stream == raw + Concat(chunks) && chunks != []
    requires forall k :: 0 <= k < |chunks| ==> chunks[k] != ""
    ensures ReadAll(StateOf(raw), chunks) == StateOf(stream)
    decreases |chunks|
  {
    var next := raw + chunks[0];
    assert stream == next + Concat(chunks[1..]);
    ReceivedIsState(raw, chunks[0]);
    if chunks[1..] != [] {
      assert chunks[1..][0] != "";
      PrefixIncomplete(next, Concat(chunks[1..]));
      ReadsWhole(next, chunks[1..], stream);
    } else {
      assert next == stream;
    }
  }

  // Every division of a framed stream into non-empty chunks is read to the
  // same reader state: all of the stream.
  lemma ChunkingIndependent(chunks: seq<string>, stream: string)
    requires Framed(stream) && Concat(chunks) == stream
    requires forall k :: 0 <= k < |chunks| ==> 0 < |chunks[k]| <= 8192
    ensures ReadAll(Reader("", None, 0), chunks) == StateOf(stream)
  {
    assert "" + Concat(chunks) == stream;
    assert CutAt("", BLANK_LINE) == None;
    CutMeaning(stream, BLANK_LINE);
    ReadsWhole("", chunks, stream);
  }

  // ---- Parsing ----

  // The header loop from the byte behind a line end.
  function HeaderLines(rest: string, headers: map<string, string>): map<string, string>
    decreases |rest|
  {
    match CutAt(rest, CRLF)
    case None => headers
    case Some(line) =>
      CutShrinks(rest, CRLF);
      if line.before == "" then headers
      else HeaderLines(line.after, AddHeader(headers, line.before))
  }

  function AddHeader(headers: map<string, string>, line: string): map<string, string> {
    match CutAt(line, ":")
    case None => headers
    case Some(c) => headers[Lower(Trim(c.before)) := Trim(c.after)]
  }

  function WithTarget(req: Request, target: string): Request {
    match CutAt(target, "?")
    case None => req.(path := UrlDecode(target))
    case Some(c) => req.(path := UrlDecode(c.before), queryParams := ParseQuery(c.after))
  }

  function Parsed(st: Reader): Request {
    match CutAt(st.raw, CRLF)
    case None => EMPTY_REQUEST
    case Some(line) =>
      match CutAt(line.before, " ")
      case None => EMPTY_REQUEST
      case Some(c) =>
        var target := match CutAt(c.after, " ") case None => c.after case Some(t) => t.before;
        var req := WithTarget(EMPTY_REQUEST.(verb := c.before), target);
        var withHeaders := req.(headers := HeaderLines(line.after, map[]));
        match st.headersEnd
        case None => withHeaders
        case Some(at) => if |st.raw| > at then withHeaders.(body := st.raw[at..]) else withHeaders
  }

  // The header loop of read_and_parse, by positions.
  method HeaderLoop(raw: string, start: nat) returns (headers: map<string, string>)
    requires start <= |raw|
    ensures headers == HeaderLines(raw[start..], map[])
  {
    headers := map[];
    var pos := start;
    while pos < |raw|
      invariant start <= pos <= |raw|
      invariant HeaderLines(raw[start..], map[]) == HeaderLines(raw[pos..], headers)
    {
      var end := FindFrom(raw, CRLF, pos);
      LineAt(raw, pos);
      if end == None || end.value == pos { return; }
      var header := raw[pos..end.value];
      headers := AddHeader(headers, header);
      pos := end.value + 2;
    }
    assert raw[pos..] == "";
  }

  lemma LineAt(raw: string, pos: nat)
    requires pos <= |raw|
    ensures match FindFrom(raw, CRLF, pos)
            case None => CutAt(raw[pos..], CRLF) == None
            case Some(end) =>
              && pos <= end && end + 2 <= |raw|
              && CutAt(raw[pos..], CRLF) == Some(Cut(raw[pos..end], raw[end + 2..]))
  {
    FindIsAfter(raw, CRLF, pos);
    CutMeaning(raw[pos..], CRLF);
    match CutAt(raw[pos..], CRLF)
    case None =>
    case Some(c) =>
      var end := pos + |c.before|;
      assert raw[pos..][..|c.before|] == c.before;
      assert raw[pos..][..|c.before|] == raw[pos..end];
  }

  // HttpServer::read_and_parse over the chunks recv delivers.
  method ReadAndParse(chunks: seq<string>) returns (req: Request)
    ensures req == Parsed(ReadAll(Reader("", None, 0), chunks))
  {
    hide ReadAll, UrlDecode, ParseQuery, HeaderLines;
    var st := ReadLoop(chunks);
    var raw := st.raw;
    req := EMPTY_REQUEST;
    var lineEnd := FindFrom(raw, CRLF, 0);
    LineAt(raw, 0);
    assert raw[0..] == raw;
    if lineEnd == None { return; }
    var requestLine := raw[..lineEnd.value];
    match CutAt(requestLine, " ") {
      case None => return;
      case Some(c) =>
        var target := match CutAt(c.after, " ") case None => c.after case Some(t) => t.before;
        req := WithTarget(req.(verb := c.before), target);
    }
    var headers := HeaderLoop(raw, lineEnd.value + 2);
    req := req.(headers := headers);
    if st.headersEnd.Some? && |raw| > st.headersEnd.value {
      req := req.(body := raw[st.headersEnd.value..]);
    }
  }

  // ---- Printing, and parsing what was printed ----

  datatype Header = Header(name: string, value: string)

  function PrintLines(hs: seq<Header>): string {
    if hs == [] then "" else Line(hs[0]) + CRLF + PrintLines(hs[1..])
  }

  function PrintRequest(verb: string, target: string, hs: seq<Header>, body: string): string {
    verb + " " + target + " HTTP/1.1" + CRLF + PrintLines(hs) + CRLF + body
  }

  // No line break begins in the text, whatever follows it.
  predicate Unbroken(s: string) {
    forall k :: 0 <= k < |s| && s[k] == '\r' ==> k + 1 < |s| && s[k + 1] != '\n'
  }

  // A trimmed name without colon or line break, and a trimmed value without one.
  predicate GoodHeader(h: Header) {
    && ':' !in h.name && Unbroken(h.name) && Trimmed(h.name)
    && Unbroken(h.value) && Trimmed(h.value)
  }

  lemma PlainIsUnbroken(s: string)
    requires '\r' !in s
    ensures Unbroken(s)
  {
    assert forall k :: 0 <= k < |s| ==> s[k] in s;
  }

  lemma UnbrokenConcat(a: string, b: string)
    requires Unbroken(a) && Unbroken(b)
    ensures Unbroken(a + b)
  {
    var s := a + b;
    forall k | 0 <= k < |s| && s[k] == '\r' ensures k + 1 < |s| && s[k + 1] != '\n' {
      if k < |a| { assert a[k] == s[k] && a[k + 1] == s[k + 1]; } else { assert b[k - |a|] == s[k]; }
    }
  }

  lemma UnbrokenLower(s: string)
    requires Unbroken(s)
    ensures Unbroken(Lower(s))
  {
    forall k | 0 <= k < |s| && Lower(s)[k] == '\r' ensures k + 1 < |s| && Lower(s)[k + 1] != '\n' {
      assert s[k] == '\r' && Lower(s)[k + 1] == LowerChar(s[k + 1]);
    }
  }

  lemma NoBreakHere(a: string, b: string, pat: string)
    requires Unbroken(a) && CRLF <= pat && a != ""
    ensures !(pat <= a + b) && Unbroken(a[1..])
  {
    assert pat[0] == '\r' && pat[1] == '\n';
    assert a[0] == '\r' ==> (a + b)[1] == a[1];
    var rest := a[1..];
    forall k | 0 <= k < |rest| && rest[k] == '\r' ensures k + 1 < |rest| && rest[k + 1] != '\n' {
      assert a[k + 1] == rest[k] && a[k + 2] == rest[k + 1];
    }
  }

  // Such a text does not disturb the search for a pattern that begins with a line break.
  lemma {:induction false} UnbrokenSkip(a: string, b: string, pat: string)
    requires Unbroken(a) && CRLF <= pat
    ensures CutAt(a + b, pat) == match CutAt(b, pat)
                                 case None => None
                                 case Some(c) => Some(Cut(a + c.before, c.after))
  {
    hide Unbroken, CRLF;
    if a == "" {
      assert a + b == b;
      if CutAt(b, pat).Some? { assert a + CutAt(b, pat).value.before == CutAt(b, pat).value.before; }
    } else {
      NoBreakHere(a, b, pat);
      UnbrokenSkip(a[1..], b, pat);
      assert (a + b)[0] == a[0] && (a + b)[1..] == a[1..] + b;
      match CutAt(b, pat)
      case None =>
      case Some(c) => assert [a[0]] + (a[1..] + c.before) == a + c.before;
    }
  }

  predicate GoodHeaders(hs: seq<Header>) { forall h :: h in hs ==> GoodHeader(h) }

  // Names are taken in lower case, and a later header of a name wins.
  function HeaderMap(hs: seq<Header>, headers: map<string, string>): map<string, string> {
    if hs == [] then headers else HeaderMap(hs[1..], headers[Lower(hs[0].name) := hs[0].value])
  }

  lemma OneLine(a: string, rest: string)
    requires Unbroken(a)
    ensures CutAt(a + CRLF + rest, CRLF) == Some(Cut(a, rest))
  {
    UnbrokenSkip(a, CRLF + rest, CRLF);
    assert a + CRLF + rest == a + (CRLF + rest);
    assert (CRLF + rest)[2..] == rest;
    assert a + "" == a;
  }

  lemma LineAdds(h: Header, headers: map<string, string>)
    requires GoodHeader(h)
    ensures AddHeader(headers, h.name + ": " + h.value) == headers[Lower(h.name) := h.value]
  {
    assert h.name + ": " + h.value == h.name + ":" + (" " + h.value);
    CutAtChar(h.name, ':', " " + h.value);
    TrimOfSpaced(h.name);
    TrimOfSpaced(h.value);
  }

  function Line(h: Header): string { h.name + ": " + h.value }

  lemma LineIsPlain(hs: seq<Header>)
    requires GoodHeaders(hs) && hs != []
    ensures GoodHeader(hs[0]) && GoodHeaders(hs[1..])
    ensures Unbroken(Line(hs[0])) && Line(hs[0]) != ""
  {
    assert hs[0] in hs;
    PlainIsUnbroken(": ");
    UnbrokenConcat(hs[0].name, ": ");
    UnbrokenConcat(hs[0].name + ": ", hs[0].value);
  }

  lemma {:induction false} LinesParse(hs: seq<Header>, rest: string, headers: map<string, string>)
    requires GoodHeaders(hs)
    ensures HeaderLines(PrintLines(hs) + (CRLF + rest), headers) == HeaderMap(hs, headers)
  {
    if hs == [] {
      assert PrintLines(hs) + (CRLF + rest) == "" + CRLF + rest;
      OneLine("", rest);
    } else {
      var line, tail := Line(hs[0]), PrintLines(hs[1..]) + (CRLF + rest);
      assert PrintLines(hs) + (CRLF + rest) == line + CRLF + tail;
      LineIsPlain(hs);
      OneLine(line, tail);
      LineAdds(hs[0], headers);
      LinesParse(hs[1..], rest, headers[Lower(hs[0].name) := hs[0].value]);
    }
  }

  // The text from a line end on, as a list of lines each behind its line end.
  function Behind(hs: seq<Header>): string {
    if hs == [] then "" else CRLF + (Line(hs[0])) + Behind(hs[1..])
  }

  lemma {:induction false} BehindIsLines(hs: seq<Header>)
    ensures CRLF + PrintLines(hs) == Behind(hs) + CRLF
  {
    if hs == [] {
    } else {
      BehindIsLines(hs[1..]);
      var line := Line(hs[0]);
      assert PrintLines(hs) == line + (CRLF + PrintLines(hs[1..]));
      assert CRLF + PrintLines(hs) == CRLF + line + (Behind(hs[1..]) + CRLF);
    }
  }

  // Searching from a line end for a pattern that begins with a line end.
  lemma StepOverLine(line: string, rest: string, pat: string)
    requires Unbroken(line) && CRLF <= pat
    requires !(pat <= CRLF + line + rest)
    ensures CutAt(CRLF + line + rest, pat) == match CutAt(rest, pat)
                                              case None => None
                                              case Some(c) => Some(Cut(CRLF + line + c.before, c.after))
  {
    var a := "\n" + line;
    PlainIsUnbroken("\n");
    UnbrokenConcat("\n", line);
    assert pat[0] == '\r';
    UnbrokenSkip(a, rest, pat);
    var text := CRLF + line + rest;
    assert text[1..] == a + rest;
    match CutAt(rest, pat)
    case None =>
    case Some(c) => assert "\r" + (a + c.before) == CRLF + line + c.before;
  }

  lemma BlankIsTwo(s: string)
    ensures BLANK_LINE <= CRLF + s ==> CRLF <= s
  {
    assert BLANK_LINE == CRLF + CRLF;
    if BLANK_LINE <= CRLF + s {
      assert (CRLF + s)[2..] == s && BLANK_LINE[2..] == CRLF;
    }
  }

  // The first blank line of a printed request is the one behind its headers.
  lemma {:induction false} BlankLineAt(hs: seq<Header>, body: string)
    requires GoodHeaders(hs)
    ensures CutAt(Behind(hs) + (BLANK_LINE + body), BLANK_LINE) == Some(Cut(Behind(hs), body))
  {
    if hs == [] {
      assert Behind(hs) + (BLANK_LINE + body) == BLANK_LINE + body;
      assert (BLANK_LINE + body)[4..] == body;
    } else {
      LineIsPlain(hs);
      var line, rest := Line(hs[0]), Behind(hs[1..]) + (BLANK_LINE + body);
      BlankLineAt(hs[1..], body);
      assert Behind(hs) + (BLANK_LINE + body) == CRLF + line + rest;
      NoBreakHere(line, rest, CRLF);
      BlankIsTwo(line + rest);
      assert CRLF + line + rest == CRLF + (line + rest);
      StepOverLine(line, rest, BLANK_LINE);
    }
  }

  const CL_NAME: string := "content-length"

  // The value of the first content-length header.
  function Announced(hs: seq<Header>): Option<string> {
    if hs == [] then None else if Lower(hs[0].name) == CL_NAME then Some(hs[0].value) else Announced(hs[1..])
  }

  lemma LowerLine(h: Header)
    requires GoodHeader(h)
    ensures Lower(h.name + ": " + h.value) == Lower(h.name) + ": " + Lower(h.value)
    ensures Unbroken(Lower(h.name)) && ':' !in Lower(h.name) && Unbroken(Lower(h.value))
  {
    UnbrokenLower(h.name);
    UnbrokenLower(h.value);
    LowerConcat(h.name + ": ", h.value);
    LowerConcat(h.name, ": ");
  }

  // A header line matches the length pattern exactly when it has its name.
  lemma NameAtLineEnd(name: string, value: string, rest: string)
    requires ':' !in name
    ensures CL_PATTERN <= CRLF + (name + ": " + value) + rest <==> name == CL_NAME
  {
    var text := CRLF + (name + ": " + value) + rest;
    assert CL_PATTERN == CRLF + CL_NAME + ":";
    assert forall k :: 2 <= k < 16 ==> CL_PATTERN[k] != ':';
    assert text[2 + |name|] == ':' && text[2..2 + |name|] == name;
    assert |name| > 14 ==> text[16] == name[14];
    if CL_PATTERN <= text {
      assert text[..17] == CL_PATTERN;
      assert text[..17][2..16] == text[2..16] && CL_PATTERN[2..16] == CL_NAME;
    }
    assert name == CL_NAME ==> text[..17] == CL_PATTERN;
  }

  function SectionText(hs: seq<Header>): string { Lower(Behind(hs) + BLANK_LINE) }

  lemma SectionStep(hs: seq<Header>)
    requires GoodHeaders(hs) && hs != []
    ensures SectionText(hs) == CRLF + (Lower(hs[0].name) + ": " + Lower(hs[0].value)) + SectionText(hs[1..])
  {
    hide GoodHeader, Lower;
    LineIsPlain(hs);
    LowerLine(hs[0]);
    BehindStep(hs);
    LowerConcat(CRLF + Line(hs[0]), Behind(hs[1..]) + BLANK_LINE);
    LowerConcat(CRLF, Line(hs[0]));
    LowerBreak();
  }

  lemma BehindStep(hs: seq<Header>)
    requires hs != []
    ensures Behind(hs) + BLANK_LINE == CRLF + Line(hs[0]) + (Behind(hs[1..]) + BLANK_LINE)
  {}

  lemma LowerBreak()
    ensures Lower(CRLF) == CRLF
  {}

  // What the length pattern's value is cut from.
  predicate LengthText(rest: Option<string>, v: string) {
    rest.Some? && CutAt(rest.value, CRLF).Some? && CutAt(rest.value, CRLF).value.before == " " + v
  }

  lemma LengthHere(name: string, v: string, rest: string)
    requires name == CL_NAME && Unbroken(v) && CRLF <= rest
    ensures LengthText(After(CRLF + (name + ": " + v) + rest, CL_PATTERN), v)
  {
    var tail := " " + v + rest;
    assert CRLF + (name + ": " + v) + rest == CL_PATTERN + tail;
    AfterHere(CL_PATTERN, tail);
    assert tail == (" " + v) + CRLF + rest[2..];
    PlainIsUnbroken(" ");
    UnbrokenConcat(" ", v);
    OneLine(" " + v, rest[2..]);
  }

  // The search for the announced length over lower-cased header lines.
  lemma {:induction false} LengthFound(hs: seq<Header>)
    requires GoodHeaders(hs)
    ensures match Announced(hs)
            case None => After(SectionText(hs), CL_PATTERN) == None
            case Some(v) => LengthText(After(SectionText(hs), CL_PATTERN), Lower(v))
  {
    if hs == [] {
      assert Lower(Behind(hs) + BLANK_LINE) == BLANK_LINE;
      NoLengthInBlankLine();
    } else {
      LineIsPlain(hs);
      LengthFound(hs[1..]);
      LowerLine(hs[0]);
      SectionStep(hs);
      RestStartsWithLineEnd(hs[1..]);
      var name, value, rest := Lower(hs[0].name), Lower(hs[0].value), SectionText(hs[1..]);
      NameAtLineEnd(name, value, rest);
      PlainIsUnbroken(": ");
      UnbrokenConcat(name, ": ");
      UnbrokenConcat(name + ": ", value);
      assert CRLF <= CL_PATTERN;
      hide SectionText, LengthText, CutAt;
      if name == CL_NAME {
        LengthHere(name, value, rest);
      } else {
        StepOverLine(name + ": " + value, rest, CL_PATTERN);
      }
    }
  }

  lemma RestStartsWithLineEnd(hs: seq<Header>)
    ensures CRLF <= SectionText(hs)
  {
    var text := Behind(hs) + BLANK_LINE;
    assert text[0] == '\r' && text[1] == '\n';
  }

  lemma NoLengthInBlankLine()
    ensures CutAt(BLANK_LINE, CL_PATTERN) == None
  {
    assert forall s :: |s| < |CL_PATTERN| ==> !(CL_PATTERN <= s);
    hide CL_PATTERN;
  }

  // ---- The printed request read back ----

  // The body's length is announced by the only header of that name, or there is no body.
  predicate AnnouncesBody(hs: seq<Header>, body: string) {
    match Announced(hs)
    case None => body == ""
    case Some(v) => v == Decimal(|body|)
  }

  function RequestLine(verb: string, target: string): string { verb + " " + (target + " HTTP/1.1") }

  lemma PrintedShape(verb: string, target: string, hs: seq<Header>, body: string)
    ensures PrintRequest(verb, target, hs, body) ==
      RequestLine(verb, target) + (Behind(hs) + (BLANK_LINE + body))
  {
    BehindIsLines(hs);
    var line := RequestLine(verb, target);
    assert PrintRequest(verb, target, hs, body) == line + (CRLF + PrintLines(hs)) + (CRLF + body);
    assert CRLF + (CRLF + body) == BLANK_LINE + body;
  }

  lemma LengthRead(line: string, hs: seq<Header>, body: string)
    requires GoodHeaders(hs) && AnnouncesBody(hs, body) && |body| < UINT64_BOUND && Unbroken(line)
    ensures ContentLength(line + Behind(hs) + BLANK_LINE) == |body|
  {
    var section := line + Behind(hs) + BLANK_LINE;
    assert section == line + (Behind(hs) + BLANK_LINE);
    LowerConcat(line, Behind(hs) + BLANK_LINE);
    UnbrokenLower(line);
    UnbrokenSkip(Lower(line), SectionText(hs), CL_PATTERN);
    LengthFound(hs);
    if Announced(hs).Some? {
      DecimalStays(|body|);
      NumeralRead(|body|, "");
      assert Decimal(|body|) + "" == Decimal(|body|);
    }
  }

  lemma DecimalStays(n: nat)
    ensures Lower(Decimal(n)) == Decimal(n) && Trim(" " + Decimal(n)) == Decimal(n)
  {
    var d := Decimal(n);
    assert forall k :: 0 <= k < |d| ==> IsDigit(d[k]);
    assert Trimmed(d);
    TrimOfSpaced(d);
  }

  lemma BlankLineFound(line: string, hs: seq<Header>, body: string)
    requires GoodHeaders(hs) && Unbroken(line)
    ensures CutAt(line + (Behind(hs) + (BLANK_LINE + body)), BLANK_LINE) == Some(Cut(line + Behind(hs), body))
  {
    BlankLineAt(hs, body);
    hide CutAt, Behind;
    UnbrokenSkip(line, Behind(hs) + (BLANK_LINE + body), BLANK_LINE);
  }

  // A printed request is one whole request, read to exactly its two halves.
  lemma PrintedIsFramed(verb: string, target: string, hs: seq<Header>, body: string)
    requires Unbroken(RequestLine(verb, target))
    requires GoodHeaders(hs) && AnnouncesBody(hs, body)
    requires |PrintRequest(verb, target, hs, body)| <= MAX_REQUEST_BYTES
    ensures var stream := PrintRequest(verb, target, hs, body);
      Framed(stream) && StateOf(stream) == Reader(stream, Some(|stream| - |body|), |body|)
  {
    var line := RequestLine(verb, target);
    var stream := PrintRequest(verb, target, hs, body);
    hide *;
    PrintedShape(verb, target, hs, body);
    BlankLineFound(line, hs, body);
    BodyFits(verb, target, hs, body);
    LengthRead(line, hs, body);
    StateIs(stream, line + Behind(hs), body);
  }

  lemma BodyFits(verb: string, target: string, hs: seq<Header>, body: string)
    requires |PrintRequest(verb, target, hs, body)| <= MAX_REQUEST_BYTES
    ensures |body| < MAX_REQUEST_BYTES < UINT64_BOUND
  {}

  lemma StateIs(stream: string, head: string, body: string)
    requires |stream| == |head| + |BLANK_LINE| + |body|
    requires CutAt(stream, BLANK_LINE) == Some(Cut(head, body))
    requires ContentLength(head + BLANK_LINE) == |body| && |stream| <= MAX_REQUEST_BYTES
    ensures Framed(stream) && StateOf(stream) == Reader(stream, Some(|stream| - |body|), |body|)
  {
    hide CutAt, ContentLength;
  }

  // Any division of a printed request into receive chunks parses to the verb,
  // the decoded target, exactly the headers printed, and the body.
  lemma PrintedParses(verb: string, target: string, hs: seq<Header>, body: string, chunks: seq<string>)
    requires ' ' !in verb && ' ' !in target && Unbroken(RequestLine(verb, target))
    requires GoodHeaders(hs) && AnnouncesBody(hs, body)
    requires |PrintRequest(verb, target, hs, body)| <= MAX_REQUEST_BYTES
    requires Concat(chunks) == PrintRequest(verb, target, hs, body)
    requires forall k :: 0 <= k < |chunks| ==> 0 < |chunks[k]| <= 8192
    ensures Parsed(ReadAll(Reader("", None, 0), chunks)) ==
      WithTarget(EMPTY_REQUEST.(verb := verb, headers := HeaderMap(hs, map[]), body := body), target)
  {
    PrintedIsFramed(verb, target, hs, body);
    ChunkingIndependent(chunks, PrintRequest(verb, target, hs, body));
    PrintedShape(verb, target, hs, body);
    RequestLineRead(verb, target, PrintLines(hs) + (CRLF + body));
    LinesParse(hs, body, map[]);
    PrintedStart(verb, target, hs, body);
    hide CutAt, PrintLines, Framed, Behind;
  }

  lemma PrintedStart(verb: string, target: string, hs: seq<Header>, body: string)
    ensures PrintRequest(verb, target, hs, body) == RequestLine(verb, target) + CRLF + (PrintLines(hs) + (CRLF + body))
    ensures |PrintRequest(verb, target, hs, body)| >= |body| + 4
    ensures PrintRequest(verb, target, hs, body)[|PrintRequest(verb, target, hs, body)| - |body|..] == body
  {}

  lemma RequestLineRead(verb: string, target: string, rest: string)
    requires ' ' !in verb && ' ' !in target && Unbroken(RequestLine(verb, target))
    ensures CutAt(RequestLine(verb, target) + CRLF + rest, CRLF) == Some(Cut(RequestLine(verb, target), rest))
    ensures CutAt(RequestLine(verb, target), " ") == Some(Cut(verb, target + " HTTP/1.1"))
    ensures CutAt(target + " HTTP/1.1", " ") == Some(Cut(target, "HTTP/1.1"))
  {
    hide CutAt;
    OneLine(RequestLine(verb, target), rest);
    CutAtChar(verb, ' ', target + " HTTP/1.1");
    CutAtChar(target, ' ', "HTTP/1.1");
    assert target + " HTTP/1.1" == target + " " + "HTTP/1.1";
  }

  lemma TokensUnbroken(verb: string, target: string)
    requires '\r' !in verb && '\r' !in target
    ensures Unbroken(RequestLine(verb, target))
  {
    PlainIsUnbroken(RequestLine(verb, target));
  }

  // The request getFragments sends, however recv divides it, arrives with
  // exactly its path, chat id and cursor.
  lemma FetchRequestArrives(chatId: string, since: int, hs: seq<Header>, chunks: seq<string>)
    requires Bytes(chatId) && GoodHeaders(hs) && Announced(hs) == None
    requires var stream := PrintRequest("GET", FRAGMENTS_PATH + "?" + FragmentsQuery(chatId, since), hs, "");
      Concat(chunks) == stream && |stream| <= MAX_REQUEST_BYTES
    requires forall k :: 0 <= k < |chunks| ==> 0 < |chunks[k]| <= 8192
    ensures Parsed(ReadAll(Reader("", None, 0), chunks)) ==
      Request("GET", FRAGMENTS_PATH, HeaderMap(hs, map[]), map["chat_id" := chatId, "since" := IntText(since)], "")
  {
    var query := FragmentsQuery(chatId, since);
    var target := FRAGMENTS_PATH + "?" + query;
    QueryIsToken(chatId, since);
    PathIsPlain();
    hide *;
    InJoined(FRAGMENTS_PATH, '?', query);
    TokensUnbroken("GET", target);
    PrintedParses("GET", target, hs, "", chunks);
    FetchTarget(EMPTY_REQUEST.(verb := "GET", headers := HeaderMap(hs, map[]), body := ""), chatId, since);
  }

  const FRAGMENTS_PATH: string := "/api/fragments"

  lemma PathIsPlain()
    ensures '?' !in FRAGMENTS_PATH && ' ' !in FRAGMENTS_PATH && '\r' !in FRAGMENTS_PATH
    ensures '%' !in FRAGMENTS_PATH && '+' !in FRAGMENTS_PATH
  {}

  lemma FetchTarget(req: Request, chatId: string, since: int)
    requires Bytes(chatId)
    ensures WithTarget(req, FRAGMENTS_PATH + "?" + FragmentsQuery(chatId, since)) ==
      req.(path := FRAGMENTS_PATH, queryParams := map["chat_id" := chatId, "since" := IntText(since)])
  {
    hide UrlDecode, ParseQuery, FragmentsQuery, CutAt;
    PathIsPlain();
    CutAtChar(FRAGMENTS_PATH, '?', FragmentsQuery(chatId, since));
    PlainDecodes(FRAGMENTS_PATH);
    QueryRoundTrip(chatId, since);
  }

  // With distinct names the header map holds exactly the printed pairs.
  lemma {:induction false} DistinctHeaders(hs: seq<Header>, headers: map<string, string>)
    requires forall i, j :: 0 <= i < j < |hs| ==> Lower(hs[i].name) != Lower(hs[j].name)
    requires forall h :: h in hs ==> Lower(h.name) !in headers
    ensures forall h :: h in hs ==>
      Lower(h.name) in HeaderMap(hs, headers) && HeaderMap(hs, headers)[Lower(h.name)] == h.value
    ensures HeaderMap(hs, headers).Keys == headers.Keys + set h | h in hs :: Lower(h.name)
    ensures forall name :: name in headers ==> HeaderMap(hs, headers)[name] == headers[name]
  {
    if hs == [] {
    } else {
      var more := headers[Lower(hs[0].name) := hs[0].value];
      forall h | h in hs[1..] ensures Lower(h.name) !in more {
        var j :| 1 <= j < |hs| && hs[j] == h;
      }
      DistinctHeaders(hs[1..], more);
      assert hs == [hs[0]] + hs[1..];
    }
  }
}
