// Query strings: encodeURIComponent on the client, url_decode and parse_query
// on the server. Texts are byte strings: every character is below 256.

module Query {
  import opened Options
  import opened Text
  import opened Numerals

  predicate Bytes(s: string) { forall k :: 0 <= k < |s| ==> s[k] < 256 as char }

  function HexDigit(c: char): Option<nat> {
    if '0' <= c <= '9' then Some((c - '0') as nat)
    else if 'a' <= c <= 'f' then Some((c - 'a') as nat + 10)
    else if 'A' <= c <= 'F' then Some((c - 'A') as nat + 10)
    else None
  }

  // strtol(hex, &end, 16) on a two-character text: blanks and one sign are
  // skipped, and reading stops at the first character that is no digit.
  function Strtol2(a: char, b: char): int {
    match HexDigit(a)
    case Some(x) => (match HexDigit(b) case Some(y) => 16 * x + y case None => x)
    case None =>
      match HexDigit(b)
      case None => 0
      case Some(y) => if IsBlank(a) || a == '+' then y else if a == '-' then -(y as int) else 0
  }

  function ToChar(n: int): char { (n % 256) as char }

  // The character that the next one, two or three stand for, and how many they are.
  function NextChar(t: string): (r: (char, nat))
    requires t != ""
    ensures 1 <= r.1 <= |t|
  {
    if t[0] == '%' && |t| > 2 then (ToChar(Strtol2(t[1], t[2])), 3) else if t[0] == '+' then (' ', 1) else (t[0], 1)
  }

  // utils::url_decode
  function UrlDecode(s: string): string {
    if s == "" then "" else [NextChar(s).0] + UrlDecode(s[NextChar(s).1..])
  }

  lemma DecodeNext(t: string, out: string)
    requires t != ""
    ensures out + UrlDecode(t) == out + [NextChar(t).0] + UrlDecode(t[NextChar(t).1..])
  {
    hide NextChar;
  }

  method UrlDecodeLoop(s: string) returns (out: string)
    ensures out == UrlDecode(s)
  {
    hide ToChar, Strtol2, UrlDecode;
    out := "";
    var i := 0;
    while i < |s|
      invariant 0 <= i <= |s|
      invariant UrlDecode(s) == out + UrlDecode(s[i..])
    {
      ghost var rest, next := s[i..], NextChar(s[i..]);
      assert |rest| == |s| - i && rest[0] == s[i];
      DecodeNext(rest, out);
      if s[i] == '%' && i + 2 < |s| {
        assert rest[1] == s[i + 1] && rest[2] == s[i + 2];
        out := out + [ToChar(Strtol2(s[i + 1], s[i + 2]))];
        i := i + 2;
      } else if s[i] == '+' {
        out := out + [' '];
      } else {
        out := out + [s[i]];
      }
      i := i + 1;
      assert rest[next.1..] == s[i..];
    }
    assert s[i..] == "";
    assert UrlDecode("") == "" by { EmptyDecodes(); }
  }

  lemma EmptyDecodes()
    ensures UrlDecode("") == ""
  {}

  // ---- encodeURIComponent ----

  predicate Unreserved(c: char) {
    || 'A' <= c <= 'Z' || 'a' <= c <= 'z' || '0' <= c <= '9'
    || c == '-' || c == '_' || c == '.' || c == '!' || c == '~' || c == '*' || '\'' <= c <= ')'
  }

  function UpperHex(d: nat): char
    requires d < 16
  {
    if d < 10 then '0' + d as char else 'A' + (d - 10) as char
  }

  function EncodeByte(c: char): string
    requires c < 256 as char
  {
    if Unreserved(c) then [c] else EscapeByte(c)
  }

  function EscapeByte(c: char): string
    requires c < 256 as char
  {
    ['%', UpperHex(c as nat / 16), UpperHex(c as nat % 16)]
  }

  function EncodeComponent(s: string): string
    requires Bytes(s)
  {
    if s == "" then "" else EncodeByte(s[0]) + EncodeComponent(s[1..])
  }

  lemma HexReads(c: char)
    requires c < 256 as char
    ensures ToChar(Strtol2(UpperHex(c as nat / 16), UpperHex(c as nat % 16))) == c
  {
    HexDigitOf(c as nat / 16);
    HexDigitOf(c as nat % 16);
  }

  lemma HexDigitOf(d: nat)
    requires d < 16
    ensures HexDigit(UpperHex(d)) == Some(d)
    ensures Unreserved(UpperHex(d))
  {}

  lemma DecodeByte(c: char, tail: string)
    requires c < 256 as char
    ensures UrlDecode(EncodeByte(c) + tail) == [c] + UrlDecode(tail)
  {
    var t := EncodeByte(c) + tail;
    if Unreserved(c) {
      assert NextChar(t) == (c, 1) && t[1..] == tail;
    } else {
      HexReads(c);
      assert NextChar(t) == (c, 3) && t[3..] == tail;
    }
  }

  lemma {:induction false} DecodeEncoded(s: string)
    requires Bytes(s)
    ensures UrlDecode(EncodeComponent(s)) == s
  {
    if s == "" {
    } else {
      DecodeEncoded(s[1..]);
      DecodeByte(s[0], EncodeComponent(s[1..]));
      assert s == [s[0]] + s[1..];
    }
  }

  lemma {:induction false} EncodedIsClean(s: string)
    requires Bytes(s)
    ensures forall c :: c in EncodeComponent(s) ==> Unreserved(c) || c == '%'
  {
    if s == "" {
    } else {
      EncodedIsClean(s[1..]);
      HexDigitOf(s[0] as nat / 16);
      HexDigitOf(s[0] as nat % 16);
      hide UpperHex, Unreserved;
      assert forall c :: c in EncodeByte(s[0]) ==> Unreserved(c) || c == '%';
    }
  }

  lemma {:induction false} PlainDecodes(s: string)
    requires '%' !in s && '+' !in s
    ensures UrlDecode(s) == s
  {
    if s == "" {
    } else {
      PlainDecodes(s[1..]);
      assert s == [s[0]] + s[1..];
    }
  }

  lemma {:induction false} PlainPrefixDecodes(plain: string, tail: string)
    requires '%' !in plain && '+' !in plain
    ensures UrlDecode(plain + tail) == plain + UrlDecode(tail)
  {
    if plain == "" {
      assert plain + tail == tail;
    } else {
      var rest := plain[1..] + tail;
      assert plain + tail == [plain[0]] + rest;
      PlainPrefixDecodes(plain[1..], tail);
      assert plain == [plain[0]] + plain[1..];
    }
  }

  // ---- What fetch makes of a url (WHATWG URL, sections 1.3 and 4.4) ----

  // The characters percent-encoded in a path and in a query of http and https.
  datatype EncodeSet = PathSet | QuerySet

  predicate InSet(escaped: EncodeSet, c: char) {
    || c <= ' ' || c > '~' || c == '"' || c == '#' || c == '<' || c == '>'
    || if escaped.PathSet? then c == '?' || c == '^' || c == '`' || c == '{' || c == '}' else c == '\''
  }

  function PercentEncode(escaped: EncodeSet, s: string): string
    requires Bytes(s)
  {
    if s == "" then "" else PercentByte(escaped, s[0]) + PercentEncode(escaped, s[1..])
  }

  function PercentByte(escaped: EncodeSet, c: char): string
    requires c < 256 as char
  {
    if InSet(escaped, c) then EscapeByte(c) else [c]
  }

  predicate SingleDot(segment: string) { Lower(segment) in {".", "%2e"} }

  predicate DoubleDot(segment: string) { Lower(segment) in {"..", ".%2e", "%2e.", "%2e%2e"} }

  // One step of the path state: a dot segment is dropped, two dots drop the
  // segment before as well, and either of them at the end leaves an empty segment.
  function DotStep(path: seq<string>, segment: string, last: bool): seq<string> {
    var end := if last then [""] else [];
    if DoubleDot(segment) then (if path == [] then [] else path[..|path| - 1]) + end
    else if SingleDot(segment) then path + end
    else path + [segment]
  }

  // The path state over the segments behind the first slash.
  function ResolveDots(path: seq<string>, segments: seq<string>): seq<string>
    decreases |segments|
  {
    if segments == [] then path
    else ResolveDots(DotStep(path, segments[0], |segments| == 1), segments[1..])
  }

  // The path a request for these segments is sent with.
  function SentPath(segments: seq<string>): string
    requires forall s :: s in segments ==> Bytes(s)
  {
    "/" + Join(ResolveDots([], seq(|segments|, k requires 0 <= k < |segments| =>
      assert segments[k] in segments; PercentEncode(PathSet, segments[k]))), '/')
  }

  lemma {:induction false} PercentStays(escaped: EncodeSet, s: string)
    requires forall c :: c in s ==> !InSet(escaped, c)
    ensures Bytes(s) && PercentEncode(escaped, s) == s
  {
    assert forall k :: 0 <= k < |s| ==> s[k] in s;
    if s == "" {
    } else {
      PercentStays(escaped, s[1..]);
      assert s == [s[0]] + s[1..];
    }
  }

  lemma {:induction false} PercentConcat(escaped: EncodeSet, a: string, b: string)
    requires Bytes(a) && Bytes(b)
    ensures Bytes(a + b) && PercentEncode(escaped, a + b) == PercentEncode(escaped, a) + PercentEncode(escaped, b)
  {
    hide PercentByte;
    if a == "" {
      assert a + b == b;
    } else {
      PercentConcat(escaped, a[1..], b);
      assert (a + b)[1..] == a[1..] + b && (a + b)[0] == a[0];
    }
  }

  lemma LettersStay(escaped: EncodeSet, s: string)
    requires forall k :: 0 <= k < |s| ==> 'a' <= s[k] <= 'z'
    ensures Bytes(s) && PercentEncode(escaped, s) == s
  {
    forall c | c in s ensures !InSet(escaped, c) {
      var k :| 0 <= k < |s| && s[k] == c;
    }
    PercentStays(escaped, s);
  }

  lemma EncodedIsToken(s: string)
    requires Bytes(s)
    ensures '\r' !in EncodeComponent(s) && ' ' !in EncodeComponent(s) && '?' !in EncodeComponent(s)
  {
    hide EncodeComponent;
    EncodedIsClean(s);
  }

  lemma EncodedStays(s: string)
    requires Bytes(s)
    ensures Bytes(EncodeComponent(s)) && PercentEncode(PathSet, EncodeComponent(s)) == EncodeComponent(s)
  {
    EncodedIsClean(s);
    PercentStays(PathSet, EncodeComponent(s));
  }

  lemma DotReads(e: string, tail: string)
    requires Lower(e) in {".", "%2e"}
    ensures UrlDecode(e + tail) == "." + UrlDecode(tail)
  {
    var t := e + tail;
    if |e| == 1 {
      assert e[0] == '.';
      assert NextChar(t) == ('.', 1) && t[1..] == tail;
    } else {
      assert LowerChar(e[0]) == '%' && LowerChar(e[1]) == '2' && LowerChar(e[2]) == 'e';
      assert e[0] == '%' && e[1] == '2' && (e[2] == 'e' || e[2] == 'E');
      assert t[1] == e[1] && t[2] == e[2];
      assert NextChar(t) == ('.', 3) && t[3..] == tail;
    }
  }

  // A dot segment decodes to its dots.
  lemma DotsDecode(e: string)
    ensures SingleDot(e) ==> UrlDecode(e) == "."
    ensures DoubleDot(e) ==> UrlDecode(e) == ".."
  {
    EmptyDecodes();
    if SingleDot(e) {
      DotReads(e, "");
      assert e + "" == e;
    }
    if DoubleDot(e) {
      var k := if e[0] == '.' then 1 else 3;
      DotHalves(e, k);
      hide UrlDecode, Lower;
      DotReads(e[..k], e[k..]);
      DotReads(e[k..], "");
      assert e[..k] + e[k..] == e && e[k..] + "" == e[k..];
    }
  }

  lemma DotHalves(e: string, k: nat)
    requires DoubleDot(e) && k == if e[0] == '.' then 1 else 3
    ensures k < |e| && Lower(e[..k]) in {".", "%2e"} && Lower(e[k..]) in {".", "%2e"}
  {
    var low := Lower(e);
    assert LowerChar(e[0]) == low[0];
    LowHalves(low, k);
    assert Lower(e[..k]) == low[..k] && Lower(e[k..]) == low[k..];
    hide LowerChar;
  }

  lemma LowHalves(low: string, k: nat)
    requires low in {"..", ".%2e", "%2e.", "%2e%2e"} && k == if low[0] == '.' then 1 else 3
    ensures k < |low| && low[..k] in {".", "%2e"} && low[k..] in {".", "%2e"}
  {
    if |low| == 2 {
      assert low[..k] == ['.'] && low[k..] == ['.'];
    } else if |low| == 6 {
      assert low[..k] == ['%', '2', 'e'] && low[k..] == ['%', '2', 'e'];
    } else if k == 1 {
      assert low[..k] == ['.'] && low[k..] == ['%', '2', 'e'];
    } else {
      assert low[..k] == ['%', '2', 'e'] && low[k..] == ['.'];
    }
  }

  // Of what encodeURIComponent prints only "." and ".." are dot segments.
  lemma EncodedDots(s: string)
    requires Bytes(s)
    ensures SingleDot(EncodeComponent(s)) <==> s == "."
    ensures DoubleDot(EncodeComponent(s)) <==> s == ".."
  {
    hide EncodeComponent, UrlDecode, SingleDot, DoubleDot;
    DecodeEncoded(s);
    DotsDecode(EncodeComponent(s));
    DotsEncoded();
  }

  lemma DotsEncoded()
    ensures EncodeComponent(".") == "." && EncodeComponent("..") == ".."
    ensures SingleDot(".") && !DoubleDot(".") && DoubleDot("..") && !SingleDot("..")
  {
    assert ".."[1..] == ".";
    assert Lower(".") == "." && Lower("..") == "..";
  }

  // encodeURIComponent of a text as it is sent in a query: the apostrophe,
  // which it leaves, is escaped as well.
  function SentComponent(s: string): string
    requires Bytes(s)
  {
    EncodedStays(s);
    PercentEncode(QuerySet, EncodeComponent(s))
  }

  lemma SentByte(c: char)
    requires c < 256 as char
    ensures Bytes(EncodeByte(c)) && PercentEncode(QuerySet, EncodeByte(c)) == if c == '\'' then "%27" else EncodeByte(c)
  {
    if c == '\'' {
      ApostropheSent();
    } else {
      hide EncodeByte, PercentEncode;
      SentByteIsClean(c);
      PercentStays(QuerySet, EncodeByte(c));
    }
  }

  lemma ApostropheSent()
    ensures EncodeByte('\'') == "'" && PercentEncode(QuerySet, "'") == "%27"
  {
    assert EscapeByte('\'') == "%27" && "'"[1..] == "";
    assert PercentEncode(QuerySet, "'") == PercentByte(QuerySet, '\'') + PercentEncode(QuerySet, "");
  }

  lemma SentByteIsClean(c: char)
    requires c < 256 as char && c != '\''
    ensures forall d :: d in EncodeByte(c) ==> (Unreserved(d) && d != '\'') || d == '%'
  {
    HexDigitOf(c as nat / 16);
    HexDigitOf(c as nat % 16);
  }

  lemma SentStep(s: string)
    requires Bytes(s) && s != ""
    ensures SentComponent(s) == (if s[0] == '\'' then "%27" else EncodeByte(s[0])) + SentComponent(s[1..])
  {
    EncodedStays(s[1..]);
    SentByte(s[0]);
    PercentConcat(QuerySet, EncodeByte(s[0]), EncodeComponent(s[1..]));
  }

  lemma DecodeApostrophe(tail: string)
    ensures UrlDecode("%27" + tail) == "'" + UrlDecode(tail)
  {
    var t := "%27" + tail;
    assert NextChar(t) == ('\'', 3) && t[3..] == tail;
  }

  // What the server decodes is the text, and it is one item of a query.
  lemma {:induction false} DecodeSent(s: string)
    requires Bytes(s)
    ensures UrlDecode(SentComponent(s)) == s
    ensures forall c :: c in SentComponent(s) ==> (Unreserved(c) && c != '\'') || c == '%'
  {
    if s == "" {
    } else {
      hide UrlDecode, SentComponent, EncodeByte;
      DecodeSent(s[1..]);
      SentStep(s);
      if s[0] == '\'' {
        DecodeApostrophe(SentComponent(s[1..]));
      } else {
        SentByteIsClean(s[0]);
        DecodeByte(s[0], SentComponent(s[1..]));
      }
      assert s == [s[0]] + s[1..];
    }
  }

  // ---- parse_query ----

  function PairKey(pair: string): string {
    match CutAt(pair, "=")
    case None => UrlDecode(pair)
    case Some(c) => UrlDecode(c.before)
  }

  function PairValue(pair: string): string {
    match CutAt(pair, "=")
    case None => ""
    case Some(c) => UrlDecode(c.after)
  }

  function PairMap(pairs: seq<string>): map<string, string> {
    if pairs == [] then map[]
    else
      var n := |pairs| - 1;
      PairMap(pairs[..n])[PairKey(pairs[n]) := PairValue(pairs[n])]
  }

  function ParseQuery(qs: string): map<string, string> { PairMap(Split(qs, '&')) }

  lemma PairParts(pair: string, eq: Option<nat>)
    requires eq == FindFrom(pair, "=", 0)
    ensures if eq == None then PairKey(pair) == UrlDecode(pair) && PairValue(pair) == ""
            else
              eq.value < |pair| && PairKey(pair) == UrlDecode(pair[..eq.value]) &&
              PairValue(pair) == UrlDecode(pair[eq.value + 1..])
  {
    hide UrlDecode, CutAt;
    assert pair[0..] == pair;
    if eq != None { CutSlices(pair, CutAt(pair, "=").value); }
  }

  lemma CutSlices(pair: string, c: Cut)
    requires CutAt(pair, "=") == Some(c)
    ensures |c.before| < |pair| && pair[..|c.before|] == c.before && pair[|c.before| + 1..] == c.after
  {
    hide CutAt;
    CutMeaning(pair, "=");
    assert pair == c.before + "=" + c.after;
  }

  method ParseQueryLoop(qs: string) returns (result: map<string, string>)
    ensures result == ParseQuery(qs)
  {
    hide UrlDecode, Split, PairKey, PairValue, FindFrom;
    var pairs := SplitLoop(qs, '&');
    result := map[];
    var i := 0;
    while i < |pairs|
      invariant 0 <= i <= |pairs|
      invariant result == PairMap(pairs[..i])
    {
      var pair := pairs[i];
      assert pairs[..i + 1][..i] == pairs[..i];
      var eq := FindFrom(pair, "=", 0);
      PairParts(pair, eq);
      if eq == None {
        var key := UrlDecodeLoop(pair);
        result := result[key := ""];
      } else {
        var key := UrlDecodeLoop(pair[..eq.value]);
        var value := UrlDecodeLoop(pair[eq.value + 1..]);
        result := result[key := value];
      }
      i := i + 1;
    }
    assert pairs[..i] == pairs;
  }

  // The query getFragments sends, as fetch writes it.
  function FragmentsQuery(chatId: string, since: int): string
    requires Bytes(chatId)
  {
    QueryTextIsBytes(chatId, since);
    PercentEncode(QuerySet, "chat_id=" + EncodeComponent(chatId) + ("&since=" + IntText(since)))
  }

  lemma QueryTextIsBytes(chatId: string, since: int)
    requires Bytes(chatId)
    ensures Bytes("chat_id=" + EncodeComponent(chatId) + ("&since=" + IntText(since)))
  {
    EncodedStays(chatId);
    NumberStays(since);
    hide EncodeComponent, IntText;
  }

  lemma NumberStays(n: int)
    ensures forall c :: c in "&since=" + IntText(n) ==> !InSet(QuerySet, c)
    ensures Bytes("&since=" + IntText(n)) && PercentEncode(QuerySet, "&since=" + IntText(n)) == "&since=" + IntText(n)
  {
    hide Decimal;
    PercentStays(QuerySet, "&since=" + IntText(n));
  }

  // Percent-encoding the query touches the chat id alone.
  lemma QueryParts(chatId: string, since: int)
    requires Bytes(chatId)
    ensures FragmentsQuery(chatId, since) ==
      "chat_id" + "=" + SentComponent(chatId) + "&" + ("since" + "=" + IntText(since))
  {
    hide EncodeComponent, IntText, PercentEncode, InSet;
    EncodedStays(chatId);
    NumberStays(since);
    KeyStays();
    PercentConcat(QuerySet, "chat_id=", EncodeComponent(chatId));
    PercentConcat(QuerySet, "chat_id=" + EncodeComponent(chatId), "&since=" + IntText(since));
    ItemsJoined(SentComponent(chatId), IntText(since));
  }

  lemma KeyStays()
    ensures Bytes("chat_id=") && PercentEncode(QuerySet, "chat_id=") == "chat_id="
  {
    PercentStays(QuerySet, "chat_id=");
  }

  lemma ItemsJoined(a: string, b: string)
    ensures "chat_id=" + a + ("&since=" + b) == "chat_id" + "=" + a + "&" + ("since" + "=" + b)
  {}

  lemma IntTextIsPlain(n: int)
    ensures '%' !in IntText(n) && '+' !in IntText(n) && '&' !in IntText(n) && '=' !in IntText(n) && IntText(n) != ""
  {}

  // A `key=value` item with a plain key.
  lemma PairReads(key: string, value: string)
    requires '=' !in key && '%' !in key && '+' !in key
    ensures PairKey(key + "=" + value) == key && PairValue(key + "=" + value) == UrlDecode(value)
  {
    CutAtChar(key, '=', value);
    PlainDecodes(key);
  }

  // The query is one token of a request line.
  lemma QueryIsToken(chatId: string, since: int)
    requires Bytes(chatId)
    ensures '\r' !in FragmentsQuery(chatId, since) && ' ' !in FragmentsQuery(chatId, since)
  {
    hide SentComponent, FragmentsQuery, Decimal;
    DecodeSent(chatId);
    QueryParts(chatId, since);
    NumberIsToken(since);
    hide IntText, UrlDecode;
  }

  lemma NumberIsToken(n: int)
    ensures '\r' !in IntText(n) && ' ' !in IntText(n)
  {
    hide Decimal;
  }

  lemma QuerySplits(chatId: string, since: int)
    requires Bytes(chatId)
    ensures Split(FragmentsQuery(chatId, since), '&')
         == ["chat_id" + "=" + SentComponent(chatId), "since" + "=" + IntText(since)]
  {
    hide SentComponent, FragmentsQuery, Decimal, IntText;
    var a, b := "chat_id" + "=" + SentComponent(chatId), "since" + "=" + IntText(since);
    DecodeSent(chatId);
    IntTextIsPlain(since);
    QueryParts(chatId, since);
    assert '&' !in "chat_id" && '&' !in "since";
    CutAtChar(a, '&', b);
    SplitJoin([b], '&');
  }

  // The server recovers exactly the two entries, whatever bytes the chat id
  // holds, and its stoll recovers the cursor.
  lemma QueryRoundTrip(chatId: string, since: int)
    requires Bytes(chatId)
    ensures ParseQuery(FragmentsQuery(chatId, since)) == map["chat_id" := chatId, "since" := IntText(since)]
    ensures -INT64_BOUND <= since < INT64_BOUND ==> Stoll(IntText(since)) == Some(since)
    ensures IntText(since) != ""
  {
    hide UrlDecode, Split;
    var a, b := "chat_id" + "=" + SentComponent(chatId), "since" + "=" + IntText(since);
    QuerySplits(chatId, since);
    DecodeSent(chatId);
    IntTextIsPlain(since);
    PlainDecodes(IntText(since));
    assert -INT64_BOUND <= since < INT64_BOUND ==> Stoll(IntText(since)) == Some(since) by {
      if -INT64_BOUND <= since < INT64_BOUND {
        IntegerRead(since, "");
        assert IntText(since) + "" == IntText(since);
      }
    }
    PairReads("chat_id", SentComponent(chatId));
    PairReads("since", IntText(since));
    hide SentComponent, Decimal, IntText, PairKey, PairValue, Stoll, Split;
    assert [a, b][..1] == [a] && [a][..0] == [];
    assert PairMap([a]) == map["chat_id" := chatId];
  }
}
