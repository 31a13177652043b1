// handlers.cpp and utils.hpp: the hand-written JSON printer, and the reader
// that finds a member by the first occurrence of its quoted key.

module Json {
  import opened Options
  import opened Text
  import opened Numerals

  // ---- Printing ----

  function HexChar(d: nat): char requires d < 16 {
    if d < 10 then '0' + d as char else 'a' + (d - 10) as char
  }

  function EscapeChar(c: char): string {
    if c == '"' then "\\\""
    else if c == '\\' then "\\\\"
    else if c == '\n' then "\\n"
    else if c == '\r' then "\\r"
    else if c == '\t' then "\\t"
    else if c < ' ' then "\\u00" + [HexChar(c as nat / 16), HexChar(c as nat % 16)]
    else [c]
  }

  function Escape(s: string): string {
    if s == "" then "" else EscapeChar(s[0]) + Escape(s[1..])
  }

  // utils::json_escape
  method JsonEscape(s: string) returns (out: string)
    ensures out == Escape(s)
  {
    hide EscapeChar;
    out := "";
    var i := 0;
    while i < |s|
      invariant 0 <= i <= |s|
      invariant Escape(s) == out + Escape(s[i..])
    {
      assert s[i..][1..] == s[i + 1..];
      out := out + EscapeChar(s[i]);
      i := i + 1;
    }
  }

  datatype Member = Member(key: string, value: string)

  // String members, each followed by a comma.
  function Members(ms: seq<Member>): string {
    if ms == [] then ""
    else "\"" + ms[0].key + "\":\"" + Escape(ms[0].value) + "\"," + Members(ms[1..])
  }

  // ---- Reading ----

  function UnescapeChar(c: char): char {
    match c
    case 'n' => '\n'
    case 'r' => '\r'
    case 't' => '\t'
    case _ => c
  }

  // The value that starts right after an opening quote.
  function Scan(s: string): string {
    if s == "" then ""
    else if s[0] == '\\' && |s| > 1 then [UnescapeChar(s[1])] + Scan(s[2..])
    else if s[0] == '"' then ""
    else [s[0]] + Scan(s[1..])
  }

  function Quoted(key: string): string { "\"" + key + "\"" }

  // What follows the first `"key"` and the first colon after it.
  function AfterColon(json: string, key: string): Option<string> {
    match After(json, Quoted(key))
    case None => None
    case Some(rest) => After(rest, ":")
  }

  function StringAt(json: string, key: string): string {
    match AfterColon(json, key)
    case None => ""
    case Some(rest) =>
      match After(rest, "\"")
      case None => ""
      case Some(v) => Scan(v)
  }

  function SkipSpaces(s: string): string {
    if s != "" && (s[0] == ' ' || s[0] == '\t') then SkipSpaces(s[1..]) else s
  }

  function IntAt(json: string, key: string, default: int): int {
    match AfterColon(json, key)
    case None => default
    case Some(rest) =>
      match Stoll(SkipSpaces(rest))
      case None => default
      case Some(n) => n
  }

  // The position behind the first `"key"` and the first colon after it, as both readers compute it.
  method FindColon(json: string, key: string) returns (vstart: Option<nat>)
    ensures match vstart
            case None => AfterColon(json, key) == None
            case Some(i) => i <= |json| && AfterColon(json, key) == Some(json[i..])
  {
    var pattern := Quoted(key);
    var kpos := FindFrom(json, pattern, 0);
    FindIsAfter(json, pattern, 0);
    assert json[0..] == json;
    if kpos == None { return None; }
    var colon := FindFrom(json, ":", kpos.value + |pattern|);
    FindIsAfter(json, ":", kpos.value + |pattern|);
    if colon == None { return None; }
    vstart := Some(colon.value + 1);
  }

  // json_read::extract_string, index by index.
  method ExtractString(json: string, key: string) returns (val: string)
    ensures val == StringAt(json, key)
  {
    var colon := FindColon(json, key);
    if colon == None { return ""; }
    var quote := FindFrom(json, "\"", colon.value);
    FindIsAfter(json, "\"", colon.value);
    if quote == None { return ""; }
    val := ScanLoop(json, quote.value + 1);
  }

  // The unescaping loop of json_read::extract_string.
  method ScanLoop(json: string, vstart: nat) returns (val: string)
    requires vstart <= |json|
    ensures val == Scan(json[vstart..])
  {
    val := "";
    var i := vstart;
    while i < |json|
      invariant i <= |json|
      invariant Scan(json[vstart..]) == val + Scan(json[i..])
    {
      var c := json[i];
      var rest := json[i..];
      assert rest[0] == c && rest[1..] == json[i + 1..];
      if c == '\\' && i + 1 < |json| {
        assert rest[1] == json[i + 1] && rest[2..] == json[i + 2..];
        i := i + 1;
        val := val + [UnescapeChar(json[i])];
      } else if c == '"' {
        return;
      } else {
        val := val + [c];
      }
      i := i + 1;
    }
  }

  // json_read::extract_int
  method ExtractInt(json: string, key: string, default: int) returns (n: int)
    ensures n == IntAt(json, key, default)
  {
    var colon := FindColon(json, key);
    if colon == None { return default; }
    var vstart := colon.value;
    while vstart < |json| && (json[vstart] == ' ' || json[vstart] == '\t')
      invariant vstart <= |json|
      invariant SkipSpaces(json[vstart..]) == SkipSpaces(json[colon.value..])
    {
      assert json[vstart..][1..] == json[vstart + 1..];
      vstart := vstart + 1;
    }
    var v := Stoll(json[vstart..]);
    n := if v == None then default else v.value;
  }

  // ---- One printed value read back ----

  // The reader drops the backslash of an escape it does not know, so a control
  // character other than newline, return and tab comes back as u00hh.
  function RereadChar(c: char): string {
    if EscapeChar(c)[0] == '\\' && |EscapeChar(c)| > 2 then EscapeChar(c)[1..] else [c]
  }

  function Reread(s: string): string { if s == "" then "" else RereadChar(s[0]) + Reread(s[1..]) }

  predicate Plain(c: char) { c >= ' ' || c == '\n' || c == '\r' || c == '\t' }

  predicate Printable(s: string) { forall k :: 0 <= k < |s| ==> Plain(s[k]) }

  lemma PlainScan(t: string, tail: string)
    requires |t| >= 4 && t[4..] == tail
    requires forall k :: 0 <= k < 4 ==> t[k] != '\\' && t[k] != '"'
    ensures Scan(t) == t[..4] + Scan(tail)
  {
    assert t[1..][1..] == t[2..] && t[2..][1..] == t[3..] && t[3..][1..] == tail;
    assert Scan(t[3..]) == [t[3]] + Scan(tail);
    assert Scan(t[2..]) == [t[2]] + Scan(t[3..]);
    assert Scan(t[1..]) == [t[1]] + Scan(t[2..]);
  }

  // One printed character read back.
  lemma ScanChar(c: char, tail: string)
    ensures Scan(EscapeChar(c) + tail) == RereadChar(c) + Scan(tail)
  {
    var e := EscapeChar(c);
    var t := e + tail;
    if |e| == 1 {
      assert t[1..] == tail;
    } else if |e| == 2 {
      assert t[2..] == tail;
    } else {
      PlainScan(t[2..], tail);
      assert e[1..] == ['u'] + ['0', '0', e[4], e[5]];
    }
  }

  // An escaped value and its closing quote, character by character.
  lemma EscapedFirst(v: string, rest: string)
    ensures if v == "" then Escape(v) + "\"" + rest == "\"" + rest
            else Escape(v) + "\"" + rest == EscapeChar(v[0]) + (Escape(v[1..]) + "\"" + rest)
  {
    hide EscapeChar;
  }

  lemma ScanEnds(rest: string)
    ensures Scan("\"" + rest) == ""
  {}

  lemma {:induction false} ScanEscaped(v: string, rest: string)
    ensures Scan(Escape(v) + "\"" + rest) == Reread(v)
  {
    hide Scan, Escape, EscapeChar, RereadChar;
    EscapedFirst(v, rest);
    if v == "" {
      ScanEnds(rest);
    } else {
      ScanEscaped(v[1..], rest);
      ScanChar(v[0], Escape(v[1..]) + "\"" + rest);
    }
  }

  // Exactly the printable values survive.
  lemma {:induction false} RereadExact(s: string)
    ensures |Reread(s)| >= |s|
    ensures Reread(s) == s <==> Printable(s)
  {
    if s == "" {
    } else {
      RereadExact(s[1..]);
      assert s == [s[0]] + s[1..];
      assert Printable(s) <==> Plain(s[0]) && Printable(s[1..]) by {
        if Plain(s[0]) && Printable(s[1..]) {
          forall k | 0 <= k < |s| ensures Plain(s[k]) { if k > 0 { assert s[k] == s[1..][k - 1]; } }
        }
        if Printable(s) {
          forall k | 0 <= k < |s| - 1 ensures Plain(s[1..][k]) { assert s[1..][k] == s[k + 1]; }
        }
      }
      if Plain(s[0]) {
        assert Reread(s) == [s[0]] + Reread(s[1..]);
        assert Reread(s)[1..] == Reread(s[1..]);
      } else {
        assert |Reread(s)| > |s|;
      }
    }
  }

  // ---- Members read back through first-occurrence search ----

  predicate KeyChar(c: char) { c > ' ' && c != '"' && c != '\\' && c != ':' && c != ',' && c != '{' }

  predicate KeyText(s: string) { forall k :: 0 <= k < |s| ==> KeyChar(s[k]) }

  predicate GoodKey(key: string) { key != "" && KeyText(key) }

  // A value that the search mistakes for the key: it is the key, or it ends
  // in a quote followed by the key.
  predicate Shadows(value: string, key: string) {
    value == key || EndsQuoted(value, key)
  }

  predicate EndsQuoted(value: string, key: string) {
    value != "" && ((value[0] == '"' && value[1..] == key) || EndsQuoted(value[1..], key))
  }

  lemma {:induction false} EndsQuotedMeaning(value: string, key: string)
    ensures EndsQuoted(value, key) <==> |value| > |key| && value[|value| - |key| - 1..] == "\"" + key
  {
    if value == "" {
    } else {
      EndsQuotedMeaning(value[1..], key);
      if |value| > |key| + 1 {
        assert value[1..][|value[1..]| - |key| - 1..] == value[|value| - |key| - 1..];
        assert value[1..] != key;
      } else if |value| == |key| + 1 {
        assert value[|value| - |key| - 1..] == value;
        assert value == [value[0]] + value[1..];
      }
    }
  }

  lemma {:induction false} KeyIsPlain(key: string)
    requires KeyText(key)
    ensures Escape(key) == key
  {
    if key == "" {
    } else {
      KeyIsPlain(key[1..]);
      assert EscapeChar(key[0]) == [key[0]];
      assert key == [key[0]] + key[1..];
    }
  }

  // An escaped value and its closing quote begin with `key"` only when the value is the key.
  lemma {:induction false} KeyThenQuote(v: string, key: string, rest: string)
    requires KeyText(key)
    ensures key + "\"" <= Escape(v) + "\"" + rest <==> v == key
  {
    var t := Escape(v) + "\"" + rest;
    var p := key + "\"";
    if v == "" {
      assert t[0] == '"';
      if key != "" { assert p[0] == key[0]; }
    } else {
      var e := EscapeChar(v[0]);
      var tail := Escape(v[1..]) + "\"" + rest;
      assert t == e + tail;
      if key == "" {
        assert p[0] == '"' && t[0] == e[0];
      } else if e[0] != key[0] {
        assert p[0] == key[0] && t[0] == e[0];
        assert KeyChar(key[0]);
      } else {
        assert |e| == 1 && v[0] == key[0];
        KeyThenQuote(v[1..], key[1..], rest);
        assert p == [key[0]] + (key[1..] + "\"");
        assert t == [key[0]] + tail;
        PrefixPeel(key[0], key[1..] + "\"", tail);
        assert v == [v[0]] + v[1..] && key == [key[0]] + key[1..];
      }
    }
  }

  lemma PrefixPeel(c: char, p: string, t: string)
    ensures [c] + p <= [c] + t <==> p <= t
  {
    assert ([c] + p)[1..] == p && ([c] + t)[1..] == t;
    if [c] + p <= [c] + t { assert forall k :: 0 <= k < |p| ==> p[k] == ([c] + p)[k + 1]; }
  }

  // At a quote that opens an escaped value, the quoted key stands only when the value is the key.
  lemma AtQuote(v: string, key: string, rest: string)
    requires GoodKey(key)
    ensures Quoted(key) <= "\"" + (Escape(v) + "\"" + rest) <==> v == key
    ensures v == key ==> After("\"" + (Escape(v) + "\"" + rest), Quoted(key)) == Some(rest)
    ensures v != key ==>
      After("\"" + (Escape(v) + "\"" + rest), Quoted(key)) == After(Escape(v) + "\"" + rest, Quoted(key))
  {
    KeyThenQuote(v, key, rest);
    assert Quoted(key) == ['"'] + (key + "\"");
    PrefixPeel('"', key + "\"", Escape(v) + "\"" + rest);
    if v == key {
      KeyIsPlain(key);
      assert "\"" + (Escape(v) + "\"" + rest) == Quoted(key) + rest;
      AfterHere(Quoted(key), rest);
    } else {
      AfterStep('"', Escape(v) + "\"" + rest, Quoted(key));
    }
  }

  // A quote followed by punctuation is no place for a key.
  lemma QuoteThenPunctuation(c: char, rest: string, key: string)
    requires GoodKey(key) && (c == ',' || c == ':')
    ensures After("\"" + ([c] + rest), Quoted(key)) == After(rest, Quoted(key))
  {
    var t := "\"" + ([c] + rest);
    assert t[1] == c && Quoted(key)[1] == key[0];
    AfterStep('"', [c] + rest, Quoted(key));
    AfterSkip([c], rest, Quoted(key));
  }

  // Only a quote is escaped with a quote.
  lemma QuoteInEscape(c: char, tail: string)
    ensures if c == '"' then EscapeChar(c) + tail == "\\" + ("\"" + tail) else '"' !in EscapeChar(c)
  {}

  // Searching inside an escaped value: a hit only when the value ends in a
  // quote and the key, and then the hit ends with the closing quote.
  lemma {:induction false} SearchValue(v: string, key: string, rest: string)
    requires GoodKey(key)
    ensures After(Escape(v) + "\"" + rest, Quoted(key))
         == if EndsQuoted(v, key) then Some(rest) else After("\"" + rest, Quoted(key))
  {
    hide Escape, EscapeChar, After;
    EscapedFirst(v, rest);
    if v == "" {
    } else {
      var tail := Escape(v[1..]) + "\"" + rest;
      SearchValue(v[1..], key, rest);
      QuoteInEscape(v[0], tail);
      if v[0] == '"' {
        AfterSkip("\\", "\"" + tail, Quoted(key));
        AtQuote(v[1..], key, rest);
      } else {
        AfterSkip(EscapeChar(v[0]), tail, Quoted(key));
      }
    }
  }

  // What stands after the key of a member, up to the end of the object.
  function FromColon(m: Member, rest: string): string { ":" + ("\"" + (Escape(m.value) + "\"" + ("," + rest))) }

  // Where the first-occurrence search stops in a printed member that does not have the key.
  lemma SearchMember(m: Member, key: string, rest: string)
    requires GoodKey(key) && GoodKey(m.key) && m.key != key
    ensures After(Quoted(m.key) + FromColon(m, rest), Quoted(key))
         == if Shadows(m.value, key) then Some("," + rest) else After(rest, Quoted(key))
  {
    var p := Quoted(key);
    var value := "\"" + (Escape(m.value) + "\"" + ("," + rest));
    KeyIsPlain(m.key);
    assert Quoted(m.key) + FromColon(m, rest) == "\"" + (Escape(m.key) + "\"" + (":" + value));
    AtQuote(m.key, key, ":" + value);
    assert !EndsQuoted(m.key, key) by { NoQuoteNoEnd(m.key, key); }
    SearchValue(m.key, key, ":" + value);
    QuoteThenPunctuation(':', value, key);
    AtQuote(m.value, key, "," + rest);
    SearchValue(m.value, key, "," + rest);
    QuoteThenPunctuation(',', rest, key);
  }

  lemma {:induction false} NoQuoteNoEnd(v: string, key: string)
    requires KeyText(v)
    ensures !EndsQuoted(v, key)
  {
    if v == "" {
    } else {
      NoQuoteNoEnd(v[1..], key);
    }
  }

  // Reading on from behind a key, or from behind a shadowing value.
  lemma ColonNext(m: Member, rest: string)
    requires GoodKey(m.key)
    ensures After(FromColon(m, rest), ":") == Some("\"" + (Escape(m.value) + "\"" + ("," + rest)))
    ensures After("," + (Quoted(m.key) + FromColon(m, rest)), ":") ==
      Some("\"" + (Escape(m.value) + "\"" + ("," + rest)))
  {
    var value := "\"" + (Escape(m.value) + "\"" + ("," + rest));
    AfterHere(":", value);
    assert "," + (Quoted(m.key) + FromColon(m, rest)) == ("," + Quoted(m.key)) + FromColon(m, rest);
    assert ':' !in "," + Quoted(m.key);
    AfterSkip("," + Quoted(m.key), FromColon(m, rest), ":");
  }

  // The member the search for `key` ends up reading: the one after a value
  // that shadows the key, or the one that has the key.
  function Reached(ms: seq<Member>, key: string): Option<string> {
    if ms == [] then None
    else if ms[0].key == key then Some(ms[0].value)
    else if Shadows(ms[0].value, key) then (if |ms| > 1 then Some(ms[1].value) else None)
    else Reached(ms[1..], key)
  }

  predicate GoodKeys(ms: seq<Member>) { forall m :: m in ms ==> GoodKey(m.key) }

  predicate HasKey(ms: seq<Member>, key: string) { ms != [] && (ms[0].key == key || HasKey(ms[1..], key)) }

  lemma MembersStep(ms: seq<Member>, tail: string)
    requires ms != []
    ensures Members(ms) + tail == Quoted(ms[0].key) + FromColon(ms[0], Members(ms[1..]) + tail)
  {
    hide Escape;
  }

  ghost predicate ValueText(text: Option<string>, v: string) {
    exists rest :: text == Some("\"" + (Escape(v) + "\"" + ("," + rest)))
  }

  // First-occurrence search over printed members stops at the member Reached names.
  lemma {:induction false} MemberFound(ms: seq<Member>, key: string, tail: string)
    requires GoodKeys(ms) && GoodKey(key) && HasKey(ms, key)
    ensures Reached(ms, key).Some?
    ensures ValueText(AfterColon(Members(ms) + tail, key), Reached(ms, key).value)
  {
    var m, rest := ms[0], Members(ms[1..]) + tail;
    MembersStep(ms, tail);
    if m.key == key {
      AfterHere(Quoted(key), FromColon(m, rest));
      ColonNext(m, rest);
    } else {
      SearchMember(m, key, rest);
      if Shadows(m.value, key) {
        MembersStep(ms[1..], tail);
        ColonNext(ms[1], Members(ms[1..][1..]) + tail);
      } else {
        MemberFound(ms[1..], key, tail);
      }
    }
  }

  lemma SkipBrace(text: string, key: string)
    requires GoodKey(key)
    ensures AfterColon("{" + text, key) == AfterColon(text, key)
  {
    AfterSkip("{", text, Quoted(key));
  }

  // The exact law of extract_string on a printed object, whatever its values
  // are and whatever follows its string members.
  lemma StringFound(ms: seq<Member>, key: string, tail: string)
    requires GoodKeys(ms) && GoodKey(key) && HasKey(ms, key)
    ensures Reached(ms, key).Some?
    ensures StringAt("{" + (Members(ms) + tail), key) == Reread(Reached(ms, key).value)
  {
    MemberFound(ms, key, tail);
    var v := Reached(ms, key).value;
    SkipBrace(Members(ms) + tail, key);
    var rest :| AfterColon(Members(ms) + tail, key) == Some("\"" + (Escape(v) + "\"" + ("," + rest)));
    AfterHere("\"", Escape(v) + "\"" + ("," + rest));
    ScanEscaped(v, "," + rest);
  }

  // The key stands behind the string members, and none of them shadows it.
  lemma {:induction false} SearchPast(ms: seq<Member>, key: string, tail: string)
    requires GoodKeys(ms) && GoodKey(key)
    requires forall m :: m in ms ==> m.key != key && !Shadows(m.value, key)
    ensures After(Members(ms) + tail, Quoted(key)) == After(tail, Quoted(key))
  {
    if ms == [] {
      assert Members(ms) + tail == tail;
    } else {
      MembersStep(ms, tail);
      SearchMember(ms[0], key, Members(ms[1..]) + tail);
      SearchPast(ms[1..], key, tail);
    }
  }

  // The first string member whose value shadows the key; |ms| when none does.
  function FirstShadow(ms: seq<Member>, key: string): nat {
    if ms == [] || Shadows(ms[0].value, key) then 0 else 1 + FirstShadow(ms[1..], key)
  }

  // Where the search for a key that no string member has comes to stand.
  lemma {:induction false} IntMemberFound(ms: seq<Member>, key: string, tail: string)
    requires GoodKeys(ms) && GoodKey(key)
    requires forall m :: m in ms ==> m.key != key
    ensures FirstShadow(ms, key) <= |ms|
    ensures FirstShadow(ms, key) == |ms| ==>
      After(Members(ms) + tail, Quoted(key)) == After(tail, Quoted(key))
    ensures FirstShadow(ms, key) == |ms| - 1 ==>
      After(Members(ms) + tail, Quoted(key)) == Some("," + tail)
    ensures FirstShadow(ms, key) < |ms| - 1 ==>
      ValueText(AfterColon(Members(ms) + tail, key), ms[FirstShadow(ms, key) + 1].value)
  {
    if ms == [] {
      assert Members(ms) + tail == tail;
    } else {
      var m, rest := ms[0], Members(ms[1..]) + tail;
      MembersStep(ms, tail);
      SearchMember(m, key, rest);
      if !Shadows(m.value, key) {
        IntMemberFound(ms[1..], key, tail);
      } else if |ms| == 1 {
        assert rest == tail;
      } else {
        MembersStep(ms[1..], tail);
        ColonNext(ms[1], Members(ms[1..][1..]) + tail);
      }
    }
  }

  // A numeral printed behind a colon is read back up to the next character.
  lemma NumberAfterColon(json: string, key: string, n: int, rest: string, default: int)
    requires -INT64_BOUND <= n < INT64_BOUND && rest != "" && !IsDigit(rest[0])
    requires AfterColon(json, key) == Some(IntText(n) + rest)
    ensures IntAt(json, key, default) == n
  {
    var t := IntText(n) + rest;
    assert t[0] == IntText(n)[0];
    assert SkipSpaces(t) == t;
    IntegerRead(n, rest);
  }

  // A quote is no number.
  lemma QuoteIsNoNumber(json: string, key: string, rest: string, default: int)
    requires AfterColon(json, key) == Some("\"" + rest)
    ensures IntAt(json, key, default) == default
  {
    assert SkipSpaces("\"" + rest) == "\"" + rest;
    assert LeadingDigits("\"" + rest) == "";
  }

  // ---- The exact law of extract_int ----
  // The printed object ends in the number with the key; `lead` stands between
  // the string members and that number.

  function Numbered(ms: seq<Member>, key: string, lead: string, n: int): string {
    "{" + (Members(ms) + (lead + (Quoted(key) + (":" + (IntText(n) + "}")))))
  }

  // No string member shadows the key: its number is read.
  lemma IntUnshadowed(ms: seq<Member>, key: string, lead: string, n: int, default: int)
    requires GoodKeys(ms) && GoodKey(key) && -INT64_BOUND <= n < INT64_BOUND
    requires forall m :: m in ms ==> m.key != key
    requires FirstShadow(ms, key) == |ms|
    requires After(lead + (Quoted(key) + (":" + (IntText(n) + "}"))), Quoted(key)) == Some(":" + (IntText(n) + "}"))
    ensures IntAt(Numbered(ms, key, lead, n), key, default) == n
  {
    var number := IntText(n) + "}";
    var tail := lead + (Quoted(key) + (":" + number));
    SkipBrace(Members(ms) + tail, key);
    IntMemberFound(ms, key, tail);
    AfterHere(":", number);
    NumberAfterColon(Numbered(ms, key, lead, n), key, n, "}", default);
  }

  // A string other than the last shadows the key: the default is read.
  lemma IntShadowed(ms: seq<Member>, key: string, lead: string, n: int, default: int)
    requires GoodKeys(ms) && GoodKey(key)
    requires forall m :: m in ms ==> m.key != key
    requires FirstShadow(ms, key) < |ms| - 1
    ensures IntAt(Numbered(ms, key, lead, n), key, default) == default
  {
    var tail := lead + (Quoted(key) + (":" + (IntText(n) + "}")));
    SkipBrace(Members(ms) + tail, key);
    IntMemberFound(ms, key, tail);
    var v := ms[FirstShadow(ms, key) + 1].value;
    var rest :| AfterColon(Members(ms) + tail, key) == Some("\"" + (Escape(v) + "\"" + ("," + rest)));
    QuoteIsNoNumber(Numbered(ms, key, lead, n), key, Escape(v) + "\"" + ("," + rest), default);
  }

  // The last string shadows the key: the number printed next is read, whatever its key is.
  lemma IntAfterLast(ms: seq<Member>, key: string, next: string, n: int, rest: string, default: int)
    requires GoodKeys(ms) && GoodKey(key) && GoodKey(next) && -INT64_BOUND <= n < INT64_BOUND
    requires forall m :: m in ms ==> m.key != key
    requires ms != [] && FirstShadow(ms, key) == |ms| - 1
    requires rest != "" && !IsDigit(rest[0])
    ensures IntAt("{" + (Members(ms) + (Quoted(next) + (":" + (IntText(n) + rest)))), key, default) == n
  {
    var number := IntText(n) + rest;
    var tail := Quoted(next) + (":" + number);
    hide IntText, Stoll, SkipSpaces, FirstShadow, Members, GoodKeys, After;
    SkipBrace(Members(ms) + tail, key);
    IntMemberFound(ms, key, tail);
    assert "," + tail == ("," + Quoted(next)) + (":" + number);
    assert ':' !in "," + Quoted(next);
    AfterSkip("," + Quoted(next), ":" + number, ":");
    AfterHere(":", number);
    NumberAfterColon("{" + (Members(ms) + tail), key, n, rest, default);
  }
}
