// Strings as the C++ standard library sees them: first-occurrence search,
// trimming, splitting and C-string truncation.

module Options {
  datatype Option<+T> = None | Some(value: T)
}

module Text {
  import opened Options

  // The text before and after the first occurrence of a pattern.
  datatype Cut = Cut(before: string, after: string)

  function CutAt(s: string, pat: string): Option<Cut> {
    if pat <= s then Some(Cut("", s[|pat|..]))
    else if s == "" then None
    else match CutAt(s[1..], pat)
      case None => None
      case Some(c) => Some(Cut([s[0]] + c.before, c.after))
  }

  // std::string::find(pat, from): None stands for npos.
  function FindFrom(s: string, pat: string, from: nat): Option<nat>
    requires from <= |s|
  {
    match CutAt(s[from..], pat)
    case None => None
    case Some(c) => Some(from + |c.before|)
  }

  // What a found cut means: the pattern stands between the two halves, and nowhere earlier.
  lemma {:induction false} CutMeaning(s: string, pat: string)
    ensures CutAt(s, pat).Some? ==>
      var c := CutAt(s, pat).value;
      s == c.before + pat + c.after && forall k :: 0 <= k < |c.before| ==> !(pat <= s[k..])
    ensures CutAt(s, pat).None? ==> forall k :: 0 <= k <= |s| ==> !(pat <= s[k..])
  {
    if pat <= s {
      assert s == pat + s[|pat|..];
    } else if s != "" {
      CutMeaning(s[1..], pat);
      forall k | 1 <= k <= |s| ensures s[k..] == s[1..][k - 1..] {}
      match CutAt(s[1..], pat)
      case None =>
        forall k | 0 <= k <= |s| ensures !(pat <= s[k..]) {
          if k > 0 { assert s[k..] == s[1..][k - 1..]; } else { assert s[0..] == s; }
        }
      case Some(c) =>
        assert s == [s[0]] + s[1..];
        forall k | 0 <= k < |c.before| + 1 ensures !(pat <= s[k..]) {
          if k > 0 { assert s[k..] == s[1..][k - 1..]; } else { assert s[0..] == s; }
        }
    }
  }

  // Text in which the pattern cannot begin does not disturb the search.
  lemma {:induction false} CutSkip(a: string, b: string, pat: string)
    requires pat != "" && pat[0] !in a
    ensures CutAt(a + b, pat) == match CutAt(b, pat)
                                 case None => None
                                 case Some(c) => Some(Cut(a + c.before, c.after))
  {
    if a == "" {
      assert a + b == b;
      if CutAt(b, pat).Some? { assert a + CutAt(b, pat).value.before == CutAt(b, pat).value.before; }
    } else {
      CutSkip(a[1..], b, pat);
      assert (a + b)[0] == a[0] && (a + b)[1..] == a[1..] + b;
      assert !(pat <= a + b);
      match CutAt(b, pat)
      case None =>
      case Some(c) => assert [a[0]] + (a[1..] + c.before) == a + c.before;
    }
  }

  // What follows the first occurrence.
  function After(s: string, pat: string): Option<string> {
    match CutAt(s, pat)
    case None => None
    case Some(c) => Some(c.after)
  }

  lemma AfterSkip(a: string, b: string, pat: string)
    requires pat != "" && pat[0] !in a
    ensures After(a + b, pat) == After(b, pat)
  {
    CutSkip(a, b, pat);
  }

  lemma AfterStep(c: char, b: string, pat: string)
    requires !(pat <= [c] + b)
    ensures After([c] + b, pat) == After(b, pat)
  {
    assert ([c] + b)[1..] == b;
  }

  lemma AfterHere(pat: string, b: string)
    ensures After(pat + b, pat) == Some(b)
  {
    assert (pat + b)[|pat|..] == b;
  }

  // Index search and remainder search agree.
  lemma FindIsAfter(s: string, pat: string, from: nat)
    requires from <= |s|
    ensures match FindFrom(s, pat, from)
            case None => After(s[from..], pat) == None
            case Some(k) => k + |pat| <= |s| && After(s[from..], pat) == Some(s[k + |pat|..])
  {
    CutMeaning(s[from..], pat);
    match CutAt(s[from..], pat)
    case None =>
    case Some(c) =>
      var t := s[from..];
      assert t[|c.before| + |pat|..] == c.after;
      assert s[from + |c.before| + |pat|..] == t[|c.before| + |pat|..];
  }

  lemma InJoined(a: string, c: char, b: string)
    ensures forall x :: x in a + [c] + b ==> x in a || x == c || x in b
  {
    forall x | x in a + [c] + b ensures x in a || x == c || x in b {
      var k :| 0 <= k < |a + [c] + b| && (a + [c] + b)[k] == x;
      assert x == if k < |a| then a[k] else if k == |a| then c else b[k - |a| - 1];
    }
  }

  // A one-character delimiter is found right where it first stands.
  lemma CutAtChar(a: string, c: char, b: string)
    requires c !in a
    ensures CutAt(a + [c] + b, [c]) == Some(Cut(a, b))
  {
    assert a + [c] + b == a + ([c] + b);
    CutSkip(a, [c] + b, [c]);
    assert a + "" == a;
  }

  // More text behind a hit leaves the hit where it is.
  lemma {:induction false} CutStable(s: string, more: string, pat: string)
    requires CutAt(s, pat).Some?
    ensures CutAt(s + more, pat) == Some(Cut(CutAt(s, pat).value.before, CutAt(s, pat).value.after + more))
  {
    if pat <= s {
      assert pat <= s + more;
      assert (s + more)[|pat|..] == s[|pat|..] + more;
    } else {
      CutStable(s[1..], more, pat);
      assert (s + more)[1..] == s[1..] + more;
      CutMeaning(s, pat);
      assert (s + more)[..|pat|] == s[..|pat|];
    }
  }

  predicate IsSpace(c: char) { c == ' ' || c == '\t' || c == '\r' || c == '\n' }

  function TrimLeft(s: string): string {
    if s != "" && IsSpace(s[0]) then TrimLeft(s[1..]) else s
  }

  function TrimRight(s: string): string {
    if s != "" && IsSpace(s[|s| - 1]) then TrimRight(s[..|s| - 1]) else s
  }

  // utils::trim
  function Trim(s: string): string { TrimRight(TrimLeft(s)) }

  predicate Trimmed(s: string) {
    s == "" || (!IsSpace(s[0]) && !IsSpace(s[|s| - 1]))
  }

  lemma TrimOfSpaced(s: string)
    requires Trimmed(s)
    ensures Trim(s) == s && Trim(" " + s) == s
  {
    assert (" " + s)[1..] == s;
    assert TrimLeft(" " + s) == TrimLeft(s);
  }

  function LowerChar(c: char): char {
    if 'A' <= c <= 'Z' then c + ' ' else c
  }

  // utils::to_lower in the C locale
  function Lower(s: string): (r: string)
    ensures |r| == |s| && forall k :: 0 <= k < |s| ==> r[k] == LowerChar(s[k])
  {
    seq(|s|, k requires 0 <= k < |s| => LowerChar(s[k]))
  }

  lemma LowerConcat(a: string, b: string)
    ensures Lower(a + b) == Lower(a) + Lower(b)
  {}

  // utils::split by std::getline: an empty text has no items, and a delimiter
  // at the very end opens no further item.
  function Split(s: string, delim: char): seq<string>
    decreases |s|
  {
    if s == "" then []
    else match CutAt(s, [delim])
      case None => [s]
      case Some(c) => CutShrinks(s, [delim]); [c.before] + Split(c.after, delim)
  }

  lemma CutShrinks(s: string, pat: string)
    requires pat != ""
    ensures CutAt(s, pat).Some? ==> |CutAt(s, pat).value.after| < |s|
  {
    CutMeaning(s, pat);
  }

  // The text that stands between delimiters: items joined by the delimiter.
  function Join(items: seq<string>, delim: char): string {
    if items == [] then ""
    else if |items| == 1 then items[0]
    else items[0] + [delim] + Join(items[1..], delim)
  }

  // Splitting a joined list gives the list back, provided no item holds the
  // delimiter and the last one is not empty.
  lemma {:induction false} SplitJoin(items: seq<string>, delim: char)
    requires forall k :: 0 <= k < |items| ==> delim !in items[k]
    requires items != [] ==> items[|items| - 1] != ""
    ensures Split(Join(items, delim), delim) == items
  {
    if |items| == 1 {
      CutSkip(items[0], "", [delim]);
      assert items[0] + "" == items[0];
    } else if |items| > 1 {
      SplitJoin(items[1..], delim);
      CutAtChar(items[0], delim, Join(items[1..], delim));
      assert items == [items[0]] + items[1..];
    }
  }

  // The split loop: one getline per iteration.
  method SplitLoop(s: string, delim: char) returns (parts: seq<string>)
    ensures parts == Split(s, delim)
  {
    parts := [];
    var rest := s;
    while rest != ""
      invariant Split(s, delim) == parts + Split(rest, delim)
      decreases |rest|
    {
      match CutAt(rest, [delim]) {
        case None =>
          parts := parts + [rest];
          rest := "";
        case Some(c) =>
          CutShrinks(rest, [delim]);
          assert parts + ([c.before] + Split(c.after, delim)) == parts + [c.before] + Split(c.after, delim);
          parts := parts + [c.before];
          rest := c.after;
      }
    }
  }

  // A std::string handed over as c_str(): everything from the first NUL on is lost.
  function CText(s: string): string {
    match CutAt(s, "\0")
    case None => s
    case Some(c) => c.before
  }

  lemma CTextKeeps(s: string)
    ensures CText(s) == s <==> '\0' !in s
    ensures CText(s) == "" <==> s == "" || s[0] == '\0'
  {
    CutMeaning(s, "\0");
    if '\0' in s {
      var k :| 0 <= k < |s| && s[k] == '\0';
      assert "\0" <= s[k..];
    }
    if s != "" && s[0] != '\0' && CutAt(s, "\0").Some? {
      assert !("\0" <= s[0..]);
      assert CutAt(s, "\0").value.before != "";
    }
  }
}
