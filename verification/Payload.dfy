// crypto.js: splitting an encrypted text over n servers, joining it again, and
// the IV-prefix framing around AES-GCM. The cipher and the UTF-8 coders are
// parameters; only their laws are used.

module Payload {
  import opened Options
  import opened Base64

  // ---- splitPayload and joinPayload ----

  function ChunkSize(length: nat, n: nat): nat
    requires n >= 1
  {
    (length + n - 1) / n
  }

  // String.prototype.slice for offsets that may lie past the end.
  function Slice(s: string, from: nat, to: nat): string
    requires from <= to
  {
    if from >= |s| then "" else if to >= |s| then s[from..] else s[from..to]
  }

  function Chunk(s: string, n: nat, i: nat): string
    requires n >= 1
  {
    if n == 1 then (if i == 0 then s else "")
    else var size := ChunkSize(|s|, n); Slice(s, i * size, i * size + size)
  }

  function SplitPayload(s: string, n: nat): (chunks: seq<string>) {
    if n <= 1 then [s] else seq(n, i requires 0 <= i < n => Chunk(s, n, i))
  }

  function JoinPayload(chunks: seq<string>): string {
    if chunks == [] then "" else JoinPayload(chunks[..|chunks| - 1]) + chunks[|chunks| - 1]
  }

  method SplitLoop(b64: string, n: nat) returns (chunks: seq<string>)
    ensures chunks == SplitPayload(b64, n)
  {
    if n <= 1 { return [b64]; }
    var chunkSize := ChunkSize(|b64|, n);
    chunks := [];
    var i := 0;
    while i < n
      invariant 0 <= i <= n && |chunks| == i
      invariant forall k :: 0 <= k < i ==> chunks[k] == Chunk(b64, n, k)
    {
      assert (i + 1) * chunkSize == i * chunkSize + chunkSize;
      chunks := chunks + [Slice(b64, i * chunkSize, (i + 1) * chunkSize)];
      i := i + 1;
    }
  }

  lemma Monotone(i: nat, j: nat, k: nat)
    requires i <= j
    ensures i * k <= j * k
  {
    assert (j - i) * k >= 0;
  }

  lemma SizeCovers(length: nat, n: nat)
    requires n >= 1
    ensures n * ChunkSize(length, n) >= length
    ensures n * ChunkSize(length, n) <= length + n - 1
  {
    var x := length + n - 1;
    assert x == n * (x / n) + x % n;
  }

  lemma ChunkIsSlice(s: string, n: nat, i: nat)
    requires n >= 2 && i < n
    ensures var size := ChunkSize(|s|, n);
      SplitPayload(s, n)[i] == Slice(s, i * size, i * size + size) && i * size + size == (i + 1) * size
  {}

  // The first i chunks joined are the text up to i chunk sizes.
  lemma {:induction false} JoinedPrefix(s: string, n: nat, i: nat)
    requires n >= 2 && i <= n
    ensures JoinPayload(SplitPayload(s, n)[..i]) == Slice(s, 0, i * ChunkSize(|s|, n))
  {
    var chunks, size := SplitPayload(s, n), ChunkSize(|s|, n);
    if i == 0 {
      assert chunks[..0] == [] && Slice(s, 0, 0) == "";
    } else {
      JoinedPrefix(s, n, i - 1);
      ChunkIsSlice(s, n, i - 1);
      hide ChunkSize, Slice, SplitPayload;
      PrefixGrows(s, (i - 1) * size, size);
      assert chunks[..i][..i - 1] == chunks[..i - 1];
    }
  }

  lemma PrefixGrows(s: string, at: nat, size: nat)
    ensures Slice(s, 0, at) + Slice(s, at, at + size) == Slice(s, 0, at + size)
  {}

  lemma JoinSplit(s: string, n: nat)
    ensures JoinPayload(SplitPayload(s, n)) == s
  {
    if n <= 1 {
      assert SplitPayload(s, n)[..0] == [];
    } else {
      JoinedPrefix(s, n, n);
      SizeCovers(|s|, n);
      assert SplitPayload(s, n)[..n] == SplitPayload(s, n);
    }
  }

  // Chunk lengths: bounded by the chunk size, never growing, and empty exactly
  // from the first chunk that starts at or past the end.
  lemma ChunkLengths(s: string, n: nat, i: nat)
    requires n >= 1 && i < n
    ensures |SplitPayload(s, n)| == n
    ensures |SplitPayload(s, n)[i]| <= ChunkSize(|s|, n)
    ensures i + 1 < n ==> |SplitPayload(s, n)[i + 1]| <= |SplitPayload(s, n)[i]|
    ensures SplitPayload(s, n)[i] == "" <==> i * ChunkSize(|s|, n) >= |s|
  {
    var size := ChunkSize(|s|, n);
    SizeCovers(|s|, n);
    if n > 1 {
      assert (i + 1) * size == i * size + size;
    }
  }

  lemma {:induction false} JoinedLength(chunks: seq<string>)
    ensures |JoinPayload(chunks)| == Total(chunks)
  {
    if chunks == [] {
    } else {
      JoinedLength(chunks[..|chunks| - 1]);
    }
  }

  function Total(chunks: seq<string>): nat {
    if chunks == [] then 0 else Total(chunks[..|chunks| - 1]) + |chunks[|chunks| - 1]|
  }

  lemma LengthsSum(s: string, n: nat)
    ensures Total(SplitPayload(s, n)) == |s|
  {
    JoinSplit(s, n);
    JoinedLength(SplitPayload(s, n));
  }

  ghost predicate AllFilled(chunks: seq<string>) { forall i :: 0 <= i < |chunks| ==> chunks[i] != "" }

  // All chunks carry something exactly when the last one does.
  lemma FilledExactly(s: string, n: nat)
    requires n >= 1
    ensures AllFilled(SplitPayload(s, n)) <==> (n - 1) * ChunkSize(|s|, n) < |s|
  {
    var chunks, size := SplitPayload(s, n), ChunkSize(|s|, n);
    ChunkLengths(s, n, n - 1);
    if (n - 1) * size < |s| {
      forall i | 0 <= i < n ensures chunks[i] != "" {
        ChunkLengths(s, n, i);
        Monotone(i, n - 1, size);
      }
    }
  }

  // A text longer than (n-1)^2 fills all n chunks.
  lemma LongTextFills(s: string, n: nat)
    requires n >= 1 && |s| > (n - 1) * (n - 1)
    ensures AllFilled(SplitPayload(s, n))
  {
    var size, m := ChunkSize(|s|, n), n - 1;
    SizeCovers(|s|, n);
    FilledExactly(s, n);
    assert n * size == m * size + size;
    if m * size >= |s| {
      // then size <= m, so m * size <= m * m < |s|
      assert size <= m && size * m == m * size;
      Monotone(size, m, m);
    }
  }

  // ---- Framing ----

  const IV_LEN: nat := 12
  const TAG_LEN: nat := 16

  datatype Cipher = Cipher(
    seal: (string, seq<Byte>, seq<Byte>) -> seq<Byte>,
    open: (string, seq<Byte>, seq<Byte>) -> Option<seq<Byte>>,
    encodeText: string -> seq<Byte>,
    decodeText: seq<Byte> -> string)

  // What AES-GCM gives: the tag is appended, and opening undoes sealing.
  ghost predicate Lawful(c: Cipher) {
    forall key, iv, plain {:trigger c.seal(key, iv, plain)} :: |iv| == IV_LEN ==>
      |c.seal(key, iv, plain)| == |plain| + TAG_LEN && c.open(key, iv, c.seal(key, iv, plain)) == Some(plain)
  }

  // Crypto.encrypt with the random IV as a parameter.
  function Encrypt(c: Cipher, key: string, iv: seq<Byte>, text: string): string {
    Encode(iv + c.seal(key, iv, c.encodeText(text)))
  }

  predicate AsciiSpace(c: char) { c == ' ' || c == '\t' || c == '\n' || c == '\r' || c == 12 as char }

  function DropSpaces(s: string): string {
    if s == "" then "" else (if AsciiSpace(s[0]) then "" else [s[0]]) + DropSpaces(s[1..])
  }

  function DropPadding(s: string): string {
    if |s| % 4 != 0 || s == "" || s[|s| - 1] != '=' then s
    else if s[|s| - 2] == '=' then s[..|s| - 2]
    else s[..|s| - 1]
  }

  // atob: None where it throws.
  function Atob(s: string): Option<seq<Byte>> {
    var t := DropPadding(DropSpaces(s));
    if |t| % 4 == 1 || |Sextets(t)| != |t| then None else Some(Decode(t))
  }

  // Crypto.decrypt: None where it throws.
  function Decrypt(c: Cipher, key: string, b64: string): Option<string> {
    match Atob(b64)
    case None => None
    case Some(combined) =>
      if |combined| <= IV_LEN then None
      else match c.open(key, combined[..IV_LEN], combined[IV_LEN..])
        case None => None
        case Some(plain) => Some(c.decodeText(plain))
  }

  // Decryption with one chat's key.
  function Opener(c: Cipher, key: string): string -> Option<string> {
    b64 => Decrypt(c, key, b64)
  }

  lemma {:induction false} CanonicalHasNoSpaces(s: string)
    requires Canonical(s)
    ensures forall k :: 0 <= k < |s| ==> !AsciiSpace(s[k])
    decreases |s|
  {
    if |s| > 4 { CanonicalHasNoSpaces(s[4..]); }
    forall k | 0 <= k < |s| ensures !AsciiSpace(s[k]) {
      if k >= 4 { assert s[k] == s[4..][k - 4]; }
    }
  }

  lemma {:induction false} NothingDropped(s: string)
    requires forall k :: 0 <= k < |s| ==> !AsciiSpace(s[k])
    ensures DropSpaces(s) == s
  {
    if s == "" {
    } else {
      NothingDropped(s[1..]);
      assert s == [s[0]] + s[1..];
    }
  }

  lemma UnpaddedTail(g: string, rest: string)
    requires |g| == 4 && |rest| % 4 == 0 && |rest| >= 4
    ensures |g + rest| % 4 == 0 && DropPadding(g + rest) == g + DropPadding(rest)
    ensures |g + DropPadding(rest)| % 4 == |DropPadding(rest)| % 4
  {
    var s := g + rest;
    assert s[|s| - 1] == rest[|rest| - 1] && s[|s| - 2] == rest[|rest| - 2];
  }

  // Without its padding a canonical text is all alphabet and decodes the same.
  lemma {:induction false} CanonicalUnpadded(s: string)
    requires Canonical(s)
    ensures var t := DropPadding(s);
      |t| % 4 != 1 && Sextets(t) == Sextets(s) && |Sextets(t)| == |t| && |s| % 4 == 0
    decreases |s|
  {
    if s == "" {
    } else {
      var g, rest := s[..4], s[4..];
      assert s == g + rest;
      if |s| > 4 {
        assert g[2] == s[2] && g[3] == s[3] && Lookup(g[2]) != -1 && Lookup(g[3]) != -1;
        hide Lookup, Sextets, DropPadding;
        CanonicalUnpadded(rest);
        UnpaddedTail(g, rest);
        GroupSextets(g, rest);
        GroupSextets(g, DropPadding(rest));
      } else {
        assert rest == "" && g == s;
        hide Lookup, Sextets;
        PaddedGroup(s);
      }
    }
  }

  lemma PaddedGroup(g: string)
    requires |g| == 4 && Lookup(g[0]) != -1 && Lookup(g[1]) != -1
    requires if g[2] == '=' then g[3] == '=' else Lookup(g[2]) != -1 && (g[3] == '=' || Lookup(g[3]) != -1)
    ensures Sextets(DropPadding(g)) == Sextets(g) && |Sextets(g)| == |DropPadding(g)| && |DropPadding(g)| != 1
  {
    assert g + "" == g;
    GroupSextets(g, "");
    SymbolLookup(g[0]); SymbolLookup(g[1]); SymbolLookup(g[2]);
    if g[2] == '=' {
      var t := g[..2];
      assert t[1..][1..] == "";
      assert Sextets(t[1..]) == [Lookup(g[1])];
    } else if g[3] == '=' {
      var t := g[..3];
      assert t[1..][1..][1..] == "";
      assert Sextets(t[1..][1..]) == [Lookup(g[2])];
      assert Sextets(t[1..]) == [Lookup(g[1]), Lookup(g[2])];
    }
  }

  lemma AtobEncode(x: seq<Byte>)
    ensures Atob(Encode(x)) == Some(x)
  {
    EncodedIsCanonical(x);
    CanonicalHasNoSpaces(Encode(x));
    NothingDropped(Encode(x));
    CanonicalUnpadded(Encode(x));
    DecodeEncode(x);
  }

  // Decrypting what was encrypted shows the text as the UTF-8 coders carry it.
  lemma DecryptEncrypt(c: Cipher, key: string, iv: seq<Byte>, text: string)
    requires Lawful(c) && |iv| == IV_LEN
    ensures Decrypt(c, key, Encrypt(c, key, iv, text)) == Some(c.decodeText(c.encodeText(text)))
  {
    var sealed := c.seal(key, iv, c.encodeText(text));
    AtobEncode(iv + sealed);
    assert (iv + sealed)[..IV_LEN] == iv && (iv + sealed)[IV_LEN..] == sealed;
  }

  // From the sender's text to the receiver's, over n servers.
  lemma EndToEnd(c: Cipher, key: string, iv: seq<Byte>, text: string, n: nat)
    requires Lawful(c) && |iv| == IV_LEN
    ensures Decrypt(c, key, JoinPayload(SplitPayload(Encrypt(c, key, iv, text), n)))
         == Some(c.decodeText(c.encodeText(text)))
  {
    JoinSplit(Encrypt(c, key, iv, text), n);
    DecryptEncrypt(c, key, iv, text);
  }

  lemma EncryptedLength(c: Cipher, key: string, iv: seq<Byte>, text: string)
    requires Lawful(c) && |iv| == IV_LEN
    ensures |Encrypt(c, key, iv, text)| == 4 * ((|c.encodeText(text)| + 30) / 3)
  {
    EncodedLength(iv + c.seal(key, iv, c.encodeText(text)));
  }

  // Whatever the text, up to eight servers each get a non-empty chunk.
  lemma EightServersFilled(c: Cipher, key: string, iv: seq<Byte>, text: string, n: nat)
    requires Lawful(c) && |iv| == IV_LEN && 1 <= n <= 8
    ensures AllFilled(SplitPayload(Encrypt(c, key, iv, text), n))
  {
    var s := Encrypt(c, key, iv, text);
    EncryptedLength(c, key, iv, text);
    var k := (|c.encodeText(text)| + 30) / 3;
    assert |s| == 4 * k && k >= 10;
    if n <= 7 {
      Monotone(n - 1, 6, n - 1);
      hide *;
      LongTextFills(s, n);
    } else {
      SizeCovers(|s|, 8);
      hide *;
      assert 2 * ChunkSize(|s|, 8) <= k + 1;
      FilledExactly(s, 8);
    }
  }

  // With nine servers a text of at most two bytes leaves the last chunk empty.
  lemma NineServersShortText(c: Cipher, key: string, iv: seq<Byte>, text: string)
    requires Lawful(c) && |iv| == IV_LEN && |c.encodeText(text)| <= 2
    ensures SplitPayload(Encrypt(c, key, iv, text), 9)[8] == ""
  {
    EncryptedLength(c, key, iv, text);
    ChunkLengths(Encrypt(c, key, iv, text), 9, 8);
  }
}
