// What a client generates can be posted, the first steps of a run, and a
// concrete chat with two messages.

module Example {
  import opened Options
  import opened Numerals
  import opened Json
  import opened Wire
  import opened Base64
  import opened Payload
  import opened Handlers
  import opened Clients
  import opened Protocol
  import opened ChatRows
  import opened Loss

  // ---- What the client generates is sendable ----

  // Texts such as UUIDs and hexadecimal hashes.
  predicate PlainId(s: string) { KeyText(s) && s !in KEYS }

  const KEYS: seq<string> := ["chat_id", "sender_hash", "payload", "ttl"]

  lemma {:induction false} EncodedIsPrintable(x: seq<Byte>)
    ensures Printable(Encode(x))
    decreases |x|
  {
    if x == [] {
    } else {
      GroupSymbols(x);
      EncodedIsPrintable(Rest(x));
      hide *;
    }
  }

  lemma ShadowsNothing(s: string)
    requires KeyText(s) && s !in KEYS
    ensures forall key :: key in KEYS ==> !Shadows(s, key)
  {
    forall key | key in KEYS ensures !Shadows(s, key) { NoQuoteNoEnd(s, key); }
  }

  lemma PlainIsPrintable(s: string)
    requires PlainId(s)
    ensures KeyText(s) && Printable(s) && s !in KEYS
  {}

  lemma ChunkIsPrintable(s: string, n: nat, i: nat)
    requires Printable(s) && i < n
    ensures |SplitPayload(s, n)| == n && Printable(SplitPayload(s, n)[i])
  {
    if n > 1 {
      ChunkIsSlice(s, n, i);
      var size := ChunkSize(|s|, n);
      SliceIsPrintable(s, i * size, i * size + size);
      hide ChunkSize, Slice, Chunk;
    }
  }

  lemma SliceIsPrintable(s: string, from: nat, to: nat)
    requires Printable(s) && from <= to
    ensures Printable(Slice(s, from, to))
  {}

  lemma PieceIdIsPlain(m: string, i: nat)
    requires PlainId(m)
    ensures PlainId(m + "-" + Decimal(i))
  {
    assert KeyText(Decimal(i));
    assert (m + "-" + Decimal(i))[|m|] == '-';
    assert forall key :: key in KEYS ==> '-' !in key;
  }

  lemma PlainIsSendable(m: string, chat: string, sender: string, cipherText: string, ttl: nat, n: nat, i: nat)
    requires PlainId(m) && PlainId(chat) && PlainId(sender) && Printable(cipherText) && ttl < INT64_BOUND && i < n
    ensures Sendable(FragmentFor(m, chat, sender, cipherText, ttl, n, i))
  {
    var f := FragmentFor(m, chat, sender, cipherText, ttl, n, i);
    PieceIdIsPlain(m, i);
    ChunkIsPrintable(cipherText, n, i);
    hide Shadows, Decimal, SplitPayload, PlainId;
    assert PlainId(f.id) && Printable(f.payload);
    hide FragmentFor;
    PlainIsPrintable(f.id); PlainIsPrintable(m); PlainIsPrintable(chat); PlainIsPrintable(sender);
    ShadowsNothing(f.id); ShadowsNothing(m); ShadowsNothing(chat); ShadowsNothing(sender);
  }

  // ---- Two messages on their way ----

  // Both messages can be posted: sendable, within the limit, no piece empty.
  ghost predicate Good(su: Setup, step: Step) {
    && step.StartSend? && step.chat in su.servers && |step.iv| == IV_LEN
    && var p := NewSending(su, step); AllSendable(su, p, step.m) && Acceptable(su, p, step.m)
  }

  ghost predicate Fits(su: Setup, step: Step)
    requires step.StartSend?
  {
    forall i :: 0 <= i < |ServersOf(su, step.chat)| ==>
      |PostBody(Piece(su, NewSending(su, step), step.m, i))| <= su.maxBytes
  }

  // With plain ids and up to eight servers every message whose bodies fit is good.
  lemma PlainIsGood(su: Setup, step: Step)
    requires Agreed(su) && step.StartSend? && step.chat in su.servers && |su.servers[step.chat]| <= 8 &&
      |step.iv| == IV_LEN
    requires PlainId(step.m) && PlainId(step.chat) && PlainId(step.sender) && step.m != "" && step.sender != ""
    requires step.ttl < INT64_BOUND && Fits(su, step)
    ensures Good(su, step)
  {
    var p, n := NewSending(su, step), |ServersOf(su, step.chat)|;
    EncodedIsPrintable(step.iv + su.cipher.seal(Key(su, step.chat), step.iv, su.cipher.encodeText(step.text)));
    EightServersFilled(su.cipher, Key(su, step.chat), step.iv, step.text, n);
    forall i | 0 <= i < n ensures Sendable(Piece(su, p, step.m, i)) && FirstMissing(Piece(su, p, step.m, i)) == None {
      hide Fits, PlainId, Sendable, Lawful;
      PlainIsSendable(step.m, step.chat, step.sender, p.cipherText, step.ttl, n, i);
      var f := Piece(su, p, step.m, i);
      assert f.payload == SplitPayload(p.cipherText, n)[i] && |SplitPayload(p.cipherText, n)| == n;
      assert f.payload != "";
    }
  }

  // The world after the client joined and both messages were encrypted.
  ghost function TwoSent(su: Setup, v: string, s1: Step, s2: Step): World
    requires s1.StartSend? && s2.StartSend?
  {
    World(map[], map[s1.m := NewSending(su, s1), s2.m := NewSending(su, s2)], map[v := View(s1.chat, 0, [], None)])
  }

  ghost predicate Both(su: Setup, s1: Step, s2: Step) {
    Agreed(su) && Good(su, s1) && Good(su, s2) && s1.chat == s2.chat && s1.m != s2.m
  }

  lemma JoinRuns(su: Setup, v: string, chat: string)
    requires Agreed(su) && chat in su.servers
    ensures Enabled(su, EMPTY_WORLD, Join(v, chat))
    ensures Do(su, EMPTY_WORLD, Join(v, chat)) == World(map[], map[], map[v := View(chat, 0, [], None)])
    ensures Inv(su, Do(su, EMPTY_WORLD, Join(v, chat)))
  {
    Protocol.StepKeeps(su, EMPTY_WORLD, Join(v, chat));
  }

  lemma SendRuns(su: Setup, w: World, s: Step)
    requires Agreed(su) && Inv(su, w) && Good(su, s) && s.m !in w.sent
    ensures Enabled(su, w, s) && forall v :: v in w.views ==> ViewShape(su, w.views[v])
    ensures Do(su, w, s) == w.(sent := w.sent[s.m := NewSending(su, s)]) && Inv(su, Do(su, w, s))
  {
    hide AllSendable, NewSending, ServersOf;
    Protocol.StepKeeps(su, w, s);
  }

  lemma TwoSentRuns(su: Setup, v: string, s1: Step, s2: Step, rest: seq<Step>)
    requires Both(su, s1, s2)
    ensures Inv(su, TwoSent(su, v, s1, s2))
    ensures Possible(su, TwoSent(su, v, s1, s2), rest) ==>
      var steps := [Join(v, s1.chat)] + ([s1] + ([s2] + rest));
      Possible(su, EMPTY_WORLD, steps) && After(su, EMPTY_WORLD, steps) == After(su, TwoSent(su, v, s1, s2), rest)
  {
    var join := Join(v, s1.chat);
    JoinRuns(su, v, s1.chat);
    var w1 := Do(su, EMPTY_WORLD, join);
    SendRuns(su, w1, s1);
    var w2 := Do(su, w1, s1);
    SendRuns(su, w2, s2);
    assert Do(su, w2, s2) == TwoSent(su, v, s1, s2);
    if Possible(su, TwoSent(su, v, s1, s2), rest) {
      hide Do, Inv, Agreed, Enabled, Good, NewSending, TwoSent;
      RunFirst(su, w2, s2, rest);
      RunFirst(su, w1, s1, [s2] + rest);
      RunFirst(su, EMPTY_WORLD, join, [s1] + ([s2] + rest));
    }
  }

  // ---- A concrete case ----

  // A cipher that only appends a tag of zeros is lawful.
  function ZeroTag(): seq<Byte> { seq(TAG_LEN, _ => 0) }

  function Seal(key: string, iv: seq<Byte>, plain: seq<Byte>): seq<Byte> { plain + ZeroTag() }

  function Unseal(key: string, iv: seq<Byte>, sealed: seq<Byte>): Option<seq<Byte>> {
    if |sealed| < TAG_LEN then None else Some(sealed[..|sealed| - TAG_LEN])
  }

  function Coded(text: string): seq<Byte> { seq(|text|, i requires 0 <= i < |text| => (text[i] as int % 256) as Byte) }

  function Decoded(bytes: seq<Byte>): string { seq(|bytes|, i requires 0 <= i < |bytes| => bytes[i] as char) }

  const PLAIN_CIPHER: Cipher := Cipher(Seal, Unseal, Coded, Decoded)

  const FIRST: Step := StartSend("m1", "room", "alice", "hello", seq(IV_LEN, _ => 0), 0)
  const SECOND: Step := StartSend("m2", "room", "bob", "hi", seq(IV_LEN, _ => 0), 0)

  function Example(maxBytes: nat): Setup {
    Setup(map["room" := ["http://a", "http://b"]], map["room" := "key"], PLAIN_CIPHER, maxBytes)
  }

  // Room for the two bodies of a message.
  function BodyBytes(step: Step): nat
    requires step == FIRST || step == SECOND
  {
    var su := Example(0);
    var p := NewSending(su, step);
    |PostBody(Piece(su, p, step.m, 0))| + |PostBody(Piece(su, p, step.m, 1))|
  }

  lemma ExampleAgreed(maxBytes: nat)
    ensures Agreed(Example(maxBytes)) && ServersOf(Example(maxBytes), "room") == ["http://a", "http://b"]
  {
    forall key, iv: seq<Byte>, plain {:trigger PLAIN_CIPHER.seal(key, iv, plain)} | |iv| == IV_LEN
      ensures |PLAIN_CIPHER.seal(key, iv, plain)| == |plain| + TAG_LEN
      ensures PLAIN_CIPHER.open(key, iv, PLAIN_CIPHER.seal(key, iv, plain)) == Some(plain)
    {
      assert (plain + ZeroTag())[..|plain|] == plain;
    }
    assert "http://a"[7] != "http://b"[7];
  }

  lemma ExampleFits(step: Step, maxBytes: nat)
    requires (step == FIRST || step == SECOND) && maxBytes >= BodyBytes(step)
    ensures Fits(Example(maxBytes), step)
  {
    hide Encrypt, PostBody;
    var su, su0 := Example(maxBytes), Example(0);
    SamePieces(su, su0, step, 0);
    SamePieces(su, su0, step, 1);
    ExampleServers(maxBytes, step);
  }

  lemma ExampleServers(maxBytes: nat, step: Step)
    requires step == FIRST || step == SECOND
    ensures |ServersOf(Example(maxBytes), step.chat)| == 2
  {}

  lemma SamePieces(su: Setup, su0: Setup, step: Step, i: nat)
    requires step.StartSend? && su.servers == su0.servers && su.keys == su0.keys && su.cipher == su0.cipher
    requires i < |ServersOf(su, step.chat)|
    ensures Piece(su, NewSending(su, step), step.m, i) == Piece(su0, NewSending(su0, step), step.m, i)
  {}

  lemma ExampleGood(step: Step, maxBytes: nat)
    requires (step == FIRST || step == SECOND) && maxBytes >= BodyBytes(step)
    ensures Good(Example(maxBytes), step)
  {
    ExampleAgreed(maxBytes);
    ExampleFits(step, maxBytes);
    hide Agreed, Fits, PostBody, Good, BodyBytes;
    PlainIsGood(Example(maxBytes), step);
  }

  const EXAMPLE: Setup := Example(BodyBytes(FIRST) + BodyBytes(SECOND))

  lemma ExampleBoth()
    ensures Both(EXAMPLE, FIRST, SECOND) && ServersOf(EXAMPLE, FIRST.chat) == ["http://a", "http://b"]
  {
    hide Agreed, Good;
    ExampleAgreed(BodyBytes(FIRST) + BodyBytes(SECOND));
    ExampleGood(FIRST, BodyBytes(FIRST) + BodyBytes(SECOND));
    ExampleGood(SECOND, BodyBytes(FIRST) + BodyBytes(SECOND));
    assert FIRST.m[1] != SECOND.m[1];
  }
}
