// utils::base64_encode and utils::base64_decode.

module Base64 {
  type Byte = x: int | 0 <= x < 256
  type Sextet = x: int | 0 <= x < 64

  // B64_CHARS
  function Symbol(v: Sextet): char {
    if v < 26 then 'A' + v as char
    else if v < 52 then 'a' + (v - 26) as char
    else if v < 62 then '0' + (v - 52) as char
    else if v == 62 then '+' else '/'
  }

  // The decoder's lookup table: -1 for every character outside the alphabet.
  function Lookup(c: char): int {
    if 'A' <= c <= 'Z' then (c - 'A') as int
    else if 'a' <= c <= 'z' then (c - 'a') as int + 26
    else if '0' <= c <= '9' then (c - '0') as int + 52
    else if c == '+' then 62
    else if c == '/' then 63
    else -1
  }

  lemma LookupSymbol(v: Sextet)
    ensures Lookup(Symbol(v)) == v
  {}

  lemma SymbolLookup(c: char)
    ensures -1 <= Lookup(c) < 64
    ensures Lookup(c) != -1 ==> Symbol(Lookup(c)) == c
  {}

  // Quotient and remainder are determined by x == m * q + r.
  lemma DivMod(x: int, m: int, q: int, r: int)
    requires m > 0 && x == m * q + r && 0 <= r < m
    ensures x / m == q && x % m == r
  {
    var k := q - x / m;
    assert x == m * (x / m) + x % m;
    assert m * k == m * q - m * (x / m);
    assert k >= 1 ==> m * k >= m;
    assert k <= -1 ==> m * k <= -m;
  }

  // ---- Encoding ----

  // Three bytes as one 24-bit word; a byte past the end counts as zero.
  function Word(x: seq<Byte>): int
    requires x != []
  {
    var b0: int, b1: int, b2: int := x[0], if |x| > 1 then x[1] else 0, if |x| > 2 then x[2] else 0;
    b0 * 65536 + b1 * 256 + b2
  }

  // (b >> k) & 0x3F, for m == 2^k.
  function SextetOf(b: int, m: int): Sextet
    requires m > 0
  {
    b / m % 64
  }

  // One iteration of the encoder: up to three bytes, always four characters.
  function EncodeGroup(x: seq<Byte>): string
    requires x != []
  {
    var b := Word(x);
    [Symbol(SextetOf(b, 262144)), Symbol(SextetOf(b, 4096)),
     if |x| > 1 then Symbol(SextetOf(b, 64)) else '=',
     if |x| > 2 then Symbol(SextetOf(b, 1)) else '=']
  }

  function Rest(x: seq<Byte>): seq<Byte> { if |x| > 3 then x[3..] else [] }

  function Encode(x: seq<Byte>): string
    decreases |x|
  {
    if x == [] then "" else EncodeGroup(x) + Encode(Rest(x))
  }

  // The sextets of a word, byte by byte.
  lemma WordSextets(b0: Byte, b1: Byte, b2: Byte, b: int)
    requires b == b0 as int * 65536 + b1 as int * 256 + b2 as int
    ensures b / 262144 % 64 == b0 / 4
    ensures b / 4096 % 64 == b0 % 4 * 16 + b1 / 16
    ensures b / 64 % 64 == b1 % 16 * 4 + b2 / 64
    ensures b % 64 == b2 % 64
  {
    var q0: int, r0: int, q1: int, r1: int, q2: int, r2: int := b0 / 4, b0 % 4, b1 / 16, b1 % 16, b2 / 64, b2 % 64;
    var top, mid := q0 * 64 + (r0 * 16 + q1), (q0 * 64 + (r0 * 16 + q1)) * 64 + (r1 * 4 + q2);
    DivMod(b, 262144, q0, r0 * 65536 + q1 * 4096 + r1 * 256 + q2 * 64 + r2);
    DivMod(b, 4096, top, r1 * 256 + q2 * 64 + r2);
    DivMod(b, 64, mid, r2);
    DivMod(q0, 64, 0, q0);
    DivMod(top, 64, q0, r0 * 16 + q1);
    DivMod(mid, 64, top, r1 * 4 + q2);
  }

  // The sextets of one group of bytes.
  function B1(x: seq<Byte>): Byte { if |x| > 1 then x[1] else 0 }
  function B2(x: seq<Byte>): Byte { if |x| > 2 then x[2] else 0 }
  function S0(x: seq<Byte>): Sextet requires x != [] { x[0] / 4 }
  function S1(x: seq<Byte>): Sextet requires x != [] { x[0] as int % 4 * 16 + B1(x) as int / 16 }
  function S2(x: seq<Byte>): Sextet { B1(x) as int % 16 * 4 + B2(x) as int / 64 }
  function S3(x: seq<Byte>): Sextet { B2(x) as int % 64 }

  lemma GroupSymbols(x: seq<Byte>)
    requires x != []
    ensures EncodeGroup(x) == [Symbol(S0(x)), Symbol(S1(x)),
                               if |x| > 1 then Symbol(S2(x)) else '=', if |x| > 2 then Symbol(S3(x)) else '=']
  {
    WordSextets(x[0], B1(x), B2(x), Word(x));
  }

  lemma EncodeNext(x: seq<Byte>, out: string)
    requires x != []
    ensures out + Encode(x) == out + EncodeGroup(x) + Encode(Rest(x))
  {
    hide EncodeGroup, Rest;
  }

  method EncodeLoop(data: seq<Byte>) returns (out: string)
    ensures out == Encode(data)
  {
    out := "";
    var i := 0;
    ghost var rest := data;
    while i < |data|
      invariant 0 <= i
      invariant rest == if i < |data| then data[i..] else []
      invariant Encode(data) == out + Encode(rest)
    {
      var b: int := data[i] as int * 65536;
      if i + 1 < |data| { b := b + data[i + 1] as int * 256; }
      if i + 2 < |data| { b := b + data[i + 2]; }
      assert b == Word(rest);
      EncodeNext(rest, out);
      hide Word, Symbol, SextetOf, Encode;
      out := out + [Symbol(SextetOf(b, 262144)), Symbol(SextetOf(b, 4096)),
                    if i + 1 < |data| then Symbol(SextetOf(b, 64)) else '=',
                    if i + 2 < |data| then Symbol(SextetOf(b, 1)) else '='];
      rest := Rest(rest);
      i := i + 3;
    }
  }

  lemma {:induction false} EncodedLength(x: seq<Byte>)
    ensures |Encode(x)| == 4 * ((|x| + 2) / 3)
    decreases |x|
  {
    if x == [] {
    } else {
      EncodedLength(Rest(x));
      hide Encode, EncodeGroup, Symbol;
      if |x| > 3 { DivMod(|x| + 2, 3, (|x| - 1) / 3 + 1, (|x| - 1) % 3); }
    }
  }

  // ---- Decoding ----

  // The values of the longest prefix that is all alphabet.
  function Sextets(s: string): seq<Sextet> {
    if s == "" || Lookup(s[0]) == -1 then []
    else SymbolLookup(s[0]); [Lookup(s[0])] + Sextets(s[1..])
  }

  // Decoding by groups of four, RFC 4648 section 4; leftover bits are dropped.
  function Groups(d: seq<Sextet>): seq<Byte> {
    if |d| < 2 then []
    else if |d| == 2 then [ByteOne(d[0], d[1])]
    else if |d| == 3 then [ByteOne(d[0], d[1]), ByteTwo(d[1], d[2])]
    else [ByteOne(d[0], d[1]), ByteTwo(d[1], d[2]), ByteThree(d[2], d[3])] + Groups(d[4..])
  }

  function ByteOne(a: Sextet, b: Sextet): Byte { a as int * 4 + b as int / 16 }

  function ByteTwo(b: Sextet, c: Sextet): Byte { b as int % 16 * 16 + c as int / 4 }

  function ByteThree(c: Sextet, d: Sextet): Byte { c as int % 4 * 64 + d as int }

  function Decode(s: string): seq<Byte> { Groups(Sextets(s)) }

  // How an accumulator is kept: unbounded, modulo m, or in a signed word of m values.
  datatype Width = Unbounded | Unsigned(m: int) | Signed(m: int)

  // At least twelve bits: m is a multiple of 2^12, as every 2^k with k >= 12 is.
  predicate Wide(w: Width) { w.Unbounded? || (w.m > 0 && w.m % 4096 == 0) }

  function Keep(w: Width, x: int): int
    requires Wide(w)
  {
    match w
    case Unbounded => x
    case Unsigned(m) => x % m
    case Signed(m) => if x % m < m / 2 then x % m else x % m - m
  }

  lemma KeepsLowBits(w: Width, x: int)
    requires Wide(w)
    ensures Keep(w, x) % 4096 == x % 4096
  {
    if !w.Unbounded? { ModOfMod(x, w.m); }
  }

  lemma ModOfMod(x: int, m: int)
    requires m > 0 && m % 4096 == 0
    ensures x % m % 4096 == x % 4096 && (x % m - m) % 4096 == x % 4096
  {
    var q, k := x / m, m / 4096;
    var y, z := x % m / 4096, x % m % 4096;
    assert m * q == 4096 * (k * q);
    DivMod(x, 4096, k * q + y, z);
    DivMod(x % m - m, 4096, y - k, z);
  }

  // The values `bits` takes between two characters.
  predicate Waiting(bits: int) { bits == -8 || bits == -6 || bits == -4 || bits == -2 }

  function Power(bits: int): int
    requires bits >= 0 && Waiting(bits - 6)
  {
    if bits == 4 then 16 else if bits == 2 then 4 else 1
  }

  // (char)((val >> bits) & 0xFF): division rounding down, then the remainder,
  // for negative accumulators too.
  function Emitted(val: int, bits: int): Byte
    requires bits >= 0 && Waiting(bits - 6)
  {
    val / Power(bits) % 256
  }

  // The code's own scan, from an accumulator and a bit count.
  function Accumulate(s: string, val: int, bits: int, w: Width): seq<Byte>
    requires Waiting(bits) && Wide(w)
  {
    if s == "" || Lookup(s[0]) == -1 then []
    else
      var v := Keep(w, val * 64 + Lookup(s[0]));
      if bits == -8 then Accumulate(s[1..], v, -2, w)
      else [Emitted(v, bits + 6)] + Accumulate(s[1..], v, bits - 2, w)
  }

  // The same scan remembering only the bits still to be written.
  function Carry(d: seq<Sextet>, r: int, bits: int): seq<int>
    requires Waiting(bits)
  {
    if d == [] then []
    else if bits == -8 then Carry(d[1..], d[0], -2)
    else
      var w := r * 64 + d[0] as int;
      [w / Power(bits + 6)] + Carry(d[1..], w % Power(bits + 6), bits - 2)
  }

  function Pending(bits: int): int {
    if bits == -2 then 64 else if bits == -4 then 16 else if bits == -6 then 4 else 1
  }

  lemma {:induction false} AccumulateIsCarry(s: string, val: int, bits: int, w: Width)
    requires Waiting(bits)
    requires Wide(w)
    ensures Accumulate(s, val, bits, w) == Carry(Sextets(s), val % Pending(bits), bits)
  {
    hide Keep, Lookup;
    if s == "" || Lookup(s[0]) == -1 {
    } else {
      SymbolLookup(s[0]);
      var d := Lookup(s[0]);
      var v := Keep(w, val * 64 + d);
      KeepsLowBits(w, val * 64 + d);
      assert Sextets(s)[0] == d && Sextets(s)[1..] == Sextets(s[1..]);
      AccumulateIsCarry(s[1..], v, if bits == -8 then -2 else bits - 2, w);
      StepBits(val, d, v, bits);
    }
  }

  // One step on the accumulator and one on the carry write the same byte and
  // leave the same pending bits.
  lemma StepBits(val: int, d: Sextet, v: int, bits: int)
    requires Waiting(bits)
    requires v % 4096 == (val * 64 + d as int) % 4096
    ensures bits == -8 ==> v % 64 == d
    ensures bits != -8 ==>
      var w := val % Pending(bits) * 64 + d as int;
      v / Power(bits + 6) % 256 == w / Power(bits + 6) && v % Power(bits + 6) == w % Power(bits + 6)
  {
    LowTwelve(val, d, v);
    ModMod(val);
    var r, p := val % 64, v / 4096;
    var w := r * 64 + d as int;
    if bits == -8 {
      LowSextetIsLast(p, r, d);
    } else if bits == -2 {
      HighBitsLostAtFour(p, w);
    } else if bits == -4 {
      HighBitsLostAtTwo(p, w);
      WrittenBitsLostAtTwo(r, d, w);
    } else {
      HighBitsLostAtZero(p, w);
      WrittenBitsLostAtZero(r, d, w);
    }
  }

  lemma ModMod(val: int)
    ensures val % 64 % 16 == val % 16 && val % 64 % 4 == val % 4
  {
    var q, r := val / 64, val % 64;
    DivMod(val, 16, 4 * q + r / 16, r % 16);
    DivMod(val, 4, 16 * q + r / 4, r % 4);
  }

  lemma LowTwelve(val: int, d: Sextet, v: int)
    requires v % 4096 == (val * 64 + d as int) % 4096
    ensures v == 4096 * (v / 4096) + (val % 64 * 64 + d as int)
  {
    assert val * 64 + d as int == 4096 * (val / 64) + (val % 64 * 64 + d as int);
  }

  lemma LowSextetIsLast(p: int, r: int, d: Sextet)
    ensures (4096 * p + (r * 64 + d as int)) % 64 == d
  {
    DivMod(4096 * p + (r * 64 + d as int), 64, 64 * p + r, d as int);
  }

  // Bits above the twelfth reach no byte, whatever the shift it is taken at.
  lemma HighBitsLostAtFour(p: int, w: int)
    requires 0 <= w < 4096
    ensures (4096 * p + w) / 16 % 256 == w / 16 && (4096 * p + w) % 16 == w % 16
  {
    var a, b := w / 16, w % 16;
    DivMod(4096 * p + w, 16, 256 * p + a, b);
    DivMod(256 * p + a, 256, p, a);
  }

  lemma HighBitsLostAtTwo(p: int, w: int)
    requires 0 <= w < 4096
    ensures (4096 * p + w) / 4 % 256 == w / 4 % 256 && (4096 * p + w) % 4 == w % 4
  {
    var a, b := w / 4, w % 4;
    DivMod(4096 * p + w, 4, 1024 * p + a, b);
    DivMod(1024 * p + a, 256, 4 * p + a / 256, a % 256);
  }

  lemma HighBitsLostAtZero(p: int, w: int)
    requires 0 <= w < 4096
    ensures (4096 * p + w) % 256 == w % 256
  {
    var k, r := w / 256, w % 256;
    DivMod(4096 * p + w, 256, 16 * p + k, r);
  }

  // Nor do the bits of the last sextet that were written before.
  lemma WrittenBitsLostAtTwo(r: int, d: Sextet, w: int)
    requires 0 <= r < 64 && w == r * 64 + d as int
    ensures w / 4 % 256 == (r % 16 * 64 + d as int) / 4 && w % 4 == (r % 16 * 64 + d as int) % 4
  {
    var k, s := r / 16, r % 16;
    var t := s * 64 + d as int;
    DivMod(w, 4, 256 * k + t / 4, t % 4);
    DivMod(256 * k + t / 4, 256, k, t / 4);
  }

  lemma WrittenBitsLostAtZero(r: int, d: Sextet, w: int)
    requires 0 <= r < 64 && w == r * 64 + d as int
    ensures w % 256 == r % 4 * 64 + d as int
  {
    var k, s := r / 4, r % 4;
    DivMod(w, 256, k, s * 64 + d as int);
  }

  lemma {:induction false} CarryIsGroups(d: seq<Sextet>, r: int)
    ensures Carry(d, r, -8) == Groups(d)
  {
    if |d| >= 2 {
      var a: int, b: int := d[0], d[1];
      var s2 := d[1..][1..];
      CarryStep2(a, b);
      assert Carry(d, r, -8) == [ByteOne(d[0], d[1])] + Carry(s2, b % 16, -4);
      if |d| >= 3 {
        var c: int := d[2];
        var s3 := s2[1..];
        CarryStep3(b, c);
        assert s2[0] == d[2];
        assert Carry(s2, b % 16, -4) == [ByteTwo(d[1], d[2])] + Carry(s3, c % 4, -6);
        if |d| >= 4 {
          assert s3[0] == d[3] && s3[1..] == d[4..];
          assert Carry(s3, c % 4, -6) == [ByteThree(d[2], d[3])] + Carry(d[4..], 0, -8);
          CarryIsGroups(d[4..], 0);
        }
      }
    }
  }

  lemma CarryStep2(a: int, b: int)
    requires 0 <= a < 64 && 0 <= b < 64
    ensures (a * 64 + b) / 16 == a * 4 + b / 16 && (a * 64 + b) % 16 == b % 16
  {}

  lemma CarryStep3(b: int, c: int)
    requires 0 <= b < 64 && 0 <= c < 64
    ensures (b % 16 * 64 + c) / 4 == b % 16 * 16 + c / 4 && (b % 16 * 64 + c) % 4 == c % 4
  {}

  // The decoder's accumulator is never masked. However it is kept, as long as
  // its word has twelve bits, the output is the group-wise decoding of the
  // longest all-alphabet prefix, for inputs of any length.
  lemma NarrowingIsHarmless(s: string, w: Width)
    requires Wide(w)
    ensures Accumulate(s, 0, -8, w) == Decode(s)
  {
    AccumulateIsCarry(s, 0, -8, w);
    CarryIsGroups(Sextets(s), 0);
  }

  // What one character writes, and the bit count it leaves.
  function Written(val: int, bits: int): seq<Byte>
    requires bits >= 0 ==> Waiting(bits - 6)
  {
    if bits >= 0 then [Emitted(val, bits)] else []
  }

  function Left(bits: int): int { if bits >= 0 then bits - 8 else bits }

  lemma AccumulateStep(s: string, val: int, bits: int, w: Width)
    requires Waiting(bits) && Wide(w)
    ensures s == "" || Lookup(s[0]) == -1 ==> Accumulate(s, val, bits, w) == []
    ensures Waiting(Left(bits + 6))
    ensures s != "" && Lookup(s[0]) != -1 ==>
      var v := Keep(w, val * 64 + Lookup(s[0]));
      Accumulate(s, val, bits, w) == Written(v, bits + 6) + Accumulate(s[1..], v, Left(bits + 6), w)
  {}

  lemma Assoc(a: seq<Byte>, b: seq<Byte>, c: seq<Byte>)
    ensures a + (b + c) == (a + b) + c
  {}

  // One character of base64_decode's loop: the accumulator and bit count after
  // it, and the byte it writes, if any.
  method DecodeChar(c: char, val: int, bits: int, w: Width) returns (val': int, bits': int, bytes: seq<Byte>)
    requires Waiting(bits) && Wide(w)
    ensures val' == Keep(w, val * 64 + Lookup(c))
    ensures bits' == Left(bits + 6) && bytes == Written(val', bits + 6)
  {
    val' := Keep(w, val * 64 + Lookup(c));
    bits' := bits + 6;
    bytes := [];
    if bits' >= 0 {
      bytes := [Emitted(val', bits')];
      bits' := bits' - 8;
    }
  }

  // utils::base64_decode; the code's 32-bit int is w == Signed(0x1_0000_0000).
  method DecodeLoop(s: string, w: Width) returns (out: seq<Byte>)
    requires Wide(w)
    ensures out == Decode(s)
  {
    ghost var all := Accumulate(s, 0, -8, w);
    NarrowingIsHarmless(s, w);
    out := [];
    var val, bits, rest := 0, -8, s;
    assert Waiting(bits);
    hide *;
    while rest != "" && Lookup(rest[0]) != -1
      invariant Waiting(bits)
      invariant all == out + Accumulate(rest, val, bits, w)
      decreases |rest|
    {
      AccumulateStep(rest, val, bits, w);
      var bytes;
      val, bits, bytes := DecodeChar(rest[0], val, bits, w);
      Assoc(out, bytes, Accumulate(rest[1..], val, bits, w));
      out, rest := out + bytes, rest[1..];
    }
    AccumulateStep(rest, val, bits, w);
  }

  lemma {:induction false} DecodedLength(d: seq<Sextet>)
    ensures |Groups(d)| == 3 * |d| / 4
  {
    if |d| < 4 {
    } else {
      DecodedLength(d[4..]);
    }
  }

  // ---- Round trips ----

  // Bytes cut into sextets and put together again, and the other way round.
  lemma Regroup(x: seq<Byte>)
    requires x != []
    ensures ByteOne(S0(x), S1(x)) == x[0] && ByteTwo(S1(x), S2(x)) == B1(x) && ByteThree(S2(x), S3(x)) == B2(x)
    ensures |x| == 1 ==> S1(x) % 16 == 0
    ensures |x| <= 2 ==> S2(x) % 4 == 0
  {
    var b0: int, b1: int, b2: int := x[0], B1(x), B2(x);
    assert (b0 % 4 * 16 + b1 / 16) / 16 == b0 % 4;
    assert (b0 % 4 * 16 + b1 / 16) % 16 == b1 / 16;
    assert (b1 % 16 * 4 + b2 / 64) / 4 == b1 % 16;
    assert (b1 % 16 * 4 + b2 / 64) % 4 == b2 / 64;
  }

  lemma Degroup(d0: Sextet, d1: Sextet, d2: Sextet, d3: Sextet)
    ensures ByteOne(d0, d1) / 4 == d0 && ByteOne(d0, d1) % 4 == d1 / 16
    ensures ByteTwo(d1, d2) / 16 == d1 % 16 && ByteTwo(d1, d2) % 16 == d2 / 4
    ensures ByteThree(d2, d3) / 64 == d2 % 4 && ByteThree(d2, d3) % 64 == d3
    ensures d1 / 16 * 16 + d1 % 16 == d1 && d2 / 4 * 4 + d2 % 4 == d2
  {}

  // The sextets that the text of one group, followed by more text, begins with.
  lemma EncodedSextets(x: seq<Byte>, rest: string)
    requires x != []
    ensures Sextets(EncodeGroup(x) + rest) ==
      if |x| == 1 then [S0(x), S1(x)]
      else if |x| == 2 then [S0(x), S1(x), S2(x)]
      else [S0(x), S1(x), S2(x), S3(x)] + Sextets(rest)
  {
    GroupSymbols(x);
    LookupSymbol(S0(x)); LookupSymbol(S1(x)); LookupSymbol(S2(x)); LookupSymbol(S3(x));
    assert Lookup('=') == -1;
    hide S0, S1, S2, S3, Symbol, Lookup, EncodeGroup;
    GroupSextets(EncodeGroup(x), rest);
  }

  lemma GroupsStep(d: seq<Sextet>)
    requires |d| >= 4
    ensures Groups(d) == [ByteOne(d[0], d[1]), ByteTwo(d[1], d[2]), ByteThree(d[2], d[3])] + Groups(d[4..])
  {
    hide ByteOne, ByteTwo, ByteThree;
  }

  lemma {:induction false} DecodeEncode(x: seq<Byte>)
    ensures Decode(Encode(x)) == x
    decreases |x|
  {
    hide Groups, EncodeGroup, Sextets, S0, S1, S2, S3, ByteOne, ByteTwo, ByteThree;
    if x == [] {
      NothingEncoded();
    } else {
      EncodedSextets(x, Encode(Rest(x)));
      Regroup(x);
      if |x| <= 2 {
        LastBytes(x);
      } else {
        DecodeEncode(Rest(x));
        GroupsStep([S0(x), S1(x), S2(x), S3(x)] + Sextets(Encode(Rest(x))));
        assert x == [x[0], x[1], x[2]] + Rest(x);
      }
    }
  }

  lemma NothingEncoded()
    ensures Groups(Sextets("")) == []
  {}

  // One or two bytes come back from the sextets of their padded group.
  lemma LastBytes(x: seq<Byte>)
    requires 1 <= |x| <= 2
    ensures Groups(if |x| == 1 then [S0(x), S1(x)] else [S0(x), S1(x), S2(x)]) == x
  {
    Regroup(x);
    hide S0, S1, S2, S3, ByteOne, ByteTwo, ByteThree;
  }

  // The sextets of a text whose first two characters are in the alphabet.
  lemma GroupSextets(g: string, rest: string)
    requires |g| == 4 && Lookup(g[0]) != -1 && Lookup(g[1]) != -1
    ensures forall k :: 0 <= k < 4 ==> -1 <= Lookup(g[k]) < 64
    ensures Sextets(g + rest) ==
      [Lookup(g[0]), Lookup(g[1])] +
      (if Lookup(g[2]) == -1 then []
       else if Lookup(g[3]) == -1 then [Lookup(g[2])]
       else [Lookup(g[2]), Lookup(g[3])] + Sextets(rest))
  {
    SymbolLookup(g[0]); SymbolLookup(g[1]); SymbolLookup(g[2]); SymbolLookup(g[3]);
    var t := g + rest;
    var t1, t2, t3 := t[1..], t[1..][1..], t[1..][1..][1..];
    assert t1[0] == g[1] && t2[0] == g[2] && t3[0] == g[3] && t3[1..] == rest;
    assert Sextets(t) == [Lookup(g[0])] + Sextets(t1);
    assert Sextets(t1) == [Lookup(g[1])] + Sextets(t2);
    if Lookup(g[2]) != -1 {
      assert Sextets(t2) == [Lookup(g[2])] + Sextets(t3);
      if Lookup(g[3]) != -1 { assert Sextets(t3) == [Lookup(g[3])] + Sextets(rest); }
    }
  }

  // Four characters a group; padding only in the last, and its unused bits zero
  // (RFC 4648 sections 3.5 and 4).
  predicate Canonical(s: string) {
    if |s| < 4 then s == ""
    else
      && Lookup(s[0]) != -1 && Lookup(s[1]) != -1
      && if s[2] == '=' then s[3] == '=' && |s| == 4 && Lookup(s[1]) % 16 == 0
         else if s[3] == '=' then Lookup(s[2]) != -1 && |s| == 4 && Lookup(s[2]) % 4 == 0
         else Lookup(s[2]) != -1 && Lookup(s[3]) != -1 && Canonical(s[4..])
  }

  lemma {:induction false} EncodedIsCanonical(x: seq<Byte>)
    ensures Canonical(Encode(x))
    decreases |x|
  {
    if x == [] {
    } else {
      EncodedIsCanonical(Rest(x));
      GroupSymbols(x);
      Regroup(x);
      LookupSymbol(S0(x)); LookupSymbol(S1(x)); LookupSymbol(S2(x)); LookupSymbol(S3(x));
      SymbolIsNoPad(S2(x)); SymbolIsNoPad(S3(x));
      hide S0, S1, S2, S3, Symbol, Lookup, EncodeGroup, ByteOne, ByteTwo, ByteThree;
      assert Encode(x)[4..] == Encode(Rest(x));
    }
  }

  lemma SymbolIsNoPad(v: Sextet)
    ensures Symbol(v) != '='
  {}

  lemma {:induction false} EncodeDecode(s: string)
    requires Canonical(s)
    ensures Encode(Decode(s)) == s
  {
    if s == "" {
    } else if s[3] == '=' {
      LastDecodes(s);
    } else {
      FullDecodes(s);
      EncodeDecode(s[4..]);
      hide *;
      assert s == s[..4] + s[4..];
    }
  }

  lemma LastDecodes(s: string)
    requires Canonical(s) && s != "" && s[3] == '='
    ensures Encode(Decode(s)) == s
  {
    GroupSextets(s, "");
    assert s + "" == s;
    SymbolLookup(s[0]); SymbolLookup(s[1]); SymbolLookup(s[2]);
    var x, d := Decode(s), Sextets(s);
    hide Lookup, Symbol, Encode, ByteOne, ByteTwo, Canonical, Sextets;
    LastGroup(x, d[0], d[1], if s[2] == '=' then 0 else d[2]);
  }

  lemma FullDecodes(s: string)
    requires Canonical(s) && s != "" && s[3] != '='
    ensures Canonical(s[4..]) && Encode(Decode(s)) == s[..4] + Encode(Decode(s[4..]))
  {
    FullSextets(s);
    hide Lookup, Symbol, ByteOne, ByteTwo, ByteThree, Canonical, Sextets, Groups, EncodeGroup;
    var x, d := Decode(s), Sextets(s);
    GroupsStep(d);
    FullGroup(x, d[0], d[1], d[2], d[3]);
    EncodedFirst(x);
    assert x[3..] == Decode(s[4..]);
    assert s[..4] == [s[0], s[1], s[2], s[3]];
  }

  lemma FullIsCanonical(s: string)
    requires Canonical(s) && s != "" && s[3] != '='
    ensures Canonical(s[4..]) && Lookup(s[0]) != -1 && Lookup(s[1]) != -1 && Lookup(s[2]) != -1 && Lookup(s[3]) != -1
  {
    hide Lookup;
  }

  lemma FullGroupSextets(g: string, rest: string)
    requires |g| == 4 && Lookup(g[0]) != -1 && Lookup(g[1]) != -1 && Lookup(g[2]) != -1 && Lookup(g[3]) != -1
    ensures |Sextets(g + rest)| >= 4 && Sextets(g + rest)[4..] == Sextets(rest)
    ensures forall k :: 0 <= k < 4 ==> Symbol(Sextets(g + rest)[k]) == g[k]
  {
    hide Lookup, Symbol, Sextets;
    GroupSextets(g, rest);
    SymbolLookup(g[0]); SymbolLookup(g[1]); SymbolLookup(g[2]); SymbolLookup(g[3]);
    var d := Sextets(g + rest);
    assert d == [Lookup(g[0]), Lookup(g[1])] + ([Lookup(g[2]), Lookup(g[3])] + Sextets(rest));
    assert d[0] == Lookup(g[0]) && d[1] == Lookup(g[1]) && d[2] == Lookup(g[2]) && d[3] == Lookup(g[3]);
  }

  // The sextets of a text that starts with a full group.
  lemma FullSextets(s: string)
    requires Canonical(s) && s != "" && s[3] != '='
    ensures Canonical(s[4..]) && |Sextets(s)| >= 4 && Sextets(s)[4..] == Sextets(s[4..])
    ensures forall k :: 0 <= k < 4 ==> Symbol(Sextets(s)[k]) == s[k]
  {
    FullIsCanonical(s);
    hide Lookup, Symbol, Sextets;
    FullGroupSextets(s[..4], s[4..]);
    assert s == s[..4] + s[4..];
  }

  lemma EncodedFirst(x: seq<Byte>)
    requires |x| >= 3
    ensures Encode(x) == EncodeGroup(x) + Encode(x[3..])
  {
    hide EncodeGroup;
    assert Rest(x) == x[3..];
  }

  lemma FullGroup(x: seq<Byte>, d0: Sextet, d1: Sextet, d2: Sextet, d3: Sextet)
    requires |x| >= 3 && x[0] == ByteOne(d0, d1) && x[1] == ByteTwo(d1, d2) && x[2] == ByteThree(d2, d3)
    ensures EncodeGroup(x) == [Symbol(d0), Symbol(d1), Symbol(d2), Symbol(d3)]
  {
    GroupSymbols(x);
    Degroup(d0, d1, d2, d3);
    assert S0(x) == d0 && S1(x) == d1 && S2(x) == d2 && S3(x) == d3;
    hide *;
  }

  lemma OneGroup(x: seq<Byte>)
    requires 0 < |x| <= 3
    ensures Encode(x) == EncodeGroup(x)
  {
    hide EncodeGroup;
    assert Encode(x) == EncodeGroup(x) + Encode([]);
  }

  lemma LastGroup(x: seq<Byte>, d0: Sextet, d1: Sextet, d2: Sextet)
    requires (x == [ByteOne(d0, d1)] && d1 % 16 == 0) || (x == [ByteOne(d0, d1), ByteTwo(d1, d2)] && d2 % 4 == 0)
    ensures Encode(x) == [Symbol(d0), Symbol(d1), if |x| > 1 then Symbol(d2) else '=', '=']
  {
    GroupSymbols(x);
    Degroup(d0, d1, d2, 0);
    hide EncodeGroup, Symbol, ByteOne, ByteTwo, ByteThree, Encode;
    assert S0(x) == d0 && S1(x) == d1 && (|x| > 1 ==> S2(x) == d2);
    hide S0, S1, S2;
    OneGroup(x);
  }

  // The canonical texts are exactly the encoder's outputs.
  lemma CanonicalExactly(s: string)
    ensures Canonical(s) <==> exists x :: s == Encode(x)
  {
    if Canonical(s) {
      EncodeDecode(s);
    }
    forall x | s == Encode(x) ensures Canonical(s) {
      EncodedIsCanonical(x);
    }
  }
}
