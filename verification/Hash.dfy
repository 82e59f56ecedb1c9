/** The 32-bit FNV-1a hash and base-16 text. */
module Hashing {
  import opened Machine

  type Byte = b: int | 0 <= b < 256

  const WORD := 0x1_0000_0000

  /** A `uint32_t`. */
  type Word = h: int | 0 <= h < WORD

  // ----- FNV-1a -----

  const FNV_OFFSET: Word := 2166136261
  const FNV_PRIME := 16777619
  const FNV_PRIME_INVERSE := 899433627

  /** Exclusive or of the low `n` bits, bit by bit. */
  function Xor(a: nat, b: nat, n: nat): nat {
    if n == 0 then 0 else 2 * Xor(a / 2, b / 2, n - 1) + if a % 2 != b % 2 then 1 else 0
  }

  lemma {:induction false} XorBound(a: nat, b: nat, n: nat)
    ensures Xor(a, b, n) < Power2(n)
  {
    if n > 0 { XorBound(a / 2, b / 2, n - 1); }
  }

  function Bit(a: nat, k: nat): nat { if k == 0 then a % 2 else Bit(a / 2, k - 1) }

  /** Each bit below `n` is set exactly if it differs. */
  lemma {:induction false} XorBits(a: nat, b: nat, n: nat, k: nat)
    requires k < n
    ensures Bit(Xor(a, b, n), k) == if Bit(a, k) != Bit(b, k) then 1 else 0
  {
    if k > 0 { XorBits(a / 2, b / 2, n - 1, k - 1); }
  }

  lemma {:induction false} XorInjective(a: nat, b: nat, c: nat, n: nat)
    requires a < Power2(n) && b < Power2(n)
    ensures Xor(a, c, n) == Xor(b, c, n) <==> a == b
    ensures Xor(c, a, n) == Xor(c, b, n) <==> a == b
  {
    if n > 0 { XorInjective(a / 2, b / 2, c / 2, n - 1); }
  }

  lemma WordSize()
    ensures Power2(32) == WORD && Power16(8) == WORD
  {
    assert Power2(8) == 2 * Power2(7) == 4 * Power2(6) == 8 * Power2(5) == 16 * Power2(4) == 256;
    Doubling(8, 8);
    Doubling(16, 16);
    assert Power16(4) == 16 * Power16(3) == 256 * Power16(2) == 65536;
    assert Power16(8) == 16 * Power16(7) == 256 * Power16(6) == 4096 * Power16(5) == 65536 * Power16(4);
  }

  lemma {:induction false} Doubling(m: nat, n: nat)
    ensures Power2(m + n) == Power2(m) * Power2(n)
  {
    if n > 0 { Doubling(m, n - 1); }
  }

  /** `hash ^= byte` on a 32-bit word. */
  function XorByte(h: Word, b: Byte): (x: Word) {
    XorBound(h, b, 32);
    WordSize();
    Xor(h, b, 32)
  }

  /** Unsigned multiplication by the prime, which wraps around. */
  function TimesPrime(h: Word): Word {
    h * FNV_PRIME % WORD
  }

  function Mix(h: Word, b: Byte): Word { TimesPrime(XorByte(h, b)) }

  /** The hash of `bytes` continued from `h`. */
  function FnvFrom(h: Word, bytes: seq<Byte>): Word {
    if bytes == [] then h else Mix(FnvFrom(h, bytes[..|bytes| - 1]), bytes[|bytes| - 1])
  }

  function Fnv(bytes: seq<Byte>): Word { FnvFrom(FNV_OFFSET, bytes) }

  method Fnv1aUint32(bytes: seq<Byte>) returns (hash: Word)
    ensures hash == Fnv(bytes)
  {
    hash := FNV_OFFSET;
    for i := 0 to |bytes|
      invariant hash == FnvFrom(FNV_OFFSET, bytes[..i])
    {
      assert bytes[..i + 1][..i] == bytes[..i];
      hash := XorByte(hash, bytes[i]);
      hash := TimesPrime(hash);
    }
    assert bytes[..|bytes|] == bytes;
  }

  method Fnv1a(bytes: seq<Byte>) returns (text: string)
    ensures text == Hex(Fnv(bytes), 8)
  {
    var hash := Fnv1aUint32(bytes);
    text := Hex(hash, 8);
  }

  /** The prime is invertible modulo 2^32: multiplying by its inverse undoes a step. */
  lemma PrimeIsInvertible(h: Word)
    ensures TimesPrime(h) * FNV_PRIME_INVERSE % WORD == h
  {
    var k := h * FNV_PRIME / WORD;
    var carry := FNV_PRIME * FNV_PRIME_INVERSE / WORD;
    assert FNV_PRIME * FNV_PRIME_INVERSE == 1 + carry * WORD;
    assert TimesPrime(h) * FNV_PRIME_INVERSE == h + (h * carry - k * FNV_PRIME_INVERSE) * WORD;
    WrapsAround(h, h * carry - k * FNV_PRIME_INVERSE);
  }

  lemma WrapsAround(h: Word, z: int)
    ensures (h + z * WORD) % WORD == h
  {
  }

  /** One step loses nothing: with the byte known, its result determines the hash before it. */
  lemma MixInjective(g: Word, h: Word, b: Byte)
    ensures Mix(g, b) == Mix(h, b) <==> g == h
  {
    PrimeIsInvertible(XorByte(g, b));
    PrimeIsInvertible(XorByte(h, b));
    WordSize();
    XorInjective(g, h, b, 32);
  }

  /** Different bytes take one hash to different hashes. */
  lemma MixSeparates(h: Word, a: Byte, b: Byte)
    ensures Mix(h, a) == Mix(h, b) <==> a == b
  {
    PrimeIsInvertible(XorByte(h, a));
    PrimeIsInvertible(XorByte(h, b));
    WordSize();
    XorInjective(a, b, h, 32);
  }

  lemma {:induction false} FnvAppend(h: Word, p: seq<Byte>, t: seq<Byte>)
    ensures FnvFrom(h, p + t) == FnvFrom(FnvFrom(h, p), t)
  {
    if t == [] {
      assert p + t == p;
    } else {
      assert (p + t)[..|p + t| - 1] == p + t[..|t| - 1];
      FnvAppend(h, p, t[..|t| - 1]);
    }
  }

  lemma {:induction false} FnvInjective(g: Word, h: Word, t: seq<Byte>)
    ensures FnvFrom(g, t) == FnvFrom(h, t) <==> g == h
  {
    if t != [] {
      FnvInjective(g, h, t[..|t| - 1]);
      MixInjective(FnvFrom(g, t[..|t| - 1]), FnvFrom(h, t[..|t| - 1]), t[|t| - 1]);
    }
  }

  /** Two strings with a common suffix collide exactly when what comes before it collides. */
  lemma CommonSuffix(p: seq<Byte>, q: seq<Byte>, t: seq<Byte>)
    ensures Fnv(p + t) == Fnv(q + t) <==> Fnv(p) == Fnv(q)
  {
    FnvAppend(FNV_OFFSET, p, t);
    FnvAppend(FNV_OFFSET, q, t);
    FnvInjective(Fnv(p), Fnv(q), t);
  }

  /** Main result on FNV-1a: two strings that differ in exactly one byte never collide, as numbers or as text. */
  lemma SingleByteNeverCollides(s: seq<Byte>, k: nat, b: Byte)
    requires k < |s| && s[k] != b
    ensures Fnv(s) != Fnv(s[k := b]) && Hex(Fnv(s), 8) != Hex(Fnv(s[k := b]), 8)
  {
    var p, t := s[..k], s[k + 1..];
    assert s == (p + [s[k]]) + t && s[k := b] == (p + [b]) + t;
    CommonSuffix(p + [s[k]], p + [b], t);
    OneMore(p, s[k]);
    OneMore(p, b);
    MixSeparates(Fnv(p), s[k], b);
    WordSize();
    HexInjective(Fnv(s), Fnv(s[k := b]), 8);
  }

  lemma OneMore(p: seq<Byte>, b: Byte)
    ensures Fnv(p + [b]) == Mix(Fnv(p), b)
  {
    assert (p + [b])[..|p + [b]| - 1] == p;
  }

  lemma {:induction false} XorWithZero(a: nat, n: nat)
    requires a < Power2(n)
    ensures Xor(a, 0, n) == a && Xor(a, 0, n) == Xor(0, a, n)
  {
    if n > 0 { XorWithZero(a / 2, n - 1); }
  }

  lemma XorNext(a: nat, b: nat, n: nat, r: nat)
    requires n > 0 && Xor(a / 2, b / 2, n - 1) == r
    ensures Xor(a, b, n) == 2 * r + if a % 2 != b % 2 then 1 else 0
  {
  }

  lemma PowerOf25()
    ensures Power2(25) == 33554432
  {
    Doubling(16, 9);
    Doubling(8, 8);
    assert Power2(8) == 2 * Power2(7) == 4 * Power2(6) == 8 * Power2(5) == 16 * Power2(4) == 256;
    assert Power2(9) == 2 * Power2(8);
  }

  lemma XorOfHighBits()
    ensures Xor(16922939, 0, 25) == 16922939
  {
    PowerOf25();
    XorWithZero(16922939, 25);
  }

  /** The offset 0x811C9DC5 with the byte 0x61. */
  lemma XorOfTheLetterA()
    ensures Xor(2166136261, 97, 32) == 2166136228
  {
    XorOfHighBits();
    XorNext(33845879, 1, 26, 16922939);
    XorNext(67691758, 3, 27, 33845878);
    XorNext(135383516, 6, 28, 67691757);
    XorNext(270767032, 12, 29, 135383514);
    XorNext(541534065, 24, 30, 270767028);
    XorNext(1083068130, 48, 31, 541534057);
    XorNext(2166136261, 97, 32, 1083068114);
  }

  lemma ProductOfTheLetterA()
    ensures TimesPrime(2166136228) == 0xe40c292c
  {
  }

  lemma MixOfTheLetterA()
    ensures Mix(2166136261, 97) == 0xe40c292c
  {
    XorOfTheLetterA();
    ProductOfTheLetterA();
    assert XorByte(2166136261, 97) == 2166136228;
  }

  lemma FnvOfNothing()
    ensures Fnv([]) == 0x811c9dc5 == 2166136261
  {
  }

  lemma FnvOfOne(b: Byte)
    ensures Fnv([b]) == Mix(Fnv([]), b)
  {
    OneMore([], b);
    assert [] + [b] == [b];
  }

  /** Two values of the published test vectors: the hash of nothing is the offset, and that of "a" is 0xE40C292C. */
  lemma TestVectors()
    ensures Fnv([]) == 0x811c9dc5
    ensures Fnv([97]) == 0xe40c292c
  {
    FnvOfNothing();
    FnvOfOne(97);
    MixOfTheLetterA();
  }

  // ----- hexadecimal numbers -----

  const DIGITS := "0123456789abcdef"

  function Power16(n: nat): nat { if n == 0 then 1 else 16 * Power16(n - 1) }

  /** A number written with `width` digits, filled with zeros on the left. */
  function Hex(n: nat, width: nat): (text: string)
    ensures |text| == width
  {
    if width == 0 then "" else Hex(n / 16, width - 1) + [DIGITS[n % 16]]
  }

  /** The value of a digit in either case, or -1. */
  function Value(c: char): (v: int)
    ensures -1 <= v < 16
  {
    if '0' <= c <= '9' then c as int - '0' as int
    else if 'a' <= c <= 'f' then c as int - 'a' as int + 10
    else if 'A' <= c <= 'F' then c as int - 'A' as int + 10
    else -1
  }

  predicate LowerHex(c: char) { '0' <= c <= '9' || 'a' <= c <= 'f' }

  lemma DigitHasValue(n: nat)
    requires n < 16
    ensures Value(DIGITS[n]) == n && LowerHex(DIGITS[n])
  {
    assert DIGITS[n] == if n < 10 then '0' + n as char else 'a' + (n - 10) as char;
  }

  /** The number a text of hexadecimal digits stands for, its first digit weighing most. */
  function NumberOf(text: string): int {
    if text == "" then 0 else 16 * NumberOf(text[..|text| - 1]) + Value(text[|text| - 1])
  }

  /** The text of a number that fits stands for that number. */
  lemma {:induction false} HexMeans(n: nat, width: nat)
    requires n < Power16(width)
    ensures NumberOf(Hex(n, width)) == n
    ensures forall k :: 0 <= k < width ==> LowerHex(Hex(n, width)[k])
  {
    if width > 0 {
      HexMeans(n / 16, width - 1);
      DigitHasValue(n % 16);
      assert Hex(n, width)[..width - 1] == Hex(n / 16, width - 1);
    }
  }

  /** The values of the digits. */
  lemma DigitValues(c: char)
    ensures '0' <= c <= '9' ==> Value(c) == (c - '0') as int
    ensures 'a' <= c <= 'f' ==> Value(c) == 10 + (c - 'a') as int
    ensures 'A' <= c <= 'F' ==> Value(c) == 10 + (c - 'A') as int
    ensures Value(c) < 0 <==> !('0' <= c <= '9' || 'a' <= c <= 'f' || 'A' <= c <= 'F')
  {
  }

  /** Numbers below 16^width are told apart by their text. */
  lemma {:induction false} HexInjective(m: nat, n: nat, width: nat)
    requires m < Power16(width) && n < Power16(width)
    ensures Hex(m, width) == Hex(n, width) <==> m == n
  {
    if width > 0 {
      HexInjective(m / 16, n / 16, width - 1);
      DigitHasValue(m % 16);
      DigitHasValue(n % 16);
      var a, b := Hex(m, width), Hex(n, width);
      assert a[..width - 1] == Hex(m / 16, width - 1) && b[..width - 1] == Hex(n / 16, width - 1);
      assert a[width - 1] == DIGITS[m % 16] && b[width - 1] == DIGITS[n % 16];
    }
  }

  // ----- encoding and decoding -----

  function HexByte(b: Byte): string { Hex(b, 2) }

  function Encode(bytes: seq<Byte>): (text: string)
    ensures |text| == 2 * |bytes|
  {
    if bytes == [] then "" else Encode(bytes[..|bytes| - 1]) + HexByte(bytes[|bytes| - 1])
  }

  method HexEncode(bytes: seq<Byte>) returns (text: string)
    ensures text == Encode(bytes)
  {
    text := "";
    for i := 0 to |bytes|
      invariant text == Encode(bytes[..i])
    {
      assert bytes[..i + 1][..i] == bytes[..i];
      text := text + HexByte(bytes[i]);
    }
    assert bytes[..|bytes|] == bytes;
  }

  datatype Parsed = Number(value: int) | Invalid

  /**
   What `std::stoi` in base 16 makes of two characters: it skips white space, takes a
   sign, and reads as many digits as there are; with none it throws.
   */
  function Stoi(c: char, d: char): Parsed {
    if Value(c) >= 0 then Number(if Value(d) >= 0 then 16 * Value(c) + Value(d) else Value(c))
    else if (IsSpace(c) || c == '+') && Value(d) >= 0 then Number(Value(d))
    else if c == '-' && Value(d) >= 0 then Number(-Value(d))
    else Invalid
  }

  /** The first `n` pairs of characters are numbers to `std::stoi`. */
  predicate Accepted(text: string, n: nat)
    requires 2 * n <= |text|
  {
    forall i :: 0 <= i < n ==> Stoi(text[2 * i], text[2 * i + 1]).Number?
  }

  /** The byte of pair `i`; the conversion to `uint8_t` wraps around. */
  function ByteAt(text: string, i: nat): Byte
    requires 2 * i + 1 < |text|
  {
    var p := Stoi(text[2 * i], text[2 * i + 1]);
    if p.Number? then p.value % 256 else 0
  }

  function Bytes(text: string, n: nat): (bytes: seq<Byte>)
    requires 2 * n <= |text|
    ensures |bytes| == n
  {
    if n == 0 then [] else Bytes(text, n - 1) + [ByteAt(text, n - 1)]
  }

  function Decode(text: string): seq<Byte> {
    if |text| % 2 != 0 || !Accepted(text, |text| / 2) then [] else Bytes(text, |text| / 2)
  }

  method HexDecode(hex: string) returns (result: seq<Byte>)
    ensures result == Decode(hex)
  {
    result := [];
    if |hex| % 2 != 0 {
      return;
    }
    for i := 0 to |hex| / 2
      invariant Accepted(hex, i) && result == Bytes(hex, i)
    {
      match Stoi(hex[2 * i], hex[2 * i + 1]) {
        case Number(value) => result := result + [value % 256];
        case Invalid => return [];
      }
    }
  }

  lemma HexOfByte(b: int)
    requires 0 <= b < 256
    ensures Hex(b, 2) == [DIGITS[b / 16], DIGITS[b % 16]]
  {
    assert Hex(b / 16 / 16, 0) == "";
    assert Hex(b / 16, 1) == [DIGITS[b / 16]];
  }

  lemma StoiOfByte(b: Byte)
    ensures HexByte(b) == [DIGITS[b / 16], DIGITS[b % 16]]
    ensures Stoi(HexByte(b)[0], HexByte(b)[1]) == Number(b)
    ensures LowerHex(HexByte(b)[0]) && LowerHex(HexByte(b)[1])
  {
    HexOfByte(b);
    DigitHasValue(b / 16);
    DigitHasValue(b % 16);
  }

  lemma {:induction false} EncodeAt(bytes: seq<Byte>, i: nat)
    requires i < |bytes|
    ensures Encode(bytes)[2 * i] == HexByte(bytes[i])[0] && Encode(bytes)[2 * i + 1] == HexByte(bytes[i])[1]
  {
    if i < |bytes| - 1 { EncodeAt(bytes[..|bytes| - 1], i); }
  }

  lemma PairOfByte(text: string, i: nat, b: Byte)
    requires 2 * i + 1 < |text| && text[2 * i] == HexByte(b)[0] && text[2 * i + 1] == HexByte(b)[1]
    ensures Stoi(text[2 * i], text[2 * i + 1]) == Number(b) && ByteAt(text, i) == b
  {
    StoiOfByte(b);
    SmallByte(b);
  }

  lemma PairOfEncode(bytes: seq<Byte>, i: nat)
    requires i < |bytes|
    ensures Stoi(Encode(bytes)[2 * i], Encode(bytes)[2 * i + 1]) == Number(bytes[i])
    ensures ByteAt(Encode(bytes), i) == bytes[i]
  {
    EncodeAt(bytes, i);
    PairOfByte(Encode(bytes), i, bytes[i]);
  }

  lemma EncodeAccepted(bytes: seq<Byte>)
    ensures Accepted(Encode(bytes), |bytes|)
  {
    forall i | 0 <= i < |bytes| ensures Stoi(Encode(bytes)[2 * i], Encode(bytes)[2 * i + 1]).Number? {
      PairOfEncode(bytes, i);
    }
  }

  lemma {:induction false} BytesOfEncode(bytes: seq<Byte>, n: nat)
    requires n <= |bytes|
    ensures Bytes(Encode(bytes), n) == bytes[..n]
  {
    if n > 0 {
      BytesOfEncode(bytes, n - 1);
      PairOfEncode(bytes, n - 1);
      assert bytes[..n] == bytes[..n - 1] + [bytes[n - 1]];
    }
  }

  lemma DecodeAccepted(text: string, n: nat)
    requires |text| == 2 * n && Accepted(text, n)
    ensures Decode(text) == Bytes(text, n)
  {
  }

  /** Decoding undoes encoding, for every byte string. */
  lemma DecodeEncode(bytes: seq<Byte>)
    ensures Decode(Encode(bytes)) == bytes
  {
    EncodeAccepted(bytes);
    DecodeAccepted(Encode(bytes), |bytes|);
    BytesOfEncode(bytes, |bytes|);
    assert bytes[..|bytes|] == bytes;
  }

  /** Different byte strings have different texts. */
  lemma EncodeInjective(a: seq<Byte>, b: seq<Byte>)
    ensures Encode(a) == Encode(b) <==> a == b
  {
    DecodeEncode(a);
    DecodeEncode(b);
  }

  lemma EncodeIsLowerHex(bytes: seq<Byte>, k: nat)
    requires k < 2 * |bytes|
    ensures LowerHex(Encode(bytes)[k])
  {
    var i := k / 2;
    EncodeAt(bytes, i);
    StoiOfByte(bytes[i]);
    assert k == 2 * i || k == 2 * i + 1;
  }

  function LowerCase(c: char): char { if 'A' <= c <= 'Z' then c + ('a' - 'A') else c }

  function Lower(text: string): (low: string)
    ensures |low| == |text| && forall i :: 0 <= i < |text| ==> low[i] == LowerCase(text[i])
  {
    seq(|text|, i requires 0 <= i < |text| => LowerCase(text[i]))
  }

  predicate AllHex(text: string) { forall i :: 0 <= i < |text| ==> Value(text[i]) >= 0 }

  lemma DigitOfValue(c: char)
    requires Value(c) >= 0
    ensures DIGITS[Value(c)] == LowerCase(c)
  {
    DigitHasValue(Value(c));
  }

  lemma {:induction false} BytesAt(text: string, n: nat, i: nat)
    requires i < n && 2 * n <= |text|
    ensures Bytes(text, n)[i] == ByteAt(text, i)
  {
    if i < n - 1 { BytesAt(text, n - 1, i); }
  }

  lemma SplitByte(a: nat, b: nat)
    requires b < 16
    ensures (16 * a + b) / 16 == a && (16 * a + b) % 16 == b
  {
  }

  lemma HexOfDigits(a: nat, b: nat)
    requires a < 16 && b < 16
    ensures HexByte(16 * a + b) == [DIGITS[a], DIGITS[b]]
  {
    SplitByte(a, b);
    HexOfByte(16 * a + b);
  }

  lemma EncodeOfDigits(c: char, d: char)
    requires Value(c) >= 0 && Value(d) >= 0
    ensures Stoi(c, d) == Number(16 * Value(c) + Value(d))
    ensures HexByte(16 * Value(c) + Value(d)) == [LowerCase(c), LowerCase(d)]
  {
    HexOfDigits(Value(c), Value(d));
    DigitOfValue(c);
    DigitOfValue(d);
  }

  lemma SmallByte(n: int)
    requires 0 <= n < 256
    ensures n % 256 == n
  {
  }

  lemma EncodeOfPair(text: string, i: nat)
    requires 2 * i + 1 < |text| && Value(text[2 * i]) >= 0 && Value(text[2 * i + 1]) >= 0
    ensures HexByte(ByteAt(text, i)) == [LowerCase(text[2 * i]), LowerCase(text[2 * i + 1])]
  {
    EncodeOfDigits(text[2 * i], text[2 * i + 1]);
    SmallByte(16 * Value(text[2 * i]) + Value(text[2 * i + 1]));
  }

  /**
   What one pair decodes to: two digits to their byte, a digit and anything else to the
   digit, white space or a sign and a digit to that digit or its negative; else nothing.
   */
  lemma PairDecodes(c: char, d: char)
    ensures Decode([c, d]) ==
      if Value(c) >= 0 && Value(d) >= 0 then [16 * Value(c) + Value(d)]
      else if Value(c) >= 0 then [Value(c)]
      else if Value(d) >= 0 && (c as int in {9, 10, 11, 12, 13, 32} || c == '+') then [Value(d)]
      else if Value(d) >= 0 && c == '-' then [if Value(d) == 0 then 0 else 256 - Value(d)]
      else []
  {
    var text := [c, d];
    assert Bytes(text, 0) == [];
    assert Bytes(text, 1) == [ByteAt(text, 0)];
    assert Accepted(text, 1) <==> Stoi(c, d).Number?;
  }

  /** Decoding is lenient: a sign before one digit is read like a leading zero. */
  lemma SignIsDecoded()
    ensures Decode(['+', '1']) == [1] && !AllHex(['+', '1']) && Encode(Decode(['+', '1'])) != Lower(['+', '1'])
  {
    var text := ['+', '1'];
    assert Bytes(text, 1) == Bytes(text, 0) + [1];
    assert LowerCase(text[0]) == '+';
    if Encode(Decode(text)) == Lower(text) {
      EncodeIsLowerHex(Decode(text), 0);
      assert false;
    }
  }

  /** Encoding undoes decoding, up to the case of the digits, exactly on texts of pairs of hexadecimal digits. */
  lemma EncodeDecode(text: string)
    ensures Encode(Decode(text)) == Lower(text) <==> |text| % 2 == 0 && AllHex(text)
  {
    if |text| % 2 == 0 { EncodeDecodePairs(text); }
  }

  lemma HexIsAccepted(text: string)
    requires |text| % 2 == 0 && AllHex(text)
    ensures Decode(text) == Bytes(text, |text| / 2) && |Encode(Decode(text))| == |text|
  {
    assert Accepted(text, |text| / 2);
  }

  /** The pair at `i` comes back in lower case. */
  lemma PairSurvives(text: string, i: nat)
    requires |text| % 2 == 0 && AllHex(text) && 2 * i + 1 < |text|
    ensures |Encode(Decode(text))| == |text|
    ensures Encode(Decode(text))[2 * i] == LowerCase(text[2 * i])
    ensures Encode(Decode(text))[2 * i + 1] == LowerCase(text[2 * i + 1])
  {
    HexIsAccepted(text);
    EncodeAt(Decode(text), i);
    BytesAt(text, |text| / 2, i);
    EncodeOfPair(text, i);
  }

  lemma DigitSurvives(text: string, k: nat)
    requires |text| % 2 == 0 && AllHex(text) && k < |text|
    ensures |Encode(Decode(text))| == |text| && Encode(Decode(text))[k] == LowerCase(text[k])
  {
    PairSurvives(text, k / 2);
    assert k == 2 * (k / 2) || k == 2 * (k / 2) + 1;
  }

  lemma DigitsSurvive(text: string)
    requires |text| % 2 == 0 && AllHex(text)
    ensures Encode(Decode(text)) == Lower(text)
  {
    HexIsAccepted(text);
    forall k | 0 <= k < |text| ensures Encode(Decode(text))[k] == Lower(text)[k] {
      DigitSurvives(text, k);
    }
  }

  lemma EncodeDecodePairs(text: string)
    requires |text| % 2 == 0
    ensures Encode(Decode(text)) == Lower(text) <==> AllHex(text)
  {
    if AllHex(text) {
      DigitsSurvive(text);
    } else if Encode(Decode(text)) == Lower(text) {
      var k :| 0 <= k < |text| && Value(text[k]) < 0;
      EncodeIsLowerHex(Decode(text), k);
      assert false;
    }
  }
}
