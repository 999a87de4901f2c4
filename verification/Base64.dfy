// The base64 codec of src/Util/base64.cpp, measured against the 24-bit groups
// of section 4 of RFC 4648.  Both loops of the source shift a 32-bit word that
// overflows on long inputs; here the words wrap, and the proofs show that the
// bits lost that way are never read.

module Base64Spec {
  import opened Bytes

  const ALPHABET := "ABCDEFGHIJKLMNOPQRSTUVWXYZ" + "abcdefghijklmnopqrstuvwxyz" + "0123456789+/"

  /** The character that encodes six bits (table 1 of RFC 4648). */
  function Digit(d: int): char
    requires 0 <= d < 64
  {
    ALPHABET[d]
  }

  /** The number a base64 character stands for, or -1. */
  function Value(c: char): (v: int)
    ensures -1 <= v < 64
  {
    if 'A' <= c <= 'Z' then c as int - 'A' as int
    else if 'a' <= c <= 'z' then c as int - 'a' as int + 26
    else if '0' <= c <= '9' then c as int - '0' as int + 52
    else if c == '+' then 62
    else if c == '/' then 63
    else -1
  }

  lemma LetterValue(d: int)
    requires 0 <= d < 52
    ensures Value(Digit(d)) == d
  {
    if d < 26 {
      assert ALPHABET[d] == "ABCDEFGHIJKLMNOPQRSTUVWXYZ"[d];
    } else {
      assert ALPHABET[d] == "abcdefghijklmnopqrstuvwxyz"[d - 26];
    }
  }

  lemma DigitValue(d: int)
    requires 0 <= d < 64
    ensures Value(Digit(d)) == d
  {
    if d < 52 {
      LetterValue(d);
    } else {
      assert ALPHABET[d] == "0123456789+/"[d - 52];
    }
  }

  /** A 24-bit group of three bytes. */
  function Group(a: Byte, b: Byte, c: Byte): (w: int)
    ensures 0 <= w < 0x100_0000
  {
    a as int * 0x1_0000 + b as int * 256 + c
  }

  /** The four digits of a 24-bit group, most significant first. */
  function Quantum(w: int): string
    requires 0 <= w < 0x100_0000
  {
    [Digit(w / 0x4_0000), Digit(w / 0x1000 % 64), Digit(w / 64 % 64), Digit(w % 64)]
  }

  /** Section 4 of RFC 4648: whole groups, then the last one padded with zero bits and '='. */
  function Encoding(s: seq<Byte>): string {
    if |s| == 0 then ""
    else if |s| == 1 then Quantum(Group(s[0], 0, 0))[..2] + "=="
    else if |s| == 2 then Quantum(Group(s[0], s[1], 0))[..3] + "="
    else Quantum(Group(s[0], s[1], s[2])) + Encoding(s[3..])
  }

  // ---- The same text, digit by digit ----

  /** How many six-bit digits cover n bytes. */
  function DigitCount(n: nat): nat { (4 * n + 2) / 3 }

  /** Byte i of s followed by zeros. */
  function ByteAt(s: seq<Byte>, i: nat): Byte {
    if i < |s| then s[i] else 0
  }

  /** Bits 6k to 6k+5 of s followed by zeros. */
  function Sextet(s: seq<Byte>, k: nat): (d: int)
    ensures 0 <= d < 64
  {
    var j := k / 4 * 3;
    if k % 4 == 0 then ByteAt(s, j) / 4
    else if k % 4 == 1 then ByteAt(s, j) % 4 * 16 + ByteAt(s, j + 1) / 16
    else if k % 4 == 2 then ByteAt(s, j + 1) % 16 * 4 + ByteAt(s, j + 2) / 64
    else ByteAt(s, j + 2) % 64
  }

  lemma SextetAt(s: seq<Byte>, j: nat, r: nat)
    requires r < 4
    ensures Sextet(s, 4 * j + r)
         == if r == 0 then ByteAt(s, 3 * j) / 4
            else if r == 1 then ByteAt(s, 3 * j) % 4 * 16 + ByteAt(s, 3 * j + 1) / 16
            else if r == 2 then ByteAt(s, 3 * j + 1) % 16 * 4 + ByteAt(s, 3 * j + 2) / 64
            else ByteAt(s, 3 * j + 2) % 64
  {
    assert (4 * j + r) / 4 == j;
  }

  lemma GroupBits(a: Byte, b: Byte, c: Byte)
    ensures var w := Group(a, b, c);
      w / 0x4_0000 == a / 4 && w / 0x1000 % 64 == a % 4 * 16 + b / 16
      && w / 64 % 64 == b % 16 * 4 + c / 64 && w % 64 == c % 64
  {
    var w := Group(a, b, c);
    assert w / 64 == a * 1024 + b * 4 + c / 64;
    assert w / 64 / 64 == a * 16 + b / 16 && w / 0x1000 == w / 64 / 64;
    assert w / 0x4_0000 == w / 0x1000 / 64;
  }

  lemma QuantumDigits(s: seq<Byte>)
    requires 0 < |s|
    ensures Quantum(Group(s[0], ByteAt(s, 1), ByteAt(s, 2)))
         == [Digit(Sextet(s, 0)), Digit(Sextet(s, 1)), Digit(Sextet(s, 2)), Digit(Sextet(s, 3))]
  {
    hide Digit, Group;
    GroupBits(s[0], ByteAt(s, 1), ByteAt(s, 2));
  }

  lemma SextetShifts(s: seq<Byte>, k: nat)
    requires |s| >= 3 && k >= 4
    ensures Sextet(s, k) == Sextet(s[3..], k - 4)
  {
    var j := k / 4 * 3;
    assert (k - 4) / 4 * 3 == j - 3 && (k - 4) % 4 == k % 4;
    assert ByteAt(s, j) == ByteAt(s[3..], j - 3);
    assert ByteAt(s, j + 1) == ByteAt(s[3..], j - 2);
    assert ByteAt(s, j + 2) == ByteAt(s[3..], j - 1);
  }

  /** The text of the groups is the digits of the bit stream, then padding to a multiple of four. */
  lemma {:induction false} EncodingDigits(s: seq<Byte>)
    ensures |Encoding(s)| == (|s| + 2) / 3 * 4
    ensures forall k | 0 <= k < DigitCount(|s|) :: Encoding(s)[k] == Digit(Sextet(s, k))
    ensures forall k | DigitCount(|s|) <= k < |Encoding(s)| :: Encoding(s)[k] == '='
  {
    hide Digit, Sextet, Group, Quantum;
    if |s| > 0 {
      QuantumDigits(s);
      if |s| >= 3 {
        EncodingDigits(s[3..]);
        forall k | 4 <= k < DigitCount(|s|)
          ensures Encoding(s)[k] == Digit(Sextet(s, k))
        {
          SextetShifts(s, k);
        }
      }
    }
  }
}

module Base64Decoding {
  import opened Base64Spec
  import opened Bytes
  import opened Wrappers

  /** The characters up to the first '=' or NUL, or all of them. */
  function Body(t: string): string {
    if t == "" || t[0] == '=' || t[0] == '\0' then "" else [t[0]] + Body(t[1..])
  }

  predicate Digits(b: string) {
    forall k | 0 <= k < |b| :: Value(b[k]) >= 0
  }

  /** The byte that two neighbouring sextets share, by its place in the group. */
  function Joined(high: int, low: int, place: int): int {
    if place == 0 then high * 4 + low / 16
    else if place == 1 then high % 16 * 16 + low / 4
    else high % 4 * 64 + low
  }

  /** The m-th octet of the bit stream that the digits b carry. */
  function Octet(b: string, m: nat): Byte
    requires Digits(b) && m + m / 3 + 1 < |b|
  {
    var high, low := Value(b[m + m / 3]), Value(b[m + m / 3 + 1]);
    Joined(high, low, m % 3)
  }

  /** Every whole octet that the digits of t carry; nothing when a character before the end is no digit. */
  function Decoding(t: string): Option<seq<Byte>> {
    var b := Body(t);
    if Digits(b) then Some(seq(|b| * 3 / 4, m requires 0 <= m < |b| * 3 / 4 => Octet(b, m))) else None
  }

  lemma {:induction false} BodyEnds(t: string, n: nat)
    requires n <= |t| && (n < |t| ==> t[n] == '=' || t[n] == '\0')
    requires forall k | 0 <= k < n :: t[k] != '=' && t[k] != '\0'
    ensures Body(t) == t[..n]
  {
    if n > 0 {
      BodyEnds(t[1..], n - 1);
      assert t[..n] == [t[0]] + t[1..][..n - 1];
    }
  }

  lemma SextetsJoin(a: Byte, b: Byte, c: Byte)
    ensures Joined(a / 4, a % 4 * 16 + b / 16, 0) == a
    ensures Joined(a % 4 * 16 + b / 16, b % 16 * 4 + c / 64, 1) == b
    ensures Joined(b % 16 * 4 + c / 64, c % 64, 2) == c
  {
    assert (a % 4 * 16 + b / 16) / 16 == a % 4;
    assert (a % 4 * 16 + b / 16) % 16 == b / 16;
    assert (b % 16 * 4 + c / 64) / 4 == b % 16;
    assert (b % 16 * 4 + c / 64) % 4 == c / 64;
  }

  lemma OctetOfSextets(s: seq<Byte>, m: nat)
    requires m < |s|
    ensures m + m / 3 + 1 < DigitCount(|s|)
    ensures s[m] == Joined(Sextet(s, m + m / 3), Sextet(s, m + m / 3 + 1), m % 3)
  {
    hide Sextet;
    var j := m / 3;
    SextetsJoin(ByteAt(s, 3 * j), ByteAt(s, 3 * j + 1), ByteAt(s, 3 * j + 2));
    hide Joined;
    assert m == 3 * j + m % 3;
    SextetAt(s, j, m % 3);
    SextetAt(s, j, m % 3 + 1);
  }

  /** Decoding undoes the encoding, for every byte string. */
  lemma DecodingInverts(s: seq<Byte>)
    ensures Decoding(Encoding(s)) == Some(s)
  {
    hide Digit, Sextet, Value, Encoding, Body;
    var t, n := Encoding(s), DigitCount(|s|);
    EncodingDigits(s);
    forall k | 0 <= k < n
      ensures Value(t[k]) == Sextet(s, k) && t[k] != '=' && t[k] != '\0'
    {
      DigitValue(Sextet(s, k));
      StopsAreNoDigits();
    }
    BodyEnds(t, n);
    assert n * 3 / 4 == |s|;
    forall m | 0 <= m < |s|
      ensures m + m / 3 + 1 < n && Octet(t[..n], m) == s[m]
    {
      OctetOfSextets(s, m);
    }
    assert Decoding(t).value == s;
  }

  lemma StopsAreNoDigits()
    ensures Value('=') < 0 && Value('\0') < 0
  {
  }
}

module Base64 {
  import opened Arithmetic
  import opened Base64Decoding
  import opened Base64Spec
  import opened Bytes
  import opened Wrappers

  const INT_MAX: int := 0x7FFF_FFFF
  const UINT_MAX: int := 0xFFFF_FFFF
  const UINT_MAX_QUARTER: int := UINT_MAX / 4

  /** Conversion to a signed 32-bit int. */
  function Int32(x: int): (i: int)
    ensures -0x8000_0000 <= i <= INT_MAX
    ensures -0x8000_0000 <= x <= INT_MAX ==> i == x
  {
    (x + 0x8000_0000) % TWO32 - 0x8000_0000
  }

  /** The buffer size the encoder asks for. */
  function BufferSize(n: int): int { (n + 2) / 3 * 4 + 1 }

  // ---- Encoder ----

  /** The last two bytes before position n. */
  function LastTwo(s: seq<Byte>, n: nat): int
    requires n <= |s|
  {
    (if n >= 2 then s[n - 2] as int else 0) * 256 + (if n >= 1 then s[n - 1] else 0)
  }

  /** Shifting the next byte into the wrapping word keeps its last two bytes right. */
  lemma WordTakesByte(s: seq<Byte>, n: nat, bits: int)
    requires n < |s| && bits % 0x1_0000 == LastTwo(s, n)
    ensures (bits * 256 % TWO32 + s[n]) % TWO32 % 0x1_0000 == LastTwo(s, n + 1)
  {
    var h, last, c := bits / 0x1_0000, LastTwo(s, n), s[n] as int;
    var kept := h % 256 * 0x100_0000 + last * 256;
    DivideBy(bits * 256, TWO32, h / 256, kept);
    DivideBy(kept + c, TWO32, 0, kept + c);
    DivideBy(kept + c, 0x1_0000, h % 256 * 256 + last / 256, last % 256 * 256 + c);
  }

  function Pow2(n: nat): (p: nat)
    ensures p > 0
  {
    if n == 0 then 1 else 2 * Pow2(n - 1)
  }

  /** (bits << 6 >> shift) & 0x3f on a 32-bit word. */
  function ShiftedOut(bits: int, shift: nat): (d: int)
    ensures 0 <= d < 64
  {
    bits * 64 % TWO32 / Pow2(shift) % 64
  }

  lemma SmallPowers()
    ensures Pow2(0) == 1 && Pow2(2) == 4 && Pow2(4) == 16 && Pow2(6) == 64 && Pow2(8) == 256
    ensures Pow2(10) == 1024 && Pow2(12) == 4096 && Pow2(14) == 16384
  {
    assert Pow2(4) == 16;
    assert Pow2(8) == 16 * Pow2(4);
    assert Pow2(12) == 16 * Pow2(8);
  }

  /** A word with low half `low` shifted left by six, cut to 32 bits. */
  lemma LowHalfMoves(bits: int, low: int) returns (q: int)
    requires 0 <= low < 0x1_0000 && bits % 0x1_0000 == low
    ensures bits * 64 % TWO32 == q * 0x40_0000 + low * 64
  {
    var h := bits / 0x1_0000;
    q := h % 1024;
    assert bits * 64 == h / 1024 * TWO32 + q * 0x40_0000 + low * 64;
  }

  lemma ShiftedOutBits(bits: int, prev: Byte, c: Byte)
    requires bits % 0x1_0000 == prev * 256 + c
    ensures ShiftedOut(bits, 2) == c % 4 * 16
    ensures ShiftedOut(bits, 4) == c % 16 * 4
    ensures ShiftedOut(bits, 6) == c % 64
    ensures ShiftedOut(bits, 8) == c / 4
    ensures ShiftedOut(bits, 10) == prev % 4 * 16 + c / 16
    ensures ShiftedOut(bits, 12) == prev % 16 * 4 + c / 64
    ensures ShiftedOut(bits, 14) == prev % 64
  {
    var low := prev as int * 256 + c;
    var q := LowHalfMoves(bits, low);
    SmallPowers();
    hide Pow2;
    HighBits(q, prev, c);
    LowBits(q, prev, c);
  }

  /** Six bits out of the middle of a word. */
  lemma MiddleBits(w: int, d: int, above: int, six: int, below: int)
    requires 0 <= six < 64 && 0 <= below < d && w == (above * 64 + six) * d + below
    ensures w / d % 64 == six
  {
    DivideBy(w, d, above * 64 + six, below);
    DivideBy(above * 64 + six, 64, above, six);
  }

  lemma HighBits(q: int, prev: Byte, c: Byte)
    ensures var w := q * 0x40_0000 + (prev as int * 256 + c) * 64;
      w / 256 % 64 == c / 4 && w / 1024 % 64 == prev % 4 * 16 + c / 16
      && w / 4096 % 64 == prev % 16 * 4 + c / 64 && w / 16384 % 64 == prev % 64
  {
    var w := q * 0x40_0000 + (prev as int * 256 + c) * 64;
    MiddleBits(w, 256, q * 0x100 + prev, c / 4, c % 4 * 64);
    MiddleBits(w, 1024, q * 0x40 + prev / 4, prev % 4 * 16 + c / 16, c % 16 * 64);
    MiddleBits(w, 4096, q * 0x10 + prev / 16, prev % 16 * 4 + c / 64, c % 64 * 64);
    MiddleBits(w, 16384, q * 4 + prev / 64, prev % 64, c * 64);
  }

  lemma LowBits(q: int, prev: Byte, c: Byte)
    ensures var w := q * 0x40_0000 + (prev as int * 256 + c) * 64;
      w / 4 % 64 == c % 4 * 16 && w / 16 % 64 == c % 16 * 4 && w / 64 % 64 == c % 64
  {
    var w := q * 0x40_0000 + (prev as int * 256 + c) * 64;
    MiddleBits(w, 4, q * 0x4000 + prev * 64 + c / 4, c % 4 * 16, 0);
    MiddleBits(w, 16, q * 0x1000 + prev * 16 + c / 16, c % 16 * 4, 0);
    MiddleBits(w, 64, q * 0x400 + prev * 4 + c / 64, c % 64, 0);
  }

  /** A digit written while more bytes are to come. */
  lemma EmitsWithin(s: seq<Byte>, n: nat, k: nat, bits: int)
    requires 1 <= n <= |s| && bits % 0x1_0000 == LastTwo(s, n)
    requires 6 < 8 * n - 6 * k <= 14
    ensures ShiftedOut(bits, 8 * n - 6 * k) == Sextet(s, k)
  {
    ShiftedOutBits(bits, if n >= 2 then s[n - 2] else 0, s[n - 1]);
    hide ShiftedOut, Sextet;
    var j, r := k / 4, k % 4;
    SextetAt(s, j, r);
    assert k == 4 * j + r && n == 3 * j + r + 1;
  }

  /** The last digit, whose missing bits are zero. */
  lemma EmitsLast(s: seq<Byte>, k: nat, bits: int)
    requires 1 <= |s| && bits % 0x1_0000 == LastTwo(s, |s|)
    requires 0 < 8 * |s| - 6 * k <= 6
    ensures ShiftedOut(bits, 8 * |s| - 6 * k) == Sextet(s, k)
  {
    ShiftedOutBits(bits, if |s| >= 2 then s[|s| - 2] else 0, s[|s| - 1]);
    hide ShiftedOut, Sextet;
    var j, r := k / 4, k % 4;
    SextetAt(s, j, r);
    assert k == 4 * j + r && |s| == 3 * j + r;
  }

  /** What the inner loop writes next is the next digit of the bit stream. */
  lemma EmitsSextet(s: seq<Byte>, n: nat, k: nat, bits: int)
    requires 1 <= n <= |s| && bits % 0x1_0000 == LastTwo(s, n)
    requires 0 < 8 * n - 6 * k <= 14
    requires 8 * n - 6 * k <= 6 ==> n == |s|
    ensures k < DigitCount(|s|)
    ensures ShiftedOut(bits, 8 * n - 6 * k) == Sextet(s, k)
  {
    if 8 * n - 6 * k > 6 {
      EmitsWithin(s, n, k, bits);
    } else {
      EmitsLast(s, k, bits);
    }
  }

  /**
   * The encoder's inner loop: writes out the six-bit digits that are complete, and
   * after the last byte the incomplete one too.  The source's do-while takes its
   * first turn always, since a byte has just been added.
   */
  method Drain(out: array<char>, s: seq<Byte>, src: nat, bits: int, shift0: int, dst0: nat)
    returns (shift: int, dst: nat)
    requires 1 <= src <= |s| && bits % 0x1_0000 == LastTwo(s, src)
    requires shift0 == 8 * src - 6 * dst0 && 6 < shift0 <= 14
    requires DigitCount(|s|) <= out.Length && dst0 <= DigitCount(|s|)
    requires forall k | 0 <= k < dst0 :: out[k] == Digit(Sextet(s, k))
    modifies out
    ensures shift == 8 * src - 6 * dst && (if src == |s| then -6 < shift <= 0 else 0 <= shift <= 6)
    ensures dst <= DigitCount(|s|)
    ensures forall k | 0 <= k < dst :: out[k] == Digit(Sextet(s, k))
    ensures forall k | dst <= k < out.Length :: out[k] == old(out[k])
  {
    hide Digit, Sextet, ShiftedOut, LastTwo, DigitCount;
    shift, dst := shift0, dst0;
    while shift > 6 || (src == |s| && shift > 0)
      invariant shift == 8 * src - 6 * dst && -6 < shift <= 14
      invariant src < |s| ==> 0 <= shift
      invariant dst <= DigitCount(|s|)
      invariant forall k | 0 <= k < dst :: out[k] == Digit(Sextet(s, k))
      invariant forall k | dst <= k < out.Length :: out[k] == old(out[k])
      decreases shift + 6
    {
      EmitsSextet(s, src, dst, bits);
      out[dst] := Digit(ShiftedOut(bits, shift));
      dst := dst + 1;
      shift := shift - 6;
    }
  }

  /** The encoder's outer loop: every digit of the bit stream, in order. */
  method EncodeDigits(out: array<char>, s: seq<Byte>) returns (dst: nat)
    requires BufferSize(|s|) <= out.Length
    modifies out
    ensures dst == DigitCount(|s|)
    ensures forall k | 0 <= k < dst :: out[k] == Digit(Sextet(s, k))
    ensures forall k | dst <= k < out.Length :: out[k] == old(out[k])
  {
    assert BufferSize(|s|) > DigitCount(|s|);
    assert LastTwo(s, 0) == 0;
    hide Digit, Sextet, LastTwo, BufferSize;
    var bits, shift, src := 0, 0, 0;
    dst := 0;
    while src < |s|
      invariant src <= |s| && dst <= DigitCount(|s|) && shift == 8 * src - 6 * dst
      invariant if src == |s| then -6 < shift <= 0 else 0 <= shift <= 6
      invariant bits % 0x1_0000 == LastTwo(s, src)
      invariant forall k | 0 <= k < dst :: out[k] == Digit(Sextet(s, k))
      invariant forall k | dst <= k < out.Length :: out[k] == old(out[k])
    {
      WordTakesByte(s, src, bits);
      bits := (bits * 256 % TWO32 + s[src]) % TWO32;
      src := src + 1;
      shift, dst := Drain(out, s, src, bits, shift + 8, dst);
    }
  }

  /** Fills the last group up with '=' and ends the text with a NUL. */
  method Finish(out: array<char>, count: nat, ghost text: string) returns (dst: nat)
    requires count <= |text| < out.Length && |text| % 4 == 0 && |text| - count < 4
    requires out[..count] == text[..count]
    requires forall k | count <= k < |text| :: text[k] == '='
    modifies out
    ensures dst == |text| && out[..dst] == text && out[dst] == '\0'
    ensures out[dst + 1..] == old(out[dst + 1..])
  {
    dst := count;
    while dst % 4 != 0
      invariant count <= dst <= |text|
      invariant out[..dst] == text[..dst]
      invariant forall k | dst <= k < out.Length :: out[k] == old(out[k])
      decreases |text| - dst
    {
      out[dst] := '=';
      dst := dst + 1;
    }
    out[dst] := '\0';
  }

  /**
   * av_base64_encode_l: refuses an input that is too long or a buffer that is too
   * small, and otherwise leaves the encoding and a NUL in the buffer.
   */
  method EncodeInto(out: array<char>, outSize: int, s: seq<Byte>, inSize: int) returns (r: Option<nat>)
    requires outSize <= out.Length && inSize <= |s|
    modifies out
    ensures r.Some? <==> 0 <= inSize < UINT_MAX_QUARTER && BufferSize(inSize) <= outSize
    ensures r.Some? ==> r.value < outSize && out[..r.value] == Encoding(s[..inSize]) && out[r.value] == '\0'
    ensures if r.Some? then out[r.value + 1..] == old(out[r.value + 1..]) else out[..] == old(out[..])
  {
    // A negative size turns into a huge size_t in the first comparison.
    if inSize < 0 || inSize >= UINT_MAX_QUARTER || outSize < BufferSize(inSize) {
      return None;
    }
    hide *;
    ghost var text := Encoding(s[..inSize]);
    EncodingLayout(s[..inSize]);
    var count := EncodeDigits(out, s[..inSize]);
    assert out[..count] == text[..count];
    label digits:
    var dst := Finish(out, count, text);
    assert old@digits(out[dst + 1..]) == old(out[dst + 1..]);
    return Some(dst);
  }

  lemma EncodingLayout(s: seq<Byte>)
    ensures var text := Encoding(s);
      |text| == BufferSize(|s|) - 1 && |text| % 4 == 0 && DigitCount(|s|) <= |text| < DigitCount(|s|) + 4
      && (forall k | 0 <= k < DigitCount(|s|) :: text[k] == Digit(Sextet(s, k)))
      && (forall k | DigitCount(|s|) <= k < |text| :: text[k] == '=')
  {
    hide Digit, Sextet, Encoding;
    EncodingDigits(s);
  }

  /** What encodeBase64 returns: nothing when resizing the buffer throws, "" when the encoder refuses. */
  function Encoded(txt: seq<Byte>): Option<string> {
    var size, inSize := Int32(BufferSize(|txt|) + 10), Int32(|txt|);
    if txt == [] then Some("")
    else if size < 0 then None
    else if inSize < 0 || inSize >= UINT_MAX_QUARTER || size < BufferSize(inSize) then Some("")
    else Some(Encoding(txt[..inSize]))
  }

  /** From UINT_MAX / 4 on the encoder refuses; past INT_MAX the buffer's size turns negative and resize throws. */
  lemma LongInputs(txt: seq<Byte>)
    requires |txt| >= UINT_MAX_QUARTER
    ensures BufferSize(|txt|) + 10 <= INT_MAX ==> Encoded(txt) == Some("")
    ensures INT_MAX < BufferSize(|txt|) + 10 <= UINT_MAX ==> Encoded(txt) == None
  {
    var n := BufferSize(|txt|) + 10;
    if n <= INT_MAX {
      assert |txt| <= n && Int32(|txt|) == |txt|;
    } else if n <= UINT_MAX {
      Int32Negative(n);
    }
    hide Int32, BufferSize;
  }

  lemma Int32Negative(x: int)
    requires INT_MAX < x <= UINT_MAX
    ensures Int32(x) < 0
  {
  }

  /** encodeBase64, with the sizes cut to int as the source does. */
  method EncodeBase64(txt: seq<Byte>) returns (r: Option<string>)
    ensures r == Encoded(txt)
    ensures |txt| < UINT_MAX_QUARTER ==> r == Some(Encoding(txt))
  {
    if txt == [] {
      return Some("");
    }
    assert |txt| < UINT_MAX_QUARTER ==> txt[..|txt|] == txt;
    var size := Int32(BufferSize(|txt|) + 10);
    if size < 0 {
      return None;
    }
    Int32AtMost(|txt|);
    var ret := new char[size];
    var encoded := EncodeInto(ret, size, txt, Int32(|txt|));
    if encoded == None {
      return Some("");
    }
    return Some(ret[..encoded.value]);
  }

  lemma Int32AtMost(n: nat)
    ensures Int32(n) <= n
  {
  }

  // ---- Decoder ----

  const MAP2: seq<int> :=
    [0x3e, 0xff, 0xff, 0xff, 0x3f, 0x34, 0x35, 0x36, 0x37, 0x38, 0x39, 0x3a, 0x3b, 0x3c, 0x3d, 0xff] +
    [0xff, 0xff, 0xff, 0xff, 0xff, 0xff, 0x00, 0x01, 0x02, 0x03, 0x04, 0x05, 0x06, 0x07, 0x08, 0x09] +
    [0x0a, 0x0b, 0x0c, 0x0d, 0x0e, 0x0f, 0x10, 0x11, 0x12, 0x13, 0x14, 0x15, 0x16, 0x17, 0x18, 0x19] +
    [0xff, 0xff, 0xff, 0xff, 0xff, 0xff, 0x1a, 0x1b, 0x1c, 0x1d, 0x1e, 0x1f, 0x20, 0x21, 0x22, 0x23] +
    [0x24, 0x25, 0x26, 0x27, 0x28, 0x29, 0x2a, 0x2b, 0x2c, 0x2d, 0x2e, 0x2f, 0x30, 0x31, 0x32, 0x33]

  /** The table entry of a character's code less 43, the unsigned comparison included. */
  function Lookup(c: char): int {
    var index := c as int - 43;
    if index < 0 || index >= |MAP2| then 0xff else MAP2[index]
  }

  lemma LookupUpper(c: char)
    requires c < '[' // the characters up to 'Z'
    ensures Lookup(c) == if Value(c) < 0 then 0xff else Value(c)
  {
    var index := c as int - 43;
    if index < 0 {
    } else if index < 16 {
    } else if index < 32 {
    }
  }

  /** The decoder's table and the encoder's alphabet agree on every character. */
  lemma LookupIsValue(c: char)
    ensures Lookup(c) == if Value(c) < 0 then 0xff else Value(c)
  {
    var index := c as int - 43;
    if c < '[' {
      LookupUpper(c);
    } else if index < 64 {
    } else if index < 80 {
    }
  }

  /** (uint8_t)(v >> shift): the shift of a negative word rounds down. */
  function LowByte(v: int, shift: nat): Byte {
    v / Pow2(shift) % 256
  }

  /** The three ways the decoder shifts a byte out of its signed, wrapping word. */
  lemma WordGivesOctet(v: int, high: int, low: int)
    requires 0 <= high < 64 && 0 <= low < 64 && v % 4096 == high * 64 + low
    ensures LowByte(v, 4) == Joined(high, low, 0)
    ensures LowByte(v, 2) == Joined(high, low, 1)
    ensures LowByte(v, 0) == Joined(high, low, 2)
  {
    SmallPowers();
    hide Pow2;
    var q := v / 4096;
    DivideBy(v, 16, q * 256 + high * 4 + low / 16, low % 16);
    DivideBy(q * 256 + high * 4 + low / 16, 256, q, high * 4 + low / 16);
    DivideBy(v, 4, q * 1024 + high * 16 + low / 4, low % 4);
    DivideBy(q * 1024 + high * 16 + low / 4, 256, q * 4 + high / 16, high % 16 * 16 + low / 4);
    DivideBy(v, 256, q * 16 + high / 4, high % 4 * 64 + low);
  }

  lemma WordTakesDigit(v: int, high: int, low: int)
    requires 0 <= high < 64 && 0 <= low < 64 && v % 64 == high
    ensures Int32(Int32(v * 64) + low) % 4096 == high * 64 + low
    ensures Int32(Int32(v * 64) + low) % 64 == low
  {
    Int32KeepsLow(v * 64);
    var w := Int32(v * 64);
    DivideBy(v * 64, 4096, v / 64, high * 64);
    DivideBy(w + low, 4096, w / 4096, high * 64 + low);
    Int32KeepsLow(w + low);
    var u := Int32(w + low);
    DivideBy(u, 64, u / 4096 * 64 + high, low);
  }

  lemma Int32KeepsLow(x: int)
    ensures Int32(x) % 4096 == x % 4096
  {
    var q := (x + 0x8000_0000) / TWO32;
    assert Int32(x) == x - q * TWO32;
    DivideBy(Int32(x), 4096, x / 4096 - q * 0x10_0000, x % 4096);
  }

  /** How many octets come out of the first i digits. */
  function OctetCount(i: nat): nat { i * 3 / 4 }

  lemma OctetPlace(i: nat)
    ensures OctetCount(i + 1) == OctetCount(i) + (if i % 4 == 0 then 0 else 1)
    ensures i % 4 != 0 ==> var m := OctetCount(i); m + m / 3 + 1 == i && m % 3 == i % 4 - 1
  {
    var j, r := i / 4, i % 4;
    DivideBy(3 * i, 4, 3 * j + 3 * r / 4, 3 * r % 4);
    DivideBy(3 * i + 3, 4, 3 * j + (3 * r + 3) / 4, (3 * r + 3) % 4);
    if r != 0 {
      DivideBy(3 * j + r - 1, 3, j, r - 1);
    }
  }

  /** What the loop knows about its word after i digits. */
  predicate WordHolds(v: int, b: string, i: nat)
    requires i <= |b| && Digits(b)
  {
    && (i >= 1 ==> v % 64 == Value(b[i - 1]))
    && (i >= 2 ==> v % 4096 == Value(b[i - 2]) * 64 + Value(b[i - 1]))
  }

  lemma WordStep(v: int, b: string, i: nat, w: int)
    requires Digits(b) && i < |b| && (i == 0 ==> v == 0)
    requires WordHolds(v, b, i) && w == Int32(Int32(v * 64) + Value(b[i]))
    ensures WordHolds(w, b, i + 1)
    ensures i % 4 != 0 ==> Octet(b, OctetCount(i)) == LowByte(w, 6 - 2 * (i % 4))
  {
    OctetPlace(i);
    var high, low := (if i == 0 then 0 else Value(b[i - 1])), Value(b[i]);
    hide Value, Octet, Int32, LowByte, Joined, OctetCount;
    WordTakesDigit(v, high, low);
    if i % 4 != 0 {
      WordGivesOctet(w, high, low);
      OctetIs(b, OctetCount(i));
      assert 6 - 2 * (i % 4) == if i % 4 == 1 then 4 else if i % 4 == 2 then 2 else 0;
    }
  }

  lemma OctetIs(b: string, m: nat)
    requires Digits(b) && m + m / 3 + 1 < |b|
    ensures Octet(b, m) == Joined(Value(b[m + m / 3]), Value(b[m + m / 3 + 1]), m % 3)
  {
  }

  /** The character at i; the text ends in a NUL. */
  function CharAt(t: string, i: nat): char {
    if i < |t| then t[i] else '\0'
  }

  /** A count cut off at the size of the output buffer. */
  function Capped(count: nat, outSize: int): (n: nat)
    ensures n <= count
  {
    if outSize <= 0 then 0 else if count <= outSize then count else outSize
  }

  lemma {:induction false} BodyReaches(t: string, i: nat)
    requires i < |t|
    requires forall k | 0 <= k <= i :: t[k] != '=' && t[k] != '\0'
    ensures i < |Body(t)| && Body(t)[i] == t[i]
  {
    if i > 0 {
      BodyReaches(t[1..], i - 1);
    }
  }

  lemma DecodingStops(t: string, i: nat)
    requires i < |t| && Value(t[i]) < 0
    requires forall k | 0 <= k <= i :: t[k] != '=' && t[k] != '\0'
    ensures Decoding(t) == None
  {
    hide Value, Body;
    BodyReaches(t, i);
  }

  lemma DecodingEnds(t: string, i: nat)
    requires i <= |t| && (i < |t| ==> t[i] == '=' || t[i] == '\0')
    requires (forall k | 0 <= k < i :: t[k] != '=' && t[k] != '\0') && Digits(t[..i])
    ensures Decoding(t).Some? && |Decoding(t).value| == OctetCount(i)
    ensures forall m | 0 <= m < OctetCount(i) ::
      m + m / 3 + 1 < i && Decoding(t).value[m] == Octet(t[..i], m)
  {
    hide Value, Body, Octet;
    BodyEnds(t, i);
  }

  lemma LongerBodySameOctets(b: string, c: char)
    requires Digits(b) && Digits(b + [c])
    ensures forall m: nat | m < OctetCount(|b|) :: m + m / 3 + 1 < |b| && Octet(b + [c], m) == Octet(b, m)
  {
    hide Value, Joined;
  }

  /** One turn of the decoding loop: a digit into the word, and an octet out of it unless it opens a group. */
  method DecodeDigit(out: array<Byte>, outSize: int, ghost b: string, c: char, v: int, i: nat, dst: nat)
    returns (w: int, next: nat)
    requires outSize <= out.Length && i == |b| && Digits(b) && Value(c) >= 0
    requires (i == 0 ==> v == 0) && WordHolds(v, b, i)
    requires dst == Capped(OctetCount(i), outSize)
    requires forall m | 0 <= m < dst :: m + m / 3 + 1 < |b| && out[m] == Octet(b, m)
    modifies out
    ensures Digits(b + [c]) && WordHolds(w, b + [c], i + 1)
    ensures next == Capped(OctetCount(i + 1), outSize)
    ensures forall m | 0 <= m < next :: m + m / 3 + 1 < |b| + 1 && out[m] == Octet(b + [c], m)
  {
    LookupIsValue(c);
    w := Int32(Int32(v * 64) + Lookup(c));
    hide Value, Lookup, Int32, Octet, LowByte;
    next := dst;
    LongerBodySameOctets(b, c);
    WordStep(v, b + [c], i, w);
    OctetPlace(i);
    hide OctetCount;
    if i % 4 != 0 {
      if next < outSize {
        out[next] := LowByte(w, 6 - 2 * (i % 4));
        next := next + 1;
      }
    }
  }

  /** av_base64_decode: every octet that fits, or -1 at a character that is no digit. */
  method DecodeInto(out: array<Byte>, t: string, outSize: int) returns (r: int)
    requires outSize <= out.Length && |t| <= INT_MAX
    modifies out
    ensures match Decoding(t)
      case None => r == -1
      case Some(d) => r == Capped(|d|, outSize) && out[..r] == d[..r]
  {
    assert WordHolds(0, "", 0);
    assert t[..0] == "";
    hide Value, Lookup, Octet, WordHolds, Decoding, OctetCount;
    var v, i, dst := 0, 0, 0;
    while CharAt(t, i) != '\0' && CharAt(t, i) != '='
      invariant i <= |t| && Digits(t[..i])
      invariant forall k | 0 <= k < i :: t[k] != '=' && t[k] != '\0'
      invariant (i == 0 ==> v == 0) && WordHolds(v, t[..i], i)
      invariant dst == Capped(OctetCount(i), outSize)
      invariant forall m | 0 <= m < dst :: m + m / 3 + 1 < i && out[m] == Octet(t[..i], m)
      decreases |t| - i
    {
      LookupIsValue(t[i]);
      if Lookup(t[i]) == 0xff {
        DecodingStops(t, i);
        return -1;
      }
      assert t[..i + 1] == t[..i] + [t[i]];
      v, dst := DecodeDigit(out, outSize, t[..i], t[i], v, i, dst);
      i := i + 1;
    }
    DecodingEnds(t, i);
    return dst;
  }

  /** What decodeBase64 returns: the octets, or "" when there are none or a character is no digit. */
  function Decoded(t: string): seq<Byte> {
    match Decoding(t)
    case None => []
    case Some(d) => d
  }

  method DecodeBase64(t: string) returns (r: seq<Byte>)
    requires |t| <= INT_MAX
    ensures r == Decoded(t)
  {
    if t == "" {
      return [];
    }
    var size := |t| * 3 / 4 + 10;
    var ret := new Byte[size];
    var count := DecodeInto(ret, t, size);
    BodyIsShorter(t);
    if count <= 0 {
      return [];
    }
    return ret[..count];
  }

  lemma {:induction false} BodyIsShorter(t: string)
    ensures |Body(t)| <= |t|
  {
    if t != "" && t[0] != '=' && t[0] != '\0' {
      BodyIsShorter(t[1..]);
    }
  }

  // ---- The round trip ----

  lemma EmptyDecodesEmpty()
    ensures Decoded("") == []
  {
  }

  /**
   * Decoding the encoding gives the input back exactly when the input is shorter
   * than a quarter of UINT_MAX; every longer one comes back as something else, or
   * as an exception.
   */
  lemma RoundTripIff(s: seq<Byte>)
    ensures (Encoded(s).Some? && Decoded(Encoded(s).value) == s) <==> |s| < UINT_MAX_QUARTER
  {
    hide Encoding, Decoding;
    var inSize := Int32(|s|);
    Int32AtMost(|s|);
    EmptyDecodesEmpty();
    if |s| < UINT_MAX_QUARTER {
      assert s[..|s|] == s;
      DecodingInverts(s);
    } else if Encoded(s).Some? && Encoded(s) != Some("") {
      DecodingInverts(s[..inSize]);
    }
  }
}
