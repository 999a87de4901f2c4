// The SHA-1 compression function: the textbook 80-word form of RFC 3174 and
// the unrolled, in-place form of src/Util/SHA1.cpp, which is proved equal to it.

module Sha1Spec {
  type Word = bv32

  function Xor4(p: Word, q: Word, r: Word, s: Word): Word {
    p ^ q ^ r ^ s
  }

  // The circular left shift S^n of section 3.
  function Rol(value: Word, bits: nat): Word
    requires 0 < bits < 32
  {
    (value << bits) | (value >> (32 - bits))
  }

  // The bits that are shifted out come round at the other end, for the three amounts
  // of section 6.1.
  lemma RolByOne(x: Word)
    ensures Rol(x, 1) & 1 == x >> 31 && Rol(x, 1) >> 1 == x & 0x7FFF_FFFF
  {
    assert Rol(x, 1) == (x << 1) | (x >> 31);
  }

  lemma RolByFive(x: Word)
    ensures Rol(x, 5) & 31 == x >> 27 && Rol(x, 5) >> 5 == x & 0x7FF_FFFF
  {
    assert Rol(x, 5) == (x << 5) | (x >> 27);
    TurnedByFive(x);
  }

  lemma TurnedByFive(x: Word)
    ensures ((x << 5) | (x >> 27)) & 31 == x >> 27 && ((x << 5) | (x >> 27)) >> 5 == x & 0x7FF_FFFF
  {
  }

  lemma RolByThirty(x: Word)
    ensures Rol(x, 30) & 0x3FFF_FFFF == x >> 2 && Rol(x, 30) >> 30 == x & 3
  {
    assert Rol(x, 30) == (x << 30) | (x >> 2);
  }

  // A bit of the exclusive or is set if and only if an odd number of its arguments has it.
  lemma Xor4Bit(p: Word, q: Word, r: Word, s: Word, bit: Word)
    requires bit != 0 && bit & (bit - 1) == 0
    ensures Xor4(p, q, r, s) & bit != 0
      <==> ((p & bit != 0) != (q & bit != 0)) != ((r & bit != 0) != (s & bit != 0))
  {
    OneBit(p, bit);
    OneBit(q, bit);
    OneBit(r, bit);
    OneBit(s, bit);
    Spread(p, q, r, s, bit);
  }

  lemma OneBit(x: Word, bit: Word)
    requires bit != 0 && bit & (bit - 1) == 0
    ensures x & bit == 0 || x & bit == bit
  {
  }

  lemma Spread(p: Word, q: Word, r: Word, s: Word, bit: Word)
    ensures Xor4(p, q, r, s) & bit == (p & bit) ^ (q & bit) ^ (r & bit) ^ (s & bit)
  {
  }

  // Addition modulo 2^32.
  function Add(x: Word, y: Word): Word {
    x + y
  }

  // TEMP of section 6.1: S^5(A) + f(t; B, C, D) + E + W(t) + K(t).
  function Temp(a: Word, f: Word, e: Word, w: Word, k: Word): Word {
    Rol(a, 5) + f + e + w + k
  }

  // Section 5 of RFC 3174: f(t; B, C, D) and K(t).
  function F(t: nat, b: Word, c: Word, d: Word): Word {
    if t < 20 then (b & c) | (!b & d)
    else if t < 40 then b ^ c ^ d
    else if t < 60 then (b & c) | (b & d) | (c & d)
    else b ^ c ^ d
  }

  function K(t: nat): Word {
    if t < 20 then 0x5a827999
    else if t < 40 then 0x6ed9eba1
    else if t < 60 then 0x8f1bbcdc
    else 0xca62c1d6
  }

  // Step (b) of section 6.1: the word schedule.
  function W(m: seq<Word>, t: nat): Word
    requires |m| == 16
  {
    if t < 16 then m[t]
    else Rol(Xor4(W(m, t - 3), W(m, t - 8), W(m, t - 14), W(m, t - 16)), 1)
  }

  datatype Regs = Regs(a: Word, b: Word, c: Word, d: Word, e: Word)

  // Step (d) of section 6.1.
  function Step(t: nat, w: Word, r: Regs): Regs {
    Regs(Temp(r.a, F(t, r.b, r.c, r.d), r.e, w, K(t)), r.a, Rol(r.b, 30), r.c, r.d)
  }

  function Run(m: seq<Word>, n: nat, r: Regs): Regs
    requires |m| == 16
  {
    if n == 0 then r else Step(n - 1, W(m, n - 1), Run(m, n - 1, r))
  }

  function Compress(h: Regs, m: seq<Word>): Regs
    requires |m| == 16
  {
    var r := Run(m, 80, h);
    Regs(Add(h.a, r.a), Add(h.b, r.b), Add(h.c, r.c), Add(h.d, r.d), Add(h.e, r.e))
  }
}

module Sha1Rounds {
  import opened Sha1Spec

  // `block` holds, at each index, the newest schedule word with that index
  // modulo 16 among W(0) .. W(max(t, 16) - 1).
  ghost predicate Window(block: seq<Word>, m: seq<Word>, t: nat)
    requires |m| == 16
  {
    |block| == 16 &&
    forall s: nat {:trigger W(m, s)} :: t <= s + 16 && (s < t || s < 16) ==> block[s % 16] == W(m, s)
  }

  function Blk(block: seq<Word>, i: nat): Word
    requires |block| == 16 && i < 16
  {
    Rol(Xor4(block[(i + 13) % 16], block[(i + 8) % 16], block[(i + 2) % 16], block[i]), 1)
  }

  lemma ScheduleUnfolds(m: seq<Word>, t: nat)
    requires |m| == 16 && 16 <= t
    ensures W(m, t) == Rol(Xor4(W(m, t - 3), W(m, t - 8), W(m, t - 14), W(m, t - 16)), 1)
  {
    hide Xor4, Rol;
  }

  lemma ModIs(x: int, q: int, r: nat)
    requires x == 16 * q + r && r < 16
    ensures x % 16 == r
  {
  }

  lemma CircularIndices(t: nat)
    requires 16 <= t
    ensures (t % 16 + 13) % 16 == (t - 3) % 16
    ensures (t % 16 + 8) % 16 == (t - 8) % 16
    ensures (t % 16 + 2) % 16 == (t - 14) % 16
    ensures t % 16 == (t - 16) % 16
  {
    var q, i := t / 16, t % 16;
    if i < 3 { ModIs(t - 3, q - 1, i + 13); ModIs(i + 13, 0, i + 13); }
    else { ModIs(t - 3, q, i - 3); ModIs(i + 13, 1, i - 3); }
    if i < 8 { ModIs(t - 8, q - 1, i + 8); ModIs(i + 8, 0, i + 8); }
    else { ModIs(t - 8, q, i - 8); ModIs(i + 8, 1, i - 8); }
    if i < 14 { ModIs(t - 14, q - 1, i + 2); ModIs(i + 2, 0, i + 2); }
    else { ModIs(t - 14, q, i - 14); ModIs(i + 2, 1, i - 14); }
    ModIs(t - 16, q - 1, i);
  }

  lemma BlkIsSchedule(block: seq<Word>, m: seq<Word>, t: nat)
    requires |m| == 16 && Window(block, m, t) && 16 <= t
    ensures Blk(block, t % 16) == W(m, t)
  {
    hide Xor4, Rol, W;
    ScheduleUnfolds(m, t);
    CircularIndices(t);
    assert block[(t - 3) % 16] == W(m, t - 3);
    assert block[(t - 8) % 16] == W(m, t - 8);
    assert block[(t - 14) % 16] == W(m, t - 14);
    assert block[(t - 16) % 16] == W(m, t - 16);
  }

  lemma WindowSlides(block: seq<Word>, m: seq<Word>, t: nat)
    requires |m| == 16 && Window(block, m, t) && 16 <= t
    ensures Window(block[t % 16 := W(m, t)], m, t + 1)
  {
    hide Xor4, Rol, W;
    forall s: nat {:trigger W(m, s)} | t + 1 <= s + 16 && s < t + 1
      ensures block[t % 16 := W(m, t)][s % 16] == W(m, s)
    {
      if s < t { assert s % 16 != t % 16; assert block[s % 16] == W(m, s); }
    }
  }

  lemma WindowStays(block: seq<Word>, m: seq<Word>, t: nat)
    requires |m| == 16 && Window(block, m, t) && t < 16
    ensures Window(block, m, t + 1)
  {
    hide W;
  }

  function ToRegs(h: seq<Word>): Regs
    requires |h| == 5
  {
    Regs(h[0], h[1], h[2], h[3], h[4])
  }

  lemma Start(m: seq<Word>, r: Regs)
    requires |m| == 16
    ensures At(m, m, r, 0, r.a, r.b, r.c, r.d, r.e)
  {
    hide Rol, Xor4, Step;
  }

  // After t steps the five registers, read in the order (v, w, x, y, z), are
  // those of the textbook run, and the block is the schedule's window.
  ghost predicate At(block: seq<Word>, m: seq<Word>, r: Regs, t: nat, v: Word, w: Word, x: Word, y: Word, z: Word)
    requires |m| == 16
  {
    Window(block, m, t) && Run(m, t, r) == Regs(v, w, x, y, z)
  }

  // z += f + word + k + rol(v, 5), the assignment shared by R0 .. R4.
  function Accumulate(z: Word, f: Word, word: Word, k: Word, v: Word): Word {
    z + (f + word + k + Rol(v, 5))
  }

  lemma AccumulateIsTemp(z: Word, f: Word, word: Word, k: Word, v: Word)
    ensures Accumulate(z, f, word, k, v) == Temp(v, f, z, word, k)
  {
    hide Rol;
  }

  lemma ChooseForms(w: Word, x: Word, y: Word)
    ensures (w & (x ^ y)) ^ y == (w & x) | (!w & y)
  {
  }

  lemma MajorityForms(w: Word, x: Word, y: Word)
    ensures ((w | x) & y) | (w & x) == (w & x) | (w & y) | (x & y)
  {
  }

  // One call of R0 .. R4 is one step of section 6.1, provided the caller passes
  // the registers rotated by one place.
  lemma AccumulateIsStep(t: nat, v: Word, w: Word, x: Word, y: Word, z: Word, word: Word)
    ensures Step(t, word, Regs(v, w, x, y, z))
            == Regs(Accumulate(z, F(t, w, x, y), word, K(t), v), v, Rol(w, 30), x, y)
  {
    hide Accumulate, Temp, F, K, Rol;
    AccumulateIsTemp(z, F(t, w, x, y), word, K(t), v);
  }

  lemma RunUnfolds(m: seq<Word>, t: nat, r: Regs)
    requires |m| == 16
    ensures Run(m, t + 1, r) == Step(t, W(m, t), Run(m, t, r))
  {
    hide Step, W;
  }

  method R0(block: array<Word>, v: Word, w: Word, x: Word, y: Word, z: Word, i: nat,
            ghost m: seq<Word>, ghost r: Regs, ghost t: nat)
    returns (w': Word, z': Word, ghost t': nat)
    requires |m| == 16 && block.Length == 16
    requires t == i && t < 16
    requires At(block[..], m, r, t, v, w, x, y, z)
    ensures t' == t + 1 && At(block[..], m, r, t', z', v, w', x, y)
  {
    hide Accumulate, Rol, Step, W, Run;
    z' := Accumulate(z, (w & (x ^ y)) ^ y, block[i], 0x5a827999, v);
    w' := Rol(w, 30);
    t' := t + 1;
    assert block[..][i % 16] == W(m, i);
    ChooseForms(w, x, y);
    AccumulateIsStep(t, v, w, x, y, z, block[i]);
    RunUnfolds(m, t, r);
    WindowStays(block[..], m, t);
  }

  method R1(block: array<Word>, v: Word, w: Word, x: Word, y: Word, z: Word, i: nat,
            ghost m: seq<Word>, ghost r: Regs, ghost t: nat)
    returns (w': Word, z': Word, ghost t': nat)
    requires |m| == 16 && block.Length == 16
    requires i == t % 16 && 16 <= t < 20
    requires At(block[..], m, r, t, v, w, x, y, z)
    modifies block
    ensures t' == t + 1 && At(block[..], m, r, t', z', v, w', x, y)
  {
    hide Accumulate, Rol, Step, W, Run, Window, Blk;
    ghost var before := block[..];
    BlkIsSchedule(before, m, t);
    WindowSlides(before, m, t);
    block[i] := Blk(block[..], i);
    assert block[..] == before[i := W(m, t)];
    z' := Accumulate(z, (w & (x ^ y)) ^ y, block[i], 0x5a827999, v);
    w' := Rol(w, 30);
    t' := t + 1;
    ChooseForms(w, x, y);
    AccumulateIsStep(t, v, w, x, y, z, block[i]);
    RunUnfolds(m, t, r);
  }

  method R2(block: array<Word>, v: Word, w: Word, x: Word, y: Word, z: Word, i: nat,
            ghost m: seq<Word>, ghost r: Regs, ghost t: nat)
    returns (w': Word, z': Word, ghost t': nat)
    requires |m| == 16 && block.Length == 16
    requires i == t % 16 && 20 <= t < 40
    requires At(block[..], m, r, t, v, w, x, y, z)
    modifies block
    ensures t' == t + 1 && At(block[..], m, r, t', z', v, w', x, y)
  {
    hide Accumulate, Rol, Step, W, Run, Window, Blk;
    ghost var before := block[..];
    BlkIsSchedule(before, m, t);
    WindowSlides(before, m, t);
    block[i] := Blk(block[..], i);
    assert block[..] == before[i := W(m, t)];
    z' := Accumulate(z, w ^ x ^ y, block[i], 0x6ed9eba1, v);
    w' := Rol(w, 30);
    t' := t + 1;
    AccumulateIsStep(t, v, w, x, y, z, block[i]);
    RunUnfolds(m, t, r);
  }

  method R3(block: array<Word>, v: Word, w: Word, x: Word, y: Word, z: Word, i: nat,
            ghost m: seq<Word>, ghost r: Regs, ghost t: nat)
    returns (w': Word, z': Word, ghost t': nat)
    requires |m| == 16 && block.Length == 16
    requires i == t % 16 && 40 <= t < 60
    requires At(block[..], m, r, t, v, w, x, y, z)
    modifies block
    ensures t' == t + 1 && At(block[..], m, r, t', z', v, w', x, y)
  {
    hide Accumulate, Rol, Step, W, Run, Window, Blk;
    ghost var before := block[..];
    BlkIsSchedule(before, m, t);
    WindowSlides(before, m, t);
    block[i] := Blk(block[..], i);
    assert block[..] == before[i := W(m, t)];
    z' := Accumulate(z, ((w | x) & y) | (w & x), block[i], 0x8f1bbcdc, v);
    w' := Rol(w, 30);
    t' := t + 1;
    MajorityForms(w, x, y);
    AccumulateIsStep(t, v, w, x, y, z, block[i]);
    RunUnfolds(m, t, r);
  }

  method R4(block: array<Word>, v: Word, w: Word, x: Word, y: Word, z: Word, i: nat,
            ghost m: seq<Word>, ghost r: Regs, ghost t: nat)
    returns (w': Word, z': Word, ghost t': nat)
    requires |m| == 16 && block.Length == 16
    requires i == t % 16 && 60 <= t < 80
    requires At(block[..], m, r, t, v, w, x, y, z)
    modifies block
    ensures t' == t + 1 && At(block[..], m, r, t', z', v, w', x, y)
  {
    hide Accumulate, Rol, Step, W, Run, Window, Blk;
    ghost var before := block[..];
    BlkIsSchedule(before, m, t);
    WindowSlides(before, m, t);
    block[i] := Blk(block[..], i);
    assert block[..] == before[i := W(m, t)];
    z' := Accumulate(z, w ^ x ^ y, block[i], 0xca62c1d6, v);
    w' := Rol(w, 30);
    t' := t + 1;
    AccumulateIsStep(t, v, w, x, y, z, block[i]);
    RunUnfolds(m, t, r);
  }

  method Rounds0To19(block: array<Word>, a0: Word, b0: Word, c0: Word, d0: Word, e0: Word,
                      ghost m: seq<Word>, ghost r: Regs, ghost t0: nat)
    returns (a: Word, b: Word, c: Word, d: Word, e: Word, ghost t: nat)
    requires |m| == 16 && block.Length == 16
    requires t0 == 0 && At(block[..], m, r, t0, a0, b0, c0, d0, e0)
    modifies block
    ensures t == 20 && At(block[..], m, r, t, a, b, c, d, e)
  {
    hide At;
    a, b, c, d, e, t := a0, b0, c0, d0, e0, t0;
    b, e, t := R0(block, a, b, c, d, e, 0, m, r, t);
    a, d, t := R0(block, e, a, b, c, d, 1, m, r, t);
    e, c, t := R0(block, d, e, a, b, c, 2, m, r, t);
    d, b, t := R0(block, c, d, e, a, b, 3, m, r, t);
    c, a, t := R0(block, b, c, d, e, a, 4, m, r, t);
    b, e, t := R0(block, a, b, c, d, e, 5, m, r, t);
    a, d, t := R0(block, e, a, b, c, d, 6, m, r, t);
    e, c, t := R0(block, d, e, a, b, c, 7, m, r, t);
    d, b, t := R0(block, c, d, e, a, b, 8, m, r, t);
    c, a, t := R0(block, b, c, d, e, a, 9, m, r, t);
    b, e, t := R0(block, a, b, c, d, e, 10, m, r, t);
    a, d, t := R0(block, e, a, b, c, d, 11, m, r, t);
    e, c, t := R0(block, d, e, a, b, c, 12, m, r, t);
    d, b, t := R0(block, c, d, e, a, b, 13, m, r, t);
    c, a, t := R0(block, b, c, d, e, a, 14, m, r, t);
    b, e, t := R0(block, a, b, c, d, e, 15, m, r, t);
    a, d, t := R1(block, e, a, b, c, d, 0, m, r, t);
    e, c, t := R1(block, d, e, a, b, c, 1, m, r, t);
    d, b, t := R1(block, c, d, e, a, b, 2, m, r, t);
    c, a, t := R1(block, b, c, d, e, a, 3, m, r, t);
  }

  method Rounds20To39(block: array<Word>, a0: Word, b0: Word, c0: Word, d0: Word, e0: Word,
                      ghost m: seq<Word>, ghost r: Regs, ghost t0: nat)
    returns (a: Word, b: Word, c: Word, d: Word, e: Word, ghost t: nat)
    requires |m| == 16 && block.Length == 16
    requires t0 == 20 && At(block[..], m, r, t0, a0, b0, c0, d0, e0)
    modifies block
    ensures t == 40 && At(block[..], m, r, t, a, b, c, d, e)
  {
    hide At;
    a, b, c, d, e, t := a0, b0, c0, d0, e0, t0;
    b, e, t := R2(block, a, b, c, d, e, 4, m, r, t);
    a, d, t := R2(block, e, a, b, c, d, 5, m, r, t);
    e, c, t := R2(block, d, e, a, b, c, 6, m, r, t);
    d, b, t := R2(block, c, d, e, a, b, 7, m, r, t);
    c, a, t := R2(block, b, c, d, e, a, 8, m, r, t);
    b, e, t := R2(block, a, b, c, d, e, 9, m, r, t);
    a, d, t := R2(block, e, a, b, c, d, 10, m, r, t);
    e, c, t := R2(block, d, e, a, b, c, 11, m, r, t);
    d, b, t := R2(block, c, d, e, a, b, 12, m, r, t);
    c, a, t := R2(block, b, c, d, e, a, 13, m, r, t);
    b, e, t := R2(block, a, b, c, d, e, 14, m, r, t);
    a, d, t := R2(block, e, a, b, c, d, 15, m, r, t);
    e, c, t := R2(block, d, e, a, b, c, 0, m, r, t);
    d, b, t := R2(block, c, d, e, a, b, 1, m, r, t);
    c, a, t := R2(block, b, c, d, e, a, 2, m, r, t);
    b, e, t := R2(block, a, b, c, d, e, 3, m, r, t);
    a, d, t := R2(block, e, a, b, c, d, 4, m, r, t);
    e, c, t := R2(block, d, e, a, b, c, 5, m, r, t);
    d, b, t := R2(block, c, d, e, a, b, 6, m, r, t);
    c, a, t := R2(block, b, c, d, e, a, 7, m, r, t);
  }

  method Rounds40To59(block: array<Word>, a0: Word, b0: Word, c0: Word, d0: Word, e0: Word,
                      ghost m: seq<Word>, ghost r: Regs, ghost t0: nat)
    returns (a: Word, b: Word, c: Word, d: Word, e: Word, ghost t: nat)
    requires |m| == 16 && block.Length == 16
    requires t0 == 40 && At(block[..], m, r, t0, a0, b0, c0, d0, e0)
    modifies block
    ensures t == 60 && At(block[..], m, r, t, a, b, c, d, e)
  {
    hide At;
    a, b, c, d, e, t := a0, b0, c0, d0, e0, t0;
    b, e, t := R3(block, a, b, c, d, e, 8, m, r, t);
    a, d, t := R3(block, e, a, b, c, d, 9, m, r, t);
    e, c, t := R3(block, d, e, a, b, c, 10, m, r, t);
    d, b, t := R3(block, c, d, e, a, b, 11, m, r, t);
    c, a, t := R3(block, b, c, d, e, a, 12, m, r, t);
    b, e, t := R3(block, a, b, c, d, e, 13, m, r, t);
    a, d, t := R3(block, e, a, b, c, d, 14, m, r, t);
    e, c, t := R3(block, d, e, a, b, c, 15, m, r, t);
    d, b, t := R3(block, c, d, e, a, b, 0, m, r, t);
    c, a, t := R3(block, b, c, d, e, a, 1, m, r, t);
    b, e, t := R3(block, a, b, c, d, e, 2, m, r, t);
    a, d, t := R3(block, e, a, b, c, d, 3, m, r, t);
    e, c, t := R3(block, d, e, a, b, c, 4, m, r, t);
    d, b, t := R3(block, c, d, e, a, b, 5, m, r, t);
    c, a, t := R3(block, b, c, d, e, a, 6, m, r, t);
    b, e, t := R3(block, a, b, c, d, e, 7, m, r, t);
    a, d, t := R3(block, e, a, b, c, d, 8, m, r, t);
    e, c, t := R3(block, d, e, a, b, c, 9, m, r, t);
    d, b, t := R3(block, c, d, e, a, b, 10, m, r, t);
    c, a, t := R3(block, b, c, d, e, a, 11, m, r, t);
  }

  method Rounds60To79(block: array<Word>, a0: Word, b0: Word, c0: Word, d0: Word, e0: Word,
                      ghost m: seq<Word>, ghost r: Regs, ghost t0: nat)
    returns (a: Word, b: Word, c: Word, d: Word, e: Word, ghost t: nat)
    requires |m| == 16 && block.Length == 16
    requires t0 == 60 && At(block[..], m, r, t0, a0, b0, c0, d0, e0)
    modifies block
    ensures t == 80 && At(block[..], m, r, t, a, b, c, d, e)
  {
    hide At;
    a, b, c, d, e, t := a0, b0, c0, d0, e0, t0;
    b, e, t := R4(block, a, b, c, d, e, 12, m, r, t);
    a, d, t := R4(block, e, a, b, c, d, 13, m, r, t);
    e, c, t := R4(block, d, e, a, b, c, 14, m, r, t);
    d, b, t := R4(block, c, d, e, a, b, 15, m, r, t);
    c, a, t := R4(block, b, c, d, e, a, 0, m, r, t);
    b, e, t := R4(block, a, b, c, d, e, 1, m, r, t);
    a, d, t := R4(block, e, a, b, c, d, 2, m, r, t);
    e, c, t := R4(block, d, e, a, b, c, 3, m, r, t);
    d, b, t := R4(block, c, d, e, a, b, 4, m, r, t);
    c, a, t := R4(block, b, c, d, e, a, 5, m, r, t);
    b, e, t := R4(block, a, b, c, d, e, 6, m, r, t);
    a, d, t := R4(block, e, a, b, c, d, 7, m, r, t);
    e, c, t := R4(block, d, e, a, b, c, 8, m, r, t);
    d, b, t := R4(block, c, d, e, a, b, 9, m, r, t);
    c, a, t := R4(block, b, c, d, e, a, 10, m, r, t);
    b, e, t := R4(block, a, b, c, d, e, 11, m, r, t);
    a, d, t := R4(block, e, a, b, c, d, 12, m, r, t);
    e, c, t := R4(block, d, e, a, b, c, 13, m, r, t);
    d, b, t := R4(block, c, d, e, a, b, 14, m, r, t);
    c, a, t := R4(block, b, c, d, e, a, 15, m, r, t);
  }

  // src/Util/SHA1.cpp, transform.
  method Transform(digest: array<Word>, block: array<Word>)
    requires digest.Length == 5 && block.Length == 16 && digest != block
    modifies digest, block
    ensures ToRegs(digest[..]) == Compress(ToRegs(old(digest[..])), old(block[..]))
  {
    ghost var m := block[..];
    ghost var r := ToRegs(digest[..]);
    var a := digest[0];
    var b := digest[1];
    var c := digest[2];
    var d := digest[3];
    var e := digest[4];
    ghost var t := 0;
    hide Add, Run, W, Step, Rol, Window;
    Start(m, r);
    a, b, c, d, e, t := Rounds0To19(block, a, b, c, d, e, m, r, t);
    a, b, c, d, e, t := Rounds20To39(block, a, b, c, d, e, m, r, t);
    a, b, c, d, e, t := Rounds40To59(block, a, b, c, d, e, m, r, t);
    a, b, c, d, e, t := Rounds60To79(block, a, b, c, d, e, m, r, t);
    digest[0] := Add(digest[0], a);
    digest[1] := Add(digest[1], b);
    digest[2] := Add(digest[2], c);
    digest[3] := Add(digest[3], d);
    digest[4] := Add(digest[4], e);
  }
}
