// Incremental MD5: src/Util/MD5.cpp, class MD5. The compression function is a
// parameter: what is proved holds for every block function, so it is about the
// two-word bit counter, the 64-byte buffer and the padding.

module Md5Message {
  import opened Arithmetic
  import opened Blocks
  import opened Bytes

  type Word = n: nat | n < 0x1_0000_0000

  datatype State = State(a: Word, b: Word, c: Word, d: Word)

  type BlockFunction = (State, seq<Byte>) -> State

  const INIT := State(0x67452301, 0xefcdab89, 0x98badcfe, 0x10325476)

  // Section 3.4 of RFC 1321, for an arbitrary block function.
  function Fold(f: BlockFunction, h: State, blocks: seq<Byte>): State
    requires |blocks| % 64 == 0
  {
    if |blocks| == 0 then h else f(Fold(f, h, blocks[..|blocks| - 64]), blocks[|blocks| - 64..])
  }

  lemma FoldSnoc(f: BlockFunction, h: State, blocks: seq<Byte>, block: seq<Byte>)
    requires |blocks| % 64 == 0 && |block| == 64
    ensures Fold(f, h, blocks + block) == f(Fold(f, h, blocks), block)
  {
    assert (blocks + block)[..|blocks + block| - 64] == blocks;
    assert (blocks + block)[|blocks + block| - 64..] == block;
  }

  function ByteAt(n: nat): Byte {
    n % 256
  }

  // Little-endian bytes of a number.
  function LittleEndian(n: nat, width: nat): (s: seq<Byte>)
    ensures |s| == width
  {
    if width == 0 then [] else [ByteAt(n)] + LittleEndian(n / 256, width - 1)
  }

  function Power256(k: nat): nat {
    if k == 0 then 1 else 256 * Power256(k - 1)
  }

  lemma {:induction false} LittleEndianSplits(lo: nat, hi: nat, k: nat, width: nat)
    requires lo < Power256(k)
    ensures LittleEndian(lo + Power256(k) * hi, k + width) == LittleEndian(lo, k) + LittleEndian(hi, width)
  {
    hide ByteAt;
    if k != 0 {
      var p := Power256(k - 1);
      var n := lo + 256 * p * hi;
      assert n == lo % 256 + 256 * (lo / 256 + p * hi) by {
        assert 256 * p * hi == 256 * (p * hi);
      }
      SameByte(n, lo % 256, lo / 256 + p * hi);
      SameByte(lo, lo % 256, lo / 256);
      LittleEndianSplits(lo / 256, hi, k - 1, width);
    }
  }

  lemma SameByte(n: nat, low: nat, high: nat)
    requires n == low + 256 * high && low < 256
    ensures ByteAt(n) == ByteAt(low) && n / 256 == high
  {
    assert n % 256 == low;
  }

  // encode applied to the two counter words gives the 64-bit count.
  lemma TwoWordsLittleEndian(lo: Word, hi: Word)
    ensures LittleEndian(lo + TWO32 * hi, 8) == LittleEndian(lo, 4) + LittleEndian(hi, 4)
  {
    hide ByteAt, LittleEndian;
    assert Power256(1) == 256 && Power256(2) == 0x1_0000 && Power256(3) == 0x100_0000 && Power256(4) == TWO32;
    LittleEndianSplits(lo, hi, 4, 4);
  }

  // encode and decode: four bytes a word, the least significant first.
  function EncodeAll(words: seq<Word>): (s: seq<Byte>)
    ensures |s| == 4 * |words|
  {
    if words == [] then [] else EncodeAll(words[..|words| - 1]) + LittleEndian(words[|words| - 1], 4)
  }

  // The source joins the bytes with shifts and ors; their bits do not overlap.
  function FromBytes(b0: Byte, b1: Byte, b2: Byte, b3: Byte): Word {
    b0 as int + b1 as int * 256 + b2 as int * 0x1_0000 + b3 as int * 0x100_0000
  }

  function WordAt(s: seq<Byte>, j: nat): Word
    requires j + 4 <= |s|
  {
    FromBytes(s[j], s[j + 1], s[j + 2], s[j + 3])
  }

  function DecodeAll(s: seq<Byte>): (words: seq<Word>)
    requires |s| % 4 == 0
    ensures |words| == |s| / 4
  {
    seq(|s| / 4, i requires 0 <= i < |s| / 4 => WordAt(s, 4 * i))
  }

  lemma FourBytes(w: Word)
    ensures LittleEndian(w, 4) == [w % 256, w / 256 % 256, w / 0x1_0000 % 256, w / 0x100_0000 % 256]
    ensures WordAt(LittleEndian(w, 4), 0) == w
  {
    assert w / 256 / 256 == w / 0x1_0000 && w / 0x1_0000 / 256 == w / 0x100_0000;
    assert LittleEndian(w / 0x100_0000, 1) == [w / 0x100_0000 % 256];
    assert LittleEndian(w / 0x1_0000, 2) == [w / 0x1_0000 % 256, w / 0x100_0000 % 256];
  }

  lemma DecodeConcat(s: seq<Byte>, last: seq<Byte>)
    requires |s| % 4 == 0 && |last| == 4
    ensures DecodeAll(s + last) == DecodeAll(s) + [WordAt(last, 0)]
  {
    hide FromBytes;
    var t := s + last;
    assert |t| / 4 == |s| / 4 + 1;
    forall i | 0 <= i < |s| / 4
      ensures DecodeAll(t)[i] == DecodeAll(s)[i]
    {
      assert t[4 * i] == s[4 * i] && t[4 * i + 1] == s[4 * i + 1];
      assert t[4 * i + 2] == s[4 * i + 2] && t[4 * i + 3] == s[4 * i + 3];
    }
    var n := |s|;
    assert t[n] == last[0] && t[n + 1] == last[1] && t[n + 2] == last[2] && t[n + 3] == last[3];
  }

  // Decoding gives the encoded words back.
  lemma {:induction false} DecodeUndoesEncode(words: seq<Word>)
    ensures DecodeAll(EncodeAll(words)) == words
  {
    hide LittleEndian, DecodeAll, WordAt;
    if words == [] {
      DecodeNothing();
    } else {
      var most, last := words[..|words| - 1], words[|words| - 1];
      DecodeUndoesEncode(most);
      FourBytes(last);
      DecodeConcat(EncodeAll(most), LittleEndian(last, 4));
      assert words == most + [last];
    }
  }

  lemma DecodeNothing()
    ensures DecodeAll([]) == []
  {
  }

  // count[0] += length << 3, its carry, and count[1] += length >> 29.
  function LowCount(lo: Word, length: nat): Word {
    (lo + length * 8 % TWO32) % TWO32
  }

  function HighCount(lo: Word, hi: Word, length: nat): Word {
    var carried := if LowCount(lo, length) < length * 8 % TWO32 then (hi + 1) % TWO32 else hi;
    (carried + length / 0x2000_0000) % TWO32
  }

  ghost predicate Counts(lo: Word, hi: Word, bytes: nat) {
    lo + TWO32 * hi == 8 * bytes % TWO64
  }

  lemma CountsMeans(lo: Word, hi: Word, bytes: nat)
    requires Counts(lo, hi, bytes)
    ensures lo + TWO32 * hi == 8 * bytes % TWO64
  {
  }

  lemma ModIs(x: nat, q: nat, r: nat)
    requires x == TWO64 * q + r && r < TWO64
    ensures x % TWO64 == r
  {
  }

  // length << 3, split into its low word and the part above it.
  lemma ShiftSplits(length: nat)
    ensures 8 * length == length * 8 % TWO32 + TWO32 * (length / 0x2000_0000)
  {
    var q, r := length / 0x2000_0000, length % 0x2000_0000;
    assert length * 8 == TWO32 * q + 8 * r;
  }

  lemma LowAdds(lo: Word, length: nat)
    ensures var l3 := length * 8 % TWO32;
      LowCount(lo, length) == lo + l3 - (if LowCount(lo, length) < l3 then TWO32 else 0)
  {
  }

  lemma CountAdds(lo: Word, hi: Word, bytes: nat, length: nat)
    requires Counts(lo, hi, bytes)
    ensures Counts(LowCount(lo, length), HighCount(lo, hi, length), bytes + length)
  {
    hide LowCount;
    var l3, top := length * 8 % TWO32, length / 0x2000_0000;
    ShiftSplits(length);
    LowAdds(lo, length);
    var lo' := LowCount(lo, length);
    var carry := if lo' < l3 then 1 else 0;
    var q := 8 * bytes / TWO64;
    var h := hi + carry + top;
    var hq := h / TWO32;
    HighAdds(lo, hi, length, h);
    assert 8 * (bytes + length) == TWO64 * (q + hq) + (lo' + TWO32 * (h % TWO32));
    ModIs(8 * (bytes + length), q + hq, lo' + TWO32 * (h % TWO32));
  }

  lemma HighAdds(lo: Word, hi: Word, length: nat, h: nat)
    requires h == hi + (if LowCount(lo, length) < length * 8 % TWO32 then 1 else 0) + length / 0x2000_0000
    ensures HighCount(lo, hi, length) == h % TWO32
  {
    hide LowCount;
  }

  lemma CountIndex(lo: Word, hi: Word, bytes: nat)
    requires Counts(lo, hi, bytes)
    ensures lo / 8 % 64 == bytes % 64
  {
    var q := 8 * bytes / TWO64;
    var v := 0x80_0000 * (hi + TWO32 * q);
    assert 8 * bytes == lo + 512 * v;
    assert lo / 8 == bytes - 64 * v;
    DropBlocks(bytes, v);
  }

  lemma DropBlocks(n: int, v: int)
    ensures (n - 64 * v) % 64 == n % 64
  {
  }

  // Sections 3.1 and 3.2 of RFC 1321.
  function Padding(bytes: nat): (p: seq<Byte>)
    ensures (bytes + |p|) % 64 == 0
  {
    [0x80] + Zeros(ZeroCount(bytes)) + LittleEndian(8 * bytes % TWO64, 8)
  }

  // One 0x80, as few zeros as can be, and eight bytes.
  lemma PaddingShape(bytes: nat)
    ensures var p := Padding(bytes);
      && 9 <= |p| <= 72 && p[0] == 0x80 && (forall k | 1 <= k < |p| - 8 :: p[k] == 0)
      && p[|p| - 8..] == LittleEndian(8 * bytes % TWO64, 8)
  {
    hide LittleEndian;
  }

  function Digest(f: BlockFunction, message: seq<Byte>): seq<Byte> {
    var h := Fold(f, INIT, message + Padding(|message|));
    LittleEndian(h.a, 4) + LittleEndian(h.b, 4) + LittleEndian(h.c, 4) + LittleEndian(h.d, 4)
  }

  // Section 3.3 of RFC 1321 lists the bytes of the four initial words, low order first.
  lemma InitialBytes()
    ensures LittleEndian(INIT.a, 4) + LittleEndian(INIT.b, 4)
         == [0x01, 0x23, 0x45, 0x67, 0x89, 0xab, 0xcd, 0xef]
    ensures LittleEndian(INIT.c, 4) + LittleEndian(INIT.d, 4)
         == [0xfe, 0xdc, 0xba, 0x98, 0x76, 0x54, 0x32, 0x10]
  {
    FourBytes(INIT.a);
    FourBytes(INIT.b);
    FourBytes(INIT.c);
    FourBytes(INIT.d);
    hide LittleEndian;
  }

  lemma EncodeTwo(lo: Word, hi: Word)
    ensures EncodeAll([lo, hi]) == LittleEndian(lo, 4) + LittleEndian(hi, 4)
  {
    hide LittleEndian;
    assert [lo, hi][..1] == [lo] && [lo][..0] == [];
    assert EncodeAll([lo]) == LittleEndian(lo, 4);
  }

  lemma EncodeFour(h: State)
    ensures EncodeAll([h.a, h.b, h.c, h.d])
         == LittleEndian(h.a, 4) + LittleEndian(h.b, 4) + LittleEndian(h.c, 4) + LittleEndian(h.d, 4)
  {
    hide LittleEndian;
    EncodeTwo(h.a, h.b);
    assert [h.a, h.b, h.c, h.d][..3] == [h.a, h.b, h.c] && [h.a, h.b, h.c][..2] == [h.a, h.b];
    assert EncodeAll([h.a, h.b, h.c]) == EncodeAll([h.a, h.b]) + LittleEndian(h.c, 4);
  }
}

module Md5 {
  import opened Arithmetic
  import opened Blocks
  import opened Bytes
  import opened Md5Message

  // The loop in update compares i + 64 with the length in 32 bits. It stops in
  // time exactly when the last i it reaches stays below 2^32 - 64.
  predicate LoopFits(index: nat, length: nat)
    requires index < 64
  {
    length < 64 - index || LastChunk(index, length) + 64 < TWO32
  }

  function LastChunk(index: nat, length: nat): (i: nat)
    requires index < 64 && 64 - index <= length
    ensures 64 - index <= i <= length < i + 64 && (index + i) % 64 == 0
  {
    64 - index + Whole(length + index - 64)
  }

  lemma ShortInputsFit(index: nat, length: nat)
    requires index < 64 && length < TWO32 - 64
    ensures LoopFits(index, length)
  {
  }

  // Otherwise the guard holds once more with fewer than 64 bytes left.
  lemma LoopOverrunsIfNotFits(index: nat, length: nat)
    requires index < 64 && length < TWO32 && !LoopFits(index, length)
    ensures var i := LastChunk(index, length);
      length - i < 64 && (i + 64) % TWO32 <= length
  {
    var i := LastChunk(index, length);
    assert i + 64 < 2 * TWO32;
    assert (i + 64) % TWO32 == i + 64 - TWO32;
  }

  // The loop's guard, in 32 bits.
  predicate ChunkLeft(i: nat, length: nat) {
    (i + 64) % TWO32 <= length
  }

  // i is where a chunk starts or where the last one ends.
  predicate ChunkEdge(index: nat, length: nat, i: nat)
    requires index < 64 && 64 - index <= length
  {
    64 - index <= i <= LastChunk(index, length) && (index + i) % 64 == 0
  }

  // The guard says whether a whole chunk is left.
  lemma GuardIsRight(index: nat, length: nat, i: nat)
    requires index < 64 && 64 - index <= length < TWO32 && LoopFits(index, length)
    requires ChunkEdge(index, length, i)
    ensures ChunkLeft(i, length) <==> i < LastChunk(index, length)
  {
    if i < LastChunk(index, length) {
      NextChunk(index, length, i, index);
    }
  }

  lemma NextChunk(index: nat, length: nat, i: nat, before: nat)
    requires index < 64 && 64 - index <= length && index == before % 64
    requires i < LastChunk(index, length) && ChunkEdge(index, length, i)
    ensures i + 64 <= length && ChunkEdge(index, length, i + 64) && (before + (i + 64)) % 64 == 0
  {
  }

  lemma LastEdge(index: nat, length: nat, i: nat, before: nat)
    requires index < 64 && 64 - index <= length && index == before % 64
    requires ChunkEdge(index, length, i) && i >= LastChunk(index, length)
    ensures i == LastChunk(index, length) && (before + i) % 64 == 0
  {
  }

  lemma FirstPart(message: seq<Byte>, input: seq<Byte>)
    requires |input| >= 64 - |message| % 64
    ensures var first := input[..64 - |message| % 64];
      (|message| + |first|) % 64 == 0
      && message[..Whole(|message|)] + (message[Whole(|message|)..] + first) == message + first
  {
  }

  lemma ChunksDone(message: seq<Byte>, input: seq<Byte>, i: nat)
    requires i <= |input| < i + 64 && (|message| + i) % 64 == 0
    ensures var all := message + input;
      && Whole(|all|) == |message| + i
      && all[..|message| + i] == message + input[..i]
      && all[|message| + i..] == input[i..]
  {
  }

  method Encode(output: array<Byte>, input: seq<Word>, len: nat)
    requires len == 4 * |input| && len <= output.Length
    modifies output
    ensures output[..len] == EncodeAll(input)
  {
    hide EncodeAll, LittleEndian;
    var i, j := 0, 0;
    assert EncodeAll(input[..0]) == [];
    while j < len
      invariant j == 4 * i <= len && output[..j] == EncodeAll(input[..i])
    {
      var w := input[i];
      FourBytes(w);
      ghost var before := output[..j];
      output[j] := w % 256;
      output[j + 1] := w / 256 % 256;
      output[j + 2] := w / 0x1_0000 % 256;
      output[j + 3] := w / 0x100_0000 % 256;
      EncodeNext(input, i);
      assert output[..j + 4] == before + [output[j], output[j + 1], output[j + 2], output[j + 3]];
      i, j := i + 1, j + 4;
    }
    assert input[..i] == input;
  }

  lemma EncodeNext(input: seq<Word>, i: nat)
    requires i < |input|
    ensures EncodeAll(input[..i + 1]) == EncodeAll(input[..i]) + LittleEndian(input[i], 4)
  {
    assert input[..i + 1][..i] == input[..i];
  }

  method Decode(output: array<Word>, input: seq<Byte>, len: nat)
    requires len == |input| && len % 4 == 0 && len <= 4 * output.Length
    modifies output
    ensures output[..len / 4] == DecodeAll(input)
  {
    hide FromBytes;
    var i, j := 0, 0;
    while j < len
      invariant j == 4 * i <= len
      invariant forall k | 0 <= k < i :: output[k] == DecodeAll(input)[k]
    {
      output[i] := FromBytes(input[j], input[j + 1], input[j + 2], input[j + 3]);
      i, j := i + 1, j + 4;
    }
  }

  class Md5 {
    const block: BlockFunction
    const buffer: array<Byte>
    var countLo: Word
    var countHi: Word
    var state: State
    const digest: array<Byte>
    var finalized: bool
    ghost var message: seq<Byte>

    // The whole blocks of a message are hashed and the rest is in the buffer.
    ghost predicate Holds(bytes: seq<Byte>)
      reads this`state, buffer
    {
      var whole := Whole(|bytes|);
      && buffer.Length == 64
      && buffer[..|bytes| - whole] == bytes[whole..]
      && state == Fold(block, INIT, bytes[..whole])
    }

    ghost predicate Valid()
      reads this, buffer
    {
      Counts(countLo, countHi, |message|) && Holds(message) && digest.Length == 16 && digest != buffer
    }

    constructor (f: BlockFunction)
      ensures Valid() && fresh(buffer) && fresh(digest) && block == f && message == [] && !finalized
    {
      block := f;
      buffer := new Byte[64];
      digest := new Byte[16];
      finalized := false;
      countLo, countHi := 0, 0;
      state := INIT;
      message := [];
    }

    method Transform(bytes: seq<Byte>, ghost blocks: seq<Byte>)
      requires |blocks| % 64 == 0 && |bytes| == 64 && state == Fold(block, INIT, blocks)
      modifies this`state
      ensures state == Fold(block, INIT, blocks + bytes)
    {
      hide Fold;
      FoldSnoc(block, INIT, blocks, bytes);
      state := block(state, bytes);
    }

    method MemCpy(index: nat, input: seq<Byte>)
      requires buffer.Length == 64 && index + |input| <= 64
      modifies buffer
      ensures buffer[..index + |input|] == old(buffer[..index]) + input
    {
      forall k | 0 <= k < |input| {
        buffer[index + k] := input[k];
      }
    }

    // update fills the buffer up and hashes it.
    method HashBuffer(index: nat, part: seq<Byte>, ghost whole: seq<Byte>)
      requires buffer.Length == 64 && index + |part| == 64 && |whole| % 64 == 0
      requires state == Fold(block, INIT, whole)
      modifies this`state, buffer
      ensures state == Fold(block, INIT, whole + (old(buffer[..index]) + part))
    {
      hide Fold;
      MemCpy(index, part);
      assert buffer[..] == buffer[..64];
      Transform(buffer[..], whole);
    }

    // The state is that of some whole blocks.
    ghost predicate Hashed(blocks: seq<Byte>)
      reads this`state
    {
      |blocks| % 64 == 0 && state == Fold(block, INIT, blocks)
    }

    method HashChunk(input: seq<Byte>, i: nat, ghost before: seq<Byte>)
      requires i + 64 <= |input| && Hashed(before + input[..i])
      modifies this`state
      ensures Hashed(before + input[..i + 64])
    {
      hide Fold;
      assert before + input[..i] + input[i..i + 64] == before + input[..i + 64];
      Transform(input[i..i + 64], before + input[..i]);
    }

    // update then hashes every whole chunk of the input.
    method HashChunks(index: nat, input: seq<Byte>, ghost before: seq<Byte>)
      requires index < 64 && index == |before| % 64
      requires 64 - index <= |input| < TWO32 && LoopFits(index, |input|)
      requires Hashed(before + input[..64 - index])
      modifies this`state
      ensures Hashed(before + input[..LastChunk(index, |input|)])
    {
      var length := |input|;
      var i := 64 - index;
      assert ChunkEdge(index, length, i);
      hide Fold, LoopFits, LastChunk, ChunkEdge, ChunkLeft, Hashed;
      GuardIsRight(index, length, i);
      while ChunkLeft(i, length)
        invariant i <= length && ChunkEdge(index, length, i)
        invariant ChunkLeft(i, length) <==> i < LastChunk(index, length)
        invariant Hashed(before + input[..i])
        decreases length - i
      {
        NextChunk(index, length, i, |before|);
        HashChunk(input, i, before);
        i := i + 64;
        GuardIsRight(index, length, i);
      }
      LastEdge(index, length, i, |before|);
    }

    // update behind the counter.
    method Absorb(index0: nat, input: seq<Byte>)
      requires Holds(message) && index0 == |message| % 64
      requires |input| < TWO32 && LoopFits(index0, |input|)
      modifies this`state, buffer
      ensures Holds(message + input)
    {
      hide Fold, LoopFits, LastChunk;
      var index, length, i := index0, |input|, 0;
      if 64 - index <= length {
        FirstPart(message, input);
        HashBuffer(index, input[..64 - index], message[..Whole(|message|)]);
        HashChunks(index, input, message);
        i := LastChunk(index, length);
        index := 0;
        ChunksDone(message, input, i);
      } else {
        Absorbed(message, input);
      }
      MemCpy(index, input[i..]);
    }

    method Update(input: seq<Byte>)
      requires Valid()
      requires |input| < TWO32 && LoopFits(|message| % 64, |input|)
      modifies this`state, this`countLo, this`countHi, this`message, buffer
      ensures Valid() && message == old(message) + input
    {
      hide Fold, Holds, Counts, LowCount, HighCount, LoopFits;
      var length := |input|;
      CountIndex(countLo, countHi, |message|);
      var index: nat := countLo / 8 % 64;
      CountAdds(countLo, countHi, |message|, length);
      countLo, countHi := LowCount(countLo, length), HighCount(countLo, countHi, length);
      Absorb(index, input);
      message := message + input;
    }

    // The two update calls of finalize.
    method Pad()
      requires Valid()
      modifies this`state, this`countLo, this`countHi, this`message, buffer
      ensures Valid() && message == old(message) + Padding(|old(message)|)
    {
      hide Fold, Holds, Counts, LittleEndian, LoopFits, Whole, EncodeAll;
      ghost var n := |message|;
      CountIndex(countLo, countHi, n);
      EncodeTwo(countLo, countHi);
      TwoWordsLittleEndian(countLo, countHi);
      CountsMeans(countLo, countHi, n);
      var bits := new Byte[8];
      Encode(bits, [countLo, countHi], 8);
      ghost var field := bits[..8];
      var index := countLo / 8 % 64;
      var padLen := if index < 56 then 56 - index else 120 - index;
      var padding := [0x80] + Zeros(63);
      assert padding[..padLen] == [0x80] + Zeros(ZeroCount(n));
      ShortInputsFit(index, padLen);
      Update(padding[..padLen]);
      assert |message| == n + padLen;
      ShortInputsFit(|message| % 64, 8);
      assert bits[..] == field;
      Update(bits[..]);
    }

    method Finalize()
      requires !finalized ==> Valid()
      modifies this, buffer, digest
      ensures finalized
      ensures if old(finalized) then digest[..] == old(digest[..]) else digest[..] == Digest(block, old(message))
    {
      hide Fold, Counts, LittleEndian, Padding, EncodeAll;
      if !finalized {
        Pad();
        assert message[..|message|] == message;
        EncodeFour(state);
        Encode(digest, [state.a, state.b, state.c, state.d], 16);
        assert digest[..16] == digest[..];
        ghost var done := digest[..];
        forall k | 0 <= k < 64 {
          buffer[k] := 0;
        }
        assert digest[..] == done;
        countLo, countHi := 0, 0;
        finalized := true;
      }
    }
  }
}
