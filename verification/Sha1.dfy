// Incremental SHA-1: src/Util/SHA1.cpp, class SHA1. Any sequence of update
// calls followed by final_bin yields the digest that RFC 3174 defines for the
// concatenation of everything that was fed.

module Sha1Message {
  import opened Sha1Spec
  import opened Sha1Rounds
  import opened Arithmetic
  import opened Blocks

  // A byte as a bit vector, since words are put together with shifts.
  type Octet = bv8

  const BLOCK_INTS := 16
  const BLOCK_BYTES := 64

  const INIT := Regs(0x67452301, 0xefcdab89, 0x98badcfe, 0x10325476, 0xc3d2e1f0)

  function WordOf(b0: Octet, b1: Octet, b2: Octet, b3: Octet): Word {
    (b3 as Word) | ((b2 as Word) << 8) | ((b1 as Word) << 16) | ((b0 as Word) << 24)
  }

  function ByteOf(w: Word, b: nat): Octet
    requires b < 4
  {
    var shifted := if b == 0 then w >> 24 else if b == 1 then w >> 16 else if b == 2 then w >> 8 else w;
    (shifted & 0xFF) as Octet
  }

  function BytesOf(w: Word): seq<Octet> {
    [ByteOf(w, 0), ByteOf(w, 1), ByteOf(w, 2), ByteOf(w, 3)]
  }

  lemma WordBytesRoundTrip(w: Word)
    ensures WordOf(ByteOf(w, 0), ByteOf(w, 1), ByteOf(w, 2), ByteOf(w, 3)) == w
  {
  }

  lemma ZeroWord()
    ensures WordOf(0, 0, 0, 0) == 0
  {
  }

  // Section 2 of RFC 3174: the sixteen big-endian words of a block.
  function Words(block: seq<Octet>): (words: seq<Word>)
    requires |block| == BLOCK_BYTES
    ensures |words| == BLOCK_INTS
  {
    seq(BLOCK_INTS, i requires 0 <= i < 16 =>
      WordOf(block[4 * i], block[4 * i + 1], block[4 * i + 2], block[4 * i + 3]))
  }

  function Fold(h: Regs, blocks: seq<Octet>): Regs
    requires |blocks| % BLOCK_BYTES == 0
  {
    if |blocks| == 0 then h
    else Compress(Fold(h, blocks[..|blocks| - 64]), Words(blocks[|blocks| - 64..]))
  }

  // Section 4 of RFC 3174. The length field is the bit count modulo 2^64.
  function ZeroOctets(n: nat): (z: seq<Octet>)
    ensures |z| == n && forall i | 0 <= i < n :: z[i] == 0
  {
    seq(n, _ => 0)
  }

  function BitCount(bytes: nat): (n: nat)
    ensures n < TWO64
  {
    bytes * 8 % TWO64
  }

  function LengthWord(bits: nat): Word {
    (bits % TWO32) as Word
  }

  lemma LengthWordCuts(bits: nat)
    ensures LengthWord(bits) == (bits % TWO32) as Word
  {
  }

  function LengthField(bytes: nat): (f: seq<Octet>)
    ensures |f| == 8
  {
    BytesOf(LengthWord(BitCount(bytes) / TWO32)) + BytesOf(LengthWord(BitCount(bytes)))
  }

  function Padding(bytes: nat): (p: seq<Octet>)
    ensures (bytes + |p|) % BLOCK_BYTES == 0
  {
    PaddedLength(bytes);
    [0x80] + ZeroOctets(ZeroCount(bytes)) + LengthField(bytes)
  }

  function OctetsOfRegs(h: Regs): seq<Octet> {
    BytesOf(h.a) + BytesOf(h.b) + BytesOf(h.c) + BytesOf(h.d) + BytesOf(h.e)
  }

  function Digest(message: seq<Octet>): seq<Octet> {
    OctetsOfRegs(Fold(INIT, message + Padding(|message|)))
  }

  function BytesOfAll(words: seq<Word>): seq<Octet> {
    if |words| == 0 then [] else BytesOfAll(words[..|words| - 1]) + BytesOf(words[|words| - 1])
  }

  lemma RegsAreBytesOfAll(h: seq<Word>)
    requires |h| == 5
    ensures OctetsOfRegs(ToRegs(h)) == BytesOfAll(h)
  {
    hide BytesOf;
    assert h[..4][..3] == h[..3] && h[..3][..2] == h[..2] && h[..2][..1] == h[..1] && h[..1][..0] == [];
    assert BytesOfAll(h[..1]) == BytesOf(h[0]);
    assert BytesOfAll(h[..2]) == BytesOf(h[0]) + BytesOf(h[1]);
    assert BytesOfAll(h[..3]) == BytesOf(h[0]) + BytesOf(h[1]) + BytesOf(h[2]);
    assert BytesOfAll(h[..4]) == BytesOf(h[0]) + BytesOf(h[1]) + BytesOf(h[2]) + BytesOf(h[3]);
  }

  lemma CounterWraps(k: nat)
    ensures (k % TWO64 + 1) % TWO64 == (k + 1) % TWO64
  {
  }

  // The 64-bit transform counter wraps, the bit count does not notice.
  lemma DropMultiple(x: int, y: int)
    ensures (x + TWO64 * y) % TWO64 == x % TWO64
  {
  }

  lemma BitsAreCounted(n: nat)
    ensures (n / 64 % TWO64 * 64 + n % 64) * 8 % TWO64 == BitCount(n)
  {
    var k, q := n / 64, n / 64 / TWO64;
    assert k == TWO64 * q + k % TWO64;
    DropMultiple((k % TWO64 * 64 + n % 64) * 8, q * 512);
  }

  lemma FoldSnoc(h: Regs, blocks: seq<Octet>, block: seq<Octet>)
    requires |blocks| % 64 == 0 && |block| == 64
    ensures Fold(h, blocks + block) == Compress(Fold(h, blocks), Words(block))
  {
    hide Compress, Words;
    assert (blocks + block)[..|blocks + block| - 64] == blocks;
    assert (blocks + block)[|blocks + block| - 64..] == block;
  }

  // What final_bin hashes after the whole blocks: `rest` padded to one block,
  // or to two blocks when the length field does not fit into the first.
  lemma OneBlockTail(message: seq<Octet>, head: seq<Octet>, rest: seq<Octet>)
    requires message == head + rest && |rest| == |message| % 64 && |rest| < 56
    ensures message + Padding(|message|) == head + (rest + [0x80] + ZeroOctets(55 - |rest|) + LengthField(|message|))
  {
    hide LengthField;
  }

  lemma TwoBlockTail(message: seq<Octet>, head: seq<Octet>, rest: seq<Octet>)
    requires message == head + rest && |rest| == |message| % 64 && 56 <= |rest|
    ensures message + Padding(|message|)
            == (head + (rest + [0x80] + ZeroOctets(63 - |rest|))) + (ZeroOctets(56) + LengthField(|message|))
  {
    hide LengthField;
    assert ZeroOctets(119 - |rest|) == ZeroOctets(63 - |rest|) + ZeroOctets(56);
  }

  // Overwriting the last two words of a zero-tailed block appends the length.
  lemma WordsWithLength(front: seq<Octet>, bytes: nat)
    requires |front| == 56
    ensures var bits := BitCount(bytes);
      Words(front + LengthField(bytes))
      == Words(front + ZeroOctets(8))[15 := LengthWord(bits)][14 := LengthWord(bits / TWO32)]
  {
    hide WordOf, ByteOf, LengthWord, BitCount;
    var hi, lo := LengthWord(BitCount(bytes) / TWO32), LengthWord(BitCount(bytes));
    WordBytesRoundTrip(hi);
    WordBytesRoundTrip(lo);
    var x := front + LengthField(bytes);
    var y := front + ZeroOctets(8);
    assert LengthField(bytes) == BytesOf(hi) + BytesOf(lo);
    TailBytes(front, BytesOf(hi), BytesOf(lo));
    assert forall k :: 0 <= k < 56 ==> x[k] == y[k];
  }

  lemma TailBytes(front: seq<Octet>, a: seq<Octet>, b: seq<Octet>)
    requires |front| == 56 && |a| == |b| == 4
    ensures var x := front + (a + b);
      forall i | 0 <= i < 4 :: x[56 + i] == a[i] && x[60 + i] == b[i]
  {
  }

  lemma WordsOfZeros()
    ensures Words(ZeroOctets(64)) == seq(16, _ => 0)
  {
    hide WordOf;
    ZeroWord();
  }
}

module Sha1 {
  import opened Sha1Spec
  import opened Sha1Rounds
  import opened Sha1Message
  import opened Arithmetic
  import opened Blocks

  method BufferToBlock(buffer: seq<Octet>, block: array<Word>)
    requires |buffer| == BLOCK_BYTES && block.Length == BLOCK_INTS
    modifies block
    ensures block[..] == Words(buffer)
  {
    hide WordOf;
    for i := 0 to BLOCK_INTS
      invariant forall k :: 0 <= k < i ==> block[k] == Words(buffer)[k]
    {
      block[i] := WordOf(buffer[4 * i], buffer[4 * i + 1], buffer[4 * i + 2], buffer[4 * i + 3]);
    }
  }

  method ClearWords(block: array<Word>)
    requires block.Length == BLOCK_INTS
    modifies block
    ensures block[..14] == Words(ZeroOctets(64))[..14]
  {
    hide Words;
    WordsOfZeros();
    for i := 0 to BLOCK_INTS - 2
      invariant forall k :: 0 <= k < i ==> block[k] == 0
    {
      block[i] := 0;
    }
  }

  lemma NextPart(before: seq<Octet>, s: seq<Octet>, pos: nat, count: nat)
    requires pos + count <= |s|
    ensures before + s[..pos] + s[pos..pos + count] == before + s[..pos + count]
  {
  }

  lemma WholePart(s: seq<Octet>)
    ensures s[..|s|] == s
  {
  }

  class Sha1 {
    const digest: array<Word>
    var buffer: seq<Octet>
    var transforms: nat
    ghost var message: seq<Octet>

    ghost predicate Valid()
      reads this, digest
    {
      var whole := Whole(|message|);
      && digest.Length == 5
      && buffer == message[whole..]
      && transforms == |message| / 64 % TWO64
      && ToRegs(digest[..]) == Fold(INIT, message[..whole])
    }

    constructor ()
      ensures Valid() && fresh(digest) && message == []
    {
      digest := new Word[5];
      new;
      Reset();
    }

    method Reset()
      requires digest.Length == 5
      modifies this, digest
      ensures Valid() && message == []
    {
      hide Compress, Words;
      digest[0] := 0x67452301;
      digest[1] := 0xefcdab89;
      digest[2] := 0x98badcfe;
      digest[3] := 0x10325476;
      digest[4] := 0xc3d2e1f0;
      buffer := [];
      transforms := 0;
      message := [];
      assert digest[..] == [0x67452301, 0xefcdab89, 0x98badcfe, 0x10325476, 0xc3d2e1f0];
    }

    // One call of transform with its counter.
    method Hash(block: array<Word>, ghost blocks: seq<Octet>, ghost bytes: seq<Octet>)
      requires digest.Length == 5 && block.Length == 16 && digest != block
      requires |blocks| % 64 == 0 && |bytes| == 64
      requires ToRegs(digest[..]) == Fold(INIT, blocks)
      requires block[..] == Words(bytes)
      modifies this`transforms, digest, block
      ensures transforms == (old(transforms) + 1) % TWO64
      ensures ToRegs(digest[..]) == Fold(INIT, blocks + bytes)
    {
      hide Fold, Compress, ToRegs, Words;
      FoldSnoc(INIT, blocks, bytes);
      Transform(digest, block);
      transforms := (transforms + 1) % TWO64;
    }

    // update with a full buffer: hash it and start the next one.
    method HashBuffer(ghost head: seq<Octet>)
      requires digest.Length == 5 && |buffer| == 64 && |head| % 64 == 0
      requires ToRegs(digest[..]) == Fold(INIT, head)
      modifies this`buffer, this`transforms, digest
      ensures buffer == [] && transforms == (old(transforms) + 1) % TWO64
      ensures ToRegs(digest[..]) == Fold(INIT, head + old(buffer))
    {
      hide Fold, Compress, ToRegs, Words;
      var block := new Word[BLOCK_INTS];
      BufferToBlock(buffer, block);
      Hash(block, head, buffer);
      buffer := [];
    }

    // One turn of update's loop, on a part that does not overfill the buffer.
    method TakePart(part: seq<Octet>) returns (full: bool)
      requires Valid() && |buffer| + |part| <= BLOCK_BYTES
      modifies this, digest
      ensures Valid() && message == old(message) + part
      ensures full <==> |old(buffer)| + |part| == BLOCK_BYTES
    {
      hide Fold, Compress, ToRegs, Words;
      ghost var head := message[..Whole(|message|)];
      Absorbed(message, part);
      buffer := buffer + part;
      message := message + part;
      full := |buffer| == BLOCK_BYTES;
      if full {
        HashBuffer(head);
        assert message[..|message|] == message;
        CounterWraps(|message| / 64 - 1);
      }
    }

    method Update(s: seq<Octet>)
      requires Valid()
      modifies this, digest
      ensures Valid() && message == old(message) + s
    {
      BufferIsOpen();
      hide Valid;
      var pos := 0;
      while true
        invariant 0 <= pos <= |s| && |buffer| < BLOCK_BYTES
        invariant Valid() && message == old(message) + s[..pos]
        decreases |s| - pos
      {
        var room := BLOCK_BYTES - |buffer|;
        var gcount := if room <= |s| - pos then room else |s| - pos;
        NextPart(old(message), s, pos, gcount);
        var full := TakePart(s[pos..pos + gcount]);
        BufferIsOpen();
        pos := pos + gcount;
        if !full {
          WholePart(s);
          return;
        }
      }
    }

    lemma BufferIsOpen()
      requires Valid()
      ensures |buffer| < BLOCK_BYTES
    {
    }

    method ZeroFill()
      requires |buffer| <= BLOCK_BYTES
      modifies this`buffer
      ensures buffer == old(buffer) + ZeroOctets(BLOCK_BYTES - |old(buffer)|)
    {
      while |buffer| < BLOCK_BYTES
        invariant |old(buffer)| <= |buffer| <= BLOCK_BYTES
        invariant buffer == old(buffer) + ZeroOctets(|buffer| - |old(buffer)|)
      {
        buffer := buffer + [0];
      }
    }

    // The last block: 56 bytes, then the bit count as two words.
    method HashLengthBlock(block: array<Word>, totalBits: nat, ghost done: seq<Octet>, ghost front: seq<Octet>)
      requires digest.Length == 5 && block.Length == 16 && digest != block
      requires |done| % 64 == 0 && |front| == 56 && totalBits == BitCount(|message|)
      requires ToRegs(digest[..]) == Fold(INIT, done)
      requires block[..14] == Words(front + ZeroOctets(8))[..14]
      modifies this`transforms, digest, block
      ensures ToRegs(digest[..]) == Fold(INIT, done + (front + LengthField(|message|)))
    {
      hide Fold, Compress, ToRegs, Words, LengthWord, LengthField, Padding, WordOf, BytesOf, BitCount;
      WordsWithLength(front, |message|);
      LengthWordCuts(totalBits);
      LengthWordCuts(totalBits / TWO32);
      block[BLOCK_INTS - 1] := (totalBits % TWO32) as Word;
      block[BLOCK_INTS - 2] := (totalBits / TWO32 % TWO32) as Word;
      assert block[..] == Words(front + LengthField(|message|));
      Hash(block, done, front + LengthField(|message|));
    }

    // The padded buffer is the first of two blocks when the length does not fit behind it.
    method SpillBlock(block: array<Word>, spill: bool, ghost head: seq<Octet>, ghost rest: seq<Octet>)
      returns (ghost done: seq<Octet>, ghost front: seq<Octet>)
      requires digest.Length == 5 && block.Length == 16 && digest != block
      requires message == head + rest && |rest| == |message| % 64 && |head| % 64 == 0
      requires buffer == rest + [0x80] + ZeroOctets(63 - |rest|) && (spill <==> 56 <= |rest|)
      requires ToRegs(digest[..]) == Fold(INIT, head) && block[..] == Words(buffer)
      modifies this`transforms, digest, block
      ensures |done| % 64 == 0 && |front| == 56
      ensures ToRegs(digest[..]) == Fold(INIT, done) && block[..14] == Words(front + ZeroOctets(8))[..14]
      ensures message + Padding(|message|) == done + (front + LengthField(|message|))
    {
      hide Fold, Compress, ToRegs, Words, LengthField, Padding;
      if spill {
        Hash(block, head, buffer);
        TwoBlockTail(message, head, rest);
        done, front := head + buffer, ZeroOctets(56);
        ClearWords(block);
        assert front + ZeroOctets(8) == ZeroOctets(64);
      } else {
        OneBlockTail(message, head, rest);
        done, front := head, rest + [0x80] + ZeroOctets(55 - |rest|);
        assert buffer == front + ZeroOctets(8);
      }
    }

    // final_bin up to the last transform.
    method PadAndHash()
      requires Valid()
      modifies this, digest
      ensures message == old(message)
      ensures ToRegs(digest[..]) == Fold(INIT, message + Padding(|message|))
    {
      hide Fold, Compress, ToRegs, Words, LengthWord, LengthField, Padding, WordOf, BytesOf, BitCount;
      ghost var n := |message|;
      ghost var rest := buffer;
      ghost var head := message[..Whole(n)];
      assert message == head + rest;
      var totalBits := (transforms * BLOCK_BYTES + |buffer|) * 8 % TWO64;
      BitsAreCounted(n);
      hide Whole;
      buffer := buffer + [0x80];
      var origSize := |buffer|;
      ZeroFill();
      var block := new Word[BLOCK_INTS];
      BufferToBlock(buffer, block);
      ghost var done, front := SpillBlock(block, origSize > BLOCK_BYTES - 8, head, rest);
      HashLengthBlock(block, totalBits, done, front);
    }

    method FinalBin() returns (result: seq<Octet>)
      requires Valid()
      modifies this, digest
      ensures result == Digest(old(message))
      ensures Valid() && message == []
    {
      hide Fold, Compress, ToRegs, Words, ByteOf, Padding;
      PadAndHash();
      result := [];
      for i := 0 to 5
        invariant result == BytesOfAll(digest[..i])
      {
        for b := 0 to 4
          invariant result == BytesOfAll(digest[..i]) + BytesOf(digest[i])[..b]
        {
          result := result + [ByteOf(digest[i], b)];
        }
        assert digest[..i + 1][..i] == digest[..i];
      }
      assert digest[..5] == digest[..];
      RegsAreBytesOfAll(digest[..]);
      Reset();
    }
  }
}
