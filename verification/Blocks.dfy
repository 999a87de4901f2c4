// A message cut into 64-byte blocks, as both hash classes do it.

module Blocks {
  // The bytes of an n-byte message that lie in whole blocks.
  function Whole(n: nat): (k: nat)
    ensures k % 64 == 0 && k <= n < k + 64
  {
    n / 64 * 64
  }

  // How many zero bytes follow the 0x80 byte so that eight bytes are left in
  // the last block.
  function ZeroCount(n: nat): (k: nat)
    ensures k < 64 && (n + 1 + k + 8) % 64 == 0
    ensures k == if n % 64 < 56 then 55 - n % 64 else 119 - n % 64
  {
    PaddedLength(n);
    (119 - n % 64) % 64
  }

  lemma PaddedLength(n: nat)
    ensures (n + 1 + (119 - n % 64) % 64 + 8) % 64 == 0
  {
    var q, r := n / 64, n % 64;
    if r < 56 {
      assert (119 - r) % 64 == 55 - r;
    } else {
      assert (119 - r) % 64 == 119 - r;
    }
  }

  // Appending at most one block's worth of bytes either leaves the block open
  // or closes it exactly.
  lemma Absorbed<T>(message: seq<T>, chunk: seq<T>)
    requires |message| - Whole(|message|) + |chunk| <= 64
    ensures var whole, after := Whole(|message|), message + chunk;
      && after[..whole] == message[..whole]
      && after == message[..whole] + (message[whole..] + chunk)
      && after[whole..] == message[whole..] + chunk
      && (|after| - whole < 64 ==> Whole(|after|) == whole && |after| / 64 == |message| / 64)
      && (|after| - whole == 64 ==> Whole(|after|) == |after| && |after| / 64 == |message| / 64 + 1)
  {
    var whole, after := Whole(|message|), message + chunk;
    if |after| - whole == 64 {
      assert |after| == 64 * (|message| / 64 + 1);
    }
  }
}
