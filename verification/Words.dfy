// 64-bit machine words and the physical memory they are stored in.
//
// A uint64_t is an int below 2^64.  Masks and shifts by constants are written as
// the division and remainder they are equal to: x >> 39 is x / 2^39, x & 0xFFF is
// x % 4096, x & ~0xFFF is x - x % 4096.  A page has 4096 bytes and 512 words.
module Words {
  type Word = x: int | 0 <= x < 0x1_0000_0000_0000_0000

  // Arithmetic on uint64_t wraps around.
  function Wrap(x: int): Word {
    if 0 <= x < 0x1_0000_0000_0000_0000 then x else x % 0x1_0000_0000_0000_0000
  }

  // The word at index i of page frame f; RAM that is not there reads as zero.
  ghost function Rd(m: seq<Word>, f: nat, i: nat): Word {
    if f * 512 + i < |m| then m[f * 512 + i] else 0
  }

  // m with that word cleared; a store to RAM that is not there is lost.
  ghost function Zeroed(m: seq<Word>, f: nat, i: nat): seq<Word> {
    if f * 512 + i < |m| then m[f * 512 + i := 0] else m
  }

  // m with the n frames from frame f on filled with zeros.
  ghost function ZeroFrames(m: seq<Word>, f: nat, n: nat): seq<Word> {
    seq(|m|, k requires 0 <= k < |m| =>
      if f * 512 <= k < (f + n) * 512 then 0 else m[k])
  }
}
