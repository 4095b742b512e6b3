/** Integers as bytes, in either byte order. */
module Bytes {
  import opened Ints

  /** The byte order of the host that runs the code. */
  datatype Order = Little | Big

  function Flip(e: Order): Order { if e == Little then Big else Little }

  // ----- 32 bits

  /** bswap_32: the four bytes of a word in the opposite order. */
  function Bswap32(w: u32): u32 {
    var w1 := w / 0x100;
    var w2 := w1 / 0x100;
    w % 0x100 * 0x100_0000 + w1 % 0x100 * 0x1_0000 + w2 % 0x100 * 0x100 + w2 / 0x100
  }

  lemma LowByte(low: nat, high: nat)
    requires low < 0x100
    ensures (low + 0x100 * high) % 0x100 == low && (low + 0x100 * high) / 0x100 == high
  {
  }

  lemma Bswap32Twice(w: u32)
    ensures Bswap32(Bswap32(w)) == w
  {
    var a, b, c, d := w % 0x100, w / 0x100 % 0x100, w / 0x100 / 0x100 % 0x100, w / 0x100 / 0x100 / 0x100;
    assert w == a + 0x100 * (b + 0x100 * (c + 0x100 * d));
    var s := Bswap32(w);
    assert s == d + 0x100 * (c + 0x100 * (b + 0x100 * a));
    LowByte(d, c + 0x100 * (b + 0x100 * a));
    LowByte(c, b + 0x100 * a);
    LowByte(b, a);
    assert s % 0x100 == d && s / 0x100 % 0x100 == c && s / 0x100 / 0x100 % 0x100 == b && s / 0x100 / 0x100 / 0x100 == a;
  }

  /** A word as the host stores it. */
  function Store32(w: u32, e: Order): (bs: seq<u8>)
    ensures |bs| == 4
  {
    var v := if e == Little then w else Bswap32(w);
    var v1 := v / 0x100;
    var v2 := v1 / 0x100;
    [v % 0x100, v1 % 0x100, v2 % 0x100, v2 / 0x100]
  }

  function Load32(bs: seq<u8>, e: Order): u32
    requires |bs| == 4
  {
    var v: int := bs[0] as int + 0x100 * (bs[1] as int + 0x100 * (bs[2] as int + 0x100 * bs[3] as int));
    if e == Little then v else Bswap32(v)
  }

  lemma LoadStore(w: u32, e: Order)
    ensures Load32(Store32(w, e), e) == w
    ensures Store32(Bswap32(w), e) == Store32(w, Flip(e))
  {
    Bswap32Twice(w);
  }

  lemma LoadFlipped(bs: seq<u8>, e: Order)
    requires |bs| == 4
    ensures Load32(bs, Flip(e)) == Bswap32(Load32(bs, e))
  {
    Bswap32Twice(Load32(bs, Little));
  }

  // ----- 16 bits

  function Bswap16(w: u16): u16 { w % 0x100 * 0x100 + w / 0x100 }

  function Store16(w: u16, e: Order): (bs: seq<u8>)
    ensures |bs| == 2
  {
    if e == Little then [w % 0x100, w / 0x100] else [w / 0x100, w % 0x100]
  }

  /** The word two bytes make, the first at the lower address. */
  function Pair(a: u8, b: u8, e: Order): u16 { if e == Little then a as int + 0x100 * b as int else b as int + 0x100 * a as int }

  function Load16(bs: seq<u8>, e: Order): u16
    requires |bs| == 2
  {
    Pair(bs[0], bs[1], e)
  }

  lemma Bswap16Twice(w: u16)
    ensures Bswap16(Bswap16(w)) == w
  {
    LowByte(w / 0x100, w % 0x100);
  }

  lemma LoadStore16(w: u16, e: Order)
    ensures Load16(Store16(w, e), e) == w
  {
    LowByte(w % 0x100, w / 0x100);
  }

  lemma Store16Flipped(w: u16, e: Order)
    ensures Store16(Bswap16(w), e) == Store16(w, Flip(e))
  {
  }
}
