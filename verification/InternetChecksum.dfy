/** The checksum of RFC 1071 over 16-bit words read in the host's byte order. */
module InternetChecksum {
  import opened Bytes
  import opened Ints

  /** The k-th word as the host of the given order reads it. */
  function WordAt(bs: seq<u8>, k: nat, e: Order): u16
    requires 2 * k + 2 <= |bs|
  {
    Pair(bs[2 * k], bs[2 * k + 1], e)
  }

  /** The sum of the first n words. */
  function Sum(bs: seq<u8>, n: nat, e: Order): nat
    requires 2 * n <= |bs|
  {
    if n == 0 then 0 else Sum(bs, n - 1, e) + WordAt(bs, n - 1, e)
  }

  /** Two folds of the upper half into the lower. */
  function Fold(acc: u32): u16 {
    var once := acc % 0x1_0000 + acc / 0x1_0000;
    (once + once / 0x1_0000) % 0x1_0000
  }

  /** Two folds are enough: the result is the sum in one's complement, and 0 only for a sum of 0. */
  lemma FoldIs(acc: u32) returns (q: nat)
    ensures acc == Fold(acc) + 0xffff * q && (Fold(acc) == 0 ==> acc == 0)
  {
    var low, high := acc % 0x1_0000, acc / 0x1_0000;
    q := if low + high >= 0x1_0000 then high + 1 else high;
  }

  /** The words add up to all ones in one's complement: the checksum among them is right. */
  predicate ChecksumOk(bs: seq<u8>, e: Order) {
    |bs| % 2 == 0 && Sum(bs, |bs| / 2, e) > 0 && Sum(bs, |bs| / 2, e) % 0xffff == 0
  }

  lemma Multiple(s: int, m: int)
    requires s == 0xffff * m
    ensures s % 0xffff == 0
  {
  }

  /** Folding a sum that fits 32 bits tells whether it is all ones. */
  lemma FoldTells(acc: u32)
    ensures Fold(acc) == 0xffff <==> acc > 0 && acc % 0xffff == 0
  {
    var q := FoldIs(acc);
    if acc % 0xffff == 0 {
      var m := acc / 0xffff;
      assert Fold(acc) == 0xffff * (m - q);
    }
    if Fold(acc) == 0xffff { Multiple(acc, q + 1); }
  }

  /** Data of up to 131074 bytes has a sum that fits 32 bits. */
  lemma {:induction false} SumBound(bs: seq<u8>, n: nat, e: Order)
    requires 2 * n <= |bs|
    ensures Sum(bs, n, e) <= 0xffff * n
  {
    if n > 0 { SumBound(bs, n - 1, e); }
  }

  lemma {:induction false} SumGrows(bs: seq<u8>, k: nat, n: nat, e: Order)
    requires k <= n && 2 * n <= |bs|
    ensures Sum(bs, k, e) <= Sum(bs, n, e)
  {
    if k < n { SumGrows(bs, k, n - 1, e); }
  }

  /** The sum with one word replaced. */
  lemma {:induction false} SumReplaced(a: seq<u8>, b: seq<u8>, n: nat, c: nat, e: Order)
    requires |a| == |b| && 2 * n <= |a| && 2 * c + 2 <= |a| && forall i :: 0 <= i < |a| && i != 2 * c && i != 2 * c + 1 ==> a[i] == b[i]
    ensures Sum(b, n, e) - Sum(a, n, e) == if c < n then WordAt(b, c, e) - WordAt(a, c, e) else 0
  {
    if n > 0 { SumReplaced(a, b, n - 1, c, e); }
  }

  // ----- byte order independence

  /** The byte of higher weight. */
  function High(a: u8, b: u8, e: Order): u8 { if e == Little then b else a }

  /** 256 times a word is the word the other way round, up to a multiple of 0xffff. */
  lemma PairFlipped(a: u8, b: u8, e: Order)
    ensures 0x100 * Pair(a, b, e) == Pair(a, b, Flip(e)) + 0xffff * High(a, b, e)
    ensures Pair(a, b, e) == 0 <==> Pair(a, b, Flip(e)) == 0
  {
  }

  /** 256 times a sum is the sum of the words the other way round, up to a multiple h of 0xffff. */
  lemma {:induction false} SumFlipped(bs: seq<u8>, n: nat, e: Order) returns (h: nat)
    requires 2 * n <= |bs|
    ensures 0x100 * Sum(bs, n, e) == Sum(bs, n, Flip(e)) + 0xffff * h
    ensures Sum(bs, n, e) == 0 <==> Sum(bs, n, Flip(e)) == 0
  {
    h := 0;
    if n > 0 {
      var m := n - 1;
      var g := SumFlipped(bs, m, e);
      var a, b := bs[2 * m], bs[2 * m + 1];
      PairFlipped(a, b, e);
      h := g + High(a, b, e);
    }
  }

  /** Section 2(B) of RFC 1071: a checksum is right in one byte order exactly if it is right in the other. */
  lemma ChecksumEitherOrder(bs: seq<u8>, e: Order)
    ensures ChecksumOk(bs, e) <==> ChecksumOk(bs, Flip(e))
  {
    RightFlipped(bs, e);
    RightFlipped(bs, Flip(e));
  }

  lemma RightFlipped(bs: seq<u8>, e: Order)
    ensures ChecksumOk(bs, e) ==> ChecksumOk(bs, Flip(e))
  {
    if ChecksumOk(bs, e) {
      var n := |bs| / 2;
      var h := SumFlipped(bs, n, e);
      var m := Sum(bs, n, e) / 0xffff;
      Multiple(Sum(bs, n, Flip(e)), 0x100 * m - h);
    }
  }

  // ----- the update

  /** Bytes with the word at an even position c stored anew. */
  function With16(bs: seq<u8>, c: nat, v: u16, e: Order): (r: seq<u8>)
    requires c + 2 <= |bs|
    ensures |r| == |bs|
  {
    bs[c := Store16(v, e)[0]][c + 1 := Store16(v, e)[1]]
  }

  /** The sum of the words other than the m-th. */
  function Others(bs: seq<u8>, m: nat, e: Order): nat
    requires 2 * m + 2 <= |bs| && |bs| % 2 == 0
  {
    Sum(With16(bs, 2 * m, 0, e), |bs| / 2, e)
  }

  /** Storing the complement of the folded sum of the others completes the checksum. */
  lemma Completed(bs: seq<u8>, m: nat, e: Order, chk: u16)
    requires 2 * m + 2 <= |bs| && |bs| % 2 == 0 && Others(bs, m, e) < 0x1_0000_0000
    requires chk == 0xffff - Fold(Others(bs, m, e))
    ensures ChecksumOk(With16(bs, 2 * m, chk, e), e)
  {
    var n := |bs| / 2;
    var zero, now := With16(bs, 2 * m, 0, e), With16(bs, 2 * m, chk, e);
    SumReplaced(zero, now, n, m, e);
    LoadStore16(chk, e);
    var q := FoldIs(Others(bs, m, e));
    Multiple(Sum(now, n, e), q + 1);
  }

  /** Store a word as the host of the given order does. */
  method Put16(buf: array<u8>, off: nat, v: u16, e: Order)
    requires off + 2 <= buf.Length
    modifies buf
    ensures buf[..] == With16(old(buf[..]), off, v, e)
  {
    var bs := Store16(v, e);
    buf[off], buf[off + 1] := bs[0], bs[1];
  }

  /** Load a word as the host of the given order does. */
  method Get16(buf: array<u8>, off: nat, e: Order) returns (v: u16)
    requires off + 2 <= buf.Length
    ensures v == Pair(buf[off], buf[off + 1], e)
  {
    v := Load16(buf[off..off + 2], e);
  }

  /** One more word in the accumulator: it does not overflow. */
  lemma OneMore(bs: seq<u8>, m: nat, k: nat, e: Order)
    requires 2 * m + 2 <= |bs| && |bs| % 2 == 0 && 2 * k + 2 <= |bs| && Others(bs, m, e) < 0x1_0000_0000
    ensures var zero := With16(bs, 2 * m, 0, e);
      Sum(zero, k, e) + (if k == m then 0 else Pair(bs[2 * k], bs[2 * k + 1], e)) == Sum(zero, k + 1, e) < 0x1_0000_0000
  {
    SumGrows(With16(bs, 2 * m, 0, e), k + 1, |bs| / 2, e);
  }

  /** The sum of the len bytes from start, with the word at c left out. */
  method Accumulate(buf: array<u8>, start: nat, len: nat, c: nat, e: Order) returns (acc: u32)
    requires start + len <= buf.Length && len % 2 == 0 && c % 2 == 0 && c + 2 <= len
    requires Others(buf[start..start + len], c / 2, e) < 0x1_0000_0000
    ensures acc == Others(buf[start..start + len], c / 2, e)
  {
    ghost var bs, m := buf[start..start + len], c / 2;
    ghost var zero := With16(bs, 2 * m, 0, e);
    acc := 0;
    var i := 0;
    ghost var k := 0;
    while i < len
      invariant 0 <= i <= len && i == 2 * k && acc == Sum(zero, k, e)
    {
      OneMore(bs, m, k, e);
      var val := 0;
      if i != c { val := Get16(buf, start + i, e); }
      acc := acc + val;
      i, k := i + 2, k + 1;
    }
  }

  /**
   * update_ip_checksum: over len bytes from start, with the checksum at its even position c in them. Afterwards
   * the words sum to all ones, and only the checksum has changed.
   */
  method UpdateIpChecksum(buf: array<u8>, start: nat, len: nat, c: nat, e: Order)
    requires start + len <= buf.Length && len % 2 == 0 && c % 2 == 0 && c + 2 <= len
    requires Others(buf[start..start + len], c / 2, e) < 0x1_0000_0000
    modifies buf
    ensures ChecksumOk(buf[start..start + len], e)
    ensures forall i :: 0 <= i < buf.Length && i != start + c && i != start + c + 1 ==> buf[i] == old(buf[i])
  {
    ghost var bs := buf[start..start + len];
    var acc := Accumulate(buf, start, len, c, e);
    var chk := 0xffff - Fold(acc);
    Put16(buf, start + c, chk, e);
    Completed(bs, c / 2, e, chk);
    assert buf[start..start + len] == With16(bs, c, chk, e);
  }
}
