/** A histogram with slots by powers of two: how samples are sorted into slots, and what the printed ranges say. */
module Log2Histogram {
  import opened Ints
  import opened PowersOfTwo

  const MAX_SLOTS := 27

  lemma {:induction false} Pow2Grows(m: nat, n: nat)
    requires m <= n
    ensures Pow2(m) <= Pow2(n)
  {
    if m < n { Pow2Grows(m, n - 1); }
  }

  lemma Powers()
    ensures Pow2(1) == 2 && Pow2(2) == 4 && Pow2(3) == 8 && Pow2(4) == 0x10 && Pow2(8) == 0x100
    ensures Pow2(16) == 0x1_0000 && Pow2(32) == 0x1_0000_0000 && Pow2(64) == 0x1_0000_0000_0000_0000
  {
    assert Pow2(12) == 0x1000;
    assert Pow2(20) == 0x10_0000;
    assert Pow2(26) == 0x400_0000;
    assert Pow2(38) == 0x40_0000_0000;
    assert Pow2(44) == 0x1000_0000_0000;
    assert Pow2(50) == 0x4_0000_0000_0000;
    assert Pow2(56) == 0x100_0000_0000_0000;
    assert Pow2(60) == 0x1000_0000_0000_0000;
  }

  /** The position of the highest bit, and 0 for no bit. */
  function FloorLog2(v: nat): (r: nat)
    ensures v > 0 ==> Pow2(r) <= v < Pow2(r + 1)
  {
    if v < 2 then 0 else FloorLog2(v / 2) + 1
  }

  lemma OnlyLog(v: nat, r: nat)
    requires Pow2(r) <= v < Pow2(r + 1)
    ensures FloorLog2(v) == r
  {
    var s := FloorLog2(v);
    if s < r { Pow2Grows(s + 1, r); }
    if r < s { Pow2Grows(r + 1, s); }
  }

  // ----- bits

  /** Bitwise or. */
  function Or(a: nat, b: nat): nat {
    if a == 0 && b == 0 then 0 else 2 * Or(a / 2, b / 2) + if a % 2 == 1 || b % 2 == 1 then 1 else 0
  }

  lemma {:induction false} OrZero(a: nat)
    ensures Or(a, 0) == a
  {
    if a > 0 { OrZero(a / 2); }
  }

  /** Or joins bits that are apart as a sum does. */
  lemma {:induction false} OrJoins(a: nat, k: nat, b: nat)
    requires b < Pow2(k)
    ensures Or(a * Pow2(k), b) == a * Pow2(k) + b
  {
    if k == 0 {
      OrZero(a);
    } else {
      var half := a * Pow2(k - 1);
      assert a * Pow2(k) == 2 * half;
      OrJoins(a, k - 1, b / 2);
    }
  }

  /** r |= b, where r has no bit below p, which is 2 to the k, and b none from there. */
  method OrBits(r: nat, b: nat, ghost k: nat, ghost p: nat, ghost a: nat) returns (joined: nat)
    requires r == a * p && b < p == Pow2(k)
    ensures joined == r + b
  {
    OrJoins(a, k, b);
    joined := Or(r, b);
  }

  /** Shift to the right. */
  function Shr(v: nat, n: nat): nat { if n == 0 then v else Shr(v / 2, n - 1) }

  /** Shifting n of n + k bits out. */
  lemma {:induction false} Shifted(v: nat, n: nat, k: nat)
    requires v < Pow2(n + k)
    ensures Shr(v, n) < Pow2(k)
    ensures if v < Pow2(n) then Shr(v, n) == 0 else Shr(v, n) > 0 && FloorLog2(v) == FloorLog2(Shr(v, n)) + n
  {
    if n > 0 { Shifted(v / 2, n - 1, k); }
  }

  /** One step of log2: of 2 n bits, the upper n unless there are none. */
  method Narrow(value: nat, n: nat) returns (v: nat, shift: nat, ghost bit: nat)
    requires value < Pow2(n + n)
    ensures v < Pow2(n) && bit <= 1 && shift == bit * n && FloorLog2(value) == FloorLog2(v) + shift
  {
    Shifted(value, n, n);
    shift, bit := if value > Pow2(n) - 1 then n else 0, if value < Pow2(n) then 0 else 1;
    v := Shr(value, shift);
  }

  lemma LastBit(v: nat)
    requires v < 4
    ensures FloorLog2(v) == Shr(v, 1) < 2
  {
  }

  /** log2: 0 for 0. */
  method Log2(value: u32) returns (r: nat)
    ensures r == FloorLog2(value) && r < 32
  {
    Powers();
    var v, shift;
    ghost var a, bit;
    v, r, a := Narrow(value, 16);
    v, shift, bit := Narrow(v, 8);
    r := OrBits(r, shift, 4, 16, a);
    a := 2 * a + bit;
    v, shift, bit := Narrow(v, 4);
    r := OrBits(r, shift, 3, 8, a);
    a := 2 * a + bit;
    v, shift, bit := Narrow(v, 2);
    r := OrBits(r, shift, 2, 4, a);
    a := 2 * a + bit;
    LastBit(v);
    r := OrBits(r, Shr(v, 1), 1, 2, a);
  }

  /** log2l. */
  method Log2l(v: u64) returns (r: nat)
    ensures r == FloorLog2(v) && r < 64
  {
    Powers();
    Shifted(v, 32, 32);
    var hi := Shr(v, 32);
    if hi != 0 {
      var l := Log2(hi);
      r := l + 32;
    } else {
      r := Log2(v);
    }
  }

  // ----- the printed ranges

  /** The first and the last value of a slot, as the printed table shows them. */
  function Low(i: nat): nat { if i == 0 then 0 else Pow2(i) }

  function High(i: nat): nat { Pow2(i + 1) - 1 }

  /** The bounds of a row, as print_log2_hist computes them in 64 bits. */
  method Range(i: nat) returns (low: nat, high: nat)
    requires i < 63
    ensures low == Low(i) && high == High(i)
  {
    low, high := Shr(Pow2(i + 1), 1), Pow2(i + 1) - 1;
    assert Shr(Pow2(i + 1), 1) == Pow2(i + 1) / 2 == Pow2(i);
    if low == high { low := low - 1; }
    if i > 0 { Pow2Grows(1, i); }
  }

  /** A value lies in the range of its slot, and in no other. */
  lemma InRange(v: nat, i: nat)
    ensures Low(i) <= v <= High(i) <==> i == FloorLog2(v)
  {
    if v > 0 && Low(i) <= v <= High(i) { OnlyLog(v, i); }
    if i > 0 { Pow2Grows(1, i); }
  }

  /** The ranges start at 0 and follow one another without gap or overlap. */
  lemma RangesTile(i: nat)
    ensures Low(0) == 0 && Low(i) <= High(i) && Low(i + 1) == High(i) + 1
  {
  }

  /** The row of a sample holds it, exactly if the sample was not clamped to the last slot. */
  lemma SlotHolds(v: nat)
    ensures Low(Slot(v)) <= v <= High(Slot(v)) <==> FloorLog2(v) < MAX_SLOTS
  {
    InRange(v, Slot(v));
  }

  // ----- counting

  /** The slot of a sample: what lies beyond the last slot counts there. */
  function Slot(v: nat): nat { if FloorLog2(v) >= MAX_SLOTS then MAX_SLOTS - 1 else FloorLog2(v) }

  function Hits(v: nat, i: nat): nat { if Slot(v) == i then 1 else 0 }

  /** How many samples fall into a slot. */
  function Count(samples: seq<u32>, i: nat): nat {
    if samples == [] then 0 else Count(samples[..|samples| - 1], i) + Hits(samples[|samples| - 1], i)
  }

  function Total(samples: seq<u32>, n: nat): nat {
    if n == 0 then 0 else Total(samples, n - 1) + Count(samples, n - 1)
  }

  lemma {:induction false} TotalSnoc(samples: seq<u32>, n: nat)
    requires |samples| > 0
    ensures var m := |samples| - 1; Total(samples, n) == Total(samples[..m], n) + if Slot(samples[m]) < n then 1 else 0
  {
    if n > 0 { TotalSnoc(samples, n - 1); }
  }

  lemma {:induction false} NoneTotal(n: nat)
    ensures Total([], n) == 0
  {
    if n > 0 { NoneTotal(n - 1); }
  }

  /** Every sample is counted, and in one slot only. */
  lemma {:induction false} SlotsTotal(samples: seq<u32>)
    ensures Total(samples, MAX_SLOTS) == |samples|
  {
    if samples == [] {
      NoneTotal(MAX_SLOTS);
    } else {
      TotalSnoc(samples, MAX_SLOTS);
      SlotsTotal(samples[..|samples| - 1]);
    }
  }

  function Inc32(v: u32): u32 { if v == 0xffff_ffff then 0 else v + 1 }

  /** A 32-bit counter after n increments. */
  function Wrapped(n: nat): u32 { n % 0x1_0000_0000 }

  lemma OneMore(n: nat)
    ensures Wrapped(n + 1) == Inc32(Wrapped(n))
  {
  }

  lemma CountSnoc(samples: seq<u32>, v: u32, i: nat)
    ensures Count(samples + [v], i) == Count(samples, i) + Hits(v, i)
  {
    assert (samples + [v])[..|samples|] == samples;
  }

  /** 64-bit addition. */
  function Add64(a: u64, b: u64): u64 { (a + b) % 0x1_0000_0000_0000_0000 }

  /** The round trip time, kept in eighths of a microsecond, in the unit asked for. */
  function RoundTrip(srttUs: u32, ms: bool): u32 { if ms then srttUs / 8 / 1000 else srttUs / 8 }

  class Hist {
    var latency: u64
    var cnt: u64
    const slots: array<u32>
    ghost var samples: seq<u32>

    /** Each slot counts its samples, modulo 2^32. */
    ghost predicate Valid()
      reads this, slots
    {
      slots.Length == MAX_SLOTS && forall i :: 0 <= i < MAX_SLOTS ==> slots[i] == Wrapped(Count(samples, i))
    }

    constructor ()
      ensures Valid() && samples == [] && fresh(slots) && latency == cnt == 0
    {
      latency, cnt, samples := 0, 0, [];
      slots := new u32[MAX_SLOTS](_ => 0);
    }

    /** The end of tcp_rcv: a round trip time in eighths of a microsecond goes into its slot. */
    method Record(srttUs: u32, ms: bool, ext: bool)
      requires Valid()
      modifies this, slots
      ensures Valid()
      ensures samples == old(samples) + [RoundTrip(srttUs, ms)]
      ensures cnt == if ext then Add64(old(cnt), 1) else old(cnt)
      ensures latency == if ext then Add64(old(latency), RoundTrip(srttUs, ms)) else old(latency)
    {
      var srtt := RoundTrip(srttUs, ms);
      var slot := Log2l(srtt);
      if slot >= MAX_SLOTS { slot := MAX_SLOTS - 1; }
      Bump(slot, srtt);
      if ext {
        latency := Add64(latency, srtt);
        cnt := Add64(cnt, 1);
      }
    }

    /** One more in the slot of the sample v. */
    method Bump(slot: nat, ghost v: u32)
      requires Valid() && slot == Slot(v)
      modifies slots, this`samples
      ensures Valid() && samples == old(samples) + [v]
    {
      forall i { CountSnoc(samples, v, i); }
      OneMore(Count(samples, slot));
      slots[slot] := Inc32(slots[slot]);
      samples := samples + [v];
    }

    /** The slots add up to the number of samples exactly as long as no counter has wrapped. */
    lemma SlotsAddUp()
      requires Valid()
      ensures Added(slots[..]) == |samples| <==> NoneWrapped(samples, MAX_SLOTS)
    {
      SlotsTotal(samples);
      AddedIs(slots[..], samples);
    }
  }

  /** The first n counters have not wrapped. */
  predicate NoneWrapped(samples: seq<u32>, n: nat) { forall i :: 0 <= i < n ==> Count(samples, i) < 0x1_0000_0000 }

  function Added(vals: seq<u32>): nat {
    if vals == [] then 0 else Added(vals[..|vals| - 1]) + vals[|vals| - 1]
  }

  lemma {:induction false} AddedIs(vals: seq<u32>, samples: seq<u32>)
    requires forall i :: 0 <= i < |vals| ==> vals[i] == Wrapped(Count(samples, i))
    ensures Added(vals) <= Total(samples, |vals|)
    ensures Added(vals) == Total(samples, |vals|) <==> NoneWrapped(samples, |vals|)
  {
    if vals != [] {
      var m := |vals| - 1;
      AddedIs(vals[..m], samples);
      WrappedIs(Count(samples, m));
      assert NoneWrapped(samples, |vals|) <==> NoneWrapped(samples, m) && Count(samples, m) < 0x1_0000_0000;
    }
  }

  lemma WrappedIs(n: nat)
    ensures Wrapped(n) <= n && (Wrapped(n) == n <==> n < 0x1_0000_0000)
  {
  }
}
