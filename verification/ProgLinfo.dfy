/** Line information of a JITed program: records split by function, and searches in them. */
module ProgLinfo {
  import opened Ints
  import opened Errno
  import opened Options

  // ----- what a split of the records is

  /** Where the records of a function end: at the start of the next one's, or at the end of all. */
  function End(idx: seq<nat>, n: nat, f: nat): nat
    requires f < |idx|
  {
    if f + 1 < |idx| then idx[f + 1] else n
  }

  /** The check against a function's length, in 64-bit arithmetic. */
  predicate FitsLen(start: u64, last: u64, len: u32) {
    var span: int := last as int - start as int + 1;
    span % 0x1_0000_0000_0000_0000 <= len
  }

  /**
   * With increasing addresses the check keeps the last record within the function, unless the records span all
   * 64-bit addresses: then the length comes out as 0.
   */
  lemma FitsLenMeans(start: u64, last: u64, len: u32)
    requires start <= last
    ensures FitsLen(start, last, len) <==> last - start + 1 <= len || (start == 0 && last == 0xffff_ffff_ffff_ffff)
  {
    var span: int := last as int - start as int + 1;
    if span < 0x1_0000_0000_0000_0000 { assert span % 0x1_0000_0000_0000_0000 == span; }
  }

  predicate Increasing(addrs: seq<u64>, lo: nat, hi: nat)
    requires hi <= |addrs|
  {
    forall i, j {:trigger addrs[i], addrs[j]} :: lo <= i < j < hi ==> addrs[i] < addrs[j]
  }

  /** Function f starts at lo, the next one at the first record from there that has its address, hi. */
  ghost predicate Piece(addrs: seq<u64>, ksym: seq<u64>, klen: seq<u32>, f: nat, lo: nat, hi: nat)
    requires f + 1 < |ksym| == |klen|
  {
    lo < hi < |addrs| && addrs[lo] == ksym[f] && addrs[hi] == ksym[f + 1] &&
    (forall i {:trigger addrs[i]} :: lo < i < hi ==> addrs[i] != ksym[f + 1]) &&
    Increasing(addrs, lo, hi) && FitsLen(ksym[f], addrs[hi - 1], klen[f])
  }

  /** The first f functions found: idx are the first records of each. */
  ghost predicate SplitUpTo(addrs: seq<u64>, ksym: seq<u64>, klen: seq<u32>, idx: seq<nat>, f: nat) {
    |idx| == |ksym| == |klen| && 0 < f <= |idx| && |addrs| > 0 && idx[0] == 0 && addrs[0] == ksym[0] &&
    forall g {:trigger klen[g]} :: 0 <= g < f - 1 ==> Piece(addrs, ksym, klen, g, idx[g], idx[g + 1])
  }

  /** A split of all records among all functions. */
  ghost predicate Split(addrs: seq<u64>, ksym: seq<u64>, klen: seq<u32>, idx: seq<nat>) {
    SplitUpTo(addrs, ksym, klen, idx, |idx|)
  }

  lemma PieceAt(addrs: seq<u64>, ksym: seq<u64>, klen: seq<u32>, idx: seq<nat>, f: nat, g: nat)
    requires SplitUpTo(addrs, ksym, klen, idx, f) && g + 1 < f
    ensures Piece(addrs, ksym, klen, g, idx[g], idx[g + 1])
  {
    assert 0 <= klen[g];
  }

  lemma Shorter(addrs: seq<u64>, ksym: seq<u64>, klen: seq<u32>, idx: seq<nat>, f: nat)
    requires SplitUpTo(addrs, ksym, klen, idx, f) && f > 1
    ensures SplitUpTo(addrs, ksym, klen, idx, f - 1)
  {
    forall g | 0 <= g < f - 2 ensures Piece(addrs, ksym, klen, g, idx[g], idx[g + 1]) {
      PieceAt(addrs, ksym, klen, idx, f, g);
    }
  }

  /** Any split agrees with the functions found so far. */
  lemma {:induction false} SplitAgrees(addrs: seq<u64>, ksym: seq<u64>, klen: seq<u32>, idx: seq<nat>, f: nat, other: seq<nat>)
    requires SplitUpTo(addrs, ksym, klen, idx, f) && Split(addrs, ksym, klen, other)
    ensures other[f - 1] == idx[f - 1]
    decreases f
  {
    if f > 1 {
      var g := f - 2;
      assert other[g] == idx[g] by {
        Shorter(addrs, ksym, klen, idx, f);
        SplitAgrees(addrs, ksym, klen, idx, f - 1, other);
      }
      PieceAt(addrs, ksym, klen, idx, f, g);
      PieceAt(addrs, ksym, klen, other, |other|, g);
      SameEnd(addrs, ksym, klen, g, idx[g], idx[g + 1], other[g + 1]);
    }
  }

  lemma SameEnd(addrs: seq<u64>, ksym: seq<u64>, klen: seq<u32>, f: nat, lo: nat, a: nat, b: nat)
    requires f + 1 < |ksym| == |klen| && Piece(addrs, ksym, klen, f, lo, a) && Piece(addrs, ksym, klen, f, lo, b)
    ensures a == b
  {
    assert addrs[a] == ksym[f + 1] && addrs[b] == ksym[f + 1];
  }

  lemma {:induction false} StartsIncrease(addrs: seq<u64>, ksym: seq<u64>, klen: seq<u32>, idx: seq<nat>, f: nat, g: nat)
    requires Split(addrs, ksym, klen, idx) && f <= g < |idx|
    ensures g - f + idx[f] <= idx[g] < |addrs| && addrs[idx[g]] == ksym[g]
    decreases g - f
  {
    if g > 0 { PieceAt(addrs, ksym, klen, idx, |idx|, g - 1); }
    if f < g { StartsIncrease(addrs, ksym, klen, idx, f, g - 1); }
  }

  lemma StartBeforeEnd(addrs: seq<u64>, ksym: seq<u64>, klen: seq<u32>, idx: seq<nat>, f: nat)
    requires Split(addrs, ksym, klen, idx) && f < |idx|
    ensures idx[f] < End(idx, |addrs|, f) <= |addrs|
  {
    StartsIncrease(addrs, ksym, klen, idx, f, f);
    if f + 1 < |idx| { StartsIncrease(addrs, ksym, klen, idx, f, f + 1); }
  }

  function Sum(s: seq<nat>): nat {
    if s == [] then 0 else Sum(s[..|s| - 1]) + s[|s| - 1]
  }

  /** The numbers of records of the functions are positive and add up to all. */
  lemma CountsAddUp(addrs: seq<u64>, ksym: seq<u64>, klen: seq<u32>, idx: seq<nat>, per: seq<nat>)
    requires Split(addrs, ksym, klen, idx) && |per| == |idx|
    requires forall f :: 0 <= f < |idx| ==> idx[f] + per[f] == End(idx, |addrs|, f)
    ensures forall f :: 0 <= f < |idx| ==> per[f] > 0
    ensures Sum(per) == |addrs|
  {
    forall f | 0 <= f < |idx| ensures per[f] > 0 { StartBeforeEnd(addrs, ksym, klen, idx, f); }
    PartialSum(addrs, idx, per, |idx|);
    assert per[..|per|] == per;
  }

  lemma {:induction false} PartialSum(addrs: seq<u64>, idx: seq<nat>, per: seq<nat>, f: nat)
    requires |per| == |idx| && 0 < f <= |idx| && idx[0] == 0
    requires forall g :: 0 <= g < |idx| ==> idx[g] + per[g] == End(idx, |addrs|, g)
    ensures Sum(per[..f]) == End(idx, |addrs|, f - 1)
    decreases f
  {
    assert per[..f][..f - 1] == per[..f - 1];
    if f > 1 { PartialSum(addrs, idx, per, f - 1); }
  }

  // ----- searching

  /** Record r is at or below x with all from lo, and it is the last, or the one after it is above. */
  predicate JustBefore(s: seq<int>, x: int, lo: nat, hi: nat, r: nat) {
    lo <= r < hi <= |s| && (forall j {:trigger s[j]} :: lo <= j <= r ==> s[j] <= x) && (r + 1 < hi ==> s[r + 1] > x)
  }

  predicate Below(x: int, s: seq<int>, i: nat) { i < |s| ==> x < s[i] }

  class BpfProgLinfo {
    const rawLinfo: seq<u32>        // the insn_off of each record
    const rawJited: seq<u64>        // the address of each record
    const nrJited: nat
    const perFunc: array<nat>
    const funcIdx: array<nat>
    ghost var ksym: seq<u64>
    ghost var klen: seq<u32>

    /** Without JIT information there are no functions; with it, the records are split among them. */
    ghost predicate Valid()
      reads this, perFunc, funcIdx
    {
      perFunc != funcIdx && perFunc.Length == funcIdx.Length == nrJited &&
      (nrJited > 0 ==> |rawJited| == |rawLinfo| && Split(rawJited, ksym, klen, funcIdx[..]) &&
                       forall f {:trigger perFunc[f]} :: 0 <= f < nrJited ==> funcIdx[f] + perFunc[f] == End(funcIdx[..], |rawJited|, f))
    }

    constructor (rawLinfo: seq<u32>, rawJited: seq<u64>, nrJited: nat)
      ensures this.rawLinfo == rawLinfo && this.rawJited == rawJited && this.nrJited == nrJited
      ensures perFunc != funcIdx && perFunc.Length == funcIdx.Length == nrJited && fresh(perFunc) && fresh(funcIdx)
    {
      this.rawLinfo, this.rawJited, this.nrJited := rawLinfo, rawJited, nrJited;
      perFunc, funcIdx := new nat[nrJited], new nat[nrJited];
      ksym, klen := [], [];
    }

    /** dissect_jited_func: find the split there is, or fail if there is none. */
    method Dissect(ksym: seq<u64>, klen: seq<u32>) returns (err: int)
      requires |rawJited| == |rawLinfo| > 0 && |ksym| == |klen| == nrJited > 0
      requires perFunc != funcIdx && perFunc.Length == funcIdx.Length == nrJited
      modifies this`ksym, this`klen, perFunc, funcIdx
      ensures err == 0 || err == -EINVAL
      ensures err == 0 ==> Valid() && this.ksym == ksym && this.klen == klen
      ensures err == 0 <==> exists idx :: Split(rawJited, ksym, klen, idx)
    {
      if ksym[0] != rawJited[0] { return -EINVAL; }
      funcIdx[0] := 0;
      var prev: nat, i: nat, f: nat := 0, 1, 1;
      ghost var idx := funcIdx[..];
      while i < |rawJited| && f < nrJited
        invariant 0 < f <= nrJited && prev < i <= |rawJited| && funcIdx[..] == idx && |idx| == nrJited && prev == idx[f - 1]
        invariant SplitUpTo(rawJited, ksym, klen, idx, f)
        invariant rawJited[prev] == ksym[f - 1]
        invariant f < nrJited ==> Increasing(rawJited, prev, i)
        invariant f < nrJited ==> forall j {:trigger rawJited[j]} :: prev < j < i ==> rawJited[j] != ksym[f]
        invariant forall g {:trigger perFunc[g]} :: 0 <= g < f - 1 ==> idx[g] + perFunc[g] == idx[g + 1]
        decreases |rawJited| - i
      {
        if ksym[f] == rawJited[i] {
          if !FitsLen(ksym[f - 1], rawJited[i - 1], klen[f - 1]) {
            NoSplitHere(ksym, klen, idx, f, prev, i);
            return -EINVAL;
          }
          NextFound(rawJited, ksym, klen, idx, f, prev, i);
          funcIdx[f] := i;
          perFunc[f - 1] := i - prev;
          idx, prev, f := idx[f := i], i, f + 1;
        } else if rawJited[i] <= rawJited[i - 1] {
          NoSplitHere(ksym, klen, idx, f, prev, i);
          return -EINVAL;
        }
        i := i + 1;
      }
      if f != nrJited {
        NoSplitHere(ksym, klen, idx, f, prev, i);
        return -EINVAL;
      }
      perFunc[nrJited - 1] := |rawJited| - prev;
      this.ksym, this.klen := ksym, klen;
      assert funcIdx[..] == idx && Split(rawJited, ksym, klen, idx);
      err := 0;
    }

    /**
     * bpf_prog_linfo__lfind_addr_func: within the records of a function, without the first few, the one just
     * before the first record whose address is above addr.
     */
    method LfindAddrFunc(addr: u64, func: nat, skip: nat) returns (r: Option<nat>)
      requires Valid()
      ensures r == None <==> func >= nrJited || skip >= perFunc[func] || Below(addr, rawJited, funcIdx[func] + skip)
      ensures r != None ==> JustBefore(rawJited, addr, funcIdx[func] + skip, End(funcIdx[..], |rawJited|, func), r.value)
    {
      if func >= nrJited { return None; }
      InSlice(func);
      var nr := perFunc[func];
      if skip >= nr { return None; }
      var start := funcIdx[func] + skip;
      if addr < rawJited[start] { return None; }
      nr := nr - skip;
      var i := 0;
      while i < nr
        invariant 0 <= i <= nr && forall j {:trigger rawJited[j]} :: start <= j < start + i ==> rawJited[j] <= addr
      {
        if addr < rawJited[start + i] { break; }
        i := i + 1;
      }
      r := Some(start + i - 1);
    }

    lemma InSlice(func: nat)
      requires Valid() && func < nrJited
      ensures perFunc[func] > 0 && funcIdx[func] + perFunc[func] == End(funcIdx[..], |rawJited|, func) <= |rawJited|
    {
      StartBeforeEnd(rawJited, ksym, klen, funcIdx[..], func);
    }

    /** bpf_prog_linfo__lfind: the same over the instruction offsets of all records. */
    method Lfind(insnOff: u32, skip: nat) returns (r: Option<nat>)
      ensures r == None <==> skip >= |rawLinfo| || insnOff < rawLinfo[skip]
      ensures r != None ==> JustBefore(rawLinfo, insnOff, skip, |rawLinfo|, r.value)
    {
      if skip >= |rawLinfo| { return None; }
      if insnOff < rawLinfo[skip] { return None; }
      var nr, i := |rawLinfo| - skip, 0;
      while i < nr
        invariant 0 <= i <= nr && forall j {:trigger rawLinfo[j]} :: skip <= j < skip + i ==> rawLinfo[j] <= insnOff
      {
        if insnOff < rawLinfo[skip + i] { break; }
        i := i + 1;
      }
      r := Some(skip + i - 1);
    }

    /**
     * In every function but the last the addresses increase, so there the record found is the last one at or below
     * the address looked for.
     */
    lemma FoundIsLast(addr: u64, func: nat, skip: nat, r: nat)
      requires Valid() && func + 1 < nrJited && skip < perFunc[func]
      requires JustBefore(rawJited, addr, funcIdx[func] + skip, End(funcIdx[..], |rawJited|, func), r)
      ensures forall j :: funcIdx[func] + skip <= j < funcIdx[func] + perFunc[func] ==> (rawJited[j] <= addr <==> j <= r)
    {
      InSlice(func);
      var idx, end := funcIdx[..], End(funcIdx[..], |rawJited|, func);
      PieceAt(rawJited, ksym, klen, idx, nrJited, func);
      assert forall j :: r + 1 < j < end ==> rawJited[r + 1] < rawJited[j];
    }

    /** With functions up to f found, the next one cannot start at i or later. */
    lemma NoSplitHere(ksym: seq<u64>, klen: seq<u32>, idx: seq<nat>, f: nat, prev: nat, i: nat)
      requires SplitUpTo(rawJited, ksym, klen, idx, f) && f < |idx| && prev == idx[f - 1] < i <= |rawJited|
      requires forall j {:trigger rawJited[j]} :: prev < j < i ==> rawJited[j] != ksym[f]
      requires i == |rawJited| || (rawJited[i] == ksym[f] && !FitsLen(ksym[f - 1], rawJited[i - 1], klen[f - 1])) ||
               (rawJited[i] != ksym[f] && rawJited[i] <= rawJited[i - 1])
      ensures !exists other :: Split(rawJited, ksym, klen, other)
    {
      forall other ensures !Split(rawJited, ksym, klen, other) {
        if Split(rawJited, ksym, klen, other) {
          SplitAgrees(rawJited, ksym, klen, idx, f, other);
          PieceAt(rawJited, ksym, klen, other, |other|, f - 1);
          NoPiece(rawJited, ksym, klen, f, prev, i, other[f]);
        }
      }
    }
  }

  lemma NextFound(addrs: seq<u64>, ksym: seq<u64>, klen: seq<u32>, idx: seq<nat>, f: nat, prev: nat, i: nat)
    requires SplitUpTo(addrs, ksym, klen, idx, f) && f < |idx| && prev == idx[f - 1] < i < |addrs|
    requires addrs[prev] == ksym[f - 1] && addrs[i] == ksym[f] && Increasing(addrs, prev, i) && FitsLen(ksym[f - 1], addrs[i - 1], klen[f - 1])
    requires forall j {:trigger addrs[j]} :: prev < j < i ==> addrs[j] != ksym[f]
    ensures SplitUpTo(addrs, ksym, klen, idx[f := i], f + 1)
  {
    var idx' := idx[f := i];
    forall g | 0 <= g < f ensures Piece(addrs, ksym, klen, g, idx'[g], idx'[g + 1]) {
      if g < f - 1 { PieceAt(addrs, ksym, klen, idx, f, g); }
    }
  }

  lemma NoPiece(addrs: seq<u64>, ksym: seq<u64>, klen: seq<u32>, f: nat, prev: nat, i: nat, end: nat)
    requires 0 < f < |ksym| == |klen| && prev < i <= |addrs|
    requires forall j {:trigger addrs[j]} :: prev < j < i ==> addrs[j] != ksym[f]
    requires i == |addrs| || (addrs[i] == ksym[f] && !FitsLen(ksym[f - 1], addrs[i - 1], klen[f - 1])) ||
             (addrs[i] != ksym[f] && addrs[i] <= addrs[i - 1] && prev < i)
    ensures !Piece(addrs, ksym, klen, f - 1, prev, end)
  {
    assert end <= |addrs| && Increasing(addrs, prev, end) && i < end ==> addrs[i - 1] < addrs[i];
  }
}
