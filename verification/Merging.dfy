/** What merging the hypothetical map into the canonical map brings about, pair by pair. */
module Merging {
  import opened Ints
  import opened BtfTypes
  import opened Meaning
  import opened Forest
  import opened HypotSpec
  import opened DedupInv
  import opened Copies
  import opened DedupResult

  /** Id y ends at a canonical structure. */
  ghost predicate EndsMapped(g: seq<BtfType>, m: seq<u32>, y: nat)
    requires IsForest(m) && |m| == |g| && y < |g|
  {
    IsComposite(g[Root(m, y)]) && Mapped(m[Root(m, y)])
  }

  ghost predicate EndsResolved(g: seq<BtfType>, m: seq<u32>, y: nat)
    requires IsForest(m) && |m| == |g| && y < |g|
  {
    !IsFwd(g[Root(m, y)])
  }

  /** What has been resolved, or ends at a canonical structure, still does. */
  ghost predicate Steady(g: seq<BtfType>, m0: seq<u32>, m: seq<u32>) {
    IsForest(m0) && IsForest(m) && |m0| == |m| == |g| &&
    (forall y {:trigger EndsResolved(g, m, y)} :: 0 <= y < |g| && EndsResolved(g, m0, y) ==> EndsResolved(g, m, y)) &&
    (forall y {:trigger EndsMapped(g, m, y)} :: 0 <= y < |g| && EndsMapped(g, m0, y) ==> EndsMapped(g, m, y))
  }

  /**
   * What becomes of canonical c and candidate h: a forward among the two is resolved to the other, and a structure
   * whose partner ended at a canonical structure ends at one too. With adjust, only canonical forwards are resolved.
   */
  ghost predicate PairMerged(g: seq<BtfType>, m0: seq<u32>, m: seq<u32>, adjust: bool, c: nat, h: nat)
    requires IsForest(m0) && IsForest(m) && |m0| == |m| == |g| && c < |g| && h < |g|
  {
    && (IsComposite(g[h]) ==> EndsResolved(g, m, c))
    && (!adjust && IsComposite(g[c]) ==> EndsResolved(g, m, h))
    && (!adjust && IsComposite(g[c]) && IsComposite(g[h]) && EndsMapped(g, m0, c) ==> EndsMapped(g, m, h))
  }

  lemma LinkSteady(g: seq<BtfType>, m: seq<u32>, x: nat, to: u32)
    requires IsForest(m) && |m| == |g| && x < |g| && to < |g| && x != to && IsRoot(m, x) && IsRoot(m, to)
    requires !IsFwd(g[to]) && (IsFwd(g[x]) || (IsComposite(g[x]) && Mapped(m[to]) && !Mapped(m[x])))
    ensures Steady(g, m, m[x := to])
  {
    var m' := m[x := to];
    LinkRoot(m, x, to, x);
    forall y | 0 <= y < |g|
      ensures (EndsResolved(g, m, y) ==> EndsResolved(g, m', y)) && (EndsMapped(g, m, y) ==> EndsMapped(g, m', y))
    {
      LinkRoot(m, x, to, y);
    }
  }

  lemma SteadyTrans(g: seq<BtfType>, m0: seq<u32>, m1: seq<u32>, m2: seq<u32>)
    requires Steady(g, m0, m1) && Steady(g, m1, m2)
    ensures Steady(g, m0, m2)
  {
    forall y | 0 <= y < |g|
      ensures (EndsResolved(g, m0, y) ==> EndsResolved(g, m2, y)) && (EndsMapped(g, m0, y) ==> EndsMapped(g, m2, y))
    {
      assert EndsResolved(g, m0, y) ==> EndsResolved(g, m1, y);
      assert EndsMapped(g, m0, y) ==> EndsMapped(g, m1, y);
    }
  }

  /** A pair merged in the middle of the work is merged at its end. */
  lemma PairStays(g: seq<BtfType>, m0: seq<u32>, m1: seq<u32>, m2: seq<u32>, m3: seq<u32>, adjust: bool, c: nat, h: nat)
    requires Steady(g, m0, m1) && Steady(g, m2, m3) && |m1| == |m2| == |g| && IsForest(m1) && IsForest(m2) && c < |g| && h < |g|
    requires PairMerged(g, m1, m2, adjust, c, h)
    ensures PairMerged(g, m0, m3, adjust, c, h)
  {
    assert EndsMapped(g, m0, c) ==> EndsMapped(g, m1, c);
    assert EndsMapped(g, m2, h) ==> EndsMapped(g, m3, h);
    assert EndsResolved(g, m2, h) ==> EndsResolved(g, m3, h);
    assert EndsResolved(g, m2, c) ==> EndsResolved(g, m3, c);
  }

  /** A structure ends at a type that is no forward. */
  lemma StructResolved(g: seq<BtfType>, m: seq<u32>, x: nat)
    requires Closed(g) && MapInv(g, m) && x < |g| && IsComposite(g[x])
    ensures EndsResolved(g, m, x)
  {
    var rank: seq<nat> :| Ranked(m, rank) && Root(m, x) == RootBy(m, rank, x);
    RootNotForward(g, m, rank, x);
  }

  /** Where the two of a pair end once the root of one, y, has been linked to that of the other, z. */
  lemma LinkedPair(g: seq<BtfType>, m: seq<u32>, x: nat, to: u32, y: nat, z: nat)
    requires IsForest(m) && |m| == |g| && x < |g| && to < |g| && x != to && IsRoot(m, x) && IsRoot(m, to)
    requires y < |g| && z < |g| && Root(m, y) == x && Root(m, z) == to
    ensures IsForest(m[x := to]) && Root(m[x := to], y) == to == Root(m[x := to], z) && m[x := to][to] == m[to]
  {
    LinkRoot(m, x, to, y);
    LinkRoot(m, x, to, z);
  }

  /** Both ends of a pair are structures where the pair is. */
  lemma EndsOfPair(g: seq<BtfType>, m: seq<u32>, c: nat, h: nat)
    requires Closed(g) && MapInv(g, m) && c < |g| && h < |g|
    ensures IsComposite(g[c]) ==> IsComposite(g[Root(m, c)])
    ensures IsComposite(g[h]) ==> IsComposite(g[Root(m, h)])
  {
    StructEnd(g, m, c);
    StructEnd(g, m, h);
  }

  lemma StructEnd(g: seq<BtfType>, m: seq<u32>, x: nat)
    requires Closed(g) && MapInv(g, m) && x < |g|
    ensures IsComposite(g[x]) ==> IsComposite(g[Root(m, x)])
  {
    if IsComposite(g[x]) {
      StructResolved(g, m, x);
      AlikeRoot(g, m, x);
      AlikeKey(g, x, Root(m, x));
    }
  }

  lemma SteadySelf(g: seq<BtfType>, m: seq<u32>)
    requires IsForest(m) && |m| == |g|
    ensures Steady(g, m, m)
  {
  }

  /** The pairs of the first k slots on the list are merged. */
  ghost predicate MergedUpTo(g: seq<BtfType>, m0: seq<u32>, m: seq<u32>, adjust: bool, hyp: seq<u32>, list: seq<u32>, k: nat) {
    IsForest(m0) && IsForest(m) && |m0| == |m| == |g| == |hyp| && k <= |list| &&
    forall j {:trigger list[j]} :: 0 <= j < k ==> list[j] < |g| && hyp[list[j]] < |g| && PairMerged(g, m0, m, adjust, list[j], hyp[list[j]])
  }

  lemma MergedNext(g: seq<BtfType>, m0: seq<u32>, m: seq<u32>, m': seq<u32>, adjust: bool, hyp: seq<u32>, list: seq<u32>, k: nat, next: nat)
    requires MergedUpTo(g, m0, m, adjust, hyp, list, k) && k < |list| && next == k + 1 && Steady(g, m0, m) && Steady(g, m, m')
    requires list[k] < |g| && hyp[list[k]] < |g| && PairMerged(g, m, m', adjust, list[k], hyp[list[k]])
    ensures MergedUpTo(g, m0, m', adjust, hyp, list, next) && Steady(g, m0, m')
  {
    SteadySelf(g, m0);
    SteadySelf(g, m');
    forall j | 0 <= j < next ensures list[j] < |g| && hyp[list[j]] < |g| && PairMerged(g, m0, m', adjust, list[j], hyp[list[j]]) {
      if j < k { PairStays(g, m0, m0, m, m', adjust, list[j], hyp[list[j]]); } else { PairStays(g, m0, m, m', m', adjust, list[j], hyp[list[j]]); }
    }
    SteadyTrans(g, m0, m, m');
  }

  lemma MergedAll(g: seq<BtfType>, m0: seq<u32>, m: seq<u32>, adjust: bool, hyp: seq<u32>, list: seq<u32>)
    requires HypotOk(|g|, hyp, list) && MergedUpTo(g, m0, m, adjust, hyp, list, |list|)
    ensures forall c :: 0 <= c < |g| && Mapped(hyp[c]) ==> PairMerged(g, m0, m, adjust, c, hyp[c])
  {
    forall c: u32 | c < |g| && Mapped(hyp[c]) ensures PairMerged(g, m0, m, adjust, c, hyp[c]) {
      assert c in list;
    }
  }
}
