/** From the canonical map to the final type ids, and why nothing is lost on the way. */
module DedupResult {
  import opened Ints
  import opened BtfTypes
  import opened Meaning
  import opened Forest
  import opened DedupInv
  import opened RefInv
  import opened Copies

  ghost predicate AllMapped(m: seq<u32>) {
    forall x {:trigger m[x]} :: 0 <= x < |m| ==> Mapped(m[x])
  }

  // ----- compaction numbers the canonical ids

  /** How many ids in lo..hi are canonical. */
  function CountRoots(m: seq<u32>, lo: nat, hi: nat): nat
    requires lo <= hi <= |m|
  {
    if lo == hi then 0 else CountRoots(m, lo, hi - 1) + if m[hi - 1] == hi - 1 then 1 else 0
  }

  /** The id a canonical type gets: base ids stay, the others are numbered consecutively. */
  function NewId(m: seq<u32>, start: nat, x: nat): nat
    requires start <= |m| && x <= |m|
  {
    if x < start then x else start + CountRoots(m, start, x)
  }

  lemma {:induction false} CountSplit(m: seq<u32>, lo: nat, mid: nat, hi: nat)
    requires lo <= mid <= hi <= |m|
    ensures CountRoots(m, lo, hi) == CountRoots(m, lo, mid) + CountRoots(m, mid, hi)
    ensures CountRoots(m, lo, hi) <= hi - lo
    decreases hi
  {
    if mid < hi { CountSplit(m, lo, mid, hi - 1); } else if lo < hi { CountSplit(m, lo, mid - 1, hi - 1); }
  }

  /** Canonical ids are renumbered in order, without gaps and without moving up. */
  lemma NewIdIncreasing(m: seq<u32>, start: nat, x: nat, y: nat)
    requires start <= |m| && x < y <= |m| && (start <= x ==> m[x] == x)
    ensures NewId(m, start, x) < NewId(m, start, y) <= y
  {
    if start <= x {
      CountSplit(m, start, x, y);
      CountSplit(m, x, x + 1, y);
      assert CountRoots(m, x, x + 1) == 1;
    } else if start <= y {
      CountSplit(m, start, start, y);
    }
  }

  /** Every new id below the new type count is the new id of exactly one base or canonical id. */
  lemma {:induction false} NewIdOnto(m: seq<u32>, start: nat, n: nat, y: nat) returns (x: nat)
    requires start <= n <= |m| && y < NewId(m, start, n)
    ensures x < n && (start <= x ==> m[x] == x) && NewId(m, start, x) == y
    decreases n
  {
    if y < start {
      x := y;
    } else if m[n - 1] == n - 1 && y == NewId(m, start, n - 1) {
      x := n - 1;
    } else {
      x := NewIdOnto(m, start, n - 1, y);
    }
  }

  ghost function Final(m: seq<u32>, start: nat, x: nat): nat
    requires IsForest(m) && start <= |m| && x < |m|
  {
    NewId(m, start, Root(m, x))
  }

  lemma FinalBelow(m: seq<u32>, start: nat, x: nat)
    requires IsForest(m) && Settled(m) && AllMapped(m) && start <= |m| && x < |m|
    ensures Final(m, start, x) < NewId(m, start, |m|) <= |m|
  {
    SettledRoot(m, x);
    NewIdIncreasing(m, start, Root(m, x), |m|);
  }

  ghost function FinalId(m: seq<u32>, start: nat, x: nat): (id: u32)
    requires IsForest(m) && Settled(m) && AllMapped(m) && start <= |m| && x < |m|
    ensures id == Final(m, start, x)
  {
    FinalBelow(m, start, x);
    Final(m, start, x)
  }

  ghost function FinalIds(m: seq<u32>, start: nat): (fin: seq<u32>)
    requires IsForest(m) && Settled(m) && AllMapped(m) && start <= |m|
    ensures |fin| == |m|
    ensures forall x {:trigger fin[x]} :: 0 <= x < |m| ==> fin[x] == Final(m, start, x)
  {
    seq(|m|, x requires 0 <= x < |m| => FinalId(m, start, x))
  }

  // ----- where the types lie in the type section

  function SizeSum(types: seq<BtfType>, lo: nat, hi: nat): int
    requires lo <= hi <= |types|
  {
    if lo == hi then 0 else SizeSum(types, lo, hi - 1) + TypeSize(types[hi - 1])
  }

  /** The offsets of the types from lo up to hi are consecutive, starting at 0. */
  ghost predicate Tiled(types: seq<BtfType>, offs: seq<int>, lo: nat, hi: nat) {
    lo <= hi <= |types| && hi - lo <= |offs| &&
    forall x {:trigger OffsetAt(types, offs, lo, x)} :: lo <= x < hi ==> OffsetAt(types, offs, lo, x)
  }

  /** Type x lies behind all from lo on that come before it. */
  ghost predicate OffsetAt(types: seq<BtfType>, offs: seq<int>, lo: nat, x: nat) {
    lo <= x <= |types| && x - lo < |offs| && offs[x - lo] == SizeSum(types, lo, x)
  }

  /** Every type is of a kind whose size is known. */
  ghost predicate KnownSizes(types: seq<BtfType>, lo: nat) {
    forall x {:trigger TypeSize(types[x])} :: lo <= x < |types| ==> 0 <= TypeSize(types[x])
  }

  /** The types of a BTF lie one after the other and fill its type section. */
  ghost predicate FillsSection(h: seq<BtfType>, offs: seq<int>, start: nat, len: int) {
    KnownSizes(h, start) && Tiled(h, offs, start, |h|) && len == SizeSum(h, start, |h|)
  }

  lemma SameInfo(g: seq<BtfType>, start: nat, types: seq<BtfType>, x: nat)
    requires Closed(g) && Rewritten(g, start, types) && x < |g|
    ensures types[x].info == g[x].info
  {
    assert RewrittenAt(g, start, types, x);
    assert Label(types[x]).info == Label(g[x]).info;
  }

  lemma {:induction false} SizeSumLabels(g: seq<BtfType>, start: nat, types: seq<BtfType>, hi: nat)
    requires Closed(g) && Rewritten(g, start, types) && start <= hi <= |g|
    ensures SizeSum(types, start, hi) == SizeSum(g, start, hi)
    decreases hi
  {
    if start < hi {
      SameInfo(g, start, types, hi - 1);
      SizeSumLabels(g, start, types, hi - 1);
    }
  }

  /** Rewriting references moves no type. */
  lemma RewrittenTiled(g: seq<BtfType>, start: nat, types: seq<BtfType>, offs: seq<int>)
    requires Closed(g) && Rewritten(g, start, types) && Tiled(g, offs, start, |g|) && KnownSizes(g, start)
    ensures Tiled(types, offs, start, |g|) && SizeSum(types, start, |g|) == SizeSum(g, start, |g|) && KnownSizes(types, start)
  {
    forall x | start <= x < |g| ensures OffsetAt(types, offs, start, x) {
      SizeSumLabels(g, start, types, x);
      assert OffsetAt(g, offs, start, x);
    }
    SizeSumLabels(g, start, types, |g|);
    forall x | start <= x < |types| ensures 0 <= TypeSize(types[x]) {
      SameInfo(g, start, types, x);
      assert 0 <= TypeSize(g[x]);
    }
  }

  lemma {:induction false} SizeSumSame(types: seq<BtfType>, other: seq<BtfType>, lo: nat, hi: nat)
    requires lo <= hi <= |types| && hi <= |other| && types[..hi] == other[..hi]
    ensures SizeSum(types, lo, hi) == SizeSum(other, lo, hi)
    decreases hi
  {
    if lo < hi {
      assert types[..hi - 1] == types[..hi][..hi - 1] && other[..hi - 1] == other[..hi][..hi - 1];
      assert types[hi - 1] == types[..hi][hi - 1] && other[hi - 1] == other[..hi][hi - 1];
      SizeSumSame(types, other, lo, hi - 1);
    }
  }

  /** The state of compaction before type id is looked at: canonical types below it are moved down. */
  ghost predicate Compacted(types0: seq<BtfType>, offs0: seq<int>, m: seq<u32>, start: nat, id: nat,
                            types: seq<BtfType>, offs: seq<int>, hyp: seq<u32>, p: int)
  {
    |types| == |types0| == |m| == |hyp| && |offs| == |offs0| && 1 <= start <= id <= |m| && |m| <= BTF_MAX_NR_TYPES + 1 &&
    (forall x {:trigger NewId(m, start, x)} :: start <= x < id && m[x] == x && NewId(m, start, x) < |types| ==>
      types[NewId(m, start, x)] == types0[x] && hyp[x] == NewId(m, start, x)) &&
    (forall x {:trigger hyp[x]} :: 0 <= x < start ==> hyp[x] == x) &&
    (forall x {:trigger hyp[x]} :: start <= x < |m| && (x >= id || m[x] != x) ==> hyp[x] == UNPROCESSED) &&
    (forall x {:trigger types[x]} :: (0 <= x < start || id <= x < |m|) ==> types[x] == types0[x]) &&
    (forall j {:trigger offs[j]} :: id - start <= j < |offs| ==> offs[j] == offs0[j]) &&
    NewId(m, start, id) <= id &&
    Tiled(types, offs, start, NewId(m, start, id)) && p == SizeSum(types, start, NewId(m, start, id)) <= SizeSum(types0, start, id)
  }

  lemma CompactSkip(types0: seq<BtfType>, offs0: seq<int>, m: seq<u32>, start: nat, id: nat,
                    types: seq<BtfType>, offs: seq<int>, hyp: seq<u32>, p: int)
    requires Compacted(types0, offs0, m, start, id, types, offs, hyp, p) && id < |m| && m[id] != id && KnownSizes(types0, start)
    ensures Compacted(types0, offs0, m, start, id + 1, types, offs, hyp, p)
    ensures NewId(m, start, id + 1) == NewId(m, start, id)
  {
    assert 0 <= TypeSize(types0[id]);
  }

  lemma CompactMove(types0: seq<BtfType>, offs0: seq<int>, m: seq<u32>, start: nat, id: u32,
                    types: seq<BtfType>, offs: seq<int>, hyp: seq<u32>, p: int)
    requires Compacted(types0, offs0, m, start, id, types, offs, hyp, p) && id < |m| && m[id] == id && |offs| == |m| - start
    requires Tiled(types0, offs0, start, |m|)
    ensures var next := NewId(m, start, id);
            next <= id && p <= offs[id - start] == offs0[id - start] &&
            Compacted(types0, offs0, m, start, id + 1, types[next := types[id]], offs[next - start := p], hyp[id := next], p + TypeSize(types[id]))
  {
    var next := NewId(m, start, id);
    var types', offs', hyp' := types[next := types[id]], offs[next - start := p], hyp[id := next];
    assert NewId(m, start, id + 1) == next + 1;
    assert OffsetAt(types0, offs0, start, id);
    forall x | start <= x < id + 1 && m[x] == x && NewId(m, start, x) < |types|
      ensures types'[NewId(m, start, x)] == types0[x] && hyp'[x] == NewId(m, start, x)
    {
      if x < id { NewIdIncreasing(m, start, x, id); }
    }
    TiledAppend(types, offs, start, next, types', offs', p);
  }

  /** Replacing a type leaves the sums up to it as they are. */
  lemma SizeSumBefore(types: seq<BtfType>, next: nat, t: BtfType, lo: nat, hi: nat)
    requires lo <= hi <= next < |types|
    ensures SizeSum(types[next := t], lo, hi) == SizeSum(types, lo, hi)
  {
    assert types[next := t][..hi] == types[..hi];
    SizeSumSame(types, types[next := t], lo, hi);
  }

  lemma TiledAppend(types: seq<BtfType>, offs: seq<int>, start: nat, next: nat, types': seq<BtfType>, offs': seq<int>, p: int)
    requires start <= next < |types| == |types'| && next - start < |offs| == |offs'|
    requires Tiled(types, offs, start, next) && p == SizeSum(types, start, next)
    requires types' == types[next := types'[next]] && offs' == offs[next - start := p]
    ensures Tiled(types', offs', start, next + 1) && p == SizeSum(types', start, next)
  {
    SizeSumBefore(types, next, types'[next], start, next);
    forall x | start <= x < next + 1 ensures OffsetAt(types', offs', start, x) {
      NextTiled(types, offs, start, next, types', offs', p, x);
    }
  }

  lemma NextTiled(types: seq<BtfType>, offs: seq<int>, start: nat, next: nat, types': seq<BtfType>, offs': seq<int>, p: int, x: nat)
    requires start <= x <= next < |types| == |types'| && next - start < |offs| == |offs'|
    requires Tiled(types, offs, start, next) && p == SizeSum(types, start, next)
    requires types' == types[next := types'[next]] && offs' == offs[next - start := p]
    ensures OffsetAt(types', offs', start, x)
  {
    SizeSumBefore(types, next, types'[next], start, x);
    assert x < next ==> OffsetAt(types, offs, start, x);
  }

  /** The references of types lo..hi are replaced by f, everything else is as it was. */
  ghost predicate Remapped(types0: seq<BtfType>, types: seq<BtfType>, lo: nat, hi: nat, f: seq<u32>) {
    |types| == |types0| && hi <= |types| &&
    (forall x {:trigger types[x]} :: 0 <= x < |types| && !(lo <= x < hi) ==> types[x] == types0[x]) &&
    (forall x {:trigger types[x]} :: lo <= x < hi ==> RefsBelow(types0[x], |f|) && types[x] == MapRefs(types0[x], f))
  }

  // ----- the final graph

  /** x is a type that survives, and y is where it ends up. */
  ghost predicate Slot(m: seq<u32>, start: nat, x: nat, y: nat) {
    start <= |m| && x < |m| && (start <= x ==> m[x] == x) && y == NewId(m, start, x)
  }

  /**
   * h holds the base types as they were and, behind them, the canonical types with every
   * reference replaced by its final id.
   */
  ghost predicate IsResult(g: seq<BtfType>, start: nat, types: seq<BtfType>, m: seq<u32>, h: seq<BtfType>)
    requires WfGraph(g, start) && Rewritten(g, start, types) && |m| == |g|
    requires IsForest(m) && Settled(m) && AllMapped(m)
  {
    |h| == NewId(m, start, |m|) &&
    (forall x {:trigger h[x]} :: 0 <= x < start && x < |h| ==> h[x] == g[x]) &&
    (forall x {:trigger NewId(m, start, x)} :: start <= x < |m| && m[x] == x && NewId(m, start, x) < |h| ==>
      RefsBelow(types[x], |g|) && h[NewId(m, start, x)] == MapRefs(types[x], FinalIds(m, start)))
  }

  ghost predicate Finished(g: seq<BtfType>, start: nat, types: seq<BtfType>, m: seq<u32>, h: seq<BtfType>) {
    WfGraph(g, start) && Rewritten(g, start, types) && |m| == |g| && MapInv(g, m) && Settled(m) && AllMapped(m) &&
    IsResult(g, start, types, m, h)
  }

  lemma SlotShape(g: seq<BtfType>, start: nat, types: seq<BtfType>, m: seq<u32>, h: seq<BtfType>, x: nat, y: nat)
    requires Finished(g, start, types, m, h) && Slot(m, start, x, y)
    ensures y < |h| && Label(h[y]) == Label(g[x]) && |Refs(h[y])| == |Refs(g[x])| && RefsBelow(h[y], |h|)
    ensures WfType(h[y])
  {
    NewIdIncreasing(m, start, x, |m|);
    assert RewrittenAt(g, start, types, x) && RefsBelow(g[x], |g|) && WfType(g[x]);
    if x < start {
      assert RefsBelow(g[x], start);
      CountSplit(m, start, start, |m|);
    } else {
      var fin := FinalIds(m, start);
      MapRefsRefs(types[x], fin);
      LabelRefs(types[x], g[x]);
      var rs := Refs(h[y]);
      forall i | 0 <= i < |rs| ensures rs[i] < |h| {
        assert rs[i] == fin[Refs(types[x])[i]];
        FinalBelow(m, start, Refs(types[x])[i]);
      }
    }
  }

  lemma ResultClosed(g: seq<BtfType>, start: nat, types: seq<BtfType>, m: seq<u32>, h: seq<BtfType>)
    requires Finished(g, start, types, m, h)
    ensures Closed(h) && WfGraph(h, start)
  {
    CountSplit(m, start, start, |m|);
    forall y | 0 <= y < |h| ensures RefsBelow(h[y], |h|) && WfType(h[y]) {
      var x := NewIdOnto(m, start, |m|, y);
      SlotShape(g, start, types, m, h, x, y);
    }
    forall y | 0 <= y < start ensures RefsBelow(h[y], start) { assert RefsBelow(g[y], start); }
  }

  // ----- meaning carries over

  lemma NominalShape(a: BtfType, b: BtfType)
    requires Label(a) == Label(b)
    ensures NominalView(a).shape == NominalView(b).shape
    ensures (NominalView(a).refs == [] && NominalView(b).refs == []) || (NominalView(a).refs == Refs(a) && NominalView(b).refs == Refs(b))
  {
    assert Label(a).info == Label(b).info && Label(a).size == Label(b).size;
  }

  /** As LabelStep, across two graphs, for types that are not resolved through a definition. */
  lemma CrossStep(mode: Mode, g: seq<BtfType>, h: seq<BtfType>, k: nat, x: nat, y: nat)
    requires Closed(g) && Closed(h) && x < |g| && y < |h| && Label(g[x]) == Label(h[y])
    requires RefsBelow(g[x], |g|) && RefsBelow(h[y], |h|)
    requires mode == Linked ==> !HasDef(g, Label(g[x])) && !HasDef(h, Label(h[y]))
    requires KidsEqual(mode, g, h, k, Refs(g[x]), Refs(h[y]))
    ensures Unfold(mode, g, k + 1, x) == Unfold(mode, h, k + 1, y)
  {
    NominalShape(g[x], h[y]);
    UnfoldStep(mode, g, h, k, x, y);
  }

  /** What defines a label is itself not a forward, and resolves only to further definitions of it. */
  lemma {:induction false} RootDefines(g: seq<BtfType>, m: seq<u32>, d: nat, shape: BtfType)
    requires Closed(g) && MapInv(g, m) && d < |g| && Defines(g[d], shape)
    ensures Defines(g[Root(m, d)], shape)
  {
    AlikeRoot(g, m, d);
    var rank: seq<nat> :| Ranked(m, rank) && Root(m, d) == RootBy(m, rank, d);
    RootNotForward(g, m, rank, d);
    var r := Root(m, d);
    assert Same(Nominal, g, d, r);
    AlikeKey(g, d, r);
    if IsAnyEnum(g[d]) {
      assert Unfold(Nominal, g, 1, d).shape == Unfold(Nominal, g, 1, r).shape;
      assert NominalView(g[d]).shape == NominalView(g[r]).shape;
      assert NominalView(g[d]).shape.info == g[d].info.(vlen := 0);
      assert NominalView(g[r]).shape.info == g[r].info.(vlen := 0);
    }
  }

  lemma {:induction false} RootNotForward(g: seq<BtfType>, m: seq<u32>, rank: seq<nat>, d: nat)
    requires Closed(g) && MapInv(g, m) && Ranked(m, rank) && d < |g| && !IsForward(g[d])
    ensures !IsForward(g[RootBy(m, rank, d)])
    decreases rank[d]
  {
    if !IsRoot(m, d) {
      assert !IsForward(g[m[d]]);
      RootNotForward(g, m, rank, m[d]);
    }
  }

  lemma SameLabelDefines(a: BtfType, b: BtfType, shape: BtfType)
    requires Label(a) == Label(b)
    ensures Defines(a, shape) == Defines(b, shape)
  {
    assert Label(a).info == Label(b).info && Label(a).size == Label(b).size;
  }

  /** The result defines a label exactly if the input does, and each definition in it comes from one there. */
  lemma ResultDefines(g: seq<BtfType>, start: nat, types: seq<BtfType>, m: seq<u32>, h: seq<BtfType>, shape: BtfType)
    requires Finished(g, start, types, m, h)
    ensures HasDef(g, shape) == HasDef(h, shape)
  {
    if HasDef(g, shape) {
      var d :| 0 <= d < |g| && Defines(g[d], shape);
      RootDefines(g, m, d, shape);
      var r := Root(m, d);
      SettledRoot(m, d);
      SlotShape(g, start, types, m, h, r, NewId(m, start, r));
      SameLabelDefines(g[r], h[NewId(m, start, r)], shape);
    }
    if HasDef(h, shape) {
      var e :| 0 <= e < |h| && Defines(h[e], shape);
      var x := NewIdOnto(m, start, |m|, e);
      SlotShape(g, start, types, m, h, x, e);
      SameLabelDefines(g[x], h[e], shape);
    }
  }

  lemma {:induction false} KeptMeaning(mode: Mode, g: seq<BtfType>, start: nat, types: seq<BtfType>, m: seq<u32>, h: seq<BtfType>,
                                       k: nat, x: nat, y: nat)
    requires Finished(g, start, types, m, h) && Closed(h) && Linkable(mode, g) && Slot(m, start, x, y) && y < |h|
    ensures Unfold(mode, g, k, x) == Unfold(mode, h, k, y)
    decreases k, if HasDef(g, Label(g[x])) then 1 else 0
  {
    if k > 0 {
      SlotShape(g, start, types, m, h, x, y);
      ResultDefines(g, start, types, m, h, Label(g[x]));
      if mode == Linked && HasDef(g, Label(g[x])) {
        var e := Target(h, y);
        var z := NewIdOnto(m, start, |m|, e);
        SlotShape(g, start, types, m, h, z, e);
        SameLabelDefines(g[z], h[e], Label(g[x]));
        DefinesLabel(g[z], g[x]);
        DefinesLabel(h[e], h[y]);
        DefinitionIsOwnTarget(g, z, x);
        DefinitionIsOwnTarget(h, e, y);
        KeptMeaning(mode, g, start, types, m, h, k, z, e);
        DefinitionMeansForward(mode, g, z, x);
        assert ViewOf(Linked, h, e) == ViewOf(Linked, h, y);
        SameViewSame(h, k, e, y);
      } else {
        assert RefsBelow(g[x], |g|);
        KeptStep(mode, g, start, types, m, h, k - 1, x, y);
      }
    }
  }

  lemma SameViewSame(h: seq<BtfType>, k: nat, x: nat, y: nat)
    requires Closed(h) && x < |h| && y < |h| && k > 0 && ViewOf(Linked, h, x) == ViewOf(Linked, h, y)
    ensures Unfold(Linked, h, k, x) == Unfold(Linked, h, k, y)
  {
    UnfoldStep(Linked, h, h, k - 1, x, y);
  }

  lemma {:induction false} KeptStep(mode: Mode, g: seq<BtfType>, start: nat, types: seq<BtfType>, m: seq<u32>, h: seq<BtfType>,
                                    k: nat, x: nat, y: nat)
    requires Finished(g, start, types, m, h) && Closed(h) && Linkable(mode, g) && Slot(m, start, x, y) && y < |h|
    requires RefsBelow(g[x], |g|) && RefsBelow(h[y], |h|) && |Refs(g[x])| == |Refs(h[y])|
    requires Label(g[x]) == Label(h[y]) && (mode == Linked ==> !HasDef(g, Label(g[x])) && !HasDef(h, Label(h[y])))
    ensures Unfold(mode, g, k + 1, x) == Unfold(mode, h, k + 1, y)
    decreases k, 3
  {
    var os, rs := Refs(g[x]), Refs(h[y]);
    forall i | 0 <= i < |os| ensures Unfold(mode, g, k, os[i]) == Unfold(mode, h, k, rs[i]) {
      if x < start {
        assert RefsBelow(g[x], start);
        KeptMeaning(mode, g, start, types, m, h, k, os[i], os[i]);
      } else {
        assert RewrittenAt(g, start, types, x);
        var ts := Refs(types[x]);
        MapRefsRefs(types[x], FinalIds(m, start));
        assert Alike(g, os[i], ts[i]) && Same(mode, g, os[i], ts[i]);
        FinalMeaning(mode, g, start, types, m, h, k, ts[i]);
      }
    }
    CrossStep(mode, g, h, k, x, y);
  }

  /** Every original id means, in the input, what its final id means in the result. */
  lemma {:induction false} FinalMeaning(mode: Mode, g: seq<BtfType>, start: nat, types: seq<BtfType>, m: seq<u32>, h: seq<BtfType>,
                                        k: nat, x: nat)
    requires Finished(g, start, types, m, h) && Closed(h) && Linkable(mode, g) && x < |g|
    ensures Final(m, start, x) < |h|
    ensures Unfold(mode, g, k, x) == Unfold(mode, h, k, Final(m, start, x))
    decreases k, 2
  {
    var r := Root(m, x);
    FinalBelow(m, start, x);
    SettledRoot(m, x);
    AlikeRoot(g, m, x);
    assert Same(mode, g, x, r);
    KeptMeaning(mode, g, start, types, m, h, k, r, NewId(m, start, r));
  }

  // ----- nothing is kept twice

  /** FWD descriptors carry 0 where other kinds carry a type id. */
  ghost predicate FwdsBare(g: seq<BtfType>) {
    forall x {:trigger IsFwd(g[x])} :: 0 <= x < |g| && IsFwd(g[x]) ==> g[x].size == 0
  }

  /** No primitive or reference type of the result equals another type of it, the base included. */
  ghost predicate MaximallyShared(h: seq<BtfType>, start: nat, bareFwds: bool) {
    forall a, b {:trigger h[a], h[b]} :: 0 <= a < b < |h| && start <= b && h[a] == h[b] ==>
      IsComposite(h[b]) || NeverDeduped(h[b]) || (IsFwd(h[b]) && !bareFwds)
  }

  /** Distinct surviving references stay distinct. */
  lemma SelfMappedFinal(m: seq<u32>, start: nat, r: nat, s: nat)
    requires IsForest(m) && Settled(m) && AllMapped(m) && start <= |m| && r < |m| && s < |m|
    requires m[s] == s && (m[r] == r || r < start)
    requires Final(m, start, s) == if m[r] == r then Final(m, start, r) else r
    ensures r == s
  {
    RootStep(m, s);
    RootStep(m, r);
    assert NewId(m, start, s) == NewId(m, start, r);
    if r < s { NewIdIncreasing(m, start, r, s); } else if s < r { NewIdIncreasing(m, start, s, r); }
  }

  lemma {:induction false} SharedRefs(g: seq<BtfType>, start: nat, types: seq<BtfType>, m: seq<u32>, h: seq<BtfType>, x: nat, z: nat)
    requires Finished(g, start, types, m, h) && x < z < |m| && start <= z && m[z] == z && (start <= x ==> m[x] == x)
    requires AllSelfMapped(m, Refs(types[z])) && (start <= x ==> AllSelfMapped(m, Refs(types[x])))
    requires NewId(m, start, x) < |h| && NewId(m, start, z) < |h| && h[NewId(m, start, x)] == h[NewId(m, start, z)]
    ensures types[x] == types[z]
  {
    var fin := FinalIds(m, start);
    assert RewrittenAt(g, start, types, x) && RewrittenAt(g, start, types, z);
    MapRefsRefs(types[z], fin);
    var xs, zs, hs := Refs(types[x]), Refs(types[z]), Refs(h[NewId(m, start, z)]);
    if start <= x { MapRefsRefs(types[x], fin); } else { assert RefsBelow(g[x], start); }
    forall i | 0 <= i < |xs| ensures xs[i] == zs[i] {
      assert hs[i] == fin[zs[i]];
      if start <= x {
        assert hs[i] == fin[xs[i]];
      } else {
        assert hs[i] == xs[i] && xs[i] < start;
        RootStep(m, xs[i]);
      }
      SelfMappedFinal(m, start, xs[i], zs[i]);
    }
    LabelRefs(types[x], types[z]);
  }

  lemma ResultShared(g: seq<BtfType>, start: nat, types: seq<BtfType>, m: seq<u32>, table: map<u32, nat>, h: seq<BtfType>)
    requires RefCore(g, start, types, m, table) && Finished(g, start, types, m, h) && KnownSizes(g, start)
    ensures MaximallyShared(h, start, FwdsBare(g))
  {
    forall a, b | 0 <= a < b < |h| && start <= b && h[a] == h[b]
      ensures IsComposite(h[b]) || NeverDeduped(h[b]) || (IsFwd(h[b]) && !FwdsBare(g))
    {
      var x := NewIdOnto(m, start, |m|, a);
      var z := NewIdOnto(m, start, |m|, b);
      InOrder(m, start, x, z);
      EqualSurvivors(g, start, types, m, table, h, x, z);
    }
  }

  lemma InOrder(m: seq<u32>, start: nat, x: nat, z: nat)
    requires start <= |m| && x < |m| && z < |m| && (start <= x ==> m[x] == x) && (start <= z ==> m[z] == z)
    requires NewId(m, start, x) < NewId(m, start, z)
    ensures x < z
  {
    if z < x { NewIdIncreasing(m, start, z, x); }
  }


  lemma EqualSurvivors(g: seq<BtfType>, start: nat, types: seq<BtfType>, m: seq<u32>, table: map<u32, nat>, h: seq<BtfType>,
                       x: u32, z: u32)
    requires RefCore(g, start, types, m, table) && Finished(g, start, types, m, h) && KnownSizes(g, start)
    requires x < z < |m| && start <= z && m[z] == z && (start <= x ==> m[x] == x)
    requires NewId(m, start, x) < |h| && NewId(m, start, z) < |h| && h[NewId(m, start, x)] == h[NewId(m, start, z)]
    ensures var t := h[NewId(m, start, z)]; IsComposite(t) || NeverDeduped(t) || (IsFwd(t) && !FwdsBare(g))
  {
    SlotShape(g, start, types, m, h, x, NewId(m, start, x));
    SlotShape(g, start, types, m, h, z, NewId(m, start, z));
    SameInfo(g, start, types, x);
    SameInfo(g, start, types, z);
    var t := h[NewId(m, start, z)];
    assert Label(t).info == Label(g[z]).info == Label(g[x]).info;
    assert 0 <= TypeSize(g[z]) && t.info == g[z].info == g[x].info;
    if !IsComposite(t) && !NeverDeduped(t) && (IsFwd(t) ==> FwdsBare(g)) {
      assert x in table && z in table;
      EqualSources(g, start, types, m, table, h, x, z);
    }
  }

  /** Equal survivors were already equal before the references got their final ids. */
  lemma EqualSources(g: seq<BtfType>, start: nat, types: seq<BtfType>, m: seq<u32>, table: map<u32, nat>, h: seq<BtfType>,
                     x: u32, z: u32)
    requires RefCore(g, start, types, m, table) && Finished(g, start, types, m, h)
    requires x < z < |m| && start <= z && m[z] == z && (start <= x ==> m[x] == x) && x in table && z in table
    requires NewId(m, start, x) < |h| && NewId(m, start, z) < |h| && h[NewId(m, start, x)] == h[NewId(m, start, z)]
    requires Label(g[x]) == Label(g[z]) && g[x].info == g[z].info == types[x].info == types[z].info
    requires !IsComposite(g[z]) && !NeverDeduped(g[z]) && (IsFwd(g[z]) ==> FwdsBare(g))
    ensures types[x] == types[z]
  {
    assert RewrittenAt(g, start, types, x) && RewrittenAt(g, start, types, z);
    if IsRewritten(g[z]) {
      SharedRefs(g, start, types, m, h, x, z);
    } else if IsFwd(g[z]) {
      assert IsFwd(g[x]) && g[x].size == 0 && g[z].size == 0;
      assert Refs(g[x]) == [0] && Refs(g[z]) == [0] by { RefsByKind(g[x]); RefsByKind(g[z]); }
      LabelRefs(types[x], types[z]);
    } else {
      RefsByKind(types[x]);
      RefsByKind(types[z]);
      LabelRefs(types[x], types[z]);
    }
  }

  // ----- from the passes to the result

  lemma PassesGiveResult(g: seq<BtfType>, start: nat, types1: seq<BtfType>, offs1: seq<int>, m: seq<u32>, table: map<u32, nat>,
                         types2: seq<BtfType>, offs2: seq<int>, hyp: seq<u32>, p: int, types3: seq<BtfType>)
    requires RefCore(g, start, types1, m, table) && AllMapped(m)
    requires Compacted(types1, offs1, m, start, |m|, types2, offs2, hyp, p)
    requires Remapped(types2, types3, start, NewId(m, start, |m|), FinalIds(m, start))
    ensures var h := types3[..NewId(m, start, |m|)];
            Finished(g, start, types1, m, h)
  {
    var cnt := NewId(m, start, |m|);
    var h := types3[..cnt];
    CountSplit(m, start, start, |m|);
    forall x | 0 <= x < start ensures h[x] == g[x] {
      assert RewrittenAt(g, start, types1, x);
      assert types3[x] == types2[x] && types2[x] == types1[x];
    }
    forall x | start <= x < |m| && m[x] == x
      ensures NewId(m, start, x) < cnt && RefsBelow(types1[x], |g|) && h[NewId(m, start, x)] == MapRefs(types1[x], FinalIds(m, start))
    {
      assert RewrittenAt(g, start, types1, x);
      NewIdIncreasing(m, start, x, |m|);
      var y := NewId(m, start, x);
      CountSplit(m, start, start, x);
      assert types2[y] == types1[x] && types3[y] == MapRefs(types2[y], FinalIds(m, start));
    }
  }

  /** Compacted types have all their references inside the original ids, so remapping is defined. */
  lemma CompactedRefs(g: seq<BtfType>, start: nat, types1: seq<BtfType>, offs1: seq<int>, m: seq<u32>,
                      types2: seq<BtfType>, offs2: seq<int>, hyp: seq<u32>, p: int)
    requires Closed(g) && Rewritten(g, start, types1) && |m| == |g|
    requires Compacted(types1, offs1, m, start, |m|, types2, offs2, hyp, p)
    ensures forall y :: start <= y < NewId(m, start, |m|) ==> RefsBelow(types2[y], |g|)
    ensures forall x :: 0 <= x < |m| && m[x] == x ==> hyp[x] == NewId(m, start, x)
  {
    forall y | start <= y < NewId(m, start, |m|) ensures RefsBelow(types2[y], |g|) {
      var x := NewIdOnto(m, start, |m|, y);
      assert RewrittenAt(g, start, types1, x);
      assert NewId(m, start, x) == y && types2[y] == types1[x];
    }
    forall x | 0 <= x < |m| && m[x] == x ensures hyp[x] == NewId(m, start, x) {
      if start <= x { NewIdIncreasing(m, start, x, |m|); }
    }
  }

  /** Writing final ids into the types moves none of them. */
  lemma {:induction false} RemapMovesNothing(types: seq<BtfType>, types': seq<BtfType>, start: nat, cnt: nat, f: seq<u32>, offs: seq<int>)
    requires Remapped(types, types', start, cnt, f) && start <= cnt && Tiled(types, offs, start, cnt)
    requires forall y {:trigger TypeSize(types[y])} :: start <= y < cnt ==> 0 <= TypeSize(types[y])
    ensures FillsSection(types'[..cnt], offs, start, SizeSum(types, start, cnt))
  {
    var h := types'[..cnt];
    assert forall y {:trigger h[y]} :: start <= y < cnt ==> h[y].info == types[y].info by {
      forall y | start <= y < cnt ensures h[y].info == types[y].info { assert h[y] == types'[y]; }
    }
    forall x | start <= x < cnt ensures OffsetAt(h, offs, start, x) {
      SameSizes(types, h, start, x);
      assert OffsetAt(types, offs, start, x);
    }
    SameSizes(types, h, start, cnt);
    forall y | start <= y < cnt ensures 0 <= TypeSize(h[y]) { assert 0 <= TypeSize(types[y]); }
  }

  /** Types with the same info words take the same room. */
  lemma {:induction false} SameSizes(types: seq<BtfType>, h: seq<BtfType>, lo: nat, hi: nat)
    requires lo <= hi <= |types| && hi <= |h| && forall y {:trigger h[y]} :: lo <= y < hi ==> h[y].info == types[y].info
    ensures SizeSum(h, lo, hi) == SizeSum(types, lo, hi)
    decreases hi
  {
    if lo < hi {
      var y := hi - 1;
      SameSizes(types, h, lo, y);
      assert h[y].info == types[y].info;
    }
  }

  lemma CompactedSizes(types1: seq<BtfType>, offs1: seq<int>, m: seq<u32>, start: nat,
                       types2: seq<BtfType>, offs2: seq<int>, hyp: seq<u32>, p: int)
    requires Compacted(types1, offs1, m, start, |m|, types2, offs2, hyp, p) && KnownSizes(types1, start)
    ensures forall y {:trigger TypeSize(types2[y])} :: start <= y < NewId(m, start, |m|) ==> 0 <= TypeSize(types2[y])
  {
    forall y | start <= y < NewId(m, start, |m|) ensures 0 <= TypeSize(types2[y]) {
      var x := NewIdOnto(m, start, |m|, y);
      assert NewId(m, start, x) == y && types2[y] == types1[x] && 0 <= TypeSize(types1[x]);
    }
  }

  /** What deduplication promises about the graph g it is given and the graph h it leaves behind. */
  ghost predicate Deduplicated(g: seq<BtfType>, start: nat, h: seq<BtfType>, final: seq<u32>)
    requires Closed(g)
  {
    WfGraph(h, start) && |h| <= |g| == |final| &&
    // base types are not changed
    (forall x {:trigger h[x]} :: 0 <= x < start && x < |h| ==> h[x] == g[x]) &&
    // every original id has a final id, and every type that is left is the final form of some original
    (forall x {:trigger final[x]} :: 0 <= x < |g| ==> final[x] < |h|) &&
    (forall y: u32 :: start <= y < |h| ==> y in final) &&
    // whose meaning it has
    (forall mode, k: nat, x {:trigger Unfold(mode, g, k, x)} :: 0 <= x < |g| && final[x] < |h| && Linkable(mode, g) ==>
      Unfold(mode, g, k, x) == Unfold(mode, h, k, final[x])) &&
    // a definition does not end as a forward declaration
    (forall x {:trigger IsForward(g[x])} :: 0 <= x < |g| && final[x] < |h| && !IsForward(g[x]) ==> !IsForward(h[final[x]])) &&
    MaximallyShared(h, start, FwdsBare(g)) &&
    // and no two structures that are left were copies
    StructsShared(g, start, h, final)
  }

  /** Type y of the result is original a: as it was, in the base, or else with the final ids of what it referred to. */
  ghost predicate MadeOf(g: seq<BtfType>, start: nat, h: seq<BtfType>, final: seq<u32>, a: nat, y: nat)
    requires Closed(g) && a < |g| && y < |h| && |final| == |g|
  {
    assert RefsBelow(g[a], |g|);
    final[a] == y && Label(h[y]) == Label(g[a]) &&
    if y < start then a == y && h[y] == g[a]
    else |Refs(h[y])| == |Refs(g[a])| && forall i {:trigger Refs(h[y])[i]} :: 0 <= i < |Refs(h[y])| ==> Refs(h[y])[i] == final[Refs(g[a])[i]]
  }

  /** The structures y and z of the result are two originals, the latter no copy of the former. */
  ghost predicate Apart(g: seq<BtfType>, start: nat, h: seq<BtfType>, final: seq<u32>, y: nat, z: nat)
    requires Closed(g) && y < |h| && z < |h| && |final| == |g|
  {
    exists a, b {:trigger CopyOf(g, b, a)} :: 0 <= a < b < |g| && MadeOf(g, start, h, final, a, y) && MadeOf(g, start, h, final, b, z) && !CopyOf(g, b, a)
  }

  ghost predicate StructsShared(g: seq<BtfType>, start: nat, h: seq<BtfType>, final: seq<u32>)
    requires Closed(g) && |final| == |g|
  {
    forall y, z {:trigger Apart(g, start, h, final, y, z)} :: 0 <= y < z < |h| && start <= z && IsComposite(h[y]) && IsComposite(h[z]) ==> Apart(g, start, h, final, y, z)
  }

  lemma LabelKind(a: BtfType, b: BtfType)
    requires Label(a) == Label(b)
    ensures IsComposite(a) == IsComposite(b)
  {
    assert Label(a).info.kind == a.info.kind && Label(b).info.kind == b.info.kind;
  }

  /** The canonical structure that a structure of the result was made of. */
  lemma StructSource(g: seq<BtfType>, start: nat, types: seq<BtfType>, m: seq<u32>, table: map<u32, nat>, h: seq<BtfType>, y: nat) returns (x: u32)
    requires RefCore(g, start, types, m, table) && Finished(g, start, types, m, h) && y < |h| && IsComposite(h[y])
    ensures x < |g| && m[x] == x && FinalIds(m, start)[x] == y == NewId(m, start, x)
    ensures IsComposite(g[x]) && MadeOf(g, start, h, FinalIds(m, start), x, y)
  {
    var n := NewIdOnto(m, start, |m|, y);
    x := n;
    SlotShape(g, start, types, m, h, x, y);
    LabelKind(h[y], g[x]);
    if x < start { BaseStruct(g, start, types, m, table, x); }
    RootStep(m, x);
    StructMade(g, start, types, m, h, x, y);
  }

  /** A canonical structure is moved, and its references are replaced. */
  lemma StructMade(g: seq<BtfType>, start: nat, types: seq<BtfType>, m: seq<u32>, h: seq<BtfType>, x: nat, y: nat)
    requires Finished(g, start, types, m, h) && Slot(m, start, x, y) && y < |h| && IsComposite(g[x]) && FinalIds(m, start)[x] == y
    ensures MadeOf(g, start, h, FinalIds(m, start), x, y)
  {
    var fin := FinalIds(m, start);
    SlotShape(g, start, types, m, h, x, y);
    assert RefsBelow(g[x], |g|) && RewrittenAt(g, start, types, x);
    if x < start {
      assert y == x && h[y] == g[x];
    } else {
      assert start <= y && h[y] == MapRefs(g[x], fin);
      MapRefsRefs(g[x], fin);
    }
  }

  /** Structures of the base are canonical. */
  lemma BaseStruct(g: seq<BtfType>, start: nat, types: seq<BtfType>, m: seq<u32>, table: map<u32, nat>, x: u32)
    requires RefCore(g, start, types, m, table) && AllMapped(m) && x < start && IsComposite(g[x])
    ensures m[x] == x
  {
    assert RewrittenAt(g, start, types, x);
    assert x in table;
  }

  lemma ResultStructs(g: seq<BtfType>, start: nat, types: seq<BtfType>, m: seq<u32>, table: map<u32, nat>, h: seq<BtfType>)
    requires RefCore(g, start, types, m, table) && Finished(g, start, types, m, h) && CopyFree(g, start, m, |g|)
    ensures StructsShared(g, start, h, FinalIds(m, start))
  {
    var fin := FinalIds(m, start);
    forall y, z | 0 <= y < z < |h| && start <= z && IsComposite(h[y]) && IsComposite(h[z]) ensures Apart(g, start, h, fin, y, z) {
      var a := StructSource(g, start, types, m, table, h, y);
      var b := StructSource(g, start, types, m, table, h, z);
      InOrder(m, start, a, b);
      assert a < b && fin[a] == y && fin[b] == z && !CopyOf(g, b, a);
    }
  }

  lemma DefinitionKept(g: seq<BtfType>, start: nat, types: seq<BtfType>, m: seq<u32>, h: seq<BtfType>, x: nat)
    requires Finished(g, start, types, m, h) && x < |g| && !IsForward(g[x])
    ensures var y := FinalIds(m, start)[x]; y < |h| && !IsForward(h[y])
  {
    var rank: seq<nat> :| Ranked(m, rank) && Root(m, x) == RootBy(m, rank, x);
    RootNotForward(g, m, rank, x);
    SettledRoot(m, x);
    var r, y := Root(m, x), FinalIds(m, start)[x];
    SlotShape(g, start, types, m, h, r, y);
    assert Label(h[y]).info == h[y].info && Label(g[r]).info == g[r].info;
  }

  lemma ResultDeduplicated(g: seq<BtfType>, start: nat, types: seq<BtfType>, m: seq<u32>, table: map<u32, nat>, h: seq<BtfType>)
    requires RefCore(g, start, types, m, table) && Finished(g, start, types, m, h) && KnownSizes(g, start)
    requires CopyFree(g, start, m, |g|)
    ensures Deduplicated(g, start, h, FinalIds(m, start))
  {
    var fin := FinalIds(m, start);
    ResultStructs(g, start, types, m, table, h);
    ResultClosed(g, start, types, m, h);
    ResultShared(g, start, types, m, table, h);
    CountSplit(m, start, start, |m|);
    forall x | 0 <= x < |g| ensures fin[x] < |h| && (!IsForward(g[x]) ==> !IsForward(h[fin[x]])) {
      FinalBelow(m, start, x);
      if !IsForward(g[x]) { DefinitionKept(g, start, types, m, h, x); }
    }
    forall y: u32 | start <= y < |h| ensures y in fin {
      var x := NewIdOnto(m, start, |m|, y);
      RootStep(m, x);
      assert fin[x] == y;
    }
    forall mode, k: nat, x | 0 <= x < |g| && Linkable(mode, g)
      ensures Unfold(mode, g, k, x) == Unfold(mode, h, k, fin[x])
    {
      FinalMeaning(mode, g, start, types, m, h, k, x);
    }
  }

  /** Without forward declarations a type means what its final form means as it stands, and linking is no other reading of it. */
  lemma ForwardFreeMeaning(g: seq<BtfType>, start: nat, h: seq<BtfType>, final: seq<u32>, k: nat, x: nat)
    requires Closed(g) && Deduplicated(g, start, h, final) && NoForwards(g) && x < |g|
    ensures final[x] < |h| && Unfold(Structural, g, k, x) == Unfold(Structural, h, k, final[x]) == Unfold(Linked, h, k, final[x])
  {
    NoForwardsLinked(g, k, x);
    assert OneDefinition(g);
    assert Unfold(Linked, g, k, x) == Unfold(Linked, h, k, final[x]);
  }

  /** The result of compaction and remapping, and where its types lie. */
  lemma Rebuilt(g: seq<BtfType>, start: nat, types1: seq<BtfType>, offs1: seq<int>, m: seq<u32>, table: map<u32, nat>,
                types2: seq<BtfType>, offs2: seq<int>, hyp: seq<u32>, p: int, types3: seq<BtfType>)
    requires RefCore(g, start, types1, m, table) && AllMapped(m) && CopyFree(g, start, m, |g|) && KnownSizes(g, start) && KnownSizes(types1, start)
    requires Compacted(types1, offs1, m, start, |m|, types2, offs2, hyp, p)
    requires Remapped(types2, types3, start, NewId(m, start, |m|), FinalIds(m, start))
    ensures var h := types3[..NewId(m, start, |m|)];
            Deduplicated(g, start, h, FinalIds(m, start)) && FillsSection(h, offs2, start, p)
  {
    var cnt := NewId(m, start, |m|);
    PassesGiveResult(g, start, types1, offs1, m, table, types2, offs2, hyp, p, types3);
    ResultDeduplicated(g, start, types1, m, table, types3[..cnt]);
    CompactedSizes(types1, offs1, m, start, types2, offs2, hyp, p);
    RemapMovesNothing(types2, types3, start, cnt, FinalIds(m, start), offs2);
  }
}
