/** Copies: when a walk over two type graphs is bound to find them equivalent. */
module Copies {
  import opened Ints
  import opened BtfTypes
  import opened Meaning
  import opened Forest
  import opened BtfCompare
  import opened HypotSpec
  import opened DedupInv

  /** Kinds that the equivalence check knows. */
  predicate Comparable(t: BtfType) { IsPlain(t) && KnownKind(t) }

  /** Id x stands where id y stands: they are one id, or x is the copy of y. */
  predicate Paired(copy: seq<u32>, x: nat, y: nat)
    requires y < |copy|
  {
    x == y || copy[y] == x
  }

  ghost predicate PairedAll(copy: seq<u32>, xs: seq<u32>, ys: seq<u32>)
    requires AllBelow(ys, |copy|)
  {
    |xs| == |ys| && forall i {:trigger Paired(copy, xs[i], ys[i])} :: 0 <= i < |xs| ==> Paired(copy, xs[i], ys[i])
  }

  /**
   * The copy of y has its descriptor with copies for references, or is a forward declaration that y defines. A FWD
   * itself has no copy.
   */
  ghost predicate CopyAt(g: seq<BtfType>, copy: seq<u32>, y: nat)
    requires Closed(g) && |copy| == |g| && y < |g|
  {
    copy[y] < |g| && !IsFwd(g[y]) && Comparable(g[y]) &&
    var x := copy[y];
    assert RefsBelow(g[y], |g|);
    if Label(g[x]) == Label(g[y]) then PairedAll(copy, Refs(g[x]), Refs(g[y])) else Defines(g[y], g[x])
  }

  /** A partial map from types to their copies, closed under references. */
  ghost predicate Copied(g: seq<BtfType>, copy: seq<u32>)
    requires Closed(g)
  {
    |copy| == |g| <= BTF_MAX_NR_TYPES + 1 && forall y {:trigger CopyAt(g, copy, y)} :: 0 <= y < |g| && Mapped(copy[y]) ==> CopyAt(g, copy, y)
  }

  ghost predicate IsCopy(g: seq<BtfType>, copy: seq<u32>, x: nat, y: nat)
    requires Closed(g)
  {
    Copied(g, copy) && y < |g| && x < |g| && copy[y] == x
  }

  /** The graph below x is a copy of the graph below y. */
  ghost predicate CopyOf(g: seq<BtfType>, x: nat, y: nat)
    requires Closed(g)
  {
    exists copy: seq<u32> :: IsCopy(g, copy, x, y)
  }

  /** What has been paired so far agrees with the map of copies. */
  ghost predicate Within(hyp: seq<u32>, copy: seq<u32>) {
    |hyp| == |copy| && forall c :: 0 <= c < |hyp| && Mapped(hyp[c]) ==> hyp[c] == copy[c]
  }

  /** The walk is on the track of a map of copies, at the pair x, y. */
  ghost predicate OnTrack(g: seq<BtfType>, copy: seq<u32>, hyp: seq<u32>, x: nat, y: nat)
    requires Closed(g)
  {
    Copied(g, copy) && Within(hyp, copy) && y < |g| && x < |g| && Paired(copy, x, y)
  }

  ghost predicate OnTrackAll(g: seq<BtfType>, copy: seq<u32>, hyp: seq<u32>, xs: seq<u32>, ys: seq<u32>)
    requires Closed(g)
  {
    Copied(g, copy) && Within(hyp, copy) && AllBelow(xs, |g|) && AllBelow(ys, |g|) && PairedAll(copy, xs, ys)
  }

  /** A pair on the track that is not one id yet: the type is no FWD, so it is looked up as itself. */
  lemma TrackStart(g: seq<BtfType>, copy: seq<u32>, hyp: seq<u32>, x: u32, y: u32, m: seq<u32>)
    requires Closed(g) && OnTrack(g, copy, hyp, x, y) && IsForest(m) && |m| == |g| && Root(m, x) != Root(m, y)
    ensures FwdRoot(g, m, y) == y && copy[y] == x && Within(hyp[y := x], copy)
  {
    assert Mapped(copy[y]);
    assert CopyAt(g, copy, y);
  }

  /** The references of a copy are walked in the order of those of the type. */
  lemma TrackRefs(g: seq<BtfType>, copy: seq<u32>, hyp: seq<u32>, x: nat, y: nat)
    requires Closed(g) && Copied(g, copy) && Within(hyp, copy) && x < |g| && y < |g| && copy[y] == x
    requires WfType(g[x]) && WfType(g[y]) && Label(g[x]) == Label(g[y])
    requires AllBelow(WalkOrder(g[x]), |g|) && AllBelow(WalkOrder(g[y]), |g|)
    ensures OnTrackAll(g, copy, hyp, WalkOrder(g[x]), WalkOrder(g[y]))
  {
    assert CopyAt(g, copy, y);
    assert RefsBelow(g[y], |g|);
    assert Label(g[x]).info == Label(g[y]).info;
    RefsByKind(g[x]);
    RefsByKind(g[y]);
    var xs, ys := WalkOrder(g[x]), WalkOrder(g[y]);
    if g[y].info.kind == Array {
      var rs, ss := Refs(g[x]), Refs(g[y]);
      assert Paired(copy, rs[0], ss[0]) && Paired(copy, rs[1], ss[1]);
      forall i | 0 <= i < |xs| ensures Paired(copy, xs[i], ys[i]) { assert i == 0 || i == 1; }
    } else {
      assert xs == Refs(g[x]) && ys == Refs(g[y]);
    }
  }

  /** A copy passes the local check: it has the label, or is a forward that is announced by its kind and name. */
  lemma TrackLocal(g: seq<BtfType>, copy: seq<u32>, hyp: seq<u32>, x: nat, y: nat)
    requires Closed(g) && Copied(g, copy) && Within(hyp, copy) && x < |g| && y < |g| && copy[y] == x
    ensures Comparable(g[y]) && !IsFwd(g[y]) && g[x].nameOff == g[y].nameOff
    ensures IsFwd(g[x]) ==> EffKind(g[x]) == g[y].info.kind
    ensures !IsFwd(g[x]) ==> g[x].info.kind == g[y].info.kind && (Label(g[x]) == Label(g[y]) || Defines(g[y], g[x]))
  {
    assert CopyAt(g, copy, y);
    if Label(g[x]) == Label(g[y]) {
      assert Label(g[x]).info == Label(g[y]).info;
      assert Label(g[x]).nameOff == g[x].nameOff && Label(g[y]).nameOff == g[y].nameOff;
    }
  }

  /** Of the structures among the first ids, none that is canonical is the copy of another one. */
  ghost predicate CopyFree(g: seq<BtfType>, start: nat, m: seq<u32>, upto: nat)
    requires Closed(g)
  {
    |m| == |g| &&
    (forall x {:trigger m[x]} :: upto <= x < |g| && start <= x && IsComposite(g[x]) ==> m[x] != x) &&
    forall x, y {:trigger CopyOf(g, x, y)} :: 0 <= y < x < upto && x < |g| && start <= x && IsComposite(g[y]) && IsComposite(g[x]) && m[y] == y && m[x] == x
      ==> !CopyOf(g, x, y)
  }

  /** No structure becomes canonical, but possibly id. */
  ghost predicate NoNewRoots(g: seq<BtfType>, m0: seq<u32>, m: seq<u32>, id: nat) {
    |m0| == |m| == |g| && forall x {:trigger m[x]} :: 0 <= x < |m| && x != id && IsComposite(g[x]) && m[x] == x ==> m0[x] == x
  }

  /** Structure x is the copy of no canonical structure before it. */
  ghost predicate NoOriginal(g: seq<BtfType>, m: seq<u32>, x: nat)
    requires Closed(g)
  {
    |m| == |g| && forall y {:trigger CopyOf(g, x, y)} :: 0 <= y < x && y < |g| && IsComposite(g[y]) && m[y] == y ==> !CopyOf(g, x, y)
  }

  lemma CopyFreeStep(g: seq<BtfType>, start: nat, m0: seq<u32>, m: seq<u32>, id: nat, next: nat)
    requires Closed(g) && CopyFree(g, start, m0, id) && NoNewRoots(g, m0, m, id) && next == id + 1 && start <= id < |g|
    requires IsComposite(g[id]) && m[id] == id ==> NoOriginal(g, m, id)
    ensures CopyFree(g, start, m, next)
  {
  }

  /** A copy of a structure has its label. */
  lemma CopyLabel(g: seq<BtfType>, x: u32, y: u32)
    requires Closed(g) && x < |g| && IsComposite(g[x])
    ensures CopyOf(g, x, y) ==> y < |g| && Label(g[x]) == Label(g[y])
  {
    var copy := AnyCopy(g, x, y);
  }

  /** A map of copies in which x is the copy of y, if there is one; a copy of a structure has its label. */
  lemma AnyCopy(g: seq<BtfType>, x: u32, y: u32) returns (copy: seq<u32>)
    requires Closed(g) && x < |g| && IsComposite(g[x])
    ensures CopyOf(g, x, y) ==> IsCopy(g, copy, x, y) && Label(g[x]) == Label(g[y]) && IsComposite(g[y])
  {
    copy := [];
    if CopyOf(g, x, y) {
      copy :| IsCopy(g, copy, x, y);
      assert CopyAt(g, copy, y);
      assert Label(g[x]).info.kind == g[x].info.kind && Label(g[y]).info.kind == g[y].info.kind;
    }
  }

  /** Structures that are equal up to the types of their members have one hash. */
  lemma CompositeHash(a: BtfType, b: BtfType)
    requires WfType(a) && WfType(b) && IsComposite(a) && IsComposite(b) && Label(a) == Label(b)
    ensures HashOf(a) == HashOf(b)
  {
    LabelOfMembers(a, b);
    MembersHash(HashCommon(a), a.tail.ms, b.tail.ms);
  }

  lemma {:induction false} MembersHash(h: nat, ms: seq<Member>, ns: seq<Member>)
    requires |ms| == |ns| && forall i :: 0 <= i < |ms| ==> EqualButType(ms[i], ns[i])
    ensures HashMembers(h, ms) == HashMembers(h, ns)
  {
    if ms != [] {
      var n := |ms| - 1;
      MembersHash(h, ms[..n], ns[..n]);
      assert EqualButType(ms[n], ns[n]);
    }
  }
}
