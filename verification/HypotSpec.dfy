/** The hypothetical map built while two type graphs are walked side by side, and why it can be believed. */
module HypotSpec {
  import opened Ints
  import opened BtfTypes
  import opened Meaning
  import opened Forest

  ghost predicate HypShape(n: nat, hyp: seq<u32>) {
    |hyp| == n <= BTF_MAX_NR_TYPES + 1 &&
    forall c :: 0 <= c < n ==> hyp[c] < n || hyp[c] == UNPROCESSED
  }

  /** hyp holds an id exactly for the slots on the list, and the list names each slot once. */
  ghost predicate HypotOk(n: nat, hyp: seq<u32>, list: seq<u32>) {
    HypShape(n, hyp) &&
    (forall c: u32 :: c < n ==> (Mapped(hyp[c]) <==> c in list)) &&
    (forall j :: 0 <= j < |list| ==> list[j] < n) &&
    (forall i, j :: 0 <= i < j < |list| ==> list[i] != list[j])
  }

  ghost function Unclaimed(hyp: seq<u32>): set<nat> {
    set c: nat | c < |hyp| && hyp[c] == UNPROCESSED
  }

  /** Slots already claimed keep their value. */
  ghost predicate Grows(hyp0: seq<u32>, hyp: seq<u32>) {
    |hyp0| == |hyp| && forall c :: 0 <= c < |hyp| && Mapped(hyp0[c]) ==> hyp[c] == hyp0[c]
  }

  predicate Identical(a: BtfType, b: BtfType) {
    a == b && (IsComposite(a) || a.info.kind == Array)
  }

  /** A FWD resolved to a full type counts as that type, any other id as itself. */
  ghost function FwdRoot(g: seq<BtfType>, m: seq<u32>, y: nat): (r: nat)
    requires IsForest(m) && |m| == |g| && y < |m|
    ensures r < |m|
  {
    if IsFwd(g[y]) && !IsFwd(g[Root(m, y)]) then Root(m, y) else y
  }

  /** Candidate x and canonical y were matched: one root already, or paired by hyp. */
  ghost predicate Rel(g: seq<BtfType>, m: seq<u32>, hyp: seq<u32>, x: nat, y: nat)
    requires IsForest(m) && |m| == |g| && HypShape(|g|, hyp) && x < |m| && y < |m|
  {
    Root(m, x) == Root(m, y) ||
    var c := FwdRoot(g, m, y);
    Mapped(hyp[c]) && (hyp[c] == x || Identical(g[hyp[c]], g[x]))
  }

  ghost predicate RelAll(g: seq<BtfType>, m: seq<u32>, hyp: seq<u32>, xs: seq<u32>, ys: seq<u32>)
    requires IsForest(m) && |m| == |g| && HypShape(|g|, hyp) && AllBelow(xs, |m|) && AllBelow(ys, |m|)
  {
    |xs| == |ys| && forall i {:trigger Rel(g, m, hyp, xs[i], ys[i])} :: 0 <= i < |xs| ==> Rel(g, m, hyp, xs[i], ys[i])
  }

  /** The pair (c, hyp[c]) passed its local check and so did everything the two types refer to. */
  ghost predicate Checked(g: seq<BtfType>, m: seq<u32>, hyp: seq<u32>, c: nat)
    requires Closed(g) && IsForest(m) && |m| == |g| && HypShape(|g|, hyp) && c < |hyp| && Mapped(hyp[c])
  {
    var h := hyp[c];
    assert RefsBelow(g[h], |g|) && RefsBelow(g[c], |g|);
    Defines(g[h], g[c]) || Defines(g[c], g[h]) ||
    (Label(g[h]) == Label(g[c]) && RelAll(g, m, hyp, Refs(g[h]), Refs(g[c])))
  }

  ghost predicate AllChecked(g: seq<BtfType>, m: seq<u32>, hyp: seq<u32>)
    requires Closed(g) && IsForest(m) && |m| == |g| && HypShape(|g|, hyp)
  {
    forall c {:trigger Checked(g, m, hyp, c)} :: 0 <= c < |g| && Mapped(hyp[c]) ==> Checked(g, m, hyp, c)
  }

  /** Once every claimed slot is checked, each pair means the same to any depth. */
  lemma {:induction false} PairsAgree(mode: Mode, g: seq<BtfType>, m: seq<u32>, hyp: seq<u32>, k: nat, c: nat)
    requires Closed(g) && IsForest(m) && |m| == |g| && MapSound(mode, g, m) && Linkable(mode, g)
    requires HypShape(|g|, hyp) && AllChecked(g, m, hyp) && c < |g| && Mapped(hyp[c])
    ensures Unfold(mode, g, k, hyp[c]) == Unfold(mode, g, k, c)
    decreases k, 0
  {
    if k > 0 {
      var h := hyp[c];
      assert Checked(g, m, hyp, c);
      if Defines(g[h], g[c]) {
        DefinitionMeansForward(mode, g, h, c);
      } else if Defines(g[c], g[h]) {
        DefinitionMeansForward(mode, g, c, h);
      } else {
        assert RefsBelow(g[h], |g|) && RefsBelow(g[c], |g|);
        ShapeAgree(mode, g, m, hyp, k - 1, h, c, Refs(g[h]), Refs(g[c]));
      }
    }
  }

  lemma {:induction false} RelAgree(mode: Mode, g: seq<BtfType>, m: seq<u32>, hyp: seq<u32>, k: nat, x: nat, y: nat)
    requires Closed(g) && IsForest(m) && |m| == |g| && MapSound(mode, g, m) && Linkable(mode, g)
    requires HypShape(|g|, hyp) && AllChecked(g, m, hyp) && x < |g| && y < |g|
    requires Rel(g, m, hyp, x, y)
    ensures Unfold(mode, g, k, x) == Unfold(mode, g, k, y)
    decreases k, 1
  {
    RootSame(mode, g, m, x);
    RootSame(mode, g, m, y);
    if Root(m, x) != Root(m, y) {
      var c := FwdRoot(g, m, y);
      if hyp[c] != x { EqualDescriptors(mode, g, hyp[c], x); }
      PairsAgree(mode, g, m, hyp, k, c);
    }
  }

  lemma {:induction false} ShapeAgree(mode: Mode, g: seq<BtfType>, m: seq<u32>, hyp: seq<u32>, k: nat,
                                      h: nat, c: nat, xs: seq<u32>, ys: seq<u32>)
    requires Closed(g) && IsForest(m) && |m| == |g| && MapSound(mode, g, m) && Linkable(mode, g)
    requires HypShape(|g|, hyp) && AllChecked(g, m, hyp) && h < |g| && c < |g|
    requires Label(g[h]) == Label(g[c]) && xs == Refs(g[h]) && ys == Refs(g[c]) && AllBelow(xs, |g|) && AllBelow(ys, |g|)
    requires RelAll(g, m, hyp, xs, ys)
    ensures Unfold(mode, g, k + 1, h) == Unfold(mode, g, k + 1, c)
    decreases k, 2
  {
    forall i | 0 <= i < |xs| ensures Unfold(mode, g, k, xs[i]) == Unfold(mode, g, k, ys[i]) {
      assert Rel(g, m, hyp, xs[i], ys[i]);
      RelAgree(mode, g, m, hyp, k, xs[i], ys[i]);
    }
    LabelStep(mode, g, k, h, c);
  }

  lemma PairsSame(mode: Mode, g: seq<BtfType>, m: seq<u32>, hyp: seq<u32>)
    requires Closed(g) && IsForest(m) && |m| == |g| && MapSound(mode, g, m) && Linkable(mode, g)
    requires HypShape(|g|, hyp) && AllChecked(g, m, hyp)
    ensures forall c :: 0 <= c < |g| && Mapped(hyp[c]) ==> Same(mode, g, c, hyp[c])
  {
    forall c, k: nat | 0 <= c < |g| && Mapped(hyp[c])
      ensures Unfold(mode, g, k, c) == Unfold(mode, g, k, hyp[c])
    {
      PairsAgree(mode, g, m, hyp, k, c);
    }
  }

  // ----- what survives when more slots are claimed

  lemma RelAllExtends(g: seq<BtfType>, m: seq<u32>, hyp0: seq<u32>, hyp: seq<u32>, xs: seq<u32>, ys: seq<u32>)
    requires IsForest(m) && |m| == |g| && AllBelow(xs, |m|) && AllBelow(ys, |m|)
    requires HypShape(|g|, hyp0) && HypShape(|g|, hyp) && Grows(hyp0, hyp)
    requires RelAll(g, m, hyp0, xs, ys)
    ensures RelAll(g, m, hyp, xs, ys)
  {
    forall i | 0 <= i < |xs| ensures Rel(g, m, hyp, xs[i], ys[i]) {
      assert Rel(g, m, hyp0, xs[i], ys[i]);
    }
  }

  lemma CheckedExtends(g: seq<BtfType>, m: seq<u32>, hyp0: seq<u32>, hyp: seq<u32>, c: nat)
    requires Closed(g) && IsForest(m) && |m| == |g| && c < |g|
    requires HypShape(|g|, hyp0) && HypShape(|g|, hyp) && Grows(hyp0, hyp)
    requires Mapped(hyp0[c]) && Checked(g, m, hyp0, c)
    ensures Checked(g, m, hyp, c)
  {
    var h := hyp0[c];
    assert hyp[c] == h;
    if !Defines(g[h], g[c]) && !Defines(g[c], g[h]) {
      assert RefsBelow(g[h], |g|) && RefsBelow(g[c], |g|);
      RelAllExtends(g, m, hyp0, hyp, Refs(g[h]), Refs(g[c]));
    }
  }

  lemma GrowsShrinks(hyp0: seq<u32>, hyp: seq<u32>)
    requires HypShape(|hyp0|, hyp0) && Grows(hyp0, hyp)
    ensures Unclaimed(hyp) <= Unclaimed(hyp0)
  {
  }

  // ----- one step of the walk

  /** Every slot claimed since hyp0 has been checked. */
  ghost predicate NewChecked(g: seq<BtfType>, m: seq<u32>, hyp0: seq<u32>, hyp: seq<u32>)
    requires Closed(g) && IsForest(m) && |m| == |g| == |hyp0| && HypShape(|g|, hyp)
  {
    forall c {:trigger Checked(g, m, hyp, c)} ::
      0 <= c < |g| && Mapped(hyp[c]) && !Mapped(hyp0[c]) ==> Checked(g, m, hyp, c)
  }

  lemma NewCheckedTrans(g: seq<BtfType>, m: seq<u32>, hyp0: seq<u32>, hyp1: seq<u32>, hyp2: seq<u32>)
    requires Closed(g) && IsForest(m) && |m| == |g| == |hyp0| && HypShape(|g|, hyp1) && HypShape(|g|, hyp2)
    requires Grows(hyp0, hyp1) && Grows(hyp1, hyp2)
    requires NewChecked(g, m, hyp0, hyp1) && NewChecked(g, m, hyp1, hyp2)
    ensures Grows(hyp0, hyp2) && NewChecked(g, m, hyp0, hyp2)
  {
    forall c | 0 <= c < |g| && Mapped(hyp2[c]) && !Mapped(hyp0[c]) ensures Checked(g, m, hyp2, c) {
      if Mapped(hyp1[c]) {
        assert Checked(g, m, hyp1, c);
        CheckedExtends(g, m, hyp1, hyp2, c);
      } else {
        assert Checked(g, m, hyp2, c);
      }
    }
  }

  /** Closing the visit of slot c, claimed for candidate h. */
  lemma VisitDone(g: seq<BtfType>, m: seq<u32>, hyp0: seq<u32>, c: u32, h: u32, hyp: seq<u32>)
    requires Closed(g) && IsForest(m) && |m| == |g| && HypShape(|g|, hyp0) && HypShape(|g|, hyp)
    requires c < |g| && h < |g| && hyp0[c] == UNPROCESSED
    requires Grows(hyp0[c := h], hyp) && NewChecked(g, m, hyp0[c := h], hyp) && Checked(g, m, hyp, c)
    ensures Grows(hyp0, hyp) && NewChecked(g, m, hyp0, hyp) && hyp[c] == h
  {
    forall d | 0 <= d < |g| && Mapped(hyp[d]) && !Mapped(hyp0[d]) ensures Checked(g, m, hyp, d) {
      if d != c { assert !Mapped(hyp0[c := h][d]); }
    }
    assert hyp0[c := h][c] == h;
    forall d | 0 <= d < |g| && Mapped(hyp0[d]) ensures hyp[d] == hyp0[d] {
      assert hyp0[c := h][d] == hyp0[d];
    }
  }

  lemma ClaimSlot(n: nat, hyp: seq<u32>, list: seq<u32>, c: u32, h: u32)
    requires HypotOk(n, hyp, list) && c < n && h < n && hyp[c] == UNPROCESSED
    ensures HypotOk(n, hyp[c := h], list + [c])
    ensures Unclaimed(hyp[c := h]) < Unclaimed(hyp)
  {
    assert c !in list;
    assert c in Unclaimed(hyp) && c !in Unclaimed(hyp[c := h]);
  }

  lemma GrowsFromClaim(hyp0: seq<u32>, c: u32, h: u32, hyp: seq<u32>)
    requires c < |hyp0| && hyp0[c] == UNPROCESSED && Grows(hyp0[c := h], hyp)
    ensures Grows(hyp0, hyp)
  {
    forall d | 0 <= d < |hyp0| && Mapped(hyp0[d]) ensures hyp[d] == hyp0[d] {
      assert hyp0[c := h][d] == hyp0[d];
    }
  }

  /** Extending a walk over corresponding references by the i-th pair. */
  lemma NextRef(g: seq<BtfType>, m: seq<u32>, hyp0: seq<u32>, hyp1: seq<u32>, hyp2: seq<u32>,
                xs: seq<u32>, ys: seq<u32>, i: nat, eq: int)
    requires Closed(g) && IsForest(m) && |m| == |g| == |hyp0| && HypShape(|g|, hyp1) && HypShape(|g|, hyp2)
    requires AllBelow(xs, |g|) && AllBelow(ys, |g|) && i < |xs| == |ys|
    requires Grows(hyp0, hyp1) && Grows(hyp1, hyp2) && NewChecked(g, m, hyp0, hyp1)
    requires RelAll(g, m, hyp1, xs[..i], ys[..i])
    requires eq == 1 ==> Rel(g, m, hyp2, xs[i], ys[i]) && NewChecked(g, m, hyp1, hyp2)
    ensures Grows(hyp0, hyp2)
    ensures eq == 1 ==> RelAll(g, m, hyp2, xs[..i + 1], ys[..i + 1]) && NewChecked(g, m, hyp0, hyp2)
  {
    if eq == 1 {
      NewCheckedTrans(g, m, hyp0, hyp1, hyp2);
      RelAllExtends(g, m, hyp1, hyp2, xs[..i], ys[..i]);
      var xs0, ys0, xs1, ys1 := xs[..i], ys[..i], xs[..i + 1], ys[..i + 1];
      forall j | 0 <= j < i + 1 ensures Rel(g, m, hyp2, xs1[j], ys1[j]) {
        if j < i { assert Rel(g, m, hyp2, xs0[j], ys0[j]); }
      }
    }
  }

  /** A pair that was matched without looking at references. */
  lemma LeafChecked(g: seq<BtfType>, m: seq<u32>, hyp: seq<u32>, c: nat)
    requires Closed(g) && IsForest(m) && |m| == |g| && HypShape(|g|, hyp) && c < |g| && Mapped(hyp[c])
    requires g[hyp[c]] == g[c] || Defines(g[hyp[c]], g[c]) || Defines(g[c], g[hyp[c]])
    ensures Checked(g, m, hyp, c)
  {
    assert RefsBelow(g[c], |g|);
    if g[hyp[c]] == g[c] {
      var xs := Refs(g[c]);
      assert forall i :: 0 <= i < |xs| ==> Rel(g, m, hyp, xs[i], xs[i]);
    }
  }

  /** The order in which the references of a type are walked: an array starts with its index type. */
  function WalkOrder(t: BtfType): seq<u32> {
    if t.info.kind == Array && t.tail.ArrayTail? then [t.tail.index, t.tail.elem] else Refs(t)
  }

  lemma WalkOrderBelow(t: BtfType, n: nat)
    requires WfType(t) && RefsBelow(t, n)
    ensures AllBelow(WalkOrder(t), n)
  {
    RefsByKind(t);
    if t.info.kind == Array { assert Refs(t)[0] == t.tail.elem && Refs(t)[1] == t.tail.index; }
  }

  lemma WalkOrderRefs(g: seq<BtfType>, m: seq<u32>, hyp: seq<u32>, t: BtfType, c: BtfType)
    requires IsForest(m) && |m| == |g| && HypShape(|g|, hyp)
    requires WfType(t) && WfType(c) && Label(t) == Label(c) && RefsBelow(t, |g|) && RefsBelow(c, |g|)
    requires AllBelow(WalkOrder(t), |g|) && AllBelow(WalkOrder(c), |g|)
    requires RelAll(g, m, hyp, WalkOrder(t), WalkOrder(c))
    ensures RelAll(g, m, hyp, Refs(t), Refs(c))
  {
    assert Label(t).info == Label(c).info;
    RefsByKind(t);
    RefsByKind(c);
    if t.info.kind == Array {
      var xs, ys := WalkOrder(t), WalkOrder(c);
      assert Rel(g, m, hyp, xs[0], ys[0]) && Rel(g, m, hyp, xs[1], ys[1]);
      var rs, ss := Refs(t), Refs(c);
      forall i | 0 <= i < |rs| ensures Rel(g, m, hyp, rs[i], ss[i]) {
        assert i == 0 || i == 1;
      }
    }
  }
}
