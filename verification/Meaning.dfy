/** What a type id means: the tree one gets by following references from it, cut at any depth. */
module Meaning {
  import opened Ints
  import opened BtfTypes

  // How far a tree looks through names.
  //  Nominal:    STRUCT, UNION, FWD and enums are leaves known by their name, as in C source text.
  //  Structural: every descriptor is unfolded as it stands.
  //  Linked:     as Structural, but a forward declaration unfolds as the first definition of what it announces.
  datatype Mode = Nominal | Structural | Linked

  datatype Tree = Cut | Node(shape: BtfType, kids: seq<Tree>)

  datatype View = View(shape: BtfType, refs: seq<u32>)

  ghost predicate Closed(g: seq<BtfType>) {
    forall x {:trigger RefsBelow(g[x], |g|)} :: 0 <= x < |g| ==> RefsBelow(g[x], |g|)
  }

  /** The kind of a type, a FWD counting as the STRUCT or UNION it announces. */
  function EffKind(t: BtfType): Kind {
    if IsFwd(t) then (if t.info.kflag then Union else Struct) else t.info.kind
  }

  predicate IsForward(t: BtfType) { IsFwd(t) || IsEnumFwd(t) }

  /** d is a full definition of what the forward declaration f announces. */
  predicate Defines(d: BtfType, f: BtfType) {
    d.nameOff == f.nameOff &&
    if IsFwd(f) then IsComposite(d) && d.info.kind == EffKind(f)
    else IsEnumFwd(f) && IsAnyEnum(d) && !IsEnumFwd(d) && d.info.(vlen := 0) == f.info && d.size == f.size
  }

  predicate HasDef(g: seq<BtfType>, shape: BtfType) {
    exists d :: 0 <= d < |g| && Defines(g[d], shape)
  }

  ghost function Target(g: seq<BtfType>, x: nat): (d: nat)
    requires x < |g|
    ensures d < |g|
    ensures d != x ==> Defines(g[d], Label(g[x]))
  {
    var shape := Label(g[x]);
    if HasDef(g, shape) then Def(g, shape) else x
  }

  /** The first definition that matches the shape. */
  ghost function Def(g: seq<BtfType>, shape: BtfType): (d: nat)
    requires HasDef(g, shape)
    ensures d < |g| && Defines(g[d], shape)
  {
    FirstDef(g, shape, 0)
  }

  ghost function FirstDef(g: seq<BtfType>, shape: BtfType, from: nat): (d: nat)
    requires exists d :: from <= d < |g| && Defines(g[d], shape)
    ensures from <= d < |g| && Defines(g[d], shape) && forall e :: from <= e < d ==> !Defines(g[e], shape)
    decreases |g| - from
  {
    if Defines(g[from], shape) then from else FirstDef(g, shape, from + 1)
  }

  function NominalView(t: BtfType): View {
    if IsComposite(t) || IsFwd(t) then
      View(BtfType(t.nameOff, Info(EffKind(t), 0, false, 0, 0), 0, NoTail), [])
    else if IsAnyEnum(t) then
      View(t.(info := t.info.(vlen := 0), tail := NoTail), [])
    else
      View(Label(t), Refs(t))
  }

  ghost function ViewOf(m: Mode, g: seq<BtfType>, x: nat): (v: View)
    requires Closed(g) && x < |g|
    ensures AllBelow(v.refs, |g|)
  {
    assert RefsBelow(g[x], |g|);
    match m
    case Nominal => NominalView(g[x])
    case Structural => View(Label(g[x]), Refs(g[x]))
    case Linked => var t := g[Target(g, x)]; assert RefsBelow(t, |g|); View(Label(t), Refs(t))
  }

  /** The meaning of type id x in graph g, cut at depth k. */
  ghost function Unfold(m: Mode, g: seq<BtfType>, k: nat, x: nat): Tree
    requires Closed(g) && x < |g|
    decreases k
  {
    if k == 0 then Cut
    else
      var v := ViewOf(m, g, x);
      Node(v.shape, seq(|v.refs|, i requires 0 <= i < |v.refs| => Unfold(m, g, k - 1, v.refs[i])))
  }

  /** One step of unfolding. */
  lemma UnfoldNode(m: Mode, g: seq<BtfType>, k: nat, n: nat, x: nat) returns (kids: seq<Tree>)
    requires Closed(g) && x < |g| && n > 0 && k == n - 1
    ensures Unfold(m, g, n, x) == Node(ViewOf(m, g, x).shape, kids) && |kids| == |ViewOf(m, g, x).refs|
    ensures forall i {:trigger kids[i]} :: 0 <= i < |kids| ==> kids[i] == Unfold(m, g, k, ViewOf(m, g, x).refs[i])
  {
    var v := ViewOf(m, g, x);
    kids := Unfold(m, g, n, x).kids;
    forall i | 0 <= i < |kids| ensures kids[i] == Unfold(m, g, k, v.refs[i]) {
      var r := v.refs[i];
      assert r < |g| && kids[i] == Unfold(m, g, k, r);
    }
  }

  ghost predicate Same(m: Mode, g: seq<BtfType>, x: nat, y: nat)
    requires Closed(g) && x < |g| && y < |g|
  {
    forall k: nat :: Unfold(m, g, k, x) == Unfold(m, g, k, y)
  }

  /** One-definition rule: all definitions that a forward declaration could stand for mean the same. */
  ghost predicate OneDefinition(g: seq<BtfType>)
    requires Closed(g)
  {
    forall f, a, b {:trigger Same(Linked, g, a, b), Defines(g[a], g[f])} :: 0 <= f < |g| && 0 <= a < |g| && 0 <= b < |g| && Defines(g[a], g[f]) && Defines(g[b], g[f])
      ==> Same(Linked, g, a, b)
  }

  /** The inputs on which a mode's meaning survives linking a forward to a definition. */
  ghost predicate Linkable(m: Mode, g: seq<BtfType>)
    requires Closed(g)
  {
    match m
    case Nominal => true
    case Structural => NoForwards(g)
    case Linked => OneDefinition(g)
  }

  predicate NoForwards(g: seq<BtfType>) {
    forall x :: 0 <= x < |g| ==> !IsForward(g[x])
  }

  // ----- how trees come to be equal

  ghost predicate KidsEqual(m: Mode, g: seq<BtfType>, h: seq<BtfType>, k: nat, rs: seq<u32>, ss: seq<u32>)
    requires Closed(g) && Closed(h) && AllBelow(rs, |g|) && AllBelow(ss, |h|)
  {
    |rs| == |ss| &&
    forall i {:trigger Unfold(m, g, k, rs[i])} {:trigger Unfold(m, h, k, ss[i])} ::
      0 <= i < |rs| ==> Unfold(m, g, k, rs[i]) == Unfold(m, h, k, ss[i])
  }

  lemma UnfoldStep(m: Mode, g: seq<BtfType>, h: seq<BtfType>, k: nat, x: nat, y: nat)
    requires Closed(g) && Closed(h) && x < |g| && y < |h|
    requires ViewOf(m, g, x).shape == ViewOf(m, h, y).shape
    requires KidsEqual(m, g, h, k, ViewOf(m, g, x).refs, ViewOf(m, h, y).refs)
    ensures Unfold(m, g, k + 1, x) == Unfold(m, h, k + 1, y)
  {
    var v, w := ViewOf(m, g, x), ViewOf(m, h, y);
    var a, b := Unfold(m, g, k + 1, x).kids, Unfold(m, h, k + 1, y).kids;
    assert |a| == |b|;
    forall i | 0 <= i < |a| ensures a[i] == b[i] {
      assert a[i] == Unfold(m, g, k, v.refs[i]) && b[i] == Unfold(m, h, k, w.refs[i]);
    }
  }

  lemma DefinesLabel(d: BtfType, f: BtfType)
    ensures Defines(d, Label(f)) == Defines(d, f)
  {
  }

  /** Types with one shape whose references mean the same to depth k mean the same to depth k+1. */
  lemma LabelStep(m: Mode, g: seq<BtfType>, k: nat, x: nat, y: nat)
    requires Closed(g) && x < |g| && y < |g|
    requires Label(g[x]) == Label(g[y])
    requires RefsBelow(g[x], |g|) && RefsBelow(g[y], |g|)
    requires KidsEqual(m, g, g, k, Refs(g[x]), Refs(g[y]))
    ensures Unfold(m, g, k + 1, x) == Unfold(m, g, k + 1, y)
  {
    assert Label(g[x]).info == Label(g[y]).info;
    if m == Linked && HasDef(g, Label(g[x])) {
      assert ViewOf(m, g, x) == ViewOf(m, g, y);
    } else if m == Nominal && (IsComposite(g[x]) || IsFwd(g[x]) || IsAnyEnum(g[x])) {
      assert IsAnyEnum(g[x]) ==> g[x].size == Label(g[x]).size == Label(g[y]).size == g[y].size;
      assert ViewOf(m, g, x) == ViewOf(m, g, y);
    }
    UnfoldStep(m, g, g, k, x, y);
  }

  lemma EqualDescriptors(m: Mode, g: seq<BtfType>, x: nat, y: nat)
    requires Closed(g) && x < |g| && y < |g| && g[x] == g[y]
    ensures Same(m, g, x, y)
  {
    forall k: nat ensures Unfold(m, g, k, x) == Unfold(m, g, k, y) {
      assert RefsBelow(g[x], |g|);
      if k > 0 { LabelStep(m, g, k - 1, x, y); }
    }
  }

  /** A definition means what the forward declaration it completes means. */
  lemma DefinitionMeansForward(m: Mode, g: seq<BtfType>, d: nat, f: nat)
    requires Closed(g) && d < |g| && f < |g| && Linkable(m, g) && Defines(g[d], g[f])
    ensures Same(m, g, d, f)
  {
    forall k: nat ensures Unfold(m, g, k, d) == Unfold(m, g, k, f) {
      if k > 0 {
        match m
        case Nominal =>
          assert ViewOf(m, g, d) == ViewOf(m, g, f);
          UnfoldStep(m, g, g, k - 1, d, f);
        case Structural =>
        case Linked =>
          DefinesLabel(g[d], g[f]);
          var e := Target(g, f);
          DefinesLabel(g[e], g[f]);
          assert Defines(g[e], g[f]);
          assert Same(m, g, d, e);
          DefinitionIsOwnTarget(g, e, f);
          assert ViewOf(m, g, e) == ViewOf(m, g, f);
          UnfoldStep(m, g, g, k - 1, e, f);
      }
    }
  }

  lemma DefinitionIsOwnTarget(g: seq<BtfType>, d: nat, f: nat)
    requires d < |g| && f < |g| && Defines(g[d], g[f])
    ensures !HasDef(g, Label(g[d])) && Target(g, d) == d
  {
    if HasDef(g, Label(g[d])) {
      var e :| 0 <= e < |g| && Defines(g[e], Label(g[d]));
      DefinesLabel(g[e], g[d]);
      assert IsForward(g[d]);
      assert false;
    }
  }

  /** The name and the effective kind of a type can be read off its nominal meaning. */
  lemma NominalKey(g: seq<BtfType>, x: nat, y: nat)
    requires Closed(g) && x < |g| && y < |g|
    requires Same(Nominal, g, x, y)
    ensures g[x].nameOff == g[y].nameOff && EffKind(g[x]) == EffKind(g[y])
  {
    assert Unfold(Nominal, g, 1, x).shape == Unfold(Nominal, g, 1, y).shape;
  }

  lemma NoForwardsView(g: seq<BtfType>, x: nat)
    requires Closed(g) && NoForwards(g) && x < |g|
    ensures ViewOf(Linked, g, x) == ViewOf(Structural, g, x)
  {
    assert forall d :: 0 <= d < |g| ==> Defines(g[d], Label(g[x])) == Defines(g[d], g[x]) by {
      forall d | 0 <= d < |g| { DefinesLabel(g[d], g[x]); }
    }
  }

  /** Without forward declarations linking changes nothing. */
  lemma {:induction false} NoForwardsLinked(g: seq<BtfType>, k: nat, x: nat)
    requires Closed(g) && NoForwards(g) && x < |g|
    ensures Unfold(Linked, g, k, x) == Unfold(Structural, g, k, x)
    decreases k
  {
    if k > 0 {
      NoForwardsView(g, x);
      var j, rs := k - 1, ViewOf(Structural, g, x).refs;
      var a := UnfoldNode(Linked, g, j, k, x);
      var b := UnfoldNode(Structural, g, j, k, x);
      forall i | 0 <= i < |rs| ensures a[i] == b[i] { NoForwardsLinked(g, j, rs[i]); }
    }
  }
}
