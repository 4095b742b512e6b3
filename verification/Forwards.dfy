/** What the one-definition rule is needed for: users of a forward declaration that are taken for users of its definitions. */
module Forwards {
  import opened Ints
  import opened BtfTypes
  import opened Meaning
  import opened DedupInv
  import opened Copies
  import opened DedupResult
  import opened Forest
  import opened RefInv
  import opened BtfDedup

  // ----- users of a definition

  function Pointer(to: u32): BtfType { BtfType(0, Info(Ptr, 0, false, 0, 0), to, NoTail) }

  /** A struct with one member. */
  function Holder(name: u32, member: u32): BtfType {
    BtfType(name, Info(Struct, 1, false, 0, 0), 8, Members([Member(0, member, 0)]))
  }

  /** x holds a pointer to f and y a pointer to a definition d of what f announces, in structs of one name. */
  ghost predicate Twins(g: seq<BtfType>, name: u32, x: u32, q: u32, f: u32, y: u32, p: u32, d: u32) {
    && y < x < |g| && q < |g| && f < |g| && p < |g| && d < |g| <= BTF_MAX_NR_TYPES + 1
    && g[x] == Holder(name, q) && g[q] == Pointer(f) && g[y] == Holder(name, p) && g[p] == Pointer(d)
    && Defines(g[d], g[f]) && forall i :: 0 <= i < |g| && g[i].nameOff == name ==> i == x || i == y
  }

  lemma HolderRefs(name: u32, p: u32)
    ensures Refs(Holder(name, p)) == [p] && Refs(Pointer(p)) == [p]
    ensures Label(Holder(name, p)) == Holder(name, 0) && Label(Pointer(p)) == Pointer(0)
  {
    assert TailLabel(Holder(name, p).tail) == Members([Member(0, 0, 0)]);
  }

  /** A definition is not its own forward declaration. */
  lemma DefinitionDiffers(d: BtfType, f: BtfType)
    requires Defines(d, f)
    ensures Label(d) != Label(f) && !IsFwd(d) && Comparable(d) && !IsForward(d)
  {
    assert Label(d).info == d.info && Label(f).info == f.info;
  }

  function TwinMap(n: nat, x: u32, q: u32, f: u32, y: u32, p: u32, d: u32): (copy: seq<u32>)
    ensures |copy| == n
  {
    seq(n, i => if i == y then x else if i == p then q else if i == d then f else UNPROCESSED)
  }

  /** A type with one reference and its copy, with the copy of that. */
  lemma TwinAt(g: seq<BtfType>, copy: seq<u32>, y: u32, x: u32, p: u32, q: u32)
    requires Closed(g) && |copy| == |g| && y < |g| && x < |g| && p < |g| && copy[y] == x && copy[p] == q
    requires !IsFwd(g[y]) && Comparable(g[y]) && Label(g[x]) == Label(g[y]) && Refs(g[y]) == [p] && Refs(g[x]) == [q]
    ensures CopyAt(g, copy, y)
  {
    assert Paired(copy, q, p);
  }

  lemma TwinsCopied(g: seq<BtfType>, name: u32, x: u32, q: u32, f: u32, y: u32, p: u32, d: u32)
    requires Closed(g) && Twins(g, name, x, q, f, y, p, d)
    ensures CopyOf(g, x, y)
  {
    var copy := TwinMap(|g|, x, q, f, y, p, d);
    HolderRefs(name, p);
    HolderRefs(name, q);
    HolderRefs(0, f);
    HolderRefs(0, d);
    DefinitionDiffers(g[d], g[f]);
    assert d != y && d != p && y != p;
    TwinAt(g, copy, y, x, p, q);
    TwinAt(g, copy, p, q, d, f);
    assert CopyAt(g, copy, d);
    assert IsCopy(g, copy, x, y);
  }

  lemma SharedAt(g: seq<BtfType>, start: nat, h: seq<BtfType>, final: seq<u32>, y: nat, z: nat)
    requires Closed(g) && Deduplicated(g, start, h, final) && y < |h| && z < |h| && IsComposite(h[y]) && IsComposite(h[z])
    ensures y < z && start <= z ==> Apart(g, start, h, final, y, z)
    ensures z < start ==> h[z] == g[z]
  {
  }

  /** Twins end as one type. */
  lemma TwinsJoin(g: seq<BtfType>, start: nat, h: seq<BtfType>, final: seq<u32>, name: u32, x: u32, q: u32, f: u32, y: u32, p: u32, d: u32)
    requires Closed(g) && Twins(g, name, x, q, f, y, p, d) && Deduplicated(g, start, h, final) && start <= y
    ensures final[x] == final[y]
  {
    TwinsCopied(g, name, x, q, f, y, p, d);
    var s, t := final[x], final[y];
    HolderFinal(g, start, h, final, name, x, q);
    HolderFinal(g, start, h, final, name, y, p);
    SharedAt(g, start, h, final, s, t);
    SharedAt(g, start, h, final, t, s);
    assert forall a :: 0 <= a < |g| ==> Label(g[a]).nameOff == g[a].nameOff;
  }

  /** A holder ends as a structure of its name. */
  lemma HolderFinal(g: seq<BtfType>, start: nat, h: seq<BtfType>, final: seq<u32>, name: u32, x: u32, q: u32)
    requires Closed(g) && Deduplicated(g, start, h, final) && x < |g| && g[x] == Holder(name, q)
    ensures final[x] < |h| && IsComposite(h[final[x]]) && h[final[x]].nameOff == name == Label(h[final[x]]).nameOff
  {
    var y := final[x];
    assert Linkable(Nominal, g);
    assert Unfold(Nominal, g, 1, x) == Unfold(Nominal, h, 1, y);
    assert Unfold(Nominal, g, 1, x).shape == NominalView(g[x]).shape && Unfold(Nominal, h, 1, y).shape == NominalView(h[y]).shape;
    assert !IsForward(g[x]);
    NominalStruct(h[y], name);
  }

  lemma NominalStruct(t: BtfType, name: u32)
    requires NominalView(t).shape == NominalView(Holder(name, 0)).shape && !IsForward(t)
    ensures IsComposite(t) && t.nameOff == name
  {
    assert Label(t).info == t.info && Label(t).nameOff == t.nameOff;
  }

  // ----- what twins mean

  lemma OwnView(g: seq<BtfType>, x: nat)
    requires Closed(g) && x < |g| && !IsForward(g[x])
    ensures RefsBelow(g[x], |g|) && ViewOf(Linked, g, x) == View(Label(g[x]), Refs(g[x]))
  {
    assert RefsBelow(g[x], |g|);
    assert forall d :: 0 <= d < |g| ==> !Defines(g[d], Label(g[x])) by {
      forall d | 0 <= d < |g| ensures !Defines(g[d], Label(g[x])) { DefinesLabel(g[d], g[x]); }
    }
  }

  lemma OneRef(g: seq<BtfType>, k: nat, n: nat, x: u32, p: u32, t: Tree)
    requires Closed(g) && x < |g| && !IsForward(g[x]) && Refs(g[x]) == [p] && n == k + 1
    requires p < |g| ==> t == Unfold(Linked, g, k, p)
    ensures p < |g| && Unfold(Linked, g, n, x) == Node(Label(g[x]), [t])
  {
    OwnView(g, x);
    var v := ViewOf(Linked, g, x);
    assert v.refs == [p] && v.refs[0] == p;
    var kids := UnfoldNode(Linked, g, k, n, x);
    assert kids == [t];
  }

  /** If twins mean the same, the definition means what the forward declaration does. */
  lemma TwinsMean(g: seq<BtfType>, name: u32, x: u32, q: u32, f: u32, y: u32, p: u32, d: u32)
    requires Closed(g) && Twins(g, name, x, q, f, y, p, d) && Same(Linked, g, x, y)
    ensures Same(Linked, g, d, f)
  {
    forall k: nat ensures Unfold(Linked, g, k, d) == Unfold(Linked, g, k, f) {
      var n, m := k + 1, k + 2;
      HolderMeans(g, k, n, m, name, x, q, f);
      HolderMeans(g, k, n, m, name, y, p, d);
      assert Unfold(Linked, g, m, x) == Unfold(Linked, g, m, y);
    }
  }

  /** Two steps below a holder is what it points to. */
  lemma HolderMeans(g: seq<BtfType>, k: nat, n: nat, m: nat, name: u32, x: u32, q: u32, f: u32)
    requires Closed(g) && x < |g| && q < |g| && f < |g| && g[x] == Holder(name, q) && g[q] == Pointer(f) && n == k + 1 && m == n + 1
    ensures Unfold(Linked, g, m, x) == Node(Holder(name, 0), [Node(Pointer(0), [Unfold(Linked, g, k, f)])])
  {
    HolderRefs(name, q);
    HolderRefs(0, f);
    var low := Unfold(Linked, g, k, f);
    OneRef(g, k, n, q, f, low);
    var mid := Unfold(Linked, g, n, q);
    OneRef(g, n, m, x, q, mid);
  }

  /** Every type of g means, with forwards read as their definitions, what its final form in h does. */
  ghost predicate LinkedKept(g: seq<BtfType>, h: seq<BtfType>, final: seq<u32>)
    requires Closed(g) && Closed(h) && |final| == |g|
  {
    forall k: nat, x {:trigger Unfold(Linked, g, k, x)} :: 0 <= x < |g| ==> final[x] < |h| && Unfold(Linked, g, k, x) == Unfold(Linked, h, k, final[x])
  }

  lemma TwinsKept(g: seq<BtfType>, start: nat, h: seq<BtfType>, final: seq<u32>, name: u32, x: u32, q: u32, f: u32, y: u32, p: u32, d: u32)
    requires Closed(g) && Twins(g, name, x, q, f, y, p, d) && Deduplicated(g, start, h, final) && start <= y
    requires LinkedKept(g, h, final)
    ensures Same(Linked, g, d, f)
  {
    TwinsJoin(g, start, h, final, name, x, q, f, y, p, d);
    forall k: nat ensures Unfold(Linked, g, k, x) == Unfold(Linked, g, k, y) {
      assert Unfold(Linked, g, k, x) == Unfold(Linked, h, k, final[x]);
    }
    TwinsMean(g, name, x, q, f, y, p, d);
  }

  // ----- the rule is exact

  /** Room for seven more types, and two names that no type has. */
  ghost predicate Fresh(g: seq<BtfType>, u: u32, v: u32) {
    |g| + 7 <= BTF_MAX_NR_TYPES + 1 && u != v && u != 0 && v != 0 && forall i :: 0 <= i < |g| ==> g[i].nameOff != u && g[i].nameOff != v
  }

  /** a and b are definitions of what f announces. */
  ghost predicate Clash(g: seq<BtfType>, f: u32, a: u32, b: u32, u: u32, v: u32) {
    Fresh(g, u, v) && f < |g| && a < |g| && b < |g| && Defines(g[a], g[f]) && Defines(g[b], g[f])
  }

  /** The graph with users added: structs u and v of each definition, and the same of the forward declaration. */
  function Users(g: seq<BtfType>, f: u32, a: u32, b: u32, u: u32, v: u32): (r: seq<BtfType>)
    requires |g| + 7 <= BTF_MAX_NR_TYPES + 1
    ensures |r| == |g| + 7 && r[..|g|] == g
  {
    var n: u32 := |g|;
    g + [Pointer(a), Holder(u, n), Pointer(b), Holder(v, n + 2), Pointer(f), Holder(u, n + 4), Holder(v, n + 4)]
  }

  lemma UsersWf(g: seq<BtfType>, start: nat, f: u32, a: u32, b: u32, u: u32, v: u32)
    requires WfGraph(g, start) && Clash(g, f, a, b, u, v)
    ensures WfGraph(Users(g, f, a, b, u, v), start)
  {
    var r, n := Users(g, f, a, b, u, v), |g|;
    forall x | 0 <= x < |r| ensures RefsBelow(r[x], |r|) && WfType(r[x]) && (x < start ==> RefsBelow(r[x], start)) {
      if x < n {
        assert r[x] == g[x] && RefsBelow(g[x], n) && WfType(g[x]);
        assert x < start ==> RefsBelow(g[x], start);
      } else {
        NewUserWf(g, f, a, b, u, v, x);
      }
    }
  }

  lemma NewUserWf(g: seq<BtfType>, f: u32, a: u32, b: u32, u: u32, v: u32, x: nat)
    requires Clash(g, f, a, b, u, v) && |g| <= x < |g| + 7
    ensures var r := Users(g, f, a, b, u, v); RefsBelow(r[x], |r|) && WfType(r[x])
  {
    var r := Users(g, f, a, b, u, v);
    if r[x].info.kind == Struct { HolderRefs(r[x].nameOff, r[x].tail.ms[0].typ); } else { HolderRefs(0, r[x].size); }
  }

  lemma UsersTwins(g: seq<BtfType>, start: nat, f: u32, a: u32, b: u32, u: u32, v: u32)
    requires WfGraph(g, start) && Clash(g, f, a, b, u, v)
    ensures var r, n := Users(g, f, a, b, u, v), |g|; Twins(r, u, n + 5, n + 4, f, n + 1, n, a) && Twins(r, v, n + 6, n + 4, f, n + 3, n + 2, b)
  {
    var r, n := Users(g, f, a, b, u, v), |g|;
    assert forall i :: 0 <= i < n ==> r[i] == g[i];
  }

  /** What is added neither is a forward declaration nor defines one. */
  ghost predicate Inert(g: seq<BtfType>, r: seq<BtfType>) {
    |g| <= |r| && r[..|g|] == g && forall e {:trigger r[e]} :: |g| <= e < |r| ==> !IsForward(r[e]) && forall f :: 0 <= f < |g| ==> !Defines(r[e], g[f])
  }

  lemma UsersInert(g: seq<BtfType>, f: u32, a: u32, b: u32, u: u32, v: u32)
    requires Clash(g, f, a, b, u, v)
    ensures Inert(g, Users(g, f, a, b, u, v))
  {
  }

  lemma {:induction false} FirstDefKept(g: seq<BtfType>, r: seq<BtfType>, shape: BtfType, from: nat)
    requires |g| <= |r| && r[..|g|] == g && exists d :: from <= d < |g| && Defines(g[d], shape)
    ensures FirstDef(r, shape, from) == FirstDef(g, shape, from)
    decreases |g| - from
  {
    assert r[from] == g[from];
    var d :| from <= d < |g| && Defines(g[d], shape);
    assert Defines(r[d], shape);
    if !Defines(g[from], shape) { FirstDefKept(g, r, shape, from + 1); }
  }

  lemma ViewKept(g: seq<BtfType>, r: seq<BtfType>, x: nat)
    requires Closed(g) && Closed(r) && Inert(g, r) && x < |g|
    ensures ViewOf(Linked, r, x) == ViewOf(Linked, g, x)
  {
    var shape := Label(g[x]);
    assert r[x] == g[x];
    forall e | 0 <= e < |r| ensures Defines(r[e], shape) == (e < |g| && Defines(g[e], shape)) {
      DefinesLabel(r[e], g[x]);
      if e < |g| { assert r[e] == g[e]; }
    }
    if HasDef(g, shape) { FirstDefKept(g, r, shape, 0); }
    assert HasDef(r, shape) == HasDef(g, shape);
    var t := Target(g, x);
    assert Target(r, x) == t && r[t] == g[t];
  }

  lemma {:induction false} MeaningKept(g: seq<BtfType>, r: seq<BtfType>, k: nat, x: nat)
    requires Closed(g) && Closed(r) && Inert(g, r) && x < |g|
    ensures Unfold(Linked, r, k, x) == Unfold(Linked, g, k, x)
    decreases k
  {
    if k > 0 {
      ViewKept(g, r, x);
      var j, rs := k - 1, ViewOf(Linked, g, x).refs;
      forall i | 0 <= i < |rs| ensures Unfold(Linked, r, j, rs[i]) == Unfold(Linked, g, j, rs[i]) { MeaningKept(g, r, j, rs[i]); }
      UnfoldStep(Linked, r, g, j, x, x);
    }
  }

  lemma SameKept(g: seq<BtfType>, r: seq<BtfType>, a: nat, b: nat)
    requires Closed(g) && Closed(r) && Inert(g, r) && a < |g| && b < |g|
    ensures Same(Linked, r, a, b) <==> Same(Linked, g, a, b)
  {
    forall k: nat ensures Unfold(Linked, r, k, a) == Unfold(Linked, g, k, a) && Unfold(Linked, r, k, b) == Unfold(Linked, g, k, b) {
      MeaningKept(g, r, k, a);
      MeaningKept(g, r, k, b);
    }
    if Same(Linked, r, a, b) {
      forall k: nat ensures Unfold(Linked, g, k, a) == Unfold(Linked, g, k, b) { assert Unfold(Linked, r, k, a) == Unfold(Linked, r, k, b); }
    }
    if Same(Linked, g, a, b) {
      forall k: nat ensures Unfold(Linked, r, k, a) == Unfold(Linked, r, k, b) { assert Unfold(Linked, g, k, a) == Unfold(Linked, g, k, b); }
    }
  }

  lemma RuleKept(g: seq<BtfType>, r: seq<BtfType>)
    requires Closed(g) && Closed(r) && Inert(g, r) && OneDefinition(g)
    ensures OneDefinition(r)
  {
    forall f, a, b | 0 <= f < |r| && 0 <= a < |r| && 0 <= b < |r| && Defines(r[a], r[f]) && Defines(r[b], r[f]) ensures Same(Linked, r, a, b) {
      assert f < |g| && r[f] == g[f];
      assert a < |g| && b < |g| && r[a] == g[a] && r[b] == g[b];
      assert Same(Linked, g, a, b);
      SameKept(g, r, a, b);
    }
  }

  /** The rule is needed: if the meaning of all users survives, the definitions mean the same. */
  lemma RuleNeeded(g: seq<BtfType>, start: nat, f: u32, a: u32, b: u32, u: u32, v: u32, h: seq<BtfType>, final: seq<u32>)
    requires WfGraph(g, start) && Clash(g, f, a, b, u, v) && Closed(Users(g, f, a, b, u, v))
    requires Deduplicated(Users(g, f, a, b, u, v), start, h, final) && LinkedKept(Users(g, f, a, b, u, v), h, final)
    ensures Same(Linked, g, a, b)
  {
    var r, n := Users(g, f, a, b, u, v), |g|;
    UsersTwins(g, start, f, a, b, u, v);
    TwinsKept(r, start, h, final, u, n + 5, n + 4, f, n + 1, n, a);
    TwinsKept(r, start, h, final, v, n + 6, n + 4, f, n + 3, n + 2, b);
    forall k: nat ensures Unfold(Linked, r, k, a) == Unfold(Linked, r, k, b) {
      assert Unfold(Linked, r, k, a) == Unfold(Linked, r, k, f) == Unfold(Linked, r, k, b);
    }
    UsersInert(g, f, a, b, u, v);
    SameKept(g, r, a, b);
  }

  /** The rule is enough, whatever users there are. */
  lemma RuleEnough(g: seq<BtfType>, start: nat, f: u32, a: u32, b: u32, u: u32, v: u32, h: seq<BtfType>, final: seq<u32>)
    requires WfGraph(g, start) && Clash(g, f, a, b, u, v) && Closed(Users(g, f, a, b, u, v)) && OneDefinition(g)
    requires Deduplicated(Users(g, f, a, b, u, v), start, h, final)
    ensures LinkedKept(Users(g, f, a, b, u, v), h, final)
  {
    var r := Users(g, f, a, b, u, v);
    UsersInert(g, f, a, b, u, v);
    RuleKept(g, r);
    assert Linkable(Linked, r);
  }

  /** The users of a clash lose their meaning in no outcome of deduplication. */
  ghost predicate UsersKept(g: seq<BtfType>, start: nat, f: u32, a: u32, b: u32, u: u32, v: u32)
    requires WfGraph(g, start) && Clash(g, f, a, b, u, v)
  {
    UsersWf(g, start, f, a, b, u, v);
    var r := Users(g, f, a, b, u, v);
    forall h, final {:trigger Deduplicated(r, start, h, final)} :: Deduplicated(r, start, h, final) ==> LinkedKept(r, h, final)
  }

  /** In every outcome some user of a clash has lost its meaning. */
  ghost predicate UsersLost(g: seq<BtfType>, start: nat, f: u32, a: u32, b: u32, u: u32, v: u32)
    requires WfGraph(g, start) && Clash(g, f, a, b, u, v)
  {
    UsersWf(g, start, f, a, b, u, v);
    var r := Users(g, f, a, b, u, v);
    forall h, final {:trigger Deduplicated(r, start, h, final)} :: Deduplicated(r, start, h, final) ==> !LinkedKept(r, h, final)
  }

  /**
   * The one-definition rule is exactly what it takes for the meaning of whatever uses the forward declarations to
   * survive, forwards read as their definitions: with it every outcome of deduplication keeps the meaning of the users
   * of any clash, and without it there is a clash whose users lose theirs in every outcome.
   */
  lemma RuleExact(g: seq<BtfType>, start: nat, u: u32, v: u32)
    requires WfGraph(g, start) && Fresh(g, u, v)
    ensures OneDefinition(g) ==> forall f, a, b {:trigger UsersKept(g, start, f, a, b, u, v)} :: Clash(g, f, a, b, u, v) ==> UsersKept(g, start, f, a, b, u, v)
    ensures !OneDefinition(g) ==> exists f, a, b {:trigger UsersLost(g, start, f, a, b, u, v)} :: Clash(g, f, a, b, u, v) && UsersLost(g, start, f, a, b, u, v)
  {
    if OneDefinition(g) {
      forall f, a, b | Clash(g, f, a, b, u, v) ensures UsersKept(g, start, f, a, b, u, v) {
        UsersWf(g, start, f, a, b, u, v);
        forall h, final | Deduplicated(Users(g, f, a, b, u, v), start, h, final) ensures LinkedKept(Users(g, f, a, b, u, v), h, final) {
          RuleEnough(g, start, f, a, b, u, v, h, final);
        }
      }
    } else {
      var f: u32, a: u32, b: u32 :| f < |g| && a < |g| && b < |g| && Defines(g[a], g[f]) && Defines(g[b], g[f]) && !Same(Linked, g, a, b);
      assert Clash(g, f, a, b, u, v);
      UsersWf(g, start, f, a, b, u, v);
      forall h, final | Deduplicated(Users(g, f, a, b, u, v), start, h, final) ensures !LinkedKept(Users(g, f, a, b, u, v), h, final) {
        if LinkedKept(Users(g, f, a, b, u, v), h, final) { RuleNeeded(g, start, f, a, b, u, v, h, final); }
      }
      assert UsersLost(g, start, f, a, b, u, v);
    }
  }

  // ----- an input on which a forward declaration ends as one definition here and as another there

  /** An int, two structs of one name that differ in a member, and a forward declaration of that name. */
  function TwoDefinitions(): seq<BtfType> {
    [VOID, BtfType(1, Info(Int, 0, false, 0, 0), 4, Word(32)),
     BtfType(2, Info(Struct, 1, false, 0, 0), 4, Members([Member(3, 1, 0)])),
     BtfType(2, Info(Struct, 1, false, 0, 0), 4, Members([Member(4, 1, 0)])),
     BtfType(2, Info(Fwd, 0, false, 0, 0), 0, NoTail)]
  }

  lemma TwoRefs(x: nat)
    requires x < 5
    ensures Refs(TwoDefinitions()[x]) == if x == 2 || x == 3 then [1] else if x == 4 then [0] else []
  {
    if x == 2 { HolderLike(TwoDefinitions()[2], 1); }
    if x == 3 { HolderLike(TwoDefinitions()[3], 1); }
  }

  lemma HolderLike(t: BtfType, p: u32)
    requires t.info.kind == Struct && t.tail.Members? && |t.tail.ms| == 1 && t.tail.ms[0].typ == p
    ensures Refs(t) == [p]
  {
  }

  lemma TwoDefinitionsAt(x: nat)
    requires x < 5
    ensures var g := TwoDefinitions(); WfType(g[x]) && RefsBelow(g[x], 5) && (x == 0 ==> RefsBelow(g[x], 1))
    ensures var g := TwoDefinitions(); (x > 0 ==> KnownKind(g[x]) && 0 <= TypeSize(g[x])) && !IsRewritten(g[x]) && IsPlain(g[x]) && g[x].nameOff < 5
  {
    TwoRefs(x);
  }

  lemma TwoDefinitionsWf()
    ensures WfGraph(TwoDefinitions(), 1) && Clash(TwoDefinitions(), 4, 2, 3, 5, 6) && Calm(TwoDefinitions())
    ensures AcyclicRefs(TwoDefinitions(), 1, [0, 0, 0, 0, 0]) && KnownSizes(TwoDefinitions(), 1)
  {
    forall x: nat | x < 5 { TwoDefinitionsAt(x); }
    var g := TwoDefinitions();
    assert Defines(g[2], g[4]) && Defines(g[3], g[4]);
    forall x | 0 <= x < |g| ensures Closed(g) && PlainRefs(g, x) { TwoRefs(x); }
  }

  lemma TwoMeanings()
    ensures Closed(TwoDefinitions()) && !Same(Linked, TwoDefinitions(), 2, 3)
  {
    TwoDefinitionsWf();
    var g := TwoDefinitions();
    OwnView(g, 2);
    OwnView(g, 3);
    assert Label(g[2]).tail.ms[0].nameOff == 3 && Label(g[3]).tail.ms[0].nameOff == 4;
    assert Unfold(Linked, g, 1, 2).shape == Label(g[2]) && Unfold(Linked, g, 1, 3).shape == Label(g[3]);
  }

  /** Users do not keep deduplication from succeeding. */
  lemma UsersCalm(g: seq<BtfType>, start: nat, f: u32, a: u32, b: u32, u: u32, v: u32, rank: seq<nat>)
    requires WfGraph(g, start) && Clash(g, f, a, b, u, v) && Calm(g) && AcyclicRefs(g, start, rank) && KnownSizes(g, start)
    ensures var r := Users(g, f, a, b, u, v); Closed(r) && Calm(r) && KnownSizes(r, start) && AcyclicRefs(r, start, rank + [0, 0, 0, 0, 0, 0, 0])
  {
    var r, n := Users(g, f, a, b, u, v), |g|;
    UsersWf(g, start, f, a, b, u, v);
    var up := rank + [0, 0, 0, 0, 0, 0, 0];
    DefinitionDiffers(g[a], g[f]);
    DefinitionDiffers(g[b], g[f]);
    forall x | 0 <= x < |r|
      ensures (x > 0 ==> KnownKind(r[x])) && (IsPlain(r[x]) ==> PlainRefs(r, x))
      ensures start <= x ==> 0 <= TypeSize(r[x]) && (IsRewritten(r[x]) ==> RefsRanked(r, start, up, x))
    {
      if x < n { OldUser(g, r, start, rank, up, x); } else { NewUser(g, start, f, a, b, u, v, up, x); }
    }
  }

  lemma OldUser(g: seq<BtfType>, r: seq<BtfType>, start: nat, rank: seq<nat>, up: seq<nat>, x: nat)
    requires Closed(g) && Closed(r) && Calm(g) && KnownSizes(g, start) && AcyclicRefs(g, start, rank)
    requires x < |g| <= |r| == |up| && (forall i :: 0 <= i < |g| ==> r[i] == g[i] && up[i] == rank[i])
    ensures (x > 0 ==> KnownKind(r[x])) && (IsPlain(r[x]) ==> PlainRefs(r, x))
    ensures start <= x ==> 0 <= TypeSize(r[x]) && (IsRewritten(r[x]) ==> RefsRanked(r, start, up, x))
  {
    assert RefsBelow(g[x], |g|);
    assert IsPlain(g[x]) ==> PlainRefs(g, x);
    assert x > 0 ==> KnownKind(g[x]);
    assert start <= x ==> 0 <= TypeSize(g[x]);
    if start <= x && IsRewritten(g[x]) { assert RefsRanked(g, start, rank, x); }
  }

  lemma NewUser(g: seq<BtfType>, start: nat, f: u32, a: u32, b: u32, u: u32, v: u32, up: seq<nat>, x: nat)
    requires Clash(g, f, a, b, u, v) && Closed(Users(g, f, a, b, u, v)) && |g| <= x < |g| + 7 == |up|
    ensures var r := Users(g, f, a, b, u, v);
            KnownKind(r[x]) && PlainRefs(r, x) && 0 <= TypeSize(r[x]) && (IsRewritten(r[x]) ==> RefsRanked(r, start, up, x))
  {
    var r := Users(g, f, a, b, u, v);
    if r[x].info.kind == Struct {
      var p := r[x].tail.ms[0].typ;
      HolderRefs(r[x].nameOff, p);
      assert r[p].info.kind == Ptr;
      OneRefUser(r, start, up, x, p);
    } else {
      var p := r[x].size;
      HolderRefs(0, p);
      EndPlain(g, f, a, b, p);
      assert r[p] == g[p];
      OneRefUser(r, start, up, x, p);
    }
  }

  lemma EndPlain(g: seq<BtfType>, f: u32, a: u32, b: u32, p: u32)
    requires f < |g| && a < |g| && b < |g| && Defines(g[a], g[f]) && Defines(g[b], g[f]) && (p == a || p == b || p == f)
    ensures IsPlain(g[p]) && !IsRewritten(g[p])
  {
  }

  lemma OneRefUser(r: seq<BtfType>, start: nat, up: seq<nat>, x: nat, p: u32)
    requires Closed(r) && |up| == |r| && x < |r| && p < |r| && Refs(r[x]) == [p] && IsPlain(r[p])
    ensures PlainRefs(r, x) && (!IsRewritten(r[p]) ==> RefsRanked(r, start, up, x))
  {
  }

  /** Deduplicate the types of a BTF without base. */
  method Deduplicate(types: seq<BtfType>) returns (err: int, ghost h: seq<BtfType>, ghost final: seq<u32>)
    requires WfGraph(types, 1) && KnownSizes(types, 1)
    ensures err == 0 ==> Deduplicated(types, 1, h, final)
    ensures Calm(types) ==> (err == 0 <==> exists rank: seq<nat> :: AcyclicRefs(types, 1, rank))
  {
    var arr := new BtfType[|types|](i requires 0 <= i < |types| => types[i]);
    var offs := new int[|types| - 1](i requires 0 <= i < |types| - 1 => SizeSum(types, 1, 1 + i));
    assert arr[..] == types;
    var btf := new Btf(arr, 1, offs, SizeSum(types, 1, |types|));
    assert btf.Graph() == types;
    err, final := DedupTypes(btf);
    h := if err == 0 then btf.Graph() else [];
  }

  /** The input: the two definitions with a struct u of the first, a struct v of the second, and both of the forward. */
  function Confused(): seq<BtfType> { Users(TwoDefinitions(), 4, 2, 3, 5, 6) }

  lemma ConfusedWf()
    ensures WfGraph(Confused(), 1) && KnownSizes(Confused(), 1) && Calm(Confused())
    ensures exists rank: seq<nat> :: AcyclicRefs(Confused(), 1, rank)
  {
    TwoDefinitionsWf();
    UsersWf(TwoDefinitions(), 1, 4, 2, 3, 5, 6);
    UsersCalm(TwoDefinitions(), 1, 4, 2, 3, 5, 6, [0, 0, 0, 0, 0]);
  }

  lemma ConfusedLost(h: seq<BtfType>, final: seq<u32>)
    requires Closed(Confused()) && Deduplicated(Confused(), 1, h, final)
    ensures !LinkedKept(Confused(), h, final)
  {
    TwoDefinitionsWf();
    TwoMeanings();
    if LinkedKept(Confused(), h, final) { RuleNeeded(TwoDefinitions(), 1, 4, 2, 3, 5, 6, h, final); }
  }

  /** Deduplication succeeds, and not every type keeps its meaning. */
  method MeaningLost() returns (err: int, ghost h: seq<BtfType>, ghost final: seq<u32>)
    ensures err == 0 && Closed(Confused()) && Deduplicated(Confused(), 1, h, final) && !LinkedKept(Confused(), h, final)
  {
    ConfusedWf();
    err, h, final := Deduplicate(Confused());
    ConfusedLost(h, final);
  }
}
