/** Deduplication of BTF types: canonical map, table of canonical types, and the passes over them. */
module BtfDedup {
  import opened Ints
  import opened BtfTypes
  import opened Meaning
  import opened Forest
  import opened HypotSpec
  import opened BtfCompare
  import opened DedupInv
  import opened RefInv
  import opened DedupResult
  import opened Copies
  import opened Merging
  import opened Errno

  /** A walk that succeeded from a cleared hypothetical map: all it paired means the same. */
  lemma PairsAlike(g: seq<BtfType>, m: seq<u32>, hyp: seq<u32>, x: nat, y: nat)
    requires Closed(g) && MapInv(g, m) && HypShape(|g|, hyp) && AllChecked(g, m, hyp)
    requires x < |g| && y < |g| && Rel(g, m, hyp, x, y)
    ensures Alike(g, x, y) && PairsMatch(g, hyp)
  {
    forall mode | Linkable(mode, g) ensures Same(mode, g, x, y) {
      assert MapSound(mode, g, m);
      forall k: nat ensures Unfold(mode, g, k, x) == Unfold(mode, g, k, y) {
        RelAgree(mode, g, m, hyp, k, x, y);
      }
    }
    forall c, mode | 0 <= c < |g| && Mapped(hyp[c]) && Linkable(mode, g) ensures Same(mode, g, c, hyp[c]) {
      assert MapSound(mode, g, m);
      PairsSame(mode, g, m, hyp);
    }
  }

  lemma WalkComplete(g: seq<BtfType>, m: seq<u32>, hyp0: seq<u32>, hyp: seq<u32>)
    requires Closed(g) && IsForest(m) && |m| == |g| == |hyp0| && HypShape(|g|, hyp)
    requires NewChecked(g, m, hyp0, hyp) && forall c :: 0 <= c < |g| ==> hyp0[c] == UNPROCESSED
    ensures AllChecked(g, m, hyp)
  {
  }

  ghost predicate FreshMap(g: seq<BtfType>, m: seq<u32>) {
    |m| == |g| && forall x :: 0 <= x < |m| ==> m[x] == if x == 0 || NeverDeduped(g[x]) then x else UNPROCESSED
  }

  /** None of the first k ids has descriptor t. */
  ghost predicate NoneEqual(types: seq<BtfType>, ids: seq<u32>, k: nat, t: BtfType) {
    k <= |ids| && forall j {:trigger ids[j]} :: 0 <= j < k ==> ids[j] < |types| && types[ids[j]] != t
  }

  ghost predicate PairsMatch(g: seq<BtfType>, hyp: seq<u32>)
    requires Closed(g)
  {
    HypShape(|g|, hyp) && forall c {:trigger Alike(g, c, hyp[c])} :: 0 <= c < |g| && Mapped(hyp[c]) ==> Alike(g, c, hyp[c])
  }

  lemma NoneEqualStep(types: seq<BtfType>, ids: seq<u32>, k: nat, t: BtfType)
    requires NoneEqual(types, ids, k, t) && k < |ids| && ids[k] < |types| && types[ids[k]] != t
    ensures NoneEqual(types, ids, k + 1, t)
  {
  }

  /** If no candidate under its hash equals type id, nothing in the table does. */
  lemma NotFiled(types: seq<BtfType>, table: map<u32, nat>, cands: seq<u32>, id: u32)
    requires forall e :: e in table ==> e < |types| && WfType(types[e])
    requires id < |types| && WfType(types[id]) && Hashed(types, table)
    requires forall e :: e in cands <==> e in table && table[e] == HashOf(types[id])
    requires NoneEqual(types, cands, |cands|, types[id])
    ensures Unfiled(types, table, types[id])
  {
    forall e | e in table ensures types[e] != types[id] {
      assert table[e] == HashOf(types[e]);
      assert e in cands ==> types[e] != types[id];
    }
  }

  /** A primitive type is represented by an equal one, or an enum forward by a definition. */
  ghost predicate Standing(g: seq<BtfType>, id: nat, to: nat) {
    id < |g| && to < |g| && (g[to] == g[id] || (IsAnyEnum(g[id]) && Defines(g[to], g[id])))
  }

  /** Of the first k candidates, those that id defines are pointed at it. */
  ghost predicate Repointed(g: seq<BtfType>, m: seq<u32>, ids: seq<u32>, k: nat, id: u32) {
    id < |g| == |m| && k <= |ids| && forall j {:trigger ids[j]} :: 0 <= j < k ==> ids[j] < |g| && (Defines(g[id], g[ids[j]]) ==> m[ids[j]] == id)
  }

  lemma RepointedStep(g: seq<BtfType>, m: seq<u32>, m': seq<u32>, ids: seq<u32>, k: nat, id: u32)
    requires Repointed(g, m, ids, k, id) && k < |ids| && ids[k] < |g|
    requires m' == if Defines(g[id], g[ids[k]]) then m[ids[k] := id] else m
    ensures Repointed(g, m', ids, k + 1, id)
  {
  }

  /** What an enum defines has its hash. */
  lemma EnumHash(d: BtfType, f: BtfType)
    requires WfType(d) && WfType(f) && IsAnyEnum(d) && Defines(d, f)
    ensures HashOf(d) == HashOf(f)
  {
  }

  lemma AllRepointed(g: seq<BtfType>, m: seq<u32>, table: map<u32, nat>, cands: seq<u32>, id: u32)
    requires forall e :: e in table ==> e < |g| && WfType(g[e])
    requires id < |g| && WfType(g[id]) && IsAnyEnum(g[id]) && Hashed(g, table) && Repointed(g, m, cands, |cands|, id)
    requires forall e :: e in cands <==> e in table && table[e] == HashOf(g[id])
    ensures forall e {:trigger e in table} :: e in table && Defines(g[id], g[e]) ==> m[e] == id
  {
    forall e | e in table && Defines(g[id], g[e]) ensures m[e] == id {
      EnumHash(g[id], g[e]);
      assert table[e] == HashOf(g[e]);
      assert e in cands;
    }
  }

  /** All structs among the first `upto` ids have been given a canonical type. */
  ghost predicate StructsMapped(g: seq<BtfType>, m: seq<u32>, upto: nat) {
    |m| == |g| && forall x {:trigger m[x]} :: 0 <= x < upto && x < |m| && IsComposite(g[x]) ==> Mapped(m[x])
  }

  lemma NextStructMapped(g: seq<BtfType>, m0: seq<u32>, m: seq<u32>, id: nat)
    requires StructsMapped(g, m0, id) && KeepsMapped(m0, m) && id < |m| && (IsComposite(g[id]) ==> Mapped(m[id]))
    ensures StructsMapped(g, m, id + 1)
  {
    forall x | 0 <= x < id + 1 && IsComposite(g[x]) ensures Mapped(m[x]) { assert x < id ==> Mapped(m0[x]); }
  }

  lemma StructsSettled(g: seq<BtfType>, start: nat, m: seq<u32>)
    requires MapOk(m) && |m| == |g| && Grounded(g, start, m) && StructsMapped(g, m, |m|)
    ensures Settled(m)
  {
  }

  lemma WalkOrderPlain(g: seq<BtfType>, x: nat)
    requires Closed(g) && x < |g| && WfType(g[x]) && RefsBelow(g[x], |g|) && AllBelow(WalkOrder(g[x]), |g|)
    requires Calm(g) && IsPlain(g[x])
    ensures AllPlain(g, WalkOrder(g[x]))
  {
    var rs, ws := Refs(g[x]), WalkOrder(g[x]);
    assert PlainRefs(g, x);
    if g[x].info.kind == Array {
      assert rs == [g[x].tail.elem, g[x].tail.index] by { RefsByKind(g[x]); }
      SwapPlain(g, rs, ws);
    } else {
      assert ws == rs;
    }
  }

  lemma SwapPlain(g: seq<BtfType>, rs: seq<u32>, ws: seq<u32>)
    requires |rs| == |ws| == 2 && ws[0] == rs[1] && ws[1] == rs[0] && AllBelow(rs, |g|) && AllBelow(ws, |g|)
    requires AllPlain(g, rs)
    ensures AllPlain(g, ws)
  {
  }

  /** The structure is the copy of none of the first k candidates. */
  ghost predicate NoneCopied(g: seq<BtfType>, id: nat, cands: seq<u32>, k: nat)
    requires Closed(g)
  {
    k <= |cands| && forall j {:trigger cands[j]} :: 0 <= j < k ==> !CopyOf(g, id, cands[j])
  }

  lemma NoneCopiedStep(g: seq<BtfType>, id: nat, cands: seq<u32>, k: nat)
    requires Closed(g) && NoneCopied(g, id, cands, k) && k < |cands| && !CopyOf(g, id, cands[k])
    ensures NoneCopied(g, id, cands, k + 1)
  {
  }

  /** If no candidate under its hash has structure id for a copy, no canonical structure has. */
  lemma NoOriginalFiled(g: seq<BtfType>, start: nat, m: seq<u32>, table: map<u32, nat>, cands: seq<u32>, id: u32)
    requires Core(g, start, m, table) && id < |g| && IsComposite(g[id]) && NoneCopied(g, id, cands, |cands|)
    requires forall e :: e in cands <==> e in table && table[e] == HashOf(g[id])
    ensures NoOriginal(g, m[id := id], id)
  {
    forall y: u32 | y < id && IsComposite(g[y]) && m[y] == y ensures !CopyOf(g, id, y) {
      assert y in table && WfType(g[y]) && WfType(g[id]);
      var _ := AnyCopy(g, id, y);
      if CopyOf(g, id, y) { CompositeHash(g[id], g[y]); }
    }
  }

  lemma PrimsDone(g: seq<BtfType>, start: nat, m: seq<u32>, table: map<u32, nat>)
    requires Closed(g) && |m| == |g| && Frontier(g, start, m, table, |m|)
    ensures Grounded(g, start, m) && CopyFree(g, start, m, start)
  {
  }

  /** Structures are mapped, and as they were. */
  ghost predicate StructsKept(g: seq<BtfType>, m0: seq<u32>, m: seq<u32>) {
    |m0| == |m| == |g| && forall x {:trigger m[x]} :: 0 <= x < |m| && IsComposite(g[x]) ==> m[x] == m0[x] && Mapped(m0[x])
  }

  lemma StructsStillKept(g: seq<BtfType>, m0: seq<u32>, m: seq<u32>, types: seq<BtfType>, m': seq<u32>, types': seq<BtfType>)
    requires StructsKept(g, m0, m) && Keeps(m, types, m', types')
    ensures StructsKept(g, m0, m')
  {
  }

  lemma CopyFreeKept(g: seq<BtfType>, start: nat, m0: seq<u32>, m: seq<u32>)
    requires Closed(g) && CopyFree(g, start, m0, |g|) && StructsKept(g, m0, m)
    ensures CopyFree(g, start, m, |g|)
  {
  }

  lemma SameAt<T>(s: seq<T>, i: nat)
    requires i < |s|
    ensures s[i := s[i]] == s
  {
  }

  /** No type is in progress. */
  ghost predicate Idle(m: seq<u32>) {
    forall y {:trigger m[y]} :: 0 <= y < |m| ==> m[y] != IN_PROGRESS
  }

  ghost predicate MappedBelow(m: seq<u32>, upto: nat) {
    forall x {:trigger m[x]} :: 0 <= x < upto && x < |m| ==> Mapped(m[x])
  }

  lemma MappedNext(m0: seq<u32>, types0: seq<BtfType>, m: seq<u32>, types: seq<BtfType>, id: nat, next: nat)
    requires MappedBelow(m0, id) && Keeps(m0, types0, m, types) && next == id + 1 <= |m| && Mapped(m[id])
    ensures MappedBelow(m, next)
  {
    forall x | 0 <= x < next ensures Mapped(m[x]) { assert x < id ==> Mapped(m0[x]); }
  }

  /** Kinds whose comparison does not look at referenced types. */
  predicate IsLeaf(k: Kind) {
    k == Int || k == Float || k == Fwd || k == Enum || k == Enum64
  }

  /** The switch of btf_dedup_is_equiv over two descriptors of one name and kind. */
  method CompareShapes(t: BtfType, c: BtfType) returns (eq: int)
    requires WfType(t) && WfType(c) && t.info.kind == c.info.kind && t.nameOff == c.nameOff
    ensures eq == 1 || eq == 0 || eq == -EINVAL
    ensures eq == -EINVAL <==> NeverDeduped(t) || t.info.kind == DeclTag || t.info.kind == Unkn || t.info.kind.Other?
    ensures IsLeaf(t.info.kind) ==> (eq == 1 <==> t == c || Defines(t, c) || Defines(c, t))
    ensures !IsLeaf(t.info.kind) && Comparable(t) ==> (eq == 1 <==> Label(t) == Label(c))
  {
    var same;
    match t.info.kind {
      case Int => same := EqualIntTag(t, c);
      case Enum => same := CompatEnum(t, c);
      case Enum64 => same := CompatEnum64(t, c);
      case Fwd | Float => same := EqualCommon(t, c);
      case Const | Volatile | Restrict | Ptr | Typedef | Func | TypeTag => same := t.info == c.info;
      case Array => same := CompatArray(t, c);
      case Struct | Union => same := ShallowEqualStruct(t, c);
      case FuncProto => same := CompatFnproto(t, c);
      case _ => return -EINVAL;
    }
    return if same then 1 else 0;
  }

  lemma FreshMapInv(g: seq<BtfType>, m: seq<u32>)
    requires Closed(g) && |m| == |g| <= BTF_MAX_NR_TYPES + 1 && FreshMap(g, m)
    ensures MapInv(g, m)
  {
    assert Ranked(m, seq(|m|, i => 0));
    forall mode | Linkable(mode, g) ensures MapSound(mode, g, m) {
      forall x | 0 <= x < |m| && Mapped(m[x]) ensures Same(mode, g, x, m[x]) {}
    }
  }

  method NewCanonMap(types: array<BtfType>) returns (m: array<u32>)
    requires 0 < types.Length <= BTF_MAX_NR_TYPES + 1
    ensures fresh(m) && FreshMap(types[..], m[..])
  {
    m := new u32[types.Length];
    m[0] := 0;
    for i := 1 to types.Length
      invariant forall x :: 0 <= x < i ==> m[x] == if x == 0 || NeverDeduped(types[x]) then x else UNPROCESSED
    {
      m[i] := if NeverDeduped(types[i]) then i else UNPROCESSED;
    }
  }

  method NewHypotMap(n: nat) returns (h: array<u32>)
    ensures fresh(h) && h.Length == n && forall c :: 0 <= c < n ==> h[c] == UNPROCESSED
  {
    h := new u32[n];
    for i := 0 to n
      invariant forall c :: 0 <= c < i ==> h[c] == UNPROCESSED
    {
      h[i] := UNPROCESSED;
    }
  }

  /**
   * The types of one BTF, by id; ids below startId belong to its base. typeOffs gives the byte
   * offset of each type of this BTF in its type section, which is typeLen bytes long.
   */
  class Btf {
    const types: array<BtfType>
    const startId: nat
    const typeOffs: array<int>
    var nrTypes: nat
    var typeLen: int

    constructor (types: array<BtfType>, startId: nat, typeOffs: array<int>, typeLen: int)
      requires startId <= types.Length
      ensures this.types == types && this.startId == startId && nrTypes == types.Length - startId
      ensures this.typeOffs == typeOffs && this.typeLen == typeLen
    {
      this.types, this.startId, this.nrTypes := types, startId, types.Length - startId;
      this.typeOffs, this.typeLen := typeOffs, typeLen;
    }

    /** The types this BTF gives access to, the base included. */
    ghost function Graph(): seq<BtfType>
      requires startId + nrTypes <= types.Length
      reads this, types
    {
      types[..startId + nrTypes]
    }

    lemma GraphIs(n: nat)
      requires n == startId + nrTypes <= types.Length
      ensures Graph() == types[..][..n]
    {
    }

    /** The types of this BTF lie one after the other and fill the type section. */
    ghost predicate OffsetsTile()
      requires startId + nrTypes <= types.Length
      reads this, types, typeOffs
    {
      FillsSection(Graph(), typeOffs[..], startId, typeLen)
    }
  }

  class Dedup {
    const btf: Btf
    const canonMap: array<u32>
    const hypotMap: array<u32>
    var hypotList: seq<u32>
    var hypotAdjustCanon: bool
    var table: map<u32, nat>
    // the types as they were handed in
    ghost const orig: seq<BtfType>
    // when each reference type was completed
    ghost var doneAt: seq<nat>
    ghost var clock: nat

    ghost predicate Shape() {
      canonMap != hypotMap && canonMap.Length == hypotMap.Length == btf.types.Length == |orig|
    }

    /** The primitive and struct passes: the types are still those handed in. */
    ghost predicate Live()
      reads this, canonMap, btf.types
    {
      Shape() && btf.types[..] == orig && Core(orig, btf.startId, canonMap[..], table)
    }

    ghost predicate Hypot()
      reads this, hypotMap
    {
      HypotOk(hypotMap.Length, hypotMap[..], hypotList)
    }

    /** Void, VAR and DATASEC are canonical from the start, everything else is unprocessed. */
    constructor (btf: Btf)
      requires WfGraph(btf.types[..], btf.startId) && btf.startId + btf.nrTypes == btf.types.Length
      ensures this.btf == btf && orig == btf.types[..] && fresh(canonMap) && fresh(hypotMap)
      ensures Live() && Hypot() && table == map[] && Frontier(orig, btf.startId, canonMap[..], table, 1)
    {
      this.btf := btf;
      var typeCnt := btf.startId + btf.nrTypes;
      var m := NewCanonMap(btf.types);
      var h := NewHypotMap(typeCnt);
      canonMap, hypotMap := m, h;
      hypotList, hypotAdjustCanon, table := [], false, map[];
      doneAt, clock := [], 0;
      orig := btf.types[..];
      new;
      FreshMapInv(orig, canonMap[..]);
    }

    // ----- looking ids up

    method ResolveTypeId(id: u32) returns (r: u32)
      requires Shape() && IsForest(canonMap[..]) && id < canonMap.Length
      ensures r < |orig| && r == Root(canonMap[..], id)
    {
      ghost var m := canonMap[..];
      ghost var rank: seq<nat> :| Ranked(m, rank);
      r := id;
      while Mapped(canonMap[r]) && canonMap[r] != r
        invariant r < |orig| && Root(m, r) == Root(m, id)
        decreases rank[r]
      {
        RootStep(m, r);
        r := canonMap[r];
      }
      RootStep(m, r);
    }

    method ResolveFwdId(id: u32) returns (r: u32)
      requires Shape() && IsForest(canonMap[..]) && id < |orig| && btf.types[..] == orig
      ensures r < |orig| && r == FwdRoot(orig, canonMap[..], id)
    {
      if !IsFwd(btf.types[id]) { return id; }
      r := ResolveTypeId(id);
      if IsFwd(btf.types[r]) { r := id; }
    }

    /** The ids filed under one hash, in whatever order the hash chains hold them. */
    method Candidates(h: nat) returns (ids: seq<u32>)
      ensures forall id :: id in ids <==> id in table && table[id] == h
      ensures forall j {:trigger ids[j]} :: 0 <= j < |ids| ==> ids[j] in table && table[ids[j]] == h
    {
      ids := [];
      var rest := table.Keys;
      while rest != {}
        invariant rest <= table.Keys
        invariant forall id :: id in ids <==> id in table && id !in rest && table[id] == h
        decreases rest
      {
        var id :| id in rest;
        rest := rest - {id};
        if table[id] == h { ids := ids + [id]; }
      }
      assert forall j {:trigger ids[j]} :: 0 <= j < |ids| ==> ids[j] in ids;
    }

    method SameDescriptor(a: BtfType, b: BtfType) returns (eq: bool)
      requires WfType(a) && WfType(b) && !IsComposite(a) && !IsAnyEnum(a) && !NeverDeduped(a)
      ensures eq <==> a == b
    {
      match a.info.kind
      case Int => eq := EqualIntTag(a, b);
      case DeclTag => eq := EqualIntTag(a, b);
      case Array => eq := EqualArray(a, b);
      case FuncProto => eq := EqualFnproto(a, b);
      case _ => eq := EqualCommon(a, b);
    }

    /** Walk the candidates up to the first one with exactly the descriptor t. */
    method FirstEqual(t: BtfType, cands: seq<u32>) returns (k: nat)
      requires WfType(t) && !IsComposite(t) && !IsAnyEnum(t) && !NeverDeduped(t)
      requires forall j {:trigger cands[j]} :: 0 <= j < |cands| ==> cands[j] < btf.types.Length && WfType(btf.types[cands[j]])
      ensures k <= |cands| && (k < |cands| ==> btf.types[cands[k]] == t)
      ensures forall j :: 0 <= j < k ==> btf.types[cands[j]] != t
    {
      k := 0;
      while k < |cands|
        invariant k <= |cands|
        invariant forall j :: 0 <= j < k ==> btf.types[cands[j]] != t
      {
        var eq := SameDescriptor(t, btf.types[cands[k]]);
        if eq { return; }
        k := k + 1;
      }
    }

    /** The first candidate with exactly the descriptor of type id, or id itself. */
    method FindEqual(id: u32) returns (newId: u32)
      requires canonMap.Length == btf.types.Length && id < btf.types.Length && WfType(btf.types[id])
      requires !IsComposite(btf.types[id]) && !IsAnyEnum(btf.types[id]) && !NeverDeduped(btf.types[id])
      requires Filed(btf.types[..], canonMap[..], table) && Hashed(btf.types[..], table) && id !in table
      ensures newId == id || (newId in table && btf.types[newId] == btf.types[id])
      ensures newId == id ==> Unfiled(btf.types[..], table, btf.types[id])
    {
      var t := btf.types[id];
      ghost var types := btf.types[..];
      var h := Signature(t);
      var cands := Candidates(h);
      var k := FirstEqual(t, cands);
      if k < |cands| { return cands[k]; }
      NotFiled(types, table, cands, id);
      return id;
    }

    // ----- base types

    /** btf_dedup_prep: base types are self-canonical and become candidates for everything else. */
    method Prep() returns (err: int)
      requires Live() && Frontier(orig, btf.startId, canonMap[..], table, 1)
      modifies canonMap, this`table
      ensures err == 0 || err == -EINVAL
      ensures KnownKinds(orig) ==> err == 0
      ensures err == 0 ==> Live() && Frontier(orig, btf.startId, canonMap[..], table, btf.startId)
    {
      for id := 1 to btf.startId
        invariant Live() && Frontier(orig, btf.startId, canonMap[..], table, id)
      {
        var t := btf.types[id];
        assert KnownKinds(orig) ==> KnownKind(orig[id]);
        ghost var m := canonMap[..];
        canonMap[id] := id;
        assert canonMap[..] == m[id := id];
        SettleBase(orig, btf.startId, m, table, id);
        if !NeverDeduped(t) {
          if t.info.kind == Unkn || t.info.kind.Other? { return -EINVAL; }
          assert WfType(orig[id]);
          table := table[id := HashOf(t)];
        }
      }
      return 0;
    }

    // ----- primitive types

    /** The candidate that enum id resolves to, or id itself. */
    method ResolveEnum(id: u32) returns (newId: u32)
      requires Live() && AtFrontier(orig, btf.startId, canonMap[..], table, id) && IsAnyEnum(orig[id])
      modifies canonMap
      ensures Live() && AtFrontier(orig, btf.startId, canonMap[..], table, id) && KeepsMapped(old(canonMap[..]), canonMap[..])
      ensures newId == id || (newId in table && (orig[newId] == orig[id] || Defines(orig[newId], orig[id])))
      ensures newId == id ==> Unfiled(orig, table, orig[id])
      ensures newId == id ==> forall e {:trigger e in table} :: e in table && Defines(orig[id], orig[e]) ==> canonMap[e] == id
    {
      assert btf.types[id] == orig[id] && WfType(orig[id]);
      var cands := Candidates(HashOf(btf.types[id]));
      newId := SearchEnum(id, cands);
      if newId == id {
        NotFiled(orig, table, cands, id);
        AllRepointed(orig, canonMap[..], table, cands, id);
      }
    }

    /** The first candidate that enum id resolves to, or id itself. */
    method SearchEnum(id: u32, cands: seq<u32>) returns (newId: u32)
      requires Live() && AtFrontier(orig, btf.startId, canonMap[..], table, id) && IsAnyEnum(orig[id])
      requires forall j {:trigger cands[j]} :: 0 <= j < |cands| ==> cands[j] in table
      modifies canonMap
      ensures Live() && AtFrontier(orig, btf.startId, canonMap[..], table, id) && KeepsMapped(old(canonMap[..]), canonMap[..])
      ensures newId == id || (newId in table && (orig[newId] == orig[id] || Defines(orig[newId], orig[id])))
      ensures newId == id ==> NoneEqual(orig, cands, |cands|, orig[id]) && Repointed(orig, canonMap[..], cands, |cands|, id)
    {
      var k := 0;
      while k < |cands|
        invariant k <= |cands| && Live() && AtFrontier(orig, btf.startId, canonMap[..], table, id)
        invariant KeepsMapped(old(canonMap[..]), canonMap[..])
        invariant NoneEqual(orig, cands, k, orig[id]) && Repointed(orig, canonMap[..], cands, k, id)
      {
        ghost var m := canonMap[..];
        var hit := TryEnum(id, cands[k]);
        if hit { return cands[k]; }
        NoneEqualStep(orig, cands, k, orig[id]);
        RepointedStep(orig, m, canonMap[..], cands, k, id);
        k := k + 1;
      }
      return id;
    }

    /**
     * Compare enum id with one candidate. A full enum takes over a canonical forward that
     * announces it, and the search goes on.
     */
    method TryEnum(id: u32, cand: u32) returns (hit: bool)
      requires Live() && AtFrontier(orig, btf.startId, canonMap[..], table, id) && IsAnyEnum(orig[id]) && cand in table
      modifies canonMap
      ensures Live() && AtFrontier(orig, btf.startId, canonMap[..], table, id) && KeepsMapped(old(canonMap[..]), canonMap[..])
      ensures hit ==> orig[cand] == orig[id] || Defines(orig[cand], orig[id])
      ensures !hit ==> orig[cand] != orig[id]
      ensures canonMap[..] == if !hit && Defines(orig[id], orig[cand]) then old(canonMap[..])[cand := id] else old(canonMap[..])
    {
      var t, c := btf.types[id], btf.types[cand];
      assert t == orig[id] && c == orig[cand] && WfType(orig[id]) && WfType(orig[cand]);
      var equal, compat := CompareEnums(t, c);
      hit := equal || (compat && IsEnumFwd(t));
      if !hit && compat {
        ghost var m := canonMap[..];
        canonMap[cand] := id;
        assert canonMap[..] == m[cand := id];
        RepointForward(orig, btf.startId, m, table, id, cand);
      }
    }

    method CompareEnums(t: BtfType, cand: BtfType) returns (equal: bool, compat: bool)
      requires WfType(t) && WfType(cand) && IsAnyEnum(t)
      ensures equal <==> t == cand
      ensures compat <==> t == cand || Defines(t, cand) || Defines(cand, t)
    {
      if t.info.kind == Enum {
        equal := EqualEnum(t, cand);
        compat := CompatEnum(t, cand);
      } else {
        equal := EqualEnum64(t, cand);
        compat := CompatEnum64(t, cand);
      }
    }

    /** btf_dedup_prim_type */
    method PrimType(id: u32) returns (err: int)
      requires Live() && btf.startId <= id < |orig| && Frontier(orig, btf.startId, canonMap[..], table, id)
      modifies canonMap, this`table
      ensures err == 0 || err == -EINVAL
      ensures KnownKind(orig[id]) ==> err == 0
      ensures err == 0 ==> Live() && Frontier(orig, btf.startId, canonMap[..], table, id + 1) && KeepsMapped(old(canonMap[..]), canonMap[..])
      ensures err == 0 && !NeverDeduped(orig[id]) && !Deferred(orig[id]) ==> Standing(orig, id, canonMap[id])
      ensures err == 0 && !NeverDeduped(orig[id]) && !Deferred(orig[id]) && canonMap[id] == id ==> Unfiled(orig, old(table), orig[id])
    {
      var t := btf.types[id];
      assert WfType(orig[id]);
      if IsPrim(t) {
        CanonicalisePrim(id);
      } else if t.info.kind == Unkn || t.info.kind.Other? {
        return -EINVAL;
      } else {
        SkipPrim(orig, btf.startId, canonMap[..], table, id);
      }
      return 0;
    }

    /** Find the canonical type of a primitive type, and record it. */
    method CanonicalisePrim(id: u32)
      requires Live() && btf.startId <= id < |orig| && Frontier(orig, btf.startId, canonMap[..], table, id)
      requires IsPrim(orig[id])
      modifies canonMap, this`table
      ensures Live() && Frontier(orig, btf.startId, canonMap[..], table, id + 1) && KeepsMapped(old(canonMap[..]), canonMap[..])
      ensures Standing(orig, id, canonMap[id]) && (canonMap[id] == id ==> Unfiled(orig, old(table), orig[id]))
    {
      PrimAtOnce(orig[id]);
      BeginPrim(orig, btf.startId, canonMap[..], table, id);
      var newId := FindPrim(id);
      SetPrim(id, newId);
    }

    /** The canonical type of a primitive type, or the type itself. */
    method FindPrim(id: u32) returns (newId: u32)
      requires Live() && AtFrontier(orig, btf.startId, canonMap[..], table, id)
      requires IsPrim(orig[id])
      modifies canonMap
      ensures Live() && AtFrontier(orig, btf.startId, canonMap[..], table, id) && KeepsMapped(old(canonMap[..]), canonMap[..])
      ensures Standing(orig, id, newId) && (newId == id || newId in table)
      ensures newId == id ==> Unfiled(orig, table, orig[id])
    {
      if IsAnyEnum(btf.types[id]) {
        newId := ResolveEnum(id);
      } else {
        newId := FindEqual(id);
      }
    }

    /** Record the canonical type of primitive type id, filing it if that is the type itself. */
    method SetPrim(id: u32, newId: u32)
      requires Live() && AtFrontier(orig, btf.startId, canonMap[..], table, id) && btf.startId <= id
      requires !NeverDeduped(orig[id]) && !Deferred(orig[id])
      requires Standing(orig, id, newId) && (newId == id || newId in table)
      requires newId == id ==> Unfiled(orig, table, orig[id])
      modifies canonMap, this`table
      ensures Live() && Frontier(orig, btf.startId, canonMap[..], table, id + 1) && KeepsMapped(old(canonMap[..]), canonMap[..])
      ensures canonMap[id] == newId
    {
      assert btf.types[id] == orig[id] && WfType(orig[id]);
      ghost var m := canonMap[..];
      canonMap[id] := newId;
      assert canonMap[..] == m[id := newId];
      SettlePrim(orig, btf.startId, m, table, id, newId);
      if newId == id { table := table[id := HashOf(btf.types[id])]; }
    }

    // ----- equivalence of type graphs

    ghost predicate Walk()
      reads this, canonMap, hypotMap, btf.types
    {
      Shape() && btf.types[..] == orig && WfGraph(orig, btf.startId) && MapInv(orig, canonMap[..]) && Hypot()
    }

    method ClearHypotMap()
      requires Hypot()
      modifies hypotMap, this`hypotList, this`hypotAdjustCanon
      ensures Hypot() && !hypotAdjustCanon && forall c :: 0 <= c < hypotMap.Length ==> hypotMap[c] == UNPROCESSED
    {
      var list := hypotList;
      ghost var hyp := hypotMap[..];
      for i := 0 to |list|
        invariant hypotList == list
        invariant forall c :: 0 <= c < hypotMap.Length ==> hypotMap[c] == UNPROCESSED || hypotMap[c] == hyp[c]
        invariant forall j :: 0 <= j < i ==> hypotMap[list[j]] == UNPROCESSED
      {
        hypotMap[list[i]] := UNPROCESSED;
      }
      forall c: u32 | c < hypotMap.Length ensures hypotMap[c] == UNPROCESSED {
        if Mapped(hyp[c]) { assert c in list; }
      }
      hypotList, hypotAdjustCanon := [], false;
    }

    method HypotMapAdd(from: u32, to: u32)
      requires Hypot() && from < hypotMap.Length && to < hypotMap.Length && hypotMap[from] == UNPROCESSED
      modifies hypotMap, this`hypotList
      ensures Hypot() && hypotMap[..] == old(hypotMap[..])[from := to]
      ensures Unclaimed(hypotMap[..]) < Unclaimed(old(hypotMap[..]))
    {
      ClaimSlot(hypotMap.Length, hypotMap[..], hypotList, from, to);
      ghost var hyp := hypotMap[..];
      hypotList := hypotList + [from];
      hypotMap[from] := to;
      assert hypotMap[..] == hyp[from := to];
    }

    /**
     * btf_dedup_is_equiv: walk the graphs of a candidate and of a canonical type side by side.
     * Terminates because every call that goes on claims a slot of the hypothetical map.
     */
    method IsEquiv(candId: u32, canonId: u32, ghost copy: seq<u32>) returns (eq: int)
      requires Walk() && candId < |orig| && canonId < |orig|
      modifies hypotMap, this`hypotList, this`hypotAdjustCanon
      ensures Walk() && eq <= 1 && Grows(old(hypotMap[..]), hypotMap[..])
      ensures Calm(orig) && IsPlain(orig[candId]) ==> eq >= 0
      ensures eq == 1 ==> Rel(orig, canonMap[..], hypotMap[..], candId, canonId)
      ensures eq == 1 ==> NewChecked(orig, canonMap[..], old(hypotMap[..]), hypotMap[..])
      ensures OnTrack(orig, copy, old(hypotMap[..]), candId, canonId) ==>
                eq == 1 && Within(hypotMap[..], copy) && hypotAdjustCanon == old(hypotAdjustCanon)
      decreases Unclaimed(hypotMap[..]), 0
    {
      var candRoot := ResolveTypeId(candId);
      var canonRoot := ResolveTypeId(canonId);
      if candRoot == canonRoot { return 1; }
      var c := ResolveFwdId(canonId);
      if OnTrack(orig, copy, hypotMap[..], candId, canonId) { TrackStart(orig, copy, hypotMap[..], candId, canonId, canonMap[..]); }
      var h := hypotMap[c];
      if Mapped(h) {
        assert WfType(orig[h]) && WfType(orig[candId]);
        var arrays := IdenticalArrays(btf.types[h], btf.types[candId]);
        var structs := IdenticalStructs(btf.types[h], btf.types[candId]);
        if h == candId || arrays || structs { return 1; }
        return 0;
      }
      FwdRootVoid(orig, btf.startId, canonMap[..], canonId);
      HypotMapAdd(c, candId);
      eq := CompareTypes(candId, c, copy);
      if eq == 1 {
        VisitDone(orig, canonMap[..], old(hypotMap[..]), c, candId, hypotMap[..]);
      } else {
        GrowsFromClaim(old(hypotMap[..]), c, candId, hypotMap[..]);
      }
    }

    /** The pair just claimed: compare the two descriptors, then everything they refer to. */
    method CompareTypes(candId: u32, canonId: u32, ghost copy: seq<u32>) returns (eq: int)
      requires Walk() && candId < |orig| && canonId < |orig| && hypotMap[canonId] == candId
      modifies hypotMap, this`hypotList, this`hypotAdjustCanon
      ensures Walk() && eq <= 1 && Grows(old(hypotMap[..]), hypotMap[..])
      ensures Calm(orig) && IsPlain(orig[candId]) && (candId != 0 || canonId != 0) ==> eq >= 0
      ensures eq == 1 ==> Checked(orig, canonMap[..], hypotMap[..], canonId)
      ensures eq == 1 ==> NewChecked(orig, canonMap[..], old(hypotMap[..]), hypotMap[..])
      ensures OnTrack(orig, copy, old(hypotMap[..]), candId, canonId) && copy[canonId] == candId ==>
                eq == 1 && Within(hypotMap[..], copy) && hypotAdjustCanon == old(hypotAdjustCanon)
      decreases Unclaimed(hypotMap[..]), 3
    {
      var t, c := btf.types[candId], btf.types[canonId];
      assert t == orig[candId] && c == orig[canonId];
      assert WfType(orig[candId]) && WfType(orig[canonId]);
      ghost var track := OnTrack(orig, copy, hypotMap[..], candId, canonId) && copy[canonId] == candId;
      if track { TrackLocal(orig, copy, hypotMap[..], candId, canonId); }
      if t.nameOff != c.nameOff { return 0; }
      // FWD <-> STRUCT/UNION
      if (IsFwd(t) || IsFwd(c)) && t.info.kind != c.info.kind {
        var same := if IsFwd(t) then EffKind(t) == c.info.kind else EffKind(c) == t.info.kind;
        if same && !IsFwd(t) && canonId < btf.startId { hypotAdjustCanon := true; }
        return if same then 1 else 0;
      }
      if t.info.kind != c.info.kind { return 0; }
      assert Calm(orig) && t.info.kind == Unkn ==> candId == 0 && canonId == 0 by {
        assert Calm(orig) && candId != 0 ==> KnownKind(orig[candId]);
        assert Calm(orig) && canonId != 0 ==> KnownKind(orig[canonId]);
      }
      assert Calm(orig) && candId != 0 ==> KnownKind(orig[candId]);
      eq := CompareShapes(t, c);
      if eq == 1 {
        if IsLeaf(t.info.kind) {
          LeafChecked(orig, canonMap[..], hypotMap[..], canonId);
        } else {
          eq := CompareRefs(candId, canonId, copy);
        }
      }
    }

    method CompareRefs(candId: u32, canonId: u32, ghost copy: seq<u32>) returns (eq: int)
      requires Walk() && candId < |orig| && canonId < |orig| && hypotMap[canonId] == candId
      requires Label(orig[candId]) == Label(orig[canonId])
      modifies hypotMap, this`hypotList, this`hypotAdjustCanon
      ensures Walk() && eq <= 1 && Grows(old(hypotMap[..]), hypotMap[..])
      ensures Calm(orig) && IsPlain(orig[candId]) ==> eq >= 0
      ensures eq == 1 ==> Checked(orig, canonMap[..], hypotMap[..], canonId)
      ensures eq == 1 ==> NewChecked(orig, canonMap[..], old(hypotMap[..]), hypotMap[..])
      ensures OnTrack(orig, copy, old(hypotMap[..]), candId, canonId) && copy[canonId] == candId ==>
                eq == 1 && Within(hypotMap[..], copy) && hypotAdjustCanon == old(hypotAdjustCanon)
      decreases Unclaimed(hypotMap[..]), 2
    {
      var t, c := btf.types[candId], btf.types[canonId];
      assert t == orig[candId] && c == orig[canonId];
      assert WfType(orig[candId]) && WfType(orig[canonId]);
      assert RefsBelow(orig[candId], |orig|) && RefsBelow(orig[canonId], |orig|);
      WalkOrderBelow(t, |orig|);
      WalkOrderBelow(c, |orig|);
      LabelRefs(t, c);
      assert Label(t).info == Label(c).info;
      if Calm(orig) && IsPlain(orig[candId]) { WalkOrderPlain(orig, candId); }
      if OnTrack(orig, copy, hypotMap[..], candId, canonId) && copy[canonId] == candId {
        TrackRefs(orig, copy, hypotMap[..], candId, canonId);
      }
      eq := EquivAll(WalkOrder(t), WalkOrder(c), copy);
      if eq == 1 { WalkOrderRefs(orig, canonMap[..], hypotMap[..], t, c); }
    }

    /** Walk corresponding references in order, stopping at the first that is not equivalent. */
    method EquivAll(xs: seq<u32>, ys: seq<u32>, ghost copy: seq<u32>) returns (eq: int)
      requires Walk() && AllBelow(xs, |orig|) && AllBelow(ys, |orig|) && |xs| == |ys|
      modifies hypotMap, this`hypotList, this`hypotAdjustCanon
      ensures Walk() && eq <= 1 && Grows(old(hypotMap[..]), hypotMap[..])
      ensures Calm(orig) && AllPlain(orig, xs) ==> eq >= 0
      ensures eq == 1 ==> RelAll(orig, canonMap[..], hypotMap[..], xs, ys)
      ensures eq == 1 ==> NewChecked(orig, canonMap[..], old(hypotMap[..]), hypotMap[..])
      ensures OnTrackAll(orig, copy, old(hypotMap[..]), xs, ys) ==>
                eq == 1 && Within(hypotMap[..], copy) && hypotAdjustCanon == old(hypotAdjustCanon)
      decreases Unclaimed(hypotMap[..]), 1
    {
      ghost var m, hyp0 := canonMap[..], hypotMap[..];
      ghost var track := OnTrackAll(orig, copy, hyp0, xs, ys);
      for i := 0 to |xs|
        invariant Walk() && canonMap[..] == m && Grows(hyp0, hypotMap[..])
        invariant RelAll(orig, m, hypotMap[..], xs[..i], ys[..i])
        invariant NewChecked(orig, m, hyp0, hypotMap[..])
        invariant track ==> Within(hypotMap[..], copy) && hypotAdjustCanon == old(hypotAdjustCanon)
      {
        ghost var hyp := hypotMap[..];
        GrowsShrinks(hyp0, hyp);
        assert track ==> Paired(copy, xs[i], ys[i]);
        eq := IsEquiv(xs[i], ys[i], copy);
        NextRef(orig, m, hyp0, hyp, hypotMap[..], xs, ys, i, eq);
        if eq <= 0 { return; }
      }
      assert xs[..|xs|] == xs && ys[..|ys|] == ys;
      return 1;
    }

    // ----- structs and unions

    /** btf_dedup_merge_hypot_map: record what a successful walk has shown. */
    method MergeHypotMap()
      requires Live() && Grounded(orig, btf.startId, canonMap[..]) && Hypot() && PairsMatch(orig, hypotMap[..])
      modifies canonMap
      ensures Live() && Grounded(orig, btf.startId, canonMap[..]) && KeepsMapped(old(canonMap[..]), canonMap[..])
      ensures hypotAdjustCanon ==> forall x :: 0 <= x < |orig| && !IsFwd(orig[x]) ==> canonMap[x] == old(canonMap[x])
      ensures NoNewRoots(orig, old(canonMap[..]), canonMap[..], |orig|)
      ensures forall c :: 0 <= c < |orig| && Mapped(hypotMap[c]) ==>
                PairMerged(orig, old(canonMap[..]), canonMap[..], hypotAdjustCanon, c, hypotMap[c])
    {
      ghost var m0 := canonMap[..];
      SteadySelf(orig, m0);
      for i := 0 to |hypotList|
        invariant Live() && Grounded(orig, btf.startId, canonMap[..]) && KeepsMapped(m0, canonMap[..])
        invariant hypotAdjustCanon ==> forall x :: 0 <= x < |orig| && !IsFwd(orig[x]) ==> canonMap[x] == m0[x]
        invariant NoNewRoots(orig, m0, canonMap[..], |orig|) && Steady(orig, m0, canonMap[..])
        invariant MergedUpTo(orig, m0, canonMap[..], hypotAdjustCanon, hypotMap[..], hypotList, i)
      {
        assert hypotList[i] in hypotList;
        ghost var m := canonMap[..];
        MergePair(hypotList[i]);
        MergedNext(orig, m0, m, canonMap[..], hypotAdjustCanon, hypotMap[..], hypotList, i, i + 1);
      }
      MergedAll(orig, m0, canonMap[..], hypotAdjustCanon, hypotMap[..], hypotList);
    }

    method MergePair(canonId: u32)
      requires Live() && Grounded(orig, btf.startId, canonMap[..]) && Hypot() && PairsMatch(orig, hypotMap[..]) && canonId < |orig| && Mapped(hypotMap[canonId])
      modifies canonMap
      ensures Live() && Grounded(orig, btf.startId, canonMap[..]) && KeepsMapped(old(canonMap[..]), canonMap[..])
      ensures hypotAdjustCanon ==> forall x :: 0 <= x < |orig| && !IsFwd(orig[x]) ==> canonMap[x] == old(canonMap[x])
      ensures NoNewRoots(orig, old(canonMap[..]), canonMap[..], |orig|) && Steady(orig, old(canonMap[..]), canonMap[..])
      ensures PairMerged(orig, old(canonMap[..]), canonMap[..], hypotAdjustCanon, canonId, hypotMap[canonId])
    {
      var targId := hypotMap[canonId];
      assert Alike(orig, canonId, hypotMap[..][canonId]);
      RootsAlike(orig, canonMap[..], canonId, targId);
      var t := ResolveTypeId(targId);
      var c := ResolveTypeId(canonId);
      EndsOfPair(orig, canonMap[..], canonId, targId);
      MergeRoots(t, c, canonId, targId);
    }

    /** The decisions for one pair, by the roots of the two. */
    method MergeRoots(t: u32, c: u32, ghost canonId: u32, ghost targId: u32)
      requires Live() && Grounded(orig, btf.startId, canonMap[..]) && canonId < |orig| && targId < |orig|
      requires t == Root(canonMap[..], targId) && c == Root(canonMap[..], canonId) && Alike(orig, c, t) && Alike(orig, t, c)
      requires IsComposite(orig[targId]) ==> IsComposite(orig[t])
      requires IsComposite(orig[canonId]) ==> IsComposite(orig[c])
      modifies canonMap
      ensures Live() && Grounded(orig, btf.startId, canonMap[..]) && KeepsMapped(old(canonMap[..]), canonMap[..])
      ensures hypotAdjustCanon ==> forall x :: 0 <= x < |orig| && !IsFwd(orig[x]) ==> canonMap[x] == old(canonMap[x])
      ensures NoNewRoots(orig, old(canonMap[..]), canonMap[..], |orig|) && Steady(orig, old(canonMap[..]), canonMap[..])
      ensures PairMerged(orig, old(canonMap[..]), canonMap[..], hypotAdjustCanon, canonId, targId)
    {
      ghost var m := canonMap[..];
      SteadySelf(orig, m);
      var tFwd, cFwd := IsFwd(btf.types[t]), IsFwd(btf.types[c]);
      assert btf.types[t] == orig[t] && btf.types[c] == orig[c];
      if !tFwd && cFwd {
        Link(c, t);
        LinkedPair(orig, m, c, t, canonId, targId);
      }
      if hypotAdjustCanon { return; }
      if !cFwd { MergeDown(t, c, canonId, targId); }
    }

    /** The links from the candidate's side, which a canonical forward does not get. */
    method MergeDown(t: u32, c: u32, ghost canonId: u32, ghost targId: u32)
      requires Live() && Grounded(orig, btf.startId, canonMap[..]) && canonId < |orig| && targId < |orig| && c < |orig| && !IsFwd(orig[c])
      requires t == Root(canonMap[..], targId) && c == Root(canonMap[..], canonId) && Alike(orig, c, t) && Alike(orig, t, c)
      requires IsComposite(orig[targId]) ==> IsComposite(orig[t])
      requires IsComposite(orig[canonId]) ==> IsComposite(orig[c])
      modifies canonMap
      ensures Live() && Grounded(orig, btf.startId, canonMap[..]) && KeepsMapped(old(canonMap[..]), canonMap[..])
      ensures NoNewRoots(orig, old(canonMap[..]), canonMap[..], |orig|) && Steady(orig, old(canonMap[..]), canonMap[..])
      ensures PairMerged(orig, old(canonMap[..]), canonMap[..], false, canonId, targId)
    {
      ghost var m := canonMap[..];
      SteadySelf(orig, m);
      assert btf.types[t] == orig[t] && btf.types[c] == orig[c];
      if IsFwd(btf.types[t]) {
        Link(t, c);
        LinkedPair(orig, m, t, c, targId, canonId);
      } else if IsComposite(btf.types[t]) && Mapped(canonMap[c]) && !Mapped(canonMap[t]) {
        Link(t, c);
        LinkedPair(orig, m, t, c, targId, canonId);
      }
    }

    method Link(x: u32, to: u32)
      requires Live() && Grounded(orig, btf.startId, canonMap[..]) && x < |orig| && to < |orig| && Alike(orig, x, to)
      requires IsRoot(canonMap[..], x) && IsRoot(canonMap[..], to) && !IsFwd(orig[to])
      requires IsFwd(orig[x]) || (IsComposite(orig[x]) && Mapped(canonMap[to]) && !Mapped(canonMap[x]))
      modifies canonMap
      ensures Live() && Grounded(orig, btf.startId, canonMap[..]) && canonMap[..] == old(canonMap[..])[x := to] && x != to
      ensures Steady(orig, old(canonMap[..]), canonMap[..]) && NoNewRoots(orig, old(canonMap[..]), canonMap[..], |orig|)
      ensures KeepsMapped(old(canonMap[..]), canonMap[..])
    {
      ghost var m := canonMap[..];
      LinkSteady(orig, m, x, to);
      canonMap[x] := to;
      assert canonMap[..] == m[x := to];
      LinkAlike(orig, btf.startId, m, table, x, to);
    }

    /** A walk from an empty hypothetical map; if it answers 1, all pairs of the map match. */
    method WalkPair(id: u32, cand: u32) returns (eq: int)
      requires Live() && Grounded(orig, btf.startId, canonMap[..]) && Hypot() && id < |orig| && cand < |orig| && IsComposite(orig[id])
      modifies hypotMap, this`hypotList, this`hypotAdjustCanon
      ensures Hypot() && eq <= 1 && (Calm(orig) ==> eq >= 0)
      ensures eq == 1 ==> PairsMatch(orig, hypotMap[..]) && Alike(orig, id, cand)
      ensures CopyOf(orig, id, cand) ==> eq == 1 && !hypotAdjustCanon
    {
      ghost var copy := AnyCopy(orig, id, cand);
      ClearHypotMap();
      ghost var hyp0 := hypotMap[..];
      assert CopyOf(orig, id, cand) ==> OnTrack(orig, copy, hyp0, id, cand);
      eq := IsEquiv(id, cand, copy);
      if eq == 1 {
        assert AllChecked(orig, canonMap[..], hypotMap[..]) by {
          assert NewChecked(orig, canonMap[..], hyp0, hypotMap[..]);
          WalkComplete(orig, canonMap[..], hyp0, hypotMap[..]);
        }
        PairsAlike(orig, canonMap[..], hypotMap[..], id, cand);
      }
    }

    /**
     * Check struct id against one candidate. The shallow check keeps out a FWD that shares its
     * hash. A match that would need a base FWD resolved counts as a miss, but the base FWD is
     * still pointed at its definition.
     */
    method TryStruct(id: u32, cand: u32) returns (err: int, hit: bool)
      requires Live() && Grounded(orig, btf.startId, canonMap[..]) && Hypot() && id < |orig| && cand < |orig| && IsComposite(orig[id])
      modifies canonMap, hypotMap, this`hypotList, this`hypotAdjustCanon
      ensures Live() && Grounded(orig, btf.startId, canonMap[..]) && KeepsMapped(old(canonMap[..]), canonMap[..]) && Hypot() && err <= 0
      ensures hit ==> err == 0 && Alike(orig, id, cand) && IsComposite(orig[cand])
      ensures Calm(orig) ==> err == 0
      ensures !hit ==> canonMap[id] == old(canonMap[id])
      ensures CopyOf(orig, id, cand) ==> err == 0 && hit
      ensures NoNewRoots(orig, old(canonMap[..]), canonMap[..], |orig|)
    {
      assert btf.types[id] == orig[id] && btf.types[cand] == orig[cand] && WfType(orig[id]) && WfType(orig[cand]);
      var shallow := ShallowEqualStruct(btf.types[id], btf.types[cand]);
      CopyLabel(orig, id, cand);
      if !shallow { return 0, false; }
      assert Label(orig[id]).info == Label(orig[cand]).info;
      var eq := WalkPair(id, cand);
      if eq <= 0 { return eq, false; }
      MergeHypotMap();
      return 0, !hypotAdjustCanon;
    }

    /** The first filed structure that struct id is found equivalent to, or id itself. */
    method FindStruct(id: u32, h: nat) returns (err: int, newId: u32)
      requires Live() && Grounded(orig, btf.startId, canonMap[..]) && Hypot() && id < |orig| && IsComposite(orig[id]) && !Mapped(canonMap[id])
      requires WfType(orig[id]) && h == HashOf(orig[id])
      modifies canonMap, hypotMap, this`hypotList, this`hypotAdjustCanon
      ensures Live() && Grounded(orig, btf.startId, canonMap[..]) && Hypot() && err <= 0
      ensures KeepsMapped(old(canonMap[..]), canonMap[..]) && NoNewRoots(orig, old(canonMap[..]), canonMap[..], |orig|)
      ensures Calm(orig) ==> err == 0
      ensures newId == id ==> !Mapped(canonMap[id]) && (err == 0 ==> NoOriginal(orig, canonMap[..][id := id], id))
      ensures newId != id ==> newId in table && IsComposite(orig[newId]) && Alike(orig, id, newId)
    {
      var cands := Candidates(h);
      newId, err := id, 0;
      var k := 0;
      while k < |cands|
        invariant Live() && Grounded(orig, btf.startId, canonMap[..]) && Hypot() && k <= |cands|
        invariant KeepsMapped(old(canonMap[..]), canonMap[..]) && NoNewRoots(orig, old(canonMap[..]), canonMap[..], |orig|)
        invariant !Mapped(canonMap[id]) && NoneCopied(orig, id, cands, k) && err == 0
      {
        var hit;
        err, hit := TryStruct(id, cands[k]);
        if err < 0 { return; }
        if hit { return 0, cands[k]; }
        NoneCopiedStep(orig, id, cands, k);
        k := k + 1;
      }
      NoOriginalFiled(orig, btf.startId, canonMap[..], table, cands, id);
    }

    /** btf_dedup_struct_type */
    method StructType(id: u32) returns (err: int)
      requires Live() && Grounded(orig, btf.startId, canonMap[..]) && Hypot() && btf.startId <= id < |orig|
      modifies canonMap, hypotMap, this`hypotList, this`hypotAdjustCanon, this`table
      ensures Hypot() && err <= 0 && KeepsMapped(old(canonMap[..]), canonMap[..])
      ensures Calm(orig) ==> err == 0
      ensures err == 0 ==> Live() && Grounded(orig, btf.startId, canonMap[..]) && (IsComposite(orig[id]) ==> Mapped(canonMap[id]))
      ensures NoNewRoots(orig, old(canonMap[..]), canonMap[..], id)
      ensures err == 0 && IsComposite(orig[id]) && canonMap[id] == id && old(canonMap[id]) != id ==> NoOriginal(orig, canonMap[..], id)
    {
      if Mapped(canonMap[id]) { return 0; }
      if !IsComposite(btf.types[id]) { return 0; }
      assert btf.types[id] == orig[id] && WfType(orig[id]) && id !in table;
      var newId;
      var h := HashStruct(btf.types[id]);
      err, newId := FindStruct(id, h);
      if err < 0 { return; }
      ghost var m := canonMap[..];
      canonMap[id] := newId;
      assert canonMap[..] == m[id := newId];
      SettleStruct(orig, btf.startId, m, table, id, newId);
      if newId == id { table := table[id := h]; }
      return 0;
    }

    // ----- reference types

    /** The reference pass: references are being rewritten in place to canonical ids. */
    ghost predicate RefLive()
      reads this, canonMap, btf.types
    {
      Shape() && RefCore(orig, btf.startId, btf.types[..], canonMap[..], table) &&
      Clocked(orig, btf.startId, canonMap[..], doneAt, clock)
    }

    /**
     * btf_dedup_ref_type: the canonical id of a type, after canonicalising everything it refers to.
     * Terminates because every call that goes on takes one type out of the unprocessed ones; runs
     * into a loop only if the references do.
     */
    method RefType(id: u32, ghost rank: seq<nat>) returns (r: int)
      requires RefLive() && id < |orig| == |rank|
      modifies canonMap, btf.types, this`table, this`doneAt, this`clock
      ensures RefLive() && Keeps(old(canonMap[..]), old(btf.types[..]), canonMap[..], btf.types[..])
      ensures r >= 0 ==> r < |orig| && canonMap[r] == r && Mapped(canonMap[id]) && Alike(orig, id, r)
      ensures r >= 0 ==> Unwound(old(canonMap[..]), canonMap[..])
      ensures AcyclicRefs(orig, btf.startId, rank) && old(Below(canonMap[..], rank, id)) ==> r >= 0
      decreases Unprocessed(canonMap[..]), 2
    {
      if canonMap[id] == IN_PROGRESS { return -ELOOP; }
      ghost var m0, types0 := canonMap[..], btf.types[..];
      if Mapped(canonMap[id]) {
        SettledRoot(m0, id);
        AlikeRoot(orig, m0, id);
        var root := ResolveTypeId(id);
        return root;
      }
      r := Visit(id, rank);
      VisitKept(m0, types0, id, canonMap[..], btf.types[..]);
      if r == 0 {
        ProgressDone(orig, m0[id := IN_PROGRESS], types0, canonMap[..], btf.types[..], id);
        r := Canonicalise(id, m0, types0);
      }
    }

    /** Mark the type as in progress and replace each reference in it by the canonical id. */
    method Visit(id: u32, ghost rank: seq<nat>) returns (err: int)
      requires RefLive() && id < |orig| == |rank| && canonMap[id] == UNPROCESSED
      modifies canonMap, btf.types, this`table, this`doneAt, this`clock
      ensures RefLive() && canonMap[id] == IN_PROGRESS && err <= 0
      ensures btf.startId <= id && IsRewritten(old(btf.types[id]))
      ensures Keeps(old(canonMap[..])[id := IN_PROGRESS], old(btf.types[..])[id := btf.types[id]], canonMap[..], btf.types[..])
      ensures AcyclicRefs(orig, btf.startId, rank) && old(Below(canonMap[..], rank, id)) ==> err == 0
      ensures err == 0 ==> Progress(orig, old(canonMap[..])[id := IN_PROGRESS], old(btf.types[..]),
                                    canonMap[..], btf.types[..], id, |Refs(orig[id])|)
      decreases Unprocessed(canonMap[..]), 1
    {
      ghost var m0, types0 := canonMap[..], btf.types[..];
      assert m0[id] == UNPROCESSED && types0[id] == btf.types[id];
      BeginType(orig, btf.startId, types0, m0, table, id);
      ClockMark(orig, btf.startId, m0, doneAt, clock, id);
      if Below(m0, rank, id) { StackGrows(m0, rank, id); }
      FirstRef(orig, m0[id := IN_PROGRESS], id);
      canonMap[id] := IN_PROGRESS;
      assert canonMap[..] == m0[id := IN_PROGRESS];
      if !IsRewritten(btf.types[id]) { return -EINVAL; }
      err := RefAll(id, rank);
    }

    method RefAll(id: u32, ghost rank: seq<nat>) returns (err: int)
      requires RefLive() && id < |orig| == |rank| && btf.startId <= id && canonMap[id] == IN_PROGRESS && IsRewritten(btf.types[id])
      requires Visited(orig, canonMap[..], id, btf.types[id], 0)
      modifies canonMap, btf.types, this`table, this`doneAt, this`clock
      ensures RefLive() && canonMap[id] == IN_PROGRESS && err <= 0
      ensures Keeps(old(canonMap[..]), old(btf.types[..])[id := btf.types[id]], canonMap[..], btf.types[..])
      ensures AcyclicRefs(orig, btf.startId, rank) && old(Stack(canonMap[..], rank, id)) ==> err == 0
      ensures err == 0 ==> Progress(orig, old(canonMap[..]), old(btf.types[..]), canonMap[..], btf.types[..], id, |Refs(orig[id])|)
      decreases Unprocessed(canonMap[..]), 4
    {
      ghost var m0, types0 := canonMap[..], btf.types[..];
      SameAt(types0, id);
      var n := |Refs(btf.types[id])|;
      for i := 0 to n
        invariant RefLive() && |Refs(btf.types[id])| == n
        invariant Progress(orig, m0, types0, canonMap[..], btf.types[..], id, i)
        invariant Unprocessed(canonMap[..]) <= Unprocessed(m0)
      {
        StackUnwound(m0, canonMap[..], rank, id);
        err := RefOne(id, i, rank, m0, types0);
        if err < 0 { return; }
      }
      return 0;
    }

    method RefOne(id: u32, i: nat, ghost rank: seq<nat>, ghost m0: seq<u32>, ghost types0: seq<BtfType>) returns (err: int)
      requires RefLive() && id < |orig| == |rank| && btf.startId <= id && IsRewritten(btf.types[id])
      requires i < |Refs(btf.types[id])| && Progress(orig, m0, types0, canonMap[..], btf.types[..], id, i)
      modifies canonMap, btf.types, this`table, this`doneAt, this`clock
      ensures RefLive() && canonMap[id] == IN_PROGRESS && err <= 0
      ensures Keeps(m0, types0[id := btf.types[id]], canonMap[..], btf.types[..])
      ensures Unprocessed(canonMap[..]) <= Unprocessed(old(canonMap[..]))
      ensures AcyclicRefs(orig, btf.startId, rank) && old(Stack(canonMap[..], rank, id)) ==> err == 0
      ensures err == 0 ==> Progress(orig, m0, types0, canonMap[..], btf.types[..], id, i + 1)
      ensures err == 0 ==> |Refs(btf.types[id])| == old(|Refs(btf.types[id])|) && IsRewritten(btf.types[id])
      decreases Unprocessed(canonMap[..]), 3
    {
      ghost var m1, types1 := canonMap[..], btf.types[..];
      assert RewrittenAt(orig, btf.startId, types1, id) && types1[id] == btf.types[id];
      var ref := Refs(btf.types[id])[i];
      assert ref == Refs(orig[id])[i];
      if AcyclicRefs(orig, btf.startId, rank) && Stack(m1, rank, id) {
        RefBelow(orig, btf.startId, types1, m1, rank, id, i);
      }
      var r := RefType(ref, rank);
      ProgressKeeps(orig, m0, types0, m1, types1, canonMap[..], btf.types[..], id, i);
      if r < 0 { return r; }
      ProgressStep(orig, m0, types0, m1, types1, canonMap[..], btf.types[..], id, i, r);
      WriteBack(id, i, r);
      return 0;
    }

    /** Store canonical id r as the i-th reference of the type in progress. */
    method WriteBack(id: u32, i: nat, r: u32)
      requires RefLive() && id < |orig| && btf.startId <= id && canonMap[id] == IN_PROGRESS
      requires IsRewritten(btf.types[id]) && i < |Refs(btf.types[id])|
      requires r < |orig| && Refs(btf.types[id])[i] < |orig| && Alike(orig, Refs(btf.types[id])[i], r)
      modifies btf.types
      ensures RefLive() && btf.types[..] == old(btf.types[..])[id := SetRef(old(btf.types[id]), i, r)]
      ensures |Refs(btf.types[id])| == old(|Refs(btf.types[id])|) && IsRewritten(btf.types[id])
    {
      ghost var types := btf.types[..];
      RewriteRef(orig, btf.startId, types, canonMap[..], table, id, i, r);
      SetRefRefs(btf.types[id], i, r);
      btf.types[id] := SetRef(btf.types[id], i, r);
      assert btf.types[..] == types[id := SetRef(types[id], i, r)];
    }

    /** All references of type id are canonical: find its canonical type or make it one. */
    method Canonicalise(id: u32, ghost m0: seq<u32>, ghost types0: seq<BtfType>) returns (newId: u32)
      requires RefLive() && id < |orig| && btf.startId <= id && canonMap[id] == IN_PROGRESS
      requires IsRewritten(btf.types[id]) && AllSelfMapped(canonMap[..], Refs(btf.types[id]))
      requires Visited(orig, canonMap[..], id, btf.types[id], |Refs(orig[id])|)
      requires Keeps(m0, types0, canonMap[..], btf.types[..]) && m0[id] == UNPROCESSED
      modifies canonMap, this`table, this`doneAt, this`clock
      ensures RefLive() && Keeps(m0, types0, canonMap[..], btf.types[..])
      ensures newId < |orig| && canonMap[newId] == newId && Mapped(canonMap[id]) && Alike(orig, id, newId)
      ensures canonMap[..] == old(canonMap[..])[id := newId]
    {
      ghost var m, types := canonMap[..], btf.types[..];
      assert RewrittenAt(orig, btf.startId, types, id);
      newId := FindEqual(id);
      SettleRef(orig, btf.startId, types, m, table, id, newId);
      ClockSettle(orig, btf.startId, m, doneAt, clock, id, types[id], newId);
      canonMap[id] := newId;
      assert canonMap[..] == m[id := newId];
      if newId == id { table := table[id := HashOf(btf.types[id])]; }
      doneAt, clock := doneAt[id := clock], clock + 1;
    }

    // ----- the passes

    method PrimTypes() returns (err: int)
      requires Live() && Frontier(orig, btf.startId, canonMap[..], table, btf.startId)
      modifies canonMap, this`table
      ensures err <= 0 && (KnownKinds(orig) ==> err == 0)
      ensures err == 0 ==> Live() && Grounded(orig, btf.startId, canonMap[..]) && CopyFree(orig, btf.startId, canonMap[..], btf.startId)
    {
      for id := btf.startId to canonMap.Length
        invariant Live() && Frontier(orig, btf.startId, canonMap[..], table, id)
      {
        assert KnownKinds(orig) ==> KnownKind(orig[id]);
        err := PrimType(id);
        if err != 0 { return; }
      }
      PrimsDone(orig, btf.startId, canonMap[..], table);
      return 0;
    }

    method StructTypes() returns (err: int)
      requires Live() && Hypot() && Grounded(orig, btf.startId, canonMap[..]) && CopyFree(orig, btf.startId, canonMap[..], btf.startId)
      modifies canonMap, hypotMap, this`hypotList, this`hypotAdjustCanon, this`table
      ensures err <= 0 && (Calm(orig) ==> err == 0)
      ensures err == 0 ==> Live() && Settled(canonMap[..]) && Pending(orig, btf.startId, canonMap[..])
      ensures err == 0 ==> StructsMapped(orig, canonMap[..], |orig|) && CopyFree(orig, btf.startId, canonMap[..], |orig|)
    {
      for id := btf.startId to canonMap.Length
        invariant Live() && Hypot() && Grounded(orig, btf.startId, canonMap[..])
        invariant StructsMapped(orig, canonMap[..], id) && CopyFree(orig, btf.startId, canonMap[..], id)
      {
        ghost var m := canonMap[..];
        err := StructType(id);
        if err != 0 { return; }
        NextStructMapped(orig, m, canonMap[..], id);
        if IsComposite(orig[id]) && canonMap[id] == id { assert m[id] != id; }
        CopyFreeStep(orig, btf.startId, m, canonMap[..], id, id + 1);
      }
      StructsSettled(orig, btf.startId, canonMap[..]);
      return 0;
    }

    /** Canonicalises all reference types exactly if no chain of references runs in a circle. */
    method RefTypes() returns (err: int)
      requires Live() && Settled(canonMap[..]) && Pending(orig, btf.startId, canonMap[..]) && StructsMapped(orig, canonMap[..], |orig|)
      modifies canonMap, btf.types, this`table, this`doneAt, this`clock
      ensures err <= 0
      ensures err == 0 ==> RefLive() && AllMapped(canonMap[..])
      ensures err == 0 <==> exists rank: seq<nat> :: AcyclicRefs(orig, btf.startId, rank)
      ensures StructsKept(orig, old(canonMap[..]), canonMap[..])
    {
      doneAt, clock := seq(|orig|, _ => 0), 0;
      ghost var rank: seq<nat> := doneAt;
      if exists other: seq<nat> :: AcyclicRefs(orig, btf.startId, other) { rank :| AcyclicRefs(orig, btf.startId, rank); }
      EnterRefPass(orig, btf.startId, canonMap[..], table);
      for id := btf.startId to canonMap.Length
        invariant RefLive() && MappedBelow(canonMap[..], id) && Idle(canonMap[..])
        invariant StructsKept(orig, old(canonMap[..]), canonMap[..])
      {
        ghost var m, types := canonMap[..], btf.types[..];
        var r := RefType(id, rank);
        StructsStillKept(orig, old(canonMap[..]), m, types, canonMap[..], btf.types[..]);
        if r < 0 { return r; }
        MappedNext(m, types, canonMap[..], btf.types[..], id, id + 1);
      }
      AllDone(orig, btf.startId, canonMap[..], doneAt, clock);
      return 0;
    }

    /**
     * btf_dedup_compact_types: move the canonical types down over the duplicates. The write
     * pointer p never passes the offset of a type that is still to be copied.
     */
    method CompactTypes() returns (err: int)
      requires Shape() && 1 <= btf.startId && |orig| <= BTF_MAX_NR_TYPES + 1 && btf.startId + btf.nrTypes == |orig|
      requires btf.typeOffs.Length == btf.nrTypes && Tiled(btf.types[..], btf.typeOffs[..], btf.startId, |orig|) && KnownSizes(btf.types[..], btf.startId)
      modifies hypotMap, btf, btf.types, btf.typeOffs
      ensures err == 0
      ensures err == 0 ==> btf.startId + btf.nrTypes == NewId(canonMap[..], btf.startId, |orig|)
      ensures err == 0 ==> Compacted(old(btf.types[..]), old(btf.typeOffs[..]), canonMap[..], btf.startId, |orig|,
                                     btf.types[..], btf.typeOffs[..], hypotMap[..], btf.typeLen)
    {
      ghost var types0, offs0, m := btf.types[..], btf.typeOffs[..], canonMap[..];
      ResetHypotMap();
      var next, p := btf.startId, 0;
      for id := btf.startId to canonMap.Length
        invariant next == NewId(m, btf.startId, id)
        invariant Compacted(types0, offs0, m, btf.startId, id, btf.types[..], btf.typeOffs[..], hypotMap[..], p)
      {
        if canonMap[id] == id {
          var len := TypeSize(btf.types[id]);
          if len < 0 { return len; }
          MoveDown(id, next, p, types0, offs0);
          p := p + len;
          next := next + 1;
        } else {
          CompactSkip(types0, offs0, m, btf.startId, id, btf.types[..], btf.typeOffs[..], hypotMap[..], p);
        }
      }
      btf.nrTypes := next - btf.startId;
      btf.typeLen := p;
      return 0;
    }

    /** The hypothetical map is reused for the new ids: base ids are not renumbered. */
    method ResetHypotMap()
      requires Shape() && |orig| <= BTF_MAX_NR_TYPES + 1
      modifies hypotMap
      ensures forall x :: 0 <= x < hypotMap.Length ==> hypotMap[x] == if x < btf.startId then x else UNPROCESSED
    {
      for id := 0 to hypotMap.Length
        invariant forall x :: 0 <= x < id ==> hypotMap[x] == if x < btf.startId then x else UNPROCESSED
      {
        hypotMap[id] := if id < btf.startId then id else UNPROCESSED;
      }
    }

    /** Copy canonical type id down to slot next, at offset p. */
    method MoveDown(id: u32, next: u32, p: int, ghost types0: seq<BtfType>, ghost offs0: seq<int>)
      requires Shape() && btf.startId <= id < |orig| && btf.typeOffs.Length == |orig| - btf.startId
      requires Compacted(types0, offs0, canonMap[..], btf.startId, id, btf.types[..], btf.typeOffs[..], hypotMap[..], p)
      requires Tiled(types0, offs0, btf.startId, |orig|) && canonMap[id] == id && next == NewId(canonMap[..], btf.startId, id)
      modifies hypotMap, btf.types, btf.typeOffs
      ensures p <= old(btf.typeOffs[id - btf.startId])
      ensures next + 1 == NewId(canonMap[..], btf.startId, id + 1)
      ensures Compacted(types0, offs0, canonMap[..], btf.startId, id + 1, btf.types[..], btf.typeOffs[..], hypotMap[..],
                        p + TypeSize(old(btf.types[id])))
    {
      ghost var types, offs, hyp := btf.types[..], btf.typeOffs[..], hypotMap[..];
      CompactMove(types0, offs0, canonMap[..], btf.startId, id, types, offs, hyp, p);
      btf.types[next] := btf.types[id];
      btf.typeOffs[next - btf.startId] := p;
      hypotMap[id] := next;
      assert btf.types[..] == types[next := types[id]];
      assert btf.typeOffs[..] == offs[next - btf.startId := p];
      assert hypotMap[..] == hyp[id := next];
    }

    // ----- rewriting references to the final ids

    /** After compaction: canonical types have their new ids in hypotMap. */
    ghost predicate Renumbered()
      reads this, canonMap, hypotMap, btf
    {
      Shape() && IsForest(canonMap[..]) && Settled(canonMap[..]) && AllMapped(canonMap[..]) && btf.startId <= |orig| &&
      forall x {:trigger hypotMap[x]} :: 0 <= x < |orig| && canonMap[x] == x ==> hypotMap[x] == NewId(canonMap[..], btf.startId, x)
    }

    /** btf_dedup_remap_type_id: never fails on an id of the input. */
    method RemapTypeId(id: u32) returns (err: int, newId: u32)
      requires Renumbered() && id < |orig|
      ensures err == 0 && newId == FinalIds(canonMap[..], btf.startId)[id]
    {
      SettledRoot(canonMap[..], id);
      FinalBelow(canonMap[..], btf.startId, id);
      var resolved := ResolveTypeId(id);
      newId := hypotMap[resolved];
      return if newId > BTF_MAX_NR_TYPES then -EINVAL else 0, newId;
    }

    method RemapType(id: u32) returns (err: int)
      requires Renumbered() && id < |orig| && RefsBelow(btf.types[id], |orig|)
      modifies btf.types
      ensures err == 0
      ensures btf.types[..] == old(btf.types[..])[id := MapRefs(old(btf.types[id]), FinalIds(canonMap[..], btf.startId))]
    {
      ghost var types0, fin := btf.types[..], FinalIds(canonMap[..], btf.startId);
      ghost var t0 := btf.types[id];
      for i := 0 to |Refs(btf.types[id])|
        invariant Label(btf.types[id]) == Label(t0) && |Refs(btf.types[id])| == |Refs(t0)|
        invariant btf.types[..] == types0[id := btf.types[id]]
        invariant forall j :: 0 <= j < |Refs(t0)| ==> Refs(btf.types[id])[j] == if j < i then fin[Refs(t0)[j]] else Refs(t0)[j]
      {
        var t := btf.types[id];
        var newId;
        err, newId := RemapTypeId(Refs(t)[i]);
        SetRefRefs(t, i, newId);
        btf.types[id] := SetRef(t, i, newId);
      }
      AllRefsSet(t0, btf.types[id], fin);
      return 0;
    }

    method RemapTypes() returns (err: int)
      requires Renumbered() && btf.startId + btf.nrTypes <= |orig|
      requires forall x :: btf.startId <= x < btf.startId + btf.nrTypes ==> RefsBelow(btf.types[x], |orig|)
      modifies btf.types
      ensures err == 0
      ensures Remapped(old(btf.types[..]), btf.types[..], btf.startId, btf.startId + btf.nrTypes, FinalIds(canonMap[..], btf.startId))
    {
      ghost var types0, fin := btf.types[..], FinalIds(canonMap[..], btf.startId);
      for id := btf.startId to btf.startId + btf.nrTypes
        invariant Remapped(types0, btf.types[..], btf.startId, id, fin)
      {
        ghost var types := btf.types[..];
        assert btf.types[..][id] == types0[id];
        err := RemapType(id);
        assert Remapped(types0, btf.types[..], btf.startId, id + 1, fin);
      }
      return 0;
    }

    /** The passes that find the canonical type of every id. */
    method Analyse() returns (err: int)
      requires Live() && Hypot() && Frontier(orig, btf.startId, canonMap[..], table, 1)
      modifies canonMap, hypotMap, btf.types, this`table, this`hypotList, this`hypotAdjustCanon, this`doneAt, this`clock
      ensures err <= 0
      ensures err == 0 ==> RefLive() && AllMapped(canonMap[..]) && CopyFree(orig, btf.startId, canonMap[..], |orig|)
      ensures Calm(orig) ==> (err == 0 <==> exists rank: seq<nat> :: AcyclicRefs(orig, btf.startId, rank))
    {
      err := Prep();
      if err < 0 { return; }
      err := PrimTypes();
      if err < 0 { return; }
      err := StructTypes();
      if err < 0 { return; }
      ghost var m := canonMap[..];
      err := RefTypes();
      CopyFreeKept(orig, btf.startId, m, canonMap[..]);
    }

    /** The passes that renumber the canonical types and rewrite all references. */
    method Rebuild() returns (err: int, ghost final: seq<u32>)
      requires RefLive() && AllMapped(canonMap[..]) && CopyFree(orig, btf.startId, canonMap[..], |orig|) && btf.startId + btf.nrTypes == |orig|
      requires btf.typeOffs.Length == btf.nrTypes && FillsSection(orig, btf.typeOffs[..], btf.startId, btf.typeLen)
      modifies hypotMap, btf, btf.types, btf.typeOffs
      ensures err == 0
      ensures err == 0 ==> btf.startId + btf.nrTypes <= |orig| && btf.OffsetsTile()
      ensures err == 0 ==> Deduplicated(orig, btf.startId, btf.Graph(), final)
    {
      ghost var types1, offs1, m := btf.types[..], btf.typeOffs[..], canonMap[..];
      RewrittenTiled(orig, btf.startId, types1, offs1);
      final := FinalIds(m, btf.startId);
      err := CompactTypes();
      if err < 0 { return; }
      ghost var types2, offs2, hyp := btf.types[..], btf.typeOffs[..], hypotMap[..];
      CompactedRefs(orig, btf.startId, types1, offs1, m, types2, offs2, hyp, btf.typeLen);
      err := RemapTypes();
      Rebuilt(orig, btf.startId, types1, offs1, m, table, types2, offs2, hyp, btf.typeLen, btf.types[..]);
      btf.GraphIs(NewId(m, btf.startId, |m|));
    }
  }

  /**
   * btf__dedup: on success every original id x means what final[x] means afterwards, the base is
   * as it was, nothing is kept twice, and the types that are left fill the type section. If plain
   * types refer to plain types only, it succeeds exactly when no chain of reference types is circular.
   */
  method DedupTypes(btf: Btf) returns (err: int, ghost final: seq<u32>)
    requires WfGraph(btf.types[..], btf.startId) && btf.startId + btf.nrTypes == btf.types.Length
    requires btf.typeOffs.Length == btf.nrTypes && btf.OffsetsTile()
    modifies btf, btf.types, btf.typeOffs
    ensures err <= 0
    ensures err == 0 ==> btf.startId + btf.nrTypes <= btf.types.Length && btf.OffsetsTile()
    ensures err == 0 ==> Deduplicated(old(btf.types[..]), btf.startId, btf.Graph(), final)
    ensures Calm(old(btf.types[..])) ==>
              (err == 0 <==> exists rank: seq<nat> :: AcyclicRefs(old(btf.types[..]), btf.startId, rank))
  {
    final := [];
    assert btf.Graph() == btf.types[..];
    var d := new Dedup(btf);
    err := d.Analyse();
    if err == 0 { err, final := d.Rebuild(); }
  }
}
