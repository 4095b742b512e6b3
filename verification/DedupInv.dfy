/** What every step of deduplication keeps about the canonical map and the table of canonical types. */
module DedupInv {
  import opened Ints
  import opened BtfTypes
  import opened Meaning
  import opened Forest
  import opened BtfCompare
  import opened HypotSpec

  /** The input: slot 0 is void, ids below start belong to the base, references stay inside. */
  ghost predicate WfGraph(g: seq<BtfType>, start: nat) {
    1 <= start <= |g| <= BTF_MAX_NR_TYPES + 1 && g[0] == VOID && Closed(g) &&
    (forall x {:trigger WfType(g[x])} :: 0 <= x < |g| ==> WfType(g[x])) &&
    (forall x {:trigger RefsBelow(g[x], start)} :: 0 <= x < start ==> RefsBelow(g[x], start))
  }

  ghost predicate MapInv(g: seq<BtfType>, m: seq<u32>)
    requires Closed(g)
  {
    IsForest(m) && |m| == |g| &&
    (forall mode {:trigger MapSound(mode, g, m)} :: Linkable(mode, g) ==> MapSound(mode, g, m)) &&
    (forall x {:trigger g[m[x]]} :: 0 <= x < |m| && Mapped(m[x]) && IsForward(g[m[x]]) ==> IsForward(g[x]))
  }

  /** x and y mean the same in every mode that the input admits. */
  ghost predicate Alike(g: seq<BtfType>, x: nat, y: nat)
    requires Closed(g) && x < |g| && y < |g|
  {
    forall mode {:trigger Same(mode, g, x, y)} :: Linkable(mode, g) ==> Same(mode, g, x, y)
  }

  lemma AlikeRoot(g: seq<BtfType>, m: seq<u32>, x: nat)
    requires Closed(g) && MapInv(g, m) && x < |g|
    ensures Alike(g, x, Root(m, x))
  {
    forall mode | Linkable(mode, g) ensures Same(mode, g, x, Root(m, x)) {
      assert MapSound(mode, g, m);
      RootSame(mode, g, m, x);
    }
  }

  lemma AlikeTrans(g: seq<BtfType>, x: nat, y: nat, z: nat)
    requires Closed(g) && x < |g| && y < |g| && z < |g|
    requires Alike(g, x, y) && Alike(g, y, z)
    ensures Alike(g, x, z) && Alike(g, y, x)
  {
    forall mode | Linkable(mode, g) ensures Same(mode, g, x, z) && Same(mode, g, y, x) {
      assert Same(mode, g, x, y) && Same(mode, g, y, z);
    }
  }

  lemma AlikeEqual(g: seq<BtfType>, x: nat, y: nat)
    requires Closed(g) && x < |g| && y < |g| && g[x] == g[y]
    ensures Alike(g, x, y)
  {
    forall mode | Linkable(mode, g) ensures Same(mode, g, x, y) { EqualDescriptors(mode, g, x, y); }
  }

  lemma AlikeDefines(g: seq<BtfType>, d: nat, f: nat)
    requires Closed(g) && d < |g| && f < |g| && Defines(g[d], g[f])
    ensures Alike(g, d, f) && Alike(g, f, d)
  {
    forall mode | Linkable(mode, g) ensures Same(mode, g, d, f) && Same(mode, g, f, d) {
      DefinitionMeansForward(mode, g, d, f);
    }
  }

  lemma AlikeKey(g: seq<BtfType>, x: nat, y: nat)
    requires Closed(g) && x < |g| && y < |g| && Alike(g, x, y)
    ensures g[x].nameOff == g[y].nameOff && EffKind(g[x]) == EffKind(g[y])
  {
    assert Same(Nominal, g, x, y);
    NominalKey(g, x, y);
  }

  /** The one way the map is ever changed: id x is pointed at an id that means the same. */
  lemma Relink(g: seq<BtfType>, m: seq<u32>, x: nat, to: u32)
    requires Closed(g) && MapInv(g, m) && x < |g| && to < |g| && IsForest(m[x := to])
    requires Alike(g, x, to) && (IsForward(g[to]) ==> IsForward(g[x]))
    ensures MapInv(g, m[x := to])
  {
    var m' := m[x := to];
    forall mode | Linkable(mode, g) ensures MapSound(mode, g, m') {
      assert MapSound(mode, g, m) && Same(mode, g, x, to);
      forall y | 0 <= y < |m'| && Mapped(m'[y]) ensures Same(mode, g, y, m'[y]) {
        if y != x { assert Same(mode, g, y, m[y]); }
      }
    }
  }

  lemma Mark(g: seq<BtfType>, m: seq<u32>, x: nat)
    requires Closed(g) && MapInv(g, m) && x < |g|
    ensures MapInv(g, m[x := IN_PROGRESS])
  {
    var m' := m[x := IN_PROGRESS];
    MakeRoot(m, x, IN_PROGRESS);
    forall mode | Linkable(mode, g) ensures MapSound(mode, g, m') {
      assert MapSound(mode, g, m);
      forall y | 0 <= y < |m'| && Mapped(m'[y]) ensures Same(mode, g, y, m'[y]) {
        assert Same(mode, g, y, m[y]);
      }
    }
  }

  // ----- the table of canonical types, each filed under its signature hash

  ghost predicate TableInv(types: seq<BtfType>, start: nat, m: seq<u32>, table: map<u32, nat>)
    requires |m| == |types|
  {
    Filed(types, m, table) && Hashed(types, table) && Distinct(types, start, table) && Covers(types, start, m, table)
  }

  /** Table entries are canonical, forwards excepted. */
  ghost predicate Filed(types: seq<BtfType>, m: seq<u32>, table: map<u32, nat>)
    requires |m| == |types|
  {
    forall id {:trigger table[id]} {:trigger id in table} :: id in table ==>
      0 < id < |m| && Mapped(m[id]) && WfType(types[id]) && (!IsForward(types[id]) ==> m[id] == id)
  }

  /** Every table entry sits under the hash of its current descriptor. */
  ghost predicate Hashed(types: seq<BtfType>, table: map<u32, nat>) {
    forall id {:trigger HashOf(types[id])} :: id in table && id < |types| && WfType(types[id]) ==> table[id] == HashOf(types[id])
  }

  /** No two entries are equal, unless both are structs or both come from the base. */
  ghost predicate Distinct(types: seq<BtfType>, start: nat, table: map<u32, nat>) {
    forall a, b {:trigger a in table, b in table} :: a in table && b in table && a < b < |types| && start <= b && types[a] == types[b]
      ==> IsComposite(types[a])
  }

  /** Nothing in the table has descriptor t. */
  ghost predicate Unfiled(types: seq<BtfType>, table: map<u32, nat>, t: BtfType) {
    forall e {:trigger e in table} :: e in table ==> e < |types| && types[e] != t
  }

  predicate NeverDeduped(t: BtfType) { t.info.kind == Var || t.info.kind == Datasec }

  /** Canonical types and processed base types are in the table, except the kinds that are never deduplicated. */
  ghost predicate Covers(types: seq<BtfType>, start: nat, m: seq<u32>, table: map<u32, nat>)
    requires |m| == |types|
  {
    forall x: u32 :: 0 < x < |m| && !NeverDeduped(types[x]) && (m[x] == x || (x < start && Mapped(m[x]))) ==> x in table
  }

  /** Filing a new canonical type keeps the table, provided nothing equal was filed before. */
  lemma FileType(types: seq<BtfType>, start: nat, m: seq<u32>, table: map<u32, nat>, x: u32)
    requires |m| == |types| <= BTF_MAX_NR_TYPES + 1 && 0 < x < |m| && start <= x
    requires TableInv(types, start, m, table) && !Mapped(m[x]) && WfType(types[x])
    requires IsComposite(types[x]) || Unfiled(types, table, types[x])
    ensures TableInv(types, start, m[x := x], table[x := HashOf(types[x])])
  {
    assert x !in table;
    var m', table' := m[x := x], table[x := HashOf(types[x])];
    assert Filed(types, m', table');
    forall a, b | a in table' && b in table' && a < b < |types| && start <= b && types[a] == types[b]
      ensures IsComposite(types[a])
    {
      if a == x { assert b in table; } else if b == x { assert a in table; } else { assert a in table && b in table; }
    }
  }

  lemma FileBaseType(types: seq<BtfType>, start: nat, m: seq<u32>, table: map<u32, nat>, x: u32)
    requires |m| == |types| <= BTF_MAX_NR_TYPES + 1 && 0 < x < |m| && x < start
    requires TableInv(types, start, m, table) && !Mapped(m[x]) && WfType(types[x])
    requires forall id :: id in table ==> id < x
    ensures TableInv(types, start, m[x := x], table[x := HashOf(types[x])])
  {
  }

  lemma SettleBase(g: seq<BtfType>, start: nat, m: seq<u32>, table: map<u32, nat>, x: u32)
    requires Core(g, start, m, table) && Frontier(g, start, m, table, x) && 0 < x < start
    ensures var table' := if NeverDeduped(g[x]) then table else table[x := HashOf(g[x])];
            Core(g, start, m[x := x], table') && Frontier(g, start, m[x := x], table', x + 1)
  {
    MakeRoot(m, x, x);
    AlikeEqual(g, x, x);
    Relink(g, m, x, x);
    assert WfType(g[x]);
    var m' := m[x := x];
    forall y | 0 <= y < |m'| && !IsRoot(m', y) ensures m'[y] < x + 1 && Mapped(m'[m'[y]]) { assert !IsRoot(m, y); }
    if !NeverDeduped(g[x]) { FileBaseType(g, start, m, table, x); } else { assert m[x := x] == m; }
  }

  /** Pointing an id outside the table, or a forward, elsewhere keeps the table. */
  lemma PointType(types: seq<BtfType>, start: nat, m: seq<u32>, table: map<u32, nat>, x: u32, to: u32)
    requires |m| == |types| <= BTF_MAX_NR_TYPES + 1 && x < |m| && to < |m| && x != to
    requires TableInv(types, start, m, table) && (if x in table then IsForward(types[x]) else start <= x)
    ensures TableInv(types, start, m[x := to], table)
  {
  }

  /** What the primitive and struct passes keep. */
  ghost predicate Core(g: seq<BtfType>, start: nat, m: seq<u32>, table: map<u32, nat>) {
    WfGraph(g, start) && MapInv(g, m) && TableInv(g, start, m, table) && NoRefsYet(g, start, table)
  }

  /** Types left to the later passes. */
  predicate Deferred(t: BtfType) { IsComposite(t) || IsRewritten(t) }

  /** The kinds that the primitive pass looks at. */
  predicate IsPrim(t: BtfType) { t.info.kind == Int || t.info.kind == Fwd || t.info.kind == Float || IsAnyEnum(t) }

  lemma PrimAtOnce(t: BtfType)
    requires IsPrim(t)
    ensures !NeverDeduped(t) && !Deferred(t)
  {
  }

  /** Primitive pass: deferred types are not mapped at all, the others are mapped once they were looked at. */
  ghost predicate Staged(g: seq<BtfType>, start: nat, m: seq<u32>, cur: nat) {
    |m| == |g| && forall x {:trigger m[x]} :: 0 <= x < |m| ==>
      if start <= x && Deferred(g[x]) then m[x] == UNPROCESSED else x < cur ==> Mapped(m[x])
  }

  /** Struct pass: of the types of this BTF, only structs and reference types can still be unmapped. */
  ghost predicate Pending(g: seq<BtfType>, start: nat, m: seq<u32>) {
    |m| == |g| && forall x {:trigger m[x]} :: 0 <= x < |m| ==>
      if start <= x && IsRewritten(g[x]) then m[x] == UNPROCESSED else (start <= x && IsComposite(g[x])) || Mapped(m[x])
  }

  /** Reference types of this BTF are filed only once their references are canonical. */
  ghost predicate NoRefsYet(g: seq<BtfType>, start: nat, table: map<u32, nat>) {
    forall id {:trigger id in table} :: id in table && start <= id < |g| ==> !IsRewritten(g[id])
  }

  /** No id loses its mapping. */
  ghost predicate KeepsMapped(m0: seq<u32>, m: seq<u32>) {
    |m0| == |m| && forall x {:trigger m[x]} :: 0 <= x < |m| && Mapped(m0[x]) ==> Mapped(m[x])
  }

  /** What is pointed at is itself mapped, so every mapped id resolves to a self-mapped one. */
  ghost predicate Settled(m: seq<u32>)
    requires MapOk(m)
  {
    forall y {:trigger IsRoot(m, y)} :: 0 <= y < |m| && !IsRoot(m, y) ==> Mapped(m[m[y]])
  }

  /** As Settled, but structs still to be processed may be pointed at. */
  ghost predicate Grounded(g: seq<BtfType>, start: nat, m: seq<u32>)
    requires MapOk(m) && |m| == |g|
  {
    Pending(g, start, m) &&
    forall y {:trigger IsRoot(m, y)} :: 0 <= y < |m| && !IsRoot(m, y) ==> Mapped(m[m[y]]) || IsComposite(g[m[y]])
  }

  /** Ids from cur on are still unprocessed, and nothing processed so far leads to them. */
  ghost predicate Frontier(types: seq<BtfType>, start: nat, m: seq<u32>, table: map<u32, nat>, cur: nat)
    requires |m| == |types|
  {
    MapOk(m) && (forall y {:trigger IsRoot(m, y)} :: 0 <= y < |m| && !IsRoot(m, y) ==> m[y] < cur && Mapped(m[m[y]])) &&
    (forall y :: cur <= y < |m| ==> m[y] == if NeverDeduped(types[y]) then y else UNPROCESSED) &&
    (forall id :: id in table ==> id < cur) && Staged(types, start, m, cur)
  }

  /** While type cur is being processed: only forwards may already point at it, and only if it is a full type. */
  ghost predicate AtFrontier(types: seq<BtfType>, start: nat, m: seq<u32>, table: map<u32, nat>, cur: nat)
    requires |m| == |types|
  {
    cur < |m| && m[cur] == UNPROCESSED && MapOk(m) &&
    (forall y {:trigger IsRoot(m, y)} :: 0 <= y < |m| && !IsRoot(m, y) ==>
      (m[y] < cur && Mapped(m[m[y]])) || (m[y] == cur && !IsForward(types[cur]))) &&
    (forall y :: cur <= y < |m| ==> m[y] == if NeverDeduped(types[y]) then y else UNPROCESSED) &&
    (forall id :: id in table ==> id < cur) && Staged(types, start, m, cur)
  }

  lemma SkipPrim(types: seq<BtfType>, start: nat, m: seq<u32>, table: map<u32, nat>, cur: nat)
    requires |m| == |types| && Frontier(types, start, m, table, cur) && cur < |m| && start <= cur
    requires Deferred(types[cur]) || NeverDeduped(types[cur])
    ensures Frontier(types, start, m, table, cur + 1)
  {
  }

  lemma BeginPrim(types: seq<BtfType>, start: nat, m: seq<u32>, table: map<u32, nat>, cur: nat)
    requires |m| == |types| && Frontier(types, start, m, table, cur) && cur < |m| && !NeverDeduped(types[cur])
    ensures AtFrontier(types, start, m, table, cur)
  {
  }

  /** A canonical enum forward is re-pointed at the full enum being processed. */
  lemma RepointForward(g: seq<BtfType>, start: nat, m: seq<u32>, table: map<u32, nat>, cur: u32, f: u32)
    requires Core(g, start, m, table) && AtFrontier(g, start, m, table, cur)
    requires f in table && Defines(g[cur], g[f])
    ensures Core(g, start, m[f := cur], table) && AtFrontier(g, start, m[f := cur], table, cur)
  {
    LinkToRoot(m, f, cur);
    AlikeDefines(g, cur, f);
    Relink(g, m, f, cur);
    PointType(g, start, m, table, f, cur);
    var m' := m[f := cur];
    forall y | 0 <= y < |m'| && !IsRoot(m', y)
      ensures (m'[y] < cur && Mapped(m'[m'[y]])) || (m'[y] == cur && !IsForward(g[cur]))
    {
      if y != f { assert !IsRoot(m, y); }
    }
  }

  lemma SettlePrimLink(g: seq<BtfType>, start: nat, m: seq<u32>, table: map<u32, nat>, cur: u32, newId: u32)
    requires Core(g, start, m, table) && AtFrontier(g, start, m, table, cur)
    requires newId in table && (g[newId] == g[cur] || Defines(g[newId], g[cur]))
    ensures newId != cur && MapInv(g, m[cur := newId])
  {
    if IsForward(g[cur]) {
      forall y | 0 <= y < |m| && y != cur ensures m[y] != cur { assert m[y] == cur ==> !IsRoot(m, y); }
      LinkLeaf(m, cur, newId);
    } else {
      assert m[newId] == newId;
      LinkToRoot(m, cur, newId);
    }
    if g[newId] == g[cur] { AlikeEqual(g, cur, newId); } else { AlikeDefines(g, newId, cur); }
    Relink(g, m, cur, newId);
  }

  /** Type cur becomes canonical, or is pointed at an equal type or a definition of it. */
  lemma SettlePrim(g: seq<BtfType>, start: nat, m: seq<u32>, table: map<u32, nat>, cur: u32, newId: u32)
    requires Core(g, start, m, table) && AtFrontier(g, start, m, table, cur)
    requires start <= cur && !NeverDeduped(g[cur]) && !Deferred(g[cur])
    requires newId == cur || (newId in table && (g[newId] == g[cur] || Defines(g[newId], g[cur])))
    requires newId == cur ==> Unfiled(g, table, g[cur])
    ensures var table' := if newId == cur then table[cur := HashOf(g[cur])] else table;
            Core(g, start, m[cur := newId], table') && Frontier(g, start, m[cur := newId], table', cur + 1)
  {
    if newId == cur {
      MakeRoot(m, cur, cur);
      AlikeEqual(g, cur, cur);
      Relink(g, m, cur, cur);
      assert WfType(g[cur]);
      FileType(g, start, m, table, cur);
    } else {
      SettlePrimLink(g, start, m, table, cur, newId);
      PointType(g, start, m, table, cur, newId);
    }
    assert WfType(g[cur]);
    FrontierMoves(g, start, m, table, cur, newId, HashOf(g[cur]));
  }

  lemma FrontierMoves(g: seq<BtfType>, start: nat, m: seq<u32>, table: map<u32, nat>, cur: u32, newId: u32, hash: nat)
    requires |m| == |g| <= BTF_MAX_NR_TYPES + 1 && AtFrontier(g, start, m, table, cur) && start <= cur && !Deferred(g[cur])
    requires newId == cur || (newId in table && Mapped(m[newId]))
    requires MapOk(m[cur := newId])
    ensures Frontier(g, start, m[cur := newId], if newId == cur then table[cur := hash] else table, cur + 1)
  {
    var m' := m[cur := newId];
    forall y | 0 <= y < |m'| && !IsRoot(m', y) ensures m'[y] < cur + 1 && Mapped(m'[m'[y]]) {
      if y != cur { assert !IsRoot(m, y); }
    }
  }

  /** A canonical FWD is resolved to a full type, or an unmapped struct to a canonical one. */
  lemma LinkAlike(g: seq<BtfType>, start: nat, m: seq<u32>, table: map<u32, nat>, x: u32, to: u32)
    requires Core(g, start, m, table) && x < |g| && to < |g| && IsRoot(m, x) && IsRoot(m, to) && Alike(g, x, to)
    requires !IsFwd(g[to]) && (IsFwd(g[x]) || (IsComposite(g[x]) && Mapped(m[to]) && !Mapped(m[x])))
    requires Grounded(g, start, m)
    ensures Core(g, start, m[x := to], table) && Grounded(g, start, m[x := to])
  {
    AlikeKey(g, x, to);
    assert IsComposite(g[to]);
    var m' := m[x := to];
    forall y | 0 <= y < |m'| && !IsRoot(m', y) ensures Mapped(m'[m'[y]]) || IsComposite(g[m'[y]]) {
      if y != x { assert !IsRoot(m, y); }
    }
    assert Pending(g, start, m') by { assert forall y :: 0 <= y < |m| && y != x ==> m'[y] == m[y]; }
    if x < start { assert Mapped(m[x]); }
    LinkToRoot(m, x, to);
    Relink(g, m, x, to);
    PointType(g, start, m, table, x, to);
  }

  /** Void is not what a FWD resolves to. */
  lemma FwdRootVoid(g: seq<BtfType>, start: nat, m: seq<u32>, y: nat)
    requires WfGraph(g, start) && MapInv(g, m) && y < |g|
    ensures FwdRoot(g, m, y) == 0 ==> y == 0
  {
    AlikeRoot(g, m, y);
    AlikeKey(g, y, Root(m, y));
  }

  /** The roots of two ids that mean the same mean the same. */
  lemma RootsAlike(g: seq<BtfType>, m: seq<u32>, x: nat, y: nat)
    requires Closed(g) && MapInv(g, m) && x < |g| && y < |g| && Alike(g, x, y)
    ensures Alike(g, Root(m, x), Root(m, y)) && Alike(g, Root(m, y), Root(m, x))
  {
    var rx, ry := Root(m, x), Root(m, y);
    AlikeRoot(g, m, x);
    AlikeRoot(g, m, y);
    AlikeTrans(g, x, y, ry);
    AlikeTrans(g, x, rx, rx);
    AlikeTrans(g, rx, x, ry);
    AlikeTrans(g, rx, ry, ry);
  }

  /** A struct settles: it becomes canonical, or is pointed at a canonical struct it was found equivalent to. */
  lemma SettleStruct(g: seq<BtfType>, start: nat, m: seq<u32>, table: map<u32, nat>, cur: u32, newId: u32)
    requires Core(g, start, m, table) && cur < |g| && start <= cur && IsComposite(g[cur]) && cur !in table
    requires Grounded(g, start, m)
    requires newId == cur ==> !Mapped(m[cur])
    requires newId != cur ==> newId in table && IsComposite(g[newId]) && Alike(g, cur, newId)
    ensures Core(g, start, m[cur := newId], if newId == cur then table[cur := HashOf(g[cur])] else table)
    ensures Grounded(g, start, m[cur := newId])
  {
    var m' := m[cur := newId];
    if newId == cur {
      MakeRoot(m, cur, cur);
      AlikeEqual(g, cur, cur);
      assert WfType(g[cur]);
      FileType(g, start, m, table, cur);
    } else {
      assert m[newId] == newId;
      LinkToRoot(m, cur, newId);
      PointType(g, start, m, table, cur, newId);
    }
    Relink(g, m, cur, newId);
    PointGrounded(g, start, m, cur, newId);
  }

  /** Pointing a structure at a mapped type, or at itself, keeps the map grounded. */
  lemma PointGrounded(g: seq<BtfType>, start: nat, m: seq<u32>, cur: u32, newId: u32)
    requires |m| == |g| && MapOk(m) && Grounded(g, start, m) && cur < |g| && start <= cur && IsComposite(g[cur])
    requires newId < |g| && (newId == cur || Mapped(m[newId])) && MapOk(m[cur := newId])
    ensures Grounded(g, start, m[cur := newId])
  {
    var m' := m[cur := newId];
    forall y | 0 <= y < |m'| && !IsRoot(m', y) ensures Mapped(m'[m'[y]]) || IsComposite(g[m'[y]]) {
      if y != cur { assert !IsRoot(m, y); }
    }
  }

  // ----- inputs on which nothing can go wrong

  predicate KnownKind(t: BtfType) { t.info.kind != Unkn && !t.info.kind.Other? }

  ghost predicate KnownKinds(g: seq<BtfType>) {
    forall x {:trigger KnownKind(g[x])} :: 0 < x < |g| ==> KnownKind(g[x])
  }

  /** Types that C source text can refer to. */
  predicate IsPlain(t: BtfType) { !NeverDeduped(t) && t.info.kind != DeclTag }

  /** Kinds are known, and plain types refer to plain types only. */
  ghost predicate Calm(g: seq<BtfType>)
    requires Closed(g)
  {
    KnownKinds(g) &&
    forall x {:trigger PlainRefs(g, x)} :: 0 <= x < |g| && IsPlain(g[x]) ==> PlainRefs(g, x)
  }

  ghost predicate PlainRefs(g: seq<BtfType>, x: nat)
    requires Closed(g) && x < |g|
  {
    assert RefsBelow(g[x], |g|);
    AllPlain(g, Refs(g[x]))
  }

  ghost predicate AllPlain(g: seq<BtfType>, rs: seq<u32>)
    requires AllBelow(rs, |g|)
  {
    forall i {:trigger rs[i]} :: 0 <= i < |rs| ==> IsPlain(g[rs[i]])
  }
}
