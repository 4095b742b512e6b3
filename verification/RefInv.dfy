/** What the reference pass keeps while it rewrites references in place to canonical ids. */
module RefInv {
  import opened Ints
  import opened BtfTypes
  import opened Meaning
  import opened Forest
  import opened BtfCompare
  import opened DedupInv

  lemma {:induction false} SettledRootBy(m: seq<u32>, rank: seq<nat>, x: nat)
    requires MapOk(m) && Ranked(m, rank) && Settled(m) && x < |m| && Mapped(m[x])
    ensures m[RootBy(m, rank, x)] == RootBy(m, rank, x)
    decreases rank[x]
  {
    if !IsRoot(m, x) { SettledRootBy(m, rank, m[x]); }
  }

  lemma SettledRoot(m: seq<u32>, x: nat)
    requires IsForest(m) && Settled(m) && x < |m| && Mapped(m[x])
    ensures m[Root(m, x)] == Root(m, x)
  {
    var rank: seq<nat> :| Ranked(m, rank) && Root(m, x) == RootBy(m, rank, x);
    SettledRootBy(m, rank, x);
  }

  ghost predicate RefsAlike(g: seq<BtfType>, xs: seq<u32>, ys: seq<u32>)
    requires Closed(g) && AllBelow(xs, |g|) && AllBelow(ys, |g|)
  {
    |xs| == |ys| && forall i {:trigger Alike(g, xs[i], ys[i])} :: 0 <= i < |xs| ==> Alike(g, xs[i], ys[i])
  }

  /** Slot x still has its label, and each reference in it means what it meant. */
  ghost predicate RewrittenAt(g: seq<BtfType>, start: nat, types: seq<BtfType>, x: nat)
    requires Closed(g) && |types| == |g| && x < |g|
  {
    assert RefsBelow(g[x], |g|);
    Label(types[x]) == Label(g[x]) && WfType(types[x]) && RefsBelow(types[x], |g|) &&
    (x < start || !IsRewritten(g[x]) ==> types[x] == g[x]) &&
    RefsAlike(g, Refs(g[x]), Refs(types[x]))
  }

  ghost predicate Rewritten(g: seq<BtfType>, start: nat, types: seq<BtfType>)
    requires Closed(g)
  {
    |types| == |g| && forall x {:trigger RewrittenAt(g, start, types, x)} :: 0 <= x < |g| ==> RewrittenAt(g, start, types, x)
  }

  ghost predicate AllSelfMapped(m: seq<u32>, rs: seq<u32>) {
    forall i {:trigger rs[i]} :: 0 <= i < |rs| ==> rs[i] < |m| && m[rs[i]] == rs[i]
  }

  ghost predicate CanonRefs(types: seq<BtfType>, start: nat, m: seq<u32>, table: map<u32, nat>) {
    forall id {:trigger id in table} :: id in table && start <= id < |types| && IsRewritten(types[id]) ==> AllSelfMapped(m, Refs(types[id]))
  }

  /** Reference pass: only reference types of this BTF are unmapped, and those not yet visited are as handed in. */
  ghost predicate RefStaged(g: seq<BtfType>, start: nat, types: seq<BtfType>, m: seq<u32>) {
    |m| == |g| == |types| && forall x {:trigger m[x]} :: 0 <= x < |m| ==>
      (Mapped(m[x]) || (start <= x && IsRewritten(g[x]))) && (m[x] == UNPROCESSED ==> types[x] == g[x])
  }

  ghost predicate RefCore(g: seq<BtfType>, start: nat, types: seq<BtfType>, m: seq<u32>, table: map<u32, nat>) {
    WfGraph(g, start) && MapInv(g, m) && Settled(m) && Rewritten(g, start, types) && RefStaged(g, start, types, m) &&
    TableInv(types, start, m, table) && CanonRefs(types, start, m, table)
  }

  lemma EnterRefPass(g: seq<BtfType>, start: nat, m: seq<u32>, table: map<u32, nat>)
    requires Core(g, start, m, table) && Settled(m) && RefStaged(g, start, g, m)
    ensures RefCore(g, start, g, m, table)
  {
    forall x | 0 <= x < |g| ensures RewrittenAt(g, start, g, x) {
      assert RefsBelow(g[x], |g|) && WfType(g[x]);
      var rs := Refs(g[x]);
      forall i | 0 <= i < |rs| ensures Alike(g, rs[i], rs[i]) { AlikeEqual(g, rs[i], rs[i]); }
    }
  }

  /** Equal rewritten descriptors come from types that mean the same. */
  lemma EqualRewritten(g: seq<BtfType>, start: nat, types: seq<BtfType>, x: nat, y: nat)
    requires WfGraph(g, start) && Rewritten(g, start, types) && x < |g| && y < |g| && types[x] == types[y]
    ensures Alike(g, x, y)
  {
    assert RewrittenAt(g, start, types, x) && RewrittenAt(g, start, types, y);
    assert RefsBelow(g[x], |g|) && RefsBelow(g[y], |g|);
    forall mode, k: nat | Linkable(mode, g) ensures Unfold(mode, g, k, x) == Unfold(mode, g, k, y) {
      if k > 0 { StepAlike(mode, g, k - 1, x, y, Refs(g[x]), Refs(g[y]), Refs(types[x])); }
    }
  }

  lemma StepAlike(mode: Mode, g: seq<BtfType>, k: nat, x: nat, y: nat, xs: seq<u32>, ys: seq<u32>, rs: seq<u32>)
    requires Closed(g) && x < |g| && y < |g| && Linkable(mode, g) && Label(g[x]) == Label(g[y])
    requires xs == Refs(g[x]) && ys == Refs(g[y]) && AllBelow(xs, |g|) && AllBelow(ys, |g|) && AllBelow(rs, |g|)
    requires RefsAlike(g, xs, rs) && RefsAlike(g, ys, rs)
    ensures Unfold(mode, g, k + 1, x) == Unfold(mode, g, k + 1, y)
  {
    forall i | 0 <= i < |xs| ensures Unfold(mode, g, k, xs[i]) == Unfold(mode, g, k, ys[i]) {
      assert Alike(g, xs[i], rs[i]) && Alike(g, ys[i], rs[i]);
      assert Same(mode, g, xs[i], rs[i]) && Same(mode, g, ys[i], rs[i]);
    }
    LabelStep(mode, g, k, x, y);
  }

  // ----- the steps of the pass

  ghost function Unprocessed(m: seq<u32>): set<nat> {
    set x: nat | x < |m| && m[x] == UNPROCESSED
  }

  /** Nothing already mapped or in progress is touched. */
  ghost predicate Keeps(m0: seq<u32>, types0: seq<BtfType>, m: seq<u32>, types: seq<BtfType>) {
    |m0| == |m| == |types0| == |types| &&
    forall x {:trigger m0[x]} {:trigger m[x]} {:trigger types[x]} :: 0 <= x < |m| && m0[x] != UNPROCESSED ==> m[x] == m0[x] && types[x] == types0[x]
  }

  lemma BeginType(g: seq<BtfType>, start: nat, types: seq<BtfType>, m: seq<u32>, table: map<u32, nat>, x: u32)
    requires RefCore(g, start, types, m, table) && x < |g| && m[x] == UNPROCESSED
    ensures RefCore(g, start, types, m[x := IN_PROGRESS], table)
    ensures Keeps(m, types, m[x := IN_PROGRESS], types) && Unprocessed(m[x := IN_PROGRESS]) < Unprocessed(m)
  {
    var m' := m[x := IN_PROGRESS];
    Mark(g, m, x);
    forall y | 0 <= y < |m'| && !IsRoot(m', y) ensures Mapped(m'[m'[y]]) { assert !IsRoot(m, y); }
    assert x in Unprocessed(m) && x !in Unprocessed(m');
    forall id | id in table && start <= id < |types| && IsRewritten(types[id]) ensures AllSelfMapped(m', Refs(types[id])) {
      assert AllSelfMapped(m, Refs(types[id]));
    }
  }

  /** One reference of the type in progress is replaced by the canonical id it resolves to. */
  lemma RewriteRef(g: seq<BtfType>, start: nat, types: seq<BtfType>, m: seq<u32>, table: map<u32, nat>, x: u32, i: nat, r: u32)
    requires RefCore(g, start, types, m, table) && x < |g| && start <= x && m[x] == IN_PROGRESS
    requires IsRewritten(types[x]) && i < |Refs(types[x])| && r < |g| && Refs(types[x])[i] < |g| && Alike(g, Refs(types[x])[i], r)
    ensures RefCore(g, start, types[x := SetRef(types[x], i, r)], m, table)
  {
    var t := SetRef(types[x], i, r);
    var types' := types[x := t];
    SetRefRefs(types[x], i, r);
    assert RewrittenAt(g, start, types, x) && RefsBelow(g[x], |g|);
    forall y | 0 <= y < |g| ensures RewrittenAt(g, start, types', y) {
      assert RewrittenAt(g, start, types, y);
      if y == x {
        assert Label(t).info == Label(g[x]).info == g[x].info && types[x].info == Label(types[x]).info;
        var os, rs, rs' := Refs(g[x]), Refs(types[x]), Refs(t);
        forall j | 0 <= j < |os| ensures Alike(g, os[j], rs'[j]) {
          assert Alike(g, os[j], rs[j]);
          if j == i { AlikeTrans(g, os[j], rs[j], r); }
        }
      }
    }
    assert x !in table;
    OutsideTable(types, start, m, table, x, t);
  }

  lemma OutsideTable(types: seq<BtfType>, start: nat, m: seq<u32>, table: map<u32, nat>, x: u32, t: BtfType)
    requires |m| == |types| <= BTF_MAX_NR_TYPES + 1 && start <= x < |m| && x !in table && TableInv(types, start, m, table) && !Mapped(m[x])
    requires CanonRefs(types, start, m, table)
    ensures TableInv(types[x := t], start, m, table) && CanonRefs(types[x := t], start, m, table)
  {
    var types' := types[x := t];
    assert forall y :: 0 <= y < |types| && y != x ==> types'[y] == types[y];
    forall y: u32 | 0 < y < |m| && !NeverDeduped(types'[y]) && (m[y] == y || (y < start && Mapped(m[y]))) ensures y in table {
      assert y != x && types'[y] == types[y];
    }
    forall a, b | a in table && b in table && a < b < |types'| && start <= b && types'[a] == types'[b]
      ensures IsComposite(types'[a])
    {
      assert types'[a] == types[a] && types'[b] == types[b];
    }
    forall id | id in table && id < |types'| && WfType(types'[id]) ensures table[id] == HashOf(types'[id]) {
      assert table[id] == HashOf(types[id]);
    }
  }

  /** A map stays settled when an id that nothing points at is pointed at itself or at a self-mapped one. */
  lemma PointSettled(m: seq<u32>, x: u32, newId: u32)
    requires MapOk(m) && Settled(m) && x < |m| && newId < |m| && !Mapped(m[x]) && (newId == x || m[newId] == newId) && MapOk(m[x := newId])
    ensures Settled(m[x := newId])
  {
    var m' := m[x := newId];
    forall y | 0 <= y < |m'| && !IsRoot(m', y) ensures Mapped(m'[m'[y]]) {
      if y != x { assert !IsRoot(m, y); }
    }
  }

  /** The type in progress settles: canonical itself, or pointed at an equal canonical type. */
  lemma SettleRef(g: seq<BtfType>, start: nat, types: seq<BtfType>, m: seq<u32>, table: map<u32, nat>, x: u32, newId: u32)
    requires RefCore(g, start, types, m, table) && x < |g| && start <= x && m[x] == IN_PROGRESS && 0 < x
    requires AllSelfMapped(m, Refs(types[x])) && IsRewritten(types[x]) && WfType(types[x])
    requires newId == x || (newId in table && types[newId] == types[x])
    requires newId == x ==> Unfiled(types, table, types[x])
    ensures var table' := if newId == x then table[x := HashOf(types[x])] else table;
            RefCore(g, start, types, m[x := newId], table')
    ensures m[x := newId][newId] == newId && Alike(g, x, newId)
  {
    var m' := m[x := newId];
    assert RewrittenAt(g, start, types, x) && Label(types[x]).info == Label(g[x]).info;
    if newId == x {
      MakeRoot(m, x, x);
      AlikeEqual(g, x, x);
      FileType(types, start, m, table, x);
    } else {
      assert m[newId] == newId;
      assert RewrittenAt(g, start, types, newId) && Label(types[newId]).info == Label(g[newId]).info;
      LinkToRoot(m, x, newId);
      EqualRewritten(g, start, types, x, newId);
      PointType(types, start, m, table, x, newId);
    }
    Relink(g, m, x, newId);
    PointSettled(m, x, newId);
    assert forall rs: seq<u32> :: AllSelfMapped(m, rs) ==> AllSelfMapped(m', rs);
  }

  lemma SelfMappedKept(m0: seq<u32>, t0: seq<BtfType>, m: seq<u32>, t: seq<BtfType>, rs: seq<u32>)
    requires Keeps(m0, t0, m, t) && |m| <= BTF_MAX_NR_TYPES + 1 && AllSelfMapped(m0, rs)
    ensures AllSelfMapped(m, rs)
  {
  }

  /** Visiting x changed only x itself and what was unprocessed. */
  lemma VisitKept(m0: seq<u32>, t0: seq<BtfType>, x: u32, m: seq<u32>, t: seq<BtfType>)
    requires |m0| == |t0| && x < |m0| && m0[x] == UNPROCESSED && x < |t|
    requires Keeps(m0[x := IN_PROGRESS], t0[x := t[x]], m, t)
    ensures Keeps(m0, t0, m, t)
  {
    forall y | 0 <= y < |m| && m0[y] != UNPROCESSED ensures m[y] == m0[y] && t[y] == t0[y] {
      assert m0[x := IN_PROGRESS][y] == m0[y] && t0[x := t[x]][y] == t0[y];
    }
  }

  // ----- reference chains: the pass succeeds exactly if they all end

  ghost predicate RefsRanked(g: seq<BtfType>, start: nat, rank: seq<nat>, x: nat)
    requires Closed(g) && |rank| == |g| && x < |g|
  {
    assert RefsBelow(g[x], |g|);
    forall i {:trigger Refs(g[x])[i]} :: 0 <= i < |Refs(g[x])| ==>
      start <= Refs(g[x])[i] && IsRewritten(g[Refs(g[x])[i]]) ==> rank[Refs(g[x])[i]] < rank[x]
  }

  /** Among the reference types of this BTF no chain of references runs in a circle. */
  ghost predicate AcyclicRefs(g: seq<BtfType>, start: nat, rank: seq<nat>)
    requires Closed(g)
  {
    |rank| == |g| &&
    forall x {:trigger RefsRanked(g, start, rank, x)} :: start <= x < |g| && IsRewritten(g[x]) ==> RefsRanked(g, start, rank, x)
  }

  /** id can be visited: it is mapped, or every type in progress is above it. */
  ghost predicate Below(m: seq<u32>, rank: seq<nat>, id: nat)
    requires |m| == |rank| && id < |m|
  {
    Mapped(m[id]) || forall y {:trigger m[y]} :: 0 <= y < |m| && m[y] == IN_PROGRESS ==> rank[id] < rank[y]
  }

  /** The types in progress are id and types above it. */
  ghost predicate Stack(m: seq<u32>, rank: seq<nat>, id: nat)
    requires |m| == |rank| && id < |m|
  {
    forall y {:trigger m[y]} :: 0 <= y < |m| && m[y] == IN_PROGRESS ==> rank[id] <= rank[y]
  }

  /** No type is in progress that was not before. */
  ghost predicate Unwound(m0: seq<u32>, m: seq<u32>) {
    |m0| == |m| && forall y {:trigger m[y]} :: 0 <= y < |m| && m[y] == IN_PROGRESS ==> m0[y] == IN_PROGRESS
  }

  lemma StackGrows(m: seq<u32>, rank: seq<nat>, id: nat)
    requires |m| == |rank| && id < |m| && Below(m, rank, id) && !Mapped(m[id])
    ensures Stack(m[id := IN_PROGRESS], rank, id) && m[id] != IN_PROGRESS
  {
  }

  lemma RefBelow(g: seq<BtfType>, start: nat, types: seq<BtfType>, m: seq<u32>, rank: seq<nat>, id: nat, i: nat)
    requires Closed(g) && AcyclicRefs(g, start, rank) && RefStaged(g, start, types, m) && start <= id < |g| && IsRewritten(g[id])
    requires Stack(m, rank, id) && i < |Refs(g[id])| && Refs(g[id])[i] < |g|
    ensures Below(m, rank, Refs(g[id])[i])
  {
    assert RefsRanked(g, start, rank, id);
    var r := Refs(g[id])[i];
    assert Mapped(m[r]) || (start <= r && IsRewritten(g[r]));
  }

  lemma StackUnwound(m0: seq<u32>, m: seq<u32>, rank: seq<nat>, id: nat)
    requires |m0| == |rank| && id < |m0| && Unwound(m0, m)
    ensures Stack(m0, rank, id) ==> Stack(m, rank, id)
  {
  }

  /** Of the references of id the first i are mapped, the others are still as handed in. */
  ghost predicate Visited(g: seq<BtfType>, m: seq<u32>, id: nat, t: BtfType, i: nat)
    requires Closed(g) && |m| == |g| && id < |g|
  {
    assert RefsBelow(g[id], |g|);
    i <= |Refs(g[id])| == |Refs(t)| &&
    (forall j {:trigger Refs(g[id])[j]} :: 0 <= j < i ==> Mapped(m[Refs(g[id])[j]])) &&
    (forall j {:trigger Refs(t)[j]} :: i <= j < |Refs(t)| ==> Refs(t)[j] == Refs(g[id])[j])
  }

  /** Reference types got their time of completion after everything they refer to. */
  ghost predicate Clocked(g: seq<BtfType>, start: nat, m: seq<u32>, doneAt: seq<nat>, clock: nat)
    requires Closed(g) && |m| == |g|
  {
    |doneAt| == |g| &&
    (forall x {:trigger doneAt[x]} :: start <= x < |g| && IsRewritten(g[x]) && Mapped(m[x]) ==> doneAt[x] < clock) &&
    forall x {:trigger RefsDone(g, start, m, doneAt, x)} :: start <= x < |g| && IsRewritten(g[x]) && Mapped(m[x]) ==>
      RefsDone(g, start, m, doneAt, x)
  }

  ghost predicate RefsDone(g: seq<BtfType>, start: nat, m: seq<u32>, doneAt: seq<nat>, x: nat)
    requires Closed(g) && |m| == |g| == |doneAt| && x < |g|
  {
    assert RefsBelow(g[x], |g|);
    forall i {:trigger Refs(g[x])[i]} :: 0 <= i < |Refs(g[x])| ==>
      start <= Refs(g[x])[i] && IsRewritten(g[Refs(g[x])[i]]) ==> Mapped(m[Refs(g[x])[i]]) && doneAt[Refs(g[x])[i]] < doneAt[x]
  }

  lemma ClockMark(g: seq<BtfType>, start: nat, m: seq<u32>, doneAt: seq<nat>, clock: nat, id: nat)
    requires Closed(g) && |m| == |g| && Clocked(g, start, m, doneAt, clock) && id < |m| && !Mapped(m[id])
    ensures Clocked(g, start, m[id := IN_PROGRESS], doneAt, clock)
  {
    var m' := m[id := IN_PROGRESS];
    forall x | start <= x < |g| && IsRewritten(g[x]) && Mapped(m'[x]) ensures RefsDone(g, start, m', doneAt, x) {
      assert RefsDone(g, start, m, doneAt, x);
    }
  }

  lemma ClockSettle(g: seq<BtfType>, start: nat, m: seq<u32>, doneAt: seq<nat>, clock: nat, id: nat, t: BtfType, newId: u32)
    requires Closed(g) && |m| == |g| && Clocked(g, start, m, doneAt, clock) && id < |m| && !Mapped(m[id])
    requires Visited(g, m, id, t, |Refs(g[id])|) && Mapped(newId)
    ensures Clocked(g, start, m[id := newId], doneAt[id := clock], clock + 1)
  {
    var m', doneAt' := m[id := newId], doneAt[id := clock];
    assert RefsBelow(g[id], |g|);
    forall x | start <= x < |g| && IsRewritten(g[x]) && Mapped(m'[x]) ensures RefsDone(g, start, m', doneAt', x) {
      if x != id {
        assert RefsDone(g, start, m, doneAt, x);
      } else {
        var rs := Refs(g[id]);
        forall i | 0 <= i < |rs| && start <= rs[i] && IsRewritten(g[rs[i]])
          ensures Mapped(m'[rs[i]]) && doneAt'[rs[i]] < doneAt'[id]
        {
          assert Mapped(m[rs[i]]) && doneAt[rs[i]] < clock;
        }
      }
    }
  }

  lemma AllDone(g: seq<BtfType>, start: nat, m: seq<u32>, doneAt: seq<nat>, clock: nat)
    requires Closed(g) && |m| == |g| && Clocked(g, start, m, doneAt, clock)
    requires forall x {:trigger m[x]} :: 0 <= x < |m| ==> Mapped(m[x])
    ensures AcyclicRefs(g, start, doneAt)
  {
    forall x | start <= x < |g| && IsRewritten(g[x]) ensures RefsRanked(g, start, doneAt, x) {
      assert Mapped(m[x]);
      assert RefsDone(g, start, m, doneAt, x);
    }
  }

  /** Writing back the i-th reference, now canonical. */
  lemma VisitNext(g: seq<BtfType>, m: seq<u32>, m': seq<u32>, id: nat, t: BtfType, i: nat, r: u32)
    requires Closed(g) && |m| == |m'| == |g| && id < |g| && Visited(g, m, id, t, i) && i < |Refs(t)| && Refs(g[id])[i] < |g|
    requires (forall x {:trigger m'[x]} :: 0 <= x < |m| && Mapped(m[x]) ==> Mapped(m'[x])) && Mapped(m'[Refs(g[id])[i]])
    ensures Visited(g, m', id, SetRef(t, i, r), i + 1)
  {
    SetRefRefs(t, i, r);
    assert RefsBelow(g[id], |g|);
    var rs := Refs(g[id]);
    forall j | 0 <= j < i + 1 ensures Mapped(m'[rs[j]]) {
      if j < i { assert Mapped(m[rs[j]]); }
    }
  }

  // ----- visiting the references of one type

  /** Since state 0, when visiting id began, its first i references have been made canonical. */
  ghost predicate Progress(g: seq<BtfType>, m0: seq<u32>, t0: seq<BtfType>, m: seq<u32>, t: seq<BtfType>, id: u32, i: nat)
    requires Closed(g)
  {
    |m0| == |t0| == |m| == |t| == |g| && id < |g| && m[id] == IN_PROGRESS && Label(t[id]) == Label(t0[id]) &&
    Keeps(m0, t0[id := t[id]], m, t) && Unwound(m0, m) && Visited(g, m, id, t[id], i) &&
    AllSelfMapped(m, Refs(t[id])[..i])
  }

  lemma ProgressKeeps(g: seq<BtfType>, m0: seq<u32>, t0: seq<BtfType>, m1: seq<u32>, t1: seq<BtfType>,
                      m2: seq<u32>, t2: seq<BtfType>, id: u32, i: nat)
    requires Closed(g) && Progress(g, m0, t0, m1, t1, id, i) && Keeps(m1, t1, m2, t2)
    ensures Keeps(m0, t0[id := t2[id]], m2, t2) && m2[id] == IN_PROGRESS && t2[id] == t1[id]
    ensures Unprocessed(m2) <= Unprocessed(m1) <= Unprocessed(m0)
  {
  }

  lemma ProgressStep(g: seq<BtfType>, m0: seq<u32>, t0: seq<BtfType>, m1: seq<u32>, t1: seq<BtfType>,
                     m2: seq<u32>, t2: seq<BtfType>, id: u32, i: nat, r: u32)
    requires Closed(g) && Progress(g, m0, t0, m1, t1, id, i) && Keeps(m1, t1, m2, t2) && Unwound(m1, m2)
    requires i < |Refs(t1[id])| && Refs(g[id])[i] < |g| && Mapped(m2[Refs(g[id])[i]]) && |g| <= BTF_MAX_NR_TYPES + 1
    requires r < |g| && m2[r] == r
    ensures t2[id] == t1[id] && Progress(g, m0, t0, m2, t2[id := SetRef(t2[id], i, r)], id, i + 1)
  {
    ProgressKeeps(g, m0, t0, m1, t1, m2, t2, id, i);
    var t := SetRef(t2[id], i, r);
    SetRefRefs(t2[id], i, r);
    VisitNext(g, m1, m2, id, t2[id], i, r);
    SelfMappedKept(m1, t1, m2, t2, Refs(t1[id])[..i]);
    assert Refs(t)[..i + 1] == Refs(t2[id])[..i] + [r];
    assert t0[id := t2[id]][id := t] == t0[id := t];
  }

  lemma FirstRef(g: seq<BtfType>, m: seq<u32>, id: nat)
    requires Closed(g) && |m| == |g| && id < |g|
    ensures Visited(g, m, id, g[id], 0)
  {
    assert RefsBelow(g[id], |g|);
  }

  lemma ProgressDone(g: seq<BtfType>, m0: seq<u32>, t0: seq<BtfType>, m: seq<u32>, t: seq<BtfType>, id: u32)
    requires Closed(g) && id < |g| && Progress(g, m0, t0, m, t, id, |Refs(g[id])|)
    ensures AllSelfMapped(m, Refs(t[id])) && Visited(g, m, id, t[id], |Refs(g[id])|) && Unwound(m0, m)
    ensures t[id].info == t0[id].info
  {
    assert Refs(t[id])[..|Refs(t[id])|] == Refs(t[id]);
    assert Label(t[id]).info == Label(t0[id]).info;
  }
}
