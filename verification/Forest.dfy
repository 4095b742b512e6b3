/** The canonical map: every id points to itself, to another id, or to a marker. */
module Forest {
  import opened Ints
  import opened BtfTypes
  import opened Meaning

  const UNPROCESSED: u32 := 0xffff_ffff
  const IN_PROGRESS: u32 := 0xffff_fffe

  predicate Mapped(v: u32) { v <= BTF_MAX_NR_TYPES }

  /** The entries of a canonical map over |m| type ids are ids or one of the two markers. */
  predicate MapOk(m: seq<u32>) {
    |m| <= BTF_MAX_NR_TYPES + 1 &&
    forall x :: 0 <= x < |m| ==> m[x] < |m| || m[x] == UNPROCESSED || m[x] == IN_PROGRESS
  }

  predicate IsRoot(m: seq<u32>, x: nat)
    requires x < |m|
  {
    !Mapped(m[x]) || m[x] == x
  }

  ghost predicate Ranked(m: seq<u32>, rank: seq<nat>)
    requires MapOk(m)
  {
    |rank| == |m| && forall x {:trigger IsRoot(m, x)} :: 0 <= x < |m| && !IsRoot(m, x) ==> rank[m[x]] < rank[x]
  }

  /** Following the map from any id ends: there is no cycle other than a self-mapped id. */
  ghost predicate IsForest(m: seq<u32>) {
    MapOk(m) && exists rank :: Ranked(m, rank)
  }

  ghost function RootBy(m: seq<u32>, rank: seq<nat>, x: nat): (r: nat)
    requires MapOk(m) && Ranked(m, rank) && x < |m|
    ensures r < |m| && IsRoot(m, r)
    decreases rank[x]
  {
    if IsRoot(m, x) then x else RootBy(m, rank, m[x])
  }

  /** The id at which following the map from x ends. */
  ghost function Root(m: seq<u32>, x: nat): (r: nat)
    requires IsForest(m) && x < |m|
    ensures r < |m| && IsRoot(m, r)
  {
    var rank :| Ranked(m, rank);
    RootBy(m, rank, x)
  }

  lemma {:induction false} RootByAny(m: seq<u32>, rank: seq<nat>, other: seq<nat>, x: nat)
    requires MapOk(m) && Ranked(m, rank) && Ranked(m, other) && x < |m|
    ensures RootBy(m, rank, x) == RootBy(m, other, x)
    decreases rank[x]
  {
    if !IsRoot(m, x) { RootByAny(m, rank, other, m[x]); }
  }

  lemma RootStep(m: seq<u32>, x: nat)
    requires IsForest(m) && x < |m|
    ensures Root(m, x) == if IsRoot(m, x) then x else Root(m, m[x])
  {
    var rank: seq<nat> :| Ranked(m, rank);
    forall y | 0 <= y < |m| ensures Root(m, y) == RootBy(m, rank, y) {
      var other: seq<nat> :| Ranked(m, other) && Root(m, y) == RootBy(m, other, y);
      RootByAny(m, rank, other, y);
    }
  }

  /** Pointing any id at a root other than itself keeps the map a forest. */
  lemma LinkToRoot(m: seq<u32>, x: nat, root: nat)
    requires IsForest(m) && x < |m| && root < |m| && x != root && IsRoot(m, root)
    ensures IsForest(m[x := root])
  {
    var rank: seq<nat> :| Ranked(m, rank);
    var rank' := seq(|m|, i requires 0 <= i < |m| => if i == root then 0 else rank[i] + 1);
    var m' := m[x := root];
    forall y | 0 <= y < |m'| && !IsRoot(m', y) ensures rank'[m'[y]] < rank'[y] { assert y == x || !IsRoot(m, y); }
    assert Ranked(m', rank');
  }

  /** So does pointing an id that no other id points to at any other id. */
  lemma LinkLeaf(m: seq<u32>, x: nat, to: nat)
    requires IsForest(m) && x < |m| && to < |m| && x != to
    requires forall y :: 0 <= y < |m| && y != x ==> m[y] != x
    ensures IsForest(m[x := to])
  {
    var rank: seq<nat> :| Ranked(m, rank);
    var m', rank' := m[x := to], rank[x := rank[to] + 1];
    forall y | 0 <= y < |m'| && !IsRoot(m', y) ensures rank'[m'[y]] < rank'[y] { assert y == x || !IsRoot(m, y); }
    assert Ranked(m', rank');
  }

  /** So does making an id its own root, or marking it. */
  lemma MakeRoot(m: seq<u32>, x: nat, v: u32)
    requires IsForest(m) && x < |m| && (v == x || v == UNPROCESSED || v == IN_PROGRESS)
    ensures IsForest(m[x := v])
  {
    var rank: seq<nat> :| Ranked(m, rank);
    var m' := m[x := v];
    forall y | 0 <= y < |m'| && !IsRoot(m', y) ensures rank[m'[y]] < rank[y] { assert y == x || !IsRoot(m, y); }
    assert Ranked(m', rank);
  }

  // ----- soundness of the map

  /** Linking one root to another moves what ended there, and nothing else. */
  lemma LinkRoot(m: seq<u32>, x: nat, to: u32, y: nat)
    requires IsForest(m) && x < |m| && to < |m| && x != to && IsRoot(m, x) && IsRoot(m, to) && y < |m|
    ensures IsForest(m[x := to]) && Root(m[x := to], y) == if Root(m, y) == x then to else Root(m, y)
  {
    LinkToRoot(m, x, to);
    var m' := m[x := to];
    var rank: seq<nat> :| Ranked(m', rank);
    LinkRootBy(m, m', x, to, rank, y);
  }

  lemma {:induction false} LinkRootBy(m: seq<u32>, m': seq<u32>, x: nat, to: u32, rank: seq<nat>, y: nat)
    requires IsForest(m) && IsForest(m') && x < |m| && to < |m| && x != to && IsRoot(m, x) && IsRoot(m, to) && y < |m|
    requires m' == m[x := to] && Ranked(m', rank)
    ensures Root(m', y) == if Root(m, y) == x then to else Root(m, y)
    decreases rank[y]
  {
    RootStep(m, y);
    RootStep(m', y);
    if y == x {
      RootStep(m', to);
    } else if !IsRoot(m', y) {
      LinkRootBy(m, m', x, to, rank, m[y]);
    }
  }

  /** Every mapped id means what the id it is mapped to means. */
  ghost predicate MapSound(mode: Mode, g: seq<BtfType>, m: seq<u32>)
    requires Closed(g) && MapOk(m) && |m| == |g|
  {
    forall x {:trigger Same(mode, g, x, m[x])} :: 0 <= x < |m| && Mapped(m[x]) ==> Same(mode, g, x, m[x])
  }

  lemma {:induction false} RootBySame(mode: Mode, g: seq<BtfType>, m: seq<u32>, rank: seq<nat>, x: nat)
    requires Closed(g) && MapOk(m) && |m| == |g| && Ranked(m, rank) && x < |m|
    requires MapSound(mode, g, m)
    ensures Same(mode, g, x, RootBy(m, rank, x))
    decreases rank[x]
  {
    if !IsRoot(m, x) {
      RootBySame(mode, g, m, rank, m[x]);
      assert Same(mode, g, x, m[x]);
    }
  }

  /** In a sound map resolving an id does not change its meaning. */
  lemma RootSame(mode: Mode, g: seq<BtfType>, m: seq<u32>, x: nat)
    requires Closed(g) && IsForest(m) && |m| == |g| && x < |m|
    requires MapSound(mode, g, m)
    ensures Same(mode, g, x, Root(m, x))
  {
    var rank: seq<nat> :| Ranked(m, rank) && Root(m, x) == RootBy(m, rank, x);
    RootBySame(mode, g, m, rank, x);
  }
}
