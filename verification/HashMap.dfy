/** The chained hash map: bucket heads, singly linked entries, growth by relinking in place. */
module HashMaps {
  import opened Errno
  import opened Options
  import opened PowersOfTwo

  datatype Strategy = Add | Set | Update | Append

  // ----- choosing a bucket

  const MIN_CAP_BITS: nat := 2

  const WORD: nat := 0x1_0000_0000_0000_0000

  /** The upper `bits` bits of the hash, shuffled by multiplication in 64-bit arithmetic. */
  function HashBits(h: nat, bits: nat): (b: nat)
    ensures b < Pow2(bits)
  {
    var x := (h * 11400714819323198485) % WORD;
    UpperBits(x, Pow2(bits));
    x * Pow2(bits) / WORD
  }

  lemma UpperBits(x: nat, p: nat)
    requires x < WORD && p > 0
    ensures x * p / WORD < p
  {
    assert x * p < WORD * p;
  }

  // ----- contents as values

  /** All key-value pairs of a list of chains, in any order. */
  ghost function Bag<K, V>(chains: seq<seq<(K, V)>>): multiset<(K, V)> {
    if chains == [] then multiset{} else multiset(chains[0]) + Bag(chains[1..])
  }

  lemma {:induction false} BagUpdate<K, V>(chains: seq<seq<(K, V)>>, b: nat, c: seq<(K, V)>)
    requires b < |chains|
    ensures Bag(chains[b := c]) + multiset(chains[b]) == Bag(chains) + multiset(c)
    ensures multiset(chains[b]) <= Bag(chains)
  {
    if b == 0 {
      assert chains[b := c][1..] == chains[1..];
    } else {
      BagUpdate(chains[1..], b - 1, c);
      assert chains[b := c][1..] == chains[1..][b - 1 := c];
      assert chains[b := c][0] == chains[0] && chains[1..][b - 1] == chains[b];
      var a, x, x' := multiset(chains[0]), Bag(chains[1..]), Bag(chains[1..][b - 1 := c]);
      calc {
        Bag(chains[b := c]) + multiset(chains[b]);
        (a + x') + multiset(chains[b]);
        a + (x' + multiset(chains[b]));
        a + (x + multiset(c));
        (a + x) + multiset(c);
        Bag(chains) + multiset(c);
      }
    }
  }

  lemma Assoc<T>(x: multiset<T>, y: multiset<T>, z: multiset<T>)
    ensures x + (y + z) == (x + y) + z
  {
  }

  lemma {:induction false} BagConcat<K, V>(a: seq<seq<(K, V)>>, b: seq<seq<(K, V)>>)
    ensures Bag(a + b) == Bag(a) + Bag(b)
  {
    if a == [] {
      assert a + b == b;
    } else {
      var x, y, z := multiset(a[0]), Bag(a[1..]), Bag(b);
      calc {
        Bag(a + b);
        { assert (a + b)[1..] == a[1..] + b && (a + b)[0] == a[0]; }
        x + Bag(a[1..] + b);
        { BagConcat(a[1..], b); }
        x + (y + z);
        { Assoc(x, y, z); }
        (x + y) + z;
      }
    }
  }

  lemma {:induction false} BagEmpty<K, V>(chains: seq<seq<(K, V)>>)
    requires forall b :: 0 <= b < |chains| ==> chains[b] == []
    ensures Bag(chains) == multiset{}
  {
    if chains != [] { BagEmpty(chains[1..]); }
  }

  lemma {:induction false} InBag<K, V>(chains: seq<seq<(K, V)>>, p: (K, V)) returns (b: nat, i: nat)
    requires p in Bag(chains)
    ensures b < |chains| && i < |chains[b]| && chains[b][i] == p
  {
    if p in multiset(chains[0]) {
      b := 0;
      i :| 0 <= i < |chains[0]| && chains[0][i] == p;
    } else {
      b, i := InBag(chains[1..], p);
      b := b + 1;
    }
  }

  /** The pairs of a chain whose key equals the given one, in chain order. */
  ghost function Matching<K, V>(c: seq<(K, V)>, eq: (K, K) -> bool, key: K): seq<(K, V)> {
    if c == [] then [] else (if eq(c[0].0, key) then [c[0]] else []) + Matching(c[1..], eq, key)
  }

  lemma {:induction false} MatchingConcat<K, V>(a: seq<(K, V)>, b: seq<(K, V)>, eq: (K, K) -> bool, key: K)
    ensures Matching(a + b, eq, key) == Matching(a, eq, key) + Matching(b, eq, key)
  {
    if a == [] {
      assert a + b == b;
    } else {
      var x, m, n := if eq(a[0].0, key) then [a[0]] else [], Matching(a[1..], eq, key), Matching(b, eq, key);
      assert Matching(a + b, eq, key) == x + (m + n) by {
        MatchingConcat(a[1..], b, eq, key);
        assert (a + b)[1..] == a[1..] + b && (a + b)[0] == a[0];
      }
      assert x + (m + n) == (x + m) + n;
    }
  }

  lemma {:induction false} MatchingNone<K, V>(c: seq<(K, V)>, eq: (K, K) -> bool, key: K)
    requires forall j {:trigger c[j]} :: 0 <= j < |c| ==> !eq(c[j].0, key)
    ensures Matching(c, eq, key) == []
  {
    if c != [] { MatchingNone(c[1..], eq, key); }
  }

  lemma MatchingStep<K, V>(c: seq<(K, V)>, i: nat, eq: (K, K) -> bool, key: K, seen: seq<(K, V)>)
    requires i < |c|
    ensures Matching(c[i..], eq, key) == (if eq(c[i].0, key) then [c[i]] else []) + Matching(c[i + 1..], eq, key)
    ensures seen + Matching(c[i..], eq, key) == (if eq(c[i].0, key) then seen + [c[i]] else seen) + Matching(c[i + 1..], eq, key)
  {
    assert c[i..][1..] == c[i + 1..] && c[i..][0] == c[i];
  }

  /** The pairs of a chain around position i. */
  lemma MatchingSplit<K, V>(c: seq<(K, V)>, i: nat, mid: seq<(K, V)>, eq: (K, K) -> bool, key: K)
    requires i < |c|
    ensures Matching(c[..i] + mid + c[i + 1..], eq, key) == Matching(c[..i], eq, key) + Matching(mid, eq, key) + Matching(c[i + 1..], eq, key)
  {
    MatchingConcat(c[..i] + mid, c[i + 1..], eq, key);
    MatchingConcat(c[..i], mid, eq, key);
  }

  ghost function Reverse<T>(s: seq<T>): (r: seq<T>)
    ensures |r| == |s|
    ensures forall i :: 0 <= i < |s| ==> r[i] == s[|s| - 1 - i]
  {
    if s == [] then [] else Reverse(s[1..]) + [s[0]]
  }

  // ----- the linked structure

  class Entry<K, V> {
    var key: K
    var value: V
    var next: Entry?<K, V>

    constructor (key: K, value: V)
      ensures this.key == key && this.value == value && next == null
    {
      this.key, this.value, this.next := key, value, null;
    }
  }

  ghost predicate Inside<K, V>(chains: seq<seq<Entry<K, V>>>, entries: set<Entry<K, V>>) {
    forall s, i {:trigger chains[s][i]} :: 0 <= s < |chains| && 0 <= i < |chains[s]| ==> chains[s][i] in entries
  }

  /** The buckets of arr hold exactly these chains of entries from entries, with these contents. */
  ghost predicate Chained<K, V>(arr: array<Entry?<K, V>>, chains: seq<seq<Entry<K, V>>>, kv: seq<seq<(K, V)>>, entries: set<Entry<K, V>>)
    reads arr, entries
  {
    arr.Length == |chains| == |kv| && Inside(chains, entries) &&
    forall s {:trigger chains[s]} :: 0 <= s < |chains| ==> Linked(arr[s], chains[s]) && Holds(chains[s], kv[s])
  }

  /** hashmap_add_entry: put an entry that is in no chain at the front of bucket h. */
  method AddEntry<K, V>(arr: array<Entry?<K, V>>, h: nat, e: Entry<K, V>,
                        ghost chains: seq<seq<Entry<K, V>>>, ghost kv: seq<seq<(K, V)>>, ghost entries: set<Entry<K, V>>)
    requires Chained(arr, chains, kv, entries) && h < arr.Length && e in entries
    requires forall s {:trigger chains[s]} :: 0 <= s < |chains| ==> e !in chains[s]
    modifies e`next, arr
    ensures Chained(arr, chains[h := [e] + chains[h]], kv[h := [(e.key, e.value)] + kv[h]], entries)
  {
    ghost var chains', kv' := chains[h := [e] + chains[h]], kv[h := [(e.key, e.value)] + kv[h]];
    e.next := arr[h];
    arr[h] := e;
    forall s | 0 <= s < |chains| ensures Linked(arr[s], chains'[s]) && Holds(chains'[s], kv'[s]) {
      if s != h { assert chains'[s] == chains[s] && kv'[s] == kv[s]; }
    }
  }

  /** c are the entries reached from head, in order. */
  ghost predicate Linked<K, V>(head: Entry?<K, V>, c: seq<Entry<K, V>>)
    reads c
  {
    (head == if c == [] then null else c[0]) &&
    forall i {:trigger c[i].next} :: 0 <= i < |c| ==> c[i].next == if i + 1 < |c| then c[i + 1] else null
  }

  ghost predicate Holds<K, V>(c: seq<Entry<K, V>>, kv: seq<(K, V)>)
    reads c
  {
    |c| == |kv| && forall i {:trigger c[i]} {:trigger kv[i]} :: 0 <= i < |c| ==> c[i].key == kv[i].0 && c[i].value == kv[i].1
  }

  function At<T>(chains: seq<seq<T>>, b: nat, i: nat): T
    requires b < |chains| && i < |chains[b]|
  {
    chains[b][i]
  }

  /** No entry occurs twice, within a chain or in two chains. */
  ghost predicate Disjoint<T>(chains: seq<seq<T>>) {
    forall b, i, d, j {:trigger At(chains, b, i), At(chains, d, j)} ::
      0 <= b < |chains| && 0 <= i < |chains[b]| && 0 <= d < |chains| && 0 <= j < |chains[d]| && (b != d || i != j) ==>
      At(chains, b, i) != At(chains, d, j)
  }

  // ----- moving an entry from one chain to another

  /** The chains after the head of chain b moved to the front of chain d. */
  ghost function MoveHead<T>(chains: seq<seq<T>>, b: nat, d: nat): seq<seq<T>>
    requires b < |chains| && d < |chains| && b != d && chains[b] != []
  {
    chains[b := chains[b][1..]][d := [chains[b][0]] + chains[d]]
  }

  lemma MoveHeadDisjoint<T>(chains: seq<seq<T>>, b: nat, d: nat)
    requires b < |chains| && d < |chains| && b != d && chains[b] != [] && Disjoint(chains)
    ensures Disjoint(MoveHead(chains, b, d))
    ensures chains[b][0] !in chains[b][1..]
    ensures forall s {:trigger chains[s]} :: 0 <= s < |chains| && s != b ==> chains[b][0] !in chains[s]
  {
    forall s, i | 0 <= s < |chains| && 0 <= i < |chains[s]| && (s != b || i != 0) ensures chains[s][i] != chains[b][0] {
      assert At(chains, s, i) != At(chains, b, 0);
    }
    var moved := MoveHead(chains, b, d);
    forall s, i, t, j | 0 <= s < |moved| && 0 <= i < |moved[s]| && 0 <= t < |moved| && 0 <= j < |moved[t]| && (s != t || i != j)
      ensures At(moved, s, i) != At(moved, t, j)
    {
      var (s', i') := if s == b then (b, i + 1) else if s == d && i == 0 then (b, 0) else if s == d then (d, i - 1) else (s, i);
      var (t', j') := if t == b then (b, j + 1) else if t == d && j == 0 then (b, 0) else if t == d then (d, j - 1) else (t, j);
      assert moved[s][i] == chains[s'][i'] && moved[t][j] == chains[t'][j'];
      assert At(chains, s', i') != At(chains, t', j');
    }
  }

  lemma TakeHead<K, V>(chains: seq<seq<(K, V)>>, b: nat)
    requires b < |chains| && chains[b] != []
    ensures Bag(chains[b := chains[b][1..]]) + (multiset(chains[b][1..]) + multiset{chains[b][0]}) == Bag(chains) + multiset(chains[b][1..])
  {
    BagUpdate(chains, b, chains[b][1..]);
    HeadAdded(chains[b][0], chains[b][1..]);
    assert chains[b] == [chains[b][0]] + chains[b][1..];
  }

  lemma GiveHead<K, V>(chains: seq<seq<(K, V)>>, d: nat, x: (K, V))
    requires d < |chains|
    ensures Bag(chains[d := [x] + chains[d]]) + multiset(chains[d]) == Bag(chains) + (multiset(chains[d]) + multiset{x})
  {
    BagUpdate(chains, d, [x] + chains[d]);
    HeadAdded(x, chains[d]);
  }

  lemma HeadAdded<T>(x: T, c: seq<T>)
    ensures multiset([x] + c) == multiset(c) + multiset{x}
  {
  }

  lemma MoveHeadBag<K, V>(chains: seq<seq<(K, V)>>, b: nat, d: nat)
    requires b < |chains| && d < |chains| && b != d && chains[b] != []
    ensures Bag(MoveHead(chains, b, d)) == Bag(chains)
  {
    var head, mid := chains[b][0], chains[b := chains[b][1..]];
    TakeHead(chains, b);
    GiveHead(mid, d, head);
    assert mid[d] == chains[d];
    HandOver(Bag(chains), Bag(mid), Bag(MoveHead(chains, b, d)), multiset(chains[b][1..]), multiset(chains[d]), head);
  }

  lemma HandOver<T>(start: multiset<T>, mid: multiset<T>, end: multiset<T>, tail: multiset<T>, there: multiset<T>, head: T)
    requires mid + (tail + multiset{head}) == start + tail
    requires end + there == mid + (there + multiset{head})
    ensures end == start
  {
    forall p ensures end[p] == start[p] {
      assert (mid + (tail + multiset{head}))[p] == (start + tail)[p];
      assert (end + there)[p] == (mid + (there + multiset{head}))[p];
    }
  }

  lemma MoveHeadConcat<T>(rest: seq<seq<T>>, done: seq<seq<T>>, b: nat, h: nat)
    requires b < |rest| && h < |done| && rest[b] != []
    ensures rest[b := rest[b][1..]] + done[h := [rest[b][0]] + done[h]] == MoveHead(rest + done, b, |rest| + h)
  {
  }

  lemma DisjointSuffix<T>(a: seq<seq<T>>, b: seq<seq<T>>)
    requires Disjoint(a + b)
    ensures Disjoint(b)
  {
    forall s, i, t, j | 0 <= s < |b| && 0 <= i < |b[s]| && 0 <= t < |b| && 0 <= j < |b[t]| && (s != t || i != j)
      ensures At(b, s, i) != At(b, t, j)
    {
      assert (a + b)[|a| + s] == b[s] && (a + b)[|a| + t] == b[t];
      assert At(a + b, |a| + s, i) != At(a + b, |a| + t, j);
    }
  }

  lemma DisjointPush<T>(chains: seq<seq<T>>, h: nat, e: T, all: set<T>)
    requires Disjoint(chains) && h < |chains| && e !in all
    requires forall s, i {:trigger chains[s][i]} :: 0 <= s < |chains| && 0 <= i < |chains[s]| ==> chains[s][i] in all
    ensures Disjoint(chains[h := [e] + chains[h]])
  {
    var c := chains[h := [e] + chains[h]];
    forall s: nat, i: nat, t: nat, j: nat | s < |c| && i < |c[s]| && t < |c| && j < |c[t]| && (s != t || i != j)
      ensures At(c, s, i) != At(c, t, j)
    {
      var i', j' := if s == h then i - 1 else i, if t == h then j - 1 else j;
      assert i' >= 0 ==> c[s][i] == chains[s][i'];
      assert j' >= 0 ==> c[t][j] == chains[t][j'];
      if i' >= 0 && j' >= 0 { assert At(chains, s, i') != At(chains, t, j'); }
    }
  }

  lemma DisjointPad<T>(a: seq<seq<T>>, b: seq<seq<T>>)
    requires Disjoint(a) && forall s {:trigger b[s]} :: 0 <= s < |b| ==> b[s] == []
    ensures Disjoint(a + b)
  {
    var c := a + b;
    forall s, i, t, j | 0 <= s < |c| && 0 <= i < |c[s]| && 0 <= t < |c| && 0 <= j < |c[t]| && (s != t || i != j)
      ensures At(c, s, i) != At(c, t, j)
    {
      assert s < |a| && t < |a|;
      assert At(a, s, i) != At(a, t, j);
    }
  }

  lemma DisjointRemove<T>(chains: seq<seq<T>>, h: nat, i: nat)
    requires Disjoint(chains) && h < |chains| && i < |chains[h]|
    ensures Disjoint(Spliced(chains, h, i, []))
  {
    var c := Spliced(chains, h, i, []);
    forall s: nat, j: nat, t: nat, k: nat | s < |c| && j < |c[s]| && t < |c| && k < |c[t]| && (s != t || j != k)
      ensures At(c, s, j) != At(c, t, k)
    {
      var j', k' := if s == h && j >= i then j + 1 else j, if t == h && k >= i then k + 1 else k;
      assert At(c, s, j) == At(chains, s, j') && At(c, t, k) == At(chains, t, k');
    }
  }

  /** Moving the head of one of the first chains to one of the second chains. */
  lemma Across<T>(rest: seq<seq<T>>, done: seq<seq<T>>, b: nat, h: nat)
    requires b < |rest| && h < |done| && rest[b] != [] && Disjoint(rest + done)
    ensures Disjoint(rest[b := rest[b][1..]] + done[h := [rest[b][0]] + done[h]])
    ensures rest[b][0] !in rest[b][1..]
    ensures forall s {:trigger rest[s]} :: 0 <= s < |rest| && s != b ==> rest[b][0] !in rest[s]
    ensures forall s {:trigger done[s]} :: 0 <= s < |done| ==> rest[b][0] !in done[s]
  {
    MoveHeadDisjoint(rest + done, b, |rest| + h);
    MoveHeadConcat(rest, done, b, h);
    forall s | 0 <= s < |rest| && s != b ensures rest[b][0] !in rest[s] { assert (rest + done)[s] == rest[s]; }
    forall s | 0 <= s < |done| ensures rest[b][0] !in done[s] { assert (rest + done)[|rest| + s] == done[s]; }
  }

  lemma AcrossBag<K, V>(rest: seq<seq<(K, V)>>, done: seq<seq<(K, V)>>, b: nat, h: nat)
    requires b < |rest| && h < |done| && rest[b] != []
    ensures Bag(rest[b := rest[b][1..]] + done[h := [rest[b][0]] + done[h]]) == Bag(rest + done)
  {
    calc {
      Bag(rest[b := rest[b][1..]] + done[h := [rest[b][0]] + done[h]]);
      { MoveHeadConcat(rest, done, b, h); }
      Bag(MoveHead(rest + done, b, |rest| + h));
      { MoveHeadBag(rest + done, b, |rest| + h); }
      Bag(rest + done);
    }
  }

  lemma Cancel<T>(a: multiset<T>, b: multiset<T>, c: multiset<T>)
    requires a + c == b + c
    ensures a == b
  {
    forall x ensures a[x] == b[x] { assert (a + c)[x] == (b + c)[x]; }
  }

  // ----- keys and buckets

  /** Equality is an equivalence that the hash respects. */
  ghost predicate GoodFns<K(!new)>(hash: K -> nat, eq: (K, K) -> bool) {
    (forall a :: eq(a, a)) &&
    (forall a, b {:trigger eq(a, b)} :: eq(a, b) ==> eq(b, a) && hash(a) == hash(b)) &&
    (forall a, b, c {:trigger eq(a, b), eq(b, c)} :: eq(a, b) && eq(b, c) ==> eq(a, c))
  }

  /** Every pair lies in the bucket its key hashes to. */
  ghost predicate Placed<K, V>(kv: seq<seq<(K, V)>>, hash: K -> nat, bits: nat) {
    forall b, i {:trigger kv[b][i]} :: 0 <= b < |kv| && 0 <= i < |kv[b]| ==> HashBits(hash(kv[b][i].0), bits) == b
  }

  /** At most three quarters full. */
  predicate LoadOk(size: nat, cap: nat) {
    size * 4 / 3 <= cap
  }

  /** What the structure stands for: the pairs of each bucket in order. */
  datatype Multimap<!K, V> = Multimap(contents: seq<seq<(K, V)>>, bits: nat, hash: K -> nat, eq: (K, K) -> bool)

  /** A bucket array in use: its chains share no entry, and every pair lies where its key hashes to. */
  ghost predicate Table<K(!new), V>(arr: array<Entry?<K, V>>, chains: seq<seq<Entry<K, V>>>, entries: set<Entry<K, V>>, m: Multimap<K, V>)
    reads arr, entries
  {
    match m
    case Multimap(kv, bits, hash, eq) =>
      GoodFns(hash, eq) && bits >= MIN_CAP_BITS && arr.Length == Pow2(bits) && LoadOk(|Bag(kv)|, arr.Length) &&
      Chained(arr, chains, kv, entries) && Disjoint(chains) && Placed(kv, hash, bits)
  }

  /** The pairs stored under a key, in the order in which a search meets them. */
  ghost function Stored<K, V>(kv: seq<seq<(K, V)>>, hash: K -> nat, eq: (K, K) -> bool, bits: nat, key: K): seq<(K, V)>
    requires |kv| == Pow2(bits)
  {
    Matching(kv[HashBits(hash(key), bits)], eq, key)
  }

  /**
   * One pair moved from the front of an old bucket to the front of its new one: for each key, the pairs
   * moved so far stand in the new bucket in reverse order.
   */
  lemma MoveStored<K(!new), V>(rest: seq<seq<(K, V)>>, done: seq<seq<(K, V)>>, b: nat, h: nat,
                        hash: K -> nat, eq: (K, K) -> bool, bits: nat, newBits: nat, key: K)
    requires |rest| == Pow2(bits) && |done| == Pow2(newBits) && b < |rest| && rest[b] != [] && GoodFns(hash, eq)
    requires Placed(rest, hash, bits) && h == HashBits(hash(rest[b][0].0), newBits)
    ensures var rest', done' := rest[b := rest[b][1..]], done[h := [rest[b][0]] + done[h]];
            Reverse(Stored(rest', hash, eq, bits, key)) + Stored(done', hash, eq, newBits, key)
            == Reverse(Stored(rest, hash, eq, bits, key)) + Stored(done, hash, eq, newBits, key)
  {
    var rest', done' := rest[b := rest[b][1..]], done[h := [rest[b][0]] + done[h]];
    var x, f, d := rest[b][0], Stored(rest', hash, eq, bits, key), Stored(done, hash, eq, newBits, key);
    assert done'[h] == [x] + done[h] && done'[h][1..] == done[h];
    if eq(x.0, key) {
      assert HashBits(hash(key), bits) == b && HashBits(hash(key), newBits) == h;
      assert Stored(rest, hash, eq, bits, key) == [x] + f;
      assert Stored(done', hash, eq, newBits, key) == [x] + d;
      assert ([x] + f)[1..] == f;
      assert Reverse([x] + f) == Reverse(f) + [x];
      assert Reverse(f) + ([x] + d) == (Reverse(f) + [x]) + d;
    } else {
      assert Stored(rest, hash, eq, bits, key) == f;
      assert Stored(done', hash, eq, newBits, key) == d;
    }
  }

  /** The entries left to move: those of old buckets before bkt are used up, cur leads those of bkt. */
  ghost predicate Left<K, V>(cur: Entry?<K, V>, bkt: nat, arr: array<Entry?<K, V>>,
                             rest: seq<seq<Entry<K, V>>>, restKv: seq<seq<(K, V)>>, entries: set<Entry<K, V>>)
    reads arr, entries
  {
    bkt < arr.Length == |rest| == |restKv| && Inside(rest, entries) &&
    (forall s {:trigger rest[s]} :: 0 <= s < bkt ==> rest[s] == []) &&
    (forall s {:trigger restKv[s]} :: 0 <= s < bkt ==> restKv[s] == []) &&
    Linked(cur, rest[bkt]) && Holds(rest[bkt], restKv[bkt]) &&
    (forall s {:trigger rest[s]} :: bkt < s < |rest| ==> Linked(arr[s], rest[s]) && Holds(rest[s], restKv[s]))
  }

  lemma NextBucket<K, V>(bkt: nat, arr: array<Entry?<K, V>>, rest: seq<seq<Entry<K, V>>>, restKv: seq<seq<(K, V)>>, entries: set<Entry<K, V>>)
    requires Left(null, bkt, arr, rest, restKv, entries) && bkt + 1 < arr.Length
    ensures Left(arr[bkt + 1], bkt + 1, arr, rest, restKv, entries)
  {
    assert Linked(null, rest[bkt]) && Holds(rest[bkt], restKv[bkt]);
  }

  lemma AllMoved<K, V>(arr: array<Entry?<K, V>>, rest: seq<seq<Entry<K, V>>>, restKv: seq<seq<(K, V)>>, entries: set<Entry<K, V>>)
    requires arr.Length > 0 && Left(null, arr.Length - 1, arr, rest, restKv, entries)
    ensures forall s {:trigger restKv[s]} :: 0 <= s < |restKv| ==> restKv[s] == []
  {
    var bkt := arr.Length - 1;
    assert Linked(null, rest[bkt]) && Holds(rest[bkt], restKv[bkt]);
  }

  /** Position i is the first of the chain whose key equals the given one. */
  ghost predicate FirstMatch<K, V>(c: seq<(K, V)>, i: nat, eq: (K, K) -> bool, key: K) {
    i < |c| && eq(c[i].0, key) && forall j {:trigger c[j]} :: 0 <= j < i ==> !eq(c[j].0, key)
  }

  function Tail<T>(s: seq<T>): seq<T> {
    if s == [] then [] else s[1..]
  }

  /** Put other pairs of the key, or none, in place of the first match. */
  lemma SpliceSame<K, V>(c: seq<(K, V)>, i: nat, mid: seq<(K, V)>, eq: (K, K) -> bool, k: K)
    requires FirstMatch(c, i, eq, k) && forall p :: p in mid ==> eq(p.0, k)
    ensures Matching(c, eq, k) != [] && Matching(c, eq, k)[0] == c[i]
    ensures Matching(c[..i] + mid + c[i + 1..], eq, k) == mid + Tail(Matching(c, eq, k))
  {
    var r := Matching(c[i + 1..], eq, k);
    assert Matching(c[..i], eq, k) == [] by { MatchingNone(c[..i], eq, k); }
    assert Matching(c, eq, k) == [c[i]] + r by {
      MatchingSplit(c, i, [c[i]], eq, k);
      assert c == c[..i] + [c[i]] + c[i + 1..];
      assert Matching([c[i]], eq, k) == [c[i]];
      assert [] + [c[i]] + r == [c[i]] + r;
    }
    assert Matching(c[..i] + mid + c[i + 1..], eq, k) == mid + r by {
      MatchingSplit(c, i, mid, eq, k);
      MatchingAll(mid, eq, k);
      assert [] + mid + r == mid + r;
    }
    assert Tail([c[i]] + r) == r;
  }

  lemma SpliceOther<K, V>(c: seq<(K, V)>, i: nat, mid: seq<(K, V)>, eq: (K, K) -> bool, k: K)
    requires i < |c| && !eq(c[i].0, k) && forall p :: p in mid ==> !eq(p.0, k)
    ensures Matching(c[..i] + mid + c[i + 1..], eq, k) == Matching(c, eq, k)
  {
    MatchingSplit(c, i, [c[i]], eq, k);
    assert c == c[..i] + [c[i]] + c[i + 1..];
    MatchingSplit(c, i, mid, eq, k);
    MatchingNone([c[i]], eq, k);
    MatchingNone(mid, eq, k);
  }

  lemma {:induction false} MatchingAll<K, V>(c: seq<(K, V)>, eq: (K, K) -> bool, key: K)
    requires forall p :: p in c ==> eq(p.0, key)
    ensures Matching(c, eq, key) == c
  {
    if c != [] {
      assert c[0] in c;
      MatchingAll(c[1..], eq, key);
    }
  }

  /** The buckets with the first match for key in bucket h replaced by mid. */
  ghost function Spliced<T>(kv: seq<seq<T>>, h: nat, i: nat, mid: seq<T>): seq<seq<T>>
    requires h < |kv| && i < |kv[h]|
  {
    kv[h := kv[h][..i] + mid + kv[h][i + 1..]]
  }

  lemma SplicePlaced<K(!new), V>(kv: seq<seq<(K, V)>>, h: nat, i: nat, mid: seq<(K, V)>, hash: K -> nat, eq: (K, K) -> bool, bits: nat, key: K)
    requires |kv| == Pow2(bits) && h == HashBits(hash(key), bits) && Placed(kv, hash, bits)
    requires GoodFns(hash, eq) && FirstMatch(kv[h], i, eq, key) && forall p :: p in mid ==> eq(p.0, key)
    ensures Placed(Spliced(kv, h, i, mid), hash, bits)
  {
    var kv': seq<seq<(K, V)>> := Spliced(kv, h, i, mid);
    forall s: nat, j: nat | s < |kv'| && j < |kv'[s]| ensures HashBits(hash(kv'[s][j].0), bits) == s {
      if s == h && i <= j < i + |mid| {
        assert kv'[s][j] == mid[j - i] && mid[j - i] in mid;
      } else if s == h && j >= i + |mid| {
        assert kv'[s][j] == kv[s][j - |mid| + 1];
      }
    }
  }

  lemma SpliceStored<K(!new), V>(kv: seq<seq<(K, V)>>, h: nat, i: nat, mid: seq<(K, V)>, hash: K -> nat, eq: (K, K) -> bool, bits: nat, key: K, k: K)
    requires |kv| == Pow2(bits) && h == HashBits(hash(key), bits) && GoodFns(hash, eq)
    requires FirstMatch(kv[h], i, eq, key) && forall p :: p in mid ==> eq(p.0, key)
    ensures Stored(Spliced(kv, h, i, mid), hash, eq, bits, k)
            == if eq(key, k) then mid + Tail(Stored(kv, hash, eq, bits, k)) else Stored(kv, hash, eq, bits, k)
  {
    var c := kv[h];
    if eq(key, k) {
      assert eq(k, key);
      assert forall j {:trigger c[j]} :: 0 <= j < i ==> !eq(c[j].0, k);
      SpliceSame(c, i, mid, eq, k);
    } else {
      assert eq(key, c[i].0);
      assert forall p :: p in mid && eq(p.0, k) ==> eq(key, p.0);
      SpliceOther(c, i, mid, eq, k);
    }
  }

  lemma SpliceBag<K, V>(kv: seq<seq<(K, V)>>, h: nat, i: nat, mid: seq<(K, V)>)
    requires h < |kv| && i < |kv[h]|
    ensures kv[h][i] in Bag(kv)
    ensures Bag(Spliced(kv, h, i, mid)) == Bag(kv) - multiset{kv[h][i]} + multiset(mid)
  {
    var c, c' := kv[h], Spliced(kv, h, i, mid)[h];
    var around := multiset(c[..i]) + multiset(c[i + 1..]);
    assert multiset(c) == around + multiset{c[i]} by { assert c == c[..i] + [c[i]] + c[i + 1..]; }
    assert multiset(c') == around + multiset(mid);
    assert c[i] in multiset(c);
    BagUpdate(kv, h, c');
    Exchange(Bag(Spliced(kv, h, i, mid)), Bag(kv), c[i], multiset(mid), around);
  }

  lemma Exchange<T>(a: multiset<T>, b: multiset<T>, x: T, m: multiset<T>, around: multiset<T>)
    requires a + (around + multiset{x}) == b + (around + m) && x in b
    ensures a == b - multiset{x} + m
  {
    forall p ensures a[p] == (b - multiset{x} + m)[p] {
      assert (a + (around + multiset{x}))[p] == (b + (around + m))[p];
    }
  }

  /** What moving entries keeps: the pairs, and for each key the order reversed. */
  ghost predicate Moved<K(!new), V(!new)>(rest: seq<seq<(K, V)>>, done: seq<seq<(K, V)>>, was: seq<seq<(K, V)>>,
                                          hash: K -> nat, eq: (K, K) -> bool, bits: nat, newBits: nat)
  {
    |rest| == |was| == Pow2(bits) && |done| == Pow2(newBits) &&
    Placed(rest, hash, bits) && Placed(done, hash, newBits) && Bag(rest + done) == Bag(was) &&
    forall key :: Reverse(Stored(rest, hash, eq, bits, key)) + Stored(done, hash, eq, newBits, key)
                  == Reverse(Stored(was, hash, eq, bits, key))
  }

  lemma MoveStep<K(!new), V(!new)>(rest: seq<seq<(K, V)>>, done: seq<seq<(K, V)>>, was: seq<seq<(K, V)>>, b: nat,
                                   hash: K -> nat, eq: (K, K) -> bool, bits: nat, newBits: nat)
    requires Moved(rest, done, was, hash, eq, bits, newBits) && b < |rest| && rest[b] != [] && GoodFns(hash, eq)
    ensures var h := HashBits(hash(rest[b][0].0), newBits);
            Moved(rest[b := rest[b][1..]], done[h := [rest[b][0]] + done[h]], was, hash, eq, bits, newBits)
  {
    var h := HashBits(hash(rest[b][0].0), newBits);
    var rest': seq<seq<(K, V)>>, done': seq<seq<(K, V)>> := rest[b := rest[b][1..]], done[h := [rest[b][0]] + done[h]];
    AcrossBag(rest, done, b, h);
    forall key ensures Reverse(Stored(rest', hash, eq, bits, key)) + Stored(done', hash, eq, newBits, key)
                       == Reverse(Stored(was, hash, eq, bits, key)) {
      MoveStored(rest, done, b, h, hash, eq, bits, newBits, key);
    }
    forall s: nat, i: nat | s < |rest'| && i < |rest'[s]| ensures HashBits(hash(rest'[s][i].0), bits) == s {
      if s == b { assert rest'[s][i] == rest[b][i + 1]; }
    }
    forall s: nat, i: nat | s < |done'| && i < |done'[s]| ensures HashBits(hash(done'[s][i].0), newBits) == s {
      if s == h && i > 0 { assert done'[s][i] == done[h][i - 1]; }
    }
  }

  lemma MoveDone<K(!new), V(!new)>(rest: seq<seq<(K, V)>>, done: seq<seq<(K, V)>>, was: seq<seq<(K, V)>>,
                                   hash: K -> nat, eq: (K, K) -> bool, bits: nat, newBits: nat)
    requires Moved(rest, done, was, hash, eq, bits, newBits)
    requires forall s {:trigger rest[s]} :: 0 <= s < |rest| ==> rest[s] == []
    ensures Bag(done) == Bag(was)
    ensures forall key :: Stored(done, hash, eq, newBits, key) == Reverse(Stored(was, hash, eq, bits, key))
  {
    BagConcat(rest, done);
    BagEmpty(rest);
    forall key ensures Stored(done, hash, eq, newBits, key) == Reverse(Stored(was, hash, eq, bits, key)) {
      assert rest[HashBits(hash(key), bits)] == [];
    }
  }

  lemma OnlyOnce<T>(chains: seq<seq<T>>, h: nat, i: nat, s: nat, j: nat)
    requires Disjoint(chains) && h < |chains| && i < |chains[h]| && s < |chains| && j < |chains[s]| && (s != h || j != i)
    ensures chains[s][j] != chains[h][i]
  {
    assert At(chains, s, j) != At(chains, h, i);
  }

  /** Overwrite the key and value of one entry. */
  method SetEntry<K, V>(entry: Entry<K, V>, key: K, value: V, ghost arr: array<Entry?<K, V>>, ghost chains: seq<seq<Entry<K, V>>>,
                        ghost kv: seq<seq<(K, V)>>, ghost entries: set<Entry<K, V>>, ghost h: nat, ghost i: nat)
    requires Chained(arr, chains, kv, entries) && Disjoint(chains) && h < |chains| && i < |chains[h]| && entry == chains[h][i]
    modifies entry`key, entry`value
    ensures Chained(arr, chains, Spliced(kv, h, i, [(key, value)]), entries)
  {
    ghost var kv' := Spliced(kv, h, i, [(key, value)]);
    entry.key, entry.value := key, value;
    forall s | 0 <= s < |chains| ensures Holds(chains[s], kv'[s]) {
      assert old(Holds(chains[s], kv[s]));
      forall j | 0 <= j < |chains[s]| ensures chains[s][j].key == kv'[s][j].0 && chains[s][j].value == kv'[s][j].1 {
        if s != h || j != i { OnlyOnce(chains, h, i, s, j); }
      }
    }
    forall s | 0 <= s < |chains| ensures Linked(arr[s], chains[s]) {
      assert old(Linked(arr[s], chains[s]));
    }
  }

  /** hashmap_del_entry where the link is the bucket head. */
  method DelFirst<K, V>(entry: Entry<K, V>, h: nat, arr: array<Entry?<K, V>>, ghost chains: seq<seq<Entry<K, V>>>,
                        ghost kv: seq<seq<(K, V)>>, ghost entries: set<Entry<K, V>>)
    requires Chained(arr, chains, kv, entries) && Disjoint(chains) && h < |chains| && chains[h] != [] && entry == chains[h][0]
    modifies arr, entry`next
    ensures Chained(arr, Spliced(chains, h, 0, []), Spliced(kv, h, 0, []), entries)
  {
    ghost var c, chains', kv' := chains[h], Spliced(chains, h, 0, []), Spliced(kv, h, 0, []);
    assert Linked(arr[h], c) && Holds(c, kv[h]) && chains'[h] == c[1..] && kv'[h] == kv[h][1..];
    arr[h] := entry.next;
    entry.next := null;
    forall s, j | 0 <= s < |chains| && 0 <= j < |chains[s]| && (s != h || j != 0) ensures chains[s][j] != entry {
      OnlyOnce(chains, h, 0, s, j);
    }
    forall s | 0 <= s < |chains| && s != h ensures Linked(arr[s], chains'[s]) && Holds(chains'[s], kv'[s]) {
      assert old(Linked(arr[s], chains[s]) && Holds(chains[s], kv[s]));
    }
  }

  /** The entry before points past the entry: the chain is linked without it. */
  method Bypass<K, V>(prev: Entry<K, V>, entry: Entry<K, V>, ghost head: Entry?<K, V>, ghost c: seq<Entry<K, V>>, ghost i: nat)
    requires 0 < i < |c| && entry == c[i] && prev == c[i - 1] && Linked(head, c)
    requires forall j :: 0 <= j < |c| ==> (c[j] == entry ==> j == i) && (c[j] == prev ==> j == i - 1)
    modifies entry`next, prev`next
    ensures Linked(head, c[..i] + c[i + 1..])
  {
    prev.next := entry.next;
    entry.next := null;
    ghost var d := c[..i] + c[i + 1..];
    forall j | 0 <= j < |d| ensures d[j].next == if j + 1 < |d| then d[j + 1] else null {
      assert d[j] == if j < i then c[j] else c[j + 1];
      assert j + 1 < |d| ==> d[j + 1] == if j + 1 < i then c[j + 1] else c[j + 2];
    }
  }

  /** hashmap_del_entry where the link is in the entry before. */
  method DelAfter<K, V>(prev: Entry<K, V>, entry: Entry<K, V>, ghost h: nat, ghost arr: array<Entry?<K, V>>, ghost chains: seq<seq<Entry<K, V>>>,
                        ghost kv: seq<seq<(K, V)>>, ghost entries: set<Entry<K, V>>, ghost i: nat)
    requires Chained(arr, chains, kv, entries) && Disjoint(chains) && h < |chains| && 0 < i < |chains[h]|
    requires entry == chains[h][i] && prev == chains[h][i - 1]
    modifies entry`next, prev`next
    ensures Chained(arr, Spliced(chains, h, i, []), Spliced(kv, h, i, []), entries)
  {
    ghost var c: seq<Entry<K, V>>, chains': seq<seq<Entry<K, V>>>, kv' := chains[h], Spliced(chains, h, i, []), Spliced(kv, h, i, []);
    assert Linked(arr[h], c) && Holds(c, kv[h]);
    assert prev != entry by { OnlyOnce(chains, h, i, h, i - 1); }
    forall s, j | 0 <= s < |chains| && 0 <= j < |chains[s]| ensures (chains[s][j] == entry ==> s == h && j == i) && (chains[s][j] == prev ==> s == h && j == i - 1) {
      if s != h || j != i { OnlyOnce(chains, h, i, s, j); }
      if s != h || j != i - 1 { OnlyOnce(chains, h, i - 1, s, j); }
    }
    Bypass(prev, entry, arr[h], c, i);
    assert chains'[h] == c[..i] + c[i + 1..];
    assert Holds(chains'[h], kv'[h]);
    forall s | 0 <= s < |chains| && s != h ensures Linked(arr[s], chains'[s]) && Holds(chains'[s], kv'[s]) {
      assert old(Linked(arr[s], chains[s]) && Holds(chains[s], kv[s]));
    }
  }

  // ----- the multimap

  ghost function Items<K, V>(v: Multimap<K, V>): multiset<(K, V)> {
    Bag(v.contents)
  }

  /** The pairs stored under a key, in the order in which a search meets them. */
  ghost function Values<K, V>(v: Multimap<K, V>, key: K): seq<(K, V)> {
    if |v.contents| != Pow2(v.bits) then [] else Stored(v.contents, v.hash, v.eq, v.bits, key)
  }

  /** One more pair would make the map more than three quarters full. */
  ghost predicate Full<K, V>(v: Multimap<K, V>) {
    v.contents == [] || !LoadOk(|Items(v)| + 1, |v.contents|)
  }

  ghost function GrownCap(cap: nat): nat {
    if cap == 0 then 4 else 2 * cap
  }

  /** Growing turns the pairs of every key around. */
  ghost predicate Turned<K(!new), V>(v: Multimap<K, V>, v': Multimap<K, V>) {
    match v'
    case Multimap(contents, _, _, eq) =>
      Items(v') == Items(v) && |contents| == GrownCap(|v.contents|) && eq == v.eq &&
      forall k {:trigger Values(v', k)} :: Values(v', k) == Reverse(Values(v, k))
  }

  /** The pair is put in front of those of its key. */
  ghost predicate Pushed<K(!new), V>(v: Multimap<K, V>, v': Multimap<K, V>, p: (K, V)) {
    match v'
    case Multimap(contents, _, _, eq) =>
      Items(v') == Items(v) + multiset{p} && |contents| == |v.contents| && eq == v.eq &&
      forall k {:trigger Values(v', k)} :: Values(v', k) == (if eq(p.0, k) then [p] else []) + Values(v, k)
  }

  /** The pair is added, after growing if need be. */
  ghost predicate Added<K(!new), V>(v: Multimap<K, V>, v': Multimap<K, V>, p: (K, V)) {
    match v'
    case Multimap(contents, _, _, eq) =>
      Items(v') == Items(v) + multiset{p} && |contents| == (if Full(v) then GrownCap(|v.contents|) else |v.contents|) && eq == v.eq &&
      forall k {:trigger Values(v', k)} ::
        Values(v', k) == (if eq(p.0, k) then [p] else []) + if Full(v) then Reverse(Values(v, k)) else Values(v, k)
  }

  /** The first pair of a key is replaced by those given. */
  ghost predicate Replaced<K(!new), V>(v: Multimap<K, V>, v': Multimap<K, V>, key: K, put: seq<(K, V)>) {
    match v'
    case Multimap(contents, _, _, eq) =>
      Values(v, key) != [] && Items(v') == Items(v) - multiset{Values(v, key)[0]} + multiset(put) &&
      |contents| == |v.contents| && eq == v.eq &&
      forall k {:trigger Values(v', k)} :: Values(v', k) == if eq(key, k) then put + Tail(Values(v, k)) else Values(v, k)
  }

  /** What each strategy does, by whether the key is present. */
  ghost predicate Inserted<K(!new), V(!new)>(strategy: Strategy, v: Multimap<K, V>, v': Multimap<K, V>, p: (K, V), err: int, replaced: Option<(K, V)>) {
    var was := Values(v, p.0);
    match strategy
    case Add =>
      if was == [] then err == 0 && replaced == None && Added(v, v', p)
      else err == -EEXIST && replaced == Some(was[0]) && v' == v
    case Set =>
      if was == [] then err == 0 && replaced == None && Added(v, v', p)
      else err == 0 && replaced == Some(was[0]) && Replaced(v, v', p.0, [p])
    case Update =>
      if was == [] then err == -ENOENT && replaced == None && v' == v
      else err == 0 && replaced == Some(was[0]) && Replaced(v, v', p.0, [p])
    case Append =>
      err == 0 && replaced == None && Added(v, v', p)
  }

  lemma AddedByPush<K(!new), V>(v: Multimap<K, V>, g: Multimap<K, V>, v': Multimap<K, V>, p: (K, V))
    requires if Full(v) then Turned(v, g) else g == v
    requires Pushed(g, v', p)
    ensures Added(v, v', p)
  {
  }

  /** The pair put in front of its bucket is put in front of those of its key. */
  lemma PushView<K(!new), V>(v: Multimap<K, V>, h: nat, p: (K, V))
    requires h < |v.contents| == Pow2(v.bits) && h == HashBits(v.hash(p.0), v.bits) && GoodFns(v.hash, v.eq) && Placed(v.contents, v.hash, v.bits)
    ensures Placed(v.contents[h := [p] + v.contents[h]], v.hash, v.bits)
    ensures Pushed(v, v.(contents := v.contents[h := [p] + v.contents[h]]), p)
  {
    PushPlaced(v.contents, h, p, v.hash, v.bits);
    var kv, kv' := v.contents, v.contents[h := [p] + v.contents[h]];
    assert Bag(kv') == Bag(kv) + multiset{p} by {
      BagUpdate(kv, h, [p] + kv[h]);
      assert multiset([p] + kv[h]) == multiset{p} + multiset(kv[h]);
      Assoc(Bag(kv), multiset{p}, multiset(kv[h]));
      Cancel(Bag(kv'), Bag(kv) + multiset{p}, multiset(kv[h]));
    }
    forall k ensures Stored(kv', v.hash, v.eq, v.bits, k) == (if v.eq(p.0, k) then [p] else []) + Stored(kv, v.hash, v.eq, v.bits, k) {
      assert kv'[h][0] == p && kv'[h][1..] == kv[h];
      assert v.eq(p.0, k) ==> HashBits(v.hash(k), v.bits) == h;
    }
  }

  lemma PushPlaced<K(!new), V>(kv: seq<seq<(K, V)>>, h: nat, p: (K, V), hash: K -> nat, bits: nat)
    requires h < |kv| && h == HashBits(hash(p.0), bits) && Placed(kv, hash, bits)
    ensures Placed(kv[h := [p] + kv[h]], hash, bits)
  {
    var kv': seq<seq<(K, V)>> := kv[h := [p] + kv[h]];
    forall s: nat, i: nat | s < |kv'| && i < |kv'[s]| ensures HashBits(hash(kv'[s][i].0), bits) == s {
      if s == h && i > 0 { assert kv'[s][i] == kv[s][i - 1]; }
    }
  }

  /** The first match in a bucket replaced is the first pair of the key replaced. */
  lemma SpliceView<K(!new), V>(v: Multimap<K, V>, h: nat, i: nat, put: seq<(K, V)>, key: K)
    requires h < |v.contents| == Pow2(v.bits) && h == HashBits(v.hash(key), v.bits) && GoodFns(v.hash, v.eq) && Placed(v.contents, v.hash, v.bits)
    requires FirstMatch(v.contents[h], i, v.eq, key) && forall p :: p in put ==> v.eq(p.0, key)
    ensures Placed(Spliced(v.contents, h, i, put), v.hash, v.bits)
    ensures Replaced(v, v.(contents := Spliced(v.contents, h, i, put)), key, put)
    ensures |Bag(Spliced(v.contents, h, i, put))| == |Bag(v.contents)| - 1 + |put|
  {
    SplicePlaced(v.contents, h, i, put, v.hash, v.eq, v.bits, key);
    SpliceBag(v.contents, h, i, put);
    SpliceSame(v.contents[h], i, put, v.eq, key);
    var v' := v.(contents := Spliced(v.contents, h, i, put));
    forall k ensures Values(v', k) == if v.eq(key, k) then put + Tail(Values(v, k)) else Values(v, k) {
      SpliceStored(v.contents, h, i, put, v.hash, v.eq, v.bits, key, k);
    }
  }

  /** At most one pair for each key. */
  ghost predicate Unique<K(!new), V>(v: Multimap<K, V>) {
    forall k {:trigger Values(v, k)} :: |Values(v, k)| <= 1
  }

  /** Equal keys have the same pairs. */
  lemma SameValues<K(!new), V>(v: Multimap<K, V>, a: K, b: K)
    requires GoodFns(v.hash, v.eq) && v.eq(a, b)
    ensures Values(v, a) == Values(v, b)
  {
    if |v.contents| == Pow2(v.bits) { MatchingSame(v.contents[HashBits(v.hash(a), v.bits)], v.hash, v.eq, a, b); }
  }

  lemma {:induction false} MatchingSame<K(!new), V>(c: seq<(K, V)>, hash: K -> nat, eq: (K, K) -> bool, a: K, b: K)
    requires GoodFns(hash, eq) && eq(a, b)
    ensures Matching(c, eq, a) == Matching(c, eq, b)
  {
    if c != [] {
      assert eq(c[0].0, a) ==> eq(c[0].0, b);
      assert eq(b, a) && (eq(c[0].0, b) ==> eq(c[0].0, a));
      MatchingSame(c[1..], hash, eq, a, b);
    }
  }

  /** Without APPEND the map stays a finite map: no strategy but APPEND gives a key a second pair. */
  lemma InsertKeepsUnique<K(!new), V(!new)>(strategy: Strategy, v: Multimap<K, V>, v': Multimap<K, V>, p: (K, V), err: int, replaced: Option<(K, V)>)
    requires strategy != Append && Unique(v) && GoodFns(v.hash, v.eq) && Inserted(strategy, v, v', p, err, replaced)
    ensures Unique(v')
  {
    if Values(v, p.0) == [] && strategy != Update {
      forall k ensures |Values(v', k)| <= 1 {
        if v.eq(p.0, k) { SameValues(v, p.0, k); }
      }
    }
  }

  /**
   * What a search finds after a new pair has gone in. Under the key of the pair it finds the pair itself. Under
   * any other key it finds what it found before exactly if the map did not have to grow, or if the first and
   * the last pair stored under that key are equal: growing turns the pairs of every key around.
   */
  lemma SearchAfterInsert<K(!new), V(!new)>(strategy: Strategy, v: Multimap<K, V>, v': Multimap<K, V>, p: (K, V), key: K)
    requires GoodFns(v.hash, v.eq) && Inserted(strategy, v, v', p, 0, None)
    ensures Values(v', p.0) != [] && Values(v', p.0)[0] == p
    ensures !v.eq(p.0, key) && Values(v, key) != [] ==>
              Values(v', key) != [] &&
              (Values(v', key)[0] == Values(v, key)[0] <==> !Full(v) || Values(v, key)[0] == Values(v, key)[|Values(v, key)| - 1])
  {
    assert Added(v, v', p);
    assert v.eq(p.0, p.0);
  }

  /** hashmap_del_entry: make the link to the entry point past it. */
  method DelEntry<K, V>(prev: Entry?<K, V>, entry: Entry<K, V>, h: nat, arr: array<Entry?<K, V>>, ghost chains: seq<seq<Entry<K, V>>>,
                        ghost kv: seq<seq<(K, V)>>, ghost entries: set<Entry<K, V>>, ghost i: nat)
    requires Chained(arr, chains, kv, entries) && Disjoint(chains) && h < |chains| && i < |chains[h]| && entry == chains[h][i]
    requires prev == if i == 0 then null else chains[h][i - 1]
    modifies arr, entry`next, if prev == null then {} else {prev}
    ensures Chained(arr, Spliced(chains, h, i, []), Spliced(kv, h, i, []), entries)
  {
    if prev == null {
      DelFirst(entry, h, arr, chains, kv, entries);
    } else {
      DelAfter(prev, entry, h, arr, chains, kv, entries, i);
    }
  }

  /** A table without the entry found first under a key. */
  method RemoveAt<K(!new), V>(prev: Entry?<K, V>, entry: Entry<K, V>, h: nat, arr: array<Entry?<K, V>>, ghost chains: seq<seq<Entry<K, V>>>,
                              ghost entries: set<Entry<K, V>>, ghost m: Multimap<K, V>, ghost i: nat, ghost key: K)
    requires Table(arr, chains, entries, m) && h < |chains| && i < |chains[h]| && entry == chains[h][i]
    requires prev == if i == 0 then null else chains[h][i - 1]
    requires h < |m.contents| == Pow2(m.bits) && h == HashBits(m.hash(key), m.bits) && FirstMatch(m.contents[h], i, m.eq, key)
    modifies arr, entries
    ensures Table(arr, Spliced(chains, h, i, []), entries, m.(contents := Spliced(m.contents, h, i, [])))
  {
    SpliceView(m, h, i, [], key);
    DisjointRemove(chains, h, i);
    assert LoadOk(|Bag(Spliced(m.contents, h, i, []))|, arr.Length);
    DelEntry(prev, entry, h, arr, chains, m.contents, entries, i);
  }

  class HashMap<K(!new), V(!new)> {
    const hashFn: K -> nat
    const equalFn: (K, K) -> bool
    var buckets: array?<Entry?<K, V>>
    var cap: nat
    var capBits: nat
    var sz: nat
    // the entries of each bucket in order, and what they hold
    ghost var chains: seq<seq<Entry<K, V>>>
    ghost var contents: seq<seq<(K, V)>>
    ghost var entries: set<Entry<K, V>>

    ghost function Repr(): set<object>
      reads this
    {
      {this} + entries + if buckets == null then {} else {buckets}
    }

    ghost predicate Valid()
      reads this, buckets, entries
    {
      match Buckets()
      case None => GoodFns(hashFn, equalFn) && sz == cap == capBits == 0 && chains == [] && contents == []
      case Some(arr) =>
        sz == |Bag(contents)| && cap == arr.Length && Table(arr, chains, entries, Multimap(contents, capBits, hashFn, equalFn))
    }

    ghost function Buckets(): Option<array<Entry?<K, V>>>
      reads this
    {
      if buckets == null then None else Some(buckets as array<Entry?<K, V>>)
    }

    ghost function View(): Multimap<K, V>
      reads this
    {
      Multimap(contents, capBits, hashFn, equalFn)
    }

    constructor (hashFn: K -> nat, equalFn: (K, K) -> bool)
      requires GoodFns(hashFn, equalFn)
      ensures Valid() && fresh(Repr()) && Items(View()) == multiset{} && forall key :: Values(View(), key) == []
      ensures sz == cap == 0
      ensures this.hashFn == hashFn && this.equalFn == equalFn
    {
      this.hashFn, this.equalFn := hashFn, equalFn;
      buckets, cap, capBits, sz := null, 0, 0, 0;
      chains, contents := [], [];
      entries := {};
    }

    // ----- searching

    /** Walk the chain of the key's bucket; prev is the entry before the one found, if any. */
    method FindEntry(key: K, h: nat) returns (found: bool, prev: Entry?<K, V>, entry: Entry?<K, V>, ghost i: nat)
      requires Valid() && h == HashBits(hashFn(key), capBits)
      ensures found <==> Values(View(), key) != []
      ensures found ==> buckets != null && h < cap && i < |chains[h]| && entry == chains[h][i]
      ensures found ==> prev == if i == 0 then null else chains[h][i - 1]
      ensures found ==> Values(View(), key)[0] == contents[h][i] && FirstMatch(contents[h], i, equalFn, key)
    {
      found, prev, entry, i := false, null, null, 0;
      if buckets == null {
        return;
      }
      ghost var c, kv := chains[h], contents[h];
      var cur := buckets[h];
      assert Linked(cur, c) && Holds(c, kv);
      while cur != null
        invariant i <= |c| && cur == (if i < |c| then c[i] else null)
        invariant prev == if i == 0 then null else c[i - 1]
        invariant forall j {:trigger kv[j]} :: 0 <= j < i ==> !equalFn(kv[j].0, key)
        invariant Matching(kv[i..], equalFn, key) == Matching(kv, equalFn, key)
        decreases |c| - i
      {
        MatchingStep(kv, i, equalFn, key, []);
        if equalFn(cur.key, key) {
          return true, prev, cur, i;
        }
        prev, cur, i := cur, cur.next, i + 1;
      }
    }

    /** The value of the first pair stored under the key. */
    method Find(key: K) returns (r: Option<V>)
      requires Valid()
      ensures r == if Values(View(), key) == [] then None else Some(Values(View(), key)[0].1)
    {
      var found, _, entry, _ := FindEntry(key, HashBits(hashFn(key), capBits));
      r := if found then Some(entry.value) else None;
    }

    /** The iteration over all pairs stored under a key. */
    method KeyEntries(key: K) returns (r: seq<(K, V)>)
      requires Valid()
      ensures r == Values(View(), key)
    {
      r := [];
      if buckets == null { return; }
      var h := HashBits(hashFn(key), capBits);
      ghost var c, kv, i := chains[h], contents[h], 0;
      var cur := buckets[h];
      assert Linked(cur, c) && Holds(c, kv);
      while cur != null
        invariant i <= |c| && cur == (if i < |c| then c[i] else null)
        invariant r + Matching(kv[i..], equalFn, key) == Matching(kv, equalFn, key)
        decreases |c| - i
      {
        MatchingStep(kv, i, equalFn, key, r);
        if equalFn(cur.key, key) {
          r := r + [(cur.key, cur.value)];
        }
        cur, i := cur.next, i + 1;
      }
    }

    // ----- growing

    predicate NeedsToGrow()
      reads this
    {
      cap == 0 || !LoadOk(sz + 1, cap)
    }

    ghost predicate Growing(cur: Entry?<K, V>, bkt: nat, arr: array<Entry?<K, V>>, newBuckets: array<Entry?<K, V>>, newBits: nat,
                            rest: seq<seq<Entry<K, V>>>, done: seq<seq<Entry<K, V>>>,
                            restKv: seq<seq<(K, V)>>, doneKv: seq<seq<(K, V)>>)
      reads this, entries, arr, newBuckets
    {
      arr != newBuckets && GoodFns(hashFn, equalFn) &&
      Disjoint(rest + done) && Left(cur, bkt, arr, rest, restKv, entries) && Chained(newBuckets, done, doneKv, entries) &&
      Moved(restKv, doneKv, contents, hashFn, equalFn, capBits, newBits)
    }

    /** Move the first entry left in bucket bkt to the front of its new bucket. */
    method MoveEntry(cur: Entry<K, V>, bkt: nat, arr: array<Entry?<K, V>>, newBuckets: array<Entry?<K, V>>, newBits: nat,
                     ghost rest: seq<seq<Entry<K, V>>>, ghost done: seq<seq<Entry<K, V>>>,
                     ghost restKv: seq<seq<(K, V)>>, ghost doneKv: seq<seq<(K, V)>>)
      returns (next: Entry?<K, V>, ghost rest': seq<seq<Entry<K, V>>>, ghost done': seq<seq<Entry<K, V>>>,
               ghost restKv': seq<seq<(K, V)>>, ghost doneKv': seq<seq<(K, V)>>)
      requires Growing(cur, bkt, arr, newBuckets, newBits, rest, done, restKv, doneKv)
      modifies cur`next, newBuckets
      ensures Growing(next, bkt, arr, newBuckets, newBits, rest', done', restKv', doneKv')
      ensures |rest'| == |rest| && |rest'[bkt]| == |rest[bkt]| - 1
    {
      var h := HashBits(hashFn(cur.key), newBits);
      next := cur.next;
      assert rest[bkt] != [] && rest[bkt][0] == cur && restKv[bkt][0] == (cur.key, cur.value);
      Across(rest, done, bkt, h);
      MoveStep(restKv, doneKv, contents, bkt, hashFn, equalFn, capBits, newBits);
      rest', restKv' := rest[bkt := rest[bkt][1..]], restKv[bkt := restKv[bkt][1..]];
      done', doneKv' := done[h := [cur] + done[h]], doneKv[h := [restKv[bkt][0]] + doneKv[h]];
      AddEntry(newBuckets, h, cur, done, doneKv, entries);
      forall s | bkt < s < |rest| ensures Linked(arr[s], rest'[s]) && Holds(rest'[s], restKv'[s]) {
        assert rest'[s] == rest[s] && restKv'[s] == restKv[s];
      }
    }

    /** Move everything left in bucket bkt. */
    method MoveBucket(bkt: nat, arr: array<Entry?<K, V>>, newBuckets: array<Entry?<K, V>>, newBits: nat,
                      ghost rest: seq<seq<Entry<K, V>>>, ghost done: seq<seq<Entry<K, V>>>,
                      ghost restKv: seq<seq<(K, V)>>, ghost doneKv: seq<seq<(K, V)>>)
      returns (ghost rest': seq<seq<Entry<K, V>>>, ghost done': seq<seq<Entry<K, V>>>,
               ghost restKv': seq<seq<(K, V)>>, ghost doneKv': seq<seq<(K, V)>>)
      requires bkt < arr.Length && Growing(arr[bkt], bkt, arr, newBuckets, newBits, rest, done, restKv, doneKv)
      modifies entries, newBuckets
      ensures Growing(null, bkt, arr, newBuckets, newBits, rest', done', restKv', doneKv')
    {
      rest', done', restKv', doneKv' := rest, done, restKv, doneKv;
      var cur := arr[bkt];
      while cur != null
        invariant Growing(cur, bkt, arr, newBuckets, newBits, rest', done', restKv', doneKv')
        decreases |rest'[bkt]|
      {
        assert cur == rest'[bkt][0];
        cur, rest', done', restKv', doneKv' := MoveEntry(cur, bkt, arr, newBuckets, newBits, rest', done', restKv', doneKv');
      }
    }

    /** Move the entries of every bucket. */
    method MoveAll(arr: array<Entry?<K, V>>, newBuckets: array<Entry?<K, V>>, newBits: nat,
                   ghost empty: seq<seq<Entry<K, V>>>, ghost emptyKv: seq<seq<(K, V)>>)
      returns (ghost done: seq<seq<Entry<K, V>>>, ghost doneKv: seq<seq<(K, V)>>)
      requires arr.Length > 0 && Growing(arr[0], 0, arr, newBuckets, newBits, chains, empty, contents, emptyKv)
      modifies entries, newBuckets
      ensures Disjoint(done) && Chained(newBuckets, done, doneKv, entries) && Placed(doneKv, hashFn, newBits)
      ensures |contents| == Pow2(capBits) && |doneKv| == Pow2(newBits) && Bag(doneKv) == Bag(contents)
      ensures forall key :: Stored(doneKv, hashFn, equalFn, newBits, key) == Reverse(Stored(contents, hashFn, equalFn, capBits, key))
    {
      ghost var rest, restKv;
      rest, done, restKv, doneKv := MoveBucket(0, arr, newBuckets, newBits, chains, empty, contents, emptyKv);
      var bkt := 1;
      while bkt < arr.Length
        invariant 1 <= bkt <= arr.Length
        invariant Growing(null, bkt - 1, arr, newBuckets, newBits, rest, done, restKv, doneKv)
      {
        NextBucket(bkt - 1, arr, rest, restKv, entries);
        rest, done, restKv, doneKv := MoveBucket(bkt, arr, newBuckets, newBits, rest, done, restKv, doneKv);
        bkt := bkt + 1;
      }
      AllMoved(arr, rest, restKv, entries);
      MoveDone(restKv, doneKv, contents, hashFn, equalFn, capBits, newBits);
      DisjointSuffix(rest, done);
    }

    lemma Start(arr: array<Entry?<K, V>>, newBuckets: array<Entry?<K, V>>, newBits: nat, done: seq<seq<Entry<K, V>>>, doneKv: seq<seq<(K, V)>>)
      requires Valid() && buckets == arr && newBuckets != arr && newBuckets.Length == Pow2(newBits) == |done| == |doneKv|
      requires forall s {:trigger done[s]} :: 0 <= s < |done| ==> done[s] == [] && newBuckets[s] == null
      requires forall s {:trigger doneKv[s]} :: 0 <= s < |doneKv| ==> doneKv[s] == []
      ensures Growing(arr[0], 0, arr, newBuckets, newBits, chains, done, contents, doneKv)
    {
      DisjointPad(chains, done);
      assert Bag(contents + doneKv) == Bag(contents) by {
        BagConcat(contents, doneKv);
        BagEmpty(doneKv);
      }
      forall key ensures Reverse(Stored(contents, hashFn, equalFn, capBits, key)) + Stored(doneKv, hashFn, equalFn, newBits, key)
                         == Reverse(Stored(contents, hashFn, equalFn, capBits, key)) {
        assert doneKv[HashBits(hashFn(key), newBits)] == [];
      }
    }

    /** Put a bucket array and its contents in place. */
    method Install(arr: array<Entry?<K, V>>, bits: nat, size: nat, ghost chains': seq<seq<Entry<K, V>>>, ghost entries': set<Entry<K, V>>,
                   ghost contents': seq<seq<(K, V)>>)
      requires Table(arr, chains', entries', Multimap(contents', bits, hashFn, equalFn)) && size == |Bag(contents')|
      modifies this
      ensures Valid() && buckets == arr && entries == entries' && View() == Multimap(contents', bits, hashFn, equalFn)
    {
      cap, capBits, buckets, sz := arr.Length, bits, arr, size;
      chains, contents, entries := chains', contents', entries';
    }

    /** Move every entry to empty buckets. */
    method Rehash(newBuckets: array<Entry?<K, V>>, newBits: nat)
      returns (ghost done: seq<seq<Entry<K, V>>>, ghost doneKv: seq<seq<(K, V)>>)
      requires Valid() && newBuckets != buckets && newBuckets.Length == Pow2(newBits)
      requires forall s :: 0 <= s < newBuckets.Length ==> newBuckets[s] == null
      modifies entries, newBuckets
      ensures Disjoint(done) && Chained(newBuckets, done, doneKv, entries) && Placed(doneKv, hashFn, newBits)
      ensures |doneKv| == Pow2(newBits) && Bag(doneKv) == Bag(contents)
      ensures forall key :: Stored(doneKv, hashFn, equalFn, newBits, key) == Reverse(old(Values(View(), key)))
    {
      done, doneKv := seq(newBuckets.Length, _ => []), seq(newBuckets.Length, _ => []);
      if buckets == null {
        BagEmpty(doneKv);
      } else {
        var arr := buckets;
        Start(arr, newBuckets, newBits, done, doneKv);
        done, doneKv := MoveAll(arr, newBuckets, newBits, done, doneKv);
      }
    }

    /** Twice as many buckets, every entry in the bucket its key now hashes to. */
    method Grow()
      requires Valid() && NeedsToGrow()
      modifies Repr()
      ensures Valid() && buckets != null && fresh(buckets) && entries == old(entries) && !NeedsToGrow()
      ensures Turned(old(View()), View())
    {
      var newBits := capBits + 1;
      if newBits < MIN_CAP_BITS { newBits := MIN_CAP_BITS; }
      Doubled(newBits);
      var newBuckets := new Entry?<K, V>[Pow2(newBits)](_ => null);
      ghost var done, doneKv := Rehash(newBuckets, newBits);
      Install(newBuckets, newBits, sz, done, entries, doneKv);
    }

    lemma Doubled(newBits: nat)
      requires Valid() && newBits == if capBits + 1 < MIN_CAP_BITS then MIN_CAP_BITS else capBits + 1
      ensures Pow2(newBits) == GrownCap(cap) && LoadOk(sz + 1, Pow2(newBits))
    {
    }

    // ----- inserting and deleting

    /** Put a pair in a new entry at the front of its bucket. */
    method Push(key: K, value: V)
      requires Valid() && !NeedsToGrow() && buckets != null
      modifies this, buckets
      ensures Valid() && buckets == old(buckets) && fresh(entries - old(entries))
      ensures Pushed(old(View()), View(), (key, value))
    {
      var h := HashBits(hashFn(key), capBits);
      var entry := new Entry(key, value);
      PushView(View(), h, (key, value));
      DisjointPush(chains, h, entry, entries);
      AddEntry(buckets, h, entry, chains, contents, entries + {entry});
      Install(buckets, capBits, sz + 1, chains[h := [entry] + chains[h]], entries + {entry}, contents[h := [(key, value)] + contents[h]]);
    }

    /** Add a pair, after growing if the map would be more than three quarters full. */
    method AddPair(key: K, value: V)
      requires Valid()
      modifies Repr()
      ensures Valid() && fresh(Repr() - old(Repr()))
      ensures Added(old(View()), View(), (key, value))
    {
      ghost var before := View();
      assert Full(before) <==> NeedsToGrow();
      if NeedsToGrow() { Grow(); }
      ghost var grown := View();
      Push(key, value);
      AddedByPush(before, grown, View(), (key, value));
    }

    /** Overwrite the key and value of an entry. */
    method Overwrite(entry: Entry<K, V>, key: K, value: V, ghost h: nat, ghost i: nat)
      requires Valid() && buckets != null && h < cap && i < |chains[h]| && entry == chains[h][i]
      requires h == HashBits(hashFn(key), capBits) && FirstMatch(contents[h], i, equalFn, key)
      modifies this, entry
      ensures Valid() && buckets == old(buckets) && entries == old(entries)
      ensures Replaced(old(View()), View(), key, [(key, value)])
    {
      ghost var v, put := View(), [(key, value)];
      SpliceView(v, h, i, put, key);
      SetEntry(entry, key, value, buckets, chains, v.contents, entries, h, i);
      Install(buckets, capBits, sz, chains, entries, Spliced(v.contents, h, i, put));
      assert View() == v.(contents := Spliced(v.contents, h, i, put));
    }

    /** Take an entry out of its chain. */
    method Unlink(prev: Entry?<K, V>, entry: Entry<K, V>, ghost key: K, h: nat, ghost i: nat)
      requires Valid() && buckets != null && h < cap && i < |chains[h]| && entry == chains[h][i]
      requires h == HashBits(hashFn(key), capBits) && FirstMatch(contents[h], i, equalFn, key)
      requires prev == if i == 0 then null else chains[h][i - 1]
      modifies this, buckets, entries
      ensures Valid() && buckets == old(buckets) && entries == old(entries)
      ensures Replaced(old(View()), View(), key, [])
    {
      ghost var v := View();
      var arr := buckets;
      ghost var chains', contents' := Spliced(chains, h, i, []), Spliced(v.contents, h, i, []);
      ghost var w := v.(contents := contents');
      assert Replaced(v, w, key, []) && |Bag(contents')| == sz - 1 by { SpliceView(v, h, i, [], key); }
      RemoveAt(prev, entry, h, arr, chains, entries, v, i, key);
      Install(arr, capBits, sz - 1, chains', entries, contents');
      assert View() == w;
    }

    /** The fields that count agree with what is counted. */
    lemma Sizes()
      requires Valid()
      ensures sz == |Items(View())| && cap == |View().contents| && (NeedsToGrow() <==> Full(View()))
    {
    }

    // ----- the operations

    /** What insertion does when there is nothing to overwrite, by a search or because none is made. */
    method InsertNew(key: K, value: V, strategy: Strategy) returns (err: int)
      requires Valid() && (strategy != Append ==> Values(View(), key) == [])
      modifies Repr()
      ensures Valid() && fresh(Repr() - old(Repr()))
      ensures Inserted(strategy, old(View()), View(), (key, value), err, None)
    {
      if strategy == Update { return -ENOENT; }
      ghost var v := View();
      AddPair(key, value);
      assert Added(v, View(), (key, value));
      err := 0;
    }

    /** What it does with the entry that a search has found. */
    method InsertOver(entry: Entry<K, V>, key: K, value: V, strategy: Strategy, ghost h: nat, ghost i: nat) returns (err: int)
      requires Valid() && buckets != null && h < cap && i < |chains[h]| && entry == chains[h][i] && strategy != Append
      requires h == HashBits(hashFn(key), capBits) && FirstMatch(contents[h], i, equalFn, key)
      requires Values(View(), key) != []
      modifies Repr()
      ensures Valid() && Repr() == old(Repr())
      ensures Inserted(strategy, old(View()), View(), (key, value), err, Some(old(Values(View(), key))[0]))
    {
      if strategy == Add { return -EEXIST; }
      ghost var v := View();
      Overwrite(entry, key, value, h, i);
      assert Replaced(v, View(), key, [(key, value)]);
      err := 0;
    }

    /** Add a pair, or overwrite the one a search finds, or neither, as the strategy says. */
    method Insert(key: K, value: V, strategy: Strategy) returns (err: int, replaced: Option<(K, V)>)
      requires Valid()
      modifies Repr()
      ensures Valid() && fresh(Repr() - old(Repr()))
      ensures Inserted(strategy, old(View()), View(), (key, value), err, replaced)
    {
      replaced := None;
      if strategy != Append {
        var h := HashBits(hashFn(key), capBits);
        var found, _, entry, i := FindEntry(key, h);
        if found {
          replaced := Some((entry.key, entry.value));
          err := InsertOver(entry, key, value, strategy, h, i);
          return;
        }
      }
      err := InsertNew(key, value, strategy);
    }

    /** Remove the pair a search finds. */
    method Delete(key: K) returns (removed: Option<(K, V)>)
      requires Valid()
      modifies Repr()
      ensures Valid() && Repr() == old(Repr())
      ensures removed == if old(Values(View(), key)) == [] then None else Some(old(Values(View(), key))[0])
      ensures if removed == None then View() == old(View()) else Replaced(old(View()), View(), key, [])
    {
      var h := HashBits(hashFn(key), capBits);
      var found, prev, entry, i := FindEntry(key, h);
      if !found { return None; }
      removed := Some((entry.key, entry.value));
      Unlink(prev, entry, key, h, i);
    }
  }

  /**
   * A new map, two pairs appended under one key, then pairs under other keys: the search finds the pair appended
   * last until the map grows, and then the pair appended first.
   */
  method SearchAfterGrowth() returns (before: Option<int>, after: Option<int>)
    ensures before == Some(20) && after == Some(10)
  {
    var m := ThreeAppended();
    before := m.Find(1);
    Reverses((1, 20), (1, 10));
    PutLast(m, 3, 0, [(1, 20), (1, 10)]);
    after := m.Find(1);
  }

  method ThreeAppended() returns (m: HashMap<nat, int>)
    ensures m.Valid() && fresh(m.Repr()) && m.equalFn == Equal && m.sz == 3 && m.cap == 4
    ensures Values(m.View(), 1) == [(1, 20), (1, 10)]
  {
    m := TwoAppended();
    PutLast(m, 2, 0, [(1, 20), (1, 10)]);
  }

  method TwoAppended() returns (m: HashMap<nat, int>)
    ensures m.Valid() && fresh(m.Repr()) && m.equalFn == Equal && m.sz == 2 && m.cap == 4
    ensures Values(m.View(), 1) == [(1, 20), (1, 10)]
  {
    m := OneAppended();
    PutLast(m, 1, 20, [(1, 10)]);
  }

  method OneAppended() returns (m: HashMap<nat, int>)
    ensures m.Valid() && fresh(m.Repr()) && m.equalFn == Equal && m.sz == 1 && m.cap == 4
    ensures Values(m.View(), 1) == [(1, 10)]
  {
    assert GoodFns(Same, Equal);
    m := new HashMap<nat, int>(Same, Equal);
    assert m.sz == 0 && m.cap == 0 && m.NeedsToGrow();
    PutLast(m, 1, 10, []);
  }

  lemma Reverses<T>(a: T, b: T)
    ensures Reverse([a, b]) == [b, a]
  {
    assert [a, b][1..] == [b] && [b][1..] == [];
  }

  function Same(k: nat): nat { k }

  predicate Equal(a: nat, b: nat) { a == b }

  /** The pairs under key 1, the number of pairs and the capacity after one more pair. */
  method PutLast(m: HashMap<nat, int>, key: nat, value: int, ghost was: seq<(nat, int)>)
    requires m.Valid() && m.equalFn == Equal && Values(m.View(), 1) == was
    modifies m.Repr()
    ensures m.Valid() && fresh(m.Repr() - old(m.Repr()))
    ensures m.sz == old(m.sz) + 1 && m.cap == (if old(m.NeedsToGrow()) then GrownCap(old(m.cap)) else old(m.cap))
    ensures Values(m.View(), 1) == (if key == 1 then [(key, value)] else []) + if old(m.NeedsToGrow()) then Reverse(was) else was
  {
    ghost var v := m.View();
    m.Sizes();
    var _, _ := m.Insert(key, value, Append);
    m.Sizes();
    assert Added(v, m.View(), (key, value));
  }
}
