/** The string pass of deduplication: names that read the same get one offset, and strings that nothing names go. */
module DedupStrings {
  import opened Ints
  import opened BtfTypes
  import opened BtfNames
  import opened BtfFile
  import opened BtfBuilder
  import opened Strsets
  import opened Options
  import opened Errno

  // ----- where the names of a list of types go

  function Names(t: BtfType): seq<u32> { [t.nameOff] + EntryNames(t.tail) }

  function AllNames(ts: seq<BtfType>): seq<u32> {
    if ts == [] then [] else AllNames(ts[..|ts| - 1]) + Names(ts[|ts| - 1])
  }

  lemma AllNamesNext(ts: seq<BtfType>, i: nat, next: nat)
    requires i < |ts| && next == i + 1
    ensures AllNames(ts[..next]) == AllNames(ts[..i]) + Names(ts[i])
  {
    assert ts[..next][..i] == ts[..i];
  }

  /** The strings kept so far, and whether all have found room. */
  datatype Sift = Sift(ok: bool, strings: Strings)

  /** One name: those in the base stay where they are, and another one is looked up, or added. */
  function SiftOne(p: Sift, strs: seq<u8>, off: u32): Sift {
    if !p.ok || off == 0 || off < p.strings.start then p
    else
      var s := Text(strs, off - p.strings.start);
      if p.strings.Refuses(s) then p.(ok := false) else Sift(true, p.strings.Add(s))
  }

  function SiftAll(p: Sift, strs: seq<u8>, ns: seq<u32>): Sift {
    if ns == [] then p else SiftOne(SiftAll(p, strs, ns[..|ns| - 1]), strs, ns[|ns| - 1])
  }

  lemma SiftNext(p: Sift, strs: seq<u8>, ns: seq<u32>, i: nat, next: nat)
    requires i < |ns| && next == i + 1
    ensures SiftAll(p, strs, ns[..next]) == SiftOne(SiftAll(p, strs, ns[..i]), strs, ns[i])
  {
    assert ns[..next][..i] == ns[..i];
  }

  lemma {:induction false} SiftConcat(p: Sift, strs: seq<u8>, a: seq<u32>, b: seq<u32>)
    ensures SiftAll(p, strs, a + b) == SiftAll(SiftAll(p, strs, a), strs, b)
  {
    if b == [] {
      assert a + b == a;
    } else {
      var n := |b| - 1;
      assert (a + b)[..|a| + n] == a + b[..n];
      SiftConcat(p, strs, a, b[..n]);
    }
  }

  /** After a string without room nothing more happens. */
  lemma {:induction false} SiftStuck(p: Sift, strs: seq<u8>, ns: seq<u32>)
    requires !p.ok
    ensures SiftAll(p, strs, ns) == p
  {
    if ns != [] { SiftStuck(p, strs, ns[..|ns| - 1]); }
  }

  lemma {:induction false} SiftTypesStuck(p: Sift, strs: seq<u8>, ts: seq<BtfType>, i: nat)
    requires i <= |ts| && !SiftAll(p, strs, AllNames(ts[..i])).ok
    ensures SiftAll(p, strs, AllNames(ts)) == SiftAll(p, strs, AllNames(ts[..i]))
  {
    if i == |ts| {
      assert ts[..i] == ts;
    } else {
      var short, last := ts[..|ts| - 1], ts[|ts| - 1];
      assert short[..i] == ts[..i];
      SiftTypesStuck(p, strs, short, i);
      SiftConcat(p, strs, AllNames(short), Names(last));
      SiftStuck(SiftAll(p, strs, AllNames(short)), strs, Names(last));
    }
  }

  /** What one more type makes of the strings, whether they find room or not. */
  lemma SiftType(p0: Sift, p: Sift, strs: seq<u8>, g: seq<BtfType>, start: nat, id: nat, next: nat)
    requires start <= id < |g| && next == id + 1 && p == SiftAll(p0, strs, AllNames(g[start..id]))
    ensures var q := SiftAll(p, strs, Names(g[id])); Grown(p.strings, q.strings) && q == SiftAll(p0, strs, AllNames(g[start..next]))
    ensures var q := SiftAll(p, strs, Names(g[id])); !q.ok ==> q == SiftAll(p0, strs, AllNames(g[start..]))
  {
    var ts, i := g[start..], id - start;
    var j := i + 1;
    assert ts[..i] == g[start..id] && ts[..j] == g[start..next];
    AllNamesNext(ts, i, j);
    SiftConcat(p0, strs, AllNames(ts[..i]), Names(ts[i]));
    SiftGrows(p, strs, Names(g[id]));
    if !SiftAll(p, strs, Names(g[id])).ok { SiftTypesStuck(p0, strs, ts, j); }
  }

  /** The place of a string, in the base or among the strings kept. */
  ghost predicate At(st: Strings, s: seq<u8>, off: nat) {
    if st.InBase(s) then off == st.base.value.index[s] else s in st.own.index && off == st.start + st.own.index[s]
  }

  /** Where a name has gone. */
  ghost predicate Homed(st: Strings, strs: seq<u8>, off: u32, off': u32) {
    if off == 0 || off < st.start then off' == off else At(st, Text(strs, off - st.start), off')
  }

  ghost predicate AllHomed(st: Strings, strs: seq<u8>, ns: seq<u32>, ns': seq<u32>) {
    |ns'| == |ns| && forall i {:trigger Homed(st, strs, ns[i], ns'[i])} :: 0 <= i < |ns| ==> Homed(st, strs, ns[i], ns'[i])
  }

  /** Strings have been added, and none has moved. */
  ghost predicate Grown(st: Strings, st': Strings) {
    st'.base == st.base && st'.start == st.start &&
    forall s {:trigger s in st.own.index} :: s in st.own.index ==> s in st'.own.index && st'.own.index[s] == st.own.index[s]
  }

  lemma HomedKept(st: Strings, st': Strings, strs: seq<u8>, ns: seq<u32>, ns': seq<u32>)
    requires Grown(st, st') && AllHomed(st, strs, ns, ns')
    ensures AllHomed(st', strs, ns, ns')
  {
    forall i | 0 <= i < |ns| ensures Homed(st', strs, ns[i], ns'[i]) { assert Homed(st, strs, ns[i], ns'[i]); }
  }

  lemma {:induction false} SiftGrows(p: Sift, strs: seq<u8>, ns: seq<u32>)
    ensures Grown(p.strings, SiftAll(p, strs, ns).strings)
  {
    if ns != [] { SiftGrows(p, strs, ns[..|ns| - 1]); }
  }

  lemma HomedStep(st: Strings, st': Strings, strs: seq<u8>, ns: seq<u32>, ns': seq<u32>, n': u32)
    requires |ns'| < |ns| && AllHomed(st, strs, ns[..|ns'|], ns') && Grown(st, st') && Homed(st', strs, ns[|ns'|], n')
    ensures AllHomed(st', strs, ns[..|ns'| + 1], ns' + [n'])
  {
    HomedKept(st, st', strs, ns[..|ns'|], ns');
    var a, b := ns[..|ns'| + 1], ns' + [n'];
    forall i | 0 <= i < |a| ensures Homed(st', strs, a[i], b[i]) {
      if i < |ns'| { assert Homed(st', strs, ns[..|ns'|][i], ns'[i]); }
    }
  }

  /** The descriptor with its names where they have gone. */
  ghost predicate Renamed(st: Strings, strs: seq<u8>, t: BtfType, t': BtfType) {
    |EntryNames(t'.tail)| == |EntryNames(t.tail)| && t' == SetNames(t, t'.nameOff, EntryNames(t'.tail)) &&
    AllHomed(st, strs, Names(t), Names(t'))
  }

  /** The types from start up to id are renamed, and the others as they were. */
  ghost predicate RenamedUpTo(st: Strings, strs: seq<u8>, g: seq<BtfType>, h: seq<BtfType>, start: nat, id: nat) {
    |h| == |g| && (forall x {:trigger h[x]} :: 0 <= x < |g| && (x < start || id <= x) ==> h[x] == g[x]) &&
    forall x {:trigger Renamed(st, strs, g[x], h[x])} :: start <= x < id && x < |g| ==> Renamed(st, strs, g[x], h[x])
  }

  lemma RenamedNext(st: Strings, st': Strings, strs: seq<u8>, g: seq<BtfType>, h: seq<BtfType>, h': seq<BtfType>, start: nat, id: nat, next: nat, t': BtfType)
    requires RenamedUpTo(st, strs, g, h, start, id) && start <= id < |g| && next == id + 1 && h' == h[id := t']
    requires Grown(st, st') && Renamed(st', strs, g[id], t')
    ensures RenamedUpTo(st', strs, g, h', start, next)
  {
    forall x | start <= x < next ensures Renamed(st', strs, g[x], h'[x]) {
      if x < id {
        assert Renamed(st, strs, g[x], h[x]);
        HomedKept(st, st', strs, Names(g[x]), Names(h[x]));
      }
    }
  }

  /** The names of type k have found no room, and the types before it are renamed already. */
  ghost predicate StoppedAt(p0: Sift, strs: seq<u8>, g: seq<BtfType>, h: seq<BtfType>, start: nat, k: nat) {
    start <= k < |g| && SiftAll(p0, strs, AllNames(g[start..k])).ok &&
    !SiftAll(SiftAll(p0, strs, AllNames(g[start..k])), strs, Names(g[k])).ok &&
    RenamedUpTo(SiftAll(p0, strs, AllNames(g[start..k])).strings, strs, g, h, start, k)
  }

  ghost predicate Stopped(p0: Sift, strs: seq<u8>, g: seq<BtfType>, h: seq<BtfType>, start: nat) {
    exists k :: StoppedAt(p0, strs, g, h, start, k)
  }

  // ----- the pass

  /** The strings of a BTF: those of its base, which stay as they are, and its own, which start after them. */
  class StrSection {
    const base: Strset?
    const startOff: nat
    var strs: Strset
    var deduped: bool

    constructor (base: Strset?, strs: Strset, deduped: bool)
      ensures this.base == base && this.strs == strs && this.deduped == deduped
      ensures startOff == if base == null then 0 else |base.data|
    {
      this.base, this.strs, this.deduped := base, strs, deduped;
      startOff := if base == null then 0 else |base.data|;
    }

    ghost predicate Valid()
      reads this, base, strs
    {
      strs.Valid() && strs.maxLen == BTF_MAX_STR_OFFSET && GoodStrs(strs.data, base != null) && BaseValid() && strs != base
    }

    ghost predicate BaseValid()
      reads base
    {
      if base == null then startOff == 0
      else base.Valid() && base.maxLen == BTF_MAX_STR_OFFSET && GoodStrs(base.data, false) && startOff == |base.data|
    }

    ghost function BaseStrs(): seq<u8>
      reads base
    {
      if base == null then [] else base.data
    }

    /** The strings of the base, and those of a set that is to follow it. */
    ghost function With(into: Strset): Strings
      reads base, into
    {
      Strings(if base == null then None else Some(base.Table()), startOff, into.Table())
    }

    /** A set that is being filled. */
    ghost predicate Filling(into: Strset)
      reads this, base, strs, into
    {
      Valid() && into != strs && into != base && into.Valid() && into.maxLen == BTF_MAX_STR_OFFSET && |into.data| <= BTF_MAX_STR_OFFSET
    }

    /** strs_dedup_remap_str_off. */
    method RemapStr(into: Strset, off: u32) returns (err: int, off': u32)
      requires Filling(into) && off < startOff + |strs.data|
      modifies into
      ensures Filling(into) && (err == 0 || err == -ENOMEM)
      ensures Sift(err == 0, With(into)) == SiftOne(Sift(true, old(With(into))), strs.data, off)
      ensures err == 0 ==> Homed(With(into), strs.data, off, off')
    {
      if off == 0 || off < startOff { return 0, off; }
      var s := Text(strs.data, off - startOff);
      TextStands(strs.data, off - startOff);
      if base != null {
        err := base.FindStr(s);
        if err >= 0 { return 0, err; }
        if err != -ENOENT { return err, off; }
      }
      err := into.AddStr(s);
      if err < 0 { return err, off; }
      err, off' := 0, startOff + err;
    }

    /** All names of one descriptor, as btf_type_visit_str_offs finds them. */
    method RemapNames(into: Strset, ns: seq<u32>) returns (err: int, ns': seq<u32>)
      requires Filling(into) && forall i :: 0 <= i < |ns| ==> ns[i] < startOff + |strs.data|
      modifies into
      ensures Filling(into) && (err == 0 || err == -ENOMEM)
      ensures Sift(err == 0, With(into)) == SiftAll(Sift(true, old(With(into))), strs.data, ns)
      ensures err == 0 ==> AllHomed(With(into), strs.data, ns, ns')
    {
      err, ns' := 0, [];
      ghost var p0 := Sift(true, With(into));
      while |ns'| < |ns|
        invariant |ns'| <= |ns| && err == 0 && Filling(into)
        invariant Sift(true, With(into)) == SiftAll(p0, strs.data, ns[..|ns'|])
        invariant AllHomed(With(into), strs.data, ns[..|ns'|], ns')
      {
        ghost var st, next := With(into), |ns'| + 1;
        SiftNext(p0, strs.data, ns, |ns'|, next);
        var n';
        err, n' := RemapStr(into, ns[|ns'|]);
        if err != 0 {
          assert ns == ns[..next] + ns[next..];
          SiftConcat(p0, strs.data, ns[..next], ns[next..]);
          SiftStuck(SiftAll(p0, strs.data, ns[..next]), strs.data, ns[next..]);
          return;
        }
        HomedStep(st, With(into), strs.data, ns, ns', n');
        ns' := ns' + [n'];
      }
      assert ns[..|ns'|] == ns;
    }

    /** The names of one descriptor. */
    method RemapType(into: Strset, t: BtfType) returns (err: int, t': BtfType)
      requires Filling(into) && NamesInside(t)
      modifies into
      ensures Filling(into) && (err == 0 || err == -ENOMEM)
      ensures Sift(err == 0, With(into)) == SiftAll(Sift(true, old(With(into))), strs.data, Names(t))
      ensures err == 0 ==> Renamed(With(into), strs.data, t, t')
    {
      t' := t;
      var ns;
      err, ns := RemapNames(into, Names(t));
      if err != 0 { return; }
      SetNamesOnly(t.tail, ns[1..]);
      t' := SetNames(t, ns[0], ns[1..]);
      assert Names(t') == ns;
    }

    /** The names of a descriptor stand in the strings. */
    ghost predicate NamesInside(t: BtfType)
      reads this, strs
    {
      forall i :: 0 <= i < |Names(t)| ==> Names(t)[i] < startOff + |strs.data|
    }

    /** One round of the loop over the types of this BTF. */
    method RemapNext(into: Strset, types: array<BtfType>, ghost startId: nat, id: nat, ghost next: nat, ghost g: seq<BtfType>, ghost p0: Sift) returns (err: int)
      requires Filling(into) && startId <= id < types.Length == |g| && next == id + 1 && NamesInside(g[id])
      requires Sift(true, With(into)) == SiftAll(p0, strs.data, AllNames(g[startId..id])) && RenamedUpTo(With(into), strs.data, g, types[..], startId, id)
      modifies into, types
      ensures Filling(into) && (err == 0 || err == -ENOMEM)
      ensures err == 0 ==> Sift(true, With(into)) == SiftAll(p0, strs.data, AllNames(g[startId..next])) && RenamedUpTo(With(into), strs.data, g, types[..], startId, next)
      ensures err != 0 ==> Sift(false, With(into)) == SiftAll(p0, strs.data, AllNames(g[startId..])) && StoppedAt(p0, strs.data, g, types[..], startId, id)
    {
      ghost var st, h := With(into), types[..];
      assert h[id] == g[id];
      var t';
      err, t' := RemapType(into, types[id]);
      SiftType(p0, Sift(true, st), strs.data, g, startId, id, next);
      if err != 0 { return; }
      types[id] := t';
      RenamedNext(st, With(into), strs.data, g, h, types[..], startId, id, next, t');
    }

    /** The names of all types of this BTF; those of the base are not touched. */
    method RemapTypes(into: Strset, types: array<BtfType>, startId: nat) returns (err: int)
      requires Filling(into) && startId <= types.Length && forall x :: startId <= x < types.Length ==> NamesInside(types[x])
      modifies into, types
      ensures Filling(into) && (err == 0 || err == -ENOMEM) && Grown(old(With(into)), With(into))
      ensures Sift(err == 0, With(into)) == SiftAll(Sift(true, old(With(into))), strs.data, AllNames(old(types[startId..])))
      ensures forall x :: 0 <= x < startId ==> types[x] == old(types[x])
      ensures err == 0 ==> RenamedUpTo(With(into), strs.data, old(types[..]), types[..], startId, types.Length)
      ensures err != 0 ==> Stopped(Sift(true, old(With(into))), strs.data, old(types[..]), types[..], startId)
    {
      err := 0;
      ghost var g, p0 := types[..], Sift(true, With(into));
      var id := startId;
      while id < types.Length
        invariant startId <= id <= types.Length && err == 0 && Filling(into)
        invariant Sift(true, With(into)) == SiftAll(p0, strs.data, AllNames(g[startId..id]))
        invariant RenamedUpTo(With(into), strs.data, g, types[..], startId, id)
      {
        err := RemapNext(into, types, startId, id, id + 1, g, p0);
        if err != 0 {
          SiftGrows(p0, strs.data, AllNames(g[startId..]));
          return;
        }
        id := id + 1;
      }
      assert g[startId..id] == g[startId..];
      SiftGrows(p0, strs.data, AllNames(g[startId..]));
    }

    /** The strings to begin with: the empty one, if there is no base that has it. */
    ghost function Start(): Strings
      reads base
    {
      Strings(if base == null then None else Some(base.Table()), startOff, if base == null then StrTable([0], map[[] := 0]) else StrTable([], map[]))
    }

    /** What becomes of the strings of this BTF. */
    ghost function Sifted(types: seq<BtfType>): Sift
      reads this, base, strs
    {
      SiftAll(Sift(true, Start()), strs.data, AllNames(types))
    }

    method NewSet() returns (into: Strset)
      requires Valid()
      ensures fresh(into) && Filling(into) && With(into) == Start()
    {
      into := new Strset([], BTF_MAX_STR_OFFSET);
      NothingIndexed(into);
      if base == null { var zero := into.AddStr([]); }
    }

    /** The strings that have been filled are those of a BTF. */
    lemma Filled(into: Strset)
      requires Filling(into) && Grown(Start(), With(into))
      ensures GoodStrs(into.data, base != null) && Sound(With(into))
    {
      if base == null {
        assert [] in Start().own.index;
        assert into.index[[]] == 0 && StandsAt(into.data, into.index[[]], []);
      }
    }

    lemma StartOnce()
      requires Valid()
      ensures Once(Start()) && Grown(Start(), Start())
    {
      var t := Start().own;
      if base == null {
        assert Text([0], 0) == [];
        BeginsStep([0], 0);
        assert Begins([0], 0) == {0};
        assert StandsAt([0], 0, []);
      }
      assert forall s :: s in t.index ==> s == [];
    }

    /** What is kept: no string twice, none that the base has, and, the empty one apart, none that nothing names. */
    lemma Kept(types: seq<BtfType>)
      requires Valid() && forall i :: 0 <= i < |AllNames(types)| ==> AllNames(types)[i] < startOff + |strs.data|
      ensures Once(Sifted(types).strings)
      ensures forall s :: s in Sifted(types).strings.own.index ==> s == [] || Named(startOff, strs.data, AllNames(types), s)
    {
      StartOnce();
      SiftOnce(Sift(true, Start()), strs.data, AllNames(types));
      forall s | s in Sifted(types).strings.own.index && s != [] ensures Named(startOff, strs.data, AllNames(types), s) {
        SiftNamed(Sift(true, Start()), strs.data, AllNames(types), s);
      }
    }

    /** btf_dedup_strings. */
    method Dedup(types: array<BtfType>, startId: nat) returns (err: int)
      requires Valid() && startId <= types.Length && forall x :: startId <= x < types.Length ==> NamesInside(types[x])
      modifies this, types
      ensures old(deduped) ==> err == 0 && types[..] == old(types[..]) && strs == old(strs) && deduped
      ensures !old(deduped) ==> err == if old(Sifted(types[startId..])).ok then 0 else -ENOMEM
      ensures !old(deduped) && err == 0 ==> Valid() && deduped && fresh(strs) && Sound(With(strs)) && With(strs) == old(Sifted(types[startId..])).strings
      ensures !old(deduped) && err == 0 ==> RenamedUpTo(With(strs), old(strs.data), old(types[..]), types[..], startId, types.Length)
      ensures forall x :: 0 <= x < startId ==> types[x] == old(types[x])
      ensures err != 0 ==> strs == old(strs) && !deduped
      ensures err != 0 ==> Stopped(Sift(true, Start()), strs.data, old(types[..]), types[..], startId)
    {
      if deduped { return 0; }
      var into := NewSet();
      err := RemapTypes(into, types, startId);
      if err != 0 { return; }
      Filled(into);
      strs, deduped := into, true;
    }
  }

  lemma NothingIndexed(into: Strset)
    requires into.data == [] && Indexes(into.index, [], Begins([], 0))
    ensures into.index == map[]
  {
    assert forall s :: s !in into.index;
  }

  // ----- what the names tell afterwards

  ghost predicate GoodTable(t: StrTable) { Terminated(t.data) && GoodIndex(t.index, t.data) }

  /** Strings as the pass leaves them: the empty one is at 0. */
  ghost predicate Sound(st: Strings) {
    GoodTable(st.own) &&
    match st.base
    case None => st.start == 0 && [] in st.own.index && st.own.index[[]] == 0
    case Some(b) => GoodTable(b) && st.start == |b.data| > 0 && b.data[0] == 0
  }

  function BaseData(st: Strings): seq<u8> { if st.base.None? then [] else st.base.value.data }

  /** The text that a name stands for, with these own strings after those of the base. */
  function ReadsAs(st: Strings, strs: seq<u8>, off: nat): seq<u8> { NameIn(BaseData(st), strs, off) }

  lemma AtText(st: Strings, s: seq<u8>, off: nat)
    requires Sound(st) && At(st, s, off)
    ensures off < st.start + |st.own.data| && ReadsAs(st, st.own.data, off) == s && (off < st.start <==> st.InBase(s))
  {
    if st.InBase(s) {
      assert StandsAt(st.base.value.data, st.base.value.index[s], s);
      StandingText(st.base.value.data, st.base.value.index[s], s);
    } else {
      assert StandsAt(st.own.data, st.own.index[s], s);
      StandingText(st.own.data, st.own.index[s], s);
    }
  }

  /** A name reads as it did. */
  lemma NameReads(st: Strings, strs: seq<u8>, off: u32, off': u32)
    requires Sound(st) && GoodStrs(strs, st.base.Some?) && off < st.start + |strs| && Homed(st, strs, off, off')
    ensures ReadsAs(st, st.own.data, off') == ReadsAs(st, strs, off)
  {
    if off == 0 && st.base.None? {
      AtText(st, [], 0);
    } else if off >= st.start {
      AtText(st, Text(strs, off - st.start), off');
    }
  }

  /** A name in the base is at the place where the base finds its text, or the other name is at the same place. */
  ghost predicate Told(st: Strings, strs: seq<u8>, a: u32, b: u32) {
    var s := ReadsAs(st, strs, a);
    if a < st.start && b < st.start then a == b
    else if a < st.start then st.InBase(s) && a == st.base.value.index[s]
    else if b < st.start then st.InBase(s) && b == st.base.value.index[s]
    else true
  }

  /** Two names of one text have one offset exactly if they do not meet in the base at different places. */
  lemma NamesTell(st: Strings, strs: seq<u8>, a: u32, b: u32, a': u32, b': u32)
    requires Sound(st) && GoodStrs(strs, st.base.Some?) && a < st.start + |strs| && b < st.start + |strs|
    requires Homed(st, strs, a, a') && Homed(st, strs, b, b')
    ensures a' == b' ==> ReadsAs(st, strs, a) == ReadsAs(st, strs, b)
    ensures ReadsAs(st, strs, a) == ReadsAs(st, strs, b) ==> (a' == b' <==> Told(st, strs, a, b))
  {
    NameReads(st, strs, a, a');
    NameReads(st, strs, b, b');
    OwnPlace(st, strs, a, a');
    OwnPlace(st, strs, b, b');
  }

  lemma OwnPlace(st: Strings, strs: seq<u8>, a: u32, a': u32)
    requires Sound(st) && GoodStrs(strs, st.base.Some?) && Homed(st, strs, a, a')
    ensures if a < st.start then a' == a else At(st, ReadsAs(st, strs, a), a') && (a' < st.start <==> st.InBase(ReadsAs(st, strs, a)))
  {
    if a >= st.start {
      if a == 0 { AtText(st, [], 0); } else { AtText(st, Text(strs, a - st.start), a'); }
    }
  }

  // ----- what is kept

  /** Every string of the table is there once. */
  ghost predicate OnePlace(t: StrTable) {
    GoodTable(t) && Indexes(t.index, t.data, Begins(t.data, 0)) &&
    forall o {:trigger Text(t.data, o)} :: o in Begins(t.data, 0) ==> t.index[Text(t.data, o)] == o
  }

  /** Every string is there once, and is not in the base. */
  ghost predicate Once(st: Strings) {
    OnePlace(st.own) && forall s {:trigger s in st.own.index} :: s in st.own.index ==> !st.InBase(s)
  }

  /** A string put at the end starts one place more. */
  lemma {:induction false} BeginsSnoc(data: seq<u8>, s: seq<u8>, off: nat)
    requires Terminated(data) && NoNul(s) && off <= |data|
    ensures Begins(data + s + [0], off) == Begins(data, off) + {|data|}
    decreases |data| - off
  {
    var data' := data + s + [0];
    if off == |data| {
      StandingText(data', off, s);
      BeginsStep(data', off);
    } else {
      TextStands(data, off);
      assert data' == data + (s + [0]);
      TextStable(data, s + [0], off);
      BeginsStep(data, off);
      BeginsStep(data', off);
      BeginsSnoc(data, s, off + |Text(data, off)| + 1);
    }
  }

  lemma {:induction false} BeginsWithin(data: seq<u8>, off: nat)
    ensures forall o :: o in Begins(data, off) ==> o < |data|
    decreases |data| - off
  {
    if off < |data| {
      BeginsStep(data, off);
      BeginsWithin(data, off + |Text(data, off)| + 1);
    }
  }

  /** The strings that are there start where they did and read as they did. */
  lemma TextsStay(data: seq<u8>, s: seq<u8>, o: nat)
    requires Terminated(data) && NoNul(s) && o in Begins(data, 0)
    ensures o < |data| && Text(data + s + [0], o) == Text(data, o) && o in Begins(data + s + [0], 0)
  {
    BeginsWithin(data, 0);
    BeginsSnoc(data, s, 0);
    assert data + s + [0] == data + (s + [0]);
    TextStable(data, s + [0], o);
  }

  lemma PlaceAfter(t: StrTable, s: seq<u8>, o: nat)
    requires OnePlace(t) && NoNul(s) && s !in t.index && o in Begins(t.data + s + [0], 0)
    ensures var r := Text(t.data + s + [0], o); r in t.With(s).index && t.With(s).index[r] == o
  {
    BeginsSnoc(t.data, s, 0);
    if o == |t.data| { StandingText(t.data + s + [0], o, s); } else { TextsStay(t.data, s, o); }
  }

  lemma TextAfter(t: StrTable, s: seq<u8>, r: seq<u8>)
    requires OnePlace(t) && NoNul(s) && s !in t.index && r in t.With(s).index
    ensures var o := t.With(s).index[r]; o in Begins(t.data + s + [0], 0) && Text(t.data + s + [0], o) == r
  {
    BeginsSnoc(t.data, s, 0);
    if r == s { StandingText(t.data + s + [0], |t.data|, s); } else { TextsStay(t.data, s, t.index[r]); }
  }

  lemma TableAdd(t: StrTable, s: seq<u8>)
    requires OnePlace(t) && NoNul(s) && s !in t.index
    ensures OnePlace(t.With(s))
  {
    var t' := t.With(s);
    GoodIndexGrows(t.index, t.data, s);
    forall o | o in Begins(t'.data, 0) ensures Text(t'.data, o) in t'.index && t'.index[Text(t'.data, o)] == o { PlaceAfter(t, s, o); }
    forall r | r in t'.index ensures t'.index[r] in Begins(t'.data, 0) && Text(t'.data, t'.index[r]) == r { TextAfter(t, s, r); }
  }

  lemma OnceAdd(st: Strings, s: seq<u8>)
    requires Once(st) && NoNul(s)
    ensures Once(st.Add(s))
  {
    if s !in st.own.index { TableAdd(st.own, s); }
  }

  /** Some name of this BTF stands for the string. */
  ghost predicate Named(start: nat, strs: seq<u8>, ns: seq<u32>, s: seq<u8>) {
    exists i {:trigger ns[i]} :: 0 <= i < |ns| && ns[i] >= start && Text(strs, ns[i] - start) == s
  }

  /** Whatever names there are, no string is kept twice, and none that the base has. */
  lemma {:induction false} SiftOnce(p: Sift, strs: seq<u8>, ns: seq<u32>)
    requires Once(p.strings) && Terminated(strs) && forall i :: 0 <= i < |ns| ==> ns[i] < p.strings.start + |strs|
    ensures var q := SiftAll(p, strs, ns).strings; Once(q) && q.start == p.strings.start
  {
    if ns != [] {
      var n := |ns| - 1;
      SiftOnce(p, strs, ns[..n]);
      var q := SiftAll(p, strs, ns[..n]);
      if q.ok && ns[n] != 0 && ns[n] >= q.strings.start {
        TextStands(strs, ns[n] - q.strings.start);
        OnceAdd(q.strings, Text(strs, ns[n] - q.strings.start));
      }
    }
  }

  /** And none that nothing names. */
  lemma {:induction false} SiftNamed(p: Sift, strs: seq<u8>, ns: seq<u32>, s: seq<u8>)
    requires s in SiftAll(p, strs, ns).strings.own.index
    ensures s in p.strings.own.index || Named(p.strings.start, strs, ns, s)
  {
    if ns != [] {
      var n := |ns| - 1;
      var q := SiftAll(p, strs, ns[..n]);
      SiftGrows(p, strs, ns[..n]);
      if s in q.strings.own.index {
        SiftNamed(p, strs, ns[..n], s);
        if i :| 0 <= i < n && ns[..n][i] >= p.strings.start && Text(strs, ns[..n][i] - p.strings.start) == s { assert ns[i] == ns[..n][i]; }
      } else {
        assert ns[n] >= p.strings.start;
      }
    }
  }

  // ----- a pass that stops half-way

  /** The strings x, ab and a long one. */
  function HalfData(s: seq<u8>): seq<u8> { [120, 0, 97, 98, 0] + s + [0] }

  lemma HalfTexts(s: seq<u8>)
    requires NoNul(s)
    ensures var data := HalfData(s); Terminated(data) && Text(data, 0) == [120] && Text(data, 2) == [97, 98] && Text(data, 5) == s
  {
    var data := HalfData(s);
    StandingText(data, 0, [120]);
    StandingText(data, 2, [97, 98]);
    StandingText(data, 5, s);
  }

  /** A base of one string knows no other. */
  lemma OneString(base: Strset, s: seq<u8>, r: seq<u8>)
    requires NoNul(s) && s != [] && r != [] && r != s && Indexes(base.index, [0] + s + [0], Begins([0] + s + [0], 0))
    ensures r !in base.index
  {
    var data := [0] + s + [0];
    StandingText(data, 1, s);
    BeginsStep(data, 0);
    BeginsStep(data, 1);
    assert Begins(data, 0) == {0, 1};
  }

  /** What the pass does with a type named ab and a type with the long name, on a base that has the long string only. */
  lemma HalfSifted(st: Strings, s: seq<u8>, a: BtfType, b: BtfType)
    requires NoNul(s) && 2 * |s| == BTF_MAX_STR_OFFSET + 1 && st.base.Some? && |st.base.value.data| == |s| + 2 == st.start
    requires [97, 98] !in st.base.value.index && st.own == StrTable([], map[])
    requires Names(a) == [st.start + 2] && Names(b) == [st.start + 5]
    ensures var data, p := HalfData(s), Sift(true, st);
            SiftAll(p, data, Names(a)) == Sift(true, st.(own := StrTable([97, 98, 0], map[[97, 98] := 0]))) &&
            !SiftAll(SiftAll(p, data, Names(a)), data, Names(b)).ok
  {
    HalfTexts(s);
    var p := Sift(true, st);
    assert Names(a)[..0] == [] && Names(b)[..0] == [];
    assert SiftOne(p, HalfData(s), st.start + 2) == Sift(true, st.Add([97, 98]));
  }

  lemma HalfStopped(st: Strings, s: seq<u8>, g: seq<BtfType>, h: seq<BtfType>)
    requires NoNul(s) && 2 * |s| == BTF_MAX_STR_OFFSET + 1 && st.base.Some? && |st.base.value.data| == |s| + 2 == st.start
    requires [97, 98] !in st.base.value.index && st.own == StrTable([], map[])
    requires |g| == 3 && Names(g[1]) == [st.start + 2] && Names(g[2]) == [st.start + 5]
    ensures !SiftAll(Sift(true, st), HalfData(s), AllNames(g[1..])).ok
    ensures Stopped(Sift(true, st), HalfData(s), g, h, 1) ==> |h| == 3 && h[1].nameOff == st.start
  {
    var data, p := HalfData(s), Sift(true, st);
    HalfSifted(st, s, g[1], g[2]);
    SecondFails(p, data, g);
    if k :| StoppedAt(p, data, g, h, 1, k) {
      StopsAtSecond(p, data, g, h, k);
      HalfHomed(SiftAll(p, data, Names(g[1])).strings, s, g, h);
    }
  }

  /** With two types of which the second finds no room, the pass fails, and stops there. */
  lemma SecondFails(p: Sift, strs: seq<u8>, g: seq<BtfType>)
    requires |g| == 3 && !SiftAll(SiftAll(p, strs, Names(g[1])), strs, Names(g[2])).ok
    ensures !SiftAll(p, strs, AllNames(g[1..])).ok
  {
    assert g[1..] == [g[1], g[2]];
    TwoNames(g[1], g[2]);
    SiftConcat(p, strs, Names(g[1]), Names(g[2]));
  }

  lemma StopsAtSecond(p: Sift, strs: seq<u8>, g: seq<BtfType>, h: seq<BtfType>, k: nat)
    requires |g| == 3 && SiftAll(p, strs, Names(g[1])).ok && StoppedAt(p, strs, g, h, 1, k)
    ensures RenamedUpTo(SiftAll(p, strs, Names(g[1])).strings, strs, g, h, 1, 2)
  {
    assert g[1..1] == [] && g[1..2] == [g[1]];
    TwoNames(g[1], g[2]);
  }

  lemma TwoNames(a: BtfType, b: BtfType)
    ensures AllNames([a]) == Names(a) && AllNames([a, b]) == Names(a) + Names(b)
  {
    assert [a][..0] == [] && [a, b][..1] == [a];
  }

  /** The type that was named ab has its name at the start of the strings of this BTF. */
  lemma HalfHomed(st: Strings, s: seq<u8>, g: seq<BtfType>, h: seq<BtfType>)
    requires NoNul(s) && |g| == 3 && Names(g[1]) == [st.start + 2] && st.start > 0 && RenamedUpTo(st, HalfData(s), g, h, 1, 2)
    requires st.base.Some? && [97, 98] !in st.base.value.index && st.own == StrTable([97, 98, 0], map[[97, 98] := 0])
    ensures |h| == 3 && h[1].nameOff == st.start
  {
    HalfTexts(s);
    assert Renamed(st, HalfData(s), g[1], h[1]);
    assert Homed(st, HalfData(s), Names(g[1])[0], Names(h[1])[0]);
  }

  lemma HalfNames(base: seq<u8>, s: seq<u8>)
    requires NoNul(s)
    ensures NameIn(base, HalfData(s), |base|) == [120] && NameIn(base, HalfData(s), |base| + 2) == [97, 98]
  {
    HalfTexts(s);
  }

  /** Strings and types on which the pass stops half-way. */
  ghost predicate HalfWay(sec: StrSection, types: seq<BtfType>, s: seq<u8>)
    reads sec, sec.base, sec.strs
  {
    sec.Valid() && !sec.deduped && sec.base != null && NoNul(s) && 2 * |s| == BTF_MAX_STR_OFFSET + 1 &&
    |sec.base.data| == |s| + 2 && [97, 98] !in sec.base.index && sec.strs.data == HalfData(s) &&
    |types| == 3 && types[0] == VOID && Names(types[1]) == [sec.startOff + 2] && Names(types[2]) == [sec.startOff + 5]
  }

  method HalfBuilt() returns (sec: StrSection, types: array<BtfType>, ghost s: seq<u8>)
    ensures HalfWay(sec, types[..], s) && fresh(sec) && fresh(types)
  {
    var long := LongString();
    s := long;
    var base := new Strset([0] + long + [0], BTF_MAX_STR_OFFSET);
    HalfTexts(long);
    var strs := new Strset(HalfData(long), BTF_MAX_STR_OFFSET);
    OneString(base, long, [97, 98]);
    sec := new StrSection(base, strs, false);
    types := new BtfType[3];
    var info := Info(Float, 0, false, 0, 0);
    types[0], types[1], types[2] := VOID, BtfType(sec.startOff + 2, info, 4, NoTail), BtfType(sec.startOff + 5, info, 4, NoTail);
  }

  /** A failed pass leaves the strings as they were, but a type that was named ab is named x. */
  method HalfRenamed() returns (err: int, before: seq<u8>, after: seq<u8>)
    ensures err == -ENOMEM && before == [97, 98] && after == [120]
  {
    ghost var s;
    var sec, types;
    sec, types, s := HalfBuilt();
    ghost var g, st := types[..], sec.Start();
    HalfNames(sec.base.data, s);
    assert Names(g[1])[0] == g[1].nameOff;
    before := NameIn(sec.base.data, sec.strs.data, types[1].nameOff);
    err := sec.Dedup(types, 1);
    HalfStopped(st, s, g, types[..]);
    after := NameIn(sec.base.data, sec.strs.data, types[1].nameOff);
  }
}
