/** Appending all of one BTF to another: types, with their references shifted, and the strings they name. */
module BtfAppend {
  import opened Ints
  import opened BtfTypes
  import opened BtfNames
  import opened BtfWords
  import opened BtfSection
  import opened BtfFile
  import opened Strsets
  import opened BtfBuilder
  import opened Errno
  import opened Options

  // ----- shifting references

  /** btf_rewrite_type_ids: void stays void, and every other id moves up so that id 1 becomes the first one added. */
  function Shift(r: u32, first: nat): u32 { if r == 0 then 0 else (r + first - 1) % 0x1_0000_0000 }

  /** Shift every reference of a descriptor. */
  method ShiftIds(t: BtfType, first: nat) returns (t': BtfType)
    requires WfType(t)
    ensures WfType(t') && Label(t') == Label(t) && t'.info == t.info && Shifted(Refs(t), Refs(t'), first)
  {
    t' := t;
    var n := |Refs(t)|;
    for i := 0 to n
      invariant WfType(t') && Label(t') == Label(t) && |Refs(t')| == n
      invariant forall j :: 0 <= j < n ==> Refs(t')[j] == if j < i then Shift(Refs(t)[j], first) else Refs(t)[j]
    {
      SetRefRefs(t', i, Shift(Refs(t')[i], first));
      t' := SetRef(t', i, Shift(Refs(t')[i], first));
    }
    assert Label(t').info == Label(t).info;
  }

  // ----- strings

  /** Every source offset in the cache stands, in the destination, for the text it stands for in the source. */
  ghost predicate CacheOk(cache: map<u32, u32>, srcStrs: seq<u8>, baseStrs: seq<u8>, strs: seq<u8>) {
    forall o {:trigger SameText(o, cache[o], srcStrs, baseStrs, strs)} :: o in cache ==> SameText(o, cache[o], srcStrs, baseStrs, strs)
  }

  ghost predicate SameText(o: u32, o': u32, srcStrs: seq<u8>, baseStrs: seq<u8>, strs: seq<u8>) {
    o < |srcStrs| && o' < |baseStrs| + |strs| && NameIn(baseStrs, strs, o') == Text(srcStrs, o)
  }

  lemma CacheKept(cache: map<u32, u32>, srcStrs: seq<u8>, baseStrs: seq<u8>, before: seq<u8>, after: seq<u8>)
    requires CacheOk(cache, srcStrs, baseStrs, before) && before <= after && Terminated(before)
    ensures CacheOk(cache, srcStrs, baseStrs, after)
  {
    forall o | o in cache ensures SameText(o, cache[o], srcStrs, baseStrs, after) {
      assert SameText(o, cache[o], srcStrs, baseStrs, before);
      NameKept(baseStrs, before, after, cache[o]);
    }
  }

  // ----- where the strings go

  /** Strings on the way into a destination: whether all have found room so far, what is there, and the offsets met. */
  datatype Pour = Pour(ok: bool, strings: Strings, seen: set<u32>)

  /** The string at one offset of the source: the empty one and those met before are not looked up again. */
  function PourOne(p: Pour, srcStrs: seq<u8>, off: u32): Pour {
    if !p.ok || off == 0 || off in p.seen then p
    else
      var s := Text(srcStrs, off);
      var ok := p.strings.Find(s) >= 0;
      Pour(ok, p.strings.Add(s), if ok then p.seen + {off} else p.seen)
  }

  function PourAll(p: Pour, srcStrs: seq<u8>, ns: seq<u32>): Pour {
    if ns == [] then p else PourOne(PourAll(p, srcStrs, ns[..|ns| - 1]), srcStrs, ns[|ns| - 1])
  }

  function PourType(p: Pour, srcStrs: seq<u8>, t: BtfType): Pour {
    PourAll(PourOne(p, srcStrs, t.nameOff), srcStrs, EntryNames(t.tail))
  }

  /** The strings of all types, one type after the other, until one string finds no room. */
  function PourTypes(p: Pour, srcStrs: seq<u8>, ts: seq<BtfType>): Pour {
    if ts == [] then p else PourType(PourTypes(p, srcStrs, ts[..|ts| - 1]), srcStrs, ts[|ts| - 1])
  }

  lemma PourAllNext(p: Pour, srcStrs: seq<u8>, ns: seq<u32>, i: nat, next: nat)
    requires i < |ns| && next == i + 1
    ensures PourAll(p, srcStrs, ns[..next]) == PourOne(PourAll(p, srcStrs, ns[..i]), srcStrs, ns[i])
  {
    assert ns[..next][..i] == ns[..i];
  }

  lemma PourTypesNext(p: Pour, srcStrs: seq<u8>, ts: seq<BtfType>, i: nat, next: nat)
    requires i < |ts| && next == i + 1
    ensures PourTypes(p, srcStrs, ts[..next]) == PourType(PourTypes(p, srcStrs, ts[..i]), srcStrs, ts[i])
  {
    assert ts[..next][..i] == ts[..i];
  }

  /** After a string without room nothing more happens. */
  lemma {:induction false} PourAllStuck(p: Pour, srcStrs: seq<u8>, ns: seq<u32>, i: nat)
    requires i <= |ns| && !PourAll(p, srcStrs, ns[..i]).ok
    ensures PourAll(p, srcStrs, ns) == PourAll(p, srcStrs, ns[..i])
  {
    if i == |ns| {
      assert ns[..i] == ns;
    } else {
      var short := ns[..|ns| - 1];
      assert short[..i] == ns[..i];
      PourAllStuck(p, srcStrs, short, i);
    }
  }

  lemma {:induction false} PourTypesStuck(p: Pour, srcStrs: seq<u8>, ts: seq<BtfType>, i: nat)
    requires i <= |ts| && !PourTypes(p, srcStrs, ts[..i]).ok
    ensures PourTypes(p, srcStrs, ts) == PourTypes(p, srcStrs, ts[..i])
  {
    if i == |ts| {
      assert ts[..i] == ts;
    } else {
      var short, t := ts[..|ts| - 1], ts[|ts| - 1];
      assert short[..i] == ts[..i];
      PourTypesStuck(p, srcStrs, short, i);
      assert EntryNames(t.tail)[..0] == [];
      PourAllStuck(PourTypes(p, srcStrs, short), srcStrs, EntryNames(t.tail), 0);
    }
  }

  /** Strings are only ever added, so the length of the string section tells whether any has been. */
  lemma {:induction false} PourAllGrows(p: Pour, srcStrs: seq<u8>, ns: seq<u32>)
    ensures var q := PourAll(p, srcStrs, ns); |q.strings.own.data| > |p.strings.own.data| || q.strings == p.strings
  {
    if ns != [] { PourAllGrows(p, srcStrs, ns[..|ns| - 1]); }
  }

  lemma {:induction false} PourTypesGrows(p: Pour, srcStrs: seq<u8>, ts: seq<BtfType>)
    ensures var q := PourTypes(p, srcStrs, ts); |q.strings.own.data| > |p.strings.own.data| || q.strings == p.strings
  {
    if ts != [] {
      var short, t := ts[..|ts| - 1], ts[|ts| - 1];
      PourTypesGrows(p, srcStrs, short);
      PourAllGrows(PourOne(PourTypes(p, srcStrs, short), srcStrs, t.nameOff), srcStrs, EntryNames(t.tail));
    }
  }

  /** The bytes that the names would take if each were new. */
  function NamesSize(srcStrs: seq<u8>, ns: seq<u32>): nat {
    if ns == [] then 0 else NamesSize(srcStrs, ns[..|ns| - 1]) + |Text(srcStrs, ns[|ns| - 1])| + 1
  }

  function TypesSize(srcStrs: seq<u8>, ts: seq<BtfType>): nat {
    if ts == [] then 0
    else
      var t := ts[|ts| - 1];
      TypesSize(srcStrs, ts[..|ts| - 1]) + |Text(srcStrs, t.nameOff)| + 1 + NamesSize(srcStrs, EntryNames(t.tail))
  }

  /** No base, and room for that many bytes. */
  ghost predicate Spare(st: Strings, n: nat) {
    st.base.None? && st.start == 0 && |st.own.data| + n <= BTF_MAX_STR_OFFSET &&
    forall s {:trigger st.own.index[s]} :: s in st.own.index ==> st.own.index[s] <= BTF_MAX_STR_OFFSET
  }

  lemma PourOneFits(p: Pour, srcStrs: seq<u8>, off: u32, n: nat)
    requires p.ok && Spare(p.strings, |Text(srcStrs, off)| + 1 + n)
    ensures PourOne(p, srcStrs, off).ok && Spare(PourOne(p, srcStrs, off).strings, n)
  {
  }

  lemma {:induction false} PourAllFits(p: Pour, srcStrs: seq<u8>, ns: seq<u32>, n: nat)
    requires p.ok && Spare(p.strings, NamesSize(srcStrs, ns) + n)
    ensures PourAll(p, srcStrs, ns).ok && Spare(PourAll(p, srcStrs, ns).strings, n)
  {
    if ns != [] {
      var last := ns[|ns| - 1];
      PourAllFits(p, srcStrs, ns[..|ns| - 1], |Text(srcStrs, last)| + 1 + n);
      PourOneFits(PourAll(p, srcStrs, ns[..|ns| - 1]), srcStrs, last, n);
    }
  }

  /** Without a base, all strings find room if they do so together. */
  lemma {:induction false} PourTypesFits(p: Pour, srcStrs: seq<u8>, ts: seq<BtfType>, n: nat)
    requires p.ok && Spare(p.strings, TypesSize(srcStrs, ts) + n)
    ensures PourTypes(p, srcStrs, ts).ok && Spare(PourTypes(p, srcStrs, ts).strings, n)
  {
    if ts != [] {
      var t := ts[|ts| - 1];
      var more := NamesSize(srcStrs, EntryNames(t.tail)) + n;
      PourTypesFits(p, srcStrs, ts[..|ts| - 1], |Text(srcStrs, t.nameOff)| + 1 + more);
      var q := PourTypes(p, srcStrs, ts[..|ts| - 1]);
      PourOneFits(q, srcStrs, t.nameOff, more);
      PourAllFits(PourOne(q, srcStrs, t.nameOff), srcStrs, EntryNames(t.tail), n);
    }
  }

  /** A source of two types named a and b, on strings that have room for one name of one letter and not for two. */
  lemma CutShort(st: Strings, srcStrs: seq<u8>, ts: seq<BtfType>)
    requires st.base.None? && st.start == 0 && |st.own.data| == BTF_MAX_STR_OFFSET - 2
    requires [97] !in st.own.index && [98] !in st.own.index
    requires |ts| == 2 && EntryNames(ts[0].tail) == [] && EntryNames(ts[1].tail) == [] && ts[0].nameOff != 0 && ts[1].nameOff != 0
    requires Text(srcStrs, ts[0].nameOff) == [97] && Text(srcStrs, ts[1].nameOff) == [98]
    ensures var q := PourTypes(Pour(true, st, {}), srcStrs, ts); !q.ok && |q.strings.own.data| > |st.own.data|
  {
    var a, b := ts[0], ts[1];
    var p, q := Pour(true, st, {}), Pour(true, st.Add([97]), {a.nameOff});
    assert st.Add([97]) == st.(own := st.own.With([97])) && st.own.With([97]).index.Keys == st.own.index.Keys + {[97]};
    assert PourOne(p, srcStrs, a.nameOff) == q;
    assert q.strings.Find([98]) == -ENOMEM && q.strings.Add([98]) == q.strings;
    assert b.nameOff != a.nameOff;
    var end := PourOne(q, srcStrs, b.nameOff);
    assert !end.ok && end.strings == q.strings;
    assert PourType(p, srcStrs, a) == q && PourType(q, srcStrs, b) == end;
    TwoTypes(p, srcStrs, ts);
  }

  lemma TwoTypes(p: Pour, srcStrs: seq<u8>, ts: seq<BtfType>)
    requires |ts| == 2
    ensures PourTypes(p, srcStrs, ts) == PourType(PourType(p, srcStrs, ts[0]), srcStrs, ts[1])
  {
    assert ts[..1] == [ts[0]] && [ts[0]][..0] == [];
    assert PourTypes(p, srcStrs, [ts[0]]) == PourType(p, srcStrs, ts[0]);
  }

  /** What is known after a call, with the cache as the offsets met. */
  ghost predicate PouredTo(p: Pour, dst: Builder, r: int, cache: map<u32, u32>)
    reads dst.strs, dst.base
  {
    p == Pour(r >= 0, dst.Known(), cache.Keys)
  }

  /** btf_rewrite_str: the offset in the destination of the string at an offset in the source. */
  method RewriteStr(dst: Builder, srcStrs: seq<u8>, off: u32, cache: map<u32, u32>) returns (r: int, off': u32, cache': map<u32, u32>)
    requires dst.Names() && GoodStrs(srcStrs, false) && off < |srcStrs| && CacheOk(cache, srcStrs, dst.BaseStrs(), dst.strs.data)
    modifies dst`hdr, dst.strs
    ensures dst.Names() && old(dst.strs.data) <= dst.strs.data && dst.hdr == old(dst.hdr).(strLen := |dst.strs.data|)
    ensures dst.BaseStrs() == old(dst.BaseStrs()) && CacheOk(cache', srcStrs, dst.BaseStrs(), dst.strs.data)
    ensures if r < 0 then dst.base == null ==> r == -ENOMEM else r == 0 && SameText(off, off', srcStrs, dst.BaseStrs(), dst.strs.data)
    ensures r == 0 && off == 0 ==> off' == 0
    ensures PouredTo(PourOne(Pour(true, old(dst.Known()), cache.Keys), srcStrs, off), dst, r, cache')
  {
    r, off', cache' := 0, 0, cache;
    if off == 0 { return; }
    if off in cache {
      off' := cache[off];
      return;
    }
    TextStands(srcStrs, off);
    ghost var was := dst.strs.data;
    if dst.base == null { dst.StrRoom(Text(srcStrs, off)); }
    r := dst.AddStr(Text(srcStrs, off));
    CacheKept(cache, srcStrs, dst.BaseStrs(), was, dst.strs.data);
    if r < 0 { return; }
    off' := r;
    cache' := cache[off := off'];
    r := 0;
  }

  /** The names of one descriptor stand for the same texts as those of the other. */
  ghost predicate SameNames(t: BtfType, t': BtfType, srcStrs: seq<u8>, baseStrs: seq<u8>, strs: seq<u8>) {
    SameText(t.nameOff, t'.nameOff, srcStrs, baseStrs, strs) &&
    AllSameText(EntryNames(t.tail), EntryNames(t'.tail), srcStrs, baseStrs, strs)
  }

  ghost predicate AllSameText(ns: seq<u32>, ns': seq<u32>, srcStrs: seq<u8>, baseStrs: seq<u8>, strs: seq<u8>) {
    |ns'| == |ns| && forall i {:trigger SameText(ns[i], ns'[i], srcStrs, baseStrs, strs)} :: 0 <= i < |ns| ==> SameText(ns[i], ns'[i], srcStrs, baseStrs, strs)
  }

  lemma AllSameKept(ns: seq<u32>, ns': seq<u32>, srcStrs: seq<u8>, baseStrs: seq<u8>, before: seq<u8>, after: seq<u8>)
    requires AllSameText(ns, ns', srcStrs, baseStrs, before) && before <= after && Terminated(before)
    ensures AllSameText(ns, ns', srcStrs, baseStrs, after)
  {
    forall i | 0 <= i < |ns| ensures SameText(ns[i], ns'[i], srcStrs, baseStrs, after) {
      assert SameText(ns[i], ns'[i], srcStrs, baseStrs, before);
      NameKept(baseStrs, before, after, ns'[i]);
    }
  }

  lemma AllSameStep(ns: seq<u32>, ns': seq<u32>, n: u32, srcStrs: seq<u8>, baseStrs: seq<u8>, before: seq<u8>, after: seq<u8>)
    requires |ns'| < |ns| && AllSameText(ns[..|ns'|], ns', srcStrs, baseStrs, before) && before <= after && Terminated(before)
    requires SameText(ns[|ns'|], n, srcStrs, baseStrs, after)
    ensures AllSameText(ns[..|ns'| + 1], ns' + [n], srcStrs, baseStrs, after)
  {
    AllSameKept(ns[..|ns'|], ns', srcStrs, baseStrs, before, after);
    var a, b := ns[..|ns'| + 1], ns' + [n];
    forall i | 0 <= i < |a| ensures SameText(a[i], b[i], srcStrs, baseStrs, after) {
      if i < |ns'| { assert SameText(ns[..|ns'|][i], ns'[i], srcStrs, baseStrs, after); }
    }
  }

  /** btf_type_visit_str_offs with btf_rewrite_str: every string offset of a descriptor, in order. */
  method RewriteNames(dst: Builder, srcStrs: seq<u8>, t: BtfType, cache: map<u32, u32>) returns (r: int, t': BtfType, cache': map<u32, u32>)
    requires dst.Names() && GoodStrs(srcStrs, false) && NamesIn(t, srcStrs) && CacheOk(cache, srcStrs, dst.BaseStrs(), dst.strs.data)
    modifies dst`hdr, dst.strs
    ensures dst.Names() && old(dst.strs.data) <= dst.strs.data && dst.hdr == old(dst.hdr).(strLen := |dst.strs.data|)
    ensures dst.BaseStrs() == old(dst.BaseStrs()) && CacheOk(cache', srcStrs, dst.BaseStrs(), dst.strs.data)
    ensures if r < 0 then dst.base == null ==> r == -ENOMEM
            else r == 0 && |EntryNames(t'.tail)| == |EntryNames(t.tail)| && t' == SetNames(t, t'.nameOff, EntryNames(t'.tail)) &&
                 SameNames(t, t', srcStrs, dst.BaseStrs(), dst.strs.data)
    ensures PouredTo(PourType(Pour(true, old(dst.Known()), cache.Keys), srcStrs, t), dst, r, cache')
  {
    t' := t;
    ghost var p0 := Pour(true, dst.Known(), cache.Keys);
    var n;
    r, n, cache' := RewriteStr(dst, srcStrs, t.nameOff, cache);
    if r < 0 {
      assert EntryNames(t.tail)[..0] == [];
      PourAllStuck(PourOne(p0, srcStrs, t.nameOff), srcStrs, EntryNames(t.tail), 0);
      return;
    }
    ghost var was := dst.strs.data;
    var ns;
    r, ns, cache' := RewriteEntries(dst, srcStrs, EntryNames(t.tail), cache');
    if r < 0 { return; }
    NameKept(dst.BaseStrs(), was, dst.strs.data, n);
    SetNamesOnly(t.tail, ns);
    t' := SetNames(t, n, ns);
  }

  /** The string offsets of the entries. */
  method RewriteEntries(dst: Builder, srcStrs: seq<u8>, ns: seq<u32>, cache: map<u32, u32>) returns (r: int, ns': seq<u32>, cache': map<u32, u32>)
    requires dst.Names() && GoodStrs(srcStrs, false) && AllIn(ns, srcStrs) && CacheOk(cache, srcStrs, dst.BaseStrs(), dst.strs.data)
    modifies dst`hdr, dst.strs
    ensures dst.Names() && old(dst.strs.data) <= dst.strs.data && dst.hdr == old(dst.hdr).(strLen := |dst.strs.data|)
    ensures dst.BaseStrs() == old(dst.BaseStrs()) && CacheOk(cache', srcStrs, dst.BaseStrs(), dst.strs.data)
    ensures if r < 0 then dst.base == null ==> r == -ENOMEM else r == 0 && AllSameText(ns, ns', srcStrs, dst.BaseStrs(), dst.strs.data)
    ensures PouredTo(PourAll(Pour(true, old(dst.Known()), cache.Keys), srcStrs, ns), dst, r, cache')
  {
    r, ns', cache' := 0, [], cache;
    ghost var p0 := Pour(true, dst.Known(), cache.Keys);
    while |ns'| < |ns|
      invariant |ns'| <= |ns| && r == 0
      invariant dst.Names() && old(dst.strs.data) <= dst.strs.data && dst.hdr == old(dst.hdr).(strLen := |dst.strs.data|)
      invariant dst.BaseStrs() == old(dst.BaseStrs()) && CacheOk(cache', srcStrs, dst.BaseStrs(), dst.strs.data)
      invariant AllSameText(ns[..|ns'|], ns', srcStrs, dst.BaseStrs(), dst.strs.data)
      invariant PouredTo(PourAll(p0, srcStrs, ns[..|ns'|]), dst, r, cache')
    {
      ghost var was := dst.strs.data;
      ghost var next := |ns'| + 1;
      PourAllNext(p0, srcStrs, ns, |ns'|, next);
      var off';
      r, off', cache' := RewriteStr(dst, srcStrs, ns[|ns'|], cache');
      if r < 0 {
        PourAllStuck(p0, srcStrs, ns, next);
        return;
      }
      AllSameStep(ns, ns', off', srcStrs, dst.BaseStrs(), was, dst.strs.data);
      ns' := ns' + [off'];
    }
    assert ns[..|ns'|] == ns;
  }

  /** The string offsets of a descriptor lie in the string section. */
  predicate NamesIn(t: BtfType, strs: seq<u8>) { t.nameOff < |strs| && AllIn(EntryNames(t.tail), strs) }

  predicate AllNamesIn(ts: seq<BtfType>, strs: seq<u8>) {
    forall i {:trigger NamesIn(ts[i], strs)} :: 0 <= i < |ts| ==> NamesIn(ts[i], strs)
  }

  predicate AllIn(ns: seq<u32>, strs: seq<u8>) { forall i :: 0 <= i < |ns| ==> ns[i] < |strs| }

  // ----- the descriptors

  /**
   * What becomes of a descriptor: its names stand for the same texts, its references are shifted, and everything
   * else is as it was.
   */
  ghost predicate Embedded(t: BtfType, t': BtfType, first: nat, srcStrs: seq<u8>, baseStrs: seq<u8>, strs: seq<u8>) {
    |EntryNames(t'.tail)| == |EntryNames(t.tail)| && Label(t') == Label(SetNames(t, t'.nameOff, EntryNames(t'.tail))) &&
    SameNames(t, t', srcStrs, baseStrs, strs) && Shifted(Refs(t), Refs(t'), first)
  }

  predicate Shifted(rs: seq<u32>, rs': seq<u32>, first: nat) {
    |rs'| == |rs| && forall i :: 0 <= i < |rs| ==> rs'[i] == Shift(rs[i], first)
  }

  lemma EmbeddedKept(t: BtfType, t': BtfType, first: nat, srcStrs: seq<u8>, baseStrs: seq<u8>, before: seq<u8>, after: seq<u8>)
    requires Embedded(t, t', first, srcStrs, baseStrs, before) && before <= after && Terminated(before)
    ensures Embedded(t, t', first, srcStrs, baseStrs, after)
  {
    NameKept(baseStrs, before, after, t'.nameOff);
    AllSameKept(EntryNames(t.tail), EntryNames(t'.tail), srcStrs, baseStrs, before, after);
  }

  /** Rewrite one descriptor: first its strings, then its references. */
  method RewriteType(dst: Builder, srcStrs: seq<u8>, t: BtfType, first: nat, cache: map<u32, u32>) returns (r: int, t': BtfType, cache': map<u32, u32>)
    requires dst.Names() && GoodStrs(srcStrs, false) && NamesIn(t, srcStrs) && CacheOk(cache, srcStrs, dst.BaseStrs(), dst.strs.data)
    requires Storable(t)
    modifies dst`hdr, dst.strs
    ensures dst.Names() && old(dst.strs.data) <= dst.strs.data && dst.hdr == old(dst.hdr).(strLen := |dst.strs.data|)
    ensures dst.BaseStrs() == old(dst.BaseStrs()) && CacheOk(cache', srcStrs, dst.BaseStrs(), dst.strs.data)
    ensures if r < 0 then dst.base == null ==> r == -ENOMEM
            else r == 0 && Embedded(t, t', first, srcStrs, dst.BaseStrs(), dst.strs.data) && Storable(t') && t'.info == t.info
    ensures PouredTo(PourType(Pour(true, old(dst.Known()), cache.Keys), srcStrs, t), dst, r, cache')
  {
    r, t', cache' := RewriteNames(dst, srcStrs, t, cache);
    if r < 0 { return; }
    var named := t';
    SetNamesRefs(t, named.nameOff, EntryNames(named.tail));
    t' := ShiftIds(named, first);
    LabelNames(named, t');
  }

  // ----- the whole

  /** The positions at which a source type has not become what it should. */
  ghost function Misfits(src: seq<BtfType>, done: seq<BtfType>, first: nat, srcStrs: seq<u8>, baseStrs: seq<u8>, strs: seq<u8>): set<nat> {
    set i: nat | i < |done| && (i >= |src| || !Embedded(src[i], done[i], first, srcStrs, baseStrs, strs))
  }

  lemma EmbeddedAt(src: seq<BtfType>, done: seq<BtfType>, first: nat, srcStrs: seq<u8>, baseStrs: seq<u8>, strs: seq<u8>, i: nat)
    requires Misfits(src, done, first, srcStrs, baseStrs, strs) == {} && i < |done|
    ensures i < |src| && Embedded(src[i], done[i], first, srcStrs, baseStrs, strs)
  {
    assert i !in Misfits(src, done, first, srcStrs, baseStrs, strs);
  }

  /**
   * References commute with the embedding: where a source type refers to a source type, what it has become refers
   * to what that type has become.
   */
  lemma EdgeKept(src: seq<BtfType>, added: seq<BtfType>, first: nat, srcStrs: seq<u8>, baseStrs: seq<u8>, strs: seq<u8>, i: nat, j: nat, r: nat)
    requires |added| == |src| && Misfits(src, added, first, srcStrs, baseStrs, strs) == {} && 1 <= first && first + |src| <= 0x1_0000_0000
    requires i < |src| && j < |Refs(src[i])| && Refs(src[i])[j] == r + 1 <= |src|
    ensures j < |Refs(added[i])| && Refs(added[i])[j] == first + r
    ensures Embedded(src[r], added[r], first, srcStrs, baseStrs, strs)
  {
    EmbeddedAt(src, added, first, srcStrs, baseStrs, strs, r);
    assert Shifted(Refs(src[i]), Refs(added[i]), first) by { EmbeddedAt(src, added, first, srcStrs, baseStrs, strs, i); }
    ShiftWithin(Refs(src[i])[j], first, r);
  }

  lemma ShiftWithin(id: u32, first: nat, r: nat)
    requires 1 <= first && first + r < 0x1_0000_0000 && id == r + 1
    ensures Shift(id, first) == first + r
  {
  }

  lemma MisfitsStep(src: seq<BtfType>, done: seq<BtfType>, t': BtfType, first: nat, srcStrs: seq<u8>, baseStrs: seq<u8>, before: seq<u8>, after: seq<u8>)
    requires Misfits(src, done, first, srcStrs, baseStrs, before) == {} && before <= after && Terminated(before)
    requires |done| < |src| && Embedded(src[|done|], t', first, srcStrs, baseStrs, after)
    ensures Misfits(src, done + [t'], first, srcStrs, baseStrs, after) == {}
  {
    forall i: nat | i < |done| ensures Embedded(src[i], done[i], first, srcStrs, baseStrs, after) {
      EmbeddedAt(src, done, first, srcStrs, baseStrs, before, i);
      EmbeddedKept(src[i], done[i], first, srcStrs, baseStrs, before, after);
    }
  }

  /** What becomes of the strings of a source, before the call. */
  ghost function Pouring(dst: Builder, srcStrs: seq<u8>, ts: seq<BtfType>): Pour
    reads dst.strs, dst.base
  {
    PourTypes(Pour(true, dst.Known(), {}), srcStrs, ts)
  }

  /** The types cannot even be copied. */
  ghost predicate NoRoomFor(dst: Builder, src: Builder)
    reads dst, src
  {
    src.base != null || dst.hdr.typeLen + src.hdr.typeLen > UINT_MAX
  }

  /**
   * btf__add_btf: the types of a BTF without base are appended to another. What was there is unchanged; source type
   * i becomes the returned id plus i - 1, with its references shifted alike and its names standing for the same texts.
   * If a string finds no room the call cleans up through a null pointer; fault says that it writes there, which it
   * does exactly if a string has been added before.
   */
  method AddBtf(dst: Builder, src: Builder) returns (r: int, fault: bool, ghost added: seq<BtfType>)
    requires dst.Valid() && src.Valid() && src != dst && src.strs != dst.strs && src.base != dst.strs && dst.base != src.strs
    requires src.startId == 1 && AllNamesIn(src.ts, src.strs.data)
    modifies dst, dst.strs
    ensures src.base != null ==> r == -ENOTSUP
    ensures src.base == null && old(NoRoomFor(dst, src)) ==> r == -ENOMEM
    ensures r < 0 && src.base == null && dst.base == null ==> r == -ENOMEM
    ensures r >= 0 <==> !old(NoRoomFor(dst, src)) && old(Pouring(dst, src.strs.data, src.ts)).ok
    ensures r >= 0 ==> dst.Valid() && r == dst.startId + |old(dst.ts)| && dst.ts == old(dst.ts) + added && |added| == |src.ts|
    ensures r >= 0 ==> Misfits(src.ts, added, r, src.strs.data, dst.BaseStrs(), dst.strs.data) == {}
    ensures r >= 0 ==> old(dst.strs.data) <= dst.strs.data && dst.Known() == old(Pouring(dst, src.strs.data, src.ts)).strings
    ensures r < 0 ==> dst.ts == old(dst.ts) && dst.types == old(dst.types) && dst.offs == old(dst.offs)
    ensures r < 0 && !fault ==> dst.Valid() && dst.hdr == old(dst.hdr) && dst.Known() == old(dst.Known())
    ensures fault <==> r < 0 && !old(NoRoomFor(dst, src)) && |old(Pouring(dst, src.strs.data, src.ts)).strings.own.data| > |old(dst.strs.data)|
  {
    fault, added := false, [];
    if src.base != null { return -ENOTSUP, fault, added; }
    if dst.hdr.typeLen + src.hdr.typeLen > UINT_MAX { return -ENOMEM, fault, added; }
    r, fault, added := AddTypes(dst, src.types, src.strs.data, src.ts);
  }

  /** A string of some letters c. */
  function Cs(n: nat): (s: seq<u8>)
    ensures |s| == n && NoNul(s) && 97 !in s && 98 !in s
  {
    seq(n, _ => 99)
  }

  /** Strings without the letter do not know its name. */
  lemma LetterUnknown(index: map<seq<u8>, nat>, data: seq<u8>, c: u8)
    requires GoodIndex(index, data) && c !in data
    ensures [c] !in index
  {
    if [c] in index { LetterThere(data, index[[c]], c); }
  }

  lemma LetterThere(data: seq<u8>, off: nat, c: u8)
    requires StandsAt(data, off, [c])
    ensures c in data
  {
    assert data[off..off + 1][0] == data[off];
  }

  lemma LongUnknown(index: map<seq<u8>, nat>, data: seq<u8>, s: seq<u8>)
    requires GoodIndex(index, data) && |s| >= |data|
    ensures s !in index
  {
    assert s in index ==> StandsAt(data, index[s], s);
  }

  /** A destination whose strings have room for three bytes more. */
  method NearlyFull() returns (dst: Builder)
    ensures dst.Valid() && fresh(dst.Repr()) && dst.base == null && dst.ts == [] && |dst.strs.data| == BTF_MAX_STR_OFFSET - 2
    ensures [97] !in dst.strs.index && [98] !in dst.strs.index
  {
    dst := new Builder();
    var s := Cs(BTF_MAX_STR_OFFSET - 4);
    ghost var st := dst.Known();
    LongUnknown(st.own.index, st.own.data, s);
    var r := dst.AddStr(s);
    assert dst.strs.data == [0] + s + [0] by { assert dst.Known() == st.Add(s); }
    LetterUnknown(dst.strs.index, dst.strs.data, 97);
    LetterUnknown(dst.strs.index, dst.strs.data, 98);
  }

  /** A forward declaration of one letter always finds room in a small BTF. */
  method AddLetter(b: Builder, c: u8)
    requires b.Valid() && b.base == null && c != 0 && b.hdr.typeLen <= 100 && |b.strs.data| <= 100
    modifies b, b.strs
    ensures b.Valid() && |b.ts| == |old(b.ts)| + 1 && b.ts[..|old(b.ts)|] == old(b.ts) && b.hdr.typeLen == old(b.hdr).typeLen + 12
    ensures EntryNames(b.ts[|old(b.ts)|].tail) == [] && Text(b.strs.data, b.ts[|old(b.ts)|].nameOff) == [c]
    ensures old(b.strs.data) <= b.strs.data && |b.strs.data| <= |old(b.strs.data)| + 2
  {
    ghost var was := b.ts;
    b.StrRoom([c]);
    var r := b.AddFwd([c], FwdStruct);
    ForwardMore(was, b.ts);
  }

  /** A forward declaration takes three words. */
  lemma ForwardMore(before: seq<BtfType>, after: seq<BtfType>)
    requires Appended(before, after, Info(Fwd, 0, false, 0, 0), 0, NoTail)
    ensures |Section(after)| == |Section(before)| + 3 && EntryNames(after[|before|].tail) == []
  {
    var t := after[|before|];
    assert after == before + [t];
    SectionSnoc(before, t);
    WordsSize(t);
  }

  method TwoForwards() returns (src: Builder)
    ensures src.Valid() && fresh(src.Repr()) && src.base == null && src.startId == 1 && src.hdr.typeLen <= 100 && |src.ts| == 2
    ensures EntryNames(src.ts[0].tail) == [] && EntryNames(src.ts[1].tail) == []
    ensures Text(src.strs.data, src.ts[0].nameOff) == [97] && Text(src.strs.data, src.ts[1].nameOff) == [98]
  {
    src := new Builder();
    AddLetter(src, 97);
    ghost var t, before := src.ts[0], src.strs.data;
    AddLetter(src, 98);
    assert src.ts[..1] == [t];
    NameKept([], before, src.strs.data, t.nameOff);
  }

  /** What reads as a letter is in the strings, and not at their start. */
  lemma LettersStand(strs: seq<u8>, ts: seq<BtfType>)
    requires GoodStrs(strs, false) && |ts| == 2 && EntryNames(ts[0].tail) == [] && EntryNames(ts[1].tail) == []
    requires Text(strs, ts[0].nameOff) == [97] && Text(strs, ts[1].nameOff) == [98]
    ensures ts[0].nameOff != 0 && ts[1].nameOff != 0 && AllNamesIn(ts, strs)
  {
    assert strs[0] == 0 && Text(strs, 0) == [];
    forall i | 0 <= i < |ts| ensures NamesIn(ts[i], strs) {}
  }

  /** A call that writes through the null pointer. */
  method WriteThroughNull() returns (fault: bool)
    ensures fault
  {
    var dst := NearlyFull();
    var src := TwoForwards();
    LettersStand(src.strs.data, src.ts);
    CutShort(dst.Known(), src.strs.data, src.ts);
    var r;
    ghost var added;
    r, fault, added := AddBtf(dst, src);
  }

  /** btf__add_btf after its checks. */
  method AddTypes(dst: Builder, src: seq<u32>, srcStrs: seq<u8>, ghost srcTs: seq<BtfType>)
    returns (r: int, fault: bool, ghost added: seq<BtfType>)
    requires dst.Valid() && AllStorable(srcTs) && src == Section(srcTs) && GoodStrs(srcStrs, false)
    requires AllNamesIn(srcTs, srcStrs)
    requires dst.hdr.typeLen + 4 * |src| <= UINT_MAX
    modifies dst, dst.strs
    ensures r < 0 && dst.base == null ==> r == -ENOMEM
    ensures r >= 0 <==> old(Pouring(dst, srcStrs, srcTs)).ok
    ensures r >= 0 ==> dst.Valid() && r == dst.startId + |old(dst.ts)| && dst.ts == old(dst.ts) + added && |added| == |srcTs|
    ensures r >= 0 ==> Misfits(srcTs, added, r, srcStrs, dst.BaseStrs(), dst.strs.data) == {}
    ensures r >= 0 ==> old(dst.strs.data) <= dst.strs.data && dst.Known() == old(Pouring(dst, srcStrs, srcTs)).strings
    ensures r < 0 ==> dst.ts == old(dst.ts) && dst.types == old(dst.types) && dst.offs == old(dst.offs)
    ensures r < 0 && !fault ==> dst.Valid() && dst.hdr == old(dst.hdr) && dst.Known() == old(dst.Known())
    ensures fault <==> r < 0 && |old(Pouring(dst, srcStrs, srcTs)).strings.own.data| > |old(dst.strs.data)|
  {
    ghost var was, p0 := dst.ts, Pour(true, dst.Known(), {});
    var first := dst.startId + dst.nrTypes;
    var oldHdr := dst.hdr;
    var words, offs;
    fault := false;
    PourTypesGrows(p0, srcStrs, srcTs);
    r, words, offs, added := RewriteAll(dst, src, srcStrs, first, dst.types, dst.offs, dst.ts, srcTs);
    if r < 0 {
      // memset through the null pointer, of as many bytes as have been added
      if dst.hdr.strLen > oldHdr.strLen { return r, true, added; }
      dst.hdr := dst.hdr.(strLen := oldHdr.strLen);
      return;
    }
    Install(dst, words, offs, was + added);
    r := first;
  }

  /** Put the longer section in place. */
  method Install(dst: Builder, words: seq<u32>, offs: seq<nat>, ghost ts: seq<BtfType>)
    requires dst.Names() && dst.startId >= 1 && Holds(words, offs, |offs|, ts) && 4 * |words| <= UINT_MAX
    requires Describes(dst.hdr, dst.hdr.typeLen, dst.hdr.strLen)
    modifies dst
    ensures dst.Valid() && dst.ts == ts && dst.BaseStrs() == old(dst.BaseStrs()) && dst.Known() == old(dst.Known())
  {
    assert dst.strs.Valid();
    dst.hdr := dst.hdr.(typeLen := 4 * |words|, strOff := 4 * |words|);
    dst.types, dst.offs, dst.nrTypes, dst.ts := words, offs, |offs|, ts;
  }

  /** What has been read, and what has been written behind what was there. */
  ghost predicate Progress(srcTs: seq<BtfType>, done: seq<BtfType>, p: nat, words: seq<u32>, offs: seq<nat>, before: seq<BtfType>) {
    |done| <= |srcTs| && p == Begin(srcTs, |done|) && Holds(words, offs, |offs|, before + done) && |words| == |Section(before)| + p
  }

  lemma ProgressStep(srcTs: seq<BtfType>, done: seq<BtfType>, p: nat, words: seq<u32>, offs: seq<nat>, before: seq<BtfType>, t: BtfType, n: nat)
    requires Progress(srcTs, done, p, words, offs, before) && |done| < |srcTs| && n == |Words(srcTs[|done|])|
    requires Storable(t) && t.info == srcTs[|done|].info && Storable(srcTs[|done|])
    ensures Progress(srcTs, done + [t], p + n, words + Words(t), offs + [4 * |words|], before)
  {
    WordsSize(t);
    WordsSize(srcTs[|done|]);
    BeginNext(srcTs, |done|, |done| + 1, t);
    HoldsNext(words, offs, before, done, t, words + Words(t), offs + [4 * |words|], done + [t]);
  }

  /** Where the next descriptor starts, told by one with the same info word. */
  lemma BeginNext(ts: seq<BtfType>, i: nat, next: nat, t: BtfType)
    requires i < |ts| && next == i + 1 && Storable(t) && t.info == ts[i].info && Storable(ts[i])
    ensures Begin(ts, next) == Begin(ts, i) + |Words(t)|
  {
    WordsSize(t);
    WordsSize(ts[i]);
    OffsetStep(ts, i);
  }

  lemma HoldsNext(words: seq<u32>, offs: seq<nat>, before: seq<BtfType>, done: seq<BtfType>, t: BtfType,
                  words': seq<u32>, offs': seq<nat>, done': seq<BtfType>)
    requires Holds(words, offs, |offs|, before + done) && Storable(t)
    requires words' == words + Words(t) && offs' == offs + [4 * |words|] && done' == done + [t]
    ensures Holds(words', offs', |offs'|, before + done')
  {
    HoldsSnoc(words, offs, before + done, t);
    assert (before + done) + [t] == before + done';
  }

  /**
   * The loop of btf__add_btf: copy and rewrite the source types one after the other, behind those that are there,
   * which words and offs start with.
   */
  method RewriteAll(dst: Builder, src: seq<u32>, srcStrs: seq<u8>, first: nat, words0: seq<u32>, offs0: seq<nat>,
                    ghost before: seq<BtfType>, ghost srcTs: seq<BtfType>)
    returns (r: int, words: seq<u32>, offs: seq<nat>, ghost done: seq<BtfType>)
    requires dst.Names() && AllStorable(srcTs) && src == Section(srcTs) && GoodStrs(srcStrs, false)
    requires Holds(words0, offs0, |offs0|, before) && AllNamesIn(srcTs, srcStrs)
    modifies dst`hdr, dst.strs
    ensures dst.Names() && old(dst.strs.data) <= dst.strs.data && dst.hdr == old(dst.hdr).(strLen := |dst.strs.data|)
    ensures dst.BaseStrs() == old(dst.BaseStrs())
    ensures if r < 0 then dst.base == null ==> r == -ENOMEM
            else r == 0 && |done| == |srcTs| && Misfits(srcTs, done, first, srcStrs, dst.BaseStrs(), dst.strs.data) == {} &&
                 Holds(words, offs, |offs|, before + done) && |words| == |words0| + |src|
    ensures var p := old(Pouring(dst, srcStrs, srcTs)); p.ok == (r >= 0) && p.strings == dst.Known()
  {
    r, words, offs, done := 0, words0, offs0, [];
    ghost var p0 := Pour(true, dst.Known(), {});
    var p, cache := 0, map[];
    WrittenStart(srcTs, p, words, offs, before, first, srcStrs, dst.BaseStrs(), dst.strs.data);
    while p < |src|
      invariant r == 0 && p <= |src| && |done| <= |srcTs| && WellWritten(Written(done, p, words, offs), srcTs, before, first, srcStrs, dst.BaseStrs(), dst.strs.data)
      invariant dst.Names() && old(dst.strs.data) <= dst.strs.data && dst.hdr == old(dst.hdr).(strLen := |dst.strs.data|)
      invariant dst.BaseStrs() == old(dst.BaseStrs()) && CacheOk(cache, srcStrs, dst.BaseStrs(), dst.strs.data)
      invariant PouredTo(PourTypes(p0, srcStrs, srcTs[..|done|]), dst, r, cache)
      decreases |src| - p
    {
      r, p, words, offs, cache, done := RewriteNext(dst, src, srcStrs, first, p, words, offs, cache, done, p0, before, srcTs);
      if r < 0 { return; }
    }
    WrittenEnd(srcTs, done, p, words, offs, before, first, srcStrs, dst.BaseStrs(), dst.strs.data);
  }

  /** What the loop of btf__add_btf has done: the types written, the place read up to, and the new section. */
  datatype Written = Written(done: seq<BtfType>, p: nat, words: seq<u32>, offs: seq<nat>)

  /** All source types before the place have been read, and written as they should. */
  ghost predicate WellWritten(w: Written, srcTs: seq<BtfType>, before: seq<BtfType>, first: nat, srcStrs: seq<u8>, baseStrs: seq<u8>, strs: seq<u8>) {
    match w
    case Written(done, p, words, offs) =>
      Progress(srcTs, done, p, words, offs, before) && Misfits(srcTs, done, first, srcStrs, baseStrs, strs) == {}
  }

  lemma WrittenStart(srcTs: seq<BtfType>, p: nat, words: seq<u32>, offs: seq<nat>, before: seq<BtfType>,
                     first: nat, srcStrs: seq<u8>, baseStrs: seq<u8>, strs: seq<u8>)
    requires p == 0 && Holds(words, offs, |offs|, before)
    ensures WellWritten(Written([], p, words, offs), srcTs, before, first, srcStrs, baseStrs, strs) && srcTs[..0] == []
  {
    assert before + [] == before;
  }

  lemma WrittenStep(srcTs: seq<BtfType>, done: seq<BtfType>, p: nat, words: seq<u32>, offs: seq<nat>, before: seq<BtfType>,
                    first: nat, srcStrs: seq<u8>, baseStrs: seq<u8>, strs0: seq<u8>, strs: seq<u8>, t: BtfType, n: nat,
                    words': seq<u32>, offs': seq<nat>, p': nat, done': seq<BtfType>)
    requires WellWritten(Written(done, p, words, offs), srcTs, before, first, srcStrs, baseStrs, strs0) && strs0 <= strs && Terminated(strs0)
    requires |done| < |srcTs| && Storable(srcTs[|done|]) && n == |Words(srcTs[|done|])| && Storable(t) && t.info == srcTs[|done|].info
    requires Embedded(srcTs[|done|], t, first, srcStrs, baseStrs, strs)
    requires words' == words + Words(t) && offs' == offs + [4 * |words|] && p' == p + n && done' == done + [t]
    ensures WellWritten(Written(done', p', words', offs'), srcTs, before, first, srcStrs, baseStrs, strs)
    ensures |done'| == |done| + 1 <= |srcTs|
  {
    MisfitsStep(srcTs, done, t, first, srcStrs, baseStrs, strs0, strs);
    ProgressStep(srcTs, done, p, words, offs, before, t, n);
  }

  lemma WrittenEnd(srcTs: seq<BtfType>, done: seq<BtfType>, p: nat, words: seq<u32>, offs: seq<nat>, before: seq<BtfType>,
                   first: nat, srcStrs: seq<u8>, baseStrs: seq<u8>, strs: seq<u8>)
    requires WellWritten(Written(done, p, words, offs), srcTs, before, first, srcStrs, baseStrs, strs)
    requires AllStorable(srcTs) && p >= |Section(srcTs)|
    ensures |done| == |srcTs| && Misfits(srcTs, done, first, srcStrs, baseStrs, strs) == {}
    ensures Holds(words, offs, |offs|, before + done) && srcTs[..|done|] == srcTs && |words| == |Section(before)| + |Section(srcTs)|
  {
    AllRead(srcTs, |done|);
    assert srcTs[..|srcTs|] == srcTs;
  }

  /** Read one source type, and rewrite it. */
  method RewriteOne(dst: Builder, src: seq<u32>, srcStrs: seq<u8>, first: nat, p: nat, cache: map<u32, u32>,
                    ghost p0: Pour, ghost srcTs: seq<BtfType>, ghost i: nat, ghost next: nat)
    returns (r: int, t': BtfType, n: nat, cache': map<u32, u32>)
    requires dst.Names() && GoodStrs(srcStrs, false) && CacheOk(cache, srcStrs, dst.BaseStrs(), dst.strs.data)
    requires AllStorable(srcTs) && src == Section(srcTs) && AllNamesIn(srcTs, srcStrs)
    requires i <= |srcTs| && next == i + 1 && p == Begin(srcTs, i) && p < |src| && PouredTo(PourTypes(p0, srcStrs, srcTs[..i]), dst, 0, cache)
    modifies dst`hdr, dst.strs
    ensures dst.Names() && old(dst.strs.data) <= dst.strs.data && dst.hdr == old(dst.hdr).(strLen := |dst.strs.data|)
    ensures dst.BaseStrs() == old(dst.BaseStrs()) && CacheOk(cache', srcStrs, dst.BaseStrs(), dst.strs.data)
    ensures i < |srcTs| && Storable(srcTs[i]) && n == |Words(srcTs[i])| > 0 && p + n <= |src|
    ensures if r < 0 then dst.base == null ==> r == -ENOMEM
            else r == 0 && Embedded(srcTs[i], t', first, srcStrs, dst.BaseStrs(), dst.strs.data) && Storable(t') && t'.info == srcTs[i].info
    ensures if r < 0 then PouredTo(PourTypes(p0, srcStrs, srcTs), dst, r, cache')
            else PouredTo(PourTypes(p0, srcStrs, srcTs[..next]), dst, r, cache')
  {
    var t;
    t, n := TypeFrom(src, p, srcTs, i);
    assert NamesIn(srcTs[i], srcStrs);
    PourTypesNext(p0, srcStrs, srcTs, i, next);
    r, t', cache' := RewriteType(dst, srcStrs, t, first, cache);
    if r < 0 { PourTypesStuck(p0, srcStrs, srcTs, next); }
  }

  /** One round of the loop. */
  method RewriteNext(dst: Builder, src: seq<u32>, srcStrs: seq<u8>, first: nat, p: nat, words: seq<u32>, offs: seq<nat>, cache: map<u32, u32>,
                     ghost done: seq<BtfType>, ghost p0: Pour, ghost before: seq<BtfType>, ghost srcTs: seq<BtfType>)
    returns (r: int, p': nat, words': seq<u32>, offs': seq<nat>, cache': map<u32, u32>, ghost done': seq<BtfType>)
    requires dst.Names() && GoodStrs(srcStrs, false) && CacheOk(cache, srcStrs, dst.BaseStrs(), dst.strs.data)
    requires AllStorable(srcTs) && src == Section(srcTs) && AllNamesIn(srcTs, srcStrs) && p < |src|
    requires WellWritten(Written(done, p, words, offs), srcTs, before, first, srcStrs, dst.BaseStrs(), dst.strs.data)
    requires |done| <= |srcTs| && PouredTo(PourTypes(p0, srcStrs, srcTs[..|done|]), dst, 0, cache)
    modifies dst`hdr, dst.strs
    ensures dst.Names() && old(dst.strs.data) <= dst.strs.data && dst.hdr == old(dst.hdr).(strLen := |dst.strs.data|)
    ensures dst.BaseStrs() == old(dst.BaseStrs()) && CacheOk(cache', srcStrs, dst.BaseStrs(), dst.strs.data)
    ensures r < 0 ==> (dst.base == null ==> r == -ENOMEM) && PouredTo(PourTypes(p0, srcStrs, srcTs), dst, r, cache')
    ensures r >= 0 ==> r == 0 && p < p' <= |src| && |done'| <= |srcTs| && PouredTo(PourTypes(p0, srcStrs, srcTs[..|done'|]), dst, r, cache')
    ensures r >= 0 ==> WellWritten(Written(done', p', words', offs'), srcTs, before, first, srcStrs, dst.BaseStrs(), dst.strs.data)
  {
    p', words', offs', done' := p, words, offs, done;
    ghost var strs0, next := dst.strs.data, |done| + 1;
    var t', n;
    r, t', n, cache' := RewriteOne(dst, src, srcStrs, first, p, cache, p0, srcTs, |done|, next);
    if r < 0 { return; }
    var start: nat := 4 * |words|;
    p', words', offs', done' := p + n, words + Words(t'), offs + [start], done + [t'];
    WrittenStep(srcTs, done, p, words, offs, before, first, srcStrs, dst.BaseStrs(), strs0, dst.strs.data, t', n, words', offs', p', done');
  }

  lemma HoldsSnoc(words: seq<u32>, offs: seq<nat>, ts: seq<BtfType>, t: BtfType)
    requires Holds(words, offs, |offs|, ts) && Storable(t)
    ensures Holds(words + Words(t), offs + [4 * |words|], |offs| + 1, ts + [t])
  {
    SectionSnoc(ts, t);
    StartsSnoc(offs, ts, t);
    forall i | 0 <= i <= |ts| ensures Storable((ts + [t])[i]) {
      if i < |ts| { assert Storable(ts[i]); }
    }
  }

  lemma AllRead(ts: seq<BtfType>, i: nat)
    requires AllStorable(ts) && i <= |ts| && Begin(ts, i) >= |Section(ts)|
    ensures i == |ts|
  {
    if i < |ts| { TypeAt(ts, i); }
  }

  /** Read the descriptor at a word of a section. */
  method TypeFrom(src: seq<u32>, p: nat, ghost ts: seq<BtfType>, ghost i: nat) returns (t: BtfType, n: nat)
    requires AllStorable(ts) && src == Section(ts) && i <= |ts| && p == Begin(ts, i) && p < |src|
    ensures i < |ts| && t == ts[i] && Storable(t) && n == |Words(t)| > 0 && p + n == Begin(ts, i + 1) && p + n <= |src|
  {
    assert ts[..|ts|] == ts;
    assert Storable(ts[i]);
    TypeAt(ts, i);
    SectionAt(ts, i);
    WordsSize(ts[i]);
    DecodeWords(ts[i]);
    n := InfoSize(ParseInfo(src[p + 1])) / 4;
    SliceAt(Section(ts[..i]), Words(ts[i]), Section(ts[i + 1..]));
    t := Decode(src[p..p + n]);
  }

  lemma SliceAt<T>(a: seq<T>, w: seq<T>, b: seq<T>)
    ensures (a + w + b)[|a|..|a| + |w|] == w
  {
  }
}
