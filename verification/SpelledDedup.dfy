/** Deduplication of types and strings together, and what the types then mean with their names spelled out. */
module SpelledDedup {
  import opened Ints
  import opened BtfTypes
  import opened BtfNames
  import opened BtfFile
  import opened BtfBuilder
  import opened Strsets
  import opened Meaning
  import opened DedupInv
  import opened RefInv
  import opened DedupResult
  import opened BtfDedup
  import opened DedupStrings
  import opened Errno

  // ----- meanings with names spelled out

  /** A descriptor with its names as texts. */
  datatype Spelling = Spelling(name: seq<u8>, entries: seq<seq<u8>>, shape: BtfType)

  datatype SpelledTree = SpelledCut | SpelledNode(shape: Spelling, kids: seq<SpelledTree>)

  function Texts(base: seq<u8>, strs: seq<u8>, ns: seq<u32>): seq<seq<u8>> {
    seq(|ns|, i requires 0 <= i < |ns| => NameIn(base, strs, ns[i]))
  }

  function Zeroed(t: BtfType): BtfType {
    SetNames(t, 0, seq(|EntryNames(t.tail)|, _ => 0))
  }

  function Spell(base: seq<u8>, strs: seq<u8>, t: BtfType): Spelling {
    Spelling(NameIn(base, strs, t.nameOff), Texts(base, strs, EntryNames(t.tail)), Zeroed(t))
  }

  function SpellTree(base: seq<u8>, strs: seq<u8>, tree: Tree): SpelledTree {
    match tree
    case Cut => SpelledCut
    case Node(shape, kids) => SpelledNode(Spell(base, strs, shape), seq(|kids|, i requires 0 <= i < |kids| => SpellTree(base, strs, kids[i])))
  }

  /** The same descriptor but for the offsets of its names, whose texts are the same. */
  ghost predicate Respelled(base: seq<u8>, was: seq<u8>, now: seq<u8>, t: BtfType, t': BtfType) {
    |EntryNames(t'.tail)| == |EntryNames(t.tail)| && t' == SetNames(t, t'.nameOff, EntryNames(t'.tail)) &&
    NameIn(base, now, t'.nameOff) == NameIn(base, was, t.nameOff) &&
    Texts(base, now, EntryNames(t'.tail)) == Texts(base, was, EntryNames(t.tail))
  }

  lemma SetTwice(tail: Tail, ns: seq<u32>, ms: seq<u32>)
    requires |ns| == |ms| == |EntryNames(tail)|
    ensures |EntryNames(SetEntryNames(tail, ns))| == |ms| && SetEntryNames(SetEntryNames(tail, ns), ms) == SetEntryNames(tail, ms)
  {
    SetNamesOnly(tail, ns);
    var a, b := SetEntryNames(SetEntryNames(tail, ns), ms), SetEntryNames(tail, ms);
    match tail
    case Members(ts) => assert a.ms == b.ms;
    case Params(ps) => assert a.ps == b.ps;
    case Enums(es) => assert a.es == b.es;
    case Enums64(es) => assert a.es64 == b.es64;
    case _ =>
  }

  lemma RespelledSpell(base: seq<u8>, was: seq<u8>, now: seq<u8>, t: BtfType, t': BtfType)
    requires Respelled(base, was, now, t, t')
    ensures Spell(base, now, t') == Spell(base, was, t)
  {
    SetTwice(t.tail, EntryNames(t'.tail), seq(|EntryNames(t.tail)|, _ => 0));
    assert seq(|EntryNames(t'.tail)|, _ => 0) == seq(|EntryNames(t.tail)|, _ => 0);
  }

  lemma LabelOfNames(tail: Tail, ns: seq<u32>)
    requires |ns| == |EntryNames(tail)|
    ensures EntryNames(TailLabel(tail)) == EntryNames(tail)
    ensures TailLabel(SetEntryNames(tail, ns)) == SetEntryNames(TailLabel(tail), ns)
  {
    assert EntryNames(TailLabel(tail)) == EntryNames(tail);
    var a, b := TailLabel(SetEntryNames(tail, ns)), SetEntryNames(TailLabel(tail), ns);
    match tail
    case Members(ts) => assert a.ms == b.ms;
    case Params(ps) => assert a.ps == b.ps;
    case _ =>
  }

  lemma RespelledLabel(base: seq<u8>, was: seq<u8>, now: seq<u8>, t: BtfType, t': BtfType)
    requires Respelled(base, was, now, t, t')
    ensures Respelled(base, was, now, Label(t), Label(t')) && Refs(t') == Refs(t) && t'.info == t.info
  {
    LabelOfNames(t.tail, EntryNames(t'.tail));
    LabelOfNames(t'.tail, EntryNames(t'.tail));
    SetNamesRefs(t, t'.nameOff, EntryNames(t'.tail));
  }

  /** In every reading but the one that looks definitions up by name. */
  lemma RespelledView(m: Mode, base: seq<u8>, was: seq<u8>, now: seq<u8>, g: seq<BtfType>, g': seq<BtfType>, x: nat)
    requires Closed(g) && Closed(g') && x < |g| == |g'| && m != Linked && Respelled(base, was, now, g[x], g'[x])
    ensures ViewOf(m, g', x).refs == ViewOf(m, g, x).refs
    ensures Respelled(base, was, now, ViewOf(m, g, x).shape, ViewOf(m, g', x).shape)
  {
    RespelledLabel(base, was, now, g[x], g'[x]);
  }

  /** Renaming keeps the meaning with names spelled out. */
  lemma {:induction false} SpelledSame(m: Mode, base: seq<u8>, was: seq<u8>, now: seq<u8>, g: seq<BtfType>, g': seq<BtfType>, k: nat, x: nat)
    requires Closed(g) && Closed(g') && |g| == |g'| && x < |g| && m != Linked
    requires forall y {:trigger Respelled(base, was, now, g[y], g'[y])} :: 0 <= y < |g| ==> Respelled(base, was, now, g[y], g'[y])
    ensures SpellTree(base, now, Unfold(m, g', k, x)) == SpellTree(base, was, Unfold(m, g, k, x))
    decreases k
  {
    if k > 0 {
      var j := k - 1;
      assert Respelled(base, was, now, g[x], g'[x]);
      RespelledView(m, base, was, now, g, g', x);
      RespelledSpell(base, was, now, ViewOf(m, g, x).shape, ViewOf(m, g', x).shape);
      var a := UnfoldNode(m, g, j, k, x);
      var b := UnfoldNode(m, g', j, k, x);
      forall i | 0 <= i < |a| ensures SpellTree(base, now, b[i]) == SpellTree(base, was, a[i]) {
        SpelledSame(m, base, was, now, g, g', j, ViewOf(m, g, x).refs[i]);
      }
      assert SpellTree(base, now, Node(ViewOf(m, g', x).shape, b)).kids == SpellTree(base, was, Node(ViewOf(m, g, x).shape, a)).kids;
    }
  }

  // ----- renaming changes nothing that the type passes look at

  /** The descriptors have one info word, one list of references and one layout. */
  ghost predicate Recast(g: seq<BtfType>, g': seq<BtfType>) {
    |g'| == |g| && forall x {:trigger g'[x]} :: 0 <= x < |g| ==> g'[x].info == g[x].info && Refs(g'[x]) == Refs(g[x]) && (WfType(g[x]) ==> WfType(g'[x]))
  }

  lemma RecastWf(g: seq<BtfType>, g': seq<BtfType>, start: nat)
    requires Recast(g, g') && WfGraph(g, start) && g'[0] == VOID
    ensures WfGraph(g', start)
  {
    forall x | 0 <= x < |g| ensures RefsBelow(g'[x], |g|) && WfType(g'[x]) && (x < start ==> RefsBelow(g'[x], start)) {
      assert RefsBelow(g[x], |g|) && WfType(g[x]) && g'[x].info == g[x].info;
      assert x < start ==> RefsBelow(g[x], start);
    }
  }

  lemma RecastCalm(g: seq<BtfType>, g': seq<BtfType>)
    requires Recast(g, g') && Closed(g) && Closed(g') && Calm(g)
    ensures Calm(g')
  {
    forall x | 0 < x < |g| ensures KnownKind(g'[x]) { assert KnownKind(g[x]) && g'[x].info == g[x].info; }
    forall x | 0 <= x < |g| && IsPlain(g'[x]) ensures PlainRefs(g', x) {
      assert g'[x].info == g[x].info && Refs(g'[x]) == Refs(g[x]);
      assert PlainRefs(g, x) && RefsBelow(g'[x], |g'|) && RefsBelow(g[x], |g|);
      var rs := Refs(g[x]);
      forall i | 0 <= i < |rs| ensures IsPlain(g'[rs[i]]) { assert IsPlain(g[rs[i]]) && g'[rs[i]].info == g[rs[i]].info; }
    }
  }

  lemma RecastRanked(g: seq<BtfType>, g': seq<BtfType>, start: nat, rank: seq<nat>)
    requires Recast(g, g') && Closed(g) && Closed(g') && AcyclicRefs(g, start, rank)
    ensures AcyclicRefs(g', start, rank)
  {
    forall x | start <= x < |g| && IsRewritten(g'[x]) ensures RefsRanked(g', start, rank, x) {
      assert g'[x].info == g[x].info && Refs(g'[x]) == Refs(g[x]);
      assert RefsRanked(g, start, rank, x) && RefsBelow(g'[x], |g'|) && RefsBelow(g[x], |g|);
      var rs := Refs(g[x]);
      forall i | 0 <= i < |rs| ensures start <= rs[i] && IsRewritten(g'[rs[i]]) ==> rank[rs[i]] < rank[x] {
        assert g'[rs[i]].info == g[rs[i]].info && Refs(g[x])[i] == rs[i];
      }
    }
  }

  lemma {:induction false} RecastSum(g: seq<BtfType>, g': seq<BtfType>, lo: nat, hi: nat)
    requires Recast(g, g') && lo <= hi <= |g|
    ensures SizeSum(g', lo, hi) == SizeSum(g, lo, hi)
    decreases hi
  {
    if lo < hi {
      RecastSum(g, g', lo, hi - 1);
      assert g'[hi - 1].info == g[hi - 1].info;
    }
  }

  lemma RecastFills(g: seq<BtfType>, g': seq<BtfType>, offs: seq<int>, start: nat, len: int)
    requires Recast(g, g') && start <= |g| && FillsSection(g, offs, start, len)
    ensures FillsSection(g', offs, start, len)
  {
    forall x | start <= x < |g| ensures OffsetAt(g', offs, start, x) && 0 <= TypeSize(g'[x]) {
      RecastSum(g, g', start, x);
      assert OffsetAt(g, offs, start, x) && 0 <= TypeSize(g[x]) && g'[x].info == g[x].info;
    }
    RecastSum(g, g', start, |g|);
  }

  lemma RecastBack(g: seq<BtfType>, g': seq<BtfType>, start: nat)
    requires Recast(g, g') && WfGraph(g, start)
    ensures Recast(g', g)
  {
    forall x | 0 <= x < |g| ensures g[x].info == g'[x].info && Refs(g[x]) == Refs(g'[x]) && WfType(g[x]) { assert g'[x].info == g[x].info; }
  }

  /** The type passes succeed on both or on neither. */
  lemma RecastSucceeds(g: seq<BtfType>, g': seq<BtfType>, start: nat)
    requires Recast(g, g') && WfGraph(g, start) && WfGraph(g', start)
    ensures Calm(g) ==> Calm(g')
    ensures (exists rank: seq<nat> :: AcyclicRefs(g', start, rank)) <==> (exists rank: seq<nat> :: AcyclicRefs(g, start, rank))
  {
    RecastBack(g, g', start);
    if Calm(g) { RecastCalm(g, g'); }
    if rank: seq<nat> :| AcyclicRefs(g', start, rank) { RecastRanked(g', g, start, rank); }
    if rank: seq<nat> :| AcyclicRefs(g, start, rank) { RecastRanked(g, g', start, rank); }
  }

  // ----- both passes

  ghost predicate AllRespelled(base: seq<u8>, was: seq<u8>, now: seq<u8>, g: seq<BtfType>, g': seq<BtfType>) {
    |g'| == |g| && forall x {:trigger Respelled(base, was, now, g[x], g'[x])} :: 0 <= x < |g| ==> Respelled(base, was, now, g[x], g'[x])
  }

  /** Every type has a name in the strings, and those of the base in the strings of the base. */
  ghost predicate Lettered(sec: StrSection, g: seq<BtfType>, start: nat)
    reads sec, sec.strs
  {
    forall x {:trigger sec.NamesInside(g[x])} :: 0 <= x < |g| ==>
      sec.NamesInside(g[x]) && (x < start ==> forall n :: n in Names(g[x]) ==> n == 0 || n < sec.startOff)
  }

  /** A renamed type reads as it did. */
  lemma RenamedReads(st: Strings, strs: seq<u8>, t: BtfType, t': BtfType)
    requires Sound(st) && GoodStrs(strs, st.base.Some?) && Renamed(st, strs, t, t')
    requires forall i :: 0 <= i < |Names(t)| ==> Names(t)[i] < st.start + |strs|
    ensures Respelled(BaseData(st), strs, st.own.data, t, t')
  {
    var ns, ns' := Names(t), Names(t');
    forall i | 0 <= i < |ns| ensures ReadsAs(st, st.own.data, ns'[i]) == ReadsAs(st, strs, ns[i]) {
      assert Homed(st, strs, ns[i], ns'[i]);
      NameReads(st, strs, ns[i], ns'[i]);
    }
    var es, es' := EntryNames(t.tail), EntryNames(t'.tail);
    assert ns[0] == t.nameOff && ns'[0] == t'.nameOff;
    forall i | 0 <= i < |es| ensures NameIn(BaseData(st), st.own.data, es'[i]) == NameIn(BaseData(st), strs, es[i]) {
      var j := i + 1;
      assert ns[j] == es[i] && ns'[j] == es'[i];
    }
  }

  /** Corresponding names do not meet in the base at different places. */
  ghost predicate AllTold(st: Strings, strs: seq<u8>, ns: seq<u32>, ms: seq<u32>) {
    |ns| == |ms| ==> forall i {:trigger Told(st, strs, ns[i], ms[i])} :: 0 <= i < |ns| ==> Told(st, strs, ns[i], ms[i])
  }

  /** Setting the names of a zeroed descriptor gives back the one it came from. */
  lemma ZeroedBack(t: BtfType)
    ensures |EntryNames(Zeroed(t).tail)| == |EntryNames(t.tail)| && SetNames(Zeroed(t), t.nameOff, EntryNames(t.tail)) == t
  {
    SetTwice(t.tail, seq(|EntryNames(t.tail)|, _ => 0), EntryNames(t.tail));
    SetSame(t);
  }

  /** After the pass, comparing labels by the offsets of their names is comparing them by what the names say. */
  lemma LabelsTell(st: Strings, strs: seq<u8>, t: BtfType, u: BtfType, t': BtfType, u': BtfType)
    requires Sound(st) && GoodStrs(strs, st.base.Some?) && Renamed(st, strs, t, t') && Renamed(st, strs, u, u')
    requires forall i :: 0 <= i < |Names(t)| ==> Names(t)[i] < st.start + |strs|
    requires forall i :: 0 <= i < |Names(u)| ==> Names(u)[i] < st.start + |strs|
    requires AllTold(st, strs, Names(t), Names(u))
    ensures Label(t') == Label(u') <==> Spell(BaseData(st), strs, Label(t)) == Spell(BaseData(st), strs, Label(u))
  {
    var base, now := BaseData(st), st.own.data;
    RenamedReads(st, strs, t, t');
    RenamedReads(st, strs, u, u');
    RespelledLabel(base, strs, now, t, t');
    RespelledLabel(base, strs, now, u, u');
    RespelledSpell(base, strs, now, Label(t), Label(t'));
    RespelledSpell(base, strs, now, Label(u), Label(u'));
    if Spell(base, strs, Label(t)) == Spell(base, strs, Label(u)) { SameLetters(st, strs, t, u, t', u'); }
  }

  lemma SameOffsets(st: Strings, strs: seq<u8>, t: BtfType, u: BtfType, t': BtfType, u': BtfType)
    requires Sound(st) && GoodStrs(strs, st.base.Some?) && Renamed(st, strs, t, t') && Renamed(st, strs, u, u')
    requires forall i :: 0 <= i < |Names(t)| ==> Names(t)[i] < st.start + |strs|
    requires forall i :: 0 <= i < |Names(u)| ==> Names(u)[i] < st.start + |strs|
    requires AllTold(st, strs, Names(t), Names(u)) && ReadsAs(st, strs, t.nameOff) == ReadsAs(st, strs, u.nameOff)
    requires Texts(BaseData(st), strs, EntryNames(t.tail)) == Texts(BaseData(st), strs, EntryNames(u.tail))
    ensures Names(t') == Names(u')
  {
    var ns, ms, ns', ms' := Names(t), Names(u), Names(t'), Names(u');
    var these, those := Texts(BaseData(st), strs, EntryNames(t.tail)), Texts(BaseData(st), strs, EntryNames(u.tail));
    assert |these| == |those|;
    forall i | 0 <= i < |ns| ensures ns'[i] == ms'[i] {
      if i > 0 {
        var j := i - 1;
        assert these[j] == those[j];
      }
      assert Homed(st, strs, ns[i], ns'[i]) && Homed(st, strs, ms[i], ms'[i]) && Told(st, strs, ns[i], ms[i]);
      NamesTell(st, strs, ns[i], ms[i], ns'[i], ms'[i]);
    }
  }

  lemma SameLetters(st: Strings, strs: seq<u8>, t: BtfType, u: BtfType, t': BtfType, u': BtfType)
    requires Sound(st) && GoodStrs(strs, st.base.Some?) && Renamed(st, strs, t, t') && Renamed(st, strs, u, u')
    requires forall i :: 0 <= i < |Names(t)| ==> Names(t)[i] < st.start + |strs|
    requires forall i :: 0 <= i < |Names(u)| ==> Names(u)[i] < st.start + |strs|
    requires AllTold(st, strs, Names(t), Names(u))
    requires Spell(BaseData(st), strs, Label(t)) == Spell(BaseData(st), strs, Label(u))
    requires Spell(BaseData(st), st.own.data, Label(t')) == Spell(BaseData(st), st.own.data, Label(u'))
    ensures Label(t') == Label(u')
  {
    var base := BaseData(st);
    LabelOfNames(t.tail, EntryNames(t.tail));
    LabelOfNames(u.tail, EntryNames(u.tail));
    LabelOfNames(t'.tail, EntryNames(t'.tail));
    LabelOfNames(u'.tail, EntryNames(u'.tail));
    var ns', ms' := Names(t'), Names(u');
    assert ns' == ms' by { SameOffsets(st, strs, t, u, t', u'); }
    assert ns'[1..] == EntryNames(t'.tail) && ms'[1..] == EntryNames(u'.tail) && ns'[0] == t'.nameOff && ms'[0] == u'.nameOff;
    ZeroedBack(Label(t'));
    ZeroedBack(Label(u'));
  }

  /** A type of the base keeps its names. */
  lemma BaseRenamed(st: Strings, strs: seq<u8>, t: BtfType)
    requires forall n :: n in Names(t) ==> n == 0 || n < st.start
    ensures Renamed(st, strs, t, t)
  {
    forall i | 0 <= i < |Names(t)| ensures Homed(st, strs, Names(t)[i], Names(t)[i]) { assert Names(t)[i] in Names(t); }
    SetSame(t);
  }

  lemma SetSame(t: BtfType)
    ensures SetNames(t, t.nameOff, EntryNames(t.tail)) == t
  {
    SetNamesOnly(t.tail, EntryNames(t.tail));
    SetTwice(t.tail, EntryNames(t.tail), EntryNames(t.tail));
  }

  /** What the string pass makes of a graph. */
  lemma RenamedGraph(st: Strings, strs: seq<u8>, g: seq<BtfType>, g': seq<BtfType>, start: nat)
    requires Sound(st) && GoodStrs(strs, st.base.Some?) && WfGraph(g, start) && RenamedUpTo(st, strs, g, g', start, |g|)
    requires forall x, i {:trigger Names(g[x])[i]} :: 0 <= x < |g| && 0 <= i < |Names(g[x])| ==> Names(g[x])[i] < st.start + |strs|
    requires forall x, n {:trigger n in Names(g[x])} :: 0 <= x < start && n in Names(g[x]) ==> n == 0 || n < st.start
    ensures AllRespelled(BaseData(st), strs, st.own.data, g, g')
  {
    forall x | 0 <= x < |g| ensures Respelled(BaseData(st), strs, st.own.data, g[x], g'[x]) {
      if x < start { BaseRenamed(st, strs, g[x]); }
      assert Renamed(st, strs, g[x], g'[x]);
      RenamedReads(st, strs, g[x], g'[x]);
    }
  }

  lemma RespelledRecast(base: seq<u8>, was: seq<u8>, now: seq<u8>, g: seq<BtfType>, g': seq<BtfType>)
    requires AllRespelled(base, was, now, g, g')
    ensures Recast(g, g')
  {
    forall x | 0 <= x < |g| ensures g'[x].info == g[x].info && Refs(g'[x]) == Refs(g[x]) && (WfType(g[x]) ==> WfType(g'[x])) {
      assert Respelled(base, was, now, g[x], g'[x]);
      SetNamesRefs(g[x], g'[x].nameOff, EntryNames(g'[x].tail));
    }
  }

  lemma SameRespelled(base: seq<u8>, strs: seq<u8>, g: seq<BtfType>)
    ensures AllRespelled(base, strs, strs, g, g)
  {
    forall x | 0 <= x < |g| ensures Respelled(base, strs, strs, g[x], g[x]) { SetSame(g[x]); }
  }

  /** The string pass over all types: references and layout stay, and every name reads as before. */
  method RenameTypes(btf: Btf, sec: StrSection) returns (err: int)
    requires WfGraph(btf.types[..], btf.startId) && sec.Valid() && Lettered(sec, btf.types[..], btf.startId)
    modifies sec, btf.types
    ensures err == if old(sec.deduped || sec.Sifted(btf.types[btf.startId..]).ok) then 0 else -ENOMEM
    ensures err == 0 ==> AllRespelled(sec.BaseStrs(), old(sec.strs.data), sec.strs.data, old(btf.types[..]), btf.types[..])
    ensures btf.types[0] == old(btf.types[0])
  {
    ghost var g, strs, done := btf.types[..], sec.strs.data, sec.deduped;
    assert forall x :: 0 <= x < |g| ==> sec.NamesInside(g[x]);
    err := sec.Dedup(btf.types, btf.startId);
    if err == 0 {
      if done { SameRespelled(sec.BaseStrs(), strs, g); } else { RenamedGraph(sec.With(sec.strs), strs, g, btf.types[..], btf.startId); }
    }
  }

  /** What becomes of the meaning of every type, with its names spelled out: it stays. */
  ghost predicate SpelledKept(base: seq<u8>, was: seq<u8>, now: seq<u8>, g: seq<BtfType>, h: seq<BtfType>, final: seq<u32>)
    requires Closed(g) && Closed(h) && |final| == |g|
  {
    forall mode, k: nat, x {:trigger Unfold(mode, g, k, x)} ::
      0 <= x < |g| && final[x] < |h| && (mode == Nominal || (mode == Structural && NoForwards(g))) ==>
        SpellTree(base, now, Unfold(mode, h, k, final[x])) == SpellTree(base, was, Unfold(mode, g, k, x))
  }

  lemma ResultSpelled(base: seq<u8>, was: seq<u8>, now: seq<u8>, g: seq<BtfType>, named: seq<BtfType>, start: nat, h: seq<BtfType>, final: seq<u32>)
    requires Closed(g) && Closed(named) && AllRespelled(base, was, now, g, named) && Deduplicated(named, start, h, final)
    ensures SpelledKept(base, was, now, g, h, final)
  {
    forall mode, k: nat, x | 0 <= x < |g| && final[x] < |h| && (mode == Nominal || (mode == Structural && NoForwards(g)))
      ensures SpellTree(base, now, Unfold(mode, h, k, final[x])) == SpellTree(base, was, Unfold(mode, g, k, x))
    {
      SpelledSame(mode, base, was, now, g, named, k, x);
      if mode == Structural { NoForwardsNamed(base, was, now, g, named); }
      assert Linkable(mode, named);
      assert Unfold(mode, named, k, x) == Unfold(mode, h, k, final[x]);
    }
  }

  lemma NoForwardsNamed(base: seq<u8>, was: seq<u8>, now: seq<u8>, g: seq<BtfType>, named: seq<BtfType>)
    requires AllRespelled(base, was, now, g, named) && NoForwards(g)
    ensures NoForwards(named)
  {
    RespelledRecast(base, was, now, g, named);
    forall x | 0 <= x < |g| ensures !IsForward(named[x]) { assert !IsForward(g[x]) && named[x].info == g[x].info; }
  }

  /**
   * btf__dedup with its string pass. After it every original id x reads as final[x] does, names spelled out; named is
   * the graph between the passes, of which the result is what DedupTypes promises. If plain types refer to plain types
   * only, it succeeds exactly when the strings find room and no chain of reference types is circular.
   */
  method Dedup(btf: Btf, sec: StrSection) returns (err: int, ghost named: seq<BtfType>, ghost final: seq<u32>)
    requires WfGraph(btf.types[..], btf.startId) && btf.startId + btf.nrTypes == btf.types.Length
    requires btf.typeOffs.Length == btf.nrTypes && btf.OffsetsTile()
    requires sec.Valid() && Lettered(sec, btf.types[..], btf.startId)
    modifies btf, btf.types, btf.typeOffs, sec
    ensures err <= 0
    ensures err == 0 ==> btf.startId + btf.nrTypes <= btf.types.Length && btf.OffsetsTile()
    ensures err == 0 ==> AllRespelled(sec.BaseStrs(), old(sec.strs.data), sec.strs.data, old(btf.types[..]), named)
    ensures err == 0 ==> Closed(named) && Deduplicated(named, btf.startId, btf.Graph(), final)
    ensures err == 0 ==> SpelledKept(sec.BaseStrs(), old(sec.strs.data), sec.strs.data, old(btf.types[..]), btf.Graph(), final)
    ensures Calm(old(btf.types[..])) ==>
              (err == 0 <==> old(sec.deduped || sec.Sifted(btf.types[btf.startId..]).ok) &&
                             exists rank: seq<nat> :: AcyclicRefs(old(btf.types[..]), btf.startId, rank))
  {
    ghost var g, strs := btf.types[..], sec.strs.data;
    assert btf.Graph() == g;
    named, final := [], [];
    err := RenameTypes(btf, sec);
    if err != 0 { return; }
    named := btf.types[..];
    RespelledRecast(sec.BaseStrs(), strs, sec.strs.data, g, named);
    RecastWf(g, named, btf.startId);
    RecastSucceeds(g, named, btf.startId);
    RecastFills(g, named, btf.typeOffs[..], btf.startId, btf.typeLen);
    assert btf.Graph() == named;
    err, final := DedupTypes(btf);
    if err == 0 { ResultSpelled(sec.BaseStrs(), strs, sec.strs.data, g, named, btf.startId, btf.Graph(), final); }
  }
}
