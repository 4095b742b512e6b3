/** Types with a list of entries: what one more entry makes of a descriptor and of its section. */
module BtfEntries {
  import opened Ints
  import opened BtfTypes
  import opened BtfWords
  import opened BtfSection
  import opened Options

  /** One entry of a descriptor with a list of them. */
  datatype Entry =
    | OfStruct(m: Member)
    | OfProto(p: Param)
    | OfEnum(e: EnumVal)
    | OfEnum64(e64: Enum64Val)
    | OfSec(s: SecInfo)

  function EntryTo(x: Entry): seq<u32> {
    match x
    case OfStruct(m) => [m.nameOff, m.typ, m.offset]
    case OfProto(p) => [p.nameOff, p.typ]
    case OfEnum(e) => [e.nameOff, e.val]
    case OfEnum64(e) => [e.nameOff, e.lo, e.hi]
    case OfSec(s) => [s.typ, s.offset, s.size]
  }

  /** The entry under a name; the entries of a DATASEC have none. */
  function Named(x: Entry, off: u32): (r: Entry)
    ensures |EntryTo(r)| == |EntryTo(x)|
  {
    match x
    case OfStruct(m) => OfStruct(m.(nameOff := off))
    case OfProto(p) => OfProto(p.(nameOff := off))
    case OfEnum(e) => OfEnum(e.(nameOff := off))
    case OfEnum64(e) => OfEnum64(e.(nameOff := off))
    case OfSec(_) => x
  }

  /** The entry fits the descriptor's kind. */
  predicate Fits(x: Entry, t: BtfType) {
    match x
    case OfStruct(_) => t.info.kind in {Struct, Union}
    case OfProto(_) => t.info.kind == FuncProto
    case OfEnum(_) => t.info.kind == Enum
    case OfEnum64(_) => t.info.kind == Enum64
    case OfSec(_) => t.info.kind == Datasec
  }

  lemma NamedFits(x: Entry, off: u32, t: BtfType)
    ensures Fits(Named(x, off), t) == Fits(x, t)
  {
  }

  function TailPlus(tail: Tail, x: Entry): Tail {
    match (tail, x)
    case (Members(ms), OfStruct(m)) => Members(ms + [m])
    case (Params(ps), OfProto(p)) => Params(ps + [p])
    case (Enums(es), OfEnum(e)) => Enums(es + [e])
    case (Enums64(es), OfEnum64(e)) => Enums64(es + [e])
    case (Secs(ss), OfSec(s)) => Secs(ss + [s])
    case _ => tail
  }

  /** The descriptor with one more entry and the given flag. */
  function Plus(t: BtfType, x: Entry, kflag: bool): BtfType
    requires t.info.vlen < 0xffff
  {
    t.(info := Info(t.info.kind, t.info.vlen + 1, kflag, 0, 0), tail := TailPlus(t.tail, x))
  }

  lemma ThreesPlus<T>(es: seq<T>, e: T, word: (T, nat) -> u32)
    ensures Threes(es + [e], word) == Threes(es, word) + [word(e, 0), word(e, 1), word(e, 2)]
  {
    assert (es + [e])[..|es|] == es;
  }

  lemma TwosPlus<T>(es: seq<T>, e: T, word: (T, nat) -> u32)
    ensures Twos(es + [e], word) == Twos(es, word) + [word(e, 0), word(e, 1)]
  {
    assert (es + [e])[..|es|] == es;
  }

  lemma TailPlusWords(t: BtfType, x: Entry)
    requires WfType(t) && Fits(x, t)
    ensures TailWords(TailPlus(t.tail, x)) == TailWords(t.tail) + EntryTo(x)
  {
    match x
    case OfStruct(m) => ThreesPlus(t.tail.ms, m, MemberWord);
    case OfProto(p) => TwosPlus(t.tail.ps, p, ParamWord);
    case OfEnum(e) => TwosPlus(t.tail.es, e, EnumWord);
    case OfEnum64(e) => ThreesPlus(t.tail.es64, e, Enum64Word);
    case OfSec(s) => ThreesPlus(t.tail.ss, s, SecWord);
  }

  /** One more entry changes the info word and appends the entry's words. */
  lemma PlusWords(t: BtfType, x: Entry, kflag: bool)
    requires Storable(t) && Fits(x, t) && t.info.vlen < 0xffff
    ensures Storable(Plus(t, x, kflag))
    ensures 3 <= |Words(t)| && TypeInfoWord(t.info.kind, t.info.vlen + 1, kflag) < 0x1_0000_0000
    ensures Words(Plus(t, x, kflag)) == Words(t)[1 := TypeInfoWord(t.info.kind, t.info.vlen + 1, kflag)] + EntryTo(x)
  {
    var info := Plus(t, x, kflag).info;
    ParseInfoWord(info);
    assert InfoWord(info) == TypeInfoWord(t.info.kind, t.info.vlen + 1, kflag);
    TailPlusWords(t, x);
    var w := [t.nameOff, InfoWord(info), t.size];
    assert Words(t)[1 := InfoWord(info)] == w + TailWords(t.tail);
    SeqAssoc(w, TailWords(t.tail), EntryTo(x));
  }

  /** The three words every descriptor has. */
  function HeadWords(nameOff: u32, info: Info, size: u32): (ws: seq<u32>)
    requires GoodInfo(info)
    ensures forall tail :: Words(BtfType(nameOff, info, size, tail)) == ws + TailWords(tail)
    ensures |ws| == 3
  {
    ParseInfoWord(info);
    [nameOff, InfoWord(info), size]
  }

  /** The info word of one more entry: the new count is put where the old one was, whatever its width. */
  function CountOneMore(info: Info, kflag: bool): (w: u32)
    ensures GoodInfo(info) ==> ParseInfo(w).vlen == if info.vlen < 0xffff then info.vlen + 1 else 0
  {
    if GoodInfo(info) then VlenCounts(info.kind, info.vlen, kflag); TypeInfoWord(info.kind, info.vlen + 1, kflag)
    else 0
  }

  /** One more enum value counted; for a negative one the flag is then set, with kind and count read back. */
  function CountValue(info: Info, negative: bool): (w: u32)
    requires GoodInfo(info)
    ensures Counts(info, negative || info.kflag, w)
  {
    var w := CountOneMore(info, info.kflag);
    if negative then
      VlenCounts(info.kind, info.vlen, info.kflag);
      var i := ParseInfo(w);
      ParseInfoWord(Info(i.kind, i.vlen, true, 0, 0));
      assert TypeInfoWord(i.kind, i.vlen, true) == InfoWord(Info(i.kind, i.vlen, true, 0, 0));
      TypeInfoWord(i.kind, i.vlen, true)
    else w
  }

  /** The words of a section after an entry has been put at its end and the info word of its last type rewritten. */
  ghost function WithEntry(words: seq<u32>, ts: seq<BtfType>, infoWord: u32, x: Entry): seq<u32>
    requires ts != []
  {
    var p := Begin(ts, |ts| - 1) + 1;
    (if p < |words| then words[p := infoWord] else words) + EntryTo(x)
  }

  /** Whether the count of one more entry fits the 16 bits it is kept in, and what it is then. */
  function CountFits(t: BtfType): Option<u16> {
    if t.info.vlen < 0xffff then Some(t.info.vlen + 1) else None
  }

  /** The info word that an entry call leaves in its type: if the count does not fit, it has run into the bits above. */
  predicate Counts(info: Info, kflag: bool, w: u32) {
    if info.vlen < 0xffff then w == CountOneMore(info, kflag) else ParseInfo(w).vlen == 0
  }

  predicate HasEntries(k: Kind) { k in {Struct, Union, FuncProto, Enum, Enum64, Datasec} }

  function EmptyTail(k: Kind): Tail {
    match k
    case FuncProto => Params([])
    case Enum => Enums([])
    case Enum64 => Enums64([])
    case Datasec => Secs([])
    case _ => Members([])
  }

  lemma EmptyStorable(k: Kind, kflag: bool, size: u32)
    requires HasEntries(k)
    ensures Storable(BtfType(0, Info(k, 0, kflag, 0, 0), size, EmptyTail(k))) && TailWords(EmptyTail(k)) == []
  {
  }

  /** The last descriptor with one more entry. */
  function WithLast(ts: seq<BtfType>, x: Entry, kflag: bool): seq<BtfType>
    requires ts != [] && ts[|ts| - 1].info.vlen < 0xffff
  {
    ts[..|ts| - 1] + [Plus(ts[|ts| - 1], x, kflag)]
  }

  /** The section with one more entry in its last descriptor. */
  lemma EntryAdded(words: seq<u32>, offs: seq<nat>, ts: seq<BtfType>, x: Entry, kflag: bool)
    requires AllStorable(ts) && words == Section(ts) && Starts(offs, ts)
    requires ts != [] && Storable(ts[|ts| - 1]) && Fits(x, ts[|ts| - 1]) && ts[|ts| - 1].info.vlen < 0xffff
    ensures AllStorable(WithLast(ts, x, kflag)) && Starts(offs, WithLast(ts, x, kflag))
    ensures Section(WithLast(ts, x, kflag)) == WithEntry(words, ts, CountOneMore(ts[|ts| - 1].info, kflag), x)
  {
    assert Starts(offs, WithLast(ts, x, kflag)) by { LastPlusStarts(offs, ts, x, kflag); }
    EntrySection(words, ts, x, kflag);
  }

  lemma EntrySection(words: seq<u32>, ts: seq<BtfType>, x: Entry, kflag: bool)
    requires AllStorable(ts) && words == Section(ts)
    requires ts != [] && Storable(ts[|ts| - 1]) && Fits(x, ts[|ts| - 1]) && ts[|ts| - 1].info.vlen < 0xffff
    ensures AllStorable(WithLast(ts, x, kflag))
    ensures Section(WithLast(ts, x, kflag)) == WithEntry(words, ts, CountOneMore(ts[|ts| - 1].info, kflag), x)
  {
    var before, t := ts[..|ts| - 1], ts[|ts| - 1];
    PlusSection(before, t, x, kflag);
    WithEntryParts(ts, CountOneMore(t.info, kflag), x);
    forall i | 0 <= i < |ts| ensures Storable(WithLast(ts, x, kflag)[i]) {
      if i < |ts| - 1 { assert Storable(ts[i]); }
    }
  }

  lemma PlusSection(before: seq<BtfType>, t: BtfType, x: Entry, kflag: bool)
    requires Storable(t) && Fits(x, t) && t.info.vlen < 0xffff
    ensures Storable(Plus(t, x, kflag)) && |Words(t)| >= 3
    ensures Section(before + [Plus(t, x, kflag)]) == Section(before) + (Words(t)[1 := CountOneMore(t.info, kflag)] + EntryTo(x))
  {
    PlusWords(t, x, kflag);
    SectionWith(before, Plus(t, x, kflag), Words(t)[1 := CountOneMore(t.info, kflag)] + EntryTo(x));
  }

  lemma SectionWith(before: seq<BtfType>, t: BtfType, words: seq<u32>)
    requires Words(t) == words
    ensures Section(before + [t]) == Section(before) + words
  {
    SectionSnoc(before, t);
  }

  lemma WithEntryParts(ts: seq<BtfType>, w: u32, x: Entry)
    requires ts != [] && |Words(ts[|ts| - 1])| >= 3
    ensures WithEntry(Section(ts), ts, w, x) == Section(ts[..|ts| - 1]) + (Words(ts[|ts| - 1])[1 := w] + EntryTo(x))
  {
    UpdateAfter(Section(ts[..|ts| - 1]), Words(ts[|ts| - 1]), w, EntryTo(x));
  }

  lemma UpdateAfter<T>(pre: seq<T>, w: seq<T>, v: T, end: seq<T>)
    requires |w| > 1
    ensures pre + (w[1 := v] + end) == (pre + w)[|pre| + 1 := v] + end
  {
  }

  lemma LastAt(offs: seq<nat>, ts: seq<BtfType>)
    requires AllStorable(ts) && Starts(offs, ts) && ts != []
    ensures var p := Begin(ts, |ts| - 1); offs[|ts| - 1] / 4 == p && p + 3 <= |Section(ts)| && ParseInfo(Section(ts)[p + 1]) == ts[|ts| - 1].info
  {
    TypeAt(ts, |ts| - 1);
    StartsAt(offs, ts, |ts| - 1);
  }

  lemma LastPlusStarts(offs: seq<nat>, ts: seq<BtfType>, x: Entry, kflag: bool)
    requires Starts(offs, ts) && ts != [] && ts[|ts| - 1].info.vlen < 0xffff
    ensures Starts(offs, WithLast(ts, x, kflag))
  {
    assert WithLast(ts, x, kflag)[..|ts| - 1] == ts[..|ts| - 1];
  }

  lemma StartsOnce(a: seq<nat>, b: seq<nat>, ts: seq<BtfType>)
    requires Starts(a, ts) && Starts(b, ts)
    ensures a == b
  {
    forall i | 0 <= i < |ts| ensures a[i] == b[i] {
      StartsAt(a, ts, i);
      StartsAt(b, ts, i);
    }
  }

  // ----- how many entries a type can have

  /** A reading of the section in which the last type has got the entry. */
  ghost predicate HasEntry(all: seq<BtfType>, words: seq<u32>, ts: seq<BtfType>, x: Entry)
    requires ts != []
  {
    AllStorable(all) && Section(all) == words && |all| >= |ts| && all[..|ts| - 1] == ts[..|ts| - 1] &&
    all[|ts| - 1].tail == TailPlus(ts[|ts| - 1].tail, x)
  }

  /** The section with one more entry reads as the intended types exactly if the count of entries still fits its 16 bits. */
  lemma EntryReadsIff(words: seq<u32>, ts: seq<BtfType>, x: Entry, kflag: bool, w: u32)
    requires AllStorable(ts) && words == Section(ts) && ts != [] && Storable(ts[|ts| - 1]) && Fits(x, ts[|ts| - 1]) && Counts(ts[|ts| - 1].info, kflag, w)
    ensures (exists all :: HasEntry(all, WithEntry(words, ts, w, x), ts, x)) <==> ts[|ts| - 1].info.vlen < 0xffff
  {
    if ts[|ts| - 1].info.vlen < 0xffff {
      EntrySection(words, ts, x, kflag);
      assert HasEntry(WithLast(ts, x, kflag), WithEntry(words, ts, w, x), ts, x);
    } else {
      forall all ensures !HasEntry(all, WithEntry(words, ts, w, x), ts, x) {
        if HasEntry(all, WithEntry(words, ts, w, x), ts, x) { TooManyEntries(words, ts, x, kflag, w, all); }
      }
    }
  }

  /** Once the count has run over, the last type reads as one without entries. */
  lemma TooManyEntries(words: seq<u32>, ts: seq<BtfType>, x: Entry, kflag: bool, w: u32, all: seq<BtfType>)
    requires AllStorable(ts) && words == Section(ts) && ts != [] && Storable(ts[|ts| - 1]) && Fits(x, ts[|ts| - 1]) && Counts(ts[|ts| - 1].info, kflag, w)
    requires ts[|ts| - 1].info.vlen == 0xffff && AllStorable(all) && Section(all) == WithEntry(words, ts, w, x)
    ensures |all| >= |ts| && all[|ts| - 1].info.vlen == 0 && all[|ts| - 1].tail != TailPlus(ts[|ts| - 1].tail, x)
  {
    var n, t := |ts| - 1, ts[|ts| - 1];
    var rest := Words(t)[1 := w] + EntryTo(x);
    WordsSize(t);
    assert rest[1] == w && |rest| >= 3;
    assert Section(all) == Section(ts[..n]) + rest by { WithEntryParts(ts, w, x); }
    assert AllStorable(ts[..n]) by { forall i | 0 <= i < n ensures Storable(ts[..n][i]) { assert Storable(ts[i]); } }
    NextRead(all, ts[..n], rest);
    assert Storable(all[n]);
    EntriesCounted(all[n], x);
    EntriesCounted(t, x);
  }

  /** A prototype that has as many parameters as its count can tell. */
  function FullPrototype(): BtfType {
    BtfType(0, Info(FuncProto, 0xffff, false, 0, 0), 0, Params(seq(0xffff, _ => Param(0, 0))))
  }

  /** One parameter more, and no reading of the section has it. */
  lemma PrototypeOverflows(w: u32)
    requires Counts(FullPrototype().info, false, w)
    ensures var ts, x := [FullPrototype()], OfProto(Param(0, 0));
            AllStorable(ts) && Fits(x, ts[0]) && forall all :: !HasEntry(all, WithEntry(Section(ts), ts, w, x), ts, x)
  {
    var ts, x := [FullPrototype()], OfProto(Param(0, 0));
    assert Storable(ts[0]);
    EntryReadsIff(Section(ts), ts, x, false, w);
  }

  lemma EntriesCounted(t: BtfType, x: Entry)
    requires WfType(t)
    ensures t.info.vlen == 0 ==> EntryCount(t.tail) == 0
    ensures Fits(x, t) ==> EntryCount(TailPlus(t.tail, x)) == t.info.vlen + 1
  {
  }

  function EntryCount(tail: Tail): nat {
    match tail
    case Members(ms) => |ms|
    case Params(ps) => |ps|
    case Enums(es) => |es|
    case Enums64(es) => |es|
    case Secs(ss) => |ss|
    case _ => 0
  }
}
