/** Type descriptors as they are stored: runs of 32-bit words in host order, one after the other. */
module BtfWords {
  import opened Bytes
  import opened Ints
  import opened BtfTypes

  // ----- byte order of a section

  function SwappedAt(ws: seq<u32>, lo: nat, hi: nat, i: nat): u32
    requires i < |ws|
  {
    if lo <= i < hi then Bswap32(ws[i]) else ws[i]
  }

  /** The words from lo up to hi byte-swapped, the others as they are. */
  function SwapRange(ws: seq<u32>, lo: nat, hi: nat): (r: seq<u32>)
    ensures |r| == |ws|
  {
    seq(|ws|, i requires 0 <= i < |ws| => SwappedAt(ws, lo, hi, i))
  }

  function SwapAll(ws: seq<u32>): seq<u32> { SwapRange(ws, 0, |ws|) }

  lemma SwapAllTwice(ws: seq<u32>)
    ensures SwapAll(SwapAll(ws)) == ws
  {
    forall i | 0 <= i < |ws| ensures SwapAll(SwapAll(ws))[i] == ws[i] { Bswap32Twice(ws[i]); }
  }

  // ----- the info word

  function KindOf(code: nat): Kind {
    match code
    case 0 => Unkn case 1 => Int case 2 => Ptr case 3 => Array case 4 => Struct case 5 => Union
    case 6 => Enum case 7 => Fwd case 8 => Typedef case 9 => Volatile case 10 => Const
    case 11 => Restrict case 12 => Func case 13 => FuncProto case 14 => Var case 15 => Datasec
    case 16 => Float case 17 => DeclTag case 18 => TypeTag case 19 => Enum64
    case _ => Other(code)
  }

  /** btf_vlen (16 bits), btf_kind (5 bits) and btf_kflag (1 bit), and the bits between that none of them reads. */
  function ParseInfo(w: u32): Info {
    var x := w / 0x1_0000;
    var y := x / 0x100;
    var z := y / 32;
    Info(KindOf(y % 32), w % 0x1_0000, z / 4 == 1, x % 0x100, z % 4)
  }

  /** The parts fit the bit fields they are stored in. */
  predicate GoodInfo(i: Info) {
    KindCode(i.kind) < 32 && (i.kind.Other? ==> i.kind.code >= 20) && i.spareLo < 0x100 && i.spareHi < 4
  }

  lemma ParseInfoWord(i: Info)
    requires GoodInfo(i)
    ensures InfoWord(i) < 0x1_0000_0000 && ParseInfo(InfoWord(i)) == i
  {
    var k, f := KindCode(i.kind), if i.kflag then 1 else 0;
    var z := i.spareHi + 4 * f;
    var y := k + 32 * z;
    var x := i.spareLo + 0x100 * y;
    var w := i.vlen + 0x1_0000 * x;
    assert InfoWord(i) == w && x < 0x1_0000;
    Parts(i.vlen, x, i.spareLo, y, k, z);
    assert z % 4 == i.spareHi && z / 4 == f;
  }

  lemma Parts(v: nat, x: nat, l: nat, y: nat, k: nat, z: nat)
    requires v < 0x1_0000 && l < 0x100 && k < 32 && x == l + 0x100 * y && y == k + 32 * z
    ensures (v + 0x1_0000 * x) % 0x1_0000 == v && (v + 0x1_0000 * x) / 0x1_0000 == x
    ensures x % 0x100 == l && x / 0x100 == y && y % 32 == k && y / 32 == z
  {
  }

  lemma InfoWordParse(w: u32)
    ensures GoodInfo(ParseInfo(w)) && InfoWord(ParseInfo(w)) == w
  {
    var x := w / 0x1_0000;
    var y := x / 0x100;
    assert KindCode(KindOf(y % 32)) == y % 32;
  }

  /** btf_type_info: the word for a kind, a vlen and a flag, whatever the vlen. */
  function TypeInfoWord(k: Kind, vlen: nat, kflag: bool): nat {
    vlen + KindCode(k) * 0x100_0000 + if kflag then 0x8000_0000 else 0
  }

  /** One more entry is counted exactly if the count still fits 16 bits. */
  lemma VlenCounts(k: Kind, vlen: u16, kflag: bool)
    requires KindCode(k) < 32 && (k.Other? ==> k.code >= 20)
    ensures TypeInfoWord(k, vlen + 1, kflag) < 0x1_0000_0000
    ensures ParseInfo(TypeInfoWord(k, vlen + 1, kflag)).vlen == vlen + 1 <==> vlen < 0xffff
    ensures vlen < 0xffff ==> ParseInfo(TypeInfoWord(k, vlen + 1, kflag)) == Info(k, vlen + 1, kflag, 0, 0)
    ensures vlen == 0xffff ==> ParseInfo(TypeInfoWord(k, vlen + 1, kflag)) == Info(k, 0, kflag, 1, 0)
  {
    var i := if vlen < 0xffff then Info(k, vlen + 1, kflag, 0, 0) else Info(k, 0, kflag, 1, 0);
    assert TypeInfoWord(k, vlen + 1, kflag) == InfoWord(i);
    ParseInfoWord(i);
  }

  // ----- descriptors

  function MemberWord(m: Member, f: nat): u32 { if f == 0 then m.nameOff else if f == 1 then m.typ else m.offset }
  function ParamWord(p: Param, f: nat): u32 { if f == 0 then p.nameOff else p.typ }
  function EnumWord(e: EnumVal, f: nat): u32 { if f == 0 then e.nameOff else e.val }
  function Enum64Word(e: Enum64Val, f: nat): u32 { if f == 0 then e.nameOff else if f == 1 then e.lo else e.hi }
  function SecWord(s: SecInfo, f: nat): u32 { if f == 0 then s.typ else if f == 1 then s.offset else s.size }

  predicate ThreeAt<T>(es: seq<T>, ws: seq<u32>, word: (T, nat) -> u32, i: nat)
    requires i < |es| && |ws| == 3 * |es|
  {
    ws[3 * i] == word(es[i], 0) && ws[3 * i + 1] == word(es[i], 1) && ws[3 * i + 2] == word(es[i], 2)
  }

  predicate TwoAt<T>(es: seq<T>, ws: seq<u32>, word: (T, nat) -> u32, i: nat)
    requires i < |es| && |ws| == 2 * |es|
  {
    ws[2 * i] == word(es[i], 0) && ws[2 * i + 1] == word(es[i], 1)
  }

  /** Entries of three words each, laid out one after the other. */
  function Threes<T>(es: seq<T>, word: (T, nat) -> u32): (ws: seq<u32>)
    ensures |ws| == 3 * |es| && forall i :: 0 <= i < |es| ==> ThreeAt(es, ws, word, i)
  {
    if es == [] then []
    else
      var n := |es| - 1;
      var rest := Threes(es[..n], word);
      var ws := rest + [word(es[n], 0), word(es[n], 1), word(es[n], 2)];
      assert forall i :: 0 <= i < |es| ==> ThreeAt(es, ws, word, i) by {
        forall i | 0 <= i < |es| ensures ThreeAt(es, ws, word, i) {
          if i < n { assert ThreeAt(es[..n], rest, word, i); }
        }
      }
      ws
  }

  /** Entries of two words each. */
  function Twos<T>(es: seq<T>, word: (T, nat) -> u32): (ws: seq<u32>)
    ensures |ws| == 2 * |es| && forall i :: 0 <= i < |es| ==> TwoAt(es, ws, word, i)
  {
    if es == [] then []
    else
      var n := |es| - 1;
      var rest := Twos(es[..n], word);
      var ws := rest + [word(es[n], 0), word(es[n], 1)];
      assert forall i :: 0 <= i < |es| ==> TwoAt(es, ws, word, i) by {
        forall i | 0 <= i < |es| ensures TwoAt(es, ws, word, i) {
          if i < n { assert TwoAt(es[..n], rest, word, i); }
        }
      }
      ws
  }

  lemma {:induction false} ThreesAre<T>(es: seq<T>, ws: seq<u32>, word: (T, nat) -> u32)
    requires |ws| == 3 * |es| && forall i :: 0 <= i < |es| ==> ThreeAt(es, ws, word, i)
    ensures Threes(es, word) == ws
  {
    if es != [] {
      var n := |es| - 1;
      forall i | 0 <= i < n ensures ThreeAt(es[..n], ws[..3 * n], word, i) { assert ThreeAt(es, ws, word, i); }
      ThreesAre(es[..n], ws[..3 * n], word);
      assert ThreeAt(es, ws, word, n);
      assert ws == ws[..3 * n] + [ws[3 * n], ws[3 * n + 1], ws[3 * n + 2]];
    }
  }

  lemma {:induction false} TwosAre<T>(es: seq<T>, ws: seq<u32>, word: (T, nat) -> u32)
    requires |ws| == 2 * |es| && forall i :: 0 <= i < |es| ==> TwoAt(es, ws, word, i)
    ensures Twos(es, word) == ws
  {
    if es != [] {
      var n := |es| - 1;
      forall i | 0 <= i < n ensures TwoAt(es[..n], ws[..2 * n], word, i) { assert TwoAt(es, ws, word, i); }
      TwosAre(es[..n], ws[..2 * n], word);
      assert TwoAt(es, ws, word, n);
      assert ws == ws[..2 * n] + [ws[2 * n], ws[2 * n + 1]];
    }
  }

  function TailWords(tail: Tail): seq<u32> {
    match tail
    case NoTail => []
    case Word(w) => [w]
    case ArrayTail(e, i, n) => [e, i, n]
    case Members(ms) => Threes(ms, MemberWord)
    case Params(ps) => Twos(ps, ParamWord)
    case Enums(es) => Twos(es, EnumWord)
    case Enums64(es) => Threes(es, Enum64Word)
    case Secs(ss) => Threes(ss, SecWord)
  }

  function HeadWord(t: BtfType, f: nat): u32 {
    if f == 0 then t.nameOff
    else if f == 2 then t.size
    else if GoodInfo(t.info) then ParseInfoWord(t.info); InfoWord(t.info)
    else 0
  }

  /** The words of a descriptor. */
  function Words(t: BtfType): seq<u32> {
    [HeadWord(t, 0), HeadWord(t, 1), HeadWord(t, 2)] + TailWords(t.tail)
  }

  /** A descriptor of a known kind whose parts fit their fields. */
  predicate Storable(t: BtfType) { WfType(t) && GoodInfo(t.info) && TypeSize(t) > 0 }

  function TailOf(info: Info, ws: seq<u32>): Tail
    requires 4 * |ws| == InfoSize(info) - 12
  {
    var n := info.vlen;
    match info.kind
    case Int => Word(ws[0])
    case Var => Word(ws[0])
    case DeclTag => Word(ws[0])
    case Array => ArrayTail(ws[0], ws[1], ws[2])
    case Struct => Members(seq(n, i requires 0 <= i < n => Member(ws[3 * i], ws[3 * i + 1], ws[3 * i + 2])))
    case Union => Members(seq(n, i requires 0 <= i < n => Member(ws[3 * i], ws[3 * i + 1], ws[3 * i + 2])))
    case Enum => Enums(seq(n, i requires 0 <= i < n => EnumVal(ws[2 * i], ws[2 * i + 1])))
    case Enum64 => Enums64(seq(n, i requires 0 <= i < n => Enum64Val(ws[3 * i], ws[3 * i + 1], ws[3 * i + 2])))
    case FuncProto => Params(seq(n, i requires 0 <= i < n => Param(ws[2 * i], ws[2 * i + 1])))
    case Datasec => Secs(seq(n, i requires 0 <= i < n => SecInfo(ws[3 * i], ws[3 * i + 1], ws[3 * i + 2])))
    case _ => NoTail
  }

  /** Reading a descriptor from exactly the words its info word announces. */
  function Decode(ws: seq<u32>): BtfType
    requires |ws| >= 3 && 4 * |ws| == InfoSize(ParseInfo(ws[1]))
  {
    BtfType(ws[0], ParseInfo(ws[1]), ws[2], TailOf(ParseInfo(ws[1]), ws[3..]))
  }

  lemma WordsSize(t: BtfType)
    requires Storable(t)
    ensures 4 * |Words(t)| == TypeSize(t) && |Words(t)| >= 3
    ensures Words(t)[1] == InfoWord(t.info) && ParseInfo(Words(t)[1]) == t.info
  {
    ParseInfoWord(t.info);
  }

  lemma DecodeWords(t: BtfType)
    requires Storable(t)
    ensures 4 * |Words(t)| == TypeSize(t) && |Words(t)| >= 3 && ParseInfo(Words(t)[1]) == t.info && Decode(Words(t)) == t
  {
    WordsSize(t);
    assert Words(t)[3..] == TailWords(t.tail);
    DecodeTail(t.info, t.tail);
  }

  lemma DecodeTail(info: Info, tail: Tail)
    requires WfType(BtfType(0, info, 0, tail)) && InfoSize(info) > 0
    ensures 4 * |TailWords(tail)| == InfoSize(info) - 12 && TailOf(info, TailWords(tail)) == tail
  {
    var ws := TailWords(tail);
    match tail
    case Members(ms) =>
      forall i | 0 <= i < |ms| ensures Member(ws[3 * i], ws[3 * i + 1], ws[3 * i + 2]) == ms[i] { assert ThreeAt(ms, ws, MemberWord, i); }
    case Enums64(es) =>
      forall i | 0 <= i < |es| ensures Enum64Val(ws[3 * i], ws[3 * i + 1], ws[3 * i + 2]) == es[i] { assert ThreeAt(es, ws, Enum64Word, i); }
    case Secs(ss) =>
      forall i | 0 <= i < |ss| ensures SecInfo(ws[3 * i], ws[3 * i + 1], ws[3 * i + 2]) == ss[i] { assert ThreeAt(ss, ws, SecWord, i); }
    case Params(ps) =>
      forall i | 0 <= i < |ps| ensures Param(ws[2 * i], ws[2 * i + 1]) == ps[i] { assert TwoAt(ps, ws, ParamWord, i); }
    case Enums(es) =>
      forall i | 0 <= i < |es| ensures EnumVal(ws[2 * i], ws[2 * i + 1]) == es[i] { assert TwoAt(es, ws, EnumWord, i); }
    case _ =>
  }

  /** Every run of words of the announced length is a descriptor, and its words are that run. */
  lemma WordsDecode(ws: seq<u32>)
    requires |ws| >= 3 && 4 * |ws| == InfoSize(ParseInfo(ws[1]))
    ensures Storable(Decode(ws)) && Words(Decode(ws)) == ws
  {
    var t, info := Decode(ws), ParseInfo(ws[1]);
    InfoWordParse(ws[1]);
    WordsTail(info, ws[3..]);
    assert ws == [ws[0], ws[1], ws[2]] + ws[3..];
  }

  lemma WordsTail(info: Info, ws: seq<u32>)
    requires 4 * |ws| == InfoSize(info) - 12
    ensures TailWords(TailOf(info, ws)) == ws && WfType(BtfType(0, info, 0, TailOf(info, ws)))
  {
    match TailOf(info, ws)
    case Members(ms) => ThreesAre(ms, ws, MemberWord);
    case Enums64(es) => ThreesAre(es, ws, Enum64Word);
    case Secs(ss) => ThreesAre(ss, ws, SecWord);
    case Params(ps) => TwosAre(ps, ws, ParamWord);
    case Enums(es) => TwosAre(es, ws, EnumWord);
    case _ =>
  }
}
