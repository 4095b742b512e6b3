/** Type descriptors: the records a BTF type section is made of, with the type ids they refer to. */
module BtfTypes {
  import opened Ints

  // Largest type id a BTF may hold; anything above it is a marker, not an id.
  const BTF_MAX_NR_TYPES: u32 := 0x7fff_ffff

  datatype Kind =
    | Unkn | Int | Ptr | Array | Struct | Union | Enum | Fwd | Typedef | Volatile | Const
    | Restrict | Func | FuncProto | Var | Datasec | Float | DeclTag | TypeTag | Enum64
    | Other(code: nat)

  // The bit fields of the `info` word; the spare fields are its unused bits 16-23 and 29-30.
  datatype Info = Info(kind: Kind, vlen: u16, kflag: bool, spareLo: nat, spareHi: nat)

  function KindCode(k: Kind): nat {
    match k
    case Unkn => 0 case Int => 1 case Ptr => 2 case Array => 3 case Struct => 4 case Union => 5
    case Enum => 6 case Fwd => 7 case Typedef => 8 case Volatile => 9 case Const => 10
    case Restrict => 11 case Func => 12 case FuncProto => 13 case Var => 14 case Datasec => 15
    case Float => 16 case DeclTag => 17 case TypeTag => 18 case Enum64 => 19
    case Other(code) => code
  }

  function InfoWord(info: Info): nat {
    info.vlen + info.spareLo * 0x1_0000 + KindCode(info.kind) * 0x100_0000 + info.spareHi * 0x2000_0000
    + if info.kflag then 0x8000_0000 else 0
  }

  datatype Member = Member(nameOff: u32, typ: u32, offset: u32)
  datatype Param = Param(nameOff: u32, typ: u32)
  datatype EnumVal = EnumVal(nameOff: u32, val: u32)
  datatype Enum64Val = Enum64Val(nameOff: u32, lo: u32, hi: u32)
  datatype SecInfo = SecInfo(typ: u32, offset: u32, size: u32)

  // What follows the three common words of a descriptor. `Word` is the encoding of an INT,
  // the linkage of a VAR or the component index of a DECL_TAG.
  datatype Tail =
    | NoTail
    | Word(w: u32)
    | ArrayTail(elem: u32, index: u32, nelems: u32)
    | Members(ms: seq<Member>)
    | Params(ps: seq<Param>)
    | Enums(es: seq<EnumVal>)
    | Enums64(es64: seq<Enum64Val>)
    | Secs(ss: seq<SecInfo>)

  // `size` is the union of the C fields `size` and `type`.
  datatype BtfType = BtfType(nameOff: u32, info: Info, size: u32, tail: Tail)

  const VOID := BtfType(0, Info(Unkn, 0, false, 0, 0), 0, NoTail)

  predicate IsComposite(t: BtfType) { t.info.kind == Struct || t.info.kind == Union }
  predicate IsAnyEnum(t: BtfType) { t.info.kind == Enum || t.info.kind == Enum64 }
  predicate IsFwd(t: BtfType) { t.info.kind == Fwd }
  predicate IsEnumFwd(t: BtfType) { IsAnyEnum(t) && t.info.vlen == 0 }

  /** The kinds that dedup resolves in its reference pass through the single id in `size`. */
  predicate IsRefKind(k: Kind) {
    k == Const || k == Volatile || k == Restrict || k == Ptr || k == Typedef || k == Func || k == TypeTag
  }

  /** Types whose references dedup canonicalises in place. */
  predicate IsRewritten(t: BtfType) {
    IsRefKind(t.info.kind) || t.info.kind == DeclTag || t.info.kind == Array || t.info.kind == FuncProto
  }

  /** Does `size` hold a type id for this kind? */
  predicate TypeInSize(k: Kind) {
    IsRefKind(k) || k == Fwd || k == Var || k == DeclTag || k == FuncProto
  }

  /** The tail has the layout, and the number of entries, that kind and vlen announce. */
  predicate WfType(t: BtfType) {
    match t.info.kind
    case Int => t.tail.Word?
    case Var => t.tail.Word?
    case DeclTag => t.tail.Word?
    case Array => t.tail.ArrayTail?
    case Struct => t.tail.Members? && |t.tail.ms| == t.info.vlen
    case Union => t.tail.Members? && |t.tail.ms| == t.info.vlen
    case Enum => t.tail.Enums? && |t.tail.es| == t.info.vlen
    case Enum64 => t.tail.Enums64? && |t.tail.es64| == t.info.vlen
    case FuncProto => t.tail.Params? && |t.tail.ps| == t.info.vlen
    case Datasec => t.tail.Secs? && |t.tail.ss| == t.info.vlen
    case _ => t.tail.NoTail?
  }

  // ----- references

  function TailRefs(tail: Tail): seq<u32> {
    match tail
    case ArrayTail(e, i, _) => [e, i]
    case Members(ms) => seq(|ms|, i requires 0 <= i < |ms| => ms[i].typ)
    case Params(ps) => seq(|ps|, i requires 0 <= i < |ps| => ps[i].typ)
    case Secs(ss) => seq(|ss|, i requires 0 <= i < |ss| => ss[i].typ)
    case _ => []
  }

  /** Every type id the descriptor refers to, in the order they are visited. */
  function Refs(t: BtfType): seq<u32> {
    (if TypeInSize(t.info.kind) then [t.size] else []) + TailRefs(t.tail)
  }

  function TailLabel(tail: Tail): Tail {
    match tail
    case ArrayTail(_, _, n) => ArrayTail(0, 0, n)
    case Members(ms) => Members(seq(|ms|, i requires 0 <= i < |ms| => ms[i].(typ := 0)))
    case Params(ps) => Params(seq(|ps|, i requires 0 <= i < |ps| => ps[i].(typ := 0)))
    case Secs(ss) => Secs(seq(|ss|, i requires 0 <= i < |ss| => ss[i].(typ := 0)))
    case _ => tail
  }

  /** Everything in the descriptor except the ids it refers to. */
  function Label(t: BtfType): BtfType {
    t.(size := if TypeInSize(t.info.kind) then 0 else t.size, tail := TailLabel(t.tail))
  }

  predicate AllBelow(rs: seq<u32>, n: nat) { forall i :: 0 <= i < |rs| ==> rs[i] < n }

  predicate RefsBelow(t: BtfType, n: nat) { AllBelow(Refs(t), n) }

  lemma TailRefsBelow(t: BtfType, n: nat)
    requires RefsBelow(t, n)
    ensures AllBelow(TailRefs(t.tail), n)
    ensures TypeInSize(t.info.kind) ==> t.size < n
  {
    var k := if TypeInSize(t.info.kind) then 1 else 0;
    assert TypeInSize(t.info.kind) ==> Refs(t)[0] == t.size;
    forall i | 0 <= i < |TailRefs(t.tail)| ensures TailRefs(t.tail)[i] < n {
      assert TailRefs(t.tail)[i] == Refs(t)[k + i];
    }
  }

  function MapTail(tail: Tail, f: seq<u32>): Tail
    requires AllBelow(TailRefs(tail), |f|)
  {
    match tail
    case ArrayTail(e, i, n) =>
      assert TailRefs(tail)[0] == e && TailRefs(tail)[1] == i;
      ArrayTail(f[e], f[i], n)
    case Members(ms) =>
      Members(seq(|ms|, i requires 0 <= i < |ms| => assert TailRefs(tail)[i] == ms[i].typ; ms[i].(typ := f[ms[i].typ])))
    case Params(ps) =>
      Params(seq(|ps|, i requires 0 <= i < |ps| => assert TailRefs(tail)[i] == ps[i].typ; ps[i].(typ := f[ps[i].typ])))
    case Secs(ss) =>
      Secs(seq(|ss|, i requires 0 <= i < |ss| => assert TailRefs(tail)[i] == ss[i].typ; ss[i].(typ := f[ss[i].typ])))
    case _ => tail
  }

  /** The descriptor with every id r it refers to replaced by f[r]. */
  function MapRefs(t: BtfType, f: seq<u32>): BtfType
    requires RefsBelow(t, |f|)
  {
    TailRefsBelow(t, |f|);
    t.(size := if TypeInSize(t.info.kind) then f[t.size] else t.size, tail := MapTail(t.tail, f))
  }

  lemma TailLabelRefs(a: Tail, b: Tail)
    requires TailLabel(a) == TailLabel(b)
    ensures |TailRefs(a)| == |TailRefs(b)|
    ensures TailRefs(a) == TailRefs(b) ==> a == b
  {
    if TailRefs(a) == TailRefs(b) {
      match a
      case Members(ms) =>
        forall i | 0 <= i < |ms| ensures ms[i] == b.ms[i] {
          assert TailLabel(a).ms[i] == TailLabel(b).ms[i];
          assert TailRefs(a)[i] == TailRefs(b)[i];
        }
      case Params(ps) =>
        forall i | 0 <= i < |ps| ensures ps[i] == b.ps[i] {
          assert TailLabel(a).ps[i] == TailLabel(b).ps[i];
          assert TailRefs(a)[i] == TailRefs(b)[i];
        }
      case Secs(ss) =>
        forall i | 0 <= i < |ss| ensures ss[i] == b.ss[i] {
          assert TailLabel(a).ss[i] == TailLabel(b).ss[i];
          assert TailRefs(a)[i] == TailRefs(b)[i];
        }
      case ArrayTail(_, _, _) =>
        assert TailRefs(a)[0] == TailRefs(b)[0] && TailRefs(a)[1] == TailRefs(b)[1];
      case _ =>
    }
  }

  /** A descriptor is its label plus its references, and nothing else. */
  lemma LabelRefs(a: BtfType, b: BtfType)
    requires Label(a) == Label(b)
    ensures |Refs(a)| == |Refs(b)|
    ensures Refs(a) == Refs(b) ==> a == b
  {
    TailLabelRefs(a.tail, b.tail);
    assert Label(a).info == Label(b).info;
    if Refs(a) == Refs(b) {
      if TypeInSize(a.info.kind) {
        assert Refs(a)[0] == a.size && Refs(b)[0] == b.size;
        assert TailRefs(a.tail) == Refs(a)[1..] == Refs(b)[1..] == TailRefs(b.tail);
      } else {
        assert TailRefs(a.tail) == Refs(a) == Refs(b) == TailRefs(b.tail);
      }
      assert Label(a).size == Label(b).size;
    }
  }

  lemma MapTailRefs(tail: Tail, f: seq<u32>)
    requires AllBelow(TailRefs(tail), |f|)
    ensures TailLabel(MapTail(tail, f)) == TailLabel(tail)
    ensures |TailRefs(MapTail(tail, f))| == |TailRefs(tail)|
    ensures forall i :: 0 <= i < |TailRefs(tail)| ==> TailRefs(MapTail(tail, f))[i] == f[TailRefs(tail)[i]]
  {
  }

  /** MapRefs changes exactly the references, each one by f. */
  lemma MapRefsRefs(t: BtfType, f: seq<u32>)
    requires RefsBelow(t, |f|)
    ensures Label(MapRefs(t, f)) == Label(t)
    ensures |Refs(MapRefs(t, f))| == |Refs(t)|
    ensures forall i :: 0 <= i < |Refs(t)| ==> Refs(MapRefs(t, f))[i] == f[Refs(t)[i]]
    ensures WfType(t) ==> WfType(MapRefs(t, f))
  {
    TailRefsBelow(t, |f|);
    MapTailRefs(t.tail, f);
  }

  /** The references of a well-formed descriptor, kind by kind. */
  lemma RefsByKind(t: BtfType)
    requires WfType(t)
    ensures IsRefKind(t.info.kind) || t.info.kind == DeclTag || t.info.kind == Fwd || t.info.kind == Var ==> Refs(t) == [t.size]
    ensures t.info.kind == Array ==> Refs(t) == [t.tail.elem, t.tail.index]
    ensures IsComposite(t) ==> |Refs(t)| == |t.tail.ms| && forall i :: 0 <= i < |t.tail.ms| ==> Refs(t)[i] == t.tail.ms[i].typ
    ensures t.info.kind == FuncProto ==> |Refs(t)| == |t.tail.ps| + 1 && Refs(t)[0] == t.size
                                         && forall i :: 0 <= i < |t.tail.ps| ==> Refs(t)[i + 1] == t.tail.ps[i].typ
    ensures t.info.kind == Datasec ==> |Refs(t)| == |t.tail.ss| && forall i :: 0 <= i < |t.tail.ss| ==> Refs(t)[i] == t.tail.ss[i].typ
    ensures t.info.kind == Int || t.info.kind == Float || IsAnyEnum(t) || t.info.kind == Unkn || t.info.kind.Other? ==> Refs(t) == []
  {
  }

  /** Overwrite the i-th reference of a descriptor. */
  function SetRef(t: BtfType, i: nat, r: u32): BtfType
    requires i < |Refs(t)|
  {
    if TypeInSize(t.info.kind) && i == 0 then t.(size := r)
    else
      var j := if TypeInSize(t.info.kind) then i - 1 else i;
      t.(tail := match t.tail
                 case ArrayTail(e, x, n) => if j == 0 then ArrayTail(r, x, n) else ArrayTail(e, r, n)
                 case Members(ms) => Members(ms[j := ms[j].(typ := r)])
                 case Params(ps) => Params(ps[j := ps[j].(typ := r)])
                 case Secs(ss) => Secs(ss[j := ss[j].(typ := r)])
                 case _ => t.tail)
  }

  lemma SetRefRefs(t: BtfType, i: nat, r: u32)
    requires i < |Refs(t)|
    ensures Refs(SetRef(t, i, r)) == Refs(t)[i := r]
    ensures Label(SetRef(t, i, r)) == Label(t)
    ensures WfType(t) ==> WfType(SetRef(t, i, r))
  {
    var t' := SetRef(t, i, r);
    assert TailLabel(t'.tail) == TailLabel(t.tail);
    if TypeInSize(t.info.kind) && i > 0 {
      assert TailRefs(t'.tail) == TailRefs(t.tail)[i - 1 := r];
    } else if !TypeInSize(t.info.kind) {
      assert TailRefs(t'.tail) == TailRefs(t.tail)[i := r];
    }
  }

  /** Replacing the references of a descriptor one by one by f gives MapRefs. */
  lemma AllRefsSet(t: BtfType, t': BtfType, f: seq<u32>)
    requires RefsBelow(t, |f|) && Label(t') == Label(t) && |Refs(t')| == |Refs(t)|
    requires forall i :: 0 <= i < |Refs(t)| ==> Refs(t')[i] == f[Refs(t)[i]]
    ensures t' == MapRefs(t, f)
  {
    MapRefsRefs(t, f);
    LabelRefs(t', MapRefs(t, f));
  }

  /** Bytes a descriptor takes in the type section; negative for a kind that is not known. */
  function TypeSize(t: BtfType): int { InfoSize(t.info) }

  function InfoSize(info: Info): int {
    match info.kind
    case Int => 12 + 4
    case Enum => 12 + 8 * info.vlen
    case Enum64 => 12 + 12 * info.vlen
    case Array => 12 + 12
    case Struct => 12 + 12 * info.vlen
    case Union => 12 + 12 * info.vlen
    case FuncProto => 12 + 8 * info.vlen
    case Var => 12 + 4
    case Datasec => 12 + 12 * info.vlen
    case DeclTag => 12 + 4
    case Unkn => -22
    case Other(_) => -22
    case _ => 12
  }
}
