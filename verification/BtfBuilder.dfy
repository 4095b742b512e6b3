/** A BTF under construction: types and entries are appended one call at a time. */
module BtfBuilder {
  import opened Bytes
  import opened Ints
  import opened BtfTypes
  import opened BtfEntries
  import opened BtfWords
  import opened Errno
  import opened BtfSection
  import opened BtfFile
  import opened Options
  import opened Strsets

  const UINT_MAX := 0xffff_ffff
  const INT_MAX := 0x7fff_ffff
  const INT_MIN := -0x8000_0000
  const BTF_INT_MASK: nat := 7

  datatype FwdKind = FwdStruct | FwdUnion | FwdEnum | FwdUnknown

  /** validate_type_id. */
  predicate GoodId(id: int) { 0 <= id <= BTF_MAX_NR_TYPES }

  predicate IsBitfield(bitOffset: u32, bitSize: u32) { bitSize != 0 || bitOffset % 8 != 0 }

  /** The arguments that btf__add_field accepts. */
  ghost predicate GoodField(ts: seq<BtfType>, typeId: int, bitOffset: u32, bitSize: u32) {
    ts != [] && IsComposite(ts[|ts| - 1]) && GoodId(typeId) &&
    (IsBitfield(bitOffset, bitSize) ==> 0 < bitSize <= 255 && bitOffset <= 0xff_ffff) &&
    (ts[|ts| - 1].info.kind == Union ==> bitOffset == 0)
  }

  /** The bits of a member: its offset, and above it the size of a bitfield. */
  function MemberBits(bitOffset: u32, bitSize: u32): u32
    requires bitSize <= 255 && (bitSize > 0 ==> bitOffset <= 0xff_ffff)
  {
    bitOffset + bitSize * 0x100_0000
  }

  /** The member that btf__add_field appends, its name apart. */
  function FieldEntry(typeId: int, bitOffset: u32, bitSize: u32): Entry
    requires GoodId(typeId) && (IsBitfield(bitOffset, bitSize) ==> 0 < bitSize <= 255 && bitOffset <= 0xff_ffff)
  {
    OfStruct(Member(0, typeId, MemberBits(bitOffset, bitSize)))
  }

  function FieldFlag(bitOffset: u32, bitSize: u32, kflag: bool): bool { IsBitfield(bitOffset, bitSize) || kflag }

  ghost predicate LastIs(ts: seq<BtfType>, k: Kind) { ts != [] && ts[|ts| - 1].info.kind == k }

  // ----- names

  /** btf__str_by_offset: the string at an offset, first those of the base, then the others. */
  function NameIn(baseStrs: seq<u8>, strs: seq<u8>, off: nat): seq<u8> {
    if off < |baseStrs| then Text(baseStrs, off) else Text(strs, off - |baseStrs|)
  }

  /** Every call leaves the strings it found in place, so every name offset in use keeps its name. */
  lemma NameKept(baseStrs: seq<u8>, before: seq<u8>, after: seq<u8>, off: nat)
    requires before <= after && Terminated(before) && off < |baseStrs| + |before|
    ensures NameIn(baseStrs, after, off) == NameIn(baseStrs, before, off)
  {
    if off >= |baseStrs| {
      var more := after[|before|..];
      assert after == before + more;
      TextStable(before, more, off - |baseStrs|);
    }
  }

  /** The strings that btf__add_str looks through: those of the base, and those of this BTF, which start after them. */
  datatype Strings = Strings(base: Option<StrTable>, start: nat, own: StrTable) {
    predicate InBase(s: seq<u8>) { base.Some? && s in base.value.index }

    predicate BaseFull(s: seq<u8>) { base.Some? && |base.value.data| + |s| + 1 > BTF_MAX_STR_OFFSET }

    predicate Full(s: seq<u8>) { |own.data| + |s| + 1 > BTF_MAX_STR_OFFSET }

    /** There is no room for the string, wherever it is looked for. */
    predicate Refuses(s: seq<u8>) { BaseFull(s) || (!InBase(s) && Full(s)) }

    /** The offset that a string is found or put at, or the error. */
    function Find(s: seq<u8>): int {
      if BaseFull(s) then -ENOMEM
      else if InBase(s) then base.value.index[s]
      else if Full(s) then -ENOMEM
      else AsInt(start + if s in own.index then own.index[s] else |own.data|)
    }

    /** The strings afterwards. */
    function Add(s: seq<u8>): Strings {
      if BaseFull(s) || InBase(s) || Full(s) then this else this.(own := own.With(s))
    }
  }

  // ----- what the calls do to the list of descriptors

  ghost predicate Appended(before: seq<BtfType>, after: seq<BtfType>, info: Info, size: u32, tail: Tail) {
    |after| == |before| + 1 && after[..|before|] == before && after[|before|] == BtfType(after[|before|].nameOff, info, size, tail)
  }

  /** A signed or unsigned number stored in a word. */
  function AsWord(n: int): u32
    requires INT_MIN <= n <= UINT_MAX
  {
    if n < 0 then n + 0x1_0000_0000 else n
  }

  function LowWord(v: nat): u32 { v % 0x1_0000_0000 }

  function HighWord(v: nat): u32 { v / 0x1_0000_0000 % 0x1_0000_0000 }

  /** An unsigned word returned as an int. */
  function AsInt(w: nat): int { if w > INT_MAX then w - 0x1_0000_0000 else w }

  /** The words of a section under construction, where its types start, and how many there are. */
  ghost predicate Holds(types: seq<u32>, offs: seq<nat>, nrTypes: nat, ts: seq<BtfType>) {
    AllStorable(ts) && types == Section(ts) && Starts(offs, ts) && nrTypes == |ts|
  }

  class Builder {
    const startId: nat
    const base: Strset?
    const strs: Strset
    const startStrOff: nat
    var hdr: Header
    var types: seq<u32>
    var offs: seq<nat>
    var nrTypes: nat
    ghost var ts: seq<BtfType>

    ghost function Repr(): set<object>
      reads this
    {
      {this, strs} + if base == null then {} else {base}
    }

    /** The header describes the sections, and the type section is the descriptors appended so far. */
    ghost predicate Valid()
      reads this, strs, base
    {
      match Base()
      case None => Names() && Typed()
      case Some(b) => b.Valid() && Names() && Typed()
    }

    /** The strings, of this BTF and of its base. */
    ghost predicate Names()
      reads this, strs, base
    {
      match Base()
      case None => startStrOff == 0 && GoodStrs(strs.data, false) && OwnNames()
      case Some(b) =>
        b != strs && b.Valid() && b.maxLen == BTF_MAX_STR_OFFSET && GoodStrs(b.data, false) && startStrOff == |b.data| &&
        GoodStrs(strs.data, true) && OwnNames()
    }

    ghost predicate OwnNames()
      reads this, strs
    {
      strs.Valid() && strs.maxLen == BTF_MAX_STR_OFFSET && hdr.strLen == |strs.data|
    }

    /** The types. */
    ghost predicate Typed()
      reads this
    {
      startId >= 1 && Describes(hdr, 4 * |types|, hdr.strLen) && Holds(types, offs, nrTypes, ts)
    }

    ghost function Base(): Option<Strset> {
      if base == null then None else Some(base as Strset)
    }

    ghost function BaseStrs(): seq<u8>
      reads base
    {
      if base == null then [] else base.data
    }

    /** The name an offset stands for. */
    ghost function Name(off: nat): seq<u8>
      reads strs, base
    {
      NameIn(BaseStrs(), strs.data, off)
    }

    ghost function Known(): Strings
      reads strs, base
    {
      Strings(if base == null then None else Some(base.Table()), startStrOff, strs.Table())
    }

    // ----- what a call returns

    /** The offset that a string is found or put at, or the error. */
    ghost function StrResult(s: seq<u8>): int
      reads strs, base
    {
      Known().Find(s)
    }

    /** No string but the name has been added. */
    ghost predicate NameOnly(was: Strings, name: seq<u8>)
      reads strs, base
    {
      Known() == was || (name != [] && Known() == was.Add(name))
    }

    /** A name may be empty, and then needs no string. */
    ghost function NameResult(name: seq<u8>): int
      reads strs, base
    {
      if name == [] then 0 else StrResult(name)
    }

    /** With good arguments, a call fails for want of room for its words or its name, and for nothing else. */
    ghost function Room(name: seq<u8>, words: nat): int
      reads this, strs, base
    {
      if hdr.typeLen + 4 * words > UINT_MAX then -ENOMEM else NameResult(name)
    }

    ghost function TypeResult(name: seq<u8>, words: nat): int
      reads this, strs, base
    {
      if Room(name, words) < 0 then Room(name, words) else startId + |ts|
    }

    ghost function EntryResult(name: seq<u8>, words: nat): int
      reads this, strs, base
    {
      if Room(name, words) < 0 then Room(name, words) else 0
    }

    /** Without a base, there is room for a string exactly if its bytes fit the string section. */
    lemma StrRoom(s: seq<u8>)
      requires Names() && base == null
      ensures StrResult(s) < 0 <==> |strs.data| + |s| + 1 > BTF_MAX_STR_OFFSET
      ensures StrResult(s) < 0 ==> StrResult(s) == -ENOMEM
    {
      if s in strs.index { assert StandsAt(strs.data, strs.index[s], s); }
    }

    lemma NameRoom(name: seq<u8>)
      requires Names() && base == null
      ensures NameResult(name) < 0 <==> name != [] && |strs.data| + |name| + 1 > BTF_MAX_STR_OFFSET
      ensures NameResult(name) < 0 ==> NameResult(name) == -ENOMEM
    {
      StrRoom(name);
    }

    /** This descriptor, under this name, has been appended and nothing else. */
    ghost predicate NewType(before: seq<BtfType>, name: seq<u8>, info: Info, size: u32, tail: Tail)
      reads this, strs, base
    {
      Appended(before, ts, info, size, tail) && Name(ts[|before|].nameOff) == name
    }

    /** btf_new_empty. */
    constructor ()
      ensures Valid() && ts == [] && startId == 1 && base == null && strs.data == [0] && fresh(Repr())
    {
      startId, base, startStrOff := 1, null, 0;
      strs := new Strset([0], BTF_MAX_STR_OFFSET);
      hdr := Header(BTF_MAGIC, BTF_VERSION, 0, HDR_SIZE, 0, 0, 0, 1);
      types, offs, nrTypes, ts := [], [], 0, [];
    }

    /** btf_new_empty on top of a base, whose strings are shared and whose types come first. */
    constructor Split(nextId: nat, baseStrs: Strset)
      requires nextId >= 1 && baseStrs.Valid() && baseStrs.maxLen == BTF_MAX_STR_OFFSET && GoodStrs(baseStrs.data, false)
      ensures Valid() && ts == [] && startId == nextId && base == baseStrs && fresh(Repr() - {baseStrs})
    {
      startId, base, startStrOff := nextId, baseStrs, |baseStrs.data|;
      strs := new Strset([], BTF_MAX_STR_OFFSET);
      hdr := Header(BTF_MAGIC, BTF_VERSION, 0, HDR_SIZE, 0, 0, 0, 0);
      types, offs, nrTypes, ts := [], [], 0, [];
    }

    // ----- strings

    /** btf__add_str: strings of the base are used where they are. */
    method AddStr(s: seq<u8>) returns (r: int)
      requires Names() && NoNul(s)
      modifies this`hdr, strs
      ensures Names() && old(strs.data) <= strs.data && hdr == old(hdr).(strLen := |strs.data|)
      ensures r == old(StrResult(s)) && r <= INT_MAX && Known() == old(Known()).Add(s)
      ensures r >= 0 ==> Name(r) == s && r < startStrOff + |strs.data|
    {
      r := SearchBase(s);
      if r != -ENOENT { return; }
      r := AddBehind(s);
    }

    /** btf__find_str in the base, if there is one. */
    method SearchBase(s: seq<u8>) returns (r: int)
      requires Names() && NoNul(s)
      ensures r == -ENOENT <==> !Known().BaseFull(s) && !Known().InBase(s)
      ensures r != -ENOENT ==> r == StrResult(s) && r <= INT_MAX && Known().Add(s) == Known()
      ensures r >= 0 ==> Name(r) == s && r < startStrOff
    {
      if base == null { return -ENOENT; }
      r := base.FindStr(s);
    }

    /** The part of btf__add_str after the base has been searched. */
    method AddBehind(s: seq<u8>) returns (r: int)
      requires Names() && NoNul(s) && !Known().BaseFull(s) && !Known().InBase(s)
      modifies this`hdr, strs
      ensures Names() && old(strs.data) <= strs.data && hdr == old(hdr).(strLen := |strs.data|)
      ensures r == old(StrResult(s)) && r <= INT_MAX && Known() == old(Known()).Add(s)
      ensures r >= 0 ==> Name(r) == s && r < startStrOff + |strs.data|
    {
      r := AddOwnStr(s);
      if r >= 0 {
        assert startStrOff == |BaseStrs()| && Name(startStrOff + r) == s;
        r := AsInt(startStrOff + r);
      }
    }

    /** A string of this BTF; off counts from the end of the base. */
    method AddOwnStr(s: seq<u8>) returns (off: int)
      requires Names() && NoNul(s)
      modifies this`hdr, strs
      ensures Names() && old(strs.data) <= strs.data && hdr == old(hdr).(strLen := |strs.data|)
      ensures off == if |old(strs.data)| + |s| + 1 > BTF_MAX_STR_OFFSET then -ENOMEM
                     else if s in old(strs.index) then old(strs.index)[s] else |old(strs.data)|
      ensures strs.Table() == if |old(strs.data)| + |s| + 1 > BTF_MAX_STR_OFFSET then old(strs.Table()) else old(strs.Table()).With(s)
      ensures off >= 0 ==> off < |strs.data| && Text(strs.data, off) == s
    {
      off := strs.AddStr(s);
      hdr := hdr.(strLen := |strs.data|);
    }

    /** The offset of a name; the empty one needs no string. */
    method AddName(name: seq<u8>) returns (r: int)
      requires Names() && NoNul(name)
      modifies this`hdr, strs
      ensures Names() && old(strs.data) <= strs.data && hdr == old(hdr).(strLen := |strs.data|)
      ensures r == old(NameResult(name)) && r <= INT_MAX && NameOnly(old(Known()), name)
      ensures r >= 0 ==> Name(r) == name
    {
      if name == [] { return 0; }
      r := AddStr(name);
    }

    /** Make sure of room in the type section and of the name. */
    method Reserve(name: seq<u8>, words: nat) returns (r: int)
      requires Valid() && NoNul(name)
      modifies this`hdr, strs
      ensures Valid() && old(strs.data) <= strs.data && NameOnly(old(Known()), name) && hdr == old(hdr).(strLen := |strs.data|)
      ensures r == old(Room(name, words)) && r <= INT_MAX
      ensures r >= 0 ==> Name(r) == name && hdr.typeLen + 4 * words <= UINT_MAX
    {
      if hdr.typeLen + 4 * words > UINT_MAX { return -ENOMEM; }
      r := AddName(name);
    }

    // ----- appending types

    /** btf_commit_type, after the words of the new descriptor have been put at the end of the section. */
    method Commit(words: seq<u32>, ghost t: BtfType) returns (id: int)
      requires Valid() && Storable(t) && words == Words(t) && hdr.typeLen + 4 * |words| <= UINT_MAX
      modifies this
      ensures Valid() && ts == old(ts) + [t] && id == startId + |old(ts)|
    {
      SectionSnoc(ts, t);
      StartsSnoc(offs, ts, t);
      offs := offs + [hdr.typeLen];
      types := types + words;
      hdr := hdr.(typeLen := hdr.typeLen + 4 * |words|, strOff := hdr.strOff + 4 * |words|);
      nrTypes := nrTypes + 1;
      ts := ts + [t];
      id := startId + nrTypes - 1;
    }

    /** A name takes no part in whether a descriptor can be stored. */
    static lemma NamedWords(nameOff: u32, info: Info, size: u32, tail: Tail, rest: seq<u32>)
      requires Storable(BtfType(0, info, size, tail)) && rest == TailWords(tail)
      ensures var t := BtfType(nameOff, info, size, tail); Storable(t) && Words(t) == HeadWords(nameOff, info, size) + rest
    {
    }

    /** Append a descriptor with a name, which may be empty. */
    method Append(name: seq<u8>, info: Info, size: u32, rest: seq<u32>, ghost tail: Tail) returns (r: int)
      requires Valid() && NoNul(name) && Storable(BtfType(0, info, size, tail)) && rest == TailWords(tail)
      modifies this, strs
      ensures Valid() && old(strs.data) <= strs.data && NameOnly(old(Known()), name) && r == old(TypeResult(name, 3 + |rest|))
      ensures if r < 0 then ts == old(ts) else NewType(old(ts), name, info, size, tail)
    {
      var nameOff := Reserve(name, 3 + |rest|);
      if nameOff < 0 { return nameOff; }
      NamedWords(nameOff, info, size, tail, rest);
      r := Commit(HeadWords(nameOff, info, size) + rest, BtfType(nameOff, info, size, tail));
    }

    /** Append a type of a kind with a list of entries, none so far. */
    method AppendEmpty(name: seq<u8>, kind: Kind, kflag: bool, size: u32) returns (r: int)
      requires Valid() && NoNul(name) && HasEntries(kind)
      modifies this, strs
      ensures Valid() && old(strs.data) <= strs.data && NameOnly(old(Known()), name) && r == old(TypeResult(name, 3))
      ensures if r < 0 then ts == old(ts) else NewType(old(ts), name, Info(kind, 0, kflag, 0, 0), size, EmptyTail(kind))
    {
      EmptyStorable(kind, kflag, size);
      r := Append(name, Info(kind, 0, kflag, 0, 0), size, [], EmptyTail(kind));
    }

    /** btf__add_int: sizes up to 16 that are powers of two, and three encoding bits. */
    method AddInt(name: seq<u8>, byteSz: nat, encoding: int) returns (r: int)
      requires Valid() && NoNul(name)
      modifies this, strs
      ensures Valid() && old(strs.data) <= strs.data && NameOnly(old(Known()), name)
      ensures r == if name == [] || byteSz !in {1, 2, 4, 8, 16} || !(0 <= encoding <= BTF_INT_MASK) then -EINVAL else old(TypeResult(name, 4))
      ensures if r < 0 then ts == old(ts) else NewType(old(ts), name, Info(Int, 0, false, 0, 0), byteSz, Word(encoding * 0x100_0000 + 8 * byteSz))
    {
      if name == [] { return -EINVAL; }
      if byteSz !in {1, 2, 4, 8, 16} { return -EINVAL; }
      if !(0 <= encoding <= BTF_INT_MASK) { return -EINVAL; }
      var w := encoding * 0x100_0000 + 8 * byteSz;
      r := Append(name, Info(Int, 0, false, 0, 0), byteSz, [w], Word(w));
    }

    /** btf__add_float. */
    method AddFloat(name: seq<u8>, byteSz: nat) returns (r: int)
      requires Valid() && NoNul(name)
      modifies this, strs
      ensures Valid() && old(strs.data) <= strs.data && NameOnly(old(Known()), name)
      ensures r == if name == [] || byteSz !in {2, 4, 8, 12, 16} then -EINVAL else old(TypeResult(name, 3))
      ensures if r < 0 then ts == old(ts) else NewType(old(ts), name, Info(Float, 0, false, 0, 0), byteSz, NoTail)
    {
      if name == [] { return -EINVAL; }
      if byteSz !in {2, 4, 8, 12, 16} { return -EINVAL; }
      r := Append(name, Info(Float, 0, false, 0, 0), byteSz, [], NoTail);
    }

    /** btf_add_ref_kind, for PTR, TYPEDEF, the modifiers, FUNC, TYPE_TAG and FWD. */
    method AddRefKind(kind: Kind, vlen: u16, kflag: bool, name: seq<u8>, refId: int) returns (r: int)
      requires Valid() && NoNul(name) && (IsRefKind(kind) || kind == Fwd)
      modifies this, strs
      ensures Valid() && old(strs.data) <= strs.data && NameOnly(old(Known()), name)
      ensures r == if !GoodId(refId) then -EINVAL else old(TypeResult(name, 3))
      ensures if r < 0 then ts == old(ts) else NewType(old(ts), name, Info(kind, vlen, kflag, 0, 0), refId, NoTail)
    {
      if !GoodId(refId) { return -EINVAL; }
      RefStorable(kind, vlen, kflag, refId);
      r := Append(name, Info(kind, vlen, kflag, 0, 0), refId, [], NoTail);
    }

    static lemma RefStorable(kind: Kind, vlen: u16, kflag: bool, refId: u32)
      requires IsRefKind(kind) || kind == Fwd
      ensures Storable(BtfType(0, Info(kind, vlen, kflag, 0, 0), refId, NoTail)) && TailWords(NoTail) == []
    {
    }

    /** btf__add_ptr, btf__add_const, btf__add_volatile and btf__add_restrict. */
    method AddModifier(kind: Kind, refId: int) returns (r: int)
      requires Valid() && kind in {Ptr, Const, Volatile, Restrict}
      modifies this, strs
      ensures Valid() && old(strs.data) <= strs.data && NameOnly(old(Known()), [])
      ensures r == if !GoodId(refId) then -EINVAL else old(TypeResult([], 3))
      ensures if r < 0 then ts == old(ts) else NewType(old(ts), [], Info(kind, 0, false, 0, 0), refId, NoTail)
    {
      r := AddRefKind(kind, 0, false, [], refId);
    }

    /** btf__add_typedef and btf__add_type_tag. */
    method AddNamedRef(kind: Kind, name: seq<u8>, refId: int) returns (r: int)
      requires Valid() && NoNul(name) && kind in {Typedef, TypeTag}
      modifies this, strs
      ensures Valid() && old(strs.data) <= strs.data && NameOnly(old(Known()), name)
      ensures r == if name == [] || !GoodId(refId) then -EINVAL else old(TypeResult(name, 3))
      ensures if r < 0 then ts == old(ts) else NewType(old(ts), name, Info(kind, 0, false, 0, 0), refId, NoTail)
    {
      if name == [] { return -EINVAL; }
      r := AddRefKind(kind, 0, false, name, refId);
    }

    /** btf__add_func: the linkage is kept where other kinds keep their vlen. */
    method AddFunc(name: seq<u8>, linkage: int, protoId: int) returns (r: int)
      requires Valid() && NoNul(name)
      modifies this, strs
      ensures Valid() && old(strs.data) <= strs.data && NameOnly(old(Known()), name)
      ensures r == if name == [] || linkage !in {0, 1, 2} || !GoodId(protoId) then -EINVAL else old(TypeResult(name, 3))
      ensures if r < 0 then ts == old(ts) else NewType(old(ts), name, Info(Func, linkage, false, 0, 0), protoId, NoTail)
    {
      if name == [] { return -EINVAL; }
      if linkage !in {0, 1, 2} { return -EINVAL; }
      r := AddRefKind(Func, linkage, false, name, protoId);
    }

    /** btf__add_array. */
    method AddArray(indexId: int, elemId: int, nelems: u32) returns (r: int)
      requires Valid()
      modifies this, strs
      ensures Valid() && old(strs.data) <= strs.data && NameOnly(old(Known()), [])
      ensures r == if !GoodId(indexId) || !GoodId(elemId) then -EINVAL else old(TypeResult([], 6))
      ensures if r < 0 then ts == old(ts) else NewType(old(ts), [], Info(Array, 0, false, 0, 0), 0, ArrayTail(elemId, indexId, nelems))
    {
      if !GoodId(indexId) || !GoodId(elemId) { return -EINVAL; }
      r := Append([], Info(Array, 0, false, 0, 0), 0, [elemId, indexId, nelems], ArrayTail(elemId, indexId, nelems));
    }

    /** btf__add_struct and btf__add_union: fields are added later. */
    method AddComposite(kind: Kind, name: seq<u8>, byteSz: u32) returns (r: int)
      requires Valid() && NoNul(name) && kind in {Struct, Union}
      modifies this, strs
      ensures Valid() && old(strs.data) <= strs.data && NameOnly(old(Known()), name)
      ensures r == old(TypeResult(name, 3))
      ensures if r < 0 then ts == old(ts) else NewType(old(ts), name, Info(kind, 0, false, 0, 0), byteSz, Members([]))
    {
      r := AppendEmpty(name, kind, false, byteSz);
    }

    /** btf__add_enum. */
    method AddEnum(name: seq<u8>, byteSz: nat) returns (r: int)
      requires Valid() && NoNul(name)
      modifies this, strs
      ensures Valid() && old(strs.data) <= strs.data && NameOnly(old(Known()), name)
      ensures r == if byteSz !in {1, 2, 4, 8} then -EINVAL else old(TypeResult(name, 3))
      ensures if r < 0 then ts == old(ts) else NewType(old(ts), name, Info(Enum, 0, false, 0, 0), byteSz, Enums([]))
    {
      if byteSz !in {1, 2, 4, 8} { return -EINVAL; }
      r := AppendEmpty(name, Enum, false, byteSz);
    }

    /** btf__add_enum64. */
    method AddEnum64(name: seq<u8>, byteSz: nat, isSigned: bool) returns (r: int)
      requires Valid() && NoNul(name)
      modifies this, strs
      ensures Valid() && old(strs.data) <= strs.data && NameOnly(old(Known()), name)
      ensures r == if byteSz !in {1, 2, 4, 8} then -EINVAL else old(TypeResult(name, 3))
      ensures if r < 0 then ts == old(ts) else NewType(old(ts), name, Info(Enum64, 0, isSigned, 0, 0), byteSz, Enums64([]))
    {
      if byteSz !in {1, 2, 4, 8} { return -EINVAL; }
      r := AppendEmpty(name, Enum64, isSigned, byteSz);
    }

    /** btf__add_fwd: for an enum, an enum of four bytes without values; for an unknown kind, nothing. */
    method AddFwd(name: seq<u8>, kind: FwdKind) returns (r: int)
      requires Valid() && NoNul(name)
      modifies this, strs
      ensures Valid() && old(strs.data) <= strs.data && NameOnly(old(Known()), name)
      ensures r == if name == [] || kind == FwdUnknown then -EINVAL else old(TypeResult(name, 3))
      ensures if r < 0 then ts == old(ts)
              else if kind == FwdEnum then NewType(old(ts), name, Info(Enum, 0, false, 0, 0), 4, Enums([]))
              else NewType(old(ts), name, Info(Fwd, 0, kind == FwdUnion, 0, 0), 0, NoTail)
    {
      if name == [] { return -EINVAL; }
      match kind
      case FwdStruct => r := AddRefKind(Fwd, 0, false, name, 0);
      case FwdUnion => r := AddRefKind(Fwd, 0, true, name, 0);
      case FwdEnum => r := AddEnum(name, 4);
      case FwdUnknown => r := -EINVAL;
    }

    /** btf__add_func_proto. */
    method AddFuncProto(retId: int) returns (r: int)
      requires Valid()
      modifies this, strs
      ensures Valid() && old(strs.data) <= strs.data && NameOnly(old(Known()), [])
      ensures r == if !GoodId(retId) then -EINVAL else old(TypeResult([], 3))
      ensures if r < 0 then ts == old(ts) else NewType(old(ts), [], Info(FuncProto, 0, false, 0, 0), retId, Params([]))
    {
      if !GoodId(retId) { return -EINVAL; }
      r := AppendEmpty([], FuncProto, false, retId);
    }

    /** btf__add_var. */
    method AddVar(name: seq<u8>, linkage: int, typeId: int) returns (r: int)
      requires Valid() && NoNul(name)
      modifies this, strs
      ensures Valid() && old(strs.data) <= strs.data && NameOnly(old(Known()), name)
      ensures r == if name == [] || linkage !in {0, 1, 2} || !GoodId(typeId) then -EINVAL else old(TypeResult(name, 4))
      ensures if r < 0 then ts == old(ts) else NewType(old(ts), name, Info(Var, 0, false, 0, 0), typeId, Word(linkage))
    {
      if name == [] || linkage !in {0, 1, 2} || !GoodId(typeId) { return -EINVAL; }
      r := Append(name, Info(Var, 0, false, 0, 0), typeId, [linkage], Word(linkage));
    }

    /** btf__add_datasec. */
    method AddDatasec(name: seq<u8>, byteSz: u32) returns (r: int)
      requires Valid() && NoNul(name)
      modifies this, strs
      ensures Valid() && old(strs.data) <= strs.data && NameOnly(old(Known()), name)
      ensures r == if name == [] then -EINVAL else old(TypeResult(name, 3))
      ensures if r < 0 then ts == old(ts) else NewType(old(ts), name, Info(Datasec, 0, false, 0, 0), byteSz, Secs([]))
    {
      if name == [] { return -EINVAL; }
      r := AppendEmpty(name, Datasec, false, byteSz);
    }

    /** btf__add_decl_tag: the component index -1 is stored as a word of ones. */
    method AddDeclTag(name: seq<u8>, refId: int, componentIdx: int) returns (r: int)
      requires Valid() && NoNul(name) && INT_MIN <= componentIdx <= INT_MAX
      modifies this, strs
      ensures Valid() && old(strs.data) <= strs.data && NameOnly(old(Known()), name)
      ensures r == if name == [] || componentIdx < -1 || !GoodId(refId) then -EINVAL else old(TypeResult(name, 4))
      ensures if r < 0 then ts == old(ts) else NewType(old(ts), name, Info(DeclTag, 0, false, 0, 0), refId, Word(AsWord(componentIdx)))
    {
      if name == [] || componentIdx < -1 || !GoodId(refId) { return -EINVAL; }
      var w := AsWord(componentIdx);
      r := Append(name, Info(DeclTag, 0, false, 0, 0), refId, [w], Word(w));
    }

    // ----- appending entries to the last type

    /** The word at which the last type starts. */
    method LastStart() returns (p: nat)
      requires Typed() && nrTypes > 0
      ensures p == Begin(ts, |ts| - 1) && p + 3 <= |types| && ParseInfo(types[p + 1]) == ts[|ts| - 1].info
    {
      LastAt(offs, ts);
      p := offs[nrTypes - 1] / 4;
    }

    /** The info word of the last type. */
    method LastInfo() returns (info: Info)
      requires Typed() && nrTypes > 0
      ensures info == ts[|ts| - 1].info && GoodInfo(info)
    {
      var p := LastStart();
      InfoWordParse(types[p + 1]);
      info := ParseInfo(types[p + 1]);
    }

    /**
     * Entry x stands at the end of the section and w is the info word of the last type. If the count of entries
     * fits its field, the last descriptor has one more entry and nothing else has changed.
     */
    ghost predicate NewEntry(words: seq<u32>, before: seq<BtfType>, x: Entry, kflag: bool, w: u32)
      requires before != []
      reads this, strs, base
    {
      match CountFits(before[|before| - 1])
      case None => types == WithEntry(words, before, w, x) && ParseInfo(w).vlen == 0 && ts == before
      case Some(_) => types == WithEntry(words, before, w, x) && Valid() && ts == WithLast(before, x, kflag)
    }

    static lemma EntryPut(words: seq<u32>, ts: seq<BtfType>, infoWord: u32, x: Entry, p: nat)
      requires ts != [] && p == Begin(ts, |ts| - 1) && p + 1 < |words|
      ensures words[p + 1 := infoWord] + EntryTo(x) == WithEntry(words, ts, infoWord, x)
      ensures |WithEntry(words, ts, infoWord, x)| == |words| + |EntryTo(x)|
    {
    }

    /** Put an entry at the end of the section and the given info word in the last type. */
    method PutEntry(x: Entry, infoWord: u32)
      requires Typed() && ts != [] && hdr.typeLen + 4 * |EntryTo(x)| <= UINT_MAX
      modifies `types, `hdr
      ensures types == WithEntry(old(types), ts, infoWord, x)
      ensures hdr == old(hdr).(typeLen := 4 * |types|, strOff := 4 * |types|)
    {
      var p := LastStart();
      EntryPut(types, ts, infoWord, x, p);
      types := types[p + 1 := infoWord] + EntryTo(x);
      hdr := hdr.(typeLen := hdr.typeLen + 4 * |EntryTo(x)|, strOff := hdr.strOff + 4 * |EntryTo(x)|);
    }

    /** The last type with one more entry; kflag is what its flag becomes. */
    method AppendEntry(x: Entry, kflag: bool, infoWord: u32)
      requires Valid() && ts != [] && Fits(x, ts[|ts| - 1]) && hdr.typeLen + 4 * |EntryTo(x)| <= UINT_MAX
      requires Counts(ts[|ts| - 1].info, kflag, infoWord)
      modifies this
      ensures NewEntry(old(types), old(ts), x, kflag, infoWord)
    {
      ghost var was, words := ts, types;
      PutEntry(x, infoWord);
      if was[|was| - 1].info.vlen < 0xffff { Recount(words, x, kflag, infoWord); }
    }

    /** The descriptors once an entry has been put and counted. */
    ghost method Recount(words: seq<u32>, x: Entry, kflag: bool, infoWord: u32)
      requires Names() && startId >= 1 && Holds(words, offs, nrTypes, ts) && Describes(hdr, 4 * |types|, hdr.strLen)
      requires ts != [] && Fits(x, ts[|ts| - 1]) && Counts(ts[|ts| - 1].info, kflag, infoWord) && ts[|ts| - 1].info.vlen < 0xffff
      requires types == WithEntry(words, ts, infoWord, x)
      modifies this`ts
      ensures Valid() && ts == WithLast(old(ts), x, kflag)
    {
      assert Storable(ts[|ts| - 1]);
      EntryAdded(words, offs, ts, x, kflag);
      ts := WithLast(ts, x, kflag);
    }

    /** Append an entry under a name. */
    method AddEntry(name: seq<u8>, x: Entry, n: nat, kflag: bool, w: u32) returns (r: int, ghost nameOff: u32)
      requires Valid() && NoNul(name) && ts != [] && Counts(ts[|ts| - 1].info, kflag, w) && Fits(x, ts[|ts| - 1]) && n == |EntryTo(x)|
      modifies this, strs
      ensures old(strs.data) <= strs.data && NameOnly(old(Known()), name) && r == old(EntryResult(name, n))
      ensures r != 0 ==> r < 0 && Valid() && ts == old(ts)
      ensures r == 0 ==> Name(nameOff) == name && NewEntry(old(types), old(ts), Named(x, nameOff), kflag, w)
    {
      nameOff := 0;
      r := Reserve(name, n);
      if r < 0 { return; }
      NamedFits(x, r, ts[|ts| - 1]);
      AppendEntry(Named(x, r), kflag, w);
      r, nameOff := 0, r;
    }

    /** Append an entry to the last type and count it, with the flag given. */
    method CountEntry(name: seq<u8>, x: Entry, n: nat, kflag: bool, info: Info) returns (r: int, ghost nameOff: u32, ghost w: u32)
      requires Valid() && NoNul(name) && ts != [] && Fits(x, ts[|ts| - 1]) && n == |EntryTo(x)|
      requires info == ts[|ts| - 1].info && GoodInfo(info)
      modifies this, strs
      ensures old(strs.data) <= strs.data && NameOnly(old(Known()), name) && r == old(EntryResult(name, n))
      ensures r != 0 ==> r < 0 && Valid() && ts == old(ts)
      ensures r == 0 ==> Name(nameOff) == name && NewEntry(old(types), old(ts), Named(x, nameOff), kflag, w)
    {
      var word := CountOneMore(info, kflag);
      w := word;
      r, nameOff := AddEntry(name, x, n, kflag, word);
    }

    /** Is the last type of this kind, and what is its info word? */
    method LastOf(kind: Kind) returns (ok: bool, info: Info)
      requires Valid()
      ensures ok <==> LastIs(ts, kind)
      ensures ok ==> info == ts[|ts| - 1].info && GoodInfo(info)
    {
      ok, info := false, VOID.info;
      if nrTypes == 0 { return; }
      info := LastInfo();
      ok := info.kind == kind;
    }

    /** The checks of btf__add_field, the info word of the last type, and what its flag becomes. */
    method CheckField(typeId: int, bitOffset: u32, bitSize: u32) returns (ok: bool, info: Info)
      requires Valid()
      ensures ok <==> GoodField(ts, typeId, bitOffset, bitSize)
      ensures ok ==> info == ts[|ts| - 1].info && GoodInfo(info)
    {
      ok, info := false, VOID.info;
      if nrTypes == 0 { return; }
      info := LastInfo();
      if info.kind !in {Struct, Union} { return; }
      if !GoodId(typeId) { return; }
      var isBitfield := IsBitfield(bitOffset, bitSize);
      if isBitfield && (bitSize == 0 || bitSize > 255 || bitOffset > 0xff_ffff) { return; }
      if info.kind == Union && bitOffset != 0 { return; }
      ok := true;
    }

    /** btf__add_field. */
    method AddField(name: seq<u8>, typeId: int, bitOffset: u32, bitSize: u32) returns (r: int, ghost nameOff: u32, ghost w: u32)
      requires Valid() && NoNul(name)
      modifies this, strs
      ensures old(strs.data) <= strs.data && NameOnly(old(Known()), name)
      ensures r == if !GoodField(old(ts), typeId, bitOffset, bitSize) then -EINVAL else old(EntryResult(name, 3))
      ensures r != 0 ==> r < 0 && Valid() && ts == old(ts)
      ensures r == 0 ==> GoodField(old(ts), typeId, bitOffset, bitSize) && Name(nameOff) == name
      ensures r == 0 ==> NewEntry(old(types), old(ts), Named(FieldEntry(typeId, bitOffset, bitSize), nameOff),
                                  FieldFlag(bitOffset, bitSize, old(ts)[|old(ts)| - 1].info.kflag), w)
    {
      nameOff, w := 0, 0;
      var ok, info := CheckField(typeId, bitOffset, bitSize);
      if !ok { return -EINVAL, nameOff, w; }
      var x, kflag := FieldEntry(typeId, bitOffset, bitSize), FieldFlag(bitOffset, bitSize, info.kflag);
      r, nameOff, w := CountEntry(name, x, 3, kflag, info);
    }

    /** btf__add_enum_value: a negative value makes the enum signed. */
    method AddEnumValue(name: seq<u8>, value: int) returns (r: int, ghost nameOff: u32, ghost w: u32)
      requires Valid() && NoNul(name)
      modifies this, strs
      ensures old(strs.data) <= strs.data && NameOnly(old(Known()), name)
      ensures r == if !LastIs(old(ts), Enum) || name == [] then -EINVAL else if value < INT_MIN || value > UINT_MAX then -E2BIG else old(EntryResult(name, 2))
      ensures r != 0 ==> r < 0 && Valid() && ts == old(ts)
      ensures r == 0 ==> old(ts) != [] && Name(nameOff) == name && NewEntry(old(types), old(ts), OfEnum(EnumVal(nameOff, AsWord(value))), value < 0 || old(ts)[|old(ts)| - 1].info.kflag, w)
    {
      nameOff, w := 0, 0;
      var ok, info := LastOf(Enum);
      if !ok { return -EINVAL, nameOff, w; }
      if name == [] { return -EINVAL, nameOff, w; }
      if value < INT_MIN || value > UINT_MAX { return -E2BIG, nameOff, w; }
      var word := CountValue(info, value < 0);
      w := word;
      r, nameOff := AddEntry(name, OfEnum(EnumVal(0, AsWord(value))), 2, value < 0 || info.kflag, word);
    }

    method AddHalves(name: seq<u8>, lo: u32, hi: u32, info: Info) returns (r: int, ghost nameOff: u32, ghost w: u32)
      requires Valid() && NoNul(name) && LastIs(ts, Enum64) && info == ts[|ts| - 1].info && GoodInfo(info)
      modifies this, strs
      ensures old(strs.data) <= strs.data && NameOnly(old(Known()), name) && r == old(EntryResult(name, 3))
      ensures r != 0 ==> r < 0 && Valid() && ts == old(ts)
      ensures r == 0 ==> Name(nameOff) == name && NewEntry(old(types), old(ts), OfEnum64(Enum64Val(nameOff, lo, hi)), info.kflag, w)
    {
      r, nameOff, w := CountEntry(name, OfEnum64(Enum64Val(0, lo, hi)), 3, info.kflag, info);
    }

    /** btf__add_enum64_value: the value in two halves. */
    method AddEnum64Value(name: seq<u8>, value: nat) returns (r: int, ghost nameOff: u32, ghost w: u32)
      requires Valid() && NoNul(name) && value < 0x1_0000_0000_0000_0000
      modifies this, strs
      ensures old(strs.data) <= strs.data && NameOnly(old(Known()), name)
      ensures r == if !LastIs(old(ts), Enum64) || name == [] then -EINVAL else old(EntryResult(name, 3))
      ensures r != 0 ==> r < 0 && Valid() && ts == old(ts)
      ensures r == 0 ==> old(ts) != [] && Name(nameOff) == name && NewEntry(old(types), old(ts), OfEnum64(Enum64Val(nameOff, LowWord(value), HighWord(value))), old(ts)[|old(ts)| - 1].info.kflag, w)
    {
      nameOff, w := 0, 0;
      var ok, info := LastOf(Enum64);
      if !ok { return -EINVAL, nameOff, w; }
      if name == [] { return -EINVAL, nameOff, w; }
      r, nameOff, w := AddHalves(name, LowWord(value), HighWord(value), info);
    }

    method AddParam(name: seq<u8>, typeId: u32, info: Info) returns (r: int, ghost nameOff: u32, ghost w: u32)
      requires Valid() && NoNul(name) && LastIs(ts, FuncProto) && info == ts[|ts| - 1].info && GoodInfo(info)
      modifies this, strs
      ensures old(strs.data) <= strs.data && NameOnly(old(Known()), name) && r == old(EntryResult(name, 2))
      ensures r != 0 ==> r < 0 && Valid() && ts == old(ts)
      ensures r == 0 ==> Name(nameOff) == name && NewEntry(old(types), old(ts), OfProto(Param(nameOff, typeId)), info.kflag, w)
    {
      r, nameOff, w := CountEntry(name, OfProto(Param(0, typeId)), 2, info.kflag, info);
    }

    /** btf__add_func_param. */
    method AddFuncParam(name: seq<u8>, typeId: int) returns (r: int, ghost nameOff: u32, ghost w: u32)
      requires Valid() && NoNul(name)
      modifies this, strs
      ensures old(strs.data) <= strs.data && NameOnly(old(Known()), name)
      ensures r == if !LastIs(old(ts), FuncProto) || !GoodId(typeId) then -EINVAL else old(EntryResult(name, 2))
      ensures r != 0 ==> r < 0 && Valid() && ts == old(ts)
      ensures r == 0 ==> old(ts) != [] && Name(nameOff) == name && NewEntry(old(types), old(ts), OfProto(Param(nameOff, typeId)), old(ts)[|old(ts)| - 1].info.kflag, w)
    {
      nameOff, w := 0, 0;
      if !GoodId(typeId) { return -EINVAL, nameOff, w; }
      var ok, info := LastOf(FuncProto);
      if !ok { return -EINVAL, nameOff, w; }
      r, nameOff, w := AddParam(name, typeId, info);
    }

    /** btf__add_datasec_var_info. */
    method AddDatasecVarInfo(typeId: int, offset: u32, byteSz: u32) returns (r: int, ghost w: u32)
      requires Valid()
      modifies this, strs
      ensures old(strs.data) <= strs.data && NameOnly(old(Known()), [])
      ensures r == if !LastIs(old(ts), Datasec) || !GoodId(typeId) then -EINVAL else old(EntryResult([], 3))
      ensures r != 0 ==> r < 0 && Valid() && ts == old(ts)
      ensures r == 0 ==> old(ts) != [] && NewEntry(old(types), old(ts), OfSec(SecInfo(typeId, offset, byteSz)), old(ts)[|old(ts)| - 1].info.kflag, w)
    {
      w := 0;
      var ok, info := LastOf(Datasec);
      if !ok { return -EINVAL, w; }
      if !GoodId(typeId) { return -EINVAL, w; }
      ghost var nameOff;
      r, nameOff, w := CountEntry([], OfSec(SecInfo(typeId, offset, byteSz)), 3, info.kflag, info);
    }

    // ----- writing it out and reading it back

    /** btf_get_raw_data of what has been built. */
    method RawData(e: Order, swap: bool) returns (raw: seq<u8>)
      requires Valid()
      ensures raw == Announced(Image(hdr, [], ts, strs.data, if swap then Flip(e) else e))
      ensures |raw| < 0x1_0000_0000
    {
      var words := new u32[|types|](i requires 0 <= i < |types| reads this => types[i]);
      assert words[..] == types;
      raw := GetRawData(hdr, [], words, offs, strs.data, swap, e, ts);
    }

    /**
     * Build, serialise, parse: whatever has been appended, in either byte order, is accepted by btf_new exactly
     * if its size fits 32 bits, and then yields the same header, descriptors, offsets and strings.
     */
    method Reload(e: Order, swap: bool)
      returns (err: int, swapped: bool, h: Header, words: array<u32>, offs': seq<nat>, strs': seq<u8>, ghost ts': seq<BtfType>)
      requires Valid()
      ensures err == 0 <==> FitsSize(hdr.typeLen, hdr.strLen)
      ensures err == 0 ==> swapped == swap && h == hdr && words[..] == types && offs' == offs && strs' == strs.data && ts' == ts
    {
      ghost var wasHdr, was, wasStrs, wasOffs, split := hdr, ts, strs.data, offs, base != null;
      ReadsBack(e, swap);
      var raw := RawData(e, swap);
      err, swapped, h, words, offs', strs', ts' := BtfNew(raw, e, base != null);
      if err == 0 {
        assert FitsSize(wasHdr.typeLen, wasHdr.strLen);
        ReadsOnce(raw, e, split, swap, wasHdr, was, wasStrs, swapped, h, ts', strs');
        StartsOnce(wasOffs, offs', was);
      }
    }

    /** The image of what has been built means what has been built, if its size fits. */
    lemma ReadsBack(e: Order, swap: bool)
      requires Valid()
      ensures var raw := Announced(Image(hdr, [], ts, strs.data, if swap then Flip(e) else e));
              if FitsSize(hdr.typeLen, hdr.strLen) then Reads(raw, e, base != null, swap, hdr, ts, strs.data)
              else Unreadable(raw, e, base != null)
    {
      ImageReads(hdr, ts, strs.data, e, base != null, swap);
    }
  }

  /** A string that takes up half of the string section of a base. */
  function LongString(): (s: seq<u8>)
    ensures NoNul(s) && 2 * |s| == BTF_MAX_STR_OFFSET + 1
  {
    seq((BTF_MAX_STR_OFFSET + 1) / 2, _ => 97)
  }

  /** btf__add_str fails for want of room although the string is there, in the base. */
  method KnownButRefused() returns (known: bool, r: int)
    ensures known && r == -ENOMEM
  {
    var s := LongString();
    var base := new Strset([0] + s + [0], BTF_MAX_STR_OFFSET);
    LongStringKnown(base, s);
    known := s in base.index;
    var b := new Builder.Split(1, base);
    r := b.AddStr(s);
  }

  lemma LongStringKnown(base: Strset, s: seq<u8>)
    requires NoNul(s) && s != [] && Indexes(base.index, [0] + s + [0], Begins([0] + s + [0], 0))
    ensures s in base.index
  {
    var data := [0] + s + [0];
    StandingText(data, 1, s);
    BeginsStep(data, 0);
    BeginsStep(data, 1);
    assert 1 in Begins(data, 0);
  }
}
