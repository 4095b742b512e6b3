/** The comparisons and signature hashes that dedup uses to find equal descriptors. */
module BtfCompare {
  import opened BtfTypes
  import opened Meaning

  // ----- comparisons: each loop decides equality of descriptors, or of descriptors up to references

  predicate EqualCommon(a: BtfType, b: BtfType) {
    a.nameOff == b.nameOff && a.info == b.info && a.size == b.size
  }

  method EqualIntTag(a: BtfType, b: BtfType) returns (eq: bool)
    requires WfType(a) && WfType(b) && (a.info.kind == Int || a.info.kind == DeclTag)
    ensures eq <==> a == b
  {
    if !EqualCommon(a, b) { return false; }
    return a.tail.w == b.tail.w;
  }

  method EqualEnum(a: BtfType, b: BtfType) returns (eq: bool)
    requires WfType(a) && WfType(b) && a.info.kind == Enum
    ensures eq <==> a == b
  {
    if !EqualCommon(a, b) { return false; }
    var n := a.info.vlen;
    for i := 0 to n
      invariant a.tail.es[..i] == b.tail.es[..i]
    {
      if a.tail.es[i].nameOff != b.tail.es[i].nameOff || a.tail.es[i].val != b.tail.es[i].val {
        return false;
      }
    }
    assert a.tail.es == a.tail.es[..n] && b.tail.es == b.tail.es[..n];
    return true;
  }

  method EqualEnum64(a: BtfType, b: BtfType) returns (eq: bool)
    requires WfType(a) && WfType(b) && a.info.kind == Enum64
    ensures eq <==> a == b
  {
    if !EqualCommon(a, b) { return false; }
    var n := a.info.vlen;
    for i := 0 to n
      invariant a.tail.es64[..i] == b.tail.es64[..i]
    {
      var v, w := a.tail.es64[i], b.tail.es64[i];
      if v.nameOff != w.nameOff || v.lo != w.lo || v.hi != w.hi { return false; }
    }
    assert a.tail.es64 == a.tail.es64[..n] && b.tail.es64 == b.tail.es64[..n];
    return true;
  }

  /** Two enums are compatible if they are equal or one announces the other. */
  method CompatEnum(a: BtfType, b: BtfType) returns (eq: bool)
    requires WfType(a) && WfType(b) && a.info.kind == Enum
    ensures eq <==> a == b || Defines(a, b) || Defines(b, a)
  {
    if !IsEnumFwd(a) && !IsEnumFwd(b) {
      eq := EqualEnum(a, b);
    } else {
      eq := a.nameOff == b.nameOff && a.info.(vlen := 0) == b.info.(vlen := 0) && a.size == b.size;
      assert eq && IsEnumFwd(a) && IsEnumFwd(b) ==> a.tail.es == b.tail.es == [];
    }
  }

  method CompatEnum64(a: BtfType, b: BtfType) returns (eq: bool)
    requires WfType(a) && WfType(b) && a.info.kind == Enum64
    ensures eq <==> a == b || Defines(a, b) || Defines(b, a)
  {
    if !IsEnumFwd(a) && !IsEnumFwd(b) {
      eq := EqualEnum64(a, b);
    } else {
      eq := a.nameOff == b.nameOff && a.info.(vlen := 0) == b.info.(vlen := 0) && a.size == b.size;
      assert eq && IsEnumFwd(a) && IsEnumFwd(b) ==> a.tail.es64 == b.tail.es64 == [];
    }
  }

  predicate EqualButType(a: Member, b: Member) { a.nameOff == b.nameOff && a.offset == b.offset }

  lemma LabelOfMembers(a: BtfType, b: BtfType)
    requires WfType(a) && WfType(b) && IsComposite(a)
    ensures Label(a) == Label(b) <==>
            EqualCommon(a, b) && forall i :: 0 <= i < a.info.vlen ==> EqualButType(a.tail.ms[i], b.tail.ms[i])
  {
    if EqualCommon(a, b) {
      var la, lb := Label(a).tail.ms, Label(b).tail.ms;
      assert forall i :: 0 <= i < a.info.vlen ==> (la[i] == lb[i] <==> EqualButType(a.tail.ms[i], b.tail.ms[i]));
      assert la == lb <==> forall i :: 0 <= i < a.info.vlen ==> la[i] == lb[i];
    }
  }

  method ShallowEqualStruct(a: BtfType, b: BtfType) returns (eq: bool)
    requires WfType(a) && WfType(b) && IsComposite(a)
    ensures eq <==> Label(a) == Label(b)
  {
    LabelOfMembers(a, b);
    if !EqualCommon(a, b) { return false; }
    for i := 0 to a.info.vlen
      invariant forall j :: 0 <= j < i ==> EqualButType(a.tail.ms[j], b.tail.ms[j])
    {
      if !EqualButType(a.tail.ms[i], b.tail.ms[i]) { return false; }
    }
    return true;
  }

  method EqualArray(a: BtfType, b: BtfType) returns (eq: bool)
    requires WfType(a) && WfType(b) && a.info.kind == Array
    ensures eq <==> a == b
  {
    if !EqualCommon(a, b) { return false; }
    return a.tail.elem == b.tail.elem && a.tail.index == b.tail.index && a.tail.nelems == b.tail.nelems;
  }

  method CompatArray(a: BtfType, b: BtfType) returns (eq: bool)
    requires WfType(a) && WfType(b) && a.info.kind == Array
    ensures eq <==> Label(a) == Label(b)
  {
    if !EqualCommon(a, b) { return false; }
    return a.tail.nelems == b.tail.nelems;
  }

  method EqualFnproto(a: BtfType, b: BtfType) returns (eq: bool)
    requires WfType(a) && WfType(b) && a.info.kind == FuncProto
    ensures eq <==> a == b
  {
    if !EqualCommon(a, b) { return false; }
    var n := a.info.vlen;
    for i := 0 to n
      invariant a.tail.ps[..i] == b.tail.ps[..i]
    {
      if a.tail.ps[i].nameOff != b.tail.ps[i].nameOff || a.tail.ps[i].typ != b.tail.ps[i].typ { return false; }
    }
    assert a.tail.ps == a.tail.ps[..n] && b.tail.ps == b.tail.ps[..n];
    return true;
  }

  method CompatFnproto(a: BtfType, b: BtfType) returns (eq: bool)
    requires WfType(a) && WfType(b) && a.info.kind == b.info.kind == FuncProto
    ensures eq <==> Label(a) == Label(b)
  {
    if a.nameOff != b.nameOff || a.info != b.info { return false; }
    var n := a.info.vlen;
    ghost var la, lb := Label(a).tail, Label(b).tail;
    for i := 0 to n
      invariant la.ps[..i] == lb.ps[..i]
    {
      var v, w := a.tail.ps[i], b.tail.ps[i];
      assert la.ps[i] == v.(typ := 0) && lb.ps[i] == w.(typ := 0);
      if v.nameOff != w.nameOff { return false; }
    }
    assert la.ps == la.ps[..n] && lb.ps == lb.ps[..n];
    return true;
  }

  /** Structs that are the same down to the ids their members refer to. */
  method IdenticalStructs(a: BtfType, b: BtfType) returns (eq: bool)
    requires WfType(a) && WfType(b)
    ensures eq <==> IsComposite(a) && a == b
  {
    if !IsComposite(a) || a.info.kind != b.info.kind { return false; }
    var shallow := ShallowEqualStruct(a, b);
    if !shallow { return false; }
    LabelOfMembers(a, b);
    for i := 0 to a.info.vlen
      invariant forall j :: 0 <= j < i ==> a.tail.ms[j].typ == b.tail.ms[j].typ
    {
      if a.tail.ms[i].typ != b.tail.ms[i].typ { return false; }
    }
    SameMembers(a.tail.ms, b.tail.ms);
    return true;
  }

  lemma SameMembers(ms: seq<Member>, ns: seq<Member>)
    requires |ms| == |ns| && forall i :: 0 <= i < |ms| ==> EqualButType(ms[i], ns[i])
    requires forall i :: 0 <= i < |ms| ==> ms[i].typ == ns[i].typ
    ensures ms == ns
  {
    forall i | 0 <= i < |ms| ensures ms[i] == ns[i] {
      assert EqualButType(ms[i], ns[i]);
    }
  }

  method IdenticalArrays(a: BtfType, b: BtfType) returns (eq: bool)
    requires WfType(a) && WfType(b)
    ensures eq <==> a.info.kind == Array && a == b
  {
    if a.info.kind != Array || b.info.kind != Array { return false; }
    eq := EqualArray(a, b);
  }

  // ----- signature hashes, in 64-bit two's complement arithmetic

  function HashCombine(h: nat, v: nat): nat { (h * 31 + v) % 0x1_0000_0000_0000_0000 }

  function HashCommon(t: BtfType): nat {
    HashCombine(HashCombine(HashCombine(0, t.nameOff), InfoWord(t.info)), t.size)
  }

  function HashMembers(h: nat, ms: seq<Member>): nat {
    if ms == [] then h
    else
      var last := ms[|ms| - 1];
      HashCombine(HashCombine(HashMembers(h, ms[..|ms| - 1]), last.nameOff), last.offset)
  }

  function HashParams(h: nat, ps: seq<Param>): nat {
    if ps == [] then h
    else
      var last := ps[|ps| - 1];
      HashCombine(HashCombine(HashParams(h, ps[..|ps| - 1]), last.nameOff), last.typ)
  }

  /** The signature under which a descriptor of any kind is filed. */
  function HashOf(t: BtfType): nat
    requires WfType(t)
  {
    match t.info.kind
    case Int => HashCombine(HashCommon(t), t.tail.w)
    case DeclTag => HashCombine(HashCommon(t), t.tail.w)
    case Enum => HashCommon(t.(info := t.info.(vlen := 0)))
    case Enum64 => HashCommon(t.(info := t.info.(vlen := 0)))
    case Struct => HashMembers(HashCommon(t), t.tail.ms)
    case Union => HashMembers(HashCommon(t), t.tail.ms)
    case Array => HashCombine(HashCombine(HashCombine(HashCommon(t), t.tail.elem), t.tail.index), t.tail.nelems)
    case FuncProto => HashParams(HashCommon(t), t.tail.ps)
    case _ => HashCommon(t)
  }

  method HashStruct(t: BtfType) returns (h: nat)
    requires WfType(t) && IsComposite(t)
    ensures h == HashOf(t)
  {
    h := HashCommon(t);
    for i := 0 to t.info.vlen
      invariant h == HashMembers(HashCommon(t), t.tail.ms[..i])
    {
      assert t.tail.ms[..i + 1][..i] == t.tail.ms[..i];
      h := HashCombine(h, t.tail.ms[i].nameOff);
      h := HashCombine(h, t.tail.ms[i].offset);
    }
    assert t.tail.ms[..t.info.vlen] == t.tail.ms;
  }

  method HashFnproto(t: BtfType) returns (h: nat)
    requires WfType(t) && t.info.kind == FuncProto
    ensures h == HashOf(t)
  {
    h := HashCommon(t);
    for i := 0 to t.info.vlen
      invariant h == HashParams(HashCommon(t), t.tail.ps[..i])
    {
      assert t.tail.ps[..i + 1][..i] == t.tail.ps[..i];
      h := HashCombine(h, t.tail.ps[i].nameOff);
      h := HashCombine(h, t.tail.ps[i].typ);
    }
    assert t.tail.ps[..t.info.vlen] == t.tail.ps;
  }

  /** The signature hash of any type, as each pass computes it for its kinds. */
  method Signature(t: BtfType) returns (h: nat)
    requires WfType(t)
    ensures h == HashOf(t)
  {
    if IsComposite(t) {
      h := HashStruct(t);
    } else if t.info.kind == FuncProto {
      h := HashFnproto(t);
    } else {
      h := HashOf(t);
    }
  }
}
