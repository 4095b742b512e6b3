/** The names in a type descriptor: its own and those of its entries, as offsets into the strings. */
module BtfNames {
  import opened Ints
  import opened BtfTypes

  /** The string offsets in the entries of a descriptor, in the order they are visited, after that of its own name. */
  function EntryNames(tail: Tail): seq<u32> {
    match tail
    case Members(ms) => seq(|ms|, i requires 0 <= i < |ms| => ms[i].nameOff)
    case Params(ps) => seq(|ps|, i requires 0 <= i < |ps| => ps[i].nameOff)
    case Enums(es) => seq(|es|, i requires 0 <= i < |es| => es[i].nameOff)
    case Enums64(es) => seq(|es|, i requires 0 <= i < |es| => es[i].nameOff)
    case _ => []
  }

  function SetEntryNames(tail: Tail, ns: seq<u32>): Tail
    requires |ns| == |EntryNames(tail)|
  {
    match tail
    case Members(ms) => Members(seq(|ms|, i requires 0 <= i < |ms| => ms[i].(nameOff := ns[i])))
    case Params(ps) => Params(seq(|ps|, i requires 0 <= i < |ps| => ps[i].(nameOff := ns[i])))
    case Enums(es) => Enums(seq(|es|, i requires 0 <= i < |es| => es[i].(nameOff := ns[i])))
    case Enums64(es) => Enums64(seq(|es|, i requires 0 <= i < |es| => es[i].(nameOff := ns[i])))
    case _ => tail
  }

  /** The descriptor with other string offsets. */
  function SetNames(t: BtfType, n: u32, ns: seq<u32>): BtfType
    requires |ns| == |EntryNames(t.tail)|
  {
    t.(nameOff := n, tail := SetEntryNames(t.tail, ns))
  }

  /** Setting the names changes them and nothing else. */
  lemma SetNamesOnly(tail: Tail, ns: seq<u32>)
    requires |ns| == |EntryNames(tail)|
    ensures EntryNames(SetEntryNames(tail, ns)) == ns && SetEntryNames(SetEntryNames(tail, ns), EntryNames(tail)) == tail
  {
    var tail' := SetEntryNames(tail, ns);
    match tail
    case Members(ms) => assert SetEntryNames(tail', EntryNames(tail)).ms == ms;
    case Params(ps) => assert SetEntryNames(tail', EntryNames(tail)).ps == ps;
    case Enums(es) => assert SetEntryNames(tail', EntryNames(tail)).es == es;
    case Enums64(es) => assert SetEntryNames(tail', EntryNames(tail)).es64 == es;
    case _ =>
  }

  lemma SetNamesRefs(t: BtfType, n: u32, ns: seq<u32>)
    requires |ns| == |EntryNames(t.tail)|
    ensures Refs(SetNames(t, n, ns)) == Refs(t) && SetNames(t, n, ns).info == t.info
    ensures WfType(t) ==> WfType(SetNames(t, n, ns))
  {
    assert TailRefs(SetNames(t, n, ns).tail) == TailRefs(t.tail);
  }

  /** Names and references are independent of each other. */
  lemma LabelNames(a: BtfType, b: BtfType)
    requires Label(a) == Label(b)
    ensures a.nameOff == b.nameOff && EntryNames(a.tail) == EntryNames(b.tail) && a.info == b.info
  {
    var x, y := Label(a), Label(b);
    assert x.nameOff == y.nameOff && x.info == y.info && x.tail == y.tail;
    match a.tail
    case Members(ms) =>
      forall i | 0 <= i < |ms| ensures ms[i].nameOff == b.tail.ms[i].nameOff { assert x.tail.ms[i] == y.tail.ms[i]; }
    case Params(ps) =>
      forall i | 0 <= i < |ps| ensures ps[i].nameOff == b.tail.ps[i].nameOff { assert x.tail.ps[i] == y.tail.ps[i]; }
    case _ =>
  }
}
