/** The type section: reading it, writing it, and changing its byte order in place. */
module BtfSection {
  import opened Bytes
  import opened Ints
  import opened BtfTypes
  import opened BtfWords
  import opened Errno

  // ----- the section as a value

  predicate AllStorable(ts: seq<BtfType>) { forall i {:trigger Storable(ts[i])} :: 0 <= i < |ts| ==> Storable(ts[i]) }

  /** The words of the descriptors, one after the other. */
  ghost function Section(ts: seq<BtfType>): seq<u32> {
    if ts == [] then [] else Section(ts[..|ts| - 1]) + Words(ts[|ts| - 1])
  }

  /** The word at which a descriptor starts in its section. */
  ghost function Begin(ts: seq<BtfType>, i: nat): nat
    requires i <= |ts|
  {
    |Section(ts[..i])|
  }

  /** Its byte offset. */
  ghost function Offset(ts: seq<BtfType>, i: nat): nat
    requires i <= |ts|
  {
    4 * Begin(ts, i)
  }

  lemma SectionSnoc(ts: seq<BtfType>, t: BtfType)
    ensures Section(ts + [t]) == Section(ts) + Words(t)
  {
    assert (ts + [t])[..|ts|] == ts;
  }

  lemma {:induction false} SectionConcat(a: seq<BtfType>, b: seq<BtfType>)
    ensures Section(a + b) == Section(a) + Section(b)
  {
    if b == [] {
      assert a + b == a;
    } else {
      var c, t := b[..|b| - 1], b[|b| - 1];
      Rejoin(a, b);
      SectionConcat(a, c);
      SectionSnoc(a + c, t);
      SectionSnoc(c, t);
      SeqAssoc(Section(a), Section(c), Words(t));
    }
  }

  lemma Rejoin<T>(a: seq<T>, b: seq<T>)
    requires b != []
    ensures b[..|b| - 1] + [b[|b| - 1]] == b && (a + b[..|b| - 1]) + [b[|b| - 1]] == a + b
  {
  }

  lemma SeqAssoc<T>(x: seq<T>, y: seq<T>, z: seq<T>)
    ensures (x + y) + z == x + (y + z)
  {
  }

  /** Offsets increase by the sizes of the descriptors: they tile the section. */
  lemma OffsetStep(ts: seq<BtfType>, i: nat)
    requires i < |ts| && Storable(ts[i])
    ensures Offset(ts, i + 1) == Offset(ts, i) + TypeSize(ts[i])
  {
    assert ts[..i + 1][..i] == ts[..i];
    WordsSize(ts[i]);
  }

  /** The section around one of its descriptors. */
  lemma SectionAt(ts: seq<BtfType>, i: nat)
    requires i < |ts|
    ensures Section(ts) == Section(ts[..i]) + Words(ts[i]) + Section(ts[i + 1..])
  {
    var a, t, b := ts[..i], ts[i], ts[i + 1..];
    assert Section(ts) == Section((a + [t]) + b) by { SplitAt(ts, i); }
    SectionMid(a, t, b);
  }

  lemma SplitAt<T>(s: seq<T>, i: nat)
    requires i < |s|
    ensures s == (s[..i] + [s[i]]) + s[i + 1..]
  {
  }

  lemma SectionMid(a: seq<BtfType>, t: BtfType, b: seq<BtfType>)
    ensures Section((a + [t]) + b) == Section(a) + Words(t) + Section(b)
  {
    SectionSnoc(a, t);
    SectionConcat(a + [t], b);
  }

  lemma SectionOne(t: BtfType)
    ensures Section([t]) == Words(t)
  {
    assert [t][..0] == [];
  }

  lemma SectionCons(ts: seq<BtfType>)
    requires AllStorable(ts) && ts != []
    ensures AllStorable(ts[1..]) && Section(ts) == Words(ts[0]) + Section(ts[1..]) && |Words(ts[0])| >= 3
  {
    var first, rest := [ts[0]], ts[1..];
    assert Section(ts) == Section(first + rest) by { assert ts == first + rest; }
    SectionConcat(first, rest);
    SectionOne(ts[0]);
    WordsSize(ts[0]);
  }

  /** Where two descriptors start at the same word, they are the same descriptor. */
  lemma SameHead(a: BtfType, b: BtfType, x: seq<u32>, y: seq<u32>)
    requires Storable(a) && Storable(b) && Words(a) + x == Words(b) + y
    ensures a == b && x == y
  {
    WordsSize(a);
    WordsSize(b);
    assert (Words(a) + x)[1] == Words(a)[1] && (Words(b) + y)[1] == Words(b)[1];
    assert (Words(a) + x)[..|Words(a)|] == Words(a) && (Words(b) + y)[..|Words(b)|] == Words(b);
    assert (Words(a) + x)[|Words(a)|..] == x && (Words(b) + y)[|Words(b)|..] == y;
    DecodeWords(a);
    DecodeWords(b);
  }

  /** A section determines its descriptors: reading some from its front leaves the others. */
  lemma {:induction false} SectionPrefix(all: seq<BtfType>, ts: seq<BtfType>, rest: seq<u32>)
    requires AllStorable(all) && AllStorable(ts) && Section(all) == Section(ts) + rest
    ensures |ts| <= |all| && all[..|ts|] == ts && rest == Section(all[|ts|..])
    decreases |ts|
  {
    if ts == [] {
      assert all[0..] == all && [] + rest == rest;
    } else {
      SectionCons(ts);
      SeqAssoc(Words(ts[0]), Section(ts[1..]), rest);
      if all != [] {
        SectionCons(all);
        var x, y := Section(all[1..]), Section(ts[1..]) + rest;
        SameHead(all[0], ts[0], x, y);
        SectionPrefix(all[1..], ts[1..], rest);
        Front(all, ts);
      }
    }
  }

  lemma Front<T>(all: seq<T>, ts: seq<T>)
    requires all != [] && ts != [] && all[0] == ts[0] && |ts| <= |all| && all[1..][..|ts| - 1] == ts[1..]
    ensures all[..|ts|] == ts && all[|ts|..] == all[1..][|ts| - 1..]
  {
    assert all[..|ts|] == [all[0]] + all[1..][..|ts| - 1];
  }

  /** After the descriptors before, the words that follow decide the info of the next. */
  lemma NextRead(all: seq<BtfType>, before: seq<BtfType>, rest: seq<u32>)
    requires AllStorable(all) && AllStorable(before) && Section(all) == Section(before) + rest && |rest| >= 3
    ensures |before| < |all| && all[..|before|] == before && all[|before|].info == ParseInfo(rest[1])
  {
    SectionPrefix(all, before, rest);
    FirstRead(all[|before|..], rest);
  }

  lemma FirstRead(all: seq<BtfType>, words: seq<u32>)
    requires AllStorable(all) && Section(all) == words && |words| >= 3
    ensures all != [] && all[0].info == ParseInfo(words[1])
  {
    SectionCons(all);
    WordsSize(all[0]);
    assert (Words(all[0]) + Section(all[1..]))[1] == Words(all[0])[1];
  }

  /** What is left is the start of no further descriptor: nothing, too short, or of an unknown kind. */
  ghost predicate Stuck(rest: seq<u32>) {
    rest == [] || |rest| < 3 || InfoSize(ParseInfo(rest[1])) < 0 || InfoSize(ParseInfo(rest[1])) > 4 * |rest|
  }

  lemma HeadNotStuck(t: BtfType, rest: seq<u32>)
    requires Storable(t)
    ensures !Stuck(Words(t) + rest)
  {
    WordsSize(t);
  }

  lemma StuckIsMalformed(ts: seq<BtfType>, rest: seq<u32>, all: seq<BtfType>)
    requires AllStorable(all) && AllStorable(ts) && Section(all) == Section(ts) + rest && Stuck(rest)
    ensures rest == [] && all == ts
  {
    SectionPrefix(all, ts, rest);
    var more := all[|ts|..];
    if more != [] {
      SectionCons(more);
      HeadNotStuck(more[0], Section(more[1..]));
    }
    assert all == all[..|ts|] + more;
  }

  /** The offsets at which the descriptors start. */
  ghost predicate Starts(offs: seq<nat>, ts: seq<BtfType>) {
    |offs| == |ts| && (ts == [] || var n := |ts| - 1; offs[n] == 4 * |Section(ts[..n])| && Starts(offs[..n], ts[..n]))
  }

  lemma {:induction false} StartsAt(offs: seq<nat>, ts: seq<BtfType>, i: nat)
    requires Starts(offs, ts) && i < |ts|
    ensures offs[i] == Offset(ts, i)
  {
    var n := |ts| - 1;
    if i == n {
    } else {
      var offs0, ts0 := offs[..n], ts[..n];
      StartsAt(offs0, ts0, i);
      assert offs0[i] == offs[i];
      PrefixOffset(ts, n, i);
    }
  }

  lemma PrefixOffset(ts: seq<BtfType>, n: nat, i: nat)
    requires i <= n <= |ts|
    ensures Offset(ts[..n], i) == Offset(ts, i)
  {
    assert ts[..n][..i] == ts[..i];
  }

  lemma StartsSnoc(offs: seq<nat>, ts: seq<BtfType>, t: BtfType)
    requires Starts(offs, ts)
    ensures Starts(offs + [4 * |Section(ts)|], ts + [t])
  {
    assert (ts + [t])[..|ts|] == ts && (offs + [4 * |Section(ts)|])[..|ts|] == offs;
  }

  // ----- byte order in place

  lemma SwapFront(ws: seq<u32>, lo: nat, mid: nat, hi: nat)
    requires lo <= mid <= hi
    ensures SwapRange(SwapRange(ws, lo, hi), lo, mid) == SwapRange(ws, mid, hi)
  {
    forall i | 0 <= i < |ws| ensures SwapRange(SwapRange(ws, lo, hi), lo, mid)[i] == SwapRange(ws, mid, hi)[i] { Bswap32Twice(ws[i]); }
  }

  lemma SwapJoin(ws: seq<u32>, lo: nat, mid: nat, hi: nat)
    requires lo <= mid <= hi
    ensures SwapRange(SwapRange(ws, lo, mid), mid, hi) == SwapRange(ws, lo, hi)
    ensures SwapRange(SwapRange(ws, mid, hi), lo, mid) == SwapRange(ws, lo, hi)
    ensures SwapRange(ws, lo, lo) == ws
  {
  }

  method BswapWord(words: array<u32>, p: nat)
    requires p < words.Length
    modifies words
    ensures words[..] == SwapRange(old(words[..]), p, p + 1)
  {
    words[p] := Bswap32(words[p]);
  }

  /** btf_bswap_type_base: the three words every descriptor has. */
  method BswapTypeBase(words: array<u32>, p: nat)
    requires p + 3 <= words.Length
    modifies words
    ensures words[..] == SwapRange(old(words[..]), p, p + 3)
  {
    ghost var ws := words[..];
    BswapWord(words, p);
    BswapWord(words, p + 1);
    BswapWord(words, p + 2);
    SwapJoin(ws, p, p + 1, p + 2);
    SwapJoin(ws, p, p + 2, p + 3);
  }

  /** The fields of n entries, entry by entry. */
  method BswapEntries(words: array<u32>, p: nat, n: nat, fields: nat)
    requires p + n * fields <= words.Length
    modifies words
    ensures words[..] == SwapRange(old(words[..]), p, p + n * fields)
  {
    ghost var ws := words[..];
    var q := p;
    SwapJoin(ws, p, p, p);
    for i := 0 to n
      invariant q == p + i * fields && q <= p + n * fields
      invariant words[..] == SwapRange(ws, p, q)
    {
      RoomForEntry(i, n, fields);
      for f := 0 to fields
        invariant words[..] == SwapRange(ws, p, q + f)
      {
        BswapWord(words, q + f);
        SwapJoin(ws, p, q + f, q + f + 1);
      }
      q := q + fields;
    }
  }

  lemma RoomForEntry(i: nat, n: nat, fields: nat)
    requires i < n
    ensures (i + 1) * fields == i * fields + fields <= n * fields
  {
    assert (i + 1) * fields <= n * fields;
  }

  /** btf_bswap_type_rest: what follows the base, by kind and vlen, which must be in native order. */
  method BswapTypeRest(words: array<u32>, p: nat) returns (err: int)
    requires p + 3 <= words.Length && 4 * p + InfoSize(ParseInfo(words[p + 1])) <= 4 * words.Length
    modifies words
    ensures err == if InfoSize(ParseInfo(old(words[p + 1]))) < 0 then -EINVAL else 0
    ensures err != 0 ==> words[..] == old(words[..])
    ensures err == 0 ==> words[..] == SwapRange(old(words[..]), p + 3, p + InfoSize(ParseInfo(old(words[p + 1]))) / 4)
  {
    var info := ParseInfo(words[p + 1]);
    SwapJoin(words[..], p + 3, p + 3, p + 3);
    err := 0;
    match info.kind {
      case Unkn => err := -EINVAL;
      case Other(_) => err := -EINVAL;
      case Int => BswapWord(words, p + 3);
      case Var => BswapWord(words, p + 3);
      case DeclTag => BswapWord(words, p + 3);
      case Array => BswapEntries(words, p + 3, 1, 3);
      case Struct => BswapEntries(words, p + 3, info.vlen, 3);
      case Union => BswapEntries(words, p + 3, info.vlen, 3);
      case Enum => BswapEntries(words, p + 3, info.vlen, 2);
      case Enum64 => BswapEntries(words, p + 3, info.vlen, 3);
      case FuncProto => BswapEntries(words, p + 3, info.vlen, 2);
      case Datasec => BswapEntries(words, p + 3, info.vlen, 3);
      case _ =>
    }
  }

  // ----- reading and writing

  /** The words in native order. */
  function Native(ws: seq<u32>, swapped: bool): (r: seq<u32>)
    ensures |r| == |ws|
  {
    if swapped then SwapAll(ws) else ws
  }

  /** The state of a section of which the first p words have been read. */
  function ReadUpTo(native: seq<u32>, p: nat, swapped: bool): (r: seq<u32>)
    ensures |r| == |native|
  {
    if swapped then SwapRange(native, p, |native|) else native
  }

  /** Bring one descriptor to native order and find its size, or fail. */
  method ReadType(words: array<u32>, p: nat, swapped: bool, ghost native: seq<u32>) returns (size: int)
    requires p + 3 <= words.Length && words[..] == ReadUpTo(native, p, swapped)
    modifies words
    ensures size < 0 <==> InfoSize(ParseInfo(native[p + 1])) < 0 || 4 * p + InfoSize(ParseInfo(native[p + 1])) > 4 * words.Length
    ensures size >= 0 ==> size >= 12 && size % 4 == 0
    ensures size >= 0 ==> size == InfoSize(ParseInfo(native[p + 1])) && words[..] == ReadUpTo(native, p + size / 4, swapped)
  {
    ReadBase(words, p, p + 3, swapped, native);
    size := InfoSize(ParseInfo(words[p + 1]));
    if size < 0 { return; }
    ghost var n := SizeInWords(ParseInfo(words[p + 1]));
    if 4 * p + size > 4 * words.Length { return -EINVAL; }
    var err := ReadRest(words, p, p + 3, p + n, n, swapped, native);
    if err != 0 { return -EINVAL; }
  }

  /** The base of a descriptor, up to q, is brought to native order. */
  method ReadBase(words: array<u32>, p: nat, ghost q: nat, swapped: bool, ghost native: seq<u32>)
    requires q == p + 3 <= words.Length && words[..] == ReadUpTo(native, p, swapped)
    modifies words
    ensures words[..] == ReadUpTo(native, q, swapped) && words[p + 1] == native[p + 1]
  {
    if swapped {
      BswapTypeBase(words, p);
      SwapFront(native, p, q, words.Length);
    }
    BaseRead(words[..], native, p, q, swapped);
  }

  /** Once the base of a descriptor has been read, its info word is native. */
  lemma BaseRead(words: seq<u32>, native: seq<u32>, p: nat, q: nat, swapped: bool)
    requires q == p + 3 <= |native| && words == ReadUpTo(native, q, swapped)
    ensures |words| == |native| && words[p + 1] == native[p + 1]
  {
  }

  /** The rest of a descriptor, from q to end, is brought to native order. */
  method ReadRest(words: array<u32>, p: nat, ghost q: nat, ghost end: nat, ghost n: nat, swapped: bool, ghost native: seq<u32>) returns (err: int)
    requires q == p + 3 <= words.Length && words[..] == ReadUpTo(native, q, swapped) && words[p + 1] == native[p + 1]
    requires 4 * n == InfoSize(ParseInfo(native[p + 1])) && n >= 3 && end == p + n <= words.Length
    modifies words
    ensures err == 0 && words[..] == ReadUpTo(native, end, swapped)
  {
    if swapped {
      Quarter(InfoSize(ParseInfo(words[p + 1])), n);
      err := BswapTypeRest(words, p);
      SwapFront(native, q, end, words.Length);
    } else {
      err := 0;
    }
  }

  /** The size of a descriptor is a number of words, at least the three of its base. */
  lemma SizeInWords(info: Info) returns (n: nat)
    requires InfoSize(info) >= 0
    ensures 4 * n == InfoSize(info) && n >= 3 && InfoSize(info) / 4 == n && InfoSize(info) % 4 == 0
  {
    n := match info.kind
      case Int => 4
      case Enum => 3 + 2 * info.vlen
      case Enum64 => 3 + 3 * info.vlen
      case Array => 6
      case Struct => 3 + 3 * info.vlen
      case Union => 3 + 3 * info.vlen
      case FuncProto => 3 + 2 * info.vlen
      case Var => 4
      case Datasec => 3 + 3 * info.vlen
      case DeclTag => 4
      case Ptr | Fwd | Typedef | Volatile | Const | Restrict | Func | Float | TypeTag => 3;
    Quarter(InfoSize(info), n);
  }

  lemma Quarter(size: nat, n: nat)
    requires 4 * n == size
    ensures size / 4 == n && size % 4 == 0
  {
  }

  /** The first p words have been read as ts. */
  ghost predicate Parsed(native: seq<u32>, p: nat, offs: seq<nat>, ts: seq<BtfType>) {
    p <= |native| && AllStorable(ts) && Section(ts) == native[..p] && Starts(offs, ts)
  }

  lemma Malformed(native: seq<u32>, ts: seq<BtfType>, rest: seq<u32>)
    requires AllStorable(ts) && native == Section(ts) + rest && Stuck(rest) && rest != []
    ensures forall all :: AllStorable(all) ==> Section(all) != native
  {
    forall all | AllStorable(all) ensures Section(all) != native {
      if Section(all) == native { StuckIsMalformed(ts, rest, all); }
    }
  }

  /** The next descriptor of a section. */
  ghost method Extend(native: seq<u32>, ts: seq<BtfType>, p: nat, n: nat, offs: seq<nat>) returns (ts': seq<BtfType>)
    requires Parsed(native, p, offs, ts) && p + 3 <= |native|
    requires 4 * n == InfoSize(ParseInfo(native[p + 1])) && p + n <= |native|
    ensures Parsed(native, p + n, offs + [4 * p], ts')
  {
    var t := DecodeAt(native, p, n, p + n);
    Extended(native, ts, p, p + n, offs, offs + [4 * p], t);
    ts' := ts + [t];
  }

  /** The descriptor that the words from p to end are. */
  lemma DecodeAt(native: seq<u32>, p: nat, n: nat, end: nat) returns (t: BtfType)
    requires end == p + n <= |native| && p + 3 <= |native| && 4 * n == InfoSize(ParseInfo(native[p + 1]))
    ensures Storable(t) && Words(t) == native[p..end]
  {
    var run := native[p..end];
    assert run[1] == native[p + 1];
    t := Decode(run);
    WordsDecode(run);
  }

  lemma Extended(native: seq<u32>, ts: seq<BtfType>, p: nat, end: nat, offs: seq<nat>, offs': seq<nat>, t: BtfType)
    requires Parsed(native, p, offs, ts) && p <= end <= |native| && Storable(t) && Words(t) == native[p..end] && offs' == offs + [4 * p]
    ensures Parsed(native, end, offs', ts + [t])
  {
    SectionSnoc(ts, t);
    StartsSnoc(offs, ts, t);
    assert native[..p] + native[p..end] == native[..end];
    forall i | 0 <= i <= |ts| ensures Storable((ts + [t])[i]) {
      if i < |ts| { assert Storable(ts[i]); }
    }
  }

  /** Read the descriptor after the first p words. */
  method ReadNext(words: array<u32>, p: nat, swapped: bool, ghost native: seq<u32>, ghost offs: seq<nat>, ghost ts: seq<BtfType>)
    returns (ok: bool, n: nat, ghost ts': seq<BtfType>)
    requires p + 3 <= words.Length && words[..] == ReadUpTo(native, p, swapped) && Parsed(native, p, offs, ts)
    modifies words
    ensures if ok then n >= 3 && p + n <= words.Length && words[..] == ReadUpTo(native, p + n, swapped) && Parsed(native, p + n, offs + [4 * p], ts')
            else ts' == ts && Stuck(native[p..])
  {
    var size := ReadType(words, p, swapped, native);
    if size < 0 { return false, 0, ts; }
    ok, n := true, size / 4;
    ts' := Extend(native, ts, p, n, offs);
  }

  /** The loop of btf_parse_type_sec: read descriptors until too little is left for another, or one is malformed. */
  method ReadTypes(words: array<u32>, typeLen: nat, swapped: bool, ghost native: seq<u32>)
    returns (ok: bool, p: nat, offs: seq<nat>, ghost ts: seq<BtfType>)
    requires words.Length == typeLen / 4 && words[..] == ReadUpTo(native, 0, swapped)
    modifies words
    ensures Parsed(native, p, offs, ts)
    ensures ok ==> 4 * p + 12 > typeLen && words[..] == ReadUpTo(native, p, swapped)
    ensures !ok ==> Stuck(native[p..]) && p < |native|
  {
    ok, p, offs, ts := true, 0, [], [];
    while 4 * p + 12 <= typeLen
      invariant p <= words.Length && words[..] == ReadUpTo(native, p, swapped)
      invariant Parsed(native, p, offs, ts)
      decreases typeLen - 4 * p
    {
      var n: nat;
      ok, n, ts := ReadNext(words, p, swapped, native, offs, ts);
      if !ok { return; }
      offs, p := offs + [4 * p], p + n;
    }
  }

  /**
   * btf_parse_type_sec over a section of typeLen bytes, all of whose whole words are in words. It accepts
   * exactly the sections that are made of descriptors, of either byte order, and finds where each starts.
   */
  method ParseTypeSec(words: array<u32>, typeLen: nat, swapped: bool) returns (err: int, offs: seq<nat>, ghost ts: seq<BtfType>)
    requires words.Length == typeLen / 4
    modifies words
    ensures AllStorable(ts)
    ensures err == 0 ==> typeLen % 4 == 0 && words[..] == Section(ts) == Native(old(words[..]), swapped)
    ensures err == 0 ==> Starts(offs, ts)
    ensures err != 0 ==> err == -EINVAL
    ensures err != 0 ==> typeLen % 4 != 0 || forall all :: AllStorable(all) ==> Section(all) != Native(old(words[..]), swapped)
  {
    ghost var native := Native(words[..], swapped);
    if swapped { SwapAllTwice(words[..]); }
    var ok, p;
    ok, p, offs, ts := ReadTypes(words, typeLen, swapped, native);
    if !ok || 4 * p != typeLen {
      if typeLen % 4 == 0 { Malformed(native, ts, native[p..]); }
      return -EINVAL, offs, ts;
    }
    err := 0;
    assert words[..] == native && native[..p] == native;
  }

  /**
   * The loop of btf_get_raw_data that changes the byte order of a native section: each descriptor's rest is
   * swapped before its base, so that kind and vlen are still readable. Every word ends up swapped.
   */
  method BswapTypes(words: array<u32>, offs: seq<nat>, ghost ts: seq<BtfType>) returns (err: int)
    requires AllStorable(ts) && words[..] == Section(ts) && Starts(offs, ts)
    modifies words
    ensures err == 0 && words[..] == SwapAll(Section(ts))
  {
    ghost var native := words[..];
    err := 0;
    SwapJoin(native, 0, 0, 0);
    assert ts[..0] == [];
    for i := 0 to |offs|
      invariant err == 0 && words[..] == SwapRange(native, 0, Begin(ts, i))
    {
      var p := offs[i] / 4;
      ghost var size := NextType(offs, ts, native, i, p);
      err := BswapType(words, p, native);
    }
    assert ts[..|ts|] == ts;
  }

  /** The words of the i-th descriptor, from p to the start of the next. */
  lemma NextType(offs: seq<nat>, ts: seq<BtfType>, native: seq<u32>, i: nat, p: nat) returns (size: nat)
    requires AllStorable(ts) && native == Section(ts) && Starts(offs, ts) && i < |ts| == |offs| && p == offs[i] / 4
    ensures p == Begin(ts, i) && p + 3 <= |native|
    ensures size == InfoSize(ParseInfo(native[p + 1])) && 4 * p + size <= 4 * |native| && Begin(ts, i + 1) == p + size / 4
  {
    assert p == Begin(ts, i) by { StartsAt(offs, ts, i); }
    size := TypeAtWord(ts, native, i, p);
  }

  lemma TypeAtWord(ts: seq<BtfType>, native: seq<u32>, i: nat, p: nat) returns (size: nat)
    requires AllStorable(ts) && native == Section(ts) && i < |ts| && p == Begin(ts, i)
    ensures p + 3 <= |native| && size == InfoSize(ParseInfo(native[p + 1])) && 4 * p + size <= 4 * |native| && Begin(ts, i + 1) == p + size / 4
  {
    TypeAt(ts, i);
    size := TypeSize(ts[i]);
  }

  /** The words of a section where a descriptor starts. */
  lemma TypeAt(ts: seq<BtfType>, i: nat)
    requires AllStorable(ts) && i < |ts|
    ensures Begin(ts, i) + 3 <= |Section(ts)| && 4 * Begin(ts, i) + TypeSize(ts[i]) <= 4 * |Section(ts)|
    ensures ParseInfo(Section(ts)[Begin(ts, i) + 1]) == ts[i].info
    ensures Begin(ts, i + 1) == Begin(ts, i) + TypeSize(ts[i]) / 4 && TypeSize(ts[i]) > 0
  {
    assert Storable(ts[i]);
    SectionAt(ts, i);
    WordsSize(ts[i]);
    OffsetStep(ts, i);
    Middle(Section(ts[..i]), Words(ts[i]), Section(ts[i + 1..]), Section(ts));
  }

  lemma Middle<T>(a: seq<T>, w: seq<T>, b: seq<T>, all: seq<T>)
    requires all == a + w + b
    ensures |all| == |a| + |w| + |b| && forall k :: 0 <= k < |w| ==> all[|a| + k] == w[k]
  {
  }

  /** One descriptor, after all the words before it. */
  method BswapType(words: array<u32>, p: nat, ghost native: seq<u32>) returns (err: int)
    requires p + 3 <= words.Length == |native| && 4 * p + InfoSize(ParseInfo(native[p + 1])) <= 4 * words.Length
    requires InfoSize(ParseInfo(native[p + 1])) >= 0 && words[..] == SwapRange(native, 0, p)
    modifies words
    ensures err == 0 && words[..] == SwapRange(native, 0, p + InfoSize(ParseInfo(native[p + 1])) / 4)
  {
    assert words[p + 1] == words[..][p + 1] == native[p + 1];
    err := BswapTypeRest(words, p);
    if err != 0 { return; }
    BswapTypeBase(words, p);
    SwapParts(native, p, p + InfoSize(ParseInfo(native[p + 1])) / 4);
  }

  lemma SwapParts(ws: seq<u32>, p: nat, end: nat)
    requires p + 3 <= end
    ensures SwapRange(SwapRange(SwapRange(ws, 0, p), p + 3, end), p, p + 3) == SwapRange(ws, 0, end)
  {
  }
}
