/** A whole BTF image: header, type section and string section as bytes, in either byte order. */
module BtfFile {
  import opened Bytes
  import opened Ints
  import opened BtfTypes
  import opened BtfWords
  import opened BtfSection
  import opened Errno

  const BTF_MAGIC: u16 := 0xeB9F
  const BTF_VERSION: u8 := 1
  const BTF_MAX_STR_OFFSET: u32 := 0x7fff_ffff
  const HDR_SIZE := 24

  // ----- words as bytes

  /** The words of a section as bytes. */
  function StoreWords(ws: seq<u32>, e: Order): (bs: seq<u8>)
    ensures |bs| == 4 * |ws|
  {
    if ws == [] then [] else StoreWords(ws[..|ws| - 1], e) + Store32(ws[|ws| - 1], e)
  }

  /** The whole words in a run of bytes. */
  function LoadWords(bs: seq<u8>, e: Order): (ws: seq<u32>)
    ensures |ws| == |bs| / 4
  {
    seq(|bs| / 4, i requires 0 <= i < |bs| / 4 => Load32(bs[4 * i..4 * i + 4], e))
  }

  lemma {:induction false} LoadStoreWords(ws: seq<u32>, e: Order)
    ensures LoadWords(StoreWords(ws, e), e) == ws
  {
    if ws != [] {
      var n := |ws| - 1;
      LoadStoreWords(ws[..n], e);
      LoadStore(ws[n], e);
      LoadWordsSnoc(StoreWords(ws[..n], e), Store32(ws[n], e), e);
    }
  }

  lemma LoadWordsSnoc(pre: seq<u8>, last: seq<u8>, e: Order)
    requires |pre| % 4 == 0 && |last| == 4
    ensures LoadWords(pre + last, e) == LoadWords(pre, e) + [Load32(last, e)]
  {
    forall i | 0 <= i <= |pre| / 4 ensures LoadWords(pre + last, e)[i] == (LoadWords(pre, e) + [Load32(last, e)])[i] {
      WordAt(pre, last, i);
    }
  }

  lemma WordAt(pre: seq<u8>, last: seq<u8>, i: nat)
    requires |pre| % 4 == 0 && |last| == 4 && i <= |pre| / 4
    ensures (pre + last)[4 * i..4 * i + 4] == if i < |pre| / 4 then pre[4 * i..4 * i + 4] else last
  {
  }

  lemma LoadWordsFlipped(bs: seq<u8>, e: Order)
    ensures LoadWords(bs, Flip(e)) == SwapAll(LoadWords(bs, e))
  {
    forall i | 0 <= i < |bs| / 4 ensures LoadWords(bs, Flip(e))[i] == Bswap32(LoadWords(bs, e)[i]) {
      LoadFlipped(bs[4 * i..4 * i + 4], e);
    }
  }

  /** Swapping every word is storing the words in the other order. */
  lemma {:induction false} StoreWordsFlipped(ws: seq<u32>, e: Order)
    ensures StoreWords(SwapAll(ws), e) == StoreWords(ws, Flip(e))
  {
    if ws != [] {
      var n := |ws| - 1;
      StoreWordsFlipped(ws[..n], e);
      LoadStore(ws[n], e);
      assert SwapAll(ws)[..n] == SwapAll(ws[..n]) && SwapAll(ws)[n] == Bswap32(ws[n]);
    }
  }

  // ----- the header

  datatype Header = Header(magic: u16, version: u8, flags: u8, hdrLen: u32, typeOff: u32, typeLen: u32, strOff: u32, strLen: u32)

  function StoreHeader(h: Header, e: Order): (bs: seq<u8>)
    ensures |bs| == HDR_SIZE
  {
    Store16(h.magic, e) + [h.version, h.flags] + StoreWords([h.hdrLen, h.typeOff, h.typeLen, h.strOff, h.strLen], e)
  }

  function LoadHeader(bs: seq<u8>, e: Order): Header
    requires |bs| >= HDR_SIZE
  {
    var ws := LoadWords(bs[4..24], e);
    Header(Load16(bs[0..2], e), bs[2], bs[3], ws[0], ws[1], ws[2], ws[3], ws[4])
  }

  /** btf_bswap_hdr. */
  function BswapHdr(h: Header): Header {
    Header(Bswap16(h.magic), h.version, h.flags, Bswap32(h.hdrLen), Bswap32(h.typeOff), Bswap32(h.typeLen), Bswap32(h.strOff), Bswap32(h.strLen))
  }

  lemma LoadStoreHeader(h: Header, e: Order, rest: seq<u8>)
    ensures LoadHeader(StoreHeader(h, e) + rest, e) == h
  {
    var ws := [h.hdrLen, h.typeOff, h.typeLen, h.strOff, h.strLen];
    var bs := StoreHeader(h, e) + rest;
    assert bs[0..2] == Store16(h.magic, e);
    assert bs[4..24] == StoreWords(ws, e);
    LoadStoreWords(ws, e);
  }

  lemma BswapHdrTwice(h: Header)
    ensures BswapHdr(BswapHdr(h)) == h
  {
    Bswap16Twice(h.magic);
    Bswap32Twice(h.hdrLen);
    Bswap32Twice(h.typeOff);
    Bswap32Twice(h.typeLen);
    Bswap32Twice(h.strOff);
    Bswap32Twice(h.strLen);
  }

  /** A swapped header is the header stored in the other order. */
  lemma StoreHeaderFlipped(h: Header, e: Order)
    ensures StoreHeader(BswapHdr(h), e) == StoreHeader(h, Flip(e))
  {
    var ws := [h.hdrLen, h.typeOff, h.typeLen, h.strOff, h.strLen];
    var g := BswapHdr(h);
    assert StoreWords([g.hdrLen, g.typeOff, g.typeLen, g.strOff, g.strLen], e) == StoreWords(ws, Flip(e)) by {
      StoreWordsFlipped(ws, e);
      assert SwapAll(ws) == [g.hdrLen, g.typeOff, g.typeLen, g.strOff, g.strLen];
    }
    Store16Flipped(h.magic, e);
  }

  /** The sections lie in the image, types before strings. */
  predicate LaidOut(h: Header, size: nat) {
    h.hdrLen <= size && h.strOff + h.strLen <= size - h.hdrLen && h.typeOff + h.typeLen <= h.strOff && h.typeOff % 4 == 0
  }

  /** The header h, in native order, of an image of the given size whose header loads as given. */
  ghost predicate HdrAccepts(given: Header, size: nat, swapped: bool, h: Header) {
    h.magic == BTF_MAGIC && LaidOut(h, size) && if swapped then h.hdrLen == HDR_SIZE && given == BswapHdr(h) else given == h
  }

  ghost predicate HdrReads(raw: seq<u8>, e: Order, swapped: bool, h: Header) {
    |raw| >= HDR_SIZE && HdrAccepts(LoadHeader(raw, e), |raw|, swapped, h)
  }

  /** The checks of btf_parse_hdr: the magic number decides the byte order. */
  method CheckHdr(given: Header, size: nat) returns (err: int, swapped: bool, h: Header)
    ensures err == 0 ==> HdrAccepts(given, size, swapped, h)
    ensures err != 0 ==> forall s, g :: !HdrAccepts(given, size, s, g)
    ensures err == -ENOTSUP <==> given.magic == Bswap16(BTF_MAGIC) && Bswap32(given.hdrLen) != HDR_SIZE
    ensures err in {0, -EINVAL, -ENOTSUP}
  {
    swapped, h := given.magic == Bswap16(BTF_MAGIC), given;
    OnlyReading(given, size);
    if swapped {
      if Bswap32(h.hdrLen) != HDR_SIZE { return -ENOTSUP, swapped, h; }
      h := BswapHdr(h);
      assert BswapHdr(h) == given by { BswapHdrTwice(given); }
      assert h.magic == BTF_MAGIC by { Bswap16Twice(BTF_MAGIC); }
    } else if h.magic != BTF_MAGIC {
      return -EINVAL, swapped, h;
    }
    if size < h.hdrLen { return -EINVAL, swapped, h; }
    if size - h.hdrLen < h.strOff + h.strLen { return -EINVAL, swapped, h; }
    if h.typeOff + h.typeLen > h.strOff { return -EINVAL, swapped, h; }
    if h.typeOff % 4 != 0 { return -EINVAL, swapped, h; }
    err := 0;
  }

  /** The magic number tells the two byte orders apart. */
  lemma OnlyReading(given: Header, size: nat)
    ensures forall s, g :: HdrAccepts(given, size, s, g) ==>
              s == (given.magic == Bswap16(BTF_MAGIC)) && g == if s then BswapHdr(given) else given
  {
    forall s, g | HdrAccepts(given, size, s, g)
      ensures s == (given.magic == Bswap16(BTF_MAGIC)) && g == if s then BswapHdr(given) else given
    {
      BswapHdrTwice(g);
    }
  }

  /** btf_parse_hdr. */
  method ParseHdr(raw: seq<u8>, e: Order) returns (err: int, swapped: bool, h: Header)
    ensures err == 0 ==> HdrReads(raw, e, swapped, h)
    ensures err != 0 ==> forall s, g :: !HdrReads(raw, e, s, g)
  {
    if |raw| < HDR_SIZE { return -EINVAL, false, Header(0, 0, 0, 0, 0, 0, 0, 0); }
    err, swapped, h := CheckHdr(LoadHeader(raw, e), |raw|);
  }

  // ----- the string section

  /** btf_parse_str_sec: strings end in NUL, and without a base start with the empty string. */
  predicate GoodStrs(strs: seq<u8>, hasBase: bool) {
    (hasBase && strs == []) ||
    (strs != [] && |strs| - 1 <= BTF_MAX_STR_OFFSET && strs[|strs| - 1] == 0 && (hasBase || strs[0] == 0))
  }

  // ----- reading an image

  /** What an image means: its header, descriptors and strings in native terms. */
  ghost predicate Reads(raw: seq<u8>, e: Order, hasBase: bool, swapped: bool, h: Header, ts: seq<BtfType>, strs: seq<u8>) {
    HdrReads(raw, e, swapped, h) && h.typeLen % 4 == 0 &&
    strs == StrBytes(raw, h) && GoodStrs(strs, hasBase) &&
    AllStorable(ts) && Section(ts) == Native(LoadWords(TypeBytes(raw, h), e), swapped)
  }

  /** No header, descriptors and strings are what the image means. */
  ghost predicate Unreadable(raw: seq<u8>, e: Order, hasBase: bool) {
    forall s, g, all, bs :: !Reads(raw, e, hasBase, s, g, all, bs)
  }

  function TypeBytes(raw: seq<u8>, h: Header): seq<u8>
    requires LaidOut(h, |raw|)
  {
    raw[h.hdrLen + h.typeOff..h.hdrLen + h.typeOff + h.typeLen]
  }

  function StrBytes(raw: seq<u8>, h: Header): seq<u8>
    requires LaidOut(h, |raw|)
  {
    raw[h.hdrLen + h.strOff..h.hdrLen + h.strOff + h.strLen]
  }

  /** btf_new: it accepts exactly the images that mean something, in either byte order. */
  method BtfNew(raw: seq<u8>, e: Order, hasBase: bool)
    returns (err: int, swapped: bool, h: Header, words: array<u32>, offs: seq<nat>, strs: seq<u8>, ghost ts: seq<BtfType>)
    requires |raw| < 0x1_0000_0000
    ensures err == 0 ==> Reads(raw, e, hasBase, swapped, h, ts, strs) && words[..] == Section(ts) && Starts(offs, ts)
    ensures err != 0 ==> Unreadable(raw, e, hasBase)
    ensures fresh(words)
  {
    words, offs, strs, ts := new u32[0], [], [], [];
    err, swapped, h := ParseHdr(raw, e);
    if err != 0 { return; }
    OnlyOneReading(raw, e, swapped, h);
    strs := StrBytes(raw, h);
    if !GoodStrs(strs, hasBase) { return -EINVAL, swapped, h, words, offs, strs, ts; }
    var loaded := LoadWords(TypeBytes(raw, h), e);
    words := new u32[|loaded|](i requires 0 <= i < |loaded| => loaded[i]);
    assert words[..] == loaded;
    err, offs, ts := ParseTypeSec(words, h.typeLen, swapped);
  }

  lemma OnlyOneReading(raw: seq<u8>, e: Order, swapped: bool, h: Header)
    requires HdrReads(raw, e, swapped, h)
    ensures forall s, g :: HdrReads(raw, e, s, g) ==> s == swapped && g == h
  {
    OnlyReading(LoadHeader(raw, e), |raw|);
  }

  /** An image means one thing. */
  lemma ReadsOnce(raw: seq<u8>, e: Order, hasBase: bool, s: bool, g: Header, ts: seq<BtfType>, strs: seq<u8>,
                  s': bool, g': Header, ts': seq<BtfType>, strs': seq<u8>)
    requires Reads(raw, e, hasBase, s, g, ts, strs) && Reads(raw, e, hasBase, s', g', ts', strs')
    ensures s == s' && g == g' && ts == ts' && strs == strs'
  {
    OnlyOneReading(raw, e, s, g);
    assert Section(ts) == Section(ts') + [] && Section(ts') == Section(ts) + [];
    SectionPrefix(ts, ts', []);
    SectionPrefix(ts', ts, []);
  }

  // ----- writing an image

  /** The image of a BTF: header, descriptors and strings back to back. */
  ghost function Image(h: Header, beyond: seq<u8>, ts: seq<BtfType>, strs: seq<u8>, e: Order): seq<u8>
    requires h.hdrLen <= HDR_SIZE + |beyond|
  {
    (StoreHeader(h, e) + beyond)[..h.hdrLen] + StoreWords(Section(ts), e) + strs
  }

  /**
   * btf_get_raw_data: the image in the host's byte order, or in the other. Its size is kept in 32 bits, and
   * that many of the bytes written are what the caller gets.
   */
  method GetRawData(h: Header, beyond: seq<u8>, words: array<u32>, offs: seq<nat>, strs: seq<u8>, swap: bool, e: Order, ghost ts: seq<BtfType>)
    returns (raw: seq<u8>)
    requires h.hdrLen <= HDR_SIZE + |beyond| && h.typeLen == 4 * words.Length && h.strLen == |strs|
    requires AllStorable(ts) && words[..] == Section(ts) && Starts(offs, ts)
    ensures raw == Announced(Image(h, beyond, ts, strs, if swap then Flip(e) else e))
  {
    ghost var o := if swap then Flip(e) else e;
    var hdr, body := StoreParts(h, words, offs, swap, e, ts);
    var dataSz := Size32(h.hdrLen + h.typeLen + h.strLen);
    var written := (hdr + beyond)[..h.hdrLen] + body + strs;
    assert |written| == h.hdrLen + h.typeLen + h.strLen;
    raw := written[..dataSz];
  }

  /** Header and type section in the byte order asked for. */
  method StoreParts(h: Header, words: array<u32>, offs: seq<nat>, swap: bool, e: Order, ghost ts: seq<BtfType>) returns (hdr: seq<u8>, body: seq<u8>)
    requires AllStorable(ts) && words[..] == Section(ts) && Starts(offs, ts)
    ensures var o := if swap then Flip(e) else e; hdr == StoreHeader(h, o) && body == StoreWords(Section(ts), o)
  {
    hdr := StoreHeader(if swap then BswapHdr(h) else h, e);
    var copy := new u32[words.Length](i requires 0 <= i < words.Length reads words => words[i]);
    assert copy[..] == words[..];
    if swap {
      var _ := BswapTypes(copy, offs, ts);
      StoreHeaderFlipped(h, e);
      StoreWordsFlipped(Section(ts), e);
    }
    body := StoreWords(copy[..], e);
  }

  /** A size kept in 32 bits. */
  function Size32(n: nat): (r: nat)
    ensures r <= n && r < 0x1_0000_0000 && (r == n <==> n < 0x1_0000_0000)
  {
    n % 0x1_0000_0000
  }

  /** The part of the written bytes that a 32-bit size counts. */
  function Announced(bytes: seq<u8>): seq<u8> {
    bytes[..Size32(|bytes|)]
  }

  /** A header that describes the sections as they are written. */
  predicate Describes(h: Header, typeLen: nat, strLen: nat) {
    h.magic == BTF_MAGIC && h.hdrLen == HDR_SIZE && h.typeOff == 0 && h.typeLen == h.strOff == typeLen && h.strLen == strLen
  }

  /** The size of an image fits the 32 bits it is kept in. */
  predicate FitsSize(typeLen: nat, strLen: nat) { HDR_SIZE + typeLen + strLen < 0x1_0000_0000 }

  /**
   * Round trip, within a host in either byte order: exactly if the size fits 32 bits, what is written reads
   * back, as the same header, descriptors and strings, with the byte order recognised.
   */
  lemma ImageReads(h: Header, ts: seq<BtfType>, strs: seq<u8>, e: Order, hasBase: bool, swap: bool)
    requires AllStorable(ts) && Describes(h, 4 * |Section(ts)|, |strs|) && GoodStrs(strs, hasBase)
    ensures var raw := Announced(Image(h, [], ts, strs, if swap then Flip(e) else e));
            if FitsSize(h.typeLen, h.strLen) then Reads(raw, e, hasBase, swap, h, ts, strs)
            else Unreadable(raw, e, hasBase)
  {
    var o := if swap then Flip(e) else e;
    var hdr, body := StoreHeader(h, o), StoreWords(Section(ts), o);
    var image := Image(h, [], ts, strs, o);
    assert image == hdr + (body + strs) by { assert (hdr + [])[..24] == hdr; }
    if FitsSize(h.typeLen, h.strLen) {
      WholeImage(h, ts, strs, e, hasBase, swap, hdr, body);
    } else {
      CutImage(h, hdr, body + strs, e, hasBase, swap);
    }
  }

  lemma WholeImage(h: Header, ts: seq<BtfType>, strs: seq<u8>, e: Order, hasBase: bool, swap: bool, hdr: seq<u8>, body: seq<u8>)
    requires AllStorable(ts) && Describes(h, |body|, |strs|) && GoodStrs(strs, hasBase) && FitsSize(|body|, |strs|)
    requires var o := if swap then Flip(e) else e; hdr == StoreHeader(h, o) && body == StoreWords(Section(ts), o)
    ensures Reads(Announced(hdr + (body + strs)), e, hasBase, swap, h, ts, strs)
  {
    var raw := hdr + (body + strs);
    assert Announced(raw) == raw;
    ImageParts(hdr, body, strs, h);
    SectionReads(ts, e, swap);
    HeaderReads(h, body + strs, e, swap);
    assert HdrReads(raw, e, swap, h) by { BswapHdrTwice(h); }
  }

  /** An image longer than the header says it may be is cut short, and no reading of the rest exists. */
  lemma CutImage(h: Header, hdr: seq<u8>, rest: seq<u8>, e: Order, hasBase: bool, swap: bool)
    requires hdr == StoreHeader(h, if swap then Flip(e) else e) && |rest| == h.typeLen + h.strLen
    requires Describes(h, h.typeLen, h.strLen) && !FitsSize(h.typeLen, h.strLen)
    ensures Unreadable(Announced(hdr + rest), e, hasBase)
  {
    var raw := Announced(hdr + rest);
    assert |raw| < HDR_SIZE + |rest|;
    forall s, g, all, bs ensures !Reads(raw, e, hasBase, s, g, all, bs) {
      if Reads(raw, e, hasBase, s, g, all, bs) {
        var more := rest[..|raw| - HDR_SIZE];
        assert raw == hdr + more;
        HeaderReads(h, more, e, swap);
        BswapHdrTwice(h);
        HeaderTells(raw, e, s, g, h, swap);
      }
    }
  }

  lemma HeaderTells(raw: seq<u8>, e: Order, s: bool, g: Header, h: Header, swap: bool)
    requires HdrReads(raw, e, s, g) && h.magic == BTF_MAGIC && LoadHeader(raw, e) == if swap then BswapHdr(h) else h
    ensures s == swap && g == h
  {
    BswapHdrTwice(g);
    BswapHdrTwice(h);
  }

  /** One type section that is too long: a BTF of that many pointers cannot be written and read back. */
  lemma TooManyPointers(h: Header, ts: seq<BtfType>, e: Order)
    requires |ts| == 357_913_940 && Describes(h, 12 * |ts|, 1)
    requires forall i :: 0 <= i < |ts| ==> ts[i] == BtfType(0, Info(Ptr, 0, false, 0, 0), 0, NoTail)
    ensures AllStorable(ts) && Unreadable(Announced(Image(h, [], ts, [0], e)), e, false)
  {
    PointerWords(ts);
    ImageReads(h, ts, [0], e, false, false);
  }

  lemma {:induction false} PointerWords(ts: seq<BtfType>)
    requires forall i :: 0 <= i < |ts| ==> ts[i] == BtfType(0, Info(Ptr, 0, false, 0, 0), 0, NoTail)
    ensures |Section(ts)| == 3 * |ts|
  {
    if ts != [] { PointerWords(ts[..|ts| - 1]); }
  }

  lemma ImageParts(hdr: seq<u8>, body: seq<u8>, strs: seq<u8>, h: Header)
    requires |hdr| == HDR_SIZE && Describes(h, |body|, |strs|)
    ensures var raw := hdr + (body + strs); LaidOut(h, |raw|) && TypeBytes(raw, h) == body && StrBytes(raw, h) == strs
  {
    var raw := hdr + (body + strs);
    assert raw[24..] == body + strs;
    assert raw[24 + |body|..] == strs;
  }

  lemma SectionReads(ts: seq<BtfType>, e: Order, swap: bool)
    ensures Native(LoadWords(StoreWords(Section(ts), if swap then Flip(e) else e), e), swap) == Section(ts)
  {
    var o := if swap then Flip(e) else e;
    LoadStoreWords(Section(ts), o);
    if swap {
      LoadWordsFlipped(StoreWords(Section(ts), o), o);
      SwapAllTwice(Section(ts));
    }
  }

  lemma HeaderReads(h: Header, rest: seq<u8>, e: Order, swap: bool)
    ensures LoadHeader(StoreHeader(h, if swap then Flip(e) else e) + rest, e) == if swap then BswapHdr(h) else h
  {
    if swap {
      BswapHdrTwice(h);
      StoreHeaderFlipped(h, e);
      LoadStoreHeader(BswapHdr(h), e, rest);
    } else {
      LoadStoreHeader(h, e, rest);
    }
  }

  /** Across hosts: an image written by one host in its own order is read by a host of the other order as swapped. */
  lemma ImageTravels(h: Header, ts: seq<BtfType>, strs: seq<u8>, writer: Order, reader: Order, hasBase: bool)
    requires AllStorable(ts) && Describes(h, 4 * |Section(ts)|, |strs|) && GoodStrs(strs, hasBase) && FitsSize(h.typeLen, h.strLen)
    ensures Reads(Announced(Image(h, [], ts, strs, writer)), reader, hasBase, writer != reader, h, ts, strs)
  {
    ImageReads(h, ts, strs, reader, hasBase, writer != reader);
  }
}
