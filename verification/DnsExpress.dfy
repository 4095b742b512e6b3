/** The DNS responder: a query that the table knows is turned into its reply in place and sent back. */
module DnsExpress {
  import opened Ints
  import opened Bytes
  import opened Options
  import opened InternetChecksum

  // ----- the frame: Ethernet, an IPv4 header of 20 bytes, UDP, the DNS header, and what follows

  const QUESTION := 54
  const MAX_DNS_NAME_LENGTH := 256
  const ANSWER_SIZE := 16

  type Addr = s: seq<u8> | |s| == 4 witness [0, 0, 0, 0]

  /** A key of the table: the name is padded with zeros to its full length. */
  datatype Key = Key(recordType: u16, recordClass: u16, name: seq<u8>)

  datatype Record = Record(ip: Addr, ttl: u32)

  datatype Action = Pass | Tx

  function Be16(b: seq<u8>, off: nat): u16
    requires off + 2 <= |b|
  {
    Pair(b[off], b[off + 1], Big)
  }

  datatype Ether = Ether(dst: seq<u8>, src: seq<u8>, proto: seq<u8>)

  datatype Ip = Ip(first: seq<u8>, totLen: seq<u8>, middle: seq<u8>, check: seq<u8>, src: seq<u8>, dst: seq<u8>)

  datatype Udp = Udp(src: seq<u8>, dst: seq<u8>, len: seq<u8>, check: seq<u8>)

  datatype Dns = Dns(id: seq<u8>, flags0: seq<u8>, flags1: seq<u8>, questions: seq<u8>, answers: seq<u8>, others: seq<u8>)

  function EtherOf(b: seq<u8>): Ether
    requires |b| >= QUESTION
  {
    Ether(b[0..6], b[6..12], b[12..14])
  }

  function IpOf(b: seq<u8>): Ip
    requires |b| >= QUESTION
  {
    Ip(b[14..16], b[16..18], b[18..24], b[24..26], b[26..30], b[30..34])
  }

  function UdpOf(b: seq<u8>): Udp
    requires |b| >= QUESTION
  {
    Udp(b[34..36], b[36..38], b[38..40], b[40..42])
  }

  function DnsOf(b: seq<u8>): Dns
    requires |b| >= QUESTION
  {
    Dns(b[42..44], b[44..45], b[45..46], b[46..48], b[48..50], b[50..54])
  }

  /** Outside from and to, the runs of r are those of b. */
  ghost predicate Rest(b: seq<u8>, r: seq<u8>, from: nat, to: nat) {
    |r| == |b| && forall lo, hi {:trigger r[lo..hi]} :: 0 <= lo <= hi <= |b| && (hi <= from || to <= lo) ==> r[lo..hi] == b[lo..hi]
  }

  lemma RestByBytes(b: seq<u8>, r: seq<u8>, from: nat, to: nat)
    requires |r| == |b| && forall i :: 0 <= i < |b| && (i < from || to <= i) ==> r[i] == b[i]
    ensures Rest(b, r, from, to)
  {
  }

  /** memcpy into the frame. */
  method PutBytes(buf: array<u8>, off: nat, run: seq<u8>)
    requires off + |run| <= buf.Length
    modifies buf
    ensures Rest(old(buf[..]), buf[..], off, off + |run|) && buf[off..off + |run|] == run
  {
    var i := 0;
    while i < |run|
      invariant 0 <= i <= |run| && buf[off..off + i] == run[..i]
      invariant forall j :: 0 <= j < buf.Length && (j < off || off + i <= j) ==> buf[j] == old(buf[j])
    {
      buf[off + i] := run[i];
      i := i + 1;
    }
    RestByBytes(old(buf[..]), buf[..], off, off + |run|);
  }

  // ----- the query

  /** A UDP datagram to port 53 with a standard query in it. */
  predicate IsQuery(p: seq<u8>) {
    |p| >= QUESTION && Be16(p, 12) == 0x0800 && p[23] == 17 && Be16(p, 36) == 53 && p[44] < 8
  }

  /** The first zero byte of the question, within bounds, is at e. */
  predicate EndsAt(p: seq<u8>, e: nat) {
    QUESTION <= e < |p| && e < QUESTION + MAX_DNS_NAME_LENGTH && p[e] == 0 && forall i :: QUESTION <= i < e ==> p[i] != 0
  }

  /** The length of a question whose name ends at e: the name, its zero, type and class. */
  function Length(e: nat): nat
    requires QUESTION <= e
  {
    e + 5 - QUESTION
  }

  /** The key that is looked up: type and class count as 0 when they are not in the frame. */
  function KeyAt(p: seq<u8>, e: nat): Key
    requires QUESTION <= e < |p| && e < QUESTION + MAX_DNS_NAME_LENGTH
  {
    var name := p[QUESTION..e] + Zeros(QUESTION + MAX_DNS_NAME_LENGTH - e);
    if e + 5 <= |p| then Key(Be16(p, e + 1), Be16(p, e + 3), name) else Key(0, 0, name)
  }

  function Zeros(n: nat): (z: seq<u8>)
    ensures |z| == n && forall i :: 0 <= i < n ==> z[i] == 0
  {
    seq(n, _ => 0)
  }

  /** parse_query: the length of the question, or -1 when no zero byte ends the name. */
  method ParseQuery(buf: array<u8>) returns (len: int, q: Key, ghost e: nat)
    requires buf.Length >= QUESTION
    ensures len == -1 || (EndsAt(buf[..], e) && len == Length(e) && q == KeyAt(buf[..], e))
    ensures len == -1 ==> forall i: nat :: !EndsAt(buf[..], i)
  {
    var name := new u8[MAX_DNS_NAME_LENGTH](_ => 0);
    var rtype: u16, rclass: u16 := 0, 0;
    var k, cursor := 0, QUESTION;
    while k < MAX_DNS_NAME_LENGTH && cursor + 1 <= buf.Length
      invariant 0 <= k <= MAX_DNS_NAME_LENGTH && cursor == QUESTION + k && cursor <= buf.Length
      invariant forall i :: QUESTION <= i < cursor ==> buf[i] != 0
      invariant name[..] == buf[QUESTION..cursor] + Zeros(MAX_DNS_NAME_LENGTH - k)
    {
      if buf[cursor] == 0 {
        if cursor + 5 <= buf.Length {
          rtype := Load16(buf[cursor + 1..cursor + 3], Big);
          rclass := Load16(buf[cursor + 3..cursor + 5], Big);
        }
        assert buf[..][QUESTION..cursor] == buf[QUESTION..cursor];
        return k + 5, Key(rtype, rclass, name[..]), cursor;
      }
      name[k] := buf[cursor];
      k, cursor := k + 1, cursor + 1;
    }
    len, q, e := -1, Key(0, 0, name[..]), 0;
    forall i: nat ensures !EndsAt(buf[..], i) {
      NoEnd(buf[..], cursor, i);
    }
  }

  lemma NoEnd(p: seq<u8>, cursor: nat, i: nat)
    requires QUESTION <= cursor <= |p| && (cursor == QUESTION + MAX_DNS_NAME_LENGTH || cursor == |p|)
    requires forall i :: QUESTION <= i < cursor ==> p[i] != 0
    ensures !EndsAt(p, i)
  {
  }

  // ----- the reply

  /** The answer record: the name by a pointer to the question's, type A, class IN, and the record. */
  function Answer(r: Record): (a: seq<u8>)
    ensures |a| == ANSWER_SIZE
  {
    Store16(0xc00c, Big) + Store16(1, Big) + Store16(1, Big) + Store32(r.ttl, Big) + Store16(4, Big) + r.ip
  }

  /** A byte with its top bit set. */
  function Or128(b: u8): u8 { if b < 128 then b + 128 else b }

  /** A response, recursion available, one answer. */
  ghost predicate Responding(h: Dns, g: Dns)
    requires |h.flags0| == |h.flags1| == 1
  {
    g == h.(flags0 := [Or128(h.flags0[0])], flags1 := [Or128(h.flags1[0])], answers := [0, 1])
  }

  /** The headers q of a frame of the given size are those of p turned round. */
  ghost predicate Returned(p: seq<u8>, q: seq<u8>, size: nat)
    requires |p| >= QUESTION && |q| >= QUESTION
  {
    && 34 <= size < 0x1_0000
    && EtherOf(q) == (var h := EtherOf(p); h.(dst := h.src, src := h.dst))
    && IpOf(q) == (var h := IpOf(p); h.(totLen := Store16(size - 14, Big), check := q[24..26], src := h.dst, dst := h.src))
    && ChecksumOk(q[14..34], Little)
    && UdpOf(q) == (var h := UdpOf(p); h.(src := h.dst, dst := h.src, len := Store16(size - 34, Big), check := [0, 0]))
  }

  /** The reply q to the query p whose name ends at e. */
  ghost predicate Answered(p: seq<u8>, e: nat, r: Record, q: seq<u8>) {
    && |p| >= QUESTION && QUESTION <= e && |q| == e + 5 + ANSWER_SIZE
    && Returned(p, q, |q|)
    && Responding(DnsOf(p), DnsOf(q))
    && (forall i :: QUESTION <= i < e + 5 && i < |p| ==> q[i] == p[i])
    && q[e + 5..] == Answer(r)
  }

  /** Only the DNS header differs, and it is that of a response. */
  ghost predicate Marked(p: seq<u8>, q: seq<u8>)
    requires |p| >= QUESTION
  {
    |q| == |p| && q[..42] == p[..42] && Responding(DnsOf(p), DnsOf(q)) && q[QUESTION..] == p[QUESTION..]
  }

  /** modify_dns_header_response. */
  method ModifyDnsHeader(buf: array<u8>)
    requires buf.Length >= QUESTION && buf[44] < 8
    modifies buf
    ensures Marked(old(buf[..]), buf[..])
  {
    buf[44] := Or128(buf[44]);
    buf[45] := Or128(buf[45]);
    buf[48], buf[49] := 0, 1;
  }

  /** Two neighbouring values swapped by a temporary. */
  method SwapRuns(buf: array<u8>, from: nat, mid: nat, to: nat)
    requires from <= mid <= to <= buf.Length && mid - from == to - mid
    modifies buf
    ensures Rest(old(buf[..]), buf[..], from, to)
    ensures buf[from..mid] == old(buf[mid..to]) && buf[mid..to] == old(buf[from..mid])
  {
    var first := buf[from..mid];
    PutBytes(buf, from, buf[mid..to]);
    PutBytes(buf, mid, first);
  }

  /** swap_mac, on the addresses at 6 and 0. */
  method SwapMac(buf: array<u8>)
    requires buf.Length >= QUESTION
    modifies buf
    ensures Rest(old(buf[..]), buf[..], 0, 12)
    ensures buf[0..6] == old(buf[6..12]) && buf[6..12] == old(buf[0..6])
  {
    ghost var p := buf[..];
    ghost var dst, src := p[0..6], p[6..12];
    var i := 0;
    while i < 6
      invariant 0 <= i <= 6
      invariant forall j :: 0 <= j < 6 ==> buf[j] == if j < i then src[j] else dst[j]
      invariant forall j :: 6 <= j < 12 ==> buf[j] == if j - 6 < i then dst[j - 6] else src[j - 6]
      invariant forall j :: 12 <= j < buf.Length ==> buf[j] == p[j]
    {
      buf[6 + i], buf[i] := buf[i], buf[6 + i];
      i := i + 1;
    }
    RestByBytes(p, buf[..], 0, 12);
  }

  method SetIpChecksum(buf: array<u8>)
    requires buf.Length >= QUESTION
    modifies buf
    ensures Rest(old(buf[..]), buf[..], 24, 26) && ChecksumOk(buf[14..34], Little)
  {
    SumBound(With16(buf[14..34], 10, 0, Little), 10, Little);
    UpdateIpChecksum(buf, 14, 20, 10, Little);
    RestByBytes(old(buf[..]), buf[..], 24, 26);
  }

  /** The IP and the UDP length. */
  method SetLengths(buf: array<u8>)
    requires QUESTION <= buf.Length < 0x1_0000
    modifies buf
    ensures EtherOf(buf[..]) == EtherOf(old(buf[..]))
    ensures IpOf(buf[..]) == IpOf(old(buf[..])).(totLen := Store16(buf.Length - 14, Big))
    ensures UdpOf(buf[..]) == UdpOf(old(buf[..])).(len := Store16(buf.Length - 34, Big))
    ensures buf[42..buf.Length] == old(buf[42..buf.Length])
  {
    PutBytes(buf, 16, Store16(buf.Length - 14, Big));
    PutBytes(buf, 38, Store16(buf.Length - 34, Big));
  }

  /** The two swaps of addresses. */
  method SwapAddresses(buf: array<u8>)
    requires QUESTION <= buf.Length
    modifies buf
    ensures EtherOf(buf[..]) == (var h := EtherOf(old(buf[..])); h.(dst := h.src, src := h.dst))
    ensures IpOf(buf[..]) == (var h := IpOf(old(buf[..])); h.(src := h.dst, dst := h.src))
    ensures UdpOf(buf[..]) == UdpOf(old(buf[..]))
    ensures buf[42..buf.Length] == old(buf[42..buf.Length])
  {
    SwapMac(buf);
    SwapRuns(buf, 26, 30, 34);
  }

  /** The frame sent back to where it came from. */
  method TurnRound(buf: array<u8>)
    requires QUESTION <= buf.Length < 0x1_0000
    modifies buf
    ensures Returned(old(buf[..]), buf[..], buf.Length) && buf[42..buf.Length] == old(buf[42..buf.Length])
  {
    SetLengths(buf);
    SwapAddresses(buf);
    PutBytes(buf, 40, [0, 0]);
    SwapRuns(buf, 34, 36, 38);
    SetIpChecksum(buf);
  }

  /** A frame as the driver hands it over; grants says whether it lets its size be changed. */
  class Frame {
    var data: array<u8>
    const grants: bool

    constructor (bytes: array<u8>, grants: bool)
      ensures data == bytes && this.grants == grants
    {
      data, this.grants := bytes, grants;
    }

    /** bpf_xdp_adjust_tail: the frame may move, and bytes it gains are arbitrary. */
    method AdjustTail(delta: int) returns (err: int)
      requires data.Length + delta >= 0
      modifies this
      ensures err == 0 <==> grants
      ensures err != 0 ==> data == old(data)
      ensures err == 0 ==> fresh(data) && data.Length == old(data.Length) + delta
      ensures err == 0 ==> forall i :: 0 <= i < data.Length && i < old(data.Length) ==> data[i] == old(data[i])
    {
      if !grants { return -1; }
      var moved := new u8[data.Length + delta];
      forall i | 0 <= i < moved.Length && i < data.Length { moved[i] := data[i]; }
      data := moved;
      return 0;
    }

    /** The frame with room for the answer after the question that ends at e + 5, and the answer in place. */
    method PutAnswer(n: nat, a: seq<u8>) returns (err: int)
      modifies this
      ensures err == 0 <==> grants
      ensures err != 0 ==> data == old(data)
      ensures err == 0 ==> fresh(data) && data.Length == QUESTION + n + |a| && data[QUESTION + n..] == a
      ensures err == 0 ==> forall i :: 0 <= i < QUESTION + n && i < old(data.Length) ==> data[i] == old(data[i])
    {
      err := AdjustTail(QUESTION + n + |a| - data.Length);
      if err == 0 {
        ghost var b, to := data[..], QUESTION + n;
        PutBytes(data, QUESTION + n, a);
        assert data[..][0..to] == b[0..to];
        assert forall i :: 0 <= i < to ==> data[i] == b[0..to][i];
      }
    }

    /** The reply to the query, once its DNS header has been rewritten. */
    method Reply(n: nat, r: Record) returns (err: int)
      requires QUESTION <= data.Length && 5 <= n <= 0x200
      modifies this
      ensures err == 0 <==> grants
      ensures err != 0 ==> data == old(data)
      ensures err == 0 ==> fresh(data) && data.Length == QUESTION + n + ANSWER_SIZE
      ensures err == 0 ==> Returned(old(data[..]), data[..], data.Length) && DnsOf(data[..]) == DnsOf(old(data[..]))
      ensures err == 0 ==> forall i :: QUESTION <= i < QUESTION + n && i < old(data.Length) ==> data[i] == old(data[i])
      ensures err == 0 ==> data[QUESTION + n..] == Answer(r)
    {
      ghost var p := data[..];
      err := PutAnswer(n, Answer(r));
      if err != 0 { return; }
      ghost var b := data[..];
      TurnRound(data);
      SameHeaders(p, b, data[..]);
      SameTail(b, data[..], QUESTION + n);
    }

    /** xdp_dns. */
    method XdpDns(table: map<Key, Record>) returns (action: Action, ghost e: nat)
      modifies this, data
      ensures action == Tx <==> grants && exists k: nat :: Hit(old(data[..]), k, table)
      ensures action == Tx ==> Hit(old(data[..]), e, table) && Answered(old(data[..]), e, table[KeyAt(old(data[..]), e)], data[..])
      ensures action == Tx ==> fresh(data)
      ensures (forall k: nat :: !Hit(old(data[..]), k, table)) ==> data == old(data) && data[..] == old(data[..])
      ensures action == Pass && Hit(old(data[..]), e, table) ==> data == old(data) && Marked(old(data[..]), data[..])
    {
      e := 0;
      ghost var p := data[..];
      var query := Screen(data);
      if !query {
        NoHit(p, table);
        return Pass, e;
      }
      var n, key;
      n, key, e := ParseQuery(data);
      assert data[..] == p;
      if n < 1 {
        NoHit(p, table);
        return Pass, e;
      }
      if key !in table {
        OtherKey(p, e, table);
        return Pass, e;
      }
      assert Hit(p, e, table);
      ModifyDnsHeader(data);
      ghost var b := data[..];
      var err := Reply(n, table[key]);
      if err != 0 { return Pass, e; }
      AnsweredBy(p, b, e, table[key], data[..]);
      return Tx, e;
    }
  }

  /** The checks before the query is parsed. */
  method Screen(buf: array<u8>) returns (query: bool)
    ensures query <==> IsQuery(buf[..])
  {
    if buf.Length < 34 || Load16(buf[12..14], Big) != 0x0800 || buf[23] != 17 { return false; }
    if buf.Length < 42 || Load16(buf[36..38], Big) != 53 { return false; }
    return buf.Length >= QUESTION && buf[44] < 8;
  }

  lemma SameHeaders(p: seq<u8>, b: seq<u8>, q: seq<u8>)
    requires |p| >= QUESTION && |b| >= QUESTION && |q| >= QUESTION && b[..42] == p[..42]
    requires Returned(b, q, |q|)
    ensures Returned(p, q, |q|)
  {
  }

  lemma AnsweredBy(p: seq<u8>, b: seq<u8>, e: nat, r: Record, q: seq<u8>)
    requires |p| >= QUESTION && QUESTION <= e && Marked(p, b) && |q| == e + 5 + ANSWER_SIZE
    requires Returned(b, q, |q|) && DnsOf(q) == DnsOf(b) && q[e + 5..] == Answer(r)
    requires forall i :: QUESTION <= i < e + 5 && i < |b| ==> q[i] == b[i]
    ensures Answered(p, e, r, q)
  {
    SameHeaders(p, b, q);
    assert forall i :: QUESTION <= i < |p| ==> b[i] == b[QUESTION..][i - QUESTION] == p[i];
  }

  lemma SameTail(b: seq<u8>, q: seq<u8>, to: nat)
    requires QUESTION <= to <= |b| == |q| && q[42..|q|] == b[42..|b|]
    ensures DnsOf(q) == DnsOf(b) && q[to..] == b[to..]
    ensures forall i :: QUESTION <= i < to ==> q[i] == b[i]
  {
    assert forall i :: 42 <= i < |b| ==> q[i] == q[42..|q|][i - 42] == b[i];
  }

  /** The query has a name that ends at e, and the table knows it. */
  predicate Hit(p: seq<u8>, e: nat, table: map<Key, Record>) {
    IsQuery(p) && EndsAt(p, e) && KeyAt(p, e) in table
  }

  /** What is no query, or has no name that ends, hits nothing. */
  lemma NoHit(p: seq<u8>, table: map<Key, Record>)
    requires !IsQuery(p) || forall i: nat :: !EndsAt(p, i)
    ensures forall k: nat :: !Hit(p, k, table)
  {
  }

  lemma OtherKey(p: seq<u8>, e: nat, table: map<Key, Record>)
    requires EndsAt(p, e) && KeyAt(p, e) !in table
    ensures forall k: nat :: !Hit(p, k, table)
  {
    forall k: nat ensures !Hit(p, k, table) { OneEnd(p, k, e); }
  }

  lemma OneEnd(p: seq<u8>, j: nat, e: nat)
    requires EndsAt(p, e)
    ensures EndsAt(p, j) ==> j == e
  {
    if j < e && EndsAt(p, j) { assert false; }
    if e < j && EndsAt(p, j) { assert false; }
  }
}
