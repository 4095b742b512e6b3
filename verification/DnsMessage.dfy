/** DNS messages in a frame, read as RFC 1035 says, and what the responder's replies read as. */
module DnsMessage {
  import opened Ints
  import opened Bytes
  import opened Options
  import opened InternetChecksum
  import opened DnsExpress

  /** Where the labels of a name that has no pointer in it end (section 4.1.4). */
  function NameEnd(b: seq<u8>, off: nat): (r: Option<nat>)
    ensures r.Some? ==> off < r.value <= |b| && b[r.value - 1] == 0
    decreases |b| - off
  {
    if off >= |b| then None
    else if b[off] == 0 then Some(off + 1)
    else if b[off] >= 64 then None
    else NameEnd(b, off + 1 + b[off])
  }

  /** A name is read from its own bytes only. */
  lemma {:induction false} NameCopied(b: seq<u8>, c: seq<u8>, off: nat, x: nat)
    requires NameEnd(b, off) == Some(x) && x <= |c| && forall i :: off <= i < x && i < |b| ==> c[i] == b[i]
    ensures NameEnd(c, off) == Some(x)
    decreases |b| - off
  {
    if b[off] != 0 {
        NameCopied(b, c, off + 1 + b[off], x);
    }
  }

  /** The responder takes the first zero byte for the end of the name: right exactly if no label holds one. */
  lemma FirstZeroEndsName(p: seq<u8>, e: nat, x: nat)
    requires EndsAt(p, e) && NameEnd(p, QUESTION) == Some(x)
    ensures e + 1 == x <==> forall i :: QUESTION <= i < x - 1 ==> p[i] != 0
  {
  }

  // ----- a whole reply

  /** What a reply with one question and one address says. */
  datatype Message = Message(id: seq<u8>, name: seq<u8>, ttl: u32, ip: seq<u8>)

  /** The lengths and the checksum of an IPv4 header of 20 bytes and a UDP header fit the frame. */
  predicate Framed(b: seq<u8>) {
    && |b| >= QUESTION && b[14] == 0x45
    && Be16(b, 12) == 0x0800 && b[23] == 17 && Be16(b, 16) == |b| - 14 && Be16(b, 38) == |b| - 34
    && ChecksumOk(b[14..34], Big) && ChecksumOk(b[14..34], Little)
  }

  /** A response with one question, one answer, and no other records. */
  predicate OneAnswer(b: seq<u8>)
    requires |b| >= QUESTION
  {
    b[44] >= 128 && Be16(b, 46) == 1 && Be16(b, 48) == 1 && Be16(b, 50) == 0 && Be16(b, 52) == 0
  }

  /** The record at off: named by a pointer to the question, an IPv4 address of class IN, and nothing after it. */
  function ReadAnswer(b: seq<u8>, off: nat): Option<(u32, seq<u8>)> {
    if |b| == off + 16 && Be16(b, off) == 0xc000 + (QUESTION - 42) && Be16(b, off + 2) == 1 && Be16(b, off + 4) == 1 && Be16(b, off + 10) == 4
    then Some((Load32(b[off + 6..off + 10], Big), b[off + 12..off + 16])) else None
  }

  /** A question for an IPv4 address of class IN whose name ends at x, and its answer. */
  function ReadNamed(b: seq<u8>, x: nat): Option<Message>
    requires QUESTION <= x <= |b|
  {
    if x + 4 > |b| || Be16(b, x) != 1 || Be16(b, x + 2) != 1 then None else
      match ReadAnswer(b, x + 4)
      case None => None
      case Some(a) => Some(Message(b[42..44], b[QUESTION..x], a.0, a.1))
  }

  function ReadReply(b: seq<u8>): Option<Message> {
    if !Framed(b) || !OneAnswer(b) then None else
      match NameEnd(b, QUESTION)
      case None => None
      case Some(x) => ReadNamed(b, x)
  }

  lemma AnswerReads(b: seq<u8>, off: nat, r: Record)
    requires off <= |b| && b[off..] == Answer(r)
    ensures ReadAnswer(b, off) == Some((r.ttl, r.ip))
  {
    LoadStore(r.ttl, Big);
    var a := Answer(r);
    assert forall i :: 0 <= i < ANSWER_SIZE ==> b[off + i] == b[off..][i];
    assert a[6..10] == Store32(r.ttl, Big) && a[12..16] == r.ip;
    assert b[off + 6..off + 10] == a[6..10] && b[off + 12..off + 16] == a[12..16];
  }

  // ----- the replies of the responder

  /** The table holds addresses only. */
  ghost predicate OnlyAddresses(table: map<Key, Record>) {
    forall k :: k in table ==> k.recordType == 1 && k.recordClass == 1
  }

  /** A query with an IPv4 header of 20 bytes, one question with no zero in its labels, and no other records. */
  predicate Plain(p: seq<u8>, e: nat)
    requires |p| >= QUESTION
  {
    p[14] == 0x45 && Be16(p, 46) == 1 && Be16(p, 50) == 0 && Be16(p, 52) == 0 && NameEnd(p, QUESTION) == Some(e + 1)
  }

  /** The question is whole, and comes back as it was. */
  lemma QuestionKept(p: seq<u8>, e: nat, table: map<Key, Record>, q: seq<u8>)
    requires Hit(p, e, table) && OnlyAddresses(table) && Answered(p, e, table[KeyAt(p, e)], q)
    ensures e + 5 <= |p| && q[QUESTION..e + 5] == p[QUESTION..e + 5]
    ensures Be16(q, e + 1) == 1 && Be16(q, e + 3) == 1
  {
    assert KeyAt(p, e) in table;
  }

  /** The reply says what was asked and what the table holds; it reads so exactly if the query was plain. */
  lemma ReplyReads(p: seq<u8>, e: nat, table: map<Key, Record>, q: seq<u8>)
    requires Hit(p, e, table) && OnlyAddresses(table) && Answered(p, e, table[KeyAt(p, e)], q)
    ensures Plain(p, e) <==> ReadReply(q).Some?
    ensures var r := table[KeyAt(p, e)]; Plain(p, e) ==> ReadReply(q) == Some(Message(p[42..44], p[QUESTION..e + 1], r.ttl, r.ip))
  {
    QuestionKept(p, e, table, q);
    FramedRead(p, q);
    CountsRead(p, q);
    AnswerReads(q, e + 5, table[KeyAt(p, e)]);
    SameName(p, e, q);
    assert q[QUESTION..e + 1] == p[QUESTION..e + 1] && q[42..44] == p[42..44] by { assert DnsOf(q).id == DnsOf(p).id; }
    FramedReads(q, e, table[KeyAt(p, e)]);
  }

  /** A reply whose question ends at e + 5 reads with a name that ends there, and with no longer one. */
  lemma NamedReads(q: seq<u8>, e: nat, r: Record, x: nat)
    requires QUESTION <= e && |q| == e + 5 + ANSWER_SIZE && ReadAnswer(q, e + 5) == Some((r.ttl, r.ip)) && Be16(q, e + 1) == 1 && Be16(q, e + 3) == 1
    requires e + 1 <= x <= |q|
    ensures ReadNamed(q, x) == if x == e + 1 then Some(Message(q[42..44], q[QUESTION..x], r.ttl, r.ip)) else None
  {
  }

  /** What a reply whose question ends at e + 5 reads as. */
  lemma FramedReads(q: seq<u8>, e: nat, r: Record)
    requires QUESTION <= e && |q| == e + 5 + ANSWER_SIZE && ReadAnswer(q, e + 5) == Some((r.ttl, r.ip)) && Be16(q, e + 1) == 1 && Be16(q, e + 3) == 1
    requires NameEnd(q, QUESTION) == None || NameEnd(q, QUESTION).value > e
    ensures ReadReply(q).Some? <==> Framed(q) && OneAnswer(q) && NameEnd(q, QUESTION) == Some(e + 1)
    ensures ReadReply(q).Some? ==> ReadReply(q) == Some(Message(q[42..44], q[QUESTION..e + 1], r.ttl, r.ip))
  {
    var end := NameEnd(q, QUESTION);
    if end != None { NamedReads(q, e, r, end.value); }
  }

  /** Words of equal runs are equal. */
  lemma SameWord(q: seq<u8>, at: nat, run: seq<u8>)
    requires at + 2 <= |q| && q[at..at + 2] == run
    ensures Be16(q, at) == Load16(run, Big)
  {
    assert run[0] == q[at] && run[1] == q[at + 1];
  }

  lemma FramedRead(p: seq<u8>, q: seq<u8>)
    requires IsQuery(p) && |q| >= QUESTION && Returned(p, q, |q|)
    ensures Framed(q) <==> p[14] == 0x45
  {
    var h, g := IpOf(p), IpOf(q);
    assert EtherOf(q).proto == EtherOf(p).proto && g.first == h.first && g.middle == h.middle;
    SameWord(q, 12, EtherOf(q).proto);
    SameWord(p, 12, EtherOf(q).proto);
    assert q[14] == g.first[0] && p[14] == h.first[0] && q[23] == g.middle[5] && p[23] == h.middle[5];
    LoadStore16(|q| - 14, Big);
    SameWord(q, 16, g.totLen);
    LoadStore16(|q| - 34, Big);
    SameWord(q, 38, UdpOf(q).len);
    ChecksumEitherOrder(q[14..34], Little);
  }

  lemma CountsRead(p: seq<u8>, q: seq<u8>)
    requires |p| >= QUESTION && |q| >= QUESTION && Responding(DnsOf(p), DnsOf(q))
    ensures OneAnswer(q) <==> Be16(p, 46) == 1 && Be16(p, 50) == 0 && Be16(p, 52) == 0
  {
    var h, g := DnsOf(p), DnsOf(q);
    assert q[44] == g.flags0[0];
    SameWord(q, 46, h.questions);
    SameWord(p, 46, h.questions);
    SameWord(q, 48, [0, 1]);
    assert q[50..52] == g.others[..2] && p[50..52] == h.others[..2] && q[52..54] == g.others[2..] && p[52..54] == h.others[2..];
    SameWord(q, 50, h.others[..2]);
    SameWord(p, 50, h.others[..2]);
    SameWord(q, 52, h.others[2..]);
    SameWord(p, 52, h.others[2..]);
  }

  /** A name that ends with the question ends there in both frames, or in neither. */
  lemma SameName(p: seq<u8>, e: nat, q: seq<u8>)
    requires EndsAt(p, e) && e < |q| && forall i :: QUESTION <= i <= e ==> q[i] == p[i]
    ensures NameEnd(p, QUESTION) == Some(e + 1) <==> NameEnd(q, QUESTION) == Some(e + 1)
    ensures NameEnd(q, QUESTION) == None || NameEnd(q, QUESTION).value > e
  {
    if NameEnd(p, QUESTION) == Some(e + 1) { NameCopied(p, q, QUESTION, e + 1); }
    if NameEnd(q, QUESTION) == Some(e + 1) { NameCopied(q, p, QUESTION, e + 1); }
  }

  /** A reply is no query: the responder never answers what it sent. */
  lemma ReplyPasses(p: seq<u8>, e: nat, r: Record, q: seq<u8>)
    requires Answered(p, e, r, q)
    ensures !IsQuery(q)
  {
    assert DnsOf(q).flags0[0] >= 128;
  }

  // ----- queries at which the reply goes wrong

  /** The headers of a query with one question and some additional records. */
  function QueryHead(additional: u8): (p: seq<u8>)
    ensures |p| == QUESTION && IsQuery(p) && p[14] == 0x45
    ensures Be16(p, 46) == 1 && Be16(p, 50) == 0 && Be16(p, 52) == additional
  {
    Zeros(12) + [8, 0] + [0x45] + Zeros(8) + [17] + Zeros(13) + [53] + Zeros(9) + [1] + Zeros(5) + [additional]
  }

  /** A label of two bytes, the second of them zero: the name ends two bytes after the place where the responder ends it. */
  lemma ZeroInLabel()
    ensures var p := QueryHead(0) + [2, 97, 0, 0, 0, 1, 0, 1]; EndsAt(p, QUESTION + 2) && NameEnd(p, QUESTION) == Some(QUESTION + 4)
  {
    var p := QueryHead(0) + [2, 97, 0, 0, 0, 1, 0, 1];
    assert NameEnd(p, QUESTION + 3) == Some(QUESTION + 4);
  }

  /** A query for the root name with one additional record: whatever reply is sent for it does not read. */
  lemma AdditionalRecord(r: Record, q: seq<u8>)
    requires var p := QueryHead(1) + [0, 0, 1, 0, 1]; Answered(p, QUESTION, r, q)
    ensures var p := QueryHead(1) + [0, 0, 1, 0, 1]; Hit(p, QUESTION, map[KeyAt(p, QUESTION) := r]) && ReadReply(q) == None
  {
    var p := QueryHead(1) + [0, 0, 1, 0, 1];
    ReplyReads(p, QUESTION, map[KeyAt(p, QUESTION) := r], q);
  }

  // ----- questions cut short

  predicate Readable(k: Key, n: nat) {
    && n < MAX_DNS_NAME_LENGTH == |k.name| && (forall i :: 0 <= i < n ==> k.name[i] != 0)
    && forall i :: n <= i < MAX_DNS_NAME_LENGTH ==> k.name[i] == 0
  }

  /** A query whose question stops after its name. */
  function CutShort(k: Key, n: nat): (p: seq<u8>)
    requires Readable(k, n)
    ensures IsQuery(p) && EndsAt(p, QUESTION + n) && |p| == QUESTION + n + 1
    ensures KeyAt(p, QUESTION + n).name == k.name
  {
    QueryHead(0) + k.name[..n] + [0]
  }

  /** Only questions that are whole are answered exactly if the table has no key of type 0 and class 0. */
  lemma WholeQuestions(table: map<Key, Record>)
    ensures (forall p, e: nat :: Hit(p, e, table) ==> e + 5 <= |p|) <==> (forall k, n: nat :: k in table && Readable(k, n) ==> k.recordType != 0 || k.recordClass != 0)
  {
    if k, n: nat :| k in table && Readable(k, n) && k.recordType == 0 && k.recordClass == 0 {
      var p := CutShort(k, n);
      assert KeyAt(p, QUESTION + n) == k;
      assert Hit(p, QUESTION + n, table);
    }
    forall p, e: nat | Hit(p, e, table) && e + 5 > |p| ensures exists k, n: nat :: k in table && Readable(k, n) && k.recordType == k.recordClass == 0 {
      var k := KeyAt(p, e);
      KeyReadable(p, e);
    }
  }

  lemma KeyReadable(p: seq<u8>, e: nat)
    requires EndsAt(p, e)
    ensures Readable(KeyAt(p, e), e - QUESTION)
  {
  }
}
