/** Counting connections: probes on entry and exit of a connect call, which run interleaved over shared maps. */
module TcpConnect {
  import opened Ints
  import opened Errno
  import opened Options

  type Tid = u32
  type Sock = u64

  datatype FlowKey = V4(saddr4: u32, daddr4: u32, port: u16) | V6(saddr6: seq<u8>, daddr6: seq<u8>, port: u16)

  /** The settings: pid 0 and uid 2^32 - 1 stand for any, and no port for every port. */
  datatype Config = Config(filterPid: u32, filterUid: u32, ports: seq<int>, doCount: bool)

  predicate Admits(c: Config, pid: u32, uid: u32) {
    (c.filterPid == 0 || pid == c.filterPid) && (c.filterUid == 0xffff_ffff || uid == c.filterUid)
  }

  predicate LeavesOut(c: Config, port: u16) { c.ports != [] && port as int !in c.ports }

  /** Where the exit probe of a thread stands, and whether at its end the socket has been counted or traced. */
  datatype Pc =
    | Idle
    | Lookup(sk: Sock, key: FlowKey)
    | Init(sk: Sock, key: FlowKey)
    | Again(sk: Sock, key: FlowKey)
    | Add(sk: Sock, key: FlowKey)
    | Done(used: bool)

  /** What happens to a thread, and what the kernel says: whether the socket is stored, whether there is room for a key. */
  datatype Input =
    | Enter(pid: u32, uid: u32, sock: Sock, stored: bool)
    | Exit(ret: int, flow: FlowKey)
    | Go(room: bool)

  /** What a thread has done. */
  datatype Event =
    | Recorded(tid: Tid, pid: u32, uid: u32, sk: Sock)
    | Counted(tid: Tid, sk: Sock, key: FlowKey)
    | Traced(tid: Tid, sk: Sock, key: FlowKey)
    | Dropped(tid: Tid)

  datatype State = State(sockets: map<Tid, Sock>, counts: map<FlowKey, u64>, pcs: map<Tid, Pc>, log: seq<Event>)

  function PcOf(s: State, t: Tid): Pc { if t in s.pcs then s.pcs[t] else Idle }

  function Inc64(v: u64): u64 { if v == 0xffff_ffff_ffff_ffff then 0 else v + 1 }

  // ----- the steps of a thread, each atomic

  function Entered(c: Config, s: State, t: Tid, i: Input): State
    requires i.Enter?
  {
    if Admits(c, i.pid, i.uid) && i.stored then s.(sockets := s.sockets[t := i.sock], log := s.log + [Recorded(t, i.pid, i.uid, i.sock)]) else s
  }

  function Exited(c: Config, s: State, t: Tid, i: Input): State
    requires i.Exit?
  {
    if t !in s.sockets then s
    else if i.ret != 0 || LeavesOut(c, i.flow.port) then s.(pcs := s.pcs[t := Done(false)])
    else if c.doCount then s.(pcs := s.pcs[t := Lookup(s.sockets[t], i.flow)])
    else s.(pcs := s.pcs[t := Done(true)], log := s.log + [Traced(t, s.sockets[t], i.flow)])
  }

  function Went(s: State, t: Tid, room: bool): State {
    match PcOf(s, t)
    case Idle => s
    case Lookup(sk, key) => s.(pcs := s.pcs[t := if key in s.counts then Add(sk, key) else Init(sk, key)])
    case Init(sk, key) =>
      if key in s.counts then s.(pcs := s.pcs[t := Again(sk, key)])
      else if room then s.(counts := s.counts[key := 0], pcs := s.pcs[t := Again(sk, key)])
      else s.(pcs := s.pcs[t := Done(false)])
    case Again(sk, key) => s.(pcs := s.pcs[t := if key in s.counts then Add(sk, key) else Done(false)])
    case Add(sk, key) =>
      if key in s.counts
      then s.(counts := s.counts[key := Inc64(s.counts[key])], pcs := s.pcs[t := Done(true)], log := s.log + [Counted(t, sk, key)])
      else s
    case Done(used) => s.(sockets := s.sockets - {t}, pcs := s.pcs - {t}, log := if used then s.log else s.log + [Dropped(t)])
  }

  /** A thread enters or leaves the call only when none of its probes is running. */
  function Next(c: Config, s: State, t: Tid, i: Input): State {
    match i
    case Enter(_, _, _, _) => if PcOf(s, t) == Idle then Entered(c, s, t, i) else s
    case Exit(_, _) => if PcOf(s, t) == Idle then Exited(c, s, t, i) else s
    case Go(room) => Went(s, t, room)
  }

  /** Any interleaving of the steps of any threads, from empty maps. */
  function Run(c: Config, steps: seq<(Tid, Input)>): State {
    if steps == [] then State(map[], map[], map[], []) else
      var n := |steps| - 1;
      Next(c, Run(c, steps[..n]), steps[n].0, steps[n].1)
  }

  // ----- what the log says

  /** The completed additions to a counter. */
  function Adds(log: seq<Event>, k: FlowKey): nat {
    if log == [] then 0 else
      var e := log[|log| - 1];
      Adds(log[..|log| - 1], k) + if e.Counted? && e.key == k then 1 else 0
  }

  /** The last thing a thread has done. */
  function Last(log: seq<Event>, t: Tid): Option<Event> {
    if log == [] then None else
      var e := log[|log| - 1];
      if e.tid == t then Some(e) else Last(log[..|log| - 1], t)
  }

  lemma LogSnoc(log: seq<Event>, e: Event)
    ensures forall k :: Adds(log + [e], k) == Adds(log, k) + if e.Counted? && e.key == k then 1 else 0
    ensures forall t :: Last(log + [e], t) == if e.tid == t then Some(e) else Last(log, t)
  {
    assert (log + [e])[..|log|] == log;
  }

  /** The thread has recorded the socket, past the filters, and has not used or dropped it since. */
  ghost predicate Pending(c: Config, log: seq<Event>, t: Tid, sk: Sock) {
    match Last(log, t)
    case Some(Recorded(_, pid, uid, s)) => s == sk && Admits(c, pid, uid)
    case _ => false
  }

  /** An event other than a record uses up what its thread recorded last, and for the same socket. */
  ghost predicate Backed(c: Config, before: seq<Event>, e: Event) {
    match e
    case Recorded(_, pid, uid, _) => Admits(c, pid, uid)
    case Counted(t, sk, _) => Pending(c, before, t, sk)
    case Traced(t, sk, _) => Pending(c, before, t, sk)
    case Dropped(t) => exists sk :: Pending(c, before, t, sk)
  }

  ghost predicate AllBacked(c: Config, log: seq<Event>) {
    if log == [] then true else Backed(c, log[..|log| - 1], log[|log| - 1]) && AllBacked(c, log[..|log| - 1])
  }

  // ----- the invariant

  function Wrapped64(n: nat): u64 { n % 0x1_0000_0000_0000_0000 }

  ghost predicate CountsRight(s: State) {
    forall k :: if k in s.counts then s.counts[k] == Wrapped64(Adds(s.log, k)) else Adds(s.log, k) == 0
  }

  ghost predicate ThreadRight(c: Config, s: State, t: Tid) {
    && (t in s.sockets && PcOf(s, t) != Done(true) ==> Pending(c, s.log, t, s.sockets[t]))
    && match PcOf(s, t)
       case Idle => true
       case Lookup(sk, key) => t in s.sockets && s.sockets[t] == sk
       case Init(sk, key) => t in s.sockets && s.sockets[t] == sk
       case Again(sk, key) => t in s.sockets && s.sockets[t] == sk && key in s.counts
       case Add(sk, key) => t in s.sockets && s.sockets[t] == sk && key in s.counts
       case Done(used) => t in s.sockets
  }

  ghost predicate Inv(c: Config, s: State) {
    CountsRight(s) && AllBacked(c, s.log) && forall t {:trigger ThreadRight(c, s, t)} :: ThreadRight(c, s, t)
  }

  /** A step of one thread leaves the others as they are. */
  ghost predicate OthersKept(s: State, r: State, t: Tid) {
    && (forall u :: u != t ==> (u in r.sockets <==> u in s.sockets) && (u in s.sockets ==> r.sockets[u] == s.sockets[u]))
    && (forall u :: u != t ==> PcOf(r, u) == PcOf(s, u) && Last(r.log, u) == Last(s.log, u))
    && s.counts.Keys <= r.counts.Keys
  }

  lemma OthersRight(c: Config, s: State, r: State, t: Tid)
    requires OthersKept(s, r, t) && forall u {:trigger ThreadRight(c, s, u)} :: ThreadRight(c, s, u)
    ensures forall u {:trigger ThreadRight(c, r, u)} :: u != t ==> ThreadRight(c, r, u)
  {
    forall u | u != t ensures ThreadRight(c, r, u) {
      assert ThreadRight(c, s, u);
      assert PcOf(r, u) == PcOf(s, u);
    }
  }

  /** A step writes at most one event. */
  lemma Logged(c: Config, s: State, t: Tid, i: Input)
    ensures var r := Next(c, s, t, i); r.log == s.log || exists e :: r.log == s.log + [e] && e.tid == t
  {
  }

  lemma NextKeepsLast(c: Config, s: State, t: Tid, i: Input, u: Tid)
    requires u != t
    ensures Last(Next(c, s, t, i).log, u) == Last(s.log, u)
  {
    var r := Next(c, s, t, i);
    Logged(c, s, t, i);
    if r.log != s.log {
      var e :| r.log == s.log + [e] && e.tid == t;
      LogSnoc(s.log, e);
    }
  }

  lemma NextKeepsOthers(c: Config, s: State, t: Tid, i: Input)
    ensures OthersKept(s, Next(c, s, t, i), t)
  {
    var r := Next(c, s, t, i);
    forall u | u != t ensures PcOf(r, u) == PcOf(s, u) && Last(r.log, u) == Last(s.log, u) {
      NextKeepsLast(c, s, t, i, u);
    }
  }

  lemma NextKeepsThread(c: Config, s: State, t: Tid, i: Input)
    requires ThreadRight(c, s, t)
    ensures ThreadRight(c, Next(c, s, t, i), t)
  {
    var r := Next(c, s, t, i);
    Logged(c, s, t, i);
    if r.log != s.log {
      var e :| r.log == s.log + [e] && e.tid == t;
      LogSnoc(s.log, e);
    }
  }

  lemma NextKeepsBacked(c: Config, s: State, t: Tid, i: Input)
    requires ThreadRight(c, s, t) && AllBacked(c, s.log)
    ensures AllBacked(c, Next(c, s, t, i).log)
  {
    var r := Next(c, s, t, i);
    Logged(c, s, t, i);
    if r.log != s.log {
      var e :| r.log == s.log + [e] && e.tid == t;
      assert r.log[..|s.log|] == s.log;
      assert Backed(c, s.log, e);
    }
  }

  lemma NextKeepsCounts(c: Config, s: State, t: Tid, i: Input)
    requires ThreadRight(c, s, t) && CountsRight(s)
    ensures CountsRight(Next(c, s, t, i))
  {
    var r := Next(c, s, t, i);
    Logged(c, s, t, i);
    if r.log != s.log {
      var e :| r.log == s.log + [e] && e.tid == t;
      LogSnoc(s.log, e);
      if e.Counted? { OneMore(Adds(s.log, e.key)); }
    }
  }

  lemma OneMore(n: nat)
    ensures Wrapped64(n + 1) == Inc64(Wrapped64(n))
  {
  }

  lemma {:induction false} RunInv(c: Config, steps: seq<(Tid, Input)>)
    ensures Inv(c, Run(c, steps))
  {
    if steps != [] {
      var n := |steps| - 1;
      RunInv(c, steps[..n]);
      var s, t, i := Run(c, steps[..n]), steps[n].0, steps[n].1;
      NextKeepsOthers(c, s, t, i);
      assert ThreadRight(c, s, t);
      NextKeepsThread(c, s, t, i);
      OthersRight(c, s, Next(c, s, t, i), t);
      NextKeepsBacked(c, s, t, i);
      NextKeepsCounts(c, s, t, i);
    }
  }

  // ----- what holds of every run

  /** Under every interleaving a counter is the number of completed additions, and there are none without a counter. */
  lemma CountersAreAdds(c: Config, steps: seq<(Tid, Input)>, k: FlowKey)
    ensures var s := Run(c, steps); if k in s.counts then s.counts[k] == Wrapped64(Adds(s.log, k)) else Adds(s.log, k) == 0
  {
    RunInv(c, steps);
  }

  /** The step has logged an addition to the counter. */
  predicate LogsAdd(s: State, r: State, k: FlowKey) {
    |r.log| > |s.log| && r.log[|s.log|].Counted? && r.log[|s.log|].key == k
  }

  lemma CounterMoves(c: Config, s: State, t: Tid, i: Input, k: FlowKey)
    requires k in s.counts
    ensures var r := Next(c, s, t, i); k in r.counts && r.counts[k] == if LogsAdd(s, r, k) then Inc64(s.counts[k]) else s.counts[k]
  {
  }

  /** A counter stays, and a step adds one to it exactly if it logs that; so no insertion resets it. */
  lemma NeverReset(c: Config, s: State, t: Tid, i: Input, k: FlowKey)
    requires k in s.counts
    ensures var r := Next(c, s, t, i);
      && k in r.counts && Adds(r.log, k) >= Adds(s.log, k)
      && r.counts[k] == if Adds(r.log, k) == Adds(s.log, k) then s.counts[k] else Inc64(s.counts[k])
  {
    CounterMoves(c, s, t, i, k);
    AddsLogged(c, s, t, i, k);
  }

  lemma AddsLogged(c: Config, s: State, t: Tid, i: Input, k: FlowKey)
    ensures var r := Next(c, s, t, i); Adds(r.log, k) == Adds(s.log, k) + if LogsAdd(s, r, k) then 1 else 0
  {
    var r := Next(c, s, t, i);
    Logged(c, s, t, i);
    if r.log != s.log {
      var e :| r.log == s.log + [e] && e.tid == t;
      LogSnoc(s.log, e);
    }
  }

  /** A connection on its way to being counted is lost only where its counter is missing and there is no room for it. */
  lemma LostForRoomOnly(c: Config, steps: seq<(Tid, Input)>, t: Tid, room: bool)
    ensures var s := Run(c, steps); var pc := PcOf(s, t);
      pc.Lookup? || pc.Init? || pc.Again? || pc.Add? ==>
        (PcOf(Next(c, s, t, Go(room)), t) == Done(false) <==> pc.Init? && pc.key !in s.counts && !room)
  {
    RunInv(c, steps);
    var s := Run(c, steps);
    assert ThreadRight(c, s, t);
  }

  lemma {:induction false} LastAt(log: seq<Event>, t: Tid) returns (j: nat)
    requires Last(log, t).Some?
    ensures j < |log| && log[j] == Last(log, t).value && log[j].tid == t && forall m :: j < m < |log| ==> log[m].tid != t
  {
    var n := |log| - 1;
    if log[n].tid == t {
      j := n;
    } else {
      j := LastAt(log[..n], t);
    }
  }

  lemma {:induction false} BackedAt(c: Config, log: seq<Event>, i: nat)
    requires AllBacked(c, log) && i < |log|
    ensures Backed(c, log[..i], log[i])
  {
    var n := |log| - 1;
    if i < n {
      BackedAt(c, log[..n], i);
      assert log[..n][..i] == log[..i];
    }
  }

  /**
   * A counted connection uses the socket that the same thread recorded past the filters, with no other event of the
   * thread between; so no record is used twice.
   */
  lemma CountedWasRecorded(c: Config, steps: seq<(Tid, Input)>, i: nat) returns (j: nat)
    requires var log := Run(c, steps).log; i < |log| && log[i].Counted?
    ensures var log := Run(c, steps).log;
      && j < i && log[j].Recorded? && log[j].tid == log[i].tid && log[j].sk == log[i].sk && Admits(c, log[j].pid, log[j].uid)
      && forall m :: j < m < i ==> log[m].tid != log[i].tid
  {
    RunInv(c, steps);
    var log := Run(c, steps).log;
    BackedAt(c, log, i);
    j := LastAt(log[..i], log[i].tid);
  }

  function Records(log: seq<Event>, t: Tid): nat {
    if log == [] then 0 else
      var e := log[|log| - 1];
      Records(log[..|log| - 1], t) + if e.tid == t && e.Recorded? then 1 else 0
  }

  function Uses(log: seq<Event>, t: Tid): nat {
    if log == [] then 0 else
      var e := log[|log| - 1];
      Uses(log[..|log| - 1], t) + if e.tid == t && !e.Recorded? then 1 else 0
  }

  /** A thread uses no more than it has recorded, and what it holds is not used yet. */
  lemma {:induction false} UsesWithinRecords(c: Config, log: seq<Event>, t: Tid)
    requires AllBacked(c, log)
    ensures Uses(log, t) + (match Last(log, t) case Some(Recorded(_, _, _, _)) => 1 case _ => 0) <= Records(log, t)
  {
    if log != [] { UsesWithinRecords(c, log[..|log| - 1], t); }
  }

  lemma RunUses(c: Config, steps: seq<(Tid, Input)>, t: Tid)
    ensures var s := Run(c, steps);
      Uses(s.log, t) + (if t in s.sockets && PcOf(s, t) != Done(true) then 1 else 0) <= Records(s.log, t)
  {
    RunInv(c, steps);
    var s := Run(c, steps);
    assert ThreadRight(c, s, t);
    UsesWithinRecords(c, s.log, t);
  }

  // ----- the probes

  class Tracer {
    const config: Config
    var sockets: map<Tid, Sock>
    var counts: map<FlowKey, u64>
    var pcs: map<Tid, Pc>
    ghost var log: seq<Event>

    ghost function View(): State
      reads this
    {
      State(sockets, counts, pcs, log)
    }

    constructor (c: Config)
      ensures config == c && View() == Run(c, [])
    {
      config := c;
      sockets, counts, pcs, log := map[], map[], map[], [];
    }

    /** filter_port: is a connection to the port left out? */
    method FilterPort(port: u16) returns (out: bool)
      ensures out <==> LeavesOut(config, port)
    {
      if |config.ports| == 0 { return false; }
      var i := 0;
      while i < |config.ports|
        invariant 0 <= i <= |config.ports| && port as int !in config.ports[..i]
      {
        if port == config.ports[i] { return false; }
        i := i + 1;
      }
      assert config.ports[..i] == config.ports;
      return true;
    }

    /** enter_tcp_connect. */
    method EnterTcpConnect(t: Tid, i: Input)
      requires i.Enter?
      modifies this
      ensures View() == Entered(config, old(View()), t, i)
    {
      if config.filterPid != 0 && i.pid != config.filterPid { return; }
      if config.filterUid != 0xffff_ffff && i.uid != config.filterUid { return; }
      if i.stored {
        sockets, log := sockets[t := i.sock], log + [Recorded(t, i.pid, i.uid, i.sock)];
      }
    }

    /** exit_tcp_connect, up to the first access to the counters. */
    method ExitTcpConnect(t: Tid, i: Input)
      requires i.Exit?
      modifies this
      ensures View() == Exited(config, old(View()), t, i)
    {
      if t !in sockets { return; }
      if i.ret != 0 {
        pcs := pcs[t := Done(false)];
        return;
      }
      var sk := sockets[t];
      var out := FilterPort(i.flow.port);
      if out {
        pcs := pcs[t := Done(false)];
      } else if config.doCount {
        pcs := pcs[t := Lookup(sk, i.flow)];
      } else {
        pcs, log := pcs[t := Done(true)], log + [Traced(t, sk, i.flow)];
      }
    }

    /** bpf_map_update_elem with BPF_NOEXIST. */
    method UpdateNoExist(key: FlowKey, init: u64, room: bool) returns (err: int)
      modifies this`counts
      ensures err == if key in old(counts) then -EEXIST else if room then 0 else -E2BIG
      ensures counts == if err == 0 then old(counts)[key := init] else old(counts)
    {
      if key in counts { return -EEXIST; }
      if !room { return -E2BIG; }
      counts := counts[key := init];
      return 0;
    }

    /** The rest of exit_tcp_connect, with bpf_map_lookup_or_try_init in it, by one step. */
    method Resume(t: Tid, room: bool)
      modifies this
      ensures View() == Went(old(View()), t, room)
    {
      if t !in pcs { return; }
      match pcs[t]
      case Idle =>
      case Lookup(sk, key) => pcs := pcs[t := if key in counts then Add(sk, key) else Init(sk, key)];
      case Init(sk, key) =>
        var err := UpdateNoExist(key, 0, room);
        pcs := pcs[t := if err != 0 && err != -EEXIST then Done(false) else Again(sk, key)];
      case Again(sk, key) => pcs := pcs[t := if key in counts then Add(sk, key) else Done(false)];
      case Add(sk, key) =>
        if key in counts {
          counts := counts[key := Inc64(counts[key])];
          pcs, log := pcs[t := Done(true)], log + [Counted(t, sk, key)];
        }
      case Done(used) =>
        sockets, pcs := sockets - {t}, pcs - {t};
        if !used { log := log + [Dropped(t)]; }
    }

    /** One step of a thread: whatever run led here goes on. */
    method Step(t: Tid, i: Input, ghost steps: seq<(Tid, Input)>)
      requires View() == Run(config, steps)
      modifies this
      ensures View() == Run(config, steps + [(t, i)])
    {
      assert (steps + [(t, i)])[..|steps|] == steps;
      var idle := t !in pcs || pcs[t] == Idle;
      match i
      case Enter(_, _, _, _) => if idle { EnterTcpConnect(t, i); }
      case Exit(_, _) => if idle { ExitTcpConnect(t, i); }
      case Go(room) => Resume(t, room);
    }
  }
}
