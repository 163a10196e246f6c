/**
 * The device packet transport as a step machine: any number of threads call Notify and
 * NotifyKernelBinary on any number of device connections of one host process. A schedule is a
 * sequence of (thread, event) pairs; an event that is not enabled changes nothing, so quantifying
 * over schedules is quantifying over all interleavings.
 */
module Transport {
  import opened Bytes
  import opened Seqs
  import opened Packets

  type Tid = nat
  type ConnId = nat

  datatype Call =
    | Notify(conn: ConnId, msg: seq<byte>)
    | Binary(conn: ConnId, elf: seq<byte>)

  /** One byte on a socket, with the contents of the descriptor attached to it, if any. */
  datatype Cell = Cell(b: byte, fd: Option<seq<byte>>)

  /** Open while its bytes are going out; Whole or Failed once the lock is given back. */
  datatype Status = Open | Whole | Failed

  /** One reserved order id together with the packet it numbers and how much of it was written. */
  datatype Entry = Entry(id: nat, call: Call, viaFd: bool, sent: nat, status: Status)

  datatype Conn = Conn(lock: Option<Tid>, wire: seq<Cell>, hist: seq<Entry>)

  datatype Pc =
    | Idle
    | Exited                           // _exit in a forked child
    | Waiting(call: Call)              // owner and size checked, wants the send mutex
    | Locked(call: Call)               // holds the mutex, counter not read yet
    | Cas(call: Call, reg: nat)        // in the compare-exchange loop
    | Carrier(call: Call, id: nat)     // binary: memfd not tried yet
    | Sending(call: Call, id: nat)     // bytes going out

  /** Where an issued id went: its connection and its place in that connection's history. */
  datatype Issue = Issue(id: nat, conn: ConnId, slot: nat)

  datatype State = State(
    isOwner: bool,                     // ownerPid == getpid()
    next: nat,                         // nextOrderId
    conns: map<ConnId, Conn>,
    pcs: map<Tid, Pc>,
    issued: seq<Issue>)

  datatype Event =
    | Begin(call: Call)
    | Acquire
    | Load(v: nat)                     // relaxed load: any value the counter has held
    | CasOk
    | CasFail(v: nat)                  // real or spurious failure; v is the reloaded value
    | Exhausted                        // loop guard false: return 0, then -1
    | FdSend                           // memfd filled, sendmsg put the header on the wire
    | FdRefused                        // no memfd, short memfd write, or sendmsg <= 0
    | Write(n: nat)                    // write() accepted n bytes
    | WriteError
    | Finish                           // packet complete: the mutex is released

  function Plain(bs: seq<byte>): (r: seq<Cell>)
  {
    seq(|bs|, i requires 0 <= i < |bs| => Cell(bs[i], None))
  }

  /** sendmsg attaches the descriptor to the first byte of the message. */
  function WithFd(bs: seq<byte>, elf: seq<byte>): (r: seq<Cell>)
    requires bs != []
  {
    [Cell(bs[0], Some(elf))] + Plain(bs[1..])
  }

  predicate Sendable(call: Call) {
    call.Notify? ==> |call.msg| >= HEAD_SIZE
  }

  /** The complete packet of an entry as it looks on the wire. */
  function Image(e: Entry): (r: seq<Cell>)
  {
    match e.call
    case Notify(_, msg) => if Sendable(e.call) then Plain(Patched(msg, e.id)) else []
    case Binary(_, elf) =>
      var head := BinaryHead(e.id, |elf|);
      if e.viaFd then WithFd(head, elf) else Plain(head + elf)
  }

  function Written(e: Entry): (r: seq<Cell>)
  {
    if e.sent <= |Image(e)| then Image(e)[..e.sent] else []
  }

  /** All bytes of a history, oldest entry first. */
  function WireOf(hist: seq<Entry>): (r: seq<Cell>)
  {
    if hist == [] then [] else WireOf(hist[..|hist| - 1]) + Written(hist[|hist| - 1])
  }

  function ConnOf(s: State, c: ConnId): Conn {
    if c in s.conns then s.conns[c] else Conn(None, [], [])
  }

  function PcOf(s: State, t: Tid): Pc {
    if t in s.pcs then s.pcs[t] else Idle
  }

  function At(s: State, t: Tid, pc: Pc): State {
    s.(pcs := s.pcs[t := pc])
  }

  function Set(s: State, c: ConnId, k: Conn): State {
    s.(conns := s.conns[c := k])
  }

  function Init(isOwner: bool): State {
    State(isOwner, 1, map[], map[], [])
  }

  function Last(k: Conn): Entry
    requires k.hist != []
  {
    k.hist[|k.hist| - 1]
  }

  function WithLast(k: Conn, e: Entry): Conn
    requires k.hist != []
  {
    k.(hist := k.hist[|k.hist| - 1 := e])
  }

  /** The loop guard of ReserveOrderId. */
  predicate Available(reg: nat) {
    reg != 0 && reg != MAX_ORDER_ID
  }

  function StepSending(s: State, t: Tid, call: Call, id: nat, ev: Event): State
  {
    var k := ConnOf(s, call.conn);
    if k.hist == [] then s else
    var e := Last(k);
    var left := |Image(e)| - e.sent;
    match ev
    case Write(n) =>
      if !(0 < n <= left) then s else
      Set(s, call.conn,
          WithLast(k, e.(sent := e.sent + n)).(wire := k.wire + Image(e)[e.sent..e.sent + n]))
    case WriteError =>
      if left <= 0 then s else
      At(Set(s, call.conn, WithLast(k, e.(status := Failed)).(lock := None)), t, Idle)
    case Finish =>
      if left != 0 then s else
      At(Set(s, call.conn, WithLast(k, e.(status := Whole)).(lock := None)), t, Idle)
    case _ => s
  }

  function StepCarrier(s: State, t: Tid, call: Call, id: nat, ev: Event): State
  {
    var k := ConnOf(s, call.conn);
    if k.hist == [] || !call.Binary? then s else
    var e := Last(k).(viaFd := true);
    match ev
    case FdSend =>
      At(Set(s, call.conn,
             WithLast(k, e.(sent := |Image(e)|)).(wire := k.wire + Image(e))), t, Sending(call, id))
    case FdRefused => At(s, t, Sending(call, id))
    case _ => s
  }

  function StepCas(s: State, t: Tid, call: Call, reg: nat, ev: Event): State
  {
    var k := ConnOf(s, call.conn);
    match ev
    case CasOk =>
      if !(Available(reg) && reg == s.next) then s else
      var e := Entry(reg, call, false, 0, Open);
      var s' := Set(s, call.conn, k.(hist := k.hist + [e]));
      At(s'.(next := reg + 1, issued := s.issued + [Issue(reg, call.conn, |k.hist|)]), t,
         if call.Binary? then Carrier(call, reg) else Sending(call, reg))
    case CasFail(v) =>
      if Available(reg) && 1 <= v <= s.next then At(s, t, Cas(call, v)) else s
    case Exhausted =>
      if Available(reg) then s
      else At(Set(s, call.conn, k.(lock := None)), t, Idle)
    case _ => s
  }

  /** One step of thread t. */
  function Step(s: State, t: Tid, ev: Event): State
  {
    match PcOf(s, t)
    case Exited => s
    case Idle =>
      if !ev.Begin? then s
      else if !s.isOwner then At(s, t, Exited)
      else if Sendable(ev.call) then At(s, t, Waiting(ev.call))
      else s
    case Waiting(call) =>
      var k := ConnOf(s, call.conn);
      if ev.Acquire? && k.lock.None?
      then At(Set(s, call.conn, k.(lock := Some(t))), t, Locked(call))
      else s
    case Locked(call) =>
      if ev.Load? && 1 <= ev.v <= s.next then At(s, t, Cas(call, ev.v)) else s
    case Cas(call, reg) => StepCas(s, t, call, reg, ev)
    case Carrier(call, id) => StepCarrier(s, t, call, id, ev)
    case Sending(call, id) => StepSending(s, t, call, id, ev)
  }

  function Run(s: State, schedule: seq<(Tid, Event)>): State
    decreases |schedule|
  {
    if schedule == [] then s
    else Run(Step(s, schedule[0].0, schedule[0].1), schedule[1..])
  }

  // ---------------------------------------------------------------- the invariant

  ghost predicate Holding(pc: Pc) {
    pc.Locked? || pc.Cas? || pc.Carrier? || pc.Sending?
  }

  ghost predicate EntryOk(e: Entry, c: ConnId, next: nat) {
    && e.call.conn == c && Sendable(e.call) && 1 <= e.id < next
    && e.sent <= |Image(e)|
    && (e.status == Whole ==> e.sent == |Image(e)|)
    && (e.status == Failed ==> e.sent < |Image(e)|)
  }

  ghost predicate NoneOpen(hist: seq<Entry>) {
    forall i :: 0 <= i < |hist| ==> !hist[i].status.Open?
  }

  ghost predicate ConnInv(k: Conn, c: ConnId, next: nat) {
    && (forall i :: 0 <= i < |k.hist| ==> EntryOk(k.hist[i], c, next))
    && (forall i, j :: 0 <= i < j < |k.hist| ==> k.hist[i].id < k.hist[j].id)
    && (forall i :: 0 <= i < |k.hist| && k.hist[i].status.Open? ==> i + 1 == |k.hist| && k.lock.Some?)
    && k.wire == WireOf(k.hist)
  }

  /** What a thread's position says about the connection whose mutex it holds. */
  ghost predicate PcInv(s: State, t: Tid) {
    var pc := PcOf(s, t);
    && (pc.Waiting? || Holding(pc) ==> s.isOwner && Sendable(pc.call))
    && (Holding(pc) ==> ConnOf(s, pc.call.conn).lock == Some(t))
    && (pc.Cas? ==> 1 <= pc.reg <= s.next)
    && (pc.Locked? || pc.Cas? ==> NoneOpen(ConnOf(s, pc.call.conn).hist))
    && (pc.Carrier? || pc.Sending? ==>
          var k := ConnOf(s, pc.call.conn);
          && k.hist != []
          && Last(k).status.Open? && Last(k).call == pc.call && Last(k).id == pc.id
          && (pc.Carrier? ==> pc.call.Binary? && !Last(k).viaFd && Last(k).sent == 0))
  }

  ghost predicate LockInv(s: State, c: ConnId) {
    var l := ConnOf(s, c).lock;
    l.Some? ==> Holding(PcOf(s, l.value)) && PcOf(s, l.value).call.conn == c
  }

  ghost predicate ConnOk(s: State, c: ConnId) {
    ConnInv(ConnOf(s, c), c, s.next) && LockInv(s, c)
  }

  /** Issued ids are 1, 2, ... in order, and each has exactly one history entry in one connection. */
  ghost predicate IssueInv(s: State) {
    && |s.issued| == s.next - 1
    && (forall n :: 0 <= n < |s.issued| ==> IssueOk(s, n))
    && (forall c, i :: 0 <= i < |ConnOf(s, c).hist| ==> EntryIssued(s, c, i))
  }

  ghost predicate IssueOk(s: State, n: nat)
    requires n < |s.issued|
  {
    var x := s.issued[n];
    && x.id == n + 1
    && x.slot < |ConnOf(s, x.conn).hist|
    && ConnOf(s, x.conn).hist[x.slot].id == x.id
  }

  ghost predicate EntryIssued(s: State, c: ConnId, i: nat)
    requires i < |ConnOf(s, c).hist|
  {
    var id := ConnOf(s, c).hist[i].id;
    1 <= id <= |s.issued| && s.issued[id - 1] == Issue(id, c, i)
  }

  ghost predicate Inv(s: State) {
    && 1 <= s.next <= MAX_ORDER_ID
    && (forall c :: ConnOk(s, c))
    && (forall t :: PcInv(s, t))
    && IssueInv(s)
  }

  // ---------------------------------------------------------------- every step keeps it

  lemma WireOfUpdate(hist: seq<Entry>, e: Entry, bytes: seq<Cell>)
    requires hist != [] && Written(e) == Written(hist[|hist| - 1]) + bytes
    ensures WireOf(hist[|hist| - 1 := e]) == WireOf(hist) + bytes
  {
    assert hist[|hist| - 1 := e][..|hist| - 1] == hist[..|hist| - 1];
  }

  ghost predicate SameIds(a: seq<Entry>, b: seq<Entry>) {
    |a| == |b| && forall i :: 0 <= i < |a| ==> a[i].id == b[i].id
  }

  /** A step that touches one thread and one connection that no other thread has locked. */
  lemma Reframe(s: State, t: Tid, c: ConnId, k: Conn, pc: Pc, s': State)
    requires Inv(s) && s' == At(Set(s, c, k), t, pc)
    requires ConnInv(k, c, s.next) && SameIds(ConnOf(s, c).hist, k.hist)
    requires ConnOf(s, c).lock in {None, Some(t)} && k.lock in {None, Some(t)}
    requires k.lock == Some(t) <==> Holding(pc)
    requires Holding(pc) ==> pc.call.conn == c
    requires Holding(PcOf(s, t)) ==> PcOf(s, t).call.conn == c
    requires PcInv(s', t)
    ensures Inv(s')
  {
    forall d ensures ConnOk(s', d) {
      ReframeConn(s, t, c, k, pc, s', d);
    }
    forall u ensures PcInv(s', u) {
      if u != t {
        assert PcInv(s, u);
      }
    }
    ReframeIssues(s, t, c, k, pc, s');
  }

  lemma ReframeConn(s: State, t: Tid, c: ConnId, k: Conn, pc: Pc, s': State, d: ConnId)
    requires s' == At(Set(s, c, k), t, pc)
    requires ConnOk(s, d) && ConnInv(k, c, s.next)
    requires ConnOf(s, c).lock in {None, Some(t)} && k.lock in {None, Some(t)}
    requires k.lock == Some(t) ==> Holding(pc) && pc.call.conn == c
    requires Holding(PcOf(s, t)) ==> PcOf(s, t).call.conn == c
    ensures ConnOk(s', d)
  {
  }

  lemma ReframeIssues(s: State, t: Tid, c: ConnId, k: Conn, pc: Pc, s': State)
    requires IssueInv(s) && s' == At(Set(s, c, k), t, pc)
    requires SameIds(ConnOf(s, c).hist, k.hist)
    ensures IssueInv(s')
  {
    forall n | 0 <= n < |s'.issued| ensures IssueOk(s', n) {
      assert IssueOk(s, n);
    }
    forall d, i | 0 <= i < |ConnOf(s', d).hist| ensures EntryIssued(s', d, i) {
      assert EntryIssued(s, d, i);
    }
  }

  lemma StepWaitingInv(s: State, t: Tid, ev: Event)
    requires Inv(s) && PcOf(s, t).Waiting?
    ensures Inv(Step(s, t, ev))
  {
    var call := PcOf(s, t).call;
    var k := ConnOf(s, call.conn);
    assert PcInv(s, t) && ConnOk(s, call.conn);
    if ev.Acquire? && k.lock.None? {
      Reframe(s, t, call.conn, k.(lock := Some(t)), Locked(call), Step(s, t, ev));
    }
  }

  /** A step that only moves one thread, which does not give up or take a mutex. */
  lemma Move(s: State, t: Tid, pc: Pc)
    requires Inv(s) && PcInv(At(s, t, pc), t)
    requires Holding(pc) == Holding(PcOf(s, t))
    requires Holding(pc) ==> pc.call.conn == PcOf(s, t).call.conn
    ensures Inv(At(s, t, pc))
  {
    var s' := At(s, t, pc);
    forall d ensures ConnOk(s', d) {
      assert ConnOk(s, d);
    }
    forall u ensures PcInv(s', u) {
      assert PcInv(s, u);
    }
    forall n | 0 <= n < |s'.issued| ensures IssueOk(s', n) {
      assert IssueOk(s, n);
    }
    forall d, i | 0 <= i < |ConnOf(s', d).hist| ensures EntryIssued(s', d, i) {
      assert EntryIssued(s, d, i);
    }
  }

  lemma CasOkConn(k: Conn, c: ConnId, next: nat, e: Entry)
    requires ConnInv(k, c, next) && NoneOpen(k.hist) && k.lock.Some?
    requires EntryOk(e, c, next + 1) && e.id == next && e.sent == 0
    ensures ConnInv(k.(hist := k.hist + [e]), c, next + 1)
  {
    assert (k.hist + [e])[..|k.hist|] == k.hist && Written(e) == [];
  }

  /** What a successful exchange changes. */
  lemma CasOkState(s: State, t: Tid, s': State)
    requires PcOf(s, t).Cas? && s' == Step(s, t, CasOk) && Available(PcOf(s, t).reg)
    requires PcOf(s, t).reg == s.next
    ensures var call := PcOf(s, t).call;
            var k := ConnOf(s, call.conn);
            && ConnOf(s', call.conn) == k.(hist := k.hist + [Entry(s.next, call, false, 0, Open)])
            && (forall d :: d != call.conn ==> ConnOf(s', d) == ConnOf(s, d))
            && (forall u :: u != t ==> PcOf(s', u) == PcOf(s, u))
            && PcOf(s', t) == (if call.Binary? then Carrier(call, s.next) else Sending(call, s.next))
            && s'.next == s.next + 1 && s'.isOwner == s.isOwner
            && s'.issued == s.issued + [Issue(s.next, call.conn, |k.hist|)]
  {
  }

  lemma CasOkInv(s: State, t: Tid)
    requires Inv(s) && PcOf(s, t).Cas?
    ensures Inv(Step(s, t, CasOk))
  {
    hide Image;
    var pc := PcOf(s, t);
    var c := pc.call.conn;
    var k := ConnOf(s, c);
    var s' := Step(s, t, CasOk);
    assert PcInv(s, t) && ConnOk(s, c);
    if Available(pc.reg) && pc.reg == s.next {
      var e := Entry(pc.reg, pc.call, false, 0, Open);
      CasOkState(s, t, s');
      CasOkConn(k, c, s.next, e);
      CasOkFrame(s, t, c, e, s');
      CasOkIssues(s, c, e, s');
    }
  }

  lemma CasOkFrame(s: State, t: Tid, c: ConnId, e: Entry, s': State)
    requires Inv(s) && PcOf(s, t).Cas? && PcOf(s, t).call.conn == c
    requires ConnInv(ConnOf(s', c), c, s'.next) && ConnOf(s', c).lock == ConnOf(s, c).lock == Some(t)
    requires forall d :: d != c ==> ConnOf(s', d) == ConnOf(s, d)
    requires forall u :: u != t ==> PcOf(s', u) == PcOf(s, u)
    requires Holding(PcOf(s', t)) && PcOf(s', t).call.conn == c && PcInv(s', t)
    requires s'.next == s.next + 1 && s'.isOwner == s.isOwner
    ensures forall d :: ConnOk(s', d)
    ensures forall u :: PcInv(s', u)
  {
    forall d ensures ConnOk(s', d) {
      assert ConnOk(s, d);
    }
    forall u ensures PcInv(s', u) {
      assert PcInv(s, u);
    }
  }

  lemma CasOkIssues(s: State, c: ConnId, e: Entry, s': State)
    requires IssueInv(s) && e.id == s.next && s'.next == s.next + 1
    requires s'.issued == s.issued + [Issue(e.id, c, |ConnOf(s, c).hist|)]
    requires ConnOf(s', c).hist == ConnOf(s, c).hist + [e]
    requires forall d :: d != c ==> ConnOf(s', d) == ConnOf(s, d)
    ensures IssueInv(s')
  {
    forall n | 0 <= n < |s'.issued| ensures IssueOk(s', n) {
      assert n < |s.issued| ==> IssueOk(s, n);
    }
    forall d, i | 0 <= i < |ConnOf(s', d).hist| ensures EntryIssued(s', d, i) {
      assert i < |ConnOf(s, d).hist| ==> EntryIssued(s, d, i);
    }
  }

  lemma StepCasInv(s: State, t: Tid, ev: Event)
    requires Inv(s) && PcOf(s, t).Cas?
    ensures Inv(Step(s, t, ev))
  {
    var pc := PcOf(s, t);
    assert PcInv(s, t) && ConnOk(s, pc.call.conn);
    match ev
    case CasOk => CasOkInv(s, t);
    case CasFail(v) =>
      if Available(pc.reg) && 1 <= v <= s.next {
        Move(s, t, Cas(pc.call, v));
      }
    case Exhausted =>
      if !Available(pc.reg) {
        var k := ConnOf(s, pc.call.conn);
        Reframe(s, t, pc.call.conn, k.(lock := None), Idle, Step(s, t, ev));
      }
    case _ =>
  }

  /** Writing more of the open packet, or closing it. */
  lemma LastConn(k: Conn, c: ConnId, next: nat, e: Entry, bytes: seq<Cell>, k': Conn)
    requires ConnInv(k, c, next) && k.hist != [] && Last(k).status.Open?
    requires EntryOk(e, c, next) && e.id == Last(k).id && Written(e) == Written(Last(k)) + bytes
    requires k'.hist == k.hist[|k.hist| - 1 := e] && k'.wire == k.wire + bytes
    requires e.status.Open? ==> k'.lock.Some?
    ensures ConnInv(k', c, next) && SameIds(k.hist, k'.hist)
  {
    hide Image, Written, Patched, BinaryHead;
    var last := |k.hist| - 1;
    WireOfUpdate(k.hist, e, bytes);
    forall i | 0 <= i < |k'.hist|
      ensures EntryOk(k'.hist[i], c, next) && k'.hist[i].id == k.hist[i].id
      ensures k'.hist[i].status.Open? ==> i == last
    {
      if i == last {
        assert k'.hist[i] == e && k.hist[i] == Last(k);
      } else {
        assert k'.hist[i] == k.hist[i];
      }
    }
  }

  lemma StepCarrierInv(s: State, t: Tid, ev: Event)
    requires Inv(s) && PcOf(s, t).Carrier?
    ensures Inv(Step(s, t, ev))
  {
    var pc := PcOf(s, t);
    assert PcInv(s, t) && ConnOk(s, pc.call.conn);
    match ev
    case FdSend => FdSendInv(s, t, pc);
    case FdRefused => Move(s, t, Sending(pc.call, pc.id));
    case _ =>
  }

  lemma FdSendInv(s: State, t: Tid, pc: Pc)
    requires Inv(s) && PcOf(s, t) == pc && pc.Carrier? && PcInv(s, t) && ConnOk(s, pc.call.conn)
    ensures Inv(Step(s, t, FdSend))
  {
    hide Image, IssueInv;
    var c := pc.call.conn;
    var k := ConnOf(s, c);
    var e0 := Last(k).(viaFd := true);
    var e := e0.(sent := |Image(e0)|);
    ImageIgnoresProgress(e0, e.sent, e0.status);
    var k' := WithLast(k, e).(wire := k.wire + Image(e0));
    assert Written(Last(k)) == [] && Written(e) == Image(e0);
    LastConn(k, c, s.next, e, Image(e0), k');
    Reframe(s, t, c, k', Sending(pc.call, pc.id), Step(s, t, FdSend));
  }

  lemma StepSendingInv(s: State, t: Tid, ev: Event)
    requires Inv(s) && PcOf(s, t).Sending?
    ensures Inv(Step(s, t, ev))
  {
    var pc := PcOf(s, t);
    var k := ConnOf(s, pc.call.conn);
    assert PcInv(s, t) && ConnOk(s, pc.call.conn);
    var e := Last(k);
    var left := |Image(e)| - e.sent;
    match ev
    case Write(n) =>
      if 0 < n <= left {
        WriteInv(s, t, pc, n);
      }
    case WriteError =>
      if left > 0 {
        CloseInv(s, t, pc, Failed, ev);
      }
    case Finish =>
      if left == 0 {
        CloseInv(s, t, pc, Whole, ev);
      }
    case _ =>
  }

  lemma WriteInv(s: State, t: Tid, pc: Pc, n: nat)
    requires Inv(s) && PcOf(s, t) == pc && pc.Sending? && PcInv(s, t) && ConnOk(s, pc.call.conn)
    requires 0 < n <= |Image(Last(ConnOf(s, pc.call.conn)))| - Last(ConnOf(s, pc.call.conn)).sent
    ensures Inv(Step(s, t, Write(n)))
  {
    var c := pc.call.conn;
    var k := ConnOf(s, c);
    var k' := WriteConn(k, c, s.next, n);
    var s' := Step(s, t, Write(n));
    assert s' == At(s', t, pc) by {
      assert t in s.pcs && s.pcs[t := pc] == s.pcs;
    }
    WritePc(s, t, pc, k', s');
    Reframe(s, t, c, k', pc, s');
  }

  lemma WriteConn(k: Conn, c: ConnId, next: nat, n: nat) returns (k': Conn)
    requires ConnInv(k, c, next) && k.hist != [] && Last(k).status.Open? && k.lock.Some?
    requires 0 < n <= |Image(Last(k))| - Last(k).sent
    ensures var e := Last(k);
            k' == WithLast(k, e.(sent := e.sent + n)).(wire := k.wire + Image(e)[e.sent..e.sent + n])
    ensures ConnInv(k', c, next) && SameIds(k.hist, k'.hist)
  {
    var e := Last(k);
    var e' := e.(sent := e.sent + n);
    var bytes := Image(e)[e.sent..e.sent + n];
    k' := WithLast(k, e').(wire := k.wire + bytes);
    assert Image(e') == Image(e);
    hide Image;
    assert Written(e') == Written(e) + bytes;
    LastConn(k, c, next, e', bytes, k');
  }

  lemma WritePc(s: State, t: Tid, pc: Pc, k: Conn, s': State)
    requires PcInv(s, t) && PcOf(s, t) == pc && pc.Sending? && s' == At(Set(s, pc.call.conn, k), t, pc)
    requires k.hist != [] && k.lock == Some(t)
    requires var e := Last(ConnOf(s, pc.call.conn));
             Last(k).status == e.status && Last(k).call == e.call && Last(k).id == e.id
    ensures PcInv(s', t)
  {
  }

  lemma CloseInv(s: State, t: Tid, pc: Pc, status: Status, ev: Event)
    requires Inv(s) && PcOf(s, t) == pc && pc.Sending? && PcInv(s, t) && ConnOk(s, pc.call.conn)
    requires !status.Open?
    requires EntryOk(Last(ConnOf(s, pc.call.conn)).(status := status), pc.call.conn, s.next)
    requires Step(s, t, ev) == At(Set(s, pc.call.conn,
      WithLast(ConnOf(s, pc.call.conn), Last(ConnOf(s, pc.call.conn)).(status := status)).(lock := None)),
      t, Idle)
    ensures Inv(Step(s, t, ev))
  {
    var c := pc.call.conn;
    var k := ConnOf(s, c);
    var e := Last(k).(status := status);
    var k' := WithLast(k, e).(lock := None);
    assert Written(e) == Written(Last(k)) + [];
    assert k'.wire == k.wire + [];
    LastConn(k, c, s.next, e, [], k');
    Reframe(s, t, c, k', Idle, Step(s, t, ev));
  }

  lemma StepInv(s: State, t: Tid, ev: Event)
    requires Inv(s)
    ensures Inv(Step(s, t, ev))
  {
    assert PcInv(s, t);
    match PcOf(s, t)
    case Exited =>
    case Idle =>
      if Step(s, t, ev) != s {
        Move(s, t, PcOf(Step(s, t, ev), t));
      }
    case Waiting(_) => StepWaitingInv(s, t, ev);
    case Locked(call) =>
      if ev.Load? && 1 <= ev.v <= s.next {
        Move(s, t, Cas(call, ev.v));
      }
    case Cas(_, _) => StepCasInv(s, t, ev);
    case Carrier(_, _) => StepCarrierInv(s, t, ev);
    case Sending(_, _) => StepSendingInv(s, t, ev);
  }

  lemma {:induction false} RunInv(s: State, schedule: seq<(Tid, Event)>)
    requires Inv(s)
    ensures Inv(Run(s, schedule))
    decreases |schedule|
  {
    if schedule != [] {
      StepInv(s, schedule[0].0, schedule[0].1);
      RunInv(Step(s, schedule[0].0, schedule[0].1), schedule[1..]);
    }
  }

  lemma InitInv(isOwner: bool)
    ensures Inv(Init(isOwner))
  {
    var s := Init(isOwner);
    assert forall c :: ConnOk(s, c);
  }

  // ---------------------------------------------------------------- the order id source

  /** The specification of ReserveOrderId: one atomic saturating counter. */
  function Reserve(next: nat): (nat, nat) {
    if next == MAX_ORDER_ID then (next, 0) else (next + 1, next)
  }

  /** The value ReserveOrderId returns in this step, if it returns in it. */
  function Returned(s: State, t: Tid, ev: Event): Option<nat> {
    match PcOf(s, t)
    case Cas(_, reg) =>
      if ev.CasOk? && Available(reg) && reg == s.next then Some(reg)
      else if ev.Exhausted? && !Available(reg) then Some(0)
      else None
    case _ => None
  }

  /** Every step is one atomic reservation or leaves the counter alone. */
  lemma CounterRefinement(s: State, t: Tid, ev: Event)
    requires Inv(s)
    ensures var s', r := Step(s, t, ev), Returned(s, t, ev);
            match r
            case None => s'.next == s.next && s'.issued == s.issued
            case Some(id) =>
              && (s'.next, id) == Reserve(s.next)
              && |s'.issued| == |s.issued| + (if id == 0 then 0 else 1)
              && (id != 0 ==> s'.issued[..|s.issued|] == s.issued && s'.issued[|s.issued|].id == id)
  {
    assert PcInv(s, t);
  }

  /** All values returned by ReserveOrderId along a run, in the order of return. */
  function Returns(s: State, schedule: seq<(Tid, Event)>): seq<nat>
    decreases |schedule|
  {
    if schedule == [] then [] else
    var (t, ev) := schedule[0];
    (match Returned(s, t, ev) case None => [] case Some(id) => [id])
    + Returns(Step(s, t, ev), schedule[1..])
  }

  /** The k-th return is the k-th value of the atomic counter: 1, 2, ..., MAX-1, 0, 0, ... */
  lemma {:induction false} ReturnsFrom(s: State, schedule: seq<(Tid, Event)>)
    requires Inv(s)
    ensures var r := Returns(s, schedule);
            forall k :: 0 <= k < |r| ==> r[k] == if s.next + k < MAX_ORDER_ID then s.next + k else 0
    ensures Run(s, schedule).next
         == if s.next + |Returns(s, schedule)| < MAX_ORDER_ID then s.next + |Returns(s, schedule)|
            else MAX_ORDER_ID
    decreases |schedule|
  {
    if schedule != [] {
      var (t, ev) := schedule[0];
      StepInv(s, t, ev);
      CounterRefinement(s, t, ev);
      ReturnsFrom(Step(s, t, ev), schedule[1..]);
    }
  }

  lemma ReserveIsAtomic(schedule: seq<(Tid, Event)>)
    ensures var r := Returns(Init(true), schedule);
            && (forall k :: 0 <= k < |r| ==> r[k] == if k + 1 < 0xFFFF_FFFF_FFFF_FFFF then k + 1 else 0)
            && (forall k :: 0 <= k < |r| ==> r[k] != 0xFFFF_FFFF_FFFF_FFFF)
            && (forall j, k :: 0 <= j < k < |r| && r[j] == 0 ==> r[k] == 0)
  {
    InitInv(true);
    ReturnsFrom(Init(true), schedule);
  }

  /** Ids and history entries of all connections match one to one: no gap, no duplicate. */
  lemma IdsAndPacketsMatch(schedule: seq<(Tid, Event)>)
    ensures var s := Run(Init(true), schedule);
            && |s.issued| == s.next - 1
            && (forall n :: 0 <= n < |s.issued| ==> IssueOk(s, n))
            && (forall c, i, d, j |
                    0 <= i < |ConnOf(s, c).hist| && 0 <= j < |ConnOf(s, d).hist|
                    && ConnOf(s, c).hist[i].id == ConnOf(s, d).hist[j].id :: c == d && i == j)
  {
    InitInv(true);
    RunInv(Init(true), schedule);
    var s := Run(Init(true), schedule);
    forall c, i, d, j | 0 <= i < |ConnOf(s, c).hist| && 0 <= j < |ConnOf(s, d).hist|
      && ConnOf(s, c).hist[i].id == ConnOf(s, d).hist[j].id
      ensures c == d && i == j
    {
      assert EntryIssued(s, c, i) && EntryIssued(s, d, j);
    }
  }

  /** How often thread t took a send mutex, and how often it returned from ReserveOrderId. */
  function Acquired(s: State, schedule: seq<(Tid, Event)>, t: Tid): nat
    decreases |schedule|
  {
    if schedule == [] then 0 else
    var (u, ev) := schedule[0];
    (if u == t && PcOf(s, t).Waiting? && Step(s, u, ev) != s then 1 else 0)
    + Acquired(Step(s, u, ev), schedule[1..], t)
  }

  function Reserved(s: State, schedule: seq<(Tid, Event)>, t: Tid): nat
    decreases |schedule|
  {
    if schedule == [] then 0 else
    var (u, ev) := schedule[0];
    (if u == t && Returned(s, u, ev).Some? then 1 else 0) + Reserved(Step(s, u, ev), schedule[1..], t)
  }

  predicate Reserving(pc: Pc) {
    pc.Locked? || pc.Cas?
  }

  /** A call reserves exactly once per mutex acquisition, whichever way its packet travels. */
  lemma {:induction false} OneIdPerCall(s: State, schedule: seq<(Tid, Event)>, t: Tid)
    ensures Acquired(s, schedule, t) + (if Reserving(PcOf(s, t)) then 1 else 0)
         == Reserved(s, schedule, t) + (if Reserving(PcOf(Run(s, schedule), t)) then 1 else 0)
    decreases |schedule|
  {
    if schedule != [] {
      OneIdPerStep(s, schedule[0].0, schedule[0].1, t);
      OneIdPerCall(Step(s, schedule[0].0, schedule[0].1), schedule[1..], t);
    }
  }

  lemma OneIdPerStep(s: State, u: Tid, ev: Event, t: Tid)
    ensures var took := u == t && PcOf(s, t).Waiting? && Step(s, u, ev) != s;
            var gave := u == t && Returned(s, u, ev).Some?;
            && (took ==> !Reserving(PcOf(s, t)) && Reserving(PcOf(Step(s, u, ev), t)))
            && (gave ==> Reserving(PcOf(s, t)) && !Reserving(PcOf(Step(s, u, ev), t)))
            && (!took && !gave ==> Reserving(PcOf(Step(s, u, ev), t)) == Reserving(PcOf(s, t)))
  {
  }

  // ---------------------------------------------------------------- the wire

  /** The bytes of the packets that were written completely, in history order. */
  function WholeBytes(hist: seq<Entry>): (r: seq<Cell>)
  {
    if hist == [] then [] else
    var e := hist[|hist| - 1];
    WholeBytes(hist[..|hist| - 1]) + (if e.sent == |Image(e)| then Image(e) else [])
  }

  predicate Partial(e: Entry) {
    0 < e.sent < |Image(e)|
  }

  lemma {:induction false} WholeIffNonePartial(hist: seq<Entry>)
    requires forall i :: 0 <= i < |hist| ==> hist[i].sent <= |Image(hist[i])|
    ensures |WireOf(hist)| >= |WholeBytes(hist)|
    ensures WireOf(hist) == WholeBytes(hist) <==> NonePartial(hist)
  {
    if hist != [] {
      var front, e := hist[..|hist| - 1], hist[|hist| - 1];
      WholeIffNonePartial(front);
      NonePartialSnoc(hist);
      AppendWhole(WireOf(front), WholeBytes(front), e);
    }
  }

  predicate NonePartial(hist: seq<Entry>) {
    forall i :: 0 <= i < |hist| ==> !Partial(hist[i])
  }

  lemma NonePartialSnoc(hist: seq<Entry>)
    requires hist != []
    ensures NonePartial(hist) <==> NonePartial(hist[..|hist| - 1]) && !Partial(hist[|hist| - 1])
  {
    hide Partial;
    var front := hist[..|hist| - 1];
    assert forall i :: 0 <= i < |front| ==> front[i] == hist[i];
    if NonePartial(front) && !Partial(hist[|hist| - 1]) {
      forall i | 0 <= i < |hist| ensures !Partial(hist[i]) {
        assert i < |front| ==> hist[i] == front[i];
      }
    }
  }

  lemma AppendWhole(written: seq<Cell>, whole: seq<Cell>, e: Entry)
    requires |written| >= |whole| && e.sent <= |Image(e)|
    ensures var w := if e.sent == |Image(e)| then Image(e) else [];
            && |written + Written(e)| >= |whole + w|
            && (written + Written(e) == whole + w <==> written == whole && !Partial(e))
  {
    var w := if e.sent == |Image(e)| then Image(e) else [];
    assert |Written(e)| == e.sent && |Written(e)| >= |w|;
    assert |Written(e)| == |w| <==> !Partial(e);
    if !Partial(e) {
      assert Written(e) == w;
      assert (written + w)[..|written|] == written;
      assert (whole + w)[..|whole|] == whole;
    }
  }

  /**
   * While no send is in progress on a connection, its byte stream is the concatenation of whole
   * packets with strictly increasing order ids exactly when no send died half-way; what a caller
   * handed over differs from what travels in the order id field only.
   */
  lemma QuietWire(schedule: seq<(Tid, Event)>, c: ConnId)
    requires ConnOf(Run(Init(true), schedule), c).lock.None?
    ensures var k := ConnOf(Run(Init(true), schedule), c);
            && (k.wire == WholeBytes(k.hist) <==> NonePartial(k.hist))
            && (forall i :: 0 <= i < |k.hist| ==>
                  !k.hist[i].status.Open? && (k.hist[i].status.Whole? <==> k.hist[i].sent == |Image(k.hist[i])|))
            && (forall i, j :: 0 <= i < j < |k.hist| ==> k.hist[i].id < k.hist[j].id)
  {
    InitInv(true);
    RunInv(Init(true), schedule);
    var s := Run(Init(true), schedule);
    var k := ConnOf(s, c);
    assert ConnOk(s, c);
    WholeIffNonePartial(k.hist);
  }

  /** At any moment the stream is whole packets followed by the written part of the newest one. */
  lemma BusyWire(schedule: seq<(Tid, Event)>, c: ConnId)
    requires var k := ConnOf(Run(Init(true), schedule), c);
             k.hist != [] && NonePartial(k.hist[..|k.hist| - 1])
    ensures var k := ConnOf(Run(Init(true), schedule), c);
            && Last(k).sent <= |Image(Last(k))|
            && k.wire == WholeBytes(k.hist[..|k.hist| - 1]) + Image(Last(k))[..Last(k).sent]
  {
    hide *;
    InitInv(true);
    RunInv(Init(true), schedule);
    var s := Run(Init(true), schedule);
    ConnInvAt(s, c);
    BusyConn(ConnOf(s, c), c, s.next);
  }

  lemma ConnInvAt(s: State, c: ConnId)
    requires Inv(s)
    ensures ConnInv(ConnOf(s, c), c, s.next)
  {
    hide ConnInv, ConnOf;
    assert ConnOk(s, c);
  }

  lemma BusyConn(k: Conn, c: ConnId, next: nat)
    requires ConnInv(k, c, next) && k.hist != [] && NonePartial(k.hist[..|k.hist| - 1])
    ensures Last(k).sent <= |Image(Last(k))|
    ensures k.wire == WholeBytes(k.hist[..|k.hist| - 1]) + Image(Last(k))[..Last(k).sent]
  {
    var front := k.hist[..|k.hist| - 1];
    assert forall i :: 0 <= i < |front| ==> front[i] == k.hist[i];
    WholeIffNonePartial(front);
  }

  // ---------------------------------------------------------------- a call on its own

  predicate By(schedule: seq<(Tid, Event)>, t: Tid) {
    forall i :: 0 <= i < |schedule| ==> schedule[i].0 == t
  }

  lemma RunStep(s: State, t: Tid, ev: Event, rest: seq<(Tid, Event)>)
    ensures Run(s, [(t, ev)] + rest) == Run(Step(s, t, ev), rest)
  {
    assert ([(t, ev)] + rest)[1..] == rest;
  }

  /** An idle thread takes a free mutex and reserves the next id, after one spurious failure. */
  lemma Reserves(s: State, t: Tid, call: Call)
    requires s.isOwner && PcOf(s, t).Idle? && Sendable(call) && 1 <= s.next < MAX_ORDER_ID
    requires ConnOf(s, call.conn).lock.None?
    ensures var s1 := Step(s, t, Begin(call));
            var s2 := Step(s1, t, Acquire);
            var s3 := Step(s2, t, Load(s.next));
            var s4 := Step(s3, t, CasFail(s.next));
            var s5 := Step(s4, t, CasOk);
            var k := ConnOf(s, call.conn);
            && PcOf(s5, t) == (if call.Binary? then Carrier(call, s.next) else Sending(call, s.next))
            && ConnOf(s5, call.conn)
               == Conn(Some(t), k.wire, k.hist + [Entry(s.next, call, false, 0, Open)])
            && s5.next == s.next + 1
  {
  }

  /** A reserved packet goes out, by descriptor or by bytes, and the mutex is given back. */
  lemma Sends(s: State, t: Tid, call: Call, id: nat, viaFd: bool) returns (schedule: seq<(Tid, Event)>)
    requires PcOf(s, t) == (if call.Binary? then Carrier(call, id) else Sending(call, id))
    requires viaFd ==> call.Binary?
    requires var k := ConnOf(s, call.conn); k.hist != [] && Last(k) == Entry(id, call, false, 0, Open)
    requires |Image(Entry(id, call, viaFd, 0, Open))| > 0
    ensures By(schedule, t)
    ensures var s', k := Run(s, schedule), ConnOf(s, call.conn);
            var size := |Image(Entry(id, call, viaFd, 0, Open))|;
            var e := Entry(id, call, viaFd, size, Whole);
            && PcOf(s', t).Idle? && s'.next == s.next
            && ConnOf(s', call.conn) == Conn(None, k.wire + Image(e), k.hist[|k.hist| - 1 := e])
  {
    hide Run, Step, Image, ConnOf, PcOf;
    var e := Entry(id, call, viaFd, 0, Open);
    var size := |Image(e)|;
    ImageIgnoresProgress(e, size, Open);
    ImageIgnoresProgress(e, size, Whole);
    if viaFd {
      SendsFd(s, t, call, id, e);
      schedule := SendsLast(s, t, call, id, e, FdSend);
    } else if call.Binary? {
      SendsRefused(s, t, call, id);
      var s1 := Step(s, t, FdRefused);
      SendsWrite(s1, t, call, id, e);
      var rest := SendsLast(s1, t, call, id, e, Write(size));
      RunStep(s, t, FdRefused, rest);
      schedule := [(t, FdRefused)] + rest;
    } else {
      SendsWrite(s, t, call, id, e);
      schedule := SendsLast(s, t, call, id, e, Write(size));
    }
  }

  /** The step that completes the packet, and the one that gives the mutex back. */
  lemma SendsLast(s: State, t: Tid, call: Call, id: nat, e: Entry, ev: Event) returns (schedule: seq<(Tid, Event)>)
    requires ConnOf(s, call.conn).hist != []
    requires var s', k := Step(s, t, ev), ConnOf(s, call.conn);
             && PcOf(s', t) == Sending(call, id) && s'.next == s.next
             && ConnOf(s', call.conn)
                == Conn(k.lock, k.wire + Image(e), k.hist[|k.hist| - 1 := e.(sent := |Image(e)|)])
    ensures By(schedule, t)
    ensures var s', k := Run(s, schedule), ConnOf(s, call.conn);
            && PcOf(s', t).Idle? && s'.next == s.next
            && ConnOf(s', call.conn)
               == Conn(None, k.wire + Image(e), k.hist[|k.hist| - 1 := e.(sent := |Image(e)|, status := Whole)])
  {
    hide Run, Step, Image, ConnOf, PcOf;
    var s1 := Step(s, t, ev);
    ImageIgnoresProgress(e, |Image(e)|, e.status);
    SendsFinish(s1, t, call, id, e.(sent := |Image(e)|));
    RunStep(s1, t, Finish, []);
    RunStep(s, t, ev, [(t, Finish)]);
    RunNothing(Step(s1, t, Finish));
    assert [(t, Finish)] + [] == [(t, Finish)];
    schedule := [(t, ev)] + [(t, Finish)];
  }

  lemma SendsRefused(s: State, t: Tid, call: Call, id: nat)
    requires PcOf(s, t) == Carrier(call, id) && call.Binary? && ConnOf(s, call.conn).hist != []
    ensures var s' := Step(s, t, FdRefused);
            && PcOf(s', t) == Sending(call, id) && s'.next == s.next
            && ConnOf(s', call.conn) == ConnOf(s, call.conn)
  {
    hide Image;
  }

  lemma RunNothing(s: State)
    ensures Run(s, []) == s
  {
  }

  lemma ImageIgnoresProgress(e: Entry, sent: nat, status: Status)
    ensures Image(e.(sent := sent, status := status)) == Image(e)
  {
    hide BinaryHead, Patched;
  }

  lemma SendsFd(s: State, t: Tid, call: Call, id: nat, e: Entry)
    requires PcOf(s, t) == Carrier(call, id) && call.Binary? && e == Entry(id, call, true, 0, Open)
    requires var k := ConnOf(s, call.conn); k.hist != [] && Last(k) == e.(viaFd := false)
    ensures var s', k := Step(s, t, FdSend), ConnOf(s, call.conn);
            && PcOf(s', t) == Sending(call, id) && s'.next == s.next
            && ConnOf(s', call.conn)
               == Conn(k.lock, k.wire + Image(e), k.hist[|k.hist| - 1 := e.(sent := |Image(e)|)])
  {
    hide Image;
  }

  lemma SendsWrite(s: State, t: Tid, call: Call, id: nat, e: Entry)
    requires PcOf(s, t) == Sending(call, id) && e.sent == 0 && |Image(e)| > 0
    requires var k := ConnOf(s, call.conn); k.hist != [] && Last(k) == e
    ensures var s', k := Step(s, t, Write(|Image(e)|)), ConnOf(s, call.conn);
            && PcOf(s', t) == Sending(call, id) && s'.next == s.next
            && ConnOf(s', call.conn)
               == Conn(k.lock, k.wire + Image(e), k.hist[|k.hist| - 1 := e.(sent := |Image(e)|)])
  {
    hide Image;
    assert Image(e)[0..|Image(e)|] == Image(e);
  }

  lemma SendsFinish(s: State, t: Tid, call: Call, id: nat, e: Entry)
    requires PcOf(s, t) == Sending(call, id) && e.sent == |Image(e)|
    requires var k := ConnOf(s, call.conn); k.hist != [] && Last(k) == e
    ensures var s', k := Step(s, t, Finish), ConnOf(s, call.conn);
            && PcOf(s', t).Idle? && s'.next == s.next
            && ConnOf(s', call.conn) == Conn(None, k.wire, k.hist[|k.hist| - 1 := e.(status := Whole)])
  {
    hide Image;
  }

  /**
   * From any state in which a thread is idle and the mutex free, a call can go through by the steps of its
   * thread alone: the next id, the whole packet on the wire, the mutex given back.
   */
  lemma CallCompletes(s: State, t: Tid, call: Call, viaFd: bool) returns (schedule: seq<(Tid, Event)>)
    requires s.isOwner && PcOf(s, t).Idle? && 1 <= s.next < 0xFFFF_FFFF_FFFF_FFFF
    requires ConnOf(s, call.conn).lock.None? && (viaFd ==> call.Binary?)
    requires call.Notify? ==> |call.msg| >= 16
    ensures By(schedule, t)
    ensures var s', k := Run(s, schedule), ConnOf(s, call.conn);
            var packet := Image(Entry(s.next, call, viaFd, 0, Open));
            && PcOf(s', t).Idle? && s'.next == s.next + 1
            && ConnOf(s', call.conn)
               == Conn(None, k.wire + packet, k.hist + [Entry(s.next, call, viaFd, |packet|, Whole)])
  {
    hide Run, Image;
    var k, id := ConnOf(s, call.conn), s.next;
    var e := Entry(id, call, viaFd, 0, Open);
    PacketNotEmpty(e);
    ImageIgnoresProgress(e, |Image(e)|, Whole);
    Reserves(s, t, call);
    var s1 := Step(s, t, Begin(call));
    var s2 := Step(s1, t, Acquire);
    var s3 := Step(s2, t, Load(id));
    var s4 := Step(s3, t, CasFail(id));
    var s5 := Step(s4, t, CasOk);
    hide Step, ConnOf;
    var rest := Sends(s5, t, call, id, viaFd);
    RunStep(s4, t, CasOk, rest);
    var r4 := [(t, CasOk)] + rest;
    RunStep(s3, t, CasFail(id), r4);
    var r3 := [(t, CasFail(id))] + r4;
    RunStep(s2, t, Load(id), r3);
    var r2 := [(t, Load(id))] + r3;
    RunStep(s1, t, Acquire, r2);
    var r1 := [(t, Acquire)] + r2;
    RunStep(s, t, Begin(call), r1);
    schedule := [(t, Begin(call))] + r1;
  }

  lemma PacketNotEmpty(e: Entry)
    requires Sendable(e.call)
    ensures |Image(e)| > 0
  {
    hide BinaryHead, Patched;
    match e.call
    case Notify(_, msg) => PatchedLength(msg, e.id);
    case Binary(_, _) =>
  }

  lemma PatchedLength(msg: seq<byte>, id: nat)
    requires |msg| >= HEAD_SIZE
    ensures |Patched(msg, id)| == |msg|
  {
  }

  /** A failing write gives the packet up as it stands, and the mutex back. */
  lemma ErrorReleases(s: State, t: Tid, call: Call, id: nat)
    requires Inv(s) && PcOf(s, t) == Sending(call, id)
    requires var k := ConnOf(s, call.conn); k.hist != [] && Last(k).sent < |Image(Last(k))|
    ensures var s', k := Step(s, t, WriteError), ConnOf(s, call.conn);
            && PcOf(s', t).Idle?
            && ConnOf(s', call.conn) == Conn(None, k.wire, k.hist[|k.hist| - 1 := Last(k).(status := Failed)])
  {
    hide Image, Inv;
    PcInvAt(s, t);
  }

  /** A message shorter than the 16 bytes of a header is turned away before the mutex. */
  lemma ShortNotSent(s: State, t: Tid, call: Call)
    requires s.isOwner && PcOf(s, t).Idle? && call.Notify? && |call.msg| < 16
    ensures Step(s, t, Begin(call)) == s
  {
  }

  /** A forked child exits at its first call. */
  lemma ForkedChildExits(s: State, t: Tid, call: Call)
    requires !s.isOwner && PcOf(s, t).Idle?
    ensures PcOf(Step(s, t, Begin(call)), t).Exited?
  {
  }

  /** With the counter exhausted a call takes the mutex, sends nothing and gives it back. */
  lemma ExhaustedReleases(s: State, t: Tid, call: Call)
    requires s.isOwner && PcOf(s, t).Idle? && Sendable(call) && s.next == MAX_ORDER_ID
    requires ConnOf(s, call.conn).lock.None?
    ensures var s1 := Step(s, t, Begin(call));
            var s2 := Step(s1, t, Acquire);
            var s3 := Step(s2, t, Load(s.next));
            var s4 := Step(s3, t, Exhausted);
            && PcOf(s4, t).Idle? && Returned(s3, t, Exhausted) == Some(0)
            && ConnOf(s2, call.conn).lock == Some(t)
            && ConnOf(s4, call.conn) == ConnOf(s, call.conn) && s4.next == s.next
  {
  }

  // ---------------------------------------------------------------- transport errors

  /** In this step a write() of connection c fails while a packet is going out. */
  predicate Errs(s: State, t: Tid, ev: Event, c: ConnId) {
    ev.WriteError? && PcOf(s, t).Sending? && PcOf(s, t).call.conn == c && Step(s, t, ev) != s
  }

  /** The transport errors of connection c along a run. */
  function Errors(s: State, schedule: seq<(Tid, Event)>, c: ConnId): nat
    decreases |schedule|
  {
    if schedule == [] then 0 else
    var (t, ev) := schedule[0];
    (if Errs(s, t, ev, c) then 1 else 0) + Errors(Step(s, t, ev), schedule[1..], c)
  }

  /** The packets of a history that were given up. */
  function FailedIn(hist: seq<Entry>): nat {
    if hist == [] then 0 else
    FailedIn(hist[..|hist| - 1]) + if hist[|hist| - 1].status.Failed? then 1 else 0
  }

  lemma FailedInLast(hist: seq<Entry>, e: Entry)
    requires hist != []
    ensures FailedIn(hist[|hist| - 1 := e]) == FailedIn(hist[..|hist| - 1]) + if e.status.Failed? then 1 else 0
  {
    assert hist[|hist| - 1 := e][..|hist| - 1] == hist[..|hist| - 1];
  }

  lemma {:induction false} NoneFailed(hist: seq<Entry>)
    ensures FailedIn(hist) == 0 <==> forall i :: 0 <= i < |hist| ==> !hist[i].status.Failed?
  {
    if hist != [] {
      NoneFailed(hist[..|hist| - 1]);
      assert forall i :: 0 <= i < |hist| - 1 ==> hist[i] == hist[..|hist| - 1][i];
    }
  }

  /** A step gives up a packet of c exactly if it is a transport error of c. */
  lemma ErrorFailsOne(s: State, t: Tid, ev: Event, c: ConnId)
    requires Inv(s)
    ensures FailedIn(ConnOf(Step(s, t, ev), c).hist)
         == FailedIn(ConnOf(s, c).hist) + if Errs(s, t, ev, c) then 1 else 0
  {
    hide Image, FailedIn, Inv, ConnOk, IssueInv;
    PcInvAt(s, t);
    var pc, k := PcOf(s, t), ConnOf(s, c);
    if Step(s, t, ev) != s && Holding(pc) && pc.call.conn == c {
      var k' := ConnOf(Step(s, t, ev), c);
      if pc.Cas? && ev.CasOk? {
        SnocFailed(k.hist, Last(k'));
      } else if pc.Carrier? || pc.Sending? {
        FailedInLast(k.hist, Last(k'));
        FailedInLast(k.hist, Last(k));
        assert k.hist[|k.hist| - 1 := Last(k)] == k.hist;
      }
    }
  }

  lemma SnocFailed(hist: seq<Entry>, e: Entry)
    ensures FailedIn(hist + [e]) == FailedIn(hist) + if e.status.Failed? then 1 else 0
  {
    assert (hist + [e])[..|hist|] == hist;
  }

  lemma PcInvAt(s: State, t: Tid)
    requires Inv(s)
    ensures PcInv(s, t)
  {
  }

  /** Along a run every transport error of a connection gives up exactly one packet of it, and nothing else does. */
  lemma {:induction false} ErrorsAreFailures(s: State, schedule: seq<(Tid, Event)>, c: ConnId)
    requires Inv(s)
    ensures FailedIn(ConnOf(Run(s, schedule), c).hist) == FailedIn(ConnOf(s, c).hist) + Errors(s, schedule, c)
    decreases |schedule|
  {
    hide Inv, Step, FailedIn, Errs, ConnOf;
    if schedule != [] {
      var (t, ev) := schedule[0];
      StepInv(s, t, ev);
      ErrorFailsOne(s, t, ev, c);
      ErrorsAreFailures(Step(s, t, ev), schedule[1..], c);
    }
  }

  /**
   * Until the first transport error of a connection all its packets are complete, except the one
   * that is going out; so whenever no send is in progress its bytes are whole packets.
   */
  lemma UntilError(schedule: seq<(Tid, Event)>, c: ConnId)
    ensures var k := ConnOf(Run(Init(true), schedule), c);
            && (Errors(Init(true), schedule, c) == 0 <==>
                  forall i :: 0 <= i < |k.hist| ==> !k.hist[i].status.Failed?)
            && (Errors(Init(true), schedule, c) == 0 ==>
                  && (forall i :: 0 <= i < |k.hist| && (i + 1 < |k.hist| || k.lock.None?) ==> k.hist[i].status.Whole?)
                  && (k.lock.None? ==> k.wire == WholeBytes(k.hist)))
  {
    hide Run, Step, Inv, Errors, Image, WholeBytes, WireOf;
    InitInv(true);
    var s := Run(Init(true), schedule);
    RunInv(Init(true), schedule);
    ConnInvAt(s, c);
    ErrorsAreFailures(Init(true), schedule, c);
    var k := ConnOf(s, c);
    NoneFailed(k.hist);
    WholeIffNonePartial(k.hist);
  }

  /** After an error the bytes still begin with the whole packets before it and the written part of the torn one. */
  lemma TornWire(schedule: seq<(Tid, Event)>, c: ConnId, f: nat)
    requires var k := ConnOf(Run(Init(true), schedule), c);
             && f < |k.hist| && k.hist[f].status.Failed?
             && forall i :: 0 <= i < f ==> !k.hist[i].status.Failed?
    ensures var k := ConnOf(Run(Init(true), schedule), c);
            && k.hist[f].sent < |Image(k.hist[f])|
            && (forall i :: 0 <= i < f ==> k.hist[i].status.Whole?)
            && WholeBytes(k.hist[..f]) + Image(k.hist[f])[..k.hist[f].sent] <= k.wire
  {
    hide Run, Step, Inv, Image, WholeBytes, WireOf;
    InitInv(true);
    var s := Run(Init(true), schedule);
    RunInv(Init(true), schedule);
    ConnInvAt(s, c);
    var k := ConnOf(s, c);
    var front := k.hist[..f];
    assert forall i :: 0 <= i < f ==> front[i] == k.hist[i];
    WholeIffNonePartial(front);
    WireOfSnoc(k.hist, f);
    WireOfPrefix(k.hist, f + 1);
  }

  lemma WireOfSnoc(hist: seq<Entry>, f: nat)
    requires f < |hist| && hist[f].sent <= |Image(hist[f])|
    ensures WireOf(hist[..f + 1]) == WireOf(hist[..f]) + Image(hist[f])[..hist[f].sent]
  {
    hide Image;
    assert hist[..f + 1][..f] == hist[..f];
  }

  lemma {:induction false} WireOfPrefix(hist: seq<Entry>, n: nat)
    requires n <= |hist|
    ensures WireOf(hist[..n]) <= WireOf(hist)
  {
    hide Written;
    if n < |hist| {
      var front := hist[..|hist| - 1];
      WireOfPrefix(front, n);
      assert front[..n] == hist[..n];
    } else {
      assert hist[..n] == hist;
    }
  }

  function BytesOf(cells: seq<Cell>): (r: seq<byte>)
  {
    seq(|cells|, i requires 0 <= i < |cells| => cells[i].b)
  }

  /** What each packet carries: the caller's bytes, renumbered, or the binary by value or by fd. */
  lemma PacketContents(e: Entry)
    requires Sendable(e.call) && e.id < MAX_ORDER_ID
    requires e.call.Binary? ==> |e.call.elf| < U64
    ensures |Image(e)| >= HEAD_SIZE && OrderId(BytesOf(Image(e))) == e.id
    ensures e.call.Notify? ==>
              && |Image(e)| == |e.call.msg|
              && forall i :: 0 <= i < |e.call.msg| && !(8 <= i < 16) ==>
                   Image(e)[i] == Cell(e.call.msg[i], None)
    ensures e.call.Binary? ==>
              var bytes := BytesOf(Image(e));
              && |bytes| == 24 + (if e.viaFd then 0 else |e.call.elf|)
              && bytes[24..] == (if e.viaFd then [] else e.call.elf)
              && FromLe(bytes[0..4]) == 2 && FromLe(bytes[4..8]) == 0
              && FromLe(bytes[8..16]) == e.id && FromLe(bytes[16..24]) == |e.call.elf|
    ensures e.call.Binary? ==>
              forall i :: 0 <= i < |Image(e)| ==>
                Image(e)[i].fd == if e.viaFd && i == 0 then Some(e.call.elf) else None
  {
    hide BinaryHead, Patched, FromLe;
    match e.call
    case Notify(_, msg) =>
      PatchedOnlyOrderId(msg, e.id);
      assert BytesOf(Image(e)) == Patched(msg, e.id);
    case Binary(_, elf) =>
      var head := BinaryHead(e.id, |elf|);
      BinaryHeadOrderId(e.id, |elf|);
      var bytes := BytesOf(Image(e));
      assert bytes == head + if e.viaFd then [] else elf;
      assert bytes[0..4] == head[0..4] && bytes[4..8] == head[4..8] && bytes[8..16] == head[8..16];
      assert bytes[16..24] == head[16..];
  }

  // ---------------------------------------------------------------- forked children

  /** A forked child never takes a mutex or an id and never writes a byte of a device packet. */
  lemma {:induction false} ForkedChildIsSilent(s: State, schedule: seq<(Tid, Event)>)
    requires !s.isOwner && forall t :: PcOf(s, t) in {Idle, Exited}
    ensures var s' := Run(s, schedule); s'.conns == s.conns && s'.issued == s.issued && s'.next == s.next
    decreases |schedule|
  {
    if schedule != [] {
      var s' := Step(s, schedule[0].0, schedule[0].1);
      assert PcOf(s, schedule[0].0) in {Idle, Exited};
      assert forall t :: PcOf(s', t) in {Idle, Exited} by {
        forall t ensures PcOf(s', t) in {Idle, Exited} {
          assert PcOf(s, t) in {Idle, Exited};
        }
      }
      ForkedChildIsSilent(s', schedule[1..]);
    }
  }
}
