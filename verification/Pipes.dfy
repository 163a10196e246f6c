/**
 * The fork-safe pipe descriptors of PipeCall: any number of concurrent calls, each with a main
 * thread and a writer thread, over one descriptor table, one global list and one mutex; unrelated
 * threads open and close descriptors of their own at any time without the mutex. Schedules are
 * sequences of (call, event); an event that is not enabled changes nothing.
 */
module Pipes {
  import opened Seqs

  type CallId = nat

  /** What a descriptor refers to. Ends of a call: 0, 1 stdin read/write; 2, 3 stdout read/write. */
  datatype Desc = Pipe(call: CallId, k: nat) | Other

  type Table = map<int, Desc>

  datatype Main =
    | Ready
    | Creating(j: nat)               // 0: stdin pipe, 1: stdout pipe
    | Forking
    | ParentClose(k: nat)            // 0, then 3; after reading, 2
    | Reading
    | Joining
    | Dtor(k: nat)                   // destructors visit 2, 3, 0, 1
    | Returned

  datatype Writer = NotSpawned | Writing | Closing | Done

  datatype Call = Call(main: Main, writer: Writer, slots: seq<int>)

  /** What the system call inside the critical section did; applied to list and slots on release. */
  datatype Effect =
    | CreateFailed
    | Created(a: int, b: int)
    | ForkFailed
    | Forked
    | Closed(fd: int)

  datatype Lock =
    | Free
    | Entered(call: CallId, byWriter: bool)
    | Acted(call: CallId, byWriter: bool, effect: Effect)

  datatype Child =
    | Pre(table: Table, list: seq<int>, slots: seq<int>)
    | Exec(table: Table)

  /** A close() of the parent: for which end it was meant and what it hit. */
  datatype CloseRec = CloseRec(call: CallId, k: nat, hit: Option<Desc>)

  datatype State = State(
    table: Table,
    list: seq<int>,                  // fdsForClose
    lock: Lock,
    calls: map<CallId, Call>,
    children: map<CallId, Child>,
    created: set<(CallId, nat)>,
    closes: seq<CloseRec>)

  datatype Op = NoOp | Create(j: nat) | Fork | Close(k: nat)

  datatype Event =
    | Start
    | Acquire(byWriter: bool)
    | CreateOk(a: int, b: int) | CreateFail
    | ForkOk | ForkFail
    | CloseFd
    | Release
    | WriteDone | ReadDone | Join | Skip
    | ChildExec
    | OpenOther(fd: int) | CloseOther(fd: int)

  function CallOf(s: State, c: CallId): Call {
    if c in s.calls then s.calls[c] else Call(Ready, NotSpawned, [-1, -1, -1, -1])
  }

  /** The operation under the mutex that a thread of the call wants next. */
  function OpOf(call: Call, byWriter: bool): Op {
    if byWriter then (if call.writer.Closing? then Close(1) else NoOp)
    else match call.main
      case Creating(j) => Create(j)
      case Forking => Fork
      case ParentClose(k) => Close(k)
      case Dtor(k) => if k < |call.slots| && call.slots[k] != -1 then Close(k) else NoOp
      case _ => NoOp
  }

  function DtorNext(k: nat): Main {
    if k == 2 then Dtor(3) else if k == 3 then Dtor(0) else if k == 0 then Dtor(1) else Returned
  }

  function Erase(list: seq<int>, fd: int): (r: seq<int>)
  {
    if list == [] then [] else if list[0] == fd then list[1..] else [list[0]] + Erase(list[1..], fd)
  }

  function SlotsAfter(call: Call, op: Op, effect: Effect): seq<int>
    requires |call.slots| == 4
  {
    match effect
    case Created(a, b) =>
      if op.Create? && op.j < 2 then call.slots[2 * op.j := a][2 * op.j + 1 := b] else call.slots
    case Closed(_) => if op.Close? && op.k < 4 then call.slots[op.k := -1] else call.slots
    case _ => call.slots
  }

  function ListAfter(list: seq<int>, effect: Effect): seq<int> {
    match effect
    case Created(a, b) => list + [a, b]
    case Closed(fd) => Erase(list, fd)
    case _ => list
  }

  /** Where the thread continues once it gave the mutex back. */
  function After(call: Call, byWriter: bool, effect: Effect): Call
    requires |call.slots| == 4
  {
    var call' := call.(slots := SlotsAfter(call, OpOf(call, byWriter), effect));
    if byWriter then call'.(writer := Done) else
    match call.main
    case Creating(j) =>
      call'.(main := if effect.CreateFailed? then Dtor(2) else if j == 0 then Creating(1) else Forking)
    case Forking => call'.(main := if effect.Forked? then ParentClose(0) else Dtor(2))
    case ParentClose(k) =>
      if k == 0 then call'.(main := ParentClose(3))
      else if k == 3 then call'.(main := Reading, writer := Writing)
      else call'.(main := Joining)
    case Dtor(k) => call'.(main := DtorNext(k))
    case _ => call'
  }

  /** The child's descriptor table after its three dup2 calls and the closing of all listed pipes. */
  function ExecTable(table: Table, list: seq<int>, slots: seq<int>): Table
    requires |slots| == 4 && slots[0] in table && slots[3] in table
  {
    Redirected(table, slots) - (set fd | fd in list)
  }

  function Redirected(table: Table, slots: seq<int>): Table
    requires |slots| == 4 && slots[0] in table && slots[3] in table
  {
    var t := table[0 := table[slots[0]]];
    var t := t[1 := t[slots[3]]];
    t[2 := t[1]]
  }

  function Act(s: State, c: CallId, byWriter: bool, ev: Event): State
  {
    var call := CallOf(s, c);
    match (OpOf(call, byWriter), ev)
    case (Create(j), CreateOk(a, b)) =>
      if a == b || a in s.table || b in s.table || a < 0 || b < 0 then s else
      s.(table := s.table[a := Pipe(c, 2 * j)][b := Pipe(c, 2 * j + 1)],
         created := s.created + {(c, 2 * j), (c, 2 * j + 1)},
         lock := Acted(c, byWriter, Created(a, b)))
    case (Create(_), CreateFail) => s.(lock := Acted(c, byWriter, CreateFailed))
    case (Fork, ForkOk) =>
      s.(children := s.children[c := Pre(s.table, s.list, call.slots)],
         lock := Acted(c, byWriter, Forked))
    case (Fork, ForkFail) => s.(lock := Acted(c, byWriter, ForkFailed))
    case (Close(k), CloseFd) =>
      if k >= |call.slots| then s else
      var fd := call.slots[k];
      s.(table := s.table - {fd},
         closes := s.closes + [CloseRec(c, k, if fd in s.table then Some(s.table[fd]) else None)],
         lock := Acted(c, byWriter, Closed(fd)))
    case _ => s
  }

  function Put(s: State, c: CallId, call: Call): State {
    s.(calls := s.calls[c := call])
  }

  /** Steps that need no mutex. */
  function Local(s: State, c: CallId, ev: Event): State
  {
    var call := CallOf(s, c);
    match ev
    case Start => if call.main.Ready? then Put(s, c, call.(main := Creating(0))) else s
    case ReadDone => if call.main.Reading? then Put(s, c, call.(main := ParentClose(2))) else s
    case WriteDone => if call.writer.Writing? then Put(s, c, call.(writer := Closing)) else s
    case Join =>
      if call.main.Joining? && call.writer.Done? then Put(s, c, call.(main := Dtor(2))) else s
    case Skip =>
      if call.main.Dtor? && call.main.k < |call.slots| && call.slots[call.main.k] == -1
      then Put(s, c, call.(main := DtorNext(call.main.k))) else s
    case ChildExec => RunChild(s, c)
    case OpenOther(fd) => if fd < 0 || fd in s.table then s else s.(table := s.table[fd := Other])
    case CloseOther(fd) =>
      if fd > 2 && fd in s.table && s.table[fd].Other? then s.(table := s.table - {fd}) else s
    case _ => s
  }

  function RunChild(s: State, c: CallId): State
  {
    if c !in s.children || s.children[c].Exec? then s else
    var ch := s.children[c];
    if |ch.slots| == 4 && ch.slots[0] in ch.table && ch.slots[3] in ch.table
    then s.(children := s.children[c := Exec(ExecTable(ch.table, ch.list, ch.slots))])
    else s
  }

  predicate IsSyscall(ev: Event) {
    ev.CreateOk? || ev.CreateFail? || ev.ForkOk? || ev.ForkFail? || ev.CloseFd?
  }

  function Step(s: State, c: CallId, ev: Event): State
  {
    match s.lock
    case Free =>
      if ev.Acquire? then
        (if OpOf(CallOf(s, c), ev.byWriter).NoOp? then s else s.(lock := Entered(c, ev.byWriter)))
      else Local(s, c, ev)
    case Entered(d, w) =>
      if IsSyscall(ev) then (if c == d then Act(s, c, w, ev) else s) else Local(s, c, ev)
    case Acted(d, w, effect) =>
      if ev.Release? then
        (if c == d && |CallOf(s, c).slots| == 4 then
           s.(list := ListAfter(s.list, effect), lock := Free,
              calls := s.calls[c := After(CallOf(s, c), w, effect)])
         else s)
      else Local(s, c, ev)
  }

  function Run(s: State, schedule: seq<(CallId, Event)>): State
    decreases |schedule|
  {
    if schedule == [] then s else Run(Step(s, schedule[0].0, schedule[0].1), schedule[1..])
  }

  /** Descriptors 0 to 2 are open when the first PipeCall starts; `others` are in use too. */
  ghost predicate IsInit(s: State) {
    && (forall fd :: fd in s.table ==> s.table[fd].Other?)
    && 0 in s.table && 1 in s.table && 2 in s.table
    && s == State(s.table, [], Free, map[], map[], {}, [])
  }

  // ---------------------------------------------------------------- the invariant

  /** The end slots and the list as they will be when the current critical section is over. */
  function SlotsOf(s: State, c: CallId): seq<int>
  {
    var call := CallOf(s, c);
    if s.lock.Acted? && s.lock.call == c && |call.slots| == 4
    then SlotsAfter(call, OpOf(call, s.lock.byWriter), s.lock.effect)
    else call.slots
  }

  function ListOf(s: State): seq<int> {
    if s.lock.Acted? then ListAfter(s.list, s.lock.effect) else s.list
  }

  /** The ends that the call has yet to create. */
  function FutureEnds(s: State, c: CallId): set<nat>
  {
    var now := s.lock.Acted? && s.lock.call == c && s.lock.effect.Created?;
    match CallOf(s, c).main
    case Ready => {0, 1, 2, 3}
    case Creating(j) => if j == 0 && !now then {0, 1, 2, 3} else if j == 0 || !now then {2, 3} else {}
    case _ => {}
  }

  predicate NoDup(list: seq<int>) {
    forall i, j :: 0 <= i < j < |list| ==> list[i] != list[j]
  }

  /** The ends that are open while the main thread is at this place, outside the destructors. */
  function OpenEnds(call: Call): set<nat>
  {
    var w: set<nat> := if call.writer.Done? then {} else {1};
    match call.main
    case Creating(1) => {0, 1}
    case Forking => {0, 1, 2, 3}
    case ParentClose(k) => if k == 0 then {0, 1, 2, 3} else if k == 3 then {1, 2, 3} else {2} + w
    case Reading => {2} + w
    case Joining => w
    case _ => {}
  }

  predicate CallInv(call: Call)
  {
    && |call.slots| == 4
    && (call.main.Creating? ==> call.main.j < 2)
    && (call.main.ParentClose? ==> call.main.k in {0, 3, 2})
    && (call.writer.Writing? || call.writer.Closing? ==>
          call.main.Reading? || call.main == ParentClose(2) || call.main.Joining?)
    && (call.writer.NotSpawned? ==> !(call.main.Reading? || call.main == ParentClose(2) || call.main.Joining?))
    && (call.writer.Done? ==>
          call.main.Reading? || call.main == ParentClose(2) || call.main.Joining? || call.main.Dtor?
          || call.main.Returned?)
    && match call.main
       case Dtor(k) =>
         && k < 4
         && (k != 2 ==> call.slots[2] == -1)
         && (k == 0 || k == 1 ==> call.slots[3] == -1)
         && (k == 1 ==> call.slots[0] == -1)
       case Returned => call.slots == [-1, -1, -1, -1]
       case _ => forall k: nat :: k < 4 ==> (call.slots[k] != -1 <==> k in OpenEnds(call))
  }

  predicate IsPipe(t: Table, fd: int) {
    fd in t && t[fd].Pipe?
  }

  /** Descriptor numbers and end slots match one to one. */
  ghost predicate FdInv(s: State, fd: int) {
    && (fd in {0, 1, 2} ==> fd in s.table && s.table[fd].Other?)
    && (IsPipe(s.table, fd) ==>
          && fd > 2 && s.table[fd].k < |SlotsOf(s, s.table[fd].call)|
          && SlotsOf(s, s.table[fd].call)[s.table[fd].k] == fd)
    && (fd in ListOf(s) <==> IsPipe(s.table, fd))
  }

  ghost predicate SlotInv(s: State, c: CallId) {
    && CallInv(CallOf(s, c)) && |SlotsOf(s, c)| == 4
    && (forall k: nat :: k < 4 && SlotsOf(s, c)[k] != -1 ==>
          SlotsOf(s, c)[k] in s.table && s.table[SlotsOf(s, c)[k]] == Pipe(c, k))
  }

  /** The thread that holds the mutex is the one whose operation it is, and its `find` will hit. */
  ghost predicate LockInv(s: State) {
    && NoDup(ListOf(s)) && NoDup(s.list)
    && match s.lock
       case Free => true
       case Entered(c, w) => !OpOf(CallOf(s, c), w).NoOp?
       case Acted(c, w, effect) =>
         var op := OpOf(CallOf(s, c), w);
         match effect
         case CreateFailed => op.Create?
         case Created(a, b) => op.Create?
         case ForkFailed => op.Fork?
         case Forked => op.Fork?
         case Closed(fd) => op.Close? && op.k < |CallOf(s, c).slots| && CallOf(s, c).slots[op.k] == fd && fd in s.list
  }

  function ClosedTimes(closes: seq<CloseRec>, c: CallId, k: nat): (n: nat)
  {
    if closes == [] then 0 else
    var x := closes[|closes| - 1];
    ClosedTimes(closes[..|closes| - 1], c, k) + (if x.call == c && x.k == k then 1 else 0)
  }

  ghost predicate CloseInv(s: State, c: CallId, k: nat) {
    && k < |SlotsOf(s, c)|
    && (k in FutureEnds(s, c) ==> (c, k) !in s.created)
    && (SlotsOf(s, c)[k] != -1 ==> (c, k) in s.created && ClosedTimes(s.closes, c, k) == 0)
    && (SlotsOf(s, c)[k] == -1 ==> ClosedTimes(s.closes, c, k) == if (c, k) in s.created then 1 else 0)
  }

  ghost predicate CloseHits(s: State) {
    forall i :: 0 <= i < |s.closes| ==>
      s.closes[i].k < 4 && s.closes[i].hit == Some(Pipe(s.closes[i].call, s.closes[i].k))
  }

  /** A child before exec is an exact snapshot; after exec it has its own two ends and no other. */
  ghost predicate ChildInv(s: State, c: CallId) {
    c in s.children ==>
      match s.children[c]
      case Pre(table, list, slots) =>
        && |slots| == 4
        && (forall k: nat :: k < 4 ==> slots[k] in table && table[slots[k]] == Pipe(c, k))
        && (forall fd :: fd in list <==> IsPipe(table, fd))
        && NoDup(list) && !IsPipe(table, 0) && !IsPipe(table, 1) && !IsPipe(table, 2)
      case Exec(table) => OwnEndsOnly(table, c)
  }

  ghost predicate OwnEndsOnly(table: Table, c: CallId) {
    && 0 in table && table[0] == Pipe(c, 0)
    && 1 in table && table[1] == Pipe(c, 3)
    && 2 in table && table[2] == Pipe(c, 3)
    && (forall fd :: IsPipe(table, fd) ==> fd in {0, 1, 2})
  }

  ghost predicate Inv(s: State) {
    && (forall fd :: FdInv(s, fd))
    && (forall c :: SlotInv(s, c))
    && LockInv(s)
    && CloseHits(s)
    && (forall c, k: nat :: k < 4 ==> CloseInv(s, c, k))
    && (forall c :: ChildInv(s, c))
  }

  // ---------------------------------------------------------------- every step keeps it

  lemma NoDupCons(x: int, list: seq<int>)
    ensures NoDup([x] + list) <==> x !in list && NoDup(list)
  {
    var r := [x] + list;
    assert forall i :: 0 <= i < |list| ==> r[i + 1] == list[i];
    if NoDup(r) {
      assert r[0] == x;
    }
  }

  lemma {:induction false} EraseRemoves(list: seq<int>, fd: int)
    requires NoDup(list)
    ensures NoDup(Erase(list, fd))
    ensures forall x :: x in Erase(list, fd) <==> x in list && x != fd
  {
    if list != [] {
      assert list == [list[0]] + list[1..];
      NoDupCons(list[0], list[1..]);
      if list[0] != fd {
        EraseRemoves(list[1..], fd);
        NoDupCons(list[0], Erase(list[1..], fd));
      }
    }
  }

  ghost predicate SameEnds(s: State, s': State, c: CallId) {
    && SlotsOf(s', c) == SlotsOf(s, c)
    && CallInv(CallOf(s', c))
    && FutureEnds(s', c) <= FutureEnds(s, c)
  }

  /** Nothing but positions changed: slots, list, table, children and close records are as before. */
  lemma Quiet(s: State, s': State)
    requires Inv(s) && LockInv(s')
    requires s'.table == s.table && s'.children == s.children
    requires s'.created == s.created && s'.closes == s.closes
    requires ListOf(s') == ListOf(s)
    requires forall c :: SameEnds(s, s', c)
    ensures Inv(s')
  {
    hide SlotsOf, ListOf, FutureEnds, CallInv, LockInv;
    forall fd ensures FdInv(s', fd) {
      assert FdInv(s, fd);
      assert IsPipe(s.table, fd) ==> SameEnds(s, s', s.table[fd].call);
    }
    forall c ensures SlotInv(s', c) && ChildInv(s', c) {
      assert SlotInv(s, c) && ChildInv(s, c) && SameEnds(s, s', c);
    }
    forall c, k: nat | k < 4 ensures CloseInv(s', c, k) {
      assert CloseInv(s, c, k) && SameEnds(s, s', c);
    }
  }

  lemma AfterKeepsCallInv(call: Call, byWriter: bool, effect: Effect)
    requires CallInv(call) && !OpOf(call, byWriter).NoOp?
    requires match OpOf(call, byWriter)
             case Create(_) => effect.CreateFailed? || (effect.Created? && effect.a != -1 && effect.b != -1)
             case Fork => effect.Forked? || effect.ForkFailed?
             case Close(_) => effect.Closed?
             case NoOp => false
    ensures CallInv(After(call, byWriter, effect))
  {
    var slots, slots' := call.slots, After(call, byWriter, effect).slots;
    assert slots == [slots[0], slots[1], slots[2], slots[3]];
    assert slots' == [slots'[0], slots'[1], slots'[2], slots'[3]];
  }

  lemma ReleaseInv(s: State, c: CallId)
    requires Inv(s) && s.lock.Acted? && s.lock.call == c
    ensures Inv(Step(s, c, Release))
  {
    var s' := Step(s, c, Release);
    assert SlotInv(s, c);
    var call, w, effect := CallOf(s, c), s.lock.byWriter, s.lock.effect;
    if effect.Created? {
      assert FdInv(s, effect.a) && FdInv(s, effect.b);
      assert effect.a in ListOf(s) && effect.b in ListOf(s);
    }
    AfterKeepsCallInv(call, w, effect);
    ReleaseStep(s, c);
    forall d ensures SameEnds(s, s', d) {
      assert SlotInv(s, d);
      ReleaseEnds(s, c, d);
    }
    hide SlotsOf, FutureEnds, SameEnds, FdInv, SlotInv, Step;
    Quiet(s, s');
  }

  lemma ReleaseStep(s: State, c: CallId)
    requires LockInv(s) && s.lock.Acted? && s.lock.call == c && |CallOf(s, c).slots| == 4
    ensures var s' := Step(s, c, Release);
            && s'.table == s.table && s'.children == s.children && s'.created == s.created && s'.closes == s.closes
            && s'.lock.Free? && ListOf(s') == ListOf(s) && LockInv(s')
  {
    hide NoDup;
  }

  lemma ReleaseEnds(s: State, c: CallId, d: CallId)
    requires LockInv(s) && s.lock.Acted? && s.lock.call == c && SlotInv(s, d) && |CallOf(s, c).slots| == 4
    requires CallInv(CallOf(s, c)) && CallInv(After(CallOf(s, c), s.lock.byWriter, s.lock.effect))
    ensures SameEnds(s, Step(s, c, Release), d)
  {
    hide NoDup;
  }

  lemma AcquireInv(s: State, c: CallId, w: bool)
    requires Inv(s) && s.lock.Free?
    ensures Inv(Step(s, c, Acquire(w)))
  {
    var s' := Step(s, c, Acquire(w));
    forall d ensures SameEnds(s, s', d) {
      assert SlotInv(s, d);
    }
    Quiet(s, s');
  }

  /** The system call inside the critical section failed: descriptors stay. */
  lemma NoDescriptorInv(s: State, c: CallId, w: bool, ev: Event)
    requires Inv(s) && s.lock == Entered(c, w) && (ev.CreateFail? || ev.ForkFail?)
    ensures Inv(Step(s, c, ev))
  {
    var s' := Step(s, c, ev);
    if s' != s {
      var effect := if ev.CreateFail? then CreateFailed else ForkFailed;
      FailedStep(s, c, w, ev);
      forall d ensures SameEnds(s, s', d) {
        assert SlotInv(s, d);
        FailedEnds(s, c, w, effect, d);
      }
      hide SlotsOf, FutureEnds, SameEnds, FdInv, SlotInv, Step;
      Quiet(s, s');
    }
  }

  lemma FailedStep(s: State, c: CallId, w: bool, ev: Event)
    requires LockInv(s) && s.lock == Entered(c, w) && (ev.CreateFail? || ev.ForkFail?)
    ensures var effect, s' := if ev.CreateFail? then CreateFailed else ForkFailed, Step(s, c, ev);
            s' != s ==> s' == s.(lock := Acted(c, w, effect)) && LockInv(s') && ListOf(s') == ListOf(s)
  {
  }

  lemma FailedEnds(s: State, c: CallId, w: bool, effect: Effect, d: CallId)
    requires s.lock == Entered(c, w) && (effect.CreateFailed? || effect.ForkFailed?) && SlotInv(s, d)
    ensures SameEnds(s, s.(lock := Acted(c, w, effect)), d)
  {
    hide CallInv;
  }

  lemma ForkInv(s: State, c: CallId, w: bool)
    requires Inv(s) && s.lock == Entered(c, w)
    ensures Inv(Step(s, c, ForkOk))
  {
    var s' := Step(s, c, ForkOk);
    assert SlotInv(s, c);
    if s' != s {
      ForkStep(s, c, w);
      var mid := s.(lock := Acted(c, w, Forked));
      forall d ensures SameEnds(s, mid, d) {
        assert SlotInv(s, d);
        ForkEnds(s, c, w, d);
      }
      ForkedSnapshot(s, c);
      hide SlotsOf, FutureEnds, SameEnds, FdInv, SlotInv, Step, ChildInv;
      Quiet(s, mid);
      ChildrenOnly(mid, s', c);
    }
  }

  lemma ForkStep(s: State, c: CallId, w: bool)
    requires LockInv(s) && s.lock == Entered(c, w) && SlotInv(s, c) && s != Step(s, c, ForkOk)
    ensures CallOf(s, c).main.Forking? && !w
    ensures var mid := s.(lock := Acted(c, w, Forked));
            && Step(s, c, ForkOk) == mid.(children := s.children[c := Pre(s.table, s.list, CallOf(s, c).slots)])
            && LockInv(mid) && ListOf(mid) == ListOf(s) && ListOf(s) == s.list
  {
  }

  lemma ForkEnds(s: State, c: CallId, w: bool, d: CallId)
    requires s.lock == Entered(c, w) && SlotInv(s, d)
    ensures SameEnds(s, s.(lock := Acted(c, w, Forked)), d)
  {
    hide CallInv;
  }

  /** What the child inherits: all four ends of its call, and the list of all open pipes. */
  lemma ForkedSnapshot(s: State, c: CallId)
    requires Inv(s) && s.lock.Entered? && CallOf(s, c).main.Forking?
    ensures forall s': State :: c in s'.children && s'.children[c] == Pre(s.table, s.list, CallOf(s, c).slots) ==>
              ChildInv(s', c)
  {
    assert SlotInv(s, c);
    forall fd ensures fd in s.list <==> IsPipe(s.table, fd) {
      assert FdInv(s, fd);
    }
    assert FdInv(s, 0) && FdInv(s, 1) && FdInv(s, 2);
  }

  lemma ChildrenOnly(s: State, s': State, c: CallId)
    requires Inv(s) && s' == s.(children := s'.children) && ChildInv(s', c)
    requires forall d :: d != c ==> (d in s'.children <==> d in s.children)
    requires forall d :: d != c && d in s'.children ==> s'.children[d] == s.children[d]
    ensures Inv(s')
  {
    forall fd ensures FdInv(s', fd) {
      assert FdInv(s, fd);
    }
    forall d ensures SlotInv(s', d) && ChildInv(s', d) {
      assert SlotInv(s, d) && ChildInv(s, d);
      assert SlotsOf(s', d) == SlotsOf(s, d);
    }
    forall d, k: nat | k < 4 ensures CloseInv(s', d, k) {
      assert CloseInv(s, d, k);
    }
  }

  lemma CreateInv(s: State, c: CallId, w: bool, a: int, b: int)
    requires Inv(s) && s.lock == Entered(c, w)
    ensures Inv(Step(s, c, CreateOk(a, b)))
  {
    var s' := Step(s, c, CreateOk(a, b));
    var call := CallOf(s, c);
    assert SlotInv(s, c);
    if OpOf(call, w).Create? && s' != s {
      var j := OpOf(call, w).j;
      assert call.slots[2 * j] == -1 && call.slots[2 * j + 1] == -1;
      assert FdInv(s, 0) && FdInv(s, 1) && FdInv(s, 2) && FdInv(s, a) && FdInv(s, b);
      assert forall d :: d != c ==> SlotsOf(s', d) == SlotsOf(s, d) && FutureEnds(s', d) == FutureEnds(s, d);
      CreateView(s, s', c, j, a, b);
    }
  }

  /** Two fresh descriptors become the two ends of the j-th pipe of call c. */
  lemma CreateView(s: State, s': State, c: CallId, j: nat, a: int, b: int)
    requires Inv(s) && LockInv(s') && j < 2
    requires a > 2 && b > 2 && a != b && a !in s.table && b !in s.table
    requires |SlotsOf(s, c)| == 4 && SlotsOf(s, c)[2 * j] == SlotsOf(s, c)[2 * j + 1] == -1
    requires {2 * j, 2 * j + 1} <= FutureEnds(s, c)
    requires s'.table == s.table[a := Pipe(c, 2 * j)][b := Pipe(c, 2 * j + 1)]
    requires s'.created == s.created + {(c, 2 * j), (c, 2 * j + 1)}
    requires s'.closes == s.closes && s'.children == s.children && s'.calls == s.calls
    requires ListOf(s') == ListOf(s) + [a, b]
    requires SlotsOf(s', c) == SlotsOf(s, c)[2 * j := a][2 * j + 1 := b]
    requires FutureEnds(s', c) == FutureEnds(s, c) - {2 * j, 2 * j + 1}
    requires forall d :: d != c ==> SlotsOf(s', d) == SlotsOf(s, d) && FutureEnds(s', d) == FutureEnds(s, d)
    ensures Inv(s')
  {
    hide SlotsOf, ListOf, FutureEnds, CallInv, LockInv, ClosedTimes;
    forall fd ensures FdInv(s', fd) {
      assert FdInv(s, fd);
    }
    forall d ensures SlotInv(s', d) && ChildInv(s', d) {
      assert SlotInv(s, d) && ChildInv(s, d);
    }
    forall d, k: nat | k < 4 ensures CloseInv(s', d, k) {
      assert CloseInv(s, d, k);
    }
  }

  lemma CloseFdInv(s: State, c: CallId, w: bool)
    requires Inv(s) && s.lock == Entered(c, w)
    ensures Inv(Step(s, c, CloseFd))
  {
    var s' := Step(s, c, CloseFd);
    var call := CallOf(s, c);
    assert SlotInv(s, c);
    if OpOf(call, w).Close? {
      var k := OpOf(call, w).k;
      CloseOpOpen(call, w);
      assert FdInv(s, call.slots[k]);
      EraseRemoves(s.list, call.slots[k]);
      assert forall d :: d != c ==> SlotsOf(s', d) == SlotsOf(s, d) && FutureEnds(s', d) == FutureEnds(s, d);
      CloseView(s, s', c, k, call.slots[k]);
    }
  }

  /** The descriptor of end k of call c is gone. */
  lemma CloseView(s: State, s': State, c: CallId, k: nat, fd: int)
    requires Inv(s) && LockInv(s') && k < 4
    requires |SlotsOf(s, c)| == 4 && SlotsOf(s, c)[k] == fd != -1
    requires s'.table == s.table - {fd} && fd in s.table
    requires s'.created == s.created && s'.children == s.children && s'.calls == s.calls
    requires s'.closes == s.closes + [CloseRec(c, k, Some(s.table[fd]))]
    requires forall x :: x in ListOf(s') <==> x in ListOf(s) && x != fd
    requires SlotsOf(s', c) == SlotsOf(s, c)[k := -1] && FutureEnds(s', c) == FutureEnds(s, c)
    requires forall d :: d != c ==> SlotsOf(s', d) == SlotsOf(s, d) && FutureEnds(s', d) == FutureEnds(s, d)
    ensures Inv(s')
  {
    hide SlotsOf, ListOf, FutureEnds, CallInv, LockInv, ClosedTimes;
    assert SlotInv(s, c) && CloseInv(s, c, k) && FdInv(s, fd);
    forall x ensures FdInv(s', x) {
      assert FdInv(s, x);
    }
    forall d ensures SlotInv(s', d) && ChildInv(s', d) {
      assert SlotInv(s, d) && ChildInv(s, d);
    }
    forall d, i: nat | i < 4 ensures CloseInv(s', d, i) {
      assert CloseInv(s, d, i);
      ClosedTimesSnoc(s.closes, CloseRec(c, k, Some(s.table[fd])), d, i);
    }
  }

  lemma ClosedTimesSnoc(closes: seq<CloseRec>, x: CloseRec, c: CallId, k: nat)
    ensures ClosedTimes(closes + [x], c, k)
         == ClosedTimes(closes, c, k) + (if x.call == c && x.k == k then 1 else 0)
  {
    assert (closes + [x])[..|closes|] == closes;
  }

  /** A thread that wants to close an end has that end open: no double close, no close of -1. */
  lemma CloseOpOpen(call: Call, w: bool)
    requires CallInv(call) && OpOf(call, w).Close?
    ensures OpOf(call, w).k < 4 && call.slots[OpOf(call, w).k] != -1
  {
  }

  lemma OtherFdInv(s: State, c: CallId, ev: Event)
    requires Inv(s) && (ev.OpenOther? || ev.CloseOther?)
    ensures Inv(Local(s, c, ev))
  {
    var s' := Local(s, c, ev);
    assert FdInv(s, ev.fd);
    if s' != s {
      OtherFdView(s, s', ev.fd);
    }
  }

  /** Descriptor fd, which is no pipe, appeared or disappeared. */
  lemma OtherFdView(s: State, s': State, fd: int)
    requires Inv(s) && s' == s.(table := s'.table)
    requires forall x :: x != fd ==> (x in s'.table <==> x in s.table)
    requires forall x :: x != fd && x in s.table ==> s'.table[x] == s.table[x]
    requires !IsPipe(s.table, fd) && !IsPipe(s'.table, fd) && (fd in {0, 1, 2} ==> fd in s'.table)
    ensures Inv(s')
  {
    assert forall d :: SlotsOf(s', d) == SlotsOf(s, d);
    assert forall d :: FutureEnds(s', d) == FutureEnds(s, d);
    assert forall d :: CallOf(s', d) == CallOf(s, d);
    assert ListOf(s') == ListOf(s);
    hide SlotsOf, ListOf, FutureEnds, CallInv, CallOf, ClosedTimes;
    forall x ensures FdInv(s', x) {
      assert FdInv(s, x);
    }
    forall d ensures SlotInv(s', d) && ChildInv(s', d) {
      assert SlotInv(s, d) && ChildInv(s, d);
    }
    forall d, k: nat | k < 4 ensures CloseInv(s', d, k) {
      assert CloseInv(s, d, k);
    }
  }

  lemma ChildExecInv(s: State, c: CallId)
    requires Inv(s)
    ensures Inv(Local(s, c, ChildExec))
  {
    var s' := Local(s, c, ChildExec);
    if s' != s {
      assert ChildInv(s, c);
      ChildrenOnly(s, s', c);
    }
  }

  /** Moves of a main or writer thread outside the mutex leave its end slots alone. */
  lemma ThreadMoveInv(s: State, c: CallId, ev: Event)
    requires Inv(s)
    requires ev.Start? || ev.ReadDone? || ev.Join? || ev.Skip? || ev.WriteDone?
    ensures Inv(Local(s, c, ev))
  {
    var s' := Local(s, c, ev);
    if s' != s {
      var call, call' := CallOf(s, c), CallOf(s', c);
      assert SlotInv(s, c) && s' == Put(s, c, call');
      SkipSlots(call, call', ev);
      SameOp(s, c, call', ev);
      PutInv(s, c, call');
    }
  }

  lemma PutInv(s: State, c: CallId, call': Call)
    requires Inv(s) && CallInv(call') && call'.slots == CallOf(s, c).slots
    requires !s.lock.Free? && s.lock.call == c ==>
               OpOf(call', s.lock.byWriter) == OpOf(CallOf(s, c), s.lock.byWriter)
    requires FutureEnds(Put(s, c, call'), c) <= FutureEnds(s, c)
    ensures Inv(Put(s, c, call'))
  {
    var s' := Put(s, c, call');
    hide CallInv, OpOf;
    forall d ensures SameEnds(s, s', d) {
      assert SlotInv(s, d);
    }
    assert LockInv(s');
    Quiet(s, s');
  }

  /** The thread that moved is not the one inside the critical section. */
  lemma SameOp(s: State, c: CallId, call': Call, ev: Event)
    requires LockInv(s) && s != Local(s, c, ev) && call' == CallOf(Local(s, c, ev), c)
    requires ev.Start? || ev.ReadDone? || ev.Join? || ev.Skip? || ev.WriteDone?
    ensures !s.lock.Free? && s.lock.call == c ==>
              OpOf(call', s.lock.byWriter) == OpOf(CallOf(s, c), s.lock.byWriter)
    ensures FutureEnds(Put(s, c, call'), c) <= FutureEnds(s, c)
  {
  }

  lemma SkipSlots(call: Call, call': Call, ev: Event)
    requires CallInv(call) && call'.slots == call.slots
    requires match (ev, call.main)
             case (Start, Ready) => call' == call.(main := Creating(0))
             case (ReadDone, Reading) => call' == call.(main := ParentClose(2))
             case (Join, Joining) => call.writer.Done? && call' == call.(main := Dtor(2))
             case (Skip, Dtor(k)) => k < 4 && call.slots[k] == -1 && call' == call.(main := DtorNext(k))
             case (WriteDone, _) => call.writer.Writing? && call' == call.(writer := Closing)
             case _ => false
    ensures CallInv(call')
  {
    var slots := call.slots;
    assert slots == [slots[0], slots[1], slots[2], slots[3]];
  }

  lemma StepInv(s: State, c: CallId, ev: Event)
    requires Inv(s)
    ensures Inv(Step(s, c, ev))
  {
    match ev
    case OpenOther(_) => OtherFdInv(s, c, ev);
    case CloseOther(_) => OtherFdInv(s, c, ev);
    case ChildExec => ChildExecInv(s, c);
    case Start => ThreadMoveInv(s, c, ev);
    case ReadDone => ThreadMoveInv(s, c, ev);
    case WriteDone => ThreadMoveInv(s, c, ev);
    case Join => ThreadMoveInv(s, c, ev);
    case Skip => ThreadMoveInv(s, c, ev);
    case Acquire(w) => if s.lock.Free? { AcquireInv(s, c, w); }
    case Release => if s.lock.Acted? && s.lock.call == c { ReleaseInv(s, c); }
    case CreateOk(a, b) => if s.lock.Entered? && s.lock.call == c { CreateInv(s, c, s.lock.byWriter, a, b); }
    case CreateFail => if s.lock.Entered? && s.lock.call == c { NoDescriptorInv(s, c, s.lock.byWriter, ev); }
    case ForkOk => if s.lock.Entered? && s.lock.call == c { ForkInv(s, c, s.lock.byWriter); }
    case ForkFail => if s.lock.Entered? && s.lock.call == c { NoDescriptorInv(s, c, s.lock.byWriter, ev); }
    case CloseFd => if s.lock.Entered? && s.lock.call == c { CloseFdInv(s, c, s.lock.byWriter); }
  }

  lemma {:induction false} RunInv(s: State, schedule: seq<(CallId, Event)>)
    requires Inv(s)
    ensures Inv(Run(s, schedule))
    decreases |schedule|
  {
    if schedule != [] {
      StepInv(s, schedule[0].0, schedule[0].1);
      RunInv(Step(s, schedule[0].0, schedule[0].1), schedule[1..]);
    }
  }

  lemma InitInv(s: State)
    requires IsInit(s)
    ensures Inv(s)
  {
    assert forall c :: SlotInv(s, c);
    assert forall fd :: FdInv(s, fd);
  }

  // ---------------------------------------------------------------- main results

  /** Whenever the mutex is free, the global list is exactly the set of open pipe descriptors. */
  lemma ListIsOpenPipes(s0: State, schedule: seq<(CallId, Event)>)
    requires IsInit(s0) && Run(s0, schedule).lock.Free?
    ensures var s := Run(s0, schedule);
            NoDup(s.list) && forall fd :: fd in s.list <==> IsPipe(s.table, fd)
  {
    InitInv(s0);
    RunInv(s0, schedule);
    var s := Run(s0, schedule);
    forall fd ensures fd in s.list <==> IsPipe(s.table, fd) {
      assert FdInv(s, fd);
    }
  }

  /** A child that reaches execvp has its own two ends on 0, 1 and 2 and no other pipe end. */
  lemma ExecHoldsOwnEndsOnly(s0: State, schedule: seq<(CallId, Event)>, c: CallId)
    requires IsInit(s0)
    requires var s := Run(s0, schedule); c in s.children && s.children[c].Exec?
    ensures OwnEndsOnly(Run(s0, schedule).children[c].table, c)
  {
    InitInv(s0);
    RunInv(s0, schedule);
    assert ChildInv(Run(s0, schedule), c);
  }

  ghost predicate AllExec(children: map<CallId, Child>) {
    forall d :: d in children ==> children[d].Exec?
  }

  /**
   * Why the list exists: once the parent closed the stdin write end of a call, and every forked
   * child has reached execvp, nobody holds that end, so its reader sees end of file. The same for
   * a stdout write end, except in the child it belongs to.
   */
  lemma WriteEndsGoAway(s0: State, schedule: seq<(CallId, Event)>, c: CallId)
    requires IsInit(s0)
    requires AllExec(Run(s0, schedule).children)
    ensures var s := Run(s0, schedule);
            && |SlotsOf(s, c)| == 4
            && (SlotsOf(s, c)[1] == -1 ==> forall fd :: fd in s.table ==> s.table[fd] != Pipe(c, 1))
            && (SlotsOf(s, c)[3] == -1 ==> forall fd :: fd in s.table ==> s.table[fd] != Pipe(c, 3))
            && (forall d, fd :: d in s.children && fd in s.children[d].table ==>
                  && s.children[d].table[fd] != Pipe(c, 1)
                  && (s.children[d].table[fd] == Pipe(c, 3) ==> d == c))
  {
    InitInv(s0);
    RunInv(s0, schedule);
    var s := Run(s0, schedule);
    assert SlotInv(s, c);
    forall fd | fd in s.table
      ensures s.table[fd] == Pipe(c, 1) ==> SlotsOf(s, c)[1] != -1
      ensures s.table[fd] == Pipe(c, 3) ==> SlotsOf(s, c)[3] != -1
    {
      assert FdInv(s, fd);
    }
    forall d, fd | d in s.children && fd in s.children[d].table
      ensures s.children[d].table[fd] != Pipe(c, 1)
      ensures s.children[d].table[fd] == Pipe(c, 3) ==> d == c
    {
      assert ChildInv(s, d) && s.children[d].Exec? && OwnEndsOnly(s.children[d].table, d);
      if s.children[d].table[fd].Pipe? {
        assert IsPipe(s.children[d].table, fd);
      }
    }
  }

  /**
   * Every close() of the parent hits the end it was meant for and no other descriptor, no end is
   * closed twice, and a call that returned has closed every end it opened exactly once.
   */
  lemma ClosedExactlyOnce(s0: State, schedule: seq<(CallId, Event)>, c: CallId, k: nat)
    requires IsInit(s0) && k < 4
    ensures var s := Run(s0, schedule);
            && CloseHits(s)
            && ClosedTimes(s.closes, c, k) <= 1
            && (ClosedTimes(s.closes, c, k) == 1 ==> (c, k) in s.created)
            && (CallOf(s, c).main.Returned? && (c, k) in s.created ==> ClosedTimes(s.closes, c, k) == 1)
  {
    InitInv(s0);
    RunInv(s0, schedule);
    var s := Run(s0, schedule);
    assert CloseInv(s, c, k) && SlotInv(s, c);
  }

  /** When Close is about to erase a descriptor from the list, `find` has found it. */
  lemma FindNeverMisses(s0: State, schedule: seq<(CallId, Event)>)
    requires IsInit(s0)
    ensures var s := Run(s0, schedule);
            s.lock.Acted? && s.lock.effect.Closed? ==> s.lock.effect.fd in s.list
  {
    InitInv(s0);
    RunInv(s0, schedule);
  }

  // ---------------------------------------------------------------- a call on its own

  /** Taking the mutex, one system call under it, giving the mutex back. */
  function Section(s: State, c: CallId, byWriter: bool, ev: Event): (r: State) {
    Step(Step(Step(s, c, Acquire(byWriter)), c, ev), c, Release)
  }

  function Sections(c: CallId, byWriter: bool, ev: Event): (r: seq<(CallId, Event)>) {
    [(c, Acquire(byWriter)), (c, ev), (c, Release)]
  }

  lemma RunSection(s: State, c: CallId, byWriter: bool, ev: Event, rest: seq<(CallId, Event)>)
    ensures Run(s, Sections(c, byWriter, ev) + rest) == Run(Section(s, c, byWriter, ev), rest)
  {
    hide Step, Run;
    var e1, e2, e3 := (c, Acquire(byWriter)), (c, ev), (c, Release);
    assert Sections(c, byWriter, ev) + rest == [e1] + ([e2] + ([e3] + rest));
    RunEvent(s, c, Acquire(byWriter), [e2] + ([e3] + rest));
    RunEvent(Step(s, c, Acquire(byWriter)), c, ev, [e3] + rest);
    RunEvent(Step(Step(s, c, Acquire(byWriter)), c, ev), c, Release, rest);
  }

  lemma RunEvent(s: State, c: CallId, ev: Event, rest: seq<(CallId, Event)>)
    ensures Run(s, [(c, ev)] + rest) == Run(Step(s, c, ev), rest)
  {
    hide Step;
    assert ([(c, ev)] + rest)[1..] == rest;
  }

  /** pipe() succeeds: two descriptors, two list entries, two end slots. */
  lemma CreateSection(s: State, c: CallId, j: nat, a: int, b: int)
    requires s.lock.Free? && CallOf(s, c).main == Creating(j) && j < 2 && |CallOf(s, c).slots| == 4
    requires a != b && a !in s.table && b !in s.table && a >= 0 && b >= 0
    ensures var s', call := Section(s, c, false, CreateOk(a, b)), CallOf(s, c);
            && s'.lock.Free? && s'.table == s.table[a := Pipe(c, 2 * j)][b := Pipe(c, 2 * j + 1)]
            && s'.list == s.list + [a, b] && s'.children == s.children
            && CallOf(s', c) == Call(if j == 0 then Creating(1) else Forking, call.writer,
                                     call.slots[2 * j := a][2 * j + 1 := b])
  {
  }

  lemma CreateFails(s: State, c: CallId, j: nat)
    requires s.lock.Free? && CallOf(s, c).main == Creating(j) && |CallOf(s, c).slots| == 4
    ensures var s', call := Section(s, c, false, CreateFail), CallOf(s, c);
            && s'.lock.Free? && s'.table == s.table && s'.list == s.list && s'.children == s.children
            && CallOf(s', c) == call.(main := Dtor(2))
  {
  }

  /** fork() copies table and list; if it fails the ends are closed by the destructors. */
  lemma ForkSection(s: State, c: CallId, ok: bool)
    requires s.lock.Free? && CallOf(s, c).main == Forking && |CallOf(s, c).slots| == 4
    ensures var s', call := Section(s, c, false, if ok then ForkOk else ForkFail), CallOf(s, c);
            && s'.lock.Free? && s'.table == s.table && s'.list == s.list
            && s'.children == (if ok then s.children[c := Pre(s.table, s.list, call.slots)] else s.children)
            && CallOf(s', c) == call.(main := if ok then ParentClose(0) else Dtor(2))
  {
  }

  /** Where the main thread goes on after closing an end. */
  function AfterClose(main: Main): (r: Main) {
    match main
    case ParentClose(k) => if k == 0 then ParentClose(3) else if k == 3 then Reading else Joining
    case Dtor(k) => if k == 2 then Dtor(3) else if k == 3 then Dtor(0) else if k == 0 then Dtor(1) else Returned
    case other => other
  }

  lemma CloseSection(s: State, c: CallId, k: nat)
    requires s.lock.Free? && |CallOf(s, c).slots| == 4 && k < 4
    requires CallOf(s, c).main == ParentClose(k) || (CallOf(s, c).main == Dtor(k) && CallOf(s, c).slots[k] != -1)
    ensures var s', call := Section(s, c, false, CloseFd), CallOf(s, c);
            && s'.lock.Free? && s'.table == s.table - {call.slots[k]} && s'.list == Erase(s.list, call.slots[k])
            && s'.children == s.children
            && CallOf(s', c) == Call(AfterClose(call.main), if call.main == ParentClose(3) then Writing else call.writer,
                                     call.slots[k := -1])
  {
  }

  lemma WriterSection(s: State, c: CallId)
    requires s.lock.Free? && |CallOf(s, c).slots| == 4 && CallOf(s, c).writer.Closing?
    ensures var s', call := Section(s, c, true, CloseFd), CallOf(s, c);
            && s'.lock.Free? && s'.table == s.table - {call.slots[1]} && s'.list == Erase(s.list, call.slots[1])
            && s'.children == s.children
            && CallOf(s', c) == Call(call.main, Done, call.slots[1 := -1])
  {
  }

  /** The ends of one call, in the order of its slots. */
  predicate FreshEnds(table: Table, ends: seq<int>) {
    |ends| == 4 && NoDup(ends) && forall k :: 0 <= k < 4 ==> ends[k] >= 0 && ends[k] !in table
  }

  function WithEnds(table: Table, c: CallId, ends: seq<int>): (r: Table)
    requires |ends| == 4
  {
    table[ends[0] := Pipe(c, 0)][ends[1] := Pipe(c, 1)][ends[2] := Pipe(c, 2)][ends[3] := Pipe(c, 3)]
  }

  /** Up to the fork: both pipes exist and are listed. */
  lemma Opens(s: State, c: CallId, ends: seq<int>) returns (schedule: seq<(CallId, Event)>, s': State)
    requires s.lock.Free? && s.list == [] && c !in s.calls && FreshEnds(s.table, ends)
    ensures s'.lock.Free? && s'.table == WithEnds(s.table, c, ends) && s'.list == ends && s'.children == s.children
    ensures CallOf(s', c) == Call(Forking, NotSpawned, ends)
    ensures forall rest :: Run(s, schedule + rest) == Run(s', rest)
  {
    hide Section, Run, Sections, Step;
    var s1 := Step(s, c, Start);
    Starts(s, c);
    var s2 := Section(s1, c, false, CreateOk(ends[0], ends[1]));
    CreateSection(s1, c, 0, ends[0], ends[1]);
    s' := Section(s2, c, false, CreateOk(ends[2], ends[3]));
    CreateSection(s2, c, 1, ends[2], ends[3]);
    var first, second := Sections(c, false, CreateOk(ends[0], ends[1])), Sections(c, false, CreateOk(ends[2], ends[3]));
    schedule := [(c, Start)] + (first + second);
    assert [] + [ends[0], ends[1]] + [ends[2], ends[3]] == ends;
    assert CallOf(s', c).slots == ends;
    forall rest ensures Run(s, schedule + rest) == Run(s', rest) {
      assert schedule + rest == [(c, Start)] + (first + (second + rest));
      RunEvent(s, c, Start, first + (second + rest));
      RunSection(s1, c, false, CreateOk(ends[0], ends[1]), second + rest);
      RunSection(s2, c, false, CreateOk(ends[2], ends[3]), rest);
    }
  }

  lemma Starts(s: State, c: CallId)
    requires c !in s.calls && s.lock.Free?
    ensures Step(s, c, Start) == s.(calls := s.calls[c := Call(Creating(0), NotSpawned, [-1, -1, -1, -1])])
  {
  }

  /** After both exchanges are over, nothing of the call is left in the parent. */
  lemma Gone(table: Table, c: CallId, ends: seq<int>)
    requires FreshEnds(table, ends)
    ensures WithEnds(table, c, ends) - {ends[0]} - {ends[3]} - {ends[2]} - {ends[1]} == table
    ensures WithEnds(table, c, ends) - {ends[2]} - {ends[3]} - {ends[0]} - {ends[1]} == table
    ensures Erase(Erase(Erase(Erase(ends, ends[0]), ends[3]), ends[2]), ends[1]) == []
    ensures Erase(Erase(Erase(Erase(ends, ends[2]), ends[3]), ends[0]), ends[1]) == []
  {
    assert ends == [ends[0], ends[1], ends[2], ends[3]];
    EraseFrom(ends);
  }

  lemma EraseFrom(ends: seq<int>)
    requires |ends| == 4 && NoDup(ends)
    ensures Erase(ends, ends[0]) == [ends[1], ends[2], ends[3]]
    ensures Erase([ends[1], ends[2], ends[3]], ends[3]) == [ends[1], ends[2]]
    ensures Erase([ends[1], ends[2]], ends[2]) == [ends[1]] && Erase([ends[1]], ends[1]) == []
    ensures Erase(ends, ends[2]) == [ends[0], ends[1], ends[3]]
    ensures Erase([ends[0], ends[1], ends[3]], ends[3]) == [ends[0], ends[1]]
    ensures Erase([ends[0], ends[1]], ends[0]) == [ends[1]]
  {
    var a, b, x, d := ends[0], ends[1], ends[2], ends[3];
    assert ends == [a, b, x, d] && [a, b, x, d][1..] == [b, x, d] && [b, x, d][1..] == [x, d] && [x, d][1..] == [d];
    assert [d][1..] == [] && [b, x][1..] == [x] && [x][1..] == [] && [b][1..] == [];
    assert [a, b, d][1..] == [b, d] && [b, d][1..] == [d] && [a, b][1..] == [b];
    assert Erase([x, d], x) == [d] && Erase([b, x, d], x) == [b, d];
    assert Erase([d], d) == [] && Erase([x, d], d) == [x] && Erase([b, d], d) == [b];
  }

  lemma LocalMoves(s: State, c: CallId, ev: Event)
    requires s.lock.Free? && |CallOf(s, c).slots| == 4
    ensures var s', call := Step(s, c, ev), CallOf(s, c);
            && (ev.ReadDone? && call.main.Reading? ==> s' == Put(s, c, call.(main := ParentClose(2))))
            && (ev.WriteDone? && call.writer.Writing? ==> s' == Put(s, c, call.(writer := Closing)))
            && (ev.Join? && call.main.Joining? && call.writer.Done? ==> s' == Put(s, c, call.(main := Dtor(2))))
            && (ev.Skip? && call.main.Dtor? && call.main.k < 4 && call.slots[call.main.k] == -1 ==>
                  s' == Put(s, c, call.(main := AfterClose(call.main))))
  {
  }

  /** The child's steps up to execvp leave the parent alone. */
  lemma ChildRuns(s: State, c: CallId, ends: seq<int>)
    requires s.lock.Free? && c in s.children && |ends| == 4
    requires s.children[c].Pre? && s.children[c].slots == ends
    requires ends[0] in s.children[c].table && ends[3] in s.children[c].table
    ensures Step(s, c, ChildExec)
         == s.(children := s.children[c := Exec(ExecTable(s.children[c].table, s.children[c].list, ends))])
  {
    hide ExecTable;
  }

  lemma RunEnd(s: State)
    ensures Run(s, []) == s
  {
  }

  /**
   * PipeCall on its own, from the first pipe to the last destructor: the child reaches execvp, the parent
   * returns, and table and list are as before.
   */
  lemma CallRunsThrough(s: State, c: CallId, ends: seq<int>) returns (schedule: seq<(CallId, Event)>)
    requires s.lock.Free? && s.list == [] && c !in s.calls && FreshEnds(s.table, ends)
    ensures var s' := Run(s, schedule);
            && CallOf(s', c) == Call(Returned, Done, [-1, -1, -1, -1])
            && s'.lock.Free? && s'.table == s.table && s'.list == []
            && s'.children == s.children[c := Exec(ExecTable(WithEnds(s.table, c, ends), ends, ends))]
  {
    hide Section, Run, Sections, Step, WithEnds, ExecTable, Erase;
    var opening, s1 := Opens(s, c, ends);
    var s2 := Section(s1, c, false, ForkOk);
    ForkSection(s1, c, true);
    var s3 := Step(s2, c, ChildExec);
    HasEnds(s.table, c, ends);
    ChildRuns(s2, c, ends);
    var middle, s4 := Exchanges(s3, c, ends);
    var ending := Returns(s4, c);
    Gone(s.table, c, ends);
    var rest := middle + ending;
    schedule := opening + (Sections(c, false, ForkOk) + ([(c, ChildExec)] + rest));
    RunSection(s1, c, false, ForkOk, [(c, ChildExec)] + rest);
    RunEvent(s2, c, ChildExec, rest);
  }

  lemma HasEnds(table: Table, c: CallId, ends: seq<int>)
    requires FreshEnds(table, ends)
    ensures ends[0] in WithEnds(table, c, ends) && ends[3] in WithEnds(table, c, ends)
  {
  }

  /** From the fork to the join: the parent closes the child's ends, then each side its own when it is through. */
  lemma Exchanges(s: State, c: CallId, ends: seq<int>) returns (schedule: seq<(CallId, Event)>, s': State)
    requires s.lock.Free? && |ends| == 4 && CallOf(s, c) == Call(ParentClose(0), NotSpawned, ends)
    ensures s'.lock.Free? && s'.children == s.children
    ensures s'.table == s.table - {ends[0]} - {ends[3]} - {ends[2]} - {ends[1]}
    ensures s'.list == Erase(Erase(Erase(Erase(s.list, ends[0]), ends[3]), ends[2]), ends[1])
    ensures CallOf(s', c) == Call(Joining, Done, [-1, -1, -1, -1])
    ensures forall rest :: Run(s, schedule + rest) == Run(s', rest)
  {
    hide Section, Run, Sections, Step, Erase;
    var s1 := Section(s, c, false, CloseFd);
    CloseSection(s, c, 0);
    var s2 := Section(s1, c, false, CloseFd);
    CloseSection(s1, c, 3);
    var s3 := Step(s2, c, ReadDone);
    LocalMoves(s2, c, ReadDone);
    var s4 := Section(s3, c, false, CloseFd);
    CloseSection(s3, c, 2);
    var s5 := Step(s4, c, WriteDone);
    LocalMoves(s4, c, WriteDone);
    s' := Section(s5, c, true, CloseFd);
    WriterSection(s5, c);
    assert CallOf(s', c).slots == [-1, -1, -1, -1];
    var close, writer := Sections(c, false, CloseFd), Sections(c, true, CloseFd);
    schedule := close + (close + ([(c, ReadDone)] + (close + ([(c, WriteDone)] + writer))));
    forall rest ensures Run(s, schedule + rest) == Run(s', rest) {
      var r5 := writer + rest;
      var r4 := [(c, WriteDone)] + r5;
      var r3 := close + r4;
      var r2 := [(c, ReadDone)] + r3;
      assert schedule + rest == close + (close + r2);
      RunSection(s, c, false, CloseFd, close + r2);
      RunSection(s1, c, false, CloseFd, r2);
      RunEvent(s2, c, ReadDone, r3);
      RunSection(s3, c, false, CloseFd, r4);
      RunEvent(s4, c, WriteDone, r5);
      RunSection(s5, c, true, CloseFd, rest);
    }
  }

  /** After the join the destructors find nothing to close. */
  lemma Returns(s: State, c: CallId) returns (schedule: seq<(CallId, Event)>)
    requires s.lock.Free? && CallOf(s, c) == Call(Joining, Done, [-1, -1, -1, -1])
    ensures var s' := Run(s, schedule);
            && s'.lock.Free? && s'.table == s.table && s'.list == s.list && s'.children == s.children
            && CallOf(s', c) == Call(Returned, Done, [-1, -1, -1, -1])
  {
    hide Run, Step;
    var s1 := Step(s, c, Join);
    LocalMoves(s, c, Join);
    var s2 := Step(s1, c, Skip);
    LocalMoves(s1, c, Skip);
    var s3 := Step(s2, c, Skip);
    LocalMoves(s2, c, Skip);
    var s4 := Step(s3, c, Skip);
    LocalMoves(s3, c, Skip);
    var s5 := Step(s4, c, Skip);
    LocalMoves(s4, c, Skip);
    var skip := [(c, Skip)];
    schedule := [(c, Join)] + (skip + (skip + (skip + (skip + []))));
    RunEvent(s, c, Join, skip + (skip + (skip + (skip + []))));
    RunEvent(s1, c, Skip, skip + (skip + (skip + [])));
    RunEvent(s2, c, Skip, skip + (skip + []));
    RunEvent(s3, c, Skip, skip + []);
    RunEvent(s4, c, Skip, []);
    RunEnd(s5);
  }

  /** With a failing fork the destructors close all four ends. */
  lemma FailedForkRunsThrough(s: State, c: CallId, ends: seq<int>) returns (schedule: seq<(CallId, Event)>)
    requires s.lock.Free? && s.list == [] && c !in s.calls && FreshEnds(s.table, ends)
    ensures var s' := Run(s, schedule);
            && CallOf(s', c) == Call(Returned, NotSpawned, [-1, -1, -1, -1])
            && s'.lock.Free? && s'.table == s.table && s'.list == [] && s'.children == s.children
  {
    hide Section, Run, Sections, Step, WithEnds, Erase;
    var opening, s1 := Opens(s, c, ends);
    var s2 := Section(s1, c, false, ForkFail);
    ForkSection(s1, c, false);
    var s3 := Section(s2, c, false, CloseFd);
    CloseSection(s2, c, 2);
    var s4 := Section(s3, c, false, CloseFd);
    CloseSection(s3, c, 3);
    var s5 := Section(s4, c, false, CloseFd);
    CloseSection(s4, c, 0);
    var s6 := Section(s5, c, false, CloseFd);
    CloseSection(s5, c, 1);
    Gone(s.table, c, ends);
    assert CallOf(s6, c).slots == [-1, -1, -1, -1];
    var close := Sections(c, false, CloseFd);
    var rest := close + (close + (close + (close + [])));
    schedule := opening + (Sections(c, false, ForkFail) + rest);
    RunSection(s1, c, false, ForkFail, rest);
    RunSection(s2, c, false, CloseFd, close + (close + (close + [])));
    RunSection(s3, c, false, CloseFd, close + (close + []));
    RunSection(s4, c, false, CloseFd, close + []);
    RunSection(s5, c, false, CloseFd, []);
    RunEnd(s6);
  }

  /** A second pipe() that fails sends the call to its destructors with the first two ends. */
  lemma OpensHalf(s: State, c: CallId, a: int, b: int) returns (schedule: seq<(CallId, Event)>, s': State)
    requires s.lock.Free? && s.list == [] && c !in s.calls
    requires a != b && a !in s.table && b !in s.table && a >= 0 && b >= 0
    ensures s'.lock.Free? && s'.table == s.table[a := Pipe(c, 0)][b := Pipe(c, 1)] && s'.list == [a, b]
    ensures s'.children == s.children && CallOf(s', c) == Call(Dtor(2), NotSpawned, [a, b, -1, -1])
    ensures forall rest :: Run(s, schedule + rest) == Run(s', rest)
  {
    hide Section, Run, Sections, Step;
    var s1 := Step(s, c, Start);
    Starts(s, c);
    var s2 := Section(s1, c, false, CreateOk(a, b));
    CreateSection(s1, c, 0, a, b);
    s' := Section(s2, c, false, CreateFail);
    CreateFails(s2, c, 1);
    assert [] + [a, b] == [a, b];
    var first, second := Sections(c, false, CreateOk(a, b)), Sections(c, false, CreateFail);
    schedule := [(c, Start)] + (first + second);
    forall rest ensures Run(s, schedule + rest) == Run(s', rest) {
      assert schedule + rest == [(c, Start)] + (first + (second + rest));
      RunEvent(s, c, Start, first + (second + rest));
      RunSection(s1, c, false, CreateOk(a, b), second + rest);
      RunSection(s2, c, false, CreateFail, rest);
    }
  }

  /** With a failing second pipe() they close the two that the first one opened. */
  lemma FailedPipeRunsThrough(s: State, c: CallId, a: int, b: int) returns (schedule: seq<(CallId, Event)>)
    requires s.lock.Free? && s.list == [] && c !in s.calls
    requires a != b && a !in s.table && b !in s.table && a >= 0 && b >= 0
    ensures var s' := Run(s, schedule);
            && CallOf(s', c) == Call(Returned, NotSpawned, [-1, -1, -1, -1])
            && s'.lock.Free? && s'.table == s.table && s'.list == [] && s'.children == s.children
  {
    hide Section, Run, Sections, Step, Erase;
    var opening, s1 := OpensHalf(s, c, a, b);
    var s2 := Step(s1, c, Skip);
    LocalMoves(s1, c, Skip);
    var s3 := Step(s2, c, Skip);
    LocalMoves(s2, c, Skip);
    var s4 := Section(s3, c, false, CloseFd);
    CloseSection(s3, c, 0);
    var s5 := Section(s4, c, false, CloseFd);
    CloseSection(s4, c, 1);
    EraseTwo(a, b);
    assert s.table[a := Pipe(c, 0)][b := Pipe(c, 1)] - {a} - {b} == s.table;
    assert CallOf(s5, c).slots == [-1, -1, -1, -1];
    var close, skip := Sections(c, false, CloseFd), [(c, Skip)];
    var closes := close + (close + []);
    schedule := opening + (skip + (skip + closes));
    RunEvent(s1, c, Skip, skip + closes);
    RunEvent(s2, c, Skip, closes);
    RunSection(s3, c, false, CloseFd, close + []);
    RunSection(s4, c, false, CloseFd, []);
    RunEnd(s5);
  }

  lemma EraseTwo(a: int, b: int)
    ensures Erase(Erase([a, b], a), b) == []
  {
    assert [a, b][1..] == [b] && [b][1..] == [];
  }
}
