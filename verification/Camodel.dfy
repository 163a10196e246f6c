/**
 * The log queue of the cycle-accurate model: any number of producers, one consumer thread and any
 * number of SendSync callers around one mutex and one condition variable. A step is one critical section.
 */
module Camodel {
  import opened Bytes

  /** A serialized log message. */
  type Msg = seq<byte>

  /** Where the consumer thread stands; between popping a message and handing it to the sender it holds it. */
  datatype Consumer = AtTest | AtLock | Waiting | Sending(data: Msg) | Done

  /**
   * `waiting` are the threads asleep in SendSync and `woken` those of them that were notified since
   * they last looked. `sent` and `history` record what left and what ever entered the queue.
   */
  datatype State = State(queue: seq<Msg>, listening: bool, consumer: Consumer, waiting: set<nat>, woken: set<nat>,
                         sent: seq<Msg>, history: seq<Msg>)

  datatype Step =
    | SendCaLog(data: Msg)
    | Consume           // the consumer's next step; a wake-up when it sleeps
    | TimeOut           // its one-second wait expires
    | SyncEnter(t: nat)
    | SyncWake(t: nat)  // notified or spurious
    | ShutDown

  function Start(): (r: State) {
    State([], true, AtTest, {}, {}, [], [])
  }

  function NotifyAll(s: State): (r: State) {
    s.(woken := s.waiting)
  }

  function PopFront(s: State): (r: State)
    requires s.queue != []
  {
    s.(queue := s.queue[1..], consumer := Sending(s.queue[0]))
  }

  function ConsumerStep(s: State): (r: State) {
    match s.consumer
    case AtTest => s.(consumer := if s.listening then AtLock else Done)
    case AtLock => if s.queue == [] then NotifyAll(s).(consumer := Waiting) else PopFront(s)
    case Waiting => if s.queue == [] then s else PopFront(s)
    case Sending(data) => s.(sent := s.sent + [data], consumer := AtTest)
    case Done => s
  }

  function Next(s: State, step: Step): (r: State) {
    match step
    case SendCaLog(data) => NotifyAll(s.(queue := s.queue + [data], history := s.history + [data]))
    case Consume => ConsumerStep(s)
    case TimeOut =>
      if !s.consumer.Waiting? then s
      else if s.queue == [] then s.(consumer := AtTest) else PopFront(s)
    case SyncEnter(t) => if s.queue == [] || t in s.waiting then s else s.(waiting := s.waiting + {t})
    case SyncWake(t) =>
      if s.queue == [] then s.(waiting := s.waiting - {t}, woken := s.woken - {t}) else s.(woken := s.woken - {t})
    case ShutDown => s.(listening := false)
  }

  /** The step lets a SendSync call return. */
  predicate SyncReturns(s: State, step: Step) {
    && s.queue == []
    && (step.SyncEnter? || (step.SyncWake? && step.t in s.waiting))
  }

  function Run(s: State, steps: seq<Step>): (r: State)
    decreases |steps|
  {
    if steps == [] then s else Run(Next(s, steps[0]), steps[1..])
  }

  function InFlight(c: Consumer): (r: seq<Msg>)
    ensures |r| <= 1
  {
    if c.Sending? then [c.data] else []
  }

  /** Nothing is lost, doubled or reordered. */
  ghost predicate Flow(s: State) {
    s.sent + InFlight(s.consumer) + s.queue == s.history
  }

  /** No lost wake-up: the consumer is never asleep on an empty queue past an unnotified SendSync. */
  ghost predicate Waiters(s: State) {
    && s.woken <= s.waiting
    && (s.consumer.Done? ==> !s.listening)
    && (s.consumer.Waiting? && s.queue == [] ==> s.woken == s.waiting)
  }

  ghost predicate Inv(s: State) {
    Flow(s) && Waiters(s)
  }

  lemma FlowPop(sent: seq<Msg>, queue: seq<Msg>)
    requires queue != []
    ensures sent + [] + queue == sent + [queue[0]] + queue[1..]
  {
  }

  lemma StepFlow(s: State, step: Step)
    requires Flow(s)
    ensures Flow(Next(s, step))
  {
    if s.queue != [] {
      FlowPop(s.sent, s.queue);
    }
    match step
    case SendCaLog(data) =>
      assert s.sent + InFlight(s.consumer) + (s.queue + [data]) == s.sent + InFlight(s.consumer) + s.queue + [data];
    case Consume =>
      if s.consumer.Sending? {
        assert s.sent + [s.consumer.data] + [] + s.queue == s.sent + [s.consumer.data] + s.queue;
      }
    case _ =>
  }

  lemma StepWaiters(s: State, step: Step)
    requires Waiters(s)
    ensures Waiters(Next(s, step))
  {
  }

  lemma StepInv(s: State, step: Step)
    requires Inv(s)
    ensures Inv(Next(s, step))
  {
    hide Flow, Waiters, Next;
    StepFlow(s, step);
    StepWaiters(s, step);
  }

  /** Every message enqueued wakes all sleepers, which then look at the queue. */
  lemma EnqueueNotifies(s: State, data: Msg)
    ensures var s' := Next(s, SendCaLog(data));
            s'.woken == s.waiting && s'.history == s.history + [data] && s'.queue == s.queue + [data]
  {
  }

  /** Over every run, what was sent, is in flight (at most one message) and is queued is the enqueue history. */
  lemma {:induction false} RunInv(s: State, steps: seq<Step>)
    requires Inv(s)
    ensures Inv(Run(s, steps))
    decreases |steps|
  {
    hide Inv, Next;
    if steps != [] {
      StepInv(s, steps[0]);
      RunInv(Next(s, steps[0]), steps[1..]);
    }
  }

  /** Messages leave in the order in which they entered, each once. */
  lemma Fifo(steps: seq<Step>)
    ensures var s := Run(Start(), steps);
            s.sent <= s.history && |s.history| - |s.sent| == |InFlight(s.consumer)| + |s.queue|
  {
    RunInv(Start(), steps);
  }

  /** Whenever a SendSync returns, at most the newest message is unsent, and the consumer is holding it. */
  lemma SyncReturnsSent(steps: seq<Step>, step: Step)
    requires SyncReturns(Run(Start(), steps), step)
    ensures var s := Next(Run(Start(), steps), step);
            s.history == s.sent + InFlight(s.consumer) && |s.history| <= |s.sent| + 1
  {
    RunInv(Start(), steps);
    StepInv(Run(Start(), steps), step);
  }

  /** That one message can really be unsent: the queue is empty before its only message is sent. */
  lemma SyncReturnsEarly(data: Msg)
    ensures var steps := [SendCaLog(data), Consume, Consume];
            var s := Run(Start(), steps);
            SyncReturns(s, SyncEnter(0)) && s.history == [data] && s.sent == []
  {
    var s1 := Next(Start(), SendCaLog(data));
    var s2 := Next(s1, Consume);
    var s3 := Next(s2, Consume);
    var steps := [SendCaLog(data), Consume, Consume];
    assert steps[1..] == [Consume, Consume] && [Consume, Consume][1..] == [Consume] && [Consume][1..] == [];
    assert Run(s2, [Consume]) == Run(s3, []);
    assert Run(s1, [Consume, Consume]) == Run(s2, [Consume]);
  }

  // ---------------------------------------------------------------- progress while listening

  function Consumes(s: State, n: nat): (r: State)
    decreases n
  {
    if n == 0 then s else Consumes(ConsumerStep(s), n - 1)
  }

  /** The consumer's steps until it has sent everything and notified every waiter. */
  function Work(s: State): (r: nat) {
    3 * |s.queue| + match s.consumer
                    case Sending(_) => 3
                    case AtTest => 2
                    case AtLock => 1
                    case Waiting => if s.queue == [] then 0 else 1
                    case Done => 0
  }

  lemma WorkShrinks(s: State)
    requires Inv(s) && s.listening && Work(s) > 0
    ensures var s' := ConsumerStep(s);
            Work(s') == Work(s) - 1 && s'.listening && s'.history == s.history && s'.waiting == s.waiting
  {
  }

  /** From every reachable listening state the consumer, left alone, sends all messages and wakes all waiters. */
  lemma {:induction false} Drains(s: State)
    requires Inv(s) && s.listening
    ensures var s' := Consumes(s, Work(s));
            s'.sent == s.history && s'.queue == [] && s'.waiting == s'.woken == s.waiting
    decreases Work(s)
  {
    hide ConsumerStep;
    if Work(s) == 0 {
      assert s.consumer.Waiting? && s.queue == [];
    } else {
      StepInv(s, Consume);
      WorkShrinks(s);
      Drains(ConsumerStep(s));
    }
  }

  // ---------------------------------------------------------------- after shutdown

  /** Once the consumer has left its loop nothing more is sent, and a SendSync returns iff nothing was left behind. */
  lemma {:induction false} AfterDone(s: State, steps: seq<Step>)
    requires Inv(s) && s.consumer.Done?
    ensures var s' := Run(s, steps);
            s'.sent == s.sent && s'.consumer.Done? && s.queue <= s'.queue && s'.history == s'.sent + s'.queue
    decreases |steps|
  {
    hide Inv, Next;
    if steps == [] {
      DoneHistory(s);
    } else {
      StepInv(s, steps[0]);
      DoneStep(s, steps[0]);
      AfterDone(Next(s, steps[0]), steps[1..]);
    }
  }

  lemma DoneStep(s: State, step: Step)
    requires s.consumer.Done?
    ensures var s' := Next(s, step);
            s'.sent == s.sent && s'.consumer.Done? && s.queue <= s'.queue
  {
  }

  lemma DoneHistory(s: State)
    requires Inv(s) && s.consumer.Done?
    ensures s.history == s.sent + s.queue
  {
  }

  /** What the consumer left queued is lost, and a SendSync then never returns, whatever the other threads do. */
  lemma LostAfterDone(s: State, steps: seq<Step>, step: Step)
    requires Inv(s) && s.consumer.Done?
    ensures s.sent == s.history <==> s.queue == []
    ensures s.queue != [] ==> !SyncReturns(Run(s, steps), step) && Run(s, steps).sent != s.history
  {
    DoneHistory(s);
    AfterDone(s, steps);
    if s.queue != [] {
      assert |s.history| > |s.sent|;
    }
  }

  // ---------------------------------------------------------------- what a shutdown loses

  /** The messages that a consumer at this place can still take once the loop condition is false. */
  function MayPop(c: Consumer): (r: nat) {
    if c.AtLock? || c.Waiting? then 1 else 0
  }

  /** The messages that left the queue. */
  function Out(s: State): (r: nat) {
    |s.sent| + |InFlight(s.consumer)|
  }

  /** u is reached from a shutdown in s: the consumer takes at most one more message, and takes one if it can. */
  ghost predicate Stopping(s: State, u: State) {
    && Inv(u) && !u.listening && s.history <= u.history
    && Out(s) <= Out(u) && Out(u) + MayPop(u.consumer) <= Out(s) + MayPop(s.consumer)
    && (s.queue != [] ==> Out(u) + MayPop(u.consumer) == Out(s) + MayPop(s.consumer))
  }

  lemma StoppingStep(s: State, u: State, step: Step)
    requires Inv(s) && Stopping(s, u)
    ensures Stopping(s, Next(u, step))
  {
    StepInv(u, step);
    FlowLength(s);
    FlowLength(u);
  }

  lemma FlowLength(s: State)
    requires Inv(s)
    ensures |s.history| == Out(s) + |s.queue|
    ensures s.consumer.Done? ==> s.sent <= s.history
  {
  }

  lemma {:induction false} StoppingRun(s: State, u: State, steps: seq<Step>)
    requires Inv(s) && Stopping(s, u)
    ensures Stopping(s, Run(u, steps))
    decreases |steps|
  {
    hide Inv, Stopping, Next;
    if steps != [] {
      StoppingStep(s, u, steps[0]);
      StoppingRun(s, Next(u, steps[0]), steps[1..]);
    }
  }

  lemma StoppingStart(s: State)
    requires Inv(s)
    ensures Stopping(s, Next(s, ShutDown))
  {
    StepInv(s, ShutDown);
  }

  /**
   * Whatever all threads do after a shutdown, once the consumer has stopped it has sent the messages
   * enqueued before the shutdown exactly if at most one was queued and the consumer stood where it
   * takes one more, or none was queued. The rest is lost.
   */
  lemma ShutDownSendsAllIff(s: State, steps: seq<Step>)
    requires Inv(s) && s.listening && Run(Next(s, ShutDown), steps).consumer.Done?
    ensures s.history <= Run(Next(s, ShutDown), steps).sent <==> |s.queue| <= MayPop(s.consumer)
    ensures |Run(Next(s, ShutDown), steps).sent| <= Out(s) + MayPop(s.consumer)
  {
    var u := Run(Next(s, ShutDown), steps);
    StoppingStart(s);
    StoppingRun(s, Next(s, ShutDown), steps);
    FlowLength(s);
    FlowLength(u);
    if |s.history| <= |u.sent| {
      assert s.history == u.history[..|s.history|] == u.sent[..|s.history|];
    }
  }

  /** A shutdown does lose messages: one that was enqueued, with the consumer about to test its loop condition. */
  lemma ShutDownLoses(data: Msg)
    ensures var s := Next(Start(), SendCaLog(data));
            && Inv(s) && s.listening && s.history == [data]
            && Run(Next(s, ShutDown), [Consume]).consumer.Done? && Run(Next(s, ShutDown), [Consume]).sent == []
  {
    StepInv(Start(), SendCaLog(data));
    RunTail(Next(Next(Start(), SendCaLog(data)), ShutDown), [Consume]);
  }

  // ---------------------------------------------------------------- the consumer alone after a shutdown

  /** The consumer's next step when nobody else moves: asleep on an empty queue it wakes by its time limit. */
  function Alone(s: State): (r: State) {
    Next(s, if s.consumer.Waiting? && s.queue == [] then TimeOut else Consume)
  }

  function AloneSteps(s: State, n: nat): (r: State)
    decreases n
  {
    if n == 0 then s else AloneSteps(Alone(s), n - 1)
  }

  /** A SendSync asleep when the consumer has stopped, with messages it waits for or without a notification. */
  predicate Stranded(s: State, t: nat) {
    s.consumer.Done? && t in s.waiting && (s.queue != [] || t !in s.woken)
  }

  /** Left alone the consumer stops within four steps, with everything sent iff at most its last message was queued. */
  lemma StopsInFour(s: State)
    requires Inv(s) && s.listening
    ensures var u := AloneSteps(Next(s, ShutDown), 4);
            && Inv(u) && u.consumer.Done? && u.history == s.history && u.waiting == s.waiting
            && (u.sent == s.history <==> |s.queue| <= MayPop(s.consumer))
            && u.woken == if s.consumer.AtLock? && s.queue == [] then s.waiting else s.woken
  {
    hide Flow;
    var u0 := Next(s, ShutDown);
    var u1 := Alone(u0);
    var u2 := Alone(u1);
    var u3 := Alone(u2);
    var u4 := Alone(u3);
    StepInv(s, ShutDown);
    AloneInv(u0);
    AloneInv(u1);
    AloneInv(u2);
    AloneInv(u3);
    FourSteps(u0);
    FlowLength(s);
    FlowLength(u4);
    DoneHistory(u4);
  }

  lemma AloneInv(s: State)
    requires Inv(s)
    ensures Inv(Alone(s))
  {
    hide Inv, Next;
    StepInv(s, if s.consumer.Waiting? && s.queue == [] then TimeOut else Consume);
  }

  lemma FourSteps(s: State)
    ensures AloneSteps(s, 4) == Alone(Alone(Alone(Alone(s))))
  {
    hide Alone;
    assert AloneSteps(s, 4) == AloneSteps(Alone(s), 3);
    assert AloneSteps(Alone(s), 3) == AloneSteps(Alone(Alone(s)), 2);
    assert AloneSteps(Alone(Alone(s)), 2) == AloneSteps(Alone(Alone(Alone(s))), 1);
  }

  /** Then a SendSync sleeps unnotified on an empty queue iff all was sent and one was unnotified with none due. */
  lemma StrandsOnEmptyIff(s: State)
    requires Inv(s) && s.listening
    ensures (var u := AloneSteps(Next(s, ShutDown), 4); u.queue == [] && u.woken != u.waiting)
       <==> |s.queue| <= MayPop(s.consumer) && s.woken != s.waiting && !(s.queue == [] && s.consumer.AtLock?)
  {
    hide Flow, AloneSteps, Next;
    StopsInFour(s);
    var u := AloneSteps(Next(s, ShutDown), 4);
    DoneHistory(u);
    FlowLength(u);
  }

  // ---------------------------------------------------------------- whom a shutdown strands

  predicate NoEnqueue(steps: seq<Step>) {
    forall i :: 0 <= i < |steps| ==> !steps[i].SendCaLog?
  }

  /** What a caller can see before a shutdown: nothing queued, and nobody unnotified or the notification next in line. */
  predicate SafeToStop(s: State) {
    s.queue == [] && (s.consumer.AtLock? || s.woken == s.waiting)
  }

  /** No schedule of the other threads, new SendSync calls included, leaves anyone stranded. */
  ghost predicate NeverStrands(s: State) {
    forall steps, t :: NoEnqueue(steps) ==> !Stranded(Run(s, steps), t)
  }

  lemma {:induction false} SafeRun(s: State, steps: seq<Step>)
    requires Inv(s) && SafeToStop(s) && NoEnqueue(steps)
    ensures Inv(Run(s, steps)) && SafeToStop(Run(s, steps))
    decreases |steps|
  {
    hide Inv;
    if steps != [] {
      StepInv(s, steps[0]);
      SafeStep(s, steps[0]);
      assert NoEnqueue(steps[1..]);
      SafeRun(Next(s, steps[0]), steps[1..]);
    }
  }

  lemma SafeStep(s: State, step: Step)
    requires Inv(s) && SafeToStop(s) && !step.SendCaLog?
    ensures SafeToStop(Next(s, step))
  {
  }

  lemma {:induction false} RunAlone(s: State, n: nat) returns (steps: seq<Step>)
    ensures NoEnqueue(steps) && Run(s, steps) == AloneSteps(s, n)
    decreases n
  {
    if n == 0 {
      steps := [];
    } else {
      var step := if s.consumer.Waiting? && s.queue == [] then TimeOut else Consume;
      var rest := RunAlone(Alone(s), n - 1);
      steps := [step] + rest;
      assert steps[1..] == rest;
      RunTail(s, steps);
    }
  }

  /** A sleeper that is not notified, with no notification due, is stranded if the consumer then runs alone. */
  lemma UnnotifiedStrands(s: State, t: nat) returns (steps: seq<Step>)
    requires Inv(s) && s.listening && t in s.waiting && t !in s.woken
    requires !(s.consumer.AtLock? && s.queue == [])
    ensures NoEnqueue(steps) && Stranded(Run(Next(s, ShutDown), steps), t)
  {
    hide AloneSteps, Inv, Next;
    StopsInFour(s);
    steps := RunAlone(Next(s, ShutDown), 4);
  }

  /** With messages queued, someone can be asleep and not notified after one step of a SendSync. */
  lemma SyncSleeps(s: State) returns (step: Step, t: nat)
    requires Inv(s) && s.queue != []
    ensures !step.SendCaLog? && (step.SyncEnter? || step.SyncWake?)
    ensures var s' := Next(s, step);
            && t in s'.waiting && t !in s'.woken
            && s'.queue == s.queue && s'.consumer == s.consumer && s'.listening == s.listening
  {
    if s.waiting == {} {
      t := 0;
      step := SyncEnter(t);
    } else {
      t :| t in s.waiting;
      step := SyncWake(t);
    }
  }

  /**
   * A shutdown strands no SendSync, now asleep or called later, in any schedule without further
   * messages iff nothing is queued and nobody is unnotified past the consumer's next notification.
   */
  lemma NeverStrandsIff(s: State)
    requires Inv(s) && s.listening
    ensures NeverStrands(Next(s, ShutDown)) <==> SafeToStop(s)
  {
    hide Inv, Run, Flow;
    var u := Next(s, ShutDown);
    StepInv(s, ShutDown);
    if SafeToStop(s) {
      forall steps, t | NoEnqueue(steps) ensures !Stranded(Run(u, steps), t) {
        SafeRun(u, steps);
      }
    } else if s.queue != [] {
      var step, t := SyncSleeps(s);
      StepInv(s, step);
      var steps := UnnotifiedStrands(Next(s, step), t);
      Commute(s, step);
      RunTail(u, [step] + steps);
      assert ([step] + steps)[1..] == steps;
      assert NoEnqueue([step] + steps) && Stranded(Run(u, [step] + steps), t);
    } else {
      var t := Unnotified(s);
      var steps := UnnotifiedStrands(s, t);
      assert NoEnqueue(steps) && Stranded(Run(u, steps), t);
    }
  }

  /** With a message enqueued after it, every shutdown can strand a SendSync. */
  lemma EnqueueStrands(s: State, data: Msg) returns (steps: seq<Step>, t: nat)
    requires Inv(s) && s.listening
    ensures Stranded(Run(Next(s, ShutDown), steps), t)
  {
    hide Inv, Run, Flow;
    var pushed := Next(s, SendCaLog(data));
    StepInv(s, SendCaLog(data));
    var step, sleeper := SyncSleeps(pushed);
    StepInv(pushed, step);
    var rest := UnnotifiedStrands(Next(pushed, step), sleeper);
    Commute(pushed, step);
    Commute(s, SendCaLog(data));
    steps, t := [SendCaLog(data)] + ([step] + rest), sleeper;
    RunTail(Next(s, ShutDown), steps);
    RunTail(Next(Next(s, ShutDown), SendCaLog(data)), [step] + rest);
    assert steps[1..] == [step] + rest && ([step] + rest)[1..] == rest;
  }

  /** Producers and SendSync do not look at the listening flag. */
  lemma Commute(s: State, step: Step)
    requires step.SyncEnter? || step.SyncWake? || step.SendCaLog?
    ensures Next(Next(s, step), ShutDown) == Next(Next(s, ShutDown), step)
  {
  }

  lemma Unnotified(s: State) returns (t: nat)
    requires Inv(s) && s.woken != s.waiting
    ensures t in s.waiting && t !in s.woken
  {
    assert !(s.waiting <= s.woken);
    t :| t in s.waiting && t !in s.woken;
  }

  /** One such schedule: the last message goes out, and the SendSync that waits for it sleeps on. */
  lemma ShutDownStrands(data: Msg, t: nat)
    ensures var s := Run(Start(), [SendCaLog(data), SyncEnter(t), Consume, Consume]);
            && Inv(s) && s.listening && s.queue == [] && !SafeToStop(s)
            && Stranded(AloneSteps(Next(s, ShutDown), 4), t)
  {
    var s1 := Next(Start(), SendCaLog(data));
    var s2 := Next(s1, SyncEnter(t));
    var s3 := Next(s2, Consume);
    var s4 := Next(s3, Consume);
    var steps := [SendCaLog(data), SyncEnter(t), Consume, Consume];
    RunTail(Start(), steps);
    RunTail(s1, steps[1..]);
    RunTail(s2, steps[1..][1..]);
    RunTail(s3, steps[1..][1..][1..]);
    assert steps[1..][1..][1..][1..] == [];
    assert Inv(s4);
    StopsInFour(s4);
  }

  lemma RunTail(s: State, steps: seq<Step>)
    requires steps != []
    ensures Run(s, steps) == Run(Next(s, steps[0]), steps[1..])
  {
  }

  // ---------------------------------------------------------------- the consumer thread's own code

  /** What the other threads do around one turn of the loop: push before the lock, push or time out during the wait. */
  datatype Turn = Turn(listening: bool, before: seq<Msg>, during: seq<Msg>)

  /** The messages that the turns before the first stop bring, and those that the stop finds. */
  function Arrivals(turns: seq<Turn>): (r: seq<Msg>) {
    if turns == [] || !turns[0].listening then [] else turns[0].before + turns[0].during + Arrivals(turns[1..])
  }

  /** How many turns find a message, starting with so many queued. */
  function Sends(queued: nat, turns: seq<Turn>): (r: nat)
    ensures r <= queued + |Arrivals(turns)|
    decreases |turns|
  {
    if turns == [] || !turns[0].listening then 0 else
    var n := queued + |turns[0].before| + |turns[0].during|;
    if n == 0 then Sends(0, turns[1..]) else 1 + Sends(n - 1, turns[1..])
  }

  predicate AllListening(turns: seq<Turn>) {
    forall i :: 0 <= i < |turns| ==> turns[i].listening
  }

  /** With enough queued every listening turn sends; without arrivals enough turns send everything. */
  lemma {:induction false} SendsLaws(queued: nat, turns: seq<Turn>)
    requires AllListening(turns)
    ensures queued >= |turns| ==> Sends(queued, turns) == |turns|
    ensures |turns| >= queued + |Arrivals(turns)| && Arrivals(turns) == [] ==> Sends(queued, turns) == queued
    decreases |turns|
  {
    if turns != [] {
      var n := queued + |turns[0].before| + |turns[0].during|;
      assert AllListening(turns[1..]);
      if n > 0 {
        SendsLaws(n - 1, turns[1..]);
        if queued >= |turns| && n > queued {
          SendsMore(queued - 1, n - 1, turns[1..]);
        }
      } else {
        SendsLaws(0, turns[1..]);
      }
    }
  }

  /** More queued messages never mean fewer sent ones. */
  lemma {:induction false} SendsMore(a: nat, b: nat, turns: seq<Turn>)
    requires a <= b && AllListening(turns)
    ensures Sends(a, turns) <= Sends(b, turns) <= |turns|
    decreases |turns|
  {
    if turns != [] {
      var arrived := |turns[0].before| + |turns[0].during|;
      assert AllListening(turns[1..]);
      var left, more := if a + arrived == 0 then 0 else a + arrived - 1, if b + arrived == 0 then 0 else b + arrived - 1;
      SendsMore(left, more, turns[1..]);
    }
  }

  /** What a listening turn makes of the queue and of the arrivals still to come. */
  lemma TurnTaken(queue: seq<Msg>, turns: seq<Turn>)
    requires turns != [] && turns[0].listening
    ensures var n, rest := queue + turns[0].before + turns[0].during, turns[1..];
            && queue + Arrivals(turns) == n + Arrivals(rest)
            && Sends(|queue|, turns) == if n == [] then Sends(0, rest) else 1 + Sends(|n| - 1, rest)
  {
    var before, during, later := turns[0].before, turns[0].during, Arrivals(turns[1..]);
    assert queue + (before + during + later) == queue + before + during + later;
  }

  /** A prefix of length k sent and the rest queued, or still to come. */
  ghost predicate Split(all: seq<Msg>, k: nat, sent: seq<Msg>, rest: seq<Msg>) {
    k <= |all| && sent == all[..k] && rest == all[k..]
  }

  lemma SendOne(all: seq<Msg>, k: nat, sent: seq<Msg>, n: seq<Msg>, later: seq<Msg>)
    requires n != [] && Split(all, k, sent, n + later)
    ensures Split(all, k + 1, sent + [n[0]], n[1..] + later)
  {
    assert all[k] == (n + later)[0] == n[0];
    assert n[1..] + later == (n + later)[1..] == all[k + 1..];
  }

  class CamodelHelper {
    var queue: seq<Msg>
    /** What ProfConfig::SendMsg was given. */
    var sent: seq<Msg>

    constructor ()
      ensures queue == [] && sent == []
    {
      queue, sent := [], [];
    }

    method SendCaLog(data: Msg)
      modifies this`queue
      ensures queue == old(queue) + [data]
    {
      queue := queue + [data];
    }

    method Others(data: seq<Msg>)
      modifies this`queue
      ensures queue == old(queue) + data
    {
      for i := 0 to |data|
        invariant queue == old(queue) + data[..i]
      {
        SendCaLog(data[i]);
      }
    }

    /** One listening turn of the loop: the oldest message is sent, if there is one by the end of the wait. */
    method TakeTurn(turn: Turn)
      modifies this
      ensures var n := old(queue) + turn.before + turn.during;
              if n == [] then queue == [] && sent == old(sent)
              else queue == n[1..] && sent == old(sent) + [n[0]]
    {
      Others(turn.before);
      if queue == [] {
        Others(turn.during);
        if queue == [] {
          return;
        }
      } else {
        Others(turn.during);
      }
      var data := queue[0];
      queue := queue[1..];
      sent := sent + [data];
    }

    /** The loop sends the old queue and the arrivals in order, one message a turn, and leaves the rest queued. */
    method PopMessage(turns: seq<Turn>)
      modifies this
      ensures var all, k := old(queue) + Arrivals(turns), Sends(|old(queue)|, turns);
              sent == old(sent) + all[..k] && queue == all[k..]
    {
      hide Arrivals, Sends, Split;
      ghost var all, out, k := queue + Arrivals(turns), [], 0;
      SplitStart(all);
      var i := 0;
      while i < |turns| && turns[i].listening
        invariant i <= |turns|
        invariant sent == old(sent) + out && Split(all, k, out, queue + Arrivals(turns[i..]))
        invariant k + Sends(|queue|, turns[i..]) == Sends(|old(queue)|, turns)
        decreases |turns| - i
      {
        var turn := turns[i];
        TurnTaken(queue, turns[i..]);
        assert turns[i..][1..] == turns[i + 1..];
        ghost var n := queue + turn.before + turn.during;
        TakeTurn(turn);
        i := i + 1;
        if n != [] {
          SendOne(all, k, out, n, Arrivals(turns[i..]));
          out, k := out + [n[0]], k + 1;
        }
      }
      NoMoreTurns(queue, turns[i..]);
      SplitEnd(all, k, out, queue);
    }
  }

  lemma SplitStart(all: seq<Msg>)
    ensures Split(all, 0, [], all)
  {
  }

  lemma NoMoreTurns(queue: seq<Msg>, turns: seq<Turn>)
    requires turns == [] || !turns[0].listening
    ensures queue + Arrivals(turns) == queue && Sends(|queue|, turns) == 0
  {
  }

  lemma SplitEnd(all: seq<Msg>, k: nat, sent: seq<Msg>, rest: seq<Msg>)
    requires Split(all, k, sent, rest)
    ensures k <= |all| && sent == all[..k] && rest == all[k..]
  {
  }
}
