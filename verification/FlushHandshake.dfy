/** The orchestrator and the I/O thread's control arm, connected by the two bounded FIFO control
    channels. The I/O thread answers each `FlushInput` with one `SystemCallFlushed`; every other
    command enters the channel freely, and the I/O thread may be gone at any moment. */
module FlushHandshake {
  import opened Channels
  import opened Orchestrator

  datatype IoThread =
    | Serving
    | Acking  // took a `FlushInput`, the acknowledgement is still to be sent
    | Gone    // both its ends of the channels are dropped

  /** `acked` counts the acknowledgements that pauses have consumed. */
  datatype System = System(
    o: Orch, io: IoThread, commands: seq<IoCommand>, responses: seq<IoResponse>, acked: nat)

  datatype Action =
    | OrchStep(i: Input)
    | IoTake
    | IoAck
    | IoRelay(command: IoCommand)
    | IoExit

  predicate SendsToIo(pc: Pc)
  {
    IsSend(pc) && EventOf(pc).ToIo?
  }

  predicate Enabled(s: System, a: Action)
  {
    match a
    case OrchStep(i) =>
      && Accepts(s.o.pc, i)
      && (i.Command? ==> s.commands != [] && s.commands[0] == i.command)
      && (i.CommandsClosed? ==> s.io.Gone? && s.commands == [])
      && (i == Done(true) && SendsToIo(s.o.pc) ==> !s.io.Gone? && |s.responses| < CHANNEL_CAPACITY)
    case IoTake => s.io.Serving? && s.responses != []
    case IoAck => s.io.Acking? && |s.commands| < CHANNEL_CAPACITY
    case IoRelay(c) => s.io.Serving? && !c.SystemCallFlushed? && |s.commands| < CHANNEL_CAPACITY
    case IoExit => !s.io.Gone?
  }

  function Step(s: System, a: Action): (s': System)
    requires Enabled(s, a)
  {
    match a
    case OrchStep(i) =>
      System(Orchestrator.Step(s.o, i), s.io,
             if i.Command? then s.commands[1..] else s.commands,
             if i == Done(true) && SendsToIo(s.o.pc) then s.responses + [EventOf(s.o.pc).response] else s.responses,
             if s.o.pc.AwaitFlushed? && i == Command(SystemCallFlushed) then s.acked + 1 else s.acked)
    case IoTake =>
      (match s.responses[0]
       case FlushInput => s.(io := Acking, responses := s.responses[1..])
       case ShutdownDone => s.(io := Gone, responses := [])
       case _ => s.(responses := s.responses[1..]))
    case IoAck => s.(io := Serving, commands := s.commands + [SystemCallFlushed])
    case IoRelay(c) => s.(commands := s.commands + [c])
    case IoExit => s.(io := Gone, responses := [])
  }

  ghost predicate IsRun(s: System, actions: seq<Action>)
    decreases |actions|
  {
    actions != [] ==> Enabled(s, actions[0]) && IsRun(Step(s, actions[0]), actions[1..])
  }

  ghost function Run(s: System, actions: seq<Action>): System
    requires IsRun(s, actions)
    decreases |actions|
  {
    if actions == [] then s else Run(Step(s, actions[0]), actions[1..])
  }

  ghost predicate Reachable(s: System)
  {
    exists actions ::
      && IsRun(System(INITIAL, Serving, [], [], 0), actions)
      && Run(System(INITIAL, Serving, [], [], 0), actions) == s
  }

  //
  // Flush requests and acknowledgements in flight
  //

  function Acks(q: seq<IoCommand>): nat
  {
    if q == [] then 0 else (if q[0].SystemCallFlushed? then 1 else 0) + Acks(q[1..])
  }

  lemma {:induction false} AcksAppend(q: seq<IoCommand>, c: IoCommand)
    ensures Acks(q + [c]) == Acks(q) + (if c.SystemCallFlushed? then 1 else 0)
    decreases |q|
  {
    if q == [] {
      assert q + [c] == [c];
    } else {
      assert (q + [c])[1..] == q[1..] + [c];
      AcksAppend(q[1..], c);
    }
  }

  function InFlight(s: System): nat
  {
    Pending(s.responses) + (if s.io.Acking? then 1 else 0) + Acks(s.commands)
  }

  /** The responses that can be waiting at a program point, oldest first. */
  predicate Backlog(pc: Pc, q: seq<IoResponse>)
  {
    match pc
    case SendFlushInput => q == [] || q == [FlushOutput] || q == [MicroVmPaused, FlushOutput]
    case AwaitFlushed =>
      q == [] || q == [FlushInput] || q == [FlushOutput, FlushInput] || q == [MicroVmPaused, FlushOutput, FlushInput]
    case SendPaused => q == []
    case Finished => q == [] || q == [ShutdownDone] || q == [MicroVmPaused, ShutdownDone]
    case Failed => |q| <= 2 && FlushInput !in q
    case _ => q == [] || q == [MicroVmPaused]
  }

  function Pending(q: seq<IoResponse>): nat
  {
    if FlushInput in q then 1 else 0
  }

  lemma BacklogPush(pc: Pc, q: seq<IoResponse>)
    requires SendsToIo(pc) && Backlog(pc, q)
    ensures Backlog(AfterSend(pc), q + [EventOf(pc).response])
    ensures Pending(q + [EventOf(pc).response]) == if pc.SendFlushInput? then 1 else 0
  {
  }

  lemma BacklogPop(pc: Pc, q: seq<IoResponse>)
    requires q != [] && Backlog(pc, q)
    ensures Backlog(pc, q[1..])
    ensures Pending(q) == Pending(q[1..]) + if q[0].FlushInput? then 1 else 0
  {
    assert q == [q[0]] + q[1..];
  }

  lemma BacklogMove(o: Orch, i: Input, q: seq<IoResponse>)
    requires Accepts(o.pc, i) && !(IsSend(o.pc) && i == Done(true)) && Backlog(o.pc, q)
    requires o.pc.AwaitFlushed? && !(i.Command? && !i.command.SystemCallFlushed?) ==> q == []
    ensures Backlog(Orchestrator.Step(o, i).pc, q)
    ensures Orchestrator.Step(o, i).sent == o.sent
  {
  }

  predicate Inv(s: System)
  {
    && Backlog(s.o.pc, s.responses)
    && (s.io.Gone? ==> s.responses == [])
    && (s.o.pc.Finished? && s.responses == [] ==> s.io.Gone?)
    && (s.o.pc.AwaitFlushed? && !s.io.Gone? ==> InFlight(s) == 1)
    && (s.o.pc.AwaitFlushed? && s.io.Gone? ==> InFlight(s) <= 1)
    && (!s.o.pc.AwaitFlushed? ==> InFlight(s) == 0)
    && s.acked + InFlight(s) <= Count(s.o.sent, ToIo(FlushInput))
    && (!s.io.Gone? ==> s.acked + InFlight(s) == Count(s.o.sent, ToIo(FlushInput)))
  }

  lemma CountAppend(t: seq<Event>, e: Event, x: Event)
    ensures Count(t + [e], x) == Count(t, x) + if e == x then 1 else 0
  {
    assert Init(t + [e]) == t && Last(t + [e]) == e;
  }

  /** A flush request adds one to what is in flight, and any other send nothing. */
  lemma SendInFlight(s: System)
    requires IsSend(s.o.pc) && Backlog(s.o.pc, s.responses) && Enabled(s, OrchStep(Done(true)))
    ensures
      var s' := Step(s, OrchStep(Done(true)));
      && Backlog(s'.o.pc, s'.responses) && s'.commands == s.commands && s'.io == s.io && s'.acked == s.acked
      && InFlight(s') == InFlight(s) + if s.o.pc.SendFlushInput? then 1 else 0
  {
    if SendsToIo(s.o.pc) { BacklogPush(s.o.pc, s.responses); }
  }

  lemma SendKeepsInv(s: System)
    requires Inv(s) && IsSend(s.o.pc) && Enabled(s, OrchStep(Done(true)))
    ensures Inv(Step(s, OrchStep(Done(true))))
  {
    SendInFlight(s);
    CountAppend(s.o.sent, EventOf(s.o.pc), ToIo(FlushInput));
  }

  lemma ReceiveKeepsInv(s: System, i: Input)
    requires Inv(s) && Enabled(s, OrchStep(i)) && !(IsSend(s.o.pc) && i == Done(true))
    ensures Inv(Step(s, OrchStep(i)))
  {
    var s' := Step(s, OrchStep(i));
    if i.Command? {
      assert Acks(s.commands) == (if i.command.SystemCallFlushed? then 1 else 0) + Acks(s'.commands);
    }
    BacklogMove(s.o, i, s.responses);
  }

  lemma IoStepKeepsInv(s: System, a: Action)
    requires Inv(s) && Enabled(s, a) && !a.OrchStep?
    ensures Inv(Step(s, a))
  {
    match a {
      case IoTake => BacklogPop(s.o.pc, s.responses);
      case IoAck => AcksAppend(s.commands, SystemCallFlushed);
      case IoRelay(c) => AcksAppend(s.commands, c);
      case IoExit =>
    }
  }

  lemma {:induction false} RunKeepsInv(s: System, actions: seq<Action>)
    requires Inv(s) && IsRun(s, actions)
    ensures Inv(Run(s, actions))
    decreases |actions|
  {
    if actions != [] {
      var a := actions[0];
      if !a.OrchStep? {
        IoStepKeepsInv(s, a);
      } else if IsSend(s.o.pc) && a.i == Done(true) {
        SendKeepsInv(s);
      } else {
        ReceiveKeepsInv(s, a.i);
      }
      RunKeepsInv(Step(s, a), actions[1..]);
    }
  }

  lemma ReachableInv(s: System)
    requires Reachable(s)
    ensures Inv(s)
  {
    var s0 := System(INITIAL, Serving, [], [], 0);
    var actions :| IsRun(s0, actions) && Run(s0, actions) == s;
    RunKeepsInv(s0, actions);
  }

  //
  // What it means for the pause protocol
  //

  /** Exactly one flush request or acknowledgement is in flight during a flush wait, and none at any
      other time; each pause consumes the acknowledgement of its own request. */
  lemma OneFlushInFlight(s: System)
    requires Reachable(s) && !s.io.Gone?
    ensures InFlight(s) == (if s.o.pc.AwaitFlushed? then 1 else 0)
    ensures Count(s.o.sent, ToIo(FlushInput)) == s.acked + (if s.o.pc.AwaitFlushed? then 1 else 0)
  {
    ReachableInv(s);
  }

  /** An acknowledgement is only ever received by the flush wait, even if the I/O thread dies: the
      dispatcher's arm for it, and the shutdown wait's, are dead code. */
  lemma DispatcherNeverSeesAck(s: System, c: IoCommand)
    requires Reachable(s) && Enabled(s, OrchStep(Command(c)))
    ensures c.SystemCallFlushed? ==> s.o.pc.AwaitFlushed?
  {
    ReachableInv(s);
    assert s.commands == [c] + s.commands[1..];
  }

  /** A response to the I/O thread never waits for room, so the two bounded channels cannot block the
      two threads on each other. */
  lemma ResponsesNeverWait(s: System)
    requires Reachable(s)
    ensures |s.responses| <= 3 < CHANNEL_CAPACITY
  {
    ReachableInv(s);
  }

  /** An orchestrator that has finished has told the I/O thread to, and once all it was told is taken the I/O
      thread is gone. */
  lemma FinishedIoIsGone(s: System)
    requires Reachable(s) && s.o.pc.Finished? && s.responses == []
    ensures s.io.Gone?
  {
    ReachableInv(s);
  }

  /** Steps left before a flush wait ends, if nothing else is relayed meanwhile. */
  function Distance(s: System): nat
  {
    3 * |s.responses| + (if s.io.Acking? then 2 else 0) + |s.commands|
  }

  /** A flush wait is never stuck: as long as the I/O thread lives, some step brings the
      acknowledgement closer, and once the I/O thread is gone the wait ends. */
  lemma FlushWaitMoves(s: System) returns (a: Action)
    requires Reachable(s) && s.o.pc.AwaitFlushed?
    ensures Enabled(s, a) && !a.IoRelay? && !a.IoExit?
    ensures Distance(Step(s, a)) < Distance(s) || Step(s, a).o.pc.Failed?
    ensures Step(s, a).o.pc.Failed? ==> s.io.Gone? && s.commands == []
  {
    ReachableInv(s);
    if s.commands != [] {
      a := OrchStep(Command(s.commands[0]));
    } else if s.io.Gone? {
      a := OrchStep(CommandsClosed);
    } else if s.io.Acking? {
      a := IoAck;
    } else {
      a := IoTake;
    }
  }
}
