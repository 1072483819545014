/** The orchestrator of a user VM: the thread that boots, pauses, snapshots, resumes and shuts down
    the VM by exchanging control messages with the I/O, memory and vCPU threads. */
module Orchestrator {

  datatype VmState = PreBoot | Running | Paused | ShuttingDown

  datatype IoCommand =
    | StartMicroVm | LoadSnapshotAndRun | PauseMicroVm | CreateSnapshot(path: string)
    | ResumeMicroVm | SystemCallFlushed | Shutdown

  datatype IoResponse = MicroVmPaused | SnapshotCreated | FlushOutput | FlushInput | ShutdownDone

  datatype VcpuCommand = TakeSnapshot(path: string) | Resume

  datatype VcpuResponse = VcpuPaused | VcpuShutdown | SnapshotTaken | SnapshotFailed | Tid(tid: nat)

  /** What the orchestrator sends; the memory thread only ever gets a shutdown command. */
  datatype Event = ToIo(response: IoResponse) | ToVcpu(command: VcpuCommand) | ToMemory

  /** Where the orchestrator is waiting: for a message in one of its loops, or for a callback or a
      send to complete. */
  datatype Pc =
    | Loop
    | CallPause | AwaitPaused | SendFlushOutput | SendFlushInput | AwaitFlushed | SendPaused
    | SendSnapshot(path: string) | AwaitSnapshot
    | CallLoad | CallResume | SendResume
    | AwaitShutdown
    | SendMemoryShutdown | SendIoShutdown
    | Finished | Failed

  datatype Orch = Orch(pc: Pc, state: VmState, sent: seq<Event>)

  /** What a wait can end with. `Done` ends a callback or a send. */
  datatype Input =
    | Command(command: IoCommand) | CommandsClosed
    | Response(response: VcpuResponse) | ResponsesClosed
    | Done(ok: bool)
    | Timeout

  const INITIAL := Orch(Loop, PreBoot, [])

  predicate Accepts(pc: Pc, i: Input)
  {
    match pc
    case Loop => i.Command? || i.CommandsClosed? || i.Response? || i.ResponsesClosed?
    case AwaitPaused => i.Response? || i.ResponsesClosed?
    case AwaitSnapshot => i.Response? || i.ResponsesClosed?
    case AwaitFlushed => i.Command? || i.CommandsClosed?
    case AwaitShutdown => !i.Done?
    case Finished => false
    case Failed => false
    case _ => i.Done?
  }

  function Dispatch(o: Orch, c: IoCommand): Orch
  {
    match c
    case StartMicroVm => if o.state.PreBoot? then o.(state := Running) else o
    case LoadSnapshotAndRun => if o.state.PreBoot? then o.(pc := CallLoad) else o
    case PauseMicroVm => if o.state.Running? then o.(pc := CallPause) else o
    case CreateSnapshot(path) => if o.state.Paused? then o.(pc := SendSnapshot(path)) else o
    case ResumeMicroVm => if o.state.Paused? then o.(pc := CallResume) else o
    case SystemCallFlushed => o
    case Shutdown => o.(pc := AwaitShutdown, state := ShuttingDown)
  }

  predicate IsSend(pc: Pc)
  {
    || pc.SendFlushOutput? || pc.SendFlushInput? || pc.SendPaused? || pc.SendSnapshot? || pc.SendResume?
    || pc.SendMemoryShutdown? || pc.SendIoShutdown?
  }

  function EventOf(pc: Pc): Event
    requires IsSend(pc)
  {
    match pc
    case SendFlushOutput => ToIo(FlushOutput)
    case SendFlushInput => ToIo(FlushInput)
    case SendPaused => ToIo(MicroVmPaused)
    case SendSnapshot(path) => ToVcpu(TakeSnapshot(path))
    case SendResume => ToVcpu(Resume)
    case SendMemoryShutdown => ToMemory
    case SendIoShutdown => ToIo(ShutdownDone)
  }

  function AfterSend(pc: Pc): Pc
    requires IsSend(pc)
  {
    match pc
    case SendFlushOutput => SendFlushInput
    case SendFlushInput => AwaitFlushed
    case SendPaused => Loop
    case SendSnapshot(_) => AwaitSnapshot
    case SendResume => Loop
    case SendMemoryShutdown => SendIoShutdown
    case SendIoShutdown => Finished
  }

  /** A wait ends without anything being sent. */
  function Receive(o: Orch, i: Input): Orch
    requires Accepts(o.pc, i) && !IsSend(o.pc)
  {
    match o.pc
    case Loop =>
      (match i
       case Command(c) => Dispatch(o, c)
       case Response(r) => if r.VcpuShutdown? then o.(pc := SendMemoryShutdown) else o.(pc := Failed)
       case _ => o.(pc := SendMemoryShutdown))
    case AwaitPaused =>
      if i == Response(VcpuPaused) then o.(pc := SendFlushOutput) else o.(pc := Failed)
    case AwaitSnapshot =>
      if i == Response(SnapshotTaken) then o.(pc := Loop) else o.(pc := Failed)
    case AwaitFlushed =>
      if i.CommandsClosed? then o.(pc := Failed)
      else if i.command.SystemCallFlushed? then o.(pc := SendPaused, state := Paused)
      else o  // any other command is dropped
    case AwaitShutdown =>
      if i.Timeout? || i.ResponsesClosed? || i == Response(VcpuShutdown) then o.(pc := SendMemoryShutdown)
      else o  // any other message is dropped
    case CallPause => o.(pc := if i.ok then AwaitPaused else Failed)
    case CallLoad => o.(pc := if i.ok then CallResume else Failed)
    case CallResume => o.(pc := if i.ok then SendResume else Failed)
  }

  function Step(o: Orch, i: Input): (o': Orch)
    requires Accepts(o.pc, i)
  {
    if !IsSend(o.pc) then Receive(o, i)
    else if !i.ok then o.(pc := Failed)
    else Orch(AfterSend(o.pc), if o.pc.SendResume? then Running else o.state, o.sent + [EventOf(o.pc)])
  }

  ghost predicate IsRun(o: Orch, inputs: seq<Input>)
    decreases |inputs|
  {
    inputs != [] ==> Accepts(o.pc, inputs[0]) && IsRun(Step(o, inputs[0]), inputs[1..])
  }

  ghost function Run(o: Orch, inputs: seq<Input>): (o': Orch)
    requires IsRun(o, inputs)
    decreases |inputs|
  {
    if inputs == [] then o else Run(Step(o, inputs[0]), inputs[1..])
  }

  //
  // The language of the traces
  //

  /** How a trace ends: between pauses, part way through one, or paused with snapshots taken;
      `closing` is how many of the two shutdown messages have gone out. */
  datatype Tail =
    | Idle(closing: nat)
    | Flushing(flushes: nat)
    | AtRest(snapshots: seq<string>, closing: nat)

  /** What a trace says happened: whether the VM was resumed from a stored snapshot, the snapshots
      taken in each pause that was followed by a resume, and the end. */
  datatype Story = Story(restored: bool, pauses: seq<seq<string>>, tail: Tail)

  predicate ValidStory(st: Story)
  {
    match st.tail
    case Idle(n) => n <= 2
    case Flushing(n) => 1 <= n <= 2
    case AtRest(_, n) => n <= 2
  }

  function Flushes(n: nat): seq<Event>
  {
    if n == 0 then [] else if n == 1 then [ToIo(FlushOutput)] else [ToIo(FlushOutput), ToIo(FlushInput)]
  }

  function Close(n: nat): seq<Event>
  {
    if n == 0 then [] else if n == 1 then [ToMemory] else [ToMemory, ToIo(ShutdownDone)]
  }

  function Snapshots(paths: seq<string>): (t: seq<Event>)
  {
    if paths == [] then [] else Snapshots(paths[..|paths| - 1]) + [ToVcpu(TakeSnapshot(paths[|paths| - 1]))]
  }

  /** A completed pause and what was saved during it. */
  function Pause(paths: seq<string>): (t: seq<Event>)
  {
    Flushes(2) + [ToIo(MicroVmPaused)] + Snapshots(paths)
  }

  function Cycles(pauses: seq<seq<string>>): (t: seq<Event>)
  {
    if pauses == [] then [] else
    Cycles(pauses[..|pauses| - 1]) + (Pause(pauses[|pauses| - 1]) + [ToVcpu(Resume)])
  }

  function RenderTail(tail: Tail): (t: seq<Event>)
  {
    match tail
    case Idle(n) => Close(n)
    case Flushing(n) => Flushes(n)
    case AtRest(paths, n) => Pause(paths) + Close(n)
  }

  function Boot(restored: bool): seq<Event>
  {
    if restored then [ToVcpu(Resume)] else []
  }

  function Render(st: Story): (t: seq<Event>)
  {
    Boot(st.restored) + Cycles(st.pauses) + RenderTail(st.tail)
  }

  /** When a story can go on with an event, and how. */
  predicate CanTell(st: Story, e: Event)
  {
    match e
    case ToIo(r) =>
      (match r
       case FlushOutput => st.tail == Idle(0)
       case FlushInput => st.tail == Flushing(1)
       case MicroVmPaused => st.tail == Flushing(2)
       case ShutdownDone => !st.tail.Flushing? && st.tail.closing == 1
       case SnapshotCreated => false)
    case ToVcpu(TakeSnapshot(_)) => st.tail.AtRest? && st.tail.closing == 0
    case ToVcpu(Resume) => (st.tail.AtRest? && st.tail.closing == 0) || st == Story(false, [], Idle(0))
    case ToMemory => !st.tail.Flushing? && st.tail.closing == 0
  }

  function CloseTail(tail: Tail): Tail
  {
    match tail
    case Idle(n) => Idle(n + 1)
    case AtRest(paths, n) => AtRest(paths, n + 1)
    case Flushing(_) => tail
  }

  function Tell(st: Story, e: Event): (st': Story)
    requires ValidStory(st) && CanTell(st, e)
    ensures ValidStory(st')
  {
    match e
    case ToIo(r) =>
      (match r
       case FlushOutput => st.(tail := Flushing(1))
       case FlushInput => st.(tail := Flushing(2))
       case MicroVmPaused => st.(tail := AtRest([], 0))
       case _ => st.(tail := CloseTail(st.tail)))
    case ToVcpu(TakeSnapshot(path)) => st.(tail := AtRest(st.tail.snapshots + [path], 0))
    case ToVcpu(Resume) =>
      if st.tail.AtRest? then Story(st.restored, st.pauses + [st.tail.snapshots], Idle(0))
      else Story(true, [], Idle(0))
    case ToMemory => st.(tail := CloseTail(st.tail))
  }

  lemma TellTail(st: Story, e: Event)
    requires ValidStory(st) && CanTell(st, e) && e != ToVcpu(Resume)
    ensures RenderTail(Tell(st, e).tail) == RenderTail(st.tail) + [e]
  {
    if e.ToVcpu? {
      assert (st.tail.snapshots + [e.command.path])[..|st.tail.snapshots|] == st.tail.snapshots;
    }
  }

  lemma TellResume(restored: bool, pauses: seq<seq<string>>, paths: seq<string>)
    ensures Render(Story(restored, pauses + [paths], Idle(0)))
         == Render(Story(restored, pauses, AtRest(paths, 0))) + [ToVcpu(Resume)]
  {
    assert (pauses + [paths])[..|pauses|] == pauses;
    assert Pause(paths) + [] == Pause(paths);
    var (boot, past, pause) := (Boot(restored), Cycles(pauses), Pause(paths));
    assert boot + (past + (pause + [ToVcpu(Resume)])) + [] == boot + past + pause + [ToVcpu(Resume)];
  }

  lemma TellRenders(st: Story, e: Event)
    requires ValidStory(st) && CanTell(st, e)
    ensures Render(Tell(st, e)) == Render(st) + [e]
  {
    if e != ToVcpu(Resume) {
      TellTail(st, e);
      var past := Boot(st.restored) + Cycles(st.pauses);
      assert past + (RenderTail(st.tail) + [e]) == past + RenderTail(st.tail) + [e];
    } else if st.tail.AtRest? {
      TellResume(st.restored, st.pauses, st.tail.snapshots);
    }
  }

  //
  // What the traces say
  //

  function Last<T>(s: seq<T>): T
    requires s != []
  {
    s[|s| - 1]
  }

  function Init<T>(s: seq<T>): seq<T>
    requires s != []
  {
    s[..|s| - 1]
  }

  function Count(t: seq<Event>, e: Event): nat
  {
    if t == [] then 0 else Count(Init(t), e) + (if Last(t) == e then 1 else 0)
  }

  /** A pause has completed and no resume has been sent since. */
  predicate PausedNow(t: seq<Event>)
  {
    t != [] && (Last(t) == ToIo(MicroVmPaused) || (Last(t) != ToVcpu(Resume) && PausedNow(Init(t))))
  }

  predicate IsSnapshot(e: Event)
  {
    e.ToVcpu? && e.command.TakeSnapshot?
  }

  predicate SnapshotsWhilePaused(t: seq<Event>)
  {
    t == [] || (SnapshotsWhilePaused(Init(t)) && (IsSnapshot(Last(t)) ==> PausedNow(Init(t))))
  }

  /** What the I/O thread gets. */
  function IoPart(t: seq<Event>): seq<IoResponse>
  {
    if t == [] then [] else IoPart(Init(t)) + (if Last(t).ToIo? then [Last(t).response] else [])
  }

  function Rounds(n: nat): seq<IoResponse>
  {
    if n == 0 then [] else Rounds(n - 1) + [FlushOutput, FlushInput, MicroVmPaused]
  }

  function IoTail(tail: Tail): seq<IoResponse>
  {
    match tail
    case Idle(n) => if n == 2 then [ShutdownDone] else []
    case Flushing(n) => if n == 1 then [FlushOutput] else [FlushOutput, FlushInput]
    case AtRest(_, n) => if n == 2 then [ShutdownDone] else []
  }

  function Completed(st: Story): nat
  {
    |st.pauses| + (if st.tail.AtRest? then 1 else 0)
  }

  predicate Facts(t: seq<Event>, st: Story)
  {
    && (PausedNow(t) <==> st.tail.AtRest?)
    && SnapshotsWhilePaused(t)
    && Count(t, ToVcpu(Resume)) == |st.pauses| + (if st.restored then 1 else 0)
    && Count(t, ToIo(MicroVmPaused)) == Completed(st)
    && IoPart(t) == Rounds(Completed(st)) + IoTail(st.tail)
  }

  lemma TellFacts(t: seq<Event>, st: Story, e: Event)
    requires ValidStory(st) && CanTell(st, e) && Facts(t, st)
    ensures Facts(t + [e], Tell(st, e))
  {
    var t' := t + [e];
    assert Init(t') == t && Last(t') == e;
    var st' := Tell(st, e);
    assert IoPart(t') == IoPart(t) + (if e.ToIo? then [e.response] else []);
    assert IoPart(t') == Rounds(Completed(st')) + IoTail(st'.tail);
  }

  //
  // Every run tells a story
  //

  /** The part of the story that the program point and the VM state determine. */
  predicate Fits(o: Orch, st: Story)
  {
    && ValidStory(st)
    && (match o.pc
        case SendFlushInput => st.tail == Flushing(1) && o.state.Running?
        case AwaitFlushed => st.tail == Flushing(2) && o.state.Running?
        case SendPaused => st.tail == Flushing(2) && o.state.Paused?
        case SendIoShutdown => !st.tail.Flushing? && st.tail.closing == 1
        case Finished => !st.tail.Flushing? && st.tail.closing == 2
        case Failed => true
        case _ =>
          && !st.tail.Flushing? && st.tail.closing == 0
          && (o.state.PreBoot? ==> st == Story(false, [], Idle(0)))
          && (o.state.Running? ==> st.tail.Idle?)
          && (o.state.Paused? ==> st.tail.AtRest?)
          && (o.pc.AwaitShutdown? ==> o.state.ShuttingDown?)
          && (o.state.ShuttingDown? ==> o.pc.AwaitShutdown? || o.pc.SendMemoryShutdown?)
          && (o.pc.CallPause? || o.pc.AwaitPaused? || o.pc.SendFlushOutput? ==> o.state.Running?)
          && (o.pc.SendSnapshot? || o.pc.AwaitSnapshot? ==> o.state.Paused?)
          && (o.pc.CallLoad? ==> o.state.PreBoot?)
          && (o.pc.CallResume? || o.pc.SendResume? ==> o.state.PreBoot? || o.state.Paused?))
  }

  ghost predicate Tells(o: Orch, st: Story)
  {
    Fits(o, st) && Render(st) == o.sent && Facts(o.sent, st)
  }

  lemma ReceiveFits(o: Orch, i: Input, st: Story)
    requires Accepts(o.pc, i) && !IsSend(o.pc) && Fits(o, st)
    ensures Fits(Receive(o, i), st) && Receive(o, i).sent == o.sent
  {
  }

  lemma SendFits(o: Orch, st: Story)
    requires IsSend(o.pc) && Fits(o, st)
    ensures CanTell(st, EventOf(o.pc)) && Fits(Step(o, Done(true)), Tell(st, EventOf(o.pc)))
  {
  }

  lemma StepTells(o: Orch, i: Input, st: Story) returns (st': Story)
    requires Accepts(o.pc, i) && Tells(o, st)
    ensures Tells(Step(o, i), st')
  {
    st' := st;
    if !IsSend(o.pc) {
      ReceiveFits(o, i, st);
    } else if i.ok {
      SendFits(o, st);
      TellRenders(st, EventOf(o.pc));
      TellFacts(o.sent, st, EventOf(o.pc));
      st' := Tell(st, EventOf(o.pc));
    }
  }

  lemma {:induction false} RunTells(o: Orch, inputs: seq<Input>, st: Story) returns (st': Story)
    requires IsRun(o, inputs) && Tells(o, st)
    ensures Tells(Run(o, inputs), st')
    decreases |inputs|
  {
    st' := st;
    if inputs != [] {
      st' := StepTells(o, inputs[0], st);
      st' := RunTells(Step(o, inputs[0]), inputs[1..], st');
    }
  }

  /** `o` is where some run of the orchestrator ends. */
  ghost predicate Reaches(o: Orch)
  {
    exists inputs :: IsRun(INITIAL, inputs) && Run(INITIAL, inputs) == o
  }

  lemma ReachesTells(o: Orch) returns (st: Story)
    requires Reaches(o)
    ensures Tells(o, st)
  {
    var inputs :| IsRun(INITIAL, inputs) && Run(INITIAL, inputs) == o;
    st := RunTells(INITIAL, inputs, Story(false, [], Idle(0)));
  }

  /** Some story renders as `t`. */
  ghost predicate Tellable(t: seq<Event>)
  {
    exists st :: ValidStory(st) && Render(st) == t
  }

  lemma RunRenders(inputs: seq<Input>)
    requires IsRun(INITIAL, inputs)
    ensures Tellable(Run(INITIAL, inputs).sent)
  {
    var st := ReachesTells(Run(INITIAL, inputs));
  }

  /** In every run: the I/O thread gets whole pause rounds followed by a proper prefix of one or by
      the shutdown; snapshots are only asked for between a completed pause and the next resume; and
      there is at most one resume more than there are completed pauses. */
  lemma TraceFacts(o: Orch) returns (rounds: nat, rest: seq<IoResponse>)
    requires Reaches(o)
    ensures IoPart(o.sent) == Rounds(rounds) + rest && rounds == Count(o.sent, ToIo(MicroVmPaused))
    ensures rest < [FlushOutput, FlushInput, MicroVmPaused] || rest == [ShutdownDone]
    ensures SnapshotsWhilePaused(o.sent)
    ensures Count(o.sent, ToVcpu(Resume)) <= Count(o.sent, ToIo(MicroVmPaused)) + 1
  {
    var st := ReachesTells(o);
    rounds, rest := Completed(st), IoTail(st.tail);
  }

  //
  // What ends a run
  //

  /** What makes the orchestrator fail: a callback or send that fails, a response other than the one that a
      protocol waits for, a response other than a shutdown in the loop, or a channel that closes on a
      protocol. */
  predicate Fails(pc: Pc, i: Input)
  {
    match pc
    case Loop => i.Response? && !i.response.VcpuShutdown?
    case AwaitPaused => i.ResponsesClosed? || (i.Response? && !i.response.VcpuPaused?)
    case AwaitSnapshot => i.ResponsesClosed? || (i.Response? && !i.response.SnapshotTaken?)
    case AwaitFlushed => i.CommandsClosed?
    case AwaitShutdown => false
    case _ => i == Done(false)
  }

  lemma FailsIff(o: Orch, i: Input)
    requires Accepts(o.pc, i)
    ensures Step(o, i).pc.Failed? <==> Fails(o.pc, i)
  {
  }

  /** What takes the orchestrator to its clean-up. */
  lemma CleansUpIff(o: Orch, i: Input)
    requires Accepts(o.pc, i)
    ensures Step(o, i).pc.SendMemoryShutdown?
       <==> || (o.pc.Loop? && (i == Response(VcpuShutdown) || i.CommandsClosed? || i.ResponsesClosed?))
            || (o.pc.AwaitShutdown? && (i == Response(VcpuShutdown) || i.Timeout? || i.ResponsesClosed?))
  {
  }

  /** A run that has failed has done so at its last input, and for cause. */
  lemma FailedForCause(inputs: seq<Input>)
    requires IsRun(INITIAL, inputs) && Run(INITIAL, inputs).pc.Failed?
    ensures inputs != [] && IsRun(INITIAL, Init(inputs)) && Fails(Run(INITIAL, Init(inputs)).pc, Last(inputs))
  {
    RunInit(INITIAL, inputs);
    FailsIff(Run(INITIAL, Init(inputs)), Last(inputs));
  }

  lemma {:induction false} RunInit(o: Orch, inputs: seq<Input>)
    requires IsRun(o, inputs) && inputs != []
    ensures IsRun(o, Init(inputs)) && Accepts(Run(o, Init(inputs)).pc, Last(inputs))
    ensures Run(o, inputs) == Step(Run(o, Init(inputs)), Last(inputs))
    decreases |inputs|
  {
    if |inputs| > 1 {
      RunInit(Step(o, inputs[0]), inputs[1..]);
      assert Init(inputs)[1..] == Init(inputs[1..]);
    }
  }

  /** A shutdown command taken in the loop, in any state of the VM: the wait follows, then the two shutdown
      messages; only a send that fails can keep them from going out. */
  lemma {:induction false} ShutdownRuns(o: Orch, inputs: seq<Input>)
    requires o.pc.Loop? && IsRun(Step(o, Command(Shutdown)), inputs)
    ensures
      var o' := Run(Step(o, Command(Shutdown)), inputs);
      && (o'.pc.Failed? <==> Done(false) in inputs)
      && (o'.pc.Finished? ==> o'.sent == o.sent + [ToMemory, ToIo(ShutdownDone)])
      && (o'.pc.AwaitShutdown? || o'.pc.SendMemoryShutdown? ==> o'.sent == o.sent)
      && (o'.pc.SendIoShutdown? ==> o'.sent == o.sent + [ToMemory])
      && (o'.pc.AwaitShutdown? || o'.pc.SendMemoryShutdown? || o'.pc.SendIoShutdown? || o'.pc.Finished? || o'.pc.Failed?)
    decreases |inputs|
  {
    var o1 := Step(o, Command(Shutdown));
    if inputs != [] {
      RunInit(o1, inputs);
      ShutdownRuns(o, Init(inputs));
      var (before, i) := (Run(o1, Init(inputs)), Last(inputs));
      assert inputs == Init(inputs) + [i];
      FailsIff(before, i);
      assert o.sent + [ToMemory] + [ToIo(ShutdownDone)] == o.sent + [ToMemory, ToIo(ShutdownDone)];
    }
  }

  predicate ClosingAt(pc: Pc, n: nat)
  {
    match pc
    case AwaitShutdown => n == 0
    case SendMemoryShutdown => n == 0
    case SendIoShutdown => n == 1
    case Finished => n == 2
    case Failed => n <= 2
    case _ => false
  }

  lemma {:induction false} ClosingRun(o: Orch, inputs: seq<Input>, t: seq<Event>, n: nat) returns (n': nat)
    requires IsRun(o, inputs) && ClosingAt(o.pc, n) && o.sent == t + Close(n)
    ensures ClosingAt(Run(o, inputs).pc, n') && Run(o, inputs).sent == t + Close(n')
    decreases |inputs|
  {
    n' := n;
    if inputs != [] {
      var o' := Step(o, inputs[0]);
      var m := if o'.sent == o.sent then n else n + 1;
      assert o'.sent == t + Close(m) by {
        if o'.sent != o.sent { assert Close(n) + [EventOf(o.pc)] == Close(m); }
      }
      n' := ClosingRun(o', inputs[1..], t, m);
    }
  }

  /** Once the VM is shutting down, whatever ends the wait, only the memory thread's shutdown and
      then the I/O thread's are sent; the run cannot finish without both. */
  lemma ShutdownOnlyCloses(o: Orch, inputs: seq<Input>) returns (n: nat)
    requires IsRun(o, inputs) && o.pc.AwaitShutdown?
    ensures n <= 2 && Run(o, inputs).sent == o.sent + Close(n)
    ensures Run(o, inputs).pc.Finished? ==> n == 2
  {
    assert o.sent + Close(0) == o.sent;
    n := ClosingRun(o, inputs, o.sent, 0);
  }

  //
  // and every story is told by some run
  //

  lemma {:induction false} RunAppend(o: Orch, inputs: seq<Input>, i: Input)
    requires IsRun(o, inputs) && Accepts(Run(o, inputs).pc, i)
    ensures IsRun(o, inputs + [i]) && Run(o, inputs + [i]) == Step(Run(o, inputs), i)
    decreases |inputs|
  {
    if inputs == [] {
      assert (inputs + [i])[1..] == [];
    } else {
      assert (inputs + [i])[1..] == inputs[1..] + [i];
      RunAppend(Step(o, inputs[0]), inputs[1..], i);
    }
  }

  lemma ReachInitial()
    ensures Reaches(INITIAL)
  {
    assert IsRun(INITIAL, []) && Run(INITIAL, []) == INITIAL;
  }

  lemma ReachStep(o: Orch, i: Input) returns (o': Orch)
    requires Reaches(o) && Accepts(o.pc, i)
    ensures o' == Step(o, i) && Reaches(o')
  {
    var inputs :| IsRun(INITIAL, inputs) && Run(INITIAL, inputs) == o;
    RunAppend(INITIAL, inputs, i);
    o' := Step(o, i);
  }

  lemma ReachPause(t: seq<Event>)
    requires Reaches(Orch(Loop, Running, t))
    ensures Reaches(Orch(SendFlushInput, Running, t + Flushes(1)))
    ensures Reaches(Orch(AwaitFlushed, Running, t + Flushes(2)))
    ensures Reaches(Orch(Loop, Paused, t + Pause([])))
  {
    var o := ReachStep(Orch(Loop, Running, t), Command(PauseMicroVm));
    o := ReachStep(o, Done(true));
    o := ReachStep(o, Response(VcpuPaused));
    o := ReachStep(o, Done(true));
    assert o == Orch(SendFlushInput, Running, t + Flushes(1));
    o := ReachStep(o, Done(true));
    assert t + [ToIo(FlushOutput)] + [ToIo(FlushInput)] == t + Flushes(2);
    assert o == Orch(AwaitFlushed, Running, t + Flushes(2));
    o := ReachStep(o, Command(SystemCallFlushed));
    o := ReachStep(o, Done(true));
    assert t + Flushes(2) + [ToIo(MicroVmPaused)] == t + Pause([]);
  }

  lemma {:induction false} ReachSnapshots(t: seq<Event>, paths: seq<string>)
    requires Reaches(Orch(Loop, Paused, t + Pause([])))
    ensures Reaches(Orch(Loop, Paused, t + Pause(paths)))
    decreases |paths|
  {
    if paths != [] {
      var (init, last) := (paths[..|paths| - 1], paths[|paths| - 1]);
      ReachSnapshots(t, init);
      var o := ReachStep(Orch(Loop, Paused, t + Pause(init)), Command(CreateSnapshot(last)));
      o := ReachStep(o, Done(true));
      o := ReachStep(o, Response(SnapshotTaken));
      assert t + Pause(init) + [ToVcpu(TakeSnapshot(last))] == t + Pause(paths);
    }
  }

  lemma ReachBoot(restored: bool)
    ensures Reaches(Orch(Loop, Running, Boot(restored)))
  {
    ReachInitial();
    var o := INITIAL;
    if restored {
      o := ReachStep(o, Command(LoadSnapshotAndRun));
      o := ReachStep(o, Done(true));
      o := ReachStep(o, Done(true));
      o := ReachStep(o, Done(true));
    } else {
      o := ReachStep(o, Command(StartMicroVm));
    }
  }

  lemma ReachResume(t: seq<Event>)
    requires Reaches(Orch(Loop, Paused, t))
    ensures Reaches(Orch(Loop, Running, t + [ToVcpu(Resume)]))
  {
    var o := ReachStep(Orch(Loop, Paused, t), Command(ResumeMicroVm));
    o := ReachStep(o, Done(true));
    o := ReachStep(o, Done(true));
  }

  lemma ConcatAssoc4(a: seq<Event>, b: seq<Event>, c: seq<Event>, d: seq<Event>)
    ensures a + b + c + d == a + (b + (c + d))
  {
  }

  lemma {:induction false} ReachCycles(restored: bool, pauses: seq<seq<string>>)
    ensures Reaches(Orch(Loop, Running, Boot(restored) + Cycles(pauses)))
    decreases |pauses|
  {
    if pauses == [] {
      ReachBoot(restored);
      assert Boot(restored) + [] == Boot(restored);
    } else {
      var (init, last) := (pauses[..|pauses| - 1], pauses[|pauses| - 1]);
      ReachCycles(restored, init);
      var t := Boot(restored) + Cycles(init);
      ReachPause(t);
      ReachSnapshots(t, last);
      ReachResume(t + Pause(last));
      ConcatAssoc4(Boot(restored), Cycles(init), Pause(last), [ToVcpu(Resume)]);
    }
  }

  lemma ReachClose(state: VmState, t: seq<Event>, n: nat) returns (o: Orch)
    requires Reaches(Orch(Loop, state, t)) && n <= 2
    ensures Reaches(o) && o.sent == t + Close(n)
  {
    o := Orch(Loop, state, t);
    if n == 0 {
      assert t + [] == t;
    } else {
      o := ReachStep(o, CommandsClosed);
      o := ReachStep(o, Done(true));
      if n == 2 {
        o := ReachStep(o, Done(true));
        assert t + [ToMemory] + [ToIo(ShutdownDone)] == t + Close(2);
      }
    }
  }

  lemma ReachStory(st: Story) returns (o: Orch)
    requires ValidStory(st)
    ensures Reaches(o) && o.sent == Render(st)
  {
    var t := Boot(st.restored) + Cycles(st.pauses);
    ReachCycles(st.restored, st.pauses);
    match st.tail {
      case Idle(n) =>
        o := ReachClose(Running, t, n);
      case Flushing(n) =>
        ReachPause(t);
        o := Orch(if n == 1 then SendFlushInput else AwaitFlushed, Running, t + Flushes(n));
      case AtRest(paths, n) =>
        ReachPause(t);
        ReachSnapshots(t, paths);
        o := ReachClose(Paused, t + Pause(paths), n);
        assert t + Pause(paths) + Close(n) == t + (Pause(paths) + Close(n));
    }
  }

  /** The traces of the orchestrator, over all its runs, are exactly the renderings of stories. */
  lemma TraceLanguage(t: seq<Event>)
    ensures (exists o :: Reaches(o) && o.sent == t) <==> Tellable(t)
  {
    forall o | Reaches(o) && o.sent == t
      ensures Tellable(t)
    {
      var st := ReachesTells(o);
    }
    forall st | ValidStory(st) && Render(st) == t
      ensures exists o :: Reaches(o) && o.sent == t
    {
      var o := ReachStory(st);
    }
  }
}
