/** The orchestrator's code: nested loops over its channels. Each method is proved to extend the run of the
    flat machine in `Orchestrator` that has led here, on exactly the commands and responses that it takes
    off the channels, so that what is proved of the machine's traces holds of the code. */
module OrchestratorThread {
  import opened Bytes
  import opened Orchestrator

  /** `Result<ControlFlow<()>>`. */
  datatype Flow = Continue | Break | Error

  /** What a command amounts to when nothing fails: the new VM state and the messages sent. A command
      that does not apply to the VM's state does nothing. */
  function Effect(state: VmState, command: IoCommand): (VmState, seq<Event>)
  {
    match command
    case StartMicroVm => (if state.PreBoot? then Running else state, [])
    case LoadSnapshotAndRun => if state.PreBoot? then (Running, [ToVcpu(Resume)]) else (state, [])
    case PauseMicroVm => if state.Running? then (Paused, Pause([])) else (state, [])
    case CreateSnapshot(path) => (state, if state.Paused? then [ToVcpu(TakeSnapshot(path))] else [])
    case ResumeMicroVm => if state.Paused? then (Running, [ToVcpu(Resume)]) else (state, [])
    case SystemCallFlushed => (state, [])
    case Shutdown => (ShuttingDown, [])
  }

  /** What a run has taken off each channel, and how its callbacks and sends have ended. */
  ghost function CommandsIn(inputs: seq<Input>): seq<IoCommand>
  {
    if inputs == [] then [] else CommandsIn(Init(inputs)) + if Last(inputs).Command? then [Last(inputs).command] else []
  }

  ghost function ResponsesIn(inputs: seq<Input>): seq<VcpuResponse>
  {
    if inputs == [] then [] else ResponsesIn(Init(inputs)) + if Last(inputs).Response? then [Last(inputs).response] else []
  }

  ghost function DonesIn(inputs: seq<Input>): seq<bool>
  {
    if inputs == [] then [] else DonesIn(Init(inputs)) + if Last(inputs).Done? then [Last(inputs).ok] else []
  }

  lemma InputsAppend(inputs: seq<Input>, i: Input)
    ensures CommandsIn(inputs + [i]) == CommandsIn(inputs) + if i.Command? then [i.command] else []
    ensures ResponsesIn(inputs + [i]) == ResponsesIn(inputs) + if i.Response? then [i.response] else []
    ensures DonesIn(inputs + [i]) == DonesIn(inputs) + if i.Done? then [i.ok] else []
  {
    assert Init(inputs + [i]) == inputs && Last(inputs + [i]) == i;
  }

  /** Callbacks and sends have ended as the environment decides. */
  ghost predicate AsDecided(dones: seq<bool>, succeeds: nat -> bool)
  {
    forall k :: 0 <= k < |dones| ==> dones[k] == succeeds(k)
  }

  /** The shutdown wait times out only after it has taken in `patience` messages. */
  ghost predicate Timely(inputs: seq<Input>, patience: nat)
  {
    forall k :: 0 <= k < |inputs| && inputs[k].Timeout? ==> WaitedSince(inputs, k, patience)
  }

  /** `patience` inputs before input `k`, the machine was in the shutdown wait. */
  ghost predicate WaitedSince(inputs: seq<Input>, k: nat, patience: nat)
  {
    && patience <= k <= |inputs|
    && IsRun(INITIAL, inputs[..k - patience])
    && Orchestrator.Run(INITIAL, inputs[..k - patience]).pc.AwaitShutdown?
  }

  lemma TimelyAppend(inputs: seq<Input>, i: Input, patience: nat)
    requires Timely(inputs, patience)
    requires i.Timeout? ==> WaitedSince(inputs, |inputs|, patience)
    ensures Timely(inputs + [i], patience)
  {
    forall k | 0 <= k < |inputs + [i]| && (inputs + [i])[k].Timeout? ensures WaitedSince(inputs + [i], k, patience) {
      assert WaitedSince(inputs, k, patience);
      assert (inputs + [i])[..k - patience] == inputs[..k - patience];
    }
  }

  /** What ends the orchestrator's loop without an error. */
  predicate Ends(i: Input)
  {
    i == Response(VcpuShutdown) || i.CommandsClosed? || i.ResponsesClosed? || i.Timeout?
  }

  /** The two shutdown messages have gone out, after something that ends the loop. */
  ghost predicate Closed(sent: seq<Event>, inputs: seq<Input>)
  {
    && |sent| >= 2 && sent[|sent| - 2..] == Close(2)
    && |inputs| >= 3 && Ends(inputs[|inputs| - 3]) && inputs[|inputs| - 2..] == [Done(true), Done(true)]
  }

  class Thread {
    var state: VmState
    /** What the receivers yield before their channels turn out to be closed. */
    var commands: seq<IoCommand>
    var responses: seq<VcpuResponse>
    var sent: seq<Event>
    /** Callbacks and sends so far; the environment decides how each ends. */
    var calls: nat
    const succeeds: nat -> bool
    /** How many messages the shutdown wait takes in before its timeout. */
    const patience: nat
    // how all this came about
    ghost const allCommands: seq<IoCommand>
    ghost const allResponses: seq<VcpuResponse>
    ghost var inputs: seq<Input>

    /** The machine has taken in exactly what has happened: what was received, in order; closed channels
        only once they were empty; callbacks and sends as they ended; the timeout when it was due. */
    ghost predicate Traced()
      reads this
    {
      && IsRun(INITIAL, inputs)
      && CommandsIn(inputs) + commands == allCommands
      && ResponsesIn(inputs) + responses == allResponses
      && (CommandsClosed in inputs ==> commands == [])
      && (ResponsesClosed in inputs ==> responses == [])
      && |DonesIn(inputs)| == calls && AsDecided(DonesIn(inputs), succeeds)
      && Timely(inputs, patience)
    }

    /** The machine is at `pc` and agrees about the VM's state and the messages sent. */
    ghost predicate At(pc: Pc)
      reads this
    {
      Traced() && Orchestrator.Run(INITIAL, inputs) == Orch(pc, state, sent)
    }

    constructor (commands: seq<IoCommand>, responses: seq<VcpuResponse>, succeeds: nat -> bool, patience: nat)
      ensures At(Loop) && state.PreBoot? && sent == [] && inputs == []
      ensures this.commands == allCommands == commands && this.responses == allResponses == responses
      ensures this.succeeds == succeeds && this.patience == patience && calls == 0
    {
      this.commands, this.responses, this.succeeds, this.patience := commands, responses, succeeds, patience;
      allCommands, allResponses := commands, responses;
      state, sent, inputs, calls := PreBoot, [], [], 0;
    }

    /** The machine takes a step; the code's own assignments follow. */
    ghost method Follow(i: Input)
      requires IsRun(INITIAL, inputs) && Accepts(Orchestrator.Run(INITIAL, inputs).pc, i)
      requires Timely(inputs, patience) && (i.Timeout? ==> WaitedSince(inputs, |inputs|, patience))
      modifies this`inputs
      ensures inputs == old(inputs) + [i] && IsRun(INITIAL, inputs) && Timely(inputs, patience)
      ensures Orchestrator.Run(INITIAL, inputs) == Step(Orchestrator.Run(INITIAL, old(inputs)), i)
      ensures CommandsIn(inputs) == CommandsIn(old(inputs)) + if i.Command? then [i.command] else []
      ensures ResponsesIn(inputs) == ResponsesIn(old(inputs)) + if i.Response? then [i.response] else []
      ensures DonesIn(inputs) == DonesIn(old(inputs)) + if i.Done? then [i.ok] else []
    {
      RunAppend(INITIAL, inputs, i);
      InputsAppend(inputs, i);
      TimelyAppend(inputs, i, patience);
      inputs := inputs + [i];
    }

    /** A channel turns out to be closed, or the timeout strikes. */
    ghost method Proceed(i: Input)
      requires Traced() && Accepts(Orchestrator.Run(INITIAL, inputs).pc, i)
      requires i.CommandsClosed? || i.ResponsesClosed? || i.Timeout?
      requires (i.CommandsClosed? ==> commands == []) && (i.ResponsesClosed? ==> responses == [])
      requires i.Timeout? ==> WaitedSince(inputs, |inputs|, patience)
      modifies this`inputs
      ensures Traced() && inputs == old(inputs) + [i]
      ensures Orchestrator.Run(INITIAL, inputs) == Step(Orchestrator.Run(INITIAL, old(inputs)), i)
    {
      assert CommandsIn(inputs) + [] == CommandsIn(inputs) && ResponsesIn(inputs) + [] == ResponsesIn(inputs);
      assert DonesIn(inputs) + [] == DonesIn(inputs);
      Follow(i);
    }

    /** How the next callback or send ends. */
    method Report() returns (ok: bool)
      requires Traced() && Accepts(Orchestrator.Run(INITIAL, inputs).pc, Done(true))
      modifies this`calls, this`inputs
      ensures Traced() && old(inputs) <= inputs && ok == succeeds(old(calls)) && calls == old(calls) + 1
      ensures inputs == old(inputs) + [Done(ok)]
      ensures Orchestrator.Run(INITIAL, inputs) == Step(Orchestrator.Run(INITIAL, old(inputs)), Done(ok))
    {
      ok := succeeds(calls);
      assert AsDecided(DonesIn(inputs) + [ok], succeeds);
      assert CommandsIn(inputs) + [] == CommandsIn(inputs) && ResponsesIn(inputs) + [] == ResponsesIn(inputs);
      Follow(Done(ok));
      calls := calls + 1;
    }

    /** `recv` on the channel from the I/O thread. */
    method NextCommand() returns (command: IoCommand)
      requires Traced() && commands != [] && Accepts(Orchestrator.Run(INITIAL, inputs).pc, Command(commands[0]))
      modifies this`commands, this`inputs
      ensures Traced() && inputs == old(inputs) + [Command(command)]
      ensures command == old(commands)[0] && commands == old(commands)[1..]
      ensures Orchestrator.Run(INITIAL, inputs) == Step(Orchestrator.Run(INITIAL, old(inputs)), Command(command))
    {
      command := commands[0];
      ConcatAssoc(CommandsIn(inputs), [command], commands[1..]);
      assert [command] + commands[1..] == commands;
      assert ResponsesIn(inputs) + [] == ResponsesIn(inputs) && DonesIn(inputs) + [] == DonesIn(inputs);
      commands := commands[1..];
      Follow(Command(command));
    }

    /** `recv` on the channel from the vCPU. */
    method NextResponse() returns (response: VcpuResponse)
      requires Traced() && responses != [] && Accepts(Orchestrator.Run(INITIAL, inputs).pc, Response(responses[0]))
      modifies this`responses, this`inputs
      ensures Traced() && inputs == old(inputs) + [Response(response)]
      ensures response == old(responses)[0] && responses == old(responses)[1..]
      ensures Orchestrator.Run(INITIAL, inputs) == Step(Orchestrator.Run(INITIAL, old(inputs)), Response(response))
    {
      response := responses[0];
      ConcatAssoc(ResponsesIn(inputs), [response], responses[1..]);
      assert [response] + responses[1..] == responses;
      assert CommandsIn(inputs) + [] == CommandsIn(inputs) && DonesIn(inputs) + [] == DonesIn(inputs);
      responses := responses[1..];
      Follow(Response(response));
    }

    /** A callback into the VMM, which may report an error. */
    method Call(ghost pc: Pc) returns (ok: bool)
      requires (pc.CallPause? || pc.CallLoad? || pc.CallResume?) && At(pc)
      modifies this`calls, this`inputs
      ensures At(if !ok then Failed else if pc.CallPause? then AwaitPaused else if pc.CallLoad? then CallResume else SendResume)
      ensures old(inputs) <= inputs && ok == succeeds(old(calls)) && calls == old(calls) + 1
    {
      ok := Report();
    }

    /** A send on one of the channels, which fails when its receiver is gone. */
    method Send(e: Event, ghost pc: Pc) returns (ok: bool)
      requires IsSend(pc) && At(pc) && e == EventOf(pc)
      modifies this`calls, this`sent, this`inputs
      ensures Traced() && inputs == old(inputs) + [Done(ok)] && ok == succeeds(old(calls)) && calls == old(calls) + 1
      ensures ok ==> sent == old(sent) + [e]
      ensures !ok ==> sent == old(sent) && At(Failed)
      ensures ok ==> Orchestrator.Run(INITIAL, inputs) == Orch(AfterSend(pc), if pc.SendResume? then Running else state, sent)
    {
      ok := Report();
      if ok {
        sent := sent + [e];
      }
    }

    method ReceiveSystemCallFlushed() returns (ok: bool)
      requires At(AwaitFlushed)
      modifies this`commands, this`inputs
      ensures old(inputs) <= inputs && |commands| <= |old(commands)|
      ensures ok <==> SystemCallFlushed in old(commands)
      ensures ok ==> Traced() && Orchestrator.Run(INITIAL, inputs) == Orch(SendPaused, Paused, sent)
      ensures !ok ==> At(Failed)
    {
      while true
        invariant At(AwaitFlushed) && old(inputs) <= inputs && |commands| <= |old(commands)|
        invariant SystemCallFlushed in commands <==> SystemCallFlushed in old(commands)
        decreases |commands|
      {
        if commands == [] {
          Proceed(CommandsClosed);
          return false;
        }
        assert commands == [commands[0]] + commands[1..];
        var command := NextCommand();
        if command.SystemCallFlushed? {
          return true;
        }
      }
    }

    method PauseProtocol() returns (ok: bool)
      requires At(CallPause) && state.Running?
      modifies this
      ensures At(if ok then Loop else Failed) && old(inputs) <= inputs
      ensures ok ==> state.Paused? && sent == old(sent) + Pause([])
      ensures ok <==> && succeeds(old(calls)) && old(responses) != [] && old(responses)[0].VcpuPaused?
                      && FlushSucceeds(old(commands), old(calls) + 1)
      ensures old(sent) <= sent <= old(sent) + Pause([])
      ensures |commands| <= |old(commands)| && |responses| <= |old(responses)|
    {
      ok := Call(CallPause);
      if !ok { return; }
      if responses == [] {
        Proceed(ResponsesClosed);
        return false;
      }
      var response := NextResponse();
      if response != VcpuPaused { return false; }
      ok := FlushProtocol();
    }

    /** Both flush requests can be sent, an acknowledgement is to come, and the confirmation can be sent. */
    predicate FlushSucceeds(commands: seq<IoCommand>, calls: nat)
    {
      succeeds(calls) && succeeds(calls + 1) && SystemCallFlushed in commands && succeeds(calls + 2)
    }

    /** The second half of the pause protocol, after the vCPU has stopped. */
    method FlushProtocol() returns (ok: bool)
      requires At(SendFlushOutput) && state.Running?
      modifies this`commands, this`state, this`sent, this`calls, this`inputs
      ensures At(if ok then Loop else Failed) && old(inputs) <= inputs
      ensures ok ==> state.Paused? && sent == old(sent) + Pause([])
      ensures ok <==> FlushSucceeds(old(commands), old(calls))
      ensures old(sent) <= sent <= old(sent) + Pause([])
      ensures |commands| <= |old(commands)|
    {
      ok := SendFlushes();
      if !ok { return; }
      ok := ReceiveSystemCallFlushed();
      if !ok { return; }
      state := Paused;
      ok := Send(ToIo(MicroVmPaused), SendPaused);
      assert old(sent) + Flushes(2) + [ToIo(MicroVmPaused)] == old(sent) + Pause([]);
    }

    method SendFlushes() returns (ok: bool)
      requires At(SendFlushOutput)
      modifies this`sent, this`calls, this`inputs
      ensures At(if ok then AwaitFlushed else Failed) && old(inputs) <= inputs
      ensures ok <==> succeeds(old(calls)) && succeeds(old(calls) + 1)
      ensures ok ==> sent == old(sent) + Flushes(2) && calls == old(calls) + 2
      ensures old(sent) <= sent <= old(sent) + Flushes(2)
    {
      ok := Send(ToIo(FlushOutput), SendFlushOutput);
      if !ok { return; }
      ok := Send(ToIo(FlushInput), SendFlushInput);
      assert old(sent) + [ToIo(FlushOutput)] + [ToIo(FlushInput)] == old(sent) + Flushes(2);
    }

    /** The VM only counts as running once the resume command has gone out. */
    method ResumeProtocol() returns (ok: bool)
      requires At(CallResume)
      modifies this`state, this`sent, this`calls, this`inputs
      ensures At(if ok then Loop else Failed) && old(inputs) <= inputs
      ensures ok <==> succeeds(old(calls)) && succeeds(old(calls) + 1)
      ensures ok ==> state.Running? && sent == old(sent) + [ToVcpu(Resume)]
      ensures !ok ==> state == old(state) && sent == old(sent)
    {
      ok := Call(CallResume);
      if !ok { return; }
      ok := Send(ToVcpu(Resume), SendResume);
      if !ok { return; }
      state := Running;
    }

    method LoadProtocol() returns (ok: bool)
      requires At(CallLoad)
      modifies this`state, this`sent, this`calls, this`inputs
      ensures At(if ok then Loop else Failed) && old(inputs) <= inputs
      ensures ok <==> succeeds(old(calls)) && succeeds(old(calls) + 1) && succeeds(old(calls) + 2)
      ensures ok ==> state.Running? && sent == old(sent) + [ToVcpu(Resume)]
      ensures !ok ==> state == old(state) && sent == old(sent)
    {
      ok := Call(CallLoad);
      if ok { ok := ResumeProtocol(); }
    }

    method SnapshotProtocol(path: string) returns (ok: bool)
      requires At(SendSnapshot(path))
      modifies this`responses, this`sent, this`calls, this`inputs
      ensures At(if ok then Loop else Failed) && old(inputs) <= inputs
      ensures ok ==> sent == old(sent) + [ToVcpu(TakeSnapshot(path))]
      ensures ok <==> succeeds(old(calls)) && old(responses) != [] && old(responses)[0].SnapshotTaken?
      ensures old(sent) <= sent <= old(sent) + [ToVcpu(TakeSnapshot(path))]
      ensures |responses| <= |old(responses)|
    {
      ok := Send(ToVcpu(TakeSnapshot(path)), SendSnapshot(path));
      if !ok { return; }
      if responses == [] {
        Proceed(ResponsesClosed);
        return false;
      }
      var response := NextResponse();
      return response.SnapshotTaken?;
    }

    /** When a command does not fail. Those that involve nobody else, a shutdown among them, never do, nor does
        one that does not apply to the VM's state. */
    predicate Works(state: VmState, command: IoCommand, commands: seq<IoCommand>, responses: seq<VcpuResponse>, n: nat)
    {
      match command
      case LoadSnapshotAndRun => state.PreBoot? ==> succeeds(n) && succeeds(n + 1) && succeeds(n + 2)
      case PauseMicroVm =>
        state.Running? ==> succeeds(n) && responses != [] && responses[0].VcpuPaused? && FlushSucceeds(commands, n + 1)
      case CreateSnapshot(_) => state.Paused? ==> succeeds(n) && responses != [] && responses[0].SnapshotTaken?
      case ResumeMicroVm => state.Paused? ==> succeeds(n) && succeeds(n + 1)
      case _ => true
    }

    /** The machine has dispatched `command`; the code still has to act on it. */
    method TryReceiveFromIoThread(command: IoCommand) returns (flow: Flow)
      requires Traced() && Orchestrator.Run(INITIAL, inputs) == Dispatch(Orch(Loop, state, sent), command)
      requires !state.ShuttingDown?
      modifies this
      ensures old(inputs) <= inputs
      ensures flow.Continue? ==> At(if state.ShuttingDown? then AwaitShutdown else Loop)
      ensures flow.Continue? || (flow.Error? && At(Failed))
      ensures flow.Continue? <==> Works(old(state), command, old(commands), old(responses), old(calls))
      ensures flow.Continue? ==>
                state == Effect(old(state), command).0 && sent == old(sent) + Effect(old(state), command).1
      ensures old(sent) <= sent <= old(sent) + Effect(old(state), command).1
      ensures |commands| <= |old(commands)| && |responses| <= |old(responses)|
    {
      assert sent + [] == sent;
      var ok := true;
      match command {
        case StartMicroVm =>
          if state.PreBoot? { state := Running; }
        case LoadSnapshotAndRun =>
          if state.PreBoot? { ok := LoadProtocol(); }
        case PauseMicroVm =>
          if state.Running? { ok := PauseProtocol(); }
        case CreateSnapshot(path) =>
          if state.Paused? { ok := SnapshotProtocol(path); }
        case ResumeMicroVm =>
          if state.Paused? { ok := ResumeProtocol(); }
        case SystemCallFlushed =>
        case Shutdown =>
          state := ShuttingDown;
      }
      flow := if ok then Continue else Error;
    }

    method TryReceiveFromVcpu(response: VcpuResponse) returns (flow: Flow)
      requires Traced()
      requires Orchestrator.Run(INITIAL, inputs) == Step(Orch(Loop, state, sent), Response(response))
      ensures response.VcpuShutdown? ==> flow.Break? && At(SendMemoryShutdown)
      ensures !response.VcpuShutdown? ==> flow.Error? && At(Failed)
    {
      flow := if response.VcpuShutdown? then Break else Error;
    }

    /** Ends with the vCPU's confirmation, with its channel closed or with the timeout. */
    method WaitForShutdown()
      requires At(AwaitShutdown)
      modifies this`commands, this`responses, this`inputs
      ensures At(SendMemoryShutdown) && old(inputs) < inputs
      ensures Last(inputs) == Response(VcpuShutdown) || Last(inputs).ResponsesClosed? || Last(inputs).Timeout?
      ensures Last(inputs).ResponsesClosed? ==> VcpuShutdown !in old(responses) && responses == []
      ensures Last(inputs).Timeout? ==> |inputs| == |old(inputs)| + patience + 1
    {
      var taken := 0;
      while true
        invariant At(AwaitShutdown) && old(inputs) <= inputs
        invariant |inputs| == |old(inputs)| + taken && taken <= patience
        invariant VcpuShutdown in responses <==> VcpuShutdown in old(responses)
        decreases |commands| + |responses|
      {
        if taken == patience {
          assert inputs[..|inputs| - patience] == old(inputs);
          Proceed(Timeout);
          return;
        }
        var done := TakeOne();
        if done { return; }
        taken := taken + 1;
      }
    }

    /** One turn of the shutdown wait. */
    method TakeOne() returns (done: bool)
      requires At(AwaitShutdown)
      modifies this`commands, this`responses, this`inputs
      ensures At(if done then SendMemoryShutdown else AwaitShutdown)
      ensures |inputs| == |old(inputs)| + 1 && old(inputs) < inputs
      ensures done ==> Last(inputs) == Response(VcpuShutdown) || Last(inputs).ResponsesClosed?
      ensures Last(inputs).ResponsesClosed? ==> old(responses) == responses == []
      ensures !done ==> |commands| + |responses| < |old(commands)| + |old(responses)|
      ensures !done ==> (VcpuShutdown in responses <==> VcpuShutdown in old(responses))
    {
      var fromIo: bool := *;
      if fromIo && commands != [] {
        var _ := NextCommand();
        return false;
      }
      if responses == [] {
        Proceed(ResponsesClosed);
        return true;
      }
      assert responses == [responses[0]] + responses[1..];
      var response := NextResponse();
      return response.VcpuShutdown?;
    }

    /** The loop itself, up to the clean-up; errors propagated with `?` skip the clean-up. */
    method RunLoop() returns (ok: bool)
      requires At(Loop) && state.PreBoot?
      modifies this
      ensures At(if ok then SendMemoryShutdown else Failed)
      ensures old(inputs) <= inputs && old(sent) <= sent
      ensures ok ==> inputs != [] && Ends(Last(inputs))
    {
      while true
        invariant At(if state.ShuttingDown? then AwaitShutdown else Loop)
        invariant old(inputs) <= inputs && old(sent) <= sent
        decreases |commands| + |responses|
      {
        if state.ShuttingDown? {
          WaitForShutdown();
          return true;
        }
        var flow := Turn();
        match flow {
          case Continue =>
          case Break => return true;
          case Error => return false;
        }
      }
    }

    /** One turn of the loop: whichever channel is served, a message is handled or the channel is closed. */
    method Turn() returns (flow: Flow)
      requires At(Loop) && !state.ShuttingDown?
      modifies this
      ensures old(inputs) < inputs && old(sent) <= sent
      ensures flow.Continue? ==> At(if state.ShuttingDown? then AwaitShutdown else Loop)
      ensures flow.Continue? ==> |commands| + |responses| < |old(commands)| + |old(responses)|
      ensures flow.Break? ==> At(SendMemoryShutdown) && Ends(Last(inputs))
      ensures flow.Error? ==> At(Failed)
      ensures
        var i := inputs[|old(inputs)|];
        && (i.Command? || i.Response? || i.CommandsClosed? || i.ResponsesClosed?)
        && (flow.Break? <==> i == Response(VcpuShutdown) || i.CommandsClosed? || i.ResponsesClosed?)
        && (flow.Continue? <==> i.Command? && old(commands) != [] && i.command == old(commands)[0]
                                && Works(old(state), i.command, old(commands)[1..], old(responses), old(calls)))
    {
      var fromIo: bool := *;
      if fromIo {
        if commands == [] {
          Proceed(CommandsClosed);
          return Break;
        }
        var command := NextCommand();
        flow := TryReceiveFromIoThread(command);
      } else {
        if responses == [] {
          Proceed(ResponsesClosed);
          return Break;
        }
        var response := NextResponse();
        flow := TryReceiveFromVcpu(response);
      }
    }

    /** All that the thread is given decides what it does, but for which of two ready channels it serves
        first: the run that its messages tell of is one on exactly the commands, responses, outcomes and
        timeout of its environment. */
    method Run() returns (ok: bool)
      requires At(Loop) && state.PreBoot?
      modifies this
      ensures At(if ok then Finished else Failed)
      ensures old(inputs) <= inputs && old(sent) <= sent
      ensures Tellable(sent)
      ensures ok ==> Closed(sent, inputs)
    {
      ok := RunLoop();
      if ok {
        ok := CleanUp();
      }
      RunRenders(inputs);
    }

    method CleanUp() returns (ok: bool)
      requires At(SendMemoryShutdown) && inputs != [] && Ends(Last(inputs))
      modifies this`sent, this`calls, this`inputs
      ensures At(if ok then Finished else Failed) && (ok <==> succeeds(old(calls)) && succeeds(old(calls) + 1))
      ensures old(inputs) <= inputs && old(sent) <= sent
      ensures ok ==> sent == old(sent) + Close(2) && Closed(sent, inputs)
    {
      ok := Send(ToMemory, SendMemoryShutdown);
      if !ok { return; }
      ok := Send(ToIo(ShutdownDone), SendIoShutdown);
      assert old(sent) + [ToMemory] + [ToIo(ShutdownDone)] == old(sent) + Close(2);
      assert old(inputs) + [Done(true)] + [Done(ok)] == old(inputs) + [Done(true), Done(ok)];
    }
  }
}
