/** The code of the three threads of the inbound pipeline. Between any two accesses to what they share,
    the other threads may run. Each method is proved to extend the schedule that has led here, by exactly
    the steps of its own thread that it names and any steps of the others, so that what is proved of the
    machine in `Pipeline` holds of the code; its invariant discharges the sanity checks where they are. */
module PipelineThreads {
  import opened Bytes
  import opened Channels
  import opened Framing
  import opened Pipeline
  import opened Wrappers

  datatype Thread = Io | Mem | Vcpu

  predicate Of(a: Action, t: Thread)
  {
    match t
    case Io => IsIo(a)
    case Mem => IsMem(a)
    case Vcpu => !IsIo(a) && !IsMem(a)
  }

  //
  // Schedules
  //

  lemma {:induction false} RunAppend(s: State, schedule: seq<Action>, a: Action)
    requires IsSchedule(s, schedule) && Enabled(Run(s, schedule), a)
    ensures IsSchedule(s, schedule + [a]) && Run(s, schedule + [a]) == Step(Run(s, schedule), a)
    decreases |schedule|
  {
    if schedule == [] {
      assert (schedule + [a])[1..] == [];
    } else {
      assert (schedule + [a])[1..] == schedule[1..] + [a];
      RunAppend(Step(s, schedule[0]), schedule[1..], a);
    }
  }

  /** The steps of thread `t` in a schedule. */
  ghost function Own(schedule: seq<Action>, t: Thread): seq<Action>
  {
    if schedule == [] then [] else
    var last := schedule[|schedule| - 1];
    var own := Own(schedule[..|schedule| - 1], t);
    if Of(last, t) then own + [last] else own
  }

  lemma OwnAppend(schedule: seq<Action>, a: Action, t: Thread)
    ensures Own(schedule + [a], t) == if Of(a, t) then Own(schedule, t) + [a] else Own(schedule, t)
  {
    assert (schedule + [a])[..|schedule|] == schedule;
  }

  /** If one schedule extends another, then what it adds leads from where the other ends to where it
      ends. */
  lemma {:induction false} ExtensionLeads(s: State, before: seq<Action>, after: seq<Action>)
    requires IsSchedule(s, after) && before <= after
    ensures IsSchedule(s, before)
    ensures IsSchedule(Run(s, before), after[|before|..])
    ensures Run(Run(s, before), after[|before|..]) == Run(s, after)
    decreases |before|
  {
    if before == [] {
      assert after[0..] == after;
    } else {
      assert after[1..][|before[1..]|..] == after[|before|..];
      ExtensionLeads(Step(s, after[0]), before[1..], after[1..]);
    }
  }

  //
  // What the other threads leave alone
  //

  /** Frames that the I/O thread has handed over. */
  function Downstream(s: State): seq<IkcFrame>
  {
    Forwarded(s) + (MemHand(s.mem) + s.toMem)
  }

  lemma AppendDownstream(s: State, f: IkcFrame)
    ensures Downstream(s.(io := IoIdle, toMem := s.toMem + [f])) == Downstream(s) + [f]
  {
    ConcatAssoc(Forwarded(s), MemHand(s.mem) + s.toMem, [f]);
    ConcatAssoc(MemHand(s.mem), s.toMem, [f]);
  }

  lemma ReadKeepsDownstream(s: State, read: Bytes)
    requires Enabled(s, IoRead(read))
    ensures Downstream(Step(s, IoRead(read))) == Downstream(s)
  {
  }

  /** What `me` can rely on while the others run. */
  ghost predicate Frame(me: Thread, s: State, s': State)
  {
    match me
    case Io =>
      && s'.io == s.io && s'.decoder == s.decoder && s'.received == s.received && s'.counters.io == s.counters.io
      && Downstream(s') == Downstream(s) && (s.mem.MemExited? ==> s'.mem.MemExited?)
    case Mem =>
      && s'.mem == s.mem && s'.counters.mem == s.counters.mem
      && Forwarded(s') == Forwarded(s) && s'.credits + |s'.delivered| == s.credits + |s.delivered|
      && s.toMem <= s'.toMem
    case Vcpu =>
      && s'.vcpu == s.vcpu && s'.delivered == s.delivered
      && s'.counters.calls == s.counters.calls && s'.counters.vmm == s.counters.vmm
      && s.toVcpu <= s'.toVcpu && s.credits <= s'.credits
  }

  lemma IoStepFrame(me: Thread, s: State, a: Action)
    requires Enabled(s, a) && IsIo(a) && !me.Io?
    ensures Frame(me, s, Step(s, a))
  {
  }

  lemma MemStepFrame(me: Thread, s: State, a: Action)
    requires Enabled(s, a) && IsMem(a) && !me.Mem?
    ensures Frame(me, s, Step(s, a))
  {
    if a.MemSend? {
      SendForwards(s, s.mem.f);
      ConcatAssoc(Forwarded(s), [s.mem.f], s.toMem);
      assert [] + s.toMem == s.toMem;
    } else if me.Io? {
      MemKeepsInOrder(s, a);
      MemKeepsDownstream(s, a);
    }
  }

  lemma MemKeepsDownstream(s: State, a: Action)
    requires Enabled(s, a) && IsMem(a) && !a.MemSend?
    ensures MemHand(Step(s, a).mem) + Step(s, a).toMem == MemHand(s.mem) + s.toMem
  {
    if a.MemRecv? {
      assert [] + s.toMem == [s.toMem[0]] + s.toMem[1..];
    }
  }

  lemma VcpuStepFrame(me: Thread, s: State, a: Action)
    requires Enabled(s, a) && Of(a, Vcpu) && !me.Vcpu? && (s.vcpu.VChecked? ==> s.credits > 0)
    ensures Frame(me, s, Step(s, a))
  {
    assert Forwarded(Step(s, a)) == Forwarded(s);
  }

  /** No thread disturbs what another relies on. */
  lemma StepFrame(me: Thread, s: State, a: Action)
    requires Reachable(s) && Enabled(s, a) && !Of(a, me)
    ensures Frame(me, s, Step(s, a))
  {
    NoThreadFails(s);
    if IsIo(a) {
      IoStepFrame(me, s, a);
    } else if IsMem(a) {
      MemStepFrame(me, s, a);
    } else {
      VcpuStepFrame(me, s, a);
    }
  }

  /** What the I/O thread does with a frame that it has decoded. */
  function ForwardSteps(sent: bool): seq<Action>
  {
    if sent then [IoCount, IoSend] else [IoCount]
  }

  /** What the memory thread does with a frame that it has received. */
  function RelaySteps(sent: bool): seq<Action>
  {
    [MemCount, MemLoad, MemCheck] + if sent then [MemSend, MemCredit] else []
  }

  class Vm {
    // what the threads share: the channels, the counters, the credit register and guest memory
    var toMem: seq<IkcFrame>
    var toVcpu: seq<IkcFrame>
    var counters: Counters
    var credits: nat
    var guest: seq<IkcFrame>
    // where each thread is
    var decoder: Decoder
    var received: seq<Bytes>
    var io: IoPc
    var mem: MemPc
    var vcpu: VcpuPc
    // how all this came about
    ghost const origin: State
    ghost var schedule: seq<Action>

    function Value(): State
      reads this
    {
      State(decoder, io, mem, vcpu, toMem, toVcpu, credits, counters, received, guest, false, false)
    }

    ghost predicate Traced()
      reads this
    {
      && Initial(origin)
      && IsSchedule(origin, schedule)
      && Run(origin, schedule) == Value()
    }

    /** The schedule has grown, by the steps `own` of `me` and any steps of the others. */
    twostate predicate Did(me: Thread, own: seq<Action>)
      reads this
    {
      && Traced()
      && old(schedule) <= schedule
      && Own(schedule, me) == Own(old(schedule), me) + own
    }

    /** The schedule has grown, but not by steps of `me`. */
    twostate predicate Waited(me: Thread)
      reads this
    {
      Traced() && old(schedule) <= schedule && Own(schedule, me) == Own(old(schedule), me)
    }

    constructor ()
      ensures Traced() && schedule == []
      ensures Initial(Value())
    {
      toMem, toVcpu, guest, received := [], [], [], [];
      counters, credits := Counters(0, 0, 0, 0), 0;
      decoder, io, mem, vcpu := START, IoIdle, MemIdle, VIdle;
      origin := State(START, IoIdle, MemIdle, VIdle, [], [], 0, Counters(0, 0, 0, 0), [], [], false, false);
      schedule := [];
    }

    /** The machine takes a step; the code's own assignments follow. */
    ghost method Follow(a: Action)
      requires Traced() && Enabled(Value(), a)
      modifies this`schedule
      ensures schedule == old(schedule) + [a]
      ensures IsSchedule(origin, schedule) && Run(origin, schedule) == Step(Value(), a)
      ensures forall t :: Own(schedule, t) == if Of(a, t) then Own(old(schedule), t) + [a] else Own(old(schedule), t)
    {
      RunAppend(origin, schedule, a);
      forall t ensures Own(schedule + [a], t) == if Of(a, t) then Own(schedule, t) + [a] else Own(schedule, t) {
        OwnAppend(schedule, a, t);
      }
      schedule := schedule + [a];
    }

    lemma IsReachable()
      requires Traced()
      ensures Reachable(Value())
    {
    }

    /** The threads other than `me` run for a while. */
    method Others(me: Thread)
      requires Traced()
      modifies this
      ensures Waited(me) && Frame(me, old(Value()), Value())
    {
      var n: int := *;
      while n > 0
        invariant Waited(me) && Frame(me, old(Value()), Value())
      {
        n := n - 1;
        var a: Action := *;
        if Enabled(Value(), a) && !Of(a, me) {
          Other(me, a);
        }
      }
    }

    method Other(me: Thread, a: Action)
      requires Traced() && Enabled(Value(), a) && !Of(a, me)
      modifies this
      ensures Traced() && schedule == old(schedule) + [a] && Own(schedule, me) == Own(old(schedule), me)
      ensures Frame(me, old(Value()), Value())
    {
      IsReachable();
      StepFrame(me, Value(), a);
      var s := Step(Value(), a);
      Follow(a);
      assert Reachable(s);
      NoThreadFails(s);
      Become(s);
    }

    method Become(s: State)
      requires !s.panicked && !s.creditError
      modifies this
      ensures Value() == s && schedule == old(schedule)
    {
      toMem, toVcpu, credits, counters, guest := s.toMem, s.toVcpu, s.credits, s.counters, s.delivered;
      decoder, received, io, mem, vcpu := s.decoder, s.received, s.io, s.mem, s.vcpu;
    }

    //
    // I/O thread
    //

    /** One completed read from the socket. A frame that it completes is counted and then sent; an empty read,
        like any other that the decoder fails on, ends the thread. */
    method OnSocketRead(read: Bytes) returns (f: Option<IkcFrame>)
      requires Traced() && io.IoIdle? && Valid(decoder) && Fits(decoder, read)
      modifies this
      ensures Decoded(old(decoder), old(received), read, f)
      ensures read == [] ==> f.None? && decoder.failed
      ensures f.None? ==> io == (if decoder.failed then IoExited([]) else IoIdle) && Did(Io, [IoRead(read)])
      ensures f.Some? ==>
                && Handed(f.value, old(Value())) && counters.io == old(counters).io + 1
                && Did(Io, [IoRead(read)] + ForwardSteps(!io.IoCounted?))
    {
      f := Decode(read);
      if f.Some? {
        ForwardToMemoryThread(f.value);
        ConcatAssoc(Own(old(schedule), Io), [IoRead(read)], ForwardSteps(!io.IoCounted?));
      }
    }

    /** The decoder has taken in `read`, and `f` is the frame that this has completed, if any. */
    ghost predicate Decoded(before: Decoder, earlier: seq<Bytes>, read: Bytes, f: Option<IkcFrame>)
      requires Valid(before) && Fits(before, read)
      reads this
    {
      && decoder == Receive(before, read)
      && received == (if read == [] then earlier else earlier + [read])
      && decoder.delivered == (if f.Some? then before.delivered + [f.value] else before.delivered)
      && (f.Some? ==> !decoder.failed)
    }

    method Decode(read: Bytes) returns (f: Option<IkcFrame>)
      requires Traced() && io.IoIdle? && Valid(decoder) && Fits(decoder, read)
      modifies this
      ensures Did(Io, [IoRead(read)]) && Decoded(old(decoder), old(received), read, f)
      ensures read == [] ==> f.None? && decoder.failed
      ensures io == if f.Some? then IoDecoded(f.value) else if decoder.failed then IoExited([]) else IoIdle
      ensures counters == old(counters) && Downstream(Value()) == Downstream(old(Value()))
    {
      Follow(IoRead(read));
      ReadKeepsDownstream(Value(), read);
      FailsIff(decoder, read);
      ReceiveDeliversOne(decoder, read);
      ghost var s := Step(Value(), IoRead(read));
      var d := Receive(decoder, read);
      f := None;
      if d.failed {
        io := IoExited([]);
      } else if |d.delivered| != |decoder.delivered| {
        f := Some(d.delivered[|d.delivered| - 1]);
        io := IoDecoded(f.value);
      }
      decoder, received := d, if read == [] then received else received + [read];
      assert Value() == s;
    }

    /** Where a frame has gone that the I/O thread had decoded: behind all that it has handed over; or it is
        still in hand because the channel is full; or it is lost because the memory thread is gone. */
    ghost predicate Handed(f: IkcFrame, before: State)
      reads this
    {
      && Downstream(Value()) == (if io.IoIdle? then Downstream(before) + [f] else Downstream(before))
      && (io.IoIdle?
          || (io == IoCounted(f) && |toMem| >= CHANNEL_CAPACITY && !mem.MemExited?)
          || (io == IoExited([f]) && mem.MemExited?))
    }

    method ForwardToMemoryThread(f: IkcFrame)
      requires Traced() && io == IoDecoded(f)
      modifies this
      ensures decoder == old(decoder) && received == old(received)
      ensures Handed(f, old(Value())) && counters.io == old(counters).io + 1
      ensures Did(Io, ForwardSteps(!io.IoCounted?))
    {
      OnMessageReceivedFromSystemVm(f);
      SendToMemoryThread(f);
      ConcatAssoc(Own(old(schedule), Io), [IoCount], [IoSend]);
    }

    method OnMessageReceivedFromSystemVm(f: IkcFrame)
      requires Traced() && io == IoDecoded(f)
      modifies this
      ensures Did(Io, [IoCount]) && io == IoCounted(f)
      ensures decoder == old(decoder) && received == old(received)
      ensures counters.io == old(counters).io + 1 && Downstream(Value()) == Downstream(old(Value()))
    {
      Others(Io);
      Follow(IoCount);
      counters, io := counters.(io := counters.io + 1), IoCounted(f);
    }

    method SendToMemoryThread(f: IkcFrame)
      requires Traced() && io == IoCounted(f)
      modifies this
      ensures if io.IoCounted? then Waited(Io) else Did(Io, [IoSend])
      ensures decoder == old(decoder) && received == old(received)
      ensures Handed(f, old(Value())) && counters.io == old(counters).io
    {
      Others(Io);
      if |toMem| >= CHANNEL_CAPACITY && !mem.MemExited? {
        return;
      }
      Follow(IoSend);
      if mem.MemExited? {
        io := IoExited([f]);
      } else {
        AppendDownstream(Value(), f);
        toMem, io := toMem + [f], IoIdle;
      }
    }

    //
    // Memory thread
    //

    /** One turn of the relay loop: `f` is the frame received, if one was there. The frame is counted,
        forwarded and given its credit, in this order, unless the channel to the vCPU is full. */
    method Relay() returns (f: Option<IkcFrame>)
      requires Traced() && mem.MemIdle?
      modifies this
      ensures old(toMem) != [] ==> f == Some(old(toMem)[0])
      ensures f.None? ==> Waited(Mem) && toMem == [] && mem.MemIdle?
      ensures f.Some? ==> counters.mem == old(counters).mem + 1 && Relayed(f.value, old(Sent()), old(Given()))
      ensures f.Some? ==> Did(Mem, [MemRecv] + RelaySteps(mem.MemIdle?))
    {
      f := ReceiveFromIoThread();
      if f.Some? {
        RelayReceived(f.value);
        ConcatAssoc(Own(old(schedule), Mem), [MemRecv], RelaySteps(mem.MemIdle?));
      }
    }

    method RelayReceived(f: IkcFrame)
      requires Traced() && mem == MemTaken(f)
      modifies this
      ensures counters.mem == old(counters).mem + 1 && Relayed(f, old(Sent()), old(Given()))
      ensures Did(Mem, RelaySteps(mem.MemIdle?))
    {
      OnMessageReceivedFromIoThread(f);
      ForwardToVcpu(f);
      ConcatAssoc(Own(old(schedule), Mem), [MemCount, MemLoad, MemCheck], [MemSend, MemCredit]);
    }

    ghost function Sent(): seq<IkcFrame>
      reads this
    {
      Forwarded(Value())
    }

    /** Credits given out so far, consumed or not. */
    ghost function Given(): nat
      reads this
    {
      credits + |guest|
    }

    /** What a turn does with `f`: it forwards it, behind all that was sent, and gives one credit; or it
        does neither because the channel is full. */
    ghost predicate Relayed(f: IkcFrame, sent: seq<IkcFrame>, given: nat)
      reads this
    {
      || (mem.MemIdle? && Sent() == sent + [f] && Given() == given + 1)
      || (mem == MemChecked(f) && |toVcpu| >= CHANNEL_CAPACITY && Sent() == sent && Given() == given)
    }

    method ReceiveFromIoThread() returns (f: Option<IkcFrame>)
      requires Traced() && mem.MemIdle?
      modifies this
      ensures old(toMem) != [] ==> f == Some(old(toMem)[0])
      ensures f.None? ==> Waited(Mem) && toMem == [] && mem.MemIdle?
      ensures f.Some? ==> Did(Mem, [MemRecv]) && mem == MemTaken(f.value)
      ensures counters.mem == old(counters).mem && Sent() == old(Sent()) && Given() == old(Given())
    {
      Others(Mem);
      if toMem == [] {
        return None;
      }
      f := Some(toMem[0]);
      Take();
    }

    method Take()
      requires Traced() && mem.MemIdle? && toMem != []
      modifies this
      ensures Did(Mem, [MemRecv]) && mem == MemTaken(old(toMem)[0])
      ensures counters == old(counters) && Sent() == old(Sent()) && Given() == old(Given())
    {
      Follow(MemRecv);
      toMem, mem := toMem[1..], MemTaken(toMem[0]);
    }

    method OnMessageReceivedFromIoThread(f: IkcFrame)
      requires Traced() && mem == MemTaken(f)
      modifies this
      ensures Did(Mem, [MemCount, MemLoad, MemCheck]) && mem == MemChecked(f)
      ensures counters.mem == old(counters).mem + 1 && Sent() == old(Sent()) && Given() == old(Given())
    {
      IncrementMemThreadMessagesReceived(f);
      CheckMemThreadMessagesReceived(f);
    }

    method IncrementMemThreadMessagesReceived(f: IkcFrame)
      requires Traced() && mem == MemTaken(f)
      modifies this
      ensures Did(Mem, [MemCount]) && mem == MemCounted(f)
      ensures counters.mem == old(counters).mem + 1 && Sent() == old(Sent()) && Given() == old(Given())
    {
      Others(Mem);
      Follow(MemCount);
      counters, mem := counters.(mem := counters.mem + 1), MemCounted(f);
    }

    method CheckMemThreadMessagesReceived(f: IkcFrame)
      requires Traced() && mem == MemCounted(f)
      modifies this
      ensures Did(Mem, [MemLoad, MemCheck]) && mem == MemChecked(f)
      ensures counters.mem == old(counters).mem && Sent() == old(Sent()) && Given() == old(Given())
    {
      var cachedMem := LoadMemThreadMessagesReceived(f);
      Others(Mem);
      var cachedIo := counters.io;
      IsReachable();
      NoThreadFails(Value());
      assert cachedMem <= cachedIo;  // the sanity check
      Follow(MemCheck);
      mem := MemChecked(f);
    }

    method LoadMemThreadMessagesReceived(f: IkcFrame) returns (cached: nat)
      requires Traced() && mem == MemCounted(f)
      modifies this
      ensures Did(Mem, [MemLoad]) && mem == MemLoaded(f, cached) && cached == old(counters).mem
      ensures counters.mem == old(counters).mem && Sent() == old(Sent()) && Given() == old(Given())
    {
      Others(Mem);
      Follow(MemLoad);
      cached := counters.mem;
      mem := MemLoaded(f, cached);
    }

    method ForwardToVcpu(f: IkcFrame)
      requires Traced() && mem == MemChecked(f)
      modifies this
      ensures Relayed(f, old(Sent()), old(Given())) && counters.mem == old(counters).mem
      ensures if mem.MemIdle? then Did(Mem, [MemSend, MemCredit]) else Waited(Mem)
    {
      var ok := SendToVcpu(f);
      if ok {
        AddCredit();
      }
    }

    method SendToVcpu(f: IkcFrame) returns (ok: bool)
      requires Traced() && mem == MemChecked(f)
      modifies this
      ensures counters.mem == old(counters).mem
      ensures ok ==> Did(Mem, [MemSend]) && mem.MemSent? && Sent() == old(Sent()) + [f]
      ensures Given() == old(Given())
      ensures !ok ==> Waited(Mem) && mem == MemChecked(f) && |toVcpu| >= CHANNEL_CAPACITY && Sent() == old(Sent()) && Given() == old(Given())
    {
      Others(Mem);
      if |toVcpu| >= CHANNEL_CAPACITY {
        return false;
      }
      Follow(MemSend);
      SendForwards(Value(), f);
      toVcpu, mem := toVcpu + [f], MemSent;
      return true;
    }

    /** Adds a credit; that would fail if the register were at its maximum. */
    method AddCredit()
      requires Traced() && mem.MemSent?
      modifies this
      ensures Did(Mem, [MemCredit]) && mem.MemIdle?
      ensures counters.mem == old(counters).mem
      ensures Sent() == old(Sent()) && Given() == old(Given()) + 1
    {
      Others(Mem);
      IsReachable();
      NoThreadFails(Value());
      assert credits != MAX_CREDITS;  // "credits overflow" is never reported
      Follow(MemCredit);
      credits, mem := credits + 1, MemIdle;
    }

    //
    // vCPU
    //

    /** The guest polls for a message. If it finds a credit it gets the next frame, without waiting. */
    method GuestRead() returns (r: Option<IkcFrame>)
      requires Traced() && vcpu.VIdle?
      modifies this
      ensures vcpu.VIdle? && (r.Some? <==> old(credits) > 0)
      ensures r.None? ==> Did(Vcpu, [VPoll]) && guest == old(guest)
      ensures r.Some? ==>
                && Did(Vcpu, [VPoll, VCount, VLoad, VCheck, VRecv, VCountRecv, VLoadCalls, VCheckRecv, VConsume])
                && guest == old(guest) + [r.value] && guest <= decoder.delivered
                && counters.calls == old(counters).calls + 1 && counters.vmm == old(counters).vmm + 1
    {
      var seen := Poll();
      if !seen {
        return None;
      }
      var f := Input();
      ConcatAssoc(Own(old(schedule), Vcpu), [VPoll], [VCount, VLoad, VCheck, VRecv, VCountRecv, VLoadCalls, VCheckRecv, VConsume]);
      return Some(f);
    }

    /** The guest reads the credit register. */
    method Poll() returns (seen: bool)
      requires Traced() && vcpu.VIdle?
      modifies this
      ensures Did(Vcpu, [VPoll]) && seen == (old(credits) > 0) && vcpu == (if seen then VCalling else VIdle)
      ensures guest == old(guest) && counters == old(counters)
    {
      Follow(VPoll);
      seen := credits != 0;
      if seen {
        vcpu := VCalling;
      }
    }

    /** The emulation of a read from the input port. */
    method Input() returns (f: IkcFrame)
      requires Traced() && vcpu.VCalling?
      modifies this
      ensures Did(Vcpu, [VCount, VLoad, VCheck, VRecv, VCountRecv, VLoadCalls, VCheckRecv, VConsume]) && vcpu.VIdle?
      ensures guest == old(guest) + [f] && guest <= decoder.delivered
      ensures counters.calls == old(counters).calls + 1 && counters.vmm == old(counters).vmm + 1
    {
      OnInputFunctionCalled();
      f := BlockingRecv();
      Deliver(f);
      ConcatAssoc(Own(old(schedule), Vcpu), [VCount, VLoad, VCheck], [VRecv]);
      ConcatAssoc(Own(old(schedule), Vcpu), [VCount, VLoad, VCheck, VRecv], [VCountRecv, VLoadCalls, VCheckRecv, VConsume]);
      IsReachable();
      ReachableInv(Value());
      DeliveredFirst(Value());
    }

    method Deliver(f: IkcFrame)
      requires Traced() && vcpu == VTaken(f)
      modifies this
      ensures Did(Vcpu, [VCountRecv, VLoadCalls, VCheckRecv, VConsume]) && vcpu.VIdle?
      ensures guest == old(guest) + [f]
      ensures counters.calls == old(counters).calls && counters.vmm == old(counters).vmm + 1
    {
      OnMessageReceivedFromMemoryThread(f);
      ConsumeCredit(f);
    }

    /** Nothing has changed for the guest, but for the number of input calls and of messages received. */
    ghost predicate Counted(calls: nat, vmm: nat, before: State)
      reads this
    {
      guest == before.delivered
      && counters.calls == before.counters.calls + calls && counters.vmm == before.counters.vmm + vmm
    }

    method OnInputFunctionCalled()
      requires Traced() && vcpu.VCalling?
      modifies this
      ensures Did(Vcpu, [VCount, VLoad, VCheck]) && vcpu.VReady? && Counted(1, 0, old(Value()))
      ensures credits >= old(credits)
    {
      IncrementVmmThreadInputCalls();
      CheckVmmThreadInputCalls();
    }

    method IncrementVmmThreadInputCalls()
      requires Traced() && vcpu.VCalling?
      modifies this
      ensures Did(Vcpu, [VCount]) && vcpu.VCalled? && Counted(1, 0, old(Value()))
      ensures credits >= old(credits)
    {
      Others(Vcpu);
      Follow(VCount);
      counters, vcpu := counters.(calls := counters.calls + 1), VCalled;
    }

    method CheckVmmThreadInputCalls()
      requires Traced() && vcpu.VCalled?
      modifies this
      ensures Did(Vcpu, [VLoad, VCheck]) && vcpu.VReady? && Counted(0, 0, old(Value()))
      ensures credits >= old(credits)
    {
      var cachedMem := LoadMemForVcpu();
      Others(Vcpu);
      var cachedCalls := counters.calls;
      IsReachable();
      NoThreadFails(Value());
      assert cachedCalls <= cachedMem;  // the sanity check
      Follow(VCheck);
      vcpu := VReady;
    }

    method LoadMemForVcpu() returns (cached: nat)
      requires Traced() && vcpu.VCalled?
      modifies this
      ensures Did(Vcpu, [VLoad]) && vcpu == VLoaded(cached) && Counted(0, 0, old(Value()))
      ensures credits >= old(credits)
    {
      Others(Vcpu);
      Follow(VLoad);
      cached := counters.mem;
      vcpu := VLoaded(cached);
    }

    /** Takes the next frame; it does not block. */
    method BlockingRecv() returns (f: IkcFrame)
      requires Traced() && vcpu.VReady?
      modifies this
      ensures Did(Vcpu, [VRecv]) && vcpu == VTaken(f) && Counted(0, 0, old(Value()))
      ensures old(toVcpu) != [] && f == old(toVcpu)[0]
    {
      IsReachable();
      NoThreadFails(Value());
      Others(Vcpu);
      Follow(VRecv);
      f := toVcpu[0];
      toVcpu, vcpu := toVcpu[1..], VTaken(f);
    }

    method OnMessageReceivedFromMemoryThread(f: IkcFrame)
      requires Traced() && vcpu == VTaken(f)
      modifies this
      ensures Did(Vcpu, [VCountRecv, VLoadCalls, VCheckRecv]) && vcpu == VChecked(f) && Counted(0, 1, old(Value()))
    {
      IncrementVmmThreadMessagesReceived(f);
      CheckVmmThreadMessagesReceived(f);
    }

    method IncrementVmmThreadMessagesReceived(f: IkcFrame)
      requires Traced() && vcpu == VTaken(f)
      modifies this
      ensures Did(Vcpu, [VCountRecv]) && vcpu == VCounted(f) && Counted(0, 1, old(Value()))
    {
      Others(Vcpu);
      Follow(VCountRecv);
      counters, vcpu := counters.(vmm := counters.vmm + 1), VCounted(f);
    }

    method CheckVmmThreadMessagesReceived(f: IkcFrame)
      requires Traced() && vcpu == VCounted(f)
      modifies this
      ensures Did(Vcpu, [VLoadCalls, VCheckRecv]) && vcpu == VChecked(f) && Counted(0, 0, old(Value()))
    {
      var cachedCalls := LoadVmmThreadInputCalls(f);
      Others(Vcpu);
      var cachedVmm := counters.vmm;
      IsReachable();
      NoThreadFails(Value());
      assert cachedVmm <= cachedCalls;  // the sanity check
      Follow(VCheckRecv);
      vcpu := VChecked(f);
    }

    method LoadVmmThreadInputCalls(f: IkcFrame) returns (cached: nat)
      requires Traced() && vcpu == VCounted(f)
      modifies this
      ensures Did(Vcpu, [VLoadCalls]) && vcpu == VLoadedCalls(f, cached) && Counted(0, 0, old(Value()))
    {
      Others(Vcpu);
      Follow(VLoadCalls);
      cached := counters.calls;
      vcpu := VLoadedCalls(f, cached);
    }

    /** Writes the frame to guest memory and consumes a credit, under the lock; without one that would fail. */
    method ConsumeCredit(f: IkcFrame)
      requires Traced() && vcpu == VChecked(f)
      modifies this
      ensures Did(Vcpu, [VConsume]) && vcpu.VIdle? && guest == old(guest) + [f]
      ensures old(credits) > 0
      ensures counters.calls == old(counters).calls && counters.vmm == old(counters).vmm
    {
      IsReachable();
      NoThreadFails(Value());
      Others(Vcpu);
      WriteAndConsume(f);
    }

    method WriteAndConsume(f: IkcFrame)
      requires Traced() && vcpu == VChecked(f) && credits > 0
      modifies this
      ensures Did(Vcpu, [VConsume]) && vcpu.VIdle?
      ensures guest == old(guest) + [f] && credits == old(credits) - 1 && counters == old(counters)
    {
      Follow(VConsume);
      guest, credits, vcpu := guest + [f], credits - 1, VIdle;
    }
  }
}
