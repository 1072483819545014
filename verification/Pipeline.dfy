/** The inbound pipeline of a managed user VM, from the system VM socket to guest memory: I/O thread,
    queue, memory thread, queue and credit, vCPU. Each thread is a program counter over its atomic
    steps, so that a schedule is any list of steps of the three threads. */
module Pipeline {
  import opened Bytes
  import opened Channels
  import opened Framing

  const MAX_CREDITS := 0xFFFF_FFFF

  datatype IoPc =
    | IoIdle
    | IoDecoded(f: IkcFrame)  // a frame is complete
    | IoCounted(f: IkcFrame)  // and counted
    | IoExited(lost: seq<IkcFrame>)  // gone, with the frame that it could not send

  datatype MemPc =
    | MemIdle
    | MemTaken(f: IkcFrame)                  // received from the I/O thread
    | MemCounted(f: IkcFrame)                // counter incremented
    | MemLoaded(f: IkcFrame, cached: nat)    // own counter loaded for the sanity check
    | MemChecked(f: IkcFrame)                // check done
    | MemSent                                // forwarded, credit still to be added
    | MemExited

  datatype VcpuPc =
    | VIdle
    | VCalling                               // the guest saw a credit and reads the port
    | VCalled                                // input call counted
    | VLoaded(cached: nat)                   // memory thread's counter loaded for the sanity check
    | VReady                                 // about to receive
    | VTaken(f: IkcFrame)                    // received from the memory thread
    | VCounted(f: IkcFrame)                  // counter incremented
    | VLoadedCalls(f: IkcFrame, cached: nat) // call counter loaded for the sanity check
    | VChecked(f: IkcFrame)                  // about to write guest memory and consume the credit

  datatype Counters = Counters(io: nat, mem: nat, calls: nat, vmm: nat)

  /** `decoder` is the inbound arm of the I/O thread. `received` (the reads so far) and `delivered`
      are histories; `panicked` records a failed sanity check and `creditError` an error from the
      credit register. */
  datatype State = State(
    decoder: Decoder, io: IoPc, mem: MemPc, vcpu: VcpuPc,
    toMem: seq<IkcFrame>, toVcpu: seq<IkcFrame>,
    credits: nat, counters: Counters,
    received: seq<Bytes>, delivered: seq<IkcFrame>,
    panicked: bool, creditError: bool)

  datatype Action =
    | IoRead(read: Bytes) | IoCount | IoSend | IoExit
    | MemRecv | MemCount | MemLoad | MemCheck | MemSend | MemCredit | MemExit
    | VPoll | VCount | VLoad | VCheck | VRecv | VCountRecv | VLoadCalls | VCheckRecv | VConsume

  predicate Initial(s: State)
  {
    && s.decoder == START && s.io.IoIdle? && s.mem.MemIdle? && s.vcpu.VIdle?
    && s.toMem == s.toVcpu == s.delivered == [] && s.received == []
    && s.credits == 0 && s.counters == Counters(0, 0, 0, 0)
    && !s.panicked && !s.creditError
  }

  predicate Enabled(s: State, a: Action)
  {
    match a
    case IoRead(read) => s.io.IoIdle? && Valid(s.decoder) && Fits(s.decoder, read)
    case IoCount => s.io.IoDecoded?
    case IoSend => s.io.IoCounted? && (|s.toMem| < CHANNEL_CAPACITY || s.mem.MemExited?)
    case IoExit => s.io.IoIdle?
    case MemRecv => s.mem.MemIdle? && s.toMem != []
    case MemCount => s.mem.MemTaken?
    case MemLoad => s.mem.MemCounted?
    case MemCheck => s.mem.MemLoaded?
    case MemSend => s.mem.MemChecked? && |s.toVcpu| < CHANNEL_CAPACITY
    case MemCredit => s.mem.MemSent?
    case MemExit => s.mem.MemIdle?
    case VPoll => s.vcpu.VIdle?
    case VCount => s.vcpu.VCalling?
    case VLoad => s.vcpu.VCalled?
    case VCheck => s.vcpu.VLoaded?
    case VRecv => s.vcpu.VReady? && s.toVcpu != []
    case VCountRecv => s.vcpu.VTaken?
    case VLoadCalls => s.vcpu.VCounted?
    case VCheckRecv => s.vcpu.VLoadedCalls?
    case VConsume => s.vcpu.VChecked?
  }

  function Step(s: State, a: Action): (s': State)
    requires Enabled(s, a)
  {
    var c := s.counters;
    match a
    case IoRead(read) =>
      var d := Receive(s.decoder, read);
      var pc :=
        if d.failed then IoExited([])
        else if d.delivered == s.decoder.delivered then IoIdle
        else IoDecoded(d.delivered[|d.delivered| - 1]);
      s.(decoder := d, io := pc, received := if read == [] then s.received else s.received + [read])
    case IoCount => s.(io := IoCounted(s.io.f), counters := c.(io := c.io + 1))
    case IoSend =>
      // a send to a receiver that is gone is an error, which the I/O thread propagates
      if s.mem.MemExited? then s.(io := IoExited([s.io.f])) else s.(io := IoIdle, toMem := s.toMem + [s.io.f])
    case IoExit => s.(io := IoExited([]))
    case MemRecv => s.(mem := MemTaken(s.toMem[0]), toMem := s.toMem[1..])
    case MemCount => s.(mem := MemCounted(s.mem.f), counters := c.(mem := c.mem + 1))
    case MemLoad => s.(mem := MemLoaded(s.mem.f, c.mem))
    case MemCheck => s.(mem := MemChecked(s.mem.f), panicked := s.panicked || s.mem.cached > c.io)
    case MemSend => s.(mem := MemSent, toVcpu := s.toVcpu + [s.mem.f])
    case MemCredit =>
      if s.credits == MAX_CREDITS then s.(mem := MemExited, creditError := true)
      else s.(mem := MemIdle, credits := s.credits + 1)
    case MemExit => s.(mem := MemExited)
    case VPoll => if s.credits == 0 then s else s.(vcpu := VCalling)
    case VCount => s.(vcpu := VCalled, counters := c.(calls := c.calls + 1))
    case VLoad => s.(vcpu := VLoaded(c.mem))
    case VCheck => s.(vcpu := VReady, panicked := s.panicked || c.calls > s.vcpu.cached)
    case VRecv => s.(vcpu := VTaken(s.toVcpu[0]), toVcpu := s.toVcpu[1..])
    case VCountRecv => s.(vcpu := VCounted(s.vcpu.f), counters := c.(vmm := c.vmm + 1))
    case VLoadCalls => s.(vcpu := VLoadedCalls(s.vcpu.f, c.calls))
    case VCheckRecv => s.(vcpu := VChecked(s.vcpu.f), panicked := s.panicked || c.vmm > s.vcpu.cached)
    case VConsume =>
      var s' := s.(vcpu := VIdle, delivered := s.delivered + [s.vcpu.f]);
      if s.credits == 0 then s'.(creditError := true) else s'.(credits := s.credits - 1)
  }

  ghost predicate IsSchedule(s: State, schedule: seq<Action>)
    decreases |schedule|
  {
    schedule != [] ==> Enabled(s, schedule[0]) && IsSchedule(Step(s, schedule[0]), schedule[1..])
  }

  ghost function Run(s: State, schedule: seq<Action>): (s': State)
    requires IsSchedule(s, schedule)
    decreases |schedule|
  {
    if schedule == [] then s else Run(Step(s, schedule[0]), schedule[1..])
  }

  //
  // The invariant
  //

  function IoHand(pc: IoPc): seq<IkcFrame>
  {
    if pc.IoDecoded? || pc.IoCounted? then [pc.f] else if pc.IoExited? then pc.lost else []
  }

  function MemHand(pc: MemPc): seq<IkcFrame>
  {
    if pc.MemTaken? || pc.MemCounted? || pc.MemLoaded? || pc.MemChecked? then [pc.f] else []
  }

  function VcpuHand(pc: VcpuPc): seq<IkcFrame>
  {
    if pc.VTaken? || pc.VCounted? || pc.VLoadedCalls? || pc.VChecked? then [pc.f] else []
  }

  /** Frames that the memory thread has forwarded. */
  function Forwarded(s: State): seq<IkcFrame>
  {
    s.delivered + VcpuHand(s.vcpu) + s.toVcpu
  }

  /** Frames that it has still to forward. */
  function Upstream(s: State): seq<IkcFrame>
  {
    MemHand(s.mem) + s.toMem + IoHand(s.io)
  }

  /** Every frame decoded is delivered or in exactly one place, and they stay in order. */
  predicate Conserved(s: State)
  {
    Forwarded(s) + Upstream(s) == s.decoder.delivered
  }

  function B(b: bool): nat
  {
    if b then 1 else 0
  }

  /** A credit stands for one frame that the vCPU has not consumed; only the frame that the memory
      thread has just forwarded is still without its credit. */
  predicate CreditsExact(s: State)
  {
    s.credits + B(s.mem.MemSent?) == |s.toVcpu| + |VcpuHand(s.vcpu)|
  }

  /** What each counter counts. */
  predicate CountersExact(s: State)
  {
    && s.counters.io + B(s.io.IoDecoded?) == |s.decoder.delivered|
    && s.counters.mem + B(s.mem.MemTaken?) + |s.toMem| + |IoHand(s.io)| == |s.decoder.delivered|
    && s.counters.vmm + B(s.vcpu.VTaken?) == |s.delivered| + |VcpuHand(s.vcpu)|
    && s.counters.calls
       == s.counters.vmm + B(s.vcpu.VCalled? || s.vcpu.VLoaded? || s.vcpu.VReady? || s.vcpu.VTaken?)
  }

  /** The values loaded for the sanity checks can still be compared, however late the second load. */
  predicate CachesSound(s: State)
  {
    && (s.mem.MemLoaded? ==> s.mem.cached <= s.counters.io)
    && (s.vcpu.VLoaded? ==> s.counters.calls <= s.vcpu.cached)
    && (s.vcpu.VLoadedCalls? ==> s.counters.vmm <= s.vcpu.cached)
  }

  predicate Accounts(s: State)
  {
    && CreditsExact(s)
    && CountersExact(s)
    && CachesSound(s)
    && (!s.vcpu.VIdle? ==> s.credits > 0)
    && |s.toMem| <= CHANNEL_CAPACITY && |s.toVcpu| <= CHANNEL_CAPACITY
    && (s.io.IoExited? && s.io.lost != [] ==> s.mem.MemExited?)
    && !s.panicked && !s.creditError
  }

  /** The decoder is where the bytes received put it, or has found its peer gone there. */
  ghost predicate DecoderTracks(s: State)
  {
    && Valid(s.decoder)
    && IsRun(START, s.received)
    && (s.decoder == Feed(START, s.received) || s.decoder == Fail(Feed(START, s.received)))
    && (s.decoder.failed ==> s.io.IoExited?)
  }

  ghost predicate Inv(s: State)
  {
    Conserved(s) && Accounts(s) && DecoderTracks(s)
  }

  //
  // Every step keeps the invariant
  //

  predicate IsIo(a: Action)
  {
    a.IoRead? || a.IoCount? || a.IoSend? || a.IoExit?
  }

  predicate IsMem(a: Action)
  {
    a.MemRecv? || a.MemCount? || a.MemLoad? || a.MemCheck? || a.MemSend? || a.MemCredit? || a.MemExit?
  }

  lemma IoStepKeepsInv(s: State, a: Action)
    requires Enabled(s, a) && IsIo(a) && Inv(s)
    ensures Inv(Step(s, a))
  {
    if a.IoRead? {
      IoReadKeepsInv(s, a.read);
    } else {
      var s' := Step(s, a);
      assert Forwarded(s') == Forwarded(s);
      assert Upstream(s') == Upstream(s);
    }
  }

  lemma IoReadKeepsInv(s: State, read: Bytes)
    requires Enabled(s, IoRead(read)) && Inv(s)
    ensures Inv(Step(s, IoRead(read)))
  {
    var s' := Step(s, IoRead(read));
    ReceiveDeliversOne(s.decoder, read);
    if read != [] { FeedAppend(START, s.received, read); }
    assert Forwarded(s') == Forwarded(s);
    assert IoHand(s.io) == [];
    ConcatAssoc(Forwarded(s), MemHand(s.mem) + s.toMem, IoHand(s'.io));
  }

  /** What the memory thread forwards goes behind what it has forwarded. */
  lemma SendForwards(s: State, f: IkcFrame)
    requires s.mem == MemChecked(f)
    ensures
      var s' := s.(mem := MemSent, toVcpu := s.toVcpu + [f]);
      Forwarded(s') == Forwarded(s) + [f] && Upstream(s) == [f] + Upstream(s')
  {
    ConcatAssoc(s.delivered + VcpuHand(s.vcpu), s.toVcpu, [f]);
    assert [] + s.toMem == s.toMem;
    ConcatAssoc([f], s.toMem, IoHand(s.io));
  }

  lemma MemStepConserves(s: State, a: Action)
    requires Enabled(s, a) && IsMem(a) && Conserved(s)
    ensures Conserved(Step(s, a))
  {
    if a.MemSend? {
      SendForwards(s, s.mem.f);
      ConcatAssoc(Forwarded(s), [s.mem.f], Upstream(Step(s, a)));
    } else {
      MemKeepsInOrder(s, a);
    }
  }

  lemma MemKeepsInOrder(s: State, a: Action)
    requires Enabled(s, a) && IsMem(a) && !a.MemSend?
    ensures Forwarded(Step(s, a)) == Forwarded(s) && Upstream(Step(s, a)) == Upstream(s)
  {
    if a.MemRecv? {
      assert [] + s.toMem == [s.toMem[0]] + s.toMem[1..];
    }
  }

  lemma MemStepKeepsAccounts(s: State, a: Action)
    requires Enabled(s, a) && IsMem(a) && Accounts(s)
    ensures Accounts(Step(s, a))
  {
  }

  lemma VcpuStepConserves(s: State, a: Action)
    requires Enabled(s, a) && !IsIo(a) && !IsMem(a) && Conserved(s)
    ensures Conserved(Step(s, a))
  {
    var s' := Step(s, a);
    assert Upstream(s') == Upstream(s);
    assert Forwarded(s') == Forwarded(s);
  }

  predicate IsCall(a: Action)
  {
    a.VPoll? || a.VCount? || a.VLoad? || a.VCheck?
  }

  lemma VcpuCallKeepsAccounts(s: State, a: Action)
    requires Enabled(s, a) && IsCall(a) && Accounts(s) && Conserved(s)
    ensures Accounts(Step(s, a))
  {
    assert |Forwarded(s)| + |Upstream(s)| == |s.decoder.delivered|;
  }

  lemma VcpuStepKeepsAccounts(s: State, a: Action)
    requires Enabled(s, a) && !IsIo(a) && !IsMem(a) && Accounts(s) && Conserved(s)
    ensures Accounts(Step(s, a))
  {
    if IsCall(a) { VcpuCallKeepsAccounts(s, a); }
  }

  lemma StepKeepsInv(s: State, a: Action)
    requires Enabled(s, a) && Inv(s)
    ensures Inv(Step(s, a))
  {
    if IsIo(a) {
      IoStepKeepsInv(s, a);
    } else if IsMem(a) {
      MemStepConserves(s, a);
      MemStepKeepsAccounts(s, a);
    } else {
      VcpuStepConserves(s, a);
      VcpuStepKeepsAccounts(s, a);
    }
  }

  lemma {:induction false} RunKeepsInv(s: State, schedule: seq<Action>)
    requires Inv(s) && IsSchedule(s, schedule)
    ensures Inv(Run(s, schedule))
    decreases |schedule|
  {
    if schedule != [] {
      StepKeepsInv(s, schedule[0]);
      RunKeepsInv(Step(s, schedule[0]), schedule[1..]);
    }
  }

  /** `s` is the outcome of some interleaving of the threads. */
  ghost predicate Reachable(s: State)
  {
    exists s0, schedule :: Initial(s0) && IsSchedule(s0, schedule) && Run(s0, schedule) == s
  }

  lemma ReachableInv(s: State)
    requires Reachable(s)
    ensures Inv(s)
  {
    var s0, schedule :| Initial(s0) && IsSchedule(s0, schedule) && Run(s0, schedule) == s;
    assert IsRun(START, s0.received);
    RunKeepsInv(s0, schedule);
  }

  //
  // What it means for the threads
  //

  /** In every interleaving: the sanity checks on the counters never fire, the credit register never
      overflows nor underflows, and a guest that has committed to a read finds a frame in its queue. */
  lemma NoThreadFails(s: State)
    requires Reachable(s)
    ensures !s.panicked && !s.creditError && CachesSound(s)
    ensures s.vcpu.VReady? ==> s.toVcpu != []
    ensures s.credits <= |s.toVcpu| + |VcpuHand(s.vcpu)| <= s.credits + 1
    ensures s.mem.MemSent? ==> s.credits < MAX_CREDITS
    ensures s.vcpu.VChecked? ==> s.credits > 0
  {
    ReachableInv(s);
  }

  /** The counter chain, and the frames it counts. */
  lemma CounterChain(s: State)
    requires Reachable(s)
    ensures s.counters.vmm <= s.counters.calls <= s.counters.mem <= s.counters.io <= |s.decoder.delivered|
    ensures Forwarded(s) + Upstream(s) == s.decoder.delivered
  {
    ReachableInv(s);
    assert |Forwarded(s)| + |Upstream(s)| == |s.decoder.delivered|;
  }

  lemma DeliveredFirst(s: State)
    requires Conserved(s)
    ensures s.delivered <= s.decoder.delivered
  {
    assert s.delivered + (VcpuHand(s.vcpu) + s.toVcpu + Upstream(s)) == s.decoder.delivered;
  }

  /** From the wire to guest memory: whatever the fragmentation and whatever the interleaving, the
      guest has received a prefix of the frames that the peer encoded. */
  lemma WireToGuest(s: State, fs: seq<IkcFrame>)
    requires Reachable(s) && AllEncodable(fs) && Flatten(s.received) <= EncodeAll(fs)
    ensures s.delivered <= fs
  {
    ReachableInv(s);
    DeliveredFirst(s);
    PrefixDeliversPrefix(s.received, fs);
  }

  /** A step of the pipeline that needs nothing from outside: not a new read, not a thread being told
      to exit, not the guest polling in vain. */
  predicate Internal(s: State, a: Action)
  {
    !a.IoRead? && !a.IoExit? && !a.MemExit? && !(a.VPoll? && s.credits == 0)
  }

  ghost predicate Quiescent(s: State)
  {
    forall a :: Enabled(s, a) ==> !Internal(s, a)
  }

  /** While a credit is left, or a frame is undelivered and the memory thread lives, some thread can
      move. */
  lemma SomeThreadCanMove(s: State) returns (a: Action)
    requires Conserved(s) && Accounts(s)
    requires s.credits > 0 || (s.delivered != s.decoder.delivered && !s.mem.MemExited?)
    ensures Enabled(s, a) && Internal(s, a)
  {
    a := match s.vcpu
      case VCalling => VCount case VCalled => VLoad case VLoaded(_) => VCheck case VReady => VRecv
      case VTaken(_) => VCountRecv case VCounted(_) => VLoadCalls case VLoadedCalls(_, _) => VCheckRecv
      case VChecked(_) => VConsume case VIdle => VPoll;
    if s.vcpu.VIdle? && s.credits == 0 {
      a := match s.mem
        case MemTaken(_) => MemCount case MemCounted(_) => MemLoad case MemLoaded(_, _) => MemCheck
        case MemChecked(_) => MemSend case MemSent => MemCredit case MemIdle => MemRecv case MemExited => MemRecv;
      if s.mem.MemIdle? && s.toMem == [] {
        a := if s.io.IoDecoded? then IoCount else IoSend;
        assert Forwarded(s) == s.delivered;
        assert Upstream(s) == IoHand(s.io);
      }
    }
  }

  /** The pipeline only comes to rest with everything forwarded delivered and no credit left; and with
      everything decoded delivered, unless the memory thread is gone. */
  lemma RestMeansDelivered(s: State)
    requires Inv(s) && Quiescent(s)
    ensures s.delivered == Forwarded(s) && s.credits == 0
    ensures !s.mem.MemExited? ==> s.delivered == s.decoder.delivered
  {
    if s.credits > 0 || (s.delivered != s.decoder.delivered && !s.mem.MemExited?) {
      var a := SomeThreadCanMove(s);
      assert false;
    }
    assert !Enabled(s, MemCredit);
  }

  function IoWork(pc: IoPc): nat
  {
    match pc case IoDecoded(_) => 23 case IoCounted(_) => 22 case IoIdle => 1 case IoExited(_) => 0
  }

  function MemWork(pc: MemPc): nat
  {
    match pc
    case MemTaken(_) => 19 case MemCounted(_) => 18 case MemLoaded(_, _) => 17 case MemChecked(_) => 16
    case MemSent => 2 case MemIdle => 1 case MemExited => 0
  }

  function VcpuWork(pc: VcpuPc): nat
  {
    match pc
    case VIdle => 5 case VCalling => 4 case VCalled => 3 case VLoaded(_) => 2 case VReady => 1
    case VTaken(_) => 10 case VCounted(_) => 9 case VLoadedCalls(_, _) => 8 case VChecked(_) => 7
  }

  /** How much the pipeline can still do on its own. */
  function Work(s: State): nat
  {
    IoWork(s.io) + 20 * |s.toMem| + MemWork(s.mem) + 10 * |s.toVcpu| + VcpuWork(s.vcpu)
  }

  lemma InternalStepsDoWork(s: State, a: Action)
    requires Enabled(s, a) && Internal(s, a)
    ensures Work(Step(s, a)) < Work(s)
  {
  }

  ghost predicate AllInternal(s: State, schedule: seq<Action>)
    requires IsSchedule(s, schedule)
    decreases |schedule|
  {
    schedule != [] ==> Internal(s, schedule[0]) && AllInternal(Step(s, schedule[0]), schedule[1..])
  }

  /** Left alone, the pipeline comes to rest, whatever the schedule: once the last byte of `fs` has
      arrived, at most `Work` more steps remain, and when none does the guest has exactly `fs`, or a prefix
      of it if the memory thread is gone. */
  lemma {:induction false} EveryFrameArrives(s: State, schedule: seq<Action>, fs: seq<IkcFrame>)
    requires Inv(s) && AllEncodable(fs) && Flatten(s.received) == EncodeAll(fs)
    requires IsSchedule(s, schedule) && AllInternal(s, schedule)
    ensures |schedule| <= Work(s)
    ensures Run(s, schedule).delivered <= fs
    ensures Quiescent(Run(s, schedule)) && !Run(s, schedule).mem.MemExited? ==> Run(s, schedule).delivered == fs
    decreases |schedule|
  {
    if schedule == [] {
      RoundTrip(s.received, fs);
      DeliveredFirst(s);
      if Quiescent(s) {
        RestMeansDelivered(s);
      }
    } else {
      StepKeepsInv(s, schedule[0]);
      InternalStepsDoWork(s, schedule[0]);
      EveryFrameArrives(Step(s, schedule[0]), schedule[1..], fs);
    }
  }
}
