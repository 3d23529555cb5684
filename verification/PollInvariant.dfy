/** The invariant of the polling protocol and the proof that every step of a run keeps it. */
module PollInvariant {
  import opened Histories
  import opened Mdio
  import opened PollModel
  import opened PollRecord

  // ---------------------------------------------------------------- the parts

  /** Index of a state of the poll task: how many reads it has issued in this lock hold. */
  function Stage(s: PollState): nat {
    match s
    case PollIdle => 0
    case PollStatus => 1
    case PollCtrl => 2
    case PollExtStat => 3
  }

  /** The register whose reply a state waits for. */
  function AwaitedReg(s: PollState): nat
    requires !s.PollIdle?
  {
    match s
    case PollStatus => REG_BASIC_STATUS
    case PollCtrl => REG_BASIC_CONTROL
    case PollExtStat => REG_VSC8512_AUX_CTRL_STAT
  }

  /** Who holds the mutex, and where the poll task can be. */
  ghost predicate Exclusive(c: Core, cli: Cli) {
    && |c.ports| == NUM_PORTS && |c.phys| == NUM_PORTS
    && c.currentPhy <= NUM_PORTS
    && (c.currentPhy == NUM_PORTS ==> c.pollState.PollIdle?)
    && (c.locked <==> !c.pollState.PollIdle? || cli.CliHolding?)
    && !(!c.pollState.PollIdle? && cli.CliHolding?)
  }

  /** What was counted adds up. */
  ghost predicate Balanced(c: Core) {
    && c.tally.polls == NUM_PORTS * c.tally.ticks + c.currentPhy
    && c.tally.issues == 3 * c.tally.polls + Stage(c.pollState)
    && c.tally.locks == c.tally.unlocks + (if c.pollState.PollIdle? then 0 else 1)
    && c.tally.unlocks == c.tally.polls
  }

  /** The pending access of the bus is the poll task's own whenever it is waiting for one. */
  ghost predicate OwnsBus(c: Core) {
    && (c.pollState.PollIdle? ==> c.bus.answered && (c.wire.Start? || !c.wire.last.Issued?))
    && (!c.pollState.PollIdle? ==>
          && c.bus.cmd == Command(AwaitedReg(c.pollState), c.currentPhy)
          && EndsInPending(c.wire, c.bus))
    && Matched(c.wire)
    && ConsumedReadings(c.wire) == DecodedReadings(c.record)
  }

  ghost predicate EndsInPending(wire: History<BusOp>, bus: Bus) {
    if bus.answered
    then wire.Then? && wire.last == Answered(bus.cmd, bus.data) && wire.past.Then? && wire.past.last == Issued(bus.cmd)
    else wire.Then? && wire.last == Issued(bus.cmd)
  }

  /** The entry of a port is torn between its two updates. */
  predicate Torn(c: Core, port: nat) {
    c.currentPhy == port && (c.pollState.PollCtrl? || c.pollState.PollExtStat?)
  }

  /** What this lock hold has recorded so far. */
  ghost predicate HoldRecorded(c: Core)
    requires |c.ports| == NUM_PORTS
  {
    match c.pollState
    case PollIdle => true
    case PollStatus => c.record.Then? && c.record.last == Lock
    case _ =>
      && c.currentPhy < NUM_PORTS
      && c.record.Then? && c.record.last.TookStatus?
      && c.record.last.port == c.currentPhy
      && LinkBit(c.record.last.word) == c.ports[c.currentPhy].linkUp
      && c.record.past.Then? && c.record.past.last == Lock
      && c.linkStateChanged
         == (c.ports[c.currentPhy].linkUp != Latest(Polls(c.record, c.currentPhy)).linkUp)
  }

  /** Table, log and LEDs of one port follow from its completed polls. */
  ghost predicate PortTraced(c: Core, boot: seq<Phy>, p: nat)
    requires |c.ports| == NUM_PORTS && |c.phys| == |boot| == NUM_PORTS && p < NUM_PORTS
  {
    var polls := Polls(c.record, p);
    && |polls| == c.tally.ticks + (if p < c.currentPhy then 1 else 0)
    && c.ports[p].fullDuplex == Latest(polls).fullDuplex
    && c.ports[p].speed == Latest(polls).speed
    && (!Torn(c, p) ==> c.ports[p].linkUp == Latest(polls).linkUp)
    && LinkBits(c.record, p) == Links(polls) + (if Torn(c, p) then [c.ports[p].linkUp] else [])
    && Messages(c.log, p) == EdgeLog(p, polls)
    && c.phys[Paired(p)].led == LedAfter(boot[Paired(p)].led, polls)
  }

  ghost predicate PortsTraced(c: Core, boot: seq<Phy>) {
    && |c.ports| == |c.phys| == |boot| == NUM_PORTS
    && forall p :: 0 <= p < NUM_PORTS ==> PortTraced(c, boot, p)
  }

  /** The log as a whole and the order of the polls follow from the record. */
  ghost predicate RecordTraced(c: Core) {
    && |c.ports| == NUM_PORTS
    && HoldRecorded(c)
    && c.log == ExpectedLog(c.record)
    && |PollOrder(c.record)| == c.tally.polls
    && (forall i :: 0 <= i < |PollOrder(c.record)| ==> PollOrder(c.record)[i] == i % NUM_PORTS)
  }

  /** The table shows the last words decoded for each port, torn or not. */
  ghost predicate RowTraced(c: Core, p: nat)
    requires p < |c.ports|
  {
    var status, extstat := LastStatus(c.record, p), LastExtStat(c.record, p);
    && c.ports[p].linkUp == (status.Word? && LinkBit(status.bits))
    && c.ports[p].fullDuplex == (extstat.Word? ==> DuplexBit(extstat.bits))
    && c.ports[p].speed == if extstat.Word? then SpeedField(extstat.bits) else Speed10M
  }

  ghost predicate RowsTraced(c: Core) {
    forall p :: 0 <= p < |c.ports| ==> RowTraced(c, p)
  }

  ghost predicate Inv(c: Core, cli: Cli, boot: seq<Phy>) {
    Exclusive(c, cli) && Balanced(c) && OwnsBus(c) && RecordTraced(c) && PortsTraced(c, boot)
    && RowsTraced(c)
  }

  // ---------------------------------------------------------------- kept by what the poll task does

  /** Nothing but decoding a word changes what the rows follow from. */
  lemma RowsKept(c: Core, d: Core)
    requires RowsTraced(c) && d.ports == c.ports
    requires d.record == c.record
             || (d.record.Then? && d.record.past == c.record
                 && !d.record.last.TookStatus? && !d.record.last.TookExtStat?)
    ensures RowsTraced(d)
  {
    forall p | 0 <= p < |d.ports| ensures RowTraced(d, p) {
      assert RowTraced(c, p);
    }
  }

  lemma EnteredKeeps(c: Core, cli: Cli, boot: seq<Phy>, tick: bool)
    requires Inv(c, cli, boot)
    ensures Inv(Entered(c, tick), cli, boot)
    ensures Entered(c, tick).pollState == c.pollState && Entered(c, tick).locked == c.locked
    ensures Entered(c, tick).bus == c.bus
  {
    var d := Entered(c, tick);
    RowsKept(c, d);
    forall p | 0 <= p < NUM_PORTS ensures PortTraced(d, boot, p) {
      assert PortTraced(c, boot, p);
    }
  }

  lemma BeginKeeps(c: Core, cli: Cli, boot: seq<Phy>, latency: nat)
    requires Inv(c, cli, boot)
    requires c.currentPhy < NUM_PORTS && c.pollState.PollIdle? && !c.locked
    ensures Inv(Begin(c, latency), cli, boot)
  {
    BeginTraces(c, boot, latency);
    RowsKept(c, Begin(c, latency));
  }

  lemma BeginTraces(c: Core, boot: seq<Phy>, latency: nat)
    requires PortsTraced(c, boot) && c.pollState.PollIdle?
    ensures PortsTraced(Begin(c, latency), boot)
  {
    var d := Begin(c, latency);
    forall p | 0 <= p < NUM_PORTS ensures PortTraced(d, boot, p) {
      assert PortTraced(c, boot, p);
    }
  }

  lemma WaitKeeps(c: Core, cli: Cli, boot: seq<Phy>, busy: nat)
    requires Inv(c, cli, boot)
    ensures Inv(c.(bus := c.bus.(busy := busy)), cli, boot)
  {
    var d := c.(bus := c.bus.(busy := busy));
    RowsKept(c, d);
    forall p | 0 <= p < NUM_PORTS ensures PortTraced(d, boot, p) {
      assert PortTraced(c, boot, p);
    }
  }

  lemma AnswerKeeps(c: Core, cli: Cli, boot: seq<Phy>, raw: bv32)
    requires Inv(c, cli, boot)
    ensures Inv(AnswerPending(c, raw), cli, boot)
  {
    AnswerKeepsBus(c, cli, raw);
    AnswerTraces(c, boot, raw);
    RowsKept(c, AnswerPending(c, raw));
  }

  lemma AnswerKeepsBus(c: Core, cli: Cli, raw: bv32)
    requires Exclusive(c, cli) && Balanced(c) && OwnsBus(c)
    ensures var d := AnswerPending(c, raw); Exclusive(d, cli) && Balanced(d) && OwnsBus(d)
  {
  }

  lemma AnswerTraces(c: Core, boot: seq<Phy>, raw: bv32)
    requires RecordTraced(c) && PortsTraced(c, boot)
    ensures RecordTraced(AnswerPending(c, raw)) && PortsTraced(AnswerPending(c, raw), boot)
  {
    var d := AnswerPending(c, raw);
    forall p | 0 <= p < NUM_PORTS ensures PortTraced(d, boot, p) {
      assert PortTraced(c, boot, p);
    }
  }

  lemma TakeStatusKeeps(c: Core, cli: Cli, boot: seq<Phy>, latency: nat)
    requires Inv(c, cli, boot)
    requires c.pollState.PollStatus? && c.bus.answered
    ensures Inv(TakeStatus(c, latency), cli, boot)
  {
    TakeStatusKeepsBus(c, cli, latency);
    TakeStatusKeepsRecord(c, cli, boot, latency);
    TakeStatusKeepsRows(c, latency);
    forall p | 0 <= p < NUM_PORTS ensures PortTraced(TakeStatus(c, latency), boot, p) {
      TakeStatusTraces(c, cli, boot, latency, p);
    }
  }

  lemma TakeStatusKeepsBus(c: Core, cli: Cli, latency: nat)
    requires Exclusive(c, cli) && Balanced(c) && OwnsBus(c)
    requires c.pollState.PollStatus? && c.bus.answered
    ensures var d := TakeStatus(c, latency); Exclusive(d, cli) && Balanced(d) && OwnsBus(d)
  {
    var consumed := Then(c.wire, Consumed(Command(REG_BASIC_STATUS, c.currentPhy), c.bus.data));
    assert Matched(consumed);
  }

  lemma TakeStatusKeepsRows(c: Core, latency: nat)
    requires c.currentPhy < |c.ports| && RowsTraced(c)
    ensures RowsTraced(TakeStatus(c, latency))
  {
    var d := TakeStatus(c, latency);
    forall p | 0 <= p < |d.ports| ensures RowTraced(d, p) {
      assert RowTraced(c, p);
    }
  }

  lemma TakeStatusKeepsRecord(c: Core, cli: Cli, boot: seq<Phy>, latency: nat)
    requires Exclusive(c, cli) && Balanced(c) && RecordTraced(c) && PortsTraced(c, boot)
    requires c.pollState.PollStatus?
    ensures RecordTraced(TakeStatus(c, latency))
  {
    assert PortTraced(c, boot, c.currentPhy);
  }

  lemma TakeStatusTraces(c: Core, cli: Cli, boot: seq<Phy>, latency: nat, p: nat)
    requires Exclusive(c, cli) && PortsTraced(c, boot) && p < NUM_PORTS
    requires c.pollState.PollStatus?
    ensures PortTraced(TakeStatus(c, latency), boot, p)
  {
    assert PortTraced(c, boot, p);
  }

  lemma TakeCtrlKeeps(c: Core, cli: Cli, boot: seq<Phy>, latency: nat)
    requires Inv(c, cli, boot)
    requires c.pollState.PollCtrl? && c.bus.answered
    ensures Inv(TakeCtrl(c, latency), cli, boot)
  {
    var d := TakeCtrl(c, latency);
    RowsKept(c, d);
    forall p | 0 <= p < NUM_PORTS ensures PortTraced(d, boot, p) {
      assert PortTraced(c, boot, p);
    }
  }

  lemma TakeExtStatKeeps(c: Core, cli: Cli, boot: seq<Phy>)
    requires Inv(c, cli, boot)
    requires c.pollState.PollExtStat? && c.bus.answered
    ensures Inv(TakeExtStat(c), cli, boot)
  {
    TakeExtStatKeepsBus(c, cli);
    TakeExtStatKeepsRecord(c, cli);
    TakeExtStatKeepsRows(c);
    forall p | 0 <= p < NUM_PORTS ensures PortTraced(TakeExtStat(c), boot, p) {
      TakeExtStatTraces(c, cli, boot, p);
    }
  }

  lemma TakeExtStatKeepsRows(c: Core)
    requires c.currentPhy < |c.ports| && RowsTraced(c)
    ensures RowsTraced(TakeExtStat(c))
  {
    var d := TakeExtStat(c);
    forall p | 0 <= p < |d.ports| ensures RowTraced(d, p) {
      assert RowTraced(c, p);
    }
  }

  lemma TakeExtStatKeepsRecord(c: Core, cli: Cli)
    requires Exclusive(c, cli) && Balanced(c) && RecordTraced(c)
    requires c.pollState.PollExtStat?
    ensures RecordTraced(TakeExtStat(c))
  {
    ReleaseCompletesPoll(c, c.currentPhy);
  }

  lemma TakeExtStatKeepsBus(c: Core, cli: Cli)
    requires Exclusive(c, cli) && Balanced(c) && OwnsBus(c)
    requires c.pollState.PollExtStat? && c.bus.answered
    ensures var d := TakeExtStat(c); Exclusive(d, cli) && Balanced(d) && OwnsBus(d)
  {
    var read := DecodeExtStat(c);
    assert Matched(read.wire);
    assert ConsumedReadings(read.wire) == DecodedReadings(read.record);
  }

  /** The completed poll appends one result to its own port and nothing to any other. */
  lemma ReleaseCompletesPoll(c: Core, p: nat)
    requires |c.ports| == NUM_PORTS && HoldRecorded(c)
    requires c.pollState.PollExtStat?
    ensures var e := Decoded(c.record.last.word, c.bus.data);
            var d := Then(Then(c.record, TookExtStat(c.currentPhy, c.bus.data)), Unlock);
            && Polls(d, p) == (if p == c.currentPhy then Polls(c.record, p) + [e] else Polls(c.record, p))
            && LinkBits(d, p) == LinkBits(c.record, p)
            && PollOrder(d) == PollOrder(c.record) + [c.currentPhy]
            && ExpectedLog(d) == if c.linkStateChanged
                                 then Then(ExpectedLog(c.record), MessageFor(c.currentPhy, e))
                                 else ExpectedLog(c.record)
  {
    var read := Then(c.record, TookExtStat(c.currentPhy, c.bus.data));
    assert Polls(read, p) == Polls(c.record, p);
    assert LinkBits(read, p) == LinkBits(c.record, p);
    assert PollOrder(read) == PollOrder(c.record);
    assert ExpectedLog(read) == ExpectedLog(c.record);
    assert Polls(read, c.currentPhy) == Polls(c.record, c.currentPhy);
  }

  lemma TakeExtStatTraces(c: Core, cli: Cli, boot: seq<Phy>, p: nat)
    requires Exclusive(c, cli) && RecordTraced(c) && PortsTraced(c, boot) && p < NUM_PORTS
    requires c.pollState.PollExtStat?
    ensures PortTraced(TakeExtStat(c), boot, p)
  {
    if p == c.currentPhy {
      TakeExtStatTracesOwn(c, cli, boot);
    } else {
      TakeExtStatTracesOther(c, cli, boot, p);
    }
  }

  lemma TakeExtStatTracesOther(c: Core, cli: Cli, boot: seq<Phy>, p: nat)
    requires Exclusive(c, cli) && RecordTraced(c) && PortsTraced(c, boot) && p < NUM_PORTS
    requires c.pollState.PollExtStat? && p != c.currentPhy
    ensures PortTraced(TakeExtStat(c), boot, p)
  {
    assert PortTraced(c, boot, p);
    ReleaseCompletesPoll(c, p);
    PairingIsAnInvolution(p, c.currentPhy);
  }

  lemma TakeExtStatTracesOwn(c: Core, cli: Cli, boot: seq<Phy>)
    requires Exclusive(c, cli) && RecordTraced(c) && PortsTraced(c, boot)
    requires c.pollState.PollExtStat?
    ensures PortTraced(TakeExtStat(c), boot, c.currentPhy)
  {
    var q := c.currentPhy;
    assert PortTraced(c, boot, q);
    ReleaseCompletesPoll(c, q);
    PairingIsAnInvolution(q, q);
    AppendPoll(q, Polls(c.record, q), TakeExtStat(c).ports[q], boot[Paired(q)].led);
  }

  lemma PollPhysKeeps(c: Core, cli: Cli, boot: seq<Phy>, env: Env)
    requires Inv(c, cli, boot)
    ensures Inv(PollPhys(c, env), cli, boot)
  {
    if c.currentPhy < NUM_PORTS {
      if c.pollState.PollIdle? {
        if !c.locked {
          BeginKeeps(c, cli, boot, env.latency);
        }
      } else if c.bus.busy > 0 {
        WaitKeeps(c, cli, boot, c.bus.busy - 1);
      } else {
        AnswerKeeps(c, cli, boot, env.raw);
        var r := AnswerPending(c, env.raw);
        match c.pollState
        case PollStatus => TakeStatusKeeps(r, cli, boot, env.latency);
        case PollCtrl => TakeCtrlKeeps(r, cli, boot, env.latency);
        case PollExtStat => TakeExtStatKeeps(r, cli, boot);
      }
    }
  }

  // ---------------------------------------------------------------- kept by everything else

  lemma WireKeeps(c: Core, cli: Cli, boot: seq<Phy>, phy: nat, up: bool)
    requires Inv(c, cli, boot)
    ensures Inv(c.(phys := AfterWire(c.phys, phy, up)), cli, boot)
  {
    var d := c.(phys := AfterWire(c.phys, phy, up));
    RowsKept(c, d);
    forall p | 0 <= p < NUM_PORTS ensures PortTraced(d, boot, p) {
      assert PortTraced(c, boot, p);
    }
  }

  /** The CLI takes or returns the mutex, or uses the bus, while the poll task is idle. */
  lemma CliKeeps(c: Core, d: Core, cli: Cli, next: Cli, boot: seq<Phy>)
    requires Inv(c, cli, boot) && c.pollState.PollIdle?
    requires d.locked == next.CliHolding?
    requires d == c.(locked := d.locked, record := d.record, bus := d.bus, wire := d.wire)
    requires d.record == c.record || d.record == Then(c.record, CliLock) || d.record == Then(c.record, CliUnlock)
    requires d.wire == c.wire || (d.wire.Then? && d.wire.past == c.wire && d.wire.last.CliAccess?)
    requires d.bus.answered
    ensures Inv(d, next, boot)
  {
    RowsKept(c, d);
    forall p | 0 <= p < NUM_PORTS ensures PortTraced(d, boot, p) {
      CliTraces(c, d, boot, p);
    }
  }

  lemma CliTraces(c: Core, d: Core, boot: seq<Phy>, p: nat)
    requires PortsTraced(c, boot) && p < NUM_PORTS && c.pollState.PollIdle?
    requires d == c.(locked := d.locked, record := d.record, bus := d.bus, wire := d.wire)
    requires d.record == c.record || d.record == Then(c.record, CliLock) || d.record == Then(c.record, CliUnlock)
    ensures PortTraced(d, boot, p)
  {
    assert PortTraced(c, boot, p);
  }

  lemma StepKeeps(s: State, e: Event, boot: seq<Phy>)
    requires Inv(s.core, s.cli, boot)
    ensures Inv(Step(s, e).core, Step(s, e).cli, boot)
  {
    var c := s.core;
    match e
    case Wire(phy, up) => WireKeeps(c, s.cli, boot, phy, up);
    case Answer(raw) => AnswerKeeps(c, s.cli, boot, raw);
    case Iterate(tick, env) => IterationKeeps(c, s.cli, boot, tick, env);
    case CliCall => CallKeeps(c, s.cli, boot);
    case CliTry(tick, env) =>
      if s.cli.CliSpinning? {
        if c.locked {
          IterationKeeps(c, s.cli, boot, tick, env);
        } else {
          CliKeeps(c, Step(s, e).core, s.cli, CliHolding, boot);
        }
      }
    case CliRead(_, _) => CliStepKeeps(s, e, boot);
    case CliReturn => CliStepKeeps(s, e, boot);
  }

  lemma IterationKeeps(c: Core, cli: Cli, boot: seq<Phy>, tick: bool, env: Env)
    requires Inv(c, cli, boot)
    ensures Inv(Iteration(c, tick, env), cli, boot)
  {
    EnteredKeeps(c, cli, boot, tick);
    PollPhysKeeps(Entered(c, tick), cli, boot, env);
  }

  lemma CallKeeps(c: Core, cli: Cli, boot: seq<Phy>)
    requires Inv(c, cli, boot)
    ensures cli.CliIdle? ==> Inv(c, CliSpinning, boot)
  {
  }

  lemma CliStepKeeps(s: State, e: Event, boot: seq<Phy>)
    requires Inv(s.core, s.cli, boot) && (e.CliRead? || e.CliReturn?)
    ensures Inv(Step(s, e).core, Step(s, e).cli, boot)
  {
    if s.cli.CliHolding? && Step(s, e) != s {
      CliKeeps(s.core, Step(s, e).core, s.cli, Step(s, e).cli, boot);
    }
  }

  lemma {:induction false} BootEstablishes(boot: seq<Phy>, hasMdio: bool)
    requires |boot| == NUM_PORTS
    ensures Inv(Boot(boot, hasMdio).core, CliIdle, boot)
  {
    var c := Boot(boot, hasMdio).core;
    forall p | 0 <= p < NUM_PORTS ensures PortTraced(c, boot, p) {
      PairingIsAnInvolution(p, p);
    }
  }

  lemma {:induction false} RunKeeps(s: State, es: seq<Event>, boot: seq<Phy>)
    requires Inv(s.core, s.cli, boot)
    ensures Inv(Run(s, es).core, Run(s, es).cli, boot)
  {
    if es == [] {
    } else {
      RunKeeps(s, es[..|es| - 1], boot);
      StepKeeps(Run(s, es[..|es| - 1]), es[|es| - 1], boot);
    }
  }

  /** Every state a line card reaches. */
  ghost predicate Reachable(s: State, boot: seq<Phy>) {
    |boot| == NUM_PORTS && exists hasMdio, es: seq<Event> :: s == Run(Boot(boot, hasMdio), es)
  }

  lemma ReachableInv(s: State, boot: seq<Phy>)
    requires Reachable(s, boot)
    ensures Inv(s.core, s.cli, boot)
  {
    var hasMdio, es: seq<Event> :| s == Run(Boot(boot, hasMdio), es);
    BootEstablishes(boot, hasMdio);
    RunKeeps(Boot(boot, hasMdio), es, boot);
  }
}
