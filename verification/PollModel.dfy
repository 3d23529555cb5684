/** The polling protocol of one line card as a transition system.

  `Core` is everything the poll task reads or writes: its own fields, the port table, the
  mutex, the MDIO block and the PHYs, and the records of what happened. `State` adds the CLI
  session that uses the same bus. An `Event` is one indivisible piece of behaviour; an event
  that cannot happen in a state leaves the state alone, so every sequence of events is a run. */
module PollModel {
  import opened Histories
  import opened Mdio

  // ---------------------------------------------------------------- state

  datatype PollState = PollIdle | PollStatus | PollCtrl | PollExtStat

  datatype PortEntry = PortEntry(linkUp: bool, fullDuplex: bool, speed: LinkSpeed)

  /** What the InterfaceState constructor leaves in an entry. */
  const INITIAL_ENTRY: PortEntry := PortEntry(false, true, Speed10M)

  /** The MDIO block: the last access, for how many more reads `status` stays nonzero, whether
    the access has reached the PHY yet, and the data register. */
  datatype Bus = Bus(cmd: Command, busy: nat, answered: bool, data: bv32)

  /** What the poll task and the CLI do with the mutex, and the words the poll task decodes. */
  datatype Access =
    | Lock
    | TookStatus(port: nat, word: bv32)
    | TookExtStat(port: nat, word: bv32)
    | Unlock
    | CliLock
    | CliUnlock

  /** Everything that happens on the bus. `Consumed` is the poll task taking the data register
    for the reply to `cmd`. */
  datatype BusOp =
    | Issued(cmd: Command)
    | Answered(cmd: Command, word: bv32)
    | Consumed(cmd: Command, word: bv32)
    | LedWritten(cmd: Command, mode: bv16)
    | CliAccess(cmd: Command)

  datatype Message = LinkUp(port: nat, speed: LinkSpeed) | LinkDown(port: nat)

  /** How often the poll task did what. */
  datatype Tally = Tally(iterations: nat, ticks: nat, locks: nat, unlocks: nat, issues: nat, polls: nat)

  datatype Core = Core(
    currentPhy: nat,
    pollState: PollState,
    linkStateChanged: bool,
    ports: seq<PortEntry>,
    locked: bool,
    bus: Bus,
    phys: seq<Phy>,
    record: History<Access>,
    wire: History<BusOp>,
    log: History<Message>,
    tally: Tally)

  /** The hardware's choices during one call of Iteration: for how many polls an access started
    now stays busy, and the bits of a word that the model does not determine. */
  datatype Env = Env(latency: nat, raw: bv32)

  // ---------------------------------------------------------------- the MDIO block

  function StartRead(c: Core, reg: nat, latency: nat): (d: Core)
    ensures |d.ports| == |c.ports| && |d.phys| == |c.phys|
  {
    var cmd := Command(reg, c.currentPhy);
    c.(bus := Bus(cmd, latency, false, c.bus.data),
       wire := Then(c.wire, Issued(cmd)),
       tally := c.tally.(issues := c.tally.issues + 1))
  }

  /** The pending access reaches its PHY, at any moment between issue and completion. */
  function AnswerPending(c: Core, raw: bv32): (d: Core)
    ensures |d.ports| == |c.ports| && |d.phys| == |c.phys|
  {
    if c.bus.answered then c else
    var word := Reply(c.phys, c.bus.cmd, raw);
    c.(bus := c.bus.(answered := true, data := word),
       phys := AfterRead(c.phys, c.bus.cmd),
       wire := Then(c.wire, Answered(c.bus.cmd, word)))
  }

  /** MDIODevice::WriteRegister, which returns when the write is done. */
  function WriteLed(c: Core, phy: nat, mode: bv16): (d: Core)
    ensures |d.ports| == |c.ports| && |d.phys| == |c.phys|
  {
    var cmd := Command(REG_VSC8512_LED_MODE, phy);
    c.(bus := Bus(cmd, 0, true, c.bus.data),
       phys := if phy < |c.phys| then c.phys[phy := c.phys[phy].(led := mode)] else c.phys,
       wire := Then(c.wire, LedWritten(cmd, mode)))
  }

  // ---------------------------------------------------------------- the poll task

  function OnTimer(c: Core): (d: Core)
    ensures |d.ports| == |c.ports| && |d.phys| == |c.phys|
  {
    if c.currentPhy >= NUM_PORTS
    then c.(currentPhy := 0, pollState := PollIdle, linkStateChanged := false,
            tally := c.tally.(ticks := c.tally.ticks + 1))
    else c
  }

  /** POLL_IDLE with the mutex free: take it and ask for the basic status. */
  function Begin(c: Core, latency: nat): (d: Core)
    ensures |d.ports| == |c.ports| && |d.phys| == |c.phys|
  {
    StartRead(
      c.(locked := true,
         record := Then(c.record, Lock),
         tally := c.tally.(locks := c.tally.locks + 1)),
      REG_BASIC_STATUS, latency).(pollState := PollStatus)
  }

  function TakeStatus(c: Core, latency: nat): (d: Core)
    requires c.currentPhy < |c.ports|
    ensures |d.ports| == |c.ports| && |d.phys| == |c.phys|
  {
    var port := c.currentPhy;
    var word := c.bus.data;
    var up := LinkBit(word);
    StartRead(
      c.(linkStateChanged := c.ports[port].linkUp != up,
         ports := c.ports[port := c.ports[port].(linkUp := up)],
         record := Then(c.record, TookStatus(port, word)),
         wire := Then(c.wire, Consumed(Command(REG_BASIC_STATUS, port), word))),
      REG_BASIC_CONTROL, latency).(pollState := PollCtrl)
  }

  /** The control register is read but its value is not used. */
  function TakeCtrl(c: Core, latency: nat): (d: Core)
    ensures |d.ports| == |c.ports| && |d.phys| == |c.phys|
  {
    StartRead(c, REG_VSC8512_AUX_CTRL_STAT, latency).(pollState := PollExtStat)
  }

  function MessageFor(port: nat, e: PortEntry): Message {
    if e.linkUp then LinkUp(port, e.speed) else LinkDown(port)
  }

  /** Log a change of the link and rewrite the LED mode of the paired PHY. */
  function Report(c: Core, port: nat, e: PortEntry): (d: Core)
    ensures |d.ports| == |c.ports| && |d.phys| == |c.phys|
  {
    WriteLed(c.(log := Then(c.log, MessageFor(port, e))), Paired(port), LedMode(e.linkUp, e.speed))
  }

  function DecodeExtStat(c: Core): (d: Core)
    requires c.currentPhy < |c.ports|
    ensures |d.ports| == |c.ports| && |d.phys| == |c.phys|
  {
    var port := c.currentPhy;
    var word := c.bus.data;
    c.(ports := c.ports[port := c.ports[port].(fullDuplex := DuplexBit(word), speed := SpeedField(word))],
       record := Then(c.record, TookExtStat(port, word)),
       wire := Then(c.wire, Consumed(Command(REG_VSC8512_AUX_CTRL_STAT, port), word)))
  }

  /** Move on to the next PHY and give the mutex back. */
  function Release(c: Core): (d: Core)
    ensures |d.ports| == |c.ports| && |d.phys| == |c.phys|
  {
    c.(currentPhy := c.currentPhy + 1, locked := false, pollState := PollIdle,
       record := Then(c.record, Unlock),
       tally := c.tally.(unlocks := c.tally.unlocks + 1, polls := c.tally.polls + 1))
  }

  function TakeExtStat(c: Core): (d: Core)
    requires c.currentPhy < |c.ports|
    ensures |d.ports| == |c.ports| && |d.phys| == |c.phys|
  {
    var read := DecodeExtStat(c);
    Release(if c.linkStateChanged then Report(read, c.currentPhy, read.ports[c.currentPhy]) else read)
  }

  function PollPhys(c: Core, env: Env): (d: Core)
    requires |c.ports| == NUM_PORTS
    ensures d.tally.iterations == c.tally.iterations && d.tally.ticks == c.tally.ticks
    ensures d.tally.polls >= c.tally.polls
    ensures |d.ports| == |c.ports| && |d.phys| == |c.phys|
  {
    if c.currentPhy >= NUM_PORTS then c
    else if c.pollState.PollIdle? then
      if c.locked then c else Begin(c, env.latency)
    else if c.bus.busy > 0 then
      c.(bus := c.bus.(busy := c.bus.busy - 1))
    else
      var r := AnswerPending(c, env.raw);
      match c.pollState
      case PollStatus => TakeStatus(r, env.latency)
      case PollCtrl => TakeCtrl(r, env.latency)
      case PollExtStat => TakeExtStat(r)
  }

  /** What the timer does before the poll step. */
  function Entered(c: Core, tick: bool): (d: Core)
    ensures |d.ports| == |c.ports| && |d.phys| == |c.phys|
  {
    var counted := c.(tally := c.tally.(iterations := c.tally.iterations + 1));
    if tick then OnTimer(counted) else counted
  }

  function Iteration(c: Core, tick: bool, env: Env): (d: Core)
    requires |c.ports| == NUM_PORTS
    ensures d.tally.iterations == c.tally.iterations + 1
    ensures d.tally.polls >= c.tally.polls
    ensures |d.ports| == |c.ports| && |d.phys| == |c.phys|
  {
    PollPhys(Entered(c, tick), env)
  }

  // ---------------------------------------------------------------- the CLI and the scheduler

  datatype Cli = CliIdle | CliSpinning | CliHolding

  datatype State = State(core: Core, cli: Cli, scheduled: bool)

  datatype Event =
    | Wire(phy: nat, up: bool)           // the wire of a PHY changes
    | Answer(raw: bv32)                  // the pending bus access reaches its PHY
    | Iterate(tick: bool, env: Env)      // the main loop calls the poll task
    | CliCall                            // PrintLineCardInfo is entered
    | CliTry(tick: bool, env: Env)       // one TryLock, and one Iteration if it failed
    | CliRead(cmd: Command, raw: bv32)   // a temperature access, complete when it returns
    | CliReturn                          // the CLI unlocks

  function Step(s: State, e: Event): (t: State)
    requires |s.core.ports| == NUM_PORTS
    ensures |t.core.ports| == NUM_PORTS && |t.core.phys| == |s.core.phys|
    ensures t.scheduled == s.scheduled
  {
    var c := s.core;
    match e
    case Wire(phy, up) => s.(core := c.(phys := AfterWire(c.phys, phy, up)))
    case Answer(raw) => s.(core := AnswerPending(c, raw))
    case Iterate(tick, env) =>
      if s.scheduled && s.cli.CliIdle? then s.(core := Iteration(c, tick, env)) else s
    case CliCall =>
      if s.cli.CliIdle? then s.(cli := CliSpinning) else s
    case CliTry(tick, env) =>
      if !s.cli.CliSpinning? then s
      else if c.locked then s.(core := Iteration(c, tick, env))
      else s.(core := c.(locked := true, record := Then(c.record, CliLock)), cli := CliHolding)
    case CliRead(cmd, raw) =>
      if s.cli.CliHolding? && cmd.reg != REG_BASIC_STATUS
      then s.(core := c.(bus := Bus(cmd, 0, true, raw), wire := Then(c.wire, CliAccess(cmd))))
      else s
    case CliReturn =>
      if s.cli.CliHolding?
      then s.(core := c.(locked := false, record := Then(c.record, CliUnlock)), cli := CliIdle)
      else s
  }

  function Run(s: State, es: seq<Event>): (t: State)
    requires |s.core.ports| == NUM_PORTS
    ensures |t.core.ports| == NUM_PORTS && |t.core.phys| == |s.core.phys|
    ensures t.scheduled == s.scheduled
  {
    if es == [] then s
    else
      var before := Run(s, es[..|es| - 1]);
      Step(before, es[|es| - 1])
  }

  /** Some events lead from s to t. */
  ghost predicate LeadsTo(s: State, t: State)
    requires |s.core.ports| == NUM_PORTS
  {
    exists es: seq<Event> :: t == Run(s, es)
  }

  lemma {:induction false} RunConcat(s: State, es: seq<Event>, fs: seq<Event>)
    requires |s.core.ports| == NUM_PORTS
    ensures Run(s, es + fs) == Run(Run(s, es), fs)
  {
    if fs == [] {
      assert es + fs == es;
    } else {
      RunConcat(s, es, fs[..|fs| - 1]);
      assert (es + fs)[..|es + fs| - 1] == es + fs[..|fs| - 1];
    }
  }

  lemma LeadsToTransitive(s: State, t: State, es: seq<Event>)
    requires |s.core.ports| == |t.core.ports| == NUM_PORTS && LeadsTo(s, t)
    ensures LeadsTo(s, Run(t, es))
  {
    var fs: seq<Event> :| t == Run(s, fs);
    RunConcat(s, fs, es);
  }

  lemma RunSnoc(s: State, es: seq<Event>, e: Event)
    requires |s.core.ports| == NUM_PORTS
    ensures Run(s, es + [e]) == Step(Run(s, es), e)
  {
    assert (es + [e])[..|es + [e]| - 1] == es;
  }

  /** A line card as its constructor leaves it, in front of PHYs in any condition. Its poll task
    is scheduled exactly when the card has an MDIO block. */
  function Boot(phys: seq<Phy>, hasMdio: bool): (s: State)
    requires |phys| == NUM_PORTS
    ensures |s.core.ports| == NUM_PORTS
  {
    State(
      Core(0, PollIdle, false, seq(NUM_PORTS, _ => INITIAL_ENTRY), false,
           Bus(Command(0, 0), 0, true, 0), phys,
           Start, Start, Start, Tally(0, 0, 0, 0, 0, 0)),
      CliIdle, hasMdio)
  }
}
