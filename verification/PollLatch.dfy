/** No link loss goes unlogged, because the link bit of a PHY latches low until it is read. */
module PollLatch {
  import opened Histories
  import opened Mdio
  import opened PollModel
  import opened PollRecord
  import opened PollInvariant

  /** A poll of the port is under way and its status word has already left the PHY. */
  predicate Sampled(c: Core, p: nat) {
    c.currentPhy == p && !c.pollState.PollIdle? && (c.pollState.PollStatus? ==> c.bus.answered)
  }

  /** Polls of the port that have read its status register, finished or not. */
  function PollsSampled(c: Core, p: nat): nat {
    |Polls(c.record, p)| + if Sampled(c, p) then 1 else 0
  }

  /** The port is up in the table, or in a status word that waits in the data register. */
  predicate LastSeenUp(c: Core, p: nat)
    requires p < |c.ports|
  {
    c.ports[p].linkUp || (c.currentPhy == p && c.pollState.PollStatus? && c.bus.answered && LinkBit(c.bus.data))
  }

  /** Where a loss is that happened when `base` polls had read the status register and `downs`
    losses had been logged: in the latch, in the data register, in the flag, or in the log. */
  ghost predicate LossTracked(c: Core, p: nat, base: nat, downs: nat)
    requires |c.ports| == |c.phys| == NUM_PORTS && p < NUM_PORTS
  {
    || Downs(c.log, p) > downs
    || (Downs(c.log, p) == downs && (LossLatched(c, p, base) || LossRead(c, p, base)))
  }

  ghost predicate LossLatched(c: Core, p: nat, base: nat)
    requires |c.ports| == |c.phys| == NUM_PORTS && p < NUM_PORTS
  {
    LastSeenUp(c, p) && c.phys[p].latchedLow && PollsSampled(c, p) <= base
  }

  ghost predicate LossRead(c: Core, p: nat, base: nat)
    requires |c.ports| == |c.phys| == NUM_PORTS && p < NUM_PORTS
  {
    && c.currentPhy == p && |Polls(c.record, p)| <= base
    && if c.pollState.PollStatus?
       then c.bus.answered && !LinkBit(c.bus.data) && c.ports[p].linkUp
       else !c.pollState.PollIdle? && c.linkStateChanged && !c.ports[p].linkUp
  }

  lemma EnteredTracks(c: Core, cli: Cli, tick: bool, p: nat, base: nat, downs: nat)
    requires Exclusive(c, cli) && p < NUM_PORTS && LossTracked(c, p, base, downs)
    ensures LossTracked(Entered(c, tick), p, base, downs)
  {
  }

  lemma BeginTracks(c: Core, cli: Cli, latency: nat, p: nat, base: nat, downs: nat)
    requires Exclusive(c, cli) && p < NUM_PORTS && LossTracked(c, p, base, downs)
    requires c.pollState.PollIdle?
    ensures LossTracked(Begin(c, latency), p, base, downs)
  {
  }

  lemma WaitTracks(c: Core, cli: Cli, busy: nat, p: nat, base: nat, downs: nat)
    requires Exclusive(c, cli) && p < NUM_PORTS && LossTracked(c, p, base, downs)
    ensures LossTracked(c.(bus := c.bus.(busy := busy)), p, base, downs)
  {
  }

  lemma AnswerTracks(c: Core, cli: Cli, raw: bv32, p: nat, base: nat, downs: nat)
    requires Exclusive(c, cli) && OwnsBus(c) && p < NUM_PORTS && LossTracked(c, p, base, downs)
    ensures LossTracked(AnswerPending(c, raw), p, base, downs)
  {
  }

  lemma TakeStatusTracks(c: Core, cli: Cli, latency: nat, p: nat, base: nat, downs: nat)
    requires Exclusive(c, cli) && p < NUM_PORTS && LossTracked(c, p, base, downs)
    requires c.pollState.PollStatus? && c.bus.answered
    ensures LossTracked(TakeStatus(c, latency), p, base, downs)
  {
  }

  lemma TakeCtrlTracks(c: Core, cli: Cli, latency: nat, p: nat, base: nat, downs: nat)
    requires Exclusive(c, cli) && p < NUM_PORTS && LossTracked(c, p, base, downs)
    requires c.pollState.PollCtrl?
    ensures LossTracked(TakeCtrl(c, latency), p, base, downs)
  {
  }

  lemma TakeExtStatTracks(c: Core, cli: Cli, p: nat, base: nat, downs: nat)
    requires Exclusive(c, cli) && RecordTraced(c) && p < NUM_PORTS && LossTracked(c, p, base, downs)
    requires c.pollState.PollExtStat?
    ensures LossTracked(TakeExtStat(c), p, base, downs)
  {
    ReleaseCompletesPoll(c, p);
  }

  lemma PollTracks(c: Core, cli: Cli, boot: seq<Phy>, env: Env, p: nat, base: nat, downs: nat)
    requires Inv(c, cli, boot) && p < NUM_PORTS && LossTracked(c, p, base, downs)
    ensures LossTracked(PollPhys(c, env), p, base, downs)
  {
    if c.currentPhy < NUM_PORTS {
      if c.pollState.PollIdle? {
        BeginTracks(c, cli, env.latency, p, base, downs);
      } else if c.bus.busy > 0 {
        WaitTracks(c, cli, c.bus.busy - 1, p, base, downs);
      } else {
        AnswerKeeps(c, cli, boot, env.raw);
        AnswerTracks(c, cli, env.raw, p, base, downs);
        var r := AnswerPending(c, env.raw);
        match c.pollState
        case PollStatus => TakeStatusTracks(r, cli, env.latency, p, base, downs);
        case PollCtrl => TakeCtrlTracks(r, cli, env.latency, p, base, downs);
        case PollExtStat => TakeExtStatTracks(r, cli, p, base, downs);
      }
    }
  }

  lemma IterationTracks(c: Core, cli: Cli, boot: seq<Phy>, tick: bool, env: Env, p: nat, base: nat, downs: nat)
    requires Inv(c, cli, boot) && p < NUM_PORTS && LossTracked(c, p, base, downs)
    ensures LossTracked(Iteration(c, tick, env), p, base, downs)
  {
    EnteredKeeps(c, cli, boot, tick);
    EnteredTracks(c, cli, tick, p, base, downs);
    PollTracks(Entered(c, tick), cli, boot, env, p, base, downs);
  }

  lemma StepTracks(s: State, e: Event, boot: seq<Phy>, p: nat, base: nat, downs: nat)
    requires Inv(s.core, s.cli, boot) && p < NUM_PORTS && LossTracked(s.core, p, base, downs)
    ensures LossTracked(Step(s, e).core, p, base, downs)
  {
    match e
    case Answer(raw) => AnswerTracks(s.core, s.cli, raw, p, base, downs);
    case Iterate(tick, env) => IterationTracks(s.core, s.cli, boot, tick, env, p, base, downs);
    case CliTry(tick, env) =>
      if s.core.locked {
        IterationTracks(s.core, s.cli, boot, tick, env, p, base, downs);
      }
    case _ =>
  }

  lemma {:induction false} RunTracks(s: State, es: seq<Event>, boot: seq<Phy>, p: nat, base: nat, downs: nat)
    requires Inv(s.core, s.cli, boot) && p < NUM_PORTS && LossTracked(s.core, p, base, downs)
    ensures |Run(s, es).core.phys| == NUM_PORTS
    ensures LossTracked(Run(s, es).core, p, base, downs)
  {
    if es == [] {
    } else {
      var fs := es[..|es| - 1];
      RunTracks(s, fs, boot, p, base, downs);
      RunKeeps(s, fs, boot);
      StepTracks(Run(s, fs), es[|es| - 1], boot, p, base, downs);
    }
  }

  /** If a port last seen up loses its link at any moment, then the first poll of that port that
    reads the status register after that moment logs "down" when it completes, or an earlier one
    does, whatever the link does meanwhile: t is any later state in which that poll is complete. */
  lemma NoLossUnlogged(s: State, lost: State, t: State, boot: seq<Phy>, p: nat)
    requires Reachable(s, boot) && p < NUM_PORTS
    requires |s.core.ports| == NUM_PORTS && LastSeenUp(s.core, p)
    requires lost == Step(s, Wire(p, false)) && LeadsTo(lost, t)
    requires |Polls(t.core.record, p)| > PollsSampled(s.core, p)
    ensures Downs(t.core.log, p) > Downs(s.core.log, p)
  {
    ReachableInv(s, boot);
    StepKeeps(s, Wire(p, false), boot);
    var es: seq<Event> :| t == Run(lost, es);
    RunTracks(lost, es, boot, p, PollsSampled(s.core, p), Downs(s.core.log, p));
  }

  lemma PollsOfPortGrow(c: Core, d: Core, boot: seq<Phy>, p: nat)
    requires Balanced(c) && PortsTraced(c, boot) && Balanced(d) && PortsTraced(d, boot)
    requires d.currentPhy <= NUM_PORTS && p < NUM_PORTS
    requires d.tally.polls >= c.tally.polls + 2 * NUM_PORTS
    ensures |Polls(d.record, p)| >= |Polls(c.record, p)| + 2
  {
    assert PortTraced(c, boot, p) && PortTraced(d, boot, p);
  }

  /** The loss is in the log at the latest when two more rounds' worth of polls are complete. */
  lemma LossLoggedWithinTwoRounds(s: State, lost: State, t: State, boot: seq<Phy>, p: nat)
    requires Reachable(s, boot) && p < NUM_PORTS
    requires |s.core.ports| == NUM_PORTS && LastSeenUp(s.core, p)
    requires lost == Step(s, Wire(p, false)) && LeadsTo(lost, t)
    requires t.core.tally.polls >= s.core.tally.polls + 2 * NUM_PORTS
    ensures Downs(t.core.log, p) > Downs(s.core.log, p)
  {
    ReachableInv(s, boot);
    StepKeeps(s, Wire(p, false), boot);
    var es: seq<Event> :| t == Run(lost, es);
    RunKeeps(lost, es, boot);
    PollsOfPortGrow(s.core, t.core, boot, p);
    NoLossUnlogged(s, lost, t, boot, p);
  }

  // ---------------------------------------------------------------- no false alarms

  /** The link of the port is up, was up when last sampled, and no loss is waiting to be logged. */
  ghost predicate Steady(c: Core, p: nat)
    requires |c.ports| == |c.phys| == NUM_PORTS && p < NUM_PORTS
  {
    && c.phys[p].link && !c.phys[p].latchedLow
    && (c.currentPhy == p && c.pollState.PollStatus? && c.bus.answered ==> LinkBit(c.bus.data))
    && (Torn(c, p) && c.linkStateChanged ==> c.ports[p].linkUp)
  }

  lemma AnswerStaysSteady(c: Core, cli: Cli, raw: bv32, p: nat)
    requires Exclusive(c, cli) && OwnsBus(c) && p < NUM_PORTS && Steady(c, p)
    ensures Steady(AnswerPending(c, raw), p)
  {
  }

  lemma TakeStatusStaysSteady(c: Core, cli: Cli, latency: nat, p: nat)
    requires Exclusive(c, cli) && p < NUM_PORTS && Steady(c, p)
    requires c.pollState.PollStatus? && c.bus.answered
    ensures Steady(TakeStatus(c, latency), p)
  {
  }

  lemma TakeCtrlStaysSteady(c: Core, cli: Cli, latency: nat, p: nat)
    requires Exclusive(c, cli) && p < NUM_PORTS && Steady(c, p)
    requires c.pollState.PollCtrl?
    ensures Steady(TakeCtrl(c, latency), p)
  {
  }

  lemma TakeExtStatStaysSteady(c: Core, cli: Cli, p: nat)
    requires Exclusive(c, cli) && p < NUM_PORTS && Steady(c, p)
    requires c.pollState.PollExtStat?
    ensures Steady(TakeExtStat(c), p)
    ensures Downs(TakeExtStat(c).log, p) == Downs(c.log, p)
  {
  }

  lemma PollStaysSteady(c: Core, cli: Cli, boot: seq<Phy>, env: Env, p: nat)
    requires Inv(c, cli, boot) && p < NUM_PORTS && Steady(c, p)
    ensures Steady(PollPhys(c, env), p)
    ensures Downs(PollPhys(c, env).log, p) == Downs(c.log, p)
  {
    if c.currentPhy < NUM_PORTS && !c.pollState.PollIdle? && c.bus.busy == 0 {
      AnswerStaysSteady(c, cli, env.raw, p);
      var r := AnswerPending(c, env.raw);
      match c.pollState
      case PollStatus => TakeStatusStaysSteady(r, cli, env.latency, p);
      case PollCtrl => TakeCtrlStaysSteady(r, cli, env.latency, p);
      case PollExtStat => TakeExtStatStaysSteady(r, cli, p);
    }
  }

  lemma IterationStaysSteady(c: Core, cli: Cli, boot: seq<Phy>, tick: bool, env: Env, p: nat)
    requires Inv(c, cli, boot) && p < NUM_PORTS && Steady(c, p)
    ensures Steady(Iteration(c, tick, env), p)
    ensures Downs(Iteration(c, tick, env).log, p) == Downs(c.log, p)
  {
    EnteredKeeps(c, cli, boot, tick);
    PollStaysSteady(Entered(c, tick), cli, boot, env, p);
  }

  lemma StepStaysSteady(s: State, e: Event, boot: seq<Phy>, p: nat)
    requires Inv(s.core, s.cli, boot) && p < NUM_PORTS && Steady(s.core, p)
    requires e != Wire(p, false)
    ensures Steady(Step(s, e).core, p)
    ensures Downs(Step(s, e).core.log, p) == Downs(s.core.log, p)
  {
    match e
    case Wire(phy, up) => WireStaysSteady(s.core, s.cli, phy, up, p);
    case Answer(raw) => AnswerStaysSteady(s.core, s.cli, raw, p);
    case Iterate(tick, env) => IterationStaysSteady(s.core, s.cli, boot, tick, env, p);
    case CliTry(tick, env) =>
      if s.core.locked {
        IterationStaysSteady(s.core, s.cli, boot, tick, env, p);
      }
    case _ =>
  }

  lemma WireStaysSteady(c: Core, cli: Cli, phy: nat, up: bool, p: nat)
    requires Exclusive(c, cli) && p < NUM_PORTS && Steady(c, p)
    requires phy != p || up
    ensures Steady(c.(phys := AfterWire(c.phys, phy, up)), p)
  {
  }

  /** The other direction: while the link of a port stays up, no "down" is logged for it. */
  lemma {:induction false} NoFalseLoss(s: State, boot: seq<Phy>, p: nat, es: seq<Event>)
    requires Inv(s.core, s.cli, boot) && p < NUM_PORTS && Steady(s.core, p)
    requires Wire(p, false) !in es
    ensures |Run(s, es).core.phys| == NUM_PORTS && Steady(Run(s, es).core, p)
    ensures Downs(Run(s, es).core.log, p) == Downs(s.core.log, p)
  {
    if es == [] {
    } else {
      var fs := es[..|es| - 1];
      NoFalseLoss(s, boot, p, fs);
      RunKeeps(s, fs, boot);
      StepStaysSteady(Run(s, fs), es[|es| - 1], boot, p);
    }
  }
}
