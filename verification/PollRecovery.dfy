/** The counterpart of PollLatch: a link that has come back and stays up is logged. The latch costs
  one poll, because the first read after a loss still reports it. */
module PollRecovery {
  import opened Mdio
  import opened PollModel
  import opened PollRecord
  import opened PollInvariant
  import opened PollLatch

  /** A status word of the port waits in the data register. */
  predicate Waiting(c: Core, p: nat) {
    c.currentPhy == p && c.pollState.PollStatus? && c.bus.answered
  }

  /** How far the recovery of a link has come that was up when `base` polls had read the status
    register: one more read releases the latch, the next one finds the link up. */
  ghost predicate Recovering(c: Core, p: nat, base: nat)
    requires |c.ports| == |c.phys| == NUM_PORTS && p < NUM_PORTS
  {
    && c.phys[p].link
    && (PollsSampled(c, p) > base ==> !c.phys[p].latchedLow)
    && (PollsSampled(c, p) > base + 1 ==> if Waiting(c, p) then LinkBit(c.bus.data) else c.ports[p].linkUp)
    && (|Polls(c.record, p)| > base + 1 ==> c.ports[p].linkUp && Latest(Polls(c.record, p)).linkUp)
  }

  lemma EnteredRecovers(c: Core, cli: Cli, tick: bool, p: nat, base: nat)
    requires Exclusive(c, cli) && p < NUM_PORTS && Recovering(c, p, base)
    ensures Recovering(Entered(c, tick), p, base)
  {
  }

  lemma BeginRecovers(c: Core, cli: Cli, latency: nat, p: nat, base: nat)
    requires Exclusive(c, cli) && p < NUM_PORTS && Recovering(c, p, base)
    requires c.pollState.PollIdle?
    ensures Recovering(Begin(c, latency), p, base)
  {
  }

  lemma WaitRecovers(c: Core, cli: Cli, busy: nat, p: nat, base: nat)
    requires Exclusive(c, cli) && p < NUM_PORTS && Recovering(c, p, base)
    ensures Recovering(c.(bus := c.bus.(busy := busy)), p, base)
  {
  }

  lemma AnswerRecovers(c: Core, cli: Cli, raw: bv32, p: nat, base: nat)
    requires Exclusive(c, cli) && OwnsBus(c) && p < NUM_PORTS && Recovering(c, p, base)
    ensures Recovering(AnswerPending(c, raw), p, base)
  {
  }

  lemma TakeStatusRecovers(c: Core, cli: Cli, latency: nat, p: nat, base: nat)
    requires Exclusive(c, cli) && p < NUM_PORTS && Recovering(c, p, base)
    requires c.pollState.PollStatus? && c.bus.answered
    ensures Recovering(TakeStatus(c, latency), p, base)
  {
  }

  lemma TakeCtrlRecovers(c: Core, cli: Cli, latency: nat, p: nat, base: nat)
    requires Exclusive(c, cli) && p < NUM_PORTS && Recovering(c, p, base)
    requires c.pollState.PollCtrl?
    ensures Recovering(TakeCtrl(c, latency), p, base)
  {
  }

  lemma TakeExtStatRecovers(c: Core, cli: Cli, p: nat, base: nat)
    requires Exclusive(c, cli) && RecordTraced(c) && p < NUM_PORTS && Recovering(c, p, base)
    requires c.pollState.PollExtStat?
    ensures Recovering(TakeExtStat(c), p, base)
  {
    ReleaseCompletesPoll(c, p);
  }

  lemma PollRecovers(c: Core, cli: Cli, boot: seq<Phy>, env: Env, p: nat, base: nat)
    requires Inv(c, cli, boot) && p < NUM_PORTS && Recovering(c, p, base)
    ensures Recovering(PollPhys(c, env), p, base)
  {
    if c.currentPhy < NUM_PORTS {
      if c.pollState.PollIdle? {
        BeginRecovers(c, cli, env.latency, p, base);
      } else if c.bus.busy > 0 {
        WaitRecovers(c, cli, c.bus.busy - 1, p, base);
      } else {
        AnswerKeeps(c, cli, boot, env.raw);
        AnswerRecovers(c, cli, env.raw, p, base);
        var r := AnswerPending(c, env.raw);
        match c.pollState
        case PollStatus => TakeStatusRecovers(r, cli, env.latency, p, base);
        case PollCtrl => TakeCtrlRecovers(r, cli, env.latency, p, base);
        case PollExtStat => TakeExtStatRecovers(r, cli, p, base);
      }
    }
  }

  lemma IterationRecovers(c: Core, cli: Cli, boot: seq<Phy>, tick: bool, env: Env, p: nat, base: nat)
    requires Inv(c, cli, boot) && p < NUM_PORTS && Recovering(c, p, base)
    ensures Recovering(Iteration(c, tick, env), p, base)
  {
    EnteredKeeps(c, cli, boot, tick);
    EnteredRecovers(c, cli, tick, p, base);
    PollRecovers(Entered(c, tick), cli, boot, env, p, base);
  }

  lemma WireRecovers(c: Core, cli: Cli, phy: nat, up: bool, p: nat, base: nat)
    requires Exclusive(c, cli) && p < NUM_PORTS && Recovering(c, p, base)
    requires phy != p || up
    ensures Recovering(c.(phys := AfterWire(c.phys, phy, up)), p, base)
  {
  }

  lemma StepRecovers(s: State, e: Event, boot: seq<Phy>, p: nat, base: nat)
    requires Inv(s.core, s.cli, boot) && p < NUM_PORTS && Recovering(s.core, p, base)
    requires e != Wire(p, false)
    ensures Recovering(Step(s, e).core, p, base)
  {
    match e
    case Wire(phy, up) => WireRecovers(s.core, s.cli, phy, up, p, base);
    case Answer(raw) => AnswerRecovers(s.core, s.cli, raw, p, base);
    case Iterate(tick, env) => IterationRecovers(s.core, s.cli, boot, tick, env, p, base);
    case CliTry(tick, env) =>
      if s.core.locked {
        IterationRecovers(s.core, s.cli, boot, tick, env, p, base);
      }
    case _ =>
  }

  lemma {:induction false} RunRecovers(s: State, es: seq<Event>, boot: seq<Phy>, p: nat, base: nat)
    requires Inv(s.core, s.cli, boot) && p < NUM_PORTS && Recovering(s.core, p, base)
    requires Wire(p, false) !in es
    ensures |Run(s, es).core.phys| == NUM_PORTS
    ensures Recovering(Run(s, es).core, p, base)
  {
    if es == [] {
    } else {
      var fs := es[..|es| - 1];
      RunRecovers(s, fs, boot, p, base);
      RunKeeps(s, fs, boot);
      StepRecovers(Run(s, fs), es[|es| - 1], boot, p, base);
    }
  }

  /** If the link of a port is up and stays up, then once two polls of the port that read its status
    register afterwards are complete, the table says up and the last message about it is "up". */
  lemma RecoveryLogged(s: State, t: State, es: seq<Event>, boot: seq<Phy>, p: nat)
    requires Reachable(s, boot) && p < NUM_PORTS
    requires |s.core.ports| == |s.core.phys| == NUM_PORTS && s.core.phys[p].link
    requires Wire(p, false) !in es && t == Run(s, es)
    requires |Polls(t.core.record, p)| >= PollsSampled(s.core, p) + 2
    ensures t.core.ports[p].linkUp
    ensures var ms := Messages(t.core.log, p); ms != [] && ms[|ms| - 1].LinkUp?
  {
    ReachableInv(s, boot);
    RunRecovers(s, es, boot, p, PollsSampled(s.core, p));
    RunKeeps(s, es, boot);
    RecoveredInLog(t.core, boot, p, PollsSampled(s.core, p));
  }

  lemma RecoveredInLog(c: Core, boot: seq<Phy>, p: nat, base: nat)
    requires PortsTraced(c, boot) && p < NUM_PORTS && Recovering(c, p, base)
    requires |Polls(c.record, p)| > base + 1
    ensures c.ports[p].linkUp
    ensures var ms := Messages(c.log, p); ms != [] && ms[|ms| - 1].LinkUp?
  {
    assert PortTraced(c, boot, p);
    LastMessageIsUp(p, Polls(c.record, p), Messages(c.log, p));
  }
}
