/** Polling never stops: every tick that finds a finished round starts the next one, so that with
  ticks and enough iterations any number of rounds completes. */
module PollLiveness {
  import opened Mdio
  import opened PollModel
  import opened PollRecord
  import opened PollInvariant
  import opened PollProgress
  import PollLatch

  /** A tick after the last PHY: the main loop's next call of the poll task accepts it, takes the
    mutex and asks for the status register of PHY 0. */
  lemma TickStartsRound(s: State, boot: seq<Phy>, env: Env)
    requires Reachable(s, boot)
    requires s.scheduled && s.cli.CliIdle? && s.core.currentPhy == 24
    ensures |s.core.ports| == NUM_PORTS
    ensures var t := Step(s, Iterate(true, env)).core;
            && t.currentPhy == 0 && t.pollState.PollStatus? && t.locked
            && t.bus.cmd == Command(1, 0) && t.bus.busy == env.latency && !t.bus.answered
            && t.tally.ticks == s.core.tally.ticks + 1
            && t.tally.locks == s.core.tally.locks + 1
  {
    ReachableInv(s, boot);
  }

  /** Before that, ticks come to nothing: the poll task does what it does without one. */
  lemma EarlyTickIsIgnored(s: State, boot: seq<Phy>, env: Env)
    requires Reachable(s, boot) && s.core.currentPhy < 24
    ensures |s.core.ports| == NUM_PORTS
    ensures Step(s, Iterate(true, env)) == Step(s, Iterate(false, env))
  {
    ReachableInv(s, boot);
  }

  // ---------------------------------------------------------------- what holds along a run

  /** No access has been started that is busy for more than d polls. */
  predicate Quick(c: Core, d: nat) {
    c.bus.busy <= d
  }

  lemma IterationStaysQuick(c: Core, tick: bool, env: Env, d: nat)
    requires |c.ports| == NUM_PORTS && Quick(c, d) && env.latency <= d
    ensures Quick(Iteration(c, tick, env), d)
  {
  }

  lemma StepStaysQuick(s: State, e: Event, d: nat)
    requires |s.core.ports| == NUM_PORTS && Quick(s.core, d) && EventPrompt(e, d)
    ensures Quick(Step(s, e).core, d)
  {
    if e.Iterate? || e.CliTry? {
      IterationStaysQuick(s.core, e.tick, e.env, d);
    }
  }

  lemma StepNeverLosesPolls(s: State, e: Event)
    requires |s.core.ports| == NUM_PORTS
    ensures Step(s, e).core.tally.polls >= s.core.tally.polls
  {
  }

  lemma {:induction false} RunStaysQuick(s: State, es: seq<Event>, d: nat)
    requires |s.core.ports| == NUM_PORTS && Quick(s.core, d) && Prompt(es, d)
    ensures Quick(Run(s, es).core, d)
    ensures Run(s, es).core.tally.polls >= s.core.tally.polls
  {
    if es == [] {
    } else {
      var fs, e := es[..|es| - 1], es[|es| - 1];
      assert Prompt(fs, d);
      RunStaysQuick(s, fs, d);
      StepStaysQuick(Run(s, fs), e, d);
      StepNeverLosesPolls(Run(s, fs), e);
    }
  }

  /** Iterations that are enough for any round. */
  function RoundTime(d: nat): nat {
    Turns(NUM_PORTS, 4 + 3 * d)
  }

  lemma RoundTimeIs(d: nat)
    ensures RoundTime(d) == 24 * (4 + 3 * d)
  {
    TurnsIsProduct(NUM_PORTS, 4 + 3 * d);
  }

  lemma {:induction false} TurnsMonotone(a: nat, b: nat, turn: nat)
    requires a <= b
    ensures Turns(a, turn) <= Turns(b, turn)
  {
    if a == b {
    } else {
      TurnsMonotone(a, b - 1, turn);
    }
  }

  lemma RankWithinRoundTime(c: Core, d: nat)
    requires Quick(c, d)
    ensures RoundRank(c, d) <= RoundTime(d)
  {
    if c.currentPhy < NUM_PORTS {
      TurnsMonotone(NUM_PORTS - 1 - c.currentPhy, NUM_PORTS - 1, 4 + 3 * d);
    }
  }

  /** The round that is under way is complete after a round time. */
  lemma RoundCompletes(s: State, boot: seq<Phy>, es: seq<Event>, d: nat)
    requires Inv(s.core, s.cli, boot) && Quick(s.core, d) && Prompt(es, d)
    requires Run(s, es).core.tally.iterations >= s.core.tally.iterations + RoundTime(d)
    ensures Run(s, es).core.tally.polls >= NUM_PORTS * (s.core.tally.ticks + 1)
  {
    if s.core.currentPhy < NUM_PORTS {
      RankWithinRoundTime(s.core, d);
      RoundFinishes(s, boot, es, d);
    } else {
      RunStaysQuick(s, es, d);
    }
  }

  // ---------------------------------------------------------------- any number of rounds

  /** A period: the main loop calls the poll task with a tick, while no CLI command is running, and
    then at least a round time of iterations follows, called by anyone. */
  ghost predicate Period(s: State, es: seq<Event>, d: nat)
    requires |s.core.ports| == NUM_PORTS
  {
    && es != [] && es[0].Iterate? && es[0].tick
    && s.scheduled && s.cli.CliIdle?
    && Prompt(es, d)
    && Run(s, es).core.tally.iterations > s.core.tally.iterations + RoundTime(d)
  }

  function RunAll(s: State, periods: seq<seq<Event>>): (t: State)
    requires |s.core.ports| == NUM_PORTS
    ensures |t.core.ports| == NUM_PORTS && t.scheduled == s.scheduled
  {
    if periods == [] then s
    else Run(RunAll(s, periods[..|periods| - 1]), periods[|periods| - 1])
  }

  /** Periods one after the other. */
  ghost predicate Periods(s: State, periods: seq<seq<Event>>, d: nat)
    requires |s.core.ports| == NUM_PORTS
  {
    periods != [] ==>
      var before := periods[..|periods| - 1];
      Periods(s, before, d) && Period(RunAll(s, before), periods[|periods| - 1], d)
  }

  /** The first event of a period leaves no finished round behind. */
  lemma TickStep(s: State, boot: seq<Phy>, env: Env, d: nat, rounds: nat)
    requires Inv(s.core, s.cli, boot) && s.scheduled && s.cli.CliIdle?
    requires s.core.tally.polls >= NUM_PORTS * rounds
    ensures Step(s, Iterate(true, env)).core.tally.ticks >= rounds
    ensures Step(s, Iterate(true, env)).core.tally.iterations == s.core.tally.iterations + 1
  {
  }

  lemma PeriodCompletesRound(s: State, boot: seq<Phy>, es: seq<Event>, d: nat, rounds: nat)
    requires Inv(s.core, s.cli, boot) && Quick(s.core, d) && Period(s, es, d)
    requires s.core.tally.polls >= NUM_PORTS * rounds
    ensures Run(s, es).core.tally.polls >= NUM_PORTS * (rounds + 1)
  {
    var first, rest := es[..1], es[1..];
    assert es == first + rest && first == [] + [es[0]];
    assert EventPrompt(es[0], d);
    assert forall i :: 0 <= i < |rest| ==> EventPrompt(rest[i], d) by {
      assert forall i :: 0 <= i < |rest| ==> rest[i] == es[i + 1];
    }
    RunSnoc(s, [], es[0]);
    RunConcat(s, first, rest);
    StepKeeps(s, es[0], boot);
    StepStaysQuick(s, es[0], d);
    TickStep(s, boot, es[0].env, d, rounds);
    RoundCompletes(Step(s, es[0]), boot, rest, d);
  }

  lemma {:induction false} PeriodsCompleteRounds(s: State, boot: seq<Phy>, periods: seq<seq<Event>>, d: nat)
    requires Inv(s.core, s.cli, boot) && Quick(s.core, d) && Periods(s, periods, d)
    ensures var t := RunAll(s, periods);
            && Inv(t.core, t.cli, boot) && Quick(t.core, d) && LeadsTo(s, t)
            && t.core.tally.polls >= NUM_PORTS * (s.core.tally.ticks + |periods|)
  {
    if periods == [] {
      assert s == Run(s, []);
    } else {
      var n := |periods| - 1;
      PeriodsCompleteRounds(s, boot, periods[..n], d);
      NextPeriod(s, RunAll(s, periods[..n]), boot, periods[n], d, s.core.tally.ticks + n);
    }
  }

  lemma NextPeriod(s: State, mid: State, boot: seq<Phy>, es: seq<Event>, d: nat, rounds: nat)
    requires |s.core.ports| == NUM_PORTS && Inv(mid.core, mid.cli, boot)
    requires Quick(mid.core, d) && LeadsTo(s, mid) && Period(mid, es, d)
    requires mid.core.tally.polls >= NUM_PORTS * rounds
    ensures var t := Run(mid, es);
            && Inv(t.core, t.cli, boot) && Quick(t.core, d) && LeadsTo(s, t)
            && t.core.tally.polls >= NUM_PORTS * (rounds + 1)
  {
    PeriodCompletesRound(mid, boot, es, d, rounds);
    RunKeeps(mid, es, boot);
    RunStaysQuick(mid, es, d);
    LeadsToTransitive(s, mid, es);
  }

  /** Polling goes on for ever: n periods, from any reachable state, complete at least n - 1 whole
    rounds more; three of them complete 48 polls. */
  lemma PollingGoesOn(s: State, boot: seq<Phy>, periods: seq<seq<Event>>, d: nat)
    requires Reachable(s, boot) && Quick(s.core, d) && periods != []
    requires |s.core.ports| == NUM_PORTS && Periods(s, periods, d)
    ensures RunAll(s, periods).core.tally.polls >= s.core.tally.polls + 24 * (|periods| - 1)
  {
    ReachableInv(s, boot);
    PeriodsCompleteRounds(s, boot, periods, d);
  }

  /** So a loss of a link last seen up is in the log at the latest after three periods. */
  lemma LossLoggedWithinThreePeriods(s: State, lost: State, periods: seq<seq<Event>>, boot: seq<Phy>, p: nat, d: nat)
    requires Reachable(s, boot) && Quick(s.core, d) && p < NUM_PORTS
    requires |s.core.ports| == NUM_PORTS && PollLatch.LastSeenUp(s.core, p)
    requires lost == Step(s, Wire(p, false)) && |periods| == 3 && Periods(lost, periods, d)
    ensures Downs(RunAll(lost, periods).core.log, p) > Downs(s.core.log, p)
  {
    ReachableInv(s, boot);
    StepKeeps(s, Wire(p, false), boot);
    PeriodsCompleteRounds(lost, boot, periods, d);
    PollLatch.LossLoggedWithinTwoRounds(s, lost, RunAll(lost, periods), boot, p);
  }
}
