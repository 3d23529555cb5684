/** How long a poll round and the spin loop of the CLI can take. Every bound is in calls of the
  poll task's Iteration, with `d` the longest time an MDIO access stays busy. */
module PollProgress {
  import opened Mdio
  import opened PollModel
  import opened PollInvariant

  /** How many more states the poll task passes before it releases the mutex. */
  function StagesLeft(s: PollState): nat {
    if s.PollIdle? then 0 else 4 - Stage(s)
  }

  predicate EventPrompt(e: Event, d: nat) {
    match e
    case Iterate(_, env) => env.latency <= d
    case CliTry(_, env) => env.latency <= d
    case _ => true
  }

  /** No access started in this run is busy for more than d polls. */
  ghost predicate Prompt(es: seq<Event>, d: nat) {
    forall i :: 0 <= i < |es| ==> EventPrompt(es[i], d)
  }

  // ---------------------------------------------------------------- the spin loop

  /** One turn of the loop: the poll task moves one state on or waits one poll less, and it has
    not started a new round or taken the mutex again. */
  predicate SpinTurned(c: Core, n: Core) {
    && (if c.bus.busy > 0
        then n.pollState == c.pollState && n.bus.busy == c.bus.busy - 1
        else StagesLeft(n.pollState) + 1 == StagesLeft(c.pollState))
    && (n.locked <==> StagesLeft(n.pollState) > 0)
    && n.tally.ticks == c.tally.ticks && n.tally.locks == c.tally.locks
  }

  /** That is what every turn does, whether or not the timer fires. */
  lemma SpinTurn(c: Core, tick: bool, env: Env)
    requires Exclusive(c, CliSpinning) && c.locked
    ensures var n := Iteration(c, tick, env);
            && SpinTurned(c, n)
            && (n.pollState != c.pollState && !n.pollState.PollIdle? ==> n.bus.busy == env.latency)
  {
  }

  /** Turns the loop still needs before the mutex is free. */
  function SpinRank(c: Core, d: nat): nat {
    match c.pollState
    case PollIdle => 0
    case PollExtStat => 1 + c.bus.busy
    case PollCtrl => 2 + c.bus.busy + d
    case PollStatus => 3 + c.bus.busy + 2 * d
  }

  /** How often the loop has tried to take the mutex. */
  function Tries(es: seq<Event>): nat {
    if es == [] then 0
    else Tries(es[..|es| - 1]) + if es[|es| - 1].CliTry? then 1 else 0
  }

  /** How many of the steps made the poll task advance to another state. */
  function Advances(s: State, es: seq<Event>): nat
    requires |s.core.ports| == NUM_PORTS
  {
    if es == [] then 0
    else
      var fs := es[..|es| - 1];
      Advances(s, fs) + if Run(s, es).core.pollState != Run(s, fs).core.pollState then 1 else 0
  }

  /** The CLI is still in its loop, and everything so far counts against the rank. */
  ghost predicate StillSpinning(s: State, es: seq<Event>, d: nat)
    requires |s.core.ports| == NUM_PORTS
  {
    var t := Run(s, es);
    && t.cli.CliSpinning?
    && Tries(es) + SpinRank(t.core, d) <= SpinRank(s.core, d)
    && Advances(s, es) + StagesLeft(t.core.pollState) == StagesLeft(s.core.pollState)
    && t.core.tally.ticks == s.core.tally.ticks
    && t.core.tally.locks == s.core.tally.locks
  }

  /** After these events the CLI has just got the mutex, having spun until then. */
  ghost predicate GotLock(s: State, es: seq<Event>, d: nat)
    requires |s.core.ports| == NUM_PORTS
  {
    && es != []
    && StillSpinning(s, es[..|es| - 1], d)
    && Run(s, es).cli.CliHolding? && Run(s, es).core.locked
    && Run(s, es).core.pollState.PollIdle?
  }

  /** Nothing but the loop itself moves the protocol while the CLI spins. */
  lemma OnlyTheLoopMoves(s: State, e: Event)
    requires |s.core.ports| == NUM_PORTS && s.cli.CliSpinning? && !e.CliTry?
    ensures var t := Step(s, e);
            && t.cli.CliSpinning?
            && t.core.pollState == s.core.pollState && t.core.bus.busy == s.core.bus.busy
            && t.core.tally == s.core.tally
  {
  }

  lemma TryStep(s: State, tick: bool, env: Env, d: nat)
    requires Exclusive(s.core, s.cli) && s.cli.CliSpinning? && env.latency <= d
    ensures var t := Step(s, CliTry(tick, env));
            if s.core.locked
            then && t.cli.CliSpinning?
                 && SpinRank(t.core, d) < SpinRank(s.core, d)
                 && StagesLeft(t.core.pollState) + (if t.core.pollState != s.core.pollState then 1 else 0)
                    == StagesLeft(s.core.pollState)
                 && t.core.tally.ticks == s.core.tally.ticks && t.core.tally.locks == s.core.tally.locks
            else t.cli.CliHolding? && t.core.locked && t.core.pollState.PollIdle?
  {
    if s.core.locked {
      SpinTurn(s.core, tick, env);
    }
  }

  lemma SpinStep(s: State, boot: seq<Phy>, es: seq<Event>, d: nat)
    requires Inv(s.core, s.cli, boot)
    requires es != [] && StillSpinning(s, es[..|es| - 1], d) && EventPrompt(es[|es| - 1], d)
    ensures StillSpinning(s, es, d) || GotLock(s, es, d)
  {
    var fs, e := es[..|es| - 1], es[|es| - 1];
    RunKeeps(s, fs, boot);
    if e.CliTry? {
      TryStep(Run(s, fs), e.tick, e.env, d);
    } else {
      OnlyTheLoopMoves(Run(s, fs), e);
    }
  }

  /** Within any run either the loop has ended or it has used up part of its rank. */
  lemma {:induction false} SpinProgress(s: State, boot: seq<Phy>, es: seq<Event>, d: nat)
    requires Inv(s.core, s.cli, boot) && s.cli.CliSpinning? && Prompt(es, d)
    ensures StillSpinning(s, es, d) || exists k :: 0 < k <= |es| && GotLock(s, es[..k], d)
  {
    if es == [] {
    } else {
      var fs := es[..|es| - 1];
      assert Prompt(fs, d);
      SpinProgress(s, boot, fs, d);
      if StillSpinning(s, fs, d) {
        SpinStep(s, boot, es, d);
        assert es[..|es|] == es;
      } else {
        var k :| 0 < k <= |fs| && GotLock(s, fs[..k], d);
        assert fs[..k] == es[..k];
      }
    }
  }

  /** The spin loop ends from every reachable state: the CLI has the mutex at the latest when it
    has tried once more often than the rank says. Until then no round restarts, the poll task
    does not take the mutex again, and it changes state at most three times. */
  lemma SpinTerminates(s: State, boot: seq<Phy>, es: seq<Event>, d: nat) returns (k: nat)
    requires Reachable(s, boot) && s.cli.CliSpinning? && Prompt(es, d)
    requires Tries(es) > SpinRank(s.core, d)
    ensures |s.core.ports| == NUM_PORTS
    ensures 0 < k <= |es|
    ensures Run(s, es[..k]).cli.CliHolding? && Run(s, es[..k]).core.pollState.PollIdle?
    ensures Run(s, es[..k - 1]).core.tally.ticks == s.core.tally.ticks
    ensures Run(s, es[..k - 1]).core.tally.locks == s.core.tally.locks
    ensures Advances(s, es[..k - 1]) <= 3
    ensures Tries(es[..k - 1]) <= SpinRank(s.core, d)
    ensures s.core.bus.busy <= d ==> SpinRank(s.core, d) <= 3 + 3 * d
  {
    ReachableInv(s, boot);
    k := SpinEnds(s, boot, es, d);
    LockGot(s, es, k, d);
  }

  lemma SpinEnds(s: State, boot: seq<Phy>, es: seq<Event>, d: nat) returns (k: nat)
    requires Inv(s.core, s.cli, boot) && s.cli.CliSpinning? && Prompt(es, d)
    requires Tries(es) > SpinRank(s.core, d)
    ensures 0 < k <= |es| && GotLock(s, es[..k], d)
  {
    SpinProgress(s, boot, es, d);
    k :| 0 < k <= |es| && GotLock(s, es[..k], d);
  }

  lemma LockGot(s: State, es: seq<Event>, k: nat, d: nat)
    requires |s.core.ports| == NUM_PORTS && 0 < k <= |es| && GotLock(s, es[..k], d)
    ensures Run(s, es[..k]).cli.CliHolding? && Run(s, es[..k]).core.pollState.PollIdle?
    ensures StillSpinning(s, es[..k - 1], d)
  {
    assert es[..k][..k - 1] == es[..k - 1];
  }

  // ---------------------------------------------------------------- a poll round

  /** Iterations the poll of the current PHY still needs. */
  function PollRank(c: Core, d: nat): nat {
    if c.pollState.PollIdle? then 4 + 3 * d else SpinRank(c, d)
  }

  /** A number of polls of so many iterations each. */
  function Turns(polls: nat, turn: nat): nat {
    if polls == 0 then 0 else Turns(polls - 1, turn) + turn
  }

  lemma {:induction false} TurnsIsProduct(polls: nat, turn: nat)
    ensures Turns(polls, turn) == polls * turn
  {
    if polls == 0 {
    } else {
      TurnsIsProduct(polls - 1, turn);
      assert polls * turn == (polls - 1) * turn + turn;
    }
  }

  /** Iterations the round still needs. */
  function RoundRank(c: Core, d: nat): nat {
    if c.currentPhy >= NUM_PORTS then 0
    else Turns(NUM_PORTS - 1 - c.currentPhy, 4 + 3 * d) + PollRank(c, d)
  }

  lemma PollTurn(c: Core, cli: Cli, env: Env, d: nat)
    requires Exclusive(c, cli) && !cli.CliHolding?
    requires c.currentPhy < NUM_PORTS && env.latency <= d
    ensures PollTurned(c, PollPhys(c, env), d)
  {
    if !c.pollState.PollIdle? && c.bus.busy == 0 {
      var r := AnswerPending(c, env.raw);
      match c.pollState
      case PollStatus => assert PollTurned(c, TakeStatus(r, env.latency), d);
      case PollCtrl => assert PollTurned(c, TakeCtrl(r, env.latency), d);
      case PollExtStat => assert PollTurned(c, TakeExtStat(r), d);
    }
  }

  /** The poll of a PHY has come nearer to its end, or has ended. */
  predicate PollTurned(c: Core, n: Core, d: nat) {
    if n.currentPhy == c.currentPhy then PollRank(n, d) < PollRank(c, d)
    else n.currentPhy == c.currentPhy + 1 && n.pollState.PollIdle? && PollRank(c, d) > 0
  }

  lemma RoundTurn(c: Core, cli: Cli, tick: bool, env: Env, d: nat)
    requires Exclusive(c, cli) && !cli.CliHolding?
    requires c.currentPhy < NUM_PORTS && env.latency <= d
    ensures var n := Iteration(c, tick, env);
            && RoundRank(n, d) < RoundRank(c, d)
            && n.tally.iterations == c.tally.iterations + 1
            && n.tally.ticks == c.tally.ticks
  {
    PollTurn(Entered(c, tick), cli, env, d);
  }

  /** Either the round that s is in has been completed, or it is still the same round and every
    iteration since s counts against its rank. */
  ghost predicate InRound(s: Core, t: Core, d: nat) {
    || t.tally.polls >= s.tally.polls + NUM_PORTS - s.currentPhy
    || (&& t.currentPhy < NUM_PORTS
        && t.tally.ticks == s.tally.ticks
        && s.tally.iterations <= t.tally.iterations
        && t.tally.iterations - s.tally.iterations + RoundRank(t, d) <= RoundRank(s, d))
  }

  lemma RoundIteration(s: Core, c: Core, cli: Cli, tick: bool, env: Env, d: nat)
    requires Exclusive(c, cli) && !cli.CliHolding? && env.latency <= d
    requires Balanced(s) && Balanced(c) && Balanced(Iteration(c, tick, env))
    requires InRound(s, c, d)
    ensures InRound(s, Iteration(c, tick, env), d)
  {
    if c.tally.polls < s.tally.polls + NUM_PORTS - s.currentPhy {
      RoundTurn(c, cli, tick, env, d);
    }
  }

  lemma RoundStep(s: Core, t: State, e: Event, boot: seq<Phy>, d: nat)
    requires Balanced(s) && Inv(t.core, t.cli, boot)
    requires InRound(s, t.core, d) && EventPrompt(e, d)
    ensures InRound(s, Step(t, e).core, d)
  {
    if (e.Iterate? && t.scheduled && t.cli.CliIdle?) || (e.CliTry? && t.cli.CliSpinning? && t.core.locked) {
      IterationKeeps(t.core, t.cli, boot, e.tick, e.env);
      RoundIteration(s, t.core, t.cli, e.tick, e.env, d);
    } else {
      NoIteration(t, e, d);
    }
  }

  lemma NoIteration(t: State, e: Event, d: nat)
    requires Exclusive(t.core, t.cli)
    requires !(e.Iterate? && t.scheduled && t.cli.CliIdle?)
    requires !(e.CliTry? && t.cli.CliSpinning? && t.core.locked)
    ensures var u := Step(t, e).core;
            u.tally == t.core.tally && u.currentPhy == t.core.currentPhy && RoundRank(u, d) == RoundRank(t.core, d)
  {
  }

  lemma {:induction false} RoundProgress(s: State, boot: seq<Phy>, es: seq<Event>, d: nat)
    requires Inv(s.core, s.cli, boot) && s.core.currentPhy < NUM_PORTS && Prompt(es, d)
    ensures InRound(s.core, Run(s, es).core, d)
  {
    if es == [] {
    } else {
      var fs := es[..|es| - 1];
      assert Prompt(fs, d);
      RoundProgress(s, boot, fs, d);
      RunKeeps(s, fs, boot);
      RoundStep(s.core, Run(s, fs), es[|es| - 1], boot, d);
    }
  }

  /** From any state within a round it is finished after as many iterations as the rank of the
    state says, no matter who calls them and what else happens. */
  lemma RoundFinishes(s: State, boot: seq<Phy>, es: seq<Event>, d: nat)
    requires Inv(s.core, s.cli, boot) && s.core.currentPhy < NUM_PORTS && Prompt(es, d)
    requires Run(s, es).core.tally.iterations >= s.core.tally.iterations + RoundRank(s.core, d)
    ensures Run(s, es).core.tally.polls >= s.core.tally.polls + NUM_PORTS - s.core.currentPhy
  {
    RoundProgress(s, boot, es, d);
    assert InRound(s.core, Run(s, es).core, d);
  }

  /** From its start a round takes at most 24 * (4 + 3 * d) iterations. */
  lemma RoundBound(s: State, boot: seq<Phy>, es: seq<Event>, d: nat)
    requires Reachable(s, boot) && Prompt(es, d)
    requires s.core.currentPhy == 0 && s.core.pollState.PollIdle? && |s.core.ports| == NUM_PORTS
    requires Run(s, es).core.tally.iterations >= s.core.tally.iterations + 24 * (4 + 3 * d)
    ensures Run(s, es).core.tally.polls >= s.core.tally.polls + 24
  {
    ReachableInv(s, boot);
    TurnsIsProduct(NUM_PORTS - 1, 4 + 3 * d);
    RoundFinishes(s, boot, es, d);
  }
}
