/** What holds in every state of every run: any ticks, any bus delays, any CLI commands. */
module PollSafety {
  import opened Histories
  import opened Mdio
  import opened PollModel
  import opened PollRecord
  import opened PollInvariant

  /** The messages about a port are exactly the changes of its sampled link bits, for a link that
    starts down, except for one message that is still to come while the port is between its
    status read and the end of its poll. */
  lemma LogIsLinkChanges(s: State, boot: seq<Phy>, p: nat)
    requires Reachable(s, boot) && p < NUM_PORTS
    ensures |s.core.ports| == NUM_PORTS
    ensures var c := s.core;
            var pending := if Torn(c, p) && c.linkStateChanged then [c.ports[p].linkUp] else [];
            Ups(Messages(c.log, p)) + pending == Changes(LinkBits(c.record, p))
    ensures Messages(s.core.log, p) == EdgeLog(p, Polls(s.core.record, p))
    ensures Alternates(Messages(s.core.log, p))
  {
    ReachableInv(s, boot);
    var c := s.core;
    assert PortTraced(c, boot, p);
    var polls := Polls(c.record, p);
    EdgeLogAlternates(p, polls);
    if Torn(c, p) {
      PendingChange(p, polls, c.ports[p].linkUp);
    } else {
      EdgeLogIsChanges(p, polls);
      assert LinkBits(c.record, p) == Links(polls);
    }
  }

  /** Message by message: the k-th message of a port reports the k-th change of its link among its
    completed polls, "up" with the speed that poll found, or "down". */
  lemma MessagesReportChanges(s: State, boot: seq<Phy>, p: nat)
    requires Reachable(s, boot) && p < NUM_PORTS
    ensures var polls := Polls(s.core.record, p);
            && Reports(Messages(s.core.log, p), p, polls, ChangePoints(polls))
            && forall i :: i in ChangePoints(polls) <==> ChangesAt(polls, i)
  {
    ReachableInv(s, boot);
    assert PortTraced(s.core, boot, p);
    EdgeLogReports(p, Polls(s.core.record, p));
    ChangePointsAreChanges(Polls(s.core.record, p));
  }

  /** The whole log, in order, follows from the completed polls: nothing is missing, repeated or
    out of order, across ports. */
  lemma LogIsCompleteAndOrdered(s: State, boot: seq<Phy>)
    requires Reachable(s, boot)
    ensures s.core.log == ExpectedLog(s.core.record)
  {
    ReachableInv(s, boot);
  }

  /** At every task boundary the mutex is held exactly when the poll task is inside a poll or the
    CLI has it, never by both; past the last PHY the task is idle. A tick is accepted only
    there, so no tick abandons a held lock. */
  lemma MutexFollowsState(s: State, boot: seq<Phy>)
    requires Reachable(s, boot)
    ensures s.core.locked <==> (!s.core.pollState.PollIdle? || s.cli.CliHolding?)
    ensures s.core.pollState.PollIdle? || !s.cli.CliHolding?
    ensures s.core.currentPhy <= NUM_PORTS
    ensures s.core.currentPhy == NUM_PORTS ==> s.core.pollState.PollIdle?
    ensures s.core.locked && !s.cli.CliHolding? ==> OnTimer(s.core) == s.core
  {
    ReachableInv(s, boot);
  }

  /** Conservation of polls, reads and lock operations. */
  lemma CountsAddUp(s: State, boot: seq<Phy>)
    requires Reachable(s, boot)
    ensures var t := s.core.tally;
            && t.polls == NUM_PORTS * t.ticks + s.core.currentPhy
            && t.issues == 3 * t.polls + Stage(s.core.pollState)
            && t.locks == t.unlocks + (if s.core.pollState.PollIdle? then 0 else 1)
            && |PollOrder(s.core.record)| == t.polls
    ensures forall p :: 0 <= p < NUM_PORTS ==>
              |Polls(s.core.record, p)| == s.core.tally.ticks + (if p < s.core.currentPhy then 1 else 0)
  {
    ReachableInv(s, boot);
    forall p | 0 <= p < NUM_PORTS
      ensures |Polls(s.core.record, p)| == s.core.tally.ticks + (if p < s.core.currentPhy then 1 else 0)
    {
      assert PortTraced(s.core, boot, p);
    }
  }

  /** Every word the poll task decodes is the reply to the read it issued itself for that
    register of that port, with no other use of the bus in between. */
  lemma DecodedWordsAreOwnReplies(s: State, boot: seq<Phy>)
    requires Reachable(s, boot)
    ensures Matched(s.core.wire)
    ensures DecodedReadings(s.core.record) == ConsumedReadings(s.core.wire)
    ensures s.core.pollState.PollStatus? ==> s.core.bus.cmd == Command(1, s.core.currentPhy)
    ensures s.core.pollState.PollCtrl? ==> s.core.bus.cmd == Command(0, s.core.currentPhy)
    ensures s.core.pollState.PollExtStat? ==>
              s.core.bus.cmd == Command(REG_VSC8512_AUX_CTRL_STAT, s.core.currentPhy)
  {
    ReachableInv(s, boot);
  }

  /** The rows a reader sees without taking the lock. Every entry is the decode of one lock hold,
    except the link bit of the one port that is between its two updates. */
  lemma TableTornInOnePort(s: State, boot: seq<Phy>, p: nat)
    requires Reachable(s, boot) && p < NUM_PORTS
    ensures |s.core.ports| == NUM_PORTS
    ensures var e := Latest(Polls(s.core.record, p));
            if s.core.currentPhy == p && s.core.pollState in {PollCtrl, PollExtStat}
            then s.core.ports[p] == e.(linkUp := s.core.ports[p].linkUp)
            else s.core.ports[p] == e
  {
    ReachableInv(s, boot);
    assert PortTraced(s.core, boot, p);
  }

  /** Bit by bit: at any moment a row shows link, duplex and speed from the last words decoded for
    its port; before the first, a link that is down at full duplex and 10 Mbit/s. */
  lemma TableShowsLastWords(s: State, boot: seq<Phy>, p: nat)
    requires Reachable(s, boot) && p < NUM_PORTS
    ensures |s.core.ports| == NUM_PORTS
    ensures ShowsBits(s.core.ports[p], LastStatus(s.core.record, p), LastExtStat(s.core.record, p))
  {
    ReachableInv(s, boot);
    assert RowTraced(s.core, p);
    RowShowsBits(s.core, p);
  }

  lemma RowShowsBits(c: Core, p: nat)
    requires p < |c.ports| && RowTraced(c, p)
    ensures ShowsBits(c.ports[p], LastStatus(c.record, p), LastExtStat(c.record, p))
  {
    var status, extstat := LastStatus(c.record, p), LastExtStat(c.record, p);
    if status.Word? {
      StatusBits(status.bits);
    }
    if extstat.Word? {
      ExtStatBits(extstat.bits);
    }
  }

  /** The LED mode register of a PHY is what it was at boot, or the mode for link and speed of
    the paired port at that port's last link change. */
  lemma LedsFollowPairedPort(s: State, boot: seq<Phy>, q: nat)
    requires Reachable(s, boot) && q < NUM_PORTS
    ensures |s.core.phys| == NUM_PORTS
    ensures s.core.phys[q].led == LedAfter(boot[q].led, Polls(s.core.record, Paired(q)))
  {
    ReachableInv(s, boot);
    PairingIsAnInvolution(q, q);
    assert PortTraced(s.core, boot, Paired(q));
  }

  /** Polls complete in the order 0 to 23, over and over, whatever ticks arrive. */
  lemma PollsAreRoundRobin(s: State, boot: seq<Phy>, i: nat)
    requires Reachable(s, boot) && i < |PollOrder(s.core.record)|
    ensures PollOrder(s.core.record)[i] == i % NUM_PORTS
  {
    ReachableInv(s, boot);
  }

  ghost predicate RoundRobin(order: seq<nat>) {
    forall i :: 0 <= i < |order| ==> order[i] == i % NUM_PORTS
  }

  lemma RepeatsAfterOneRound(order: seq<nat>, i: nat, j: nat)
    requires RoundRobin(order) && i < j < |order| && order[i] == order[j]
    requires forall m :: i < m < j ==> order[m] != order[i]
    ensures j == i + NUM_PORTS
  {
    assert i + NUM_PORTS < |order| ==> order[i + NUM_PORTS] == order[i];
  }

  /** Between two consecutive polls of one port every other port is polled exactly once. */
  lemma PollsAreFair(s: State, boot: seq<Phy>, i: nat, j: nat, q: nat) returns (k: nat)
    requires Reachable(s, boot)
    requires i < j < |PollOrder(s.core.record)| && q < NUM_PORTS
    requires var order := PollOrder(s.core.record);
             order[i] == order[j] && q != order[i] && forall m :: i < m < j ==> order[m] != order[i]
    ensures var order := PollOrder(s.core.record);
            i < k < j && order[k] == q && forall m :: i < m < j && order[m] == q ==> m == k
  {
    ReachableInv(s, boot);
    k := OncePerRound(PollOrder(s.core.record), i, j, q);
  }

  lemma OncePerRound(order: seq<nat>, i: nat, j: nat, q: nat) returns (k: nat)
    requires RoundRobin(order) && i < j < |order| && order[i] == order[j]
    requires q < NUM_PORTS && q != order[i] && forall m :: i < m < j ==> order[m] != order[i]
    ensures i < k < j && order[k] == q && forall m :: i < m < j && order[m] == q ==> m == k
  {
    RepeatsAfterOneRound(order, i, j);
    k := NextWithResidue(i, q);
    forall m | i < m < j && order[m] == q ensures m == k {
      SameResidue(m, k);
    }
  }

  lemma NextWithResidue(i: nat, q: nat) returns (k: nat)
    requires q < NUM_PORTS && q != i % NUM_PORTS
    ensures i < k < i + NUM_PORTS && k % NUM_PORTS == q
  {
    var p := i % NUM_PORTS;
    k := if p < q then i + (q - p) else i + NUM_PORTS - (p - q);
  }

  lemma SameResidue(a: nat, b: nat)
    requires a % NUM_PORTS == b % NUM_PORTS && a < b + NUM_PORTS && b < a + NUM_PORTS
    ensures a == b
  {
  }

  /** A line card of which nothing has been polled. */
  ghost predicate Untouched(s: State) {
    && s.core.ports == seq(NUM_PORTS, _ => INITIAL_ENTRY)
    && s.core.tally == Tally(0, 0, 0, 0, 0, 0)
    && s.core.currentPhy == 0 && s.core.pollState.PollIdle?
    && s.core.log == Start
    && (s.core.locked <==> s.cli.CliHolding?)
  }

  lemma StepWithoutMdio(s: State, e: Event)
    requires Untouched(s) && !s.scheduled
    ensures Untouched(Step(s, e))
  {
  }

  /** A card without an MDIO block never takes part: its poll task makes no step, through the
    scheduler or through a spinning CLI, and its ports stay as constructed. */
  lemma {:induction false} CardWithoutMdioNeverPolls(boot: seq<Phy>, es: seq<Event>)
    requires |boot| == NUM_PORTS
    ensures Untouched(Run(Boot(boot, false), es))
  {
    if es == [] {
    } else {
      var fs := es[..|es| - 1];
      CardWithoutMdioNeverPolls(boot, fs);
      StepWithoutMdio(Run(Boot(boot, false), fs), es[|es| - 1]);
    }
  }
}
