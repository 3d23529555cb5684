/** The port state of the whole board, the main loop over its tasks, and the two CLI commands that
  use it. The ghost trace lists the events so far; `Valid` says that the objects are in the
  state that PollModel reaches on that trace, so every lemma about runs applies to them. */
module Boards {
  import opened Histories
  import opened Mdio
  import opened PollModel
  import opened PollInvariant
  import opened PollProgress
  import PollRecord
  import PollSafety
  import opened LineCards

  class LineCardState {
    const ports: array<PortEntry>
    const mutex: CooperativeMutex
    const mdio: MdioBlock?
    const pollTask: PhyPollTask

    constructor (mdio: MdioBlock?)
      ensures this.mdio == mdio && Wired()
      ensures fresh(ports) && fresh(mutex) && fresh(pollTask)
      ensures AsConstructed()
      ensures forall i :: 0 <= i < 24 ==> ports[i] == PortEntry(false, true, Speed10M)
    {
      var table := new PortEntry[NUM_PORTS](_ => INITIAL_ENTRY);
      var m := new CooperativeMutex();
      var task := new PhyPollTask(mdio, m, table);
      this.mdio := mdio;
      ports, mutex, pollTask := table, m, task;
    }

    ghost predicate Wired() {
      && pollTask.mdio == mdio && pollTask.mutex == mutex && pollTask.ports == ports
      && ports.Length == NUM_PORTS
    }

    ghost predicate AsConstructed()
      reads ports, mutex, pollTask
    {
      && (forall i :: 0 <= i < ports.Length ==> ports[i] == INITIAL_ENTRY)
      && !mutex.held
      && pollTask.currentPhy == 0 && pollTask.pollState == PollIdle && !pollTask.linkStateChanged
      && pollTask.record == Start && pollTask.log == Start
      && pollTask.tally == Tally(0, 0, 0, 0, 0, 0)
    }

    /** What the constructor adds to the global task list. */
    function Registered(): seq<PhyPollTask> {
      if mdio != null then [pollTask] else []
    }
  }

  class PortState {
    const card0: LineCardState
    const card1: LineCardState
    var tasks: seq<PhyPollTask>
    ghost var cli: Cli
    ghost var trace: seq<Event>
    ghost const boot: seq<Phy>

    /** Line card 0 has the MDIO block of the FPGA, line card 1 has none. */
    constructor (fmdio: MdioBlock)
      requires fmdio.phys.Length == NUM_PORTS
      requires fmdio.CurrentBus() == Bus(Command(0, 0), 0, true, 0) && fmdio.wire == Start
      ensures Valid() && cli == CliIdle && trace == []
      ensures card0.mdio == fmdio && fresh(card0.pollTask) && fresh(card0.mutex) && fresh(card0.ports)
    {
      var c0 := new LineCardState(fmdio);
      var c1 := new LineCardState(null);
      card0, card1 := c0, c1;
      tasks := c0.Registered() + c1.Registered();
      cli, trace := CliIdle, [];
      boot := fmdio.phys[..];
      new;
      assert card0.ports[..] == Boot(boot, true).core.ports;
    }

    ghost predicate Valid()
      reads this, card0.pollTask, card0.mutex, card0.ports, card0.mdio,
            (if card0.mdio == null then {} else {card0.mdio.phys}),
            card1.pollTask, card1.mutex, card1.ports
    {
      && card0.Wired() && card1.Wired()
      && card0.mdio != null && card1.mdio == null
      && card0.ports != card1.ports && card0.mutex != card1.mutex && card0.pollTask != card1.pollTask
      && card0.pollTask.Ready()
      && tasks == [card0.pollTask]
      && |boot| == NUM_PORTS
      && Current() == Run(Boot(boot, true), trace)
      && card1.AsConstructed()
    }

    ghost function Current(): State
      requires card0.Wired() && card0.mdio != null
      reads this, card0.pollTask, card0.mutex, card0.ports, card0.mdio, card0.mdio.phys
    {
      State(card0.pollTask.View(), cli, true)
    }

    /** Valid states are reachable ones. */
    lemma ValidInv()
      requires Valid()
      ensures Reachable(Current(), boot)
      ensures Inv(Current().core, cli, boot)
    {
      ReachableInv(Current(), boot);
    }

    lemma ValidExclusive()
      requires Valid()
      ensures Exclusive(card0.pollTask.View(), cli)
    {
      ValidInv();
    }

    /** The wire of a PHY changes. */
    method WireEvent(phy: nat, up: bool)
      requires Valid()
      modifies this`trace, card0.mdio.phys
      ensures Valid() && trace == old(trace) + [Wire(phy, up)]
    {
      RunSnoc(Boot(boot, true), trace, Wire(phy, up));
      card0.mdio.WireChange(phy, up);
      trace := trace + [Wire(phy, up)];
    }

    /** The pending MDIO access reaches its PHY. */
    method AnswerEvent(raw: bv32)
      requires Valid()
      modifies this`trace, card0.mdio, card0.mdio.phys
      ensures Valid() && trace == old(trace) + [Answer(raw)]
      ensures card0.mdio.busy == old(card0.mdio.busy)
    {
      RunSnoc(Boot(boot, true), trace, Answer(raw));
      card0.mdio.AnswerNow(raw);
      trace := trace + [Answer(raw)];
    }

    /** What the hardware does by itself while the firmware does something else. */
    method HardwareActivity()
      requires Valid()
      modifies this`trace, card0.mdio, card0.mdio.phys
      ensures Valid() && Extends(old(trace), trace)
      ensures card0.mdio.busy == old(card0.mdio.busy)
    {
      var more: nat := *;
      while more > 0
        invariant Valid() && Extends(old(trace), trace)
        invariant card0.mdio.busy == old(card0.mdio.busy)
      {
        var phy: nat := *;
        var up: bool := *;
        var raw: bv32 := *;
        if * {
          WireEvent(phy, up);
        } else {
          AnswerEvent(raw);
        }
        more := more - 1;
      }
    }

    /** The second trace adds events to the first, none of them a step of the main loop. */
    static ghost predicate Extends(before: seq<Event>, after: seq<Event>) {
      && before <= after
      && forall i :: |before| <= i < |after| ==> !after[i].Iterate?
    }

    /** The second trace adds to the first what the hardware did and then one call of the poll task
      by the main loop. */
    static ghost predicate RanOnce(before: seq<Event>, after: seq<Event>) {
      && after != []
      && Extends(before, after[..|after| - 1])
      && after[|after| - 1].Iterate?
    }

    /** One pass of the main loop over its tasks. Line card 1 is not touched. */
    method RunTasks()
      requires Valid() && cli == CliIdle
      modifies this`trace, card0.pollTask, card0.mutex, card0.ports, card0.mdio, card0.mdio.phys
      ensures Valid() && RanOnce(old(trace), trace)
      ensures card0.pollTask.tally.iterations == old(card0.pollTask.tally.iterations) + 1
    {
      HardwareActivity();
      var i := 0;
      while i < |tasks|
        invariant 0 <= i <= |tasks|
        invariant Valid()
        invariant if i == 0 then Extends(old(trace), trace) else RanOnce(old(trace), trace)
        invariant card0.pollTask.tally.iterations == old(card0.pollTask.tally.iterations) + i
      {
        var tick: bool := *;
        var env: Env := *;
        RunTask(tasks[i], tick, env);
        i := i + 1;
      }
    }

    method RunTask(task: PhyPollTask, tick: bool, env: Env)
      requires Valid() && cli == CliIdle && task in tasks
      modifies this`trace, card0.pollTask, card0.mutex, card0.ports, card0.mdio, card0.mdio.phys
      ensures Valid() && trace == old(trace) + [Iterate(tick, env)]
      ensures task.tally.iterations == old(task.tally.iterations) + 1
    {
      RunSnoc(Boot(boot, true), trace, Iterate(tick, env));
      task.Iteration(tick, env);
      trace := trace + [Iterate(tick, env)];
    }

    /** One attempt of the CLI to take the mutex of line card 0. */
    method TryLockForCli() returns (taken: bool)
      requires Valid() && cli == CliSpinning
      modifies this`cli, this`trace, card0.mutex, card0.pollTask`record
      ensures taken == !old(card0.mutex.held)
      ensures taken ==> Valid() && cli == CliHolding && Extends(old(trace), trace)
      ensures !taken ==> Valid() && cli == CliSpinning && trace == old(trace) && card0.mutex.held
    {
      ghost var e := CliTry(false, Env(0, 0));
      RunSnoc(Boot(boot, true), trace, e);
      taken := card0.mutex.TryLock();
      if taken {
        cli := CliHolding;
        card0.pollTask.record := Then(card0.pollTask.record, CliLock);
        trace := trace + [e];
      }
    }

    /** The body of the spin loop. */
    method IterateForCli()
      requires Valid() && cli == CliSpinning && card0.mutex.held
      modifies this`trace, card0.pollTask, card0.mutex, card0.ports, card0.mdio, card0.mdio.phys
      ensures Valid() && Extends(old(trace), trace)
      ensures SpinTurned(old(card0.pollTask.View()), card0.pollTask.View())
    {
      var tick: bool := *;
      var env: Env := *;
      ValidExclusive();
      SpinTurn(card0.pollTask.View(), tick, env);
      RunTaskForCli(tick, env);
    }

    method RunTaskForCli(tick: bool, env: Env)
      requires Valid() && cli == CliSpinning && card0.mutex.held
      modifies this`trace, card0.pollTask, card0.mutex, card0.ports, card0.mdio, card0.mdio.phys
      ensures Valid() && trace == old(trace) + [CliTry(tick, env)]
      ensures card0.pollTask.View() == PollModel.Iteration(old(card0.pollTask.View()), tick, env)
    {
      RunSnoc(Boot(boot, true), trace, CliTry(tick, env));
      card0.pollTask.Iteration(tick, env);
      trace := trace + [CliTry(tick, env)];
    }

    /** One access of another driver, unless it would read a basic status register. */
    method DriverAccess()
      requires Valid() && cli == CliHolding
      modifies this`trace, card0.mdio
      ensures Valid() && Extends(old(trace), trace)
    {
      var word: bv32 := *;
      var reply: bv32 := *;
      var cmd := Decode(word);
      if cmd.reg != REG_BASIC_STATUS {
        RunSnoc(Boot(boot, true), trace, CliRead(cmd, reply));
        card0.mdio.BlockingAccess(word, reply);
        trace := trace + [CliRead(cmd, reply)];
      }
    }

    /** VSC8512::GetTemperature: any number of accesses, complete when it returns. */
    method GetTemperature()
      requires Valid() && cli == CliHolding
      modifies this`trace, card0.mdio, card0.mdio.phys
      ensures Valid() && Extends(old(trace), trace)
    {
      var more: nat := *;
      while more > 0
        invariant Valid() && Extends(old(trace), trace)
      {
        HardwareActivity();
        DriverAccess();
        more := more - 1;
      }
    }

    /** The temperatures of both PHY packages. */
    method ReadTemperatures()
      requires Valid() && cli == CliHolding
      modifies this`trace, card0.mdio, card0.mdio.phys
      ensures Valid() && Extends(old(trace), trace)
    {
      GetTemperature();
      GetTemperature();
    }

    method UnlockForCli()
      requires Valid() && cli == CliHolding
      modifies this`cli, this`trace, card0.mutex, card0.pollTask`record
      ensures Valid() && cli == CliIdle && trace == old(trace) + [CliReturn]
      ensures !card0.mutex.held && card0.pollTask.pollState == PollIdle
    {
      ValidExclusive();
      RunSnoc(Boot(boot, true), trace, CliReturn);
      card0.mutex.Unlock();
      card0.pollTask.record := Then(card0.pollTask.record, CliUnlock);
      cli := CliIdle;
      trace := trace + [CliReturn];
    }

    ghost method EnterSpin()
      requires Valid() && cli == CliIdle
      modifies this`cli, this`trace
      ensures Valid() && cli == CliSpinning && trace == old(trace) + [CliCall]
    {
      RunSnoc(Boot(boot, true), trace, CliCall);
      cli := CliSpinning;
      trace := trace + [CliCall];
    }

    /** The spin loop: the CLI drives the poll task itself until it gets the mutex, which it
      always does. The poll task does not start a round or take the mutex again meanwhile. */
    method LockForCli()
      requires Valid() && cli == CliSpinning
      modifies this`cli, this`trace, card0.pollTask, card0.mutex, card0.ports, card0.mdio, card0.mdio.phys
      ensures Valid() && cli == CliHolding && Extends(old(trace), trace)
      ensures card0.pollTask.tally.ticks == old(card0.pollTask.tally.ticks)
      ensures card0.pollTask.tally.locks == old(card0.pollTask.tally.locks)
    {
      var taken := TryLockForCli();
      while !taken
        invariant Valid() && Extends(old(trace), trace)
        invariant if taken then cli == CliHolding else cli == CliSpinning && card0.mutex.held
        invariant card0.pollTask.tally.ticks == old(card0.pollTask.tally.ticks)
        invariant card0.pollTask.tally.locks == old(card0.pollTask.tally.locks)
        decreases !taken, StagesLeft(card0.pollTask.pollState), card0.mdio.busy
      {
        taken := SpinOnce();
      }
    }

    /** One turn of the spin loop and the next attempt to take the mutex. */
    method SpinOnce() returns (taken: bool)
      requires Valid() && cli == CliSpinning && card0.mutex.held
      modifies this`cli, this`trace, card0.pollTask, card0.mutex, card0.ports, card0.mdio, card0.mdio.phys
      ensures Valid() && Extends(old(trace), trace)
      ensures if taken then cli == CliHolding else cli == CliSpinning && card0.mutex.held
      ensures if old(card0.mdio.busy) > 0
              then card0.pollTask.pollState == old(card0.pollTask.pollState)
                   && card0.mdio.busy < old(card0.mdio.busy)
              else StagesLeft(card0.pollTask.pollState) < StagesLeft(old(card0.pollTask.pollState))
      ensures card0.pollTask.tally.ticks == old(card0.pollTask.tally.ticks)
      ensures card0.pollTask.tally.locks == old(card0.pollTask.tally.locks)
    {
      HardwareActivity();
      IterateForCli();
      taken := TryLockForCli();
    }

    /** PrintLineCardInfo for line card 0: from the call to the unlock. It ends with the mutex free
      and the poll task between two polls. */
    method PrintLineCardInfo()
      requires Valid() && cli == CliIdle
      modifies this`cli, this`trace, card0.pollTask, card0.mutex, card0.ports, card0.mdio, card0.mdio.phys
      ensures Valid() && cli == CliIdle && Extends(old(trace), trace)
      ensures |trace| > |old(trace)| && trace[|old(trace)|] == CliCall && trace[|trace| - 1] == CliReturn
      ensures !card0.mutex.held && card0.pollTask.pollState == PollIdle
      ensures card0.pollTask.tally.ticks == old(card0.pollTask.tally.ticks)
      ensures card0.pollTask.tally.locks == old(card0.pollTask.tally.locks)
    {
      EnterSpin();
      LockForCli();
      ReadTemperatures();
      UnlockForCli();
    }

    /** The rows of "show interface status", read at a task boundary without taking any lock. All
      ports of line card 1 show their constructor values; a port of line card 0 shows the result
      of its last completed poll, except that the link of the one port between its two updates
      may be newer. */
    method OnShowInterfaceStatus() returns (rows: seq<PortEntry>)
      requires Valid()
      ensures |rows| == 2 * NUM_PORTS
      ensures forall p :: NUM_PORTS <= p < 2 * NUM_PORTS ==> rows[p] == PortEntry(false, true, Speed10M)
      ensures forall p :: 0 <= p < NUM_PORTS ==>
                PollRecord.ShowsBits(rows[p], PollRecord.LastStatus(card0.pollTask.record, p),
                                     PollRecord.LastExtStat(card0.pollTask.record, p))
      ensures forall p :: 0 <= p < NUM_PORTS ==>
                var e := PollRecord.Latest(PollRecord.Polls(card0.pollTask.record, p));
                && rows[p].(linkUp := e.linkUp) == e
                && (rows[p].linkUp != e.linkUp ==>
                      card0.pollTask.currentPhy == p && card0.pollTask.pollState in {PollCtrl, PollExtStat})
    {
      rows := [];
      for card := 0 to 2
        invariant |rows| == card * NUM_PORTS
        invariant card > 0 ==> rows[..NUM_PORTS] == card0.ports[..]
        invariant card > 1 ==> rows[NUM_PORTS..] == card1.ports[..]
      {
        var cardState := if card == 0 then card0 else card1;
        ghost var before := rows;
        for port := 0 to NUM_PORTS
          invariant rows == before + cardState.ports[..port]
        {
          rows := rows + [cardState.ports[port]];
        }
      }
      ValidInv();
      forall p | 0 <= p < NUM_PORTS
        ensures var e := PollRecord.Latest(PollRecord.Polls(card0.pollTask.record, p));
                && rows[p].(linkUp := e.linkUp) == e
                && (rows[p].linkUp != e.linkUp ==>
                      card0.pollTask.currentPhy == p && card0.pollTask.pollState in {PollCtrl, PollExtStat})
      {
        assert rows[p] == rows[..NUM_PORTS][p] == Current().core.ports[p];
        PollSafety.TableTornInOnePort(Current(), boot, p);
      }
      forall p | 0 <= p < NUM_PORTS
        ensures PollRecord.ShowsBits(rows[p], PollRecord.LastStatus(card0.pollTask.record, p),
                                     PollRecord.LastExtStat(card0.pollTask.record, p))
      {
        assert rows[p] == rows[..NUM_PORTS][p] == Current().core.ports[p];
        PollSafety.TableShowsLastWords(Current(), boot, p);
      }
      forall p | NUM_PORTS <= p < 2 * NUM_PORTS ensures rows[p] == INITIAL_ENTRY {
        assert rows[p] == rows[NUM_PORTS..][p - NUM_PORTS] == card1.ports[p - NUM_PORTS];
      }
    }
  }
}
