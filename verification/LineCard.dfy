/** The line card as the firmware builds it: objects that the poll task, the CLI and the main
  loop update in place. Every method is proved against the functions of PollModel. */
module LineCards {
  import opened Histories
  import opened Mdio
  import opened PollModel

  class CooperativeMutex {
    var held: bool

    constructor ()
      ensures !held
    {
      held := false;
    }

    method TryLock() returns (taken: bool)
      modifies this
      ensures held && taken == !old(held)
    {
      taken := !held;
      held := true;
    }

    method Unlock()
      modifies this
      ensures !held
    {
      held := false;
    }
  }

  /** The register block of the MDIO bus, with the PHYs behind it. `busy`, `answered` and `phys`
    are the hardware's; the firmware sees them only through the registers. */
  class MdioBlock {
    var cmdAddr: bv32
    var data: bv32
    var busy: nat
    var answered: bool
    const phys: array<Phy>
    ghost var wire: History<BusOp>

    constructor (phys: array<Phy>)
      ensures this.phys == phys
      ensures CurrentBus() == Bus(Command(0, 0), 0, true, 0) && wire == Start
    {
      this.phys := phys;
      cmdAddr, data, busy, answered, wire := 0, 0, 0, true, Start;
      new;
      EncodeIdentifiesBothHalves(Command(0, 0));
      assert Encode(Command(0, 0)) == 0;
    }

    ghost function CurrentBus(): Bus
      reads this
    {
      Bus(Decode(cmdAddr), busy, answered, data)
    }

    /** Writing cmd_addr starts a read. */
    method WriteCmdAddr(word: bv32, latency: nat)
      modifies this
      ensures CurrentBus() == Bus(Decode(word), latency, false, old(data))
      ensures wire == Then(old(wire), Issued(Decode(word)))
    {
      cmdAddr, busy, answered := word, latency, false;
      wire := Then(wire, Issued(Decode(word)));
    }

    /** The hardware carries the pending access out. */
    method AnswerNow(raw: bv32)
      modifies this, phys
      ensures cmdAddr == old(cmdAddr) && busy == old(busy) && answered
      ensures if old(answered)
              then data == old(data) && phys[..] == old(phys[..]) && wire == old(wire)
              else && data == Reply(old(phys[..]), Decode(cmdAddr), raw)
                   && phys[..] == AfterRead(old(phys[..]), Decode(cmdAddr))
                   && wire == Then(old(wire), Answered(Decode(cmdAddr), data))
    {
      if !answered {
        var cmd := Decode(cmdAddr);
        data := Reply(phys[..], cmd, raw);
        if cmd.reg == REG_BASIC_STATUS && cmd.phy < phys.Length {
          phys[cmd.phy] := phys[cmd.phy].(latchedLow := !phys[cmd.phy].link);
        }
        answered := true;
        wire := Then(wire, Answered(cmd, data));
      }
    }

    /** Reading status: nonzero while the access is in progress. */
    method ReadStatus(raw: bv32) returns (status: bv32)
      modifies this, phys
      ensures cmdAddr == old(cmdAddr)
      ensures (status == 0) == (old(busy) == 0)
      ensures old(busy) > 0 ==>
                && busy == old(busy) - 1 && answered == old(answered) && data == old(data)
                && phys[..] == old(phys[..]) && wire == old(wire)
      ensures old(busy) == 0 ==> busy == 0 && answered
      ensures old(busy) == 0 && old(answered) ==>
                data == old(data) && phys[..] == old(phys[..]) && wire == old(wire)
      ensures old(busy) == 0 && !old(answered) ==>
                && data == Reply(old(phys[..]), Decode(cmdAddr), raw)
                && phys[..] == AfterRead(old(phys[..]), Decode(cmdAddr))
                && wire == Then(old(wire), Answered(Decode(cmdAddr), data))
    {
      if busy > 0 {
        busy := busy - 1;
        return 1;
      }
      AnswerNow(raw);
      return 0;
    }

    /** MDIODevice::WriteRegister for the LED mode register of one PHY. */
    method WriteLedMode(phy: nat, mode: bv16)
      requires phy < phys.Length && phy < 32
      modifies this, phys
      ensures CurrentBus() == Bus(Command(REG_VSC8512_LED_MODE, phy), 0, true, old(data))
      ensures phys[..] == old(phys[..])[phy := old(phys[phy]).(led := mode)]
      ensures wire == Then(old(wire), LedWritten(Command(REG_VSC8512_LED_MODE, phy), mode))
    {
      var cmd := Command(REG_VSC8512_LED_MODE, phy);
      EncodeIdentifiesBothHalves(cmd);
      cmdAddr, busy, answered := Encode(cmd), 0, true;
      phys[phy] := phys[phy].(led := mode);
      wire := Then(wire, LedWritten(cmd, mode));
    }

    /** A blocking access of another driver. */
    method BlockingAccess(word: bv32, reply: bv32)
      modifies this
      ensures CurrentBus() == Bus(Decode(word), 0, true, reply)
      ensures wire == Then(old(wire), CliAccess(Decode(word)))
    {
      cmdAddr, busy, answered, data := word, 0, true, reply;
      wire := Then(wire, CliAccess(Decode(word)));
    }

    /** The wire of one PHY changes. */
    method WireChange(phy: nat, up: bool)
      modifies phys
      ensures phys[..] == AfterWire(old(phys[..]), phy, up)
    {
      if phy < phys.Length {
        phys[phy] := phys[phy].(link := up, latchedLow := phys[phy].latchedLow || !up);
      }
    }
  }

  /** LatentRedPhyPollTask. */
  class PhyPollTask {
    const mdio: MdioBlock?
    const mutex: CooperativeMutex
    const ports: array<PortEntry>
    var currentPhy: nat
    var pollState: PollState
    var linkStateChanged: bool

    ghost var record: History<Access>
    ghost var log: History<Message>
    ghost var tally: Tally

    constructor (mdio: MdioBlock?, mutex: CooperativeMutex, ports: array<PortEntry>)
      ensures this.mdio == mdio && this.mutex == mutex && this.ports == ports
      ensures currentPhy == 0 && pollState == PollIdle && !linkStateChanged
      ensures record == Start && log == Start && tally == Tally(0, 0, 0, 0, 0, 0)
    {
      this.mdio, this.mutex, this.ports := mdio, mutex, ports;
      currentPhy, pollState, linkStateChanged := 0, PollIdle, false;
      record, log, tally := Start, Start, Tally(0, 0, 0, 0, 0, 0);
    }

    ghost predicate Ready()
      reads this, mdio
    {
      && mdio != null
      && ports.Length == NUM_PORTS && mdio.phys.Length == NUM_PORTS
      && currentPhy <= NUM_PORTS
    }

    ghost function View(): Core
      requires mdio != null
      reads this, mutex, ports, mdio, mdio.phys
    {
      Core(currentPhy, pollState, linkStateChanged, ports[..], mutex.held,
           mdio.CurrentBus(), mdio.phys[..], record, mdio.wire, log, tally)
    }

    method OnTimer()
      requires Ready()
      modifies this
      ensures Ready() && View() == PollModel.OnTimer(old(View()))
      ensures old(currentPhy) >= 24 ==>
                && currentPhy == 0 && pollState == PollIdle && !linkStateChanged
                && tally == old(tally).(ticks := old(tally).ticks + 1)
      ensures old(currentPhy) < 24 ==>
                && currentPhy == old(currentPhy) && pollState == old(pollState)
                && linkStateChanged == old(linkStateChanged) && tally == old(tally)
    {
      if currentPhy >= 24 {
        currentPhy := 0;
        pollState := PollIdle;
        linkStateChanged := false;
        tally := tally.(ticks := tally.ticks + 1);
      }
    }

    /** `tick` says whether the timer of the base class has expired. */
    method Iteration(tick: bool, env: Env)
      requires Ready()
      modifies this, mutex, ports, mdio, mdio.phys
      ensures Ready() && View() == PollModel.Iteration(old(View()), tick, env)
    {
      tally := tally.(iterations := tally.iterations + 1);
      if tick {
        OnTimer();
      }
      assert View() == Entered(old(View()), tick);
      PollPHYs(env);
    }

    method RequestRegister(reg: nat, latency: nat)
      requires Ready() && currentPhy < NUM_PORTS && reg < 32
      modifies this`tally, mdio
      ensures Ready() && View() == StartRead(old(View()), reg, latency)
    {
      EncodeIdentifiesBothHalves(Command(reg, currentPhy));
      mdio.WriteCmdAddr(Encode(Command(reg, currentPhy)), latency);
      tally := tally.(issues := tally.issues + 1);
    }

    /** Reads the status register once; true when the access is done. */
    method RegisterAvailable(raw: bv32) returns (available: bool)
      requires Ready()
      modifies mdio, mdio.phys
      ensures Ready() && available == (old(mdio.busy) == 0)
      ensures View() == if available then AnswerPending(old(View()), raw)
                        else old(View()).(bus := old(View()).bus.(busy := old(mdio.busy) - 1))
    {
      var status := mdio.ReadStatus(raw);
      available := status == 0;
    }

    method PollPHYs(env: Env)
      requires Ready()
      modifies this, mutex, ports, mdio, mdio.phys
      ensures Ready() && View() == PollPhys(old(View()), env)
    {
      if currentPhy >= 24 {
        return;
      }
      match pollState {
        case PollIdle => RequestMutex(env);
        case PollStatus => AwaitStatus(env);
        case PollCtrl => AwaitCtrl(env);
        case PollExtStat => AwaitExtStat(env);
      }
    }

    /** POLL_STATUS: wait for the status register to be available. */
    method AwaitStatus(env: Env)
      requires Ready() && currentPhy < NUM_PORTS && pollState == PollStatus
      modifies this, ports, mdio, mdio.phys
      ensures Ready() && View() == PollPhys(old(View()), env)
    {
      var available := RegisterAvailable(env.raw);
      if available {
        TakeBasicStatus(env.latency);
      }
    }

    /** POLL_CTRL: wait for the control register, whose value is not used. */
    method AwaitCtrl(env: Env)
      requires Ready() && currentPhy < NUM_PORTS && pollState == PollCtrl
      modifies this, mdio, mdio.phys
      ensures Ready() && View() == PollPhys(old(View()), env)
    {
      var available := RegisterAvailable(env.raw);
      if available {
        RequestRegister(REG_VSC8512_AUX_CTRL_STAT, env.latency);
        pollState := PollExtStat;
      }
    }

    /** POLL_EXT_STAT: wait for the extended status and finish the poll. */
    method AwaitExtStat(env: Env)
      requires Ready() && currentPhy < NUM_PORTS && pollState == PollExtStat
      modifies this, mutex, ports, mdio, mdio.phys
      ensures Ready() && View() == PollPhys(old(View()), env)
    {
      var available := RegisterAvailable(env.raw);
      if available {
        TakeExtendedStatus();
      }
    }

    /** POLL_IDLE: with the mutex, fetch the basic status; without it, try again later. */
    method RequestMutex(env: Env)
      requires Ready() && currentPhy < NUM_PORTS && pollState == PollIdle
      modifies this, mutex, mdio
      ensures Ready() && View() == PollPhys(old(View()), env)
    {
      var taken := mutex.TryLock();
      if taken {
        record, tally := Then(record, Lock), tally.(locks := tally.locks + 1);
        RequestRegister(REG_BASIC_STATUS, env.latency);
        pollState := PollStatus;
      }
    }

    /** The body of POLL_STATUS once the status register is available. */
    method TakeBasicStatus(latency: nat)
      requires Ready() && currentPhy < NUM_PORTS
      modifies this, ports, mdio
      ensures Ready() && View() == TakeStatus(old(View()), latency)
    {
      var basicStatus := mdio.data;
      var linkState := LinkBit(basicStatus);
      linkStateChanged := ports[currentPhy].linkUp != linkState;
      ports[currentPhy] := ports[currentPhy].(linkUp := linkState);
      record := Then(record, TookStatus(currentPhy, basicStatus));
      mdio.wire := Then(mdio.wire, Consumed(Command(REG_BASIC_STATUS, currentPhy), basicStatus));
      RequestRegister(REG_BASIC_CONTROL, latency);
      pollState := PollCtrl;
    }

    /** The body of POLL_EXT_STAT once the register is available. */
    method TakeExtendedStatus()
      requires Ready() && currentPhy < NUM_PORTS
      modifies this, mutex, ports, mdio, mdio.phys
      ensures Ready() && View() == TakeExtStat(old(View()))
    {
      StoreDuplexAndSpeed();
      if linkStateChanged {
        ReportChange(ports[currentPhy].speed);
      }
      MoveToNextPhy();
    }

    method MoveToNextPhy()
      requires Ready() && currentPhy < NUM_PORTS
      modifies this, mutex
      ensures Ready() && View() == Release(old(View()))
    {
      currentPhy := currentPhy + 1;
      mutex.Unlock();
      pollState := PollIdle;
      record := Then(record, Unlock);
      tally := tally.(unlocks := tally.unlocks + 1, polls := tally.polls + 1);
    }

    method StoreDuplexAndSpeed()
      requires Ready() && currentPhy < NUM_PORTS
      modifies this`record, ports, mdio`wire
      ensures Ready() && View() == DecodeExtStat(old(View()))
    {
      var extstat := mdio.data;
      ports[currentPhy] := ports[currentPhy].(fullDuplex := DuplexBit(extstat));
      ports[currentPhy] := ports[currentPhy].(speed := SpeedField(extstat));
      record := Then(record, TookExtStat(currentPhy, extstat));
      mdio.wire := Then(mdio.wire, Consumed(Command(REG_VSC8512_AUX_CTRL_STAT, currentPhy), extstat));
    }

    /** Log the change and rewrite the LED mode of the paired PHY. */
    method ReportChange(speed: LinkSpeed)
      requires Ready() && currentPhy < NUM_PORTS && ports[currentPhy].speed == speed
      modifies this`log, mdio, mdio.phys
      ensures Ready() && View() == Report(old(View()), currentPhy, ports[currentPhy])
    {
      if ports[currentPhy].linkUp {
        log := Then(log, LinkUp(currentPhy, speed));
      } else {
        log := Then(log, LinkDown(currentPhy));
      }
      var other := OtherPort();
      var ledmode := ChooseLedMode(ports[currentPhy].linkUp, speed);
      mdio.WriteLedMode(other, ledmode);
    }

    method OtherPort() returns (other: nat)
      requires currentPhy < NUM_PORTS
      ensures other == Paired(currentPhy) && other < NUM_PORTS
    {
      XorOneIsPaired(currentPhy);
      PairingIsAnInvolution(currentPhy, currentPhy);
      other := ((currentPhy as bv16) ^ 1) as nat;
    }

    static method ChooseLedMode(linkUp: bool, speed: LinkSpeed) returns (ledmode: bv16)
      ensures ledmode == LedMode(linkUp, speed)
    {
      ledmode := 0x80e0;
      if (speed.Speed10M? || speed.Speed100M?) && linkUp {
        ledmode := ledmode | 0x10;
      }
    }
  }
}
