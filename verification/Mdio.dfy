/** The MDIO management interface of a line card and the PHYs behind it.

  The register numbers of clause 22 (0 and 1) are those of IEEE Std 802.3, section 22.2.4.
  The two vendor registers are named after the VSC8512 driver header, which is not part of
  this model; the proofs use nothing about them except that the numbers differ. */
module Mdio {

  const NUM_PORTS: nat := 24

  const REG_BASIC_CONTROL: nat := 0x00
  const REG_BASIC_STATUS: nat := 0x01
  const REG_VSC8512_AUX_CTRL_STAT: nat := 0x1c
  const REG_VSC8512_LED_MODE: nat := 0x1d

  /** One access: which register of which PHY. */
  datatype Command = Command(reg: nat, phy: nat)

  function CommandWord(reg: bv32, phy: bv32): bv32 {
    (reg << 8) | phy
  }

  function RegField(word: bv32): bv32 {
    word >> 8
  }

  function PhyField(word: bv32): bv32 {
    word & 0xff
  }

  /** Register and PHY addresses have five bits (section 22.2.4.5 of IEEE Std 802.3). */
  function Address(n: nat): bv32
    requires n < 32
  {
    (n as bv5) as bv32
  }

  /** The word written to cmd_addr for an access. */
  function Encode(c: Command): bv32
    requires c.reg < 32 && c.phy < 32
  {
    CommandWord(Address(c.reg), Address(c.phy))
  }

  /** How the MDIO block splits the word again. */
  function Decode(word: bv32): Command {
    Command(RegField(word) as nat, PhyField(word) as nat)
  }

  /** The register number times 256 plus the PHY address. */
  lemma CommandWordIsSum(reg: bv32, phy: bv32)
    requires reg < 32 && phy < 32
    ensures CommandWord(reg, phy) == 256 * reg + phy
  {
  }

  lemma FieldsOfCommandWord(reg: bv32, phy: bv32)
    requires reg < 32 && phy < 32
    ensures RegField(CommandWord(reg, phy)) == reg
    ensures PhyField(CommandWord(reg, phy)) == phy
  {
  }

  lemma AddressKeepsNumber(n: nat)
    requires n < 32
    ensures Address(n) < 32 && Address(n) as nat == n
  {
    assert (n as bv5) as nat == n;
  }

  lemma EncodeKeepsReg(c: Command)
    requires c.reg < 32 && c.phy < 32
    ensures RegField(Encode(c)) as nat == c.reg
  {
    AddressKeepsNumber(c.reg);
    AddressKeepsNumber(c.phy);
    FieldsOfCommandWord(Address(c.reg), Address(c.phy));
  }

  lemma EncodeKeepsPhy(c: Command)
    requires c.reg < 32 && c.phy < 32
    ensures PhyField(Encode(c)) as nat == c.phy
  {
    AddressKeepsNumber(c.reg);
    AddressKeepsNumber(c.phy);
    FieldsOfCommandWord(Address(c.reg), Address(c.phy));
  }

  /** The packing loses nothing, so no two accesses share a command word. */
  lemma EncodeIdentifiesBothHalves(c: Command)
    requires c.reg < 32 && c.phy < 32
    ensures Decode(Encode(c)) == c
  {
    EncodeKeepsReg(c);
    EncodeKeepsPhy(c);
  }

  // ---------------------------------------------------------------- register contents

  datatype LinkSpeed = Speed10M | Speed100M | Speed1000M | Speed10G

  predicate LinkBit(basicStatus: bv32) {
    (basicStatus & 4) == 4
  }

  predicate DuplexBit(extstat: bv32) {
    (extstat & 0x20) == 0x20
  }

  function SpeedField(extstat: bv32): LinkSpeed {
    var field := (extstat >> 3) & 3;
    if field == 0 then Speed10M else if field == 1 then Speed100M
    else if field == 2 then Speed1000M else Speed10G
  }

  lemma StatusBits(word: bv32)
    ensures LinkBit(word) <==> word & 4 != 0
  {
  }

  /** Bits 3 and 4 of the extended status are the speed, bit 5 is the duplex mode. */
  lemma ExtStatBits(word: bv32)
    ensures DuplexBit(word) <==> word & 0x20 != 0
    ensures SpeedField(word) == Speed10M <==> word & 0x18 == 0
    ensures SpeedField(word) == Speed100M <==> word & 0x18 == 0x08
    ensures SpeedField(word) == Speed1000M <==> word & 0x18 == 0x10
    ensures SpeedField(word) == Speed10G <==> word & 0x18 == 0x18
  {
  }

  /** LED1 is lit (bit 0x10) for a link at 10 or 100 Mbit/s only. */
  function LedMode(linkUp: bool, speed: LinkSpeed): bv16 {
    if (speed.Speed10M? || speed.Speed100M?) && linkUp then 0x80e0 | 0x10 else 0x80e0
  }

  lemma LedModeBits(linkUp: bool, speed: LinkSpeed)
    ensures LedMode(linkUp, speed) & 0x10 != 0 <==> linkUp && speed in {Speed10M, Speed100M}
    ensures LedMode(linkUp, speed) & 0xffef == 0x80e0
  {
  }

  /** Line cards of this revision have LED1 of even and odd ports swapped. */
  function Paired(port: nat): nat {
    if port % 2 == 0 then port + 1 else port - 1
  }

  lemma PairingIsAnInvolution(p: nat, q: nat)
    ensures Paired(Paired(p)) == p && Paired(p) != p
    ensures p < NUM_PORTS ==> Paired(p) < NUM_PORTS
    ensures Paired(p) == Paired(q) ==> p == q
  {
  }

  /** The firmware computes the pairing as an exclusive or with 1. */
  lemma XorOneIsPaired(p: nat)
    requires p < NUM_PORTS
    ensures ((p as bv16) ^ 1) as nat == Paired(p)
  {
    var b := p as bv16;
    assert b < 24;
    if p % 2 == 0 {
      assert b & 1 == 0;
    }
  }

  // ---------------------------------------------------------------- the PHYs

  /** One PHY: the state of its wire, the latching-low link bit of register 1
    (section 22.2.4.2.13 of IEEE Std 802.3) and its LED mode register. */
  datatype Phy = Phy(link: bool, latchedLow: bool, led: bv16)

  function WithLinkBit(raw: bv32, link: bool): bv32 {
    if link then raw | 4 else raw & 0xffff_fffb
  }

  predicate ReadsStatusOf(phys: seq<Phy>, c: Command) {
    c.reg == REG_BASIC_STATUS && c.phy < |phys|
  }

  /** The word a read returns. Everything except the link bit is up to the hardware. */
  function Reply(phys: seq<Phy>, c: Command, raw: bv32): (word: bv32)
    ensures ReadsStatusOf(phys, c) ==> LinkBit(word) == (phys[c.phy].link && !phys[c.phy].latchedLow)
    ensures !ReadsStatusOf(phys, c) ==> word == raw
  {
    if ReadsStatusOf(phys, c)
    then WithLinkBit(raw, phys[c.phy].link && !phys[c.phy].latchedLow)
    else raw
  }

  /** The link bit is bit 2; all other bits stay. */
  lemma SetLinkBit(raw: bv32)
    ensures (raw | 4) & 0xffff_fffb == raw & 0xffff_fffb && (raw | 4) & 4 != 0
  {
  }

  lemma ClearLinkBit(raw: bv32)
    ensures (raw & 0xffff_fffb) & 0xffff_fffb == raw & 0xffff_fffb && (raw & 0xffff_fffb) & 4 == 0
  {
  }

  lemma WithLinkBitBits(raw: bv32, link: bool)
    ensures WithLinkBit(raw, link) & 0xffff_fffb == raw & 0xffff_fffb
    ensures WithLinkBit(raw, link) & 4 != 0 <==> link
  {
    if link {
      SetLinkBit(raw);
    } else {
      ClearLinkBit(raw);
    }
  }

  /** Reading the status register releases the latch; it stays low while the link is down. */
  function AfterRead(phys: seq<Phy>, c: Command): (after: seq<Phy>)
    ensures |after| == |phys|
  {
    if ReadsStatusOf(phys, c)
    then phys[c.phy := phys[c.phy].(latchedLow := !phys[c.phy].link)]
    else phys
  }

  /** The link partner or the cable changes the wire of one PHY. */
  function AfterWire(phys: seq<Phy>, phy: nat, up: bool): (after: seq<Phy>)
    ensures |after| == |phys|
  {
    if phy < |phys|
    then phys[phy := phys[phy].(link := up, latchedLow := phys[phy].latchedLow || !up)]
    else phys
  }
}
