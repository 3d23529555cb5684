/** What a run should have done, read off its records alone. Nothing here looks at the fields
  of the poll task; PollInvariant relates the two. */
module PollRecord {
  import opened Histories
  import opened Mdio
  import opened PollModel

  // ---------------------------------------------------------------- completed polls

  datatype Sample = NoSample | Sample(port: nat, entry: PortEntry)

  function Decoded(status: bv32, extstat: bv32): PortEntry {
    PortEntry(LinkBit(status), DuplexBit(extstat), SpeedField(extstat))
  }

  /** A poll is complete when the record ends in one lock hold of the poll task with both reads
    of the same port in it and nothing else. */
  function CompletedPoll(h: History<Access>): Sample {
    match h
    case Then(Then(Then(Then(_, Lock), TookStatus(p, status)), TookExtStat(q, extstat)), Unlock) =>
      if p == q then Sample(p, Decoded(status, extstat)) else NoSample
    case _ => NoSample
  }

  /** The results of the completed polls of one port, oldest first. */
  function Polls(h: History<Access>, port: nat): seq<PortEntry> {
    match h
    case Start => []
    case Then(past, _) =>
      var s := CompletedPoll(h);
      if s.Sample? && s.port == port then Polls(past, port) + [s.entry] else Polls(past, port)
  }

  /** The ports of all completed polls, oldest first. */
  function PollOrder(h: History<Access>): seq<nat> {
    match h
    case Start => []
    case Then(past, _) =>
      var s := CompletedPoll(h);
      if s.Sample? then PollOrder(past) + [s.port] else PollOrder(past)
  }

  /** The link bits decoded for one port, oldest first. */
  function LinkBits(h: History<Access>, port: nat): seq<bool> {
    match h
    case Start => []
    case Then(past, last) =>
      if last.TookStatus? && last.port == port
      then LinkBits(past, port) + [LinkBit(last.word)]
      else LinkBits(past, port)
  }

  datatype Word = NoWord | Word(bits: bv32)

  /** The last status word decoded for a port. */
  function LastStatus(h: History<Access>, port: nat): Word {
    match h
    case Start => NoWord
    case Then(past, last) =>
      if last.TookStatus? && last.port == port then Word(last.word) else LastStatus(past, port)
  }

  /** The last extended status word decoded for a port. */
  function LastExtStat(h: History<Access>, port: nat): Word {
    match h
    case Start => NoWord
    case Then(past, last) =>
      if last.TookExtStat? && last.port == port then Word(last.word) else LastExtStat(past, port)
  }

  /** A row shows these two words, bit by bit; without words, what a new interface shows. */
  predicate ShowsBits(row: PortEntry, status: Word, extstat: Word) {
    && (row.linkUp <==> status.Word? && status.bits & 4 != 0)
    && (row.fullDuplex <==> (extstat.Word? ==> extstat.bits & 0x20 != 0))
    && (row.speed == Speed10M <==> (extstat.Word? ==> extstat.bits & 0x18 == 0))
    && (row.speed == Speed100M <==> extstat.Word? && extstat.bits & 0x18 == 0x08)
    && (row.speed == Speed1000M <==> extstat.Word? && extstat.bits & 0x18 == 0x10)
    && (row.speed == Speed10G <==> extstat.Word? && extstat.bits & 0x18 == 0x18)
  }

  /** What the table should say about a port polled so. */
  function Latest(polls: seq<PortEntry>): PortEntry {
    if polls == [] then INITIAL_ENTRY else polls[|polls| - 1]
  }

  function Links(polls: seq<PortEntry>): seq<bool> {
    seq(|polls|, i requires 0 <= i < |polls| => polls[i].linkUp)
  }

  // ---------------------------------------------------------------- link changes

  /** The values at which a sequence of link bits changes, for a link that starts down. */
  function Changes(bits: seq<bool>): seq<bool> {
    if bits == [] then []
    else
      var n := |bits| - 1;
      if bits[n] != (n > 0 && bits[n - 1]) then Changes(bits[..n]) + [bits[n]] else Changes(bits[..n])
  }

  /** The messages a port polled so should have caused. */
  function EdgeLog(port: nat, polls: seq<PortEntry>): seq<Message> {
    if polls == [] then []
    else
      var n := |polls| - 1;
      if polls[n].linkUp != Latest(polls[..n]).linkUp
      then EdgeLog(port, polls[..n]) + [MessageFor(port, polls[n])]
      else EdgeLog(port, polls[..n])
  }

  /** The whole log, in order: one message for every completed poll that found the link of its
    port different from the poll of that port before. */
  function ExpectedLog(h: History<Access>): History<Message> {
    match h
    case Start => Start
    case Then(past, _) =>
      var s := CompletedPoll(h);
      if s.Sample? && s.entry.linkUp != Latest(Polls(past, s.port)).linkUp
      then Then(ExpectedLog(past), MessageFor(s.port, s.entry))
      else ExpectedLog(past)
  }

  /** The polls that found the link different from the poll before, the first from "down". */
  ghost predicate ChangesAt(polls: seq<PortEntry>, i: nat) {
    i < |polls| && polls[i].linkUp != (i > 0 && polls[i - 1].linkUp)
  }

  function ChangePoints(polls: seq<PortEntry>): (points: seq<nat>)
    ensures forall k :: 0 <= k < |points| ==> points[k] < |polls|
  {
    if polls == [] then []
    else
      var n := |polls| - 1;
      if polls[n].linkUp != Latest(polls[..n]).linkUp then ChangePoints(polls[..n]) + [n] else ChangePoints(polls[..n])
  }

  /** The change points are all of those polls, in order. */
  lemma {:induction false} ChangePointsAreChanges(polls: seq<PortEntry>)
    ensures forall i :: i in ChangePoints(polls) <==> ChangesAt(polls, i)
    ensures forall k, l :: 0 <= k < l < |ChangePoints(polls)| ==> ChangePoints(polls)[k] < ChangePoints(polls)[l]
  {
    if polls == [] {
    } else {
      var n := |polls| - 1;
      ChangePointsAreChanges(polls[..n]);
      assert forall i :: 0 <= i < n ==> (ChangesAt(polls, i) <==> ChangesAt(polls[..n], i));
      assert ChangesAt(polls, n) <==> polls[n].linkUp != Latest(polls[..n]).linkUp;
    }
  }

  /** A message list that reports these change points of a port one by one: "up" with the speed of
    that poll, or "down". */
  predicate Reports(ms: seq<Message>, port: nat, polls: seq<PortEntry>, points: seq<nat>) {
    && |ms| == |points|
    && forall k :: 0 <= k < |ms| ==>
         && points[k] < |polls|
         && ms[k] == if polls[points[k]].linkUp then LinkUp(port, polls[points[k]].speed) else LinkDown(port)
  }

  lemma {:induction false} EdgeLogReports(port: nat, polls: seq<PortEntry>)
    ensures Reports(EdgeLog(port, polls), port, polls, ChangePoints(polls))
  {
    if polls == [] {
    } else {
      EdgeLogReports(port, polls[..|polls| - 1]);
    }
  }

  /** The LED mode of the PHY paired with a port polled so. */
  function LedAfter(initial: bv16, polls: seq<PortEntry>): bv16 {
    if polls == [] then initial
    else
      var n := |polls| - 1;
      if polls[n].linkUp != Latest(polls[..n]).linkUp
      then LedMode(polls[n].linkUp, polls[n].speed)
      else LedAfter(initial, polls[..n])
  }

  /** What one more poll adds. */
  lemma AppendPoll(port: nat, polls: seq<PortEntry>, e: PortEntry, initial: bv16)
    ensures var more := polls + [e];
            var changed := e.linkUp != Latest(polls).linkUp;
            && Latest(more) == e
            && Links(more) == Links(polls) + [e.linkUp]
            && EdgeLog(port, more)
               == (if changed then EdgeLog(port, polls) + [MessageFor(port, e)] else EdgeLog(port, polls))
            && LedAfter(initial, more)
               == (if changed then LedMode(e.linkUp, e.speed) else LedAfter(initial, polls))
  {
    assert (polls + [e])[..|polls|] == polls;
  }

  /** The messages about one port, oldest first. */
  function Messages(log: History<Message>, port: nat): seq<Message> {
    match log
    case Start => []
    case Then(past, m) => if m.port == port then Messages(past, port) + [m] else Messages(past, port)
  }

  /** The ups and downs of a message list. */
  function Ups(ms: seq<Message>): seq<bool> {
    seq(|ms|, i requires 0 <= i < |ms| => ms[i].LinkUp?)
  }

  function Downs(log: History<Message>, port: nat): nat {
    match log
    case Start => 0
    case Then(past, m) => Downs(past, port) + if m == LinkDown(port) then 1 else 0
  }

  /** A message list that starts with "up" and alternates; `EdgeLog` always is one, and ends in
    "up" exactly when the last poll found the link up. */
  ghost predicate Alternates(ms: seq<Message>) {
    forall i :: 0 <= i < |ms| ==> ms[i].LinkUp? == (i % 2 == 0)
  }

  lemma AlternatesExtended(ms: seq<Message>, m: Message)
    requires Alternates(ms) && m.LinkUp? == (|ms| % 2 == 0)
    ensures Alternates(ms + [m])
  {
  }

  lemma {:induction false} EdgeLogAlternates(port: nat, polls: seq<PortEntry>)
    ensures Alternates(EdgeLog(port, polls))
    ensures (|EdgeLog(port, polls)| % 2 == 1) == Latest(polls).linkUp
  {
    if polls == [] {
    } else {
      var n := |polls| - 1;
      EdgeLogAlternates(port, polls[..n]);
      if polls[n].linkUp != Latest(polls[..n]).linkUp {
        AlternatesExtended(EdgeLog(port, polls[..n]), MessageFor(port, polls[n]));
      }
    }
  }

  lemma LastMessageIsUp(port: nat, polls: seq<PortEntry>, ms: seq<Message>)
    requires ms == EdgeLog(port, polls) && Latest(polls).linkUp
    ensures ms != [] && ms[|ms| - 1].LinkUp?
  {
    EdgeLogAlternates(port, polls);
  }

  lemma {:induction false} EdgeLogIsChanges(port: nat, polls: seq<PortEntry>)
    ensures Ups(EdgeLog(port, polls)) == Changes(Links(polls))
  {
    if polls == [] {
    } else {
      var n := |polls| - 1;
      EdgeLogIsChanges(port, polls[..n]);
      assert Links(polls)[..n] == Links(polls[..n]);
    }
  }

  /** A link bit that belongs to no completed poll yet is at most one more change. */
  lemma PendingChange(port: nat, polls: seq<PortEntry>, bit: bool)
    ensures Ups(EdgeLog(port, polls)) + (if bit != Latest(polls).linkUp then [bit] else [])
            == Changes(Links(polls) + [bit])
  {
    EdgeLogIsChanges(port, polls);
    assert (Links(polls) + [bit])[..|polls|] == Links(polls);
  }

  // ---------------------------------------------------------------- the bus

  /** Every word the poll task took was the answer to its own read of that register of that PHY:
    issue, answer and consumption follow each other on the bus with nothing between them. And
    once the poll task has issued a read, nothing uses the bus before it is answered. */
  ghost predicate Matched(h: History<BusOp>) {
    match h
    case Start => true
    case Then(past, op) =>
      && Matched(past)
      && (op.Consumed? ==>
            exists before :: past == Then(Then(before, Issued(op.cmd)), Answered(op.cmd, op.word)))
      && (past.Then? && past.last.Issued? ==> op.Answered? && op.cmd == past.last.cmd)
  }

  datatype Reading = Reading(cmd: Command, word: bv32)

  function ConsumedReadings(h: History<BusOp>): seq<Reading> {
    match h
    case Start => []
    case Then(past, op) =>
      if op.Consumed? then ConsumedReadings(past) + [Reading(op.cmd, op.word)] else ConsumedReadings(past)
  }

  function DecodedReadings(h: History<Access>): seq<Reading> {
    match h
    case Start => []
    case Then(past, TookStatus(p, w)) => DecodedReadings(past) + [Reading(Command(REG_BASIC_STATUS, p), w)]
    case Then(past, TookExtStat(p, w)) => DecodedReadings(past) + [Reading(Command(REG_VSC8512_AUX_CTRL_STAT, p), w)]
    case Then(past, _) => DecodedReadings(past)
  }
}
