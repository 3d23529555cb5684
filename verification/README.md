# LATENTRED line card bring-up firmware: a Dafny model

The firmware polls the 24 PHYs of a line card over one MDIO bus, one small step per pass of the
main loop. A CLI command uses the same bus: it spins on the line card's mutex and calls the poll
task itself until it gets it. Around that the CLI edits, commits and rolls back the hostname and
the SSH username, the SSH server loads or generates its host key at boot, and the CLI prints power
rails. This project models these parts and proves what they keep over every run.

## How the model is built

- `Mdio.dfy`: the command word of the bus, the fields of the registers, and the PHYs with their
  latching-low link bit (section 22.2.4.2.13 of IEEE Std 802.3).
- `PollModel.dfy`: poll task, mutex, bus, port table and CLI as a transition system over events. An
  event is one indivisible piece of behaviour: a call of `Iteration` with or without a tick, a wire
  change, the moment the pending bus access reaches its PHY, one turn of the CLI's spin loop, one
  access or the unlock of the CLI. An event that cannot happen leaves the state alone, so a run is
  any sequence of events.
- `PollRecord.dfy`: what should have happened, read off the records alone (completed polls, link
  changes, messages, LED modes, bus transactions). It does not look at the fields of the poll task.
- `PollInvariant.dfy`: the invariant, kept by every event. `PollSafety.dfy`, `PollLatch.dfy`,
  `PollRecovery.dfy`, `PollProgress.dfy`, `PollLiveness.dfy`: the results about every reachable state
  and every run.
- `LineCard.dfy`, `Board.dfy`: the objects of the firmware, updated in place. Each method's new state
  is proved equal to the function of `PollModel`, and `PortState.Valid` says that the objects are in
  the state reached on the events so far, so the results about runs hold for them.
- `CString.dfy`, `Kvs.dfy`, `Config.dfy`: `memset`, `strncpy`, the key-value store, and hostname and
  username in fixed buffers, proved against settings that are plain texts.
- `HostKeys.dfy`, `Power.dfy`: the host key at boot, and the arithmetic of a power rail.

## Assumptions about code and hardware outside the repository

- `TryLock` fails exactly when the mutex is held and takes it otherwise. Tasks are never preempted,
  so a CLI command runs to completion before another task or command starts.
- After a write to `cmd_addr`, `status` reads nonzero for an arbitrary finite number of polls; the
  access reaches its PHY at any moment before `status` reads zero; `data` then holds the reply.
- `MDIODevice::WriteRegister` and `GetTemperature` complete before they return. `GetTemperature`
  never reads a basic status register and writes no LED mode register.
- The link bit of a PHY reads low once after any loss of link, and low while the link is down. No
  other bit of a reply is assumed.
- The register block splits a command word into PHY address (low byte) and register (above).
- Register numbers 0 and 1 are those of IEEE Std 802.3; the numbers of the two VSC8512 registers and
  the order of the link speeds belong to headers that are not part of this model.
- A successful store of a string object makes a lookup with its default yield the value; a failed
  store changes nothing; other objects are not affected. `ReadObject` finds an object whenever its key
  exists, whatever its length.
- A public host key is a function of the private one, which one does not matter.

## Model

| member | source | states |
|---|---|---|
| Mdio.EncodeIdentifiesBothHalves | firmware/lcbringup/main/LatentRedPhyPollTask.cpp:75 | the command word `(reg << 8) \| phy` determines both the register and the PHY |
| Mdio.CommandWordIsSum | firmware/lcbringup/main/LatentRedPhyPollTask.cpp:75 | the command word is 256 times the register number plus the PHY address |
| Mdio.StatusBits | firmware/lcbringup/main/LatentRedPhyPollTask.cpp:86 | the link is up exactly when bit 2 of the status word is set |
| Mdio.ExtStatBits | firmware/lcbringup/main/LatentRedPhyPollTask.cpp:122-126 | for every word: 10M, 100M, 1000M, 10G exactly when `w & 0x18` is 0, 0x08, 0x10, 0x18; full duplex exactly when `w & 0x20` is not 0 |
| Mdio.XorOneIsPaired | firmware/lcbringup/main/LatentRedPhyPollTask.cpp:140 | the exclusive or with 1 on a 16-bit index below 24, as every index polled is, gives the even/odd pairing of ports |
| Mdio.PairingIsAnInvolution | firmware/lcbringup/main/LatentRedPhyPollTask.cpp:136-140 | the pairing maps 0..23 to itself, has no fixed point and is its own inverse, so no two ports write one LED register |
| Mdio.LedModeBits | firmware/lcbringup/main/LatentRedPhyPollTask.cpp:138-143 | bit 0x10 of the LED mode is set exactly for an up link at 10 or 100 Mbit/s; the other bits are fixed |
| Mdio.Reply | firmware/lcbringup/main/LatentRedPhyPollTask.cpp:84-86 | the link bit of a status reply is low when the link is down or a loss is latched; any other reply is the word of the hardware |
| Mdio.WithLinkBitBits | firmware/lcbringup/main/LatentRedPhyPollTask.cpp:84-86 | a reply carries the link in bit 2 and leaves the other bits of the word of the hardware alone |
| LineCards.CooperativeMutex.TryLock | firmware/lcbringup/main/PortState.h:82-83 | the mutex is held afterwards, and success means that it was free |
| LineCards.MdioBlock.ReadStatus | firmware/lcbringup/main/LatentRedPhyPollTask.cpp:82 | `status` is zero exactly when the access has been busy long enough, and then `data` is the reply of the addressed PHY |
| LineCards.PhyPollTask.OnTimer | firmware/lcbringup/main/LatentRedPhyPollTask.cpp:37-48 | field by field: a tick after the last PHY sets PHY 0, POLL_IDLE and a clear change flag, and counts; an earlier one changes nothing |
| LineCards.PhyPollTask.Iteration | firmware/lcbringup/main/LatentRedPhyPollTask.cpp:53-60 | the whole new state of task, mutex, table, bus and PHYs is that of the transition system |
| LineCards.PhyPollTask.PollPHYs | firmware/lcbringup/main/LatentRedPhyPollTask.cpp:62-157 | each of the four states makes exactly the transition of the transition system, or waits |
| LineCards.PhyPollTask.RequestMutex | firmware/lcbringup/main/LatentRedPhyPollTask.cpp:72-78 | in POLL_IDLE, with the mutex the status read of the current PHY is pending; without it nothing changes |
| LineCards.PhyPollTask.AwaitStatus | firmware/lcbringup/main/LatentRedPhyPollTask.cpp:80-97 | in POLL_STATUS the task waits, or makes the whole transition once the register is available |
| LineCards.PhyPollTask.AwaitCtrl | firmware/lcbringup/main/LatentRedPhyPollTask.cpp:99-115 | in POLL_CTRL the task waits, or asks for the extended status without using the control word |
| LineCards.PhyPollTask.AwaitExtStat | firmware/lcbringup/main/LatentRedPhyPollTask.cpp:117-152 | in POLL_EXT_STAT the task waits, or finishes the poll |
| LineCards.PhyPollTask.TakeBasicStatus | firmware/lcbringup/main/LatentRedPhyPollTask.cpp:84-95 | link bit and change flag of the current port are updated and the control read is pending |
| LineCards.PhyPollTask.TakeExtendedStatus | firmware/lcbringup/main/LatentRedPhyPollTask.cpp:120-150 | duplex, speed, message, LED mode, next PHY and unlock happen together |
| LineCards.PhyPollTask.ReportChange | firmware/lcbringup/main/LatentRedPhyPollTask.cpp:129-145 | one message for the port and the LED mode of the paired PHY |
| Boards.LineCardState.constructor | firmware/lcbringup/main/PortState.cpp:36-45 | each of the 24 ports starts down, full duplex, 10 Mbit/s; mutex free; task idle at PHY 0 |
| Boards.PortState.constructor | firmware/lcbringup/main/PortState.cpp:68-69 | only the task of line card 0 is scheduled; the board starts in the boot state of the transition system |
| Boards.PortState.RunTasks | firmware/lcbringup/main/LatentRedPhyPollTask.cpp:53-60 | a pass of the main loop adds to the trace some hardware events and then exactly one call of the poll task, and does not touch line card 1 |
| Boards.PortState.LockForCli | firmware/lcbringup/main/LatentRedCLISessionContext.cpp:748-750 | the spin loop ends with the CLI holding the mutex; no round restarts and the poll task does not take the mutex again |
| Boards.PortState.PrintLineCardInfo | firmware/lcbringup/main/LatentRedCLISessionContext.cpp:743-765 | the command is a run from its call to its unlock; it leaves the mutex free, the poll task between two polls, and starts no round |
| Boards.PortState.OnShowInterfaceStatus | firmware/lcbringup/main/LatentRedCLISessionContext.cpp:822-840 | without a lock, link, duplex and speed of a row of card 0 are bit 2, bit 5 and bits 3-4 of the last words decoded for that port; the row is its last completed poll, but for a newer link bit in the port being polled; card 1 shows down, full, 10 Mbit/s |
| PollInvariant.StepKeeps | firmware/lcbringup/main/LatentRedPhyPollTask.cpp:37-157 | every event keeps the invariant of mutex, counts, bus, table, log and LEDs |
| PollInvariant.TakeStatusKeeps | firmware/lcbringup/main/LatentRedPhyPollTask.cpp:81-97 | the status step keeps the invariant although it tears one table entry |
| PollInvariant.TakeExtStatKeeps | firmware/lcbringup/main/LatentRedPhyPollTask.cpp:117-152 | the last step of a poll keeps the invariant and mends the entry |
| PollInvariant.ReleaseCompletesPoll | firmware/lcbringup/main/LatentRedPhyPollTask.cpp:117-152 | a lock hold adds one result to the port polled in it and none to any other port |
| PollInvariant.ReachableInv | firmware/lcbringup/main/LatentRedPhyPollTask.cpp:37-157 | the invariant holds in every state of every run |
| PollSafety.LogIsLinkChanges | firmware/lcbringup/main/LatentRedPhyPollTask.cpp:81-151 | per port, messages are exactly the change points of the sampled link bits from "down", with at most one still pending, and alternate from "up" |
| PollSafety.MessagesReportChanges | firmware/lcbringup/main/LatentRedPhyPollTask.cpp:128-134 | the k-th message of a port reports the k-th poll that found its link different from the poll before: "up" with the speed found by that poll, or "down" |
| PollSafety.LogIsCompleteAndOrdered | firmware/lcbringup/main/LatentRedPhyPollTask.cpp:128-134 | the whole log, in order and across ports, is the one that the completed polls call for, although one flag serves all ports |
| PollRecord.EdgeLogAlternates | firmware/lcbringup/main/LatentRedPhyPollTask.cpp:90-91 | such a log alternates and ends in "up" exactly when the link was last seen up |
| PollRecord.EdgeLogIsChanges | firmware/lcbringup/main/LatentRedPhyPollTask.cpp:128-134 | the ups and downs of the log are the change points of the link bits |
| PollRecord.ChangePointsAreChanges | firmware/lcbringup/main/LatentRedPhyPollTask.cpp:90 | the change points are all polls that differ in the link from the poll before, the first from "down", in order |
| PollRecord.EdgeLogReports | firmware/lcbringup/main/LatentRedPhyPollTask.cpp:128-134 | such a log has one message per change point, with the speed of that poll |
| PollSafety.MutexFollowsState | firmware/lcbringup/main/LatentRedPhyPollTask.cpp:37-151 | the mutex is held exactly inside a poll or by the CLI, never by both; past PHY 23 the task is idle; a tick never abandons a held lock |
| PollSafety.CountsAddUp | firmware/lcbringup/main/LatentRedPhyPollTask.cpp:42-47 | polls are 24 per accepted tick plus the current PHY, reads three per poll plus the state's index, locks exceed unlocks by one exactly inside a poll; and so per port |
| PollSafety.DecodedWordsAreOwnReplies | firmware/lcbringup/main/LatentRedPhyPollTask.cpp:72-121 | every decoded word answers the task's own read of that register of that port, with no other transaction between issue and use; the pending read is of register 1, 0 or the auxiliary one, by state |
| PollSafety.TableTornInOnePort | firmware/lcbringup/main/LatentRedCLISessionContext.cpp:822-840 | every entry is the decode of one lock hold, except the link bit of the port in CTRL or EXT_STAT |
| PollSafety.TableShowsLastWords | firmware/lcbringup/main/LatentRedPhyPollTask.cpp:84-126 | in every reachable state each row shows, bit by bit, the last status word and the last extended status word decoded for its port |
| PollSafety.LedsFollowPairedPort | firmware/lcbringup/main/LatentRedPhyPollTask.cpp:136-145 | each LED register is the boot value or the mode of the paired port at its last link change |
| PollSafety.PollsAreRoundRobin | firmware/lcbringup/main/LatentRedPhyPollTask.cpp:42-47 | the i-th completed poll is of port i mod 24, whatever ticks arrive |
| PollSafety.PollsAreFair | firmware/lcbringup/main/LatentRedPhyPollTask.cpp:148 | between two consecutive polls of a port every other port is polled exactly once |
| PollSafety.CardWithoutMdioNeverPolls | firmware/lcbringup/main/PortState.cpp:36-45 | without an MDIO block no run makes a poll step, and all ports stay as constructed |
| PollLatch.NoLossUnlogged | firmware/lcbringup/main/LatentRedPhyPollTask.cpp:84-91 | a port last seen up, in the table or in a status word not yet used, that loses its link at any moment is logged down by the next poll that reads its status afterwards, even if the link has recovered |
| PollLatch.LossLoggedWithinTwoRounds | firmware/lcbringup/main/LatentRedPhyPollTask.cpp:81-151 | that message is in the log once 48 more polls are complete |
| PollLatch.NoFalseLoss | firmware/lcbringup/main/LatentRedPhyPollTask.cpp:84-91 | while the link of a port stays up, nothing logs it down |
| PollRecovery.RecoveryLogged | firmware/lcbringup/main/LatentRedPhyPollTask.cpp:81-134 | if a link is up and stays up, then after two polls that sample it afterwards the table says up and the last message of the port is "up"; one poll may go to the latch |
| PollProgress.SpinTurn | firmware/lcbringup/main/LatentRedCLISessionContext.cpp:749-750 | one turn of the spin loop advances one state or waits one poll less, whether or not the timer fires |
| PollProgress.SpinProgress | firmware/lcbringup/main/LatentRedCLISessionContext.cpp:748-750 | after any events of a spin either the CLI has had the mutex or every try so far has used up part of the rank |
| PollProgress.SpinTerminates | firmware/lcbringup/main/LatentRedCLISessionContext.cpp:748-750 | from every reachable state the CLI gets the mutex within its rank of turns (3 + 3d at most), with at most three advances, no new round and no new lock by the task |
| PollProgress.RoundFinishes | firmware/lcbringup/main/LatentRedPhyPollTask.cpp:62-157 | from any state of a round it completes within its rank of iterations, whoever calls them |
| PollProgress.RoundBound | firmware/lcbringup/main/LatentRedPhyPollTask.cpp:62-157 | a round takes at most 24 * (4 + 3d) iterations when no access is busy for more than d polls |
| PollLiveness.TickStartsRound | firmware/lcbringup/main/LatentRedPhyPollTask.cpp:37-78 | in any reachable state past the last PHY with no CLI command running, a tick counts, and the same call takes the mutex and asks for register 1 of PHY 0 |
| PollLiveness.EarlyTickIsIgnored | firmware/lcbringup/main/LatentRedPhyPollTask.cpp:39-42 | while a round is under way, an iteration with a tick is an iteration without one |
| PollLiveness.RoundCompletes | firmware/lcbringup/main/LatentRedPhyPollTask.cpp:62-157 | from any state, the round under way is complete after 24 * (4 + 3d) iterations by anyone |
| PollLiveness.PollingGoesOn | firmware/lcbringup/main/LatentRedPhyPollTask.cpp:37-157 | from any reachable state, n periods of a tick and 24 * (4 + 3d) iterations complete at least 24 * (n - 1) more polls; three complete 48 |
| PollLiveness.LossLoggedWithinThreePeriods | firmware/lcbringup/main/LatentRedPhyPollTask.cpp:37-151 | so a loss of a link last seen up is in the log after three such periods |
| CStrings.Strncpy | firmware/lcbringup/main/LatentRedCLISessionContext.cpp:381 | byte by byte: the text up to its first NUL or n bytes, zeros up to n bytes, the rest of the buffer as before |
| CStrings.CStrOfPadded | firmware/lcbringup/main/LatentRedCLISessionContext.cpp:307 | a padded buffer reads back as its text |
| Config.Switch.LoadHostname | firmware/lcbringup/main/LatentRedCLISessionContext.cpp:311-321 | the session's buffer is the saved hostname, cut to 32 bytes, or "switch", and zeros to its end |
| Config.Switch.LoadUsername | firmware/lcbringup/main/LatentRedSSHTransportServer.cpp:96-106 | the global buffer is the saved username, cut to 31 bytes, or "admin", and zeros to its end |
| Config.Switch.OnHostname | firmware/lcbringup/main/LatentRedCLISessionContext.cpp:379-382 | the 33 bytes of the buffer are the text and zeros, or its first 32 bytes and a NUL; no other session is touched |
| Config.Switch.OnUsername | firmware/lcbringup/main/LatentRedCLISessionContext.cpp:905-911 | the 32 bytes of the buffer are the text and zeros, or its first 31 bytes and a NUL: no residue of a longer name, although it is not cleared first |
| Config.HostnameIsLastEdit | firmware/lcbringup/main/LatentRedCLISessionContext.cpp:379-382 | after an edit and any later actions that do not set the hostname of that session, its buffer shows the text of that edit cut to 32 bytes |
| Config.UsernameIsLastEdit | firmware/lcbringup/main/LatentRedCLISessionContext.cpp:905-911 | the same for the username, cut to 31 bytes |
| Config.Switch.SaveHostname | firmware/lcbringup/main/LatentRedCLISessionContext.cpp:433-434 | after a successful store a lookup with the default gives the C string of the buffer; a failed one changes nothing that is saved |
| Config.Switch.SaveUsername | firmware/lcbringup/main/LatentRedCLISessionContext.cpp:436-437 | the same for the username, without a change of the hostname saved before |
| Config.Switch.OnCommit | firmware/lcbringup/main/LatentRedCLISessionContext.cpp:430-437 | each field whose store succeeds is saved as shown; a failed one stays as it was saved before |
| Config.Switch.OnRollback | firmware/lcbringup/main/LatentRedCLISessionContext.cpp:570-579 | the session's hostname and the username become what is saved |
| Config.StoredTextLoads | firmware/lcbringup/main/LatentRedCLISessionContext.cpp:318 | a text that fits the cap of its edit survives a store and a load unchanged |
| Config.HostnameIsLastSaved | firmware/lcbringup/main/LatentRedCLISessionContext.cpp:430-437 | over any run of any sessions, the saved hostname is that of the last stored commit by anyone, the default after a removal, or what was saved at the start |
| Config.UsernameIsLastSaved | firmware/lcbringup/main/LatentRedCLISessionContext.cpp:430-437 | the same for the username, which is one buffer for all sessions |
| Config.RollbackRestoresCommit | firmware/lcbringup/main/LatentRedCLISessionContext.cpp:570-579 | after a commit by any session and any actions of others that save nothing, rollback in any session shows what was committed |
| HostKeys.HostKeyServer.InitHostKey | firmware/lcbringup/main/LatentRedSSHTransportServer.cpp:51-76 | both halves found are the active pair as they are and nothing is stored; otherwise a new pair is active, each half is stored or not, and if both stores work the stored pair is the new one |
| HostKeys.InconsistentExactlyIf | firmware/lcbringup/main/LatentRedSSHTransportServer.cpp:51-76 | over any boots, failed stores, wipes and removals: the stored halves do not match if and only if a boot replaced only one half next to a leftover of another pair and no half has been lost since |
| HostKeys.ActivePairMatchesExactlyIf | firmware/lcbringup/main/LatentRedSSHTransportServer.cpp:61-65 | the pair active after a boot matches if and only if that has not happened before it |
| HostKeys.AlwaysConsistentExactlyIf | firmware/lcbringup/main/LatentRedSSHTransportServer.cpp:51-76 | the stored halves match all the time if and only if no boot does that |
| HostKeys.ActivePairMatches | firmware/lcbringup/main/LatentRedSSHTransportServer.cpp:51-76 | without such a boot every active pair is a matching pair |
| HostKeys.WorkingStoresNeverMix | firmware/lcbringup/main/LatentRedSSHTransportServer.cpp:72-75 | a boot whose two stores both work, or both fail, never does that |
| HostKeys.EstablishedPairStays | firmware/lcbringup/main/LatentRedSSHTransportServer.cpp:61-65 | a pair that a boot found or stored is the pair of every later boot until a half is lost, whether or not stores would work then |
| HostKeys.LeftoverHalfCanMismatch | firmware/lcbringup/main/LatentRedSSHTransportServer.cpp:56-75 | a concrete run in which a failed store makes the next boot use a pair that does not match |
| Power.VoltageFits | firmware/lcbringup/main/LatentRedCLISessionContext.cpp:788-799 | the voltage fits 16 bits exactly for raw words up to 52428; the current always fits 15 bits |
| Power.ConversionsAreExact | firmware/lcbringup/main/LatentRedCLISessionContext.cpp:788-814 | for every raw word b the voltage is 5b/4 mV and the current b/2 mA, rounded down; both are 0 without a reply |
| Power.PrintedPowerIsClose | firmware/lcbringup/main/LatentRedCLISessionContext.cpp:779-786 | for raw words b and c: the product stays below 2^31, and the shown power never exceeds 1.25b mV times 0.5c mA and falls short by less than 1 + (v + i + 1)/1000 mW |

## Where the code differs from its comments

- The comments above `Iteration` and `OnTimer` both say "Restart a poll cycle"; `Iteration` also runs
  the poll step. The model follows the code.
- The control register is read but its value is not used (the decoding is commented out), so it has
  no place among the decoded words.
- The first round starts at boot without a tick.

## Left out

- Boards.PortState.PrintLineCardInfo: only line card 0, the one the CLI passes; I2C transfers and printed text are not modelled.
- Boards.PortState.OnShowInterfaceStatus: link, duplex and speed only; interface names and column text are not modelled.
- Config.Switch.OnCommit: hostname and username only; SSH keys, NTP and IP settings go through libraries that are not part of this model.
- Config.Switch.OnRollback: hostname and username only, for the same reason.
- Config.Switch.constructor: hostname buffers start as zeros, although a session object is not initialised before it loads its hostname.
- Power.VoltageFits: exact rationals, as for the next line.
- Power.PrintedPowerIsClose: exact rationals; the rounding of `float` and `double` is not modelled.
- LineCards.PhyPollTask.Iteration: when the timer of the base class fires is arbitrary, because the base class is not part of this model.
- The key material, its size and the fingerprint: the crypto engine is not part of this model.
- SSH transport, TCP and UDP dispatch, iperf, NTP, IP configuration: thin switches over libraries that are not part of this model.
- Command keywords and the other show commands: tables and text output.
- `FPGATask`, `ButtonTask`, `LEDTask`: small edge detectors that would add only easy members.
- Power and reset sequencing of the supervisor: its engine is not part of this model.
- Hardware bring-up, pin tables, vector tables, linker scripts, board design files and RTL.
