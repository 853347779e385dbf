# The bypass-NIC driver, modelled and verified

This project models `install/packaging/bpctl/bp_mod.c`, the Linux driver for bypass network cards,
with its constant headers, and proves what the driver's protocols keep over whole runs. A bypass card
pairs two Ethernet ports; a microcontroller on it (the PIC) decides whether the ports are connected to
the host, to each other, or to nothing, and falls back to a programmed mode when a watchdog is not
kicked in time. The driver talks to the PIC by switching two pins of the network controller.

| file | what it holds |
|---|---|
| `Options` | a value that may be missing |
| `Bits` | bytes, powers of two, most-significant-bit-first order |
| `Pic` | the PIC as a decoder of the two wires with sixteen registers and a log |
| `Runs` | any sequence of bus calls as a train of clock edges: decoding, unique decoding, reads after writes |
| `Pins`, `Wires` | seven hardware variants as tables of masked register writes; the same wire signals from all of them |
| `Device`, `Bus`, `BusRun` | the device object with the recorded history of its watchdog; the bus functions, interruptible by the auto-reset timer at every register access |
| `Watchdog`, `Clock`, `Timeout` | status machine, tick arithmetic with wrap and truncation, timeout rounding and its descriptor |
| `WdHistory`, `AutoReset` | runs of the status machine; runs of the auto-reset timer against the watchdog |
| `Codes`, `Commands`, `Brackets`, `Caps` | the command layer, the stream it sends, and the capability words it starts from |
| `Card`, `CardCalls`, `CardUndo`, `CardRuns` | what the commands tell the card: single calls, their opposites, and runs of calls over the bus |
| `WdAgreement`, `ExpMode` | settings written and read back through the bus |
| `PhyLock`, `PhyAccess` | the two-level PHY lock as a system of any number of ports and the firmware; the bp75 functions as one port runs them |
| `Ports`, `Legacy`, `Intel`, `Tpl` | port pairing, the unary interface of the oldest parts, the Intel nibble interface, the software two-port link |

Conventions. The build is the one with the busy flag: `BP_SYNC_FLAG`, `BP_SELF_TEST`, `BPVM_KVM` and
`BYPASS_DEBUG` off. (The shipped Makefile switches `BP_SYNC_FLAG` on, which replaces the flag by a lock
with interrupts disabled; nothing can then come between the steps of a frame, a special case of what is
proved here.) Time is the tick counter; the clock advances, and the timer fires, any number of times in
`Preempt`. The levels on the wires follow from data and direction bits: push-pull where the part has a
direction bit, open drain where it has not, and the PIC lets go of MDIO when MCLK falls. The PIC's
effects beyond its register file are assumptions with a name: `WdAgreement.Obeyed` for the watchdog's
registers, and `Card.Act`, written on the numbers of the command codes, for what each of them tells the
card.

Where comments and code disagree the code is followed: `RD_CMD_VAL` is 1, so a read frame carries 01 and
not the 10 of the comment beside it (bypass.h:45).

Things found that a maintainer may want to know, each with its proof below: a query later than 2^31 ms
after an interval has run out misses the expiry; auto-reset protects exactly up to a bound on HZ, period,
bus load and what the watchdog has already run, and a wdt_on needs an interval with room for the ticks it
takes as well, because a timer that fires while it switches the watchdog on sends no kick and sleeps for
a whole period; a query interrupted by the timer's kick returns more than the interval, and far more with
an HZ of 300; an Intel board takes the request to switch auto-reset off for its shortest period and goes
on; the wait-at-power-up and hardware-reset settings are reported as done on firmware before version 8,
to which nothing is sent; `reset_cont_fn` leaves a bracket open and the disconnect-port commands have
none; tap mode does not read back while the disconnect flag is set; a 10G9 pair at bus 0 and slot 0 of
its own addressing, listed behind a port of another family, is not found from its slave port; an Intel
board without its partner port reports a watchdog it never set; and only the link between two
capabilities keeps a user from darkening both transmitters for good.

## Model

| member | source | states |
|---|---|---|
| Bits.ShiftRoundTrip | install/packaging/bpctl/bp_mod.c:448-475 | shifting the low bits of any value out highest first and reading the wire as a number gives the value modulo the width |
| Pic.WriteFrame | install/packaging/bpctl/bp_mod.c:809-937 | the sixteen bits of a write frame, clocked into an idle PIC, store the byte at the address and log one write, nothing else |
| Pic.ReadHeader | install/packaging/bpctl/bp_mod.c:1053-1058 | the eight host-driven bits of a read frame leave the PIC waiting for the turnaround with the address |
| Pic.ShiftsOut | install/packaging/bpctl/bp_mod.c:653-807 | whatever MDIO shows during the data clocks of a read, the PIC ends idle and logs the byte it held |
| Runs.RunDecodes | install/packaging/bpctl/bp_mod.c:448-1310 | for every sequence of writes, reads and kicks the decoder's registers and log are what the calls mean; a kick never starts or extends a frame |
| Runs.UniqueDecoding | install/packaging/bpctl/bp_mod.c:448-1310 | two sequences of calls that give the same edges are the same sequence |
| Runs.EdgeCounts | install/packaging/bpctl/bp_mod.c:809-1310 | a write takes 16 rising edges, a read 17, a kick 1 |
| Runs.ReadSeesLastWrite | install/packaging/bpctl/bp_mod.c:809-1152 | a read anywhere in a run reports the last byte the run wrote to its address |
| Wires.DriveConfined | install/packaging/bpctl/bp_mod.c:448-651 | the set and clear masks of every data-and-clock write of every variant lie within that variant's pins |
| Wires.TurnAroundConfined | install/packaging/bpctl/bp_mod.c:1060-1094 | the same for the turnaround writes |
| Wires.ReadClockConfined | install/packaging/bpctl/bp_mod.c:653-807 | the same for the clock writes of a read |
| Wires.WriteKeepsOtherBits | install/packaging/bpctl/bp_mod.c:448-937 | one masked write over a base read earlier changes no bit outside the pins, and the bases stay good |
| Wires.ActKeepsOtherBits | install/packaging/bpctl/bp_mod.c:448-937 | a step written over bases read earlier leaves every other bit of every register unchanged, and the bases stay good |
| Wires.DriveLevels | install/packaging/bpctl/bp_mod.c:448-651 | after a step both wires have the levels asked for, whatever the registers and bases held, in all seven encodings |
| Wires.TurnAroundLevels | install/packaging/bpctl/bp_mod.c:1060-1094 | the turnaround raises MCLK and, except on the 540, releases MDIO |
| Wires.ReadClockLevels | install/packaging/bpctl/bp_mod.c:653-807 | during a read the driver owns MCLK and the PIC owns MDIO |
| Wires.StepIsOneEdge | install/packaging/bpctl/bp_mod.c:448-651 | the one or two writes of a step, data before clock, are one change of the wires for the PIC |
| Wires.DriveSeen | install/packaging/bpctl/bp_mod.c:448-651 | one data-and-clock step of any variant is, for the PIC, exactly the edge and level asked for |
| Wires.VariantsAgree | install/packaging/bpctl/bp_mod.c:448-651 | the same levels driven through any two variants leave the PIC in the same state |
| Bus.WritePulse | install/packaging/bpctl/bp_mod.c:448-651 | under timer interference the PIC is clocked exactly the bits of the value |
| Bus.ReadPulse | install/packaging/bpctl/bp_mod.c:653-807 | under timer interference the byte the PIC shifts out is the byte returned |
| Bus.WriteReg | install/packaging/bpctl/bp_mod.c:809-937 | one write frame reaches the PIC after all it has seen, with only kicks of the timer before it; the watchdog is looked at before and, for commands of old parts, restarted after the frame; nothing is sent by a 10G9 without its partner |
| Bus.ReadReg | install/packaging/bpctl/bp_mod.c:944-1152 | one read frame, only kicks of the timer before it, the stored byte returned and nothing stored; -1 for a 10G9 without its partner |
| Bus.WdtPulse | install/packaging/bpctl/bp_mod.c:1154-1310 | one kick and no frame, or -1 and nothing at all while a frame is in progress |
| Bus.WdtTimeLeft | install/packaging/bpctl/bp_mod.c:2729-2755 | -1 iff the watchdog is then expired, 0 if it is off or unknown, and for an enabled one the rest of the interval; one step is recorded |
| Bus.WdtTimer | install/packaging/bpctl/bp_mod.c:2757-2769 | refused without the capability or for an unknown watchdog, with nothing changed; else -1 iff expired, 0 if off, and for an enabled watchdog the exact condition of expiry and the exact rest |
| Bus.WdtTimerReload | install/packaging/bpctl/bp_mod.c:2771-2789 | kicks an enabled or expired watchdog, refuses an unknown one, leaves a disabled one alone |
| Bus.WdResetTimer | install/packaging/bpctl/bp_mod.c:2792-2828 | while a frame is in progress no pin changes and the timer is due again next tick; else a new period, and exactly one kick unless the watchdog is off or unknown |
| Bus.Preempt | install/packaging/bpctl/bp_mod.c:2792-2828 | any number of timer runs between two register accesses changes nothing while the busy flag is up; otherwise it adds kicks after all the PIC has seen, no more than the timer ran |
| Bus.OpenBus | install/packaging/bpctl/bp_mod.c:809-876 | raising the flag before the first access, and parking both wires, leaves the PIC ready for a frame, whatever the timer did before |
| Bus.DrivePins | install/packaging/bpctl/bp_mod.c:448-651 | a step inside a call, with the timer firing before each of its writes |
| Bus.TurnBus | install/packaging/bpctl/bp_mod.c:1060-1094 | the turnaround clock makes the PIC pick up the addressed byte |
| Bus.ReadBit | install/packaging/bpctl/bp_mod.c:653-807 | one pass of the read loop returns the level the PIC left on MDIO after the rising edge |
| BusRun.PerformAll | install/packaging/bpctl/bp_mod.c:809-1310 | frame integrity: any run of calls, interrupted anywhere, gives the PIC the frames and kicks of the uninterrupted run, all and in order, with only kicks of the timer put in, no more than it ran; the registers and read values are those of that run, and with an idle timer so is the log |
| BusRun.AddedKeeps | install/packaging/bpctl/bp_mod.c:809-1310 | kicks put in change no frame and no order of frames, and with none put in the log is the run |
| Watchdog.DeltaIsElapsed | install/packaging/bpctl/bp_mod.c:2741 | the computed delta is the true number of ticks, or exactly one less once the counter has wrapped |
| Watchdog.DeltaMonotone | install/packaging/bpctl/bp_mod.c:2741 | later queries never measure less, not across the wrap either |
| Clock.MsecsNear | install/packaging/bpctl/bp_mod.h:110-122 | each of the three HZ branches is within one millisecond of 1000 j / HZ |
| Clock.MsecsInRange | install/packaging/bpctl/bp_mod.h:110-122 | in a stated range no step of the conversion overflows |
| Clock.MsecsMonotone | install/packaging/bpctl/bp_mod.h:110-122 | the conversion is monotone for every HZ |
| Clock.QueryExact | install/packaging/bpctl/bp_mod.c:2729-2755 | a query of an enabled watchdog returns -1 iff it leaves it expired iff the measured time exceeds the interval by at most 2^31 ms; else the rest of the interval |
| Clock.QueryValue | install/packaging/bpctl/bp_mod.c:2729-2755 | for every status: -1 iff the query leaves the watchdog expired, 0 when off or unknown, and only an enabled one is changed |
| Clock.LateQueryMissesExpiry | install/packaging/bpctl/bp_mod.c:2741-2747 | beyond that the 32-bit result wraps and the watchdog reads as running |
| Clock.TimeLeftFalls | install/packaging/bpctl/bp_mod.c:2729-2755 | between restarts the time left never grows, stays in [0, interval] while enabled, and expiry is not undone |
| Clock.TimeLeftAccurate | install/packaging/bpctl/bp_mod.c:2729-2755 | the time left is true to one millisecond and one tick |
| Clock.InterruptedQuery | install/packaging/bpctl/bp_mod.c:2733-2743 | if the timer restarts the watchdog some ticks later between the two reads of a query, then with an HZ that divides 1000 the value is more than the interval by those ticks and one, and the watchdog stays on |
| Clock.InterruptedQueryMisleads | install/packaging/bpctl/bp_mod.h:110-122 | with HZ 300 the value of such a query is seventeen days for an interval of 100 ms |
| WdHistory.StatusIsHistory | install/packaging/bpctl/bp_mod.c:2729-2789 | after wdt_on the status is expired iff some call looked at the clock when the last refresh before it was overdue; else it counts from the last refresh |
| WdHistory.OnSwitches | install/packaging/bpctl/bp_mod.c:1933-1976 | wdt_on, whatever the timer and its own write do between its beginning and its end, enables the watchdog with the rounded interval counted from the beginning |
| WdHistory.SwitchedOn | install/packaging/bpctl/bp_mod.c:1933-1976 | for whole runs: whatever went before, wdt_on starts a fresh history |
| WdHistory.SwitchedOff | install/packaging/bpctl/bp_mod.c:1911-1925 | after wdt_off only wdt_on makes the watchdog anything but off |
| WdHistory.QueriesTellHistory | install/packaging/bpctl/bp_mod.c:2729-2755 | after wdt_on a query returns -1 iff some call, itself included, caught the watchdog late, and so does every later one until the next switch |
| WdHistory.QueriesAfterOff | install/packaging/bpctl/bp_mod.c:2729-2755 | after wdt_off every query until wdt_on returns 0 |
| WdHistory.KeptOtherwise | install/packaging/bpctl/bp_mod.c:2729-2789 | kicks, writes and queries never leave the expired, disabled or unknown status |
| Device.ChangeIsPlay | install/packaging/bpctl/bp_mod.c:809-1976 | whatever calls change the fields of a device, the change is the play of the steps they record, which every method keeps track of |
| Device.StatusTellsHistory | install/packaging/bpctl/bp_mod.c:2729-2789 | the status of a device is the history of its calls since wdt_on |
| Timeout.StepFor | install/packaging/bpctl/bp_mod.c:1957-1963 | the shift loop and its correction find the least step that covers the request as the hardware can, never less time than asked for and less than twice as much |
| Timeout.HighestBit | install/packaging/bpctl/bp_mod.c:1958-1960 | the shift loop counts to the highest bit of its argument |
| Timeout.RoundingCovers | install/packaging/bpctl/bp_mod.c:1957-1971 | for the request itself: up to 3276800 ms the interval is no shorter, from 100 ms on less than twice as long, 100 for anything shorter and 3276800 for anything longer; the step is at most 15 |
| Timeout.ServesOnce | install/packaging/bpctl/bp_mod.c:1957-1971 | only one step does that |
| Timeout.RoundingMonotone | install/packaging/bpctl/bp_mod.c:1957-1971 | a longer request never gets a shorter interval |
| Timeout.RoundingIdempotent | install/packaging/bpctl/bp_mod.c:1957-1971 | an interval the hardware has is kept |
| Timeout.WdtOnCommandIsSum | install/packaging/bpctl/bp_mod.c:1963-1968 | WDT_ON with the step or-ed in is WDT_ON plus the step, at most 0x1f, and the low nibble is the step |
| Timeout.WdSetCaps | install/packaging/bpctl/bp_mod.c:4244-4263 | the descriptor announces four step bits of doubling steps from 100 ms, on controlling ports that are not Intel's |
| Timeout.CapsDescribeIntervals | install/packaging/bpctl/bp_ioctl.h:73-80 | the intervals wdt_on can choose are those the descriptor decodes to, all of them and no others |
| AutoReset.NeverExpires | install/packaging/bpctl/bp_mod.c:2729-2828 | from any state of watchdog and timer: if the next stretch without a kick fits the interval, and every interval set on the way has room for a wdt_on and the longest gap, no run of ticks, fires, queries, kicks, set_bypass_wd_auto, wdt_off, and wdt_on with its beginning and end apart, ever finds the watchdog expired, counter wrap included |
| AutoReset.TooLongExpires | install/packaging/bpctl/bp_mod.c:2729-2828 | otherwise some legal run from that state does, for some value of the counter |
| AutoReset.AutoResetExact | install/packaging/bpctl/bp_mod.c:2729-2828 | so the bound is exact for a watchdog that is on, for every HZ, period, busy bound, interval and time a wdt_on may take, and every age of the last restart up to 2^31 ms, time to the next fire and count of misses |
| AutoReset.StartIsGuarded | install/packaging/bpctl/bp_mod.c:2729-2828 | every enabled watchdog under an armed timer whose reach fits the interval is such a state |
| AutoReset.WdtOnExact | install/packaging/bpctl/bp_mod.c:1933-1976 | the bound for wdt_on itself: in every run from its beginning, under a timer of the period standing anywhere, the watchdog never reads as expired iff the interval has room for the ticks the call may take plus a gap, since a timer that finds it off sends no kick and yet goes to sleep for a period |
| AutoReset.EnableOpens | install/packaging/bpctl/bp_mod.c:1937-1961 | the beginning of wdt_on leads to the states of that bound |
| AutoReset.WdtOnIsGuarded | install/packaging/bpctl/bp_mod.c:1933-1976 | after the driver's wdt_on, whatever the timer did while the command went out, watchdog and timer are in a state from which no run expires, if the interval has that room |
| AutoReset.EnableStarts | install/packaging/bpctl/bp_mod.c:1961-1973 | the end of wdt_on leads to a watchdog that is on and has been running since the beginning, the ticks taken counting |
| AutoReset.AutoSetStarts | install/packaging/bpctl/bp_mod.c:3990-4002 | set_bypass_wd_auto on a running watchdog starts one that is due with the next tick, the time already run counting |
| AutoReset.RearmExact | install/packaging/bpctl/bp_mod.c:2825-2827 | the rearm period is floor(HZ * reset_time / 1000) iff the product fits 32 bits |
| AutoReset.SetBypassWdAuto | install/packaging/bpctl/bp_mod.c:3990-4002 | the period stored is the one asked for, or on an Intel part at least 500 ms, so that 0 switches auto-reset off except there; a changed nonzero period makes the timer due at once |
| AutoReset.SwitchedOffAuto | install/packaging/bpctl/bp_mod.c:2792-2828 | after set_bypass_wd_auto(0), in any run until it is switched on again, the timer finds the bus free once at most, and only if it was armed, and then is gone |
| AutoReset.TimerGone | install/packaging/bpctl/bp_mod.c:2792-2828 | from then on it never runs, and the watchdog is restarted only by other kicks and wdt_on |
| Commands.WdtOn | install/packaging/bpctl/bp_mod.c:1933-1976 | sends WDT_ON plus the step, records an interval that serves the request, and counts from the moment of the call although the timer may run meanwhile; the steps recorded are those of a wdt_on; the timer is due when it was, or a retry or a period after its last run, which was during the call |
| Commands.WdtOff | install/packaging/bpctl/bp_mod.c:1911-1925 | sends WDT_OFF and records the watchdog as off with its last step, or is refused |
| Commands.StdNicOn | install/packaging/bpctl/bp_mod.c:2625-2676 | sends the codes that undo each mode the part has, in order; the watchdog is recorded as off if it was one of them |
| Commands.StdNicOff | install/packaging/bpctl/bp_mod.c:2678-2727 | sends the codes that restore each mode |
| Commands.Apply | install/packaging/bpctl/bp_mod.c:1690-2622 | the inner command of every setting: exactly its codes, its return value and its effect on the watchdog fields |
| Commands.SetFn | install/packaging/bpctl/bp_mod.c:4094-4446 | every set_*_fn: the stream sent, the value returned and the watchdog fields, accepted or refused, under timer interference |
| Commands.TplHwFn | install/packaging/bpctl/bp_mod.c:1862-1906 | the hardware two-port-link commands, whose bracket depends on software control |
| Commands.ResetContFn | install/packaging/bpctl/bp_mod.c:4519-4527 | sends CMND_ON and RESET_CONT and closes nothing |
| Commands.DiscPortFn | install/packaging/bpctl/bp_mod.c:1809-1857 | sends one bare command, or nothing |
| Brackets.RejectedIsSilent | install/packaging/bpctl/bp_mod.c:4094-4527 | a call sends nothing iff it is rejected for capability |
| Brackets.SessionsArePlain | install/packaging/bpctl/bypass.h:158-210 | no inner command can be taken for a bracket |
| Brackets.RunReads | install/packaging/bpctl/bp_mod.c:4094-4527 | the stream of any run reads as closed brackets iff no call in it is rogue, and the brackets are then those of the accepted calls, in order |
| Brackets.PerformAll | install/packaging/bpctl/bp_mod.c:4094-4527 | any run of calls, interrupted anywhere, gives the PIC exactly that stream, and returns what each call should |
| CardCalls.CallLeads | install/packaging/bpctl/bp_mod.c:4094-4478 | given what each command code tells the card (Card.Act): a rejected call changes nothing; an accepted one leaves the card as it asks from any state, on the parts on which it is effective, and everything it is not about alone |
| CardCalls.EffectiveExactly | install/packaging/bpctl/bp_mod.c:2410-2622 | and those parts are exactly the ones |
| CardUndo.Undone | install/packaging/bpctl/bp_mod.c:4094-4446 | a setting followed by its opposite gives the card back as it was |
| CardRuns.EffectiveOnSerial | install/packaging/bpctl/bp_mod.c:2833-2890 | on every part bypass_caps_init sets up, the accepted settings that do not reach what they ask for: wait and reset before version 8, which are reported as done, and two on parts with neither bypass nor tap |
| CardRuns.LastCallsHold | install/packaging/bpctl/bp_mod.c:4094-4478 | after any run of calls the card is as the last call of every kind asked |
| CardRuns.Tell | install/packaging/bpctl/bp_mod.c:4094-4478 | one call over the bus under timer interference: the frames the PIC has seen tell the card just that, and the value returned is what it was told |
| CardRuns.TellAll | install/packaging/bpctl/bp_mod.c:4094-4478 | the same for runs of calls |
| Caps.CapsInitIsSane | install/packaging/bpctl/bp_mod.c:3686-3885 | for every device, any capability beyond transmitter control comes with software control, and TPL2 with it and version 8 |
| Caps.GateImpliesControl | install/packaging/bpctl/bp_mod.c:3686-3885 | so a setting is accepted iff its own capability is there |
| Caps.AcceptedExactly | install/packaging/bpctl/bp_mod.c:3735-3862 | and which that is: the settings a device accepts are those its product register, version and family announce, no more and no fewer |
| Caps.LinkFound | install/packaging/bpctl/bp_mod.c:3730-3835 | two-port link is announced exactly by media and family up to version 8, or by the product register from there on |
| Caps.ExFound | install/packaging/bpctl/bp_mod.c:3825-3885 | exactly the devices with hardware two-port link and with control of single ports |
| Caps.InitialisedRunReads | install/packaging/bpctl/bp_mod.c:3804-3840 | on such a device every run of settings and TPL2 calls reads as closed brackets |
| Caps.Tpl2NeedsControl | install/packaging/bpctl/bp_mod.c:1869-1876 | without the invariant TPL2 sends a bare command |
| Caps.TplImpliesControl | install/packaging/bpctl/bp_mod.c:3686-3885 | TPL_CAP comes with SW_CTL_CAP |
| Caps.SlaveHasNoTpl | install/packaging/bpctl/bp_mod.c:3855-3885 | a slave port never has TPL_CAP |
| WdAgreement.WdtProgrammed | install/packaging/bpctl/bp_mod.c:3244-3262 | decodes registers 0 and 4 of the PIC, and says where the C shift is undefined |
| WdAgreement.LastWdInSetting | install/packaging/bpctl/bp_mod.c:4094-4446 | which watchdog command, if any, a setting makes the last one of the stream |
| WdAgreement.SettingKeepsAgreement | install/packaging/bpctl/bp_mod.c:3244-3262 | no setting makes the driver's record and a PIC that obeys its watchdog commands disagree |
| WdAgreement.SetThenGet | install/packaging/bpctl/bp_mod.c:4200-4227 | set_bypass_wd then get_bypass_wd returns the interval that was recorded and returned, which serves the request, over the bus, or 0 after switching off |
| ExpMode.WdtExpMode | install/packaging/bpctl/bp_mod.c:2894-2931 | which registers get which flag in which mode, and when the call is refused |
| ExpMode.WdtExpModeStatus | install/packaging/bpctl/bp_mod.c:3580-3595 | the mode read back, unreachable registers included |
| ExpMode.ModedConfined | install/packaging/bpctl/bp_mod.c:2894-2931 | only bit 0 of the two status registers can change |
| ExpMode.FlagsShowMode | install/packaging/bpctl/bp_mod.c:2894-2931 | bit 0 of register 13 is disconnect and bit 0 of register 6 tap against bypass; each leaves the other's register alone and bypass clears both |
| ExpMode.ModeReadBack | install/packaging/bpctl/bp_mod.c:2894-2931 | an accepted mode reads back from any registers, except tap mode exactly when the disconnect flag was set |
| ExpMode.ModeReadBackOld | install/packaging/bpctl/bp_mod.c:3580-3595 | on parts before version 8 it reads back exactly if the part can show it |
| ExpMode.SetThenAsk | install/packaging/bpctl/bp_mod.c:4505-4517 | the round trip over the bus under timer interference; without the partner port of a 10G9 the answer is always disconnect |
| PhyLock.InvKept | install/packaging/bpctl/bp_mod.c:1978-2107 | every register access of every port, and every step of the firmware, keeps the lock's invariant |
| PhyLock.SemaphoreKept | install/packaging/bpctl/bp_mod.c:1978-2037 | one holder of SMBI at most, and software and firmware never both inside |
| PhyLock.CopiesKept | install/packaging/bpctl/bp_mod.c:2041-2107 | a copy of SW_FW_SYNC about to be written back is still what the register holds |
| PhyLock.OwnershipKept | install/packaging/bpctl/bp_mod.c:2041-2107 | the bits of SW_FW_SYNC are exactly the ownerships, each PHY with one owner at most |
| PhyLock.MutualExclusion | install/packaging/bpctl/bp_mod.c:1978-2107 | in every reachable state, with any number of ports, each PHY has at most one owner, port or firmware |
| PhyLock.OtherBitsKept | install/packaging/bpctl/bp_mod.c:2041-2107 | although SW_FW_SYNC is read and written in separate steps, no step changes a bit that is not its own |
| PhyLock.ForeignBitsKept | install/packaging/bpctl/bp_mod.c:2041-2107 | over whole runs the other bits of the word keep their values |
| PhyAccess.GetHwSemaphore | install/packaging/bpctl/bp_mod.c:1991-2037 | gets both semaphore bits or neither, in at most 8193 + 8193 polls |
| PhyAccess.PutHwSemaphore | install/packaging/bpctl/bp_mod.c:1978-1988 | gives both back |
| PhyAccess.AcquirePhy | install/packaging/bpctl/bp_mod.c:2063-2107 | returns 0 iff this port now owns its PHY, at most 200 attempts, semaphore free on every path; and succeeds if PHY and semaphore are free and nobody else takes a step |
| PhyAccess.ReleasePhy | install/packaging/bpctl/bp_mod.c:2041-2059 | when it returns nothing is held |
| PhyAccess.MdicFields | install/packaging/bpctl/bp_mod.c:2110-2155 | operation, register, PHY and data are found again in an MDIC command word |
| PhyAccess.Mdic | install/packaging/bpctl/bp_mod.c:2110-2179 | puts one word into MDIC while the PHY is owned, and leaves the lock alone; 0 iff the last answer was ready without error |
| PhyAccess.AccessPhyReg | install/packaging/bpctl/bp_mod.c:2182-2233 | on every return path the port holds neither semaphore nor PHY; MDIC has been given a page-select word exactly for registers beyond the sixteenth and then one word with the operation, register and data asked for, each while the PHY was owned; 0 iff all were given and answered well |
| PhyAccess.WritePhyReg | install/packaging/bpctl/bp_mod.c:2209-2233 | the same for a write |
| PhyAccess.ReadPhyReg | install/packaging/bpctl/bp_mod.c:2182-2206 | the same for a read, and the value is the low half of the last answer |
| Ports.GetStatusPort | install/packaging/bpctl/bp_mod.c:1544-1581 | the first searched entry with the partner's address, or none |
| Ports.GetMasterPort | install/packaging/bpctl/bp_mod.c:1583-1620 | the same towards the controlling port |
| Ports.GetBypassSlave | install/packaging/bpctl/bp_mod.c:4602-4644 | 1 with the same port iff it exists, 0 exactly for ports that are not controlling, else -1 |
| Ports.ThereAndBack | install/packaging/bpctl/bp_mod.c:1544-1620 | in any array the way there and back ends where it began iff the partner, in its own addressing, asks for that port and finds no other first |
| Ports.WayBack | install/packaging/bpctl/bp_mod.c:1544-1620 | in an array as the driver fills it, of any mix of families, the way to a partner of the same family and back ends at the port iff it is not a 10G9 at address zero behind another family; then it ends at that other port |
| Ports.FirstUnlessHidden | install/packaging/bpctl/bp_mod.c:7340-7403 | such ports are the only ones that are not the first with their address |
| Ports.Pairing | install/packaging/bpctl/bp_mod.c:1544-1620 | the two lookups are inverse to each other on all other ports |
| Ports.PartnersAreUnique | install/packaging/bpctl/bp_mod.c:1544-1620 | and no port is the partner of two of a family, from either side |
| Ports.HiddenPortLosesTheWayBack | install/packaging/bpctl/bp_mod.c:1550-1620 | an array the driver can fill in which the master of a 10G9 slave is taken to be a port of another family |
| Legacy.OldPort.DataPulse | install/packaging/bpctl/bp_mod.c:1312-1368 | the far end counts exactly the byte in one window whatever the timer tries; both lines end low, other bits kept; the watchdog is looked at before and restarted after |
| Legacy.OldPort.SendWdtPulse | install/packaging/bpctl/bp_mod.c:1370-1401 | one kick outside any window, after a look at the watchdog and with its restart, or -1 and nothing while a command is being sent |
| Legacy.OldPort.SendAll | install/packaging/bpctl/bp_mod.c:1312-1368 | any sequence of commands is received as sent |
| Legacy.UnguardedCommand | install/packaging/bpctl/bp_mod.c:1370-1379 | what the flag prevents: without it a command with kicks anywhere in its window is received as another number, except exactly if no kick found SDP7 low and no pulse was hit twice |
| Intel.Pair.WriteData | install/packaging/bpctl/bp_mod.c:1629-1663 | the four pins of the pair show the nibble sent, all other bits kept; nothing without the partner |
| Intel.Pair.WriteDataPort | install/packaging/bpctl/bp_mod.c:1629-1650 | two bits on the two pins of one port, made outputs, every other bit kept |
| Intel.Pair.WdtPulse | install/packaging/bpctl/bp_mod.c:1665-1681 | a kick is two commands and the restart of an enabled watchdog, or nothing while busy |
| Intel.Pair.Search | install/packaging/bpctl/bp_mod.c:1933-1948 | the least listed timeout that covers the request, or 32000, and its place in the table, from 7, as the code |
| Intel.Pair.WdtOn | install/packaging/bpctl/bp_mod.c:1933-1956 | the watchdog counts from the moment its command is on the pins; no kick comes between the two commands, the watchdog being off meanwhile |
| Intel.Pair.WdtOff | install/packaging/bpctl/bp_mod.c:1911-1925 | leaves bypass mode with two commands and records the watchdog as off; kicks of the timer, which the flag does not keep out between commands, come after them as whole pairs, and only if the watchdog was on |
| Intel.Pair.SetBypassWd | install/packaging/bpctl/bp_mod.c:4200-4219 | the three commands sent, with kicks of the timer between them only where the watchdog is on, and the interval returned, which is the same with nothing sent if the partner is missing |
| Intel.CodesDisjoint | install/packaging/bpctl/bypass.h:143-147 | timeout codes are nibbles, one for each timeout, and none of the five fixed commands |
| Intel.CodeIsPlace | install/packaging/bpctl/bp_mod.c:1940-1949 | the code of a timeout is its place in the table and no other number |
| Intel.ChosenMonotone | install/packaging/bpctl/bp_mod.c:1940-1948 | the choice is unique, monotone and keeps listed timeouts |
| Tpl.Controller.TimerFn | install/packaging/bpctl/bp_mod.c:4689-4728 | one step of the controller, and when it is due again |
| Tpl.Controller.SetTplFn | install/packaging/bpctl/bp_mod.c:4731-4819 | the flag follows the call, and both transmitters are on after switching on, or off when it was on |
| Tpl.Controller.SetTxFn | install/packaging/bpctl/bp_mod.c:4531-4547 | refused only while two-port link is on, as far as the capabilities say so; else moves the transmitter of its own port and only that |
| Tpl.SafetyExact | install/packaging/bpctl/bp_mod.c:4531-4547 | from enabling on, under any link changes and user calls, one transmitter is always on iff TPL_CAP comes with SW_CTL_CAP |
| Tpl.UserBreaksLink | install/packaging/bpctl/bp_mod.c:4531-4547 | otherwise three calls darken both |
| Tpl.InitialisedPairIsSafe | install/packaging/bpctl/release.txt:465 | every pair set up by bypass_caps_init is safe |
| Tpl.UserMovesOwnSide | install/packaging/bpctl/bp_mod.c:4531-4547 | in a pair set up by bypass_caps_init it is refused, on either port, exactly while two-port link is on |
| Tpl.LossIsMirrored | install/packaging/bpctl/bp_mod.c:4689-4728 | with one link up, from the second step on that side is silent and the other transmits, and so it stays |
| Tpl.RecoveryIsMirrored | install/packaging/bpctl/bp_mod.c:4689-4728 | with both links up both transmit from the first step on |
| Tpl.NothingWithoutLinks | install/packaging/bpctl/bp_mod.c:4689-4728 | with both links down nothing is switched |
| Tpl.RecoverableExactly | install/packaging/bpctl/bp_mod.c:4689-4728 | link changes can bring both transmitters back iff one is on |
| Tpl.DisableRestores | install/packaging/bpctl/bp_mod.c:4731-4752 | however two-port link has been used since it was switched on, switching it off leaves both transmitters on, and no later step of the controller undoes that |

## Left out

- CardCalls.CallLeads: how the card settles requests that contradict each other, as bypass while bypass is disabled, and how its connection shows on the pins that bypass_status and its like read, is not modelled: the card keeps what it was last told. Of reset_cont nothing is assumed.
- CardUndo.Undone: not for standard NIC mode, whose two commands of older firmware are not each other's reverse; what each leaves is in CardCalls.CallLeads.
- PhyAccess.ReleasePhy: the source tries for the semaphore without bound; the model tries `patience` times and says `done == false` if it is still trying, because other holders need not make progress.
- PhyAccess.AccessPhyReg: is the common course of bp75_read_phy_reg and bp75_write_phy_reg; inherits the bound of ReleasePhy, and what the MDIC register answers is arbitrary.
- Commands.SetFn: the fourteen set_*_fn functions of one shape (lines 4094-4446 and 4837-4888) are one method over their setting; null device pointers are left out.
- Commands.DiscPortFn: models the device whose bus carries the command; finding it is in `Ports`.
- Commands.TplHwFn: on parts whose link control is a pin of the partner port only the refusal of the command form is modelled; the check and the transmitters of set_tpl_fn are in `Tpl`.
- Bus.Preempt: on one CPU, and for the timer only. Two process-context calls at once, a user kick interrupted by a timer kick, and kicks on other CPUs are not covered by the busy flag and not modelled.
- Ports.GetStatusPort: the loops test for an empty entry before the end of the array; the model tests the end first, so the read past the end is not modelled. The same holds for the other two lookups.
- Tpl.Controller.TimerFn: each transmitter is a boolean that its status reads back; the pins of the variants are left out, as is the step of a port without partner, which does nothing.
- WdAgreement.WdtProgrammed: parts of the oldest interface answer from the driver's own record, which is one field; they are not devices of this class.
- Tpl.Controller.SetTplFn: parts with link control in hardware, by command or by pin, leave the software controller alone; their branch is not modelled, and Tpl.InitialisedPairIsSafe says nothing of them.
- Tpl.InitialisedPairIsSafe: speaks of pairs that run the software controller.
- Tpl.Controller.SetTxFn: set_tx is taken to be possible; its own refusal for lack of transmitter control is left out.
- AutoReset.AutoResetExact: a watchdog not restarted for more than 2^31 ms is left out of the exact bound, because a query then may miss its expiry (Clock.LateQueryMissesExpiry); AutoReset.NeverExpires has no such limit.
- AutoReset.NeverExpires: about parts with the serial interface that can be kicked at all. On Intel boards and the oldest parts a busy fire is not retried on the next tick (bp_mod.c:2798) and loses a whole period, so there a gap is about `bound` + 1 periods; a 10G9 without its partner is never kicked.
- AutoReset.WdtOnExact: `span` bounds the ticks of one wdt_on, which depend on delays and interrupts outside the model; the same limits hold for every move, so two calls of wdt_on at once are left out.
- Bus.WdtTimeLeft: the reads of `jiffies` and `bypass_wdt_on_time` (bp_mod.c:2733) are one step; what a query returns when the timer comes between them is Clock.InterruptedQuery.
- Intel.Pair.WdtOff: the timer comes between commands, in the delays; kicks of another CPU, or before the first command, are not modelled.
- Intel.Pair.SetBypassWd: the same.
- AutoReset.SwitchedOffAuto: for parts with the serial interface; an Intel board cannot be switched off (AutoReset.SetBypassWdAuto).
- WdHistory.StatusIsHistory: a watchdog found running when the driver is loaded has no recorded interval, so histories begin with wdt_on or wdt_off.
- Intel.Pair.WriteData: the intermediate nibbles while one port after the other is written are not recorded.
- Real delays: only the order of register accesses and the tick counter are modelled.
- Status readers other than wdt_programmed and wdt_exp_mode_status: one read and one mask each.
- set_tx, set_bp_force_link and the media detection: long tables of pins and part numbers with easy claims; part families appear as flags.
- ioctl and procfs plumbing, module loading, PCI tables, network notifiers, self test and KVM code: not part of this model.
- The web interface and the other parts of the repository: not part of this model.
