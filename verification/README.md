# OpenScreenTime's Linux agent: a verified model

OpenScreenTime's agent is a long-running process that decides who is stopped, bills screen time
against a clock its users may have tampered with, and keeps its promises across crashes, restarts
and a flaky network. This project models its six stateful components and proves what they keep over
whole runs.

| files | component |
|---|---|
| `Host`, `Enforcement`, `Agent`, `LockProtocol`, `Walks`, `Grace`, `DeviceStop`, `Freedom`, `Outcomes` | who is stopped, the lock in front of them, the save-your-work countdown, whole-device stops, restarts |
| `EventQueue`, `Notifications`, `Tally`, `Slices` | the bounded buffers and the other party that empties them |
| `Base32`, `ParentCode` | the unlock code: TOTP, recovery codes, lockout |
| `Clock` | the trusted clock |
| `Names`, `LogTail`, `AppCredit`, `Attrib` | where the time goes: the log tailer, the app sampler, the table of slices |
| `Incidents`, `Gaps` | what is told, once, of signals and of standing gaps |
| `Billing` | billed seconds, and the stop announced from them |
| `Strings`, `NetworkPolicy` | the one network policy of a shared computer |

Objects the agent updates in place are classes (`Agent.Agent`, `Attrib.Attrib`, `Clock.TrustedClock`,
`ParentCode.Verifier`, `EventQueue.Buffer`, `Notifications.Publisher`, `Incidents.Incidents`,
`Incidents.TamperMonitor`, `Billing.Biller`). Each method is tied to a function of the state it found
(for the agent, `Agent.View` is the state and `Enforcement.Next` the step), and the laws are lemmas
about those functions over every sequence of steps. What a step finds outside the agent (sessions,
whether a lock can be shown, the rules' verdicts, the clock, codes' MACs, read sizes) is an arbitrary
input of the step: `Enforcement.World` and its like. Tables that the program walks in hash order are
walked in an arbitrary order.

## What holds only under a condition

- *Thaw first, then the lock comes down.* Not in three cases: the lock being kept up had just turned to
  somebody else who is stopped and then could not be kept, so `reconcile_lock` thaws the person it was
  meant for and releases a lock in front of the other; with no lock up, one for the frozen person on
  screen cannot be shown, and `present` takes its failed lock down before the thaw that follows; and a
  pause does the same in front of somebody frozen already. `NextThawsFirstIff` and, over every run,
  `ReleasesAfterThawIff` say there are no others; `LockTornDownInFrontOfFrozen`, `LockThatNeverCameUp` and
  `PauseGivesUpInFrontOfFrozen` are runs that reach them.
- *Grace is given once.* Not to somebody for whom no lock can be shown, be it when they are to be
  stopped or at any tick, command or VT change while they are: they are then neither stopped nor, unless
  an older countdown of theirs still stands, counting down, and the next tick arms one from the start.
  `GivenAgainIff` and `LockLostIff` say exactly when, `GivenAgain` what follows, and
  `MiaGetsAnotherMinute` is such a run.
- *A whole-device stop stays in force.* But for a parent's act it ends when the offline lockdown is no
  longer engaged, when a restart forgets that lockdown until its first tick, and when a new pause brings
  a window that stands in for the old pause: in these ways and no other (`StopStaysInForceIff`).
- *A log line too long for one read.* Lines 818-819 of `attrib.rs` say its fragment is not parsed;
  lines 824-825 pass it on, and so does the model (`OverlongIsPassedOn`). Chunks are whole lines exactly
  when no such line was consumed (`WholeLinesIff`).
- *Notifications reach the companion once.* Not one that sixteen others followed before the next poll,
  and not one published and not yet polled when the agent restarts and then writes the file again,
  with the next notification or tick. These are the only ways to lose one (`ShownExactlyOnceIff`). And
  a companion whose first read of the file failed shows the backlog (`UnprimedReplaysAll`), against the
  comment at lines 696-698 of `tray.rs`.
- *The announced stop holds still.* It is reckoned on the trusted clock and billed on the monotonic one,
  which sleeps with the computer. So it moves by the sleep and the clock corrections since, and by what
  the 60 s cap leaves out, and by nothing else (`StopHoldsStillIff`, `StopMovesBySleepAndExcess`);
  `SleepMovesTheStop` closes the lid for an hour.
- *A quiet incident.* An episode that starts within the hour of the last report is never reported,
  however long it then lasts (`QuietEpisodeStaysQuiet`).

## Model

| member | source | states |
|---|---|---|
| Agent.Agent.StopUser | client/src/runner.rs:2321-2347 | the lock is asked for first and the freeze follows it; whoever no lock can be shown for is not frozen; the new state is Enforcement.StopUser of the old |
| Agent.Agent.ScreenTimeLockout | client/src/runner.rs:2209-2265 | a first verdict arms a countdown or stops at once, a spent countdown stops, a running one waits |
| Agent.Agent.ReconcileLock | client/src/runner.rs:2735-2794 | the lock follows the freeze set: kept, retargeted, handed over, released, or put up, with whoever it fails for thawed |
| Agent.Agent.LocalRecovery | client/src/runner.rs:983-1010 | every whole-device stop is cleared, on disk too, and everyone thawed |
| Agent.Agent.EnforceUser | client/src/runner.rs:1919-2019 | one person's part of the tick, from refreezing to the freeze decision |
| Agent.Agent.EnforcementTick | client/src/runner.rs:1716-2047 | a tick takes the state to Next of it, for every outside world |
| Agent.Agent.LockCommanded | client/src/runner.rs:3297-3337 | a pause, with a window or at once |
| Agent.Agent.UnlockCommanded | client/src/runner.rs:3338-3413 | a Resume: the pause and the tamper lockdown end, countdowns too, and whoever the rules let go is thawed |
| Agent.Agent.CreditCommanded | client/src/runner.rs:2295-2313 | time given releases its person at once, unless a whole-device stop or their rules still hold them |
| Agent.Agent.SnoozeFromLock | client/src/runner.rs:2890-2950 | extra time at the lock, refused to whoever it isn't theirs to take |
| Agent.Agent.CodeFromLock | client/src/runner.rs:2809-2885 | an accepted code recovers the computer, a wrong one changes nothing but the lock |
| Agent.Agent.OnSeatChanged | client/src/runner.rs:2991-3011 | a VT change stops whoever came on screen and should be, and reconciles the lock |
| Agent.Agent.AdoptFrozen | client/src/runner.rs:3017-3029 | whom the kernel still has frozen is adopted, or thawed without rules here |
| Agent.Agent.Retire | client/src/runner.rs:1266-1307 | everyone is thawed before the lock comes down, and nothing is enforced any more |
| Agent.Agent.PersistFreezeState | client/src/runner.rs:2183-2199 | the disk says who is stopped or counting down, whose lock is up, and the tamper lockdown |
| Agent.StartAgain | client/src/runner.rs:684-688 | a new process made from the disk and the kernel is the restart step of the old one's state |
| LockProtocol.EveryRunIsSound | client/src/runner.rs:2723-2794 | over every run of ticks, commands, lock requests, VT changes, policy pulls, crashes and reboots: the kernel has frozen exactly the agent's frozen set less those whose freeze something else undid since it was last ordered, nobody on screen is frozen without a lock shown just before, the lock's person is stopped, and the disk equals the live state |
| LockProtocol.KernelIsFrozen | client/src/runner.rs:2004-2008 | over every run, log-outs and outside thaws included, the two sets are equal if and only if no present freeze was undone |
| LockProtocol.ReleasesAfterThawIff | client/src/runner.rs:2304-2307 | over every run the lock, one that never came up included, only ever came down for someone already thawed if and only if no step met one of three cases |
| LockProtocol.NextThawsFirstIff | client/src/runner.rs:2321-2347 | each step, of any kind, keeps that order exactly outside the three cases |
| LockProtocol.ReleaseAfterThawIff | client/src/runner.rs:2764-2787 | reconciling keeps thaw-before-release if and only if neither a lock that turned to another stopped person fails, nor one for the frozen person on screen fails to come up |
| LockProtocol.LockTornDownInFrontOfFrozen | client/src/runner.rs:2764-2781 | a run from a blank process reaches the first case: two people paused, the lock turned to the second and lost |
| LockProtocol.LockThatNeverCameUp | client/src/runner.rs:2780-2787 | a run reaches the second: someone paused behind the screen comes on screen, and no lock can be shown |
| LockProtocol.PauseGivesUpInFrontOfFrozen | client/src/runner.rs:3320-3327 | a run reaches the third: they are on screen when a second pause comes, and no lock can be shown |
| LockProtocol.ReconcileLetsGoIff | client/src/runner.rs:2735-2794 | reconciling stops nobody and lets someone go exactly when the lock in front of them, or the one they need, can't be shown |
| LockProtocol.OnScreenIsLockedOrThawed | client/src/runner.rs:2721-2734 | after reconciling, whoever is on screen is thawed or has the lock, or shares their screen with the stopped person who has it |
| LockProtocol.NextKeepsSound | client/src/runner.rs:3290-3413 | each single step keeps all of the above |
| LockProtocol.RestartKeepsSafe | client/src/runner.rs:3017-3029 | after start-up the frozen set is whom the kernel has frozen among those with rules here, and nobody else is frozen |
| LockProtocol.RetireKeepsSafe | client/src/runner.rs:1266-1307 | retirement leaves nobody frozen, and thaws before it releases |
| DeviceStop.TickMakesStopsReal | client/src/runner.rs:1918-1928 | after a tick, everyone with rules here who is logged in and taken for stopped is frozen in the kernel, whatever thawed them before |
| Grace.GraceIsGivenOnce | client/src/runner.rs:2227-2265 | an armed countdown, under any interleaving of ticks, VT changes, restarts and reboots (each with its own clock), whole-device stops and others' commands, is never put back: its person is stopped, or counting to the same end, or due since the last restart |
| Grace.CountdownStands | client/src/runner.rs:2263-2264 | until a tick at or after its end, a restart or a whole-device stop, its person is not stopped and the agent holds the countdown as it was armed |
| Grace.TickStops | client/src/runner.rs:2256-2262 | over every such run the first tick at or after the end, and the first tick after a restart or reboot, leave its person stopped |
| Grace.CountdownStarts | client/src/runner.rs:2228-2255 | the tick that first finds a stop stops whoever was told of it, just logged in or is not on screen, and starts for everyone else a countdown of 60 seconds, or of their bracket's wind-down if that is longer |
| Grace.GivenAgainIff | client/src/runner.rs:2256-2262 | a tick that finds someone stopped or due leaves them neither stopped nor counting down exactly when no lock can be shown for them, when they are to be stopped or once they are |
| Grace.LockLostIff | client/src/runner.rs:2764-2787 | between ticks, someone whose stop nobody ends is let go exactly when no lock can be shown for them |
| Grace.GivenAgain | client/src/runner.rs:2228-2255 | and then the next tick starts the whole countdown again for whoever has work to save |
| Grace.MiaGetsAnotherMinute | client/src/runner.rs:2764-2773 | a run from a blank process in which a countdown that ended in front of a shown lock is given again |
| DeviceStop.StoppedStayStoppedIff | client/src/runner.rs:3732-3751 | under a whole-device stop, no tick, grant, snooze, pull, VT change or command of any kind but a parent's act lets anyone go, and someone is let go if and only if no lock can be shown for them |
| DeviceStop.StopDominates | client/src/runner.rs:3732-3751 | over every run without a parent's act or one of the ways a stop ends: it stays in force, through restarts and reboots, and whoever it stopped stays stopped, logged out or without rules here too, but for the time from a restart to its first tick, when they are due |
| DeviceStop.StopStaysInForceIff | client/src/runner.rs:2282-2288 | but for a parent's act the stop ends exactly when the offline lockdown is no longer engaged, a restart finds no other stop on disk, or a new pause brings a window |
| DeviceStop.RestartNeverWeakens | client/src/runner.rs:736-759 | a restart or reboot keeps a pause and a tamper lockdown, closes a pause's window, and leaves everyone stopped or counting down due at the first tick |
| DeviceStop.SnoozeIsRefused | client/src/runner.rs:2890-2913 | a snooze asked for under any whole-device stop, even one still in its window, leaves the agent as a mere question does |
| DeviceStop.TickStopsEveryone | client/src/runner.rs:1993-2001 | a tick under a whole-device stop leaves stopped everyone with rules here who is logged in and can be shown a lock |
| DeviceStop.PauseStopsEveryone | client/src/runner.rs:3320-3327 | a pause without a window does so at once |
| Freedom.TickFreesIff | client/src/runner.rs:1977-2018 | with no whole-device stop, a tick keeps someone stopped if and only if their rules stop them, no override holds these off and a lock can be shown; a countdown ends with its reason |
| Freedom.TickLeavesTheFreeFree | client/src/runner.rs:1960-1984 | someone let by their rules or an override, or away with no clock rules, is neither stopped nor counting down after a tick |
| Freedom.ResumeFreesIff | client/src/runner.rs:3338-3413 | a Resume lets go exactly whom the rules let go, ends the pause, a tamper lockdown and every countdown, and leaves an offline lockdown |
| Freedom.CreditFreesIff | client/src/runner.rs:2290-2313 | time given lets its person go, and takes the lock from in front of them, exactly when neither a whole-device stop, even in its window, nor their rules hold them, or no lock can be shown; it lets nobody else go but whom no lock can be shown for |
| Freedom.SnoozeFreesIff | client/src/runner.rs:2890-2926 | a snooze lets go, and takes the lock down from, exactly someone who set their own limits, stopped by those, after a minute, fewer than three times, or for whom no lock can be shown |
| Freedom.RecoveryFreesEveryone | client/src/runner.rs:983-1001 | a code or `ost unlock` leaves nobody stopped, counting down or frozen, and no whole-device stop, on disk too |
| Freedom.LoginIntoAStopMeetsTheLock | client/src/runner.rs:2986-3011 | whoever logs in into a stop is stopped at once, with the lock in front of them |
| Outcomes.FirstTickOfAStop | client/src/runner.rs:2226-2255 | the tick that first finds a stop, with no whole-device stop: whoever was announced, just logged in or has a desktop not on screen is stopped if and only if a lock can be shown, and everyone else counts down to now plus 60 s or their longer wind-down |
| Outcomes.TickLeavesTheAway | client/src/runner.rs:2209-2222 | a tick stops nobody without rules here or not logged in, and of their countdown ends only one whose reason has gone |
| Outcomes.TickSparesTheFree | client/src/runner.rs:1977-2018 | it orders nothing of somebody free whom nothing stops |
| Outcomes.FirstSightOfAStop | client/src/runner.rs:2996-3008 | so does the VT change that finds them on screen |
| Outcomes.SeatUnderDeviceStop | client/src/runner.rs:2996-3008 | under a whole-device stop a VT change stops whoever is on screen exactly when a lock can be shown |
| Outcomes.SeatLeavesAlone | client/src/runner.rs:2996-3008 | a VT change leaves alone whoever is not on screen, has no rules here, counts down, has an override, or is let by their rules |
| Outcomes.LockReleased | client/src/runner.rs:2735-2747 | a lock whose person was thawed is released, and with nobody stopped on screen that is all that happens |
| Outcomes.LockHandedOver | client/src/runner.rs:2748-2755 | a lock whose stopped person has no session there is handed over to the login screen, and they stay stopped |
| Outcomes.LockStays | client/src/runner.rs:2756-2772 | a lock whose stopped person is there and that can be kept stays, in front of them or of the stopped person it finds on its screen |
| Outcomes.LockLost | client/src/runner.rs:2773-2776 | one that cannot be kept: its person is thawed first, then it comes down |
| Outcomes.ScreenCovered | client/src/runner.rs:2779-2790 | with no lock up, the stopped person on screen gets one, or is thawed when it cannot be shown |
| Outcomes.LockHasSomeoneBehindIt | client/src/runner.rs:2735-2794 | after reconciling, a lock left up is in front of somebody stopped whose session is on the seat's screen |
| Outcomes.AcceptedCodeFreesEveryone | client/src/runner.rs:2862-2866 | an accepted code at the lock leaves nobody stopped, counting down or frozen in the kernel, no lock, no whole-device stop, and a disk that says so |
| Outcomes.RefusedCodeFreesNobody | client/src/runner.rs:2836-2885 | a refused one, or one with no lock up, changes no order and no countdown, and lets go only whom no lock can be shown for |
| Outcomes.MarkedTickFrees | client/src/runner.rs:1814-1826 | the tick after `ost unlock` ends every whole-device stop but one engaged in that tick, and frees everyone neither that nor their rules stop |
| Outcomes.TickSetsOrders | client/src/runner.rs:1814-1856 | any other tick sets the offline lockdown as found, keeps or sets the tamper lockdown, and changes no other order |
| Outcomes.ResumeCommandFreesIff | client/src/runner.rs:3338-3413 | after a Resume someone is stopped exactly if they were, their rules stop them and a lock can be shown; pause, tamper lockdown and countdowns are over, on disk too, an offline lockdown is not |
| Outcomes.RetirementFreesEveryone | client/src/runner.rs:1266-1307 | retirement leaves nobody stopped, frozen, counting down or locked, nobody with rules here, and a disk that says so |
| Outcomes.NothingMore | client/src/runner.rs:1266-1307 | a retired agent does nothing more, and a lock's request with no lock up is for nothing |
| Outcomes.CreditEndsCountdownIff | client/src/runner.rs:2295-2313 | time given ends its person's countdown, and nobody else's, exactly when neither a whole-device stop nor their rules hold them |
| Outcomes.SnoozeEndsCountdownIff | client/src/runner.rs:2890-2926 | a snooze granted ends its person's countdown, and nobody else's |
| Outcomes.PauseWithWindow | client/src/runner.rs:3297-3319 | a pause with a window stops nobody yet, and is in force exactly from the end of the window on |
| Outcomes.PauseAtOnce | client/src/runner.rs:3320-3337 | one without is in force at once and for good, and stops those with rules here who are logged in and can be shown a lock, and nobody else |
| Outcomes.PullChangesRulesOnly | client/src/runner.rs:1212 | a policy pull stops nobody and lets nobody go |
| Outcomes.GoneIsUndone | client/src/runner.rs:2004-2008 | a log-out or an outside thaw undoes the freeze in the kernel and leaves the agent as it was |
| Outcomes.StartReadsTheDisk | client/src/runner.rs:736-759 | a new process holds to the pause and tamper lockdown on disk, with no window, takes over the lock of the same boot and whoever the kernel has frozen, and takes everyone the disk calls stopped for due |
| EventQueue.Buffer.QueueEvents | client/src/runner.rs:948-962 | the buffer becomes the newest 512 of what it held and what is queued |
| EventQueue.Buffer.Push | client/src/runner.rs:2350-2369 | an event pushed outside the tick joins the buffer uncapped |
| EventQueue.Buffer.TakeBatch | client/src/runner.rs:4045-4055 | the batch and what stays are the capped buffer cut in two, at most 100 first |
| EventQueue.Buffer.PutBack | client/src/runner.rs:4056-4062 | a failed batch goes back in front, the oldest dropped over the cap |
| EventQueue.AlwaysPlaced | client/src/runner.rs:4043-4070 | under any interleaving of producers with a flush that succeeds or fails, the buffer is a suffix of what was produced, delivered, in-flight and waiting events are in order, a drop during a flight leaves a full buffer, and only events with 512 newer ones are lost |
| EventQueue.BufferIsASuffix | client/src/runner.rs:948-962 | the buffer is always exactly a suffix of everything produced, and a batch in flight has 1 to 100 events |
| EventQueue.DrainsInOrder | client/src/runner.rs:4043-4070 | a flush whose posts succeed delivers all of the buffer in order, a hundred a post |
| EventQueue.ProducedIsAllMade | client/src/runner.rs:948-962 | what is accounted for is everything queued and pushed, over any run |
| EventQueue.StepsAreBounded | client/src/runner.rs:4043-4070 | queueing and putting back leave at most 512, and a flush takes 100 or all of fewer |
| Notifications.Publisher.Publish | client/src/runner.rs:811-834 | a message gets the next id and joins the newest sixteen |
| Notifications.SelectNotifications | client/src/tray.rs:679-705 | a poll shows what is above the mark for this person, in file order, and raises the mark over everything in the file |
| Notifications.ShownExactlyIfRead | client/src/tray.rs:679-705 | a message for this person is shown exactly once over any run if it is in the file at the next poll, and never otherwise |
| Notifications.ReadExactlyIfRecent | client/src/runner.rs:3149-3192 | over any steps to the next poll, restarts included, a message for this person is in the file exactly when fewer than sixteen came after it and no restarted agent wrote the file |
| Notifications.ShownExactlyOnceIff | client/src/tray.rs:679-705 | over any run it is shown exactly once in that case, and otherwise never |
| Notifications.SettledStays | client/src/tray.rs:857-860 | a message at or below the mark is never shown again, restarts included |
| Notifications.PrimedReplaysNothing | client/src/tray.rs:857-860 | a companion whose first read succeeds shows none of what was there |
| Notifications.UnprimedReplaysAll | client/src/tray.rs:847-860 | one whose first read fails shows all of it |
| Notifications.RestartLosesUnread | client/src/runner.rs:811-834 | over any run, a message not polled before a restart whose agent writes the file is never shown |
| ParentCode.Verifier.VerifyAt | client/src/parentcode.rs:319-390 | an attempt's verdict and the saved state are Verified's, whatever HMAC and argon2 are |
| ParentCode.Verifier.RecoveryCodesLeft | client/src/parentcode.rs:279-285 | counts the recovery codes not yet used |
| ParentCode.AcceptsExactlyFreshSteps | client/src/parentcode.rs:333-345 | a six-digit code is accepted as a one-time code if and only if it is the code of an unused step within one of the clock's, and the earliest such is used up |
| ParentCode.AcceptedAsIff | client/src/parentcode.rs:330-374 | outside a wait a typed code is accepted as a step's, as a recovery code or as the backup code if and only if it is one, in this order: six digits of the first unused step within one of the clock's, eight digits of the first unspent recovery entry whose MAC matches, the backup code's hash; that step or entry is used up, failures go to 0 and no wait runs |
| ParentCode.RefusedMeans | client/src/parentcode.rs:375-390 | any other is counted, and from the fifth in a row on starts a wait of 60, 120, 240, 480, then 900 s |
| ParentCode.NothingToCheck | client/src/parentcode.rs:319-323 | with neither a secret nor a backup code nothing is checked or counted |
| ParentCode.SpacesDoNotMatter | client/src/parentcode.rs:331 | white space around a code and a space inside it do not matter |
| ParentCode.ToldTheTruth | client/src/parentcode.rs:323-328 | an attempt during a wait changes nothing, and is told the whole seconds left |
| ParentCode.StepsIncrease | client/src/parentcode.rs:333-345 | over any run the accepted steps strictly increase and stay within one of the clock's |
| ParentCode.CodesAreSingleUse | client/src/parentcode.rs:333-345 | at most b - a + 3 codes are accepted while the step runs over [a, b] (section 5.2 of RFC 6238) |
| ParentCode.RecoveryCodesAreSingleUse | client/src/parentcode.rs:347-362 | over any run each recovery id is accepted at most once |
| ParentCode.RecoveryCostsOne | client/src/parentcode.rs:279-285 | with distinct ids the count of codes left falls by exactly one |
| ParentCode.CodesLeftMeans | client/src/parentcode.rs:279-285 | all are left while none is spent, none exactly when every one is |
| ParentCode.LockSchedule | client/src/parentcode.rs:376-385 | the waits are 60, 120, 240, 480 and then 900 seconds |
| ParentCode.GuessesTakeTime | client/src/parentcode.rs:376-385 | n wrong codes evaluated from a fresh state take at least the sum of their waits |
| ParentCode.GuessingBudget | client/src/parentcode.rs:319-390 | at most 8 + T/900 wrong codes are evaluated within T seconds (section 7.3 of RFC 4226) |
| ParentCode.BudgetIsReached | client/src/parentcode.rs:319-390 | a guesser who waits exactly as told gets that many: the bound is tight |
| ParentCode.TriesAreExact | client/src/parentcode.rs:299-308 | Left(k) means exactly the k-th further wrong code locks out |
| ParentCode.TriesMean | client/src/parentcode.rs:299-308 | the wait's whole seconds while one runs, else what is left of five tries and at least one |
| Base32.Decode | client/src/parentcode.rs:149-171 | the sliding 64-bit buffer, though it shifts old bits out, computes the bit-string decoding of section 6 of RFC 4648 for every string |
| Base32.RoundTrip | client/src/parentcode.rs:149-171 | decoding inverts RFC 4648's encoder for every byte string |
| Base32.SpellingDoesNotMatter | client/src/parentcode.rs:152-158 | padding, blanks and dashes inserted anywhere, and letter case, change nothing |
| Base32.ReadableIff | client/src/parentcode.rs:152-162 | a secret can be read exactly if it has only letters, digits from 2 to 7, padding, white space and dashes |
| Clock.TrustedClock.ObserveReading | client/src/clock.rs:120-138 | an observation returns and keeps what Observe says |
| Clock.TrustedClock.ObserveServerTime | client/src/clock.rs:141-144 | the server's time is anchored and becomes the mark |
| Clock.HandSetClocksDoNotInterfere | client/src/clock.rs:104-150 | two runs whose wall clocks agree at each boot's first reading and at every NTP-synced reading return identical trusted times at every step, whatever else the wall clocks say |
| Clock.VouchedTimeIsBelieved | client/src/clock.rs:120-144 | a synced wall clock or the server's word becomes the trusted time outright |
| Clock.RefinesReference | client/src/clock.rs:104-150 | the anchored clock equals a reference that keeps no anchor and no mark, and its mark is the last trusted time |
| Clock.NeverBackwards | client/src/clock.rs:120-150 | across suspends and reboots trusted time goes back only where NTP or the server vouches for it |
| Clock.AdvancesWithBoottime | client/src/clock.rs:146-150 | between re-anchors it advances exactly with boot time |
| Clock.MarkNeverFalls | client/src/clock.rs:120-150 | unless NTP vouches for a lower one the mark never falls, even with a boot time that does |
| Clock.SourceMeans | client/src/clock.rs:104-150 | the source named is that of the last re-anchoring, over any run |
| Attrib.Attrib.CountApps | client/src/attrib.rs:730-774 | a walk credits every (user, app) what AppCredit says of its history, each into the table, and forgets what is gone |
| Attrib.Attrib.IngestLines | client/src/attrib.rs:653-675 | the text's hits and blocked names, line by line as Names.ReadLine reads them, into their bounded tables; what that adds to each is BlockedGains and HitsGain |
| Attrib.Attrib.TakeChunk | client/src/attrib.rs:782-826 | a tick's read takes the text LogTail.Read says, and moves the offset |
| Attrib.Attrib.IngestDnsLogAt | client/src/attrib.rs:782-834 | one tick of the log counts that text, and cuts the file over 20 MB |
| Attrib.Attrib.TakeBlocked | client/src/attrib.rs:644-648 | the blocked names so far are handed over and forgotten |
| Attrib.Attrib.Drain | client/src/attrib.rs:837-855 | min(cap, size) distinct slices leave the table with their amounts |
| Attrib.Attrib.Requeue | client/src/attrib.rs:857-879 | a failed batch goes back slice by slice, within the bound |
| Attrib.TailingCountsOnePass | client/src/attrib.rs:653-675 | over any appends, short reads and ticks, the hits per site and the blocked names are those of one pass over the text, the blocked counts exact while within 256 names |
| Attrib.BlockedGains | client/src/attrib.rs:663-672 | over a tick's text each name gains the lines that answer it as blocked, unless it was absent from a full table of 256; and with room for all of them every name does |
| Attrib.HitsGain | client/src/attrib.rs:653-663 | each site's slice of the hour gains the lines in which a person looks it up, unless it was absent from a full table |
| Attrib.WalksCreditWhatIsDeserved | client/src/attrib.rs:730-774 | over any run of walks, each app of each person is credited in all what its stays deserve, whatever else runs |
| LogTail.ChunksAreTheFile | client/src/attrib.rs:782-826 | the chunks put together are the file from the primed offset to the present one |
| LogTail.WholeLinesIff | client/src/attrib.rs:806-823 | every chunk is whole lines if and only if no 2 MB of what was consumed lack an end of line |
| LogTail.TailingIsOnePass | client/src/attrib.rs:806-826 | the lines passed on are the lines of one pass over that text |
| LogTail.OverlongIsPassedOn | client/src/attrib.rs:816-826 | an over-long line's fragment is passed on as if it were a line |
| LogTail.TickTakes | client/src/attrib.rs:789-826 | of the at most 2 MB a tick sees from its offset, or from the start of a file that shrank, it takes all up to the last end of line; without one, 2 MB whole and nothing of less; over 20 MB the file starts again |
| LogTail.CatchesUp | client/src/attrib.rs:789-826 | a tick that sees all of it, under 2 MB and up to an end of line, leaves nothing unread |
| LogTail.LinesMean | client/src/attrib.rs:654 | a line ends at `\n`, with or without `\r`, or at the end of the text |
| AppCredit.CreditIsDeserved | client/src/attrib.rs:756-772 | over any history each stay of an app is credited all of its seconds, from its start, or none; until it counts all are held, at most 60 |
| AppCredit.SearchProvidersNeverCount | client/src/attrib.rs:723-729 | a bus-started app that always leaves within the grace is never credited |
| AppCredit.RunningMeans | client/src/attrib.rs:736-747 | an app runs if some process of it does, and was opened if some process was |
| AppCredit.OrderAndNumberDoNotMatter | client/src/attrib.rs:736-747 | the order and number of an app's processes change nothing |
| AppCredit.SightMeans | client/src/attrib.rs:736-755 | a walk shows an app as running, opened or not, gone, or not looked at |
| Slices.SlicesAreConserved | client/src/attrib.rs:837-879 | pending, in flight, posted and lost add up to everything accepted, under any interleaving, and the table keeps its bound |
| Slices.LossNeedsFullTable | client/src/attrib.rs:873-875 | something is lost only by a failed post, for a key absent from a full table |
| Slices.NothingIsLostWithinTheBound | client/src/attrib.rs:837-879 | while no more than 2000 different slices were sampled, all that was sampled is pending, in flight or posted |
| Slices.RoundPostsOrPutsBack | client/src/attrib.rs:837-879 | a batch whose post goes through is posted whole, one whose post fails at once is back as it was |
| Tally.AllOrNothing | client/src/attrib.rs:683-687 | a bounded table gives a key everything added for it, or nothing, and nothing only if it was absent and the table full |
| Tally.WholeIffFits | client/src/attrib.rs:664-669 | every key and amount is taken if and only if all keys fit |
| Names.QueryIsReadBack | client/src/attrib.rs:597-604 | the name is read back from every line in dnsmasq's query form |
| Names.QueryIsCounted | client/src/attrib.rs:653-663 | such a line counts for the name's site exactly when a person made the lookup and the site has a dot, and is never a block |
| Names.BlockedNameIff | client/src/attrib.rs:586-593 | a line blocks a name exactly when its first `config` answers it with 0.0.0.0 or ::, so never an upstream's reply |
| Names.BlockIsCountedIff | client/src/attrib.rs:653-675 | a line no query is found in is never a visit, and counts as a block of a name exactly when its first `config` answers it so, a person made the lookup and the name, in small letters without trailing dots, has a dot |
| Names.BlockIsCounted | client/src/attrib.rs:663-672 | in particular every line in dnsmasq's form for such an answer |
| Names.WordsOfParts | client/src/attrib.rs:587 | the words of a line are those of its parts |
| Names.RegistrableIsStable | client/src/attrib.rs:564-577 | a site is its own site |
| Names.SubdomainsShareTheSiteIff | client/src/attrib.rs:564-577 | whatever the letter case and trailing dots, a subdomain counts for its parent's site exactly when the parent is not a bare public second level or under two labels |
| Incidents.Incidents.ReportAt | client/src/tamper.rs:277-303 | a tick reports the first signal of each key that is neither open nor reported within the hour, and remembers the rest |
| Incidents.OneReportPerKey | client/src/tamper.rs:280-300 | one report per such key, whatever else the tick saw |
| Incidents.ReportedIff | client/src/tamper.rs:254-303 | over any history a key is reported exactly when an episode starts an hour or more after each earlier report |
| Incidents.NeverTwice | client/src/tamper.rs:251-258 | never twice within an hour, nor twice in one unbroken episode |
| Incidents.FirstSightingIsReported | client/src/tamper.rs:254-258 | the first sighting always is |
| Incidents.QuietEpisodeStaysQuiet | client/src/tamper.rs:292-299 | an episode not reported at its start is never reported |
| Incidents.TickReports | client/src/tamper.rs:277-303 | over any history of ticks each key is reported, whatever others do, exactly in the ticks ReportedIff says, and once in each |
| Incidents.FirstIsReported | client/src/tamper.rs:280-300 | what is reported of a key is the tick's first signal of it |
| Incidents.TamperMonitor.Observe | client/src/tamper.rs:443-465 | the monitored kind's streak grows, confirms or resets |
| Incidents.ConfirmedIff | client/src/tamper.rs:443-465 | over any history a kind is confirmed exactly at the threshold-th consecutive sighting after the boot grace |
| Incidents.ConfirmedOncePerStreak | client/src/tamper.rs:443-465 | between two confirmations the streak was broken |
| Incidents.FlushIsConfirmed | client/src/tamper.rs:396-405 | a flushed firewall alone is confirmed, at its second sighting in a row from 120 s on |
| Gaps.GapIncidents | client/src/runner.rs:121-146 | the events are those of the areas that newly have a gap, and the open areas, which are what the history below carries on, are exactly those with one, sorted |
| Gaps.OnePerNewArea | client/src/runner.rs:121-146 | one event for each area with a gap not reported yet, none for any other |
| Gaps.ListsWholeArea | client/src/runner.rs:134-143 | each event of an apply lists its area's gaps, kind with detail, as often as they stand, and no others |
| Gaps.NamedAfterTheFirst | client/src/runner.rs:126-143 | and is named after the first of them |
| Gaps.OneEventPerRisingEdge | client/src/runner.rs:1337-1343 | over any history of applies and restarts, one event exactly when an area has a gap and had none at the apply before |
| Gaps.AreaMeans | client/src/runner.rs:103-109 | `dns_`, `firewall_` and `vpn_` gaps are one area each, any other kind its own |
| Billing.Biller.BillTick | client/src/runner.rs:1863-1881 | a tick bills the whole seconds to everyone counting and carries the rest |
| Billing.WholeSeconds | client/src/runner.rs:3772-3775 | whole seconds and rest make up the duration, the rest under a second |
| Billing.TickBillsAtMostAMinute | client/src/runner.rs:3756-3759 | no tick bills more than 60 s, and the carry stays under 1 s |
| Billing.BilledIsAwakeTime | client/src/runner.rs:1863-1881 | over any run billed seconds plus carry are the sum of min(elapsed, 60 s) |
| Billing.BillableMeans | client/src/runner.rs:3756-3759 | the first tick and one whose clock has not moved on bill nothing, any other the time since, up to 60 s |
| Billing.OnlyCountingIsBilled | client/src/runner.rs:1871-1881 | over any run a tick bills exactly those it finds counting, and nobody else |
| Billing.AnnouncedIsSpentAt | client/src/runner.rs:2387-2413 | the verdict, reason and minutes included, is that of the moment the budget is really spent: announced until it has come, a stop from then on |
| Billing.StopHoldsStillIff | client/src/runner.rs:2396-2413 | over any run, whatever the two clocks do, that moment moves by how much further the trusted clock went than was billable, so it stands still if and only if they agree |
| Billing.StopMovesBySleepAndExcess | client/src/runner.rs:1858-1870 | which is the sleep and the corrections, and what the 60 s cap leaves out; with prompt ticks it stands still if and only if there were none |
| Billing.SleepMovesTheStop | client/src/runner.rs:3753-3757 | an hour's sleep between two prompt ticks moves an announced stop by the hour |
| Billing.ExcessIsLateness | client/src/runner.rs:3756-3759 | what the cap leaves out of the waking time is never negative, and nothing exactly when no two ticks are more than a minute of it apart |
| Billing.AnnouncedStopIsTheRealStop | client/src/runner.rs:5602-5660 | after any run the verdict is that of the moment first announced, so moved: the first tick at or after it is the stop, and none before |
| Billing.OverrideEndStays | client/src/runner.rs:2400-2408 | a stop that lands on an override's end is not moved |
| Billing.CarryMovesLimitsOnly | client/src/runner.rs:2387-2413 | a daily limit's stop of someone whose time counts, unless it lands on their override's end, comes earlier by the fraction carried, with the minutes left to match; any other verdict stands |
| Billing.DeviceStopIsTold | client/src/runner.rs:2414-2441 | a whole-device stop in force is a stop now, with reason and nothing left; a pause in its window stops when that closes, unless something comes first |
| Billing.PauseIsAnnounced | client/src/runner.rs:2414-2441 | allowed exactly when the rules allow and no whole-device stop is in force; a window that closes first is what is announced |
| NetworkPolicy.EffectiveNetworkPolicy | client/src/runner.rs:1463-1536 | the loop computes Effective of the users |
| NetworkPolicy.OrderDoesNotMatter | client/src/runner.rs:1455-1462 | every order of the users gives the same policy, upstream included |
| NetworkPolicy.BlocksAreUnion | client/src/runner.rs:1483-1519 | each block list is the sorted, duplicate-free union of everyone's, with the focus sites of those in focus |
| NetworkPolicy.BlocklistIsUnion | client/src/runner.rs:1484-1519 | so is the resolver's blocklist |
| NetworkPolicy.FlagsAreTightest | client/src/runner.rs:1497-1534 | a flag is on exactly when some user needs it, or, for DNS, DoH and DoT, when some user blocks an app, a category, a domain, a focus site or a name and filtering is not relaxed |
| NetworkPolicy.UpstreamFiltersMost | client/src/runner.rs:1466-1509 | the upstream is 1.1.1.3 exactly if anyone's is, else 1.1.1.2 exactly if anyone's is, else the base's |
| NetworkPolicy.RestIsTheBases | client/src/runner.rs:1466-1474 | all else is as the base has it: of those with screen time on, or of everyone if nobody has, the lowest by name |
| NetworkPolicy.BaseMeans | client/src/runner.rs:1466-1474 | the base precedes every other user: managed first, then by name |
| Strings.BeforeMeans | client/src/runner.rs:1512-1520 | the order is that of the first characters that differ, with the shorter first |
| Strings.OrderedIsUnique | client/src/runner.rs:1512-1520 | sorted and deduplicated, a list is determined by which strings it has |

## Left out

- Failed disk writes, and a crash in the middle of a step: every step and its writes are atomic, so the disk equals the live state whenever a restart happens.
- Two processes racing on `parent_code.json`, or on the agent's files: saves are sequential and durable.
- What screen-time rules, overrides and grants evaluate to: each step is given whom the rules stop, for whom an override is in force, and what was announced.
- The lock's insides (graphical and text lock, VT switching, placement): a lock is shown or not, can be kept or not, and turns only to people who are stopped.
- Freezing itself: a freeze or thaw ordered of the machine succeeds; sessions that end and thaws by others are steps of their own.
- One step reads the clock once and one list of who is logged in; who is on screen may differ each time it is asked for.
- What engages the offline lockdown (days without the server, a network, a credential on the computer): each tick is told whether it is engaged.
- The once-a-minute probe, which refreezes whoever is stopped once more and reports it.
- The seconds-since-the-lock count behind the snooze: the wait and the number used are inputs.
- HMAC, SHA-1 and argon2: arbitrary functions.
- Overflow of 32- and 64-bit counters of seconds, ids, failures and amounts, and the billing speed-up for development.
- The day's roll of the ledger at midnight, which starts the budget and the seconds used afresh.
- Sub-millisecond truncation in the rules' forward walk: a limit's verdict is taken as now plus what is left of the budget.
- A log cut at 20 MB can lose lines not read yet; the exactly-once results assume it stays below. A cut that fails is not modelled as a second reading of the file.
- Invalid UTF-8 in the log, and a character split by an over-long line's cut.
- Naming a process's app (desktop entries, units, catalog), and which lookups no person makes: an app or none, and a predicate on names, are inputs. Patterns with wildcards are not modelled.
- The order in which take_blocked lists the names, and the order in which one walk's apps are credited, which only matters to which key finds a full table.
- HTTP, WebSocket and JSON shapes, notification wording, the shared status file for people without rules here, focus-hours and relaxation timing, DNS and firewall rendering.
- Agent.Agent.CreditCommanded: duplicate and stale-day grants change no enforcement state and are OtherCommand steps.
- LogTail.TailingIsOnePass: assumes every line shorter than one read, because an over-long one is passed on in pieces.
