# Verified models of the device support code

A Dafny project that models the hardest logic of a vendor device tree and proves what it promises:
a string search used by the over-the-air updater, the GNSS stack's state machines and multiplexers, and the
script that keeps a blob list in order. There is one module for each part.

`dafny verify dfyconfig.toml` checks everything.

| file | what it models | main results |
|---|---|---|
| `BoyerMoore.dfy` | the Boyer-Moore search of the updater | terminates and is sound for every non-empty pattern; finds the leftmost occurrence in every text if and only if the pattern is `Safe`; all patterns without a border are |
| `AgpsModel.dfy`, `AgpsProperties.dfy`, `AgpsLaws.dfy`, `Agps.dfy` | the AGPS subscriber state machine and its manager | list, state and data-connection invariants of every reachable state; every inserted subscriber gets exactly one terminal callback or is still listed; exactly when an active subscriber has been told of an open connection; when a RELEASE names what its REQUEST named |
| `OrderedMaps.dfy` | loops over a `std::map` that take 0 for "not set yet" | what such a loop finds |
| `Tracking.dfy` | the time-based tracking multiplexer | the modem's interval is never above any session's; exactly when a session's start, update or stop asks the modem, when the interval is the one needed, and when the modem runs |
| `SvIdConfig.dfy` | the satellite-id list and mask converters | both round trips, bit by bit, and the order of the list |
| `Odcpi.dfy` | ODCPI requests and their timer | exact accounting of START callbacks; exactly what each event of a run sends |
| `TripBatching.dfy` | trip batching distances | with timely reports no trip completes early; over any run, whatever is reported, the exact condition for the counts to be exact; what batch every join, stop and report leaves, and exactly when it ends in time |
| `PathOrder.dfy` | the path comparator and the section sort | the comparator is a consistent order on a set of lines if and only if `Consistent` accepts it; sorting groups directories and keeps tied lines in order |
| `RealtimeEstimator.dfy` | the elapsed-time estimator | estimates of a stable phase differ exactly as their data timestamps |
| `AdapterArray.dfy` | the adapter registry | hole-free distinct prefix; removal removes exactly its argument; in every run the modem interface is closed exactly when no adapter is left |
| `NetworkHandles.dfy` | the network-handle table | the table is a bounded set of networks, over every run of events |
| `Subscriptions.dfy` | the two-way subscription index, the item cache and what clients are told | the maps stay inverses if and only if no client with items updates them; clients stay informed if and only if no update keeps an item; exactly what the framework is asked for and what each client is sent |
| `NmeaTokenizer.dfy` | the debug-sentence tokenizer | lossless, uniquely determined, and the inverse of writing a sentence |

## How it is built

Code that changes state step by step is a class or a method with a loop. Each is proved equal to a function on
values (`View() == Step(old(View()), ...)`, `r == Search(str, pat)`), and the theorems are about those functions,
their runs, and definitions that do not mention them (`OccursAt`, `Names`, `Travelled`, `Listings`, ...). Ghost fields
record what the code emits: callbacks, data-connection requests, the modem's last interval, the true odometer.

The session and trip maps are `std::map`s, so the loops over them run in key order. Two of them take 0 for "not set yet", and so find
the smallest value behind the last entry that is 0. `OrderedMaps` proves that once, for the power modes of tracking
sessions and for the minima over trips.

## What the code does not promise

Several properties one would expect are false of the code. Each is settled by an exact condition, and a concrete
input where it fails.

- The first loop of `bm_make_delta2` tests the suffix at p and records p + 1. Searching "aba" in "acaba" finds
  nothing (`BorderedPatternIsMissed`). The search is complete exactly for `Safe` patterns: those in which no mismatch
  position relies on a border start that the table steps over. The pattern the updater searches for is safe.
- `strcoll_extract_utils` is not transitive on lines without a '/': "lib" < "lib-b" < "lib/a/x" < "lib"
  (`SlashlessCycle`). It is exactly on sets where such a line does not name a directory with subdirectories while
  another line continues its name with a character below '/'. Sets of lines with a '/' always qualify.
- `LocUnorderedSetMap::update` is documented to return the values it removes and returns the ones it keeps. So
  `updateSubscription` takes the client off the items it keeps and leaves it on the ones it gave up
  (`UpdateCanLoseClient`). The two maps stay inverses exactly when the updating client had no items. With the
  documented result they would always be inverses (`DocumentedUpdateKeepsInverse`). A client that updates and keeps an
  item is not told when that item changes. Over any run of operations and reports every client holds the current value
  of everything it asked for, now and after any next report, exactly when no update keeps an item
  (`RunKeepsInformedIff`).
- The first network event is stored without being collated, so a first event that disconnects a known handle leaves
  that handle listed. Otherwise the table is the wanted set at every point (`ReportedIsWantedIff`).
- An update that raises the one session with the smallest interval to at least the smallest of the others leaves the
  modem at the old, faster interval (`UpdateCanLeaveModemFast`), unless NHz engines fix the interval or the update's
  power mode is below those of all sessions behind the last one without a mode. When all others have a mode, that is:
  unless it is below all of theirs. A start that reuses that session's id for a slower session does the same; ids come
  from a counter, so a start reuses one only after 2^32 of them (gps/core/LocAdapterBase.cpp:64-70). No other event
  does.
- A session that starts after a suspension and asks for nothing faster finds the modem stopped and leaves it so
  (`SuspendedModemStaysStopped`). The modem runs exactly when there is a session and it has been asked to start since
  the last suspension.
- Two things make exact trip counts wrong, and only these two, whatever is reported: a join that restarts the batch
  while another trip has travelled since it was last booked by its join, a report, or a stop's restart
  (`JoinCanLoseDistance`), and a report that is not of the current distance, completes a trip, and restarts the batch
  for the others (`LateReportCanLoseDistance`). The distance lost makes trips complete late.
- When a batch is restarted only because the interval changes, it keeps its full distance rather than what was left of
  it, so it can end after the trip with least left does (`IntervalRestartEndsLate`). With up-to-date counts that is the
  only way (`RebatchEndsInTimeIff`).
- A report older than a trip's join wraps at 32 bits and can complete that trip at once
  (`StaleReportCompletesEarly`). In any run, after timely reports, the next report completes a trip early exactly when
  for some trip it is older than the join, or from an earlier batch, and what it then counts reaches the trip's
  distance before the trip does (`RunCompletesEarlyIff`).
- A data connection is released under the type and APN types of the latest request, so a RELEASE can name something
  other than the REQUEST it ends (`ReleaseCanNameOtherMask`): exactly when the latest request
  it has served named something else.

## Model

| member | source | states |
|---|---|---|
| BoyerMoore.MaxSuffixLen | recovery/recovery_updater.cpp:47-55 | the result is the length, capped at p, of the longest common suffix of the pattern and its prefix ending at p |
| BoyerMoore.MakeDelta1 | recovery/recovery_updater.cpp:60-69 | each byte's entry is the distance from the last pattern byte to the rightmost earlier occurrence of that byte |
| BoyerMoore.Delta1Meaning | recovery/recovery_updater.cpp:60-69 | the bad-byte entry is the distance to the rightmost earlier occurrence of the byte, or the pattern's length when there is none |
| BoyerMoore.FillPrefixes | recovery/recovery_updater.cpp:72-84 | the first loop leaves the prefix value of every position |
| BoyerMoore.StrncmpIff | recovery/recovery_updater.cpp:76-84 | the comparison says zero if and only if the bytes agree as far as no zero byte has ended both strings |
| BoyerMoore.Realign | recovery/recovery_updater.cpp:86-92 | one step of the second loop changes exactly the entry its suffix length names, and only when the preceding bytes differ |
| BoyerMoore.MakeDelta2 | recovery/recovery_updater.cpp:72-92 | the array ends up as the table whose entries `Delta2Meaning` explains |
| BoyerMoore.Delta2Meaning | recovery/recovery_updater.cpp:72-92 | each entry realigns the matched suffix at its rightmost earlier occurrence behind a different byte; where none exists it holds the first-loop prefix value |
| BoyerMoore.Delta2Range | recovery/recovery_updater.cpp:72-92 | every entry moves the window forward, by at most the pattern's length |
| BoyerMoore.RealignAt | recovery/recovery_updater.cpp:47-55 | the capped suffix length at p names the only position whose suffix realigns at p |
| BoyerMoore.Delta1NeverSkips | recovery/recovery_updater.cpp:117 | the bad-byte shift passes no later occurrence, for any pattern |
| BoyerMoore.Delta2NeverSkips | recovery/recovery_updater.cpp:117 | the good-suffix shift passes no later occurrence, for a safe pattern |
| BoyerMoore.ShiftNeverSkips | recovery/recovery_updater.cpp:117 | the larger of the two shifts passes no later occurrence |
| BoyerMoore.NextEnd | recovery/recovery_updater.cpp:106-118 | after a mismatch the window end strictly increases |
| BoyerMoore.NextEndIsLarger | recovery/recovery_updater.cpp:117 | the window moves by at least each of the two shifts, and by no more than one of them asks for |
| BoyerMoore.MatchBackwards | recovery/recovery_updater.cpp:109-113 | the inner loop stops at the window's rightmost mismatch, or before its start |
| BoyerMoore.ScanWindow | recovery/recovery_updater.cpp:107-117 | one window either matches, or the next one ends strictly later and the search goes on from there |
| BoyerMoore.ScanWindows | recovery/recovery_updater.cpp:106-120 | the scanning loop, with every index in range, computes the scan |
| BoyerMoore.BmSearch | recovery/recovery_updater.cpp:94-120 | any result is a true occurrence; for a safe pattern it is the leftmost one, and none exactly when there is none |
| BoyerMoore.SearchSound | recovery/recovery_updater.cpp:94-120 | for every text and non-empty pattern a reported position is a true occurrence |
| BoyerMoore.SearchComplete | recovery/recovery_updater.cpp:94-120 | for a safe pattern the search is the naive "first occurrence" search |
| BoyerMoore.SearchIsCompleteIffSafe | recovery/recovery_updater.cpp:72-120 | the search finds the leftmost occurrence in every text if and only if the pattern is safe |
| BoyerMoore.UnsafeMisses | recovery/recovery_updater.cpp:78-84 | for every unsafe pattern, a text in which it occurs and the search reports nothing |
| BoyerMoore.UnborderedIsComplete | recovery/recovery_updater.cpp:94-120 | the search is complete for every pattern without a proper border |
| BoyerMoore.BasebandLiteralIsFound | recovery/recovery_updater.cpp:41-42 | the version marker the updater looks for is found at its first occurrence in every buffer |
| BoyerMoore.BorderedPatternIsMissed | recovery/recovery_updater.cpp:78-84 | "aba" occurs in "acaba" and is not found |
| Agps.AgpsStateMachine.AddSubscriber | gps/gnss/Agps.cpp:392-411 | a subscriber is appended exactly when its handle is not listed |
| Agps.AgpsStateMachine.DeleteSubscriber | gps/gnss/Agps.cpp:413-430 | the erasing walk removes exactly the entries with the handle and keeps the order of the others |
| Agps.AgpsStateMachine.AnyActiveSubscribers | gps/gnss/Agps.cpp:432-442 | true exactly when some listed subscriber is active |
| Agps.AgpsStateMachine.GetSubscriber | gps/gnss/Agps.cpp:465-478 | the listed subscriber with the handle, or none exactly when it is not listed |
| Agps.AgpsStateMachine.SetAPN | gps/gnss/Agps.cpp:444-463 | an access point name that is missing, too long or of another length than said is forgotten |
| Agps.AgpsStateMachine.RequestOrReleaseDataConn | gps/gnss/Agps.cpp:289-308 | one REQUEST or RELEASE with the machine's type and APN types goes to the framework |
| Agps.AgpsStateMachine.NotifyEventToSubscriber | gps/gnss/Agps.cpp:345-380 | the callback for the event, with the machine's state, access point, bearer, type and APN types, then removal if asked for |
| Agps.AgpsStateMachine.NotifyAllSubscribers | gps/gnss/Agps.cpp:310-343 | exactly the audience hears the event, in list order, and exactly it leaves when the walk deletes |
| Agps.WalkTellsAudience | gps/gnss/Agps.cpp:310-343 | an erase-while-iterating walk is a filter: it skips and repeats nobody |
| Agps.AgpsStateMachine.ProcessSubscribe | gps/gnss/Agps.cpp:73-107 | the subscribe event in each of the four states |
| Agps.AgpsStateMachine.ProcessUnsubscribe | gps/gnss/Agps.cpp:109-171 | the unsubscribe event in each of the four states |
| Agps.AgpsStateMachine.ProcessGranted | gps/gnss/Agps.cpp:173-194 | a grant acts only in PENDING and tells the active subscribers |
| Agps.AgpsStateMachine.ProcessReleased | gps/gnss/Agps.cpp:196-241 | a close empties an acquired machine; while releasing it tells the waiting ones and starts over for active ones |
| Agps.AgpsStateMachine.ProcessDenied | gps/gnss/Agps.cpp:243-283 | a denial empties a pending machine and ends a releasing one like a close |
| Agps.AgpsStateMachine.DropAllSubscribers | gps/gnss/Agps.cpp:495-506 | the list is emptied without any callback or state change |
| Agps.AgpsManager.RequestATL | gps/gnss/Agps.cpp:563-597 | after the emergency rewriting the serving machine takes over type and APN types and subscribes the handle; without a machine the request is refused |
| Agps.AgpsManager.ReleaseATL | gps/gnss/Agps.cpp:599-625 | the machine that lists the handle, AGNSS first, gets the unsubscribe; an unknown handle changes nothing |
| Agps.AgpsManager.ReportAtlOpenSuccess | gps/gnss/Agps.cpp:627-644 | the machine of the type takes over bearer and checked access point, then gets the grant |
| Agps.AgpsManager.ReportAtlOpenFailed | gps/gnss/Agps.cpp:646-653 | the denial reaches the machine of the type |
| Agps.AgpsManager.ReportAtlClosed | gps/gnss/Agps.cpp:655-662 | the close reaches the machine of the type |
| Agps.AgpsManager.HandleModemSSR | gps/gnss/Agps.cpp:664-675 | both machines drop their subscribers |
| AgpsProperties.AddConserves | gps/gnss/Agps.cpp:392-411 | an insertion is accounted for by the new listing |
| AgpsProperties.TellAllConserves | gps/gnss/Agps.cpp:310-343 | a deleting walk replaces each listing by one terminal callback |
| AgpsProperties.LeaveConserves | gps/gnss/Agps.cpp:118-166 | leaving, at once or by waiting inactive, keeps the accounting |
| AgpsProperties.StepKeeps | gps/gnss/Agps.cpp:73-283 | every event keeps the invariants, and every event but a modem restart keeps a settled manager settled |
| AgpsProperties.RunKeepsInv | gps/gnss/Agps.cpp:73-283 | in every reachable state, restarts included: RELEASED means an empty list, handles are distinct, successful opens happen only in ACQUIRED, the data-connection stream starts with REQUEST, never repeats RELEASE and ends as the state says, and the handle accounting balances |
| AgpsProperties.RunStaysSettled | gps/gnss/Agps.cpp:73-283 | without a modem restart an empty list means RELEASED, and PENDING or ACQUIRED has an active subscriber |
| AgpsProperties.InsertionsAreAnswered | gps/gnss/Agps.cpp:109-283 | in every run without a restart, for each handle, insertions equal terminal callbacks plus one if it is still listed |
| AgpsProperties.ReleaseFindsLiveMachine | gps/gnss/Agps.cpp:599-625 | a release never reaches a machine in RELEASED |
| AgpsProperties.LinkFollowsRequests | gps/gnss/Agps.cpp:563-597 | in every reachable state a machine's type and APN types are those of the latest request it has served |
| AgpsProperties.ReleaseNamesRequestIff | gps/gnss/Agps.cpp:109-171 | in every reachable state, the RELEASE an unsubscription sends names what the REQUEST before it named if and only if the latest request served did |
| AgpsProperties.ReleaseCanNameOtherMask | gps/gnss/Agps.cpp:289-308 | two subscribers with different APN types: requested for the first one's, released for the second one's |
| AgpsLaws.WalkTells | gps/gnss/Agps.cpp:310-343 | a walk makes its callback once for each listing in its audience, and no other callback |
| AgpsLaws.GrantTells | gps/gnss/Agps.cpp:173-194 | in PENDING a grant tells each active listing once of a successful open with the link just reported, and nobody else; in any other state it changes nothing |
| AgpsLaws.CloseTells | gps/gnss/Agps.cpp:196-241 | in ACQUIRED a close is told to every listing and nobody stays; while releasing it ends the release; otherwise it changes nothing |
| AgpsLaws.FinishTells | gps/gnss/Agps.cpp:216-232 | the end of a release is told to those who wait for it; exactly the active subscribers stay, and a connection is requested anew exactly when there are any |
| AgpsLaws.DenyTells | gps/gnss/Agps.cpp:243-283 | in PENDING a denial is told to every listing as a failed open and nobody stays |
| AgpsLaws.SubscribeLists | gps/gnss/Agps.cpp:73-107 | a subscription lists its handle, nobody leaves, and the framework is asked exactly when the machine was RELEASED |
| AgpsLaws.SubscribeTells | gps/gnss/Agps.cpp:92-98 | a subscription is answered at once, with one successful open, exactly in ACQUIRED |
| AgpsLaws.UnsubscribeLeaves | gps/gnss/Agps.cpp:109-171 | an unsubscription leaves every other handle as it is; its own is gone or waits inactive, as it asked to |
| AgpsLaws.UnsubscribeTells | gps/gnss/Agps.cpp:109-171 | only the one that is gone is told, once |
| AgpsLaws.UnsubscribeReleases | gps/gnss/Agps.cpp:118-166 | a RELEASE is sent exactly when the last active subscriber leaves a connection that is not being released yet; the machine then is RELEASED exactly when nobody is listed |
| AgpsLaws.UnsubscribeReleased | gps/gnss/Agps.cpp:113-116 | without a connection an unsubscription is answered and changes nothing |
| AgpsLaws.RestartIsSilent | gps/gnss/Agps.cpp:495-506 | a modem restart empties the list and tells nobody |
| AgpsLaws.RunKeepsOpen | gps/gnss/Agps.cpp:73-283 | in every reachable state, restarts included, the last callback to each active subscriber of a machine in ACQUIRED is a successful open |
| AgpsLaws.ActiveIsOpenIff | gps/gnss/Agps.cpp:73-283 | in every run without a restart, the last callback to an active subscriber is a successful open if and only if its machine is in ACQUIRED |
| AgpsLaws.TypeRewriting | gps/gnss/Agps.cpp:537-575 | without an emergency PDN emergency SUPL becomes plain SUPL, no other type changes, and the serving machine stays the same |
| AgpsLaws.MaskRewriting | gps/gnss/Agps.cpp:563-575 | the emergency bit of the APN types is then exchanged for the SUPL bit, and no other bit changes |
| AgpsLaws.StepTouchesOne | gps/gnss/Agps.cpp:537-662 | an input for one machine leaves the other alone; a request is refused exactly when its machine does not exist |
| AgpsLaws.ReportReaches | gps/gnss/Agps.cpp:646-675 | each report reaches the machine of its type as the event of its name, and a modem restart reaches both |
| AgpsLaws.ReleaseGoesTo | gps/gnss/Agps.cpp:599-625 | a release goes to the AGNSS machine if that lists the handle, otherwise to the other one if that does, and the handle is given up there; nothing else changes |
| AgpsLaws.LinkFollowsOpens | gps/gnss/Agps.cpp:627-644 | in every reachable state the bearer is that of the latest successful open, and the access point name too, if it was given with its own length of at most 100; else there is none |
| Tracking.GnssAdapter.CheckAndSetSPEToRunforNHz | gps/gnss/GnssAdapter.cpp:218-240 | whether no request is needed, the interval to ask for, and the flag |
| OrderedMaps.IsFoundNext | gps/gnss/GnssAdapter.cpp:3024-3036 | taking one more entry in key order, 0 meaning "not set yet", keeps what the loop has found: the smallest value behind the last entry that is 0 |
| OrderedMaps.FoundExists | gps/gnss/GnssAdapter.cpp:3024-3036 | every map has such a value |
| Tracking.GnssAdapter.FindSmallest | gps/gnss/GnssAdapter.cpp:3021-3036 | the smallest interval, and the lowest power mode of the sessions behind the last one without a mode |
| Tracking.PowerComparison | gps/gnss/GnssAdapter.cpp:3030-3048 | comparing with the power mode found decides whether a mode is below those of all these sessions |
| Tracking.PowerComparisonAllSet | gps/gnss/GnssAdapter.cpp:3030-3048 | when every session has a mode, whether it is below all of them |
| Tracking.PowerComparisonBehind | gps/gnss/GnssAdapter.cpp:3024-3048 | behind the last session without a mode, the comparison is with the sessions after it alone |
| Tracking.JoinAsksIff | gps/gnss/GnssAdapter.cpp:3019-3048 | a start among others asks the modem if and only if it is faster than all or of lower mode than all; with unset modes, than all behind the last one without a mode |
| Tracking.ChangeAsksIff | gps/gnss/GnssAdapter.cpp:3264-3298 | an update among others asks the modem if and only if it changes interval or mode and then is faster than the others or of lower mode than them, in the same sense |
| Tracking.LeaveAsksIff | gps/gnss/GnssAdapter.cpp:3378-3412 | a stop that leaves others asks the modem if and only if its session was faster than all of them or of lower mode than all of them, in the same sense |
| Tracking.AloneAsks | gps/gnss/GnssAdapter.cpp:3007-3412 | the first session always asks; a lone one asks when it changes anything, and stops the modem when it leaves |
| Tracking.LowerModeLeaves | gps/gnss/GnssAdapter.cpp:3404-3410 | of two sessions at 1000 ms, the stop of the one with the lower mode asks the modem and that of the other does not |
| Tracking.NHzAsksOnce | gps/gnss/GnssAdapter.cpp:218-240 | with NHz engines one request for more than 100 ms brings the modem to 100 ms, and no later one is sent until it is stopped |
| Tracking.OthersArePassedOn | gps/gnss/GnssAdapter.cpp:218-240 | any other request is passed on with its own interval |
| Tracking.UnsetModeIsForgotten | gps/gnss/GnssAdapter.cpp:3264-3298 | with the others' modes unset and then 3 in key order, an update of a session from mode 3 to 2 asks the modem |
| Tracking.GnssAdapter.StartTimeBasedTrackingMultiplex | gps/gnss/GnssAdapter.cpp:3007-3060 | what a start asks of the modem, and that an answer is awaited exactly when it asks: for the first, the fastest or a lower-mode session |
| Tracking.GnssAdapter.UpdateTrackingMultiplex | gps/gnss/GnssAdapter.cpp:3251-3313 | what an update asks of the modem, and that an answer is awaited exactly when it asks: for a changed session that is alone, the fastest or of lower mode |
| Tracking.GnssAdapter.StopTimeBasedTrackingMultiplex | gps/gnss/GnssAdapter.cpp:3368-3416 | what a stop asks of the modem, and that an answer is awaited exactly when it stops it or asks: for a session that was the fastest or had the lowest mode |
| Tracking.GnssAdapter.StopTracking | gps/gnss/GnssAdapter.cpp:3418-3435 | the modem stops and the flag is cleared |
| Tracking.GnssAdapter.CheckAndRestartTimeBasedSession | gps/gnss/GnssAdapter.cpp:2659-2691 | a restart asks for the smallest interval of all sessions |
| Tracking.GnssAdapter.RestartSessions | gps/gnss/GnssAdapter.cpp:2601-2622 | the flag is cleared and the sessions restarted |
| Tracking.GnssAdapter.SuspendSessions | gps/gnss/GnssAdapter.cpp:2642-2656 | the modem stops if there are time-based sessions |
| Tracking.GnssAdapter.UpdateNHzRequirement | gps/gnss/GnssAdapter.cpp:6611-6614 | a changed requirement restarts the sessions |
| Tracking.GnssAdapter.SaveTrackingSession | gps/gnss/GnssAdapter.cpp:2839-2851 | the session is stored by its kind |
| Tracking.GnssAdapter.EraseTrackingSession | gps/gnss/GnssAdapter.cpp:2853-2867 | the session leaves the map it is in |
| Tracking.GnssAdapter.StartTracking | gps/gnss/GnssAdapter.cpp:2954-2998 | the whole start message, clamping and power lowering included |
| Tracking.GnssAdapter.UpdateTracking | gps/gnss/GnssAdapter.cpp:3155-3245 | the whole update message, its four branches in the source's order |
| Tracking.GnssAdapter.StopTrackingSession | gps/gnss/GnssAdapter.cpp:3334-3362 | the whole stop message |
| Tracking.StartSaves | gps/gnss/GnssAdapter.cpp:2954-2998 | a start without callbacks or options is dropped; any other adds its session to the map of its kind, with its interval clamped and its mode lowered as the source says, and touches no other session |
| Tracking.UpdateDropped | gps/gnss/GnssAdapter.cpp:3161-3170 | an update of an unknown session or without options is dropped |
| Tracking.UpdateToDistance | gps/gnss/GnssAdapter.cpp:3172-3243 | an update with a minimum distance leaves its session distance-based only |
| Tracking.UpdateToTime | gps/gnss/GnssAdapter.cpp:3172-3243 | an update without one leaves it time-based, and only that unless it was both |
| Tracking.StopErases | gps/gnss/GnssAdapter.cpp:3334-3362 | a stop removes its session, the time-based one first, and asks nothing of the time-based multiplexer when it was distance-based |
| Tracking.OthersKeepSessions | gps/gnss/GnssAdapter.cpp:2601-2656 | suspensions, restarts and changed requirements leave the sessions alone |
| Tracking.JoinKeepsInv | gps/gnss/GnssAdapter.cpp:3007-3060 | a start serves the new session and all others |
| Tracking.ChangeKeepsInv | gps/gnss/GnssAdapter.cpp:3251-3313 | an update serves all sessions |
| Tracking.LeaveKeepsInv | gps/gnss/GnssAdapter.cpp:3368-3416 | a stop serves the remaining sessions |
| Tracking.StepKeepsInv | gps/gnss/GnssAdapter.cpp:2602-3435 | every message keeps the invariant |
| Tracking.RunKeepsInv | gps/gnss/GnssAdapter.cpp:2602-3435 | in every reachable state with a session the modem's last interval is at most every session's; the flag implies that NHz is needed and the modem runs at 100 ms; without sessions the modem does not run |
| Tracking.StepRuns | gps/gnss/GnssAdapter.cpp:2602-3435 | after any message the modem runs if and only if there is a session and the message asked for it, or it ran before and was not suspended |
| Tracking.ModemRunsIff | gps/gnss/GnssAdapter.cpp:2602-3435 | in every reachable state the modem runs if and only if there is a session and it has been asked to start since the last suspension |
| Tracking.SuspendedModemStaysStopped | gps/gnss/GnssAdapter.cpp:2642-2656 | a concrete run with two sessions and a stopped modem |
| Tracking.JoinKeepsExactIff | gps/gnss/GnssAdapter.cpp:3007-3060 | a start keeps the interval exactly the needed one if and only if it does not reuse the id of the one fastest session for a slower one without NHz, which takes a wrapped session counter |
| Tracking.LeaveKeepsExact | gps/gnss/GnssAdapter.cpp:3368-3416 | a stop keeps the interval exactly the needed one |
| Tracking.ChangeKeepsExactIff | gps/gnss/GnssAdapter.cpp:3251-3313 | an update keeps it exact if and only if it does not raise the one fastest session to at least the smallest of the others, without NHz and with a power mode not below theirs |
| Tracking.SwitchKeepsExactIff | gps/gnss/GnssAdapter.cpp:3197-3217 | an update that turns a distance-based session into a time-based one keeps it exact, unless the key is in both maps and the update is of that one kind |
| Tracking.ChangeKeepsExactIffAllSet | gps/gnss/GnssAdapter.cpp:3251-3313 | the same in intervals and power modes alone, when all others have a mode |
| Tracking.StepKeepsExactIff | gps/gnss/GnssAdapter.cpp:2602-3435 | a message keeps it exact if and only if it is neither such an update nor such a start |
| Tracking.RunKeepsExactIff | gps/gnss/GnssAdapter.cpp:2602-3435 | over any run the interval is exactly the one needed at every point if and only if no such update or start occurs |
| Tracking.UpdateCanLeaveModemFast | gps/gnss/GnssAdapter.cpp:3270-3300 | a concrete run that ends with the modem at 200 ms while 1000 ms would do |
| SvIdConfig.ConvertEntry | gps/gnss/GnssAdapter.cpp:1753-1821 | one entry's effect, and that it is defined exactly when its shift is below 64 |
| SvIdConfig.ConvertToGnssSvIdConfig | gps/gnss/GnssAdapter.cpp:1739-1841 | defined exactly when every entry's shift is; then the masks after the list is folded in, and success exactly when they are not all zero or nothing was asked |
| SvIdConfig.ConvertGnssSvIdMaskToList | gps/gnss/GnssAdapter.cpp:1890-1929 | the entries of a mask are appended, id 0 alone for all ones |
| SvIdConfig.ConvertFromGnssSvIdConfig | gps/gnss/GnssAdapter.cpp:1843-1889 | the six masks' entries are appended, constellation by constellation |
| SvIdConfig.AddSetsNamedBits | gps/gnss/GnssAdapter.cpp:1753-1821 | one entry sets exactly the bits it names |
| SvIdConfig.ListSetsNamedBits | gps/gnss/GnssAdapter.cpp:1753-1821 | a list adds exactly the bits some entry names |
| SvIdConfig.EntryHasBit | gps/gnss/GnssAdapter.cpp:1907-1928 | every written entry is the id of a bit of the mask |
| SvIdConfig.BitHasEntry | gps/gnss/GnssAdapter.cpp:1907-1928 | every bit of the mask has its entry |
| SvIdConfig.SbasHalves | gps/gnss/GnssAdapter.cpp:1867-1883 | shifting the SBAS mask splits it into its two id ranges without loss |
| SvIdConfig.FromConfigListsBits | gps/gnss/GnssAdapter.cpp:1843-1929 | the written list names exactly the bits of the six masks |
| SvIdConfig.ListAscends | gps/gnss/GnssAdapter.cpp:1843-1929 | the written list is in the order of constellations and ids, with no id twice |
| SvIdConfig.IdTable | gps/gnss/GnssAdapter.cpp:1843-1889 | the id each bit of each mask stands for |
| SvIdConfig.ZeroStandsForAll | gps/gnss/GnssAdapter.cpp:1899-1905 | a mask of all ones is the id 0 alone, and the id 0 stands for nothing else; SBAS ids are written out |
| SvIdConfig.MasksRoundTrip | gps/gnss/GnssAdapter.cpp:1739-1929 | masks to list to masks is the identity, for any six 64-bit masks |
| SvIdConfig.ListRoundTrip | gps/gnss/GnssAdapter.cpp:1739-1929 | list to masks to list names the same satellites, whatever the order and the duplicates |
| SvIdConfig.SuccessMeansSomeValidEntry | gps/gnss/GnssAdapter.cpp:1823-1831 | from a cleared configuration, success is reported exactly when some entry names a bit |
| Odcpi.OdcpiTimer.Restart | gps/gnss/GnssAdapter.h:60-87 | a restarted timer is active |
| Odcpi.OdcpiAdapter.InitOdcpi | gps/gnss/GnssAdapter.cpp:4939-4950 | a callback of at least the current priority is registered, and WIFI requests subscribed to |
| Odcpi.OdcpiAdapter.RequestOdcpi | gps/gnss/GnssAdapter.cpp:4822-4869 | what a modem request does to the callbacks, the timer and the stored request |
| Odcpi.OdcpiAdapter.OdcpiTimerExpire | gps/gnss/GnssAdapter.cpp:5001-5014 | an expiry repeats the stored request while one is active, else stops the timer |
| Odcpi.OdcpiAdapter.RestartSessions | gps/gnss/GnssAdapter.cpp:2606-2609 | a modem restart deactivates the request and leaves the timer |
| Odcpi.StepKeepsInv | gps/gnss/GnssAdapter.cpp:4822-4869 | every step keeps: an active request has an active timer, WIFI requests are subscribed to exactly when there is a callback, and START callbacks are one for the running timer plus expiries plus upgrades |
| Odcpi.RunKeepsInv | gps/gnss/GnssAdapter.cpp:4822-5014 | the same over every run |
| Odcpi.UpgradeFindsTimerRunning | gps/gnss/GnssAdapter.cpp:4840-4848 | in every reachable state an emergency upgrade finds the timer running, so the plain start in that branch is never taken |
| Odcpi.StartsAreBounded | gps/gnss/GnssAdapter.cpp:4829-4869 | in any run START callbacks are at most one plus timer events plus upgrades |
| Odcpi.NoStartWhileTimerRuns | gps/gnss/GnssAdapter.cpp:4829-4856 | while the timer runs only its expiry or an upgrade asks the framework to start |
| Odcpi.PriorityIsHighest | gps/gnss/GnssAdapter.cpp:4939-4950 | over any run the priority is the highest of the initialisations, and a callback is registered exactly when there was one |
| Odcpi.RunStoresLatest | gps/gnss/GnssAdapter.cpp:4822-4869 | over any run the stored request is the latest start request, and it is active exactly while no stop or restart has come since |
| Odcpi.StepSends | gps/gnss/GnssAdapter.cpp:4822-5014 | over any run, exactly what each event sends: every stop request, a start request when the timer does not run or it upgrades to an emergency, and at an expiry the latest start request if it is in force |
| Odcpi.TimerRuns | gps/gnss/GnssAdapter.cpp:4822-5014 | over any run, the timer runs from any start request that is heard until it expires with no request in force |
| TripBatching.BatchingAdapter.FindMinima | gps/batching/BatchingAdapter.cpp:946-965 | the smallest remaining distance and interval of the trips behind the last one where it is 0 |
| TripBatching.BatchingAdapter.RestartTripBatching | gps/batching/BatchingAdapter.cpp:924-1029 | whether, for what and from which distance the batch is restarted, and what each trip carries over |
| TripBatching.BatchingAdapter.CarryTrips | gps/batching/BatchingAdapter.cpp:1009-1020 | every trip goes on from its current distance |
| TripBatching.BatchingAdapter.StartTripBatchingMultiplex | gps/batching/BatchingAdapter.cpp:750-858 | a join, with or without a restart of the batch |
| TripBatching.BatchingAdapter.StopTripBatchingMultiplex | gps/batching/BatchingAdapter.cpp:861-921 | a stop, remembering a lost interval or distance, and the restart it may cause |
| TripBatching.BatchingAdapter.TallyTrips | gps/batching/BatchingAdapter.cpp:662-701 | a report's loop completes exactly the trips whose count reaches their distance and updates the others |
| TripBatching.BatchingAdapter.ReportCompletedTrips | gps/batching/BatchingAdapter.cpp:648-708 | the whole report, with the restart after a completion |
| TripBatching.JoinAddsTrip | gps/batching/BatchingAdapter.cpp:787-856 | a join adds its trip with its own distance and interval and leaves those of the others |
| TripBatching.FirstJoinLeaves | gps/batching/BatchingAdapter.cpp:753-785 | the first trip gets a new batch of its own distance and interval |
| TripBatching.JoinLeaves | gps/batching/BatchingAdapter.cpp:787-856 | any later trip leaves a batch that still runs for the smaller of its own distance and what was left, at the smaller of the two intervals |
| TripBatching.LeastIsFound | gps/batching/BatchingAdapter.cpp:946-965 | when no trip has 0 for it, what the loop over the trips finds is the least remaining distance, or the least interval, of all |
| TripBatching.StopLeaves | gps/batching/BatchingAdapter.cpp:861-1029 | a stop leaves a batch that ends with the trip that has least left, if the trip that set the distance is gone, the distance has been run, or less is left than the batch would run; otherwise the distance is kept, from the start again if the interval changes; the interval becomes the fastest, if that is faster or the trip that set it is gone |
| TripBatching.LastStopLeaves | gps/batching/BatchingAdapter.cpp:924-944 | stopping the last trip leaves nothing to batch |
| TripBatching.UnknownStop | gps/batching/BatchingAdapter.cpp:480-490 | a stop of an unknown trip changes nothing |
| TripBatching.ReportCompletes | gps/batching/BatchingAdapter.cpp:662-701 | a report completes exactly the trips whose count reaches their distance |
| TripBatching.FreshReportCompletes | gps/batching/BatchingAdapter.cpp:662-701 | with exact counts a fresh report completes exactly the trips that have covered their distance, the restart included |
| TripBatching.ReportLeaves | gps/batching/BatchingAdapter.cpp:662-1029 | a report that completes trips leaves, for the others, the batch that `StopLeaves` describes |
| TripBatching.LastReportLeaves | gps/batching/BatchingAdapter.cpp:662-944 | a report that completes all trips leaves nothing to batch |
| TripBatching.RebatchEndsInTimeIff | gps/batching/BatchingAdapter.cpp:967-1007 | with up-to-date counts and something left of every trip, the batch after a possible restart ends no later than the trip with least left if and only if it is not one that keeps its full distance, because only the interval changes, although some trip has less left |
| TripBatching.IntervalRestartEndsLate | gps/batching/BatchingAdapter.cpp:967-1007 | a concrete stop after which the batch runs for 100 although the only trip has 50 left |
| TripBatching.JoinKeepsInv | gps/batching/BatchingAdapter.cpp:750-858 | a join never lets a count exceed the distance travelled |
| TripBatching.CountsAtMostIff | gps/batching/BatchingAdapter.cpp:672-674 | a report counts at most what a fresh one would for a trip if and only if it is not older than the trip's join nor from an earlier batch, and exactly that if and only if it is fresh |
| TripBatching.TallyKeepsInv | gps/batching/BatchingAdapter.cpp:662-701 | a timely report, even a late one, completes only trips that have covered their distance |
| TripBatching.RebatchKeepsInv | gps/batching/BatchingAdapter.cpp:924-1029 | a restart never lets a count exceed the distance travelled |
| TripBatching.StopKeepsInv | gps/batching/BatchingAdapter.cpp:861-921 | a stop never lets a count exceed the distance travelled |
| TripBatching.StepKeepsInv | gps/batching/BatchingAdapter.cpp:648-1029 | every step with timely reports keeps counts at most the true distance since the join |
| TripBatching.NoTripCompletesEarly | gps/batching/BatchingAdapter.cpp:648-1029 | in every run with timely reports a trip reported complete has really covered its distance |
| TripBatching.RunCountsHonestlyIff | gps/batching/BatchingAdapter.cpp:648-1029 | over any run, no report counts more for any trip than a fresh one would if and only if all reports are timely |
| TripBatching.CompletesEarlyIff | gps/batching/BatchingAdapter.cpp:672-678 | a report completes a trip that has not covered its distance if and only if it is not timely for it and what it counts, wrapped at 32 bits, reaches that distance |
| TripBatching.RunCompletesEarlyIff | gps/batching/BatchingAdapter.cpp:648-708 | in any run, after timely reports, the next event completes some trip early if and only if it is such a report for some trip |
| TripBatching.StaleReportCompletesEarly | gps/batching/BatchingAdapter.cpp:672-678 | a concrete report, queried before a trip joined, that completes the trip at once |
| TripBatching.FreshReportIsJustReported | gps/batching/BatchingAdapter.cpp:662-701 | right after a report of the current distance every trip's own count agrees with the counter, also when the report restarts the batch |
| TripBatching.MovementOutdatesReports | gps/batching/BatchingAdapter.cpp:672-674 | after the least movement it no longer does |
| TripBatching.JoinKeepsExactIff | gps/batching/BatchingAdapter.cpp:787-856 | a join keeps the counts exact if and only if it does not restart the batch or the other trips' own counts agree with the counter |
| TripBatching.CountedIsReading | gps/batching/BatchingAdapter.cpp:672-674 | with exact counts any report counts up to the odometer reading it stands for, wrapped when the trip joined after that, and counts what the trip has travelled if and only if it is fresh |
| TripBatching.ReportKeepsExactIff | gps/batching/BatchingAdapter.cpp:662-701 | a report, however old, keeps the counts exact if and only if it is fresh or does not restart the batch |
| TripBatching.StepKeepsExactIff | gps/batching/BatchingAdapter.cpp:648-1029 | a step keeps the counts exact if and only if it is neither such a join nor such a report |
| TripBatching.CompletesExactly | gps/batching/BatchingAdapter.cpp:668-678 | with exact counts a fresh report completes exactly the trips that have covered their distance |
| TripBatching.BooksFollowEvents | gps/batching/BatchingAdapter.cpp:648-1029 | over any run, while the counts are exact, each trip's own count is its distance up to its last join, report or restarting stop, modulo 2^32 |
| TripBatching.RunKeepsExactIff | gps/batching/BatchingAdapter.cpp:648-1029 | over any run, whatever is reported, the counts are exact at every point if and only if no join restarts the batch while another trip has moved since it was last booked, and no outdated report restarts it |
| TripBatching.JoinCanLoseDistance | gps/batching/BatchingAdapter.cpp:787-856 | a concrete join after which 50 travelled units are missing |
| TripBatching.LateReportCanLoseDistance | gps/batching/BatchingAdapter.cpp:662-701 | a concrete late report after which a trip of 60 is booked at 12 |
| PathOrder.CompareAntisymmetric | reorder-libs.py:18-49 | swapping the arguments negates the result |
| PathOrder.TiesOnlyMarkers | reorder-libs.py:23-36 | two lines tie if and only if they are equal or one is the other behind the build marker |
| PathOrder.MarkerIsIgnored | reorder-libs.py:23-26 | a marked line compares like the line without its marker, on either side |
| PathOrder.CompareIsKeyOrder | reorder-libs.py:18-49 | on a consistent set of lines the comparator is the lexicographic order of directory, then file name, with a directory's own files after its subdirectories |
| PathOrder.TransitiveIffConsistent | reorder-libs.py:18-49 | on a set of lines the comparator is transitive if and only if the set is consistent |
| PathOrder.SlashedLinesAreConsistent | reorder-libs.py:18-49 | every set of lines with a '/' is consistent |
| PathOrder.SlashlessCycle | reorder-libs.py:28-49 | "lib", "lib-b" and "lib/a/x" form a cycle |
| PathOrder.SortSorts | reorder-libs.py:62 | sorting by a consistent comparison gives a sorted permutation |
| PathOrder.SortIsStable | reorder-libs.py:62 | sorting by a consistent comparison keeps tied items in their order |
| PathOrder.SortIsUnique | reorder-libs.py:62 | only one arrangement is sorted and keeps the ties of a given list, so the sort is the one the library promises |
| PathOrder.SortedGroups | reorder-libs.py:18-49 | in any arrangement sorted by the comparator each directory's subtree is contiguous and subdirectories come first |
| PathOrder.SortedSection | reorder-libs.py:59-63 | a sorted section is a permutation of its lines, sorted, grouped by directory, and keeps lines that differ only in the marker in their order |
| PathOrder.OrderSections | reorder-libs.py:59-63 | the loop leaves every section as a permutation of itself, ordered, grouped and with its ties in order when its lines are consistent |
| RealtimeEstimator.ElapsedRealtimeEstimator.GetElapsedRealtimeEstimateNanos | gps/core/LocApiBase.cpp:932-982 | the estimate and the new state, for trusted and untrusted data and for failed clock readings |
| RealtimeEstimator.ElapsedRealtimeEstimator.ResetAll | gps/core/LocApiBase.cpp:984-990 | everything but the initial travel time is cleared |
| RealtimeEstimator.StableStep | gps/core/LocApiBase.cpp:963-970 | in a stable phase an estimate is the data timestamp plus an anchor that the step keeps |
| RealtimeEstimator.PhaseKeepsAnchor | gps/core/LocApiBase.cpp:966-975 | the clock-difference updates telescope over the phase |
| RealtimeEstimator.EstimatesFollowDataTime | gps/core/LocApiBase.cpp:932-982 | within a stable phase two estimates differ by exactly the difference of their data timestamps, however the realtime clock jumps |
| RealtimeEstimator.StableAfterFiveFixes | gps/core/LocApiBase.cpp:955-976 | without jumps, the sixth trusted fix after a reset is the first stable one |
| RealtimeEstimator.RunRemembersData | gps/core/LocApiBase.cpp:932-982 | over any run since a reset the estimator remembers the latest trusted data timestamp |
| RealtimeEstimator.WhatIsForgotten | gps/core/LocApiBase.cpp:984-990 | a reset forgets everything but the travel time; an untrusted fix or one without clocks changes nothing |
| RealtimeEstimator.JumpRestarts | gps/core/LocApiBase.cpp:950-976 | a trusted fix jumps if and only if its distance in data time from the latest one is not the expected one, if one is expected; it starts the countdown anew |
| RealtimeEstimator.EarlyEstimates | gps/core/LocApiBase.cpp:935-982 | without clocks there is no estimate; from an untrusted fix, a jump and during the countdown it is the boot-time clock less the travel time |
| RealtimeEstimator.PhaseEstimates | gps/core/LocApiBase.cpp:955-982 | every estimate of a stable phase is its data timestamp plus the boot-time delay of the fix that began it |
| AdapterArray.LocApiBase.constructor | gps/core/LocApiBase.cpp:155-166 | the array starts empty |
| AdapterArray.LocApiBase.AddAdapter | gps/core/LocApiBase.cpp:231-240 | an adapter is appended and an open message sent exactly when it is new and there is room |
| AdapterArray.LocApiBase.RemoveAdapter | gps/core/LocApiBase.cpp:242-276 | exactly the adapter leaves, the last entry takes its place, the prefix stays hole-free and distinct, and a close message is sent exactly when it becomes empty |
| AdapterArray.RemovedIsDifference | gps/core/LocApiBase.cpp:248-265 | moving the last entry removes the adapter and nothing else, and keeps the entries distinct |
| AdapterArray.RunKeepsInv | gps/core/LocApiBase.cpp:231-276 | over every sequence of additions and removals the adapters are distinct and fit, a close always follows an open, and the last message is a close exactly when no adapter is left |
| AdapterArray.RemoveUndoesAdd | gps/core/LocApiBase.cpp:231-276 | removing the adapter added last restores the registry |
| AdapterArray.RunHoldsWanted | gps/core/LocApiBase.cpp:231-276 | over every sequence of additions and removals the array holds exactly the adapters wanted, and one message was sent for each operation that changed them |
| AdapterArray.OrderKept | gps/core/LocApiBase.cpp:231-276 | a new adapter comes last, and a removal moves at most the last one, into the gap |
| AdapterArray.LocApiBase.GetEvtMask | gps/core/LocApiBase.cpp:168-175 | the events of the registered adapters, minus the excluded ones |
| NetworkHandles.Collate | gps/core/SystemStatus.h:514-586 | the table stays a prefix of distinct known handles, and stands for the old set with the event applied: insert if known, absent and there is room, remove if handle and type match |
| NetworkHandles.SetItemInReport | gps/core/SystemStatus.cpp:1354-1372 | the report's last item holds the event with its table applied, an item is added exactly when that changes something, and at most five are kept |
| NetworkHandles.ReportAll | gps/core/SystemStatus.cpp:1354-1372 | over every sequence of events the last reported table is well formed and stands for the reported set |
| NetworkHandles.ReportedIsWantedIff | gps/core/SystemStatus.cpp:1354-1372 | the table is the wanted set at every point if and only if the first event is not the disconnect of a known handle |
| NetworkHandles.Deleted | gps/core/SystemStatus.h:544-568 | moving the last valid slot into the deleted one removes exactly that network |
| NetworkHandles.Inserted | gps/core/SystemStatus.h:527-539 | filling the first unknown slot adds exactly that network |
| NetworkHandles.DisconnectUndoesConnectIff | gps/core/SystemStatus.h:514-586 | connecting a new network and disconnecting it restores the set if and only if its type is one of the ten known ones |
| NetworkHandles.OtherEventsAreIgnored | gps/core/SystemStatus.h:514-586 | a known handle that connects again, a full table, the unknown handle and a disconnect of another type change nothing |
| Subscriptions.TrimSet | gps/utils/LocUnorderedSetMap.h:50-58 | the values removed and the values left |
| Subscriptions.RemoveAndReturnInterset | gps/utils/LocUnorderedSetMap.h:63-77 | the intersection, and what is left of both sets |
| Subscriptions.LocUnorderedSetMap.TrimOrRemoveEntry | gps/utils/LocUnorderedSetMap.h:86-94 | an entry is trimmed, and removed when that leaves it empty |
| Subscriptions.LocUnorderedSetMap.TrimOrRemove | gps/utils/LocUnorderedSetMap.h:140-148 | all keyed entries are trimmed; the keys and values that went are reported |
| Subscriptions.LocUnorderedSetMap.AddEntry | gps/utils/LocUnorderedSetMap.h:152-164 | the values join one entry, which is new exactly when it was absent and there are values |
| Subscriptions.LocUnorderedSetMap.Add | gps/utils/LocUnorderedSetMap.h:174-181 | the values join every keyed entry; new keys are reported |
| Subscriptions.LocUnorderedSetMap.Update | gps/utils/LocUnorderedSetMap.h:186-196 | the entry is replaced; the reported values are the ones kept |
| Subscriptions.SystemStatusOsObserver.SetSubscriptionObj | gps/core/SystemStatusOsObserver.cpp:62-82 | the framework is subscribed to every item that has clients, and asked for their data |
| Subscriptions.SystemStatusOsObserver.SendCachedDataItems | gps/core/SystemStatusOsObserver.cpp:530-556 | the client is told the cached values of the items, if any is cached |
| Subscriptions.SystemStatusOsObserver.Subscribe | gps/core/SystemStatusOsObserver.cpp:94-140 | both maps gain the pairs, the client is told what is cached, and the framework is asked for the data of all items or subscribed to the new ones |
| Subscriptions.SystemStatusOsObserver.UpdateSubscription | gps/core/SystemStatusOsObserver.cpp:142-212 | the client's items are replaced, the item map is trimmed and extended as the code does, and the client is told what is cached of its new items |
| Subscriptions.SystemStatusOsObserver.Unsubscribe | gps/core/SystemStatusOsObserver.cpp:214-253 | both maps lose the pairs; items left without clients are unsubscribed |
| Subscriptions.SystemStatusOsObserver.UnsubscribeAll | gps/core/SystemStatusOsObserver.cpp:255-294 | the client leaves both maps |
| Subscriptions.SystemStatusOsObserver.UpdateCache | gps/core/SystemStatusOsObserver.cpp:558-589 | an accepted item is recorded, and reported as updated exactly when it is new or its value changes |
| Subscriptions.SystemStatusOsObserver.UpdateCacheAll | gps/core/SystemStatusOsObserver.cpp:312-319 | the cache after a report, and the items that were new or changed |
| Subscriptions.SystemStatusOsObserver.CollectClients | gps/core/SystemStatusOsObserver.cpp:321-328 | the clients that the item map has for some changed item |
| Subscriptions.KeepOnly | gps/core/SystemStatusOsObserver.cpp:331-340 | the erasing loop leaves the intersection |
| Subscriptions.SystemStatusOsObserver.TellClients | gps/core/SystemStatusOsObserver.cpp:331-343 | each of the clients is sent one message with its own changed items, if it has any |
| Subscriptions.SystemStatusOsObserver.Notify | gps/core/SystemStatusOsObserver.cpp:311-344 | the cache takes the report over, and each of these clients is sent the new values of exactly those changed items it asked for |
| Subscriptions.StepKeepsInverseIff | gps/core/SystemStatusOsObserver.cpp:94-294 | an operation keeps the maps exact inverses without empty entries if and only if it is not an update by a client with items |
| Subscriptions.RunKeepsInverseIff | gps/core/SystemStatusOsObserver.cpp:94-294 | over any run the maps are inverses throughout if and only if no such update occurs |
| Subscriptions.UpdateKeepsInverseIff | gps/core/SystemStatusOsObserver.cpp:151-175 | for any set the client is trimmed from, an update keeps the maps inverses if and only if that set meets the client's old items in exactly those it no longer asks for |
| Subscriptions.DocumentedUpdateKeepsInverse | gps/core/SystemStatusOsObserver.cpp:155-172 | with the result the comments describe, every update would keep the maps inverses |
| Subscriptions.UpdateCanLoseClient | gps/utils/LocUnorderedSetMap.h:186-196 | a client of item 1 that updates to items 1 and 2 is no longer listed under 1 |
| Subscriptions.AskKeepsUpToDate | gps/core/SystemStatusOsObserver.cpp:94-294 | every operation, updates included, leaves every client with the cached value of everything it asked for |
| Subscriptions.NotifyKeepsUpToDate | gps/core/SystemStatusOsObserver.cpp:311-344 | so does every report, when the item map has every client for everything it asked for |
| Subscriptions.NotifyMisses | gps/core/SystemStatusOsObserver.cpp:311-344 | otherwise some report leaves a client with an old value |
| Subscriptions.StepCoversIff | gps/core/SystemStatusOsObserver.cpp:94-294 | an operation keeps every client in the item map for everything it asked for if and only if it is not an update that keeps an item |
| Subscriptions.RunKeepsInformedIff | gps/core/SystemStatusOsObserver.cpp:94-344 | over any run of operations and reports, every client holds the current value of everything it asked for, now and after any next report, at every point if and only if no update keeps an item |
| Subscriptions.RunNeverSubscribesUnused | gps/core/SystemStatusOsObserver.cpp:94-294 | in any run the framework is subscribed only to items that have clients, and to none before there is a subscription object |
| Subscriptions.RunKeepsSubscribedIff | gps/core/SystemStatusOsObserver.cpp:94-294 | with a subscription object the framework's items are exactly the item map's keys throughout if and only if no operation only requests data of an item without clients |
| Subscriptions.UnsubscribeUndoesSubscribe | gps/core/SystemStatusOsObserver.cpp:94-294 | unsubscribing a client that had no items restores the whole index |
| Subscriptions.RequestedIff | gps/core/SystemStatusOsObserver.cpp:62-140 | over any run of actions, the framework has been asked for the data of an item if and only if a subscription with toRequestData named it while a subscription object was set, or setting the object found it with clients |
| Subscriptions.NotifyTells | gps/core/SystemStatusOsObserver.cpp:311-344 | a report sends each client at most one message, about exactly the changed items it asked for, when the item map has it for some changed item; nobody is told anything else |
| Subscriptions.AskTells | gps/core/SystemStatusOsObserver.cpp:94-294 | a subscription tells its client what is cached of its items, an update what is cached of the new ones, and no other operation tells anybody anything |
| Subscriptions.EmptyIsDropped | gps/core/SystemStatusOsObserver.cpp:94-294 | an operation without items or without a client is dropped |
| Subscriptions.StepClientsAre | gps/core/SystemStatusOsObserver.cpp:94-294 | what each operation makes of each client's items |
| Subscriptions.RunHasObjIff | gps/core/SystemStatusOsObserver.cpp:62-82 | over any run there is a subscription object if and only if one was set |
| Subscriptions.RecordedIsLast | gps/core/SystemStatusOsObserver.cpp:558-589 | the cache holds the latest accepted value of a reported item |
| Subscriptions.RecordedKeeps | gps/core/SystemStatusOsObserver.cpp:558-589 | items for which nothing is accepted keep their cached value |
| Subscriptions.ChangedIff | gps/core/SystemStatusOsObserver.cpp:312-319 | the items that count as changed are those whose cached value differs from the one before at some point of the report |
| NmeaTokenizer.SystemStatusNmeaBase.constructor | gps/core/SystemStatus.cpp:56-84 | a debug sentence with a '*' is split losslessly at every ','; anything else has no fields |
| NmeaTokenizer.DebugIff | gps/utils/loc_nmea.h:87-93 | a debug sentence has between 6 and 4096 characters, as its caller counts them, and begins with $PQW |
| NmeaTokenizer.SplitIsUnique | gps/core/SystemStatus.cpp:73-83 | a text determines its fields and the dropped remainder |
| NmeaTokenizer.FieldCountIsCommaCount | gps/core/SystemStatus.cpp:73-83 | there are as many fields as commas |
| NmeaTokenizer.SentenceReadsBack | gps/core/SystemStatus.cpp:64-83 | fields without separators, written before a '*' and a checksum, are read back exactly, and the checksum is what is dropped |

## Left out

- `get_baseband_version`, device files and the OTA scripting functions: file I/O around the search.
- BoyerMoore.BmSearch: requires a non-empty pattern, because the source's branch for an empty one comes after the table loops have already run with an unsigned length of zero minus one, and a text that leaves room in a C int for one more shift; the only caller passes a 32-byte literal.
- Agps.AgpsManager.ReportAtlOpenSuccess: the three report calls require that the machine of the type exists, as the framework reports only on connections it was asked for; an access point name is the text up to its terminating zero.
- Agps.AgpsStateMachine.LeaveList: subscribers are values, so the write through the list's pointer is a change of the entry with that handle; pointer lifetime is not modelled.
- Tracking.GnssAdapter.StartTimeBasedTrackingMultiplex: the power mode that is sent to the modem is not modelled, only the comparison that decides whether a request is sent, because an interval-only request can send a mode that is not the lowest; the modem accepts every request.
- Tracking.GnssAdapter.UpdateTrackingMultiplex: the same; restoring the old options after a refused request is not modelled.
- Tracking.GnssAdapter.StopTimeBasedTrackingMultiplex: the same.
- Tracking.GnssAdapter.StartTracking: distance-based tracking is always supported, and messages that wait for the engine's capabilities are steps once they are handled; the threshold for time between measurements is a parameter, because its constant is not in the repository.
- Tracking.GnssAdapter.UpdateTracking: the same.
- SvIdConfig.ConvertToGnssSvIdConfig: for an SBAS id in 208 to 246 the source shifts a 64-bit one by 64 or more, which C++ leaves undefined; the model then says so and nothing about the masks. The initial ids of each constellation are constants.
- Odcpi.OdcpiAdapter.InitOdcpi: a registered callback is taken to be callable; the timer's time-out is an event.
- TripBatching.BatchingAdapter.StartTripBatchingMultiplex: every modem call succeeds and is answered before the next step; sessions' event masks and the batching options are not modelled.
- TripBatching.BatchingAdapter.TallyTrips: the source reads a completed trip after erasing it (gps/batching/BatchingAdapter.cpp:678-688); the model takes the values it had.
- TripBatching.BatchingAdapter.RestartTripBatching: every modem call succeeds and is answered before the next step; the event mask is not modelled.
- TripBatching.BatchingAdapter.StopTripBatchingMultiplex: the same; a stop that restarts the session with other options is a stop and a join.
- TripBatching.TallyKeepsInv: assumes a report that is timely, that is, not older than the last join and not from an earlier batch; `CountsAtMostIff` says exactly what happens otherwise.
- TripBatching.StepKeepsInv: the same.
- TripBatching.NoTripCompletesEarly: the same, for all reports of the run; odometers, and the readings reports stand for, stay below 2^32, while the distances themselves wrap at 32 bits. `restartSessions` after an engine restart resets copies of the trips and is not a step of the model.
- PathOrder.SortSorts: the library's sort is modelled as an insertion sort; for a consistent comparison any sort that is stable gives the same result (`SortIsUnique`). Files, stripping and the splitting of text into sections and lines are not modelled. `strcoll` is the C locale's code-point order.
- RealtimeEstimator.ElapsedRealtimeEstimator.GetElapsedRealtimeEstimateNanos: 64-bit nanoseconds do not wrap in the model; the two clock readings are inputs, and the data timestamps are arbitrary.
- AdapterArray.LocApiBase.GetEvtMask: masks are sets of bit numbers.
- NetworkHandles.Collate: the type summary in `mAllTypes` is modelled only as "the event's own type is known", which is what the branch tests; the write-back to the source object is not modelled.
- Subscriptions.RemoveAndReturnInterset: the source goes on from an erased iterator; the model goes on with the next element.
- Subscriptions.LocUnorderedSetMap.TrimOrRemove: the source reads the key of an entry it has just erased (gps/utils/LocUnorderedSetMap.h:144-145); the model takes the key it looked up.
- Subscriptions.SystemStatusOsObserver.SetSubscriptionObj: there is one framework object; what it answers to requests for data arrives as reports.
- Subscriptions.SystemStatusOsObserver.Notify: a data item is an id and a value; whether the system status records it is an input.
- NmeaTokenizer.SystemStatusNmeaBase.constructor: the string is the text up to its terminating zero; the length is the caller's. Parsing of the fields is not modelled.
- HIDL and AIDL services, live display, power, audio, Bluetooth, fingerprint and performance stubs: device I/O and wrappers.
- Threads, message queues, library loading, configuration files and logging: each message is one atomic step.
- Position conversion, NMEA generation and antenna tables: field copying and floating point.
- Network-initiated sessions and geofence state across restarts: they depend on unlocked reads and timing.
