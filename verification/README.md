# A verified model of the multipath data plane

One logical byte stream is cut into frames, sent over several paths that may die, and put back together
at the other end. These modules model that machinery and prove what it keeps, for every run.

| files | what they model |
|---|---|
| `Base`, `Intervals` | byte ranges; the interval algebra of selective acknowledgements (stream.go, reorder.go) |
| `SegHeap`, `Reorder`, `Trim`, `ReorderBuf` | the receive buffer: as a value with its laws, when a slice of it is out of range, and as an object over an array heap proved against that value |
| `Paths`, `Scheduler` | one path's measurements and marks; the choice of a path for the next frame |
| `Sender`, `SenderProofs`, `SenderInvariant`, `Progress`, `SenderLaws` | the sending half as a value, its ledger, its invariant, its progress, and what each operation does as seen from outside |
| `Stream` | the sending half as the object stream.go keeps, with paths as objects, every method proved against a function of `Sender` |
| `System`, `SystemProofs`, `SystemSteps`, `SystemTheorems`, `Liveness`, `PathRates` | two endpoints and a network that reorders, duplicates and loses frames; what holds in every run |
| `SendTimes`, `SoftFailure`, `RoundTrips` | where each byte is and since when; which segments mark which paths; the round-trip estimates against the time that passed |
| `Overflow` | how full the receive buffer gets and when its overflow check ends the stream |
| `AckRule`, `Conduct` | when the receiver owes an acknowledgement; runs with a clock, ordered reliable paths and acknowledgements that are due |
| `Completion`, `OverflowRuns` | that every open stream can be completed by such a run; two such runs that contradict the source's comments |
| `WaterFilling`, `Allocator` | the relay's max-min bandwidth allocator |
| `Varint`, `Frames` | the wire format and its reader |

Operations that change state in the source are methods. Each is specified by a function on values
(`View() == Spec(old(View()))`), and the laws are lemmas about those functions. `Stream`, `Path`,
`ReorderBuf`, `SegHeap`, `Bucket`, `Allocator` and `FrameReader` are classes because the source keeps
objects; a section under the stream's mutex is one atomic call. Clocks are parameters, a write to a path
fails or succeeds arbitrarily, and every path named by a segment, live or dead, keeps its account. The
system's network keeps every frame ever sent and may deliver any of them at any time, any number of
times, or never, which covers reliable paths that die. That is more than the code does, and right for what
holds in every run. What says that some run exists (`OverflowRuns`, `Completion`) uses only steps that
`Conduct.Allowed` allows: clocks never go back and stamps are their readings, a path hands over what was
sent on it once and in order, and an acknowledgement is sent when one is due.

## Where the source's comments and its code disagree

- reorder.go slices `s.data[trim:]` and so needs `trim` to be within the segment. Arrivals that overlap
  unevenly break that, and for segments that start together it depends on the order in which the heap
  gives them up. `Trim.AddFailsExactly` says for any input exactly when some order fails and exactly when
  every order does; `Trim.NestedArrivalsFail` and `Trim.TiedArrivalsMayFail` are an input of each kind.
  Endpoints that run this code never send such segments (`SystemTheorems.FramesAreNeverRecut`).
- stream.go:1053-1056 says the overflow check at four times the capacity never hits an honest stream. It
  can, once the capacity has shrunk: `Overflow.TeardownExactly` gives the exact condition for every arrival
  in every run, `OverflowRuns.ShrinkingRun` a run over one reliable path that ends so, and
  `Overflow.NoTeardown` a range of capacities in which the comment is right.
- The same comment says the buffer's size never exceeds its capacity. Copies that arrive out of order are
  counted twice and the segment that fills the hole is exempt. `Overflow.ExceedsExactly` says exactly which
  arrival takes the size beyond the capacity, `OverflowRuns.ExceedingRun` is a run in which one does though
  the capacity never changes and every path is reliable and ordered until one of them is lost, and
  `SystemTheorems.FlowControl` gives the bound that holds, twice the largest capacity.
- relay/allocator.go:209 says every share is at least the guaranteed rate. `WaterFilling.GuaranteeCanFail`
  shows two peers for which it is not, and `WaterFilling.GuaranteedRate` says exactly when it is.

## Model

| member | source | states |
|---|---|---|
| Intervals.FirstHole | stream.go:546-564 | the loop with a moving cursor returns the hole its recursive description gives |
| Intervals.HoleIsFirstMaximalGap | stream.go:543-564 | on a canonical list everything before the hole is covered, nothing in it is, and it cannot be extended to the right |
| Intervals.CoveredBy | stream.go:568-575 | true exactly if one stored interval contains the range |
| Intervals.CoveredIffNoHole | stream.go:566-575 | on canonical lists lying in one interval, having no hole and being covered offset by offset are the same |
| Intervals.MergeInPlace | stream.go:584-594 | the loop that writes over the part of the array it has read merges exactly as the list function does |
| Intervals.MergeIsCanonical | stream.go:584-595 | merging a list sorted by start gives ascending, separated intervals of exactly the same offsets |
| Intervals.CanonicalIsUnique | stream.go:577-595 | a set of offsets has only one such list, so the sort's treatment of ties does not matter |
| Intervals.NormalizeIsCanonical | stream.go:577-595 | whatever order and overlap the peer sent, the stored list is canonical and covers the same offsets |
| Intervals.NormalizeKeepsCanonical | stream.go:577-578 | an honest peer's list is stored unchanged |
| Intervals.NormalizeRanges | stream.go:579-595 | the method computes that normal form |
| Intervals.SortAndMerge | reorder.go:148-159 | sorting and merging in place yields a canonical list of the same offsets |
| SegmentHeap.SegHeap.Push | js/src/reorder.ts:31-44 | keeps heap order and adds exactly the new segment |
| SegmentHeap.SegHeap.Pop | js/src/reorder.ts:46-67 | keeps heap order, removes exactly the segment returned, and that one starts no later than any other; nothing only from an empty heap |
| SegmentHeap.SegHeap.SiftDown | js/src/reorder.ts:53-64 | restores heap order from a misplaced root, conserves the members and stops |
| SegmentHeap.SwapDown | js/src/reorder.ts:54-63 | one swap with the smaller child moves the only misplaced member one level down |
| SegmentHeap.SwapUp | js/src/reorder.ts:36-43 | one swap with the parent moves the only misplaced member one level up |
| SegmentHeap.RootIsLeast | js/src/reorder.ts:27-29 | in a heap the first member starts no later than any other |
| Reorder.DrainKeeps | reorder.go:82-101 | draining end-monotone segments never slices out of range, keeps the accounts and leaves nothing at or below the front |
| Reorder.AddKeeps | reorder.go:51-80 | adding an end-monotone slice of the stream never fails, and one that reaches across the front moves it to its end or further |
| Reorder.AddAccepts | reorder.go:57-79 | exactly the segment's offsets become accepted, or none if it overflows |
| Reorder.AddDrops | reorder.go:63-75 | the counter of dropped bytes grows by exactly the arrivals behind a hole for which there is no room |
| Trim.AddFailsExactly | reorder.go:53-101 | for any buffer and segment, honest or not: some order of the held segments slices out of range exactly if the arrival fills the hole and the front reaches without a gap one that ends before another that starts no later; every order does exactly if that other one starts earlier |
| Trim.DrainMayFailExactly | reorder.go:83-101 | the same of the draining loop alone, from any heap with nothing behind the front |
| Trim.NestedArrivalsFail | reorder.go:86-91 | three arrivals, one inside another, after which every order fails |
| Trim.TiedArrivalsMayFail | reorder.go:86-91 | four arrivals, two of which start together, after which one order fails and the other does not |
| Reorder.ReadKeeps | reorder.go:103-121 | reading returns the next bytes of the stream and keeps every account |
| Reorder.EveryRunIsInOrder | reorder.go:30-121 | after any calls, output and ready bytes are the stream up to next, each byte once; the size is the true sum; next is the least offset not taken |
| Reorder.EmptyRun | reorder.go:47-49 | a new buffer starts such a run |
| ReorderBuffer.ReorderBuf.Add | reorder.go:53-80 | for any arrival: it reports a slice out of range only where some order of equal offsets has one, and otherwise ends in a state that such an order gives |
| ReorderBuffer.ReorderBuf.AddOffered | reorder.go:53-80 | for end-monotone slices of one stream it never fails, has the one outcome of the value, and keeps the buffer's invariant |
| ReorderBuffer.ReorderBuf.DrainHeap | reorder.go:83-101 | the loop drains the heap in some order ascending by offset, and fails only if that order does |
| ReorderBuffer.ReorderBuf.Read | reorder.go:104-121 | the copying loop returns and consumes exactly the bytes the value says |
| ReorderBuffer.ReorderBuf.SetCap | reorder.go:132-134 | shrinking the capacity discards nothing |
| ReorderBuffer.ReorderBuf.ExportRanges | reorder.go:140-164 | from heap order, the same ranges as from the ascending list, cut to the first max |
| SystemProofs.RangesComplete | reorder.go:140-164 | every held offset is reported, or lies behind the last of 32 ranges |
| ReorderBuffer.MergedIsUnique | reorder.go:144-159 | sorting and merging the heap's array gives the one canonical list of what is held |
| ReorderBuffer.OfferedIsSafe | reorder.go:18-18 | among such slices no order fails, and there is only one order, so the heap's treatment of equal offsets does not matter |
| Paths.FilterRate | scheduler.go:289-297 | the estimate is never below the newest sample, equal to it exactly on a rise, and on a fall keeps 7/8 of its distance |
| Paths.SmoothedFollows | scheduler.go:216-229 | each sample leaves the smoothed time 7/8 of its distance to it, and the variation 3/4 of itself and 1/4 of that distance, but for rounding down |
| Paths.RepeatedSettles | scheduler.go:225-225 | from above and from below, one sample over and over brings the smoothed time to it, at most seven nanoseconds short, for good |
| Paths.EstimatesStayWithinSamples | scheduler.go:212-229 | over any run of samples the smoothed time stays in their span, the minimum is a true minimum and the variation is bounded |
| Paths.Path.NoteSample | scheduler.go:212-239 | the update of the smoothed time and its variation, with Go's truncating division, and the conditional clearing of the mark |
| Paths.Path.Credit | scheduler.go:258-287 | the delivered bytes and the rate sample of a period, with the laws of CreditKeepsSane |
| Paths.CreditKeepsSane | scheduler.go:258-287 | a sample spans at least max(srtt, 2 ms) and counts exactly the bytes since the last one; the estimate changes only with a sample and stays between zero and all delivered bytes in 2 ms |
| Paths.PeriodEnds | scheduler.go:260-287 | a period ends exactly when it has lasted max(srtt, 2 ms), with a sample or without |
| Paths.SampleIsBelieved | scheduler.go:282-327 | after a credit that takes a sample, and with no fresh report of the peer, the rate used is that estimate, and it is positive |
| Paths.BelievedRate | scheduler.go:319-328 | a fresh positive report of the peer decides; else a local sample that is not stale; else nothing is known |
| Paths.RatesOverRun | scheduler.go:212-287 | over any run of credits and round-trip samples those bounds hold, and the samples are disjoint periods of 2 ms or more |
| PathRates.PathsStaySane | scheduler.go:212-287 | in every reachable state they hold of every path |
| Paths.Path.Deliver | scheduler.go:245-248 | the same after taking the bytes out of flight |
| Scheduler.PickMinDrainIsLeast | scheduler.go:149-176 | the choice is the least of (drain time, in flight, id) over the eligible paths, and nothing exactly if none is eligible |
| Scheduler.ChoiceIgnoresListOrder | scheduler.go:136-147 | with distinct ids the choice does not depend on the order of the list |
| Scheduler.PickDataPrefersHealthy | scheduler.go:138-147 | a suspect path only when no healthy one is under its cap; nothing exactly when all are at their caps |
| Scheduler.ChoiceIsLexicographic | scheduler.go:136-176 | no path under its cap is both as healthy as the chosen one and sooner drained, or as soon with less in flight, or that with a smaller id |
| Scheduler.ReportDecides | scheduler.go:320-325 | a fresh report of the peer alone decides how long a frame takes, whatever was measured locally |
| Scheduler.UnderCapExactly | scheduler.go:340-350 | under its cap: fewer than two full frames in flight, or at most one and a half bandwidth-delay products less a byte, at a quarter of the rate if suspect |
| Scheduler.SuspectIsHeldBack | scheduler.go:161-168 | on every path of a reachable state (PathRates.PathsStaySane), a mark never raises the cap, makes every frame look four times as slow and still lets two full frames through |
| Scheduler.IdleIsUnderCap | scheduler.go:335-348 | a path with nothing in flight is always under its cap |
| Scheduler.PickAckIsBest | scheduler.go:178-197 | a control frame finds a path whenever one lives, and none is preferred to the one chosen |
| SenderInvariant.WriteKeeps | stream.go:340-373 | an accepted chunk keeps the sender's invariant with the stream extended by exactly that chunk |
| SenderLaws.WriteFills | stream.go:353-363 | a Write takes all it is given or fills the buffer, which counts bytes in flight too; it takes nothing only if closed or full |
| SenderInvariant.SendNewFrame | stream.go:753-793 | a new frame carries the next unsent bytes of the stream and ends inside the advertised window |
| SenderLaws.NewFrameFills | stream.go:753-761 | a new frame goes up to the window, to 64 KiB, or to the end of what one Write queued |
| SenderLaws.LowestGoesFirst | stream.go:604-751 | what the peer lacks goes before new bytes, the lowest byte first and as much as fits; new bytes only when the pool lacks nothing |
| SendTimes.CommitHoleStates | stream.go:627-643 | after a resend, byte by byte: the frame is on its path since now, what is before it in the segment is known to be received, what is behind it waits, and no other byte changes |
| SendTimes.TrySendMoves | stream.go:724-793 | after trySend, the bytes of its frame, new or sent again, are on the chosen path since now, and every other byte on a path was there before, since the same time |
| SendTimes.SentAtIsTrue | stream.go:635-791 | in every run, a byte on a path is there since the time of the last frame that carried it, and on that frame's path |
| SenderInvariant.SendKeeps | stream.go:724-798 | trySend keeps tiling, queue, in-flight ledger and conservation |
| SenderInvariant.ApplyAckKeeps | stream.go:1081-1106 | so does any acknowledgement that passes validation, from whatever peer |
| SendTimes.FreeStates | stream.go:1176-1211 | releasing removes exactly the bytes below the acknowledged offset and leaves every other byte as it was |
| SenderLaws.FreeCredits | stream.go:1176-1205 | each path is credited, at that clock, with one credit per released segment of its own, and no other path is; so RatesOverRun applies |
| SenderLaws.InvalidAckCostsItsPath | stream.go:1068-1083 | an acknowledgement costs the path it came on, and no other, exactly if it is new and invalid |
| SenderInvariant.SweepAllKeeps | stream.go:670-717 | so does the soft-failure sweep |
| SenderInvariant.DropKeeps | stream.go:931-953 | so does dropping a path, after which that path has nothing in flight |
| SenderInvariant.DropTakesOnly | stream.go:931-981 | a drop removes that path and no other, and the stream is closed exactly when none is left |
| SenderLaws.UnassignStates | stream.go:943-953 | every byte of a dropped path waits to be sent again, and nothing else changes for any byte |
| SenderInvariant.AttachKeeps | path.go:246-257 | so does attaching a path |
| SenderLaws.AttachesExactly | path.go:246-257 | a path joins exactly if the stream is open; it knows nothing yet, and its first rate period starts then; no other path changes |
| SenderProofs.SplitTiles | stream.go:618-643 | splitting a segment keeps the gap-free tiling of the stream's own bytes |
| SenderProofs.PiecesInFlight | stream.go:627-643 | the pieces of a split segment charge the chosen path with exactly the bytes sent, and no other path |
| SenderProofs.FreeTiles | stream.go:1170-1211 | releasing up to the acknowledged offset keeps the tiling, also when it cuts a segment |
| SenderProofs.FreeConserves | stream.go:1176-1211 | delivered counts and bytes released unassigned grow together by exactly what was released |
| SenderProofs.FreeKeepsLedger | stream.go:1176-1211 | releasing keeps every path's in-flight account equal to its segments |
| SenderProofs.SweepKeepsLedger | stream.go:670-710 | so does the sweep |
| Progress.ResendIsUncovered | stream.go:597-618 | no frame carries a byte the newest selective acknowledgement covers; each is a slice of the stream on a live path |
| Progress.SendsUnlessBlocked | stream.go:724-769 | trySend sends if and only if none of four stated reasons holds, and after it sent nothing one of them holds |
| Progress.NeverBlocksItself | stream.go:735-769 | with nothing charged to any path, a byte of the pool the peer lacks is always sent |
| Progress.SweptSenderSends | stream.go:695-710 | so after a sweep that finds everything overdue |
| Progress.TrySendDescends | stream.go:724-798 | each frame lowers the bytes still to send by its length and leaves the paths as they were |
| StreamObject.Stream.constructor | stream.go:260-310 | a new stream on one path satisfies the invariant |
| StreamObject.Stream.WriteChunk | stream.go:342-373 | one pass of the Write loop |
| StreamObject.Stream.PickMinDrain | scheduler.go:151-176 | the running-best loop over path objects |
| StreamObject.Stream.PickAck | scheduler.go:182-197 | the running-best loop for control frames |
| StreamObject.Stream.NextResend | stream.go:604-618 | the scan that marks covered pool segments until it finds a hole |
| StreamObject.Stream.SplitResend | stream.go:627-643 | the splice into the segment list and the charge, as the value does it; SendTimes.CommitHoleStates says what that does to every byte |
| StreamObject.Stream.TrySendOne | stream.go:724-798 | trySend up to the write, on the object's fields, with the invariant kept |
| StreamObject.Stream.TrySendFrame | stream.go:724-809 | with the write and its failure: false exactly if blocked, otherwise fewer paths or fewer bytes to send |
| StreamObject.Stream.Pump | stream.go:391-393 | the loop stops whatever the writes do, and then one of the four reasons holds |
| StreamObject.Stream.CheckSoftFail | stream.go:670-717 | the sweep in place, as the value does it, and the list of late paths; SoftFailure.SweepMarksExactly and SweepJudges say what that does |
| StreamObject.Stream.OnTick | stream.go:477-495 | after the tick no path that timed out is live, whatever the notifications' writes do |
| StreamObject.Stream.ValidateAck | frame.go:65-82 | accepts exactly the acknowledgements of the specification |
| StreamObject.Stream.FreeAcked | stream.go:1176-1211 | the releasing loop, with its accounts per path |
| StreamObject.Stream.RecvAck | stream.go:1068-1106 | stale frames are skipped, invalid ones reported, others applied as one snapshot; RoundTrips.StepMeasures says what the sample is |
| StreamObject.Stream.OnAck | stream.go:1068-1108 | an invalid acknowledgement costs the path it came on |
| StreamObject.Stream.Detach | stream.go:931-956 | the locked part of dropPath: the path is gone, the invariant is kept, and the stream is closed exactly when no path is left |
| StreamObject.Stream.DropPathAndTell | stream.go:931-988 | the cascade of failing notifications ends, each failure taking one more path away |
| StreamObject.Stream.SendPathDrop | stream.go:856-879 | one control frame, and the path too if its write fails |
| StreamObject.Stream.SendAck | stream.go:819-852 | the retry loop ends with the frame on the best path or with no path left |
| StreamObject.Stream.Attach | path.go:246-257 | attaching on the object |
| SystemSteps.StepKeepsInv | stream.go:724-1110 | every step of either endpoint keeps the joint invariant, and accepted bytes stay accepted |
| SystemTheorems.RunKeepsInv | stream.go:724-1110 | so does every run |
| SystemTheorems.EndToEnd | stream.go:1217-1251 | in every run what Read has returned is a prefix of what Write has accepted, and no slice is out of range |
| SystemTheorems.NoByteLost | stream.go:604-717 | in every reachable state each sent byte is at the receiver, or in the pool, or on its way on a live path; released and sacked bytes are at the receiver |
| SystemTheorems.ClosedExactly | stream.go:954-981 | in every run the stream is closed exactly when its last path is gone |
| SystemTheorems.FramesAreNeverRecut | stream.go:735-761 | any two frames ever sent, resends included, carry the same range and bytes or disjoint ranges |
| SystemTheorems.FlowControl | stream.go:753-761 | the sender is never further ahead of the reading application than the largest capacity so far; the buffer never exceeds twice that |
| SystemTheorems.AckAgreement | frame.go:65-82 | an honest acknowledgement is stale, or it passes validation exactly if at most 2^20 sequence numbers were skipped |
| SystemTheorems.ViewChangesWhole | stream.go:1068-1106 | what the sender believes changes only with an acknowledgement that is applied, of a greater number than the last, and is then all of it |
| SystemTheorems.ViewIsOneSnapshot | stream.go:1068-1106 | after any run it is one whole acknowledgement, the one with the highest number of all that were applied, and all of it is true |
| SystemTheorems.StepIsForward | stream.go:1097-1106 | no step takes back an acknowledged, sent, delivered, written or read byte, nor lowers the number of the acknowledgement applied last |
| Overflow.ReachIsFirstGap | reorder.go:83-101 | the front comes to stand at the first offset not held, everything before it being held |
| Overflow.FillsHole | reorder.go:83-101 | after the hole at the front is filled: the front, exactly which segments are left, and the size, for any held segments |
| Overflow.TeardownExactly | stream.go:1053-1063 | in every run, for every frame on the network: its arrival ends the stream if and only if a stated size exceeds four times the capacity |
| Overflow.ExceedsExactly | stream.go:1053-1056 | in every run: an arrival takes the size beyond the capacity if and only if it fills the hole and what is then in order, with the copies beyond, is more |
| Overflow.NoTeardown | stream.go:1053-1063 | no run in which the capacity stays between half of some number and that number ends so |
| OverflowRuns.ShrinkingRun | stream.go:1053-1063 | a run over one reliable, ordered path, with a capacity that goes from one to five and back, that the check ends |
| OverflowRuns.ExceedingRun | stream.go:1053-1056 | a run at capacity four throughout, over reliable, ordered paths of which one is lost after its frame arrived, whose buffer reaches size five |
| AckRule.NeverSilent | stream.go:534-540 | in every run, by the code's rule of when an acknowledgement is asked for: one is pending, or the newest says what has arrived, says that there is room if there is, lags behind the reads by less than a quarter of an unchanged capacity, and is what the sender believes or under way to it |
| AckRule.NoForgottenWindow | stream.go:1224-1233 | a sender that believes there is no room while there is some has an acknowledgement coming: one is pending, or one with a positive window is under way |
| AckRule.NeverIdleTalk | stream.go:1224-1233 | in every run, unless DATA came or the capacity changed since the last one: an acknowledgement is pending if and only if something was read and the window was shut or a quarter of the capacity has been freed |
| AckRule.StepKeepsDue | stream.go:1067-1067 | every step keeps the account of what is owed, from whatever state |
| Conduct.GoesAsRun | stream.go:326-332 | the runs with clocks, ordered paths and due acknowledgements are runs of the system |
| Completion.NeverStuck | stream.go:391-1106 | from every reachable state that is open, with a live path, some capacity and at least half of the largest, and at most 2^20 acknowledgements unheard, whatever the clock and whichever frames have arrived: a finite continuation, in which the clock runs forward, paths deliver in order what is sent on them and acknowledgements are sent only when due, delivers everything written and loses no path |
| Completion.NeverStuckOnceRestored | stream.go:391-1106 | whatever the capacity has become, setting it back to its largest is enough for that |
| Liveness.TickDropsExactly | stream.go:712-716 | a tick drops a live path exactly if it came in suspect for longer than its timeout |
| Liveness.StepIsLawful | path.go:120-128 | a mark is made only by a tick, keeps that tick's clock, and goes exactly with an accepted echo of something sent later |
| Liveness.SuspectMeansSilent | scheduler.go:231-238 | along any history the path ends suspect exactly if it was marked and has been silent since |
| Liveness.DroppedExactlyForSilence | stream.go:694-716 | in every run the next tick drops a path if and only if an earlier tick marked it, nothing sent after the mark has been echoed, and the mark is older than max(srtt + 4 rttvar, 1 s) |
| SoftFailure.SweepMarksExactly | stream.go:670-710 | a sweep leaves a path suspect if and only if it was, or a segment on it, not known to be received, was sent more than max(2 srtt, 200 ms) ago |
| SoftFailure.SweepJudges | stream.go:670-710 | every segment is judged alone, by the paths as they were before the sweep: covered ones are noted as received, overdue ones go to the pool |
| SoftFailure.OverdueIsDropped | stream.go:694-716 | in every run, a tick that finds a segment overdue marks its path with that tick's clock and stamp, and unless something sent later is echoed, a tick more than max(srtt + 4 rttvar, 1 s) later leaves the path dead |
| RoundTrips.FindPathFinds | stream.go:1089-1090 | the live path of the echoed number is found whenever there is one |
| RoundTrips.EchoFindsItsPath | stream.go:1089-1090 | so in every run with clocks the path an echo names is found exactly while it lives |
| RoundTrips.StepMeasures | stream.go:1088-1093 | an applied acknowledgement that echoes a frame of a live path makes the one sample less than a microsecond off the time since that frame went out; a ping reply makes its own; nothing else takes a sample, on any path |
| RoundTrips.TimesAreTrue | scheduler.go:212-229 | in every run with clocks, to less than a microsecond: the smoothed time lies between the least and the greatest true time of an echo, and the least time is the least true one |
| WaterFilling.ProgressiveFill | relay/allocator.go:210-234 | there is one level such that each share is the smaller of it and the demand raised to the guaranteed rate, and all is given out or all are satisfied |
| WaterFilling.MaxMinFair | relay/allocator.go:208-234 | whoever gets more under another feasible allocation takes it from someone who had no more than he |
| WaterFilling.SharesIgnoreOrder | relay/allocator.go:217-233 | equal demands get equal shares in any order of the list |
| WaterFilling.GuaranteedRate | relay/allocator.go:209-233 | every share is at least the smaller of the guaranteed rate and an even split; all reach the guaranteed rate exactly if the even split does |
| WaterFilling.GuaranteeCanFail | relay/allocator.go:209-209 | a total and two demands for which they do not |
| WaterFilling.ThrottledGetMost | relay/allocator.go:55-56 | a peer that had to wait gets the largest share and at least an even split |
| RelayAllocator.Allocator.Recompute | relay/allocator.go:174-206 | from one table to the next: every bucket is resampled, the idle ones are deleted, and the rest get max-min fair shares, as Period says; the next three rows say what follows for a peer |
| RelayAllocator.WaitedGetsMost | relay/allocator.go:184-205 | a peer that had to wait, however little it read, is kept exactly if it has a stream open or the total is above the guaranteed rate; its share is then at least the total over the number of kept peers, and no share is larger |
| RelayAllocator.ReaderHalves | relay/allocator.go:183-197 | a peer that did not wait comes half as far from the rate it read at, and is kept exactly if it has a stream open or that mean is above the guaranteed rate |
| RelayAllocator.DemandApproaches | relay/allocator.go:183-189 | over any number of periods, the demand of a peer that reads at one rate is that rate but for its first distance halved once a period |
| RelayAllocator.Allocator.SampleAll | relay/allocator.go:180-200 | the first loop, whatever order the table is walked in |
| RelayAllocator.Allocator.SetShares | relay/allocator.go:202-205 | the second loop |
| RelayAllocator.Allocator.AcquireBucket | relay/allocator.go:150-169 | a peer's bucket with one more stream on it, made with full credit if there was none |
| RelayAllocator.Allocator.constructor | relay/allocator.go:66-114 | the settings are applied in order to the defaults, and a total that is not positive becomes 2^30 |
| RelayAllocator.ConfiguredInRange | relay/allocator.go:66-94 | whatever is set in whatever order, period, burst and guaranteed rate stay in their ranges, and each is the default, a bound, or a value that was set |
| RelayAllocator.LastSettingWins | relay/allocator.go:66-94 | the last setting of a value decides: taken as it is in its range, else the nearest in it; a rate that is not positive changes nothing, nor does any setting another value |
| RelayAllocator.SharesAreDetermined | relay/allocator.go:182-205 | the new table does not depend on the order of the walk |
| RelayAllocator.UnusedIsReclaimed | relay/allocator.go:188-197 | an unused bucket is given up exactly once its demand has halved below the guaranteed rate |
| Varint.UvarintLen | js/src/varint.ts:10-18 | the length of the encoding |
| Varint.AppendUvarint | js/src/varint.ts:21-37 | appends the encoding in a new array, and refuses exactly the negative values |
| Varint.DecodeUvarint | js/src/varint.ts:50-71 | the accumulating loop decodes as the recursive description does, from any offset, also one behind the end |
| Varint.RoundTrip | js/src/varint.ts:21-71 | every 64-bit value comes back from at most ten bytes, whatever follows |
| Varint.KnownValues | js/test/varint.test.ts:8-17 | eight values have the bytes that Go's library gives them |
| Varint.DecodedIs64Bits | js/src/varint.ts:50-71 | whatever decodes is a 64-bit value, and its encoding is no longer than what was read |
| Varint.OverflowsExactly | js/src/varint.ts:56-63 | overflow exactly on nine continued bytes and a tenth above 1 |
| Frames.AppendDataFrame | frame.go:111-117 | appends the encoding field by field |
| Frames.AppendAckFrame | frame.go:122-138 | likewise, with the ranges cut to 32 |
| Frames.AppendCtrlFrame | frame.go:141-145 | likewise |
| Frames.FrameRoundTrip | frame.go:106-257 | an encoded frame comes back, with its ranges cut, and exactly its bytes are used |
| Frames.KnownFrames | js/test/frame.test.ts:50-101 | a DATA and a control frame have the bytes that both implementations share as test vectors |
| Frames.KnownAck | js/test/frame.test.ts:90-92 | so has an acknowledgement |
| Frames.KnownRanges | js/test/frame.test.ts:71-78 | and a list of ranges |
| Frames.StreamRoundTrip | frame.go:106-257 | so does a list of frames of any kind from the concatenation, which ends cleanly |
| Frames.TruncatedIsBad | frame.go:168-176 | a stream that ends inside a frame yields neither that frame nor a clean end |
| Frames.NextExtends | frame.go:168-257 | decoding a frame looks at nothing behind it |
| Frames.DecodedIsEncodable | frame.go:168-257 | whatever bytes come in, a decoded frame is one that may be sent, its ranges are non-empty and at most 32, and encoding it again decodes to the same |
| Frames.FrameReader.ReadUvarint | frame.go:159-165 | the library's reading loop decodes as the TypeScript port does |
| Frames.FrameReader.NextFrame | frame.go:168-257 | the reader consumes exactly one frame, and reports a clean end only where a frame could begin |

## Left out

- ReorderBuffer.ReorderBuf.Add: the panic of a slice out of range is a false result, after which nothing is said of the object.
- ReorderBuffer.ReorderBuf.Add: Go's container/heap is not part of this model; the heap is the explicit one of js/src/reorder.ts, which has the same contract.
- StreamObject.Stream.WriteChunk: one pass with room; waiting for room, deadlines and wake-ups are not modelled.
- StreamObject.Stream.RecvAck: takes ranges to be non-empty, as the frame decoder guarantees (Frames.DecodedIsEncodable).
- StreamObject.Stream.NextResend: the segment list is a sequence that the loop updates; the sharing of Go's backing arrays is not modelled.
- Scheduler.PickMinDrainIsLeast: rates and drain times are real numbers; rounding of float64 is not modelled.
- WaterFilling.ProgressiveFill: real numbers likewise, and the library sort is some order ascending by demand; its two loops are proved against a recursive description of the same dealing.
- RelayAllocator.Allocator.Recompute: the token buckets whose rate it sets, the waiting in throttle and the release of a stream's reference are not modelled; cur, waited and refs are what they leave behind.
- Varint.AppendUvarint: masks and shifts are written as division by powers of two.
- Offsets, sequence numbers and windows are unbounded; the wrap-around of uint64 in off+len for offsets near 2^64 is not modelled.
- System.TickSender: the sweep and the removal of the timed-out paths are one step; the source releases the mutex between the two (stream.go:477-488), so there an echo that arrives in between does not save the path.
- Frames.TruncatedIsBad: says that no frame and no clean end is reported. The error for an end between two fields of a frame wraps io.EOF (frame.go:159-165), so that errors.Is does not tell it from a clean end, as frame.go:167 says it would; only identity with io.EOF does. Which errors wrap what is not modelled.
- AckRule.NeverSilent: the acknowledgement that a path's death asks for at the receiver (stream.go:984-986) is not modelled; it would only be one more. Encoding one answers every request made before it, in one step.
- Conduct.Allowed: stamps of different frames differ, though two frames may leave in one microsecond; in which order acknowledgements arrive, and on which path, is left open.
- RoundTrips.StepMeasures: a step reads the clock once; the source reads it again for a frame's stamp (stream.go:793) and for an echo (stream.go:1091), a moment later.
- Completion.NeverStuck: asks for a capacity of at least half its largest; with less, one honest frame can be larger than four times the capacity and its arrival ends the stream (OverflowRuns.ShrinkingRun).
- pathsByID is a search over the live paths, and a path's dead flag is its absence from that list.
- A path or stream is closed by losing its last path; FIN, RST, Close and deadlines are not modelled.
- The receiver's capacity is any number at any time; how telemetry derives it, and the hysteresis, are not modelled.
- PING and TELEMETRY appear in the system as an arriving sample or rate for a live path; when they are sent is not modelled.
- Counters of resent and lost segments, events, path policy and statistics: single assignments.
- Goroutines, channels and lock order: each section under the mutex is one step. RemovePath checks and drops in two sections, so nothing is claimed about concurrent calls of it.
- Handshakes, dialling, relay reservation, tunnels, protobuf bodies and the TypeScript stream, path, scheduler and frame ports: I/O around libraries, or the same members again.
