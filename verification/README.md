# Flight Blender: verified models

Dafny models of the parts of Flight Blender that decide something: how a flight path is cut into
timed volumes, which declarations may fly, what the spatial indexes find, what sensor metrics mean,
how tracks grow, how long surveillance tasks run, and how operation states, registration numbers and
telemetry are checked. `dafny verify dfyconfig.toml` checks everything.

| file | models |
|---|---|
| `LinestringSplitter.dfy`, `FlightSchedule.dfy` | cutting a path into pieces, and the three-second slots of the pieces |
| `TimeSlicer.dfy` | the proportional time slices of the example volume generator |
| `SpatialIndex.dfy` | the two R-tree wrappers, the viewport filter and the position query |
| `Deconfliction.dfy` | the engine and every request on the store of declarations, as functions |
| `DeconflictionSafety.dfy` | no two active declarations conflict, over every run |
| `DeconflictionExact.dfy` | exactly when a request is rolled back, and which of its rows it rejects |
| `DeconflictionBatches.dfy` | what a batch decides, compared with single requests |
| `DeconflictionRollback.dfy` | runs in which clearing the index raises, and requests that make no check |
| `DeconflictionService.dfy` | the same requests carried out on rows and R-trees, and the bulk response |
| `SensorHealthMetrics.dfy`, `SensorHealthTagging.dfy`, `SensorHealthWindows.dfy` | the metrics loop, whose repair each interval is credited to, and cutting a window |
| `SensorHealthReport.dfy` | the report that the walk ends in |
| `SensorHealthLog.dfy` | health row, change log and notifications |
| `TrackStore.dfy` | active tracks and the fuser |
| `SurveillanceTasks.dfy` | the self-rescheduling heartbeat and track tasks, as a timed state machine |
| `RegistrationNumber.dfy` | the operator registration number of EN 4709-02 |
| `OperationStates.dfy` | the operation state machine of ASTM F3548-21 |
| `TelemetryConformance.dfy` | the conformance decision for one telemetry position |

Each loop or stateful operation of the source is a method, proved against a specification function
or predicate; the lemmas then say what that specification amounts to. Times are exact numbers
(seconds, or ticks of one clock), coordinates are exact reals. The geodesic solver is any pair of
functions for which walking `r` metres along a segment splits its length into `r` and the rest.

## What the models bring out

- Plain creation of a declaration (`src/flight_blender/services/flight_declarations_svc.py:378-427`)
  and the state update (line 588) are not checked for conflicts. Safety holds exactly under the guard
  stated in `DeconflictionSafety.Guard`.
- Without a deconfliction engine no operational intent can be stored: the result lookup raises and
  the request is rolled back. The same happens when `asyncio.run` raises while the declaration index
  is cleared, which it does inside a running event loop; the entries then stay in the index file.
  The models allow either outcome at every check: `clearRaises` tells for which rows clearing raises.
  If it always raises, declarations that merely overlap in time shut each other out.
- Every line of a collection is scheduled from take-off, so an aircraft that flies the lines in turn
  leaves the slots of the later ones unless they fit into three seconds.
- The fence query used by the engine selects fences whose window contains the whole window asked
  for, although its name speaks of overlapping; the models follow the query.
- Entries left in the fence index never spoil the viewport filter, but they can make the position
  query and the engine answer for a fence that nobody asked about.
- Date validation does not order start and end, so a declaration may have a window that runs
  backwards; the conflict test is the query's own and stays symmetric.
- The check character does not protect the country code, and never sees a swap of itself with the
  last base character.
- The altitude check and the outline check of telemetry may be passed by two different volumes.
- A surveillance session row is valid for 30 minutes, but its chains do no work after the first.

## Model

| member | source | states |
|---|---|---|
| `LinestringSplitter.BreakLinestring` | src/flight_blender/services/flight_declarations_svc.py:884-924 | The loop terminates for every path and every positive piece length, although its closing branch does not advance `i`. Each piece starts where the one before ended, taking the cut points out gives back the original vertices in order, the lengths add up to that of the path, every piece but the last has exactly the piece length, and the last is no longer and not empty. Paths with fewer than two vertices come back as they are. |
| `LinestringSplitter.PieceCount` | src/flight_blender/services/flight_declarations_svc.py:895-914 | A path of length D gives exactly max(1, ceil(D / piece length)) pieces. |
| `LinestringSplitter.PieceOffset` | src/flight_blender/services/flight_declarations_svc.py:903-911 | Piece `k` starts exactly `k` piece lengths along the path. |
| `FlightSchedule.ScheduleLine` | src/flight_blender/services/flight_declarations_svc.py:1017-1046 | A line is cut at three seconds of flight, and piece `k` gets the three seconds that start `3k` seconds after take-off time plus the whole seconds of the climb, although the code truncates `3k + climb` anew for every piece. |
| `FlightSchedule.FirstSlotAfterClimb` | src/flight_blender/services/flight_declarations_svc.py:1022-1025 | The first slot of a line opens at the last whole second after take-off at which the climb is not yet over, or just over. |
| `FlightSchedule.TruncateTowardsZero` | src/flight_blender/services/flight_declarations_svc.py:1025 | Truncation gives the whole number next to a value on the side of zero. |
| `FlightSchedule.SlotsAbut` | src/flight_blender/services/flight_declarations_svc.py:1024-1026 | Consecutive slots share their boundary: no gap, no overlap. |
| `FlightSchedule.SpeedBound` | src/flight_blender/services/flight_declarations_svc.py:1020-1026 | For length D > 0 and speed v > 0 the total scheduled time T satisfies D/v <= T < D/v + 3 s. |
| `FlightSchedule.FlightStaysInSlots` | src/flight_blender/services/flight_declarations_svc.py:1020-1046 | An aircraft flying the path at the default speed from the first slot on is, at every moment until the end of the path, inside the piece of a slot that is running. |
| `FlightSchedule.ScheduleLines` | src/flight_blender/services/flight_declarations_svc.py:1016-1046 | Every line of a collection, in order, is cut and scheduled as if it were the first: from the same take-off time. |
| `FlightSchedule.StaysInSlotsIff` | src/flight_blender/services/flight_declarations_svc.py:1020-1026 | An aircraft that begins a line at any time stays in its running slots if and only if it begins when the first slot opens, or later but flies the whole line during the first slot. |
| `FlightSchedule.LinesInTurnIff` | src/flight_blender/services/flight_declarations_svc.py:1016-1026 | Flying the lines right after each other, an aircraft stays in the slots of the line it is on if and only if this holds for every line, counted from take-off. |
| `FlightSchedule.SecondLineIff` | src/flight_blender/services/flight_declarations_svc.py:1016-1026 | So at one altitude range the second of two lines is flown in its slots if and only if the first has no length or both take at most three seconds. |
| `TimeSlicer.BuildSlices` | src/flight_blender/plugins/examples/hello_world_volume_generator.py:78-115 | Slice after slice: starts where the last one ended, lasts its proportional share but at least a second, is cut off at the end of the window, and the last one takes the rest. |
| `TimeSlicer.SliceLengths` | src/flight_blender/plugins/examples/hello_world_volume_generator.py:89-95 | Every slice before the last lasts its share and a second at least, and exactly one of the two, unless the window ends before. |
| `TimeSlicer.ShareOfLength` | src/flight_blender/plugins/examples/hello_world_volume_generator.py:82-89 | A share is to the whole window what the length is to all lengths. |
| `TimeSlicer.SlicesTileWindow` | src/flight_blender/plugins/examples/hello_world_volume_generator.py:87-115 | Slices start at the start and end exactly at the end of the window; they run forwards and stay inside it if and only if the window does not run backwards. |
| `TimeSlicer.ProportionalIff` | src/flight_blender/plugins/examples/hello_world_volume_generator.py:78-95 | For windows of either direction and features of any length: every slice is exactly its proportional share if and only if there are no features, or there is some length or no time to share and every feature but the last earns a full second or is followed only by features without a share. |
| `Deconfliction.VerdictIff` | src/flight_blender/services/deconfliction_engine.py:24-85 | Whatever the index files hold: a declaration is approved if and only if no fence entry is hit, it conflicts with no other active declaration, and (if there is anything to compare with) no stale index entry meets it. |
| `Deconfliction.RequestKeepsIndex` | src/flight_blender/services/flight_declarations_svc.py:486-515 | A request whose checks all clear the declaration index without raising gives it back as it found it, whatever it held. |
| `Deconfliction.NewRowOfIntent` | src/flight_blender/services/flight_declarations_svc.py:718-763 | A good intent of a batch is saved with its own window and box, in the place the good intents before it leave. |
| `Deconfliction.WithoutOne` | src/flight_blender/repositories/flight_declarations_repo.py:134-140 | Deleting takes out the one row with that id and leaves all others as they were, in order. |
| `Deconfliction.ConflictMeansSharedPoint` | src/flight_blender/repositories/flight_declarations_repo.py:70-74 | The query condition together with the box test means sharing a point in space and time. |
| `Deconfliction.QueriesInOrder` | src/flight_blender/repositories/flight_declarations_repo.py:64-78 | The overlap query and the fence query keep the order of their tables, row by row, by their plain conditions. |
| `DeconflictionSafety.CheckAllSound` | src/flight_blender/services/flight_declarations_svc.py:486-515 | Every approval in a completed series of checks is sound, whatever the indexes hold and however earlier checks changed them. |
| `DeconflictionSafety.SaveAndCheckSafe` | src/flight_blender/services/flight_declarations_svc.py:711-779 | Saving a whole batch, checking all of it and only then rejecting keeps active declarations pairwise free of conflict, although until then conflicting batch members are all stored; also when the request is rolled back. |
| `DeconflictionSafety.StepSafeIff` | src/flight_blender/services/flight_declarations_svc.py:668-833 | A request keeps active declarations pairwise free of conflict if and only if it is guarded: single and bulk operational intents, deletions and fence changes always; plain creation and state changes exactly when the declaration they make active conflicts with no active one. |
| `DeconflictionSafety.RunSafeIff` | src/flight_blender/services/flight_declarations_svc.py:517-833 | From a safe store, a run of requests is safe throughout if and only if every request in it is guarded. |
| `DeconflictionSafety.CheckedRunSafe` | src/flight_blender/services/flight_declarations_svc.py:668-833 | From the empty store, every run of single and bulk intents, deletions, fence changes and moves out of the active states keeps the store safe. |
| `DeconflictionExact.RequestRaisesIff` | src/flight_blender/services/flight_declarations_svc.py:486-515 | A request is rolled back because clearing raises if and only if it raises for some new row that overlaps another active row, stored or new, in time. |
| `DeconflictionExact.SaveAndCheckExact` | src/flight_blender/services/flight_declarations_svc.py:668-833 | What a request that runs to its end does, for any fences and any content of the indexes: old rows stay, each new row stays as saved or is rejected by its own check, the declaration index is as it was, and the fence index is what the checks leave one after the other. |
| `DeconflictionExact.PassesIff` | src/flight_blender/services/deconfliction_engine.py:24-85 | With no fence in force for it, a new row passes if and only if it is clear of everything saved, its batch mates included, and, if anything overlaps it in time, no stale entry meets it. |
| `DeconflictionExact.OldRowsStay` | src/flight_blender/services/flight_declarations_svc.py:668-833 | Whatever its outcome, a request leaves the rows stored before as they were. |
| `DeconflictionExact.VerdictStates` | src/flight_blender/services/deconfliction_engine.py:32-85 | An approved declaration gets state 0 in a USSP network and 1 otherwise, any other 8. |
| `DeconflictionExact.RowsMatchVerdicts` | src/flight_blender/services/flight_declarations_svc.py:785-801 | After a request that ran to its end, the approval and state of every new row are those of its verdict; the rest of the row is as it was saved. |
| `DeconflictionExact.FenceHitIff` | src/flight_blender/services/deconfliction_engine.py:35-50 | Stale entries apart, a declaration is hit by a fence if and only if some fence whose window contains its window overlaps it once the axes of the fence are exchanged. |
| `DeconflictionExact.FencesReplaced` | src/flight_blender/repositories/geo_fence_repo.py:15-25 | A fence is in force for a declaration exactly if it is among the present fences and its window contains the declaration's. |
| `DeconflictionExact.MovedOutStandsInNoWay` | src/flight_blender/services/flight_declarations_svc.py:588-592 | A declaration moved to a state other than 1 to 4 no longer stands in the way of a later one, in space or in time; all others do as before. |
| `DeconflictionBatches.AcceptedAfterMovingOut` | src/flight_blender/services/flight_declarations_svc.py:588-709 | So after the only declarations in its way have been moved out, a new operational intent is accepted. |
| `DeconflictionBatches.BulkDecidesByBag` | src/flight_blender/services/flight_declarations_svc.py:711-783 | In standalone mode, if the bulk request runs to its end and no fence is in force for the intent and no stale entry lies on it: what is stored for an intent depends only on the stored declarations and on the bag of intents, not on their order: accepted if and only if it conflicts with nothing in either. |
| `DeconflictionBatches.BulkRolledBackByBag` | src/flight_blender/services/flight_declarations_svc.py:711-783 | The other half, if clearing always raises: the bulk request is rolled back if and only if some intent overlaps, in time alone, an active declaration or another intent of the bag. |
| `DeconflictionBatches.OneByOneAcceptsMore` | src/flight_blender/services/flight_declarations_svc.py:668-783 | Comparing the two stores, whatever fences there are, whatever the indexes hold and wherever clearing raises: every row that is stored and not rejected after a bulk request is the same row when the intents are submitted one by one. |
| `DeconflictionBatches.FirstOfTwoRivals` | src/flight_blender/services/flight_declarations_svc.py:668-783 | Sometimes strictly more: of two conflicting intents, the first fine by itself, one by one the first is accepted and the second is rejected, or rolled back if clearing raises for it; the batch rejects both, or is rolled back if clearing raises for either. |
| `DeconflictionRollback.RaisingRunDisjoint` | src/flight_blender/services/deconfliction_engine.py:76-78 | If clearing always raises, every run of checked requests from the empty store keeps active declarations disjoint in time, even when they are far apart in space. |
| `DeconflictionRollback.ReacceptingSafeIff` | src/flight_blender/services/flight_declarations_svc.py:588-592 | From the empty store: submit any two conflicting intents one after the other and set the second to an active state; two active declarations then conflict, unless the second was rolled back because clearing raised. |
| `DeconflictionRollback.UncheckedRequestsUnsafe` | src/flight_blender/services/flight_declarations_svc.py:378-427 | Counterexamples without any check: any two conflicting intents created plainly in active states, or the second created inactive and then set to an active state. |
| `DeconflictionService.FlightDeclarationOperations.GetActiveDeclarationsOverlapping` | src/flight_blender/repositories/flight_declarations_repo.py:64-78 | Returns exactly the active rows whose closed time window meets the one asked for, in order, without the excluded one. |
| `DeconflictionService.FlightDeclarationOperations.CheckDeconfliction` | src/flight_blender/services/deconfliction_engine.py:24-85 | Filling, asking and clearing the R-trees yields the verdict and the index keys of the specification, also when clearing raises. |
| `DeconflictionService.FlightDeclarationOperations.SetOperationalIntent` | src/flight_blender/services/flight_declarations_svc.py:668-709 | A single intent changes store and indexes as the specified step does. A good one is answered with the id, approval and state that its stored row has, at the end of the table, with its own window and box, except that it is rolled back exactly when there is no engine or a check raises; then the rows are as before. |
| `DeconflictionService.FlightDeclarationOperations.SetOperationalIntentsBulk` | src/flight_blender/services/flight_declarations_svc.py:711-783 | The same for a batch: rolled back exactly when something was saved and there is no engine or a check raises. Otherwise the response counts every intent once; result `i` is a failure for a bad intent `i`, and for a good one the id and verdict of the row after those of the good intents before it; status 200 exactly when nothing failed. |
| `DeconflictionService.FlightDeclarationOperations.GetGeofencesOverlapping` | src/flight_blender/repositories/geo_fence_repo.py:15-25 | Returns the fences whose window contains the whole window asked for, in order. |
| `DeconflictionService.FlightDeclarationOperations.CheckFences` | src/flight_blender/services/deconfliction_engine.py:35-52 | The fence half of a check: a hit exactly as specified, and the index gains the swapped keys and loses the unswapped ones. |
| `DeconflictionService.FlightDeclarationOperations.CheckDeclarations` | src/flight_blender/services/deconfliction_engine.py:54-78 | The declaration half: a hit exactly as specified; the index is as before, or keeps the new keys if clearing raises. |
| `DeconflictionService.FlightDeclarationOperations.RunDeconfliction` | src/flight_blender/services/flight_declarations_svc.py:486-515 | One check after the other until one raises, each on the index the one before left. |
| `DeconflictionService.FlightDeclarationOperations.ProcessIntersectionResult` | src/flight_blender/services/flight_declarations_svc.py:798-801 | Row by row: one whose check failed becomes unapproved with the state of the verdict, every other one stays as it was. |
| `DeconflictionService.FlightDeclarationOperations.SaveAll` | src/flight_blender/services/flight_declarations_svc.py:718-763 | Stores a row for every good intent of a batch, in order, and records every other one as failed under its own index. |
| `DeconflictionService.FlightDeclarationOperations.CreateFlightDeclaration` | src/flight_blender/services/flight_declarations_svc.py:378-427 | Plain creation appends one row with the window, box and state asked for, approved unless that state is 0 or 8, without any check, and answers with its id, approval and state. |
| `DeconflictionService.FlightDeclarationOperations.UpdateFlightDeclarationState` | src/flight_blender/services/flight_declarations_svc.py:588-592 | The row with that id gets the state, whatever it was and whatever it becomes, and keeps everything else; all other rows stay; 404 if there is no such row. |
| `DeconflictionService.FlightDeclarationOperations.DeleteFlightDeclaration` | src/flight_blender/services/flight_declarations_svc.py:608-612 | Exactly the rows with other ids remain; where ids are unique, the others keep their order; 404 and nothing changes if there is no such row. |
| `DeconflictionService.BulkResponse` | src/flight_blender/services/flight_declarations_svc.py:765-783 | Submitted plus failed is the number of intents; result `i` is a failure for a bad intent `i`, and for a good one the id and verdict of the row after those of the good intents before it; 200 if and only if nothing failed. |
| `DeconflictionService.ReportedAsStored` | src/flight_blender/services/flight_declarations_svc.py:765-778 | What a bulk response tells of a good intent is the id, approval and state that its own row, with its own window and box, has after the request. |
| `DeconflictionService.ResultsFallIntoPlace` | src/flight_blender/services/flight_declarations_svc.py:780 | Sorting results with different indexes below n puts every result at its own index. |
| `SpatialIndex.GenerateFlightDeclarationIndex` | src/flight_blender/utils/spatial_flight_declarations.py:49-63 | Adds one entry per declaration, at its box and hashed id, to whatever the index holds. |
| `SpatialIndex.ClearDeclarationIndex` | src/flight_blender/utils/spatial_flight_declarations.py:65-74 | Deletes, declaration by declaration, one entry with that very key if there is one. |
| `SpatialIndex.ClearUndoesGenerate` | src/flight_blender/utils/spatial_flight_declarations.py:49-74 | Building the declaration index for any list and clearing it with the same list restores the keys (hashed id and box) of any starting index, even if hashed ids collide. |
| `SpatialIndex.GenerateGeoFenceIndex` | src/flight_blender/utils/spatial_geo_fence.py:73-89 | Adds one entry per fence, its axes swapped. |
| `SpatialIndex.ClearGeoFenceIndex` | src/flight_blender/utils/spatial_geo_fence.py:91-96 | Deletes, fence by fence, one entry at the box with its axes not swapped, if there is one. |
| `SpatialIndex.FenceClearUndoesGenerateIff` | src/flight_blender/utils/spatial_geo_fence.py:73-96 | For fences, which are inserted with swapped axes and deleted without, this holds if and only if swapping axes merely permutes the keys of the list. |
| `SpatialIndex.FilterFencesByViewport` | src/flight_blender/utils/spatial_geo_fence.py:106-113 | Fills, asks and clears the shared index and keeps, in order, the fences whose id was found. |
| `SpatialIndex.HasIntersectionAtPosition` | src/flight_blender/utils/spatial_geo_fence.py:115-128 | Answers whether any entry, left behind or of a fence asked about, meets the position; then clears like every other query. |
| `SpatialIndex.PositionExactIff` | src/flight_blender/utils/spatial_geo_fence.py:115-128 | The position query is right if and only if some fence asked about is really there or no entry left behind meets the position. |
| `SpatialIndex.ViewportRunExact` | src/flight_blender/utils/spatial_geo_fence.py:73-113 | On every run of viewport filters, position queries and engine checks on the one fence index, over fences with unchanging bounds, every viewport filter returns the order-preserving brute-force filter by axis-swapped box intersection, whatever earlier calls left in the index. |
| `SpatialIndex.ViewportInCoordinates` | src/flight_blender/utils/spatial_geo_fence.py:73-113 | The same in coordinates: in every run, every viewport filter keeps, in their order, exactly the fences whose bounds, x taken for y and y for x, overlap the viewport. |
| `SpatialIndex.SwappedMeansSharedPoint` | src/flight_blender/utils/spatial_geo_fence.py:81-82 | For boxes with an extent, that means that some point of the fence lies, with its coordinates exchanged, in the viewport. |
| `SpatialIndex.StaleEntryMisleadsIff` | src/flight_blender/utils/spatial_geo_fence.py:81-128 | From the empty index: after any call about one fence, a position query where that fence is, but none of the fences asked about, is answered wrongly if and only if swapping the fence's axes changes it. |
| `SensorHealthReport.CalculateSensorHealthMetrics` | src/flight_blender/services/surveillance_svc.py:240-309 | The report field by field, in terms of repairs: the counts of all, automatic and other repairs, and four means, each over its own durations: of all repairs, of the automatic ones, and of the intervals whose repair was automatic and manual. |
| `SensorHealthReport.AverageLaws` | src/flight_blender/services/surveillance_svc.py:289-294 | There is an average of some values only; times their number it makes up their total, and it lies between any bounds they have. |
| `SensorHealthReport.OneFailure` | src/flight_blender/services/surveillance_svc.py:250-309 | The whole report for a sensor that works, fails (degraded or out) and is repaired (automatically or manually) within the window. |
| `SensorHealthReport.StatusNames` | src/flight_blender/services/surveillance_svc.py:250-251 | Degraded and outage are failures, operational is not, and nothing else is recognized. |
| `SensorHealthMetrics.TimeConserved` | src/flight_blender/services/surveillance_svc.py:250-287 | At most one of the two marks is set, and repair durations plus operational intervals fill exactly the time from when the condition was first known to the beginning of the current period. |
| `SensorHealthMetrics.DurationsNonNegative` | src/flight_blender/services/surveillance_svc.py:262-287 | On records in time order no duration is negative. |
| `SensorHealthTagging.RedundantDeletable` | src/flight_blender/services/surveillance_svc.py:262-309 | Deleting a record whose status is not recognized or repeats the sensor's current condition changes no metric. |
| `SensorHealthTagging.RedundantIff` | src/flight_blender/services/surveillance_svc.py:262-309 | And only such records: a record can be deleted without changing a metric, whatever is recorded after it, if and only if its status is not recognized or repeats the current condition. |
| `SensorHealthTagging.IntervalsCarryTheirRepair` | src/flight_blender/services/surveillance_svc.py:266-284 | Interval `k` runs from the repair before it to the `k`-th breakdown and is tagged with the recovery type of the repair that ended that breakdown; only the last interval can lack a repair, and then has no tag. Every repair lasts from its own breakdown. |
| `SensorHealthTagging.AutomaticRecoveries` | src/flight_blender/services/surveillance_svc.py:274-279 | The automatic recovery durations are those of the repairs recorded as automatic. |
| `SensorHealthTagging.CountsBalanced` | src/flight_blender/services/surveillance_svc.py:266-287 | The numbers of recoveries and of closed operational intervals differ by at most one. |
| `SensorHealthWindows.WindowsAdd` | src/flight_blender/services/surveillance_svc.py:240-309 | Cutting a window at an instant without a record: recoveries, automatic recoveries and intervals of the whole are those of the parts; repair time too, except that a failure open at the cut loses its time before the cut exactly when it is repaired in the second part, and likewise up-time. |
| `SensorHealthWindows.IntervalsJoin` | src/flight_blender/services/surveillance_svc.py:266-284 | The operational intervals of the whole, one by one: those of the first part, its last one tagged with the type of the second part's first repair if the failure that closed it was open at the cut, then those of the second part, the first one lengthened by the up-time running at the cut. |
| `SensorHealthWindows.TaggedWindowsAdd` | src/flight_blender/services/surveillance_svc.py:289-294 | So for the intervals behind each mean time between failures: counts and totals of the parts add up, except for that late-tagged interval and the up-time before the cut. |
| `SensorHealthWindows.StatusAtCut` | src/flight_blender/repositories/surveillance_repo.py:92-121 | The status before the cut is the condition that the first part of the window ends with. |
| `SensorHealthWindows.WindowSplits` | src/flight_blender/repositories/surveillance_repo.py:92-106 | The closed windows before and after the cut together hold exactly the records of the whole. |
| `SensorHealthWindows.WindowByOne` | src/flight_blender/repositories/surveillance_repo.py:92-106 | The window query keeps, in order, the records from its beginning to its end, both included. |
| `SensorHealthWindows.StatusBeforeIsNewest` | src/flight_blender/repositories/surveillance_repo.py:108-121 | The status query answers with the newest record strictly before the time asked for, and only if there is one. |
| `SensorHealthLog.SurveillanceRepository.UpdateSensorHealthStatus` | src/flight_blender/repositories/surveillance_repo.py:182-221 | Unknown sensor: refused, nothing changes. Unchanged status: nothing changes. Otherwise one new status, one tracking record, one notification naming the status before. |
| `SensorHealthLog.TablesAlwaysAgree` | src/flight_blender/repositories/surveillance_repo.py:182-221 | After every run of updates, for every sensor: the health row is the newest tracked status, consecutive tracked statuses differ, and the notifications match the tracking records one to one, each naming the status before it. |
| `SensorHealthLog.LogSorted` | src/flight_blender/repositories/surveillance_repo.py:92-106 | With a clock that does not run backwards the tracking records of a sensor are in time order. |
| `SensorHealthLog.StatusNowIsHealthIff` | src/flight_blender/repositories/surveillance_repo.py:108-121 | Asked later than the last change, the status-before query can only answer with the health row if and only if the last two changes do not share a time stamp. |
| `SensorHealthLog.TiedChangesMislead` | src/flight_blender/repositories/surveillance_repo.py:108-121 | The failing case as a run: after two updates of a sensor with different statuses and the same time stamp, the query may answer with the first although the health row has the second. |
| `TrackStore.GenerateActiveTracks` | src/flight_blender/services/surveillance_svc.py:829-851 | One batch extends or creates the track of each of its aircraft, through the store's own operations. |
| `TrackStore.FusedTrack` | src/flight_blender/services/surveillance_svc.py:838-851 | What one batch makes of every track of its session: extended by its own observations and stamped with the time of the run, created with them if there was none, untouched if the batch has nothing of it. |
| `TrackStore.PutOneTrack` | src/flight_blender/clients/redis_client.py:207-241 | Adding or updating a track sets the observations of its aircraft in its session and of no other aircraft or session, and keeps every track under its own key; both store methods promise this. |
| `TrackStore.GroupByAddress` | src/flight_blender/services/surveillance_svc.py:831-836 | Groups the batch by address, each group in order, the groups in order of first appearance. |
| `TrackStore.BatchesAreHomomorphic` | src/flight_blender/services/surveillance_svc.py:829-851 | However a session's stream is cut into batches, and whatever other sessions do in between, each aircraft's stored list grows by exactly its own part of the stream, in order. |
| `TrackStore.TotalStoredIsTotalRead` | src/flight_blender/services/surveillance_svc.py:831-851 | Over any list of different addresses that covers a session's stream, the store gains exactly as many observations as were read, whatever the batches and the other sessions. |
| `TrackStore.OtherSessionsUntouched` | src/flight_blender/clients/redis_client.py:207-241 | A session that reads nothing keeps its tracks, time stamps included. |
| `TrackStore.KeyInjective` | src/flight_blender/clients/redis_client.py:168 | For session ids of one length, a store key determines session and address. |
| `TrackStore.KeyFormat` | src/flight_blender/clients/redis_client.py:168 | The store key is `active_track:`, the session, a colon and the address. |
| `TrackStore.RedisTrackStore.GetAllActiveTracksInSession` | src/flight_blender/clients/redis_client.py:243-274 | The key pattern of a session selects exactly the tracks of that session. |
| `SurveillanceTasks.StopIsFinal` | src/flight_blender/tasks/scheduler.py:89-92 | On every run, after a session is stopped no tick of its heartbeat or track chain begins any work, because the 300 s stop key outlives the 60 s expiry. |
| `SurveillanceTasks.AtMostSixtyTicks` | src/flight_blender/tasks/surveillance_task.py:91-146 | On every run a chain executes at most 60 ticks, all within a minute of its start. |
| `SurveillanceTasks.SixtyTicksReached` | src/flight_blender/tasks/surveillance_task.py:91-146 | An undisturbed chain does execute 60 ticks. |
| `SurveillanceTasks.RateNeverAboveTarget` | src/flight_blender/services/surveillance_svc.py:192-207 | On every run and for every query window, the heartbeat rate measured over one chain is at most the target of 1 Hz. |
| `SurveillanceTasks.RateLaw` | src/flight_blender/services/surveillance_svc.py:192-200 | The measured rate times the time between the first and the last event is the number of events after the first; without such a time the rate is 0. |
| `SurveillanceTasks.UndisturbedRate` | src/flight_blender/services/surveillance_svc.py:192-200 | An undisturbed chain is measured at exactly 1 Hz, after any number of ticks from two on. |
| `SurveillanceTasks.WindowByOne` | src/flight_blender/repositories/surveillance_repo.py:123-137 | The heartbeat query finds the events of the closed window, in order. |
| `SurveillanceTasks.SurveillanceService.TickBegins` | src/flight_blender/tasks/surveillance_task.py:91-96 | The begin of a tick looks at the stop key first, then at the expiry, and starts work only past both. |
| `SurveillanceTasks.SurveillanceService.StartSession` | src/flight_blender/services/surveillance_svc.py:71-93 | Starting a new session schedules both chains, each with its first tick a second later and expiring after a minute; an existing one is refused and nothing changes. |
| `SurveillanceTasks.SurveillanceService.StopSession` | src/flight_blender/services/surveillance_svc.py:95-100 | Stopping sets the stop key of a known session for 300 s and touches no chain; an unknown session is refused. |
| `SurveillanceTasks.SurveillanceService.TickRecords` | src/flight_blender/tasks/surveillance_task.py:133-140 | A running tick records its heartbeat once. |
| `SurveillanceTasks.SurveillanceService.TickRequeues` | src/flight_blender/tasks/surveillance_task.py:142-146 | Afterwards the chain queues its next tick one second later, with the same expiry. |
| `RegistrationNumber.AcceptedIff` | src/flight_blender/services/scd_svc.py:377-394 | A number is accepted if and only if it has the prescribed shape and its weighted digits with the check character add up to a multiple of 36. |
| `RegistrationNumber.ExactlyOneCheckCharacter` | src/flight_blender/services/scd_svc.py:360-394 | For every country code, base and suffix exactly one check character is accepted: the generated one. |
| `RegistrationNumber.FinalSumIsWeightedSum` | src/flight_blender/services/scd_svc.py:366-374 | The final sum counts every digit, every other one doubled from the first on, a double by its base-36 digit sum. |
| `RegistrationNumber.ControlNumberCompletes` | src/flight_blender/services/scd_svc.py:374-375 | The control number makes that sum up to a multiple of 36. |
| `RegistrationNumber.TableInOrder` | src/flight_blender/services/scd_svc.py:321-358 | The code points are the digits and then the letters, in their own order, with values from 0 to 35. |
| `RegistrationNumber.ChecksumOutcomes` | src/flight_blender/services/scd_svc.py:360-375 | Computing a check character is refused for anything but fifteen letters and digits, fails on upper-case letters, and otherwise gives one of the table. |
| `RegistrationNumber.FailsIff` | src/flight_blender/services/scd_svc.py:377-394 | Validation raises an uncaught error if and only if the number has the right shape but an upper-case letter in its base or suffix. |
| `RegistrationNumber.SubstitutionDetectedIff` | src/flight_blender/services/scd_svc.py:377-394 | Replacing any one character of an accepted number by any other goes undetected if and only if it is in the country code and not replaced by a dash. |
| `RegistrationNumber.SwapDetectedIff` | src/flight_blender/services/scd_svc.py:360-394 | Swapping any two adjacent different characters of an accepted number goes undetected if and only if both are in the country code, or they are `0` and `z` inside base or suffix, or the last base character and the check character. |
| `RegistrationNumber.SplitTwo` | src/flight_blender/services/scd_svc.py:379 | Splitting at the dash yields two parts only for a number that is those parts around its one dash. |
| `OperationStates.FlightOperationStateMachine.OnEvent` | src/flight_blender/services/conformance_svc.py:333-339 | The machine moves as its state says; a machine built from an unknown status fails. |
| `OperationStates.EventsByNumber` | src/flight_blender/services/conformance_svc.py:240-308 | The transitions by status number: the eleven event rules, and no other event moves the machine. |
| `OperationStates.ReachableIff` | src/flight_blender/services/conformance_svc.py:240-321 | An event word leads from one state to another if and only if the table says so; in particular nothing becomes rejected, only an unsubmitted declaration is withdrawn or cancelled, and a contingent operation can only end. |
| `OperationStates.PhaseChangesBounded` | src/flight_blender/services/conformance_svc.py:240-321 | Phases only go forward; over any word they change at most four times. |
| `OperationStates.VerifiedChainIff` | src/flight_blender/services/conformance_svc.py:411-419 | A chain of transitions passes verification if and only if it is the machine's own run on its events, and ends where that run ends. |
| `OperationStates.VerifyOperationStateTransition` | src/flight_blender/services/conformance_svc.py:411-419 | The check passes exactly for the status the machine moves to, and fails for an unknown original status. |
| `OperationStates.UnknownStateNeverVerified` | src/flight_blender/services/conformance_svc.py:411-419 | Nothing passes verification out of a status that is not one of 0 to 8. |
| `OperationStates.StatusRoundTrip` | src/flight_blender/services/conformance_svc.py:311-330 | Status numbers and states correspond one to one. |
| `TelemetryConformance.IsWithinGeometry` | src/flight_blender/services/conformance_svc.py:924-938 | A position is inside a geofence geometry if and only if it is inside some outer ring. |
| `TelemetryConformance.IsOperationConformantViaTelemetry` | src/flight_blender/services/conformance_svc.py:814-940 | When each code is returned, in plain terms: 2 without declaration or reference, 3 for another aircraft, 4 for states 0 and 5 to 8, 5 for any other state but 2 to 4, 6 outside the time window, 8 outside every altitude band, 7 outside every outline, 9 inside some ring of some fence, and 100 if and only if none of these holds. |
| `TelemetryConformance.OrderIrrelevant` | src/flight_blender/services/conformance_svc.py:875-938 | Neither the order of the volumes nor that of the fences matters. |
| `TelemetryConformance.Monotone` | src/flight_blender/services/conformance_svc.py:875-940 | More volumes never turn 100 into a violation; more fences never turn C8 into 100. |
| `TelemetryConformance.InsideVolumePasses` | src/flight_blender/services/conformance_svc.py:893-915 | A position inside one declared volume never gets C7a or C7b. |
| `TelemetryConformance.OutsideEveryVolumeYetConformant` | src/flight_blender/services/conformance_svc.py:902-915 | Counterexample to the converse: conformant although outside every declared volume. |
| `TelemetryConformance.SeparateChecksExactIff` | src/flight_blender/services/conformance_svc.py:902-915 | The two separate checks mean being inside one volume, whatever the outlines look like, if and only if the volumes over each outline together hold every altitude that any volume holds. |
| `TelemetryConformance.SameBandsIff` | src/flight_blender/services/conformance_svc.py:902-915 | When no two volumes share an outline, that means that all (non-empty) altitude bands are the same. |

## Left out

- Floating point, rounding of metrics to two decimals, and date and coordinate parsing: numbers are exact.
- Concurrent requests: requests on the declaration store run one after the other, each committed or rolled back as a whole.
- The R-tree library: an index is a bag of entries, a query returns those whose closed box meets the view; dates in the entry metadata, boxes with NaN from empty geometries and corrupt-index recovery are not modelled.
- Row ids: consecutive numbers, used up by rolled-back requests too, stand for UUIDs, 8-digit hashes are an arbitrary function of the id.
- Errors of the database itself inside a bulk request: they end the transaction, as a raising check does, and are not separate steps.
- Plain bulk creation (`bulk_create_flight_declarations`) is a series of plain creations; setting the approval flag touches neither state nor extent.
- State history entries, notifier messages and the DSS submission after a successful check: they do not influence the decision.
- `DeconflictionBatches.BulkDecidesByBag`: for intents that no fence in force and no stale entry touches, in a request that runs to its end; `DeconflictionExact.SaveAndCheckExact` and `DeconflictionExact.RequestRaisesIff` give the outcome in every case.
- `SensorHealthWindows.WindowsAdd` (and the lemmas that join intervals): asks for statuses the service accepts (operational, degraded, outage), which is what the update endpoint lets into the log; records with equal time stamps are taken in one fixed order.
- `FlightSchedule.ScheduleLines`: take-off and landing volumes, sorting of features and buffering of geometries are not modelled.
- `SurveillanceTasks.StopIsFinal`: scheduling is taken to succeed for both chains; the clean-up after a failed schedule, task redelivery by the broker and clocks that disagree are not modelled.
- `TrackStore.KeyInjective`: session ids have one length, as UUIDs have; reading the Redis stream and acknowledging messages is not modelled, a batch is a list of observations.
- `RegistrationNumber.IsValid`: ASCII characters only; upper-case letters in the protected part raise the uncaught `KeyError`, as in the source.
- `TelemetryConformance.IsOperationConformantViaTelemetry`: point-in-polygon is a parameter; a geofence geometry is given by its outer rings.
- Persisted state changes by the conformance receivers, which do not consult the state machine.
- HTTP, authentication, DSS and peer clients, message brokers, ORM mapping: plumbing around the decisions modelled here.
