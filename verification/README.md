# A model of the m86 device code

This project models the stateful, concurrent and binary-format code of the Meizu
m86 device repository and proves what it is meant to guarantee. Each source file
that changes things step by step is a class or a method with loops, proved against
functions on values; the lemmas about whole runs are proved about those functions.

| modules | what they model |
|---|---|
| `PowerSpec`, `PowerHal`, `PowerRuns` | the power HAL: three boost timers, gating modes, CPU-floor descriptors, applied-value caches, and the worker thread that expires deadlines and retries writes |
| `Fdt`, `FdtGrammar`, `FdtPatch`, `FdtTool`, `FdtExample` | the flattened-devicetree walker, the in-place removal of one property, and the tool's own checks (sections 5.2, 5.4, 5.5 and 5.6 of the Devicetree Specification v0.4) |
| `FingerprintSpec`, `FingerprintDevice`, `FingerprintRuns`, `FingerprintMetadata` | the fingerprint HAL: start, cancel, reap and join of its worker, the template table, and the metadata record on disk |
| `FingerprintCompat` | the layer that sends a CANCELED notification the stock library left out |
| `Relocation` | length-preserving rewriting of path strings inside a binary |
| `Installer`, `ManifestText`, `InstallScript` | the incremental package's manifest, the file it travels in, and its validate, stage and commit script |
| `Clocks`, `SensorPoll` | boot-time conversion of legacy sensor timestamps, and the poll loop that filters events in place |
| `Nfc` | the filter over the NCI discovery command (section 3.4.1 of the NFC Forum NCI specification) |
| `Radio` | preferred-network bitmaps over a legacy modem that knows only numbered modes |

## How the outside world appears

Everything a kernel, a clock, a stock library or a storage device decides is a
parameter: clock readings, descriptor numbers, whether an open, a write, a thread
creation or a rename succeeds. The theorems hold for all of them. Three rules are
assumed throughout: a failed node write leaves the node as it was, a rename is
atomic, and equal SHA-256 digests mean equal content.

A concurrent component is a step system. One step is one section under the lock, one
completed join, one notification, or the clock moving on; a run is any finite
sequence of steps. Histories that no step reads (the calls made so far, which handles
were joined, which cancellations were sent) are carried along so that the theorems
can speak about them. What the call history says is told without the functions that the
code is modelled by: the last call about each mode, and how long each request lasts.

In the power runs the only bound on time is that two seconds from now is below the
greatest time point of the steady clock. In the class, a mode switch or a boost
request is the section of the source without its logging and counters.

In the devicetree the property to remove is a parameter, `Nothing` for plain reading.
The layout condition `Disjoint` (the structure block overlaps neither the header nor
the strings block) can be checked on the header alone; without it the parser accepts
blobs in which the overwritten bytes are also header or name bytes. The digest lock is
the parameter `hashMatches`: the locked digest admits one stock blob only, and the
statements about other blobs say what the rest of the tool does with them.

The values of the `RadioAccessFamily` bits come from the radio HAL interface; the
patch uses their names only.

## Findings

- The "exactly four changed bytes" check of the devicetree tool is not a consequence
  of its other checks: it passes exactly when two bytes of the property's name offset
  differ from a NOP token (`FdtTool.CheckOutputExact`). `FdtExample.FootprintCheckFails`
  is a 220-byte blob with disjoint blocks that keeps the stock contract, is patched and
  is then refused; only the digest lock keeps it away from this check. On a blob with
  disjoint blocks this check and the one for exactly one patched property are the only
  checks on the output that can fail, and everything the tool says is decided by a
  plain read of the stock blob (`FdtTool.BuildExact`).
- A successful cancel brings exactly one CANCELED if and only if the stock library
  emitted at most one during it (`FingerprintCompat.CancelCompleteness`): the layer
  adds a missing one but does not drop a surplus one. `FingerprintCompat.SurplusCanceled`
  is a run that ends with two.
- Setting a network bitmap and reading it back gives the same bitmap if and only if
  the bitmap splits none of the five groups (`Radio.SetThenGet`); the single bit GSM is
  accepted and comes back as three (`Radio.SplitGroupWidened`). Two entries of the mode
  table coincide, so mode 3 is always asked for as mode 0 (`Radio.TableRoundTrips`).
- A wall-clock step across a poll is certain to be caught if and only if it exceeds six
  milliseconds, not five (`Clocks.StepAlwaysCaught`), and certain not to be suspected if
  and only if it is at most four (`Clocks.StepNeverSuspected`).
  `Clocks.SixMillisecondsMissed` is a missed step; it attains the error bound of
  `Clocks.StepError`.
- An interrupted install can be repeated if and only if no declared file is named like
  one of the run's temporaries (`InstallScript.SurvivesIff`); over all process numbers,
  if and only if no declared name is a payload's name, the suffix of the temporaries
  and then a decimal number (`InstallScript.SurvivesAlwaysIff`). The package builder
  does not check this: it accepts a clashing manifest for every library whose name does
  not end in a dot (`InstallScript.BuilderAcceptsClash`). An interruption then leaves
  the file empty (`InstallScript.ClashDestroys`), and an undisturbed run deletes it and
  reports success (`InstallScript.SuccessDeletesVictim`).
- A GPU node does not always hold what the modes ask for: it does if and only if the
  last call that came to it with a working write asked for the same
  (`PowerRuns.FloorExact`, `PowerRuns.CeilingExact`). After a failed write it stays
  behind until a call comes to that limit again (`PowerRuns.FloorStaleUntilTried`,
  `PowerRuns.CeilingStaleUntilTried`); neither the worker nor a launch, an unknown mode
  or a low-power call that changes nothing does. `PowerRuns.FloorLeftBehind` is such a
  run.

## Model

| member | source | states |
|---|---|---|
| `PowerSpec.LoadConfig` | power/Power.cpp:107-123 | every loaded configuration is within bounds, and a well-formed file is taken as it is |
| `PowerSpec.ApplyBoostKeeps` | power/Power.cpp:168-194 | a pass keeps descriptors, caches and nodes coherent, drops every deadline that passed or is not allowed, and invents none |
| `PowerSpec.LimitsStayCoherent` | power/Power.cpp:228-274 | cached GPU limits and profile are what the nodes hold, through every mode call and write outcome |
| `PowerSpec.FloorFollowsIff` | power/Power.cpp:72-274 | a mode call leaves the floor node at what the modes then ask for exactly if it comes to the floor with a working write or the node was there already; what the modes ask for changes only in calls that come to it |
| `PowerSpec.CeilingFollowsIff` | power/Power.cpp:84-274 | the same for the ceiling node |
| `PowerSpec.ProfileExact` | power/Power.cpp:228-252 | the profile node and what is remembered of its write after every mode call, for each outcome |
| `PowerSpec.SwitchModeKeeps` | power/Power.cpp:239-274 | the first half of a mode call keeps the state invariant |
| `PowerHal.Power.constructor` | power/Power.cpp:64-70 | the object starts from the defaults, one pass and one profile write, whatever those writes do |
| `PowerHal.Power.ReleaseFloors` | power/Power.cpp:127-130 | every held descriptor is closed in the kernel and forgotten |
| `PowerHal.Power.ApplyCpuFloorLocked` | power/Power.cpp:125-166 | the two-cluster floor is kept, acquired on both clusters, or fully rolled back; no descriptor leaks on any open or write failure |
| `PowerHal.Power.PruneDeadlines` | power/Power.cpp:177-182 | exactly the allowed, unexpired deadlines survive, and the boost is active iff one does |
| `PowerHal.Power.ApplyBoostLocked` | power/Power.cpp:168-194 | the whole pass, in the order of its writes, refines the function on states |
| `PowerHal.Power.RequestBoostLocked` | power/Power.cpp:196-209 | a request clamps, extends or cancels one timer only, then passes; `PowerRuns.CallExact` says what that means |
| `PowerHal.Power.BoostWorker` | power/Power.cpp:211-226 | one turn of the worker and the wait it chooses |
| `PowerHal.Power.ApplyGpuFloorLocked` | power/Power.cpp:72-82 | after a successful write cache and node are what the modes ask for; a failed write leaves both |
| `PowerHal.Power.ApplyGpuCeilingLocked` | power/Power.cpp:84-94 | after a successful write cache and node are what the modes ask for; a failed write leaves both |
| `PowerHal.Power.ApplyPowerProfileLocked` | power/Power.cpp:228-237 | the low-power flag changes even if the profile write fails, and the failure is remembered |
| `PowerHal.Power.SwitchModeLocked` | power/Power.cpp:239-274 | each mode changes its own flag and its own limits only; `PowerRuns.ModesReadOff` and `PowerRuns.LimitsAsked` say to what |
| `PowerHal.Power.SetModeLocked` | power/Power.cpp:239-274 | a mode call, including the launch boost it may request |
| `PowerHal.Power.SetBoostLocked` | power/Power.cpp:293-307 | each boost goes to its own timer with its own default; unknown boosts change nothing |
| `PowerHal.Power.StopLocked` | power/Power.cpp:96-103 | the destructor's section leaves a stopped state with no deadline and no floor |
| `PowerRuns.LiveAfter` | power/Power.cpp:196-209 | how one more call changes whether the history keeps a source boosted at an instant |
| `PowerRuns.ModesReadOff` | power/Power.cpp:239-274 | after any calls each mode is what the last call about it said, and the HAL is stopped exactly if it was destroyed |
| `PowerRuns.EarliestSpec` | power/Power.cpp:211-226 | the scan finds a pending deadline no later than any other, or says there is none |
| `PowerRuns.WaitAfterCorrect` | power/Power.cpp:211-226 | the wait chosen covers every deadline and every retry; an untimed wait means that nothing is left |
| `PowerRuns.PruneRefines` | power/Power.cpp:168-194 | a pass turns timers that refine the history under allowed modes into timers that refine it outright |
| `PowerRuns.NextInv` | power/Power.cpp:96-307 | every API call, worker section, wake-up and clock step keeps the invariant |
| `PowerRuns.NoLostWakeup` | power/Power.cpp:168-226 | in every interleaving an untimed worker leaves no deadline, base values in both nodes and no floor; a timed one wakes no later than any deadline and within 100 ms if anything is outstanding |
| `PowerRuns.FloorConservation` | power/Power.cpp:125-166 | in every reachable state the kernel's open floor requests are exactly the two held descriptors or none, and only for an allowed pending boost |
| `PowerRuns.NothingAfterDestructor` | power/Power.cpp:96-226 | after the destructor's section no floor is held and no deadline is set, ever again, and the worker never sleeps: it has exited or exits as soon as it gets the lock, so the join returns |
| `PowerRuns.TimersRefineHistory` | power/Power.cpp:168-209 | three deadlines say, for every source and every instant from now on, what the full call history says |
| `PowerRuns.BoostActiveIffRequested` | power/Power.cpp:168-209 | at every pass the boost is active iff some accepted request still lasts, uncancelled and never disallowed since; nodes and floors agree when nothing is outstanding |
| `PowerRuns.ForbiddenIsQuiet` | power/Power.cpp:168-194 | if the last call switched the device non-interactive, its display inactive, or low power or sustained performance on, or the HAL was destroyed, no deadline is pending and no floor is held |
| `PowerRuns.CallExact` | power/Power.cpp:196-274 | what one call does to one timer from its instant on, exactly, with the default for 0, the duration asked for up to 2000 ms and 2000 ms above |
| `PowerRuns.InteractionTakesHold` | power/Power.cpp:196-307 | an interaction request in modes that allow it leaves the deadline it asked for, or the later one that was there |
| `PowerRuns.BoundedBoost` | power/Power.cpp:107-206 | no deadline is more than two seconds ahead, for every configuration and request |
| `PowerRuns.ConstructorLimits` | power/Power.cpp:64-70 | where the constructor's two GPU writes leave the nodes, for each outcome |
| `PowerRuns.LimitsAsked` | power/Power.cpp:72-237 | what the calls made so far ask of the two GPU nodes and of the profile, in numbers |
| `PowerRuns.FloorStep` | power/Power.cpp:72-307 | what one step of any kind does to the floor node and to what the modes ask of it |
| `PowerRuns.CeilingStep` | power/Power.cpp:84-307 | the same for the ceiling node |
| `PowerRuns.FloorExact` | power/Power.cpp:72-307 | in every reachable state the floor node holds what the modes ask for exactly if the last call that came to it with a working write asked for the same |
| `PowerRuns.CeilingExact` | power/Power.cpp:84-307 | the same for the ceiling node |
| `PowerRuns.FloorGoesOn` | power/Power.cpp:72-307 | a floor that follows the modes goes on doing so as long as no write to it fails |
| `PowerRuns.CeilingGoesOn` | power/Power.cpp:84-307 | the same for the ceiling |
| `PowerRuns.OnlyModeCallsTouchLimits` | power/Power.cpp:72-307 | no boost call, worker section or destructor writes a GPU limit or the profile, or changes what the modes ask for |
| `PowerRuns.FloorStaleUntilTried` | power/Power.cpp:72-307 | the floor node, and whether it follows the modes, stay as they are until a call comes to the floor again |
| `PowerRuns.CeilingStaleUntilTried` | power/Power.cpp:84-307 | the same for the ceiling |
| `PowerRuns.FloorLeftBehind` | power/Power.cpp:72-82 | a run in which the floor's write fails and neither a later mode call nor the worker, all of whose writes work, repairs it |
| `PowerRuns.WakeMakesProgress` | power/Power.cpp:211-226 | a timed wake-up at its target with successful writes strictly reduces what is left |
| `PowerRuns.WorkerDrains` | power/Power.cpp:211-226 | left alone the worker reaches the untimed wait within as many wake-ups as there is work |
| `Fdt.Align4` | tools/build-mback-dtb.py:29-30 | the next multiple of four |
| `Fdt.FindNul` | tools/build-mback-dtb.py:33-37 | the first NUL in the window, or a proof that there is none |
| `Fdt.ReadProperty` | tools/build-mback-dtb.py:85-107 | an accepted property lies in the block, has the length and name its words say, is inside a node, and has no value if it is to be removed |
| `Fdt.WalkInBlock` | tools/build-mback-dtb.py:58-118 | accepted properties come in order, do not overlap and lie in the structure block |
| `FdtGrammar.HeaderExact` | tools/build-mback-dtb.py:40-55 | exactly which bytes are a header and which field stands where |
| `FdtGrammar.CStringExact` | tools/build-mback-dtb.py:33-37 | a name is read exactly if its ASCII bytes and a NUL stand there before the limit |
| `FdtGrammar.ReaderAccepts` | tools/build-mback-dtb.py:58-118 | every block of padded tokens with nodes in pairs, properties inside nodes and a closing end token is read, with exactly its stream |
| `FdtGrammar.ReaderSound` | tools/build-mback-dtb.py:58-118 | everything that is read is such a block |
| `FdtGrammar.GrammarExact` | tools/build-mback-dtb.py:58-118 | the reader succeeds with a stream if and only if the format derives it |
| `FdtPatch.TokenAgrees` | tools/build-mback-dtb.py:69-116 | a token outside the patch is read the same in the patched blob |
| `FdtPatch.NopsSkip` | tools/build-mback-dtb.py:102-104 | three NOP words are walked over without any effect |
| `FdtPatch.TokenAligned` | tools/build-mback-dtb.py:69-116 | inside a node every token is aligned, so a removed property leaves no gap |
| `FdtPatch.WalkPatched` | tools/build-mback-dtb.py:58-118 | the walk over the patched blob is the walk over the original with the removed properties left out, from every offset and node stack |
| `FdtTool.WriteNops` | tools/build-mback-dtb.py:102-104 | in place, twelve bytes become three NOP words and nothing else changes |
| `FdtTool.ReadBlob` | tools/build-mback-dtb.py:58-118 | the loop with its stack, dictionary and output buffer computes the recursive reader, errors included |
| `FdtTool.PatchPreservesMeaning` | tools/build-mback-dtb.py:58-118 | re-reading a patched blob succeeds with the original ordered properties minus exactly the removed ones, and patching again is the identity |
| `FdtTool.OtherPathsUntouched` | tools/build-mback-dtb.py:94-107 | the dictionaries of all other nodes are the same |
| `FdtTool.OneNameRemoved` | tools/build-mback-dtb.py:94-107 | at the patched node exactly the one name is gone |
| `FdtTool.PatchReadsTheSame` | tools/build-mback-dtb.py:97-104 | asking for a patch does not change what is found |
| `FdtTool.PatchReadFails` | tools/build-mback-dtb.py:97-104 | of what plain reading accepts, the patching read refuses exactly the blobs in which a property to remove has a value, with that error |
| `FdtTool.Footprint` | tools/build-mback-dtb.py:97-104 | one removed property changes bytes only inside twelve, in number two plus what its name offset contributes |
| `FdtTool.OutputChecks` | tools/build-mback-dtb.py:151-162 | the length, secure-mode and FPC-child checks on the output cannot fail |
| `FdtTool.CheckOutputExact` | tools/build-mback-dtb.py:151-162 | exactly which output check fails, decided on the stock blob alone |
| `FdtTool.BuildExact` | tools/build-mback-dtb.py:133-162 | everything the tool can say of a blob with disjoint blocks, each error and the output, as a function of a plain read of the stock blob |
| `FdtTool.BuildDelivers` | tools/build-mback-dtb.py:121-162 | whatever the layout, an output is delivered only if the digest matched and the contract held, and it reads back without secure-mode, with the FPC child as it was and four bytes changed |
| `FdtExample.FootprintCheckFails` | tools/build-mback-dtb.py:121-162 | a concrete blob that keeps the stock contract, has disjoint blocks and one empty secure-mode, and for which main ends with the footprint error |
| `FingerprintSpec.RoomMeansFreeFid` | fingerprint/FingerprintHAL.c:302-320 | fewer than five templates leave one of five ids free |
| `FingerprintSpec.SectionsKeepTable` | fingerprint/FingerprintHAL.c:254-264 | reload, removal and group change keep the table bounded and the authenticator id backed by a template, and change nothing while a worker is active |
| `FingerprintSpec.EnrollExact` | fingerprint/FingerprintHAL.c:612-642 | an enrollment is admitted exactly for a free worker slot, a set store, the active group, the device's own challenge, a password token and fewer than five templates; which refusal otherwise; and what it leaves |
| `FingerprintSpec.AuthenticateExact` | fingerprint/FingerprintHAL.c:797-817 | an authentication is admitted exactly for a free worker slot, the active group and at least one template; which refusal otherwise |
| `FingerprintSpec.ReapThenStart` | fingerprint/FingerprintHAL.c:504-540 | a finished worker's handle is taken over and a new worker can then start, with a clear cancel flag |
| `FingerprintSpec.StopTakesAll` | fingerprint/FingerprintHAL.c:549-559 | a stop hands out the handle there is, leaves none, and tells an active worker |
| `FingerprintSpec.RotateExact` | fingerprint/FingerprintHAL.c:254-264 | the authenticator id is 0 without templates and the new random number otherwise, and when the call succeeds |
| `FingerprintSpec.RemoveExact` | fingerprint/FingerprintHAL.c:719-734 | when a removal is refused, and the table and ids it leaves |
| `FingerprintSpec.GroupExact` | fingerprint/FingerprintHAL.c:759-795 | a group change brings each id of the stored record back to its own place, keeps an authenticator id only with a template, and makes a missing one |
| `FingerprintSpec.LoadedExact` | fingerprint/FingerprintHAL.c:223-252 | the table is the first five usable prints, the k-th template the k-th usable print |
| `FingerprintDevice.M86Device.constructor` | fingerprint/FingerprintHAL.c:838-859 | an idle device with an empty, NULL-terminated gallery |
| `FingerprintDevice.M86Device.FreeTemplatesLocked` | fingerprint/FingerprintHAL.c:212-221 | the gallery is empty again and exactly the ids in use are zeroed |
| `FingerprintDevice.M86Device.LoadTemplatesLocked` | fingerprint/FingerprintHAL.c:223-252 | the two arrays hold, in order, the first five usable prints and the gallery is filled exactly below the count |
| `FingerprintDevice.M86Device.FindFreeFidLocked` | fingerprint/FingerprintHAL.c:302-320 | the smallest unused id from 1 to 5, or 0 exactly if there is none |
| `FingerprintDevice.M86Device.ReapLocked` | fingerprint/FingerprintHAL.c:504-518 | takes over the handle of a finished worker only |
| `FingerprintDevice.M86Device.StartWorkerLocked` | fingerprint/FingerprintHAL.c:520-540 | refuses while a worker is active or unjoined; a failed creation leaves an idle device |
| `FingerprintDevice.M86Device.StopLocked` | fingerprint/FingerprintHAL.c:549-559 | takes over the handle, and sets the cancel flag only for an active worker |
| `FingerprintDevice.M86Device.FinishWorkerLocked` | fingerprint/FingerprintHAL.c:294-300 | idle and inactive, the handle kept for a join |
| `FingerprintDevice.M86Device.RotateAuthenticatorLocked` | fingerprint/FingerprintHAL.c:254-264 | no id without templates, whatever the random source and the disk do |
| `FingerprintDevice.M86Device.LoadMetadataLocked` | fingerprint/FingerprintHAL.c:140-168 | both ids and the status for each kind of file |
| `FingerprintDevice.M86Device.SetActiveGroupLocked` | fingerprint/FingerprintHAL.c:759-795 | the whole new state for each outcome of path, storage and metadata; with a record, which id goes where |
| `FingerprintDevice.M86Device.EnrollLocked` | fingerprint/FingerprintHAL.c:612-642 | the admission checks in order, the state they leave, and success exactly if all hold |
| `FingerprintDevice.M86Device.AuthenticateLocked` | fingerprint/FingerprintHAL.c:797-817 | the admission checks in order, the state they leave, and success exactly if all hold |
| `FingerprintDevice.M86Device.ReloadLocked` | fingerprint/FingerprintHAL.c:387-394 | reload and rotate as one section, with the status each outcome gives |
| `FingerprintRuns.NextInv` | fingerprint/FingerprintHAL.c:286-586 | every section, join and worker step keeps the invariant |
| `FingerprintRuns.OneWorker` | fingerprint/FingerprintHAL.c:294-300 | in every interleaving at most one worker is alive, and the operation is non-idle iff one is |
| `FingerprintRuns.HandlesConserved` | fingerprint/FingerprintHAL.c:504-568 | every created thread is joined at most once and its handle is in exactly one place until then |
| `FingerprintRuns.CancelReachesItsWorker` | fingerprint/FingerprintHAL.c:542-568 | a running worker's cancel flag is set iff a stop call was made for that very worker |
| `FingerprintRuns.CancelledNeverReports` | fingerprint/FingerprintHAL.c:334-486 | a worker that is cancelled before it checks its flag after the sensor returned never reports a match or stores an enrollment |
| `FingerprintRuns.TargetedOnlyByStop` | fingerprint/FingerprintHAL.c:549-559 | workers become cancelled only by a stop that finds them active, and stay so |
| `FingerprintRuns.CanceledOnceAfterJoin` | fingerprint/FingerprintHAL.c:542-568 | at most one CANCELED for each worker, only after its join and only if it was cancelled |
| `FingerprintRuns.EnrollmentFindsFid` | fingerprint/FingerprintHAL.c:368-378 | an admitted enrollment always finds a free id, still free when the print is stored |
| `FingerprintRuns.WorkersWereAdmitted` | fingerprint/FingerprintHAL.c:612-642 | in every run each worker that enrolls or authenticates was started by a call that was entitled to it at that step: its token carried the device's challenge, its group was the active one, and the table had room or a template |
| `FingerprintRuns.MatchNamesTemplate` | fingerprint/FingerprintHAL.c:481-486 | an accepted match index names a template of the table the worker was given |
| `FingerprintRuns.AuthenticatorNeedsTemplate` | fingerprint/FingerprintHAL.c:759-795 | in every unlocked state a nonzero authenticator id implies a template |
| `FingerprintRuns.QuietWhenNothingJoinable` | fingerprint/FingerprintHAL.c:570-586 | with no call under way and no handle in the device every thread was joined |
| `FingerprintMetadata.RecordRoundTrip` | fingerprint/FingerprintHAL.c:47-52 | the 24-byte record decodes to the two ids that were encoded, for all 64-bit values |
| `FingerprintMetadata.RecordExact` | fingerprint/FingerprintHAL.c:140-168 | 24 bytes are read as two ids exactly if they are the record of those ids |
| `FingerprintMetadata.ReadExact` | fingerprint/FingerprintHAL.c:76-91 | a prefix of the file under every short read and interruption, the whole request when it succeeds, and success under benign calls |
| `FingerprintMetadata.WriteExact` | fingerprint/FingerprintHAL.c:93-108 | a prefix of the data under every short write and interruption, all of it when it succeeds, and success under benign calls |
| `FingerprintMetadata.Save` | fingerprint/FingerprintHAL.c:170-210 | wherever it stops the record file holds the whole old or the whole new record: new on success, old on failure; it succeeds exactly when the open works, the bytes go out past any interruptions and short writes, and sync, close and rename work |
| `FingerprintMetadata.Load` | fingerprint/FingerprintHAL.c:140-168 | no file, an unreadable file and a valid record are told apart |
| `FingerprintMetadata.SaveThenLoad` | fingerprint/FingerprintHAL.c:140-210 | what was saved is loaded, through any short transfers and interruptions |
| `FingerprintMetadata.InterruptedSaveCompletes` | fingerprint/FingerprintHAL.c:93-108 | writes that are interrupted or short any number of times still complete the save once enough got through |
| `FingerprintMetadata.SaveThenSetGroup` | fingerprint/FingerprintHAL.c:140-210 | a group change after a completed save brings back the ids that were saved |
| `FingerprintCompat.Compat.Notify` | fingerprint/FingerprintCompat.c:91-106 | a CANCELED during a cancel is noticed, and the callback read in the same section |
| `FingerprintCompat.Compat.SetNotify` | fingerprint/FingerprintCompat.c:108-125 | a callback the stock library refuses is not kept |
| `FingerprintCompat.Compat.BeginCancel` | fingerprint/FingerprintCompat.c:137-140 | the window opens with nothing noticed |
| `FingerprintCompat.Compat.EndCancel` | fingerprint/FingerprintCompat.c:150-154 | a notification is owed iff the cancel succeeded, none was noticed and there is a callback |
| `FingerprintCompat.NextInv` | fingerprint/FingerprintCompat.c:91-164 | sent plus in-flight CANCELED match what each cancel owes, through every step |
| `FingerprintCompat.CancelCompleteness` | fingerprint/FingerprintCompat.c:91-164 | a successful cancel brings exactly one CANCELED iff the library emitted at most one; a failed one synthesizes none |
| `FingerprintCompat.SurplusCanceled` | fingerprint/FingerprintCompat.c:91-164 | a run in which a successful cancel brings two CANCELED |
| `Relocation.Relocate` | tools/prepare-independent-vendor.py:75-89 | the loops compute the rule-by-rule specification, each error included |
| `Relocation.RuleExact` | tools/prepare-independent-vendor.py:76-88 | exactly which rules are accepted and which error the others give |
| `Relocation.MatchesComplete` | tools/prepare-independent-vendor.py:80-88 | no occurrence is missed by the left-to-right scan |
| `Relocation.MatchesSound` | tools/prepare-independent-vendor.py:80-88 | everything the scan finds is an occurrence |
| `Relocation.RuleFootprint` | tools/prepare-independent-vendor.py:76-89 | a byte that no occurrence covers is unchanged and nothing moves |
| `Relocation.ReplaceSkip` | tools/prepare-independent-vendor.py:89 | replacing commutes with reading from an offset that is not inside a match |
| `Relocation.CStringReplaced` | tools/prepare-independent-vendor.py:82-89 | with the suffix check passed, padding and replacing in the data is replacing in the C string |
| `Relocation.RulePreservesStrings` | tools/prepare-independent-vendor.py:76-89 | at every offset not strictly inside a match the C string is the old one with all occurrences replaced |
| `Relocation.RelocationPreservesStrings` | tools/prepare-independent-vendor.py:75-91 | the same for every accepted sequence of rules, shortened ones included |
| `Installer.BuildManifest` | tools/make-system-lib-incremental-v5.sh:194-228 | stops iff a target is not allowed or repeated or a source is empty; otherwise one entry for each specification, in order, and no two with the same name |
| `Installer.ValidateAll` | tools/make-system-lib-incremental-v5.sh:336-359 | passes iff every entry validates, and otherwise exits with the code of the first that does not |
| `ManifestText.ManifestRoundTrip` | tools/make-system-lib-incremental-v5.sh:213-226 | the script reads back exactly the rows that were printed, if no field holds a bar or a newline |
| `ManifestText.AllowedIsClean` | tools/make-system-lib-incremental-v5.sh:80-89 | an allowed target lies in one of four library directories or is the power HAL, has no dot-dot, and holds nothing the manifest gives a meaning |
| `ManifestText.BuiltManifestReadsBack` | tools/make-system-lib-incremental-v5.sh:194-228 | the manifest of accepted specifications survives its file |
| `ManifestText.BarMisread` | tools/make-system-lib-incremental-v5.sh:87-88 | a bar in a target would make the script read the line as one about another file |
| `Installer.NamesApartIff` | tools/make-system-lib-incremental-v5.sh:371-413 | a condition on the manifest's names alone that holds exactly if no decimal process number makes a declared file a temporary |
| `Installer.SuffixFree` | tools/make-system-lib-incremental-v5.sh:371-413 | names that do not contain the suffix of the temporaries meet it |
| `InstallScript.StageAll` | tools/make-system-lib-incremental-v5.sh:371-402 | the staging loop computes the specification, exit codes and staged list included |
| `InstallScript.CommitAll` | tools/make-system-lib-incremental-v5.sh:404-413 | the rename loop computes the specification, a missing source and a changed content included |
| `InstallScript.Cleanup` | tools/make-system-lib-incremental-v5.sh:250-256 | the exit trap computes the specification |
| `InstallScript.StageOneKeeps` | tools/make-system-lib-incremental-v5.sh:371-402 | one staged copy touches only its temporary, wherever it stops |
| `InstallScript.StageKeeps` | tools/make-system-lib-incremental-v5.sh:371-402 | staging touches only temporaries, clash or not; success means that all are complete |
| `InstallScript.MoveOne` | tools/make-system-lib-incremental-v5.sh:404-413 | without a clash one rename puts one new file in place and disturbs no other |
| `InstallScript.CommitKeeps` | tools/make-system-lib-incremental-v5.sh:404-413 | without a clash, wherever the renames stop, every file is as before or a payload target with its new content |
| `InstallScript.CleanedKeeps` | tools/make-system-lib-incremental-v5.sh:250-256 | the exit trap removes temporaries only |
| `InstallScript.CleanedRemoves` | tools/make-system-lib-incremental-v5.sh:250-256 | the exit trap removes every temporary on the staged list |
| `InstallScript.UpgradeKeepsValid` | tools/make-system-lib-incremental-v5.sh:336-359 | without a clash, what validated before a partial install validates after it |
| `InstallScript.ScriptStages` | tools/make-system-lib-incremental-v5.sh:366-402 | nothing but temporaries changes before the first rename, clash or not |
| `InstallScript.ScriptKeeps` | tools/make-system-lib-incremental-v5.sh:366-418 | without a clash an interruption anywhere leaves each file old or new, and enough working commands mean success |
| `InstallScript.Install` | tools/make-system-lib-incremental-v5.sh:336-418 | refuses without a change what does not validate, and otherwise runs the specification; without a clash each target ends old or new, what validated still does, and success means complete and without temporaries |
| `InstallScript.ClashDestroys` | tools/make-system-lib-incremental-v5.sh:371-402 | with a clash there is an interruption that leaves a declared file empty before any rename |
| `InstallScript.SurvivesIff` | tools/make-system-lib-incremental-v5.sh:336-418 | every interruption leaves something that validates if and only if no declared file is named like a temporary of the run |
| `InstallScript.SurvivesAlwaysIff` | tools/make-system-lib-incremental-v5.sh:336-418 | the same under every decimal process number if and only if no declared name is a payload's name, the suffix and then a number |
| `InstallScript.SuccessDeletesVictim` | tools/make-system-lib-incremental-v5.sh:371-418 | a clashing manifest whose undisturbed install reports success and deletes a file it had to verify |
| `InstallScript.BuilderAcceptsClash` | tools/make-system-lib-incremental-v5.sh:80-89 | the builder accepts such a manifest for every allowed library whose name does not end in a dot, and every process number |
| `InstallScript.OtherTailsAreSafe` | tools/make-system-lib-incremental-v5.sh:371-413 | a name that goes on after the suffix with something else than a number clashes with no run |
| `InstallScript.Reflash` | tools/make-system-lib-incremental-v5.sh:336-418 | with names apart, after any number of interrupted attempts one undisturbed run passes validation and leaves every payload in place |
| `Clocks.SampleClocks` | sensors/hal/TimestampNormalizer.h:10-21 | the first tight reading before any failure, invalid exactly if there is none |
| `Clocks.NoOverflow` | sensors/hal/TimestampNormalizer.h:26-38 | no intermediate value leaves 64 bits, for any 64-bit timestamp and clocks below 2^62 |
| `Clocks.SampleInRange` | sensors/hal/TimestampNormalizer.h:15-18 | the midpoint stays in range and between the readings |
| `Clocks.AcceptedWindow` | sensors/hal/TimestampNormalizer.h:26-41 | an accepted result is positive, in the ten-second window, and differences within a poll are exact |
| `Clocks.OffsetError` | sensors/hal/TimestampNormalizer.h:15-18 | the sampled offset is within 500000 ns of the true one |
| `Clocks.ConversionError` | sensors/hal/TimestampNormalizer.h:26-41 | with a constant true offset the result is within 500000 ns of the capture instant, and exactly when it is accepted |
| `Clocks.FreshAccepted` | sensors/hal/TimestampNormalizer.h:26-41 | a recent event captured after the first half millisecond of boot is never dropped |
| `Clocks.StepAlwaysCaught` | sensors/hal/TimestampNormalizer.h:26-32 | a step is caught for all readings and timestamps if and only if it exceeds six milliseconds |
| `Clocks.StepNeverSuspected` | sensors/hal/TimestampNormalizer.h:29-32 | a step is suspected for no readings if and only if it is at most four milliseconds |
| `Clocks.StepMissable` | sensors/hal/TimestampNormalizer.h:26-41 | for every step of up to six milliseconds there are readings and a timestamp that is accepted |
| `Clocks.SixMillisecondsMissed` | sensors/hal/TimestampNormalizer.h:26-41 | a concrete missed step, with an event dated 5.5 ms early |
| `Clocks.StepError` | sensors/hal/TimestampNormalizer.h:26-41 | however large the step, an accepted event stamped before it is within 5500000 ns of its capture and one stamped after it within 500000 ns |
| `SensorPoll.KeptFilters` | sensors/hal/Sensors.cpp:202-217 | there is an upward map from delivered to device positions onto exactly the events that are not legacy or whose timestamp is accepted; a legacy event is retimed and otherwise unchanged, any other is equal |
| `SensorPoll.DeliveryUnique` | sensors/hal/Sensors.cpp:202-217 | that determines the delivery |
| `SensorPoll.NothingKept` | sensors/hal/Sensors.cpp:202-217 | nothing is left exactly if every event is ambiguous |
| `SensorPoll.Compact` | sensors/hal/Sensors.cpp:202-217 | the in-place compaction leaves such a delivery at the front of the buffer |
| `SensorPoll.StatusMeans` | sensors/hal/Sensors.cpp:42-55 | which device status gives which result |
| `SensorPoll.Turn` | sensors/hal/Sensors.cpp:187-226 | one turn of the loop ends the poll exactly if the round is not barren, with its delivery or its error |
| `SensorPoll.Poll` | sensors/hal/Sensors.cpp:187-257 | the first round that is not barren ends the poll; an OK delivers between 1 and min(maxCount, 128) events, exactly that batch with ambiguous events dropped, accepted ones retimed and the others untouched; every error is the device's or an overlong batch |
| `Nfc.BodyAt` | independent/patches/0001-nfc-vendor-discovery-compat.patch:58-64 | where each configuration's two octets stand |
| `Nfc.EntriesPacket` | independent/patches/0001-nfc-vendor-discovery-compat.patch:45-51 | every packet of up to 127 configurations passes the guards and reads back as those configurations |
| `Nfc.PacketEntries` | independent/patches/0001-nfc-vendor-discovery-compat.patch:45-51 | everything that passes the guards is the packet of its configurations |
| `Nfc.SupportedMembers` | independent/patches/0001-nfc-vendor-discovery-compat.patch:39-54 | exactly the supported configurations are kept |
| `Nfc.SupportedAppend` | independent/patches/0001-nfc-vendor-discovery-compat.patch:58-64 | the filter keeps order |
| `Nfc.ActsExact` | independent/patches/0001-nfc-vendor-discovery-compat.patch:43-57 | the filter acts exactly if the packet is well-formed and holds both a mode to drop and one to keep, by their numbers; no empty request is made |
| `Nfc.FilterSettles` | independent/patches/0001-nfc-vendor-discovery-compat.patch:43-69 | the filtered packet is well-formed and is not filtered again |
| `Nfc.CountSupported` | independent/patches/0001-nfc-vendor-discovery-compat.patch:52-54 | the count is the length of the filtered list |
| `Nfc.CompactEntries` | independent/patches/0001-nfc-vendor-discovery-compat.patch:58-64 | the in-place compaction writes the kept octets in order and leaves the header and all bytes past them alone |
| `Nfc.FilterDiscovery` | independent/patches/0001-nfc-vendor-discovery-compat.patch:43-69 | acts iff the packet is well-formed and loses some but not all configurations; the result is the packet of the ordered filter, all length fields exact, bytes past it untouched; otherwise nothing changes |
| `Nfc.FilterTwice` | independent/patches/0001-nfc-vendor-discovery-compat.patch:43-69 | a second call always returns false |
| `Radio.WidenAllWhole` | independent/patches/0002-radio-legacy-hidl-1.4.patch:785-786 | with disjoint groups one pass closes the mask |
| `Radio.ClosureIsLeast` | independent/patches/0002-radio-legacy-hidl-1.4.patch:784-786 | the widening loop yields the least closed mask that contains the given one |
| `Radio.ClosureOfGroup` | independent/patches/0002-radio-legacy-hidl-1.4.patch:785-786 | all of a touched group, nothing of an untouched one |
| `Radio.ClosureOutsideGroups` | independent/patches/0002-radio-legacy-hidl-1.4.patch:785-786 | bits outside the groups are kept as they are |
| `Radio.TableClosed` | independent/patches/0002-radio-legacy-hidl-1.4.patch:777-783 | every table entry splits no group |
| `Radio.TableDistinct` | independent/patches/0002-radio-legacy-hidl-1.4.patch:777-783 | entries 0 and 3 coincide and no others do |
| `Radio.NetworkMode` | independent/patches/0002-radio-legacy-hidl-1.4.patch:784-790 | the first entry that is the least closed mask containing the given one, -1 exactly if there is none |
| `Radio.ModeUnique` | independent/patches/0002-radio-legacy-hidl-1.4.patch:784-790 | the specification determines the mode |
| `Radio.AcceptedIff` | independent/patches/0002-radio-legacy-hidl-1.4.patch:784-790 | a mask is accepted iff its closure is in the table |
| `Radio.UnknownRefused` | independent/patches/0002-radio-legacy-hidl-1.4.patch:784-790 | the empty mask and every mask with an unknown bit are refused, never widened into a mode |
| `Radio.SetBitmap` | independent/patches/0002-radio-legacy-hidl-1.4.patch:1004-1018 | INVALID_ARGUMENTS iff the closure is not in the table, otherwise the request for its mode |
| `Radio.ResponseExact` | independent/patches/0002-radio-legacy-hidl-1.4.patch:791-805 | a response carries a bitmap exactly for one of the 23 modes without an error; which error otherwise |
| `Radio.SetThenGet` | independent/patches/0002-radio-legacy-hidl-1.4.patch:784-805 | reading back an accepted setting gives exactly its closure, and the mask itself iff it splits no group |
| `Radio.SplitGroupWidened` | independent/patches/0002-radio-legacy-hidl-1.4.patch:784-805 | the single bit GSM is accepted as mode 1 and read back as the whole group |
| `Radio.TableRoundTrips` | independent/patches/0002-radio-legacy-hidl-1.4.patch:777-805 | every table bitmap is accepted and read back as it is, under its own mode except that 3 becomes 0 |
| `Radio.GetThenSet` | independent/patches/0002-radio-legacy-hidl-1.4.patch:784-805 | setting what was read back asks for the same mode |

## Left out

- Power: request and error counters, logging and the dump.
- Power: the parsing of the configuration file beyond the number of fields matched.
- Devicetree: reading and writing files, the digest computation, and the command line.
- FdtTool.BuildExact: says what happens on a blob whose blocks are disjoint; on overlapping blocks only the reader itself is specified, because the overwritten bytes may then be header or name bytes.
- Fingerprint: the checks of a call's arguments before the lock (token version, absolute store path), the close call (what it relies on is stated), notifications other than CANCELED, the enumerate and remove notification loops, the deletion of print files, time-outs, and everything inside libfprint.
- Fingerprint compatibility: enumerate; cancels are serialized and the callback is fixed while they run; a notification that arrives outside every cancel belongs to none.
- FingerprintMetadata.Save: does not model the loss of unsynced data at power-off, only a process that is stopped between or inside system calls.
- Relocation.RelocationPreservesStrings: holds for rules without NUL bytes, which is what path strings are; ELF library-list edits and file modes are not modelled.
- Installer: option parsing, digest syntax, mount discovery and remounting, exit codes 10 to 22, 28, 29, 38 and 39, and the values of file modes and contexts.
- InstallScript.Cleanup: a copy that failed half way is not on the staged list, so in the script and in the model its temporary stays behind.
- InstallScript.Install: takes manifests whose targets are distinct, which is what the builder makes, and assumes that distinct path strings are distinct files.
- InstallScript.SurvivesAlwaysIff: takes every positive decimal number for a process number, without the kernel's upper bound.
- SensorPoll.Poll: the lock against re-entry, dynamic sensors and the conversion of event payloads.
- Radio: request bookkeeping, data-call and cell-information conversions, SIM and signal conversions; these are field-by-field copies or rest on code outside the patch.
- Lights, USB serial, settings, key handling, camera and GPS shims, service mains, audit scripts and build configuration: shallow or declarative.
