# Boot-time state machines of U-Boot, verified

This project models five parts of U-Boot's `boot/` directory and proves what they
promise: for every input, every run and every reachable state. Each part has a
description in functions on values, the code's own form (classes, arrays and
loops) proved against that description, and theorems about the description.

* **Bootflow scan** (`BootScan*.dfy`, `BootMethods*.dfy`, `BootflowIter.dfy`). A scan
  walks over bootdevs, partitions, bootmeths and entries. Global bootmeths may
  pre-empt a bootdev, which is then set aside and used later. A run is the first
  check followed by any number of passes of the scan loop, across calls. The
  invariant `Ok` holds after every check; `RunInvariant` lifts anything a pass
  keeps to whole runs. Proved: the order of attempts, that none is repeated, that
  no bootmeth, bootdev or set-aside bootdev is lost, that every global bootmeth is
  taken up exactly once, which partitions are tried, which bootdevs a boot order or a
  named bootdev leads to and with which flags, that hunters account for every new
  bootdev, what every call returns, and exactly when a run ends.
* **Kernel command line** (`Cmdline*.dfy`). A quote-aware lexer, an edit of a list
  of words, a printer, and the single pass over a bounded buffer that does all
  three at once. Proved: the pass computes lex, edit and print; it fails for want
  of space exactly when that result does not fit; edits compose.
* **Silent console** (`SilentFixup.dfy`). A string rewritten inside the buffer that
  also holds its source.
* **Android A/B slots** (`AndroidAb*.dfy`). Two copies of a record on disk, a
  selection that spends tries, power cuts. Proved: exactly which calls survive any
  cut, the exact length of a rollback, round robin.
* **Boot Loader Specification entries** (`Bls*.dfy`), from the Type #1 section of
  the UAPI Group's Boot Loader Specification. The parser cuts strings inside the
  buffer and returns pointers into it. Proved: at the end every pointer still reads
  its own line's value, what the entry means in terms of the file's lines, and that
  a printed entry parses back.
* **CMOS settings** (`Cmos*.dfy`). Menu values packed into arbitrary bit ranges and
  read back through a byte cache.

`Wrappers.dfy` and `CStrings.dfy` hold what several parts use: optional values, and
strings in character buffers.

## How the scan is modelled

The environment is a value: the order of bootmeths, the hunters and what they
find, the labels, and the raw result of the n-th check. A bootdev is its name and
number, priority, media device, uclass, sequence number and probe result. The log records every
check as it is made. "A complete run" below is one that has ended without a check
having returned -ENODEV: such a check stops the scan at once
(`boot/bootflow.c:373`), so nothing can be promised about what comes after it.

Things that follow from the code and may surprise:

* A walk by label never raises the current priority, so a global bootmeth pre-empts
  a bootdev only in the walk by priority.
* The second and later bootdevs of a uclass named by a label such as "pxe" lose the
  label's special handling (`boot/bootflow.c:548-556`): `HandlingKeptIff`,
  `LaterBootdevsLoseHandling`.
* In a walk by label a bootdev that fails to probe ends the walk over bootdevs:
  `LabelOrderVisits`, `ProbeFailureEndsWalk`.
* A bootdev passed to the start of a scan, without a label, only makes it skip the
  global bootmeths (`boot/bootflow.c:660-661`).
* In a walk by priority a hunter that binds a bootdev of a higher priority than its
  own binds it behind the walk, where it is never tried. `EveryDeviceTriedIff` says
  that this is the only way to lose a bootdev, unless the pre-scan hunt fails; then
  no bootdev is looked at at all: `PrescanFailureStops`.
* A user's bootmeth order is used as it is. `UserOrderFits` says exactly which
  orders the scan can work with.
* Writing CMOS settings clears every bit of a touched byte that belongs to no menu
  (`boot/cedit.c:810-813`).
* A damaged A/B record keeps its recovery counter and its slots past the configured
  number when it is re-initialised (`boot/android_ab.c:41-67`).
* A second power cut before a call completes can lose the A/B metadata:
  `SecondCutCanLoseMetadata`.
* Reading an argument that stands on the line without `=` and ends in a quote gives
  -2, which is also the code for its absence (`boot/bootflow.c:1100-1111`):
  `QuotedNameIsMissed`.
* The header comment of the command-line reader speaks of a length of 0 when
  reading; the code passes 1 (`boot/bootflow.c:1203`), and the model follows it.

## Model

| member | source | states |
|---|---|---|
| `BootMethods.FillPass` | boot/bootmeth-uclass.c:186-205 | one pass leaves what was in the array and adds exactly the bootmeths of that kind, in sequence order, never past the array |
| `BootMethods.FindFirstGlobal` | boot/bootmeth-uclass.c:154-173 | the first global bootmeth of a user's order, or the error of the first earlier one that does not probe |
| `BootMethods.TwoPasses` | boot/bootmeth-uclass.c:174-208 | ordinary bootmeths by sequence number, then the global ones, and where those start |
| `BootMethods.SetupIterOrder` | boot/bootmeth-uclass.c:118-239 | the loops give the order, or the error, that the four laws below are about |
| `BootMethods.PickComplete` | boot/bootmeth-uclass.c:186-205 | every bootmeth whose sequence number is below the limit is in the order, whatever gaps there are |
| `BootMethods.DefaultOrderFits` | boot/bootmeth-uclass.c:174-220 | the order made here has the shape the scan relies on if and only if there is an ordinary bootmeth |
| `BootMethods.UserOrderFits` | boot/bootmeth-uclass.c:140-173 | a user's order has that shape if and only if it starts with an ordinary bootmeth and has none after a global one |
| `BootMethodsLaws.DefaultOrderIs` | boot/bootmeth-uclass.c:174-220 | without a user's order every bootmeth with a sequence number below 20 + 2 * count is in the order, behind exactly as many as have a lower number: ordinary ones first, then the global ones if wanted; there are no others; global ones are announced if and only if wanted and present |
| `BootMethodsLaws.DefaultOrderFails` | boot/bootmeth-uclass.c:128-231 | without a user's order: -ENOENT if and only if no bootmeth is found, -ENOSPC if and only if more than 32 are |
| `BootMethodsLaws.UserOrderIs` | boot/bootmeth-uclass.c:139-173 | a user's order is used as it is, with the place of its first global bootmeth; or -EPERM, the first probe error up to that bootmeth, or -ENOSPC beyond 32 |
| `BootMethodsLaws.BrokenOrNot` | boot/bootmeth-uclass.c:154-173 | every user's order has such a first global bootmeth, none, or a first one that does not probe, so the law above covers them all |
| `BootScanRuns.TryFrame` | boot/bootflow.c:607-630 | a check adds one attempt and one done bit, leaves bootdev and flags alone unless it is global, and keeps the partition limit between the current partition and the maximum |
| `BootScanRuns.IncrementPoised` | boot/bootflow.c:363-597 | whatever an increment chooses is ready to be tried: bootdev present and ordinary bootmeth, or global bootmeth with no earlier one due and the bootdev set aside of the priority just reached |
| `BootScanRuns.StepKeepsOk` | boot/bootflow.c:711-740 | every pass of the scan loop keeps the invariant |
| `BootScanRuns.StartOk` | boot/bootflow.c:654-702 | the first check establishes the invariant, with or without global bootmeths, labels or a bootdev named by the caller |
| `BootScanRuns.NeverStuck` | boot/bootflow.c:432-441 | an increment succeeds or ends the scan; using a set-aside bootdev does not fail |
| `BootScanRuns.RunInvariant` | boot/bootflow.c:707-741 | what the first check establishes and every pass keeps holds at every point of every run |
| `BootScanOrder.StepLogs` | boot/bootflow.c:711-740 | each pass adds exactly the attempt it makes, and that attempt follows the previous one |
| `BootScanOrder.RunIsChain` | boot/bootflow.c:363-597 | in every run each attempt follows the one before: next entry, next bootmeth, next partition, another bootdev from its start, or a global bootmeth |
| `BootScanOrder.AllMethodsTried` | boot/bootflow.c:396-419 | a run leaves a bootdev and partition only after every ordinary bootmeth was tried there |
| `BootScanOrder.PendingIsNext` | boot/bootflow.c:432-450 | while global bootmeths run, the bootdev set aside stays the same, and it is the first one tried afterwards, from its start and with its own flags |
| `BootScanOrder.AttemptsWellMade` | boot/bootflow.c:607-630 | no run checks an ordinary bootmeth without a bootdev, or a bootmeth of the wrong kind |
| `BootScanParts.BlkAnswers` | boot/bootdev-uclass.c:104-156 | a block device's answer from the raw results: a lookup works if the partition is there, if the whole device was meant, or for any partition; it leaves the limit 30, a missing partition 1 leaves 3 |
| `BootScanParts.PartitionLaw` | boot/bootflow.c:471-498 | in every run without a partition selection: after the last ordinary bootmeth at a partition the next attempt is the first bootmeth at the next partition if and only if the check did not return -ESHUTDOWN and that partition is within the limit left behind, which is told from the raw results of this bootdev's checks; until then the scan stays at the partition |
| `BootScanParts.CompleteLeavesNoPart` | boot/bootflow.c:471-498 | a complete run that ends on a bootdev has no bootmeth and no further partition left there |
| `BootScanParts.EveryPartitionTried` | boot/bootflow.c:471-498 | in a complete run a bootdev whose lookups below 30 work, and whose checks there do not end the partitions, is tried at every partition from 0 to 30 |
| `BootScanGlobals.AtMostOnce` | boot/bootflow.c:270-323 | in every run each global bootmeth is taken up at most once, and the done bits say which were; repeats only follow its own success |
| `BootScanGlobals.EndLeavesNothing` | boot/bootflow.c:425-469 | when an increment ends the scan no global bootmeth of any priority is left, no bootdev is set aside, and the last place was finished |
| `BootScanGlobals.ExactlyOnce` | boot/bootflow.c:576-591 | in a complete run every global bootmeth is taken up exactly once, whatever mix of initial, priority-triggered and final ones |
| `BootScanGlobals.EveryMethodTried` | boot/bootflow.c:396-419 | in a complete run every ordinary bootmeth is tried at every bootdev and partition reached, the last one included |
| `BootScanGlobals.SetAsideIsTried` | boot/bootflow.c:334-343 | in a complete run every bootdev set aside is the next one tried, from partition 0 and the first bootmeth, with its own flags |
| `BootScanWalk.IncrementAdvances` | boot/bootflow.c:396-574 | in a walk by priority an increment moves strictly forward in (priority, list position, partition, bootmeth, entry), a global one not backward |
| `BootScanWalk.AttemptsIncrease` | boot/bootdev-uclass.c:647-709 | in every run by priority any two ordinary attempts are in strictly increasing order, whatever global bootmeths run between, so none is made twice |
| `BootScanCover.NextPrioSkips` | boot/bootdev-uclass.c:647-709 | walking on passes over only bootdevs that do not probe, also across priorities and hunts |
| `BootScanCover.EveryDeviceTried` | boot/bootdev-uclass.c:647-709 | with hunters in time, a complete run by priority tries every bootdev that probes, including those found by hunters on the way |
| `BootScanHunters.HuntUses` | boot/bootdev-uclass.c:811-874 | a hunt uses up exactly the hunters asked for that do not fail |
| `BootScanHunters.HuntReturns` | boot/bootdev-uclass.c:838-874 | a hunt returns the result of the last unused hunter that fails, else 0 |
| `BootScanHunters.LabelHunt` | boot/bootdev-uclass.c:838-874 | the hunt for a label runs the hunters its name matches and no others, and succeeds if and only if none still to run fails |
| `BootScanHunters.PrioHunt` | boot/bootdev-uclass.c:903-928 | the same of the hunt at a priority |
| `BootScanHunters.HuntersAccount` | boot/bootdev-uclass.c:811-836 | in every run the bootdevs are those of the start followed by the finds of different hunters, none used before and none that fails, and exactly these are used up: nothing is bound twice, nothing is lost |
| `BootScanMissed.NextPrioBinds` | boot/bootdev-uclass.c:681-695 | the walk runs a hunter exactly when it comes to the hunter's priority, and what it finds is in the list from then on |
| `BootScanMissed.LateHunterLoses` | boot/bootdev-uclass.c:681-695 | a hunter, run after the pre-scan, that finds a bootdev of a higher priority than its own loses it: every complete run leaves it untried |
| `BootScanMissed.PrescanFailureStops` | boot/bootdev-uclass.c:754-760 | if a pre-scan hunter fails, no run makes an ordinary attempt |
| `BootScanExamples.LateHunterExample` | boot/bootdev-uclass.c:681-695 | a complete run in which a hunter of priority 5 finds a bootdev of priority 4, which is never tried |
| `BootScanExamples.PrescanFailureExample` | boot/bootdev-uclass.c:754-760 | a complete run with a failing pre-scan hunter in which a bootdev that was there all along is not tried |
| `BootScanMissed.EveryDeviceTriedIff` | boot/bootdev-uclass.c:647-709 | a complete run by priority tries every bootdev that probes if and only if each hunter still to run after the pre-scan finds bootdevs of its own priority or a lower one; if a pre-scan hunter fails, if and only if there is no such bootdev |
| `BootScanLabels.NextLabelNamed` | boot/bootdev-uclass.c:604-645 | going to the next label takes the first bootdev, with its flags, that the remaining labels name, skipping labels whose hunt fails or that name nothing, and leaves the others |
| `BootScanLabels.NumberedLabel` | boot/bootdev-uclass.c:438-499 | a label with a sequence number names the first bootdev of its uclass with that number, and nothing if and only if there is none |
| `BootScanLabels.PlainLabel` | boot/bootdev-uclass.c:438-499 | a label without one names exactly the bootdevs of its uclass, in list order; an unknown label names none |
| `BootScanLabels.LabelOrderVisits` | boot/bootflow.c:541-563 | with a boot order, whatever fails, the visits with their flags are at all times a beginning of what the labels name; a complete run visits exactly what comes before the first bootdev that does not probe, so all of it if and only if all of them probe |
| `BootScanLabels.HandlingKeptIff` | boot/bootflow.c:548-556 | a label's special handling goes with all its bootdevs if and only if it has none or names at most one bootdev |
| `BootScanExamples.ProbeFailureEndsWalk` | boot/bootflow.c:570-591 | a complete run over three bootdevs of one label whose second does not probe: the third, which does, is never visited |
| `BootScanExamples.LaterBootdevsLoseHandling` | boot/bootflow.c:548-556 | a complete run over three bootdevs of a label with special handling: the second and third are used without it |
| `BootScanMeasure.PassLess` | boot/bootflow.c:707-741 | every pass that goes on decreases a lexicographic measure: global bootmeths left, priorities, labels, bootdevs, partitions, bootmeths |
| `BootScanMeasure.NoSecondRepeat` | boot/bootflow.c:382-393 | a bootmeth is asked for another entry at most once within one call, on its first pass |
| `BootScanMeasure.ScanCall` | boot/bootflow.c:707-741 | every call returns, and what it returns is a bootflow, a reported error or the end; unless it is the end the invariant holds |
| `BootScanCalls.CallTellsFirst` | boot/bootflow.c:711-740 | a call returns the first result of its checks that is a bootflow or, with the ALL flag, an error other than -ESHUTDOWN and -ENOSYS; it has ended if and only if there is none |
| `BootScanCalls.FirstCallTellsFirst` | boot/bootflow.c:654-705 | the same of the call that starts a scan |
| `BootScanMeasure.CallContinuesRun` | boot/bootflow.c:707-741 | a call on a state of a run goes on with that run, so everything proved of runs holds of any sequence of calls |
| `BootScanMeasure.PassMoves` | boot/bootflow.c:363-597 | every pass, whatever its check returns, uses something up, unless it asks a bootmeth that just succeeded for its next entry |
| `BootScanMeasure.RunEndsIff` | boot/bootflow.c:707-741 | a run, over any number of calls, ends if and only if from some point on no bootmeth is asked for a further entry |
| `BootScanMeasure.SingleEntriesEnd` | boot/bootflow.c:707-741 | without bootmeths that give several entries every run ends |
| `BootScanMeasure.RunCompletes` | boot/bootflow.c:373-376 | and if no result behind a check is -ENODEV, it ends complete |
| `BootScanNamed.NamedScanStays` | boot/bootflow.c:501-538 | every attempt of a scan of a named bootdev is on that bootdev, its media device or its uclass, as it was named, and on the partition named |
| `BootScanNamed.FoundByNumber` | boot/bootdev-uclass.c:501-542 | a number gives the first bootdev with it, alone; -ENODEV if there is none |
| `BootScanNamed.FoundByName` | boot/bootdev-uclass.c:501-542 | a name gives the first bootdev of that name, unless its probe says it has gone |
| `BootScanNamed.FoundByLabel` | boot/bootdev-uclass.c:501-542 | otherwise the first bootdev of the label's uclass, with its sequence number if it has one; -ENOENT if there is none |
| `BootScanNamed.NamedScanStarts` | boot/bootdev-uclass.c:761-780 | a named scan starts on the bootdev that is named, with its reach; one named by number stays on it |
| `BootScanNamed.NamedScanTries` | boot/bootflow.c:501-538 | a complete named scan tries a bootdev in reach if and only if it comes from the named one on in the list, and it and all in reach between them probe |
| `BootScanNamed.NamedScanFlags` | boot/bootflow.c:501-538 | the flags of the selection go with the named bootdev only |
| `BootScanNamed.BadPartitionIsRefused` | boot/bootdev-uclass.c:736-741 | a partition that is not a number ends the scan before anything is hunted or tried |
| `BootflowIter.BootflowIter.constructor` | boot/bootflow.c:166-174 | a new iterator is the state a run starts from |
| `BootflowIter.BootflowIter.HuntDrv` | boot/bootdev-uclass.c:811-836 | a hunter runs unless it was used, and counts as used unless it failed |
| `BootflowIter.BootflowIter.HuntWhere` | boot/bootdev-uclass.c:838-874 | all matching hunters run in order, and the last failure is returned |
| `BootflowIter.BootflowIter.HuntPriority` | boot/bootdev-uclass.c:903-928 | all hunters of one priority run in order |
| `BootflowIter.BootflowIter.NextByPrio` | boot/bootdev-uclass.c:647-709 | the loop computes the walk by priority that the theorems are about |
| `BootflowIter.BootflowIter.NextByLabel` | boot/bootdev-uclass.c:604-645 | the loop computes the walk by label that the theorems are about |
| `BootflowIter.BootflowIter.FindForLabel` | boot/bootdev-uclass.c:438-499 | the first bootdev of the label's uclass, and of its sequence number if it has one, in terms of the list |
| `BootflowIter.BootflowIter.NextWhere` | boot/bootflow.c:251-261 | the next bootdev of the same uclass, or of the same media device |
| `BootflowIter.BootflowIter.SetupWalk` | boot/bootdev-uclass.c:711-809 | pre-scan hunt, first bootdev by label or priority, probe; or the error |
| `BootflowIter.BootflowIter.FindAny` | boot/bootdev-uclass.c:501-542 | a bootdev by its number, its name or a label, with what probing it returns, or the error |
| `BootflowIter.BootflowIter.SelectByName` | boot/bootdev-uclass.c:720-780 | partition, pre-scan hunt, hunt for the name, lookup, and how far the selection reaches; or the error |
| `BootflowIter.BootflowIter.NextGlobBootmeth` | boot/bootflow.c:300-323 | the first unused global bootmeth whose priority is reached becomes current; otherwise nothing changes |
| `BootflowIter.BootflowIter.SetBootdev` | boot/bootflow.c:213-240 | the bootdev and its flags become current and the visit is recorded |
| `BootflowIter.BootflowIter.Prepare` | boot/bootflow.c:334-356 | a bootdev is set aside for a global bootmeth, or probed and used |
| `BootflowIter.BootflowIter.NextBootdev` | boot/bootflow.c:500-597 | moving to another bootdev, or to the last global bootmeths, in place |
| `BootflowIter.BootflowIter.AfterGlobals` | boot/bootflow.c:425-469 | what happens after the last global bootmeth, in place |
| `BootflowIter.BootflowIter.AfterMethods` | boot/bootflow.c:471-498 | the next partition, from the first bootmeth, if the last check did not end them and the limit allows; otherwise the next bootdev, in place |
| `BootflowIter.BootflowIter.Increment` | boot/bootflow.c:363-597 | the whole increment, in place, is the function the theorems are about; no check is made |
| `BootflowIter.BootflowIter.AskBlk` | boot/bootdev-uclass.c:104-156 | a block device's answer, and the partition limit it leaves behind, for every partition and every result of the lookups |
| `BootflowIter.BootflowIter.CheckNow` | boot/bootflow.c:607-652 | a check marks the bootmeth as used, drops the bootdev for a global one, and records exactly one attempt |
| `BootflowIter.BootflowIter.ScanNext` | boot/bootflow.c:707-741 | the loop terminates and leaves state and return value as the call described by `ScanCall` |
| `BootflowIter.BootflowIter.ScanFirst` | boot/bootflow.c:654-705 | starting a scan, of all bootdevs or of one named by number, name or label, is the first call of a run |
| `CmdlineTokens.LexJoin` | boot/bootflow.c:1042-1073 | joining words by single spaces and lexing the line gives the words back |
| `CmdlineTokens.LexGivesWords` | boot/bootflow.c:1049-1073 | what the lexer cuts are whole words, quotes closed, for every line |
| `CmdlineEdits.RenderReadsBack` | boot/bootflow.c:989-1019 | the word written for an argument has its name and, unquoted, its value: none, empty, plain or with spaces; names may hold quoted parts |
| `CmdlineEdits.LookupApplied` | boot/bootflow.c:1091-1166 | on words: a set argument reads as set, a deleted one is gone, every other one reads as before |
| `CmdlineEdits.AppliedTwice` | boot/bootflow.c:1091-1166 | on words: a second change of an argument makes the first one irrelevant |
| `CmdlineEdits.SetOutcomeIs` | boot/bootflow.c:1021-1167 | for an argument name, what the pass over the line computes is lex, edit, join, and the errors in their order |
| `CmdlineEdits.SetFitsIff` | boot/bootflow.c:1021-1167 | on a well-formed line a set, or a delete of a present argument, gives the joined edited words, or -E2BIG exactly when they and the NUL do not fit |
| `CmdlineEdits.SetLexes` | boot/bootflow.c:1021-1167 | the new line lexes to the edited words |
| `CmdlineEdits.SetThenGet` | boot/bootflow.c:1199-1206 | after a change, a lookup gives the value set, nothing if deleted, and for every other argument what it gave before |
| `CmdlineEdits.SetThenGetIff` | boot/bootflow.c:1021-1206 | a name is read back with every value, on every line, if and only if it is an argument name: a word without `=` outside quotes that does not end in a quote |
| `CmdlineEdits.SetOverwrites` | boot/bootflow.c:1021-1167 | set then change is the change alone, in the same buffer, errors included |
| `CmdlineEdits.SetIsIdempotent` | boot/bootflow.c:1021-1167 | setting twice is setting once |
| `CmdlineEdits.SetThenDelete` | boot/bootflow.c:1104-1112 | adding an argument and deleting it gives the original with its spaces squeezed |
| `CmdlineEdits.QuotedNameIsMissed` | boot/bootflow.c:1100-1111 | a line that holds a quoted name without `=`, on which that name is not found |
| `CmdlineBuffer.ScanWord` | boot/bootflow.c:1049-1073 | the loop finds the end of the word and of its name, or reports an open quote |
| `CmdlineBuffer.CopyIn` | boot/bootflow.c:989-1019 | writes exactly the argument's word after what is there, or -E2BIG exactly when it would reach the end, and nothing past the end |
| `CmdlineBuffer.PutWord` | boot/bootflow.c:1091-1146 | the buffer holds the edited text so far plus this word, its replacement, or nothing |
| `CmdlineBuffer.EditWords` | boot/bootflow.c:1039-1148 | the pass over the line leaves the text of all edited words, or the error, and says whether the argument was there |
| `CmdlineBuffer.SetArg` | boot/bootflow.c:1021-1167 | for every line, name, value and length: the return value and the buffer are as `SetOutcome` says, and nothing at or past the length is written |
| `CmdlineBuffer.GetArg` | boot/bootflow.c:1199-1206 | for every line and name: position and length of the first such argument's value without its quotes, -ENOENT, or -EINVAL for an open quote met before it; a word without `=` that ends in a quote comes out as -ENOENT |
| `SilentFixup.StrCpy` | boot/bootm.c:1026-1027 | a forward copy within one buffer is right although source and destination overlap |
| `SilentFixup.Replace` | boot/bootm.c:1019-1029 | the first `console=` run is replaced while copying down from the far end |
| `SilentFixup.Append` | boot/bootm.c:1030-1032 | the argument is added while copying down from the far end |
| `SilentFixup.Fixup` | boot/bootm.c:983-1043 | -ENOSPC exactly when there is no room; otherwise the buffer holds exactly the silenced, or untouched, line; nothing past the length is written |
| `SilentFixup.ConsoleReplaced` | boot/bootm.c:1019-1029 | the first `console=` argument, whatever its value, becomes `console=ttynull`, and the text before and after it stays |
| `SilentFixup.ConsoleAdded` | boot/bootm.c:1030-1039 | a line without `console=` gets the argument at its end |
| `SilentFixup.WantedIff` | boot/bootm.c:998-1009 | a line is silenced if and only if the variable is set and begins like a yes (env/common.c, lines 339 to 347), or it is unset and the console is silent |
| `SilentFixup.RoomToAdd` | boot/bootm.c:993-1038 | in lengths: exactly when there is room to leave a line alone, and to add the argument |
| `SilentFixup.RoomToReplace` | boot/bootm.c:993-1034 | in lengths: exactly when there is room to replace the argument |
| `SilentFixup.SilencedTwice` | boot/bootm.c:1012-1039 | silencing a silenced line changes nothing |
| `AndroidAb.CompareIsRank` | boot/android_ab.c:176-192 | the comparison is a total preorder: that of the three fields read as one number |
| `AndroidAb.Pick` | boot/android_ab.c:289-314 | the reference choice: the lowest-index maximum among bootable slots |
| `AndroidAb.ControlDefault` | boot/android_ab.c:41-67 | the re-initialised table: fresh slots, and what it keeps of the damaged one |
| `AndroidAb.PickSlot` | boot/android_ab.c:289-314 | the loop finds the lowest-index maximum among bootable slots, or none |
| `AndroidAb.ChooseSlot` | boot/android_ab.c:283-341 | the table after a selection, and that a store is asked for exactly when it changed |
| `AndroidAb.MiscPartition.Store` | boot/android_ab.c:139-163 | -EINVAL and no write for an unaligned offset; otherwise one copy is replaced, or an interrupted write leaves its own contents; the other copy is untouched |
| `AndroidAb.MiscPartition.Load` | boot/android_ab.c:86-121 | -EINVAL for a record that is not on a block boundary or not in the partition, -EIO for a failed read, else the copy |
| `AndroidAb.ReadMeansAligned` | boot/android_ab.c:139-148 | after both reads the store of the backup never fails for its offset |
| `AndroidAb.MiscPartition.LoadControl` | boot/android_ab.c:224-252 | primary if intact, else backup if intact, else a re-initialised table |
| `AndroidAb.MiscPartition.SelectSlot` | boot/android_ab.c:194-377 | disk and return value of a whole call, for every read and write outcome |
| `AndroidAbRuns.CompletedCallSettles` | boot/android_ab.c:343-369 | every call that completes leaves both copies equal and intact, holding the advanced metadata |
| `AndroidAbRuns.CallChooses` | boot/android_ab.c:224-314 | a completed call chooses from the primary's table if it is intact, else the backup's, else slot 0 of a new table, whose every field is given; the slot count is cut to 4 |
| `AndroidAbRuns.SuffixNamesSlot` | boot/android_ab.c:326-341 | the stored suffix names the slot returned |
| `AndroidAbRuns.UnsupportedIsRefused` | boot/android_ab.c:254-269 | -ENODATA, with both copies left alone, if and only if the table has the wrong magic number or a newer version |
| `AndroidAbRuns.FailedReadIsReported` | boot/android_ab.c:86-121 | in bytes: -EINVAL for a record not in the partition or off a block boundary, -EIO for a failed read, the primary first, both copies left alone |
| `AndroidAbRuns.ScannedSlotIsBootedSlot` | boot/android_ab.c:289-341 | a selection without spending a try, even one that repaired the metadata, and then one that spends it, give the same slot, so the slot scanned (boot/bootmeth_android.c, line 282) is the slot booted (line 574) |
| `AndroidAbRuns.CrashSafeIff` | boot/android_ab.c:343-369 | wherever the power fails in a call the next works from the old or the new metadata, if and only if the call gets nowhere, leaves the primary alone, or starts with a good backup |
| `AndroidAbRuns.UnplacedIsRefused` | boot/android_ab.c:86-105 | copies outside the partition or off block boundaries are never touched, and the call returns -EINVAL |
| `AndroidAbRuns.SettledDiskSurvivesAnyCut` | boot/android_ab.c:343-369 | from two equal intact copies no single cut, torn writes included, loses the metadata |
| `AndroidAbRuns.SecondCutCanLoseMetadata` | boot/android_ab.c:343-369 | a cut in the backup write and then one in the primary write lose it |
| `AndroidAbRuns.UnprovenBoot` | boot/android_ab.c:316-324 | while tries are left above the best proven slot, a call boots an unproven slot and spends exactly one of them; the counter does not underflow |
| `AndroidAbRuns.ProvenBoot` | boot/android_ab.c:289-324 | once they are spent the choice is the best proven slot, or none, and no slot changes |
| `AndroidAbRuns.RollbackIsExact` | boot/android_ab.c:289-376 | a run of calls boots unproven slots exactly as often as that budget says, then one proven slot forever or -EINVAL forever |
| `AndroidAbRuns.BootsUnprovenIff` | boot/android_ab.c:289-376 | call k boots an unproven slot if and only if k is below the budget |
| `AndroidAbRuns.UnprovenCallsAreBounded` | boot/android_ab.c:289-376 | however long the run, that many at most: the tries of all unproven, uncorrupted slots together |
| `AndroidAbRuns.RoundRobinFromDefault` | boot/android_ab.c:41-67 | from damaged metadata call k boots slot k mod the number of slots, seven times round, then -EINVAL |
| `BlsParse.SkipSpaceAt` | boot/bls_parse.c:116-123 | the pointer stops at the first character that is not white space, or at the NUL |
| `BlsParse.TrimAt` | boot/bls_parse.c:137-174 | the value's string ends after its last non-space character, and nothing outside it is touched |
| `BlsParse.ParseLine` | boot/bls_parse.c:137-174 | key and value are strings inside the line, the error exactly for blank lines, comments and keys without a value, nothing outside the line is touched |
| `BlsEntry.LookupToken` | boot/bls_parse.c:63-73 | the position of the key in the table of known keys, or none if it is not there; `FoldMeaning` says what each word then does |
| `BlsEntry.BlsEntry.AppendStr` | boot/bls_parse.c:85-109 | the first value, or the old text, a space and the new value |
| `BlsEntry.BlsEntry.HoldsKept` | boot/bls_parse.c:176-285 | every field still reads its own value after the parser has written anywhere past the lines done |
| `BlsEntry.BlsEntry.Put` | boot/bls_parse.c:215-268 | the entry, read through its pointers, is the old one with this line taken |
| `BlsEntry.EndLine` | boot/bls_parse.c:197-204 | the line becomes a string of its own, and where the next one starts |
| `BlsEntry.ParseEntry` | boot/bls_parse.c:176-285 | at return every pointer and every initrd reads its own line's trimmed value, options owns its text, success exactly if the fold is usable, nothing past the size is touched |
| `BlsLaws.FoldMeaning` | boot/bls_parse.c:43-269 | by the words in the file: title, version, linux, fit, devicetree, devicetree-overlay, architecture, machine-id and sort-key hold the last value of the lines with that key, initrd all of them in order, options their single-space join |
| `BlsLaws.UsableIff` | boot/bls_parse.c:275-284 | an entry is accepted if and only if a `linux` or a `fit` line occurs |
| `BlsLaws.Separators` | boot/bls_parse.c:137-165 | exactly which characters end a key |
| `BlsLaws.NulEndsLine` | boot/bls_parse.c:197-204 | a line stops at a NUL |
| `BlsRoundTrip.ParsedBack` | boot/bls_parse.c:137-269 | any file that gives each key its values, indented or not, the options spread over any number of lines, with blank lines, comments, unknown keys and keys without a value anywhere, parses back to the entry |
| `BlsRoundTrip.PrintThenParse` | boot/bls_parse.c:43-73 | printing an entry one `key value` line per value and parsing it gives it back |
| `CmosBits.LowBitsExactIff` | boot/cedit.c:769-778 | an int is its low n bits if and only if it is not negative and below 2 to the n |
| `CmosBits.DecodeExactIff` | boot/cedit.c:853-872 | a stored int is read back exactly if and only if it fits its bit field |
| `Cmos.CurItemVal` | boot/cedit.c:341-356 | the current item's value or position, or -ENOENT |
| `Cmos.WriteHandler` | boot/cedit.c:745-781 | the error, or exactly the menu's bits are marked and exactly the value's one bits are set; `CmosNumbers` says where these are |
| `Cmos.Flush` | boot/cedit.c:806-822 | exactly the marked bytes are written; success exactly if none of them is refused |
| `Cmos.WriteSettings` | boot/cedit.c:783-832 | the first menu's error and no write, or touched bytes hold exactly the menus' bits and all others are never written |
| `CmosNumbers.BitDigit` | boot/cedit.c:769-778 | CMOS bit b is the binary digit of weight 2 to the b mod 8 in byte b / 8 |
| `CmosNumbers.WrittenDigit` | boot/cedit.c:769-778 | bit i of a written value is the digit of weight 2 to the (start + i) mod 8 in byte (start + i) / 8, whatever other menus are written |
| `CmosNumbers.WrittenByte` | boot/cedit.c:769-778 | a menu on a byte boundary is written byte by byte, the low one first |
| `CmosNumbers.WrittenWholeByte` | boot/cedit.c:769-778 | an eight-bit menu on a byte boundary leaves exactly its value there |
| `CmosNumbers.CurrentIs` | boot/cedit.c:341-356 | the value written is that of the first item with the current id, or its position if it has none |
| `CmosNumbers.OthersLeftAlone` | boot/cedit.c:745-754 | objects that are no menus, and reserved ids, change nothing when writing or reading |
| `CmosRead.Fetch` | boot/cedit.c:858-867 | a byte is read from the device only if it was not read before, and the cache agrees with the device |
| `CmosRead.ReadHandler` | boot/cedit.c:834-884 | through the cache a menu gets exactly what uncached contents call for, or the error |
| `CmosRead.ReadSettings` | boot/cedit.c:886-930 | menus are restored in order up to the first error, and no byte is read twice |
| `CmosRead.FindVal` | boot/scene_menu.c:64-78 | the first item with the value, positions standing in for absent values |
| `CmosRead.ReadBackExactIff` | boot/cedit.c:745-871 | for menus on disjoint bit ranges, of any length, a written value is read back exactly if and only if it fits |
| `CmosRead.WriteThenReadRestores` | boot/cedit.c:745-930 | writing and reading back leaves every menu as it was, when values fit and tell a menu's items apart |

## Left out

- `bootflow_iter_drop_bootmeth` (boot/bootflow.c:181-202): it renumbers bootmeths without renumbering the done bits, so runs are without it.
- User's bootmeth orders that `UserOrderFits` excludes, and systems with no ordinary bootmeth: the scan theorems require the partitioned order.
- A probe gives the same result each time it is made on a bootdev, and a hunter the same result each time; a hunter binds bootdevs only if it returns 0.
- Labels come as a uclass, a sequence number and the hunters that match, already split; the parsing of their text (boot/bootdev-uclass.c:398-436) is not modelled. What a caller names comes split into number, name, label and partition in the same way.
- The bootdev after the current one on the same media device is the next one in the list with that media device.
- Bootmeth drivers, filesystems, block devices, network, EFI and PXE: each check is an oracle that gives a result code. The list of 16 bootdevs kept for display, messages and logging are left out.
- `bootdev_unhunt`: it clears one bit outside a scan and would add only an easy member.
- The A/B checksum is an arbitrary function, and a torn record is one whose checksum does not match.
- AndroidAbRuns.RollbackIsExact: for copies that lie in the partition on block boundaries, because otherwise every call is refused, as `UnplacedIsRefused` says; the same holds for the other results about runs of calls.
- Allocation failures everywhere.
- CmdlineEdits.SetThenGet: for argument names, because `SetThenGetIff` shows that no other name is read back; `SetArg` and `GetArg` themselves are for every name.
- Strings are sequences of characters standing for bytes; white space is what the C library's table says for bytes, 0xA0 included.
- CmosRead.ReadSettings: for bit lengths up to 64, because the C shift that builds a value is not defined beyond.
- Unsigned overflow of a menu's start bit plus length is not modelled.
- `cedit_write_settings`, the environment variants, expo and menu rendering, the rest of `bootm.c`, RAUC slot counting.
