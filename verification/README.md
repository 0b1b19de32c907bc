# LotCraft: a verified model of the installer, the updater and the risk geometry

This project models the parts of LotCraft whose correctness is hardest to see by reading, and proves
properties of them for every input, every fault pattern and every interleaving. `dafny verify
dfyconfig.toml` checks it.

| File | Models |
|---|---|
| `Directory.dfy` | the product directory as a disk whose every operation may fail, with a ghost trace of its states |
| `Transaction.dfy` | the replacement of owned files by rename, its rollback and its finalization |
| `Installer.dfy`, `Sessions.dfy`, `Uninstalling.dfy` | ownership checks, install, uninstall and the delayed cleanup helper |
| `NamedMutex.dfy` | locks that belong to the creator of a named kernel object |
| `Lifecycle.dfy` | installs, uninstalls, helpers and updater children interleaving on one directory and one lock |
| `Version.dfy` | stable semantic versions (Semantic Versioning 2.0.0, items 2 and 11) |
| `Updater.dfy`, `UpdaterRuns.dfy` | one updater worker, and any number of them interleaved |
| `WindowsPath.dfy`, `PathProperties.dfy` | lexical path cleaning, containment, the product destination |
| `Decimals.dfy`, `Prices.dfy`, `PlanGeometry.dfy`, `Execution.dfy` | decimal rounding, tick geometry, order resolution, price validation |
| `FreshPlans.dfy`, `Visibility.dfy`, `ModeChanges.dfy` | fresh plans, their distance on the chart, and switches between market and pending orders |
| `Volume.dfy`, `Sizing.dfy` | the volume lattice and the position size |
| `PeChecksum.dfy` | the CheckSum field of the Microsoft PE format, section "Optional Header Windows-Specific Fields" |
| `LogLimiter.dfy` | the sixteen-slot log limiter |

How faults and concurrency are modelled: a `Disk` asks an oracle whether its n-th operation fails, which
random suffix it draws and what a torn write leaves, so a method contract holds for every fault pattern;
`hitches` counts the operations that failed or drew a name in use, so "`ok` or `hitches` grew or one of these
reasons" says exactly when something may be refused. A critical section is proved against a session predicate
over the directory states it goes through; the interleaving machines let a process that owns the lock play any
such session one state at a time, while other processes come, lose, give up and die between its steps.

## What was found on the way

- Cleaning a path twice is the identity unless the result ends in whitespace or names the server `?`: the text
  of such a path reads as the extended prefix (`PathProperties.CleaningIsStableIff`, `UnstableServer`). For the
  same reason the product destination lies inside the Experts root for every root except one on the server `?`.
- When reserving a backup name fails half-way, or the reserved file cannot be released, an empty file with a
  backup name stays behind. The transaction theorems say so: at most one such stray, always empty.
- A state file that records Go's zero time does not throttle the next attempt
  (`UpdaterRuns.ZeroTimeDoesNotThrottle`); apart from that, attempts are at least 24 hours apart.
- What an interrupted uninstall leaves can always be uninstalled again, but an installer that is not older may
  write over it exactly when the manifest records an updater hash (`Uninstalling.ReinstallableIff`): the
  uninstaller's preflight accepts an empty one while the updater is absent, the installer's ownership check
  refuses it (`UninstallableOnly`).
- The 34 pixels between entry and stop that docs/SYMBOL_TRANSITION_PENDING_AND_MARKER_FIX_PLAN.md:282 promises
  are kept by market plans and stop entries. A limit entry rounds two fifths of the stop distance up to a whole
  tick, so the stop leg is three fifths of the stop ticks, rounded down, and may fall short by less than a tick
  (`Visibility.StopMayBeTooNear`); it is wide enough exactly when those ticks cover the 34 pixels.
- A fresh plan fails exactly when one of its prices would not be positive. Besides the stop this can be the
  entry or the take profit of a short plan (`FreshPlans.ShortPlansMayFail`).
- A switch to pending does not move the take profit. Past a limit entry an executable market plan always keeps it;
  a stop entry may overtake it (`ModeChanges.StopMayPassTake`). The new plan is executable exactly when the old
  take profit lies the protective distance past the ticks of the new entry.
- A limit entry exists exactly when the stop is on its own side with room for two leg gaps of ticks, and, for ticks
  above one half, when the rounding to ticks still leaves both legs.

## Model

| member | source | states |
|---|---|---|
| Directory.Disk.Move | installer/cmd/setup/main_windows.go:1096-1114 | a move takes the bytes along, fails without effect, and without replace never overwrites |
| Directory.Disk.CreateTemp | installer/cmd/setup/main_windows.go:1084-1094 | a temporary file is new and empty, or nothing changes |
| Directory.Disk.Write | installer/cmd/setup/main_windows.go:967-996 | a write stores the content, or leaves arbitrary content in that file alone |
| Transaction.ReserveSiblingName | installer/cmd/setup/main_windows.go:1084-1094 | a reserved name was unused and holds an empty file; on failure at most that file stays |
| Transaction.SetAside | installer/cmd/setup/main_windows.go:1012-1029 | an existing final file, if it is safe, moves to a fresh backup and is recorded, or nothing but one empty stray changes; a refusal has a reason |
| Transaction.CommitOne | installer/cmd/setup/main_windows.go:1012-1036 | one round keeps every claim about all files, whatever fails, and keeps the old bytes findable |
| Transaction.CommitEach | installer/cmd/setup/main_windows.go:1006-1038 | the loop stops at the first failure with all bookkeeping fit for rollback |
| Transaction.RollbackOne | installer/cmd/setup/main_windows.go:1047-1073 | rolling one file back clears committed, hadOld and backup only for what succeeded |
| Transaction.RollbackPrepared | installer/cmd/setup/main_windows.go:1047-1073 | after any number of failed passes a pass without a failure restores every file; a pass goes on after a failure, so no more files stay behind than operations failed; every intermediate state keeps the old bytes |
| Transaction.CommitPrepared | installer/cmd/setup/main_windows.go:1006-1073 | success: no final was unsafe, every final holds its staged bytes and every backup the old bytes; failure with a clean rollback: everything is as before and no staged file remains; without a failing operation only an unsafe final fails it; a failing rollback means an operation failed |
| Transaction.FinalizePrepared | installer/cmd/setup/main_windows.go:1075-1082 | only backups disappear, and no more of them stay behind than operations failed |
| Transaction.InvConserves | installer/cmd/setup/main_windows.go:1006-1073 | the old bytes of every file are at its final or its backup path, and not at both unless they equal the new ones or are empty |
| Transaction.ConservedUnderNewSlot | installer/cmd/setup/main_windows.go:1020-1029 | moving old bytes to a fresh backup keeps all earlier states conserved too |
| Transaction.GoodSetAside | installer/cmd/setup/main_windows.go:1020-1029 | the first rename of a commit step keeps every claim of the transaction |
| Transaction.GoodCommit | installer/cmd/setup/main_windows.go:1030-1036 | the second rename keeps every claim of the transaction |
| Transaction.GoodRestore | installer/cmd/setup/main_windows.go:1047-1073 | moving a backup home keeps every claim, also on a repeated rollback |
| Transaction.AllBackIsRestored | installer/cmd/setup/main_windows.go:1047-1073 | when every file is back and every staged file gone, the whole directory is as before, up to strays |
| Transaction.AllCommittedIsReplaced | installer/cmd/setup/main_windows.go:1006-1038 | when every file is committed, finals, backups and everything else are as promised |
| Installer.CheckInventory | installer/cmd/setup/updater_windows.go:396-408 | accepts exactly the lists of the expected names without repetition |
| Installer.ExactListsAll | installer/cmd/setup/updater_windows.go:396-408 | same length, no stranger and no repetition list all expected names |
| Installer.CheckNotNewer | installer/cmd/setup/main_windows.go:757-767 | accepts exactly two proper versions of which the recorded one ranks no higher |
| Installer.ValidateOwnership | installer/cmd/setup/main_windows.go:718-827 | success exactly on an empty or rightful directory without unsafe files, with downgrade refused, up to failures |
| Installer.VerifyHashIfPresent | installer/cmd/setup/main_windows.go:1116-1135 | success means the file is absent or has the recorded hash, and the other way round up to failures |
| Installer.VerifyRequiredHash | installer/cmd/setup/updater_windows.go:463-478 | success means a safe file with the recorded hash; refusal has a listed reason |
| Installer.ReadVerifiedInstall | installer/cmd/setup/updater_windows.go:363-461 | success means a complete, safe installation whose every file has its recorded hash; refusal means that no manifest describes one, or a failure |
| Sessions.Stage | installer/cmd/setup/main_windows.go:935-996 | a staged file is fresh and holds the content; after a single failing operation nothing stays behind; only staged names change |
| Sessions.StageAll | installer/cmd/setup/main_windows.go:350-407 | four distinct staged files with matching hashes and a manifest that records them, or none; without a failing operation none only for a copy that differs, and then nothing changed |
| Sessions.FinalizeInstall | installer/cmd/setup/main_windows.go:442-442 | after a success no backup stays behind unless an operation fails, and nothing else changes |
| Sessions.CommitInstall | installer/cmd/setup/main_windows.go:408-442 | installed: verified, all four new files, and no other name changed when nothing failed; rolled back: all as before, without the staged files when nothing failed; else an operation failed and every old file is at its name or under a backup |
| Sessions.UndoInstall | installer/cmd/setup/main_windows.go:1040-1045 | rolling back after a failed verification restores the directory, or an operation failed and every old file can be recovered |
| Sessions.NewManifestVerifies | installer/cmd/setup/main_windows.go:380-442 | the files and the manifest just committed pass the updater's own verification |
| Sessions.RunInstall | installer/cmd/setup/main_windows.go:275-452 | every outcome is a lawful session; installed: all four new files, no other name changed when nothing failed, and no reason to refuse; without consent, usable payload, ownership or safe files nothing is ever changed; rolled back: as before; recovery only after a failing operation, with every old file recoverable; refused without a failing operation only for a listed reason |
| Uninstalling.StepIsResumable | installer/cmd/setup/main_windows.go:575-607 | while the manifest is there, each deletion keeps both the uninstaller's preflight and the installer's ownership check |
| Uninstalling.Resumable | installer/cmd/setup/main_windows.go:549-607 | after any number of interrupted uninstalls what remains has the same manifest, can be uninstalled again, and can be reinstalled by exactly the installers that are not older, if the manifest records an updater hash |
| Uninstalling.ReinstallableIff | installer/cmd/setup/main_windows.go:818-826 | a state that passes preflight passes the ownership check of an installer exactly when that is not older and the manifest records an updater hash |
| Uninstalling.UninstallableOnly | installer/cmd/setup/main_windows.go:818-826 | a directory that can be uninstalled and that no installer may write over |
| Uninstalling.InstalledIsManaged | installer/cmd/setup/main_windows.go:718-827 | a finished installation passes uninstall preflight and the ownership check of every installer not older |
| Uninstalling.RemoveOwnedFile | installer/cmd/setup/main_windows.go:1137-1161 | deletes at most the named file, and only if it is safe and has its recorded hash; refuses only for a listed reason |
| Uninstalling.CheckPreflight | installer/cmd/setup/main_windows.go:502-566 | passes exactly on a directory without unsafe files inside the Experts root whose manifest and present files are all right, up to failures |
| Uninstalling.RunUninstall | installer/cmd/setup/main_windows.go:496-619 | nothing changes without consent, containment, preflight and safe files, and with them it goes ahead unless an operation fails; the manifest goes last; an incomplete run keeps the manifest, passes preflight again and is reinstallable by exactly the installers its manifest allows; a completed run leaves at most its own uninstaller, handed over to a started helper |
| Uninstalling.RunCleanupHelper | installer/cmd/setup/main_windows.go:1210-1283 | changes nothing but the uninstaller, and removes that only for a well-formed request, an unchanged directory, the expected hash and without a manifest |
| Uninstalling.UninstallAndCleanUp | installer/cmd/setup/main_windows.go:575-619 | uninstall and helper in turn take exactly the four owned files, also a running uninstaller, unless an operation fails or a listed reason holds; without consent, containment, preflight and safe files they take nothing |
| NamedMutex.StepIsExclusive | installer/cmd/setup/updater_windows.go:577-602 | creating or closing a handle keeps at most one owner per name |
| NamedMutex.AtMostOneOwner | installer/cmd/setup/updater_windows.go:577-602 | in every reachable state, with losers' transient handles, at most one handle owns a name |
| NamedMutex.LocksAreIndependent | installer/cmd/setup/updater_windows.go:566-602 | what happens to one name does not depend on events about others |
| NamedMutex.LockNamesDiffer | installer/cmd/setup/updater_windows.go:566-576 | updater and installation locks never share a name; installation locks differ exactly when their ids do |
| NamedMutex.AcquireNamedMutex | installer/cmd/setup/updater_windows.go:581-595 | unless the kernel call fails, acquires exactly when no handle to the name was open; otherwise leaves no handle |
| NamedMutex.Mutex.Close | installer/cmd/setup/updater_windows.go:597-602 | the first close releases, a second does nothing |
| Lifecycle.SessionIsCoherent | installer/cmd/setup/main_windows.go:275-442 | every session that needs no recovery ends with a manifest that records the right hashes |
| Lifecycle.SessionKeepsForeign | installer/cmd/setup/main_windows.go:275-619 | no step of a session touches a foreign name |
| Lifecycle.StepKeepsInv | installer/cmd/setup/main_windows.go:275-619 | every step of every process keeps the invariant of directory and lock |
| Lifecycle.Safety | installer/cmd/setup/main_windows.go:275-619 | over every interleaving and from every directory: mutual exclusion and untouched foreign names; and, if the directory was right at first, right hashes whenever the lock is free and nothing is broken |
| Lifecycle.HelperSparesInstallations | installer/cmd/setup/main_windows.go:1234-1281 | over every interleaving, from every directory, a helper never removes an uninstaller beside a manifest or with another hash |
| Lifecycle.SessionIsNotOlder | installer/cmd/setup/main_windows.go:757-767 | a session that finds and leaves a manifest leaves the same one or one of no smaller rank |
| Lifecycle.VersionsNeverDecrease | installer/cmd/setup/main_windows.go:275-301 | over every interleaving, from every directory, a manifest that stays in place stays the same or is replaced by versions whose rank never decreases |
| Version.ParseVersion | installer/internal/update/protocol.go:43-63 | the loop computes the parse function |
| Version.ParseOfPrint | installer/internal/update/protocol.go:43-63 | parsing inverts printing on every triple in range |
| Version.PrintOfParse | installer/internal/update/protocol.go:43-63 | printing inverts parsing on every accepted text |
| Version.CompareIsWeight | installer/internal/update/protocol.go:65-77 | comparison is by rank: the three components are the digits of one number, the major version first |
| Version.CompareVersions | installer/internal/update/protocol.go:65-77 | the loop answers the sign of the difference of the ranks |
| Version.BumpsComeLater | installer/internal/update/protocol.go:65-77 | a greater major version outranks any minor version and patch, at equal major versions a greater minor version any patch; equal ranks are equal versions |
| Version.CompareIsTotalOrder | installer/internal/update/protocol.go:65-77 | the order on texts is total, and two texts have the same rank, and compare equal, exactly when they are the same text |
| Updater.OfferIsNewer | installer/internal/update/protocol.go:240-246 | an offer is exactly a version of greater rank |
| Updater.Store.Load | installer/cmd/setup/updater_windows.go:493-511 | reads back the saved state of this installation; an error means a failed read or nothing usable on file |
| Updater.Store.Replace | installer/cmd/setup/updater_windows.go:513-545 | the state file is replaced as a whole or stays |
| Updater.Store.Update | installer/cmd/setup/updater_windows.go:215-265 | a later save of the same worker keeps the recorded attempt |
| Updater.RecordAttempt | installer/cmd/setup/updater_windows.go:153-186 | goes on exactly when no attempt was recorded in the last 24 hours, up to failing operations, with this attempt on file |
| Updater.RecordCheck | installer/cmd/setup/updater_windows.go:201-234 | offers exactly a version that ranks higher, with the check on file; a version that does not clears the deferral |
| Updater.RunInstallerChild | installer/cmd/setup/updater_windows.go:328-334 | the installer child is blocked only by the installation lock or a failing kernel call, never by the updater's own lock; else it installs unless an operation fails or it is refused for a listed reason, and never when one holds |
| Updater.DownloadAndInstall | installer/cmd/setup/updater_windows.go:278-348 | changes nothing unless the installation is still the checked one; succeeds exactly when no listed reason holds, up to failing operations, and then the offered version is installed and verified |
| Updater.AskAndInstall | installer/cmd/setup/updater_windows.go:225-275 | a version on hold is not asked about; a refusal puts it off for a day; consent leads to the update unless an operation fails or a listed reason holds; without consent the installation is untouched |
| Updater.CheckAndUpdate | installer/cmd/setup/updater_windows.go:201-275 | what a check comes to: no update exactly for a version that does not rank higher, a postponement exactly for one on hold or refused, and an update for one approved, up to failing operations and listed reasons |
| Updater.Attempt | installer/cmd/setup/updater_windows.go:142-275 | no attempt within 24 hours of the recorded one; nothing reaches the network unless the attempt is on file; then the outcome is what the check must come to |
| Updater.RunUpdaterWorker | installer/cmd/setup/updater_windows.go:107-276 | every path is a lawful session on state file and network and closes its lock; it comes to a check exactly when its copy is the recorded updater, its lock is free and 24 hours have passed, up to failing operations; the outcome is what the check must come to for the version it found |
| Updater.AskAgain | installer/cmd/setup/updater_windows.go:225-252 | a version declined at a time is not asked about before 24 hours have passed, and is asked about from then on |
| UpdaterRuns.DueByTheFile | installer/internal/update/protocol.go:347-352 | an attempt that the file finds due is due after the last real attempt |
| UpdaterRuns.EveryStateIsWell | installer/cmd/setup/updater_windows.go:142-275 | every state of every interleaving satisfies the throttle invariant |
| UpdaterRuns.AttemptsAreADayApart | installer/cmd/setup/updater_windows.go:142-275 | over every interleaving attempts are at least 24 hours apart, unless the earlier was at the zero time |
| UpdaterRuns.DaysAddUp | installer/internal/update/protocol.go:347-352 | n attempts after a real one take at least n days |
| UpdaterRuns.RecordedBeforeFetch | installer/cmd/setup/updater_windows.go:177-209 | a fetch happens only with its attempt already on file |
| UpdaterRuns.ZeroTimeDoesNotThrottle | installer/internal/update/protocol.go:347-352 | a concrete run with two attempts one nanosecond apart after a zero clock |
| WindowsPath.CleanWindowsPath | installer/internal/policy/windowspath.go:11-48 | the loop computes the text of the resolved path or the error |
| PathProperties.WalkFailsIffEscapes | installer/internal/policy/windowspath.go:23-37 | the component stack fails exactly when some prefix has more ".." than names |
| PathProperties.WalkKeeps | installer/internal/policy/windowspath.go:23-37 | the stack keeps exactly the names a right-to-left reading keeps |
| PathProperties.ResolveIsClean | installer/internal/policy/windowspath.go:11-48 | resolved paths have a proper volume and no empty, "." or ".." component |
| PathProperties.OnlyAbsoluteResolves | installer/internal/policy/windowspath.go:11-21 | only texts that begin with a drive or with two slashes resolve |
| PathProperties.RenderSplitsBack | installer/internal/policy/windowspath.go:39-47 | the cleaned text splits back into exactly its volume and components |
| PathProperties.CleaningIsStableIff | installer/internal/policy/windowspath.go:11-48 | cleaning again is the identity exactly without trailing whitespace and the server "?" |
| PathProperties.UnstableServer | installer/internal/policy/windowspath.go:76-85 | inputs on which cleaning is not idempotent |
| PathProperties.AsciiLowerFolds | installer/internal/policy/windowspath.go:61-63 | lower-casing the ASCII letters meets the requirement on the case folding |
| PathProperties.ExtendedUncResolves | installer/internal/policy/windowspath.go:76-85 | the extended form of a network path resolves to that path |
| PathProperties.ExtendedDriveResolves | installer/internal/policy/windowspath.go:76-85 | the extended form of a path on a drive resolves to that path |
| PathProperties.SlashesAreAlike | installer/internal/policy/windowspath.go:11-22 | texts that differ only in which slash they use resolve alike |
| PathProperties.DriveLetterCase | installer/internal/policy/windowspath.go:87-90 | two letters name the same drive exactly when they are the same letter in either case |
| PathProperties.PrefixOfJoin | installer/internal/policy/windowspath.go:61-63 | the string-prefix test on joined fields is list prefix |
| PathProperties.WithinMeans | installer/internal/policy/windowspath.go:52-64 | containment holds exactly when volume and components are a case-folded prefix |
| PathProperties.WithinIsAnOrder | installer/internal/policy/windowspath.go:52-64 | containment is reflexive, transitive and antisymmetric up to case |
| PathProperties.DestinationIsWithinIff | installer/internal/policy/windowspath.go:68-74 | the product directory is one component inside the root exactly for roots not on the server "?" |
| Decimals.RoundNear | tests/reference_model.py:129-134 | rounding goes to the grid point less than half a unit away |
| Decimals.RoundIsNearestEven | tests/reference_model.py:133-134 | rounding goes to a nearest integer, and to the even one of two |
| Prices.OutwardPrice | tests/reference_model.py:154-161 | the four-attempt loop finds the first candidate far enough |
| PlanGeometry.NormalizeNear | tests/reference_model.py:129-134 | a normalized price is the nearest whole number of ticks |
| PlanGeometry.TicksForCovers | tests/reference_model.py:154-155 | the tick count covers the distance and is the least that does |
| PlanGeometry.OutwardOnLattice | tests/reference_model.py:154-161 | from a lattice price the loop ends within two candidates, at an exact number of ticks, and fails only for a non-positive price |
| PlanGeometry.DefaultDistanceMeans | tests/reference_model.py:137-142 | the default distance is the least one a tick clear of both broker levels, of a hundred ticks and of a five-hundredth of the price |
| PlanGeometry.LegGapMeans | tests/reference_model.py:145-151 | the leg gap is the least distance four ticks clear of both broker levels, of eight ticks and of twice the spread |
| PlanGeometry.FreshGapMeans | tests/reference_model.py:164-183 | the gap of a fresh plan is the least distance that is a default distance, three leg gaps and, on a chart that shows the reference, 34 pixels, for a pending order with three fifths of it |
| Execution.ResolvesIff | tests/reference_model.py:303-343 | resolution accepts exactly the positive entries clear of the quote on the side of an allowed subtype, and market orders at the reference with the type of their direction |
| Execution.ValidatesIff | tests/reference_model.py:346-384 | validation passes exactly when each level lies past the entry and the protective distance from its anchor |
| Execution.PendingExecutable | tests/reference_model.py:303-384 | an entry clear of the quote with a stop a leg gap away is executable exactly when its take profit fits |
| Execution.InstantPricesFit | tests/reference_model.py:303-384 | market orders with levels three leg gaps away are executable, the spread included |
| FreshPlans.ThreeLegs | tests/reference_model.py:145-183 | a leg gap is at least eight ticks, and three leg gaps at least three times its ticks less two |
| FreshPlans.LimitTicksInside | tests/reference_model.py:186-196 | with three leg gaps of room the limit lies at two fifths rounded up, more than a leg from both sides |
| FreshPlans.LimitNeverRaises | tests/reference_model.py:186-201 | the limit entry of a fresh plan never raises |
| FreshPlans.FreshPlanExists | tests/reference_model.py:213-252 | a fresh plan exists exactly when all its prices stay positive, and its prices are given in ticks |
| FreshPlans.FreshPlanIsExecutable | tests/reference_model.py:213-252 | every fresh plan on a sound, supported market resolves and validates, both modes and directions |
| FreshPlans.ShortPlansMayFail | tests/reference_model.py:213-252 | short plans with a positive stop that fail at the take profit and at the entry |
| Visibility.LimitLeavesThreeFifths | tests/reference_model.py:186-196 | a limit entry leaves exactly three fifths of the stop ticks, rounded down |
| Visibility.FreshStopLeg | tests/reference_model.py:213-252 | the distance from entry to stop of every fresh plan, exactly, in ticks |
| Visibility.FreshStopIsVisible | tests/reference_model.py:164-183 | on a visible chart the stop is 34 pixels from the entry for market plans and stop entries, and for limit entries exactly when three fifths of the stop ticks cover them |
| Visibility.StopMayBeTooNear | tests/reference_model.py:186-196 | limit plans whose stop is 100 away where the chart asks for 100.5 |
| FreshPlans.FreshPlanHasRoom | tests/reference_model.py:213-252 | a long plan has a fresh plan once the quote exceeds the required gap by two ticks, every short plan once it exceeds it by a leg gap and four ticks |
| FreshPlans.DefaultMarketIsSound | tests/reference_model.py:52-80 | the default market meets every requirement of these results |
| FreshPlans.DefaultsHaveFreshPlans | tests/reference_model.py:213-252 | on the default market both directions and modes have an executable fresh plan |
| ModeChanges.SwitchesKeepTerms | tests/reference_model.py:255-277 | over any run of mode switches stop, take profit and risk terms never change |
| ModeChanges.InstantEntryIsTheQuote | tests/reference_model.py:255-277 | a switch to a market order enters at the tick nearest to the quote and keeps all else; a switch to the same mode changes nothing; without a quote there is no switch |
| ModeChanges.LimitEntryKeepsLegs | tests/reference_model.py:186-201 | a limit entry is a positive lattice price that keeps a leg gap from reference and stop |
| ModeChanges.StopEntryKeepsLegs | tests/reference_model.py:204-210 | a stop entry keeps both legs wherever the stop is, and fails only at zero |
| ModeChanges.PendingSurvivesShift | tests/reference_model.py:255-277 | a plan made pending resolves to the chosen subtype at once and after any parallel quote shift up to leg gap less protective distance less half a tick, and is executable exactly when the old take profit reaches past the ticks of the new entry |
| ModeChanges.LimitKeepsTake | tests/reference_model.py:255-277 | an executable market plan that gets a limit entry stays executable |
| ModeChanges.StopMayPassTake | tests/reference_model.py:255-277 | executable market plans that a stop entry makes inexecutable |
| ModeChanges.LimitEntryIff | tests/reference_model.py:186-201 | a limit entry exists exactly when stop side, room in ticks and both rounded legs allow it |
| ModeChanges.LimitFitsIff | tests/reference_model.py:186-201 | for ticks up to one half, exactly when the stop is on its own side with room for twice the ticks of a leg gap |
| ModeChanges.RoomIsThreeTicks | tests/reference_model.py:145-151 | quotes may always move by three ticks at least |
| ModeChanges.DefaultsMayBecomePending | tests/reference_model.py:255-277 | on the default market a fresh long plan may be made pending and survives eight ticks either way |
| ModeChanges.PendingRefusedIff | tests/reference_model.py:255-277 | a switch to pending is refused exactly when no allowed limit fits and no allowed stop entry stays positive; never for a long plan with stop orders allowed |
| Volume.DecimalsForStep | tests/reference_model.py:120-126 | the fewest decimals whose rounding is the step up to the slack, or eight when no fewer do; two for a step that is not positive |
| Volume.StepsBracket | tests/reference_model.py:280-292 | the computed step count is the greatest that fits |
| Volume.FlooredZeroIff | tests/reference_model.py:280-300 | zero exactly when an input is not positive or the minimum does not fit |
| Volume.FlooredIsGreatest | tests/reference_model.py:280-300 | otherwise the greatest lattice volume within request, maximum and slack |
| Volume.FlooredIsMonotone | tests/reference_model.py:280-300 | a larger request never gives a smaller volume |
| Volume.ClampRoundsBack | tests/reference_model.py:294-298 | rounding undoes the clamp to a maximum just below a lattice volume |
| Volume.FloorVolume | tests/reference_model.py:280-300 | the code computes that volume |
| Volume.HundredthsArePrintable | tests/reference_model.py:120-126 | the default volume lattice meets the requirement of exact rounding |
| Sizing.OneStepDown | tests/reference_model.py:442-445 | flooring one step below a lattice volume gives the next lower one, or nothing below the minimum |
| Sizing.FirstChance | tests/reference_model.py:436-442 | the first floor is best when it is within the requested risk |
| Sizing.SecondChance | tests/reference_model.py:442-448 | otherwise the volume one step below is within it, so the last check cannot fail |
| Sizing.RaisedRisksMore | tests/reference_model.py:436-437 | a volume raised to the minimum risks strictly more than requested |
| Sizing.ChooseVolume | tests/reference_model.py:427-448 | fails exactly when the minimum is neither forced nor affordable; else the minimum or the best volume |
| Sizing.RequestMeans | tests/reference_model.py:405-414 | requested money and percentage agree on the account basis, whichever was entered |
| Sizing.CapMeans | tests/reference_model.py:428-433 | the cap admits exactly the volumes within the broker maximum that, with the open exposure of the direction, stay within the limit |
| Sizing.Calculate | tests/reference_model.py:387-465 | valid exactly on accepted inputs with a forced or affordable minimum; then basis, requested money and percentage, one-lot risk and actual money are what the user's and the broker's fields say, and the volume is the forced minimum or the greatest allowed lattice volume within the requested risk up to the slack |
| PeChecksum.FoldCarries | scripts/stamp_pe_version.py:194-199 | folding is addition modulo 0xFFFF on the representatives 1 to 0xFFFF |
| PeChecksum.Compute | scripts/stamp_pe_version.py:189-201 | the loop computes the checksum function and leaves its input alone |
| PeChecksum.ChecksumMeaning | scripts/stamp_pe_version.py:189-201 | at most 0xFFFF before the length is added, congruent to the sum of words, zero only for zero words |
| PeChecksum.IgnoresItsField | scripts/stamp_pe_version.py:189-192 | the result does not depend on the checksum field |
| PeChecksum.ByteCounts | scripts/stamp_pe_version.py:194-197 | a byte counts for itself at an even offset and 256-fold at an odd one |
| PeChecksum.OneByteShows | scripts/stamp_pe_version.py:189-201 | any change of one byte outside the field changes the checksum |
| PeChecksum.RecordChecksum | scripts/stamp_pe_version.py:267-269 | recomputing after recording gives the recorded value and no other byte changes |
| LogLimiter.Limiter.MayEmit | MQL5/Experts/LotCraft/PS_Logging.mqh:25-43 | the code does what the step function says to its three fields |
| LogLimiter.ElapsedLeadsOn | MQL5/Experts/LotCraft/PS_Logging.mqh:25-43 | the elapsed time leads from the one tick count to the other, also across the wrap of unsigned 64-bit arithmetic |
| LogLimiter.AlwaysRemembers | MQL5/Experts/LotCraft/PS_Logging.mqh:25-43 | the table always holds the last sixteen insertions with their times |
| LogLimiter.KeysStayDistinct | MQL5/Experts/LotCraft/PS_Logging.mqh:25-43 | after any calls no key is in two slots |
| LogLimiter.SeatsAreInsertions | MQL5/Experts/LotCraft/PS_Logging.mqh:37-41 | the seat of a key is the number of an actual call that put it into the table |
| LogLimiter.EvictedBySixteen | MQL5/Experts/LotCraft/PS_Logging.mqh:25-43 | a key that has left the table was followed into it by sixteen different other keys |
| LogLimiter.RepeatsNeedSixteenOthers | MQL5/Experts/LotCraft/PS_Logging.mqh:25-43 | a key repeats within its interval only when the table holds sixteen other keys, all different and all inserted after it |
| LogLimiter.AgreesWithUnbounded | MQL5/Experts/LotCraft/PS_Logging.mqh:25-43 | with at most sixteen distinct keys every call is decided as by an unbounded limiter |

## Left out

- Lifecycle.Safety: a process that dies inside its critical section makes the state `broken`, after which no claim is made about hashes; the repository says itself that the four-file commit is not crash-atomic (docs/KNOWN_LIMITATIONS.md:17). Exclusion and foreign names are still covered.
- Lifecycle.VersionsNeverDecrease: manifests of different installations are one manifest here; paths that resolve elsewhere are refused before the lock and are not part of the machine.
- Sessions.RunInstall: dialogs, folder browsing, terminal detection and the payload's own checks are parameters (`approved`, `payloadUsable`, `Surroundings`).
- Uninstalling.RunUninstall: the removal of the empty product directory is left out; the start of the helper process and the containment of the resolved directories are parameters.
- Uninstalling.RunCleanupHelper: waiting for the parent process is left out; how the requested directory resolves, and the well-formedness of the request apart from the hash length, are parameters.
- Uninstalling.UninstallAndCleanUp: the helper follows the uninstall at once; what other processes may do in between is in `Lifecycle`.
- NamedMutex.AcquireNamedMutex: the interleaving of its two kernel calls with other processes is covered by the event machine, not by this method.
- Updater.RunUpdaterWorker: HTTP, host lists, base64, Ed25519, asset lookup and log rotation appear only as the version a verified release offers or their failure; the child installer is run as one call and nothing else acts on the directory while the worker runs; interleaving with other installers is in `Lifecycle`.
- UpdaterRuns.AttemptsAreADayApart: assumes that the state file reads back as last saved, as `Updater.RunUpdaterWorker` shows for every read that does not fail.
- WindowsPath.CleanWindowsPath: lower-casing is any per-character folding that keeps the separators, letters and the extended prefix recognizable; Go's length-changing case mappings of single characters are not modelled.
- FreshPlans.FreshPlanExists: exact reals instead of IEEE doubles; the tick size has at most `digits` decimals and exceeds twice the slack 1e-12. The same holds for every member of `PlanGeometry`, `Execution`, `FreshPlans`, `Visibility` and `ModeChanges` that requires a lattice.
- Volume.FloorVolume: exact reals; minimum and step have only the decimals the step prints with, and the slack step*1e-9 is below half a unit of the last one. `Sizing.Calculate` inherits this.
- LogLimiter.Limiter.MayEmit: fewer than 2^31 insertions, since the cursor is a 32-bit int.
- JSON is represented by the distinction between a parsed record and other bytes; SHA-256 is an arbitrary function of the content, compared up to letter case; reparse-point resolution is one recorded site value and a set of unsafe names.
- Launching and deleting the detached updater worker, PowerShell cleanup scripts, access control lists, key generation: foreign code.
- VERSIONINFO resources and the section patching of `stamp`: the only reader in the repository is a substring search.
- `tests/exposure_reference.py`, `tests/trade_reference.py`, number parsing in `tests/reference_model.py`, release reports and log formatting: would only add easy members.
- The MQL5 modules other than `PS_Logging.mqh`: user interface and broker calls.
