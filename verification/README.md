# Verified model of the Clawdi desktop protocol and its release tooling

This project models the parts of the Clawdi repository whose correctness depends on state,
interleaving or an encoding, and proves what they promise for every input and every run. Nothing in
it calls the original program; `dafny verify dfyconfig.toml` checks all of it.

| modules | what they model |
|---|---|
| `MutationGate` | the admission gate that counts accepted work and hands out one exclusive token |
| `UpdateController` | the updater's state machine and its event handlers |
| `DesktopProtocol`, `ProtocolSafety`, `ProtocolTheorems`, `ProtocolProgress`, `ProtocolTraces`, `UpdateInstallation` | the gate, the update installer, the updater, sign-out, uninstalling, quitting and dashboard session exchanges as one concurrent system |
| `RevisionProgram`, `ImageRevisions`, `ProgramRuns`, `DeploymentLag` | the program that computes image revisions from a repository snapshot, its read footprint, and the history walk that skips commits by that footprint |
| `NameOrder`, `HashFraming`, `FrameReader`, `CanonicalJson`, `JsonReader`, `Utf16`, `RevisionDigest` | the two encodings whose bytes are hashed, and what the resulting revisions tell apart |
| `LockFile`, `DeployWorkflow`, `LockReading`, `ReleaseContent` | the records that are printed and hashed, read from the parsed lock file and workflow, and what a release is of |
| `HiddenRename` | the rename that the history walk does not see |
| `Reachability`, `DependencyClosure`, `DependencyRules`, `OpenApiNodes`, `OpenApiFilter`, `OpenApiPositions` | the dependency worklist of the sidecar lock file and the `$ref` closure of the OpenAPI filter |
| `CheckoutLedger`, `LedgerEffects`, `FixtureServer` | the wallet checkout, upgrade and plan-change protocol |
| `StringLexer`, `LexerEndings` | the string-literal scanner with nested templates |
| `Utf8`, `LogRotation` | bounded log files with records cut inside UTF-8 sequences |
| `CommandRunner`, `CommandSettlement` | bounded command output, streamed progress lines and the settlement of the promise |
| `IndentPaths` | the indentation-stack reader of YAML mapping lines |
| `FeedRollout` | the choice of the release an update feed points at |

## How the model is built

Code that changes state step by step is a class or a loop whose methods are proved against functions;
the laws are proved of those functions. The concurrent desktop code is a state machine: one event is
one segment between two awaits, and the environment chooses which continuation runs next, what the
CLI answers, what the updater emits and when. Theorems about it quantify over every run from a fresh
start.

Hypotheses, each written as a parameter, a `requires` or the shape of a type:

- `onChange` neither throws nor re-enters the gate, and block reasons are not empty. What happens with
  an empty reason is `MutationGate.EmptyReasonAdmitsWork` and
  `MutationGate.HolderExcludesWorkExactlyWhen`.
- A snapshot is a map from paths to texts; `git ls-tree` names the files under a root and the root
  itself when it is a file. `NoFileAtRoot` says that no listed root is a file. A `git show` of a
  directory, which prints a tree, is not a path of such a map and counts as unreadable.
- A `History` is the deployed commit followed by HEAD's first-parent commits, and committer times are
  valid. That a diff names every changed path is `ListingsAreComplete`; the walk needs only
  `ListingsSuffice`.
- Nothing is assumed of the comparison used for sorting, which may tie as `localeCompare` does, where
  the order of insertion is fixed: an input map is filled from constants and sorted listings, so its
  order depends on its keys alone (`HashesFrames`; every hash and comparison have such a digest,
  `DigestExists`). Where an order is to be forgotten the comparison must not tie on the keys in
  question (`StrictTotal`, `Ordered`, `OrdersKeys`), and `SortForgetsOrderExactlyWhen` says that this
  is exactly what it takes.
- YAML, JSONC, the two Docker contracts, the accessory extraction and SHA-256 are functions of what was
  read, and parsed objects have distinct keys as own properties, `__proto__` included; where injectivity
  of the hash is needed it is a `requires`.
- Texts that are hashed are sequences of Unicode scalar values and enter the hash as their UTF-8
  bytes. JSON text is a sequence of UTF-16 code units and a number is given by the text JavaScript
  prints for it.
- The chunks of a command are the texts its decoders return. `Utf8.Decode` is used on prefixes of
  well-formed bytes, which is where the log calls the decoder.
- The events of a command come in any order unless `FromChild` is required, which states what Node.js
  promises of a child process.
- Requests of the checkout protocol are equal when their JSON texts are; money is integer cents; every
  other handler may do anything to the deployments; the clock is a parameter.

## Where the code does less than one might expect

Each of these has a run, or a family of inputs, in which it happens and the exact condition under which
the promise holds.

- A quit-time update attempt that saw an updater error while it waited for the drain is still handed
  over, and a later updater error then leaves the gate blocked (`QuitAttemptMayStayHandedOver`;
  condition: `ErrorAfterHandOver`).
- While an uninstallation waits for its drain a quit passes although work is running and an update is
  ready (`UninstallLetsQuitThrough`; condition: `QuitInterruptsWorkExactlyWhen`).
- The update notification names the version of the event, which is not the one the state shows when
  another version was shown already (`UnshownVersionIsAnnounced`; condition: `ToldIsShownExactlyWhen`).
- A rename listed only under its new name ends the lag walk in its "no main commit evidence" error
  (`RenameHidesTheChange`; condition: `EarliestChangeIsFoundExactlyWhenListed`).
- A block comment whose text begins with a slash is taken to end at its own opening
  (`SlashCommentIsMisread`; condition: `BlockCommentIsSkippedExactlyWhen`).
- A progress line whose callback throws after the promise was settled is given again
  (`UnheardThrowHappens`; condition: `StreamingRefinesSplitting`). The handlers do so on an order of
  events that Node.js does not produce (`UnheardThrowIsNoChild`): on the events of a child process
  there is no condition (`ChildRunIsFaithful`).
- A package named `__proto__` is met but never recorded in the closure; if it depends on itself and is
  reachable, the search does not end (`EndlessHappens`, `EndlessNeverEnds`; otherwise it does,
  `SidecarDependencyClosure`).
- Keys of a printed record that the comparison ties are printed in the order of the file
  (`ObjectForgetsOrderExactlyWhen`).
- One idempotency key can be charged in both checkout ledgers (`OneKeyTwoLedgers`; condition:
  `SecondChargeExactlyWhen`), after which a lost upgrade response is never made good
  (`LostUpgradeIsNeverMadeGood`; conditions: `UpgradeReplays`, `LostUpgradeIsGivenByReplay`); and a plan
  change can settle into a negative balance (`SettlementMayOverdraw`; conditions: `PollsNeverOverdrawExactlyWhen`, `RunNeverOverdrawsExactlyWhen`).
- The log strips a replacement character that the message itself contains when the cut falls right
  behind it (`OwnReplacementIsLost`; condition: `CutKeepsWhatFitsExactlyWhen`).
- A NaN or an infinity in the YAML input is hashed as null (`NonFiniteIsLost`; condition:
  `TextIsFaithful`).

## Model

| member | source | states |
|---|---|---|
| `MutationGate.ExclusiveInEveryRun` | apps/desktop/src/mutations.ts:19-50 | after any sequence of admissions, settlements, blocks and releases the gate is blocked iff exactly one issued token is unreleased, the waiters are exactly the undrained tokens, nobody waits when the count is zero, and a drained holder runs alone |
| `MutationGate.TokensAreMonotone` | apps/desktop/src/mutations.ts:39-48 | over any run a resolved `drained` and a `released` flag never revert |
| `MutationGate.DrainedHolderRunsAlone` | apps/desktop/src/mutations.ts:19-42 | from the moment a token is drained to its release, however many events pass, no action is active and none is admitted |
| `MutationGate.HolderWaitsForAllWork` | apps/desktop/src/mutations.ts:19-48 | from any free gate, a holder that comes while any number of actions run keeps the gate, is drained iff all of them have settled, and frees the gate by its release |
| `MutationGate.LateReleaseChangesNothing` | apps/desktop/src/mutations.ts:43-48 | a repeated release, however late and whoever holds the gate by then, changes nothing |
| `MutationGate.EmptyReasonAdmitsWork` | apps/desktop/src/mutations.ts:15-20 | counterexample: with an empty reason the gate reports itself blocked by a drained holder and admits work |
| `MutationGate.HolderExcludesWorkExactlyWhen` | apps/desktop/src/mutations.ts:15-37 | a new holder keeps work out, and the gate exclusive, exactly when its reason is not empty |
| `MutationGate.LeaveKeeps` | apps/desktop/src/mutations.ts:25-32 | a settling action keeps the gate exclusive and changes no holder |
| `MutationGate.BlockKeeps` | apps/desktop/src/mutations.ts:35-42 | a block keeps the gate exclusive and, when it is not refused, makes the new token the holder |
| `MutationGate.ReleaseKeeps` | apps/desktop/src/mutations.ts:43-48 | a release keeps the gate exclusive; the holder's own release unblocks it and any other release is the identity |
| `MutationGate.DesktopMutations.RunEnter` | apps/desktop/src/mutations.ts:19-22 | the field updates of an admission equal `Enter`; a refused caller is told the holder's reason |
| `MutationGate.DesktopMutations.RunLeave` | apps/desktop/src/mutations.ts:25-32 | the loop over the waiters resolves exactly the waiting tokens when the last action leaves, and keeps the gate exclusive |
| `MutationGate.DesktopMutations.AcquireToken` | apps/desktop/src/mutations.ts:35-42 | the field updates of `block` equal `Block`; a refusal carries the reason of the present holder |
| `MutationGate.DesktopMutations.ReleaseToken` | apps/desktop/src/mutations.ts:43-48 | the field updates of `release` equal `Release`, a second call being the identity |
| `UpdateController.ClampPercent` | apps/desktop/src/update-state.ts:71-74 | the reported percentage is its input when that lies in 0..100, the nearer bound when it does not, and zero when it is not finite |
| `UpdateController.ReadyFollowsCheckAndDownload` | apps/desktop/src/update-state.ts:20-45 | in every event sequence `ready` is preceded by a check and then a download with no error since that check, and only in install mode |
| `UpdateController.DownloadFollowsCheck` | apps/desktop/src/update-state.ts:25-41 | in every event sequence a download is preceded by a check with no error in between, and only in install mode |
| `UpdateController.ReadyIsLeftOnlyByError` | apps/desktop/src/update-controller.ts:84-131 | a run that leaves `ready` contains an error report that put the machine in the error state |
| `UpdateController.ModeIsFixed` | apps/desktop/src/update-state.ts:24-24 | disabled is absorbing over every event sequence and no other mode ever reaches it |
| `UpdateController.TraceInvariants` | apps/desktop/src/update-controller.ts:60-91 | over every event sequence no version is announced twice, reported percentages stay in 0..100 and only install mode has an installation in flight |
| `UpdateController.CheckBeginsExactlyWhen` | apps/desktop/src/update-state.ts:26-27 | after any run, `checking-for-update` leads to checking exactly from idle, from the error state and from a version that is only shown; in any other state it changes nothing |
| `UpdateController.FruitlessCheck` | apps/desktop/src/update-state.ts:40-43 | after any run, a check that finds nothing ends idle and one that fails ends in the error state, from which the next check starts again |
| `UpdateController.FruitfulCheck` | apps/desktop/src/update-state.ts:28-39 | after any run, a check that finds a version shows it when checking only; when installing it is downloaded, the progress reported is the clamped one and what was fetched is ready |
| `UpdateController.AnnouncedExactlyWhenTold` | apps/desktop/src/update-controller.ts:61-83 | in every run a version has been announced iff some event found it while a version was then shown as available, or fetched it in install mode while one was then ready |
| `UpdateController.ToldIsShownExactlyWhen` | apps/desktop/src/update-controller.ts:67-82 | the version announced by an event is the one the state shows iff the event found the machine checking or downloading, or showing that version already |
| `UpdateController.UnshownVersionIsAnnounced` | apps/desktop/src/update-controller.ts:76-83 | counterexample: a second download reported while the first is ready is announced although the state shows the first |
| `UpdateController.DesktopUpdateController.HandleAvailable` | apps/desktop/src/update-controller.ts:61-71 | the `update-available` handler moves the fields as the specification of that event says |
| `UpdateController.DesktopUpdateController.HandleDownloaded` | apps/desktop/src/update-controller.ts:76-83 | the `update-downloaded` handler moves the fields as the specification of that event says |
| `UpdateController.DesktopUpdateController.HandleError` | apps/desktop/src/update-controller.ts:84-91 | the error handler moves the fields as specified and reports an installation failure exactly when one was in flight or the update was ready |
| `UpdateController.DesktopUpdateController.HandleRejectedCheck` | apps/desktop/src/update-controller.ts:104-114 | a rejected check moves the fields as specified |
| `UpdateController.DesktopUpdateController.InstallDownloadedUpdate` | apps/desktop/src/update-controller.ts:116-131 | refused exactly outside install mode, without a ready update or while installing; otherwise started, with `installing` set and the update still ready, exactly when `quitAndInstall` neither emits an error nor throws; a throw leaves `installing` clear |
| `ProtocolSafety.StepKeeps` | apps/desktop/src/update-install.ts:35-74 | every segment of every component, in any order, keeps the invariant that relates the gate, the tokens' owners, the attempts, the sign-outs and the exchanges |
| `ProtocolTheorems.RunKeepsSafe` | apps/desktop/src/update-install.ts:35-74 | the invariant holds after every run |
| `ProtocolTheorems.QuitIsAllowedOnlyWhenDrained` | apps/desktop/src/update-install.ts:57-64 | in every reachable state `allowQuit` implies an attempt in progress that holds the unreleased token with no active mutation and, on Windows, a completed stop step |
| `ProtocolTheorems.QuitInterruptsWorkExactlyWhen` | apps/desktop/src/main.ts:262-271 | in every reachable state with a ready update and work running a quit passes iff an uninstallation is under way; without one an undeferred quit finds no admitted work |
| `ProtocolTheorems.UninstallLetsQuitThrough` | apps/desktop/src/main.ts:1408-1431 | counterexample: a reachable state in which an uninstallation waits for its drain, an update is ready, an action runs and a quit passes |
| `ProtocolTheorems.EveryAttemptIsAccountedFor` | apps/desktop/src/update-install.ts:41-69 | in every reachable state: all attempts but the newest are over; an attempt that is over gave back its token and restored the services exactly once if the stop step reported true and never otherwise; when the newest is over every flag is reset |
| `ProtocolTheorems.ErrorAfterHandOver` | apps/desktop/src/update-controller.ts:84-91 | an updater error after hand-over is recovered iff the attempt is a restart or the update is still ready, and the recovery ends cleanly or is restoring the services |
| `ProtocolTheorems.QuitAttemptMayStayHandedOver` | apps/desktop/src/main.ts:262-266 | counterexample: a quit deferred for running work, an updater error while it waits, and a later one that leaves the attempt handed over with the gate blocked |
| `ProtocolTheorems.FailedRestartRecoversAtOnce` | apps/desktop/src/update-controller.ts:116-131 | a restart that is refused, or whose `quitAndInstall` emits an error or throws, is recovered within the same segment |
| `ProtocolProgress.ControllerHasItsOwnRun` | apps/desktop/src/main.ts:341-378 | in every reachable state of the application the updater is where some sequence of its own events leads it, so the laws of its runs hold inside the application |
| `ProtocolProgress.RestartIsHandedOverExactlyWhen` | apps/desktop/src/update-install.ts:57-68 | in every reachable state the segment that calls the `install` option leaves a restart handed over, `allowQuit` and `installing` set, the token still held and the update ready, iff the update was ready and `quitAndInstall` neither emits an error nor throws; otherwise it is recovered in that segment; a quit is always handed over |
| `ProtocolProgress.RestartIsReachable` | apps/desktop/src/main.ts:517-519 | on every platform and for every version a restart of a ready update with the gate drained, on Windows with its services stopping, is reached |
| `ProtocolProgress.RestartGoesThrough` | apps/desktop/src/update-install.ts:35-64 | and handed over |
| `ProtocolProgress.EveryHolderDrains` | apps/desktop/src/mutations.ts:19-42 | from every safe state all accepted work can settle without a step of anyone else, and then every issued token has drained: no holder waits for ever |
| `ProtocolProgress.WorkIsAdmittedExactlyWhen` | apps/desktop/src/mutations.ts:19-22 | in every reachable state an exchange or another action is admitted, and counted, iff nobody holds the gate; otherwise nothing changes |
| `ProtocolProgress.UninstallGivesBackExactlyWhen` | apps/desktop/src/main.ts:1427-1430 | in every reachable state the end of an uninstallation gives the gate back iff the application is not about to quit |
| `ProtocolProgress.QuitIsDeferredExactlyWhen` | apps/desktop/src/update-install.ts:22-33 | in every reachable state a quit is deferred iff no uninstallation is under way and either an attempt is in progress that was not handed over, or an update is ready and it is Windows, work is running or the gate is held |
| `ProtocolProgress.QuitGoesThroughExactlyWhen` | apps/desktop/src/main.ts:262-271 | in every reachable state a quit that is not deferred goes through and a deferred one begins an installation iff none is in progress and the gate is free |
| `ProtocolTheorems.RestorationEndsTheAttempt` | apps/desktop/src/update-install.ts:43-56 | whatever else happens, a restoration under way is left only by its own return, which ends the attempt cleanly; after that return it stays ended |
| `ProtocolTheorems.EndedStaysEnded` | apps/desktop/src/update-install.ts:45-54 | no run changes an attempt that is over |
| `ProtocolSafety.RecoverIsIdempotent` | apps/desktop/src/update-install.ts:43-56 | a second `recover` of the same attempt changes nothing |
| `ProtocolTheorems.HandedOutResultsAreIsolated` | apps/desktop/src/main.ts:522-546 | every exchange that handed out a result passed its recheck before a given sign-out began and settled before its revoke step, or was admitted after that sign-out released the gate and rechecked after it ended |
| `ProtocolTheorems.SignOutExcludesExchanges` | apps/desktop/src/main.ts:1434-1465 | while a sign-out holds the gate no exchange is admitted and one that rechecks is rejected; past its drain none is unsettled |
| `ProtocolTheorems.SecondReleaseIsHarmless` | apps/desktop/src/main.ts:1478-1481 | the release in the `finally` of sign-out leaves the gate as it is, even under a later holder |
| `ProtocolProgress.SignOutBeginsExactlyWhen` | apps/desktop/src/main.ts:1434-1437 | in every reachable state a sign-out begins, holding the gate, iff none is under way and the gate is free |
| `ProtocolProgress.EverySignOutCanFinish` | apps/desktop/src/main.ts:1442-1481 | from every safe state, whoever is working, the newest sign-out can be brought to its end, with its token released and `signingOut` clear |
| `ProtocolTraces.SignOutRunsEveryStep` | apps/desktop/src/main.ts:1448-1465 | in every run a sign-out whose token is released had revoked, cleared and logged out, in that order, each while it held the gate and nothing was running |
| `ProtocolTraces.ExchangeIsTurnedDownExactlyWhen` | apps/desktop/src/main.ts:524-541 | in every run an exchange is turned down iff some call it awaited failed or disagreed, or it found a sign-out at its first or last look; any other is where its resumptions have brought it |
| `ProtocolTraces.ResultIsHandedOutExactlyWhen` | apps/desktop/src/main.ts:524-541 | in every run a result is handed out iff the exchange went on three times and nothing turned it down |
| `UpdateInstallation.DesktopUpdateInstallation.Install` | apps/desktop/src/update-install.ts:35-42 | `install` up to its first await takes the objects where its segment takes the application, keeps it safe, and throws exactly when it was otherwise possible and another holder has the gate |
| `UpdateInstallation.DesktopUpdateInstallation.RecoverAttempt` | apps/desktop/src/update-install.ts:43-56 | the closure `recover` up to its await is its segment; it leaves `allowQuit` clear and the attempt over or being restored |
| `UpdateInstallation.DesktopUpdateInstallation.FinishRecoveryOf` | apps/desktop/src/update-install.ts:49-53 | the `finally` of the recovery is its segment |
| `UpdateInstallation.DesktopUpdateInstallation.RecoverAfterUpdaterFailure` | apps/desktop/src/update-install.ts:72-74 | `recoverAfterFailure` recovers the stored attempt, if any |
| `UpdateInstallation.DesktopUpdateInstallation.InvokeAttempt` | apps/desktop/src/update-install.ts:63-68 | calling the `install` option, the re-entrant error handler and the `catch` together are their segment |
| `UpdateInstallation.DesktopUpdateInstallation.HandOverAttempt` | apps/desktop/src/update-install.ts:61-68 | from the end of the stop step to the end of `install` is its segment |
| `UpdateInstallation.DesktopUpdateInstallation.ResumeAfterDrain` | apps/desktop/src/update-install.ts:58-59 | the segment after the drain, which stops the services on Windows and hands over elsewhere, and keeps the whole application safe |
| `UpdateInstallation.DesktopUpdateInstallation.ResumeAfterStop` | apps/desktop/src/update-install.ts:59-68 | the segment after the stop step, whether it reported or threw, and keeps the whole application safe |
| `UpdateInstallation.DesktopUpdateInstallation.ShouldDeferQuitNow` | apps/desktop/src/update-install.ts:22-33 | the deferral decision in terms of the installer, the updater and the gate |
| `RevisionProgram.Recorder.ListFiles` | scripts/clawdi-deployment-lag.ts:118-121 | a listing returns the files under the root and records the root |
| `RevisionProgram.Recorder.ReadText` | scripts/clawdi-deployment-lag.ts:122-125 | a read returns the text or fails, and records the path either way |
| `RevisionProgram.Recorder.ReadAll` | scripts/clawdi-image-release-plan.ts:63-66 | the loop over a listing reads exactly the wanted files and records exactly their paths |
| `RevisionProgram.Recorder.Evaluate` | scripts/clawdi-deployment-lag.ts:115-133 | running the program through the recorder gives its outcome together with its footprint |
| `RevisionProgram.SuccessReadsEverything` | scripts/clawdi-image-release-plan.ts:48-81 | a run that succeeds recorded every required path and every listed root |
| `RevisionProgram.ReadsStayCovered` | scripts/clawdi-deployment-lag.ts:113-133 | on any snapshot, successful or not, the program reads only what a covering footprint covers |
| `RevisionProgram.AgreementDecides` | scripts/clawdi-deployment-lag.ts:113-133 | two snapshots that agree on the covered files give the same texts and listings, or the same failure |
| `RevisionProgram.FootprintIsSound` | scripts/clawdi-deployment-lag.ts:113-133 | the footprint of a successful run covers every read on any other snapshot and decides the outcome on any two that agree on it |
| `RevisionProgram.SuccessIsBacked` | scripts/clawdi-deployment-lag.ts:115-128 | the texts of a successful run are those of the snapshot |
| `RevisionProgram.StepIsRead` | scripts/clawdi-deployment-lag.ts:115-128 | a successful run holds every file one of its steps reads |
| `RevisionProgram.CheckPassed` | scripts/clawdi-image-release-plan.ts:55-72 | each contract check of a successful run passed on the snapshot's own texts |
| `ProgramRuns.RunSucceedsExactlyWhen` | scripts/clawdi-deployment-lag.ts:115-131 | a run succeeds iff every required file is there and every contract accepts what the steps before it read of the snapshot, in closed form, and then knows exactly what its steps read; otherwise it fails at the first step that does not pass |
| `ImageRevisions.BackendInputsAreFiles` | scripts/clawdi-image-release-plan.ts:51-66 | the backend inputs of a successful run are exactly `.dockerignore`, the native provider list if present and every file under `backend` outside its tests, with their texts |
| `ImageRevisions.DeploySteps` | scripts/clawdi-image-release-plan.ts:67-72 | the deployment inputs hold the extracted deploy steps, which a successful run requires to exist |
| `ImageRevisions.DeploymentInputsAreFiles` | scripts/clawdi-image-release-plan.ts:73-87 | each of the four deployment files contributes its text, or its missing marker iff it is absent |
| `ImageRevisions.SidecarInputsAreFiles` | scripts/whatsapp-sidecar-deployment-revision.ts:57-65 | the sidecar inputs are exactly the six direct files, which must exist, and the sources that are not tests, with their texts |
| `ImageRevisions.SidecarExtracts` | scripts/whatsapp-sidecar-deployment-revision.ts:66-73 | the sidecar inputs hold the dependency closure and the accessory, which a successful run requires to exist |
| `ProgramRuns.RevisionsExistExactlyWhen` | scripts/clawdi-image-release-plan.ts:48-81 | a snapshot has image revisions iff its eleven required files are there, both Docker contracts accept their texts and the deploy steps, the closure and the accessory can be extracted |
| `ImageRevisions.ProgramIsSelfContained` | scripts/clawdi-image-release-plan.ts:48-87 | the image revision program takes files only from directories it lists, sidecar part included |
| `ImageRevisions.RevisionsDependOnFootprint` | scripts/clawdi-image-release-plan.ts:48-81 | snapshots that agree on the files covered by a successful run have the same three revisions or fail the same way |
| `RevisionDigest.EncodedIsInjective` | scripts/clawdi-image-release-plan.ts:198-199 | the UTF-8 bytes fed to the hash determine the text |
| `RevisionDigest.DigestExists` | scripts/clawdi-image-release-plan.ts:195-202 | every hash and every comparison, one that ties included, have a digest that hashes each map in an order of its own |
| `RevisionDigest.FramesDetermine` | scripts/clawdi-image-release-plan.ts:195-202 | maps of texts with the same hashed bytes are equal, in whatever orders they were filled and for every comparison |
| `RevisionDigest.DigestSeparates` | scripts/clawdi-image-release-plan.ts:195-202 | with a hash injective on bytes the digest of the sorted, framed entries separates exactly the different maps of texts, for every comparison, one that ties included |
| `RevisionDigest.ReleaseRequiredExactly` | scripts/clawdi-image-release-plan.ts:153-165 | with a hash injective on bytes and for every comparison a release is required iff one of the three input maps changed |
| `RevisionDigest.LagIsEarliestInputChange` | scripts/clawdi-deployment-lag.ts:101-160 | with a hash injective on bytes, for every comparison and complete listings, the lag names the first commit at which one of the three input maps differs from the deployed ones, and is none iff HEAD has the same ones |
| `ReleaseContent.ExtractionsExist` | scripts/clawdi-image-release-plan.ts:123-151 | every pair of parsers has the deploy-step and closure extractions that the theorems below speak of |
| `ReleaseContent.InputsTellContent` | scripts/clawdi-image-release-plan.ts:51-80 | snapshots with the same input maps have the same content, that is backend files, steps as executed, invoked files, sidecar files, closure as a value and accessory; and conversely where the comparison orders the printed keys |
| `ReleaseContent.ReleaseRequiredExactlyWhen` | scripts/clawdi-image-release-plan.ts:48-165 | no change of the content goes without a release, for every comparison; where it orders the printed keys a release is required iff the content changed |
| `ReleaseContent.LockChangeNeedsReleaseExactlyWhen` | scripts/whatsapp-sidecar-deployment-revision.ts:54-81 | a change of `bun.lock` alone requires a release if, and where the comparison orders the printed keys only if, it changes the dependency closure up to key order |
| `ReleaseContent.LagIsEarliestContentChange` | scripts/clawdi-deployment-lag.ts:101-160 | the lag names the first commit whose content differs from the deployed one, and is none iff HEAD's does not |
| `DeployWorkflow.ProjectionTells` | scripts/clawdi-image-release-plan.ts:143-150 | two projected steps are equal up to key order iff their `uses`, `with`, `env` and `run` are, presence included |
| `DeployWorkflow.ContractTells` | scripts/clawdi-image-release-plan.ts:139-150 | two execution contracts are equal up to key order iff, step by step, the same is executed |
| `LockReading.StepsAreFoundExactlyWhen` | scripts/clawdi-image-release-plan.ts:139-151 | the extraction finds exactly the steps of `jobs.deploy-vps`, iff there are some and none is null or a list |
| `LockFile.ClosureRecord` | scripts/whatsapp-sidecar-deployment-revision.ts:83-118 | from the parsed lock file on, the search throws iff the graph is missing or some request is broken, and otherwise returns exactly the reachable packages with their own records |
| `LockFile.ClosureMeans` | scripts/whatsapp-sidecar-deployment-revision.ts:83-118 | the closure is a record whose value does not depend on the order in which its packages were met |
| `LockReading.LockIsRead` | scripts/whatsapp-sidecar-deployment-revision.ts:83-99 | a parsed lock file is read as a package graph iff, member by member, it holds that graph: the workspace and package records, the third item of each package, its `os` and `cpu` constraints and its four lists of names |
| `DeploymentLag.ComputeLag` | scripts/clawdi-deployment-lag.ts:101-160 | the recording run, the early return and the commit loop compute the filtered walk |
| `DeploymentLag.SkippedChangesNothing` | scripts/clawdi-deployment-lag.ts:143-151 | a commit whose listing is not covered evaluates as its parent does |
| `DeploymentLag.FilterRefinesFullWalk` | scripts/clawdi-deployment-lag.ts:134-159 | skipping by the footprint returns exactly what evaluating every commit returns, failing evaluations included |
| `DeploymentLag.LagIsEarliestChange` | scripts/clawdi-deployment-lag.ts:141-159 | evaluating every commit gives none iff HEAD has the deployed revisions, and otherwise the first commit whose revisions differ with its age; the "no evidence" error is never reached |
| `DeploymentLag.ImageLagIsEarliestChange` | scripts/clawdi-deployment-lag.ts:101-160 | the same of the filtered walk for the image revisions and complete listings |
| `DeploymentLag.CompleteListingsSuffice` | scripts/clawdi-deployment-lag.ts:144-148 | a diff that names every changed path satisfies the hypothesis on listings for every footprint |
| `DeploymentLag.EarliestChangeIsFoundExactlyWhenListed` | scripts/clawdi-deployment-lag.ts:143-159 | the walk returns the earliest differing commit iff that commit's own listing names a covered path |
| `HiddenRename.MovedRun` | scripts/clawdi-image-release-plan.ts:73-87 | moving the deploy script out of the footprint leaves the revision program successful, having read everything else as before |
| `HiddenRename.RenameHidesTheChange` | scripts/clawdi-deployment-lag.ts:144-159 | counterexample family: for every deployed tree with the deploy script on which the image revisions can be computed, moving the script out of the footprint in a commit listed only under the new name changes the revisions and ends the walk in the "no evidence" error |
| `NameOrder.SortByName` | scripts/clawdi-image-release-plan.ts:197-197 | the sort is a permutation of its input |
| `NameOrder.SortSorts` | scripts/clawdi-image-release-plan.ts:197-197 | entries with distinct names come out strictly increasing |
| `NameOrder.SortedIsUnique` | scripts/whatsapp-sidecar-deployment-revision.ts:76-76 | a set of names has one increasing enumeration |
| `NameOrder.SortForgetsOrderExactlyWhen` | scripts/clawdi-image-release-plan.ts:197-197 | the sort gives one result for every order of insertion iff the comparison ties on no two of the names |
| `HashFraming.HashStream` | scripts/clawdi-image-release-plan.ts:195-202 | the loop of `hash.update` calls feeds the framed entries in name order |
| `HashFraming.DecimalInjective` | scripts/clawdi-image-release-plan.ts:198-198 | a length prefix determines the length |
| `HashFraming.FrameInjective` | scripts/clawdi-image-release-plan.ts:195-202 | the framed bytes determine the whole sequence of entries |
| `HashFraming.StreamDeterminesMap` | scripts/whatsapp-sidecar-deployment-revision.ts:75-79 | two maps give the same bytes iff they hold the same entries, whatever their insertion order |
| `HashFraming.StreamHoldsContents` | scripts/clawdi-image-release-plan.ts:195-202 | equal bytes come from equal entries, for every comparison |
| `FrameReader.StreamIsRead` | scripts/clawdi-image-release-plan.ts:195-202 | a reader written from the format alone (decimal length, colon, bytes, colon) returns the hashed entries in their order |
| `FrameReader.HashedStreamIsRead` | scripts/clawdi-image-release-plan.ts:197-200 | and for a map its own entries, in the order of their names |
| `HashFraming.StreamForgetsOrderExactlyWhen` | scripts/clawdi-image-release-plan.ts:195-202 | the bytes are the same for every order of insertion iff the comparison ties on no two names |
| `HashFraming.DigestSeparatesMaps` | scripts/clawdi-image-release-plan.ts:195-202 | with an injective hash two maps have the same digest iff they hold the same entries |
| `CanonicalJson.BodySplits` | scripts/clawdi-image-release-plan.ts:205-213 | quoted text ends at its own closing quote and determines the string, lone and paired surrogates included |
| `CanonicalJson.QuoteSplits` | scripts/clawdi-image-release-plan.ts:206-213 | a quoted string followed by anything determines the string and what follows |
| `CanonicalJson.ReadBack` | scripts/clawdi-image-release-plan.ts:204-215 | a printed value followed by whatever may follow one determines its meaning and where it ends |
| `CanonicalJson.PrintRespectsMeaning` | scripts/whatsapp-sidecar-deployment-revision.ts:244-257 | trees equal up to key order print the same text |
| `CanonicalJson.TextIsFaithful` | scripts/clawdi-image-release-plan.ts:204-215 | where the comparison orders the keys, two trees print the same text iff they are equal up to key order, a non-finite number counting as null |
| `CanonicalJson.TextDeterminesMeaning` | scripts/clawdi-image-release-plan.ts:204-215 | equal texts come from trees equal up to key order, for every comparison |
| `JsonReader.PrintIsReadBack` | scripts/clawdi-image-release-plan.ts:204-215 | a reader of RFC 8259 text, written on its own, returns from the printed text the value of the tree, up to key order and with non-finite numbers as null |
| `JsonReader.BodyIsRead` | scripts/clawdi-image-release-plan.ts:204-215 | the escapes of section 7 of RFC 8259 are read back to the string they quote |
| `CanonicalJson.ObjectForgetsOrderExactlyWhen` | scripts/whatsapp-sidecar-deployment-revision.ts:251-256 | a record prints the same for every order of its members iff the comparison ties on no two of its keys |
| `Utf16.ScalarsInjective` | scripts/whatsapp-sidecar-deployment-revision.ts:77-78 | strings without lone surrogates are determined by their scalar values |
| `Utf16.PrintIsPaired` | scripts/whatsapp-sidecar-deployment-revision.ts:244-257 | printed JSON has no lone surrogates, whatever its strings hold |
| `Utf16.QuotedAsItselfExactlyWhen` | scripts/clawdi-image-release-plan.ts:204-207 | a string is quoted as it stands iff its surrogates are paired and it holds neither a quote, a backslash nor a control unit: nothing else is escaped |
| `Utf16.EscapeLength` | scripts/clawdi-image-release-plan.ts:204-207 | a unit takes two units when it has an escape letter of its own, six when it is another control or a lone surrogate, and otherwise one |
| `Utf16.HashedTextIsFaithful` | scripts/whatsapp-sidecar-deployment-revision.ts:68-78 | what is hashed of a printed tree determines the tree up to key order, and is determined by it where the comparison orders its keys |
| `CanonicalJson.NonFiniteIsLost` | scripts/whatsapp-sidecar-deployment-revision.ts:245-248 | a non-finite number prints as null does |
| `CanonicalJson.PrintedNumbersQualify` | scripts/clawdi-image-release-plan.ts:204-207 | every number text with a sign, digits, a fraction and an exponent is one the text laws cover |
| `DependencyClosure.PlatformLaws` | scripts/whatsapp-sidecar-deployment-revision.ts:183-190 | what each further entry does to a platform constraint: denying the target refuses it, naming it accepts it unless denied, naming only others refuses it, denying others changes nothing |
| `DependencyClosure.ExistingKeyResolvesExactlyWhen` | scripts/whatsapp-sidecar-deployment-revision.ts:156-175 | a key that exists resolves, and only such a key, except under an empty parent |
| `DependencyRules.ResolutionIsNestedFirst` | scripts/whatsapp-sidecar-deployment-revision.ts:156-167 | inside a non-empty parent a name resolves to the key nested there iff that is a package, otherwise to the name itself iff that is one; in the workspace and inside an empty key only to the name itself |
| `DependencyClosure.InstallDependencies` | scripts/whatsapp-sidecar-deployment-revision.ts:120-154 | throws iff some optional dependency does not resolve, and otherwise returns the required, the matching optional and the present non-optional peer dependencies |
| `DependencyClosure.Visit` | scripts/whatsapp-sidecar-deployment-revision.ts:101-114 | one round of the worklist throws only on a request the search is bound to meet, and otherwise is a round of the specification that brings the end closer unless the search is endless |
| `DependencyClosure.FinishedIsLeast` | scripts/whatsapp-sidecar-deployment-revision.ts:100-117 | with nothing pending the collected keys are exactly the reachable ones and no request was broken |
| `DependencyClosure.SidecarDependencyClosure` | scripts/whatsapp-sidecar-deployment-revision.ts:83-118 | on any lock file, cyclic ones included, but one with a reachable `__proto__` package that depends on itself, and for any order of popping: terminates, throws iff some request of the reachable graph is broken, and otherwise collects exactly the reachable packages other than `__proto__` with their own records |
| `DependencyRules.ClosureIsLeastComplete` | scripts/whatsapp-sidecar-deployment-revision.ts:83-154 | the reachable keys are the least set that has every workspace dependency for the target and, with a package, everything its record asks for: its dependencies, its optional dependencies for linux and x64, and its present non-optional peers, each in its nested-first meaning and only if for the target |
| `DependencyRules.NestedIsTakenFirst` | scripts/whatsapp-sidecar-deployment-revision.ts:156-167 | what a member of the closure asks for is taken from the package nested in it if there is one, and from top level only otherwise |
| `DependencyRules.SearchThrowsExactlyWhen` | scripts/whatsapp-sidecar-deployment-revision.ts:105-140 | the search throws iff the workspace names a missing or malformed package, or a member of the closure lists an optional dependency that means nothing or asks for a name that means nothing or a malformed record |
| `DependencyClosure.RoundKeeps` | scripts/whatsapp-sidecar-deployment-revision.ts:100-115 | every round keeps the invariant that what was met is reachable and that what it needs is met or pending |
| `DependencyClosure.EndlessNeverEnds` | scripts/whatsapp-sidecar-deployment-revision.ts:104-108 | with a reachable `__proto__` package that depends on itself something is pending after any number of rounds, whatever is popped |
| `DependencyClosure.EndlessHappens` | scripts/whatsapp-sidecar-deployment-revision.ts:104-108 | counterexample family: lock files with that one package, in which nothing is broken |
| `Reachability.ReachableIsInClosed` | scripts/whatsapp-sidecar-deployment-revision.ts:100-115 | every closed set contains the reachable nodes, so the reachable set is the least closed one |
| `OpenApiFilter.Sink.Walk` | scripts/filter-deploy-openapi.py:119-131 | the recursive walk adds exactly the strings that stand at a `$ref` key at the end of some path of entries and items |
| `OpenApiNodes.WalkFindsExactly` | scripts/filter-deploy-openapi.py:119-131 | a reference is found iff some path of entry and item indices leads to a record one of whose entries is that reference |
| `OpenApiFilter.KeepPaths` | scripts/filter-deploy-openapi.py:145-167 | fails iff an allowlisted operation is missing, and otherwise keeps exactly the allowlisted operations and shared keys |
| `OpenApiFilter.VisitSchema` | scripts/filter-deploy-openapi.py:177-192 | one round of the search keeps its invariant and makes progress, or has met a reachable schema that does not exist |
| `OpenApiFilter.SearchSchemas` | scripts/filter-deploy-openapi.py:169-192 | on any schema graph, cyclic ones included: terminates, fails iff a reachable schema does not exist, and otherwise finds exactly the reachable ones |
| `OpenApiFilter.FilterSpec` | scripts/filter-deploy-openapi.py:141-205 | fails iff an operation or a reachable schema is missing, and otherwise returns the kept operations with exactly the schemas reachable from them |
| `OpenApiPositions.KeptMembers` | scripts/filter-deploy-openapi.py:152-156 | the kept part of a path item has exactly the shared entries and the allowlisted methods |
| `OpenApiPositions.KeptParts` | scripts/filter-deploy-openapi.py:152-156 | each part of it comes from that part of the item, in order |
| `OpenApiPositions.NeededExactlyWhen` | scripts/filter-deploy-openapi.py:169-193 | a schema is needed iff a chain of mentions leads to it from a kept operation, each mention standing at some position |
| `OpenApiPositions.FilterByPositions` | scripts/filter-deploy-openapi.py:141-205 | the filter fails iff an allowlisted path or method is missing or such a chain leads to a schema that does not exist; otherwise the output has the kept entries of the allowlisted paths, exactly the schemas chains lead to, and the given or default heading |
| `OpenApiPositions.NothingDangles` | scripts/filter-deploy-openapi.py:169-205 | every schema mentioned anywhere in the output, in an operation or a schema and at any depth, is in the output |
| `OpenApiFilter.OutputIsSelfContained` | scripts/filter-deploy-openapi.py:194-205 | every schema reference in the output, from an operation or a schema, resolves in the output |
| `OpenApiFilter.FilterIsIdempotent` | scripts/filter-deploy-openapi.py:141-205 | filtering the output again gives the same output |
| `OpenApiFilter.FilterIsDetermined` | scripts/filter-deploy-openapi.py:141-205 | the promise of the filter leaves one possible result |
| `CheckoutLedger.WealthIsConstant` | scripts/ui-parity/fixture-api.ts:2787-3275 | in every request sequence the balance plus the debits recorded in the three ledgers is constant, and the ledgers stay orderly |
| `CheckoutLedger.BalanceIsAccountedFor` | scripts/ui-parity/fixture-api.ts:2787-3275 | from a fresh server the balance is the initial one minus both ledgers' checkout debits minus what settled plan changes took; a deferred subscription is applied at most once and an operation settles at most once |
| `CheckoutLedger.LedgersOnlyGrow` | scripts/ui-parity/fixture-api.ts:2912-3094 | in every request sequence a recorded charge keeps its body, activation and debit, and a settled operation stays as it is |
| `CheckoutLedger.CheckoutReplays` | scripts/ui-parity/fixture-api.ts:2787-2795 | a charged key, whatever happened in between, answers the same body with the first activation and refuses any other, changing nothing |
| `CheckoutLedger.UpgradeReplays` | scripts/ui-parity/fixture-api.ts:2989-3044 | after a recorded upgrade, its first response lost or not, the same body is answered with the first activation iff the deployment is still there and the other ledger has not charged the key; the subscription has then been applied once and a further replay changes nothing; no reply changes the balance |
| `CheckoutLedger.DoubleChargedUpgradeIsStuck` | scripts/ui-parity/fixture-api.ts:2791-2796 | once the other ledger has the key too, no request sequence changes the upgrade entry: a subscription not applied by then never is |
| `CheckoutLedger.UpgradeKeyIsChargedOnce` | scripts/ui-parity/fixture-api.ts:2989-3095 | whatever its body, no later upgrade request under a charged key takes money again |
| `CheckoutLedger.NoCheckoutOverdraws` | scripts/ui-parity/fixture-api.ts:2832-3078 | no checkout debit of either ledger takes a non-negative balance below zero |
| `CheckoutLedger.QuoteIsFair` | scripts/ui-parity/fixture-api.ts:3117-3180 | a stored quote is a switch iff the card paid and the wallet is to, keeping plan and term at no cost; otherwise an upgrade iff the term gets longer or the monthly price rises, and else a downgrade; it is charged to the wallet iff it is an upgrade the wallet is to pay, with the difference to the price already paid, and its target is what was asked for at the list price |
| `CheckoutLedger.QuoteIsRefusedExactlyWhen` | scripts/ui-parity/fixture-api.ts:3121-3136 | a quote is refused iff there is no subscription to change, the wanted plan is not on offer, or a card would have to be given |
| `CheckoutLedger.OperationsFollowQuotes` | scripts/ui-parity/fixture-api.ts:3223-3274 | in every request sequence quotes never change and each operation carries out the quote whose id it has |
| `CheckoutLedger.OneKeyTwoLedgers` | scripts/ui-parity/fixture-api.ts:2791-2796 | counterexample: one key is charged once in each ledger |
| `CheckoutLedger.LostUpgradeIsNeverMadeGood` | scripts/ui-parity/fixture-api.ts:2791-3094 | counterexample: from a fresh server, an upgrade whose response is lost and a second charge of its key leave an empty wallet and, after any further requests, an upgrade paid for and not applied |
| `CheckoutLedger.SecondChargeExactlyWhen` | scripts/ui-parity/fixture-api.ts:2791-2840 | a key charged for an upgrade is charged a second time iff the request is a current, matching and affordable confirmation of a new subscription under that key |
| `CheckoutLedger.PollsNeverOverdrawExactlyWhen` | scripts/ui-parity/fixture-api.ts:3181-3222 | no sequence of polls makes the balance negative iff it covers the sum of all pending debits |
| `CheckoutLedger.RunNeverOverdrawsExactlyWhen` | scripts/ui-parity/fixture-api.ts:3181-3275 | after any run from a fresh server no later settlement can overdraw the wallet, whatever the other handlers do, iff what the run charged and accepted adds up to at most the initial balance |
| `CheckoutLedger.CommittedIsRecorded` | scripts/ui-parity/fixture-api.ts:2787-3275 | what a run charged and accepted is the sum of both checkout ledgers, the settled and the outstanding plan changes |
| `LedgerEffects.UpgradeIsChargedExactlyWhen` | scripts/ui-parity/fixture-api.ts:3033-3094 | an upgrade is charged iff a fresh key confirms a current quote of the offered price for a deployment that waits for a subscription and the balance covers it; it is refused with 402 iff only the balance is missing |
| `LedgerEffects.UpgradeGivesWhatItCharges` | scripts/ui-parity/fixture-api.ts:3078-3094 | after a charge the deployment has the plan and term offered, the wallet as payer and the price that was taken, is no longer subscribable, and no other deployment has changed; under a lost response only the money has moved |
| `LedgerEffects.LostUpgradeIsGivenByReplay` | scripts/ui-parity/fixture-api.ts:3035-3044 | after a lost response and any further requests, the first replay that is answered gives the deployment exactly what was charged at no further cost, and a later one changes nothing |
| `LedgerEffects.ExistingIsAssignedExactlyWhen` | scripts/ui-parity/fixture-api.ts:3014-3031 | a reusable subscription is assigned iff it is there, paid by card or wallet, and no quote comes along; the deployment then has its values, it is no longer reusable and no money moves |
| `LedgerEffects.NewIsChargedExactlyWhen` | scripts/ui-parity/fixture-api.ts:2797-2913 | a new subscription is charged iff a current quote of the offered price and the present balance is confirmed under the request's own key within the balance; its deployment is then there |
| `LedgerEffects.NewRefusalTells` | scripts/ui-parity/fixture-api.ts:2789-2841 | which of 400, 409 and 402 a refused new subscription gets |
| `LedgerEffects.UpgradeRefusalTells` | scripts/ui-parity/fixture-api.ts:2990-3077 | which of 404, 400, 409 and 402 a refused upgrade gets |
| `LedgerEffects.AnotherBodyIsRefused` | scripts/ui-parity/fixture-api.ts:2792-2795 | a key charged for one body answers any other body with 409 and changes nothing, in either ledger |
| `LedgerEffects.SettlementGivesTheQuote` | scripts/ui-parity/fixture-api.ts:3181-3222 | a due plan change that is read takes its amount and gives the deployment the quoted plan, term, payer and price, or for a downgrade changes only the pending plan; anything not due changes nothing |
| `LedgerEffects.ChangeBeginsExactlyWhen` | scripts/ui-parity/fixture-api.ts:3223-3274 | a plan change begins iff its own key comes with a current quote, for a deployment that is there, within the balance |
| `LedgerEffects.RepeatedChangeIsRead` | scripts/ui-parity/fixture-api.ts:3229-3230 | a change accepted before is only read, and answered as before unless it is due and its deployment is gone |
| `LedgerEffects.ChangeTakesEffectExactlyWhen` | scripts/ui-parity/fixture-api.ts:3268-3274 | an accepted change takes effect at once for a switch or a downgrade, three seconds later for an upgrade, and never when changes do not finish |
| `CheckoutLedger.SettlementMayOverdraw` | scripts/ui-parity/fixture-api.ts:3117-3275 | counterexample: from a fresh server, a quoted and accepted upgrade, then a checkout the balance still covers, then a settlement that drives it below zero |
| `FixtureServer.LedgerServer.PostCheckout` | scripts/ui-parity/fixture-api.ts:2787-2914 | the handler's in-place updates and reply equal the specification, every refusal included; ledgers only grow and account for every change of the balance |
| `FixtureServer.LedgerServer.PostNew` | scripts/ui-parity/fixture-api.ts:2797-2914 | the new-subscription part of the handler equals its specification |
| `FixtureServer.LedgerServer.PostUpgrade` | scripts/ui-parity/fixture-api.ts:2989-3077 | the upgrade handler's updates and reply equal the specification, every refusal included |
| `FixtureServer.LedgerServer.TakeUpgrade` | scripts/ui-parity/fixture-api.ts:3078-3094 | the debit with its lost-response mode equals the specification |
| `FixtureServer.LedgerServer.ApplySubscription` | scripts/ui-parity/fixture-api.ts:2917-2941 | a subscription is applied to the deployment with that id, if there is one |
| `FixtureServer.LedgerServer.ReadPlanChange` | scripts/ui-parity/fixture-api.ts:3181-3222 | a due operation settles when it is read, and the read throws iff its deployment is gone; ledgers only grow and account for every change of the balance |
| `FixtureServer.LedgerServer.SettleOperation` | scripts/ui-parity/fixture-api.ts:3187-3219 | the settlement updates the wallet, the deployment and the operation as specified |
| `FixtureServer.LedgerServer.PostPlanQuote` | scripts/ui-parity/fixture-api.ts:3117-3180 | the quote handler stores the quote of the specification or refuses as it does |
| `FixtureServer.LedgerServer.PostPlanChange` | scripts/ui-parity/fixture-api.ts:3223-3275 | acceptance, replay and every refusal of a plan change, the mismatched idempotency key included, equal the specification; ledgers only grow and account for every change of the balance |
| `StringLexer.SkipPastIsFirst` | apps/mobile/scripts/theme.ts:167-170 | what is left is what follows the first occurrence of the marker, or nothing when there is none |
| `StringLexer.SkipsToMarker` | apps/mobile/scripts/theme.ts:167-170 | the skip goes to just after the first occurrence of the marker |
| `StringLexer.BlockCommentIsSkippedExactlyWhen` | apps/mobile/scripts/theme.ts:206-206 | a block comment is skipped as a whole iff its text does not begin with a slash |
| `StringLexer.QuotedIsRead` | apps/mobile/scripts/theme.ts:176-184 | a printed quoted string is read back as its characters, whatever follows |
| `StringLexer.ChunkIsRead` | apps/mobile/scripts/theme.ts:185-196 | a printed template chunk is read back up to the closing backtick or the next hole |
| `StringLexer.PartsAreRead` | apps/mobile/scripts/theme.ts:185-199 | a printed template with nested holes is read back as its chunks and its holes' literals in order |
| `StringLexer.CodeIsRead` | apps/mobile/scripts/theme.ts:200-215 | the scan of printed code followed by anything collects the tree's literals and goes on with what follows at the same brace depth |
| `StringLexer.LiteralsRoundTrip` | apps/mobile/scripts/theme.ts:173-218 | printing any well-formed tree of code, comments, strings and templates, ended by the end of the source or by a comment that runs up to it, and scanning it returns exactly its literal contents in source order |
| `LexerEndings.UnfinishedSourceIsRead` | apps/mobile/scripts/theme.ts:173-218 | a source that ends inside a comment, a string, a template, a hole or braces, however deep, yields the literals of what is complete and of what is not, in source order |
| `LexerEndings.TextsCanBeQuoted` | apps/mobile/scripts/theme.ts:176-184 | any texts are the literals of some source of quoted strings, with either quote |
| `LexerEndings.TextsCanBeTemplate` | apps/mobile/scripts/theme.ts:185-199 | any texts but none are the literals of one template |
| `StringLexer.SlashCommentIsMisread` | apps/mobile/scripts/theme.ts:206-206 | counterexample: a string inside a comment that begins with a slash is reported |
| `StringLexer.Scanner.ReadQuoted` | apps/mobile/scripts/theme.ts:176-184 | the loop over the shared index pushes the content and stops where the specification does, on any input |
| `StringLexer.Scanner.ReadChunk` | apps/mobile/scripts/theme.ts:186-196 | the template loop up to a hole or the end, on any input |
| `StringLexer.Scanner.ReadTemplate` | apps/mobile/scripts/theme.ts:185-199 | the template reader pushes the literals of the specification and stops where it does, on any input |
| `StringLexer.Scanner.ReadPiece` | apps/mobile/scripts/theme.ts:202-213 | one round of the code loop: literals pushed, position and brace depth, on any input |
| `StringLexer.Scanner.ReadCode` | apps/mobile/scripts/theme.ts:200-215 | the mutually recursive scan terminates on any input, malformed or not, with the literals and position of the specification |
| `StringLexer.CollectLiterals` | apps/mobile/scripts/theme.ts:173-218 | the scanner as it is run returns the literals of the specification |
| `Utf8.DecodeOfCut` | apps/desktop/src/logging.ts:66-71 | cutting an encoding after any number of bytes and decoding it keeps the characters that fit, and one replacement character iff the cut falls inside a sequence |
| `Utf8.DecodeEncodes` | apps/desktop/src/logging.ts:66-66 | decoding an encoding gives the text back |
| `Utf8.CutIsPrefix` | apps/desktop/src/logging.ts:68-71 | however the cut falls, the text kept is a prefix in whole characters within the bytes allowed |
| `Utf8.FittingIsMaximal` | apps/desktop/src/logging.ts:66-71 | one more character than those kept would exceed the bytes allowed |
| `Utf8.CutKeepsWhatFitsExactlyWhen` | apps/desktop/src/logging.ts:68-71 | the cut keeps everything that fits iff the last character to fit exactly is not itself U+FFFD |
| `LogRotation.OwnReplacementIsLost` | apps/desktop/src/logging.ts:66-72 | counterexample family: every over-long line whose cut falls right behind a U+FFFD of the message is recorded without it |
| `LogRotation.RecordFits` | apps/desktop/src/logging.ts:65-72 | every record, truncated or not, is non-empty and at most `maxBytes` |
| `LogRotation.RotationContents` | apps/desktop/src/logging.ts:78-85 | a rotation moves every file up one number and drops at most the last |
| `LogRotation.WriteKeeps` | apps/desktop/src/logging.ts:64-76 | a write keeps the files bounded and gaplessly numbered, ends them with its record, and drops exactly the oldest file when every backup is in use and the record does not fit, nothing otherwise |
| `LogRotation.WriteKeepsPacked` | apps/desktop/src/logging.ts:73-75 | every write leaves each backup too full for the record that was put after it: rotation happens only when it must |
| `LogRotation.LogIsBoundedSuffix` | apps/desktop/src/logging.ts:53-85 | after any sequence of writes to a fresh directory every file is within `maxBytes`, at most `backups + 1` files exist without a gap, and oldest to newest they hold a contiguous suffix of the written records that ends with the last; no backup had room for the record after it, and nothing is lost until every file is in use |
| `LogRotation.DesktopFileLog.Write` | apps/desktop/src/logging.ts:64-76 | the in-place write equals the specification |
| `LogRotation.DesktopFileLog.Rotate` | apps/desktop/src/logging.ts:78-85 | the renaming loop equals the specification of a rotation |
| `CommandRunner.LinesResume` | apps/desktop/src/command-runner.ts:85-95 | splitting a stream may be resumed from its unfinished tail at any chunk boundary |
| `CommandRunner.DeliverFollowsLines` | apps/desktop/src/command-runner.ts:89-95 | the delivery loop gives the lines of what it holds in order, up to one it throws on |
| `CommandRunner.DeliverThrowsExactlyWhen` | apps/desktop/src/command-runner.ts:89-103 | the delivery loop throws iff the callback throws on one of the lines held, given after the others |
| `CommandRunner.StderrIsFaithfulExactlyWhen` | apps/desktop/src/command-runner.ts:85-104 | a chunk keeps the callback in step with the stream iff the run is not settled without a termination before a line on which the callback throws |
| `CommandRunner.UnheardThrowRepeatsTheLine` | apps/desktop/src/command-runner.ts:62-104 | counterexample: after a settlement, a line the callback throws on is given again by the `close` event |
| `CommandRunner.UnheardThrowHappens` | apps/desktop/src/command-runner.ts:85-126 | counterexample: the run of a child that reports an error, writes a line the callback throws on and closes gives that line twice |
| `CommandRunner.UnheardThrowIsNoChild` | apps/desktop/src/command-runner.ts:106-126 | that run is not one of a child process: an `error` without a termination before it means that nothing was spawned |
| `CommandRunner.InStepUntilSettled` | apps/desktop/src/command-runner.ts:52-126 | up to the event that settles the promise the callback is in step, and the run has not been terminated iff no timeout or abort came, neither stream passed the bound and the callback throws on no line |
| `CommandRunner.LateRun` | apps/desktop/src/command-runner.ts:62-126 | after a settlement without a termination each line the callback throws on is given once more and never taken back |
| `CommandRunner.OrdinaryRunIsFaithful` | apps/desktop/src/command-runner.ts:85-126 | a run that only its last event settles gives the callback a prefix of the lines, and all of them if nothing terminated it |
| `CommandRunner.StreamingRefinesSplitting` | apps/desktop/src/command-runner.ts:76-126 | for any chunking and any order of events the callback is given a prefix of the lines of the whole stream, and all of them if nothing terminated the run, iff no calm settlement precedes a line on which the callback throws |
| `CommandRunner.ChildRunIsFaithful` | apps/desktop/src/command-runner.ts:76-126 | on the events of a child process, however chunked, the callback is given a prefix of the lines of the whole stream, and all of them if nothing terminated the run |
| `CommandRunner.SettlesAtMostOnce` | apps/desktop/src/command-runner.ts:52-60 | in every run the promise settles at most once and both buffers stay within the byte bound |
| `CommandRunner.ResolutionIsComplete` | apps/desktop/src/command-runner.ts:114-126 | the event that resolves the promise resolves it with everything the child ever wrote, within the byte bound |
| `CommandSettlement.PromiseIsSettledByFirst` | apps/desktop/src/command-runner.ts:52-126 | for any order of events the promise stays open until a child error or a close and is settled by the first of them: a child error rejects it as such; a close resolves it with everything written iff the run up to it was calm and the exit code zero, rejects a calm run as failed, and any other with the first thing that disturbed it |
| `CommandSettlement.ResolvedExactlyWhen` | apps/desktop/src/command-runner.ts:114-126 | the promise is resolved iff the first settling event is a close with exit code zero and the run up to and including it is calm |
| `CommandSettlement.TerminationIsFirstCause` | apps/desktop/src/command-runner.ts:62-104 | a run that is not calm is terminated with the cause of the first event that disturbed it: the timeout, the abort, a stream over its bound, or a line the callback throws on |
| `CommandRunner.Command.TerminateWith` | apps/desktop/src/command-runner.ts:62-70 | only the first termination of an unsettled run counts |
| `CommandRunner.Command.FinishWith` | apps/desktop/src/command-runner.ts:52-60 | only the first settlement counts |
| `CommandRunner.Command.HandleStdout` | apps/desktop/src/command-runner.ts:76-83 | the bounded append of an output chunk equals the specification |
| `CommandRunner.Command.GiveLines` | apps/desktop/src/command-runner.ts:90-95 | the delivery loop over the shared variables equals the specification, a thrown-on line being kept |
| `CommandRunner.Command.ConsumeStderr` | apps/desktop/src/command-runner.ts:85-104 | the error-stream handler equals the specification |
| `CommandRunner.Command.HandleClose` | apps/desktop/src/command-runner.ts:114-126 | the close handler equals the specification, whatever the decoders still held; an open promise is rejected with the termination if there is one, resolved on exit code zero and rejected as failed otherwise |
| `IndentPaths.StackIndentsIncrease` | scripts/check_postgres_image_parity.py:30-37 | the stacked indents are strictly increasing |
| `IndentPaths.PoppedIsEnclosing` | scripts/check_postgres_image_parity.py:30-32 | after the pops for a line the stack holds exactly the earlier valueless keys with smaller indent that no line in between closed |
| `IndentPaths.PopTo` | scripts/check_postgres_image_parity.py:30-31 | the popping loop leaves a prefix whose last indent is smaller and drops only indents at or above the line's |
| `IndentPaths.LineIsRead` | scripts/check_postgres_image_parity.py:27-37 | one line of the loop keeps the stack equal to the open lines and adds exactly the scalar with its enclosing path |
| `IndentPaths.MappingScalars` | scripts/check_postgres_image_parity.py:19-38 | every scalar is returned, in order, with exactly the chain of keys that enclose it |
| `FeedRollout.BelowIsStrictTotal` | apps/desktop/src/update-rollout.ts:50-50 | the version order, section 11 of Semantic Versioning 2.0.0 on the two forms in use, is a strict total order |
| `FeedRollout.PrecedenceIsLeftToRight` | apps/desktop/src/update-rollout.ts:50-50 | it is precedence: the leftmost differing identifier decides, a larger major beats any minor and patch, and a release its betas |
| `FeedRollout.BestIsHighest` | apps/desktop/src/update-rollout.ts:26-50 | when there is a candidate one is selected and none is above it |
| `FeedRollout.SelectsTheHighest` | apps/desktop/src/update-rollout.ts:26-50 | the selection throws iff a stable release that could count has no date, is none iff nothing is eligible, and is otherwise the first release of the highest eligible version |
| `FeedRollout.SelectionIsEligible` | apps/desktop/src/update-rollout.ts:26-50 | a selection is an unpaused, undrafted release of its channel; a stable one is at least a day old and staged to 25 percent before its second day is over |
| `FeedRollout.RolloutNeverNarrows` | apps/desktop/src/update-rollout.ts:45-48 | as time passes a release stays eligible and its rollout never narrows |
| `FeedRollout.SelectionNeverDecreases` | apps/desktop/src/update-rollout.ts:19-67 | as the clock advances, releases are added and nothing new is paused, the selected version never decreases on either channel and the guard accepts it |
| `FeedRollout.AcceptedRegressionWasPaused` | apps/desktop/src/update-rollout.ts:64-66 | the guard accepts a step that lowers or empties the feed iff the version it was at is paused |
| `FeedRollout.FeedIsMonotone` | apps/desktop/src/update-rollout.ts:56-67 | over any chain of accepted states none of whose versions was paused when the next was published, versions never decrease |
| `FeedRollout.FeedFallsOnlyByPause` | apps/desktop/scripts/prepare-update-site.ts:76-87 | in every history of feed runs a feed below a version it once had was taken down in between by a run that pauses the version it was then at |
| `FeedRollout.FeedWasSelected` | apps/desktop/scripts/prepare-update-site.ts:79-87 | whatever a feed holds was selected by some run in which it was not paused |
| `FeedRollout.ProgressIsNeverRefused` | apps/desktop/src/update-rollout.ts:19-67 | in every history in which the clock advances, releases are added and nothing new is paused no run is refused: the feed is the latest selection and never goes down |
| `FeedRollout.FeedMovesExactlyWhen` | apps/desktop/src/update-rollout.ts:56-67 | in every history: an undated stable release leaves the feed alone; otherwise it moves to the highest eligible version unless it stands above it at a version that is not paused, and with nothing eligible it is emptied iff its version is paused |
| `FeedRollout.FeedStandsAtTheHighest` | apps/desktop/src/update-rollout.ts:26-67 | over any progressing history the feed stands at the highest eligible version, and is empty iff there is none |

## Left out

- User interface, tray, menus, notifications, prompts and windows of the desktop application: not part of the protocol.
- The timers that start automatic update checks, the CLI calls and Electron's quit sequence: they are events of the environment.
- `deployedRevision`, the GitHub calls and the argument checks of scripts/clawdi-deployment-lag.ts: a network walk and input validation.
- The text of the two Docker contracts, the YAML and JSONC parsers, the accessory extraction and SHA-256: parameters of the revision program, since it only matters what they are functions of.
- A directory read by `git show`: the snapshot is a map of files.
- The quote, cancel and wallet listing handlers of the fixture server other than the ones named above: they do not move money.
- Floating point in the fixture server: amounts are exact cents, and the price-per-month comparison is made by cross-multiplication.
- A replayed upgrade is applied to the deployment that has the id at that time; the source keeps a reference to the deployment object of the first request.
- Redaction, timestamps and file modes of the log, and the validation of its options: the model starts from the finished line and valid options.
- Signals, the force-kill timer and an already aborted signal in the command runner: they do not change what is settled or delivered.
- The line expression and the comment stripping of the YAML reader: the model starts from parsed lines.
- An existing feed version that is not a Desktop version, which the guard rejects, and a non-finite clock: malformed inputs refused at once; no history of feed runs produces the former.
- Closing braces without an opening one in `StringLexer.LiteralsRoundTrip` and `LexerEndings.UnfinishedSourceIsRead`: they have no tree; `StringLexer.Scanner.ReadCode` covers them as inputs.
- MutationGate.DesktopMutations.RunLeave: requires the gate invariant, which `MutationGate.ExclusiveInEveryRun` establishes in every run.
- The clean-up entry of the Windows uninstaller (apps/desktop/src/main.ts:239-249): it blocks the gate before anything else runs and exits.
- Assets and metadata files of the update site: the feed is the version it names.
- Playwright suites, backend services, seed scripts and packaging: input and output around external tools.
