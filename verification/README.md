# Coordinator runtime and release tooling: a verification model

This project models the stateful core of a coordinator runtime and its release tooling in Dafny and proves what
its parts promise over every input, every run and every interleaving.

* **Promotion** (`Promotion*.dfy`): a staged manifest is published by an exclusive hard link. Sessions are tokens in
  memory; the process may be lost, another one may link first, and the staging area may be discarded between any two
  file operations. The calls are written as they run, over session maps and a disk, and proved to do what the steps
  of a state machine say; safety, convergence and honesty are proved over runs of that machine, and every exit is told
  from the names, objects and links of the disk (`PromotionExits`).
* **Task run and route matrix** (`TaskRecords`, `TaskTrace`, `TaskRun`, `TaskReasons`, `RecoveryIds`, `RouteMatrix*`): one
  run races completion against cancellation, settles in a fixed order, discards its candidate and may poison the
  process for good; the matrix drives four routes with up to three tries each. What the surroundings answer is
  arbitrary, and what a result or a report says is told from these answers.
* **Native worker** (`Utf8`, `Text`, `WindowsPath`, `WorkerProtocol`, `WorkerEntry`, `WorkerWire`): fixed-offset
  little-endian frames, two readers, a path acceptor with an uppercase fold that may produce several characters, and
  the dispatch, all of it also told byte by byte.
* **Coverage reports** (`Decimal`, `Lcov*`): a strict LCOV reader that checks summaries against entries; which
  texts it accepts and what it says of them is told from their lines (`LcovEntries`, `LcovLedger`).
* **Official assets** (`AssetNames`, `AssetGovernance`, `AssetStore*`, `AssetExecution`): immutable revision files that
  behave like one atomic register under locked writers, unlocked scans and crashes.
* **Process observer and report** (`ProcessObserver`, `ObserverTriggers`, `ProviderReport`, `ProviderEvents`): chunks become
  lines, lines become events, one trigger is latched; a report over several runs completes exactly when each process
  said its events under an operation of its own.
* **Buffers and streams** (`ProxyRequest`, `ProxyText`, `ProxyRelay`, `StagingPlacement`, `OneShot`, `KeySigning`, `HiddenLine`):
  loops over partial reads and writes, one-shot authorizations and a hidden input line.

`dafny verify dfyconfig.toml` checks the whole project.

## Where a promise has a condition

In these places the code does less than one might expect; the exact condition is proved, and an input that fails it
is given.

* Verification of a completed promotion turns false when the staging area is discarded afterwards, because the
  identity of the published file includes its link count and change time
  (`VerifiedUntilStagingDiscard`, `DiscardDefeatsVerification`).
* The framed reader applied to a provider-home request delivers it whole exactly when four bytes of its hash happen
  to spell 16 (`FramedReaderOnHomeRequest`, `HomeRequestUnframed`).
* The route matrix may start an attempt in a poisoned process exactly when an earlier answer poisoned it without
  reporting so (`PoisonStopsUnlessUnreported`, `UnreportedPoisonGoesOn`), so never with a runner that reports its
  poisonings (`ReportedPoisonStops`). Every answer of a task run does report it (`TaskRunReports`), and a matrix over
  task runs starts no attempt in a poisoned process (`MatrixOverTasks`).
* LCOV text with LF line ends loses a carriage return at the end of a line (`PrintedIsRead`, `CarriageReturnIsLost`).
* The asset store becomes unreadable with its first generation of revision 10^12 or more (`ReadIsRegister`,
  `UnreadableIsTheEnd`, `OneCommitTooMany`).
* Beyond the byte limit the observer drops single chunks and goes on with later ones, so what it sees depends on the
  chunking (`ChunkingMattersBeyondLimit`); within the limit it does not.
* Backspace in a hidden line removes one UTF-16 code unit, half of a character outside of the basic plane
  (`WholeUnlessPairRemoved`, `HalfACharacterStays`).

## Model

| member | source | states |
|---|---|---|
| PromotionSafety.RunSound | 40_Develop/coordinator/scripts/release-manifest-promotion.ts:453-729 | the invariant of promotion (names of the disk, records of sessions, honesty of every exit, accounting of links) survives every sequence of begins, promotions, verifications, process losses and outside events |
| PromotionSafety.PublishedOnlyOriginal | 40_Develop/coordinator/scripts/release-manifest-promotion.ts:660-729 | over every interleaving the published name is absent or bound to the original file object with exactly the original bytes, which have the expected digest whenever this process published them |
| PromotionSafety.AtMostOneLink | 40_Develop/coordinator/scripts/release-manifest-promotion.ts:667-706 | over a whole run at most one link is made, none when the name was published already, and a published name stays |
| PromotionSafety.EveryExitHonest | 40_Develop/coordinator/scripts/release-manifest-promotion.ts:663-728 | every promotion of every run reports its link effect truthfully, and no token succeeds twice |
| PromotionSafety.Converges | 40_Develop/coordinator/scripts/release-manifest-promotion.ts:453-505 | after any run and a loss, an undisturbed begin succeeds exactly when a name of the file is left; then promotion succeeds, links exactly when the name was unpublished, and verification confirms it |
| PromotionSafety.VerifiedUntilStagingDiscard | 40_Develop/coordinator/scripts/release-manifest-promotion.ts:747-787 | verification of a completed promotion is true exactly while the staged name is as it was at completion |
| PromotionSafety.DiscardDefeatsVerification | 40_Develop/coordinator/scripts/release-manifest-promotion.ts:523-561 | the failing case: promote, discard the staging area, verify is false although the published file is untouched |
| PromotionSafety.LinkStepFollows | 40_Develop/coordinator/scripts/release-manifest-promotion.ts:667-706 | the link step keeps the disk safe, and its effect flag is the link that it made |
| PromotionSafety.InspectFollows | 40_Develop/coordinator/scripts/release-manifest-promotion.ts:453-505 | an inspection, disturbed anywhere, keeps the disk safe, and a session that it yields records the original file, whose digest is the expected one |
| PromotionProcess.Process.ReadStableFile | 40_Develop/coordinator/scripts/release-manifest-promotion.ts:329-366 | on a disk that stays as it is while the file is read, the fill loop over short reads yields the whole content exactly when the name still has the identity that was recorded, size included |
| PromotionProcess.Process.InspectSession | 40_Develop/coordinator/scripts/release-manifest-promotion.ts:453-505 | the call does what its step says, for every schedule of outside events between its file operations |
| PromotionProcess.Process.BeginSession | 40_Develop/coordinator/scripts/release-manifest-promotion.ts:612-642 | opens a session exactly when the inspection yields one, under a new token |
| PromotionProcess.Process.PromoteBytes | 40_Develop/coordinator/scripts/release-manifest-promotion.ts:660-729 | the imperative promotion leaves exactly the state and exit of the promotion step; when that is a refusal, and what it looks at before it links, is in PromoteChecksFirst and PromoteAfterCheck |
| PromotionProcess.Process.VerifyPromoted | 40_Develop/coordinator/scripts/release-manifest-promotion.ts:747-787 | the imperative verification leaves exactly the state and answer of the verification step |
| PromotionProcess.PromoteComposition | 40_Develop/coordinator/scripts/promote-release-manifest.ts:302-362 | after a promotion that returned, every failure asks for re-entry and reports the effect of that promotion; before it nothing was linked |
| PromotionExits.PromoteChecksFirst | 40_Develop/coordinator/scripts/release-manifest-promotion.ts:523-666 | on any disk: without its token, after a fault in the check, or when the bound names, the identities or bytes of the file, its digest or a pinned directory differ from the session, a promotion fails without effect and asks for no re-entry, and names, objects and links stay |
| PromotionExits.RewrittenStagingIsRefused | 40_Develop/coordinator/scripts/release-manifest-promotion.ts:523-561 | the staged file rewritten after the session began: the promotion is refused before the link, and nothing is published |
| PromotionExits.PromoteAfterCheck | 40_Develop/coordinator/scripts/release-manifest-promotion.ts:667-729 | after a check that the disk passes, the exit tells the link: one that was not confirmed fails with its effect, and otherwise the session is handed over, exactly when an undisturbed final look still finds the file and its published name |
| PromotionExits.RewrittenLinkIsNotConfirmed | 40_Develop/coordinator/scripts/release-manifest-promotion.ts:689-706 | what was linked but does not have the bytes of the session is not confirmed: the promotion fails with its effect |
| PromotionExits.VerifyTellsTheDisk | 40_Develop/coordinator/scripts/release-manifest-promotion.ts:747-787 | verification of a token is true exactly when it was promoted and the disk can still be inspected, with the published name bound to the recorded identity in the recorded directories |
| PromotionExits.BeginTellsTheDisk | 40_Develop/coordinator/scripts/release-manifest-promotion.ts:453-642 | a session begins exactly when an undisturbed disk can be inspected, under the next token, and describes the disk as it is then; other sessions stay |
| PromotionExits.InspectionTellsTheDisk | 40_Develop/coordinator/scripts/release-manifest-promotion.ts:453-505 | an undisturbed inspection yields a session exactly when the names, identities, sizes and digest on the disk allow one, and a session always describes the disk as it was at the end of the inspection |
| TaskRun.Runner.Run | 40_Develop/coordinator/scripts/verify-signed-general-task.ts:1517-2094 | every return reports the poison flag truthfully and has the reason of the first gate that fails, or else that of the settlement; its flags on cleanup, recovery, change of the repository and unknown effect are those that the records and the comparison of the revisions tell; a run completes exactly when every gate passed, a conforming result won the race and its candidate was verified and discarded, and nothing cancelled or poisoned it; cancellation is asked for at most once, and always for an unknown or cancelled ending; a readable candidate is never left without a discard attempt, and a second attempt follows only a first that failed |
| TaskRun.Runner.EntryGates | 40_Develop/coordinator/scripts/verify-signed-general-task.ts:1522-1643 | the first of the nine gates that fails refuses the run with its reason, before anything was done |
| TaskRun.Runner.Settle | 40_Develop/coordinator/scripts/verify-signed-general-task.ts:1965-2056 | the settlement leaves the reason, the account of cancellation and the discards that its stages call for, and keeps the outcome of an undisturbed run |
| TaskRun.Runner.JudgeTask | 40_Develop/coordinator/scripts/verify-signed-general-task.ts:1795-1958 | the outcome of a safely read result has the reason of the first thing wrong with it, and is a completion exactly when it conforms, its candidate was verified and discarded, and the repository stayed; a failed discard that reports a restart poisons the process |
| TaskRun.Runner.ObserveTask | 40_Develop/coordinator/scripts/verify-signed-general-task.ts:1695-1964 | whatever the started task answers, the observation leaves its reason, a sound account of discards and cancellation and the pending outcome, and poisons the process exactly when something did |
| TaskRun.Runner.ReadCompletion | 40_Develop/coordinator/scripts/verify-signed-general-task.ts:1722-1959 | a completion that cannot be read safely makes the ending unknown for its own reason; otherwise its candidate is discarded before it is judged |
| TaskRun.Runner.SettleCandidate | 40_Develop/coordinator/scripts/verify-signed-general-task.ts:2021-2055 | an interrupted run attempts the discard of a candidate that is still there, again only after a first failure |
| TaskRun.Runner.SettleCancellation | 40_Develop/coordinator/scripts/verify-signed-general-task.ts:1965-1998 | settlement asks for cancellation exactly when something calls for it and at most once over the whole run; each failure on the way gives the reason of the unknown ending |
| TaskRun.Runner.SettleCompletion | 40_Develop/coordinator/scripts/verify-signed-general-task.ts:1999-2020 | an interrupted run takes over the late completion, or its ending becomes unknown because that did not come |
| TaskRun.Runner.SettleSafety | 40_Develop/coordinator/scripts/verify-signed-general-task.ts:2021-2043 | an unsafe result of an interrupted run, and a cancellation that left the process without cleanup, make the ending unknown |
| TaskRun.Runner.Conclude | 40_Develop/coordinator/scripts/verify-signed-general-task.ts:2057-2094 | the final order: unknown before cancelled before poisoned before the known outcome, with the reason of each and the recovery of the task result and its discard |
| TaskRun.Runner.MakeBlocked | 40_Develop/coordinator/scripts/verify-signed-general-task.ts:900-1015 | a record that reports a required restart poisons the process before the result is built |
| TaskRun.Runner.PostStartUnknown | 40_Develop/coordinator/scripts/verify-signed-general-task.ts:1186-1211 | an unknown ending is poisoned, uncompleted, uncleaned, ambiguous and in need of manual recovery |
| TaskTrace.InterruptedAsks | 40_Develop/coordinator/scripts/verify-signed-general-task.ts:1965-2056 | a run is interrupted exactly when it ends unknown or cancelled; every interrupted run has asked for cancellation, and an uninterrupted one that judged its result never did |
| TaskTrace.CompletesExactly | 40_Develop/coordinator/scripts/verify-signed-general-task.ts:1722-2094 | no interruption, no poisoning and a judged result that succeeds is the same as a task that succeeds while nothing asks for cancellation or poisons the process |
| TaskReasons.CompletesInOrder | 40_Develop/coordinator/scripts/verify-signed-general-task.ts:1722-2094 | a started run completes exactly when its task was fulfilled with a clean, unchanged, completed record and everything around it was in order, field by field |
| TaskReasons.GateReasons | 40_Develop/coordinator/scripts/verify-signed-general-task.ts:1517-1694 | a closed gate refuses with its own reason, whatever the gates after it say |
| TaskReasons.JudgementReasons | 40_Develop/coordinator/scripts/verify-signed-general-task.ts:1795-1958 | a failed discard comes before a repository that moved or was not seen, and that before another candidate |
| TaskReasons.ResultReasons | 40_Develop/coordinator/scripts/verify-signed-general-task.ts:1795-1958 | a result that does not conform gives its own public reason when it is blocked with one, and otherwise the mismatch |
| TaskReasons.CancelledReasons | 40_Develop/coordinator/scripts/verify-signed-general-task.ts:1965-2094 | what a cancellation that was asked for ends in, by the answer to it |
| TaskReasons.SignalReasons | 40_Develop/coordinator/scripts/verify-signed-general-task.ts:1965-2094 | what a run ends in whose signal won the race: cancelled, or unknown when the result does not come in time or the request did not last |
| TaskReasons.PoisonReasons | 40_Develop/coordinator/scripts/verify-signed-general-task.ts:2057-2094 | a process poisoned while the task runs or settles turns a completion into the demand for a restart |
| TaskReasons.SafeExactly | 40_Develop/coordinator/src/security/signed-runner-safety-observation.ts:284-370 | a record is read safely exactly when it says everything, its recovery fields leave no doubt, and it calls for a recovery unless its cleanup is confirmed and it names nothing |
| TaskReasons.RecoveryIsNamed | 40_Develop/coordinator/scripts/verify-signed-general-task.ts:843-882 | a result lists for each kind canonical identities that the fields of that kind name in its records, and all of them unless it is ambiguous |
| TaskRecords.BlockedReflects | 40_Develop/coordinator/scripts/verify-signed-general-task.ts:900-1015 | a blocked result has the overriding flags where there are any, and else what its records say: cleanup when each confirms it, recovery when any asks, a change when any tells |
| TaskRecords.ExactIsSettled | 40_Develop/coordinator/src/security/signed-runner-safety-observation.ts:302-345 | recovery fields are taken as they are exactly when they leave no doubt and an empty list stands alone |
| RecoveryIds.NeverSilentlyLost | 40_Develop/coordinator/scripts/verify-signed-general-task.ts:843-882 | over any list of records: a duplicate-free list of at most 128 identities that holds exactly the mentioned canonical ones, or the ambiguous flag is set |
| RecoveryIds.BoundedRecoveryIds | 40_Develop/coordinator/scripts/verify-signed-general-task.ts:843-882 | the collecting loop computes that projection |
| RecoveryIds.SalvageKeepsMentioned | 40_Develop/coordinator/src/security/signed-runner-safety-observation.ts:196-266 | salvaging one record keeps every canonical identity that it mentions, or says that it is ambiguous |
| RecoveryIds.SalvagedOnlyMentioned | 40_Develop/coordinator/src/security/signed-runner-safety-observation.ts:151-266 | salvaging makes no identity up |
| RecoveryIds.CollectedOnlyMentioned | 40_Develop/coordinator/scripts/verify-signed-general-task.ts:843-882 | collecting makes no identity up |
| RecoveryIds.AmbiguousExactlyWhen | 40_Develop/coordinator/scripts/verify-signed-general-task.ts:843-882 | the ambiguous flag is set exactly when the fields of some record leave a doubt, or no list of 128 holds all mentioned canonical identities |
| RecoveryIds.AmbiguousUnlessClear | 40_Develop/coordinator/src/security/signed-runner-safety-observation.ts:151-266 | salvaging one record is unambiguous exactly when there are no such fields, or they hold different canonical identities that agree |
| RouteMatrix.Matrix.Run | 40_Develop/coordinator/scripts/verify-signed-route-matrix.ts:676-820 | every report is sound: at most 12 attempts, attempted = verified + retried + the failed one, routes and tries in order, advancing attempts share one release and one execution, poisoning is known before each attempt, and the attempt that stopped it did not advance or named another release or execution, which the failure code tells; which answers advance and complete it is in RouteMatrixAnswers |
| RouteMatrix.Matrix.TryRoute | 40_Develop/coordinator/scripts/verify-signed-route-matrix.ts:703-778 | one route goes on after a safe retry, ends at its exact result, and stops the matrix otherwise |
| RouteMatrix.Matrix.Try | 40_Develop/coordinator/scripts/verify-signed-route-matrix.ts:705-777 | an attempt lets the matrix go on exactly when it is exact or safely retryable and names the shared release and execution; a runner that fails always poisons |
| RouteMatrix.Matrix.Judge | 40_Develop/coordinator/scripts/verify-signed-route-matrix.ts:726-777 | the shared release and execution are those of the first attempt that names them, and the attempt goes on exactly when it fits them |
| RouteMatrix.MisfitStops | 40_Develop/coordinator/scripts/verify-signed-route-matrix.ts:726-777 | an attempt that stopped the matrix did not advance, or differs in release or execution from the others |
| RouteMatrix.StepAny | 40_Develop/coordinator/scripts/verify-signed-route-matrix.ts:684-778 | one more attempt keeps the counters and the order, however it ends |
| RouteMatrix.StepOn | 40_Develop/coordinator/scripts/verify-signed-route-matrix.ts:761-770 | an advancing attempt leads to the next try or, when exact, to the next route |
| RouteMatrixProperties.OneExactPerRouteInOrder | 40_Develop/coordinator/scripts/verify-signed-route-matrix.ts:676-820 | a completed matrix holds exactly one exact result for each of the four routes, in order, all attempts with one release and one execution |
| RouteMatrixProperties.PoisonStopsUnlessUnreported | 40_Develop/coordinator/scripts/verify-signed-route-matrix.ts:717-777 | some attempt starts in a poisoned process exactly when an earlier answer poisoned it without saying so; a completed matrix asks for a restart exactly when any answer did |
| RouteMatrixProperties.ReportedPoisonStops | 40_Develop/coordinator/scripts/verify-signed-route-matrix.ts:717-777 | with a runner whose answers report the poisoning that they did, no attempt starts in a poisoned process and a completed matrix asks for no restart |
| RouteMatrixProperties.UnreportedPoisonGoesOn | 40_Develop/coordinator/scripts/verify-signed-route-matrix.ts:684-778 | the failing case: a first exact answer that poisons without saying so is followed by an attempt on the second route in a poisoned process, in every report |
| RouteMatrixProperties.TaskRunReports | 40_Develop/coordinator/scripts/verify-signed-general-task.ts:900-1015 | the answer that a sound task run gives to the matrix reports the poisoning that it did |
| RouteMatrixProperties.MatrixOverTasks | 40_Develop/coordinator/scripts/verify-signed-route-matrix.ts:676-820 | a matrix over signed task runs, its default runner, starts no attempt in a poisoned process, whatever the surroundings of each run answer; its k-th answer is the completed result exactly when the gates of the k-th task are open and it succeeds unharmed |
| RouteMatrixProperties.AggregateRouteRecovery | 40_Develop/coordinator/scripts/verify-signed-route-matrix.ts:482-507 | the aggregating loops compute the projection of each kind and the ambiguous flag |
| RouteMatrixProperties.MatrixKeepsRecovery | 40_Develop/coordinator/scripts/verify-signed-route-matrix.ts:443-507 | no canonical identity of any record that any attempt handed over is lost from the report, unless the report says it is ambiguous |
| RouteMatrixProperties.SanitizedReadsBack | 40_Develop/coordinator/scripts/verify-signed-route-matrix.ts:376-395 | what is written after salvaging is exact, and salvaging it again gives the same identities unambiguously |
| RouteMatrix.ReasonOf | 40_Develop/coordinator/scripts/verify-signed-route-matrix.ts:726-777 | the failure code of the attempt that stopped the matrix: missing identities before another release, that before another execution, and these before a result that is not the expected one |
| RouteMatrixAnswers.FourAnswersComplete | 40_Develop/coordinator/scripts/verify-signed-route-matrix.ts:676-820 | four first answers, each the completed clean record of its own route, of one release and one execution, the first with either consent and the others with the reused one, complete the matrix in four attempts |
| RouteMatrixAnswers.CompletedHoldsRecords | 40_Develop/coordinator/scripts/verify-signed-route-matrix.ts:566-622 | a completed report holds for every route the completed clean record of that very route, with the consent observed first or the reused one |
| RouteMatrixAnswers.PassedAnswers | 40_Develop/coordinator/scripts/verify-signed-route-matrix.ts:684-778 | every attempt but the stopping one was carried on by its answer: completed for its route, or a content mismatch left clean within the tries; and the next attempt is at the place that follows |
| RouteMatrixAnswers.StoppedByItsAnswer | 40_Develop/coordinator/scripts/verify-signed-route-matrix.ts:684-778 | a matrix stops before its end only at an answer that does not carry it on |
| RouteMatrixAnswers.RouteSafeExactly | 40_Develop/coordinator/src/security/signed-runner-safety-observation.ts:284-370 | a route record is read safely exactly when it says everything, knows its effect, leaves no doubt on recovery, and calls for one where it has to |
| RouteMatrixAnswers.SummaryIsTheLast | 40_Develop/coordinator/scripts/verify-signed-route-matrix.ts:779-819 | only the last entry of a report can have left anything behind: the flags that the report sums up are what that entry says, all unknown when its runner failed |
| RouteMatrixAnswers.CompletedIsClean | 40_Develop/coordinator/scripts/verify-signed-route-matrix.ts:779-819 | a completed report is clean in sum, and there is nothing to recover, without doubt |
| RouteMatrixAnswers.TaskAnswers | 40_Develop/coordinator/scripts/verify-signed-route-matrix.ts:566-675 | the result of a task run is the completed record of its route exactly when it completed cleanly with the consent due, and asks for a retry exactly when its candidate did not match and was discarded cleanly |
| RouteMatrixAnswers.FourTasksComplete | 40_Develop/coordinator/scripts/verify-signed-route-matrix.ts:676-820 | four tasks that succeed undisturbed, with one release and one execution, complete a matrix over task runs in four attempts |
| WorkerProtocol.ParseEncodeRequest | 40_Develop/platform-access/src/protocol.rs:504-539 | parsing undoes encoding of every well-formed root request |
| WorkerProtocol.EncodeParseRequest | 40_Develop/platform-access/src/protocol.rs:504-539 | every accepted byte string is the encoding of what it was parsed to |
| WorkerProtocol.ParseEncodeHomeRequest | 40_Develop/platform-access/src/protocol.rs:555-579 | parsing undoes encoding of every well-formed provider-home request |
| WorkerProtocol.EncodeParseHomeRequest | 40_Develop/platform-access/src/protocol.rs:555-579 | every accepted byte string is the encoding of what it was parsed to |
| WorkerProtocol.KindsDisjoint | 40_Develop/platform-access/src/protocol.rs:504-579 | no byte string is accepted as both kinds |
| WorkerProtocol.ResponseInjective | 40_Develop/platform-access/src/protocol.rs:595-607 | different responses have different 86-byte frames |
| WorkerProtocol.HomeResponseInjective | 40_Develop/platform-access/src/protocol.rs:623-640 | different provider-home responses have different 182-byte frames |
| WorkerProtocol.ResponseFields | 40_Develop/platform-access/src/protocol.rs:595-607 | the fields of a response tile its 86 bytes at their offsets |
| WorkerProtocol.HomeResponseFields | 40_Develop/platform-access/src/protocol.rs:623-640 | the fields of a provider-home response tile its 182 bytes at their offsets |
| WorkerProtocol.EncodeResponse | 40_Develop/platform-access/src/protocol.rs:595-607 | writing slices of an array in place yields exactly the frame of the response |
| WorkerProtocol.EncodeHomeResponse | 40_Develop/platform-access/src/protocol.rs:623-640 | writing slices of an array in place yields exactly the frame of the provider-home response |
| WorkerProtocol.Le32RoundTrip | 40_Develop/platform-access/src/protocol.rs:329-333 | little-endian 32-bit fields are read back as they were written |
| WorkerEntry.FramedReaderExact | 40_Develop/platform-access/src/protocol.rs:684-702 | the framed reader takes exactly one encoded root request off a stream |
| WorkerEntry.FramedReaderOnHomeRequest | 40_Develop/platform-access/src/protocol.rs:684-702 | the framed reader delivers a provider-home request whole exactly when four bytes of its mount source hash spell 16 |
| WorkerEntry.HomeRequestUnframed | 40_Develop/platform-access/src/protocol.rs:684-702 | the failing case: a well-formed provider-home request that the framed reader refuses |
| WorkerEntry.ReadFramedRequest | 40_Develop/platform-access/src/protocol.rs:684-702 | over any granularity of reads the framed reader is a function of the stream, whether that ends or fails after its last byte, and what it does not deliver stays on it |
| WorkerEntry.ReadRequest | 40_Develop/platform-access/src/protocol.rs:656-668 | the unframed reader delivers the whole stream up to the maximum, and refuses anything longer and a stream that fails before its end |
| WorkerEntry.ExecuteBytes | 40_Develop/platform-access/src/main.rs:106-157 | one answer frame of the right kind and the exit code owed for the bytes, invalid ones included |
| WorkerEntry.Execute | 40_Develop/platform-access/src/main.rs:173-186 | the same for either reader over the bytes that will arrive |
| WorkerEntry.SuccessAnswersOneRequest | 40_Develop/platform-access/src/main.rs:106-157 | exit code 0 is given only for the encoding of a well-formed request of exactly one kind, answered by the frame for that very request |
| WorkerEntry.FrameKindsDiffer | 40_Develop/platform-access/src/protocol.rs:595-640 | the first eight bytes of an answer tell its kind |
| WorkerWire.RequestExactly | 40_Develop/platform-access/src/protocol.rs:504-539 | the byte strings that are root requests, and of what, byte by byte: magic, revision, role, nonce, three words, length and path |
| WorkerWire.HomeExactly | 40_Develop/platform-access/src/protocol.rs:555-579 | the byte strings that are provider-home requests, byte by byte |
| WorkerWire.ResponseBytes | 40_Develop/platform-access/src/protocol.rs:595-607 | every byte of a root response, the reason by its number |
| WorkerWire.HomeResponseBytes | 40_Develop/platform-access/src/protocol.rs:623-640 | every byte of a provider-home response, the reason by its number |
| WorkerWire.FramedExactly | 40_Develop/platform-access/src/protocol.rs:684-702 | the framed reader takes as many bytes as the header says, within 4096 for the path |
| WorkerWire.AnswersExactly | 40_Develop/platform-access/src/main.rs:106-157 | by the bytes of the request: its frame with exit code 0 for a candidate and 2 otherwise, 3 when it cannot be written, and the invalid frame of the family with 2 for anything else |
| Utf8.DecodeEncode | 40_Develop/platform-access/src/protocol.rs:504-539 | decoding undoes encoding (section 3 of RFC 3629) |
| Utf8.EncodeDecode | 40_Develop/platform-access/src/protocol.rs:504-539 | only shortest encodings of scalar values are accepted: encoding undoes decoding |
| Utf8.EncodedByTable | 40_Develop/platform-access/src/protocol.rs:525-529 | a character is encoded by the row of the table in section 3 of RFC 3629 that its number falls in |
| WindowsPath.LimitedUppercaseEquals | 40_Develop/platform-access/src/protocol.rs:405-422 | the streaming comparison equals folding the whole name and comparing, for every string, multi-character folds included |
| WindowsPath.ReservedWindowsBasename | 40_Develop/platform-access/src/protocol.rs:438-451 | the loop over reserved names decides reservedness of the folded basename |
| WindowsPath.SupportedIffSegments | 40_Develop/platform-access/src/protocol.rs:467-488 | a path is accepted exactly when it is a drive and valid segments that join to it |
| WindowsPath.ReservedByBasename | 40_Develop/platform-access/src/protocol.rs:438-451 | reservedness depends only on the trimmed text before the first dot |
| WindowsPath.ReservedIgnoresCase | 40_Develop/platform-access/src/protocol.rs:438-451 | reservedness does not depend on ASCII case |
| WindowsPath.FoldsLetter | 40_Develop/platform-access/src/protocol.rs:349-392 | every lower-case letter folds to its upper-case letter |
| WindowsPath.FoldsSpecial | 40_Develop/platform-access/src/protocol.rs:376-391 | the special letters fold to one, two or three letters as listed |
| WindowsPath.FoldsNothingElse | 40_Develop/platform-access/src/protocol.rs:349-392 | no other character changes |
| WindowsPath.ReservedAreDevices | 40_Develop/platform-access/src/protocol.rs:438-451 | every name that is kept out is a device or a port with a digit, superscripts included |
| WindowsPath.DevicesAreReserved | 40_Develop/platform-access/src/protocol.rs:438-451 | and every such name is kept out |
| LcovRecord.CountReadsNumerals | 40_Develop/coordinator/scripts/check-platform-access-ts-coverage.ts:283-292 | exactly the canonical numerals of safe integers are counts, each of its own number |
| LcovRecord.BranchReadsPrinted | 40_Develop/coordinator/scripts/check-platform-access-ts-coverage.ts:389-408 | exactly the printed branch entries are read, each as itself |
| LcovRecord.ExecutionReadsPrinted | 40_Develop/coordinator/scripts/check-platform-access-ts-coverage.ts:433-441 | exactly the printed line entries are read, each as itself |
| LcovRecord.CallReadsPrinted | 40_Develop/coordinator/scripts/check-platform-access-ts-coverage.ts:484-493 | exactly the printed call entries are read; the name is the whole rest, commas included |
| LcovRecord.DefinitionReadsPrinted | 40_Develop/coordinator/scripts/check-platform-access-ts-coverage.ts:474-483 | exactly the printed function entries are read |
| LcovRecord.ValidateLineRecords | 40_Develop/coordinator/scripts/check-platform-access-ts-coverage.ts:426-448 | accepts exactly the records whose line entries are readable, distinct, and counted by the summary |
| LcovRecord.ValidateFunctionRecords | 40_Develop/coordinator/scripts/check-platform-access-ts-coverage.ts:466-505 | accepts exactly the records whose definitions and calls name the same functions once and agree with the summary |
| LcovRecord.FunctionRecords | 40_Develop/coordinator/scripts/check-platform-access-ts-coverage.ts:471-494 | reads all definitions and calls, or some entry is unreadable or repeated |
| LcovRecord.BranchRecords | 40_Develop/coordinator/scripts/check-platform-access-ts-coverage.ts:389-408 | reads all branches, or some branch is unreadable or repeated |
| LcovSource.AcceptedSources | 40_Develop/coordinator/scripts/check-platform-access-ts-coverage.ts:354-371 | a source is accepted exactly when it is configured and has only plain segments; the parent of the repository itself is the one other path that can pass, so no accepted path leads to a file outside |
| LcovText.LcovRecords | 40_Develop/coordinator/scripts/check-platform-access-ts-coverage.ts:540-567 | the loop over lines computes the records of the text |
| LcovText.UnixTextRoundTrip | 40_Develop/coordinator/scripts/check-platform-access-ts-coverage.ts:540-567 | a text is read as records exactly when it is their printed form, up to the last newline |
| LcovText.PrintedIsRead | 40_Develop/coordinator/scripts/check-platform-access-ts-coverage.ts:540-567 | printed records are read back always under CRLF line ends, and under LF exactly when no line ends in a carriage return |
| LcovText.UnixTerminated | 40_Develop/coordinator/scripts/check-platform-access-ts-coverage.ts:543-543 | replacing CRLF turns CRLF line ends into LF, and eats one carriage return before an LF |
| Lcov.ReadRecord | 40_Develop/coordinator/scripts/check-platform-access-ts-coverage.ts:600-657 | a record is accepted exactly when its summaries, entries and source are consistent, with what it says: the covered counts are the lines that end, or start, with a positive numeral, and the uncovered branches are those whose line ends in a dash or zero, in line order |
| Lcov.GivenTotalsCountLines | 40_Develop/coordinator/scripts/check-platform-access-ts-coverage.ts:614-652 | the totals of a record count its own lines, and its uncovered branches are those not taken |
| Lcov.ParseExactTsCoverageLcov | 40_Develop/coordinator/scripts/check-platform-access-ts-coverage.ts:585-707 | a report is returned exactly when every record is consistent, the configured sources are covered once each, and obligations are complete; for each source it says what the lines of its own record say, with one obligation for each line of a branch that ends in a dash or zero, in line order |
| Lcov.GivenIsTold | 40_Develop/coordinator/scripts/check-platform-access-ts-coverage.ts:637-657 | what a consistent record counts is told by its lines: an uncovered branch by a BRDA line that ends in a dash or zero, a covered one by a last field that is a positive numeral |
| Lcov.ReportIsTold | 40_Develop/coordinator/scripts/check-platform-access-ts-coverage.ts:666-706 | each configured source has a record of its own, and the report has exactly the obligations that its untaken branches owe, in order |
| LcovEntries.BranchesTold | 40_Develop/coordinator/scripts/check-platform-access-ts-coverage.ts:637-657 | untaken branches are the BRDA lines that end in a dash or zero, and taken ones those that end in a positive numeral |
| LcovEntries.ExecutionsTold | 40_Develop/coordinator/scripts/check-platform-access-ts-coverage.ts:426-448 | executed lines are the DA lines that end in a positive numeral |
| LcovEntries.CallsTold | 40_Develop/coordinator/scripts/check-platform-access-ts-coverage.ts:466-505 | called functions are the FNDA lines that start with a positive numeral |
| LcovLedger.GivesExactly | 40_Develop/coordinator/scripts/check-platform-access-ts-coverage.ts:600-657 | a record is accepted, and says what it says, exactly when its lines are such a ledger: no test named, one source line, one of each summary line, readable entries with nothing given twice, and matching counts |
| LcovLedger.ReportedExactly | 40_Develop/coordinator/scripts/check-platform-access-ts-coverage.ts:598-670 | records have a report exactly when they are the ledgers of the configured sources, one for each, with one obligation for each |
| LcovLedger.AcceptedExactly | 40_Develop/coordinator/scripts/check-platform-access-ts-coverage.ts:591-670 | a text is accepted exactly when it has at most 2^25 bytes and its records are such ledgers |
| LcovWriting.TaggedExactly | 40_Develop/coordinator/scripts/check-platform-access-ts-coverage.ts:508-523 | a line is tagged exactly when it starts with one of the twelve tags and a colon |
| LcovWriting.WrittenRecordIsRead | 40_Develop/coordinator/scripts/check-platform-access-ts-coverage.ts:600-657 | every well-formed coverage of a source, written as a record, is accepted and read as itself |
| LcovWriting.WrittenReportIsRead | 40_Develop/coordinator/scripts/check-platform-access-ts-coverage.ts:585-707 | well-formed coverage of all configured sources, written as records in any order, is read as itself in the order of the configuration |
| LcovWriting.CarriageReturnIsLost | 40_Develop/coordinator/scripts/check-platform-access-ts-coverage.ts:540-567 | the failing case: under LF a source name that ends in a carriage return is read without it, under CRLF it is kept |
| LcovProperties.OrderIndependent | 40_Develop/coordinator/scripts/check-platform-access-ts-coverage.ts:585-707 | permuting the records changes neither acceptance nor the report |
| LcovProperties.PermutedInputsAgree | 40_Develop/coordinator/scripts/check-platform-access-ts-coverage.ts:585-707 | the same for whole inputs within the byte limit, whatever their line ends |
| LcovProperties.OneReport | 40_Develop/coordinator/scripts/check-platform-access-ts-coverage.ts:585-707 | an input has at most one report |
| LcovProperties.Conservation | 40_Develop/coordinator/scripts/check-platform-access-ts-coverage.ts:637-706 | totals count the DA, FN and BRDA lines of the input, obligations number total minus covered branches, and all sums, partial ones included, stay below 2^25 |
| AssetNames.NamesInjective | 40_Develop/official-asset-governance/src/official-asset-store.ts:160-162 | no two revisions share a generation name |
| AssetNames.NamesOrdered | 40_Develop/official-asset-governance/src/official-asset-store.ts:160-162 | below 10^12 the order of the names is the order of the revisions |
| AssetNames.GenerationReadBack | 40_Develop/official-asset-governance/src/official-asset-store.ts:112-123 | a generation name is read back as its revision exactly below 10^12, and is malformed above |
| AssetNames.TemporaryIgnored | 40_Develop/official-asset-governance/src/official-asset-store.ts:112-116 | a temporary file is never taken for a generation |
| AssetNames.TemporariesDiffer | 40_Develop/official-asset-governance/src/official-asset-store.ts:160-166 | temporary files of different processes or for different revisions have different names |
| AssetStore.Read | 40_Develop/official-asset-governance/src/official-asset-store.ts:110-129 | the scan loop, over any listing, computes the newest record or throws |
| AssetStore.ScanIsNewest | 40_Develop/official-asset-governance/src/official-asset-store.ts:110-129 | over any listing of any directory a scan throws exactly when a listed generation is malformed, and otherwise finds the newest record, the base record unless a listed one is newer |
| AssetStore.ReadIsRegister | 40_Develop/official-asset-governance/src/official-asset-store.ts:110-129 | any scan of a sound directory returns the last committed record, and throws exactly when that is a generation of revision 10^12 or more |
| AssetStoreSafety.StepKeeps | 40_Develop/official-asset-governance/src/official-asset-store.ts:148-182 | every file operation of every process keeps the store sound, crashes and failures included |
| AssetStoreSafety.NextNameFree | 40_Develop/official-asset-governance/src/official-asset-store.ts:174-181 | under the lock the name of the next revision is free |
| AssetStoreSafety.LinkPublishes | 40_Develop/official-asset-governance/src/official-asset-store.ts:174-182 | the link publishes the record right after the last committed one |
| AssetStoreSafety.AtomicRegister | 40_Develop/official-asset-governance/src/official-asset-store.ts:103-182 | over every interleaving of writers, readers and crashes: commits stay, revisions grow by one, each names one record, and reads return the last one |
| AssetStoreSafety.RegisterFromCreation | 40_Develop/official-asset-governance/src/official-asset-store.ts:103-182 | from the creation of a store on: the history starts with the base record, scans return the last record, and what follows a withdrawn record is withdrawn |
| AssetStoreSafety.SlowReaderSeesItsListing | 40_Develop/official-asset-governance/src/official-asset-store.ts:110-129 | a scan whose contents are read later than its listing still returns the record that was last when the names were listed |
| AssetStoreSafety.WithdrawalIsFinal | 40_Develop/official-asset-governance/src/official-asset-governance.ts:216-224 | after a withdrawn record every record, now and after any further run, is withdrawn |
| AssetStoreSafety.UnreadableIsTheEnd | 40_Develop/official-asset-governance/src/official-asset-store.ts:116-123 | a store that became unreadable commits nothing any more |
| AssetStoreSafety.OneCommitTooMany | 40_Develop/official-asset-governance/src/official-asset-store.ts:110-182 | the failing case: a new store whose base has revision 10^12 - 1 takes one more decision, and then every scan throws |
| AssetStoreSafety.InclusionNamesOneDecision | 40_Develop/official-asset-governance/src/official-asset-governance.ts:264-289 | an inclusion is verified by at most one record of a history |
| AssetGovernance.AppliedFollows | 40_Develop/official-asset-governance/src/official-asset-governance.ts:174-246 | an applied decision keeps identity and origin, advances the revision by one, and respects withdrawal |
| AssetGovernance.AppliesExactly | 40_Develop/official-asset-governance/src/official-asset-governance.ts:174-246 | a decision applies exactly when its input is sensible, names this asset and revision, expects the current record, and does not reopen a withdrawn one; then the record is approved, restricted or withdrawn as decided, with the fields of the input; otherwise the reason is the first of these that fails |
| AssetGovernance.InclusionsOfDecision | 40_Develop/official-asset-governance/src/official-asset-governance.ts:264-289 | an inclusion is verified by the record of a decision exactly when it names that decision and a purpose and release that it allows; a withdrawal verifies none |
| AssetExecution.Process.Execute | 40_Develop/official-asset-governance/src/official-asset-store.ts:231-305 | with any steps of others in between, a true, false or undetermined effect report is what happened; nothing is committed without authority; a completed decision is committed right after the record that it was made on and says what was asked for, an approval an approved record; a decision that does not apply is refused for its reason and changes nothing; the reason of every other report tells the effect and the answer of the lock, and a conflict means that others committed meanwhile; undisturbed, an authorized decision that applies is completed |
| AssetExecution.Process.Publish | 40_Develop/official-asset-governance/src/official-asset-store.ts:153-182 | the operation under the lock commits exactly when it says so, only on the expected revision, and conflicts exactly when that is not the current one |
| AssetExecution.LockExcludes | 40_Develop/official-asset-governance/src/official-asset-store.ts:149-182 | while one process holds the lock nobody else commits |
| ProcessObserver.Observer.Observe | 40_Develop/coordinator/scripts/project-runtime-real-provider-contract.ts:460-806 | what is observed is a function of the bytes that were taken, however they came in chunks and for every incremental decoder; all of them are taken exactly when each stream is within the byte limit; the input is ended exactly for a chunk that does not fit or asks for it, or by an answer |
| ProcessObserver.Utf8DecoderFits | 40_Develop/coordinator/scripts/project-runtime-real-provider-contract.ts:460-500 | the decoder that holds back an unfinished character is such a decoder, so chunks may end inside of a character |
| ProcessObserver.LatchedOnce | 40_Develop/coordinator/scripts/project-runtime-real-provider-contract.ts:594-611 | at most one trigger is latched, by one of the events, and neither later lines nor violations add or change one |
| ProcessObserver.LineSound | 40_Develop/coordinator/scripts/project-runtime-real-provider-contract.ts:564-613 | one line keeps the lists of starts and selections the projections of the runtime events |
| ProcessObserver.ObservationSound | 40_Develop/coordinator/scripts/project-runtime-real-provider-contract.ts:564-640 | every finished observation has these projections and at most one trigger |
| ObserverTriggers.ObservationExplained | 40_Develop/coordinator/scripts/project-runtime-real-provider-contract.ts:564-806 | over a whole output: the lines give the events in order, and decide what is latched: the first event whose answer is carried out ends the input or the tree; a violation is a bad line, an order to terminate at a selection, or a known line that is not finished |
| ObserverTriggers.LinesExplained | 40_Develop/coordinator/scripts/project-runtime-real-provider-contract.ts:564-613 | an event is asked about exactly while every line before it has left the questions open |
| ObserverTriggers.LineEffect | 40_Develop/coordinator/scripts/project-runtime-real-provider-contract.ts:564-613 | what one line changes, field by field |
| ProcessObserver.SplitAppend | 40_Develop/coordinator/scripts/project-runtime-real-provider-contract.ts:626-633 | splitting a pending text and what follows it gives the same lines as splitting both together |
| ProcessObserver.Observer.TakeLines | 40_Develop/coordinator/scripts/project-runtime-real-provider-contract.ts:625-633 | the loop takes all complete lines off the pending text and leaves what follows the last newline |
| ProcessObserver.Observer.AcceptDiagnosticLine | 40_Develop/coordinator/scripts/project-runtime-real-provider-contract.ts:564-613 | one line changes the observation as its event, violation or answer says |
| ProcessObserver.TakenWhenWithin | 40_Develop/coordinator/scripts/project-runtime-real-provider-contract.ts:614-620 | no chunk is dropped exactly when the totals are within the limit |
| ProcessObserver.ChunkingMattersBeyondLimit | 40_Develop/coordinator/scripts/project-runtime-real-provider-contract.ts:614-620 | beyond the limit the chunking decides what is seen: a concrete text that is a violation in two chunks and unseen in one |
| ProviderReport.BuildReport | 40_Develop/coordinator/scripts/project-runtime-real-provider-contract.ts:1080-1609 | the report completes exactly when no run has a problem, and cleanup is confirmed exactly when every process was joined and the recovery state is clean; what completion means is in CompletesExactly |
| ProviderReport.CompletedNamesOneOperationEach | 40_Develop/coordinator/scripts/project-runtime-real-provider-contract.ts:1425-1477 | a completed report names exactly one operation for each attempt, all different; the lost attempt is the one whose process tree was terminated; the recovery changed no file |
| ProviderEvents.CompletesExactly | 40_Develop/coordinator/scripts/project-runtime-real-provider-contract.ts:1080-1475 | over observed processes the report completes exactly when every process said exactly its events, under a well-formed operation identity of its own, with the triggers, answers, repository states and the seven recovery phases that belong to it |
| ProviderReport.NothingChanged | 40_Develop/coordinator/scripts/project-runtime-real-provider-contract.ts:1007-1020 | no changed path means the same files with the same contents, and the reverse |
| ProviderReport.CollectIds | 40_Develop/coordinator/scripts/project-runtime-real-provider-contract.ts:1442-1457 | the loops over the attempts find inconsistent identities and collect all of them |
| ProxyRequest.ReadRequest | 40_Develop/coordinator/runtime/provider-egress-proxy.py:46-80 | over any pieces of the connection: header, delimiter and remainder of an accepted request are the bytes received, at most 8192; it is refused as too large or incomplete exactly then, and otherwise with the error of the first thing that is wrong with the header |
| ProxyRequest.Receive | 40_Develop/coordinator/runtime/provider-egress-proxy.py:46-53 | the loop stops at the first piece that completes the header, or at too many bytes, or at the end |
| ProxyRequest.SplittingIrrelevant | 40_Develop/coordinator/runtime/provider-egress-proxy.py:46-80 | two splittings of one connection that are both accepted give the same host and headers |
| ProxyRequest.ReadHeaders | 40_Develop/coordinator/runtime/provider-egress-proxy.py:70-79 | the loop over header lines accepts exactly headers with different names, and keeps each one's value |
| ProxyRequest.ParseHeader | 40_Develop/coordinator/runtime/provider-egress-proxy.py:54-80 | a header is accepted exactly when it asks for a hostname with headers, and refused with the error of the first thing that is wrong with it |
| ProxyRequest.WrittenRequestIsRead | 40_Develop/coordinator/runtime/provider-egress-proxy.py:54-80 | a written CONNECT request for any hostname and up to 63 headers is read as what was written |
| ProxyText.AsksExactly | 40_Develop/coordinator/runtime/provider-egress-proxy.py:54-80 | exactly the texts that are put together from a request line for a hostname on port 443 and at most 63 header lines with different names, in any case and with any white space, ask for that hostname with those headers |
| ProxyText.HostnameExactly | 40_Develop/coordinator/runtime/provider-egress-proxy.py:24-26 | a hostname is one letter or digit, or two around at most 251 letters, digits, dots and hyphens |
| ProxyText.HeaderExactly | 40_Develop/coordinator/runtime/provider-egress-proxy.py:70-79 | a header line is a name and a value with white space around them and a colon after the name |
| ProxyText.StripExactly | 40_Develop/coordinator/runtime/provider-egress-proxy.py:73-75 | stripping leaves what stands between the white space of ASCII |
| ProxyText.HeaderEnds | 40_Develop/coordinator/runtime/provider-egress-proxy.py:48-54 | the header ends before the first empty line |
| ProxyRelay.Relay | 40_Develop/coordinator/runtime/provider-egress-proxy.py:132-159 | in each direction a prefix of what was received is passed on, at most 16 MiB, and all of it unless sending failed or the limit was exceeded; it goes on exactly over reads that were passed on completely, passes on nothing of a read that exceeds the limit, and of a failing send what was sent |
| StagingPlacement.Staging.Place | 40_Develop/coordinator/scripts/release-staging-manifest.ts:394-521 | success means that the new file holds exactly the input and that every observation of it agreed; every failure says truthfully whether the file was created and asks for discard once creation was attempted, with 1 to 131072 bytes in a verified session; an existing file is never touched; when every call makes progress and nothing interferes it succeeds; a created file is closed |
| StagingPlacement.Staging.WriteAll | 40_Develop/coordinator/scripts/release-staging-manifest.ts:447-457 | over any partial writes the loop ends with all bytes written, or with a proper prefix |
| StagingPlacement.Staging.ReadBack | 40_Develop/coordinator/scripts/release-staging-manifest.ts:463-476 | over any partial reads the buffer holds a prefix of the file |
| OneShot.YieldsAtMostOnce | 40_Develop/artifact-signing/src/one-shot-authorization.ts:68-93 | over any sequence of calls a token yields at most once |
| OneShot.YieldsItsRegistration | 40_Develop/artifact-signing/src/one-shot-authorization.ts:68-93 | what a token yields is what was registered for it first |
| OneShot.FirstTakeSucceeds | 40_Develop/artifact-signing/src/one-shot-authorization.ts:87-93 | the first attempt to consume a registered token succeeds |
| OneShot.AnswersExactly | 40_Develop/artifact-signing/src/one-shot-authorization.ts:68-93 | over any calls a registration is accepted exactly when it is the first of its token, and a token yields exactly when it was registered and has not yielded yet |
| OneShot.Authorizations.Consume | 40_Develop/artifact-signing/src/one-shot-authorization.ts:87-93 | the token is marked used before its value is handed over |
| OneShot.Authorizations.Register | 40_Develop/artifact-signing/src/one-shot-authorization.ts:68-71 | a token is registered once |
| KeySigning.Signer.ReadStablePrivateKey | 40_Develop/artifact-signing/src/private-key-signing.ts:196-272 | closing the descriptor is attempted once on every exit after it was opened, and a close that throws is a failing exit; a failing exit leaves its buffer zeroed; a key is handed over only when every observation agrees with the authorized identity |
| KeySigning.Signer.Sign | 40_Develop/artifact-signing/src/private-key-signing.ts:386-433 | the authorization is used up whatever happens and a used one opens nothing, nor does a passphrase that is not 1 to 1024 bytes long; a descriptor that was opened is attempted to be closed, and no secret remains in a buffer; a signature is made only with the authorized, unchanged key and the expected public key, and is made when they are in order |
| KeySigning.OpenedExactly | 40_Develop/artifact-signing/src/private-key-signing.ts:196-272 | two descriptors agree exactly when device, file number, birth, size and modification do |
| HiddenLine.Terminal.ReadHiddenLine | 40_Develop/artifact-signing/src/terminal-secret-input.ts:48-142 | the line is that of one machine over all code units, however they came in chunks; the read settles once, after attempting every due cleanup once in order, with the reason of a failed setup or cleanup, a cancellation, a closed input or a failed output, or with the line |
| HiddenLine.Terminal.Finish | 40_Develop/artifact-signing/src/terminal-secret-input.ts:62-97 | the first call settles and attempts every due cleanup, whichever of them throw |
| HiddenLine.Terminal.OnData | 40_Develop/artifact-signing/src/terminal-secret-input.ts:99-124 | one chunk moves the line as its units do, up to the one that ends it |
| HiddenLine.Terminal.SetUp | 40_Develop/artifact-signing/src/terminal-secret-input.ts:125-141 | a setup call that throws settles at once, after undoing exactly what was attempted before it |
| HiddenLine.Keys | 40_Develop/artifact-signing/src/terminal-secret-input.ts:99-121 | which code units cancel, enter and remove, and which are passed over |
| HiddenLine.PrintableTyped | 40_Develop/artifact-signing/src/terminal-secret-input.ts:99-121 | printable text is typed as it is, and entered or cancelled as a whole |
| HiddenLine.WholeUnlessPairRemoved | 40_Develop/artifact-signing/src/terminal-secret-input.ts:116-121 | the line holds whole characters at every moment exactly when no backspace meets a character of two code units |
| HiddenLine.HalfACharacterStays | 40_Develop/artifact-signing/src/terminal-secret-input.ts:116-121 | the failing case: a backspace after a character of two units leaves its first unit on the line |
| HiddenLine.AgreeStep | 40_Develop/artifact-signing/src/terminal-secret-input.ts:116-121 | a backspace on a character of two units leaves half of it behind; nothing else breaks a character |

## Left out

- RouteMatrixProperties.PoisonStopsUnlessUnreported: that no attempt follows a poisoning one holds for answers that report the poisoning they did, because the matrix itself does not look at the poison flag between attempts.
- RouteMatrixProperties.MatrixOverTasks: consent mode, release and execution identity of a task run are given beside its result, and each run has surroundings of its own.
- PromotionProcess.Process.ReadStableFile: the disk does not change between the two identity checks and every read makes progress, so a change during reading and a read of no bytes are not modelled.
- PromotionExits.RewrittenStagingIsRefused: a staged file that is rewritten is a state of the disk in which a promotion starts, not an event between two of its operations.
- ProcessObserver.Observer.Observe: independence of the chunking is claimed within the byte limit only, because beyond it the code does not have it.
- WorkerEntry.FramedReaderExact: framing is claimed for root requests only, because the length field is defined for them only.
- StagingPlacement.Staging.Place: an outsider may overwrite the file before it is read back, but not after; then the code looks only at metadata.
- ProcessObserver.Observer.AcceptDiagnosticLine: how one line is read (JSON, key sets, grammars of identifiers) is an open function of the line.
- ProviderReport.BuildReport: problems are grouped by run, and whether a response carries the expected result is a given flag.
- TaskRun.Runner.Run: the diagnosis of a failed review and the candidate disposition text are not modelled; a reason code is a value without its common prefix.
- TaskRun.Runner.ObserveTask: signal listeners, timers and promises are one choice of which event comes first; listeners that throw when removed are one flag, and a cancellation promise that is rejected is not modelled.
- HiddenLine.Terminal.OnData: what a chunk that comes after settling may still write to the terminal is not modelled.
- Lcov.ParseExactTsCoverageLcov: strings are sequences of Unicode scalar values, so a lone surrogate in the input is not modelled.
- LcovSource.AcceptedSources: absolute paths start with a slash; drive letters of a Windows host are not modelled.
- AssetExecution.Process.Execute: the store lock is mutual exclusion with arbitrary answers; its recovery files and kernel primitive are not modelled.
- AssetStoreSafety.AtomicRegister: the creation of the base file is taken as done before any process starts.
- ProxyRelay.Relay: the selector is an arbitrary list of ready events; several ready sides at once are taken in their order.
- KeySigning.Signer.Sign: key formats and Ed25519 are an open function from key bytes and passphrase; copies that the runtime itself makes are out of sight.
- Digests are open functions; equality of digests is used only where the code also compares bytes.
- The file system below paths, hard links, link counts, sizes and time stamps; a link call that links and then throws; Docker, Git, WinTrust and child processes.
- Hygiene of JavaScript objects: proxies, accessors, prototypes and freezing. Records that fail it are unreadable records here.
- The repository gates before and after a promotion are two answers of the surroundings.
- Environment files, command lines, help texts, contract descriptions, the project-operation and outcome validators, and the proxy's server loop, DNS answers and authorization header: short branch lists.
- The pipe name test and the invocation modes of the worker: single expressions without a property beyond their reading.
