# Verified model of the Plesk connector

The connector changes a hosting panel on behalf of automated agents. It plans a change, shows the plan with its
hash, and applies it only against a signed, one-shot grant for exactly that hash. These Dafny modules model the parts
of it that carry state or exact text algebra, and prove what the connector relies on.

| module | models |
|---|---|
| `ReplayStore` | the two stores of consumed grant identifiers, and runs of calls on them |
| `ApplyGrant` | issuing, verifying and consuming signed grants |
| `GrantedHandlers`, `GrantedChecks`, `LateConsumption` | nine handlers as processes that interleave on one replay store, in memory or on file |
| `Manifest`, `Sorting` | the immutable manifest and the plan hash |
| `SiteTree`, `PlannedFiles`, `PlannedPaths`, `SiteUpload` | planning a directory tree, and the SFTP and FTP uploads of it |
| `ReleaseOps`, `ReleaseRuns` | releases as links or pointer files: activation, rollback, crashes, whole runs |
| `SiteTwin` | the digital twin: a plan materialised as a release and checked again later |
| `DnsNames`, `RecordPlans`, `DnsReplace`, `CloudflareDns` | replacing address records at two providers |
| `ManagedBlock`, `ReverseProxy` | the managed nginx block: the merge, and its application with rollback |
| `TlsNames` | matching a host against certificate names |
| `Text`, `Filtering`, `Utf8`, `Base64Url`, `Json` | the text and sequence operations and the codecs that these use |

`dafny verify dfyconfig.toml` checks all of it.

## How the model is built

- Procedures that change something are classes with methods that perform the same steps (the replay stores, the release
  file system, the SFTP session, the two DNS zones, the proxy host). Each method is proved equal to a function on the
  state before it, and the theorems are about runs of those functions.
- The outside world is a parameter: clock readings, random bytes, the panel's answers, exit codes, the order in which a
  directory is listed, the fate of every transfer. Theorems hold for all values of these unless they say otherwise.
- SHA-256 and HMAC-SHA-256 are function parameters. A theorem that needs them to be injective asks it only of the
  texts it compares, so it says: this holds unless these two texts collide.
- Printing an ISO date and parsing it back is a pair of parameters of which only the truncation to milliseconds is
  asked, at the instant in question.
- Texts that the code strips or lower-cases before use are carried in that form inside the models of runs
  (`ReplayStore.Call`, `ApplyGrant.Expectation`). The stores' methods strip for themselves, and
  `ApplyGrant.GrantSurvivesRotation` is about the raw arguments, by way of `ApplyGrant.Expect`.

## What the code does not do

Properties that the code keeps only under a condition are proved with the exact condition.

- A consumed grant is accepted again exactly at expiry + 60 s, the last instant at which it verifies: the purge has just
  dropped the entry, and an entry renewed then is due at once, so every presentation at that instant passes
  (`ApplyGrant.AcceptedAgainExactlyAtTheEnd`). Before that instant none does, however the token is spelled
  (`ApplyGrant.AcceptedTwiceOnlyAtTheEnd`). The store's documentation promises a refusal without that exception.
- A handler verifies first and reads the clock again to consume. One that verified in time consumes a consumed grant
  again exactly if that second reading is at or after expiry + 60 s, and nothing bounds how late it is
  (`LateConsumption.ConsumesAgainExactly`, with the input of `LateConsumption.BothChangeWhenLate`).
- The clock is read before the store's lock is taken. A call that read it late but gets through early purges entries
  under calls that read it early, so an identifier can be accepted twice with two early readings
  (`ReplayStore.TwiceDespiteEarlyReadings`); when, without any condition on the order, says
  `ReplayStore.AcceptedAgainExactly`. Measured by when a consumption gets through, single use still holds up to
  expiry + 60 s (`GrantedHandlers.OneBatchPerGrant`).
- The two replay stores can be told apart exactly when the instants of the calls step back
  (`ReplayStore.StoresAgreeExactly`).
- Activation is documented as atomic but takes several operations. Which crashes make a retry end otherwise is stated
  for every root, also one left by an earlier crash, and for both strategies: with links when the old `previous` link
  has just been removed and nothing else records that release, or a left-over pointer file is read in place of the
  `current` link just removed (`ReleaseRuns.CrashThenRetryExactly`); with pointer files when the crash falls
  between the two writes and only a pointer file recorded the release replaced (`ReleaseRuns.PointerCrashThenRetry`),
  which from pointer files alone is every activation of another release (`ReleaseRuns.PointerCrashFromPointers`). From a consistent root of links alone a single crash loses only by
  re-activating the current release (`ReleaseRuns.CrashThenRetry`), but two crashes in a row can lose the old release of
  any activation (`ReleaseRuns.TwoCrashesLoseTheOldRelease`).
- Over SFTP existence is that of what a link leads to. A link whose release is gone looks absent, is not removed, and is
  in the way of the next activation by links (`ReleaseOps.LinkReplacedExactly`).
- A pointer activation on top of links is not read back unless the links happen to agree
  (`ReleaseRuns.PointerReadBackExactly`), so in whole runs no pointer activation may follow one by links.
- Replacing the record at the apex of a zone with three or more labels deletes it, adds it under another name and fails
  verification; on a refused add the deleted record is put back under that other name
  (`DnsReplace.ReplaceVerifiedExactly`, `DnsReplace.CompensationRestoresExactly`, `DnsNames.DeepApexMisplaced`). The
  helper's documentation presents the relative name as always right.
- A delete packet that is refused after some of its operations took effect is not compensated
  (`DnsReplace.RefusedDeleteLosesExactly`).
- A proxy configuration that exists but cannot be opened is taken for absent. A successful application then replaces
  the whole file by the bare block and reports success; that is the merge of the file exactly if there is nothing
  around its managed block (`ReverseProxy.AppliedMergesFileExactly`, with the input of
  `ReverseProxy.ApplyReplacesUnreadable`).
- The proxy's configuration stays changed without success being reported exactly when an error that is not the
  handler's own breaks it off after the change, or the restore fails (`ReverseProxy.ChangedUnreportedExactly`,
  `ReverseProxy.EscapedExactly`, with the input of `ReverseProxy.EscapeKeepsNewFile`).
- For the same reason a "successful" rollback removes a configuration that exists but cannot be opened
  (`ReverseProxy.RollbackRestores`, with the input of `ReverseProxy.RollbackRemovesUnreadable`).

## Model

| member | source | states |
|---|---|---|
| `ReplayStore.Purge` | urirun_connector_plesk/apply_grant_replay.py:46-49 | deleting dead keys one by one leaves exactly the entries whose instant is still ahead |
| `ReplayStore.MemoryJtiReplayStore.Consume` | urirun_connector_plesk/apply_grant_replay.py:56-66 | the verdict and the whole new dictionary; a refused consumption purges but records nothing |
| `ReplayStore.MemoryJtiReplayStore.Has` | urirun_connector_plesk/apply_grant_replay.py:68-72 | asking purges for good, and answers on what is left |
| `ReplayStore.FileJtiReplayStore.Consume` | urirun_connector_plesk/apply_grant_replay.py:107-119 | the same verdict from the file, which is rewritten only on acceptance |
| `ReplayStore.FileJtiReplayStore.Has` | urirun_connector_plesk/apply_grant_replay.py:121-126 | the answer is as if purged while the file stays as it is |
| `ReplayStore.StoresAgree` | urirun_connector_plesk/apply_grant_replay.py:52-126 | both stores answer every sequence of calls with a nondecreasing clock alike, though they purge at different times |
| `ReplayStore.StoresDifferAfterClockStepsBack` | urirun_connector_plesk/apply_grant_replay.py:68-126 | wherever a clock steps back there is a start and a sequence of calls at its instants on which the stores answer differently |
| `ReplayStore.StoresAgreeExactly` | urirun_connector_plesk/apply_grant_replay.py:46-126 | from every agreeing start the stores answer all calls at given instants alike if and only if the instants never decrease |
| `ReplayStore.KeptUntilDue` | urirun_connector_plesk/apply_grant_replay.py:38-66 | on either store and with instants in any order, an accepted identifier stays recorded until a call carries its instant or a later one |
| `ReplayStore.ConsumedOnce` | urirun_connector_plesk/apply_grant_replay.py:56-66 | so a second acceptance needs some call since the first, or itself, to carry the recorded instant or a later one |
| `ReplayStore.ConsumedOnceInOrder` | urirun_connector_plesk/apply_grant_replay.py:56-66 | with instants in order it is not before the expiry + 60 s, or for an expiry that cannot be parsed not before an hour and 60 s after the first |
| `ReplayStore.AcceptedAgainExactly` | urirun_connector_plesk/apply_grant_replay.py:46-119 | with no condition on the clock, an identifier is accepted again if and only if the call itself, or a purging call since its last acceptance, carries the recorded instant or a later one |
| `ReplayStore.AcceptedAgainWhenDue` | urirun_connector_plesk/apply_grant_replay.py:46-119 | with instants in order: if and only if the recorded instant has come |
| `ReplayStore.TwiceDespiteEarlyReadings` | urirun_connector_plesk/apply_grant_replay.py:60-66 | an input at which an identifier is accepted twice with both readings before expiry + 60 s |
| `Utf8.DecodeEncode` | urirun_connector_plesk/apply_grant.py:159-161 | decoding inverts encoding for every text |
| `Base64Url.EncodeShape` | urirun_connector_plesk/apply_grant.py:46-47 | an encoded part has only letters, digits, hyphens and underscores, so no dot, padding sign or white space, and stripping removes exactly the padding |
| `Base64Url.RoundTrip` | urirun_connector_plesk/apply_grant.py:46-52 | decoding with restored padding inverts encoding (section 5 of RFC 4648) |
| `Json.ReadQuoted` | urirun_connector_plesk/apply_grant.py:80-81 | reading inverts string escaping, whatever follows (section 7 of RFC 8259) |
| `Json.ReadPrinted` | urirun_connector_plesk/immutable_manifest.py:15-17 | reading inverts printing for nested lists and objects, whatever follows |
| `Json.PrintInjective` | urirun_connector_plesk/immutable_manifest.py:15-17 | different values have different canonical texts |
| `Json.PrintedPairRead` | urirun_connector_plesk/apply_grant.py:80-81 | each member of a printed object of texts reads back as its own text when the names differ |
| `ApplyGrant.ClaimsRoundTrip` | urirun_connector_plesk/apply_grant.py:75-81 | the signed payload reads back as the same ten claims |
| `ApplyGrant.OpenToken` | urirun_connector_plesk/apply_grant.py:186-223 | a token made from claims opens to exactly those claims if a configured secret gives the same HMAC on its first two parts as the signing one, and is refused otherwise |
| `ApplyGrant.CheckClaimsExactly` | urirun_connector_plesk/apply_grant.py:225-255 | claims pass exactly when unexpired by more than 60 s, as expected, of a known risk class and with an identifier |
| `ApplyGrant.TokenAccepted` | urirun_connector_plesk/apply_grant.py:167-255 | both together: acceptance of a token if and only if these conditions hold, the equation of the HMACs written out, and always with its own claims |
| `ApplyGrant.IssuedGrantAccepted` | urirun_connector_plesk/apply_grant.py:104-255 | every issued grant is accepted with identical claims exactly up to its millisecond expiry plus 60 s, under secrets one of which gives the same HMAC, and expectations it meets |
| `ApplyGrant.GrantRefusedByStrangers` | urirun_connector_plesk/apply_grant.py:217-223 | a verifier none of whose secrets gives the issuer's HMAC refuses the grant, whatever it expects |
| `ApplyGrant.OpenExactly` | urirun_connector_plesk/apply_grant.py:190-223 | an arbitrary token opens to given claims if and only if it has three parts, header and payload read as the algorithm and these claims, and the third part decodes to the HMAC of the first two under a secret in use |
| `ApplyGrant.VerifiedExactly` | urirun_connector_plesk/apply_grant.py:167-255 | and is accepted with them if and only if moreover they are unexpired by more than 60 s, as expected, of a known risk class and with an identifier: nothing forged is |
| `ApplyGrant.UnreadExactly` | urirun_connector_plesk/apply_grant.py:183-188 | which answers a missing secret and a blank token get |
| `ApplyGrant.RefusedExactly` | urirun_connector_plesk/apply_grant.py:225-253 | which answer the claims of a well-signed token get: the first objection in the order of the checks |
| `ApplyGrant.GrantedExactly` | urirun_connector_plesk/apply_grant.py:121-157 | which requests are granted, and that the grant is for what was requested, from the issuing instant for the requested time |
| `ApplyGrant.FieldRequiredExactly` | urirun_connector_plesk/apply_grant.py:128-140 | of the blank fields the first is named |
| `ApplyGrant.PackSpellings` | urirun_connector_plesk/apply_grant.py:67-72 | a pack named by identifier and version, or by both in one text, is the same pack |
| `ApplyGrant.WholeMilliseconds` | urirun_connector_plesk/apply_grant.py:88-89 | the instant printed is the last whole millisecond |
| `ApplyGrant.ArgumentsMeet` | urirun_connector_plesk/apply_grant.py:232-250 | the raw arguments of a check are met by a grant exactly when each is blank or, normalised, what was requested |
| `ApplyGrant.GrantSurvivesRotation` | urirun_connector_plesk/apply_grant.py:55-64 | on raw requests, arguments and environments: up to expiry + 60 s whose current or next secret, read off the variables, is the issuing one, accepts the grant exactly if nothing else is asked for than was requested |
| `ApplyGrant.VerifiedClaims` | urirun_connector_plesk/apply_grant.py:210-230 | a token fixes the claims it can ever be accepted with |
| `ApplyGrant.VerifyAndConsumeApplyGrant` | urirun_connector_plesk/apply_grant.py:258-296 | verify then consume: answer and store; the store is asked only for a grant that verifies |
| `ApplyGrant.ConsumptionAnswers` | urirun_connector_plesk/apply_grant.py:285-296 | a grant that verifies is answered as a replay exactly if its identifier is recorded for a later instant, as a bad signature exactly if that is blank, and with its claims otherwise |
| `ApplyGrant.AcceptedTwiceOnlyAtTheEnd` | urirun_connector_plesk/apply_grant.py:225-296 | in any run with a nondecreasing clock, of two accepted presentations with one identifier, whatever their tokens and expectations, the second is not before the first's expiry + 60 s |
| `ApplyGrant.SameGrantAcceptedTwice` | urirun_connector_plesk/apply_grant.py:225-296 | for the same identifier and expiry it is exactly at that instant |
| `ApplyGrant.RespelledToken` | urirun_connector_plesk/apply_grant.py:186-190 | white space around a token makes no difference to its verification |
| `ApplyGrant.TokenAcceptedTwice` | urirun_connector_plesk/apply_grant.py:186-296 | so for one token, with any white space around it |
| `ApplyGrant.AcceptedAgainExactlyAtTheEnd` | urirun_connector_plesk/apply_grant.py:225-296 | in any run with instants in order, a later presentation that verifies is accepted if and only if it comes exactly at expiry + 60 s, however many came before |
| `ApplyGrant.AcceptedAgainAtTheEnd` | urirun_connector_plesk/apply_grant_replay.py:46-49 | an input at which it is: presented again at exactly that instant |
| `GrantedHandlers.DigestNormal` | urirun_connector_plesk/core.py:2116-2118 | normalising a supplied hash does not change a digest |
| `GrantedHandlers.RunKeeps` | urirun_connector_plesk/core.py:2111-2136 | the invariant that ties program positions, event log and store, of either kind, holds in every interleaving, the reading of the clock and the locked consumption being steps of their own |
| `GrantedHandlers.EveryChangeIsGranted` | urirun_connector_plesk/core.py:2116-2143 | in every interleaving each changing call follows, in the same invocation, a check bound to the hash and, but for the tree synchronisation, the artifact recomputed there and a consumption of that grant which the store accepted |
| `GrantedHandlers.EveryChangeIsOfItsPlan` | urirun_connector_plesk/core.py:2116-2132 | the claims consumed are those of the invocation's own token, their plan hash is the one recomputed there, and target, actor, pack and artifact are those of the call |
| `GrantedChecks.EveryCheckPassed` | urirun_connector_plesk/core.py:2091-2132 | before each change its process has stood at every earlier check of its handler and passed it |
| `GrantedChecks.ChangesOnlyWhenAllowed` | urirun_connector_plesk/core.py:2091-2130 | so every change comes from a call with `apply` set, after a turn in which its switches were open, with a grant of the plan's risk class in the eight handlers that compare it |
| `GrantedChecks.FailureIsFinal` | urirun_connector_plesk/core.py:2091-2136 | a call that fails a check, whose grant does not verify or is refused by the store is over: whatever happens later, nothing is verified, consumed or changed by it |
| `GrantedChecks.EveryHandlerGetsThrough` | urirun_connector_plesk/core.py:2091-2151 | conversely each of the nine handlers, with everything in order, gets to its changes and makes as many as there are |
| `GrantedHandlers.SecondConsumptionLate` | urirun_connector_plesk/apply_grant_replay.py:56-66 | of two consumptions of one identifier in a run the later gets through to the store at or after the first's expiry + 60 s, whenever it read the clock |
| `GrantedHandlers.OneBatchPerGrant` | urirun_connector_plesk/core.py:3843-3860 | two invocations whose tokens, spelled however, carry one identifier both change something only if one got its consumption through after the other's grant had stopped verifying |
| `GrantedHandlers.OneBatchPerToken` | urirun_connector_plesk/core.py:3843-3860 | so for one token, with any white space around it |
| `LateConsumption.ConsumesAgainExactly` | urirun_connector_plesk/apply_grant_replay.py:56-66 | in any run whose readings reach the store in order, a handler with verified claims of a consumed grant consumes it again if and only if it read the clock at or after expiry + 60 s |
| `LateConsumption.BothChangeWhenLate` | urirun_connector_plesk/core.py:1096-1112 | an input, for every such instant, at which two invocations with one token both change something |
| `GrantedHandlers.RunAlike` | urirun_connector_plesk/apply_grant_replay.py:75-126 | where the readings reach the store in order, every interleaving takes the same course on both stores |
| `Sorting.SortedOrdered` | urirun_connector_plesk/immutable_manifest.py:44-47 | the sort is ordered and a permutation |
| `Sorting.SortedCanonical` | urirun_connector_plesk/immutable_manifest.py:44-48 | sorting two sequences gives the same result exactly when they have the same elements, if equal keys mean equal elements |
| `Sorting.SortedExactly` | urirun_connector_plesk/immutable_manifest.py:44-48 | in general exactly when they have the same elements in the same order at each key: the sort is stable |
| `Manifest.HashTextInjective` | urirun_connector_plesk/immutable_manifest.py:55-61 | the text under the hash determines files, deletions and target |
| `Manifest.SameFiles` | urirun_connector_plesk/immutable_manifest.py:43-47 | with distinct paths, the manifests list the same files exactly when the sets of path and digest are equal |
| `Manifest.HashTextBindsPlan` | urirun_connector_plesk/immutable_manifest.py:43-61 | the texts are equal exactly for the same files, deletions and target, in whatever order they were planned |
| `Manifest.PlanHashBinds` | urirun_connector_plesk/immutable_manifest.py:85-105 | an apply passes against a dry run's hash exactly when both plan the same thing; order, sizes and pack metadata play no part |
| `Manifest.HashTextExactly` | urirun_connector_plesk/immutable_manifest.py:43-61 | for plans of any kind, repeated paths included, the texts are equal exactly when deletions and target agree and at every path the same digests are listed in the same order |
| `Manifest.PlanHashBindsListing` | urirun_connector_plesk/immutable_manifest.py:85-105 | and so an apply passes against a dry run's hash |
| `Manifest.OrderMattersAtOnePath` | urirun_connector_plesk/immutable_manifest.py:43-47 | two files at one path with different digests hash differently when swapped, wherever they stand in a plan |
| `Manifest.SourceDigestExactly` | urirun_connector_plesk/immutable_manifest.py:20-26 | the digest of the source is the same exactly when the same digests are listed at every path, whatever else differs |
| `Manifest.HashTextRead` | urirun_connector_plesk/immutable_manifest.py:43-74 | the hashed text reads back as what the manifest shows, and that is a permutation of what was planned and deleted |
| `Manifest.BytesTotalAdds` | urirun_connector_plesk/immutable_manifest.py:64 | the byte total of two plans together is the sum of theirs |
| `SiteTree.LeavesCanonical` | urirun_connector_plesk/core.py:3804-3829 | what is planned, and its order, does not depend on how directories are listed |
| `SiteTree.WalkLeaves` | urirun_connector_plesk/core.py:3809-3817 | the top-down walk visits exactly the leaves of the recursive definition, in order |
| `SiteTree.PlanLocalTree` | urirun_connector_plesk/core.py:3804-3829 | the planning loops produce exactly the items of those leaves, under the request's exclusions or the default ones |
| `PlannedFiles.LeavesExactly` | urirun_connector_plesk/core.py:3804-3829 | a leaf is planned if and only if its names lead to a file of that content, no directory on the way is skipped or matched by a pattern, its name is not skipped, and no pattern matches its path or its name |
| `PlannedFiles.PlannedExactly` | urirun_connector_plesk/core.py:3804-3829 | so for the items of a request, with its own exclusions or, if it has none, the default ones |
| `PlannedFiles.NeverPlanned` | urirun_connector_plesk/core.py:3810-3813 | whatever is requested, nothing below `.git`, `.secrets` and their like is planned |
| `PlannedPaths.SplitJoin` | urirun_connector_plesk/core.py:3815 | a planned path splits back into the names on its way |
| `PlannedPaths.PlannedPathsDistinct` | urirun_connector_plesk/core.py:3804-3829 | the planner never plans one path twice |
| `SiteUpload.SftpSession.Mkdir` | urirun_connector_plesk/core.py:438-440 | callable only for a path that does not exist and whose parents all do |
| `SiteUpload.SftpSession.Put` | urirun_connector_plesk/core.py:476-478 | callable only where every directory above the file exists |
| `SiteUpload.SftpMkdirs` | urirun_connector_plesk/core.py:430-441 | the cache holds only existing directories, and exactly the missing ones are made, up to the first that is refused |
| `SiteUpload.PartsGood` | urirun_connector_plesk/core.py:431 | the parts of a remote path are proper names, and slashes at its beginning make no difference |
| `SiteUpload.OutcomeExactly` | urirun_connector_plesk/core.py:473-492 | an upload completes a prefix of the leaves, all of them exactly without an error; a late or broken transfer is a partial upload exactly when the prefix is not empty; and when the remote check objects |
| `SiteUpload.UploadExactly` | urirun_connector_plesk/core.py:473-492 | an upload completes if and only if every transfer is stored and, under the check, read back with its planned digest; otherwise the first one that is not ends it, with the error that its kind and place call for |
| `SiteUpload.UploadFollowsPlan` | urirun_connector_plesk/core.py:444-494 | that prefix is the planner's path list in plan order, and every target is the planned remote path, for any two listings |
| `SiteUpload.CheckedUploadIsStored` | urirun_connector_plesk/core.py:484-492 | a completed upload under the remote check has stored every planned file, readable, with its planned digest |
| `SiteUpload.CompletedIsPrefix` | urirun_connector_plesk/core.py:444-494 | also when a directory is refused, the completed paths are a prefix of the planned ones, not beyond the outcome of the transfers |
| `SiteUpload.SftpUploadDir` | urirun_connector_plesk/core.py:444-494 | the SFTP loops have that outcome or break off just before the files of a refused directory, and at any end the log of transfers is the planned targets in order |
| `SiteUpload.FtpMkdirs` | urirun_connector_plesk/core.py:511-521 | a permanent refusal counts as existing, any other error breaks off, and no directory is asked for twice |
| `SiteUpload.FtpUploadDir` | urirun_connector_plesk/core.py:532-569 | so have the FTP loops; every directory above a file has been asked for before it is stored |
| `ReleaseOps.PointerRoundTrip` | urirun_connector_plesk/release_ops.py:124-144 | a pointer file reads back as the release it was written for |
| `ReleaseOps.ReleaseFs.ReplaceLink` | urirun_connector_plesk/release_ops.py:216-221 | replacing a link is the two operations, stopping at the first error |
| `ReleaseOps.LinkReplacedExactly` | urirun_connector_plesk/release_ops.py:266-285 | from any state when that succeeds and what it leaves; over SFTP a link that leads nowhere is in the way |
| `ReleaseOps.ClearedExactly` | urirun_connector_plesk/release_ops.py:209-278 | from any state what a clean-up removes: over SFTP neither a directory nor a link that leads nowhere, and nobody notices |
| `ReleaseOps.LinkRead` | urirun_connector_plesk/release_ops.py:305-317 | a link is read as the last name of its target, whatever slashes end it |
| `ReleaseOps.PointedIsValid` | urirun_connector_plesk/release_ops.py:133-146 | whatever a pointer file holds, only a valid release id is read from it |
| `ReleaseOps.ReleaseFs.ActivateViaSymlink` | urirun_connector_plesk/release_ops.py:363-380 | the step-by-step procedure is the four phases |
| `ReleaseOps.ReleaseFs.ActivateViaPointer` | urirun_connector_plesk/release_ops.py:382-396 | the two writes and where they stop |
| `ReleaseOps.ReleaseFs.Activate` | urirun_connector_plesk/release_ops.py:339-407 | answer and new file system for every strategy, with the fallback of `auto` from whatever the failed attempt left |
| `ReleaseOps.ReleaseFs.Rollback` | urirun_connector_plesk/release_ops.py:410-435 | target choice, the two refusals, and the activation |
| `ReleaseOps.RefusedExactly` | urirun_connector_plesk/release_ops.py:347-356 | in any root an activation is refused exactly for a bad id or where there is neither marker nor directory, and then changes nothing |
| `ReleaseOps.RollbackRefusedExactly` | urirun_connector_plesk/release_ops.py:418-423 | and a rollback exactly without a target or for the current release |
| `ReleaseRuns.ReadRoot` | urirun_connector_plesk/release_ops.py:305-336 | reading gives what the links say and, without a link, what the pointer file says |
| `ReleaseRuns.SymlinkActivation` | urirun_connector_plesk/release_ops.py:363-380 | from links, pointers or both, a symlink activation ends in exactly the links of the new pair and touches nothing else |
| `ReleaseRuns.CrashPointsLeadToTheEnd` | urirun_connector_plesk/release_ops.py:363-380 | the crash points are the points of a complete activation |
| `ReleaseRuns.CrashThenRetryExactly` | urirun_connector_plesk/release_ops.py:363-380 | from every root, consistent or left by a crash: stopped after any single operation, what is readable as current, and a retry ends like no crash if and only if the crash is not one of the two losing kinds |
| `ReleaseRuns.CrashThenRetry` | urirun_connector_plesk/release_ops.py:279-285 | from a consistent pure root: current is old, none or new, and only re-activating the current release, its previous link just removed, loses |
| `ReleaseRuns.RetriesEndAlike` | urirun_connector_plesk/release_ops.py:363-380 | after any number of interrupted attempts at harmless points, one that completes answers and leaves exactly the same file system as if there had been none |
| `ReleaseRuns.TwoCrashesLoseTheOldRelease` | urirun_connector_plesk/release_ops.py:368-372 | an input at which two crashes in a row lose the old release |
| `ReleaseRuns.PointerCrashThenRetry` | urirun_connector_plesk/release_ops.py:382-391 | from every root: stopped between its two writes, a pointer activation reads as the new release beside the unchanged previous one, and a retry ends like no crash if and only if the replaced release is recorded elsewhere |
| `ReleaseRuns.PointerCrashFromPointers` | urirun_connector_plesk/release_ops.py:382-391 | from a consistent pointer root: if and only if there was no current release or it is the one activated |
| `ReleaseRuns.PointerReadBackExactly` | urirun_connector_plesk/release_ops.py:309-331 | a pointer activation is read back exactly where no other link hides it |
| `ReleaseRuns.DeniedActivation` | urirun_connector_plesk/release_ops.py:403-407 | where links are denied, the symlink attempt on a pointer root fails before changing anything |
| `ReleaseRuns.ReleasesAreTwoSlots` | urirun_connector_plesk/release_ops.py:305-435 | every run from an empty root in which no pointer activation succeeds after one by links answers and reads like a two-slot machine; previous implies current, they differ, and both name existing releases |
| `ReleaseRuns.RollbackTwice` | urirun_connector_plesk/release_ops.py:410-435 | after any such run two rollbacks without a target swap the pair and swap it back |
| `SiteTwin.CopyFiles` | urirun_connector_plesk/core.py:4840-4853 | after the loop every planned file but the marker's is stored with its planned digest, later writes notwithstanding; at any end nothing has been written but planned files with their planned digests; where the paths can be written it succeeds exactly if the source rereads as planned |
| `SiteTwin.Publish` | urirun_connector_plesk/core.py:4854-4886 | success means marker, files and entrypoint are in place and the release is readable as current; where nothing is in the way it succeeds exactly if the entrypoint is planned and all files have digests |
| `SiteTwin.MarkerSays` | urirun_connector_plesk/core.py:4854-4868 | the marker of a materialised release names its plan, its source, its host and its domain |
| `SiteTwin.ActivationSetsCurrent` | urirun_connector_plesk/release_ops.py:363-380 | in a root of any shape a successful symlink activation makes the release current and leaves all other files alone |
| `SiteTwin.SiteTwinSync` | urirun_connector_plesk/core.py:4815-4886 | a hash that is blank or not the plan's, stripped and in lower case, is refused as such and touches nothing, and nothing else is; success materialises the plan under the release named by its hash; and in a root where nothing is in the way it succeeds exactly if the hash fits, the source rereads as planned and the entrypoint is planned |
| `SiteTwin.TwinIdTellsApart` | urirun_connector_plesk/core.py:4836 | releases are named apart by sixteen characters of their hash, and a digest makes a valid name |
| `SiteTwin.HashNamesPlace` | urirun_connector_plesk/core.py:4815-4821 | twins of other domains or other places have other texts under their hashes |
| `SiteTwin.ObservationMeans` | urirun_connector_plesk/core.py:4966-5032 | in a root of any state: what a positive observation vouches for, and what the other answers mean |
| `SiteTwin.SameSourceFiles` | urirun_connector_plesk/core.py:3817-3828 | two trees plan the same files exactly when paths and contents agree |
| `SiteTwin.ObservedExactly` | urirun_connector_plesk/core.py:4966-4996 | observing a materialised twin succeeds with its release exactly when the plan now has the same files |
| `SiteTwin.TwinRoundTrip` | urirun_connector_plesk/core.py:4966-5032 | after a successful synchronisation, with the root left alone, observation succeeds with that release exactly when the planned source, paths and contents, is unchanged |
| `DnsNames.QualifiesExactly` | urirun_connector_plesk/core.py:1976-2004 | the panel stores an added record under the host it was meant for exactly when the shortest parent seen is the zone or, with none seen, the zone has two labels (or one, and is the host) |
| `DnsNames.QualifiesInZone` | urirun_connector_plesk/core.py:1984-2004 | with all hosts in the zone and its apex listed: exactly unless the host is the apex of a deeper zone |
| `DnsNames.DeepApexMisplaced` | urirun_connector_plesk/core.py:2001-2004 | the apex of a zone with three labels is misplaced |
| `DnsNames.NormalIgnores` | urirun_connector_plesk/verify_ladder.py:231-233 | letter case, dots at the end and white space around it make no difference to a host |
| `RecordPlans.PlannedDeletes` | urirun_connector_plesk/core.py:1957-1961 | the planned deletions leave every other record in place and, at the host, the first match or nothing |
| `DnsReplace.PleskZone.AddRecords` | urirun_connector_plesk/core.py:2007-2013 | what a packet of additions appends, under qualified names and new identifiers |
| `DnsReplace.Replace` | urirun_connector_plesk/core.py:2103-2191 | delete, add, put back on failure and read back, for every answer of the panel at each stage |
| `DnsReplace.ReplaceConverges` | urirun_connector_plesk/core.py:2134-2191 | with everything accepted the read-back passes exactly if a record matched already or the added one lands at the host; then one record is there, a match that existed is the one kept and otherwise the record added, as requested, all others are untouched, and a rerun finds nothing to do |
| `DnsReplace.VerifiedIsAsRequested` | urirun_connector_plesk/core.py:2175-2191 | however the panel answered, a verified record has the requested host, type and value, up to letter case and its trailing dots, and is the only address record left at the host |
| `DnsReplace.UnchangedExactly` | urirun_connector_plesk/core.py:1957-1961 | nothing is done if and only if the one address record at the host already has that type and value |
| `DnsReplace.AddFailedExactly` | urirun_connector_plesk/core.py:2152-2174 | when an add is refused, a rollback is attempted exactly if something was deleted, and reported as its packet is answered |
| `DnsReplace.ReplaceKeepsIds` | urirun_connector_plesk/core.py:2134-2174 | whatever the panel answers, identifiers stay unique |
| `DnsReplace.ReplaceVerifiedExactly` | urirun_connector_plesk/core.py:1976-2004 | in a zone whose apex is listed: exactly if a record matched already, the host is not the apex, or the apex has at most two labels |
| `DnsReplace.CompensationRestores` | urirun_connector_plesk/core.py:2152-2174 | after a refused add the multiset of type, host, value and option is the original exactly if nothing was deleted or the host is named right |
| `DnsReplace.CompensationRestoresExactly` | urirun_connector_plesk/core.py:2152-2174 | the same under the condition on the apex |
| `DnsReplace.OthersUntouched` | urirun_connector_plesk/core.py:2134-2174 | whatever the panel answers at each stage, records of other hosts and types stay in their order, and so does the record that matched; nothing is put beside them exactly if no operation that takes effect puts a record elsewhere |
| `DnsReplace.RefusedDeleteLosesExactly` | urirun_connector_plesk/core.py:2135-2145 | a refused delete packet has lost exactly the planned records on which it took effect |
| `CloudflareDns.CloudflareZone.Reconcile` | urirun_connector_plesk/core.py:2342-2403 | plan, batch and read-back on the records of the zone |
| `CloudflareDns.ReconcileConverges` | urirun_connector_plesk/dns_providers.py:281-315 | an accepted batch always verifies: one address record at the host, as requested with TTL and proxying, an existing match kept, others untouched, nothing left to plan |
| `CloudflareDns.VerifiedIsAsRequested` | urirun_connector_plesk/core.py:2342-2403 | a verified record has the requested host, type, value, TTL and proxying, and is the only address record left there |
| `CloudflareDns.UnchangedExactly` | urirun_connector_plesk/dns_providers.py:281-315 | nothing is done if and only if the one address record at the host is as requested |
| `CloudflareDns.LeastIsKept` | urirun_connector_plesk/dns_providers.py:278-300 | of several records as requested the one with the least identifier is kept |
| `ManagedBlock.MergeJoins` | urirun_connector_plesk/reverse_proxy.py:97-109 | both branches of the merge put the block between the same two parts of the text |
| `ManagedBlock.PartsOfJoined` | urirun_connector_plesk/reverse_proxy.py:97-109 | what a merge has written is read back as those two parts |
| `ManagedBlock.LastWriterWins` | urirun_connector_plesk/reverse_proxy.py:97-109 | merging twice is merging once with the later directives, character for character |
| `ManagedBlock.MergeTwice` | urirun_connector_plesk/reverse_proxy.py:76-109 | so for the connector's own directives for any two upstreams without a hash sign; in particular a merge is idempotent |
| `ManagedBlock.DirectivesName` | urirun_connector_plesk/reverse_proxy.py:76-94 | the directives pass requests on to the upstream, with the visitor's address, and verify its certificate against the upstream's host |
| `ManagedBlock.RejectedExactly` | urirun_connector_plesk/reverse_proxy.py:99-102 | a text is rejected exactly if one marker occurs without the other or an end before every beginning |
| `ManagedBlock.SurroundingsKept` | urirun_connector_plesk/reverse_proxy.py:103-109 | the two parts kept are the whole text outside the first block but for white space before it and at the end, and line ends after it |
| `ReverseProxy.ProxyHost.Ensure` | urirun_connector_plesk/core.py:3688-3753 | file, replay store and answer for every behaviour of the host |
| `ReverseProxy.AppliedExactly` | urirun_connector_plesk/core.py:3694-3729 | success with a change is reported exactly when the merge of what was read got into place, every command ended well and it was read back; it then is the file, and the grant was consumed for it |
| `ReverseProxy.AppliedMergesFileExactly` | urirun_connector_plesk/core.py:3688-3694 | success leaves the merge of the file that was there if and only if it could be read, or there was none, or it had nothing around its managed block |
| `ReverseProxy.ApplyReplacesUnreadable` | urirun_connector_plesk/core.py:3688-3729 | an input at which it does not: any file that cannot be opened is replaced by the bare block, and success is reported |
| `ReverseProxy.EscapedExactly` | urirun_connector_plesk/core.py:3713-3725 | when an error escapes after the change, without rollback |
| `ReverseProxy.ChangedUnreportedExactly` | urirun_connector_plesk/core.py:3704-3753 | for a readable file and commands that do not write it, when it stays changed without success being reported: an escaped error or a failed restore |
| `ReverseProxy.EscapeKeepsNewFile` | urirun_connector_plesk/core.py:3713-3718 | an input at which it does: no file before, and the first command breaks off |
| `ReverseProxy.RollbackRestores` | urirun_connector_plesk/core.py:3730-3753 | a rollback that reports success leaves what was read or what its last command writes, and exactly when that is the original |
| `ReverseProxy.RollbackRemovesUnreadable` | urirun_connector_plesk/core.py:3688-3693 | an input at which it is not: the file exists but cannot be opened |
| `ReverseProxy.RolledBackExactly` | urirun_connector_plesk/core.py:3713-3753 | after the change: when a rollback is attempted, and when it reports success |
| `ReverseProxy.UnmutatedExactly` | urirun_connector_plesk/core.py:3680-3709 | before the change: exactly when the answer is unchanged, a failure, an error that escapes, or the store's refusal |
| `ReverseProxy.UntouchedUnlessMutated` | urirun_connector_plesk/core.py:3688-3709 | without a change reported the file is as it was, but for a rename that took effect and raised; and a run with nothing to change consumes no grant |
| `ReverseProxy.NothingInBetween` | urirun_connector_plesk/core.py:3704-3748 | while no command writes the file it is always the old one, the one read, or the merge |
| `ReverseProxy.RerunIsNoOp` | urirun_connector_plesk/core.py:3694-3700 | running again after success changes nothing and consumes no grant |
| `ReverseProxy.NoDrift` | urirun_connector_plesk/core.py:3688-3753 | after any history of applications, whatever their ends, while the file is readable and no command writes it, it is the first one or the merge of the first text with the directives of the last application that changed it |
| `TlsNames.CountIsOneLabel` | urirun_connector_plesk/verify_ladder.py:234-238 | suffix and equal number of dots mean exactly one dot-free label before the suffix |
| `TlsNames.HostnameMatchesSan` | urirun_connector_plesk/verify_ladder.py:230-241 | true exactly if some entry equals the host or is a wildcard for one label before its suffix (section 6.4.3 of RFC 6125) |
| `TlsNames.WildcardDepth` | urirun_connector_plesk/verify_ladder.py:235-238 | a wildcard covers neither its parent nor a name two labels below it |

## Left out

- HTTP, the panel's XML, SFTP, FTP and SSH transports, vault leasing and host-key pinning: stores and scripted answers stand for them.
- Transport exceptions in the middle of `dns_replace`: the answers modelled are the panel's own.
- GrantedHandlers.EveryChangeIsGranted: the `api_command`, `ensure_domain` and `ensure_ssl` handlers ask for no grant, and the `release_activate` and `release_rollback` handlers compare a supplied plan hash without recomputing it; neither kind is among the nine.
- GrantedHandlers.Code: a handler's checks that touch neither plan nor grant appear as one `Preflight`, and its changing calls as repeated `Mutate`.
- ReplayStore.FileJtiReplayStore.Consume: two processes that write one replay file at a time are not modelled; the code's lock covers threads of one process. Entries that are not numbers are dropped on reading in the code and do not occur in the model.
- ReplayStore.Loaded: a replay file that is not JSON at all makes the code's reading raise; the model knows only JSON files, which it reads as empty when they are no store.
- Base64Url.Decode: texts with characters outside the alphabet are read by a library parameter, as is JSON outside the printed forms (`ApplyGrant.Library`).
- Json.Read: numbers, booleans, null and white space between tokens; the connector prints none of these in what is hashed or signed here.
- ReleaseOps.ParsePointer: a pointer file in another JSON form than objects of texts without white space counts as none. The `strategy` field of the reading is left out.
- ReleaseOps.ReleaseFs: one class with a host tag stands for the local and the SFTP store; making missing parents of a written file is not modelled.
- Text.Lower: lower-casing is modelled for ASCII letters only.
- SiteTree.Excluded: glob matching is a parameter; symbolic links in a source tree are left out.
- SiteTwin.TwinRoundTrip: the JSON form of the release marker is a pair of parameters, asked to be inverse on the marker written; profile and binding contracts, receipts and the source allow-list are left out.
- CloudflareDns.Listed: one page of at most 100 records is assumed to hold all; record identifiers of an unexpected form are left out.
- DnsReplace.Matches: host validation, IP address parsing and the compressed form of IPv6 addresses happen before the model starts.
- ReverseProxy.ProxyHost.Ensure: validation of host and upstream, address resolution, the probe and temporary files are left out; a lease or connection that fails is one case.
- ManagedBlock.ManagedDirectives: the upstream's host is a parameter, read off the URL by the library.
- SSL ladders, certificate generation, propagation and preflight reports, doctor output, mailbox, FTP-user, subdomain and extension packets beyond their grant protocol: mostly foreign calls and single-branch classification.
