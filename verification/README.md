# Verification of the Perimetr service

A Dafny model of the stateful parts of the service and proofs of what they promise. Each part has a functional
specification of the stored state and, where the program changes state step by step, a class or methods with loops that
are proved to do exactly what the specification says. The theorems about whole runs, round trips and invariants are
lemmas about the specification.

| files | part of the program |
|---|---|
| `SnapshotRows`, `SnapshotArchive`, `SnapshotPreflight`, `SnapshotTheorems`, `SnapshotMeaning` | backup snapshots: row encoding, encrypted line framing, the archive and its manifest, preflight, when preflight accepts what the writer wrote, and what an accepted archive is |
| `SnapshotRestore`, `SnapshotStore`, `SnapshotSchema` | restore as a transaction of statements, the batch loops on a live database, the round trip, and the eleven tables of the schema |
| `PodProtocol`, `PodInvariants`, `PodMeaning`, `PodUse`, `PodService` | the pod identity protocol as a transition system, its invariants over every run, when each request is done and what it leaves, what one request means for the others, and the request handlers |
| `ArtifactCache`, `ArtifactMeaning`, `ArtifactFailures`, `ArtifactServing`, `ArtifactStore` | the Pod runtime cache with crash points between file replacements, when it does what it is asked for, failing refreshes and damaged caches, what is served over a history, and the refresh code |
| `Versions`, `Updater`, `VersionGrammar`, `VersionOrders` | the Pod version comparison, the release updater, which texts are versions, and when the two orders agree |
| `LoginLimiter` | the login rate limiter against a plain log of failures |
| `LogRetention`, `LogPages` | the trimming loops, and cursor pagination |
| `Correlation` | the correlation score on the server and in the browser |
| `OpaqueKey` | the editor of the opaque key field |
| `RegisterTree` | the update of the Register tree |
| `Sessions`, `SessionUse`, `SessionService` | sessions, the access key verifier and the preferences, and what each request means for them |

`dafny verify dfyconfig.toml` checks the whole project.

## What is assumed

- Library functions are fields of a record, with the laws that are used written as predicates: JSON printing and parsing
  (`JsonLaws`), Fernet (`SealLaws`: decryption inverts encryption, the token length, the base64url alphabet of section 5
  of RFC 4648), SHA-256, HMAC and scrypt as plain functions. Where a theorem needs a session key digest to be injective or
  a file digest to be 64 hexadecimal digits, it says so (`Injective`, `HexHash`).
- Random values are arguments. Steps of a run come with the condition that generated identifiers and tokens are new
  (`Fresh`, `Fair`).
- Clocks, network answers, signature checks and failing file writes are arguments that take any value.
- One request is one step: the service holds one lock around every request that can change these rows, and a request that
  raises before its commit leaves the stored rows as they were.

## Where the program and its expected behaviour part

Each line names the condition that is proved to be exact and, where there is one, the concrete input that fails.

- A NaN or an infinity in a JSON column is written into a snapshot but refused by preflight: `WrittenIsAcceptedIff` gives
  the exact condition, `NonFiniteRefused` the failing family.
- Deleting a subject fails, and changes nothing, exactly when two of its pods share a device binding that is not denied
  yet, because the existence query does not see the rows added in the same loop (`DeletionSucceedsIff`; reached from
  nothing in `DeletionCanFail`).
- Removing an already removed provisioning record fails on the uniqueness of the deny-list (`RemovalSucceedsIff`,
  `RemovalTwiceFails`).
- A failing refresh of the Pod runtime serves the fallback exactly if the failure itself can be recorded (`FailingRefresh`,
  `FailingRefreshServes`; a full disk in `NothingServed`). It leaves the recorded artifact alone except when only the write
  of the new state fails, which still records the new artifact (`LateFailureRecords`). The served error is empty exactly
  when an exception without a text is passed on as it is (`SilentFailure`).
- Storing the factory runtime trusts a file that is already in its place; nothing else is ever served from a bad file
  (`StoreTrustsCache`, `ServedIsGoodIff`, `BadFileServed`).
- As long as nothing is recorded, a refresh that a recent check ends early records nothing either, so that a later one may
  serve a lower version of the factory runtime (`UnrecordedIff`, `ServedFalls`); otherwise served versions never fall
  (`ServedNeverFalls`).
- The download looks for the executable header in the first chunk only. That is exact as long as a read returns as many
  bytes as it is asked for unless the stream ends, which is how the standard library's response reads
  (`DownloadAcceptsIff`).
- A walk over older log pages and a series of polls both end with an error at a cursor whose event has an identifier that
  is not 32 characters long (`WalkVisitsAll`, `PollingCollects`, `RefusedWalk`). A poll that starts on an empty log has no
  cursor and misses events if more than one page arrives before the next poll (`EmptyStart`).
- The updater compares pre-releases as plain texts, the Pod comparison identifier by identifier and without regard to
  case: `OrdersAgreeIff` says exactly when they agree, `NumbersDisagree` and `CasesDisagree` are inputs on which they do
  not. Strings that are no version are indifferent to everything, which breaks the updater's order exactly between versions
  of different rank (`OrderBreaksIff`, `OrderBreaks`).
- Turning an Object into a Subject keeps the correlation score unless the Object has no block and a stale block of the
  Subject attaches a property that is attached elsewhere (`ConversionKeepsScoreIff`, `StaleBlockChangesScore`). The
  browser and the server agree exactly when nothing outside the library is attached or the rest scores the same
  (`FormulasAgreeIff`, `FormulasDiffer`).
- The opaque key editor cannot tell different line breaks apart: an edit that shortens the field keeps the wrong hidden
  characters exactly when those it shifts differ (`EditKeepsIff`, `AdjacentBreaks`), and never with one kind of break
  (`OneKindKeeps`). The documentation of the field only promises that pasted breaks survive.

## Model

| member | source | states |
|---|---|---|
| `SnapshotRows.CellRoundTrip` | app/backup_service/snapshot.py:109-123 | A cell comes back from its JSON value unchanged exactly when the reader's null, length and number checks let it through; otherwise it is refused. |
| `SnapshotRows.RowRoundTrip` | app/backup_service/snapshot.py:100-124 | A whole row printed and parsed comes back unchanged exactly when every cell is readable, and otherwise as nothing; its JSON is finite exactly when every document in it is. |
| `SnapshotRows.TokenFits` | app/backup_service/snapshot.py:72-75 | A row within the row limit gives a line within the limit of the line reader, for every row length. |
| `SnapshotRows.ReadRowsStep` | app/backup_service/snapshot.py:103-106 | `readline` on a written line followed by anything returns exactly that line, and the rest stays for the next call. |
| `SnapshotRows.FrameRoundTrip` | app/backup_service/snapshot.py:70-124 | Reading the lines written for any rows gives back the rows in order, exactly when all of them are readable. |
| `SnapshotArchive.BuildMember` | app/backup_service/snapshot.py:70-81 | The row loop of one member fails exactly when a row is too long or the whole member breaks the budget, and otherwise writes one line per row. |
| `SnapshotArchive.BuildSnapshot` | app/backup_service/snapshot.py:58-86 | The writer fails exactly when some table breaks its budget, and otherwise produces the members, offsets, digests, counts and the signed manifest of `Built`. |
| `SnapshotPreflight.CheckLimits` | app/backup_service/snapshot.py:137-146 | The member loop accepts exactly the archives within all size, count, kind and ratio limits. |
| `SnapshotPreflight.CheckTable` | app/backup_service/snapshot.py:168-182 | One pass over a member succeeds exactly when all lines decode, no id repeats and no settings row raises; it returns the rows, all their references and the verifier flag. |
| `SnapshotPreflight.CheckTables` | app/backup_service/snapshot.py:157-184 | The table loop fails exactly when no content passes the per-table checks without a settings row that raises; otherwise it returns that content with its ids and references. |
| `SnapshotPreflight.Preflight` | app/backup_service/snapshot.py:127-185 | Preflight accepts an archive exactly when it is acceptable as some content, and returns that content. |
| `SnapshotPreflight.ForeignDecided` | app/backup_service/snapshot.py:173-184 | The reference list and id sets gathered table by table decide referential integrity of the whole content. |
| `SnapshotPreflight.Refuted` | app/backup_service/snapshot.py:157-184 | If the next table fails after the tables read so far, no content at all could have been accepted. |
| `SnapshotTheorems.BuiltHeader` | app/backup_service/snapshot.py:82-84 | The printed manifest parses back to itself and passes every manifest check of preflight. |
| `SnapshotTheorems.WrittenIsAcceptedIff` | app/backup_service/snapshot.py:127-184 | Preflight accepts a written archive exactly when it keeps to the limits, its rows are readable, the verifier is valid and references resolve; the content it reads is the one written. |
| `SnapshotTheorems.NonFiniteRefused` | app/backup_service/snapshot.py:97 | One non-finite number anywhere in the documents of a JSON column makes the written archive unrestorable. |
| `SnapshotTheorems.DataBudget` | app/backup_service/snapshot.py:76-78 | The member data of any successful build stays a whole reserve below the upload limit. |
| `SnapshotTheorems.ReserveSuffices` | app/backup_service/snapshot.py:77 | If ZIP overhead and manifest fit the 65536-byte reserve, every successful build passes all limits of preflight. |
| `SnapshotTheorems.WriteThenAccept` | app/backup_service/snapshot.py:58-185 | With such limits, what is written is accepted exactly when the rows are readable and the relations sound. |
| `SnapshotMeaning.OneVerifierRow` | app/backup_service/snapshot.py:174-184 | Where no two settings share a key: the rows are accepted exactly if every reference points to a row and one settings row `perimetr.preferences` is well shaped and holds a verifier at `auth.access_key_hash`. |
| `SnapshotMeaning.ContentAcceptedIff` | app/backup_service/snapshot.py:174-184 | In general: every reference points to a row, every preferences row is well shaped, and the last of them holds a verifier. |
| `SnapshotMeaning.ForeignKeysIff` | app/backup_service/snapshot.py:174-184 | References resolve exactly if every non-null value of a column with a parent table is the id of a row there. |
| `SnapshotMeaning.HeaderIff` | app/backup_service/snapshot.py:147-156 | A manifest is taken exactly if its signature is the keyed digest of everything else in it, its five fixed texts are right, and it lists exactly the members. |
| `SnapshotMeaning.ForgedIsRefused` | app/backup_service/snapshot.py:152-154 | An archive whose manifest does not carry that digest is refused, whatever else it holds. |
| `SnapshotMeaning.AcceptedMember` | app/backup_service/snapshot.py:159-181 | In an accepted archive every member has the size, digest and number of rows the manifest says, is read row by row, and no id occurs twice. |
| `SnapshotMeaning.AcceptedId` | app/backup_service/snapshot.py:107-119 | In an accepted archive every row has the columns of its table, and its id is its column of that name. |
| `SnapshotMeaning.ManifestFixesRows` | app/backup_service/snapshot.py:152-181 | Two accepted archives with the same manifest hold the same rows, unless two members collide in their digest. |
| `SnapshotMeaning.LimitsIff` | app/backup_service/snapshot.py:128-146 | The limits on the upload, the number of members, the manifest and the sum of all sizes. |
| `SnapshotMeaning.EntryFitsIff` | app/backup_service/snapshot.py:138-144 | The limits on one member: kind, size, and the ratio to its stored size, at least one byte. |
| `SnapshotMeaning.NamesIff` | app/backup_service/snapshot.py:133-136 | The members are the manifest and one for every table, each once. |
| `SnapshotMeaning.AcceptedKeeps` | app/backup_service/snapshot.py:128-146 | An accepted archive keeps all these limits and has exactly these members. |
| `SnapshotMeaning.DecodedFits` | app/backup_service/snapshot.py:109-123 | Whatever JSON it is given: a cell the reader lets through has the type of its column, no missing required value, and no text beyond its length. |
| `SnapshotMeaning.LineIsToken` | app/backup_service/snapshot.py:100-108 | Whatever bytes it is given: a line is read only if it ends, keeps to twice the row limit, and its text without the white space around it decrypts to a row of the table. |
| `SnapshotMeaning.TokenIsRead` | app/backup_service/snapshot.py:100-108 | Every line that is at most that long, ends, and trims to a token is read as what the token holds. |
| `SnapshotRestore.BatchesConcat` | app/backup_service/snapshot.py:205-214 | The batches concatenate to exactly the rows, in order, and none is empty or above 100. |
| `SnapshotRestore.InsertPhase` | app/backup_service/snapshot.py:204-214 | Inserting a table batch by batch succeeds exactly when all its rows together keep the constraints (uniqueness, and numbers that fit their columns), and then holds exactly them. |
| `SnapshotRestore.PlanRuns` | app/backup_service/snapshot.py:198-215 | The statements of a restore go through from any database exactly when the rows keep these constraints, and leave exactly those rows. |
| `SnapshotRestore.PlanKeepsReferences` | app/backup_service/snapshot.py:199-214 | Every statement of the plan that is reached leaves no dangling reference: children go before parents and come after them. |
| `SnapshotRestore.RestoredUnique` | app/backup_service/snapshot.py:193-219 | What a restore has to leave behind determines the whole database. |
| `SnapshotStore.StampedSound` | app/backup_service/snapshot.py:207-208 | Revoking the launch authorizations changes neither identities nor references nor whether the constraints hold. |
| `SnapshotStore.Store.ClearTables` | app/backup_service/snapshot.py:199-202 | The delete loops empty the named tables and behave like the delete statements of the plan. |
| `SnapshotStore.Store.InsertTable` | app/backup_service/snapshot.py:205-214 | The batch loop of a table runs exactly the inserts of its batches, launch authorizations stamped as revoked. |
| `SnapshotStore.Store.Replace` | app/backup_service/snapshot.py:197-216 | The savepoint runs the whole plan or leaves the database as it was. |
| `SnapshotStore.Store.Restore` | app/backup_service/snapshot.py:193-219 | Restore succeeds exactly when the archive is accepted and its rows keep the constraints (uniqueness, number ranges), then leaves exactly the archive's rows; every failure leaves the old database. |
| `SnapshotStore.RestoreRoundTrip` | app/backup_service/snapshot.py:58-219 | Restoring the archive of a database into any database gives back all nine tables; every launch authorization has the decision "revoked", a time of the restore, and otherwise its old columns; the two excluded tables are empty. |
| `SnapshotStore.BackupRestores` | app/backup_service/snapshot.py:58-219 | The same from the database alone: within the reserve, a successful build of readable rows with a valid verifier and resolving references is accepted and restores the database. |
| `SnapshotMeaning.RestoredRow` | app/backup_service/snapshot.py:203-214 | After the restore of any accepted archive each of its rows is in the database as it was, or as a launch authorization that says "revoked". |
| `SnapshotMeaning.NothingElse` | app/backup_service/snapshot.py:199-214 | And no other row is. |
| `SnapshotStore.RestoreTwice` | app/backup_service/snapshot.py:193-219 | A second restore of the same archive succeeds, leaves every table as the first did except the revocation times of launch authorizations, and equals a single restore at the later time. |
| `SnapshotSchema.SchemaFits` | app/models.py:13-234 | The eleven tables of the schema satisfy what the restore theorems require: keys, dependency order, excluded tables at the edge. |
| `PodInvariants.StepKeeps` | app/api_service/app.py:1027-1135 | Every request keeps the invariant that ties pods, records, subjects and deny-list together. |
| `PodInvariants.RunKeeps` | app/api_service/app.py:1332-1674 | The invariant holds in every state of every run. |
| `PodInvariants.CertificateEnrolledOnce` | app/api_service/app.py:1384-1401 | In every run a certificate fingerprint is enrolled successfully at most once. |
| `PodInvariants.CertificateHeldOrDenied` | app/api_service/app.py:1384-1401 | At every moment after its enrollment a certificate is either denied or held by a pod that is not revoked, and never by two pods. |
| `PodInvariants.DeniedNeverEnrolls` | app/api_service/app.py:1387-1398 | Once a fingerprint or a non-empty device binding is denied, no later enrollment with it succeeds. |
| `PodInvariants.RevokedNeverEnrolls` | app/api_service/app.py:1655-1667 | After the revocation of a pod, neither its fingerprint nor its device binding is ever enrolled again. |
| `PodInvariants.DeletedNeverEnrolls` | app/api_service/app.py:1117-1131 | The same holds for the pods of a deleted subject. |
| `PodInvariants.LeftNeverReturns` | app/api_service/app.py:1119-1131 | A pod that has left the table at some moment of a run never comes back under its id. |
| `PodInvariants.PodContinuesForever` | app/api_service/app.py:929-935 | Over any part of any run the identity of an enrolled pod is fixed, revocation is absorbing and its sequence number never falls. |
| `PodInvariants.HeartbeatsIncrease` | app/api_service/app.py:1609-1625 | Accepted heartbeats of a pod carry strictly increasing sequence numbers in every run. |
| `PodMeaning.BeatAcceptedIff` | app/api_service/app.py:1591-1626 | A heartbeat of an enrolled pod is accepted exactly if the pod is not revoked, certificate and device are its own and not denied, the number is new, and it is in time, signed and granted. |
| `PodMeaning.BeatAcceptedInRuns` | app/api_service/app.py:1591-1626 | The same at every moment of every run, where the deny-list adds nothing to the pod's own status. |
| `PodMeaning.BeatRefusals` | app/api_service/app.py:1591-1623 | Which refusal a heartbeat gets: replayed, late, or foreign and improper. |
| `PodMeaning.BeatSuspectsIff` | app/api_service/app.py:1603-1608 | A heartbeat makes a pod suspicious exactly if it has the certificate of the pod and another device. |
| `PodMeaning.LegacyBeat` | app/api_service/app.py:1578-1586 | A pod that is not enrolled may report any status, and nothing else changes. |
| `PodMeaning.UnknownPod` | app/api_service/app.py:1575-1577 | A heartbeat, a verification or a revocation for an unknown pod is refused and changes nothing. |
| `PodMeaning.VerifyAnswersIff` | app/api_service/app.py:1515-1546 | A verification answers, with the next number, exactly for right credentials and a pod that is neither revoked nor denied. |
| `PodMeaning.ListSubjectMeans` | app/api_service/app.py:922-935 | After a listing a pod is online exactly if it was seen within the span, unless it is revoked or suspicious; no other pod changes. |
| `PodMeaning.ListAllMeans` | app/api_service/app.py:1447-1463 | The same for all pods. |
| `PodInvariants.NextIsAbove` | app/api_service/app.py:1515-1548 | The sequence number a verification announces is above every one accepted before. |
| `PodInvariants.SuspicionLeft` | app/api_service/app.py:1603-1626 | A suspicious pod leaves that status only by an accepted heartbeat, its revocation, or the deletion of its subject. |
| `PodInvariants.RevokedIsShutOutForever` | app/api_service/app.py:1575-1648 | Once an enrolled pod is revoked, every later heartbeat and verification under its id is refused and changes nothing, in every run, even after the pod is gone. |
| `PodInvariants.RecordContinues` | app/api_service/app.py:1031-1069 | An active record never changes again, hash and subject are fixed, and the count grows by one exactly in a successful download. |
| `PodInvariants.CountIsDownloads` | app/api_service/app.py:1067-1069 | The stored download count is the number of successful downloads since the record was created. |
| `PodInvariants.TokenConsumedOnce` | app/api_service/app.py:1338-1350 | An enrollment token is consumed at most once in every run, so that a record gives at most one pod. |
| `PodMeaning.EnrollDoneIff` | app/api_service/app.py:1338-1401 | In every state a run can reach, an enrollment is done exactly from a usable source with a welcome identity, field by field. |
| `PodMeaning.EnrollRefused` | app/api_service/app.py:1338-1352 | One that is not done changes nothing, except that it marks a record that has run out. |
| `PodMeaning.SourceReplies` | app/api_service/app.py:1338-1374 | Which refusal a bad source gets. |
| `PodMeaning.IdentityReplies` | app/api_service/app.py:1375-1401 | Which refusal a bad identity gets. |
| `PodMeaning.EnrollAddsPod` | app/api_service/app.py:1402-1431 | An enrollment adds one pod, to which the subject now points, and touches no other pod or subject. |
| `PodMeaning.EnrolledPod` | app/api_service/app.py:1402-1425 | The new pod has the identity of the request, is offline, and starts at number 0. |
| `PodMeaning.EnrollConsumes` | app/api_service/app.py:1426-1430 | The record becomes active and loses its token, whose hash is denied; a clone touches no record. |
| `PodMeaning.CreateRecordIff` | app/api_service/app.py:945-1000 | When a record is created, and with which fields. |
| `PodMeaning.DownloadDoneIff` | app/api_service/app.py:1027-1069 | A download is done exactly for a usable record of the subject while a runtime can be had; which refusal it gets otherwise. |
| `PodMeaning.DownloadRefusals` | app/api_service/app.py:1027-1062 | There are no other refusals of a download. |
| `PodMeaning.RemovalMeans` | app/api_service/app.py:1099-1110 | When a removal is done; it erases the token, denies its hash, and touches nothing else. |
| `PodMeaning.CreateSubjectMeans` | app/api_service/app.py:759-804 | When a subject is created, and what its legacy pod looks like. |
| `PodMeaning.DeletionErases` | app/api_service/app.py:1117-1135 | After a deletion nothing of the subject is left, and everything else is. |
| `PodMeaning.DeletionDenies` | app/api_service/app.py:1119-1126 | A deletion denies exactly the ids, certificates and devices of the subject's pods. |
| `PodMeaning.DeletionRefusals` | app/api_service/app.py:1115-1116 | An unknown subject is refused, and a deletion that is not done changes nothing. |
| `PodMeaning.RevocationMeans` | app/api_service/app.py:1655-1673 | Revoking ends one pod, its subject lets go of it, and nothing else changes. |
| `PodMeaning.RevocationDenies` | app/api_service/app.py:1656-1667 | It denies exactly the non-empty identifiers of that pod. |
| `PodInvariants.RemovalSucceedsIff` | app/api_service/app.py:1099-1110 | Removing a record succeeds exactly when it is neither active nor removed; a second removal fails and changes nothing. |
| `PodInvariants.DeletionSucceedsIff` | app/api_service/app.py:1117-1135 | Deleting a subject succeeds exactly when no two of its pods share a device binding that is not denied; otherwise nothing changes. |
| `PodUse.OthersUntouched` | app/api_service/app.py:1332-1674 | A request about one subject leaves every other subject, its current pod, its records and its pods exactly as they were. |
| `PodUse.OthersUntouchedForever` | app/api_service/app.py:1332-1674 | Over any part of a run without a request about it, nothing of a subject changes. |
| `PodUse.CreationUndone` | app/api_service/app.py:759-822 | Deleting a subject right after its creation restores all tables; only the id of its legacy pod stays denied. |
| `PodUse.NewRecordEnrolls` | app/api_service/app.py:1332-1434 | An enrollment with a new record succeeds exactly with the right token, in time, and with an identity that passes the checks. |
| `PodUse.DownloadKeepsEnrollment` | app/api_service/app.py:1021-1069 | A download does not use up the token: every enrollment is answered as before it, the record changes only in status and count, and it can be downloaded again until it expires. |
| `PodUse.AnnouncedNumberStays` | app/api_service/app.py:1515-1548 | At every later moment of a run before the next accepted heartbeat, a proper heartbeat of a pod that is not revoked gets through exactly from the announced number on. |
| `PodUse.ReplayRefused` | app/api_service/app.py:1609-1625 | In every run, after an accepted heartbeat none with the same or a lower number is accepted, even after the pod is gone. |
| `PodUse.DeletionCanFail` | app/database.py:35 | A run from nothing: one subject, two enrollments on one machine, and the subject cannot be deleted. |
| `PodUse.RemovalTwiceFails` | app/api_service/app.py:1099-1110 | A run from nothing after which a record cannot be removed a second time. |
| `PodService.Service.DeletePending` | app/api_service/app.py:1093-1111 | The handler erases the token and denies its hash, or fails as a whole. |
| `PodService.Service.Enroll` | app/api_service/app.py:1332-1434 | The handler consumes the source, checks the identity and adds the pod, as the transition does. |
| `PodService.Service.ListSubject` | app/api_service/app.py:916-935 | The refresh loop over the pods of one subject. |
| `PodService.Service.ListAll` | app/api_service/app.py:1447-1463 | The refresh loop over all pods that are not revoked. |
| `PodService.Service.Revoke` | app/api_service/app.py:1650-1674 | The revocation loop: every non-empty identifier is denied once, the pod is revoked, the subject lets go of it. |
| `PodService.Service.Gather` | app/api_service/app.py:1119-1126 | The loop collects the new deny-list rows and adds one of them twice exactly when two pods want the same one. |
| `PodService.Service.DeleteSubject` | app/api_service/app.py:1114-1135 | The handler deletes pods, records and subject and denies their identifiers, or fails as a whole. |
| `Versions.LexicalOrders` | app/pod_artifacts.py:72-90 | Comparing tuples element by element orders them whenever the elements are ordered. |
| `Versions.CompareVersionsTotal` | app/pod_artifacts.py:87-90 | On all valid version strings the comparison is a total preorder that is always defined. |
| `Versions.NeverMixed` | app/pod_artifacts.py:72-84 | No comparison of valid versions sets a number against a text. |
| `Versions.AgreesWithSection11` | app/pod_artifacts.py:72-90 | The comparison is the precedence of section 11 of Semantic Versioning 2.0.0 on identifiers folded to lower case. |
| `VersionGrammar.SemverReads` | app/pod_artifacts.py:72-84 | Every text of three numbers without leading zeros and an optional pre-release of letters, digits, dots and hyphens is a version with these values. |
| `VersionGrammar.SemverIsWritten` | app/pod_artifacts.py:72-84 | No other text is a version. |
| `VersionGrammar.NumberValue` | app/pod_artifacts.py:84 | A number has its decimal value. |
| `VersionGrammar.IdentifiersOf` | app/pod_artifacts.py:79-80 | The identifiers are the texts between the dots of the pre-release. |
| `VersionGrammar.IdentifierMeans` | app/pod_artifacts.py:79-83 | A numeric identifier counts by its value, any other by its letters without case. |
| `VersionGrammar.ParseReads` | app/updater.py:10-17 | The updater reads the same form with leading zeros, behind an optional `v`, in any white space. |
| `VersionGrammar.ParseIsWritten` | app/updater.py:10-17 | It reads nothing else. |
| `VersionGrammar.SpaceIff` | app/updater.py:14 | Which characters count as white space, by code point. |
| `VersionGrammar.LikeVersionIff` | app/updater.py:76-79 | The plain version tags are `v`, three numbers with dots between them, and anything behind. |
| `VersionGrammar.PrefixedIff` | app/updater.py:70-84 | The tags of a service have its prefix in any letter case; the version is what is behind it. |
| `VersionGrammar.PlainTag` | app/updater.py:84 | The version of any other tag is the tag without its `v`. |
| `Updater.NewerIsStrictWeak` | app/updater.py:20-31 | Between versions the updater's relation is asymmetric, transitive, and so is its indifference. |
| `Updater.OrderBreaksIff` | app/updater.py:10-31 | On all strings the relation is asymmetric and transitive; indifference carries over exactly unless the middle string is no version while the outer ones are versions of different rank. |
| `Updater.OrderBreaks` | app/updater.py:20-24 | `1.0.0` and `2.0.0` are both indifferent to `x`, but not to each other. |
| `Updater.Candidates` | app/updater.py:70-79 | The filters give the tags of the service in their order if there are any, otherwise the plain version tags; drafts never count. |
| `Updater.ParseAll` | app/updater.py:81-86 | The parsing loop keeps, in order, exactly the tags whose rest is a version. |
| `Updater.Select` | app/updater.py:87-90 | The selection loop returns the first candidate that no other candidate is newer than. |
| `Updater.Available` | app/updater.py:70-90 | From the list of releases: nothing exactly if none is eligible, otherwise the first eligible one that no eligible one is newer than. |
| `VersionOrders.OrdersAgreeIff` | app/updater.py:20-31 | For all valid versions: updater and Pod comparison give the same answer exactly if the cores differ, one is final, one pre-release starts the other, or the first different identifiers are ordered alike as texts and as identifiers. |
| `VersionOrders.NumbersAgreeIff` | app/updater.py:31 | When two numbers without leading zeros decide, the orders agree exactly if they have the same length or the longer one is also the later text. |
| `VersionOrders.LowerTextsAgree` | app/updater.py:31 | When two texts of lower-case letters and digits decide, the orders agree. |
| `VersionOrders.NumberAgainstLetter` | app/updater.py:31 | When a number meets a text that starts with a letter, the orders agree. |
| `VersionOrders.SpellingsDisagree` | app/updater.py:31 | Two different spellings of one pre-release, by case or leading zeros, are equal for the Pod comparison, and the updater ranks one above the other. |
| `VersionOrders.NumbersDisagree` | app/updater.py:31 | `1.0.0-rc.2` is newer than `1.0.0-rc.10` for the updater and not for the Pod comparison. |
| `VersionOrders.CasesDisagree` | app/updater.py:31 | `1.0.0-rc` and `1.0.0-RC`: the two orders disagree in exactly one direction. |
| `ArtifactCache.StoreLocalSound` | app/pod_artifacts.py:234-272 | Storing the factory runtime: after any prefix of the writes a sound cache is sound, whatever it records. |
| `ArtifactCache.DownloadSound` | app/pod_artifacts.py:296-372 | The same for a download, for every transfer and every failure. |
| `ArtifactCache.RefreshSound` | app/pod_artifacts.py:400-520 | The same for a refresh, even if the recorded artifact is missing or damaged. |
| `ArtifactCache.ResolveSound` | app/pod_artifacts.py:523-565 | The same for a pinned resolution. |
| `ArtifactCache.DownloadHolds` | app/pod_artifacts.py:296-372 | What a download returns has the digest and version of the manifest, and its good file and metadata are in the cache. |
| `ArtifactCache.ResolveExact` | app/pod_artifacts.py:523-565 | Pinned resolution gives exactly the requested digest and version, held by the cache, or fails. |
| `ArtifactCache.DownloadAcceptsIff` | app/pod_artifacts.py:329-348 | A transfer that passes every other check is accepted exactly if its first chunk has two bytes, and always if reads are full. |
| `ArtifactCache.HistorySound` | app/pod_artifacts.py:200-565 | Over every history of refreshes and resolutions, each cut short anywhere, a sound cache stays sound, whatever is recorded in it. |
| `ArtifactCache.HistoryHolds` | app/pod_artifacts.py:200-565 | Over every such history that starts with a recorded artifact that loads, or none, the recorded artifact always loads. |
| `ArtifactMeaning.UpdateInstalledIff` | app/pod_artifacts.py:457-520 | A refresh that is offered a manifest ends without a failure exactly if it is an update, its runtime is cached or arrives whole and can be stored, and the new state can be written; then it serves and records exactly that version and digest. In every other case that answers it keeps the fallback. |
| `ArtifactMeaning.UnchangedServes` | app/pod_artifacts.py:464-477 | An answer that nothing has changed serves the fallback and records the check, exactly if there is one and the state can be written. |
| `ArtifactMeaning.QuietServes` | app/pod_artifacts.py:420-448 | Without a repository, or with a recent check, the fallback is served without a failure. |
| `ArtifactMeaning.FailureFails` | app/pod_artifacts.py:501-520 | A failed discovery, or a failure before it, is a failure of the refresh. |
| `ArtifactMeaning.LocalRecords` | app/pod_artifacts.py:413-434 | Without a repository a factory runtime that nothing was recorded before is recorded. |
| `ArtifactMeaning.FallbackMeans` | app/pod_artifacts.py:388-397 | The fallback is the recorded artifact if it loads, otherwise the factory runtime, which then has to be storable. |
| `ArtifactMeaning.NoFallbackNoRefresh` | app/pod_artifacts.py:411 | A factory runtime that cannot be stored ends the refresh before anything else. |
| `ArtifactMeaning.LoadsIff` | app/pod_artifacts.py:196-231 | An artifact loads exactly if its file is runnable, within the limit and of that digest, and its metadata has a valid version. |
| `ArtifactMeaning.StoreDoneIff` | app/pod_artifacts.py:234-272 | The factory runtime is stored exactly if it is valid and readable and its copy is in place or arrives unchanged. |
| `ArtifactMeaning.StoreLeaves` | app/pod_artifacts.py:247-271 | A file in place stays, a missing one is the copy, and the metadata names the version. |
| `ArtifactMeaning.DownloadDoneIff` | app/pod_artifacts.py:304-366 | A download is done exactly if the digest is cached under this version, or is not cached and arrives whole. |
| `ArtifactMeaning.DownloadLeaves` | app/pod_artifacts.py:349-359 | What arrived is in the cache under its digest, with its metadata. |
| `ArtifactMeaning.ResolveDoneIff` | app/pod_artifacts.py:523-565 | A pinned resolution is done exactly if the digest is cached under this version, or is not and the manifest on record names both and its runtime arrives. |
| `ArtifactCache.VersionsNeverDecrease` | app/pod_artifacts.py:449-520 | Over every such history the recorded version never decreases and equal versions keep their digest. |
| `ArtifactServing.ServedNotBelow` | app/pod_artifacts.py:479-520 | What a refresh serves, failing or not, is never below the recorded version, and under the recorded version never another digest. |
| `ArtifactServing.ServedNeverFalls` | app/pod_artifacts.py:400-520 | Over every history with crashes, once a refresh has left anything recorded, no later one serves a lower version than it did, nor another digest under its version. |
| `ArtifactServing.UnrecordedIff` | app/pod_artifacts.py:410-448 | A refresh that serves something leaves nothing recorded exactly if nothing was recorded and a recent check ends it early. |
| `ArtifactServing.ServedFalls` | app/pod_artifacts.py:442-448 | Two such refreshes serve factory version 2.0.0 and then 1.0.0. |
| `ArtifactFailures.FailingRefresh` | app/pod_artifacts.py:501-520 | Every failing refresh on any cache: it serves the fallback with the text of the failure exactly if there is one and the failure can be recorded; it leaves the record as it was unless only the write of the new state failed, and no change at all if the failure cannot be recorded. |
| `ArtifactFailures.FailingRefreshServes` | app/pod_artifacts.py:501-520 | While the recorded artifact loads, a failing refresh serves it exactly if the failure can be recorded, and the record changes exactly if the failed step was the write of a different new state. |
| `ArtifactFailures.SilentFailure` | app/pod_artifacts.py:507-519 | The served error is empty exactly for a failure whose own text is empty and is passed on as it is; if every such text says something it is never empty. |
| `ArtifactFailures.StoreTrustsCache` | app/pod_artifacts.py:234-272 | A stored factory runtime is sound exactly when a file already in its place was. |
| `ArtifactFailures.ServedIsGoodIff` | app/pod_artifacts.py:388-520 | For any cache, the file behind a served artifact exists; it is good exactly if it was good before or this refresh wrote it, and is bad only as the factory runtime over a bad file already in place. |
| `ArtifactFailures.LateFailureRecords` | app/pod_artifacts.py:505-519 | Version 2.0.0 is recorded while 1.0.0 is served, because one state write failed. |
| `ArtifactFailures.BadFileServed` | app/pod_artifacts.py:234-272 | An empty file in the place of the factory runtime is served. |
| `ArtifactFailures.NothingServed` | app/pod_artifacts.py:507-520 | A failed discovery whose record cannot be written serves nothing, although the recorded artifact loads. |
| `ArtifactStore.Store.Receive` | app/pod_artifacts.py:296-372 | The chunk loop returns all bytes up to the first empty chunk, or gives up exactly above the limit. |
| `ArtifactStore.Store.StoreLocal` | app/pod_artifacts.py:234-272 | The code makes exactly the writes of the specification, in order, including those before an I/O error at reading, copying or writing the metadata. |
| `ArtifactStore.Store.Download` | app/pod_artifacts.py:296-372 | The same for a download, with every check in its place. |
| `ArtifactStore.Store.Fallback` | app/pod_artifacts.py:388-397 | The same for the fallback artifact. |
| `ArtifactStore.Store.EnsureLatest` | app/pod_artifacts.py:400-520 | The refresh code makes exactly the writes of `Refresh`, in order, on every path. |
| `LoginLimiter.TrimCounts` | app/security.py:213-216 | Trimming what is kept of a failure log leaves exactly the failures inside the window. |
| `LoginLimiter.FailureKeepsBound` | app/security.py:175-207 | A failure recorded after an allowed check keeps every window, wherever it lies, within the limit. |
| `LoginLimiter.RetryMath` | app/security.py:186-189 | The waiting time is above the time to expiry less a millisecond and at most that time plus 0.999, or one second. |
| `LoginLimiter.Limiter.Check` | app/security.py:175-195 | Blocks exactly if at least `max_attempts` logged failures lie in the window, with a fitting waiting time or the proportional delay. |
| `LoginLimiter.AdmittedMeans` | app/security.py:200-205 | Nobody but the client tracked longest ever goes, and only for a new one when there is no room. |
| `LoginLimiter.Limiter.Evict` | app/security.py:201-204 | Drops the client tracked longest and its failures, and nothing else. |
| `LoginLimiter.Limiter.MakeRoom` | app/security.py:200-205 | A new client is tracked at the end; a client pushed out for it loses its failures, and every other log, its own included, is untouched. |
| `LoginLimiter.Limiter.Fail` | app/security.py:197-207 | Adds one failure to the whole log of the client; only a client pushed out for it loses its failures, and never more than `max_clients` are tracked. |
| `LoginLimiter.Limiter.Success` | app/security.py:209-211 | Wipes the client's failures and no one else's. |
| `LoginLimiter.Limiter.Attempt` | app/request_policy.py:86-113 | Under the request lock no window of any client ever holds more than `max_attempts` failures; a blocked attempt and one that ends in a server error change no log, an accepted one wipes the client's own, a refused one adds exactly one failure to it. |
| `LogRetention.TrimLogFile` | app/logs_service/service.py:56-67 | What stays is the longest suffix of the storable lines within both limits. |
| `LogRetention.StorableSplits` | app/logs_service/service.py:59-61 | Which lines are storable is decided line by line, in order. |
| `LogRetention.StorableLine` | app/logs_service/service.py:60-61 | A line stays exactly if the whole budget can hold it. |
| `LogRetention.FindStale` | app/logs_service/service.py:25-30 | The walk splits the events after the longest newest-first prefix within both budgets. |
| `LogRetention.AuditLog.Delete` | app/logs_service/service.py:31-32 | The batches of 200 delete exactly the stale events. |
| `LogRetention.AuditLog.Trim` | app/logs_service/service.py:18-32 | What stays is exactly that prefix of the unexpired events. |
| `LogRetention.RecentSplits` | app/logs_service/service.py:20 | Which events are recent is decided event by event, in order. |
| `LogRetention.RecentEvent` | app/logs_service/service.py:20 | Those that are not older than the cutoff. |
| `LogRetention.TotalAdds` | app/logs_service/service.py:23-30 | What a budget counts is the sum of the sizes. |
| `LogRetention.SurvivorsFit` | app/logs_service/service.py:70-78 | The directory always ends within its budget. |
| `LogRetention.SurvivorAt` | app/logs_service/service.py:73-78 | A file survives exactly if it is recent enough and the budget holds it together with all later ones. |
| `LogRetention.AuditGoesLast` | app/logs_service/service.py:72 | `audit.jsonl` goes only if it is expired or larger than the whole budget. |
| `LogRetention.TrimDirectory` | app/logs_service/service.py:70-78 | The removal loop keeps a file exactly if it is unexpired and, with all later files, within the budget. |
| `LogPages.ReadPage` | app/logs_api.py:48-68 | The query steps return, below a position, the newest events before it, newest first, with the next cursor and `has_more`, and behind a position the next events and a cursor behind the last. |
| `LogPages.RefusedReads` | app/logs_api.py:51-59 | A request is refused exactly if it has both cursors or one whose identifier does not have 32 characters. |
| `LogPages.CursorRoundTrip` | app/logs_api.py:21-32 | Reading a cursor inverts writing it for identifiers of 32 characters, and refuses all others. |
| `LogPages.CursorCuts` | app/logs_api.py:55-60 | A cursor cuts the log exactly at its event, whatever ties there are in the time stamps. |
| `LogPages.PageBelow` | app/logs_api.py:48-68 | A page below a cursor holds the newest events before it, newest first, with the right cursors and the right `has_more`. |
| `LogPages.GrownPage` | app/logs_api.py:48-68 | Whatever is added to the log later, the page below a cursor holds the same events, cursors and `has_more`. |
| `LogPages.WalkVisitsAll` | app/logs_api.py:48-68 | Walking older pages of any size, while the log grows between them, ends and visits every older event exactly once in descending order, exactly if every cursor on the way is acceptable. |
| `LogPages.RefusedWalk` | app/logs_api.py:21-32 | Two events with short identifiers: the walk is refused at its second page. |
| `LogPages.PollBehind` | app/logs_api.py:59-68 | A poll behind a cursor returns the next events after it and a cursor behind the last of them. |
| `LogPages.PollingCollects` | app/logs_api.py:59-68 | Polling a growing log collects one unbroken stretch of it, every new event once and in order, exactly if every cursor it sends carries an identifier of 32 characters; otherwise it ends with an error. |
| `LogPages.EmptyStart` | app/logs_api.py:67-68 | From an empty log there is no live cursor; the next poll sees all new events exactly if they fit one page. |
| `Correlation.ScoreIsShare` | app/services.py:222-239 | The score lies between 0 and 1; it is 1 exactly if every library property is attached to every entity and 0 exactly if none is shared. |
| `Correlation.AttachmentCounts` | app/services.py:222-239 | Attaching a library property to one more entity adds exactly one share, and nothing if it is the first. |
| `Correlation.NothingToShare` | app/services.py:222-239 | Without a library, or with fewer than two entities, the score is 0. |
| `Correlation.IdsMean` | app/services.py:222-239 | Entries without an id count neither in the library nor in the blocks. |
| `Correlation.FormulasAgreeIff` | app/static/core.js:268-277 | Server and browser agree exactly when nothing outside the library is attached or the rest scores the same as the library. |
| `Correlation.FormulasDiffer` | app/static/core.js:268-277 | A map whose score is 0 on the server and not in the browser. |
| `Correlation.ConversionKeepsScoreIff` | app/api_service/app.py:805-816 | Turning an Object into a Subject keeps the score exactly when the Object has a block, or a stale block of the Subject adds no shared property. |
| `Correlation.ConversionCarriesLinks` | app/api_service/app.py:805-816 | Without a stale block all attachments are carried over and the score is unchanged. |
| `Correlation.StaleBlockChangesScore` | app/api_service/app.py:805-816 | A concrete map whose score changes on conversion. |
| `Correlation.CorrelationMap.Rename` | app/api_service/app.py:805-816 | The Object's blocks move under the Subject's key, and unless a stale block is left in place the score of any entities with the Subject for the Object is the old one. |
| `Correlation.CorrelationMap.ServerScore` | app/services.py:222-239 | The counting loops compute the score of the library. |
| `Correlation.CorrelationMap.ClientData` | app/static/core.js:244-267 | One link for every known entity and every id attached to it, and a node for every id known or attached. |
| `Correlation.CorrelationMap.ClientScore` | app/static/core.js:268-277 | The browser's loops compute the score of the library extended by all attached ids. |
| `OpaqueKey.SyncUnique` | app/static/exact-key.js:7-14 | The two agreeing ends are determined, so a sync has one result. |
| `OpaqueKey.SyncMirrors` | app/static/exact-key.js:7-14 | After a sync the hidden text shows as the visible value exactly when that value has no line break. |
| `OpaqueKey.SyncIdentity` | app/static/exact-key.js:9 | A sync without a visible change changes nothing. |
| `OpaqueKey.Field.Sync` | app/static/exact-key.js:7-14 | The two loops keep the hidden characters of the longest common prefix and of the longest disjoint common suffix. |
| `OpaqueKey.Field.Edit` | app/static/exact-key.js:15 | After every visible edit without line breaks the hidden text shows as the value. |
| `OpaqueKey.Field.Paste` | app/static/exact-key.js:16-23 | A paste puts the text, line breaks included, over the selection of the hidden text, and the field shows it. |
| `OpaqueKey.Field.Read` | app/static/exact-key.js:25 | Reading returns the hidden text unchanged. |
| `OpaqueKey.EditKeepsIff` | app/static/exact-key.js:6-14 | Typing over a shown range keeps the meant hidden characters exactly if, as far as old and new display agree, the characters behind the range equal those they replace; always if the edit does not shorten the field. |
| `OpaqueKey.OneKindKeeps` | app/static/exact-key.js:6-14 | With a single kind of hidden break every edit keeps the meant hidden characters. |
| `OpaqueKey.AdjacentBreaks` | app/static/exact-key.js:6-14 | Deleting the first of two different breaks keeps that one and not the other. |
| `RegisterTree.AssignSucceedsIff` | app/kernel_register.py:219-224 | One write goes through exactly when the parent of the key is an object. |
| `RegisterTree.AssignIsUpdate` | app/kernel_register.py:219-224 | One write into the tree updated so far is the simultaneous update with one more value. |
| `RegisterTree.ReplaceResolved` | app/kernel_register.py:217-225 | When every key resolves to a text the loop never fails and is one simultaneous update. |
| `RegisterTree.KeysResolve` | app/kernel_register.py:217-254 | Every listed key resolves to its replacement afterwards. |
| `RegisterTree.OthersUnchanged` | app/kernel_register.py:217-225 | Every path that is neither a listed key nor leads to one resolves to what it did before. |
| `RegisterTree.TextsAreLeaves` | app/kernel_register.py:245-248 | Two keys that resolve to texts are never one a prefix of the other. |
| `RegisterTree.OrderDoesNotMatter` | app/kernel_register.py:217-225 | The result does not depend on the order of the keys. |
| `Sessions.ClosedNeverReturns` | app/services.py:306-318 | Over every run, nothing about a lease that has left active ever changes. |
| `Sessions.EndedNeverOpens` | app/api_service/app.py:437-457 | A session that has ended opens nothing again, whatever key is tried. |
| `SessionUse.OpensIff` | app/api_service/app.py:437-457 | Cookies open a session exactly if it is direct, for this service, active, before its end, and the key is its key. |
| `SessionUse.ClosedDoor` | app/api_service/app.py:437-457 | A request without cookies that open a session is refused and changes nothing but what has expired. |
| `SessionUse.VisitChangesNothing` | app/api_service/app.py:437-457 | A request that only looks changes nothing but what has expired. |
| `SessionUse.LogoutEnds` | app/api_service/app.py:467-476 | After a logout the session opens with no key at any time, in every state of every later run. |
| `SessionUse.LogoutCloses` | app/api_service/app.py:467-476 | A logout is done exactly for cookies that open the session; every other session is as expiry alone leaves it. |
| `SessionUse.ExpiryEnds` | app/services.py:306-318 | A session whose end is reached when a request is handled never opens again. |
| `SessionUse.SubjectEnds` | app/services.py:361-369 | Once a Subject's access is closed none of its sessions opens, whatever follows. |
| `SessionUse.SubjectCloses` | app/services.py:361-369 | Closing it ends exactly its active sessions. |
| `SessionUse.LoginDoneIff` | app/services.py:321-337 | With a valid verifier on record a login is done exactly for this service with a key it accepts. |
| `SessionUse.LoginOpens` | app/services.py:327-334 | The new session opens exactly with its own key, until its end, which counts from the last whole second. |
| `SessionUse.LoginAdds` | app/services.py:321-337 | A login adds one session and no other change than expiry. |
| `Sessions.RotationLeavesOne` | app/services.py:278-287 | Right after an accepted rotation exactly the current direct session is active. |
| `Sessions.OnlyNewKeyOpens` | app/services.py:278-288 | After a rotation a pair of cookies opens a session exactly if it is the current session with the new key, before its new end. |
| `Sessions.NewKeyLogsIn` | app/services.py:257-289 | After a rotation a login succeeds exactly with a key that the new verifier accepts. |
| `SessionUse.RotationDoneIff` | app/services.py:266-273 | An access key change is done exactly with open cookies, the current key, and the same non-empty new key twice. |
| `SessionUse.RotationKeeps` | app/services.py:270-277 | It keeps every preference, the revision, and every session that is not direct. |
| `SessionUse.RotationCloses` | app/services.py:278-288 | Every other active direct session is revoked now; the current one keeps all but its key and its end. |
| `Sessions.VerifierOnlyRotates` | app/operator_settings.py:26-56 | Over every run a valid verifier stays valid, and without an accepted rotation it stays the same. |
| `Sessions.StepRevision` | app/operator_settings.py:74-109 | The revision rises by one in an accepted edit, which named the revision it replaces, and nowhere else. |
| `Sessions.RevisionCounts` | app/operator_settings.py:74-109 | Over every run the revision grows by the number of accepted edits. |
| `Sessions.OneEditWins` | app/operator_settings.py:78-79 | Of two edits that expect the same revision at most one is accepted, whatever happens in between. |
| `SessionUse.ChangeDoneIff` | app/operator_settings.py:74-106 | A preference edit is done exactly with open cookies, the current revision and a proper body, and refused in that order. |
| `SessionUse.ChangeMeans` | app/operator_settings.py:74-109 | What the edit names gets the new value, everything else stays; a refused edit changes no preference. |
| `SessionUse.ChangedLayout` | app/operator_settings.py:102 | Columns that the edit names are replaced, the others stay. |
| `SessionUse.LayoutStaysIntact` | app/operator_settings.py:93-102 | Over every run a layout that fits keeps fitting: known columns with at most 32 distinct names of at most 64 characters. |
| `SessionUse.SettlesIff` | app/operator_settings.py:26-46 | Preferences settle exactly if a valid verifier is on record, or none was ever stored and the installation brings one or a key; a stored one that is not valid is never replaced. |
| `SessionUse.SettlingKeeps` | app/operator_settings.py:46-56 | Settling keeps the sessions and every preference on record, fills in the rest, and leaves one verifier. |
| `SessionUse.ReadMeans` | app/api_service/app.py:478-484 | Reading the preferences keeps the verifier, the revision and every session. |
| `SessionService.Service.ExpireStale` | app/services.py:306-318 | The expiry loop closes exactly the active leases whose end has passed. |
| `SessionService.Service.Ensure` | app/operator_settings.py:26-56 | Keeps a valid verifier, migrates or seeds a missing one, fills the defaults, or raises and stores nothing. |
| `SessionService.Service.Guard` | app/api_service/app.py:437-457 | Expires stale leases for good and then opens exactly for the right cookies. |
| `SessionService.Service.Login` | app/services.py:321-337 | A login adds one active lease exactly if the key verifies; a failed one adds none. |
| `SessionService.Service.Logout` | app/api_service/app.py:467-476 | Closes the session that is asked for, if it opens. |
| `SessionService.Service.RevokeSubject` | app/services.py:361-369 | The loop closes exactly the active leases of the subject. |
| `SessionService.Service.RevokeOthers` | app/services.py:279-284 | The loop closes every other active direct lease and touches nothing else. |
| `SessionService.Service.Rotate` | app/services.py:257-289 | The access key change as a whole, with what each refusal leaves behind. |
| `SessionService.Service.Change` | app/operator_settings.py:74-109 | A preference edit is applied as a whole or rolled back. |
| `SessionService.Check` | app/operator_settings.py:80-106 | The checks after the revision accept exactly the well-formed edits. |
| `SessionService.CheckLayout` | app/operator_settings.py:93-102 | The layout loop accepts exactly known scopes with at most 32 distinct, well-formed names each. |

## Left out

- ZIP container bytes, compression and symbolic links: an archive is a list of members with their data, stored size and a
  flag, plus the length of the file by the fixed header sizes of stored members.
- Restore: the second reading of the archive is taken to give the rows preflight read from the same bytes; texts that a
  database refuses to store (lone surrogates, NUL characters in PostgreSQL) and the texts of the returned summaries are not
  modelled.
- BuildSnapshot: strings that cannot be encoded (lone surrogates) and the column order of the query are not modelled; rows
  come as the database returns them.
- Cryptography (SHA-256, HMAC, scrypt, ECDSA, Fernet internals): only the laws named above.
- The database engine: constraints are the primary keys, foreign keys and uniqueness constraints of the schema and a range
  for every integer column, 64 bits in the schema as in SQLite (the restore theorems hold for any range, so also for the
  32 bits of PostgreSQL); a statement either applies or raises; migrations and advisory locks are not part of this model.
- Enroll: the outcomes of the credential check, the network configuration check and the key parsing are arguments; text
  fields of a pod that no check reads are not part of its state.
- DeleteSubject: the launch authorizations, session leases and correlation block deleted along with a subject are not part
  of the pod protocol's state.
- PodContinuesForever: states what holds for enrolled pods; pods without a public key take the legacy heartbeat, which
  assigns any status and is modelled as it is. Restores lie outside the runs of the protocol.
- Available: numbers of more than 4300 digits, which Python's `int` refuses to read, and digits outside ASCII are not
  modelled; tags are folded to lower case for ASCII letters only, and the network and JSON parts are left out.
- CompareVersionsTotal: the same limit on the length of numbers applies.
- EnsureLatest: the manifest signature, the discovery address and the age of the last check are arguments; time stamps and
  the entity tag in `state.json` are not modelled.
- Download: error texts are abbreviations of the program's; only whether they are empty matters, and there the program's
  own prefix is kept.
- StoreLocal: the copy of the factory runtime is an argument, so that it may differ from the bytes that were hashed.
- Limiter.constructor: requires a window that is not negative and room for at least one client; with room for none the
  program raises on the first failure. Time is real, so rounding of the clock is not modelled.
- Attempt: the request lock is modelled as the atomicity of one attempt; body limits and time-outs of the request boundary
  are not part of this model.
- TrimDirectory: takes the files in the order the program sorts them into; files that vanish meanwhile are not modelled.
- ReadPage: the query works on the log as a sequence in key order; redaction and the upper bound of the page size are left
  out.
- WalkVisitsAll: events are added at the end of the log in key order; the deletion of old events during a walk is left out.
- CursorRoundTrip: base64, JSON and ISO time stamps are abstract inverses.
- ScoreIsShare: states the exact score; rounding to two decimals, which the two programs do differently, is left out.
- EditKeepsIff: the typed text contains neither a line break nor the mark that stands for one.
- Field.Sync: works on characters where the browser works on UTF-16 code units; selection and focus handling and the
  clearing of the field are left out.
- ReplaceResolved: the tree is a value, so that the deep copy and the untouched original hold by construction; the checks
  of single settings after the update are left out.
- Guard: origin and CSRF checks of the request, and the rate limiter around logins and key changes, are left out.
- Change: the contrast of the accent colour comes in as an outcome.
- Login: the target is compared after normalisation.
- Everything else of the service: HTTP routing, rendering, text redaction, URL checks, system metrics, images, the kernel
  and Neptune clients, and the release scripts.
