# Canvas replica: a verified model

A backend mirrors each student's Canvas data into its own database. This project models the parts of
it whose correctness is a matter of whole runs, and proves what they promise.

**The sync engine.** One run opens a transaction (or a savepoint inside its caller's), reads the
tenant's cursor, tries the tenant's lock, overlays users, courses, enrollments, assignments and
submissions from the answers of Canvas, advances the cursor and commits; on a failure it rolls back
and records a marker.

- `Tables` is the replica as a value, with the columns of its tables in `Columns`; `Sessions` is the
  database session with its savepoints and lock
  bookkeeping, `LockRegistry` the process-wide locks.
- `Replies` has the records Canvas delivers and the script of writes they ask for; `SyncRun` the effect
  of a script. `Pipeline` is the run itself, statement by statement, proved to perform exactly that
  script; `Callers` are the manual request and the scheduler worker around it.
- `Referential`, `History`, `Convergence`, `FirstRun`, `FirstRunExactly`, `Conservation`, `Agreement`,
  `Deliveries` and `Completeness` prove the properties of whole runs and of whole histories of runs;
  `Alike` and `Interleaving` carry them over to runs that overlap.
- `StoredFields` says in words which field of a record arrives in which column, and `Outcomes` what the
  results and state rows of runs say.

**The lock protocol.** `LockProtocol` is a step machine of concurrent runs on one event loop. A step is
one statement that touches a lock, a session's held set, or the loop, so every interleaving at awaits
is a sequence of steps.

**The algorithms around it.** `LockKey` (section 2 of draft-eastlake-fnv), `PeerStripping`
and its agreement with the pipeline's records in `RecordStripping`,
`CredentialPatterns` and `Redaction`, `Templates` with `TemplateRendering`, `SlotNames` and
`HarmlessSlots`, `Pagination`, `LinkHeader` (section 3 of RFC 8288), `RateLimit`, `TenantStore` and
`TenantSimulation`. `Texts` and `Wrappers` hold what several of them share.

Objects the program changes in place are classes; loops are methods with invariants, each proved
against a function; the theorems are lemmas about those functions. The clock, the answers of Canvas,
new identifiers, and refusals of a write or a commit are parameters.

Seven promises are false as they stand. They are kept as the code has them, with a concrete
counterexample beside the condition under which they hold:

- A first run is not always final: an answer may name a record that the same run stores later
  (`FirstRun.FirstRunMayDiffer`). `FirstRunExactly.FirstRunIsFinalExactly` gives the exact condition.
- Following the cursor can miss an assignment: assignments are read through the courses an answer lists,
  and one that changes while its course is left out is passed by (`Completeness.UnlistedCourseIsMissed`).
  `Completeness.RowCompletesExactly` says that what a run is not told is all it misses.
- A template can lose its tenant parameter to a declared slot that starts with a space
  (`HarmlessSlots.TenantParameterCanGetLost`), and rendering slot by slot is not always one substitution
  (`HarmlessSlots.HarmfulSlotDiffers`). `HarmlessSlots.TenantIsKeptExactly` and
  `HarmlessSlots.RendersAtOnceExactly` say for which slots without braces either promise holds;
  `HarmlessSlots.BracedNameMayLoseTenant` shows that with braces there is more to it.
- With the in-process lock, a run inside a caller's transaction gives its exclusion up before its rows
  are committed, and a second run may enter (`LockProtocol.NestedLockEndsTooEarly`);
  `LockProtocol.LockLastsToCommitExactly` says that these are the only ones.
- A failed run inside a caller's transaction does not always leave the caller's pending writes alone: a
  failure marker that cannot be written undoes them. `Pipeline.SyncTenant` says exactly when.
- The two modes of the tenant store differ exactly when a token is stored for a tenant that does not
  exist (`TenantSimulation.StrayTokenExample`, `TenantSimulation.ModesAreAlikeExactly`).
- A rejected caller that waits exactly the advertised seconds may be rejected again
  (`RateLimit.WaitAloneMayBeTooShort`); `RateLimit.ReturningCallerIsAdmitted` says exactly when.

Two comments of the paginator do not describe its code, and the model follows the code: a `per_page`
among the caller's parameters loses against the argument, and after a thousand pages the exception
comes before the check for a page already visited.

## Model

| member | source | states |
|---|---|---|
| LockRegistry.Registry.TryAcquire | app/sync/lock.py:87-95 | the lock of a tenant is acquired exactly if nobody has it, without waiting, and is held afterwards in either case |
| LockRegistry.Registry.Release | app/sync/lock.py:108-122 | after a release the tenant's lock is free, whether it was held, free or never created, and no other lock changes |
| Sessions.NaturalKeysAreUnique | app/repositories/upsert.py:119-141 | no two stored records of a table have the same tenant and Canvas id |
| Sessions.Session.BeginScope | app/sync/pipeline.py:149-161 | a scope owns the transaction exactly if none was running; otherwise it is a savepoint that remembers what it would restore |
| Sessions.Session.CommitScope | app/sync/lock.py:61-75 | an owned scope makes the session's view durable and frees every lock of the session; a savepoint does neither |
| Sessions.Session.RollbackScope | app/sync/lock.py:61-75 | an owned scope restores the durable state and frees every lock of the session; a savepoint restores what it remembered and frees none |
| Sessions.Session.FailFlush | app/sync/pipeline.py:899-914 | a write that fails outside a scope of its own undoes the innermost scope around it, to the savepoint or the durable state, and that scope can only be left |
| Sessions.Session.ReleaseFallbackLocks | app/sync/lock.py:61-75 | the loop over the held set frees exactly the locks in it and empties it |
| Sessions.Session.TryAcquireSyncLock | app/sync/lock.py:138-142 | the session remembers a lock exactly if it got it |
| Sessions.Session.ReleaseSyncLock | app/sync/lock.py:179-183 | the lock is neither held nor remembered afterwards |
| Sessions.Session.UpsertByCanvasId | app/repositories/upsert.py:89-141 | exactly the row with that natural key is created or overlaid; each column of the table, written out in `Columns.InTable`, takes the payload's value or keeps its own, and there is no other; keys and ids never change, and a key column in the payload of a new row is an error that changes nothing |
| Sessions.Session.SoftDeleteIfInactive | app/repositories/upsert.py:207-246 | the mark is set exactly if the state spells deleted, inactive, completed, concluded or unpublished in letters of any case, the row exists and has no mark yet; the result says whether it was |
| Columns.UpsertTakesColumns | app/models/__init__.py:231-433 | the columns a row takes are those of its table, column by column, and the soft-delete mark |
| Texts.LowerIsSpelling | app/repositories/upsert.py:231-231 | a text has a word as its lower case exactly if each of its letters is that of the word, its capital, or the Kelvin sign for a k |
| Sessions.Session.ResolveLocalUuid | app/sync/pipeline.py:727-741 | the local id of a Canvas id is that of the tenant's own row, or nothing |
| Sessions.Session.AdvanceWatermark | app/sync/watermark.py:55-110 | the row of the tenant and table carries the new cursor, time, status and error class, created if missing, and nothing else changes |
| Sessions.Session.ReadWatermark | app/sync/watermark.py:28-52 | the cursor is that of the tenant and table, or nothing without a row |
| SyncRun.PayloadIsSafe | app/sync/pipeline.py:549-568 | a payload as it is written has no key column and no soft-delete mark, and each of its foreign keys is the id of a stored row of the right table and the same tenant |
| SyncRun.SaveSubmissionWellFormed | app/sync/pipeline.py:690-713 | no field of a submission's payload can reach a foreign key except through the resolved link |
| SyncRun.StepsAppend | app/sync/pipeline.py:230-267 | running two scripts one after the other is running them as one, for rows and counters alike |
| Pipeline.SaveRow | app/sync/pipeline.py:570-579 | upsert, soft delete and counters of one record are one step of the script |
| Pipeline.UpsertEnrollment | app/sync/pipeline.py:541-579 | an enrollment is saved with its course and user resolved where they are stored and left out where not |
| Pipeline.UpsertSubmission | app/sync/pipeline.py:681-724 | a submission is saved likewise, its late-policy status as text |
| Pipeline.SyncSelfUser | app/sync/pipeline.py:413-435 | the user is saved and its Canvas id returned, or the fault is the one the answer has |
| Pipeline.SyncFavoriteCourses | app/sync/pipeline.py:438-501 | the loop over the pages performs the script of the courses in order and returns their ids and how many embedded enrollments it kept; the first bad item or the feed's fault ends it |
| Pipeline.SyncEmbeddedEnrollments | app/sync/pipeline.py:483-499 | of the enrollments that survived stripping each is saved, or counted as dropped when it has no id or another user's id |
| Pipeline.SyncFallbackEnrollments | app/sync/pipeline.py:504-538 | the optional endpoint is read to its end; a 404 is no fault, everything else is |
| Pipeline.SyncCourseAssignments | app/sync/pipeline.py:582-654 | every assignment is saved under the course's local id, looked up once, and its submission saved or dropped |
| Pipeline.SyncListings | app/sync/pipeline.py:258-267 | the listings of all courses are performed in order; the first fault is the fault of the run |
| Pipeline.SyncResources | app/sync/pipeline.py:230-267 | a run of the four resources performs the whole script, with the fallback exactly if no embedded enrollment was kept, and stops with the fault the answers determine |
| Pipeline.SyncTenant | app/sync/pipeline.py:164-410 | in an owned transaction or a caller's savepoint alike, the session's view afterwards is the completed run, or the view before with at most the failure marker, or the view before; durable if owned; the result reports exactly that. The caller's pending writes are kept, except exactly if the run fails, is not cancelled, and its marker cannot be written inside the caller's transaction: then the caller's scope is undone and can only be left. A failure is reported and stored with the class and text of what caused it. Savepoints, held locks and the registry are what they were |
| Pipeline.FailureIsTold | app/sync/pipeline.py:290-405 | a failed run reports, and stores as text in its state row: `auth_rejected` exactly for a request answered 401 or 403, `canvas_unavailable` for any other failed request and an HTTP failure, `schema_drift` for a payload of the wrong form, broken pagination, a rejected validation or an HTTP failure that mentions the payload, and `unexpected` for a rejected method and everything else; the row keeps its cursor |
| Outcomes.RefusalIsUnexpected | app/sync/pipeline.py:390-405 | a write or a commit the database refuses is reported and stored as unexpected |
| Outcomes.AnswersAreWholeExactly | app/sync/pipeline.py:504-538 | answers are free of faults exactly if the user, every course and every listing came whole, and, where no embedded enrollment was kept, the fallback did, for which a 404 and nothing else is as good as its end |
| Outcomes.RunSucceedsExactly | app/sync/pipeline.py:218-288 | a run succeeds exactly if it had the lock, its answers were free of faults, and the database refused no write and no commit |
| Outcomes.SuccessIsTold | app/sync/pipeline.py:269-286 | a run that succeeds reports its start as the last success, and its state row says ok, no error, and that time as cursor |
| Outcomes.RefusedRunIsTold | app/sync/pipeline.py:218-229 | a run without the lock reports so, with the last success before it, and leaves everything as it was |
| Outcomes.LastSuccessIsTrue | app/sync/pipeline.py:753-763 | over any history the last success a result reports is the start of the last run that succeeded, and unknown if none did, however many failed |
| Pipeline.RunInScope | app/sync/pipeline.py:190-405 | its transaction scope with the exception handlers: a refused write anywhere in the work, a fault in the answers or a refused commit each undo the whole work, and the lock is kept only inside a caller's transaction |
| Pipeline.EnterScope | app/sync/pipeline.py:196-216 | the cursor is read inside the scope before the lock is tried, and the lock is acquired exactly if free or held by the caller |
| Pipeline.DoWork | app/sync/pipeline.py:218-287 | without the lock nothing changes; with it the work and the cursor advance happen, or the answers' fault is reported |
| Pipeline.LeaveScope | app/sync/pipeline.py:287-405 | a fault restores the state before the scope and leaves at most the marker; a cancellation leaves not even that; a marker that cannot be written undoes the caller's scope, if the run is inside one |
| Pipeline.FinishFailure | app/sync/pipeline.py:874-927 | the marker becomes durable in a transaction of its own, or part of the caller's; a marker that cannot be written changes nothing in the former case and undoes the caller's scope in the latter, savepoints, locks and durable state apart |
| Pipeline.WriteFailureState | app/sync/pipeline.py:847-871 | the marker sets time, status and error class and leaves the cursor of an existing row alone |
| Pipeline.ReadLastSuccess | app/sync/pipeline.py:753-763 | the last success is the cursor, or the time of a run recorded as ok, or unknown |
| Callers.RunLocked | app/services/canvas_service.py:98-131 | a manual run refused by the lock changes nothing; otherwise it has the pipeline's effect, unless it is cancelled or the end of its scope raises, for a refused commit or a scope that a lost marker undid, which undoes everything; no lock is left behind |
| Callers.RunForTenant | app/sync/scheduler.py:239-270 | a scheduled run makes durable what the pipeline did, or nothing at all for a busy lock, a cancellation or a refused commit; no lock is left behind |
| Referential.SavedKeepsSound | app/repositories/upsert.py:119-141 | one write keeps the whole database sound: unique ids, and every foreign key points to a stored row of the right table and tenant |
| Referential.ApplyAllKeepsSound | app/sync/pipeline.py:549-568 | any script of such writes keeps it sound, keeps every row under its key and id, keeps every soft-delete mark with its time, and writes only rows of its tenant |
| Referential.RunScriptWellFormed | app/sync/pipeline.py:592-624 | whatever Canvas answers, every write of a run is one of those |
| Referential.CompletedKeepsSound | app/sync/pipeline.py:230-276 | a completed run keeps the database sound and leaves other tenants' rows and states alone |
| History.Perform | app/sync/pipeline.py:164-410 | a run by any of the three callers makes durable exactly what the theorems below speak of |
| History.PerformAll | app/sync/pipeline.py:164-410 | and so does any sequence of runs |
| History.FailedRunLeavesOnlyItsMarker | app/sync/pipeline.py:847-927 | a run that did not succeed leaves every domain row, every cursor and every other state row as it was |
| History.HistoryIsItsSuccesses | app/sync/pipeline.py:198-288 | after any sequence of ok, failed, locked and cancelled runs the data is what the successful runs alone would have made of it, and replayed alone they all succeed |
| History.WatermarkIsLastSuccess | app/sync/pipeline.py:269-278 | the cursor is always the start time of the last committed success |
| History.HistoryKeepsSound | app/sync/pipeline.py:727-741 | over every history of every tenant the whole database stays sound |
| History.HistoryNeverUndeletes | app/repositories/upsert.py:240-246 | over every history row ids never change and a soft-delete mark, once set, is never removed or moved |
| History.HistoryIsolatesTenants | app/repositories/upsert.py:119-124 | runs of other tenants leave a tenant's rows alone and create none for it |
| Alike.WriteKeepsAlike | app/repositories/upsert.py:119-141 | a write has the same effect on two databases that agree for its tenant up to the names of row ids |
| Interleaving.CommitKeepsInv | app/sync/pipeline.py:269-288 | the commit of a run amid the work of others leaves of its tenant what it would have left after the runs that have ended, and of the other tenants what was committed |
| Interleaving.RollbackKeepsInv | app/sync/pipeline.py:287-405 | the end of a failed run takes back exactly its own writes and leaves its marker |
| Interleaving.EveryInterleavingIsSerial | app/sync/pipeline.py:164-410 | however runs of any tenants interleave, what is committed at any time is, up to the names of row ids, what the runs that have ended leave one after the other in the order of their ends; when none goes on, nothing else is written |
| Convergence.ClosedForm | app/repositories/upsert.py:126-136 | what a row holds after a script is one overlay of what it held before, later writes over earlier ones, with at most one soft-delete mark |
| Convergence.AppliedAgain | app/repositories/upsert.py:126-136 | a script whose links resolved as they do in the end changes nothing when it runs again, at any other time |
| Convergence.ThirdRunChangesNothing | app/sync/pipeline.py:541-579 | with the same answers a second run creates no row and changes no id, and a third changes nothing at all |
| Convergence.ReplayConverges | app/sync/pipeline.py:438-501 | however often the same answers are replayed, the replica stays what the second run made of it |
| FirstRun.SettledFirstRunIsFinal | app/sync/pipeline.py:549-560 | a first run is final if every record it names is stored when it is named or is never stored |
| FirstRun.PlainAnswersSettle | app/sync/pipeline.py:550-551 | that is so when each nested course or assignment id is absent, names its enclosing record, or names a stored row |
| FirstRun.PlainFirstRunIsFinal | app/sync/pipeline.py:690-706 | hence with such answers the second run already changes nothing |
| FirstRun.FirstRunMayDiffer | app/sync/pipeline.py:483-499 | a counterexample: an enrollment embedded in a course delivered before its own has no course after the first run and has one after the second |
| FirstRunExactly.ForeignTrace | app/sync/pipeline.py:553-560 | what the first run leaves in a foreign key: the record last named, if it was stored when it was named; something else if it was not |
| FirstRunExactly.FirstRunIsFinalExactly | app/sync/pipeline.py:541-741 | the first run is final if and only if, for every row and foreign key, the last record named there that is stored in the end was stored when it was named |
| Conservation.CountersAreTallies | app/sync/pipeline.py:137-146 | each counter is the number of writes of its kind in the script |
| Conservation.CountsAreConserved | app/sync/pipeline.py:451-499 | on success courses and assignments equal the items delivered, and enrollments, submissions and dropped records together equal the embedded enrollments that survived stripping, the fallback items and the assignments with a submission |
| Conservation.SoftDeletesAreCounted | app/sync/pipeline.py:472-479 | the soft-delete counter is the number of rows that carry a mark after the run and did not before |
| StoredFields.UserIsStored | app/canvas/dto.py:43-49 | after a completed run every field of the user that has a column is in it with the user's value, unless a later write of the run says otherwise |
| StoredFields.CourseIsStored | app/canvas/dto.py:92-101 | likewise every field of every delivered course, its state and its calendar |
| StoredFields.EnrollmentIsStored | app/canvas/dto.py:63-68 | likewise of every enrollment of the user, embedded or in a fallback that is read, its state included; the owner is its user id, or that of its user if it has none |
| StoredFields.AssignmentIsStored | app/canvas/dto.py:189-194 | likewise of every assignment of every listing, its state included |
| StoredFields.SubmissionIsStored | app/canvas/dto.py:138-151 | likewise of its submission unless that is somebody else's, its state included and its late-policy status as text; body, URLs and attachments only with the user's own id |
| StoredFields.EnrollmentNames | app/sync/pipeline.py:549-560 | the course an enrollment is linked to is that of its own id, unless that is missing or zero; then the one it is embedded in; and the user is its user |
| StoredFields.SubmissionNames | app/sync/pipeline.py:690-706 | a submission's assignment likewise |
| StoredFields.AssignmentNames | app/sync/pipeline.py:592-624 | an assignment is linked to the course of its listing |
| StoredFields.HistoryKeepsColumns | app/repositories/upsert.py:115-123 | over every history no row has another column than those of its table and the soft-delete mark |
| Deliveries.RunScriptIsDelivered | app/sync/pipeline.py:230-267 | a run's script is that of the records it reads: the user, each course with its embedded enrollments, the fallback's enrollments, and each assignment with its submission, in this order |
| Deliveries.DeliveredInOrder | app/sync/pipeline.py:413-624 | the user is stored before everything else, and every course of the answers before the fallback's enrollments and the assignments |
| Deliveries.RunMakesLinks | app/sync/pipeline.py:483-560 | whatever was stored before, a run resolves every link to the user, every link of a fallback enrollment or an assignment to a course of the answers, and every link of an embedded record to the one it is embedded in |
| Deliveries.AssignmentIsOfListedCourse | app/sync/pipeline.py:258-267 | a run saves assignments of the courses in the answers only, each under its course |
| Agreement.AgreesIsPart | app/canvas/dto.py:189-194 | a copy of a record agrees with it if what it says is part of the record, and is whole if it says exactly the record |
| Agreement.EmbeddedAndFallbackAlike | app/sync/pipeline.py:483-538 | an enrollment embedded in a course and the fallback's copy of it say the same of it, if the copy names the course the former is linked to |
| Agreement.ScriptShowsFields | app/repositories/upsert.py:126-136 | if nothing in a script contradicts a record, its row shows every non-null field and the soft-delete mark after the script, if it did before or some write is a whole copy |
| Agreement.ScriptShowsLink | app/sync/pipeline.py:541-579 | and a link refers to the record named, if it did before or some write names it when it is stored, earlier in the same script included |
| Completeness.ConsistentAnswersAreHonest | app/sync/pipeline.py:230-267 | the assumption on Canvas can be met: any answers that say the same of a record wherever they do are honest about some timeline |
| Completeness.RunCompletes | app/sync/pipeline.py:192-276 | after a successful run the row of a record unchanged since the run's start shows every field, if the record changed since the cursor or its row showed them before, because that time is taken before the first read; a link refers to the record named, if it did before or that was stored when the run named it |
| Completeness.HistoryIsComplete | app/sync/pipeline.py:230-276 | after any history of honest runs of any tenants, once the cursor has reached the last change of a user, course, enrollment, assignment or submission, its row agrees on every non-null payload field and the soft-delete mark, whatever endpoints deliver how many copies of it, and even if records change while a run reads; a link refers to the record named if that was stored when a run since the change named it, or at any time before the cursor had reached the change |
| Completeness.RowCompletesExactly | app/sync/pipeline.py:230-276 | a record told whole or not at all is complete after a run if and only if it was before or the run was told it |
| Completeness.UnlistedCourseIsMissed | app/sync/pipeline.py:258-276 | a counterexample family: an assignment whose course the answers leave out keeps its row as it was, and the cursor moves past its change |
| Completeness.ClearedFieldsStay | app/canvas/dto.py:189-194 | only non-null fields: one that Canvas clears keeps its old value in the replica |
| LockProtocol.TryLockKeepsInv | app/sync/lock.py:138-142 | acquiring keeps locks, held sets and holders in step |
| LockProtocol.ExitScopeKeepsInv | app/sync/lock.py:61-75 | so does the end of a root transaction with its hook, and the end of a savepoint without one |
| LockProtocol.ReleaseKeepsInv | app/sync/lock.py:179-183 | so does the second, explicit release |
| LockProtocol.EveryScheduleKeepsInv | app/sync/scheduler.py:239-270 | locks and held sets are exactly those of the runs between acquire and first release, in every interleaving of the three callers at awaits, cancellations included |
| LockProtocol.MutualExclusion | app/services/canvas_service.py:105-131 | at most one run per tenant is inside the locked body |
| LockProtocol.LockedIsDisjointUnion | app/sync/lock.py:44-75 | the locked tenants are the disjoint union of the sessions' held sets |
| LockProtocol.NobodyFreesAnothersLock | app/sync/pipeline.py:406-410 | no step of another run, the double releases included, and no end of a caller's transaction takes a run's lock or its entry in the held set away |
| LockProtocol.NoLockLeaks | app/sync/lock.py:108-122 | when no run is left, nothing is locked and no session holds anything |
| LockProtocol.RefusedOnlyByAHolder | app/sync/pipeline.py:212-216 | the lock refuses a run exactly when another run of the tenant is between acquire and first release |
| LockProtocol.LockLastsToCommitExactly | app/sync/lock.py:3-5 | in every schedule a run's lock is given up only after the transaction around it ended, if and only if the run opened that transaction itself |
| LockProtocol.NestedLockEndsTooEarly | app/sync/pipeline.py:406-410 | a counterexample: a run inside a caller's transaction is over while that transaction goes on, and a second run of the tenant is in the locked body |
| LockProtocol.PreemptionBreaksExclusion | app/sync/scheduler.py:258-270 | why no await may come between the two releases: with preemption there a schedule puts two runs of one tenant into the body |
| LockKey.LockKeyFor | app/sync/lock.py:186-198 | the loop computes FNV-1a and the key lies in [-2^31, 2^31) |
| LockKey.KnownHashes | app/sync/lock.py:193-197 | the hash of the empty text and of "a" are the published ones |
| LockKey.XorTwice | app/sync/lock.py:196-196 | the exclusive or of the model undoes itself |
| LockKey.MixInjective | app/sync/lock.py:196-197 | a step is injective in the state for a fixed byte, and in the byte for a fixed state |
| LockKey.OneByteApart | app/sync/lock.py:193-197 | equally long keys that differ in exactly one byte never have the same hash |
| LockKey.OneByteApartSigned | app/sync/lock.py:193-198 | nor the same signed key |
| PeerStripping.StripMapping | app/canvas/dto.py:236-270 | the recursive copy with its loop terminates; a mapping is dropped exactly if it has an owner other than the user and a field of an enrollment; otherwise no submission without the user's own id, and no record with another user's id, has a body, a preview URL, a URL or attachments left, at any depth, and every other field is kept, of the user's own enrollments in order |
| PeerStripping.SameUserInWords | app/canvas/dto.py:202-208 | an id is the user's if it is that number, a numeral of it, or a fraction that reduces to it |
| PeerStripping.StripAt | app/canvas/dto.py:236-270 | a field goes only if it is sensitive and the record is a peer's, and changes only if it is an enrollment list or a peer submission; all other fields are what they were |
| PeerStripping.StripLeavesClean | app/canvas/dto.py:246-257 | at every depth each surviving nested enrollment belongs to the user, and no peer record or peer submission has content left |
| PeerStripping.StripFixesClean | app/canvas/dto.py:236-270 | stripping changes nothing if and only if there is no peer data |
| PeerStripping.StripIsIdempotent | app/canvas/dto.py:236-270 | stripping twice is stripping once |
| PeerStripping.StripIgnoresExactlyPeerData | app/canvas/dto.py:202-270 | two payloads give the same result if and only if they differ only in peer data: inside or in the number of peer enrollments, in the contents of peer submissions and peer records |
| RecordStripping.EnrollmentStripped | app/canvas/dto.py:285-294 | a validated enrollment is dropped exactly if the JSON it dumps to is, and is unchanged otherwise |
| RecordStripping.CourseStripped | app/canvas/dto.py:285-294 | the course the pipeline works on dumps to the stripped dump of the course Canvas sent |
| RecordStripping.AssignmentStripped | app/canvas/dto.py:285-294 | so does the assignment, whose submission loses its content without the user's own id |
| CredentialPatterns.AcceptsIsLanguage | app/security/redaction.py:30-32 | the automaton accepts exactly the language of the regular expression, for each of the three |
| CredentialPatterns.FernetInWords | app/security/redaction.py:30-30 | the first language: `gAAAA` and at least one letter, digit, underscore, hyphen or equals sign |
| CredentialPatterns.BearerInWords | app/security/redaction.py:31-31 | the second: `bearer` in any letters, white space, and at least one character of a token |
| CredentialPatterns.PgUrlInWords | app/security/redaction.py:32-32 | the third: `postgres` or `postgresql`, a driver or none, `://`, and at least one character that is no white space, quote or angle bracket |
| CredentialPatterns.SpaceInWords | app/security/redaction.py:31-32 | the characters that count as white space, by their codes |
| CredentialPatterns.MatchIsLongestInLanguage | app/security/redaction.py:30-32 | a match is the longest prefix in the language, and there is one whenever some prefix is in it |
| Redaction.NoMatchMeansNoCredential | app/security/redaction.py:76-83 | a text the scanner finds nothing in has no substring in the language, and conversely |
| Redaction.SubReplacesFirstMatch | app/security/redaction.py:80-82 | the leftmost longest match is replaced by the mask, the text before it stays and the rest is treated alike |
| Redaction.SubCreatesNoMatch | app/security/redaction.py:80-82 | a pass over a text, masks of earlier passes included, completes no match that was not there |
| Redaction.RedactedHasNoCredential | app/security/redaction.py:76-83 | no substring of a redacted message matches any of the three patterns |
| Redaction.RedactionFixesCleanMessages | app/security/redaction.py:76-83 | redaction leaves a message alone if and only if it has no credential |
| Redaction.RedactedIsSafe | app/security/redaction.py:85-104 | a redacted value has the same containers, keys and lengths, no credential in any text, and the mask under every sensitive key in any letter case |
| Redaction.RedactionFixesSafeValues | app/security/redaction.py:85-104 | redaction changes nothing if and only if the value is already so |
| Redaction.RedactionIsIdempotent | app/security/redaction.py:85-104 | redacting a nested value twice is redacting it once |
| Redaction.RedactDict | app/security/redaction.py:85-93 | the loop over the entries masks exactly those under one of the twelve names in letters of any case, keeps all keys and redacts the other values; nested dictionaries likewise |
| Redaction.EnvelopeGoesFirst | app/security/redaction.py:80-82 | of the three passes that for envelopes comes before that for tokens: the word in front of an envelope stays |
| Redaction.TokenGoesBeforeUrl | app/security/redaction.py:81-82 | and that for tokens before that for addresses |
| Templates.AllowList.Register | app/text_to_sql/allow_list.py:27-32 | a template is stored exactly if its placeholders include `tenant_id` and are all declared; a refusal changes nothing; what is stored always has that property |
| Templates.AllowList.Resolve | app/text_to_sql/allow_list.py:34-50 | exactly an unknown name, and otherwise exactly a slot too many or too few, is refused; else the loop rewrites the text slot by slot in the caller's order |
| Templates.IdentifierInWords | app/text_to_sql/allow_list.py:29-29 | the names a placeholder can have: letters, digits and underscores, with no digit first |
| TemplateRendering.SubstitutedContinuesAlike | app/text_to_sql/allow_list.py:44-50 | no rewrite creates or destroys another placeholder |
| TemplateRendering.SubstitutionsCompose | app/text_to_sql/allow_list.py:44-50 | two substitutions in a row are one |
| TemplateRendering.NoneRemains | app/text_to_sql/allow_list.py:27-32 | where all placeholders are slots, none is left |
| TemplateRendering.SlotBecomesParameter | app/text_to_sql/allow_list.py:44-50 | every slot with a placeholder occurs as a parameter in the result |
| SlotNames.KeyMatchIsGroup | app/text_to_sql/allow_list.py:49-49 | the regular expression built for a slot name without braces, identifier or not, matches, backtracking included, exactly a brace-free text between two braces and two braces that is the name with white space around it |
| SlotNames.PlaceholderIsGroup | app/text_to_sql/allow_list.py:29-29 | the placeholders found at registration are exactly such texts that trim to an identifier |
| HarmlessSlots.TenantIsKeptExactly | app/text_to_sql/allow_list.py:27-50 | every template registered with a set of slot names without braces resolves in every order to a text with `:tenant_id` if and only if no slot starts with white space and trims to `tenant_id` |
| HarmlessSlots.BracedNameMayLoseTenant | app/text_to_sql/allow_list.py:44-50 | a counterexample for names with braces: the slot "x}} {{tenant_id" reaches over two placeholders, and no slot is as that condition forbids |
| HarmlessSlots.StealingSlotLoses | app/text_to_sql/allow_list.py:44-50 | any such slot takes the tenant's placeholder in some registered template and order |
| HarmlessSlots.TenantParameterCanGetLost | app/text_to_sql/allow_list.py:27-50 | for example, with the slot " tenant_id" a registered template resolves to a text without `:tenant_id` |
| HarmlessSlots.RendersAtOnceExactly | app/text_to_sql/allow_list.py:44-50 | every template registered with a set of slot names without braces renders, in every order, to the one simultaneous substitution if and only if each slot is an identifier or trims to an identifier that is not declared |
| HarmlessSlots.HarmfulSlotDiffers | app/text_to_sql/allow_list.py:44-50 | any other slot name without braces makes some registered template render differently in some order |
| HarmlessSlots.ResolvedTemplateIsBound | app/text_to_sql/allow_list.py:27-50 | with such slots a registered template resolves, in any order, to one simultaneous substitution without any placeholder left and with `:tenant_id` in it |
| Pagination.Paginate | app/canvas/pagination.py:168-283 | a page size below one raises at once; otherwise the first page asked for is the path's, against the client's address if relative, with `per_page` in digits and then each of the caller's other parameters once, with its first value, in order, and nothing else; the pages fetched are the first ones of the chain of next links, no page twice, at most a thousand, their items yielded in order, and the iteration ends at a missing link, a page already visited, a fault, or after a thousand pages |
| Pagination.SamePageExactly | app/canvas/pagination.py:76-89 | two addresses count as one page exactly if they agree before the query and on the values of every name, a page number of 1 counting as none |
| Pagination.NextIsResolved | app/canvas/pagination.py:92-110 | a next link is fetched where it says, or against the client's address, with its own query |
| Pagination.KeysAreVisited | app/canvas/pagination.py:224-238 | the visited set recognizes exactly the pages already fetched, the first page with or without its number |
| Pagination.FollowedIsUnique | app/canvas/pagination.py:204-283 | that determines the run: no page can be left out, repeated or reordered |
| Pagination.AcyclicChainIsYielded | app/canvas/pagination.py:168-283 | from the first request of any path and parameters, an acyclic chain of at most a thousand pages is yielded as a whole, every item once and in order |
| Pagination.CyclicChainIsYieldedOnce | app/canvas/pagination.py:168-283 | likewise a chain that comes back to a page after fewer than a thousand distinct ones is yielded once around |
| LinkHeader.ParseLinkHeader | app/canvas/pagination.py:130-153 | the nested loops compute the parse the lemmas speak of; no header gives no links |
| LinkHeader.RoundTrip | app/canvas/pagination.py:130-153 | printing links and parsing them back gives the map of relations to URLs, the last of several with one relation |
| LinkHeader.ComesBackExactly | app/canvas/pagination.py:141-152 | a link comes back if and only if its URL is not empty and has no separator inside and no space or angle bracket at its ends, and its relation has no separator inside and no quote at its ends |
| LinkHeader.ParsedAvoidsSeparators | app/canvas/pagination.py:139-152 | no relation and no URL returned from any header contains a comma or a semicolon |
| RateLimit.CanvasService.EnforceManualRateLimit | app/services/canvas_service.py:156-177 | a run is accepted exactly if the tenant has none, or at least the configured seconds and at least one second have passed since; then its row is stamped, otherwise nothing changes and the wait is reported |
| RateLimit.CanvasService.StampManualRun | app/services/canvas_service.py:179-203 | the tenant's row carries the time as run and cursor, ok and no error, whether it existed or not |
| RateLimit.AcceptedRunsAreSpaced | app/services/canvas_service.py:156-177 | over any calls and any clock readings, even backward ones, accepted runs of a tenant are at least the minimum interval apart |
| RateLimit.WindowHoldsFew | app/services/canvas_service.py:156-177 | a window of L seconds holds at most floor(L / minimum) + 1 accepted runs |
| RateLimit.RoundingMatters | app/services/canvas_service.py:172-175 | the rounding of the floating-point sum changes the advertised seconds only where the exact sum is whole, and there by one second down |
| RateLimit.RetryAfterBounds | app/services/canvas_service.py:172-175 | the advertised wait is at least the remaining time less a millisecond, more than that unless rounding went down, and less than the remaining time and a second |
| RateLimit.ReturningCallerIsAdmitted | app/services/canvas_service.py:166-176 | after the wait and a millisecond the caller is admitted if nobody else was; after the wait alone exactly if less than a second remained, or whole seconds did, or the fraction of a second that remained exceeds a millisecond, or is one that rounding did not take away |
| RateLimit.WaitAloneMayBeTooShort | app/services/canvas_service.py:172-175 | a counterexample: told to wait two seconds, a caller who does is rejected again |
| TenantStore.TenantRepository.GetOrCreateTenant | app/services/tenant_service.py:82-95 | the user's row is returned, appended if there was none; an empty user is an error |
| TenantStore.TenantRepository.UpsertCanvasCredential | app/services/tenant_service.py:107-129 | the tenant's credential row is the new ciphertext and version, and no other row changes |
| TenantStore.TenantService.GetOrCreateTenant | app/services/tenant_service.py:193-212 | in the mode the constructor selected, answer and new state are those of the store's specification |
| TenantStore.TenantService.StoreCanvasToken | app/services/tenant_service.py:214-249 | likewise; only the store in memory refuses an unknown tenant |
| TenantStore.TenantService.GetDecryptedCanvasToken | app/services/tenant_service.py:251-284 | likewise, for a missing credential, a missing cipher and a cipher that does not fit |
| TenantSimulation.StepRefines | app/services/tenant_service.py:193-249 | a step of either mode is a step of one specification in which tenants are numbered by creation |
| TenantSimulation.ModesAreAlikeExactly | app/services/tenant_service.py:178-264 | the modes answer a sequence of calls alike, up to the identifiers they draw, if and only if it stores tokens only for tenants that exist by then |
| TenantSimulation.StrayTokenExample | app/services/tenant_service.py:238-239 | a counterexample: a token for a tenant not yet created is refused in memory and stored by the tables |
| TenantSimulation.ReadsReturnLastStored | app/services/tenant_service.py:251-284 | in either mode a read returns the last token stored for the tenant if and only if the cipher now bound to its version is the one that encrypted it |
| TenantSimulation.ReadsNeverFailToDecrypt | app/services/tenant_service.py:182-191 | with one key per version every read returns the last token stored |
| TenantSimulation.MapsAlwaysAgree | app/services/tenant_service.py:200-212 | the two maps in memory are each other's inverse, credentials belong to tenants, and the tenants are those created |

## Left out

- Pipeline.SyncTenant: the counters reported by a failed run are whatever it had reached; the result of a manual run refused by the lock has an empty dictionary in the program and zeros here.
- Completeness.HistoryIsComplete: Canvas keeps one clock and delivers everything that changed since the cursor, in at least one whole copy, and nothing that was not so while the run read; a record that is deleted in Canvas is not part of the timeline.
- PeerStripping.SameUser: text counts as a number when it is plain decimal digits with an optional minus; the program also takes signs, spaces, underscores and other digits, and compares texts when the user id itself is no number. All lemmas hold for every ownership test that rejects a missing id.
- HarmlessSlots.TenantIsKeptExactly: states slot names without braces only; a backslash in one, which the replacement would interpret, is not modelled.
- HarmlessSlots.RendersAtOnceExactly: likewise.
- Redaction.RedactDict: the filter around it, which rewrites a log record and swallows every exception, is not modelled.
- RateLimit.CanvasService.EnforceManualRateLimit: the program computes the wait in floating point; its rounding error is a parameter, which the lemmas take to be below a microsecond, as it is for minimum intervals below 2^30 seconds. Which sums are rounded down is not computed.
- LockKey.LockKeyFor: takes the encoded bytes of the key; trimming it and refusing an empty one are not modelled.
- Pagination.Paginate: a URL is its part before the query and its decoded pairs, so fragments and different spellings of one query are not told apart; parameter values are single texts; the path has no query of its own; the paginator is modelled to its end, not as a generator its reader may abandon.
- TenantStore.TenantService.StoreCanvasToken: encryption is a seal only its own key opens; creation and rotation times, and switching a service to a session after its construction, are not modelled.
- Answers of Canvas depend on the cursor of a run only, and one record is soft-deleted at one time within a run.
- HTTP transport, retries, scheduling, jitter, the worker pool, and the clocks behind them.
- PostgreSQL's advisory lock, which excludes by itself at the end of the transaction; the model is the in-process fallback, and preemption between awaits is modelled only to show what it would break.
- Interleaving.EveryInterleavingIsSerial: a run sees of its tenant its own writes and what is committed, and that no other run of the tenant writes meanwhile is taken from `LockProtocol.MutualExclusion`; the isolation of the database itself is not modelled further.
- Validation of Canvas payloads: records are given as validated or as malformed, and the nested whitelists of an assignment count as part of that.
- The tenant check of foreign keys that the pipeline does not call, the vector store, the validator and executor of generated SQL, controllers, health, metrics and logging set-up.
