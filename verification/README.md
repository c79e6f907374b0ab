# Super Mem: verified model of the memory store and its recall pipeline

This project models the event-sourced memory store of `super-mem-core` and the
recall pipeline on top of it, and proves what the store promises over whole
runs. `dafny verify dfyconfig.toml` checks everything.

The store has an append-only event log, mutable heads, numbered revisions with
metadata and attachments, a link ledger, event associations, idempotency rows,
and derived search tables. A write operation is one immediate transaction: it
works on its own copy of the tables and either commits that copy or leaves the
store as it was. `Engine.MemoryEngine` is that object; its methods, and the row
loops in `Transactions` and `SessionReading`, are proved against the step
functions of `Database` and `CheckpointSession`, and everything else is proved
about those functions.

| Module | What it holds |
|---|---|
| `Basics`, `Domain`, `Strings` | results, identifiers, scopes, requests, string helpers |
| `Database`, `AttachmentTables` | tables, and what each write does to them |
| `Transactions`, `SessionReading`, `Engine` | the same, row by row and imperatively |
| `Ledger`, `Extension`, `LinkLedger`, `Provenance` | the store invariant; append-only growth over runs; latest links against the link ledger; evidence, links and writes that stay in their scope |
| `StoredRequests`, `AttachmentContents`, `Redaction` | what an accepted write stores, told from the request; nothing unredacted in any run |
| `Refusals`, `Fingerprints`, `Idempotence`, `ReadBack` | when a write is accepted; when a repetition is the same request; repeating and reading back |
| `TimeTravel`, `ResultBodies`, `SharedKeyExample` | the historical query against the live one, the results it reports, and a retry that conflicts because the two differ |
| `CanonicalKeys` | at most one live head per key, and exactly when a write breaks it |
| `CheckpointSession`, `SessionSlice`, `SessionEvents` | enriched checkpoints: which events are read, and what is made of each |
| `CheckpointContents`, `MemberHeads`, `FailedAttempts` | what a checkpoint stores, and what a later checkpoint finds of it |
| `CheckpointAcceptance`, `CheckpointLimits` | when a checkpoint is accepted, and what a session may add to it |
| `SessionRetry`, `RetryInRuns`, `InterleavedRetryExample` | exactly when a retry converges, and when it is refused |
| `AttemptCoalescing`, `AttemptKeys`, `AttemptReports` | grouping, ordering and capping of automatic attempts, by keys and by words |
| `Text`, `Truncation`, `ContextCompiler`, `Markup`, `PackContents`, `Recall` | truncation, token budgets, rendering and reading it back, pinned hydration |
| `ApplicabilityRules`, `ArtifactStaging`, `Verdicts` | artifact comparison in two forms, truncated staging, the meaning of each verdict |
| `DenseShortlist`, `SearchIndex`, `ProjectionRules` | the bounded nearest scan; derived tables and projections |
| `Tables`, `Snapshot`, `CanonicalTables` | rows, keys and references; export and restore; why every reachable store can be restored |
| `LegacyBackfill`, `LegacyRestore`, `RestoredRetry` | first-version snapshots: tables rebuilt from heads and latest links, and what the restored store still knows |

Main results:

* **Ledgers explain heads.** Every operation keeps an invariant under which a
  head's lifecycle state, its revision numbering and the coverage of the search
  tables are determined by the append-only tables (`Extension.ReachableInv`).
* **The past can be read later.** For every valid store and every later store,
  the failed-attempt query rebuilt from ledgers selects exactly the revisions
  the live query selected at the boundary (`TimeTravel.TimeTravelRows`), and it
  answers what the heads of the boundary say when ordered by when they were
  recorded (`TimeTravel.TimeTravelResults`). The live query orders them by when
  they were last touched; `TimeTravel.ResultsAgreeIff` says in head columns
  exactly when that makes a difference. It needs two live heads under one key,
  which no run that names no memory ever has (`CanonicalKeys.CanonicalKeysUnique`).
* **Exactly when retries converge.** A keyed session checkpoint is read in one
  transaction and committed in another. `SessionRetry.RetryExact` says, for any
  commits in between, any run afterwards and any commits between the two
  transactions of the retry, when repeating it returns the first receipt. The
  newest event of the session logged in between decides. Without one, the retry
  converges when the failing heads of the attempted keys still report the same
  results. If it is a checkpoint, the retry converges when reading the session
  had added nothing to the request; if it is anything else that the request does
  not cite itself, the retry is refused. Both cases happen
  (`InterleavedRetryExample.InterleavedRetryConflicts` and
  `InterleavedRetryExample.HiddenEventConverges`). With nothing in between the
  retry converges exactly when no attempted key is reordered
  (`SessionRetry.RetryConverges`); `SharedKeyExample.IdenticalRetryConflicts` is
  a reachable store where the identical retry is refused, and
  `RetryInRuns.RetryConvergesInRuns` covers every history that names no memory.
  Exactness is stated for requests that cite nothing logged in between and for
  redaction that keeps different texts different, as when it is switched off;
  convergence holds for every redactor.
* **A session checkpoint reads exactly its turn.** The events it reads are
  characterized on positions of the log (`SessionSlice.SliceExact`), what is made
  of each on its kind and attributes (`SessionEvents.EnrichmentTells`), and what
  is returned of them on the words of their identities: attempts with the same
  words come back once, as their last run with their first failure, and
  different words never merge (`AttemptReports.CoalescedReports`,
  `AttemptKeys.KeysTellWords`).
* **Failures are followed up.** After an accepted checkpoint the lookup of a key
  finds the result of the last attempt under it, when that one failed, and
  nothing the checkpoint wrote, when it succeeded (`FailedAttempts.FailureIsFound`,
  `FailedAttempts.SuccessIsNotFound`); the next session checkpoint tells that
  failure first (`FailedAttempts.FailureIsFollowedUp`).
* **Nothing unredacted is stored.** Over every run each logged content and each
  stored title, body, key, tag, entity, artifact text and attribute record is a
  result of the redactor (`Redaction.RunKeepsRedacted`). Scopes and relations are
  not redacted by the engine but refused; that check is not modelled.
* **Writes store what they are told, and repeat safely.** What an accepted
  write leaves behind is stated from the request alone
  (`StoredRequests.RememberedText`, `StoredRequests.RememberedLinks`,
  `StoredRequests.RememberedAttachments`, `CheckpointContents.CheckpointText`),
  and so is when it is accepted (`Refusals.RememberIsAccepted`). A keyed write
  repeated after any run returns its first receipt if it is the same request up
  to redaction, and is refused otherwise, without touching the store
  (`Fingerprints.RememberedAgain`, `Fingerprints.CheckpointedAgain`).
* **Context packs carry data, not markup.** Whatever is stored, the rendered
  context opens no markup and reads back as its sections, titles, bodies and
  warnings (`PackContents.PackReadsBack`), and every doubtful memory in it has a
  warning that names it (`PackContents.PackWarns`).
* **Cuts are maximal and packs fit.** The binary search over sentence-aware
  cuts finds the largest cut that fits, for every body; bodies with carriage
  returns need no exception, because rendered length never decreases even when
  a cut falls inside a CR LF pair.
* **Both artifact comparisons agree** for all memories, scopes and Git answers
  exactly when every current identity that has a hashed entry is hashed at its
  first one.
* **Scopes are isolated.** Evidence and links never cross scopes
  (`Provenance.RunKeepsProvenance`), and runs in other scopes leave the memories
  of a scope untouched (`Provenance.ScopesAreIsolated`).
* **Snapshots round trip**, and import accepts nothing but complete documents.
  Rows are checked one by one as they are inserted, which accepts exactly the
  tables that satisfy the schema (`Snapshot.RestoreIff`), and every reachable
  store satisfies the keys and references between its tables
  (`CanonicalTables.ReachableKeysHold`). A store restored from a first-version
  snapshot, without revision metadata and link ledger, is a valid store again
  (`LegacyRestore.RestoredInv`);
  `LegacyRestore.RestoredTimeTravel` says exactly which boundaries before the
  snapshot it still answers for.

Parameters stand for what the engine gets from outside: generated identifiers,
Git relations, current artifacts, the redactor (any deterministic rewriting),
Hamming distances of signature rows, and the text encoding of snapshot rows.
Scope keys, content hashes and request fingerprints are represented by the
values they are taken over, that is, as injective digests.

## Model

| member | source | states |
|---|---|---|
| `Engine.MemoryEngine.Observe` | crates/super-mem-core/src/engine.rs:315-377 | the transaction of `ObserveStep` on the store object: a commit or no change at all; what it adds is that the invariant holds again and everything recorded before stays |
| `Engine.MemoryEngine.Remember` | crates/super-mem-core/src/engine.rs:383-444 | table-by-table write equals `RememberStep`; a refusal leaves every table as it was |
| `Engine.MemoryEngine.WriteCheckpoint` | crates/super-mem-core/src/engine.rs:678-850 | the three member loops write exactly the batch `CheckpointWrites` describes, in order, or fail with the first error |
| `Engine.MemoryEngine.Checkpoint` | crates/super-mem-core/src/engine.rs:645-866 | commit or deduplicate exactly as `CheckpointStep`; invariant and extension kept |
| `Engine.MemoryEngine.EnrichFromSession` | crates/super-mem-core/src/engine.rs:458-635 | the read transaction returns the enriched request of `ReadSession`, live or rebuilt at the retry boundary |
| `Engine.MemoryEngine.CheckpointSession` | crates/super-mem-core/src/engine.rs:451-641 | both transactions together are `CheckpointSessionStep` with nothing committed in between |
| `Engine.MemoryEngine.Retract` | crates/super-mem-core/src/engine.rs:1713-1816 | the transaction of `RetractStep` on the store object, table by table; what it adds is that the invariant holds again and everything recorded before stays |
| `Engine.MemoryEngine.RegisterSearchProjections` | crates/super-mem-core/src/engine.rs:1284-1496 | a batch is committed whole or the store is unchanged |
| `Engine.MemoryEngine.RebuildSearchIndex` | crates/super-mem-core/src/engine.rs:1616-1627 | from any damaged alias and full-text table the intact store is restored, row for row |
| `Transactions.UpsertMemory` | crates/super-mem-core/src/engine.rs:3372-3587 | the step-by-step upsert, attachments and both link tables included, equals the declarative `Upsert`, errors included |
| `Transactions.WriteRevision` | crates/super-mem-core/src/engine.rs:3430-3586 | the statements in their order leave exactly the rows of `Written`, or refuse with the first bad link |
| `Transactions.FindExisting` | crates/super-mem-core/src/engine.rs:3383-3428 | resolves explicit identifiers and canonical keys; the key resolves to the newest live head |
| `Transactions.SelectNewest` | crates/super-mem-core/src/engine.rs:3418-3425 | the loop ends with the head that is newest, then smallest by identifier |
| `Transactions.CheckEvidence` | crates/super-mem-core/src/engine.rs:3786-3835 | the loop refuses exactly the first source with a bad relation, a missing or foreign event, or a span that is no byte range of whole characters |
| `Transactions.CheckLinkTargets` | crates/super-mem-core/src/engine.rs:3837-3867 | the loop refuses exactly the first bad link target or relation |
| `Transactions.InsertLinks` | crates/super-mem-core/src/engine.rs:3546-3565 | latest links, ledger rows and associations of a whole request, or the error of its first self-link or duplicate |
| `Transactions.InsertAttachments` | crates/super-mem-core/src/engine.rs:3480-3544 | one insert-or-ignore per attachment leaves the stored attachments |
| `AttachmentTables.StoredRows` | crates/super-mem-core/src/engine.rs:3480-3500 | a table read in key order holds exactly the items that come first among those of their key |
| `AttachmentTables.StoredAttachments` | crates/super-mem-core/src/engine.rs:3480-3544 | stored tags differ in more than case, entities are in lower case, evidence repeating an event and relation is stored once with its first span, and every revision cites its own event |
| `Transactions.ApplyLinkLifecycle` | crates/super-mem-core/src/engine.rs:3589-3622 | conditional updates in request order settle every head as `SettleAll` says, whatever that order |
| `Transactions.UpsertMembers` | crates/super-mem-core/src/engine.rs:745-850 | one member loop extends the batch of the members before it |
| `Ledger.WriteKeepsInv` | crates/super-mem-core/src/engine.rs:3372-3587 | one memory write keeps the whole invariant: numbering, order, grounding, ledger-determined states, index coverage |
| `Ledger.WriteKeepsLedger` | crates/super-mem-core/src/engine.rs:3589-3622 | after links take effect every head state is still what the ledgers determine |
| `Ledger.WriteKeepsNumbering` | crates/super-mem-core/src/engine.rs:3430-3478 | revisions of a memory stay numbered 1..head_revision without gaps |
| `Ledger.WriteKeepsOrder` | crates/super-mem-core/src/engine.rs:3464-3467 | recorded sequence never decreases along the revisions of a memory |
| `Ledger.WriteKeepsIndex` | crates/super-mem-core/src/engine.rs:3624-3671 | alias and full-text rows keep covering exactly the non-retracted heads at their head revision |
| `Ledger.UpsertKeepsInv` | crates/super-mem-core/src/engine.rs:3372-3587 | an accepted upsert keeps the invariant |
| `Ledger.ObserveKeepsInv` | crates/super-mem-core/src/engine.rs:315-377 | observing keeps the invariant |
| `Ledger.RememberKeepsInv` | crates/super-mem-core/src/engine.rs:383-444 | remembering keeps the invariant for every request |
| `Ledger.CheckpointKeepsInv` | crates/super-mem-core/src/engine.rs:645-866 | checkpoints keep the invariant for every request and every identifier draw |
| `Ledger.RetractKeepsInv` | crates/super-mem-core/src/engine.rs:1713-1816 | retracting keeps the invariant; the lifecycle association justifies the state |
| `Ledger.InsertEventKeepsInv` | crates/super-mem-core/src/engine.rs:3346-3369 | appending an event keeps everything recorded so far valid |
| `Extension.ApplyKeeps` | crates/super-mem-core/src/engine.rs:335-1816 | every operation keeps the invariant and only extends the append-only tables |
| `Extension.RunKeeps` | crates/super-mem-core/src/engine.rs:335-1816 | so does every run from every valid store |
| `Extension.ReachableInv` | crates/super-mem-core/src/engine.rs:3589-3622 | in every reachable store a head is retracted, superseded, contested or active exactly as its ledgers say, and the index covers the heads |
| `Extension.RunNeverRewrites` | crates/super-mem-core/src/engine.rs:1400-1486 | over every run that does not remove this profile, none of its projections goes back in revision or changes bytes within one, unless its memory is retracted; other profiles may be removed |
| `Extension.UpsertExtends` | crates/super-mem-core/src/engine.rs:3372-3587 | a write adds revisions and ledger rows after the log position it started from and changes no earlier row |
| `Extension.SeqOfPersists` | crates/super-mem-core/src/engine.rs:3346-3369 | a logged event keeps its sequence number |
| `TimeTravel.TimeTravelRows` | crates/super-mem-core/src/engine.rs:2797-2890 | on any later store the historical query at the boundary selects exactly the revisions the live query selected |
| `TimeTravel.LatestIsHead` | crates/super-mem-core/src/engine.rs:2822-2828 | the last revision before the boundary is the head revision of the boundary |
| `TimeTravel.RetractedThen` | crates/super-mem-core/src/engine.rs:2829-2835 | a lifecycle event before the boundary exists exactly when the memory was retracted then |
| `TimeTravel.SupersededThen` | crates/super-mem-core/src/engine.rs:2836-2842 | a supersedes row before the boundary exists exactly when the memory was superseded then |
| `TimeTravel.TimeTravelResults` | crates/super-mem-core/src/engine.rs:2797-2897 | on any later store the historical lookup answers what the heads of the boundary say when ordered by when they were recorded, with no assumption on keys |
| `TimeTravel.ResultsAgreeIff` | crates/super-mem-core/src/engine.rs:2843-2897 | historical and live results agree for a set of keys exactly when no key has two live failing heads with different results of which one was touched last by a contest, or shares its event, and the other was recorded last |
| `TimeTravel.UniqueIsNotReordered` | crates/super-mem-core/src/engine.rs:2843-2897 | unique live keys are never reordered |
| `TimeTravel.UncontestedIsNotReordered` | crates/super-mem-core/src/engine.rs:2843-2897 | nor are keys without a contested failing head, unless two of their failures were recorded by one event |
| `SharedKeyExample.IdenticalRetryConflicts` | crates/super-mem-core/src/engine.rs:451-678 | in a reachable store with an automatic key shared by two live failures and a contest, the identical retry of an accepted session checkpoint is refused although nothing was interleaved |
| `CanonicalKeys.CanonicalKeysUnique` | crates/super-mem-core/src/engine.rs:3418-3425 | in every run that names no memory each scope, kind and key has at most one live head |
| `CanonicalKeys.WriteKeepsUniqueIff` | crates/super-mem-core/src/engine.rs:3383-3434 | a write keeps keys unique exactly when it leaves no live rival |
| `CanonicalKeys.RememberKeepsUniqueIff` | crates/super-mem-core/src/engine.rs:383-444 | a new remember keeps keys unique exactly when no live rival holds its key |
| `CanonicalKeys.CheckpointKeepsUnique` | crates/super-mem-core/src/engine.rs:645-866 | checkpoints always keep keys unique |
| `SessionSlice.SliceExact` | crates/super-mem-core/src/engine.rs:506-560 | the slice is, in log order, exactly the events of the session among its newest 128 that are no checkpoint and have no later checkpoint or user prompt of the session; nothing else stops the reading |
| `SessionEvents.ReadingIs` | crates/super-mem-core/src/engine.rs:2716-2784 | which events are worth an attempt, and for what reason: verifications, failed executions other than a search or quiet diff that found nothing to report, salient results, and successes of a command |
| `SessionEvents.AttemptDescribes` | crates/super-mem-core/src/engine.rs:3043-3118 | the attempt of an event tells its tool and command, its shortened content, whether it failed, its fingerprint, its reason, and the identity it is grouped by |
| `SessionEvents.GatheredRuns` | crates/super-mem-core/src/engine.rs:562-624 | the attempts of a slice are those of its worthy events, all of them, in order |
| `SessionEvents.GatheredEvidence` | crates/super-mem-core/src/engine.rs:562-577 | every event of the slice is cited exactly once, under the relation of its kind, behind the evidence given |
| `SessionEvents.GatheredNotes` | crates/super-mem-core/src/engine.rs:613-618 | the notes are those of the verifying runs, each once |
| `SessionEvents.GatheredGoal` | crates/super-mem-core/src/engine.rs:579-585 | a generic goal gives way to the shortened prompt at the head of the slice; any other goal stays |
| `SessionEvents.EnrichmentTells` | crates/super-mem-core/src/engine.rs:458-641 | the enriched request is the given one with exactly these additions for exactly the events that are read |
| `SessionRetry.RebuiltRequest` | crates/super-mem-core/src/engine.rs:471-635 | on every store that still recalls the boundary, and from any session, a retry rebuilds the request that the boundary store alone determines |
| `SessionRetry.RetryOutcome` | crates/super-mem-core/src/engine.rs:451-678 | whatever is committed before a retry reads the session and between its read and its write, the two stores of the first execution decide whether it returns the first receipt or is refused: with a conflict, or for its size if the rebuilt request outgrew the collection limits |
| `SessionRetry.RetryExact` | crates/super-mem-core/src/engine.rs:451-678 | for a checkpoint read on one store and committed on a later one: undisturbed in between, a retry returns the receipt; if the newest event of the session in between is no checkpoint and not cited by the request, it is refused; with redaction that keeps texts apart and no event in between cited, it returns the receipt exactly when undisturbed |
| `SessionRetry.StableIsUndisturbed` | crates/super-mem-core/src/engine.rs:558-634 | with redaction that keeps texts apart and no event in between cited, equal fingerprints mean an undisturbed interval: no event of the session and the same earlier failures, or a checkpoint last and nothing added to the request |
| `SessionRetry.RetryConverges` | crates/super-mem-core/src/engine.rs:451-641 | with nothing between the first read and write, a retry after any run, with any run between its own read and write, returns the first receipt when no key attempted in the session is reordered, and with redaction that keeps texts apart exactly then |
| `CheckpointAcceptance.WritesAreAccepted` | crates/super-mem-core/src/engine.rs:679-850 | with fresh identifiers the writes succeed exactly when the event is new, the evidence valid and the episode within the collection limits; no other member is ever refused |
| `CheckpointAcceptance.CheckpointIsAccepted` | crates/super-mem-core/src/engine.rs:645-866 | byte limits of texts aside, a checkpoint under an unused key is accepted exactly when it is within its own collection limits, has no more tags than a memory may have, its event is new and its evidence valid |
| `Refusals.RetryPointIs` | crates/super-mem-core/src/engine.rs:471-505 | the place and session a retry starts from are those of the event its receipt names, refused when that event is missing, of another scope or without a session |
| `CheckpointLimits.FilledFits` | crates/super-mem-core/src/engine.rs:562-641 | a request with room for its slice stays within the collection limits after enrichment |
| `CheckpointLimits.RoomyRetry` | crates/super-mem-core/src/engine.rs:645-652 | with such room a retry that is not answered from its receipt is a conflict |
| `MemberHeads.UpsertAllTells` | crates/super-mem-core/src/engine.rs:745-850 | after a batch the last request under a kind and key is what the live head of that key holds, and every memory that is not written stays as it was |
| `FailedAttempts.FailureIsFound` | crates/super-mem-core/src/engine.rs:771-812 | after an accepted checkpoint the lookup of a key returns the result of the last attempt under it, when that one failed |
| `FailedAttempts.SuccessIsNotFound` | crates/super-mem-core/src/engine.rs:2859-2895 | when the last attempt under a key succeeded, it is the live outcome of the key and the lookup finds no memory the checkpoint wrote |
| `FailedAttempts.RecoveryIsRemembered` | crates/super-mem-core/src/engine.rs:2859-2895 | with unique live keys it then finds nothing at all |
| `FailedAttempts.CheckpointChangesOnly` | crates/super-mem-core/src/engine.rs:645-866 | a checkpoint changes no head or revision of a memory it does not return |
| `FailedAttempts.FailureIsFollowedUp` | crates/super-mem-core/src/engine.rs:451-866 | a failure recorded by one checkpoint is told first in the attempt of the next session checkpoint whose last run of the same words succeeded |
| `RetryInRuns.RetryConvergesInRuns` | crates/super-mem-core/src/engine.rs:451-641 | retry convergence for every history that names no memory, with any operations afterwards and between the two transactions of the retry |
| `InterleavedRetryExample.InterleavedRetryConflicts` | crates/super-mem-core/src/engine.rs:635-664 | one event committed between the read and the write makes the identical retry conflict |
| `InterleavedRetryExample.HiddenEventConverges` | crates/super-mem-core/src/engine.rs:548-560 | if a checkpoint of the session follows that event, the identical retry returns the receipt |
| `Domain.DurableScopeIsEventScope` | crates/super-mem-core/src/engine.rs:3293-3299 | scope key plus workspace identify what the four scope columns of the event query identify |
| `SessionReading.AmbientEvents` | crates/super-mem-core/src/engine.rs:548-560 | the row loop with its two ways to stop and the reversal return exactly the events that are read, in log order |
| `SessionReading.GatherAttempts` | crates/super-mem-core/src/engine.rs:562-624 | the event loop extends goal, evidence, verification notes and attempts as `Gather` says |
| `SessionReading.LoadFailedCheckpointAttempts` | crates/super-mem-core/src/engine.rs:2785-2898 | keeps the result of the first row of every key, live or historical |
| `SessionReading.Enrich` | crates/super-mem-core/src/engine.rs:548-641 | the loops together build the enriched request |
| `Idempotence.ObserveRepeats` | crates/super-mem-core/src/engine.rs:341-355 | after any run a keyed observation answers with its first receipt if the redacted content is the same and conflicts otherwise; the store is unchanged |
| `Idempotence.SameObserveSameFingerprint` | crates/super-mem-core/src/engine.rs:326-330 | session and worktree details do not change what is fingerprinted |
| `Idempotence.RememberRepeats` | crates/super-mem-core/src/engine.rs:383-407 | the same for remembered memories; only a repetition over the collection limits is refused before its key is looked up |
| `Idempotence.RetractRepeats` | crates/super-mem-core/src/engine.rs:1737-1757 | the same for retractions, whatever happened to the memory since |
| `Idempotence.ReceiptStays` | crates/super-mem-core/src/engine.rs:3897-3922 | a committed receipt is found by its key in every later store, and only for its own fingerprint |
| `Fingerprints.ObservedAgain` | crates/super-mem-core/src/engine.rs:326-355 | a repetition is the same exactly when event identifier, kind, durable scope, redacted content and redacted attributes agree; otherwise it is a conflict |
| `Fingerprints.RememberedAgain` | crates/super-mem-core/src/engine.rs:383-407 | the same for memories: every field up to redaction and trimming, tags and entities up to order and repetition |
| `Fingerprints.CheckpointedAgain` | crates/super-mem-core/src/engine.rs:645-678 | the same for checkpoints, after any run |
| `Refusals.EvidenceIsFit` | crates/super-mem-core/src/engine.rs:3786-3835 | evidence is accepted exactly when every source has a relation of 1 to 64 bytes, names a logged event of the scope, and cuts its content between characters; the first bad source decides the error |
| `Refusals.LinksAreFit` | crates/super-mem-core/src/engine.rs:3837-3867 | links are accepted exactly when every target exists in the scope under a fit relation; the first bad link decides the error |
| `Refusals.RememberIsAccepted` | crates/super-mem-core/src/engine.rs:383-444 | under an unused key a memory is accepted exactly when it is within the collection limits, its event is new, its evidence and links are fit, the memory it is about is known, and no link repeats or leads back to it |
| `Refusals.CheckpointIsAcceptedWhen` | crates/super-mem-core/src/engine.rs:645-866 | under an unused key and with fresh identifiers a checkpoint is accepted exactly when its lists are within 128 items, 64 tags and 256 citations, its event is new, and its evidence is fit |
| `Refusals.ObserveIsAccepted` | crates/super-mem-core/src/engine.rs:335-377 | under an unused key an observation is accepted exactly when its event is new |
| `Refusals.RetractIsAccepted` | crates/super-mem-core/src/engine.rs:1713-1800 | under an unused key a retraction is refused for a missing memory, a retracted one or a used event, in this order, and accepted otherwise |
| `StoredRequests.ObservedIsLogged` | crates/super-mem-core/src/engine.rs:315-377 | an accepted observation appends exactly one event, redacted, with its place in the receipt, and changes no other table |
| `StoredRequests.RememberedText` | crates/super-mem-core/src/engine.rs:383-444 | an accepted memory logs its redacted body and reads back with the redacted title, body, key and attributes of the request, its kind, scope and ranking, in the next place of its history, contested only by its own contests |
| `StoredRequests.RememberedIdentity` | crates/super-mem-core/src/engine.rs:3383-3428 | it is written to the memory named, else to the newest live memory of its scope and kind that holds its key, else to a new one |
| `StoredRequests.RememberedLinks` | crates/super-mem-core/src/engine.rs:3546-3622 | supersedes and contests links, whatever their case and margins, change other live memories as they say, and every link is logged once with its weight capped at a thousand |
| `StoredRequests.RememberedAttachments` | crates/super-mem-core/src/engine.rs:3480-3544 | tags, entities, artifacts and evidence read back row by row as the request gave them, redacted, the first of each key |
| `StoredRequests.RetractionIsLogged` | crates/super-mem-core/src/engine.rs:1713-1800 | a retraction logs the redacted reason in the scope of the current revision |
| `AttachmentContents.StoredIsTold` | crates/super-mem-core/src/engine.rs:2403-2437 | what the attachment tables hold of a prepared request, in terms of the request: spelling, case, portable paths, absent columns, first citations |
| `Redaction.RunKeepsRedacted` | crates/super-mem-core/src/engine.rs:2368-2437 | over every run each logged content, title, body, key, tag, entity and artifact text and all attributes are what the redactor made of something |
| `Redaction.NothingLeftToRedact` | crates/super-mem-core/src/engine.rs:2368-2437 | so with a redactor that is done after one pass no reachable store holds anything left to redact |
| `ReadBack.RememberedIsRead` | crates/super-mem-core/src/engine.rs:383-444 | a remembered memory reads back as its prepared request, attachments in their stored form, contested only by its own contests; the content of all other memories stays (`StoredRequests.RememberedText` and its companions say what this is in terms of the request) |
| `ReadBack.PreparedTagsAreRead` | crates/super-mem-core/src/engine.rs:3341-3344 | the tags of a prepared request read back verbatim: preparing already sorts them and drops repetitions as their table does |
| `ReadBack.OthersAreRead` | crates/super-mem-core/src/engine.rs:3589-3622 | a write moves nothing of another memory but, through a link, its lifecycle state |
| `ReadBack.RetractedIsRead` | crates/super-mem-core/src/engine.rs:1758-1800 | a retracted memory keeps content and history, leaves every derived table and is on record with the redacted reason in its own scope; other memories are untouched |
| `ReadBack.CheckpointRecordsEverything` | crates/super-mem-core/src/engine.rs:643-850 | an accepted checkpoint records its episode and every decision, attempt and task in order, with text, stored attachments, origin and link to the episode (`CheckpointContents.CheckpointText` says what these are in terms of the request) |
| `ReadBack.UpsertAllRecords` | crates/super-mem-core/src/engine.rs:745-850 | no member of a checkpoint overwrites the revision of an earlier one, even under a shared key |
| `CheckpointContents.CheckpointText` | crates/super-mem-core/src/engine.rs:643-850 | an accepted checkpoint logs its redacted summary and holds, under the identifiers of its receipt and in request order, one revision per member with its redacted texts, key, ranking, flags and link to the episode |
| `CheckpointContents.EverythingIsMentioned` | crates/super-mem-core/src/engine.rs:679-850 | with redaction off every goal, summary, verification, decision, rationale, action, result and task is mentioned by the memory that stands for it |
| `CheckpointContents.EverythingIsCited` | crates/super-mem-core/src/engine.rs:679-850 | and every one of these memories carries the artifacts and evidence of the checkpoint, the episode also its tags |
| `AttemptCoalescing.GroupAttempts` | crates/super-mem-core/src/engine.rs:2910-2944 | the loop over attempts ends with one declarative summary per key |
| `AttemptCoalescing.SortGroups` | crates/super-mem-core/src/engine.rs:2945-2951 | the groups are sorted and none is lost or added |
| `AttemptCoalescing.SortedUnique` | crates/super-mem-core/src/engine.rs:2946-2951 | the order is total: a sorted list is determined by its elements |
| `AttemptCoalescing.CoalesceCheckpointAttempts` | crates/super-mem-core/src/engine.rs:2906-2987 | grouping, sorting and the counting filter compute `Coalesced` |
| `AttemptCoalescing.CoalescingMeetsSpec` | crates/super-mem-core/src/engine.rs:2945-2987 | output keys are distinct, every key that ever failed survives, a quiet key survives exactly among the four most recent of its reason |
| `AttemptCoalescing.SummaryCarries` | crates/super-mem-core/src/engine.rs:2910-2944 | each group carries the last attempt of its key and the prior or earliest failure |
| `AttemptCoalescing.CoalescedMeetsSpec` | crates/super-mem-core/src/engine.rs:2906-2987 | each returned attempt has a key of its own, the last attempt of that key, and a text reporting its prior or earliest failure and its runs; every key that ever failed is returned |
| `AttemptCoalescing.CoalescedTellsPriors` | crates/super-mem-core/src/engine.rs:2906-3032 | different earlier failures never coalesce to the same list |
| `AttemptCoalescing.CoalescedIsShort` | crates/super-mem-core/src/engine.rs:2906-2987 | coalescing never returns more attempts than it was given |
| `AttemptCoalescing.KeptIsWorthKeeping` | crates/super-mem-core/src/engine.rs:2952-2970 | a group passes the stateful filter exactly when it is worth keeping |
| `AttemptKeys.WordsAreRuns` | crates/super-mem-core/src/engine.rs:3034-3041 | the words of an identity are its maximal runs of non-blank characters, in order, none left out |
| `AttemptKeys.KeysTellWords` | crates/super-mem-core/src/engine.rs:3034-3041 | two identities share a key exactly when they consist of the same words |
| `AttemptReports.CoalescedReports` | crates/super-mem-core/src/engine.rs:2906-3032 | in terms of words alone: attempts with the same words are returned at most once, as their last run, with their first failure, most urgent first; they are returned exactly when they ever failed or are among the four most recent quiet ones of their reason |
| `AttemptReports.LoneFailureIsReturned` | crates/super-mem-core/src/engine.rs:2906-2987 | a failure whose words no other attempt has is returned as it was |
| `ResultBodies.ResultIsReadBack` | crates/super-mem-core/src/engine.rs:2900-2904 | a result is recovered from a recorded body exactly as it was written, even when it contains the marks itself |
| `Text.TruncateIsKeptPrefix` | crates/super-mem-core/src/engine.rs:5619-5648 | the byte-measuring and the character-counting branch are one function |
| `Text.KeptMonotone` | crates/super-mem-core/src/engine.rs:5619-5648 | a longer budget never keeps less, despite the sentence rule |
| `Text.TruncateIgnoresTail` | crates/super-mem-core/src/engine.rs:5619-5648 | text beyond the limit never changes a truncation, not even its only non-ASCII characters |
| `Truncation.TruncationMeans` | crates/super-mem-core/src/engine.rs:5619-5648 | a text of at most three characters per token stays; a longer one is cut behind the last sentence of the part that has room, unless that loses more than half of its bytes, and ends with an ellipsis |
| `Text.EscapeFastPath` | crates/super-mem-core/src/engine.rs:5695-5709 | skipping the escape when nothing needs it gives the escaped text |
| `Text.RenderBodySnoc` | crates/super-mem-core/src/engine.rs:5673-5689 | a body renders glyph by glyph; only the second half of a CR LF pair adds nothing |
| `Markup.EscapedReadsBack` | crates/super-mem-core/src/engine.rs:5695-5709 | escaped text opens no markup, every ampersand starts an entity, and unescaping gives the text back |
| `Markup.TitleReadsBack` | crates/super-mem-core/src/engine.rs:5673-5689 | a rendered title is one line without markup and reads back up to line breaks |
| `Markup.BodyReadsBack` | crates/super-mem-core/src/engine.rs:5673-5689 | a rendered body is nested below its item without markup and reads back up to line endings |
| `ContextCompiler.FitsMonotone` | crates/super-mem-core/src/engine.rs:5508-5534 | if a cut fits, every shorter cut fits, carriage returns or not |
| `ContextCompiler.SelectCut` | crates/super-mem-core/src/engine.rs:5508-5534 | the binary search returns the largest fitting cut and fails only when none fits |
| `ContextCompiler.BeyondItemBudget` | crates/super-mem-core/src/engine.rs:5508-5534 | token counts above the item budget give no other body, so the search bound loses nothing |
| `ContextCompiler.SkippedOnlyWhenNothingFits` | crates/super-mem-core/src/engine.rs:5494-5534 | a hit is dropped exactly when its fixed cost or its shortest cut does not fit |
| `ContextCompiler.SpendBalances` | crates/super-mem-core/src/engine.rs:5456-5566 | the running token count pays for every accepted section, warning and item |
| `ContextCompiler.TokenBudget` | crates/super-mem-core/src/engine.rs:5445-5597 | the context pack never exceeds its budget, accepted hits are a subsequence, sections group exactly their bodies |
| `ContextCompiler.BoundedHydrationRefines` | crates/super-mem-core/src/engine.rs:1066-1107 | compiling from bodies cut to three characters per token plus one gives the same pack, for every hit list |
| `ContextCompiler.CompileContext` | crates/super-mem-core/src/engine.rs:5445-5597 | the imperative loop computes `Compile` and stays inside the budget |
| `PackContents.PackShowsHits` | crates/super-mem-core/src/engine.rs:5456-5597 | the sections present exactly the accepted hits, each in the section of its kind and in the order given, with its bodies cut as the budget allows |
| `PackContents.PackFits` | crates/super-mem-core/src/engine.rs:5445-5618 | the reported tokens are one for every three characters of the rendered text next to at most 37 for the envelope, and stay within the budget |
| `PackContents.PackWarns` | crates/super-mem-core/src/engine.rs:5467-5492 | a pack warns of exactly the accepted hits that are stale, divergent or contested, naming each memory |
| `PackContents.PackReadsBack` | crates/super-mem-core/src/engine.rs:5650-5709 | the rendered context contains no markup of stored text and reads back as its sections, titles, bodies and warnings |
| `Recall.LoadRevisionsBounded` | crates/super-mem-core/src/engine.rs:4136-4313 | the batch is refused exactly when ambiguous or naming a missing revision, and otherwise loads each named revision |
| `Recall.StagedIsPreview` | crates/super-mem-core/src/engine.rs:4465-4552 | a candidate is staged with its head scalars, title and the first 1024 characters of its body, and without attributes and attachments |
| `Recall.SnapshotConsistent` | crates/super-mem-core/src/engine.rs:922-1100 | whatever is written between the two recall transactions, hydration returns what staging saw |
| `Recall.RecallIsConsistent` | crates/super-mem-core/src/engine.rs:884-1107 | the context pack compiled from bounded, later hydration equals the one of full memories at staging |
| `ApplicabilityRules.FramedSplits` | crates/super-mem-core/src/applicability.rs:122-126 | length framing is uniquely decodable |
| `ApplicabilityRules.IdentityDigestInjective` | crates/super-mem-core/src/applicability.rs:83-101 | digest material separates repository, path and symbol |
| `ApplicabilityRules.CompareArtifactRefs` | crates/super-mem-core/src/applicability.rs:134-170 | the counting loop with early return computes the declarative comparison |
| `ApplicabilityRules.CompareArtifactFingerprints` | crates/super-mem-core/src/applicability.rs:172-205 | likewise for fingerprints |
| `ApplicabilityRules.ComparisonsAgree` | crates/super-mem-core/src/applicability.rs:134-205 | when every current identity that has a hashed entry is hashed at its first one both comparisons agree |
| `ApplicabilityRules.UnhashedFirstDisagrees` | crates/super-mem-core/src/applicability.rs:104-145 | otherwise some recorded artifact tells them apart |
| `ApplicabilityRules.FingerprintClassificationExact` | crates/super-mem-core/src/applicability.rs:222-351 | fingerprint classification equals full classification for all inputs exactly for those current lists |
| `ApplicabilityRules.DistinctIsHashedFirst` | crates/super-mem-core/src/applicability.rs:104-120 | pairwise distinct identities are such lists |
| `ApplicabilityRules.FullyVerifiedAgrees` | crates/super-mem-core/src/applicability.rs:50-59 | the comparison verifies exactly what the signal does, unless a recorded artifact is preceded among the current ones by another content of its identity; then only the signal claims verification |
| `ApplicabilityRules.IncompleteIsSound` | crates/super-mem-core/src/applicability.rs:172-351 | an incomplete set is never exact, and a mismatch it proves is one of the full set |
| `Verdicts.VerdictsMean` | crates/super-mem-core/src/applicability.rs:258-351 | what each verdict means: inapplicable exactly outside the recorded scope, stale exactly for a contradicted hash or an unconfirmed moved worktree, exact exactly for confirmed hashes or the same revision, compatible exactly for an ancestor, divergent exactly for a descendant, a divergence or another branch |
| `ArtifactStaging.StageArtifacts` | crates/super-mem-core/src/engine.rs:4553-4597 | the staging loop refuses contradictory rows and, while there is room, digests that are not 32 bytes; otherwise it keeps the first fingerprints and reports complete exactly when nothing verifiable was lost |
| `ArtifactStaging.AdvanceKeepsExact` | crates/super-mem-core/src/engine.rs:4560-4592 | one row advances an exactly staged set to an exactly staged set |
| `ArtifactStaging.RefusalsTold` | crates/super-mem-core/src/engine.rs:4553-4592 | which rows are refused, by their columns: an unrequested memory, a projection that does not fit whether the artifact is hashed, or one of the first 128 pairs of digests of another size |
| `ArtifactStaging.CompletenessTold` | crates/super-mem-core/src/engine.rs:4565-4585 | a staged set is complete exactly when every hashed artifact of its memory has its digests and there are at most 128 of them |
| `ArtifactStaging.TruncatedStagingIsSound` | crates/super-mem-core/src/engine.rs:4553-4595 | a truncated set never claims freshness and its mismatches hold for the whole list |
| `DenseShortlist.Shortlist` | crates/super-mem-core/src/engine.rs:5190-5209 | the bounded heap ends with the smallest distance and identifier pairs of the usable rows |
| `DenseShortlist.SmallestUnique` | crates/super-mem-core/src/engine.rs:5203-5208 | that choice is unique |
| `DenseShortlist.OrderIndependent` | crates/super-mem-core/src/engine.rs:5190-5209 | so the row order does not matter |
| `SearchIndex.RebuildAllFts` | crates/super-mem-core/src/engine.rs:5898-5928 | a full rebuild covers exactly the non-retracted heads from any derived tables and changes nothing in a covered store |
| `SearchIndex.RepairIncompleteFts` | crates/super-mem-core/src/engine.rs:5940-5966 | batched repair terminates from any alias table and leaves no head uncovered |
| `SearchIndex.RegisterSearchProjections` | crates/super-mem-core/src/engine.rs:1284-1496 | the compare-and-swap loop computes `RegisterSpec`; the first refusal decides the batch |
| `SearchIndex.PrepareProjections` | crates/super-mem-core/src/engine.rs:1301-1383 | refuses exactly the batches with a malformed or repeated input |
| `SearchIndex.RegisterAllKeeps` | crates/super-mem-core/src/engine.rs:1400-1496 | a batch keeps the invariant, touches only projections and rewrites no revision |
| `ProjectionRules.BatchIsRegistered` | crates/super-mem-core/src/engine.rs:1284-1496 | a batch is registered exactly when it fits the observed profile and every input was made for the current text of a live memory of the scope and rewrites no stored projection of that text; then exactly these projections are stored and the counts add up |
| `SearchIndex.StatusAddsUp` | crates/super-mem-core/src/engine.rs:1498-1546 | eligible is indexed plus pending, and the stored projections split into indexed and stale |
| `LegacyBackfill.BackfillIsSound` | crates/super-mem-core/src/engine.rs:5781-5795 | every backfilled metadata row marked complete has its original values; a row is complete exactly for an untouched head revision |
| `LegacyBackfill.BackfillKeepsRows` | crates/super-mem-core/src/engine.rs:5781-5795 | existing metadata rows are never overwritten |
| `LinkLedger.RunKeepsLinks` | crates/super-mem-core/src/engine.rs:3554-3565 | over runs from every store where it holds, the latest-link table is the newest part of the ledger, and revisions of one memory recorded by one event carry the same links |
| `Provenance.RunKeepsProvenance` | crates/super-mem-core/src/engine.rs:3786-3867 | over runs every revision cites only events of its own scope logged by the time it was recorded, links join only memories of one scope, and attachment keys are unique |
| `Provenance.ScopesAreIsolated` | crates/super-mem-core/src/engine.rs:3372-3428 | runs of operations in other scopes leave every head of a scope as it was and add none |
| `LegacyBackfill.LinkBackfillIsExact` | crates/super-mem-core/src/engine.rs:5797-5808 | the backfilled link ledger holds exactly the original rows that no later event replaced for their pair and relation |
| `LegacyBackfill.BackfilledLedgerExplainsHeads` | crates/super-mem-core/src/engine.rs:5797-5808 | with the backfilled link ledger every head state is still what the ledgers determine |
| `LegacyRestore.RestoredInv` | crates/super-mem-core/src/engine.rs:5778-5811 | a store restored from a first-version snapshot satisfies the invariant of every other store, so every theorem about runs holds after it |
| `LegacyRestore.HistoryIsFixed` | crates/super-mem-core/src/engine.rs:2797-2858 | a query about a boundary has the same answer on every later store |
| `LegacyRestore.RestoredTimeTravel` | crates/super-mem-core/src/engine.rs:2797-2858 | after such a restore the historical query at an earlier boundary selects what was live then, in every scope and under every key, exactly when no failing attempt that was live changed its key since and each superseded one is still dated so or has no key |
| `RestoredRetry.RestoredRetryOutcome` | crates/super-mem-core/src/engine.rs:451-678 | then retries on the restored store are answered as on the exported one |
| `Tables.CellsRoundTrip` | crates/super-mem-core/src/engine.rs:5840-5895 | every exportable cell row comes back as it was |
| `Tables.InsertRowsIff` | crates/super-mem-core/src/engine.rs:2123-2127 | checking keys, references and clauses row by row accepts exactly what checking the filled table at the end would |
| `Tables.InsertTable` | crates/super-mem-core/src/engine.rs:2124-2126 | the row loop stops at the first row that is not scalar or violates a constraint |
| `Snapshot.AcceptedDocuments` | crates/super-mem-core/src/engine.rs:1988-2107 | import accepts exactly header-rows-footer documents with matching counts and digest that the store can restore |
| `Snapshot.ImportsDocument` | crates/super-mem-core/src/engine.rs:1988-2143 | such a document restores exactly its rows, blank lines or not |
| `Snapshot.ReadDocument` | crates/super-mem-core/src/engine.rs:1989-2107 | the line loop with its flags and counters accepts exactly the complete documents |
| `Snapshot.InsertTables` | crates/super-mem-core/src/engine.rs:2123-2127 | the loops over tables and rows compute `InsertAll`; the first refused row decides the error |
| `Snapshot.RestoreIff` | crates/super-mem-core/src/engine.rs:2111-2130 | an empty store is filled exactly when the rows are scalar and the filled tables satisfy the schema, although every row is checked when it is inserted |
| `Snapshot.SnapshotStore.ExportJsonlTo` | crates/super-mem-core/src/engine.rs:1954-1984 | the streaming export writes the document of the store with its counts and digest |
| `Snapshot.SnapshotStore.ImportJsonl` | crates/super-mem-core/src/engine.rs:1988-2143 | restores the document or leaves the store exactly as it was |
| `Snapshot.RoundTrip` | crates/super-mem-core/src/engine.rs:1954-2143 | importing an export into an empty store restores every table and re-exports the identical document, exactly when the rows pass the import checks and the tables satisfy the schema |
| `CanonicalTables.KeysAndReferencesHold` | crates/super-mem-core/src/schema.rs:1766-2090 | the tables of every store that satisfies the invariants satisfy all modelled keys and references |
| `CanonicalTables.ReachableKeysHold` | crates/super-mem-core/src/schema.rs:1766-2090 | in particular those of every reachable store |
| `CanonicalTables.CanonicalOrder` | crates/super-mem-core/src/engine.rs:80-247 | snapshot tables are listed after the tables they refer to |
| `CanonicalTables.ExportIsAccepted` | crates/super-mem-core/src/engine.rs:1954-2143 | an export of such a store can be restored row by row exactly when its rows are clean and the rest of the schema holds |

## Left out

- SQLite: query plans, bm25 scores, locking and file permissions; a query is a comprehension over tables, a transaction an atomic step.
- Ranking, vector arithmetic, feedback utility, floating-point scores and validity windows: no property here depends on them.
- Git subprocesses, worktree capture and regex matching: their answers are parameters.
- CLI, diagnostics, purge, hooks, MCP server, adapters and scripts: they would only add easy members.
- Timestamps, `retired_at_ms`, redaction counts, trust of events, durability and document rowids; the index is keyed by memory identifier.
- Byte limits of texts and attributes, path normalisation and repository normalisation of requests, and the check of options and scopes for secrets.
- Link identifiers: links are told apart by source, target and relation. Entities and artifacts are not shared between memories as rows; a revision holds what its rows say.
- Rows that a query leaves in no particular order, such as entities that differ only in their display text, are read in one fixed order.
- Machine width: sequence numbers, revision counters, weights, token counts and orders are unbounded, so saturation and overflow are not modelled.
- Text case folding, trimming and word splitting use ASCII whitespace and letters; UUID text is replaced by decimal numbers.
- JSON attributes are the fields the engine reads, plus one opaque field; attribute and goal text that no property reads is joined rather than encoded.
- SearchIndex.PrepareProjections: the formats of content hashes, expansions and vectors are not checked, because those values are represented by what they encode.
- Transactions.CheckLinkTargets: the rejection of secret-shaped relations happens while a request is prepared and is not modelled, and neither is the length check made there before relations are trimmed; the checks inside the transaction, on trimmed relations, are.
- FailedAttempts.FailureIsFound: stated for redactors that rewrite the texts of attributes and keep their flags, as when redaction is switched off; other redactors may hide the flag the lookup reads.
- Digest framing works on one octet sequence per character string; the widths of blake3 digests are not modelled.
- Full-text row contents and expansion text normalisation; the index records which revision is covered.
- Search profiles carry their model digest and dimensions; the active flag and listing are not modelled, and a registration receives the profile observed before its transaction as an argument.
- Candidate channels, pool pruning and diversification between staging and hydration; recall is proved for every selection of staged candidates.
- Snapshot restore works on generic tables and does not appear as a step of a run; the theorems about runs hold from every store that satisfies the invariant, restored ones included.
- Column lists, NOT NULL and CHECK clauses, the relation and secret checks of snapshot rows and the provenance backfill are parameters of `Snapshot.Format`. `CanonicalTables` holds the keys and references between the tables this model has; those of row identifiers, entities, artifacts, feedback and idempotency rows are its parameter `rest`.
- CheckpointAcceptance.CheckpointIsAccepted: a member may also be refused because a text built from the request exceeds a byte limit, which is not modelled.
- SearchIndex.RebuildAllFts: the rebuild of artifact fingerprints and of the expansion index in the same statement sequence is not modelled, because the model has no such rows.
- DenseShortlist.MaxHeap.Peek: the standard library's heap is seen through its elements, because only which entry is the largest matters.
- Snapshot.SnapshotStore.ImportJsonl: the rebuild of the derived tables after a restore is proved in `SearchIndex.RebuildAllFts` and not repeated on the generic tables; receipt counts are not returned, because they only restate table sizes.
