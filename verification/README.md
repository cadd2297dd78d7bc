# OpenDataGov: a verified model of its governance core

This project models, in Dafny, the parts of OpenDataGov whose correctness spans many calls:

- **The governance engine** as one state machine over a shared store of decisions, votes, vetoes, RACI
  assignments and an append-only audit log. `Governance.dfy` gives each API call a meaning, as a function from the
  state to the new state or to the error raised; `Services.dfy` holds the services as classes over one mutable
  database, each method proved to do what its meaning says, and the API that runs a call in a transaction.
  `Effects`, `Approvals`, `Refusals` and `RecordedRows` say, in terms of rows, roles and texts alone, what each call
  does, when it is refused and what it records; `Invariants`, `Histories`, `Stalls`, `Accounting`, `Replay` and
  `RunAudit` prove what all runs keep.
- **The hash-chained audit trail** (`AuditChain`, `AuditTrail`) and the separate chain of the Kafka consumer
  (`KafkaAudit`).
- **Data-contract evolution** (`Contracts`, `ContractMeaning`): comparison, governance action, validation.
- **Quality scores, service-level thresholds and the promotion gate** (`Quality`, `Promotion`), over reals.
- **The gateway's round-robin selection** with 64-bit wrap-around (`RoundRobin`), under any interleaving.

`Enums`, `Outcome`, `Rearrangements` and `Sums` are shared vocabulary and list and dictionary facts.
`dafny verify dfyconfig.toml` checks everything.

## How to read the model

- A *run* is any finite list of requests against an empty database; a request that raises leaves the database as it
  was, because every request runs in one transaction
  (`services/governance-engine/src/governance_engine/api/deps.py:25-28`). Requests are atomic.
- Ids, clock readings and the order the database picks among equal times are inputs. An id that is already a primary
  key makes the insertion fail. Texts outside the lengths the model classes allow make the call fail where the class
  is constructed, which for an audit event is after other rows were written; that is what the transaction undoes.
- The hash is a parameter. Its soundness (no collision, never the genesis value) is assumed only of the contents that
  occur in the chains a theorem speaks about, because no 64-digit hash is collision-free on all contents.
- Audit rows are kept in the order of insertion; reading them back sorts by time, and any order among equal times is
  allowed.

## What the code does where its documentation says otherwise

- The read-back of the audit trail verifies after every run only if the recorded times strictly increase:
  `RunAudit.RunVerifiesIffTimeIncreases` is the exact condition, for every clock, and `RunAudit.TimesMayCoincide` a
  run of two requests that misses it.
- A decision can wait for ever although everybody required has approved, once a role is revoked:
  `Stalls.RevocationCanStall` is such a run, `Stalls.RevocationStallsIff` says exactly when a revocation does it,
  `Stalls.OnlyRoleChangesStall` what else can, and `Histories.NoStalledApprovals` proves it does not happen in runs
  without revocation in the domain.
- `breaking.py` lists a changed column description as a reported change; the code does not report it, and relaxing a
  column to nullable is reported as no change at all. Making a column non-nullable is breaking, though not listed.
- `decision_service.py` names ESCALATED as an outcome; no call reaches it. An overridden veto leaves its decision
  vetoed, and a veto's expiry is stored but read by no call.
- `docs/ARCHITECTURE.md:399-401` has a failed service level block promotion. The promotion gate looks at the mean
  alone, so it lets some such datasets through: exactly those whose shortfall below the thresholds is positive and no
  greater than their surplus above them (`Promotion.FailedSlaNotRefusedIff`). What acceptance does guarantee of each
  dimension is a floor of 0 from bronze, 0.1 from silver and 0.7 from gold, and no more
  (`Promotion.AcceptanceGuaranteesIff`, with results that reach it in `Promotion.FloorIsReached`). The other direction
  always holds (`Promotion.PassingSlaIsNotRefused`).
- The integrity check looks at the first 1000 rows only (`audit_service.py:47`, `routes_audit.py:37`);
  `RunAudit.IntegrityCheckMissesIff` says, for every limit, which altered rows it does not notice.
- The round-robin counter drifts by one turn per wrap-around unless the number of backends divides 2^64
  (`RoundRobin.WithinOneForEverIff`).

## Model

| member | source | states |
|---|---|---|
| Services.AuditService.RecordEvent | services/governance-engine/src/governance_engine/domain/audit_service.py:21-45 | appends one sealed event behind the last hash, or raises and writes nothing |
| Services.AuditService.VerifyIntegrity | services/governance-engine/src/governance_engine/domain/audit_service.py:47-50 | true exactly when the first `limit` rows by time, in whichever order the query gives equal times, form a valid chain |
| Services.DecisionService.CreateDecision | services/governance-engine/src/governance_engine/domain/decision_service.py:27-58 | the new state or the error agree with the meaning of the call, and the stored row is returned |
| Services.DecisionService.SubmitForApproval | services/governance-engine/src/governance_engine/domain/decision_service.py:60-78 | likewise: only a pending decision is submitted |
| Services.DecisionService.Finalize | services/governance-engine/src/governance_engine/domain/decision_service.py:80-116 | likewise: only an awaiting decision takes a final status, recorded under the mapped event type |
| Services.ApprovalService.CastVote | services/governance-engine/src/governance_engine/domain/approval_service.py:40-89 | agrees with the meaning of the call; a raise happens before any write, so the nested finalisation never fails |
| Services.ApprovalService.CheckAndFinalize | services/governance-engine/src/governance_engine/domain/approval_service.py:91-106 | approves exactly when the required voters exist and all approved |
| Services.VetoService.ExerciseVeto | services/governance-engine/src/governance_engine/domain/veto_service.py:48-90 | agrees with the meaning of the call; a raise happens before any write |
| Services.VetoService.OverrideVeto | services/governance-engine/src/governance_engine/domain/veto_service.py:92-133 | agrees with the meaning of the call |
| Services.RoleService.AssignRole | services/governance-engine/src/governance_engine/domain/role_service.py:24-53 | agrees with the meaning of the call |
| Services.RoleService.RevokeRole | services/governance-engine/src/governance_engine/domain/role_service.py:55-69 | agrees with the meaning of the call |
| Services.Api.Handle | services/governance-engine/src/governance_engine/api/deps.py:25-28 | one request is one step of the state machine; if it raises, every table is as before |
| Governance.OneOrNone | services/governance-engine/src/governance_engine/repository/postgres.py:101-110 | a single-row lookup raises exactly when two rows match, and otherwise returns the only row or none |
| Effects.LookupsMeetRows | services/governance-engine/src/governance_engine/repository/postgres.py:242-251 | the vote and assignment lookups come back empty exactly when there is no such row |
| Effects.VoteEffect | services/governance-engine/src/governance_engine/domain/approval_service.py:49-106 | a stored vote carries the voter's role in the domain, and its decision is rejected, approved or left waiting as the votes and roles call for |
| Effects.SuccessChanges | services/governance-engine/src/governance_engine/domain/decision_service.py:52-116 | every successful call makes exactly one of seven changes to the tables and only appends to the log |
| Effects.SuccessRecords | services/governance-engine/src/governance_engine/domain/audit_service.py:21-45 | every successful call records exactly one or two events, those its kind calls for, each sealed behind a latest row with its own stamp |
| Invariants.EveryRunKeepsInv | services/governance-engine/src/governance_engine/domain/approval_service.py:60-72 | in every run: one vote per decision and voter, one assignment per user and domain, votes and vetoes fit the status of their decision |
| Invariants.StatusDeterminesVotesAndVetoes | services/governance-engine/src/governance_engine/domain/decision_service.py:87-98 | pending decisions have no votes; exactly the rejected have one REJECT vote; exactly the vetoed have one veto; none is escalated |
| Invariants.LookupsNeverMeetTwoRows | services/governance-engine/src/governance_engine/repository/postgres.py:101-110 | no request after any run fails because a lookup met two rows |
| Invariants.VoteAcceptedIff | services/governance-engine/src/governance_engine/domain/approval_service.py:49-72 | after any run a vote succeeds exactly when the decision awaits approval and the voter has a role in its domain and has not voted on it |
| Invariants.VetoAcceptedIff | services/governance-engine/src/governance_engine/domain/veto_service.py:56-77 | after any run a veto succeeds exactly for a RESPONSIBLE or ACCOUNTABLE against an awaiting decision |
| Invariants.OverrideAcceptedIff | services/governance-engine/src/governance_engine/domain/veto_service.py:99-122 | after any run an override succeeds exactly for an ACCOUNTABLE of the domain against an active veto of a RESPONSIBLE |
| Invariants.AssignAcceptedIff | services/governance-engine/src/governance_engine/domain/role_service.py:33-43 | after any run an assignment succeeds exactly for a user without one in the domain, given valid texts and a new id |
| Invariants.RevokeAcceptedIff | services/governance-engine/src/governance_engine/domain/role_service.py:55-69 | after any run anybody with a name of 1 to 200 characters may revoke any stored assignment, and nothing else is accepted |
| Invariants.CreateAcceptedIff | services/governance-engine/src/governance_engine/domain/decision_service.py:27-58 | after any run a decision is created exactly when title, domain and creator have 1 to 500, 100 and 200 characters and the id is new |
| Invariants.SubmitAcceptedIff | services/governance-engine/src/governance_engine/domain/decision_service.py:60-78 | after any run a submission succeeds exactly for a stored pending decision and an actor of 1 to 200 characters |
| Refusals.CreateRefusedWith | services/governance-engine/src/governance_engine/domain/decision_service.py:27-58 | which of the two errors a refused creation raises |
| Refusals.SubmitRefusedWith | services/governance-engine/src/governance_engine/domain/decision_service.py:62-68 | missing, not pending, actor out of bounds: each error exactly in its case |
| Refusals.VoteRefusedWith | services/governance-engine/src/governance_engine/domain/approval_service.py:49-63 | after any run: missing, not waiting, no role in the domain, already voted: each error exactly in its case |
| Refusals.VetoRefusedWith | services/governance-engine/src/governance_engine/domain/veto_service.py:56-68 | after any run: missing, not waiting, no role, CONSULTED or INFORMED: each error exactly in its case |
| Refusals.OverrideRefusedWith | services/governance-engine/src/governance_engine/domain/veto_service.py:99-122 | after any run: missing, already overridden, no role: each error exactly in its case, and otherwise outranked |
| Refusals.AssignRefusedWith | services/governance-engine/src/governance_engine/domain/role_service.py:33-43 | after any run: already assigned, texts out of bounds, id in use: each error exactly in its case |
| Refusals.RevokeRefusedWith | services/governance-engine/src/governance_engine/domain/role_service.py:55-60 | missing, name out of bounds: each error exactly in its case |
| Approvals.RequiredVotersMustApprove | services/governance-engine/src/governance_engine/domain/approval_service.py:18 | a decision waits for exactly the users who are RESPONSIBLE or ACCOUNTABLE in its domain |
| Approvals.VoteDecides | services/governance-engine/src/governance_engine/domain/approval_service.py:83-106 | an approving vote approves exactly when some user is RESPONSIBLE or ACCOUNTABLE in the domain and all of them have approved; a rejection rejects; otherwise the decision waits |
| Approvals.VoteStores | services/governance-engine/src/governance_engine/domain/approval_service.py:65-72 | the stored vote, field by field, with a role the voter has in the domain |
| Approvals.VetoStores | services/governance-engine/src/governance_engine/domain/veto_service.py:70-80 | the stored veto, field by field, with its expiry an hour or a day after; its decision becomes vetoed |
| Approvals.FinalizeAcceptedIff | services/governance-engine/src/governance_engine/domain/decision_service.py:80-116 | for any state and status: when finalising succeeds, what it writes, which kind of event it records, and which error it raises otherwise |
| Histories.RunsOnlyMoveForward | services/governance-engine/src/governance_engine/domain/decision_service.py:60-116 | between any two points of a run votes stay as they are, decisions and vetoes only move forward, and the log only grows |
| Histories.FinalDecisionsNeverChange | services/governance-engine/src/governance_engine/domain/decision_service.py:87-92 | an approved, rejected or vetoed decision never changes again |
| Histories.ApprovedIffCompleted | services/governance-engine/src/governance_engine/domain/approval_service.py:83-106 | a decision is approved exactly when some past approving vote left everybody required approving; those votes are still stored |
| Histories.StepThatApproved | services/governance-engine/src/governance_engine/domain/approval_service.py:91-106 | every approved decision has such a step |
| Histories.RequiredVotesCarryRequiredRoles | services/governance-engine/src/governance_engine/domain/approval_service.py:18 | without revocation in the domain up to the completing step, the votes of those users that completed an approval were cast as RESPONSIBLE or ACCOUNTABLE |
| Histories.StandingInRun | services/governance-engine/src/governance_engine/domain/role_service.py:33-43 | without revocation in the domain, whoever voted or vetoed still has the role recorded with it |
| Histories.NoStalledApprovals | services/governance-engine/src/governance_engine/domain/approval_service.py:83-106 | without revocation in the domain, no decision of it waits although everybody required approved |
| Histories.OverriddenIffOneAccountableDid | services/governance-engine/src/governance_engine/domain/veto_service.py:99-124 | a veto is overridden exactly when one step overrode it, and only one did; an ACCOUNTABLE's veto stays active |
| Histories.OverrideStepFacts | services/governance-engine/src/governance_engine/domain/veto_service.py:18-23 | the overriding user is the one recorded and was ACCOUNTABLE in the domain at that step; the veto was cast by a RESPONSIBLE |
| Histories.NobodyOverridesTheirOwnVeto | services/governance-engine/src/governance_engine/domain/veto_service.py:109-124 | without revocation in the domain before the override nobody overrides their own veto |
| Stalls.RevocationStallsIff | services/governance-engine/src/governance_engine/domain/role_service.py:55-69 | a revocation leaves a waiting decision fully approved exactly when somebody else is required and all others required have approved |
| Stalls.AssignmentStallsIff | services/governance-engine/src/governance_engine/domain/role_service.py:24-53 | an assignment leaves a waiting decision fully approved exactly when all required before have approved and so has the newcomer, if required |
| Stalls.OnlyRoleChangesStall | services/governance-engine/src/governance_engine/domain/approval_service.py:91-106 | nothing but a revocation in the domain or the assignment of an earlier approver can stall a decision |
| Stalls.RevocationCanStall | services/governance-engine/src/governance_engine/domain/role_service.py:55-69 | a concrete run of six requests that ends with a stalled decision |
| Accounting.EveryRunBalances | services/governance-engine/src/governance_engine/domain/decision_service.py:103-115 | per kind of event, the log holds as many as the tables call for: decisions, submitted, votes, approved, rejected, twice the vetoes, overridden vetoes; assignments minus revocations are the live roles; no other kind occurs |
| Accounting.TablesMoveAsRecorded | services/governance-engine/src/governance_engine/domain/veto_service.py:76-89 | each call moves every count by exactly the events it records |
| Replay.LogRebuildsTheTables | services/governance-engine/src/governance_engine/domain/approval_service.py:65-87 | folding the log from nothing gives every decision's status, every vote in full, every veto with reason and overrider, and the role table |
| RunAudit.EveryRunIsRecorded | services/governance-engine/src/governance_engine/domain/audit_service.py:32-45 | in every run each row is sealed behind one of the latest rows at its insertion |
| RunAudit.RunVerifiesIffTimeIncreases | services/governance-engine/src/governance_engine/repository/postgres.py:184-192 | the stored trail verifies for every limit and every order among equal times exactly when the times strictly increase |
| RunAudit.TimesMayCoincide | services/governance-engine/src/governance_engine/repository/postgres.py:184-192 | a run of two requests within one tick of the clock, after which the check can fail |
| RunAudit.IntegrityCheckPassesIff | services/governance-engine/src/governance_engine/domain/audit_service.py:47-50 | the integrity check passes for every limit and every order among equal times exactly when the times strictly increase |
| RunAudit.IntegrityCheckMissesIff | services/governance-engine/src/governance_engine/domain/audit_service.py:47-50 | after a run in strict time, one altered row goes unnoticed exactly when it stood and stands beyond the limit, or only its id changed, or it is the last row looked at, sealed anew behind the rows before it |
| RunAudit.ReadBackReplaysToTables | services/governance-engine/src/governance_engine/repository/postgres.py:184-192 | with strictly increasing times the last hash is the head, and the trail as read back replays to the tables |
| RunAudit.HeadHashCommitsToTables | libs/python/odg-core/src/odg_core/audit.py:39-88 | two runs with strictly increasing times whose trails end in the same hash have the same roles, statuses, votes, and vetoes with their reasons and overriders |
| RecordedRows.RecordingAdds | services/governance-engine/src/governance_engine/domain/audit_service.py:21-45 | a recorded event carries the supplied id and time and the six fields asked for, sealed behind the row the database prefers |
| RecordedRows.SuccessAdds | services/governance-engine/src/governance_engine/domain/approval_service.py:74-87 | every row a successful request adds, field by field, with the id and time of its own stamp; votes and vetoes in the order of recording |
| RecordedRows.LogFollowsTheClock | libs/python/odg-core/src/odg_core/audit.py:35 | the recorded times of a run are the clock readings of its successful requests, in the order of recording |
| RecordedRows.TimesIncreaseIffClockDoes | libs/python/odg-core/src/odg_core/audit.py:35 | the recorded times strictly increase exactly when those clock readings do |
| RecordedRows.CheckPassesIffClockIncreases | services/governance-engine/src/governance_engine/domain/audit_service.py:47-50 | after any run the integrity check passes for every limit and order exactly when those clock readings strictly increase |
| AuditChain.VerifyChain | libs/python/odg-core/src/odg_core/audit.py:68-88 | returns true exactly for valid chains |
| AuditChain.ExtensionIsValidIff | libs/python/odg-core/src/odg_core/audit.py:58-65 | appending keeps a chain valid exactly when the event is sealed and refers to the head |
| AuditChain.HeadCommitsToHistory | libs/python/odg-core/src/odg_core/audit.py:39-88 | two valid chains have the same head hash exactly when they agree on everything but ids |
| AuditChain.HashesAreDistinct | libs/python/odg-core/src/odg_core/audit.py:68-88 | no two events of a valid chain share a hash |
| AuditChain.SelectionsThatVerifyArePrefixes | libs/python/odg-core/src/odg_core/audit.py:68-88 | a list of events of a valid chain, reordered, thinned or repeated, verifies exactly when it is a prefix |
| AuditChain.OnlyOneOrderVerifies | libs/python/odg-core/src/odg_core/audit.py:68-88 | the only rearrangement that verifies is the chain itself |
| AuditChain.AlterationUnseenIff | libs/python/odg-core/src/odg_core/audit.py:18-65 | replacing one event goes unseen exactly when only its id changed, or it is the last one sealed anew behind the same predecessor |
| AuditTrail.RecordingKeepsRecorded | services/governance-engine/src/governance_engine/domain/audit_service.py:32-45 | recording seals the new row behind a latest row, whichever the database picks |
| AuditTrail.ReadBackVerifiesIff | services/governance-engine/src/governance_engine/repository/postgres.py:184-192 | for any recorded table, every read-back verifies exactly when the times strictly increase |
| AuditTrail.EveryReadBackIsPossible | services/governance-engine/src/governance_engine/repository/postgres.py:189-192 | the modelled query returns a read-back, and can return any |
| AuditTrail.AlteredRowUnseenIff | libs/python/odg-core/src/odg_core/audit.py:68-88 | when one row of a table in strict time is altered, exactly which first `limit` rows read back still verify |
| AuditTrail.VerifyingRearrangementIsInsertionOrder | libs/python/odg-core/src/odg_core/audit.py:68-88 | whatever the clock did, the only arrangement of the rows that can verify is the order of insertion |
| AuditTrail.SortByTimeReadsBack | services/governance-engine/src/governance_engine/repository/postgres.py:189-192 | the listing is a permutation of the rows in order of time |
| KafkaAudit.KafkaAuditConsumer.Consume | services/governance-engine/src/governance_engine/events/kafka_consumer.py:68-97 | persists and chains the messages up to the first stop or failure, which leaves the last hash where it was |
| KafkaAudit.KafkaAuditConsumer.Connect | services/governance-engine/src/governance_engine/events/kafka_consumer.py:42-59 | an unreachable broker leaves the consumer unconnected |
| KafkaAudit.KafkaAuditConsumer.Disconnect | services/governance-engine/src/governance_engine/events/kafka_consumer.py:61-66 | stops the loop and nothing else |
| KafkaAudit.ConsumingPersists | services/governance-engine/src/governance_engine/events/kafka_consumer.py:80-97 | a connected consumer persists the longest part of the feed that nothing stopped or failed, in order and nothing else; whether it runs afterwards; an unconnected one does nothing |
| KafkaAudit.UndisturbedFeedIsPersisted | services/governance-engine/src/governance_engine/events/kafka_consumer.py:80-92 | without stops and failures the whole feed is persisted in order |
| KafkaAudit.OperationsKeepChained | services/governance-engine/src/governance_engine/events/kafka_consumer.py:68-97 | over any mix of operations each row carries the hash of the events up to it, and the last hash that of all |
| KafkaAudit.SeparatorIsUnambiguous | services/governance-engine/src/governance_engine/events/kafka_consumer.py:22-25 | joining with a colon is injective for previous hashes without one |
| KafkaAudit.HeadDeterminesEvents | services/governance-engine/src/governance_engine/events/kafka_consumer.py:22-25 | equal heads mean equal lists of events, and conversely |
| KafkaAudit.LastHashDeterminesRows | services/governance-engine/src/governance_engine/events/kafka_consumer.py:68-97 | two consumers have the same last hash exactly when they persisted the same rows, whatever happened to each |
| Contracts.DetectBreakingChanges | libs/python/odg-core/src/odg_core/contracts/breaking.py:44-83 | the two lists, in order of iteration |
| Contracts.ClassifyNewColumn | libs/python/odg-core/src/odg_core/contracts/breaking.py:11-21 | appends to exactly one of the shared lists |
| Contracts.ClassifyModifiedColumn | libs/python/odg-core/src/odg_core/contracts/breaking.py:24-41 | appends up to two changes |
| Contracts.KeysAreTheTables | libs/python/odg-core/src/odg_core/contracts/breaking.py:62-63 | a dictionary built from columns has each name once; iteration meets exactly its names |
| Contracts.TableKeepsLast | libs/python/odg-core/src/odg_core/contracts/breaking.py:62-63 | a dictionary built from columns holds the last column of each name |
| Contracts.FirstsInOrder | libs/python/odg-core/src/odg_core/contracts/breaking.py:68-72 | iteration meets the names in the order in which they first occur |
| Contracts.ReportedExactly | libs/python/odg-core/src/odg_core/contracts/breaking.py:68-77 | for every change, the condition under which it is reported, and as what |
| Contracts.ReportedInOrder | libs/python/odg-core/src/odg_core/contracts/breaking.py:68-77 | each change is reported once: removals first in the old order, then the new order, a type change before a nullability change |
| Contracts.BreakingIffIncompatible | libs/python/odg-core/src/odg_core/contracts/breaking.py:44-83 | a breaking change is reported exactly when the versions are not compatible |
| Contracts.ActionMeans | libs/python/odg-core/src/odg_core/contracts/governance.py:17-54 | what each governance action says about the two versions, in both directions |
| Contracts.BreakingAreCounted | libs/python/odg-core/src/odg_core/contracts/governance.py:45-54 | the evaluation hands on the analysis and counts the breaking changes, as a set, where there are any |
| Contracts.UnapprovedHistoriesCompose | libs/python/odg-core/src/odg_core/contracts/governance.py:29-43 | steps that each needed no approval never add up to a change that does, between any two versions |
| Contracts.NoChangeBothWaysIsSame | libs/python/odg-core/src/odg_core/contracts/governance.py:31-36 | no change in both directions means the same names, types and nullability |
| Contracts.ValidateData | libs/python/odg-core/src/odg_core/contracts/validator.py:11-48 | missing, mismatched and extra columns, in order; raises exactly when a column has no name |
| Contracts.ValidationMeans | libs/python/odg-core/src/odg_core/contracts/validator.py:24-41 | for any columns: exactly what is missing, mismatched and extra, the last column of a name counting and an unstated type being empty; raises exactly for a nameless column |
| Contracts.ValidationInOrder | libs/python/odg-core/src/odg_core/contracts/validator.py:27-39 | the three lists follow the order in which the names first occur |
| Contracts.ValidatorAgreesWithComparison | libs/python/odg-core/src/odg_core/contracts/validator.py:24-39 | on the new columns the old contract's validator reports exactly the removed, retyped and added columns of the comparison |
| Contracts.ValidIffNothingRemovedOrRetyped | libs/python/odg-core/src/odg_core/contracts/validator.py:41 | the new columns are valid exactly when nothing was removed or retyped |
| ContractMeaning.BreakingMeansSomeRowFails | libs/python/odg-core/src/odg_core/contracts/breaking.py:11-83 | breaking exactly when a column was removed or some conforming row, extended with nulls, fails the new version; the data types the two versions name are inhabited and disjoint |
| Quality.DAMAScorer.Score | libs/python/odg-core/src/odg_core/quality/dimensions.py:35-66 | per dimension the share of its expectations that passed, 1 without expectations |
| Quality.ScoreIsShareOfSuccesses | libs/python/odg-core/src/odg_core/quality/dimensions.py:47-66 | a score is the number of successes among the results of the dimension over their number, and 1 if there are none; an absent entry is no success |
| Quality.DefaultExpectations | libs/python/odg-core/src/odg_core/quality/dimensions.py:14-26 | which expectation types each dimension has by default |
| Quality.OverallIsMean | libs/python/odg-core/src/odg_core/quality/dimensions.py:68-72 | the overall score is the mean of the six |
| Quality.ThresholdsOfLayer | libs/python/odg-core/src/odg_core/quality/sla.py:8-29 | the threshold of every layer text and dimension; an unknown text has those of bronze |
| Quality.SlaPassesIff | libs/python/odg-core/src/odg_core/quality/sla.py:16-24 | the check passes exactly when every threshold is reached by a score, or is no more than 0 where there is none |
| Quality.ScoreOfBothLiesBetween | libs/python/odg-core/src/odg_core/quality/dimensions.py:47-66 | the score of two lists together lies between their scores |
| Quality.ScoreIgnoresOrder | libs/python/odg-core/src/odg_core/quality/dimensions.py:47-66 | permuting results changes no score |
| Quality.FixingNeverLowers | libs/python/odg-core/src/odg_core/quality/dimensions.py:35-72 | fixing a failure strictly raises its dimension, leaves the others, and never lowers the overall score |
| Quality.OverallAtLeast | libs/python/odg-core/src/odg_core/quality/dimensions.py:68-72 | the mean reaches every bound that all scores reach |
| Promotion.LayerThresholds | libs/python/odg-core/src/odg_core/quality/sla.py:8-29 | a layer's default thresholds are its promotion threshold in every dimension |
| Promotion.PassingSlaIsNotRefused | services/lakehouse-agent/src/lakehouse_agent/promotion.py:22-26 | whatever the results, passing a layer's thresholds means promotion from it is not refused on score |
| Promotion.NotRefusedIffSurplusCovers | services/lakehouse-agent/src/lakehouse_agent/promotion.py:144-164 | whatever the results, promotion is not refused on score exactly when the shortfall below the threshold is no greater than the surplus above it |
| Promotion.SlaFailsIffShortfall | libs/python/odg-core/src/odg_core/quality/sla.py:16-24 | the service level fails exactly when the shortfall is positive |
| Promotion.FailedSlaNotRefusedIff | docs/ARCHITECTURE.md:399-401 | a dataset that fails its layer's service level is blocked except, exactly, when its shortfall is positive and no greater than its surplus |
| Promotion.AcceptedScoresReachFloor | services/lakehouse-agent/src/lakehouse_agent/promotion.py:22-26 | when promotion is not refused, every dimension scores at least six times the threshold less five |
| Promotion.FloorIsReached | services/lakehouse-agent/src/lakehouse_agent/promotion.py:22-26 | at every layer and in every dimension, results that fail the service level are accepted with that dimension at its floor |
| Promotion.AcceptanceGuaranteesIff | services/lakehouse-agent/src/lakehouse_agent/promotion.py:144-164 | acceptance guarantees a score in a dimension exactly up to the floor of the layer |
| Promotion.PromotionService.Promote | services/lakehouse-agent/src/lakehouse_agent/promotion.py:121-172 | the outcome and the object store agree with the meaning of the call |
| Promotion.PromotionAnswers | services/lakehouse-agent/src/lakehouse_agent/promotion.py:22-26 | for every pair of layers and score: which transitions exist, which score each needs, which are copied and which wait for a decision |
| Promotion.PromotionCopiesAtMostOneObject | services/lakehouse-agent/src/lakehouse_agent/promotion.py:43-71 | an object is copied exactly from bronze to silver at a score of 0.7 or more; the original stays and nothing else changes |
| Promotion.BucketNamesAreDistinct | services/lakehouse-agent/src/lakehouse_agent/protocols.py:11-13 | different layers or domains never share a bucket |
| RoundRobin.Handler.SelectBackend | services/gateway/internal/proxy/handler.go:53-60 | the backend at the old counter modulo their number; the counter wraps at 2^64 |
| RoundRobin.ScheduleKeepsTurns | services/gateway/internal/proxy/handler.go:53-60 | under any interleaving each backend's selections are its turns among the tickets drawn |
| RoundRobin.EveryRequestIsServed | services/gateway/internal/proxy/handler.go:53-60 | under any orderly interleaving every draw takes one ticket and every pick selects one backend |
| RoundRobin.AloneIsOneSelection | services/gateway/internal/proxy/handler.go:53-60 | a request that is not interleaved does what one call of the handler does |
| RoundRobin.InterleavingsAreFair | services/gateway/internal/proxy/handler.go:53-60 | two backends differ by at most one more than the number of wrap-arounds, and by one if their number divides 2^64 |
| RoundRobin.WithinOneForEverIff | services/gateway/internal/proxy/handler.go:53-60 | the backends stay within one turn of each other for ever exactly when their number divides 2^64 |

## Left out

- Services.Api.Handle: does not model concurrent transactions; each request is one atomic step.
- Replay.LogRebuildsTheTables: a decision's domain, type and title, the role behind a veto and row ids are not in the log, so they cannot be rebuilt from it.
- KafkaAudit.LastHashDeterminesRows: speaks of one consumer object at a time; a restarted consumer begins a new chain at the genesis value, and a persist that fails is taken to have written nothing.
- Effects.VetoEffect: the expiry is stored but no step reads it; `overridden_at`, `updated_at`, promotion metadata and free metadata are not modelled.
- Audit row ids: collisions among them are not modelled; those of the other tables make the insertion fail.
- Pydantic objects and database rows are values here: the repositories hand out copies, so sharing of a fetched object is not modelled.
- SHA-256 and JSON serialisation are library code; the hash is a parameter and a message its serialised text.
- Scores are exact reals; floating-point rounding is not modelled.
- The gateway's parsing of backend URLs and its forwarding of requests are not modelled.
- HTTP routes, database sessions, message brokers, telemetry and health checks: plumbing around the modelled steps.
- Listing and paging queries of the repositories: they only read.
- The governance promotion strategy returns a fresh id and does nothing else; the id is an input.
- Compliance checkers, classification tables, jurisdiction policies and AI-risk classes are not modelled.
- PII detection, metadata rules, masking, differential privacy, drift detection, lineage adapters and the mock data expert are not modelled.
