/**
  The governance engine's data and the meaning of each of its calls.

  The state is what the database holds.  Each call is one function from the state to the new state
  or to the error it raises; the classes in `Services` are proved against these functions.
 */
module Governance {
  import opened Enums
  import opened Outcome
  import opened AuditChain
  import opened AuditTrail

  // ----- Rows -----

  datatype Decision = Decision(
    decisionType: DecisionType,
    title: string,
    description: string,
    domainId: string,
    createdBy: string,
    status: DecisionStatus)

  datatype Vote = Vote(decisionId: string, voterId: string, voterRole: RACIRole, vote: VoteValue, comment: string)

  datatype Veto = Veto(
    decisionId: string,
    vetoedBy: string,
    vetoedByRole: RACIRole,
    reason: string,
    status: VetoStatus,
    expiresAt: int,
    overriddenBy: Option<string>)

  datatype Assignment = Assignment(userId: string, domainId: string, role: RACIRole, assignedBy: string)

  /** One table per kind of row, keyed by primary key, and the audit rows in the order of insertion. */
  datatype State = State(
    decisions: map<string, Decision>,
    votes: map<string, Vote>,
    vetoes: map<string, Veto>,
    roles: map<string, Assignment>,
    log: seq<AuditEvent>)

  const EMPTY := State(map[], map[], map[], map[], [])

  // ----- Constants -----

  const REQUIRED_APPROVAL_ROLES: set<RACIRole> := {Responsible, Accountable}
  const VETO_ELIGIBLE_ROLES: set<RACIRole> := {Accountable, Responsible}
  const FINAL_STATUSES: set<DecisionStatus> := {Approved, Rejected, Vetoed, Escalated}
  const HOUR := 3_600_000_000 // in microseconds
  const SYSTEM := "system"

  function Level(role: RACIRole): nat {
    match role
    case Accountable => 3
    case Responsible => 2
    case Consulted => 1
    case Informed => 0
  }

  predicate ValidText(text: string, max: nat) {
    1 <= |text| <= max
  }

  // ----- Lookups -----

  /** A query for one row or none: it raises when two rows match. */
  function OneOrNone<V>(table: map<string, V>, ids: set<string>): (r: Result<Option<V>>)
    requires ids <= table.Keys
    ensures r.Success? <==> |ids| <= 1
    ensures r.Success? && r.value.None? <==> ids == {}
    ensures r.Success? && r.value.Some? ==> exists i :: i in table && ids == {i} && r.value.value == table[i]
  {
    if |ids| > 1 then Failure(MultipleRows)
    else if ids == {} then Success(None)
    else Success(Some(table[TheOnly(ids)]))
  }

  function TheOnly(ids: set<string>): (id: string)
    requires |ids| == 1
    ensures ids == {id}
  {
    OneMember(ids);
    var id :| id in ids;
    id
  }

  lemma OneMember(ids: set<string>)
    requires |ids| == 1
    ensures exists id :: ids == {id}
    ensures forall i, j :: i in ids && j in ids ==> i == j
  {
    var id :| id in ids;
    assert |ids - {id}| == 0;
    assert ids == {id};
  }

  function VoteRows(votes: map<string, Vote>, decisionId: string, voterId: string): set<string> {
    set i | i in votes && votes[i].decisionId == decisionId && votes[i].voterId == voterId
  }

  function GetVote(votes: map<string, Vote>, decisionId: string, voterId: string): Result<Option<Vote>> {
    OneOrNone(votes, VoteRows(votes, decisionId, voterId))
  }

  function RoleRows(roles: map<string, Assignment>, userId: string, domainId: string): set<string> {
    set i | i in roles && roles[i].userId == userId && roles[i].domainId == domainId
  }

  function GetAssignment(roles: map<string, Assignment>, userId: string, domainId: string): Result<Option<Assignment>> {
    OneOrNone(roles, RoleRows(roles, userId, domainId))
  }

  /** The users a decision of the domain waits for. */
  function RequiredVoters(roles: map<string, Assignment>, domainId: string): set<string> {
    set i | i in roles && roles[i].domainId == domainId && roles[i].role in REQUIRED_APPROVAL_ROLES :: roles[i].userId
  }

  function ApprovedVoters(votes: map<string, Vote>, decisionId: string): set<string> {
    set i | i in votes && votes[i].decisionId == decisionId && votes[i].vote == Approve :: votes[i].voterId
  }

  // ----- Audit -----

  function RecordEvent(hash: Hash, s: State, draft: Draft, stamp: Stamp): Result<State> {
    // Entity types are constants and entity ids are uuids, so only the actor can be out of bounds.
    if !ValidText(draft.actorId, 200) then Failure(InvalidField)
    else Success(s.(log := s.log + [Entry(hash, s.log, draft, stamp)]))
  }

  // ----- Decisions -----

  function FinalEventType(status: DecisionStatus): AuditEventType
    requires status in FINAL_STATUSES
  {
    match status
    case Approved => DecisionApproved
    case Rejected => DecisionRejected
    case Escalated => DecisionEscalated
    case Vetoed => VetoExercised
  }

  function WithStatus(s: State, decisionId: string, status: DecisionStatus): State
    requires decisionId in s.decisions
  {
    s.(decisions := s.decisions[decisionId := s.decisions[decisionId].(status := status)])
  }

  function CreatedDraft(decisionId: string, title: string, createdBy: string): Draft {
    Draft(DecisionCreated, "decision", decisionId, createdBy, "Decision created: " + title, map[])
  }

  function CreateDecision(
    hash: Hash, s: State, id: string, decisionType: DecisionType, title: string, description: string,
    domainId: string, createdBy: string, stamp: Stamp): Result<State>
  {
    if !ValidText(title, 500) || !ValidText(domainId, 100) || !ValidText(createdBy, 200) then Failure(InvalidField)
    else if id in s.decisions then Failure(DuplicateKey)
    else
      var decision := Decision(decisionType, title, description, domainId, createdBy, Pending);
      RecordEvent(hash, s.(decisions := s.decisions[id := decision]), CreatedDraft(id, title, createdBy), stamp)
  }

  function SubmittedDraft(decisionId: string, title: string, actorId: string): Draft {
    Draft(DecisionSubmitted, "decision", decisionId, actorId, "Decision submitted for approval: " + title, map[])
  }

  function SubmitForApproval(hash: Hash, s: State, decisionId: string, actorId: string, stamp: Stamp): Result<State> {
    if decisionId !in s.decisions then Failure(NotFound)
    else if s.decisions[decisionId].status != Pending then Failure(WrongStatus)
    else
      RecordEvent(hash, WithStatus(s, decisionId, AwaitingApproval),
                  SubmittedDraft(decisionId, s.decisions[decisionId].title, actorId), stamp)
  }

  function FinalDraft(decisionId: string, title: string, status: DecisionStatus, actorId: string): Draft
    requires status in FINAL_STATUSES
  {
    Draft(FinalEventType(status), "decision", decisionId, actorId,
          "Decision finalized as " + StatusText(status) + ": " + title, map[])
  }

  function Finalize(
    hash: Hash, s: State, decisionId: string, status: DecisionStatus, actorId: string, stamp: Stamp): Result<State>
  {
    if decisionId !in s.decisions then Failure(NotFound)
    else if s.decisions[decisionId].status != AwaitingApproval then Failure(WrongStatus)
    else if status !in FINAL_STATUSES then Failure(BadFinalStatus)
    else
      RecordEvent(hash, WithStatus(s, decisionId, status),
                  FinalDraft(decisionId, s.decisions[decisionId].title, status, actorId), stamp)
  }

  // ----- Approvals -----

  function CastDraft(decisionId: string, v: Vote): Draft {
    Draft(ApprovalCast, "decision", decisionId, v.voterId,
          "Vote " + VoteText(v.vote) + " cast by " + v.voterId + " (role: " + RoleText(v.voterRole) + ")",
          map["vote" := Text(VoteText(v.vote)), "role" := Text(RoleText(v.voterRole)), "comment" := Text(v.comment)])
  }

  function CastVote(
    hash: Hash, s: State, voteId: string, decisionId: string, voterId: string, vote: VoteValue, comment: string,
    stamp: Stamp, finalStamp: Stamp): Result<State>
  {
    if decisionId !in s.decisions then Failure(NotFound)
    else if s.decisions[decisionId].status != AwaitingApproval then Failure(WrongStatus)
    else
      var domainId := s.decisions[decisionId].domainId;
      var assignment :- GetAssignment(s.roles, voterId, domainId);
      if assignment.None? then Failure(NoRole)
      else
        var existing :- GetVote(s.votes, decisionId, voterId);
        if existing.Some? then Failure(AlreadyVoted)
        else if !ValidText(voterId, 200) then Failure(InvalidField)
        else if voteId in s.votes then Failure(DuplicateKey)
        else
          var v := Vote(decisionId, voterId, assignment.value.role, vote, comment);
          var cast :- RecordEvent(hash, s.(votes := s.votes[voteId := v]), CastDraft(decisionId, v), stamp);
          match vote
          case Reject => Finalize(hash, cast, decisionId, Rejected, voterId, finalStamp)
          case Approve => CheckAndFinalize(hash, cast, decisionId, domainId, finalStamp)
          case Abstain => Success(cast)
  }

  function CheckAndFinalize(hash: Hash, s: State, decisionId: string, domainId: string, stamp: Stamp): Result<State> {
    var required := RequiredVoters(s.roles, domainId);
    if required != {} && required <= ApprovedVoters(s.votes, decisionId)
    then Finalize(hash, s, decisionId, Approved, SYSTEM, stamp)
    else Success(s)
  }

  // ----- Vetoes -----

  function ExpiryOf(vetoedAt: int, isEmergency: bool): int {
    vetoedAt + if isEmergency then HOUR else 24 * HOUR
  }

  function VetoDraft(v: Veto, isEmergency: bool): Draft {
    Draft(VetoExercised, "decision", v.decisionId, v.vetoedBy,
          "Veto exercised by " + v.vetoedBy + ": " + v.reason,
          map["reason" := Text(v.reason), "is_emergency" := Flag(isEmergency), "expires_at" := Instant(v.expiresAt)])
  }

  function ExerciseVeto(
    hash: Hash, s: State, vetoId: string, decisionId: string, vetoedBy: string, reason: string, vetoedAt: int,
    finalStamp: Stamp, stamp: Stamp): Result<State>
  {
    if decisionId !in s.decisions then Failure(NotFound)
    else if s.decisions[decisionId].status != AwaitingApproval then Failure(WrongStatus)
    else
      var assignment :- GetAssignment(s.roles, vetoedBy, s.decisions[decisionId].domainId);
      if assignment.None? then Failure(NoRole)
      else if assignment.value.role !in VETO_ELIGIBLE_ROLES then Failure(NotEligible)
      else if !ValidText(vetoedBy, 200) || reason == "" then Failure(InvalidField)
      else if vetoId in s.vetoes then Failure(DuplicateKey)
      else
        var isEmergency := s.decisions[decisionId].decisionType == Emergency;
        var v := Veto(decisionId, vetoedBy, assignment.value.role, reason, Active,
                      ExpiryOf(vetoedAt, isEmergency), None);
        var vetoed :- Finalize(hash, s.(vetoes := s.vetoes[vetoId := v]), decisionId, Vetoed, vetoedBy, finalStamp);
        RecordEvent(hash, vetoed, VetoDraft(v, isEmergency), stamp)
  }

  function OverrideDraft(decisionId: string, overriddenBy: string): Draft {
    Draft(VetoOverridden, "decision", decisionId, overriddenBy, "Veto overridden by " + overriddenBy, map[])
  }

  function OverrideVeto(hash: Hash, s: State, vetoId: string, overriddenBy: string, stamp: Stamp): Result<State> {
    if vetoId !in s.vetoes then Failure(NotFound)
    else
      var v := s.vetoes[vetoId];
      if v.status != Active then Failure(VetoNotActive)
      else if v.decisionId !in s.decisions then Failure(NotFound)
      else
        var assignment :- GetAssignment(s.roles, overriddenBy, s.decisions[v.decisionId].domainId);
        if assignment.None? then Failure(NoRole)
        else if Level(assignment.value.role) <= Level(v.vetoedByRole) then Failure(Outranked)
        else
          var overridden := v.(status := Overridden, overriddenBy := Some(overriddenBy));
          RecordEvent(hash, s.(vetoes := s.vetoes[vetoId := overridden]),
                      OverrideDraft(v.decisionId, overriddenBy), stamp)
  }

  // ----- Roles -----

  function AssignedDraft(assignmentId: string, a: Assignment): Draft {
    Draft(RoleAssigned, "raci_assignment", assignmentId, a.assignedBy,
          "Role " + RoleText(a.role) + " assigned to " + a.userId + " in domain " + a.domainId,
          map["user_id" := Text(a.userId), "domain_id" := Text(a.domainId), "role" := Text(RoleText(a.role))])
  }

  function AssignRole(
    hash: Hash, s: State, assignmentId: string, userId: string, domainId: string, role: RACIRole, assignedBy: string,
    stamp: Stamp): Result<State>
  {
    var existing :- GetAssignment(s.roles, userId, domainId);
    if existing.Some? then Failure(AlreadyAssigned)
    else if !ValidText(userId, 200) || !ValidText(domainId, 100) || !ValidText(assignedBy, 200) then
      Failure(InvalidField)
    else if assignmentId in s.roles then Failure(DuplicateKey)
    else
      var a := Assignment(userId, domainId, role, assignedBy);
      RecordEvent(hash, s.(roles := s.roles[assignmentId := a]), AssignedDraft(assignmentId, a), stamp)
  }

  function RevokedDraft(assignmentId: string, a: Assignment, revokedBy: string): Draft {
    Draft(RoleRevoked, "raci_assignment", assignmentId, revokedBy,
          "Role " + RoleText(a.role) + " revoked from " + a.userId + " in " + a.domainId, map[])
  }

  function RevokeRole(hash: Hash, s: State, assignmentId: string, revokedBy: string, stamp: Stamp): Result<State> {
    if assignmentId !in s.roles then Failure(NotFound)
    else
      RecordEvent(hash, s.(roles := s.roles - {assignmentId}),
                  RevokedDraft(assignmentId, s.roles[assignmentId], revokedBy), stamp)
  }

  // ----- Requests and runs -----

  /** A call of the API, with the ids and clock readings the environment supplies to it. */
  datatype Request =
    | CreateRequest(decisionId: string, decisionType: DecisionType, title: string, description: string,
                    domainId: string, createdBy: string, stamp: Stamp)
    | SubmitRequest(decisionId: string, actorId: string, stamp: Stamp)
    | VoteRequest(voteId: string, decisionId: string, voterId: string, vote: VoteValue, comment: string,
                  stamp: Stamp, finalStamp: Stamp)
    | VetoRequest(vetoId: string, decisionId: string, vetoedBy: string, reason: string, vetoedAt: int,
                  finalStamp: Stamp, stamp: Stamp)
    | OverrideRequest(vetoId: string, overriddenBy: string, stamp: Stamp)
    | AssignRequest(assignmentId: string, userId: string, domainId: string, role: RACIRole, assignedBy: string,
                    stamp: Stamp)
    | RevokeRequest(assignmentId: string, revokedBy: string, stamp: Stamp)

  function Attempt(hash: Hash, s: State, request: Request): Result<State> {
    match request
    case CreateRequest(id, decisionType, title, description, domainId, createdBy, stamp) =>
      CreateDecision(hash, s, id, decisionType, title, description, domainId, createdBy, stamp)
    case SubmitRequest(id, actorId, stamp) => SubmitForApproval(hash, s, id, actorId, stamp)
    case VoteRequest(voteId, id, voterId, vote, comment, stamp, finalStamp) =>
      CastVote(hash, s, voteId, id, voterId, vote, comment, stamp, finalStamp)
    case VetoRequest(vetoId, id, vetoedBy, reason, vetoedAt, finalStamp, stamp) =>
      ExerciseVeto(hash, s, vetoId, id, vetoedBy, reason, vetoedAt, finalStamp, stamp)
    case OverrideRequest(vetoId, overriddenBy, stamp) => OverrideVeto(hash, s, vetoId, overriddenBy, stamp)
    case AssignRequest(assignmentId, userId, domainId, role, assignedBy, stamp) =>
      AssignRole(hash, s, assignmentId, userId, domainId, role, assignedBy, stamp)
    case RevokeRequest(assignmentId, revokedBy, stamp) => RevokeRole(hash, s, assignmentId, revokedBy, stamp)
  }

  /** A call that raises leaves the database as it was. */
  function Next(hash: Hash, s: State, request: Request): State {
    var r := Attempt(hash, s, request);
    if r.Success? then r.value else s
  }

  /** The state after a run of requests against an empty database. */
  function Run(hash: Hash, requests: seq<Request>): State {
    if requests == [] then EMPTY
    else Next(hash, Run(hash, requests[..|requests| - 1]), requests[|requests| - 1])
  }
}
