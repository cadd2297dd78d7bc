/** What each call changes when it succeeds. */
module Effects {
  import opened Enums
  import opened Outcome
  import opened AuditChain
  import opened AuditTrail
  import opened Governance

  /** The user has a role in the domain. */
  ghost predicate HasRole(s: State, userId: string, domainId: string, role: RACIRole) {
    exists i :: i in s.roles && s.roles[i].userId == userId && s.roles[i].domainId == domainId && s.roles[i].role == role
  }

  ghost predicate HasVoted(s: State, decisionId: string, voterId: string) {
    exists i :: i in s.votes && s.votes[i].decisionId == decisionId && s.votes[i].voterId == voterId
  }

  ghost predicate HasApproved(s: State, decisionId: string, voterId: string) {
    exists i :: i in s.votes && s.votes[i].decisionId == decisionId && s.votes[i].voterId == voterId
                && s.votes[i].vote == Approve
  }

  /** The domain has users who must approve, and all of them approved the decision. */
  ghost predicate AllRequiredApproved(s: State, decisionId: string, domainId: string) {
    && RequiredVoters(s.roles, domainId) != {}
    && forall u :: u in RequiredVoters(s.roles, domainId) ==> HasApproved(s, decisionId, u)
  }

  lemma ApprovalsAreVotes(s: State, decisionId: string, domainId: string)
    ensures forall u :: u in ApprovedVoters(s.votes, decisionId) <==> HasApproved(s, decisionId, u)
    ensures RequiredVoters(s.roles, domainId) != {}
            && RequiredVoters(s.roles, domainId) <= ApprovedVoters(s.votes, decisionId)
            <==> AllRequiredApproved(s, decisionId, domainId)
  {
  }

  ghost predicate IsAssigned(s: State, userId: string, domainId: string) {
    exists i :: i in s.roles && s.roles[i].userId == userId && s.roles[i].domainId == domainId
  }

  /** The single-row lookups come back empty exactly when there is no such row. */
  lemma LookupsMeetRows(s: State, decisionId: string, userId: string, domainId: string)
    ensures GetVote(s.votes, decisionId, userId) == Success(None) <==> !HasVoted(s, decisionId, userId)
    ensures GetAssignment(s.roles, userId, domainId) == Success(None) <==> !IsAssigned(s, userId, domainId)
  {
    var votes, roles := VoteRows(s.votes, decisionId, userId), RoleRows(s.roles, userId, domainId);
    assert votes == {} <==> !HasVoted(s, decisionId, userId) by {
      assert forall i :: i in votes <==>
          i in s.votes && s.votes[i].decisionId == decisionId && s.votes[i].voterId == userId;
    }
    assert roles == {} <==> !IsAssigned(s, userId, domainId) by {
      assert forall i :: i in roles <==>
          i in s.roles && s.roles[i].userId == userId && s.roles[i].domainId == domainId;
    }
  }

  /** The row a vote request stores, given the voter's assignment. */
  function VoteOf(q: Request, role: RACIRole): Vote
    requires q.VoteRequest?
  {
    Vote(q.decisionId, q.voterId, role, q.vote, q.comment)
  }

  /** The status a vote leaves its decision in. */
  ghost function StatusAfterVote(s: State, q: Request, v: Vote): DecisionStatus
    requires q.VoteRequest? && q.decisionId in s.decisions
  {
    if q.vote == Reject then Rejected
    else if q.vote == Approve
            && AllRequiredApproved(s.(votes := s.votes[q.voteId := v]), q.decisionId, s.decisions[q.decisionId].domainId)
    then Approved
    else AwaitingApproval
  }

  lemma VoteEffect(hash: Hash, s: State, q: Request) returns (i: string, v: Vote)
    requires q.VoteRequest? && Attempt(hash, s, q).Success?
    ensures q.decisionId in s.decisions && s.decisions[q.decisionId].status == AwaitingApproval
    ensures i in s.roles && s.roles[i].userId == q.voterId && s.roles[i].domainId == s.decisions[q.decisionId].domainId
    ensures v == VoteOf(q, s.roles[i].role)
    ensures !HasVoted(s, q.decisionId, q.voterId) && ValidText(q.voterId, 200) && q.voteId !in s.votes
    ensures var d := s.decisions[q.decisionId];
            var status := StatusAfterVote(s, q, v);
            var log1 := s.log + [Entry(hash, s.log, CastDraft(q.decisionId, v), q.stamp)];
            var log2 := if status == AwaitingApproval then log1 else
              log1 + [Entry(hash, log1, FinalDraft(q.decisionId, d.title, status,
                                                   if status == Approved then SYSTEM else q.voterId), q.finalStamp)];
            Next(hash, s, q) == s.(votes := s.votes[q.voteId := v],
                                   decisions := s.decisions[q.decisionId := d.(status := status)],
                                   log := log2)
  {
    var d := s.decisions[q.decisionId];
    var assignment := GetAssignment(s.roles, q.voterId, d.domainId).value.value;
    i :| i in s.roles && RoleRows(s.roles, q.voterId, d.domainId) == {i} && s.roles[i] == assignment;
    assert i in RoleRows(s.roles, q.voterId, d.domainId);
    v := VoteOf(q, assignment.role);
    assert VoteRows(s.votes, q.decisionId, q.voterId) == {};
    LookupsMeetRows(s, q.decisionId, q.voterId, d.domainId);
    ApprovalsAreVotes(s.(votes := s.votes[q.voteId := v]), q.decisionId, d.domainId);
    assert s.decisions == s.decisions[q.decisionId := d.(status := AwaitingApproval)];
  }

  lemma VetoEffect(hash: Hash, s: State, q: Request) returns (i: string, v: Veto)
    requires q.VetoRequest? && Attempt(hash, s, q).Success?
    ensures q.decisionId in s.decisions && s.decisions[q.decisionId].status == AwaitingApproval
    ensures i in s.roles && s.roles[i].userId == q.vetoedBy && s.roles[i].domainId == s.decisions[q.decisionId].domainId
    ensures s.roles[i].role in VETO_ELIGIBLE_ROLES
    ensures var isEmergency := s.decisions[q.decisionId].decisionType == Emergency;
            v == Veto(q.decisionId, q.vetoedBy, s.roles[i].role, q.reason, Active, ExpiryOf(q.vetoedAt, isEmergency), None)
    ensures ValidText(q.vetoedBy, 200) && q.reason != "" && q.vetoId !in s.vetoes
    ensures var d := s.decisions[q.decisionId];
            var log1 := s.log + [Entry(hash, s.log, FinalDraft(q.decisionId, d.title, Vetoed, q.vetoedBy), q.finalStamp)];
            Next(hash, s, q) == s.(vetoes := s.vetoes[q.vetoId := v],
                                   decisions := s.decisions[q.decisionId := d.(status := Vetoed)],
                                   log := log1 + [Entry(hash, log1, VetoDraft(v, d.decisionType == Emergency), q.stamp)])
  {
    var d := s.decisions[q.decisionId];
    var assignment := GetAssignment(s.roles, q.vetoedBy, d.domainId).value.value;
    i :| i in s.roles && RoleRows(s.roles, q.vetoedBy, d.domainId) == {i} && s.roles[i] == assignment;
    assert i in RoleRows(s.roles, q.vetoedBy, d.domainId);
    v := Veto(q.decisionId, q.vetoedBy, assignment.role, q.reason, Active,
              ExpiryOf(q.vetoedAt, d.decisionType == Emergency), None);
  }

  // ----- The effects on the tables alone -----

  ghost predicate Created(s: State, s': State, q: Request)
    requires q.CreateRequest?
  {
    && q.decisionId !in s.decisions
    && s'.decisions == s.decisions[q.decisionId := Decision(q.decisionType, q.title, q.description, q.domainId,
                                                            q.createdBy, Pending)]
    && s'.votes == s.votes && s'.vetoes == s.vetoes && s'.roles == s.roles
  }

  ghost predicate Submitted(s: State, s': State, q: Request)
    requires q.SubmitRequest?
  {
    && q.decisionId in s.decisions && s.decisions[q.decisionId].status == Pending
    && s'.decisions == s.decisions[q.decisionId := s.decisions[q.decisionId].(status := AwaitingApproval)]
    && s'.votes == s.votes && s'.vetoes == s.vetoes && s'.roles == s.roles
  }

  ghost predicate Voted(s: State, s': State, q: Request)
    requires q.VoteRequest?
  {
    && q.decisionId in s.decisions && s.decisions[q.decisionId].status == AwaitingApproval
    && !HasVoted(s, q.decisionId, q.voterId) && q.voteId !in s.votes && q.voteId in s'.votes
    && var d, v := s.decisions[q.decisionId], s'.votes[q.voteId];
    && v == VoteOf(q, v.voterRole) && HasRole(s, q.voterId, d.domainId, v.voterRole)
    && s'.votes == s.votes[q.voteId := v]
    && s'.decisions == s.decisions[q.decisionId := d.(status := StatusAfterVote(s, q, v))]
    && s'.vetoes == s.vetoes && s'.roles == s.roles
  }

  ghost predicate VetoedBy(s: State, s': State, q: Request)
    requires q.VetoRequest?
  {
    && q.decisionId in s.decisions && s.decisions[q.decisionId].status == AwaitingApproval
    && q.vetoId !in s.vetoes && q.vetoId in s'.vetoes
    && var d, v := s.decisions[q.decisionId], s'.vetoes[q.vetoId];
    && v.decisionId == q.decisionId && v.vetoedBy == q.vetoedBy && v.status == Active && v.overriddenBy == None
    && v.vetoedByRole in VETO_ELIGIBLE_ROLES && HasRole(s, q.vetoedBy, d.domainId, v.vetoedByRole)
    && s'.vetoes == s.vetoes[q.vetoId := v]
    && s'.decisions == s.decisions[q.decisionId := d.(status := Vetoed)]
    && s'.votes == s.votes && s'.roles == s.roles
  }

  ghost predicate OverriddenIn(s: State, s': State, q: Request)
    requires q.OverrideRequest?
  {
    && q.vetoId in s.vetoes && s.vetoes[q.vetoId].status == Active && s.vetoes[q.vetoId].decisionId in s.decisions
    && var v := s.vetoes[q.vetoId];
    && Level(v.vetoedByRole) < Level(Accountable)
    && s'.vetoes == s.vetoes[q.vetoId := v.(status := Overridden, overriddenBy := Some(q.overriddenBy))]
    && s'.decisions == s.decisions && s'.votes == s.votes && s'.roles == s.roles
  }

  ghost predicate Assigned(s: State, s': State, q: Request)
    requires q.AssignRequest?
  {
    && !IsAssigned(s, q.userId, q.domainId) && q.assignmentId !in s.roles && ValidText(q.userId, 200)
    && s'.roles == s.roles[q.assignmentId := Assignment(q.userId, q.domainId, q.role, q.assignedBy)]
    && s'.decisions == s.decisions && s'.votes == s.votes && s'.vetoes == s.vetoes
  }

  ghost predicate Revoked(s: State, s': State, q: Request)
    requires q.RevokeRequest?
  {
    && q.assignmentId in s.roles && s'.roles == s.roles - {q.assignmentId}
    && s'.decisions == s.decisions && s'.votes == s.votes && s'.vetoes == s.vetoes
  }

  /** How a successful call changes the tables. */
  ghost predicate Changes(s: State, s': State, q: Request) {
    match q
    case CreateRequest(_, _, _, _, _, _, _) => Created(s, s', q)
    case SubmitRequest(_, _, _) => Submitted(s, s', q)
    case VoteRequest(_, _, _, _, _, _, _) => Voted(s, s', q)
    case VetoRequest(_, _, _, _, _, _, _) => VetoedBy(s, s', q)
    case OverrideRequest(_, _, _) => OverriddenIn(s, s', q)
    case AssignRequest(_, _, _, _, _, _) => Assigned(s, s', q)
    case RevokeRequest(_, _, _) => Revoked(s, s', q)
  }

  lemma SuccessChanges(hash: Hash, s: State, q: Request) returns (s': State)
    requires Attempt(hash, s, q).Success?
    ensures s' == Next(hash, s, q) && Changes(s, s', q) && s.log <= s'.log
  {
    s' := Next(hash, s, q);
    if q.VoteRequest? {
      var i, v := VoteEffect(hash, s, q);
    } else if q.VetoRequest? {
      var i, v := VetoEffect(hash, s, q);
    } else {
      TableChanges(hash, s, q);
    }
  }

  lemma TableChanges(hash: Hash, s: State, q: Request)
    requires Attempt(hash, s, q).Success? && !q.VoteRequest? && !q.VetoRequest?
    ensures Changes(s, Next(hash, s, q), q) && s.log <= Next(hash, s, q).log
  {
    hide Entry;
    if q.AssignRequest? {
      LookupsMeetRows(s, "", q.userId, q.domainId);
    }
  }

  // ----- The effects on the audit table -----

  /** What a successful call records. */
  ghost function Records(s: State, s': State, q: Request): (drafts: seq<Draft>)
    requires Changes(s, s', q)
    ensures 1 <= |drafts| <= 2
  {
    match q
    case CreateRequest(id, _, title, _, _, createdBy, _) => [CreatedDraft(id, title, createdBy)]
    case SubmitRequest(id, actorId, _) => [SubmittedDraft(id, s.decisions[id].title, actorId)]
    case VoteRequest(voteId, id, voterId, _, _, _, _) =>
      var status := s'.decisions[id].status;
      [CastDraft(id, s'.votes[voteId])]
      + (if status == AwaitingApproval then []
         else [FinalDraft(id, s.decisions[id].title, status, if status == Approved then SYSTEM else voterId)])
    case VetoRequest(vetoId, id, vetoedBy, _, _, _, _) =>
      [FinalDraft(id, s.decisions[id].title, Vetoed, vetoedBy),
       VetoDraft(s'.vetoes[vetoId], s.decisions[id].decisionType == Emergency)]
    case OverrideRequest(vetoId, overriddenBy, _) => [OverrideDraft(s.vetoes[vetoId].decisionId, overriddenBy)]
    case AssignRequest(assignmentId, _, _, _, _, _) => [AssignedDraft(assignmentId, s'.roles[assignmentId])]
    case RevokeRequest(assignmentId, revokedBy, _) =>
      [RevokedDraft(assignmentId, s.roles[assignmentId], revokedBy)]
  }

  /** The audit table after recording one draft, or two. */
  ghost function Recording(hash: Hash, log: seq<AuditEvent>, drafts: seq<Draft>, stamps: (Stamp, Stamp)): seq<AuditEvent>
    requires 1 <= |drafts| <= 2
  {
    var log1 := log + [Entry(hash, log, drafts[0], stamps.0)];
    if |drafts| == 1 then log1 else log1 + [Entry(hash, log1, drafts[1], stamps.1)]
  }

  /** The stamps of a call's events, in the order they are recorded. */
  function StampsOf(q: Request): (Stamp, Stamp) {
    match q
    case VoteRequest(_, _, _, _, _, stamp, finalStamp) => (stamp, finalStamp)
    case VetoRequest(_, _, _, _, _, finalStamp, stamp) => (finalStamp, stamp)
    case _ => (q.stamp, q.stamp)
  }

  lemma RecordingExtends(hash: Hash, log: seq<AuditEvent>, drafts: seq<Draft>, stamps: (Stamp, Stamp))
    requires 1 <= |drafts| <= 2
    ensures ExtendedBy(log, Recording(hash, log, drafts, stamps), drafts)
  {
    hide GetLastHash;
    assert DraftOf(Entry(hash, log, drafts[0], stamps.0)) == drafts[0];
  }

  lemma VoteRecords(hash: Hash, s: State, q: Request)
    requires q.VoteRequest? && Attempt(hash, s, q).Success? && Changes(s, Next(hash, s, q), q)
    ensures Next(hash, s, q).log == Recording(hash, s.log, Records(s, Next(hash, s, q), q), StampsOf(q))
  {
    hide Attempt, HasRole, HasVoted, AllRequiredApproved, RoleText, VoteText, StatusText, Entry;
    var i, v := VoteEffect(hash, s, q);
  }

  lemma VetoRecords(hash: Hash, s: State, q: Request)
    requires q.VetoRequest? && Attempt(hash, s, q).Success? && Changes(s, Next(hash, s, q), q)
    ensures Next(hash, s, q).log == Recording(hash, s.log, Records(s, Next(hash, s, q), q), StampsOf(q))
  {
    hide Attempt, HasRole, StatusText, Entry;
    var i, v := VetoEffect(hash, s, q);
  }

  /** A successful call changes the tables as described and records exactly the events described. */
  lemma SuccessRecords(hash: Hash, s: State, q: Request) returns (s': State)
    requires Attempt(hash, s, q).Success?
    ensures s' == Next(hash, s, q) && Changes(s, s', q)
    ensures s'.log == Recording(hash, s.log, Records(s, s', q), StampsOf(q))
    ensures ExtendedBy(s.log, s'.log, Records(s, s', q))
  {
    s' := SuccessChanges(hash, s, q);
    RecordingExtends(hash, s.log, Records(s, s', q), StampsOf(q));
    hide HasRole, HasVoted, AllRequiredApproved, RoleText, VoteText, StatusText, Entry, ExtendedBy;
    if q.VoteRequest? {
      VoteRecords(hash, s, q);
    } else if q.VetoRequest? {
      VetoRecords(hash, s, q);
    }
  }
}
