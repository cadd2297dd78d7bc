/** Whose approval a decision needs, and what a vote and a finalisation make of it. */
module Approvals {
  import opened Enums
  import opened Outcome
  import opened AuditChain
  import opened AuditTrail
  import opened Governance
  import opened Effects

  /** The user is RESPONSIBLE or ACCOUNTABLE in the domain. */
  ghost predicate MustApprove(s: State, userId: string, domainId: string) {
    HasRole(s, userId, domainId, Responsible) || HasRole(s, userId, domainId, Accountable)
  }

  /** A decision of the domain waits for exactly those users. */
  lemma RequiredVotersMustApprove(s: State, userId: string, domainId: string)
    ensures userId in RequiredVoters(s.roles, domainId) <==> MustApprove(s, userId, domainId)
  {
    if userId in RequiredVoters(s.roles, domainId) {
      var i :| i in s.roles && s.roles[i].domainId == domainId && s.roles[i].role in REQUIRED_APPROVAL_ROLES
               && s.roles[i].userId == userId;
      assert HasRole(s, userId, domainId, s.roles[i].role);
    }
  }

  /** Somebody must approve, and everybody who must has an approving vote stored. */
  ghost predicate EverybodyApproved(s: State, decisionId: string, domainId: string) {
    && (exists u :: MustApprove(s, u, domainId))
    && forall u :: MustApprove(s, u, domainId) ==> HasApproved(s, decisionId, u)
  }

  lemma RequiredApprovedIff(s: State, decisionId: string, domainId: string)
    ensures AllRequiredApproved(s, decisionId, domainId) <==> EverybodyApproved(s, decisionId, domainId)
  {
    hide RequiredVoters, MustApprove, HasApproved;
    forall u ensures u in RequiredVoters(s.roles, domainId) <==> MustApprove(s, u, domainId) {
      RequiredVotersMustApprove(s, u, domainId);
    }
    assert RequiredVoters(s.roles, domainId) != {} <==> exists u :: u in RequiredVoters(s.roles, domainId);
  }

  lemma ApprovalsOf(s: State, s': State, decisionId: string, domainId: string)
    requires s'.roles == s.roles && s'.votes == s.votes
    ensures AllRequiredApproved(s', decisionId, domainId) <==> AllRequiredApproved(s, decisionId, domainId)
  {
    assert forall u :: HasApproved(s', decisionId, u) <==> HasApproved(s, decisionId, u);
  }

  /**
    What an accepted vote makes of its decision: a rejection rejects it, an abstention leaves it
    waiting, and an approval approves it exactly when then everybody who must approve, and there is
    somebody, has approved.
   */
  lemma VoteDecides(hash: Hash, s: State, q: Request)
    requires q.VoteRequest? && Attempt(hash, s, q).Success?
    ensures var s' := Next(hash, s, q);
            && q.decisionId in s.decisions && q.decisionId in s'.decisions
            && s'.decisions[q.decisionId].status ==
               match q.vote
               case Reject => Rejected
               case Abstain => AwaitingApproval
               case Approve =>
                 if EverybodyApproved(s', q.decisionId, s.decisions[q.decisionId].domainId) then Approved
                 else AwaitingApproval
  {
    hide Attempt, HasRole, HasVoted, AllRequiredApproved, EverybodyApproved;
    var s' := SuccessChanges(hash, s, q);
    var domainId := s.decisions[q.decisionId].domainId;
    ApprovalsOf(s.(votes := s'.votes), s', q.decisionId, domainId);
    RequiredApprovedIff(s', q.decisionId, domainId);
  }

  /** The row an accepted vote stores. */
  lemma VoteStores(hash: Hash, s: State, q: Request) returns (role: RACIRole)
    requires q.VoteRequest? && Attempt(hash, s, q).Success?
    ensures q.decisionId in s.decisions
    ensures HasRole(s, q.voterId, s.decisions[q.decisionId].domainId, role)
    ensures Next(hash, s, q).votes == s.votes[q.voteId := Vote(q.decisionId, q.voterId, role, q.vote, q.comment)]
  {
    hide Attempt, HasVoted, AllRequiredApproved;
    var s' := SuccessChanges(hash, s, q);
    role := s'.votes[q.voteId].voterRole;
  }

  /** The row an accepted veto stores: it runs out after an hour in an emergency and after a day otherwise. */
  lemma VetoStores(hash: Hash, s: State, q: Request) returns (role: RACIRole)
    requires q.VetoRequest? && Attempt(hash, s, q).Success?
    ensures q.decisionId in s.decisions
    ensures HasRole(s, q.vetoedBy, s.decisions[q.decisionId].domainId, role)
    ensures role == Responsible || role == Accountable
    ensures var lifetime := if s.decisions[q.decisionId].decisionType == Emergency then 3_600_000_000 else 86_400_000_000;
            Next(hash, s, q).vetoes ==
            s.vetoes[q.vetoId := Veto(q.decisionId, q.vetoedBy, role, q.reason, Active, q.vetoedAt + lifetime, None)]
    ensures Next(hash, s, q).decisions ==
            s.decisions[q.decisionId := s.decisions[q.decisionId].(status := Vetoed)]
  {
    hide Attempt;
    var i, v := VetoEffect(hash, s, q);
    role := v.vetoedByRole;
    assert s.roles[i].role == role;
  }

  /** What finalising means for any status and any state. */
  lemma FinalizeAcceptedIff(
    hash: Hash, s: State, decisionId: string, status: DecisionStatus, actorId: string, stamp: Stamp)
    ensures var r := Finalize(hash, s, decisionId, status, actorId, stamp);
            && (r.Success? <==>
                && decisionId in s.decisions && s.decisions[decisionId].status == AwaitingApproval
                && status != Pending && status != AwaitingApproval && 1 <= |actorId| <= 200)
            && (r.Success? ==>
                  && r.value.decisions == s.decisions[decisionId := s.decisions[decisionId].(status := status)]
                  && r.value.votes == s.votes && r.value.vetoes == s.vetoes && r.value.roles == s.roles
                  && |r.value.log| == |s.log| + 1 && s.log <= r.value.log
                  && r.value.log[|s.log|].content.eventType ==
                     match status
                     case Approved => DecisionApproved
                     case Rejected => DecisionRejected
                     case Vetoed => VetoExercised
                     case _ => DecisionEscalated)
            && (r == Failure(NotFound) <==> decisionId !in s.decisions)
            && (r == Failure(WrongStatus) <==>
                decisionId in s.decisions && s.decisions[decisionId].status != AwaitingApproval)
            && (r == Failure(BadFinalStatus) <==>
                && decisionId in s.decisions && s.decisions[decisionId].status == AwaitingApproval
                && (status == Pending || status == AwaitingApproval))
  {
  }
}
