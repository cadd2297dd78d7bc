/** What holds across the steps of a run: rows that stay, statuses that are final, and past steps that must exist. */
module Histories {
  import opened Enums
  import opened AuditChain
  import opened Governance
  import opened Effects
  import opened Invariants

  // ----- Later states -----

  ghost predicate Reaches(a: DecisionStatus, b: DecisionStatus) {
    match a
    case Pending => b != Escalated
    case AwaitingApproval => b != Pending && b != Escalated
    case _ => b == a
  }

  /** The decision is the same but for a status it can have moved to. */
  ghost predicate DecisionLater(a: Decision, b: Decision) {
    a.(status := b.status) == b && Reaches(a.status, b.status)
  }

  /** The veto is the same, or an active one that has been overridden. */
  ghost predicate VetoLater(a: Veto, b: Veto) {
    a == b || (a.status == Active && b == a.(status := Overridden, overriddenBy := b.overriddenBy))
  }

  /** Votes are never changed or removed, decisions and vetoes only move forward. */
  ghost predicate Later(s: State, s': State) {
    && (forall i :: i in s.votes ==> i in s'.votes && s'.votes[i] == s.votes[i])
    && (forall d :: d in s.decisions ==> d in s'.decisions && DecisionLater(s.decisions[d], s'.decisions[d]))
    && (forall i :: i in s.vetoes ==> i in s'.vetoes && VetoLater(s.vetoes[i], s'.vetoes[i]))
    && s.log <= s'.log
  }

  lemma ChangesAreLater(s: State, s': State, q: Request)
    requires Inv(s) && Changes(s, s', q) && s.log <= s'.log
    ensures Later(s, s')
  {
    hide Inv, Changes, DecisionLater, VetoLater;
    DecisionsMoveForward(s, s', q);
    VotesAndVetoesMoveForward(s, s', q);
  }

  lemma DecisionsMoveForward(s: State, s': State, q: Request)
    requires Inv(s) && Changes(s, s', q)
    ensures forall d :: d in s.decisions ==> d in s'.decisions && DecisionLater(s.decisions[d], s'.decisions[d])
  {
    NoneEscalated(s);
    hide Inv, HasRole, HasVoted, AllRequiredApproved, IsAssigned;
  }

  lemma VotesAndVetoesMoveForward(s: State, s': State, q: Request)
    requires Changes(s, s', q)
    ensures forall i :: i in s.votes ==> i in s'.votes && s'.votes[i] == s.votes[i]
    ensures forall i :: i in s.vetoes ==> i in s'.vetoes && VetoLater(s.vetoes[i], s'.vetoes[i])
  {
    hide HasRole, HasVoted, StatusAfterVote, IsAssigned;
  }

  lemma NoneEscalated(s: State)
    requires Inv(s)
    ensures forall d :: d in s.decisions ==> s.decisions[d].status != Escalated
  {
    assert forall d :: d in s.decisions ==> StatusFits(s, d);
  }

  lemma LaterReflexive(s: State)
    requires Inv(s)
    ensures Later(s, s)
  {
    NoneEscalated(s);
  }

  lemma LaterTransitive(s: State, t: State, u: State)
    requires Later(s, t) && Later(t, u)
    ensures Later(s, u)
  {
  }

  lemma NextIsLater(hash: Hash, s: State, q: Request)
    requires Inv(s)
    ensures Later(s, Next(hash, s, q))
  {
    hide Attempt, Inv, Later, Changes;
    if Attempt(hash, s, q).Success? {
      var s' := SuccessChanges(hash, s, q);
      ChangesAreLater(s, s', q);
    } else {
      LaterReflexive(s);
    }
  }

  lemma {:induction false} RunsOnlyMoveForward(hash: Hash, requests: seq<Request>, k: nat)
    requires k <= |requests|
    ensures Later(Run(hash, requests[..k]), Run(hash, requests))
  {
    hide Attempt, Inv, Later;
    var n := |requests|;
    if k < n {
      var front := requests[..n - 1];
      RunsOnlyMoveForward(hash, front, k);
      assert front[..k] == requests[..k];
      EveryRunKeepsInv(hash, front);
      NextIsLater(hash, Run(hash, front), requests[n - 1]);
      LaterTransitive(Run(hash, requests[..k]), Run(hash, front), Run(hash, requests));
    } else {
      assert requests[..k] == requests;
      EveryRunKeepsInv(hash, requests);
      LaterReflexive(Run(hash, requests));
    }
  }

  /** A decision that was approved, rejected or vetoed is never changed again. */
  lemma FinalDecisionsNeverChange(hash: Hash, requests: seq<Request>, k: nat, d: string)
    requires k <= |requests| && d in Run(hash, requests[..k]).decisions
    requires Run(hash, requests[..k]).decisions[d].status in FINAL_STATUSES
    ensures d in Run(hash, requests).decisions
    ensures Run(hash, requests).decisions[d] == Run(hash, requests[..k]).decisions[d]
  {
    hide Run, Attempt;
    RunsOnlyMoveForward(hash, requests, k);
  }

  /** The state before a run's step, and the step. */
  lemma StepOfRun(hash: Hash, requests: seq<Request>, k: nat)
    requires k < |requests|
    ensures Run(hash, requests[..k + 1]) == Next(hash, Run(hash, requests[..k]), requests[k])
  {
    assert requests[..k + 1][..k] == requests[..k];
  }

  // ----- Why a decision is approved -----

  /** Step `k` is an approving vote after which every required user of the domain has approved. */
  ghost predicate CompletesApproval(hash: Hash, requests: seq<Request>, d: string, k: nat)
    requires k < |requests|
  {
    var s, q := Run(hash, requests[..k]), requests[k];
    var s' := Next(hash, s, q);
    && q.VoteRequest? && q.decisionId == d && q.vote == Approve && Attempt(hash, s, q).Success?
    && d in s'.decisions && AllRequiredApproved(s', d, s'.decisions[d].domainId)
  }

  lemma OnlyVotesApprove(s: State, s': State, q: Request, d: string)
    requires Changes(s, s', q) && d in s'.decisions && s'.decisions[d].status == Approved
    requires d in s.decisions ==> s.decisions[d].status != Approved
    ensures q.VoteRequest? && q.decisionId == d && q.vote == Approve
    ensures AllRequiredApproved(s', d, s'.decisions[d].domainId)
  {
    if q.VoteRequest? {
      ApprovalsFrame(s.(votes := s'.votes), s', d, s'.decisions[d].domainId);
    }
  }

  /**
    A decision is approved exactly when some past approving vote completed the approvals; the votes
    of that step are all still stored.
   */
  lemma ApprovedIffCompleted(hash: Hash, requests: seq<Request>, d: string)
    requires d in Run(hash, requests).decisions
    ensures Run(hash, requests).decisions[d].status == Approved
            <==> exists k :: 0 <= k < |requests| && CompletesApproval(hash, requests, d, k)
    ensures forall k, u :: 0 <= k < |requests| && CompletesApproval(hash, requests, d, k)
                           && u in RequiredVoters(Run(hash, requests[..k]).roles, Run(hash, requests).decisions[d].domainId)
              ==> HasApproved(Run(hash, requests), d, u)
  {
    if Run(hash, requests).decisions[d].status == Approved {
      var k := StepThatApproved(hash, requests, d);
    }
    forall k | 0 <= k < |requests| && CompletesApproval(hash, requests, d, k)
      ensures Run(hash, requests).decisions[d].status == Approved
      ensures forall u :: u in RequiredVoters(Run(hash, requests[..k]).roles, Run(hash, requests).decisions[d].domainId)
                ==> HasApproved(Run(hash, requests), d, u)
    {
      CompletionApproves(hash, requests, d, k);
    }
  }

  lemma CompletionApproves(hash: Hash, requests: seq<Request>, d: string, k: nat)
    requires k < |requests| && CompletesApproval(hash, requests, d, k)
    ensures d in Run(hash, requests).decisions && Run(hash, requests).decisions[d].status == Approved
    ensures forall u :: u in RequiredVoters(Run(hash, requests[..k]).roles, Run(hash, requests).decisions[d].domainId)
              ==> HasApproved(Run(hash, requests), d, u)
  {
    hide Attempt;
    var s := Run(hash, requests[..k]);
    var s' := SuccessChanges(hash, s, requests[k]);
    StepOfRun(hash, requests, k);
    RunsOnlyMoveForward(hash, requests, k + 1);
    CompletionStays(s, s', requests[k], Run(hash, requests), d);
  }

  lemma CompletionStays(s: State, s': State, q: Request, end: State, d: string)
    requires q.VoteRequest? && q.decisionId == d && q.vote == Approve && Voted(s, s', q) && Later(s', end)
    requires d in s'.decisions && AllRequiredApproved(s', d, s'.decisions[d].domainId)
    ensures d in end.decisions && end.decisions[d].status == Approved
    ensures forall u :: u in RequiredVoters(s.roles, end.decisions[d].domainId) ==> HasApproved(end, d, u)
  {
    ApprovalsFrame(s.(votes := s'.votes), s', d, s'.decisions[d].domainId);
    forall u | u in RequiredVoters(s.roles, end.decisions[d].domainId) ensures HasApproved(end, d, u) {
      assert HasApproved(s', d, u);
    }
  }

  lemma {:induction false} StepThatApproved(hash: Hash, requests: seq<Request>, d: string) returns (k: nat)
    requires d in Run(hash, requests).decisions && Run(hash, requests).decisions[d].status == Approved
    ensures k < |requests| && CompletesApproval(hash, requests, d, k)
  {
    k := |requests| - 1;
    var front := requests[..k];
    var s := Run(hash, front);
    EveryRunKeepsInv(hash, front);
    if d in s.decisions && s.decisions[d].status == Approved {
      k := StepThatApproved(hash, front, d);
      assert front[..k] == requests[..k];
    } else {
      var s' := SuccessChanges(hash, s, requests[k]);
      OnlyVotesApprove(s, s', requests[k], d);
    }
  }

  // ----- Runs in which no role of a domain is revoked -----

  /** The request takes away a role of the domain. */
  ghost predicate Revokes(hash: Hash, s: State, q: Request, domainId: string) {
    && q.RevokeRequest? && q.assignmentId in s.roles && s.roles[q.assignmentId].domainId == domainId
    && Attempt(hash, s, q).Success?
  }

  ghost predicate NoRevocation(hash: Hash, requests: seq<Request>, domainId: string) {
    forall k :: 0 <= k < |requests| ==> !Revokes(hash, Run(hash, requests[..k]), requests[k], domainId)
  }

  lemma NoRevocationInFront(hash: Hash, requests: seq<Request>, domainId: string, n: nat)
    requires NoRevocation(hash, requests, domainId) && n <= |requests|
    ensures NoRevocation(hash, requests[..n], domainId)
  {
    forall k | 0 <= k < n ensures !Revokes(hash, Run(hash, requests[..n][..k]), requests[..n][k], domainId) {
      assert requests[..n][..k] == requests[..k];
    }
  }

  /** Whoever voted on or vetoed a decision of the domain still has the role they did it with. */
  ghost predicate Standing(s: State, domainId: string) {
    VotersStand(s, domainId) && VetoersStand(s, domainId)
  }

  ghost predicate VotersStand(s: State, domainId: string) {
    forall i :: i in s.votes && s.votes[i].decisionId in s.decisions
                && s.decisions[s.votes[i].decisionId].domainId == domainId
      ==> HasRole(s, s.votes[i].voterId, domainId, s.votes[i].voterRole)
  }

  ghost predicate VetoersStand(s: State, domainId: string) {
    forall i :: i in s.vetoes && s.vetoes[i].decisionId in s.decisions
                && s.decisions[s.vetoes[i].decisionId].domainId == domainId
      ==> HasRole(s, s.vetoes[i].vetoedBy, domainId, s.vetoes[i].vetoedByRole)
  }

  /** No decision of the domain waits although everything it waits for has happened. */
  ghost predicate NoneStalled(s: State, domainId: string) {
    forall d :: d in s.decisions && s.decisions[d].domainId == domainId && s.decisions[d].status == AwaitingApproval
      ==> !AllRequiredApproved(s, d, domainId)
  }

  lemma RolesOfDomainStay(s: State, s': State, q: Request, domainId: string)
    requires Changes(s, s', q)
    requires q.RevokeRequest? ==> s.roles[q.assignmentId].domainId != domainId
    ensures forall u, role :: HasRole(s, u, domainId, role) ==> HasRole(s', u, domainId, role)
  {
    assert forall i :: i in s.roles && s.roles[i].domainId == domainId ==> i in s'.roles && s'.roles[i] == s.roles[i];
  }

  lemma ChangesKeepStanding(s: State, s': State, q: Request, domainId: string)
    requires Inv(s) && Standing(s, domainId) && Changes(s, s', q)
    requires q.RevokeRequest? ==> s.roles[q.assignmentId].domainId != domainId
    ensures Standing(s', domainId)
  {
    hide Changes, RowsLinked, VotersStand, VetoersStand;
    VotersKeepStanding(s, s', q, domainId);
    VetoersKeepStanding(s, s', q, domainId);
  }

  lemma VotersKeepStanding(s: State, s': State, q: Request, domainId: string)
    requires RowsLinked(s) && VotersStand(s, domainId) && Changes(s, s', q)
    requires q.RevokeRequest? ==> s.roles[q.assignmentId].domainId != domainId
    ensures VotersStand(s', domainId)
  {
    RolesOfDomainStay(s, s', q, domainId);
    hide HasVoted, IsAssigned, HasRole, StatusAfterVote;
  }

  lemma VetoersKeepStanding(s: State, s': State, q: Request, domainId: string)
    requires RowsLinked(s) && VetoersStand(s, domainId) && Changes(s, s', q)
    requires q.RevokeRequest? ==> s.roles[q.assignmentId].domainId != domainId
    ensures VetoersStand(s', domainId)
  {
    RolesOfDomainStay(s, s', q, domainId);
    hide HasVoted, IsAssigned, HasRole, StatusAfterVote;
  }

  lemma {:induction false} StandingInRun(hash: Hash, requests: seq<Request>, domainId: string)
    requires NoRevocation(hash, requests, domainId)
    ensures Standing(Run(hash, requests), domainId)
  {
    if requests != [] {
      var n := |requests| - 1;
      NoRevocationInFront(hash, requests, domainId, n);
      StandingInRun(hash, requests[..n], domainId);
      EveryRunKeepsInv(hash, requests[..n]);
      var s, q := Run(hash, requests[..n]), requests[n];
      if Attempt(hash, s, q).Success? {
        var s' := SuccessChanges(hash, s, q);
        assert !Revokes(hash, s, q, domainId);
        ChangesKeepStanding(s, s', q, domainId);
      }
    }
  }

  // ----- No stalled approvals -----

  lemma AssigningStallsNothing(s: State, s': State, q: Request, domainId: string)
    requires Inv(s) && Standing(s, domainId) && NoneStalled(s, domainId)
    requires q.AssignRequest? && Assigned(s, s', q)
    ensures NoneStalled(s', domainId)
  {
    forall d | d in s.decisions && s.decisions[d].domainId == domainId && s.decisions[d].status == AwaitingApproval
      ensures !AllRequiredApproved(s', d, domainId)
    {
      assert forall u :: HasApproved(s', d, u) <==> HasApproved(s, d, u);
      if q.userId in RequiredVoters(s'.roles, domainId) && q.domainId == domainId {
        NewcomerHasNotApproved(s, q, d);
      } else {
        SameRequired(s, s', q, domainId);
      }
    }
  }

  /** A user without a role in the domain has not approved any decision of it. */
  lemma NewcomerHasNotApproved(s: State, q: Request, d: string)
    requires q.AssignRequest? && Standing(s, q.domainId) && !IsAssigned(s, q.userId, q.domainId)
    requires d in s.decisions && s.decisions[d].domainId == q.domainId
    ensures !HasApproved(s, d, q.userId)
  {
  }

  lemma SameRequired(s: State, s': State, q: Request, domainId: string)
    requires q.AssignRequest? && q.assignmentId !in s.roles
    requires s'.roles == s.roles[q.assignmentId := Assignment(q.userId, q.domainId, q.role, q.assignedBy)]
    requires !(q.userId in RequiredVoters(s'.roles, domainId) && q.domainId == domainId)
    ensures RequiredVoters(s'.roles, domainId) == RequiredVoters(s.roles, domainId)
  {
    forall u | u in RequiredVoters(s'.roles, domainId) ensures u in RequiredVoters(s.roles, domainId) {
      var i :| i in s'.roles && s'.roles[i].domainId == domainId && s'.roles[i].role in REQUIRED_APPROVAL_ROLES
               && s'.roles[i].userId == u;
      assert i != q.assignmentId;
    }
    forall u | u in RequiredVoters(s.roles, domainId) ensures u in RequiredVoters(s'.roles, domainId) {
      var i :| i in s.roles && s.roles[i].domainId == domainId && s.roles[i].role in REQUIRED_APPROVAL_ROLES
               && s.roles[i].userId == u;
      assert s'.roles[i] == s.roles[i];
    }
  }

  lemma OtherChangesStallNothing(s: State, s': State, q: Request, domainId: string)
    requires Inv(s) && NoneStalled(s, domainId) && Changes(s, s', q) && !q.AssignRequest?
    requires q.RevokeRequest? ==> s.roles[q.assignmentId].domainId != domainId
    ensures NoneStalled(s', domainId)
  {
    forall d | d in s'.decisions && s'.decisions[d].domainId == domainId && s'.decisions[d].status == AwaitingApproval
      ensures !AllRequiredApproved(s', d, domainId)
    {
      hide Inv, NoneStalled, HasRole, HasVoted, AllRequiredApproved, Revoked;
      if q.VoteRequest? && q.decisionId == d && q.vote == Approve {
        ApprovalsFrame(s.(votes := s'.votes), s', d, domainId);
      } else {
        ApprovalsFrameOfChange(s, s', q, d, domainId);
        SubmittedHasNoApprovals(s, s', q, d, domainId);
      }
    }
  }

  /** Only an approving vote on the decision or a change of the domain's roles can complete its approvals. */
  lemma ApprovalsFrameOfChange(s: State, s': State, q: Request, d: string, domainId: string)
    requires Changes(s, s', q) && !q.AssignRequest?
    requires q.RevokeRequest? ==> s.roles[q.assignmentId].domainId != domainId
    requires q.VoteRequest? ==> !(q.decisionId == d && q.vote == Approve)
    ensures AllRequiredApproved(s', d, domainId) <==> AllRequiredApproved(s, d, domainId)
  {
    hide HasRole, HasVoted, AllRequiredApproved, StatusAfterVote;
    ApprovalsFrame(s, s', d, domainId);
  }

  lemma ChangesStallNothing(s: State, s': State, q: Request, domainId: string)
    requires Inv(s) && Standing(s, domainId) && NoneStalled(s, domainId) && Changes(s, s', q)
    requires q.RevokeRequest? ==> s.roles[q.assignmentId].domainId != domainId
    ensures NoneStalled(s', domainId)
  {
    if q.AssignRequest? {
      AssigningStallsNothing(s, s', q, domainId);
    } else {
      OtherChangesStallNothing(s, s', q, domainId);
    }
  }

  lemma SubmittedHasNoApprovals(s: State, s': State, q: Request, d: string, domainId: string)
    requires Inv(s) && NoneStalled(s, domainId) && Changes(s, s', q)
    requires d in s'.decisions && s'.decisions[d].domainId == domainId && s'.decisions[d].status == AwaitingApproval
    ensures !AllRequiredApproved(s, d, domainId)
  {
    hide HasRole, RowsUnique, RowsLinked, VetoWellFormed;
    if d in s.decisions {
      assert StatusFits(s, d);
    }
  }

  lemma ApprovalsFrame(s: State, s': State, d: string, domainId: string)
    requires forall i :: i in s.roles && s.roles[i].domainId == domainId ==> i in s'.roles && s'.roles[i] == s.roles[i]
    requires forall i :: i in s'.roles && s'.roles[i].domainId == domainId ==> i in s.roles && s'.roles[i] == s.roles[i]
    requires forall i :: i in s'.votes && s'.votes[i].decisionId == d && s'.votes[i].vote == Approve
               ==> i in s.votes && s.votes[i] == s'.votes[i]
    requires forall i :: i in s.votes ==> i in s'.votes && s'.votes[i] == s.votes[i]
    ensures AllRequiredApproved(s', d, domainId) <==> AllRequiredApproved(s, d, domainId)
  {
    assert RequiredVoters(s'.roles, domainId) == RequiredVoters(s.roles, domainId);
    assert forall u :: HasApproved(s', d, u) <==> HasApproved(s, d, u);
  }

  /** As long as no role of the domain is revoked, no decision of the domain waits in vain. */
  lemma {:induction false} NoStalledApprovals(hash: Hash, requests: seq<Request>, domainId: string)
    requires NoRevocation(hash, requests, domainId)
    ensures NoneStalled(Run(hash, requests), domainId)
  {
    if requests != [] {
      var n := |requests| - 1;
      NoRevocationInFront(hash, requests, domainId, n);
      NoStalledApprovals(hash, requests[..n], domainId);
      StandingInRun(hash, requests[..n], domainId);
      EveryRunKeepsInv(hash, requests[..n]);
      var s, q := Run(hash, requests[..n]), requests[n];
      if Attempt(hash, s, q).Success? {
        var s' := SuccessChanges(hash, s, q);
        assert !Revokes(hash, s, q, domainId);
        ChangesStallNothing(s, s', q, domainId);
      }
    }
  }

  /** Without a revocation up to then, the votes that completed an approval were cast as RESPONSIBLE or ACCOUNTABLE. */
  lemma RequiredVotesCarryRequiredRoles(hash: Hash, requests: seq<Request>, d: string, k: nat, i: string)
    requires k < |requests| && CompletesApproval(hash, requests, d, k)
    requires i in Run(hash, requests[..k + 1]).votes
    requires var s' := Run(hash, requests[..k + 1]);
             && d in s'.decisions && NoRevocation(hash, requests[..k + 1], s'.decisions[d].domainId)
             && s'.votes[i].decisionId == d
             && (|| HasRole(s', s'.votes[i].voterId, s'.decisions[d].domainId, Responsible)
                 || HasRole(s', s'.votes[i].voterId, s'.decisions[d].domainId, Accountable))
    ensures var role := Run(hash, requests[..k + 1]).votes[i].voterRole; role == Responsible || role == Accountable
  {
    var s' := Run(hash, requests[..k + 1]);
    var domainId := s'.decisions[d].domainId;
    StandingInRun(hash, requests[..k + 1], domainId);
    EveryRunKeepsInv(hash, requests[..k + 1]);
    assert HasRole(s', s'.votes[i].voterId, domainId, s'.votes[i].voterRole);
  }

  // ----- Overriding a veto -----

  /** Step `k` overrides the veto. */
  ghost predicate OverridesAt(hash: Hash, requests: seq<Request>, vetoId: string, k: nat)
    requires k < |requests|
  {
    && requests[k].OverrideRequest? && requests[k].vetoId == vetoId
    && Attempt(hash, Run(hash, requests[..k]), requests[k]).Success?
  }

  lemma {:induction false} StepThatOverrode(hash: Hash, requests: seq<Request>, vetoId: string) returns (k: nat)
    requires vetoId in Run(hash, requests).vetoes && Run(hash, requests).vetoes[vetoId].status == Overridden
    ensures k < |requests| && OverridesAt(hash, requests, vetoId, k)
  {
    hide Attempt;
    k := |requests| - 1;
    var front := requests[..k];
    var s, q := Run(hash, front), requests[k];
    EveryRunKeepsInv(hash, front);
    if vetoId in s.vetoes && s.vetoes[vetoId].status == Overridden {
      k := StepThatOverrode(hash, front, vetoId);
      assert front[..k] == requests[..k];
    } else {
      var s' := SuccessChanges(hash, s, q);
      OnlyOverridesOverride(s, s', q, vetoId);
    }
  }

  lemma OnlyOverridesOverride(s: State, s': State, q: Request, vetoId: string)
    requires Changes(s, s', q) && vetoId in s'.vetoes && s'.vetoes[vetoId].status == Overridden
    requires vetoId in s.vetoes ==> s.vetoes[vetoId].status != Overridden
    ensures q.OverrideRequest? && q.vetoId == vetoId
  {
  }

  /** What an overriding step tells about the final state. */
  lemma OverrideStepFacts(hash: Hash, requests: seq<Request>, vetoId: string, k: nat)
    requires k < |requests| && OverridesAt(hash, requests, vetoId, k)
    ensures var s, end := Run(hash, requests[..k]), Run(hash, requests);
            && vetoId in s.vetoes && s.vetoes[vetoId].status == Active && s.vetoes[vetoId].decisionId in s.decisions
            && HasRole(s, requests[k].overriddenBy, s.decisions[s.vetoes[vetoId].decisionId].domainId, Accountable)
            && vetoId in end.vetoes && end.vetoes[vetoId].status == Overridden
            && end.vetoes[vetoId].overriddenBy == Some(requests[k].overriddenBy)
            && end.vetoes[vetoId].vetoedByRole == Responsible
            && end.vetoes[vetoId].vetoedBy == s.vetoes[vetoId].vetoedBy
  {
    hide Attempt;
    OverrideAcceptedIff(hash, requests[..k], requests[k]);
    var s' := SuccessChanges(hash, Run(hash, requests[..k]), requests[k]);
    StepOfRun(hash, requests, k);
    RunsOnlyMoveForward(hash, requests, k + 1);
  }

  /**
    A veto is overridden exactly when one step of the run overrode it, and only one did: cast by a
    RESPONSIBLE, overridden by the recorded user, who was ACCOUNTABLE in the domain at that step.
   */
  lemma OverriddenIffOneAccountableDid(hash: Hash, requests: seq<Request>, vetoId: string)
    requires vetoId in Run(hash, requests).vetoes
    ensures var v := Run(hash, requests).vetoes[vetoId];
            v.status == Overridden <==> exists k :: 0 <= k < |requests| && OverridesAt(hash, requests, vetoId, k)
    ensures forall k, j | 0 <= k < |requests| && 0 <= j < |requests| ::
              OverridesAt(hash, requests, vetoId, k) && OverridesAt(hash, requests, vetoId, j) ==> j == k
    ensures Run(hash, requests).vetoes[vetoId].vetoedByRole == Accountable
            ==> Run(hash, requests).vetoes[vetoId].status == Active
  {
    hide Run, Attempt;
    if Run(hash, requests).vetoes[vetoId].status == Overridden {
      var k := StepThatOverrode(hash, requests, vetoId);
    }
    forall k | 0 <= k < |requests| && OverridesAt(hash, requests, vetoId, k)
      ensures Run(hash, requests).vetoes[vetoId].status == Overridden
      ensures forall j :: k < j < |requests| ==> !OverridesAt(hash, requests, vetoId, j)
    {
      OverrideStepFacts(hash, requests, vetoId, k);
      forall j | k < j < |requests| ensures !OverridesAt(hash, requests, vetoId, j) {
        OverriddenStays(hash, requests, vetoId, k, j);
      }
    }
    EveryRunKeepsInv(hash, requests);
    assert VetoWellFormed(Run(hash, requests).vetoes[vetoId]);
  }

  lemma OverriddenStays(hash: Hash, requests: seq<Request>, vetoId: string, k: nat, j: nat)
    requires k < j < |requests| && OverridesAt(hash, requests, vetoId, k)
    ensures !OverridesAt(hash, requests, vetoId, j)
  {
    var front := requests[..j];
    assert front[..k] == requests[..k];
    assert OverridesAt(hash, front, vetoId, k);
    OverrideStepFacts(hash, front, vetoId, k);
  }

  /** Unless a role of the domain was revoked before, nobody overrides their own veto. */
  lemma NobodyOverridesTheirOwnVeto(hash: Hash, requests: seq<Request>, vetoId: string)
    requires vetoId in Run(hash, requests).vetoes
    requires Run(hash, requests).vetoes[vetoId].decisionId in Run(hash, requests).decisions
    requires var end := Run(hash, requests);
             forall k :: 0 <= k < |requests| && OverridesAt(hash, requests, vetoId, k)
               ==> NoRevocation(hash, requests[..k], end.decisions[end.vetoes[vetoId].decisionId].domainId)
    ensures Run(hash, requests).vetoes[vetoId].overriddenBy != Some(Run(hash, requests).vetoes[vetoId].vetoedBy)
  {
    hide Attempt, Run, StatusesFit, RowsUnique, NoRevocation, OverridesAt;
    var end := Run(hash, requests);
    EveryRunKeepsInv(hash, requests);
    assert VetoWellFormed(end.vetoes[vetoId]);
    if end.vetoes[vetoId].status == Overridden {
      var k := StepThatOverrode(hash, requests, vetoId);
      OverrideStepFacts(hash, requests, vetoId, k);
      RunsOnlyMoveForward(hash, requests, k);
      var domainId := end.decisions[end.vetoes[vetoId].decisionId].domainId;
      StandingInRun(hash, requests[..k], domainId);
      EveryRunKeepsInv(hash, requests[..k]);
      VetoerIsNotAccountable(Run(hash, requests[..k]), vetoId, domainId);
    }
  }

  lemma VetoerIsNotAccountable(s: State, vetoId: string, domainId: string)
    requires Inv(s) && Standing(s, domainId)
    requires vetoId in s.vetoes && s.vetoes[vetoId].decisionId in s.decisions
    requires s.decisions[s.vetoes[vetoId].decisionId].domainId == domainId && s.vetoes[vetoId].vetoedByRole == Responsible
    ensures !HasRole(s, s.vetoes[vetoId].vetoedBy, domainId, Accountable)
  {
    assert HasRole(s, s.vetoes[vetoId].vetoedBy, domainId, Responsible);
  }
}
