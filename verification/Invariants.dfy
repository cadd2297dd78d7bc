/** What every run of the governance engine keeps. */
module Invariants {
  import opened Enums
  import opened Outcome
  import opened AuditChain
  import opened Governance
  import opened Effects

  // ----- The invariant -----

  /** At most one vote per decision and voter, and one live assignment per user and domain. */
  ghost predicate RowsUnique(s: State) {
    && (forall i, j | i in s.votes && j in s.votes ::
          s.votes[i].decisionId == s.votes[j].decisionId && s.votes[i].voterId == s.votes[j].voterId ==> i == j)
    && (forall i, j | i in s.roles && j in s.roles ::
          s.roles[i].userId == s.roles[j].userId && s.roles[i].domainId == s.roles[j].domainId ==> i == j)
  }

  ghost predicate RowsLinked(s: State) {
    && (forall i :: i in s.votes ==> s.votes[i].decisionId in s.decisions)
    && (forall i :: i in s.vetoes ==> s.vetoes[i].decisionId in s.decisions)
    && (forall i :: i in s.roles ==> ValidText(s.roles[i].userId, 200))
  }

  /** A veto was cast by a role that may veto; it is either active or overridden, and only a RESPONSIBLE's can be. */
  ghost predicate VetoWellFormed(v: Veto) {
    && v.vetoedByRole in VETO_ELIGIBLE_ROLES
    && (v.status == Active || v.status == Overridden)
    && (v.status == Overridden <==> v.overriddenBy.Some?)
    && (v.status == Overridden ==> v.vetoedByRole == Responsible)
  }

  ghost predicate NoVotes(s: State, d: string) {
    forall i :: i in s.votes ==> s.votes[i].decisionId != d
  }

  ghost predicate NoReject(s: State, d: string) {
    forall i :: i in s.votes && s.votes[i].decisionId == d ==> s.votes[i].vote != Reject
  }

  ghost predicate IsOnlyReject(s: State, d: string, i: string) {
    && i in s.votes && s.votes[i].decisionId == d && s.votes[i].vote == Reject
    && forall j :: j in s.votes && s.votes[j].decisionId == d && s.votes[j].vote == Reject ==> j == i
  }

  ghost predicate NoVeto(s: State, d: string) {
    forall i :: i in s.vetoes ==> s.vetoes[i].decisionId != d
  }

  ghost predicate IsOnlyVeto(s: State, d: string, i: string) {
    && i in s.vetoes && s.vetoes[i].decisionId == d
    && forall j :: j in s.vetoes && s.vetoes[j].decisionId == d ==> j == i
  }

  /** The votes and vetoes a decision may have in its status. */
  ghost predicate StatusFits(s: State, d: string)
    requires d in s.decisions
  {
    match s.decisions[d].status
    case Pending => NoVotes(s, d) && NoVeto(s, d)
    case AwaitingApproval => NoReject(s, d) && NoVeto(s, d)
    case Approved => NoReject(s, d) && NoVeto(s, d)
    case Rejected => (exists i :: IsOnlyReject(s, d, i)) && NoVeto(s, d)
    case Vetoed => NoReject(s, d) && (exists i :: IsOnlyVeto(s, d, i))
    case Escalated => false
  }

  ghost predicate StatusesFit(s: State) {
    forall d :: d in s.decisions ==> StatusFits(s, d)
  }

  ghost predicate Inv(s: State) {
    && RowsUnique(s) && RowsLinked(s) && StatusesFit(s)
    && (forall i :: i in s.vetoes ==> VetoWellFormed(s.vetoes[i]))
  }

  // ----- Preservation -----

  /** A decision whose status, votes and vetoes are untouched still fits its status. */
  lemma StatusFitsFrame(s: State, s': State, d: string)
    requires d in s.decisions && StatusFits(s, d)
    requires d in s'.decisions && s'.decisions[d].status == s.decisions[d].status
    requires forall i :: i in s'.votes && s'.votes[i].decisionId == d ==> i in s.votes && s.votes[i] == s'.votes[i]
    requires forall i :: i in s.votes ==> i in s'.votes && s.votes[i] == s'.votes[i]
    requires forall i :: i in s.vetoes && s.vetoes[i].decisionId == d ==> i in s'.vetoes && s'.vetoes[i].decisionId == d
    requires forall i :: i in s'.vetoes && s'.vetoes[i].decisionId == d ==> i in s.vetoes && s.vetoes[i].decisionId == d
    ensures StatusFits(s', d)
  {
    if s.decisions[d].status == Rejected {
      var i :| IsOnlyReject(s, d, i);
      assert IsOnlyReject(s', d, i);
    } else if s.decisions[d].status == Vetoed {
      var i :| IsOnlyVeto(s, d, i);
      assert IsOnlyVeto(s', d, i);
    }
  }

  lemma DecisionsKeepStatuses(s: State, s': State, q: Request)
    requires Inv(s) && Changes(s, s', q) && (q.CreateRequest? || q.SubmitRequest?)
    ensures StatusesFit(s')
  {
    forall d | d in s'.decisions ensures StatusFits(s', d) {
      assert d in s.decisions ==> StatusFits(s, d);
      if d != q.decisionId {
        StatusFitsFrame(s, s', d);
      }
    }
  }

  lemma VoteKeepsStatuses(s: State, s': State, q: Request)
    requires Inv(s) && Changes(s, s', q) && q.VoteRequest?
    ensures StatusesFit(s')
  {
    hide HasRole, HasVoted, AllRequiredApproved, RowsUnique, VetoWellFormed;
    forall d | d in s'.decisions ensures StatusFits(s', d) {
      assert StatusFits(s, d);
      if d != q.decisionId {
        StatusFitsFrame(s, s', d);
      } else if q.vote == Reject {
        assert IsOnlyReject(s', d, q.voteId);
      }
    }
  }

  lemma VetoKeepsStatuses(s: State, s': State, q: Request)
    requires Inv(s) && Changes(s, s', q) && q.VetoRequest?
    ensures StatusesFit(s')
  {
    hide HasRole, RowsUnique, VetoWellFormed;
    forall d | d in s'.decisions ensures StatusFits(s', d) {
      assert StatusFits(s, d);
      if d != q.decisionId {
        StatusFitsFrame(s, s', d);
      } else {
        assert IsOnlyVeto(s', d, q.vetoId);
      }
    }
  }

  lemma OthersKeepStatuses(s: State, s': State, q: Request)
    requires Inv(s) && Changes(s, s', q) && (q.OverrideRequest? || q.AssignRequest? || q.RevokeRequest?)
    ensures StatusesFit(s')
  {
    hide HasRole, IsAssigned, RowsUnique, VetoWellFormed;
    forall d | d in s'.decisions ensures StatusFits(s', d) {
      assert StatusFits(s, d);
      StatusFitsFrame(s, s', d);
    }
  }

  lemma ChangesKeepRows(s: State, s': State, q: Request)
    requires Inv(s) && Changes(s, s', q)
    ensures RowsUnique(s') && RowsLinked(s')
  {
    hide HasRole, AllRequiredApproved, StatusFits, VetoWellFormed;
  }

  lemma ChangesKeepVetoes(s: State, s': State, q: Request)
    requires Inv(s) && Changes(s, s', q)
    ensures forall i :: i in s'.vetoes ==> VetoWellFormed(s'.vetoes[i])
  {
    hide HasRole, HasVoted, IsAssigned, AllRequiredApproved, StatusFits, RowsUnique, RowsLinked;
  }

  lemma ChangesKeepInv(s: State, s': State, q: Request)
    requires Inv(s) && Changes(s, s', q)
    ensures Inv(s')
  {
    hide Changes, StatusesFit, RowsUnique, RowsLinked, VetoWellFormed;
    ChangesKeepRows(s, s', q);
    ChangesKeepVetoes(s, s', q);
    match q
    case CreateRequest(_, _, _, _, _, _, _) => DecisionsKeepStatuses(s, s', q);
    case SubmitRequest(_, _, _) => DecisionsKeepStatuses(s, s', q);
    case VoteRequest(_, _, _, _, _, _, _) => VoteKeepsStatuses(s, s', q);
    case VetoRequest(_, _, _, _, _, _, _) => VetoKeepsStatuses(s, s', q);
    case OverrideRequest(_, _, _) => OthersKeepStatuses(s, s', q);
    case AssignRequest(_, _, _, _, _, _) => OthersKeepStatuses(s, s', q);
    case RevokeRequest(_, _, _) => OthersKeepStatuses(s, s', q);
  }

  lemma NextKeepsInv(hash: Hash, s: State, q: Request)
    requires Inv(s)
    ensures Inv(Next(hash, s, q))
  {
    hide Attempt, Inv, Changes;
    if Attempt(hash, s, q).Success? {
      var s' := SuccessChanges(hash, s, q);
      ChangesKeepInv(s, s', q);
    }
  }

  lemma {:induction false} EveryRunKeepsInv(hash: Hash, requests: seq<Request>)
    ensures Inv(Run(hash, requests))
  {
    if requests != [] {
      EveryRunKeepsInv(hash, requests[..|requests| - 1]);
      NextKeepsInv(hash, Run(hash, requests[..|requests| - 1]), requests[|requests| - 1]);
    }
  }

  // ----- Status, votes and vetoes exclude each other -----

  ghost function RejectVotes(s: State, d: string): set<string> {
    set i | i in s.votes && s.votes[i].decisionId == d && s.votes[i].vote == Reject
  }

  ghost function VotesOn(s: State, d: string): set<string> {
    set i | i in s.votes && s.votes[i].decisionId == d
  }

  ghost function VetoesOn(s: State, d: string): set<string> {
    set i | i in s.vetoes && s.vetoes[i].decisionId == d
  }

  lemma StatusDeterminesVotesAndVetoes(hash: Hash, requests: seq<Request>, d: string)
    requires d in Run(hash, requests).decisions
    ensures var s := Run(hash, requests);
            var status := s.decisions[d].status;
            && status != Escalated
            && (status == Pending ==> VotesOn(s, d) == {})
            && |RejectVotes(s, d)| == (if status == Rejected then 1 else 0)
            && |VetoesOn(s, d)| == (if status == Vetoed then 1 else 0)
  {
    var s := Run(hash, requests);
    EveryRunKeepsInv(hash, requests);
    assert StatusFits(s, d);
    if s.decisions[d].status == Rejected {
      var i :| IsOnlyReject(s, d, i);
      assert RejectVotes(s, d) == {i};
    } else {
      assert RejectVotes(s, d) == {};
    }
    if s.decisions[d].status == Vetoed {
      var i :| IsOnlyVeto(s, d, i);
      assert VetoesOn(s, d) == {i};
    } else {
      assert VetoesOn(s, d) == {};
    }
  }

  // ----- Single-row lookups -----

  lemma AtMostOne(ids: set<string>)
    requires forall i, j :: i in ids && j in ids ==> i == j
    ensures |ids| <= 1
  {
    if ids != {} {
      var i :| i in ids;
      assert ids == {i};
    }
  }

  lemma LookupsSucceed(s: State, decisionId: string, userId: string, domainId: string)
    requires RowsUnique(s)
    ensures GetVote(s.votes, decisionId, userId).Success?
    ensures GetAssignment(s.roles, userId, domainId).Success?
  {
    AtMostOne(VoteRows(s.votes, decisionId, userId));
    AtMostOne(RoleRows(s.roles, userId, domainId));
  }

  /** In no run does a request fail because a single-row lookup met two rows. */
  lemma LookupsNeverMeetTwoRows(hash: Hash, requests: seq<Request>, q: Request)
    ensures Attempt(hash, Run(hash, requests), q) != Failure(MultipleRows)
  {
    var s := Run(hash, requests);
    EveryRunKeepsInv(hash, requests);
    if q.VoteRequest? {
      VoteLookupsSucceed(hash, s, q);
    } else if q.VetoRequest? || q.OverrideRequest? || q.AssignRequest? {
      RoleLookupsSucceed(hash, s, q);
    }
  }

  lemma VoteLookupsSucceed(hash: Hash, s: State, q: Request)
    requires Inv(s) && q.VoteRequest?
    ensures Attempt(hash, s, q) != Failure(MultipleRows)
  {
    if q.decisionId in s.decisions {
      LookupsSucceed(s, q.decisionId, q.voterId, s.decisions[q.decisionId].domainId);
    }
  }

  lemma RoleLookupsSucceed(hash: Hash, s: State, q: Request)
    requires Inv(s) && (q.VetoRequest? || q.OverrideRequest? || q.AssignRequest?)
    ensures Attempt(hash, s, q) != Failure(MultipleRows)
  {
    hide GetAssignment, RowsUnique, StatusesFit, VetoWellFormed;
    match q
    case VetoRequest(_, d, u, _, _, _, _) => if d in s.decisions { LookupsSucceed(s, d, u, s.decisions[d].domainId); }
    case OverrideRequest(v, u, _) =>
      if v in s.vetoes { LookupsSucceed(s, "", u, s.decisions[s.vetoes[v].decisionId].domainId); }
    case AssignRequest(_, u, domainId, _, _, _) => LookupsSucceed(s, "", u, domainId);
  }

  /** The role a lookup returns is the one the user has. */
  lemma LookupReturnsRole(s: State, userId: string, domainId: string, role: RACIRole)
    requires RowsUnique(s)
    ensures HasRole(s, userId, domainId, role) <==>
            GetAssignment(s.roles, userId, domainId).Success?
            && GetAssignment(s.roles, userId, domainId).value.Some?
            && GetAssignment(s.roles, userId, domainId).value.value.role == role
  {
    LookupsSucceed(s, "", userId, domainId);
    LookupsMeetRows(s, "", userId, domainId);
    var ids := RoleRows(s.roles, userId, domainId);
    if HasRole(s, userId, domainId, role) {
      var i :| i in s.roles && s.roles[i].userId == userId && s.roles[i].domainId == domainId && s.roles[i].role == role;
      assert i in ids;
    }
    if GetAssignment(s.roles, userId, domainId).value.Some? {
      var j :| j in s.roles && ids == {j} && GetAssignment(s.roles, userId, domainId).value.value == s.roles[j];
      assert j in ids;
    }
  }

  // ----- When a call succeeds -----

  /**
    In every reachable state a vote is accepted exactly when its decision awaits approval, the voter
    has some role in the decision's domain and has not voted on it (and the row's id is new).
   */
  lemma VoteAcceptedIff(hash: Hash, requests: seq<Request>, q: Request)
    requires q.VoteRequest?
    ensures var s := Run(hash, requests);
            Attempt(hash, s, q).Success? <==>
            && q.decisionId in s.decisions && s.decisions[q.decisionId].status == AwaitingApproval
            && IsAssigned(s, q.voterId, s.decisions[q.decisionId].domainId)
            && !HasVoted(s, q.decisionId, q.voterId)
            && q.voteId !in s.votes
  {
    var s := Run(hash, requests);
    EveryRunKeepsInv(hash, requests);
    if q.decisionId in s.decisions {
      LookupsSucceed(s, q.decisionId, q.voterId, s.decisions[q.decisionId].domainId);
      LookupsMeetRows(s, q.decisionId, q.voterId, s.decisions[q.decisionId].domainId);
    }
  }

  /** A veto is accepted exactly when the decision awaits approval and the user is RESPONSIBLE or ACCOUNTABLE. */
  lemma VetoAcceptedIff(hash: Hash, requests: seq<Request>, q: Request)
    requires q.VetoRequest?
    ensures var s := Run(hash, requests);
            Attempt(hash, s, q).Success? <==>
            && q.decisionId in s.decisions && s.decisions[q.decisionId].status == AwaitingApproval
            && (|| HasRole(s, q.vetoedBy, s.decisions[q.decisionId].domainId, Responsible)
                || HasRole(s, q.vetoedBy, s.decisions[q.decisionId].domainId, Accountable))
            && q.reason != "" && q.vetoId !in s.vetoes
  {
    hide Run, GetAssignment, RowsUnique, StatusesFit, VetoWellFormed;
    var s := Run(hash, requests);
    EveryRunKeepsInv(hash, requests);
    if q.decisionId in s.decisions {
      var domainId := s.decisions[q.decisionId].domainId;
      LookupsSucceed(s, q.decisionId, q.vetoedBy, domainId);
      LookupsMeetRows(s, q.decisionId, q.vetoedBy, domainId);
      LookupReturnsRole(s, q.vetoedBy, domainId, Responsible);
      LookupReturnsRole(s, q.vetoedBy, domainId, Accountable);
    }
  }

  /** After any run an assignment succeeds exactly for a user without one in the domain, given valid texts and a new id. */
  lemma AssignAcceptedIff(hash: Hash, requests: seq<Request>, q: Request)
    requires q.AssignRequest?
    ensures var s := Run(hash, requests);
            Attempt(hash, s, q).Success? <==>
            && !IsAssigned(s, q.userId, q.domainId) && q.assignmentId !in s.roles
            && 1 <= |q.userId| <= 200 && 1 <= |q.domainId| <= 100 && 1 <= |q.assignedBy| <= 200
  {
    var s := Run(hash, requests);
    EveryRunKeepsInv(hash, requests);
    LookupsSucceed(s, "", q.userId, q.domainId);
    LookupsMeetRows(s, "", q.userId, q.domainId);
  }

  /** Anybody may revoke any stored assignment. */
  lemma RevokeAcceptedIff(hash: Hash, requests: seq<Request>, q: Request)
    requires q.RevokeRequest?
    ensures var s := Run(hash, requests);
            Attempt(hash, s, q).Success? <==> q.assignmentId in s.roles && 1 <= |q.revokedBy| <= 200
  {
  }

  /** A decision is created exactly when its texts fit their columns and its id is new. */
  lemma CreateAcceptedIff(hash: Hash, requests: seq<Request>, q: Request)
    requires q.CreateRequest?
    ensures var s := Run(hash, requests);
            Attempt(hash, s, q).Success? <==>
            && 1 <= |q.title| <= 500 && 1 <= |q.domainId| <= 100 && 1 <= |q.createdBy| <= 200
            && q.decisionId !in s.decisions
  {
  }

  /** Anybody may submit a stored decision that is pending. */
  lemma SubmitAcceptedIff(hash: Hash, requests: seq<Request>, q: Request)
    requires q.SubmitRequest?
    ensures var s := Run(hash, requests);
            Attempt(hash, s, q).Success? <==>
            && q.decisionId in s.decisions && s.decisions[q.decisionId].status == Pending && 1 <= |q.actorId| <= 200
  {
  }

  /** Overriding succeeds exactly for an ACCOUNTABLE of the domain against an active veto cast by a RESPONSIBLE. */
  lemma OverrideAcceptedIff(hash: Hash, requests: seq<Request>, q: Request)
    requires q.OverrideRequest?
    ensures var s := Run(hash, requests);
            Attempt(hash, s, q).Success? <==>
            && q.vetoId in s.vetoes && s.vetoes[q.vetoId].status == Active
            && s.vetoes[q.vetoId].vetoedByRole == Responsible
            && s.vetoes[q.vetoId].decisionId in s.decisions
            && HasRole(s, q.overriddenBy, s.decisions[s.vetoes[q.vetoId].decisionId].domainId, Accountable)
  {
    var s := Run(hash, requests);
    EveryRunKeepsInv(hash, requests);
    if q.vetoId in s.vetoes {
      var domainId := s.decisions[s.vetoes[q.vetoId].decisionId].domainId;
      LookupsSucceed(s, "", q.overriddenBy, domainId);
      LookupsMeetRows(s, "", q.overriddenBy, domainId);
      LookupReturnsRole(s, q.overriddenBy, domainId, Accountable);
      assert VetoWellFormed(s.vetoes[q.vetoId]);
    }
  }
}
