/** How a decision comes to wait in vain: only a change of roles can do it, and exactly when. */
module Stalls {
  import opened Enums
  import opened Outcome
  import opened AuditChain
  import opened AuditTrail
  import opened Governance
  import opened Effects
  import opened Invariants
  import opened Histories

  /** Revoking a role takes exactly that user off the required voters of its domain. */
  lemma RequiredAfterRevocation(s: State, s': State, q: Request)
    requires RowsUnique(s) && q.RevokeRequest? && Revoked(s, s', q)
    ensures var row := s.roles[q.assignmentId];
            RequiredVoters(s'.roles, row.domainId) == RequiredVoters(s.roles, row.domainId) - {row.userId}
  {
    var row := s.roles[q.assignmentId];
    forall u | u in RequiredVoters(s.roles, row.domainId) && u != row.userId
      ensures u in RequiredVoters(s'.roles, row.domainId)
    {
      var i :| i in s.roles && s.roles[i].domainId == row.domainId && s.roles[i].role in REQUIRED_APPROVAL_ROLES
               && s.roles[i].userId == u;
      assert i in s'.roles;
    }
  }

  /**
    A revocation leaves a waiting decision of its domain with all required approvals, and still
    waiting, exactly when somebody else is required and everybody else required has approved.
   */
  lemma RevocationStallsIff(hash: Hash, requests: seq<Request>, q: Request, d: string)
    requires q.RevokeRequest? && Attempt(hash, Run(hash, requests), q).Success?
    requires var s := Run(hash, requests);
             && d in s.decisions && s.decisions[d].status == AwaitingApproval
             && q.assignmentId in s.roles && s.decisions[d].domainId == s.roles[q.assignmentId].domainId
    ensures var s, s' := Run(hash, requests), Next(hash, Run(hash, requests), q);
            var row := s.roles[q.assignmentId];
            var others := RequiredVoters(s.roles, row.domainId) - {row.userId};
            && d in s'.decisions && s'.decisions[d].status == AwaitingApproval
            && (AllRequiredApproved(s', d, row.domainId) <==>
                others != {} && forall u :: u in others ==> HasApproved(s, d, u))
  {
    hide Attempt;
    var s := Run(hash, requests);
    EveryRunKeepsInv(hash, requests);
    var s' := SuccessChanges(hash, s, q);
    RequiredAfterRevocation(s, s', q);
    assert forall u :: HasApproved(s', d, u) <==> HasApproved(s, d, u);
  }

  lemma RequiredAfterAssignment(s: State, s': State, q: Request)
    requires q.AssignRequest? && Assigned(s, s', q)
    ensures RequiredVoters(s'.roles, q.domainId) ==
            RequiredVoters(s.roles, q.domainId) + if q.role in REQUIRED_APPROVAL_ROLES then {q.userId} else {}
  {
    forall u | u in RequiredVoters(s.roles, q.domainId) ensures u in RequiredVoters(s'.roles, q.domainId) {
      var i :| i in s.roles && s.roles[i].domainId == q.domainId && s.roles[i].role in REQUIRED_APPROVAL_ROLES
               && s.roles[i].userId == u;
      assert s'.roles[i] == s.roles[i];
    }
    assert s'.roles[q.assignmentId].userId == q.userId;
  }

  /**
    An assignment leaves a waiting decision of its domain with all required approvals exactly when
    everybody required before has approved and so has the newcomer, if required: a user whose vote
    outlived an earlier assignment.
   */
  lemma AssignmentStallsIff(hash: Hash, requests: seq<Request>, q: Request, d: string)
    requires q.AssignRequest? && Attempt(hash, Run(hash, requests), q).Success?
    requires var s := Run(hash, requests);
             d in s.decisions && s.decisions[d].status == AwaitingApproval && s.decisions[d].domainId == q.domainId
    ensures var s, s' := Run(hash, requests), Next(hash, Run(hash, requests), q);
            var before := RequiredVoters(s.roles, q.domainId);
            && d in s'.decisions && s'.decisions[d].status == AwaitingApproval
            && (AllRequiredApproved(s', d, q.domainId) <==>
                && (forall u :: u in before ==> HasApproved(s, d, u))
                && if q.role in REQUIRED_APPROVAL_ROLES then HasApproved(s, d, q.userId) else before != {})
  {
    hide Attempt;
    var s := Run(hash, requests);
    var s' := SuccessChanges(hash, s, q);
    RequiredAfterAssignment(s, s', q);
    assert forall u :: HasApproved(s', d, u) <==> HasApproved(s, d, u);
  }

  /** The request makes somebody required who has already approved a waiting decision of the domain. */
  ghost predicate AssignsEarlierApprover(s: State, q: Request, domainId: string) {
    && q.AssignRequest? && q.domainId == domainId && q.role in REQUIRED_APPROVAL_ROLES
    && exists d :: d in s.decisions && s.decisions[d].domainId == domainId
                   && s.decisions[d].status == AwaitingApproval && HasApproved(s, d, q.userId)
  }

  /** Nothing but a revocation in the domain, or the assignment of an earlier approver, can stall a decision of it. */
  lemma OnlyRoleChangesStall(hash: Hash, requests: seq<Request>, q: Request, domainId: string)
    requires NoneStalled(Run(hash, requests), domainId)
    requires !NoneStalled(Next(hash, Run(hash, requests), q), domainId)
    ensures Revokes(hash, Run(hash, requests), q, domainId)
            || AssignsEarlierApprover(Run(hash, requests), q, domainId)
  {
    hide Attempt, Run, NoneStalled, Changes;
    var s := Run(hash, requests);
    EveryRunKeepsInv(hash, requests);
    var s' := SuccessChanges(hash, s, q);
    if q.AssignRequest? {
      if !AssignsEarlierApprover(s, q, domainId) {
        OtherAssignmentsStallNothing(s, s', q, domainId);
      }
    } else if !Revokes(hash, s, q, domainId) {
      RevokedElsewhere(s, s', q);
      OtherChangesStallNothing(s, s', q, domainId);
    }
  }

  lemma RevokedElsewhere(s: State, s': State, q: Request)
    requires Changes(s, s', q)
    ensures q.RevokeRequest? ==> q.assignmentId in s.roles
  {
  }

  lemma OtherAssignmentsStallNothing(s: State, s': State, q: Request, domainId: string)
    requires NoneStalled(s, domainId) && q.AssignRequest? && Changes(s, s', q)
    requires !AssignsEarlierApprover(s, q, domainId)
    ensures NoneStalled(s', domainId)
  {
    forall d | d in s.decisions && s.decisions[d].domainId == domainId && s.decisions[d].status == AwaitingApproval
      ensures !AllRequiredApproved(s', d, domainId)
    {
      assert forall u :: HasApproved(s', d, u) <==> HasApproved(s, d, u);
      if !(q.userId in RequiredVoters(s'.roles, domainId) && q.domainId == domainId) {
        SameRequired(s, s', q, domainId);
      } else {
        RequiredAfterAssignment(s, s', q);
      }
    }
  }

  // ----- A run that stalls -----

  const ANY_STAMP := Stamp("e", 0, 0)

  /** Two required users; one approves and the other's role is then revoked. */
  function StallingRequests(): seq<Request> {
    [CreateRequest("d", DataPromotion, "t", "", "sales", "u1", ANY_STAMP),
     SubmitRequest("d", "u1", ANY_STAMP),
     AssignRequest("r1", "u1", "sales", Responsible, "u1", ANY_STAMP),
     AssignRequest("r2", "u2", "sales", Accountable, "u1", ANY_STAMP),
     VoteRequest("v1", "d", "u1", Approve, "", ANY_STAMP, ANY_STAMP),
     RevokeRequest("r2", "u1", ANY_STAMP)]
  }

  lemma AssignAccepted(hash: Hash, s: State, q: Request)
    requires q.AssignRequest? && !IsAssigned(s, q.userId, q.domainId) && q.assignmentId !in s.roles
    requires ValidText(q.userId, 200) && ValidText(q.domainId, 100) && ValidText(q.assignedBy, 200)
    ensures Attempt(hash, s, q).Success?
  {
    LookupsMeetRows(s, "", q.userId, q.domainId);
  }

  ghost predicate Waiting(s: State) {
    && s.decisions == map["d" := Decision(DataPromotion, "t", "", "sales", "u1", AwaitingApproval)]
    && s.votes == map[] && s.vetoes == map[]
  }

  lemma StallingSetup(hash: Hash)
    ensures var s := Run(hash, StallingRequests()[..2]);
            Waiting(s) && s.roles == map[]
  {
    var q := StallingRequests();
    StepOfRun(hash, q, 0);
    StepOfRun(hash, q, 1);
    assert Run(hash, q[..0]) == EMPTY;
    var s1 := SuccessChanges(hash, EMPTY, q[0]);
    assert s1.decisions == map["d" := Decision(DataPromotion, "t", "", "sales", "u1", Pending)];
    var s2 := SuccessChanges(hash, s1, q[1]);
  }

  const ROW1 := Assignment("u1", "sales", Responsible, "u1")
  const ROW2 := Assignment("u2", "sales", Accountable, "u1")

  lemma StallingRoles(hash: Hash)
    ensures var s := Run(hash, StallingRequests()[..4]);
            Waiting(s) && s.roles == map["r1" := ROW1, "r2" := ROW2]
  {
    hide Attempt, Run;
    var q := StallingRequests();
    StallingSetup(hash);
    StepOfRun(hash, q, 2);
    StepOfRun(hash, q, 3);
    var s2 := Run(hash, q[..2]);
    AssignAccepted(hash, s2, q[2]);
    var s3 := SuccessChanges(hash, s2, q[2]);
    assert s3.roles == map["r1" := ROW1];
    assert "u1"[1] == '1' && "u2"[1] == '2' && "r1"[1] == '1' && "r2"[1] == '2';
    AssignAccepted(hash, s3, q[3]);
    var s4 := SuccessChanges(hash, s3, q[3]);
  }

  /** With a revocation the property fails: a decision waits with every required approval present. */
  lemma RevocationCanStall(hash: Hash)
    ensures !NoneStalled(Run(hash, StallingRequests()), "sales")
  {
    hide Attempt, Run;
    var q := StallingRequests();
    StallingRoles(hash);
    StepOfRun(hash, q, 4);
    StepOfRun(hash, q, 5);
    assert q[..6] == q;
    var s4 := Run(hash, q[..4]);
    VoteIsStored(hash, s4);
    var s5 := Run(hash, q[..5]);
    var s6 := SuccessChanges(hash, s5, q[5]);
    assert s6.roles == map["r1" := ROW1];
    assert s6.votes["v1"].voterId == "u1" && s6.roles["r1"].userId == "u1";
    assert HasApproved(s6, "d", "u1");
    assert RequiredVoters(s6.roles, "sales") == {"u1"};
    assert AllRequiredApproved(s6, "d", "sales");
    assert "d" in s6.decisions && s6.decisions["d"].status == AwaitingApproval && s6.decisions["d"].domainId == "sales";
    assert Run(hash, q[..5 + 1]) == s6;
  }

  lemma VoteIsStored(hash: Hash, s: State)
    requires Waiting(s) && s.roles == map["r1" := ROW1, "r2" := ROW2]
    ensures var s' := Next(hash, s, StallingRequests()[4]);
            && s'.decisions == s.decisions && s'.roles == s.roles
            && s'.votes == map["v1" := Vote("d", "u1", Responsible, Approve, "")]
            && Attempt(hash, s', StallingRequests()[5]).Success?
  {
    hide GetAssignment, GetVote, RequiredVoters, ApprovedVoters, Entry;
    assert "u1"[1] == '1' && "u2"[1] == '2';
    StalledLookups(s);
  }

  lemma StalledLookups(s: State)
    requires Waiting(s) && s.roles == map["r1" := ROW1, "r2" := ROW2]
    ensures GetAssignment(s.roles, "u1", "sales") == Success(Some(ROW1))
    ensures GetVote(s.votes, "d", "u1") == Success(None)
    ensures "u2" in RequiredVoters(s.roles, "sales")
    ensures "u2" !in ApprovedVoters(s.votes["v1" := Vote("d", "u1", Responsible, Approve, "")], "d")
  {
    assert "u1"[1] == '1' && "u2"[1] == '2' && "r1"[1] == '1' && "r2"[1] == '2';
    assert RoleRows(s.roles, "u1", "sales") == {"r1"};
    assert VoteRows(s.votes, "d", "u1") == {};
    assert s.roles["r2"].role == Accountable;
  }
}
