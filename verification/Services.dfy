/**
  The services over one shared database, and the API that runs each call in a transaction.

  Every method is proved to do what the function of the same name in `Governance` says: it raises
  the same error, or leaves the database in the same state.  A service that raises may already have
  written; only `Api.Handle` undoes that.
 */
module Services {
  import opened Enums
  import opened Outcome
  import opened AuditChain
  import opened AuditTrail
  import Spec = Governance

  class Database {
    var decisions: map<string, Spec.Decision>
    var votes: map<string, Spec.Vote>
    var vetoes: map<string, Spec.Veto>
    var roles: map<string, Spec.Assignment>
    var log: seq<AuditEvent>

    ghost function State(): Spec.State
      reads this
    {
      Spec.State(decisions, votes, vetoes, roles, log)
    }

    constructor ()
      ensures State() == Spec.EMPTY
    {
      decisions, votes, vetoes, roles, log := map[], map[], map[], map[], [];
    }
  }

  /** A method's result and the state it leaves agree with what the call means. */
  ghost predicate Agrees<T>(r: Result<T>, meaning: Result<Spec.State>, now: Spec.State) {
    if meaning.Success? then r.Success? && now == meaning.value else r.Failure? && r.error == meaning.error
  }

  class AuditService {
    const db: Database
    const hash: Hash

    constructor (db: Database, hash: Hash)
      ensures this.db == db && this.hash == hash
    {
      this.db, this.hash := db, hash;
    }

    method RecordEvent(draft: Draft, stamp: Stamp) returns (r: Result<AuditEvent>)
      modifies db`log
      ensures Agrees(r, Spec.RecordEvent(hash, old(db.State()), draft, stamp), db.State())
      ensures r.Success? <==> 1 <= |draft.actorId| <= 200
      ensures r.Success? ==> db.log == old(db.log) + [r.value] && r.value.Verify(hash)
      ensures r.Success? ==> r.value.id == stamp.id && r.value.content.occurredAt == stamp.at && DraftOf(r.value) == draft
    {
      if !Spec.ValidText(draft.actorId, 200) {
        return Failure(InvalidField);
      }
      var event := Entry(hash, db.log, draft, stamp);
      db.log := db.log + [event];
      return Success(event);
    }

    /** Checks what a query for the first `limit` rows in order of time returns, whichever order it prefers. */
    method VerifyIntegrity(limit: nat, preferred: seq<AuditEvent>) returns (ok: bool)
      ensures ok <==> ValidChain(hash, GetChain(db.log, limit, preferred))
    {
      ok := VerifyChain(hash, GetChain(db.log, limit, preferred));
    }
  }

  class DecisionService {
    const db: Database
    const audit: AuditService

    ghost predicate Wired() {
      audit.db == db
    }

    constructor (db: Database, audit: AuditService)
      ensures this.db == db && this.audit == audit
    {
      this.db, this.audit := db, audit;
    }

    method CreateDecision(id: string, decisionType: DecisionType, title: string, description: string,
                          domainId: string, createdBy: string, stamp: Stamp)
      returns (r: Result<Spec.Decision>)
      requires Wired()
      modifies db
      ensures Agrees(r, Spec.CreateDecision(audit.hash, old(db.State()), id, decisionType, title, description,
                                            domainId, createdBy, stamp), db.State())
      ensures r.Success? <==>
              && 1 <= |title| <= 500 && 1 <= |domainId| <= 100 && 1 <= |createdBy| <= 200 && id !in old(db.decisions)
      ensures r.Success? ==> id in db.decisions && db.decisions[id] == r.value
    {
      if !Spec.ValidText(title, 500) || !Spec.ValidText(domainId, 100) || !Spec.ValidText(createdBy, 200) {
        return Failure(InvalidField);
      }
      if id in db.decisions {
        return Failure(DuplicateKey);
      }
      var decision := Spec.Decision(decisionType, title, description, domainId, createdBy, Pending);
      db.decisions := db.decisions[id := decision];
      var event := audit.RecordEvent(Spec.CreatedDraft(id, title, createdBy), stamp);
      assert event.Success?;
      return Success(decision);
    }

    method SubmitForApproval(decisionId: string, actorId: string, stamp: Stamp) returns (r: Result<Spec.Decision>)
      requires Wired()
      modifies db
      ensures Agrees(r, Spec.SubmitForApproval(audit.hash, old(db.State()), decisionId, actorId, stamp), db.State())
      ensures r.Success? <==>
              && decisionId in old(db.decisions) && old(db.decisions)[decisionId].status == Pending
              && 1 <= |actorId| <= 200
      ensures r.Success? ==> decisionId in db.decisions && db.decisions[decisionId] == r.value
    {
      if decisionId !in db.decisions {
        return Failure(NotFound);
      }
      var decision := db.decisions[decisionId];
      if decision.status != Pending {
        return Failure(WrongStatus);
      }
      decision := decision.(status := AwaitingApproval);
      db.decisions := db.decisions[decisionId := decision];
      var _ :- audit.RecordEvent(Spec.SubmittedDraft(decisionId, decision.title, actorId), stamp);
      return Success(decision);
    }

    method Finalize(decisionId: string, status: DecisionStatus, actorId: string, stamp: Stamp)
      returns (r: Result<Spec.Decision>)
      requires Wired()
      modifies db
      ensures Agrees(r, Spec.Finalize(audit.hash, old(db.State()), decisionId, status, actorId, stamp), db.State())
      ensures r.Success? ==> decisionId in db.decisions && db.decisions[decisionId] == r.value
    {
      if decisionId !in db.decisions {
        return Failure(NotFound);
      }
      var decision := db.decisions[decisionId];
      if decision.status != AwaitingApproval {
        return Failure(WrongStatus);
      }
      if status !in Spec.FINAL_STATUSES {
        return Failure(BadFinalStatus);
      }
      decision := decision.(status := status);
      db.decisions := db.decisions[decisionId := decision];
      var _ :- audit.RecordEvent(Spec.FinalDraft(decisionId, decision.title, status, actorId), stamp);
      return Success(decision);
    }
  }

  class ApprovalService {
    const db: Database
    const decisionService: DecisionService
    const audit: AuditService

    ghost predicate Wired() {
      audit.db == db && decisionService.db == db && decisionService.audit == audit
    }

    constructor (db: Database, decisionService: DecisionService, audit: AuditService)
      ensures this.db == db && this.decisionService == decisionService && this.audit == audit
    {
      this.db, this.decisionService, this.audit := db, decisionService, audit;
    }

    /** Once the vote is stored nothing raises: the nested finalisation finds its guards satisfied. */
    method CastVote(voteId: string, decisionId: string, voterId: string, vote: VoteValue, comment: string,
                    stamp: Stamp, finalStamp: Stamp)
      returns (r: Result<Spec.Vote>)
      requires Wired()
      modifies db
      ensures Agrees(r, Spec.CastVote(audit.hash, old(db.State()), voteId, decisionId, voterId, vote, comment,
                                      stamp, finalStamp), db.State())
      ensures r.Success? ==> voteId in db.votes && db.votes[voteId] == r.value
      ensures r.Failure? ==> db.State() == old(db.State())
    {
      if decisionId !in db.decisions {
        return Failure(NotFound);
      }
      var decision := db.decisions[decisionId];
      if decision.status != AwaitingApproval {
        return Failure(WrongStatus);
      }
      var assignment :- Spec.GetAssignment(db.roles, voterId, decision.domainId);
      if assignment.None? {
        return Failure(NoRole);
      }
      var existing :- Spec.GetVote(db.votes, decisionId, voterId);
      if existing.Some? {
        return Failure(AlreadyVoted);
      }
      if !Spec.ValidText(voterId, 200) {
        return Failure(InvalidField);
      }
      if voteId in db.votes {
        return Failure(DuplicateKey);
      }
      var record := Spec.Vote(decisionId, voterId, assignment.value.role, vote, comment);
      db.votes := db.votes[voteId := record];
      var event := audit.RecordEvent(Spec.CastDraft(decisionId, record), stamp);
      assert event.Success?;
      if vote == Reject {
        var rejected := decisionService.Finalize(decisionId, Rejected, voterId, finalStamp);
        assert rejected.Success?;
      } else if vote == Approve {
        var checked := CheckAndFinalize(decisionId, decision.domainId, finalStamp);
        assert checked.Success?;
      }
      return Success(record);
    }

    method CheckAndFinalize(decisionId: string, domainId: string, stamp: Stamp) returns (r: Result<()>)
      requires Wired()
      modifies db
      ensures Agrees(r, Spec.CheckAndFinalize(audit.hash, old(db.State()), decisionId, domainId, stamp), db.State())
      ensures r.Success? ==> db.votes == old(db.votes)
    {
      var required := Spec.RequiredVoters(db.roles, domainId);
      if required == {} {
        return Success(());
      }
      var approved := Spec.ApprovedVoters(db.votes, decisionId);
      if required <= approved {
        var _ :- decisionService.Finalize(decisionId, Approved, Spec.SYSTEM, stamp);
      }
      return Success(());
    }
  }

  class VetoService {
    const db: Database
    const decisionService: DecisionService
    const audit: AuditService

    ghost predicate Wired() {
      audit.db == db && decisionService.db == db && decisionService.audit == audit
    }

    constructor (db: Database, decisionService: DecisionService, audit: AuditService)
      ensures this.db == db && this.decisionService == decisionService && this.audit == audit
    {
      this.db, this.decisionService, this.audit := db, decisionService, audit;
    }

    /** Once the veto is stored nothing raises. */
    method ExerciseVeto(vetoId: string, decisionId: string, vetoedBy: string, reason: string, vetoedAt: int,
                        finalStamp: Stamp, stamp: Stamp)
      returns (r: Result<Spec.Veto>)
      requires Wired()
      modifies db
      ensures Agrees(r, Spec.ExerciseVeto(audit.hash, old(db.State()), vetoId, decisionId, vetoedBy, reason, vetoedAt,
                                          finalStamp, stamp), db.State())
      ensures r.Success? ==> vetoId in db.vetoes && db.vetoes[vetoId] == r.value
      ensures r.Failure? ==> db.State() == old(db.State())
    {
      if decisionId !in db.decisions {
        return Failure(NotFound);
      }
      var decision := db.decisions[decisionId];
      if decision.status != AwaitingApproval {
        return Failure(WrongStatus);
      }
      var assignment :- Spec.GetAssignment(db.roles, vetoedBy, decision.domainId);
      if assignment.None? {
        return Failure(NoRole);
      }
      if assignment.value.role !in Spec.VETO_ELIGIBLE_ROLES {
        return Failure(NotEligible);
      }
      if !Spec.ValidText(vetoedBy, 200) || reason == "" {
        return Failure(InvalidField);
      }
      if vetoId in db.vetoes {
        return Failure(DuplicateKey);
      }
      var isEmergency := decision.decisionType == Emergency;
      var veto := Spec.Veto(decisionId, vetoedBy, assignment.value.role, reason, Active,
                            Spec.ExpiryOf(vetoedAt, isEmergency), None);
      db.vetoes := db.vetoes[vetoId := veto];
      var vetoed := decisionService.Finalize(decisionId, Vetoed, vetoedBy, finalStamp);
      assert vetoed.Success?;
      var event := audit.RecordEvent(Spec.VetoDraft(veto, isEmergency), stamp);
      assert event.Success?;
      return Success(veto);
    }

    method OverrideVeto(vetoId: string, overriddenBy: string, stamp: Stamp) returns (r: Result<Spec.Veto>)
      requires Wired()
      modifies db
      ensures Agrees(r, Spec.OverrideVeto(audit.hash, old(db.State()), vetoId, overriddenBy, stamp), db.State())
      ensures r.Success? ==> vetoId in db.vetoes && db.vetoes[vetoId] == r.value
    {
      if vetoId !in db.vetoes {
        return Failure(NotFound);
      }
      var veto := db.vetoes[vetoId];
      if veto.status != Active {
        return Failure(VetoNotActive);
      }
      if veto.decisionId !in db.decisions {
        return Failure(NotFound);
      }
      var assignment :- Spec.GetAssignment(db.roles, overriddenBy, db.decisions[veto.decisionId].domainId);
      if assignment.None? {
        return Failure(NoRole);
      }
      if Spec.Level(assignment.value.role) <= Spec.Level(veto.vetoedByRole) {
        return Failure(Outranked);
      }
      veto := veto.(status := Overridden, overriddenBy := Some(overriddenBy));
      db.vetoes := db.vetoes[vetoId := veto];
      var _ :- audit.RecordEvent(Spec.OverrideDraft(veto.decisionId, overriddenBy), stamp);
      return Success(veto);
    }
  }

  class RoleService {
    const db: Database
    const audit: AuditService

    ghost predicate Wired() {
      audit.db == db
    }

    constructor (db: Database, audit: AuditService)
      ensures this.db == db && this.audit == audit
    {
      this.db, this.audit := db, audit;
    }

    method AssignRole(assignmentId: string, userId: string, domainId: string, role: RACIRole, assignedBy: string,
                      stamp: Stamp)
      returns (r: Result<Spec.Assignment>)
      requires Wired()
      modifies db
      ensures Agrees(r, Spec.AssignRole(audit.hash, old(db.State()), assignmentId, userId, domainId, role, assignedBy,
                                        stamp), db.State())
      ensures r.Success? ==> assignmentId in db.roles && db.roles[assignmentId] == r.value
    {
      var existing :- Spec.GetAssignment(db.roles, userId, domainId);
      if existing.Some? {
        return Failure(AlreadyAssigned);
      }
      if !Spec.ValidText(userId, 200) || !Spec.ValidText(domainId, 100) || !Spec.ValidText(assignedBy, 200) {
        return Failure(InvalidField);
      }
      if assignmentId in db.roles {
        return Failure(DuplicateKey);
      }
      var assignment := Spec.Assignment(userId, domainId, role, assignedBy);
      db.roles := db.roles[assignmentId := assignment];
      var event := audit.RecordEvent(Spec.AssignedDraft(assignmentId, assignment), stamp);
      assert event.Success?;
      return Success(assignment);
    }

    method RevokeRole(assignmentId: string, revokedBy: string, stamp: Stamp) returns (r: Result<()>)
      requires Wired()
      modifies db
      ensures Agrees(r, Spec.RevokeRole(audit.hash, old(db.State()), assignmentId, revokedBy, stamp), db.State())
      ensures r.Success? <==> assignmentId in old(db.roles) && 1 <= |revokedBy| <= 200
      ensures r.Success? ==> db.roles == old(db.roles) - {assignmentId} && |db.log| == |old(db.log)| + 1
    {
      if assignmentId !in db.roles {
        return Failure(NotFound);
      }
      var assignment := db.roles[assignmentId];
      db.roles := db.roles - {assignmentId};
      var _ :- audit.RecordEvent(Spec.RevokedDraft(assignmentId, assignment, revokedBy), stamp);
      return Success(());
    }
  }

  /** The route handlers: each request runs in one transaction. */
  class Api {
    const db: Database
    const decisions: DecisionService
    const approvals: ApprovalService
    const vetoes: VetoService
    const roles: RoleService
    const hash: Hash

    ghost predicate Wired() {
      && decisions.db == approvals.db == vetoes.db == roles.db == db
      && decisions.Wired() && approvals.Wired() && vetoes.Wired() && roles.Wired()
      && decisions.audit.hash == approvals.audit.hash == vetoes.audit.hash == roles.audit.hash == hash
    }

    constructor (db: Database, hash: Hash)
      ensures Wired() && this.db == db && this.hash == hash
    {
      var audit := new AuditService(db, hash);
      var decisionService := new DecisionService(db, audit);
      this.db, this.hash := db, hash;
      decisions := decisionService;
      approvals := new ApprovalService(db, decisionService, audit);
      vetoes := new VetoService(db, decisionService, audit);
      roles := new RoleService(db, audit);
    }

    method Handle(request: Spec.Request) returns (r: Result<()>)
      requires Wired()
      modifies db
      ensures db.State() == Spec.Next(hash, old(db.State()), request)
      ensures Agrees(r, Spec.Attempt(hash, old(db.State()), request), db.State())
      ensures r.Failure? ==> db.State() == old(db.State())
    {
      var decisionRows, voteRows, vetoRows, roleRows, log := db.decisions, db.votes, db.vetoes, db.roles, db.log;
      r := Dispatch(request);
      if r.Failure? {
        db.decisions, db.votes, db.vetoes, db.roles, db.log := decisionRows, voteRows, vetoRows, roleRows, log;
      }
    }

    method Dispatch(request: Spec.Request) returns (r: Result<()>)
      requires Wired()
      modifies db
      ensures Agrees(r, Spec.Attempt(hash, old(db.State()), request), db.State())
    {
      match request
      case CreateRequest(id, decisionType, title, description, domainId, createdBy, stamp) =>
        var _ :- decisions.CreateDecision(id, decisionType, title, description, domainId, createdBy, stamp);
        return Success(());
      case SubmitRequest(id, actorId, stamp) =>
        var _ :- decisions.SubmitForApproval(id, actorId, stamp);
        return Success(());
      case VoteRequest(voteId, id, voterId, vote, comment, stamp, finalStamp) =>
        var _ :- approvals.CastVote(voteId, id, voterId, vote, comment, stamp, finalStamp);
        return Success(());
      case VetoRequest(vetoId, id, vetoedBy, reason, vetoedAt, finalStamp, stamp) =>
        var _ :- vetoes.ExerciseVeto(vetoId, id, vetoedBy, reason, vetoedAt, finalStamp, stamp);
        return Success(());
      case OverrideRequest(vetoId, overriddenBy, stamp) =>
        var _ :- vetoes.OverrideVeto(vetoId, overriddenBy, stamp);
        return Success(());
      case AssignRequest(assignmentId, userId, domainId, role, assignedBy, stamp) =>
        var _ :- roles.AssignRole(assignmentId, userId, domainId, role, assignedBy, stamp);
        return Success(());
      case RevokeRequest(assignmentId, revokedBy, stamp) =>
        r := roles.RevokeRole(assignmentId, revokedBy, stamp);
    }
  }
}
