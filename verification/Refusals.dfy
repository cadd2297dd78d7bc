/** Which error a refused call raises, after any run. */
module Refusals {
  import opened Enums
  import opened Outcome
  import opened AuditChain
  import opened Governance
  import opened Effects
  import opened Invariants

  lemma CreateRefusedWith(hash: Hash, s: State, q: Request)
    requires q.CreateRequest?
    ensures var r := Attempt(hash, s, q);
            var fit := 1 <= |q.title| <= 500 && 1 <= |q.domainId| <= 100 && 1 <= |q.createdBy| <= 200;
            && (r == Failure(InvalidField) <==> !fit)
            && (r == Failure(DuplicateKey) <==> fit && q.decisionId in s.decisions)
            && (r.Failure? ==> r.error in {InvalidField, DuplicateKey})
  {
  }

  lemma SubmitRefusedWith(hash: Hash, s: State, q: Request)
    requires q.SubmitRequest?
    ensures var r := Attempt(hash, s, q);
            var d := q.decisionId;
            && (r == Failure(NotFound) <==> d !in s.decisions)
            && (r == Failure(WrongStatus) <==> d in s.decisions && s.decisions[d].status != Pending)
            && (r == Failure(InvalidField) <==>
                d in s.decisions && s.decisions[d].status == Pending && !(1 <= |q.actorId| <= 200))
            && (r.Failure? ==> r.error in {NotFound, WrongStatus, InvalidField})
  {
  }

  /** The decision is there and waits. */
  ghost predicate Waits(s: State, d: string) {
    d in s.decisions && s.decisions[d].status == AwaitingApproval
  }

  lemma VoteRefusedWith(hash: Hash, requests: seq<Request>, q: Request)
    requires q.VoteRequest?
    ensures var s, d := Run(hash, requests), q.decisionId;
            var r := Attempt(hash, s, q);
            && (r == Failure(NotFound) <==> d !in s.decisions)
            && (r == Failure(WrongStatus) <==> d in s.decisions && !Waits(s, d))
            && (r == Failure(NoRole) <==> Waits(s, d) && !IsAssigned(s, q.voterId, s.decisions[d].domainId))
            && (r == Failure(AlreadyVoted) <==>
                Waits(s, d) && IsAssigned(s, q.voterId, s.decisions[d].domainId) && HasVoted(s, d, q.voterId))
            && (r.Failure? ==> r.error in {NotFound, WrongStatus, NoRole, AlreadyVoted, DuplicateKey})
  {
    hide Run, GetAssignment, GetVote, RowsUnique, StatusesFit, VetoWellFormed, HasVoted;
    var s := Run(hash, requests);
    EveryRunKeepsInv(hash, requests);
    if q.decisionId in s.decisions {
      LookupsSucceed(s, q.decisionId, q.voterId, s.decisions[q.decisionId].domainId);
      LookupsMeetRows(s, q.decisionId, q.voterId, s.decisions[q.decisionId].domainId);
    }
  }

  lemma VetoRefusedWith(hash: Hash, requests: seq<Request>, q: Request)
    requires q.VetoRequest?
    ensures var s, d := Run(hash, requests), q.decisionId;
            var r := Attempt(hash, s, q);
            && (r == Failure(NotFound) <==> d !in s.decisions)
            && (r == Failure(WrongStatus) <==> d in s.decisions && !Waits(s, d))
            && (r == Failure(NoRole) <==> Waits(s, d) && !IsAssigned(s, q.vetoedBy, s.decisions[d].domainId))
            && (r == Failure(NotEligible) <==>
                && Waits(s, d)
                && (|| HasRole(s, q.vetoedBy, s.decisions[d].domainId, Consulted)
                    || HasRole(s, q.vetoedBy, s.decisions[d].domainId, Informed)))
            && (r.Failure? ==> r.error in {NotFound, WrongStatus, NoRole, NotEligible, InvalidField, DuplicateKey})
  {
    hide Run, GetAssignment, RowsUnique, StatusesFit, VetoWellFormed;
    var s := Run(hash, requests);
    EveryRunKeepsInv(hash, requests);
    if q.decisionId in s.decisions {
      var domainId := s.decisions[q.decisionId].domainId;
      LookupsSucceed(s, q.decisionId, q.vetoedBy, domainId);
      LookupsMeetRows(s, q.decisionId, q.vetoedBy, domainId);
      LookupReturnsRole(s, q.vetoedBy, domainId, Consulted);
      LookupReturnsRole(s, q.vetoedBy, domainId, Informed);
    }
  }

  lemma OverrideRefusedWith(hash: Hash, requests: seq<Request>, q: Request)
    requires q.OverrideRequest?
    ensures var s, v := Run(hash, requests), q.vetoId;
            var r := Attempt(hash, s, q);
            && (r == Failure(NotFound) <==> v !in s.vetoes)
            && (r == Failure(VetoNotActive) <==> v in s.vetoes && s.vetoes[v].status == Overridden)
            && (r == Failure(NoRole) <==>
                && v in s.vetoes && s.vetoes[v].status == Active && s.vetoes[v].decisionId in s.decisions
                && !IsAssigned(s, q.overriddenBy, s.decisions[s.vetoes[v].decisionId].domainId))
            && (r.Failure? ==> r.error in {NotFound, VetoNotActive, NoRole, Outranked})
  {
    hide Run, GetAssignment, RowsUnique, StatusesFit;
    var s := Run(hash, requests);
    EveryRunKeepsInv(hash, requests);
    if q.vetoId in s.vetoes {
      var domainId := s.decisions[s.vetoes[q.vetoId].decisionId].domainId;
      LookupsSucceed(s, "", q.overriddenBy, domainId);
      LookupsMeetRows(s, "", q.overriddenBy, domainId);
      LookupReturnsRole(s, q.overriddenBy, domainId, Accountable);
      assert VetoWellFormed(s.vetoes[q.vetoId]);
    }
  }

  lemma AssignRefusedWith(hash: Hash, requests: seq<Request>, q: Request)
    requires q.AssignRequest?
    ensures var s := Run(hash, requests);
            var r := Attempt(hash, s, q);
            var fit := 1 <= |q.userId| <= 200 && 1 <= |q.domainId| <= 100 && 1 <= |q.assignedBy| <= 200;
            && (r == Failure(AlreadyAssigned) <==> IsAssigned(s, q.userId, q.domainId))
            && (r == Failure(InvalidField) <==> !IsAssigned(s, q.userId, q.domainId) && !fit)
            && (r == Failure(DuplicateKey) <==>
                !IsAssigned(s, q.userId, q.domainId) && fit && q.assignmentId in s.roles)
            && (r.Failure? ==> r.error in {AlreadyAssigned, InvalidField, DuplicateKey})
  {
    hide Run, GetAssignment, RowsUnique, StatusesFit, VetoWellFormed;
    var s := Run(hash, requests);
    EveryRunKeepsInv(hash, requests);
    LookupsSucceed(s, "", q.userId, q.domainId);
    LookupsMeetRows(s, "", q.userId, q.domainId);
  }

  lemma RevokeRefusedWith(hash: Hash, s: State, q: Request)
    requires q.RevokeRequest?
    ensures var r := Attempt(hash, s, q);
            && (r == Failure(NotFound) <==> q.assignmentId !in s.roles)
            && (r == Failure(InvalidField) <==> q.assignmentId in s.roles && !(1 <= |q.revokedBy| <= 200))
            && (r.Failure? ==> r.error in {NotFound, InvalidField})
  {
  }
}
