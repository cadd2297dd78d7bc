/** Folding the audit log from nothing rebuilds what the tables hold. */
module Replay {
  import opened Enums
  import opened Outcome
  import opened AuditChain
  import opened AuditTrail
  import opened Governance
  import opened Effects
  import opened Invariants

  datatype VoteKey = VoteKey(decisionId: string, voterId: string)

  datatype VetoView = VetoView(vetoedBy: string, reason: string, overriddenBy: Option<string>)

  /** What a reader of the log alone knows. Votes are found by decision and voter, vetoes by decision. */
  datatype Ledger = Ledger(
    status: map<string, DecisionStatus>,
    votes: map<VoteKey, Vote>,
    vetoes: map<string, VetoView>,
    roles: map<string, Assignment>)

  function TextAt(details: map<string, Detail>, key: string): string {
    if key in details && details[key].Text? then details[key].text else ""
  }

  function Apply(l: Ledger, e: Draft): Ledger {
    match e.eventType
    case DecisionCreated => l.(status := l.status[e.entityId := Pending])
    case DecisionSubmitted => l.(status := l.status[e.entityId := AwaitingApproval])
    case DecisionApproved => l.(status := l.status[e.entityId := Approved])
    case DecisionRejected => l.(status := l.status[e.entityId := Rejected])
    case ApprovalCast => ApplyVote(l, e)
    case VetoExercised =>
      // The first of a veto's two events has no details; the second completes the view.
      l.(status := l.status[e.entityId := Vetoed],
         vetoes := l.vetoes[e.entityId := VetoView(e.actorId, TextAt(e.details, "reason"), None)])
    case VetoOverridden =>
      if e.entityId !in l.vetoes then l
      else l.(vetoes := l.vetoes[e.entityId := l.vetoes[e.entityId].(overriddenBy := Some(e.actorId))])
    case RoleAssigned => ApplyAssignment(l, e)
    case RoleRevoked => l.(roles := l.roles - {e.entityId})
    case _ => l
  }

  function ApplyVote(l: Ledger, e: Draft): Ledger {
    var role, vote := ParseRole(TextAt(e.details, "role")), ParseVote(TextAt(e.details, "vote"));
    if role.None? || vote.None? then l
    else
      var v := Vote(e.entityId, e.actorId, role.value, vote.value, TextAt(e.details, "comment"));
      l.(votes := l.votes[VoteKey(e.entityId, e.actorId) := v])
  }

  function ApplyAssignment(l: Ledger, e: Draft): Ledger {
    var role := ParseRole(TextAt(e.details, "role"));
    if role.None? then l
    else
      var a := Assignment(TextAt(e.details, "user_id"), TextAt(e.details, "domain_id"), role.value, e.actorId);
      l.(roles := l.roles[e.entityId := a])
  }

  function ReplayOf(log: seq<AuditEvent>): Ledger {
    if log == [] then Ledger(map[], map[], map[], map[])
    else Apply(ReplayOf(log[..|log| - 1]), DraftOf(log[|log| - 1]))
  }

  // ----- What the ledger says about the state -----

  ghost predicate StatusesRebuilt(l: Ledger, s: State) {
    && l.status.Keys == s.decisions.Keys
    && forall d :: d in s.decisions ==> l.status[d] == s.decisions[d].status
  }

  ghost predicate VotesRebuilt(l: Ledger, s: State) {
    && (forall i :: i in s.votes ==>
          var key := VoteKey(s.votes[i].decisionId, s.votes[i].voterId); key in l.votes && l.votes[key] == s.votes[i])
    && (forall key :: key in l.votes ==> HasVoted(s, key.decisionId, key.voterId))
  }

  ghost predicate HasVeto(s: State, d: string) {
    exists i :: i in s.vetoes && s.vetoes[i].decisionId == d
  }

  ghost predicate VetoesRebuilt(l: Ledger, s: State) {
    && (forall i :: i in s.vetoes ==>
          var v := s.vetoes[i];
          v.decisionId in l.vetoes && l.vetoes[v.decisionId] == VetoView(v.vetoedBy, v.reason, v.overriddenBy))
    && (forall d :: d in l.vetoes ==> HasVeto(s, d))
  }

  ghost predicate Rebuilt(l: Ledger, s: State) {
    && StatusesRebuilt(l, s) && VotesRebuilt(l, s) && VetoesRebuilt(l, s)
    && l.roles == s.roles
  }

  // ----- One call -----

  /** A call records one event or two. */
  ghost function ApplyAll(l: Ledger, drafts: seq<Draft>): Ledger
    requires 1 <= |drafts| <= 2
  {
    if |drafts| == 1 then Apply(l, drafts[0]) else Apply(Apply(l, drafts[0]), drafts[1])
  }

  lemma ReplayExtends(log: seq<AuditEvent>, log': seq<AuditEvent>, drafts: seq<Draft>)
    requires ExtendedBy(log, log', drafts) && 1 <= |drafts| <= 2
    ensures ReplayOf(log') == ApplyAll(ReplayOf(log), drafts)
  {
    hide Apply, DraftOf;
    var mid := log'[..|log| + 1];
    assert DraftOf(log'[|log| + 0]) == drafts[0];
    assert mid[..|mid| - 1] == log;
    assert ReplayOf(mid) == Apply(ReplayOf(log), drafts[0]);
    if |drafts| == 1 {
      assert mid == log';
    } else {
      assert DraftOf(log'[|log| + 1]) == drafts[1];
      assert log'[..|log'| - 1] == mid;
    }
  }

  lemma DetailsReadBack(v: Vote, a: Assignment, d: string, id: string)
    ensures var e := CastDraft(d, v);
            && ParseRole(TextAt(e.details, "role")) == Some(v.voterRole)
            && ParseVote(TextAt(e.details, "vote")) == Some(v.vote)
            && TextAt(e.details, "comment") == v.comment
    ensures var e := AssignedDraft(id, a);
            && ParseRole(TextAt(e.details, "role")) == Some(a.role)
            && TextAt(e.details, "user_id") == a.userId && TextAt(e.details, "domain_id") == a.domainId
  {
    ParseInvertsText(v.voterRole, v.vote);
    ParseInvertsText(a.role, v.vote);
    assert "vote"[0] == 'v' && "role"[0] == 'r' && "comment"[0] == 'c';
    assert "user_id"[0] == 'u' && "domain_id"[0] == 'd';
  }

  lemma ReasonReadsBack(v: Veto, isEmergency: bool)
    ensures TextAt(VetoDraft(v, isEmergency).details, "reason") == v.reason
  {
    assert "reason"[0] == 'r' && "is_emergency"[0] == 'i' && "expires_at"[0] == 'e';
  }

  // Parts of the tables that a call leaves alone stay rebuilt.

  lemma VotesFrame(l: Ledger, l': Ledger, s: State, s': State)
    requires VotesRebuilt(l, s) && l'.votes == l.votes && s'.votes == s.votes
    ensures VotesRebuilt(l', s')
  {
    assert forall u, d :: HasVoted(s, d, u) ==> HasVoted(s', d, u);
  }

  lemma VetoesFrame(l: Ledger, l': Ledger, s: State, s': State)
    requires VetoesRebuilt(l, s) && l'.vetoes == l.vetoes && s'.vetoes == s.vetoes
    ensures VetoesRebuilt(l', s')
  {
    assert forall d :: HasVeto(s, d) ==> HasVeto(s', d);
  }

  lemma VotedStays(s: State, s': State)
    requires forall i :: i in s.votes ==> i in s'.votes && s'.votes[i] == s.votes[i]
    ensures forall d, u :: HasVoted(s, d, u) ==> HasVoted(s', d, u)
  {
    forall d, u | HasVoted(s, d, u) ensures HasVoted(s', d, u) {
      var i :| i in s.votes && s.votes[i].decisionId == d && s.votes[i].voterId == u;
      assert s'.votes[i].decisionId == d;
    }
  }

  lemma VetoStays(s: State, s': State)
    requires forall i :: i in s.vetoes ==> i in s'.vetoes && s'.vetoes[i].decisionId == s.vetoes[i].decisionId
    ensures forall d :: HasVeto(s, d) ==> HasVeto(s', d)
  {
    forall d | HasVeto(s, d) ensures HasVeto(s', d) {
      var i :| i in s.vetoes && s.vetoes[i].decisionId == d;
      assert s'.vetoes[i].decisionId == d;
    }
  }

  lemma DecisionsRebuild(l: Ledger, s: State, s': State, q: Request)
    requires Rebuilt(l, s) && Changes(s, s', q) && (q.CreateRequest? || q.SubmitRequest?)
    ensures Rebuilt(ApplyAll(l, Records(s, s', q)), s')
  {
    hide ApplyVote, ApplyAssignment, TextAt, HasVoted, VotesRebuilt, VetoesRebuilt;
    var l' := ApplyAll(l, Records(s, s', q));
    VotesFrame(l, l', s, s');
    VetoesFrame(l, l', s, s');
  }

  lemma VoteApplied(l: Ledger, s: State, s': State, q: Request)
    requires Changes(s, s', q) && q.VoteRequest?
    ensures var key, status := VoteKey(q.decisionId, q.voterId), s'.decisions[q.decisionId].status;
            ApplyAll(l, Records(s, s', q)) ==
            l.(votes := l.votes[key := s'.votes[q.voteId]],
               status := if status == AwaitingApproval then l.status else l.status[q.decisionId := status])
  {
    hide HasRole, AllRequiredApproved, RoleText, VoteText, StatusText, ParseRole, ParseVote;
    DetailsReadBack(s'.votes[q.voteId], Assignment("", "", Informed, ""), q.decisionId, "");
  }

  lemma NewVoteRebuilt(l: Ledger, l': Ledger, s: State, s': State, id: string, v: Vote)
    requires VotesRebuilt(l, s) && id !in s.votes && !HasVoted(s, v.decisionId, v.voterId)
    requires s'.votes == s.votes[id := v] && l'.votes == l.votes[VoteKey(v.decisionId, v.voterId) := v]
    ensures VotesRebuilt(l', s')
  {
    VotedStays(s, s');
    assert s'.votes[id] == v;
    assert forall i :: i in s.votes ==> !(s.votes[i].decisionId == v.decisionId && s.votes[i].voterId == v.voterId);
  }

  lemma NewVetoRebuilt(l: Ledger, l': Ledger, s: State, s': State, id: string, v: Veto)
    requires VetoesRebuilt(l, s) && id !in s.vetoes && NoVeto(s, v.decisionId)
    requires s'.vetoes == s.vetoes[id := v]
    requires l'.vetoes == l.vetoes[v.decisionId := VetoView(v.vetoedBy, v.reason, v.overriddenBy)]
    ensures VetoesRebuilt(l', s')
  {
    VetoStays(s, s');
    assert s'.vetoes[id] == v;
  }

  lemma VoteRebuilds(l: Ledger, s: State, s': State, q: Request)
    requires Rebuilt(l, s) && Changes(s, s', q) && q.VoteRequest?
    ensures Rebuilt(ApplyAll(l, Records(s, s', q)), s')
  {
    hide HasRole, HasVoted, AllRequiredApproved, ApplyAll, Records, VotesRebuilt, VetoesRebuilt;
    VoteApplied(l, s, s', q);
    var l' := ApplyAll(l, Records(s, s', q));
    NewVoteRebuilt(l, l', s, s', q.voteId, s'.votes[q.voteId]);
    VetoesFrame(l, l', s, s');
  }

  lemma VetoApplied(l: Ledger, s: State, s': State, q: Request)
    requires Changes(s, s', q) && q.VetoRequest?
    ensures ApplyAll(l, Records(s, s', q)) ==
            l.(status := l.status[q.decisionId := Vetoed],
               vetoes := l.vetoes[q.decisionId := VetoView(q.vetoedBy, s'.vetoes[q.vetoId].reason, None)])
  {
    hide HasRole, StatusText;
    ReasonReadsBack(s'.vetoes[q.vetoId], s.decisions[q.decisionId].decisionType == Emergency);
    var d0 := Records(s, s', q)[0];
    assert l.vetoes[q.decisionId := VetoView(q.vetoedBy, TextAt(d0.details, "reason"), None)]
        [q.decisionId := VetoView(q.vetoedBy, s'.vetoes[q.vetoId].reason, None)]
        == l.vetoes[q.decisionId := VetoView(q.vetoedBy, s'.vetoes[q.vetoId].reason, None)];
    assert l.status[q.decisionId := Vetoed][q.decisionId := Vetoed] == l.status[q.decisionId := Vetoed];
  }

  lemma VetoRebuilds(l: Ledger, s: State, s': State, q: Request)
    requires Inv(s) && Rebuilt(l, s) && Changes(s, s', q) && q.VetoRequest?
    ensures Rebuilt(ApplyAll(l, Records(s, s', q)), s')
  {
    hide HasRole, ApplyAll, Records, RowsUnique, RowsLinked, VotesRebuilt, VetoesRebuilt;
    VetoApplied(l, s, s', q);
    var l' := ApplyAll(l, Records(s, s', q));
    assert StatusFits(s, q.decisionId);
    VotesFrame(l, l', s, s');
    NewVetoRebuilt(l, l', s, s', q.vetoId, s'.vetoes[q.vetoId]);
  }

  lemma OverrideApplied(l: Ledger, s: State, s': State, q: Request)
    requires VetoesRebuilt(l, s) && Changes(s, s', q) && q.OverrideRequest?
    ensures s.vetoes[q.vetoId].decisionId in l.vetoes
    ensures var d := s.vetoes[q.vetoId].decisionId;
            ApplyAll(l, Records(s, s', q)) ==
            l.(vetoes := l.vetoes[d := l.vetoes[d].(overriddenBy := Some(q.overriddenBy))])
  {
  }

  lemma OverrideRebuilds(l: Ledger, s: State, s': State, q: Request)
    requires Inv(s) && Rebuilt(l, s) && Changes(s, s', q) && q.OverrideRequest?
    ensures Rebuilt(ApplyAll(l, Records(s, s', q)), s')
  {
    hide HasRole, HasVeto, ApplyAll, Records, RowsUnique, RowsLinked, StatusesFit, VotesRebuilt;
    OverrideApplied(l, s, s', q);
    var l' := ApplyAll(l, Records(s, s', q));
    VotesFrame(l, l', s, s');
    OnlyVetoOnItsDecision(s, q.vetoId);
    VetoStays(s, s');
  }

  lemma OnlyVetoOnItsDecision(s: State, vetoId: string)
    requires Inv(s) && vetoId in s.vetoes
    ensures forall j :: j in s.vetoes && s.vetoes[j].decisionId == s.vetoes[vetoId].decisionId ==> j == vetoId
  {
    var d := s.vetoes[vetoId].decisionId;
    assert StatusFits(s, d);
    var i :| IsOnlyVeto(s, d, i);
  }

  lemma RolesRebuild(l: Ledger, s: State, s': State, q: Request)
    requires Rebuilt(l, s) && Changes(s, s', q) && (q.AssignRequest? || q.RevokeRequest?)
    ensures Rebuilt(ApplyAll(l, Records(s, s', q)), s')
  {
    hide HasRole, RoleText, ParseRole, VoteText, ParseVote, VotesRebuilt, VetoesRebuilt;
    if q.AssignRequest? {
      DetailsReadBack(Vote("", "", Informed, Abstain, ""), s'.roles[q.assignmentId], "", q.assignmentId);
    }
    var l' := ApplyAll(l, Records(s, s', q));
    VotesFrame(l, l', s, s');
    VetoesFrame(l, l', s, s');
  }

  lemma ChangesRebuild(l: Ledger, s: State, s': State, q: Request)
    requires Inv(s) && Rebuilt(l, s) && Changes(s, s', q)
    ensures Rebuilt(ApplyAll(l, Records(s, s', q)), s')
  {
    hide Rebuilt, ApplyAll, HasRole, HasVoted, AllRequiredApproved;
    match q
    case CreateRequest(_, _, _, _, _, _, _) => DecisionsRebuild(l, s, s', q);
    case SubmitRequest(_, _, _) => DecisionsRebuild(l, s, s', q);
    case VoteRequest(_, _, _, _, _, _, _) => VoteRebuilds(l, s, s', q);
    case VetoRequest(_, _, _, _, _, _, _) => VetoRebuilds(l, s, s', q);
    case OverrideRequest(_, _, _) => OverrideRebuilds(l, s, s', q);
    case AssignRequest(_, _, _, _, _, _) => RolesRebuild(l, s, s', q);
    case RevokeRequest(_, _, _) => RolesRebuild(l, s, s', q);
  }

  // ----- Every run -----

  /**
    In every reachable state the log alone gives the status of every decision, every vote in full,
    every veto with its reason and who overrode it, and the live role table.
   */
  lemma {:induction false} LogRebuildsTheTables(hash: Hash, requests: seq<Request>)
    ensures Rebuilt(ReplayOf(Run(hash, requests).log), Run(hash, requests))
  {
    hide Attempt, Changes, Records;
    if requests != [] {
      var s, q := Run(hash, requests[..|requests| - 1]), requests[|requests| - 1];
      LogRebuildsTheTables(hash, requests[..|requests| - 1]);
      EveryRunKeepsInv(hash, requests[..|requests| - 1]);
      if Attempt(hash, s, q).Success? {
        var s' := SuccessRecords(hash, s, q);
        ReplayExtends(s.log, s'.log, Records(s, s', q));
        ChangesRebuild(ReplayOf(s.log), s, s', q);
      }
    }
  }
}
