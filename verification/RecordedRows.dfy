/** The audit rows each call adds, field by field, and the clock they follow. */
module RecordedRows {
  import opened Enums
  import opened Outcome
  import opened AuditChain
  import opened AuditTrail
  import opened Governance
  import opened Effects
  import opened RunAudit

  /** The event has the id and the time that were supplied for it, and these fields. */
  ghost predicate IsEvent(
    e: AuditEvent, stamp: Stamp, eventType: AuditEventType, entityType: string, entityId: string, actorId: string,
    description: string, details: map<string, Detail>)
  {
    && e.id == stamp.id && e.content.occurredAt == stamp.at
    && e.content.eventType == eventType && e.content.entityType == entityType && e.content.entityId == entityId
    && e.content.actorId == actorId && e.content.description == description && e.content.details == details
  }

  ghost predicate IsEventOf(e: AuditEvent, stamp: Stamp, draft: Draft) {
    IsEvent(e, stamp, draft.eventType, draft.entityType, draft.entityId, draft.actorId, draft.description, draft.details)
  }

  // ----- One event -----

  /**
    Recording a draft adds one sealed event with its fields and the supplied id and time, behind the
    genesis value or the row that the database prefers among the latest.
   */
  lemma RecordingAdds(hash: Hash, s: State, draft: Draft, stamp: Stamp)
    ensures var r := RecordEvent(hash, s, draft, stamp);
            && (r.Success? <==> 1 <= |draft.actorId| <= 200)
            && (r.Failure? ==> r.error == InvalidField)
            && (r.Success? ==>
                  && |r.value.log| == |s.log| + 1 && r.value == s.(log := s.log + [r.value.log[|s.log|]])
                  && IsEventOf(r.value.log[|s.log|], stamp, draft) && r.value.log[|s.log|].Verify(hash)
                  && (s.log == [] ==> r.value.log[0].content.previousHash == GENESIS_HASH)
                  && (IsLatest(s.log, stamp.tie) && s.log[stamp.tie].eventHash != "" ==>
                        r.value.log[|s.log|].content.previousHash == s.log[stamp.tie].eventHash))
  {
  }

  lemma RecordedWithStamps(hash: Hash, log: seq<AuditEvent>, drafts: seq<Draft>, stamps: (Stamp, Stamp))
    requires 1 <= |drafts| <= 2
    ensures var log' := Recording(hash, log, drafts, stamps);
            && |log'| == |log| + |drafts| && log <= log'
            && IsEventOf(log'[|log|], stamps.0, drafts[0])
            && (|drafts| == 2 ==> IsEventOf(log'[|log| + 1], stamps.1, drafts[1]))
  {
    hide GetLastHash;
  }

  // ----- The events of each call -----

  ghost predicate AddsOnVote(s: State, s': State, q: Request, added: seq<AuditEvent>)
    requires q.VoteRequest?
  {
    && q.decisionId in s.decisions && q.decisionId in s'.decisions && q.voteId in s'.votes
    && var d, role, status := q.decisionId, s'.votes[q.voteId].voterRole, s'.decisions[q.decisionId].status;
    && |added| == (if status == AwaitingApproval then 1 else 2)
    && IsEvent(added[0], q.stamp, ApprovalCast, "decision", d, q.voterId,
               "Vote " + VoteText(q.vote) + " cast by " + q.voterId + " (role: " + RoleText(role) + ")",
               map["vote" := Text(VoteText(q.vote)), "role" := Text(RoleText(role)), "comment" := Text(q.comment)])
    && (status == Approved ==>
          IsEvent(added[1], q.finalStamp, DecisionApproved, "decision", d, "system",
                  "Decision finalized as approved: " + s.decisions[d].title, map[]))
    && (status == Rejected ==>
          IsEvent(added[1], q.finalStamp, DecisionRejected, "decision", d, q.voterId,
                  "Decision finalized as rejected: " + s.decisions[d].title, map[]))
    && (status == AwaitingApproval || status == Approved || status == Rejected)
  }

  ghost predicate AddsOnVeto(s: State, q: Request, added: seq<AuditEvent>)
    requires q.VetoRequest?
  {
    && q.decisionId in s.decisions && |added| == 2
    && var d, emergency := q.decisionId, s.decisions[q.decisionId].decisionType == Emergency;
    && IsEvent(added[0], q.finalStamp, VetoExercised, "decision", d, q.vetoedBy,
               "Decision finalized as vetoed: " + s.decisions[d].title, map[])
    && IsEvent(added[1], q.stamp, VetoExercised, "decision", d, q.vetoedBy,
               "Veto exercised by " + q.vetoedBy + ": " + q.reason,
               map["reason" := Text(q.reason), "is_emergency" := Flag(emergency),
                   "expires_at" := Instant(q.vetoedAt + if emergency then 3_600_000_000 else 86_400_000_000)])
  }

  /** What the rows a successful request adds say. */
  ghost predicate Adds(s: State, s': State, q: Request, added: seq<AuditEvent>) {
    match q
    case CreateRequest(d, _, title, _, _, createdBy, stamp) =>
      |added| == 1 && IsEvent(added[0], stamp, DecisionCreated, "decision", d, createdBy, "Decision created: " + title,
                              map[])
    case SubmitRequest(d, actorId, stamp) =>
      && |added| == 1 && d in s.decisions
      && IsEvent(added[0], stamp, DecisionSubmitted, "decision", d, actorId,
                 "Decision submitted for approval: " + s.decisions[d].title, map[])
    case VoteRequest(_, _, _, _, _, _, _) => AddsOnVote(s, s', q, added)
    case VetoRequest(_, _, _, _, _, _, _) => AddsOnVeto(s, q, added)
    case OverrideRequest(i, u, stamp) =>
      && |added| == 1 && i in s.vetoes
      && IsEvent(added[0], stamp, VetoOverridden, "decision", s.vetoes[i].decisionId, u, "Veto overridden by " + u, map[])
    case AssignRequest(i, u, domainId, role, assignedBy, stamp) =>
      && |added| == 1
      && IsEvent(added[0], stamp, RoleAssigned, "raci_assignment", i, assignedBy,
                 "Role " + RoleText(role) + " assigned to " + u + " in domain " + domainId,
                 map["user_id" := Text(u), "domain_id" := Text(domainId), "role" := Text(RoleText(role))])
    case RevokeRequest(i, revokedBy, stamp) =>
      && |added| == 1 && i in s.roles
      && IsEvent(added[0], stamp, RoleRevoked, "raci_assignment", i, revokedBy,
                 "Role " + RoleText(s.roles[i].role) + " revoked from " + s.roles[i].userId + " in " + s.roles[i].domainId,
                 map[])
  }

  lemma FinalDraftSays(d: string, title: string, status: DecisionStatus, actorId: string)
    requires status in FINAL_STATUSES
    ensures var draft := FinalDraft(d, title, status, actorId);
            && draft.entityType == "decision" && draft.entityId == d && draft.actorId == actorId && draft.details == map[]
            && (status == Approved ==>
                  draft.eventType == DecisionApproved && draft.description == "Decision finalized as approved: " + title)
            && (status == Rejected ==>
                  draft.eventType == DecisionRejected && draft.description == "Decision finalized as rejected: " + title)
            && (status == Vetoed ==>
                  draft.eventType == VetoExercised && draft.description == "Decision finalized as vetoed: " + title)
  {
    assert "Decision finalized as " + "approved" + ": " == "Decision finalized as approved: ";
    assert "Decision finalized as " + "rejected" + ": " == "Decision finalized as rejected: ";
    assert "Decision finalized as " + "vetoed" + ": " == "Decision finalized as vetoed: ";
  }

  lemma VoteAdds(hash: Hash, s: State, s': State, q: Request)
    requires q.VoteRequest? && Changes(s, s', q)
    requires s'.log == Recording(hash, s.log, Records(s, s', q), StampsOf(q))
    ensures AddsOnVote(s, s', q, s'.log[|s.log|..])
  {
    RecordedWithStamps(hash, s.log, Records(s, s', q), StampsOf(q));
    var d, status := q.decisionId, s'.decisions[q.decisionId].status;
    if status != AwaitingApproval {
      FinalDraftSays(d, s.decisions[d].title, status, if status == Approved then SYSTEM else q.voterId);
    }
    hide Recording, FinalDraft, HasRole, HasVoted, AllRequiredApproved, RoleText, VoteText, StatusText;
  }

  lemma VetoAdds(hash: Hash, s: State, s': State, q: Request)
    requires q.VetoRequest? && Changes(s, s', q) && s'.vetoes[q.vetoId].reason == q.reason
    requires s'.vetoes[q.vetoId].expiresAt ==
             q.vetoedAt + if s.decisions[q.decisionId].decisionType == Emergency then 3_600_000_000 else 86_400_000_000
    requires s'.log == Recording(hash, s.log, Records(s, s', q), StampsOf(q))
    ensures AddsOnVeto(s, q, s'.log[|s.log|..])
  {
    RecordedWithStamps(hash, s.log, Records(s, s', q), StampsOf(q));
    FinalDraftSays(q.decisionId, s.decisions[q.decisionId].title, Vetoed, q.vetoedBy);
    hide Recording, FinalDraft, HasRole, StatusText;
  }

  /** A successful request appends exactly its own events, with its own stamps. */
  lemma SuccessAdds(hash: Hash, s: State, q: Request)
    requires Attempt(hash, s, q).Success?
    ensures s.log <= Next(hash, s, q).log && Adds(s, Next(hash, s, q), q, Next(hash, s, q).log[|s.log|..])
  {
    hide Attempt, Recording, AddsOnVote, AddsOnVeto, HasRole, HasVoted, AllRequiredApproved, IsAssigned, RoleText;
    var s' := SuccessRecords(hash, s, q);
    if q.VoteRequest? {
      VoteAdds(hash, s, s', q);
    } else if q.VetoRequest? {
      var i, v := VetoEffect(hash, s, q);
      VetoAdds(hash, s, s', q);
    } else {
      RecordedWithStamps(hash, s.log, Records(s, s', q), StampsOf(q));
    }
  }

  // ----- The clock -----

  /** The clock readings of a request's events, in the order of recording. */
  ghost function ReadingsOf(s': State, q: Request): seq<int> {
    match q
    case VoteRequest(_, d, _, _, _, stamp, finalStamp) =>
      if d in s'.decisions && s'.decisions[d].status == AwaitingApproval then [stamp.at] else [stamp.at, finalStamp.at]
    case VetoRequest(_, _, _, _, _, finalStamp, stamp) => [finalStamp.at, stamp.at]
    case _ => [q.stamp.at]
  }

  /** The clock readings of a run's successful requests. */
  ghost function Readings(hash: Hash, requests: seq<Request>): seq<int> {
    if requests == [] then []
    else
      var front, q := requests[..|requests| - 1], requests[|requests| - 1];
      var s := Run(hash, front);
      Readings(hash, front) + if Attempt(hash, s, q).Success? then ReadingsOf(Next(hash, s, q), q) else []
  }

  ghost predicate HasTimes(log: seq<AuditEvent>, times: seq<int>) {
    |log| == |times| && forall i :: 0 <= i < |log| ==> log[i].content.occurredAt == times[i]
  }

  lemma AddsAtReadings(s: State, s': State, q: Request, added: seq<AuditEvent>)
    requires Adds(s, s', q, added)
    ensures HasTimes(added, ReadingsOf(s', q))
  {
    hide RoleText, VoteText;
  }

  lemma {:induction false} LogFollowsTheClock(hash: Hash, requests: seq<Request>)
    ensures HasTimes(Run(hash, requests).log, Readings(hash, requests))
  {
    hide Attempt, Adds, ReadingsOf;
    if requests != [] {
      var front, q := requests[..|requests| - 1], requests[|requests| - 1];
      var s := Run(hash, front);
      LogFollowsTheClock(hash, front);
      if Attempt(hash, s, q).Success? {
        var s' := Next(hash, s, q);
        SuccessAdds(hash, s, q);
        AddsAtReadings(s, s', q, s'.log[|s.log|..]);
        assert s'.log == s.log + s'.log[|s.log|..];
      }
    }
  }

  ghost predicate StrictlyIncreasing(times: seq<int>) {
    forall i, j :: 0 <= i < j < |times| ==> times[i] < times[j]
  }

  /** The recorded times strictly increase exactly when the clock did from one recording to the next. */
  lemma TimesIncreaseIffClockDoes(hash: Hash, requests: seq<Request>)
    ensures TimeStrictlyIncreases(Run(hash, requests).log) <==> StrictlyIncreasing(Readings(hash, requests))
  {
    hide Run, Readings;
    LogFollowsTheClock(hash, requests);
    var log, times := Run(hash, requests).log, Readings(hash, requests);
    assert forall i :: 0 <= i < |log| ==> log[i].content.occurredAt == times[i];
  }

  /** After any run the integrity check always passes exactly when the clock strictly increased. */
  lemma CheckPassesIffClockIncreases(hash: Hash, requests: seq<Request>)
    requires SoundOn(hash, Contents(Run(hash, requests).log))
    ensures (forall limit: nat, preferred :: ValidChain(hash, GetChain(Run(hash, requests).log, limit, preferred)))
            <==> StrictlyIncreasing(Readings(hash, requests))
  {
    hide *;
    TimesIncreaseIffClockDoes(hash, requests);
    IntegrityCheckPassesIff(hash, requests);
  }
}
