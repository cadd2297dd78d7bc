/** The audit log accounts for the tables: how often each kind of event occurs in it. */
module Accounting {
  import opened Enums
  import opened AuditChain
  import opened AuditTrail
  import opened Governance
  import opened Effects

  function Count(log: seq<AuditEvent>, t: AuditEventType): nat {
    if log == [] then 0
    else Count(log[..|log| - 1], t) + if log[|log| - 1].content.eventType == t then 1 else 0
  }

  function CountKinds(kinds: seq<AuditEventType>, t: AuditEventType): nat {
    if kinds == [] then 0
    else CountKinds(kinds[..|kinds| - 1], t) + if kinds[|kinds| - 1] == t then 1 else 0
  }

  /** The kinds of the events a successful call records. */
  ghost function KindsOf(s': State, q: Request): seq<AuditEventType> {
    match q
    case CreateRequest(_, _, _, _, _, _, _) => [DecisionCreated]
    case SubmitRequest(_, _, _) => [DecisionSubmitted]
    case VoteRequest(_, d, _, _, _, _, _) =>
      if d !in s'.decisions || s'.decisions[d].status == AwaitingApproval then [ApprovalCast]
      else [ApprovalCast, if s'.decisions[d].status == Approved then DecisionApproved else DecisionRejected]
    case VetoRequest(_, _, _, _, _, _, _) => [VetoExercised, VetoExercised]
    case OverrideRequest(_, _, _) => [VetoOverridden]
    case AssignRequest(_, _, _, _, _, _) => [RoleAssigned]
    case RevokeRequest(_, _, _) => [RoleRevoked]
  }

  ghost predicate ExtendedByKinds(log: seq<AuditEvent>, log': seq<AuditEvent>, kinds: seq<AuditEventType>) {
    && |log'| == |log| + |kinds| && log <= log'
    && forall k :: 0 <= k < |kinds| ==> log'[|log| + k].content.eventType == kinds[k]
  }

  lemma KindsOfRecords(s: State, s': State, q: Request)
    requires Changes(s, s', q)
    ensures var drafts, kinds := Records(s, s', q), KindsOf(s', q);
            |kinds| == |drafts| && forall k :: 0 <= k < |drafts| ==> drafts[k].eventType == kinds[k]
  {
    hide HasRole, HasVoted, AllRequiredApproved, IsAssigned, RoleText, VoteText, StatusText;
  }

  lemma RecordsHaveKinds(s: State, s': State, q: Request)
    requires Changes(s, s', q) && ExtendedBy(s.log, s'.log, Records(s, s', q))
    ensures ExtendedByKinds(s.log, s'.log, KindsOf(s', q))
  {
    hide Records, KindsOf;
    var drafts, kinds := Records(s, s', q), KindsOf(s', q);
    KindsOfRecords(s, s', q);
    forall k | 0 <= k < |kinds| ensures s'.log[|s.log| + k].content.eventType == kinds[k] {
      assert DraftOf(s'.log[|s.log| + k]) == drafts[k];
    }
  }

  lemma {:induction false} CountExtends(log: seq<AuditEvent>, log': seq<AuditEvent>, kinds: seq<AuditEventType>,
                                        t: AuditEventType)
    requires ExtendedByKinds(log, log', kinds)
    ensures Count(log', t) == Count(log, t) + CountKinds(kinds, t)
  {
    if kinds == [] {
      assert log' == log;
    } else {
      var n := |log'| - 1;
      assert ExtendedByKinds(log, log'[..n], kinds[..|kinds| - 1]);
      CountExtends(log, log'[..n], kinds[..|kinds| - 1], t);
    }
  }

  // ----- Counting rows -----

  ghost function DecisionsIn(decisions: map<string, Decision>, statuses: set<DecisionStatus>): set<string> {
    set d | d in decisions && decisions[d].status in statuses
  }

  ghost function OverriddenVetoes(vetoes: map<string, Veto>): set<string> {
    set i | i in vetoes && vetoes[i].status == Overridden
  }

  const NOT_PENDING: set<DecisionStatus> := {AwaitingApproval, Approved, Rejected, Vetoed, Escalated}

  lemma DecisionsAfterUpdate(decisions: map<string, Decision>, d: string, row: Decision, statuses: set<DecisionStatus>)
    ensures |DecisionsIn(decisions[d := row], statuses)| ==
            |DecisionsIn(decisions, statuses)|
            - (if d in decisions && decisions[d].status in statuses then 1 else 0)
            + (if row.status in statuses then 1 else 0)
  {
    var before, after := DecisionsIn(decisions, statuses), DecisionsIn(decisions[d := row], statuses);
    assert after == if row.status in statuses then before + {d} else before - {d};
  }

  // ----- The balance -----

  /** How many events of a kind the tables call for; the role table is accounted for separately. */
  ghost function Expected(s: State, t: AuditEventType): nat {
    match t
    case DecisionCreated => |s.decisions|
    case DecisionSubmitted => |DecisionsIn(s.decisions, NOT_PENDING)|
    case ApprovalCast => |s.votes|
    case DecisionApproved => |DecisionsIn(s.decisions, {Approved})|
    case DecisionRejected => |DecisionsIn(s.decisions, {Rejected})|
    case VetoExercised => 2 * |s.vetoes|
    case VetoOverridden => |OverriddenVetoes(s.vetoes)|
    case _ => 0
  }

  const ROLE_EVENTS: set<AuditEventType> := {RoleAssigned, RoleRevoked}

  ghost predicate Balanced(s: State) {
    && (forall t :: t !in ROLE_EVENTS ==> Count(s.log, t) == Expected(s, t))
    && Count(s.log, RoleAssigned) == Count(s.log, RoleRevoked) + |s.roles|
  }

  lemma DecisionTableMoves(s: State, s': State, d: string, row: Decision, t: AuditEventType)
    requires s'.decisions == s.decisions[d := row] && t in {DecisionSubmitted, DecisionApproved, DecisionRejected}
    ensures var statuses := match t case DecisionSubmitted => NOT_PENDING
                                    case DecisionApproved => {Approved}
                                    case _ => {Rejected};
            Expected(s', t) == Expected(s, t)
                               - (if d in s.decisions && s.decisions[d].status in statuses then 1 else 0)
                               + (if row.status in statuses then 1 else 0)
  {
    var statuses := match t case DecisionSubmitted => NOT_PENDING
                            case DecisionApproved => {Approved}
                            case _ => {Rejected};
    DecisionsAfterUpdate(s.decisions, d, row, statuses);
  }

  lemma OverrideTableMoves(s: State, s': State, q: Request)
    requires Changes(s, s', q)
    ensures Expected(s', VetoOverridden) == Expected(s, VetoOverridden) + if q.OverrideRequest? then 1 else 0
  {
    hide HasRole, HasVoted, IsAssigned, StatusAfterVote, DecisionsIn, VoteOf;
    var before, after := OverriddenVetoes(s.vetoes), OverriddenVetoes(s'.vetoes);
    if q.VetoRequest? {
      assert after == before;
    } else if q.OverrideRequest? {
      assert after == before + {q.vetoId};
    }
  }

  lemma StatusTablesMove(s: State, s': State, q: Request, t: AuditEventType)
    requires Changes(s, s', q) && t in {DecisionSubmitted, DecisionApproved, DecisionRejected}
    ensures Expected(s', t) == Expected(s, t) + CountKinds(KindsOf(s', q), t)
  {
    hide HasRole, HasVoted, AllRequiredApproved, IsAssigned, CountKinds, Expected;
    KindsCounted(s', q, t);
    if q.CreateRequest? || q.SubmitRequest? || q.VoteRequest? || q.VetoRequest? {
      DecisionTableMoves(s, s', q.decisionId, s'.decisions[q.decisionId], t);
    } else {
      SameDecisions(s, s', t);
    }
  }

  lemma SameDecisions(s: State, s': State, t: AuditEventType)
    requires s'.decisions == s.decisions && t in {DecisionSubmitted, DecisionApproved, DecisionRejected}
    ensures Expected(s', t) == Expected(s, t)
  {
  }

  /** Each call moves the tables by what it records. */
  lemma TablesMoveAsRecorded(s: State, s': State, q: Request, t: AuditEventType)
    requires Changes(s, s', q) && t !in ROLE_EVENTS
    ensures Expected(s', t) == Expected(s, t) + CountKinds(KindsOf(s', q), t)
  {
    hide HasRole, HasVoted, AllRequiredApproved, IsAssigned, CountKinds, DecisionsIn, OverriddenVetoes;
    if t in {DecisionSubmitted, DecisionApproved, DecisionRejected} {
      StatusTablesMove(s, s', q, t);
    } else {
      KindsCounted(s', q, t);
      OverrideTableMoves(s, s', q);
    }
  }

  lemma KindsCounted(s': State, q: Request, t: AuditEventType)
    ensures var kinds := KindsOf(s', q);
            && 1 <= |kinds| <= 2
            && CountKinds(kinds, t) ==
               (if kinds[0] == t then 1 else 0) + (if |kinds| == 2 && kinds[1] == t then 1 else 0)
  {
    var kinds := KindsOf(s', q);
    var first := kinds[..1];
    assert first[..0] == [] && first[0] == kinds[0];
    assert CountKinds(first, t) == if kinds[0] == t then 1 else 0;
    if |kinds| == 1 {
      assert first == kinds;
    }
  }

  lemma RolesMoveAsRecorded(s: State, s': State, q: Request)
    requires Changes(s, s', q)
    ensures CountKinds(KindsOf(s', q), RoleAssigned) + |s.roles| == CountKinds(KindsOf(s', q), RoleRevoked) + |s'.roles|
  {
    hide HasRole, HasVoted, AllRequiredApproved, IsAssigned;
    KindsCounted(s', q, RoleAssigned);
    KindsCounted(s', q, RoleRevoked);
    if q.RevokeRequest? {
      assert s.roles == s'.roles[q.assignmentId := s.roles[q.assignmentId]];
    }
  }

  lemma ChangesBalance(s: State, s': State, q: Request)
    requires Changes(s, s', q) && Balanced(s) && ExtendedByKinds(s.log, s'.log, KindsOf(s', q))
    ensures Balanced(s')
  {
    hide Changes, KindsOf, CountKinds, Expected, ExtendedByKinds, Count;
    forall t | t !in ROLE_EVENTS ensures Count(s'.log, t) == Expected(s', t) {
      CountExtends(s.log, s'.log, KindsOf(s', q), t);
      TablesMoveAsRecorded(s, s', q, t);
    }
    CountExtends(s.log, s'.log, KindsOf(s', q), RoleAssigned);
    CountExtends(s.log, s'.log, KindsOf(s', q), RoleRevoked);
    RolesMoveAsRecorded(s, s', q);
  }

  /** In every run the log balances with the tables. */
  lemma {:induction false} EveryRunBalances(hash: Hash, requests: seq<Request>)
    ensures Balanced(Run(hash, requests))
  {
    hide Attempt, Changes, KindsOf, ExtendedByKinds;
    if requests != [] {
      var s, q := Run(hash, requests[..|requests| - 1]), requests[|requests| - 1];
      EveryRunBalances(hash, requests[..|requests| - 1]);
      if Attempt(hash, s, q).Success? {
        var s' := SuccessRecords(hash, s, q);
        RecordsHaveKinds(s, s', q);
        ChangesBalance(s, s', q);
      }
    }
  }
}
