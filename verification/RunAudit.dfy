/** The audit trail of a whole run: when it verifies, and what its head hash says about the tables. */
module RunAudit {
  import opened Enums
  import opened AuditChain
  import opened AuditTrail
  import opened Governance
  import opened Effects
  import opened Replay

  lemma BothKeepRecorded(hash: Hash, log: seq<AuditEvent>, drafts: seq<Draft>, stamps: (Stamp, Stamp))
    requires Recorded(hash, log) && 1 <= |drafts| <= 2
    ensures Recorded(hash, Recording(hash, log, drafts, stamps))
  {
    hide Recorded, Entry;
    RecordingKeepsRecorded(hash, log, drafts[0], stamps.0);
    if |drafts| == 2 {
      RecordingKeepsRecorded(hash, log + [Entry(hash, log, drafts[0], stamps.0)], drafts[1], stamps.1);
    }
  }

  lemma NextKeepsRecorded(hash: Hash, s: State, q: Request)
    requires Recorded(hash, s.log)
    ensures Recorded(hash, Next(hash, s, q).log)
  {
    hide Attempt, Recorded, Recording, Changes, Records;
    if Attempt(hash, s, q).Success? {
      var s' := SuccessRecords(hash, s, q);
      BothKeepRecorded(hash, s.log, Records(s, s', q), StampsOf(q));
    }
  }

  lemma {:induction false} EveryRunIsRecorded(hash: Hash, requests: seq<Request>)
    ensures Recorded(hash, Run(hash, requests).log)
  {
    hide Attempt;
    if requests != [] {
      EveryRunIsRecorded(hash, requests[..|requests| - 1]);
      NextKeepsRecorded(hash, Run(hash, requests[..|requests| - 1]), requests[|requests| - 1]);
    }
  }

  /**
    After any run, whatever the clock did: the stored trail verifies for every limit and every order
    the database may pick among equal times exactly when the recorded times strictly increase.
   */
  lemma RunVerifiesIffTimeIncreases(hash: Hash, requests: seq<Request>)
    requires SoundOn(hash, Contents(Run(hash, requests).log))
    ensures (forall listing, limit: nat :: IsReadBack(Run(hash, requests).log, listing)
               ==> ValidChain(hash, Limited(listing, limit)))
            <==> TimeStrictlyIncreases(Run(hash, requests).log)
  {
    hide *;
    EveryRunIsRecorded(hash, requests);
    ReadBackVerifiesIff(hash, Run(hash, requests).log);
  }

  /** The service's own check passes for every limit and every preference exactly when the times strictly increase. */
  lemma IntegrityCheckPassesIff(hash: Hash, requests: seq<Request>)
    requires SoundOn(hash, Contents(Run(hash, requests).log))
    ensures (forall limit: nat, preferred :: ValidChain(hash, GetChain(Run(hash, requests).log, limit, preferred)))
            <==> TimeStrictlyIncreases(Run(hash, requests).log)
  {
    hide Run, SoundOn, IsReadBack, ValidChain, TimeStrictlyIncreases, ReadBack, Limited;
    var log := Run(hash, requests).log;
    RunVerifiesIffTimeIncreases(hash, requests);
    if TimeStrictlyIncreases(log) {
      forall limit: nat, preferred ensures ValidChain(hash, GetChain(log, limit, preferred)) {
        EveryReadBackIsPossible(log, preferred);
      }
    }
    if forall limit: nat, preferred :: ValidChain(hash, GetChain(log, limit, preferred)) {
      forall listing, limit: nat | IsReadBack(log, listing) ensures ValidChain(hash, Limited(listing, limit)) {
        EveryReadBackIsPossible(log, listing);
        assert ValidChain(hash, GetChain(log, limit, listing));
      }
    }
  }

  /** After a run in strict time, one stored row is altered: when the service's check does not notice. */
  lemma IntegrityCheckMissesIff(
    hash: Hash, requests: seq<Request>, i: nat, e: AuditEvent, limit: nat, preferred: seq<AuditEvent>)
    returns (j: nat)
    requires SoundOn(hash, Contents(Run(hash, requests).log) + {e.content})
    requires TimeStrictlyIncreases(Run(hash, requests).log) && i < |Run(hash, requests).log|
    ensures var log := Run(hash, requests).log;
            && j < |log| && ReadBack(log[i := e], preferred) == Replaced(log, i, e, j)
            && (ValidChain(hash, GetChain(log[i := e], limit, preferred)) <==> Unseen(hash, log, i, e, j, limit))
  {
    hide Run, SoundOn, Contents, IsReadBack, ValidChain, TimeStrictlyIncreases;
    hide ReadBack, Limited, Unseen, Recorded, Replaced;
    var log := Run(hash, requests).log;
    EveryRunIsRecorded(hash, requests);
    EveryReadBackIsPossible(log[i := e], preferred);
    j := AlteredRowUnseenIff(hash, log, i, e, ReadBack(log[i := e], preferred), limit);
  }

  // ----- A run whose trail need not verify -----

  /** Two requests within one tick of the clock. */
  const SAME_TICK := [
    CreateRequest("d", DataPromotion, "t", "", "sales", "u1", Stamp("e1", 0, 0)),
    SubmitRequest("d", "u1", Stamp("e2", 0, 0))]

  /** A reachable table whose times do not strictly increase, so that some read-back of it does not verify. */
  lemma TimesMayCoincide(hash: Hash)
    ensures |Run(hash, SAME_TICK).log| == 2 && !TimeStrictlyIncreases(Run(hash, SAME_TICK).log)
    ensures SoundOn(hash, Contents(Run(hash, SAME_TICK).log))
            ==> exists limit: nat, preferred :: !ValidChain(hash, GetChain(Run(hash, SAME_TICK).log, limit, preferred))
  {
    hide ValidChain, SoundOn, GetChain, GetLastHash;
    var q := SAME_TICK;
    assert q[..1] + [q[1]] == q && q[..1][..0] == [];
    assert Run(hash, []) == EMPTY;
    var s1 := Next(hash, EMPTY, q[0]);
    assert Run(hash, q[..1]) == s1;
    assert s1.log == [Entry(hash, [], CreatedDraft("d", "t", "u1"), Stamp("e1", 0, 0))];
    var s2 := Next(hash, s1, q[1]);
    assert Run(hash, q) == s2;
    assert s2.log == s1.log + [Entry(hash, s1.log, SubmittedDraft("d", "t", "u1"), Stamp("e2", 0, 0))];
    assert s2.log[0].content.occurredAt == 0 && s2.log[1].content.occurredAt == 0;
    if SoundOn(hash, Contents(Run(hash, q).log)) {
      IntegrityCheckPassesIff(hash, q);
    }
  }

  /** With strictly increasing times the last hash is the head, and reading back and replaying gives the tables. */
  lemma ReadBackReplaysToTables(hash: Hash, requests: seq<Request>, listing: seq<AuditEvent>, tie: nat)
    requires SoundOn(hash, Contents(Run(hash, requests).log)) && TimeStrictlyIncreases(Run(hash, requests).log)
    requires IsReadBack(Run(hash, requests).log, listing)
    ensures Rebuilt(ReplayOf(listing), Run(hash, requests))
    ensures listing != [] ==> GetLastHash(Run(hash, requests).log, tie) == Some(Head(listing))
  {
    hide *;
    EveryRunIsRecorded(hash, requests);
    RecordedInStrictTimeIsValid(hash, Run(hash, requests).log);
    StrictTimeHasOneReadBack(Run(hash, requests).log, listing);
    LogRebuildsTheTables(hash, requests);
  }

  // ----- The head hash commits to the tables -----

  lemma {:induction false} SameHistoryReplaysAlike(a: seq<AuditEvent>, b: seq<AuditEvent>)
    requires SameHistory(a, b)
    ensures ReplayOf(a) == ReplayOf(b)
    decreases |a|
  {
    hide Apply;
    if a != [] {
      var n := |a| - 1;
      assert SameHistory(a[..n], b[..n]) && SameButId(a[n], b[n]);
      SameHistoryReplaysAlike(a[..n], b[..n]);
    }
  }

  ghost predicate SameTables(s: State, t: State) {
    && s.roles == t.roles
    && s.decisions.Keys == t.decisions.Keys
    && (forall d :: d in s.decisions ==> s.decisions[d].status == t.decisions[d].status)
    && s.votes.Values == t.votes.Values
    && (forall i, j :: i in s.vetoes && j in t.vetoes && s.vetoes[i].decisionId == t.vetoes[j].decisionId
          ==> && s.vetoes[i].vetoedBy == t.vetoes[j].vetoedBy && s.vetoes[i].reason == t.vetoes[j].reason
              && s.vetoes[i].overriddenBy == t.vetoes[j].overriddenBy)
    && (forall d :: HasVeto(s, d) <==> HasVeto(t, d))
  }

  lemma OneLedgerOneVoteTable(l: Ledger, s: State, t: State)
    requires VotesRebuilt(l, s) && VotesRebuilt(l, t)
    ensures s.votes.Values <= t.votes.Values
  {
    forall v | v in s.votes.Values ensures v in t.votes.Values {
      var i :| i in s.votes && s.votes[i] == v;
      assert VoteKey(v.decisionId, v.voterId) in l.votes;
      var j :| j in t.votes && t.votes[j].decisionId == v.decisionId && t.votes[j].voterId == v.voterId;
      assert t.votes[j] == v;
    }
  }

  lemma OneLedgerOneState(l: Ledger, s: State, t: State)
    requires Rebuilt(l, s) && Rebuilt(l, t)
    ensures SameTables(s, t)
  {
    OneLedgerOneVoteTable(l, s, t);
    OneLedgerOneVoteTable(l, t, s);
    forall d ensures HasVeto(s, d) <==> d in l.vetoes {
    }
    forall d ensures HasVeto(t, d) <==> d in l.vetoes {
    }
  }

  /**
    Two runs whose trails end in the same hash have the same roles, decision statuses and votes, and
    the same vetoes up to their ids.
   */
  lemma HeadHashCommitsToTables(hash: Hash, r1: seq<Request>, r2: seq<Request>)
    requires SoundOn(hash, Contents(Run(hash, r1).log) + Contents(Run(hash, r2).log))
    requires TimeStrictlyIncreases(Run(hash, r1).log) && TimeStrictlyIncreases(Run(hash, r2).log)
    requires Head(Run(hash, r1).log) == Head(Run(hash, r2).log)
    ensures SameTables(Run(hash, r1), Run(hash, r2))
  {
    hide Run, Recorded, ValidChain, ReplayOf, Rebuilt, Head, SameTables, TimeStrictlyIncreases, GetLastHash, SameHistory;
    EveryRunIsRecorded(hash, r1);
    EveryRunIsRecorded(hash, r2);
    RecordedInStrictTimeIsValid(hash, Run(hash, r1).log);
    RecordedInStrictTimeIsValid(hash, Run(hash, r2).log);
    HeadCommitsToHistory(hash, Run(hash, r1).log, Run(hash, r2).log);
    SameHistoryReplaysAlike(Run(hash, r1).log, Run(hash, r2).log);
    LogRebuildsTheTables(hash, r1);
    LogRebuildsTheTables(hash, r2);
    OneLedgerOneState(ReplayOf(Run(hash, r1).log), Run(hash, r1), Run(hash, r2));
  }
}
