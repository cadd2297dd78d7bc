/**
  The audit table: rows in the order they were inserted, read back by time of occurrence.

  The database leaves the order of rows with equal times open, so every order it may choose counts
  as a read-back, and the row that the last hash comes from is chosen by the environment (`tie`).
 */
module AuditTrail {
  import opened Enums
  import opened AuditChain
  import opened Rearrangements

  /** What a service asks to be recorded. */
  datatype Draft = Draft(
    eventType: AuditEventType,
    entityType: string,
    entityId: string,
    actorId: string,
    description: string,
    details: map<string, Detail>)

  function DraftOf(e: AuditEvent): Draft {
    Draft(e.content.eventType, e.content.entityType, e.content.entityId, e.content.actorId, e.content.description,
          e.content.details)
  }

  /** The table grew by one event for each draft, in that order. */
  ghost predicate ExtendedBy(log: seq<AuditEvent>, log': seq<AuditEvent>, drafts: seq<Draft>) {
    && |log'| == |log| + |drafts| && log <= log'
    && forall k :: 0 <= k < |drafts| ==> DraftOf(log'[|log| + k]) == drafts[k]
  }

  /** What the environment supplies: the event's id, the clock, and the preference among equal times. */
  datatype Stamp = Stamp(id: string, at: int, tie: nat)

  // ----- Looking up the last hash -----

  predicate IsLatest(rows: seq<AuditEvent>, i: nat) {
    && i < |rows|
    && forall j :: 0 <= j < |rows| ==> rows[j].content.occurredAt <= rows[i].content.occurredAt
  }

  function SomeLatest(rows: seq<AuditEvent>): (i: nat)
    requires rows != []
    ensures IsLatest(rows, i)
  {
    var last := |rows| - 1;
    if last == 0 then 0 else
      var i := SomeLatest(rows[..last]);
      assert forall j :: 0 <= j < last ==> rows[..last][j] == rows[j];
      if rows[last].content.occurredAt > rows[i].content.occurredAt then last else i
  }

  function GetLastHash(rows: seq<AuditEvent>, tie: nat): Option<string> {
    if rows == [] then None
    else Some(rows[if IsLatest(rows, tie) then tie else SomeLatest(rows)].eventHash)
  }

  /** The event that recording a draft adds to the table. */
  function Entry(hash: Hash, rows: seq<AuditEvent>, draft: Draft, stamp: Stamp): AuditEvent {
    var lastHash := GetLastHash(rows, stamp.tie);
    var previous := if lastHash.Some? && lastHash.value != "" then lastHash.value else GENESIS_HASH;
    AuditEvent(
      stamp.id,
      Content(draft.eventType, draft.entityType, draft.entityId, draft.actorId, draft.description,
              draft.details, stamp.at, previous),
      "").Seal(hash)
  }

  // ----- Tables that recording can produce -----

  ghost predicate RefersBack(rows: seq<AuditEvent>, k: nat, i: nat)
    requires i < k < |rows|
  {
    && IsLatest(rows[..k], i)
    && rows[k].content.previousHash == (if rows[i].eventHash == "" then GENESIS_HASH else rows[i].eventHash)
  }

  ghost predicate RecordedAt(hash: Hash, rows: seq<AuditEvent>, k: nat)
    requires k < |rows|
  {
    && rows[k].Verify(hash)
    && if k == 0 then rows[k].content.previousHash == GENESIS_HASH
       else exists i :: 0 <= i < k && RefersBack(rows, k, i)
  }

  /** Every row was sealed behind one of the latest rows that were there when it was inserted. */
  ghost predicate Recorded(hash: Hash, rows: seq<AuditEvent>) {
    forall k :: 0 <= k < |rows| ==> RecordedAt(hash, rows, k)
  }

  lemma RecordingKeepsRecorded(hash: Hash, rows: seq<AuditEvent>, draft: Draft, stamp: Stamp)
    requires Recorded(hash, rows)
    ensures Recorded(hash, rows + [Entry(hash, rows, draft, stamp)])
  {
    var longer := rows + [Entry(hash, rows, draft, stamp)];
    forall k | 0 <= k < |longer| ensures RecordedAt(hash, longer, k) {
      if k < |rows| {
        assert RecordedAt(hash, rows, k) && longer[..k] == rows[..k];
        if k > 0 {
          var i :| 0 <= i < k && RefersBack(rows, k, i);
          assert RefersBack(longer, k, i);
        }
      } else if k > 0 {
        assert longer[..k] == rows;
        var i := if IsLatest(rows, stamp.tie) then stamp.tie else SomeLatest(rows);
        assert RefersBack(longer, k, i);
      }
    }
  }

  // ----- Reading back -----

  predicate TimeOrdered(rows: seq<AuditEvent>) {
    forall i, j :: 0 <= i < j < |rows| ==> rows[i].content.occurredAt <= rows[j].content.occurredAt
  }

  ghost predicate TimeStrictlyIncreases(rows: seq<AuditEvent>) {
    forall i, j :: 0 <= i < j < |rows| ==> rows[i].content.occurredAt < rows[j].content.occurredAt
  }

  /** Any listing of the table that a query ordered by time may return. */
  predicate IsReadBack(rows: seq<AuditEvent>, listing: seq<AuditEvent>) {
    multiset(listing) == multiset(rows) && TimeOrdered(listing)
  }

  function Limited(listing: seq<AuditEvent>, limit: nat): seq<AuditEvent> {
    if limit < |listing| then listing[..limit] else listing
  }

  function InsertByTime(sorted: seq<AuditEvent>, e: AuditEvent): seq<AuditEvent> {
    if sorted == [] || sorted[|sorted| - 1].content.occurredAt <= e.content.occurredAt then sorted + [e]
    else InsertByTime(sorted[..|sorted| - 1], e) + [sorted[|sorted| - 1]]
  }

  /** The read-back that keeps rows of equal time in the order of insertion. */
  function SortByTime(rows: seq<AuditEvent>): seq<AuditEvent> {
    if rows == [] then [] else InsertByTime(SortByTime(rows[..|rows| - 1]), rows[|rows| - 1])
  }

  /** What a query ordered by time returns: any read-back may be preferred. */
  function ReadBack(rows: seq<AuditEvent>, preferred: seq<AuditEvent>): seq<AuditEvent> {
    if IsReadBack(rows, preferred) then preferred else SortByTime(rows)
  }

  function GetChain(rows: seq<AuditEvent>, limit: nat, preferred: seq<AuditEvent>): seq<AuditEvent> {
    Limited(ReadBack(rows, preferred), limit)
  }

  lemma {:induction false} InsertByTimeKeeps(sorted: seq<AuditEvent>, e: AuditEvent)
    ensures multiset(InsertByTime(sorted, e)) == multiset(sorted) + multiset{e}
  {
    if sorted != [] && sorted[|sorted| - 1].content.occurredAt > e.content.occurredAt {
      InsertByTimeKeeps(sorted[..|sorted| - 1], e);
      LastSplits(sorted);
    }
  }

  lemma {:induction false} InsertByTimeBounded(sorted: seq<AuditEvent>, e: AuditEvent, t: int)
    requires forall x :: x in sorted ==> x.content.occurredAt <= t
    requires e.content.occurredAt <= t
    ensures forall x :: x in InsertByTime(sorted, e) ==> x.content.occurredAt <= t
  {
    if sorted != [] && sorted[|sorted| - 1].content.occurredAt > e.content.occurredAt {
      InsertByTimeBounded(sorted[..|sorted| - 1], e, t);
    }
  }

  lemma {:induction false} InsertByTimeSorts(sorted: seq<AuditEvent>, e: AuditEvent)
    requires TimeOrdered(sorted)
    ensures TimeOrdered(InsertByTime(sorted, e))
  {
    if sorted != [] && sorted[|sorted| - 1].content.occurredAt > e.content.occurredAt {
      var front, last := sorted[..|sorted| - 1], sorted[|sorted| - 1];
      InsertByTimeSorts(front, e);
      InsertByTimeBounded(front, e, last.content.occurredAt);
    }
  }

  lemma {:induction false} SortByTimeReadsBack(rows: seq<AuditEvent>)
    ensures IsReadBack(rows, SortByTime(rows))
  {
    if rows != [] {
      SortByTimeReadsBack(rows[..|rows| - 1]);
      InsertByTimeSorts(SortByTime(rows[..|rows| - 1]), rows[|rows| - 1]);
      InsertByTimeKeeps(SortByTime(rows[..|rows| - 1]), rows[|rows| - 1]);
      LastSplits(rows);
    }
  }

  /** What the query returns is a read-back, and it may be any. */
  lemma EveryReadBackIsPossible(rows: seq<AuditEvent>, preferred: seq<AuditEvent>)
    ensures IsReadBack(rows, ReadBack(rows, preferred))
    ensures ReadBack(rows, preferred) == preferred <==> IsReadBack(rows, preferred)
  {
    SortByTimeReadsBack(rows);
  }

  // ----- When the read-back verifies -----

  lemma RecordedInStrictTimeIsValid(hash: Hash, rows: seq<AuditEvent>)
    requires Recorded(hash, rows) && TimeStrictlyIncreases(rows) && SoundOn(hash, Contents(rows))
    ensures ValidChain(hash, rows)
    ensures forall tie :: rows != [] ==> GetLastHash(rows, tie) == Some(Head(rows))
  {
    forall k | 0 <= k < |rows| ensures LinkedAt(hash, rows, k) {
      assert RecordedAt(hash, rows, k);
      if k > 0 {
        var i :| 0 <= i < k && RefersBack(rows, k, i);
        assert rows[..k][k - 1] == rows[k - 1] && rows[..k][i] == rows[i];
        assert i == k - 1;
        assert RecordedAt(hash, rows, i) && rows[i].content in Contents(rows);
      }
    }
  }

  lemma {:induction false} StrictTimeHasOneReadBack(rows: seq<AuditEvent>, listing: seq<AuditEvent>)
    requires TimeStrictlyIncreases(rows) && IsReadBack(rows, listing)
    ensures listing == rows
  {
    SameElements(listing, rows);
    if rows != [] {
      var n := |rows| - 1;
      SameLast(rows, listing);
      LastSplits(rows);
      LastSplits(listing);
      FrontIsReadBack(rows, listing, n);
      hide IsReadBack, TimeStrictlyIncreases;
      StrictTimeHasOneReadBack(rows[..n], listing[..n]);
    }
  }

  lemma FrontIsReadBack(rows: seq<AuditEvent>, listing: seq<AuditEvent>, n: nat)
    requires TimeStrictlyIncreases(rows) && TimeOrdered(listing) && n <= |rows| == |listing|
    requires multiset(listing[..n]) == multiset(rows[..n])
    ensures TimeStrictlyIncreases(rows[..n]) && IsReadBack(rows[..n], listing[..n])
  {
  }

  lemma SameLast(rows: seq<AuditEvent>, listing: seq<AuditEvent>)
    requires TimeStrictlyIncreases(rows) && TimeOrdered(listing) && rows != [] && |listing| == |rows|
    requires forall e :: e in listing <==> e in rows
    ensures listing[|rows| - 1] == rows[|rows| - 1]
  {
    var n := |rows| - 1;
    assert rows[n] in listing && listing[n] in rows;
    var i :| 0 <= i <= n && listing[i] == rows[n];
    var j :| 0 <= j <= n && rows[j] == listing[n];
    assert rows[n].content.occurredAt <= listing[n].content.occurredAt;
  }

  /** A rearrangement of a recorded table that verifies is the order of insertion. */
  lemma VerifyingRearrangementIsInsertionOrder(hash: Hash, rows: seq<AuditEvent>, listing: seq<AuditEvent>)
    requires Recorded(hash, rows) && SoundOn(hash, Contents(rows))
    requires multiset(listing) == multiset(rows) && ValidChain(hash, listing)
    ensures listing == rows && Distinct(rows)
  {
    SameElements(listing, rows);
    assert Contents(listing) <= Contents(rows);
    HashesAreDistinct(hash, listing);
    assert Distinct(listing);
    DistinctCarriesOver(listing, rows);
    ListingFollowsRows(hash, rows, listing, |rows|);
  }

  lemma {:induction false} ListingFollowsRows(hash: Hash, rows: seq<AuditEvent>, listing: seq<AuditEvent>, n: nat)
    requires Recorded(hash, rows) && SoundOn(hash, Contents(rows)) && Distinct(rows)
    requires ValidChain(hash, listing) && (forall e :: e in listing <==> e in rows)
    requires forall i, j :: 0 <= i < j < |listing| ==> listing[i].eventHash != listing[j].eventHash
    requires n <= |rows| == |listing|
    ensures forall m :: 0 <= m < n ==> listing[m] == rows[m]
  {
    if n > 0 {
      var k := n - 1;
      ListingFollowsRows(hash, rows, listing, k);
      assert rows[k] in listing;
      var j :| 0 <= j < |listing| && listing[j] == rows[k];
      PlacedWhereInserted(hash, rows, listing, k, j);
    }
  }

  lemma PlacedWhereInserted(hash: Hash, rows: seq<AuditEvent>, listing: seq<AuditEvent>, k: nat, j: nat)
    requires Recorded(hash, rows) && SoundOn(hash, Contents(rows)) && Distinct(rows)
    requires ValidChain(hash, listing) && (forall e :: e in listing <==> e in rows)
    requires forall i, j :: 0 <= i < j < |listing| ==> listing[i].eventHash != listing[j].eventHash
    requires k < |rows| == |listing| && forall m :: 0 <= m < k ==> listing[m] == rows[m]
    requires j < |listing| && listing[j] == rows[k]
    ensures j == k
  {
    assert RecordedAt(hash, rows, k) && LinkedAt(hash, listing, j);
    if j > 0 {
      assert listing[j - 1] in rows && listing[j - 1].content in Contents(rows);
      assert LinkedAt(hash, listing, j - 1);
    }
    if k > 0 {
      var p :| 0 <= p < k && RefersBack(rows, k, p);
      assert RecordedAt(hash, rows, p) && rows[p].content in Contents(rows);
      assert listing[p] == rows[p];
    }
  }

  /**
    Whatever the clock did while the rows were recorded: every read-back verifies at every limit
    exactly when the times strictly increased.
   */
  lemma ReadBackVerifiesIff(hash: Hash, rows: seq<AuditEvent>)
    requires Recorded(hash, rows) && SoundOn(hash, Contents(rows))
    ensures (forall listing, limit: nat :: IsReadBack(rows, listing) ==> ValidChain(hash, Limited(listing, limit)))
            <==> TimeStrictlyIncreases(rows)
  {
    if TimeStrictlyIncreases(rows) {
      RecordedInStrictTimeIsValid(hash, rows);
      forall listing, limit: nat | IsReadBack(rows, listing) ensures ValidChain(hash, Limited(listing, limit)) {
        StrictTimeHasOneReadBack(rows, listing);
        if limit < |rows| {
          PrefixesAreValid(hash, rows, limit);
        }
      }
    } else {
      var listing := UnverifiableReadBack(hash, rows);
      assert !ValidChain(hash, Limited(listing, |listing|));
    }
  }

  /** When two times coincide or the clock went back, some read-back does not verify. */
  lemma UnverifiableReadBack(hash: Hash, rows: seq<AuditEvent>) returns (listing: seq<AuditEvent>)
    requires Recorded(hash, rows) && SoundOn(hash, Contents(rows)) && !TimeStrictlyIncreases(rows)
    ensures IsReadBack(rows, listing) && !ValidChain(hash, listing)
  {
    listing := SortByTime(rows);
    SortByTimeReadsBack(rows);
    if ValidChain(hash, listing) {
      VerifyingRearrangementIsInsertionOrder(hash, rows, listing);
      var i := TiedNeighbours(rows);
      listing := SwapTied(rows, i);
      if ValidChain(hash, listing) {
        VerifyingRearrangementIsInsertionOrder(hash, rows, listing);
        assert false;
      }
    }
  }

  lemma SwapTied(rows: seq<AuditEvent>, i: nat) returns (listing: seq<AuditEvent>)
    requires TimeOrdered(rows) && Distinct(rows)
    requires i + 1 < |rows| && rows[i].content.occurredAt == rows[i + 1].content.occurredAt
    ensures IsReadBack(rows, listing) && listing != rows
  {
    listing := rows[i := rows[i + 1]][i + 1 := rows[i]];
    SwappingNeighboursKeeps(rows, i);
    assert listing[i] != rows[i];
    assert forall k :: 0 <= k < |rows| ==> listing[k].content.occurredAt == rows[k].content.occurredAt;
  }

  lemma TiedNeighbours(rows: seq<AuditEvent>) returns (i: nat)
    requires TimeOrdered(rows) && !TimeStrictlyIncreases(rows)
    ensures i + 1 < |rows| && rows[i].content.occurredAt == rows[i + 1].content.occurredAt
  {
    var k, j :| 0 <= k < j < |rows| && rows[k].content.occurredAt >= rows[j].content.occurredAt;
    assert rows[k].content.occurredAt <= rows[k + 1].content.occurredAt;
    assert k + 1 < j ==> rows[k + 1].content.occurredAt <= rows[j].content.occurredAt;
    i := k;
  }

  // ----- Altering one row behind a limited check -----

  /** The chain without its event `i`, and `e` at place `j` instead. */
  function Replaced(a: seq<AuditEvent>, i: nat, e: AuditEvent, j: nat): seq<AuditEvent>
    requires i < |a| && j < |a|
  {
    var rest := a[..i] + a[i + 1..];
    rest[..j] + [e] + rest[j..]
  }

  /**
    The replacement goes unseen: neither place is looked at, or only the id changed, or it is the
    last event looked at, sealed anew behind the events before it.
   */
  ghost predicate Unseen(hash: Hash, a: seq<AuditEvent>, i: nat, e: AuditEvent, j: nat, limit: nat)
    requires i < |a| && j < |a|
  {
    || (limit <= i && limit <= j)
    || (j == i && SameButId(e, a[i]))
    || (j <= i && (j + 1 == limit || j + 1 == |a|) && e.Verify(hash) && e.content.previousHash == Head(a[..j]))
  }

  lemma ReplacedInPlace(hash: Hash, a: seq<AuditEvent>, i: nat, e: AuditEvent, limit: nat)
    requires ValidChain(hash, a) && i < |a| && i < limit
    requires SoundOn(hash, Contents(a) + {e.content})
    ensures ValidChain(hash, Limited(Replaced(a, i, e, i), limit)) <==> Unseen(hash, a, i, e, i, limit)
  {
    var n := if limit < |a| then limit else |a|;
    var front := a[..n];
    assert Limited(Replaced(a, i, e, i), limit) == front[i := e];
    assert front[..i] == a[..i] && front[i] == a[i];
    assert Contents(front) <= Contents(a);
    PrefixesAreValid(hash, a, n);
    SoundOnPart(hash, Contents(front) + {e.content}, Contents(a) + {e.content});
    hide ValidChain, SoundOn, Contents;
    AlterationUnseenIff(hash, front, i, e);
  }

  /** Where an event was taken out and not replaced, the next one no longer fits. */
  lemma ReplacedLater(hash: Hash, a: seq<AuditEvent>, i: nat, e: AuditEvent, j: nat, limit: nat)
    requires ValidChain(hash, a) && i < j < |a| && i < limit
    requires SoundOn(hash, Contents(a))
    ensures !ValidChain(hash, Limited(Replaced(a, i, e, j), limit))
  {
    var b := Limited(Replaced(a, i, e, j), limit);
    assert b[i] == a[i + 1] && (i > 0 ==> b[i - 1] == a[i - 1]);
    HashesAreDistinct(hash, a);
    assert LinkedAt(hash, a, i) && LinkedAt(hash, a, i + 1);
    assert a[i].content in Contents(a);
    assert !LinkedAt(hash, b, i);
  }

  /** Where an event was put in, the next one no longer fits. */
  lemma ReplacedEarlier(hash: Hash, a: seq<AuditEvent>, i: nat, e: AuditEvent, j: nat, limit: nat)
    requires ValidChain(hash, a) && j < i < |a| && j + 1 < limit
    requires SoundOn(hash, Contents(a) + {e.content})
    ensures !ValidChain(hash, Limited(Replaced(a, i, e, j), limit))
  {
    var b := Limited(Replaced(a, i, e, j), limit);
    assert b[j] == e && b[j + 1] == a[j] && (j > 0 ==> b[j - 1] == a[j - 1]);
    assert LinkedAt(hash, a, j);
    SealedBehindItself(hash, a, j, e);
    assert !(LinkedAt(hash, b, j) && LinkedAt(hash, b, j + 1));
  }

  /** No event can be sealed behind its own hash, if that is the head of the chain so far. */
  lemma SealedBehindItself(hash: Hash, a: seq<AuditEvent>, j: nat, e: AuditEvent)
    requires ValidChain(hash, a) && j < |a| && SoundOn(hash, Contents(a) + {e.content})
    ensures !(a[j].content.previousHash == hash(e.content) == e.content.previousHash)
  {
    assert LinkedAt(hash, a, j);
    if j > 0 && a[j].content.previousHash == hash(e.content) == e.content.previousHash {
      assert LinkedAt(hash, a, j - 1) && a[j - 1].content in Contents(a);
      assert e.content == a[j - 1].content;
      if j > 1 {
        HashesAreDistinct(hash, a);
      }
    }
  }

  /** Which replacements a check of the first `limit` events misses. */
  lemma ReplacementUnseenIff(hash: Hash, a: seq<AuditEvent>, i: nat, e: AuditEvent, j: nat, limit: nat)
    requires ValidChain(hash, a) && i < |a| && j < |a|
    requires SoundOn(hash, Contents(a) + {e.content})
    ensures ValidChain(hash, Limited(Replaced(a, i, e, j), limit)) <==> Unseen(hash, a, i, e, j, limit)
  {
    hide ValidChain, SoundOn, Contents;
    var b := Limited(Replaced(a, i, e, j), limit);
    if limit <= i && limit <= j {
      assert b == a[..limit];
      PrefixesAreValid(hash, a, limit);
    } else if i == j {
      ReplacedInPlace(hash, a, i, e, limit);
    } else if i < j {
      SoundOnPart(hash, Contents(a), Contents(a) + {e.content});
      ReplacedLater(hash, a, i, e, j, limit);
    } else if j + 1 == limit {
      assert b == a[..j] + [e];
      PrefixesAreValid(hash, a, j);
      ExtensionIsValidIff(hash, a[..j], e);
    } else {
      ReplacedEarlier(hash, a, i, e, j, limit);
    }
  }

  /** Reading back an altered table gives the original order with the altered row at some place. */
  lemma AlteredReadBack(rows: seq<AuditEvent>, i: nat, e: AuditEvent, listing: seq<AuditEvent>) returns (j: nat)
    requires TimeStrictlyIncreases(rows) && i < |rows| && IsReadBack(rows[i := e], listing)
    ensures j < |rows| && listing == Replaced(rows, i, e, j)
  {
    var altered := rows[i := e];
    SameElements(listing, altered);
    assert altered[i] == e && e in listing;
    j :| 0 <= j < |listing| && listing[j] == e;
    var rest, others := rows[..i] + rows[i + 1..], listing[..j] + listing[j + 1..];
    assert altered[..i] + altered[i + 1..] == rest;
    SameWithout(listing, altered, j, i);
    OthersAreInOrder(rows, i, listing, j);
    StrictTimeHasOneReadBack(rest, others);
    assert listing == others[..j] + [e] + others[j..];
  }

  lemma OthersAreInOrder(rows: seq<AuditEvent>, i: nat, listing: seq<AuditEvent>, j: nat)
    requires TimeStrictlyIncreases(rows) && TimeOrdered(listing) && i < |rows| && j < |listing|
    ensures TimeStrictlyIncreases(rows[..i] + rows[i + 1..]) && TimeOrdered(listing[..j] + listing[j + 1..])
  {
  }

  /**
    One row of a table in strict order of time is altered: which of the first `limit` rows then read
    back verify.
   */
  lemma AlteredRowUnseenIff(
    hash: Hash, rows: seq<AuditEvent>, i: nat, e: AuditEvent, listing: seq<AuditEvent>, limit: nat)
    returns (j: nat)
    requires Recorded(hash, rows) && TimeStrictlyIncreases(rows) && SoundOn(hash, Contents(rows) + {e.content})
    requires i < |rows| && IsReadBack(rows[i := e], listing)
    ensures j < |rows| && listing == Replaced(rows, i, e, j)
    ensures ValidChain(hash, Limited(listing, limit)) <==> Unseen(hash, rows, i, e, j, limit)
  {
    hide Recorded, SoundOn, Contents, ValidChain, IsReadBack, TimeStrictlyIncreases, Unseen;
    SoundOnPart(hash, Contents(rows), Contents(rows) + {e.content});
    RecordedInStrictTimeIsValid(hash, rows);
    j := AlteredReadBack(rows, i, e, listing);
    ReplacementUnseenIff(hash, rows, i, e, j, limit);
  }
}
