/**
  The hash-chained audit event and the check of a whole chain.

  The hash function is a parameter everywhere.  What is assumed of it is stated only about the
  contents that are actually hashed: no two different ones share a hash, and none hashes to the
  genesis value or to the empty text.
 */
module AuditChain {
  import opened Enums

  const GENESIS_HASH: string := "0000000000000000000000000000000000000000000000000000000000000000"

  /** One value of an event's details; an instant stands for its text form. */
  datatype Detail = Text(text: string) | Flag(flag: bool) | Number(number: real) | Instant(at: int) | Null

  /** The eight fields of an event that its hash covers. */
  datatype Content = Content(
    eventType: AuditEventType,
    entityType: string,
    entityId: string,
    actorId: string,
    description: string,
    details: map<string, Detail>,
    occurredAt: int,
    previousHash: string)

  type Hash = Content -> string

  datatype AuditEvent = AuditEvent(id: string, content: Content, eventHash: string) {

    function Seal(hash: Hash): (sealed: AuditEvent) {
      this.(eventHash := hash(content))
    }

    predicate Verify(hash: Hash) {
      eventHash == hash(content)
    }
  }

  /** The hash a chain's next event has to refer to. */
  function Head(chain: seq<AuditEvent>): string {
    if chain == [] then GENESIS_HASH else chain[|chain| - 1].eventHash
  }

  /** The event carries its own hash and refers to the hash of the event before it. */
  predicate LinkedAt(hash: Hash, chain: seq<AuditEvent>, i: nat)
    requires i < |chain|
  {
    && chain[i].Verify(hash)
    && chain[i].content.previousHash == (if i == 0 then GENESIS_HASH else chain[i - 1].eventHash)
  }

  predicate ValidChain(hash: Hash, chain: seq<AuditEvent>) {
    forall i :: 0 <= i < |chain| ==> LinkedAt(hash, chain, i)
  }

  /** A chain cut off anywhere still verifies. */
  lemma PrefixesAreValid(hash: Hash, chain: seq<AuditEvent>, n: nat)
    requires ValidChain(hash, chain) && n <= |chain|
    ensures ValidChain(hash, chain[..n])
  {
    forall i | 0 <= i < n ensures LinkedAt(hash, chain[..n], i) {
      assert LinkedAt(hash, chain, i);
    }
  }

  /** What appending one event needs. */
  lemma ExtensionIsValidIff(hash: Hash, chain: seq<AuditEvent>, e: AuditEvent)
    requires ValidChain(hash, chain)
    ensures ValidChain(hash, chain + [e]) <==> e.Verify(hash) && e.content.previousHash == Head(chain)
  {
    var longer := chain + [e];
    assert forall i :: 0 <= i < |chain| && LinkedAt(hash, chain, i) ==> LinkedAt(hash, longer, i);
    assert longer[|chain|] == e;
    assert LinkedAt(hash, longer, |chain|) <==> e.Verify(hash) && e.content.previousHash == Head(chain);
  }

  method VerifyChain(hash: Hash, events: seq<AuditEvent>) returns (ok: bool)
    ensures ok <==> ValidChain(hash, events)
  {
    if |events| == 0 {
      return true;
    }
    if events[0].content.previousHash != GENESIS_HASH {
      assert !LinkedAt(hash, events, 0);
      return false;
    }
    for i := 0 to |events|
      invariant forall k :: 0 <= k < i ==> LinkedAt(hash, events, k)
    {
      if !events[i].Verify(hash) {
        assert !LinkedAt(hash, events, i);
        return false;
      }
      if i > 0 && events[i].content.previousHash != events[i - 1].eventHash {
        assert !LinkedAt(hash, events, i);
        return false;
      }
    }
    return true;
  }

  // ----- What is assumed of the hash -----

  ghost function Contents(chain: seq<AuditEvent>): set<Content> {
    set e | e in chain :: e.content
  }

  ghost predicate SoundOn(hash: Hash, contents: set<Content>) {
    && (forall p, q :: p in contents && q in contents && hash(p) == hash(q) ==> p == q)
    && (forall p :: p in contents ==> hash(p) != GENESIS_HASH && hash(p) != "")
  }

  lemma SoundOnPart(hash: Hash, part: set<Content>, all: set<Content>)
    requires SoundOn(hash, all) && part <= all
    ensures SoundOn(hash, part)
  {
  }

  // ----- The head hash commits to the history -----

  ghost predicate SameButId(a: AuditEvent, b: AuditEvent) {
    a.content == b.content && a.eventHash == b.eventHash
  }

  ghost predicate SameHistory(a: seq<AuditEvent>, b: seq<AuditEvent>) {
    |a| == |b| && forall i :: 0 <= i < |a| ==> SameButId(a[i], b[i])
  }

  lemma {:induction false} HeadCommitsToHistory(hash: Hash, a: seq<AuditEvent>, b: seq<AuditEvent>)
    requires ValidChain(hash, a) && ValidChain(hash, b)
    requires SoundOn(hash, Contents(a) + Contents(b))
    ensures Head(a) == Head(b) <==> SameHistory(a, b)
    decreases |a|
  {
    hide SoundOn, ValidChain, LinkedAt;
    if Head(a) == Head(b) {
      if a == [] || b == [] {
        SoundOnPart(hash, Contents(a), Contents(a) + Contents(b));
        SoundOnPart(hash, Contents(b), Contents(a) + Contents(b));
        HeadOfNonEmptyIsNotGenesis(hash, a);
        HeadOfNonEmptyIsNotGenesis(hash, b);
      } else {
        var n, m := |a| - 1, |b| - 1;
        LastEventsAgree(hash, a, b);
        PrefixesAreValid(hash, a, n);
        PrefixesAreValid(hash, b, m);
        SoundOnPart(hash, Contents(a[..n]) + Contents(b[..m]), Contents(a) + Contents(b));
        HeadCommitsToHistory(hash, a[..n], b[..m]);
        assert a == a[..n] + [a[n]] && b == b[..m] + [b[m]];
      }
    }
  }

  lemma HeadOfNonEmptyIsNotGenesis(hash: Hash, a: seq<AuditEvent>)
    requires ValidChain(hash, a) && SoundOn(hash, Contents(a))
    ensures Head(a) == GENESIS_HASH <==> a == []
  {
    if a != [] {
      assert LinkedAt(hash, a, |a| - 1) && a[|a| - 1].content in Contents(a);
    }
  }

  lemma LastEventsAgree(hash: Hash, a: seq<AuditEvent>, b: seq<AuditEvent>)
    requires ValidChain(hash, a) && ValidChain(hash, b) && a != [] && b != []
    requires SoundOn(hash, Contents(a) + Contents(b)) && Head(a) == Head(b)
    ensures SameButId(a[|a| - 1], b[|b| - 1])
    ensures Head(a[..|a| - 1]) == Head(b[..|b| - 1])
  {
    hide SoundOn, LinkedAt;
    var all := Contents(a) + Contents(b);
    LastIsLinked(hash, a);
    LastIsLinked(hash, b);
    hide Contents, ValidChain;
    SameContentBehindSameHash(hash, all, a[|a| - 1].content, b[|b| - 1].content);
  }

  lemma LastIsLinked(hash: Hash, a: seq<AuditEvent>)
    requires ValidChain(hash, a) && a != []
    ensures var last := a[|a| - 1];
            && last.content in Contents(a) && last.eventHash == Head(a) == hash(last.content)
            && last.content.previousHash == Head(a[..|a| - 1])
  {
    assert LinkedAt(hash, a, |a| - 1);
  }

  lemma SameContentBehindSameHash(hash: Hash, all: set<Content>, p: Content, q: Content)
    requires SoundOn(hash, all) && p in all && q in all && hash(p) == hash(q)
    ensures p == q
  {
  }

  /** No two events of a valid chain share a hash. */
  lemma HashesAreDistinct(hash: Hash, a: seq<AuditEvent>)
    requires ValidChain(hash, a) && SoundOn(hash, Contents(a))
    ensures forall i, j :: 0 <= i < j < |a| ==> a[i].eventHash != a[j].eventHash
  {
    forall i, j | 0 <= i < j < |a| ensures a[i].eventHash != a[j].eventHash {
      assert Contents(a[..i + 1]) + Contents(a[..j + 1]) <= Contents(a);
      PrefixesAreValid(hash, a, i + 1);
      PrefixesAreValid(hash, a, j + 1);
      HeadCommitsToHistory(hash, a[..i + 1], a[..j + 1]);
    }
  }

  // ----- Reordering, dropping and repeating events -----

  /**
    Lists made of events of a valid chain, in whatever order and however often, verify exactly
    when they are prefixes of it.
   */
  lemma SelectionsThatVerifyArePrefixes(hash: Hash, a: seq<AuditEvent>, b: seq<AuditEvent>)
    requires ValidChain(hash, a) && SoundOn(hash, Contents(a))
    requires forall e :: e in b ==> e in a
    ensures ValidChain(hash, b) <==> b <= a
  {
    if b <= a {
      assert b == a[..|b|];
      PrefixesAreValid(hash, a, |b|);
    } else if ValidChain(hash, b) {
      VerifyingSelectionAgrees(hash, a, b, |b|);
    }
  }

  lemma {:induction false} VerifyingSelectionAgrees(hash: Hash, a: seq<AuditEvent>, b: seq<AuditEvent>, n: nat)
    requires ValidChain(hash, a) && SoundOn(hash, Contents(a))
    requires forall e :: e in b ==> e in a
    requires ValidChain(hash, b) && n <= |b|
    ensures n <= |a| && b[..n] == a[..n]
  {
    if n > 0 {
      VerifyingSelectionAgrees(hash, a, b, n - 1);
      assert b[n - 1] in b;
      var j :| 0 <= j < |a| && a[j] == b[n - 1];
      NextOfSelection(hash, a, b, n - 1, j);
      assert b[..n] == b[..n - 1] + [b[n - 1]] && a[..n] == a[..n - 1] + [a[n - 1]];
    }
  }

  /** In a verifying selection that follows the chain up to `k`, what comes next is the chain's event `k`. */
  lemma NextOfSelection(hash: Hash, a: seq<AuditEvent>, b: seq<AuditEvent>, k: nat, j: nat)
    requires ValidChain(hash, a) && SoundOn(hash, Contents(a)) && ValidChain(hash, b)
    requires k < |b| && k <= |a| && b[..k] == a[..k]
    requires j < |a| && a[j] == b[k]
    ensures j == k
  {
    HashesAreDistinct(hash, a);
    assert LinkedAt(hash, b, k) && LinkedAt(hash, a, j);
    if j > 0 {
      assert LinkedAt(hash, a, j - 1) && a[j - 1].content in Contents(a);
    }
    if k > 0 {
      assert b[k - 1] == b[..k][k - 1] == a[..k][k - 1] == a[k - 1];
      assert LinkedAt(hash, a, k - 1) && a[k - 1].content in Contents(a);
    }
  }

  /** The only rearrangement of a valid chain that verifies is the chain itself. */
  lemma OnlyOneOrderVerifies(hash: Hash, a: seq<AuditEvent>, b: seq<AuditEvent>)
    requires ValidChain(hash, a) && SoundOn(hash, Contents(a))
    requires multiset(b) == multiset(a)
    ensures ValidChain(hash, b) <==> b == a
  {
    forall e | e in b ensures e in a {
      assert e in multiset(b);
    }
    assert |b| == |multiset(b)| == |multiset(a)| == |a|;
    SelectionsThatVerifyArePrefixes(hash, a, b);
  }

  // ----- Altering one event -----

  /**
    Replacing one event goes unseen exactly when the replacement differs at most in its id, or when
    it is the last event and was sealed anew behind the same predecessor.
   */
  lemma AlterationUnseenIff(hash: Hash, a: seq<AuditEvent>, i: nat, e: AuditEvent)
    requires ValidChain(hash, a) && i < |a|
    requires SoundOn(hash, Contents(a) + {e.content})
    ensures ValidChain(hash, a[i := e]) <==>
            || SameButId(e, a[i])
            || (i == |a| - 1 && e.Verify(hash) && e.content.previousHash == Head(a[..i]))
  {
    var b := a[i := e];
    assert a[i].content in Contents(a) && LinkedAt(hash, a, i);
    if ValidChain(hash, b) {
      assert LinkedAt(hash, b, i);
      if i < |a| - 1 {
        assert LinkedAt(hash, b, i + 1) && LinkedAt(hash, a, i + 1);
        assert e.eventHash == a[i].eventHash;
      }
    } else if SameButId(e, a[i]) || (i == |a| - 1 && e.Verify(hash) && e.content.previousHash == Head(a[..i])) {
      forall k | 0 <= k < |b| ensures LinkedAt(hash, b, k) {
        assert LinkedAt(hash, a, k);
      }
    }
  }
}
