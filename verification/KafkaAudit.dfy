/**
  The audit consumer on the event stream, which chains the events it persists by their text.

  Messages are represented by their serialised text.  What happens around each message - a
  disconnect before it or while it is being persisted, a failure to persist it - is an input.
 */
module KafkaAudit {

  const GENESIS := "genesis"

  type Digest = string -> string

  function ComputeHashChain(sha: Digest, eventData: string, previousHash: string): string {
    sha(previousHash + ":" + eventData)
  }

  datatype Delivery = Delivery(event: string, stoppedBefore: bool, persistFails: bool, stoppedDuring: bool)

  /** What the persist function has written. */
  datatype Row = Row(event: string, chainHash: string)

  datatype ConsumerState = ConsumerState(connected: bool, running: bool, lastHash: string, rows: seq<Row>)

  const FRESH := ConsumerState(false, false, GENESIS, [])

  /** Consuming a feed that ends when the stream does. */
  function ConsumeAll(sha: Digest, s: ConsumerState, feed: seq<Delivery>): ConsumerState
    decreases |feed|
  {
    if feed == [] then s
    else
      var d := feed[0];
      if d.stoppedBefore || !s.running then s.(running := false)
      else if d.persistFails then s.(running := !d.stoppedDuring)
      else
        var chainHash := ComputeHashChain(sha, d.event, s.lastHash);
        ConsumeAll(sha, ConsumerState(s.connected, !d.stoppedDuring, chainHash, s.rows + [Row(d.event, chainHash)]),
                   feed[1..])
  }

  datatype Operation = Connect(reachable: bool) | Disconnect | Consume(feed: seq<Delivery>)

  function Perform(sha: Digest, s: ConsumerState, op: Operation): ConsumerState {
    match op
    case Connect(reachable) => s.(connected := reachable)
    case Disconnect => s.(running := false)
    case Consume(feed) => if s.connected then ConsumeAll(sha, s.(running := true), feed) else s
  }

  function PerformAll(sha: Digest, ops: seq<Operation>): ConsumerState {
    if ops == [] then FRESH else Perform(sha, PerformAll(sha, ops[..|ops| - 1]), ops[|ops| - 1])
  }

  class KafkaAuditConsumer {
    const sha: Digest
    var connected: bool
    var running: bool
    var lastHash: string
    var rows: seq<Row>

    ghost function State(): ConsumerState
      reads this
    {
      ConsumerState(connected, running, lastHash, rows)
    }

    constructor (sha: Digest)
      ensures State() == FRESH && this.sha == sha
    {
      this.sha := sha;
      connected, running, lastHash, rows := false, false, GENESIS, [];
    }

    method Connect(reachable: bool)
      modifies this
      ensures State() == Perform(sha, old(State()), Operation.Connect(reachable))
      ensures connected == reachable && running == old(running) && lastHash == old(lastHash) && rows == old(rows)
    {
      connected := reachable;
    }

    method Disconnect()
      modifies this
      ensures State() == Perform(sha, old(State()), Operation.Disconnect)
      ensures !running && connected == old(connected) && lastHash == old(lastHash) && rows == old(rows)
    {
      running := false;
    }

    /** A failure to persist ends the loop and is swallowed; the last hash then stays where it was. */
    method Consume(feed: seq<Delivery>)
      modifies this
      ensures State() == Perform(sha, old(State()), Operation.Consume(feed))
      ensures !old(connected) ==> State() == old(State())
    {
      if !connected {
        return;
      }
      running := true;
      var i := 0;
      assert feed[0..] == feed;
      while i < |feed|
        invariant i <= |feed|
        invariant ConsumeAll(sha, State(), feed[i..]) == ConsumeAll(sha, old(State()).(running := true), feed)
      {
        var d := feed[i];
        assert feed[i..][0] == d && feed[i..][1..] == feed[i + 1..];
        if d.stoppedBefore {
          running := false;
        }
        if !running {
          return;
        }
        var chainHash := ComputeHashChain(sha, d.event, lastHash);
        if d.persistFails {
          running := !d.stoppedDuring;
          return;
        }
        rows := rows + [Row(d.event, chainHash)];
        lastHash := chainHash;
        if d.stoppedDuring {
          running := false;
        }
        i := i + 1;
      }
    }
  }

  // ----- Which events are persisted -----

  /** The first `n` deliveries are persisted: nothing stopped or failed before or at them, nor stopped while they went on. */
  ghost predicate Undisturbed(feed: seq<Delivery>, n: nat) {
    && n <= |feed|
    && (forall i :: 0 <= i < n ==> !feed[i].stoppedBefore && !feed[i].persistFails)
    && (forall i :: 0 <= i < n - 1 ==> !feed[i].stoppedDuring)
  }

  /** What consuming the first `n` deliveries of a feed, and no more, leaves. */
  ghost predicate Persisted(s: ConsumerState, s': ConsumerState, feed: seq<Delivery>, n: nat)
    requires n <= |feed|
  {
    && s'.connected == s.connected
    && |s'.rows| == |s.rows| + n && s.rows <= s'.rows
    && (forall i :: 0 <= i < n ==> s'.rows[|s.rows| + i].event == feed[i].event)
    && (s'.running <==>
        && (n > 0 ==> !feed[n - 1].stoppedDuring)
        && (n < |feed| ==> !feed[n].stoppedBefore && !feed[n].stoppedDuring))
  }

  lemma {:induction false} ConsumeAllPersists(sha: Digest, s: ConsumerState, feed: seq<Delivery>) returns (n: nat)
    requires s.running
    ensures Undisturbed(feed, n) && !Undisturbed(feed, n + 1)
    ensures Persisted(s, ConsumeAll(sha, s, feed), feed, n)
    decreases |feed|
  {
    n := 0;
    if feed != [] && !feed[0].stoppedBefore && !feed[0].persistFails {
      var d, chainHash := feed[0], ComputeHashChain(sha, feed[0].event, s.lastHash);
      var s1 := ConsumerState(s.connected, !d.stoppedDuring, chainHash, s.rows + [Row(d.event, chainHash)]);
      if d.stoppedDuring {
        n := 1;
        assert ConsumeAll(sha, s1, feed[1..]) == s1;
      } else {
        var m := ConsumeAllPersists(sha, s1, feed[1..]);
        n := m + 1;
        OneMoreUndisturbed(feed, m);
        OneMoreUndisturbed(feed, m + 1);
        OneMorePersisted(s, s1, ConsumeAll(sha, s1, feed[1..]), feed, m);
      }
    }
  }

  lemma OneMoreUndisturbed(feed: seq<Delivery>, m: nat)
    requires feed != [] && !feed[0].stoppedBefore && !feed[0].persistFails && !feed[0].stoppedDuring
    ensures Undisturbed(feed, m + 1) <==> Undisturbed(feed[1..], m)
  {
    if Undisturbed(feed[1..], m) {
      forall i | 0 <= i < m + 1 ensures !feed[i].stoppedBefore && !feed[i].persistFails {
        assert i > 0 ==> feed[i] == feed[1..][i - 1];
      }
      forall i | 0 <= i < m ensures !feed[i].stoppedDuring {
        assert i > 0 ==> feed[i] == feed[1..][i - 1];
      }
    }
  }

  lemma OneMorePersisted(s: ConsumerState, s1: ConsumerState, s': ConsumerState, feed: seq<Delivery>, m: nat)
    requires feed != [] && !feed[0].stoppedDuring && m < |feed| && Persisted(s1, s', feed[1..], m)
    requires s1.connected == s.connected && |s1.rows| == |s.rows| + 1 && s.rows <= s1.rows
    requires s1.rows[|s.rows|].event == feed[0].event
    ensures Persisted(s, s', feed, m + 1)
  {
    forall i | 0 <= i < m + 1 ensures s'.rows[|s.rows| + i].event == feed[i].event {
      if i > 0 {
        assert s'.rows[|s1.rows| + (i - 1)].event == feed[1..][i - 1].event;
      }
    }
  }

  lemma UndisturbedIsPrefixClosed(feed: seq<Delivery>, n: nat, m: nat)
    requires Undisturbed(feed, m) && n <= m
    ensures Undisturbed(feed, n)
  {
  }

  /**
    A connected consumer persists the longest undisturbed part of the feed, in order and behind what
    was there, and nothing else; it is running afterwards unless something stopped it.  One that is
    not connected does nothing.
   */
  lemma ConsumingPersists(sha: Digest, s: ConsumerState, feed: seq<Delivery>) returns (n: nat)
    ensures var s' := Perform(sha, s, Consume(feed));
            && n <= |feed|
            && (!s.connected ==> s' == s)
            && (s.connected ==> Persisted(s, s', feed, n) && forall m: nat :: Undisturbed(feed, m) <==> m <= n)
  {
    n := 0;
    if s.connected {
      n := ConsumeAllPersists(sha, s.(running := true), feed);
      forall m: nat ensures Undisturbed(feed, m) <==> m <= n {
        if m <= n {
          UndisturbedIsPrefixClosed(feed, m, n);
        } else if Undisturbed(feed, m) {
          UndisturbedIsPrefixClosed(feed, n + 1, m);
        }
      }
    }
  }

  /** Without stops and failures the whole feed is persisted. */
  lemma UndisturbedFeedIsPersisted(sha: Digest, s: ConsumerState, feed: seq<Delivery>)
    requires s.connected
    requires forall d :: d in feed ==> !d.stoppedBefore && !d.persistFails && !d.stoppedDuring
    ensures var s' := Perform(sha, s, Consume(feed));
            && s'.running && |s'.rows| == |s.rows| + |feed| && s.rows <= s'.rows
            && forall i :: 0 <= i < |feed| ==> s'.rows[|s.rows| + i].event == feed[i].event
  {
    hide Perform;
    var n := ConsumingPersists(sha, s, feed);
    assert Undisturbed(feed, |feed|);
  }

  // ----- The chain of a list of events -----

  function ChainHead(sha: Digest, events: seq<string>): string {
    if events == [] then GENESIS
    else ComputeHashChain(sha, events[|events| - 1], ChainHead(sha, events[..|events| - 1]))
  }

  function Events(rows: seq<Row>): (events: seq<string>)
    ensures |events| == |rows|
    ensures forall i :: 0 <= i < |rows| ==> events[i] == rows[i].event
  {
    if rows == [] then [] else Events(rows[..|rows| - 1]) + [rows[|rows| - 1].event]
  }

  /** Every row carries the head of the events up to it, and the last hash is the head of them all. */
  ghost predicate Chained(sha: Digest, s: ConsumerState) {
    && s.lastHash == ChainHead(sha, Events(s.rows))
    && forall i :: 0 <= i < |s.rows| ==> s.rows[i].chainHash == ChainHead(sha, Events(s.rows[..i + 1]))
  }

  lemma PersistingKeepsChained(sha: Digest, s: ConsumerState, event: string, running: bool)
    requires Chained(sha, s)
    ensures var chainHash := ComputeHashChain(sha, event, s.lastHash);
            Chained(sha, ConsumerState(s.connected, running, chainHash, s.rows + [Row(event, chainHash)]))
  {
    var chainHash := ComputeHashChain(sha, event, s.lastHash);
    var rows := s.rows + [Row(event, chainHash)];
    assert rows[..|s.rows|] == s.rows && Events(rows)[..|s.rows|] == Events(s.rows);
    forall i | 0 <= i < |rows| ensures rows[i].chainHash == ChainHead(sha, Events(rows[..i + 1])) {
      if i < |s.rows| {
        assert rows[..i + 1] == s.rows[..i + 1];
      } else {
        assert rows[..i + 1] == rows;
      }
    }
  }

  lemma {:induction false} ConsumingKeepsChained(sha: Digest, s: ConsumerState, feed: seq<Delivery>)
    requires Chained(sha, s)
    ensures Chained(sha, ConsumeAll(sha, s, feed))
    decreases |feed|
  {
    if feed != [] && !feed[0].stoppedBefore && s.running && !feed[0].persistFails {
      var d := feed[0];
      var chainHash := ComputeHashChain(sha, d.event, s.lastHash);
      PersistingKeepsChained(sha, s, d.event, !d.stoppedDuring);
      var s' := ConsumerState(s.connected, !d.stoppedDuring, chainHash, s.rows + [Row(d.event, chainHash)]);
      ConsumingKeepsChained(sha, s', feed[1..]);
    }
  }

  /** Over any mix of connects, disconnects, consumed feeds, stops and persist failures. */
  lemma {:induction false} OperationsKeepChained(sha: Digest, ops: seq<Operation>)
    ensures Chained(sha, PerformAll(sha, ops))
  {
    if ops != [] {
      OperationsKeepChained(sha, ops[..|ops| - 1]);
      var s := PerformAll(sha, ops[..|ops| - 1]);
      match ops[|ops| - 1]
      case Connect(_) =>
      case Disconnect =>
      case Consume(feed) => ConsumingKeepsChained(sha, s.(running := true), feed);
    }
  }

  // ----- The last hash determines what was persisted -----

  predicate NoColon(text: string) {
    forall i :: 0 <= i < |text| ==> text[i] != ':'
  }

  predicate IsHexDigest(text: string) {
    |text| == 64 && forall i :: 0 <= i < 64 ==> '0' <= text[i] <= '9' || 'a' <= text[i] <= 'f'
  }

  lemma SeparatorIsUnambiguous(p: string, d: string, p': string, d': string)
    requires NoColon(p) && NoColon(p')
    ensures p + ":" + d == p' + ":" + d' <==> p == p' && d == d'
  {
    var a, b := p + ":" + d, p' + ":" + d';
    if a == b {
      assert a[|p|] == ':' && b[|p'|] == ':';
      assert |p| == |p'|;
      assert p == a[..|p|] == p' && d == a[|p| + 1..] == d';
    }
  }

  /** The texts that were hashed to build the chain. */
  ghost function HashedTexts(sha: Digest, events: seq<string>): set<string> {
    if events == [] then {}
    else
      HashedTexts(sha, events[..|events| - 1])
      + {ChainHead(sha, events[..|events| - 1]) + ":" + events[|events| - 1]}
  }

  /** On these texts the digest has no collision and gives 64 hexadecimal digits. */
  ghost predicate SoundOn(sha: Digest, texts: set<string>) {
    && (forall t, u :: t in texts && u in texts && sha(t) == sha(u) ==> t == u)
    && (forall t :: t in texts ==> IsHexDigest(sha(t)))
  }

  lemma SoundOnPart(sha: Digest, part: set<string>, all: set<string>)
    requires SoundOn(sha, all) && part <= all
    ensures SoundOn(sha, part)
  {
  }

  lemma SameTextBehindSameHash(sha: Digest, all: set<string>, t: string, u: string)
    requires SoundOn(sha, all) && t in all && u in all && sha(t) == sha(u)
    ensures t == u
  {
  }

  lemma HeadHasNoColon(sha: Digest, events: seq<string>)
    requires SoundOn(sha, HashedTexts(sha, events))
    ensures NoColon(ChainHead(sha, events))
    ensures ChainHead(sha, events) == "genesis" <==> events == []
  {
    if events != [] {
      assert ChainHead(sha, events[..|events| - 1]) + ":" + events[|events| - 1] in HashedTexts(sha, events);
      assert IsHexDigest(ChainHead(sha, events));
      assert |GENESIS| == 7;
    }
  }

  /** The text hashed for the last event. */
  ghost function LastText(sha: Digest, events: seq<string>): string
    requires events != []
  {
    ChainHead(sha, events[..|events| - 1]) + ":" + events[|events| - 1]
  }

  lemma HeadUnfolds(sha: Digest, events: seq<string>)
    requires events != []
    ensures ChainHead(sha, events) == sha(LastText(sha, events))
    ensures HashedTexts(sha, events) == HashedTexts(sha, events[..|events| - 1]) + {LastText(sha, events)}
  {
  }

  lemma LastEventsAgree(sha: Digest, a: seq<string>, b: seq<string>)
    requires a != [] && b != [] && ChainHead(sha, a) == ChainHead(sha, b)
    requires SoundOn(sha, HashedTexts(sha, a) + HashedTexts(sha, b))
    ensures a[|a| - 1] == b[|b| - 1]
    ensures ChainHead(sha, a[..|a| - 1]) == ChainHead(sha, b[..|b| - 1])
    ensures SoundOn(sha, HashedTexts(sha, a[..|a| - 1]) + HashedTexts(sha, b[..|b| - 1]))
  {
    hide ChainHead, HashedTexts, SoundOn, NoColon;
    var all := HashedTexts(sha, a) + HashedTexts(sha, b);
    HeadUnfolds(sha, a);
    HeadUnfolds(sha, b);
    SameTextBehindSameHash(sha, all, LastText(sha, a), LastText(sha, b));
    SoundOnPart(sha, HashedTexts(sha, a[..|a| - 1]), all);
    SoundOnPart(sha, HashedTexts(sha, b[..|b| - 1]), all);
    SoundOnPart(sha, HashedTexts(sha, a[..|a| - 1]) + HashedTexts(sha, b[..|b| - 1]), all);
    HeadHasNoColon(sha, a[..|a| - 1]);
    HeadHasNoColon(sha, b[..|b| - 1]);
    SeparatorIsUnambiguous(ChainHead(sha, a[..|a| - 1]), a[|a| - 1], ChainHead(sha, b[..|b| - 1]), b[|b| - 1]);
  }

  lemma {:induction false} HeadDeterminesEvents(sha: Digest, a: seq<string>, b: seq<string>)
    requires SoundOn(sha, HashedTexts(sha, a) + HashedTexts(sha, b))
    ensures ChainHead(sha, a) == ChainHead(sha, b) <==> a == b
    decreases |a|
  {
    hide ChainHead, HashedTexts;
    HeadHasNoColon(sha, a);
    HeadHasNoColon(sha, b);
    if ChainHead(sha, a) == ChainHead(sha, b) && a != [] {
      LastEventsAgree(sha, a, b);
      HeadDeterminesEvents(sha, a[..|a| - 1], b[..|b| - 1]);
      assert a == a[..|a| - 1] + [a[|a| - 1]] && b == b[..|b| - 1] + [b[|b| - 1]];
    }
  }

  lemma EventsOfPrefix(rows: seq<Row>, n: nat)
    requires n <= |rows|
    ensures Events(rows[..n]) == Events(rows)[..n]
  {
  }

  /** Two consumers, whatever happened to each, have the same last hash exactly when they persisted the same rows. */
  lemma LastHashDeterminesRows(sha: Digest, ops: seq<Operation>, ops': seq<Operation>)
    requires SoundOn(sha, HashedTexts(sha, Events(PerformAll(sha, ops).rows))
                          + HashedTexts(sha, Events(PerformAll(sha, ops').rows)))
    ensures PerformAll(sha, ops).lastHash == PerformAll(sha, ops').lastHash
            <==> PerformAll(sha, ops).rows == PerformAll(sha, ops').rows
  {
    hide PerformAll, ChainHead, HashedTexts, SoundOn;
    var s, s' := PerformAll(sha, ops), PerformAll(sha, ops');
    OperationsKeepChained(sha, ops);
    OperationsKeepChained(sha, ops');
    HeadDeterminesEvents(sha, Events(s.rows), Events(s'.rows));
    if s.lastHash == s'.lastHash {
      SameEventsSameRows(sha, s, s');
    }
  }

  lemma SameEventsSameRows(sha: Digest, s: ConsumerState, s': ConsumerState)
    requires Chained(sha, s) && Chained(sha, s') && Events(s.rows) == Events(s'.rows)
    ensures s.rows == s'.rows
  {
    hide Chained, ChainHead;
    forall i | 0 <= i < |s.rows| ensures s.rows[i] == s'.rows[i] {
      RowIsDetermined(sha, s, i);
      RowIsDetermined(sha, s', i);
    }
  }

  lemma RowIsDetermined(sha: Digest, s: ConsumerState, i: nat)
    requires Chained(sha, s) && i < |s.rows|
    ensures s.rows[i] == Row(Events(s.rows)[i], ChainHead(sha, Events(s.rows)[..i + 1]))
  {
    hide ChainHead;
    EventsOfPrefix(s.rows, i + 1);
  }
}
