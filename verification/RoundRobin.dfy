/** The gateway's backend selection: one shared 64-bit counter, bumped atomically by every request. */
module RoundRobin {
  import opened Enums

  const WORD: nat := 0x1_0000_0000_0000_0000

  /** The counter after an atomic add of one. */
  function Bump(counter: nat): nat {
    (counter + 1) % WORD
  }

  /** The value before the bump, computed as the code does: what the add returned, minus one. */
  function TicketOf(bumped: nat): nat {
    (bumped + WORD - 1) % WORD
  }

  lemma TicketIsOldValue(counter: nat)
    requires counter < WORD
    ensures TicketOf(Bump(counter)) == counter
    ensures Bump(counter) == if counter == WORD - 1 then 0 else counter + 1
  {
  }

  class Handler {
    const backends: seq<string>
    var counter: nat

    ghost predicate Valid()
      reads this
    {
      counter < WORD
    }

    constructor (backends: seq<string>)
      ensures Valid() && this.backends == backends && counter == 0
    {
      this.backends := backends;
      counter := 0;
    }

    /** The ticket is the counter's value before the bump, wrap-around included. */
    method SelectBackend() returns (backend: Option<string>)
      requires Valid()
      modifies this
      ensures Valid()
      ensures backends == [] ==> backend == None && counter == old(counter)
      ensures backends != [] ==> backend == Some(backends[old(counter) % |backends|])
      ensures backends != [] ==> counter == if old(counter) == WORD - 1 then 0 else old(counter) + 1
    {
      if |backends| == 0 {
        return None;
      }
      TicketIsOldValue(counter);
      counter := Bump(counter);
      return Some(backends[TicketOf(counter) % |backends|]);
    }
  }

  // ----- How often each backend's turn comes -----

  /** How many of the first `k` tickets of a counter that wraps at `w` go to backend `b` of `n`. */
  function Turns(w: nat, n: nat, b: nat, k: nat): nat
    requires w > 0 && n > 0
  {
    if k == 0 then 0 else Turns(w, n, b, k - 1) + if (k - 1) % w % n == b then 1 else 0
  }

  /** The same for a counter that does not wrap. */
  function PlainTurns(n: nat, b: nat, k: nat): nat
    requires n > 0
  {
    if k == 0 then 0 else PlainTurns(n, b, k - 1) + if (k - 1) % n == b then 1 else 0
  }

  lemma DivModOf(m: nat, n: nat, q: nat, r: nat)
    requires n > 0 && m == q * n + r && r < n
    ensures m / n == q && m % n == r
  {
    Distributes(m / n, q, n);
    SmallMultipleIsZero(m / n - q, n);
  }

  lemma Distributes(a: int, b: int, n: nat)
    ensures (a - b) * n == a * n - b * n
  {
  }

  lemma SmallMultipleIsZero(d: int, n: nat)
    requires 0 < d * n + n && d * n < n
    ensures d == 0
  {
    if d > 0 {
      Distributes(d, 1, n);
      NonNegativeProduct(d - 1, n);
    } else if d < 0 {
      Distributes(-1, d, n);
      NonNegativeProduct(-1 - d, n);
    }
  }

  lemma NonNegativeProduct(a: nat, n: nat)
    ensures a * n >= 0
  {
  }

  lemma DivModNext(m: nat, n: nat)
    requires n > 0
    ensures if m % n == n - 1 then (m + 1) / n == m / n + 1 && (m + 1) % n == 0
            else (m + 1) / n == m / n && (m + 1) % n == m % n + 1
  {
    if m % n == n - 1 {
      assert m + 1 == (m / n + 1) * n;
      DivModOf(m + 1, n, m / n + 1, 0);
    } else {
      DivModOf(m + 1, n, m / n, m % n + 1);
    }
  }

  lemma {:induction false} PlainTurnsValue(n: nat, b: nat, k: nat)
    requires b < n
    ensures PlainTurns(n, b, k) == k / n + if b < k % n then 1 else 0
  {
    if k > 0 {
      PlainTurnsValue(n, b, k - 1);
      DivModNext(k - 1, n);
    } else {
      DivModOf(0, n, 0, 0);
    }
  }

  lemma TurnsNext(w: nat, n: nat, b: nat, k: nat)
    requires w > 0 && n > 0
    ensures Turns(w, n, b, 0) == 0
    ensures Turns(w, n, b, k + 1) == Turns(w, n, b, k) + if k % w % n == b then 1 else 0
  {
  }

  lemma PlainTurnsNext(n: nat, b: nat, k: nat)
    requires n > 0
    ensures PlainTurns(n, b, 0) == 0
    ensures PlainTurns(n, b, k + 1) == PlainTurns(n, b, k) + if k % n == b then 1 else 0
  {
  }

  lemma LapsAreWhole(w: nat, laps: nat, r: nat)
    requires r < w
    ensures laps * w >= 0 && (laps * w + r) % w == r
  {
    NonNegativeProduct(laps, w);
    DivModOf(laps * w + r, w, laps, r);
  }

  lemma OneMoreLap(laps: nat, x: int)
    requires laps > 0
    ensures (laps - 1) * x + x == laps * x
  {
  }

  lemma {:induction false} TurnsByLaps(w: nat, n: nat, b: nat, laps: nat, r: nat)
    requires w > 0 && n > 0 && r <= w
    ensures Turns(w, n, b, laps * w + r) == laps * PlainTurns(n, b, w) + PlainTurns(n, b, r)
    decreases laps, r
  {
    hide Turns, PlainTurns;
    if r > 0 {
      TurnsByLaps(w, n, b, laps, r - 1);
      LapsAreWhole(w, laps, r - 1);
      TurnsNext(w, n, b, laps * w + r - 1);
      PlainTurnsNext(n, b, r - 1);
    } else if laps > 0 {
      TurnsByLaps(w, n, b, laps - 1, w);
      OneMoreLap(laps, w);
      OneMoreLap(laps, PlainTurns(n, b, w));
      PlainTurnsNext(n, b, 0);
    } else {
      TurnsNext(w, n, b, 0);
      PlainTurnsNext(n, b, 0);
    }
  }

  function Gap(w: nat, n: nat, a: nat, b: nat, k: nat): int
    requires w > 0 && n > 0
  {
    Turns(w, n, a, k) - Turns(w, n, b, k)
  }

  lemma GapByLaps(w: nat, n: nat, a: nat, b: nat, laps: nat, r: nat)
    requires w > 0 && n > 0 && r <= w
    ensures Gap(w, n, a, b, laps * w + r) ==
            laps * (PlainTurns(n, a, w) - PlainTurns(n, b, w)) + (PlainTurns(n, a, r) - PlainTurns(n, b, r))
  {
    TurnsByLaps(w, n, a, laps, r);
    TurnsByLaps(w, n, b, laps, r);
  }

  lemma PlainGap(n: nat, a: nat, b: nat, m: nat)
    requires a < n && b < n
    ensures -1 <= PlainTurns(n, a, m) - PlainTurns(n, b, m) <= 1
    ensures m % n == 0 ==> PlainTurns(n, a, m) == PlainTurns(n, b, m)
  {
    PlainTurnsValue(n, a, m);
    PlainTurnsValue(n, b, m);
  }

  lemma GapBound(w: nat, n: nat, a: nat, b: nat, k: nat)
    requires w > 0 && a < n && b < n
    ensures Gap(w, n, a, b, k) <= 1 + k / w
    ensures w % n == 0 ==> Gap(w, n, a, b, k) <= 1
  {
    hide Gap, PlainTurns;
    var laps, r := k / w, k % w;
    assert k == laps * w + r;
    GapByLaps(w, n, a, b, laps, r);
    PlainGap(n, a, b, w);
    PlainGap(n, a, b, r);
    Scaled(laps, PlainTurns(n, a, w) - PlainTurns(n, b, w));
  }

  lemma Scaled(laps: nat, x: int)
    requires -1 <= x <= 1
    ensures laps * x <= laps
    ensures x == 0 ==> laps * x == 0
    ensures x == 1 ==> laps * x == laps
  {
  }

  /** The gap between the first and the last backend grows by one each time the counter wraps. */
  lemma GapAfterLaps(w: nat, n: nat, laps: nat)
    requires w > 0 && n > 0 && w % n != 0
    ensures Gap(w, n, 0, n - 1, laps * w) == laps
  {
    hide Gap;
    GapByLaps(w, n, 0, n - 1, laps, 0);
    PlainTurnsValue(n, 0, w);
    PlainTurnsValue(n, n - 1, w);
    Scaled(laps, PlainTurns(n, 0, w) - PlainTurns(n, n - 1, w));
  }

  /** The backends stay within one turn of each other for ever exactly when their number divides 2^64. */
  lemma WithinOneForEverIff(n: nat)
    requires n > 0
    ensures (forall a: nat, b: nat, k: nat :: a < n && b < n ==> Gap(WORD, n, a, b, k) <= 1) <==> WORD % n == 0
  {
    if WORD % n == 0 {
      forall a: nat, b: nat, k: nat | a < n && b < n ensures Gap(WORD, n, a, b, k) <= 1 {
        GapBound(WORD, n, a, b, k);
      }
    } else {
      GapAfterLaps(WORD, n, 2);
      assert Gap(WORD, n, 0, n - 1, 2 * WORD) == 2;
    }
  }

  // ----- Any interleaving of concurrent requests -----

  /** A request first bumps the counter, atomically, and later uses its ticket to pick a backend. */
  datatype Step = Draw(request: int) | Pick(request: int)

  datatype Gateway = Gateway(counter: nat, draws: nat, held: map<int, nat>, picked: seq<nat>)

  function Act(n: nat, g: Gateway, step: Step): Gateway
    requires n > 0
  {
    match step
    case Draw(request) =>
      if request in g.held then g
      else Gateway(Bump(g.counter), g.draws + 1, g.held[request := TicketOf(Bump(g.counter))], g.picked)
    case Pick(request) =>
      if request !in g.held then g
      else g.(held := g.held - {request}, picked := g.picked + [g.held[request] % n])
  }

  function Execute(n: nat, schedule: seq<Step>): Gateway
    requires n > 0
  {
    if schedule == [] then Gateway(0, 0, map[], [])
    else Act(n, Execute(n, schedule[..|schedule| - 1]), schedule[|schedule| - 1])
  }

  ghost function HeldFor(g: Gateway, n: nat, b: nat): set<int>
    requires n > 0
  {
    set t | t in g.held && g.held[t] % n == b
  }

  /** The selections of a backend: those made and those whose ticket is drawn. */
  ghost function Selections(g: Gateway, n: nat, b: nat): nat
    requires n > 0
  {
    multiset(g.picked)[b] + |HeldFor(g, n, b)|
  }

  lemma WrapNext(draws: nat)
    ensures Bump(draws % WORD) == (draws + 1) % WORD
  {
    DivModNext(draws, WORD);
    TicketIsOldValue(draws % WORD);
  }

  lemma DrawSelects(n: nat, g: Gateway, request: int, b: nat)
    requires n > 0 && g.counter < WORD && request !in g.held
    ensures Selections(Act(n, g, Draw(request)), n, b) == Selections(g, n, b) + if g.counter % n == b then 1 else 0
  {
    TicketIsOldValue(g.counter);
    hide Bump, TicketOf, HeldFor;
    HeldForGrows(n, g, Act(n, g, Draw(request)), request, b);
  }

  lemma HeldForGrows(n: nat, g: Gateway, g': Gateway, request: int, b: nat)
    requires n > 0 && request !in g.held && request in g'.held && g'.held == g.held[request := g'.held[request]]
    ensures |HeldFor(g', n, b)| == |HeldFor(g, n, b)| + if g'.held[request] % n == b then 1 else 0
  {
    if g'.held[request] % n == b {
      assert HeldFor(g', n, b) == HeldFor(g, n, b) + {request};
    } else {
      assert HeldFor(g', n, b) == HeldFor(g, n, b);
    }
  }

  lemma DrawKeepsTurns(n: nat, g: Gateway, request: int, b: nat)
    requires n > 0 && g.counter == g.draws % WORD && Selections(g, n, b) == Turns(WORD, n, b, g.draws)
    requires request !in g.held
    ensures var g' := Act(n, g, Draw(request));
            g'.counter == g'.draws % WORD && Selections(g', n, b) == Turns(WORD, n, b, g'.draws)
  {
    hide Bump, TicketOf, Selections, Turns;
    WrapNext(g.draws);
    DrawSelects(n, g, request, b);
    TurnsNext(WORD, n, b, g.draws);
  }

  lemma PickKeepsSelections(n: nat, g: Gateway, request: int, b: nat)
    requires n > 0 && request in g.held
    ensures Selections(Act(n, g, Pick(request)), n, b) == Selections(g, n, b)
  {
    var g' := Act(n, g, Pick(request));
    assert HeldFor(g', n, b) == HeldFor(g, n, b) - {request};
  }

  lemma ActKeepsTurns(n: nat, g: Gateway, step: Step, b: nat)
    requires n > 0 && g.counter == g.draws % WORD && Selections(g, n, b) == Turns(WORD, n, b, g.draws)
    ensures var g' := Act(n, g, step);
            g'.counter == g'.draws % WORD && Selections(g', n, b) == Turns(WORD, n, b, g'.draws)
  {
    hide Selections, Turns;
    if step.Draw? && step.request !in g.held {
      DrawKeepsTurns(n, g, step.request, b);
    } else if step.Pick? && step.request in g.held {
      PickKeepsSelections(n, g, step.request, b);
    }
  }

  lemma {:induction false} ScheduleKeepsTurns(n: nat, schedule: seq<Step>, b: nat)
    requires n > 0
    ensures var g := Execute(n, schedule);
            g.counter == g.draws % WORD && Selections(g, n, b) == Turns(WORD, n, b, g.draws)
  {
    if schedule != [] {
      ScheduleKeepsTurns(n, schedule[..|schedule| - 1], b);
      ActKeepsTurns(n, Execute(n, schedule[..|schedule| - 1]), schedule[|schedule| - 1], b);
    }
  }

  /**
    However the requests interleave: two backends' selections differ by at most one more than the
    number of times the counter wrapped, and by at most one when their number divides 2^64.
   */
  lemma InterleavingsAreFair(n: nat, schedule: seq<Step>, a: nat, b: nat)
    requires a < n && b < n
    ensures var g := Execute(n, schedule);
            && Selections(g, n, a) - Selections(g, n, b) <= 1 + g.draws / WORD
            && (WORD % n == 0 ==> Selections(g, n, a) - Selections(g, n, b) <= 1)
  {
    ScheduleKeepsTurns(n, schedule, a);
    ScheduleKeepsTurns(n, schedule, b);
    GapBound(WORD, n, a, b, Execute(n, schedule).draws);
  }

  // ----- Every request is served -----

  /** Each request draws at most once, and picks at most once, after it drew. */
  ghost predicate Orderly(schedule: seq<Step>) {
    && (forall i, j :: 0 <= i < j < |schedule| ==> schedule[i] != schedule[j])
    && (forall j :: 0 <= j < |schedule| && schedule[j].Pick? ==> Draw(schedule[j].request) in schedule[..j])
  }

  function DrawsIn(schedule: seq<Step>): nat {
    if schedule == [] then 0
    else DrawsIn(schedule[..|schedule| - 1]) + if schedule[|schedule| - 1].Draw? then 1 else 0
  }

  lemma OrderlyFront(schedule: seq<Step>)
    requires Orderly(schedule) && schedule != []
    ensures var front, last := schedule[..|schedule| - 1], schedule[|schedule| - 1];
            && Orderly(front) && last !in front && (last.Pick? ==> Draw(last.request) in front)
  {
    var front := schedule[..|schedule| - 1];
    forall j | 0 <= j < |front| && front[j].Pick? ensures Draw(front[j].request) in front[..j] {
      assert front[..j] == schedule[..j];
    }
  }

  /** The request holds a ticket: it drew and has not picked yet. */
  ghost predicate Holds(schedule: seq<Step>, request: int) {
    Draw(request) in schedule && Pick(request) !in schedule
  }

  /**
    In an orderly schedule every draw takes the next ticket and every pick selects a backend: exactly
    the requests that drew and have not picked yet hold a ticket.
   */
  lemma {:induction false} EveryRequestIsServed(n: nat, schedule: seq<Step>)
    requires n > 0 && Orderly(schedule)
    ensures var g := Execute(n, schedule);
            && g.draws == DrawsIn(schedule) && |g.picked| == |schedule| - DrawsIn(schedule)
            && forall r :: r in g.held.Keys <==> Holds(schedule, r)
  {
    if schedule != [] {
      var front, last := schedule[..|schedule| - 1], schedule[|schedule| - 1];
      OrderlyFront(schedule);
      EveryRequestIsServed(n, front);
      PicksFollowDraws(front, last.request);
      hide Orderly, Act;
      HoldsNext(schedule);
      ActServes(n, Execute(n, front), last);
    }
  }

  lemma HoldsNext(schedule: seq<Step>)
    requires schedule != []
    ensures var front, last := schedule[..|schedule| - 1], schedule[|schedule| - 1];
            forall r :: Holds(schedule, r) <==>
              (Holds(front, r) || (last == Draw(r) && Pick(r) !in front)) && last != Pick(r)
  {
    var front, last := schedule[..|schedule| - 1], schedule[|schedule| - 1];
    assert schedule == front + [last];
    assert forall step :: step in schedule <==> step in front || step == last;
  }

  lemma ActServes(n: nat, g: Gateway, step: Step)
    requires n > 0
    ensures var g' := Act(n, g, step);
            && (step.Draw? && step.request !in g.held ==>
                  g'.draws == g.draws + 1 && g'.picked == g.picked && g'.held.Keys == g.held.Keys + {step.request})
            && (step.Pick? && step.request in g.held ==>
                  && g'.draws == g.draws && |g'.picked| == |g.picked| + 1
                  && g'.held.Keys == g.held.Keys - {step.request})
  {
    hide Bump, TicketOf;
  }

  lemma PicksFollowDraws(schedule: seq<Step>, request: int)
    requires Orderly(schedule)
    ensures Pick(request) in schedule ==> Draw(request) in schedule
  {
    if Pick(request) in schedule {
      var j :| 0 <= j < |schedule| && schedule[j] == Pick(request);
      assert Draw(request) in schedule[..j];
    }
  }

  /** A request that draws and picks alone selects what one call of the handler does. */
  lemma AloneIsOneSelection(n: nat, schedule: seq<Step>, request: int)
    requires n > 0 && request !in Execute(n, schedule).held
    ensures var g, g' := Execute(n, schedule), Execute(n, schedule + [Draw(request), Pick(request)]);
            && g'.picked == g.picked + [g.counter % n]
            && g'.counter == (if g.counter == WORD - 1 then 0 else g.counter + 1)
            && g'.held == g.held
  {
    var longer := schedule + [Draw(request)];
    assert (schedule + [Draw(request), Pick(request)])[..|schedule| + 1] == longer && longer[..|schedule|] == schedule;
    ScheduleKeepsTurns(n, schedule, 0);
    DivModNext(Execute(n, schedule).draws, WORD);
    TicketIsOldValue(Execute(n, schedule).counter);
  }
}
