/** Long-lived use of the connection counter: any number of threads mixing
    increments, capped or not, with decrements, interleaved at every atomic
    access (src/counter.rs:49-84). */
module CounterRuns {
  import opened Prelude

  datatype Op =
    | Idle
    | IncStart(max: Option<nat>)
    | IncLoaded(limit: nat, seen: nat)
    | DecUpdate
    | DecLoad(left: nat)

  /** What a `decrement` left in the cell and what it then returned. */
  datatype Report = Report(left: nat, returned: nat)

  /** `held` counts the increments this thread was granted and has not
      released; it and the reports are history. */
  datatype Thread = Thread(held: nat, op: Op, reports: seq<Report>)

  /** `floored` counts the decrements that found zero and changed nothing. */
  datatype State = State(cell: nat, threads: seq<Thread>, floored: nat)

  datatype Event = Increment(i: nat, max: Option<nat>) | Decrement(i: nat) | Tick(i: nat)

  function Init(n: nat): State {
    State(0, seq(n, _ => Thread(0, Idle, [])), 0)
  }

  /** One event. A call on a busy thread and a tick of an idle one change
      nothing. */
  function Next(s: State, e: Event): (t: State)
    ensures |t.threads| == |s.threads|
  {
    if e.i >= |s.threads| then s
    else
      var th := s.threads[e.i];
      match e
      case Increment(i, max) => if th.op.Idle? then Set(s, i, th.(op := IncStart(max))) else s
      case Decrement(i) => if th.op.Idle? then Set(s, i, th.(op := DecUpdate)) else s
      case Tick(i) => Advance(s, i)
  }

  function Set(s: State, i: nat, th: Thread): State
    requires i < |s.threads|
  {
    s.(threads := s.threads[i := th])
  }

  function Advance(s: State, i: nat): (t: State)
    requires i < |s.threads|
    ensures |t.threads| == |s.threads|
  {
    var th := s.threads[i];
    match th.op
    case Idle => s
    case IncStart(None) => Set(s, i, th.(op := Idle, held := th.held + 1)).(cell := s.cell + 1)
    case IncStart(Some(limit)) =>
      Set(s, i, th.(op := if s.cell >= limit then Idle else IncLoaded(limit, s.cell)))
    case IncLoaded(limit, seen) =>
      if s.cell == seen then Set(s, i, th.(op := Idle, held := th.held + 1)).(cell := seen + 1)
      else Set(s, i, th.(op := IncStart(Some(limit))))
    case DecUpdate =>
      var left := if s.cell == 0 then 0 else s.cell - 1;
      var kept := if th.held == 0 then 0 else th.held - 1;
      Set(s, i, th.(op := DecLoad(left), held := kept))
      .(cell := left, floored := if s.cell == 0 then s.floored + 1 else s.floored)
    case DecLoad(left) =>
      Set(s, i, th.(op := Idle, reports := th.reports + [Report(left, s.cell)]))
  }

  function Run(s: State, events: seq<Event>): (t: State)
    ensures |t.threads| == |s.threads|
  {
    if events == [] then s
    else Next(Run(s, events[..|events| - 1]), events[|events| - 1])
  }

  ghost function Held(th: Thread): int { th.held }

  /** Every call in `events` is a decrement or capped by at most `cap`. */
  predicate CappedBy(cap: nat, events: seq<Event>) {
    forall e :: e in events && e.Increment? ==> e.max.Some? && e.max.value <= cap
  }

  ghost predicate Bounded(s: State, cap: nat) {
    && s.cell <= cap
    && (forall i :: 0 <= i < |s.threads| ==>
          match s.threads[i].op
          case IncStart(max) => max.Some? && max.value <= cap
          case IncLoaded(limit, seen) => seen < limit <= cap
          case _ => true)
  }

  lemma NextBounded(s: State, e: Event, cap: nat)
    requires Bounded(s, cap)
    requires e.Increment? ==> e.max.Some? && e.max.value <= cap
    ensures Bounded(Next(s, e), cap)
  {
  }

  /** A fleet of capped callers never pushes the count past the largest limit
      in use, whether or not the decrements among them are matched. */
  lemma {:induction false} NeverPastTheLargestLimit(n: nat, events: seq<Event>, cap: nat)
    requires CappedBy(cap, events)
    ensures Bounded(Run(Init(n), events), cap)
    ensures Run(Init(n), events).cell <= cap
  {
    if events != [] {
      NeverPastTheLargestLimit(n, events[..|events| - 1], cap);
      NextBounded(Run(Init(n), events[..|events| - 1]), events[|events| - 1], cap);
    }
  }

  /** No thread calls `decrement` without holding an increment to release. */
  predicate Balanced(n: nat, events: seq<Event>) {
    events == []
    || (var before := Run(Init(n), events[..|events| - 1]);
        var e := events[|events| - 1];
        && Balanced(n, events[..|events| - 1])
        && (e.Decrement? && e.i < n ==> before.threads[e.i].held > 0))
  }

  ghost predicate Releasable(s: State) {
    forall i :: 0 <= i < |s.threads| && s.threads[i].op.DecUpdate? ==> s.threads[i].held > 0
  }

  lemma NextHeld(s: State, e: Event)
    requires e.i < |s.threads|
    ensures var t := Next(s, e);
            Sum(t.threads, Held) == Sum(s.threads, Held) - s.threads[e.i].held + t.threads[e.i].held
    ensures s.threads[e.i].held <= Sum(s.threads, Held)
  {
    var t := Next(s, e);
    SumUpdate(s.threads, e.i, t.threads[e.i], Held);
    assert t.threads == s.threads[e.i := t.threads[e.i]];
    NonNegative(s.threads);
  }

  lemma {:induction false} NonNegative(ts: seq<Thread>)
    ensures Sum(ts, Held) >= 0
    ensures forall i :: 0 <= i < |ts| ==> ts[i].held <= Sum(ts, Held)
  {
    if ts != [] {
      NonNegative(ts[1..]);
      forall i | 0 <= i < |ts| ensures ts[i].held <= Sum(ts, Held) {
        if i > 0 { assert ts[i] == ts[1..][i - 1]; }
      }
    }
  }

  lemma {:induction false} InitHeld(ts: seq<Thread>)
    requires forall th :: th in ts ==> th.held == 0
    ensures Sum(ts, Held) == 0
  {
    if ts != [] { InitHeld(ts[1..]); }
  }

  /** In every run the count is at most the outstanding increments. */
  lemma {:induction false} NoMoreThanOutstanding(n: nat, events: seq<Event>)
    ensures var s := Run(Init(n), events); s.cell <= Sum(s.threads, Held)
  {
    if events == [] {
      InitHeld(Init(n).threads);
    } else {
      NoMoreThanOutstanding(n, events[..|events| - 1]);
      var s := Run(Init(n), events[..|events| - 1]);
      if events[|events| - 1].i < n { NextHeld(s, events[|events| - 1]); }
    }
  }

  ghost predicate Exact(s: State) {
    Releasable(s) && s.cell == Sum(s.threads, Held) && s.floored == 0
  }

  lemma NextExact(s: State, e: Event)
    requires Exact(s)
    requires e.Decrement? && e.i < |s.threads| ==> s.threads[e.i].held > 0
    ensures Exact(Next(s, e))
  {
    if e.i < |s.threads| {
      NextHeld(s, e);
      var th, t := s.threads[e.i], Next(s, e);
      assert t.threads == s.threads[e.i := t.threads[e.i]];
      assert th.op.DecUpdate? ==> th.held > 0 && s.cell > 0;
      assert t.threads[e.i].op.DecUpdate? ==> t.threads[e.i].held > 0;
      assert t.cell - s.cell == t.threads[e.i].held - th.held;
    }
  }

  /** In a balanced run nothing is lost: the count is exactly the outstanding
      increments in every state, and no decrement ever finds zero. */
  lemma {:induction false} BalancedCountIsExact(n: nat, events: seq<Event>)
    requires Balanced(n, events)
    ensures Exact(Run(Init(n), events))
  {
    if events == [] {
      InitHeld(Init(n).threads);
    } else {
      BalancedCountIsExact(n, events[..|events| - 1]);
      NextExact(Run(Init(n), events[..|events| - 1]), events[|events| - 1]);
    }
  }

  /** Hence, once everything acquired has been released, the count is zero. */
  lemma BalancedReturnsToZero(n: nat, events: seq<Event>)
    requires Balanced(n, events)
    requires forall th :: th in Run(Init(n), events).threads ==> th.held == 0
    ensures Run(Init(n), events).cell == 0
  {
    BalancedCountIsExact(n, events);
    InitHeld(Run(Init(n), events).threads);
  }

  // Every call ends as it should

  /** The tick that starts a capped call decides at once: it refuses exactly
      when the count has reached the limit, and changes nothing else. */
  lemma CappedTickDecides(s: State, i: nat, limit: nat)
    requires i < |s.threads| && s.threads[i].op == IncStart(Some(limit))
    ensures var t := Next(s, Tick(i));
            && t.cell == s.cell && t.threads == s.threads[i := s.threads[i].(op := t.threads[i].op)]
            && (if s.cell >= limit then t.threads[i].op == Idle else t.threads[i].op == IncLoaded(limit, s.cell))
  {
  }

  /** Below the limit, with no other access in between, a capped call is
      granted. */
  lemma UndisturbedCappedGrant(s: State, i: nat, limit: nat)
    requires i < |s.threads| && s.threads[i].op.Idle? && s.cell < limit
    ensures var t := Next(Next(Next(s, Increment(i, Some(limit))), Tick(i)), Tick(i));
            && t.cell == s.cell + 1
            && t.threads == s.threads[i := s.threads[i].(held := s.threads[i].held + 1)]
  {
    CallStarts(s, i, Some(limit));
    TicksGrant(Next(s, Increment(i, Some(limit))), i, limit);
  }

  lemma CallStarts(s: State, i: nat, max: Option<nat>)
    requires i < |s.threads| && s.threads[i].op.Idle?
    ensures Next(s, Increment(i, max)) == s.(threads := s.threads[i := s.threads[i].(op := IncStart(max))])
  {
  }

  lemma TicksGrant(s: State, i: nat, limit: nat)
    requires i < |s.threads| && s.threads[i].op == IncStart(Some(limit)) && s.cell < limit
    ensures var t := Next(Next(s, Tick(i)), Tick(i));
            && t.cell == s.cell + 1
            && t.threads == s.threads[i := s.threads[i].(op := Idle, held := s.threads[i].held + 1)]
  {
    CappedTickDecides(s, i, limit);
    ExchangeGrants(Next(s, Tick(i)), i);
  }

  /** A compare-exchange that meets the value loaded grants it. */
  lemma ExchangeGrants(s: State, i: nat)
    requires i < |s.threads| && s.threads[i].op.IncLoaded? && s.threads[i].op.seen == s.cell
    ensures var t := Next(s, Tick(i));
            && t.cell == s.cell + 1
            && t.threads == s.threads[i := s.threads[i].(op := Idle, held := s.threads[i].held + 1)]
  {
  }

  /** Without a limit one access grants it. */
  lemma UncappedGrant(s: State, i: nat)
    requires i < |s.threads| && s.threads[i].op.Idle?
    ensures var t := Next(Next(s, Increment(i, None)), Tick(i));
            && t.cell == s.cell + 1
            && t.threads == s.threads[i := s.threads[i].(held := s.threads[i].held + 1)]
  {
    CallStarts(s, i, None);
    UncappedTick(Next(s, Increment(i, None)), i);
  }

  lemma UncappedTick(s: State, i: nat)
    requires i < |s.threads| && s.threads[i].op == IncStart(None)
    ensures var t := Next(s, Tick(i));
            && t.cell == s.cell + 1
            && t.threads == s.threads[i := s.threads[i].(op := Idle, held := s.threads[i].held + 1)]
  {
  }

  /** A decrement, undisturbed, takes one off a count that is not zero, lets go
      of what was held, and reports what it left. */
  lemma UndisturbedDecrement(s: State, i: nat)
    requires i < |s.threads| && s.threads[i].op.Idle?
    ensures var t := Next(Next(Next(s, Decrement(i)), Tick(i)), Tick(i));
            var th := s.threads[i];
            && t.cell == (if s.cell == 0 then 0 else s.cell - 1)
            && t.threads == s.threads[i := Thread(if th.held == 0 then 0 else th.held - 1, Idle,
                                                  th.reports + [Report(t.cell, t.cell)])]
  {
    var u := Next(s, Decrement(i));
    var v := Next(u, Tick(i));
    UpdateTakesOne(u, i);
    assert v.threads[i].op == DecLoad(v.cell);
  }

  lemma UpdateTakesOne(s: State, i: nat)
    requires i < |s.threads| && s.threads[i].op.DecUpdate?
    ensures var t, th := Next(s, Tick(i)), s.threads[i];
            && t.cell == (if s.cell == 0 then 0 else s.cell - 1)
            && t.threads == s.threads[i := Thread(if th.held == 0 then 0 else th.held - 1, DecLoad(t.cell), th.reports)]
  {
  }

  /** Inside a capped call: about to load, or holding a load below the limit. */
  predicate InCappedCall(op: Op, limit: nat) {
    op == IncStart(Some(limit)) || (op.IncLoaded? && op.limit == limit && op.seen < limit)
  }

  /** However long the others keep it retrying, the call ends at a tick of its
      own, in one of two ways: refused on a count that had reached the limit,
      with nothing changed, or granted on a count below it, which it raises. */
  lemma {:induction false} CappedCallEnds(s: State, i: nat, limit: nat, events: seq<Event>)
    requires i < |s.threads| && InCappedCall(s.threads[i].op, limit)
    requires !InCappedCall(Run(s, events).threads[i].op, limit)
    ensures exists k :: 0 <= k < |events| && EndsAt(s, i, limit, events, k)
    decreases |events|
  {
    if j :| 0 <= j < |events| && !InCappedCall(Run(s, events[..j]).threads[i].op, limit) {
      CappedCallEnds(s, i, limit, events[..j]);
      var k :| 0 <= k < j && EndsAt(s, i, limit, events[..j], k);
      assert events[..j][..k] == events[..k] && events[..j][..k + 1] == events[..k + 1];
      assert EndsAt(s, i, limit, events, k);
    } else {
      assert Run(s, []) == s;
      var past := events[..|events| - 1];
      forall j | 0 <= j <= |past| ensures InCappedCall(Run(s, past[..j]).threads[i].op, limit) {
        assert past[..j] == events[..j];
      }
      CappedCallHolds(s, i, limit, past);
      assert past[..|past|] == past && events[..|events|] == events;
      LastStep(Run(s, past), i, limit, events[|events| - 1]);
      assert EndsAt(s, i, limit, events, |events| - 1);
    }
  }

  lemma LastStep(s: State, i: nat, limit: nat, e: Event)
    requires i < |s.threads| && InCappedCall(s.threads[i].op, limit)
    requires !InCappedCall(Next(s, e).threads[i].op, limit)
    ensures var t := Next(s, e);
            && e == Tick(i) && t.threads[i].op == Idle
            && (if s.cell >= limit
                then t.cell == s.cell && t.threads[i].held == s.threads[i].held
                else t.cell == s.cell + 1 && t.threads[i].held == s.threads[i].held + 1)
  {
  }

  lemma {:induction false} CappedCallHolds(s: State, i: nat, limit: nat, events: seq<Event>)
    requires i < |s.threads|
    requires forall j :: 0 <= j <= |events| ==> InCappedCall(Run(s, events[..j]).threads[i].op, limit)
    ensures Run(s, events).threads[i].held == s.threads[i].held
  {
    if events != [] {
      var past := events[..|events| - 1];
      forall j | 0 <= j <= |past| ensures InCappedCall(Run(s, past[..j]).threads[i].op, limit) {
        assert past[..j] == events[..j];
      }
      CappedCallHolds(s, i, limit, past);
      assert events[..|events|] == events && past[..|past|] == past;
      RetryHolds(Run(s, past), i, limit, events[|events| - 1]);
    }
  }

  lemma RetryHolds(s: State, i: nat, limit: nat, e: Event)
    requires i < |s.threads| && InCappedCall(s.threads[i].op, limit)
    requires InCappedCall(Next(s, e).threads[i].op, limit)
    ensures Next(s, e).threads[i].held == s.threads[i].held
  {
  }

  predicate EndsAt(s: State, i: nat, limit: nat, events: seq<Event>, k: nat)
    requires i < |s.threads| && k < |events|
  {
    var before, after := Run(s, events[..k]), Run(s, events[..k + 1]);
    && events[k] == Tick(i)
    && before.threads[i].held == s.threads[i].held && after.threads[i].op == Idle
    && (if before.cell >= limit
        then after.cell == before.cell && after.threads[i].held == s.threads[i].held
        else after.cell == before.cell + 1 && after.threads[i].held == s.threads[i].held + 1)
  }

  /** `decrement` reports a later load, so its result need not be the count
      after its own decrement: here one thread brings the count from two to
      one, another to zero, and the first then returns zero. */
  lemma DecrementMayReportALaterCount()
    ensures var events := [Increment(0, None), Tick(0), Increment(1, None), Tick(1),
                           Decrement(0), Tick(0), Decrement(1), Tick(1), Tick(0)];
            Balanced(2, events) && Run(Init(2), events).threads[0].reports == [Report(1, 0)]
  {
    var e4 := TwoHolders();
    var e5 := e4 + [Decrement(0)];
    var e6 := e5 + [Tick(0)];
    var e7 := e6 + [Decrement(1)];
    var e8 := e7 + [Tick(1)];
    var e9 := e8 + [Tick(0)];
    assert e5[..4] == e4 && e6[..5] == e5 && e7[..6] == e6 && e8[..7] == e7 && e9[..8] == e8;
    assert Run(Init(2), e5).threads[0].op == DecUpdate;
    assert Run(Init(2), e6) == State(1, [Thread(0, DecLoad(1), []), Thread(1, Idle, [])], 0);
    assert Run(Init(2), e8) == State(0, [Thread(0, DecLoad(1), []), Thread(0, DecLoad(0), [])], 0);
    assert Balanced(2, e5) && Balanced(2, e6) && Balanced(2, e7) && Balanced(2, e8);
    assert Balanced(2, e9) && Run(Init(2), e9).threads[0].reports == [Report(1, 0)];
    assert e9 == [Increment(0, None), Tick(0), Increment(1, None), Tick(1),
                  Decrement(0), Tick(0), Decrement(1), Tick(1), Tick(0)];
  }

  lemma TwoHolders() returns (e4: seq<Event>)
    ensures e4 == [Increment(0, None), Tick(0), Increment(1, None), Tick(1)]
    ensures Run(Init(2), e4) == State(2, [Thread(1, Idle, []), Thread(1, Idle, [])], 0)
    ensures Balanced(2, e4)
  {
    var e1 := [Increment(0, None)];
    var e2 := e1 + [Tick(0)];
    var e3 := e2 + [Increment(1, None)];
    e4 := e3 + [Tick(1)];
    assert e1[..0] == [] && e2[..1] == e1 && e3[..2] == e2 && e4[..3] == e3;
    assert Run(Init(2), e2) == State(1, [Thread(1, Idle, []), Thread(0, Idle, [])], 0);
    assert Run(Init(2), e4).threads == [Thread(1, Idle, []), Thread(1, Idle, [])];
    assert Balanced(2, e1) && Balanced(2, e2) && Balanced(2, e3);
  }

  /** This access raises the cell: an uncapped increment, or a
      compare-exchange that meets the value loaded. */
  predicate Grants(s: State, e: Event) {
    e.Tick? && e.i < |s.threads|
    && match s.threads[e.i].op
       case IncStart(max) => max.None?
       case IncLoaded(_, seen) => s.cell == seen
       case _ => false
  }

  /** This access lowers the cell. */
  predicate Releases(s: State, e: Event) {
    e.Tick? && e.i < |s.threads| && s.threads[e.i].op.DecUpdate? && s.cell > 0
  }

  function Granted(s: State, events: seq<Event>): nat {
    if events == [] then 0
    else
      var past := events[..|events| - 1];
      Granted(s, past) + if Grants(Run(s, past), events[|events| - 1]) then 1 else 0
  }

  function Released(s: State, events: seq<Event>): nat {
    if events == [] then 0
    else
      var past := events[..|events| - 1];
      Released(s, past) + if Releases(Run(s, past), events[|events| - 1]) then 1 else 0
  }

  /** Nothing but a grant or a release moves the cell. */
  lemma {:induction false} CellIsNet(s: State, events: seq<Event>)
    ensures Run(s, events).cell == s.cell + Granted(s, events) - Released(s, events)
  {
    if events != [] { CellIsNet(s, events[..|events| - 1]); }
  }

  /** A thread about to load waits for its own tick, whatever the others do. */
  lemma {:induction false} LoadWaits(s: State, i: nat, events: seq<Event>)
    requires i < |s.threads| && s.threads[i].op.DecLoad? && Tick(i) !in events
    ensures Run(s, events).threads[i] == s.threads[i]
  {
    if events != [] { LoadWaits(s, i, events[..|events| - 1]); }
  }

  /** Whatever the other threads do between the update and the load of a
      `decrement`, it reports the count of the moment of the load; and that is
      the count it left itself exactly when as many of their accesses in
      between grant an increment as release one. */
  lemma DecrementReportsItsOwnIff(s: State, i: nat, events: seq<Event>)
    requires i < |s.threads| && s.threads[i].op.DecUpdate? && Tick(i) !in events
    ensures var u := Next(s, Tick(i));
            var t := Run(u, events);
            && u.cell == (if s.cell == 0 then 0 else s.cell - 1)
            && Next(t, Tick(i)).threads[i].reports == s.threads[i].reports + [Report(u.cell, t.cell)]
            && (t.cell == u.cell <==> Granted(u, events) == Released(u, events))
  {
    var u := Next(s, Tick(i));
    LoadWaits(u, i, events);
    CellIsNet(u, events);
  }
}
