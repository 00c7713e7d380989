/** `n` threads each call `increment(Some(limit))` once on a fresh counter,
    interleaved in any order. A step is one atomic access: the load with its
    limit check, or the compare-exchange (src/counter.rs:52-67). */
module CounterRace {
  import opened Prelude

  datatype Pc = Start | Loaded(seen: nat) | Won(count: nat) | Refused

  /** `winners`, `failed` and `work` are history: the threads in the order they
      succeeded, the failed compare-exchanges, and the accesses made so far. */
  datatype State = State(cell: nat, threads: seq<Pc>, winners: seq<nat>, failed: nat, work: nat)

  function Init(n: nat): State {
    State(0, seq(n, _ => Start), [], 0, 0)
  }

  predicate Done(pc: Pc) { pc.Won? || pc.Refused? }

  function Step(s: State, limit: nat, i: nat): State
    requires i < |s.threads|
  {
    match s.threads[i]
    case Start =>
      var pc := if s.cell >= limit then Refused else Loaded(s.cell);
      s.(threads := s.threads[i := pc], work := s.work + 1)
    case Loaded(v) =>
      if s.cell == v then
        s.(cell := v + 1, threads := s.threads[i := Won(v + 1)], winners := s.winners + [i], work := s.work + 1)
      else
        s.(threads := s.threads[i := Start], failed := s.failed + 1, work := s.work + 1)
    case _ => s
  }

  predicate Schedule(n: nat, sched: seq<nat>) {
    forall k :: 0 <= k < |sched| ==> sched[k] < n
  }

  function Run(n: nat, limit: nat, sched: seq<nat>): (s: State)
    requires Schedule(n, sched)
    ensures |s.threads| == n
  {
    if sched == [] then Init(n)
    else Step(Run(n, limit, sched[..|sched| - 1]), limit, sched[|sched| - 1])
  }

  ghost function Active(pc: Pc): int { if Done(pc) then 0 else 1 }

  /** One for a thread whose next compare-exchange is bound to fail. */
  ghost function Stale(cell: nat): Pc -> int {
    (pc: Pc) => if pc.Loaded? && pc.seen != cell then 1 else 0
  }

  ghost function Progress(pc: Pc): int {
    if pc.Start? then 0 else if pc.Won? then 2 else 1
  }

  /** The c-th success is that of one thread, which holds the count c + 1. */
  ghost predicate WinnerAt(s: State, c: nat)
    requires c < |s.winners|
  {
    s.winners[c] < |s.threads| && s.threads[s.winners[c]] == Won(c + 1)
  }

  ghost predicate ThreadOk(s: State, limit: nat, i: nat)
    requires i < |s.threads|
  {
    match s.threads[i]
    case Start => true
    case Loaded(seen) => seen <= s.cell && seen < limit
    case Won(count) => 1 <= count <= |s.winners| && s.winners[count - 1] == i
    case Refused => s.cell == limit
  }

  ghost predicate Inv(s: State, limit: nat, n: nat) {
    && |s.threads| == n
    && |s.winners| == s.cell <= limit
    && (forall c :: 0 <= c < |s.winners| ==> WinnerAt(s, c))
    && (forall i :: 0 <= i < n ==> ThreadOk(s, limit, i))
  }

  /** The pairs among `a` threads: a(a-1)/2. */
  ghost function Pairs(a: int): nat {
    if a <= 0 then 0 else a - 1 + Pairs(a - 1)
  }

  lemma {:induction false} PairsClosedForm(a: nat)
    ensures 2 * Pairs(a) == a * (a - 1)
  {
    if a > 0 { PairsClosedForm(a - 1); }
  }

  ghost function Winner(pc: Pc): int { if pc.Won? then 1 else 0 }

  /** Each success can spoil at most the other active threads' next attempt. */
  ghost predicate Potential(s: State, n: nat) {
    && s.failed + Sum(s.threads, Stale(s.cell)) + Pairs(Sum(s.threads, Active)) <= Pairs(n)
    && s.work == 2 * s.failed + Sum(s.threads, Progress)
    && s.cell == Sum(s.threads, Winner)
  }

  /** What a step does to the sums the potential is made of. */
  lemma StepSums(s: State, limit: nat, i: nat)
    requires i < |s.threads|
    ensures var t := Step(s, limit, i);
            var pc, qc := s.threads[i], t.threads[i];
            && |t.threads| == |s.threads|
            && Sum(t.threads, Active) == Sum(s.threads, Active) - Active(pc) + Active(qc)
            && Sum(t.threads, Progress) == Sum(s.threads, Progress) - Progress(pc) + Progress(qc)
            && Sum(t.threads, Winner) == Sum(s.threads, Winner) - Winner(pc) + Winner(qc)
            && 0 <= Sum(t.threads, Active) <= |s.threads|
  {
    var t := Step(s, limit, i);
    SumUpdate(s.threads, i, t.threads[i], Active);
    SumUpdate(s.threads, i, t.threads[i], Progress);
    SumUpdate(s.threads, i, t.threads[i], Winner);
    assert t.threads == s.threads[i := t.threads[i]];
    SumBounds(t.threads, Active, 1);
  }

  /** A success makes at most the other active threads stale; any other step
      only changes its own thread. */
  lemma StepStale(s: State, limit: nat, i: nat)
    requires i < |s.threads|
    ensures var t := Step(s, limit, i);
            var pc, qc := s.threads[i], t.threads[i];
            if t.cell == s.cell
            then Sum(t.threads, Stale(t.cell))
                 == Sum(s.threads, Stale(s.cell)) - Stale(s.cell)(pc) + Stale(s.cell)(qc)
            else Sum(t.threads, Stale(t.cell)) <= Sum(t.threads, Active) && 0 <= Sum(s.threads, Stale(s.cell))
  {
    var t := Step(s, limit, i);
    if t.cell == s.cell {
      SumUpdate(s.threads, i, t.threads[i], Stale(s.cell));
      assert t.threads == s.threads[i := t.threads[i]];
    } else {
      SumBounds(s.threads, Stale(s.cell), 1);
      SumLeq(t.threads, Stale(t.cell), Active);
    }
  }

  lemma StepPotential(s: State, limit: nat, i: nat)
    requires i < |s.threads| && Potential(s, |s.threads|)
    ensures Potential(Step(s, limit, i), |s.threads|)
  {
    StepSums(s, limit, i);
    StepStale(s, limit, i);
  }

  lemma InitPotential(n: nat)
    ensures Potential(Init(n), n)
  {
    var s := Init(n);
    AllSum(s.threads, Active, 1);
    AllSum(s.threads, Winner, 0);
    AllSum(s.threads, Stale(0), 0);
    AllSum(s.threads, Progress, 0);
  }

  lemma {:induction false} AllSum(s: seq<Pc>, w: Pc -> int, v: int)
    requires forall pc :: pc in s ==> w(pc) == v
    ensures Sum(s, w) == v * |s|
  {
    if s != [] {
      AllSum(s[1..], w, v);
      assert v * |s| == v + v * |s[1..]|;
    }
  }

  lemma StepInv(s: State, limit: nat, i: nat)
    requires i < |s.threads| && Inv(s, limit, |s.threads|)
    ensures Inv(Step(s, limit, i), limit, |s.threads|)
  {
    var t := Step(s, limit, i);
    assert ThreadOk(s, limit, i);
    forall c | 0 <= c < |t.winners| ensures WinnerAt(t, c) {
      assert c < |s.winners| ==> WinnerAt(s, c);
    }
    forall j | 0 <= j < |t.threads| ensures ThreadOk(t, limit, j) {
      assert ThreadOk(s, limit, j);
    }
  }

  lemma {:induction false} Reachable(n: nat, limit: nat, sched: seq<nat>)
    requires Schedule(n, sched)
    ensures Inv(Run(n, limit, sched), limit, n)
    ensures Potential(Run(n, limit, sched), n)
  {
    if sched == [] {
      InitPotential(n);
    } else {
      Reachable(n, limit, sched[..|sched| - 1]);
      StepInv(Run(n, limit, sched[..|sched| - 1]), limit, sched[|sched| - 1]);
      StepPotential(Run(n, limit, sched[..|sched| - 1]), limit, sched[|sched| - 1]);
    }
  }

  /** The successes and the threads that had them name each other. */
  lemma WinnersAreListed(s: State, limit: nat, n: nat)
    requires Inv(s, limit, n)
    ensures forall i :: 0 <= i < n && s.threads[i].Won? ==>
              1 <= s.threads[i].count <= s.cell && s.winners[s.threads[i].count - 1] == i
    ensures forall c :: 0 <= c < s.cell ==> s.winners[c] < n && s.threads[s.winners[c]] == Won(c + 1)
    ensures forall i :: 0 <= i < n && s.threads[i].Refused? ==> s.cell == limit
  {
    forall i | 0 <= i < n
      ensures s.threads[i].Won? ==>
                1 <= s.threads[i].count <= s.cell && s.winners[s.threads[i].count - 1] == i
      ensures s.threads[i].Refused? ==> s.cell == limit
    {
      assert ThreadOk(s, limit, i);
    }
    forall c | 0 <= c < s.cell ensures s.winners[c] < n && s.threads[s.winners[c]] == Won(c + 1) {
      assert WinnerAt(s, c);
    }
  }

  /** The limit holds in every state of every schedule, and the counts handed
      out are exactly 1 to the current count, each to one thread. */
  lemma WinnersCountUp(n: nat, limit: nat, sched: seq<nat>)
    requires Schedule(n, sched)
    ensures var s := Run(n, limit, sched);
            && s.cell <= limit
            && (forall i :: 0 <= i < n && s.threads[i].Won? ==> 1 <= s.threads[i].count <= s.cell)
            && (forall i, j :: 0 <= i < j < n && s.threads[i].Won? && s.threads[j].Won? ==>
                  s.threads[i].count != s.threads[j].count)
            && (forall c :: 1 <= c <= s.cell ==> Won(c) in s.threads)
  {
    Reachable(n, limit, sched);
    var s := Run(n, limit, sched);
    forall i | 0 <= i < n && s.threads[i].Won? ensures 1 <= s.threads[i].count <= s.cell {
      assert ThreadOk(s, limit, i);
    }
    forall i, j | 0 <= i < j < n && s.threads[i].Won? && s.threads[j].Won?
      ensures s.threads[i].count != s.threads[j].count
    {
      assert ThreadOk(s, limit, i) && ThreadOk(s, limit, j);
    }
    forall c | 1 <= c <= s.cell ensures Won(c) in s.threads {
      assert WinnerAt(s, c - 1) && s.threads[s.winners[c - 1]] == Won(c);
    }
  }

  /** Once every call has returned, exactly min(n, limit) of them succeeded. */
  lemma ExactlyTheLimitWins(n: nat, limit: nat, sched: seq<nat>)
    requires Schedule(n, sched)
    requires forall i :: 0 <= i < n ==> Done(Run(n, limit, sched).threads[i])
    ensures var s := Run(n, limit, sched);
            s.cell == |s.winners| == (if n < limit then n else limit)
    ensures forall i :: 0 <= i < n ==>
              (i in Run(n, limit, sched).winners <==> Run(n, limit, sched).threads[i].Won?)
  {
    Reachable(n, limit, sched);
    var s := Run(n, limit, sched);
    WinnersAreListed(s, limit, n);
    SumBounds(s.threads, Winner, 1);
    if forall i :: 0 <= i < n ==> s.threads[i].Won? { AllSum(s.threads, Winner, 1); }
  }

  /** Contention is bounded: at most n(n-1)/2 compare-exchanges fail. */
  lemma FewFailures(n: nat, limit: nat, sched: seq<nat>)
    requires Schedule(n, sched)
    ensures 2 * Run(n, limit, sched).failed <= n * (n - 1)
  {
    Reachable(n, limit, sched);
    var s := Run(n, limit, sched);
    SumBounds(s.threads, Stale(s.cell), 1);
    PairsClosedForm(n);
  }

  /** No thread scheduled by `sched` had already returned. */
  predicate Busy(n: nat, limit: nat, sched: seq<nat>)
    requires Schedule(n, sched)
  {
    sched == []
    || (Busy(n, limit, sched[..|sched| - 1])
        && !Done(Run(n, limit, sched[..|sched| - 1]).threads[sched[|sched| - 1]]))
  }

  /** Every run ends: n calls together make at most n(n+1) accesses. */
  lemma {:induction false} EveryRunEnds(n: nat, limit: nat, sched: seq<nat>)
    requires Schedule(n, sched) && Busy(n, limit, sched)
    ensures |sched| == Run(n, limit, sched).work
    ensures |sched| <= n * (n + 1)
  {
    if sched != [] { EveryRunEnds(n, limit, sched[..|sched| - 1]); }
    FewFailures(n, limit, sched);
    Reachable(n, limit, sched);
    SumBounds(Run(n, limit, sched).threads, Progress, 2);
    assert n * (n - 1) + 2 * n == n * (n + 1);
  }
}
