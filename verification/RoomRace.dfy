/** `get_or_create`, `get` and `remove` on one manager with a recorder, called
    by any number of threads and interleaved at every map operation and gauge
    update (src/room.rs:289-302, 368-386, src/stats.rs:145-160). */
module RoomRace {
  import opened Prelude

  /** Where a thread stands. An instance is named by its number. */
  datatype Pc =
    | Idle
    | Looking(id: string)
    | Missed(id: string)
    | Built(id: string, inst: nat)
    | Opened(id: string, inst: nat)
    | Getting(id: string)
    | Removing(id: string)
    | Closing(inst: nat)

  /** The life of an instance: private to its creator until the insert, which
      makes it the mapped one or a lost race. */
  datatype Fate = Private | Mapped | Lost | Removed

  datatype Instance = Instance(id: string, fate: Fate)

  datatype Answer = Answer(id: string, inst: nat)

  /** `instances`, `answers`, what calls returned, `lost` and `floored`, the
      closings that found the gauge at zero, are history. */
  datatype State = State(
    rooms: map<string, nat>,
    gauge: nat,
    threads: seq<Pc>,
    instances: seq<Instance>,
    answers: seq<Answer>,
    lost: nat,
    floored: nat)

  datatype Event =
    | GetOrCreate(i: nat, id: string)
    | Get(i: nat, id: string)
    | Remove(i: nat, id: string)
    | Tick(i: nat)

  function Init(n: nat): State {
    State(map[], 0, seq(n, _ => Idle), [], [], 0, 0)
  }

  function Next(s: State, e: Event): (t: State)
    ensures |t.threads| == |s.threads|
  {
    if e.i >= |s.threads| then s
    else
      match e
      case GetOrCreate(i, id) => if s.threads[i].Idle? then Goto(s, i, Looking(id)) else s
      case Get(i, id) => if s.threads[i].Idle? then Goto(s, i, Getting(id)) else s
      case Remove(i, id) => if s.threads[i].Idle? then Goto(s, i, Removing(id)) else s
      case Tick(i) => Advance(s, i)
  }

  function Goto(s: State, i: nat, pc: Pc): State
    requires i < |s.threads|
  {
    s.(threads := s.threads[i := pc])
  }

  function Reply(s: State, id: string, inst: nat): State {
    s.(answers := s.answers + [Answer(id, inst)])
  }

  function SetFate(s: State, inst: nat, fate: Fate): State {
    if inst < |s.instances| then s.(instances := s.instances[inst := s.instances[inst].(fate := fate)]) else s
  }

  function Advance(s: State, i: nat): (t: State)
    requires i < |s.threads|
    ensures |t.threads| == |s.threads|
  {
    match s.threads[i]
    case Idle => s
    case Looking(id) =>
      if id in s.rooms then Reply(Goto(s, i, Idle), id, s.rooms[id]) else Goto(s, i, Missed(id))
    case Missed(id) =>
      Goto(s, i, Built(id, |s.instances|)).(instances := s.instances + [Instance(id, Private)])
    case Built(id, inst) =>
      Goto(s, i, Opened(id, inst)).(gauge := s.gauge + 1)
    case Opened(id, inst) =>
      if id in s.rooms then
        SetFate(Reply(Goto(s, i, Idle), id, s.rooms[id]), inst, Lost).(lost := s.lost + 1)
      else
        SetFate(Reply(Goto(s, i, Idle), id, inst), inst, Mapped).(rooms := s.rooms[id := inst])
    case Getting(id) =>
      if id in s.rooms then Reply(Goto(s, i, Idle), id, s.rooms[id]) else Goto(s, i, Idle)
    case Removing(id) =>
      if id in s.rooms then
        SetFate(Reply(Goto(s, i, Closing(s.rooms[id])), id, s.rooms[id]), s.rooms[id], Removed)
        .(rooms := s.rooms - {id})
      else Goto(s, i, Idle)
    case Closing(_) =>
      if s.gauge == 0 then Goto(s, i, Idle).(floored := s.floored + 1)
      else Goto(s, i, Idle).(gauge := s.gauge - 1)
  }

  function Run(s: State, events: seq<Event>): (t: State)
    ensures |t.threads| == |s.threads|
  {
    if events == [] then s
    else Next(Run(s, events[..|events| - 1]), events[|events| - 1])
  }

  // Instances

  ghost predicate Holds(pc: Pc, inst: nat) {
    Making(pc) && pc.inst == inst
  }

  ghost predicate Making(pc: Pc) { pc.Built? || pc.Opened? }

  /** Every entry names a mapped instance of its id, and every mapped instance
      has its entry. */
  ghost predicate MapAgrees(rooms: map<string, nat>, instances: seq<Instance>) {
    && (forall id :: id in rooms ==> rooms[id] < |instances| && instances[rooms[id]] == Instance(id, Mapped))
    && (forall k :: 0 <= k < |instances| && instances[k].fate.Mapped? ==>
          instances[k].id in rooms && rooms[instances[k].id] == k)
  }

  /** What a creator has made is still private, and of its id. */
  ghost predicate MadePrivate(threads: seq<Pc>, instances: seq<Instance>) {
    forall i :: 0 <= i < |threads| && Making(threads[i]) ==>
      threads[i].inst < |instances| && instances[threads[i].inst] == Instance(threads[i].id, Private)
  }

  /** No two creators hold the same instance. */
  ghost predicate MadeApart(threads: seq<Pc>) {
    forall i, j :: 0 <= i < j < |threads| && Making(threads[i]) ==> !Holds(threads[j], threads[i].inst)
  }

  /** The answer names an instance of its id that was mapped once. */
  ghost predicate Seen(a: Answer, instances: seq<Instance>) {
    && a.inst < |instances| && instances[a.inst].id == a.id
    && (instances[a.inst].fate.Mapped? || instances[a.inst].fate.Removed?)
  }

  ghost predicate AnswersSeen(answers: seq<Answer>, instances: seq<Instance>) {
    forall k :: 0 <= k < |answers| ==> Seen(answers[k], instances)
  }

  ghost predicate Consistent(s: State) {
    && MapAgrees(s.rooms, s.instances)
    && MadePrivate(s.threads, s.instances) && MadeApart(s.threads)
    && AnswersSeen(s.answers, s.instances)
  }

  /** The fates still open to an instance: a lost race stays lost, a removed
      instance removed. */
  ghost predicate MayBecome(a: Fate, b: Fate) {
    a == b || a.Private? || (a.Mapped? && b.Removed?)
  }

  /** Instances are never forgotten and only move forward in life. */
  ghost predicate Ages(s: State, t: State) {
    && |s.instances| <= |t.instances|
    && (forall k :: 0 <= k < |s.instances| ==>
          s.instances[k].id == t.instances[k].id && MayBecome(s.instances[k].fate, t.instances[k].fate))
  }

  // What one step does to each clause

  lemma EnterAgrees(rooms: map<string, nat>, instances: seq<Instance>, id: string, inst: nat)
    requires MapAgrees(rooms, instances) && id !in rooms
    requires inst < |instances| && instances[inst] == Instance(id, Private)
    ensures MapAgrees(rooms[id := inst], instances[inst := Instance(id, Mapped)])
  {
  }

  lemma LoseAgrees(rooms: map<string, nat>, instances: seq<Instance>, id: string, inst: nat)
    requires MapAgrees(rooms, instances)
    requires inst < |instances| && instances[inst] == Instance(id, Private)
    ensures MapAgrees(rooms, instances[inst := Instance(id, Lost)])
  {
  }

  lemma RemoveAgrees(rooms: map<string, nat>, instances: seq<Instance>, id: string)
    requires MapAgrees(rooms, instances) && id in rooms
    ensures MapAgrees(rooms - {id}, instances[rooms[id] := Instance(id, Removed)])
  {
  }

  lemma MakeAgrees(rooms: map<string, nat>, instances: seq<Instance>, id: string)
    requires MapAgrees(rooms, instances)
    ensures MapAgrees(rooms, instances + [Instance(id, Private)])
  {
  }

  /** A thread that is done with what it made, if anything. */
  lemma LayDown(threads: seq<Pc>, instances: seq<Instance>, i: nat, pc: Pc)
    requires MadePrivate(threads, instances) && MadeApart(threads) && i < |threads| && !Making(pc)
    ensures MadePrivate(threads[i := pc], instances) && MadeApart(threads[i := pc])
  {
  }

  /** Deciding the fate of an instance no creator holds. */
  lemma FateKeepsMade(threads: seq<Pc>, instances: seq<Instance>, inst: nat, now: Instance)
    requires MadePrivate(threads, instances) && inst < |instances|
    requires forall i :: 0 <= i < |threads| ==> !Holds(threads[i], inst)
    ensures MadePrivate(threads, instances[inst := now])
  {
  }

  lemma MakeKeepsMade(threads: seq<Pc>, instances: seq<Instance>, i: nat, id: string)
    requires MadePrivate(threads, instances) && MadeApart(threads) && i < |threads|
    ensures var now := threads[i := Built(id, |instances|)];
            MadePrivate(now, instances + [Instance(id, Private)]) && MadeApart(now)
  {
  }

  lemma OpenKeepsMade(threads: seq<Pc>, instances: seq<Instance>, i: nat)
    requires MadePrivate(threads, instances) && MadeApart(threads) && i < |threads| && threads[i].Built?
    ensures var now := threads[i := Opened(threads[i].id, threads[i].inst)];
            MadePrivate(now, instances) && MadeApart(now)
  {
  }

  /** An instance that was seen stays so, and no other fate matters. */
  lemma FateKeepsSeen(answers: seq<Answer>, instances: seq<Instance>, inst: nat, fate: Fate)
    requires AnswersSeen(answers, instances) && inst < |instances|
    requires instances[inst].fate.Private? || fate.Removed?
    ensures AnswersSeen(answers, instances[inst := instances[inst].(fate := fate)])
  {
    forall k | 0 <= k < |answers| ensures Seen(answers[k], instances[inst := instances[inst].(fate := fate)]) {
      assert Seen(answers[k], instances);
    }
  }

  lemma MakeKeepsSeen(answers: seq<Answer>, instances: seq<Instance>, id: string)
    requires AnswersSeen(answers, instances)
    ensures AnswersSeen(answers, instances + [Instance(id, Private)])
  {
    forall k | 0 <= k < |answers| ensures Seen(answers[k], instances + [Instance(id, Private)]) {
      assert Seen(answers[k], instances);
    }
  }

  lemma ReplySeen(answers: seq<Answer>, instances: seq<Instance>, a: Answer)
    requires AnswersSeen(answers, instances) && Seen(a, instances)
    ensures AnswersSeen(answers + [a], instances)
  {
  }

  lemma MissedConsistent(s: State, i: nat)
    requires i < |s.threads| && s.threads[i].Missed? && Consistent(s)
    ensures Consistent(Advance(s, i)) && Ages(s, Advance(s, i))
  {
    var id := s.threads[i].id;
    MakeAgrees(s.rooms, s.instances, id);
    MakeKeepsMade(s.threads, s.instances, i, id);
    MakeKeepsSeen(s.answers, s.instances, id);
  }

  lemma InsertConsistent(s: State, i: nat)
    requires i < |s.threads| && s.threads[i].Opened? && Consistent(s)
    ensures Consistent(Advance(s, i)) && Ages(s, Advance(s, i))
  {
    var id, inst := s.threads[i].id, s.threads[i].inst;
    var fate := if id in s.rooms then Lost else Mapped;
    var instances := s.instances[inst := Instance(id, fate)];
    if id in s.rooms {
      LoseAgrees(s.rooms, s.instances, id, inst);
    } else {
      EnterAgrees(s.rooms, s.instances, id, inst);
    }
    LayDown(s.threads, s.instances, i, Idle);
    FateKeepsMade(s.threads[i := Idle], s.instances, inst, Instance(id, fate));
    FateKeepsSeen(s.answers, s.instances, inst, fate);
    ReplySeen(s.answers, instances, Answer(id, if id in s.rooms then s.rooms[id] else inst));
  }

  lemma RemovingConsistent(s: State, i: nat)
    requires i < |s.threads| && s.threads[i].Removing? && s.threads[i].id in s.rooms && Consistent(s)
    ensures Consistent(Advance(s, i)) && Ages(s, Advance(s, i))
  {
    var id := s.threads[i].id;
    var inst := s.rooms[id];
    RemoveAgrees(s.rooms, s.instances, id);
    LayDown(s.threads, s.instances, i, Closing(inst));
    FateKeepsMade(s.threads[i := Closing(inst)], s.instances, inst, Instance(id, Removed));
    FateKeepsSeen(s.answers, s.instances, inst, Removed);
    ReplySeen(s.answers, s.instances[inst := Instance(id, Removed)], Answer(id, inst));
  }

  lemma AnsweringConsistent(s: State, i: nat)
    requires i < |s.threads| && (s.threads[i].Looking? || s.threads[i].Getting?) && s.threads[i].id in s.rooms
    requires Consistent(s)
    ensures Consistent(Advance(s, i)) && Ages(s, Advance(s, i))
  {
    LayDown(s.threads, s.instances, i, Idle);
    ReplySeen(s.answers, s.instances, Answer(s.threads[i].id, s.rooms[s.threads[i].id]));
  }

  lemma NextConsistent(s: State, e: Event)
    requires Consistent(s)
    ensures Consistent(Next(s, e)) && Ages(s, Next(s, e))
  {
    if e.i < |s.threads| {
      var pc := s.threads[e.i];
      if !e.Tick? {
        if pc.Idle? { LayDown(s.threads, s.instances, e.i, Next(s, e).threads[e.i]); }
      } else if pc.Missed? {
        MissedConsistent(s, e.i);
      } else if pc.Built? {
        OpenKeepsMade(s.threads, s.instances, e.i);
      } else if pc.Opened? {
        InsertConsistent(s, e.i);
      } else if pc.Removing? && pc.id in s.rooms {
        RemovingConsistent(s, e.i);
      } else if (pc.Looking? || pc.Getting?) && pc.id in s.rooms {
        AnsweringConsistent(s, e.i);
      } else if !pc.Idle? {
        LayDown(s.threads, s.instances, e.i, Next(s, e).threads[e.i]);
      }
    }
  }

  lemma {:induction false} AlwaysConsistent(n: nat, events: seq<Event>)
    ensures Consistent(Run(Init(n), events))
  {
    if events != [] {
      AlwaysConsistent(n, events[..|events| - 1]);
      NextConsistent(Run(Init(n), events[..|events| - 1]), events[|events| - 1]);
    }
  }

  lemma {:induction false} RunAges(s: State, events: seq<Event>)
    requires Consistent(s)
    ensures Consistent(Run(s, events)) && Ages(s, Run(s, events))
  {
    if events != [] {
      RunAges(s, events[..|events| - 1]);
      NextConsistent(Run(s, events[..|events| - 1]), events[|events| - 1]);
    }
  }

  /** At any time an id has at most one mapped instance, the map names it, and
      every instance a caller was ever given is or was mapped under that id. */
  lemma OneInstancePerId(n: nat, events: seq<Event>)
    ensures var s := Run(Init(n), events);
            && (forall j, k :: 0 <= j < k < |s.instances| && s.instances[j].fate.Mapped? && s.instances[k].fate.Mapped?
                  ==> s.instances[j].id != s.instances[k].id)
            && (forall id, k :: id in s.rooms && s.rooms[id] == k ==>
                  k < |s.instances| && s.instances[k] == Instance(id, Mapped))
            && (forall a :: a in s.answers ==>
                  && a.inst < |s.instances| && s.instances[a.inst].id == a.id
                  && !s.instances[a.inst].fate.Private? && !s.instances[a.inst].fate.Lost?)
  {
    AlwaysConsistent(n, events);
  }

  /** An instance that lost its race is never mapped and never returned, at
      any later time or before. */
  lemma LostRaceIsNeverSeen(n: nat, events: seq<Event>, later: seq<Event>, k: nat)
    requires var s := Run(Init(n), events); k < |s.instances| && s.instances[k].fate.Lost?
    ensures var t := Run(Run(Init(n), events), later);
            && k !in t.rooms.Values
            && forall a :: a in t.answers ==> a.inst != k
  {
    AlwaysConsistent(n, events);
    RunAges(Run(Init(n), events), later);
  }

  /** A removed instance is never mapped again, under any id. */
  lemma RemovedStaysRemoved(n: nat, events: seq<Event>, later: seq<Event>, k: nat)
    requires var s := Run(Init(n), events); k < |s.instances| && s.instances[k].fate.Removed?
    ensures k !in Run(Run(Init(n), events), later).rooms.Values
  {
    AlwaysConsistent(n, events);
    RunAges(Run(Init(n), events), later);
  }

  /** No thread takes `id` out of the map during `events`. */
  predicate RemovalFree(s: State, events: seq<Event>, id: string) {
    events == []
    || (var before := Run(s, events[..|events| - 1]);
        var e := events[|events| - 1];
        && RemovalFree(s, events[..|events| - 1], id)
        && (e.Tick? && e.i < |before.threads| ==> before.threads[e.i] != Removing(id)))
  }

  ghost predicate Agreed(s: State, t: State, id: string) {
    && |s.answers| <= |t.answers|
    && (id in s.rooms ==> id in t.rooms && t.rooms[id] == s.rooms[id])
    && (forall k :: |s.answers| <= k < |t.answers| && t.answers[k].id == id ==>
          id in t.rooms && t.answers[k].inst == t.rooms[id])
  }

  /** An event keeps the entry of `id`, and what it answers for it is that. */
  ghost predicate AnswersEntry(t: State, u: State, id: string) {
    && (id in t.rooms ==> id in u.rooms && u.rooms[id] == t.rooms[id])
    && |t.answers| <= |u.answers| <= |t.answers| + 1
    && (forall k :: 0 <= k < |t.answers| ==> u.answers[k] == t.answers[k])
    && (|u.answers| > |t.answers| && u.answers[|t.answers|].id == id ==>
          id in u.rooms && u.answers[|t.answers|].inst == u.rooms[id])
  }

  lemma TickAnswers(t: State, i: nat, id: string)
    requires i < |t.threads| && t.threads[i] != Removing(id)
    ensures AnswersEntry(t, Advance(t, i), id)
  {
  }

  /** So does every event but the one that takes `id` out. */
  lemma NextAnswers(t: State, e: Event, id: string)
    requires e.Tick? && e.i < |t.threads| ==> t.threads[e.i] != Removing(id)
    ensures AnswersEntry(t, Next(t, e), id)
  {
    if e.Tick? && e.i < |t.threads| { TickAnswers(t, e.i, id); }
  }

  lemma NextAgreed(s: State, t: State, e: Event, id: string)
    requires Agreed(s, t, id)
    requires e.Tick? && e.i < |t.threads| ==> t.threads[e.i] != Removing(id)
    ensures Agreed(s, Next(t, e), id)
  {
    NextAnswers(t, e, id);
  }

  /** Between removals of an id every caller is given the same instance. */
  lemma {:induction false} CallersAgreeBetweenRemovals(s: State, events: seq<Event>, id: string)
    requires RemovalFree(s, events, id)
    ensures Agreed(s, Run(s, events), id)
    ensures var t := Run(s, events);
            forall j, k :: (|s.answers| <= j < |t.answers| && |s.answers| <= k < |t.answers|
                            && t.answers[j].id == t.answers[k].id == id)
              ==> t.answers[j].inst == t.answers[k].inst
  {
    if events != [] {
      CallersAgreeBetweenRemovals(s, events[..|events| - 1], id);
      NextAgreed(s, Run(s, events[..|events| - 1]), events[|events| - 1], id);
    }
  }

  // The gauge

  ghost function Creating(pc: Pc): int { if pc.Opened? then 1 else 0 }

  ghost function ClosingDown(pc: Pc): int { if pc.Closing? then 1 else 0 }

  /** The gauge counts the mapped rooms, the creators that announced a room
      they have not inserted, every race lost so far, and the removers that
      have not announced theirs; so no closing ever finds it at zero. */
  ghost predicate GaugeBalanced(s: State) {
    && s.gauge == |s.rooms| + Sum(s.threads, Creating) + s.lost + Sum(s.threads, ClosingDown)
    && s.floored == 0
  }

  /** A step changes the gauge, the map and the tallies together. */
  ghost predicate GaugeStep(s: State, t: State, i: nat)
    requires i < |s.threads|
  {
    && |t.threads| == |s.threads| && t.threads == s.threads[i := t.threads[i]]
    && var pc, qc := s.threads[i], t.threads[i];
       && (s.gauge > 0 || !pc.Closing? ==> t.floored == s.floored)
       && (s.gauge > 0 || !pc.Closing? ==>
             t.gauge - s.gauge == (|t.rooms| - |s.rooms|) + (t.lost - s.lost)
                                  + (Creating(qc) - Creating(pc)) + (ClosingDown(qc) - ClosingDown(pc)))
  }

  lemma CallGauge(s: State, e: Event)
    requires e.i < |s.threads| && !e.Tick?
    ensures GaugeStep(s, Next(s, e), e.i)
  {
  }

  lemma RemovingGauge(s: State, i: nat)
    requires i < |s.threads| && s.threads[i].Removing?
    ensures GaugeStep(s, Advance(s, i), i)
  {
    if s.threads[i].id in s.rooms { RemoveOne(s.rooms, s.threads[i].id); }
  }

  lemma InsertingGauge(s: State, i: nat)
    requires i < |s.threads| && s.threads[i].Opened?
    ensures GaugeStep(s, Advance(s, i), i)
  {
  }

  lemma TickGauge(s: State, i: nat)
    requires i < |s.threads| && !s.threads[i].Removing? && !s.threads[i].Opened?
    ensures GaugeStep(s, Advance(s, i), i)
  {
  }

  lemma NextGauge(s: State, e: Event)
    requires e.i < |s.threads|
    ensures GaugeStep(s, Next(s, e), e.i)
  {
    if !e.Tick? {
      CallGauge(s, e);
    } else if s.threads[e.i].Removing? {
      RemovingGauge(s, e.i);
    } else if s.threads[e.i].Opened? {
      InsertingGauge(s, e.i);
    } else {
      TickGauge(s, e.i);
    }
  }

  lemma NextGaugeBalanced(s: State, e: Event)
    requires GaugeBalanced(s)
    ensures GaugeBalanced(Next(s, e))
  {
    if e.i < |s.threads| {
      NextGauge(s, e);
      SumUpdate(s.threads, e.i, Next(s, e).threads[e.i], Creating);
      SumUpdate(s.threads, e.i, Next(s, e).threads[e.i], ClosingDown);
      SumBounds(s.threads, Creating, 1);
      SumBounds(s.threads, ClosingDown, 1);
    }
  }

  lemma {:induction false} AllIdle(threads: seq<Pc>)
    requires forall i :: 0 <= i < |threads| ==> threads[i].Idle?
    ensures Sum(threads, Creating) == 0 && Sum(threads, ClosingDown) == 0
  {
    if threads != [] { AllIdle(threads[1..]); }
  }

  lemma {:induction false} GaugeIdentity(n: nat, events: seq<Event>)
    ensures GaugeBalanced(Run(Init(n), events))
  {
    if events == [] {
      AllIdle(Init(n).threads);
    } else {
      GaugeIdentity(n, events[..|events| - 1]);
      NextGaugeBalanced(Run(Init(n), events[..|events| - 1]), events[|events| - 1]);
    }
  }

  /** At rest the gauge exceeds the number of rooms by the races ever lost: it
      is right exactly when there was none, and no removal repairs it. */
  lemma GaugeAtRest(n: nat, events: seq<Event>)
    requires forall i :: 0 <= i < n ==> Run(Init(n), events).threads[i].Idle?
    ensures var s := Run(Init(n), events);
            s.gauge == |s.rooms| + s.lost && (s.gauge == |s.rooms| <==> s.lost == 0)
  {
    GaugeIdentity(n, events);
    AllIdle(Run(Init(n), events).threads);
  }

  /** The thread is inside a `get_or_create`, past its lookup or not. */
  predicate InGetOrCreate(pc: Pc) {
    pc.Looking? || pc.Missed? || pc.Built? || pc.Opened?
  }

  predicate Makes(pc: Pc, id: string) {
    InGetOrCreate(pc) && pc.id == id
  }

  /** No `get_or_create` of an id starts while another of that id is under way. */
  predicate TakesTurns(n: nat, events: seq<Event>) {
    events == []
    || (var before := Run(Init(n), events[..|events| - 1]);
        var e := events[|events| - 1];
        && TakesTurns(n, events[..|events| - 1])
        && (e.GetOrCreate? && e.i < n && before.threads[e.i].Idle? ==>
              forall j :: 0 <= j < n ==> !Makes(before.threads[j], e.id)))
  }

  /** One maker per id, and the id of a maker past its lookup is not mapped. */
  ghost predicate NoRace(s: State) {
    && (forall i, j :: 0 <= i < |s.threads| && 0 <= j < |s.threads| && i != j && InGetOrCreate(s.threads[i]) ==>
          !Makes(s.threads[j], s.threads[i].id))
    && (forall i :: 0 <= i < |s.threads| && InGetOrCreate(s.threads[i]) && !s.threads[i].Looking? ==>
          s.threads[i].id !in s.rooms)
    && s.lost == 0
  }

  lemma AdvanceNoRace(s: State, i: nat)
    requires i < |s.threads| && NoRace(s)
    ensures NoRace(Advance(s, i))
  {
    var pc, qc := s.threads[i], Advance(s, i).threads[i];
    assert InGetOrCreate(qc) ==> Makes(pc, qc.id);
  }

  lemma {:induction false} TurnsLoseNoRace(n: nat, events: seq<Event>)
    requires TakesTurns(n, events)
    ensures NoRace(Run(Init(n), events))
  {
    if events != [] {
      var past, e := events[..|events| - 1], events[|events| - 1];
      TurnsLoseNoRace(n, past);
      if e.Tick? && e.i < n { AdvanceNoRace(Run(Init(n), past), e.i); }
    }
  }

  /** So callers that take turns on each id lose no race, whatever else they
      and the removers do, and at rest the gauge is right. */
  lemma TurnsKeepTheGauge(n: nat, events: seq<Event>)
    requires TakesTurns(n, events)
    requires forall i :: 0 <= i < n ==> Run(Init(n), events).threads[i].Idle?
    ensures var s := Run(Init(n), events); s.lost == 0 && s.gauge == |s.rooms|
  {
    TurnsLoseNoRace(n, events);
    GaugeAtRest(n, events);
  }

  /** One lost race, then the room removed: no rooms, but the gauge says one. */
  lemma GaugeDoesNotConverge()
    ensures var race := [GetOrCreate(0, "r"), GetOrCreate(1, "r"), Tick(0), Tick(1), Tick(0), Tick(1),
                         Tick(0), Tick(1), Tick(0), Tick(1)];
            var s := Run(Run(Init(2), race), [Remove(0, "r"), Tick(0), Tick(0)]);
            s.rooms == map[] && s.threads == [Idle, Idle] && s.gauge == 1
  {
    var race := LostRace();
    var s := Run(Init(2), race);
    var f := Then(s, [], Remove(0, "r"), Tick(0));
    var t := Run(s, f);
    assert t.threads == [Closing(0), Idle] && t.rooms == map[] && t.gauge == 2;
    var g := f + [Tick(0)];
    assert g[..2] == f && g == [Remove(0, "r"), Tick(0), Tick(0)];
    assert Run(s, g) == Next(t, Tick(0));
    assert Run(s, g).threads == [Idle, Idle];
  }

  lemma BothAnnounced() returns (e: seq<Event>)
    ensures e == [GetOrCreate(0, "r"), GetOrCreate(1, "r"), Tick(0), Tick(1), Tick(0), Tick(1), Tick(0), Tick(1)]
    ensures Run(Init(2), e)
            == State(map[], 2, [Opened("r", 0), Opened("r", 1)],
                     [Instance("r", Private), Instance("r", Private)], [], 0, 0)
  {
    var e0 := Then(Init(2), [], GetOrCreate(0, "r"), GetOrCreate(1, "r"));
    var e1 := Then(Init(2), e0, Tick(0), Tick(1));
    assert Run(Init(2), e1) == State(map[], 0, [Missed("r"), Missed("r")], [], [], 0, 0);
    var e2 := Then(Init(2), e1, Tick(0), Tick(1));
    assert Run(Init(2), e2)
           == State(map[], 0, [Built("r", 0), Built("r", 1)],
                    [Instance("r", Private), Instance("r", Private)], [], 0, 0);
    e := Then(Init(2), e2, Tick(0), Tick(1));
    assert Run(Init(2), e).threads == [Opened("r", 0), Opened("r", 1)];
  }

  lemma LostRace() returns (race: seq<Event>)
    ensures race == [GetOrCreate(0, "r"), GetOrCreate(1, "r"), Tick(0), Tick(1), Tick(0), Tick(1),
                     Tick(0), Tick(1), Tick(0), Tick(1)]
    ensures var s := Run(Init(2), race); s.rooms == map["r" := 0] && s.gauge == 2 && s.threads == [Idle, Idle]
  {
    var e := BothAnnounced();
    race := Then(Init(2), e, Tick(0), Tick(1));
    var s := Run(Init(2), e);
    assert Next(s, Tick(0)).threads == [Idle, Opened("r", 1)] && Next(s, Tick(0)).rooms == map["r" := 0];
    assert Run(Init(2), race).threads == [Idle, Idle];
  }

  lemma Then(s: State, events: seq<Event>, a: Event, b: Event) returns (more: seq<Event>)
    ensures more == events + [a, b]
    ensures Run(s, more) == Next(Next(Run(s, events), a), b)
  {
    more := events + [a, b];
    assert more[..|more| - 1] == events + [a];
    assert (events + [a])[..|events|] == events;
  }

  // Every call is answered

  lemma OthersLeaveCall(s: State, e: Event, i: nat)
    requires i < |s.threads| && InGetOrCreate(s.threads[i]) && e != Tick(i)
    ensures Next(s, e).threads[i] == s.threads[i]
  {
  }

  lemma InsertAnswers(s: State, i: nat)
    requires i < |s.threads| && s.threads[i].Opened?
    ensures var t, id := Next(s, Tick(i)), s.threads[i].id;
            id in t.rooms && t.threads[i].Idle? && t.answers == s.answers + [Answer(id, t.rooms[id])]
  {
  }

  lemma LastStepAnswers(s: State, e: Event, i: nat, id: string)
    requires i < |s.threads| && Makes(s.threads[i], id) && !Makes(Next(s, e).threads[i], id)
    ensures var t := Next(s, e);
            && e == Tick(i) && id in t.rooms
            && t.threads[i].Idle? && t.answers == s.answers + [Answer(id, t.rooms[id])]
  {
    if e != Tick(i) {
      OthersLeaveCall(s, e, i);
    } else if s.threads[i].Opened? {
      InsertAnswers(s, i);
    }
  }

  predicate AnsweredAt(s: State, i: nat, id: string, events: seq<Event>, k: nat)
    requires i < |s.threads| && k < |events|
  {
    var before, after := Run(s, events[..k]), Run(s, events[..k + 1]);
    && events[k] == Tick(i) && id in after.rooms
    && after.threads[i].Idle? && after.answers == before.answers + [Answer(id, after.rooms[id])]
  }

  /** However it is interleaved, a `get_or_create` ends by returning the
      instance its id is mapped to at that moment, its own or the winner's. */
  lemma {:induction false} CallIsAnswered(s: State, i: nat, id: string, events: seq<Event>)
    requires i < |s.threads| && Makes(s.threads[i], id) && !Makes(Run(s, events).threads[i], id)
    ensures exists k :: 0 <= k < |events| && AnsweredAt(s, i, id, events, k)
  {
    assert Run(s, []) == s;
    var past, e := events[..|events| - 1], events[|events| - 1];
    if Makes(Run(s, past).threads[i], id) {
      LastStepAnswers(Run(s, past), e, i, id);
      assert events[..|events|] == events;
      assert AnsweredAt(s, i, id, events, |events| - 1);
    } else {
      CallIsAnswered(s, i, id, past);
      var k :| 0 <= k < |past| && AnsweredAt(s, i, id, past, k);
      assert past[..k] == events[..k] && past[..k + 1] == events[..k + 1];
      assert AnsweredAt(s, i, id, events, k);
    }
  }

  // Alone

  lemma Then1(s: State, a: Event)
    ensures Run(s, [a]) == Next(s, a)
  {
    assert [a][..0] == [];
  }

  lemma Then2(s: State, a: Event, b: Event)
    ensures Run(s, [a, b]) == Next(Next(s, a), b)
  {
    assert [a, b][..1] == [a];
    Then1(s, a);
  }

  /** With no other thread in between, `get` returns what is mapped, if
      anything, and changes nothing. */
  lemma AloneGet(s: State, i: nat, id: string)
    requires i < |s.threads| && s.threads[i].Idle?
    ensures Run(s, [Get(i, id), Tick(i)])
            == if id in s.rooms then s.(answers := s.answers + [Answer(id, s.rooms[id])]) else s
  {
    var u := Next(s, Get(i, id));
    assert u == s.(threads := s.threads[i := Getting(id)]);
    assert u.threads[i := Idle] == s.threads;
    Then2(s, Get(i, id), Tick(i));
  }

  /** `get_or_create` returns the mapped instance and changes nothing, */
  lemma AloneFinds(s: State, i: nat, id: string)
    requires i < |s.threads| && s.threads[i].Idle? && id in s.rooms
    ensures Run(s, [GetOrCreate(i, id), Tick(i)]) == s.(answers := s.answers + [Answer(id, s.rooms[id])])
  {
    Then2(s, GetOrCreate(i, id), Tick(i));
    assert s.threads[i := Idle] == s.threads;
  }

  /** or makes one, maps it, counts it on the gauge and returns it. */
  lemma AloneCreates(s: State, i: nat, id: string)
    requires i < |s.threads| && s.threads[i].Idle? && id !in s.rooms
    ensures Run(s, [GetOrCreate(i, id), Tick(i), Tick(i), Tick(i), Tick(i)])
            == s.(rooms := s.rooms[id := |s.instances|], gauge := s.gauge + 1,
                  instances := s.instances + [Instance(id, Mapped)],
                  answers := s.answers + [Answer(id, |s.instances|)])
  {
    var inst := |s.instances|;
    var made := s.instances + [Instance(id, Private)];
    var e2 := [GetOrCreate(i, id), Tick(i)];
    var e3, e4 := e2 + [Tick(i)], e2 + [Tick(i), Tick(i)];
    var e5 := e4 + [Tick(i)];
    assert e3[..2] == e2 && e4[..3] == e3 && e5[..4] == e4;
    Then2(s, GetOrCreate(i, id), Tick(i));
    assert Run(s, e2) == s.(threads := s.threads[i := Missed(id)]);
    assert Run(s, e3) == s.(threads := s.threads[i := Built(id, inst)], instances := made);
    assert Run(s, e4) == s.(threads := s.threads[i := Opened(id, inst)], instances := made, gauge := s.gauge + 1);
    assert s.threads[i := Idle] == s.threads;
    assert made[inst := Instance(id, Mapped)] == s.instances + [Instance(id, Mapped)];
    assert e5 == [GetOrCreate(i, id), Tick(i), Tick(i), Tick(i), Tick(i)];
  }

  /** `remove` takes the mapped instance out, counts it off and returns it. */
  lemma AloneRemoves(s: State, i: nat, id: string)
    requires i < |s.threads| && s.threads[i].Idle? && id in s.rooms && s.rooms[id] < |s.instances| && s.gauge > 0
    ensures var inst := s.rooms[id];
            Run(s, [Remove(i, id), Tick(i), Tick(i)])
            == s.(rooms := s.rooms - {id}, gauge := s.gauge - 1,
                  instances := s.instances[inst := s.instances[inst].(fate := Removed)],
                  answers := s.answers + [Answer(id, inst)])
  {
    var e2 := [Remove(i, id), Tick(i)];
    var e3 := e2 + [Tick(i)];
    assert e3[..2] == e2 && e3 == [Remove(i, id), Tick(i), Tick(i)];
    Then2(s, Remove(i, id), Tick(i));
    assert s.threads[i := Idle] == s.threads;
  }

  lemma AloneRemovesNothing(s: State, i: nat, id: string)
    requires i < |s.threads| && s.threads[i].Idle? && id !in s.rooms
    ensures Run(s, [Remove(i, id), Tick(i)]) == s
  {
    var u := Next(s, Remove(i, id));
    assert u == s.(threads := s.threads[i := Removing(id)]) && u.threads[i := Idle] == s.threads;
    Then2(s, Remove(i, id), Tick(i));
    assert s.threads[i := Idle] == s.threads;
  }
}
