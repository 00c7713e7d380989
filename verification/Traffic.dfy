/** Delivery accounting under concurrency: any number of threads broadcasting
    in rooms and recording traffic, interleaved at every atomic addition
    (src/room.rs:89-99, src/stats.rs:165-231). */
module Traffic {
  import opened Prelude
  import opened Codec
  import opened Stats

  /** A subscriber of one room instance. `room` is that instance's id. */
  datatype Receiver = Receiver(inst: nat, room: string, live: bool, log: seq<Frame>)

  /** A finished `tx.send`: how many receivers it reached. */
  datatype Call = Call(room: string, frame: Frame, reached: nat)

  /** Each thread carries the additions it has yet to make. `calls` and
      `loose`, what was recorded without naming a room, are history. */
  datatype State = State(
    ledger: Ledger,
    instances: seq<string>,
    receivers: seq<Receiver>,
    threads: seq<seq<Bump>>,
    calls: seq<Call>,
    loose: Counters)

  datatype Event =
    | NewRoom(id: string)
    | Subscribe(inst: nat)
    | Unsubscribe(receiver: nat)
    | Broadcast(i: nat, inst: nat, frame: Frame)
    | RoomIn(i: nat, id: string, bytes: nat)
    | GlobalIn(i: nat, bytes: nat)
    | GlobalOut(i: nat, count: nat, bytes: nat)
    | GlobalDrop(i: nat)
    | Tick(i: nat)

  function Init(n: nat): State {
    State(Ledger(ZERO, map[]), [], [], seq(n, _ => []), [], ZERO)
  }

  predicate Idle(s: State, i: nat) {
    i < |s.threads| && s.threads[i] == []
  }

  function Live(rs: seq<Receiver>, inst: nat): nat {
    if rs == [] then 0 else (if rs[0].live && rs[0].inst == inst then 1 else 0) + Live(rs[1..], inst)
  }

  /** Appends the frame to the log of every live receiver of the instance. */
  function Deliver(rs: seq<Receiver>, inst: nat, frame: Frame): seq<Receiver> {
    if rs == [] then []
    else
      var r := rs[0];
      [if r.live && r.inst == inst then r.(log := r.log + [frame]) else r] + Deliver(rs[1..], inst, frame)
  }

  function Start(s: State, i: nat, work: seq<Bump>): State
    requires Idle(s, i)
  {
    s.(threads := s.threads[i := work])
  }

  /** One event; one that is not possible in `s` changes nothing. */
  function Next(s: State, e: Event): (t: State)
    ensures |t.threads| == |s.threads|
  {
    match e
    case NewRoom(id) => s.(instances := s.instances + [id])
    case Subscribe(inst) =>
      if inst < |s.instances| then
        s.(receivers := s.receivers + [Receiver(inst, s.instances[inst], true, [])])
      else s
    case Unsubscribe(r) =>
      if r < |s.receivers| then s.(receivers := s.receivers[r := s.receivers[r].(live := false)]) else s
    case Broadcast(i, inst, frame) =>
      if Idle(s, i) && inst < |s.instances| then
        var id := s.instances[inst];
        var n := Live(s.receivers, inst);
        var t := s.(calls := s.calls + [Call(id, frame, n)]);
        var u := Start(t, i, SendRecord(id, n, frame.Len() * n));
        if n == 0 then u else u.(receivers := Deliver(s.receivers, inst, frame))
      else s
    case RoomIn(i, id, bytes) => if Idle(s, i) then Start(s, i, RoomMessageIn(id, bytes)) else s
    case GlobalIn(i, bytes) =>
      if Idle(s, i) then
        Start(s, i, MessageIn(bytes)).(loose := s.loose.Add(MessagesIn, 1).Add(BytesIn, bytes))
      else s
    case GlobalOut(i, count, bytes) =>
      if Idle(s, i) then
        Start(s, i, MessageOut(count, bytes)).(loose := s.loose.Add(MessagesOut, count).Add(BytesOut, bytes))
      else s
    case GlobalDrop(i) =>
      if Idle(s, i) then Start(s, i, Drop()).(loose := s.loose.Add(Drops, 1)) else s
    case Tick(i) =>
      if i < |s.threads| && s.threads[i] != [] then
        s.(ledger := s.ledger.Apply(s.threads[i][0]), threads := s.threads[i := s.threads[i][1..]])
      else s
  }

  function Run(n: nat, events: seq<Event>): State {
    if events == [] then Init(n)
    else Next(Run(n, events[..|events| - 1]), events[|events| - 1])
  }

  // What is pending, delivered and called

  ghost function OnRoom(id: string, f: Field): Bump -> int {
    (b: Bump) => if b.RoomBump? && b.room == id && b.field == f then b.amount else 0
  }

  ghost function Owed(w: Bump -> int): seq<Bump> -> int {
    (work: seq<Bump>) => Sum(work, w)
  }

  /** The additions selected by `w` that some thread has yet to make. */
  ghost function Pending(s: State, w: Bump -> int): int {
    Sum(s.threads, Owed(w))
  }

  ghost function Copies(id: string): Receiver -> int {
    (r: Receiver) => if r.room == id then |r.log| else 0
  }

  ghost function FrameLen(f: Frame): int { f.Len() }

  ghost function CopiedBytes(id: string): Receiver -> int {
    (r: Receiver) => if r.room == id then Sum(r.log, FrameLen) else 0
  }

  ghost function Failed(id: string): Call -> int {
    (c: Call) => if c.room == id && c.reached == 0 then 1 else 0
  }

  ghost function Reached(id: string): Call -> int {
    (c: Call) => if c.room == id then c.reached else 0
  }

  // The invariants

  ghost predicate Named(s: State) {
    forall r :: r in s.receivers ==> r.inst < |s.instances| && r.room == s.instances[r.inst]
  }

  /** What a room's counters show and what is pending for them is what its
      instances' receivers got, and what its broadcast calls did. */
  ghost predicate RoomBalanced(s: State, id: string) {
    && s.ledger.Room(id).messagesOut + Pending(s, OnRoom(id, MessagesOut)) == Sum(s.receivers, Copies(id))
    && Sum(s.receivers, Copies(id)) == Sum(s.calls, Reached(id))
    && s.ledger.Room(id).bytesOut + Pending(s, OnRoom(id, BytesOut)) == Sum(s.receivers, CopiedBytes(id))
    && s.ledger.Room(id).drops + Pending(s, OnRoom(id, Drops)) == Sum(s.calls, Failed(id))
  }

  /** A global counter and the rooms' counters differ by exactly the loose
      records and what is pending on either side. */
  ghost predicate GlobalBalanced(s: State, f: Field) {
    s.ledger.globals.Get(f) + Pending(s, OnGlobal(f))
    == MapSum(s.ledger.rooms, GetField(f)) + Pending(s, OnAnyRoom(f)) + s.loose.Get(f)
  }

  lemma {:induction false} DeliverCopies(rs: seq<Receiver>, inst: nat, frame: Frame, room: string, id: string)
    requires forall r :: r in rs && r.inst == inst ==> r.room == room
    ensures Sum(Deliver(rs, inst, frame), Copies(id))
            == Sum(rs, Copies(id)) + (if id == room then Live(rs, inst) else 0)
  {
    if rs != [] {
      DeliverCopies(rs[1..], inst, frame, room, id);
      assert Deliver(rs, inst, frame)[1..] == Deliver(rs[1..], inst, frame);
    }
  }

  lemma {:induction false} DeliverBytes(rs: seq<Receiver>, inst: nat, frame: Frame, room: string, id: string)
    requires forall r :: r in rs && r.inst == inst ==> r.room == room
    ensures Sum(Deliver(rs, inst, frame), CopiedBytes(id))
            == Sum(rs, CopiedBytes(id)) + (if id == room then frame.Len() * Live(rs, inst) else 0)
  {
    if rs != [] {
      DeliverBytes(rs[1..], inst, frame, room, id);
      assert Deliver(rs, inst, frame)[1..] == Deliver(rs[1..], inst, frame);
      SumAppend(rs[0].log, frame, FrameLen);
      Distribute(frame.Len(), Live(rs[1..], inst));
    }
  }

  lemma Distribute(a: nat, b: nat)
    ensures a * (1 + b) == a + a * b
  {
  }

  lemma {:induction false} DeliverKeeps(rs: seq<Receiver>, inst: nat, frame: Frame)
    ensures |Deliver(rs, inst, frame)| == |rs|
    ensures forall k :: 0 <= k < |rs| ==>
              var r := rs[k];
              Deliver(rs, inst, frame)[k] == (if r.live && r.inst == inst then r.(log := r.log + [frame]) else r)
  {
    if rs != [] { DeliverKeeps(rs[1..], inst, frame); }
  }

  /** Starting a call adds its whole programme to what is pending. */
  lemma StartPending(s: State, i: nat, work: seq<Bump>, w: Bump -> int)
    requires Idle(s, i)
    ensures Pending(Start(s, i, work), w) == Pending(s, w) + Sum(work, w)
  {
    SumUpdate(s.threads, i, work, Owed(w));
  }

  lemma TickPending(s: State, i: nat, w: Bump -> int)
    requires i < |s.threads| && s.threads[i] != []
    ensures Pending(Next(s, Tick(i)), w) == Pending(s, w) - w(s.threads[i][0])
  {
    SumUpdate(s.threads, i, s.threads[i][1..], Owed(w));
  }

  lemma NextNamed(s: State, e: Event)
    requires Named(s)
    ensures Named(Next(s, e))
  {
    if e.Broadcast? { DeliverKeeps(s.receivers, e.inst, e.frame); }
  }

  lemma SubscribeSums(s: State, inst: nat, id: string)
    requires inst < |s.instances|
    ensures var t := Next(s, Subscribe(inst));
            && Sum(t.receivers, Copies(id)) == Sum(s.receivers, Copies(id))
            && Sum(t.receivers, CopiedBytes(id)) == Sum(s.receivers, CopiedBytes(id))
  {
    var r := Receiver(inst, s.instances[inst], true, []);
    SumAppend(s.receivers, r, Copies(id));
    SumAppend(s.receivers, r, CopiedBytes(id));
  }

  lemma UnsubscribeSums(s: State, k: nat, id: string)
    requires k < |s.receivers|
    ensures var t := Next(s, Unsubscribe(k));
            && Sum(t.receivers, Copies(id)) == Sum(s.receivers, Copies(id))
            && Sum(t.receivers, CopiedBytes(id)) == Sum(s.receivers, CopiedBytes(id))
  {
    SumUpdate(s.receivers, k, s.receivers[k].(live := false), Copies(id));
    SumUpdate(s.receivers, k, s.receivers[k].(live := false), CopiedBytes(id));
  }

  /** Sending owes the room's counters exactly what was delivered, and the
      globals the same. */
  lemma BroadcastRoom(s: State, e: Event, id: string)
    requires e.Broadcast? && Idle(s, e.i) && e.inst < |s.instances|
    requires Named(s) && RoomBalanced(s, id)
    ensures RoomBalanced(Next(s, e), id)
  {
    var room, n := s.instances[e.inst], Live(s.receivers, e.inst);
    var work := SendRecord(room, n, e.frame.Len() * n);
    var c := Call(room, e.frame, n);
    StartPending(s, e.i, work, OnRoom(id, MessagesOut));
    StartPending(s, e.i, work, OnRoom(id, BytesOut));
    StartPending(s, e.i, work, OnRoom(id, Drops));
    SumFour(work, OnRoom(id, MessagesOut));
    SumFour(work, OnRoom(id, BytesOut));
    SumFour(work, OnRoom(id, Drops));
    DeliverCopies(s.receivers, e.inst, e.frame, room, id);
    DeliverBytes(s.receivers, e.inst, e.frame, room, id);
    SumAppend(s.calls, c, Reached(id));
    SumAppend(s.calls, c, Failed(id));
  }

  predicate IsRecording(e: Event) {
    e.RoomIn? || e.GlobalIn? || e.GlobalOut? || e.GlobalDrop?
  }

  /** The additions a recording call outside the rooms' broadcasts makes. */
  function Programme(e: Event): (work: seq<Bump>)
    requires IsRecording(e)
    ensures |work| <= 4
    ensures forall b :: b in work && b.RoomBump? ==> b.field == MessagesIn || b.field == BytesIn
  {
    match e
    case RoomIn(_, id, bytes) => RoomMessageIn(id, bytes)
    case GlobalIn(_, bytes) => MessageIn(bytes)
    case GlobalOut(_, count, bytes) => MessageOut(count, bytes)
    case GlobalDrop(_) => Drop()
  }

  lemma RecordStarts(s: State, e: Event)
    requires IsRecording(e) && Idle(s, e.i)
    ensures Next(s, e) == Start(s, e.i, Programme(e)).(loose := Next(s, e).loose)
  {
  }

  lemma NoOutbound(work: seq<Bump>, id: string)
    requires |work| <= 4
    requires forall b :: b in work && b.RoomBump? ==> b.field == MessagesIn || b.field == BytesIn
    ensures Sum(work, OnRoom(id, MessagesOut)) == Sum(work, OnRoom(id, BytesOut)) == Sum(work, OnRoom(id, Drops)) == 0
  {
    SumFour(work, OnRoom(id, MessagesOut));
    SumFour(work, OnRoom(id, BytesOut));
    SumFour(work, OnRoom(id, Drops));
  }

  lemma RecordRoom(s: State, e: Event, id: string)
    requires IsRecording(e) && Idle(s, e.i) && RoomBalanced(s, id)
    ensures RoomBalanced(Next(s, e), id)
  {
    RecordStarts(s, e);
    var work := Programme(e);
    NoOutbound(work, id);
    StartPending(s, e.i, work, OnRoom(id, MessagesOut));
    StartPending(s, e.i, work, OnRoom(id, BytesOut));
    StartPending(s, e.i, work, OnRoom(id, Drops));
  }

  lemma TickRoom(s: State, i: nat, id: string)
    requires i < |s.threads| && s.threads[i] != [] && RoomBalanced(s, id)
    ensures RoomBalanced(Next(s, Tick(i)), id)
  {
    TickPending(s, i, OnRoom(id, MessagesOut));
    TickPending(s, i, OnRoom(id, BytesOut));
    TickPending(s, i, OnRoom(id, Drops));
  }

  /** Events that were not possible, and new rooms, leave the books alone. */
  predicate Moves(s: State, e: Event) {
    match e
    case NewRoom(_) => false
    case Subscribe(inst) => inst < |s.instances|
    case Unsubscribe(r) => r < |s.receivers|
    case Broadcast(i, inst, _) => Idle(s, i) && inst < |s.instances|
    case Tick(i) => i < |s.threads| && s.threads[i] != []
    case _ => Idle(s, e.i)
  }

  lemma Still(s: State, e: Event)
    requires !Moves(s, e)
    ensures Next(s, e) == s.(instances := Next(s, e).instances)
  {
  }

  lemma NextRoomBalanced(s: State, e: Event, id: string)
    requires Named(s) && RoomBalanced(s, id)
    ensures RoomBalanced(Next(s, e), id)
  {
    if !Moves(s, e) {
      Still(s, e);
    } else if e.Subscribe? {
      SubscribeSums(s, e.inst, id);
    } else if e.Unsubscribe? {
      UnsubscribeSums(s, e.receiver, id);
    } else if e.Broadcast? {
      BroadcastRoom(s, e, id);
    } else if e.Tick? {
      TickRoom(s, e.i, id);
    } else {
      RecordRoom(s, e, id);
    }
  }

  lemma TickGlobal(s: State, i: nat, f: Field)
    requires i < |s.threads| && s.threads[i] != [] && GlobalBalanced(s, f)
    ensures GlobalBalanced(Next(s, Tick(i)), f)
  {
    TickPending(s, i, OnGlobal(f));
    TickPending(s, i, OnAnyRoom(f));
    ApplyLead(s.ledger, s.threads[i][0], f);
  }

  lemma StartGlobal(s: State, i: nat, work: seq<Bump>, f: Field)
    requires Idle(s, i) && |work| <= 4
    ensures var t := Start(s, i, work);
            Pending(t, OnGlobal(f)) - Pending(s, OnGlobal(f)) == Sum(work, OnGlobal(f))
            && Pending(t, OnAnyRoom(f)) - Pending(s, OnAnyRoom(f)) == Sum(work, OnAnyRoom(f))
  {
    StartPending(s, i, work, OnGlobal(f));
    StartPending(s, i, work, OnAnyRoom(f));
  }

  lemma RecordGlobal(s: State, e: Event, f: Field)
    requires IsRecording(e) && Idle(s, e.i) && GlobalBalanced(s, f)
    ensures GlobalBalanced(Next(s, e), f)
  {
    RecordStarts(s, e);
    var work := Programme(e);
    StartGlobal(s, e.i, work, f);
    SumFour(work, OnGlobal(f));
    SumFour(work, OnAnyRoom(f));
  }

  lemma BroadcastGlobal(s: State, e: Event, f: Field)
    requires e.Broadcast? && Moves(s, e) && GlobalBalanced(s, f)
    ensures GlobalBalanced(Next(s, e), f)
  {
    var work := Next(s, e).threads[e.i];
    assert Next(s, e).threads == Start(s, e.i, work).threads;
    StartGlobal(s, e.i, work, f);
    SumFour(work, OnGlobal(f));
    SumFour(work, OnAnyRoom(f));
  }

  lemma NextGlobalBalanced(s: State, e: Event, f: Field)
    requires GlobalBalanced(s, f)
    ensures GlobalBalanced(Next(s, e), f)
  {
    if !Moves(s, e) {
      Still(s, e);
    } else if e.Tick? {
      TickGlobal(s, e.i, f);
    } else if e.Broadcast? {
      BroadcastGlobal(s, e, f);
    } else if IsRecording(e) {
      RecordGlobal(s, e, f);
    }
  }

  lemma {:induction false} NothingPending(threads: seq<seq<Bump>>, w: Bump -> int)
    requires forall k :: 0 <= k < |threads| ==> threads[k] == []
    ensures Sum(threads, Owed(w)) == 0
  {
    if threads != [] { NothingPending(threads[1..], w); }
  }

  lemma InitBalanced(n: nat, id: string, f: Field)
    ensures Named(Init(n)) && RoomBalanced(Init(n), id) && GlobalBalanced(Init(n), f)
  {
    var threads := Init(n).threads;
    NothingPending(threads, OnRoom(id, MessagesOut));
    NothingPending(threads, OnRoom(id, BytesOut));
    NothingPending(threads, OnRoom(id, Drops));
    NothingPending(threads, OnGlobal(f));
    NothingPending(threads, OnAnyRoom(f));
  }

  /** Every reachable state, with any number of calls under way: the books
      balance once what is pending is counted. */
  lemma {:induction false} BooksBalance(n: nat, events: seq<Event>, id: string, f: Field)
    ensures Named(Run(n, events)) && RoomBalanced(Run(n, events), id) && GlobalBalanced(Run(n, events), f)
  {
    if events == [] {
      InitBalanced(n, id, f);
    } else {
      BooksBalance(n, events[..|events| - 1], id, f);
      var s := Run(n, events[..|events| - 1]);
      NextNamed(s, events[|events| - 1]);
      NextRoomBalanced(s, events[|events| - 1], id);
      NextGlobalBalanced(s, events[|events| - 1], f);
    }
  }

  ghost predicate AtRest(s: State) {
    forall k :: 0 <= k < |s.threads| ==> s.threads[k] == []
  }

  /** At rest a room's counters are the copies its instances' receivers got,
      their bytes and its failed calls, and each global counter is the sum
      over the rooms plus what was recorded without a room. */
  lemma AtRestTheBooksAreExact(n: nat, events: seq<Event>, id: string, f: Field)
    requires AtRest(Run(n, events))
    ensures var s := Run(n, events);
            && s.ledger.Room(id).messagesOut == Sum(s.receivers, Copies(id)) == Sum(s.calls, Reached(id))
            && s.ledger.Room(id).bytesOut == Sum(s.receivers, CopiedBytes(id))
            && s.ledger.Room(id).drops == Sum(s.calls, Failed(id))
            && s.ledger.globals.Get(f) == MapSum(s.ledger.rooms, GetField(f)) + s.loose.Get(f)
  {
    var s := Run(n, events);
    BooksBalance(n, events, id, f);
    NothingPending(s.threads, OnRoom(id, MessagesOut));
    NothingPending(s.threads, OnRoom(id, BytesOut));
    NothingPending(s.threads, OnRoom(id, Drops));
    NothingPending(s.threads, OnGlobal(f));
    NothingPending(s.threads, OnAnyRoom(f));
  }

  /** Also under way, a room once listed stays listed and no counter ever
      falls: a later state only adds to an earlier one. */
  lemma {:induction false} BooksOnlyGrow(n: nat, events: seq<Event>, k: nat)
    requires k <= |events|
    ensures Grows(Run(n, events[..k]).ledger, Run(n, events).ledger)
  {
    if k == |events| {
      assert events[..k] == events;
    } else {
      var past, e := events[..|events| - 1], events[|events| - 1];
      BooksOnlyGrow(n, past, k);
      assert past[..k] == events[..k];
      NextGrows(Run(n, past), e);
    }
  }

  lemma NextGrows(s: State, e: Event)
    ensures Grows(s.ledger, Next(s, e).ledger)
  {
    if e.Tick? && Moves(s, e) {
      var b := s.threads[e.i][0];
      ApplyAllGrows(s.ledger, [b]);
      assert ApplyAll(s.ledger, [b]) == s.ledger.Apply(b);
    }
  }

  ghost function Succeeded(id: string): Call -> int {
    (c: Call) => if c.room == id && c.reached > 0 then 1 else 0
  }

  ghost function InRoom(id: string): Call -> int {
    (c: Call) => if c.room == id then 1 else 0
  }

  lemma {:induction false} EachCallSucceedsOrFails(calls: seq<Call>, id: string)
    ensures Sum(calls, Succeeded(id)) + Sum(calls, Failed(id)) == Sum(calls, InRoom(id))
  {
    if calls != [] { EachCallSucceedsOrFails(calls[1..], id); }
  }

  /** At rest, a room's successful sends plus its drops are its broadcast calls. */
  lemma AtRestSendsPlusDropsAreCalls(n: nat, events: seq<Event>, id: string)
    requires AtRest(Run(n, events))
    ensures var s := Run(n, events);
            Sum(s.calls, Succeeded(id)) + s.ledger.Room(id).drops == Sum(s.calls, InRoom(id))
  {
    AtRestTheBooksAreExact(n, events, id, Drops);
    EachCallSucceedsOrFails(Run(n, events).calls, id);
  }

  // Undisturbed

  /** Thread `i` makes all the additions it has yet to make. */
  function Finish(s: State, i: nat): State
    requires i < |s.threads|
    decreases |s.threads[i]|
  {
    if s.threads[i] == [] then s else Finish(Next(s, Tick(i)), i)
  }

  lemma {:induction false} FinishApplies(s: State, i: nat)
    requires i < |s.threads|
    ensures Finish(s, i) == s.(ledger := ApplyAll(s.ledger, s.threads[i]), threads := s.threads[i := []])
    decreases |s.threads[i]|
  {
    if s.threads[i] == [] {
      assert s.threads[i := []] == s.threads;
    } else {
      var t := Next(s, Tick(i));
      FinishApplies(t, i);
      assert t.threads[i := []] == s.threads[i := []];
    }
  }

  /** A broadcast, undisturbed: every live receiver of the instance gets the
      frame, and room and globals count the copies and their bytes; without
      live receivers nothing is delivered, and both count a drop. */
  lemma UndisturbedBroadcast(s: State, i: nat, inst: nat, frame: Frame)
    requires i < |s.threads| && s.threads[i] == [] && inst < |s.instances|
    ensures var t := Finish(Next(s, Broadcast(i, inst, frame)), i);
            var id, n, l := s.instances[inst], Live(s.receivers, inst), s.ledger;
            && t.threads == s.threads && t.instances == s.instances && t.loose == s.loose
            && t.calls == s.calls + [Call(id, frame, n)]
            && t.receivers == Deliver(s.receivers, inst, frame)
            && t.ledger == (if n == 0
                            then Ledger(l.globals.Add(Drops, 1), l.rooms[id := l.Room(id).Add(Drops, 1)])
                            else Ledger(l.globals.Add(MessagesOut, n).Add(BytesOut, frame.Len() * n),
                                        l.rooms[id := l.Room(id).Add(MessagesOut, n).Add(BytesOut, frame.Len() * n)]))
  {
    var id, n := s.instances[inst], Live(s.receivers, inst);
    var u := Next(s, Broadcast(i, inst, frame));
    FinishApplies(u, i);
    assert s.threads[i := u.threads[i]][i := []] == s.threads;
    if n == 0 {
      NobodyHears(s.receivers, inst, frame);
      ApplyTwo(s.ledger, RoomBump(id, Drops, 1), GlobalBump(Drops, 1));
      assert RoomDrop(id) == [RoomBump(id, Drops, 1), GlobalBump(Drops, 1)];
    } else {
      UndisturbedRoomRecord(s.ledger, id, MessagesOut, n, BytesOut, frame.Len() * n);
    }
  }

  lemma {:induction false} NobodyHears(rs: seq<Receiver>, inst: nat, frame: Frame)
    requires Live(rs, inst) == 0
    ensures Deliver(rs, inst, frame) == rs
  {
    if rs != [] { NobodyHears(rs[1..], inst, frame); }
  }

  /** An inbound message of a room, undisturbed, on room and globals. */
  lemma UndisturbedRoomIn(s: State, i: nat, id: string, bytes: nat)
    requires i < |s.threads| && s.threads[i] == []
    ensures var l := s.ledger;
            Finish(Next(s, RoomIn(i, id, bytes)), i)
            == s.(ledger := Ledger(l.globals.Add(MessagesIn, 1).Add(BytesIn, bytes),
                                   l.rooms[id := l.Room(id).Add(MessagesIn, 1).Add(BytesIn, bytes)]))
  {
    FinishRecord(s, RoomIn(i, id, bytes));
    UndisturbedRoomRecord(s.ledger, id, MessagesIn, 1, BytesIn, bytes);
  }

  lemma FinishRecord(s: State, e: Event)
    requires IsRecording(e) && Idle(s, e.i)
    ensures Finish(Next(s, e), e.i) == s.(ledger := ApplyAll(s.ledger, Programme(e)), loose := Next(s, e).loose)
  {
    FinishApplies(Next(s, e), e.i);
    assert s.threads[e.i := Programme(e)][e.i := []] == s.threads;
  }

  /** Records that name no room, undisturbed, on the globals and as loose. */
  lemma UndisturbedLooseIn(s: State, i: nat, bytes: nat)
    requires i < |s.threads| && s.threads[i] == []
    ensures Finish(Next(s, GlobalIn(i, bytes)), i)
            == s.(ledger := s.ledger.(globals := s.ledger.globals.Add(MessagesIn, 1).Add(BytesIn, bytes)),
                  loose := s.loose.Add(MessagesIn, 1).Add(BytesIn, bytes))
  {
    FinishRecord(s, GlobalIn(i, bytes));
    ApplyTwo(s.ledger, GlobalBump(MessagesIn, 1), GlobalBump(BytesIn, bytes));
  }

  lemma UndisturbedLooseOut(s: State, i: nat, count: nat, bytes: nat)
    requires i < |s.threads| && s.threads[i] == []
    ensures Finish(Next(s, GlobalOut(i, count, bytes)), i)
            == s.(ledger := s.ledger.(globals := s.ledger.globals.Add(MessagesOut, count).Add(BytesOut, bytes)),
                  loose := s.loose.Add(MessagesOut, count).Add(BytesOut, bytes))
  {
    FinishRecord(s, GlobalOut(i, count, bytes));
    ApplyTwo(s.ledger, GlobalBump(MessagesOut, count), GlobalBump(BytesOut, bytes));
  }

  lemma UndisturbedLooseDrop(s: State, i: nat)
    requires i < |s.threads| && s.threads[i] == []
    ensures Finish(Next(s, GlobalDrop(i)), i)
            == s.(ledger := s.ledger.(globals := s.ledger.globals.Add(Drops, 1)), loose := s.loose.Add(Drops, 1))
  {
    FinishRecord(s, GlobalDrop(i));
    assert Drop()[1..] == [];
  }

  /** A new room has no listeners; subscribing adds one, which has heard
      nothing yet, and unsubscribing takes away one that was live. */
  lemma ListenersComeAndGo(s: State, id: string, inst: nat, k: nat)
    requires Named(s) && inst < |s.instances| && k < |s.receivers|
    ensures var t := Next(s, NewRoom(id)); t.instances == s.instances + [id] && Live(t.receivers, |s.instances|) == 0
    ensures var t := Next(s, Subscribe(inst));
            && t.receivers == s.receivers + [Receiver(inst, s.instances[inst], true, [])]
            && Live(t.receivers, inst) == Live(s.receivers, inst) + 1
    ensures var t, r := Next(s, Unsubscribe(k)), s.receivers[k];
            && Live(t.receivers, r.inst) == Live(s.receivers, r.inst) - (if r.live then 1 else 0)
            && t.receivers[k].log == r.log
  {
    NoneYet(s.receivers, |s.instances|);
    LiveAppend(s.receivers, Receiver(inst, s.instances[inst], true, []), inst);
    LiveUpdate(s.receivers, k);
  }

  lemma {:induction false} NoneYet(rs: seq<Receiver>, inst: nat)
    requires forall r :: r in rs ==> r.inst < inst
    ensures Live(rs, inst) == 0
  {
    if rs != [] { NoneYet(rs[1..], inst); }
  }

  lemma {:induction false} LiveAppend(rs: seq<Receiver>, r: Receiver, inst: nat)
    ensures Live(rs + [r], inst) == Live(rs, inst) + if r.live && r.inst == inst then 1 else 0
  {
    if rs == [] {
      assert rs + [r] == [r];
    } else {
      assert (rs + [r])[1..] == rs[1..] + [r];
      LiveAppend(rs[1..], r, inst);
    }
  }

  lemma {:induction false} LiveUpdate(rs: seq<Receiver>, k: nat)
    requires k < |rs|
    ensures Live(rs[k := rs[k].(live := false)], rs[k].inst) == Live(rs, rs[k].inst) - if rs[k].live then 1 else 0
  {
    var now := rs[k := rs[k].(live := false)];
    if k == 0 {
      assert now[1..] == rs[1..];
    } else {
      assert now[1..] == rs[1..][k - 1 := rs[1..][k - 1].(live := false)];
      LiveUpdate(rs[1..], k - 1);
    }
  }
}
