/** Traffic metrics (src/stats.rs): global and per-room counters, each an
    atomic of its own, and the connection and room gauges. */
module Stats {
  import opened Prelude
  import Counter

  datatype Field = MessagesIn | MessagesOut | BytesIn | BytesOut | Drops

  datatype Counters = Counters(messagesIn: nat, messagesOut: nat, bytesIn: nat, bytesOut: nat, drops: nat) {

    function Get(f: Field): nat {
      match f
      case MessagesIn => messagesIn
      case MessagesOut => messagesOut
      case BytesIn => bytesIn
      case BytesOut => bytesOut
      case Drops => drops
    }

    function Add(f: Field, n: nat): (c: Counters)
      ensures c.Get(f) == Get(f) + n
      ensures forall g :: g != f ==> c.Get(g) == Get(g)
    {
      match f
      case MessagesIn => this.(messagesIn := messagesIn + n)
      case MessagesOut => this.(messagesOut := messagesOut + n)
      case BytesIn => this.(bytesIn := bytesIn + n)
      case BytesOut => this.(bytesOut := bytesOut + n)
      case Drops => this.(drops := drops + n)
    }
  }

  const ZERO := Counters(0, 0, 0, 0, 0)

  /** One `fetch_add`: on a room's counter, made on demand, or on a global. */
  datatype Bump =
    | RoomBump(room: string, field: Field, amount: nat)
    | GlobalBump(field: Field, amount: nat)

  datatype Ledger = Ledger(globals: Counters, rooms: map<string, Counters>) {

    function Room(id: string): Counters {
      if id in rooms then rooms[id] else ZERO
    }

    function Apply(b: Bump): Ledger {
      match b
      case RoomBump(id, f, n) => this.(rooms := rooms[id := Room(id).Add(f, n)])
      case GlobalBump(f, n) => this.(globals := globals.Add(f, n))
    }
  }

  /** The atomic additions of each recording method, in the order it makes them. */
  function MessageIn(bytes: nat): seq<Bump> {
    [GlobalBump(MessagesIn, 1), GlobalBump(BytesIn, bytes)]
  }

  function MessageOut(count: nat, bytes: nat): seq<Bump> {
    [GlobalBump(MessagesOut, count), GlobalBump(BytesOut, bytes)]
  }

  function RoomMessageIn(room: string, bytes: nat): seq<Bump> {
    [RoomBump(room, MessagesIn, 1), RoomBump(room, BytesIn, bytes)] + MessageIn(bytes)
  }

  function RoomMessageOut(room: string, count: nat, bytes: nat): seq<Bump> {
    [RoomBump(room, MessagesOut, count), RoomBump(room, BytesOut, bytes)] + MessageOut(count, bytes)
  }

  function Drop(): seq<Bump> {
    [GlobalBump(Drops, 1)]
  }

  function RoomDrop(room: string): seq<Bump> {
    [RoomBump(room, Drops, 1)] + Drop()
  }

  /** What a send in a room records: the copies and their bytes, or a drop. */
  function SendRecord(room: string, count: nat, bytes: nat): seq<Bump> {
    if count == 0 then RoomDrop(room) else RoomMessageOut(room, count, bytes)
  }

  function ApplyAll(l: Ledger, work: seq<Bump>): Ledger
    decreases |work|
  {
    if work == [] then l else ApplyAll(l.Apply(work[0]), work[1..])
  }

  lemma {:induction false} ApplyAllAppend(l: Ledger, a: seq<Bump>, b: seq<Bump>)
    ensures ApplyAll(l, a + b) == ApplyAll(ApplyAll(l, a), b)
    decreases |a|
  {
    if a == [] {
      assert a + b == b;
    } else {
      assert (a + b)[1..] == a[1..] + b;
      ApplyAllAppend(l.Apply(a[0]), a[1..], b);
    }
  }

  lemma ApplyTwo(l: Ledger, a: Bump, b: Bump)
    ensures ApplyAll(l, [a, b]) == l.Apply(a).Apply(b)
  {
    assert [a, b][1..] == [b] && [b][1..] == [];
    assert ApplyAll(l, [a, b]) == ApplyAll(l.Apply(a), [b]);
  }

  /** Undisturbed, the four additions of a room record amount to one update of
      the room and one of the globals. */
  lemma UndisturbedRoomRecord(l: Ledger, room: string, f: Field, m: nat, g: Field, n: nat)
    ensures ApplyAll(l, [RoomBump(room, f, m), RoomBump(room, g, n)] + [GlobalBump(f, m), GlobalBump(g, n)])
            == Ledger(l.globals.Add(f, m).Add(g, n), l.rooms[room := l.Room(room).Add(f, m).Add(g, n)])
  {
    var a, b := RoomBump(room, f, m), RoomBump(room, g, n);
    ApplyAllAppend(l, [a, b], [GlobalBump(f, m), GlobalBump(g, n)]);
    ApplyTwo(l, a, b);
    ApplyTwo(l.Apply(a).Apply(b), GlobalBump(f, m), GlobalBump(g, n));
    var was := l.Room(room).Add(f, m).Add(g, n);
    assert l.rooms[room := l.Room(room).Add(f, m)][room := was] == l.rooms[room := was];
  }

  // What every record keeps

  ghost function OnAnyRoom(f: Field): Bump -> int {
    (b: Bump) => if b.RoomBump? && b.field == f then b.amount else 0
  }

  ghost function OnGlobal(f: Field): Bump -> int {
    (b: Bump) => if b.GlobalBump? && b.field == f then b.amount else 0
  }

  ghost function GetField(f: Field): Counters -> int {
    (c: Counters) => c.Get(f)
  }

  /** The lead of a global over the sum of the rooms. */
  ghost function Lead(l: Ledger, f: Field): int {
    l.globals.Get(f) - MapSum(l.rooms, GetField(f))
  }

  /** No global is behind the sum of the rooms. */
  ghost predicate RolledUp(l: Ledger) {
    forall f: Field :: Lead(l, f) >= 0
  }

  /** A room once listed stays listed, and no counter ever falls. */
  ghost predicate Grows(l: Ledger, m: Ledger) {
    && l.rooms.Keys <= m.rooms.Keys
    && (forall f: Field :: l.globals.Get(f) <= m.globals.Get(f))
    && (forall id, f: Field :: l.Room(id).Get(f) <= m.Room(id).Get(f))
  }

  lemma ApplyLead(l: Ledger, b: Bump, f: Field)
    ensures Lead(l.Apply(b), f) == Lead(l, f) + OnGlobal(f)(b) - OnAnyRoom(f)(b)
  {
    if b.RoomBump? {
      MapSumUpdate(l.rooms, b.room, l.Room(b.room).Add(b.field, b.amount), GetField(f));
    }
  }

  lemma {:induction false} ApplyAllLead(l: Ledger, work: seq<Bump>, f: Field)
    ensures Lead(ApplyAll(l, work), f) == Lead(l, f) + Sum(work, OnGlobal(f)) - Sum(work, OnAnyRoom(f))
    decreases |work|
  {
    if work != [] {
      ApplyLead(l, work[0], f);
      ApplyAllLead(l.Apply(work[0]), work[1..], f);
    }
  }

  lemma {:induction false} ApplyAllGrows(l: Ledger, work: seq<Bump>)
    ensures Grows(l, ApplyAll(l, work))
    decreases |work|
  {
    if work != [] { ApplyAllGrows(l.Apply(work[0]), work[1..]); }
  }

  lemma SumFour(b: seq<Bump>, w: Bump -> int)
    requires |b| <= 4
    ensures Sum(b, w) == (if |b| > 0 then w(b[0]) else 0) + (if |b| > 1 then w(b[1]) else 0)
                         + (if |b| > 2 then w(b[2]) else 0) + (if |b| > 3 then w(b[3]) else 0)
  {
    if |b| > 1 {
      assert b[1..][1..] == b[2..];
      if |b| > 2 {
        assert b[2..][1..] == b[3..];
        if |b| > 3 { assert b[3..][1..] == []; } else { assert b[3..] == []; }
      } else { assert b[2..] == []; }
    } else if |b| > 0 { assert b[1..] == []; }
  }

  /** One recording call: additions to the globals, or additions to a room
      and then the same to the globals. */
  predicate IsRecord(work: seq<Bump>) {
    || (|work| <= 2 && forall k :: 0 <= k < |work| ==> work[k].GlobalBump?)
    || (|work| == 2 && IsMirrored(work[0], work[1]))
    || (|work| == 4 && IsMirrored(work[0], work[2]) && IsMirrored(work[1], work[3]))
  }

  predicate IsMirrored(a: Bump, b: Bump) {
    a.RoomBump? && b == GlobalBump(a.field, a.amount)
  }

  lemma RecordRollsUp(work: seq<Bump>, f: Field)
    requires IsRecord(work)
    ensures Sum(work, OnAnyRoom(f)) == 0 || Sum(work, OnAnyRoom(f)) == Sum(work, OnGlobal(f))
    ensures 0 <= Sum(work, OnGlobal(f))
  {
    SumFour(work, OnGlobal(f));
    SumFour(work, OnAnyRoom(f));
  }

  /** Every recording call keeps the roll-up, forgets no room and lowers no
      counter. */
  lemma RecordKeeps(l: Ledger, work: seq<Bump>)
    requires IsRecord(work)
    ensures Grows(l, ApplyAll(l, work))
    ensures RolledUp(l) ==> RolledUp(ApplyAll(l, work))
  {
    ApplyAllGrows(l, work);
    forall f: Field ensures Lead(ApplyAll(l, work), f) >= Lead(l, f) {
      ApplyAllLead(l, work, f);
      RecordRollsUp(work, f);
    }
  }

  datatype Snapshot = Snapshot(connections: nat, rooms: nat, globals: Counters, perRoom: map<string, Counters>)

  class StatsRecorder {
    var connections: nat
    var openRooms: nat
    var globals: Counters
    var rooms: map<string, Counters>

    ghost function Book(): Ledger
      reads this
    {
      Ledger(globals, rooms)
    }

    /** Each global counter covers the rooms' counters. */
    ghost predicate Valid()
      reads this
    {
      RolledUp(Book())
    }

    /** The book has taken this record, and kept what every record keeps. */
    twostate predicate Recorded(work: seq<Bump>)
      reads this
    {
      && Book() == ApplyAll(old(Book()), work)
      && Grows(old(Book()), Book())
      && (old(Valid()) ==> Valid())
    }

    constructor ()
      ensures connections == openRooms == 0 && globals == ZERO && rooms == map[]
      ensures Valid()
    {
      connections, openRooms, globals, rooms := 0, 0, ZERO, map[];
    }

    method IncConnections() returns (v: nat)
      modifies this`connections
      ensures v == connections == old(connections) + 1
    {
      connections := connections + 1;
      v := connections;
    }

    /** A saturating update, then a separate load. Other threads leave
        `env[0]` in the gauge before the one and `env[1]` before the other, if
        there are so many: what is reported is the count after this
        decrement only when they leave it alone in between. */
    method DecConnections(env: seq<nat>) returns (v: nat)
      modifies this`connections
      ensures var met := Counter.Met(env, 0, old(connections));
              var left := if met == 0 then 0 else met - 1;
              v == connections == if |env| > 1 then env[1] else left
    {
      if |env| > 0 { connections := env[0]; }
      if connections != 0 { connections := connections - 1; }
      if |env| > 1 { connections := env[1]; }
      v := connections;
    }

    method RoomOpened()
      modifies this`openRooms
      ensures openRooms == old(openRooms) + 1
    {
      openRooms := openRooms + 1;
    }

    method RoomClosed()
      modifies this`openRooms
      ensures old(openRooms) > 0 ==> openRooms + 1 == old(openRooms)
      ensures old(openRooms) == 0 ==> openRooms == 0
    {
      if openRooms != 0 { openRooms := openRooms - 1; }
    }

    function RoomCounters(room: string): Counters
      reads this
    {
      if room in rooms then rooms[room] else ZERO
    }

    method RecordMessageIn(bytes: nat)
      modifies this`globals
      ensures Recorded(MessageIn(bytes))
      ensures globals == old(globals).(messagesIn := old(globals.messagesIn) + 1,
                                       bytesIn := old(globals.bytesIn) + bytes)
    {
      ApplyTwo(Book(), GlobalBump(MessagesIn, 1), GlobalBump(BytesIn, bytes));
      RecordKeeps(Book(), MessageIn(bytes));
      globals := globals.Add(MessagesIn, 1);
      globals := globals.Add(BytesIn, bytes);
    }

    method RecordMessageOut(count: nat, bytes: nat)
      modifies this`globals
      ensures Recorded(MessageOut(count, bytes))
      ensures globals == old(globals).(messagesOut := old(globals.messagesOut) + count,
                                       bytesOut := old(globals.bytesOut) + bytes)
    {
      ApplyTwo(Book(), GlobalBump(MessagesOut, count), GlobalBump(BytesOut, bytes));
      RecordKeeps(Book(), MessageOut(count, bytes));
      globals := globals.Add(MessagesOut, count);
      globals := globals.Add(BytesOut, bytes);
    }

    method RecordDrop()
      modifies this`globals
      ensures Recorded(Drop())
      ensures globals == old(globals).(drops := old(globals.drops) + 1)
    {
      RecordKeeps(Book(), Drop());
      globals := globals.Add(Drops, 1);
    }

    /** Two additions to the counters of a room, made on demand. */
    method BumpRoom(room: string, f: Field, m: nat, g: Field, n: nat)
      modifies this`rooms
      ensures Book() == ApplyAll(old(Book()), [RoomBump(room, f, m), RoomBump(room, g, n)])
      ensures rooms == old(rooms)[room := old(RoomCounters(room)).Add(f, m).Add(g, n)]
    {
      ApplyTwo(Book(), RoomBump(room, f, m), RoomBump(room, g, n));
      rooms := rooms[room := RoomCounters(room).Add(f, m)];
      rooms := rooms[room := RoomCounters(room).Add(g, n)];
    }

    method RecordRoomMessageIn(room: string, bytes: nat)
      modifies this`globals, this`rooms
      ensures Recorded(RoomMessageIn(room, bytes))
      ensures var was := old(RoomCounters(room));
              rooms == old(rooms)[room := was.(messagesIn := was.messagesIn + 1, bytesIn := was.bytesIn + bytes)]
      ensures globals == old(globals).(messagesIn := old(globals.messagesIn) + 1,
                                       bytesIn := old(globals.bytesIn) + bytes)
    {
      ghost var book := Book();
      BumpRoom(room, MessagesIn, 1, BytesIn, bytes);
      RecordMessageIn(bytes);
      assert Book() == ApplyAll(book, RoomMessageIn(room, bytes)) by {
        ApplyAllAppend(book, [RoomBump(room, MessagesIn, 1), RoomBump(room, BytesIn, bytes)], MessageIn(bytes));
      }
      RecordKeeps(book, RoomMessageIn(room, bytes));
    }

    method RecordRoomMessageOut(room: string, count: nat, bytes: nat)
      modifies this`globals, this`rooms
      ensures Recorded(RoomMessageOut(room, count, bytes))
      ensures var was := old(RoomCounters(room));
              rooms == old(rooms)[room := was.(messagesOut := was.messagesOut + count,
                                               bytesOut := was.bytesOut + bytes)]
      ensures globals == old(globals).(messagesOut := old(globals.messagesOut) + count,
                                       bytesOut := old(globals.bytesOut) + bytes)
    {
      ghost var book := Book();
      BumpRoom(room, MessagesOut, count, BytesOut, bytes);
      RecordMessageOut(count, bytes);
      assert Book() == ApplyAll(book, RoomMessageOut(room, count, bytes)) by {
        var bumps := [RoomBump(room, MessagesOut, count), RoomBump(room, BytesOut, bytes)];
        ApplyAllAppend(book, bumps, MessageOut(count, bytes));
      }
      RecordKeeps(book, RoomMessageOut(room, count, bytes));
    }

    method RecordRoomDrop(room: string)
      modifies this`globals, this`rooms
      ensures Recorded(RoomDrop(room))
      ensures var was := old(RoomCounters(room));
              rooms == old(rooms)[room := was.(drops := was.drops + 1)]
      ensures globals == old(globals).(drops := old(globals.drops) + 1)
    {
      ApplyTwo(Book(), RoomBump(room, Drops, 1), GlobalBump(Drops, 1));
      assert RoomDrop(room) == [RoomBump(room, Drops, 1), GlobalBump(Drops, 1)];
      RecordKeeps(Book(), RoomDrop(room));
      rooms := rooms[room := RoomCounters(room).Add(Drops, 1)];
      RecordDrop();
    }

    /** Every room that ever recorded traffic is in it, and its globals cover
        its rooms. */
    method TakeSnapshot() returns (s: Snapshot)
      requires Valid()
      ensures s == Snapshot(connections, openRooms, globals, rooms)
      ensures forall f: Field :: s.globals.Get(f) >= MapSum(s.perRoom, GetField(f))
    {
      s := Snapshot(connections, openRooms, globals, rooms);
      forall f: Field ensures s.globals.Get(f) >= MapSum(s.perRoom, GetField(f)) {
        assert Lead(Book(), f) >= 0;
      }
    }
  }
}
