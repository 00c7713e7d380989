/** Rooms and their manager as one thread uses them (src/room.rs). The
    interleaved use of the manager is in module RoomRace, that of a room's
    counters in module Traffic. */
module Rooms {
  import opened Prelude
  import opened Codec
  import opened Stats

  /** Every receiver's queue with `frame` behind what it held. */
  function Delivered(queues: map<nat, seq<Frame>>, frame: Frame): (after: map<nat, seq<Frame>>)
    ensures after.Keys == queues.Keys && |after| == |queues|
  {
    if queues == map[] then map[]
    else
      var after := map r | r in queues :: queues[r] + [frame];
      assert after.Keys == queues.Keys;
      assert |after| == |after.Keys| && |queues| == |queues.Keys|;
      after
  }

  class Room {
    const id: string
    const stats: StatsRecorder?
    /** Connection id to display name. */
    var participants: map<nat, string>
    /** The live receivers and what each has been sent. */
    var queues: map<nat, seq<Frame>>
    var nextReceiver: nat

    ghost predicate Valid()
      reads this
    {
      forall r :: r in queues ==> r < nextReceiver
    }

    constructor (id: string, stats: StatsRecorder?)
      ensures this.id == id && this.stats == stats
      ensures participants == map[] && queues == map[] && Valid()
    {
      this.id, this.stats := id, stats;
      participants, queues, nextReceiver := map[], map[], 0;
    }

    method Subscribe() returns (r: nat)
      requires Valid()
      modifies this`queues, this`nextReceiver
      ensures Valid() && r !in old(queues) && queues == old(queues)[r := []]
    {
      r := nextReceiver;
      queues, nextReceiver := queues[r := []], nextReceiver + 1;
    }

    method Unsubscribe(r: nat)
      requires Valid()
      modifies this`queues
      ensures Valid() && queues == old(queues) - {r}
    {
      queues := queues - {r};
    }

    /** Reaches every receiver of this instance and no one else, or fails
        and counts a drop when there is none. */
    method Broadcast(frame: Frame) returns (res: Result<nat, WsError>)
      requires Valid()
      modifies this`queues, stats
      ensures Valid() && queues == Delivered(old(queues), frame)
      ensures res == if old(queues) == map[] then Err(BroadcastFull) else Ok(|old(queues)|)
      ensures stats != null ==>
                && stats.openRooms == old(stats.openRooms) && stats.connections == old(stats.connections)
                && stats.Recorded(SendRecord(id, |old(queues)|, frame.Len() * |old(queues)|))
    {
      var n := |queues|;
      if n == 0 {
        if stats != null { stats.RecordRoomDrop(id); }
        return Err(BroadcastFull);
      }
      queues := Delivered(queues, frame);
      if stats != null { stats.RecordRoomMessageOut(id, n, frame.Len() * n); }
      return Ok(n);
    }

    method Join(participant: nat, name: string)
      modifies this`participants
      ensures participants == old(participants)[participant := name]
      ensures |participants| == |old(participants)| + if participant in old(participants) then 0 else 1
    {
      participants := participants[participant := name];
    }

    method Leave(participant: nat) returns (present: bool)
      modifies this`participants
      ensures present == (participant in old(participants))
      ensures participants == old(participants) - {participant}
      ensures |participants| == |old(participants)| - if present then 1 else 0
    {
      present := participant in participants;
      if present { RemoveOne(participants, participant); } else { assert participants - {participant} == participants; }
      participants := participants - {participant};
    }

    predicate IsEmpty()
      reads this
      ensures IsEmpty() <==> participants == map[] && queues == map[]
    {
      |participants| == 0 && |queues| == 0
    }
  }

  ghost function Size(roster: map<nat, string>): int { |roster| }

  ghost function Rosters(rooms: map<string, Room>): map<string, map<nat, string>>
    reads rooms.Values
  {
    map id | id in rooms :: rooms[id].participants
  }

  /** Rooms without participants do not count towards the total. */
  lemma DropUnattended(rooms: map<string, Room>, ids: set<string>)
    requires ids <= rooms.Keys
    requires forall id :: id in ids ==> rooms[id].participants == map[]
    ensures |rooms - ids| == |rooms| - |ids|
    ensures MapSum(Rosters(rooms - ids), Size) == MapSum(Rosters(rooms), Size)
  {
    RemoveMany(rooms, ids);
    DropWeightless(Rosters(rooms), ids, Size);
    assert Rosters(rooms - ids) == Rosters(rooms) - ids;
  }

  /** A join adds one to the total if the participant is new to the room. */
  lemma JoinAddsOne(rosters: map<string, map<nat, string>>, id: string, participant: nat, name: string)
    requires id in rosters
    ensures var joined: map<nat, string> := rosters[id][participant := name];
            MapSum(rosters[id := joined], Size)
            == MapSum(rosters, Size) + if participant in rosters[id] then 0 else 1
  {
    var joined: map<nat, string> := rosters[id][participant := name];
    MapSumUpdate(rosters, id, joined, Size);
  }

  ghost function FramesOf(log: seq<Frame>): int { |log| }

  ghost function FrameLen(f: Frame): int { f.Len() }

  ghost function BytesOf(log: seq<Frame>): int { Sum(log, FrameLen) }

  lemma DeliveredButOne(queues: map<nat, seq<Frame>>, frame: Frame, r: nat)
    requires r in queues
    ensures Delivered(queues, frame) - {r} == Delivered(queues - {r}, frame)
    ensures Delivered(queues, frame)[r] == queues[r] + [frame]
  {
    if queues - {r} == map[] { assert queues.Keys == {r}; }
  }

  lemma {:induction false} FramesHandedOut(queues: map<nat, seq<Frame>>, frame: Frame)
    ensures MapSum(Delivered(queues, frame), FramesOf) == MapSum(queues, FramesOf) + |queues|
    decreases |queues|
  {
    if queues != map[] {
      var r :| r in queues;
      FramesHandedOut(queues - {r}, frame);
      RemoveOne(queues, r);
      DeliveredButOne(queues, frame, r);
      MapSumRemove(queues, r, FramesOf);
      MapSumRemove(Delivered(queues, frame), r, FramesOf);
    }
  }

  lemma {:induction false} BytesHandedOut(queues: map<nat, seq<Frame>>, frame: Frame)
    ensures MapSum(Delivered(queues, frame), BytesOf) == MapSum(queues, BytesOf) + frame.Len() * |queues|
    decreases |queues|
  {
    if queues != map[] {
      var r :| r in queues;
      BytesHandedOut(queues - {r}, frame);
      RemoveOne(queues, r);
      DeliveredButOne(queues, frame, r);
      MapSumRemove(queues, r, BytesOf);
      MapSumRemove(Delivered(queues, frame), r, BytesOf);
      SumAppend(queues[r], frame, FrameLen);
      OneMore(frame.Len(), |queues - {r}|);
    }
  }

  lemma OneMore(a: int, b: int)
    ensures a * (b + 1) == a + a * b
  {
  }

  class RoomManager {
    const stats: StatsRecorder?
    var rooms: map<string, Room>

    ghost predicate Valid()
      reads this, rooms.Values
    {
      forall id :: id in rooms ==> rooms[id].id == id && rooms[id].stats == stats && rooms[id].Valid()
    }

    /** The room gauge shows the number of rooms. */
    ghost predicate GaugeExact()
      reads this, stats
    {
      stats != null ==> stats.openRooms == |rooms|
    }

    twostate predicate TrafficKept()
      reads stats
    {
      stats != null ==> unchanged(stats`globals) && unchanged(stats`rooms) && unchanged(stats`connections)
    }

    /** The participants of all rooms together. */
    ghost function Total(): int
      reads this, rooms.Values
    {
      MapSum(Rosters(rooms), Size)
    }

    /** The ids of the rooms with neither participants nor receivers. */
    ghost function EmptyRooms(): set<string>
      reads this, rooms.Values
    {
      set id | id in rooms && rooms[id].participants == map[] && rooms[id].queues == map[]
    }

    /** The ids of the rooms without participants. */
    ghost function UnattendedRooms(): set<string>
      reads this, rooms.Values
    {
      set id | id in rooms && rooms[id].participants == map[]
    }

    constructor (stats: StatsRecorder?)
      ensures this.stats == stats && rooms == map[] && Valid()
    {
      this.stats := stats;
      rooms := map[];
    }

    method Get(id: string) returns (room: Option<Room>)
      ensures room == if id in rooms then Some(rooms[id]) else None
    {
      room := if id in rooms then Some(rooms[id]) else None;
    }

    /** Undisturbed, the entry found missing is still missing at the insert. */
    method GetOrCreate(id: string) returns (room: Room)
      requires Valid()
      modifies this`rooms, stats
      ensures Valid() && id in rooms && room == rooms[id]
      ensures id in old(rooms) ==>
                rooms == old(rooms) && (stats != null ==> stats.openRooms == old(stats.openRooms))
      ensures id !in old(rooms) ==>
                && fresh(room) && rooms == old(rooms)[id := room]
                && room.participants == map[] && room.queues == map[]
                && (stats != null ==> stats.openRooms == old(stats.openRooms) + 1)
      ensures old(GaugeExact()) ==> GaugeExact()
      ensures TrafficKept()
    {
      if id in rooms { return rooms[id]; }
      room := new Room(id, stats);
      if stats != null { stats.RoomOpened(); }
      if id !in rooms { rooms := rooms[id := room]; }
      room := rooms[id];
    }

    method Remove(id: string) returns (removed: Option<Room>)
      requires Valid()
      modifies this`rooms, stats
      ensures Valid() && rooms == old(rooms) - {id}
      ensures removed == if id in old(rooms) then Some(old(rooms)[id]) else None
      ensures old(GaugeExact()) ==> GaugeExact()
      ensures TrafficKept()
      ensures stats != null ==>
                stats.openRooms == old(stats.openRooms) - if removed.Some? && old(stats.openRooms) > 0 then 1 else 0
    {
      removed := if id in rooms then Some(rooms[id]) else None;
      rooms := rooms - {id};
      if removed.Some? {
        assert |old(rooms)| == |rooms| + 1 by { RemoveOne(old(rooms), id); }
        if stats != null { stats.RoomClosed(); }
      }
    }

    method TotalParticipants() returns (n: nat)
      requires Valid()
      ensures n == Total()
    {
      n := 0;
      var todo := rooms.Keys;
      ghost var rosters := Rosters(rooms);
      assert rosters == map id | id in todo :: rosters[id];
      while todo != {}
        invariant todo <= rooms.Keys
        invariant n + MapSum(map id | id in todo :: rosters[id], Size) == MapSum(rosters, Size)
        decreases |todo|
      {
        var id :| id in todo;
        MapSumRemove(map i | i in todo :: rosters[i], id, Size);
        assert (map i | i in todo :: rosters[i]) - {id} == map i | i in todo - {id} :: rosters[i];
        n := n + |rooms[id].participants|;
        todo := todo - {id};
      }
    }

    method CollectEmpty() returns (found: set<string>)
      ensures found == old(EmptyRooms()) && found <= rooms.Keys
      ensures forall id :: id in found ==> rooms[id].participants == map[]
    {
      found := {};
      var todo := rooms.Keys;
      while todo != {}
        invariant todo <= rooms.Keys
        invariant found == set id | id in rooms.Keys - todo
                                    && rooms[id].participants == map[] && rooms[id].queues == map[]
        decreases |todo|
      {
        var id :| id in todo;
        if rooms[id].IsEmpty() { found := found + {id}; }
        todo := todo - {id};
      }
    }

    method CollectUnattended() returns (found: set<string>)
      ensures found == old(UnattendedRooms()) && found <= rooms.Keys
      ensures forall id :: id in found ==> rooms[id].participants == map[]
    {
      found := set id | id in rooms && |rooms[id].participants| == 0;
    }

    /** Removes exactly the rooms without participants and receivers. */
    method Cleanup() returns (n: nat)
      requires Valid()
      modifies this`rooms, stats
      ensures Valid()
      ensures rooms == old(rooms) - old(EmptyRooms())
      ensures forall id :: id in old(rooms) ==>
                (id in rooms <==> old(rooms[id].participants != map[] || rooms[id].queues != map[]))
      ensures n == |old(rooms)| - |rooms|
      ensures old(GaugeExact()) ==> GaugeExact()
      ensures TrafficKept()
      ensures Total() == old(Total())
    {
      var toRemove := CollectEmpty();
      n := RemoveAll(toRemove);
    }

    /** Removes exactly the rooms without participants, receivers or not. */
    method CleanupEmpty() returns (n: nat)
      requires Valid()
      modifies this`rooms, stats
      ensures Valid()
      ensures rooms == old(rooms) - old(UnattendedRooms())
      ensures forall id :: id in old(rooms) ==> (id in rooms <==> old(rooms[id].participants) != map[])
      ensures n == |old(rooms)| - |rooms|
      ensures old(GaugeExact()) ==> GaugeExact()
      ensures TrafficKept()
      ensures Total() == old(Total())
    {
      var toRemove := CollectUnattended();
      n := RemoveAll(toRemove);
    }

    /** The part the two clean-ups share: remove what was collected, then
        close that many rooms on the gauge. */
    method RemoveAll(toRemove: set<string>) returns (n: nat)
      requires Valid() && toRemove <= rooms.Keys
      requires forall id :: id in toRemove ==> rooms[id].participants == map[]
      modifies this`rooms, stats
      ensures Valid() && rooms == old(rooms) - toRemove
      ensures n == |toRemove| == |old(rooms)| - |rooms|
      ensures old(GaugeExact()) ==> GaugeExact()
      ensures TrafficKept()
      ensures Total() == old(Total())
    {
      n := |toRemove|;
      TakeOut(toRemove);
      ClosedOnGauge(n);
    }

    method ClosedOnGauge(n: nat)
      modifies stats
      ensures stats != null && old(stats.openRooms) >= n ==> stats.openRooms == old(stats.openRooms) - n
      ensures TrafficKept()
    {
      if n > 0 && stats != null {
        for i := 0 to n
          invariant old(stats.openRooms) >= n ==> stats.openRooms == old(stats.openRooms) - i
          invariant TrafficKept()
        {
          stats.RoomClosed();
        }
      }
    }

    method TakeOut(toRemove: set<string>)
      requires toRemove <= rooms.Keys
      requires forall id :: id in toRemove ==> rooms[id].participants == map[]
      modifies this`rooms
      ensures rooms == old(rooms) - toRemove && |rooms| == |old(rooms)| - |toRemove|
      ensures Total() == old(Total())
    {
      DropUnattended(rooms, toRemove);
      TakeEach(toRemove);
    }

    method TakeEach(toRemove: set<string>)
      modifies this`rooms
      ensures rooms == old(rooms) - toRemove
    {
      var todo := toRemove;
      while todo != {}
        invariant todo <= toRemove && rooms == old(rooms) - (toRemove - todo)
        decreases |todo|
      {
        var id :| id in todo;
        rooms := rooms - {id};
        todo := todo - {id};
      }
    }
  }

  lemma {:induction false} RemoveMany<K, V>(m: map<K, V>, ks: set<K>)
    requires ks <= m.Keys
    ensures |m - ks| == |m| - |ks|
  {
    if ks == {} {
      assert m - ks == m;
    } else {
      var k :| k in ks;
      RemoveMany(m, ks - {k});
      RemoveOne(m - (ks - {k}), k);
      OneByOne(m, ks, k);
    }
  }

  lemma OneByOne<K, V>(m: map<K, V>, ks: set<K>, k: K)
    requires k in ks
    ensures m - (ks - {k}) - {k} == m - ks
  {
  }

  /** Entries that weigh nothing may go. */
  lemma {:induction false} DropWeightless<K, V>(m: map<K, V>, ks: set<K>, w: V -> int)
    requires ks <= m.Keys
    requires forall k :: k in ks ==> w(m[k]) == 0
    ensures MapSum(m - ks, w) == MapSum(m, w)
  {
    if ks == {} {
      assert m - ks == m;
    } else {
      var k :| k in ks;
      DropWeightless(m, ks - {k}, w);
      MapSumRemove(m - (ks - {k}), k, w);
      OneByOne(m, ks, k);
    }
  }
}
