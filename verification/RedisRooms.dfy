/** One node's registry: its local rooms, its publishes and its subscriber
    loop (src/redis_rooms.rs:170-409). Module Fleet puts many of them together. */
module RedisRooms {
  import opened Prelude
  import opened Codec
  import opened Rooms
  import opened Stats
  import Envelope

  datatype Message = Message(channel: string, payload: seq<byte>)

  /** The frames a node accepts for one of its rooms from a stream of messages. */
  function Accepted(prefix: string, nodeId: Envelope.NodeId, roomId: string, stream: seq<Message>): seq<Frame> {
    if stream == [] then []
    else
      var m := stream[|stream| - 1];
      Accepted(prefix, nodeId, roomId, stream[..|stream| - 1])
      + (match Envelope.Accept(prefix, nodeId, m.channel, m.payload)
         case Some((id, frame)) => if id == roomId then [frame] else []
         case None => [])
  }

  function Extended(queues: map<nat, seq<Frame>>, frames: seq<Frame>): map<nat, seq<Frame>> {
    if queues == map[] then map[] else map r | r in queues :: queues[r] + frames
  }

  lemma ExtendedSteps(queues: map<nat, seq<Frame>>, frames: seq<Frame>, frame: Frame)
    ensures Extended(queues, []) == queues
    ensures Delivered(Extended(queues, frames), frame) == Extended(queues, frames + [frame])
  {
    assert forall r :: r in queues ==> queues[r] + [] == queues[r];
    assert forall r :: r in queues ==> queues[r] + frames + [frame] == queues[r] + (frames + [frame]);
  }

  /** Receivers by room and number, with what each has been sent. */
  type Queues = map<string, map<nat, seq<Frame>>>

  /** The receivers of every hosted room. */
  ghost function QueuesIn(rooms: map<string, Room>): Queues
    reads rooms.Values
  {
    map id | id in rooms :: rooms[id].queues
  }

  function QueuesOf(queues: Queues, roomId: string): map<nat, seq<Frame>> {
    if roomId in queues then queues[roomId] else map[]
  }

  /** The traffic book, how far the room gauge is ahead of the room map, and
      the connection gauge. */
  datatype Recorder = Recorder(book: Ledger, lead: int, connections: nat)

  /** What a node's receivers have been sent and what it has counted. */
  datatype View = View(queues: Queues, recorder: Option<Recorder>)

  function Note(recorder: Option<Recorder>, work: seq<Bump>): Option<Recorder> {
    match recorder
    case None => None
    case Some(r) => Some(r.(book := ApplyAll(r.book, work)))
  }

  /** A send on a room, made for the purpose if need be: every receiver of
      that room is sent the frame, and the copies are counted, or a drop. */
  function Sent(v: View, roomId: string, frame: Frame): View {
    var queues := QueuesOf(v.queues, roomId);
    View(v.queues[roomId := Delivered(queues, frame)], Note(v.recorder, FrameRecord(roomId, |queues|, frame)))
  }

  /** Traffic does not touch the gauge. */
  predicate SameLead(a: Option<Recorder>, b: Option<Recorder>) {
    match (a, b)
    case (Some(r), Some(t)) => r.lead == t.lead
    case _ => a.None? && b.None?
  }

  /** The room mapped, without receivers if it was not before. */
  function Hosted(v: View, roomId: string): View {
    v.(queues := v.queues[roomId := QueuesOf(v.queues, roomId)])
  }

  lemma HostedThenSent(v: View, roomId: string, frame: Frame)
    ensures QueuesOf(Hosted(v, roomId).queues, roomId) == QueuesOf(v.queues, roomId)
    ensures Sent(Hosted(v, roomId), roomId, frame) == Sent(v, roomId, frame)
  {
    var queues := QueuesOf(v.queues, roomId);
    var after := Delivered(queues, frame);
    assert v.queues[roomId := queues][roomId := after] == v.queues[roomId := after];
  }

  function FrameRecord(roomId: string, receivers: nat, frame: Frame): seq<Bump> {
    SendRecord(roomId, receivers, frame.Len() * receivers)
  }

  /** A message from the bus: a send on the room it names, if it is another
      node's and the room is hosted here. */
  function Applied(v: View, nodeId: Envelope.NodeId, roomId: string, envelope: seq<byte>): View {
    match Envelope.Decode(envelope)
    case Ok((publisher, frame)) => if publisher != nodeId && roomId in v.queues then Sent(v, roomId, frame) else v
    case Err(_) => v
  }

  function Handled(v: View, prefix: string, nodeId: Envelope.NodeId, m: Message): View {
    match Envelope.RoomIdFromChannel(prefix, m.channel)
    case Some(roomId) => Applied(v, nodeId, roomId, m.payload)
    case None => v
  }

  /** Every receiver of every room is sent what the node accepts for that room. */
  function StreamedQueues(queues: Queues, prefix: string, nodeId: Envelope.NodeId, stream: seq<Message>)
    : (after: Queues)
    ensures after.Keys == queues.Keys
  {
    map id | id in queues :: Extended(queues[id], Accepted(prefix, nodeId, id, stream))
  }

  /** What one message has a node record. */
  function MessageRecord(queues: Queues, prefix: string, nodeId: Envelope.NodeId, m: Message): seq<Bump> {
    match Envelope.Accept(prefix, nodeId, m.channel, m.payload)
    case Some((roomId, frame)) => if roomId in queues then FrameRecord(roomId, |queues[roomId]|, frame) else []
    case None => []
  }

  function StreamRecord(queues: Queues, prefix: string, nodeId: Envelope.NodeId, stream: seq<Message>): seq<Bump> {
    if stream == [] then []
    else
      StreamRecord(queues, prefix, nodeId, stream[..|stream| - 1])
      + MessageRecord(queues, prefix, nodeId, stream[|stream| - 1])
  }

  /** A whole stream: every receiver is sent exactly what is accepted for its
      room, and every send to a hosted room is counted. */
  function Streamed(v: View, prefix: string, nodeId: Envelope.NodeId, stream: seq<Message>): View {
    View(StreamedQueues(v.queues, prefix, nodeId, stream),
         Note(v.recorder, StreamRecord(v.queues, prefix, nodeId, stream)))
  }

  lemma NothingStreamed(v: View, prefix: string, nodeId: Envelope.NodeId)
    ensures Streamed(v, prefix, nodeId, []) == v
  {
    forall id | id in v.queues ensures Extended(v.queues[id], []) == v.queues[id] {
      ExtendedSteps(v.queues[id], [], Text(""));
    }
    assert StreamedQueues(v.queues, prefix, nodeId, []) == v.queues;
  }

  /** What one message does to the receivers of one room. */
  function Taken(
    queues: map<nat, seq<Frame>>, prefix: string, nodeId: Envelope.NodeId, id: string, m: Message
  ): map<nat, seq<Frame>>
  {
    var accepted := Envelope.Accept(prefix, nodeId, m.channel, m.payload);
    if accepted.Some? && accepted.value.0 == id then Delivered(queues, accepted.value.1) else queues
  }

  lemma RoomSteps(
    queues: map<nat, seq<Frame>>, prefix: string, nodeId: Envelope.NodeId, id: string, past: seq<Message>, m: Message
  )
    ensures Extended(queues, Accepted(prefix, nodeId, id, past + [m]))
            == Taken(Extended(queues, Accepted(prefix, nodeId, id, past)), prefix, nodeId, id, m)
  {
    assert (past + [m])[..|past|] == past;
    var frames := Accepted(prefix, nodeId, id, past);
    assert frames + [] == frames;
    var accepted := Envelope.Accept(prefix, nodeId, m.channel, m.payload);
    if accepted.Some? { ExtendedSteps(queues, frames, accepted.value.1); }
  }

  lemma QueuesStep(queues: Queues, prefix: string, nodeId: Envelope.NodeId, past: seq<Message>, m: Message)
    ensures var before := StreamedQueues(queues, prefix, nodeId, past);
            var accepted := Envelope.Accept(prefix, nodeId, m.channel, m.payload);
            StreamedQueues(queues, prefix, nodeId, past + [m])
            == if accepted.Some? && accepted.value.0 in queues
               then before[accepted.value.0 := Delivered(before[accepted.value.0], accepted.value.1)]
               else before
  {
    var before := StreamedQueues(queues, prefix, nodeId, past);
    var after := StreamedQueues(queues, prefix, nodeId, past + [m]);
    forall id | id in queues ensures after[id] == Taken(before[id], prefix, nodeId, id, m) {
      RoomSteps(queues[id], prefix, nodeId, id, past, m);
    }
  }

  /** Streaming changes no room's number of receivers. */
  lemma ExtendedSize(queues: map<nat, seq<Frame>>, frames: seq<Frame>)
    ensures |Extended(queues, frames)| == |queues|
  {
    assert Extended(queues, frames).Keys == queues.Keys;
    assert |Extended(queues, frames)| == |Extended(queues, frames).Keys| && |queues| == |queues.Keys|;
  }

  lemma NoteStep(recorder: Option<Recorder>, a: seq<Bump>, b: seq<Bump>)
    ensures Note(recorder, a + b) == Note(Note(recorder, a), b)
  {
    if recorder.Some? { ApplyAllAppend(recorder.value.book, a, b); }
  }

  /** One message more. */
  lemma StreamedStep(v: View, prefix: string, nodeId: Envelope.NodeId, past: seq<Message>, m: Message)
    ensures Streamed(v, prefix, nodeId, past + [m]) == Handled(Streamed(v, prefix, nodeId, past), prefix, nodeId, m)
  {
    var accepted := Envelope.Accept(prefix, nodeId, m.channel, m.payload);
    QueuesStep(v.queues, prefix, nodeId, past, m);
    assert (past + [m])[..|past|] == past;
    NoteStep(v.recorder, StreamRecord(v.queues, prefix, nodeId, past), MessageRecord(v.queues, prefix, nodeId, m));
    if accepted.Some? && accepted.value.0 in v.queues {
      ExtendedSize(v.queues[accepted.value.0], Accepted(prefix, nodeId, accepted.value.0, past));
    }
  }

  /** The room is mapped now, and nothing else has changed in the map. */
  ghost predicate Hosts(was: map<string, Room>, now: map<string, Room>, roomId: string) {
    roomId in now && now == was[roomId := now[roomId]] && (roomId in was ==> now == was)
  }

  class RedisRoomRegistry {
    const local: RoomManager
    const prefix: string
    const nodeId: Envelope.NodeId
    /** What the connection has accepted for publishing. */
    var published: seq<Message>

    constructor (local: RoomManager, prefix: string, nodeId: Envelope.NodeId)
      ensures this.local == local && this.prefix == prefix && this.nodeId == nodeId && published == []
    {
      this.local, this.prefix, this.nodeId := local, prefix, nodeId;
      published := [];
    }

    ghost function Counted(): Option<Recorder>
      reads local, local.stats
    {
      if local.stats == null then None
      else Some(Recorder(local.stats.Book(), local.stats.openRooms - |local.rooms|, local.stats.connections))
    }

    ghost function Seen(): View
      reads local, local.stats, local.rooms.Values
    {
      View(QueuesIn(local.rooms), Counted())
    }

    /** What changes when one room has sent and the others are as they were. */
    twostate lemma OneRoomSent(roomId: string)
      requires old(local.Valid()) && local.rooms == old(local.rooms)
      requires roomId in local.rooms && local.rooms[roomId].Valid()
      requires forall id :: id in local.rooms && local.rooms[id] != local.rooms[roomId] ==> unchanged(local.rooms[id])
      ensures local.Valid()
      ensures QueuesIn(local.rooms) == old(QueuesIn(local.rooms))[roomId := local.rooms[roomId].queues]
    {
      forall id | id in local.rooms && id != roomId ensures local.rooms[id] != local.rooms[roomId] {
        assert local.rooms[id].id == id && local.rooms[roomId].id == roomId;
      }
    }

    /** What changes when one room is mapped, or was already. */
    twostate lemma RoomHosted(roomId: string)
      requires Hosts(old(local.rooms), local.rooms, roomId)
      requires roomId !in old(local.rooms) ==> local.rooms[roomId].queues == map[]
      requires forall id :: id in old(local.rooms) ==> unchanged(old(local.rooms)[id])
      ensures QueuesIn(local.rooms)
              == old(QueuesIn(local.rooms))[roomId := QueuesOf(old(QueuesIn(local.rooms)), roomId)]
    {
    }

    twostate lemma GaugeFollows()
      requires SameLead(old(Counted()), Counted())
      ensures old(local.GaugeExact()) ==> local.GaugeExact()
    {
    }

    /** `failure` is the connection's error, if it reports one. */
    method Publish(frame: Frame, roomId: string, failure: Option<string>) returns (r: Result<(), WsError>)
      modifies this`published
      ensures Seen() == old(Seen())
      ensures r == match failure case None => Ok(()) case Some(e) => Err(Redis(e))
      ensures published == old(published)
                           + if failure.None?
                             then [Message(Envelope.ChannelName(prefix, roomId), Envelope.Encode(nodeId, frame))]
                             else []
    {
      var envelope := Envelope.EncodeEnvelope(nodeId, frame);
      match failure
      case Some(e) => return Err(Redis(e));
      case None =>
        published := published + [Message(Envelope.ChannelName(prefix, roomId), envelope)];
        return Ok(());
    }

    /** Local receivers first, then one publish; a failed publish is reported
        after the local delivery, which stands. */
    method Broadcast(roomId: string, frame: Frame, failure: Option<string>) returns (r: Result<nat, WsError>)
      requires local.Valid()
      modifies this`published, local`rooms, local.stats, local.rooms.Values
      ensures local.Valid() && Hosts(old(local.rooms), local.rooms, roomId)
      ensures Seen() == Sent(old(Seen()), roomId, frame)
      ensures old(local.GaugeExact()) ==> local.GaugeExact()
      ensures published == old(published)
                           + if failure.None?
                             then [Message(Envelope.ChannelName(prefix, roomId), Envelope.Encode(nodeId, frame))]
                             else []
      ensures r == match failure
                   case None => Ok(|QueuesOf(old(Seen()).queues, roomId)|)
                   case Some(e) => Err(Redis(e))
    {
      var n := SendLocal(roomId, frame);
      var p := Publish(frame, roomId, failure);
      r := match p case Ok(_) => Ok(n) case Err(e) => Err(e);
    }

    /** The local half: makes the room if need be, and is content with none
        to reach. */
    method SendLocal(roomId: string, frame: Frame) returns (n: nat)
      requires local.Valid()
      modifies local`rooms, local.stats, local.rooms.Values
      ensures local.Valid() && Hosts(old(local.rooms), local.rooms, roomId)
      ensures n == |QueuesOf(old(Seen()).queues, roomId)|
      ensures old(local.GaugeExact()) ==> local.GaugeExact()
      ensures Seen() == Sent(old(Seen()), roomId, frame)
    {
      HostedThenSent(Seen(), roomId, frame);
      var room := Host(roomId);
      n := SendTo(roomId, room, frame);
      GaugeFollows();
    }

    /** A room made here starts without receivers. */
    method Host(roomId: string) returns (room: Room)
      requires local.Valid()
      modifies local`rooms, local.stats
      ensures local.Valid() && Hosts(old(local.rooms), local.rooms, roomId)
      ensures room == local.rooms[roomId]
      ensures roomId !in old(local.rooms) ==> fresh(room)
      ensures Seen() == Hosted(old(Seen()), roomId)
    {
      room := local.GetOrCreate(roomId);
      RoomHosted(roomId);
    }

    method SendTo(roomId: string, room: Room, frame: Frame) returns (n: nat)
      requires local.Valid() && roomId in local.rooms && local.rooms[roomId] == room
      modifies room`queues, local.stats
      ensures local.Valid() && n == |QueuesOf(old(Seen()).queues, roomId)|
      ensures Seen() == Sent(old(Seen()), roomId, frame)
    {
      n := Reach(roomId, room, frame);
      OneRoomSent(roomId);
    }

    /** A room with no receivers is no error here: it reaches none. */
    method Reach(roomId: string, room: Room, frame: Frame) returns (n: nat)
      requires room.Valid() && room.id == roomId && room.stats == local.stats
      modifies room`queues, local.stats
      ensures room.Valid() && n == |old(room.queues)| && room.queues == Delivered(old(room.queues), frame)
      ensures Counted() == Note(old(Counted()), FrameRecord(roomId, n, frame))
    {
      var sent := room.Broadcast(frame);
      if sent.Ok? { n := sent.value; } else { n := 0; }
    }

    /** Delivers a decoded frame of another node to the room, if this node
        hosts it; otherwise nothing changes, and no room is ever made. */
    method ApplyRemote(roomId: string, envelope: seq<byte>) returns (r: Result<Option<nat>, WsError>)
      requires local.Valid()
      modifies local.stats, local.rooms.Values
      ensures local.Valid() && local.rooms == old(local.rooms)
      ensures Seen() == Applied(old(Seen()), nodeId, roomId, envelope)
      ensures old(local.GaugeExact()) ==> local.GaugeExact()
      ensures r == match Envelope.Decode(envelope)
                   case Err(e) => Err(e)
                   case Ok((publisher, _)) =>
                     var reached := |QueuesOf(old(Seen()).queues, roomId)|;
                     Ok(if publisher == nodeId || reached == 0 then None else Some(reached))
    {
      match Envelope.Decode(envelope)
      case Err(e) => return Err(e);
      case Ok((publisher, frame)) =>
        if publisher == nodeId { return Ok(None); }
        var found := local.Get(roomId);
        match found
        case None => return Ok(None);
        case Some(room) =>
          var n := SendTo(roomId, room, frame);
          GaugeFollows();
          return Ok(if n == 0 then None else Some(n));
    }

    /** Over the whole stream every receiver of every hosted room is sent, in
        order, exactly what the node accepts for that room. */
    method RunSubscriber(stream: seq<Message>) returns (r: Result<(), WsError>)
      requires local.Valid()
      modifies local.stats, local.rooms.Values
      ensures r == Err(Closed)
      ensures local.Valid() && local.rooms == old(local.rooms)
      ensures Seen() == Streamed(old(Seen()), prefix, nodeId, stream)
      ensures old(local.GaugeExact()) ==> local.GaugeExact()
    {
      ghost var was := Seen();
      assert stream[..0] == [];
      NothingStreamed(was, prefix, nodeId);
      for k := 0 to |stream|
        invariant local.Valid() && local.rooms == old(local.rooms)
        invariant Seen() == Streamed(was, prefix, nodeId, stream[..k])
      {
        assert stream[..k + 1] == stream[..k] + [stream[k]];
        StreamedStep(was, prefix, nodeId, stream[..k], stream[k]);
        match Envelope.RoomIdFromChannel(prefix, stream[k].channel)
        case None =>
        case Some(roomId) => var _ := ApplyRemote(roomId, stream[k].payload);
      }
      assert stream[..|stream|] == stream;
      r := Err(Closed);
    }
  }
}
