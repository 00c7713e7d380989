/** Multi-node room fan-out: any number of nodes, each with its own rooms and
    subscriber loop, over a lossy, ordered, non-duplicating bus
    (src/redis_rooms.rs:264-409). One event is one atomic step of one node or
    of the bus; a room instance is kept apart from its id, because a removed
    room lives on in the hands of those that hold it. */
module Fleet {
  import opened Prelude
  import opened Codec
  import opened Envelope

  datatype Config = Config(prefix: string, id: NodeId)

  /** Where a delivered frame came from: a send on the instance by a call of
      this node, or a message of the bus. */
  datatype Source = Direct(call: nat) | Remote(msg: nat)

  datatype Entry = Entry(frame: Frame, source: Source)

  datatype Receiver = Receiver(inst: nat, live: bool, log: seq<Entry>)

  datatype Instance = Instance(node: nat, room: string)

  /** A broadcast call selects an instance, sends on it, then publishes.
      `LocalOnly` is a send on a room by one that holds it; `Posted` a publish
      without a send. A call whose publish fails stays `Sent`. */
  datatype Stage =
    | Called
    | Selected(inst: nat)
    | Sent(inst: nat)
    | Published(inst: nat, msg: nat)
    | LocalOnly(inst: nat)
    | Posted(msg: nat)

  datatype Call = Call(node: nat, room: string, frame: Frame, stage: Stage) {

    /** The instance this call has sent its frame on. */
    function SentOn(): Option<nat> {
      match stage
      case Sent(inst) => Some(inst)
      case Published(inst, _) => Some(inst)
      case LocalOnly(inst) => Some(inst)
      case _ => None
    }

    function Message(): Option<nat> {
      match stage
      case Published(_, msg) => Some(msg)
      case Posted(msg) => Some(msg)
      case _ => None
    }
  }

  /** `call` is history: the fleet call behind the message, or none when an
      outsider published it. */
  datatype BusMessage = BusMessage(channel: string, payload: seq<byte>, call: Option<nat>)

  /** The subscriber loop is ready for its next message, or has looked up the
      room for one and not yet sent to it. */
  datatype Sub = Ready | Holding(msg: nat, inst: nat, frame: Frame)

  /** `cursor`: the bus has handed over, or lost, the messages before it. */
  datatype Node = Node(rooms: map<string, nat>, cursor: nat, sub: Sub) {

    /** Nothing from here on has reached this node's receivers. */
    function Frontier(): nat {
      if sub.Holding? then sub.msg else cursor
    }
  }

  datatype State = State(
    nodes: seq<Node>,
    instances: seq<Instance>,
    receivers: seq<Receiver>,
    calls: seq<Call>,
    bus: seq<BusMessage>)

  datatype Event =
    | CreateRoom(n: nat, room: string)
    | RemoveRoom(n: nat, room: string)
    | Subscribe(inst: nat)
    | Unsubscribe(r: nat)
    | Broadcast(n: nat, room: string, frame: Frame)
    | Select(c: nat)
    | Send(c: nat)
    | Publish(c: nat)
    | SendLocally(inst: nat, frame: Frame)
    | PublishOnly(n: nat, room: string, frame: Frame)
    | Inject(channel: string, payload: seq<byte>)
    | Lose(n: nat)
    | Receive(n: nat)
    | Apply(n: nat)

  function Init(fleet: seq<Config>): State {
    State(seq(|fleet|, _ => Node(map[], 0, Ready)), [], [], [], [])
  }

  /** An atomic send: every live receiver of the instance gets the entry. */
  function Deliver(rs: seq<Receiver>, inst: nat, e: Entry): seq<Receiver> {
    seq(|rs|, k requires 0 <= k < |rs| =>
      if rs[k].live && rs[k].inst == inst then rs[k].(log := rs[k].log + [e]) else rs[k])
  }

  /** The room's instance on the node, and the state in which it is mapped. */
  function GetOrCreate(s: State, n: nat, room: string): (State, nat)
    requires n < |s.nodes|
  {
    if room in s.nodes[n].rooms then (s, s.nodes[n].rooms[room])
    else
      var inst := |s.instances|;
      (s.(instances := s.instances + [Instance(n, room)],
          nodes := s.nodes[n := s.nodes[n].(rooms := s.nodes[n].rooms[room := inst])]),
       inst)
  }

  function SetStage(s: State, c: nat, stage: Stage): State
    requires c < |s.calls|
  {
    s.(calls := s.calls[c := s.calls[c].(stage := stage)])
  }

  function PublishFor(fleet: seq<Config>, s: State, c: nat): BusMessage
    requires c < |s.calls| && s.calls[c].node < |fleet|
  {
    var call := s.calls[c];
    BusMessage(ChannelName(fleet[call.node].prefix, call.room),
               Encode(fleet[call.node].id, call.frame), Some(c))
  }

  /** The subscriber loop takes the message at its cursor: it drops it, or
      holds it for the room it names, if the node hosts that. */
  function Take(fleet: seq<Config>, s: State, n: nat): Node
    requires n < |s.nodes| == |fleet| && s.nodes[n].cursor < |s.bus|
  {
    var node := s.nodes[n];
    var m := s.bus[node.cursor];
    var next := node.(cursor := node.cursor + 1);
    match Accept(fleet[n].prefix, fleet[n].id, m.channel, m.payload)
    case None => next
    case Some((room, frame)) =>
      if room in node.rooms then next.(sub := Holding(node.cursor, node.rooms[room], frame)) else next
  }

  predicate Enabled(s: State, e: Event) {
    match e
    case CreateRoom(n, _) => n < |s.nodes|
    case RemoveRoom(n, _) => n < |s.nodes|
    case Subscribe(inst) => inst < |s.instances|
    case Unsubscribe(r) => r < |s.receivers|
    case Broadcast(n, _, _) => n < |s.nodes|
    case Select(c) => c < |s.calls| && s.calls[c].stage.Called? && s.calls[c].node < |s.nodes|
    case Send(c) => c < |s.calls| && s.calls[c].stage.Selected?
    case Publish(c) => c < |s.calls| && s.calls[c].stage.Sent? && s.calls[c].node < |s.nodes|
    case SendLocally(inst, _) => inst < |s.instances|
    case PublishOnly(n, _, _) => n < |s.nodes|
    case Inject(_, _) => true
    case Lose(n) => n < |s.nodes| && s.nodes[n].cursor < |s.bus|
    case Receive(n) => n < |s.nodes| && s.nodes[n].sub.Ready? && s.nodes[n].cursor < |s.bus|
    case Apply(n) => n < |s.nodes| && s.nodes[n].sub.Holding?
  }

  /** One event; one that is not enabled changes nothing. */
  function Next(fleet: seq<Config>, s: State, e: Event): (t: State)
    requires |s.nodes| == |fleet|
    ensures |t.nodes| == |fleet|
  {
    if !Enabled(s, e) then s
    else
      match e
      case CreateRoom(n, room) => GetOrCreate(s, n, room).0
      case RemoveRoom(n, room) => s.(nodes := s.nodes[n := s.nodes[n].(rooms := s.nodes[n].rooms - {room})])
      case Subscribe(inst) => s.(receivers := s.receivers + [Receiver(inst, true, [])])
      case Unsubscribe(r) => s.(receivers := s.receivers[r := s.receivers[r].(live := false)])
      case Broadcast(n, room, frame) => s.(calls := s.calls + [Call(n, room, frame, Called)])
      case Select(c) =>
        var (t, inst) := GetOrCreate(s, s.calls[c].node, s.calls[c].room);
        SetStage(t, c, Selected(inst))
      case Send(c) =>
        var inst := s.calls[c].stage.inst;
        SetStage(s, c, Sent(inst)).(receivers := Deliver(s.receivers, inst, Entry(s.calls[c].frame, Direct(c))))
      case Publish(c) =>
        SetStage(s, c, Published(s.calls[c].stage.inst, |s.bus|)).(bus := s.bus + [PublishFor(fleet, s, c)])
      case SendLocally(inst, frame) =>
        var i := s.instances[inst];
        s.(calls := s.calls + [Call(i.node, i.room, frame, LocalOnly(inst))],
           receivers := Deliver(s.receivers, inst, Entry(frame, Direct(|s.calls|))))
      case PublishOnly(n, room, frame) =>
        var t := s.(calls := s.calls + [Call(n, room, frame, Posted(|s.bus|))]);
        t.(bus := s.bus + [PublishFor(fleet, t, |s.calls|)])
      case Inject(channel, payload) => s.(bus := s.bus + [BusMessage(channel, payload, None)])
      case Lose(n) => s.(nodes := s.nodes[n := s.nodes[n].(cursor := s.nodes[n].cursor + 1)])
      case Receive(n) => s.(nodes := s.nodes[n := Take(fleet, s, n)])
      case Apply(n) =>
        var h := s.nodes[n].sub;
        s.(nodes := s.nodes[n := s.nodes[n].(sub := Ready)],
           receivers := Deliver(s.receivers, h.inst, Entry(h.frame, Remote(h.msg))))
  }

  function Run(fleet: seq<Config>, s: State, events: seq<Event>): (t: State)
    requires |s.nodes| == |fleet|
    ensures |t.nodes| == |fleet|
  {
    if events == [] then s
    else Next(fleet, Run(fleet, s, events[..|events| - 1]), events[|events| - 1])
  }

  // Invariants

  ghost predicate CallOk(s: State, c: nat)
    requires c < |s.calls|
  {
    var call := s.calls[c];
    && call.node < |s.nodes|
    && (call.stage.Selected? || call.SentOn().Some? ==>
          call.stage.inst < |s.instances| && s.instances[call.stage.inst] == Instance(call.node, call.room))
    && (call.Message().Some? ==> call.Message().value < |s.bus| && s.bus[call.Message().value].call == Some(c))
  }

  ghost predicate BusOk(fleet: seq<Config>, s: State, b: nat)
    requires b < |s.bus|
  {
    s.bus[b].call.Some? ==>
      var c := s.bus[b].call.value;
      && c < |s.calls| && s.calls[c].node < |fleet|
      && s.calls[c].Message() == Some(b)
      && s.bus[b] == PublishFor(fleet, s, c)
  }

  ghost predicate NodeOk(fleet: seq<Config>, s: State, n: nat)
    requires n < |s.nodes| == |fleet|
  {
    var node := s.nodes[n];
    && node.cursor <= |s.bus|
    && (forall room :: room in node.rooms ==>
          node.rooms[room] < |s.instances| && s.instances[node.rooms[room]] == Instance(n, room))
    && (node.sub.Holding? ==>
          && node.sub.msg < node.cursor && node.sub.inst < |s.instances|
          && s.instances[node.sub.inst].node == n
          && AcceptedAs(fleet, s, node.sub.inst, node.sub.msg, node.sub.frame))
  }

  /** The message is one the instance's node takes for the instance's room,
      carrying this frame. */
  ghost predicate AcceptedAs(fleet: seq<Config>, s: State, inst: nat, b: nat, frame: Frame) {
    && inst < |s.instances| && s.instances[inst].node < |fleet| && b < |s.bus|
    && var i := s.instances[inst];
       Accept(fleet[i.node].prefix, fleet[i.node].id, s.bus[b].channel, s.bus[b].payload) == Some((i.room, frame))
  }

  ghost predicate WellFormed(fleet: seq<Config>, s: State)
    requires |s.nodes| == |fleet|
  {
    && (forall c :: 0 <= c < |s.calls| ==> CallOk(s, c))
    && (forall b :: 0 <= b < |s.bus| ==> BusOk(fleet, s, b))
    && (forall n :: 0 <= n < |s.nodes| ==> NodeOk(fleet, s, n))
    && (forall i :: 0 <= i < |s.instances| ==> s.instances[i].node < |s.nodes|)
    && (forall r :: 0 <= r < |s.receivers| ==> s.receivers[r].inst < |s.instances|)
  }

  /** An entry of a log of this instance is a frame sent on it, or one taken
      from the bus for it. */
  ghost predicate EntryOk(fleet: seq<Config>, s: State, inst: nat, e: Entry)
    requires |s.nodes| == |fleet|
  {
    match e.source
    case Direct(c) =>
      c < |s.calls| && s.calls[c].SentOn() == Some(inst) && s.calls[c].frame == e.frame
    case Remote(b) =>
      AcceptedAs(fleet, s, inst, b, e.frame) && b < s.nodes[s.instances[inst].node].Frontier()
  }

  /** Later in the log means later on the bus, and no call sends twice. */
  ghost predicate Ordered(a: Entry, b: Entry) {
    match (a.source, b.source)
    case (Remote(x), Remote(y)) => x < y
    case (Direct(x), Direct(y)) => x != y
    case _ => true
  }

  ghost predicate LogOk(fleet: seq<Config>, s: State, inst: nat, log: seq<Entry>)
    requires |s.nodes| == |fleet|
  {
    && (forall k :: 0 <= k < |log| ==> EntryOk(fleet, s, inst, log[k]))
    && (forall j, k :: 0 <= j < k < |log| ==> Ordered(log[j], log[k]))
  }

  ghost predicate LogsOk(fleet: seq<Config>, s: State)
    requires |s.nodes| == |fleet|
  {
    forall r :: 0 <= r < |s.receivers| ==> LogOk(fleet, s, s.receivers[r].inst, s.receivers[r].log)
  }

  /** What never goes back: instances and messages stay, a call keeps what it
      is and where it sent, a node's frontier only advances. */
  ghost predicate Extends(s: State, t: State) {
    && |s.nodes| == |t.nodes|
    && s.instances <= t.instances && s.bus <= t.bus && |s.calls| <= |t.calls|
    && (forall c :: 0 <= c < |s.calls| ==>
          && s.calls[c].node == t.calls[c].node && s.calls[c].room == t.calls[c].room
          && s.calls[c].frame == t.calls[c].frame
          && (s.calls[c].SentOn().Some? ==> t.calls[c].SentOn() == s.calls[c].SentOn()))
    && (forall n :: 0 <= n < |s.nodes| ==> s.nodes[n].Frontier() <= t.nodes[n].Frontier())
  }

  lemma NextExtends(fleet: seq<Config>, s: State, e: Event)
    requires |s.nodes| == |fleet| && WellFormed(fleet, s)
    ensures Extends(s, Next(fleet, s, e))
  {
    var t := Next(fleet, s, e);
    forall n | 0 <= n < |s.nodes| ensures s.nodes[n].Frontier() <= t.nodes[n].Frontier() {
      assert NodeOk(fleet, s, n);
    }
  }

  lemma CallStaysOk(s: State, t: State, c: nat)
    requires c < |s.calls| && c < |t.calls| && t.calls[c] == s.calls[c] && CallOk(s, c)
    requires |s.nodes| == |t.nodes| && s.instances <= t.instances && s.bus <= t.bus
    ensures CallOk(t, c)
  {
  }

  /** A call selects its room, sends, or publishes. */
  lemma CallMovesOk(fleet: seq<Config>, s: State, e: Event)
    requires |s.nodes| == |fleet| && (e.Select? || e.Send? || e.Publish?) && Enabled(s, e)
    requires CallOk(s, e.c) && NodeOk(fleet, s, s.calls[e.c].node)
    ensures CallOk(Next(fleet, s, e), e.c)
  {
  }

  lemma NextCallsOk(fleet: seq<Config>, s: State, e: Event)
    requires |s.nodes| == |fleet| && WellFormed(fleet, s)
    ensures var t := Next(fleet, s, e); forall c :: 0 <= c < |t.calls| ==> CallOk(t, c)
  {
    var t := Next(fleet, s, e);
    forall c | 0 <= c < |t.calls| ensures CallOk(t, c) {
      if c < |s.calls| {
        assert CallOk(s, c);
        if t.calls[c] == s.calls[c] {
          CallStaysOk(s, t, c);
        } else {
          assert NodeOk(fleet, s, s.calls[c].node);
          CallMovesOk(fleet, s, e);
        }
      }
    }
  }

  lemma NextBusOk(fleet: seq<Config>, s: State, e: Event)
    requires |s.nodes| == |fleet| && WellFormed(fleet, s)
    ensures var t := Next(fleet, s, e); forall b :: 0 <= b < |t.bus| ==> BusOk(fleet, t, b)
  {
    var t := Next(fleet, s, e);
    forall b | 0 <= b < |t.bus| ensures BusOk(fleet, t, b) {
      if b < |s.bus| {
        assert BusOk(fleet, s, b) && t.bus[b] == s.bus[b];
      }
    }
  }

  /** A node that does not move only sees instances and messages added. */
  lemma NodeStaysOk(fleet: seq<Config>, s: State, t: State, n: nat)
    requires |s.nodes| == |t.nodes| == |fleet| && n < |fleet| && NodeOk(fleet, s, n)
    requires t.nodes[n] == s.nodes[n] && s.instances <= t.instances && s.bus <= t.bus
    ensures NodeOk(fleet, t, n)
  {
  }

  lemma RoomMadeOk(fleet: seq<Config>, s: State, n: nat, room: string)
    requires |s.nodes| == |fleet| && n < |fleet| && NodeOk(fleet, s, n)
    ensures NodeOk(fleet, GetOrCreate(s, n, room).0, n)
  {
  }

  lemma RoomDroppedOk(fleet: seq<Config>, s: State, n: nat, room: string)
    requires |s.nodes| == |fleet| && n < |fleet| && NodeOk(fleet, s, n)
    ensures NodeOk(fleet, Next(fleet, s, RemoveRoom(n, room)), n)
  {
  }

  /** The loop takes, loses or sends a message. */
  lemma LoopMovesOk(fleet: seq<Config>, s: State, e: Event)
    requires |s.nodes| == |fleet| && (e.Lose? || e.Receive? || e.Apply?) && e.n < |fleet|
    requires NodeOk(fleet, s, e.n)
    ensures NodeOk(fleet, Next(fleet, s, e), e.n)
  {
  }

  lemma NextNodesOk(fleet: seq<Config>, s: State, e: Event)
    requires |s.nodes| == |fleet| && WellFormed(fleet, s)
    ensures var t := Next(fleet, s, e); forall n :: 0 <= n < |t.nodes| ==> NodeOk(fleet, t, n)
  {
    var t := Next(fleet, s, e);
    forall n | 0 <= n < |t.nodes| ensures NodeOk(fleet, t, n) {
      assert NodeOk(fleet, s, n);
      if t.nodes[n] == s.nodes[n] {
        NodeStaysOk(fleet, s, t, n);
      } else {
        match e
        case CreateRoom(_, room) => RoomMadeOk(fleet, s, n, room);
        case Select(c) =>
          RoomMadeOk(fleet, s, n, s.calls[c].room);
          NodeStaysOk(fleet, GetOrCreate(s, n, s.calls[c].room).0, t, n);
        case RemoveRoom(_, room) => RoomDroppedOk(fleet, s, n, room);
        case _ => LoopMovesOk(fleet, s, e);
      }
    }
  }

  lemma NextWellFormed(fleet: seq<Config>, s: State, e: Event)
    requires |s.nodes| == |fleet| && WellFormed(fleet, s)
    ensures WellFormed(fleet, Next(fleet, s, e))
  {
    NextCallsOk(fleet, s, e);
    NextBusOk(fleet, s, e);
    NextNodesOk(fleet, s, e);
  }

  lemma LogStaysOk(fleet: seq<Config>, s: State, t: State, inst: nat, log: seq<Entry>)
    requires |s.nodes| == |fleet| && Extends(s, t) && LogOk(fleet, s, inst, log)
    ensures LogOk(fleet, t, inst, log)
  {
  }

  lemma DeliveredLogOk(fleet: seq<Config>, s: State, t: State, r: nat, e: Entry)
    requires |s.nodes| == |fleet| && Extends(s, t) && LogsOk(fleet, s)
    requires r < |s.receivers| && EntryOk(fleet, t, s.receivers[r].inst, e)
    requires forall k :: 0 <= k < |s.receivers[r].log| ==> Ordered(s.receivers[r].log[k], e)
    ensures LogOk(fleet, t, s.receivers[r].inst, s.receivers[r].log + [e])
  {
    LogStaysOk(fleet, s, t, s.receivers[r].inst, s.receivers[r].log);
  }

  /** The entry an event delivers, with the instance it delivers it on. */
  function Delivery(s: State, e: Event): Option<(nat, Entry)> {
    if !Enabled(s, e) then None
    else
      match e
      case Send(c) => Some((s.calls[c].stage.inst, Entry(s.calls[c].frame, Direct(c))))
      case SendLocally(inst, frame) => Some((inst, Entry(frame, Direct(|s.calls|))))
      case Apply(n) => Some((s.nodes[n].sub.inst, Entry(s.nodes[n].sub.frame, Remote(s.nodes[n].sub.msg))))
      case _ => None
  }

  /** Logs change only by a delivery, which reaches exactly the live receivers
      of its instance. */
  lemma NextLog(fleet: seq<Config>, s: State, e: Event, r: nat)
    requires |s.nodes| == |fleet|
    requires r < |Next(fleet, s, e).receivers|
    ensures |s.receivers| <= |Next(fleet, s, e).receivers|
    ensures var u := Next(fleet, s, e).receivers[r];
            if r >= |s.receivers| then u.log == []
            else
              && u.inst == s.receivers[r].inst
              && u.log == match Delivery(s, e)
                          case Some((inst, entry)) =>
                            if s.receivers[r].live && s.receivers[r].inst == inst then s.receivers[r].log + [entry]
                            else s.receivers[r].log
                          case None => s.receivers[r].log
  {
  }

  lemma NextLogsOk(fleet: seq<Config>, s: State, e: Event)
    requires |s.nodes| == |fleet| && WellFormed(fleet, s) && LogsOk(fleet, s)
    ensures LogsOk(fleet, Next(fleet, s, e))
  {
    var t := Next(fleet, s, e);
    NextExtends(fleet, s, e);
    forall r | 0 <= r < |t.receivers| ensures LogOk(fleet, t, t.receivers[r].inst, t.receivers[r].log) {
      NextLog(fleet, s, e, r);
      if r < |s.receivers| {
        LogStaysOk(fleet, s, t, s.receivers[r].inst, s.receivers[r].log);
        if t.receivers[r].log != s.receivers[r].log {
          var entry := Delivery(s, e).value.1;
          assert e.Send? ==> CallOk(s, e.c);
          assert e.Apply? ==> NodeOk(fleet, s, e.n);
          DeliveredLogOk(fleet, s, t, r, entry);
        }
      }
    }
  }

  lemma {:induction false} Reachable(fleet: seq<Config>, events: seq<Event>)
    ensures var s := Run(fleet, Init(fleet), events); WellFormed(fleet, s) && LogsOk(fleet, s)
  {
    if events != [] {
      Reachable(fleet, events[..|events| - 1]);
      var s := Run(fleet, Init(fleet), events[..|events| - 1]);
      NextWellFormed(fleet, s, events[|events| - 1]);
      NextLogsOk(fleet, s, events[|events| - 1]);
    }
  }

  lemma ExtendsOn(s: State, t: State, u: State)
    requires Extends(s, t) && Extends(t, u)
    ensures Extends(s, u)
  {
  }

  /** Receivers stay on their instance, and logs only grow. */
  ghost predicate Grown(rs: seq<Receiver>, ts: seq<Receiver>) {
    && |rs| <= |ts|
    && forall r :: 0 <= r < |rs| ==> ts[r].inst == rs[r].inst && rs[r].log <= ts[r].log
  }

  lemma NextGrown(fleet: seq<Config>, s: State, e: Event)
    requires |s.nodes| == |fleet|
    ensures Grown(s.receivers, Next(fleet, s, e).receivers)
  {
    forall r | 0 <= r < |s.receivers|
      ensures r < |Next(fleet, s, e).receivers| && Next(fleet, s, e).receivers[r].inst == s.receivers[r].inst
      ensures s.receivers[r].log <= Next(fleet, s, e).receivers[r].log
    {
      NextLog(fleet, s, e, r);
    }
  }

  lemma {:induction false} RunKeeps(fleet: seq<Config>, s: State, events: seq<Event>)
    requires |s.nodes| == |fleet| && WellFormed(fleet, s) && LogsOk(fleet, s)
    ensures var t := Run(fleet, s, events); WellFormed(fleet, t) && LogsOk(fleet, t) && Extends(s, t)
    ensures Grown(s.receivers, Run(fleet, s, events).receivers)
  {
    if events != [] {
      var past, e := events[..|events| - 1], events[|events| - 1];
      RunKeeps(fleet, s, past);
      var t := Run(fleet, s, past);
      NextWellFormed(fleet, t, e);
      NextLogsOk(fleet, t, e);
      NextExtends(fleet, t, e);
      ExtendsOn(s, t, Next(fleet, t, e));
      NextGrown(fleet, t, e);
    }
  }
}
