/** What each step of the fleet brings about, and that a fleet left to work
    gets every frame to where it belongs (src/redis_rooms.rs:288-408). */
module FleetProgress {
  import opened Prelude
  import opened Codec
  import opened Envelope
  import opened Fleet
  import opened FleetTheorems
  import opened FleetStreams

  // Rooms

  /** In `t` the node hosts the room as `inst`: as in `s`, if it did there,
      with nothing made, and otherwise as the one instance made for it. */
  predicate Mapped(s: State, t: State, n: nat, room: string, inst: nat) {
    && n < |s.nodes|
    && if room in s.nodes[n].rooms
       then inst == s.nodes[n].rooms[room] && t.nodes == s.nodes && t.instances == s.instances
       else && inst == |s.instances| && t.instances == s.instances + [Instance(n, room)]
            && t.nodes == s.nodes[n := s.nodes[n].(rooms := s.nodes[n].rooms[room := inst])]
  }

  /** The instance a lookup of the room would find or make. */
  function Target(s: State, n: nat, room: string): nat
    requires n < |s.nodes|
  {
    if room in s.nodes[n].rooms then s.nodes[n].rooms[room] else |s.instances|
  }

  /** A call is made out for its node, room and frame, and selects the instance
      the room is mapped to, or a new one when it is not. */
  lemma CallSelectsTheMappedRoom(fleet: seq<Config>, s: State, c: nat)
    requires |s.nodes| == |fleet| && WellFormed(fleet, s) && c < |s.calls| && s.calls[c].stage.Called?
    ensures var t, call := Next(fleet, s, Select(c)), s.calls[c];
            && call.node < |s.nodes|
            && var inst := Target(s, call.node, call.room);
               && Mapped(s, t, call.node, call.room, inst)
               && t.calls == s.calls[c := Call(call.node, call.room, call.frame, Selected(inst))]
               && t.receivers == s.receivers && t.bus == s.bus
  {
    assert CallOk(s, c);
  }

  lemma CallIsMade(fleet: seq<Config>, s: State, n: nat, room: string, frame: Frame)
    requires |s.nodes| == |fleet| && n < |fleet|
    ensures Next(fleet, s, Broadcast(n, room, frame)) == s.(calls := s.calls + [Call(n, room, frame, Called)])
  {
  }

  lemma CreateRoomMaps(fleet: seq<Config>, s: State, n: nat, room: string)
    requires |s.nodes| == |fleet| && n < |fleet|
    ensures var t := Next(fleet, s, CreateRoom(n, room));
            && Mapped(s, t, n, room, Target(s, n, room))
            && t.calls == s.calls && t.receivers == s.receivers && t.bus == s.bus
  {
  }

  /** Removing a room unmaps it and no other; after making it that leaves the
      maps as they were. */
  lemma RemoveRoomUnmaps(fleet: seq<Config>, s: State, n: nat, room: string)
    requires |s.nodes| == |fleet| && n < |fleet|
    ensures var t := Next(fleet, s, RemoveRoom(n, room));
            && room !in t.nodes[n].rooms
            && (forall m, id :: 0 <= m < |fleet| && (m != n || id != room) ==>
                  (id in t.nodes[m].rooms <==> id in s.nodes[m].rooms)
                  && (id in s.nodes[m].rooms ==> t.nodes[m].rooms[id] == s.nodes[m].rooms[id]))
            && t == s.(nodes := t.nodes)
    ensures room !in s.nodes[n].rooms ==>
              Next(fleet, Next(fleet, s, CreateRoom(n, room)), RemoveRoom(n, room)).nodes == s.nodes
  {
    if room !in s.nodes[n].rooms {
      var rooms := s.nodes[n].rooms;
      assert rooms[room := |s.instances|] - {room} == rooms;
    }
  }

  /** Nothing maps the instance, and no subscriber loop holds a message for it. */
  ghost predicate Forsaken(s: State, inst: nat) {
    && inst < |s.instances|
    && (forall n, id :: 0 <= n < |s.nodes| && id in s.nodes[n].rooms ==> s.nodes[n].rooms[id] != inst)
    && (forall n :: 0 <= n < |s.nodes| && s.nodes[n].sub.Holding? ==> s.nodes[n].sub.inst != inst)
  }

  lemma NextForsaken(fleet: seq<Config>, s: State, e: Event, inst: nat)
    requires |s.nodes| == |fleet| && Forsaken(s, inst)
    ensures Forsaken(Next(fleet, s, e), inst)
  {
  }

  lemma NextHearsNoBus(fleet: seq<Config>, s: State, e: Event, inst: nat, r: nat)
    requires |s.nodes| == |fleet| && Forsaken(s, inst) && r < |s.receivers| && s.receivers[r].inst == inst
    ensures var t := Next(fleet, s, e);
            && r < |t.receivers| && t.receivers[r].inst == inst
            && RemoteEntries(t.receivers[r].log) == RemoteEntries(s.receivers[r].log)
  {
    NextGrown(fleet, s, e);
    NextLog(fleet, s, e, r);
    var d := Delivery(s, e);
    if d.Some? {
      LogGrows(s.receivers[r].log, d.value.1);
      assert d.value.0 == inst ==> d.value.1.source.Direct?;
    }
  }

  lemma {:induction false} ForsakenHearsNoBus(fleet: seq<Config>, s: State, events: seq<Event>, inst: nat, r: nat)
    requires |s.nodes| == |fleet| && Forsaken(s, inst) && r < |s.receivers| && s.receivers[r].inst == inst
    ensures var t := Run(fleet, s, events);
            && Forsaken(t, inst) && r < |t.receivers| && t.receivers[r].inst == inst
            && RemoteEntries(t.receivers[r].log) == RemoteEntries(s.receivers[r].log)
  {
    if events != [] {
      var past, e := events[..|events| - 1], events[|events| - 1];
      ForsakenHearsNoBus(fleet, s, past, inst, r);
      NextForsaken(fleet, Run(fleet, s, past), e, inst);
      NextHearsNoBus(fleet, Run(fleet, s, past), e, inst, r);
    }
  }

  /** The listeners of a removed room hear nothing more from the bus, also when
      a room of that id is made again: unless the loop had already looked the
      room up, their logs take no remote frame ever after. */
  lemma RemovedRoomHearsNoBus(fleet: seq<Config>, s: State, n: nat, room: string, later: seq<Event>, r: nat)
    requires |s.nodes| == |fleet| && WellFormed(fleet, s) && n < |fleet| && room in s.nodes[n].rooms
    requires r < |s.receivers| && s.receivers[r].inst == s.nodes[n].rooms[room]
    requires s.nodes[n].sub.Holding? ==> s.nodes[n].sub.inst != s.nodes[n].rooms[room]
    ensures var t := Run(fleet, Next(fleet, s, RemoveRoom(n, room)), later);
            r < |t.receivers| && RemoteEntries(t.receivers[r].log) == RemoteEntries(s.receivers[r].log)
  {
    var inst := s.nodes[n].rooms[room];
    var u := Next(fleet, s, RemoveRoom(n, room));
    assert NodeOk(fleet, s, n);
    forall m | 0 <= m < |s.nodes|
      ensures forall id :: id in u.nodes[m].rooms ==> u.nodes[m].rooms[id] != inst
      ensures u.nodes[m].sub.Holding? ==> u.nodes[m].sub.inst != inst
    {
      assert NodeOk(fleet, s, m);
    }
    ForsakenHearsNoBus(fleet, u, later, inst, r);
  }

  // Receivers

  /** A new receiver listens from here on and has heard nothing; leaving ends
      that for one receiver, and takes back nothing it heard. */
  lemma ReceiversComeAndGo(fleet: seq<Config>, s: State, inst: nat, r: nat)
    requires |s.nodes| == |fleet| && inst < |s.instances| && r < |s.receivers|
    ensures Next(fleet, s, Subscribe(inst)) == s.(receivers := s.receivers + [Receiver(inst, true, [])])
    ensures var t := Next(fleet, s, Unsubscribe(r));
            && !t.receivers[r].live && t.receivers[r].inst == s.receivers[r].inst
            && t.receivers[r].log == s.receivers[r].log
            && t == s.(receivers := t.receivers) && |t.receivers| == |s.receivers|
            && forall q :: 0 <= q < |s.receivers| && q != r ==> t.receivers[q] == s.receivers[q]
  {
  }

  lemma NextStaysGone(fleet: seq<Config>, s: State, e: Event, r: nat)
    requires |s.nodes| == |fleet| && r < |s.receivers| && !s.receivers[r].live
    ensures var t := Next(fleet, s, e); r < |t.receivers| && t.receivers[r] == s.receivers[r]
  {
  }

  /** A receiver that has left hears nothing any more. */
  lemma {:induction false} GoneHearsNothing(fleet: seq<Config>, s: State, events: seq<Event>, r: nat)
    requires |s.nodes| == |fleet| && r < |s.receivers| && !s.receivers[r].live
    ensures var t := Run(fleet, s, events); r < |t.receivers| && t.receivers[r] == s.receivers[r]
  {
    if events != [] {
      GoneHearsNothing(fleet, s, events[..|events| - 1], r);
      NextStaysGone(fleet, Run(fleet, s, events[..|events| - 1]), events[|events| - 1], r);
    }
  }

  // Local delivery

  lemma {:induction false} RunOn(fleet: seq<Config>, s: State, a: seq<Event>, b: seq<Event>)
    requires |s.nodes| == |fleet|
    ensures Run(fleet, s, a + b) == Run(fleet, Run(fleet, s, a), b)
  {
    if b == [] {
      assert a + b == a;
    } else {
      RunOn(fleet, s, a, b[..|b| - 1]);
      assert (a + b)[..|a + b| - 1] == a + b[..|b| - 1];
    }
  }

  lemma NextSelection(fleet: seq<Config>, s: State, e: Event, c: nat, inst: nat)
    requires |s.nodes| == |fleet| && c < |s.calls|
    requires s.calls[c].stage == Selected(inst) || s.calls[c].SentOn() == Some(inst)
    ensures var t := Next(fleet, s, e);
            c < |t.calls| && (t.calls[c].stage == Selected(inst) || t.calls[c].SentOn() == Some(inst))
  {
  }

  /** A call sends on what it selected. */
  lemma {:induction false} SelectionStays(fleet: seq<Config>, s: State, events: seq<Event>, c: nat, inst: nat)
    requires |s.nodes| == |fleet| && c < |s.calls| && s.calls[c].stage == Selected(inst)
    ensures var t := Run(fleet, s, events);
            c < |t.calls| && (t.calls[c].stage == Selected(inst) || t.calls[c].SentOn() == Some(inst))
  {
    if events != [] {
      SelectionStays(fleet, s, events[..|events| - 1], c, inst);
      NextSelection(fleet, Run(fleet, s, events[..|events| - 1]), events[|events| - 1], c, inst);
    }
  }

  /** Exact local delivery, from the room on: take any run in which call `c`
      looks its room up after `before` and sends after `between`. Of the
      receivers of its node exactly those get the frame, and each once, that
      were live at the send on the instance the room was mapped to at the
      lookup, or made for it there. */
  lemma MappedReceiversGetItOnce(
    fleet: seq<Config>, before: seq<Event>, c: nat, between: seq<Event>, later: seq<Event>, r: nat
  )
    requires var s := Run(fleet, Init(fleet), before);
             c < |s.calls| && s.calls[c].stage.Called? && s.calls[c].node < |fleet|
    requires var u := Run(fleet, Next(fleet, Run(fleet, Init(fleet), before), Select(c)), between);
             c < |u.calls| && u.calls[c].stage.Selected?
    requires var s := Run(fleet, Init(fleet), before);
             var u := Run(fleet, Next(fleet, s, Select(c)), between);
             var t := Run(fleet, Next(fleet, u, Send(c)), later);
             r < |t.receivers| && t.receivers[r].inst < |t.instances|
             && t.instances[t.receivers[r].inst].node == s.calls[c].node
    ensures var s := Run(fleet, Init(fleet), before);
            var inst := Target(s, s.calls[c].node, s.calls[c].room);
            var u := Run(fleet, Next(fleet, s, Select(c)), between);
            var t := Run(fleet, Next(fleet, u, Send(c)), later);
            if r < |u.receivers| && u.receivers[r].live && u.receivers[r].inst == inst
            then ExactlyOnce(t, r, c) else Never(t, r, c)
  {
    var s := Run(fleet, Init(fleet), before);
    var inst := Target(s, s.calls[c].node, s.calls[c].room);
    var selected := Next(fleet, s, Select(c));
    Reachable(fleet, before);
    CallSelectsTheMappedRoom(fleet, s, c);
    SelectionStays(fleet, selected, between, c, inst);
    var all := before + [Select(c)] + between;
    RunOn(fleet, Init(fleet), before, [Select(c)]);
    RunOn(fleet, Init(fleet), before + [Select(c)], between);
    OneStep(fleet, s, Select(c));
    var u := Run(fleet, selected, between);
    assert Run(fleet, Init(fleet), all) == u;
    CallKeepsItsNode(fleet, selected, between, c);
    LocalDeliveryIsExact(fleet, all, c, later, r);
  }

  lemma OneStep(fleet: seq<Config>, s: State, e: Event)
    requires |s.nodes| == |fleet|
    ensures Run(fleet, s, [e]) == Next(fleet, s, e)
  {
    assert [e][..0] == [];
  }

  lemma NextKeepsNode(fleet: seq<Config>, s: State, e: Event, c: nat)
    requires |s.nodes| == |fleet| && c < |s.calls|
    ensures var t := Next(fleet, s, e); c < |t.calls| && t.calls[c].node == s.calls[c].node
  {
  }

  lemma {:induction false} CallKeepsItsNode(fleet: seq<Config>, s: State, events: seq<Event>, c: nat)
    requires |s.nodes| == |fleet| && c < |s.calls|
    ensures var t := Run(fleet, s, events); c < |t.calls| && t.calls[c].node == s.calls[c].node
  {
    if events != [] {
      CallKeepsItsNode(fleet, s, events[..|events| - 1], c);
      NextKeepsNode(fleet, Run(fleet, s, events[..|events| - 1]), events[|events| - 1], c);
    }
  }

  /** A send by one that holds the room reaches exactly its live receivers. */
  lemma HolderReachesItsRoom(fleet: seq<Config>, s: State, inst: nat, frame: Frame, r: nat)
    requires |s.nodes| == |fleet| && inst < |s.instances| && r < |s.receivers|
    ensures var t := Next(fleet, s, SendLocally(inst, frame));
            && |t.calls| == |s.calls| + 1 && t.bus == s.bus && t.nodes == s.nodes
            && t.receivers[r].log
               == s.receivers[r].log + if s.receivers[r].live && s.receivers[r].inst == inst
                                       then [Entry(frame, Direct(|s.calls|))] else []
  {
  }

  // The bus

  /** One message more on the bus, for the call: on the channel of its node's
      prefix and its room, under its node's id, with its frame. */
  ghost predicate Posts(fleet: seq<Config>, s: State, t: State, c: nat) {
    && c < |t.calls| && t.calls[c].node < |fleet|
    && |t.bus| == |s.bus| + 1 && s.bus <= t.bus
    && var m, call := t.bus[|s.bus|], t.calls[c];
       && m.channel == fleet[call.node].prefix + call.room
       && Decode(m.payload) == Ok((fleet[call.node].id, call.frame)) && m.call == Some(c)
       && call.Message() == Some(|s.bus|)
  }

  lemma CallPublishes(fleet: seq<Config>, s: State, c: nat)
    requires |s.nodes| == |fleet| && WellFormed(fleet, s) && c < |s.calls| && s.calls[c].stage.Sent?
    ensures var t := Next(fleet, s, Publish(c));
            && Posts(fleet, s, t, c)
            && t.calls == s.calls[c := s.calls[c].(stage := Published(s.calls[c].stage.inst, |s.bus|))]
            && t == s.(calls := t.calls, bus := t.bus)
  {
    assert CallOk(s, c);
    DecodeEncode(fleet[s.calls[c].node].id, s.calls[c].frame);
  }

  lemma PublishOnlyPublishes(fleet: seq<Config>, s: State, n: nat, room: string, frame: Frame)
    requires |s.nodes| == |fleet| && n < |fleet|
    ensures var t := Next(fleet, s, PublishOnly(n, room, frame));
            && t.calls == s.calls + [Call(n, room, frame, Posted(|s.bus|))]
            && Posts(fleet, s, t, |s.calls|) && t == s.(calls := t.calls, bus := t.bus)
  {
    var t := Next(fleet, s, PublishOnly(n, room, frame));
    assert t.calls[|s.calls|] == Call(n, room, frame, Posted(|s.bus|));
    assert t.bus == s.bus + [BusMessage(fleet[n].prefix + room, Encode(fleet[n].id, frame), Some(|s.calls|))];
    DecodeEncode(fleet[n].id, frame);
  }

  lemma OutsiderPublishes(fleet: seq<Config>, s: State, channel: string, payload: seq<byte>)
    requires |s.nodes| == |fleet|
    ensures Next(fleet, s, Inject(channel, payload)) == s.(bus := s.bus + [BusMessage(channel, payload, None)])
  {
  }

  /** Node `n` is past message `b`, and none of its receivers ever had it. */
  ghost predicate Skipped(s: State, n: nat, b: nat) {
    && n < |s.nodes| && s.nodes[n].cursor > b
    && (s.nodes[n].sub.Holding? ==> s.nodes[n].sub.msg != b)
    && forall r :: 0 <= r < |s.receivers| ==> Spared(s, n, b, r)
  }

  ghost predicate Spared(s: State, n: nat, b: nat, r: nat)
    requires r < |s.receivers|
  {
    var inst := s.receivers[r].inst;
    inst < |s.instances| && s.instances[inst].node == n ==>
      forall e :: e in s.receivers[r].log ==> e.source != Remote(b)
  }

  lemma NextSkipped(fleet: seq<Config>, s: State, e: Event, n: nat, b: nat)
    requires |s.nodes| == |fleet| && WellFormed(fleet, s) && Skipped(s, n, b)
    ensures Skipped(Next(fleet, s, e), n, b)
  {
    var t := Next(fleet, s, e);
    NextExtends(fleet, s, e);
    assert NodeOk(fleet, s, n);
    forall r | 0 <= r < |t.receivers| ensures Spared(t, n, b, r) {
      NextLog(fleet, s, e, r);
      if r < |s.receivers| {
        assert Spared(s, n, b, r);
        if e.Apply? && Enabled(s, e) { assert NodeOk(fleet, s, e.n); }
      }
    }
  }

  lemma {:induction false} SkippedForGood(fleet: seq<Config>, s: State, events: seq<Event>, n: nat, b: nat)
    requires |s.nodes| == |fleet| && WellFormed(fleet, s) && LogsOk(fleet, s) && Skipped(s, n, b)
    ensures Skipped(Run(fleet, s, events), n, b)
  {
    if events != [] {
      var past := events[..|events| - 1];
      SkippedForGood(fleet, s, past, n, b);
      RunKeeps(fleet, s, past);
      NextSkipped(fleet, Run(fleet, s, past), events[|events| - 1], n, b);
    }
  }

  /** A message lost on the way to a node never reaches any receiver there. */
  lemma LostIsNeverDelivered(fleet: seq<Config>, before: seq<Event>, n: nat, later: seq<Event>, r: nat)
    requires var s := Run(fleet, Init(fleet), before); n < |s.nodes| && s.nodes[n].cursor < |s.bus|
    requires var s := Run(fleet, Init(fleet), before);
             var t := Run(fleet, Next(fleet, s, Lose(n)), later);
             r < |t.receivers| && t.receivers[r].inst < |t.instances| && t.instances[t.receivers[r].inst].node == n
    ensures var s := Run(fleet, Init(fleet), before);
            var t := Run(fleet, Next(fleet, s, Lose(n)), later);
            forall e :: e in t.receivers[r].log ==> e.source != Remote(s.nodes[n].cursor)
  {
    Reachable(fleet, before);
    var s := Run(fleet, Init(fleet), before);
    var b, u := s.nodes[n].cursor, Next(fleet, s, Lose(n));
    assert NodeOk(fleet, s, n);
    NextWellFormed(fleet, s, Lose(n));
    NextLogsOk(fleet, s, Lose(n));
    forall q | 0 <= q < |u.receivers| ensures Spared(u, n, b, q) {
      assert LogOk(fleet, s, s.receivers[q].inst, s.receivers[q].log);
      forall e | e in s.receivers[q].log && s.instances[s.receivers[q].inst].node == n ensures e.source != Remote(b) {
        assert EntryOk(fleet, s, s.receivers[q].inst, e);
      }
    }
    SkippedForGood(fleet, u, later, n, b);
    assert Spared(Run(fleet, u, later), n, b, r);
  }

  // Catching up

  /** `k` turns of the subscriber loop. */
  function Turns(n: nat, k: nat): seq<Event> {
    if k == 0 then [] else Turns(n, k - 1) + [Receive(n), Apply(n)]
  }

  lemma TurnsEnd(fleet: seq<Config>, s: State, n: nat, k: nat)
    requires |s.nodes| == |fleet| && k > 0
    ensures var e := Turns(n, k);
            && e != [] && e[|e| - 1] == Apply(n)
            && e[..|e| - 1] == Turns(n, k - 1) + [Receive(n)]
            && Run(fleet, s, Turns(n, k - 1) + [Receive(n)]) == Next(fleet, Run(fleet, s, Turns(n, k - 1)), Receive(n))
            && Run(fleet, s, e) == Next(fleet, Run(fleet, s, Turns(n, k - 1) + [Receive(n)]), Apply(n))
  {
    var past := Turns(n, k - 1);
    assert (past + [Receive(n)])[..|past|] == past;
    assert Turns(n, k) == past + [Receive(n)] + [Apply(n)];
  }

  /** Nothing has moved but what node `n` received. */
  predicate Quiet(s: State, t: State, n: nat) {
    && t.bus == s.bus && t.calls == s.calls && t.instances == s.instances && |t.nodes| == |s.nodes|
    && (n < |s.nodes| ==> t.nodes[n].rooms == s.nodes[n].rooms)
    && |t.receivers| == |s.receivers|
    && forall r :: 0 <= r < |s.receivers| ==>
         t.receivers[r].inst == s.receivers[r].inst && t.receivers[r].live == s.receivers[r].live
  }

  lemma TurnTakesOne(fleet: seq<Config>, s: State, n: nat)
    requires |s.nodes| == |fleet| && n < |fleet| && s.nodes[n].sub.Ready? && s.nodes[n].cursor < |s.bus|
    ensures var u := Next(fleet, s, Receive(n));
            var t := Next(fleet, u, Apply(n));
            && Quiet(s, u, n) && Quiet(s, t, n)
            && t.nodes[n].sub == Ready && t.nodes[n].cursor == s.nodes[n].cursor + 1
  {
  }

  lemma {:induction false} TurnsTakeAll(fleet: seq<Config>, s: State, n: nat, k: nat)
    requires |s.nodes| == |fleet| && n < |fleet| && s.nodes[n].sub.Ready? && s.nodes[n].cursor + k <= |s.bus|
    ensures var t := Run(fleet, s, Turns(n, k));
            Quiet(s, t, n) && t.nodes[n].sub == Ready && t.nodes[n].cursor == s.nodes[n].cursor + k
  {
    if k > 0 {
      TurnsTakeAll(fleet, s, n, k - 1);
      TurnTakesOne(fleet, Run(fleet, s, Turns(n, k - 1)), n);
      TurnsEnd(fleet, s, n, k);
    }
  }

  lemma StillSteady(
    fleet: seq<Config>, s: State, past: seq<Event>, e: Event, n: nat, room: string, inst: nat, r: nat
  )
    requires |s.nodes| == |fleet| && Steady(fleet, s, past, n, room, inst, r) && e != Lose(n)
    requires Listening(Next(fleet, Run(fleet, s, past), e), n, room, inst, r)
    ensures Steady(fleet, s, past + [e], n, room, inst, r)
    ensures Run(fleet, s, past + [e]) == Next(fleet, Run(fleet, s, past), e)
  {
    assert (past + [e])[..|past + [e]| - 1] == past;
  }

  lemma {:induction false} TurnsAreSteady(
    fleet: seq<Config>, s: State, n: nat, k: nat, room: string, inst: nat, r: nat
  )
    requires |s.nodes| == |fleet| && s.nodes != [] && Listening(s, n, room, inst, r)
    requires s.nodes[n].sub.Ready? && s.nodes[n].cursor + k <= |s.bus|
    ensures Steady(fleet, s, Turns(n, k), n, room, inst, r)
  {
    if k > 0 {
      TurnsAreSteady(fleet, s, n, k - 1, room, inst, r);
      TurnsTakeAll(fleet, s, n, k - 1);
      TurnIsSteady(fleet, s, Turns(n, k - 1), n, room, inst, r);
      assert Turns(n, k) == Turns(n, k - 1) + [Receive(n)] + [Apply(n)];
    }
  }

  lemma TurnIsSteady(fleet: seq<Config>, s: State, past: seq<Event>, n: nat, room: string, inst: nat, r: nat)
    requires |s.nodes| == |fleet| && Steady(fleet, s, past, n, room, inst, r)
    requires var u := Run(fleet, s, past);
             Listening(u, n, room, inst, r) && u.nodes[n].sub.Ready? && u.nodes[n].cursor < |u.bus|
    ensures Steady(fleet, s, past + [Receive(n)] + [Apply(n)], n, room, inst, r)
  {
    TurnTakesOne(fleet, Run(fleet, s, past), n);
    StillSteady(fleet, s, past, Receive(n), n, room, inst, r);
    StillSteady(fleet, s, past + [Receive(n)], Apply(n), n, room, inst, r);
  }

  /** The schedule on which the loop sends what it holds and takes the rest. */
  function CaughtUp(fleet: seq<Config>, s: State, n: nat): State
    requires |s.nodes| == |fleet| && n < |fleet| && s.nodes[n].cursor <= |s.bus|
  {
    Run(fleet, Next(fleet, s, Apply(n)), Turns(n, |s.bus| - s.nodes[n].cursor))
  }

  /** A loop that is left to work gets on: it takes every message there is, and
      a listener's log then holds, behind what it had, exactly those its node
      accepts for the room, each once and in order. */
  lemma LoopCatchesUp(fleet: seq<Config>, s: State, n: nat, room: string, inst: nat, r: nat)
    requires |s.nodes| == |fleet| && WellFormed(fleet, s) && LogsOk(fleet, s) && Listening(s, n, room, inst, r)
    ensures s.nodes[n].cursor <= |s.bus|
    ensures var t := CaughtUp(fleet, s, n);
            && Quiet(s, t, n) && t.nodes[n].sub == Ready && t.nodes[n].cursor == |s.bus|
            && RemoteEntries(t.receivers[r].log)
               == RemoteEntries(s.receivers[r].log) + InHand(s.nodes[n], inst)
                  + Wanted(fleet[n], s.bus, room, s.nodes[n].cursor, |s.bus|)
  {
    assert NodeOk(fleet, s, n);
    var u := Next(fleet, s, Apply(n));
    SendsWhatItHolds(fleet, s, n, room, inst, r);
    NextWellFormed(fleet, s, Apply(n));
    NextLogsOk(fleet, s, Apply(n));
    ReadyLoopCatchesUp(fleet, u, n, room, inst, r);
  }

  lemma ReadyLoopCatchesUp(fleet: seq<Config>, s: State, n: nat, room: string, inst: nat, r: nat)
    requires |s.nodes| == |fleet| && WellFormed(fleet, s) && LogsOk(fleet, s) && Listening(s, n, room, inst, r)
    requires s.nodes[n].sub.Ready? && s.nodes[n].cursor <= |s.bus|
    ensures var t := Run(fleet, s, Turns(n, |s.bus| - s.nodes[n].cursor));
            && Quiet(s, t, n) && t.nodes[n].sub == Ready && t.nodes[n].cursor == |s.bus|
            && RemoteEntries(t.receivers[r].log)
               == Passed(s, n, inst, r) + Wanted(fleet[n], s.bus, room, s.nodes[n].cursor, |s.bus|)
  {
    var k := |s.bus| - s.nodes[n].cursor;
    TurnsTakeAll(fleet, s, n, k);
    TurnsAreSteady(fleet, s, n, k, room, inst, r);
    NothingMissing(fleet, s, Turns(n, k), n, room, inst, r);
    var t := Run(fleet, s, Turns(n, k));
    assert Passed(t, n, inst, r) == RemoteEntries(t.receivers[r].log);
  }

  lemma SendsWhatItHolds(fleet: seq<Config>, s: State, n: nat, room: string, inst: nat, r: nat)
    requires |s.nodes| == |fleet| && WellFormed(fleet, s) && Listening(s, n, room, inst, r)
    ensures var u := Next(fleet, s, Apply(n));
            && Quiet(s, u, n) && Listening(u, n, room, inst, r)
            && u.nodes[n].sub == Ready && u.nodes[n].cursor == s.nodes[n].cursor
            && Passed(u, n, inst, r) == Passed(s, n, inst, r)
  {
    if Enabled(s, Apply(n)) { ApplyPasses(fleet, s, n, n, room, inst, r); }
  }

  lemma {:induction false} RemoteIsLogged(log: seq<Entry>, e: Entry)
    requires e in RemoteEntries(log)
    ensures e in log
  {
    if e in RemoteEntries(log[..|log| - 1]) { RemoteIsLogged(log[..|log| - 1], e); }
  }

  /** The fleet after a node has broadcast: called, looked up, sent, published. */
  function AfterBroadcast(fleet: seq<Config>, s: State, m: nat, room: string, frame: Frame): State
    requires |s.nodes| == |fleet|
  {
    var c := |s.calls|;
    var sent := Next(fleet, Next(fleet, Next(fleet, s, Broadcast(m, room, frame)), Select(c)), Send(c));
    Next(fleet, sent, Publish(c))
  }

  /** What a broadcast has done so far: every live receiver of the mapped room
      has the frame, and a message for it is on the bus. */
  lemma BroadcastDoes(fleet: seq<Config>, s: State, m: nat, room: string, frame: Frame)
    requires |s.nodes| == |fleet| && WellFormed(fleet, s) && LogsOk(fleet, s) && m < |fleet|
    ensures var t := AfterBroadcast(fleet, s, m, room, frame);
            var inst, c := Target(s, m, room), |s.calls|;
            && WellFormed(fleet, t) && LogsOk(fleet, t)
            && Mapped(s, t, m, room, inst)
            && t.calls == s.calls + [Call(m, room, frame, Published(inst, |s.bus|))]
            && Posts(fleet, s, t, c)
            && |t.receivers| == |s.receivers|
            && forall r :: 0 <= r < |s.receivers| ==>
                 t.receivers[r]
                 == s.receivers[r].(log := s.receivers[r].log + if s.receivers[r].live && s.receivers[r].inst == inst
                                                                then [Entry(frame, Direct(c))] else [])
  {
    var c, inst := |s.calls|, Target(s, m, room);
    var called := Next(fleet, s, Broadcast(m, room, frame));
    NextWellFormed(fleet, s, Broadcast(m, room, frame));
    NextLogsOk(fleet, s, Broadcast(m, room, frame));
    var selected := Next(fleet, called, Select(c));
    CallSelectsTheMappedRoom(fleet, called, c);
    NextWellFormed(fleet, called, Select(c));
    NextLogsOk(fleet, called, Select(c));
    var sent := Next(fleet, selected, Send(c));
    NextWellFormed(fleet, selected, Send(c));
    NextLogsOk(fleet, selected, Send(c));
    CallPublishes(fleet, sent, c);
    NextWellFormed(fleet, sent, Publish(c));
    NextLogsOk(fleet, sent, Publish(c));
  }

  /** So a broadcast gets everywhere: once the loop of another node, under
      another id, has caught up, every listener there in the room of the same
      channel has the frame. */
  lemma BroadcastArrives(
    fleet: seq<Config>, s: State, m: nat, room: string, frame: Frame, n: nat, here: string, inst: nat, r: nat
  )
    requires |s.nodes| == |fleet| && WellFormed(fleet, s) && LogsOk(fleet, s) && m < |fleet|
    requires Listening(s, n, here, inst, r)
    requires fleet[m].id != fleet[n].id && fleet[m].prefix + room == fleet[n].prefix + here
    ensures var u := AfterBroadcast(fleet, s, m, room, frame);
            && u.nodes[n].cursor <= |u.bus| && r < |CaughtUp(fleet, u, n).receivers|
            && Entry(frame, Remote(|s.bus|)) in CaughtUp(fleet, u, n).receivers[r].log
  {
    var u := AfterBroadcast(fleet, s, m, room, frame);
    BroadcastDoes(fleet, s, m, room, frame);
    assert NodeOk(fleet, s, n);
    LoopCatchesUp(fleet, u, n, here, inst, r);
    PublishesAreWanted(fleet, u, n, here, u.nodes[n].cursor, |u.bus|, |s.bus|, |s.calls|);
    RemoteIsLogged(CaughtUp(fleet, u, n).receivers[r].log, Entry(frame, Remote(|s.bus|)));
  }
}
