/** What the fleet's receivers get from the bus, taken as a stream: nothing
    out of order, nothing twice, and nothing missing but what was lost. */
module FleetStreams {
  import opened Prelude
  import opened Codec
  import opened Envelope
  import opened Fleet
  import RedisRooms

  // Order

  function RemoteFrames(log: seq<Entry>): seq<Frame> {
    if log == [] then []
    else
      var e := log[|log| - 1];
      RemoteFrames(log[..|log| - 1]) + if e.source.Remote? then [e.frame] else []
  }

  /** The frames of the first `n` publishes, in order, that went to `channel`. */
  function ChannelFrames(bus: seq<BusMessage>, channel: string, n: nat): seq<Frame>
    requires n <= |bus|
  {
    if n == 0 then []
    else
      ChannelFrames(bus, channel, n - 1)
      + (match Decode(bus[n - 1].payload)
         case Ok((_, frame)) => if bus[n - 1].channel == channel then [frame] else []
         case Err(_) => [])
  }

  predicate IsSubsequence<T(==)>(a: seq<T>, b: seq<T>) {
    || a == []
    || (b != []
        && ((a[|a| - 1] == b[|b| - 1] && IsSubsequence(a[..|a| - 1], b[..|b| - 1]))
            || IsSubsequence(a, b[..|b| - 1])))
  }

  lemma SubsequenceSnoc<T>(a: seq<T>, b: seq<T>, x: T)
    requires IsSubsequence(a, b)
    ensures IsSubsequence(a, b + [x]) && IsSubsequence(a + [x], b + [x])
  {
    assert (b + [x])[..|b|] == b && (a + [x])[..|a|] == a;
  }

  lemma {:induction false} LaterPublishes(a: seq<Frame>, bus: seq<BusMessage>, channel: string, m: nat, n: nat)
    requires m <= n <= |bus| && IsSubsequence(a, ChannelFrames(bus, channel, m))
    ensures IsSubsequence(a, ChannelFrames(bus, channel, n))
  {
    if m < n {
      LaterPublishes(a, bus, channel, m, n - 1);
      var f := ChannelFrames(bus, channel, n - 1);
      var g := ChannelFrames(bus, channel, n);
      if g != f {
        assert g == f + [g[|g| - 1]];
        SubsequenceSnoc(a, f, g[|g| - 1]);
      }
    }
  }

  /** Message `b` went to the channel and carries the frame. */
  predicate Carries(bus: seq<BusMessage>, channel: string, b: nat, frame: Frame) {
    && b < |bus| && bus[b].channel == channel
    && Decode(bus[b].payload).Ok? && Decode(bus[b].payload).value.1 == frame
  }

  /** A log whose remote entries carry messages in rising order. */
  ghost predicate Rising(bus: seq<BusMessage>, channel: string, log: seq<Entry>, n: nat) {
    && n <= |bus|
    && (forall k :: 0 <= k < |log| && log[k].source.Remote? ==>
          log[k].source.msg < n && Carries(bus, channel, log[k].source.msg, log[k].frame))
    && (forall j, k :: 0 <= j < k < |log| ==> Ordered(log[j], log[k]))
  }

  lemma RisingPast(bus: seq<BusMessage>, channel: string, log: seq<Entry>, n: nat)
    requires Rising(bus, channel, log, n) && log != []
    ensures var e := log[|log| - 1];
            Rising(bus, channel, log[..|log| - 1], if e.source.Remote? then e.source.msg else n)
  {
    var past := log[..|log| - 1];
    forall k | 0 <= k < |past| ensures past[k] == log[k] && Ordered(past[k], log[|log| - 1]) {
    }
  }

  lemma {:induction false} RisingLogIsSubsequence(bus: seq<BusMessage>, channel: string, log: seq<Entry>, n: nat)
    requires Rising(bus, channel, log, n)
    ensures IsSubsequence(RemoteFrames(log), ChannelFrames(bus, channel, n))
  {
    if log != [] {
      var past, e := log[..|log| - 1], log[|log| - 1];
      RisingPast(bus, channel, log, n);
      match e.source
      case Direct(_) =>
        RisingLogIsSubsequence(bus, channel, past, n);
        assert RemoteFrames(log) == RemoteFrames(past);
      case Remote(b) =>
        RisingLogIsSubsequence(bus, channel, past, b);
        SubsequenceSnoc(RemoteFrames(past), ChannelFrames(bus, channel, b), e.frame);
        assert ChannelFrames(bus, channel, b + 1) == ChannelFrames(bus, channel, b) + [e.frame];
        LaterPublishes(RemoteFrames(past) + [e.frame], bus, channel, b + 1, n);
    }
  }

  /** In every run the remote frames in a receiver's log, in order, are a
      subsequence of the frames published to its channel, in publish order. */
  lemma RemoteFramesKeepPublishOrder(fleet: seq<Config>, events: seq<Event>, r: nat)
    requires r < |Run(fleet, Init(fleet), events).receivers|
    ensures var s := Run(fleet, Init(fleet), events);
            var inst := s.receivers[r].inst;
            && inst < |s.instances| && s.instances[inst].node < |fleet|
            && var here := s.instances[inst];
               IsSubsequence(RemoteFrames(s.receivers[r].log),
                             ChannelFrames(s.bus, ChannelName(fleet[here.node].prefix, here.room), |s.bus|))
  {
    Reachable(fleet, events);
    var s := Run(fleet, Init(fleet), events);
    var inst, log := s.receivers[r].inst, s.receivers[r].log;
    assert LogOk(fleet, s, inst, log);
    var here := s.instances[inst];
    var channel := ChannelName(fleet[here.node].prefix, here.room);
    forall k | 0 <= k < |log| && log[k].source.Remote?
      ensures log[k].source.msg < |s.bus| && Carries(s.bus, channel, log[k].source.msg, log[k].frame)
    {
      assert EntryOk(fleet, s, inst, log[k]);
      ChannelNamesRoundTrip(fleet[here.node].prefix, s.bus[log[k].source.msg].channel, here.room);
    }
    RisingLogIsSubsequence(s.bus, channel, log, |s.bus|);
  }

  // Completeness

  function RemoteEntries(log: seq<Entry>): seq<Entry> {
    if log == [] then []
    else
      var e := log[|log| - 1];
      RemoteEntries(log[..|log| - 1]) + if e.source.Remote? then [e] else []
  }

  /** The messages from `lo` to `hi` that node `n` accepts for `room`. */
  function Wanted(c: Config, bus: seq<BusMessage>, room: string, lo: nat, hi: nat): seq<Entry>
    requires lo <= hi <= |bus|
    decreases hi
  {
    if lo == hi then []
    else
      Wanted(c, bus, room, lo, hi - 1)
      + (match Accept(c.prefix, c.id, bus[hi - 1].channel, bus[hi - 1].payload)
         case Some((id, frame)) => if id == room then [Entry(frame, Remote(hi - 1))] else []
         case None => [])
  }

  function Frames(log: seq<Entry>): seq<Frame> {
    seq(|log|, k requires 0 <= k < |log| => log[k].frame)
  }

  /** The messages from `lo` to `hi`, as a subscriber loop is handed them. */
  predicate IsStream(stream: seq<RedisRooms.Message>, bus: seq<BusMessage>, lo: nat, hi: nat) {
    && lo <= hi <= |bus| && |stream| == hi - lo
    && forall k :: 0 <= k < |stream| ==> stream[k] == RedisRooms.Message(bus[lo + k].channel, bus[lo + k].payload)
  }

  /** The fleet's loop and the registry's are one: handed the same messages,
      both take the same frames for a room. */
  lemma {:induction false} WantedIsAccepted(c: Config, bus: seq<BusMessage>, room: string, lo: nat, hi: nat,
                                            stream: seq<RedisRooms.Message>)
    requires IsStream(stream, bus, lo, hi)
    ensures Frames(Wanted(c, bus, room, lo, hi)) == RedisRooms.Accepted(c.prefix, c.id, room, stream)
    decreases hi
  {
    if lo < hi {
      WantedIsAccepted(c, bus, room, lo, hi - 1, stream[..|stream| - 1]);
      WantedSnoc(c, bus, room, lo, hi);
    }
  }

  lemma WantedSnoc(c: Config, bus: seq<BusMessage>, room: string, lo: nat, hi: nat)
    requires lo < hi <= |bus|
    ensures Frames(Wanted(c, bus, room, lo, hi))
            == Frames(Wanted(c, bus, room, lo, hi - 1))
               + match Accept(c.prefix, c.id, bus[hi - 1].channel, bus[hi - 1].payload)
                 case Some((id, frame)) => if id == room then [frame] else []
                 case None => []
  {
    WantedSplits(c, bus, room, lo, hi - 1, hi);
    FramesAppend(Wanted(c, bus, room, lo, hi - 1), Wanted(c, bus, room, hi - 1, hi));
    assert Wanted(c, bus, room, hi - 1, hi - 1) == [];
  }

  lemma FramesAppend(a: seq<Entry>, b: seq<Entry>)
    ensures Frames(a + b) == Frames(a) + Frames(b)
  {
  }

  /** What the loop holds for the instance and has not yet sent. */
  function InHand(node: Node, inst: nat): seq<Entry> {
    if node.sub.Holding? && node.sub.inst == inst then [Entry(node.sub.frame, Remote(node.sub.msg))] else []
  }

  /** Node `n` hosts `room` as `inst`, and receiver `r` listens there. */
  predicate Listening(s: State, n: nat, room: string, inst: nat, r: nat) {
    && n < |s.nodes| && room in s.nodes[n].rooms && s.nodes[n].rooms[room] == inst
    && r < |s.receivers| && s.receivers[r].live && s.receivers[r].inst == inst
  }

  /** Throughout `events` the receiver listens and node `n` loses nothing. */
  predicate Steady(fleet: seq<Config>, s: State, events: seq<Event>, n: nat, room: string, inst: nat, r: nat)
    requires |s.nodes| == |fleet|
  {
    && Listening(Run(fleet, s, events), n, room, inst, r)
    && (events == []
        || (events[|events| - 1] != Lose(n) && Steady(fleet, s, events[..|events| - 1], n, room, inst, r)))
  }

  lemma {:induction false} WantedGrows(c: Config, a: seq<BusMessage>, b: seq<BusMessage>, room: string,
                                       lo: nat, hi: nat)
    requires a <= b && lo <= hi <= |a|
    ensures Wanted(c, a, room, lo, hi) == Wanted(c, b, room, lo, hi)
    decreases hi
  {
    if lo < hi { WantedGrows(c, a, b, room, lo, hi - 1); }
  }

  /** What node `n` has passed on to the receiver, or is about to. */
  function Passed(s: State, n: nat, inst: nat, r: nat): seq<Entry>
    requires n < |s.nodes| && r < |s.receivers|
  {
    RemoteEntries(s.receivers[r].log) + InHand(s.nodes[n], inst)
  }

  lemma LogGrows(log: seq<Entry>, e: Entry)
    ensures RemoteEntries(log + [e]) == RemoteEntries(log) + if e.source.Remote? then [e] else []
  {
    assert (log + [e])[..|log|] == log;
  }

  lemma ReceiveTakes(fleet: seq<Config>, s: State, n: nat, room: string, inst: nat, r: nat)
    requires |s.nodes| == |fleet| && WellFormed(fleet, s)
    requires Listening(s, n, room, inst, r) && Enabled(s, Receive(n))
    ensures var t, b := Next(fleet, s, Receive(n)), s.nodes[n].cursor;
            && t.nodes[n].cursor == b + 1
            && Passed(t, n, inst, r) == Passed(s, n, inst, r) + Wanted(fleet[n], s.bus, room, b, b + 1)
  {
    var t, b := Next(fleet, s, Receive(n)), s.nodes[n].cursor;
    assert NodeOk(fleet, s, n);
    assert Wanted(fleet[n], s.bus, room, b, b) == [];
    match Accept(fleet[n].prefix, fleet[n].id, s.bus[b].channel, s.bus[b].payload)
    case None =>
    case Some((id, frame)) =>
      if id == room {
        assert InHand(t.nodes[n], inst) == [Entry(frame, Remote(b))];
      } else {
        assert InHand(t.nodes[n], inst) == [];
      }
  }

  lemma ApplyPasses(fleet: seq<Config>, s: State, m: nat, n: nat, room: string, inst: nat, r: nat)
    requires |s.nodes| == |fleet| && WellFormed(fleet, s)
    requires Listening(s, n, room, inst, r) && Enabled(s, Apply(m))
    ensures var t := Next(fleet, s, Apply(m));
            && t.nodes[n].cursor == s.nodes[n].cursor && Passed(t, n, inst, r) == Passed(s, n, inst, r)
  {
    NextLog(fleet, s, Apply(m), r);
    assert NodeOk(fleet, s, n) && NodeOk(fleet, s, m);
    var h := s.nodes[m].sub;
    LogGrows(s.receivers[r].log, Entry(h.frame, Remote(h.msg)));
  }

  lemma OthersPassNothing(fleet: seq<Config>, s: State, e: Event, n: nat, room: string, inst: nat, r: nat)
    requires |s.nodes| == |fleet| && WellFormed(fleet, s)
    requires Listening(s, n, room, inst, r) && !e.Apply? && e != Receive(n) && e != Lose(n)
    ensures var t := Next(fleet, s, e);
            && t.nodes[n].cursor == s.nodes[n].cursor && Passed(t, n, inst, r) == Passed(s, n, inst, r)
  {
    NextLog(fleet, s, e, r);
    var t := Next(fleet, s, e);
    assert t.nodes[n].sub == s.nodes[n].sub && t.nodes[n].cursor == s.nodes[n].cursor;
    if t.receivers[r].log != s.receivers[r].log { LogGrows(s.receivers[r].log, Delivery(s, e).value.1); }
  }

  /** One event: what is passed on grows by exactly what is taken. */
  lemma StepTakesAll(fleet: seq<Config>, s: State, e: Event, n: nat, room: string, inst: nat, r: nat)
    requires |s.nodes| == |fleet| && WellFormed(fleet, s)
    requires Listening(s, n, room, inst, r) && e != Lose(n)
    ensures var t := Next(fleet, s, e);
            && r < |t.receivers| && s.bus <= t.bus
            && s.nodes[n].cursor <= t.nodes[n].cursor <= |s.bus|
            && Passed(t, n, inst, r)
               == Passed(s, n, inst, r) + Wanted(fleet[n], s.bus, room, s.nodes[n].cursor, t.nodes[n].cursor)
  {
    NextExtends(fleet, s, e);
    assert NodeOk(fleet, s, n);
    var t := Next(fleet, s, e);
    if Enabled(s, e) && e == Receive(n) {
      ReceiveTakes(fleet, s, n, room, inst, r);
    } else if Enabled(s, e) && e.Apply? {
      ApplyPasses(fleet, s, e.n, n, room, inst, r);
      assert Passed(s, n, inst, r) + [] == Passed(s, n, inst, r);
    } else if Enabled(s, e) {
      OthersPassNothing(fleet, s, e, n, room, inst, r);
      assert Passed(s, n, inst, r) + [] == Passed(s, n, inst, r);
    } else {
      assert Passed(s, n, inst, r) + [] == Passed(s, n, inst, r);
    }
  }

  lemma {:induction false} WantedSplits(c: Config, bus: seq<BusMessage>, room: string, lo: nat, mid: nat, hi: nat)
    requires lo <= mid <= hi <= |bus|
    ensures Wanted(c, bus, room, lo, hi) == Wanted(c, bus, room, lo, mid) + Wanted(c, bus, room, mid, hi)
    decreases hi
  {
    if mid < hi { WantedSplits(c, bus, room, lo, mid, hi - 1); }
  }

  /** Without losses nothing is missing: while the receiver listens, it is
      passed exactly the messages its node takes in that time and accepts for
      its room, each once and in order. */
  lemma {:induction false} NothingMissing(fleet: seq<Config>, s: State, events: seq<Event>,
                                          n: nat, room: string, inst: nat, r: nat)
    requires |s.nodes| == |fleet| && WellFormed(fleet, s) && LogsOk(fleet, s)
    requires Steady(fleet, s, events, n, room, inst, r) && n < |s.nodes| && r < |s.receivers|
    ensures var t := Run(fleet, s, events);
            && r < |t.receivers| && s.nodes[n].cursor <= t.nodes[n].cursor <= |t.bus|
            && Passed(t, n, inst, r)
               == Passed(s, n, inst, r) + Wanted(fleet[n], t.bus, room, s.nodes[n].cursor, t.nodes[n].cursor)
  {
    assert NodeOk(fleet, s, n);
    if events == [] {
      assert Passed(s, n, inst, r) + [] == Passed(s, n, inst, r);
    } else {
      var before, e := events[..|events| - 1], events[|events| - 1];
      var u, t := Run(fleet, s, before), Run(fleet, s, events);
      NothingMissing(fleet, s, before, n, room, inst, r);
      RunKeeps(fleet, s, before);
      SteadyListens(fleet, s, before, n, room, inst, r);
      StepTakesAll(fleet, u, e, n, room, inst, r);
      var lo, mid, hi := s.nodes[n].cursor, u.nodes[n].cursor, t.nodes[n].cursor;
      WantedGrows(fleet[n], u.bus, t.bus, room, lo, mid);
      WantedGrows(fleet[n], u.bus, t.bus, room, mid, hi);
      WantedSplits(fleet[n], t.bus, room, lo, mid, hi);
      Associative(Passed(s, n, inst, r),
                  Wanted(fleet[n], t.bus, room, lo, mid), Wanted(fleet[n], t.bus, room, mid, hi));
    }
  }

  lemma SteadyListens(fleet: seq<Config>, s: State, events: seq<Event>, n: nat, room: string, inst: nat, r: nat)
    requires |s.nodes| == |fleet| && Steady(fleet, s, events, n, room, inst, r)
    ensures Listening(Run(fleet, s, events), n, room, inst, r)
  {
  }

  lemma Associative<T>(a: seq<T>, b: seq<T>, c: seq<T>)
    ensures (a + b) + c == a + (b + c)
  {
  }

  /** Among what is accepted is every publish of another node, with a
      different id, to the room's channel. */
  lemma {:induction false} PublishesAreWanted(fleet: seq<Config>, s: State, n: nat, room: string,
                                              lo: nat, hi: nat, b: nat, c: nat)
    requires |s.nodes| == |fleet| && WellFormed(fleet, s) && n < |fleet|
    requires lo <= b < hi <= |s.bus| && s.bus[b].call == Some(c)
    requires c < |s.calls| && s.calls[c].node < |fleet| && fleet[s.calls[c].node].id != fleet[n].id
    requires ChannelName(fleet[s.calls[c].node].prefix, s.calls[c].room) == ChannelName(fleet[n].prefix, room)
    ensures Entry(s.calls[c].frame, Remote(b)) in Wanted(fleet[n], s.bus, room, lo, hi)
    decreases hi
  {
    if b == hi - 1 {
      assert BusOk(fleet, s, b);
      DecodeEncode(fleet[s.calls[c].node].id, s.calls[c].frame);
      ChannelNamesRoundTrip(fleet[n].prefix, s.bus[b].channel, room);
    } else {
      PublishesAreWanted(fleet, s, n, room, lo, hi - 1, b, c);
    }
  }

  /** So a broadcast on one node reaches a listener on another: if its message
      is taken while the receiver listens and nothing is lost, then its frame
      is in the receiver's log or in the loop's hand. */
  lemma BroadcastCrossesTheFleet(fleet: seq<Config>, before: seq<Event>, events: seq<Event>,
                                 n: nat, room: string, inst: nat, r: nat, c: nat)
    requires var s := Run(fleet, Init(fleet), before);
             n < |s.nodes| && r < |s.receivers| && Steady(fleet, s, events, n, room, inst, r)
    requires var s := Run(fleet, Init(fleet), before);
             var t := Run(fleet, s, events);
             && c < |t.calls| && t.calls[c].node < |fleet| && fleet[t.calls[c].node].id != fleet[n].id
             && ChannelName(fleet[t.calls[c].node].prefix, t.calls[c].room) == ChannelName(fleet[n].prefix, room)
             && t.calls[c].Message().Some?
             && s.nodes[n].cursor <= t.calls[c].Message().value < t.nodes[n].cursor
    ensures var t := Run(fleet, Run(fleet, Init(fleet), before), events);
            r < |t.receivers|
            && Entry(t.calls[c].frame, Remote(t.calls[c].Message().value)) in Passed(t, n, inst, r)
  {
    Reachable(fleet, before);
    var s := Run(fleet, Init(fleet), before);
    var t := Run(fleet, s, events);
    RunKeeps(fleet, s, events);
    NothingMissing(fleet, s, events, n, room, inst, r);
    assert CallOk(t, c) && NodeOk(fleet, t, n);
    PublishesAreWanted(fleet, t, n, room, s.nodes[n].cursor, t.nodes[n].cursor, t.calls[c].Message().value, c);
  }

  // Rooms

  predicate WaitsFor(call: Call, n: nat, room: string) {
    call.stage.Called? && call.node == n && call.room == room
  }

  /** The node does not host the room, nor is a call there about to make it. */
  ghost predicate Absent(s: State, n: nat, room: string) {
    && (n < |s.nodes| ==> room !in s.nodes[n].rooms)
    && forall c :: 0 <= c < |s.calls| ==> !WaitsFor(s.calls[c], n, room)
  }

  predicate AsksFor(e: Event, n: nat, room: string) {
    e == CreateRoom(n, room) || (e.Broadcast? && e.n == n && e.room == room)
  }

  lemma SelectElsewhere(fleet: seq<Config>, s: State, c: nat, n: nat, room: string)
    requires |s.nodes| == |fleet| && Absent(s, n, room)
    ensures Absent(Next(fleet, s, Select(c)), n, room)
  {
    if Enabled(s, Select(c)) {
      assert !WaitsFor(s.calls[c], n, room);
    }
  }

  lemma StaysAbsent(fleet: seq<Config>, s: State, e: Event, n: nat, room: string)
    requires |s.nodes| == |fleet| && Absent(s, n, room) && !AsksFor(e, n, room)
    ensures Absent(Next(fleet, s, e), n, room)
  {
    if e.Select? { SelectElsewhere(fleet, s, e.c, n, room); }
  }

  /** Remote traffic never makes rooms: in every run a node hosts only rooms
      it was itself asked for. */
  lemma {:induction false} RoomsWereAskedFor(fleet: seq<Config>, events: seq<Event>, n: nat, room: string)
    requires forall e :: e in events ==> !AsksFor(e, n, room)
    ensures Absent(Run(fleet, Init(fleet), events), n, room)
  {
    if events != [] {
      var before := events[..|events| - 1];
      RoomsWereAskedFor(fleet, before, n, room);
      StaysAbsent(fleet, Run(fleet, Init(fleet), before), events[|events| - 1], n, room);
    }
  }
}
