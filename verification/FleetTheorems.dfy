/** What every run of the fleet guarantees to its receivers. */
module FleetTheorems {
  import opened Prelude
  import opened Codec
  import opened Envelope
  import opened Fleet

  /** The fleet call behind a delivered frame; an outsider's message has none. */
  function Origin(s: State, e: Entry): Option<nat> {
    match e.source
    case Direct(c) => Some(c)
    case Remote(b) => if b < |s.bus| then s.bus[b].call else None
  }

  ghost predicate Never(s: State, r: nat, c: nat)
    requires r < |s.receivers|
  {
    forall e :: e in s.receivers[r].log ==> Origin(s, e) != Some(c)
  }

  ghost predicate AtMostOnce(s: State, r: nat, c: nat)
    requires r < |s.receivers|
  {
    var log := s.receivers[r].log;
    forall j, k :: 0 <= j < k < |log| ==> Origin(s, log[j]) != Some(c) || Origin(s, log[k]) != Some(c)
  }

  ghost predicate ExactlyOnce(s: State, r: nat, c: nat)
    requires r < |s.receivers|
  {
    AtMostOnce(s, r, c) && !Never(s, r, c)
  }

  /** A message accepted from a fleet call is from a node with another id,
      carries the call's frame, and names the same channel on both sides. */
  lemma RemoteIsForeign(fleet: seq<Config>, s: State, inst: nat, b: nat, frame: Frame, c: nat)
    requires |s.nodes| == |fleet| && WellFormed(fleet, s)
    requires AcceptedAs(fleet, s, inst, b, frame) && s.bus[b].call == Some(c)
    ensures c < |s.calls| && s.calls[c].node < |fleet| && frame == s.calls[c].frame
    ensures var here, there := s.instances[inst], s.calls[c];
            && fleet[there.node].id != fleet[here.node].id
            && ChannelName(fleet[there.node].prefix, there.room) == ChannelName(fleet[here.node].prefix, here.room)
  {
    assert BusOk(fleet, s, b);
    var here, there := s.instances[inst], s.calls[c];
    DecodeEncode(fleet[there.node].id, there.frame);
    ChannelNamesRoundTrip(fleet[here.node].prefix, s.bus[b].channel, here.room);
  }

  /** The instance and the call fix the only way the call's frame can have
      come: sent there, or by the call's one message. */
  lemma OneWayIn(fleet: seq<Config>, s: State, inst: nat, e: Entry, c: nat)
    requires |s.nodes| == |fleet| && WellFormed(fleet, s)
    requires EntryOk(fleet, s, inst, e) && Origin(s, e) == Some(c)
    ensures inst < |s.instances| && c < |s.calls|
    ensures if s.instances[inst].node == s.calls[c].node then e.source == Direct(c)
            else s.calls[c].Message().Some? && e.source == Remote(s.calls[c].Message().value)
  {
    match e.source
    case Direct(_) => assert CallOk(s, c);
    case Remote(b) =>
      RemoteIsForeign(fleet, s, inst, b, e.frame, c);
      assert BusOk(fleet, s, b);
  }

  lemma LogAtMostOnce(fleet: seq<Config>, s: State, r: nat, c: nat)
    requires |s.nodes| == |fleet| && WellFormed(fleet, s) && LogsOk(fleet, s)
    requires r < |s.receivers|
    ensures AtMostOnce(s, r, c)
  {
    var inst, log := s.receivers[r].inst, s.receivers[r].log;
    assert LogOk(fleet, s, inst, log);
    forall k | 0 <= k < |log| && Origin(s, log[k]) == Some(c)
      ensures inst < |s.instances| && c < |s.calls|
      ensures if s.instances[inst].node == s.calls[c].node then log[k].source == Direct(c)
              else s.calls[c].Message().Some? && log[k].source == Remote(s.calls[c].Message().value)
    {
      OneWayIn(fleet, s, inst, log[k], c);
    }
    assert forall j, k :: 0 <= j < k < |log| ==> Ordered(log[j], log[k]);
  }

  /** In every run, whatever is lost, dropped, removed or injected, a call's
      frame enters any receiver's log at most once. */
  lemma DeliveredAtMostOnce(fleet: seq<Config>, events: seq<Event>, r: nat, c: nat)
    requires r < |Run(fleet, Init(fleet), events).receivers|
    ensures AtMostOnce(Run(fleet, Init(fleet), events), r, c)
  {
    Reachable(fleet, events);
    LogAtMostOnce(fleet, Run(fleet, Init(fleet), events), r, c);
  }

  /** Once sent, a call sends to no one again. */
  lemma {:induction false} NoLaterDirectSend(fleet: seq<Config>, s: State, events: seq<Event>, r: nat, c: nat)
    requires |s.nodes| == |fleet| && WellFormed(fleet, s) && LogsOk(fleet, s)
    requires c < |s.calls| && s.calls[c].SentOn().Some?
    requires r < |Run(fleet, s, events).receivers|
    ensures forall e :: e in Run(fleet, s, events).receivers[r].log && e.source == Direct(c) ==>
              r < |s.receivers| && e in s.receivers[r].log
  {
    if events != [] {
      var before := events[..|events| - 1];
      var t, e := Run(fleet, s, before), events[|events| - 1];
      RunKeeps(fleet, s, before);
      NextLog(fleet, t, e, r);
      if r < |t.receivers| {
        NoLaterDirectSend(fleet, s, before, r, c);
        assert t.calls[c].SentOn().Some?;
      }
    }
  }

  /** The local half is exact. Take any run in which call `c` sends after
      `before`, and look at any receiver of its node after any `later` events:
      the frame is in its log exactly once if it was live on the selected
      instance at the send, and never otherwise. */
  lemma LocalDeliveryIsExact(fleet: seq<Config>, before: seq<Event>, c: nat, later: seq<Event>, r: nat)
    requires var s := Run(fleet, Init(fleet), before);
             c < |s.calls| && s.calls[c].stage.Selected?
    requires var s := Run(fleet, Init(fleet), before);
             var t := Run(fleet, Next(fleet, s, Send(c)), later);
             r < |t.receivers| && t.receivers[r].inst < |t.instances|
             && t.instances[t.receivers[r].inst].node == s.calls[c].node
    ensures var s := Run(fleet, Init(fleet), before);
            var t := Run(fleet, Next(fleet, s, Send(c)), later);
            if r < |s.receivers| && s.receivers[r].live && s.receivers[r].inst == s.calls[c].stage.inst
            then ExactlyOnce(t, r, c) else Never(t, r, c)
  {
    var s := Run(fleet, Init(fleet), before);
    var u := Next(fleet, s, Send(c));
    var t := Run(fleet, u, later);
    Reachable(fleet, before);
    NextWellFormed(fleet, s, Send(c));
    NextLogsOk(fleet, s, Send(c));
    RunKeeps(fleet, u, later);
    LogAtMostOnce(fleet, t, r, c);
    NoLaterDirectSend(fleet, u, later, r, c);
    assert LogOk(fleet, t, t.receivers[r].inst, t.receivers[r].log);
    forall e | e in t.receivers[r].log && Origin(t, e) == Some(c) ensures e.source == Direct(c) {
      if e.source.Remote? {
        assert EntryOk(fleet, t, t.receivers[r].inst, e);
        RemoteIsForeign(fleet, t, t.receivers[r].inst, e.source.msg, e.frame, c);
      }
    }
    if r < |s.receivers| {
      NextLog(fleet, s, Send(c), r);
      assert LogOk(fleet, s, s.receivers[r].inst, s.receivers[r].log);
      assert forall e :: e in s.receivers[r].log ==> e.source != Direct(c);
      var entry := Entry(s.calls[c].frame, Direct(c));
      if s.receivers[r].live && s.receivers[r].inst == s.calls[c].stage.inst {
        var log := u.receivers[r].log;
        assert log[|log| - 1] == entry && t.receivers[r].log[|log| - 1] == entry;
        assert entry in t.receivers[r].log && Origin(t, entry) == Some(c);
      }
    }
  }

  /** Where frames come from, in every reachable state: each is a frame its
      node sent on that very instance, or the unchanged frame of a message
      whose channel is the node's prefix and the instance's room, published
      under another node's id. */
  lemma FramesComeFromSomewhere(fleet: seq<Config>, events: seq<Event>, r: nat, e: Entry)
    requires var s := Run(fleet, Init(fleet), events); r < |s.receivers| && e in s.receivers[r].log
    ensures var s := Run(fleet, Init(fleet), events);
            var inst := s.receivers[r].inst;
            && inst < |s.instances| && s.instances[inst].node < |fleet|
            && var here := s.instances[inst];
               match e.source
               case Direct(c) =>
                 c < |s.calls| && s.calls[c].frame == e.frame && s.calls[c].SentOn() == Some(inst)
                 && s.calls[c].node == here.node && s.calls[c].room == here.room
               case Remote(b) =>
                 b < |s.bus| && s.bus[b].channel == ChannelName(fleet[here.node].prefix, here.room)
                 && exists id :: id != fleet[here.node].id && s.bus[b].payload == Encode(id, e.frame)
  {
    Reachable(fleet, events);
    var s := Run(fleet, Init(fleet), events);
    var inst := s.receivers[r].inst;
    assert LogOk(fleet, s, inst, s.receivers[r].log);
    assert EntryOk(fleet, s, inst, e);
    match e.source
    case Direct(c) => assert CallOk(s, c);
    case Remote(b) =>
      var here := s.instances[inst];
      ChannelNamesRoundTrip(fleet[here.node].prefix, s.bus[b].channel, here.room);
      EncodeDecode(s.bus[b].payload);
  }

  /** The frame is the call's and the channel too: under equal prefixes the
      room is, and of differing prefixes one begins the other. Across nodes
      the ids differ. */
  ghost predicate FromItsChannel(fleet: seq<Config>, here: Instance, there: Call, frame: Frame) {
    && here.node < |fleet| && there.node < |fleet|
    && frame == there.frame
    && (here.node != there.node ==> fleet[here.node].id != fleet[there.node].id)
    && var p, q := fleet[here.node].prefix, fleet[there.node].prefix;
       && ChannelName(p, here.room) == ChannelName(q, there.room)
       && (p == q ==> here.room == there.room)
       && (p <= q || q <= p)
  }

  lemma EntryFromItsChannel(fleet: seq<Config>, s: State, inst: nat, e: Entry, c: nat)
    requires |s.nodes| == |fleet| && WellFormed(fleet, s)
    requires EntryOk(fleet, s, inst, e) && Origin(s, e) == Some(c)
    ensures inst < |s.instances| && c < |s.calls|
    ensures FromItsChannel(fleet, s.instances[inst], s.calls[c], e.frame)
  {
    match e.source
    case Direct(_) =>
      assert CallOk(s, c);
    case Remote(b) =>
      RemoteIsForeign(fleet, s, inst, b, e.frame, c);
      var here, there := s.instances[inst], s.calls[c];
      SharedChannel(fleet[here.node].prefix, here.room, fleet[there.node].prefix, there.room);
  }

  /** A call reaches a receiver only with its own frame, and only in a room
      whose channel is the call's: under equal prefixes in the same room, and
      between prefixes of which neither begins the other not at all. Nodes
      that drew the same id never hear each other: such a collision loses
      messages, it does not repeat them. */
  lemma CallsReachTheirChannel(fleet: seq<Config>, events: seq<Event>, r: nat, e: Entry, c: nat)
    requires var s := Run(fleet, Init(fleet), events);
             r < |s.receivers| && e in s.receivers[r].log && Origin(s, e) == Some(c)
    ensures var s := Run(fleet, Init(fleet), events);
            && s.receivers[r].inst < |s.instances| && c < |s.calls|
            && FromItsChannel(fleet, s.instances[s.receivers[r].inst], s.calls[c], e.frame)
  {
    Reachable(fleet, events);
    var s := Run(fleet, Init(fleet), events);
    var inst := s.receivers[r].inst;
    assert LogOk(fleet, s, inst, s.receivers[r].log);
    assert EntryOk(fleet, s, inst, e);
    EntryFromItsChannel(fleet, s, inst, e, c);
  }

  lemma SharedChannel(p: string, a: string, q: string, b: string)
    requires ChannelName(p, a) == ChannelName(q, b)
    ensures p == q ==> a == b
    ensures p <= q || q <= p
  {
    PrefixesThatMeet(p, q);
    assert a == ChannelName(p, a)[|p|..] && b == ChannelName(q, b)[|q|..];
  }
}
