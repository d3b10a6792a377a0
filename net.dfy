/** The relay between the local player and the MQTT channel: the client
    identity, the handle that queues outgoing commands, the send loop that
    publishes them, and the receive loop that carries out commands arriving
    on the channel. Each loop is a sequential pass over its input. */
module Net {
  import opened Base
  import opened PlayerCommand
  import opened HexFormat

  // ----- client identity -----

  /** The MQTT client identity: the user name followed by the random number
      written as exactly 8 lower-case, zero-padded hex digits. */
  function ClientIdentity(username: string, random: uint32): (id: string)
    ensures |id| == |username| + 8
    ensures id[..|username|] == username
    ensures IsLowerHex(id[|username|..])
    ensures ParseHex(id[|username|..]) == random as nat
  {
    Pow16Eight();
    ParseToHex(random as nat, 8);
    var suffix := ToHex(random as nat, 8);
    assert (username + suffix)[|username|..] == suffix;
    username + suffix
  }

  /** The identity determines both the user name and the random number. */
  lemma ClientIdentityInjective(u1: string, r1: uint32, u2: string, r2: uint32)
    requires ClientIdentity(u1, r1) == ClientIdentity(u2, r2)
    ensures u1 == u2 && r1 == r2
  {
  }

  // ----- the MQTT side, as far as the relay sees it -----

  datatype QoS = AtMostOnce | AtLeastOnce | ExactlyOnce

  /** One `client.publish(topic, qos, retain, payload)` call. */
  datatype Publication = Publication(topic: string, qos: QoS, retain: bool, payload: seq<byte>)

  /** The error a publish call can report; its detail is not modelled. */
  datatype ClientError = ClientError

  /** The error the connection's notification stream can report. */
  datatype ConnectionError = ConnectionError

  /** An incoming packet: a publish with its topic and payload, or any other
      packet kind (acknowledgements, pings and so on). */
  datatype Packet = Publish(topic: string, payload: seq<byte>) | OtherPacket

  datatype Event = Incoming(packet: Packet) | Outgoing

  /** One item of `connection.iter()`. */
  type Notification = Result<Event, ConnectionError>

  // ----- the handle -----

  /** The Rust struct keeps only the fifo's sending end and the two join
      handles; `identity` stands for what the MQTT options hold, and
      `channel` and `player` for what the two threads capture. */
  class NetPlayerHandle {
    const identity: string
    const channel: string
    const player: string
    /** Commands sent into the outgoing fifo, oldest first. */
    var outgoing: seq<PlayerCmd>

    /** `start`, with the user name and the random number given; the fifo
        starts empty. */
    constructor Start(username: string, random: uint32, name: string, channel: string)
      ensures identity == ClientIdentity(username, random)
      ensures this.channel == channel && player == name
      ensures outgoing == []
    {
      identity := ClientIdentity(username, random);
      this.channel := channel;
      player := name;
      outgoing := [];
    }

    /** `send_command`: the command goes to the back of the fifo. */
    method SendCommand(cmd: PlayerCmd)
      modifies this
      ensures outgoing == old(outgoing) + [cmd]
    {
      outgoing := outgoing + [cmd];
    }
  }

  // ----- the send loop -----

  /** The publish call for one command: on the channel, at-least-once, not
      retained, with the command's one-byte encoding as payload. */
  function PublishOf(channel: string, cmd: PlayerCmd): (p: Publication)
    ensures p.topic == channel && p.qos == AtLeastOnce && !p.retain
    ensures |p.payload| == 1 && TryFrom(p.payload[0]) == Ok(cmd)
  {
    DecodeEncode(cmd);
    Publication(channel, AtLeastOnce, false, [Encode(cmd)])
  }

  /** The publish calls for a sequence of commands, in order. */
  function PublishAll(channel: string, cmds: seq<PlayerCmd>): (ps: seq<Publication>)
    ensures |ps| == |cmds|
    ensures forall i :: 0 <= i < |cmds| ==> ps[i] == PublishOf(channel, cmds[i])
  {
    if cmds == [] then []
    else PublishAll(channel, cmds[..|cmds| - 1]) + [PublishOf(channel, cmds[|cmds| - 1])]
  }

  /** The send thread: one publish per queued command, in fifo order, each
      with the outcome `outcomes[i]`. A failed publish is reported (its
      position lands in `failed`) and the loop goes on with the next command;
      nothing is retried. */
  method SendLoop(outgoing: seq<PlayerCmd>, channel: string, outcomes: seq<Result<(), ClientError>>)
    returns (calls: seq<Publication>, failed: seq<nat>)
    requires |outcomes| == |outgoing|
    ensures calls == PublishAll(channel, outgoing)
    ensures forall k: nat :: k in failed <==> k < |outgoing| && outcomes[k].Err?
    ensures forall a, b :: 0 <= a < b < |failed| ==> failed[a] < failed[b]
  {
    calls, failed := [], [];
    for i := 0 to |outgoing|
      invariant calls == PublishAll(channel, outgoing[..i])
      invariant forall k: nat :: k in failed <==> k < i && outcomes[k].Err?
      invariant forall a, b :: 0 <= a < b < |failed| ==> failed[a] < failed[b]
      invariant forall a :: 0 <= a < |failed| ==> failed[a] < i
    {
      var cmd := outgoing[i];
      calls := calls + [PublishOf(channel, cmd)];
      match outcomes[i]
      case Ok(_) =>
      case Err(_) => failed := failed + [i];
      assert outgoing[..i + 1][..i] == outgoing[..i];
    }
    assert outgoing[..|outgoing|] == outgoing;
  }

  /** Three commands sent through a fresh handle are published in the order
      they were sent, whatever the publish outcomes. */
  method FifoScenario(username: string, random: uint32, name: string, channel: string,
                      a: PlayerCmd, b: PlayerCmd, c: PlayerCmd,
                      outcomes: seq<Result<(), ClientError>>)
    returns (calls: seq<Publication>)
    requires |outcomes| == 3
    ensures calls == [PublishOf(channel, a), PublishOf(channel, b), PublishOf(channel, c)]
  {
    var handle := new NetPlayerHandle.Start(username, random, name, channel);
    handle.SendCommand(a);
    handle.SendCommand(b);
    handle.SendCommand(c);
    var failed;
    calls, failed := SendLoop(handle.outgoing, handle.channel, outcomes);
  }

  // ----- the receive loop -----

  /** Why the receive thread stopped: the `expect` on a connection error, or
      indexing the first byte of an empty payload. */
  datatype Panic = ConnectionClosed | EmptyPayload

  /** What the receive loop does with one notification. */
  datatype Reaction = Ignore | Dispatch(cmd: PlayerCmd) | Abort(reason: Panic)

  /** `n` is an incoming publish on the channel. */
  predicate IsPublishOn(n: Notification, channel: string)
  {
    n.Ok? && n.value.Incoming? && n.value.packet.Publish? && n.value.packet.topic == channel
  }

  /** The per-notification rule: only a publish on the channel is looked at,
      and of its payload only the first byte. It dispatches exactly the
      publishes on the channel whose first byte decodes, and aborts exactly
      on a connection error or an empty payload on the channel. */
  function React(n: Notification, channel: string): (r: Reaction)
    ensures r.Dispatch? <==>
      IsPublishOn(n, channel) && |n.value.packet.payload| > 0 && TryFrom(n.value.packet.payload[0]).Ok?
    ensures r.Dispatch? ==> TryFrom(n.value.packet.payload[0]) == Ok(r.cmd)
    ensures r.Abort? <==> n.Err? || (IsPublishOn(n, channel) && |n.value.packet.payload| == 0)
    ensures r.Abort? ==> r.reason == (if n.Err? then ConnectionClosed else EmptyPayload)
  {
    match n
    case Err(_) => Abort(ConnectionClosed)
    case Ok(Incoming(Publish(topic, payload))) =>
      if topic != channel then Ignore
      else if |payload| == 0 then Abort(EmptyPayload)
      else
        (match TryFrom(payload[0])
         case Ok(cmd) => Dispatch(cmd)
         case Err(_) => Ignore)
    case Ok(_) => Ignore
  }

  /** The publish notification for a topic and a payload. */
  function Published(topic: string, payload: seq<byte>): Notification
  {
    Ok(Incoming(Publish(topic, payload)))
  }

  /** A connection error ends the loop. */
  lemma ConnectionErrorAborts(channel: string)
    ensures React(Err(ConnectionError), channel) == Abort(ConnectionClosed)
  {
  }

  /** Anything but an incoming publish is ignored. */
  lemma NonPublishIgnored(e: Event, channel: string)
    requires !(e.Incoming? && e.packet.Publish?)
    ensures React(Ok(e), channel) == Ignore
  {
  }

  /** A publish on another topic is ignored, whatever its payload. */
  lemma OtherTopicIgnored(topic: string, payload: seq<byte>, channel: string)
    requires topic != channel
    ensures React(Published(topic, payload), channel) == Ignore
  {
  }

  /** On the channel, a first byte that is not a command is ignored. */
  lemma InvalidByteIgnored(payload: seq<byte>, channel: string)
    requires |payload| > 0 && payload[0] >= NUM_PLAYER_CMDS
    ensures React(Published(channel, payload), channel) == Ignore
  {
  }

  /** On the channel, a valid first byte dispatches its command. */
  lemma ValidByteDispatched(cmd: PlayerCmd, rest: seq<byte>, channel: string)
    ensures React(Published(channel, [Encode(cmd)] + rest), channel) == Dispatch(cmd)
  {
  }

  /** The bytes after the first are never examined. */
  lemma OnlyFirstByteRead(b: byte, rest1: seq<byte>, rest2: seq<byte>, topic: string, channel: string)
    ensures React(Published(topic, [b] + rest1), channel) == React(Published(topic, [b] + rest2), channel)
  {
  }

  /** One `perform` call made by the receive loop. */
  datatype Delivery = Delivery(player: string, cmd: PlayerCmd, outcome: Performed)

  /** The receive loop's state: the perform calls made so far, and why it
      stopped, if it has. */
  datatype RecvState = RecvState(performed: seq<Delivery>, stopped: Option<Panic>)

  /** One step of the receive loop; the k-th perform call sees the players
      on the bus as `buses(k)`, since every call to `perform` lists them
      afresh. A stopped loop takes no more steps; the calls made so far are
      never changed, at most one is added, and only an aborting notification
      stops the loop, whatever `perform` returns. */
  function Advance(s: RecvState, n: Notification, channel: string, player: string, buses: nat -> Bus): (r: RecvState)
    ensures s.stopped.Some? ==> r == s
    ensures |s.performed| <= |r.performed| <= |s.performed| + 1
    ensures r.performed[..|s.performed|] == s.performed
    ensures s.stopped.None? ==> (r.stopped.Some? <==> React(n, channel).Abort?)
    ensures s.stopped.None? && React(n, channel).Abort? ==> r.stopped == Some(React(n, channel).reason)
    ensures |r.performed| == |s.performed| + 1 <==> s.stopped.None? && React(n, channel).Dispatch?
    ensures s.stopped.None? && React(n, channel).Dispatch? ==>
      r.performed[|s.performed|] ==
        Delivery(player, React(n, channel).cmd, Perform(buses(|s.performed|), player, React(n, channel).cmd))
  {
    if s.stopped.Some? then s
    else
      match React(n, channel)
      case Ignore => s
      case Dispatch(cmd) => RecvState(s.performed + [Delivery(player, cmd, Perform(buses(|s.performed|), player, cmd))], None)
      case Abort(p) => RecvState(s.performed, Some(p))
  }

  /** The receive loop over a finite prefix of the notification stream, the
      k-th perform call seeing the bus as `buses(k)`. Every perform call is
      made with the configured player and has the outcome `perform` gives. */
  function Relay(events: seq<Notification>, channel: string, player: string, buses: nat -> Bus): (r: RecvState)
    ensures |r.performed| <= |events|
    ensures forall i :: 0 <= i < |r.performed| ==>
      r.performed[i].player == player && r.performed[i].outcome == Perform(buses(i), player, r.performed[i].cmd)
  {
    if events == [] then RecvState([], None)
    else Advance(Relay(events[..|events| - 1], channel, player, buses), events[|events| - 1], channel, player, buses)
  }

  lemma RelaySnoc(events: seq<Notification>, n: Notification, channel: string, player: string, buses: nat -> Bus)
    ensures Relay(events + [n], channel, player, buses) == Advance(Relay(events, channel, player, buses), n, channel, player, buses)
  {
  }

  /** Once the loop has stopped, later notifications change nothing. */
  lemma {:induction false} RelayStoppedIsFinal(events: seq<Notification>, later: seq<Notification>,
                                               channel: string, player: string, buses: nat -> Bus)
    requires Relay(events, channel, player, buses).stopped.Some?
    ensures Relay(events + later, channel, player, buses) == Relay(events, channel, player, buses)
    decreases |later|
  {
    if later == [] {
      assert events + later == events;
    } else {
      var init := later[..|later| - 1];
      RelayStoppedIsFinal(events, init, channel, player, buses);
      assert events + later == (events + init) + [later[|later| - 1]];
      RelaySnoc(events + init, later[|later| - 1], channel, player, buses);
    }
  }

  /** An ignored notification can be dropped from the stream without any
      change to the perform calls or to how the loop ends. */
  lemma {:induction false} RelayIgnoredInvisible(before: seq<Notification>, n: Notification, after: seq<Notification>,
                                                 channel: string, player: string, buses: nat -> Bus)
    requires React(n, channel) == Ignore
    ensures Relay(before + [n] + after, channel, player, buses) == Relay(before + after, channel, player, buses)
    decreases |after|
  {
    if after == [] {
      assert before + [n] + after == before + [n];
      assert before + after == before;
      RelaySnoc(before, n, channel, player, buses);
    } else {
      var init := after[..|after| - 1];
      var last := after[|after| - 1];
      RelayIgnoredInvisible(before, n, init, channel, player, buses);
      assert before + [n] + after == (before + [n] + init) + [last];
      assert before + after == (before + init) + [last];
      RelaySnoc(before + [n] + init, last, channel, player, buses);
      RelaySnoc(before + init, last, channel, player, buses);
    }
  }

  /** The loop stops exactly when some notification aborts it, and then for
      the reason of the first such notification; perform errors never stop it. */
  lemma {:induction false} RelayStopsOnlyOnAbort(events: seq<Notification>, channel: string, player: string, buses: nat -> Bus)
    ensures Relay(events, channel, player, buses).stopped.None? <==>
      forall i :: 0 <= i < |events| ==> !React(events[i], channel).Abort?
    ensures Relay(events, channel, player, buses).stopped.Some? ==>
      exists i :: 0 <= i < |events| && React(events[i], channel) == Abort(Relay(events, channel, player, buses).stopped.value)
        && forall j :: 0 <= j < i ==> !React(events[j], channel).Abort?
    decreases |events|
  {
    if events != [] {
      var init := events[..|events| - 1];
      var last := events[|events| - 1];
      RelayStopsOnlyOnAbort(init, channel, player, buses);
      assert events == init + [last];
      RelaySnoc(init, last, channel, player, buses);
      assert forall i :: 0 <= i < |init| ==> init[i] == events[i];
      var r := Relay(events, channel, player, buses);
      if Relay(init, channel, player, buses).stopped.None? && r.stopped.Some? {
        assert React(events[|events| - 1], channel) == Abort(r.stopped.value);
      }
    }
  }

  /** The commands of a sequence of perform calls. */
  function CommandsOf(ds: seq<Delivery>): (cmds: seq<PlayerCmd>)
    ensures |cmds| == |ds|
    ensures forall i :: 0 <= i < |ds| ==> cmds[i] == ds[i].cmd
  {
    if ds == [] then [] else CommandsOf(ds[..|ds| - 1]) + [ds[|ds| - 1].cmd]
  }

  lemma CommandsOfSnoc(ds: seq<Delivery>, d: Delivery)
    ensures CommandsOf(ds + [d]) == CommandsOf(ds) + [d.cmd]
  {
  }

  /** An independent account of what the loop dispatches: the decoded first
      bytes of the publishes on the channel, front to back. */
  function Decoded(events: seq<Notification>, channel: string): seq<PlayerCmd>
  {
    if events == [] then []
    else
      (match React(events[0], channel)
       case Dispatch(cmd) => [cmd]
       case _ => [])
      + Decoded(events[1..], channel)
  }

  lemma {:induction false} DecodedSnoc(events: seq<Notification>, n: Notification, channel: string)
    ensures Decoded(events + [n], channel) == Decoded(events, channel) + Decoded([n], channel)
    decreases |events|
  {
    if events == [] {
      assert events + [n] == [n];
    } else {
      assert (events + [n])[0] == events[0];
      assert (events + [n])[1..] == events[1..] + [n];
      DecodedSnoc(events[1..], n, channel);
    }
  }

  /** When nothing aborts the loop, it makes one perform call per decodable
      publish on the channel, in stream order, and no other. */
  lemma {:induction false} RelayPerformsDecoded(events: seq<Notification>, channel: string, player: string, buses: nat -> Bus)
    requires forall i :: 0 <= i < |events| ==> !React(events[i], channel).Abort?
    ensures Relay(events, channel, player, buses).stopped.None?
    ensures CommandsOf(Relay(events, channel, player, buses).performed) == Decoded(events, channel)
    decreases |events|
  {
    if events != [] {
      var init := events[..|events| - 1];
      var last := events[|events| - 1];
      assert events == init + [last];
      assert forall i :: 0 <= i < |init| ==> init[i] == events[i];
      RelayPerformsDecoded(init, channel, player, buses);
      RelaySnoc(init, last, channel, player, buses);
      DecodedSnoc(init, last, channel);
      var before := Relay(init, channel, player, buses).performed;
      assert [last][1..] == [];
      match React(last, channel)
      case Ignore =>
        assert Decoded([last], channel) == [];
      case Dispatch(cmd) =>
        assert Decoded([last], channel) == [cmd];
        CommandsOfSnoc(before, Delivery(player, cmd, Perform(buses(|before|), player, cmd)));
    }
  }

  /** When the loop is aborted, by the notification at `i` that is the first
      to abort it, it has made exactly the perform calls for the decodable
      publishes on the channel before `i`, in order, and stops for that
      notification's reason. */
  lemma RelayPerformsDecodedUntilAbort(events: seq<Notification>, i: nat, channel: string, player: string, buses: nat -> Bus)
    requires i < |events| && React(events[i], channel).Abort?
    requires forall j :: 0 <= j < i ==> !React(events[j], channel).Abort?
    ensures Relay(events, channel, player, buses).stopped == Some(React(events[i], channel).reason)
    ensures CommandsOf(Relay(events, channel, player, buses).performed) == Decoded(events[..i], channel)
  {
    var before := events[..i];
    var upto := events[..i + 1];
    assert forall j :: 0 <= j < |before| ==> before[j] == events[j];
    RelayPerformsDecoded(before, channel, player, buses);
    var sBefore := Relay(before, channel, player, buses);
    assert upto == before + [events[i]];
    RelaySnoc(before, events[i], channel, player, buses);
    var sUpto := Relay(upto, channel, player, buses);
    assert sUpto == RecvState(sBefore.performed, Some(React(events[i], channel).reason));
    RelayStoppedIsFinal(upto, events[i + 1..], channel, player, buses);
    assert upto + events[i + 1..] == events;
  }

  /** The notification the broker delivers for a publication on the channel
      this client subscribes to. */
  function Echo(p: Publication): Notification
  {
    Published(p.topic, p.payload)
  }

  function EchoAll(ps: seq<Publication>): (ns: seq<Notification>)
    ensures |ns| == |ps|
    ensures forall i :: 0 <= i < |ps| ==> ns[i] == Echo(ps[i])
  {
    if ps == [] then [] else EchoAll(ps[..|ps| - 1]) + [Echo(ps[|ps| - 1])]
  }

  /** The echo of a command's publication dispatches that command. */
  lemma EchoDispatches(channel: string, cmd: PlayerCmd)
    ensures React(Echo(PublishOf(channel, cmd)), channel) == Dispatch(cmd)
  {
    var p := PublishOf(channel, cmd);
    assert p.payload == [p.payload[0]];
  }

  /** A stream in which every notification dispatches decodes to exactly
      those commands. */
  lemma {:induction false} DecodedAllDispatch(events: seq<Notification>, cmds: seq<PlayerCmd>, channel: string)
    requires |events| == |cmds|
    requires forall i :: 0 <= i < |events| ==> React(events[i], channel) == Dispatch(cmds[i])
    ensures Decoded(events, channel) == cmds
    decreases |events|
  {
    if events != [] {
      DecodedAllDispatch(events[1..], cmds[1..], channel);
      assert cmds == [cmds[0]] + cmds[1..];
    }
  }

  /** A client receiving its own publications back carries out every one of
      them, in order, exactly as it would a peer's: there is no filtering of
      self-delivered commands, and the loop does not stop. */
  lemma {:induction false} SelfDeliveryPerformed(cmds: seq<PlayerCmd>, channel: string, player: string, buses: nat -> Bus)
    ensures Relay(EchoAll(PublishAll(channel, cmds)), channel, player, buses).stopped.None?
    ensures CommandsOf(Relay(EchoAll(PublishAll(channel, cmds)), channel, player, buses).performed) == cmds
  {
    var events := EchoAll(PublishAll(channel, cmds));
    forall i | 0 <= i < |events|
      ensures React(events[i], channel) == Dispatch(cmds[i])
    {
      EchoDispatches(channel, cmds[i]);
    }
    DecodedAllDispatch(events, cmds, channel);
    RelayPerformsDecoded(events, channel, player, buses);
  }

  /** A Play on the channel, with a player of the configured identity first
      found at position `k`, makes exactly one perform call, which invokes
      `play` on that player and nothing else. */
  lemma PlayScenario(players: seq<Player>, name: string, channel: string, k: nat, buses: nat -> Bus)
    requires buses(0) == Ok(players) && IsFirstWith(players, name, k)
    ensures Relay([Published(channel, [Encode(Play)])], channel, name, buses).performed ==
      [Delivery(name, Play, Performed(Some(Invocation(k, PlayCall)),
                                      if PlayCall in players[k].refuses then Err(DBusError) else Ok(())))]
  {
    var r := Perform(Ok(players), name, Play);
    assert r.invoked.Some?;
    var found := r.invoked.value.player;
    assert found == k;
    ValidByteDispatched(Play, [], channel);
    assert [Encode(Play)] + [] == [Encode(Play)];
    RelaySnoc([], Published(channel, [Encode(Play)]), channel, name, buses);
    assert [] + [Published(channel, [Encode(Play)])] == [Published(channel, [Encode(Play)])];
  }

  /** The receive thread over a finite stream of notifications. */
  method RecvLoop(events: seq<Notification>, channel: string, player: string, buses: nat -> Bus)
    returns (performed: seq<Delivery>, stopped: Option<Panic>)
    ensures RecvState(performed, stopped) == Relay(events, channel, player, buses)
  {
    performed, stopped := [], None;
    var i := 0;
    while i < |events|
      invariant 0 <= i <= |events|
      invariant Relay(events[..i], channel, player, buses) == RecvState(performed, None)
    {
      var n := events[i];
      RelaySnoc(events[..i], n, channel, player, buses);
      assert events[..i + 1] == events[..i] + [n];
      var panic: Option<Panic> := None;
      ghost var before := RecvState(performed, None);
      ghost var reaction := React(n, channel);
      match n {
        case Err(_) =>
          assert reaction == Abort(ConnectionClosed);
          panic := Some(ConnectionClosed);
        case Ok(event) =>
          if event.Incoming? && event.packet.Publish? {
            var topic, payload := event.packet.topic, event.packet.payload;
            if topic == channel {
              if |payload| == 0 {
                assert reaction == Abort(EmptyPayload);
                panic := Some(EmptyPayload);
              } else {
                match TryFrom(payload[0]) {
                  case Ok(cmd) =>
                    assert reaction == Dispatch(cmd);
                    var outcome := Perform(buses(|performed|), player, cmd);
                    performed := performed + [Delivery(player, cmd, outcome)];
                  case Err(_) =>
                    assert reaction == Ignore;
                }
              }
            } else {
              assert reaction == Ignore;
            }
          } else {
            assert reaction == Ignore;
          }
      }
      assert Advance(before, n, channel, player, buses) == RecvState(performed, panic);
      if panic.Some? {
        stopped := panic;
        RelayStoppedIsFinal(events[..i + 1], events[i + 1..], channel, player, buses);
        assert events[..i + 1] + events[i + 1..] == events;
        return;
      }
      i := i + 1;
    }
    assert events[..i] == events;
  }

  /** The receive thread of a fresh handle works on the handle's channel and
      player name, as `start` passes them to it. */
  method StartThenReceive(username: string, random: uint32, name: string, channel: string,
                          events: seq<Notification>, buses: nat -> Bus)
    returns (performed: seq<Delivery>, stopped: Option<Panic>)
    ensures RecvState(performed, stopped) == Relay(events, channel, name, buses)
  {
    var handle := new NetPlayerHandle.Start(username, random, name, channel);
    performed, stopped := RecvLoop(events, handle.channel, handle.player, buses);
  }
}
