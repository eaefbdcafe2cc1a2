/** Two ends of the relay channel over a network that drops, duplicates, reorders and reflects whole
    frames (src/relay.rs:49-54, 208-247; src/relay-client.js:643-655, 774-796). */
module RelayChannel {
  import opened Text
  import opened Relay

  datatype Side = Daemon | Client

  function Peer(side: Side): Side {
    if side == Daemon then Client else Daemon
  }

  /** `sent` and `accepted` hold the plaintexts, in order. A failed decryption closes an end for good. */
  datatype End = End(
    runtime: Runtime, keys: Keys, sendSeq: nat, recvSeq: nat, open: bool, sent: seq<string>, accepted: seq<string>)

  /** The network keeps every frame; `from` and `index` say which one it is, and no end looks at them. */
  datatype Packet = Packet(from: Side, index: nat, frame: Frame)

  datatype Channel = Channel(daemon: End, client: End, wire: seq<Packet>)

  datatype Event = Send(side: Side, text: string) | Deliver(side: Side, packet: nat)

  function At(c: Channel, side: Side): End {
    if side == Daemon then c.daemon else c.client
  }

  function With(c: Channel, side: Side, end: End): (r: Channel)
    ensures At(r, side) == end && At(r, Peer(side)) == At(c, Peer(side)) && r.wire == c.wire
  {
    if side == Daemon then c.(daemon := end) else c.(client := end)
  }

  function Fresh(runtime: Runtime, keys: Keys): End {
    End(runtime, keys, 0, 0, true, [], [])
  }

  function Established(shared: Shared, daemon: Runtime, client: Runtime): Channel {
    Channel(Fresh(daemon, FromShared(shared, true)), Fresh(client, FromShared(shared, false)), [])
  }

  predicate Possible(c: Channel, e: Event) {
    e.Deliver? ==> e.packet < |c.wire|
  }

  function Step(c: Channel, e: Event): Channel
    requires Possible(c, e)
  {
    if !At(c, e.side).open then c
    else match e
      case Send(side, text) => Sends(c, side, text)
      case Deliver(side, i) => With(c, side, Received(At(c, side), c.wire[i].frame))
  }

  function Sends(c: Channel, side: Side, text: string): Channel {
    var end := At(c, side);
    var packet := Packet(side, |end.sent|, Encrypted(end.keys, end.sendSeq, text));
    var next := end.(sendSeq := Next(end.runtime, end.sendSeq), sent := end.sent + [text]);
    With(c, side, next).(wire := c.wire + [packet])
  }

  function Received(end: End, frame: Frame): End {
    var next := if Opened(end.keys, end.recvSeq, frame).Some? then Next(end.runtime, end.recvSeq) else end.recvSeq;
    match Decrypted(end.runtime, end.keys, end.recvSeq, frame)
    case Ok(text) => end.(recvSeq := next, accepted := end.accepted + [text])
    case Err => end.(recvSeq := next, open := false)
  }

  predicate IsRun(c: Channel, events: seq<Event>)
    decreases |events|
  {
    events == [] || (Possible(c, events[0]) && IsRun(Step(c, events[0]), events[1..]))
  }

  function After(c: Channel, events: seq<Event>): Channel
    requires IsRun(c, events)
    decreases |events|
  {
    if events == [] then c else After(Step(c, events[0]), events[1..])
  }

  // --- The invariant -----------------------------------------------------------------

  predicate Mirrored(daemon: Keys, client: Keys) {
    daemon.send == client.recv && daemon.recv == client.send && daemon.send != daemon.recv
  }

  predicate Counted(end: End) {
    && end.sendSeq == Count(end.runtime, |end.sent|)
    && end.recvSeq == Count(end.runtime, |end.accepted|)
  }

  /** A packet holds what its end sealed for its number. */
  predicate PacketKept(end: End, p: Packet) {
    p.index < |end.sent| && p.frame == Encrypted(end.keys, Count(end.runtime, p.index), end.sent[p.index])
  }

  ghost predicate WireKept(c: Channel) {
    && (forall p <- c.wire :: PacketKept(At(c, p.from), p))
    && (forall i, j :: 0 <= i < j < |c.wire| && c.wire[i].from == c.wire[j].from ==> c.wire[i].index < c.wire[j].index)
  }

  ghost predicate OnWire(wire: seq<Packet>, side: Side, k: nat) {
    exists i :: 0 <= i < |wire| && wire[i].from == side && wire[i].index == k
  }

  ghost predicate AllOnWire(c: Channel, side: Side) {
    forall k: nat :: k < |At(c, side).sent| ==> OnWire(c.wire, side, k)
  }

  /** Neither end's counter for this direction has come back to a number it had. */
  predicate InCapacity(c: Channel, from: Side) {
    var frames := |At(c, from).sent|;
    frames < Capacity(At(c, from).runtime) && frames < Capacity(At(c, Peer(from)).runtime)
  }

  /** What one side accepted is a prefix of what the other sent. */
  predicate PrefixKept(c: Channel, from: Side) {
    InCapacity(c, from) ==> At(c, Peer(from)).accepted <= At(c, from).sent
  }

  ghost predicate Inv(c: Channel) {
    && Mirrored(c.daemon.keys, c.client.keys)
    && Counted(c.daemon) && Counted(c.client)
    && WireKept(c)
    && AllOnWire(c, Daemon) && AllOnWire(c, Client)
    && PrefixKept(c, Daemon) && PrefixKept(c, Client)
  }

  lemma EstablishedKept(shared: Shared, daemon: Runtime, client: Runtime)
    ensures Inv(Established(shared, daemon, client))
  {
  }

  /** A frame is accepted exactly when it is the peer's next one; any other closes the end. */
  lemma AcceptsIff(c: Channel, side: Side, i: nat)
    requires Inv(c) && i < |c.wire| && InCapacity(c, Peer(side))
    ensures var end, p := At(c, side), c.wire[i];
            Received(end, p.frame) ==
            if p.from == Peer(side) && p.index == |end.accepted| then
              end.(recvSeq := Next(end.runtime, end.recvSeq), accepted := At(c, Peer(side)).sent[..p.index + 1])
            else end.(open := false)
  {
    hide Count, AllOnWire;
    var end, p := At(c, side), c.wire[i];
    var sender := At(c, p.from);
    assert PacketKept(sender, p);
    assert PrefixKept(c, Peer(side)) && Counted(end);
    if p.from == Peer(side) {
      CountExact(end.runtime, |end.accepted|);
      CountExact(sender.runtime, p.index);
      CountExact(end.runtime, p.index);
    }
    if p.from == Peer(side) {
      assert sender.keys.send == end.keys.recv;
      if p.index == |end.accepted| {
        assert sender.sent[..p.index + 1] == end.accepted + [sender.sent[p.index]];
      }
    }
  }

  lemma SendKeepsWire(c: Channel, side: Side, text: string)
    requires WireKept(c) && Counted(At(c, side))
    ensures WireKept(Sends(c, side, text))
  {
    hide Count, Encrypted;
    var t := Sends(c, side, text);
    forall p <- t.wire ensures PacketKept(At(t, p.from), p) {
      assert p in c.wire ==> PacketKept(At(c, p.from), p);
    }
    assert forall i :: 0 <= i < |c.wire| ==> PacketKept(At(c, c.wire[i].from), c.wire[i]);
  }

  lemma SendKeepsAll(c: Channel, side: Side, text: string, s: Side)
    requires AllOnWire(c, s)
    ensures AllOnWire(Sends(c, side, text), s)
  {
    hide OnWire;
    var t := Sends(c, side, text);
    forall k: nat | k < |At(t, s).sent| ensures OnWire(t.wire, s, k) {
      if s == side && k == |At(c, side).sent| {
        OnWireAt(t.wire, |c.wire|);
      } else {
        OnWireGrows(c.wire, t.wire[|c.wire|], s, k);
      }
    }
  }

  lemma SendKeeps(c: Channel, side: Side, text: string)
    requires Inv(c)
    ensures Inv(Sends(c, side, text))
  {
    hide Count, Encrypted, WireKept, AllOnWire;
    SendKeepsWire(c, side, text);
    SendKeepsAll(c, side, text, Daemon);
    SendKeepsAll(c, side, text, Client);
    SendCounts(At(c, side));
  }

  lemma SendCounts(end: End)
    ensures Next(end.runtime, Count(end.runtime, |end.sent|)) == Count(end.runtime, |end.sent| + 1)
  {
  }

  lemma OnWireAt(wire: seq<Packet>, i: nat)
    requires i < |wire|
    ensures OnWire(wire, wire[i].from, wire[i].index)
  {
  }

  lemma OnWireGrows(wire: seq<Packet>, p: Packet, side: Side, k: nat)
    ensures OnWire(wire, side, k) ==> OnWire(wire + [p], side, k)
  {
    if OnWire(wire, side, k) {
      var i :| 0 <= i < |wire| && wire[i].from == side && wire[i].index == k;
      assert (wire + [p])[i] == wire[i];
    }
  }

  /** A packet is accepted or closes the end; none moves the counter without being accepted. */
  lemma ReceivedCases(sender: End, end: End, p: Packet)
    requires PacketKept(sender, p)
    ensures var r := Received(end, p.frame);
            r == end.(open := false) ||
            r == end.(recvSeq := Next(end.runtime, end.recvSeq), accepted := end.accepted + [sender.sent[p.index]])
  {
    hide Count, Next;
  }

  lemma DeliverKeeps(c: Channel, side: Side, i: nat)
    requires Inv(c) && i < |c.wire|
    ensures Inv(With(c, side, Received(At(c, side), c.wire[i].frame)))
  {
    hide Count, Next, Received, OnWire, Encrypted;
    var p := c.wire[i];
    var end := Received(At(c, side), p.frame);
    var t := With(c, side, end);
    assert PacketKept(At(c, p.from), p);
    ReceivedCases(At(c, p.from), At(c, side), p);
    ReceiveCounts(At(c, side));
    assert Counted(end);
    if InCapacity(c, Peer(side)) {
      AcceptsIff(c, side, i);
    }
    forall q <- t.wire ensures PacketKept(At(t, q.from), q) {
      assert PacketKept(At(c, q.from), q);
    }
  }

  lemma ReceiveCounts(end: End)
    ensures Next(end.runtime, Count(end.runtime, |end.accepted|)) == Count(end.runtime, |end.accepted| + 1)
  {
  }

  lemma {:induction false} RunKeeps(c: Channel, events: seq<Event>)
    requires Inv(c) && IsRun(c, events)
    ensures Inv(After(c, events))
    decreases |events|
  {
    hide Inv;
    if events != [] {
      match events[0] {
        case Send(side, text) => SendKeeps(c, side, text);
        case Deliver(side, i) => DeliverKeeps(c, side, i);
      }
      RunKeeps(Step(c, events[0]), events[1..]);
    }
  }

  // --- What it means for the two ends ---------------------------------------------------

  /** Whatever the network does, each side has accepted a prefix of what the other sent. */
  lemma AcceptedIsPrefix(shared: Shared, daemon: Runtime, client: Runtime, events: seq<Event>, side: Side)
    requires IsRun(Established(shared, daemon, client), events)
    ensures var c := After(Established(shared, daemon, client), events);
            InCapacity(c, Peer(side)) ==> At(c, side).accepted <= At(c, Peer(side)).sent
  {
    EstablishedKept(shared, daemon, client);
    RunKeeps(Established(shared, daemon, client), events);
    assert PrefixKept(After(Established(shared, daemon, client), events), Peer(side));
  }

  /** No key and nonce are used for two frames, as long as each end sends at most its capacity. */
  lemma NonceUsedOnce(shared: Shared, daemon: Runtime, client: Runtime, events: seq<Event>, i: nat, j: nat)
    requires IsRun(Established(shared, daemon, client), events)
    requires i < j < |After(Established(shared, daemon, client), events).wire|
    ensures var c := After(Established(shared, daemon, client), events);
            |At(c, c.wire[j].from).sent| <= Capacity(At(c, c.wire[j].from).runtime) ==>
              match (c.wire[i].frame, c.wire[j].frame)
              case (Frame(_, _, a), Frame(_, _, b)) => a.key != b.key || a.nonce != b.nonce
              case _ => false
  {
    hide IsRun, After;
    EstablishedKept(shared, daemon, client);
    RunKeeps(Established(shared, daemon, client), events);
    var c := After(Established(shared, daemon, client), events);
    var p, q := c.wire[i], c.wire[j];
    assert PacketKept(At(c, p.from), p) && PacketKept(At(c, q.from), q);
    NoncesDifferIff(At(c, q.from).runtime, |At(c, q.from).sent|);
  }

  /** Nothing is stuck: an end that is still open can be brought to have accepted all that was sent. */
  lemma {:induction false} CatchesUp(c: Channel, side: Side) returns (events: seq<Event>, t: Channel)
    requires Inv(c) && InCapacity(c, Peer(side)) && At(c, side).open
    ensures IsRun(c, events) && t == After(c, events) && Inv(t)
    ensures At(t, side).accepted == At(t, Peer(side)).sent == At(c, Peer(side)).sent
    decreases |At(c, Peer(side)).sent| - |At(c, side).accepted|
  {
    hide Decrypted, Count, Counted, WireKept, Inv;
    PrefixOf(c, side);
    var next := |At(c, side).accepted|;
    if next == |At(c, Peer(side)).sent| {
      events, t := [], c;
    } else {
      var i := FindPacket(c, Peer(side), next);
      AcceptsIff(c, side, i);
      DeliverKeeps(c, side, i);
      var d := Step(c, Deliver(side, i));
      var rest;
      rest, t := CatchesUp(d, side);
      events := [Deliver(side, i)] + rest;
      assert events[1..] == rest;
    }
  }

  lemma PrefixOf(c: Channel, side: Side)
    requires Inv(c) && InCapacity(c, Peer(side))
    ensures At(c, side).accepted <= At(c, Peer(side)).sent
  {
    assert PrefixKept(c, Peer(side));
  }

  lemma FindPacket(c: Channel, from: Side, k: nat) returns (i: nat)
    requires Inv(c) && k < |At(c, from).sent|
    ensures i < |c.wire| && c.wire[i].from == from && c.wire[i].index == k
  {
    assert OnWire(c.wire, from, k);
    i :| i < |c.wire| && c.wire[i].from == from && c.wire[i].index == k;
  }
}
