/** The relay handshake (src/relay.rs:58-160, 249-297; src/relay-client.js:735-771): ephemeral public
    keys, a proof of the shared token from the client first and then from the daemon, and the
    proof variant that the two sides agree on. Hash and key agreement are ideal. The relay is not
    trusted: it may deliver, repeat, reorder, reflect or withhold whatever was sent, and make up
    public keys, variant markers and errors, but not a proof that nobody sent. */
module RelayHandshake {
  import opened Text
  import opened Relay
  import RelayChannel

  /** A key pair's public half, or a low-order point. */
  datatype Public = Pub(secret: nat) | LowOrder

  function Agree(secret: nat, theirs: Public): Shared {
    match theirs
    case LowOrder => Zero
    case Pub(other) => if secret <= other then Pair(secret, other) else Pair(other, secret)
  }

  /** A hash of the token and both public keys, stretched or not. */
  datatype Proof = Proof(stretched: bool, token: string, mine: Public, theirs: Public)

  /** `kdf` is the marker that offers, or takes up, the stretched proof. */
  datatype Message = Hello(public: Public, kdf: bool) | Proves(proof: Proof) | Refused

  /** What a side takes from the other's first message. */
  datatype Heard = Heard(theirs: Public, stretch: bool)

  datatype Phase = AwaitHello | AwaitProof | Done(keys: Keys) | Failed

  datatype Party = Party(secret: nat, token: string, heard: Option<Heard>, phase: Phase)

  /** The JavaScript client does not look at the share; the Rust client refuses the all-zero one. */
  datatype State = State(daemon: Party, client: Party, clientRuntime: Runtime, wire: seq<Message>)

  function Start(daemonSecret: nat, daemonToken: string, clientSecret: nat, clientToken: string,
                 runtime: Runtime): State {
    State(Party(daemonSecret, daemonToken, None, AwaitHello), Party(clientSecret, clientToken, None, AwaitHello),
          runtime, [Hello(Pub(clientSecret), true)])
  }

  function Own(p: Party, h: Heard): Proof {
    Proof(h.stretch, p.token, Pub(p.secret), h.theirs)
  }

  function Expected(p: Party, h: Heard): Proof {
    Proof(h.stretch, p.token, h.theirs, Pub(p.secret))
  }

  function Complete(p: Party, theirs: Public, daemonSide: bool, checked: bool): Party {
    var shared := Agree(p.secret, theirs);
    p.(phase := if checked && shared == Zero then Failed else Done(FromShared(shared, daemonSide)))
  }

  /** The daemon proves itself only once the client has. */
  function DaemonTakes(d: Party, m: Message): (Party, seq<Message>) {
    match (d.phase, m)
    case (AwaitHello, Hello(theirs, kdf)) =>
      (d.(heard := Some(Heard(theirs, kdf)), phase := AwaitProof), [Hello(Pub(d.secret), kdf)])
    case (AwaitProof, Proves(proof)) =>
      if d.heard.Some? && proof == Expected(d, d.heard.value) then
        (Complete(d, d.heard.value.theirs, true, true), [Proves(Own(d, d.heard.value))])
      else (d.(phase := Failed), [Refused])
    case (Done(_), _) => (d, [])
    case _ => (d.(phase := Failed), [])
  }

  function ClientTakes(c: Party, runtime: Runtime, m: Message): (Party, seq<Message>) {
    match (c.phase, m)
    case (AwaitHello, Hello(theirs, kdf)) =>
      var heard := Heard(theirs, kdf);
      (c.(heard := Some(heard), phase := AwaitProof), [Proves(Own(c, heard))])
    case (AwaitProof, Proves(proof)) =>
      if c.heard.Some? && proof == Expected(c, c.heard.value) then
        (Complete(c, c.heard.value.theirs, false, runtime == Rust), [])
      else (c.(phase := Failed), [])
    case (Done(_), _) => (c, [])
    case _ => (c.(phase := Failed), [])
  }

  datatype Event = ToDaemon(message: Message) | ToClient(message: Message)

  predicate Possible(s: State, e: Event) {
    e.message.Proves? ==> e.message in s.wire
  }

  function Step(s: State, e: Event): State {
    match e
    case ToDaemon(m) =>
      var (party, out) := DaemonTakes(s.daemon, m);
      s.(daemon := party, wire := s.wire + out)
    case ToClient(m) =>
      var (party, out) := ClientTakes(s.client, s.clientRuntime, m);
      s.(client := party, wire := s.wire + out)
  }

  predicate IsRun(s: State, events: seq<Event>)
    decreases |events|
  {
    events == [] || (Possible(s, events[0]) && IsRun(Step(s, events[0]), events[1..]))
  }

  function After(s: State, events: seq<Event>): State
    decreases |events|
  {
    if events == [] then s else After(Step(s, events[0]), events[1..])
  }

  // --- Agreement -----------------------------------------------------------------------

  /** Same token, each other's public key, same proof variant. */
  predicate Agreed(s: State) {
    && s.daemon.token == s.client.token
    && s.daemon.heard.Some? && s.client.heard.Some?
    && s.daemon.heard.value.theirs == Pub(s.client.secret)
    && s.client.heard.value.theirs == Pub(s.daemon.secret)
    && s.daemon.heard.value.stretch == s.client.heard.value.stretch
  }

  /** A proof on the wire is the client's, or the daemon's after agreement. */
  predicate ProofKept(s: State, p: Proof) {
    || (s.client.heard.Some? && p == Own(s.client, s.client.heard.value))
    || (s.daemon.heard.Some? && p == Own(s.daemon, s.daemon.heard.value)
        && Agreed(s) && !s.daemon.phase.AwaitHello? && !s.daemon.phase.AwaitProof?)
  }

  predicate PartyKept(p: Party, daemonSide: bool) {
    && (p.phase == AwaitHello ==> p.heard == None)
    && (p.phase == AwaitProof ==> p.heard.Some?)
    && (p.phase.Done? ==>
          p.heard.Some? && p.phase.keys == FromShared(Agree(p.secret, p.heard.value.theirs), daemonSide))
  }

  /** Was sent its own public key. */
  predicate Reflected(p: Party) {
    p.heard.Some? && p.heard.value.theirs == Pub(p.secret)
  }

  ghost predicate Inv(s: State) {
    && PartyKept(s.daemon, true) && PartyKept(s.client, false)
    && (s.daemon.phase.Done? ==> Agreed(s))
    && (s.client.phase.Done? ==> Agreed(s) || Reflected(s.client))
    && forall m <- s.wire :: m.Proves? ==> ProofKept(s, m.proof)
  }

  lemma StepKeeps(s: State, e: Event)
    requires Inv(s) && Possible(s, e)
    ensures Inv(Step(s, e))
  {
    hide FromShared, Agree;
    var t := Step(s, e);
    forall m <- t.wire | m.Proves? ensures ProofKept(t, m.proof) {
      assert m in s.wire ==> ProofKept(s, m.proof);
    }
  }

  lemma {:induction false} RunKeeps(s: State, events: seq<Event>)
    requires Inv(s) && IsRun(s, events)
    ensures Inv(After(s, events))
    decreases |events|
  {
    hide Inv, Step, Possible;
    if events != [] {
      StepKeeps(s, events[0]);
      RunKeeps(Step(s, events[0]), events[1..]);
    }
  }

  lemma AgreeCommutes(a: nat, b: nat)
    ensures Agree(a, Pub(b)) == Agree(b, Pub(a)) != Zero
  {
  }

  /** When the daemon completes, the sides hold the same token, took each other's public keys, and use
      the same proof variant. So they do when the client completes, unless the key that it was sent is its
      own. Two completed sides hold mirrored keys, so that the channel between them starts in the state
      from which its frames are kept in order. */
  lemma CompletionAgrees(dSecret: nat, dToken: string, cSecret: nat, cToken: string, runtime: Runtime,
                         events: seq<Event>)
    requires IsRun(Start(dSecret, dToken, cSecret, cToken, runtime), events)
    ensures var s := After(Start(dSecret, dToken, cSecret, cToken, runtime), events);
            && (s.daemon.phase.Done? ==> Agreed(s))
            && (s.client.phase.Done? ==>
                  Agreed(s) || (s.client.heard.Some? && s.client.heard.value.theirs == Pub(cSecret)))
            && (s.daemon.phase.Done? && s.client.phase.Done? ==>
                  && RelayChannel.Mirrored(s.daemon.phase.keys, s.client.phase.keys)
                  && s.daemon.phase.keys == FromShared(Agree(dSecret, Pub(cSecret)), true)
                  && s.client.phase.keys == FromShared(Agree(dSecret, Pub(cSecret)), false))
  {
    hide IsRun;
    var start := Start(dSecret, dToken, cSecret, cToken, runtime);
    RunKeeps(start, events);
    Identities(start, events);
    AgreeCommutes(dSecret, cSecret);
  }

  /** The exception is real: a client that is sent its own key back, and then its own proof, completes
      whatever the daemon's token is, though the daemon has taken no part. */
  lemma ReflectionCompletes(dSecret: nat, dToken: string, cSecret: nat, cToken: string, runtime: Runtime)
    ensures var start := Start(dSecret, dToken, cSecret, cToken, runtime);
            var own := Proves(Proof(true, cToken, Pub(cSecret), Pub(cSecret)));
            var events := [ToClient(start.wire[0]), ToClient(own)];
            var s := After(start, events);
            && IsRun(start, events) && s.wire == start.wire + [own]
            && s.client.phase.Done? && s.daemon.phase == AwaitHello
  {
    var start := Start(dSecret, dToken, cSecret, cToken, runtime);
    var own := Proves(Proof(true, cToken, Pub(cSecret), Pub(cSecret)));
    var one := Step(start, ToClient(start.wire[0]));
    assert one.wire[1] == own && own in one.wire;
    AgreeCommutes(cSecret, cSecret);
    TwoEvents(start, ToClient(start.wire[0]), ToClient(own));
  }

  lemma TwoEvents(s: State, e: Event, f: Event)
    ensures After(s, [e, f]) == Step(Step(s, e), f)
    ensures IsRun(s, [e, f]) <==> Possible(s, e) && Possible(Step(s, e), f)
  {
    hide Step, Possible;
    assert [e, f][1..] == [f] && [f][1..] == [];
    assert After(Step(s, e), [f]) == After(Step(Step(s, e), f), []);
    assert IsRun(Step(Step(s, e), f), []);
  }

  lemma {:induction false} Identities(s: State, events: seq<Event>)
    ensures var t := After(s, events); t.daemon.secret == s.daemon.secret && t.client.secret == s.client.secret
    decreases |events|
  {
    if events != [] {
      Identities(Step(s, events[0]), events[1..]);
    }
  }

  /** The daemon lets out nothing made from the token before the client has proved that it knows it:
      a proof that names the daemon first is on the wire only after agreement. */
  lemma DaemonProvesLast(dSecret: nat, dToken: string, cSecret: nat, cToken: string, runtime: Runtime,
                         events: seq<Event>, proof: Proof)
    requires IsRun(Start(dSecret, dToken, cSecret, cToken, runtime), events) && dSecret != cSecret
    requires Proves(proof) in After(Start(dSecret, dToken, cSecret, cToken, runtime), events).wire
    requires proof.mine == Pub(dSecret)
    ensures Agreed(After(Start(dSecret, dToken, cSecret, cToken, runtime), events))
    ensures dToken == cToken
  {
    hide IsRun;
    var start := Start(dSecret, dToken, cSecret, cToken, runtime);
    RunKeeps(start, events);
    Identities(start, events);
    Tokens(start, events);
    assert ProofKept(After(start, events), proof);
  }

  lemma {:induction false} Tokens(s: State, events: seq<Event>)
    ensures var t := After(s, events); t.daemon.token == s.daemon.token && t.client.token == s.client.token
    decreases |events|
  {
    if events != [] {
      Tokens(Step(s, events[0]), events[1..]);
    }
  }

  /** Delivered faithfully, the handshake completes on both sides exactly when the tokens are the
      same, always with the stretched proof; otherwise it fails on both. */
  lemma FaithfulRun(dSecret: nat, dToken: string, cSecret: nat, cToken: string, runtime: Runtime)
    ensures var start := Start(dSecret, dToken, cSecret, cToken, runtime);
            var one := Step(start, ToDaemon(start.wire[0]));
            var two := Step(one, ToClient(one.wire[1]));
            var three := Step(two, ToDaemon(two.wire[2]));
            var four := Step(three, ToClient(three.wire[3]));
            && (dToken == cToken ==>
                  four.daemon.phase.Done? && four.client.phase.Done? && Agreed(four) && four.client.heard.value.stretch)
            && (dToken != cToken ==> four.daemon.phase == four.client.phase == Failed)
  {
    AgreeCommutes(dSecret, cSecret);
  }

  /** A relay that takes the marker off the client's first message gets the short proof used by both, and
      nothing else: which proof is used is what the daemon was told. */
  lemma MarkerDecides(dSecret: nat, dToken: string, cSecret: nat, cToken: string, runtime: Runtime, kdf: bool)
    ensures var start := Start(dSecret, dToken, cSecret, cToken, runtime);
            var one := Step(start, ToDaemon(Hello(Pub(cSecret), kdf)));
            var two := Step(one, ToClient(one.wire[1]));
            var three := Step(two, ToDaemon(two.wire[2]));
            var four := Step(three, ToClient(three.wire[3]));
            && Possible(start, ToDaemon(Hello(Pub(cSecret), kdf)))
            && one.wire == start.wire + [Hello(Pub(dSecret), kdf)]
            && two.wire == one.wire + [Proves(Proof(kdf, cToken, Pub(cSecret), Pub(dSecret)))]
            && three.wire == two.wire
                 + [if dToken == cToken then Proves(Proof(kdf, dToken, Pub(dSecret), Pub(cSecret))) else Refused]
            && (dToken == cToken ==> four.daemon.phase.Done? && four.client.phase.Done?)
            && (dToken != cToken ==> four.daemon.phase == four.client.phase == Failed)
  {
    AgreeCommutes(dSecret, cSecret);
  }
}
