// A client and a server joined by two FIFO byte channels, with every fragmentation and every
// interleaving. The outcome is decided by the setup alone.

module TwoParty {
  import opened Prelude
  import opened Symbolic
  import opened HandshakeCore
  import opened Agreement
  import opened HandshakeSteps
  import opened HandshakeRuns
  import opened HandshakeHistories
  import opened HandshakeClaims

  datatype System = System(client: Trace, server: Trace, toServer: Bytes, toClient: Bytes)

  datatype Action =
    | ClientSends(max: nat)
    | ClientReads(max: nat)
    | ServerSends(max: nat)
    | ServerReads(max: nat)

  function Initial(z: Setup): System {
    System(Start(z.Client()), Start(z.Server()), [], [])
  }

  predicate BothValid(s: System) {
    Valid(s.client.peer) && Valid(s.server.peer)
  }

  // The next bytes of a channel, as many as asked for and there.
  function Front(channel: Bytes, max: nat): Bytes {
    channel[..Min(max, |channel|)]
  }

  function Step(s: System, a: Action): (r: System)
    requires BothValid(s)
    ensures BothValid(r)
  {
    match a
    case ClientSends(max) =>
      s.(client := Do(s.client, Send(max)), toServer := s.toServer + Emitted(s.client.peer, Send(max)))
    case ServerSends(max) =>
      s.(server := Do(s.server, Send(max)), toClient := s.toClient + Emitted(s.server.peer, Send(max)))
    case ClientReads(max) =>
      var op := Recv(Front(s.toClient, max));
      s.(client := Do(s.client, op), toClient := s.toClient[|Consumed(s.client.peer, op)|..])
    case ServerReads(max) =>
      var op := Recv(Front(s.toServer, max));
      s.(server := Do(s.server, op), toServer := s.toServer[|Consumed(s.server.peer, op)|..])
  }

  function RunAll(s: System, actions: seq<Action>): (r: System)
    requires BothValid(s)
    ensures BothValid(r)
    decreases |actions|
  {
    if actions == [] then s else RunAll(Step(s, actions[0]), actions[1..])
  }

  // -------------------------------------------------------------------------------------
  // The invariant

  // Each peer is explained by its transcript, and the channels lose and add nothing.
  ghost predicate Inv(z: Setup, s: System) {
    && BothValid(s)
    && ClientHistory(z.Client().core, s.client)
    && ServerHistory(z.Server().core, z.authorizer, s.server)
    && s.client.emitted == s.server.consumed + s.toServer
    && s.server.emitted == s.client.consumed + s.toClient
  }

  // What is sent goes to the end of a channel, and what is read comes off its front.
  lemma ChannelSends(emitted: Bytes, consumed: Bytes, channel: Bytes, bytes: Bytes)
    requires emitted == consumed + channel
    ensures emitted + bytes == consumed + (channel + bytes)
  {
  }

  lemma ChannelReads(emitted: Bytes, consumed: Bytes, channel: Bytes, p: Peer, max: nat)
    requires emitted == consumed + channel && Valid(p)
    ensures var eaten := Consumed(p, Recv(Front(channel, max)));
            |eaten| <= |channel| && emitted == (consumed + eaten) + channel[|eaten|..]
  {
    var eaten := Consumed(p, Recv(Front(channel, max)));
    assert eaten == channel[..|eaten|];
    assert channel == eaten + channel[|eaten|..];
  }

  // A call moves bytes one way only.
  lemma OneWay(t: Trace, op: Op)
    requires Valid(t.peer)
    ensures op.Recv? ==> Do(t, op).emitted == t.emitted
    ensures op.Send? ==> Do(t, op).consumed == t.consumed
  {
  }

  lemma {:induction false} ClientStepKeeps(z: Setup, s: System, a: Action)
    requires Inv(z, s) && (a.ClientSends? || a.ClientReads?)
    ensures Inv(z, Step(s, a))
  {
    hide ClientHistory, ServerHistory, Act, Valid, Consumed, Emitted;
    match a
    case ClientSends(max) =>
      ClientSendKeeps(z.Client().core, s.client, max);
      OneWay(s.client, Send(max));
      ChannelSends(s.client.emitted, s.server.consumed, s.toServer, Emitted(s.client.peer, Send(max)));
    case ClientReads(max) =>
      var op := Recv(Front(s.toClient, max));
      ClientRecvKeeps(z.Client().core, s.client, op.src);
      OneWay(s.client, op);
      ChannelReads(s.server.emitted, s.client.consumed, s.toClient, s.client.peer, max);
  }

  lemma {:induction false} ServerStepKeeps(z: Setup, s: System, a: Action)
    requires Inv(z, s) && (a.ServerSends? || a.ServerReads?)
    ensures Inv(z, Step(s, a))
  {
    hide ClientHistory, ServerHistory, Act, Valid, Consumed, Emitted;
    match a
    case ServerSends(max) =>
      ServerSendKeeps(z.Server().core, z.authorizer, s.server, max);
      OneWay(s.server, Send(max));
      ChannelSends(s.server.emitted, s.client.consumed, s.toClient, Emitted(s.server.peer, Send(max)));
    case ServerReads(max) =>
      var op := Recv(Front(s.toServer, max));
      ServerRecvKeeps(z.Server().core, z.authorizer, s.server, op.src);
      OneWay(s.server, op);
      ChannelReads(s.client.emitted, s.server.consumed, s.toServer, s.server.peer, max);
  }

  lemma {:induction false} StepKeeps(z: Setup, s: System, a: Action)
    requires Inv(z, s)
    ensures Inv(z, Step(s, a))
  {
    hide ClientHistory, ServerHistory, Step;
    if a.ClientSends? || a.ClientReads? {
      ClientStepKeeps(z, s, a);
    } else {
      ServerStepKeeps(z, s, a);
    }
  }

  lemma {:induction false} RunKeeps(z: Setup, s: System, actions: seq<Action>)
    requires Inv(z, s)
    ensures Inv(z, RunAll(s, actions))
    decreases |actions|
  {
    hide ClientHistory, ServerHistory, Step;
    if actions != [] {
      StepKeeps(z, s, actions[0]);
      RunKeeps(z, Step(s, actions[0]), actions[1..]);
    }
  }

  // -------------------------------------------------------------------------------------
  // What the honest messages do

  // A challenge verifies exactly under the app ID it was made with.
  lemma ChallengeVerdict(c: Core, other: Core)
    ensures GoodChallenge(c, Challenge(other)) <==> c.K == other.K
    ensures Challenge(other)[32..CHALLENGE_SIZE] == other.xp()
  {
    assert Challenge(other)[32..] == other.xp() && Challenge(other)[..32] == HmacOf(other.K, other.xp());
    if GoodChallenge(c, Challenge(other)) {
      EncodeInjective(Hmac(c.K, other.xp()), Hmac(other.K, other.xp()));
    }
  }

  // The peers once each has the other's challenge, and the client its proof.
  function ClientMet(z: Setup): (c: Core)
    ensures c.Met() && c.Yp.Some?
  {
    Meet(z.Client().core, z.Server().core.xp())
  }

  function ServerMet(z: Setup): (s: Core)
    ensures s.Met()
  {
    Meet(z.Server().core, z.Client().core.xp())
  }

  function Auth(z: Setup): (m: Bytes)
    ensures |m| == CLIENT_AUTH_SIZE
  {
    ClientAuthMessage(Identify(ClientMet(z)))
  }

  // Each has the other's ephemeral point.
  lemma MetPoints(z: Setup)
    ensures PointOf(ClientMet(z).yp.value) == KeyPoint(Ephemeral(z.b))
    ensures PointOf(ServerMet(z).yp.value) == KeyPoint(Ephemeral(z.a))
    ensures ClientMet(z).ab == ServerMet(z).ab == Some(Secret(Ephemeral(z.a), Ephemeral(z.b)))
    ensures ClientMet(z).hashab == ServerMet(z).hashab
  {
    KeyDecodes(Ephemeral(z.a), 0);
    KeyDecodes(Ephemeral(z.b), 0);
    TimesCommutes(Ephemeral(z.a), Ephemeral(z.b));
  }

  // Only the right server opens the client's identity, and it does so even if the client was
  // given some other string that converts to a key scalars do not tell from the server's.
  lemma AuthOpens(z: Setup)
    requires z.WellSized() && SameApp(z)
    ensures OpenedAuth(ServerMet(z), Auth(z))
         == if ForKeyExchange(z.serverKey) == KeyPoint(LongTerm(z.B)) then Identify(ClientMet(z)).H else None
  {
    hide PointOf, Times, ForKeyExchange;
    var c, s := Identify(ClientMet(z)), ServerMet(z);
    var s' := s.(aB := Some(Times(LongTerm(z.B), PointOf(s.yp.value))));
    MetPoints(z);
    TimesCommutes(LongTerm(z.B), Ephemeral(z.a));
    TimesOnlyShares(Ephemeral(z.a), ForKeyExchange(z.serverKey), LongTerm(z.B));
    UnboxBox(ClientAuthKey(c), ClientAuthKey(s'), c.H.value);
    if ClientAuthKey(c) == ClientAuthKey(s') {
      ClientKeyParts(c, s');
    }
  }

  // It accepts the identity only if the client was given its very key, which the client signs.
  lemma AuthVerdict(z: Setup)
    requires z.WellSized() && SameApp(z)
    ensures GoodAuth(ServerMet(z), Auth(z)) <==> z.serverKey == PublicKey(z.B)
    ensures z.serverKey == PublicKey(z.B) ==>
              var s := AfterAuth(ServerMet(z), Auth(z));
              s.Yp == Some(PublicKey(z.A)) && s.H == Identify(ClientMet(z)).H
  {
    hide OpenedAuth, Check, PointOf, Times, ForKeyExchange;
    AuthOpens(z);
    MetPoints(z);
    PublicKeyConverts(z.B);
    var c := Identify(ClientMet(z));
    var K, claim := z.clientApp, ClientClaim(z.clientApp, z.serverKey, c.hashab.value);
    assert c.H.value[64..] == PublicKey(z.A) && c.H.value[..64] == Sign(z.A, claim);
    if z.serverKey == PublicKey(z.B) {
      CheckSign(z.A, claim);
    } else if GoodAuth(ServerMet(z), Auth(z)) {
      CheckedBySigner(PublicKey(z.A), z.A, claim, ClientClaim(K, PublicKey(z.B), c.hashab.value));
      SplitEqual(K + z.serverKey, c.hashab.value, K + PublicKey(z.B), c.hashab.value);
      SplitEqual(K, z.serverKey, K, PublicKey(z.B));
    }
  }

  // The right server's acknowledgement is accepted.
  lemma AckVerdict(z: Setup)
    requires z.WellSized() && Good(z) && GoodAuth(ServerMet(z), Auth(z))
    ensures GoodAck(Identify(ClientMet(z)), ServerAckMessage(AfterAuth(ServerMet(z), Auth(z))))
  {
    MetPoints(z);
    SamePointsFinish(ClientMet(z), ServerMet(z));
  }

  // -------------------------------------------------------------------------------------
  // Reachable states

  // The first message either peer reads is the other's challenge.
  lemma {:induction false} FirstMessages(z: Setup, s: System)
    requires z.WellSized() && Inv(z, s)
    ensures |s.server.consumed| >= CHALLENGE_SIZE ==>
              && s.server.consumed[..CHALLENGE_SIZE] == Challenge(z.Client().core)
              && (Meets(z.Server().core, s.server.consumed) <==> SameApp(z))
              && (SameApp(z) ==> MetCore(z.Server().core, s.server.consumed) == ServerMet(z))
    ensures |s.client.consumed| >= CHALLENGE_SIZE ==>
              && SameApp(z) && Meets(z.Client().core, s.client.consumed)
              && MetCore(z.Client().core, s.client.consumed) == ClientMet(z)
  {
    hide Challenge, GoodChallenge, Identify, ClientAuthMessage, AfterAuth, GoodAuth, GoodAck,
         ServerAckMessage, KeepAckKey, Meet, Valid;
    var c0, s0 := z.Client().core, z.Server().core;
    ChallengeVerdict(s0, c0);
    ChallengeVerdict(c0, s0);
    ClientEmits(c0, s.client);
    ServerEmits(s0, z.authorizer, s.server);
    if |s.server.consumed| >= CHALLENGE_SIZE {
      FrontOfPrefix(Challenge(c0), s.client.emitted, s.server.consumed, s.toServer);
    }
    if |s.client.consumed| >= CHALLENGE_SIZE {
      FrontOfPrefix(Challenge(s0), s.server.emitted, s.client.consumed, s.toClient);
    }
  }

  lemma FrontOfPrefix(m: Bytes, emitted: Bytes, consumed: Bytes, channel: Bytes)
    requires |m| == CHALLENGE_SIZE <= |consumed| && m <= emitted == consumed + channel
    ensures consumed[..CHALLENGE_SIZE] == m
    ensures consumed[32..CHALLENGE_SIZE] == m[32..CHALLENGE_SIZE]
  {
  }

  // Whatever identity a server has read in full is the client's, and is let in exactly when the
  // setup is good.
  lemma {:induction false} ServerHears(z: Setup, s: System)
    requires z.WellSized() && Inv(z, s) && Heard(z.Server().core, s.server.consumed)
    ensures SameApp(z)
    ensures ServerKnows(z.Server().core, s.server.consumed) == AfterAuth(ServerMet(z), Auth(z))
    ensures Admits(z.Server().core, z.authorizer, s.server.consumed) <==> Good(z)
  {
    hide Challenge, GoodChallenge, Identify, ClientAuthMessage, AfterAuth, GoodAuth, GoodAck,
         ServerAckMessage, KeepAckKey, Meet, Valid, ClientHistory, ServerHistory;
    var c0, s0 := z.Client().core, z.Server().core;
    FirstMessages(z, s);
    ClientEmits(c0, s.client);
    var says := ClientSays(c0, s.client.consumed);
    assert s.server.consumed <= s.client.emitted <= says;
    assert s.server.consumed == says;
    assert says[CHALLENGE_SIZE..] == Auth(z);
    AuthVerdict(z);
  }

  // Whatever acknowledgement a client has begun to read is the right server's, and is accepted.
  lemma {:induction false} ClientHears(z: Setup, s: System)
    requires z.WellSized() && Inv(z, s) && |s.client.consumed| > CHALLENGE_SIZE
    ensures Good(z)
    ensures |s.client.consumed| == CHALLENGE_SIZE + SERVER_ACK_SIZE ==>
              && GoodAck(ClientKnows(z.Client().core, s.client.consumed), s.client.consumed[CHALLENGE_SIZE..])
              && s.client.consumed == s.server.emitted
  {
    hide Challenge, GoodChallenge, Identify, ClientAuthMessage, AfterAuth, GoodAuth, GoodAck,
         ServerAckMessage, KeepAckKey, Meet, Valid, ClientHistory, ServerHistory;
    var c0, s0 := z.Client().core, z.Server().core;
    FirstMessages(z, s);
    ServerEmits(s0, z.authorizer, s.server);
    ServerHears(z, s);
    if |s.client.consumed| == CHALLENGE_SIZE + SERVER_ACK_SIZE {
      var says := ServerSays(s0, z.authorizer, s.server.consumed);
      assert s.client.consumed <= s.server.emitted <= says;
      assert s.client.consumed == says;
      assert says[CHALLENGE_SIZE..] == ServerAckMessage(ServerKnows(s0, s.server.consumed));
      AuthVerdict(z);
      AckVerdict(z);
    }
  }

  // Safety, in every reachable state: the client never fails; the server fails only on a bad
  // setup, with the error that tells which; a peer finishes only on a good one; and a client
  // that has finished agrees with the server, each knowing the other's public key, with
  // mirrored sessions.
  ghost predicate Safe(z: Setup, s: System)
    requires BothValid(s)
  {
    && s.client.peer.error == NoError
    && (s.server.peer.step == Failed ==>
          !Good(z) && s.server.peer.error == (if SameApp(z) then AuthError else ProtocolError))
    && (s.server.peer.step == Finished ==> Good(z))
    && (s.client.peer.step == Finished ==>
          && s.server.peer.step == Finished
          && Agree(s.client.peer.core, s.server.peer.core)
          && Mirrored(Outcome(s.client.peer.core), Outcome(s.server.peer.core))
          && Outcome(s.client.peer.core).peerPublicKey == PublicKey(z.B)
          && Outcome(s.server.peer.core).peerPublicKey == PublicKey(z.A))
  }

  lemma {:induction false} InvIsSafe(z: Setup, s: System)
    requires z.WellSized() && Inv(z, s)
    ensures Safe(z, s)
  {
    hide Challenge, GoodChallenge, AfterAuth, GoodAuth, GoodAck, ServerAckMessage,
         ClientAuthMessage, Outcome;
    FirstMessages(z, s);
    if Heard(z.Server().core, s.server.consumed) {
      ServerHears(z, s);
    }
    if |s.client.consumed| > CHALLENGE_SIZE {
      ClientHears(z, s);
    }
    if s.client.peer.step == Finished {
      FinishedAgree(z, s);
    }
  }

  lemma {:induction false} FinishedAgree(z: Setup, s: System)
    requires z.WellSized() && Inv(z, s) && s.client.peer.step == Finished
    ensures s.server.peer.step == Finished
    ensures Agree(s.client.peer.core, s.server.peer.core)
    ensures Mirrored(Outcome(s.client.peer.core), Outcome(s.server.peer.core))
    ensures Outcome(s.client.peer.core).peerPublicKey == PublicKey(z.B)
    ensures Outcome(s.server.peer.core).peerPublicKey == PublicKey(z.A)
  {
    hide Challenge, GoodChallenge, GoodAuth, GoodAck, ServerAckMessage, ClientAuthMessage;
    ClientHears(z, s);
    HistoriesAgree(z, s.client, s.server);
    FirstMessages(z, s);
    assert s.client.peer.core.X == z.A && s.server.peer.core.X == z.B;
  }

  lemma {:induction false} InitialInv(z: Setup)
    ensures Inv(z, Initial(z))
  {
  }

  lemma {:induction false} EveryRunIsSafe(z: Setup, actions: seq<Action>)
    requires z.WellSized()
    ensures Safe(z, RunAll(Initial(z), actions))
  {
    InitialInv(z);
    RunKeeps(z, Initial(z), actions);
    InvIsSafe(z, RunAll(Initial(z), actions));
  }

  // -------------------------------------------------------------------------------------
  // Progress

  // The bytes an action moves into or out of a channel.
  function Moves(s: System, a: Action): nat
    requires BothValid(s)
  {
    match a
    case ClientSends(max) => |Emitted(s.client.peer, Send(max))|
    case ServerSends(max) => |Emitted(s.server.peer, Send(max))|
    case ClientReads(max) => |Consumed(s.client.peer, Recv(Front(s.toClient, max)))|
    case ServerReads(max) => |Consumed(s.server.peer, Recv(Front(s.toServer, max)))|
  }

  function Moved(s: System): nat {
    |s.client.emitted| + |s.server.emitted| + |s.client.consumed| + |s.server.consumed|
  }

  const CLIENT_TOTAL: nat := CHALLENGE_SIZE + CLIENT_AUTH_SIZE
  const SERVER_TOTAL: nat := CHALLENGE_SIZE + SERVER_ACK_SIZE

  // Every action counts, and there are only so many bytes to move.
  lemma {:induction false} MovesCount(z: Setup, s: System, a: Action)
    requires Inv(z, s)
    ensures Moved(Step(s, a)) == Moved(s) + Moves(s, a)
    ensures Moved(s) <= 2 * (CLIENT_TOTAL + SERVER_TOTAL)
  {
    hide Challenge, Identify, ClientAuthMessage, AfterAuth, GoodAuth, GoodAck, ServerAckMessage,
         KeepAckKey, Meet, Valid, ClientHistory, ServerHistory, Act;
    ClientEmits(z.Client().core, s.client);
    ServerEmits(z.Server().core, z.authorizer, s.server);
  }

  // The handshake is over: both finished, or the server has turned the client down.
  ghost predicate Over(z: Setup, s: System) {
    if Good(z) then s.client.peer.step == Finished && s.server.peer.step == Finished
    else s.server.peer.step == Failed
  }

  // Until it is over, some action moves a byte.
  lemma {:induction false} Progress(z: Setup, s: System) returns (a: Action)
    requires z.WellSized() && Inv(z, s) && !Over(z, s)
    ensures Moves(s, a) > 0
  {
    hide Challenge, GoodChallenge, Identify, ClientAuthMessage, AfterAuth, GoodAuth, GoodAck,
         ServerAckMessage, KeepAckKey, Meet, Agree, Mirrored, Outcome, Good;
    InvIsSafe(z, s);
    if Sends(s.client.peer.role, s.client.peer.step) {
      a := ClientSends(1);
    } else if Sends(s.server.peer.role, s.server.peer.step) {
      a := ServerSends(1);
    } else if s.toServer != [] && !Stopped(s.server.peer.step) {
      a := ServerReads(1);
    } else {
      a := ClientReads(1);
    }
  }

  // A schedule in which every action moves something.
  predicate Busy(s: System, actions: seq<Action>)
    requires BothValid(s)
    decreases |actions|
  {
    actions == [] || (Moves(s, actions[0]) > 0 && Busy(Step(s, actions[0]), actions[1..]))
  }

  // No schedule keeps the peers busy for more than 640 actions ...
  lemma {:induction false} BusyIsBounded(z: Setup, s: System, actions: seq<Action>)
    requires Inv(z, s)
    ensures Busy(s, actions) ==> |actions| + Moved(s) <= 2 * (CLIENT_TOTAL + SERVER_TOTAL)
    decreases |actions|
  {
    hide Step, Moves, Moved, ClientHistory, ServerHistory;
    MovesCount(z, s, ClientSends(0));
    if actions != [] && Moves(s, actions[0]) > 0 {
      MovesCount(z, s, actions[0]);
      StepKeeps(z, s, actions[0]);
      BusyIsBounded(z, Step(s, actions[0]), actions[1..]);
    }
  }

  // ... and from every reachable state one of them brings the handshake to its end.
  lemma {:induction false} CanEnd(z: Setup, s: System) returns (actions: seq<Action>)
    requires z.WellSized() && Inv(z, s)
    ensures Busy(s, actions) && Over(z, RunAll(s, actions))
    decreases 2 * (CLIENT_TOTAL + SERVER_TOTAL) - Moved(s)
  {
    hide Step, Moves, Moved, ClientHistory, ServerHistory;
    if Over(z, s) {
      actions := [];
    } else {
      var a := Progress(z, s);
      MovesCount(z, s, a);
      StepKeeps(z, s, a);
      MovesCount(z, Step(s, a), a);
      var rest := CanEnd(z, Step(s, a));
      actions := [a] + rest;
      assert actions[1..] == rest;
    }
  }

  // When it is over on a good setup, exactly the four messages have crossed.
  lemma {:induction false} ExactTraffic(z: Setup, actions: seq<Action>)
    requires z.WellSized()
    ensures var s := RunAll(Initial(z), actions);
            s.client.peer.step == Finished ==>
              && |s.client.emitted| == |s.server.consumed| == CLIENT_TOTAL == 176
              && |s.server.emitted| == |s.client.consumed| == SERVER_TOTAL == 144
              && s.toServer == [] && s.toClient == []
  {
    InitialInv(z);
    var s := RunAll(Initial(z), actions);
    RunKeeps(z, Initial(z), actions);
    InvIsSafe(z, s);
  }

  // The outcome, for every setup and every schedule: once nothing more can move, both peers
  // have finished if the setup is good; otherwise the server has failed, with ProtocolError if
  // the app IDs differ and AuthError if the client expects another key or is not authorized,
  // and the client waits for what will never come.
  lemma {:induction false} Decided(z: Setup, actions: seq<Action>, s: System)
    requires z.WellSized() && s == RunAll(Initial(z), actions)
    requires forall a: Action :: Moves(s, a) == 0
    ensures Good(z) <==> s.client.peer.step == Finished
    ensures Good(z) <==> s.server.peer.step == Finished
    ensures !Good(z) ==>
              && s.server.peer.step == Failed
              && s.server.peer.error == (if SameApp(z) then AuthError else ProtocolError)
              && s.client.peer.step == (if SameApp(z) then ServerAck else ServerChallenge)
  {
    InitialInv(z);
    RunKeeps(z, Initial(z), actions);
    InvIsSafe(z, s);
    if !Over(z, s) {
      var a := Progress(z, s);
    }
    if !Good(z) {
      TurnedDown(z, s);
    }
  }

  // Where a client stands when the server has failed and nothing is left to send.
  lemma {:induction false} TurnedDown(z: Setup, s: System)
    requires z.WellSized() && Inv(z, s) && s.server.peer.step == Failed
    requires Moves(s, ClientSends(1)) == 0 && Moves(s, ClientReads(1)) == 0
    ensures s.client.peer.step == (if SameApp(z) then ServerAck else ServerChallenge)
  {
    hide Challenge, GoodChallenge, Identify, ClientAuthMessage, AfterAuth, GoodAuth, GoodAck,
         ServerAckMessage, KeepAckKey, Meet, Agree, Mirrored, Outcome, Good;
    FirstMessages(z, s);
    InvIsSafe(z, s);
  }

  // A server that has turned a client down with an authentication error still holds the
  // identity it read. Asked to fail again, or to complete the read that bytesToRead then sets up,
  // it reports a protocol error instead.
  lemma {:induction false} AuthErrorIsLost(z: Setup)
    requires z.WellSized() && SameApp(z) && !Good(z)
    ensures var p := Drive(z.Server(), Challenge(z.Client().core) + Auth(z)).peer;
            && p.step == Failed && p.error == AuthError && p.input == Auth(z)
            && Fail(p).error == ProtocolError
            && var emptied := p.(input := []);
               Valid(emptied) && ReadDone(emptied).step == Failed && ReadDone(emptied).error == ProtocolError
  {
    hide Drive, GoodAuth, Good;
    var challenge := Challenge(z.Client().core);
    ChallengeVerdict(z.Server().core, z.Client().core);
    assert challenge[32..] == challenge[32..CHALLENGE_SIZE];
    AuthIsAnswered(z);
    ServerDrives(z.serverApp, z.B, z.b, z.authorizer, challenge, Auth(z));
    FailingAgain(Drive(z.Server(), challenge + Auth(z)).peer);
  }

  lemma {:induction false} AuthIsAnswered(z: Setup)
    requires z.WellSized() && SameApp(z)
    ensures ServerAnswers(ServerMet(z), z.authorizer, Auth(z)) <==> Good(z)
  {
    AuthVerdict(z);
  }

  // -------------------------------------------------------------------------------------
  // The protocol's formulas

  // The secrets a.b, a.B and A.b.
  function EphemeralSecret(z: Setup): Bytes { Secret(Ephemeral(z.a), Ephemeral(z.b)) }

  function ServerSecret(z: Setup): Bytes { Secret(Ephemeral(z.a), LongTerm(z.B)) }

  function ClientSecret(z: Setup): Bytes { Secret(LongTerm(z.A), Ephemeral(z.b)) }

  // K | a.b | a.B | A.b
  function SharedSecret(z: Setup): Bytes {
    z.clientApp + EphemeralSecret(z) + ServerSecret(z) + ClientSecret(z)
  }

  // sign[A](K | Bp | hash(a.b)) | Ap
  function Proof(z: Setup): Bytes {
    Sign(z.A, z.clientApp + PublicKey(z.B) + HashOf(EphemeralSecret(z))) + PublicKey(z.A)
  }

  lemma {:induction false} SecretsAre(z: Setup)
    requires z.WellSized() && Good(z)
    ensures var c := Identify(ClientMet(z));
            && c.ab == Some(EphemeralSecret(z)) && c.aB == Some(ServerSecret(z)) && c.Ab == Some(ClientSecret(z))
            && c.H == Some(Proof(z))
  {
    hide PointOf, Times, ForKeyExchange;
    MetPoints(z);
    PublicKeyConverts(z.B);
    TimesCommutes(Ephemeral(z.a), LongTerm(z.B));
    TimesCommutes(LongTerm(z.A), Ephemeral(z.b));
  }

  // Once the client has finished, the bytes that crossed and the session both sides derive are
  // those of the protocol, in terms of the keys alone.
  ghost predicate FollowsFormulas(z: Setup, s: System)
    requires s.client.peer.core.Done()
  {
    var ap, bp := KxKey(Ephemeral(z.a)), KxKey(Ephemeral(z.b));
    var K, ackKey := z.clientApp, HashOf(SharedSecret(z));
    && s.client.emitted == HmacOf(K, ap) + ap
         + Symbolic.Box(HashOf(K + EphemeralSecret(z) + ServerSecret(z)), Proof(z))
    && s.server.emitted == HmacOf(K, bp) + bp
         + Symbolic.Box(ackKey, Sign(z.B, K + Proof(z) + HashOf(EphemeralSecret(z))))
    && Outcome(s.client.peer.core) == Session(
         HashOf(HashOf(ackKey) + PublicKey(z.B)), HmacOf(K, bp)[..24],
         HashOf(HashOf(ackKey) + PublicKey(z.A)), HmacOf(K, ap)[..24], PublicKey(z.B))
  }

  lemma {:induction false} Formulas(z: Setup, actions: seq<Action>)
    requires z.WellSized()
    ensures var s := RunAll(Initial(z), actions);
            s.client.peer.step == Finished ==> s.client.peer.core.Done() && FollowsFormulas(z, s)
  {
    InitialInv(z);
    RunKeeps(z, Initial(z), actions);
    var s := RunAll(Initial(z), actions);
    if s.client.peer.step == Finished {
      InvFollowsFormulas(z, s);
    }
  }

  lemma {:induction false} InvFollowsFormulas(z: Setup, s: System)
    requires z.WellSized() && Inv(z, s) && s.client.peer.step == Finished
    ensures FollowsFormulas(z, s)
  {
    hide Check, Unbox, Times, ForKeyExchange, GoodAck, GoodAuth, GoodChallenge;
    InvIsSafe(z, s);
    FirstMessages(z, s);
    SecretsAre(z);
    assert s.client.peer.core == KeepAckKey(Identify(ClientMet(z)));
    AckIs(z, s);
  }

  lemma {:induction false} AckIs(z: Setup, s: System)
    requires z.WellSized() && Good(z) && Inv(z, s) && s.server.peer.step == Finished
    requires s.client.peer.step == Finished
    ensures s.server.emitted == Challenge(z.Server().core)
              + Symbolic.Box(HashOf(SharedSecret(z)),
                             Sign(z.B, z.clientApp + Proof(z) + HashOf(EphemeralSecret(z))))
  {
    hide Check, Unbox, GoodAck, GoodAuth, GoodChallenge, Challenge, PointOf, Times, ForKeyExchange;
    FirstMessages(z, s);
    ServerHears(z, s);
    AuthVerdict(z);
    SecretsAre(z);
    MetPoints(z);
    var k := ServerKnows(z.Server().core, s.server.consumed);
    TimesCommutes(LongTerm(z.B), Ephemeral(z.a));
    PublicKeyConverts(z.A);
    TimesCommutes(Ephemeral(z.b), LongTerm(z.A));
    assert ServerAckKey(k) == HashOf(SharedSecret(z));
  }
}
