// A peer's state, read off the bytes it has consumed and emitted. The two history predicates
// are invariants of every run of the fragmented API on arbitrary input, so whatever a peer
// knows, believes or has failed on is explained by its transcript.

module HandshakeHistories {
  import opened Symbolic
  import opened HandshakeCore
  import opened HandshakeSteps
  import opened HandshakeRuns

  // Does the challenge a peer has read verify?
  predicate Meets(c0: Core, consumed: Bytes) {
    |consumed| >= CHALLENGE_SIZE && GoodChallenge(c0, consumed[..CHALLENGE_SIZE])
  }

  // What it then knows.
  function MetCore(c0: Core, consumed: Bytes): (c: Core)
    requires Meets(c0, consumed)
    ensures c.Met() && c.Yp == c0.Yp
  {
    Meet(c0, consumed[32..CHALLENGE_SIZE])
  }

  // -------------------------------------------------------------------------------------
  // Clients

  function ClientKnows(c0: Core, consumed: Bytes): (c: Core)
    requires c0.Yp.Some? && Meets(c0, consumed)
    ensures c.Identified()
  {
    Identify(MetCore(c0, consumed))
  }

  function ClientSays(c0: Core, consumed: Bytes): (m: Bytes)
    requires c0.Yp.Some? && Meets(c0, consumed)
    ensures |m| == CHALLENGE_SIZE + CLIENT_AUTH_SIZE
  {
    Challenge(c0) + ClientAuthMessage(ClientKnows(c0, consumed))
  }

  ghost predicate ClientHistory(c0: Core, t: Trace)
    requires c0.Yp.Some?
  {
    && t.peer.role.Client?
    && match t.peer.step
       case ClientChallenge =>
         && t.consumed == [] && t.peer.core == c0
         && (if t.peer.output == [] then t.emitted == [] else t.emitted + t.peer.output == Challenge(c0))
       case ServerChallenge =>
         && t.consumed == t.peer.input && |t.consumed| < CHALLENGE_SIZE && t.peer.core == c0
         && t.emitted == Challenge(c0)
       case ClientAuth =>
         && |t.consumed| == CHALLENGE_SIZE && Meets(c0, t.consumed)
         && if t.peer.output == [] then
              t.peer.core == MetCore(c0, t.consumed) && t.emitted == Challenge(c0)
            else
              && t.peer.core == ClientKnows(c0, t.consumed)
              && t.emitted + t.peer.output == ClientSays(c0, t.consumed)
       case ServerAck =>
         && CHALLENGE_SIZE <= |t.consumed| < CHALLENGE_SIZE + SERVER_ACK_SIZE && Meets(c0, t.consumed)
         && t.peer.input == t.consumed[CHALLENGE_SIZE..]
         && t.peer.core == ClientKnows(c0, t.consumed) && t.emitted == ClientSays(c0, t.consumed)
       case Finished =>
         && |t.consumed| == CHALLENGE_SIZE + SERVER_ACK_SIZE && Meets(c0, t.consumed)
         && GoodAck(ClientKnows(c0, t.consumed), t.consumed[CHALLENGE_SIZE..])
         && t.peer.core == KeepAckKey(ClientKnows(c0, t.consumed))
         && t.emitted == ClientSays(c0, t.consumed)
       case Failed =>
         if Meets(c0, t.consumed) then
           && |t.consumed| == CHALLENGE_SIZE + SERVER_ACK_SIZE
           && !GoodAck(ClientKnows(c0, t.consumed), t.consumed[CHALLENGE_SIZE..])
           && t.peer.error == AuthError && t.emitted == ClientSays(c0, t.consumed)
         else
           && |t.consumed| == CHALLENGE_SIZE
           && t.peer.error == ProtocolError && t.emitted == Challenge(c0)
  }

  lemma {:induction false} ClientRecvKeeps(c0: Core, t: Trace, src: Bytes)
    requires c0.Yp.Some? && Valid(t.peer) && ClientHistory(c0, t)
    ensures ClientHistory(c0, Do(t, Recv(src)))
  {
    hide Challenge, GoodAck, Identify, ClientAuthMessage, Meet, HmacOf, KeepAckKey;
    var t' := Do(t, Recv(src));
    var taken := src[..Takes(t.peer, |src|)];
    assert t'.emitted == t.emitted;
    if t.peer.step == ServerChallenge {
      assert |t'.consumed| == CHALLENGE_SIZE ==> t'.consumed[..CHALLENGE_SIZE] == t'.consumed;
    } else if t.peer.step == ServerAck {
      assert t'.consumed[..CHALLENGE_SIZE] == t.consumed[..CHALLENGE_SIZE];
      assert t'.consumed[32..CHALLENGE_SIZE] == t.consumed[32..CHALLENGE_SIZE];
      assert t'.consumed[CHALLENGE_SIZE..] == t.peer.input + taken;
    } else {
      assert t'.consumed == t.consumed;
    }
  }

  lemma {:induction false} ClientSendKeeps(c0: Core, t: Trace, max: nat)
    requires c0.Yp.Some? && Valid(t.peer) && ClientHistory(c0, t)
    ensures ClientHistory(c0, Do(t, Send(max)))
  {
    hide GoodAck, Identify, Meet, HmacOf;
    var t' := Do(t, Send(max));
    if Sends(t.peer.role, t.peer.step) {
      SendEffect(t, max);
      hide Do;
      assert t'.emitted + [] == t'.emitted && [] + Fill(t.peer).output == Fill(t.peer).output;
    } else {
      assert t'.consumed == t.consumed && t'.emitted == t.emitted;
    }
  }

  lemma {:induction false} ClientHistoryHolds(c0: Core, t: Trace, ops: seq<Op>)
    requires c0.Yp.Some? && Valid(t.peer) && ClientHistory(c0, t)
    ensures ClientHistory(c0, Run(t, ops))
    decreases |ops|
  {
    hide ClientHistory, Do;
    if ops != [] {
      match ops[0] {
        case Recv(src) => ClientRecvKeeps(c0, t, src);
        case Send(max) => ClientSendKeeps(c0, t, max);
      }
      ClientHistoryHolds(c0, Do(t, ops[0]), ops[1..]);
    }
  }

  // What a client has let out so far is a prefix of its two messages.
  lemma {:induction false} ClientEmits(c0: Core, t: Trace)
    requires c0.Yp.Some? && ClientHistory(c0, t)
    ensures |t.emitted| <= CHALLENGE_SIZE ==> t.emitted <= Challenge(c0)
    ensures |t.emitted| > CHALLENGE_SIZE ==>
              Meets(c0, t.consumed) && Challenge(c0) <= t.emitted <= ClientSays(c0, t.consumed)
  {
    hide Challenge, GoodChallenge, Identify, ClientAuthMessage, GoodAck, Meet;
    assert t.emitted <= t.emitted + t.peer.output;
    if t.peer.step == ClientAuth && |t.emitted| > CHALLENGE_SIZE {
      assert Challenge(c0) <= t.emitted + t.peer.output;
      assert (t.emitted + t.peer.output)[..CHALLENGE_SIZE] == t.emitted[..CHALLENGE_SIZE];
    } else if t.peer.step == ClientAuth {
      assert t.emitted + t.peer.output <= Challenge(c0)
          || t.emitted == (t.emitted + t.peer.output)[..|t.emitted|];
    }
  }

  // -------------------------------------------------------------------------------------
  // Servers

  // The whole client auth has been read, on top of a challenge that verified.
  predicate Heard(c0: Core, consumed: Bytes) {
    |consumed| == CHALLENGE_SIZE + CLIENT_AUTH_SIZE && Meets(c0, consumed)
  }

  function ServerKnows(c0: Core, consumed: Bytes): Core
    requires Heard(c0, consumed)
  {
    AfterAuth(MetCore(c0, consumed), consumed[CHALLENGE_SIZE..])
  }

  // The identity is signed, for this server and this exchange, and its key is let in.
  predicate Admits(c0: Core, authorizer: Authorizer, consumed: Bytes)
    ensures Admits(c0, authorizer, consumed) ==>
              Heard(c0, consumed) && ServerKnows(c0, consumed).Identified()
  {
    && Heard(c0, consumed)
    && GoodAuth(MetCore(c0, consumed), consumed[CHALLENGE_SIZE..])
    && (authorizer.Some? ==> authorizer.value(ServerKnows(c0, consumed).Yp.value))
  }

  function ServerSays(c0: Core, authorizer: Authorizer, consumed: Bytes): (m: Bytes)
    requires Admits(c0, authorizer, consumed)
    ensures |m| == CHALLENGE_SIZE + SERVER_ACK_SIZE
  {
    Challenge(c0) + ServerAckMessage(ServerKnows(c0, consumed))
  }

  ghost predicate ServerHistory(c0: Core, authorizer: Authorizer, t: Trace) {
    && t.peer.role.Server? && t.peer.authorizer == authorizer
    && match t.peer.step
       case ClientChallenge =>
         && t.consumed == t.peer.input && |t.consumed| < CHALLENGE_SIZE && t.peer.core == c0
         && t.emitted == []
       case ServerChallenge =>
         && |t.consumed| == CHALLENGE_SIZE && Meets(c0, t.consumed)
         && t.peer.core == MetCore(c0, t.consumed)
         && (if t.peer.output == [] then t.emitted == [] else t.emitted + t.peer.output == Challenge(c0))
       case ClientAuth =>
         && CHALLENGE_SIZE <= |t.consumed| < CHALLENGE_SIZE + CLIENT_AUTH_SIZE && Meets(c0, t.consumed)
         && t.peer.input == t.consumed[CHALLENGE_SIZE..]
         && t.peer.core == MetCore(c0, t.consumed) && t.emitted == Challenge(c0)
       case ServerAck =>
         && Admits(c0, authorizer, t.consumed)
         && if t.peer.output == [] then
              t.peer.core == ServerKnows(c0, t.consumed) && t.emitted == Challenge(c0)
            else
              && t.peer.core == KeepAckKey(ServerKnows(c0, t.consumed))
              && t.emitted + t.peer.output == ServerSays(c0, authorizer, t.consumed)
       case Finished =>
         && Admits(c0, authorizer, t.consumed)
         && t.peer.core == KeepAckKey(ServerKnows(c0, t.consumed))
         && t.emitted == ServerSays(c0, authorizer, t.consumed)
       case Failed =>
         if Meets(c0, t.consumed) then
           && Heard(c0, t.consumed) && !Admits(c0, authorizer, t.consumed)
           && t.peer.error == AuthError && t.emitted == Challenge(c0)
         else
           && |t.consumed| == CHALLENGE_SIZE
           && t.peer.error == ProtocolError && t.emitted == []
  }

  lemma {:induction false} ServerRecvKeeps(c0: Core, authorizer: Authorizer, t: Trace, src: Bytes)
    requires Valid(t.peer) && ServerHistory(c0, authorizer, t)
    ensures ServerHistory(c0, authorizer, Do(t, Recv(src)))
  {
    hide Challenge, GoodAuth, AfterAuth, ServerAckMessage, Meet, HmacOf, KeepAckKey;
    var t' := Do(t, Recv(src));
    var taken := src[..Takes(t.peer, |src|)];
    assert t'.emitted == t.emitted;
    if t.peer.step == ClientChallenge {
      assert |t'.consumed| == CHALLENGE_SIZE ==> t'.consumed[..CHALLENGE_SIZE] == t'.consumed;
    } else if t.peer.step == ClientAuth {
      assert t'.consumed[..CHALLENGE_SIZE] == t.consumed[..CHALLENGE_SIZE];
      assert t'.consumed[32..CHALLENGE_SIZE] == t.consumed[32..CHALLENGE_SIZE];
      assert t'.consumed[CHALLENGE_SIZE..] == t.peer.input + taken;
    } else {
      assert t'.consumed == t.consumed;
    }
  }

  lemma {:induction false} ServerSendKeeps(c0: Core, authorizer: Authorizer, t: Trace, max: nat)
    requires Valid(t.peer) && ServerHistory(c0, authorizer, t)
    ensures ServerHistory(c0, authorizer, Do(t, Send(max)))
  {
    hide GoodAuth, AfterAuth, HmacOf, ServerAckMessage, KeepAckKey, Admits, Meets;
    var t' := Do(t, Send(max));
    if Sends(t.peer.role, t.peer.step) {
      SendEffect(t, max);
      hide Do;
      assert t'.emitted + [] == t'.emitted && [] + Fill(t.peer).output == Fill(t.peer).output;
    } else {
      assert t'.consumed == t.consumed && t'.emitted == t.emitted;
    }
  }

  lemma {:induction false} ServerHistoryHolds(c0: Core, authorizer: Authorizer, t: Trace, ops: seq<Op>)
    requires Valid(t.peer) && ServerHistory(c0, authorizer, t)
    ensures ServerHistory(c0, authorizer, Run(t, ops))
    decreases |ops|
  {
    hide ServerHistory, Do;
    if ops != [] {
      match ops[0] {
        case Recv(src) => ServerRecvKeeps(c0, authorizer, t, src);
        case Send(max) => ServerSendKeeps(c0, authorizer, t, max);
      }
      ServerHistoryHolds(c0, authorizer, Do(t, ops[0]), ops[1..]);
    }
  }

  // What a server has let out so far is a prefix of its two messages, of which the second is
  // for admitted clients only.
  lemma {:induction false} ServerEmits(c0: Core, authorizer: Authorizer, t: Trace)
    requires ServerHistory(c0, authorizer, t)
    ensures t.emitted != [] ==> Meets(c0, t.consumed)
    ensures |t.emitted| <= CHALLENGE_SIZE ==> t.emitted <= Challenge(c0)
    ensures |t.emitted| > CHALLENGE_SIZE ==>
              && Admits(c0, authorizer, t.consumed)
              && Challenge(c0) <= t.emitted <= ServerSays(c0, authorizer, t.consumed)
  {
    hide Challenge, GoodChallenge, AfterAuth, GoodAuth, ServerAckMessage, KeepAckKey, Meet;
    assert t.emitted <= t.emitted + t.peer.output;
    if t.peer.step == ServerAck && |t.emitted| > CHALLENGE_SIZE {
      assert Challenge(c0) <= t.emitted + t.peer.output;
      assert (t.emitted + t.peer.output)[..CHALLENGE_SIZE] == t.emitted[..CHALLENGE_SIZE];
    } else if t.peer.step == ServerAck {
      assert t.emitted + t.peer.output <= Challenge(c0)
          || t.emitted == (t.emitted + t.peer.output)[..|t.emitted|];
    }
  }
}
