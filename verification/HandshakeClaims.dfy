// What a peer may conclude from where its handshake stands, whoever it has been talking to.

module HandshakeClaims {
  import opened Prelude
  import opened Symbolic
  import opened HandshakeCore
  import opened Agreement
  import opened HandshakeSteps
  import opened HandshakeRuns
  import opened HandshakeHistories

  // Whatever it is fed, a server that is ready to acknowledge, has let out even one byte of its
  // acknowledgement, or has finished, has opened an identity signed over the app ID, its own key
  // and the hash of a.b, and had the authorizer accept exactly the signer's key, which its
  // session reports.
  lemma {:induction false} ServerAcceptance(
    K: Bytes, X: nat, x: nat, authorizer: Authorizer, ops: seq<Op>, r: Trace)
    requires r == Run(Start(NewServer(K, X, x, authorizer)), ops)
    requires r.peer.step == ServerAck || r.peer.step == Finished || |r.emitted| > CHALLENGE_SIZE
    ensures Heard(Fresh(K, X, x, None), r.consumed)
    ensures var s := ServerKnows(Fresh(K, X, x, None), r.consumed);
            && s.Identified()
            && r.consumed[CHALLENGE_SIZE..] == Symbolic.Box(ClientAuthKey(s), s.H.value)
            && s.Yp.value == s.H.value[64..]
            && Check(s.Yp.value, s.H.value[..64],
                     ClientClaim(K, PublicKey(X), HashOf(Times(Ephemeral(x), PointOf(r.consumed[32..64])))))
            && (authorizer.Some? ==> authorizer.value(s.Yp.value))
            && (r.peer.step == Finished ==> Outcome(r.peer.core).peerPublicKey == s.Yp.value)
  {
    ServerHistoryHolds(Fresh(K, X, x, None), authorizer, Start(NewServer(K, X, x, authorizer)), ops);
  }

  // Whatever it is fed, a client that has finished holds the wanted server's signature over the
  // app ID, the client's proof and the hash of a.b.
  lemma {:induction false} ClientAcceptance(
    K: Bytes, X: nat, x: nat, serverKey: Bytes, ops: seq<Op>, r: Trace) returns (server: nat)
    requires r == Run(Start(NewClient(K, X, x, serverKey)), ops)
    requires r.peer.step == Finished
    ensures serverKey == PublicKey(server)
    ensures |r.consumed| == CHALLENGE_SIZE + SERVER_ACK_SIZE
    ensures var c0 := Fresh(K, X, x, Some(serverKey));
            && Meets(c0, r.consumed)
            && var c := ClientKnows(c0, r.consumed);
               r.consumed[CHALLENGE_SIZE..] == Symbolic.Box(ServerAckKey(c),
                 Sign(server, ServerClaim(K, c.H.value, HashOf(Times(Ephemeral(x), PointOf(r.consumed[32..64]))))))
  {
    ClientHistoryHolds(Fresh(K, X, x, Some(serverKey)), Start(NewClient(K, X, x, serverKey)), ops);
    server := TermOf(serverKey).value.id;
  }

  // A client and a server: their app IDs, long-term and ephemeral keys, the key the client
  // expects of the server, and the server's authorizer.
  datatype Setup = Setup(
    clientApp: Bytes, A: nat, a: nat, serverKey: Bytes,
    serverApp: Bytes, B: nat, b: nat, authorizer: Authorizer)
  {
    function Client(): Peer { NewClient(clientApp, A, a, serverKey) }

    function Server(): Peer { NewServer(serverApp, B, b, authorizer) }

    // App IDs and public keys are 32-byte values.
    predicate WellSized() {
      |clientApp| == 32 && |serverApp| == 32 && |serverKey| == 32
    }
  }

  predicate SameApp(z: Setup) {
    z.clientApp == z.serverApp
  }

  // The setups for which the handshake should succeed.
  predicate Good(z: Setup) {
    && SameApp(z)
    && z.serverKey == PublicKey(z.B)
    && (z.authorizer.Some? ==> z.authorizer.value(PublicKey(z.A)))
  }

  // Agreement, for any two runs fed anything: if the client finished on the acknowledgement that
  // the server run emitted, the two hold the same app ID, each other's long-term keys and
  // ephemeral points, the same secrets and the same proof, and their session keys mirror. Their
  // nonces mirror exactly if each received the other's ephemeral key byte for byte.
  lemma {:induction false} RunsAgree(z: Setup, clientOps: seq<Op>, c: Trace, serverOps: seq<Op>, s: Trace)
    requires z.WellSized()
    requires c == Run(Start(z.Client()), clientOps) && c.peer.step == Finished
    requires s == Run(Start(z.Server()), serverOps)
    requires CHALLENGE_SIZE <= |c.consumed| == |s.emitted|
    requires c.consumed[CHALLENGE_SIZE..] == s.emitted[CHALLENGE_SIZE..]
    ensures s.peer.step == Finished
    ensures Agree(c.peer.core, s.peer.core)
    ensures KeysMirrored(Outcome(c.peer.core), Outcome(s.peer.core))
    ensures |s.consumed| >= CHALLENGE_SIZE
    ensures Mirrored(Outcome(c.peer.core), Outcome(s.peer.core)) <==>
              && c.consumed[32..CHALLENGE_SIZE] == KxKey(Ephemeral(z.b))
              && s.consumed[32..CHALLENGE_SIZE] == KxKey(Ephemeral(z.a))
  {
    var client, server := z.Client().core, z.Server().core;
    ClientHistoryHolds(client, Start(z.Client()), clientOps);
    ServerHistoryHolds(server, z.authorizer, Start(z.Server()), serverOps);
    HistoriesAgree(z, c, s);
  }

  lemma {:induction false} HistoriesAgree(z: Setup, c: Trace, s: Trace)
    requires z.WellSized()
    requires ClientHistory(z.Client().core, c) && c.peer.step == Finished
    requires ServerHistory(z.Server().core, z.authorizer, s)
    requires |c.consumed| == |s.emitted| && c.consumed[CHALLENGE_SIZE..] == s.emitted[CHALLENGE_SIZE..]
    ensures s.peer.step == Finished && c.peer.core.Done() && s.peer.core.Done()
    ensures Agree(c.peer.core, s.peer.core)
    ensures KeysMirrored(Outcome(c.peer.core), Outcome(s.peer.core))
    ensures |s.consumed| >= CHALLENGE_SIZE
    ensures Mirrored(Outcome(c.peer.core), Outcome(s.peer.core)) <==>
              && c.consumed[32..CHALLENGE_SIZE] == KxKey(Ephemeral(z.b))
              && s.consumed[32..CHALLENGE_SIZE] == KxKey(Ephemeral(z.a))
  {
    hide PointOf, Times, ForKeyExchange;
    var client, server := z.Client().core, z.Server().core;
    MeetHonestly(client, c.consumed[32..CHALLENGE_SIZE]);
    MeetHonestly(server, s.consumed[32..CHALLENGE_SIZE]);
    var ack := ServerAckMessage(ServerKnows(server, s.consumed));
    assert s.emitted[CHALLENGE_SIZE..] == ack;
    ClientAgreement(MetCore(client, c.consumed), MetCore(server, s.consumed),
                    s.consumed[CHALLENGE_SIZE..], ack);
  }

  // The condition is not idle. Give the client another encoding of the server's ephemeral key,
  // under a fresh HMAC, and deliver everything else as it was sent: both peers finish, with
  // mirrored session keys, and the client encrypts from a nonce the server does not decrypt from.
  lemma {:induction false} ReencodedKey(z: Setup, form: nat) returns (c: Driven, s: Driven)
    requires z.WellSized() && Good(z) && form != 0
    ensures var bp := KxForm(Ephemeral(z.b), form);
            && |s.sent| == CHALLENGE_SIZE + SERVER_ACK_SIZE
            && c == Drive(z.Client(), HmacOf(z.clientApp, bp) + bp + s.sent[CHALLENGE_SIZE..])
            && s == Drive(z.Server(), c.sent)
    ensures c.peer.step == Finished && s.peer.step == Finished
    ensures Agree(c.peer.core, s.peer.core)
    ensures KeysMirrored(Outcome(c.peer.core), Outcome(s.peer.core))
    ensures Outcome(c.peer.core).encryptionNonce != Outcome(s.peer.core).decryptionNonce
    ensures Outcome(s.peer.core).encryptionNonce == Outcome(c.peer.core).decryptionNonce
  {
    hide PointOf, Times, ForKeyExchange, Drive, Check, GoodAuth, GoodAck, ServerAckMessage, ClientAuthMessage;
    var bp, ap := KxForm(Ephemeral(z.b), form), KxKey(Ephemeral(z.a));
    var c0, s0 := Meet(z.Client().core, bp), Meet(z.Server().core, ap);
    KeyDecodes(Ephemeral(z.b), form);
    KeyDecodes(Ephemeral(z.a), 0);
    MeetHonestly(z.Client().core, bp);
    MeetHonestly(z.Server().core, ap);
    assert Challenge(z.Client().core)[..32] == HmacOf(z.clientApp, ap) && Challenge(z.Client().core)[32..] == ap;
    SamePointsFinish(c0, s0);
    var auth := ClientAuthMessage(Identify(c0));
    var ack := ServerAckMessage(AfterAuth(s0, auth));
    ClientAgreement(c0, s0, auth, ack);
    var K, challenge := z.clientApp, HmacOf(z.clientApp, bp) + bp;
    assert challenge[..32] == HmacOf(K, bp) && challenge[32..] == bp;
    ClientDrives(K, z.A, z.a, z.serverKey, challenge, ack);
    ServerDrives(K, z.B, z.b, z.authorizer, Challenge(z.Client().core), auth);
    c, s := Drive(z.Client(), challenge + ack), Drive(z.Server(), Challenge(z.Client().core) + auth);
    assert s.sent[CHALLENGE_SIZE..] == ack;
    assert bp[0] != KxKey(Ephemeral(z.b))[0];
    NoncesMirrorExactly(c.peer.core, s.peer.core);
  }
}
