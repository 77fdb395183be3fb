// How two peers come to finish without sharing their session keys, if somebody who has the keys
// of both boxes makes them anew: what they sign is a.b, and other ephemeral keys give it too.

module Divergence {
  import opened Prelude
  import opened Symbolic
  import opened HandshakeCore
  import opened Agreement
  import opened HandshakeSteps
  import opened HandshakeRuns
  import opened HandshakeClaims

  // The two peers once the client has been given the ephemeral key p, and the server q.
  ghost function MetClient(z: Setup, p: Bytes): (c: Core)
    ensures c.Met() && c.Yp.Some?
  {
    Meet(z.Client().core, p)
  }

  ghost function MetServer(z: Setup, q: Bytes): (s: Core)
    ensures s.Met()
  {
    Meet(z.Server().core, q)
  }

  // The client's identity boxed for the server, and the server's answer boxed for the client.
  ghost function AuthFor(c0: Core, s0: Core): (auth: Bytes)
    requires c0.Met() && c0.Yp.Some? && s0.Met()
    ensures |auth| == CLIENT_AUTH_SIZE
  {
    var s := s0.(aB := Some(Times(LongTerm(s0.X), PointOf(s0.yp.value))));
    Symbolic.Box(ClientAuthKey(s), Identify(c0).H.value)
  }

  ghost function AckFor(c: Core, s: Core): (ack: Bytes)
    requires c.Identified() && s.Identified()
    ensures |ack| == SERVER_ACK_SIZE
  {
    Symbolic.Box(ServerAckKey(c), Sign(s.X, ServerClaim(s.K, s.H.value, s.hashab.value)))
  }

  // Any two keys that give the two peers one a.b carry both messages through.
  lemma {:induction false} ReboxedExchange(c0: Core, s0: Core)
    requires HonestlyMet(c0) && HonestlyMet(s0)
    requires c0.K == s0.K && c0.ab == s0.ab && c0.Yp == Some(s0.Xp())
    ensures GoodAuth(s0, AuthFor(c0, s0))
    ensures var c, s := Identify(c0), AfterAuth(s0, AuthFor(c0, s0));
            GoodAck(c, AckFor(c, s)) && Paired(c, s)
  {
    hide PointOf, Times, ForKeyExchange, Check;
    var c, auth := Identify(c0), AuthFor(c0, s0);
    var s1 := s0.(aB := Some(Times(LongTerm(s0.X), PointOf(s0.yp.value))));
    UnboxBox(ClientAuthKey(s1), ClientAuthKey(s1), c.H.value);
    var claim := ClientClaim(c.K, c.Yp.value, c.hashab.value);
    assert c.H.value[64..] == c.Xp() && c.H.value[..64] == Sign(c.X, claim);
    CheckSign(c.X, claim);
    var s := AfterAuth(s0, auth);
    var reply := ServerClaim(s.K, s.H.value, s.hashab.value);
    UnboxBox(ServerAckKey(c), ServerAckKey(c), Sign(s.X, reply));
    CheckSign(s.X, reply);
  }

  // A challenge that carries a given key.
  ghost function ChallengeWith(K: Bytes, key: Bytes): (m: Bytes)
    ensures |key| == 32 ==> |m| == CHALLENGE_SIZE
  {
    HmacOf(K, key) + key
  }

  // The whole runs: the client is given p and the server q, each in a challenge that verifies, and
  // then each the other's message in a box of its own.
  ghost function ClientRun(z: Setup, p: Bytes, q: Bytes): Driven
    requires GoodAuth(MetServer(z, q), AuthFor(MetClient(z, p), MetServer(z, q)))
  {
    var c0, s0 := MetClient(z, p), MetServer(z, q);
    Drive(z.Client(), ChallengeWith(z.clientApp, p) + AckFor(Identify(c0), AfterAuth(s0, AuthFor(c0, s0))))
  }

  ghost function ServerRun(z: Setup, p: Bytes, q: Bytes): Driven {
    Drive(z.Server(), ChallengeWith(z.serverApp, q) + AuthFor(MetClient(z, p), MetServer(z, q)))
  }

  // Both peers finish, and share their session keys or not.
  ghost predicate BothFinish(z: Setup, p: Bytes, q: Bytes, shared: bool) {
    && GoodAuth(MetServer(z, q), AuthFor(MetClient(z, p), MetServer(z, q)))
    && var c, s := ClientRun(z, p, q).peer, ServerRun(z, p, q).peer;
       && c.step == Finished && s.step == Finished
       && (KeysMirrored(Outcome(c.core), Outcome(s.core)) <==> shared)
  }

  // For any two keys that give one a.b, both peers finish, and share their session keys exactly if
  // the client was given the server's own point.
  lemma {:induction false} ReboxedRuns(z: Setup, p: Bytes, q: Bytes)
    requires z.WellSized() && Good(z) && |p| == 32 && |q| == 32
    requires Times(Ephemeral(z.a), PointOf(p)) == Times(Ephemeral(z.b), PointOf(q))
    ensures BothFinish(z, p, q, PointOf(p) == KeyPoint(Ephemeral(z.b)))
  {
    hide PointOf, Times, ForKeyExchange, Check, Drive, GoodAuth, GoodAck, AuthFor, AckFor, KeysMirrored, Agree;
    var K, c0, s0 := z.clientApp, MetClient(z, p), MetServer(z, q);
    MeetHonestly(z.Client().core, p);
    MeetHonestly(z.Server().core, q);
    ReboxedExchange(c0, s0);
    var auth := AuthFor(c0, s0);
    var c, s := Identify(c0), AfterAuth(s0, auth);
    var ack := AckFor(c, s);
    KeysMirrorExactly(c, s);
    ChallengeVerifies(K, p);
    ChallengeVerifies(K, q);
    ClientDrives(K, z.A, z.a, z.serverKey, ChallengeWith(K, p), ack);
    ServerDrives(K, z.B, z.b, z.authorizer, ChallengeWith(K, q), auth);
  }

  lemma ChallengeVerifies(K: Bytes, key: Bytes)
    requires |key| == 32
    ensures ChallengeWith(K, key)[..32] == HmacOf(K, key) && ChallengeWith(K, key)[32..] == key
  {
  }

  // Strings that are read as points of low order do it, whatever else is different about them ...
  lemma {:induction false} LowOrderKeysDiverge(z: Setup, p: Bytes, q: Bytes)
    requires z.WellSized() && Good(z) && |p| == 32 && |q| == 32 && PointOf(p) == LowOrder && PointOf(q) == LowOrder
    ensures BothFinish(z, p, q, false)
  {
    hide PointOf;
    ReboxedRuns(z, p, q);
  }

  // ... 32 zeros among them ...
  lemma {:induction false} ZeroKeysDiverge(z: Setup)
    requires z.WellSized() && Good(z)
    ensures BothFinish(z, NoSecret(), NoSecret(), false)
  {
    ZerosAreLowOrder();
    LowOrderKeysDiverge(z, NoSecret(), NoSecret());
  }

  // ... and so does every other point but the server's own: whatever the client is given, there is
  // a key to give to the server.
  lemma {:induction false} OtherKeysDiverge(z: Setup, f: Factors, base: Base, form: nat)
    requires z.WellSized() && Good(z)
    ensures var p := Encode(Curve(f, base, form));
            var q := Encode(Curve(Scale(Scale(f, Ephemeral(z.a), 1), Ephemeral(z.b), -1), base, 0));
            BothFinish(z, p, q, Multiple(f, base) == KeyPoint(Ephemeral(z.b)))
  {
    hide Scale, BothFinish;
    var a, b := Ephemeral(z.a), Ephemeral(z.b);
    var g := Scale(Scale(f, a, 1), b, -1);
    TermOfEncode(Curve(f, base, form));
    TermOfEncode(Curve(g, base, 0));
    ScaleUndone(Scale(f, a, 1), b, -1);
    assert Scale(g, b, 1) == Scale(f, a, 1);
    ReboxedRuns(z, Encode(Curve(f, base, form)), Encode(Curve(g, base, 0)));
  }

  // Each other's keys times one more scalar, for one: that takes no division by a secret.
  lemma {:induction false} MultipliedKeysDiverge(z: Setup, e: Scalar)
    requires z.WellSized() && Good(z)
    ensures var p := Times(e, KeyPoint(Ephemeral(z.b)));
            var q := Times(e, KeyPoint(Ephemeral(z.a)));
            BothFinish(z, p, q, false)
  {
    hide Scale, BothFinish;
    var a, b := Ephemeral(z.a), Ephemeral(z.b);
    var f, g := Scale(Once(b), e, 1), Scale(Once(a), e, 1);
    TermOfEncode(Curve(f, Generator, 0));
    TermOfEncode(Curve(g, Generator, 0));
    ScaledExponents(Once(b), e, 1);
    ScaledExponents(Once(a), e, 1);
    ScaledExponents(f, a, 1);
    ScaledExponents(g, b, 1);
    SameExponents(Scale(f, a, 1), Scale(g, b, 1));
    assert Exponent(f, e) != Exponent(Once(b), e);
    ReboxedRuns(z, Encode(Curve(f, Generator, 0)), Encode(Curve(g, Generator, 0)));
  }
}
