// What the handshake's messages prove to the peers that accept them, whoever delivered them.

module Agreement {
  import opened Prelude
  import opened Symbolic
  import opened HandshakeCore

  // The secrets of a peer that has verified a challenge follow from the key it carried.
  ghost predicate HonestlyMet(c: Core) {
    && c.Met() && |c.K| == 32
    && c.ab.value == Times(Ephemeral(c.x), PointOf(c.yp.value))
    && c.hashab.value == HashOf(c.ab.value)
  }

  lemma MeetHonestly(c: Core, yp: Bytes)
    requires |c.K| == 32
    ensures HonestlyMet(Meet(c, yp))
  {
  }

  // A challenge is accepted only if all of it is the HMAC of the key it carries, and that key.
  lemma ChallengeIsWhole(c: Core, challenge: Bytes)
    requires |challenge| == CHALLENGE_SIZE
    ensures GoodChallenge(c, challenge) <==> challenge == Encode(Hmac(c.K, challenge[32..])) + challenge[32..]
  {
    var h, key := Encode(Hmac(c.K, challenge[32..])), challenge[32..];
    assert challenge == challenge[..32] + key;
    assert (h + key)[..32] == h;
  }

  // Do two runs hold the same app ID, each other's long-term keys, each other's ephemeral keys
  // as points of the curve, and the same secrets and proof of identity?
  predicate Agree(c: Core, s: Core)
    requires c.Identified() && s.Identified()
  {
    && c.K == s.K
    && PointOf(c.yp.value) == KeyPoint(Ephemeral(s.x)) && PointOf(s.yp.value) == KeyPoint(Ephemeral(c.x))
    && c.Yp.value == s.Xp() && s.Yp.value == c.Xp()
    && c.ab == s.ab && c.hashab == s.hashab && c.aB == s.aB && c.Ab == s.Ab && c.H == s.H
  }

  // Has each received the very bytes of the other's ephemeral key?
  predicate SameBytes(c: Core, s: Core)
    requires c.yp.Some? && s.yp.Some?
  {
    c.yp.value == s.xp() && s.yp.value == c.xp()
  }

  lemma ClientKeyParts(c: Core, s: Core)
    requires c.ab.Some? && c.aB.Some? && s.ab.Some? && s.aB.Some?
    requires |c.K| == |s.K| && |c.ab.value| == |s.ab.value|
    requires ClientAuthKey(c) == ClientAuthKey(s)
    ensures c.K == s.K && c.ab == s.ab && c.aB == s.aB
  {
    EncodeInjective(Hash(c.K + c.ab.value + c.aB.value), Hash(s.K + s.ab.value + s.aB.value));
    SplitEqual(c.K + c.ab.value, c.aB.value, s.K + s.ab.value, s.aB.value);
    SplitEqual(c.K, c.ab.value, s.K, s.ab.value);
  }

  lemma ServerKeyParts(c: Core, s: Core)
    requires c.ab.Some? && c.aB.Some? && c.Ab.Some? && s.ab.Some? && s.aB.Some? && s.Ab.Some?
    requires |c.K| == |s.K| && |c.ab.value| == |s.ab.value| && |c.aB.value| == |s.aB.value|
    requires ServerAckKey(c) == ServerAckKey(s)
    ensures c.K == s.K && c.ab == s.ab && c.aB == s.aB && c.Ab == s.Ab
  {
    EncodeInjective(Hash(c.K + c.ab.value + c.aB.value + c.Ab.value),
                    Hash(s.K + s.ab.value + s.aB.value + s.Ab.value));
    SplitEqual(c.K + c.ab.value + c.aB.value, c.Ab.value, s.K + s.ab.value + s.aB.value, s.Ab.value);
    SplitEqual(c.K + c.ab.value, c.aB.value, s.K + s.ab.value, s.aB.value);
    SplitEqual(c.K, c.ab.value, s.K, s.ab.value);
  }

  // A public key that checks a signature is the signer's.
  lemma CheckedBySigner(publicKey: Bytes, id: nat, signed: Bytes, message: Bytes)
    requires Check(publicKey, Sign(id, signed), message)
    ensures publicKey == PublicKey(id) && message == signed
  {
    var pk := TermOf(publicKey).value;
    EncodeInjective(Signature(id, signed), Signature(pk.id, message));
  }

  // A client that wants s, and a server that has opened an identity c's, in terms of the points
  // each received.
  ghost predicate Paired(c: Core, s: Core) {
    && HonestlyMet(c) && HonestlyMet(s) && c.Identified() && s.Identified()
    && c.K == s.K && c.Yp.value == s.Xp() && s.Yp.value == c.Xp() && c.H == s.H && c.ab == s.ab
    && c.aB.value == Times(Ephemeral(c.x), ForKeyExchange(c.Yp.value))
    && c.Ab.value == Times(LongTerm(c.X), PointOf(c.yp.value))
    && s.aB.value == Times(LongTerm(s.X), PointOf(s.yp.value))
    && s.Ab.value == Times(Ephemeral(s.x), ForKeyExchange(s.Yp.value))
  }

  // Each of the three secrets pins down a point that was received.
  lemma SecretsPinPoints(c: Core, s: Core)
    requires Paired(c, s)
    ensures c.aB == s.aB <==> PointOf(s.yp.value) == KeyPoint(Ephemeral(c.x))
    ensures c.Ab == s.Ab <==> PointOf(c.yp.value) == KeyPoint(Ephemeral(s.x))
    ensures PointOf(c.yp.value) == KeyPoint(Ephemeral(s.x)) <==> PointOf(s.yp.value) == KeyPoint(Ephemeral(c.x))
  {
    hide PointOf, Times, ForKeyExchange;
    PublicKeyConverts(s.X);
    PublicKeyConverts(c.X);
    TimesCommutes(Ephemeral(c.x), LongTerm(s.X));
    TimesCommutes(LongTerm(c.X), Ephemeral(s.x));
    TimesCommutes(Ephemeral(c.x), Ephemeral(s.x));
    TimesOnlyShares(LongTerm(s.X), PointOf(s.yp.value), Ephemeral(c.x));
    TimesOnlyShares(LongTerm(c.X), PointOf(c.yp.value), Ephemeral(s.x));
    TimesOnlyShares(Ephemeral(c.x), PointOf(c.yp.value), Ephemeral(s.x));
    TimesOnlyShares(Ephemeral(s.x), PointOf(s.yp.value), Ephemeral(c.x));
  }

  // The session keys mirror exactly if the client received the server's ephemeral point.
  lemma KeysMirrorExactly(c: Core, s: Core)
    requires Paired(c, s)
    ensures Agree(c, s) <==> PointOf(c.yp.value) == KeyPoint(Ephemeral(s.x))
    ensures KeysMirrored(Outcome(KeepAckKey(c)), Outcome(KeepAckKey(s))) <==> Agree(c, s)
  {
    hide PointOf, Times, ForKeyExchange;
    SecretsPinPoints(c, s);
    if KeysMirrored(Outcome(KeepAckKey(c)), Outcome(KeepAckKey(s))) {
      SessionKeysShareAckKey(KeepAckKey(c), KeepAckKey(s));
      ServerKeyParts(c, s);
    }
  }

  lemma SessionKeysShareAckKey(c: Core, s: Core)
    requires c.Done() && s.Done() && Outcome(c).encryptionKey == Outcome(s).decryptionKey
    ensures c.ackKey == s.ackKey
  {
    var k, l := c.ackKey.value, s.ackKey.value;
    EncodeInjective(Hash(HashOf(k) + c.Yp.value), Hash(HashOf(l) + s.Xp()));
    SplitEqual(HashOf(k), c.Yp.value, HashOf(l), s.Xp());
    EncodeInjective(Hash(k), Hash(l));
  }

  // Each nonce is shared exactly if the key it is made from was received byte for byte.
  lemma NoncesMirrorExactly(c: Core, s: Core)
    requires c.Done() && s.Done() && c.K == s.K
    ensures Outcome(c).encryptionNonce == Outcome(s).decryptionNonce <==> c.yp.value == s.xp()
    ensures Outcome(s).encryptionNonce == Outcome(c).decryptionNonce <==> s.yp.value == c.xp()
  {
    NonceMadeFrom(c.K, c.yp.value, s.xp());
    NonceMadeFrom(c.K, s.yp.value, c.xp());
  }

  lemma NonceMadeFrom(K: Bytes, p: Bytes, q: Bytes)
    ensures HmacOf(K, p)[..24] == HmacOf(K, q)[..24] <==> p == q
  {
    if HmacOf(K, p)[..24] == HmacOf(K, q)[..24] {
      assert HmacOf(K, p)[..24][0] == HmacOf(K, q)[..24][0];
    }
  }

  // To the client: an acknowledgement it accepts, if made by some server run, was made by the
  // very server it wanted, in answer to its own messages, and the session keys are mirrored;
  // the nonces are exactly if each received the other's ephemeral key byte for byte. Nothing is
  // assumed about who delivered any of the messages.
  lemma ClientAgreement(c0: Core, s0: Core, auth: Bytes, ack: Bytes)
    requires HonestlyMet(c0) && c0.Yp.Some?
    requires HonestlyMet(s0) && |auth| == CLIENT_AUTH_SIZE && GoodAuth(s0, auth)
    requires ack == ServerAckMessage(AfterAuth(s0, auth))
    requires GoodAck(Identify(c0), ack)
    ensures Agree(Identify(c0), AfterAuth(s0, auth))
    ensures var c, s := Outcome(KeepAckKey(Identify(c0))), Outcome(KeepAckKey(AfterAuth(s0, auth)));
            KeysMirrored(c, s) && (Mirrored(c, s) <==> SameBytes(c0, s0))
  {
    hide PointOf, Times, ForKeyExchange;
    var c, s := Identify(c0), AfterAuth(s0, auth);
    var signed := ServerClaim(s.K, s.H.value, s.hashab.value);
    UnboxBox(ServerAckKey(s), ServerAckKey(c), Sign(s.X, signed));
    ServerKeyParts(c, s);
    CheckedBySigner(c.Yp.value, s.X, signed, ServerClaim(c.K, c.H.value, c.hashab.value));
    SplitEqual(c.K + c.H.value, c.hashab.value, s.K + s.H.value, s.hashab.value);
    SplitEqual(c.K, c.H.value, s.K, s.H.value);
    assert c.H.value[64..] == c.Xp();
    SecretsPinPoints(c, s);
    NoncesMirrorExactly(KeepAckKey(c), KeepAckKey(s));
  }

  // To the server: an identity it accepts, if made by some client run, was made by a client
  // that wanted this server, and for this very exchange.
  lemma ServerAgreement(c0: Core, s0: Core, auth: Bytes)
    requires HonestlyMet(c0) && c0.Yp.Some?
    requires HonestlyMet(s0) && |auth| == CLIENT_AUTH_SIZE && GoodAuth(s0, auth)
    requires auth == ClientAuthMessage(Identify(c0))
    requires |c0.Yp.value| == 32
    ensures Agree(Identify(c0), AfterAuth(s0, auth))
    ensures var c, s := Outcome(KeepAckKey(Identify(c0))), Outcome(KeepAckKey(AfterAuth(s0, auth)));
            KeysMirrored(c, s) && (Mirrored(c, s) <==> SameBytes(c0, s0))
  {
    hide PointOf, Times, ForKeyExchange;
    var c, s := Identify(c0), AfterAuth(s0, auth);
    UnboxBox(ClientAuthKey(c), ClientAuthKey(s), c.H.value);
    ClientKeyParts(c, s);
    var signed := ClientClaim(c.K, c.Yp.value, c.hashab.value);
    assert c.H.value[64..] == c.Xp() && c.H.value[..64] == Sign(c.X, signed);
    CheckedBySigner(c.Xp(), c.X, signed, ClientClaim(s.K, s.Xp(), s.hashab.value));
    SplitEqual(c.K + c.Yp.value, c.hashab.value, s.K + s.Xp(), s.hashab.value);
    SplitEqual(c.K, c.Yp.value, s.K, s.Xp());
    SecretsPinPoints(c, s);
    NoncesMirrorExactly(KeepAckKey(c), KeepAckKey(s));
  }

  // Conversely, a client that wants this server and a server, each holding the other's
  // ephemeral point in whatever encoding, accept each other's messages.
  lemma SamePointsFinish(c0: Core, s0: Core)
    requires HonestlyMet(c0) && HonestlyMet(s0) && c0.K == s0.K && c0.Yp == Some(s0.Xp())
    requires PointOf(c0.yp.value) == KeyPoint(Ephemeral(s0.x)) && PointOf(s0.yp.value) == KeyPoint(Ephemeral(c0.x))
    ensures var c, auth := Identify(c0), ClientAuthMessage(Identify(c0));
            && GoodAuth(s0, auth)
            && var s := AfterAuth(s0, auth);
               s.H == c.H && s.Yp == Some(c.Xp()) && GoodAck(c, ServerAckMessage(s))
  {
    hide PointOf, Times, ForKeyExchange, Check;
    var c, auth := Identify(c0), ClientAuthMessage(Identify(c0));
    TimesCommutes(Ephemeral(c.x), Ephemeral(s0.x));
    PublicKeyConverts(s0.X);
    TimesCommutes(Ephemeral(c.x), LongTerm(s0.X));
    UnboxBox(ClientAuthKey(c), ClientAuthKey(c), c.H.value);
    var claim := ClientClaim(c.K, c.Yp.value, c.hashab.value);
    assert c.H.value[64..] == c.Xp() && c.H.value[..64] == Sign(c.X, claim);
    CheckSign(c.X, claim);
    var s := AfterAuth(s0, auth);
    PublicKeyConverts(c.X);
    TimesCommutes(LongTerm(c.X), Ephemeral(s.x));
    var reply := ServerClaim(s.K, s.H.value, s.hashab.value);
    UnboxBox(ServerAckKey(s), ServerAckKey(c), Sign(s.X, reply));
    CheckSign(s.X, reply);
  }
}
