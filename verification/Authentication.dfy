// What a run may conclude about the other side among any number of runs, under an attacker:
// from signatures alone, and from the secrecy of scalars.

module Authentication {
  import opened Prelude
  import opened Symbolic
  import opened HandshakeCore
  import opened Agreement
  import opened HandshakeSteps
  import opened HandshakeHistories
  import opened Deduction
  import opened Worlds

  // What two runs whose claims belong together come to: they agree, with mirrored session keys,
  // exactly if the client received the server's ephemeral point; and their nonces mirror too
  // exactly if each received the other's ephemeral key byte for byte.
  ghost predicate AgreeExactly(k: Core, l: Core)
    requires k.Identified() && l.Identified()
  {
    var c, s := Outcome(KeepAckKey(k)), Outcome(KeepAckKey(l));
    && (Agree(k, l) <==> PointOf(k.yp.value) == KeyPoint(Ephemeral(l.x)))
    && (KeysMirrored(c, s) <==> Agree(k, l))
    && (Mirrored(c, s) <==> SameBytes(k, l))
  }

  // A client's and a server's run with one app ID, one proof, one a.b and each other's long-term
  // keys.
  ghost predicate Counterparts(c: Party, s: Party) {
    && Knowing(c) && c.start.role.Client? && Knowing(s) && s.start.role.Server?
    && var k, l := Knowledge(c), Knowledge(s);
       && k.K == l.K && k.H == l.H && k.ab == l.ab && k.Yp.value == l.Xp() && l.Yp.value == k.Xp()
       && AgreeExactly(k, l)
  }

  lemma {:induction false} PairedAgreeExactly(k: Core, l: Core)
    requires Paired(k, l)
    ensures AgreeExactly(k, l)
  {
    hide Times, PointOf, ForKeyExchange, Outcome;
    KeysMirrorExactly(k, l);
    NoncesMirrorExactly(KeepAckKey(k), KeepAckKey(l));
    KeyDecodes(Ephemeral(l.x), 0);
  }

  lemma {:induction false} ClaimsPair(c: Party, s: Party)
    requires Knowing(c) && c.start.role.Client? && Knowing(s) && s.start.role.Server?
    requires var k, l := Knowledge(c), Knowledge(s);
             k.K == l.K && k.H == l.H && k.hashab == l.hashab && k.Yp.value == l.Xp()
    ensures Counterparts(c, s)
  {
    hide Check, Unbox, GoodAuth, GoodAck, GoodChallenge, Challenge, ClientHistory, ServerHistory,
         Times, PointOf, ForKeyExchange, AgreeExactly;
    var k, l := Knowledge(c), Knowledge(s);
    MeetHonestly(c.start.core, c.trace.consumed[32..CHALLENGE_SIZE]);
    MeetHonestly(s.start.core, s.trace.consumed[32..CHALLENGE_SIZE]);
    EncodeInjective(Hash(k.ab.value), Hash(l.ab.value));
    assert k.H.value[64..] == k.Xp();
    assert Paired(k, l);
    PairedAgreeExactly(k, l);
  }

  // The message a run has read after the challenge.
  ghost function SecondRead(p: Party): Bytes
    requires Knowing(p)
  {
    p.trace.consumed[CHALLENGE_SIZE..]
  }

  lemma {:induction false} SecondReadWasSent(att: Attacker, w: World, i: nat)
    requires Inv(att, w) && i < |w| && Knowing(w[i])
    ensures CanSend(att, Out(att, w), SecondRead(w[i]))
  {
    hide CanSend, Out, ClientHistory, ServerHistory, Admits;
    var b := w[i].trace.consumed;
    assert b == b[..CHALLENGE_SIZE] + b[CHALLENGE_SIZE..];
    CanSendJoined(att, Out(att, w), b[..CHALLENGE_SIZE], b[CHALLENGE_SIZE..]);
  }

  // What a finished client, and a server that has admitted an honest client, have read.
  lemma {:induction false} FinishedClientRead(p: Party, B: nat)
    requires Explained(p) && p.start.role.Client? && p.trace.peer.step == Finished
    requires p.start.core.Yp == Some(PublicKey(B))
    ensures Answered(p) && Knowledge(p).Yp == Some(PublicKey(B))
    ensures var k := Knowledge(p);
            SecondRead(p) == Symbolic.Box(ServerAckKey(k), Sign(B, ServerClaim(k.K, k.H.value, k.hashab.value)))
  {
    hide Challenge, GoodChallenge, ClientAuthMessage, PointOf, Times, ForKeyExchange;
    TermOfEncode(SigningPublic(B, 0));
  }

  lemma {:induction false} ServerRead(p: Party, A: nat)
    requires Knowing(p) && p.start.role.Server? && Knowledge(p).Yp == Some(PublicKey(A))
    ensures var l := Knowledge(p);
            && l.H.value == Sign(A, ClientClaim(l.K, l.Xp(), l.hashab.value)) + PublicKey(A)
            && SecondRead(p) == Symbolic.Box(ClientAuthKey(l), l.H.value)
  {
    hide ClientHistory, ServerHistory, Challenge, GoodChallenge, PointOf, Times, ForKeyExchange;
    TermOfEncode(SigningPublic(A, 0));
    var l := Knowledge(p);
    assert l.H.value == l.H.value[..64] + l.H.value[64..];
  }

  // -------------------------------------------------------------------------------------
  // From signatures

  // A box around an honest signature that has been read means that an honest run has signed.
  lemma {:induction false} SignatureHasSigner(att: Attacker, w: World, key: Bytes, id: nat, message: Bytes, rest: Bytes)
    returns (i: nat)
    requires AllExplained(w) && id in att.honest
    requires CanSend(att, Out(att, w), Symbolic.Box(key, Sign(id, message) + rest))
    ensures i < |w| && Answered(w[i]) && Signed(w[i]) == Signature(id, message)
  {
    hide Explained, Released, Knowing;
    var out, t := Out(att, w), Boxed(key, Sign(id, message) + rest);
    CanSendTerm(att, out, t);
    if t in out {
      i :| 0 <= i < |w| && t in Released(att, w[i]);
      OwnAnswer(att, w[i], t);
      AnswerHoldsSignature(w[i], id, message, rest);
    } else {
      CanSendJoined(att, out, Sign(id, message), rest);
      CanSendTerm(att, out, Signature(id, message));
      i :| 0 <= i < |w| && Signature(id, message) in Released(att, w[i]);
      OwnAnswer(att, w[i], Signature(id, message));
    }
  }

  lemma {:induction false} AnswerHoldsSignature(p: Party, id: nat, message: Bytes, rest: Bytes)
    requires Knowing(p) && Answer(p).plaintext == Sign(id, message) + rest
    ensures Signed(p) == Signature(id, message)
  {
    hide ClientHistory, ServerHistory, GoodAuth, Admits, Meets;
    if p.start.role.Client? {
      SplitEqual(Encode(Signed(p)), PublicKey(p.start.core.X), Sign(id, message), rest);
    } else {
      assert Encode(Signed(p)) + [] == Encode(Signed(p));
      SplitEqual(Encode(Signed(p)), [], Sign(id, message), rest);
    }
    EncodeInjective(Signed(p), Signature(id, message));
  }

  // To the client: if it has finished, expecting the key of a server that the attacker cannot sign
  // for, then that server has a run that admitted exactly this client's proof for exactly this
  // a.b; and they agree exactly as far as the keys they were given are each other's. The attacker
  // may hold every scalar.
  lemma {:induction false} ClientAuthentication(att: Attacker, w0: World, moves: seq<Move>, w: World, c: nat, B: nat)
    returns (s: nat)
    requires NoneBegun(w0) && AllPermitted(att, w0, moves) && w == After(att, w0, moves)
    requires c < |w| && w[c].start.role.Client? && w[c].trace.peer.step == Finished
    requires w[c].start.core.Yp == Some(PublicKey(B)) && B in att.honest
    ensures s < |w| && Answered(w[c]) && Answered(w[s]) && w[s].start.core.X == B
    ensures Counterparts(w[c], w[s])
  {
    ReachableInv(att, w0, moves);
    s := FinishedClientHasServer(att, w, c, B);
  }

  lemma {:induction false} FinishedClientHasServer(att: Attacker, w: World, c: nat, B: nat) returns (s: nat)
    requires Inv(att, w)
    requires c < |w| && w[c].start.role.Client? && w[c].trace.peer.step == Finished
    requires w[c].start.core.Yp == Some(PublicKey(B)) && B in att.honest
    ensures s < |w| && Answered(w[c]) && Answered(w[s]) && w[s].start.core.X == B
    ensures Counterparts(w[c], w[s])
  {
    hide CanSend, Out, Explained, Knowing, Counterparts, Knowledge;
    FinishedClientRead(w[c], B);
    SecondReadWasSent(att, w, c);
    var k := Knowledge(w[c]);
    var claim := ServerClaim(k.K, k.H.value, k.hashab.value);
    assert Sign(B, claim) + [] == Sign(B, claim);
    s := SignatureHasSigner(att, w, ServerAckKey(k), B, claim, []);
    ServerClaimsPair(w[c], w[s]);
  }

  lemma {:induction false} ServerClaimsPair(c: Party, s: Party)
    requires Knowing(c) && c.start.role.Client? && Knowing(s)
    requires var k := Knowledge(c);
             && Claim(s) == ServerClaim(k.K, k.H.value, k.hashab.value)
             && k.Yp.value == PublicKey(s.start.core.X)
    ensures Counterparts(c, s)
  {
    hide ClientHistory, ServerHistory, GoodAuth, GoodChallenge, Challenge, PointOf, Times, ForKeyExchange, AgreeExactly;
    var k, l := Knowledge(c), Knowledge(s);
    assert s.start.role.Server?;
    SplitEqual(k.K + k.H.value, k.hashab.value, l.K + l.H.value, l.hashab.value);
    SplitEqual(k.K, k.H.value, l.K, l.H.value);
    ClaimsPair(c, s);
  }

  // To the server: if it is ready to acknowledge or has finished, and the key it admitted is a
  // client's that the attacker cannot sign for, then that client has a run that wanted this
  // server, for exactly this a.b; and they agree exactly as far as the keys they were given are
  // each other's. The attacker may hold every scalar.
  lemma {:induction false} ServerAuthentication(att: Attacker, w0: World, moves: seq<Move>, w: World, s: nat, A: nat)
    returns (c: nat)
    requires NoneBegun(w0) && AllPermitted(att, w0, moves) && w == After(att, w0, moves)
    requires s < |w| && w[s].start.role.Server?
    requires w[s].trace.peer.step == ServerAck || w[s].trace.peer.step == Finished
    requires w[s].trace.peer.core.Yp == Some(PublicKey(A)) && A in att.honest
    ensures c < |w| && Answered(w[c]) && w[c].start.core.X == A
    ensures Counterparts(w[c], w[s])
  {
    ReachableInv(att, w0, moves);
    ReadyServerKnows(w[s]);
    c := AdmittedClientExists(att, w, s, A);
  }

  lemma {:induction false} AdmittedClientExists(att: Attacker, w: World, s: nat, A: nat) returns (c: nat)
    requires Inv(att, w)
    requires s < |w| && w[s].start.role.Server? && Knowing(w[s])
    requires Knowledge(w[s]).Yp == Some(PublicKey(A)) && A in att.honest
    ensures c < |w| && Answered(w[c]) && w[c].start.core.X == A
    ensures Counterparts(w[c], w[s])
  {
    hide CanSend, Out, Explained, Knowing, Counterparts, Knowledge;
    ServerRead(w[s], A);
    SecondReadWasSent(att, w, s);
    var l := Knowledge(w[s]);
    var claim := ClientClaim(l.K, l.Xp(), l.hashab.value);
    c := SignatureHasSigner(att, w, ClientAuthKey(l), A, claim, PublicKey(A));
    ClientClaimsPair(w[c], w[s], A);
  }

  lemma {:induction false} ClientClaimsPair(c: Party, s: Party, A: nat)
    requires Knowing(c) && c.start.core.X == A && Knowing(s) && s.start.role.Server?
    requires Knowledge(s).Yp == Some(PublicKey(A))
    requires var l := Knowledge(s); Claim(c) == ClientClaim(l.K, l.Xp(), l.hashab.value)
    ensures Counterparts(c, s)
  {
    hide ClientHistory, ServerHistory, GoodAuth, GoodChallenge, Challenge, PointOf, Times, ForKeyExchange, AgreeExactly;
    ServerRead(s, A);
    var k, l := Knowledge(c), Knowledge(s);
    assert c.start.role.Client?;
    SplitEqual(k.K + k.Yp.value, k.hashab.value, l.K + l.Xp(), l.hashab.value);
    SplitEqual(k.K, k.Yp.value, l.K, l.Xp());
    ClaimsPair(c, s);
  }

  // -------------------------------------------------------------------------------------
  // From secrecy

  // Whoever has a hash of it has the secret.
  lemma {:induction false} HashNeedsSecret(att: Attacker, out: set<Term>, before: Bytes, secret: Bytes, behind: Bytes)
    requires OnlyMessages(out) && CanSend(att, out, HashOf(before + secret + behind))
    ensures CanSend(att, out, secret)
  {
    var data := before + secret + behind;
    CanSendTerm(att, out, Hash(data));
    assert CanSend(att, out, data);
    CanSendJoined(att, out, before + secret, behind);
    CanSendJoined(att, out, before, secret);
  }

  // A box whose key or contents the attacker does not have was made by an honest run.
  lemma {:induction false} BoxHasMaker(att: Attacker, w: World, key: Bytes, plaintext: Bytes) returns (i: nat)
    requires AllExplained(w) && CanSend(att, Out(att, w), Symbolic.Box(key, plaintext))
    requires !CanSend(att, Out(att, w), key) || !CanSend(att, Out(att, w), plaintext)
    ensures i < |w| && Answered(w[i]) && Answer(w[i]) == Boxed(key, plaintext)
  {
    hide Explained, Released, Knowing;
    var out, t := Out(att, w), Boxed(key, plaintext);
    CanSendTerm(att, out, t);
    i :| 0 <= i < |w| && t in Released(att, w[i]);
    OwnAnswer(att, w[i], t);
  }

  // The secret a.B of a client and the server it wants.
  lemma {:induction false} ClientsSecret(p: Party, B: nat)
    requires Knowing(p) && p.start.role.Client? && Knowledge(p).Yp == Some(PublicKey(B))
    ensures Knowledge(p).aB == Some(Secret(Ephemeral(p.start.core.x), LongTerm(B)))
  {
    hide PointOf, Times, ForKeyExchange, GoodChallenge, ClientHistory;
    PublicKeyConverts(B);
    TimesCommutes(Ephemeral(p.start.core.x), LongTerm(B));
  }

  // To the client: if it has finished, and the attacker holds neither its ephemeral scalar nor the
  // wanted server's, then that server has a run that answered it, and the two agree on everything,
  // with mirrored session keys. The attacker may sign as anyone.
  lemma {:induction false} ClientSharesKeys(att: Attacker, w0: World, moves: seq<Move>, w: World, c: nat, B: nat)
    returns (s: nat)
    requires NoneBegun(w0) && AllPermitted(att, w0, moves) && w == After(att, w0, moves)
    requires c < |w| && w[c].start.role.Client? && w[c].trace.peer.step == Finished
    requires w[c].start.core.Yp == Some(PublicKey(B))
    requires Ephemeral(w[c].start.core.x) in att.secrets && LongTerm(B) in att.secrets
    ensures s < |w| && Answered(w[c]) && Answered(w[s]) && w[s].start.core.X == B
    ensures Counterparts(w[c], w[s]) && Agree(Knowledge(w[c]), Knowledge(w[s]))
  {
    ReachableInv(att, w0, moves);
    s := SecretClientHasServer(att, w, c, B);
  }

  lemma {:induction false} SecretClientHasServer(att: Attacker, w: World, c: nat, B: nat) returns (s: nat)
    requires Inv(att, w)
    requires c < |w| && w[c].start.role.Client? && w[c].trace.peer.step == Finished
    requires w[c].start.core.Yp == Some(PublicKey(B))
    requires Ephemeral(w[c].start.core.x) in att.secrets && LongTerm(B) in att.secrets
    ensures s < |w| && Answered(w[c]) && Answered(w[s]) && w[s].start.core.X == B
    ensures Counterparts(w[c], w[s]) && Agree(Knowledge(w[c]), Knowledge(w[s]))
  {
    hide CanSend, Out, Explained, Knowing, Counterparts, Agree, Answer, OnlyMessages;
    FinishedClientRead(w[c], B);
    SecondReadWasSent(att, w, c);
    var k, out := Knowledge(w[c]), Out(att, w);
    var sig := Sign(B, ServerClaim(k.K, k.H.value, k.hashab.value));
    if CanSend(att, out, ServerAckKey(k)) {
      HashNeedsSecret(att, out, k.K + k.ab.value, k.aB.value, k.Ab.value);
      ClientsSecret(w[c], B);
      SecretIsKept(att, out, Ephemeral(w[c].start.core.x), LongTerm(B));
    }
    s := BoxHasMaker(att, w, ServerAckKey(k), sig);
    AnsweredClientAgrees(w[c], w[s], B);
  }

  lemma {:induction false} AnsweredClientAgrees(c: Party, s: Party, B: nat)
    requires Explained(c) && c.start.role.Client? && c.trace.peer.step == Finished
    requires c.start.core.Yp == Some(PublicKey(B)) && Knowing(c) && Knowing(s)
    requires var k := Knowledge(c);
             Answer(s) == Boxed(ServerAckKey(k), Sign(B, ServerClaim(k.K, k.H.value, k.hashab.value)))
    ensures s.start.core.X == B && Counterparts(c, s) && Agree(Knowledge(c), Knowledge(s))
  {
    hide ClientHistory, ServerHistory, GoodAuth, GoodChallenge, Challenge, PointOf, Times, ForKeyExchange, AgreeExactly;
    assert s.start.role.Server?;
    var k, l := Knowledge(c), Knowledge(s);
    EncodeInjective(Signed(s), Signature(B, ServerClaim(k.K, k.H.value, k.hashab.value)));
    ServerKeyParts(k, l);
    ServerClaimsPair(c, s);
    SameSecretsAgree(c, s);
  }

  // Counterparts with one A.b agree.
  lemma {:induction false} SameSecretsAgree(c: Party, s: Party)
    requires Counterparts(c, s) && Knowledge(c).Ab == Knowledge(s).Ab
    ensures Agree(Knowledge(c), Knowledge(s))
  {
    hide ClientHistory, ServerHistory, GoodAuth, GoodChallenge, Challenge, PointOf, Times, ForKeyExchange, Agree,
         Outcome, KeysMirrored, Mirrored;
    var k, l := Knowledge(c), Knowledge(s);
    MeetHonestly(c.start.core, c.trace.consumed[32..CHALLENGE_SIZE]);
    MeetHonestly(s.start.core, s.trace.consumed[32..CHALLENGE_SIZE]);
    assert Paired(k, l);
    SecretsPinPoints(k, l);
  }

  // To the server: if it is ready to acknowledge or has finished, the key it admitted is a
  // client's that the attacker cannot sign for, and the attacker holds neither the server's
  // scalar nor an ephemeral one of that client's, then that client has a run that wanted this
  // server, and the two agree on everything, with mirrored session keys.
  lemma {:induction false} ServerSharesKeys(att: Attacker, w0: World, moves: seq<Move>, w: World, s: nat, A: nat)
    returns (c: nat)
    requires NoneBegun(w0) && AllPermitted(att, w0, moves) && w == After(att, w0, moves)
    requires s < |w| && w[s].start.role.Server?
    requires w[s].trace.peer.step == ServerAck || w[s].trace.peer.step == Finished
    requires w[s].trace.peer.core.Yp == Some(PublicKey(A)) && A in att.honest
    requires LongTerm(w[s].start.core.X) in att.secrets && SecretRuns(att, w, A)
    ensures c < |w| && Answered(w[c]) && w[c].start.core.X == A
    ensures Counterparts(w[c], w[s]) && Agree(Knowledge(w[c]), Knowledge(w[s]))
  {
    ReachableInv(att, w0, moves);
    ReadyServerKnows(w[s]);
    c := SecretServerHasClient(att, w, s, A);
  }

  // The attacker holds none of the ephemeral scalars A's runs as a client have drawn.
  ghost predicate SecretRuns(att: Attacker, w: World, A: nat) {
    forall i | 0 <= i < |w| && w[i].start.core.X == A && w[i].start.role.Client? ::
      Ephemeral(w[i].start.core.x) in att.secrets
  }

  lemma {:induction false} SecretServerHasClient(att: Attacker, w: World, s: nat, A: nat) returns (c: nat)
    requires Inv(att, w)
    requires s < |w| && w[s].start.role.Server? && Knowing(w[s])
    requires Knowledge(w[s]).Yp == Some(PublicKey(A)) && A in att.honest
    requires LongTerm(w[s].start.core.X) in att.secrets && SecretRuns(att, w, A)
    ensures c < |w| && Answered(w[c]) && w[c].start.core.X == A
    ensures Counterparts(w[c], w[s]) && Agree(Knowledge(w[c]), Knowledge(w[s]))
  {
    hide CanSend, Out, Explained, Knowing, Counterparts, Agree, Answer;
    ServerRead(w[s], A);
    SecondReadWasSent(att, w, s);
    ProofIsKept(att, w, w[s], A);
    c := BoxHasMaker(att, w, ClientAuthKey(Knowledge(w[s])), Knowledge(w[s]).H.value);
    AdmittedClientAgrees(w[c], w[s], A);
  }

  // A proof that was only ever boxed under secret keys cannot be boxed anew.
  lemma {:induction false} ProofIsKept(att: Attacker, w: World, s: Party, A: nat)
    requires AllExplained(w) && Knowing(s) && s.start.role.Server?
    requires Knowledge(s).Yp == Some(PublicKey(A)) && A in att.honest
    requires LongTerm(s.start.core.X) in att.secrets && SecretRuns(att, w, A)
    ensures !CanSend(att, Out(att, w), Knowledge(s).H.value)
  {
    hide Explained, Knowing, Released, Counterparts;
    ServerRead(s, A);
    var l, out := Knowledge(s), Out(att, w);
    var claim := ClientClaim(l.K, l.Xp(), l.hashab.value);
    if CanSend(att, out, l.H.value) {
      CanSendJoined(att, out, Sign(A, claim), PublicKey(A));
      CanSendTerm(att, out, Signature(A, claim));
      var i :| 0 <= i < |w| && Signature(A, claim) in Released(att, w[i]);
      OwnAnswer(att, w[i], Signature(A, claim));
      ExposedClaim(att, w[i], s, A);
    }
  }

  lemma {:induction false} ExposedClaim(att: Attacker, c: Party, s: Party, A: nat)
    requires Knowing(c) && c.start.core.X == A && Exposed(att, c) && Knowing(s) && s.start.role.Server?
    requires Knowledge(s).Yp == Some(PublicKey(A))
    requires var l := Knowledge(s); Claim(c) == ClientClaim(l.K, l.Xp(), l.hashab.value)
    requires LongTerm(s.start.core.X) in att.secrets
    ensures c.start.role.Client? && Ephemeral(c.start.core.x) !in att.secrets
  {
    hide Knowing, Knowledge, Claim, AgreeExactly, Computable;
    ClientClaimsPair(c, s, A);
    ClientsSecret(c, s.start.core.X);
    if Ephemeral(c.start.core.x) in att.secrets {
      SecretIsNotComputable(att.secrets, Ephemeral(c.start.core.x), LongTerm(s.start.core.X));
    }
  }

  lemma {:induction false} AdmittedClientAgrees(c: Party, s: Party, A: nat)
    requires Knowing(c) && Knowing(s) && s.start.role.Server? && Knowledge(s).Yp == Some(PublicKey(A))
    requires Answer(c) == Boxed(ClientAuthKey(Knowledge(s)), Knowledge(s).H.value)
    ensures c.start.core.X == A && Counterparts(c, s) && Agree(Knowledge(c), Knowledge(s))
  {
    hide ClientHistory, ServerHistory, GoodAuth, GoodChallenge, Challenge, PointOf, Times, ForKeyExchange, AgreeExactly;
    ServerRead(s, A);
    var k, l := Knowledge(c), Knowledge(s);
    assert c.start.role.Client?;
    AnswerHoldsSignature(c, A, ClientClaim(l.K, l.Xp(), l.hashab.value), PublicKey(A));
    ClientClaimsPair(c, s, A);
    ClientKeyParts(k, l);
    SameServerSecretsAgree(c, s);
  }

  // Counterparts with one a.B agree.
  lemma {:induction false} SameServerSecretsAgree(c: Party, s: Party)
    requires Counterparts(c, s) && Knowledge(c).aB == Knowledge(s).aB
    ensures Agree(Knowledge(c), Knowledge(s))
  {
    hide ClientHistory, ServerHistory, GoodAuth, GoodChallenge, Challenge, PointOf, Times, ForKeyExchange, Agree,
         Outcome, KeysMirrored, Mirrored;
    var k, l := Knowledge(c), Knowledge(s);
    MeetHonestly(c.start.core, c.trace.consumed[32..CHALLENGE_SIZE]);
    MeetHonestly(s.start.core, s.trace.consumed[32..CHALLENGE_SIZE]);
    assert Paired(k, l);
    SecretsPinPoints(k, l);
  }
}
