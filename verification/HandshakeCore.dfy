// The cryptographic side of a handshake: what each peer learns, message by message. Names
// follow the protocol's notation: K is the app ID, X a peer's own keys and Y its peer's,
// capitals for long-term keys and small letters for ephemeral ones, A and a the client's,
// B and b the server's.

module HandshakeCore {
  import opened Prelude
  import opened Symbolic

  const CHALLENGE_SIZE: nat := 64
  const CLIENT_AUTH_SIZE: nat := 112
  const SERVER_ACK_SIZE: nat := 80

  datatype Core = Core(
    K: Bytes,
    X: nat,                    // own signing key; the public key Xp is derived
    x: nat,                    // own ephemeral key; the public key xp is derived
    Yp: Option<Bytes>,
    yp: Option<Bytes>,
    ab: Option<Bytes>,
    hashab: Option<Bytes>,
    aB: Option<Bytes>,
    Ab: Option<Bytes>,
    ackKey: Option<Bytes>,     // the key the server's acknowledgement is boxed with
    H: Option<Bytes>)          // sign[A](K | Bp | hash(a.b)) | Ap
  {
    function Xp(): Bytes { PublicKey(X) }

    function xp(): Bytes { KxKey(Ephemeral(x)) }

    // The peer's challenge has been verified.
    predicate Met() {
      yp.Some? && ab.Some? && hashab.Some?
    }

    // The client's identity has been established: by itself, or to the server.
    predicate Identified() {
      Met() && Yp.Some? && aB.Some? && Ab.Some? && H.Some? && |H.value| == 96
    }

    // Everything the session is derived from is known.
    predicate Done() {
      Identified() && ackKey.Some?
    }
  }

  function Fresh(K: Bytes, X: nat, x: nat, Yp: Option<Bytes>): Core {
    Core(K, X, x, Yp, None, None, None, None, None, None, None)
  }

  function HashOf(data: Bytes): (h: Bytes)
    ensures |h| == 32
  {
    Encode(Hash(data))
  }

  function HmacOf(key: Bytes, data: Bytes): (h: Bytes)
    ensures |h| == 32
  {
    Encode(Hmac(key, data))
  }

  // hmac[K](xp) | xp
  function Challenge(c: Core): (m: Bytes)
    ensures |m| == CHALLENGE_SIZE
  {
    HmacOf(c.K, c.xp()) + c.xp()
  }

  predicate GoodChallenge(c: Core, challenge: Bytes)
    requires |challenge| == CHALLENGE_SIZE
  {
    challenge[..32] == HmacOf(c.K, challenge[32..])
  }

  function Meet(c: Core, yp: Bytes): (r: Core)
    ensures r.Met()
  {
    var ab := Times(Ephemeral(c.x), PointOf(yp));
    c.(yp := Some(yp), ab := Some(ab), hashab := Some(HashOf(ab)))
  }

  function AfterChallenge(c: Core, challenge: Bytes): Core
    requires |challenge| == CHALLENGE_SIZE
  {
    if GoodChallenge(c, challenge) then Meet(c, challenge[32..]) else c
  }

  // K | a.b | a.B
  function ClientAuthKey(c: Core): Bytes
    requires c.ab.Some? && c.aB.Some?
  {
    HashOf(c.K + c.ab.value + c.aB.value)
  }

  // K | a.b | a.B | A.b
  function ServerAckKey(c: Core): Bytes
    requires c.ab.Some? && c.aB.Some? && c.Ab.Some?
  {
    HashOf(c.K + c.ab.value + c.aB.value + c.Ab.value)
  }

  function KeepAckKey(c: Core): Core
    requires c.ab.Some? && c.aB.Some? && c.Ab.Some?
  {
    c.(ackKey := Some(ServerAckKey(c)))
  }

  // What a client signs, and what a server signs.
  function ClientClaim(K: Bytes, Bp: Bytes, hashab: Bytes): Bytes {
    K + Bp + hashab
  }

  function ServerClaim(K: Bytes, H: Bytes, hashab: Bytes): Bytes {
    K + H + hashab
  }

  // A client identifies itself ...
  function Identify(c: Core): (r: Core)
    requires c.Met() && c.Yp.Some?
    ensures r.Identified()
  {
    c.(H := Some(Sign(c.X, ClientClaim(c.K, c.Yp.value, c.hashab.value)) + c.Xp()),
       Ab := Some(Times(LongTerm(c.X), PointOf(c.yp.value))),
       aB := Some(Times(Ephemeral(c.x), ForKeyExchange(c.Yp.value))))
  }

  // ... and boxes its identity for the server.
  function ClientAuthMessage(c: Core): (m: Bytes)
    requires c.Identified()
    ensures |m| == CLIENT_AUTH_SIZE
  {
    Symbolic.Box(ClientAuthKey(c), c.H.value)
  }

  function OpenedAuth(c: Core, auth: Bytes): (H: Option<Bytes>)
    requires c.Met() && |auth| == CLIENT_AUTH_SIZE
    ensures H.Some? ==> |H.value| == 96
  {
    Unbox(ClientAuthKey(c.(aB := Some(Times(LongTerm(c.X), PointOf(c.yp.value))))), auth)
  }

  // What a server knows after opening a client's identity, valid or not.
  function AfterAuth(c: Core, auth: Bytes): Core
    requires c.Met() && |auth| == CLIENT_AUTH_SIZE
  {
    var d := c.(aB := Some(Times(LongTerm(c.X), PointOf(c.yp.value))), H := OpenedAuth(c, auth));
    if d.H.None? then d else
      var Ap := d.H.value[64..];
      d.(Yp := Some(Ap), Ab := Some(Times(Ephemeral(c.x), ForKeyExchange(Ap))))
  }

  predicate GoodAuth(c: Core, auth: Bytes)
    requires c.Met() && |auth| == CLIENT_AUTH_SIZE
    ensures GoodAuth(c, auth) ==> AfterAuth(c, auth).Identified()
  {
    var H := OpenedAuth(c, auth);
    H.Some? && Check(H.value[64..], H.value[..64], ClientClaim(c.K, c.Xp(), c.hashab.value))
  }

  // box[K | a.b | a.B | A.b](sign[B](K | H | hash(a.b)))
  function ServerAckMessage(c: Core): (m: Bytes)
    requires c.Identified()
    ensures |m| == SERVER_ACK_SIZE
  {
    Symbolic.Box(ServerAckKey(c), Sign(c.X, ServerClaim(c.K, c.H.value, c.hashab.value)))
  }

  predicate GoodAck(c: Core, ack: Bytes)
    requires c.Identified() && |ack| == SERVER_ACK_SIZE
  {
    var sig := Unbox(ServerAckKey(c), ack);
    sig.Some? && Check(c.Yp.value, sig.value, ServerClaim(c.K, c.H.value, c.hashab.value))
  }

  datatype Session = Session(
    encryptionKey: Bytes, encryptionNonce: Bytes,
    decryptionKey: Bytes, decryptionNonce: Bytes,
    peerPublicKey: Bytes)

  function Outcome(c: Core): Session
    requires c.Done()
  {
    var boxKeyHash := HashOf(c.ackKey.value);
    Session(HashOf(boxKeyHash + c.Yp.value), HmacOf(c.K, c.yp.value)[..24],
            HashOf(boxKeyHash + c.Xp()), HmacOf(c.K, c.xp())[..24],
            c.Yp.value)
  }

  // Each side encrypts with the key the other decrypts with ...
  predicate KeysMirrored(s: Session, t: Session) {
    s.encryptionKey == t.decryptionKey && s.decryptionKey == t.encryptionKey
  }

  // ... and starts from the nonce the other starts from.
  predicate Mirrored(s: Session, t: Session) {
    && KeysMirrored(s, t)
    && s.encryptionNonce == t.decryptionNonce && s.decryptionNonce == t.encryptionNonce
  }

  // -------------------------------------------------------------------------------------
  // The object

  class HandshakeImpl {
    const K: Bytes
    const X: nat
    const x: nat
    var Yp: Option<Bytes>
    var yp: Option<Bytes>
    var ab: Option<Bytes>
    var hashab: Option<Bytes>
    var aB: Option<Bytes>
    var Ab: Option<Bytes>
    var ackKey: Option<Bytes>
    var H: Option<Bytes>

    ghost function State(): Core
      reads this
    {
      Core(K, X, x, Yp, yp, ab, hashab, aB, Ab, ackKey, H)
    }

    constructor (K: Bytes, X: nat, x: nat)
      ensures State() == Fresh(K, X, x, None)
    {
      this.K, this.X, this.x := K, X, x;
      Yp, yp, ab, hashab, aB, Ab, ackKey, H := None, None, None, None, None, None, None, None;
    }

    method SetServerPublicKey(pk: Bytes)
      modifies this
      ensures State() == old(State()).(Yp := Some(pk))
    {
      Yp := Some(pk);
    }

    method CreateChallenge() returns (m: Bytes)
      ensures m == Challenge(State())
    {
      var xp := KxKey(Ephemeral(x));
      m := HmacOf(K, xp) + xp;
    }

    method VerifyChallenge(challenge: Bytes) returns (ok: bool)
      requires |challenge| == CHALLENGE_SIZE
      modifies this
      ensures ok == GoodChallenge(old(State()), challenge)
      ensures State() == AfterChallenge(old(State()), challenge)
    {
      var challengeHmac, challengePubKey := challenge[..32], challenge[32..];
      if challengeHmac != HmacOf(K, challengePubKey) {
        return false;
      }
      yp := Some(challengePubKey);
      ab := Some(Times(Ephemeral(x), PointOf(yp.value)));
      hashab := Some(HashOf(ab.value));
      return true;
    }

    method CreateClientAuth() returns (m: Bytes)
      requires State().Met() && Yp.Some?
      modifies this
      ensures State() == Identify(old(State())) && m == ClientAuthMessage(State())
    {
      H := Some(Sign(X, ClientClaim(K, Yp.value, hashab.value)) + PublicKey(X));
      Ab := Some(Times(LongTerm(X), PointOf(yp.value)));
      aB := Some(Times(Ephemeral(x), ForKeyExchange(Yp.value)));
      m := Symbolic.Box(HashOf(K + ab.value + aB.value), H.value);
    }

    method MakeServerAckKey() returns (key: Bytes)
      requires ab.Some? && aB.Some? && Ab.Some?
      modifies this
      ensures State() == KeepAckKey(old(State())) && key == ServerAckKey(old(State()))
    {
      key := HashOf(K + ab.value + aB.value + Ab.value);
      ackKey := Some(key);
    }

    method VerifyServerAck(ack: Bytes) returns (ok: bool)
      requires State().Identified() && |ack| == SERVER_ACK_SIZE
      modifies this
      ensures State() == KeepAckKey(old(State())) && ok == GoodAck(old(State()), ack)
    {
      var key := MakeServerAckKey();
      var sig := Unbox(key, ack);
      if sig.None? {
        return false;
      }
      ok := Check(Yp.value, sig.value, ServerClaim(K, H.value, hashab.value));
    }

    method VerifyClientAuth(auth: Bytes) returns (ok: bool)
      requires State().Met() && |auth| == CLIENT_AUTH_SIZE
      modifies this
      ensures State() == AfterAuth(old(State()), auth) && ok == GoodAuth(old(State()), auth)
    {
      aB := Some(Times(LongTerm(X), PointOf(yp.value)));
      H := Unbox(HashOf(K + ab.value + aB.value), auth);
      if H.None? {
        return false;
      }
      var sig := H.value[..64];
      Yp := Some(H.value[64..]);
      Ab := Some(Times(Ephemeral(x), ForKeyExchange(Yp.value)));
      ok := Check(Yp.value, sig, ClientClaim(K, PublicKey(X), hashab.value));
    }

    method CreateServerAck() returns (m: Bytes)
      requires State().Identified()
      modifies this
      ensures State() == KeepAckKey(old(State())) && m == ServerAckMessage(old(State()))
    {
      var key := MakeServerAckKey();
      m := Symbolic.Box(key, Sign(X, ServerClaim(K, H.value, hashab.value)));
    }

    method GetOutcome() returns (s: Session)
      requires State().Done()
      ensures s == Outcome(State())
    {
      var boxKeyHash := HashOf(ackKey.value);
      var encryptionKey := HashOf(boxKeyHash + Yp.value);
      var encryptionNonce := HmacOf(K, yp.value)[..24];
      var decryptionKey := HashOf(boxKeyHash + PublicKey(X));
      var decryptionNonce := HmacOf(K, KxKey(Ephemeral(x)))[..24];
      s := Session(encryptionKey, encryptionNonce, decryptionKey, decryptionNonce, Yp.value);
    }
  }
}
