// The whole connection: one byte channel in each direction, carrying the handshake's messages
// and behind them the ciphertext of an encrypted stream under the keys and nonces the handshake
// produced. The server finishes first, and may send data behind its acknowledgement.

module EndToEnd {
  import opened Prelude
  import opened Octets
  import opened Symbolic
  import opened HandshakeCore
  import opened HandshakeSteps
  import opened HandshakeRuns
  import opened HandshakeClaims
  import HandshakeHistories
  import TwoParty
  import Ciphers
  import Frames
  import FrameStreams
  import StreamStates
  import StreamRuns

  // -------------------------------------------------------------------------------------
  // Bytes and octets

  // Any way of turning symbolic bytes into octets, and a nonce's bytes into a number.
  datatype Realization = Realization(octet: Byte -> Octet, nonce: seq<Octet> -> Ciphers.Nonce)

  // An octet stands for itself.
  ghost predicate Literal(w: Realization) {
    forall v: Octet :: w.octet(Raw(v)) == v
  }

  function Realize(w: Realization, b: Bytes): (r: seq<Octet>)
    ensures |r| == |b|
  {
    seq(|b|, i requires 0 <= i < |b| => w.octet(b[i]))
  }

  function Lift(data: seq<Octet>): (b: Bytes)
    ensures |b| == |data|
  {
    seq(|data|, i requires 0 <= i < |data| => Raw(data[i]))
  }

  lemma RealizeLift(w: Realization, b: Bytes, data: seq<Octet>)
    requires Literal(w)
    ensures Realize(w, b + Lift(data)) == Realize(w, b) + data
  {
  }

  lemma RealizeParts(w: Realization, b: Bytes, k: nat)
    requires k <= |b|
    ensures Realize(w, b[..k]) == Realize(w, b)[..k] && Realize(w, b[k..]) == Realize(w, b)[k..]
  {
  }

  // -------------------------------------------------------------------------------------
  // The model

  // What a stream object is constructed with.
  datatype Keyed = Keyed(suite: Frames.Suite, nonce: Ciphers.Nonce)

  datatype Env = Env(w: Realization, cipher: Ciphers.Cipher, protocol: Frames.Protocol)
  {
    function Encryption(s: Session): Keyed {
      Keyed(Frames.Suite(cipher, protocol, Realize(w, s.encryptionKey)), w.nonce(Realize(w, s.encryptionNonce)))
    }

    function Decryption(s: Session): Keyed {
      Keyed(Frames.Suite(cipher, protocol, Realize(w, s.decryptionKey)), w.nonce(Realize(w, s.decryptionNonce)))
    }
  }

  // One direction: the channel, the streams at its ends once they are open, and the history of
  // what was pushed, delivered and pulled, and whether every delivery was accepted.
  datatype Flow = Flow(
    enc: StreamStates.EncState, channel: Bytes, dec: StreamStates.DecState,
    pushed: seq<Octet>, delivered: seq<Octet>, pulled: seq<Octet>, ok: bool)

  datatype Conn = Conn(client: Trace, server: Trace, up: Flow, down: Flow)

  // What a peer that has finished its handshake may do with its streams, besides reading.
  datatype Use =
    | PushPart(data: seq<Octet>)
    | PushAll(data: seq<Octet>)
    | FlushNow
    | Transmit(max: nat)
    | PullPlain(max: nat)

  datatype Action =
    | ClientShakes(max: nat)    // sends handshake bytes
    | ServerShakes(max: nat)
    | ClientReads(max: nat)     // takes bytes off its channel, for the handshake or the stream
    | ServerReads(max: nat)
    | ClientUses(use: Use)
    | ServerUses(use: Use)

  predicate Finished(t: Trace) {
    t.peer.step == HandshakeSteps.Finished
  }

  predicate BothValid(c: Conn)
    ensures BothValid(c) && Finished(c.client) ==> c.client.peer.core.Done()
    ensures BothValid(c) && Finished(c.server) ==> c.server.peer.core.Done()
  {
    Valid(c.client.peer) && Valid(c.server.peer)
  }

  function NewEnc(k: Keyed): StreamStates.EncState { StreamStates.EncState([], [], k.nonce) }

  function NewDec(k: Keyed): StreamStates.DecState { StreamStates.DecState([], [], k.nonce) }

  function Initial(z: Setup): Conn {
    var closed := Flow(StreamStates.EncState([], [], 0), [], StreamStates.DecState([], [], 0), [], [], [], true);
    Conn(Start(z.Client()), Start(z.Server()), closed, closed)
  }

  // A peer that has just finished opens its streams with its session.
  function ClientOpens(env: Env, c: Conn): (r: Conn)
    requires BothValid(c)
    ensures BothValid(r)
  {
    if !Finished(c.client) then c else
      var s := Outcome(c.client.peer.core);
      c.(up := c.up.(enc := NewEnc(env.Encryption(s))), down := c.down.(dec := NewDec(env.Decryption(s))))
  }

  function ServerOpens(env: Env, c: Conn): (r: Conn)
    requires BothValid(c)
    ensures BothValid(r)
  {
    if !Finished(c.server) then c else
      var s := Outcome(c.server.peer.core);
      c.(down := c.down.(enc := NewEnc(env.Encryption(s))), up := c.up.(dec := NewDec(env.Decryption(s))))
  }

  function Deliver(env: Env, k: Keyed, f: Flow, max: nat): Flow {
    var j := Min(max, |f.channel|);
    var data := Realize(env.w, f.channel[..j]);
    f.(dec := StreamStates.Receive(k.suite, f.dec, data),
       ok := f.ok && StreamStates.Accepts(k.suite, f.dec, data),
       delivered := f.delivered + data,
       channel := f.channel[j..])
  }

  function Write(k: Keyed, f: Flow, u: Use): (r: Flow)
    ensures r.dec == f.dec && r.delivered == f.delivered && r.pulled == f.pulled && r.ok == f.ok
  {
    match u
    case PushPart(data) =>
      f.(enc := StreamStates.PushPartial(k.suite, f.enc, data), pushed := f.pushed + data)
    case PushAll(data) =>
      f.(enc := StreamStates.Push(k.suite, f.enc, data), pushed := f.pushed + data)
    case FlushNow =>
      f.(enc := StreamStates.Flush(k.suite, f.enc))
    case Transmit(max) =>
      var j := Min(max, |f.enc.processed|);
      f.(channel := f.channel + Lift(f.enc.processed[..j]), enc := f.enc.(processed := f.enc.processed[j..]))
    case PullPlain(_) => f
  }

  function Pull(f: Flow, max: nat): Flow {
    var j := Min(max, |f.dec.processed|);
    f.(pulled := f.pulled + f.dec.processed[..j], dec := f.dec.(processed := f.dec.processed[j..]))
  }

  function Step(env: Env, c: Conn, a: Action): (r: Conn)
    requires BothValid(c)
    ensures BothValid(r)
  {
    match a
    case ClientShakes(max) =>
      c.(client := Do(c.client, Send(max)),
         up := c.up.(channel := c.up.channel + Emitted(c.client.peer, Send(max))))
    case ServerShakes(max) =>
      if Finished(c.server) then c else
        ServerOpens(env, c.(server := Do(c.server, Send(max)),
                            down := c.down.(channel := c.down.channel + Emitted(c.server.peer, Send(max)))))
    case ClientReads(max) =>
      if Finished(c.client) then
        c.(down := Deliver(env, env.Decryption(Outcome(c.client.peer.core)), c.down, max))
      else
        var op := Recv(TwoParty.Front(c.down.channel, max));
        ClientOpens(env, c.(client := Do(c.client, op),
                            down := c.down.(channel := c.down.channel[|Consumed(c.client.peer, op)|..])))
    case ServerReads(max) =>
      if Finished(c.server) then
        c.(up := Deliver(env, env.Decryption(Outcome(c.server.peer.core)), c.up, max))
      else
        var op := Recv(TwoParty.Front(c.up.channel, max));
        c.(server := Do(c.server, op),
           up := c.up.(channel := c.up.channel[|Consumed(c.server.peer, op)|..]))
    case ClientUses(u) =>
      if !Finished(c.client) then c
      else if u.PullPlain? then c.(down := Pull(c.down, u.max))
      else c.(up := Write(env.Encryption(Outcome(c.client.peer.core)), c.up, u))
    case ServerUses(u) =>
      if !Finished(c.server) then c
      else if u.PullPlain? then c.(up := Pull(c.up, u.max))
      else c.(down := Write(env.Encryption(Outcome(c.server.peer.core)), c.down, u))
  }

  function Run(env: Env, c: Conn, actions: seq<Action>): (r: Conn)
    requires BothValid(c)
    ensures BothValid(r)
    decreases |actions|
  {
    if actions == [] then c else Run(env, Step(env, c, actions[0]), actions[1..])
  }

  // -------------------------------------------------------------------------------------
  // The invariant: a handshake and two streams, each seen as if it had its channels to itself

  // How many bytes at the front of a channel belong to the handshake.
  function InFlight(from: Trace, to: Trace): int {
    |from.emitted| - |to.consumed|
  }

  ghost predicate Split(c: Conn) {
    && 0 <= InFlight(c.client, c.server) <= |c.up.channel|
    && 0 <= InFlight(c.server, c.client) <= |c.down.channel|
  }

  ghost function Handshake(c: Conn): TwoParty.System
    requires Split(c)
  {
    TwoParty.System(c.client, c.server, c.up.channel[..InFlight(c.client, c.server)],
                    c.down.channel[..InFlight(c.server, c.client)])
  }

  ghost function LinkOf(w: Realization, f: Flow, k: nat): StreamRuns.Link
    requires k <= |f.channel|
  {
    StreamRuns.Link(f.enc, Realize(w, f.channel[k..]), f.dec, f.pushed, f.delivered, f.pulled, f.ok)
  }

  // Until the client has finished, its streams count as just opened.
  ghost function UpLink(env: Env, c: Conn): StreamRuns.Link
    requires BothValid(c) && Split(c) && Finished(c.server)
  {
    var l := LinkOf(env.w, c.up, InFlight(c.client, c.server));
    if Finished(c.client) then l else l.(enc := NewEnc(env.Decryption(Outcome(c.server.peer.core))))
  }

  ghost function DownLink(env: Env, c: Conn): StreamRuns.Link
    requires BothValid(c) && Split(c) && Finished(c.server)
  {
    var l := LinkOf(env.w, c.down, InFlight(c.server, c.client));
    if Finished(c.client) then l else l.(dec := NewDec(env.Encryption(Outcome(c.server.peer.core))))
  }

  // Nothing has been pushed, sent or received.
  ghost predicate Untouched(f: Flow, k: int) {
    f.pushed == [] && f.delivered == [] && f.pulled == [] && f.ok && |f.channel| == k
  }

  ghost predicate Inv(env: Env, z: Setup, c: Conn)
    ensures Inv(env, z, c) ==> BothValid(c) && Split(c)
  {
    && BothValid(c) && Split(c) && TwoParty.Inv(z, Handshake(c))
    && (!Finished(c.client) ==>
          Untouched(c.up, InFlight(c.client, c.server)) && c.down.pulled == [] && c.down.delivered == [])
    && if Finished(c.server) then
         var s := Outcome(c.server.peer.core);
         var up, down := env.Decryption(s), env.Encryption(s);
         && StreamRuns.Inv(up.suite, up.nonce, UpLink(env, c))
         && StreamRuns.Inv(down.suite, down.nonce, DownLink(env, c))
       else
         Untouched(c.up, InFlight(c.client, c.server)) && Untouched(c.down, InFlight(c.server, c.client))
  }

  lemma {:induction false} InitialInv(env: Env, z: Setup)
    ensures Inv(env, z, Initial(z))
  {
    TwoParty.InitialInv(z);
    assert Handshake(Initial(z)) == TwoParty.Initial(z);
  }

  // -------------------------------------------------------------------------------------
  // Steps of the handshake

  // Whose bytes are where: a finished peer has read exactly the other's two messages.
  lemma {:induction false} Standing(env: Env, z: Setup, c: Conn)
    requires z.WellSized() && Inv(env, z, c)
    ensures |c.client.emitted| <= 176 && |c.server.emitted| <= 144
    ensures Finished(c.server) ==>
              |c.server.consumed| == 176 && |c.server.emitted| == 144 && InFlight(c.client, c.server) == 0
    ensures Finished(c.client) ==> Finished(c.server) && |c.client.consumed| == 144 && InFlight(c.server, c.client) == 0
    ensures Finished(c.client) ==> Mirrored(Outcome(c.client.peer.core), Outcome(c.server.peer.core))
    ensures c.client.peer.step != Failed && c.client.peer.role.Client? && c.server.peer.role.Server?
  {
    hide Challenge, GoodChallenge, Identify, ClientAuthMessage, AfterAuth, GoodAuth, GoodAck,
         ServerAckMessage, Meet, Outcome, Mirrored, StreamRuns.Inv, Untouched;
    var s := Handshake(c);
    TwoParty.InvIsSafe(z, s);
    HandshakeHistories.ClientEmits(z.Client().core, s.client);
    HandshakeHistories.ServerEmits(z.Server().core, z.authorizer, s.server);
  }

  // The two directions have one key and one nonce each.
  lemma SameKeys(env: Env, s: Session, t: Session)
    requires Mirrored(s, t)
    ensures env.Encryption(s) == env.Decryption(t) && env.Decryption(s) == env.Encryption(t)
  {
  }

  lemma {:induction false} ClientShakesKeeps(env: Env, z: Setup, c: Conn, max: nat)
    requires z.WellSized() && Inv(env, z, c)
    ensures Inv(env, z, Step(env, c, ClientShakes(max)))
    ensures !Finished(c.client) ==>
              Handshake(Step(env, c, ClientShakes(max))) == TwoParty.Step(Handshake(c), TwoParty.ClientSends(max))
  {
    hide TwoParty.Inv, StreamRuns.Inv, Act, Outcome, Valid, Mirrored;
    Standing(env, z, c);
    var r := Step(env, c, ClientShakes(max));
    var a := TwoParty.ClientSends(max);
    TwoParty.StepKeeps(z, Handshake(c), a);
    SendNeverFinishesClient(c.client, max);
    if Finished(c.client) {
      assert r.up.channel == c.up.channel && r.client == c.client;
    } else {
      assert c.up.channel[..|c.up.channel|] == c.up.channel;
      assert r.up.channel[..|r.up.channel|] == r.up.channel;
      assert r.up.channel[|r.up.channel|..] == c.up.channel[|c.up.channel|..];
      assert Handshake(r) == TwoParty.Step(Handshake(c), a);
    }
  }

  lemma SendNeverFinishesClient(t: Trace, max: nat)
    requires Valid(t.peer) && t.peer.role.Client?
    ensures Finished(Do(t, Send(max))) <==> Finished(t)
    ensures Finished(t) ==> Do(t, Send(max)) == t && Emitted(t.peer, Send(max)) == []
    ensures |Do(t, Send(max)).emitted| == |t.emitted| + |Emitted(t.peer, Send(max))|
    ensures Do(t, Send(max)).consumed == t.consumed
  {
  }

  lemma ServerSendEffect(t: Trace, max: nat)
    requires Valid(t.peer) && t.peer.role.Server?
    ensures |Do(t, Send(max)).emitted| == |t.emitted| + |Emitted(t.peer, Send(max))|
    ensures Do(t, Send(max)).consumed == t.consumed
  {
  }

  // The server's last handshake byte opens its streams.
  lemma {:induction false} ServerShakesKeeps(env: Env, z: Setup, c: Conn, max: nat)
    requires z.WellSized() && Inv(env, z, c)
    ensures Inv(env, z, Step(env, c, ServerShakes(max)))
    ensures !Finished(c.server) ==>
              Handshake(Step(env, c, ServerShakes(max))) == TwoParty.Step(Handshake(c), TwoParty.ServerSends(max))
  {
    hide TwoParty.Inv, StreamRuns.Inv, Act, Outcome, Valid, Mirrored, Do;
    Standing(env, z, c);
    if !Finished(c.server) {
      var r := Step(env, c, ServerShakes(max));
      var a := TwoParty.ServerSends(max);
      TwoParty.StepKeeps(z, Handshake(c), a);
      ServerSendEffect(c.server, max);
      assert c.down.channel[..|c.down.channel|] == c.down.channel;
      assert r.down.channel[..|r.down.channel|] == r.down.channel;
      assert Handshake(r) == TwoParty.Step(Handshake(c), a);
      if Finished(r.server) {
        JustOpened(env, r);
      }
    }
  }

  // Streams that have just been opened on channels that hold nothing for them.
  lemma {:induction false} JustOpened(env: Env, c: Conn)
    requires BothValid(c) && Split(c) && Finished(c.server) && !Finished(c.client)
    requires Untouched(c.up, InFlight(c.client, c.server)) && Untouched(c.down, InFlight(c.server, c.client))
    requires c == ServerOpens(env, c)
    ensures var s := Outcome(c.server.peer.core);
            var up, down := env.Decryption(s), env.Encryption(s);
            && StreamRuns.Inv(up.suite, up.nonce, UpLink(env, c))
            && StreamRuns.Inv(down.suite, down.nonce, DownLink(env, c))
  {
    hide StreamRuns.Inv, Outcome, Valid;
    var s := Outcome(c.server.peer.core);
    var up, down := env.Decryption(s), env.Encryption(s);
    StreamRuns.InitialInv(up.suite, up.nonce);
    StreamRuns.InitialInv(down.suite, down.nonce);
    assert UpLink(env, c) == StreamRuns.Initial(up.nonce, up.nonce);
    assert DownLink(env, c) == StreamRuns.Initial(down.nonce, down.nonce);
  }

  // What a client's current message lacks is on its way, once the server has sent everything.
  lemma {:induction false} LackIsInFlight(z: Setup, t: Trace)
    requires Valid(t.peer) && HandshakeHistories.ClientHistory(z.Client().core, t)
    requires t.peer.step != Failed
    ensures BytesNeeded(t.peer.role, t.peer.step) > 0 ==>
              BytesNeeded(t.peer.role, t.peer.step) - |t.peer.input| <= 144 - |t.consumed|
  {
  }

  // A read depends only on the bytes it takes.
  lemma {:induction false} SameRead(t: Trace, a: Bytes, b: Bytes)
    requires Valid(t.peer) && b <= a
    requires Takes(t.peer, |a|) <= |b|
    ensures Do(t, Recv(a)) == Do(t, Recv(b))
    ensures Consumed(t.peer, Recv(a)) == Consumed(t.peer, Recv(b))
  {
    hide ReadDone, Valid;
    var j := Takes(t.peer, |a|);
    assert Takes(t.peer, |b|) == j;
    assert a[..j] == b[..j];
  }

  // A client still in its handshake takes none of the ciphertext behind the acknowledgement.
  lemma {:induction false} ReadsOnlyHandshake(env: Env, z: Setup, c: Conn, max: nat)
    requires z.WellSized() && Inv(env, z, c) && !Finished(c.client)
    ensures var k := InFlight(c.server, c.client);
            var all, own := Recv(TwoParty.Front(c.down.channel, max)), Recv(TwoParty.Front(c.down.channel[..k], max));
            && Do(c.client, all) == Do(c.client, own)
            && Consumed(c.client.peer, all) == Consumed(c.client.peer, own)
  {
    hide StreamRuns.Inv, Outcome, Mirrored, UpLink, DownLink, Do, Consumed, Valid, HandshakeHistories.ClientHistory,
         HandshakeHistories.ServerHistory;
    Standing(env, z, c);
    var k := InFlight(c.server, c.client);
    if !Finished(c.server) {
      assert c.down.channel[..k] == c.down.channel;
    } else {
      LackIsInFlight(z, c.client);
      SameRead(c.client, TwoParty.Front(c.down.channel, max), TwoParty.Front(c.down.channel[..k], max));
    }
  }

  // Taking bytes off the front of the handshake's part moves nothing behind it.
  lemma FrontTaken(channel: Bytes, k: nat, j: nat)
    requires j <= k <= |channel|
    ensures channel[j..][..k - j] == channel[..k][j..]
    ensures channel[j..][k - j..] == channel[k..]
  {
  }

  lemma ReadEffect(t: Trace, src: Bytes)
    requires Valid(t.peer)
    ensures var op := Recv(src);
            && |Do(t, op).consumed| == |t.consumed| + |Consumed(t.peer, op)|
            && Do(t, op).emitted == t.emitted && |Consumed(t.peer, op)| <= |src|
  {
  }

  // Where a handshake read leaves the connection, before any stream is opened.
  lemma {:induction false} ClientReadsHandshake(env: Env, z: Setup, c: Conn, max: nat)
    requires z.WellSized() && Inv(env, z, c) && !Finished(c.client)
    ensures var r := Step(env, c, ClientReads(max));
            && Split(r) && Handshake(r) == TwoParty.Step(Handshake(c), TwoParty.ClientReads(max))
            && TwoParty.Inv(z, Handshake(r))
            && r.server == c.server
            && r.down.channel[InFlight(r.server, r.client)..] == c.down.channel[InFlight(c.server, c.client)..]
            && |r.down.channel| - InFlight(r.server, r.client) == |c.down.channel| - InFlight(c.server, c.client)
            && InFlight(r.client, r.server) == InFlight(c.client, c.server) && r.up.channel == c.up.channel
  {
    hide TwoParty.Inv, StreamRuns.Inv, UpLink, DownLink, Do, Consumed, Valid, Outcome;
    var k := InFlight(c.server, c.client);
    var op := Recv(TwoParty.Front(c.down.channel[..k], max));
    TwoParty.StepKeeps(z, Handshake(c), TwoParty.ClientReads(max));
    ReadsOnlyHandshake(env, z, c, max);
    ReadEffect(c.client, op.src);
    FrontTaken(c.down.channel, k, |Consumed(c.client.peer, op)|);
  }

  lemma {:induction false} ClientReadsKeeps(env: Env, z: Setup, c: Conn, max: nat)
    requires z.WellSized() && Inv(env, z, c) && !Finished(c.client)
    ensures Inv(env, z, Step(env, c, ClientReads(max)))
    ensures Handshake(Step(env, c, ClientReads(max))) == TwoParty.Step(Handshake(c), TwoParty.ClientReads(max))
  {
    hide TwoParty.Inv, StreamRuns.Inv, Do, Consumed, Valid, Outcome, Mirrored, TwoParty.Step;
    var r := Step(env, c, ClientReads(max));
    ClientReadsHandshake(env, z, c, max);
    TwoParty.InvIsSafe(z, Handshake(r));
    if Finished(r.client) {
      SameKeys(env, Outcome(r.client.peer.core), Outcome(r.server.peer.core));
    }
    if Finished(r.server) {
      assert UpLink(env, r) == UpLink(env, c);
      assert DownLink(env, r) == DownLink(env, c);
    }
  }

  lemma {:induction false} ServerReadsKeeps(env: Env, z: Setup, c: Conn, max: nat)
    requires z.WellSized() && Inv(env, z, c) && !Finished(c.server)
    ensures Inv(env, z, Step(env, c, ServerReads(max)))
    ensures Handshake(Step(env, c, ServerReads(max))) == TwoParty.Step(Handshake(c), TwoParty.ServerReads(max))
  {
    hide TwoParty.Inv, StreamRuns.Inv, Act, Valid, Outcome, Mirrored, UpLink, DownLink, Consumed, Do;
    Standing(env, z, c);
    var r := Step(env, c, ServerReads(max));
    var op := Recv(TwoParty.Front(c.up.channel, max));
    TwoParty.StepKeeps(z, Handshake(c), TwoParty.ServerReads(max));
    assert c.up.channel[..|c.up.channel|] == c.up.channel;
    ReadEffect(c.server, op.src);
    ReadNeverFinishesServer(c.server, op.src);
    FrontTaken(c.up.channel, |c.up.channel|, |Consumed(c.server.peer, op)|);
    assert Handshake(r) == TwoParty.Step(Handshake(c), TwoParty.ServerReads(max));
  }

  lemma ReadNeverFinishesServer(t: Trace, src: Bytes)
    requires Valid(t.peer) && t.peer.role.Server? && !Finished(t)
    ensures !Finished(Do(t, Recv(src)))
  {
  }

  // -------------------------------------------------------------------------------------
  // Steps of the streams

  function AsStreamAction(u: Use): StreamRuns.Action {
    match u
    case PushPart(data) => StreamRuns.PushPart(data)
    case PushAll(data) => StreamRuns.PushAll(data)
    case FlushNow => StreamRuns.FlushNow
    case Transmit(max) => StreamRuns.Transmit(max)
    case PullPlain(max) => StreamRuns.PullPlain(max)
  }

  lemma {:induction false} WriteIsStep(env: Env, k: Keyed, f: Flow, j: nat, u: Use)
    requires Literal(env.w) && j <= |f.channel| && !u.PullPlain?
    ensures j <= |Write(k, f, u).channel| && Write(k, f, u).channel[..j] == f.channel[..j]
    ensures LinkOf(env.w, Write(k, f, u), j)
         == StreamRuns.Step(k.suite, k.suite, LinkOf(env.w, f, j), AsStreamAction(u))
  {
    if u.Transmit? {
      var sent := f.enc.processed[..Min(u.max, |f.enc.processed|)];
      assert (f.channel + Lift(sent))[j..] == f.channel[j..] + Lift(sent);
      RealizeLift(env.w, f.channel[j..], sent);
    }
  }

  lemma {:induction false} PullIsStep(env: Env, k: Keyed, f: Flow, j: nat, max: nat)
    requires j <= |f.channel|
    ensures LinkOf(env.w, Pull(f, max), j)
         == StreamRuns.Step(k.suite, k.suite, LinkOf(env.w, f, j), StreamRuns.PullPlain(max))
  {
  }

  lemma {:induction false} DeliverIsStep(env: Env, k: Keyed, f: Flow, max: nat)
    ensures LinkOf(env.w, Deliver(env, k, f, max), 0)
         == StreamRuns.Step(k.suite, k.suite, LinkOf(env.w, f, 0), StreamRuns.Deliver(max))
  {
    var j := Min(max, |f.channel|);
    assert f.channel[0..] == f.channel && f.channel[j..][0..] == f.channel[j..];
    RealizeParts(env.w, f.channel, j);
  }

  // A change to one direction that is a step of its stream.
  ghost predicate IsUpStep(env: Env, c: Conn, f: Flow, a: StreamRuns.Action)
    requires BothValid(c) && Split(c) && Finished(c.server)
  {
    var suite := env.Decryption(Outcome(c.server.peer.core)).suite;
    && InFlight(c.client, c.server) == 0
    && UpLink(env, c.(up := f)) == StreamRuns.Step(suite, suite, UpLink(env, c), a)
  }

  ghost predicate IsDownStep(env: Env, c: Conn, f: Flow, a: StreamRuns.Action)
    requires BothValid(c) && Split(c) && Finished(c.server)
  {
    var k, suite := InFlight(c.server, c.client), env.Encryption(Outcome(c.server.peer.core)).suite;
    && k <= |f.channel| && f.channel[..k] == c.down.channel[..k]
    && DownLink(env, c.(down := f)) == StreamRuns.Step(suite, suite, DownLink(env, c), a)
  }

  lemma {:induction false} UpSteps(env: Env, z: Setup, c: Conn, f: Flow, a: StreamRuns.Action)
    requires Inv(env, z, c) && Finished(c.server) && IsUpStep(env, c, f, a)
    requires !Finished(c.client) ==> Untouched(f, 0)
    ensures Inv(env, z, c.(up := f))
  {
    hide TwoParty.Inv, StreamRuns.Inv, StreamRuns.Step, Valid, Outcome, UpLink;
    var k, r := env.Decryption(Outcome(c.server.peer.core)), c.(up := f);
    StreamRuns.StepInv(k.suite, k.nonce, UpLink(env, c), a);
    assert Handshake(r) == Handshake(c);
    assert DownLink(env, r) == DownLink(env, c);
  }

  lemma {:induction false} DownSteps(env: Env, z: Setup, c: Conn, f: Flow, a: StreamRuns.Action)
    requires Inv(env, z, c) && Finished(c.server) && IsDownStep(env, c, f, a)
    requires !Finished(c.client) ==> f.pulled == [] && f.delivered == []
    ensures Inv(env, z, c.(down := f))
  {
    hide TwoParty.Inv, StreamRuns.Inv, StreamRuns.Step, Valid, Outcome, DownLink;
    var k, r := env.Encryption(Outcome(c.server.peer.core)), c.(down := f);
    StreamRuns.StepInv(k.suite, k.nonce, DownLink(env, c), a);
    assert Handshake(r) == Handshake(c);
    assert UpLink(env, r) == UpLink(env, c);
  }

  lemma {:induction false} ClientStreamKeeps(env: Env, z: Setup, c: Conn, a: Action)
    requires z.WellSized() && Literal(env.w) && Inv(env, z, c) && Finished(c.client)
    requires a.ClientReads? || a.ClientUses?
    ensures Inv(env, z, Step(env, c, a))
  {
    hide TwoParty.Inv, StreamRuns.Inv, StreamRuns.Step, Inv, Valid, Outcome, Mirrored, Write, Deliver, Pull;
    Standing(env, z, c);
    SameKeys(env, Outcome(c.client.peer.core), Outcome(c.server.peer.core));
    var up, down := env.Decryption(Outcome(c.server.peer.core)), env.Encryption(Outcome(c.server.peer.core));
    match a
    case ClientReads(max) =>
      DeliverIsStep(env, down, c.down, max);
      DownSteps(env, z, c, Deliver(env, down, c.down, max), StreamRuns.Deliver(max));
    case ClientUses(PullPlain(max)) =>
      PullIsStep(env, down, c.down, 0, max);
      DownSteps(env, z, c, Pull(c.down, max), StreamRuns.PullPlain(max));
    case ClientUses(u) =>
      WriteIsStep(env, up, c.up, 0, u);
      UpSteps(env, z, c, Write(up, c.up, u), AsStreamAction(u));
  }

  // A server may write before the client has finished: the client's part plays no role in it.
  lemma {:induction false} ServerWriteIsStep(env: Env, c: Conn, u: Use)
    requires Literal(env.w) && BothValid(c) && Split(c) && Finished(c.server) && !u.PullPlain?
    ensures IsDownStep(env, c, Write(env.Encryption(Outcome(c.server.peer.core)), c.down, u), AsStreamAction(u))
  {
    hide Outcome, Valid, Realize, Lift;
    var down := env.Encryption(Outcome(c.server.peer.core));
    WriteIsStep(env, down, c.down, InFlight(c.server, c.client), u);
  }

  lemma {:induction false} ServerWritesKeeps(env: Env, z: Setup, c: Conn, u: Use)
    requires Literal(env.w) && Inv(env, z, c) && Finished(c.server) && !u.PullPlain?
    ensures Inv(env, z, Step(env, c, ServerUses(u)))
  {
    hide TwoParty.Inv, StreamRuns.Inv, Valid, Outcome, Write, IsDownStep, UpLink, DownLink;
    ServerWriteIsStep(env, c, u);
    DownSteps(env, z, c, Write(env.Encryption(Outcome(c.server.peer.core)), c.down, u), AsStreamAction(u));
  }

  // With nothing pushed and nothing on the channel, a server's reading comes to nothing.
  lemma {:induction false} ServerReceives(env: Env, z: Setup, c: Conn, f: Flow, a: StreamRuns.Action)
    requires Inv(env, z, c) && Finished(c.server) && IsUpStep(env, c, f, a)
    requires !Finished(c.client) ==> f.pushed == [] && f.delivered == [] && f.channel == []
    ensures Inv(env, z, c.(up := f))
  {
    hide TwoParty.Inv, StreamRuns.Inv, StreamRuns.Step, Valid, Outcome, DownLink;
    if !Finished(c.client) {
      var k := env.Decryption(Outcome(c.server.peer.core));
      StreamRuns.StepInv(k.suite, k.nonce, UpLink(env, c), a);
      StreamRuns.FifoFromInv(k.suite, k.nonce, UpLink(env, c.(up := f)));
    }
    UpSteps(env, z, c, f, a);
  }

  lemma {:induction false} ServerReadsStream(env: Env, z: Setup, c: Conn, max: nat)
    requires z.WellSized() && Inv(env, z, c) && Finished(c.server)
    ensures Inv(env, z, Step(env, c, ServerReads(max)))
  {
    hide TwoParty.Inv, StreamRuns.Inv, Valid, Outcome, Mirrored, DownLink;
    Standing(env, z, c);
    var up := env.Decryption(Outcome(c.server.peer.core));
    DeliverIsStep(env, up, c.up, max);
    ServerReceives(env, z, c, Deliver(env, up, c.up, max), StreamRuns.Deliver(max));
  }

  lemma {:induction false} ServerPullsKeeps(env: Env, z: Setup, c: Conn, max: nat)
    requires z.WellSized() && Inv(env, z, c) && Finished(c.server)
    ensures Inv(env, z, Step(env, c, ServerUses(PullPlain(max))))
  {
    hide TwoParty.Inv, StreamRuns.Inv, Valid, Outcome, Mirrored, DownLink;
    Standing(env, z, c);
    PullIsStep(env, env.Decryption(Outcome(c.server.peer.core)), c.up, 0, max);
    ServerReceives(env, z, c, Pull(c.up, max), StreamRuns.PullPlain(max));
  }

  lemma {:induction false} StepKeeps(env: Env, z: Setup, c: Conn, a: Action)
    requires z.WellSized() && Literal(env.w) && Inv(env, z, c)
    ensures Inv(env, z, Step(env, c, a))
  {
    hide Inv, BothValid, Write, Deliver, Pull, Do, Consumed, Emitted;
    match a
    case ClientShakes(max) => ClientShakesKeeps(env, z, c, max);
    case ServerShakes(max) => ServerShakesKeeps(env, z, c, max);
    case ClientReads(max) =>
      if Finished(c.client) {
        ClientStreamKeeps(env, z, c, a);
      } else {
        ClientReadsKeeps(env, z, c, max);
      }
    case ServerReads(max) =>
      if Finished(c.server) {
        ServerReadsStream(env, z, c, max);
      } else {
        ServerReadsKeeps(env, z, c, max);
      }
    case ClientUses(u) =>
      if Finished(c.client) {
        ClientStreamKeeps(env, z, c, a);
      }
    case ServerUses(u) =>
      if Finished(c.server) && u.PullPlain? {
        ServerPullsKeeps(env, z, c, u.max);
      } else if Finished(c.server) {
        ServerWritesKeeps(env, z, c, u);
      }
  }

  lemma {:induction false} RunKeeps(env: Env, z: Setup, c: Conn, actions: seq<Action>)
    requires z.WellSized() && Literal(env.w) && Inv(env, z, c)
    ensures Inv(env, z, Run(env, c, actions))
    decreases |actions|
  {
    hide Inv, BothValid, Step;
    if actions != [] {
      StepKeeps(env, z, c, actions[0]);
      RunKeeps(env, z, Step(env, c, actions[0]), actions[1..]);
    }
  }

  // -------------------------------------------------------------------------------------
  // The theorem

  predicate Drained(f: Flow) {
    f.enc.pending == [] && f.enc.processed == [] && f.channel == [] && f.dec.processed == []
  }

  // Nothing is rejected, what comes out is a prefix of what went in, and all of it once
  // everything has been flushed, transferred and pulled.
  predicate Intact(f: Flow) {
    f.ok && f.pulled <= f.pushed && (Drained(f) ==> f.pulled == f.pushed)
  }

  // In every reachable state, however the two channels are fragmented and scheduled, whatever
  // is pushed and whenever, in either wire format: the handshake is as safe as it is alone, each
  // finished peer has taken exactly the other's handshake bytes off its channel and left the
  // rest to its decryption stream, and both directions are intact.
  lemma {:induction false} Connection(env: Env, z: Setup, actions: seq<Action>)
    requires z.WellSized() && Literal(env.w)
    ensures var c := Run(env, Initial(z), actions);
            && TwoParty.Safe(z, TwoParty.System(c.client, c.server, [], []))
            && (Finished(c.client) ==> |c.client.consumed| == 144 && c.client.consumed == c.server.emitted)
            && (Finished(c.server) ==> |c.server.consumed| == 176 && c.server.consumed == c.client.emitted)
            && Intact(c.up) && Intact(c.down)
  {
    hide Inv, BothValid, Run, TwoParty.Safe, Intact;
    InitialInv(env, z);
    RunKeeps(env, z, Initial(z), actions);
    InvIsIntact(env, z, Run(env, Initial(z), actions));
  }

  lemma {:induction false} InvIsIntact(env: Env, z: Setup, c: Conn)
    requires z.WellSized() && Inv(env, z, c)
    ensures TwoParty.Safe(z, TwoParty.System(c.client, c.server, [], []))
    ensures Finished(c.client) ==> |c.client.consumed| == 144 && c.client.consumed == c.server.emitted
    ensures Finished(c.server) ==> |c.server.consumed| == 176 && c.server.consumed == c.client.emitted
    ensures Intact(c.up) && Intact(c.down)
  {
    hide StreamRuns.Inv, Outcome, Mirrored, Valid, HandshakeHistories.ClientHistory, HandshakeHistories.ServerHistory;
    Standing(env, z, c);
    TwoParty.InvIsSafe(z, Handshake(c));
    if Finished(c.server) {
      var s := Outcome(c.server.peer.core);
      var up, down := env.Decryption(s), env.Encryption(s);
      StreamRuns.FifoFromInv(up.suite, up.nonce, UpLink(env, c));
      StreamRuns.FifoFromInv(down.suite, down.nonce, DownLink(env, c));
    }
  }

  // -------------------------------------------------------------------------------------
  // What the channels carry

  // All ciphertext of a direction so far, once the handshake is out of its channel.
  function Ciphertext(w: Realization, f: Flow): seq<Octet> {
    f.delivered + (Realize(w, f.channel) + f.enc.processed)
  }

  // It is the printed form of non-empty messages that hold what was pushed, all but the pending
  // part, under a given key and from a given nonce.
  ghost predicate Carries(env: Env, f: Flow, key: Bytes, nonce: Bytes, ms: seq<FrameStreams.Message>) {
    var suite := Frames.Suite(env.cipher, env.protocol, Realize(env.w, key));
    && Ciphertext(env.w, f) == FrameStreams.Print(suite, env.w.nonce(Realize(env.w, nonce)), ms)
    && [] !in ms && FrameStreams.Concat(ms) + f.enc.pending == f.pushed
  }

  // In every reachable state, once the client has finished, each direction carries its plaintext
  // under the key and from the nonce the protocol prescribes for it, in terms of the keys the peers
  // were set up with.
  lemma {:induction false} ChannelsCarry(env: Env, z: Setup, actions: seq<Action>)
    returns (up: seq<FrameStreams.Message>, down: seq<FrameStreams.Message>)
    requires z.WellSized() && Literal(env.w)
    ensures var c := Run(env, Initial(z), actions);
            var K, secret := z.clientApp, HashOf(HashOf(TwoParty.SharedSecret(z)));
            Finished(c.client) ==>
              && Carries(env, c.up, HashOf(secret + PublicKey(z.B)), HmacOf(K, KxKey(Ephemeral(z.b)))[..24], up)
              && Carries(env, c.down, HashOf(secret + PublicKey(z.A)), HmacOf(K, KxKey(Ephemeral(z.a)))[..24], down)
  {
    hide Inv, BothValid, Run, Carries;
    InitialInv(env, z);
    RunKeeps(env, z, Initial(z), actions);
    var c := Run(env, Initial(z), actions);
    up, down := [], [];
    if Finished(c.client) {
      up, down := InvCarries(env, z, c);
    }
  }

  lemma {:induction false} InvCarries(env: Env, z: Setup, c: Conn)
    returns (up: seq<FrameStreams.Message>, down: seq<FrameStreams.Message>)
    requires z.WellSized() && Inv(env, z, c) && Finished(c.client)
    ensures var K, secret := z.clientApp, HashOf(HashOf(TwoParty.SharedSecret(z)));
            && Carries(env, c.up, HashOf(secret + PublicKey(z.B)), HmacOf(K, KxKey(Ephemeral(z.b)))[..24], up)
            && Carries(env, c.down, HashOf(secret + PublicKey(z.A)), HmacOf(K, KxKey(Ephemeral(z.a)))[..24], down)
  {
    hide StreamRuns.Inv, Mirrored, Valid, TwoParty.Inv, Carries, Outcome, TwoParty.SharedSecret;
    Standing(env, z, c);
    TwoParty.InvFollowsFormulas(z, Handshake(c));
    var s, t := Outcome(c.client.peer.core), Outcome(c.server.peer.core);
    SameKeys(env, s, t);
    up := FlowCarries(env, c.up, s.encryptionKey, s.encryptionNonce);
    down := FlowCarries(env, c.down, s.decryptionKey, s.decryptionNonce);
  }

  lemma {:induction false} FlowCarries(env: Env, f: Flow, key: Bytes, nonce: Bytes)
    returns (ms: seq<FrameStreams.Message>)
    requires var suite := Frames.Suite(env.cipher, env.protocol, Realize(env.w, key));
             StreamRuns.Inv(suite, env.w.nonce(Realize(env.w, nonce)), LinkOf(env.w, f, 0))
    ensures Carries(env, f, key, nonce, ms)
  {
    hide FrameStreams.Parse, FrameStreams.Print, Realize;
    var suite := Frames.Suite(env.cipher, env.protocol, Realize(env.w, key));
    var n, l := env.w.nonce(Realize(env.w, nonce)), LinkOf(env.w, f, 0);
    assert f.channel[0..] == f.channel;
    var text := StreamRuns.Ciphertext(l);
    ms := FrameStreams.Parse(suite, n, text).messages;
    FrameStreams.ParseReprints(suite, n, text);
    assert FrameStreams.Print(suite, n, ms) + [] == FrameStreams.Print(suite, n, ms);
  }

  // -------------------------------------------------------------------------------------
  // Everything can be delivered

  function AsAction(a: TwoParty.Action): Action {
    match a
    case ClientSends(max) => ClientShakes(max)
    case ServerSends(max) => ServerShakes(max)
    case ClientReads(max) => ClientReads(max)
    case ServerReads(max) => ServerReads(max)
  }

  // A peer that has finished moves no more handshake bytes.
  lemma {:induction false} FinishedIsStill(s: TwoParty.System, a: TwoParty.Action)
    requires TwoParty.BothValid(s) && TwoParty.Moves(s, a) > 0
    ensures a.ClientSends? || a.ClientReads? ==> !Finished(s.client)
    ensures a.ServerSends? || a.ServerReads? ==> !Finished(s.server)
  {
  }

  // What the handshake can do alone, it can do with streams behind it.
  lemma {:induction false} HandshakeMoves(env: Env, z: Setup, c: Conn, a: TwoParty.Action)
    requires z.WellSized() && Inv(env, z, c) && TwoParty.Moves(Handshake(c), a) > 0
    ensures var r := Step(env, c, AsAction(a));
            && Inv(env, z, r) && Handshake(r) == TwoParty.Step(Handshake(c), a)
            && r.up.pushed == c.up.pushed && r.down.pushed == c.down.pushed
  {
    hide Inv, TwoParty.Moves, TwoParty.Step, Do, Consumed, Emitted;
    FinishedIsStill(Handshake(c), a);
    match a
    case ClientSends(max) => ClientShakesKeeps(env, z, c, max);
    case ServerSends(max) => ServerShakesKeeps(env, z, c, max);
    case ClientReads(max) => ClientReadsKeeps(env, z, c, max);
    case ServerReads(max) => ServerReadsKeeps(env, z, c, max);
  }

  lemma {:induction false} HandshakeFollows(env: Env, z: Setup, c: Conn, schedule: seq<TwoParty.Action>)
    returns (actions: seq<Action>)
    requires z.WellSized() && Inv(env, z, c) && TwoParty.Busy(Handshake(c), schedule)
    ensures var r := Run(env, c, actions);
            && Inv(env, z, r) && Handshake(r) == TwoParty.RunAll(Handshake(c), schedule)
            && r.up.pushed == c.up.pushed && r.down.pushed == c.down.pushed
    decreases |schedule|
  {
    hide Inv, Step, TwoParty.Step, TwoParty.Moves;
    if schedule == [] {
      actions := [];
    } else {
      HandshakeMoves(env, z, c, schedule[0]);
      var rest := HandshakeFollows(env, z, Step(env, c, AsAction(schedule[0])), schedule[1..]);
      actions := [AsAction(schedule[0])] + rest;
      assert actions[1..] == rest;
    }
  }

  // Flushes a direction, and moves everything there is from each place to the next.
  function Drain(env: Env, k: Keyed, f: Flow): Flow {
    var g := Write(k, f, FlushNow);
    var t := Write(k, g, Transmit(|g.enc.processed|));
    var d := Deliver(env, k, t, |t.channel|);
    Pull(d, |d.dec.processed|)
  }

  lemma {:induction false} DrainDelivers(env: Env, k: Keyed, f: Flow)
    requires Literal(env.w) && StreamRuns.Inv(k.suite, k.nonce, LinkOf(env.w, f, 0))
    ensures var r := Drain(env, k, f); Drained(r) && r.pulled == r.pushed == f.pushed
  {
    hide StreamRuns.Inv, Write, Deliver, Pull, StreamRuns.Step;
    var g := Write(k, f, FlushNow);
    WriteIsStep(env, k, f, 0, FlushNow);
    var t := Write(k, g, Transmit(|g.enc.processed|));
    WriteIsStep(env, k, g, 0, Transmit(|g.enc.processed|));
    var d := Deliver(env, k, t, |t.channel|);
    DeliverIsStep(env, k, t, |t.channel|);
    PullIsStep(env, k, d, 0, |d.dec.processed|);
    assert LinkOf(env.w, Drain(env, k, f), 0) == StreamRuns.Drain(k.suite, LinkOf(env.w, f, 0));
    StreamRuns.DrainFromInv(k.suite, k.nonce, LinkOf(env.w, f, 0));
    DrainPushesNothing(env, k, f);
  }

  lemma DrainPushesNothing(env: Env, k: Keyed, f: Flow)
    ensures Drain(env, k, f).pushed == f.pushed
  {
  }

  // Four calls drain a direction of a connection whose client has finished.
  lemma {:induction false} DrainsUp(env: Env, c: Conn) returns (actions: seq<Action>)
    requires BothValid(c) && Finished(c.client) && Finished(c.server)
    requires env.Encryption(Outcome(c.client.peer.core)) == env.Decryption(Outcome(c.server.peer.core))
    ensures Run(env, c, actions) == c.(up := Drain(env, env.Decryption(Outcome(c.server.peer.core)), c.up))
  {
    hide Outcome, Valid, Write, Deliver, Pull;
    var k := env.Decryption(Outcome(c.server.peer.core));
    var g := c.(up := Write(k, c.up, FlushNow));
    var t := c.(up := Write(k, g.up, Transmit(|g.up.enc.processed|)));
    var d := c.(up := Deliver(env, k, t.up, |t.up.channel|));
    actions := [ClientUses(FlushNow), ClientUses(Transmit(|g.up.enc.processed|)),
                ServerReads(|t.up.channel|), ServerUses(PullPlain(|d.up.dec.processed|))];
    RunFour(env, c, actions);
  }

  lemma {:induction false} DrainsDown(env: Env, c: Conn) returns (actions: seq<Action>)
    requires BothValid(c) && Finished(c.client) && Finished(c.server)
    requires env.Decryption(Outcome(c.client.peer.core)) == env.Encryption(Outcome(c.server.peer.core))
    ensures Run(env, c, actions) == c.(down := Drain(env, env.Encryption(Outcome(c.server.peer.core)), c.down))
  {
    hide Outcome, Valid, Write, Deliver, Pull;
    var k := env.Encryption(Outcome(c.server.peer.core));
    var g := c.(down := Write(k, c.down, FlushNow));
    var t := c.(down := Write(k, g.down, Transmit(|g.down.enc.processed|)));
    var d := c.(down := Deliver(env, k, t.down, |t.down.channel|));
    actions := [ServerUses(FlushNow), ServerUses(Transmit(|g.down.enc.processed|)),
                ClientReads(|t.down.channel|), ClientUses(PullPlain(|d.down.dec.processed|))];
    RunFour(env, c, actions);
  }

  lemma {:induction false} RunFour(env: Env, c: Conn, a: seq<Action>)
    requires BothValid(c) && |a| == 4
    ensures Run(env, c, a) == Step(env, Step(env, Step(env, Step(env, c, a[0]), a[1]), a[2]), a[3])
  {
    hide Step, BothValid;
    var c1 := Step(env, c, a[0]);
    var c2 := Step(env, c1, a[1]);
    var c3 := Step(env, c2, a[2]);
    assert a[1..][1..] == a[2..] && a[2..][1..] == a[3..] && a[3..][1..] == [];
    assert Run(env, c3, a[3..]) == Step(env, c3, a[3]);
    assert Run(env, c2, a[2..]) == Run(env, c3, a[3..]);
    assert Run(env, c1, a[1..]) == Run(env, c2, a[2..]);
  }

  lemma {:induction false} RunAppend(env: Env, c: Conn, a: seq<Action>, b: seq<Action>)
    requires BothValid(c)
    ensures Run(env, c, a + b) == Run(env, Run(env, c, a), b)
    decreases |a|
  {
    hide Step, BothValid;
    if a == [] {
      assert a + b == b;
    } else {
      assert (a + b)[1..] == a[1..] + b;
      RunAppend(env, Step(env, c, a[0]), a[1..], b);
    }
  }

  // From every reachable state of a good setup, some schedule finishes both peers and delivers
  // everything that has been pushed, in both directions.
  lemma {:induction false} CanDeliver(env: Env, z: Setup, before: seq<Action>) returns (after: seq<Action>)
    requires z.WellSized() && Good(z) && Literal(env.w)
    ensures var c := Run(env, Initial(z), before);
            var d := Run(env, c, after);
            && Finished(d.client) && Finished(d.server)
            && Drained(d.up) && d.up.pulled == d.up.pushed == c.up.pushed
            && Drained(d.down) && d.down.pulled == d.down.pushed == c.down.pushed
  {
    hide Inv, Run, TwoParty.Busy, TwoParty.RunAll, Good;
    InitialInv(env, z);
    RunKeeps(env, z, Initial(z), before);
    var c := Run(env, Initial(z), before);
    var first := CanFinish(env, z, c);
    var e := Run(env, c, first);
    var second := CanDrain(env, z, e);
    after := first + second;
    RunAppend(env, c, first, second);
  }

  lemma {:induction false} CanFinish(env: Env, z: Setup, c: Conn) returns (actions: seq<Action>)
    requires z.WellSized() && Good(z) && Inv(env, z, c)
    ensures var r := Run(env, c, actions);
            && Inv(env, z, r) && Finished(r.client) && Finished(r.server)
            && r.up.pushed == c.up.pushed && r.down.pushed == c.down.pushed
  {
    hide Run, TwoParty.Busy, TwoParty.RunAll, TwoParty.Inv, StreamRuns.Inv, Valid, UpLink, DownLink;
    var schedule := TwoParty.CanEnd(z, Handshake(c));
    actions := HandshakeFollows(env, z, c, schedule);
  }

  lemma {:induction false} CanDrain(env: Env, z: Setup, c: Conn) returns (actions: seq<Action>)
    requires z.WellSized() && Literal(env.w) && Inv(env, z, c) && Finished(c.client)
    ensures var r := Run(env, c, actions);
            && r.client == c.client && r.server == c.server
            && Drained(r.up) && r.up.pulled == r.up.pushed == c.up.pushed
            && Drained(r.down) && r.down.pulled == r.down.pushed == c.down.pushed
  {
    hide Run, TwoParty.Inv, StreamRuns.Inv, Valid, Outcome, Mirrored, Drain, Drained;
    Standing(env, z, c);
    var s := Outcome(c.server.peer.core);
    SameKeys(env, Outcome(c.client.peer.core), s);
    DrainDelivers(env, env.Decryption(s), c.up);
    DrainDelivers(env, env.Encryption(s), c.down);
    var up := DrainsUp(env, c);
    var down := DrainsDown(env, Run(env, c, up));
    actions := up + down;
    RunAppend(env, c, up, down);
  }
}
