// Whole runs of one peer on arbitrary incoming bytes. `Drive` is the reference: whole messages,
// one after the other. Every use of the fragmented API is shown to be a part of it.

module HandshakeRuns {
  import opened Prelude
  import opened Symbolic
  import opened HandshakeCore
  import opened HandshakeSteps

  // The peer once it can go no further, what it has sent, and the incoming bytes it left.
  datatype Driven = Driven(peer: Peer, sent: Bytes, rest: Bytes)

  function Prepend(bytes: Bytes, d: Driven): Driven {
    d.(sent := bytes + d.sent)
  }

  // The bytes the current message still lacks.
  function Lacks(p: Peer): nat
    requires Valid(p) && p.step != Failed
  {
    BytesNeeded(p.role, p.step) - |p.input|
  }

  // Sends and reads whole messages for as long as the incoming bytes last.
  function Drive(p: Peer, incoming: Bytes): (d: Driven)
    requires Valid(p)
    ensures Valid(d.peer)
    decreases StepsLeft(p.step)
  {
    if Stopped(p.step) then Driven(p, [], incoming)
    else if Sends(p.role, p.step) then
      Prepend(Fill(p).output, Drive(SendDone(Fill(p)), incoming))
    else if |incoming| < Lacks(p) then
      Driven(p.(input := p.input + incoming), [], [])
    else
      Drive(ReadDone(p.(input := p.input + incoming[..Lacks(p)])), incoming[Lacks(p)..])
  }

  // -------------------------------------------------------------------------------------
  // The fragmented API

  datatype Op = Recv(src: Bytes) | Send(max: nat)

  function Act(p: Peer, op: Op): (r: Peer)
    requires Valid(p)
    ensures Valid(r)
  {
    match op
    case Recv(src) => Receive(p, src)
    case Send(max) => Give(p, max)
  }

  function Consumed(p: Peer, op: Op): Bytes
    requires Valid(p)
  {
    if op.Recv? then op.src[..Takes(p, |op.src|)] else []
  }

  function Emitted(p: Peer, op: Op): Bytes
    requires Valid(p)
  {
    if op.Send? then Gives(p, op.max) else []
  }

  // A run, with the bytes it has consumed and emitted.
  datatype Trace = Trace(peer: Peer, consumed: Bytes, emitted: Bytes)

  function Do(t: Trace, op: Op): (r: Trace)
    requires Valid(t.peer)
    ensures Valid(r.peer)
  {
    Trace(Act(t.peer, op), t.consumed + Consumed(t.peer, op), t.emitted + Emitted(t.peer, op))
  }

  // What a call of copyBytesToSend does in a step that sends.
  lemma {:induction false} SendEffect(t: Trace, max: nat)
    requires Valid(t.peer) && Sends(t.peer.role, t.peer.step)
    ensures var t', q := Do(t, Send(max)), Fill(t.peer);
            && t'.consumed == t.consumed
            && t'.emitted + t'.peer.output == t.emitted + q.output
            && t'.peer == q.(output := t'.peer.output, step := t'.peer.step)
            && if max < |q.output| then t'.peer.step == q.step && t'.peer.output != []
               else t'.peer.step == NextStep(q.step) && t'.peer.output == []
  {
    var q := Fill(t.peer);
    var k := Min(max, |q.output|);
    assert q.output == q.output[..k] + q.output[k..];
    assert (t.emitted + q.output[..k]) + q.output[k..] == t.emitted + q.output;
  }

  function Run(t: Trace, ops: seq<Op>): (r: Trace)
    requires Valid(t.peer)
    ensures Valid(r.peer)
    decreases |ops|
  {
    if ops == [] then t else Run(Do(t, ops[0]), ops[1..])
  }

  function Start(p: Peer): Trace {
    Trace(p, [], [])
  }

  lemma {:induction false} PrependNothing(d: Driven)
    ensures Prepend([], d) == d
  {
    assert [] + d.sent == d.sent;
  }

  lemma {:induction false} PrependTwice(a: Bytes, b: Bytes, d: Driven)
    ensures Prepend(a, Prepend(b, d)) == Prepend(a + b, d)
  {
    assert a + (b + d.sent) == (a + b) + d.sent;
  }

  // Receiving part of a message is a part of the reference run.
  lemma {:induction false} RecvDrives(p: Peer, src: Bytes, future: Bytes)
    requires Valid(p)
    ensures Drive(p, src[..Takes(p, |src|)] + future) == Drive(Receive(p, src), future)
  {
    var k := Takes(p, |src|);
    var taken := src[..k];
    if Stopped(p.step) || BytesNeeded(p.role, p.step) == 0 {
      assert taken + future == future;
    } else if k < Lacks(p) {
      var q := p.(input := p.input + taken);
      assert Receive(p, src) == q;
      assert (p.input + taken) + future == p.input + (taken + future);
      if |taken + future| >= Lacks(p) {
        var m := Lacks(q);
        assert (taken + future)[..Lacks(p)] == taken + future[..m];
        assert (taken + future)[Lacks(p)..] == future[m..];
        assert q.input + future[..m] == p.input + (taken + future[..m]);
      }
    } else {
      assert (taken + future)[..Lacks(p)] == taken;
      assert (taken + future)[Lacks(p)..] == future;
    }
  }

  // So is sending part of one.
  lemma {:induction false} SendDrives(p: Peer, max: nat, future: Bytes)
    requires Valid(p)
    ensures Drive(p, future) == Prepend(Gives(p, max), Drive(Give(p, max), future))
  {
    if Stopped(p.step) || !Sends(p.role, p.step) {
      PrependNothing(Drive(p, future));
    } else {
      var q := Fill(p);
      var d := Drive(SendDone(q), future);
      if max < |q.output| {
        var r := q.(output := q.output[max..]);
        assert SendDone(r) == SendDone(q) && Fill(r) == r;
        PrependTwice(q.output[..max], q.output[max..], d);
        assert q.output == q.output[..max] + q.output[max..];
      } else {
        assert Gives(p, max) == q.output;
      }
    }
  }

  lemma {:induction false} ActDrives(p: Peer, op: Op, future: Bytes)
    requires Valid(p)
    ensures Drive(p, Consumed(p, op) + future) == Prepend(Emitted(p, op), Drive(Act(p, op), future))
  {
    match op
    case Recv(src) =>
      RecvDrives(p, src, future);
      PrependNothing(Drive(Receive(p, src), future));
    case Send(max) =>
      SendDrives(p, max, future);
      assert [] + future == future;
  }

  // The reference run of a peer that will get `incoming`, with what was sent before it.
  function DriveFrom(t: Trace, incoming: Bytes): Driven
    requires Valid(t.peer)
  {
    Prepend(t.emitted, Drive(t.peer, incoming))
  }

  lemma {:induction false} DoDrives(t: Trace, op: Op, future: Bytes)
    requires Valid(t.peer)
    ensures DriveFrom(t, Consumed(t.peer, op) + future) == DriveFrom(Do(t, op), future)
  {
    hide Drive, Act, Consumed, Emitted;
    ActDrives(t.peer, op, future);
    PrependTwice(t.emitted, Emitted(t.peer, op), Drive(Act(t.peer, op), future));
  }

  // However bytes are handed over and asked for, the run is a part of the reference run on the
  // concatenation of what it consumed, whatever is still to come.
  lemma {:induction false} RunDrives(t: Trace, ops: seq<Op>, future: Bytes) returns (eaten: Bytes)
    requires Valid(t.peer)
    ensures Run(t, ops).consumed == t.consumed + eaten
    ensures DriveFrom(t, eaten + future) == DriveFrom(Run(t, ops), future)
    decreases |ops|
  {
    hide DriveFrom, Act, Consumed, Emitted;
    if ops == [] {
      eaten := [];
      assert [] + future == future && t.consumed + [] == t.consumed;
    } else {
      var later := RunDrives(Do(t, ops[0]), ops[1..], future);
      var now := Consumed(t.peer, ops[0]);
      eaten := now + later;
      DoDrives(t, ops[0], later + future);
      assert now + (later + future) == eaten + future;
      assert (t.consumed + now) + later == t.consumed + eaten;
    }
  }

  // The peer has nothing left to send for now.
  predicate Waiting(p: Peer) {
    Stopped(p.step) || !Sends(p.role, p.step)
  }

  // No complete message waits to be judged: receivedBytes judges one when its last byte arrives.
  predicate Unjudged(p: Peer) {
    !Stopped(p.step) && !Sends(p.role, p.step) ==> |p.input| < BytesNeeded(p.role, p.step)
  }

  lemma {:induction false} ActUnjudged(p: Peer, op: Op)
    requires Valid(p) && Unjudged(p)
    ensures Unjudged(Act(p, op))
  {
  }

  lemma {:induction false} RunUnjudged(t: Trace, ops: seq<Op>)
    requires Valid(t.peer) && Unjudged(t.peer)
    ensures Unjudged(Run(t, ops).peer)
    decreases |ops|
  {
    if ops != [] {
      ActUnjudged(t.peer, ops[0]);
      RunUnjudged(Do(t, ops[0]), ops[1..]);
    }
  }

  // The fragmented API refines the whole-message one: with the bytes a run has consumed, the
  // reference emits what the run has emitted and will; and once the run has sent all it can,
  // peer, step, error, secrets and emitted bytes are exactly the reference's.
  lemma {:induction false} FragmentsRefineMessages(p: Peer, ops: seq<Op>)
    requires Valid(p) && Unjudged(p)
    ensures var r := Run(Start(p), ops);
            && r.emitted <= Drive(p, r.consumed).sent
            && (Waiting(r.peer) ==> Drive(p, r.consumed) == Driven(r.peer, r.emitted, []))
  {
    var eaten := RunDrives(Start(p), ops, []);
    RunUnjudged(Start(p), ops);
    var r := Run(Start(p), ops);
    assert [] + eaten == eaten == eaten + [];
    PrependNothing(Drive(p, eaten));
    if Waiting(r.peer) {
      assert r.peer.input + [] == r.peer.input;
      assert r.emitted + [] == r.emitted;
    }
  }

  // Failed and Finished are final: nothing is consumed, emitted, or changed.
  lemma {:induction false} StoppedIsFinal(t: Trace, ops: seq<Op>)
    requires Valid(t.peer) && Stopped(t.peer.step)
    ensures Run(t, ops) == t
    decreases |ops|
  {
    if ops != [] {
      assert t.consumed + [] == t.consumed && t.emitted + [] == t.emitted;
      StoppedIsFinal(t, ops[1..]);
    }
  }

  // Outside that API a failed handshake can be failed again, by readFailed, or by readCompleted
  // once bytesToRead has emptied its buffer: it stays failed, and an authentication error turns
  // into a protocol error.
  lemma {:induction false} FailingAgain(p: Peer)
    requires Valid(p) && p.step == Failed
    ensures var again, emptied := Fail(p), p.(input := []);
            && Valid(again) && again.step == Failed && again.error == ProtocolError
            && Valid(emptied) && ReadDone(emptied) == Fail(emptied) == again.(input := [])
  {
  }

  // -------------------------------------------------------------------------------------
  // The reference run, message by message

  lemma {:induction false} DriveReads(p: Peer, message: Bytes, future: Bytes)
    requires Valid(p) && !Stopped(p.step) && !Sends(p.role, p.step)
    requires p.input == [] && |message| == BytesNeeded(p.role, p.step)
    ensures Drive(p, message + future) == Drive(ReadDone(p.(input := message)), future)
  {
    assert (message + future)[..|message|] == message && (message + future)[|message|..] == future;
    assert [] + message == message;
  }

  lemma {:induction false} DriveSends(p: Peer, incoming: Bytes)
    requires Valid(p) && Sends(p.role, p.step)
    ensures var d := Drive(SendDone(Fill(p)), incoming);
            Drive(p, incoming) == Driven(d.peer, Fill(p).output + d.sent, d.rest)
  {
  }

  lemma {:induction false} DriveStops(p: Peer)
    requires Valid(p) && Stopped(p.step)
    ensures Drive(p, []) == Driven(p, [], [])
  {
  }

  // A client given a challenge that verifies, and an acknowledgement.
  lemma {:induction false} ClientDrives(K: Bytes, X: nat, x: nat, serverKey: Bytes, challenge: Bytes, ack: Bytes)
    requires |challenge| == CHALLENGE_SIZE && GoodChallenge(Fresh(K, X, x, Some(serverKey)), challenge)
    requires |ack| == SERVER_ACK_SIZE
    ensures var d := Drive(NewClient(K, X, x, serverKey), challenge + ack);
            var c0 := Fresh(K, X, x, Some(serverKey));
            var c := Identify(Meet(c0, challenge[32..]));
            && d.sent == Challenge(c0) + ClientAuthMessage(c)
            && d.rest == []
            && (GoodAck(c, ack) ==> d.peer.step == Finished && d.peer.core == KeepAckKey(c))
            && (!GoodAck(c, ack) ==> d.peer.step == Failed && d.peer.error == AuthError)
  {
    hide Challenge, GoodChallenge, Meet, Identify, ClientAuthMessage, GoodAck, KeepAckKey, Drive;
    var p := NewClient(K, X, x, serverKey);
    DriveSends(p, challenge + ack);
    var p1 := SendDone(Fill(p));
    DriveReads(p1, challenge, ack);
    var p2 := ReadDone(p1.(input := challenge));
    DriveSends(p2, ack);
    var p3 := SendDone(Fill(p2));
    DriveReads(p3, ack, []);
    var p4 := ReadDone(p3.(input := ack));
    DriveStops(p4);
    assert ack + [] == ack;
  }

  // Does a server answer an identity?
  predicate ServerAnswers(s1: Core, authorizer: Authorizer, auth: Bytes)
    requires s1.Met() && |auth| == CLIENT_AUTH_SIZE
  {
    GoodAuth(s1, auth) && (authorizer.None? || authorizer.value(AfterAuth(s1, auth).Yp.value))
  }

  lemma {:induction false} AnswerDrives(p: Peer, auth: Bytes)
    requires Valid(p) && p.role == Server && p.step == ClientAuth && p.input == [] && p.output == []
    requires |auth| == CLIENT_AUTH_SIZE
    ensures var d, s := Drive(p, auth), AfterAuth(p.core, auth);
            && d.rest == []
            && if ServerAnswers(p.core, p.authorizer, auth) then
                 && d.peer.step == Finished && d.peer.core == KeepAckKey(s) && d.sent == ServerAckMessage(s)
               else
                 && d.peer.step == Failed && d.peer.error == AuthError && d.peer.input == auth
                 && d.sent == []
  {
    hide AfterAuth, GoodAuth, KeepAckKey, ServerAckMessage, Drive;
    DriveReads(p, auth, []);
    assert auth + [] == auth;
    var q := ReadDone(p.(input := auth));
    if q.step == ServerAck {
      DriveSends(q, []);
      DriveStops(SendDone(Fill(q)));
    } else {
      DriveStops(q);
    }
  }

  // A server given a challenge that verifies, and an identity.
  lemma {:induction false} ServerDrives(K: Bytes, X: nat, x: nat, authorizer: Authorizer, challenge: Bytes, auth: Bytes)
    requires |challenge| == CHALLENGE_SIZE && GoodChallenge(Fresh(K, X, x, None), challenge)
    requires |auth| == CLIENT_AUTH_SIZE
    ensures var d := Drive(NewServer(K, X, x, authorizer), challenge + auth);
            var s0 := Fresh(K, X, x, None);
            var s1 := Meet(s0, challenge[32..]);
            var s := AfterAuth(s1, auth);
            && d.rest == []
            && if ServerAnswers(s1, authorizer, auth) then
                 && d.peer.step == Finished && d.peer.core == KeepAckKey(s)
                 && d.sent == Challenge(s0) + ServerAckMessage(s)
               else
                 && d.peer.step == Failed && d.peer.error == AuthError && d.peer.input == auth
                 && d.sent == Challenge(s0)
  {
    hide GoodChallenge, AfterAuth, KeepAckKey, ServerAckMessage, Drive, ServerAnswers, PointOf, Times;
    var p := NewServer(K, X, x, authorizer);
    DriveReads(p, challenge, auth);
    var p1 := ReadDone(p.(input := challenge));
    DriveSends(p1, auth);
    AnswerDrives(SendDone(Fill(p1)), auth);
  }
}
