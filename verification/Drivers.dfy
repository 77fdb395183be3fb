// The two programs that drive a handshake over a raw stream: crouton's loop and the
// recursion over kj promises. Both are held to the reference run of whole messages.

module Drivers {
  import opened RawStreams
  import opened Symbolic
  import opened HandshakeCore
  import opened HandshakeSteps
  import opened HandshakeRuns

  // How a handshake over a stream ends: with a session, with a message that is turned down, or
  // with a stream that ends too early, which is blamed according to the step.
  datatype Verdict = Connected(session: Session) | Rejected(error: Error) | Starved(error: Error)

  function VerdictOf(p: Peer): Verdict
    requires Valid(p)
  {
    if p.step == Finished then Connected(Outcome(p.core))
    else if p.step == Failed then Rejected(p.error)
    else Starved(Fail(p).error)
  }

  lemma VerdictMeans(p: Peer)
    requires Valid(p)
    ensures VerdictOf(p).Connected? <==> p.step == Finished
    ensures VerdictOf(p).Connected? ==> VerdictOf(p).session == Outcome(p.core)
    ensures VerdictOf(p).Rejected? <==> p.step == Failed
    ensures VerdictOf(p).Rejected? ==> VerdictOf(p).error == p.error
    ensures VerdictOf(p).Starved? ==>
              VerdictOf(p).error == if p.step == ClientChallenge || p.step == ServerChallenge then ProtocolError
                                    else AuthError
  {
  }

  // In each state a driver meets, exactly one thing is to be done.
  lemma ExactlyOneThing(p: Peer)
    requires Valid(p)
    ensures var finished, sends := p.step == Finished, !Stopped(p.step) && Fill(p).output != [];
            var receives, failed := BytesNeeded(p.role, p.step) > 0, p.error != NoError;
            && (finished || sends || receives || failed)
            && !(finished && sends) && !(finished && receives) && !(finished && failed)
            && !(sends && receives) && !(sends && failed) && !(receives && failed)
  {
  }

  // Between messages, nothing is buffered.
  predicate BetweenMessages(p: Peer) {
    Valid(p) && (p.step != Failed ==> p.input == [] && p.output == [])
  }

  // Sends this step's message, if it has one.
  method SendMessage(h: Handshake, stream: RawStream<Byte>) returns (sent: bool)
    requires BetweenMessages(h.State())
    modifies h, h.impl, stream`written
    ensures BetweenMessages(h.State())
    ensures sent == Sends(h.role, old(h.step))
    ensures sent ==> h.step == NextStep(old(h.step)) && h.State() == SendDone(Fill(old(h.State())))
                     && stream.written == old(stream.written) + Fill(old(h.State())).output
    ensures !sent ==> h.State() == old(h.State()) && stream.written == old(stream.written)
  {
    hide Challenge, Identify, ClientAuthMessage, ServerAckMessage, KeepAckKey;
    ExactlyOneThing(h.State());
    var toSend := h.BytesToSend();
    sent := |toSend| > 0;
    if sent {
      stream.Write(toSend);
      var _ := h.SendCompleted();
    }
  }

  // Reads this step's message, if it has one and the stream holds it.
  method ReadMessage(h: Handshake, stream: RawStream<Byte>) returns (complete: bool)
    requires BetweenMessages(h.State()) && BytesNeeded(h.role, h.step) > 0
    modifies h, h.impl, stream`incoming
    ensures complete == (|old(stream.incoming)| >= BytesNeeded(h.role, old(h.step)))
    ensures complete ==>
              var n := BytesNeeded(h.role, old(h.step));
              && BetweenMessages(h.State()) && h.step in {Failed, NextStep(old(h.step))}
              && h.State() == ReadDone(old(h.State()).(input := old(stream.incoming)[..n]))
              && stream.incoming == old(stream.incoming)[n..]
    ensures !complete ==> Valid(h.State()) && h.State() == old(h.State()).(input := h.inputBuffer)
  {
    hide Learn, Accepts;
    var n := h.BytesToRead();
    var data := stream.Read(n);
    complete := |data| == n;
    if complete {
      h.CopyIntoBuffer(data);
      var _ := h.ReadCompleted();
    }
  }

  lemma DriveSends(p: Peer, incoming: Bytes)
    requires BetweenMessages(p) && Sends(p.role, p.step)
    ensures Drive(p, incoming) == Prepend(Fill(p).output, Drive(SendDone(Fill(p)), incoming))
  {
  }

  lemma DriveReads(p: Peer, incoming: Bytes)
    requires BetweenMessages(p) && BytesNeeded(p.role, p.step) > 0
    ensures var n := BytesNeeded(p.role, p.step);
            if |incoming| < n then
              && Drive(p, incoming).sent == []
              && VerdictOf(Drive(p, incoming).peer) == Starved(Fail(p).error)
            else
              Drive(p, incoming) == Drive(ReadDone(p.(input := incoming[..n])), incoming[n..])
  {
    hide Learn, Accepts;
    var n := BytesNeeded(p.role, p.step);
    if |incoming| < n {
      assert Drive(p, incoming) == Driven(p.(input := p.input + incoming), [], []);
    } else {
      assert p.input + incoming[..n] == incoming[..n];
    }
  }

  // -------------------------------------------------------------------------------------
  // crouton

  // One round of the loop: a message out, if there is one, and a message in, if there is one.
  method Round(h: Handshake, stream: RawStream<Byte>) returns (starved: bool)
    requires BetweenMessages(h.State()) && !Stopped(h.step)
    modifies h, h.impl, stream
    ensures !starved ==>
              && BetweenMessages(h.State())
              && StepsLeft(h.step) < StepsLeft(old(h.step))
              && (Sends(h.role, old(h.step)) ==> Stopped(h.step) || StepsLeft(h.step) < StepsLeft(old(h.step)) - 1)
              && (Stopped(h.step) || Sends(h.role, h.step))
              && Prepend(stream.written, Drive(h.State(), stream.incoming))
                 == Prepend(old(stream.written), Drive(old(h.State()), old(stream.incoming)))
    ensures starved ==>
              && h.step == Failed && h.error != NoError
              && var d := Drive(old(h.State()), old(stream.incoming));
                 VerdictOf(d.peer) == Starved(h.error) && stream.written == old(stream.written) + d.sent
  {
    hide Fill, ReadDone, Drive;
    starved := false;
    ghost var p := h.State();
    var sent := SendMessage(h, stream);
    if sent {
      DriveSends(p, stream.incoming);
      PrependTwice(old(stream.written), stream.written[|old(stream.written)|..], Drive(h.State(), stream.incoming));
    }
    ghost var q := h.State();
    if BytesNeeded(h.role, h.step) > 0 {
      DriveReads(q, stream.incoming);
      var complete := ReadMessage(h, stream);
      if !complete {
        h.ReadFailed();
        starved := true;
        assert Prepend(Fill(p).output, Drive(q, old(stream.incoming))).sent == Fill(p).output + [];
      }
    }
  }

  datatype Result = Success(session: Session) | HandshakeError(error: Error)

  // The loop ends within three rounds, with the messages of the reference run written. It succeeds
  // exactly if that run finishes, with its session. Otherwise the error is the one the run failed
  // with, or, if the stream ended before the run did, that of the half it ended in.
  method CroutonHandshake(h: Handshake, stream: RawStream<Byte>) returns (r: Result, ghost rounds: nat)
    requires BetweenMessages(h.State()) && h.step == ClientChallenge
    modifies h, h.impl, stream
    ensures var p := Drive(old(h.State()), old(stream.incoming)).peer;
            && (r.Success? <==> p.step == Finished)
            && (r.Success? ==> r.session == Outcome(p.core))
            && (p.step == Failed ==> r == HandshakeError(p.error))
            && (p.step == ClientChallenge || p.step == ServerChallenge ==> r == HandshakeError(ProtocolError))
            && (p.step == ClientAuth || p.step == ServerAck ==> r == HandshakeError(AuthError))
    ensures stream.written == old(stream.written) + Drive(old(h.State()), old(stream.incoming)).sent
    ensures rounds <= 3
  {
    hide Drive, VerdictOf;
    ghost var all := Drive(h.State(), stream.incoming);
    VerdictMeans(all.peer);
    rounds := 0;
    var more, starved := true, false;
    while more
      invariant more ==> !Stopped(h.step) && !starved
      invariant !more ==> Stopped(h.step)
      invariant !starved ==> BetweenMessages(h.State())
      invariant !starved ==> Prepend(stream.written, Drive(h.State(), stream.incoming))
                             == Prepend(old(stream.written), all)
      invariant starved ==> h.error != NoError && VerdictOf(all.peer) == Starved(h.error)
                            && stream.written == old(stream.written) + all.sent
      invariant more ==> rounds <= 2 && (rounds > 0 ==> Sends(h.role, h.step))
      invariant more ==> StepsLeft(h.step) <= if rounds == 0 then 4 else 5 - 2 * rounds
      invariant rounds <= 3
      decreases more, StepsLeft(h.step)
    {
      starved := Round(h, stream);
      rounds := rounds + 1;
      more := h.step != Finished && h.error == NoError;
    }
    if !starved {
      DriveStopped(h.State(), stream.incoming);
      assert stream.written + [] == stream.written;
    }
    if h.error != NoError {
      r := HandshakeError(h.error);
    } else {
      var session := h.GetSession();
      r := Success(session.value);
    }
  }

  lemma DriveStopped(p: Peer, incoming: Bytes)
    requires Valid(p) && Stopped(p.step)
    ensures Drive(p, incoming).sent == [] && Drive(p, incoming).peer == p
    ensures VerdictOf(p) == if p.step == Finished then Connected(Outcome(p.core)) else Rejected(p.error)
  {
  }

  // -------------------------------------------------------------------------------------
  // kj

  datatype KjResult = Established(session: Session) | Unauthorized | FailedToConnect | StreamEnded

  // Each call does one thing and continues; there are at most five. The outcome is that of the
  // reference run: connected if it finishes and the stream wrapper's own authorizer, asked then,
  // accepts the peer's key; turned away if that refuses it; failed if the run fails; and cut off
  // if the stream ends before the run does.
  method KjHandshake(h: Handshake, stream: RawStream<Byte>, authorizer: Authorizer)
    returns (r: KjResult, ghost calls: nat)
    requires BetweenMessages(h.State())
    modifies h, h.impl, stream
    ensures var p := Drive(old(h.State()), old(stream.incoming)).peer;
            && (r.Established? || r.Unauthorized? <==> p.step == Finished)
            && (r.Established? ==> r.session == Outcome(p.core))
            && (r.Established? && authorizer.Some? ==> authorizer.value(r.session.peerPublicKey))
            && (r.Unauthorized? ==> authorizer.Some? && !authorizer.value(Outcome(p.core).peerPublicKey))
            && (r.FailedToConnect? <==> p.step == Failed)
            && (r.StreamEnded? <==> !Stopped(p.step))
    ensures stream.written == old(stream.written) + Drive(old(h.State()), old(stream.incoming)).sent
    ensures 1 <= calls <= 1 + StepsLeft(old(h.step))
    decreases StepsLeft(h.step)
  {
    hide Drive, VerdictOf, Fill, ReadDone, Outcome, Valid;
    ghost var p, before := h.State(), stream.written;
    VerdictMeans(Drive(p, stream.incoming).peer);
    calls := 1;
    if Stopped(h.step) {
      DriveStopped(p, stream.incoming);
      assert before + [] == before;
    }
    if h.step == Finished {
      var session := h.GetSession();
      if authorizer.Some? && !authorizer.value(session.value.peerPublicKey) {
        return Unauthorized, 1;
      }
      return Established(session.value), 1;
    }
    var sent := SendMessage(h, stream);
    if sent {
      DriveSends(p, stream.incoming);
      ghost var d := Drive(h.State(), stream.incoming);
      assert (before + Fill(p).output) + d.sent == before + (Fill(p).output + d.sent);
      ghost var c;
      r, c := KjHandshake(h, stream, authorizer);
      calls := c + 1;
      return;
    }
    if BytesNeeded(h.role, h.step) > 0 {
      DriveReads(p, stream.incoming);
      var complete := ReadMessage(h, stream);
      if !complete {
        assert before + [] == before;
        return StreamEnded, 1;
      }
      ghost var c;
      r, c := KjHandshake(h, stream, authorizer);
      calls := c + 1;
    } else {
      ExactlyOneThing(p);
      assert h.error != NoError;
      return FailedToConnect, 1;
    }
  }
}
