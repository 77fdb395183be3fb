// A network that delivers faithfully is one of the attacker's choices: every schedule of a client
// and a server joined by two channels is a run of the world they make up.

module Network {
  import opened Symbolic
  import opened HandshakeSteps
  import opened HandshakeRuns
  import opened HandshakeClaims
  import opened Deduction
  import opened Worlds
  import TwoParty

  // The client and the server of a setup, at given points of their runs.
  ghost function Both(z: Setup, s: TwoParty.System): World {
    [Party(z.Client(), s.client), Party(z.Server(), s.server)]
  }

  function AsMove(s: TwoParty.System, a: TwoParty.Action): Move {
    match a
    case ClientSends(max) => Move(0, Send(max))
    case ServerSends(max) => Move(1, Send(max))
    case ClientReads(max) => Move(0, Recv(TwoParty.Front(s.toClient, max)))
    case ServerReads(max) => Move(1, Recv(TwoParty.Front(s.toServer, max)))
  }

  lemma {:induction false} BothExplained(z: Setup, s: TwoParty.System)
    requires z.WellSized() && TwoParty.Inv(z, s)
    ensures AllExplained(Both(z, s))
  {
  }

  // What is in a channel has been let out, so it can be delivered.
  lemma {:induction false} ChannelCanBeSent(att: Attacker, w: World, i: nat, consumed: Bytes, channel: Bytes, max: nat)
    requires AllExplained(w) && i < |w| && w[i].trace.emitted == consumed + channel
    ensures CanSend(att, Out(att, w), TwoParty.Front(channel, max))
  {
    hide CanSend, Out;
    EmittedIsDeliverable(att, w, i);
    CanSendJoined(att, Out(att, w), consumed, channel);
    CanSendFront(att, Out(att, w), TwoParty.Front(channel, max), channel);
  }

  lemma {:induction false} StepIsMove(att: Attacker, z: Setup, s: TwoParty.System, a: TwoParty.Action)
    requires z.WellSized() && TwoParty.Inv(z, s)
    ensures Permitted(att, Both(z, s), AsMove(s, a))
    ensures Next(Both(z, s), AsMove(s, a)) == Both(z, TwoParty.Step(s, a))
  {
    hide CanSend, Out, Explained, Do, Consumed, Emitted;
    var w := Both(z, s);
    BothExplained(z, s);
    match a
    case ClientSends(_) =>
    case ServerSends(_) =>
    case ClientReads(max) => ChannelCanBeSent(att, w, 1, s.client.consumed, s.toClient, max);
    case ServerReads(max) => ChannelCanBeSent(att, w, 0, s.server.consumed, s.toServer, max);
  }

  lemma {:induction false} ScheduleIsMoves(att: Attacker, z: Setup, s: TwoParty.System, schedule: seq<TwoParty.Action>)
    returns (moves: seq<Move>)
    requires z.WellSized() && TwoParty.Inv(z, s)
    ensures AllPermitted(att, Both(z, s), moves)
    ensures After(att, Both(z, s), moves) == Both(z, TwoParty.RunAll(s, schedule))
    decreases |schedule|
  {
    hide Permitted, Next, TwoParty.Step;
    if schedule == [] {
      moves := [];
    } else {
      StepIsMove(att, z, s, schedule[0]);
      TwoParty.StepKeeps(z, s, schedule[0]);
      var rest := ScheduleIsMoves(att, z, TwoParty.Step(s, schedule[0]), schedule[1..]);
      moves := [AsMove(s, schedule[0])] + rest;
      assert moves[1..] == rest;
    }
  }

  // In particular, under every attacker a good setup can run to its end.
  lemma {:induction false} BothCanFinish(att: Attacker, z: Setup) returns (w0: World, moves: seq<Move>)
    requires z.WellSized() && Good(z)
    ensures NoneBegun(w0) && AllPermitted(att, w0, moves)
    ensures var w := After(att, w0, moves);
            && |w| == 2 && w[0].start == z.Client() && w[1].start == z.Server()
            && w[0].trace.peer.step == Finished && w[1].trace.peer.step == Finished
  {
    hide Good, TwoParty.Busy, TwoParty.RunAll, AllPermitted, After;
    var s := TwoParty.Initial(z);
    TwoParty.InitialInv(z);
    var schedule := TwoParty.CanEnd(z, s);
    w0 := Both(z, s);
    moves := ScheduleIsMoves(att, z, s, schedule);
  }
}
