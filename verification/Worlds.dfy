// Any number of honest runs, as clients and as servers, on a network an attacker controls.

module Worlds {
  import opened Symbolic
  import opened HandshakeCore
  import opened HandshakeSteps
  import opened HandshakeRuns
  import opened HandshakeHistories
  import opened Deduction

  // One run of an honest peer, from how it was set up.
  datatype Party = Party(start: Peer, trace: Trace)

  type World = seq<Party>

  ghost predicate ProperStart(p: Peer) {
    && |p.core.K| == 32
    && if p.role.Client? then
         && p.core.Yp.Some? && |p.core.Yp.value| == 32
         && p == NewClient(p.core.K, p.core.X, p.core.x, p.core.Yp.value)
       else
         p == NewServer(p.core.K, p.core.X, p.core.x, p.authorizer)
  }

  ghost predicate Explained(p: Party)
    ensures Explained(p) ==> Valid(p.trace.peer)
  {
    && ProperStart(p.start) && Valid(p.trace.peer)
    && if p.start.role.Client? then ClientHistory(p.start.core, p.trace)
       else ServerHistory(p.start.core, p.start.authorizer, p.trace)
  }

  ghost predicate AllExplained(w: World) {
    forall i | 0 <= i < |w| :: Explained(w[i])
  }

  // A client that has verified a challenge, and a server that has admitted an identity, hold
  // everything their sessions are derived from, whether or not they have answered yet.
  ghost predicate Knowing(p: Party)
    ensures Knowing(p) ==> Explained(p)
  {
    && Explained(p)
    && if p.start.role.Client? then Meets(p.start.core, p.trace.consumed)
       else Admits(p.start.core, p.start.authorizer, p.trace.consumed)
  }

  ghost function Knowledge(p: Party): (k: Core)
    requires Knowing(p)
    ensures k.Identified()
    ensures k.K == p.start.core.K && k.X == p.start.core.X && k.x == p.start.core.x
  {
    if p.start.role.Client? then ClientKnows(p.start.core, p.trace.consumed)
    else ServerKnows(p.start.core, p.trace.consumed)
  }

  // The run has let out at least the first byte of its second message.
  ghost predicate Answered(p: Party) {
    Knowing(p) && |p.trace.emitted| > CHALLENGE_SIZE
  }

  lemma {:induction false} AnsweredKnows(p: Party)
    requires Explained(p) && |p.trace.emitted| > CHALLENGE_SIZE
    ensures Knowing(p)
  {
    if p.start.role.Client? {
      ClientEmits(p.start.core, p.trace);
    } else {
      ServerEmits(p.start.core, p.start.authorizer, p.trace);
    }
  }

  // A server that is ready to acknowledge knows.
  lemma {:induction false} ReadyServerKnows(p: Party)
    requires Explained(p) && p.start.role.Server?
    requires p.trace.peer.step == ServerAck || p.trace.peer.step == Finished
    ensures Knowing(p)
  {
  }

  // -------------------------------------------------------------------------------------
  // What runs let out

  // The one signature of a run, the key it is boxed with, and the box.
  ghost function Claim(p: Party): (message: Bytes)
    requires Knowing(p)
    ensures |message| == if p.start.role.Client? then 96 else 160
  {
    var k := Knowledge(p);
    if p.start.role.Client? then ClientClaim(k.K, k.Yp.value, k.hashab.value)
    else ServerClaim(k.K, k.H.value, k.hashab.value)
  }

  ghost function Signed(p: Party): Term
    requires Knowing(p)
  {
    Signature(p.start.core.X, Claim(p))
  }

  ghost function BoxKey(p: Party): Bytes
    requires Knowing(p)
  {
    if p.start.role.Client? then ClientAuthKey(Knowledge(p)) else ServerAckKey(Knowledge(p))
  }

  ghost function Answer(p: Party): (t: Term)
    requires Knowing(p)
    ensures t.Boxed? && t.key == BoxKey(p)
    ensures |t.plaintext| == if p.start.role.Client? then 96 else 64
  {
    if p.start.role.Client? then Boxed(BoxKey(p), Knowledge(p).H.value)
    else Boxed(BoxKey(p), Encode(Signed(p)))
  }

  // Could an attacker have computed a secret?
  ghost predicate Computable(secrets: set<Scalar>, secret: Bytes) {
    match TermOf(secret)
    case Some(Curve(factors, _, _)) => Light(secrets, factors)
    case _ => true
  }

  lemma SecretIsNotComputable(secrets: set<Scalar>, s: Scalar, r: Scalar)
    requires s != r && s in secrets && r in secrets
    ensures !Computable(secrets, Secret(s, r))
  {
    var f := Scale(Once(s), r, 1);
    TermOfEncode(Curve(f, Generator, 0));
    assert s in f && r in f;
  }

  // And all the secrets a run's box key is hashed from?
  ghost predicate Exposed(att: Attacker, p: Party)
    requires Knowing(p)
  {
    var k := Knowledge(p);
    && Computable(att.secrets, k.ab.value) && Computable(att.secrets, k.aB.value)
    && (p.start.role.Server? ==> Computable(att.secrets, k.Ab.value))
  }

  // The HMAC, the box and, if the attacker can open it, the signature a run has let out, each by
  // the time its first byte is out.
  ghost function Released(att: Attacker, p: Party): (out: set<Term>)
    requires Explained(p)
    ensures OnlyMessages(out)
  {
    (if p.trace.emitted == [] then {} else {Hmac(p.start.core.K, p.start.core.xp())})
    + (if Answered(p) then ReleasedAnswer(att, p) else {})
  }

  ghost function ReleasedAnswer(att: Attacker, p: Party): (out: set<Term>)
    requires Knowing(p)
    ensures OnlyMessages(out)
  {
    {Answer(p)} + (if Exposed(att, p) then {Signed(p)} else {})
  }

  ghost function Out(att: Attacker, w: World): (out: set<Term>)
    requires AllExplained(w)
    ensures OnlyMessages(out)
  {
    set i, t | 0 <= i < |w| && t in Released(att, w[i]) :: t
  }

  // What a run that has answered knows stays as it is ...
  lemma {:induction false} KnowledgeStays(p: Party, q: Party, op: Op)
    requires Explained(p) && Explained(q) && Answered(p)
    requires q == p.(trace := Do(p.trace, op))
    ensures Answered(q) && Knowledge(q) == Knowledge(p)
  {
    hide Act, ClientHistory, ServerHistory, Identify, AfterAuth, Meet, Challenge, ServerAckMessage,
         ClientAuthMessage, GoodChallenge, GoodAuth;
    AnsweredKnows(q);
    if p.start.role.Server? {
      assert q.trace.consumed == p.trace.consumed;
    }
    assert q.trace.consumed[32..CHALLENGE_SIZE] == p.trace.consumed[32..CHALLENGE_SIZE];
  }

  // ... and so does what it has let out.
  lemma {:induction false} ReleasedStays(att: Attacker, p: Party, q: Party, op: Op)
    requires Explained(p) && Explained(q)
    requires q == p.(trace := Do(p.trace, op))
    ensures Released(att, p) <= Released(att, q)
  {
    hide Act, Explained, Knowing, Knowledge, Answered, Computable;
    if Answered(p) {
      KnowledgeStays(p, q, op);
    }
  }

  // -------------------------------------------------------------------------------------
  // Moves

  // A step of the world: some run sends, or is handed bytes of the attacker's choice.
  datatype Move = Move(who: nat, op: Op)

  ghost predicate Permitted(att: Attacker, w: World, m: Move) {
    && AllExplained(w) && m.who < |w|
    && (m.op.Recv? ==> CanSend(att, Out(att, w), m.op.src))
  }

  ghost function Next(w: World, m: Move): World
    requires m.who < |w| && Valid(w[m.who].trace.peer)
  {
    w[m.who := w[m.who].(trace := Do(w[m.who].trace, m.op))]
  }

  ghost predicate Inv(att: Attacker, w: World) {
    AllExplained(w) && forall i | 0 <= i < |w| :: CanSend(att, Out(att, w), w[i].trace.consumed)
  }

  lemma {:induction false} StaysExplained(p: Party, op: Op)
    requires Explained(p)
    ensures Explained(p.(trace := Do(p.trace, op)))
  {
    hide ClientHistory, ServerHistory, Do;
    match (p.start.role, op)
    case (Client, Recv(src)) => ClientRecvKeeps(p.start.core, p.trace, src);
    case (Client, Send(max)) => ClientSendKeeps(p.start.core, p.trace, max);
    case (Server, Recv(src)) => ServerRecvKeeps(p.start.core, p.start.authorizer, p.trace, src);
    case (Server, Send(max)) => ServerSendKeeps(p.start.core, p.start.authorizer, p.trace, max);
  }

  lemma {:induction false} OutGrows(att: Attacker, w: World, m: Move)
    requires AllExplained(w) && m.who < |w|
    ensures AllExplained(Next(w, m)) && Out(att, w) <= Out(att, Next(w, m))
  {
    hide Explained, Released, Do;
    var w' := Next(w, m);
    StaysExplained(w[m.who], m.op);
    forall t | t in Out(att, w)
      ensures t in Out(att, w')
    {
      var i :| 0 <= i < |w| && t in Released(att, w[i]);
      if i == m.who {
        ReleasedStays(att, w[i], w'[i], m.op);
      }
      assert t in Released(att, w'[i]);
    }
  }

  lemma {:induction false} MoveKeeps(att: Attacker, w: World, m: Move)
    requires Inv(att, w) && Permitted(att, w, m)
    ensures Inv(att, Next(w, m))
  {
    hide Explained, CanSend, Out, Act;
    var w' := Next(w, m);
    OutGrows(att, w, m);
    var out, more := Out(att, w), Out(att, w');
    forall i | 0 <= i < |w'|
      ensures CanSend(att, more, w'[i].trace.consumed)
    {
      CanSendGrows(att, out, more, w[i].trace.consumed);
      if i == m.who {
        var p := w[i].trace;
        if m.op.Recv? {
          var taken := m.op.src[..Takes(p.peer, |m.op.src|)];
          CanSendFront(att, out, taken, m.op.src);
          CanSendGrows(att, out, more, taken);
          CanSendJoined(att, more, p.consumed, taken);
        } else {
          assert p.consumed + [] == p.consumed;
        }
      }
    }
  }

  // Any number of honest runs, none of them begun.
  ghost predicate NoneBegun(w: World) {
    forall i | 0 <= i < |w| :: ProperStart(w[i].start) && w[i].trace == Start(w[i].start)
  }

  ghost predicate AllPermitted(att: Attacker, w: World, moves: seq<Move>)
    decreases |moves|
  {
    moves == [] || (Permitted(att, w, moves[0]) && AllPermitted(att, Next(w, moves[0]), moves[1..]))
  }

  ghost function After(att: Attacker, w: World, moves: seq<Move>): World
    requires AllPermitted(att, w, moves)
    decreases |moves|
  {
    if moves == [] then w else After(att, Next(w, moves[0]), moves[1..])
  }

  lemma {:induction false} FreshInv(att: Attacker, w: World)
    requires NoneBegun(w)
    ensures Inv(att, w)
  {
  }

  lemma {:induction false} AfterKeeps(att: Attacker, w: World, moves: seq<Move>)
    requires Inv(att, w) && AllPermitted(att, w, moves)
    ensures Inv(att, After(att, w, moves))
    decreases |moves|
  {
    hide Explained, CanSend, Out;
    if moves != [] {
      MoveKeeps(att, w, moves[0]);
      AfterKeeps(att, Next(w, moves[0]), moves[1..]);
    }
  }

  lemma {:induction false} ReachableInv(att: Attacker, w0: World, moves: seq<Move>)
    requires NoneBegun(w0) && AllPermitted(att, w0, moves)
    ensures Inv(att, After(att, w0, moves))
  {
    FreshInv(att, w0);
    AfterKeeps(att, w0, moves);
  }

  // -------------------------------------------------------------------------------------
  // The attacker can do all that a network does, and all that can be done with a key

  // Whatever an honest run has let out, the attacker may deliver to anyone: honest delivery is
  // one of the attacker's choices.
  lemma {:induction false} EmittedIsDeliverable(att: Attacker, w: World, i: nat)
    requires AllExplained(w) && i < |w|
    ensures CanSend(att, Out(att, w), w[i].trace.emitted)
  {
    hide Explained, ClientHistory, ServerHistory, Meet, AfterAuth, GoodAuth, Identify;
    var p, out := w[i], Out(att, w);
    var c0, t := p.start.core, p.trace;
    if t.emitted != [] {
      assert Hmac(c0.K, c0.xp()) in Released(att, p);
      CanSendChallenge(att, out, c0);
      if |t.emitted| > CHALLENGE_SIZE {
        AnsweredKnows(p);
        assert Answer(p) in Released(att, p);
        CanSendTerm(att, out, Answer(p));
        CanSendJoined(att, out, Challenge(c0), Encode(Answer(p)));
        EmitsAnswer(p);
        CanSendFront(att, out, t.emitted, Challenge(c0) + Encode(Answer(p)));
      } else {
        EmitsChallenge(p);
        CanSendFront(att, out, t.emitted, Challenge(c0));
      }
    }
  }

  lemma CanSendChallenge(att: Attacker, out: set<Term>, c: Core)
    requires Hmac(c.K, c.xp()) in out
    ensures CanSend(att, out, Challenge(c))
  {
    hide CanSend;
    CanSendTerm(att, out, Hmac(c.K, c.xp()));
    CanSendKeys(att, out, Ephemeral(c.x), 0, 0);
    CanSendJoined(att, out, HmacOf(c.K, c.xp()), c.xp());
  }

  lemma {:induction false} EmitsChallenge(p: Party)
    requires Explained(p) && |p.trace.emitted| <= CHALLENGE_SIZE
    ensures p.trace.emitted <= Challenge(p.start.core)
  {
    hide ClientHistory, ServerHistory;
    if p.start.role.Client? {
      ClientEmits(p.start.core, p.trace);
    } else {
      ServerEmits(p.start.core, p.start.authorizer, p.trace);
    }
  }

  lemma {:induction false} EmitsAnswer(p: Party)
    requires Answered(p)
    ensures p.trace.emitted <= Challenge(p.start.core) + Encode(Answer(p))
  {
    hide ClientHistory, ServerHistory, Challenge, GoodChallenge, Meet, Identify, AfterAuth, GoodAuth;
    if p.start.role.Client? {
      ClientEmits(p.start.core, p.trace);
    } else {
      ServerEmits(p.start.core, p.start.authorizer, p.trace);
    }
  }

  // A box the attacker has the key of, it can open.
  lemma {:induction false} AttackerOpens(att: Attacker, w: World, key: Bytes, plaintext: Bytes)
    requires AllExplained(w)
    requires CanSend(att, Out(att, w), key) && CanSend(att, Out(att, w), Symbolic.Box(key, plaintext))
    ensures CanSend(att, Out(att, w), plaintext)
  {
    hide Explained, Released;
    var out, t := Out(att, w), Boxed(key, plaintext);
    CanSendTerm(att, out, t);
    if t in out {
      var i :| 0 <= i < |w| && t in Released(att, w[i]);
      OwnAnswer(att, w[i], t);
      KeyExposes(att, out, w[i]);
      SignedIsReleased(att, w[i]);
      assert Signed(w[i]) in out;
      CanSendContents(att, out, w[i]);
    }
  }

  lemma {:induction false} OwnAnswer(att: Attacker, p: Party, t: Term)
    requires Explained(p) && t in Released(att, p)
    ensures t.Boxed? ==> Answered(p) && t == Answer(p)
    ensures t.Signature? ==> Answered(p) && Exposed(att, p) && t == Signed(p)
  {
    hide Explained, Knowing, Answer, Exposed;
  }

  lemma {:induction false} SignedIsReleased(att: Attacker, p: Party)
    requires Answered(p) && Exposed(att, p)
    ensures Signed(p) in Released(att, p)
  {
  }

  // Whoever has a box key has the secrets it was hashed from.
  lemma {:induction false} KeyExposes(att: Attacker, out: set<Term>, p: Party)
    requires Knowing(p) && OnlyMessages(out) && CanSend(att, out, BoxKey(p))
    ensures Exposed(att, p)
  {
    hide Knowing, Knowledge;
    var k := Knowledge(p);
    var two := k.K + k.ab.value + k.aB.value;
    var data := if p.start.role.Client? then two else two + k.Ab.value;
    CanSendTerm(att, out, Hash(data));
    assert CanSend(att, out, data);
    if p.start.role.Server? {
      CanSendJoined(att, out, two, k.Ab.value);
      SentIsComputable(att, out, k.Ab.value);
    }
    CanSendJoined(att, out, k.K + k.ab.value, k.aB.value);
    CanSendJoined(att, out, k.K, k.ab.value);
    SentIsComputable(att, out, k.ab.value);
    SentIsComputable(att, out, k.aB.value);
  }

  lemma SentIsComputable(att: Attacker, out: set<Term>, secret: Bytes)
    requires OnlyMessages(out) && CanSend(att, out, secret)
    ensures Computable(att.secrets, secret)
  {
    if TermOf(secret).Some? {
      CanSendTerm(att, out, TermOf(secret).value);
    }
  }

  lemma {:induction false} CanSendContents(att: Attacker, out: set<Term>, p: Party)
    requires Knowing(p) && Signed(p) in out
    ensures CanSend(att, out, Answer(p).plaintext)
  {
    CanSendTerm(att, out, Signed(p));
    if p.start.role.Client? {
      CanSendKeys(att, out, LongTerm(0), p.start.core.X, 0);
      CanSendJoined(att, out, Encode(Signed(p)), PublicKey(p.start.core.X));
    }
  }
}
