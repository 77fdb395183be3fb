// Whole runs of one direction of a connection: an encryption stream, the bytes in flight, and
// the decryption stream at the other end, with arbitrary interleaving and fragmentation.

module StreamRuns {
  import opened Prelude
  import opened Octets
  import opened Ciphers
  import opened Frames
  import opened FrameStreams
  import opened Nonces
  import opened StreamStates

  // The last four fields are history: the plaintext pushed and pulled so far, the ciphertext
  // delivered so far, and whether every push into the decryption stream returned true.
  datatype Link = Link(
    enc: EncState, wire: seq<Octet>, dec: DecState,
    pushed: seq<Octet>, delivered: seq<Octet>, pulled: seq<Octet>, ok: bool)

  datatype Action =
    | PushPart(data: seq<Octet>)
    | PushAll(data: seq<Octet>)
    | FlushNow
    | Transmit(max: nat)     // pull ciphertext onto the wire
    | Deliver(max: nat)      // push the next bytes of the wire into the decryption stream
    | PullPlain(max: nat)    // pull plaintext

  // The two ends as their sessions set them up.
  function Initial(sendNonce: Nonce, receiveNonce: Nonce): Link {
    Link(EncState([], [], sendNonce), [], DecState([], [], receiveNonce), [], [], [], true)
  }

  function Step(sender: Suite, receiver: Suite, l: Link, a: Action): Link {
    match a
    case PushPart(data) =>
      l.(enc := PushPartial(sender, l.enc, data), pushed := l.pushed + data)
    case PushAll(data) =>
      l.(enc := Push(sender, l.enc, data), pushed := l.pushed + data)
    case FlushNow =>
      l.(enc := Flush(sender, l.enc))
    case Transmit(max) =>
      var k := Min(max, |l.enc.processed|);
      l.(wire := l.wire + l.enc.processed[..k], enc := l.enc.(processed := l.enc.processed[k..]))
    case Deliver(max) =>
      var k := Min(max, |l.wire|);
      l.(dec := Receive(receiver, l.dec, l.wire[..k]),
         ok := l.ok && Accepts(receiver, l.dec, l.wire[..k]),
         delivered := l.delivered + l.wire[..k],
         wire := l.wire[k..])
    case PullPlain(max) =>
      var k := Min(max, |l.dec.processed|);
      l.(pulled := l.pulled + l.dec.processed[..k], dec := l.dec.(processed := l.dec.processed[k..]))
  }

  function Run(sender: Suite, receiver: Suite, l: Link, actions: seq<Action>): Link
    decreases |actions|
  {
    if actions == [] then l else
      Run(sender, receiver, Step(sender, receiver, l, actions[0]), actions[1..])
  }

  // All ciphertext ever made.
  function Ciphertext(l: Link): seq<Octet> {
    l.delivered + (l.wire + l.enc.processed)
  }

  // The sending side: the ciphertext so far is a whole number of non-empty frames that hold
  // all plaintext but the pending part.
  ghost predicate SenderInv(suite: Suite, n: Nonce, l: Link) {
    var r := Parse(suite, n, Ciphertext(l));
    && r.ok && r.residue == [] && r.nonce == l.enc.nonce && [] !in r.messages
    && l.pushed == Concat(r.messages) + l.enc.pending
  }

  // The receiving side: it stands where a single parse of the delivered bytes would.
  ghost predicate ReceiverInv(suite: Suite, n: Nonce, l: Link) {
    var r := Parse(suite, n, l.delivered);
    && l.dec.unprocessed == r.residue && l.dec.nonce == r.nonce && l.ok == r.ok
    && l.pulled + l.dec.processed == Concat(r.messages)
  }

  ghost predicate Inv(suite: Suite, n: Nonce, l: Link) {
    SenderInv(suite, n, l) && ReceiverInv(suite, n, l)
  }

  lemma {:induction false} InitialInv(suite: Suite, n: Nonce)
    ensures Inv(suite, n, Initial(n, n))
  {
    assert Decode(suite, n, []).Incomplete?;
  }

  lemma {:induction false} EmitKeepsSender(suite: Suite, n: Nonce, l: Link, l': Link, ms: seq<Message>)
    requires SenderInv(suite, n, l)
    requires l'.enc == Emit(suite, l.enc, ms).(pending := l'.enc.pending)
    requires l'.wire == l.wire && l'.delivered == l.delivered
    requires [] !in ms
    requires l'.pushed == Concat(Parse(suite, n, Ciphertext(l)).messages) + (Concat(ms) + l'.enc.pending)
    ensures SenderInv(suite, n, l')
  {
    hide Parse, Print, AdvanceBy, Concat;
    var c, r := Ciphertext(l), Parse(suite, n, Ciphertext(l));
    var p := Print(suite, l.enc.nonce, ms);
    assert Ciphertext(l') == c + p by {
      assert l.delivered + (l.wire + (l.enc.processed + p)) == (l.delivered + (l.wire + l.enc.processed)) + p;
    }
    ParseThenPrint(suite, n, c, ms);
    ConcatAppend(r.messages, ms);
    assert (Concat(r.messages) + Concat(ms)) + l'.enc.pending
        == Concat(r.messages) + (Concat(ms) + l'.enc.pending);
  }

  lemma {:induction false} PushPartialKeepsSender(suite: Suite, n: Nonce, l: Link, data: seq<Octet>)
    requires SenderInv(suite, n, l)
    ensures SenderInv(suite, n, Step(suite, suite, l, PushPart(data)))
  {
    hide Parse, Split, Concat, Print, AdvanceBy;
    var c := Split(l.enc.pending + data);
    SplitConcat(l.enc.pending + data);
    SplitSizes(l.enc.pending + data);
    var ms := Parse(suite, n, Ciphertext(l)).messages;
    assert (Concat(ms) + l.enc.pending) + data == Concat(ms) + (l.enc.pending + data);
    EmitKeepsSender(suite, n, l, Step(suite, suite, l, PushPart(data)), c.full);
  }

  lemma {:induction false} FlushKeepsSender(suite: Suite, n: Nonce, l: Link)
    requires SenderInv(suite, n, l)
    ensures SenderInv(suite, n, Step(suite, suite, l, FlushNow))
  {
    hide Parse;
    if l.enc.pending != [] {
      assert Concat([l.enc.pending]) == l.enc.pending == l.enc.pending + [];
      EmitKeepsSender(suite, n, l, Step(suite, suite, l, FlushNow), [l.enc.pending]);
    }
  }

  lemma {:induction false} DeliverKeepsReceiver(suite: Suite, n: Nonce, l: Link, max: nat)
    requires Inv(suite, n, l)
    ensures ReceiverInv(suite, n, Step(suite, suite, l, Deliver(max)))
  {
    hide Parse;
    var k := Min(max, |l.wire|);
    var r := Parse(suite, n, l.delivered);
    ParseAppend(suite, n, l.delivered, l.wire[..k]);
    var q := Parse(suite, r.nonce, r.residue + l.wire[..k]);
    ConcatAppend(r.messages, q.messages);
    assert l.pulled + (l.dec.processed + Concat(q.messages))
        == (l.pulled + l.dec.processed) + Concat(q.messages);
  }

  // Moving ciphertext onto the wire changes neither end.
  lemma {:induction false} TransmitKeeps(suite: Suite, n: Nonce, l: Link, max: nat)
    requires Inv(suite, n, l)
    ensures Inv(suite, n, Step(suite, suite, l, Transmit(max)))
  {
    hide Parse;
    var l', k := Step(suite, suite, l, Transmit(max)), Min(max, |l.enc.processed|);
    assert l.enc.processed == l.enc.processed[..k] + l.enc.processed[k..];
    assert l'.wire + l'.enc.processed == l.wire + l.enc.processed;
  }

  lemma Regroup(a: seq<Octet>, b: seq<Octet>, k: nat, c: seq<Octet>)
    requires k <= |b|
    ensures a + (b + c) == (a + b[..k]) + (b[k..] + c)
  {
    assert b == b[..k] + b[k..];
  }

  lemma {:induction false} DeliverKeeps(suite: Suite, n: Nonce, l: Link, max: nat)
    requires Inv(suite, n, l)
    ensures Inv(suite, n, Step(suite, suite, l, Deliver(max)))
  {
    hide Parse, Receive, Accepts, ReceiverInv;
    var k := Min(max, |l.wire|);
    Regroup(l.delivered, l.wire, k, l.enc.processed);
    DeliverKeepsReceiver(suite, n, l, max);
  }

  lemma {:induction false} PullKeeps(suite: Suite, n: Nonce, l: Link, max: nat)
    requires Inv(suite, n, l)
    ensures Inv(suite, n, Step(suite, suite, l, PullPlain(max)))
  {
    hide Parse;
    var l', k := Step(suite, suite, l, PullPlain(max)), Min(max, |l.dec.processed|);
    assert l.dec.processed == l.dec.processed[..k] + l.dec.processed[k..];
    assert l'.pulled + l'.dec.processed == l.pulled + l.dec.processed;
  }

  lemma {:induction false} StepInv(suite: Suite, n: Nonce, l: Link, a: Action)
    requires Inv(suite, n, l)
    ensures Inv(suite, n, Step(suite, suite, l, a))
  {
    hide Parse, PushPartial, Flush;
    match a
    case PushPart(data) =>
      PushPartialKeepsSender(suite, n, l, data);
    case PushAll(data) =>
      PushPartialKeepsSender(suite, n, l, data);
      FlushKeepsSender(suite, n, Step(suite, suite, l, PushPart(data)));
    case FlushNow =>
      FlushKeepsSender(suite, n, l);
    case Transmit(max) =>
      TransmitKeeps(suite, n, l, max);
    case Deliver(max) =>
      DeliverKeeps(suite, n, l, max);
    case PullPlain(max) =>
      PullKeeps(suite, n, l, max);
  }

  lemma {:induction false} RunInv(suite: Suite, n: Nonce, l: Link, actions: seq<Action>)
    requires Inv(suite, n, l)
    ensures Inv(suite, n, Run(suite, suite, l, actions))
    decreases |actions|
  {
    if actions != [] {
      StepInv(suite, n, l, actions[0]);
      RunInv(suite, n, Step(suite, suite, l, actions[0]), actions[1..]);
    }
  }

  predicate Drained(l: Link) {
    l.enc.pending == [] && l.enc.processed == [] && l.wire == [] && l.dec.processed == []
  }

  // End to end, for every run: what has been pulled is a prefix of what has been pushed, no
  // push was ever rejected, and once everything is flushed, transferred and pulled, the two
  // are equal.
  lemma Fifo(suite: Suite, n: Nonce, actions: seq<Action>)
    ensures var l := Run(suite, suite, Initial(n, n), actions);
            && l.ok
            && l.pulled <= l.pushed
            && (Drained(l) ==> l.pulled == l.pushed)
  {
    InitialInv(suite, n);
    RunInv(suite, n, Initial(n, n), actions);
    FifoFromInv(suite, n, Run(suite, suite, Initial(n, n), actions));
  }

  lemma {:induction false} FifoFromInv(suite: Suite, n: Nonce, l: Link)
    requires Inv(suite, n, l)
    ensures l.ok && l.pulled <= l.pushed && (Drained(l) ==> l.pulled == l.pushed)
  {
    hide Parse;
    ParsePrefix(suite, n, l.delivered, l.wire + l.enc.processed);
    var decoded := Concat(Parse(suite, n, l.delivered).messages);
    assert l.pulled <= decoded;
    if Drained(l) {
      assert Ciphertext(l) == l.delivered;
      assert l.pulled == l.pulled + l.dec.processed;
    }
  }

  // Flushes, and moves everything there is from each place to the next.
  function Drain(suite: Suite, l: Link): Link {
    var f := Step(suite, suite, l, FlushNow);
    var t := Step(suite, suite, f, Transmit(|f.enc.processed|));
    var d := Step(suite, suite, t, Deliver(|t.wire|));
    Step(suite, suite, d, PullPlain(|d.dec.processed|))
  }

  // From any reachable state, draining delivers everything.
  lemma {:induction false} DrainingDelivers(suite: Suite, n: Nonce, actions: seq<Action>)
    ensures var l := Run(suite, suite, Initial(n, n), actions);
            Drained(Drain(suite, l)) && Drain(suite, l).pulled == l.pushed
  {
    hide Parse, Drain;
    InitialInv(suite, n);
    RunInv(suite, n, Initial(n, n), actions);
    DrainFromInv(suite, n, Run(suite, suite, Initial(n, n), actions));
  }

  lemma {:induction false} DrainFromInv(suite: Suite, n: Nonce, l: Link)
    requires Inv(suite, n, l)
    ensures Drained(Drain(suite, l)) && Drain(suite, l).pulled == l.pushed
  {
    hide Parse;
    StepInv(suite, n, l, FlushNow);
    var f := Step(suite, suite, l, FlushNow);
    StepInv(suite, n, f, Transmit(|f.enc.processed|));
    var t := Step(suite, suite, f, Transmit(|f.enc.processed|));
    StepInv(suite, n, t, Deliver(|t.wire|));
    var d := Step(suite, suite, t, Deliver(|t.wire|));
    StepInv(suite, n, d, PullPlain(|d.dec.processed|));
    FifoFromInv(suite, n, Drain(suite, l));
  }

  // The messages put on the wire so far, and those decoded at the other end.
  ghost function Sent(suite: Suite, n: Nonce, l: Link): seq<Message> {
    Parse(suite, n, Ciphertext(l)).messages
  }

  ghost function Received(suite: Suite, n: Nonce, l: Link): seq<Message> {
    Parse(suite, n, l.delivered).messages
  }

  // Nonce discipline: after any run, each end's nonce is the first one plus the number of
  // messages it has handled, times one or two, modulo 2^192.
  lemma {:induction false} NonceDiscipline(suite: Suite, n: Nonce, actions: seq<Action>, l: Link)
    requires l == Run(suite, suite, Initial(n, n), actions)
    ensures Ciphertext(l) == Print(suite, n, Sent(suite, n, l))
    ensures Received(suite, n, l) <= Sent(suite, n, l)
    ensures l.enc.nonce == NonceAt(n, Uses(suite.protocol, |Sent(suite, n, l)|))
    ensures l.dec.nonce == NonceAt(n, Uses(suite.protocol, |Received(suite, n, l)|))
  {
    hide Parse, Print, NonceAt, Step;
    InitialInv(suite, n);
    RunInv(suite, n, Initial(n, n), actions);
    ParseStops(suite, n, Ciphertext(l));
    ParseStops(suite, n, l.delivered);
    ParseReprints(suite, n, Ciphertext(l));
    ParsePrefix(suite, n, l.delivered, l.wire + l.enc.processed);
    AdvanceByCounts(suite.protocol, n, |Sent(suite, n, l)|);
    AdvanceByCounts(suite.protocol, n, |Received(suite, n, l)|);
  }

  // -------------------------------------------------------------------------------------
  // A decryption stream on its own, fed anything at all

  datatype Use = Feed(data: seq<Octet>) | Take(max: nat)

  // A decryption stream, the plaintext taken from it, and the verdicts of its pushes.
  datatype Reader = Reader(dec: DecState, taken: seq<Octet>, verdicts: seq<bool>)

  function Apply(suite: Suite, r: Reader, u: Use): Reader {
    match u
    case Feed(data) =>
      r.(dec := Receive(suite, r.dec, data), verdicts := r.verdicts + [Accepts(suite, r.dec, data)])
    case Take(max) =>
      var k := Min(max, |r.dec.processed|);
      r.(dec := r.dec.(processed := r.dec.processed[k..]), taken := r.taken + r.dec.processed[..k])
  }

  function ApplyAll(suite: Suite, r: Reader, uses: seq<Use>): Reader
    decreases |uses|
  {
    if uses == [] then r else ApplyAll(suite, Apply(suite, r, uses[0]), uses[1..])
  }

  lemma {:induction false} CorruptionKept(suite: Suite, r: Reader, u: Use)
    requires Settled(suite, r.dec) && !Sound(suite, r.dec)
    ensures var q := Apply(suite, r, u);
            && q.dec.nonce == r.dec.nonce
            && q.taken + q.dec.processed == r.taken + r.dec.processed
            && (u.Feed? ==> q.verdicts == r.verdicts + [false])
            && (u.Take? ==> q.verdicts == r.verdicts)
            && Settled(suite, q.dec) && !Sound(suite, q.dec)
  {
    match u
    case Feed(data) =>
      DecodeStable(suite, r.dec.nonce, r.dec.unprocessed, data);
      assert Parse(suite, r.dec.nonce, r.dec.unprocessed + data).messages == [];
      assert r.dec.processed + [] == r.dec.processed;
    case Take(max) =>
      var k := Min(max, |r.dec.processed|);
      assert r.dec.processed == r.dec.processed[..k] + r.dec.processed[k..];
  }

  // Corruption is permanent and loses nothing: after a push that returned false, every later
  // push returns false, the nonce stays, and the plaintext (taken or still available) stays
  // exactly what had been decoded before the bad frame.
  lemma {:induction false} CorruptionIsPermanent(suite: Suite, r: Reader, uses: seq<Use>)
    requires Settled(suite, r.dec) && !Sound(suite, r.dec)
    ensures var q := ApplyAll(suite, r, uses);
            && q.dec.nonce == r.dec.nonce
            && q.taken + q.dec.processed == r.taken + r.dec.processed
            && r.verdicts <= q.verdicts
            && (forall i | |r.verdicts| <= i < |q.verdicts| :: !q.verdicts[i])
            && Settled(suite, q.dec) && !Sound(suite, q.dec)
    decreases |uses|
  {
    hide Apply, Settled, Sound;
    if uses != [] {
      var q := Apply(suite, r, uses[0]);
      CorruptionKept(suite, r, uses[0]);
      CorruptionIsPermanent(suite, q, uses[1..]);
    }
  }

  // Verdicts only ever turn from true to false, and the last one is read off the state.
  ghost predicate Consistent(suite: Suite, r: Reader) {
    && Settled(suite, r.dec)
    && (Sound(suite, r.dec) <==> false !in r.verdicts)
    && (forall i, j | 0 <= i < j < |r.verdicts| :: !r.verdicts[i] ==> !r.verdicts[j])
  }

  lemma {:induction false} ApplyConsistent(suite: Suite, r: Reader, u: Use)
    requires Consistent(suite, r)
    ensures Consistent(suite, Apply(suite, r, u))
  {
    hide Decode, Parse;
    var q := Apply(suite, r, u);
    if !Sound(suite, r.dec) {
      CorruptionKept(suite, r, u);
    } else if u.Feed? {
      ReceiveSettles(suite, r.dec, u.data);
    }
    assert u.Feed? ==> q.verdicts[..|r.verdicts|] == r.verdicts;
  }

  lemma {:induction false} ApplyAllConsistent(suite: Suite, r: Reader, uses: seq<Use>)
    requires Consistent(suite, r)
    ensures Consistent(suite, ApplyAll(suite, r, uses))
    decreases |uses|
  {
    hide Apply, Consistent;
    if uses != [] {
      ApplyConsistent(suite, r, uses[0]);
      ApplyAllConsistent(suite, Apply(suite, r, uses[0]), uses[1..]);
    }
  }

  lemma {:induction false} ApplyAllAppend(suite: Suite, r: Reader, a: seq<Use>, b: seq<Use>)
    ensures ApplyAll(suite, r, a + b) == ApplyAll(suite, ApplyAll(suite, r, a), b)
    decreases |a|
  {
    hide Apply;
    if a == [] {
      assert a + b == b;
    } else {
      assert (a + b)[1..] == a[1..] + b;
      ApplyAllAppend(suite, Apply(suite, r, a[0]), a[1..], b);
    }
  }

  function NewReader(n: Nonce): Reader {
    Reader(DecState([], [], n), [], [])
  }

  // From a new decryption stream, however it is used before and after: once any push has
  // returned false, every later push does, and neither the nonce nor the plaintext moves.
  lemma {:induction false} RejectionIsFinal(suite: Suite, n: Nonce, before: seq<Use>, after: seq<Use>)
    ensures var r, q := ApplyAll(suite, NewReader(n), before), ApplyAll(suite, NewReader(n), before + after);
            && (forall i, j | 0 <= i < j < |q.verdicts| && !q.verdicts[i] :: !q.verdicts[j])
            && (false in r.verdicts ==>
                  && r.verdicts <= q.verdicts
                  && (forall j | |r.verdicts| <= j < |q.verdicts| :: !q.verdicts[j])
                  && q.dec.nonce == r.dec.nonce
                  && q.taken + q.dec.processed == r.taken + r.dec.processed)
  {
    hide Apply, Decode, ApplyAll;
    assert Decode(suite, n, []).Incomplete? by {
      DecodeNothing(suite, n);
    }
    ApplyAllConsistent(suite, NewReader(n), before);
    ApplyAllConsistent(suite, NewReader(n), before + after);
    ApplyAllAppend(suite, NewReader(n), before, after);
    var r := ApplyAll(suite, NewReader(n), before);
    if false in r.verdicts {
      CorruptionIsPermanent(suite, r, after);
    }
  }
}
