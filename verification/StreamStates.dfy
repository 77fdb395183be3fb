// What the two byte-stream adapters hold, and what their operations do to it, stated on whole
// messages rather than on buffers.

module StreamStates {
  import opened Octets
  import opened Ciphers
  import opened Frames
  import opened FrameStreams

  // Ciphertext ready to be pulled, plaintext not yet encrypted, and the next nonce.
  datatype EncState = EncState(processed: seq<Octet>, pending: Message, nonce: Nonce)

  // Encrypts a list of messages onto the end of the ciphertext.
  function Emit(suite: Suite, s: EncState, ms: seq<Message>): EncState {
    s.(processed := s.processed + Print(suite, s.nonce, ms),
       nonce := AdvanceBy(suite.protocol, s.nonce, |ms|))
  }

  function PushPartial(suite: Suite, s: EncState, data: seq<Octet>): EncState {
    var c := Split(s.pending + data);
    Emit(suite, s, c.full).(pending := c.rest)
  }

  function Flush(suite: Suite, s: EncState): EncState {
    if s.pending == [] then s else Emit(suite, s, [s.pending]).(pending := [])
  }

  function Push(suite: Suite, s: EncState, data: seq<Octet>): EncState {
    Flush(suite, PushPartial(suite, s, data))
  }

  // Plaintext ready to be pulled, ciphertext not yet decrypted, and the next nonce.
  datatype DecState = DecState(processed: seq<Octet>, unprocessed: seq<Octet>, nonce: Nonce)

  function Receive(suite: Suite, s: DecState, data: seq<Octet>): DecState {
    Absorb(s.processed, Parse(suite, s.nonce, s.unprocessed + data))
  }

  function Absorb(processed: seq<Octet>, r: Parsed): DecState {
    DecState(processed + Concat(r.messages), r.residue, r.nonce)
  }

  // Does a push of this data find every frame sound?
  predicate Accepts(suite: Suite, s: DecState, data: seq<Octet>) {
    Parse(suite, s.nonce, s.unprocessed + data).ok
  }

  // -------------------------------------------------------------------------------------
  // Encryption

  lemma {:induction false} EmitAppend(suite: Suite, s: EncState, a: seq<Message>, b: seq<Message>)
    ensures Emit(suite, Emit(suite, s, a), b) == Emit(suite, s, a + b)
  {
    hide Print, AdvanceBy;
    PrintAppend(suite, s.nonce, a, b);
    AdvanceByAdd(suite.protocol, s.nonce, |a|, |b|);
    var x, y := Print(suite, s.nonce, a), Print(suite, AdvanceBy(suite.protocol, s.nonce, |a|), b);
    assert (s.processed + x) + y == s.processed + (x + y);
  }

  // How plaintext is handed over in pieces makes no difference to the ciphertext.
  lemma {:induction false} PushPartialAppend(suite: Suite, s: EncState, a: seq<Octet>, b: seq<Octet>)
    ensures PushPartial(suite, PushPartial(suite, s, a), b) == PushPartial(suite, s, a + b)
  {
    var c := Split(s.pending + a);
    SplitAppend(s.pending + a, b);
    assert (s.pending + a) + b == s.pending + (a + b);
    EmitAppend(suite, s, c.full, Split(c.rest + b).full);
    var t := Emit(suite, s, c.full);
    assert Emit(suite, t.(pending := c.rest), Split(c.rest + b).full).processed
        == Emit(suite, t, Split(c.rest + b).full).processed;
  }

  function PushPartials(suite: Suite, s: EncState, pieces: seq<seq<Octet>>): EncState
    decreases |pieces|
  {
    if pieces == [] then s else
      PushPartials(suite, PushPartial(suite, s, pieces[0]), pieces[1..])
  }

  function Joined(pieces: seq<seq<Octet>>): seq<Octet> {
    if pieces == [] then [] else pieces[0] + Joined(pieces[1..])
  }

  lemma {:induction false} PushPartialNothing(suite: Suite, s: EncState)
    ensures PushPartial(suite, s, []) == s
  {
    assert s.pending + [] == s.pending;
    assert Print(suite, s.nonce, []) == [];
  }

  // Only the concatenation of the pieces counts.
  lemma {:induction false} ChunkingIndependence(suite: Suite, s: EncState, pieces: seq<seq<Octet>>)
    ensures PushPartials(suite, s, pieces) == PushPartial(suite, s, Joined(pieces))
    decreases |pieces|
  {
    if pieces == [] {
      PushPartialNothing(suite, s);
    } else {
      ChunkingIndependence(suite, PushPartial(suite, s, pieces[0]), pieces[1..]);
      PushPartialAppend(suite, s, pieces[0], Joined(pieces[1..]));
    }
  }

  function CeilDiv(n: nat, d: nat): nat
    requires d > 0
  {
    (n + d - 1) / d
  }

  // Pushing n bytes and flushing makes ceil(n / 65535) frames, each of them non-empty, holding
  // exactly those bytes, and so exactly that many overheads of ciphertext.
  lemma {:induction false} PushExpansion(suite: Suite, s: EncState, data: seq<Octet>) returns (ms: seq<Message>)
    requires s.pending == []
    ensures Push(suite, s, data) == Emit(suite, s, ms)
    ensures Concat(ms) == data && [] !in ms
    ensures |ms| == CeilDiv(|data|, MAX_MESSAGE_SIZE)
    ensures |Push(suite, s, data).processed|
              == |s.processed| + |data| + CeilDiv(|data|, MAX_MESSAGE_SIZE) * Overhead(suite.protocol)
  {
    hide Print, Split, AdvanceBy;
    assert s.pending + data == data;
    var c := Split(data);
    SplitConcat(data);
    SplitSizes(data);
    if data == [] {
      ms := [];
      PushPartialNothing(suite, s);
    } else {
      ms := c.full + [c.rest];
      ConcatAppend(c.full, [c.rest]);
      assert Concat([c.rest]) == c.rest;
      EmitAppend(suite, s, c.full, [c.rest]);
      var t := Emit(suite, s, c.full);
      assert Emit(suite, t.(pending := c.rest), [c.rest]).processed
          == Emit(suite, t, [c.rest]).processed;
    }
    PrintSize(suite, s.nonce, ms);
  }

  // -------------------------------------------------------------------------------------
  // Decryption

  // How ciphertext is handed over in pieces makes no difference: not to the plaintext, the
  // residue or the nonce, and not to the verdict either.
  lemma {:induction false} ReceiveAppend(suite: Suite, s: DecState, a: seq<Octet>, b: seq<Octet>)
    ensures Receive(suite, Receive(suite, s, a), b) == Receive(suite, s, a + b)
    ensures Accepts(suite, Receive(suite, s, a), b) == Accepts(suite, s, a + b)
  {
    hide Parse, Concat;
    ParseAppend(suite, s.nonce, s.unprocessed + a, b);
    assert (s.unprocessed + a) + b == s.unprocessed + (a + b);
    var r := Parse(suite, s.nonce, s.unprocessed + a);
    var q := Parse(suite, r.nonce, r.residue + b);
    AbsorbTwice(s.processed, r.messages, q);
  }

  lemma {:induction false} AbsorbTwice(processed: seq<Octet>, ms: seq<Message>, r: Parsed)
    ensures Absorb(processed + Concat(ms), r) == Absorb(processed, Prepend(ms, r))
  {
    ConcatAppend(ms, r.messages);
    assert (processed + Concat(ms)) + Concat(r.messages) == processed + (Concat(ms) + Concat(r.messages));
  }

  function Receives(suite: Suite, s: DecState, pieces: seq<seq<Octet>>): DecState
    decreases |pieces|
  {
    if pieces == [] then s else Receives(suite, Receive(suite, s, pieces[0]), pieces[1..])
  }

  // The state between pushes: no complete frame waits undecrypted.
  ghost predicate Settled(suite: Suite, s: DecState) {
    !Decode(suite, s.nonce, s.unprocessed).Message?
  }

  // ... and if none is rejected, the next one is merely incomplete.
  ghost predicate Sound(suite: Suite, s: DecState) {
    Decode(suite, s.nonce, s.unprocessed).Incomplete?
  }

  // The verdict of a push can be read off the state it leaves.
  lemma {:induction false} ReceiveSettles(suite: Suite, s: DecState, data: seq<Octet>)
    ensures Settled(suite, Receive(suite, s, data))
    ensures Accepts(suite, s, data) <==> Sound(suite, Receive(suite, s, data))
  {
    ParseStops(suite, s.nonce, s.unprocessed + data);
  }

  lemma {:induction false} ReceiveNothing(suite: Suite, s: DecState)
    requires Settled(suite, s)
    ensures Receive(suite, s, []) == s
  {
    assert s.unprocessed + [] == s.unprocessed;
  }

  // Any fragmentation of a byte string is one push of the whole, the verdict included.
  lemma {:induction false} FragmentationIndependence(suite: Suite, s: DecState, pieces: seq<seq<Octet>>)
    requires Settled(suite, s)
    ensures Receives(suite, s, pieces) == Receive(suite, s, Joined(pieces))
    ensures Sound(suite, Receives(suite, s, pieces)) <==> Accepts(suite, s, Joined(pieces))
    decreases |pieces|
  {
    ReceiveSettles(suite, s, Joined(pieces));
    if pieces == [] {
      ReceiveNothing(suite, s);
    } else {
      ReceiveSettles(suite, s, pieces[0]);
      FragmentationIndependence(suite, Receive(suite, s, pieces[0]), pieces[1..]);
      ReceiveAppend(suite, s, pieces[0], Joined(pieces[1..]));
    }
  }

  // A push that holds a frame changed on the way is rejected. What came before it is decrypted,
  // it and what comes after it stay, and so does the nonce it failed under.
  lemma {:induction false} TamperingIsCaught(
    suite: Suite, n: Nonce, ms: seq<Message>, m: Message, t: seq<Octet>, rest: seq<Octet>)
    requires suite.protocol.BoxStream? || m != []
    requires var f := Frame(suite, AdvanceBy(suite.protocol, n, |ms|), m);
             |t| == |f| && t[..MinPeekSize(suite.protocol)] == f[..MinPeekSize(suite.protocol)]
    requires !Genuine(suite, AdvanceBy(suite.protocol, n, |ms|), t)
    ensures var s, data := DecState([], [], n), Print(suite, n, ms) + (t + rest);
            && !Accepts(suite, s, data)
            && Receive(suite, s, data) == DecState(Concat(ms), t + rest, AdvanceBy(suite.protocol, n, |ms|))
  {
    hide Print, Frame, Decode, Concat, AdvanceBy, Genuine;
    var n', printed, tail := AdvanceBy(suite.protocol, n, |ms|), Print(suite, n, ms), t + rest;
    ParsePrint(suite, n, ms);
    TamperedIsRejected(suite, n', m, t, rest);
    ParseAppend(suite, n, printed, tail);
    assert [] + tail == tail && [] + (printed + tail) == printed + tail;
    assert Parse(suite, n', tail) == Parsed([], tail, n', false);
    assert ms + [] == ms && [] + Concat(ms) == Concat(ms);
  }
}
