// Many messages on the wire: how a byte stream is cut into messages, the ciphertext of a list
// of messages, and the recursive parser that reads it back.

module FrameStreams {
  import opened Octets
  import opened Ciphers
  import opened Frames

  type Message = m: seq<Octet> | |m| <= MAX_MESSAGE_SIZE

  function Concat(ms: seq<Message>): seq<Octet> {
    if ms == [] then [] else ms[0] + Concat(ms[1..])
  }

  lemma {:induction false} ConcatAppend(a: seq<Message>, b: seq<Message>)
    ensures Concat(a + b) == Concat(a) + Concat(b)
  {
    if a == [] {
      assert a + b == b;
    } else {
      assert (a + b)[1..] == a[1..] + b;
      ConcatAppend(a[1..], b);
    }
  }

  // The nonce after k messages.
  function AdvanceBy(p: Protocol, n: Nonce, k: nat): Nonce
    decreases k
  {
    if k == 0 then n else AdvanceBy(p, Advance(p, n), k - 1)
  }

  lemma {:induction false} AdvanceByAdd(p: Protocol, n: Nonce, j: nat, k: nat)
    ensures AdvanceBy(p, n, j + k) == AdvanceBy(p, AdvanceBy(p, n, j), k)
    decreases j
  {
    if j > 0 {
      AdvanceByAdd(p, Advance(p, n), j - 1, k);
    }
  }

  // The ciphertext of a list of messages, starting at nonce n.
  function Print(suite: Suite, n: Nonce, ms: seq<Message>): seq<Octet>
    decreases |ms|
  {
    if ms == [] then [] else
      Frame(suite, n, ms[0]) + Print(suite, Advance(suite.protocol, n), ms[1..])
  }

  lemma {:induction false} PrintAppend(suite: Suite, n: Nonce, a: seq<Message>, b: seq<Message>)
    ensures Print(suite, n, a + b)
              == Print(suite, n, a) + Print(suite, AdvanceBy(suite.protocol, n, |a|), b)
    decreases |a|
  {
    hide Frame;
    if a == [] {
      assert a + b == b;
    } else {
      assert (a + b)[1..] == a[1..] + b;
      PrintAppend(suite, Advance(suite.protocol, n), a[1..], b);
    }
  }

  lemma PrintCons(suite: Suite, n: Nonce, m: Message, ms: seq<Message>)
    ensures Print(suite, n, [m] + ms)
              == Frame(suite, n, m) + Print(suite, Advance(suite.protocol, n), ms)
  {
    assert ([m] + ms)[1..] == ms;
  }

  // Each message costs its overhead and nothing else.
  lemma {:induction false} PrintSize(suite: Suite, n: Nonce, ms: seq<Message>)
    ensures |Print(suite, n, ms)| == |Concat(ms)| + |ms| * Overhead(suite.protocol)
    decreases |ms|
  {
    hide Frame;
    if ms != [] {
      PrintSize(suite, Advance(suite.protocol, n), ms[1..]);
      var k, o := |ms|, Overhead(suite.protocol);
      assert (k - 1) * o + o == k * o;
    }
  }

  // -------------------------------------------------------------------------------------
  // Parsing

  datatype Parsed = Parsed(messages: seq<Message>, residue: seq<Octet>, nonce: Nonce, ok: bool)

  // Reads frames until the input runs out or a frame is rejected.
  function Parse(suite: Suite, n: Nonce, input: seq<Octet>): Parsed
    decreases |input|
  {
    match Decode(suite, n, input)
    case Incomplete => Parsed([], input, n, true)
    case Corrupt => Parsed([], input, n, false)
    case Message(m, size) =>
      Prepend([m], Parse(suite, Advance(suite.protocol, n), input[size..]))
  }

  function Prepend(ms: seq<Message>, r: Parsed): Parsed {
    r.(messages := ms + r.messages)
  }

  lemma PrependAssoc(a: seq<Message>, b: seq<Message>, r: Parsed)
    ensures Prepend(a, Prepend(b, r)) == Prepend(a + b, r)
  {
    assert a + (b + r.messages) == (a + b) + r.messages;
  }

  // Parsing resumes: reading a, then what it left over followed by b, is reading a + b. The
  // split may fall anywhere, and a rejection is never forgotten.
  lemma {:induction false} ParseAppend(suite: Suite, n: Nonce, a: seq<Octet>, b: seq<Octet>)
    ensures var r := Parse(suite, n, a);
            var s := Parse(suite, r.nonce, r.residue + b);
            && Parse(suite, n, a + b) == Prepend(r.messages, s)
            && (!r.ok ==> s == Parsed([], r.residue + b, r.nonce, false))
    decreases |a|
  {
    var d := Decode(suite, n, a);
    if !d.Incomplete? {
      DecodeStable(suite, n, a, b);
      if d.Message? {
        var n' := Advance(suite.protocol, n);
        assert (a + b)[d.size..] == a[d.size..] + b;
        ParseAppend(suite, n', a[d.size..], b);
        var r' := Parse(suite, n', a[d.size..]);
        PrependAssoc([d.plaintext], r'.messages, Parse(suite, r'.nonce, r'.residue + b));
      }
    }
  }

  lemma DecodeNothing(suite: Suite, n: Nonce)
    ensures Decode(suite, n, []) == Incomplete
  {
  }

  // Parsing takes the first frame off.
  lemma ParseFirst(suite: Suite, n: Nonce, m: Message, rest: seq<Octet>)
    ensures Parse(suite, n, Frame(suite, n, m) + rest)
              == Prepend([m], Parse(suite, Advance(suite.protocol, n), rest))
  {
    hide Frame, Decode;
    DecodeFrame(suite, n, m, rest);
    assert (Frame(suite, n, m) + rest)[EncryptedSize(suite.protocol, |m|)..] == rest;
  }

  // Round trip: parsing what was printed gives the messages back, with nothing left over.
  lemma {:induction false} ParsePrint(suite: Suite, n: Nonce, ms: seq<Message>)
    ensures Parse(suite, n, Print(suite, n, ms))
              == Parsed(ms, [], AdvanceBy(suite.protocol, n, |ms|), true)
    decreases |ms|
  {
    hide Frame, Decode;
    if ms == [] {
      DecodeNothing(suite, n);
    } else {
      var n' := Advance(suite.protocol, n);
      ParseFirst(suite, n, ms[0], Print(suite, n', ms[1..]));
      ParsePrint(suite, n', ms[1..]);
      assert [ms[0]] + ms[1..] == ms;
    }
  }

  // Printing more after a fully parsed stream adds exactly the new messages.
  lemma ParseThenPrint(suite: Suite, n: Nonce, input: seq<Octet>, ms: seq<Message>)
    requires Parse(suite, n, input).ok && Parse(suite, n, input).residue == []
    ensures var r := Parse(suite, n, input);
            Parse(suite, n, input + Print(suite, r.nonce, ms))
              == Parsed(r.messages + ms, [], AdvanceBy(suite.protocol, r.nonce, |ms|), true)
  {
    var r := Parse(suite, n, input);
    var printed := Print(suite, r.nonce, ms);
    ParseAppend(suite, n, input, printed);
    assert [] + printed == printed;
    ParsePrint(suite, r.nonce, ms);
  }

  // A prefix of a good stream is good, and decodes to a prefix of its messages.
  lemma ParsePrefix(suite: Suite, n: Nonce, a: seq<Octet>, b: seq<Octet>)
    requires Parse(suite, n, a + b).ok
    ensures Parse(suite, n, a).ok
    ensures Parse(suite, n, a).messages <= Parse(suite, n, a + b).messages
    ensures Concat(Parse(suite, n, a).messages) <= Concat(Parse(suite, n, a + b).messages)
  {
    ParseAppend(suite, n, a, b);
    var r := Parse(suite, n, a);
    var s := Parse(suite, r.nonce, r.residue + b);
    ConcatAppend(r.messages, s.messages);
  }

  // The parser's nonce counts its messages, and what it leaves holds no complete frame.
  lemma {:induction false} ParseStops(suite: Suite, n: Nonce, input: seq<Octet>)
    ensures var r := Parse(suite, n, input);
            && r.nonce == AdvanceBy(suite.protocol, n, |r.messages|)
            && Decode(suite, r.nonce, r.residue) == (if r.ok then Incomplete else Corrupt)
    decreases |input|
  {
    hide Decode;
    var d := Decode(suite, n, input);
    if d.Message? {
      ParseStops(suite, Advance(suite.protocol, n), input[d.size..]);
    }
  }

  lemma JoinParts(s: seq<Octet>, k: nat, a: seq<Octet>, b: seq<Octet>, c: seq<Octet>)
    requires k <= |s| && s[..k] == a && s[k..] == b + c
    ensures s == (a + b) + c
  {
    assert s == s[..k] + s[k..];
  }

  // Where message i of a stream begins.
  function Offset(p: Protocol, ms: seq<Message>, i: nat): nat
    requires i <= |ms|
    decreases i
  {
    if i == 0 then 0 else EncryptedSize(p, |ms[0]|) + Offset(p, ms[1..], i - 1)
  }

  lemma SliceOfTail(s: seq<Octet>, k: nat, i: nat, j: nat)
    requires k <= |s| && i <= j <= |s| - k
    ensures s[k..][i..j] == s[k + i..k + j]
  {
  }

  lemma ParseUnfolds(suite: Suite, n: Nonce, input: seq<Octet>)
    ensures var d, r := Decode(suite, n, input), Parse(suite, n, input);
            if d.Message? then
              var q := Parse(suite, Advance(suite.protocol, n), input[d.size..]);
              && |r.messages| == 1 + |q.messages| && r.messages[0] == d.plaintext && r.messages[1..] == q.messages
              && r.residue == q.residue
            else
              r.messages == [] && r.residue == input
  {
    hide Decode;
  }

  lemma EmptyFrameLength(suite: Suite, n: Nonce, input: seq<Octet>)
    requires suite.protocol.Compact?
    requires Decode(suite, n, input).Message? && Decode(suite, n, input).plaintext == []
    ensures input[0..2] == [0, 0]
  {
    assert ReadUint16(input) == 0;
  }

  lemma {:induction false} FirstExact(suite: Suite, n: Nonce, input: seq<Octet>)
    requires Decode(suite, n, input).Message?
    ensures var d := Decode(suite, n, input);
            if suite.protocol.BoxStream? || d.plaintext != [] then
              input[0..d.size] == Frame(suite, n, d.plaintext)
            else
              input[0..2] == [0, 0]
  {
    var d := Decode(suite, n, input);
    if suite.protocol.BoxStream? || d.plaintext != [] {
      DecodeExact(suite, n, input);
      assert input[0..d.size] == input[..d.size];
    } else {
      EmptyFrameLength(suite, n, input);
    }
  }

  // Whatever the input, each message parsed from it was read from its own frame, under its own
  // nonce, at its own place. Of an empty Compact message only the length is certain.
  lemma {:induction false} ParseExact(suite: Suite, n: Nonce, input: seq<Octet>, i: nat)
    requires i < |Parse(suite, n, input).messages|
    ensures var ms := Parse(suite, n, input).messages;
            var at := Offset(suite.protocol, ms, i);
            var end := at + EncryptedSize(suite.protocol, |ms[i]|);
            && end == Offset(suite.protocol, ms, i + 1) <= |input|
            && if suite.protocol.BoxStream? || ms[i] != [] then
                 input[at..end] == Frame(suite, AdvanceBy(suite.protocol, n, i), ms[i])
               else
                 input[at..at + 2] == [0, 0]
    decreases i
  {
    hide Frame, Parse, Decode;
    ParseUnfolds(suite, n, input);
    var d := Decode(suite, n, input);
    var p, ms := suite.protocol, Parse(suite, n, input).messages;
    if i == 0 {
      assert Offset(p, ms, 1) == EncryptedSize(p, |ms[0]|) + Offset(p, ms[1..], 0);
      FirstExact(suite, n, input);
    } else {
      var tail, n' := input[d.size..], Advance(p, n);
      ParseExact(suite, n', tail, i - 1);
      var at := Offset(p, ms[1..], i - 1);
      SliceOfTail(input, d.size, at, at + EncryptedSize(p, |ms[i]|));
      SliceOfTail(input, d.size, at, at + 2);
    }
  }

  // What is left over begins where the last message ends.
  lemma {:induction false} ParseLeaves(suite: Suite, n: Nonce, input: seq<Octet>)
    ensures var r := Parse(suite, n, input);
            var end := Offset(suite.protocol, r.messages, |r.messages|);
            end <= |input| && r.residue == input[end..]
    decreases |input|
  {
    hide Parse, Decode;
    ParseUnfolds(suite, n, input);
    var d := Decode(suite, n, input);
    if d.Message? {
      ParseLeaves(suite, Advance(suite.protocol, n), input[d.size..]);
    }
  }

  // So the input is the printed form of its messages, so long as none is an empty Compact one.
  lemma {:induction false} ParseReprints(suite: Suite, n: Nonce, input: seq<Octet>)
    requires suite.protocol.BoxStream? || [] !in Parse(suite, n, input).messages
    ensures var r := Parse(suite, n, input);
            input == Print(suite, n, r.messages) + r.residue
    decreases |input|
  {
    var d := Decode(suite, n, input);
    if d.Message? {
      var n' := Advance(suite.protocol, n);
      var r' := Parse(suite, n', input[d.size..]);
      assert forall m :: m in r'.messages ==> m in [d.plaintext] + r'.messages;
      ParseReprints(suite, n', input[d.size..]);
      DecodeExact(suite, n, input);
      PrintCons(suite, n, d.plaintext, r'.messages);
      JoinParts(input, d.size, Frame(suite, n, d.plaintext), Print(suite, n', r'.messages), r'.residue);
    }
  }

  // -------------------------------------------------------------------------------------
  // Cutting plaintext into messages

  datatype Chunks = Chunks(full: seq<Message>, rest: Message)

  // Full-size messages are cut off for as long as there is more plaintext than one message holds.
  function Split(text: seq<Octet>): (c: Chunks)
    ensures text != [] ==> c.rest != []
  {
    if |text| <= MAX_MESSAGE_SIZE then Chunks([], text) else
      var c := Split(text[MAX_MESSAGE_SIZE..]);
      c.(full := [text[..MAX_MESSAGE_SIZE]] + c.full)
  }

  // Cutting loses nothing.
  lemma {:induction false} SplitConcat(text: seq<Octet>)
    ensures text == Concat(Split(text).full) + Split(text).rest
  {
    if |text| > MAX_MESSAGE_SIZE {
      var c := Split(text[MAX_MESSAGE_SIZE..]);
      SplitConcat(text[MAX_MESSAGE_SIZE..]);
      ConcatAppend([text[..MAX_MESSAGE_SIZE]], c.full);
      assert Concat([text[..MAX_MESSAGE_SIZE]]) == text[..MAX_MESSAGE_SIZE];
      assert text == text[..MAX_MESSAGE_SIZE] + text[MAX_MESSAGE_SIZE..];
    }
  }

  // Every message cut off is of the largest size.
  lemma {:induction false} SplitSizes(text: seq<Octet>)
    ensures forall m | m in Split(text).full :: |m| == 65535
    ensures |text| == |Split(text).full| * 65535 + |Split(text).rest|
  {
    if |text| > MAX_MESSAGE_SIZE {
      SplitSizes(text[MAX_MESSAGE_SIZE..]);
    }
  }

  // Where the text is handed over in two pieces, the cuts fall where they would have fallen.
  lemma {:induction false} SplitAppend(a: seq<Octet>, b: seq<Octet>)
    ensures var c := Split(a); var d := Split(c.rest + b);
            Split(a + b) == Chunks(c.full + d.full, d.rest)
    decreases |a|
  {
    if |a| <= MAX_MESSAGE_SIZE {
      assert [] + Split(a + b).full == Split(a + b).full;
    } else {
      assert (a + b)[MAX_MESSAGE_SIZE..] == a[MAX_MESSAGE_SIZE..] + b;
      assert (a + b)[..MAX_MESSAGE_SIZE] == a[..MAX_MESSAGE_SIZE];
      SplitAppend(a[MAX_MESSAGE_SIZE..], b);
      var c := Split(a[MAX_MESSAGE_SIZE..]);
      var d := Split(c.rest + b);
      assert [a[..MAX_MESSAGE_SIZE]] + (c.full + d.full) == ([a[..MAX_MESSAGE_SIZE]] + c.full) + d.full;
    }
  }
}
