// One message on the wire, in either format: the frame an EncryptoBox prints and the parser
// a DecryptoBox applies to the front of its input.

module Frames {
  import opened Prelude
  import opened Octets
  import opened Ciphers

  datatype Protocol = Compact | BoxStream

  // What both ends of a stream share. The cipher is the one the protocol prescribes.
  datatype Suite = Suite(cipher: Cipher, protocol: Protocol, key: Key)

  // A BoxStream header holds a two-byte length and the body's MAC; on the wire it is boxed.
  const HEADER_SIZE: nat := 2 + MAC_SIZE
  const BOXED_HEADER_SIZE: nat := HEADER_SIZE + MAC_SIZE

  function Overhead(p: Protocol): nat {
    if p.BoxStream? then BOXED_HEADER_SIZE else 2 + MAC_SIZE
  }

  function EncryptedSize(p: Protocol, inputSize: nat): nat {
    inputSize + Overhead(p)
  }

  function MinPeekSize(p: Protocol): nat {
    if p.BoxStream? then BOXED_HEADER_SIZE else 2
  }

  // The nonce after one message.
  function Advance(p: Protocol, n: Nonce): Nonce {
    if p.BoxStream? then Next(Next(n)) else Next(n)
  }

  function Frame(suite: Suite, n: Nonce, m: seq<Octet>): (f: seq<Octet>)
    requires |m| <= MAX_MESSAGE_SIZE
    ensures |f| == EncryptedSize(suite.protocol, |m|)
  {
    match suite.protocol
    case Compact =>
      WriteUint16(|m|) + Box(suite.cipher, suite.key, n, m)
    case BoxStream =>
      // The body is sealed first, but its MAC travels inside the header that precedes it.
      var body := suite.cipher.seal(suite.key, n, m);
      Box(suite.cipher, suite.key, Next(n), WriteUint16(|m|) + body.mac) + body.ciphertext
  }

  datatype Status = Success | OutTooSmall | IncompleteInput | CorruptData

  datatype PeekResult = PeekResult(status: Status, decryptedSize: nat, encryptedSize: nat)

  // Opens the boxed header at the front of BoxStream input.
  function OpenHeader(suite: Suite, n: Nonce, input: seq<Octet>): (header: Option<seq<Octet>>)
    requires |input| >= BOXED_HEADER_SIZE
    ensures header.Some? ==> |header.value| == HEADER_SIZE
  {
    Unbox(suite.cipher, suite.key, Next(n), input[..BOXED_HEADER_SIZE])
  }

  function Peek(suite: Suite, n: Nonce, input: seq<Octet>): PeekResult {
    if |input| < MinPeekSize(suite.protocol) then
      PeekResult(IncompleteInput, 0, MinPeekSize(suite.protocol))
    else if suite.protocol.Compact? then
      var size := ReadUint16(input);
      PeekResult(Success, size, EncryptedSize(Compact, size))
    else
      match OpenHeader(suite, n, input)
      case None => PeekResult(CorruptData, 0, 0)
      case Some(header) =>
        var size := ReadUint16(header);
        PeekResult(Success, size, EncryptedSize(BoxStream, size))
  }

  datatype Decoded =
    | Incomplete
    | Corrupt
    | Message(plaintext: seq<Octet>, size: nat)

  // The plaintext of a complete frame, or None when it is rejected. A failing Compact unbox
  // is told apart only by the size of its (empty) output, so a frame that announces zero bytes
  // is never rejected.
  function OpenBody(suite: Suite, n: Nonce, input: seq<Octet>): (m: Option<seq<Octet>>)
    requires Peek(suite, n, input).status == Success
    requires |input| >= Peek(suite, n, input).encryptedSize
    ensures m.Some? ==> |m.value| == Peek(suite, n, input).decryptedSize
  {
    var size := Peek(suite, n, input).encryptedSize;
    if suite.protocol.Compact? then
      var unboxed := Unbox(suite.cipher, suite.key, n, input[2..size]);
      var output := if unboxed.Some? then unboxed.value else [];
      if |output| == ReadUint16(input) then Some(output) else None
    else
      var mac := OpenHeader(suite, n, input).value[2..];
      var body := Sealed(mac, input[BOXED_HEADER_SIZE..size]);
      assert suite.cipher.open(suite.key, n, body).Some? ==>
          suite.cipher.seal(suite.key, n, suite.cipher.open(suite.key, n, body).value) == body;
      suite.cipher.open(suite.key, n, body)
  }

  // Reads the frame at the front of the input, if it is all there.
  function Decode(suite: Suite, n: Nonce, input: seq<Octet>): (d: Decoded)
    ensures d.Message? ==> |d.plaintext| <= MAX_MESSAGE_SIZE
    ensures d.Message? ==> d.size == EncryptedSize(suite.protocol, |d.plaintext|) <= |input|
  {
    var peek := Peek(suite, n, input);
    if peek.status == CorruptData then Corrupt
    else if peek.status != Success || |input| < peek.encryptedSize then Incomplete
    else match OpenBody(suite, n, input)
      case None => Corrupt
      case Some(m) => Message(m, peek.encryptedSize)
  }

  // -------------------------------------------------------------------------------------
  // The parser looks only at the frame it reads.

  // Sizes, once known, do not change as more input arrives.
  lemma PeekStable(suite: Suite, n: Nonce, input: seq<Octet>, more: seq<Octet>)
    requires |input| >= MinPeekSize(suite.protocol)
    ensures Peek(suite, n, input + more) == Peek(suite, n, input)
    ensures Peek(suite, n, input).status == Success ==>
              Peek(suite, n, input).encryptedSize
                == EncryptedSize(suite.protocol, Peek(suite, n, input).decryptedSize)
  {
    if suite.protocol.BoxStream? {
      assert (input + more)[..BOXED_HEADER_SIZE] == input[..BOXED_HEADER_SIZE];
    }
  }

  // A verdict, once reached, does not change as more input arrives.
  lemma DecodeStable(suite: Suite, n: Nonce, input: seq<Octet>, more: seq<Octet>)
    requires !Decode(suite, n, input).Incomplete?
    ensures Decode(suite, n, input + more) == Decode(suite, n, input)
  {
    PeekStable(suite, n, input, more);
    var peek := Peek(suite, n, input);
    if peek.status == Success {
      var size := peek.encryptedSize;
      if suite.protocol.Compact? {
        assert (input + more)[2..size] == input[2..size];
      } else {
        assert (input + more)[..BOXED_HEADER_SIZE] == input[..BOXED_HEADER_SIZE];
        assert (input + more)[BOXED_HEADER_SIZE..size] == input[BOXED_HEADER_SIZE..size];
      }
    }
  }

  // -------------------------------------------------------------------------------------
  // Printing, then parsing.

  // Peeking at a frame's first bytes gives the message's two sizes.
  lemma PeekFrame(suite: Suite, n: Nonce, m: seq<Octet>)
    requires |m| <= MAX_MESSAGE_SIZE
    ensures Peek(suite, n, Frame(suite, n, m))
              == PeekResult(Success, |m|, EncryptedSize(suite.protocol, |m|))
  {
    if suite.protocol.BoxStream? {
      var body := suite.cipher.seal(suite.key, n, m);
      var header := WriteUint16(|m|) + body.mac;
      var boxed := Box(suite.cipher, suite.key, Next(n), header);
      assert (boxed + body.ciphertext)[..BOXED_HEADER_SIZE] == boxed;
      assert ReadUint16(header) == ReadUint16(WriteUint16(|m|));
    } else {
      var f := Frame(suite, n, m);
      assert ReadUint16(f) == ReadUint16(f[..2]);
    }
  }

  // Round trip: a frame decodes to its message, whatever follows it.
  lemma DecodeFrame(suite: Suite, n: Nonce, m: seq<Octet>, rest: seq<Octet>)
    requires |m| <= MAX_MESSAGE_SIZE
    ensures Decode(suite, n, Frame(suite, n, m) + rest)
              == Message(m, EncryptedSize(suite.protocol, |m|))
  {
    var f := Frame(suite, n, m);
    PeekFrame(suite, n, m);
    if suite.protocol.BoxStream? {
      var body := suite.cipher.seal(suite.key, n, m);
      var header := WriteUint16(|m|) + body.mac;
      assert f[..BOXED_HEADER_SIZE] == Box(suite.cipher, suite.key, Next(n), header);
      assert header[2..] == body.mac;
      assert f[BOXED_HEADER_SIZE..] == body.ciphertext == f[BOXED_HEADER_SIZE..|f|];
      assert OpenBody(suite, n, f) == Some(m);
    } else {
      assert f[2..|f|] == Box(suite.cipher, suite.key, n, m);
    }
    DecodeStable(suite, n, f, rest);
  }

  // Every proper prefix of a frame is incomplete.
  lemma DecodePrefix(suite: Suite, n: Nonce, m: seq<Octet>, k: nat)
    requires |m| <= MAX_MESSAGE_SIZE
    requires k < EncryptedSize(suite.protocol, |m|)
    ensures Decode(suite, n, Frame(suite, n, m)[..k]) == Incomplete
  {
    var f := Frame(suite, n, m);
    assert f == f[..k] + f[k..] && f + [] == f;
    DecodeFrame(suite, n, m, []);
    if !Decode(suite, n, f[..k]).Incomplete? {
      DecodeStable(suite, n, f[..k], f[k..]);
    }
  }

  // -------------------------------------------------------------------------------------
  // Parsing, then printing.

  // An accepted frame is the one its message prints, unless it is an empty Compact frame.
  lemma DecodeExact(suite: Suite, n: Nonce, input: seq<Octet>)
    requires Decode(suite, n, input).Message?
    requires suite.protocol.BoxStream? || Decode(suite, n, input).plaintext != []
    ensures var d := Decode(suite, n, input); input[..d.size] == Frame(suite, n, d.plaintext)
  {
    var d := Decode(suite, n, input);
    if suite.protocol.BoxStream? {
      var header := OpenHeader(suite, n, input).value;
      UnboxExact(suite.cipher, suite.key, Next(n), input[..BOXED_HEADER_SIZE]);
      Uint16Unique(header);
      assert header == header[..2] + header[2..];
      var body := Sealed(header[2..], input[BOXED_HEADER_SIZE..d.size]);
      assert suite.cipher.seal(suite.key, n, d.plaintext) == body;
      assert input[..d.size] == input[..BOXED_HEADER_SIZE] + input[BOXED_HEADER_SIZE..d.size];
    } else {
      UnboxExact(suite.cipher, suite.key, n, input[2..d.size]);
      Uint16Unique(input);
      assert input[..d.size] == input[..2] + input[2..d.size];
    }
  }

  // Does a length prefix guarantee that whatever is accepted under it was sealed?
  ghost predicate Authenticates(suite: Suite, n: Nonce, announced: nat) {
    forall input |
      Decode(suite, n, input).Message? && |Decode(suite, n, input).plaintext| == announced ::
      input[..Decode(suite, n, input).size] == Frame(suite, n, Decode(suite, n, input).plaintext)
  }

  // It does, unless the protocol is Compact and the announced length is zero: then any
  // sixteen bytes pass for the MAC.
  lemma AuthenticatesIff(suite: Suite, n: Nonce, announced: nat)
    ensures Authenticates(suite, n, announced) <==> suite.protocol.BoxStream? || announced > 0
  {
    if suite.protocol.BoxStream? || announced > 0 {
      forall input |
        Decode(suite, n, input).Message? && |Decode(suite, n, input).plaintext| == announced
        ensures input[..Decode(suite, n, input).size]
                  == Frame(suite, n, Decode(suite, n, input).plaintext)
      {
        DecodeExact(suite, n, input);
      }
    } else {
      var input := UnsealedEmptyFrame(suite, n);
    }
  }

  // An empty Compact frame with any wrong MAC is accepted as an empty message.
  lemma UnsealedEmptyFrame(suite: Suite, n: Nonce) returns (input: seq<Octet>)
    requires suite.protocol.Compact?
    ensures Decode(suite, n, input) == Message([], 18)
    ensures input[..18] != Frame(suite, n, [])
  {
    var f := Frame(suite, n, []);
    input := f[2 := if f[2] == 0 then 1 else 0];
    assert ReadUint16(f) == 0 by { PeekFrame(suite, n, []); }
    assert ReadUint16(input) == 0;
    if Unbox(suite.cipher, suite.key, n, input[2..18]).Some? {
      UnboxExact(suite.cipher, suite.key, n, input[2..18]);
    }
    assert input[..18][2] != f[2];
  }

  // -------------------------------------------------------------------------------------
  // The wire format, in terms of the cipher alone

  // Compact: a big-endian length, the MAC and the ciphertext, sealed under n.
  lemma CompactLayout(suite: Suite, n: Nonce, m: seq<Octet>)
    requires suite.protocol.Compact? && |m| <= 65535
    ensures var f := Frame(suite, n, m);
            && |f| == 18 + |m|
            && f[0] as nat * 256 + f[1] as nat == |m|
            && suite.cipher.open(suite.key, n, Sealed(f[2..18], f[18..])) == Some(m)
  {
    var f, box := Frame(suite, n, m), Box(suite.cipher, suite.key, n, m);
    assert f[2..18] == box[..MAC_SIZE] && f[18..] == box[MAC_SIZE..];
  }

  // BoxStream: a header of 18 bytes sealed under the second nonce, behind its MAC, and then the
  // body sealed under the first, whose MAC is in the header behind the length.
  lemma BoxStreamLayout(suite: Suite, n: Nonce, m: seq<Octet>)
    requires suite.protocol.BoxStream? && |m| <= 65535
    ensures var f := Frame(suite, n, m);
            && |f| == 34 + |m|
            && var h := suite.cipher.open(suite.key, Next(n), Sealed(f[..16], f[16..34]));
               && h.Some? && |h.value| == 18
               && h.value[0] as nat * 256 + h.value[1] as nat == |m|
               && suite.cipher.open(suite.key, n, Sealed(h.value[2..], f[34..])) == Some(m)
  {
    var f, body := Frame(suite, n, m), suite.cipher.seal(suite.key, n, m);
    var header := WriteUint16(|m|) + body.mac;
    var box := Box(suite.cipher, suite.key, Next(n), header);
    assert f[..16] == box[..MAC_SIZE] && f[16..34] == box[MAC_SIZE..] && f[34..] == body.ciphertext;
    assert header[2..] == body.mac;
    assert ReadUint16(header) == ReadUint16(WriteUint16(|m|));
  }

  // -------------------------------------------------------------------------------------
  // What each verdict means

  // Given any part of a frame, peeking either knows its sizes, or asks for as many bytes as it
  // takes to know them, which the frame has.
  lemma PeekAsks(suite: Suite, n: Nonce, m: seq<Octet>, k: nat)
    requires |m| <= MAX_MESSAGE_SIZE && k <= |Frame(suite, n, m)|
    ensures var f := Frame(suite, n, m);
            var p := Peek(suite, n, f[..k]);
            && (p.status == IncompleteInput <==> k < (if suite.protocol.Compact? then 2 else 34))
            && (p.status == IncompleteInput ==>
                  && p.decryptedSize == 0 && k < p.encryptedSize <= |f|
                  && Peek(suite, n, f[..p.encryptedSize]).status == Success)
            && (p.status != IncompleteInput ==> p == PeekResult(Success, |m|, |f|))
  {
    var f := Frame(suite, n, m);
    PeekFrame(suite, n, m);
    PeekPart(suite, n, f, k);
    PeekPart(suite, n, f, MinPeekSize(suite.protocol));
  }

  lemma PeekPart(suite: Suite, n: Nonce, f: seq<Octet>, k: nat)
    requires MinPeekSize(suite.protocol) <= |f| && k <= |f|
    ensures k >= MinPeekSize(suite.protocol) ==> Peek(suite, n, f[..k]) == Peek(suite, n, f)
  {
    if k >= MinPeekSize(suite.protocol) {
      PeekStable(suite, n, f[..k], f[k..]);
      assert f == f[..k] + f[k..];
    }
  }

  // Is this the box of some header under the second nonce?
  ghost predicate GenuineHeader(suite: Suite, n: Nonce, boxed: seq<Octet>) {
    exists h :: boxed == Box(suite.cipher, suite.key, Next(n), h)
  }

  // Sizes are refused exactly where a BoxStream header was not boxed for this place.
  lemma PeekRefuses(suite: Suite, n: Nonce, input: seq<Octet>)
    ensures var p := Peek(suite, n, input);
            && (p.status == CorruptData <==>
                  suite.protocol.BoxStream? && |input| >= 34 && !GenuineHeader(suite, n, input[..34]))
            && (p.status == CorruptData ==> p == PeekResult(CorruptData, 0, 0))
            && p.status != OutTooSmall
  {
    if suite.protocol.BoxStream? && |input| >= 34 {
      var boxed := input[..34];
      if Unbox(suite.cipher, suite.key, Next(n), boxed).Some? {
        UnboxExact(suite.cipher, suite.key, Next(n), boxed);
      }
    }
  }

  // Is this the frame of some message?
  ghost predicate Genuine(suite: Suite, n: Nonce, t: seq<Octet>) {
    exists m: seq<Octet> | |m| <= MAX_MESSAGE_SIZE :: t == Frame(suite, n, m)
  }

  lemma DecodeCases(suite: Suite, n: Nonce, input: seq<Octet>)
    ensures var p, d := Peek(suite, n, input), Decode(suite, n, input);
            && (d.Incomplete? <==> p.status == IncompleteInput
                                   || (p.status == Success && |input| < p.encryptedSize))
            && (p.status == CorruptData ==> d.Corrupt?)
            && (p.status == Success ==> p.encryptedSize == EncryptedSize(suite.protocol, p.decryptedSize))
            && (d.Message? ==>
                  && p.status == Success
                  && d.size == p.encryptedSize <= |input| && |d.plaintext| == p.decryptedSize)
  {
    hide OpenBody, OpenHeader;
    PeekRefuses(suite, n, input);
  }

  lemma WholeVerdict(suite: Suite, n: Nonce, input: seq<Octet>)
    requires var p := Peek(suite, n, input);
             p.status == Success && |input| >= p.encryptedSize && (suite.protocol.BoxStream? || p.decryptedSize > 0)
    ensures Decode(suite, n, input).Message? <==> Genuine(suite, n, input[..Peek(suite, n, input).encryptedSize])
  {
    hide Decode, Peek, Frame;
    DecodeCases(suite, n, input);
    var size := Peek(suite, n, input).encryptedSize;
    var t := input[..size];
    if Decode(suite, n, input).Message? {
      DecodeExact(suite, n, input);
    }
    if Genuine(suite, n, t) {
      var m: seq<Octet> :| |m| <= MAX_MESSAGE_SIZE && t == Frame(suite, n, m);
      assert input == t + input[size..];
      DecodeFrame(suite, n, m, input[size..]);
    }
  }

  lemma EmptyIsAccepted(suite: Suite, n: Nonce, input: seq<Octet>)
    requires suite.protocol.Compact? && Peek(suite, n, input) == PeekResult(Success, 0, 18) && |input| >= 18
    ensures Decode(suite, n, input) == Message([], 18)
  {
  }

  // Input is incomplete exactly while it is shorter than it says it is, and rejected exactly if
  // its sizes are refused or, all of it being there, it is not the frame of a message. Only an
  // empty Compact frame is let through all the same.
  lemma DecodeVerdict(suite: Suite, n: Nonce, input: seq<Octet>)
    ensures var p, d := Peek(suite, n, input), Decode(suite, n, input);
            var whole := p.status == Success && |input| >= p.encryptedSize;
            && (d.Incomplete? <==> p.status == IncompleteInput || (p.status == Success && !whole))
            && (d.Corrupt? <==>
                  || p.status == CorruptData
                  || (whole && (suite.protocol.BoxStream? || p.decryptedSize > 0)
                      && !Genuine(suite, n, input[..p.encryptedSize])))
  {
    hide Decode, Peek, Genuine;
    PeekRefuses(suite, n, input);
    DecodeCases(suite, n, input);
    var p := Peek(suite, n, input);
    if p.status == Success && |input| >= p.encryptedSize {
      if suite.protocol.BoxStream? || p.decryptedSize > 0 {
        WholeVerdict(suite, n, input);
      } else {
        EmptyIsAccepted(suite, n, input);
      }
    }
  }

  // A frame that has been changed anywhere behind the bytes that tell its size, and has not
  // become the frame of another message, is rejected, whatever follows it.
  lemma TamperedIsRejected(suite: Suite, n: Nonce, m: seq<Octet>, t: seq<Octet>, rest: seq<Octet>)
    requires |m| <= MAX_MESSAGE_SIZE && (suite.protocol.BoxStream? || m != [])
    requires |t| == |Frame(suite, n, m)|
    requires t[..MinPeekSize(suite.protocol)] == Frame(suite, n, m)[..MinPeekSize(suite.protocol)]
    requires !Genuine(suite, n, t)
    ensures Decode(suite, n, t + rest) == Corrupt
  {
    hide Decode, Peek, Frame;
    var f, k := Frame(suite, n, m), MinPeekSize(suite.protocol);
    PeekFrame(suite, n, m);
    PeekPart(suite, n, f, k);
    PeekPart(suite, n, t, k);
    DecodeVerdict(suite, n, t);
    assert t[..|t|] == t;
    DecodeStable(suite, n, t, rest);
  }
}
