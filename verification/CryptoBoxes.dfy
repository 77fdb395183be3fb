// EncryptoBox and DecryptoBox over raw memory. Input and output may overlap in any way; the
// cipher primitives read all of their input before they write.

module CryptoBoxes {
  import opened Prelude
  import opened Octets
  import opened Ciphers
  import opened Frames
  import opened Nonces

  // Memory with `bytes` written at offset `at`, everything else as it was.
  ghost function Patch(mem: seq<Octet>, at: nat, bytes: seq<Octet>): (r: seq<Octet>)
    requires at + |bytes| <= |mem|
    ensures |r| == |mem|
  {
    mem[..at] + bytes + mem[at + |bytes|..]
  }

  // Writing the tail of a block and then its head writes the block.
  lemma PatchTwice(mem: seq<Octet>, at: nat, head: seq<Octet>, tail: seq<Octet>)
    requires at + |head| + |tail| <= |mem|
    ensures Patch(Patch(mem, at + |head|, tail), at, head) == Patch(mem, at, head + tail)
  {
  }

  lemma PatchFront(front: seq<Octet>, back: seq<Octet>, m: seq<Octet>, k: nat)
    requires |m| <= k <= |back|
    ensures var after := Patch(front + back, |front|, m);
            after[..|front| + |m|] == front + m && after[|front| + k..] == back[k..]
  {
  }

  method Store(mem: array<Octet>, at: nat, bytes: seq<Octet>)
    requires at + |bytes| <= mem.Length
    modifies mem
    ensures mem[..] == Patch(old(mem[..]), at, bytes)
  {
    forall i | 0 <= i < |bytes| {
      mem[at + i] := bytes[i];
    }
  }

  datatype EncryptResult = InvalidArgument | NoRoom | Encrypted(size: nat)

  class EncryptoBox {
    const suite: Suite
    var nonce: Nonce

    // Every nonce handed to the cipher so far, in order.
    ghost const initialNonce: Nonce
    ghost var used: seq<Nonce>

    // No nonce has been handed to the cipher but those counted from the first ...
    ghost predicate Counted()
      reads this
    {
      forall i | 0 <= i < |used| :: used[i] == NonceAt(initialNonce, i)
    }

    // ... and the next one has not been yet.
    ghost predicate Valid()
      reads this
    {
      Counted() && nonce == NonceAt(initialNonce, |used|)
    }

    constructor (suite: Suite, nonce: Nonce)
      ensures Valid()
      ensures this.suite == suite && this.nonce == nonce && used == [] && initialNonce == nonce
    {
      this.suite, this.nonce := suite, nonce;
      this.initialNonce, this.used := nonce, [];
    }

    // The two ways the cipher is called: for a box, and for a MAC apart from its ciphertext.
    method Lock(plaintext: seq<Octet>) returns (s: Sealed)
      requires Valid()
      modifies this`used
      ensures s == suite.cipher.seal(suite.key, nonce, plaintext)
      ensures Counted() && used == old(used) + [nonce]
    {
      used := used + [nonce];
      s := suite.cipher.seal(suite.key, nonce, plaintext);
    }

    method MakeBox(plaintext: seq<Octet>) returns (b: seq<Octet>)
      requires Valid()
      modifies this`used
      ensures b == Box(suite.cipher, suite.key, nonce, plaintext)
      ensures Counted() && used == old(used) + [nonce]
    {
      var s := Lock(plaintext);
      b := s.mac + s.ciphertext;
    }

    // Moves on from a nonce that the cipher has just been given.
    method Increment()
      requires Counted() && used != [] && nonce == used[|used| - 1]
      modifies this`nonce
      ensures Valid() && nonce == Next(old(nonce))
    {
      NextNonceAt(initialNonce, |used| - 1);
      nonce := Next(nonce);
    }

    method Encrypt(input: array<Octet>, inAt: nat, inSize: nat,
                   output: array<Octet>, outAt: nat, capacity: nat) returns (r: EncryptResult)
      requires Valid()
      requires inAt + inSize <= input.Length && outAt + capacity <= output.Length
      modifies this, output
      ensures Valid()
      ensures r == if inSize > MAX_MESSAGE_SIZE then InvalidArgument
                   else if capacity < EncryptedSize(suite.protocol, inSize) then NoRoom
                   else Encrypted(EncryptedSize(suite.protocol, inSize))
      ensures r.Encrypted? ==>
                && output[..] == Patch(old(output[..]), outAt,
                                       Frame(suite, old(nonce), old(input[inAt..inAt + inSize])))
                && nonce == Advance(suite.protocol, old(nonce))
                && |used| == |old(used)| + Uses(suite.protocol, 1)
      ensures !r.Encrypted? ==> output[..] == old(output[..]) && unchanged(this)
    {
      if inSize > MAX_MESSAGE_SIZE {
        return InvalidArgument;
      }
      var encSize := EncryptedSize(suite.protocol, inSize);
      if capacity < encSize {
        return NoRoom;
      }
      if suite.protocol == BoxStream {
        EncryptBoxStream(input, inAt, inSize, output, outAt);
      } else {
        EncryptCompact(input, inAt, inSize, output, outAt);
      }
      return Encrypted(encSize);
    }

    // Two boxes: the body, whose MAC goes into the header, and then the header before it.
    method EncryptBoxStream(input: array<Octet>, inAt: nat, inSize: nat, output: array<Octet>, outAt: nat)
      requires Valid() && suite.protocol.BoxStream? && inSize <= MAX_MESSAGE_SIZE
      requires inAt + inSize <= input.Length
      requires outAt + EncryptedSize(suite.protocol, inSize) <= output.Length
      modifies this, output
      ensures Valid()
      ensures output[..] == Patch(old(output[..]), outAt,
                                  Frame(suite, old(nonce), old(input[inAt..inAt + inSize])))
      ensures nonce == Advance(suite.protocol, old(nonce)) && |used| == |old(used)| + 2
    {
      hide NonceAt, Unbox, Patch;
      var body := Lock(input[inAt..inAt + inSize]);
      Store(output, outAt + BOXED_HEADER_SIZE, body.ciphertext);
      Increment();
      var boxed := MakeBox(WriteUint16(inSize) + body.mac);
      Store(output, outAt, boxed);
      Increment();
      PatchTwice(old(output[..]), outAt, boxed, body.ciphertext);
    }

    // One box, and then the length before it: the length may land on the plaintext.
    method EncryptCompact(input: array<Octet>, inAt: nat, inSize: nat, output: array<Octet>, outAt: nat)
      requires Valid() && suite.protocol.Compact? && inSize <= MAX_MESSAGE_SIZE
      requires inAt + inSize <= input.Length
      requires outAt + EncryptedSize(suite.protocol, inSize) <= output.Length
      modifies this, output
      ensures Valid()
      ensures output[..] == Patch(old(output[..]), outAt,
                                  Frame(suite, old(nonce), old(input[inAt..inAt + inSize])))
      ensures nonce == Advance(suite.protocol, old(nonce)) && |used| == |old(used)| + 1
    {
      hide NonceAt, Unbox, Patch;
      var box := MakeBox(input[inAt..inAt + inSize]);
      Store(output, outAt + 2, box);
      Increment();
      Store(output, outAt, WriteUint16(inSize));
      PatchTwice(old(output[..]), outAt, WriteUint16(inSize), box);
    }

    // Safety of the whole history: no nonce is used twice while fewer than 2^192 are used.
    lemma NoNonceTwice(i: nat, j: nat)
      requires Valid()
      requires i < j < |used| <= NONCE_COUNT
      ensures used[i] != used[j]
    {
      NoncesDistinct(initialNonce, i, j);
    }
  }

  function StatusOf(d: Decoded): Status {
    match d
    case Incomplete => IncompleteInput
    case Corrupt => CorruptData
    case Message(_, _) => Success
  }

  // The status DecryptoBox reports: that of the frame, unless the output cannot hold it.
  function DecryptStatus(suite: Suite, n: Nonce, input: seq<Octet>, capacity: nat): Status {
    var peek := Peek(suite, n, input);
    if peek.status == Success && |input| >= peek.encryptedSize && capacity < peek.decryptedSize then
      OutTooSmall
    else
      StatusOf(Decode(suite, n, input))
  }

  // Where the output is as large as the input, as it is in place, it is never too small.
  lemma RoomInPlace(suite: Suite, n: Nonce, input: seq<Octet>)
    ensures DecryptStatus(suite, n, input, |input|) == StatusOf(Decode(suite, n, input))
  {
  }

  // A frame needs as much room as its message, and no more.
  lemma RoomForMessage(suite: Suite, n: Nonce, m: seq<Octet>, rest: seq<Octet>, capacity: nat)
    requires |m| <= MAX_MESSAGE_SIZE
    ensures DecryptStatus(suite, n, Frame(suite, n, m) + rest, capacity)
         == if capacity < |m| then OutTooSmall else Success
  {
    hide Decode, Peek, Frame;
    var f := Frame(suite, n, m);
    PeekFrame(suite, n, m);
    PeekPart(suite, n, f + rest, |f|);
    assert (f + rest)[..|f|] == f;
    DecodeFrame(suite, n, m, rest);
  }

  // A frame changed on the way is rejected, once there is room for what it would have held.
  lemma NoRoomForTampered(suite: Suite, n: Nonce, m: seq<Octet>, t: seq<Octet>, rest: seq<Octet>, capacity: nat)
    requires |m| <= MAX_MESSAGE_SIZE && (suite.protocol.BoxStream? || m != [])
    requires |t| == |Frame(suite, n, m)|
    requires t[..MinPeekSize(suite.protocol)] == Frame(suite, n, m)[..MinPeekSize(suite.protocol)]
    requires !Genuine(suite, n, t)
    ensures DecryptStatus(suite, n, t + rest, capacity) == if capacity < |m| then OutTooSmall else CorruptData
  {
    hide Decode, Peek, Frame, Genuine;
    var f, k := Frame(suite, n, m), MinPeekSize(suite.protocol);
    PeekFrame(suite, n, m);
    PeekPart(suite, n, f, k);
    PeekPart(suite, n, t + rest, k);
    assert (t + rest)[..k] == t[..k];
    TamperedIsRejected(suite, n, m, t, rest);
  }

  class DecryptoBox {
    const suite: Suite
    var nonce: Nonce

    constructor (suite: Suite, nonce: Nonce)
      ensures this.suite == suite && this.nonce == nonce
    {
      this.suite, this.nonce := suite, nonce;
    }

    // Opens a boxed header without moving the session's nonce: the header was sealed second.
    method DecryptBoxStreamHeader(input: array<Octet>, inAt: nat, inSize: nat)
      returns (r: PeekResult, header: seq<Octet>)
      requires suite.protocol.BoxStream?
      requires inAt + inSize <= input.Length
      ensures r == Peek(suite, nonce, input[inAt..inAt + inSize])
      ensures r.status == Success ==>
                OpenHeader(suite, nonce, input[inAt..inAt + inSize]) == Some(header)
    {
      if inSize < BOXED_HEADER_SIZE {
        return PeekResult(IncompleteInput, 0, BOXED_HEADER_SIZE), [];
      }
      var box := input[inAt..inAt + inSize][..BOXED_HEADER_SIZE];
      var out := Unbox(suite.cipher, suite.key, Next(nonce), box);
      if out.None? {
        return PeekResult(CorruptData, 0, 0), [];
      }
      var size := ReadUint16(out.value);
      return PeekResult(Success, size, BOXED_HEADER_SIZE + size), out.value;
    }

    method PeekSizes(input: array<Octet>, inAt: nat, inSize: nat) returns (r: PeekResult)
      requires inAt + inSize <= input.Length
      ensures r == Peek(suite, nonce, input[inAt..inAt + inSize])
    {
      if suite.protocol == BoxStream {
        var header;
        r, header := DecryptBoxStreamHeader(input, inAt, inSize);
      } else {
        if inSize < 2 {
          return PeekResult(IncompleteInput, 0, 2);
        }
        var size := ReadUint16(input[inAt..inAt + inSize]);
        return PeekResult(Success, size, EncryptedSize(suite.protocol, size));
      }
    }

    method Decrypt(input: array<Octet>, inAt: nat, inSize: nat,
                   output: array<Octet>, outAt: nat, capacity: nat)
      returns (status: Status, consumed: nat, outSize: nat)
      requires inAt + inSize <= input.Length && outAt + capacity <= output.Length
      modifies this, output
      ensures status == DecryptStatus(suite, old(nonce), old(input[inAt..inAt + inSize]), capacity)
      ensures status == Success ==>
                var d := Decode(suite, old(nonce), old(input[inAt..inAt + inSize]));
                && d == Message(d.plaintext, consumed) && outSize == |d.plaintext| <= capacity
                && output[..] == Patch(old(output[..]), outAt, d.plaintext)
                && nonce == Advance(suite.protocol, old(nonce))
      ensures status != Success ==> output[..] == old(output[..]) && nonce == old(nonce)
    {
      consumed, outSize := 0, 0;
      var data := input[inAt..inAt + inSize];
      if suite.protocol == BoxStream {
        var r, header := DecryptBoxStreamHeader(input, inAt, inSize);
        if r.status != Success {
          return r.status, 0, 0;
        }
        if inSize < r.encryptedSize {
          return IncompleteInput, 0, 0;
        }
        if capacity < r.decryptedSize {
          return OutTooSmall, 0, 0;
        }
        var ciphertext := data[BOXED_HEADER_SIZE..r.encryptedSize];
        var plaintext := suite.cipher.open(suite.key, nonce, Sealed(header[2..], ciphertext));
        assert plaintext == OpenBody(suite, nonce, data);
        if plaintext.None? {
          return CorruptData, 0, 0;
        }
        Store(output, outAt, plaintext.value);
        nonce := Next(nonce);
        consumed, outSize := r.encryptedSize, r.decryptedSize;
      } else {
        var r := PeekSizes(input, inAt, inSize);
        if r.status != Success {
          return r.status, 0, 0;
        }
        if inSize < r.encryptedSize {
          return IncompleteInput, 0, 0;
        }
        if capacity < r.decryptedSize {
          return OutTooSmall, 0, 0;
        }
        var box := data[2..r.encryptedSize];
        // Failure to unbox yields an empty output and writes nothing.
        var out := Unbox(suite.cipher, suite.key, nonce, box);
        var plaintext := if out.Some? then out.value else [];
        if |plaintext| != r.decryptedSize {
          return CorruptData, 0, 0;
        }
        Store(output, outAt, plaintext);
        consumed, outSize := r.encryptedSize, r.decryptedSize;
      }
      nonce := Next(nonce);
      status := Success;
    }

    // Decrypts the frame that starts at `at` over itself: everything before it and everything
    // after it stays where it is.
    method DecryptInPlace(buffer: array<Octet>, at: nat) returns (status: Status, consumed: nat, outSize: nat)
      requires at <= buffer.Length
      modifies this, buffer
      ensures status == StatusOf(Decode(suite, old(nonce), old(buffer[at..])))
      ensures status == Success ==>
                var d := Decode(suite, old(nonce), old(buffer[at..]));
                && consumed == d.size && outSize == |d.plaintext| <= consumed <= buffer.Length - at
                && buffer[..at + outSize] == old(buffer[..at]) + d.plaintext
                && buffer[at + consumed..] == old(buffer[at + consumed..])
                && nonce == Advance(suite.protocol, old(nonce))
      ensures status != Success ==> buffer[..] == old(buffer[..]) && nonce == old(nonce)
    {
      hide Decode, DecryptStatus, Patch, Advance;
      ghost var front, back := buffer[..at], buffer[at..];
      var size := buffer.Length - at;
      assert buffer[at..at + size] == back && buffer[..] == front + back;
      RoomInPlace(suite, nonce, back);
      status, consumed, outSize := Decrypt(buffer, at, size, buffer, at, size);
      if status == Success {
        ghost var m := Decode(suite, old(nonce), back).plaintext;
        PatchFront(front, back, m, consumed);
        ghost var after := buffer[..];
        assert buffer[..at + outSize] == after[..at + outSize];
        assert buffer[at + consumed..] == after[at + consumed..] == back[consumed..];
        assert back[consumed..] == old(buffer[at + consumed..]);
      }
    }
  }
}
