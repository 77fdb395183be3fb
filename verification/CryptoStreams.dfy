// The byte-stream adapters as objects: one buffer of processed bytes followed by unprocessed
// ones, encrypted and decrypted in place.

module CryptoStreams {
  import opened Prelude
  import opened Octets
  import opened Ciphers
  import opened Frames
  import opened FrameStreams
  import opened CryptoBoxes
  import opened StreamStates

  // A fresh buffer holding `bytes`.
  method NewBuffer(bytes: seq<Octet>) returns (a: array<Octet>)
    ensures fresh(a) && a[..] == bytes
  {
    a := new Octet[|bytes|](i requires 0 <= i < |bytes| => bytes[i]);
  }

  // What both adapters have in common. The array's length is the buffer's size; changing the
  // size replaces the array.
  class CryptoStream {
    var buffer: array<Octet>
    var processedBytes: nat

    ghost predicate Valid()
      reads this
    {
      processedBytes <= buffer.Length
    }

    ghost function Processed(): seq<Octet>
      reads this, buffer
      requires Valid()
    {
      buffer[..processedBytes]
    }

    ghost function Unprocessed(): seq<Octet>
      reads this, buffer
      requires Valid()
    {
      buffer[processedBytes..]
    }

    constructor ()
      ensures Valid() && fresh(buffer)
      ensures Processed() == [] && Unprocessed() == []
    {
      buffer, processedBytes := new Octet[0], 0;
    }

    method Insert(data: seq<Octet>)
      requires Valid()
      modifies this
      ensures Valid() && fresh(buffer)
      ensures Processed() == old(Processed()) && Unprocessed() == old(Unprocessed()) + data
    {
      ghost var before := buffer[..];
      buffer := NewBuffer(buffer[..] + data);
      assert buffer[..processedBytes] == before[..processedBytes];
      assert buffer[processedBytes..] == before[processedBytes..] + data;
    }

    // Counts `outSize` more bytes as processed and cuts out the rest of the `consumed` ones.
    method CloseGap(outSize: nat, consumed: nat)
      requires Valid() && outSize <= consumed <= |Unprocessed()|
      modifies this
      ensures Valid() && fresh(buffer)
      ensures Processed() == old(buffer[..processedBytes + outSize])
      ensures Unprocessed() == old(buffer[processedBytes + consumed..])
    {
      var at := processedBytes;
      processedBytes := at + outSize;
      buffer := NewBuffer(buffer[..at + outSize] + buffer[at + consumed..]);
    }

    method Skip(maxSize: nat) returns (n: nat)
      requires Valid()
      modifies this
      ensures Valid() && (buffer == old(buffer) || fresh(buffer))
      ensures n == Min(maxSize, |old(Processed())|)
      ensures Processed() == old(Processed())[n..] && Unprocessed() == old(Unprocessed())
    {
      n := Min(maxSize, processedBytes);
      if n > 0 {
        ghost var before, size := buffer[..], processedBytes;
        buffer := NewBuffer(buffer[n..]);
        processedBytes := processedBytes - n;
        assert buffer[..processedBytes] == before[..size][n..];
        assert buffer[processedBytes..] == before[size..];
      }
    }

    method Pull(dstSize: nat) returns (data: seq<Octet>)
      requires Valid()
      modifies this
      ensures Valid() && (buffer == old(buffer) || fresh(buffer))
      ensures data == old(Processed())[..Min(dstSize, |old(Processed())|)]
      ensures Processed() == old(Processed())[|data|..] && Unprocessed() == old(Unprocessed())
    {
      var size := Min(dstSize, processedBytes);
      data := buffer[..size];
      assert data == buffer[..processedBytes][..size];
      if size > 0 {
        var _ := Skip(size);
      }
    }
  }

  class EncryptionStream {
    const stream: CryptoStream
    const encryptor: EncryptoBox

    ghost predicate Valid()
      reads this, stream, stream.buffer, encryptor
    {
      stream.Valid() && encryptor.Valid() && |stream.Unprocessed()| <= MAX_MESSAGE_SIZE
    }

    ghost function State(): EncState
      reads this, stream, stream.buffer, encryptor
      requires Valid()
    {
      EncState(stream.Processed(), stream.Unprocessed(), encryptor.nonce)
    }

    constructor (suite: Suite, nonce: Nonce)
      ensures Valid() && fresh(stream) && fresh(stream.buffer) && fresh(encryptor)
      ensures encryptor.suite == suite && State() == EncState([], [], nonce)
    {
      stream := new CryptoStream();
      encryptor := new EncryptoBox(suite, nonce);
    }

    // Encrypts the pending plaintext where it lies.
    method FlushPending()
      requires Valid()
      modifies stream, stream.buffer, encryptor
      ensures Valid() && (stream.buffer == old(stream.buffer) || fresh(stream.buffer))
      ensures State() == Flush(encryptor.suite, old(State()))
    {
      var msgSize := stream.buffer.Length - stream.processedBytes;
      if msgSize > 0 {
        ghost var s := State();
        var encSize := EncryptedSize(encryptor.suite.protocol, msgSize);
        stream.buffer := NewBuffer(stream.buffer[..] + seq(encSize - msgSize, _ => 0));
        var at := stream.processedBytes;
        assert stream.buffer[at..at + msgSize] == s.pending;
        assert stream.buffer[..at] == s.processed;
        var r := encryptor.Encrypt(stream.buffer, at, msgSize,
                                   stream.buffer, at, stream.buffer.Length - at);
        assert r == Encrypted(encSize);
        stream.processedBytes := stream.processedBytes + r.size;
        FlushedIs(encryptor.suite, s);
        ghost var f := Frame(encryptor.suite, s.nonce, s.pending);
        assert stream.buffer[..] == s.processed + f;
      }
    }

    method InsertPending(data: seq<Octet>)
      requires Valid() && |State().pending| + |data| <= MAX_MESSAGE_SIZE
      modifies stream
      ensures Valid() && fresh(stream.buffer)
      ensures State() == old(State()).(pending := old(State()).pending + data)
    {
      stream.Insert(data);
    }

    // Appends as much as one message can still hold, and flushes it if that is not everything.
    // Nothing fits when the pending part is already full.
    method PushChunk(data: seq<Octet>) returns (chunk: nat)
      requires Valid() && data != []
      modifies stream, stream.buffer, encryptor
      ensures Valid() && (stream.buffer == old(stream.buffer) || fresh(stream.buffer))
      ensures chunk <= |data|
      ensures PushPartial(encryptor.suite, State(), data[chunk..])
           == PushPartial(encryptor.suite, old(State()), data)
      ensures chunk == 0 ==> |State().pending| < |old(State()).pending|
    {
      var maxSize := MAX_MESSAGE_SIZE - (stream.buffer.Length - stream.processedBytes);
      chunk := Min(|data|, maxSize);
      InsertPending(data[..chunk]);
      if chunk < |data| {
        FlushPending();
      }
      PushPartialStep(encryptor.suite, old(State()), data, chunk);
    }

    // Appends plaintext, flushing whenever the pending part is as large as a message can be.
    method PushPartialData(data: seq<Octet>)
      requires Valid()
      modifies stream, stream.buffer, encryptor
      ensures Valid() && (stream.buffer == old(stream.buffer) || fresh(stream.buffer))
      ensures State() == PushPartial(encryptor.suite, old(State()), data)
    {
      var rest := data;
      while |rest| > 0
        invariant Valid() && (stream.buffer == old(stream.buffer) || fresh(stream.buffer))
        invariant PushPartial(encryptor.suite, State(), rest)
               == PushPartial(encryptor.suite, old(State()), data)
        decreases |rest|, |State().pending|
      {
        var chunk := PushChunk(rest);
        rest := rest[chunk..];
      }
      PushPartialNothing(encryptor.suite, State());
    }

    method PushData(data: seq<Octet>)
      requires Valid()
      modifies stream, stream.buffer, encryptor
      ensures Valid() && (stream.buffer == old(stream.buffer) || fresh(stream.buffer))
      ensures State() == Push(encryptor.suite, old(State()), data)
    {
      PushPartialData(data);
      FlushPending();
    }
  }

  lemma {:induction false} FlushedIs(suite: Suite, s: EncState)
    requires s.pending != []
    ensures Flush(suite, s) == EncState(s.processed + Frame(suite, s.nonce, s.pending), [],
                                        Advance(suite.protocol, s.nonce))
  {
    PrintCons(suite, s.nonce, s.pending, []);
    assert [s.pending] + [] == [s.pending];
    assert Print(suite, Advance(suite.protocol, s.nonce), []) == [];
    assert AdvanceBy(suite.protocol, s.nonce, 1) == Advance(suite.protocol, s.nonce);
  }

  // One step of PushPartialData: take what fits, and let a full message go out when more follows.
  lemma {:induction false} PushPartialStep(suite: Suite, s: EncState, data: seq<Octet>, chunk: nat)
    requires chunk == Min(|data|, MAX_MESSAGE_SIZE - |s.pending|)
    ensures PushPartial(suite, s, data)
         == var t := s.(pending := s.pending + data[..chunk]);
            PushPartial(suite, if chunk < |data| then Flush(suite, t) else t, data[chunk..])
  {
    var full, b := s.pending + data[..chunk], data[chunk..];
    var t := s.(pending := full);
    var text := s.pending + data;
    assert text == full + b;
    if chunk < |data| {
      assert text[..MAX_MESSAGE_SIZE] == full && text[MAX_MESSAGE_SIZE..] == b == [] + b;
      EmitAppend(suite, t, [full], Split(b).full);
      EmitPending(suite, s, full, Split(text).full);
      EmitPending(suite, Emit(suite, t, [full]), [], Split(b).full);
    }
  }

  lemma {:induction false} EmitPending(suite: Suite, s: EncState, m: Message, ms: seq<Message>)
    ensures Emit(suite, s.(pending := m), ms) == Emit(suite, s, ms).(pending := m)
  {
  }

  class DecryptionStream {
    const stream: CryptoStream
    const decryptor: DecryptoBox

    ghost predicate Valid()
      reads this, stream, stream.buffer, decryptor
    {
      stream.Valid()
    }

    ghost function State(): DecState
      reads this, stream, stream.buffer, decryptor
      requires Valid()
    {
      DecState(stream.Processed(), stream.Unprocessed(), decryptor.nonce)
    }

    constructor (suite: Suite, nonce: Nonce)
      ensures Valid() && fresh(stream) && fresh(stream.buffer) && fresh(decryptor)
      ensures decryptor.suite == suite && State() == DecState([], [], nonce)
    {
      stream := new CryptoStream();
      decryptor := new DecryptoBox(suite, nonce);
    }

    // Decrypts the first frame where it lies, if it is complete, and closes the gap it leaves.
    method DecryptFirst() returns (status: Status)
      requires Valid()
      modifies stream, stream.buffer, decryptor
      ensures Valid() && (stream.buffer == old(stream.buffer) || fresh(stream.buffer))
      ensures status == StatusOf(First(decryptor.suite, old(State())))
      ensures State() == if status == Success then WithoutFirst(decryptor.suite, old(State()))
                         else old(State())
    {
      hide Decode, EncryptedSize;
      var consumed, outSize;
      status, consumed, outSize := decryptor.DecryptInPlace(stream.buffer, stream.processedBytes);
      if status == Success {
        stream.CloseGap(outSize, consumed);
      }
    }

    // Decrypts every complete frame.
    method PushData(data: seq<Octet>) returns (ok: bool)
      requires Valid()
      modifies stream, stream.buffer, decryptor
      ensures Valid() && fresh(stream.buffer)
      ensures ok == Accepts(decryptor.suite, old(State()), data)
      ensures State() == Receive(decryptor.suite, old(State()), data)
    {
      ghost var suite, s := decryptor.suite, State();
      stream.Insert(data);
      ghost var all := State();
      assert all.unprocessed + [] == s.unprocessed + data;
      while true
        invariant Valid() && fresh(stream.buffer)
        invariant Receive(suite, State(), []) == Receive(suite, all, [])
        invariant Accepts(suite, State(), []) == Accepts(suite, all, [])
        decreases |State().unprocessed|
      {
        ghost var t := State();
        assert t.unprocessed + [] == t.unprocessed;
        var status := DecryptFirst();
        match status
        case Success =>
          ReceiveFirst(suite, t);
        case IncompleteInput =>
          return true;
        case CorruptData =>
          return false;
      }
    }

    method Close() returns (ok: bool)
      requires Valid()
      modifies stream
      ensures Valid() && fresh(stream.buffer)
      ensures ok <==> old(State()).unprocessed == []
      ensures State() == DecState([], [], old(decryptor.nonce))
    {
      ok := stream.buffer.Length == stream.processedBytes;
      stream.buffer := new Octet[0];
      stream.processedBytes := 0;
    }
  }

  ghost function First(suite: Suite, s: DecState): Decoded {
    Decode(suite, s.nonce, s.unprocessed)
  }

  ghost function WithoutFirst(suite: Suite, s: DecState): DecState
    requires First(suite, s).Message?
  {
    var d := First(suite, s);
    DecState(s.processed + d.plaintext, s.unprocessed[d.size..], Advance(suite.protocol, s.nonce))
  }

  // Taking the first frame off and going on is taking them all.
  lemma {:induction false} ReceiveFirst(suite: Suite, s: DecState)
    requires Decode(suite, s.nonce, s.unprocessed).Message?
    ensures var t := WithoutFirst(suite, s);
            && Receive(suite, s, []) == Receive(suite, t, [])
            && Accepts(suite, s, []) == Accepts(suite, t, [])
  {
    var d := Decode(suite, s.nonce, s.unprocessed);
    assert s.unprocessed + [] == s.unprocessed;
    assert s.unprocessed[d.size..] + [] == s.unprocessed[d.size..];
    assert Concat([d.plaintext]) == d.plaintext;
    AbsorbTwice(s.processed, [d.plaintext],
                Parse(suite, Advance(suite.protocol, s.nonce), s.unprocessed[d.size..]));
  }
}
