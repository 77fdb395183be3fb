// Encrypted streams over a raw stream, as crouton and kj present them: crouton hands out views
// of the internal buffers and skips what they showed on the next call; kj copies.

module SecretStreams {
  import opened Prelude
  import opened RawStreams
  import opened Octets
  import opened Ciphers
  import opened Frames
  import opened FrameStreams
  import opened StreamStates
  import opened CryptoStreams

  // -------------------------------------------------------------------------------------
  // What ties a stream's ends to the bytes that passed through it

  // The plaintext of the ciphertext received so far.
  ghost function Plaintext(suite: Suite, n: Nonce, received: seq<Octet>): seq<Octet> {
    Concat(Parse(suite, n, received).messages)
  }

  // A decryption stream that has been given `received` and of which `taken` has been used, the
  // last `shown` bytes of it still in the buffer.
  ghost predicate ReaderOk(suite: Suite, n: Nonce, received: seq<Octet>, taken: seq<Octet>,
                           dec: DecState, shown: nat)
  {
    var r := Parse(suite, n, received);
    && dec.unprocessed == r.residue && dec.nonce == r.nonce
    && shown <= |dec.processed|
    && taken + dec.processed[shown..] == Concat(r.messages)
  }

  lemma {:induction false} FeedReader(suite: Suite, n: Nonce, received: seq<Octet>, taken: seq<Octet>,
                                      dec: DecState, data: seq<Octet>)
    requires ReaderOk(suite, n, received, taken, dec, 0)
    ensures ReaderOk(suite, n, received + data, taken, StreamStates.Receive(suite, dec, data), 0)
    ensures Accepts(suite, dec, data) == Parse(suite, n, received + data).ok
  {
    hide Parse;
    var r := Parse(suite, n, received);
    var q := Parse(suite, r.nonce, r.residue + data);
    ParseAppend(suite, n, received, data);
    ConcatAppend(r.messages, q.messages);
    assert dec.processed[0..] == dec.processed;
    var after := StreamStates.Receive(suite, dec, data).processed;
    assert after[0..] == dec.processed + Concat(q.messages);
    assert taken + (dec.processed + Concat(q.messages)) == (taken + dec.processed) + Concat(q.messages);
  }

  // Of what has been received, only the last piece read was more than it took: without it there
  // was less plaintext than was asked for.
  ghost predicate ReadNoFurther(suite: Suite, n: Nonce, before: seq<Octet>, received: seq<Octet>, wanted: nat) {
    received == before
    || exists k | |before| <= k < |received| :: |Plaintext(suite, n, received[..k])| < wanted
  }

  lemma NothingRead(suite: Suite, n: Nonce, received: seq<Octet>, wanted: nat)
    ensures ReadNoFurther(suite, n, received, received, wanted)
  {
  }

  lemma {:induction false} OnePieceRead(
    suite: Suite, n: Nonce, before: seq<Octet>, received: seq<Octet>, wanted: nat)
    requires before <= received && |Plaintext(suite, n, before)| < wanted
    ensures ReadNoFurther(suite, n, before, received, wanted)
  {
    hide Parse, Plaintext;
    assert received[..|before|] == before;
  }

  lemma {:induction false} MoreRead(
    suite: Suite, n: Nonce, before: seq<Octet>, middle: seq<Octet>, received: seq<Octet>, wanted: nat)
    requires before <= middle <= received
    requires ReadNoFurther(suite, n, before, middle, wanted) && ReadNoFurther(suite, n, middle, received, wanted)
    ensures ReadNoFurther(suite, n, before, received, wanted)
  {
    hide Parse, Plaintext;
  }

  // What is available is what comes next.
  lemma {:induction false} NextBytes(suite: Suite, n: Nonce, received: seq<Octet>, taken: seq<Octet>,
                                     dec: DecState)
    requires ReaderOk(suite, n, received, taken, dec, 0)
    ensures taken <= Plaintext(suite, n, received)
    ensures dec.processed == Plaintext(suite, n, received)[|taken|..]
  {
    hide Parse;
    assert dec.processed[0..] == dec.processed;
    assert (taken + dec.processed)[|taken|..] == dec.processed;
  }

  lemma {:induction false} TakeSome(suite: Suite, n: Nonce, received: seq<Octet>, taken: seq<Octet>,
                                    dec: DecState, k: nat)
    requires ReaderOk(suite, n, received, taken, dec, 0) && k <= |dec.processed|
    ensures ReaderOk(suite, n, received, taken + dec.processed[..k], dec, k)
    ensures ReaderOk(suite, n, received, taken + dec.processed[..k],
                     dec.(processed := dec.processed[k..]), 0)
    ensures taken + dec.processed[..k] <= Plaintext(suite, n, received)
    ensures dec.processed == [] ==> taken + dec.processed[..k] == Plaintext(suite, n, received)
  {
    hide Parse;
    assert dec.processed[0..] == dec.processed == dec.processed[..k] + dec.processed[k..];
    assert (taken + dec.processed[..k]) + dec.processed[k..] == taken + dec.processed;
    assert dec.processed[k..][0..] == dec.processed[k..];
  }

  // An encryption stream whose messages so far are `sent`, all of them written after what the
  // raw stream had carried before, the last `shown` bytes of their ciphertext still in the buffer.
  ghost predicate WriterOk(suite: Suite, n: Nonce, sent: seq<Message>, before: seq<Octet>,
                           written: seq<Octet>, enc: EncState, shown: nat)
  {
    && enc.pending == [] && |enc.processed| == shown
    && enc.nonce == AdvanceBy(suite.protocol, n, |sent|) && [] !in sent
    && written == before + Print(suite, n, sent)
  }

  lemma {:induction false} WriteMore(suite: Suite, n: Nonce, sent: seq<Message>, before: seq<Octet>,
                                     written: seq<Octet>, enc: EncState, data: seq<Octet>)
    returns (ms: seq<Message>)
    requires WriterOk(suite, n, sent, before, written, enc, 0)
    ensures Concat(sent + ms) == Concat(sent) + data && |ms| == CeilDiv(|data|, MAX_MESSAGE_SIZE)
    ensures var after := Push(suite, enc, data);
            WriterOk(suite, n, sent + ms, before, written + after.processed, after, |after.processed|)
  {
    hide Print, AdvanceBy, Split, Push, Concat;
    ms := PushExpansion(suite, enc, data);
    ConcatAppend(sent, ms);
    PrintAppend(suite, n, sent, ms);
    AdvanceByAdd(suite.protocol, n, |sent|, |ms|);
    WrittenAfter(before, Print(suite, n, sent), Print(suite, enc.nonce, ms), enc.processed);
  }

  lemma WrittenAfter(before: seq<Octet>, printed: seq<Octet>, more: seq<Octet>, nothing: seq<Octet>)
    requires nothing == []
    ensures (before + printed) + (nothing + more) == before + (printed + more)
  {
  }

  lemma {:induction false} DropShown(suite: Suite, n: Nonce, sent: seq<Message>, before: seq<Octet>,
                                     written: seq<Octet>, enc: EncState, shown: nat)
    requires WriterOk(suite, n, sent, before, written, enc, shown)
    ensures |enc.processed| == shown
    ensures WriterOk(suite, n, sent, before, written, enc.(processed := enc.processed[shown..]), 0)
  {
  }

  // A writer and the reader at the other end: what has been read is a prefix of what has been
  // written, no ciphertext of the writer's is ever bad, and the reader that has received and
  // used up everything has read everything.
  lemma {:induction false} ReaderFollowsWriter(
    suite: Suite, n: Nonce, sent: seq<Message>, before: seq<Octet>, written: seq<Octet>,
    enc: EncState, passed: nat, received: seq<Octet>, taken: seq<Octet>, dec: DecState, shown: nat)
    requires WriterOk(suite, n, sent, before, before + written, enc, passed)
    requires ReaderOk(suite, n, received, taken, dec, shown)
    requires received <= written
    ensures Parse(suite, n, received).ok && taken <= Concat(sent)
    ensures received == written && |dec.processed| == shown ==> taken == Concat(sent)
  {
    hide Parse, Print;
    ParsePrint(suite, n, sent);
    assert written == (before + written)[|before|..];
    assert Print(suite, n, sent) == (before + Print(suite, n, sent))[|before|..];
    assert written == received + written[|received|..];
    ParsePrefix(suite, n, received, written[|received|..]);
    assert taken <= Plaintext(suite, n, received);
    if |dec.processed| == shown {
      assert dec.processed[shown..] == [] && taken + [] == taken;
    }
  }

  // -------------------------------------------------------------------------------------
  // crouton

  datatype ReadResult = Data(bytes: seq<Octet>) | InvalidState | DataError

  class SecretHandshakeStream {
    const raw: RawStream<Octet>
    const reader: DecryptionStream
    const writer: EncryptionStream
    var lastReadSize: nat
    var lastWriteSize: nat
    var open: bool

    // History: the nonces of the session, what the raw stream had carried when the stream was
    // opened, the ciphertext taken from it since, the plaintext returned by reads, and the
    // messages written.
    ghost const readNonce: Nonce
    ghost const writeNonce: Nonce
    ghost const before: seq<Octet>
    ghost var received: seq<Octet>
    ghost var taken: seq<Octet>
    ghost var sent: seq<Message>

    ghost predicate ReaderValid()
      reads this`open, this`lastReadSize, this`received, this`taken
      reads reader, reader.stream, reader.stream.buffer, reader.decryptor
    {
      && reader.Valid()
      && (open ==> ReaderOk(reader.decryptor.suite, readNonce, received, taken,
                            reader.State(), lastReadSize)
                   && Parse(reader.decryptor.suite, readNonce, received).ok)
    }

    ghost predicate WriterValid()
      reads this`lastWriteSize, this`sent, raw`written
      reads writer, writer.stream, writer.stream.buffer, writer.encryptor
    {
      && writer.Valid()
      && WriterOk(writer.encryptor.suite, writeNonce, sent, before, raw.written, writer.State(), lastWriteSize)
    }

    ghost predicate Valid()
      reads this, raw, reader, reader.stream, reader.stream.buffer, reader.decryptor
      reads writer, writer.stream, writer.stream.buffer, writer.encryptor
    {
      && ReaderValid() && WriterValid()
      && reader.stream != writer.stream && reader.stream.buffer != writer.stream.buffer
    }

    // The plaintext of what has been received.
    ghost function Decrypted(): seq<Octet>
      reads this, reader, reader.decryptor
    {
      Plaintext(reader.decryptor.suite, readNonce, received)
    }

    ghost function Parsing(): Parsed
      reads this, reader, reader.decryptor
    {
      Parse(reader.decryptor.suite, readNonce, received)
    }

    // The stream as `open` leaves it after a handshake, for that session.
    constructor (raw: RawStream<Octet>, readSuite: Suite, readNonce: Nonce, writeSuite: Suite, writeNonce: Nonce)
      ensures Valid() && open && received == [] && taken == [] && sent == []
      ensures this.raw == raw && reader.decryptor.suite == readSuite && writer.encryptor.suite == writeSuite
      ensures this.readNonce == readNonce && this.writeNonce == writeNonce && before == raw.written
    {
      this.raw := raw;
      reader := new DecryptionStream(readSuite, readNonce);
      writer := new EncryptionStream(writeSuite, writeNonce);
      lastReadSize, lastWriteSize, open := 0, 0, true;
      this.readNonce, this.writeNonce, before := readNonce, writeNonce, raw.written;
      received, taken, sent := [], [], [];
    }

    method Close()
      modifies this`open, raw`isOpen
      ensures !open && !raw.isOpen
    {
      open := false;
      raw.Close();
    }

    // Takes ciphertext from the raw stream until there is plaintext, the stream ends, or the
    // ciphertext is bad.
    method Await() returns (ok: bool)
      requires ReaderValid() && open && lastReadSize == 0
      modifies this`received, this`open, raw`incoming, raw`isOpen
      modifies reader.stream, reader.stream.buffer, reader.decryptor
      ensures ReaderValid() && (reader.stream.buffer == old(reader.stream.buffer) || fresh(reader.stream.buffer))
      ensures old(received) <= received
      ensures received + raw.incoming == old(received) + old(raw.incoming)
      ensures ok == open && raw.isOpen == (ok && old(raw.isOpen))
      ensures ReadNoFurther(reader.decryptor.suite, readNonce, old(received), received, |taken| + 1)
      ensures ok && reader.State().processed == [] ==> raw.incoming == [] && Parsing().residue == []
      ensures !ok ==> !Parsing().ok || (raw.incoming == [] && Parsing().residue != [])
    {
      hide Parse, ReadNoFurther;
      ghost var suite, wanted := reader.decryptor.suite, |taken| + 1;
      NothingRead(suite, readNonce, received, wanted);
      while reader.stream.processedBytes == 0
        invariant ReaderValid() && open && lastReadSize == 0
        invariant reader.stream.buffer == old(reader.stream.buffer) || fresh(reader.stream.buffer)
        invariant old(received) <= received
        invariant received + raw.incoming == old(received) + old(raw.incoming)
        invariant raw.isOpen == old(raw.isOpen)
        invariant ReadNoFurther(suite, readNonce, old(received), received, wanted)
        decreases |raw.incoming|
      {
        var encBytes := raw.ReadSome(65536);
        if encBytes == [] {
          ok := End();
          return;
        }
        ghost var rest, first := raw.incoming, received;
        NextBytes(suite, readNonce, first, taken, reader.State());
        ok := Feed(encBytes);
        assert received + rest == old(received) + old(raw.incoming);
        OnePieceRead(suite, readNonce, first, received, wanted);
        MoreRead(suite, readNonce, old(received), first, received, wanted);
        if !ok {
          return;
        }
      }
      return true;
    }

    // The raw stream has ended: cleanly, if no part of a frame is left over.
    method End() returns (clean: bool)
      requires ReaderValid() && open && lastReadSize == 0 && reader.State().processed == []
      modifies this`open, raw`isOpen, reader.stream
      ensures ReaderValid() && fresh(reader.stream.buffer)
      ensures clean == open == (Parsing().residue == []) && raw.isOpen == (clean && old(raw.isOpen))
      ensures reader.State().processed == []
    {
      hide Parse;
      clean := reader.Close();
      if !clean {
        Close();
      }
    }

    // Shows the plaintext that comes next without using it up. What the last read showed is
    // dropped first.
    method PeekNoCopy() returns (r: ReadResult)
      requires Valid()
      modifies this`lastReadSize, this`open, this`received, raw`incoming, raw`isOpen
      modifies reader.stream, reader.stream.buffer, reader.decryptor
      ensures Valid() && (reader.stream.buffer == old(reader.stream.buffer) || fresh(reader.stream.buffer))
      ensures r.InvalidState? <==> !old(open)
      ensures r.InvalidState? ==> unchanged(this) && raw.incoming == old(raw.incoming)
      ensures raw.isOpen == (!r.DataError? && old(raw.isOpen))
      ensures old(received) <= received
              && ReadNoFurther(reader.decryptor.suite, readNonce, old(received), received, |taken| + 1)
      ensures received + raw.incoming == old(received) + old(raw.incoming)
      ensures r.Data? ==>
                && open && Parsing().ok && lastReadSize == 0 && r.bytes == reader.State().processed
                && |taken| <= |Decrypted()| && r.bytes == Decrypted()[|taken|..]
      ensures r.Data? && r.bytes == [] ==> raw.incoming == [] && Parsing().residue == []
      ensures r.DataError? ==>
                !open && (!Parsing().ok || (raw.incoming == [] && Parsing().residue != []))
    {
      hide Parse, WriterOk, ReaderOk, Plaintext, ReadNoFurther;
      NothingRead(reader.decryptor.suite, readNonce, received, |taken| + 1);
      if !open {
        return InvalidState;
      }
      if lastReadSize > 0 {
        SkipShown();
      }
      assert WriterValid();
      var ok := Await();
      assert WriterValid();
      if !ok {
        return DataError;
      }
      NextBytes(reader.decryptor.suite, readNonce, received, taken, reader.State());
      r := Data(reader.stream.buffer[..reader.stream.processedBytes]);
    }

    // Drops what the last read showed.
    method SkipShown()
      requires ReaderValid() && open
      modifies this`lastReadSize, reader.stream
      ensures ReaderValid() && lastReadSize == 0
      ensures reader.stream.buffer == old(reader.stream.buffer) || fresh(reader.stream.buffer)
    {
      hide Parse;
      ghost var dec := reader.State();
      var n := reader.stream.Skip(lastReadSize);
      lastReadSize := 0;
      assert reader.State().processed[0..] == dec.processed[n..];
    }

    // Pushes ciphertext into the decryption stream, and closes if it is bad.
    method Feed(data: seq<Octet>) returns (ok: bool)
      requires ReaderValid() && open && lastReadSize == 0
      modifies this`received, this`open, raw`isOpen
      modifies reader.stream, reader.stream.buffer, reader.decryptor
      ensures ReaderValid() && fresh(reader.stream.buffer)
      ensures received == old(received) + data && ok == open == Parsing().ok
      ensures raw.isOpen == (ok && old(raw.isOpen))
    {
      hide Parse;
      FeedReader(reader.decryptor.suite, readNonce, received, taken, reader.State(), data);
      ok := reader.PushData(data);
      received := received + data;
      if !ok {
        Close();
      }
    }

    // Returns up to maxLen bytes of the plaintext that comes next, and uses them up.
    method ReadNoCopy(maxLen: nat) returns (r: ReadResult)
      requires Valid()
      modifies this`lastReadSize, this`open, this`received, this`taken, raw`incoming, raw`isOpen
      modifies reader.stream, reader.stream.buffer, reader.decryptor
      ensures Valid() && (reader.stream.buffer == old(reader.stream.buffer) || fresh(reader.stream.buffer))
      ensures r.InvalidState? <==> !old(open)
      ensures raw.isOpen == (!r.DataError? && old(raw.isOpen))
      ensures received + raw.incoming == old(received) + old(raw.incoming)
      ensures old(received) <= received
              && ReadNoFurther(reader.decryptor.suite, readNonce, old(received), received, |old(taken)| + 1)
      ensures r.Data? ==> |r.bytes| == Min(maxLen, |reader.State().processed|) == lastReadSize
      ensures taken == if r.Data? then old(taken) + r.bytes else old(taken)
      ensures r.Data? ==> Parsing().ok && |r.bytes| <= maxLen && taken <= Decrypted()
      ensures r.Data? && r.bytes == [] && maxLen > 0 ==>
                raw.incoming == [] && Parsing().residue == [] && taken == Decrypted()
      ensures r.DataError? ==>
                !open && (!Parsing().ok || (raw.incoming == [] && Parsing().residue != []))
    {
      hide Parse, WriterOk, ReaderOk, Plaintext, ReadNoFurther;
      r := PeekNoCopy();
      if r.Data? {
        var size := Min(maxLen, |r.bytes|);
        TakeSome(reader.decryptor.suite, readNonce, received, taken, reader.State(), size);
        lastReadSize := size;
        r := Data(r.bytes[..size]);
        taken := taken + r.bytes;
      }
    }

    // Encrypts the buffers as one flush and passes the ciphertext on. What the last write
    // passed on is dropped first.
    method WriteBuffers(buffers: seq<seq<Octet>>) returns (ok: bool)
      requires Valid()
      modifies this`lastWriteSize, this`sent, raw`written
      modifies writer.stream, writer.stream.buffer, writer.encryptor
      ensures Valid() && (writer.stream.buffer == old(writer.stream.buffer) || fresh(writer.stream.buffer))
      ensures ok == old(open)
      ensures old(sent) <= sent && Concat(sent) == Concat(old(sent)) + (if ok then Joined(buffers) else [])
      ensures ok ==> |sent| == |old(sent)| + CeilDiv(|Joined(buffers)|, MAX_MESSAGE_SIZE)
      ensures !ok ==> sent == old(sent)
      ensures old(raw.written) <= raw.written
    {
      hide Parse, ReaderOk, WriterOk, PushPartial, Flush;
      DropWritten();
      if !open {
        assert Concat(sent) + [] == Concat(sent);
        return false;
      }
      PassOn(buffers);
      return true;
    }

    // Drops what the last write passed on.
    method DropWritten()
      requires WriterValid()
      modifies this`lastWriteSize, writer.stream
      ensures WriterValid() && lastWriteSize == 0
      ensures writer.stream.buffer == old(writer.stream.buffer) || fresh(writer.stream.buffer)
    {
      hide WriterOk;
      ghost var enc := writer.State();
      DropShown(writer.encryptor.suite, writeNonce, sent, before, raw.written, enc, lastWriteSize);
      var n := writer.stream.Skip(lastWriteSize);
      assert writer.State() == enc.(processed := enc.processed[n..]);
      lastWriteSize := 0;
    }

    method PassOn(buffers: seq<seq<Octet>>)
      requires WriterValid() && lastWriteSize == 0
      modifies this`lastWriteSize, this`sent, raw`written
      modifies writer.stream, writer.stream.buffer, writer.encryptor
      ensures WriterValid() && (writer.stream.buffer == old(writer.stream.buffer) || fresh(writer.stream.buffer))
      ensures old(sent) <= sent && Concat(sent) == Concat(old(sent)) + Joined(buffers)
      ensures |sent| == |old(sent)| + CeilDiv(|Joined(buffers)|, MAX_MESSAGE_SIZE)
      ensures old(raw.written) <= raw.written
    {
      hide WriterOk, Push;
      ghost var ms := WriteMore(writer.encryptor.suite, writeNonce, sent, before, raw.written,
                                writer.State(), Joined(buffers));
      PushAndFlush(writer, buffers);
      var encBytes := writer.stream.buffer[..writer.stream.processedBytes];
      lastWriteSize := |encBytes|;
      sent := sent + ms;
      raw.Write(encBytes);
    }
  }

  // -------------------------------------------------------------------------------------
  // kj

  class WrappedStream {
    const raw: RawStream<Octet>
    const decryptor: DecryptionStream
    const encryptor: EncryptionStream

    ghost const readNonce: Nonce
    ghost const writeNonce: Nonce
    ghost const before: seq<Octet>
    ghost var received: seq<Octet>
    ghost var taken: seq<Octet>
    ghost var sent: seq<Message>

    ghost predicate ReaderValid()
      reads this`received, this`taken
      reads decryptor, decryptor.stream, decryptor.stream.buffer, decryptor.decryptor
    {
      && decryptor.Valid()
      && ReaderOk(decryptor.decryptor.suite, readNonce, received, taken, decryptor.State(), 0)
    }

    ghost predicate WriterValid()
      reads this`sent, raw`written
      reads encryptor, encryptor.stream, encryptor.stream.buffer, encryptor.encryptor
    {
      && encryptor.Valid()
      && WriterOk(encryptor.encryptor.suite, writeNonce, sent, before, raw.written, encryptor.State(), 0)
    }

    ghost function Parsing(): Parsed
      reads this, decryptor, decryptor.decryptor
    {
      Parse(decryptor.decryptor.suite, readNonce, received)
    }

    constructor (raw: RawStream<Octet>, readSuite: Suite, readNonce: Nonce, writeSuite: Suite, writeNonce: Nonce)
      ensures ReaderValid() && WriterValid() && received == [] && taken == [] && sent == []
      ensures decryptor.stream != encryptor.stream && decryptor.stream.buffer != encryptor.stream.buffer
      ensures this.raw == raw && this.readNonce == readNonce && this.writeNonce == writeNonce
      ensures before == raw.written
      ensures decryptor.decryptor.suite == readSuite && encryptor.encryptor.suite == writeSuite
    {
      this.raw := raw;
      decryptor := new DecryptionStream(readSuite, readNonce);
      encryptor := new EncryptionStream(writeSuite, writeNonce);
      this.readNonce, this.writeNonce, before := readNonce, writeNonce, raw.written;
      received, taken, sent := [], [], [];
    }

    // Reads until minBytes of plaintext are there, and returns up to maxBytes. None stands for
    // the exception on corrupt data; nothing is returned when the raw stream ends first.
    method TryRead(minBytes: nat, maxBytes: nat) returns (r: Option<seq<Octet>>)
      requires ReaderValid() && minBytes <= maxBytes
      modifies this`received, this`taken, raw`incoming
      modifies decryptor.stream, decryptor.stream.buffer, decryptor.decryptor
      ensures ReaderValid()
      ensures decryptor.stream.buffer == old(decryptor.stream.buffer) || fresh(decryptor.stream.buffer)
      ensures received + raw.incoming == old(received) + old(raw.incoming)
      ensures taken == old(taken) + (if r.Some? then r.value else [])
      ensures taken <= Concat(Parsing().messages)
      ensures received == old(received) ==> r.Some?
      ensures received != old(received) ==> (r.None? <==> !Parsing().ok)
      ensures |old(decryptor.State()).processed| >= minBytes ==> received == old(received)
      ensures old(received) <= received
              && ReadNoFurther(decryptor.decryptor.suite, readNonce, old(received), received, |old(taken)| + minBytes)
      ensures r.Some? ==>
                var left := decryptor.State().processed;
                if |r.value| >= minBytes then |r.value| <= maxBytes && (|r.value| == maxBytes || left == [])
                else r.value == [] && raw.incoming == [] && |left| < minBytes
      decreases |raw.incoming|
    {
      hide Parse, ReaderOk, ReadNoFurther;
      ghost var suite, wanted := decryptor.decryptor.suite, |taken| + minBytes;
      NothingRead(suite, readNonce, received, wanted);
      NextBytes(suite, readNonce, received, taken, decryptor.State());
      assert taken + [] == taken;
      if decryptor.stream.processedBytes >= minBytes {
        var data := Take(maxBytes);
        return Some(data);
      }
      var encBytes := raw.ReadSome(maxBytes);
      if encBytes == [] {
        return Some([]);
      }
      ghost var rest := raw.incoming;
      var ok := Feed(encBytes);
      ghost var first := received;
      assert first + rest == old(received) + old(raw.incoming);
      OnePieceRead(suite, readNonce, old(received), first, wanted);
      if !ok {
        return None;
      }
      r := TryRead(minBytes, maxBytes);
      MoreRead(suite, readNonce, old(received), first, received, wanted);
    }

    method Take(maxBytes: nat) returns (data: seq<Octet>)
      requires ReaderValid()
      modifies this`taken, decryptor.stream
      ensures ReaderValid()
      ensures decryptor.stream.buffer == old(decryptor.stream.buffer) || fresh(decryptor.stream.buffer)
      ensures data == old(decryptor.State()).processed[..Min(maxBytes, |old(decryptor.State()).processed|)]
      ensures decryptor.State().processed == old(decryptor.State()).processed[|data|..]
      ensures taken == old(taken) + data && taken <= Concat(Parsing().messages)
    {
      hide Parse, ReaderOk;
      ghost var dec := decryptor.State();
      TakeSome(decryptor.decryptor.suite, readNonce, received, taken, dec, Min(maxBytes, |dec.processed|));
      data := decryptor.stream.Pull(maxBytes);
      taken := taken + data;
    }

    method Feed(data: seq<Octet>) returns (ok: bool)
      requires ReaderValid()
      modifies this`received, decryptor.stream, decryptor.stream.buffer, decryptor.decryptor
      ensures ReaderValid() && fresh(decryptor.stream.buffer)
      ensures received == old(received) + data && ok == Parsing().ok
      ensures taken <= Concat(Parsing().messages)
    {
      hide Parse, ReaderOk;
      FeedReader(decryptor.decryptor.suite, readNonce, received, taken, decryptor.State(), data);
      ok := decryptor.PushData(data);
      received := received + data;
      TakeSome(decryptor.decryptor.suite, readNonce, received, taken, decryptor.State(), 0);
      assert taken + [] == taken;
    }

    // Encrypts the pieces as one flush, writes the ciphertext and drops it.
    method WritePieces(pieces: seq<seq<Octet>>)
      requires WriterValid()
      modifies this`sent, raw`written
      modifies encryptor.stream, encryptor.stream.buffer, encryptor.encryptor
      ensures WriterValid()
      ensures encryptor.stream.buffer == old(encryptor.stream.buffer) || fresh(encryptor.stream.buffer)
      ensures old(sent) <= sent && Concat(sent) == Concat(old(sent)) + Joined(pieces)
      ensures |sent| == |old(sent)| + CeilDiv(|Joined(pieces)|, MAX_MESSAGE_SIZE)
      ensures old(raw.written) <= raw.written
    {
      hide WriterOk, Push;
      ghost var ms := WriteMore(encryptor.encryptor.suite, writeNonce, sent, before, raw.written,
                                encryptor.State(), Joined(pieces));
      PushAndFlush(encryptor, pieces);
      sent := sent + ms;
      ghost var enc := encryptor.State();
      EndWrite();
      DropShown(encryptor.encryptor.suite, writeNonce, sent, before, raw.written, enc, |enc.processed|);
      assert enc.processed[|enc.processed|..] == [];
    }

    // Writes what is available and drops it once it is written.
    method EndWrite()
      requires encryptor.Valid()
      modifies raw`written, encryptor.stream
      ensures encryptor.Valid()
      ensures encryptor.stream.buffer == old(encryptor.stream.buffer) || fresh(encryptor.stream.buffer)
      ensures raw.written == old(raw.written) + old(encryptor.State()).processed
      ensures encryptor.State() == old(encryptor.State()).(processed := [])
    {
      var avail := encryptor.stream.buffer[..encryptor.stream.processedBytes];
      raw.Write(avail);
      ghost var enc := encryptor.State();
      var n := encryptor.stream.Skip(|avail|);
      assert encryptor.State() == enc.(processed := enc.processed[n..]);
      assert enc.processed[n..] == [];
    }
  }

  method PushAll(writer: EncryptionStream, buffers: seq<seq<Octet>>)
    requires writer.Valid()
    modifies writer.stream, writer.stream.buffer, writer.encryptor
    ensures writer.Valid()
    ensures writer.stream.buffer == old(writer.stream.buffer) || fresh(writer.stream.buffer)
    ensures writer.State() == PushPartials(writer.encryptor.suite, old(writer.State()), buffers)
  {
    hide PushPartial;
    var i := 0;
    assert buffers[0..] == buffers;
    while i < |buffers|
      invariant 0 <= i <= |buffers| && writer.Valid()
      invariant writer.stream.buffer == old(writer.stream.buffer) || fresh(writer.stream.buffer)
      invariant PushPartials(writer.encryptor.suite, writer.State(), buffers[i..])
             == PushPartials(writer.encryptor.suite, old(writer.State()), buffers)
    {
      writer.PushPartialData(buffers[i]);
      assert buffers[i..][1..] == buffers[i + 1..];
      i := i + 1;
    }
  }

  method PushAndFlush(writer: EncryptionStream, buffers: seq<seq<Octet>>)
    requires writer.Valid()
    modifies writer.stream, writer.stream.buffer, writer.encryptor
    ensures writer.Valid()
    ensures writer.stream.buffer == old(writer.stream.buffer) || fresh(writer.stream.buffer)
    ensures writer.State() == Push(writer.encryptor.suite, old(writer.State()), Joined(buffers))
  {
    hide PushPartial, Flush;
    ChunkingIndependence(writer.encryptor.suite, writer.State(), buffers);
    PushAll(writer, buffers);
    writer.FlushPending();
  }
}
