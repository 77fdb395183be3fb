# Secret Handshake, modelled and proved in Dafny

Two peers run the Secret Handshake over a byte stream, derive a session, and then exchange an
encrypted byte stream in each direction. This project models the handshake's cryptography, its
step machine, the frame formats and stream adapters that follow it, and the two programs that
drive them over a raw stream (crouton and kj), and proves what they promise together.

The result everything builds to is `EndToEnd.Connection`: one byte channel in each direction carries
the handshake and, behind it, the encrypted stream. However both are cut up and scheduled, and
however early a finished server begins to send, each handshake takes exactly its own bytes, and each
direction delivers exactly what was pushed into it, in order, in both wire formats. By
`EndToEnd.CanDeliver`, from every such state all of it can still be delivered.

## How the model is built

| file | what it holds |
|---|---|
| `Prelude.dfy`, `Octets.dfy`, `Ciphers.dfy` | options and raw streams; bytes, length prefixes, authenticated ciphers, nonces modulo 2^192 |
| `Frames.dfy`, `FrameStreams.dfy`, `Nonces.dfy` | one frame; many frames: printing, parsing, cutting plaintext into messages; which nonces are used |
| `CryptoBoxes.dfy`, `StreamStates.dfy`, `CryptoStreams.dfy` | the boxes over raw memory; the adapters' state on values; the adapters as objects that work in place |
| `StreamRuns.dfy` | all runs of a sender, a wire and a receiver |
| `Symbolic.dfy`, `HandshakeCore.dfy`, `Agreement.dfy` | symbolic cryptography; what each message proves |
| `HandshakeSteps.dfy`, `HandshakeRuns.dfy`, `HandshakeHistories.dfy`, `HandshakeClaims.dfy` | the step machine; its runs on arbitrary input; its state as a function of its transcript; what a peer may conclude |
| `Deduction.dfy`, `Worlds.dfy`, `Authentication.dfy` | what an attacker can make; any number of runs on a network it controls; what a run may conclude there |
| `Network.dfy` | faithful delivery as one of the attacker's choices |
| `Divergence.dfy` | how two peers finish without sharing their session keys |
| `TwoParty.dfy` | a client and a server joined by two FIFO channels |
| `Drivers.dfy`, `SecretStreams.dfy` | the crouton and kj handshake drivers and encrypted streams |
| `EndToEnd.dfy` | the handshake and the streams behind it, on one channel in each direction |

Objects the program changes in place are classes. Each method is proved equal to a function on the
object's abstract state, and the theorems are about those functions.

What stands in for code that is not part of this model:

- **Ciphers of the stream.** Any cipher will do whose MAC has 16 bytes, whose ciphertext is as long
  as its plaintext, and whose `open` accepts exactly what `seal` makes. Every theorem holds for all
  of them. The primitives read all their input before they write, so buffers may overlap, and they
  write nothing when they fail.
- **Cryptography of the handshake.** Hashes, HMACs, keys, signatures and boxes are free terms, each
  with the byte length it has on the wire. A byte of a message is a plain octet or one byte of such a
  term, so messages can be fragmented, forged and replayed byte by byte.
- **Points of the curve.** A point is a product of powers of scalars, negative ones included, times a
  base: scalars can be multiplied and divided, in any number and order, and not added. Points are
  taken as scalars see them. X25519 scalars are multiples of 8, so points that differ by one of low
  order give every scalar the same product, and count as one. Each is read from any number of
  strings, of which the library writes one and reads all: as section 5 of RFC 7748 requires, the top
  bit of a key is ignored and coordinates are taken modulo the prime. Of these strings, those of
  octets alone are read as the numbers they are, and each number of higher order counts as a base of
  its own. Points of low order give every scalar the same product, thirty-two zeros. An Ed25519 key
  likewise has other forms, the strings that convert to a key scalars do not tell from its own.
  Anything may be passed where a public key is expected.
- **The attacker** of `Deduction.dfy` delivers whatever it can make by joining, cutting, hashing,
  boxing, opening boxes it has the key of, signing, and multiplying and dividing keys, out of octets,
  public keys and what honest runs have let out. It is given by the signing keys it cannot sign with
  and the scalars it does not hold, two sets the theorems quantify over; everything else is its own.
  It multiplies no two secret scalars together and divides by none.
- **Ephemeral keys** are parameters, as are the raw streams' contents and the sizes of the chunks
  they come in. `std::logic_error` is the value `Threw`.

## Where the code departs from what one might expect

- When a frame's size cannot be known yet, `peek` reports the length it needs in `encryptedSize`;
  its documentation says `decryptedSize`. The model follows the code.
- A Compact frame's authentication is judged by comparing sizes, and a failed unbox yields no
  bytes. A frame that announces zero bytes is therefore accepted whatever its MAC. The model keeps
  this. `Frames.UnsealedEmptyFrame` exhibits such a frame for every key and nonce, and
  `Frames.AuthenticatesIff` shows that acceptance implies authenticity exactly for BoxStream and for
  announced lengths above zero.
- A handshake that has failed with an authentication error reports a protocol error instead when it
  is failed again, by `readFailed`, or by `readCompleted` once `bytesToRead` has emptied its buffer
  (`HandshakeRuns.FailingAgain`); every client a server turns down leads there
  (`TwoParty.AuthErrorIsLost`). Through the fragmented API the error is final
  (`HandshakeRuns.StoppedIsFinal`).
- The nonces of a session are made from the bytes of the ephemeral keys and the session keys from
  their points. A client given another encoding of the server's ephemeral key, under an HMAC that
  matches it, finishes with the server on mirrored keys and different nonces
  (`HandshakeClaims.ReencodedKey`). `HandshakeClaims.RunsAgree` shows that the nonces mirror exactly
  when each side has received the other's key byte for byte, and `TwoParty.EveryRunIsSafe` that they
  always do when nothing tampers with the channels.
- The signatures of the handshake cover a.b and not the ephemeral keys, and other keys may give the
  two peers one a.b: points of low order (`Divergence.LowOrderKeysDiverge`), and for every point the
  client could be given some point for the server (`Divergence.OtherKeysDiverge`). Both peers then
  finish, if somebody who has the keys of the boxes makes them anew, and share their session keys
  only if the client was given the server's own point. So against an attacker that holds every scalar
  the signatures alone give one a.b, and `Authentication.ClientAuthentication` says exactly when the
  session keys are shared too. Against one that holds neither the client's ephemeral scalar nor the
  server's long-term one they always are (`Authentication.ClientSharesKeys`).

## Model

| member | source | states |
|---|---|---|
| EndToEnd.Connection | src/SecretHandshake.cc:136-209 | on one channel per direction, for every schedule, fragmentation and use of the streams, the server writing behind its acknowledgement included: the handshake is safe, a finished client has taken exactly 144 bytes and a finished server 176 and left the rest to their decryption streams, and both directions are FIFO and lossless, for every cipher and protocol |
| EndToEnd.StepKeeps | src/SecretHandshake.cc:136-209 | every send, read and use of the streams keeps the joint invariant: seen apart, the front of each channel is a handshake and the rest a stream |
| EndToEnd.ReadsOnlyHandshake | src/SecretHandshake.cc:136-153 | a client still in its handshake takes none of the ciphertext that lies behind the acknowledgement, however much is handed over |
| EndToEnd.CanDeliver | src/SecretHandshake.cc:91-209 | from every reachable state of a good setup some schedule finishes both peers and drains both directions, with everything that had been pushed pulled at the other end |
| EndToEnd.ChannelsCarry | include/SecretStream.hh:201-245 | once the client has finished, the ciphertext of each direction is the printed form of non-empty messages holding what was pushed but the pending part, under the key and from the nonce the protocol prescribes for that direction, in terms of the keys the peers were set up with |
| StreamRuns.Fifo | src/SecretStream.cc:209-294 | for every interleaving of push, pushPartial, flush and pull and every fragmentation: pulled is a prefix of pushed, no push is rejected, and they are equal once drained |
| StreamRuns.StepInv | src/SecretStream.cc:209-294 | every action keeps the history invariant: the ciphertext so far is whole non-empty frames of all plaintext but the pending part, and the receiver stands where one parse of the delivered bytes would |
| StreamRuns.DrainingDelivers | src/SecretStream.cc:253-294 | from every reachable state, a flush followed by transferring and pulling everything delivers all that was pushed |
| StreamRuns.NonceDiscipline | src/SecretStream.cc:97-115 | in every reachable state the ciphertext is the printed messages, and each end's nonce is the first plus the messages it handled, times one or two, modulo 2^192 |
| StreamRuns.CorruptionIsPermanent | src/SecretStream.cc:267-294 | after a rejected push every later push is rejected whatever is pushed or pulled between, the nonce stays, and the plaintext stays exactly what was decoded before |
| StreamRuns.RejectionIsFinal | src/SecretStream.cc:267-294 | from a new decryption stream, however it is used: once a push has returned false every later one does, and neither the nonce nor the plaintext moves again |
| Frames.DecodeFrame | src/SecretStream.cc:87-203 | a frame decodes to its message whatever follows it, in both protocols |
| Frames.DecodeStable | src/SecretStream.cc:165-203 | a verdict on the first frame never changes as more input arrives |
| Frames.DecodePrefix | src/SecretStream.cc:165-203 | every proper prefix of a frame is incomplete |
| Frames.PeekStable | src/SecretStream.cc:121-157 | sizes known from the first bytes stay the same on every extension and agree with encryptedSize |
| Frames.PeekFrame | src/SecretStream.cc:121-157 | peeking at a frame gives its message's two sizes |
| Frames.PeekAsks | src/SecretStream.cc:121-157 | given any part of a frame, peek either knows both sizes, from 2 or 34 bytes on, or reports size zero and asks for more bytes than it has and no more than the frame has, with which it then knows them |
| Frames.PeekRefuses | src/SecretStream.cc:121-157 | sizes are refused, with zeros, exactly where 34 bytes of BoxStream input are not the box of any header under the second nonce |
| Frames.DecodeExact | src/SecretStream.cc:165-203 | an accepted frame is the one its message prints, unless it is an empty Compact one |
| Frames.DecodeVerdict | src/SecretStream.cc:165-203 | for every input: incomplete exactly while shorter than it says, rejected exactly if its sizes are refused or all of it is there and it is not the frame of any message, except for an empty Compact frame |
| Frames.TamperedIsRejected | src/SecretStream.cc:179-196 | a frame changed behind the bytes that tell its size, and not into the frame of another message, is rejected whatever follows |
| Frames.CompactLayout | src/SecretStream.cc:110-116 | on the wire, in terms of the cipher alone: two big-endian length bytes, then a MAC and a ciphertext that open to the message under the nonce |
| Frames.BoxStreamLayout | src/SecretStream.cc:98-109 | on the wire, in terms of the cipher alone: 34 bytes that open under the second nonce to the length and the body's MAC, then a ciphertext that opens with that MAC under the first nonce to the message |
| Frames.AuthenticatesIff | src/SecretStream.cc:194-196 | acceptance implies that the frame was sealed if and only if the protocol is BoxStream or the announced length is above zero |
| Frames.UnsealedEmptyFrame | src/SecretStream.cc:194-196 | for every key and nonce, a Compact frame that was not sealed and is accepted as an empty message |
| FrameStreams.ParsePrint | src/SecretStream.cc:267-294 | parsing printed messages gives them back with nothing left over and the nonce advanced by their number |
| FrameStreams.ParseAppend | src/SecretStream.cc:267-294 | parsing resumes at any split: residue, nonce, messages and verdict are those of one parse, and a rejection is never forgotten |
| FrameStreams.ParseExact | src/SecretStream.cc:267-294 | for every input, message i was read from its own frame under nonce i at its own offset; of an empty Compact message only the zero length is certain |
| FrameStreams.ParseLeaves | src/SecretStream.cc:267-294 | the residue is the input from where the last message ends |
| FrameStreams.ParseReprints | src/SecretStream.cc:267-294 | unless a parsed message is an empty Compact one, the input is the printed form of its messages followed by the residue |
| FrameStreams.ParseStops | src/SecretStream.cc:272-293 | the residue holds no complete frame and the nonce counts the messages |
| FrameStreams.SplitConcat | src/SecretStream.cc:236-250 | cutting plaintext into messages loses nothing |
| FrameStreams.SplitSizes | src/SecretStream.cc:236-250 | every message cut off while more follows has the largest size |
| FrameStreams.SplitAppend | src/SecretStream.cc:236-250 | handing text over in two pieces leaves the cuts where they would have fallen |
| FrameStreams.PrintSize | src/SecretStream.cc:72-79 | ciphertext is the plaintext plus one overhead per message |
| StreamStates.ChunkingIndependence | src/SecretStream.cc:236-250 | the effect of any sequence of pushPartial calls depends only on the concatenation of their arguments |
| StreamStates.PushExpansion | src/SecretStream.cc:230-264 | n bytes pushed and flushed make ceil(n/65535) non-empty frames holding exactly those bytes, and n plus that many overheads of ciphertext |
| StreamStates.FragmentationIndependence | src/SecretStream.cc:267-294 | any fragmentation of ciphertext gives the plaintext, residue, nonce and verdict of one push of the whole |
| StreamStates.ReceiveAppend | src/SecretStream.cc:267-294 | two pushes are one push of the concatenation, the verdict included |
| StreamStates.ReceiveSettles | src/SecretStream.cc:272-293 | no complete frame waits after a push, and its verdict can be read off the state it leaves |
| StreamStates.TamperingIsCaught | src/SecretStream.cc:267-294 | a push that holds a changed frame behind any messages returns false; the messages before it are decrypted, it and what follows stay, and so does the nonce |
| Nonces.AdvanceByCounts | src/SecretStream.cc:97-115 | after k messages the nonce has moved by k, or by 2k, modulo 2^192 |
| Nonces.NoncesDistinct | src/SecretStream.cc:97-115 | fewer than 2^192 consecutive nonces are all different |
| CryptoBoxes.EncryptoBox.Encrypt | src/SecretStream.cc:87-118 | over any overlapping memory, writes exactly the frame of the old input and nothing else; too large and too small arguments change nothing |
| CryptoBoxes.EncryptoBox.NoNonceTwice | src/SecretStream.cc:97-115 | in any history of encryptions using at most 2^192 nonces, no nonce is handed to the cipher twice |
| CryptoBoxes.EncryptoBox.Lock | src/SecretStream.cc:105-113 | calls the cipher under the current nonce and records that nonce as used |
| CryptoBoxes.EncryptoBox.Increment | src/SecretStream.cc:106-114 | moves on exactly from a nonce the cipher has just been given |
| CryptoBoxes.DecryptoBox.DecryptBoxStreamHeader | src/SecretStream.cc:121-139 | opens the boxed header under the second nonce without moving the session's |
| CryptoBoxes.DecryptoBox.PeekSizes | src/SecretStream.cc:147-157 | reports the status and sizes of the next frame without changing anything |
| CryptoBoxes.DecryptoBox.Decrypt | src/SecretStream.cc:165-203 | over any overlapping memory, writes exactly the plaintext of the old input's first frame and nothing else; on any other status nothing changes |
| CryptoBoxes.DecryptoBox.DecryptInPlace | src/SecretStream.cc:274-283 | decrypting a frame over itself writes its plaintext at its start and leaves everything before it and after it where it is |
| CryptoBoxes.EncryptoBox.EncryptBoxStream | src/SecretStream.cc:98-109 | body first, header second, under two nonces: exactly the frame of the old input, even over itself |
| CryptoBoxes.EncryptoBox.EncryptCompact | src/SecretStream.cc:110-116 | box first, length second: exactly the frame of the old input, even over itself |
| CryptoBoxes.RoomInPlace | src/SecretStream.cc:286-291 | OutTooSmall cannot occur when decrypting in place |
| CryptoBoxes.RoomForMessage | src/SecretStream.cc:174-192 | a frame decrypts for every capacity of at least its message, and is OutTooSmall for every smaller one |
| CryptoBoxes.NoRoomForTampered | src/SecretStream.cc:174-196 | a changed frame is CorruptData for every capacity of at least the message it was, and OutTooSmall for every smaller one |
| CryptoStreams.CryptoStream.Skip | src/SecretStream.cc:209-216 | drops up to the processed bytes from the front and leaves the unprocessed ones |
| CryptoStreams.CryptoStream.Pull | src/SecretStream.cc:219-227 | returns and drops the first processed bytes |
| CryptoStreams.EncryptionStream.FlushPending | src/SecretStream.cc:253-264 | encrypts the pending plaintext in place into one frame after the processed bytes, or does nothing when there is none |
| CryptoStreams.EncryptionStream.PushChunk | src/SecretStream.cc:240-249 | one step of the loop moves a chunk, or moves nothing and empties a full buffer |
| CryptoStreams.EncryptionStream.PushPartialData | src/SecretStream.cc:236-250 | cuts and encrypts as the whole text would be cut, terminating although a step can move no byte, with never more than 65535 bytes pending |
| CryptoStreams.EncryptionStream.PushData | src/SecretStream.cc:230-233 | pushes and flushes |
| CryptoStreams.DecryptionStream.DecryptFirst | src/SecretStream.cc:273-292 | decrypts the first frame in place and closes the gap, leaving every processed byte and every later byte intact |
| CryptoStreams.DecryptionStream.PushData | src/SecretStream.cc:267-294 | leaves the state and returns the verdict of the recursive parser, terminating on the unprocessed bytes |
| CryptoStreams.DecryptionStream.Close | src/SecretStream.cc:297-302 | is clean exactly when nothing is unprocessed, and empties the buffer |
| Agreement.ClientAgreement | src/shs.cc:204-212 | an acknowledgement the client accepts, if made by some server run, was made by the server it wanted for its own messages: same app ID, each other's long-term keys and ephemeral points, same a.b, a.B, A.b and H, mirrored session keys, and mirrored nonces exactly if each received the other's ephemeral key byte for byte; no assumption on delivery or on distinct ephemerals |
| Agreement.ServerAgreement | src/shs.cc:228-241 | an identity the server accepts, if made by some client run, was made for this server and this exchange, with the same agreement |
| Agreement.SamePointsFinish | src/shs.cc:191-248 | conversely, a client that wants this server and a server, each holding the other's ephemeral point in whatever encoding, accept each other's messages |
| Agreement.KeysMirrorExactly | src/shs.cc:142-169 | for a client and a server with each other's long-term keys, one H and one a.b, the session keys mirror if and only if the client received the server's ephemeral point |
| Agreement.NoncesMirrorExactly | src/shs.cc:152-156 | each nonce is shared if and only if the ephemeral key it is made from was received byte for byte |
| HandshakeCore.HandshakeImpl.VerifyChallenge | src/shs.cc:127-139 | accepts exactly a challenge with the right HMAC, and learns its key and the secrets from it |
| Agreement.ChallengeIsWhole | src/shs.cc:127-133 | a challenge is accepted if and only if all 64 bytes of it are the HMAC of the key it carries, and that key |
| HandshakeCore.HandshakeImpl.CreateClientAuth | src/shs.cc:191-200 | identifies the client and boxes the proof, given the secrets it dereferences |
| HandshakeCore.HandshakeImpl.VerifyClientAuth | src/shs.cc:228-241 | accepts exactly a box that opens to a signature over K, Bp and the hash of a.b by the key it carries |
| HandshakeCore.HandshakeImpl.CreateServerAck | src/shs.cc:245-248 | boxes the server's signature under the key of all three secrets, and keeps that key |
| HandshakeCore.HandshakeImpl.VerifyServerAck | src/shs.cc:204-212 | accepts exactly a box that opens to the expected server's signature over K, H and the hash of a.b |
| HandshakeCore.HandshakeImpl.GetOutcome | src/shs.cc:142-158 | the session, given that everything it is derived from is set |
| HandshakeSteps.Handshake.BytesToRead | src/SecretHandshake.cc:99-105 | makes room for exactly the step's message |
| HandshakeSteps.Handshake.ReadCompleted | src/SecretHandshake.cc:108-121 | throws exactly when the buffer is not the step's size; otherwise judges the message and moves on or fails |
| HandshakeSteps.Handshake.ReadFailed | src/SecretHandshake.cc:124-133 | fails with the error of the step |
| HandshakeSteps.Handshake.ReceivedBytes | src/SecretHandshake.cc:136-153 | takes no byte beyond the current message, judges it when complete, and keeps every secret the next step needs |
| HandshakeSteps.Handshake.BytesToSend | src/SecretHandshake.cc:156-164 | the step's message, made once |
| HandshakeSteps.Handshake.SendCompleted | src/SecretHandshake.cc:167-173 | throws exactly when nothing was to be sent; otherwise moves on |
| HandshakeSteps.Handshake.CopyBytesToSend | src/SecretHandshake.cc:176-196 | hands out the next bytes of the step's message and moves on with the last of them |
| HandshakeSteps.Handshake.GetSession | src/SecretHandshake.cc:199-209 | the session exactly when finished, with everything it is derived from set |
| HandshakeSteps.Handshake.ProcessReceived | src/SecretHandshake.cc:253-306 | judges the message of each step for client and server, the authorizer last; every secret it dereferences is set |
| HandshakeSteps.Handshake.FillOutputBuffer | src/SecretHandshake.cc:262-320 | makes the message of each step for client and server; every secret it dereferences is set |
| HandshakeRuns.FragmentsRefineMessages | src/SecretHandshake.cc:99-196 | any run of receivedBytes and copyBytesToSend, however fragmented, emits what the whole-message run on the concatenated input emits and, once it has sent all it can, is in exactly its state |
| HandshakeRuns.RunDrives | src/SecretHandshake.cc:136-196 | every fragmented run is a part of the whole-message run, whatever is still to come |
| HandshakeRuns.StoppedIsFinal | src/SecretHandshake.cc:136-196 | Failed and Finished consume, emit and change nothing, the error included |
| HandshakeRuns.FailingAgain | src/SecretHandshake.cc:108-133 | a failed handshake that is failed again, by readFailed or by completing a read of nothing, stays failed and reports a protocol error whatever it had reported |
| HandshakeRuns.ClientDrives | src/SecretHandshake.cc:244-273 | a client given any challenge that verifies and any acknowledgement: what it sends, and whether it finishes or fails, in terms of the two messages |
| HandshakeRuns.ServerDrives | src/SecretHandshake.cc:287-320 | a server given any challenge that verifies and any identity: what it sends, and whether it finishes or fails, in terms of the two messages and the authorizer |
| HandshakeHistories.ClientHistoryHolds | src/SecretHandshake.cc:244-273 | after any run on any input a client's step, error, buffers, secrets and output are those its transcript explains |
| HandshakeHistories.ServerHistoryHolds | src/SecretHandshake.cc:287-320 | after any run on any input a server's step, error, buffers, secrets and output are those its transcript explains |
| HandshakeClaims.ServerAcceptance | src/SecretHandshake.cc:296-320 | a server that is ready to acknowledge, has let out a byte of its acknowledgement, or has finished, has opened an identity signed over K, its key and the hash of a.b, and had the authorizer accept exactly the key its session reports |
| HandshakeClaims.ClientAcceptance | src/shs.cc:204-212 | a client that has finished, on any input, holds the expected server's signature over K, its own proof and the hash of a.b |
| HandshakeClaims.RunsAgree | src/shs.cc:142-169 | for any two runs fed anything: if the client finished on the acknowledgement the server emitted, they agree on app ID, long-term keys, ephemeral points, the three secrets and H, and their session keys mirror; their nonces mirror if and only if each received the other's ephemeral key byte for byte |
| HandshakeClaims.ReencodedKey | src/shs.cc:127-158 | for every good setup and every other encoding of the server's ephemeral key: given it, both peers finish with mirrored session keys and the client's encryption nonce is not the server's decryption nonce |
| Authentication.ClientAuthentication | src/shs.cc:191-212 | among any number of concurrent runs, under an attacker who cannot sign for the expected server and may hold every scalar: a client that finished has a run of that server that answered with the same K, H and a.b, each other's long-term keys; the session keys mirror if and only if the client received the server's ephemeral point, and the nonces too if and only if both received each other's key byte for byte |
| Authentication.ServerAuthentication | src/shs.cc:228-248 | in the same world: a server that is ready to acknowledge, or has finished, with the key of a client the attacker cannot sign for, has a run of that client that wanted this server, with the same K, H and a.b and the same exact conditions for mirrored keys and nonces |
| Authentication.ClientSharesKeys | src/shs.cc:191-212 | under an attacker who may sign as anyone but holds neither the client's ephemeral scalar nor the expected server's long-term one: a client that finished has a run of that server that answered it, and they agree on everything, with mirrored session keys |
| Authentication.ServerSharesKeys | src/shs.cc:228-248 | under an attacker who cannot sign for a client and holds neither the server's scalar nor that client's ephemeral ones: a server that is ready to acknowledge that client, or has finished with it, has a run of it that wanted this server, and they agree on everything, with mirrored session keys |
| Divergence.ReboxedExchange | src/shs.cc:191-248 | any two ephemeral keys that give a client and the server it wants one a.b carry both messages through, if the boxes are made anew |
| Divergence.ReboxedRuns | src/shs.cc:127-248 | on whole runs: both peers then finish, and their session keys mirror if and only if the client was given the server's own point |
| Divergence.LowOrderKeysDiverge | src/shs.cc:127-139 | so it goes on whole runs for all points of low order in any form, and the session keys do not mirror |
| Divergence.ZeroKeysDiverge | src/shs.cc:127-139 | thirty-two zeros for both are such keys |
| Divergence.OtherKeysDiverge | src/shs.cc:127-139 | for every point and form given to the client there is a key for the server with which both finish, and the session keys mirror if and only if that point is the server's own |
| Divergence.MultipliedKeysDiverge | src/shs.cc:127-139 | so it goes on whole runs for each other's keys times any one scalar, and the session keys do not mirror |
| Symbolic.TopBitIgnored | src/shs.cc:90-97 | two keys of 32 octets that differ in their top bit alone are one point, as X25519 keys and as Ed25519 keys |
| Worlds.AfterKeeps | src/SecretHandshake.cc:136-196 | in every reachable world each run is explained by its transcript and has read only what the attacker could make by then |
| Worlds.EmittedIsDeliverable | src/SecretHandshake.cc:156-196 | whatever an honest run lets out is among what the attacker may deliver, so honest delivery is covered |
| Worlds.AttackerOpens | src/shs.cc:73-87 | an attacker that can make the key of a box it has seen can make what is in it |
| Network.ScheduleIsMoves | src/SecretHandshake.cc:136-196 | every schedule of a client and a server joined by two channels is a run of the world under every attacker |
| Network.BothCanFinish | src/SecretHandshake.cc:91-209 | under every attacker a good setup can run until both have finished, so the conditions of the authentication theorems are met |
| Deduction.CanSendProduct | src/shs.cc:90-97 | a key the attacker can send it can also send multiplied or divided by any scalar it holds, in any form |
| Deduction.SecretIsKept | src/shs.cc:90-97 | what two secret scalars share, the attacker cannot make |
| TwoParty.EveryRunIsSafe | src/SecretHandshake.cc:136-209 | in every reachable state the client has not failed, the server fails only on a bad setup and with the error that tells which, and a finished client agrees with a finished server, sessions mirrored and each other's public key reported |
| TwoParty.StepKeeps | src/SecretHandshake.cc:136-196 | every send and receive keeps the joint invariant of both transcripts and both channels |
| TwoParty.Decided | src/SecretHandshake.cc:130-133 | once no byte can move: both finished if and only if app IDs are equal, the client expects the server's key and the authorizer accepts the client's; otherwise the server failed with ProtocolError (app IDs) or AuthError, and the client has neither finished nor failed |
| TwoParty.AuthErrorIsLost | src/SecretHandshake.cc:99-133 | every client with the right app ID that a server turns down leaves it with AuthError and a full buffer, from where readFailed, or bytesToRead and readCompleted, turn the error into ProtocolError |
| TwoParty.Progress | src/SecretHandshake.cc:91-196 | until the handshake is over some action moves a byte |
| TwoParty.BusyIsBounded | src/SecretHandshake.cc:91-196 | no schedule of actions that move bytes is longer than 640 |
| TwoParty.CanEnd | src/SecretHandshake.cc:91-196 | from every reachable state some schedule brings the handshake to its end |
| TwoParty.ExactTraffic | src/SecretHandshake.cc:244-320 | a finished handshake has moved exactly 64+112 bytes to the server and 64+80 to the client, with nothing left in the channels |
| TwoParty.Formulas | CheatSheet.md:44-79 | the bytes that crossed and the session keys and nonces are the protocol's formulas in the keys alone |
| TwoParty.AuthVerdict | src/shs.cc:191-241 | the client's identity is accepted if and only if the client expects the server's own key, for every 32-byte value it may expect |
| TwoParty.AuthOpens | src/shs.cc:191-233 | the server opens the client's identity if and only if the key the client expects converts to a point scalars do not tell from the server's |
| TwoParty.ChallengeVerdict | src/shs.cc:121-139 | a challenge verifies exactly under the app ID it was made with |
| TwoParty.AckVerdict | src/shs.cc:204-248 | the right server's acknowledgement is accepted |
| Drivers.ExactlyOneThing | capnproto/SecretConnection.cc:83-109 | in every state exactly one of finished, something to send, something to read, failed holds |
| Drivers.CroutonHandshake | crouton/SecretHandshakeStream.cc:64-96 | the loop ends within three rounds with the bytes of the whole-message run written; it succeeds if and only if that run finishes, with its session, and otherwise reports the error the run failed with, or, if the stream ends before the run, ProtocolError in the challenges and AuthError after them |
| Drivers.KjHandshake | capnproto/SecretConnection.cc:83-109 | the recursion ends within five calls with the bytes of the whole-message run written; connected if and only if that run finishes and the wrapper's authorizer, asked last, accepts its session's peer key, unauthorized if and only if it refuses it, failed if and only if the run fails, and cut off if and only if the stream ends before the run; the assertion never fires |
| SecretStreams.SecretHandshakeStream.PeekNoCopy | crouton/SecretHandshakeStream.cc:168-196 | shows exactly the plaintext that comes next and uses up none; every ciphertext byte is taken once and in order, and none beyond the piece that brought plaintext; the end is clean exactly on a frame boundary, and bad data or a bad end closes the raw stream |
| SecretStreams.SecretHandshakeStream.ReadNoCopy | crouton/SecretHandshakeStream.cc:199-204 | returns as much as is asked for and available; concatenated reads are a prefix of the decrypted stream, and all of it at a clean end |
| SecretStreams.SecretHandshakeStream.WriteBuffers | crouton/SecretHandshakeStream.cc:207-229 | everything written since the stream was opened, behind whatever the raw stream carried before, is the printed form of non-empty messages that hold exactly the buffers, as few as hold them, each ciphertext byte passed on once and in order |
| SecretStreams.WrappedStream.TryRead | capnproto/SecretConnection.cc:143-157 | reads no piece more than it takes to have minBytes, and none if it has them; throws if and only if what it read holds a bad frame; otherwise returns what comes next, maxBytes or all there is and at least minBytes, or nothing at the end of the stream |
| SecretStreams.WrappedStream.WritePieces | capnproto/SecretConnection.cc:160-172 | as WriteBuffers, with nothing left in the buffer |
| SecretStreams.WrappedStream.EndWrite | capnproto/SecretConnection.cc:175-180 | writes what is available behind what was written and drops exactly that |
| SecretStreams.ReaderFollowsWriter | crouton/SecretHandshakeStream.cc:168-229 | a reader given a prefix of a writer's ciphertext finds none of it bad, has read a prefix of what was written, and all of it once everything is received and used |

## Left out

- Internals of the cryptographic library, key generation, randomness and key wiping: foreign code.
- Computational secrecy: what an attacker can make is given by rules on terms, not by what it can compute.
- Key pairs whose public key does not belong to their signing key (include/SecretHandshakeTypes.hh:67-69): a peer's public key is derived from its signing key.
- The C interfaces, logging, `appIDFromString` and `getDecryptedSize`: forwarding or one-line members.
- Promise and coroutine scheduling, sockets, timeouts, `StreamWrapper` and the RPC layer: the drivers and streams are synchronous methods over a raw stream that ends at a fixed point.
- Opening, binding and delegate callbacks of the crouton classes; `write` before `open`.
- `sendCompleted` on a handshake that failed while output was pending: the source asserts that this does not happen, and the model requires it.
- SecretStreams.WrappedStream.TryRead: when the raw stream ends with fewer than minBytes buffered the code returns nothing and keeps them, and so does the model; no promise is made about them.
- FrameStreams.ParseReprints: requires that no message is an empty Compact one, since the code accepts those unsealed; FrameStreams.ParseExact says what holds for every input.
- HandshakeClaims.RunsAgree: does not promise that the nonces mirror or that the bytes of the ephemeral keys agree, which is false when a key is re-encoded on the way; the exact condition is part of the statement.
- Agreement.ClientAgreement: the same, for the same reason.
- Agreement.ServerAgreement: the same, for the same reason.
- Authentication.ClientAuthentication: does not promise mirrored session keys, which is false for the keys OtherKeysDiverge and LowOrderKeysDiverge exhibit when the attacker holds the scalars; the exact condition is part of the statement, and Authentication.ClientSharesKeys has the secrecy that rules them out.
- Authentication.ServerAuthentication: the same, for the same reason, with Authentication.ServerSharesKeys.
- Sums of scalars and of points: an attacker here multiplies and divides.
- Ed25519 public keys of low order, for which signatures can be made without a signing key: no such string checks a signature here.
