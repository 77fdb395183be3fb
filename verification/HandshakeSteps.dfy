// The handshake as a step machine: what a peer sends and reads in each step, through the
// whole-message API and through the fragmented one.

module HandshakeSteps {
  import opened Prelude
  import opened Symbolic
  import opened HandshakeCore

  datatype Role = Client | Server

  datatype Step = Failed | ClientChallenge | ServerChallenge | ClientAuth | ServerAck | Finished

  datatype Error = NoError | ProtocolError | AuthError

  type Authorizer = Option<Bytes -> bool>

  datatype Peer = Peer(
    role: Role, step: Step, error: Error, input: Bytes, output: Bytes,
    core: Core, authorizer: Authorizer)

  function NewClient(K: Bytes, X: nat, x: nat, serverKey: Bytes): Peer {
    Peer(Client, ClientChallenge, NoError, [], [], Fresh(K, X, x, Some(serverKey)), None)
  }

  function NewServer(K: Bytes, X: nat, x: nat, authorizer: Authorizer): Peer {
    Peer(Server, ClientChallenge, NoError, [], [], Fresh(K, X, x, None), authorizer)
  }

  function Index(step: Step): nat {
    match step
    case Failed => 0
    case ClientChallenge => 1
    case ServerChallenge => 2
    case ClientAuth => 3
    case ServerAck => 4
    case Finished => 5
  }

  function NextStep(step: Step): (r: Step)
    requires step != Failed && step != Finished
    ensures Index(r) == Index(step) + 1
  {
    match step
    case ClientChallenge => ServerChallenge
    case ServerChallenge => ClientAuth
    case ClientAuth => ServerAck
    case ServerAck => Finished
  }

  // The steps left before the machine stops.
  function StepsLeft(step: Step): nat {
    if step == Failed then 0 else 5 - Index(step)
  }

  predicate Stopped(step: Step) {
    step == Failed || step == Finished
  }

  // The size of the message a peer reads in a step, if it reads one.
  function BytesNeeded(role: Role, step: Step): nat {
    match (role, step)
    case (Client, ServerChallenge) => CHALLENGE_SIZE
    case (Client, ServerAck) => SERVER_ACK_SIZE
    case (Server, ClientChallenge) => CHALLENGE_SIZE
    case (Server, ClientAuth) => CLIENT_AUTH_SIZE
    case _ => 0
  }

  predicate Sends(role: Role, step: Step) {
    match (role, step)
    case (Client, ClientChallenge) => true
    case (Client, ClientAuth) => true
    case (Server, ServerChallenge) => true
    case (Server, ServerAck) => true
    case _ => false
  }

  // Which of the optional secrets each step finds set.
  predicate Ready(p: Peer) {
    match p.step
    case Failed => true
    case Finished => p.core.Done()
    case ClientChallenge => p.role.Client? ==> p.core.Yp.Some?
    case ServerChallenge => if p.role.Client? then p.core.Yp.Some? else p.core.Met()
    case ClientAuth =>
      && p.core.Met() && (p.role.Client? ==> p.core.Yp.Some?)
      && (p.role.Client? && p.output != [] ==> p.core.Identified())
    case ServerAck => p.core.Identified() && (p.role.Server? && p.output != [] ==> p.core.Done())
  }

  // What holds of a peer between calls.
  predicate Valid(p: Peer) {
    && Ready(p)
    && (p.error == NoError <==> p.step != Failed)
    && (p.step != Failed ==> |p.input| <= BytesNeeded(p.role, p.step))
    && (p.step != Failed && p.output != [] ==> Sends(p.role, p.step))
  }

  function Fail(p: Peer): Peer {
    p.(error := if Index(p.step) < Index(ClientAuth) then ProtocolError else AuthError,
       step := Failed)
  }

  // What a peer makes of a complete incoming message.
  predicate Accepts(p: Peer, bytes: Bytes)
    requires Valid(p) && |bytes| == BytesNeeded(p.role, p.step)
  {
    match (p.role, p.step)
    case (Client, ServerChallenge) => GoodChallenge(p.core, bytes)
    case (Client, ServerAck) => GoodAck(p.core, bytes)
    case (Server, ClientChallenge) => GoodChallenge(p.core, bytes)
    case (Server, ClientAuth) =>
      GoodAuth(p.core, bytes)
      && (p.authorizer.None? || p.authorizer.value(AfterAuth(p.core, bytes).Yp.value))
    case _ => false
  }

  function Learn(p: Peer, bytes: Bytes): Core
    requires Valid(p) && |bytes| == BytesNeeded(p.role, p.step)
  {
    match (p.role, p.step)
    case (Client, ServerChallenge) => AfterChallenge(p.core, bytes)
    case (Client, ServerAck) => KeepAckKey(p.core)
    case (Server, ClientChallenge) => AfterChallenge(p.core, bytes)
    case (Server, ClientAuth) => AfterAuth(p.core, bytes)
    case _ => p.core
  }

  function ReadDone(p: Peer): (r: Peer)
    requires Valid(p) && |p.input| == BytesNeeded(p.role, p.step)
    ensures Valid(r)
  {
    var q := p.(core := Learn(p, p.input));
    if Accepts(p, p.input) then q.(step := NextStep(p.step), input := []) else Fail(q)
  }

  // Puts the step's message into an empty output buffer, if the step sends one.
  function Fill(p: Peer): (r: Peer)
    requires Valid(p)
    ensures Valid(r)
    ensures Sends(p.role, p.step) ==> r.output != []
  {
    if Stopped(p.step) || p.output != [] then p else
      match (p.role, p.step)
      case (Client, ClientChallenge) => p.(output := Challenge(p.core))
      case (Client, ClientAuth) =>
        p.(core := Identify(p.core), output := ClientAuthMessage(Identify(p.core)))
      case (Server, ServerChallenge) => p.(output := Challenge(p.core))
      case (Server, ServerAck) =>
        p.(core := KeepAckKey(p.core), output := ServerAckMessage(p.core))
      case _ => p
  }

  function SendDone(p: Peer): (r: Peer)
    requires Valid(p) && p.output != [] && p.step != Failed
    ensures Valid(r)
  {
    p.(output := [], step := NextStep(p.step))
  }

  // How many of `count` bytes the current message still takes.
  function Takes(p: Peer, count: nat): (n: nat)
    requires Valid(p)
    ensures n <= count
  {
    if Stopped(p.step) || BytesNeeded(p.role, p.step) == 0 then 0
    else Min(count, BytesNeeded(p.role, p.step) - |p.input|)
  }

  function Receive(p: Peer, src: Bytes): (r: Peer)
    requires Valid(p)
    ensures Valid(r)
  {
    if Stopped(p.step) || BytesNeeded(p.role, p.step) == 0 then p else
      var q := p.(input := p.input + src[..Takes(p, |src|)]);
      if |q.input| < BytesNeeded(p.role, p.step) then q else ReadDone(q)
  }

  // The bytes a call of copyBytesToSend hands out, and the peer afterwards.
  function Gives(p: Peer, max: nat): Bytes
    requires Valid(p)
  {
    if p.step == Failed then [] else Fill(p).output[..Min(max, |Fill(p).output|)]
  }

  function Give(p: Peer, max: nat): (r: Peer)
    requires Valid(p)
    ensures Valid(r)
  {
    if p.step == Failed || Fill(p).output == [] then p else
      var q := Fill(p);
      if max < |q.output| then q.(output := q.output[max..]) else SendDone(q)
  }

  // -------------------------------------------------------------------------------------
  // The object

  // A C++ call either returns or throws std::logic_error, in which case nothing has changed.
  datatype Call<T> = Threw | Returned(value: T)

  class Handshake {
    const role: Role
    const impl: HandshakeImpl
    const authorizer: Authorizer
    var step: Step
    var error: Error
    var inputBuffer: Bytes
    var outputBuffer: Bytes

    ghost function State(): Peer
      reads this, impl
    {
      Peer(role, step, error, inputBuffer, outputBuffer, impl.State(), authorizer)
    }

    constructor Client(K: Bytes, X: nat, x: nat, serverKey: Bytes)
      ensures fresh(impl) && State() == NewClient(K, X, x, serverKey)
    {
      role, authorizer, step, error := Role.Client, None, ClientChallenge, NoError;
      inputBuffer, outputBuffer := [], [];
      impl := new HandshakeImpl(K, X, x);
      new;
      impl.SetServerPublicKey(serverKey);
    }

    constructor Server(K: Bytes, X: nat, x: nat, authorizer: Authorizer)
      ensures fresh(impl) && State() == NewServer(K, X, x, authorizer)
    {
      this.role, this.authorizer, step, error := Role.Server, authorizer, ClientChallenge, NoError;
      inputBuffer, outputBuffer := [], [];
      impl := new HandshakeImpl(K, X, x);
    }

    method AdvanceStep()
      requires !Stopped(step)
      modifies this`step
      ensures step == NextStep(old(step))
    {
      step := NextStep(step);
    }

    method MarkFailed()
      modifies this`step, this`error
      ensures State() == Fail(old(State()))
    {
      error := if Index(step) < Index(ClientAuth) then ProtocolError else AuthError;
      step := Failed;
    }

    method ByteCountNeeded() returns (n: nat)
      ensures n == BytesNeeded(role, step)
    {
      n := BytesNeeded(role, step);
    }

    // Makes room for the message this step reads; the caller then copies it into the buffer.
    method BytesToRead() returns (n: nat)
      requires Valid(State())
      modifies this`inputBuffer
      ensures n == BytesNeeded(role, step) == |inputBuffer|
      ensures var kept := Min(n, |old(inputBuffer)|); inputBuffer[..kept] == old(inputBuffer)[..kept]
      ensures Valid(State())
    {
      n := BytesNeeded(role, step);
      inputBuffer :=
        if n <= |inputBuffer| then inputBuffer[..n] else inputBuffer + seq(n - |inputBuffer|, _ => Raw(0));
    }

    method CopyIntoBuffer(bytes: Bytes)
      requires Valid(State()) && |bytes| == |inputBuffer|
      modifies this`inputBuffer
      ensures Valid(State()) && State() == old(State()).(input := bytes)
    {
      inputBuffer := bytes;
    }

    // The overrides of the client and the server: judge a message.
    method ProcessReceived(bytes: Bytes) returns (ok: bool)
      requires Valid(State()) && |bytes| == BytesNeeded(role, step)
      modifies impl
      ensures ok == Accepts(old(State()), bytes) && State() == old(State()).(core := Learn(old(State()), bytes))
    {
      match (role, step)
      case (Client, ServerChallenge) => ok := impl.VerifyChallenge(bytes);
      case (Client, ServerAck) => ok := impl.VerifyServerAck(bytes);
      case (Server, ClientChallenge) => ok := impl.VerifyChallenge(bytes);
      case (Server, ClientAuth) =>
        ok := impl.VerifyClientAuth(bytes);
        if ok && authorizer.Some? {
          ok := authorizer.value(impl.Yp.value);
        }
      case _ => ok := false;
    }

    // ... and make one.
    method FillOutputBuffer()
      requires Valid(State()) && !Stopped(step) && outputBuffer == []
      modifies this`outputBuffer, impl
      ensures State() == Fill(old(State()))
    {
      match (role, step)
      case (Client, ClientChallenge) => outputBuffer := impl.CreateChallenge();
      case (Client, ClientAuth) => outputBuffer := impl.CreateClientAuth();
      case (Server, ServerChallenge) => outputBuffer := impl.CreateChallenge();
      case (Server, ServerAck) => outputBuffer := impl.CreateServerAck();
      case _ =>
    }

    method ReadCompleted() returns (r: Call<bool>)
      requires Valid(State())
      modifies this, impl
      ensures Valid(State())
      ensures r.Threw? <==> |old(State()).input| != BytesNeeded(role, old(step))
      ensures r.Threw? ==> State() == old(State())
      ensures r.Returned? ==> State() == ReadDone(old(State())) && r.value == (step != Failed)
    {
      hide PointOf, Times, ForKeyExchange, Check, Unbox;
      if |inputBuffer| != BytesNeeded(role, step) {
        return Threw;
      }
      var ok := ProcessReceived(inputBuffer);
      if ok {
        AdvanceStep();
        inputBuffer := [];
      } else {
        MarkFailed();
      }
      return Returned(ok);
    }

    method ReadFailed()
      requires Valid(State())
      modifies this`step, this`error
      ensures Valid(State()) && State() == Fail(old(State()))
    {
      MarkFailed();
    }

    method ReceivedBytes(src: Bytes) returns (count: int)
      requires Valid(State())
      modifies this, impl
      ensures Valid(State()) && State() == Receive(old(State()), src)
      ensures count == if Stopped(old(step)) || step == Failed then -1
                       else Takes(old(State()), |src|)
    {
      hide Learn, Accepts, Fail;
      if step == Failed || step == Finished {
        return -1;
      }
      var needed := ByteCountNeeded();
      if needed == 0 {
        return 0;
      }
      var n := Min(|src|, needed - |inputBuffer|);
      inputBuffer := inputBuffer + src[..n];
      if |inputBuffer| >= needed {
        var _ := ReadCompleted();
      }
      return if step != Failed then n else -1;
    }

    method BytesToSend() returns (bytes: Bytes)
      requires Valid(State())
      modifies this`outputBuffer, impl
      ensures Valid(State()) && State() == Fill(old(State()))
      ensures bytes == if Stopped(step) then [] else outputBuffer
    {
      if step == Failed || step == Finished {
        return [];
      }
      if outputBuffer == [] {
        FillOutputBuffer();
      }
      return outputBuffer;
    }

    // The step must not have failed while output was pending: the source asserts it.
    method SendCompleted() returns (r: Call<()>)
      requires Valid(State()) && (outputBuffer != [] ==> step != Failed)
      modifies this`step, this`outputBuffer
      ensures Valid(State())
      ensures r.Threw? <==> old(outputBuffer) == []
      ensures r.Threw? ==> State() == old(State())
      ensures r.Returned? ==> State() == SendDone(old(State()))
    {
      if outputBuffer == [] {
        return Threw;
      }
      outputBuffer := [];
      AdvanceStep();
      return Returned(());
    }

    // The data copied, or None for the error return.
    method CopyBytesToSend(maxCount: nat) returns (data: Option<Bytes>)
      requires Valid(State())
      modifies this, impl
      ensures Valid(State()) && State() == Give(old(State()), maxCount)
      ensures data == if old(step) == Failed then None else Some(Gives(old(State()), maxCount))
    {
      if step == Failed {
        return None;
      }
      if outputBuffer == [] {
        var bytes := BytesToSend();
        if |bytes| == 0 {
          return Some([]);
        }
      }
      var count := Min(|outputBuffer|, maxCount);
      data := Some(outputBuffer[..count]);
      outputBuffer := outputBuffer[count..];
      if outputBuffer == [] {
        AdvanceStep();
      }
    }

    method GetSession() returns (r: Call<Session>)
      requires Valid(State())
      ensures r == if step == Finished then Returned(Outcome(impl.State())) else Threw
    {
      if step != Finished {
        return Threw;
      }
      var s := impl.GetOutcome();
      return Returned(s);
    }
  }
}
