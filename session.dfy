/** The server's view of one accepted connection: a read bridge and a write bridge,
    each guarded by its own lock in the source, over one socket. The configuration
    operations always touch the reader first and then the writer, so the two halves
    stay configured alike (`Paired`).

    The pure functions over `Endpoint` say what each operation does; the methods of
    `Client` do it in place and are proved to match them. */
module Session {
  import opened Protocol
  import opened Transport

  /** The state of a connection: both bridges and the socket. */
  datatype Endpoint = Endpoint(reader: Bridge, writer: Bridge, wire: Wire)

  /** An operation's result together with the connection state it leaves. */
  datatype Step<+T> = Step(result: T, after: Endpoint)

  predicate Paired(c: Endpoint) {
    c.reader == c.writer
  }

  function ReadNext(c: Endpoint): (s: Step<Result<Option<Packet>>>)
    ensures s.after == c.(wire := c.wire.AfterRead())
    ensures s.result == Ok(None) <==> c.wire.NextEvent() == NoPacket
    ensures s.result == ReadResult(c.wire.NextEvent())
    ensures c.wire.NextEvent().Failed? ==> s.result == Err(c.wire.NextEvent().error)
    ensures c.wire.NextEvent().Arrived? && c.wire.NextEvent().raw.Undecodable? ==> s.result == Err(c.wire.NextEvent().raw.error)
    ensures c.wire.NextEvent().Arrived? && c.wire.NextEvent().raw.Decodable? ==> s.result == Ok(Some(c.wire.NextEvent().raw.packet))
  {
    Step(ReadResult(c.wire.NextEvent()), c.(wire := c.wire.AfterRead()))
  }

  /** Writing a packet: it goes out under the writer's current configuration, and the
      write's error, if any, is the result. */
  function Write(c: Endpoint, p: Packet): (s: Step<Result<()>>)
    ensures s.result.Ok? <==> c.wire.NextFault().None?
    ensures s.result.Err? ==> s.result.error == c.wire.NextFault().value
    ensures s.after.reader == c.reader && s.after.writer == c.writer
    ensures s.after.wire.sent == if s.result.Ok? then c.wire.sent + [Sent(p, c.writer)] else c.wire.sent
    ensures s.after.wire == c.wire.AfterWrite(Sent(p, c.writer)) && s.after.wire.incoming == c.wire.incoming
  {
    var fault := c.wire.NextFault();
    Step(if fault.None? then Ok(()) else Err(fault.value), c.(wire := c.wire.AfterWrite(Sent(p, c.writer))))
  }

  function WithState(c: Endpoint, state: State): (d: Endpoint)
    ensures d.reader.state == state && d.writer.state == state && d.wire == c.wire
    ensures d.reader.threshold == c.reader.threshold && d.writer.threshold == c.writer.threshold
    ensures d.reader.cipher == c.reader.cipher && d.writer.cipher == c.writer.cipher
    ensures Paired(c) ==> Paired(d)
  {
    c.(reader := c.reader.(state := state), writer := c.writer.(state := state))
  }

  function WithThreshold(c: Endpoint, threshold: I32): (d: Endpoint)
    ensures d.reader.threshold == Some(threshold) && d.writer.threshold == Some(threshold)
    ensures d.reader.state == c.reader.state && d.writer.state == c.writer.state && d.wire == c.wire
    ensures d.reader.cipher == c.reader.cipher && d.writer.cipher == c.writer.cipher
    ensures Paired(c) ==> Paired(d)
  {
    c.(reader := c.reader.(threshold := Some(threshold)), writer := c.writer.(threshold := Some(threshold)))
  }

  /** Enabling encryption: the reader first; if the reader refuses, its error is the
      result and the writer is not touched; otherwise the writer's outcome is the
      result. */
  function WithEncryption(c: Endpoint, key: seq<Byte>, iv: seq<Byte>): (s: Step<Result<()>>)
    ensures s.after.wire == c.wire
    ensures EnableCipher(c.reader, key, iv).Err? ==>
              s == Step(Err(EnableCipher(c.reader, key, iv).error), c)
    ensures s.result.Ok? ==>
              s.after.reader.cipher == Some(Cipher(key, iv)) && s.after.writer.cipher == Some(Cipher(key, iv))
    ensures EnableCipher(c.reader, key, iv).Ok? ==>
              s.result == (if EnableCipher(c.writer, key, iv).Ok? then Ok(()) else Err(EnableCipher(c.writer, key, iv).error))
    ensures s.after.reader.state == c.reader.state && s.after.writer.state == c.writer.state
    ensures s.after.reader.threshold == c.reader.threshold && s.after.writer.threshold == c.writer.threshold
    ensures Paired(c) ==> Paired(s.after) && (s.result.Ok? <==> EnableCipher(c.reader, key, iv).Ok?)
  {
    match EnableCipher(c.reader, key, iv)
    case Err(e) => Step(Err(e), c)
    case Ok(reader) =>
      match EnableCipher(c.writer, key, iv)
      case Err(e) => Step(Err(e), c.(reader := reader))
      case Ok(writer) => Step(Ok(()), c.(reader := reader, writer := writer))
  }

  const DidNotReceiveHandshake: string := "Did not receive handshake"

  /** The server side of the handshake: read the first packet and, if it is a
      Handshake, put both halves into the state it asks for. */
  function HandshakeStep(c: Endpoint): (s: Step<Result<State>>)
    ensures s.result.Ok? <==> IsHandshake(ReadNext(c).result)
    ensures s.result.Ok? ==>
              s.after == WithState(ReadNext(c).after, s.result.value) && CanFollow(Handshaking, s.result.value)
    ensures s.result.Err? ==> s.after == ReadNext(c).after
    ensures s.result.Ok? ==> s.result.value == TargetState(ReadNext(c).result.value.value.nextState)
    ensures ReadNext(c).result.Err? ==> s.result == Err(ReadNext(c).result.error)
    ensures ReadNext(c).result.Ok? && !IsHandshake(ReadNext(c).result) ==>
              s.result == Err(Message(DidNotReceiveHandshake))
  {
    var first := ReadNext(c);
    var decided := HandshakeDecision(first.result, DidNotReceiveHandshake);
    if decided.Ok? then Step(decided, WithState(first.after, decided.value)) else Step(decided, first.after)
  }

  /** Every handshake outcome keeps the halves paired and, on success, leaves both in
      the state the Handshake packet named. */
  lemma HandshakeSetsBothHalves(c: Endpoint, next: HandshakeNextState, version: int, address: string, port: int)
    requires Paired(c)
    requires c.wire.NextEvent() == Arrived(Decodable(Handshake(version, address, port, next)))
    ensures HandshakeStep(c).result == Ok(TargetState(next))
    ensures HandshakeStep(c).after.reader.state == TargetState(next)
    ensures HandshakeStep(c).after.writer.state == TargetState(next)
    ensures Paired(HandshakeStep(c).after)
  {
  }

  class Client {
    var reader: Bridge
    var writer: Bridge
    var wire: Wire

    function View(): Endpoint
      reads this
    {
      Endpoint(reader, writer, wire)
    }

    constructor (socket: Wire)
      ensures View() == Endpoint(FreshBridge, FreshBridge, socket)
      ensures Paired(View())
    {
      reader := FreshBridge;
      writer := FreshBridge;
      wire := socket;
    }

    method WritePacket(packet: Packet) returns (r: Result<()>)
      modifies this
      ensures Step(r, View()) == Write(old(View()), packet)
    {
      var fault := wire.NextFault();
      r := if fault.None? then Ok(()) else Err(fault.value);
      wire := wire.AfterWrite(Sent(packet, writer));
    }

    method ReadNextPacket() returns (r: Result<Option<Packet>>)
      modifies this
      ensures Step(r, View()) == ReadNext(old(View()))
    {
      var event := wire.NextEvent();
      wire := wire.AfterRead();
      match event {
        case Failed(e) => r := Err(e);
        case NoPacket => r := Ok(None);
        case Arrived(raw) =>
          match raw {
            case Undecodable(e) => r := Err(e);
            case Decodable(p) => r := Ok(Some(p));
          }
      }
    }

    method Handshake() returns (r: Result<State>)
      modifies this
      ensures Step(r, View()) == HandshakeStep(old(View()))
    {
      var first := ReadNextPacket();
      if first.Ok? {
        if first.value.Some? && first.value.value.Handshake? {
          match first.value.value.nextState {
            case ToStatus =>
              SetState(Status);
              return Ok(Status);
            case ToLogin =>
              SetState(Login);
              return Ok(Login);
          }
        } else {
          return Err(Message(DidNotReceiveHandshake));
        }
      } else {
        return Err(first.error);
      }
    }

    method SetState(state: State)
      modifies this
      ensures View() == WithState(old(View()), state)
    {
      reader := reader.(state := state);
      writer := writer.(state := state);
    }

    method SetCompressionThreshold(threshold: I32)
      modifies this
      ensures View() == WithThreshold(old(View()), threshold)
    {
      reader := reader.(threshold := Some(threshold));
      writer := writer.(threshold := Some(threshold));
    }

    method EnableEncryption(key: seq<Byte>, iv: seq<Byte>) returns (r: Result<()>)
      modifies this
      ensures Step(r, View()) == WithEncryption(old(View()), key, iv)
    {
      var onReader := EnableCipher(reader, key, iv);
      if onReader.Err? {
        return Err(onReader.error);
      }
      reader := onReader.value;
      var onWriter := EnableCipher(writer, key, iv);
      if onWriter.Err? {
        return Err(onWriter.error);
      }
      writer := onWriter.value;
      return Ok(());
    }
  }
}
