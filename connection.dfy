/** The blocking connection wrapper of the client-side code path: one connection
    object that holds a single configuration (there are no separate read and write
    halves), a write that replaces any codec error by a fixed message, and its own
    handshake and status reply. */
module Connection {
  import opened Protocol
  import opened Transport
  import opened StatusInfo

  const FailedToSendPacket: string := "Failed to send packet!"
  const NoHandshakeReceived: string := "No handshake received"

  /** The result `write_packet` reports for a write whose codec outcome is `fault`:
      any codec error becomes the same fixed message, so the original cause is lost. */
  function WriteOutcome(fault: Option<Error>): (r: Result<()>)
    ensures r.Ok? <==> fault.None?
    ensures r.Err? ==> r.error == Message(FailedToSendPacket)
  {
    if fault.None? then Ok(()) else Err(Message(FailedToSendPacket))
  }

  class MinecraftClient {
    var connection: Bridge
    var wire: Wire

    constructor (config: Bridge, socket: Wire)
      ensures connection == config && wire == socket
    {
      connection := config;
      wire := socket;
    }

    method WritePacket(packet: Packet) returns (r: Result<()>)
      modifies this
      ensures r == WriteOutcome(old(wire).NextFault())
      ensures wire == old(wire).AfterWrite(Sent(packet, connection)) && connection == old(connection)
    {
      var fault := wire.NextFault();
      wire := wire.AfterWrite(Sent(packet, connection));
      if fault.Some? {
        return Err(Message(FailedToSendPacket));
      }
      return Ok(());
    }

    method ReadNextPacket() returns (r: Result<Option<Packet>>)
      modifies this
      ensures r == ReadResult(old(wire).NextEvent())
      ensures wire == old(wire).AfterRead() && connection == old(connection)
    {
      var event := wire.NextEvent();
      wire := wire.AfterRead();
      match event {
        case Failed(e) => r := Err(e);
        case NoPacket => r := Ok(None);
        case Arrived(raw) =>
          match raw {
            case Undecodable(e) => r := Err(e);
            case Decodable(p) => r := Ok(Some(p));
          }
      }
    }

    method SetState(state: State)
      modifies this
      ensures connection == old(connection).(state := state) && wire == old(wire)
    {
      connection := connection.(state := state);
    }

    method Handshake() returns (r: Result<State>)
      modifies this
      ensures r == HandshakeDecision(ReadResult(old(wire).NextEvent()), NoHandshakeReceived)
      ensures wire == old(wire).AfterRead()
      ensures connection == if r.Ok? then old(connection).(state := r.value) else old(connection)
    {
      var first := ReadNextPacket();
      if first.Ok? {
        if first.value.Some? && first.value.value.Handshake? {
          match first.value.value.nextState {
            case ToStatus =>
              SetState(Status);
              return Ok(Status);
            case ToLogin =>
              SetState(Login);
              return Ok(Login);
          }
        } else {
          return Err(Message(NoHandshakeReceived));
        }
      } else {
        return Err(first.error);
      }
    }
  }

  /** `send_status` of the client-side status record: write the status response built
      from it through the connection's write. */
  method SendStatus(status: ServerStatus, client: MinecraftClient) returns (r: Result<()>)
    modifies client
    ensures r == WriteOutcome(old(client.wire).NextFault())
    ensures client.wire == old(client.wire).AfterWrite(Sent(StatusResponse(SpecOf(status)), client.connection))
    ensures client.connection == old(client.connection)
  {
    r := client.WritePacket(StatusResponse(SpecOf(status)));
  }
}
