/** The socket seen from the session logic. The codec libraries that frame, compress,
    encrypt and (de)serialise packets are outside this model; in their place a `Wire`
    holds a script of what the peer will deliver next and of which writes will fail,
    and it logs every packet written together with the write bridge's configuration
    at that moment (so that the log shows which packets were sent encrypted). */
module Transport {
  import opened Protocol

  /** What the deserialiser makes of one raw packet. */
  datatype RawPacket = Decodable(packet: Packet) | Undecodable(error: Error)

  /** One read from the socket: an I/O error, nothing available, or a raw packet. */
  datatype ReadEvent = Failed(error: Error) | NoPacket | Arrived(raw: RawPacket)

  /** A packet that was written, and the write bridge's configuration when it was. */
  datatype Sent = Sent(packet: Packet, under: Bridge)

  datatype Wire = Wire(incoming: seq<ReadEvent>, writeFaults: seq<Option<Error>>, sent: seq<Sent>) {

    /** The next read; once the script is used up, nothing more arrives. */
    function NextEvent(): ReadEvent {
      if incoming == [] then NoPacket else incoming[0]
    }

    function AfterRead(): (w: Wire)
      ensures w.writeFaults == writeFaults && w.sent == sent
      ensures incoming != [] ==> w.incoming == incoming[1..]
    {
      this.(incoming := if incoming == [] then [] else incoming[1..])
    }

    /** The error the next write will fail with, if any; once the script is used up,
        writes succeed. */
    function NextFault(): Option<Error> {
      if writeFaults == [] then None else writeFaults[0]
    }

    /** The wire after one write: the packet is logged exactly when the write succeeds. */
    function AfterWrite(s: Sent): (w: Wire)
      ensures w.incoming == incoming
      ensures w.sent == if NextFault().None? then sent + [s] else sent
      ensures |w.writeFaults| == if writeFaults == [] then 0 else |writeFaults| - 1
    {
      Wire(incoming,
           if writeFaults == [] then [] else writeFaults[1..],
           if NextFault().None? then sent + [s] else sent)
    }
  }

  /** `read_next_packet`: an I/O error or a deserialisation error is returned as the
      error; no raw packet gives `Ok(None)`; a decodable one gives `Ok(Some(packet))`. */
  function ReadResult(ev: ReadEvent): (r: Result<Option<Packet>>)
    ensures r == Ok(None) <==> ev == NoPacket
    ensures ev.Failed? ==> r == Err(ev.error)
    ensures ev.Arrived? && ev.raw.Undecodable? ==> r == Err(ev.raw.error)
    ensures r.Ok? && r.value.Some? <==> ev.Arrived? && ev.raw.Decodable?
    ensures r.Ok? && r.value.Some? ==> r.value.value == ev.raw.packet
  {
    match ev
    case Failed(e) => Err(e)
    case NoPacket => Ok(None)
    case Arrived(Undecodable(e)) => Err(e)
    case Arrived(Decodable(p)) => Ok(Some(p))
  }
}
