/** Values shared by every part of the session logic: protocol states, the packets of
    protocol 753 that the server reads or writes, errors, and the configuration a
    read or write bridge holds (state, compression threshold, cipher). The packet
    codec itself (framing, compression, AES) belongs to libraries outside this model;
    a packet here is already decoded. */
module Protocol {

  const I32Min: int := -0x8000_0000
  const I32Max: int := 0x7fff_ffff

  type I32 = x: int | -0x8000_0000 <= x <= 0x7fff_ffff
  type I64 = x: int | -0x8000_0000_0000_0000 <= x <= 0x7fff_ffff_ffff_ffff
  type Byte = b: int | 0 <= b < 0x100
  /** A UUID4 is a 128-bit value. */
  type Uuid = u: int | 0 <= u < 0x1_0000_0000_0000_0000_0000_0000_0000_0000

  datatype Option<+T> = None | Some(value: T)

  /** The errors the session logic raises or passes on. `Io` and `Malformed` stand for
      whatever the socket or the deserialiser reports; `Message` is an error built from
      a fixed text. */
  datatype Error =
    | Io(code: int)
    | Malformed(code: int)
    | CipherBadSize
    | CipherAlreadyConfigured
    | Message(text: string)

  datatype Result<+T> = Ok(value: T) | Err(error: Error)

  datatype State = Handshaking | Status | Login | Play

  /** The `next_state` field of a Handshake packet. */
  datatype HandshakeNextState = ToStatus | ToLogin

  datatype GameMode = Survival | Creative | Adventure | Spectator

  datatype ChatPosition = ChatBox | SystemMessage | Hotbar

  /** A chat component: either parsed from legacy text (with or without colour-code
      translation) or plain text. Its JSON form is not modelled. */
  datatype Chat = Traditional(text: string, translateColorCodes: bool) | PlainText(text: string)

  /** A player identity as the registry keys it. */
  datatype NameUuid = NameUuid(name: string, uuid: Uuid)

  datatype SampleEntry = SampleEntry(id: Uuid, name: string)
  datatype StatusPlayers = StatusPlayers(max: I32, online: I32, sample: seq<SampleEntry>)
  datatype StatusVersion = StatusVersion(name: string, protocol: I32)
  datatype Favicon = Favicon(data: seq<Byte>)
  datatype StatusSpec = StatusSpec(
    description: Chat, favicon: Option<Favicon>, players: StatusPlayers, version: Option<StatusVersion>)

  /** The packets the core reads or writes. The join-game packet keeps only the fields
      the server fills from its own state; its NBT dimension data is an opaque constant
      and is left out. `Other` is every packet the core has no branch for. */
  datatype Packet =
    | Handshake(protocolVersion: int, serverAddress: string, serverPort: int, nextState: HandshakeNextState)
    | StatusRequest
    | StatusResponse(response: StatusSpec)
    | StatusPing(payload: I64)
    | StatusPong(payload: I64)
    | LoginStart(name: string)
    | LoginEncryptionRequest(serverId: string, publicKey: seq<Byte>, verifyToken: seq<Byte>)
    | LoginEncryptionResponse(sharedSecret: seq<Byte>, verifyToken: seq<Byte>)
    | LoginSetCompression(threshold: I32)
    | LoginSuccess(uuid: Uuid, username: string)
    | LoginDisconnect(message: Chat)
    | PlayJoinGame(entityId: I32, isHardcore: bool, gamemode: GameMode, worldName: string,
                   maxPlayers: I32, viewDistance: I32)
    | PlayClientChatMessage(text: string)
    | PlayServerChatMessage(chat: Chat, position: ChatPosition, sender: Uuid)
    | PlayDisconnect(reason: Chat)
    | Other(id: int)

  /** AES/CFB8 takes a 16-byte key and a 16-byte initialisation vector. */
  const CipherSize: nat := 16

  datatype Cipher = Cipher(key: seq<Byte>, iv: seq<Byte>)

  /** What one half of a connection (a read bridge or a write bridge) is configured
      with: the protocol state that selects the packet table, an optional compression
      threshold, and an optional stream cipher. */
  datatype Bridge = Bridge(state: State, threshold: Option<I32>, cipher: Option<Cipher>)

  /** A fresh bridge on an accepted socket. */
  const FreshBridge: Bridge := Bridge(Handshaking, None, None)

  /** Enabling encryption on one bridge, as the codec library does it: a cipher is set
      at most once, and only with a 16-byte key and a 16-byte iv. */
  function EnableCipher(b: Bridge, key: seq<Byte>, iv: seq<Byte>): (r: Result<Bridge>)
    ensures r.Ok? <==> b.cipher.None? && |key| == CipherSize && |iv| == CipherSize
    ensures r.Ok? ==> r.value == b.(cipher := Some(Cipher(key, iv)))
    ensures b.cipher.Some? ==> r == Err(CipherAlreadyConfigured)
  {
    if b.cipher.Some? then Err(CipherAlreadyConfigured)
    else if |key| != CipherSize || |iv| != CipherSize then Err(CipherBadSize)
    else Ok(b.(cipher := Some(Cipher(key, iv))))
  }

  /** The protocol's transition relation between connection states: a handshake leads
      to Status or Login, a completed login leads to Play. */
  ghost predicate CanFollow(from: State, to: State) {
    || (from == Handshaking && to == Status)
    || (from == Handshaking && to == Login)
    || (from == Login && to == Play)
  }

  /** The state a handshake's `next_state` field selects. */
  function TargetState(next: HandshakeNextState): (s: State)
    ensures CanFollow(Handshaking, s)
    ensures s == Status <==> next == ToStatus
    ensures s == Login <==> next == ToLogin
  {
    match next
    case ToStatus => Status
    case ToLogin => Login
  }

  predicate IsHandshake(read: Result<Option<Packet>>) {
    read.Ok? && read.value.Some? && read.value.value.Handshake?
  }

  /** The decision a server connection makes on the first packet it reads: a Handshake
      selects Status or Login; a read error is passed on unchanged; anything else
      (another packet, or no packet) fails with the given text. */
  function HandshakeDecision(first: Result<Option<Packet>>, missing: string): (r: Result<State>)
    ensures r.Ok? <==> IsHandshake(first)
    ensures r.Ok? ==> CanFollow(Handshaking, r.value) && r.value == TargetState(first.value.value.nextState)
    ensures first.Err? ==> r == Err(first.error)
    ensures first.Ok? && !IsHandshake(first) ==> r == Err(Message(missing))
  {
    match first
    case Err(e) => Err(e)
    case Ok(Some(Handshake(_, _, _, next))) => Ok(TargetState(next))
    case Ok(_) => Err(Message(missing))
  }
}
