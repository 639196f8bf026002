/** The server: the registry of logged-in players, the pool of entity ids, the status
    record, and the handlers that run on each accepted connection (handshake, then
    either the status exchange or login and admission), plus the chat handling of
    players in Play.

    Several tasks share this state through locks in the source; here the handlers run
    one at a time, each to completion. */
module Network {
  import opened Protocol
  import opened Transport
  import opened Session
  import opened StatusInfo
  import opened Players
  import opened Registry
  import opened Dispatch
  import opened LoginFlow

  const NoValidStatusPacket: string := "Client did not send valid packet after login handshake."
  const ServerFull: string := "Server is full, wait for another player to leave."
  const AlreadyConnected: string := "Someone with the same name or UUID as you is already connected."

  /** The compression threshold the accept loop passes to the login handler. */
  const LoginCompressionThreshold: I32 := 256

  /** The view distance every admitted player gets. */
  const DefaultViewDistance: I32 := 10

  /** `send_status` of the server's status record: write a status response built from
      it. */
  method SendStatus(status: ServerStatus, client: Client) returns (r: Result<()>)
    modifies client
    ensures Step(r, client.View()) == Write(old(client.View()), StatusResponse(SpecOf(status)))
  {
    r := client.WritePacket(StatusResponse(SpecOf(status)));
  }

  /** `login_kick`: tell a client that is still logging in why it is turned away. */
  method LoginKick(client: Client, message: Chat) returns (r: Result<()>)
    modifies client
    ensures Step(r, client.View()) == Write(old(client.View()), LoginDisconnect(message))
  {
    r := client.WritePacket(LoginDisconnect(message));
  }

  predicate IsStatusRequest(r: Result<Option<Packet>>) {
    r.Ok? && r.value.Some? && r.value.value.StatusRequest?
  }

  predicate IsStatusPing(r: Result<Option<Packet>>) {
    r.Ok? && r.value.Some? && r.value.value.StatusPing?
  }

  /** What follows an accepted status request, answering with `status`: the
      response is written; then, if a ping follows, a pong with the same payload is
      written. A missing or unreadable ping is not an error. */
  function StatusAnswer(c: Endpoint, status: ServerStatus): (s: Step<Result<()>>)
    ensures c.wire.NextFault().Some? ==>
              s.result == Err(c.wire.NextFault().value) && s.after.wire.sent == c.wire.sent
    ensures s.result.Ok? ==>
              |s.after.wire.sent| >= |c.wire.sent| + 1 &&
              s.after.wire.sent[|c.wire.sent|] == Sent(StatusResponse(SpecOf(status)), c.writer)
    ensures c.wire.NextFault().None? ==>
              var third := ReadNext(Write(c, StatusResponse(SpecOf(status))).after);
              && (IsStatusPing(third.result) ==> s == Write(third.after, StatusPong(third.result.value.value.payload)))
              && (!IsStatusPing(third.result) ==> s == Step(Ok(()), third.after))
    ensures s.after.reader == c.reader && s.after.writer == c.writer
  {
    var response := Write(c, StatusResponse(SpecOf(status)));
    if response.result.Err? then response
    else
      var third := ReadNext(response.after);
      if IsStatusPing(third.result) then Write(third.after, StatusPong(third.result.value.value.payload))
      else Step(Ok(()), third.after)
  }

  /** The status exchange after a Status handshake: a status request must come first,
      otherwise (a read error included) the exchange fails with a fixed message and
      nothing is written. */
  function StatusExchange(c: Endpoint, status: ServerStatus): (s: Step<Result<()>>)
    ensures !IsStatusRequest(ReadNext(c).result) ==>
              s.result == Err(Message(NoValidStatusPacket)) && s.after.wire.sent == c.wire.sent
    ensures IsStatusRequest(ReadNext(c).result) ==> s == StatusAnswer(ReadNext(c).after, status)
  {
    var second := ReadNext(c);
    if !IsStatusRequest(second.result) then Step(Err(Message(NoValidStatusPacket)), second.after)
    else StatusAnswer(second.after, status)
  }

  /** The part of `handle_status` after the request: send the status, then answer a
      ping. */
  method AnswerStatus(status: ServerStatus, client: Client) returns (r: Result<()>)
    modifies client
    ensures Step(r, client.View()) == StatusAnswer(old(client.View()), status)
  {
    var sent := SendStatus(status, client);
    if sent.Err? {
      return sent;
    }
    var third := client.ReadNextPacket();
    if third.Ok? && third.value.Some? && third.value.value.StatusPing? {
      var pong := client.WritePacket(StatusPong(third.value.value.payload));
      if pong.Err? {
        return pong;
      }
    }
    return Ok(());
  }

  /** A request followed by a ping, with writes that succeed: the client gets the
      status response and then a pong echoing the ping's payload, and nothing else. */
  lemma PingIsEchoed(c: Endpoint, status: ServerStatus, payload: I64)
    requires |c.wire.incoming| >= 2
    requires c.wire.incoming[0] == Arrived(Decodable(StatusRequest))
    requires c.wire.incoming[1] == Arrived(Decodable(StatusPing(payload)))
    requires c.wire.writeFaults == []
    ensures StatusExchange(c, status).result == Ok(())
    ensures StatusExchange(c, status).after.wire.sent ==
            c.wire.sent + [Sent(StatusResponse(SpecOf(status)), c.writer), Sent(StatusPong(payload), c.writer)]
  {
  }

  /** Once the response is out, whatever follows (a read error, another packet,
      nothing) ends the exchange successfully without another write. */
  lemma NoPingStillSucceeds(c: Endpoint, status: ServerStatus)
    requires IsStatusRequest(ReadNext(c).result)
    requires c.wire.AfterRead().NextFault().None?
    requires !IsStatusPing(ReadResult(c.wire.AfterRead().AfterWrite(Sent(StatusResponse(SpecOf(status)), c.writer)).NextEvent()))
    ensures StatusExchange(c, status).result == Ok(())
    ensures StatusExchange(c, status).after.wire.sent == c.wire.sent + [Sent(StatusResponse(SpecOf(status)), c.writer)]
  {
  }

  /** A chat packet that `broadcast_chat` means to send to one registered player. The
      source creates these sends without awaiting them, so none is ever written. */
  datatype Delivery = Delivery(recipient: NameUuid, packet: Packet)

  /** `pending` addresses `packet` to every identity of `keys` exactly once, and to no
      one else. */
  ghost predicate ReachesEach(pending: seq<Delivery>, keys: set<NameUuid>, packet: Packet) {
    && |pending| == |keys|
    && (forall i :: 0 <= i < |pending| ==> pending[i].recipient in keys && pending[i].packet == packet)
    && (forall k :: k in keys ==> Delivery(k, packet) in pending)
    && (forall i, j :: 0 <= i < j < |pending| ==> pending[i] != pending[j])
  }

  /** The largest number of registered players a capacity of `max` admits. */
  function Capacity(max: I32): (n: nat)
    ensures n <= I32Max
    ensures max >= 0 ==> n == max
  {
    if max < 0 then 0 else max
  }

  /** How one accepted connection ended. */
  datatype Admission =
    | HandshakeFailed(error: Error)
    | StatusServed(result: Result<()>)
      /** The capacity is negative and its conversion to an unsigned size panics. */
    | CapacityPanic
    | Full
    | LoginFailed(error: Error)
      /** Every 32-bit entity id is taken; the id search overflows. */
    | IdsExhausted(id: NameUuid)
    | Duplicate(id: NameUuid, entityId: I32)
    | JoinFailed(id: NameUuid, entityId: I32)
    | Admitted(id: NameUuid, entityId: I32)

  /** The connection state of a freshly accepted socket. */
  function Accepted(socket: Wire): (c: Endpoint)
    ensures Paired(c) && c.reader == FreshBridge && c.wire == socket
  {
    Endpoint(FreshBridge, FreshBridge, socket)
  }

  /** What login gives on a socket whose handshake asked for Login. */
  function LoginOn(socket: Wire, online: bool, freshUuid: Uuid, verifyJoin: VerifyJoin): Step<Result<NameUuid>> {
    Negotiate(online, HandshakeStep(Accepted(socket)).after, freshUuid, verifyJoin)
  }

  /** The registry is keyed by each player's own name and UUID, no two players share
      a name or a UUID or an entity id, every registered entity id is reserved, and the
      reserved ids are 32-bit values. */
  ghost predicate WellFormed(clients: map<NameUuid, ServerClient>, entityIds: set<int>) {
    && UniqueIdentities(clients.Keys)
    && (forall k :: k in clients ==>
          clients[k].name == k.name && clients[k].uuid == k.uuid && clients[k].entityId in entityIds)
    && (forall a, b :: a in clients && b in clients && a != b ==> clients[a].entityId != clients[b].entityId)
    && (forall id :: id in entityIds ==> I32Min <= id <= I32Max)
  }

  /** Reserving a new 32-bit entity id keeps the registry well formed. */
  lemma ReserveKeepsWellFormed(clients: map<NameUuid, ServerClient>, entityIds: set<int>, entityId: int)
    requires WellFormed(clients, entityIds) && I32Min <= entityId <= I32Max
    ensures WellFormed(clients, entityIds + {entityId})
  {
  }

  /** Registering a player under its own identity, with a reserved entity id that no
      registered player holds, keeps the registry well formed when the identity shares
      neither name nor UUID with a registered one (`InsertKeepsUnique` gives the
      converse for the identities); the registry grows by one. */
  lemma RegisterKeepsWellFormed(clients: map<NameUuid, ServerClient>, entityIds: set<int>, id: NameUuid,
                                player: ServerClient)
    requires WellFormed(clients, entityIds) && !Conflicts(clients.Keys, id)
    requires player.name == id.name && player.uuid == id.uuid && player.entityId in entityIds
    requires forall k :: k in clients ==> clients[k].entityId != player.entityId
    ensures WellFormed(clients[id := player], entityIds)
    ensures |clients[id := player]| == |clients| + 1
  {
    assert id !in clients by {
      if id in clients {
        assert SameNameOrUuid(id, id);
      }
    }
    InsertKeepsUnique(clients.Keys, id);
    assert clients[id := player].Keys == clients.Keys + {id};
  }

  /** The id search runs past the largest 32-bit value exactly when every 32-bit value
      is taken. */
  lemma ExhaustedWhenAllTaken(ids: set<int>, id: int)
    requires SmallestFree(ids, id)
    ensures id > I32Max <==> forall k :: I32Min <= k <= I32Max ==> k in ids
  {
  }

  /** A player's connection in Play, with the identity it logged in with. */
  class ServerClient {
    const name: string
    const uuid: Uuid
    const entityId: I32
    const player: Player
    const viewDistance: I32
    const connection: Client

    constructor (name: string, uuid: Uuid, entityId: I32, player: Player, connection: Client, viewDistance: I32)
      ensures this.name == name && this.uuid == uuid && this.entityId == entityId
      ensures this.player == player && this.connection == connection && this.viewDistance == viewDistance
    {
      this.name := name;
      this.uuid := uuid;
      this.entityId := entityId;
      this.player := player;
      this.connection := connection;
      this.viewDistance := viewDistance;
    }

    method SendMessage(message: Chat, position: ChatPosition, sender: Option<Uuid>) returns (r: Result<()>)
      modifies connection
      ensures Step(r, connection.View()) == Write(old(connection.View()), ServerChatPacket(message, position, sender))
    {
      r := connection.WritePacket(ServerChatPacket(message, position, sender));
    }

    method Kick(reason: Chat) returns (r: Result<()>)
      modifies connection
      ensures Step(r, connection.View()) == Write(old(connection.View()), PlayDisconnect(reason))
    {
      r := connection.WritePacket(PlayDisconnect(reason));
    }

    /** Join Game: the player's game mode and entity id, the given hardcore flag and
      capacity, the world "world" and the player's view distance. */
    method JoinWorld(isHardcore: bool, maxPlayers: I32) returns (r: Result<()>)
      modifies connection
      ensures Step(r, connection.View()) ==
              Write(old(connection.View()),
                    PlayJoinGame(player.entityId, isHardcore, player.gamemode, "world", maxPlayers, viewDistance))
    {
      r := connection.WritePacket(PlayJoinGame(player.entityId, isHardcore, player.gamemode, "world", maxPlayers, viewDistance));
    }
  }

  class Server {
    var clients: map<NameUuid, ServerClient>
    var entityIds: set<int>
    var status: ServerStatus
    const online: bool
    const hardcore: bool

    /** The registry is well formed and holds no more players than the capacity in
        the status record allows. */
    ghost predicate Valid()
      reads this
    {
      WellFormed(clients, entityIds) && |clients| <= Capacity(status.players.max)
    }

    /** `Server::new`: the initial status, no players, no entity ids, never hardcore. */
    constructor (description: string, maxPlayers: I32, online: bool)
      ensures status == InitialStatus(description, maxPlayers)
      ensures clients == map[] && entityIds == {} && this.online == online && !hardcore
      ensures Valid()
    {
      status := InitialStatus(description, maxPlayers);
      clients := map[];
      entityIds := {};
      this.online := online;
      hardcore := false;
    }

    /** `handle_login`: the negotiation of `Negotiate`, run on the client. The
        compression threshold is never used, since the packet that would announce it
        is never sent. */
    method HandleLogin(client: Client, compressionThreshold: I32, freshUuid: Uuid, verifyJoin: VerifyJoin,
                       rng: nat -> Byte)
      returns (r: Result<NameUuid>)
      modifies client
      ensures Step(r, client.View()) == Negotiate(online, old(client.View()), freshUuid, verifyJoin)
    {
      var second := client.ReadNextPacket();
      if !(second.Ok? && second.value.Some? && second.value.value.LoginStart?) {
        return Err(Message(NoLoginStart));
      }
      var result := NameUuid(second.value.value.name, freshUuid);
      if online {
        var verified := ExchangeKeys(second.value.value.name, client, verifyJoin, rng);
        if verified.Err? {
          return verified;
        }
        result := verified.value;
      }
      var success := client.WritePacket(LoginSuccess(result.uuid, result.name));
      if success.Err? {
        return Err(success.error);
      }
      client.SetState(Play);
      return Ok(result);
    }

    /** The online-mode part of `handle_login`, the exchange of `KeyExchange`. The
        public key and the verify token are sixteen-byte buffers of zeros; the loops
        meant to randomise them draw a byte per slot and drop it. */
    method ExchangeKeys(name: string, client: Client, verifyJoin: VerifyJoin, rng: nat -> Byte)
      returns (r: Result<NameUuid>)
      modifies client
      ensures Step(r, client.View()) == KeyExchange(name, old(client.View()), verifyJoin)
    {
      var serverId := ServerId;
      var publicKey := new Byte[16](_ => 0);
      for i := 0 to publicKey.Length
        invariant publicKey[..] == ZeroBytes
      {
        var slot := publicKey[i];
        slot := rng(i);
      }
      var verifyToken := new Byte[16](_ => 0);
      for i := 0 to verifyToken.Length
        invariant verifyToken[..] == ZeroBytes
      {
        var slot := verifyToken[i];
        slot := rng(16 + i);
      }
      var request := client.WritePacket(LoginEncryptionRequest(serverId, publicKey[..], verifyToken[..]));
      if request.Err? {
        return Err(request.error);
      }
      var response := client.ReadNextPacket();
      if response.Ok? && response.value.Some? && response.value.value.LoginEncryptionResponse? {
        var echoed := response.value.value;
        if echoed.verifyToken == verifyToken[..] {
          var verify := verifyJoin(name, serverId, echoed.sharedSecret, publicKey[..]);
          if verify.Ok? {
            var enabled := client.EnableEncryption(publicKey[..], verifyToken[..]);
            if enabled.Err? {
              return Err(enabled.error);
            }
            return Ok(verify.value);
          } else {
            return Err(verify.error);
          }
        } else {
          return Err(Message(WrongEncryptionResponse));
        }
      } else {
        if response.Err? {
          return Err(response.error);
        } else {
          return Err(Message(NoEncryptionResponse));
        }
      }
    }

    /** `broadcast_chat`: one chat-box message with no sender for every registered
        player, in the map's (unspecified) order. The sends are never awaited, so no
        connection is written to. */
    method BroadcastChat(message: Chat) returns (pending: seq<Delivery>)
      ensures ReachesEach(pending, clients.Keys, ServerChatPacket(message, ChatBox, None))
    {
      var packet := ServerChatPacket(message, ChatBox, None);
      pending := [];
      var remaining := clients.Keys;
      while remaining != {}
        invariant remaining <= clients.Keys
        invariant |pending| + |remaining| == |clients.Keys|
        invariant forall i :: 0 <= i < |pending| ==>
                    pending[i].recipient in clients.Keys - remaining && pending[i].packet == packet
        invariant forall k :: k in clients.Keys - remaining ==> Delivery(k, packet) in pending
        invariant forall i, j :: 0 <= i < j < |pending| ==> pending[i] != pending[j]
        decreases |remaining|
      {
        var k :| k in remaining;
        pending := pending + [Delivery(k, packet)];
        remaining := remaining - {k};
      }
    }

    /** `handle_packet`: a chat message from `sender` is broadcast as the line
        `<name> message`; every other packet is ignored. */
    method HandlePacket(packet: Packet, sender: ServerClient) returns (pending: seq<Delivery>)
      ensures packet.PlayClientChatMessage? ==>
                ReachesEach(pending, clients.Keys, ServerChatPacket(ChatLine(sender.name, packet.text), ChatBox, None))
      ensures !packet.PlayClientChatMessage? ==> pending == []
    {
      match packet {
        case PlayClientChatMessage(text) =>
          pending := BroadcastChat(ChatLine(sender.name, text));
        case _ =>
          pending := [];
      }
    }

    /** The bookkeeping of `handle_status` on a status request: the online count
        becomes the number of registered players and the sample lists each of them
        once, in the map's (unspecified) order; nothing else changes. */
    method RefreshStatus()
      requires Valid()
      modifies this
      ensures Valid() && clients == old(clients) && entityIds == old(entityIds)
      ensures status.players.online == |clients| && Enumerates(status.players.sample, clients.Keys)
      ensures status.players.max == old(status.players.max)
      ensures status.description == old(status.description)
      ensures status.version == old(status.version) && status.favicon == old(status.favicon)
    {
      var sample := BuildSample(clients.Keys);
      var count: I32 := |clients|;
      ghost var registered := WellFormed(clients, entityIds);
      status := status.(players := StatusPlayers(status.players.max, count, sample));
      assert registered == WellFormed(clients, entityIds);
    }

    /** `handle_status`: on a status request, refresh the record and run the exchange
        of `StatusExchange` with it; without a request the record is left as it was. */
    method HandleStatus(client: Client) returns (r: Result<()>)
      requires Valid()
      modifies this, client
      ensures Valid() && clients == old(clients) && entityIds == old(entityIds)
      ensures IsStatusRequest(ReadNext(old(client.View())).result) ==>
                && status.players.online == |clients|
                && Enumerates(status.players.sample, clients.Keys)
                && status.players.max == old(status.players.max)
                && status.description == old(status.description)
                && status.version == old(status.version) && status.favicon == old(status.favicon)
      ensures !IsStatusRequest(ReadNext(old(client.View())).result) ==> status == old(status)
      ensures Step(r, client.View()) == StatusExchange(old(client.View()), status)
    {
      var second := client.ReadNextPacket();
      if !(second.Ok? && second.value.Some? && second.value.value.StatusRequest?) {
        return Err(Message(NoValidStatusPacket));
      }
      RefreshStatus();
      r := AnswerStatus(status, client);
    }

    /** What the accept task does once `id` has logged in on `client`: reserve the
        smallest free entity id, then `Enrol`. The id stays reserved whatever `Enrol`
        decides. */
    method Register(id: NameUuid, client: Client) returns (outcome: Admission)
      requires Valid() && |clients| < Capacity(status.players.max)
      modifies this, client
      ensures Valid() && status == old(status)
      ensures (outcome.IdsExhausted? || outcome.Duplicate? || outcome.JoinFailed? || outcome.Admitted?) && outcome.id == id
      ensures outcome.IdsExhausted? <==> forall k :: I32Min <= k <= I32Max ==> k in old(entityIds)
      ensures outcome.IdsExhausted? ==> entityIds == old(entityIds) && clients == old(clients)
      ensures outcome.IdsExhausted? ==> client.View() == old(client.View())
      ensures !outcome.IdsExhausted? ==>
                SmallestFree(old(entityIds), outcome.entityId) && entityIds == old(entityIds) + {outcome.entityId}
      ensures outcome.Duplicate? <==> !outcome.IdsExhausted? && Conflicts(old(clients).Keys, id)
      ensures outcome.Duplicate? ==>
                client.View() == Write(old(client.View()), PlayDisconnect(PlainText(AlreadyConnected))).after
      ensures outcome.JoinFailed? || outcome.Admitted? ==>
                var joining := Write(old(client.View()),
                                     PlayJoinGame(outcome.entityId, hardcore, Spectator, "world",
                                                  status.players.max, DefaultViewDistance));
                client.View() == joining.after && (outcome.Admitted? <==> joining.result.Ok?)
      ensures outcome.Admitted? ==>
                && id in clients && clients == old(clients)[id := clients[id]]
                && fresh(clients[id]) && clients[id].connection == client
                && clients[id].entityId == outcome.entityId
                && clients[id].player == NewPlayer(id.name, id.uuid, outcome.entityId)
                && clients[id].viewDistance == DefaultViewDistance
      ensures !outcome.Admitted? ==> clients == old(clients)
    {
      var entityId := FirstFreeId(entityIds);
      ExhaustedWhenAllTaken(entityIds, entityId);
      if entityId > I32Max {
        return IdsExhausted(id);
      }
      ReserveKeepsWellFormed(clients, entityIds, entityId);
      entityIds := entityIds + {entityId};
      outcome := Enrol(id, entityId, client);
    }

    /** The rest of admission for `id` on `client` with the reserved `entityId`: turn
        the player away if a registered player shares the name or the UUID, otherwise
        send Join Game and, if that write succeeds, register the player. */
    method Enrol(id: NameUuid, entityId: I32, client: Client) returns (outcome: Admission)
      requires Valid() && |clients| < Capacity(status.players.max)
      requires entityId in entityIds && forall k :: k in clients ==> clients[k].entityId != entityId
      modifies this, client
      ensures Valid() && status == old(status) && entityIds == old(entityIds)
      ensures outcome in {Duplicate(id, entityId), JoinFailed(id, entityId), Admitted(id, entityId)}
      ensures outcome.Duplicate? <==> Conflicts(old(clients).Keys, id)
      ensures outcome.Duplicate? ==>
                client.View() == Write(old(client.View()), PlayDisconnect(PlainText(AlreadyConnected))).after
      ensures !outcome.Duplicate? ==>
                var joining := Write(old(client.View()),
                                     PlayJoinGame(entityId, hardcore, Spectator, "world",
                                                  status.players.max, DefaultViewDistance));
                client.View() == joining.after && (outcome.Admitted? <==> joining.result.Ok?)
      ensures outcome.Admitted? ==>
                && id in clients && clients == old(clients)[id := clients[id]]
                && fresh(clients[id]) && clients[id].connection == client
                && clients[id].entityId == entityId
                && clients[id].player == NewPlayer(id.name, id.uuid, entityId)
                && clients[id].viewDistance == DefaultViewDistance
      ensures !outcome.Admitted? ==> clients == old(clients)
    {
      var serverClient := new ServerClient(id.name, id.uuid, entityId, NewPlayer(id.name, id.uuid, entityId),
                                           client, DefaultViewDistance);
      var duplicate := FindConflict(clients.Keys, id);
      if duplicate {
        var kicked := serverClient.Kick(PlainText(AlreadyConnected));
        return Duplicate(id, entityId);
      }
      var joined := serverClient.JoinWorld(hardcore, status.players.max);
      if joined.Err? {
        return JoinFailed(id, entityId);
      }
      RegisterKeepsWellFormed(clients, entityIds, id, serverClient);
      clients := clients[id := serverClient];
      return Admitted(id, entityId);
    }

    /** The task the accept loop spawns for one connection: the handshake; then either
        the status exchange, or the capacity check, login and `Register`. */
    method Admit(socket: Wire, freshUuid: Uuid, verifyJoin: VerifyJoin, rng: nat -> Byte)
      returns (outcome: Admission, client: Client)
      requires Valid()
      modifies this
      ensures Valid() && fresh(client)
      ensures outcome.HandshakeFailed? <==> HandshakeStep(Accepted(socket)).result.Err?
      ensures outcome.HandshakeFailed? ==> outcome.error == HandshakeStep(Accepted(socket)).result.error
      ensures outcome.StatusServed? <==> HandshakeStep(Accepted(socket)).result == Ok(Status)
      ensures outcome.StatusServed? ==>
                Step(outcome.result, client.View()) == StatusExchange(HandshakeStep(Accepted(socket)).after, status)
      ensures outcome.CapacityPanic? <==>
                HandshakeStep(Accepted(socket)).result == Ok(Login) && old(status.players.max) < 0
      ensures outcome.Full? <==>
                HandshakeStep(Accepted(socket)).result == Ok(Login) && 0 <= old(status.players.max) <= |old(clients)|
      ensures outcome.Full? ==>
                client.View() == Write(HandshakeStep(Accepted(socket)).after, LoginDisconnect(PlainText(ServerFull))).after
      ensures outcome.LoginFailed? ==> LoginOn(socket, online, freshUuid, verifyJoin).result == Err(outcome.error)
      ensures outcome.IdsExhausted? || outcome.Duplicate? || outcome.JoinFailed? || outcome.Admitted? ==>
                && HandshakeStep(Accepted(socket)).result == Ok(Login)
                && 0 <= old(|clients|) < old(status.players.max)
                && LoginOn(socket, online, freshUuid, verifyJoin).result == Ok(outcome.id)
      ensures outcome.IdsExhausted? ==>
                && (forall k :: I32Min <= k <= I32Max ==> k in old(entityIds))
                && client.View() == LoginOn(socket, online, freshUuid, verifyJoin).after
      ensures outcome.Duplicate? || outcome.JoinFailed? || outcome.Admitted? ==>
                && SmallestFree(old(entityIds), outcome.entityId)
                && entityIds == old(entityIds) + {outcome.entityId}
                && (outcome.Duplicate? <==> Conflicts(old(clients).Keys, outcome.id))
      ensures outcome.Duplicate? ==>
                client.View() == Write(LoginOn(socket, online, freshUuid, verifyJoin).after,
                                       PlayDisconnect(PlainText(AlreadyConnected))).after
      ensures outcome.JoinFailed? || outcome.Admitted? ==>
                var joining := Write(LoginOn(socket, online, freshUuid, verifyJoin).after,
                                     PlayJoinGame(outcome.entityId, hardcore, Spectator, "world",
                                                  status.players.max, DefaultViewDistance));
                client.View() == joining.after && (outcome.Admitted? <==> joining.result.Ok?)
      ensures outcome.Admitted? ==>
                && outcome.id in clients && clients == old(clients)[outcome.id := clients[outcome.id]]
                && fresh(clients[outcome.id]) && clients[outcome.id].connection == client
                && clients[outcome.id].entityId == outcome.entityId
                && clients[outcome.id].player == NewPlayer(outcome.id.name, outcome.id.uuid, outcome.entityId)
      ensures !(outcome.Duplicate? || outcome.JoinFailed? || outcome.Admitted?) ==> entityIds == old(entityIds)
      ensures !outcome.Admitted? ==> clients == old(clients)
      ensures !outcome.StatusServed? ==> status == old(status)
      ensures outcome.StatusServed? && IsStatusRequest(ReadNext(HandshakeStep(Accepted(socket)).after).result) ==>
                && status.players.online == |clients|
                && Enumerates(status.players.sample, clients.Keys)
                && status.players.max == old(status.players.max)
                && status.description == old(status.description)
                && status.version == old(status.version) && status.favicon == old(status.favicon)
      ensures outcome.StatusServed? && !IsStatusRequest(ReadNext(HandshakeStep(Accepted(socket)).after).result) ==>
                status == old(status)
    {
      client := new Client(socket);
      var handshake := client.Handshake();
      if handshake.Err? {
        return HandshakeFailed(handshake.error), client;
      }
      if handshake.value != Login {
        var served := HandleStatus(client);
        return StatusServed(served), client;
      }
      if status.players.max < 0 {
        return CapacityPanic, client;
      }
      if |clients| >= status.players.max {
        var kicked := LoginKick(client, PlainText(ServerFull));
        return Full, client;
      }
      var login := HandleLogin(client, LoginCompressionThreshold, freshUuid, verifyJoin, rng);
      if login.Err? {
        return LoginFailed(login.error), client;
      }
      outcome := Register(login.value, client);
    }
  }
}
