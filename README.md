# Endstone session logic in Dafny

Endstone is a Minecraft 1.16 (protocol 753) server written in Rust. This project
models the session logic that sits on top of its packet codec:

- the connection object with its read and write halves (`Session.Client`), and the
  client-side connection wrapper (`Connection.MinecraftClient`);
- the handshake, which moves a connection to Status or Login;
- login negotiation in offline and online mode (`LoginFlow`, `Network.Server.HandleLogin`);
- admission of a logged-in player: the capacity check, the smallest free entity id,
  the duplicate name-or-UUID check, Join Game and registration (`Network.Server.Admit`);
- the status exchange with its live player count and sample, and the ping/pong;
- chat formatting and broadcast (`Dispatch`, `Network.Server.HandlePacket`);
- the player record and its inventory accessors (`Players`).

The codec is not modelled. A `Transport.Wire` stands in for the socket. It holds a
script of what the peer delivers next and of which writes fail. It also keeps a log of
every packet written, together with the write half's configuration at that moment. The
log therefore shows which packets went out encrypted.

Each connection half is a `Protocol.Bridge`: a protocol state, an optional compression
threshold and an optional cipher. The methods of `Session.Client` change the two halves
in place. Each is proved equal to a pure step function over `Session.Endpoint`. The
login and status handlers are proved equal to pure specifications (`LoginFlow.Negotiate`,
`Network.StatusExchange`). The lemmas about those specifications state what the source
promises, and also where it falls short:

- the verify token is always sixteen zero bytes;
- the cipher is keyed with the public key and the verify token, not with the shared secret;
- entity ids leak when a login is turned away;
- five of the inventory accessors can never succeed;
- broadcast chat is never written.

The server's shared state lives in `Network.Server`, whose `Valid()` invariant is
preserved by every handler:

- identities are unique;
- each registry key matches its player;
- entity ids are distinct and reserved;
- there are no more players than the capacity.

The session service (`verify_join`) is a function parameter of type `LoginFlow.VerifyJoin`.
`UUID4::random` is the parameter `freshUuid`. `rand::random` is the parameter `rng`.

The two `Client` types in `src/server/network.rs` (lines 19-92) and
`src/server/client.rs` are the same code, line for line. They are modelled once as
`Session.Client`. The pure step functions cite `src/server/client.rs`, and the class
methods cite `src/server/network.rs`.

Enabling a cipher is assumed to follow the bridge library's rule, which is not part of
this model. It fails if a cipher is already configured, or if the key or the IV is not
16 bytes long (`Protocol.EnableCipher`).

## Model

| member | source | states |
|---|---|---|
| Protocol.EnableCipher | src/server/network.rs:84-89 | a bridge accepts a cipher exactly when it has none yet and key and IV are 16 bytes; it then holds exactly that key and IV; a second cipher is refused |
| Protocol.TargetState | src/server/network.rs:55-64 | next state Status leads to State Status and Login to Login, both legal successors of Handshaking |
| Protocol.HandshakeDecision | src/client/connection.rs:56-75 | the handshake succeeds exactly on a Handshake packet, with its target state; a read error is passed on unchanged; any other packet or no packet gives the given message |
| Transport.ReadResult | src/server/network.rs:41-49 | no raw packet gives Ok(None); an I/O or deserialisation error is the result; a decodable packet is returned as it is |
| Session.ReadNext | src/server/client.rs:32-40 | a read consumes one event of the socket and leaves both halves alone; its result is the event as `read_next_packet` reports it: Ok(None) exactly when nothing arrived, Ok(Some(p)) for a packet that deserialises, the I/O error or the deserialisation error otherwise |
| Session.Write | src/server/client.rs:27-30 | a write succeeds exactly when the socket accepts it, and its error is the socket's; only then is the packet logged, under the writer's current configuration; the packets still to arrive and both halves are untouched |
| Session.WithState | src/server/client.rs:64-67 | both halves get the given state; thresholds, ciphers and the socket are unchanged |
| Session.WithThreshold | src/server/client.rs:69-72 | both halves get Some(threshold); states, ciphers and the socket are unchanged |
| Session.WithEncryption | src/server/client.rs:74-82 | the reader goes first; if it refuses, that error is the result and the writer is untouched; otherwise the result is the writer's outcome; on success both halves hold the cipher; states, thresholds and the socket are untouched; paired halves stay paired |
| Session.HandshakeStep | src/server/client.rs:42-62 | success exactly on a Handshake packet, and then the result is the state its `next_state` selects and both halves are in it; a read error propagates; any other packet gives "Did not receive handshake" |
| Session.HandshakeSetsBothHalves | src/server/network.rs:51-64 | a Handshake on a paired connection returns its target state and leaves both halves in it, still paired |
| Session.Client.constructor | src/server/network.rs:25-30 | a new connection has two fresh, identical halves over the given socket |
| Session.Client.WritePacket | src/server/network.rs:36-39 | does exactly `Session.Write` |
| Session.Client.ReadNextPacket | src/server/network.rs:41-49 | does exactly `Session.ReadNext` |
| Session.Client.Handshake | src/server/network.rs:51-71 | does exactly `Session.HandshakeStep` |
| Session.Client.SetState | src/server/network.rs:73-76 | does exactly `Session.WithState` |
| Session.Client.SetCompressionThreshold | src/server/network.rs:78-81 | does exactly `Session.WithThreshold` |
| Session.Client.EnableEncryption | src/server/network.rs:83-91 | does exactly `Session.WithEncryption`, reader first |
| Connection.WriteOutcome | src/client/connection.rs:29-37 | a write is Ok exactly when the codec write succeeds; any failure becomes "Failed to send packet!" |
| Connection.MinecraftClient.constructor | src/client/connection.rs:17-21 | the wrapper holds the given connection |
| Connection.MinecraftClient.WritePacket | src/client/connection.rs:29-37 | result as `WriteOutcome`; the packet is logged under the unchanged configuration |
| Connection.MinecraftClient.ReadNextPacket | src/client/connection.rs:39-47 | result as `Transport.ReadResult`; one event consumed; configuration unchanged |
| Connection.MinecraftClient.SetState | src/client/connection.rs:49-51 | the configuration gets the given state and nothing else changes |
| Connection.MinecraftClient.Handshake | src/client/connection.rs:53-76 | result as `HandshakeDecision` with "No handshake received"; the state changes only on success, to the returned state |
| Connection.SendStatus | src/client/connection.rs:88-101 | writes one status response built by `SpecOf`, with the outcome of `WriteOutcome` |
| StatusInfo.InitialStatus | src/server/network.rs:108-120 | nobody online, empty sample, the given capacity, "Endstone 1.16.2", protocol 753, no favicon |
| StatusInfo.SpecOf | src/server/network.rs:524-529 | description, favicon and players copied unchanged, version wrapped in Some |
| StatusInfo.BuildSample | src/server/network.rs:419-426 | the sample lists each registered (uuid, name) exactly once and nothing else |
| Players.NewInventory | src/server/player.rs:67-69 | stores the given 44 slots unchanged |
| Players.NewEmptyInventory | src/server/player.rs:71-76 | 44 slots, all empty |
| Players.NewPlayer | src/server/player.rs:39-59 | keeps name, UUID and entity id; health, hunger and saturation 20; Spectator; dimension 0 of "world"; empty inventory |
| Players.IntoSlots | src/server/player.rs:81-82 | the conversion succeeds exactly when the slice has the target length, and panics with "Inventory did not have enough slots." otherwise |
| Players.GetArmor | src/server/player.rs:78-83 | always panics: 3 slots into an array of 4 |
| Players.GetInventory | src/server/player.rs:85-90 | always panics: 26 slots into an array of 27 |
| Players.GetHotbar | src/server/player.rs:92-97 | always panics: 8 slots into an array of 9 |
| Players.GetOffhand | src/server/player.rs:99-101 | always panics: slot 45 of a 44-slot array |
| Players.GetCraftingInput | src/server/player.rs:103-108 | always panics: 3 slots into an array of 4 |
| Players.GetCraftingOutput | src/server/player.rs:110-112 | exactly slot 0 |
| Registry.FirstFreeId | src/server/network.rs:186-191 | the smallest value from the 32-bit minimum up that is not taken |
| Registry.FindConflict | src/server/network.rs:207-212 | true exactly when a registered identity shares the name or the UUID |
| Registry.InsertKeepsUnique | src/server/network.rs:207-212 | adding an identity keeps identities unique exactly when it conflicts with none |
| Registry.LeakedIdSkipped | src/server/network.rs:186-192 | an id kept reserved by a rejected login is skipped: the next id handed out is larger |
| Dispatch.FormatChat | src/server/network.rs:400 | the line is '<', the sender, "> ", then the message |
| Dispatch.SenderRoundTrip | src/server/network.rs:400 | the sender, if free of '>', and the message can be read back from the line |
| Dispatch.FormatChatInjective | src/server/network.rs:400 | for senders without '>', equal lines come from the same sender and the same message |
| Dispatch.ChatLineCanBeForged | src/server/network.rs:400 | a sender named "a> x" saying "y" gives the same line as "a" saying "x> y" |
| Dispatch.ServerChatPacket | src/server/network.rs:474-480 | the chat packet carries the message and position, and the sender's UUID or 0 when there is none |
| Dispatch.ChatLine | src/server/network.rs:399-402 | a traditional chat component with colour codes translated, whose text is `FormatChat` |
| LoginFlow.EncryptionRequest | src/server/network.rs:302-315 | server id of sixteen spaces; public key and verify token of sixteen bytes, all zero |
| LoginFlow.FinishLogin | src/server/network.rs:362-371 | LoginSuccess carries the identity; Play is set on both halves only if that write succeeded, and otherwise the write's own error is the result |
| LoginFlow.KeyExchange | src/server/network.rs:301-352 | a failed request write ends the exchange before any read; a read error on the response is passed on, any other non-response gives "Client did not send a valid response to the encryption request.", and a wrong echoed token gives the "correct response" message; success leaves both halves keyed with the zero public key and zero token; states and thresholds unchanged |
| LoginFlow.Negotiate | src/server/network.rs:291-375 | no LoginStart gives "Client did not follow up with Login start"; offline success gives (name, fresh UUID); success ends in Play with LoginSuccess of the result as the last packet; failure leaves the states; from Login, success is a legal move to Play; thresholds never change |
| LoginFlow.OfflineLogin | src/server/network.rs:294-299 | offline, LoginStart and a good write give exactly (name, fresh UUID), one LoginSuccess and Play |
| LoginFlow.OnlineRequestIsConstant | src/server/network.rs:302-317 | online, the first packet sent is always the constant encryption request |
| LoginFlow.WrongTokenRejectedBeforeAuth | src/server/network.rs:322-343 | a wrong echoed token fails with the fixed message, whatever the session service would answer |
| LoginFlow.OnlineLogin | src/server/network.rs:322-340 | online success means the echoed token was zero, the result is what the service confirmed, and both halves are keyed with (zero key, zero token), under which LoginSuccess goes out |
| LoginFlow.OnlineLoginSucceeds | src/server/network.rs:317-371 | LoginStart, accepted writes, the zero token echoed back and the service confirming `v` give exactly `v`, both halves in Play and keyed, and the encryption request then LoginSuccess (under the cipher) on the wire |
| LoginFlow.VerifyJoinErrorIsLoginError | src/server/network.rs:325-339 | a refusal by the session service is the login's error; only the encryption request was sent and both halves are unchanged |
| LoginFlow.CipherRefusalIsLoginError | src/server/network.rs:332-335 | when `enable_encryption` refuses (a cipher is already set), its error is the login's error and LoginSuccess is never sent |
| Network.SendStatus | src/server/network.rs:523-536 | writes one status response built by `SpecOf` |
| Network.LoginKick | src/server/network.rs:377-383 | writes one LoginDisconnect with the message |
| Network.StatusAnswer | src/server/network.rs:428-444 | a failed response write is the error and sends nothing; on success the response is the first packet sent; after it, a ping is answered by a pong write whose outcome is the result, and anything else gives Ok; the halves never change |
| Network.StatusExchange | src/server/network.rs:413-454 | without a status request first, the fixed error and nothing sent; otherwise `StatusAnswer` |
| Network.AnswerStatus | src/server/network.rs:428-444 | does exactly `StatusAnswer` |
| Network.PingIsEchoed | src/server/network.rs:431-444 | request, then ping: the response and then a pong with the same payload, and Ok |
| Network.NoPingStillSucceeds | src/server/network.rs:431-444 | once the response is out, no ping (or a failed read) still gives Ok, with nothing more sent |
| Network.Capacity | src/server/network.rs:171-172 | the capacity as a count: the maximum when it is not negative, never above the 32-bit maximum |
| Network.Accepted | src/server/network.rs:159 | an accepted socket starts with two fresh, paired halves |
| Network.ReserveKeepsWellFormed | src/server/network.rs:192 | reserving a 32-bit id keeps the registry well formed |
| Network.RegisterKeepsWellFormed | src/server/network.rs:249-252 | inserting a non-conflicting player with a reserved, unused id keeps the registry well formed and grows it by one |
| Network.ExhaustedWhenAllTaken | src/server/network.rs:189-190 | the id search passes the 32-bit maximum exactly when every 32-bit id is taken |
| Network.ServerClient.constructor | src/server/network.rs:194-205 | the player's identity, entity id, record, connection and view distance |
| Network.ServerClient.SendMessage | src/server/network.rs:470-482 | writes the chat packet of `ServerChatPacket` |
| Network.ServerClient.Kick | src/server/network.rs:484-490 | writes one PlayDisconnect with the reason |
| Network.ServerClient.JoinWorld | src/server/network.rs:492-512 | writes Join Game with the player's entity id and game mode, the hardcore flag, the capacity, "world" and the view distance |
| Network.Server.constructor | src/server/network.rs:107-130 | initial status, no players, no entity ids, not hardcore; the invariant holds |
| Network.Server.HandleLogin | src/server/network.rs:291-375 | does exactly `LoginFlow.Negotiate` |
| Network.Server.ExchangeKeys | src/server/network.rs:301-352 | does exactly `LoginFlow.KeyExchange`; the fill loops leave the buffers zero |
| Network.Server.BroadcastChat | src/server/network.rs:386-394 | one chat-box message without a sender is addressed to every registered player exactly once; nothing is written |
| Network.Server.HandlePacket | src/server/network.rs:396-407 | a chat message is broadcast as `<name> message`; any other packet does nothing |
| Network.Server.RefreshStatus | src/server/network.rs:417-427 | online count = number of players, sample = each player once; nothing else changes |
| Network.Server.HandleStatus | src/server/network.rs:409-455 | on a request the record is refreshed and `StatusExchange` runs with it; otherwise the record is unchanged; the invariant is kept |
| Network.Server.Register | src/server/network.rs:186-193 | the smallest free id is reserved and stays reserved whatever follows; overflow exactly when all ids are taken; a duplicate is turned away exactly on a conflict, with the AlreadyConnected disconnect; otherwise Join Game is written with that id, and exactly when it succeeds the player is registered under its identity with a fresh Player; the invariant is kept |
| Network.Server.Enrol | src/server/network.rs:194-252 | a conflict gets PlayDisconnect and changes no registry; otherwise Join Game is written and, only if it succeeds, exactly one entry keyed by (name, uuid) is added |
| Network.Server.Admit | src/server/network.rs:158-253 | handshake failure, status, capacity panic, full server (LoginDisconnect, login never run), login failure, or registration, each exactly in its case; after a login, the id overflow happens only when every id is taken, otherwise the smallest free id is reserved, the duplicate kick happens exactly on a conflict, Join Game follows the login's writes, and on success the player is added to the registry and nothing else changes there; a status exchange that got its request leaves the record refreshed (online count and sample from the registry, other fields kept), and one without a request leaves it unchanged; the invariant is kept |

## Left out

- The packet codec: framing, compression, encryption and (de)serialisation live in
  libraries that are not part of this model. Packets are an abstract datatype, and a
  scripted wire stands in for the socket.
- The cipher rule of the bridge library is assumed, as described above.
- Concurrency: the accept loop, spawned tasks and locks. Handlers run one at a time to
  completion. So two races are not modelled: the one between the duplicate check and
  the insert, and the one between the capacity check (under the server lock) and the
  insert (after that lock is released), which lets concurrent logins exceed the
  capacity. The lock order of `handle_packet` with `broadcast_chat` is not modelled
  either. The capacity clause of `Valid()` therefore holds of the sequential model,
  not of the program under concurrent logins.
- The per-player read loop spawned after Join Game is not modelled as a loop. Its body,
  `handle_packet`, is modelled. Nothing ever removes a player or an entity id, and the
  model matches that.
- Network.Server.BroadcastChat: the sends are futures that are never awaited, so the
  model returns the intended deliveries and writes nothing.
- Network.Server.Register: in an optimised build the overflowing `entity_id + 1`
  wraps and the search loops forever instead of panicking. Both end in `IdsExhausted`.
- Network.Server.Admit: a negative capacity makes the `try_into().unwrap()` panic. This
  is the `CapacityPanic` outcome. Panics elsewhere, such as in `from_stream`, are not
  modelled.
- Players.GetOffhand: a constant index past the array's end is also rejected by the
  Rust compiler's default lints. The model keeps the run-time panic the code describes.
- LoginFlow.WrongTokenRejectedBeforeAuth: the source's error message also appends the
  debug form of the response. The model keeps only the fixed text.
- The unused `LoginSetCompression` response in `handle_login`. The code that would send it
  is commented out, so thresholds never change during login. The threshold parameter is
  kept and ignored.
- `join_world`'s dimension codec, dimension, world list, seed and flags, which are an
  opaque NBT payload and constants. Join Game carries only the fields listed above.
- The session service (`verify_join` in `src/server/auth.rs`), an HTTPS request, is a
  function parameter.
- Random values (`UUID4::random`, `rand::random`) are parameters.
- `Position`'s floating-point coordinates. Only its dimension and world are kept.
- Logging, binding the listening address, `src/main.rs`, and the commented-out code in
  `src/server/server.rs` and `src/server/player.rs`. `src/player/player.rs` and
  `src/client/player.rs` are not part of this model.
