/** The login negotiation, as a function of the connection state it starts from.
    It reads LoginStart; in online mode it sends an encryption request, checks the
    echoed verify token, asks the session service to confirm the player and turns
    encryption on; then it sends LoginSuccess and, only once that write succeeded,
    moves both halves to Play. The server's handler is proved to do exactly this.

    Two things in the online exchange differ from the protocol it implements: the
    public key and the verify token are sixteen zero bytes (the loops meant to fill
    them with random bytes only rebind their loop variable), and the cipher is keyed
    with that public key and verify token rather than with the shared secret the
    client sent. */
module LoginFlow {
  import opened Protocol
  import opened Transport
  import opened Session

  /** The session service's `verify_join(name, server_id, shared_secret, public_key)`:
      the confirmed identity, or an error. */
  type VerifyJoin = (string, string, seq<Byte>, seq<Byte>) -> Result<NameUuid>

  /** The server id sent in the encryption request: sixteen spaces. */
  const ServerId: string := "                "

  /** The public key and the verify token as they are sent: sixteen zero bytes each. */
  const ZeroBytes: seq<Byte> := [0, 0, 0, 0, 0, 0, 0, 0, 0, 0, 0, 0, 0, 0, 0, 0]

  const NoLoginStart: string := "Client did not follow up with Login start"
  const WrongEncryptionResponse: string := "Client did not send the correct response to encryption request."
  const NoEncryptionResponse: string := "Client did not send a valid response to the encryption request."

  function EncryptionRequest(): (p: Packet)
    ensures p.LoginEncryptionRequest? && |p.serverId| == 16 && forall i :: 0 <= i < 16 ==> p.serverId[i] == ' '
    ensures |p.publicKey| == 16 && |p.verifyToken| == 16
    ensures forall i :: 0 <= i < 16 ==> p.publicKey[i] == 0 && p.verifyToken[i] == 0
  {
    LoginEncryptionRequest(ServerId, ZeroBytes, ZeroBytes)
  }

  predicate IsLoginStart(r: Result<Option<Packet>>) {
    r.Ok? && r.value.Some? && r.value.value.LoginStart?
  }

  predicate IsEncryptionResponse(r: Result<Option<Packet>>) {
    r.Ok? && r.value.Some? && r.value.value.LoginEncryptionResponse?
  }

  /** The last step of every successful login: send LoginSuccess with the identity,
      and only if that write succeeds put both halves into Play. */
  function FinishLogin(id: NameUuid, c: Endpoint): (s: Step<Result<NameUuid>>)
    ensures s.result.Ok? <==> c.wire.NextFault().None?
    ensures s.result.Ok? ==> s.result.value == id && s.after == WithState(Write(c, LoginSuccess(id.uuid, id.name)).after, Play)
    ensures s.result.Err? ==> s.result.error == c.wire.NextFault().value
    ensures s.result.Err? ==> s.after == Write(c, LoginSuccess(id.uuid, id.name)).after
  {
    var w := Write(c, LoginSuccess(id.uuid, id.name));
    if w.result.Err? then Step(Err(w.result.error), w.after) else Step(Ok(id), WithState(w.after, Play))
  }

  /** The online-mode key exchange for a player who asked for `name`: send the
      encryption request, read the response, check the echoed verify token, ask the
      session service, and turn encryption on. Its result is the identity the service
      confirmed. */
  function KeyExchange(name: string, c: Endpoint, verifyJoin: VerifyJoin): (s: Step<Result<NameUuid>>)
    ensures c.wire.NextFault().Some? ==>
              s.result == Err(c.wire.NextFault().value) && s.after.wire.incoming == c.wire.incoming
    ensures c.wire.NextFault().None? ==>
              var response := ReadNext(Write(c, EncryptionRequest()).after).result;
              && (!IsEncryptionResponse(response) ==>
                    s.result == if response.Err? then Err(response.error) else Err(Message(NoEncryptionResponse)))
              && (IsEncryptionResponse(response) && response.value.value.verifyToken != ZeroBytes ==>
                    s.result == Err(Message(WrongEncryptionResponse)))
    ensures s.result.Ok? ==>
              s.after.reader.cipher == Some(Cipher(ZeroBytes, ZeroBytes)) &&
              s.after.writer.cipher == Some(Cipher(ZeroBytes, ZeroBytes))
    ensures s.after.reader.state == c.reader.state && s.after.writer.state == c.writer.state
    ensures s.after.reader.threshold == c.reader.threshold && s.after.writer.threshold == c.writer.threshold
    ensures Paired(c) ==> Paired(s.after)
  {
    var request := Write(c, EncryptionRequest());
    if request.result.Err? then Step(Err(request.result.error), request.after)
    else
      var response := ReadNext(request.after);
      if IsEncryptionResponse(response.result) then
        var echoed := response.result.value.value;
        if echoed.verifyToken == ZeroBytes then
          var verified := verifyJoin(name, ServerId, echoed.sharedSecret, ZeroBytes);
          if verified.Err? then Step(Err(verified.error), response.after)
          else
            var enabled := WithEncryption(response.after, ZeroBytes, ZeroBytes);
            if enabled.result.Err? then Step(Err(enabled.result.error), enabled.after)
            else Step(Ok(verified.value), enabled.after)
        else Step(Err(Message(WrongEncryptionResponse)), response.after)
      else if response.result.Err? then Step(Err(response.result.error), response.after)
      else Step(Err(Message(NoEncryptionResponse)), response.after)
  }

  /** The whole negotiation. `freshUuid` is the random UUID the handler draws before it
      knows whether it will need one. */
  function Negotiate(online: bool, c: Endpoint, freshUuid: Uuid, verifyJoin: VerifyJoin): (s: Step<Result<NameUuid>>)
    ensures !IsLoginStart(ReadNext(c).result) ==>
              s.result == Err(Message(NoLoginStart)) && s.after == ReadNext(c).after
    ensures !online && s.result.Ok? ==>
              s.result.value == NameUuid(ReadNext(c).result.value.value.name, freshUuid)
    ensures s.result.Ok? ==> s.after.reader.state == Play && s.after.writer.state == Play
    ensures s.result.Ok? && c.reader.state == Login ==> CanFollow(c.reader.state, s.after.reader.state)
    ensures s.result.Ok? ==>
              |s.after.wire.sent| > 0 &&
              s.after.wire.sent[|s.after.wire.sent| - 1].packet == LoginSuccess(s.result.value.uuid, s.result.value.name)
    ensures s.result.Err? ==> s.after.reader.state == c.reader.state && s.after.writer.state == c.writer.state
    ensures s.after.reader.threshold == c.reader.threshold && s.after.writer.threshold == c.writer.threshold
    ensures Paired(c) ==> Paired(s.after)
  {
    var second := ReadNext(c);
    if !IsLoginStart(second.result) then Step(Err(Message(NoLoginStart)), second.after)
    else
      var name := second.result.value.value.name;
      if !online then FinishLogin(NameUuid(name, freshUuid), second.after)
      else
        var exchanged := KeyExchange(name, second.after, verifyJoin);
        if exchanged.result.Err? then exchanged else FinishLogin(exchanged.result.value, exchanged.after)
  }

  /** Offline mode: LoginStart with a name, then a successful write, gives exactly
      (that name, the fresh UUID), one LoginSuccess carrying it sent under the
      unchanged writer, and both halves in Play. */
  lemma OfflineLogin(c: Endpoint, name: string, freshUuid: Uuid, verifyJoin: VerifyJoin)
    requires ReadResult(c.wire.NextEvent()) == Ok(Some(LoginStart(name)))
    requires c.wire.NextFault().None?
    ensures Negotiate(false, c, freshUuid, verifyJoin).result == Ok(NameUuid(name, freshUuid))
    ensures Negotiate(false, c, freshUuid, verifyJoin).after.wire.sent
            == c.wire.sent + [Sent(LoginSuccess(freshUuid, name), c.writer)]
    ensures Negotiate(false, c, freshUuid, verifyJoin).after.reader == c.reader.(state := Play)
  {
  }

  /** Online mode, once LoginStart has arrived: the first packet the server sends is
      the encryption request with sixteen spaces as server id and sixteen zero bytes
      as public key and as verify token. */
  lemma OnlineRequestIsConstant(c: Endpoint, name: string, freshUuid: Uuid, verifyJoin: VerifyJoin)
    requires ReadResult(c.wire.NextEvent()) == Ok(Some(LoginStart(name)))
    ensures var sent := Negotiate(true, c, freshUuid, verifyJoin).after.wire.sent;
            |sent| > |c.wire.sent| ==> sent[|c.wire.sent|] == Sent(EncryptionRequest(), c.writer)
  {
  }

  /** The connection state after LoginStart has been read and the encryption request
      written. */
  function AwaitingResponse(c: Endpoint): Endpoint {
    Write(ReadNext(c).after, EncryptionRequest()).after
  }

  /** Online mode: an echoed verify token that differs from the one sent fails with a
      fixed message before the session service is consulted, so the outcome is the
      same whatever the service would have answered. */
  lemma WrongTokenRejectedBeforeAuth(c: Endpoint, name: string, secret: seq<Byte>, token: seq<Byte>,
                                     freshUuid: Uuid, auth1: VerifyJoin, auth2: VerifyJoin)
    requires ReadResult(c.wire.NextEvent()) == Ok(Some(LoginStart(name)))
    requires c.wire.AfterRead().NextFault().None?
    requires ReadResult(AwaitingResponse(c).wire.NextEvent()) == Ok(Some(LoginEncryptionResponse(secret, token)))
    requires token != ZeroBytes
    ensures Negotiate(true, c, freshUuid, auth1).result == Err(Message(WrongEncryptionResponse))
    ensures Negotiate(true, c, freshUuid, auth1) == Negotiate(true, c, freshUuid, auth2)
  {
  }

  /** Online mode: a successful login returns exactly what the session service
      confirmed for the requested name and the echoed shared secret, and leaves both
      halves encrypted with the public key as key and the verify token as iv, which
      do not depend on the shared secret at all; the LoginSuccess packet is the first
      packet written under that cipher. */
  lemma OnlineLogin(c: Endpoint, name: string, secret: seq<Byte>, token: seq<Byte>,
                    freshUuid: Uuid, verifyJoin: VerifyJoin)
    requires ReadResult(c.wire.NextEvent()) == Ok(Some(LoginStart(name)))
    requires c.wire.AfterRead().NextFault().None?
    requires ReadResult(AwaitingResponse(c).wire.NextEvent()) == Ok(Some(LoginEncryptionResponse(secret, token)))
    requires Negotiate(true, c, freshUuid, verifyJoin).result.Ok?
    ensures token == ZeroBytes
    ensures verifyJoin(name, ServerId, secret, ZeroBytes) == Negotiate(true, c, freshUuid, verifyJoin).result
    ensures Negotiate(true, c, freshUuid, verifyJoin).after.reader.cipher == Some(Cipher(ZeroBytes, ZeroBytes))
    ensures Negotiate(true, c, freshUuid, verifyJoin).after.writer.cipher == Some(Cipher(ZeroBytes, ZeroBytes))
    ensures var sent := Negotiate(true, c, freshUuid, verifyJoin).after.wire.sent;
            sent[|sent| - 1].under.cipher == Some(Cipher(ZeroBytes, ZeroBytes))
  {
  }

  /** Online mode, the successful path: LoginStart, an accepted encryption request,
      the zero verify token echoed back, the session service confirming `v` and the
      LoginSuccess write going through on a connection not yet encrypted give exactly
      `v`, both halves in Play and encrypted, and LoginSuccess as the last packet,
      written under the cipher. */
  lemma OnlineLoginSucceeds(c: Endpoint, name: string, secret: seq<Byte>, v: NameUuid,
                            freshUuid: Uuid, verifyJoin: VerifyJoin)
    requires ReadResult(c.wire.NextEvent()) == Ok(Some(LoginStart(name)))
    requires c.wire.AfterRead().NextFault().None?
    requires ReadResult(AwaitingResponse(c).wire.NextEvent()) == Ok(Some(LoginEncryptionResponse(secret, ZeroBytes)))
    requires verifyJoin(name, ServerId, secret, ZeroBytes) == Ok(v)
    requires c.reader.cipher.None? && c.writer.cipher.None?
    requires AwaitingResponse(c).wire.AfterRead().NextFault().None?
    ensures Negotiate(true, c, freshUuid, verifyJoin).result == Ok(v)
    ensures Negotiate(true, c, freshUuid, verifyJoin).after.reader
            == c.reader.(state := Play, cipher := Some(Cipher(ZeroBytes, ZeroBytes)))
    ensures Negotiate(true, c, freshUuid, verifyJoin).after.writer
            == c.writer.(state := Play, cipher := Some(Cipher(ZeroBytes, ZeroBytes)))
    ensures Negotiate(true, c, freshUuid, verifyJoin).after.wire.sent
            == c.wire.sent + [Sent(EncryptionRequest(), c.writer),
                              Sent(LoginSuccess(v.uuid, v.name), c.writer.(cipher := Some(Cipher(ZeroBytes, ZeroBytes))))]
  {
  }

  /** Online mode: when the session service refuses the player, its error is the
      login's error, nothing follows the encryption request on the wire, and the
      connection stays unencrypted and in its state. */
  lemma VerifyJoinErrorIsLoginError(c: Endpoint, name: string, secret: seq<Byte>, e: Error,
                                    freshUuid: Uuid, verifyJoin: VerifyJoin)
    requires ReadResult(c.wire.NextEvent()) == Ok(Some(LoginStart(name)))
    requires c.wire.AfterRead().NextFault().None?
    requires ReadResult(AwaitingResponse(c).wire.NextEvent()) == Ok(Some(LoginEncryptionResponse(secret, ZeroBytes)))
    requires verifyJoin(name, ServerId, secret, ZeroBytes) == Err(e)
    ensures Negotiate(true, c, freshUuid, verifyJoin).result == Err(e)
    ensures Negotiate(true, c, freshUuid, verifyJoin).after.reader == c.reader
    ensures Negotiate(true, c, freshUuid, verifyJoin).after.writer == c.writer
    ensures Negotiate(true, c, freshUuid, verifyJoin).after.wire.sent
            == c.wire.sent + [Sent(EncryptionRequest(), c.writer)]
  {
  }

  /** Online mode: when the session service confirms the player but the connection
      already holds a cipher, `enable_encryption`'s error is the login's error and
      LoginSuccess is never sent. */
  lemma CipherRefusalIsLoginError(c: Endpoint, name: string, secret: seq<Byte>, v: NameUuid,
                                  freshUuid: Uuid, verifyJoin: VerifyJoin)
    requires ReadResult(c.wire.NextEvent()) == Ok(Some(LoginStart(name)))
    requires c.wire.AfterRead().NextFault().None?
    requires ReadResult(AwaitingResponse(c).wire.NextEvent()) == Ok(Some(LoginEncryptionResponse(secret, ZeroBytes)))
    requires verifyJoin(name, ServerId, secret, ZeroBytes) == Ok(v)
    requires c.reader.cipher.Some?
    ensures Negotiate(true, c, freshUuid, verifyJoin).result == Err(CipherAlreadyConfigured)
    ensures Negotiate(true, c, freshUuid, verifyJoin).after.wire.sent
            == c.wire.sent + [Sent(EncryptionRequest(), c.writer)]
  {
  }
}
