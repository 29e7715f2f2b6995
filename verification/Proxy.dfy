/** The proxy's handlers on messages: what each does to the pool and the map,
    what it sends upstream, and what the client decodes from its reply. */
module ProxyHandlers {
  import opened Basics
  import opened Framing
  import opened LogicalTypes
  import opened Bouncer
  import opened Envelope

  // Message types.
  const MSG_CONNECTION_REQUEST := 1
  const MSG_CONNECTION_RESPONSE := 2
  const MSG_SUCCESS := 10
  const MSG_DISCONNECT := 11
  const MSG_ERROR := 100

  function Ascii(s: string): (b: Bytes)
    ensures |b| == |s|
  {
    seq<Byte>(|s|, i requires 0 <= i < |s| => s[i] as int % 256)
  }

  /** The upstream sessions from outside: their connection ids, what they said
      of themselves when dialled, and what they answer to a message, None for a
      failed round trip. */
  datatype Upstreams = Upstreams(
    id: Session -> Bytes,
    server: Session -> ConnectionResponse,
    exchange: (Session, Bytes) -> Option<Bytes>)

  ghost predicate Plausible(ups: Upstreams)
  {
    && (forall x :: |ups.id(x)| < P64)
    && (forall x :: var r := ups.server(x); |r.serverVersion| < P32 && |r.platform| < P64 && r.quackVersion < P64)
  }

  /** The in-band error every refusal is: message type 100, an absent query id
      and a text. */
  ghost predicate IsError(reply: Bytes)
  {
    var m := Split(reply);
    && m.Success? && m.value.header == Header(100, [], 0xFFFF_FFFF_FFFF_FFFF)
    && DecodeTextBody(m.value.body).Success?
  }

  /** ... and which text. */
  ghost predicate Refuses(reply: Bytes, text: string)
  {
    IsError(reply) && DecodeTextBody(Split(reply).value.body) == Success(Ascii(text))
  }

  /** The query id a client gets back. */
  function Echoed(queryId: nat): nat { if queryId == 0 then IDX_ABSENT else queryId }

  /** What a connected client is told about the server behind. */
  function Advertised(r: ConnectionResponse): ConnectionResponse
  {
    r.(serverVersion := r.serverVersion + Ascii(" via quackbouncer"))
  }

  class Pool {
    var idle: seq<Session>
    const max: nat

    constructor (max: nat)
      ensures idle == [] && this.max == max
    {
      idle := [];
      this.max := max;
    }

    ghost predicate Valid()
      reads this
    {
      |idle| <= max
    }

    /** get, up to the point where it would dial. */
    method Get() returns (c: Option<Session>)
      requires Valid()
      modifies this
      ensures Valid() && (c, idle) == TakeIdle(old(idle))
    {
      if |idle| > 0 {
        var n := |idle|;
        c := Some(idle[n - 1]);
        idle := idle[..n - 1];
      } else {
        c := None;
      }
    }

    /** put, up to the point where it would close the session. */
    method Put(c: Session) returns (kept: bool)
      requires Valid()
      modifies this
      ensures Valid() && (kept, idle) == PutIdle(old(idle), max, c)
    {
      kept := |idle| < max;
      if kept {
        idle := idle + [c];
      }
    }
  }

  /** reply */
  method Reply(h: Header, body: Bytes) returns (reply: Bytes)
    requires ValidHeader(h)
    ensures Split(reply) == Success(Message(h.(queryId := Echoed(h.queryId)), body))
  {
    hide Split;
    ReplyDecodes(h, body);
    var sent := if h.queryId == 0 then h.(queryId := IDX_ABSENT) else h;
    reply := EncodeEnvelope(sent, body);
  }

  /** errorReply */
  method ErrorReply(text: string) returns (reply: Bytes)
    requires |text| < P64
    ensures IsError(reply) && Refuses(reply, text)
  {
    hide Split, DecodeTextBody, TextBodyBytes;
    TextBodyRoundTrip(Ascii(text));
    var body := EncodeTextBody(Ascii(text));
    reply := Reply(Header(MSG_ERROR, [], 0), body);
  }

  class Proxy {
    const pool: Pool
    const tokens: set<Bytes>
    const ups: Upstreams
    var conns: map<Vid, Session>
    /** Sessions closed because the pool was full. */
    var closed: set<Session>

    constructor (pool: Pool, tokens: set<Bytes>, ups: Upstreams)
      ensures this.pool == pool && this.tokens == tokens && this.ups == ups && conns == map[] && closed == {}
    {
      this.pool := pool;
      this.tokens := tokens;
      this.ups := ups;
      conns := map[];
      closed := {};
    }

    predicate Authorized(client: Message)
    {
      DecodeConnectionRequest(client.body).Success? && DecodeConnectionRequest(client.body).value.auth in tokens
    }

    /** A client is authorized exactly by one of the tokens. */
    lemma AuthorizedExactly(h: Header, req: ConnectionRequest)
      requires |req.auth| < P64 && |req.clientVersion| < P64 && |req.platform| < P64 && req.minVersion < P64 && req.maxVersion < P64
      ensures Authorized(Message(h, ConnectionRequestBytes(req))) <==> req.auth in tokens
    {
      hide DecodeConnectionRequest, ConnectionRequestBytes;
      ConnectionRequestRoundTrip(req);
    }

    /** handleConnect: `dialled` is what dialling would give, `vid` the random
        text. */
    method HandleConnect(client: Message, dialled: Option<Session>, vid: Vid) returns (reply: Bytes)
      requires pool.Valid() && Plausible(ups) && ValidHeader(client.header) && |vid| < P64
      modifies this, pool
      ensures pool.Valid() && closed == old(closed)
      ensures DecodeConnectionRequest(client.body).Failure? ==> IsError(reply) && conns == old(conns) && pool.idle == old(pool.idle)
      ensures DecodeConnectionRequest(client.body).Success? && DecodeConnectionRequest(client.body).value.auth !in tokens ==>
                Refuses(reply, "Authentication failed") && conns == old(conns) && pool.idle == old(pool.idle)
      ensures Authorized(client) ==> (pool.idle, conns) == AfterConnect(old(pool.idle), old(conns), dialled, vid)
      ensures Authorized(client) && old(pool.idle) == [] && dialled.None? ==> IsError(reply)
      ensures Authorized(client) && (old(pool.idle) != [] || dialled.Some?) ==>
                && vid in conns && Split(reply).Success?
                && Split(reply).value.header == Header(2, vid, Echoed(client.header.queryId))
                && var server := ups.server(conns[vid]);
                   DecodeConnectionResponse(Split(reply).value.body)
                   == Success(ConnectionResponse(server.serverVersion + Ascii(" via quackbouncer"), server.platform, server.quackVersion))
    {
      hide Split, Refuses, DecodeConnectionRequest, DecodeConnectionResponse, ConnectionResponseBytes, ConnectionRequestBytes, IsError;
      var req := ReadConnectionRequest(client.body);
      if req.Failure? {
        reply := ErrorReply("quackbouncer: bad connection request");
        return;
      }
      if req.value.auth !in tokens {
        reply := ErrorReply("Authentication failed");
        return;
      }
      var up := pool.Get();
      if up.None? {
        up := dialled;
      }
      if up.None? {
        reply := ErrorReply("quackbouncer: upstream connect failed");
        return;
      }
      conns := conns[vid := up.value];
      var server := Advertised(ups.server(up.value));
      ConnectionResponseRoundTrip(server);
      var body := EncodeConnectionResponse(server);
      reply := Reply(Header(MSG_CONNECTION_RESPONSE, vid, client.header.queryId), body);
    }

    /** handleDisconnect */
    method HandleDisconnect(header: Header) returns (reply: Bytes)
      requires pool.Valid() && ValidHeader(header)
      modifies this, pool
      ensures pool.Valid()
      ensures (pool.idle, conns, closed)
              == AfterDisconnect(pool.max, old(pool.idle), old(conns), old(closed), header.connectionId)
      ensures if header.connectionId in old(conns)
              then Split(reply) == Success(Message(Header(10, [], Echoed(header.queryId)), EndMark()))
              else Refuses(reply, "Connection does not exist / already disconnected")
    {
      hide Split, IsError, Refuses;
      var vid := header.connectionId;
      var up := if vid in conns then Some(conns[vid]) else None;
      if up.None? {
        reply := ErrorReply("Connection does not exist / already disconnected");
        return;
      }
      conns := conns - {vid};
      var kept := pool.Put(up.value);
      if !kept {
        closed := closed + {up.value};
      }
      reply := Reply(Header(MSG_SUCCESS, [], header.queryId), EndMark());
    }

    /** forward: the client's message goes out under the upstream's id, body
        and other header fields as they came, and the upstream's answer comes
        back the same way. */
    method Forward(client: Message) returns (sent: Option<Bytes>, reply: Bytes)
      requires Plausible(ups) && ValidHeader(client.header)
      ensures client.header.connectionId !in conns ==>
                sent.None? && Refuses(reply, "Connection does not exist / already disconnected")
      ensures client.header.connectionId in conns ==>
                var up := conns[client.header.connectionId];
                && sent.Some?
                && Split(sent.value) == Success(Message(client.header.(connectionId := ups.id(up)), client.body))
                && match ups.exchange(up, sent.value)
                   case None => IsError(reply)
                   case Some(raw) =>
                     if Split(raw).Failure? then IsError(reply)
                     else
                       && Split(reply).Success? && Split(reply).value.body == Split(raw).value.body
                       && Split(reply).value.header
                          == Returned(Split(raw).value.header, ups.id(up), client.header.connectionId)
                               .(queryId := Echoed(Split(raw).value.header.queryId))
    {
      hide Split, IsError, EnvelopeBytes;
      if client.header.connectionId !in conns {
        sent := None;
        reply := ErrorReply("Connection does not exist / already disconnected");
        return;
      }
      var up := conns[client.header.connectionId];
      var out := client.header.(connectionId := ups.id(up));
      EnvelopeRoundTrip(out, client.body);
      var message := EncodeEnvelope(out, client.body);
      sent := Some(message);
      var raw := ups.exchange(up, message);
      if raw.None? {
        reply := ErrorReply("quackbouncer: upstream request failed");
        return;
      }
      SplitIsValid(raw.value);
      var answer := SplitEnvelope(raw.value);
      if answer.Failure? {
        reply := ErrorReply("quackbouncer: upstream request failed");
        return;
      }
      reply := Reply(Returned(answer.value.header, ups.id(up), client.header.connectionId), answer.value.body);
    }

    /** handleRPC: every message gets an answer a client can decode, that of
        its handler; a garbled one changes nothing. `sent` is what went to an
        upstream. */
    method HandleRPC(raw: Bytes, dialled: Option<Session>, vid: Vid) returns (sent: Option<Bytes>, reply: Bytes)
      requires pool.Valid() && Plausible(ups) && |vid| < P64
      modifies this, pool
      ensures pool.Valid() && Split(reply).Success? && Split(reply).value.header.queryId != 0
      ensures Split(raw).Failure? || Split(raw).value.header.kind in {1, 11} ==> sent == None
      ensures Split(raw).Failure? ==> IsError(reply) && conns == old(conns) && pool.idle == old(pool.idle) && closed == old(closed)
      ensures Split(raw).Success? ==>
                var m := Split(raw).value;
                if m.header.kind == 1 then
                  && (pool.idle, conns) == (if Authorized(m) then AfterConnect(old(pool.idle), old(conns), dialled, vid)
                                            else (old(pool.idle), old(conns)))
                  && (if Authorized(m) && (old(pool.idle) != [] || dialled.Some?)
                      then Split(reply).value.header == Header(2, vid, Echoed(m.header.queryId))
                      else IsError(reply))
                else if m.header.kind == 11 then
                  && (pool.idle, conns, closed)
                     == AfterDisconnect(pool.max, old(pool.idle), old(conns), old(closed), m.header.connectionId)
                  && (if m.header.connectionId in old(conns)
                      then Split(reply).value.header == Header(10, [], Echoed(m.header.queryId))
                      else IsError(reply))
                else
                  && pool.idle == old(pool.idle) && conns == old(conns) && closed == old(closed)
                  && (if m.header.connectionId !in old(conns)
                      then sent == None && IsError(reply)
                      else var up := old(conns)[m.header.connectionId];
                           && sent.Some?
                           && Split(sent.value) == Success(Message(m.header.(connectionId := ups.id(up)), m.body))
                           && match ups.exchange(up, sent.value)
                              case None => IsError(reply)
                              case Some(answer) =>
                                if Split(answer).Failure? then IsError(reply)
                                else Split(reply).value.body == Split(answer).value.body)
    {
      hide Split, DecodeConnectionRequest, DecodeConnectionResponse;
      var m := SplitEnvelope(raw);
      SplitIsValid(raw);
      sent := None;
      if m.Failure? {
        reply := ErrorReply("quackbouncer: bad message header");
      } else if m.value.header.kind == MSG_CONNECTION_REQUEST {
        reply := HandleConnect(m.value, dialled, vid);
      } else if m.value.header.kind == MSG_DISCONNECT {
        reply := HandleDisconnect(m.value.header);
      } else {
        sent, reply := Forward(m.value);
      }
    }
  }
}
