/** Message envelopes and the message bodies every client decodes: a header
    object, then a body object the header's reader never looks into. */
module Envelope {
  import opened Basics
  import opened Leb128
  import opened Qser
  import opened LogicalTypes
  import opened Encoder
  import opened F = Framing

  datatype Header = Header(kind: nat, connectionId: Bytes, queryId: nat)

  predicate ValidHeader(h: Header)
  {
    h.kind < P8 && |h.connectionId| < P64 && h.queryId < P64
  }

  datatype Message = Message(header: Header, body: Bytes)

  // ---- optional text fields --------------------------------------------------------

  /** A field left out when its text is empty. */
  function TextField(id: nat, s: Bytes, k: Bytes): Bytes
    requires id < P16
  {
    if s == [] then k else FieldId(id) + (Prefixed(s) + k)
  }

  /** ... and read as empty when it is not there. */
  function ReadText(r: Rd, id: nat): (Rd, Bytes)
  {
    var (r1, has) := TryField(r, id);
    if has then Blob(r1) else (r1, [])
  }

  function ReadNumber(r: Rd, id: nat, absent: nat): (Rd, nat)
  {
    var (r1, has) := TryField(r, id);
    if has then Uvarint(r1) else (r1, absent)
  }

  /** What follows an optional field starts with a later field or the end. */
  ghost predicate Skips(k: Bytes, id: nat)
  {
    TryField(Ok(k), id) == (Ok(k), false)
  }

  lemma FieldSkips(id: nat, next: nat, k: Bytes)
    requires id < next < P16
    ensures Skips(FieldId(next) + k, id)
  {
    FieldBack(next, id, k);
  }

  lemma TextBack(id: nat, s: Bytes, k: Bytes)
    requires id < END_ID && |s| < P64 && Skips(k, id)
    ensures ReadText(Ok(TextField(id, s, k)), id) == (Ok(k), s)
  {
    if s != [] {
      FieldBack(id, id, Prefixed(s) + k);
      BlobBack(s, k);
    }
  }

  lemma TextSkips(id: nat, field: nat, s: Bytes, k: Bytes)
    requires id < field < P16 && Skips(k, id)
    ensures Skips(TextField(field, s, k), id)
  {
    if s != [] {
      FieldSkips(id, field, Prefixed(s) + k);
    }
  }

  lemma NumberBack(id: nat, v: nat, absent: nat, k: Bytes)
    requires id < END_ID && v < P64
    ensures ReadNumber(Ok(FieldId(id) + (UvEncode(v) + k)), id, absent) == (Ok(k), v)
  {
    FieldBack(id, id, UvEncode(v) + k);
    UvarintBack(v, k);
  }

  method WriteText(w: Writer, id: nat, s: Bytes, ghost k: Bytes)
    requires id < P16
    modifies w
    ensures w.buf + k == old(w.buf) + TextField(id, s, k)
  {
    if s != [] {
      FieldThen(w, id, Prefixed(s) + k);
      BytesThen(w, s, k);
    }
  }

  method TextOf(r: Reader, id: nat) returns (s: Bytes)
    requires r.Valid()
    modifies r
    ensures r.Valid() && (r.State(), s) == ReadText(old(r.State()), id)
  {
    var has := r.TryField(id);
    if has {
      s := r.Blob();
    } else {
      s := [];
    }
  }

  method NumberOf(r: Reader, id: nat, absent: nat) returns (v: nat)
    requires r.Valid()
    modifies r
    ensures r.Valid() && (r.State(), v) == ReadNumber(old(r.State()), id, absent)
  {
    var has := r.TryField(id);
    if has {
      v := r.Uvarint();
    } else {
      v := absent;
    }
  }

  // ---- envelopes -------------------------------------------------------------------

  function EnvelopeBytes(h: Header, body: Bytes): Bytes
  {
    FieldId(1) + (UvEncode(h.kind) + TextField(2, h.connectionId, FieldId(3) + (UvEncode(h.queryId) + (EndMark() + body))))
  }

  /** SplitEnvelope: the type is cut to eight bits, an absent query id is the
      empty optional index. */
  function Split(buf: Bytes): Result<Message>
  {
    var (r1, hasKind) := TryField(Ok(buf), 1);
    if !hasKind then Failure(Malformed)
    else
      var (r2, kind) := Uvarint(r1);
      var (r3, id) := ReadText(r2, 2);
      var (r4, query) := ReadNumber(r3, 3, IDX_ABSENT);
      var r5 := EndObject(r4);
      if r5.Failed? then Failure(ReadFailed(r5.error))
      else Success(Message(Header(kind % 256, id, query), r5.rest))
  }

  /** EncodeEnvelope */
  method EncodeEnvelope(h: Header, body: Bytes) returns (b: Bytes)
    ensures b == EnvelopeBytes(h, body)
  {
    hide FieldId, UvEncode, EndMark, TextField;
    ghost var k1 := FieldId(3) + (UvEncode(h.queryId) + (EndMark() + body));
    var w := new Writer();
    FieldUvarint(w, 1, h.kind, TextField(2, h.connectionId, k1));
    WriteText(w, 2, h.connectionId, k1);
    FieldUvarint(w, 3, h.queryId, EndMark() + body);
    EndThen(w, body);
    w.Raw(body);
    b := w.buf;
    assert [] + EnvelopeBytes(h, body) == EnvelopeBytes(h, body);
  }

  /** SplitEnvelope */
  method SplitEnvelope(buf: Bytes) returns (res: Result<Message>)
    ensures res == Split(buf)
  {
    hide TryField, Uvarint, ReadText, ReadNumber, EndObject;
    var r := new Reader(buf);
    var has := r.TryField(1);
    if !has {
      return Failure(Malformed);
    }
    var kind := r.Uvarint();
    var id := TextOf(r, 2);
    var query := NumberOf(r, 3, IDX_ABSENT);
    r.End();
    if r.err.Some? {
      return Failure(ReadFailed(r.err.value));
    }
    res := Success(Message(Header(kind % 256, id, query), r.buf[r.off..]));
  }

  /** Splitting an envelope gives back header and body exactly, whatever the
      body is. */
  lemma EnvelopeRoundTrip(h: Header, body: Bytes)
    requires ValidHeader(h)
    ensures Split(EnvelopeBytes(h, body)) == Success(Message(h, body))
  {
    hide TryField, Uvarint, EndObject, FieldId, UvEncode, ReadText, ReadNumber, EndMark, TextField;
    var k2 := EndMark() + body;
    var k1 := FieldId(3) + (UvEncode(h.queryId) + k2);
    FieldBack(1, 1, UvEncode(h.kind) + TextField(2, h.connectionId, k1));
    UvarintBack(h.kind, TextField(2, h.connectionId, k1));
    FieldSkips(2, 3, UvEncode(h.queryId) + k2);
    TextBack(2, h.connectionId, k1);
    NumberBack(3, h.queryId, IDX_ABSENT, k2);
    EndBack(body);
  }

  lemma BlobShort(r: Rd)
    ensures |Blob(r).1| < P64
  {
  }

  /** Every header that can be split off can be written again. */
  lemma SplitIsValid(buf: Bytes)
    ensures Split(buf).Success? ==> ValidHeader(Split(buf).value.header)
  {
    hide TryField, EndObject, Blob;
    var (r1, hasKind) := TryField(Ok(buf), 1);
    var (r2, kind) := Uvarint(r1);
    var (r2', has) := TryField(r2, 2);
    BlobShort(r2');
  }

  // ---- the proxy's rewriting -----------------------------------------------------------

  /** forward, outbound: the client's header under the upstream's id. */
  function Outbound(client: Message, upstreamId: Bytes): Bytes
  {
    EnvelopeBytes(client.header.(connectionId := upstreamId), client.body)
  }

  /** reply: a query id of zero counts as unset. */
  function ReplyBytes(h: Header, body: Bytes): Bytes
  {
    EnvelopeBytes(if h.queryId == 0 then h.(queryId := IDX_ABSENT) else h, body)
  }

  /** forward's header on the way back. */
  function Returned(h: Header, upstreamId: Bytes, clientId: Bytes): Header
  {
    if h.connectionId == upstreamId then h.(connectionId := clientId) else h
  }

  /** forward and reply, on the way back. */
  function Inbound(reply: Message, upstreamId: Bytes, clientId: Bytes): Bytes
  {
    ReplyBytes(Returned(reply.header, upstreamId, clientId), reply.body)
  }

  /** What the receiver of a reply decodes. */
  lemma ReplyDecodes(h: Header, body: Bytes)
    requires ValidHeader(h)
    ensures Split(ReplyBytes(h, body))
            == Success(Message(h.(queryId := if h.queryId == 0 then IDX_ABSENT else h.queryId), body))
  {
    hide Split, EnvelopeBytes;
    EnvelopeRoundTrip(if h.queryId == 0 then h.(queryId := IDX_ABSENT) else h, body);
  }

  /** What the upstream decodes is the client's message but for the
      connection id, however the client encoded it. */
  lemma RequestTransparent(raw: Bytes, upstreamId: Bytes)
    requires Split(raw).Success? && |upstreamId| < P64
    ensures var client := Split(raw).value;
            Split(Outbound(client, upstreamId))
            == Success(Message(Header(client.header.kind, upstreamId, client.header.queryId), client.body))
  {
    SplitIsValid(raw);
    EnvelopeRoundTrip(Split(raw).value.header.(connectionId := upstreamId), Split(raw).value.body);
  }

  /** What the client decodes is the upstream's reply, its own id in place of
      the upstream's and a zero query id as absent. */
  lemma ReplyTransparent(raw: Bytes, upstreamId: Bytes, clientId: Bytes)
    requires Split(raw).Success? && |clientId| < P64
    ensures var reply, seen := Split(raw).value, Split(Inbound(Split(raw).value, upstreamId, clientId));
            && seen.Success? && seen.value.body == reply.body && seen.value.header.kind == reply.header.kind
            && seen.value.header.connectionId == (if reply.header.connectionId == upstreamId then clientId
                                                  else reply.header.connectionId)
            && seen.value.header.queryId == (if reply.header.queryId == 0 then IDX_ABSENT else reply.header.queryId)
  {
    SplitIsValid(raw);
    ReplyDecodes(Returned(Split(raw).value.header, upstreamId, clientId), Split(raw).value.body);
  }

  // ---- typed bodies -----------------------------------------------------------------------

  datatype ConnectionRequest = ConnectionRequest(
    auth: Bytes, clientVersion: Bytes, platform: Bytes, minVersion: nat, maxVersion: nat)

  datatype ConnectionResponse = ConnectionResponse(serverVersion: Bytes, platform: Bytes, quackVersion: nat)

  function ConnectionRequestBytes(m: ConnectionRequest): Bytes
  {
    TextField(1, m.auth, TextField(2, m.clientVersion, TextField(3, m.platform,
      FieldId(4) + (UvEncode(m.minVersion) + (FieldId(5) + (UvEncode(m.maxVersion) + (EndMark() + [])))))))
  }

  function DecodeConnectionRequest(body: Bytes): Result<ConnectionRequest>
  {
    var (r1, auth) := ReadText(Ok(body), 1);
    var (r2, version) := ReadText(r1, 2);
    var (r3, platform) := ReadText(r2, 3);
    var (r4, low) := ReadNumber(r3, 4, 0);
    var (r5, high) := ReadNumber(r4, 5, 0);
    Checked(EndObject(r5), ConnectionRequest(auth, version, platform, low, high))
  }

  function ConnectionResponseBytes(m: ConnectionResponse): Bytes
  {
    TextField(1, m.serverVersion, TextField(2, m.platform, FieldId(3) + (UvEncode(m.quackVersion) + (EndMark() + []))))
  }

  function DecodeConnectionResponse(body: Bytes): Result<ConnectionResponse>
  {
    var (r1, version) := ReadText(Ok(body), 1);
    var (r2, platform) := ReadText(r1, 2);
    var (r3, quack) := ReadNumber(r2, 3, 0);
    Checked(EndObject(r3), ConnectionResponse(version, platform, quack))
  }

  /** PrepareRequest's SQL and ErrorMessage's text travel alike. */
  function TextBodyBytes(text: Bytes): Bytes
  {
    TextField(1, text, EndMark() + [])
  }

  function DecodeTextBody(body: Bytes): Result<Bytes>
  {
    var (r1, text) := ReadText(Ok(body), 1);
    Checked(EndObject(r1), text)
  }

  function FetchRequestBytes(uuid: Hugeint): Bytes
  {
    FieldId(1) + (HugeintBytes(uuid) + (EndMark() + []))
  }

  function DecodeFetchRequest(body: Bytes): Result<Hugeint>
  {
    var (r1, has) := TryField(Ok(body), 1);
    var (r2, uuid) := if has then ReadHugeint(r1) else (r1, Hugeint(0, 0));
    Checked(EndObject(r2), uuid)
  }

  lemma ConnectionRequestRoundTrip(m: ConnectionRequest)
    requires |m.auth| < P64 && |m.clientVersion| < P64 && |m.platform| < P64 && m.minVersion < P64 && m.maxVersion < P64
    ensures DecodeConnectionRequest(ConnectionRequestBytes(m)) == Success(m)
  {
    hide TryField, Uvarint, EndObject, FieldId, UvEncode, ReadText, ReadNumber, EndMark, TextField, Skips;
    var k5 := EndMark() + [];
    var k4 := FieldId(5) + (UvEncode(m.maxVersion) + k5);
    var k3 := FieldId(4) + (UvEncode(m.minVersion) + k4);
    forall id: nat | id < 4 ensures Skips(k3, id) {
      FieldSkips(id, 4, UvEncode(m.minVersion) + k4);
    }
    TextSkips(1, 3, m.platform, k3);
    TextSkips(2, 3, m.platform, k3);
    var k2 := TextField(3, m.platform, k3);
    TextSkips(1, 2, m.clientVersion, k2);
    TextBack(1, m.auth, TextField(2, m.clientVersion, k2));
    TextBack(2, m.clientVersion, k2);
    TextBack(3, m.platform, k3);
    NumberBack(4, m.minVersion, 0, k4);
    NumberBack(5, m.maxVersion, 0, k5);
    EndBack([]);
  }

  lemma ConnectionResponseRoundTrip(m: ConnectionResponse)
    requires |m.serverVersion| < P64 && |m.platform| < P64 && m.quackVersion < P64
    ensures DecodeConnectionResponse(ConnectionResponseBytes(m)) == Success(m)
  {
    hide TryField, Uvarint, EndObject, FieldId, UvEncode, ReadText, ReadNumber, EndMark, TextField, Skips;
    var k3 := EndMark() + [];
    var k2 := FieldId(3) + (UvEncode(m.quackVersion) + k3);
    FieldSkips(1, 3, UvEncode(m.quackVersion) + k3);
    FieldSkips(2, 3, UvEncode(m.quackVersion) + k3);
    TextSkips(1, 2, m.platform, k2);
    TextBack(1, m.serverVersion, TextField(2, m.platform, k2));
    TextBack(2, m.platform, k2);
    NumberBack(3, m.quackVersion, 0, k3);
    EndBack([]);
  }

  lemma TextBodyRoundTrip(text: Bytes)
    requires |text| < P64
    ensures DecodeTextBody(TextBodyBytes(text)) == Success(text)
  {
    hide TryField, Uvarint, EndObject, FieldId, UvEncode, ReadText;
    FieldSkips(1, END_ID, []);
    TextBack(1, text, EndMark() + []);
    EndBack([]);
  }

  lemma FetchRequestRoundTrip(uuid: Hugeint)
    requires ValidHugeint(uuid)
    ensures DecodeFetchRequest(FetchRequestBytes(uuid)) == Success(uuid)
  {
    hide TryField, EndObject, FieldId, HugeintBytes, ReadHugeint;
    FieldBack(1, 1, HugeintBytes(uuid) + (EndMark() + []));
    HugeintBack(uuid, EndMark() + []);
    EndBack([]);
  }

  // ---- the bodies, written and read step by step ---------------------------------------------

  method EncodeConnectionRequest(m: ConnectionRequest) returns (b: Bytes)
    ensures b == ConnectionRequestBytes(m)
  {
    hide FieldId, UvEncode, EndMark, TextField;
    ghost var k5 := EndMark() + [];
    ghost var k4 := FieldId(5) + (UvEncode(m.maxVersion) + k5);
    ghost var k3 := FieldId(4) + (UvEncode(m.minVersion) + k4);
    var w := new Writer();
    WriteText(w, 1, m.auth, TextField(2, m.clientVersion, TextField(3, m.platform, k3)));
    WriteText(w, 2, m.clientVersion, TextField(3, m.platform, k3));
    WriteText(w, 3, m.platform, k3);
    FieldUvarint(w, 4, m.minVersion, k4);
    FieldUvarint(w, 5, m.maxVersion, k5);
    EndThen(w, []);
    b := w.buf;
    assert b + [] == b && [] + ConnectionRequestBytes(m) == ConnectionRequestBytes(m);
  }

  method ReadConnectionRequest(body: Bytes) returns (res: Result<ConnectionRequest>)
    ensures res == DecodeConnectionRequest(body)
  {
    hide EndObject, ReadText, ReadNumber;
    var r := new Reader(body);
    var auth := TextOf(r, 1);
    var version := TextOf(r, 2);
    var platform := TextOf(r, 3);
    var low := NumberOf(r, 4, 0);
    var high := NumberOf(r, 5, 0);
    r.End();
    res := Checked(r.State(), ConnectionRequest(auth, version, platform, low, high));
  }

  method EncodeConnectionResponse(m: ConnectionResponse) returns (b: Bytes)
    ensures b == ConnectionResponseBytes(m)
  {
    hide FieldId, UvEncode, EndMark, TextField;
    ghost var k3 := EndMark() + [];
    ghost var k2 := FieldId(3) + (UvEncode(m.quackVersion) + k3);
    var w := new Writer();
    WriteText(w, 1, m.serverVersion, TextField(2, m.platform, k2));
    WriteText(w, 2, m.platform, k2);
    FieldUvarint(w, 3, m.quackVersion, k3);
    EndThen(w, []);
    b := w.buf;
    assert b + [] == b && [] + ConnectionResponseBytes(m) == ConnectionResponseBytes(m);
  }

  method ReadConnectionResponse(body: Bytes) returns (res: Result<ConnectionResponse>)
    ensures res == DecodeConnectionResponse(body)
  {
    hide EndObject, ReadText, ReadNumber;
    var r := new Reader(body);
    var version := TextOf(r, 1);
    var platform := TextOf(r, 2);
    var quack := NumberOf(r, 3, 0);
    r.End();
    res := Checked(r.State(), ConnectionResponse(version, platform, quack));
  }

  method EncodeTextBody(text: Bytes) returns (b: Bytes)
    ensures b == TextBodyBytes(text)
  {
    hide FieldId, EndMark, TextField;
    var w := new Writer();
    WriteText(w, 1, text, EndMark() + []);
    EndThen(w, []);
    b := w.buf;
    assert b + [] == b && [] + TextBodyBytes(text) == TextBodyBytes(text);
  }

  method ReadTextBody(body: Bytes) returns (res: Result<Bytes>)
    ensures res == DecodeTextBody(body)
  {
    hide EndObject, ReadText;
    var r := new Reader(body);
    var text := TextOf(r, 1);
    r.End();
    res := Checked(r.State(), text);
  }

  method EncodeFetchRequest(uuid: Hugeint) returns (b: Bytes)
    ensures b == FetchRequestBytes(uuid)
  {
    hide FieldId, EndMark, HugeintBytes;
    var w := new Writer();
    FieldThen(w, 1, HugeintBytes(uuid) + (EndMark() + []));
    ghost var b1 := w.buf;
    w.Hugeint(uuid);
    Then(b1, w.buf, w.buf + (EndMark() + []), HugeintBytes(uuid), EndMark() + []);
    EndThen(w, []);
    b := w.buf;
    assert b + [] == b && [] + FetchRequestBytes(uuid) == FetchRequestBytes(uuid);
  }

  method ReadFetchRequest(body: Bytes) returns (res: Result<Hugeint>)
    ensures res == DecodeFetchRequest(body)
  {
    hide TryField, EndObject, ReadHugeint;
    var r := new Reader(body);
    var has := r.TryField(1);
    var uuid := F.Hugeint(0, 0);
    if has {
      uuid := r.Hugeint();
    }
    r.End();
    res := Checked(r.State(), uuid);
  }
}
