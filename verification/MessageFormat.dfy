/** Messages byte by byte: the envelope, the typed bodies, and defaults; and
    frames captured from a DuckDB server and its own client, as they decode. */
module MessageFormat {
  import opened Basics
  import opened Leb128
  import opened Framing
  import opened LogicalTypes
  import opened Envelope

  /** An optional text: its field id, its length and itself, or nothing. */
  function Text(id: Byte, s: Bytes, k: Bytes): Bytes
  {
    if s == [] then k else [id, 0] + (Prefixed(s) + k)
  }

  /** The envelope: type, connection id, query id, terminator, then the body. */
  lemma EnvelopeFormat(h: Header, body: Bytes)
    ensures EnvelopeBytes(h, body)
            == [1, 0] + (UvEncode(h.kind) + Text(2, h.connectionId, [3, 0] + (UvEncode(h.queryId) + ([255, 255] + body))))
  {
    hide UvEncode, Prefixed;
  }

  lemma RequestFormat(m: ConnectionRequest)
    ensures ConnectionRequestBytes(m)
            == Text(1, m.auth, Text(2, m.clientVersion, Text(3, m.platform,
                 [4, 0] + (UvEncode(m.minVersion) + ([5, 0] + (UvEncode(m.maxVersion) + [255, 255]))))))
  {
    hide UvEncode, Prefixed;
    assert [255, 255] + [] == [255, 255];
  }

  lemma ResponseFormat(m: ConnectionResponse)
    ensures ConnectionResponseBytes(m)
            == Text(1, m.serverVersion, Text(2, m.platform, [3, 0] + (UvEncode(m.quackVersion) + [255, 255])))
  {
    hide UvEncode, Prefixed;
    assert [255, 255] + [] == [255, 255];
  }

  lemma BodyFormats(text: Bytes, uuid: Hugeint)
    ensures TextBodyBytes(text) == Text(1, text, [255, 255])
    ensures FetchRequestBytes(uuid) == [1, 0] + (SvEncode(uuid.upper) + (UvEncode(uuid.lower) + [255, 255]))
  {
    hide UvEncode, SvEncode, Prefixed;
    assert [255, 255] + [] == [255, 255];
    assert SvEncode(uuid.upper) + UvEncode(uuid.lower) + [255, 255] == SvEncode(uuid.upper) + (UvEncode(uuid.lower) + [255, 255]);
  }

  // ---- defaults ------------------------------------------------------------------------------

  lemma Ended(k: Bytes)
    ensures EndMark() == [255, 255] && EndObject(Ok([255, 255] + k)) == Ok(k)
    ensures forall id: nat :: id < 1000 ==> TryField(Ok([255, 255] + k), id) == (Ok([255, 255] + k), false)
  {
    EndBack(k);
    forall id: nat | id < 1000 ensures TryField(Ok([255, 255] + k), id) == (Ok([255, 255] + k), false) {
      EndNotField(id, k);
    }
  }

  /** A header with its type only: no connection, no query. */
  lemma BareHeader(kind: nat, body: Bytes)
    requires kind < P64
    ensures Split([1, 0] + (UvEncode(kind) + ([255, 255] + body)))
            == Success(Message(Header(kind % 256, [], 0xFFFF_FFFF_FFFF_FFFF), body))
  {
    hide TryField, Uvarint, UvEncode, EndObject, Blob;
    assert FieldId(1) == [1, 0];
    var k := [255, 255] + body;
    FieldBack(1, 1, UvEncode(kind) + k);
    UvarintBack(kind, k);
    Ended(body);
  }

  /** Empty bodies decode to defaults. */
  lemma EmptyBodies()
    ensures DecodeConnectionRequest([255, 255]) == Success(ConnectionRequest([], [], [], 0, 0))
    ensures DecodeConnectionResponse([255, 255]) == Success(ConnectionResponse([], [], 0))
    ensures DecodeTextBody([255, 255]) == Success([])
    ensures DecodeFetchRequest([255, 255]) == Success(Hugeint(0, 0))
  {
    hide TryField, EndObject, Blob, Uvarint, ReadHugeint;
    Ended([]);
    assert [255, 255] + [] == [255, 255];
  }

  // ---- captured frames -----------------------------------------------------------------------

  /** A short text: its field id, its length in one byte, itself. */
  lemma ShortText(id: Byte, s: Bytes, k: Bytes)
    requires 0 < |s| < 128
    ensures Text(id, s, k) == [id, 0, |s|] + (s + k)
  {
    assert Prefixed(s) == [|s|] + s;
    assert [id, 0] + (([|s| as Byte] + s) + k) == [id, 0, |s|] + (s + k);
  }

  lemma OneMore(v: nat, s: Bytes)
    requires UvEncode(v) == s
    ensures v > 0 ==> UvEncode(128 * v + 127) == [255] + s
  {
  }

  function Absent(): Bytes { [255, 255, 255, 255, 255, 255, 255, 255, 255, 1] }

  /** The unset query id, as every response carries it. */
  lemma AbsentBytes()
    ensures UvEncode(0xFFFF_FFFF_FFFF_FFFF) == Absent()
  {
    hide UvEncode;
    OneByte(1);
    OneMore(1, [1]);
    OneMore(0xFF, [255, 1]);
    OneMore(0x7FFF, [255, 255, 1]);
    OneMore(0x3F_FFFF, [255, 255, 255, 1]);
    OneMore(0x1FFF_FFFF, [255, 255, 255, 255, 1]);
    OneMore(0xF_FFFF_FFFF, [255, 255, 255, 255, 255, 1]);
    OneMore(0x7FF_FFFF_FFFF, [255, 255, 255, 255, 255, 255, 1]);
    OneMore(0x3_FFFF_FFFF_FFFF, [255, 255, 255, 255, 255, 255, 255, 1]);
    OneMore(0x1FF_FFFF_FFFF_FFFF, [255, 255, 255, 255, 255, 255, 255, 255, 1]);
  }

  lemma OneByte(v: nat)
    requires v < 128
    ensures UvEncode(v) == [v]
  {
  }

  // "demo-token", "v1.5.4", "osx_arm64"
  function Token(): (s: Bytes)
    ensures |s| == 10
  {
    [100, 101, 109, 111, 45, 116, 111, 107, 101, 110]
  }

  function Version(): (s: Bytes)
    ensures |s| == 6
  {
    [118, 49, 46, 53, 46, 52]
  }

  function Platform(): (s: Bytes)
    ensures |s| == 9
  {
    [111, 115, 120, 95, 97, 114, 109, 54, 52]
  }

  /** The client's handshake, request 1 of the capture: header, then body. */
  function RequestHead(): Bytes { [1, 0, 1, 3, 0, 4, 255, 255] }

  function RequestBody(): Bytes
  {
    [1, 0, 10] + (Token() + ([2, 0, 6] + (Version() + ([3, 0, 9] + (Platform() + [4, 0, 1, 5, 0, 1, 255, 255])))))
  }

  /** The server's answer, for any connection id of 32 characters. */
  function ResponseFrame(id: Bytes): Bytes
  {
    [1, 0, 2, 2, 0, 32] + (id + ([3, 0] + (Absent() + ([255, 255] + ResponseBody()))))
  }

  function ResponseBody(): Bytes
  {
    [1, 0, 6] + (Version() + ([2, 0, 9] + (Platform() + [3, 0, 1, 255, 255])))
  }

  /** A success response and a disconnect, frames 3 of the capture. */
  function BareFrame(kind: Byte): Bytes { [1, 0, kind, 3, 0] + (Absent() + [255, 255, 255, 255]) }

  lemma RequestBodyDecodes()
    ensures DecodeConnectionRequest(RequestBody()) == Success(ConnectionRequest(Token(), Version(), Platform(), 1, 1))
  {
    hide Text, UvEncode, ConnectionRequestBytes, DecodeConnectionRequest, Token, Version, Platform;
    var m := ConnectionRequest(Token(), Version(), Platform(), 1, 1);
    RequestFormat(m);
    OneByte(1);
    var end := [4, 0, 1, 5, 0, 1, 255, 255];
    assert [4, 0] + ([1] + ([5, 0] + ([1] + [255, 255]))) == end;
    var k2 := [3, 0, 9] + (Platform() + end);
    ShortText(3, Platform(), end);
    var k1 := [2, 0, 6] + (Version() + k2);
    ShortText(2, Version(), k2);
    ShortText(1, Token(), k1);
    ConnectionRequestRoundTrip(m);
  }

  lemma ResponseBodyDecodes()
    ensures DecodeConnectionResponse(ResponseBody()) == Success(ConnectionResponse(Version(), Platform(), 1))
  {
    hide Text, UvEncode, ConnectionResponseBytes, DecodeConnectionResponse, Version, Platform;
    var m := ConnectionResponse(Version(), Platform(), 1);
    ResponseFormat(m);
    OneByte(1);
    var end := [3, 0, 1, 255, 255];
    assert [3, 0] + ([1] + [255, 255]) == end;
    ShortText(2, Platform(), end);
    ShortText(1, Version(), [2, 0, 9] + (Platform() + end));
    ConnectionResponseRoundTrip(m);
  }

  lemma RequestSplits()
    ensures Split(RequestHead() + RequestBody()) == Success(Message(Header(1, [], 4), RequestBody()))
  {
    hide UvEncode, EnvelopeBytes, Split, RequestBody;
    var body := RequestBody();
    EnvelopeFormat(Header(1, [], 4), body);
    OneByte(1);
    OneByte(4);
    assert [1, 0] + ([1] + ([3, 0] + ([4] + ([255, 255] + body)))) == RequestHead() + body;
    EnvelopeRoundTrip(Header(1, [], 4), body);
  }

  lemma ResponseSplits(id: Bytes)
    requires |id| == 32
    ensures Split(ResponseFrame(id)) == Success(Message(Header(2, id, 0xFFFF_FFFF_FFFF_FFFF), ResponseBody()))
  {
    hide UvEncode, EnvelopeBytes, Split, Text, ResponseBody, Absent;
    var h := Header(2, id, 0xFFFF_FFFF_FFFF_FFFF);
    EnvelopeFormat(h, ResponseBody());
    AbsentBytes();
    OneByte(2);
    var k := [3, 0] + (Absent() + ([255, 255] + ResponseBody()));
    ShortText(2, id, k);
    assert [1, 0] + ([2] + ([2, 0, 32] + (id + k))) == [1, 0, 2, 2, 0, 32] + (id + k);
    EnvelopeRoundTrip(h, ResponseBody());
  }

  /** The captured handshake decodes as it was meant, on both sides. */
  lemma CapturedHandshake(id: Bytes)
    requires |id| == 32
    ensures Split(RequestHead() + RequestBody()) == Success(Message(Header(1, [], 4), RequestBody()))
    ensures DecodeConnectionRequest(RequestBody()) == Success(ConnectionRequest(Token(), Version(), Platform(), 1, 1))
    ensures Split(ResponseFrame(id)) == Success(Message(Header(2, id, 0xFFFF_FFFF_FFFF_FFFF), ResponseBody()))
    ensures DecodeConnectionResponse(ResponseBody()) == Success(ConnectionResponse(Version(), Platform(), 1))
  {
    hide Split, DecodeConnectionRequest, DecodeConnectionResponse, RequestBody, ResponseBody, RequestHead, ResponseFrame;
    RequestSplits();
    ResponseSplits(id);
    RequestBodyDecodes();
    ResponseBodyDecodes();
  }

  /** So do the captured success response, type 10, and the like. */
  lemma CapturedBare(kind: Byte)
    requires kind < 128
    ensures Split(BareFrame(kind)) == Success(Message(Header(kind, [], 0xFFFF_FFFF_FFFF_FFFF), [255, 255]))
  {
    hide UvEncode, EnvelopeBytes, Split, Absent;
    var h := Header(kind, [], 0xFFFF_FFFF_FFFF_FFFF);
    EnvelopeFormat(h, [255, 255]);
    AbsentBytes();
    OneByte(kind);
    assert [255, 255] + [255, 255] == [255, 255, 255, 255];
    assert [1, 0] + ([kind] + ([3, 0] + (Absent() + [255, 255, 255, 255]))) == BareFrame(kind);
    EnvelopeRoundTrip(h, [255, 255]);
  }
}
