/** The credential broker's pipe payload: the C# writer (McpCredentialBroker.cs) and
    the TypeScript reader (windows-credential-broker.ts). */
module CredentialWire {
  import opened Text

  type Byte = b: int | 0 <= b < 256 witness 0
  type Bytes = seq<Byte>
  type Int32 = n: int | -0x8000_0000 <= n < 0x8000_0000 witness 0

  const MAGIC: Bytes := [0x4D, 0x43, 0x50, 0x43, 0x52, 0x44, 0x30, 0x31]
  const PROTOCOL_VERSION: Int32 := 1
  const NONCE_LIMIT := 4096
  const SECRET_LIMIT := 65536
  const MAX_BROKER_PAYLOAD_BYTES := 140000

  // ---------------------------------------------------------------- 32-bit fields

  function EncodeInt32(n: Int32): (r: Bytes)
    ensures |r| == 4
  {
    var u := if n < 0 then n + 0x1_0000_0000 else n;
    [u % 256, u / 256 % 256, u / 65536 % 256, u / 16777216]
  }

  function DecodeInt32(b: Bytes): Int32
    requires |b| == 4
  {
    var b0: int, b1: int, b2: int, b3: int := b[0], b[1], b[2], b[3];
    var u := b0 + 256 * b1 + 65536 * b2 + 16777216 * b3;
    if u >= 0x8000_0000 then u - 0x1_0000_0000 else u
  }

  lemma Int32RoundTrip(n: Int32)
    ensures DecodeInt32(EncodeInt32(n)) == n
  {
    var u := if n < 0 then n + 0x1_0000_0000 else n;
    assert u == u % 256 + 256 * (u / 256);
    assert u / 256 == u / 256 % 256 + 256 * (u / 256 / 256);
    assert u / 256 / 256 == u / 65536;
    assert u / 65536 == u / 65536 % 256 + 256 * (u / 65536 / 256);
    assert u / 65536 / 256 == u / 16777216;
  }

  lemma Int32Canonical(b: Bytes)
    requires |b| == 4
    ensures EncodeInt32(DecodeInt32(b)) == b
  {
    var n := DecodeInt32(b);
    var b0: int, b1: int, b2: int, b3: int := b[0], b[1], b[2], b[3];
    var u := b0 + 256 * b1 + 65536 * b2 + 16777216 * b3;
    assert u == if u >= 0x8000_0000 then u - 0x1_0000_0000 + 0x1_0000_0000 else u;
    var u1 := b1 + 256 * b2 + 65536 * b3;
    var u2 := b2 + 256 * b3;
    assert u == b0 + 256 * u1 && u % 256 == b0 && u / 256 == u1;
    assert u1 == b1 + 256 * u2 && u1 % 256 == b1 && u1 / 256 == u2;
    assert u2 % 256 == b2 && u2 / 256 == b3;
    assert u / 65536 == u / 256 / 256 && u / 16777216 == u / 65536 / 256;
  }

  // ---------------------------------------------------------------- the writer

  datatype WriteError = InvalidData

  function Field(value: Bytes): Bytes
    requires |value| < 0x8000_0000
  {
    EncodeInt32(|value|) + value
  }

  function Header(status: Int32, processId: Int32): Bytes {
    MAGIC + EncodeInt32(PROTOCOL_VERSION) + EncodeInt32(status) + EncodeInt32(processId)
  }

  /** The fields the writer accepts. */
  predicate WithinLimits(nonce: Bytes, userName: Bytes, password: Bytes) {
    |nonce| <= NONCE_LIMIT && |userName| <= SECRET_LIMIT && |password| <= SECRET_LIMIT
  }

  function Encoded(status: Int32, processId: Int32, nonce: Bytes, userName: Bytes, password: Bytes): Bytes
    requires WithinLimits(nonce, userName, password)
  {
    Header(status, processId) + Field(nonce) + Field(userName) + Field(password)
  }

  /** What is on the stream when some field was over its limit. */
  function Stopped(status: Int32, processId: Int32, nonce: Bytes, userName: Bytes): Bytes {
    if |nonce| > NONCE_LIMIT then Header(status, processId)
    else if |userName| > SECRET_LIMIT then Header(status, processId) + Field(nonce)
    else Header(status, processId) + Field(nonce) + Field(userName)
  }

  lemma Associative(a: Bytes, b: Bytes, c: Bytes)
    ensures a + b + c == a + (b + c)
  {
  }

  class ByteStream {
    var written: Bytes

    constructor ()
      ensures written == []
    {
      written := [];
    }

    method Write(value: Bytes)
      modifies this
      ensures written == old(written) + value
    {
      written := written + value;
    }

    method WriteBuffer(value: Bytes, maximum: nat) returns (r: Result<(), WriteError>)
      requires maximum < 0x8000_0000
      modifies this
      ensures |value| <= maximum ==> r.Success? && written == old(written) + Field(value)
      ensures |value| > maximum ==> r == Failure(InvalidData) && written == old(written)
    {
      if |value| > maximum {
        return Failure(InvalidData);
      }
      Write(EncodeInt32(|value|));
      Write(value);
      assert written == old(written) + Field(value);
      return Success(());
    }

    /** Everything within the limits is written whole; a field over its limit stops the
        payload right before that field. */
    method WriteResponse(status: Int32, processId: Int32, nonce: Bytes, userName: Option<Bytes>, password: Option<Bytes>)
      returns (r: Result<(), WriteError>)
      modifies this
      ensures var u := if userName.Some? then userName.value else [];
              var p := if password.Some? then password.value else [];
              && r.Success? == WithinLimits(nonce, u, p)
              && written == old(written) + (if WithinLimits(nonce, u, p)
                                            then Encoded(status, processId, nonce, u, p)
                                            else Stopped(status, processId, nonce, u))
    {
      var safeUserName := if userName.Some? then userName.value else [];
      var safePassword := if password.Some? then password.value else [];
      WriteHeader(status, processId);
      ghost var done := Header(status, processId);
      r := WriteBuffer(nonce, NONCE_LIMIT);
      if r.Failure? { return; }
      Associative(old(written), done, Field(nonce));
      done := done + Field(nonce);
      r := WriteBuffer(safeUserName, SECRET_LIMIT);
      if r.Failure? { return; }
      Associative(old(written), done, Field(safeUserName));
      done := done + Field(safeUserName);
      r := WriteBuffer(safePassword, SECRET_LIMIT);
      if r.Failure? { return; }
      Associative(old(written), done, Field(safePassword));
    }

    method WriteHeader(status: Int32, processId: Int32)
      modifies this
      ensures written == old(written) + Header(status, processId)
    {
      Write(MAGIC);
      Write(EncodeInt32(PROTOCOL_VERSION));
      Write(EncodeInt32(status));
      Write(EncodeInt32(processId));
    }
  }

  // ---------------------------------------------------------------- the reader

  datatype ReadError = InvalidFieldLength | Truncated | PayloadTooLarge

  datatype ReadResult =
    | Secret(userName: Bytes, password: Bytes)
    | Unavailable
    | AccessDenied
    | ProtocolMismatch
    | BrokerUnavailable

  function RequireBytes(payload: Bytes, offset: nat, length: nat): Result<(), ReadError> {
    if offset + length > |payload| then Failure(Truncated) else Success(())
  }

  function ReadInt32(payload: Bytes, offset: nat): (r: Result<Int32, ReadError>)
    ensures r.Success? ==> offset + 4 <= |payload|
  {
    var _ :- RequireBytes(payload, offset, 4);
    Success(DecodeInt32(payload[offset..offset + 4]))
  }

  function ReadBuffer(payload: Bytes, offset: nat, maximum: nat): (r: Result<(Bytes, nat), ReadError>)
    ensures r.Success? ==> r.value.1 <= |payload|
  {
    var length :- ReadInt32(payload, offset);
    if length < 0 || length > maximum then Failure(InvalidFieldLength)
    else
      var _ :- RequireBytes(payload, offset + 4, length);
      Success((payload[offset + 4..offset + 4 + length], offset + 4 + length))
  }

  /** The meaning of a status word once the envelope has been accepted. */
  function Interpret(status: Int32, userName: Bytes, password: Bytes): ReadResult {
    if status == 0 then
      if |userName| == 0 || |password| == 0 then ProtocolMismatch else Secret(userName, password)
    else if status == 1 then Unavailable
    else if status == 2 then AccessDenied
    else if status == 3 then ProtocolMismatch
    else BrokerUnavailable
  }

  function Parsed(payload: Bytes, expectedNonce: Bytes, expectedProcessId: Option<Int32>): Result<ReadResult, ReadError> {
    var _ :- RequireBytes(payload, 0, 8);
    if payload[..8] != MAGIC then Success(ProtocolMismatch)
    else
      var version :- ReadInt32(payload, 8);
      var status :- ReadInt32(payload, 12);
      var processId :- ReadInt32(payload, 16);
      var nonce :- ReadBuffer(payload, 20, NONCE_LIMIT);
      var userName :- ReadBuffer(payload, nonce.1, SECRET_LIMIT);
      var password :- ReadBuffer(payload, userName.1, SECRET_LIMIT);
      if password.1 != |payload| || version != PROTOCOL_VERSION then Success(ProtocolMismatch)
      else if expectedProcessId.Some? && processId != expectedProcessId.value then Success(ProtocolMismatch)
      else if nonce.0 != expectedNonce then Success(ProtocolMismatch)
      else Success(Interpret(status, userName.0, password.0))
  }

  method ReadInt32At(payload: array<Byte>, offset: nat) returns (r: Result<Int32, ReadError>)
    ensures r == ReadInt32(payload[..], offset)
  {
    if offset + 4 > payload.Length { return Failure(Truncated); }
    assert payload[..][offset..offset + 4] == payload[offset..offset + 4];
    return Success(DecodeInt32(payload[offset..offset + 4]));
  }

  method ReadBufferAt(payload: array<Byte>, offset: nat, maximum: nat) returns (r: Result<(Bytes, nat), ReadError>)
    ensures r == ReadBuffer(payload[..], offset, maximum)
  {
    var length := ReadInt32At(payload, offset);
    if length.Failure? { return Failure(length.error); }
    if length.value < 0 || length.value > maximum { return Failure(InvalidFieldLength); }
    var start := offset + 4;
    if start + length.value > payload.Length { return Failure(Truncated); }
    assert payload[..][start..start + length.value] == payload[start..start + length.value];
    return Success((payload[start..start + length.value], start + length.value));
  }

  method Envelope(payload: array<Byte>, expectedNonce: Bytes, expectedProcessId: Option<Int32>)
    returns (r: Result<ReadResult, ReadError>)
    ensures r == Parsed(payload[..], expectedNonce, expectedProcessId)
  {
    var offset := 0;
    if payload.Length < 8 { return Failure(Truncated); }
    assert payload[..][..8] == payload[..8];
    if payload[..8] != MAGIC { return Success(ProtocolMismatch); }
    offset := offset + 8;
    var version := ReadInt32At(payload, offset);
    if version.Failure? { return Failure(version.error); }
    offset := offset + 4;
    var status := ReadInt32At(payload, offset);
    if status.Failure? { return Failure(status.error); }
    offset := offset + 4;
    var processId := ReadInt32At(payload, offset);
    if processId.Failure? { return Failure(processId.error); }
    offset := offset + 4;
    var nonce := ReadBufferAt(payload, offset, NONCE_LIMIT);
    if nonce.Failure? { return Failure(nonce.error); }
    offset := nonce.value.1;
    var userName := ReadBufferAt(payload, offset, SECRET_LIMIT);
    if userName.Failure? { return Failure(userName.error); }
    offset := userName.value.1;
    var password := ReadBufferAt(payload, offset, SECRET_LIMIT);
    if password.Failure? { return Failure(password.error); }
    offset := password.value.1;
    if offset != payload.Length || version.value != PROTOCOL_VERSION { return Success(ProtocolMismatch); }
    if expectedProcessId.Some? && processId.value != expectedProcessId.value { return Success(ProtocolMismatch); }
    if nonce.value.0 != expectedNonce { return Success(ProtocolMismatch); }
    return Success(Interpret(status.value, userName.value.0, password.value.0));
  }

  /** Parses the payload and, on every path, leaves only zeros in it. */
  method ParseBrokerPayload(payload: array<Byte>, expectedNonce: Bytes, expectedProcessId: Option<Int32>)
    returns (r: Result<ReadResult, ReadError>)
    modifies payload
    ensures r == Parsed(old(payload[..]), expectedNonce, expectedProcessId)
    ensures payload[..] == Repeat(0, payload.Length)
  {
    r := Envelope(payload, expectedNonce, expectedProcessId);
    for i := 0 to payload.Length
      invariant forall k | 0 <= k < i :: payload[k] == 0
    {
      payload[i] := 0;
    }
  }

  function Flatten(chunks: seq<Bytes>): Bytes {
    if chunks == [] then [] else Flatten(chunks[..|chunks| - 1]) + chunks[|chunks| - 1]
  }

  /** Collects the pipe's chunks; refuses as soon as the running total passes the cap. */
  method ReadPayload(chunks: seq<Bytes>) returns (r: Result<Bytes, ReadError>)
    ensures |Flatten(chunks)| <= MAX_BROKER_PAYLOAD_BYTES ==> r == Success(Flatten(chunks))
    ensures |Flatten(chunks)| > MAX_BROKER_PAYLOAD_BYTES ==> r == Failure(PayloadTooLarge)
  {
    var collected: Bytes := [];
    var totalBytes := 0;
    for i := 0 to |chunks|
      invariant collected == Flatten(chunks[..i]) && totalBytes == |collected| <= MAX_BROKER_PAYLOAD_BYTES
    {
      totalBytes := totalBytes + |chunks[i]|;
      assert chunks[..i + 1][..i] == chunks[..i];
      if totalBytes > MAX_BROKER_PAYLOAD_BYTES {
        FlattenGrows(chunks, i + 1);
        return Failure(PayloadTooLarge);
      }
      collected := collected + chunks[i];
    }
    assert chunks[..|chunks|] == chunks;
    return Success(collected);
  }

  lemma {:induction false} FlattenGrows(chunks: seq<Bytes>, i: nat)
    requires i <= |chunks|
    ensures |Flatten(chunks[..i])| <= |Flatten(chunks)|
  {
    if i == |chunks| {
      assert chunks[..i] == chunks;
    } else {
      FlattenGrows(chunks[..|chunks| - 1], i);
      assert chunks[..|chunks| - 1][..i] == chunks[..i];
    }
  }

  // ---------------------------------------------------------------- agreement

  /** A 32-bit word standing at `offset` in `whole` is read from any cut that contains it. */
  lemma ReadsInt32(whole: Bytes, offset: nat, n: Int32, cut: nat)
    requires offset + 4 <= |whole| && whole[offset..offset + 4] == EncodeInt32(n) && cut <= |whole|
    ensures ReadInt32(whole[..cut], offset) == if offset + 4 <= cut then Success(n) else Failure(Truncated)
  {
    Int32RoundTrip(n);
    if offset + 4 <= cut {
      assert whole[..cut][offset..offset + 4] == whole[offset..offset + 4];
    }
  }

  lemma ReadsField(whole: Bytes, offset: nat, value: Bytes, maximum: nat, cut: nat)
    requires |value| <= maximum < 0x8000_0000
    requires offset + 4 + |value| <= |whole| && whole[offset..offset + 4 + |value|] == Field(value) && cut <= |whole|
    ensures ReadBuffer(whole[..cut], offset, maximum)
         == if offset + 4 + |value| <= cut then Success((value, offset + 4 + |value|)) else Failure(Truncated)
  {
    var f := whole[offset..offset + 4 + |value|];
    assert whole[offset..offset + 4] == f[..4];
    ReadsInt32(whole, offset, |value|, cut);
    if offset + 4 + |value| <= cut {
      assert whole[..cut][offset + 4..offset + 4 + |value|] == f[4..];
    }
  }

  /** Where the reader looks for each part of a payload. */
  predicate LaidOut(w: Bytes, status: Int32, processId: Int32, nonce: Bytes, userName: Bytes, password: Bytes)
    requires WithinLimits(nonce, userName, password)
  {
    var a := 24 + |nonce|;
    var b := a + 4 + |userName|;
    var c := b + 4 + |password|;
    && c <= |w|
    && w[..8] == MAGIC
    && w[8..12] == EncodeInt32(PROTOCOL_VERSION)
    && w[12..16] == EncodeInt32(status)
    && w[16..20] == EncodeInt32(processId)
    && w[20..a] == Field(nonce)
    && w[a..b] == Field(userName)
    && w[b..c] == Field(password)
  }

  lemma Layout(status: Int32, processId: Int32, nonce: Bytes, userName: Bytes, password: Bytes, extra: Bytes)
    requires WithinLimits(nonce, userName, password)
    ensures LaidOut(Encoded(status, processId, nonce, userName, password) + extra, status, processId, nonce, userName, password)
    ensures |Encoded(status, processId, nonce, userName, password)| == 32 + |nonce| + |userName| + |password|
  {
  }

  lemma LayoutIsWritten(w: Bytes, status: Int32, processId: Int32, nonce: Bytes, userName: Bytes, password: Bytes)
    requires WithinLimits(nonce, userName, password)
    requires LaidOut(w, status, processId, nonce, userName, password)
    requires |w| == 32 + |nonce| + |userName| + |password|
    ensures w == Encoded(status, processId, nonce, userName, password)
  {
    var a := 24 + |nonce|;
    var b := a + 4 + |userName|;
    assert w[..12] == w[..8] + w[8..12];
    assert w[..16] == w[..12] + w[12..16];
    assert w[..20] == w[..16] + w[16..20];
    assert w[..a] == w[..20] + w[20..a];
    assert w[..b] == w[..a] + w[a..b];
    assert w == w[..b] + w[b..];
  }

  /** Reading any cut of a laid-out payload. */
  lemma ReadsLayout(w: Bytes, status: Int32, processId: Int32, nonce: Bytes, userName: Bytes, password: Bytes,
                    cut: nat, expectedProcessId: Option<Int32>)
    requires WithinLimits(nonce, userName, password)
    requires LaidOut(w, status, processId, nonce, userName, password) && cut <= |w|
    ensures var whole := 32 + |nonce| + |userName| + |password|;
            Parsed(w[..cut], nonce, expectedProcessId)
            == if cut < whole then Failure(Truncated)
               else if cut > whole then Success(ProtocolMismatch)
               else if expectedProcessId.Some? && expectedProcessId.value != processId then Success(ProtocolMismatch)
               else Success(Interpret(status, userName, password))
  {
    if cut >= 8 {
      assert w[..cut][..8] == w[..8];
      ReadsInt32(w, 8, PROTOCOL_VERSION, cut);
      ReadsInt32(w, 12, status, cut);
      ReadsInt32(w, 16, processId, cut);
      var a := 24 + |nonce|;
      var b := a + 4 + |userName|;
      ReadsField(w, 20, nonce, NONCE_LIMIT, cut);
      ReadsField(w, a, userName, SECRET_LIMIT, cut);
      ReadsField(w, b, password, SECRET_LIMIT, cut);
    }
  }

  /** Every cut of a written payload, with or without bytes after it: only the whole
      payload, ended where the writer ended it, reaches the status word. */
  lemma ReadsCut(status: Int32, processId: Int32, nonce: Bytes, userName: Bytes, password: Bytes,
                 extra: Bytes, cut: nat, expectedProcessId: Option<Int32>)
    requires WithinLimits(nonce, userName, password)
    requires cut <= |Encoded(status, processId, nonce, userName, password) + extra|
    ensures var e := Encoded(status, processId, nonce, userName, password);
            Parsed((e + extra)[..cut], nonce, expectedProcessId)
            == if cut < |e| then Failure(Truncated)
               else if cut > |e| then Success(ProtocolMismatch)
               else if expectedProcessId.Some? && expectedProcessId.value != processId then Success(ProtocolMismatch)
               else Success(Interpret(status, userName, password))
  {
    Layout(status, processId, nonce, userName, password, extra);
    ReadsLayout(Encoded(status, processId, nonce, userName, password) + extra,
                status, processId, nonce, userName, password, cut, expectedProcessId);
  }

  /** The reader undoes the writer, for every status, process, nonce and credential the
      writer accepts. */
  lemma RoundTrip(status: Int32, processId: Int32, nonce: Bytes, userName: Bytes, password: Bytes)
    requires WithinLimits(nonce, userName, password)
    ensures Parsed(Encoded(status, processId, nonce, userName, password), nonce, Some(processId))
         == Success(Interpret(status, userName, password))
    ensures Parsed(Encoded(status, processId, nonce, userName, password), nonce, None)
         == Success(Interpret(status, userName, password))
  {
    var e := Encoded(status, processId, nonce, userName, password);
    assert (e + [])[..|e|] == e;
    ReadsCut(status, processId, nonce, userName, password, [], |e|, Some(processId));
    ReadsCut(status, processId, nonce, userName, password, [], |e|, None);
  }

  /** What the broker reports about itself. */
  datatype BrokerStatus = Done | Missing | Denied | Mismatched | Broken

  function Code(b: BrokerStatus): Int32 {
    match b
    case Done => 0
    case Missing => 1
    case Denied => 2
    case Mismatched => 3
    case Broken => 4
  }

  /** Every status of the broker is understood as what it means; a success without a name or
      without a password is not one. */
  lemma StatusIsUnderstood(b: BrokerStatus, processId: Int32, nonce: Bytes, userName: Bytes, password: Bytes)
    requires WithinLimits(nonce, userName, password)
    ensures Parsed(Encoded(Code(b), processId, nonce, userName, password), nonce, Some(processId)) == Success(
              match b
              case Done => if userName != [] && password != [] then Secret(userName, password) else ProtocolMismatch
              case Missing => Unavailable
              case Denied => AccessDenied
              case Mismatched => ProtocolMismatch
              case Broken => BrokerUnavailable)
  {
    RoundTrip(Code(b), processId, nonce, userName, password);
  }

  /** A payload cut short is reported as truncated, and one with bytes added as a
      mismatch: the format is self-delimiting. */
  lemma SelfDelimiting(status: Int32, processId: Int32, nonce: Bytes, userName: Bytes, password: Bytes,
                       other: Bytes, expectedProcessId: Option<Int32>)
    requires WithinLimits(nonce, userName, password)
    ensures var e := Encoded(status, processId, nonce, userName, password);
            && (IsPrefix(other, e) && other != e ==> Parsed(other, nonce, expectedProcessId) == Failure(Truncated))
            && (IsPrefix(e, other) && other != e ==> Parsed(other, nonce, expectedProcessId) == Success(ProtocolMismatch))
  {
    var e := Encoded(status, processId, nonce, userName, password);
    if IsPrefix(other, e) && other != e {
      assert (e + [])[..|other|] == other;
      ReadsCut(status, processId, nonce, userName, password, [], |other|, expectedProcessId);
    }
    if IsPrefix(e, other) && other != e {
      var extra := other[|e|..];
      assert other == e + extra && (e + extra)[..|other|] == other;
      ReadsCut(status, processId, nonce, userName, password, extra, |other|, expectedProcessId);
    }
  }

  lemma ReadIsEncoded(payload: Bytes, offset: nat)
    requires ReadInt32(payload, offset).Success?
    ensures payload[offset..offset + 4] == EncodeInt32(ReadInt32(payload, offset).value)
  {
    Int32Canonical(payload[offset..offset + 4]);
  }

  lemma ReadIsField(payload: Bytes, offset: nat, maximum: nat)
    requires maximum < 0x8000_0000
    requires ReadBuffer(payload, offset, maximum).Success?
    ensures var (value, next) := ReadBuffer(payload, offset, maximum).value;
            |value| <= maximum && next == offset + 4 + |value| <= |payload| && payload[offset..next] == Field(value)
  {
    ReadIsEncoded(payload, offset);
    var (value, next) := ReadBuffer(payload, offset, maximum).value;
    assert payload[offset..next] == payload[offset..offset + 4] + payload[offset + 4..next];
  }

  /** Success is returned only for the bytes the writer emits for that very credential,
      nonce and process. */
  lemma OnlyWrittenPayloadsSucceed(payload: Bytes, nonce: Bytes, expectedProcessId: Option<Int32>, userName: Bytes, password: Bytes)
    requires Parsed(payload, nonce, expectedProcessId) == Success(Secret(userName, password))
    ensures userName != [] && password != [] && WithinLimits(nonce, userName, password)
    ensures exists processId: Int32 ::
              && (expectedProcessId.Some? ==> processId == expectedProcessId.value)
              && payload == Encoded(0, processId, nonce, userName, password)
  {
    var processId := ReadInt32(payload, 16).value;
    ReadIsEncoded(payload, 8);
    ReadIsEncoded(payload, 12);
    ReadIsEncoded(payload, 16);
    ReadIsField(payload, 20, NONCE_LIMIT);
    var a := ReadBuffer(payload, 20, NONCE_LIMIT).value.1;
    ReadIsField(payload, a, SECRET_LIMIT);
    var b := ReadBuffer(payload, a, SECRET_LIMIT).value.1;
    ReadIsField(payload, b, SECRET_LIMIT);
    LayoutIsWritten(payload, 0, processId, nonce, userName, password);
  }

  /** Whatever the writer can emit fits under the reader's cap. */
  lemma WritableFitsCap(status: Int32, processId: Int32, nonce: Bytes, userName: Bytes, password: Bytes)
    requires WithinLimits(nonce, userName, password)
    ensures |Encoded(status, processId, nonce, userName, password)|
            == 32 + |nonce| + |userName| + |password| <= 135200 < MAX_BROKER_PAYLOAD_BYTES
  {
    Layout(status, processId, nonce, userName, password, []);
  }

  /** End to end over the stream: what one side writes, split into any chunks by the
      pipe, is what the other side reads. */
  method Exchange(status: Int32, processId: Int32, nonce: Bytes, userName: Bytes, password: Bytes, chunks: seq<Bytes>)
    returns (r: Result<ReadResult, ReadError>)
    requires WithinLimits(nonce, userName, password)
    requires Flatten(chunks) == Encoded(status, processId, nonce, userName, password)
    ensures r == Success(Interpret(status, userName, password))
  {
    WritableFitsCap(status, processId, nonce, userName, password);
    RoundTrip(status, processId, nonce, userName, password);
    var payload := ReadPayload(chunks);
    var buffer := new Byte[|payload.value|](i requires 0 <= i < |payload.value| => payload.value[i]);
    assert buffer[..] == payload.value;
    r := ParseBrokerPayload(buffer, nonce, Some(processId));
  }
}
