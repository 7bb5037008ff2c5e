/** The UDP packet format of protocol.c: packets, their wire form, the builders and the parser. */
module Packets {
  import opened Bytes
  import opened Results

  const HEADER_SIZE: nat := 6
  const DATA_HEADER_SIZE: nat := 10
  const FEEDBACK_PAYLOAD_SIZE: nat := 8
  const FEEDBACK_HEADER_SIZE: nat := 14
  const DATA_CHUNK_SIZE: nat := 1000
  const DIGEST_SIZE: nat := 20
  const MAX_PASSWORD: nat := 255
  const RECV_BUFFER: nat := 2048

  datatype Packet =
    | JoinReq
    | PassReq
    | PassResp(password: seq<byte>)
    | PassAccept
    | Data(id: u32, payload: seq<byte>)
    | Terminate(digest: seq<byte>)
    | Reject
    | Ack(ackId: u32, window: u32)
    | Nack(ackId: u32, window: u32)
  {
    /** The payload lengths that the wire format admits. */
    predicate WellFormed() {
      match this
      case PassResp(password) => |password| <= MAX_PASSWORD
      case Data(_, payload) => |payload| <= DATA_CHUNK_SIZE
      case Terminate(digest) => |digest| == DIGEST_SIZE
      case _ => true
    }

    function TypeCode(): u16 {
      match this
      case JoinReq => 1
      case PassReq => 2
      case PassResp(_) => 3
      case PassAccept => 4
      case Data(_, _) => 5
      case Terminate(_) => 6
      case Reject => 7
      case Ack(_, _) => 8
      case Nack(_, _) => 9
    }
  }

  function Header(code: u16, length: u32): (h: seq<byte>)
    ensures |h| == HEADER_SIZE
  {
    PutU16(code) + PutU32(length)
  }

  /** The wire form of a packet. */
  function Encode(p: Packet): seq<byte>
    requires p.WellFormed()
  {
    match p
    case PassResp(password) => Header(3, |password|) + password
    case Data(id, payload) => Header(5, |payload|) + PutU32(id) + payload
    case Terminate(digest) => Header(6, DIGEST_SIZE) + digest
    case Ack(ackId, window) => Header(8, FEEDBACK_PAYLOAD_SIZE) + PutU32(ackId) + PutU32(window)
    case Nack(ackId, window) => Header(9, FEEDBACK_PAYLOAD_SIZE) + PutU32(ackId) + PutU32(window)
    case _ => Header(p.TypeCode(), 0)
  }

  lemma SmallHeader(code: byte, length: u16)
    ensures Header(code, length) == [0, code, 0, 0, length / 0x100, length % 0x100]
  {
  }

  lemma NumberBytes(x: u32)
    ensures PutU32(x) == [x / 0x100_0000, x / 0x1_0000 % 0x100, x / 0x100 % 0x100, x % 0x100]
  {
  }

  /** Every packet byte by byte: type, payload length and numbers, the most significant byte first. */
  lemma WireLayout(p: Packet)
    requires p.WellFormed()
    ensures Encode(p) ==
      match p
      case JoinReq => [0, 1, 0, 0, 0, 0]
      case PassReq => [0, 2, 0, 0, 0, 0]
      case PassResp(password) => [0, 3, 0, 0, 0, |password|] + password
      case PassAccept => [0, 4, 0, 0, 0, 0]
      case Data(id, payload) =>
        [0, 5, 0, 0, |payload| / 0x100, |payload| % 0x100,
         id / 0x100_0000, id / 0x1_0000 % 0x100, id / 0x100 % 0x100, id % 0x100] + payload
      case Terminate(digest) => [0, 6, 0, 0, 0, 20] + digest
      case Reject => [0, 7, 0, 0, 0, 0]
      case Ack(id, w) =>
        [0, 8, 0, 0, 0, 8, id / 0x100_0000, id / 0x1_0000 % 0x100, id / 0x100 % 0x100, id % 0x100,
         w / 0x100_0000, w / 0x1_0000 % 0x100, w / 0x100 % 0x100, w % 0x100]
      case Nack(id, w) =>
        [0, 9, 0, 0, 0, 8, id / 0x100_0000, id / 0x1_0000 % 0x100, id / 0x100 % 0x100, id % 0x100,
         w / 0x100_0000, w / 0x1_0000 % 0x100, w / 0x100 % 0x100, w % 0x100]
  {
    hide PutU16, PutU32, Header;
    match p
    case PassResp(password) => SmallHeader(3, |password|);
    case Data(id, payload) =>
      SmallHeader(5, |payload|);
      NumberBytes(id);
    case Terminate(_) => SmallHeader(6, 20);
    case Ack(id, w) =>
      SmallHeader(8, 8);
      NumberBytes(id);
      NumberBytes(w);
    case Nack(id, w) =>
      SmallHeader(9, 8);
      NumberBytes(id);
      NumberBytes(w);
    case _ => SmallHeader(p.TypeCode(), 0);
  }

  /** What the format can carry: passwords of 255 bytes, chunks of 1000, digests of 20. */
  lemma Limits(p: Packet)
    ensures p.WellFormed() <==>
      && (p.PassResp? ==> |p.password| <= 255)
      && (p.Data? ==> |p.payload| <= 1000)
      && (p.Terminate? ==> |p.digest| == 20)
  {
  }

  datatype ParseError =
    | ShorterThanHeader | ExceedsBuffer | UnknownType | ControlPayload
    | PasswordTooLong | PasswordLength | DataTooLong | DataLength | DigestLength | FeedbackLength

  predicate TypeValid(code: u16) {
    1 <= code <= 9
  }

  function Parse(buf: seq<byte>): Result<Packet, ParseError> {
    if |buf| < HEADER_SIZE then Err(ShorterThanHeader)
    else if |buf| > RECV_BUFFER then Err(ExceedsBuffer)
    else
      var code, length := GetU16(buf), GetU32(buf[2..]);
      if !TypeValid(code) then Err(UnknownType)
      else if code == 3 then
        if length > MAX_PASSWORD then Err(PasswordTooLong)
        else if |buf| != HEADER_SIZE + length then Err(PasswordLength)
        else Ok(PassResp(buf[HEADER_SIZE..]))
      else if code == 5 then
        if length > DATA_CHUNK_SIZE then Err(DataTooLong)
        else if |buf| != DATA_HEADER_SIZE + length then Err(DataLength)
        else Ok(Data(GetU32(buf[HEADER_SIZE..]), buf[DATA_HEADER_SIZE..]))
      else if code == 6 then
        if length != DIGEST_SIZE || |buf| != HEADER_SIZE + DIGEST_SIZE then Err(DigestLength)
        else Ok(Terminate(buf[HEADER_SIZE..]))
      else if code == 8 || code == 9 then
        if length != FEEDBACK_PAYLOAD_SIZE || |buf| != FEEDBACK_HEADER_SIZE then Err(FeedbackLength)
        else
          var ackId, window := GetU32(buf[HEADER_SIZE..]), GetU32(buf[HEADER_SIZE + 4..]);
          Ok(if code == 8 then Ack(ackId, window) else Nack(ackId, window))
      else if length != 0 || |buf| != HEADER_SIZE then Err(ControlPayload)
      else Ok(if code == 1 then JoinReq else if code == 2 then PassReq else if code == 4 then PassAccept else Reject)
  }

  lemma HeaderReads(code: u16, length: u32, rest: seq<byte>)
    ensures GetU16(Header(code, length) + rest) == code
    ensures GetU32((Header(code, length) + rest)[2..]) == length
    ensures (Header(code, length) + rest)[HEADER_SIZE..] == rest
  {
    var s := Header(code, length) + rest;
    assert s == PutU16(code) + (PutU32(length) + rest);
    PutGetU16(code, PutU32(length) + rest);
    assert s[2..] == PutU32(length) + rest;
    PutGetU32(length, rest);
  }

  lemma HeaderWrites(buf: seq<byte>)
    requires |buf| >= HEADER_SIZE
    ensures buf == Header(GetU16(buf), GetU32(buf[2..])) + buf[HEADER_SIZE..]
  {
    GetPutU16(buf);
    GetPutU32(buf[2..]);
    assert buf == buf[..2] + buf[2..][..4] + buf[HEADER_SIZE..];
  }

  /** Parsing a packet's wire form gives the packet back. */
  lemma ParseOfEncode(p: Packet)
    requires p.WellFormed()
    ensures Parse(Encode(p)) == Ok(p)
  {
    hide PutU16, PutU32, GetU16, GetU32, Header;
    var buf := Encode(p);
    match p
    case PassResp(password) => HeaderReads(3, |password|, password);
    case Data(id, payload) =>
      HeaderReads(5, |payload|, PutU32(id) + payload);
      PutGetU32(id, payload);
      assert buf == Header(5, |payload|) + (PutU32(id) + payload);
      assert |PutU32(id)| == 4 by { PutU32Length(id); }
      assert buf[DATA_HEADER_SIZE..] == payload;
    case Terminate(digest) => HeaderReads(6, DIGEST_SIZE, digest);
    case Ack(ackId, window) => FeedbackReads(8, ackId, window);
    case Nack(ackId, window) => FeedbackReads(9, ackId, window);
    case _ =>
      HeaderReads(p.TypeCode(), 0, []);
      assert buf + [] == buf;
  }

  lemma PutU32Length(x: u32)
    ensures |PutU32(x)| == 4
  {
  }

  lemma FeedbackReads(code: u16, ackId: u32, window: u32)
    ensures var buf := Header(code, FEEDBACK_PAYLOAD_SIZE) + PutU32(ackId) + PutU32(window);
            && |buf| == FEEDBACK_HEADER_SIZE
            && GetU16(buf) == code && GetU32(buf[2..]) == FEEDBACK_PAYLOAD_SIZE
            && GetU32(buf[HEADER_SIZE..]) == ackId && GetU32(buf[HEADER_SIZE + 4..]) == window
  {
    hide PutU16, GetU16, GetU32, Header;
    var rest := PutU32(ackId) + PutU32(window);
    var buf := Header(code, FEEDBACK_PAYLOAD_SIZE) + PutU32(ackId) + PutU32(window);
    assert buf == Header(code, FEEDBACK_PAYLOAD_SIZE) + rest;
    HeaderReads(code, FEEDBACK_PAYLOAD_SIZE, rest);
    PutGetU32(ackId, PutU32(window));
    PutGetU32(window, []);
    assert buf[HEADER_SIZE + 4..] == rest[4..] == PutU32(window) + [];
  }

  /** Every accepted byte string is the wire form of the packet it parses to. */
  lemma EncodeOfParse(buf: seq<byte>)
    requires Parse(buf).Ok?
    ensures Parse(buf).value.WellFormed() && Encode(Parse(buf).value) == buf
  {
    hide PutU16, PutU32, GetU16, GetU32, Header;
    var p := Parse(buf).value;
    HeaderWrites(buf);
    var body := buf[HEADER_SIZE..];
    match p
    case Data(id, payload) =>
      GetPutU32(body);
      assert body == body[..4] + payload;
    case Ack(ackId, window) => FeedbackWrites(buf);
    case Nack(ackId, window) => FeedbackWrites(buf);
    case _ =>
  }

  lemma FeedbackWrites(buf: seq<byte>)
    requires |buf| == FEEDBACK_HEADER_SIZE
    ensures buf == Header(GetU16(buf), GetU32(buf[2..])) + PutU32(GetU32(buf[HEADER_SIZE..]))
      + PutU32(GetU32(buf[HEADER_SIZE + 4..]))
  {
    hide PutU16, PutU32, GetU16, GetU32, Header;
    HeaderWrites(buf);
    var body := buf[HEADER_SIZE..];
    GetPutU32(body);
    GetPutU32(buf[HEADER_SIZE + 4..]);
    assert body == body[..4] + buf[HEADER_SIZE + 4..];
  }

  /** The parser accepts exactly the wire forms of well-formed packets. */
  lemma ParseAcceptsExactlyEncodings(buf: seq<byte>)
    ensures Parse(buf).Ok? <==> exists p: Packet :: p.WellFormed() && Encode(p) == buf
  {
    if Parse(buf).Ok? {
      EncodeOfParse(buf);
    }
    if p: Packet :| p.WellFormed() && Encode(p) == buf {
      ParseOfEncode(p);
    }
  }

  /** A C string: the bytes before the first NUL. */
  function CString(s: seq<byte>): (t: seq<byte>)
    ensures |t| <= |s| && t == s[..|t|] && 0 !in t
    ensures |t| < |s| ==> s[|t|] == 0
  {
    if s == [] || s[0] == 0 then [] else [s[0]] + CString(s[1..])
  }

  /** The password builder reproduces a parsed PASS_RESP exactly when its password has no NUL byte. */
  lemma PasswordRebuilds(buf: seq<byte>)
    requires Parse(buf).Ok? && Parse(buf).value.PassResp?
    ensures Encode(PassResp(CString(Parse(buf).value.password))) == buf <==> 0 !in Parse(buf).value.password
  {
    hide PutU16, PutU32, Header;
    var pw := Parse(buf).value.password;
    EncodeOfParse(buf);
    var t := CString(pw);
    if 0 in pw {
      assert |Encode(PassResp(t))| == HEADER_SIZE + |t|;
    } else {
      assert |t| == |pw|;
    }
  }

  predicate ControlCode(code: u16) {
    TypeValid(code) && code != 3 && code != 5 && code != 6
  }

  /** The control builder also takes the ACK and NACK codes, and those are exactly the packets the parser turns down. */
  lemma ControlBuilderParses(code: u16)
    requires ControlCode(code)
    ensures Parse(Header(code, 0)).Ok? <==> code != 8 && code != 9
    ensures Parse(Header(code, 0)).Ok? ==> Parse(Header(code, 0)).value.TypeCode() == code
  {
    hide PutU16, PutU32, GetU16, GetU32, Header;
    assert Header(code, 0) + [] == Header(code, 0);
    HeaderReads(code, 0, []);
  }

  // The builders of protocol.c, writing the caller's buffer.

  method BuildControlPacket(code: u16, out: array<byte>) returns (rc: bool, outLen: nat)
    modifies out
    ensures rc <==> HEADER_SIZE <= out.Length && ControlCode(code)
    ensures rc ==> outLen <= out.Length && out[..outLen] == Header(code, 0)
    ensures !rc ==> out[..] == old(out[..])
  {
    if out.Length < HEADER_SIZE || !TypeValid(code) || code == 3 || code == 5 || code == 6 {
      return false, 0;
    }
    CopyInto(out, 0, PutU16(code));
    CopyInto(out, 2, PutU32(0));
    assert out[..6] == out[..2] + out[2..6];
    return true, HEADER_SIZE;
  }

  method BuildPassRespPacket(password: seq<byte>, out: array<byte>) returns (rc: bool, outLen: nat)
    modifies out
    ensures rc <==> |CString(password)| <= MAX_PASSWORD && HEADER_SIZE + |CString(password)| <= out.Length
    ensures rc ==> outLen <= out.Length && out[..outLen] == Encode(PassResp(CString(password)))
    ensures !rc ==> out[..] == old(out[..])
  {
    var text := CString(password);
    var len := |text|;
    if len > MAX_PASSWORD || out.Length < HEADER_SIZE + len {
      return false, 0;
    }
    CopyInto(out, 0, PutU16(3));
    CopyInto(out, 2, PutU32(len));
    CopyInto(out, HEADER_SIZE, text);
    assert out[..HEADER_SIZE + len] == out[..6] + out[6..6 + len];
    assert out[..6] == out[..6][..2] + out[..6][2..];
    return true, HEADER_SIZE + len;
  }

  method BuildDataPacket(id: u32, data: seq<byte>, out: array<byte>) returns (rc: bool, outLen: nat)
    modifies out
    ensures rc <==> |data| <= DATA_CHUNK_SIZE && DATA_HEADER_SIZE + |data| <= out.Length
    ensures rc ==> outLen <= out.Length && out[..outLen] == Encode(Data(id, data))
    ensures !rc ==> out[..] == old(out[..])
  {
    if |data| > DATA_CHUNK_SIZE || out.Length < DATA_HEADER_SIZE + |data| {
      return false, 0;
    }
    CopyInto(out, 0, PutU16(5));
    CopyInto(out, 2, PutU32(|data|));
    ghost var h := out[..6];
    assert h == Header(5, |data|) by { assert h == h[..2] + h[2..]; }
    CopyInto(out, HEADER_SIZE, PutU32(id));
    ghost var h' := out[..10];
    assert h' == h + PutU32(id) by { assert h' == h'[..6] + h'[6..]; }
    CopyInto(out, DATA_HEADER_SIZE, data);
    assert out[..DATA_HEADER_SIZE + |data|] == h' + data;
    return true, DATA_HEADER_SIZE + |data|;
  }

  method BuildFeedbackPacket(code: u16, ackId: u32, window: u32, out: array<byte>) returns (rc: bool, outLen: nat)
    modifies out
    ensures rc <==> (code == 8 || code == 9) && FEEDBACK_HEADER_SIZE <= out.Length
    ensures rc ==> outLen <= out.Length
    ensures rc ==> out[..outLen] == Encode(if code == 8 then Ack(ackId, window) else Nack(ackId, window))
    ensures !rc ==> out[..] == old(out[..])
  {
    if (code != 8 && code != 9) || out.Length < FEEDBACK_HEADER_SIZE {
      return false, 0;
    }
    CopyInto(out, 0, PutU16(code));
    CopyInto(out, 2, PutU32(FEEDBACK_PAYLOAD_SIZE));
    ghost var h := out[..6];
    assert h == Header(code, FEEDBACK_PAYLOAD_SIZE) by { assert h == h[..2] + h[2..]; }
    CopyInto(out, HEADER_SIZE, PutU32(ackId));
    ghost var h' := out[..10];
    assert h' == h + PutU32(ackId) by { assert h' == h'[..6] + h'[6..]; }
    CopyInto(out, HEADER_SIZE + 4, PutU32(window));
    assert out[..14] == h' + PutU32(window);
    return true, FEEDBACK_HEADER_SIZE;
  }

  method BuildTerminatePacket(digest: seq<byte>, out: array<byte>) returns (rc: bool, outLen: nat)
    requires |digest| == DIGEST_SIZE
    modifies out
    ensures rc <==> HEADER_SIZE + DIGEST_SIZE <= out.Length
    ensures rc ==> outLen <= out.Length && out[..outLen] == Encode(Terminate(digest))
    ensures !rc ==> out[..] == old(out[..])
  {
    if out.Length < HEADER_SIZE + DIGEST_SIZE {
      return false, 0;
    }
    CopyInto(out, 0, PutU16(6));
    CopyInto(out, 2, PutU32(DIGEST_SIZE));
    ghost var h := out[..6];
    assert h == Header(6, DIGEST_SIZE) by { assert h == h[..2] + h[2..]; }
    CopyInto(out, HEADER_SIZE, digest);
    assert out[..26] == h + digest;
    return true, HEADER_SIZE + DIGEST_SIZE;
  }
}
