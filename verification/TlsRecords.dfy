/** The record layer of the TLS-like demo: sequence number, MAC, encrypted payload. */
module TlsRecords {
  import opened Bytes
  import opened FileChunks
  import opened Results
  import opened Hmac
  import Packets

  const DIGEST: nat := 20
  const MAX_PAYLOAD: nat := 4096
  const OVERHEAD: nat := 4 + DIGEST

  /** demo_xor_crypt as a function: the key repeats along the data. */
  function Crypt(data: seq<byte>, key: seq<byte>): (r: seq<byte>)
    ensures |r| == |data|
  {
    if key == [] then data else seq(|data|, i requires 0 <= i < |data| => Xor(data[i], key[i % |key|]))
  }

  /** Each byte is masked by the key byte at its place, the key repeating; an empty key masks nothing. */
  lemma CryptByte(data: seq<byte>, key: seq<byte>, i: nat)
    requires i < |data|
    ensures Crypt(data, key)[i] == if |key| == 0 then data[i] else Xor(data[i], key[i % |key|])
  {
    hide Xor;
  }

  /** Encrypting twice with one key changes nothing. */
  lemma CryptTwice(data: seq<byte>, key: seq<byte>)
    ensures Crypt(Crypt(data, key), key) == data
  {
    hide Xor;
    var once := Crypt(data, key);
    var twice := Crypt(once, key);
    if key != [] {
      forall i | 0 <= i < |data|
        ensures twice[i] == data[i]
      {
        assert once[i] == Xor(data[i], key[i % |key|]);
        XorTwice(data[i], key[i % |key|]);
      }
    }
  }

  /** demo_xor_crypt on part of a buffer. */
  method XorCrypt(data: array<byte>, start: nat, len: nat, key: seq<byte>)
    requires start + len <= data.Length
    modifies data
    ensures data[start..start + len] == Crypt(old(data[start..start + len]), key)
    ensures data[..start] == old(data[..start]) && data[start + len..] == old(data[start + len..])
  {
    hide Xor;
    if |key| == 0 {
      return;
    }
    ghost var was := data[start..start + len];
    for i := 0 to len
      invariant forall j :: 0 <= j < i ==> data[start + j] == Xor(was[j], key[j % |key|])
      invariant forall j :: i <= j < len ==> data[start + j] == was[j]
      invariant data[..start] == old(data[..start]) && data[start + len..] == old(data[start + len..])
    {
      data[start + i] := Xor(data[start + i], key[i % |key|]);
    }
  }

  // ---- Records ----

  /** tls_app_mac: the HMAC of the sequence number and the cipher text. */
  function AppMac(seqNo: u32, cipher: seq<byte>, key: seq<byte>): (mac: seq<byte>)
    ensures |mac| == DIGEST
  {
    HmacSha1(key, PutU32(seqNo) + cipher)
  }

  function Record(seqNo: u32, plain: seq<byte>, key: seq<byte>): (r: seq<byte>)
    ensures |r| == OVERHEAD + |plain|
  {
    var cipher := Crypt(plain, key);
    PutU32(seqNo) + AppMac(seqNo, cipher, key) + cipher
  }

  /** A record's fields: the sequence number, the MAC of that and the cipher text, and the cipher text. */
  lemma RecordFields(seqNo: u32, plain: seq<byte>, key: seq<byte>)
    ensures var r := Record(seqNo, plain, key);
      && |r| == 24 + |plain|
      && r[..4] == [seqNo / 0x100_0000, seqNo / 0x1_0000 % 0x100, seqNo / 0x100 % 0x100, seqNo % 0x100]
      && r[4..24] == HmacSha1(key, r[..4] + r[24..])
      && r[24..] == Crypt(plain, key)
  {
    hide HmacSha1, Crypt;
    var cipher := Crypt(plain, key);
    var number, mac := PutU32(seqNo), AppMac(seqNo, cipher, key);
    assert Record(seqNo, plain, key) == number + mac + cipher;
    FieldsApart(number, mac, cipher);
  }

  lemma FieldsApart(number: seq<byte>, mac: seq<byte>, cipher: seq<byte>)
    requires |number| == 4 && |mac| == 20
    ensures var r := number + mac + cipher; r[..4] == number && r[4..24] == mac && r[24..] == cipher
  {
  }

  method ComputeAppMac(seqNo: u32, cipher: seq<byte>, key: seq<byte>) returns (mac: seq<byte>)
    ensures mac == AppMac(seqNo, cipher, key)
  {
    hide HmacSha1, PutU32;
    var buf := new byte[4 + |cipher|];
    CopyInto(buf, 0, PutU32(seqNo));
    assert buf[..4] == PutU32(seqNo);
    CopyInto(buf, 4, cipher);
    assert buf[..] == PutU32(seqNo) + cipher;
    mac := ComputeHmac(key, buf[..]);
  }

  /** tls_payload_app_data, without the deliberate tampering. */
  method BuildRecord(seqNo: u32, plain: seq<byte>, key: seq<byte>, out: array<byte>) returns (r: int, outLen: nat)
    requires out.Length == MAX_PAYLOAD
    modifies out
    ensures r == 0 || r == -1
    ensures r == 0 <==> |plain| + OVERHEAD <= MAX_PAYLOAD
    ensures r == 0 ==> outLen == OVERHEAD + |plain| && out[..outLen] == Record(seqNo, plain, key)
    ensures r == -1 ==> out[..] == old(out[..])
  {
    hide AppMac, Crypt, PutU32;
    if |plain| + 4 + DIGEST > MAX_PAYLOAD {
      return -1, 0;
    }
    CopyInto(out, 0, PutU32(seqNo));
    assert out[..4] == PutU32(seqNo);
    CopyInto(out, OVERHEAD, plain);
    XorCrypt(out, OVERHEAD, |plain|, key);
    outLen := OVERHEAD + |plain|;
    var mac := ComputeAppMac(seqNo, out[OVERHEAD..outLen], key);
    ghost var was := out[..];
    assert was[..4] == PutU32(seqNo) && was[OVERHEAD..outLen] == Crypt(plain, key);
    CopyInto(out, 4, mac);
    FieldsOf(was, out[..], outLen);
    r := 0;
  }

  /** Overwriting the MAC field leaves the fields around it. */
  lemma FieldsOf(s: seq<byte>, t: seq<byte>, end: nat)
    requires OVERHEAD <= end <= |s| == |t| && t[..4] == s[..4] && t[OVERHEAD..] == s[OVERHEAD..]
    ensures t[..end] == s[..4] + t[4..OVERHEAD] + s[OVERHEAD..end]
  {
    assert t[OVERHEAD..end] == t[OVERHEAD..][..end - OVERHEAD];
    assert s[OVERHEAD..end] == s[OVERHEAD..][..end - OVERHEAD];
  }

  /** The receiving side: the last sequence number taken and the bytes written. */
  datatype Reader = Reader(seen: u32, out: seq<byte>)

  const START := Reader(0, [])

  /** verify_tls_app_data: the replay test comes before the MAC test; a record that fails either ends the transfer. */
  function Accept(c: Reader, payload: seq<byte>, key: seq<byte>): Option<Reader> {
    if |payload| < OVERHEAD then None
    else
      var seqNo, mac, cipher := GetU32(payload), payload[4..OVERHEAD], payload[OVERHEAD..];
      if seqNo <= c.seen then None
      else if mac != AppMac(seqNo, cipher, key) then None
      else Some(Reader(seqNo, c.out + Crypt(cipher, key)))
  }

  /** A genuine record is taken when its sequence number is larger, and gives up its plain text. */
  lemma GenuineRecord(c: Reader, seqNo: u32, plain: seq<byte>, key: seq<byte>)
    ensures Accept(c, Record(seqNo, plain, key), key) ==
      if seqNo > c.seen then Some(Reader(seqNo, c.out + plain)) else None
  {
    hide AppMac, Crypt, PutU32, GetU32;
    var payload, cipher := Record(seqNo, plain, key), Crypt(plain, key);
    PutGetU32(seqNo, AppMac(seqNo, cipher, key) + cipher);
    assert payload == PutU32(seqNo) + (AppMac(seqNo, cipher, key) + cipher);
    assert payload[4..OVERHEAD] == AppMac(seqNo, cipher, key) && payload[OVERHEAD..] == cipher;
    CryptTwice(plain, key);
  }

  /** Nothing but genuine records with a larger sequence number is taken. */
  lemma AcceptedIsRecord(c: Reader, payload: seq<byte>, key: seq<byte>)
    requires Accept(c, payload, key).Some?
    ensures var next := Accept(c, payload, key).value;
      next.seen > c.seen && |payload| >= OVERHEAD && payload == Record(next.seen, Crypt(payload[OVERHEAD..], key), key)
  {
    hide AppMac, Crypt, PutU32, GetU32;
    var seqNo, cipher := GetU32(payload), payload[OVERHEAD..];
    CryptTwice(cipher, key);
    AcceptTests(c, payload, key);
    GetPutU32(payload);
    assert payload == payload[..4] + payload[4..OVERHEAD] + payload[OVERHEAD..];
  }

  lemma AcceptTests(c: Reader, payload: seq<byte>, key: seq<byte>)
    requires Accept(c, payload, key).Some?
    ensures |payload| >= OVERHEAD && Accept(c, payload, key).value.seen == GetU32(payload) > c.seen
    ensures payload[4..OVERHEAD] == AppMac(GetU32(payload), payload[OVERHEAD..], key)
  {
    hide AppMac, Crypt, GetU32;
  }

  /** So a payload is taken exactly when it is such a record of some plain text. */
  lemma AcceptsExactlyRecords(c: Reader, payload: seq<byte>, key: seq<byte>)
    ensures Accept(c, payload, key).Some? <==>
      exists seqNo: u32, plain: seq<byte> :: seqNo > c.seen && payload == Record(seqNo, plain, key)
  {
    hide Record, Accept;
    if Accept(c, payload, key).Some? {
      AcceptedIsRecord(c, payload, key);
    }
    forall seqNo: u32, plain: seq<byte> | seqNo > c.seen && payload == Record(seqNo, plain, key)
      ensures Accept(c, payload, key).Some?
    {
      GenuineRecord(c, seqNo, plain, key);
    }
  }

  /** verify_tls_app_data, decrypting in place. */
  method VerifyAppData(c: Reader, payload: array<byte>, length: nat, key: seq<byte>) returns (ok: bool, next: Reader)
    requires length <= payload.Length
    modifies payload
    ensures ok <==> Accept(c, old(payload[..length]), key).Some?
    ensures ok ==> Accept(c, old(payload[..length]), key) == Some(next)
    ensures ok ==> length >= OVERHEAD && next.out == c.out + payload[OVERHEAD..length]
    ensures ok ==> payload[OVERHEAD..length] == Crypt(old(payload[OVERHEAD..length]), key)
    ensures ok ==> payload[..OVERHEAD] == old(payload[..OVERHEAD]) && payload[length..] == old(payload[length..])
    ensures !ok ==> next == c && payload[..] == old(payload[..])
  {
    hide AppMac, Crypt, GetU32;
    next := c;
    if length < OVERHEAD {
      return false, c;
    }
    ghost var was := payload[..length];
    var seqNo := GetU32(payload[..length]);
    var cipherLen := length - OVERHEAD;
    var mac := payload[4..OVERHEAD];
    assert payload[OVERHEAD..OVERHEAD + cipherLen] == was[OVERHEAD..];
    assert payload[4..OVERHEAD] == was[4..OVERHEAD];
    var expected := ComputeAppMac(seqNo, payload[OVERHEAD..OVERHEAD + cipherLen], key);
    if seqNo <= c.seen {
      return false, c;
    }
    if mac != expected {
      return false, c;
    }
    XorCrypt(payload, OVERHEAD, cipherLen, key);
    next := Reader(seqNo, c.out + payload[OVERHEAD..OVERHEAD + cipherLen]);
    ok := true;
  }

  // ---- A transfer ----

  /** The sequence number of a file's i-th record, a uint32_t counted from one. */
  function SeqNo(i: nat): u32 {
    (i + 1) % U32
  }

  /** Every APP_DATA payload of a transfer, in order. */
  function Records(file: seq<byte>, key: seq<byte>): (rs: seq<seq<byte>>)
    ensures |rs| == ChunkCount(file)
  {
    seq(ChunkCount(file), i requires 0 <= i < ChunkCount(file) => Record(SeqNo(i), ChunkAt(file, i), key))
  }

  lemma SeqNoSteps(i: nat)
    ensures (SeqNo(i) + 1) % U32 == SeqNo(i + 1)
  {
    var q, r := (i + 1) / U32, (i + 1) % U32;
    if r + 1 < U32 {
      DivModOf(U32, q, r + 1);
    } else {
      DivModOf(U32, q + 1, 0);
    }
  }

  /** The APP_DATA send loop of run_tls_like. */
  method SendAppData(file: seq<byte>, key: seq<byte>) returns (sent: seq<seq<byte>>)
    ensures sent == Records(file, key)
  {
    hide Record, SeqNo;
    sent := [];
    var pos, seqNo: u32 := 0, 1;
    ghost var n := 0;
    FirstSeqNo();
    while pos < |file|
      invariant pos == Min(Packets.DATA_CHUNK_SIZE * n, |file|) && n <= ChunkCount(file) && seqNo == SeqNo(n)
      invariant sent == Records(file, key)[..n]
      decreases |file| - pos
    {
      var data := file[pos..Min(pos + Packets.DATA_CHUNK_SIZE, |file|)];
      assert data == ChunkAt(file, n);
      var payload := new byte[MAX_PAYLOAD];
      var r, length := BuildRecord(seqNo, data, key, payload);
      assert Records(file, key)[..n + 1] == Records(file, key)[..n] + [Records(file, key)[n]];
      sent := sent + [payload[..length]];
      SeqNoSteps(n);
      seqNo := (seqNo + 1) % U32;
      pos := pos + |data|;
      n := n + 1;
    }
    assert Records(file, key)[..n] == Records(file, key);
  }

  lemma FirstSeqNo()
    ensures SeqNo(0) == 1
  {
  }

  /** The receive loop on a list of APP_DATA payloads: it stops at the first one refused. */
  function Receive(c: Reader, payloads: seq<seq<byte>>, key: seq<byte>): Reader
    decreases |payloads|
  {
    if payloads == [] then c
    else
      match Accept(c, payloads[0], key)
      case None => c
      case Some(next) => Receive(next, payloads[1..], key)
  }

  lemma ReceiveStep(c: Reader, payloads: seq<seq<byte>>, key: seq<byte>, k: nat)
    requires k < |payloads|
    ensures Receive(c, payloads[k..], key) ==
      match Accept(c, payloads[k], key) case None => c case Some(next) => Receive(next, payloads[k + 1..], key)
  {
    assert payloads[k..][1..] == payloads[k + 1..];
  }

  method ReceiveAppData(payloads: seq<seq<byte>>, key: seq<byte>) returns (c: Reader)
    requires forall p :: p in payloads ==> |p| <= MAX_PAYLOAD
    ensures c == Receive(START, payloads, key)
  {
    hide Accept, Receive;
    c := START;
    assert payloads[0..] == payloads;
    for k := 0 to |payloads|
      invariant Receive(START, payloads, key) == Receive(c, payloads[k..], key)
    {
      ReceiveStep(c, payloads, key, k);
      var frame := new byte[MAX_PAYLOAD];
      CopyInto(frame, 0, payloads[k]);
      assert frame[..|payloads[k]|] == payloads[k];
      var ok, next := VerifyAppData(c, frame, |payloads[k]|, key);
      if !ok {
        return;
      }
      c := next;
    }
    ReceiveNothing(c, payloads[|payloads|..], key);
  }

  lemma ReceiveNothing(c: Reader, payloads: seq<seq<byte>>, key: seq<byte>)
    requires payloads == []
    ensures Receive(c, payloads, key) == c
  {
  }

  // ---- Deliveries of genuine records ----

  /** How many leading records have strictly increasing sequence numbers above last. */
  function Rising(order: seq<nat>, last: u32): (n: nat)
    ensures n <= |order|
    decreases |order|
  {
    if order == [] || SeqNo(order[0]) <= last then 0 else 1 + Rising(order[1..], SeqNo(order[0]))
  }

  function SeqBefore(order: seq<nat>, last: u32, k: nat): u32
    requires k <= |order|
  {
    if k == 0 then last else SeqNo(order[k - 1])
  }

  /** Rising measures the longest such prefix. */
  lemma {:induction false} RisingIsLongest(order: seq<nat>, last: u32)
    ensures forall k :: 0 <= k < Rising(order, last) ==> SeqBefore(order, last, k) < SeqNo(order[k])
    ensures Rising(order, last) < |order| ==>
      SeqNo(order[Rising(order, last)]) <= SeqBefore(order, last, Rising(order, last))
    decreases |order|
  {
    hide SeqNo;
    if order != [] && SeqNo(order[0]) > last {
      RisingIsLongest(order[1..], SeqNo(order[0]));
      forall k | 0 <= k < Rising(order, last)
        ensures SeqBefore(order, last, k) < SeqNo(order[k])
      {
        if k > 0 {
          assert SeqBefore(order[1..], SeqNo(order[0]), k - 1) < SeqNo(order[1..][k - 1]);
        }
      }
    }
  }

  predicate Genuine(file: seq<byte>, order: seq<nat>) {
    forall k :: 0 <= k < |order| ==> order[k] < ChunkCount(file)
  }

  function Delivered(file: seq<byte>, key: seq<byte>, order: seq<nat>): (ps: seq<seq<byte>>)
    requires Genuine(file, order)
    ensures |ps| == |order|
  {
    seq(|order|, k requires 0 <= k < |order| => Records(file, key)[order[k]])
  }

  lemma DeliveredIsRecord(file: seq<byte>, key: seq<byte>, order: seq<nat>, k: nat)
    requires Genuine(file, order) && k < |order|
    ensures Delivered(file, key, order)[k] == Record(SeqNo(order[k]), ChunkAt(file, order[k]), key)
  {
    var i := order[k];
    assert Records(file, key)[i] == Record(SeqNo(i), ChunkAt(file, i), key);
  }

  function Plain(file: seq<byte>, order: seq<nat>): (cs: seq<seq<byte>>)
    requires Genuine(file, order)
    ensures |cs| == |order|
  {
    seq(|order|, k requires 0 <= k < |order| => ChunkAt(file, order[k]))
  }

  /**
   * Whatever genuine records arrive, repeated and reordered at will, the output is the plain text of
   * the longest prefix whose sequence numbers strictly increase.
   */
  lemma {:induction false} WritesRisingPrefix(file: seq<byte>, key: seq<byte>, order: seq<nat>, c: Reader)
    requires Genuine(file, order)
    ensures Receive(c, Delivered(file, key, order), key).out ==
      c.out + Flatten(Plain(file, order)[..Rising(order, c.seen)])
    decreases |order|
  {
    hide Accept, SeqNo, Record, ChunkAt, ChunkCount, Flatten;
    NoChunks();
    if order != [] {
      var i, ps := order[0], Delivered(file, key, order);
      DeliveredIsRecord(file, key, order, 0);
      GenuineRecord(c, SeqNo(i), ChunkAt(file, i), key);
      if SeqNo(i) > c.seen {
        var next := Reader(SeqNo(i), c.out + ChunkAt(file, i));
        var n := Rising(order[1..], SeqNo(i));
        WritesRisingPrefix(file, key, order[1..], next);
        assert Rising(order, c.seen) == n + 1;
        assert ps[1..] == Delivered(file, key, order[1..]);
        assert Plain(file, order)[..n + 1] == [ChunkAt(file, i)] + Plain(file, order[1..])[..n];
        FlattenAppend([ChunkAt(file, i)], Plain(file, order[1..])[..n]);
        FlattenOne(ChunkAt(file, i));
        ConcatAssoc(c.out, ChunkAt(file, i), Flatten(Plain(file, order[1..])[..n]));
      }
    }
  }

  lemma NoChunks()
    ensures Flatten<byte>([]) == []
  {
  }

  lemma FlattenOne(c: seq<byte>)
    ensures Flatten([c]) == c
  {
    assert [c][..0] == [];
  }

  function Everything(n: nat): (order: seq<nat>)
    ensures |order| == n && forall k :: 0 <= k < n ==> order[k] == k
  {
    seq(n, k => k)
  }

  lemma {:induction false} RisingFrom(n: nat, i: nat)
    requires i <= n && i < U32
    ensures Rising(Everything(n)[i..], i) == Min(n, U32 - 1) - i
    decreases n - i
  {
    if i < n && i < U32 - 1 {
      RisingFrom(n, i + 1);
      assert Everything(n)[i..][1..] == Everything(n)[i + 1..];
    } else if i < n && i == U32 - 1 {
      assert SeqNo(i) == 0;
    }
  }

  /** In-order delivery without repeats writes the whole file exactly when it has fewer than 2^32 chunks. */
  lemma InOrderWritesFileIff(file: seq<byte>, key: seq<byte>)
    ensures Genuine(file, Everything(ChunkCount(file)))
    ensures Receive(START, Delivered(file, key, Everything(ChunkCount(file))), key).out == file <==>
      ChunkCount(file) < U32
  {
    hide Receive, Flatten;
    var n := ChunkCount(file);
    var order := Everything(n);
    RisingFrom(n, 0);
    assert order[0..] == order;
    var m := Min(n, U32 - 1);
    WritesRisingPrefix(file, key, order, START);
    assert Plain(file, order) == Chunks(file);
    ChunkPrefix(file, m);
    assert [] + Flatten(Chunks(file)[..m]) == Flatten(Chunks(file)[..m]);
  }
}
