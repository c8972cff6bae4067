/** The wire shapes the session rests on: request frames (`proto/frames.py`), response
    headers, and the bodies the machine itself decodes (`proto/responses.py`). */
module Frames {
  import opened Octets

  type u16 = x: nat | x < 0x1_0000

  const REQUEST_HDRLEN := 24
  const RESPONSE_HDRLEN := 8
  const MAX_FRAME_PAYLOAD := 0x7FFF_FFFF
  const MAX_RESPONSE_BODY := 0x4000_0000

  // Response statuses.
  const KXR_OK := 0
  const KXR_OKSOFAR := 4000
  const KXR_ATTN := 4001
  const KXR_AUTHMORE := 4002
  const KXR_ERROR := 4003
  const KXR_REDIRECT := 4004
  const KXR_WAIT := 4005
  const KXR_WAITRESP := 4006
  const KXR_STATUS := 4007
  const KXR_ASYNRESP := 5008

  // Request opcodes the machine sends itself.
  const KXR_AUTH: u16 := 3000
  const KXR_PROTOCOL: u16 := 3006
  const KXR_ENDSESS: u16 := 3023
  const KXR_BIND: u16 := 3024
  const KXR_SIGVER: u16 := 3029
  const KXR_1ST_REQUEST := 3000

  // ----- big-endian integers -----

  function U16(b: bytes, at: nat): (r: u16)
    requires at + 2 <= |b|
  {
    256 * b[at] as nat + b[at + 1] as nat
  }

  function U32(b: bytes, at: nat): (r: nat)
    requires at + 4 <= |b|
    ensures r < 0x1_0000_0000
  {
    0x1_0000 * U16(b, at) + U16(b, at + 2)
  }

  function I32(b: bytes, at: nat): (r: int)
    requires at + 4 <= |b|
    ensures -0x8000_0000 <= r < 0x8000_0000
  {
    if U32(b, at) < 0x8000_0000 then U32(b, at) else U32(b, at) - 0x1_0000_0000
  }

  /** NUL-padded or truncated to exactly `width` bytes. */
  function Padded(b: bytes, width: nat): (r: bytes)
    ensures |r| == width
  {
    if |b| >= width then b[..width] else b + Zeros(width - |b|)
  }

  // ----- requests -----

  /** What `encode` asks of a request: its opcode, the sixteen parameter bytes, the payload
      sent behind the header, the bytes that travel on the data path instead, and the
      trailer that `dlen` does not count. */
  datatype Request = Request(
    opcode: u16, params: bytes, payload: bytes, pathData: bytes, trailer: bytes, pathid: nat)

  predicate Encodable(r: Request) {
    |r.params| == 16 && |r.payload| + |r.pathData| <= MAX_FRAME_PAYLOAD
  }

  /** Streamid, opcode, parameters and declared length. */
  function HeaderOf(r: Request, streamid: nat): bytes {
    Big(streamid % 0x1_0000, 2) + Big(r.opcode, 2) + r.params + Big(|r.payload| + |r.pathData|, 4)
  }

  /** The frame: header, payload, trailer. */
  function FrameOf(r: Request, streamid: nat): bytes { HeaderOf(r, streamid) + r.payload + r.trailer }

  function Bare(opcode: u16, params: bytes, payload: bytes): Request {
    Request(opcode, params, payload, [], [], 0)
  }

  const HANDSHAKE: bytes := Zeros(12) + Big(4, 4) + Big(2012, 4)

  function ProtocolRequest(wantTls: bool): Request {
    Bare(KXR_PROTOCOL, Big(0x520, 4) + [if wantTls then 7 else 3] + [3] + Zeros(10), [])
  }

  function BindRequest(sessid: bytes): Request { Bare(KXR_BIND, Padded(sessid, 16), []) }

  function EndSessionRequest(sessid: bytes): Request { Bare(KXR_ENDSESS, Padded(sessid, 16), []) }

  function AuthRequest(mechanism: bytes, blob: bytes): Request {
    Bare(KXR_AUTH, Zeros(12) + Padded(mechanism, 4), blob)
  }

  function SigverRequest(opcode: u16, seqno: nat, mac: bytes): Request {
    Bare(KXR_SIGVER, Big(opcode, 2) + [0] + [0] + Big(seqno, 8) + [1] + Zeros(3), mac)
  }

  // ----- response headers -----

  datatype Header = Header(streamid: nat, status: nat, dlen: nat)

  /** None where a header declares more than the client will buffer. */
  function DecodeHeader(b: bytes): (r: Option<Header>)
    requires |b| == RESPONSE_HDRLEN
    ensures r.Some? ==> r.value.dlen <= MAX_RESPONSE_BODY
  {
    if U32(b, 4) > MAX_RESPONSE_BODY then None else Some(Header(U16(b, 0), U16(b, 2), U32(b, 4)))
  }

  // ----- response bodies; None where the source's Reader raises -----

  datatype Status = Status(crc: nat, streamid: nat, requestid: nat, resptype: nat, dlen: int, info: bytes)

  predicate IsFinal(s: Status) { s.resptype == 0 }

  function ParseStatus(b: bytes): Option<Status> {
    if |b| < 16 then None
    else Some(Status(U32(b, 0), U16(b, 4), b[6] as nat + KXR_1ST_REQUEST, b[7] as nat, I32(b, 12), b[16..]))
  }

  datatype ProtocolInfo = ProtocolInfo(version: int, flags: nat, level: nat, overrides: map<nat, nat>)

  const NO_INFO := ProtocolInfo(0, 0, 0, map[])

  /** The security record inside a kXR_protocol trailer: at its start, or behind a vendor
      header of method entries. */
  function SecurityRecord(trailer: bytes): (r: Option<bytes>)
    ensures r.Some? ==> |r.value| >= 6
  {
    if |trailer| >= 6 && trailer[0] == 0x53 then Some(trailer)
    else if |trailer| >= 4 then
      var off := 4 + trailer[2] as nat * 8;
      if |trailer| >= off + 6 && trailer[off] == 0x53 then Some(trailer[off..]) else None
    else None
  }

  function Overrides(record: bytes, at: nat, count: nat, so: map<nat, nat>): map<nat, nat>
    decreases count
  {
    if count == 0 || at + 2 > |record| then so
    else Overrides(record, at + 2, count - 1, so[record[at] as nat + KXR_1ST_REQUEST := record[at + 1] as nat])
  }

  function ParseProtocol(b: bytes): Option<ProtocolInfo> {
    if |b| < 8 then None
    else
      match SecurityRecord(b[8..])
      case None => Some(ProtocolInfo(I32(b, 0), U32(b, 4), 0, map[]))
      case Some(record) =>
        Some(ProtocolInfo(I32(b, 0), U32(b, 4), record[4] as nat, Overrides(record, 6, record[5] as nat, map[])))
  }

  function HasBit(flags: nat, weight: nat): bool
    requires weight > 0
  {
    flags / weight % 2 == 1
  }

  predicate HasTls(i: ProtocolInfo) { HasBit(i.flags, 0x8000_0000) }

  /** gotoTLS, tlsLogin, tlsSess or tlsData: the server wants this socket encrypted. */
  predicate DemandsTls(i: ProtocolInfo) {
    HasBit(i.flags, 0x4000_0000) || HasBit(i.flags, 0x0400_0000) || HasBit(i.flags, 0x0800_0000)
      || HasBit(i.flags, 0x0100_0000)
  }

  /** Bytes up to the first NUL. */
  function UntilNul(b: bytes): bytes {
    if b == [] || b[0] == 0 then [] else [b[0]] + UntilNul(b[1..])
  }

  // ----- signing (`crypto/sigver.py`) -----

  const SIGNED_OPCODES: set<nat> :=
    {3002, 3020, 3008, 3009, 3010, 3026, 3021, 3014, 3015, 3018, 3028, 3019, 3031, 3012, 3032}

  predicate IsSigned(opcode: nat, level: nat, overrides: map<nat, nat>) {
    if opcode in overrides then overrides[opcode] != 0
    else if level <= 1 then false
    else if level == 3 then opcode in SIGNED_OPCODES || opcode in {3003, 3004, 3027, 3017}
    else if level == 4 then 3000 <= opcode <= 3032
    else opcode in SIGNED_OPCODES
  }

  datatype Signer = Signer(key: bytes, level: nat, overrides: map<nat, nat>, seqno: nat)

  predicate Covers(s: Signer, opcode: nat) { s.key != [] && IsSigned(opcode, s.level, s.overrides) }

  /** The HMAC of key and message. */
  type Hmac = (bytes, bytes) -> bytes

  /** What a signature covers: the sequence number, the frame's header, and exactly the bytes
      its declared length counts. */
  function SignedRegion(frame: bytes, seqno: nat): bytes
    requires |frame| >= REQUEST_HDRLEN
  {
    Big(seqno, 8) + frame[..REQUEST_HDRLEN] + Slice(frame, REQUEST_HDRLEN, REQUEST_HDRLEN + U32(frame, 20))
  }

  /** The sigver frame for a request's frame, if its opcode is covered. */
  function Signature(s: Signer, hmac: Hmac, r: Request, streamid: nat): (o: Option<bytes>)
    requires Encodable(r)
    ensures o.Some? <==> Covers(s, r.opcode)
  {
    FrameShape(r, streamid);
    var frame := FrameOf(r, streamid);
    if !Covers(s, U16(frame, 2)) then None
    else Some(FrameOf(SigverRequest(r.opcode, s.seqno + 1, hmac(s.key, SignedRegion(frame, s.seqno + 1))), streamid))
  }

  lemma {:induction false} BigAppend(n: nat, width: nat)
    requires n < 0x1_0000 && width == 2
    ensures Big(n, width) == [(n / 256) as byte, (n % 256) as byte]
  {
    assert Big(n / 256, 1) == Big(n / 256 / 256, 0) + [(n / 256 % 256) as byte];
  }

  lemma Big4Is(n: nat)
    requires n < 0x1_0000_0000
    ensures U32(Big(n, 4), 0) == n
  {
    var b := Big(n, 4);
    var hi, lo := n / 0x1_0000, n % 0x1_0000;
    assert Big(n, 4) == Big(n / 256, 3) + [(n % 256) as byte];
    assert Big(n / 256, 3) == Big(n / 256 / 256, 2) + [(n / 256 % 256) as byte];
    assert n / 256 / 256 == hi;
    BigAppend(hi, 2);
    assert b[0] as nat == hi / 256 && b[1] as nat == hi % 256;
    assert b[2] as nat == n / 256 % 256 && b[3] as nat == n % 256;
  }

  /** A frame carries its stream, opcode, parameters and declared length where the server and
      the signer look for them, and then payload and trailer. */
  lemma FrameShape(r: Request, streamid: nat)
    requires Encodable(r)
    ensures |FrameOf(r, streamid)| >= REQUEST_HDRLEN
    ensures FrameOf(r, streamid)[4..20] == r.params && FrameOf(r, streamid)[24..] == r.payload + r.trailer
    ensures U16(FrameOf(r, streamid), 2) == r.opcode
    ensures U32(FrameOf(r, streamid), 20) == |r.payload| + |r.pathData|
    ensures U16(FrameOf(r, streamid), 0) == streamid % 0x1_0000
  {
    var f := FrameOf(r, streamid);
    var dlen := |r.payload| + |r.pathData|;
    BigAppend(streamid % 0x1_0000, 2);
    BigAppend(r.opcode, 2);
    Big4Is(dlen);
    FrameParts(r, streamid);
    hide FrameOf, Big;
    assert f[0] == f[0..2][0] && f[1] == f[0..2][1] && f[2] == f[2..4][0] && f[3] == f[2..4][1];
    assert U32(f, 20) == U32(f[20..24], 0);
  }

  lemma FrameParts(r: Request, streamid: nat)
    requires Encodable(r)
    ensures var f := FrameOf(r, streamid);
            && |f| >= REQUEST_HDRLEN && f[0..2] == Big(streamid % 0x1_0000, 2) && f[2..4] == Big(r.opcode, 2)
            && f[4..20] == r.params && f[20..24] == Big(|r.payload| + |r.pathData|, 4)
            && f[24..] == r.payload + r.trailer
  {
    hide Big;
  }

  /** A signature covers its number, the header, and as many bytes of payload and trailer as
      the declared length counts, the path data's included: the payload and never the trailer
      exactly when the request has no path data or no trailer. */
  lemma SignsPayloadIff(r: Request, streamid: nat, seqno: nat)
    requires Encodable(r)
    ensures |FrameOf(r, streamid)| >= REQUEST_HDRLEN
    ensures SignedRegion(FrameOf(r, streamid), seqno) ==
            Big(seqno, 8) + HeaderOf(r, streamid) + Slice(r.payload + r.trailer, 0, |r.payload| + |r.pathData|)
    ensures SignedRegion(FrameOf(r, streamid), seqno) == Big(seqno, 8) + HeaderOf(r, streamid) + r.payload
            <==> r.pathData == [] || r.trailer == []
  {
    FrameShape(r, streamid);
    assert |HeaderOf(r, streamid)| == 24;
    hide HeaderOf;
    var f, head, body := FrameOf(r, streamid), HeaderOf(r, streamid), r.payload + r.trailer;
    var dlen := |r.payload| + |r.pathData|;
    assert f == head + body;
    assert f[..24] == head;
    SliceBehind(head, body, dlen);
    var covered := Slice(body, 0, dlen);
    var front := Big(seqno, 8) + head;
    assert SignedRegion(f, seqno) == front + covered;
    FrontSame(front, covered, r.payload);
    SliceFront(r.payload, r.trailer, |r.pathData|);
  }

  lemma SliceBehind(head: bytes, body: bytes, n: nat)
    ensures Slice(head + body, |head|, |head| + n) == Slice(body, 0, n)
  {
  }

  lemma FrontSame(front: bytes, a: bytes, b: bytes)
    ensures front + a == front + b <==> a == b
  {
    assert (front + a)[|front|..] == a && (front + b)[|front|..] == b;
  }

  lemma SliceFront(a: bytes, b: bytes, more: nat)
    ensures Slice(a + b, 0, |a| + more) == a <==> more == 0 || b == []
  {
    var s := Slice(a + b, 0, |a| + more);
    if more == 0 || b == [] {
      assert s == a;
    } else {
      assert |s| > |a|;
    }
  }

  /** What is signed at which level, where no override says otherwise: nothing up to level 1;
      at level 2 every request but those that only look, connect or end; at level 3 closing,
      listing, locating and asking for status too; at level 4 all. An override of zero exempts
      a request and any other includes it. */
  lemma WhatIsSigned(opcode: nat, level: nat, overrides: map<nat, nat>)
    requires 3000 <= opcode <= 3032
    ensures opcode in overrides ==> (IsSigned(opcode, level, overrides) <==> overrides[opcode] != 0)
    ensures opcode !in overrides && level <= 1 ==> !IsSigned(opcode, level, overrides)
    ensures opcode !in overrides && level == 2 ==>
              (IsSigned(opcode, level, overrides) <==>
               opcode !in {3000, 3001, 3003, 3004, 3005, 3006, 3007, 3011, 3013, 3016, 3017, 3022, 3023, 3024, 3025,
                 3027, 3029, 3030})
    ensures opcode !in overrides && level == 3 ==>
              (IsSigned(opcode, level, overrides) <==>
               opcode !in {3000, 3001, 3005, 3006, 3007, 3011, 3013, 3016, 3022, 3023, 3024, 3025, 3029, 3030})
    ensures opcode !in overrides && level == 4 ==> IsSigned(opcode, level, overrides)
    ensures opcode !in overrides && level > 4 ==> IsSigned(opcode, level, overrides) == IsSigned(opcode, 2, overrides)
  {
  }

  /** The machine's own requests, part by part behind their headers. */
  lemma OwnRequests(session: bytes, mechanism: bytes, blob: bytes, opcode: u16, seqno: nat, mac: bytes)
    ensures BindRequest(session).opcode == 3024 && EndSessionRequest(session).opcode == 3023
    ensures |session| == 16 ==> BindRequest(session).params == session && EndSessionRequest(session).params == session
    ensures BindRequest(session).payload == [] && EndSessionRequest(session).payload == []
    ensures AuthRequest(mechanism, blob).opcode == 3000 && AuthRequest(mechanism, blob).payload == blob
    ensures |mechanism| <= 4 ==> AuthRequest(mechanism, blob).params == Zeros(12) + mechanism + Zeros(4 - |mechanism|)
    ensures var r := SigverRequest(opcode, seqno, mac);
            && r.opcode == 3029 && r.payload == mac && |r.params| == 16 && U16(r.params, 0) == opcode
            && r.params[2..4] == [0, 0] && r.params[4..12] == Big(seqno, 8) && r.params[12..] == [1, 0, 0, 0]
  {
    BigAppend(opcode, 2);
    var r := SigverRequest(opcode, seqno, mac);
    assert Zeros(3) == [0, 0, 0];
    assert r.params == Big(opcode, 2) + [0, 0] + Big(seqno, 8) + [1, 0, 0, 0];
  }
}
