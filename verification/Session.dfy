/** The session state machine of `proto/machine.py` on values: everything one connection
    knows, and what each call and each frame does to it. */
module Session {
  import opened Octets
  import opened Frames

  const FIRST_SID := 4
  const LAST_SID := 0xFFFF
  const SID_PROTOCOL := 1
  const SID_LOGIN := 2
  const SID_BIND := 2
  const SID_AUTH := 3

  datatype Phase = New | Handshake | Protocol | Tls | Login | Auth | Ready | Failed | Closed | Bind

  /** A failure, as far as the machine tells them apart; a server's error body stays raw. */
  datatype Reason =
    | ServerSaid(body: bytes)
    | UnexpectedStatus(status: nat)
    | TlsUnavailable
    | NoMechanism
    | NoExchangeOpen
    | PeerClosed
    | PathClosed(pathid: nat)

  datatype Event =
    | Negotiated(info: ProtocolInfo)
    | NeedTls(demanded: bool)
    | NowReady(sessionId: bytes, mechanism: bytes)
    | Completed(sid: nat, request: Request, data: bytes, status: Option<Status>)
    | Chunk(sid: nat, request: Request, data: bytes)
    | Redirected(sid: nat, request: Request, port: int, target: bytes)
    | Waiting(sid: nat, request: Request, seconds: int, resend: bool)
    | Attention(action: int, params: bytes)
    | StreamFailed(sid: nat, request: Request, why: Reason)
    | BringUpFailed(why: Reason)
    | PathLost(pathid: nat)
    | Disconnected(byPeer: bool)

  /** Exceptions the machine raises into its driver. */
  datatype Raise = WrongPhase | NotWaiting | Exhausted | NotEncodable | Malformed

  type Blob = b: bytes | |b| <= MAX_FRAME_PAYLOAD

  /** One authentication mechanism: its wire name, its first blob (None where making it
      raises), its answers to the challenges of this exchange in turn (None where it has
      none), and the signing key it establishes (empty for none). */
  datatype Credential = Credential(name: bytes, initial: Option<Blob>, answers: seq<Option<Blob>>, key: bytes)

  datatype Config = Config(wantTls: bool, bindTo: bytes, login: Request, waitCap: int)

  datatype Pending = Pending(
    request: Request, frame: bytes, buffer: bytes, status: Option<Status>, pathid: nat, pathBytes: bytes)

  /** One link's inbound cursor. */
  datatype Framer = Framer(buffer: bytes, header: Option<Header>, needTrailer: int, trailerFor: Option<nat>)

  const FRESH_FRAMER := Framer([], None, 0, None)

  /** All of the machine but its framers. `order` is the insertion order of `pending`. */
  datatype Core = Core(
    cfg: Config, phase: Phase, info: ProtocolInfo, sessionId: bytes, mechanism: bytes,
    signer: Option<Signer>, tlsActive: bool, boundPath: nat,
    out: bytes, outPath: map<nat, bytes>, events: seq<Event>,
    pending: map<nat, Pending>, order: seq<nat>, free: seq<nat>, nextSid: nat,
    ladder: seq<Credential>, credential: Option<Credential>)

  datatype Machine = Machine(core: Core, framers: map<nat, Framer>)

  function Initial(cfg: Config, ladder: seq<Credential>): Machine {
    Machine(Core(cfg, New, NO_INFO, [], [], None, false, 0, [], map[], [], map[], [], [], FIRST_SID, ladder, None),
            map[0 := FRESH_FRAMER])
  }

  // ----- small moves -----

  function Emit(c: Core, e: Event): Core { c.(events := c.events + [e]) }

  function Queue(c: Core, b: bytes): Core { c.(out := c.out + b) }

  function QueuePath(c: Core, pathid: nat, b: bytes): Core {
    c.(outPath := c.outPath[pathid := (if pathid in c.outPath then c.outPath[pathid] else []) + b])
  }

  function Fail(c: Core, why: Reason): Core { Emit(c.(phase := Failed), BringUpFailed(why)) }

  function Without(order: seq<nat>, sid: nat): seq<nat> {
    if order == [] then [] else if order[0] == sid then Without(order[1..], sid)
      else [order[0]] + Without(order[1..], sid)
  }

  /** Abandons a stream: its id goes back to the free list. */
  function Release(c: Core, sid: nat): Core {
    if sid !in c.pending then c
    else
      var gone := c.(pending := c.pending - {sid}, order := Without(c.order, sid));
      if sid >= FIRST_SID then gone.(free := c.free + [sid]) else gone
  }

  // ----- sending -----

  /** The id popped off the free list, or the next one in the cycle; an id still in flight
      means the space is exhausted. */
  function Acquire(c: Core): (Core, Result<nat, Raise>) {
    if c.free != [] then (c.(free := c.free[..|c.free| - 1]), Ok(c.free[|c.free| - 1]))
    else
      var next := c.(nextSid := if c.nextSid + 1 > LAST_SID then FIRST_SID else c.nextSid + 1);
      if c.nextSid in c.pending then (next, Err(Exhausted)) else (next, Ok(c.nextSid))
  }

  /** The bytes of a request on the wire: its own sigver frame first when it is covered. */
  function Signed(c: Core, hmac: Hmac, r: Request, sid: nat): bytes
    requires Encodable(r)
  {
    if c.signer == None then FrameOf(r, sid)
    else
      match Signature(c.signer.value, hmac, r, sid)
      case None => FrameOf(r, sid)
      case Some(sigver) => sigver + FrameOf(r, sid)
  }

  lemma SignedCases(c: Core, hmac: Hmac, r: Request, sid: nat)
    requires Encodable(r)
    ensures Signed(c, hmac, r, sid) ==
            if c.signer == None then FrameOf(r, sid)
            else
              match Signature(c.signer.value, hmac, r, sid)
              case None => FrameOf(r, sid)
              case Some(sigver) => sigver + FrameOf(r, sid)
  {
    hide FrameOf, Signature, Encodable;
  }

  lemma SignatureOf(s: Signer, hmac: Hmac, r: Request, sid: nat)
    requires Encodable(r) && |FrameOf(r, sid)| >= REQUEST_HDRLEN && U16(FrameOf(r, sid), 2) == r.opcode
    ensures Signature(s, hmac, r, sid) ==
            if !Covers(s, r.opcode) then None
            else Some(FrameOf(SigverRequest(r.opcode, s.seqno + 1,
                                            hmac(s.key, SignedRegion(FrameOf(r, sid), s.seqno + 1))), sid))
  {
    hide FrameOf, SigverRequest, SignedRegion, Covers, U16, Encodable;
  }

  /** A covered frame goes behind its own signature, any other goes alone. */
  lemma SignedIs(c: Core, hmac: Hmac, r: Request, sid: nat)
    requires Encodable(r)
    ensures |FrameOf(r, sid)| >= REQUEST_HDRLEN && U16(FrameOf(r, sid), 2) == r.opcode
    ensures Signed(c, hmac, r, sid) ==
            if c.signer == None || !Covers(c.signer.value, r.opcode) then FrameOf(r, sid)
            else
              var mac := hmac(c.signer.value.key, SignedRegion(FrameOf(r, sid), c.signer.value.seqno + 1));
              FrameOf(SigverRequest(r.opcode, c.signer.value.seqno + 1, mac), sid) + FrameOf(r, sid)
  {
    hide *;
    FrameShape(r, sid);
    if c.signer != None { SignatureOf(c.signer.value, hmac, r, sid); }
    SignedCases(c, hmac, r, sid);
  }

  function SignerAfter(c: Core, r: Request): Option<Signer> {
    if c.signer != None && Covers(c.signer.value, r.opcode)
    then Some(c.signer.value.(seqno := c.signer.value.seqno + 1)) else c.signer
  }

  /** Remembers the request and queues its frame, whole on its data path when it is to
      arrive there, otherwise on the control link with its data on the path. */
  function Send(c: Core, hmac: Hmac, r: Request, sid: nat, arrive: bool): Core
    requires Encodable(r)
  {
    var frame := Signed(c, hmac, r, sid);
    var known := c.(signer := SignerAfter(c, r),
                    pending := c.pending[sid := Pending(r, frame, [], None, r.pathid, r.pathData)],
                    order := c.order + [sid]);
    if arrive && r.pathid != 0 then QueuePath(known, r.pathid, frame + r.pathData)
    else
      var queued := Queue(known, frame);
      if r.pathData != [] then QueuePath(queued, r.pathid, r.pathData) else queued
  }

  function Submit(c: Core, hmac: Hmac, r: Request, arrive: bool): (Core, Result<nat, Raise>) {
    if c.phase != Ready then (c, Err(WrongPhase))
    else
      var (got, sid) := Acquire(c);
      if sid.Err? then (got, sid)
      else if !Encodable(r) then (got, Err(NotEncodable))
      else (Send(got, hmac, r, sid.value, arrive), sid)
  }

  function Resume(c: Core, sid: nat): (Core, Option<Raise>) {
    if sid !in c.pending then (c, Some(NotWaiting))
    else
      var p := c.pending[sid];
      var queued := Queue(c, p.frame);
      (if p.pathBytes != [] then QueuePath(queued, p.pathid, p.pathBytes) else queued, None)
  }

  function Start(c: Core): (Core, Option<Raise>) {
    if c.phase != New then (c, Some(WrongPhase))
    else (Queue(c, HANDSHAKE + FrameOf(ProtocolRequest(c.cfg.wantTls), SID_PROTOCOL)).(phase := Handshake), None)
  }

  function Close(c: Core, graceful: bool): (Core, Option<Raise>) {
    if c.phase == Ready && graceful && c.sessionId != [] then
      var (got, sid) := Acquire(c);
      if sid.Err? then (got, Some(sid.error))
      else (Emit(Queue(got, FrameOf(EndSessionRequest(c.sessionId), sid.value)).(phase := Closed),
        Disconnected(false)), None)
    else (Emit(c.(phase := Closed), Disconnected(false)), None)
  }

  // ----- bring-up -----

  function BeginLogin(c: Core): Core {
    if c.cfg.bindTo != [] then Queue(c.(phase := Bind), FrameOf(BindRequest(c.cfg.bindTo), SID_BIND))
    else Queue(c.(phase := Login), FrameOf(c.cfg.login, SID_LOGIN))
  }

  function TlsEstablished(c: Core): (Core, Option<Raise>) {
    if c.phase != Tls then (c, Some(WrongPhase)) else (BeginLogin(c.(tlsActive := true)), None)
  }

  function AfterProtocol(c: Core): Core {
    if c.cfg.wantTls || DemandsTls(c.info) then
      if !HasTls(c.info) then Fail(c, TlsUnavailable)
      else Emit(c.(phase := Tls), NeedTls(DemandsTls(c.info)))
    else BeginLogin(c)
  }

  /** Steps down the ladder to the first mechanism that can make its opening blob. */
  function NextCredential(c: Core): Core
    decreases |c.ladder|
  {
    if c.ladder == [] then Fail(c, NoMechanism)
    else
      var cred := c.ladder[0];
      var rest := c.(ladder := c.ladder[1..]);
      if cred.initial == None then NextCredential(rest)
      else Queue(rest.(credential := Some(cred), mechanism := cred.name),
        FrameOf(AuthRequest(cred.name, cred.initial.value), SID_AUTH))
  }

  function AuthStep(c: Core): Core {
    if c.credential == None then Fail(c, NoExchangeOpen)
    else
      var cred := c.credential.value;
      if cred.answers == [] || cred.answers[0] == None then NextCredential(c)
      else Queue(c.(credential := Some(cred.(answers := cred.answers[1..]))),
        FrameOf(AuthRequest(cred.name, cred.answers[0].value), SID_AUTH))
  }

  function BecomeReady(c: Core): Core {
    var key := if c.credential == None then [] else c.credential.value.key;
    var ready := c.(phase := Ready, signer := if key == [] then c.signer
      else Some(Signer(key, c.info.level, c.info.overrides, 0)));
    Emit(ready, NowReady(c.sessionId, c.mechanism))
  }

  predicate InBringUp(p: Phase) { p == Handshake || p == Protocol || p == Login || p == Auth || p == Bind }

  function BringUp(c: Core, status: nat, body: bytes): (Core, Option<Raise>) {
    if status == KXR_ERROR then
      if |body| < 4 then (c, Some(Malformed)) else (Fail(c, ServerSaid(body)), None)
    else if status != KXR_OK && status != KXR_AUTHMORE then (Fail(c, UnexpectedStatus(status)), None)
    else
      match c.phase
      case Handshake => (c.(phase := Protocol), None)
      case Protocol =>
        (match ParseProtocol(body)
         case None => (c, Some(Malformed))
         case Some(info) => (AfterProtocol(Emit(c.(info := info), Negotiated(info))), None))
      case Bind =>
        if body == [] || body[0] == 0 then (c, Some(Malformed))
        else (BecomeReady(c.(boundPath := body[0] as nat)), None)
      case Login =>
        var named := c.(sessionId := Slice(body, 0, 16));
        if UntilNul(Slice(body, 16, |body|)) == [] then (BecomeReady(named), None)
        else (NextCredential(named.(phase := Auth)), None)
      case _ => (if status == KXR_AUTHMORE then AuthStep(c) else BecomeReady(c), None)
  }

  // ----- responses to requests -----

  /** What dispatching a frame did: the machine after it, the trailer it announced (zero for
      none) and for whom, and whether the driver gets an exception. */
  datatype Dispatched = Dispatched(core: Core, need: int, owner: Option<nat>, raised: Option<Raise>)

  function Quiet(c: Core): Dispatched { Dispatched(c, 0, None, None) }

  function Broken(c: Core): Dispatched { Dispatched(c, 0, None, Some(Malformed)) }

  /** Data that belongs to a status response: the last of it, or one more piece. */
  function StatusData(c: Core, sid: nat, data: bytes): Core {
    if sid !in c.pending || c.pending[sid].status == None then c
    else
      var p := c.pending[sid];
      if IsFinal(p.status.value) then Emit(Release(c, sid), Completed(sid, p.request, p.buffer + data, p.status))
      else Emit(c.(pending := c.pending[sid := p.(buffer := p.buffer + data)]), Chunk(sid, p.request, data))
  }

  function OnResponse(c: Core, sid: nat, status: nat, body: bytes): Dispatched
    requires sid in c.pending
  {
    var p := c.pending[sid];
    if status == KXR_OK then
      Quiet(Emit(Release(c, sid), Completed(sid, p.request, p.buffer + body, p.status)))
    else if status == KXR_OKSOFAR then
      Quiet(Emit(c.(pending := c.pending[sid := p.(buffer := p.buffer + body)]), Chunk(sid, p.request, body)))
    else if status == KXR_ERROR then
      if |body| < 4 then Broken(c) else Quiet(Emit(Release(c, sid), StreamFailed(sid, p.request, ServerSaid(body))))
    else if status == KXR_REDIRECT then
      if |body| < 4 || RedirectHost(body[4..]) == [] then Broken(c)
      else Quiet(Emit(c, Redirected(sid, p.request, I32(body, 0), UntilNul(body[4..]))))
    else if status == KXR_WAIT then
      if |body| < 4 then Broken(c)
      else Quiet(Emit(c, Waiting(sid, p.request, if I32(body, 0) < c.cfg.waitCap then I32(body, 0) else c.cfg.waitCap,
        true)))
    else if status == KXR_WAITRESP then
      if |body| < 4 then Broken(c) else Quiet(Emit(c, Waiting(sid, p.request, I32(body, 0), false)))
    else if status == KXR_STATUS then
      match ParseStatus(body)
      case None => Broken(c)
      case Some(st) =>
        var noted := c.(pending := c.pending[sid := p.(status := Some(st))]);
        if st.dlen != 0 then Dispatched(noted, st.dlen, Some(sid), None) else Quiet(StatusData(noted, sid, []))
    else Quiet(Emit(Release(c, sid), StreamFailed(sid, p.request, UnexpectedStatus(status))))
  }

  /** The host part of a redirect target: up to the NUL, then up to the question mark. */
  function RedirectHost(b: bytes): bytes {
    if b == [] || b[0] == 0 || b[0] == 0x3F then [] else [b[0]] + RedirectHost(b[1..])
  }

  /** Routes a response: bring-up takes it while it lasts, then the stream it names. */
  function Route(c: Core, sid: nat, status: nat, body: bytes): Dispatched {
    if InBringUp(c.phase) then
      var (after, raised) := BringUp(c, status, body);
      Dispatched(after, 0, None, raised)
    else if sid !in c.pending then Quiet(c)
    else OnResponse(c, sid, status, body)
  }

  /** One frame, unwrapping a response delivered inside kXR_attn. */
  function Dispatch(c: Core, h: Header, body: bytes): Dispatched {
    if h.status != KXR_ATTN then Route(c, h.streamid, h.status, body)
    else if |body| < 4 then Broken(c)
    else if I32(body, 0) == KXR_ASYNRESP && |body| >= 16 then
      match DecodeHeader(body[8..16])
      case None => Broken(c)
      case Some(inner) => Route(c, inner.streamid, inner.status, body[16..])
    else Quiet(Emit(c, Attention(I32(body, 0), body[4..])))
  }

  // ----- framing -----

  /** `buf[:n]` and `buf[n:]` as Python slices them, a negative n counting from the end. */
  function Front(b: bytes, n: int): bytes
    requires n <= |b|
  {
    if n >= 0 then b[..n] else if |b| + n <= 0 then [] else b[..|b| + n]
  }

  function Back(b: bytes, n: int): bytes
    requires n <= |b|
  {
    if n >= 0 then b[n..] else if |b| + n <= 0 then b else b[|b| + n..]
  }

  /** One move of the parser: it waits for bytes, goes on, or lets an exception out. */
  datatype Move = Wait | Go(core: Core, framer: Framer) | Throw(core: Core, framer: Framer, why: Raise)

  function MoveOf(c: Core, f: Framer): Move {
    if f.needTrailer != 0 then
      if |f.buffer| < f.needTrailer then Wait
      else
        var rest := f.(buffer := Back(f.buffer, f.needTrailer), needTrailer := 0, trailerFor := None);
        if f.trailerFor == None then Throw(c, rest, Malformed)
        else Go(StatusData(c, f.trailerFor.value, Front(f.buffer, f.needTrailer)), rest)
    else if f.header == None then
      if |f.buffer| < RESPONSE_HDRLEN then Wait
      else
        match DecodeHeader(f.buffer[..RESPONSE_HDRLEN])
        case None => Throw(c, f, Malformed)
        case Some(h) => Go(c, f.(header := Some(h), buffer := f.buffer[RESPONSE_HDRLEN..]))
    else
      var h := f.header.value;
      if |f.buffer| < h.dlen then Wait
      else
        var rest := f.(buffer := f.buffer[h.dlen..], header := None);
        var d := Dispatch(c, h, f.buffer[..h.dlen]);
        var after := if d.need != 0 then rest.(needTrailer := d.need, trailerFor := d.owner) else rest;
        if d.raised == None then Go(d.core, after) else Throw(d.core, after, d.raised.value)
  }

  function Rank(f: Framer): nat { (if f.header == None then 0 else 2) + (if f.needTrailer == 0 then 0 else 1) }

  /** Moves until bytes are missing or an exception gets out. */
  datatype Parsed = Parsed(core: Core, framer: Framer, raised: Option<Raise>)

  function Parse(c: Core, f: Framer): Parsed
    decreases |f.buffer|, Rank(f)
  {
    match MoveOf(c, f)
    case Wait => Parsed(c, f, None)
    case Throw(c', f', why) => Parsed(c', f', Some(why))
    case Go(c', f') => Parse(c', f')
  }

  function Feed(c: Core, f: Framer, data: bytes): Parsed { Parse(c, f.(buffer := f.buffer + data)) }

  // ----- a link goes away -----

  /** The streams, oldest first, that wait on a data path. */
  function OnPath(order: seq<nat>, pending: map<nat, Pending>, pathid: nat): seq<nat> {
    if order == [] then []
    else
      var rest := OnPath(order[1..], pending, pathid);
      if order[0] in pending && pending[order[0]].pathid == pathid then [order[0]] + rest else rest
  }

  function EmitFailures(c: Core, sids: seq<nat>, why: Reason): Core {
    if sids == [] then c
    else
      var rest := EmitFailures(c, sids[..|sids| - 1], why);
      var sid := sids[|sids| - 1];
      if sid in c.pending then Emit(rest, StreamFailed(sid, c.pending[sid].request, why)) else rest
  }

  function ReleaseAll(c: Core, sids: seq<nat>): Core {
    if sids == [] then c else Release(ReleaseAll(c, sids[..|sids| - 1]), sids[|sids| - 1])
  }

  function OnEof(c: Core): Core {
    if c.phase == Closed || c.phase == Failed then c
    else
      Emit(EmitFailures(c.(phase := Closed), c.order, PeerClosed).(pending := map[], order := []), Disconnected(true))
  }

  function DropPath(m: Machine, pathid: nat): Machine {
    var released := ReleaseAll(m.core, OnPath(m.core.order, m.core.pending, pathid));
    Machine(released.(outPath := released.outPath - {pathid}), m.framers - {pathid})
  }

  function OnPathEof(m: Machine, pathid: nat): Machine {
    var told := EmitFailures(m.core, OnPath(m.core.order, m.core.pending, pathid), PathClosed(pathid));
    var dropped := DropPath(m.(core := told), pathid);
    dropped.(core := Emit(dropped.core, PathLost(pathid)))
  }

  function FramerOf(m: Machine, link: nat): Framer { if link in m.framers then m.framers[link] else FRESH_FRAMER }

  /** Bytes off one link; none of them is that link's end. */
  function Receive(m: Machine, data: bytes, link: nat): (Machine, Option<Raise>) {
    var known := m.(framers := m.framers[link := FramerOf(m, link)]);
    if data == [] then
      (if link == 0 then known.(core := OnEof(m.core)) else OnPathEof(known, link), None)
    else
      var r := Feed(m.core, FramerOf(m, link), data);
      (Machine(r.core, m.framers[link := r.framer]), r.raised)
  }
}
