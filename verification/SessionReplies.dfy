/** What each response makes of the session, read off the bytes that arrive: which event a
    status makes, what each step of bring-up does, and when TLS is due. Nothing here is said
    in terms of the functions it is about; statuses, offsets and flags are numbers. */
module SessionReplies {
  import opened Octets
  import opened Frames
  import opened Session
  import opened SessionLaws
  import S = SessionSafety
  import Framing

  // ----- numbers in bytes -----

  function Two(b: bytes, at: nat): nat
    requires at + 2 <= |b|
  {
    256 * b[at] as nat + b[at + 1] as nat
  }

  function Four(b: bytes, at: nat): nat
    requires at + 4 <= |b|
  {
    0x100_0000 * b[at] as nat + 0x1_0000 * b[at + 1] as nat + 0x100 * b[at + 2] as nat + b[at + 3] as nat
  }

  /** Two's complement. */
  function Int4(b: bytes, at: nat): int
    requires at + 4 <= |b|
  {
    if b[at] < 128 then Four(b, at) else Four(b, at) - 0x1_0000_0000
  }

  /** A string up to its first NUL. */
  ghost predicate UpToNul(t: bytes, b: bytes) { t <= b && 0 !in t && (t < b ==> b[|t|] == 0) }

  lemma {:induction false} UntilNulIs(b: bytes)
    ensures UpToNul(UntilNul(b), b)
    decreases |b|
  {
    if b != [] && b[0] != 0 {
      UntilNulIs(b[1..]);
      assert b == [b[0]] + b[1..];
      var t := UntilNul(b[1..]);
      assert [b[0]] + t <= b;
      if [b[0]] + t < b { assert t < b[1..]; }
    }
  }

  lemma NumbersAre(b: bytes, at: nat)
    requires at + 4 <= |b|
    ensures U16(b, at) == Two(b, at) && U32(b, at) == Four(b, at) && I32(b, at) == Int4(b, at)
  {
  }

  lemma TwoIs(b: bytes, at: nat)
    requires at + 2 <= |b|
    ensures U16(b, at) == Two(b, at)
  {
  }

  // ----- one response -----

  datatype Reply = Reply(sid: nat, status: nat, body: bytes)

  /** Whether a frame is an unsolicited notice with a response inside. */
  predicate Wraps(head: bytes, body: bytes)
    requires |head| == 8
  {
    Two(head, 2) == 4001 && |body| >= 16 && Int4(body, 0) == 5008
  }

  /** The response in a frame, or none: in itself, or in the notice it is. */
  function ReplyIn(head: bytes, body: bytes): Option<Reply>
    requires |head| == 8
  {
    if Two(head, 2) != 4001 then Some(Reply(Two(head, 0), Two(head, 2), body))
    else if Wraps(head, body) && Four(body, 12) <= 0x4000_0000 then Some(Reply(Two(body, 8), Two(body, 10), body[16..]))
    else None
  }

  ghost predicate Says(c: Core, d: Core, e: Event) { d == c.(events := c.events + [e]) }

  /** A stream ends with an event, and its id is free again. */
  ghost predicate Ends(c: Core, d: Core, sid: nat, e: Event) {
    d == c.(events := c.events + [e], pending := c.pending - {sid}, order := d.order,
            free := if sid >= 4 then c.free + [sid] else c.free)
  }

  /** A stream gathers one more piece. */
  ghost predicate Grows(c: Core, d: Core, sid: nat, piece: bytes)
    requires sid in c.pending
  {
    var p := c.pending[sid];
    d == c.(events := c.events + [Chunk(sid, p.request, piece)],
            pending := c.pending[sid := p.(buffer := p.buffer + piece)])
  }

  /** What a status response says. */
  function StatusIn(b: bytes): Status
    requires |b| >= 16
  {
    Status(Four(b, 0), Two(b, 4), b[6] as nat + 3000, b[7] as nat, Int4(b, 12), b[16..])
  }

  /** The data of a status response: final when its type is zero. */
  ghost predicate StatusTells(c: Core, d: Core, sid: nat, said: bytes, data: bytes)
    requires sid in c.pending && |said| >= 16
  {
    var p := c.pending[sid];
    if said[7] == 0 then Ends(c, d, sid, Completed(sid, p.request, p.buffer + data, Some(StatusIn(said))))
    else Grows(c, d, sid, data)
  }

  predicate NamesHost(body: bytes) { |body| > 4 && body[4] != 0 && body[4] != 0x3F }

  /** What a response makes of the stream it is for, status by status. */
  ghost predicate Makes(c: Core, d: Core, sid: nat, status: nat, body: bytes)
    requires sid in c.pending
  {
    var p := c.pending[sid];
    if status == 0 then Ends(c, d, sid, Completed(sid, p.request, p.buffer + body, p.status))
    else if status == 4000 then Grows(c, d, sid, body)
    else if Spoils(status, body) then d == c
    else if status == 4003 then Ends(c, d, sid, StreamFailed(sid, p.request, ServerSaid(body)))
    else if status == 4004 then
      exists t: bytes :: UpToNul(t, body[4..]) && Says(c, d, Redirected(sid, p.request, Int4(body, 0), t))
    else if status == 4005 then Says(c, d, Waiting(sid, p.request, Min(Int4(body, 0), c.cfg.waitCap), true))
    else if status == 4006 then Says(c, d, Waiting(sid, p.request, Int4(body, 0), false))
    else if status == 4007 then
      var noted := c.(pending := c.pending[sid := p.(status := Some(StatusIn(body)))]);
      if Int4(body, 12) != 0 then d == noted else StatusTells(noted, d, sid, body, [])
    else Ends(c, d, sid, StreamFailed(sid, p.request, UnexpectedStatus(status)))
  }

  /** A response too short for its status, or that redirects to no host: an exception. */
  predicate Spoils(status: nat, body: bytes) {
    || (4003 <= status <= 4006 && |body| < 4)
    || (status == 4004 && !NamesHost(body))
    || (status == 4007 && |body| < 16)
  }

  lemma OnResponseMakes(c: Core, sid: nat, status: nat, body: bytes)
    requires sid in c.pending
    ensures var r := OnResponse(c, sid, status, body);
            && Makes(c, r.core, sid, status, body)
            && (r.raised == if Spoils(status, body) then Some(Malformed) else None)
            && (if status == 4007 && |body| >= 16 && Int4(body, 12) != 0
                then r.need == Int4(body, 12) && r.owner == Some(sid) else r.need == 0)
  {
    hide Without, U16, U32, I32, StatusIn, Int4, Four;
    if |body| >= 4 {
      NumbersAre(body, 0);
      UntilNulIs(body[4..]);
      HostIs(body);
    }
    if |body| >= 16 { StatusIs(body); }
  }

  lemma HostIs(body: bytes)
    requires |body| >= 4
    ensures RedirectHost(body[4..]) != [] <==> NamesHost(body)
  {
  }

  lemma StatusIs(b: bytes)
    requires |b| >= 16
    ensures ParseStatus(b) == Some(StatusIn(b)) && StatusIn(b).dlen == Int4(b, 12)
    ensures IsFinal(StatusIn(b)) <==> b[7] == 0
  {
    NumbersAre(b, 0);
    NumbersAre(b, 4);
    NumbersAre(b, 12);
  }

  // ----- bring-up -----

  /** Bit 0x40, 0x08, 0x04 or 0x01: TLS at once, for the session, for login, or for data. */
  predicate Asks(b: byte) {
    var x := b as nat;
    x / 0x40 % 2 == 1 || x / 0x08 % 2 == 1 || x / 0x04 % 2 == 1 || x % 2 == 1
  }

  ghost predicate Stops(c: Core, d: Core, why: Reason) {
    d == c.(phase := Failed, events := c.events + [BringUpFailed(why)])
  }

  /** Login, or bind for a data connection. */
  ghost predicate LogsIn(c: Core, d: Core) {
    if c.cfg.bindTo != [] then d == c.(phase := Bind, out := c.out + FrameOf(BindRequest(c.cfg.bindTo), 2))
    else d == c.(phase := Login, out := c.out + FrameOf(c.cfg.login, 2))
  }

  /** Where the security record of a protocol reply is: right behind the flags, or behind a
      header that counts eight-byte entries. */
  predicate RecordAt(body: bytes, at: nat) {
    && 8 <= at && at + 6 <= |body| && body[at] == 0x53
    && (at == 8 || ((|body| < 14 || body[8] != 0x53) && at == 12 + 8 * body[10] as nat))
  }

  /** How many pairs of opcode and level a record holds. */
  function Pairs(record: bytes): nat
    requires |record| >= 6
  {
    Min(record[5] as nat, (|record| - 6) / 2)
  }

  function PairOp(record: bytes, k: nat): nat
    requires 6 + 2 * k < |record|
  {
    record[6 + 2 * k] as nat + 3000
  }

  /** The opcodes of the first pairs of a record, each with the level of its last pair. */
  ghost predicate ReadPairs(record: bytes, n: nat, so: map<nat, nat>)
    requires 6 + 2 * n <= |record|
  {
    && (forall op | op in so :: exists k: nat | k < n :: PairOp(record, k) == op)
    && (forall k: nat | k < n :: PairOp(record, k) in so)
    && (forall k: nat | k < n && (forall j: nat | k < j < n :: PairOp(record, j) != PairOp(record, k)) ::
          so[PairOp(record, k)] == record[7 + 2 * k] as nat)
  }

  /** What a protocol reply is read as. */
  ghost predicate Informs(body: bytes, info: ProtocolInfo)
    requires |body| >= 8
  {
    && info.version == Int4(body, 0) && info.flags == Four(body, 4)
    && (forall at: nat | RecordAt(body, at) ::
          info.level == body[at + 4] as nat && ReadPairs(body[at..], Pairs(body[at..]), info.overrides))
    && ((forall at: nat :: !RecordAt(body, at)) ==> info.level == 0 && info.overrides == map[])
  }

  /** A protocol reply: with TLS wanted or asked for, bring-up stops if the server has none,
      and waits for it otherwise; only without does it log in. */
  ghost predicate Negotiates(c: Core, d: Core, body: bytes)
    requires |body| >= 8
  {
    var heard := c.(info := d.info, events := c.events + [Negotiated(d.info)]);
    Informs(body, d.info) &&
    if !c.cfg.wantTls && !Asks(body[4]) then LogsIn(heard, d)
    else if body[4] < 0x80 then Stops(heard, d, TlsUnavailable)
    else d == heard.(phase := Tls, events := heard.events + [NeedTls(Asks(body[4]))])
  }

  /** Signing begins with the key of the mechanism, if that has one. */
  ghost predicate Readies(c: Core, d: Core) {
    var key := if c.credential == None then [] else c.credential.value.key;
    d == c.(phase := Ready, events := c.events + [NowReady(c.sessionId, c.mechanism)],
            signer := if key == [] then c.signer else Some(Signer(key, c.info.level, c.info.overrides, 0)))
  }

  /** The first mechanism that can open an exchange opens it. */
  ghost predicate Tries(c: Core, d: Core) {
    && ((forall i | 0 <= i < |c.ladder| :: c.ladder[i].initial == None) ==>
          Stops(c.(ladder := []), d, NoMechanism))
    && forall k: nat | k < |c.ladder| && c.ladder[k].initial != None
                       && (forall i | 0 <= i < k :: c.ladder[i].initial == None) ::
         var cred := c.ladder[k];
         d == c.(ladder := c.ladder[k + 1..], credential := Some(cred), mechanism := cred.name,
                 out := c.out + FrameOf(AuthRequest(cred.name, cred.initial.value), 3))
  }

  /** A challenge is answered by the open mechanism, or the next one tries. */
  ghost predicate Challenged(c: Core, d: Core) {
    if c.credential == None then Stops(c, d, NoExchangeOpen)
    else
      var cred := c.credential.value;
      if cred.answers == [] || cred.answers[0] == None then Tries(c, d)
      else d == c.(credential := Some(cred.(answers := cred.answers[1..])),
                   out := c.out + FrameOf(AuthRequest(cred.name, cred.answers[0].value), 3))
  }

  /** A reply bring-up cannot read: an exception. */
  predicate Baffles(c: Core, status: nat, body: bytes) {
    || (status == 4003 && |body| < 4)
    || ((status == 0 || status == 4002) && c.phase == Protocol && |body| < 8)
    || ((status == 0 || status == 4002) && c.phase == Bind && (body == [] || body[0] == 0))
  }

  /** What a response makes of bring-up, phase by phase. */
  ghost predicate Opens(c: Core, d: Core, status: nat, body: bytes) {
    if Baffles(c, status, body) then d == c
    else if status == 4003 then Stops(c, d, ServerSaid(body))
    else if status != 0 && status != 4002 then Stops(c, d, UnexpectedStatus(status))
    else
      match c.phase
      case Handshake => d == c.(phase := Protocol)
      case Protocol => |body| >= 8 && Negotiates(c, d, body)
      case Bind => body != [] && Readies(c.(boundPath := body[0] as nat), d)
      case Login =>
        var named := c.(sessionId := if |body| <= 16 then body else body[..16]);
        if |body| <= 16 || body[16] == 0 then Readies(named, d) else Tries(named.(phase := Auth), d)
      case _ => if status == 0 then Readies(c, d) else Challenged(c, d)
  }

  lemma BitsAre(flags: nat, b: bytes)
    requires |b| >= 8 && flags == Four(b, 4)
    ensures flags / 0x100_0000 == b[4] as nat
    ensures HasBit(flags, 0x8000_0000) <==> b[4] >= 0x80
    ensures HasBit(flags, 0x4000_0000) <==> b[4] as nat / 0x40 % 2 == 1
    ensures HasBit(flags, 0x0800_0000) <==> b[4] as nat / 0x08 % 2 == 1
    ensures HasBit(flags, 0x0400_0000) <==> b[4] as nat / 0x04 % 2 == 1
    ensures HasBit(flags, 0x0100_0000) <==> b[4] as nat % 2 == 1
  {
    var x, rest := b[4] as nat, Four(b, 4) - 0x100_0000 * b[4] as nat;
    assert 0 <= rest < 0x100_0000;
    Weight(x, rest, 0x80);
    Weight(x, rest, 0x40);
    Weight(x, rest, 0x08);
    Weight(x, rest, 0x04);
    Weight(x, rest, 1);
  }

  lemma Weight(x: nat, rest: nat, w: nat)
    requires rest < 0x100_0000 && w > 0
    ensures (0x100_0000 * x + rest) / (0x100_0000 * w) == x / w
  {
    var q, r := x / w, x % w;
    assert x == w * q + r;
    var m := 0x100_0000 * w;
    var low := 0x100_0000 * r + rest;
    assert 0x100_0000 * x + rest == m * q + low by { assert 0x100_0000 * (w * q) == m * q; }
    assert 0 <= low < m;
    DivIs(m * q + low, m, q, low);
  }

  lemma DivIs(n: nat, m: nat, q: nat, low: nat)
    requires m > 0 && n == m * q + low && low < m
    ensures n / m == q
  {
    var d := n / m - q;
    assert n == m * (n / m) + n % m;
    assert m * d == low - n % m by { assert m * d == m * (n / m) - m * q; }
    assert d >= 1 ==> m * d >= m;
    assert d <= -1 ==> m * d <= -(m as int);
  }

  lemma AsksIs(info: ProtocolInfo, b: bytes)
    requires |b| >= 8 && info.flags == Four(b, 4)
    ensures DemandsTls(info) <==> Asks(b[4])
    ensures HasTls(info) <==> b[4] >= 0x80
  {
    hide HasBit, Four;
    BitsAre(info.flags, b);
  }

  lemma {:induction false} NextCredentialTries(c: Core)
    ensures Tries(c, NextCredential(c))
    decreases |c.ladder|
  {
    hide FrameOf;
    if c.ladder != [] && c.ladder[0].initial == None {
      var rest := c.(ladder := c.ladder[1..]);
      NextCredentialTries(rest);
      var d := NextCredential(c);
      forall k: nat | k < |c.ladder| && c.ladder[k].initial != None
                      && (forall i | 0 <= i < k :: c.ladder[i].initial == None)
        ensures var cred := c.ladder[k];
                d == c.(ladder := c.ladder[k + 1..], credential := Some(cred), mechanism := cred.name,
                        out := c.out + FrameOf(AuthRequest(cred.name, cred.initial.value), 3))
      {
        assert rest.ladder[k - 1] == c.ladder[k];
        assert rest.ladder[k..] == c.ladder[k + 1..];
      }
    }
  }

  lemma ReadNext(record: bytes, n: nat, so: map<nat, nat>)
    requires 6 + 2 * (n + 1) <= |record| && ReadPairs(record, n, so)
    ensures ReadPairs(record, n + 1, so[PairOp(record, n) := record[7 + 2 * n] as nat])
  {
    hide PairOp;
    var next := so[PairOp(record, n) := record[7 + 2 * n] as nat];
    forall op | op in next
      ensures exists k: nat | k < n + 1 :: PairOp(record, k) == op
    {
      if op in so {
        var k: nat :| k < n && PairOp(record, k) == op;
      } else {
        assert PairOp(record, n) == op;
      }
    }
    forall k: nat | k < n + 1 && (forall j: nat | k < j < n + 1 :: PairOp(record, j) != PairOp(record, k))
      ensures next[PairOp(record, k)] == record[7 + 2 * k] as nat
    {
      if k < n { assert PairOp(record, n) != PairOp(record, k); }
    }
  }

  lemma {:induction false} OverridesAre(record: bytes, n: nat, count: nat, so: map<nat, nat>)
    requires |record| >= 6 && n + count == record[5] as nat && n <= Pairs(record)
    requires 6 + 2 * n <= |record| && ReadPairs(record, n, so)
    ensures 6 + 2 * Pairs(record) <= |record|
    ensures ReadPairs(record, Pairs(record), Overrides(record, 6 + 2 * n, count, so))
    decreases count
  {
    hide ReadPairs;
    if count > 0 && 6 + 2 * n + 2 <= |record| {
      ReadNext(record, n, so);
      OverridesAre(record, n + 1, count - 1, so[PairOp(record, n) := record[7 + 2 * n] as nat]);
    } else {
      assert n == Pairs(record);
    }
  }

  lemma RecordSecures(record: bytes)
    requires |record| >= 6
    ensures ReadPairs(record, Pairs(record), Overrides(record, 6, record[5] as nat, map[]))
  {
    hide Overrides;
    OverridesAre(record, 0, record[5] as nat, map[]);
  }

  /** Where `SecurityRecord` finds it. */
  lemma RecordIs(body: bytes)
    requires |body| >= 8
    ensures SecurityRecord(body[8..]) == None ==> forall at: nat :: !RecordAt(body, at)
    ensures SecurityRecord(body[8..]) != None ==>
              forall at: nat | RecordAt(body, at) :: SecurityRecord(body[8..]) == Some(body[at..])
  {
    var trailer := body[8..];
    forall at: nat | RecordAt(body, at)
      ensures SecurityRecord(trailer) == Some(body[at..])
    {
      assert trailer[at - 8..] == body[at..];
      if at != 8 { assert trailer[2] == body[10] && (|trailer| < 6 || trailer[0] != 0x53); }
    }
  }

  lemma InfoIs(body: bytes)
    requires |body| >= 8
    ensures ParseProtocol(body).Some? && Informs(body, ParseProtocol(body).value)
  {
    NumbersAre(body, 0);
    NumbersAre(body, 4);
    RecordIs(body);
    hide SecurityRecord, Overrides, RecordAt, ReadPairs, Pairs, U32, I32, Four, Int4;
    var info := ParseProtocol(body).value;
    forall at: nat | RecordAt(body, at)
      ensures at + 6 <= |body|
      ensures info.level == body[at + 4] as nat && ReadPairs(body[at..], Pairs(body[at..]), info.overrides)
    {
      RecordFits(body, at);
      RecordSecures(body[at..]);
    }
    if forall at: nat :: !RecordAt(body, at) { NoRecordIs(body); }
  }

  lemma RecordFits(body: bytes, at: nat)
    requires RecordAt(body, at)
    ensures at + 6 <= |body|
  {
  }

  /** A record found is a record there. */
  lemma NoRecordIs(body: bytes)
    requires |body| >= 8 && forall at: nat :: !RecordAt(body, at)
    ensures SecurityRecord(body[8..]) == None
  {
    var trailer := body[8..];
    assert !RecordAt(body, 8);
    if |trailer| >= 4 {
      var off := 4 + trailer[2] as nat * 8;
      assert !RecordAt(body, off + 8);
      if |trailer| >= off + 6 { assert trailer[off] == body[off + 8]; }
    }
  }

  lemma LogsInIs(c: Core)
    ensures LogsIn(c, BeginLogin(c))
  {
    hide FrameOf;
  }

  lemma ReadiesIs(c: Core)
    ensures Readies(c, BecomeReady(c))
  {
  }

  lemma AfterProtocolIs(c: Core, body: bytes, info: ProtocolInfo)
    requires |body| >= 8 && Informs(body, info)
    ensures Negotiates(c, AfterProtocol(Emit(c.(info := info), Negotiated(info))), body)
  {
    hide Informs, Asks, FrameOf, DemandsTls, HasTls, LogsIn, BeginLogin;
    var heard := c.(info := info, events := c.events + [Negotiated(info)]);
    FlagsOf(body, info);
    AsksIs(info, body);
    LogsInIs(heard);
    LoginKeepsInfo(heard);
  }

  lemma FlagsOf(body: bytes, info: ProtocolInfo)
    requires |body| >= 8 && Informs(body, info)
    ensures info.flags == Four(body, 4)
  {
    hide ReadPairs, RecordAt, Four;
  }

  lemma LoginKeepsInfo(c: Core)
    ensures BeginLogin(c).info == c.info
  {
    hide FrameOf;
  }

  lemma BringUpOpens(c: Core, status: nat, body: bytes)
    requires InBringUp(c.phase)
    ensures Opens(c, BringUp(c, status, body).0, status, body)
    ensures BringUp(c, status, body).1 == if Baffles(c, status, body) then Some(Malformed) else None
  {
    hide Negotiates, Tries, Readies, FrameOf, NextCredential, BecomeReady, AfterProtocol, ParseProtocol, Informs,
      UntilNul;
    if |body| >= 8 {
      InfoIs(body);
      AfterProtocolIs(c, body, ParseProtocol(body).value);
    } else {
      ShortInfo(body);
    }
    if body != [] { ReadiesIs(c.(boundPath := body[0] as nat)); }
    var named := c.(sessionId := if |body| <= 16 then body else body[..16]);
    assert named == c.(sessionId := Slice(body, 0, 16));
    SecNone(body);
    ReadiesIs(named);
    ReadiesIs(c);
    NextCredentialTries(named.(phase := Auth));
    NextCredentialTries(c);
  }

  lemma ShortInfo(body: bytes)
    requires |body| < 8
    ensures ParseProtocol(body) == None
  {
  }

  lemma SecNone(body: bytes)
    ensures UntilNul(Slice(body, 16, |body|)) == [] <==> |body| <= 16 || body[16] == 0
  {
  }

  // ----- every move of the parser -----

  predicate Young(p: Phase) { p in {Handshake, Protocol, Login, Auth, Bind} }

  /** What has been heard on a link so far that later frames are read by: the bytes of the
      header whose body is to come, the last status response of each stream, and whether the
      server asked for TLS. */
  datatype Ear = Ear(head: bytes, last: map<nat, bytes>, demanded: bool)

  /** A frame: a notice, a reply in bring-up, one for nobody, or one for its stream. */
  ghost predicate FrameTells(c: Core, head: bytes, body: bytes, m: Move)
    requires |head| == 8 && m != Wait
  {
    match ReplyIn(head, body)
    case None =>
      if |body| < 4 || Wraps(head, body) then m.Throw? && m.core == c && m.framer.needTrailer == 0
      else m.Go? && Says(c, m.core, Attention(Int4(body, 0), body[4..])) && m.framer.needTrailer == 0
    case Some(r) =>
      if Young(c.phase) then
        && Opens(c, m.core, r.status, r.body)
        && (m.Throw? <==> Baffles(c, r.status, r.body)) && m.framer.needTrailer == 0
      else if r.sid !in c.pending then m.core == c && m.Go? && m.framer.needTrailer == 0
      else
        && Makes(c, m.core, r.sid, r.status, r.body)
        && (m.Throw? <==> Spoils(r.status, r.body))
        && (if r.status == 4007 && |r.body| >= 16 && Int4(r.body, 12) != 0
            then m.framer.needTrailer == Int4(r.body, 12) && m.framer.trailerFor == Some(r.sid)
            else m.framer.needTrailer == 0)
  }

  /** A trailer is data of the last status response of the stream it is for. */
  ghost predicate TrailerTells(c: Core, f: Framer, last: map<nat, bytes>, m: Move)
    requires m != Wait && f.needTrailer <= |f.buffer|
  {
    && (m.Throw? <==> f.trailerFor == None)
    && (if f.trailerFor != None && f.trailerFor.value in c.pending && f.trailerFor.value in last then
          var sid := f.trailerFor.value;
          |last[sid]| >= 16 && StatusTells(c, m.core, sid, last[sid], Front(f.buffer, f.needTrailer))
        else m.core == c)
  }

  ghost predicate MoveTells(c: Core, f: Framer, e: Ear, m: Move)
    requires m != Wait
  {
    if f.needTrailer != 0 then f.needTrailer <= |f.buffer| && TrailerTells(c, f, e.last, m)
    else if f.header == None then
      && |f.buffer| >= 8 && m.core == c
      && (m.Throw? <==> Four(f.buffer, 4) > 0x4000_0000)
      && (m.Go? ==> m.framer.buffer == f.buffer[8..] && m.framer.header != None)
    else
      && |e.head| == 8 && Four(e.head, 4) <= |f.buffer|
      && FrameTells(c, e.head, f.buffer[..Four(e.head, 4)], m)
      && m.framer.buffer == f.buffer[Four(e.head, 4)..] && m.framer.header == None
  }

  function HearReply(c: Core, r: Reply, e: Ear): Ear {
    if Young(c.phase) then
      if c.phase == Protocol && (r.status == 0 || r.status == 4002) && |r.body| >= 8
      then e.(demanded := Asks(r.body[4])) else e
    else if r.sid in c.pending && r.status == 4007 && |r.body| >= 16 then e.(last := e.last[r.sid := r.body])
    else e
  }

  /** What has been heard after one more move. */
  function Listen(c: Core, f: Framer, e: Ear): Ear {
    if f.needTrailer != 0 then e
    else if f.header == None then e.(head := Slice(f.buffer, 0, 8))
    else if |e.head| != 8 || |f.buffer| < Four(e.head, 4) then e
    else
      match ReplyIn(e.head, f.buffer[..Four(e.head, 4)])
      case None => e
      case Some(r) => HearReply(c, r, e)
  }

  /** The header came in the bytes heard. */
  ghost predicate HeadHeard(f: Framer, head: bytes) {
    f.header != None ==> |head| == 8 && f.header == Some(Header(Two(head, 0), Two(head, 2), Four(head, 4)))
  }

  ghost predicate LastHeard(c: Core, last: map<nat, bytes>) {
    forall sid | sid in c.pending ::
      && (sid in last <==> c.pending[sid].status != None)
      && (sid in last ==> |last[sid]| >= 16 && c.pending[sid].status == Some(StatusIn(last[sid])))
  }

  ghost predicate Hears(c: Core, f: Framer, e: Ear) {
    HeadHeard(f, e.head) && LastHeard(c, e.last) && (e.demanded <==> DemandsTls(c.info))
  }

  lemma DecodeIs(b: bytes)
    requires |b| == 8
    ensures DecodeHeader(b) ==
            if Four(b, 4) > 0x4000_0000 then None else Some(Header(Two(b, 0), Two(b, 2), Four(b, 4)))
  {
    NumbersAre(b, 0);
    NumbersAre(b, 4);
    TwoIs(b, 2);
  }

  /** Dispatching a frame, as the bytes have it. */
  ghost predicate DispatchTells(c: Core, head: bytes, body: bytes, d: Dispatched)
    requires |head| == 8
  {
    forall m: Move | m != Wait && m.core == d.core && (m.Throw? <==> d.raised != None)
                     && m.framer.needTrailer == d.need && (d.need != 0 ==> m.framer.trailerFor == d.owner) ::
      FrameTells(c, head, body, m)
  }

  lemma RouteTells(c: Core, r: Reply)
    ensures var d := Route(c, r.sid, r.status, r.body);
            if Young(c.phase) then
              && Opens(c, d.core, r.status, r.body)
              && (d.raised != None <==> Baffles(c, r.status, r.body)) && d.need == 0
            else if r.sid !in c.pending then d.core == c && d.raised == None && d.need == 0
            else
              && Makes(c, d.core, r.sid, r.status, r.body)
              && (d.raised != None <==> Spoils(r.status, r.body))
              && (if r.status == 4007 && |r.body| >= 16 && Int4(r.body, 12) != 0
                  then d.need == Int4(r.body, 12) && d.owner == Some(r.sid) else d.need == 0)
  {
    hide Opens, Makes, Baffles, Spoils, BringUp, OnResponse;
    if Young(c.phase) {
      BringUpOpens(c, r.status, r.body);
    } else if r.sid in c.pending {
      OnResponseMakes(c, r.sid, r.status, r.body);
    }
  }

  lemma DispatchIs(c: Core, head: bytes, h: Header, body: bytes)
    requires |head| == 8 && h == Header(Two(head, 0), Two(head, 2), Four(head, 4))
    ensures DispatchTells(c, head, body, Dispatch(c, h, body))
  {
    hide Opens, Makes, Baffles, Spoils, Route, Two, Four, Int4, U32, I32, U16, DecodeHeader;
    if |body| >= 16 {
      DecodeIs(body[8..16]);
      Inner(body);
    }
    if |body| >= 4 { NumbersAre(body, 0); }
    var r := ReplyIn(head, body);
    if r != None { RouteTells(c, r.value); }
  }

  lemma Inner(body: bytes)
    requires |body| >= 16
    ensures var b := body[8..16];
            Two(b, 0) == Two(body, 8) && Two(b, 2) == Two(body, 10) && Four(b, 4) == Four(body, 12)
  {
  }

  lemma StatusDataTells(c: Core, last: map<nat, bytes>, sid: nat, data: bytes)
    requires LastHeard(c, last)
    ensures var d := StatusData(c, sid, data);
            if sid in c.pending && sid in last then |last[sid]| >= 16 && StatusTells(c, d, sid, last[sid], data)
            else d == c
  {
    hide Without, StatusIn;
    if sid in c.pending && sid in last { StatusIs(last[sid]); }
  }

  /** Every move of the parser does what its bytes say. */
  lemma MoveSays(c: Core, f: Framer, e: Ear)
    requires Hears(c, f, e) && MoveOf(c, f) != Wait
    ensures MoveTells(c, f, e, MoveOf(c, f))
  {
    hide Dispatch, DecodeHeader, StatusData, StatusTells, FrameTells, LastHeard, Two, Four;
    if f.needTrailer != 0 {
      if f.trailerFor != None {
        StatusDataTells(c, e.last, f.trailerFor.value, Front(f.buffer, f.needTrailer));
      }
    } else if f.header == None {
      DecodeIs(f.buffer[..8]);
      FourFront(f.buffer);
    } else {
      DispatchIs(c, e.head, f.header.value, f.buffer[..f.header.value.dlen]);
    }
  }

  lemma FourFront(b: bytes)
    requires |b| >= 8
    ensures Four(b[..8], 4) == Four(b, 4)
  {
  }

  lemma StatusTellsHears(c: Core, d: Core, sid: nat, said: bytes, data: bytes, last: map<nat, bytes>)
    requires sid in c.pending && |said| >= 16 && StatusTells(c, d, sid, said, data) && LastHeard(c, last)
    ensures LastHeard(d, last) && d.info == c.info
  {
    hide StatusIn;
  }

  lemma MakesHears(c: Core, d: Core, sid: nat, status: nat, body: bytes, last: map<nat, bytes>)
    requires sid in c.pending && Makes(c, d, sid, status, body) && LastHeard(c, last)
    ensures LastHeard(d, if status == 4007 && |body| >= 16 then last[sid := body] else last) && d.info == c.info
  {
    hide StatusIn, Int4, UpToNul, StatusTells;
    if status == 4007 && |body| >= 16 {
      var noted := c.(pending := c.pending[sid := c.pending[sid].(status := Some(StatusIn(body)))]);
      assert LastHeard(noted, last[sid := body]);
      if Int4(body, 12) == 0 { StatusTellsHears(noted, d, sid, body, [], last[sid := body]); }
    }
  }

  lemma TriesKeeps(c: Core, d: Core)
    requires Tries(c, d)
    ensures d.pending == c.pending && d.info == c.info
  {
    hide FrameOf;
    if !forall i | 0 <= i < |c.ladder| :: c.ladder[i].initial == None {
      var i: nat :| i < |c.ladder| && c.ladder[i].initial != None;
      var k := FirstOpen(c.ladder, i);
    }
  }

  lemma {:induction false} FirstOpen(ladder: seq<Credential>, i: nat) returns (k: nat)
    requires i < |ladder| && ladder[i].initial != None
    ensures k <= i && ladder[k].initial != None && forall j | 0 <= j < k :: ladder[j].initial == None
    decreases i
  {
    if j: nat :| j < i && ladder[j].initial != None { k := FirstOpen(ladder, j); } else { k := i; }
  }

  lemma NegotiatesHears(c: Core, d: Core, body: bytes)
    requires |body| >= 8 && Negotiates(c, d, body)
    ensures d.pending == c.pending && (DemandsTls(d.info) <==> Asks(body[4]))
  {
    hide Informs, FrameOf, Asks, DemandsTls;
    FlagsOf(body, d.info);
    AsksIs(d.info, body);
  }

  lemma OpensHears(c: Core, d: Core, status: nat, body: bytes)
    requires Young(c.phase) && Opens(c, d, status, body)
    ensures d.pending == c.pending
    ensures if c.phase == Protocol && (status == 0 || status == 4002) && |body| >= 8
            then DemandsTls(d.info) <==> Asks(body[4]) else d.info == c.info
  {
    hide Negotiates, Tries, DemandsTls, FrameOf;
    if (status == 0 || status == 4002) && !Baffles(c, status, body) {
      if c.phase == Protocol { NegotiatesHears(c, d, body); }
      if c.phase == Login && |body| > 16 && body[16] != 0 {
        TriesKeeps(c.(sessionId := body[..16]).(phase := Auth), d);
      }
      if c.phase == Auth && Tries(c, d) { TriesKeeps(c, d); }
    }
  }

  lemma FrameHears(c: Core, f: Framer, e: Ear, m: Move)
    requires Hears(c, f, e) && f.needTrailer == 0 && f.header != None && m != Wait && MoveTells(c, f, e, m)
    ensures LastHeard(m.core, Listen(c, f, e).last)
    ensures Listen(c, f, e).demanded <==> DemandsTls(m.core.info)
  {
    hide Opens, Makes, Baffles, Spoils, DemandsTls, Int4, Asks, Two, Four;
    var body := f.buffer[..Four(e.head, 4)];
    var reply := ReplyIn(e.head, body);
    if reply != None {
      var r := reply.value;
      if Young(c.phase) {
        OpensHears(c, m.core, r.status, r.body);
      } else if r.sid in c.pending {
        MakesHears(c, m.core, r.sid, r.status, r.body, e.last);
      }
    }
  }

  /** What was heard stays so. */
  lemma MoveHears(c: Core, f: Framer, e: Ear)
    requires Hears(c, f, e) && MoveOf(c, f) != Wait
    ensures Hears(MoveOf(c, f).core, MoveOf(c, f).framer, Listen(c, f, e))
  {
    var m := MoveOf(c, f);
    MoveSays(c, f, e);
    if f.needTrailer != 0 {
      FramerAfter(c, f);
      TrailerHears(c, f, e, m);
    } else if f.header == None {
      HeaderHears(c, f, e);
    } else {
      FrameHears(c, f, e, m);
      hide MoveOf, MoveTells, Listen, DemandsTls, LastHeard;
    }
  }

  lemma FramerAfter(c: Core, f: Framer)
    requires f.needTrailer != 0 && MoveOf(c, f) != Wait
    ensures MoveOf(c, f).framer.header == f.header
  {
    hide StatusData;
  }

  lemma TrailerHears(c: Core, f: Framer, e: Ear, m: Move)
    requires Hears(c, f, e) && f.needTrailer != 0 && m != Wait && MoveTells(c, f, e, m)
    ensures LastHeard(m.core, e.last) && m.core.info == c.info
  {
    hide StatusTells, DemandsTls, Two, Four, HeadHeard;
    if f.trailerFor != None && f.trailerFor.value in c.pending && f.trailerFor.value in e.last {
      var sid := f.trailerFor.value;
      StatusTellsHears(c, m.core, sid, e.last[sid], Front(f.buffer, f.needTrailer), e.last);
    }
  }

  lemma HeaderHears(c: Core, f: Framer, e: Ear)
    requires Hears(c, f, e) && f.needTrailer == 0 && f.header == None && MoveOf(c, f) != Wait
    ensures Hears(MoveOf(c, f).core, MoveOf(c, f).framer, Listen(c, f, e))
  {
    hide DecodeHeader, DemandsTls, LastHeard, Two, Four;
    DecodeIs(f.buffer[..8]);
    assert Slice(f.buffer, 0, 8) == f.buffer[..8];
  }

  /** So does every move of a parse. */
  ghost predicate ParseTells(c: Core, f: Framer, e: Ear)
    decreases |f.buffer|, Rank(f)
  {
    match MoveOf(c, f)
    case Wait => true
    case Throw(_, _, _) => MoveTells(c, f, e, MoveOf(c, f))
    case Go(c', f') => MoveTells(c, f, e, MoveOf(c, f)) && ParseTells(c', f', Listen(c, f, e))
  }

  /** What has been heard by the end of it. */
  ghost function ListenAll(c: Core, f: Framer, e: Ear): Ear
    decreases |f.buffer|, Rank(f)
  {
    match MoveOf(c, f)
    case Wait => e
    case Throw(_, _, _) => Listen(c, f, e)
    case Go(c', f') => ListenAll(c', f', Listen(c, f, e))
  }

  lemma {:induction false} ParseSays(c: Core, f: Framer, e: Ear)
    requires Hears(c, f, e)
    ensures ParseTells(c, f, e)
    ensures Hears(Parse(c, f).core, Parse(c, f).framer, ListenAll(c, f, e))
    decreases |f.buffer|, Rank(f)
  {
    hide MoveOf, MoveTells, Listen, Hears;
    var m := MoveOf(c, f);
    if m != Wait {
      MoveSays(c, f, e);
      MoveHears(c, f, e);
      if m.Go? {
        Framing.MoveShrinks(c, f);
        ParseSays(m.core, m.framer, Listen(c, f, e));
      }
    }
  }
}
