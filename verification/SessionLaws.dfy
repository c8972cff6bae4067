/** What every run of the session machine keeps: accounting of submissions, stream-id
    exhaustion, bring-up order, TLS before login, and sequence numbers of signatures. */
module SessionLaws {
  import opened Octets
  import opened Frames
  import opened Session
  import opened SessionRuns
  import Framing

  // ----- what frames after bring-up leave alone -----

  /** Ids in flight or free. */
  ghost function Taken(c: Core): set<nat> { c.pending.Keys + Set(c.free) }

  /** No phase, outbox or signer change; ids only move from flight to the free list. */
  ghost predicate Calm(c: Core, d: Core) {
    && d.phase == c.phase && d.out == c.out && d.signer == c.signer && d.tlsActive == c.tlsActive
    && d.info == c.info && d.cfg == c.cfg && d.nextSid == c.nextSid
    && Taken(d) == Taken(c) && d.pending.Keys <= c.pending.Keys
  }

  /** Calm, and at most one event, which is not NowReady. */
  ghost predicate Steady(c: Core, d: Core) {
    && Calm(c, d)
    && (d.events == c.events || (|d.events| == |c.events| + 1 && c.events <= d.events
      && !d.events[|c.events|].NowReady?))
  }

  lemma SteadyIsCalm(c: Core, d: Core)
    requires Steady(c, d)
    ensures Calm(c, d)
  {
  }

  lemma SetSnoc(s: seq<nat>, x: nat)
    ensures Set(s + [x]) == Set(s) + {x}
  {
  }

  lemma ReleaseSteady(c: Core, sid: nat)
    requires Ids(c)
    ensures Steady(c, Release(c, sid)) && Release(c, sid).events == c.events
  {
    hide Without, NoDup;
    SetSnoc(c.free, sid);
  }

  lemma EmitSteady(c: Core, d: Core, e: Event)
    requires Steady(c, d) && d.events == c.events && !e.NowReady?
    ensures Steady(c, Emit(d, e))
  {
  }

  lemma UpdateSteady(c: Core, sid: nat, p: Pending)
    requires sid in c.pending
    ensures Steady(c, c.(pending := c.pending[sid := p]))
  {
    assert c.pending[sid := p].Keys == c.pending.Keys;
  }

  lemma StatusDataSteady(c: Core, sid: nat, data: bytes)
    requires Ids(c)
    ensures Steady(c, StatusData(c, sid, data))
  {
    hide Release, Ids, Steady;
    SteadySelf(c);
    if sid in c.pending && c.pending[sid].status != None {
      var p := c.pending[sid];
      ReleaseSteady(c, sid);
      UpdateSteady(c, sid, p.(buffer := p.buffer + data));
      EmitSteady(c, Release(c, sid), Completed(sid, p.request, p.buffer + data, p.status));
      EmitSteady(c, c.(pending := c.pending[sid := p.(buffer := p.buffer + data)]), Chunk(sid, p.request, data));
    }
  }

  lemma SteadySelf(c: Core)
    ensures Steady(c, c)
  {
  }

  lemma SteadyFrom(c: Core, d: Core, e: Core)
    requires Steady(c, d) && d.events == c.events && Steady(d, e)
    ensures Steady(c, e)
  {
  }

  lemma OnResponseSteady(c: Core, sid: nat, status: nat, body: bytes)
    requires Ids(c) && sid in c.pending
    ensures Steady(c, OnResponse(c, sid, status, body).core)
  {
    hide Release, Ids, Steady, StatusData, ParseStatus, UntilNul, RedirectHost, Taken;
    var p := c.pending[sid];
    var d := OnResponse(c, sid, status, body).core;
    SteadySelf(c);
    ReleaseSteady(c, sid);
    if status == KXR_STATUS && ParseStatus(body) != None {
      var st := ParseStatus(body).value;
      var noted := c.(pending := c.pending[sid := p.(status := Some(st))]);
      UpdateSteady(c, sid, p.(status := Some(st)));
      UpdateIds(c, sid, p.(status := Some(st)));
      StatusDataSteady(noted, sid, []);
      SteadyFrom(c, noted, StatusData(noted, sid, []));
    } else if status == KXR_OKSOFAR {
      UpdateSteady(c, sid, p.(buffer := p.buffer + body));
      EmitSteady(c, c.(pending := c.pending[sid := p.(buffer := p.buffer + body)]), Chunk(sid, p.request, body));
    } else if d != c {
      if status == KXR_REDIRECT || status == KXR_WAIT || status == KXR_WAITRESP {
        EmitSteady(c, c, d.events[|c.events|]);
      } else if status == KXR_OK {
        EmitSteady(c, Release(c, sid), Completed(sid, p.request, p.buffer + body, p.status));
      } else {
        EmitSteady(c, Release(c, sid), StreamFailed(sid, p.request, if status == KXR_ERROR then ServerSaid(body)
          else UnexpectedStatus(status)));
      }
    }
  }

  /** A move of the parser is one bring-up step or leaves phase, outbox and signer alone. */
  ghost predicate Ordinary(c: Core, d: Core) {
    Steady(c, d) || (InBringUp(c.phase) && exists status, body :: d == BringUp(c, status, body).0)
  }

  lemma RouteOrdinary(c: Core, sid: nat, status: nat, body: bytes)
    requires Ids(c)
    ensures Ordinary(c, Route(c, sid, status, body).core)
  {
    hide Ids, Steady, BringUp, OnResponse;
    SteadySelf(c);
    if !InBringUp(c.phase) && sid in c.pending {
      OnResponseSteady(c, sid, status, body);
    }
  }

  lemma DispatchOrdinary(c: Core, h: Header, body: bytes)
    requires Ids(c)
    ensures Ordinary(c, Dispatch(c, h, body).core)
  {
    hide Ids, Steady, BringUp, Route, DecodeHeader, Ordinary;
    SteadySelf(c);
    OrdinarySteady(c, c);
    if h.status != KXR_ATTN {
      RouteOrdinary(c, h.streamid, h.status, body);
    } else if |body| >= 16 && I32(body, 0) == KXR_ASYNRESP {
      if DecodeHeader(body[8..16]) != None {
        var inner := DecodeHeader(body[8..16]).value;
        RouteOrdinary(c, inner.streamid, inner.status, body[16..]);
      }
    } else if |body| >= 4 {
      EmitSteady(c, c, Attention(I32(body, 0), body[4..]));
      OrdinarySteady(c, Emit(c, Attention(I32(body, 0), body[4..])));
    }
  }

  lemma OrdinarySteady(c: Core, d: Core)
    requires Steady(c, d)
    ensures Ordinary(c, d)
  {
  }

  lemma MoveOrdinary(c: Core, f: Framer)
    requires Ids(c) && MoveOf(c, f) != Wait
    ensures Ordinary(c, MoveOf(c, f).core)
  {
    hide Ids, Steady, StatusData, Dispatch, DecodeHeader, Front, Back, Ordinary;
    SteadySelf(c);
    OrdinarySteady(c, c);
    if f.needTrailer != 0 {
      if f.trailerFor != None {
        StatusDataSteady(c, f.trailerFor.value, Front(f.buffer, f.needTrailer));
        OrdinarySteady(c, StatusData(c, f.trailerFor.value, Front(f.buffer, f.needTrailer)));
      }
    } else if f.header != None {
      DispatchOrdinary(c, f.header.value, f.buffer[..f.header.value.dlen]);
    }
  }

  // ----- bring-up -----

  predicate PreReady(p: Phase) { p != Ready && p != Failed && p != Closed }

  predicate WantsTls(c: Core) { c.cfg.wantTls || DemandsTls(c.info) }

  /** The handshake and the protocol request: all a client says before it knows whether the
      server wants TLS. */
  ghost function Greeting(cfg: Config): bytes { HANDSHAKE + FrameOf(ProtocolRequest(cfg.wantTls), SID_PROTOCOL) }

  /** Everything ever queued on the control link. */
  ghost function Said(c: Core, h: History): bytes { h.drained + c.out }

  /** Ready is announced once, on becoming ready; nothing is signed and no stream opened
      before; and while TLS is wanted or demanded but not up, nothing but the greeting has
      been said, so no Login, Bind or Auth frame. */
  ghost predicate Opening(c: Core, h: History) {
    && h.readies <= 1
    && (PreReady(c.phase) ==> h.readies == 0 && c.signer == None)
    && (c.phase == Ready ==> h.readies == 1)
    && (h.readies == 0 ==> c.pending == map[])
    && (c.phase == New ==> Said(c, h) == [] && !c.tlsActive && c.info == NO_INFO)
    && (c.phase == Handshake || c.phase == Protocol ==>
          Said(c, h) == Greeting(c.cfg) && !c.tlsActive && c.info == NO_INFO)
    && (c.phase == Tls ==> Said(c, h) == Greeting(c.cfg) && !c.tlsActive)
    && (WantsTls(c) && !c.tlsActive ==>
          && (Said(c, h) == [] || Said(c, h) == Greeting(c.cfg))
          && c.pending == map[]
          && c.phase != Login && c.phase != Auth && c.phase != Bind && c.phase != Ready)
  }

  lemma NoDemandYet()
    ensures !DemandsTls(NO_INFO)
  {
  }

  lemma CalmOpening(c: Core, h: History, d: Core, g: History)
    requires Opening(c, h) && Calm(c, d) && g.readies == h.readies && g.drained == h.drained
    ensures Opening(d, g)
  {
    hide DemandsTls, FrameOf, Taken;
    assert c.pending == map[] ==> d.pending == map[] by {
      if c.pending == map[] { assert d.pending.Keys == {}; }
    }
  }

  lemma BecomeReadyOpening(c: Core, h: History)
    requires Opening(c, h) && (c.phase == Login || c.phase == Auth || c.phase == Bind)
    ensures Opening(BecomeReady(c), h.(readies := h.readies + 1))
  {
    hide DemandsTls, FrameOf, Greeting;
  }

  lemma LaterOpening(c: Core, h: History, d: Core)
    requires Opening(c, h) && (c.phase == Login || c.phase == Auth)
    requires d.phase == Auth || d.phase == Failed
    requires d.signer == c.signer && d.tlsActive == c.tlsActive && d.info == c.info && d.cfg == c.cfg
        && d.pending == c.pending
    ensures Opening(d, h)
  {
    hide DemandsTls, FrameOf, Greeting;
  }

  lemma AfterProtocolOpening(c: Core, h: History, info: ProtocolInfo)
    requires Opening(c, h) && c.phase == Protocol
    ensures Opening(AfterProtocol(Emit(c.(info := info), Negotiated(info))), h)
  {
    hide DemandsTls, HasTls, FrameOf, Greeting;
  }

  lemma FailOpening(c: Core, h: History, why: Reason)
    requires Opening(c, h) && InBringUp(c.phase)
    ensures Opening(Fail(c, why), h)
  {
    hide DemandsTls, FrameOf, Greeting;
  }

  lemma BringUpOpening(c: Core, h: History, status: nat, body: bytes)
    requires Opening(c, h) && InBringUp(c.phase)
    ensures var d := BringUp(c, status, body).0;
            Opening(d, h.(readies := h.readies + if d.phase == Ready then 1 else 0))
  {
    hide Opening, ParseProtocol, UntilNul, AfterProtocol, BecomeReady, NextCredential, AuthStep, OnlySession;
    var d := BringUp(c, status, body).0;
    SameHistory(h);
    if status == KXR_ERROR {
      FailOpening(c, h, ServerSaid(body));
    } else if status != KXR_OK && status != KXR_AUTHMORE {
      FailOpening(c, h, UnexpectedStatus(status));
    } else if c.phase == Handshake {
      HandshakeOpening(c, h);
    } else if c.phase == Protocol {
      if ParseProtocol(body) != None {
        var told := Emit(c.(info := ParseProtocol(body).value), Negotiated(ParseProtocol(body).value));
        AfterProtocolOpening(c, h, ParseProtocol(body).value);
        AfterProtocolOnly(told);
      }
    } else if c.phase == Bind {
      if body != [] && body[0] != 0 {
        var known := c.(boundPath := body[0] as nat);
        SameOpening(c, h, known);
        BecomeReadyOpening(known, h);
        BecomeReadyOnly(known);
      }
    } else if c.phase == Login {
      var named := c.(sessionId := Slice(body, 0, 16));
      SameOpening(c, h, named);
      BecomeReadyOpening(named, h);
      BecomeReadyOnly(named);
      LadderOpening(named.(phase := Auth), c, h);
    } else {
      BecomeReadyOpening(c, h);
      BecomeReadyOnly(c);
      AuthStepOnly(c);
      AuthStepOpening(c, h);
    }
  }

  lemma SameHistory(h: History)
    ensures h.(readies := h.readies + 0) == h
  {
  }

  lemma HandshakeOpening(c: Core, h: History)
    requires Opening(c, h) && c.phase == Handshake
    ensures Opening(c.(phase := Protocol), h)
  {
    hide DemandsTls, FrameOf, Greeting;
  }

  lemma SameOpening(c: Core, h: History, d: Core)
    requires Opening(c, h)
    requires d.phase == c.phase && d.signer == c.signer && d.pending == c.pending && d.out == c.out
    requires d.tlsActive == c.tlsActive && d.info == c.info && d.cfg == c.cfg
    ensures Opening(d, h)
  {
    hide DemandsTls, FrameOf, Greeting;
  }

  lemma LadderOpening(named: Core, c: Core, h: History)
    requires Opening(c, h) && (c.phase == Login || c.phase == Auth) && named.phase == Auth
    requires named.signer == c.signer && named.tlsActive == c.tlsActive && named.info == c.info && named.cfg == c.cfg
        && named.pending == c.pending
    ensures Opening(NextCredential(named), h) && NextCredential(named).phase != Ready
  {
    hide Opening, NextCredential;
    NextCredentialOnly(named);
    LaterOpening(c, h, NextCredential(named));
  }

  lemma AuthStepOpening(c: Core, h: History)
    requires Opening(c, h) && c.phase == Auth
    ensures Opening(AuthStep(c), h)
  {
    hide Opening, NextCredential, FrameOf;
    LadderOpening(c, c, h);
    FailOpening(c, h, NoExchangeOpen);
    if c.credential != None && c.credential.value.answers != [] && c.credential.value.answers[0] != None {
      LaterOpening(c, h, AuthStep(c));
    }
  }

  // ----- signing -----

  /** The covered submissions so far carried the sequence numbers 1, 2, 3, ... */
  ghost predicate Signing(c: Core, h: History) {
    && (forall i | 0 <= i < |h.seqnos| :: h.seqnos[i] == i + 1)
    && (c.signer == None ==> h.seqnos == [])
    && (c.signer != None ==> |h.seqnos| == c.signer.value.seqno)
  }

  // ----- the id space -----

  predicate Between(lo: nat, x: nat, hi: nat) { lo <= x < hi }

  ghost function Range(lo: nat, hi: nat): set<nat> { set x: nat | x < hi && Between(lo, x, hi) }

  lemma {:induction false} RangeSize(lo: nat, hi: nat)
    requires lo <= hi
    ensures |Range(lo, hi)| == hi - lo
    decreases hi
  {
    if lo == hi {
      assert Range(lo, hi) == {};
    } else {
      RangeSize(lo, hi - 1);
      assert Range(lo, hi) == Range(lo, hi - 1) + {hi - 1};
    }
  }

  /** Every id issued so far is in flight, free or lost, and only one of these: all below the
      counter, or, once it has been round, all there are. Ids get lost only to a refused
      encoding or the end, and come back when the counter comes round to them. */
  ghost predicate Space(c: Core, h: History) {
    && Taken(c) + h.lost == Issued(h.wrapped, c.nextSid)
    && Taken(c) !! h.lost
    && (h.lost != {} ==> h.refused > 0 || c.phase == Closed)
  }

  function NoteAcquire(h: History, c: Core): History {
    if c.free == [] && c.nextSid == LAST_SID then h.(wrapped := true) else h
  }

  lemma SetFront(s: seq<nat>)
    requires s != []
    ensures Set(s) == Set(s[..|s| - 1]) + {s[|s| - 1]}
  {
    assert s == s[..|s| - 1] + [s[|s| - 1]];
  }

  /** The ids issued so far: all below the counter, or, once it has been round, all. */
  ghost function Issued(wrapped: bool, next: nat): set<nat> {
    if wrapped then Range(FIRST_SID, LAST_SID + 1) else Range(FIRST_SID, next)
  }

  /** Taking an id accounts for every id issued: it is the only one not in flight, free or
      lost already. */
  lemma AcquireSpace(c: Core, h: History)
    requires Ids(c) && Space(c, h)
    ensures var (got, sid) := Acquire(c);
            got.pending == c.pending
            && Taken(got) + (if sid.Ok? then {sid.value} else {}) + h.lost ==
              Issued(NoteAcquire(h, c).wrapped, got.nextSid)
  {
    hide Issued, NoDup, Set;
    if c.free != [] {
      hide Taken;
      TakenFree(c);
    } else {
      TakenNext(c);
      IssuedNext(h.wrapped, c.nextSid, Taken(c) + h.lost);
      var got, sid := Acquire(c).0, Acquire(c).1;
      Swap(Taken(got), if sid.Ok? then {sid.value} else {}, h.lost);
      hide Taken;
      if c.nextSid in c.pending { AlreadyIn(Taken(c), h.lost, c.nextSid); }
    }
  }

  /** The id taken is no longer in flight or free, and nothing new is. */
  lemma AcquireApart(c: Core)
    requires Ids(c)
    ensures Taken(Acquire(c).0) <= Taken(c)
    ensures Acquire(c).1.Ok? ==> Acquire(c).1.value !in Taken(Acquire(c).0)
  {
    AcquireFresh(c);
    var got := Acquire(c).0;
    assert got.free <= c.free;
    assert Set(got.free) <= Set(c.free);
  }

  lemma TakenFree(c: Core)
    requires c.free != []
    ensures Acquire(c).1.Ok? && Taken(Acquire(c).0) + {Acquire(c).1.value} == Taken(c)
  {
    SetFront(c.free);
    hide Set;
  }

  lemma TakenNext(c: Core)
    requires c.free == []
    ensures Taken(Acquire(c).0) == Taken(c) == c.pending.Keys
  {
    assert Set(c.free) == {};
  }

  lemma Swap(a: set<nat>, b: set<nat>, c: set<nat>)
    ensures a + b + c == a + c + b
  {
  }

  lemma AlreadyIn(a: set<nat>, b: set<nat>, x: nat)
    requires x in a
    ensures a + {} + b == a + b == a + b + {x}
  {
  }

  lemma IssuedNext(wrapped: bool, next: nat, issued: set<nat>)
    requires InSpace(next) && issued == Issued(wrapped, next)
    ensures issued + {next} == if next == LAST_SID then Issued(true, FIRST_SID) else Issued(wrapped, next + 1)
  {
  }

  /** Ids run out only when the counter has been round and none is free. */
  lemma ExhaustedMeans(c: Core, h: History)
    requires Ids(c) && Space(c, h) && Acquire(c).1.Err?
    ensures c.free == [] && h.wrapped && c.pending.Keys + h.lost == Range(FIRST_SID, LAST_SID + 1)
  {
    assert Set([]) == {};
    assert c.nextSid in Taken(c);
  }

  // ----- all laws together, along a parse -----

  ghost predicate Laws(c: Core, h: History) { Sound(c, h) && Opening(c, h) && Signing(c, h) && Space(c, h) }

  /** The fields of the history that are about ids, signatures and the control link. */
  ghost predicate SameBook(h: History, g: History) {
    && g.drained == h.drained && g.seqnos == h.seqnos && g.wrapped == h.wrapped && g.lost == h.lost
    && g.refused == h.refused
  }

  lemma TellBook(h: History, e: Event)
    ensures SameBook(h, Tell(h, e))
    ensures !e.NowReady? ==> Tell(h, e).readies == h.readies
  {
  }

  lemma SteadyTold(c: Core, h: History, d: Core)
    requires Steady(c, d)
    ensures c.events <= d.events && SameBook(h, After(h, c, d)) && After(h, c, d).readies == h.readies
  {
    hide After, Tell, Taken;
    if d.events == c.events {
      AfterSame(h, c, d);
    } else {
      assert d.events == c.events + [d.events[|c.events|]];
      AfterOne(h, c, d, d.events[|c.events|]);
      TellBook(h, d.events[|c.events|]);
    }
  }

  lemma CalmLaws(c: Core, h: History, d: Core, g: History)
    requires Laws(c, h) && Calm(c, d) && Sound(d, g) && SameBook(h, g) && g.readies == h.readies
    ensures Laws(d, g)
  {
    CalmOpening(c, h, d, g);
    hide Opening, Sound, Taken, Range;
  }

  lemma BringUpSigning(c: Core, h: History, status: nat, body: bytes)
    requires Signing(c, h) && c.signer == None && InBringUp(c.phase)
    ensures Signing(BringUp(c, status, body).0, h)
  {
    hide NextCredential, ParseProtocol, FrameOf, UntilNul, DemandsTls, HasTls;
    if c.phase == Auth { NextCredentialOnly(c); }
    if c.phase == Login { NextCredentialOnly(c.(sessionId := Slice(body, 0, 16)).(phase := Auth)); }
  }

  lemma BringUpLaws(c: Core, h: History, status: nat, body: bytes)
    requires Laws(c, h) && InBringUp(c.phase)
    ensures var d := BringUp(c, status, body).0; c.events <= d.events && Laws(d, After(h, c, d))
  {
    assert c.signer == None;
    BringUpSigning(c, h, status, body);
    hide BringUp, Opening, Sound, After, Signing, OnlySession, Space;
    var d := BringUp(c, status, body).0;
    var n := if d.phase == Ready then 1 else 0;
    BringUpOnly(c, status, body);
    OnlySessionFacts(c, d, n);
    OnlySessionSound(c, h, d, n);
    BringUpOpening(c, h, status, body);
    SigningReadies(d, h, h.readies + n);
    SpaceSame(c, h, d, h.readies + n);
  }

  lemma SpaceSame(c: Core, h: History, d: Core, n: nat)
    requires Space(c, h) && c.phase != Closed && d.pending == c.pending && d.free == c.free && d.nextSid == c.nextSid
    ensures Space(d, h.(readies := n))
  {
  }

  lemma OnlySessionFacts(c: Core, d: Core, ready: nat)
    requires OnlySession(c, d, ready)
    ensures c.events <= d.events && d.pending == c.pending && d.free == c.free && d.nextSid == c.nextSid
  {
  }

  lemma SigningReadies(c: Core, h: History, n: nat)
    requires Signing(c, h)
    ensures Signing(c, h.(readies := n))
  {
  }

  lemma MoveLaws(c: Core, h: History, f: Framer)
    requires Laws(c, h) && MoveOf(c, f) != Wait
    ensures var d := MoveOf(c, f).core; c.events <= d.events && Laws(d, After(h, c, d))
  {
    hide MoveOf, BringUp, Opening, Accounted, Ids, After, Signing, Space, Steady;
    var d := MoveOf(c, f).core;
    MoveSound(c, h, f);
    MoveOrdinary(c, f);
    if Steady(c, d) {
      SteadyTold(c, h, d);
      SteadyIsCalm(c, d);
      CalmLaws(c, h, d, After(h, c, d));
    } else {
      var status, body :| d == BringUp(c, status, body).0;
      BringUpLaws(c, h, status, body);
    }
  }

  lemma {:induction false} ParseLaws(c: Core, h: History, f: Framer)
    requires Laws(c, h)
    ensures var d := Parse(c, f).core; c.events <= d.events && Laws(d, After(h, c, d))
    decreases |f.buffer|, Rank(f)
  {
    hide After, Laws, MoveOf;
    var m := MoveOf(c, f);
    AfterSame(h, c, c);
    if m != Wait {
      MoveLaws(c, h, f);
      if m.Go? {
        Framing.MoveShrinks(c, f);
        ParseLaws(m.core, After(h, c, m.core), m.framer);
        AfterTwo(h, c, m.core, Parse(c, f).core);
      }
    }
  }
}
