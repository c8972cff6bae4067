/** The session machine as the source keeps it: one object whose methods update its fields.
    Every public method does what the call of the value model does, and the object keeps
    being the machine of the run its calls make up, so that whatever holds of every run of
    the model holds of the object after any sequence of calls. */
module SessionMachine {
  import opened Octets
  import opened Frames
  import opened Session
  import Safety = SessionSafety
  import Framing

  class SessionMachine {
    const cfg: Config
    const hmac: Hmac
    var phase: Phase
    var info: ProtocolInfo
    var sessionId: bytes
    var mechanism: bytes
    var signer: Option<Signer>
    var tlsActive: bool
    var boundPath: nat
    var out: bytes
    var outPath: map<nat, bytes>
    var events: seq<Event>
    var pending: map<nat, Pending>
    var order: seq<nat>
    var free: seq<nat>
    var nextSid: nat
    var framers: map<nat, Framer>
    var ladder: seq<Credential>
    var credential: Option<Credential>

    /** The mechanisms at the start, and the calls made so far. */
    ghost const opening: seq<Credential>
    ghost var calls: seq<Safety.Call>

    /** Everything but the framers, as a value. */
    ghost function Now(): Core
      reads this
    {
      Core(cfg, phase, info, sessionId, mechanism, signer, tlsActive, boundPath, out, outPath, events,
           pending, order, free, nextSid, ladder, credential)
    }

    ghost function View(): Machine
      reads this
    {
      Machine(Now(), framers)
    }

    /** The object is the machine of the run its calls make up. */
    ghost predicate Valid()
      reads this
    {
      View() == Safety.Run(cfg, opening, hmac, calls).machine
    }

    constructor (cfg: Config, ladder: seq<Credential>, hmac: Hmac)
      ensures View() == Initial(cfg, ladder) && this.hmac == hmac && Valid() && calls == []
    {
      this.cfg := cfg;
      this.hmac := hmac;
      phase, info, sessionId, mechanism, signer, tlsActive, boundPath := New, NO_INFO, [], [], None, false, 0;
      out, outPath, events := [], map[], [];
      pending, order, free, nextSid := map[], [], [], FIRST_SID;
      framers := map[0 := FRESH_FRAMER];
      this.ladder, credential := ladder, None;
      opening, calls := ladder, [];
    }

    // ----- outbound -----

    method Start() returns (raised: Option<Raise>)
      requires Valid()
      modifies this`out, this`phase, this`calls
      ensures Valid() && calls == old(calls) + [Safety.Start]
      ensures View() == Safety.Do(old(View()), hmac, Safety.Start)
      ensures raised == Session.Start(old(Now())).1
    {
      Safety.RunNext(cfg, opening, hmac, calls, Safety.Start);
      hide Safety.Run;
      calls := calls + [Safety.Start];
      if phase != New { return Some(WrongPhase); }
      out := out + (HANDSHAKE + FrameOf(ProtocolRequest(cfg.wantTls), SID_PROTOCOL));
      phase := Handshake;
      raised := None;
    }

    method DataToSend() returns (data: bytes)
      requires Valid()
      modifies this`out, this`calls
      ensures Valid() && calls == old(calls) + [Safety.Drain]
      ensures View() == Safety.Do(old(View()), hmac, Safety.Drain)
      ensures data == old(out)
    {
      Safety.RunNext(cfg, opening, hmac, calls, Safety.Drain);
      hide Safety.Run;
      calls := calls + [Safety.Drain];
      data := out;
      out := [];
    }

    method PathDataToSend(pathid: nat) returns (data: bytes)
      requires Valid()
      modifies this`outPath, this`calls
      ensures Valid() && calls == old(calls) + [Safety.DrainPath(pathid)]
      ensures View() == Safety.Do(old(View()), hmac, Safety.DrainPath(pathid))
      ensures data == old(if pathid in outPath then outPath[pathid] else [])
    {
      Safety.RunNext(cfg, opening, hmac, calls, Safety.DrainPath(pathid));
      hide Safety.Run;
      calls := calls + [Safety.DrainPath(pathid)];
      data := if pathid in outPath then outPath[pathid] else [];
      outPath := outPath - {pathid};
    }

    method Submit(request: Request, arrive: bool) returns (answer: Result<nat, Raise>)
      requires Valid()
      modifies this`signer, this`pending, this`order, this`outPath, this`out, this`free, this`nextSid, this`calls
      ensures Valid() && calls == old(calls) + [Safety.Submit(request, arrive)]
      ensures View() == Safety.Do(old(View()), hmac, Safety.Submit(request, arrive))
      ensures answer == Session.Submit(old(Now()), hmac, request, arrive).1
    {
      Safety.RunNext(cfg, opening, hmac, calls, Safety.Submit(request, arrive));
      hide Safety.Run;
      calls := calls + [Safety.Submit(request, arrive)];
      hide Session.Send, Session.Acquire, Encodable;
      if phase != Ready { return Err(WrongPhase); }
      answer := AcquireSid();
      if answer.Err? { return; }
      if !Encodable(request) { return Err(NotEncodable); }
      SendRequest(request, answer.value, arrive);
    }

    method Resume(sid: nat) returns (raised: Option<Raise>)
      requires Valid()
      modifies this`out, this`outPath, this`calls
      ensures Valid() && calls == old(calls) + [Safety.Resume(sid)]
      ensures View() == Safety.Do(old(View()), hmac, Safety.Resume(sid))
      ensures raised == Session.Resume(old(Now()), sid).1
    {
      Safety.RunNext(cfg, opening, hmac, calls, Safety.Resume(sid));
      hide Safety.Run;
      calls := calls + [Safety.Resume(sid)];
      if sid !in pending { return Some(NotWaiting); }
      var p := pending[sid];
      out := out + p.frame;
      if p.pathBytes != [] { Extend(p.pathid, p.pathBytes); }
      raised := None;
    }

    method Release(sid: nat)
      requires Valid()
      modifies this`pending, this`order, this`free, this`calls
      ensures Valid() && calls == old(calls) + [Safety.Release(sid)]
      ensures View() == Safety.Do(old(View()), hmac, Safety.Release(sid))
    {
      Safety.RunNext(cfg, opening, hmac, calls, Safety.Release(sid));
      hide Safety.Run;
      calls := calls + [Safety.Release(sid)];
      Abandon(sid);
    }

    method Abandon(sid: nat)
      modifies this`pending, this`order, this`free
      ensures Now() == Session.Release(old(Now()), sid)
    {
      if sid in pending {
        pending := pending - {sid};
        order := Without(order, sid);
        if sid >= FIRST_SID { free := free + [sid]; }
      }
    }

    method Close(graceful: bool) returns (raised: Option<Raise>)
      requires Valid()
      modifies this`out, this`phase, this`events, this`free, this`nextSid, this`calls
      ensures Valid() && calls == old(calls) + [Safety.Close(graceful)]
      ensures View() == Safety.Do(old(View()), hmac, Safety.Close(graceful))
      ensures raised == Session.Close(old(Now()), graceful).1
    {
      Safety.RunNext(cfg, opening, hmac, calls, Safety.Close(graceful));
      hide Safety.Run, Session.Close;
      calls := calls + [Safety.Close(graceful)];
      raised := EndSession(graceful);
    }

    method EndSession(graceful: bool) returns (raised: Option<Raise>)
      modifies this`out, this`phase, this`events, this`free, this`nextSid
      ensures (Now(), raised) == Session.Close(old(Now()), graceful)
    {
      hide Session.Acquire, FrameOf;
      if phase == Ready && graceful && sessionId != [] {
        Safety.AcquireKeeps(Now());
        var sid := AcquireSid();
        if sid.Err? { return Some(sid.error); }
        out := out + FrameOf(EndSessionRequest(sessionId), sid.value);
      }
      phase := Closed;
      events := events + [Disconnected(false)];
      raised := None;
    }

    method TlsEstablished() returns (raised: Option<Raise>)
      requires Valid()
      modifies this`tlsActive, this`phase, this`out, this`calls
      ensures Valid() && calls == old(calls) + [Safety.TlsEstablished]
      ensures View() == Safety.Do(old(View()), hmac, Safety.TlsEstablished)
      ensures raised == Session.TlsEstablished(old(Now())).1
    {
      Safety.RunNext(cfg, opening, hmac, calls, Safety.TlsEstablished);
      hide Safety.Run, Session.BeginLogin;
      calls := calls + [Safety.TlsEstablished];
      if phase != Tls { return Some(WrongPhase); }
      tlsActive := true;
      BeginLogin();
      raised := None;
    }

    method AcquireSid() returns (answer: Result<nat, Raise>)
      modifies this`free, this`nextSid
      ensures (Now(), answer) == Session.Acquire(old(Now()))
    {
      if free != [] {
        answer := Ok(free[|free| - 1]);
        free := free[..|free| - 1];
        return;
      }
      var sid := nextSid;
      nextSid := nextSid + 1;
      if nextSid > LAST_SID { nextSid := FIRST_SID; }
      if sid in pending { return Err(Exhausted); }
      answer := Ok(sid);
    }

    /** Adds to what is queued for a data path. */
    method Extend(pathid: nat, data: bytes)
      modifies this`outPath
      ensures Now() == QueuePath(old(Now()), pathid, data)
    {
      if pathid !in outPath { outPath := outPath[pathid := []]; }
      outPath := outPath[pathid := outPath[pathid] + data];
    }

    /** `Signer.sign`: the next number is used up only where the request is covered. */
    method Sign(request: Request, sid: nat) returns (frame: bytes)
      requires Encodable(request)
      modifies this`signer
      ensures frame == Signed(old(Now()), hmac, request, sid)
      ensures signer == SignerAfter(old(Now()), request)
    {
      SignedIs(Now(), hmac, request, sid);
      hide FrameOf, SigverRequest, SignedRegion, Covers, U16, Signed, Encodable;
      frame := FrameOf(request, sid);
      if signer == None { return; }
      var s := signer.value;
      if !Covers(s, U16(frame, 2)) { return; }
      var mac := hmac(s.key, SignedRegion(frame, s.seqno + 1));
      frame := FrameOf(SigverRequest(request.opcode, s.seqno + 1, mac), sid) + frame;
      signer := Some(s.(seqno := s.seqno + 1));
    }

    method SendRequest(request: Request, sid: nat, arrive: bool)
      requires Encodable(request)
      modifies this`signer, this`pending, this`order, this`outPath, this`out
      ensures Now() == Session.Send(old(Now()), hmac, request, sid, arrive)
    {
      hide Signed, SignerAfter;
      var frame := Sign(request, sid);
      pending := pending[sid := Pending(request, frame, [], None, request.pathid, request.pathData)];
      order := order + [sid];
      if arrive && request.pathid != 0 {
        Extend(request.pathid, frame + request.pathData);
        return;
      }
      out := out + frame;
      if request.pathData != [] { Extend(request.pathid, request.pathData); }
    }

    // ----- inbound -----

    /** Bytes off one link; no bytes are its end. */
    method ReceiveData(data: bytes, link: nat) returns (raised: Option<Raise>)
      requires Valid()
      modifies this
      ensures Valid() && calls == old(calls) + [Safety.Receive(data, link)]
      ensures View() == Safety.Do(old(View()), hmac, Safety.Receive(data, link))
      ensures raised == Session.Receive(old(View()), data, link).1
    {
      Safety.RunNext(cfg, opening, hmac, calls, Safety.Receive(data, link));
      hide Safety.Run, Session.Receive;
      calls := calls + [Safety.Receive(data, link)];
      raised := Take(data, link);
    }

    method Take(data: bytes, link: nat) returns (raised: Option<Raise>)
      modifies this
      ensures View() == Session.Receive(old(View()), data, link).0 && calls == old(calls)
      ensures raised == Session.Receive(old(View()), data, link).1
    {
      hide Session.OnEof, Session.OnPathEof, Session.Parse;
      if link !in framers { framers := framers[link := FRESH_FRAMER]; }
      assert framers == old(framers)[link := FramerOf(old(View()), link)];
      raised := None;
      if data == [] {
        if link == 0 { OnEof(); } else { OnPathEof(link); }
        return;
      }
      framers := framers[link := framers[link].(buffer := framers[link].buffer + data)];
      raised := Parse(link);
    }

    method NextEvent() returns (e: Option<Event>)
      requires Valid()
      modifies this`events, this`calls
      ensures Valid() && calls == old(calls) + [Safety.NextEvent]
      ensures View() == Safety.Do(old(View()), hmac, Safety.NextEvent)
      ensures e == if old(events) == [] then None else Some(old(events)[0])
    {
      Safety.RunNext(cfg, opening, hmac, calls, Safety.NextEvent);
      hide Safety.Run;
      calls := calls + [Safety.NextEvent];
      if events == [] { return None; }
      e := Some(events[0]);
      events := events[1..];
    }

    method OnEof()
      modifies this`phase, this`events, this`pending, this`order
      ensures Now() == Session.OnEof(old(Now()))
    {
      if phase == Closed || phase == Failed { return; }
      phase := Closed;
      FailStreams(order, PeerClosed);
      pending, order := map[], [];
      events := events + [Disconnected(true)];
    }

    /** A failure event for each of some streams. */
    method FailStreams(sids: seq<nat>, why: Reason)
      modifies this`events
      ensures Now() == EmitFailures(old(Now()), sids, why)
    {
      for i := 0 to |sids|
        invariant Now() == EmitFailures(old(Now()), sids[..i], why)
        invariant pending == old(pending)
      {
        assert sids[..i + 1][..i] == sids[..i];
        if sids[i] in pending {
          events := events + [StreamFailed(sids[i], pending[sids[i]].request, why)];
        }
      }
      assert sids[..|sids|] == sids;
    }

    /** The streams waiting on a data path, as the source selects them in its loops. */
    method StreamsOn(pathid: nat) returns (sids: seq<nat>)
      ensures sids == OnPath(order, pending, pathid)
    {
      sids := [];
      for i := 0 to |order|
        invariant sids == OnPath(order[..i], pending, pathid)
      {
        OnPathSnoc(order[..i], order[i], pending, pathid);
        assert order[..i + 1] == order[..i] + [order[i]];
        if order[i] in pending && pending[order[i]].pathid == pathid { sids := sids + [order[i]]; }
      }
      assert order[..|order|] == order;
    }

    method ForgetPath(pathid: nat)
      requires Valid()
      modifies this`pending, this`order, this`free, this`framers, this`outPath, this`calls
      ensures Valid() && calls == old(calls) + [Safety.ForgetPath(pathid)]
      ensures View() == Safety.Do(old(View()), hmac, Safety.ForgetPath(pathid))
    {
      Safety.RunNext(cfg, opening, hmac, calls, Safety.ForgetPath(pathid));
      hide Safety.Run;
      calls := calls + [Safety.ForgetPath(pathid)];
      hide Session.DropPath;
      DropPath(pathid);
    }

    method DropPath(pathid: nat)
      modifies this`pending, this`order, this`free, this`framers, this`outPath
      ensures View() == Session.DropPath(old(View()), pathid)
    {
      hide Session.Release, OnPath;
      var sids := StreamsOn(pathid);
      for i := 0 to |sids|
        invariant Now() == ReleaseAll(old(Now()), sids[..i]) && framers == old(framers)
      {
        assert sids[..i + 1][..i] == sids[..i];
        Abandon(sids[i]);
      }
      assert sids[..|sids|] == sids;
      framers := framers - {pathid};
      outPath := outPath - {pathid};
    }

    method OnPathEof(pathid: nat)
      modifies this`pending, this`order, this`free, this`framers, this`outPath, this`events
      ensures View() == Session.OnPathEof(old(View()), pathid)
    {
      hide OnPath, ReleaseAll, EmitFailures;
      var sids := StreamsOn(pathid);
      FailStreams(sids, PathClosed(pathid));
      assert Now() == EmitFailures(old(Now()), sids, PathClosed(pathid));
      DropPath(pathid);
      events := events + [PathLost(pathid)];
    }

    method Parse(link: nat) returns (raised: Option<Raise>)
      requires link in framers
      modifies this
      ensures calls == old(calls)
      ensures var p := Session.Parse(old(Now()), old(framers[link]));
              Now() == p.core && framers == old(framers)[link := p.framer] && raised == p.raised
    {
      hide Session.Dispatch, StatusData, DecodeHeader, Front, Back, Session.Parse;
      ghost var whole := Session.Parse(Now(), framers[link]);
      while true
        invariant link in framers && calls == old(calls)
        invariant whole == Session.Parse(Now(), framers[link])
        invariant framers == old(framers)[link := framers[link]]
        decreases |framers[link].buffer|, Rank(framers[link])
      {
        var f := framers[link];
        Framing.ParseStep(Now(), f);
        if f.needTrailer != 0 {
          if |f.buffer| < f.needTrailer { return None; }
          var trailer := Front(f.buffer, f.needTrailer);
          framers := framers[link := f.(buffer := Back(f.buffer, f.needTrailer), needTrailer := 0, trailerFor := None)];
          if f.trailerFor == None { return Some(Malformed); }
          BackShorter(f.buffer, f.needTrailer);
          OnStatusData(f.trailerFor.value, trailer);
          continue;
        }
        if f.header == None {
          if |f.buffer| < RESPONSE_HDRLEN { return None; }
          var header := DecodeHeader(f.buffer[..RESPONSE_HDRLEN]);
          if header == None { return Some(Malformed); }
          f := f.(header := header, buffer := f.buffer[RESPONSE_HDRLEN..]);
          framers := framers[link := f];
          Framing.ParseStep(Now(), f);
        }
        var header := f.header.value;
        if |f.buffer| < header.dlen { return None; }
        var body := f.buffer[..header.dlen];
        framers := framers[link := f.(buffer := f.buffer[header.dlen..], header := None)];
        raised := Dispatch(header, body, link);
        if raised != None { return; }
      }
    }

    // ----- dispatch -----

    /** The framer once a dispatched response announced its trailer. */
    ghost function Announced(f: Framer, d: Dispatched): Framer {
      if d.need != 0 then f.(needTrailer := d.need, trailerFor := d.owner) else f
    }

    method Dispatch(header: Header, body: bytes, link: nat) returns (raised: Option<Raise>)
      requires link in framers
      modifies this
      ensures calls == old(calls)
      ensures var d := Session.Dispatch(old(Now()), header, body);
              Now() == d.core && raised == d.raised && framers == old(framers)[link := Announced(old(framers[link]), d)]
    {
      hide Session.OnResponse, BringUp, DecodeHeader, Announced;
      assert framers == framers[link := framers[link]];
      Unannounced(framers[link]);
      var sid, status, data := header.streamid, header.status, body;
      if header.status == KXR_ATTN {
        if |body| < 4 { return Some(Malformed); }
        if I32(body, 0) == KXR_ASYNRESP && |body| >= 16 {
          var inner := DecodeHeader(body[8..16]);
          if inner == None { return Some(Malformed); }
          sid, status, data := inner.value.streamid, inner.value.status, body[16..];
        } else {
          events := events + [Attention(I32(body, 0), body[4..])];
          return None;
        }
      }
      if InBringUp(phase) {
        raised := Bringup(status, data);
        return;
      }
      if sid !in pending { return None; }
      raised := OnResponse(sid, status, data, link);
    }

    lemma Unannounced(f: Framer)
      ensures forall d: Dispatched :: d.need == 0 ==> Announced(f, d) == f
    {
    }

    method Bringup(status: nat, body: bytes) returns (raised: Option<Raise>)
      requires InBringUp(phase)
      modifies this`phase, this`info, this`events, this`boundPath, this`sessionId, this`ladder, this`credential,
               this`mechanism, this`out, this`signer
      ensures (Now(), raised) == BringUp(old(Now()), status, body)
    {
      if status != KXR_OK && status != KXR_AUTHMORE { BringUpRefused(Now(), status, body); }
      hide BringUp;
      if status == KXR_ERROR {
        if |body| < 4 { return Some(Malformed); }
        Fail(ServerSaid(body));
        return None;
      }
      if status != KXR_OK && status != KXR_AUTHMORE {
        Fail(UnexpectedStatus(status));
        return None;
      }
      raised := Advance(status, body);
    }

    /** The next step of bring-up once a response is known to be a good one. */
    method Advance(status: nat, body: bytes) returns (raised: Option<Raise>)
      requires InBringUp(phase) && (status == KXR_OK || status == KXR_AUTHMORE)
      modifies this`phase, this`info, this`events, this`boundPath, this`sessionId, this`ladder, this`credential,
               this`mechanism, this`out, this`signer
      ensures (Now(), raised) == BringUp(old(Now()), status, body)
    {
      hide BringUp, Session.AuthStep, Session.BecomeReady;
      raised := None;
      if phase == Handshake {
        AdvanceFrom(Now(), status, body);
        phase := Protocol;
      } else if phase == Protocol {
        raised := Negotiate(status, body);
      } else if phase == Bind {
        raised := Joined(status, body);
      } else if phase == Login {
        LoggedIn(status, body);
      } else {
        AdvanceFrom(Now(), status, body);
        if status == KXR_AUTHMORE { AuthStep(); } else { BecomeReady(); }
      }
    }

    method Negotiate(status: nat, body: bytes) returns (raised: Option<Raise>)
      requires phase == Protocol && (status == KXR_OK || status == KXR_AUTHMORE)
      modifies this`info, this`events, this`phase, this`out
      ensures (Now(), raised) == BringUp(old(Now()), status, body)
    {
      hide ParseProtocol, Session.AfterProtocol;
      var parsed := ParseProtocol(body);
      if parsed == None { return Some(Malformed); }
      info := parsed.value;
      events := events + [Negotiated(info)];
      AfterProtocol();
      raised := None;
    }

    method Joined(status: nat, body: bytes) returns (raised: Option<Raise>)
      requires phase == Bind && (status == KXR_OK || status == KXR_AUTHMORE)
      modifies this`boundPath, this`phase, this`signer, this`events
      ensures (Now(), raised) == BringUp(old(Now()), status, body)
    {
      hide Session.BecomeReady;
      if body == [] || body[0] == 0 { return Some(Malformed); }
      boundPath := body[0] as nat;
      BecomeReady();
      raised := None;
    }

    method LoggedIn(status: nat, body: bytes)
      requires phase == Login && (status == KXR_OK || status == KXR_AUTHMORE)
      modifies this`sessionId, this`phase, this`signer, this`events, this`ladder, this`credential, this`mechanism,
               this`out
      ensures (Now(), None) == BringUp(old(Now()), status, body)
    {
      LoginIs(Now(), status, body);
      hide Session.NextCredential, Session.BecomeReady, UntilNul, Slice, BringUp;
      sessionId := Slice(body, 0, 16);
      if UntilNul(Slice(body, 16, |body|)) == [] {
        BecomeReady();
      } else {
        phase := Auth;
        NextCredential();
      }
    }

    method AfterProtocol()
      modifies this`phase, this`events, this`out
      ensures Now() == Session.AfterProtocol(old(Now()))
    {
      hide DemandsTls, HasTls, Session.BeginLogin;
      var demanded := DemandsTls(info);
      if cfg.wantTls || demanded {
        if !HasTls(info) {
          Fail(TlsUnavailable);
          return;
        }
        phase := Tls;
        events := events + [NeedTls(demanded)];
        return;
      }
      BeginLogin();
    }

    method BeginLogin()
      modifies this`phase, this`out
      ensures Now() == Session.BeginLogin(old(Now()))
    {
      hide FrameOf;
      if cfg.bindTo != [] {
        phase := Bind;
        out := out + FrameOf(BindRequest(cfg.bindTo), SID_BIND);
        return;
      }
      phase := Login;
      out := out + FrameOf(cfg.login, SID_LOGIN);
    }

    method NextCredential()
      modifies this`ladder, this`credential, this`mechanism, this`out, this`phase, this`events
      ensures Now() == Session.NextCredential(old(Now()))
    {
      hide FrameOf, AuthRequest, Session.NextCredential;
      while ladder != []
        invariant Session.NextCredential(Now()) == Session.NextCredential(old(Now()))
        decreases |ladder|
      {
        NextCredentialStep(Now());
        var cred := ladder[0];
        ladder := ladder[1..];
        if cred.initial == None { continue; }
        Offer(cred, cred.initial.value);
        return;
      }
      NextCredentialStep(Now());
      Fail(NoMechanism);
    }

    /** Opens an exchange with a mechanism. */
    method Offer(cred: Credential, blob: Blob)
      modifies this`credential, this`mechanism, this`out
      ensures Now() == Session.Queue(old(Now()).(credential := Some(cred), mechanism := cred.name),
                                     FrameOf(AuthRequest(cred.name, blob), SID_AUTH))
    {
      hide FrameOf, AuthRequest;
      credential, mechanism := Some(cred), cred.name;
      out := out + FrameOf(AuthRequest(cred.name, blob), SID_AUTH);
    }

    method AuthStep()
      modifies this`ladder, this`credential, this`mechanism, this`out, this`phase, this`events
      ensures Now() == Session.AuthStep(old(Now()))
    {
      hide FrameOf, AuthRequest, Session.NextCredential;
      if credential == None {
        Fail(NoExchangeOpen);
        return;
      }
      var cred := credential.value;
      if cred.answers == [] || cred.answers[0] == None {
        NextCredential();
        return;
      }
      credential := Some(cred.(answers := cred.answers[1..]));
      out := out + FrameOf(AuthRequest(cred.name, cred.answers[0].value), SID_AUTH);
    }

    method BecomeReady()
      modifies this`phase, this`signer, this`events
      ensures Now() == Session.BecomeReady(old(Now()))
    {
      phase := Ready;
      if credential != None && credential.value.key != [] {
        signer := Some(Signer(credential.value.key, info.level, info.overrides, 0));
      }
      events := events + [NowReady(sessionId, mechanism)];
    }

    method Fail(why: Reason)
      modifies this`phase, this`events
      ensures Now() == Session.Fail(old(Now()), why)
    {
      phase := Failed;
      events := events + [BringUpFailed(why)];
    }

    // ----- responses -----

    method OnResponse(sid: nat, status: nat, body: bytes, link: nat) returns (raised: Option<Raise>)
      requires sid in pending && link in framers
      modifies this`pending, this`order, this`free, this`events, this`framers
      ensures var d := Session.OnResponse(old(Now()), sid, status, body);
              Now() == d.core && raised == d.raised && framers == old(framers)[link := Announced(old(framers[link]), d)]
    {
      hide Session.Release, StatusData, ParseStatus, UntilNul, RedirectHost;
      assert framers == framers[link := framers[link]];
      var p := pending[sid];
      raised := None;
      if status == KXR_OK {
        Abandon(sid);
        events := events + [Completed(sid, p.request, p.buffer + body, p.status)];
      } else if status == KXR_OKSOFAR {
        pending := pending[sid := p.(buffer := p.buffer + body)];
        events := events + [Chunk(sid, p.request, body)];
      } else if status == KXR_ERROR {
        if |body| < 4 { return Some(Malformed); }
        Abandon(sid);
        events := events + [StreamFailed(sid, p.request, ServerSaid(body))];
      } else if status == KXR_REDIRECT {
        if |body| < 4 || RedirectHost(body[4..]) == [] { return Some(Malformed); }
        events := events + [Redirected(sid, p.request, I32(body, 0), UntilNul(body[4..]))];
      } else if status == KXR_WAIT {
        if |body| < 4 { return Some(Malformed); }
        var seconds := if I32(body, 0) < cfg.waitCap then I32(body, 0) else cfg.waitCap;
        events := events + [Waiting(sid, p.request, seconds, true)];
      } else if status == KXR_WAITRESP {
        if |body| < 4 { return Some(Malformed); }
        events := events + [Waiting(sid, p.request, I32(body, 0), false)];
      } else if status == KXR_STATUS {
        var parsed := ParseStatus(body);
        if parsed == None { return Some(Malformed); }
        pending := pending[sid := p.(status := parsed)];
        if parsed.value.dlen != 0 {
          framers := framers[link := framers[link].(needTrailer := parsed.value.dlen, trailerFor := Some(sid))];
        } else {
          OnStatusData(sid, []);
        }
      } else {
        Abandon(sid);
        events := events + [StreamFailed(sid, p.request, UnexpectedStatus(status))];
      }
    }

    method OnStatusData(sid: nat, data: bytes)
      modifies this`pending, this`order, this`free, this`events
      ensures Now() == StatusData(old(Now()), sid, data)
    {
      hide Session.Release;
      if sid !in pending || pending[sid].status == None { return; }
      var p := pending[sid];
      if IsFinal(p.status.value) {
        Abandon(sid);
        events := events + [Completed(sid, p.request, p.buffer + data, p.status)];
      } else {
        pending := pending[sid := p.(buffer := p.buffer + data)];
        events := events + [Chunk(sid, p.request, data)];
      }
    }
  }

  lemma {:induction false} OnPathSnoc(order: seq<nat>, sid: nat, pending: map<nat, Pending>, pathid: nat)
    ensures OnPath(order + [sid], pending, pathid) ==
            OnPath(order, pending, pathid) + (if sid in pending && pending[sid].pathid == pathid then [sid] else [])
    decreases |order|
  {
    if order != [] {
      assert (order + [sid])[1..] == order[1..] + [sid];
      OnPathSnoc(order[1..], sid, pending, pathid);
    }
  }

  lemma BackShorter(b: bytes, n: int)
    requires n <= |b|
    ensures |Back(b, n)| <= |b|
  {
  }

  lemma NextCredentialStep(c: Core)
    ensures Session.NextCredential(c) ==
            if c.ladder == [] then Session.Fail(c, NoMechanism)
            else
              var cred, rest := c.ladder[0], c.(ladder := c.ladder[1..]);
              if cred.initial == None then Session.NextCredential(rest)
              else Session.Queue(rest.(credential := Some(cred), mechanism := cred.name),
                FrameOf(AuthRequest(cred.name, cred.initial.value), SID_AUTH))
  {
    hide FrameOf;
  }

  lemma BringUpRefused(c: Core, status: nat, body: bytes)
    requires status != KXR_OK && status != KXR_AUTHMORE
    ensures BringUp(c, status, body) ==
            if status != KXR_ERROR then (Session.Fail(c, UnexpectedStatus(status)), None)
            else if |body| < 4 then (c, Some(Malformed)) else (Session.Fail(c, ServerSaid(body)), None)
  {
  }

  lemma AdvanceFrom(c: Core, status: nat, body: bytes)
    requires status == KXR_OK || status == KXR_AUTHMORE
    ensures c.phase == Handshake ==> BringUp(c, status, body) == (c.(phase := Protocol), None)
    ensures c.phase == Auth ==>
              BringUp(c, status, body) == (if status == KXR_AUTHMORE then Session.AuthStep(c)
                else Session.BecomeReady(c), None)
  {
    hide Session.AuthStep, Session.BecomeReady, ParseProtocol, UntilNul;
  }

  lemma LoginIs(c: Core, status: nat, body: bytes)
    requires c.phase == Login && (status == KXR_OK || status == KXR_AUTHMORE)
    ensures var named := c.(sessionId := Slice(body, 0, 16));
            BringUp(c, status, body) ==
            (if UntilNul(Slice(body, 16, |body|)) == [] then Session.BecomeReady(named)
             else Session.NextCredential(named.(phase := Auth)), None)
  {
    hide Session.NextCredential, Session.BecomeReady, UntilNul, Slice;
  }
}
