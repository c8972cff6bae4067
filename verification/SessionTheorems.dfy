/** What the laws of a run mean to the session's driver. Each lemma ranges over every run:
    any configuration, any mechanisms, any calls in any order, any bytes from the peer. */
module SessionTheorems {
  import opened Octets
  import opened Frames
  import opened Session
  import opened SessionRuns
  import opened SessionLaws
  import S = SessionSafety
  import Framing

  // ----- stream ids -----

  /** An id handed out is in 4..65535 and not in flight; ids in flight and free ids are
      disjoint, without duplicates and in the same range. */
  lemma IdsAreFresh(cfg: Config, ladder: seq<Credential>, hmac: Hmac, calls: seq<S.Call>, r: Request, arrive: bool)
    ensures var c := S.Run(cfg, ladder, hmac, calls).machine.core;
            && (forall sid | sid in c.pending :: 4 <= sid <= 65535)
            && (forall i | 0 <= i < |c.free| :: 4 <= c.free[i] <= 65535 && c.free[i] !in c.pending)
            && (forall i, j | 0 <= i < j < |c.free| :: c.free[i] != c.free[j])
            && var answer := Submit(c, hmac, r, arrive).1;
            (answer.Ok? ==> 4 <= answer.value <= 65535 && answer.value !in c.pending)
  {
    S.RunLaws(cfg, ladder, hmac, calls);
    hide S.Run, Opening, Signing, Space, Accounted, Send, Encodable;
    AcquireFresh(S.Run(cfg, ladder, hmac, calls).machine.core);
  }

  // ----- accounting -----

  /** Submissions == terminal events + abandoned streams + streams in flight; the
      submissions with a terminal event are as many as the events, so none had two; and no
      stream event was ever for a stream not in flight. */
  lemma Conservation(cfg: Config, ladder: seq<Credential>, hmac: Hmac, calls: seq<S.Call>)
    ensures var w := S.Run(cfg, ladder, hmac, calls);
            var h := w.history;
            && h.submitted == h.endings + |h.abandoned| + |w.machine.core.pending|
            && |h.ended| == h.endings
            && h.ended !! h.abandoned
            && (forall sid | sid in w.machine.core.pending ::
                  sid in h.owner && h.owner[sid] !in h.ended && h.owner[sid] !in h.abandoned)
            && h.orphans == 0
  {
    S.RunLaws(cfg, ladder, hmac, calls);
    hide S.Run, Opening, Signing, Space, Ids;
    var w := S.Run(cfg, ladder, hmac, calls);
    assert |w.history.owner| == |w.history.owner.Keys| && |w.machine.core.pending| == |w.machine.core.pending.Keys|;
  }

  // ----- contents -----

  /** The data a response itself carries for its stream. */
  function InFrame(status: nat, body: bytes): bytes { if status == KXR_OK || status == KXR_OKSOFAR then body else [] }

  /** The same, of a response that may be wrapped in another. */
  function Carried(h: Header, body: bytes): bytes {
    var (status, inner) :=
      if h.status == KXR_ATTN && |body| >= 16 && DecodeHeader(body[8..16]) != None
      then (DecodeHeader(body[8..16]).value.status, body[16..]) else (h.status, body);
    InFrame(status, inner)
  }

  /** The data the parser's next move delivers: a status trailer, or a frame's own. */
  function Delivered(f: Framer): bytes {
    if f.needTrailer != 0 then (if |f.buffer| < f.needTrailer then [] else Front(f.buffer, f.needTrailer))
    else if f.header == None || |f.buffer| < f.header.value.dlen then []
    else Carried(f.header.value, f.buffer[..f.header.value.dlen])
  }

  /** Every completion a step makes is its stream's chunks so far and then `data`, and every
      chunk is `data`. */
  ghost predicate CompletesWith(h: History, c: Core, d: Core, data: bytes) {
    && c.events <= d.events
    && forall i | |c.events| <= i < |d.events| ::
         && (d.events[i].Completed? ==> d.events[i].sid in h.got && d.events[i].data == h.got[d.events[i].sid] + data)
         && (d.events[i].Chunk? ==> d.events[i].sid in h.got && d.events[i].data == data)
  }

  lemma StatusDataCompletes(c: Core, h: History, sid: nat, data: bytes)
    requires Told(c, h)
    ensures CompletesWith(h, c, StatusData(c, sid, data), data)
  {
    hide Without;
  }

  lemma OnResponseCompletes(c: Core, h: History, sid: nat, status: nat, body: bytes)
    requires Told(c, h) && sid in c.pending
    ensures var d := OnResponse(c, sid, status, body).core;
            CompletesWith(h, c, d, InFrame(status, body))
  {
    hide Without, StatusData, ParseStatus, UntilNul, RedirectHost;
    if status == KXR_STATUS && ParseStatus(body) != None {
      var noted := c.(pending := c.pending[sid := c.pending[sid].(status := Some(ParseStatus(body).value))]);
      assert noted.pending.Keys == c.pending.Keys;
      assert Told(noted, h);
      StatusDataCompletes(noted, h, sid, []);
    }
  }

  lemma RouteCompletes(c: Core, h: History, sid: nat, status: nat, body: bytes)
    requires Told(c, h)
    ensures CompletesWith(h, c, Route(c, sid, status, body).core, InFrame(status, body))
  {
    hide Told, OnResponse, BringUp, OnlySession;
    if InBringUp(c.phase) {
      var d := BringUp(c, status, body).0;
      BringUpOnly(c, status, body);
      SessionCompletes(c, h, d, if d.phase == Ready then 1 else 0, InFrame(status, body));
    } else if sid in c.pending {
      OnResponseCompletes(c, h, sid, status, body);
    }
  }

  lemma SessionCompletes(c: Core, h: History, d: Core, ready: nat, data: bytes)
    requires OnlySession(c, d, ready)
    ensures CompletesWith(h, c, d, data)
  {
  }

  /** Whenever a stream completes, its data is its chunks so far, in order, and then what
      the last response carries, for frames and status trailers alike. */
  lemma MoveCompletes(c: Core, h: History, f: Framer)
    requires Told(c, h) && MoveOf(c, f) != Wait
    ensures CompletesWith(h, c, MoveOf(c, f).core, Delivered(f))
  {
    hide Told, StatusData, Route, DecodeHeader, Front, Back;
    if f.needTrailer != 0 {
      if f.trailerFor != None { StatusDataCompletes(c, h, f.trailerFor.value, Front(f.buffer, f.needTrailer)); }
    } else if f.header != None {
      var hdr, body := f.header.value, f.buffer[..f.header.value.dlen];
      DispatchCompletes(c, h, hdr, body);
      hide Dispatch, CompletesWith, Carried;
    }
  }

  lemma DispatchCompletes(c: Core, h: History, hdr: Header, body: bytes)
    requires Told(c, h)
    ensures CompletesWith(h, c, Dispatch(c, hdr, body).core, Carried(hdr, body))
  {
    hide Told, Route, DecodeHeader;
    if hdr.status != KXR_ATTN {
      RouteCompletes(c, h, hdr.streamid, hdr.status, body);
    } else if |body| >= 16 && DecodeHeader(body[8..16]) != None {
      var inner := DecodeHeader(body[8..16]).value;
      RouteCompletes(c, h, inner.streamid, inner.status, body[16..]);
    }
  }

  /** So it is at every move of a parse, each told of the events before it. */
  ghost predicate ParseWhole(c: Core, h: History, f: Framer)
    decreases |f.buffer|, Rank(f)
  {
    match MoveOf(c, f)
    case Wait => true
    case Throw(c', _, _) => CompletesWith(h, c, c', Delivered(f))
    case Go(c', f') => CompletesWith(h, c, c', Delivered(f)) && ParseWhole(c', After(h, c, c'), f')
  }

  lemma {:induction false} ParseIsWhole(c: Core, h: History, f: Framer)
    requires Laws(c, h)
    ensures ParseWhole(c, h, f)
    decreases |f.buffer|, Rank(f)
  {
    hide MoveOf, Delivered, CompletesWith, Ledger, Ids, Opening, Signing, Space, After;
    var m := MoveOf(c, f);
    if m != Wait {
      MoveCompletes(c, h, f);
      MoveLaws(c, h, f);
      if m.Go? {
        Framing.MoveShrinks(c, f);
        ParseIsWhole(m.core, After(h, c, m.core), m.framer);
      }
    }
  }

  ghost predicate NoneDelivered(c: Core, d: Core) {
    forall i | |c.events| <= i < |d.events| :: !d.events[i].Completed? && !d.events[i].Chunk?
  }

  /** Every completion and chunk of a call is made by a move of the parser, and is whole. */
  ghost predicate CallWhole(w: S.World, hmac: Hmac, call: S.Call) {
    if call.Receive? && call.data != [] then
      var f := FramerOf(w.machine, call.link);
      ParseWhole(w.machine.core, w.history, f.(buffer := f.buffer + call.data))
    else NoneDelivered(w.machine.core, S.Do(w.machine, hmac, call).core)
  }

  /** And so of every call of a run. */
  ghost predicate RunWhole(cfg: Config, ladder: seq<Credential>, hmac: Hmac, calls: seq<S.Call>) {
    calls == [] ||
    var before := calls[..|calls| - 1];
    RunWhole(cfg, ladder, hmac, before) && CallWhole(S.Run(cfg, ladder, hmac, before), hmac, calls[|calls| - 1])
  }

  lemma {:induction false} FailuresDeliverNothing(c: Core, sids: seq<nat>, why: Reason)
    ensures var d := EmitFailures(c, sids, why); c.events <= d.events && NoneDelivered(c, d)
    decreases |sids|
  {
    if sids != [] { FailuresDeliverNothing(c, sids[..|sids| - 1], why); }
  }

  lemma EofDelivers(c: Core)
    ensures NoneDelivered(c, OnEof(c))
  {
    FailuresDeliverNothing(c.(phase := Closed), c.order, PeerClosed);
    hide EmitFailures;
  }

  lemma {:induction false} ReleaseAllEvents(c: Core, sids: seq<nat>)
    ensures ReleaseAll(c, sids).events == c.events
    decreases |sids|
  {
    hide Release;
    if sids != [] {
      ReleaseAllEvents(c, sids[..|sids| - 1]);
      ReleaseEvents(ReleaseAll(c, sids[..|sids| - 1]), sids[|sids| - 1]);
    }
  }

  lemma PathEofDelivers(m: Machine, pathid: nat)
    ensures NoneDelivered(m.core, OnPathEof(m, pathid).core)
  {
    hide EmitFailures, ReleaseAll, OnPath;
    var sids := OnPath(m.core.order, m.core.pending, pathid);
    FailuresDeliverNothing(m.core, sids, PathClosed(pathid));
    var told := EmitFailures(m.core, sids, PathClosed(pathid));
    ReleaseAllEvents(told, OnPath(told.order, told.pending, pathid));
  }

  lemma CallIsWhole(w: S.World, hmac: Hmac, call: S.Call)
    requires Laws(w.machine.core, w.history)
    ensures CallWhole(w, hmac, call)
  {
    hide Laws, ParseWhole, Submit, Acquire, DropPath, OnPathEof, OnEof, Parse;
    var m, h := w.machine, w.history;
    match call
    case Submit(r, arrive) => S.SubmitEvents(m.core, hmac, r, arrive);
    case ForgetPath(p) => S.DropPathEvents(m, h, p);
    case Close(_) => S.AcquireKeeps(m.core);
    case Receive(data, link) =>
      var f := FramerOf(m, link);
      if data != [] {
        ParseIsWhole(m.core, h, f.(buffer := f.buffer + data));
      } else if link == 0 {
        EofDelivers(m.core);
      } else {
        PathEofDelivers(m.(framers := m.framers[link := f]), link);
      }
    case _ =>
  }

  /** Over every run: every completion there ever was carries exactly its stream's chunks,
      joined in order, and then the data of the response or trailer that completed it. */
  lemma {:induction false} CompletionsAreWhole(cfg: Config, ladder: seq<Credential>, hmac: Hmac, calls: seq<S.Call>)
    ensures RunWhole(cfg, ladder, hmac, calls)
    decreases |calls|
  {
    if calls != [] {
      var before := calls[..|calls| - 1];
      CompletionsAreWhole(cfg, ladder, hmac, before);
      S.RunLaws(cfg, ladder, hmac, before);
      hide S.Run, CallWhole, Laws;
      CallIsWhole(S.Run(cfg, ladder, hmac, before), hmac, calls[|calls| - 1]);
    }
  }

  // ----- what one response does to its stream -----

  ghost predicate Terminal(e: Event, sid: nat) { (e.Completed? || e.StreamFailed?) && e.sid == sid }

  /** What a response may do: at most one event, about its own stream; the stream leaves the
      table, its id freed last, exactly with a terminal event; no other stream is touched. */
  ghost predicate OwnFate(c: Core, d: Core, sid: nat) {
    && d.pending - {sid} == c.pending - {sid}
    && (d.events == c.events || (|d.events| == |c.events| + 1 && c.events <= d.events))
    && (sid !in d.pending <==> d.events != c.events && Terminal(d.events[|d.events| - 1], sid))
    && (sid !in d.pending ==> d.free == if sid >= FIRST_SID then c.free + [sid] else c.free)
    && (sid in d.pending ==> d.free == c.free && d.order == c.order)
    && (d.events != c.events && d.events[|d.events| - 1].Waiting? && d.events[|d.events| - 1].resend ==>
          d.events[|d.events| - 1].seconds <= c.cfg.waitCap)
  }

  lemma UpdateElsewhere(m: map<nat, Pending>, sid: nat, p: Pending)
    ensures m[sid := p] - {sid} == m - {sid} && m - {sid} - {sid} == m - {sid}
  {
  }

  lemma StatusDataFate(c: Core, sid: nat, data: bytes)
    requires sid in c.pending
    ensures OwnFate(c, StatusData(c, sid, data), sid)
  {
    hide Without;
    var p := c.pending[sid];
    UpdateElsewhere(c.pending, sid, p.(buffer := p.buffer + data));
  }

  lemma OnResponseFate(c: Core, sid: nat, status: nat, body: bytes)
    requires sid in c.pending
    ensures OwnFate(c, OnResponse(c, sid, status, body).core, sid)
  {
    hide Without, StatusData, ParseStatus, UntilNul, RedirectHost;
    var p := c.pending[sid];
    UpdateElsewhere(c.pending, sid, p.(buffer := p.buffer + body));
    if status == KXR_STATUS && ParseStatus(body) != None {
      var noted := c.(pending := c.pending[sid := p.(status := Some(ParseStatus(body).value))]);
      UpdateElsewhere(c.pending, sid, p.(status := Some(ParseStatus(body).value)));
      StatusDataFate(noted, sid, []);
    }
  }

  // ----- bring-up -----

  /** Ready is announced at most once. */
  lemma ReadyOnce(cfg: Config, ladder: seq<Credential>, hmac: Hmac, calls: seq<S.Call>)
    ensures var w := S.Run(cfg, ladder, hmac, calls);
            w.history.readies <= 1 && (w.machine.core.phase == Ready ==> w.history.readies == 1)
  {
    S.RunLaws(cfg, ladder, hmac, calls);
    hide S.Run, Signing, Space, Sound;
  }

  /** While TLS is wanted or demanded and not yet up, all that was ever queued for the
      control link is the greeting, so no Login, Bind or Auth frame; and nothing is in flight. */
  lemma NothingBeforeTls(cfg: Config, ladder: seq<Credential>, hmac: Hmac, calls: seq<S.Call>)
    ensures var w := S.Run(cfg, ladder, hmac, calls);
            var said := w.history.drained + w.machine.core.out;
            WantsTls(w.machine.core) && !w.machine.core.tlsActive ==>
              (said == [] || said == Greeting(w.machine.core.cfg)) && w.machine.core.pending == map[]
                && w.machine.core.phase != Ready
  {
    S.RunLaws(cfg, ladder, hmac, calls);
    hide S.Run, Signing, Space, Sound, Greeting, WantsTls;
  }

  /** The state graph: bring-up goes forward, with TLS where it is wanted, through login
      or bind, and authentication only after login; it may fail; anything may close. */
  predicate Edge(p: Phase, q: Phase) {
    match p
    case New => q == Handshake || q == Closed
    case Handshake => q == Protocol || q == Failed || q == Closed
    case Protocol => q == Tls || q == Login || q == Bind || q == Failed || q == Closed
    case Tls => q == Login || q == Bind || q == Closed
    case Login => q == Auth || q == Ready || q == Failed || q == Closed
    case Auth => q == Ready || q == Failed || q == Closed
    case Bind => q == Ready || q == Failed || q == Closed
    case Ready => q == Closed
    case Failed => q == Closed
    case Closed => false
  }

  /** Phases one after the other, each the one before or one edge from it. */
  ghost predicate Follows(s: seq<Phase>, p: Phase, q: Phase) {
    && s != [] && s[0] == p && s[|s| - 1] == q
    && forall i | 0 <= i < |s| - 1 :: s[i] == s[i + 1] || Edge(s[i], s[i + 1])
  }

  lemma FollowsOn(s: seq<Phase>, t: seq<Phase>, p: Phase, q: Phase, r: Phase)
    requires Follows(s, p, q) && Follows([q] + t, q, r)
    ensures Follows(s + t, p, r)
  {
    hide Edge;
    var u, v := s + t, [q] + t;
    assert u[|u| - 1] == v[|v| - 1] by { if t == [] { assert u == s; } }
    forall i | 0 <= i < |u| - 1
      ensures u[i] == u[i + 1] || Edge(u[i], u[i + 1])
    {
      if i < |s| - 1 {
        assert u[i] == s[i] && u[i + 1] == s[i + 1];
      } else {
        assert u[i] == v[i - |s| + 1] && u[i + 1] == v[i - |s| + 2];
      }
    }
  }

  /** The phase after each move of a parse. */
  ghost function ParsePhases(c: Core, f: Framer): seq<Phase>
    decreases |f.buffer|, Rank(f)
  {
    match MoveOf(c, f)
    case Wait => []
    case Throw(c', _, _) => [c'.phase]
    case Go(c', f') => [c'.phase] + ParsePhases(c', f')
  }

  /** The phases a call passes through: one per move of the parser, or its own. */
  ghost function CallPhases(m: Machine, hmac: Hmac, call: S.Call): seq<Phase> {
    if call.Receive? && call.data != [] then
      var f := FramerOf(m, call.link);
      ParsePhases(m.core, f.(buffer := f.buffer + call.data))
    else [S.Do(m, hmac, call).core.phase]
  }

  /** All the phases of a run, in order. */
  ghost function RunPhases(cfg: Config, ladder: seq<Credential>, hmac: Hmac, calls: seq<S.Call>): seq<Phase> {
    if calls == [] then [New]
    else
      var before := calls[..|calls| - 1];
      RunPhases(cfg, ladder, hmac, before)
      + CallPhases(S.Run(cfg, ladder, hmac, before).machine, hmac, calls[|calls| - 1])
  }

  lemma BringUpEdge(c: Core, status: nat, body: bytes)
    requires InBringUp(c.phase)
    ensures var d := BringUp(c, status, body).0; d.phase == c.phase || Edge(c.phase, d.phase)
  {
    hide NextCredential, ParseProtocol, FrameOf, UntilNul, DemandsTls, HasTls, OnlySession;
    if c.phase == Auth { NextCredentialOnly(c); }
    if c.phase == Login { NextCredentialOnly(c.(sessionId := Slice(body, 0, 16)).(phase := Auth)); }
  }

  lemma MoveEdge(c: Core, f: Framer)
    requires Ids(c) && MoveOf(c, f) != Wait
    ensures var d := MoveOf(c, f).core; d.phase == c.phase || Edge(c.phase, d.phase)
  {
    hide MoveOf, Ids, Steady, BringUp, Edge;
    MoveOrdinary(c, f);
    var d := MoveOf(c, f).core;
    if Steady(c, d) {
      SteadyIsCalm(c, d);
    } else {
      var status, body :| d == BringUp(c, status, body).0;
      BringUpEdge(c, status, body);
    }
  }

  lemma {:induction false} ParseFollows(c: Core, h: History, f: Framer)
    requires Laws(c, h)
    ensures Follows([c.phase] + ParsePhases(c, f), c.phase, Parse(c, f).core.phase)
    decreases |f.buffer|, Rank(f)
  {
    hide Accounted, Opening, Signing, Space, MoveOf, After, Edge, Ids;
    var m := MoveOf(c, f);
    if m != Wait {
      MoveEdge(c, f);
      if m.Go? {
        MoveLaws(c, h, f);
        Framing.MoveShrinks(c, f);
        ParseFollows(m.core, After(h, c, m.core), m.framer);
        OneStep(c.phase, m.core.phase);
        FollowsOn([c.phase, m.core.phase], ParsePhases(m.core, m.framer), c.phase, m.core.phase,
          Parse(c, f).core.phase);
        assert [c.phase, m.core.phase] + ParsePhases(m.core, m.framer) == [c.phase] + ParsePhases(c, f);
      }
    }
  }

  lemma OneStep(p: Phase, q: Phase)
    requires p == q || Edge(p, q)
    ensures Follows([p, q], p, q)
  {
  }

  lemma SubmitStays(c: Core, hmac: Hmac, r: Request, arrive: bool)
    ensures Submit(c, hmac, r, arrive).0.phase == c.phase
  {
    hide Signed, SignerAfter;
  }

  lemma PathStays(m: Machine, h: History, pathid: nat)
    requires Laws(m.core, h)
    ensures OnPathEof(m, pathid).core.phase == m.core.phase && DropPath(m, pathid).core.phase == m.core.phase
  {
    hide OnPathEof, DropPath, Accounted, Opening, Signing, Space;
    S.PathEofCalm(m, h, pathid);
    S.DropCalm(m, pathid);
  }

  lemma CallFollows(m: Machine, h: History, hmac: Hmac, call: S.Call)
    requires Laws(m.core, h)
    ensures Follows([m.core.phase] + CallPhases(m, hmac, call), m.core.phase, S.Do(m, hmac, call).core.phase)
  {
    hide Laws, Submit, DropPath, OnPathEof, FrameOf, Parse, EmitFailures, ReleaseAll, Acquire;
    var c := m.core;
    if call.Receive? && call.data != [] {
      var f := FramerOf(m, call.link);
      ParseFollows(c, h, f.(buffer := f.buffer + call.data));
    } else {
      match call {
        case Submit(r, arrive) => SubmitStays(c, hmac, r, arrive);
        case ForgetPath(p) => PathStays(m, h, p);
        case Close(_) => S.AcquireKeeps(c);
        case Receive(_, link) =>
          var known := m.(framers := m.framers[link := FramerOf(m, link)]);
          if link == 0 { EofPhase(c, h); } else { PathStays(known, h, link); }
        case _ =>
      }
      OneStep(c.phase, S.Do(m, hmac, call).core.phase);
      assert [c.phase] + CallPhases(m, hmac, call) == [c.phase, S.Do(m, hmac, call).core.phase];
    }
  }

  lemma EofPhase(c: Core, h: History)
    requires Laws(c, h)
    ensures OnEof(c).phase == c.phase || OnEof(c).phase == Closed
  {
    hide Accounted, Opening, Signing, Space, OnEof;
    if c.phase == Closed || c.phase == Failed { S.EofIgnored(c); } else { S.EofStands(c, h); }
  }

  /** The phases of every run, one after each call and each move of the parser, follow the
      state graph: each is the one before or one edge from it. */
  lemma {:induction false} RunFollowsGraph(cfg: Config, ladder: seq<Credential>, hmac: Hmac, calls: seq<S.Call>)
    ensures Follows(RunPhases(cfg, ladder, hmac, calls), New, S.Run(cfg, ladder, hmac, calls).machine.core.phase)
    decreases |calls|
  {
    hide Follows, S.Do, S.Note, Laws, CallPhases;
    if calls == [] {
      OnlyNew();
    } else {
      var before, last := calls[..|calls| - 1], calls[|calls| - 1];
      RunFollowsGraph(cfg, ladder, hmac, before);
      S.RunLaws(cfg, ladder, hmac, before);
      var w := S.Run(cfg, ladder, hmac, before);
      CallFollows(w.machine, w.history, hmac, last);
      FollowsOn(RunPhases(cfg, ladder, hmac, before), CallPhases(w.machine, hmac, last), New, w.machine.core.phase,
                S.Do(w.machine, hmac, last).core.phase);
    }
  }

  lemma OnlyNew()
    ensures Follows([New], New, New)
  {
  }

  // ----- signing -----

  /** The covered submissions of a run carried the sequence numbers 1, 2, 3, ... */
  lemma SequenceNumbersRise(cfg: Config, ladder: seq<Credential>, hmac: Hmac, calls: seq<S.Call>)
    ensures var h := S.Run(cfg, ladder, hmac, calls).history;
            forall i | 0 <= i < |h.seqnos| :: h.seqnos[i] == i + 1
  {
    S.RunLaws(cfg, ladder, hmac, calls);
    hide S.Run, Opening, Space, Sound;
  }

  /** What a submission on stream `sid` puts on the wire as one piece: its frame, behind its
      own sigver frame with the next sequence number when it is covered. */
  ghost predicate OnTheWire(c: Core, hmac: Hmac, r: Request, sid: nat, wire: bytes)
    requires Encodable(r)
  {
    if c.signer != None && Covers(c.signer.value, r.opcode) then
      var s := c.signer.value;
      FrameShape(r, sid);
      var mac := hmac(s.key, SignedRegion(FrameOf(r, sid), s.seqno + 1));
      wire == FrameOf(SigverRequest(r.opcode, s.seqno + 1, mac), sid)
              + FrameOf(r, sid)
    else wire == FrameOf(r, sid)
  }

  function PathOut(c: Core, pathid: nat): bytes { if pathid in c.outPath then c.outPath[pathid] else [] }

  /** A submission adds exactly that piece to the link it is sent on, with its path data
      behind it there or alone on its data path, and nothing to any other link. */
  lemma SubmissionQueued(c: Core, hmac: Hmac, r: Request, arrive: bool) returns (wire: bytes)
    requires Submit(c, hmac, r, arrive).1.Ok?
    ensures Encodable(r)
    ensures var (d, sid) := Submit(c, hmac, r, arrive);
            && OnTheWire(c, hmac, r, sid.value, wire)
            && (arrive && r.pathid != 0 ==>
                  d.out == c.out && PathOut(d, r.pathid) == PathOut(c, r.pathid) + wire + r.pathData)
            && (!(arrive && r.pathid != 0) ==>
                  d.out == c.out + wire && PathOut(d, r.pathid) == PathOut(c, r.pathid) + r.pathData)
            && (forall p | p != r.pathid :: PathOut(d, p) == PathOut(c, p))
  {
    S.AcquireKeeps(c);
    var got, sid := Acquire(c).0, Acquire(c).1.value;
    hide Acquire, Signed, OnTheWire, Send, PathOut, Encodable;
    SignatureIs(got, hmac, r, sid);
    wire := Signed(got, hmac, r, sid);
    WireSame(c, got, hmac, r, sid, wire);
    SentOn(got, hmac, r, sid, arrive);
    PathOutSame(c, got);
  }

  lemma PathOutSame(c: Core, d: Core)
    requires c.outPath == d.outPath
    ensures forall p :: PathOut(c, p) == PathOut(d, p)
  {
  }

  lemma SentOn(c: Core, hmac: Hmac, r: Request, sid: nat, arrive: bool)
    requires Encodable(r)
    ensures var d, wire := Send(c, hmac, r, sid, arrive), Signed(c, hmac, r, sid);
            && (arrive && r.pathid != 0 ==>
                  d.out == c.out && PathOut(d, r.pathid) == PathOut(c, r.pathid) + wire + r.pathData)
            && (!(arrive && r.pathid != 0) ==>
                  d.out == c.out + wire && PathOut(d, r.pathid) == PathOut(c, r.pathid) + r.pathData)
            && (forall p | p != r.pathid :: PathOut(d, p) == PathOut(c, p))
  {
    hide Signed, SignerAfter, Encodable;
    var wire := Signed(c, hmac, r, sid);
    assert PathOut(c, r.pathid) + (wire + r.pathData) == PathOut(c, r.pathid) + wire + r.pathData;
  }

  lemma WireSame(c: Core, d: Core, hmac: Hmac, r: Request, sid: nat, wire: bytes)
    requires Encodable(r) && c.signer == d.signer
    ensures OnTheWire(c, hmac, r, sid, wire) == OnTheWire(d, hmac, r, sid, wire)
  {
    hide FrameOf, SignedRegion, SigverRequest, Covers;
  }

  lemma SignatureIs(c: Core, hmac: Hmac, r: Request, sid: nat)
    requires Encodable(r)
    ensures OnTheWire(c, hmac, r, sid, Signed(c, hmac, r, sid))
  {
    hide FrameOf, SigverRequest, SignedRegion, Covers, Signed, U16, U32, Encodable, OnTheWire;
    SignedIs(c, hmac, r, sid);
    WireIs(c, hmac, r, sid, Signed(c, hmac, r, sid));
  }

  lemma WireIs(c: Core, hmac: Hmac, r: Request, sid: nat, wire: bytes)
    requires Encodable(r) && |FrameOf(r, sid)| >= REQUEST_HDRLEN
    requires wire ==
             if c.signer == None || !Covers(c.signer.value, r.opcode) then FrameOf(r, sid)
             else
               var mac := hmac(c.signer.value.key, SignedRegion(FrameOf(r, sid), c.signer.value.seqno + 1));
               FrameOf(SigverRequest(r.opcode, c.signer.value.seqno + 1, mac), sid) + FrameOf(r, sid)
    ensures OnTheWire(c, hmac, r, sid, wire)
  {
    hide FrameOf, SigverRequest, SignedRegion, Covers, U16, U32, Encodable;
  }
}
