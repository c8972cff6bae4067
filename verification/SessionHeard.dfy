/** Every run does what the bytes say: each frame of every piece received makes exactly what
    its status, its body and what was heard before make of it; nothing but the greeting goes
    out while TLS is due; and a resend is the bytes of the submission. */
module SessionHeard {
  import opened Octets
  import opened Frames
  import opened Session
  import opened SessionRuns
  import opened SessionLaws
  import opened SessionReplies
  import opened SessionTheorems
  import S = SessionSafety
  import Framing

  /** The bytes a submission sent: its frame, behind its signature if it had one, and the
      data on its path. */
  datatype Sent = Sent(frame: bytes, pathid: nat, data: bytes)

  /** What an observer of calls and bytes knows: the header last begun on each link, the last
      status response and the submission of each stream, whether the server asked for TLS and
      whether it is up. */
  datatype Ears = Ears(
    heads: map<nat, bytes>, last: map<nat, bytes>, sent: map<nat, Sent>, demanded: bool, secured: bool)

  function EarOf(e: Ears, link: nat): Ear {
    Ear(if link in e.heads then e.heads[link] else [], e.last, e.demanded)
  }

  /** By what an outbox grew. */
  function Grown(before: bytes, after: bytes): bytes { Slice(after, |before|, |after|) }

  function SentBy(c: Core, d: Core, r: Request, arrive: bool): Sent {
    var frame :=
      if arrive && r.pathid != 0 then
        var all := Grown(PathOut(c, r.pathid), PathOut(d, r.pathid));
        if |all| < |r.pathData| then [] else all[..|all| - |r.pathData|]
      else Grown(c.out, d.out);
    Sent(frame, r.pathid, r.pathData)
  }

  ghost function Next(m: Machine, e: Ears, hmac: Hmac, call: S.Call): Ears {
    match call
    case Receive(data, link) =>
      if data == [] then e
      else
        var f := FramerOf(m, link);
        var ear := ListenAll(m.core, f.(buffer := f.buffer + data), EarOf(e, link));
        e.(heads := e.heads[link := ear.head], last := ear.last, demanded := ear.demanded)
    case Submit(r, arrive) =>
      var (d, sid) := Session.Submit(m.core, hmac, r, arrive);
      if sid.Err? then e
      else e.(last := e.last - {sid.value}, sent := e.sent[sid.value := SentBy(m.core, d, r, arrive)])
    case TlsEstablished => if m.core.phase == Tls then e.(secured := true) else e
    case _ => e
  }

  ghost function EarsOf(cfg: Config, ladder: seq<Credential>, hmac: Hmac, calls: seq<S.Call>): Ears {
    if calls == [] then Ears(map[], map[], map[], false, false)
    else
      var before := calls[..|calls| - 1];
      Next(S.Run(cfg, ladder, hmac, before).machine, EarsOf(cfg, ladder, hmac, before), hmac, calls[|calls| - 1])
  }

  // ----- what stays as it was -----

  ghost predicate SameSent(p: Pending, q: Pending) {
    q.frame == p.frame && q.pathid == p.pathid && q.pathBytes == p.pathBytes
  }

  /** Streams in flight keep what they sent; the rest is neither configuration nor TLS. */
  ghost predicate Holds(c: Core, d: Core) {
    && d.cfg == c.cfg && d.tlsActive == c.tlsActive
    && forall sid | sid in d.pending :: sid in c.pending && SameSent(c.pending[sid], d.pending[sid])
  }

  lemma MakesHolds(c: Core, d: Core, sid: nat, status: nat, body: bytes)
    requires sid in c.pending && Makes(c, d, sid, status, body)
    ensures Holds(c, d)
  {
    hide StatusIn, Int4, UpToNul;
  }

  lemma TriesHolds(c: Core, d: Core)
    requires Tries(c, d)
    ensures d.cfg == c.cfg && d.tlsActive == c.tlsActive && d.pending == c.pending
  {
    hide FrameOf;
    if !forall i | 0 <= i < |c.ladder| :: c.ladder[i].initial == None {
      var i: nat :| i < |c.ladder| && c.ladder[i].initial != None;
      var k := FirstOpen(c.ladder, i);
    }
  }

  lemma OpensHolds(c: Core, d: Core, status: nat, body: bytes)
    requires Young(c.phase) && Opens(c, d, status, body)
    ensures d.cfg == c.cfg && d.tlsActive == c.tlsActive && d.pending == c.pending
  {
    hide Tries, FrameOf, Informs;
    if c.phase == Login && |body| > 16 && Tries(c.(sessionId := body[..16]).(phase := Auth), d) {
      TriesHolds(c.(sessionId := body[..16]).(phase := Auth), d);
    }
    if c.phase == Auth && Tries(c, d) { TriesHolds(c, d); }
  }

  lemma StatusTellsHolds(c: Core, d: Core, sid: nat, said: bytes, data: bytes)
    requires sid in c.pending && |said| >= 16 && StatusTells(c, d, sid, said, data)
    ensures Holds(c, d)
  {
    hide StatusIn;
  }

  lemma MoveHolds(c: Core, f: Framer, e: Ear, m: Move)
    requires m != Wait && MoveTells(c, f, e, m)
    ensures Holds(c, m.core)
  {
    hide Opens, Makes, Baffles, Spoils, Int4, Two, Four, StatusTells;
    if f.needTrailer != 0 {
      if f.trailerFor != None && f.trailerFor.value in c.pending && f.trailerFor.value in e.last {
        var sid := f.trailerFor.value;
        StatusTellsHolds(c, m.core, sid, e.last[sid], Front(f.buffer, f.needTrailer));
      }
    } else if f.header != None {
      var reply := ReplyIn(e.head, f.buffer[..Four(e.head, 4)]);
      if reply != None {
        var r := reply.value;
        if Young(c.phase) {
          OpensHolds(c, m.core, r.status, r.body);
        } else if r.sid in c.pending {
          MakesHolds(c, m.core, r.sid, r.status, r.body);
        }
      }
    }
  }

  lemma {:induction false} ParseHolds(c: Core, f: Framer, e: Ear)
    requires Hears(c, f, e)
    ensures Holds(c, Parse(c, f).core)
    decreases |f.buffer|, Rank(f)
  {
    hide MoveOf, MoveTells, Listen, Hears;
    var m := MoveOf(c, f);
    if m != Wait {
      MoveSays(c, f, e);
      MoveHolds(c, f, e, m);
      MoveHears(c, f, e);
      if m.Go? {
        Framing.MoveShrinks(c, f);
        ParseHolds(m.core, m.framer, Listen(c, f, e));
      }
    }
  }

  // ----- what every call keeps -----

  ghost predicate SentHeard(c: Core, sent: map<nat, Sent>) {
    forall sid | sid in c.pending ::
      sid in sent && var p := c.pending[sid]; Sent(p.frame, p.pathid, p.pathBytes) == sent[sid]
  }

  ghost predicate HeadsHeard(m: Machine, e: Ears) {
    forall link | link in m.framers :: HeadHeard(m.framers[link], EarOf(e, link).head)
  }

  /** The machine knows what was heard. */
  ghost predicate InTune(m: Machine, cfg: Config, e: Ears) {
    && m.core.cfg == cfg && HeadsHeard(m, e) && LastHeard(m.core, e.last) && SentHeard(m.core, e.sent)
    && (e.demanded <==> DemandsTls(m.core.info)) && (e.secured <==> m.core.tlsActive)
  }

  /** Only streams leave, and framers. */
  ghost predicate OnlyLeaves(m: Machine, n: Machine) {
    && n.core.cfg == m.core.cfg && n.core.info == m.core.info
    && (forall sid | sid in n.core.pending :: sid in m.core.pending && n.core.pending[sid] == m.core.pending[sid])
    && (forall link | link in n.framers :: n.framers[link] == FramerOf(m, link))
  }

  lemma LeavesTune(m: Machine, n: Machine, cfg: Config, e: Ears, f: Ears)
    requires InTune(m, cfg, e) && OnlyLeaves(m, n) && f == e.(secured := f.secured)
    requires f.secured <==> n.core.tlsActive
    ensures InTune(n, cfg, f)
  {
    hide DemandsTls, Two, Four, StatusIn;
  }

  lemma {:induction false} ReleaseAllLeaves(c: Core, sids: seq<nat>)
    ensures var d := ReleaseAll(c, sids);
            && d.cfg == c.cfg && d.info == c.info && d.tlsActive == c.tlsActive
            && forall sid | sid in d.pending :: sid in c.pending && d.pending[sid] == c.pending[sid]
    decreases |sids|
  {
    hide Without;
    if sids != [] { ReleaseAllLeaves(c, sids[..|sids| - 1]); }
  }

  lemma {:induction false} FailuresLeave(c: Core, sids: seq<nat>, why: Reason)
    ensures EmitFailures(c, sids, why) == c.(events := EmitFailures(c, sids, why).events)
    decreases |sids|
  {
    if sids != [] { FailuresLeave(c, sids[..|sids| - 1], why); }
  }

  lemma DropLeaves(m: Machine, pathid: nat)
    ensures OnlyLeaves(m, DropPath(m, pathid)) && DropPath(m, pathid).core.tlsActive == m.core.tlsActive
  {
    hide ReleaseAll, OnPath;
    ReleaseAllLeaves(m.core, OnPath(m.core.order, m.core.pending, pathid));
  }

  lemma EofLeaves(m: Machine, link: nat)
    ensures var n := Receive(m, [], link).0; OnlyLeaves(m, n) && n.core.tlsActive == m.core.tlsActive
  {
    hide EmitFailures, ReleaseAll, OnPath, DropPath;
    var known := m.(framers := m.framers[link := FramerOf(m, link)]);
    if link == 0 {
      FailuresLeave(m.core.(phase := Closed), m.core.order, PeerClosed);
    } else {
      var sids := OnPath(m.core.order, m.core.pending, link);
      FailuresLeave(m.core, sids, PathClosed(link));
      DropLeaves(known.(core := EmitFailures(m.core, sids, PathClosed(link))), link);
    }
  }

  lemma QuietLeaves(m: Machine, hmac: Hmac, call: S.Call)
    requires !call.Submit? && !(call.Receive? && call.data != [])
    ensures OnlyLeaves(m, S.Do(m, hmac, call))
    ensures S.Do(m, hmac, call).core.tlsActive <==> m.core.tlsActive || (call.TlsEstablished? && m.core.phase == Tls)
  {
    hide Acquire, FrameOf, Without, DropPath, Receive, FramerOf;
    HaveFramers(m);
    match call
    case ForgetPath(p) => DropLeaves(m, p);
    case Close(_) => S.AcquireKeeps(m.core);
    case Receive(_, link) => EofLeaves(m, link);
    case _ =>
  }

  lemma HaveFramers(m: Machine)
    ensures forall link | link in m.framers :: m.framers[link] == FramerOf(m, link)
  {
  }

  lemma GrownIs(a: bytes, b: bytes)
    ensures Grown(a, a + b) == b
  {
    assert (a + b)[|a|..] == b;
  }

  /** A submission records what it sent. */
  lemma SubmitSends(c: Core, hmac: Hmac, r: Request, arrive: bool)
    requires Submit(c, hmac, r, arrive).1.Ok?
    ensures var (d, sid) := Submit(c, hmac, r, arrive);
            var sent := SentBy(c, d, r, arrive);
            && d.cfg == c.cfg && d.info == c.info && d.tlsActive == c.tlsActive
            && d.pending == c.pending[sid.value := Pending(r, sent.frame, [], None, sent.pathid, sent.data)]
  {
    S.AcquireKeeps(c);
    hide Acquire, Signed, SignerAfter, Encodable, PathOut;
    var got, sid := Acquire(c).0, Acquire(c).1.value;
    var wire := Signed(got, hmac, r, sid);
    SentOn(got, hmac, r, sid, arrive);
    PathOutSame(c, got);
    var d := Submit(c, hmac, r, arrive).0;
    if arrive && r.pathid != 0 {
      assert PathOut(c, r.pathid) + wire + r.pathData == PathOut(c, r.pathid) + (wire + r.pathData);
      GrownIs(PathOut(c, r.pathid), wire + r.pathData);
      assert (wire + r.pathData)[..|wire|] == wire;
    } else {
      GrownIs(c.out, wire);
    }
  }

  lemma SubmitTune(m: Machine, cfg: Config, e: Ears, hmac: Hmac, r: Request, arrive: bool)
    requires InTune(m, cfg, e)
    ensures InTune(S.Do(m, hmac, S.Submit(r, arrive)), cfg, Next(m, e, hmac, S.Submit(r, arrive)))
  {
    hide DemandsTls, HeadHeard, StatusIn, SentBy, Submit;
    var (d, sid) := Submit(m.core, hmac, r, arrive);
    if sid.Ok? {
      SubmitSends(m.core, hmac, r, arrive);
      PendingTune(m.core, d, e, sid.value, r, SentBy(m.core, d, r, arrive));
      hide LastHeard, SentHeard;
    } else {
      SubmitRefused(m.core, hmac, r, arrive);
    }
  }

  lemma SubmitRefused(c: Core, hmac: Hmac, r: Request, arrive: bool)
    requires Submit(c, hmac, r, arrive).1.Err?
    ensures var d := Submit(c, hmac, r, arrive).0;
            d.cfg == c.cfg && d.info == c.info && d.tlsActive == c.tlsActive && d.pending == c.pending
  {
    S.AcquireKeeps(c);
    hide Acquire, Send, Encodable;
  }

  lemma PendingTune(c: Core, d: Core, e: Ears, sid: nat, r: Request, sent: Sent)
    requires LastHeard(c, e.last) && SentHeard(c, e.sent)
    requires d.pending == c.pending[sid := Pending(r, sent.frame, [], None, sent.pathid, sent.data)]
    ensures LastHeard(d, e.last - {sid}) && SentHeard(d, e.sent[sid := sent])
  {
    hide StatusIn;
  }

  lemma ReceiveTune(m: Machine, cfg: Config, e: Ears, hmac: Hmac, data: bytes, link: nat)
    requires InTune(m, cfg, e) && data != []
    ensures InTune(S.Do(m, hmac, S.Receive(data, link)), cfg, Next(m, e, hmac, S.Receive(data, link)))
    ensures var f := FramerOf(m, link); ParseTells(m.core, f.(buffer := f.buffer + data), EarOf(e, link))
  {
    hide Parse, ParseTells, ListenAll, DemandsTls, Two, Four, LastHeard;
    var f := FramerOf(m, link);
    var fed := f.(buffer := f.buffer + data);
    assert Hears(m.core, fed, EarOf(e, link));
    ParseSays(m.core, fed, EarOf(e, link));
    ParseHolds(m.core, fed, EarOf(e, link));
  }

  lemma CallTune(m: Machine, cfg: Config, e: Ears, hmac: Hmac, call: S.Call)
    requires InTune(m, cfg, e)
    ensures InTune(S.Do(m, hmac, call), cfg, Next(m, e, hmac, call))
  {
    hide InTune, S.Do, OnlyLeaves;
    if call.Submit? {
      SubmitTune(m, cfg, e, hmac, call.request, call.arrive);
    } else if call.Receive? && call.data != [] {
      ReceiveTune(m, cfg, e, hmac, call.data, call.link);
    } else {
      QuietLeaves(m, hmac, call);
      Secured(m, cfg, e);
      LeavesTune(m, S.Do(m, hmac, call), cfg, e, Next(m, e, hmac, call));
    }
  }

  lemma Secured(m: Machine, cfg: Config, e: Ears)
    requires InTune(m, cfg, e)
    ensures e.secured <==> m.core.tlsActive
  {
    hide DemandsTls, LastHeard, HeadsHeard, SentHeard;
  }

  lemma {:induction false} RunTune(cfg: Config, ladder: seq<Credential>, hmac: Hmac, calls: seq<S.Call>)
    ensures InTune(S.Run(cfg, ladder, hmac, calls).machine, cfg, EarsOf(cfg, ladder, hmac, calls))
    decreases |calls|
  {
    if calls == [] {
      NoDemandYet();
      hide DemandsTls;
    } else {
      hide InTune, S.Do, S.Note, Next;
      var before := calls[..|calls| - 1];
      RunTune(cfg, ladder, hmac, before);
      CallTune(S.Run(cfg, ladder, hmac, before).machine, cfg, EarsOf(cfg, ladder, hmac, before), hmac,
        calls[|calls| - 1]);
    }
  }

  // ----- every run -----

  /** Each frame of each piece received in a run makes what its bytes say. */
  ghost predicate RunTells(cfg: Config, ladder: seq<Credential>, hmac: Hmac, calls: seq<S.Call>) {
    calls == [] ||
    var before, call := calls[..|calls| - 1], calls[|calls| - 1];
    var m := S.Run(cfg, ladder, hmac, before).machine;
    && RunTells(cfg, ladder, hmac, before)
    && (call.Receive? && call.data != [] ==>
          var f := FramerOf(m, call.link);
          ParseTells(m.core, f.(buffer := f.buffer + call.data), EarOf(EarsOf(cfg, ladder, hmac, before), call.link)))
    && (!(call.Receive? && call.data != []) ==> NoneDelivered(m.core, S.Do(m, hmac, call).core))
  }

  /** Over every run: each response makes exactly the event, the stream table and the bring-up
      step that its bytes and what was heard before say. */
  lemma {:induction false} RepliesTell(cfg: Config, ladder: seq<Credential>, hmac: Hmac, calls: seq<S.Call>)
    ensures RunTells(cfg, ladder, hmac, calls)
    decreases |calls|
  {
    if calls != [] {
      var before, call := calls[..|calls| - 1], calls[|calls| - 1];
      RepliesTell(cfg, ladder, hmac, before);
      RunTune(cfg, ladder, hmac, before);
      S.RunLaws(cfg, ladder, hmac, before);
      hide S.Run, EarsOf, ParseTells, InTune, S.Do, Laws, ParseWhole;
      var w := S.Run(cfg, ladder, hmac, before);
      CallIsWhole(w, hmac, call);
      if call.Receive? && call.data != [] {
        ReceiveTune(w.machine, cfg, EarsOf(cfg, ladder, hmac, before), hmac, call.data, call.link);
      }
    }
  }

  /** A stream completes only on a response of status 0, or a status response of type 0 or
      its trailer. */
  lemma CompletionMeansOk(c: Core, f: Framer, e: Ear, m: Move, i: nat)
    requires m != Wait && MoveTells(c, f, e, m) && |c.events| <= i < |m.core.events| && m.core.events[i].Completed?
    ensures var sid := m.core.events[i].sid;
            if f.needTrailer != 0 then
              f.trailerFor == Some(sid) && sid in e.last && |e.last[sid]| >= 16 && e.last[sid][7] == 0
            else
              && |e.head| == 8 && Four(e.head, 4) <= |f.buffer|
              && var reply := ReplyIn(e.head, f.buffer[..Four(e.head, 4)]);
                 reply != None && reply.value.sid == sid
                 && (reply.value.status == 0
                     || (reply.value.status == 4007 && |reply.value.body| >= 16 && reply.value.body[7] == 0))
  {
    hide Opens, Baffles, Makes, Spoils, Int4, Two, Four, StatusTells;
    if f.needTrailer != 0 {
      if f.trailerFor != None && f.trailerFor.value in c.pending && f.trailerFor.value in e.last {
        var sid := f.trailerFor.value;
        StatusCompletes(c, m.core, sid, e.last[sid], Front(f.buffer, f.needTrailer), i);
      }
    } else if f.header != None {
      var reply := ReplyIn(e.head, f.buffer[..Four(e.head, 4)]);
      if reply != None {
        var r := reply.value;
        if Young(c.phase) {
          OpensOnly(c, m.core, r.status, r.body, i);
        } else if r.sid in c.pending {
          MakesCompleted(c, m.core, r.sid, r.status, r.body, i);
        }
      }
    }
  }

  lemma StatusCompletes(c: Core, d: Core, sid: nat, said: bytes, data: bytes, i: nat)
    requires sid in c.pending && |said| >= 16 && StatusTells(c, d, sid, said, data)
    requires |c.events| <= i < |d.events| && d.events[i].Completed?
    ensures said[7] == 0 && d.events[i].sid == sid
  {
    hide StatusIn;
  }

  lemma MakesCompleted(c: Core, d: Core, sid: nat, status: nat, body: bytes, i: nat)
    requires sid in c.pending && Makes(c, d, sid, status, body)
    requires |c.events| <= i < |d.events| && d.events[i].Completed?
    ensures d.events[i].sid == sid && (status == 0 || (status == 4007 && |body| >= 16 && body[7] == 0))
  {
    hide StatusIn, Int4, UpToNul, StatusTells;
    if status == 4007 && |body| >= 16 && Int4(body, 12) == 0 {
      var noted := c.(pending := c.pending[sid := c.pending[sid].(status := Some(StatusIn(body)))]);
      StatusCompletes(noted, d, sid, body, [], i);
    }
  }

  /** Bring-up completes no stream. */
  lemma OpensOnly(c: Core, d: Core, status: nat, body: bytes, i: nat)
    requires Young(c.phase) && Opens(c, d, status, body) && |c.events| <= i < |d.events|
    ensures !d.events[i].Completed?
  {
    hide Tries, FrameOf, Negotiates, Readies;
    if |body| >= 8 && Negotiates(c, d, body) { NegotiatesOnly(c, d, body, i); }
    if c.phase == Bind && body != [] && Readies(c.(boundPath := body[0] as nat), d) {
      ReadiesOnly(c.(boundPath := body[0] as nat), d, i);
    }
    if c.phase == Login {
      var named := c.(sessionId := if |body| <= 16 then body else body[..16]);
      if Readies(named, d) { ReadiesOnly(named, d, i); }
      if Tries(named.(phase := Auth), d) { TriesOnly(named.(phase := Auth), d, i); }
    }
    if c.phase == Auth {
      if Readies(c, d) { ReadiesOnly(c, d, i); }
      if Tries(c, d) { TriesOnly(c, d, i); }
    }
  }

  lemma NegotiatesOnly(c: Core, d: Core, body: bytes, i: nat)
    requires |body| >= 8 && Negotiates(c, d, body) && |c.events| <= i < |d.events|
    ensures !d.events[i].Completed?
  {
    hide FrameOf, Informs, Asks;
  }

  lemma ReadiesOnly(c: Core, d: Core, i: nat)
    requires Readies(c, d) && |c.events| <= i < |d.events|
    ensures !d.events[i].Completed?
  {
  }

  lemma TriesOnly(c: Core, d: Core, i: nat)
    requires Tries(c, d) && |c.events| <= i < |d.events|
    ensures !d.events[i].Completed?
  {
    hide FrameOf;
    if !forall i | 0 <= i < |c.ladder| :: c.ladder[i].initial == None {
      var i: nat :| i < |c.ladder| && c.ladder[i].initial != None;
      var k := FirstOpen(c.ladder, i);
    }
  }

  // ----- TLS -----

  /** The greeting, byte for byte: the handshake, then a protocol request on stream 1 whose
      flags say that security requirements are wanted, that TLS can be had, and whether it is
      wanted. */
  function Hello(wantTls: bool): bytes {
    Zeros(12) + [0, 0, 0, 4] + [0, 0, 0x07, 0xDC]
    + ([0, 1] + [0x0B, 0xBE] + ([0, 0, 0x05, 0x20] + [if wantTls then 7 else 3] + [3] + Zeros(10)) + [0, 0, 0, 0])
  }

  /** In every run, from the time the server asked for TLS in its protocol reply, or the
      client wants it, until it is up, nothing but the greeting has been said on the control
      link; no stream is in flight and bring-up has not gone on. */
  lemma NothingInTheClear(cfg: Config, ladder: seq<Credential>, hmac: Hmac, calls: seq<S.Call>)
    ensures var w, e := S.Run(cfg, ladder, hmac, calls), EarsOf(cfg, ladder, hmac, calls);
            var said := w.history.drained + w.machine.core.out;
            (cfg.wantTls || e.demanded) && !e.secured ==>
              && (said == [] || said == Hello(cfg.wantTls)) && w.machine.core.pending == map[]
              && w.machine.core.phase !in {Login, Auth, Bind, Ready}
  {
    S.RunLaws(cfg, ladder, hmac, calls);
    RunTune(cfg, ladder, hmac, calls);
    GreetingIs(cfg);
    hide S.Run, EarsOf, Signing, Space, Sound, Greeting, DemandsTls, HeadsHeard, LastHeard, SentHeard, Hello;
  }

  lemma GreetingIs(cfg: Config)
    ensures Greeting(cfg) == Hello(cfg.wantTls)
  {
    GreetingNumbers();
    var r := ProtocolRequest(cfg.wantTls);
    BareFrame(r, 1);
    hide Big, Zeros, HeaderOf, FrameOf;
    HeaderIs(r, 1);
  }

  lemma GreetingNumbers()
    ensures Big(4, 4) == [0, 0, 0, 4] && Big(2012, 4) == [0, 0, 0x07, 0xDC] && Big(0x520, 4) == [0, 0, 0x05, 0x20]
    ensures Big(0, 4) == [0, 0, 0, 0] && Big(1, 2) == [0, 1] && Big(3006, 2) == [0x0B, 0xBE]
  {
    BigFour(4);
    BigFour(2012);
    BigFour(0x520);
    BigFour(0);
    BigAppend(1, 2);
    BigAppend(3006, 2);
    hide Big;
  }

  lemma BareFrame(r: Request, sid: nat)
    requires r.payload == [] && r.trailer == []
    ensures FrameOf(r, sid) == HeaderOf(r, sid)
  {
    hide HeaderOf;
  }

  lemma HeaderIs(r: Request, sid: nat)
    requires sid < 0x1_0000 && r.payload == [] && r.pathData == []
    ensures HeaderOf(r, sid) == Big(sid, 2) + Big(r.opcode, 2) + r.params + Big(0, 4)
  {
    hide Big;
    assert sid % 0x1_0000 == sid;
    assert |r.payload| + |r.pathData| == 0;
  }

  lemma BigFour(n: nat)
    requires n < 0x1_0000
    ensures Big(n, 4) == [0, 0, (n / 256) as byte, (n % 256) as byte]
  {
    assert Big(n, 4) == Big(n / 256, 3) + [(n % 256) as byte];
    assert Big(n / 256, 3) == Big(n / 256 / 256, 2) + [(n / 256 % 256) as byte];
    BigAppend(0, 2);
    assert n / 256 / 256 == 0;
  }

  // ----- resending -----

  /** In every run, resending a stream in flight queues again the bytes its submission sent:
      the frame on the control link, its data on its path; any other resend is refused. */
  lemma ResumeReplays(cfg: Config, ladder: seq<Credential>, hmac: Hmac, calls: seq<S.Call>, sid: nat)
    ensures var c, e := S.Run(cfg, ladder, hmac, calls).machine.core, EarsOf(cfg, ladder, hmac, calls);
            var (d, raised) := Resume(c, sid);
            && (raised == None <==> sid in c.pending)
            && (raised != None ==> d == c)
            && (raised == None ==>
                  && sid in e.sent && d.out == c.out + e.sent[sid].frame
                  && PathOut(d, e.sent[sid].pathid) == PathOut(c, e.sent[sid].pathid) + e.sent[sid].data
                  && forall p | p != e.sent[sid].pathid :: PathOut(d, p) == PathOut(c, p))
  {
    RunTune(cfg, ladder, hmac, calls);
    hide S.Run, EarsOf, DemandsTls, HeadsHeard, LastHeard;
  }
}
