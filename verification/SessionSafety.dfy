/** Safety of the session over every run: any sequence of driver calls and received bytes,
    from a new machine. */
module SessionSafety {
  import opened Octets
  import opened Frames
  import opened Session
  import opened SessionRuns
  import opened SessionLaws

  // ----- runs -----

  /** A call the driver makes; `Receive` with no bytes is a link's end. */
  datatype Call =
    | Start
    | Drain
    | DrainPath(pathid: nat)
    | Submit(request: Request, arrive: bool)
    | Resume(sid: nat)
    | Release(sid: nat)
    | Close(graceful: bool)
    | TlsEstablished
    | Receive(data: bytes, link: nat)
    | ForgetPath(pathid: nat)
    | NextEvent

  datatype World = World(machine: Machine, history: History)

  /** The history after a submission: numbered in turn when it got a stream. */
  ghost function NoteSubmit(h: History, c: Core, hmac: Hmac, r: Request, arrive: bool): History {
    if c.phase != Ready then h
    else
      var g := NoteAcquire(h, c);
      var (got, sid) := Acquire(c);
      if sid.Err? then g
      else if !Encodable(r) then g.(lost := g.lost + {sid.value}, refused := g.refused + 1)
      else NoteSent(g, c, r, sid.value)
  }

  ghost function NoteSent(g: History, c: Core, r: Request, sid: nat): History {
    g.(submitted := g.submitted + 1, owner := g.owner[sid := g.submitted], got := g.got[sid := []],
       lost := g.lost - {sid},
       seqnos := if c.signer != None && Covers(c.signer.value, r.opcode) then g.seqnos + [c.signer.value.seqno + 1]
         else g.seqnos)
  }

  ghost function NoteClose(h: History, c: Core, graceful: bool): History {
    if c.phase == Ready && graceful && c.sessionId != [] then
      var g := NoteAcquire(h, c);
      var sid := Acquire(c).1;
      if sid.Err? then g else g.(lost := g.lost + {sid.value})
    else h
  }

  /** Ids in flight at the control link's end are not handed back. */
  ghost function NoteEof(h: History, c: Core): History {
    if c.phase == Closed || c.phase == Failed then h else h.(lost := h.lost + c.pending.Keys)
  }

  /** What a call does to the machine, also where it raises: by then a submission may have
      taken an id and received bytes may have been parsed. */
  function Do(m: Machine, hmac: Hmac, call: Call): Machine {
    var c := m.core;
    match call
    case Start => m.(core := Session.Start(c).0)
    case Drain => m.(core := c.(out := []))
    case DrainPath(p) => m.(core := c.(outPath := c.outPath - {p}))
    case Submit(r, arrive) => m.(core := Session.Submit(c, hmac, r, arrive).0)
    case Resume(sid) => m.(core := Session.Resume(c, sid).0)
    case Release(sid) => m.(core := Session.Release(c, sid))
    case Close(graceful) => m.(core := Session.Close(c, graceful).0)
    case TlsEstablished => m.(core := Session.TlsEstablished(c).0)
    case Receive(data, link) => Session.Receive(m, data, link).0
    case ForgetPath(p) => DropPath(m, p)
    case NextEvent => m.(core := c.(events := if c.events == [] then [] else c.events[1..]))
  }

  /** The history once the events a call added are told. */
  ghost function Heard(h: History, c: Core, d: Core): History {
    if c.events <= d.events then After(h, c, d) else h
  }

  /** What an observer of calls and events notes down. */
  ghost function Note(m: Machine, h: History, hmac: Hmac, call: Call): History {
    var c, d := m.core, Do(m, hmac, call).core;
    var told := Heard(h, c, d);
    match call
    case Drain => told.(drained := told.drained + c.out)
    case Submit(r, arrive) => NoteSubmit(told, c, hmac, r, arrive)
    case Release(_) => GiveUp(told, c.pending.Keys - d.pending.Keys)
    case ForgetPath(_) => GiveUp(told, c.pending.Keys - d.pending.Keys)
    case Close(graceful) => NoteClose(told, c, graceful)
    case Receive(data, link) => if data == [] && link == 0 then NoteEof(told, c) else told
    case _ => told
  }

  ghost function Step(w: World, hmac: Hmac, call: Call): World {
    World(Do(w.machine, hmac, call), Note(w.machine, w.history, hmac, call))
  }

  /** The world after a run of calls on a new machine. */
  ghost function Run(cfg: Config, ladder: seq<Credential>, hmac: Hmac, calls: seq<Call>): World {
    if calls == [] then World(Initial(cfg, ladder), NOTHING_YET)
    else Step(Run(cfg, ladder, hmac, calls[..|calls| - 1]), hmac, calls[|calls| - 1])
  }

  lemma RunNext(cfg: Config, ladder: seq<Credential>, hmac: Hmac, calls: seq<Call>, call: Call)
    ensures Run(cfg, ladder, hmac, calls + [call]) == Step(Run(cfg, ladder, hmac, calls), hmac, call)
  {
    hide Step;
    assert (calls + [call])[..|calls|] == calls;
  }

  // ----- one call at a time -----

  lemma InitialLaws(cfg: Config, ladder: seq<Credential>)
    ensures Laws(Initial(cfg, ladder).core, NOTHING_YET)
  {
    var c := Initial(cfg, ladder).core;
    InitialOpening(cfg, ladder);
    InitialSpace(cfg, ladder);
    hide Opening, Space;
  }

  lemma InitialOpening(cfg: Config, ladder: seq<Credential>)
    ensures Opening(Initial(cfg, ladder).core, NOTHING_YET)
  {
    NoDemandYet();
    hide DemandsTls, FrameOf, Greeting;
  }

  lemma InitialSpace(cfg: Config, ladder: seq<Credential>)
    ensures Space(Initial(cfg, ladder).core, NOTHING_YET)
  {
    assert Taken(Initial(cfg, ladder).core) == {};
    assert Range(FIRST_SID, FIRST_SID) == {};
  }

  /** Laws are about the stream tables, phase, control outbox, signer and TLS alone. */
  lemma SameLaws(c: Core, h: History, d: Core)
    requires Laws(c, h) && d.pending == c.pending && d.order == c.order && d.free == c.free && d.nextSid == c.nextSid
    requires d.phase == c.phase && d.out == c.out && d.signer == c.signer && d.tlsActive == c.tlsActive
    requires d.info == c.info && d.cfg == c.cfg
    ensures Laws(d, h)
  {
    hide Opening, Signing, Space, Sound;
    SoundSame(c, h, d, h.readies);
    assert h.(readies := h.readies) == h;
    SameOpening(c, h, d);
    SameSpace(c, h, d);
  }

  lemma SameSpace(c: Core, h: History, d: Core)
    requires Space(c, h) && d.pending == c.pending && d.free == c.free && d.nextSid == c.nextSid
    requires c.phase == Closed ==> d.phase == Closed
    ensures Space(d, h)
    ensures d.signer == c.signer && Signing(c, h) ==> Signing(d, h)
  {
    hide Issued, Taken;
    assert Taken(d) == Taken(c) by { TakenSame(c, d); }
  }

  lemma TakenSame(c: Core, d: Core)
    requires d.pending == c.pending && d.free == c.free
    ensures Taken(d) == Taken(c)
  {
  }

  /** A call that only queues on the control link, and may move the phase on. */
  lemma QueueLaws(c: Core, h: History, d: Core)
    requires Laws(c, h) && d.pending == c.pending && d.order == c.order && d.free == c.free && d.nextSid == c.nextSid
    requires d.signer == c.signer && Opening(d, h) && (c.phase == Closed ==> d.phase == Closed)
    ensures Laws(d, h)
  {
    hide Opening, Sound, Signing, Space;
    SoundSame(c, h, d, h.readies);
    assert h.(readies := h.readies) == h;
    SameSpace(c, h, d);
  }

  lemma StartOpening(c: Core, h: History)
    requires Opening(c, h)
    ensures Opening(Session.Start(c).0, h)
  {
    hide DemandsTls, FrameOf;
    if c.phase == New {
      NoDemandYet();
      assert Said(Session.Start(c).0, h) == Greeting(c.cfg);
    }
  }

  lemma StartLaws(c: Core, h: History)
    requires Laws(c, h)
    ensures Laws(Session.Start(c).0, h)
  {
    hide Opening, Sound, Signing, Space;
    StartOpening(c, h);
    if c.phase == New { QueueLaws(c, h, Session.Start(c).0); }
  }

  lemma TlsLaws(c: Core, h: History)
    requires Laws(c, h)
    ensures Laws(Session.TlsEstablished(c).0, h)
  {
    hide Opening, Sound, Signing, Space;
    TlsOpening(c, h);
    if c.phase == Tls { QueueLaws(c, h, Session.TlsEstablished(c).0); }
  }

  lemma TlsOpening(c: Core, h: History)
    requires Opening(c, h)
    ensures Opening(Session.TlsEstablished(c).0, h)
  {
    hide DemandsTls, FrameOf, Greeting;
  }

  lemma DrainLaws(c: Core, h: History)
    requires Laws(c, h)
    ensures Laws(c.(out := []), h.(drained := h.drained + c.out))
  {
    var d, g := c.(out := []), h.(drained := h.drained + c.out);
    DrainOpening(c, h);
    hide Opening, Ledger, Ids;
    DrainLedger(h, g.drained);
    IdsSame(c, d);
    TakenSame(c, d);
    hide Taken, Issued;
  }

  lemma DrainLedger(h: History, drained: bytes)
    requires Ledger(h)
    ensures Ledger(h.(drained := drained))
  {
  }

  lemma DrainOpening(c: Core, h: History)
    requires Opening(c, h)
    ensures Opening(c.(out := []), h.(drained := h.drained + c.out))
  {
    var d, g := c.(out := []), h.(drained := h.drained + c.out);
    assert Said(d, g) == Said(c, h);
    hide Said, DemandsTls, FrameOf, Greeting;
  }

  /** Only a stream in flight can be replayed, so not before Ready. */
  lemma ResumeOpening(c: Core, h: History, sid: nat)
    requires Opening(c, h) && sid in c.pending
    ensures Opening(Session.Resume(c, sid).0, h)
  {
    hide DemandsTls, FrameOf, Greeting;
    assert c.pending != map[];
  }

  lemma ResumeLaws(c: Core, h: History, sid: nat)
    requires Laws(c, h)
    ensures Laws(Session.Resume(c, sid).0, h)
  {
    hide Opening, Sound, Signing, Space;
    if sid in c.pending {
      ResumeOpening(c, h, sid);
      QueueLaws(c, h, Session.Resume(c, sid).0);
    }
  }

  lemma ReleaseLaws(c: Core, h: History, sid: nat)
    requires Laws(c, h)
    ensures var d := Session.Release(c, sid); Laws(d, GiveUp(h, c.pending.Keys - d.pending.Keys))
  {
    hide Laws, GiveUp;
    var d := Session.Release(c, sid);
    if sid in c.pending {
      hide Session.Release;
      ReleasePending(c, sid);
      assert c.pending.Keys - d.pending.Keys == {sid};
      ReleaseOneLaws(c, h, sid);
    } else {
      assert d == c && c.pending.Keys - d.pending.Keys == Set([]);
      GiveUpNone(h);
    }
  }

  lemma ReleaseOneLaws(c: Core, h: History, sid: nat)
    requires Laws(c, h) && sid in c.pending
    ensures Laws(Session.Release(c, sid), GiveUp(h, {sid}))
  {
    hide Opening, Signing, Space, Sound, Calm, Session.Release, Steady;
    SoundIds(c, h);
    ReleaseSound(c, h, sid);
    ReleaseSteady(c, sid);
    SteadyIsCalm(c, Session.Release(c, sid));
    CalmLaws(c, h, Session.Release(c, sid), GiveUp(h, {sid}));
  }

  lemma SoundIds(c: Core, h: History)
    requires Sound(c, h)
    ensures Ids(c)
  {
  }

  lemma ForgetLaws(m: Machine, h: History, pathid: nat)
    requires Laws(m.core, h)
    ensures var d := DropPath(m, pathid).core; Laws(d, GiveUp(h, m.core.pending.Keys - d.pending.Keys))
  {
    hide Opening, Signing, Space, Sound, DropPath, Calm;
    var d := DropPath(m, pathid).core;
    DropPathSound(m, h, pathid);
    assert Ids(m.core) by { SoundIds(m.core, h); }
    DropCalm(m, pathid);
    hide Laws;
    CalmLaws(m.core, h, d, GiveUp(h, m.core.pending.Keys - d.pending.Keys));
  }

  lemma {:induction false} ReleaseAllCalm(c: Core, sids: seq<nat>)
    requires Ids(c)
    ensures Calm(c, ReleaseAll(c, sids)) && Ids(ReleaseAll(c, sids))
    decreases |sids|
  {
    hide Ids, Calm;
    SteadySelf(c);
    if sids == [] {
      SteadyIsCalm(c, c);
    } else {
      var n := |sids| - 1;
      var mid := ReleaseAll(c, sids[..n]);
      ReleaseAllCalm(c, sids[..n]);
      ReleaseIds(mid, sids[n]);
      ReleaseSteady(mid, sids[n]);
      hide Session.Release, Steady;
      SteadyIsCalm(mid, Session.Release(mid, sids[n]));
      CalmThen(c, mid, Session.Release(mid, sids[n]));
    }
  }

  lemma CalmThen(c: Core, d: Core, e: Core)
    requires Calm(c, d) && Calm(d, e)
    ensures Calm(c, e)
  {
  }

  // ----- submitting -----

  /** The laws once an id is taken and before it is used. */
  lemma AcquireSound(c: Core, h: History)
    requires Sound(c, h)
    ensures Sound(Acquire(c).0, NoteAcquire(h, c))
  {
    AcquireFresh(c);
    hide Ids;
    WrappedLedger(h);
    hide Ledger;
  }

  lemma WrappedLedger(h: History)
    requires Ledger(h)
    ensures Ledger(h.(wrapped := true))
  {
  }

  lemma AcquireOpening(c: Core, h: History)
    requires Opening(c, h)
    ensures Opening(Acquire(c).0, NoteAcquire(h, c))
    ensures Signing(c, h) ==> Signing(Acquire(c).0, NoteAcquire(h, c))
  {
    AcquireKeeps(c);
    hide Opening, Acquire;
    SameOpening(c, h, Acquire(c).0);
    OpeningBook(Acquire(c).0, h, NoteAcquire(h, c));
  }

  lemma OpeningBook(c: Core, h: History, g: History)
    requires Opening(c, h) && g.readies == h.readies && g.drained == h.drained
    ensures Opening(c, g)
  {
    hide DemandsTls, FrameOf, Greeting;
  }

  /** A submission that got a stream opens exactly one entry. */
  lemma SentLedger(g: History, c: Core, r: Request, sid: nat)
    requires Ledger(g) && sid !in g.owner
    ensures Ledger(NoteSent(g, c, r, sid))
  {
    var n := NoteSent(g, c, r, sid);
    assert n.owner.Keys == g.owner.Keys + {sid};
    assert |n.owner| == |n.owner.Keys| && |g.owner| == |g.owner.Keys|;
    assert forall x | x in g.owner :: n.owner[x] == g.owner[x];
    hide Covers;
  }

  lemma SentTold(c: Core, g: History, hmac: Hmac, r: Request, sid: nat, arrive: bool, before: Core)
    requires Told(c, g) && Encodable(r) && sid !in c.pending
    ensures Told(Send(c, hmac, r, sid, arrive), NoteSent(g, before, r, sid))
  {
    hide Signed, SignerAfter, Covers;
    var d, n := Send(c, hmac, r, sid, arrive), NoteSent(g, before, r, sid);
    assert n.owner.Keys == g.owner.Keys + {sid} && n.got.Keys == g.got.Keys + {sid};
    assert d.pending.Keys == c.pending.Keys + {sid};
  }

  lemma SentOpening(c: Core, g: History, hmac: Hmac, r: Request, sid: nat, arrive: bool, before: Core)
    requires Opening(c, g) && Encodable(r) && c.phase == Ready
    ensures Opening(Send(c, hmac, r, sid, arrive), NoteSent(g, before, r, sid))
  {
    hide Signed, SignerAfter, Covers, DemandsTls, FrameOf, Greeting;
  }

  lemma SentSigning(c: Core, g: History, hmac: Hmac, r: Request, sid: nat, arrive: bool)
    requires Signing(c, g) && Encodable(r)
    ensures Signing(Send(c, hmac, r, sid, arrive), NoteSent(g, c, r, sid))
  {
    hide Signed, Covers;
  }

  lemma SentSpace(c: Core, g: History, hmac: Hmac, r: Request, sid: nat, arrive: bool, before: Core)
    requires Encodable(r) && (g.lost != {} ==> g.refused > 0 || c.phase == Closed)
    requires Taken(c) + {sid} + g.lost == Issued(g.wrapped, c.nextSid) && Taken(c) !! g.lost
    ensures Space(Send(c, hmac, r, sid, arrive), NoteSent(g, before, r, sid))
  {
    hide Taken, Issued, Covers, Send;
    SendStands(c, hmac, r, sid, arrive);
    LostBack(Taken(c), sid, g.lost);
    assert NoteSent(g, before, r, sid).lost == g.lost - {sid};
  }

  lemma SendStands(c: Core, hmac: Hmac, r: Request, sid: nat, arrive: bool)
    requires Encodable(r)
    ensures var d := Send(c, hmac, r, sid, arrive);
            d.phase == c.phase && d.nextSid == c.nextSid && d.free == c.free && Taken(d) == Taken(c) + {sid}
  {
    hide Signed, SignerAfter, Set;
    var d := Send(c, hmac, r, sid, arrive);
    assert d.pending.Keys == c.pending.Keys + {sid} && d.free == c.free;
    hide Send;
    Swap(c.pending.Keys, {sid}, Set(c.free));
  }

  lemma LostBack(taken: set<nat>, sid: nat, lost: set<nat>)
    ensures taken + {sid} + (lost - {sid}) == taken + {sid} + lost
  {
  }

  lemma AcquireKeeps(c: Core)
    ensures Acquire(c).0 == c.(free := Acquire(c).0.free, nextSid := Acquire(c).0.nextSid)
  {
  }

  lemma SubmitLaws(c: Core, h: History, hmac: Hmac, r: Request, arrive: bool)
    requires Laws(c, h)
    ensures Laws(Session.Submit(c, hmac, r, arrive).0, NoteSubmit(h, c, hmac, r, arrive))
  {
    hide Opening, Signing, Space, Ids, Acquire, NoteAcquire, Send, Accounted, NoteSent, Encodable;
    if c.phase == Ready {
      var got, sid := Acquire(c).0, Acquire(c).1;
      var g := NoteAcquire(h, c);
      AcquireFresh(c);
      AcquireSound(c, h);
      AcquireOpening(c, h);
      AcquireKeeps(c);
      if sid.Ok? && Encodable(r) {
        SubmitSent(c, h, hmac, r, arrive);
      } else {
        SubmitUnsent(c, h, r);
      }
    }
  }

  lemma SubmitSent(c: Core, h: History, hmac: Hmac, r: Request, arrive: bool)
    requires Laws(c, h) && c.phase == Ready && Acquire(c).1.Ok? && Encodable(r)
    ensures var (got, sid) := Acquire(c);
            Laws(Send(got, hmac, r, sid.value, arrive), NoteSent(NoteAcquire(h, c), c, r, sid.value))
  {
    hide Opening, Signing, Ids, Acquire, Send, Ledger, NoteSent, Encodable, Taken, Issued;
    var got, sid := Acquire(c).0, Acquire(c).1.value;
    var g := NoteAcquire(h, c);
    AcquireFresh(c);
    AcquireSound(c, h);
    AcquireOpening(c, h);
    AcquireKeeps(c);
    AcquireSpace(c, h);
    AcquireApart(c);
    SendIds(got, hmac, r, sid, arrive);
    SentLedger(g, c, r, sid);
    SentTold(got, g, hmac, r, sid, arrive, c);
    SentOpening(got, g, hmac, r, sid, arrive, c);
    NoteSentSame(g, c, got, r, sid);
    SentSigning(got, g, hmac, r, sid, arrive);
    SentSpace(got, g, hmac, r, sid, arrive, c);
  }

  lemma NoteSentSame(g: History, c: Core, d: Core, r: Request, sid: nat)
    requires c.signer == d.signer
    ensures NoteSent(g, c, r, sid) == NoteSent(g, d, r, sid)
  {
    hide Covers;
  }

  /** An exhausted space, or an encoding that fails after an id was taken. */
  lemma SubmitUnsent(c: Core, h: History, r: Request)
    requires Laws(c, h) && c.phase == Ready
    ensures var (got, sid) := Acquire(c);
            var g := NoteAcquire(h, c);
            && (sid.Err? ==> Laws(got, g))
            && (sid.Ok? ==> Laws(got, g.(lost := g.lost + {sid.value}, refused := g.refused + 1)))
  {
    hide Opening, Signing, Ids, Acquire, Ledger, Taken, Issued;
    var got, sid := Acquire(c).0, Acquire(c).1;
    var g := NoteAcquire(h, c);
    AcquireSound(c, h);
    AcquireOpening(c, h);
    AcquireKeeps(c);
    AcquireSpace(c, h);
    AcquireApart(c);
    if sid.Ok? {
      LostLaws(got, g, sid.value, g.refused + 1);
      UnionMoves(Taken(got), sid.value, h.lost);
    } else {
      assert Taken(got) + {} == Taken(got);
    }
  }

  lemma UnionMoves(a: set<nat>, x: nat, b: set<nat>)
    ensures a + (b + {x}) == a + {x} + b
  {
  }

  lemma LostLaws(c: Core, g: History, sid: nat, refused: nat)
    requires Sound(c, g) && Opening(c, g) && Signing(c, g)
    ensures var n := g.(lost := g.lost + {sid}, refused := refused); Sound(c, n) && Opening(c, n) && Signing(c, n)
  {
    assert Ledger(g.(lost := g.lost + {sid}, refused := refused));
    assert Opening(c, g.(lost := g.lost + {sid}, refused := refused)) by {
      hide DemandsTls, FrameOf, Greeting, Ledger, Ids, Said;
    }
    hide Ids, Ledger, Opening;
  }

  // ----- closing, and bytes from a link -----

  lemma ClosedLaws(c: Core, h: History, d: Core)
    requires Laws(c, h) && d == Emit(c.(phase := Closed), Disconnected(false))
    ensures Laws(d, h)
  {
    hide Sound, Signing, Space;
    assert Opening(d, h) by { hide DemandsTls, FrameOf, Greeting; }
    hide Opening;
    QueueLaws(c, h, d);
  }

  lemma CloseLaws(c: Core, h: History, graceful: bool)
    requires Laws(c, h)
    ensures Laws(Session.Close(c, graceful).0, NoteClose(h, c, graceful))
  {
    hide Laws, Acquire, NoteAcquire, FrameOf;
    if c.phase == Ready && graceful && c.sessionId != [] {
      SubmitUnsent(c, h, EndSessionRequest(c.sessionId));
      AcquireKeeps(c);
      if Acquire(c).1.Ok? {
        GracefulLaws(c, h);
      }
    } else {
      ClosedLaws(c, h, Session.Close(c, graceful).0);
    }
  }

  lemma GracefulLaws(c: Core, h: History)
    requires Laws(c, h) && c.phase == Ready && Acquire(c).1.Ok? && c.sessionId != []
    ensures var g := NoteAcquire(h, c);
            Laws(Session.Close(c, true).0, g.(lost := g.lost + {Acquire(c).1.value}))
  {
    hide Acquire, FrameOf, Taken, Issued, Opening, Sound, Signing;
    var got, sid := Acquire(c).0, Acquire(c).1.value;
    var g := NoteAcquire(h, c);
    SoundIds(c, h);
    AcquireSound(c, h);
    AcquireOpening(c, h);
    AcquireKeeps(c);
    AcquireSpace(c, h);
    AcquireApart(c);
    LostLaws(got, g, sid, g.refused);
    var n := g.(lost := g.lost + {sid});
    assert n == g.(lost := g.lost + {sid}, refused := g.refused);
    var d := Session.Close(c, true).0;
    EndedOpening(got, n, d);
    SoundSame(got, n, d, n.readies);
    assert n.(readies := n.readies) == n;
    TakenSame(got, d);
    UnionMoves(Taken(got), sid, h.lost);
    SigningSame(got, n, d);
  }

  lemma SigningSame(c: Core, h: History, d: Core)
    requires Signing(c, h) && d.signer == c.signer
    ensures Signing(d, h)
  {
  }

  lemma EndedOpening(c: Core, h: History, d: Core)
    requires Opening(c, h) && c.phase == Ready && d.phase == Closed
    requires d.pending == c.pending && d.tlsActive == c.tlsActive && d.info == c.info && d.cfg == c.cfg
    ensures Opening(d, h)
  {
    hide DemandsTls, FrameOf, Greeting;
  }

  lemma {:induction false} TellAllBook(h: History, es: seq<Event>)
    ensures SameBook(h, TellAll(h, es))
    decreases |es|
  {
    if es != [] {
      TellAllBook(h, es[..|es| - 1]);
      TellBook(TellAll(h, es[..|es| - 1]), es[|es| - 1]);
      hide Tell;
    }
  }

  lemma EofLaws(c: Core, h: History)
    requires Laws(c, h)
    ensures var d := OnEof(c); c.events <= d.events && Laws(d, NoteEof(After(h, c, d), c))
  {
    hide Opening, Sound, Signing, OnEof, Space, Accounted, TellAll;
    var d := OnEof(c);
    OnEofSound(c, h);
    var g := After(h, c, d);
    TellAllBook(h, d.events[|c.events|..]);
    if c.phase == Closed || c.phase == Failed {
      assert d == c by { EofIgnored(c); }
      AfterSame(h, c, d);
    } else {
      EofStands(c, h);
      SoundIds(c, h);
      EofOpening(c, h, d, g);
      EofSpace(c, h, d, g);
      LostAllLaws(d, g, c.pending.Keys);
    }
  }

  lemma EofIgnored(c: Core)
    requires c.phase == Closed || c.phase == Failed
    ensures OnEof(c) == c
  {
  }

  lemma EofStands(c: Core, h: History)
    requires Sound(c, h) && c.phase != Closed && c.phase != Failed
    ensures var d := OnEof(c);
            d.phase == Closed && d.pending == map[] && d.free == c.free && d.nextSid == c.nextSid && d.out == c.out
            && d.signer == c.signer && d.tlsActive == c.tlsActive && d.info == c.info && d.cfg == c.cfg
  {
    EmitFailuresTold(c.(phase := Closed), h, c.order, PeerClosed);
    hide EmitFailures, After;
  }

  lemma EofOpening(c: Core, h: History, d: Core, g: History)
    requires Opening(c, h) && d.phase == Closed && d.pending == map[] && d.out == c.out
    requires d.tlsActive == c.tlsActive && d.info == c.info && d.cfg == c.cfg
    requires SameBook(h, g) && g.readies == h.readies
    ensures Opening(d, g)
  {
    hide DemandsTls, FrameOf, Greeting;
  }

  lemma EofSpace(c: Core, h: History, d: Core, g: History)
    requires Space(c, h) && Signing(c, h) && SameBook(h, g) && d.phase == Closed && Ids(c)
    requires d.pending == map[] && d.free == c.free && d.nextSid == c.nextSid && d.signer == c.signer
    ensures Space(d, g.(lost := g.lost + c.pending.Keys)) && Signing(d, g)
  {
    hide Set, Issued, Ids;
    assert d.pending.Keys == {};
    var free := Set(c.free);
    assert {} + free + (h.lost + c.pending.Keys) == c.pending.Keys + free + h.lost;
    FreeApart(c);
  }

  lemma FreeApart(c: Core)
    requires Ids(c)
    ensures Set(c.free) !! c.pending.Keys
  {
    hide NoDup;
  }

  lemma LostAllLaws(c: Core, g: History, more: set<nat>)
    requires Sound(c, g) && Opening(c, g) && Signing(c, g)
    ensures var n := g.(lost := g.lost + more); Sound(c, n) && Opening(c, n) && Signing(c, n)
  {
    assert Ledger(g.(lost := g.lost + more));
    assert Opening(c, g.(lost := g.lost + more)) by { hide DemandsTls, FrameOf, Greeting, Ledger, Ids, Said; }
    hide Ids, Ledger, Opening;
  }

  lemma PathEofLaws(m: Machine, h: History, pathid: nat)
    requires Laws(m.core, h)
    ensures var d := OnPathEof(m, pathid).core; m.core.events <= d.events && Laws(d, After(h, m.core, d))
  {
    hide Opening, Sound, Signing, Space, Calm, OnPathEof, TellAll;
    var d := OnPathEof(m, pathid).core;
    OnPathEofSound(m, h, pathid);
    PathEofCalm(m, h, pathid);
    TellAllBook(h, d.events[|m.core.events|..]);
    CalmLaws(m.core, h, d, After(h, m.core, d));
  }

  lemma PathEofCalm(m: Machine, h: History, pathid: nat)
    requires Sound(m.core, h)
    ensures Calm(m.core, OnPathEof(m, pathid).core)
  {
    var c := m.core;
    var sids := OnPath(c.order, c.pending, pathid);
    SoundKeys(c, h);
    OnPathIs(c.order, c.pending, pathid);
    EmitFailuresTold(c, h, sids, PathClosed(pathid));
    var told := EmitFailures(c, sids, PathClosed(pathid));
    hide OnPath, EmitFailures, After, Accounted, DropPath;
    IdsSame(c, told);
    hide Ids;
    DropCalm(m.(core := told), pathid);
    var dropped := DropPath(m.(core := told), pathid).core;
    hide Taken;
    TakenSame(c, told);
    TakenSame(dropped, OnPathEof(m, pathid).core);
  }

  lemma DropCalm(m: Machine, pathid: nat)
    requires Ids(m.core)
    ensures Calm(m.core, DropPath(m, pathid).core)
  {
    ReleaseAllCalm(m.core, OnPath(m.core.order, m.core.pending, pathid));
    hide ReleaseAll, OnPath, Ids;
  }

  lemma ReceiveLaws(m: Machine, h: History, data: bytes, link: nat)
    requires Laws(m.core, h)
    ensures var d := Session.Receive(m, data, link).0.core;
            m.core.events <= d.events
            && Laws(d, if data == [] && link == 0 then NoteEof(After(h, m.core, d), m.core) else After(h, m.core, d))
  {
    hide Laws, After, OnEof, OnPathEof, Parse, NoteEof;
    if data == [] {
      if link == 0 {
        EofLaws(m.core, h);
      } else {
        PathEofLaws(m.(framers := m.framers[link := FramerOf(m, link)]), h, link);
      }
    } else {
      var f := FramerOf(m, link);
      ParseLaws(m.core, h, f.(buffer := f.buffer + data));
    }
  }

  // ----- every run -----

  /** Every call but `Receive` adds no event about a stream, and no Ready. */
  lemma CallTells(m: Machine, h: History, hmac: Hmac, call: Call)
    requires Laws(m.core, h) && !call.Receive?
    ensures Heard(h, m.core, Do(m, hmac, call).core) == h
  {
    hide Laws, After, FrameOf, Acquire, Send, DropPath;
    var c, d := m.core, Do(m, hmac, call).core;
    AfterSame(h, c, c);
    match call
    case Submit(r, arrive) =>
      SubmitEvents(c, hmac, r, arrive);
      AfterSame(h, c, d);
    case ForgetPath(p) =>
      DropPathEvents(m, h, p);
      AfterSame(h, c, d);
    case Close(graceful) =>
      CloseTells(c, h, graceful);
    case NextEvent =>
      if c.events == [] { AfterSame(h, c, d); }
    case _ => AfterSame(h, c, d);
  }

  lemma SubmitEvents(c: Core, hmac: Hmac, r: Request, arrive: bool)
    ensures Session.Submit(c, hmac, r, arrive).0.events == c.events
  {
    hide Signed, SignerAfter;
  }

  lemma DropPathEvents(m: Machine, h: History, pathid: nat)
    requires Laws(m.core, h)
    ensures DropPath(m, pathid).core.events == m.core.events
  {
    hide Opening, Signing, Space, DropPath, Sound;
    DropPathSound(m, h, pathid);
  }

  lemma CloseTells(c: Core, h: History, graceful: bool)
    ensures Heard(h, c, Session.Close(c, graceful).0) == h
  {
    hide After, FrameOf, Acquire;
    var d := Session.Close(c, graceful).0;
    AcquireKeeps(c);
    if d.events == c.events {
      AfterSame(h, c, d);
    } else {
      assert d.events == c.events + [Disconnected(false)];
      AfterOne(h, c, d, Disconnected(false));
    }
  }

  lemma StepLaws(w: World, hmac: Hmac, call: Call)
    requires Laws(w.machine.core, w.history)
    ensures var v := Step(w, hmac, call); Laws(v.machine.core, v.history)
  {
    hide Laws, Session.Start, Session.Submit, Session.Resume, Session.Release, Session.Close, Session.TlsEstablished,
         Session.Receive, DropPath, NoteSubmit, NoteClose, NoteEof, After, GiveUp, Heard;
    var m, h := w.machine, w.history;
    var c := m.core;
    if !call.Receive? { CallTells(m, h, hmac, call); }
    match call
    case Start => StartLaws(c, h);
    case Drain => DrainLaws(c, h);
    case DrainPath(p) => SameLaws(c, h, c.(outPath := c.outPath - {p}));
    case Submit(r, arrive) => SubmitLaws(c, h, hmac, r, arrive);
    case Resume(sid) => ResumeLaws(c, h, sid);
    case Release(sid) => ReleaseLaws(c, h, sid);
    case Close(graceful) => CloseLaws(c, h, graceful);
    case TlsEstablished => TlsLaws(c, h);
    case Receive(data, link) =>
      ReceiveLaws(m, h, data, link);
      HeardIs(h, c, Do(m, hmac, call).core);
    case ForgetPath(p) => ForgetLaws(m, h, p);
    case NextEvent => SameLaws(c, h, Do(m, hmac, call).core);
  }

  lemma HeardIs(h: History, c: Core, d: Core)
    requires c.events <= d.events
    ensures Heard(h, c, d) == After(h, c, d)
  {
  }

  /** Every run keeps the laws. */
  lemma {:induction false} RunLaws(cfg: Config, ladder: seq<Credential>, hmac: Hmac, calls: seq<Call>)
    ensures var w := Run(cfg, ladder, hmac, calls); Laws(w.machine.core, w.history)
    decreases |calls|
  {
    hide Laws, Step, Initial;
    if calls == [] {
      InitialLaws(cfg, ladder);
    } else {
      RunLaws(cfg, ladder, hmac, calls[..|calls| - 1]);
      StepLaws(Run(cfg, ladder, hmac, calls[..|calls| - 1]), hmac, calls[|calls| - 1]);
    }
  }
}
