/** Whole runs of the session machine: every sequence of driver calls and received bytes,
    with a history kept from the events alone. */
module SessionRuns {
  import opened Octets
  import opened Frames
  import opened Session
  import Framing

  // ----- the history -----

  /** What an observer of the calls and events knows.
      `owner` numbers the submission behind each stream that has had no terminal event and
      was not abandoned; `got` joins its chunks so far. `orphans` counts stream events for
      no such stream.
      `lost` are ids taken but neither in flight nor free, `refused` the submissions whose
      encoding failed, `wrapped` whether the id counter has been all the way round. */
  datatype History = History(
    submitted: nat, owner: map<nat, nat>, got: map<nat, bytes>,
    ended: set<nat>, endings: nat, abandoned: set<nat>, orphans: nat,
    readies: nat, drained: bytes, seqnos: seq<nat>, wrapped: bool, lost: set<nat>, refused: nat)

  const NOTHING_YET := History(0, map[], map[], {}, 0, {}, 0, 0, [], [], false, {}, 0)

  function End(h: History, sid: nat): History {
    if sid !in h.owner then h.(orphans := h.orphans + 1, endings := h.endings + 1)
    else h.(ended := h.ended + {h.owner[sid]}, endings := h.endings + 1, owner := h.owner - {sid}, got := h.got - {sid})
  }

  function Tell(h: History, e: Event): History {
    match e
    case Chunk(sid, _, data) =>
      if sid !in h.got then h.(orphans := h.orphans + 1) else h.(got := h.got[sid := h.got[sid] + data])
    case Completed(sid, _, _, _) => End(h, sid)
    case StreamFailed(sid, _, _) => End(h, sid)
    case NowReady(_, _) => h.(readies := h.readies + 1)
    case _ => h
  }

  function TellAll(h: History, es: seq<Event>): History {
    if es == [] then h else Tell(TellAll(h, es[..|es| - 1]), es[|es| - 1])
  }

  /** The history once the events between two states of the machine are told. */
  ghost function After(h: History, c: Core, c': Core): History
    requires c.events <= c'.events
  {
    TellAll(h, c'.events[|c.events|..])
  }

  lemma AfterSame(h: History, c: Core, c': Core)
    requires c.events == c'.events
    ensures After(h, c, c') == h
  {
  }

  lemma AfterOne(h: History, c: Core, c': Core, e: Event)
    requires c'.events == c.events + [e]
    ensures After(h, c, c') == Tell(h, e)
  {
    assert c'.events[|c.events|..] == [e];
    assert TellAll(h, [e]) == Tell(TellAll(h, [e][..0]), e);
    assert [e][..0] == [];
  }

  lemma {:induction false} TellAllConcat(h: History, a: seq<Event>, b: seq<Event>)
    ensures TellAll(h, a + b) == TellAll(TellAll(h, a), b)
    decreases |b|
  {
    hide Tell;
    if b == [] {
      assert a + b == a;
    } else {
      assert (a + b)[..|a + b| - 1] == a + b[..|b| - 1];
      TellAllConcat(h, a, b[..|b| - 1]);
    }
  }

  lemma AfterTwo(h: History, c: Core, c': Core, c'': Core)
    requires c.events <= c'.events <= c''.events
    ensures After(h, c, c'') == After(After(h, c, c'), c', c'')
  {
    hide TellAll;
    var a, b := c'.events[|c.events|..], c''.events[|c'.events|..];
    assert c''.events[|c.events|..] == a + b;
    TellAllConcat(h, a, b);
  }

  // ----- stream ids -----

  ghost predicate InSpace(sid: nat) { FIRST_SID <= sid <= LAST_SID }

  ghost predicate NoDup(s: seq<nat>) { forall i, j | 0 <= i < j < |s| :: s[i] != s[j] }

  /** Ids in flight and the free list are disjoint, without duplicates, and in 4..65535. */
  ghost predicate Ids(c: Core) {
    && InSpace(c.nextSid)
    && (forall sid | sid in c.pending :: InSpace(sid))
    && (forall i | 0 <= i < |c.free| :: InSpace(c.free[i]) && c.free[i] !in c.pending)
    && NoDup(c.free)
    && NoDup(c.order)
    && (forall sid :: sid in c.order <==> sid in c.pending)
  }

  lemma HeadAbsent(order: seq<nat>)
    requires NoDup(order) && order != []
    ensures order[0] !in order[1..]
  {
    forall k | 0 <= k < |order[1..]|
      ensures order[1..][k] != order[0]
    {
      assert order[1..][k] == order[k + 1];
    }
  }

  lemma {:induction false} WithoutIs(order: seq<nat>, sid: nat)
    requires NoDup(order)
    ensures NoDup(Without(order, sid))
    ensures forall x :: x in Without(order, sid) <==> x in order && x != sid
    decreases |order|
  {
    if order != [] {
      assert NoDup(order[1..]);
      WithoutIs(order[1..], sid);
      assert order == [order[0]] + order[1..];
      HeadAbsent(order);
    }
  }

  lemma ReleaseIds(c: Core, sid: nat)
    requires Ids(c)
    ensures Ids(Release(c, sid))
  {
    hide Without;
    if sid in c.pending {
      WithoutIs(c.order, sid);
      var r := Release(c, sid);
      forall i | 0 <= i < |r.free|
        ensures InSpace(r.free[i]) && r.free[i] !in r.pending
      {
        if i < |c.free| { assert r.free[i] == c.free[i]; }
      }
      forall i, j | 0 <= i < j < |r.free|
        ensures r.free[i] != r.free[j]
      {
        assert r.free[i] == c.free[i] && c.free[i] !in c.pending;
        if j < |c.free| { assert r.free[j] == c.free[j]; }
      }
    }
  }

  /** An id handed out is in the space, not in flight, and leaves the free list. */
  lemma AcquireFresh(c: Core)
    requires Ids(c)
    ensures Ids(Acquire(c).0)
    ensures Acquire(c).1.Ok? ==>
              var sid := Acquire(c).1.value;
              InSpace(sid) && sid !in c.pending && sid !in Acquire(c).0.free && Acquire(c).0.pending == c.pending
  {
    if c.free != [] {
      var n := |c.free| - 1;
      var r := Acquire(c).0;
      assert r.free == c.free[..n];
      forall i | 0 <= i < |r.free|
        ensures InSpace(r.free[i]) && r.free[i] !in r.pending && r.free[i] != c.free[n]
      {
        assert r.free[i] == c.free[i];
      }
    }
  }

  lemma SendIds(c: Core, hmac: Hmac, r: Request, sid: nat, arrive: bool)
    requires Ids(c) && Encodable(r) && InSpace(sid) && sid !in c.pending && sid !in c.free
    ensures Ids(Send(c, hmac, r, sid, arrive))
  {
    hide Signed, SignerAfter;
    var s := Send(c, hmac, r, sid, arrive);
    assert s.order == c.order + [sid] && s.free == c.free && s.pending.Keys == c.pending.Keys + {sid};
    assert sid !in c.order;
  }

  /** Updating one stream's record keeps the ids. */
  lemma UpdateIds(c: Core, sid: nat, p: Pending)
    requires Ids(c) && sid in c.pending
    ensures Ids(c.(pending := c.pending[sid := p]))
  {
    var d := c.(pending := c.pending[sid := p]);
    assert d.pending.Keys == c.pending.Keys;
  }

  // ----- accounting -----

  /** Every submission is in flight, ended by exactly one terminal event, or abandoned. */
  ghost predicate Ledger(h: History) {
    && (forall sid | sid in h.owner ::
          h.owner[sid] < h.submitted && h.owner[sid] !in h.ended && h.owner[sid] !in h.abandoned)
    && (forall x, y | x in h.owner && y in h.owner && x != y :: h.owner[x] != h.owner[y])
    && h.ended !! h.abandoned
    && (forall i | i in h.ended || i in h.abandoned :: i < h.submitted)
    && |h.ended| == h.endings
    && h.endings + |h.abandoned| + |h.owner| == h.submitted
  }

  /** The pending table is what the events say it is: the same streams, each buffer the join
      of its chunks; and no event was ever out of place. */
  ghost predicate Told(c: Core, h: History) {
    && h.owner.Keys == c.pending.Keys && h.got.Keys == c.pending.Keys
    && (forall sid | sid in c.pending :: h.got[sid] == c.pending[sid].buffer)
    && h.orphans == 0
  }

  ghost predicate Accounted(c: Core, h: History) { Ledger(h) && Told(c, h) }

  lemma EndLedger(h: History, sid: nat)
    requires Ledger(h) && sid in h.owner
    ensures Ledger(End(h, sid))
  {
    CardPlus(h.ended, h.owner[sid]);
    CardMinus(h.owner, sid);
  }

  lemma EndTold(c: Core, h: History, sid: nat)
    requires Told(c, h) && sid in c.pending
    ensures Told(Release(c, sid), End(h, sid))
  {
    hide Without;
  }

  lemma CompletedAccounted(c: Core, h: History, sid: nat, data: bytes, status: Option<Status>)
    requires Accounted(c, h) && sid in c.pending
    ensures Accounted(Emit(Release(c, sid), Completed(sid, c.pending[sid].request, c.pending[sid].buffer + data,
        status)),
                      Tell(h, Completed(sid, c.pending[sid].request, c.pending[sid].buffer + data, status)))
  {
    hide Release, End, Ledger;
    EndTold(c, h, sid);
    EndLedger(h, sid);
  }

  lemma FailedAccounted(c: Core, h: History, sid: nat, why: Reason)
    requires Accounted(c, h) && sid in c.pending
    ensures Accounted(Emit(Release(c, sid), StreamFailed(sid, c.pending[sid].request, why)),
                      Tell(h, StreamFailed(sid, c.pending[sid].request, why)))
  {
    hide Release, End, Ledger;
    EndTold(c, h, sid);
    EndLedger(h, sid);
  }

  lemma ChunkAccounted(c: Core, h: History, sid: nat, data: bytes)
    requires Accounted(c, h) && sid in c.pending
    ensures var p := c.pending[sid];
            Accounted(Emit(c.(pending := c.pending[sid := p.(buffer := p.buffer + data)]), Chunk(sid, p.request, data)),
                      Tell(h, Chunk(sid, p.request, data)))
  {
    var p := c.pending[sid];
    TellChunk(h, sid, p.request, data);
    ChunkTold(c, h, sid, data);
    GotFree(h, h.got[sid := h.got[sid] + data]);
    hide Ledger, Told, Tell;
    var d := c.(pending := c.pending[sid := p.(buffer := p.buffer + data)]);
    ToldSame(d, Emit(d, Chunk(sid, p.request, data)), h.(got := h.got[sid := h.got[sid] + data]));
  }

  lemma TellChunk(h: History, sid: nat, r: Request, data: bytes)
    requires sid in h.got
    ensures Tell(h, Chunk(sid, r, data)) == h.(got := h.got[sid := h.got[sid] + data])
  {
  }

  lemma ChunkTold(c: Core, h: History, sid: nat, data: bytes)
    requires Told(c, h) && sid in c.pending
    ensures var p := c.pending[sid];
            Told(c.(pending := c.pending[sid := p.(buffer := p.buffer + data)]),
              h.(got := h.got[sid := h.got[sid] + data]))
  {
    var p := c.pending[sid];
    var d := c.(pending := c.pending[sid := p.(buffer := p.buffer + data)]);
    assert d.pending.Keys == c.pending.Keys && h.got[sid := h.got[sid] + data].Keys == h.got.Keys;
  }

  lemma ToldSame(c: Core, d: Core, h: History)
    requires Told(c, h) && d.pending == c.pending
    ensures Told(d, h)
  {
  }

  lemma GotFree(h: History, got: map<nat, bytes>)
    requires Ledger(h)
    ensures Ledger(h.(got := got))
  {
  }

  lemma NotedAccounted(c: Core, h: History, sid: nat, st: Option<Status>)
    requires Accounted(c, h) && sid in c.pending
    ensures Accounted(c.(pending := c.pending[sid := c.pending[sid].(status := st)]), h)
  {
    hide Ledger;
    var d := c.(pending := c.pending[sid := c.pending[sid].(status := st)]);
    assert d.pending.Keys == c.pending.Keys;
  }

  // ----- one frame -----

  /** The stream tables are in order, and agree with the history. */
  ghost predicate Sound(c: Core, h: History) { Ids(c) && Accounted(c, h) }

  lemma StatusDataSound(c: Core, h: History, sid: nat, data: bytes)
    requires Sound(c, h)
    ensures var d := StatusData(c, sid, data); c.events <= d.events && Sound(d, After(h, c, d))
  {
    hide After, Tell, Release, Ids, Accounted;
    var d := StatusData(c, sid, data);
    if sid !in c.pending || c.pending[sid].status == None {
      AfterSame(h, c, d);
    } else {
      var p := c.pending[sid];
      if IsFinal(p.status.value) {
        ReleaseIds(c, sid);
        CompletedAccounted(c, h, sid, data, p.status);
        ReleaseEvents(c, sid);
        AfterOne(h, c, d, Completed(sid, p.request, p.buffer + data, p.status));
        EmitIds(Release(c, sid), Completed(sid, p.request, p.buffer + data, p.status));
      } else {
        UpdateIds(c, sid, p.(buffer := p.buffer + data));
        ChunkAccounted(c, h, sid, data);
        AfterOne(h, c, d, Chunk(sid, p.request, data));
        EmitIds(c.(pending := c.pending[sid := p.(buffer := p.buffer + data)]), Chunk(sid, p.request, data));
      }
    }
  }

  lemma ReleaseEvents(c: Core, sid: nat)
    ensures Release(c, sid).events == c.events && Release(c, sid).out == c.out
    ensures Release(c, sid).phase == c.phase && Release(c, sid).signer == c.signer && Release(c, sid).cfg == c.cfg
  {
  }

  lemma EmitIds(c: Core, e: Event)
    requires Ids(c)
    ensures Ids(Emit(c, e))
  {
  }

  /** Events about the session rather than about a stream. */
  ghost predicate AboutSession(e: Event) { !e.Chunk? && !e.Completed? && !e.StreamFailed? }

  /** Soundness is about the stream tables only. */
  lemma SoundSame(c: Core, h: History, d: Core, readies: nat)
    requires Sound(c, h) && d.pending == c.pending && d.order == c.order && d.free == c.free && d.nextSid == c.nextSid
    ensures Sound(d, h.(readies := readies))
  {
    ReadiesFree(h, readies);
    hide Ledger;
  }

  lemma SessionEventSound(c: Core, h: History, e: Event)
    requires Sound(c, h) && AboutSession(e)
    ensures Sound(Emit(c, e), After(h, c, Emit(c, e)))
  {
    hide After, Sound;
    AfterOne(h, c, Emit(c, e), e);
    SoundSame(c, h, Emit(c, e), Tell(h, e).readies);
    assert Tell(h, e) == h.(readies := Tell(h, e).readies);
  }

  lemma ReadiesFree(h: History, n: nat)
    requires Ledger(h)
    ensures Ledger(h.(readies := n))
  {
  }

  /** A terminal event for a stream: a completion begins with what it has so far. */
  ghost predicate Ends(e: Event, sid: nat, p: Pending) {
    || (e.Completed? && e.sid == sid && e.request == p.request && p.buffer <= e.data)
    || (e.StreamFailed? && e.sid == sid && e.request == p.request)
  }

  lemma EndedSound(c: Core, h: History, sid: nat, e: Event)
    requires Sound(c, h) && sid in c.pending
    requires Ends(e, sid, c.pending[sid])
    ensures var d := Emit(Release(c, sid), e); c.events <= d.events && Sound(d, After(h, c, d))
  {
    hide After, Tell, Release, Ids, Accounted;
    var d := Emit(Release(c, sid), e);
    ReleaseIds(c, sid);
    ReleaseEvents(c, sid);
    EmitIds(Release(c, sid), e);
    AfterOne(h, c, d, e);
    if e.Completed? {
      var rest := e.data[|c.pending[sid].buffer|..];
      assert e.data == c.pending[sid].buffer + rest;
      CompletedAccounted(c, h, sid, rest, e.status);
    } else {
      FailedAccounted(c, h, sid, e.why);
    }
  }

  lemma OnResponseSound(c: Core, h: History, sid: nat, status: nat, body: bytes)
    requires Sound(c, h) && sid in c.pending
    ensures var d := OnResponse(c, sid, status, body).core; c.events <= d.events && Sound(d, After(h, c, d))
  {
    hide After, Tell, Release, Sound, StatusData, ParseStatus, UntilNul, RedirectHost;
    var p := c.pending[sid];
    var d := OnResponse(c, sid, status, body).core;
    if status == KXR_OK {
      EndedSound(c, h, sid, Completed(sid, p.request, p.buffer + body, p.status));
    } else if status == KXR_OKSOFAR {
      ChunkSound(c, h, sid, body);
    } else if status == KXR_STATUS {
      if ParseStatus(body) == None {
        AfterSame(h, c, d);
      } else {
        var st := ParseStatus(body).value;
        var noted := c.(pending := c.pending[sid := p.(status := Some(st))]);
        NotedSound(c, h, sid, Some(st));
        if st.dlen != 0 {
          AfterSame(h, c, d);
        } else {
          StatusDataSound(noted, h, sid, []);
          AfterNoted(h, c, noted, d);
        }
      }
    } else if d == c {
      AfterSame(h, c, d);
    } else if status == KXR_REDIRECT || status == KXR_WAIT || status == KXR_WAITRESP {
      SessionEventSound(c, h, d.events[|c.events|]);
    } else {
      EndedSound(c, h, sid, StreamFailed(sid, p.request, if status == KXR_ERROR then ServerSaid(body)
        else UnexpectedStatus(status)));
    }
  }

  lemma ChunkSound(c: Core, h: History, sid: nat, data: bytes)
    requires Sound(c, h) && sid in c.pending
    ensures var p := c.pending[sid];
            var d := Emit(c.(pending := c.pending[sid := p.(buffer := p.buffer + data)]), Chunk(sid, p.request, data));
            Sound(d, After(h, c, d))
  {
    hide After, Tell, Ids, Accounted;
    var p := c.pending[sid];
    var u := c.(pending := c.pending[sid := p.(buffer := p.buffer + data)]);
    UpdateIds(c, sid, p.(buffer := p.buffer + data));
    ChunkAccounted(c, h, sid, data);
    AfterOne(h, c, Emit(u, Chunk(sid, p.request, data)), Chunk(sid, p.request, data));
    EmitIds(u, Chunk(sid, p.request, data));
  }

  lemma NotedSound(c: Core, h: History, sid: nat, st: Option<Status>)
    requires Sound(c, h) && sid in c.pending
    ensures Sound(c.(pending := c.pending[sid := c.pending[sid].(status := st)]), h)
  {
    hide Ids, Accounted;
    UpdateIds(c, sid, c.pending[sid].(status := st));
    NotedAccounted(c, h, sid, st);
  }

  lemma AfterNoted(h: History, c: Core, noted: Core, d: Core)
    requires c.events == noted.events && noted.events <= d.events
    ensures After(h, c, d) == After(h, noted, d)
  {
  }

  // ----- bring-up touches no stream -----

  /** Same streams, and only session events; `ready` of them NowReady. */
  ghost predicate OnlySession(c: Core, d: Core, ready: nat) {
    && c.events <= d.events
    && d.pending == c.pending && d.order == c.order && d.free == c.free && d.nextSid == c.nextSid && d.cfg == c.cfg
    && (forall i | |c.events| <= i < |d.events| :: AboutSession(d.events[i]))
    && (ready == 0 ==> forall i | |c.events| <= i < |d.events| :: !d.events[i].NowReady?)
    && (ready != 0 ==> ready == 1 && |d.events| == |c.events| + 1 && d.events[|c.events|].NowReady?)
  }

  lemma {:induction false} NextCredentialOnly(c: Core)
    requires c.phase == Auth
    ensures OnlySession(c, NextCredential(c), 0)
    ensures NextCredential(c).phase == Auth || NextCredential(c).phase == Failed
    ensures NextCredential(c).signer == c.signer && NextCredential(c).tlsActive == c.tlsActive
        && NextCredential(c).info == c.info
    decreases |c.ladder|
  {
    hide FrameOf;
    if c.ladder != [] && c.ladder[0].initial == None {
      NextCredentialOnly(c.(ladder := c.ladder[1..]));
    }
  }

  lemma OnlyThen(c: Core, d: Core, e: Core)
    requires OnlySession(c, d, 0) && OnlySession(d, e, 0)
    ensures OnlySession(c, e, 0)
  {
  }

  lemma AfterProtocolOnly(c: Core)
    ensures OnlySession(c, AfterProtocol(c), 0) && AfterProtocol(c).phase != Ready
  {
    hide FrameOf, DemandsTls, HasTls;
  }

  lemma BecomeReadyOnly(c: Core)
    ensures OnlySession(c, BecomeReady(c), 1) && BecomeReady(c).phase == Ready
  {
  }

  lemma AuthStepOnly(c: Core)
    requires c.phase == Auth
    ensures OnlySession(c, AuthStep(c), 0) && AuthStep(c).phase != Ready
  {
    hide FrameOf, NextCredential;
    NextCredentialOnly(c);
  }

  /** Bring-up emits NowReady exactly when it becomes ready. */
  lemma BringUpOnly(c: Core, status: nat, body: bytes)
    requires InBringUp(c.phase)
    ensures var d := BringUp(c, status, body).0;
            OnlySession(c, d, if d.phase == Ready then 1 else 0)
  {
    hide NextCredential, ParseProtocol, UntilNul, AfterProtocol, BecomeReady, AuthStep, OnlySession;
    var d := BringUp(c, status, body).0;
    PhaseOnly(c, d);
    if c.phase == Protocol {
      if ParseProtocol(body) != None {
        var info := ParseProtocol(body).value;
        var told := Emit(c.(info := info), Negotiated(info));
        EmitOnly(c, told, Negotiated(info));
        AfterProtocolOnly(told);
        OnlyThen(c, told, AfterProtocol(told));
      }
    } else if c.phase == Bind {
      if body != [] {
        BecomeReadyOnly(c.(boundPath := body[0] as nat));
        OnlyFrom(c, c.(boundPath := body[0] as nat), d, 1);
      }
    } else if c.phase == Login {
      var named := c.(sessionId := Slice(body, 0, 16));
      BecomeReadyOnly(named);
      NextCredentialOnly(named.(phase := Auth));
      OnlyFrom(c, named, d, 1);
      OnlyFrom(c, named.(phase := Auth), d, 0);
    } else if c.phase == Auth {
      BecomeReadyOnly(c);
      AuthStepOnly(c);
    }
  }

  /** Nothing, or one failure, or a change of fields that are not streams. */
  lemma PhaseOnly(c: Core, d: Core)
    ensures d == c ==> OnlySession(c, d, 0)
    ensures d == c.(phase := Protocol) ==> OnlySession(c, d, 0)
    ensures forall why: Reason :: d == Fail(c, why) ==> OnlySession(c, d, 0)
  {
  }

  lemma EmitOnly(c: Core, d: Core, e: Event)
    requires AboutSession(e) && !e.NowReady?
    requires d.events == c.events + [e]
    requires d.pending == c.pending && d.order == c.order && d.free == c.free && d.nextSid == c.nextSid
        && d.cfg == c.cfg
    ensures OnlySession(c, d, 0)
  {
  }

  lemma OnlyFrom(c: Core, like: Core, d: Core, ready: nat)
    requires like.events == c.events && like.pending == c.pending && like.order == c.order
    requires like.free == c.free && like.nextSid == c.nextSid && like.cfg == c.cfg
    ensures OnlySession(like, d, ready) ==> OnlySession(c, d, ready)
  {
  }

  lemma {:induction false} TellSession(h: History, es: seq<Event>)
    requires forall i | 0 <= i < |es| :: AboutSession(es[i])
    ensures TellAll(h, es).readies >= h.readies
    ensures TellAll(h, es) == h.(readies := TellAll(h, es).readies)
    ensures (forall i | 0 <= i < |es| :: !es[i].NowReady?) ==> TellAll(h, es) == h
    decreases |es|
  {
    if es != [] { TellSession(h, es[..|es| - 1]); }
  }

  lemma OnlySessionTold(c: Core, h: History, d: Core, ready: nat)
    requires OnlySession(c, d, ready)
    ensures After(h, c, d) == h.(readies := h.readies + ready)
  {
    hide TellAll, Tell;
    var es := d.events[|c.events|..];
    assert forall i | 0 <= i < |es| :: es[i] == d.events[|c.events| + i];
    if ready == 0 {
      TellSession(h, es);
    } else {
      assert d.events == c.events + [d.events[|c.events|]];
      AfterOne(h, c, d, d.events[|c.events|]);
      TellReady(h, d.events[|c.events|]);
    }
  }

  lemma TellReady(h: History, e: Event)
    requires e.NowReady?
    ensures Tell(h, e) == h.(readies := h.readies + 1)
  {
  }

  lemma OnlySessionSound(c: Core, h: History, d: Core, ready: nat)
    requires Sound(c, h) && OnlySession(c, d, ready)
    ensures Sound(d, After(h, c, d)) && After(h, c, d) == h.(readies := h.readies + ready)
  {
    hide After, Sound;
    OnlySessionTold(c, h, d, ready);
    SoundSame(c, h, d, h.readies + ready);
  }

  lemma RouteSound(c: Core, h: History, sid: nat, status: nat, body: bytes)
    requires Sound(c, h)
    ensures var d := Route(c, sid, status, body).core; c.events <= d.events && Sound(d, After(h, c, d))
  {
    hide After, Sound, BringUp, OnResponse, OnlySession;
    if InBringUp(c.phase) {
      var d := BringUp(c, status, body).0;
      BringUpOnly(c, status, body);
      Framing.BringUpAppends(c, status, body);
      OnlySessionSound(c, h, d, if d.phase == Ready then 1 else 0);
    } else if sid in c.pending {
      OnResponseSound(c, h, sid, status, body);
    } else {
      AfterSame(h, c, c);
    }
  }

  lemma DispatchSound(c: Core, h: History, hdr: Header, body: bytes)
    requires Sound(c, h)
    ensures var d := Dispatch(c, hdr, body).core; c.events <= d.events && Sound(d, After(h, c, d))
  {
    hide After, Sound, Route, DecodeHeader;
    if hdr.status != KXR_ATTN {
      RouteSound(c, h, hdr.streamid, hdr.status, body);
    } else {
      var d := Dispatch(c, hdr, body).core;
      if |body| >= 4 && I32(body, 0) == KXR_ASYNRESP && |body| >= 16 {
        match DecodeHeader(body[8..16])
        case None => AfterSame(h, c, d);
        case Some(inner) => RouteSound(c, h, inner.streamid, inner.status, body[16..]);
      } else if |body| >= 4 {
        SessionEventSound(c, h, Attention(I32(body, 0), body[4..]));
      } else {
        AfterSame(h, c, d);
      }
    }
  }

  lemma MoveSound(c: Core, h: History, f: Framer)
    requires Sound(c, h) && MoveOf(c, f) != Wait
    ensures var d := MoveOf(c, f).core; c.events <= d.events && Sound(d, After(h, c, d))
  {
    hide After, Sound, StatusData, Dispatch, DecodeHeader, Front, Back;
    AfterSame(h, c, c);
    if f.needTrailer != 0 {
      if f.trailerFor != None { StatusDataSound(c, h, f.trailerFor.value, Front(f.buffer, f.needTrailer)); }
    } else if f.header != None {
      DispatchSound(c, h, f.header.value, f.buffer[..f.header.value.dlen]);
    }
  }

  // ----- a link goes away -----

  /** The history with streams given up without a terminal event. */
  function GiveUp(h: History, sids: set<nat>): History {
    h.(owner := h.owner - sids, got := h.got - sids,
       abandoned := h.abandoned + Behind(h, sids))
  }

  /** The submissions behind some streams. */
  function Behind(h: History, sids: set<nat>): set<nat> { set sid | sid in sids && sid in h.owner :: h.owner[sid] }

  lemma GiveUpIs(h: History, sid: nat)
    requires sid in h.owner
    ensures GiveUp(h, {sid}) == h.(owner := h.owner - {sid}, got := h.got - {sid},
        abandoned := h.abandoned + {h.owner[sid]})
  {
    assert Behind(h, {sid}) == {h.owner[sid]};
  }

  lemma GiveUpOne(h: History, sid: nat)
    requires Ledger(h) && sid in h.owner
    ensures Ledger(GiveUp(h, {sid}))
  {
    GiveUpIs(h, sid);
    hide GiveUp, Behind;
    CardPlus(h.abandoned, h.owner[sid]);
    CardMinus(h.owner, sid);
    LedgerMoves(h, sid);
  }

  lemma LedgerMoves(h: History, sid: nat)
    requires Ledger(h) && sid in h.owner
    requires |h.abandoned + {h.owner[sid]}| == |h.abandoned| + 1 && |h.owner - {sid}| == |h.owner| - 1
    ensures Ledger(h.(owner := h.owner - {sid}, got := h.got - {sid}, abandoned := h.abandoned + {h.owner[sid]}))
  {
  }

  lemma CardPlus(s: set<nat>, x: nat)
    requires x !in s
    ensures |s + {x}| == |s| + 1
  {
  }

  lemma CardMinus(m: map<nat, nat>, k: nat)
    requires k in m
    ensures |m - {k}| == |m| - 1
  {
    assert (m - {k}).Keys == m.Keys - {k};
  }

  lemma ReleaseSound(c: Core, h: History, sid: nat)
    requires Sound(c, h) && sid in c.pending
    ensures Sound(Release(c, sid), GiveUp(h, {sid}))
  {
    ReleaseIds(c, sid);
    GiveUpOne(h, sid);
    hide Ledger, Ids, Without, Behind;
    ReleaseTold(c, h, sid);
  }

  lemma ReleaseTold(c: Core, h: History, sid: nat)
    requires Told(c, h) && sid in c.pending
    ensures Told(Release(c, sid), GiveUp(h, {sid}))
  {
    hide Without, Behind;
  }

  lemma GiveUpMore(h: History, some: set<nat>, sid: nat)
    requires sid in h.owner && sid !in some
    ensures GiveUp(GiveUp(h, some), {sid}) == GiveUp(h, some + {sid})
  {
    var a, b := GiveUp(GiveUp(h, some), {sid}), GiveUp(h, some + {sid});
    assert a.owner == b.owner && a.got == b.got;
    assert Behind(h, some + {sid}) == Behind(h, some) + {h.owner[sid]};
    assert Behind(GiveUp(h, some), {sid}) == {h.owner[sid]};
  }

  function Set(s: seq<nat>): set<nat> { set x | x in s }

  lemma SetAppend(s: seq<nat>, n: nat)
    requires n < |s| && NoDup(s)
    ensures Set(s[..n + 1]) == Set(s[..n]) + {s[n]} && s[n] !in Set(s[..n])
  {
    assert s[..n + 1] == s[..n] + [s[n]];
  }

  /** Dropping a data path abandons exactly the streams that waited on it. */
  lemma {:induction false} ReleaseAllSound(c: Core, h: History, sids: seq<nat>)
    requires Sound(c, h) && NoDup(sids) && (forall x | x in sids :: x in c.pending)
    ensures var d := ReleaseAll(c, sids);
            Sound(d, GiveUp(h, Set(sids))) && d.pending == c.pending - Set(sids) && d.events == c.events
    decreases |sids|
  {
    hide Sound, GiveUp;
    if sids == [] {
      GiveUpNone(h);
      assert c.pending - Set(sids) == c.pending;
    } else {
      var n := |sids| - 1;
      var front, last := sids[..n], sids[n];
      SetAppend(sids, n);
      assert sids[..n + 1] == sids;
      ReleaseAllSound(c, h, front);
      var mid := ReleaseAll(c, front);
      assert last in mid.pending;
      ReleaseSound(mid, GiveUp(h, Set(front)), last);
      assert last in h.owner by { SoundKeys(c, h); }
      GiveUpMore(h, Set(front), last);
      ReleaseEvents(mid, last);
      ReleasePending(mid, last);
      assert c.pending - Set(front) - {last} == c.pending - Set(sids);
    }
  }

  lemma ReleasePending(c: Core, sid: nat)
    ensures Release(c, sid).pending == c.pending - {sid}
  {
  }

  lemma SoundKeys(c: Core, h: History)
    requires Sound(c, h)
    ensures h.owner.Keys == c.pending.Keys && NoDup(c.order) && (forall sid :: sid in c.order <==> sid in c.pending)
  {
  }

  lemma GiveUpNone(h: History)
    ensures GiveUp(h, Set([])) == h
  {
    assert Set([]) == {};
    assert h.owner - {} == h.owner && h.got - {} == h.got;
    assert Behind(h, {}) == {};
  }

  lemma {:induction false} OnPathIs(order: seq<nat>, pending: map<nat, Pending>, pathid: nat)
    requires NoDup(order)
    ensures NoDup(OnPath(order, pending, pathid))
    ensures forall x ::
              x in OnPath(order, pending, pathid) <==> x in order && x in pending && pending[x].pathid == pathid
    decreases |order|
  {
    if order != [] {
      assert NoDup(order[1..]);
      OnPathIs(order[1..], pending, pathid);
      HeadAbsent(order);
      assert order == [order[0]] + order[1..];
    }
  }

  lemma {:induction false} ReleaseAllIds(c: Core, sids: seq<nat>)
    requires Ids(c)
    ensures var d := ReleaseAll(c, sids);
            Ids(d) && d.pending == c.pending - Set(sids) && d.events == c.events && d.phase == c.phase
            && d.out == c.out && d.signer == c.signer && d.cfg == c.cfg && d.tlsActive == c.tlsActive
              && d.info == c.info
            && d.nextSid == c.nextSid
    decreases |sids|
  {
    hide Ids;
    if sids == [] {
      assert c.pending - Set(sids) == c.pending;
    } else {
      var n := |sids| - 1;
      ReleaseAllIds(c, sids[..n]);
      ReleaseIds(ReleaseAll(c, sids[..n]), sids[n]);
      assert sids == sids[..n] + [sids[n]];
      assert c.pending - Set(sids[..n]) - {sids[n]} == c.pending - Set(sids);
    }
  }

  /** Telling a failure for each of some streams ends exactly those. */
  lemma {:induction false} EmitFailuresTold(c: Core, h: History, sids: seq<nat>, why: Reason)
    requires Accounted(c, h) && NoDup(sids) && (forall x | x in sids :: x in c.pending)
    ensures var e := EmitFailures(c, sids, why);
            c.events <= e.events && e == c.(events := e.events)
            && Ledger(After(h, c, e))
            && After(h, c, e) == h.(owner := h.owner - Set(sids), got := h.got - Set(sids),
                                    ended := After(h, c, e).ended, endings := After(h, c, e).endings)
    decreases |sids|
  {
    hide After, Ledger, Tell;
    var e := EmitFailures(c, sids, why);
    if sids == [] {
      AfterSame(h, c, e);
      assert h.owner - Set(sids) == h.owner && h.got - Set(sids) == h.got;
    } else {
      var n := |sids| - 1;
      var front, last := sids[..n], sids[n];
      SetAppend(sids, n);
      assert sids[..n + 1] == sids && last in sids;
      EmitFailuresTold(c, h, front, why);
      var mid := EmitFailures(c, front, why);
      var g := After(h, c, mid);
      var bad := StreamFailed(last, c.pending[last].request, why);
      assert last in g.owner;
      AfterOne(g, mid, e, bad);
      AfterTwo(h, c, mid, e);
      TellFailed(g, bad);
      assert h.owner - Set(front) - {last} == h.owner - Set(sids);
      assert h.got - Set(front) - {last} == h.got - Set(sids);
    }
  }

  lemma TellFailed(h: History, e: Event)
    requires Ledger(h) && e.StreamFailed? && e.sid in h.owner
    ensures Ledger(Tell(h, e))
    ensures Tell(h, e) == h.(owner := h.owner - {e.sid}, got := h.got - {e.sid}, ended := Tell(h, e).ended,
        endings := Tell(h, e).endings)
  {
    EndLedger(h, e.sid);
    hide Ledger;
  }

  /** The control link's end fails every stream in flight, once each. */
  lemma OnEofSound(c: Core, h: History)
    requires Sound(c, h)
    ensures var d := OnEof(c); c.events <= d.events && Sound(d, After(h, c, d))
    ensures After(h, c, OnEof(c)).readies == h.readies
  {
    hide After, Ledger, EmitFailures;
    AfterSame(h, c, c);
    if c.phase != Closed && c.phase != Failed {
      var start := c.(phase := Closed);
      EmitFailuresTold(start, h, c.order, PeerClosed);
      var e := EmitFailures(start, c.order, PeerClosed);
      var mid := e.(pending := map[], order := []);
      AfterNoted(h, c, start, e);
      var g := After(h, c, e);
      assert Set(c.order) == c.pending.Keys;
      assert h.owner - Set(c.order) == map[] && h.got - Set(c.order) == map[];
      assert Sound(mid, g);
      AfterMoved(h, c, e, mid);
      SessionEventSound(mid, g, Disconnected(true));
      var d := OnEof(c);
      AfterTwo(h, c, mid, d);
      AfterOne(g, mid, d, Disconnected(true));
    }
  }

  lemma AfterMoved(h: History, c: Core, d: Core, e: Core)
    requires c.events <= d.events && d.events == e.events
    ensures After(h, c, d) == After(h, c, e)
  {
  }

  /** A data path's end fails the streams on it, once each, and no others. */
  lemma OnPathEofSound(m: Machine, h: History, pathid: nat)
    requires Sound(m.core, h)
    ensures var d := OnPathEof(m, pathid).core; m.core.events <= d.events && Sound(d, After(h, m.core, d))
    ensures After(h, m.core, OnPathEof(m, pathid).core).readies == h.readies
    ensures forall sid :: sid in OnPathEof(m, pathid).core.pending <==>
              sid in m.core.pending && m.core.pending[sid].pathid != pathid
  {
    hide After, Ledger, EmitFailures, ReleaseAll, Ids;
    var c := m.core;
    var sids := OnPath(c.order, c.pending, pathid);
    SoundKeys(c, h);
    OnPathIs(c.order, c.pending, pathid);
    EmitFailuresTold(c, h, sids, PathClosed(pathid));
    var e := EmitFailures(c, sids, PathClosed(pathid));
    var g := After(h, c, e);
    IdsSame(c, e);
    ReleaseAllIds(e, sids);
    var released := ReleaseAll(e, sids);
    var mid := released.(outPath := released.outPath - {pathid});
    IdsSame(released, mid);
    assert Told(mid, g);
    AfterMoved(h, c, e, mid);
    SessionEventSound(mid, g, PathLost(pathid));
    var d := OnPathEof(m, pathid).core;
    assert d == Emit(mid, PathLost(pathid));
    AfterTwo(h, c, mid, d);
    AfterOne(g, mid, d, PathLost(pathid));
  }

  lemma IdsSame(c: Core, d: Core)
    requires Ids(c) && d.pending == c.pending && d.order == c.order && d.free == c.free && d.nextSid == c.nextSid
    ensures Ids(d)
  {
  }

  lemma DropPathSound(m: Machine, h: History, pathid: nat)
    requires Sound(m.core, h)
    ensures var d := DropPath(m, pathid).core;
            d.events == m.core.events && Sound(d, GiveUp(h, m.core.pending.Keys - d.pending.Keys))
    ensures forall sid :: sid in DropPath(m, pathid).core.pending <==>
              sid in m.core.pending && m.core.pending[sid].pathid != pathid
  {
    hide Ids, ReleaseAll, GiveUp, Accounted;
    var c := m.core;
    var sids := OnPath(c.order, c.pending, pathid);
    SoundKeys(c, h);
    OnPathIs(c.order, c.pending, pathid);
    ReleaseAllSound(c, h, sids);
    var released := ReleaseAll(c, sids);
    var d := DropPath(m, pathid).core;
    var g := GiveUp(h, Set(sids));
    SoundSame(released, g, d, g.readies);
    assert c.pending.Keys - d.pending.Keys == Set(sids);
  }
}
