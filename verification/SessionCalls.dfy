/** What each call of the driver does, other than receiving bytes: said of the fields
    themselves, for every machine whose ids are in order, which every run's are. */
module SessionCalls {
  import opened Octets
  import opened Frames
  import opened Session
  import opened SessionRuns
  import opened SessionLaws
  import opened SessionReplies
  import opened SessionHeard
  import S = SessionSafety

  /** One failure for each of some streams, in order. */
  function Failures(c: Core, sids: seq<nat>, why: Reason): (r: seq<Event>)
    requires forall i | 0 <= i < |sids| :: sids[i] in c.pending
    ensures |r| == |sids|
    ensures forall i | 0 <= i < |sids| :: r[i] == StreamFailed(sids[i], c.pending[sids[i]].request, why)
  {
    seq(|sids|, i requires 0 <= i < |sids| => StreamFailed(sids[i], c.pending[sids[i]].request, why))
  }

  /** Streams left, and their ids free in that order. */
  ghost predicate Gone(c: Core, d: Core, sids: seq<nat>) {
    d == c.(pending := c.pending - Set(sids), order := d.order, free := c.free + sids)
  }

  /** The streams that wait on a data path, each once. */
  ghost predicate OnLink(c: Core, link: nat, sids: seq<nat>) {
    NoDup(sids) && forall x :: x in sids <==> x in c.pending && c.pending[x].pathid == link
  }

  /** The request that ends a session. */
  function Goodbye(session: bytes): Request { Request(3023, Padded(session, 16), [], [], [], 0) }

  ghost predicate CloseTells(c: Core, d: Core, graceful: bool) {
    if c.phase == Ready && graceful && c.sessionId != [] then
      if c.free == [] && c.nextSid in c.pending then
        d == c.(nextSid := if c.nextSid == 65_535 then 4 else c.nextSid + 1)
      else
        var sid := if c.free == [] then c.nextSid else c.free[|c.free| - 1];
        d == c.(phase := Closed, events := c.events + [Disconnected(false)], free := d.free, nextSid := d.nextSid,
                out := c.out + FrameOf(Goodbye(c.sessionId), sid))
    else d == c.(phase := Closed, events := c.events + [Disconnected(false)])
  }

  ghost predicate EofTells(c: Core, d: Core)
    requires forall i | 0 <= i < |c.order| :: c.order[i] in c.pending
  {
    if c.phase == Closed || c.phase == Failed then d == c
    else d == c.(phase := Closed, pending := map[], order := [],
                 events := c.events + Failures(c, c.order, PeerClosed) + [Disconnected(true)])
  }

  /** A path's end: its streams fail, leave, and then the path is reported lost. */
  ghost predicate PathEofTells(c: Core, d: Core, link: nat) {
    exists sids: seq<nat> :: OnLink(c, link, sids) && PathEnds(c, d, link, sids)
  }

  ghost predicate PathEnds(c: Core, d: Core, link: nat, sids: seq<nat>)
    requires OnLink(c, link, sids)
  {
    Gone(c.(events := c.events + Failures(c, sids, PathClosed(link)) + [PathLost(link)], outPath := c.outPath - {link}),
         d, sids)
  }

  /** Giving a path up: its streams leave without a word. */
  ghost predicate ForgetTells(c: Core, d: Core, link: nat) {
    exists sids: seq<nat> :: OnLink(c, link, sids) && Gone(c.(outPath := c.outPath - {link}), d, sids)
  }

  ghost predicate CallTells(m: Machine, n: Machine, call: S.Call)
    requires Ids(m.core)
  {
    var c, d := m.core, n.core;
    match call
    case Start =>
      n.framers == m.framers &&
      d == if c.phase == New then c.(phase := Handshake, out := c.out + Hello(c.cfg.wantTls)) else c
    case Drain => n.framers == m.framers && d == c.(out := [])
    case DrainPath(p) => n.framers == m.framers && d == c.(outPath := c.outPath - {p})
    case Release(sid) => n.framers == m.framers && if sid in c.pending then Gone(c, d, [sid]) else d == c
    case Close(graceful) => n.framers == m.framers && CloseTells(c, d, graceful)
    case TlsEstablished =>
      n.framers == m.framers && if c.phase == Tls then LogsIn(c.(tlsActive := true), d) else d == c
    case NextEvent =>
      n.framers == m.framers && d == if c.events == [] then c else c.(events := c.events[1..])
    case ForgetPath(p) => n.framers == m.framers - {p} && ForgetTells(c, d, p)
    case Receive(data, link) =>
      data == [] ==> if link == 0 then EofTells(c, d) else n.framers == m.framers - {link} && PathEofTells(c, d, link)
    case _ => true
  }

  // ----- proofs -----

  lemma {:induction false} EmitsFailures(c: Core, sids: seq<nat>, why: Reason)
    requires forall i | 0 <= i < |sids| :: sids[i] in c.pending
    ensures EmitFailures(c, sids, why) == c.(events := c.events + Failures(c, sids, why))
    decreases |sids|
  {
    if sids == [] {
      assert c.events + [] == c.events;
    } else {
      var front := sids[..|sids| - 1];
      EmitsFailures(c, front, why);
      assert Failures(c, sids, why) == Failures(c, front, why) + [Failures(c, sids, why)[|sids| - 1]];
    }
  }

  lemma {:induction false} ReleasesAll(c: Core, sids: seq<nat>)
    requires NoDup(sids) && forall i | 0 <= i < |sids| :: sids[i] in c.pending && sids[i] >= 4
    ensures Gone(c, ReleaseAll(c, sids), sids)
    decreases |sids|
  {
    hide Without;
    if sids == [] {
      assert c.pending - Set(sids) == c.pending && c.free + [] == c.free;
    } else {
      var n := |sids| - 1;
      var front, last := sids[..n], sids[n];
      assert NoDup(front) by { FrontNoDup(sids); }
      ReleasesAll(c, front);
      SetFront(sids);
      assert last !in front by { LastOnce(sids); }
      assert c.pending - Set(front) - {last} == c.pending - Set(sids);
      assert c.free + front + [last] == c.free + sids;
    }
  }

  lemma FrontNoDup(s: seq<nat>)
    requires NoDup(s) && s != []
    ensures NoDup(s[..|s| - 1])
  {
  }

  lemma LastOnce(s: seq<nat>)
    requires NoDup(s) && s != []
    ensures s[|s| - 1] !in s[..|s| - 1]
  {
  }

  lemma LinkStreams(c: Core, link: nat) returns (sids: seq<nat>)
    requires Ids(c)
    ensures sids == OnPath(c.order, c.pending, link) && OnLink(c, link, sids)
    ensures forall i | 0 <= i < |sids| :: sids[i] in c.pending && sids[i] >= 4
  {
    hide OnPath;
    sids := OnPath(c.order, c.pending, link);
    OnPathIs(c.order, c.pending, link);
    forall i | 0 <= i < |sids| ensures sids[i] in c.pending && sids[i] >= 4 { assert sids[i] in sids; }
  }

  lemma ForgetIs(m: Machine, link: nat)
    requires Ids(m.core)
    ensures ForgetTells(m.core, DropPath(m, link).core, link)
  {
    hide Ids, OnPath, ReleaseAll, NoDup;
    var sids := LinkStreams(m.core, link);
    LinkDistinct(m.core, link, sids);
    ReleasesAll(m.core, sids);
  }

  lemma LinkDistinct(c: Core, link: nat, sids: seq<nat>)
    requires OnLink(c, link, sids)
    ensures NoDup(sids)
  {
  }

  lemma PathEofIs(m: Machine, link: nat)
    requires Ids(m.core)
    ensures PathEofTells(m.core, OnPathEof(m, link).core, link)
  {
    hide Ids, OnPath, ReleaseAll, NoDup, EmitFailures;
    var c := m.core;
    var sids := LinkStreams(c, link);
    LinkDistinct(c, link, sids);
    EmitsFailures(c, sids, PathClosed(link));
    var told := EmitFailures(c, sids, PathClosed(link));
    ReleasesAll(told, sids);
    assert PathEnds(c, OnPathEof(m, link).core, link, sids);
  }

  lemma EofIs(c: Core)
    requires Ids(c)
    ensures forall i | 0 <= i < |c.order| :: c.order[i] in c.pending
    ensures EofTells(c, OnEof(c))
  {
    hide EmitFailures, NoDup;
    assert forall i | 0 <= i < |c.order| :: c.order[i] in c.order;
    hide Ids;
    if c.phase != Closed && c.phase != Failed {
      var start := c.(phase := Closed);
      EmitsFailures(start, c.order, PeerClosed);
      assert Failures(start, c.order, PeerClosed) == Failures(c, c.order, PeerClosed);
    }
  }

  lemma CloseIs(c: Core, graceful: bool)
    requires Ids(c)
    ensures CloseTells(c, Close(c, graceful).0, graceful)
  {
    hide NoDup;
    assert InSpace(c.nextSid);
    hide Ids, FrameOf;
  }

  lemma ReleaseIs(c: Core, sid: nat)
    requires Ids(c) && sid in c.pending
    ensures Gone(c, Release(c, sid), [sid])
  {
    hide NoDup, Without;
    assert InSpace(sid);
    hide Ids;
    assert Set([sid]) == {sid};
  }

  lemma StartIs(c: Core)
    ensures Start(c).0 == if c.phase == New then c.(phase := Handshake, out := c.out + Hello(c.cfg.wantTls)) else c
  {
    GreetingIs(c.cfg);
    hide Hello, FrameOf;
  }

  /** Every call does what its fields say. */
  lemma CallsTell(m: Machine, hmac: Hmac, call: S.Call)
    requires Ids(m.core)
    ensures CallTells(m, S.Do(m, hmac, call), call)
  {
    hide Gone, CloseTells, PathEofTells, ForgetTells, LogsIn, DropPath, OnPathEof, OnEof, Close, Start, BeginLogin,
      Session.Release, Hello, Ids;
    match call
    case Start => StartIs(m.core);
    case Release(sid) => if sid in m.core.pending { ReleaseIs(m.core, sid); } else { ReleaseNone(m.core, sid); }
    case Close(graceful) => CloseIs(m.core, graceful);
    case TlsEstablished => LogsInIs(m.core.(tlsActive := true));
    case ForgetPath(p) =>
      ForgetIs(m, p);
      DropFramers(m, p);
    case Receive(data, link) =>
      if data == [] {
        EofIs(m.core);
        if link != 0 {
          var known := m.(framers := m.framers[link := FramerOf(m, link)]);
          PathEofIs(known, link);
          EofFramers(m, link);
        }
      }
    case _ =>
  }

  lemma ReleaseNone(c: Core, sid: nat)
    requires sid !in c.pending
    ensures Release(c, sid) == c
  {
  }

  lemma DropFramers(m: Machine, p: nat)
    ensures DropPath(m, p).framers == m.framers - {p}
  {
    hide ReleaseAll, OnPath;
  }

  lemma EofFramers(m: Machine, link: nat)
    requires link != 0
    ensures OnPathEof(m.(framers := m.framers[link := FramerOf(m, link)]), link).framers == m.framers - {link}
  {
    hide ReleaseAll, OnPath, EmitFailures;
    assert m.framers[link := FramerOf(m, link)] - {link} == m.framers - {link};
  }

  /** So does every call of every run. */
  lemma RunCallsTell(cfg: Config, ladder: seq<Credential>, hmac: Hmac, calls: seq<S.Call>, call: S.Call)
    ensures var m := S.Run(cfg, ladder, hmac, calls).machine;
            Ids(m.core) && CallTells(m, S.Do(m, hmac, call), call)
  {
    S.RunLaws(cfg, ladder, hmac, calls);
    hide S.Run, S.Do, CallTells, Opening, Signing, Space, Accounted, Ids;
    CallsTell(S.Run(cfg, ladder, hmac, calls).machine, hmac, call);
  }
}
