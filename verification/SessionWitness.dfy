/** Concrete runs of the session machine that show where its promises end: one that exhausts
    the stream ids with a single stream in flight, one whose outcome depends on how the bytes
    were cut, and one whose completion repeats what came before a resend. */
module SessionWitness {
  import opened Octets
  import opened Frames
  import opened Session
  import opened SessionLaws
  import opened SessionExhaustion
  import S = SessionSafety
  import Framing

  // ----- bring-up, byte by byte -----

  /** A response frame. */
  function Response(sid: nat, status: nat, body: bytes): bytes {
    Big(sid, 2) + Big(status, 2) + Big(|body|, 4) + body
  }

  /** A response of `dlen` zero bytes to the bring-up's stream. */
  function Reply(dlen: nat): bytes { Response(1, KXR_OK, Zeros(dlen)) }

  lemma ResponseHeader(sid: nat, status: nat, dlen: nat)
    requires sid < 0x1_0000 && status < 0x1_0000 && dlen < 1000
    ensures var head := Big(sid, 2) + Big(status, 2) + Big(dlen, 4);
            |head| == RESPONSE_HDRLEN && DecodeHeader(head) == Some(Header(sid, status, dlen))
  {
    var head := Big(sid, 2) + Big(status, 2) + Big(dlen, 4);
    BigAppend(sid, 2);
    BigAppend(status, 2);
    Big4Is(dlen);
    var tail := Big(dlen, 4);
    assert head[4] == tail[0] && head[5] == tail[1] && head[6] == tail[2] && head[7] == tail[3];
  }

  lemma FrameParses(c: Core, head: bytes, h: Header, body: bytes)
    requires |head| == RESPONSE_HDRLEN && DecodeHeader(head) == Some(h) && |body| == h.dlen
    requires var d := Dispatch(c, h, body); d.raised == None && d.need == 0
    ensures Parse(c, FRESH_FRAMER.(buffer := head + body)) == Parsed(Dispatch(c, h, body).core, FRESH_FRAMER, None)
  {
    hide MoveOf, Dispatch, DecodeHeader, Parse;
    Framing.HeaderMove(c, head, body, h);
    assert body + [] == body;
    Framing.BodyMove(c, h, body, []);
    var core := Dispatch(c, h, body).core;
    Waits(core);
    Framing.ParseStep(c, FRESH_FRAMER.(buffer := head + body));
    Framing.ParseStep(c, Framer(body, Some(h), 0, None));
    Framing.ParseStep(core, FRESH_FRAMER);
  }

  /** A whole frame on a fresh link is dispatched, and nothing is left of it. */
  lemma FrameArrives(m: Machine, sid: nat, status: nat, body: bytes)
    requires sid < 0x1_0000 && status < 0x1_0000 && |body| < 1000 && m.framers == map[0 := FRESH_FRAMER]
    requires var d := Dispatch(m.core, Header(sid, status, |body|), body); d.raised == None && d.need == 0
    ensures Receive(m, Response(sid, status, body), 0).0 ==
            Machine(Dispatch(m.core, Header(sid, status, |body|), body).core, map[0 := FRESH_FRAMER])
  {
    hide Dispatch, DecodeHeader, Parse, Big;
    var head := Big(sid, 2) + Big(status, 2) + Big(|body|, 4);
    ResponseHeader(sid, status, |body|);
    FrameParses(m.core, head, Header(sid, status, |body|), body);
    assert Response(sid, status, body) == head + body && head + body != [];
    assert FRESH_FRAMER.buffer + (head + body) == head + body;
    assert m.framers[0 := FRESH_FRAMER] == map[0 := FRESH_FRAMER];
  }

  lemma Waits(c: Core)
    ensures MoveOf(c, FRESH_FRAMER) == Wait
  {
  }

  /** No stream opened and no id taken yet. */
  ghost predicate Untouched(c: Core) {
    c.pending == map[] && c.free == [] && c.nextSid == FIRST_SID && c.signer == None && c.credential == None
  }

  /** Plain bring-up: no TLS, no bind, no security. */
  predicate Plain(cfg: Config) { !cfg.wantTls && cfg.bindTo == [] }

  lemma AfterHandshake(c: Core)
    requires c.phase == Handshake && Untouched(c)
    ensures var d := Dispatch(c, Header(1, KXR_OK, 0), Zeros(0));
            d.raised == None && d.need == 0 && d.core.phase == Protocol && Untouched(d.core) && d.core.cfg == c.cfg
  {
  }

  lemma AfterNegotiation(c: Core)
    requires c.phase == Protocol && Untouched(c) && Plain(c.cfg)
    ensures var d := Dispatch(c, Header(1, KXR_OK, 8), Zeros(8));
            d.raised == None && d.need == 0 && d.core.phase == Login && Untouched(d.core) && d.core.cfg == c.cfg
  {
    hide FrameOf, ParseProtocol, DemandsTls, HasTls;
    ZeroInfo(Zeros(8));
    NoDemandYet();
  }

  lemma ZeroInfo(body: bytes)
    requires |body| == 8 && forall i | 0 <= i < 8 :: body[i] == 0
    ensures ParseProtocol(body) == Some(NO_INFO)
  {
    hide Overrides, U32, I32, SecurityRecord;
    ZeroWord(body, 0);
    ZeroWord(body, 4);
    NoRecord(body[8..]);
  }

  lemma ZeroWord(b: bytes, at: nat)
    requires at + 4 <= |b| && b[at] == 0 && b[at + 1] == 0 && b[at + 2] == 0 && b[at + 3] == 0
    ensures U32(b, at) == 0 && I32(b, at) == 0
  {
  }

  lemma NoRecord(trailer: bytes)
    requires |trailer| == 0
    ensures SecurityRecord(trailer) == None
  {
  }

  lemma AfterLogin(c: Core)
    requires c.phase == Login && Untouched(c)
    ensures var d := Dispatch(c, Header(1, KXR_OK, 16), Zeros(16));
            d.raised == None && d.need == 0 && d.core.phase == Ready && Untouched(d.core)
  {
    var body := Zeros(16);
    assert Slice(body, 16, |body|) == [];
  }

  const HELLO: seq<S.Call> :=
    [S.Start, S.Receive(Reply(0), 0), S.Receive(Reply(8), 0), S.Receive(Reply(16), 0)]

  /** A plain bring-up gets ready in four calls. */
  lemma GetsReady(cfg: Config, ladder: seq<Credential>, hmac: Hmac)
    requires Plain(cfg)
    ensures var m := S.Run(cfg, ladder, hmac, HELLO).machine;
            m.core.phase == Ready && Untouched(m.core) && m.framers == map[0 := FRESH_FRAMER]
  {
    hide Dispatch, FrameOf, Response;
    var m0 := Initial(cfg, ladder);
    var m1 := S.Do(m0, hmac, S.Start);
    assert m1.core.phase == Handshake && Untouched(m1.core) && m1.framers == map[0 := FRESH_FRAMER]
      && m1.core.cfg == cfg;
    AfterHandshake(m1.core);
    FrameArrives(m1, 1, KXR_OK, Zeros(0));
    var m2 := S.Do(m1, hmac, S.Receive(Reply(0), 0));
    AfterNegotiation(m2.core);
    FrameArrives(m2, 1, KXR_OK, Zeros(8));
    var m3 := S.Do(m2, hmac, S.Receive(Reply(8), 0));
    AfterLogin(m3.core);
    FrameArrives(m3, 1, KXR_OK, Zeros(16));
    var m4 := S.Do(m3, hmac, S.Receive(Reply(16), 0));
    hide S.Do;
    FourCalls(cfg, ladder, hmac, S.Start, S.Receive(Reply(0), 0), S.Receive(Reply(8), 0), S.Receive(Reply(16), 0));
  }

  lemma FourCalls(cfg: Config, ladder: seq<Credential>, hmac: Hmac, a: S.Call, b: S.Call, c: S.Call, d: S.Call)
    ensures S.Run(cfg, ladder, hmac, [a, b, c, d]).machine ==
            S.Do(S.Do(S.Do(S.Do(Initial(cfg, ladder), hmac, a), hmac, b), hmac, c), hmac, d)
  {
    hide S.Do, S.Note, S.Run;
    S.RunNext(cfg, ladder, hmac, [a, b, c], d);
    S.RunNext(cfg, ladder, hmac, [a, b], c);
    S.RunNext(cfg, ladder, hmac, [a], b);
    S.RunNext(cfg, ladder, hmac, [], a);
    assert [a, b, c] + [d] == [a, b, c, d] && [a, b] + [c] == [a, b, c] && [a] + [b] == [a, b] && [] + [a] == [a];
    NoCalls(cfg, ladder, hmac);
  }

  lemma NoCalls(cfg: Config, ladder: seq<Credential>, hmac: Hmac)
    ensures S.Run(cfg, ladder, hmac, []).machine == Initial(cfg, ladder)
  {
  }

  // ----- ids run out with one in flight -----

  function Times(call: S.Call, n: nat): seq<S.Call> { if n == 0 then [] else Times(call, n - 1) + [call] }

  /** One stream in flight, on the first id, and the counter right behind it. */
  ghost predicate OneOpen(c: Core, next: nat) {
    c.phase == Ready && c.free == [] && c.nextSid == next && c.pending.Keys == {FIRST_SID}
  }

  lemma OpensOne(c: Core, hmac: Hmac, good: Request)
    requires c.phase == Ready && Untouched(c) && Encodable(good)
    ensures OneOpen(Submit(c, hmac, good, false).0, 5)
  {
    hide Signed, SignerAfter;
  }

  /** A submission that cannot be encoded takes the next id all the same. */
  lemma RefusedMoves(c: Core, hmac: Hmac, bad: Request, next: nat)
    requires OneOpen(c, next) && FIRST_SID < next <= LAST_SID && !Encodable(bad)
    ensures OneOpen(Submit(c, hmac, bad, false).0, if next == LAST_SID then FIRST_SID else next + 1)
  {
    hide Send, Encodable;
    assert next !in c.pending.Keys;
  }

  lemma {:induction false} RefusedRun(cfg: Config, ladder: seq<Credential>, hmac: Hmac, calls: seq<S.Call>,
    bad: Request, n: nat)
    requires OneOpen(S.Run(cfg, ladder, hmac, calls).machine.core, 5) && !Encodable(bad) && n < ID_COUNT
    ensures var c := S.Run(cfg, ladder, hmac, calls + Times(S.Submit(bad, false), n)).machine.core;
            OneOpen(c, if n == ID_COUNT - 1 then FIRST_SID else 5 + n)
    decreases n
  {
    hide OneOpen, Submit, S.Run, S.Note;
    var call := S.Submit(bad, false);
    if n == 0 {
      assert calls + [] == calls;
    } else {
      RefusedRun(cfg, ladder, hmac, calls, bad, n - 1);
      var before := calls + Times(call, n - 1);
      S.RunNext(cfg, ladder, hmac, before, call);
      RefusedMoves(S.Run(cfg, ladder, hmac, before).machine.core, hmac, bad, 5 + (n - 1));
      assert calls + Times(call, n) == before + [call];
    }
  }

  /** A run in which the space is exhausted with one stream in flight: the other 65,531 ids
      were taken by submissions that could not be encoded. They are not gone for good: the
      attempt that meets exhaustion moves the counter on, and the next one gets the first of
      them. */
  lemma LostIdsExhaust(cfg: Config, ladder: seq<Credential>, hmac: Hmac, good: Request, bad: Request, n: nat)
    requires Plain(cfg) && Encodable(good) && !Encodable(bad) && n == ID_COUNT - 1
    ensures var calls := HELLO + [S.Submit(good, false)] + Times(S.Submit(bad, false), n);
            var c := S.Run(cfg, ladder, hmac, calls).machine.core;
            && c.phase == Ready && |c.pending| == 1
            && Submit(c, hmac, good, false).1 == Err(Exhausted)
            && Submit(Submit(c, hmac, good, false).0, hmac, good, false).1 == Ok(5)
  {
    hide S.Run, S.Note, Times, HELLO;
    GetsReady(cfg, ladder, hmac);
    var opening := HELLO + [S.Submit(good, false)];
    S.RunNext(cfg, ladder, hmac, HELLO, S.Submit(good, false));
    OpensOne(S.Run(cfg, ladder, hmac, HELLO).machine.core, hmac, good);
    RefusedRun(cfg, ladder, hmac, opening, bad, n);
    ThenExhausted(S.Run(cfg, ladder, hmac, opening + Times(S.Submit(bad, false), n)).machine.core, hmac, good);
  }

  lemma ThenExhausted(c: Core, hmac: Hmac, good: Request)
    requires OneOpen(c, FIRST_SID) && Encodable(good)
    ensures |c.pending| == 1 && Submit(c, hmac, good, false).1 == Err(Exhausted)
    ensures Submit(Submit(c, hmac, good, false).0, hmac, good, false).1 == Ok(5)
  {
    hide Send, Encodable;
    assert FIRST_SID in c.pending.Keys && 5 !in c.pending.Keys;
    assert |c.pending| == |c.pending.Keys|;
  }

  // ----- a negative trailer length -----

  /** With one stream in flight, a status response to it with a trailer of length -1, two
      bytes behind it, tells two divisions of itself apart. */
  lemma NegativeTrailerRun(cfg: Config, ladder: seq<Credential>, hmac: Hmac, good: Request, tail: bytes)
    returns (data: bytes, j: nat)
    requires Plain(cfg) && Encodable(good) && |tail| >= 2
    ensures var m := S.Run(cfg, ladder, hmac, HELLO + [S.Submit(good, false)]).machine;
            && 0 < j < |data|
            && Framing.FeedAll(m, [data], 0).machine.core.events
               != Framing.FeedAll(m, [data[..j], data[j..]], 0).machine.core.events
  {
    hide S.Run, S.Note, HELLO, Submit;
    GetsReady(cfg, ladder, hmac);
    S.RunNext(cfg, ladder, hmac, HELLO, S.Submit(good, false));
    OpensOne(S.Run(cfg, ladder, hmac, HELLO).machine.core, hmac, good);
    var m := S.Run(cfg, ladder, hmac, HELLO + [S.Submit(good, false)]).machine;
    assert FIRST_SID in m.core.pending.Keys && FramerOf(m, 0) == FRESH_FRAMER;
    var head, body := Big(4, 2) + Big(KXR_STATUS, 2) + Big(16, 4), Zeros(12) + [255, 255, 255, 255];
    Framing.NegativeFrame();
    hide DecodeHeader, ParseStatus, MoveOf;
    Framing.NegativeTrailerTroubles(m, 0, head, FIRST_SID, body, tail);
    data := head + body + tail;
    Waits(m.core);
    j := Framing.CutMatters(m, data, 0);
  }

  // ----- a resend after a chunk -----

  /** One stream in flight on a fresh link, with so much gathered. */
  ghost predicate HasGot(m: Machine, r: Request, data: bytes) {
    && m.core.phase == Ready && m.framers == map[0 := FRESH_FRAMER] && FIRST_SID in m.core.pending
    && var p := m.core.pending[FIRST_SID];
       p.buffer == data && p.request == r && p.status == None
  }

  lemma OpensEmpty(m: Machine, hmac: Hmac, good: Request)
    requires m.core.phase == Ready && Untouched(m.core) && m.framers == map[0 := FRESH_FRAMER] && Encodable(good)
    ensures HasGot(S.Do(m, hmac, S.Submit(good, false)), good, [])
  {
    hide Signed, SignerAfter;
  }

  lemma ChunkArrives(m: Machine, hmac: Hmac, r: Request, data: bytes, a: bytes)
    requires HasGot(m, r, data) && |a| < 1000
    ensures HasGot(S.Do(m, hmac, S.Receive(Response(FIRST_SID, KXR_OKSOFAR, a), 0)), r, data + a)
  {
    var d := Dispatch(m.core, Header(FIRST_SID, KXR_OKSOFAR, |a|), a);
    assert d.raised == None && d.need == 0;
    hide Dispatch, Receive, Response;
    FrameArrives(m, FIRST_SID, KXR_OKSOFAR, a);
  }

  lemma WaitArrives(m: Machine, hmac: Hmac, r: Request, data: bytes, body: bytes)
    requires HasGot(m, r, data) && |body| == 4
    ensures HasGot(S.Do(m, hmac, S.Receive(Response(FIRST_SID, KXR_WAIT, body), 0)), r, data)
  {
    hide I32;
    var d := Dispatch(m.core, Header(FIRST_SID, KXR_WAIT, |body|), body);
    assert d.raised == None && d.need == 0;
    hide Dispatch, Receive, Response;
    FrameArrives(m, FIRST_SID, KXR_WAIT, body);
  }

  lemma ResumeLeaves(m: Machine, hmac: Hmac, r: Request, data: bytes)
    requires HasGot(m, r, data)
    ensures HasGot(S.Do(m, hmac, S.Resume(FIRST_SID)), r, data)
  {
  }

  lemma EndArrives(m: Machine, hmac: Hmac, r: Request, data: bytes, a: bytes)
    requires HasGot(m, r, data) && |a| < 1000
    ensures var events := S.Do(m, hmac, S.Receive(Response(FIRST_SID, KXR_OK, a), 0)).core.events;
            events != [] && events[|events| - 1] == Completed(FIRST_SID, r, data + a, None)
  {
    hide Without;
    var d := Dispatch(m.core, Header(FIRST_SID, KXR_OK, |a|), a);
    assert d.raised == None && d.need == 0;
    assert d.core.events == m.core.events + [Completed(FIRST_SID, r, data + a, None)];
    hide Dispatch, Receive, Response;
    FrameArrives(m, FIRST_SID, KXR_OK, a);
  }

  /** The server sends `a`, asks to wait, and answers the resend with `a` and `b`: the
      completion holds `a` twice. */
  lemma ResendRepeats(cfg: Config, ladder: seq<Credential>, hmac: Hmac, good: Request, a: bytes, b: bytes)
    requires Plain(cfg) && Encodable(good) && |a| + |b| < 1000
    ensures var first, wait := Response(FIRST_SID, KXR_OKSOFAR, a), Response(FIRST_SID, KXR_WAIT, Big(1, 4));
            var calls := HELLO + [S.Submit(good, false)] + [S.Receive(first, 0)] + [S.Receive(wait, 0)]
              + [S.Resume(FIRST_SID)] + [S.Receive(Response(FIRST_SID, KXR_OK, a + b), 0)];
            var events := S.Run(cfg, ladder, hmac, calls).machine.core.events;
            events != [] && events[|events| - 1] == Completed(FIRST_SID, good, a + (a + b), None)
  {
    hide S.Run, S.Note, S.Do, HELLO, HasGot, Response;
    var first, wait := Response(FIRST_SID, KXR_OKSOFAR, a), Response(FIRST_SID, KXR_WAIT, Big(1, 4));
    GetsReady(cfg, ladder, hmac);
    var calls := HELLO;
    OpensEmpty(S.Run(cfg, ladder, hmac, calls).machine, hmac, good);
    S.RunNext(cfg, ladder, hmac, calls, S.Submit(good, false));
    calls := calls + [S.Submit(good, false)];
    ChunkArrives(S.Run(cfg, ladder, hmac, calls).machine, hmac, good, [], a);
    assert [] + a == a;
    S.RunNext(cfg, ladder, hmac, calls, S.Receive(first, 0));
    calls := calls + [S.Receive(first, 0)];
    WaitArrives(S.Run(cfg, ladder, hmac, calls).machine, hmac, good, a, Big(1, 4));
    S.RunNext(cfg, ladder, hmac, calls, S.Receive(wait, 0));
    calls := calls + [S.Receive(wait, 0)];
    ResumeLeaves(S.Run(cfg, ladder, hmac, calls).machine, hmac, good, a);
    S.RunNext(cfg, ladder, hmac, calls, S.Resume(FIRST_SID));
    calls := calls + [S.Resume(FIRST_SID)];
    EndArrives(S.Run(cfg, ladder, hmac, calls).machine, hmac, good, a, a + b);
    S.RunNext(cfg, ladder, hmac, calls, S.Receive(Response(FIRST_SID, KXR_OK, a + b), 0));
  }
}
