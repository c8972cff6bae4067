/** Framing does not depend on how a byte stream is cut: `receive_data` over any division
    of the same bytes into non-empty pieces, up to the first exception, leaves the same
    machine; with the one exception, exactly determined, of a negative trailer length. */
module Framing {
  import opened Octets
  import opened Frames
  import opened Session

  function Longer(f: Framer, x: bytes): Framer { f.(buffer := f.buffer + x) }

  /** No trailer of negative length is owed, or no more bytes wait than it counts back from
      their end, so that it takes none of them. */
  predicate Bounded(f: Framer) { f.needTrailer >= 0 || |f.buffer| <= -f.needTrailer }

  /** So it is at every move of the parser from here on. */
  ghost predicate Tame(c: Core, f: Framer)
    decreases |f.buffer|, Rank(f)
  {
    Bounded(f) &&
    match MoveOf(c, f)
    case Go(c', f') => Tame(c', f')
    case _ => true
  }

  /** A move that is possible is possible, and the same, with more bytes behind it. */
  lemma MoveExtends(c: Core, f: Framer, x: bytes)
    requires Bounded(Longer(f, x)) && MoveOf(c, f) != Wait
    ensures MoveOf(c, Longer(f, x)) ==
            match MoveOf(c, f)
            case Wait => Wait
            case Go(c', f') => Go(c', Longer(f', x))
            case Throw(c', f', why) => Throw(c', Longer(f', x), why)
  {
    hide StatusData, Dispatch, DecodeHeader;
    var g := Longer(f, x);
    if f.needTrailer != 0 {
      assert Front(g.buffer, f.needTrailer) == Front(f.buffer, f.needTrailer);
      assert Back(g.buffer, f.needTrailer) == Back(f.buffer, f.needTrailer) + x;
    } else if f.header == None {
      assert g.buffer[..8] == f.buffer[..8];
      assert g.buffer[8..] == f.buffer[8..] + x;
    } else {
      var n := f.header.value.dlen;
      assert g.buffer[..n] == f.buffer[..n];
      assert g.buffer[n..] == f.buffer[n..] + x;
    }
  }

  /** Parsing a front of the bytes and then the rest is parsing them together; and if the
      front lets an exception out, so do they, the rest still unparsed. */
  lemma {:induction false} ParseSplits(c: Core, f: Framer, x: bytes)
    requires Tame(c, Longer(f, x))
    ensures var p := Parse(c, f);
            && Tame(c, f)
            && (p.raised == None ==>
                  Tame(p.core, Longer(p.framer, x)) && Parse(c, Longer(f, x)) == Parse(p.core, Longer(p.framer, x)))
            && (p.raised != None ==> Parse(c, Longer(f, x)) == Parsed(p.core, Longer(p.framer, x), p.raised))
    decreases |f.buffer|, Rank(f)
  {
    hide MoveOf;
    if MoveOf(c, f) != Wait {
      MoveExtends(c, f, x);
      var m := MoveOf(c, f);
      if m.Go? {
        MoveShrinks(c, f);
        ParseSplits(m.core, m.framer, x);
      }
    }
  }

  lemma ParseStep(c: Core, f: Framer)
    ensures Parse(c, f) ==
            match MoveOf(c, f)
            case Wait => Parsed(c, f, None)
            case Throw(c', f', why) => Parsed(c', f', Some(why))
            case Go(c', f') => Parse(c', f')
  {
    hide MoveOf;
  }

  lemma MoveShrinks(c: Core, f: Framer)
    requires MoveOf(c, f).Go?
    ensures var g := MoveOf(c, f).framer;
            |g.buffer| < |f.buffer| || (|g.buffer| == |f.buffer| && Rank(g) < Rank(f))
  {
    hide StatusData, Dispatch, DecodeHeader;
  }

  /** What comes of feeding a link: the machine, the first exception, and the bytes that were
      not fed after it. */
  datatype Fed = Fed(machine: Machine, raised: Option<Raise>, unfed: bytes)

  /** Pieces received one after the other on one link, until one lets an exception out. */
  function FeedAll(m: Machine, pieces: seq<bytes>, link: nat): Fed {
    if pieces == [] then Fed(m, None, [])
    else
      var before, last := FeedAll(m, pieces[..|pieces| - 1], link), pieces[|pieces| - 1];
      if before.raised != None then before.(unfed := before.unfed + last)
      else
        var (after, raised) := Receive(before.machine, last, link);
        Fed(after, raised, [])
  }

  /** The machine with all bytes not parsed in one place, fed or not. */
  function Put(fed: Fed, link: nat): (Machine, Option<Raise>) {
    var m := fed.machine;
    (m.(framers := m.framers[link := Longer(FramerOf(m, link), fed.unfed)]), fed.raised)
  }

  ghost predicate NoneEmpty(pieces: seq<bytes>) { forall i | 0 <= i < |pieces| :: pieces[i] != [] }

  ghost predicate TameStream(m: Machine, data: bytes, link: nat) { Tame(m.core, Longer(FramerOf(m, link), data)) }

  /** Feeding a link came to a parse of all its bytes at once, no other link touched. */
  ghost predicate ComesTo(fed: Fed, m: Machine, link: nat, p: Parsed) {
    && fed.raised == p.raised && fed.machine.core == p.core
    && Longer(FramerOf(fed.machine, link), fed.unfed) == p.framer
    && fed.machine.framers - {link} == m.framers - {link}
    && (fed.raised == None ==> fed.unfed == [])
  }

  lemma FeedMore(fed: Fed, m: Machine, link: nat, p: Parsed, last: bytes)
    requires ComesTo(fed, m, link, p) && p.raised == None && last != []
    ensures var (after, raised) := Receive(fed.machine, last, link);
            ComesTo(Fed(after, raised, []), m, link, Parse(p.core, Longer(p.framer, last)))
  {
    hide Parse;
    var f := FramerOf(fed.machine, link);
    LongerNone(f);
    var r := Parse(p.core, Longer(f, last));
    LongerNone(r.framer);
    var after := Receive(fed.machine, last, link).0;
    assert after.framers == fed.machine.framers[link := r.framer];
    assert after.framers - {link} == fed.machine.framers - {link};
  }

  lemma LongerNone(f: Framer)
    ensures Longer(f, []) == f
  {
    assert f.buffer + [] == f.buffer;
  }

  lemma LongerTwice(f: Framer, x: bytes, y: bytes)
    ensures Longer(Longer(f, x), y) == Longer(f, x + y)
  {
    assert f.buffer + x + y == f.buffer + (x + y);
  }

  /** However the bytes are cut, they come to what they come to whole. */
  lemma {:induction false} FeedAllIsFeed(m: Machine, pieces: seq<bytes>, link: nat)
    requires NoneEmpty(pieces) && pieces != [] && TameStream(m, Concat(pieces), link)
    ensures ComesTo(FeedAll(m, pieces, link), m, link, Feed(m.core, FramerOf(m, link), Concat(pieces)))
    decreases |pieces|
  {
    hide Parse, Tame, Receive, ComesTo;
    var last, before := pieces[|pieces| - 1], pieces[..|pieces| - 1];
    var f := FramerOf(m, link);
    assert NoneEmpty(before) && last != [];
    if before == [] {
      assert Concat(pieces) == last;
      FeedNothing(m, link);
      FeedMore(Fed(m, None, []), m, link, Parsed(m.core, f, None), last);
    } else {
      var x := Concat(before);
      LongerTwice(f, x, last);
      ParseSplits(m.core, Longer(f, x), last);
      FeedAllIsFeed(m, before, link);
      var fed, p := FeedAll(m, before, link), Parse(m.core, Longer(f, x));
      Same(fed, m, link, p);
      if p.raised == None {
        FeedMore(fed, m, link, p, last);
      } else {
        FeedNoMore(fed, m, link, p, last);
      }
    }
  }

  lemma Same(fed: Fed, m: Machine, link: nat, p: Parsed)
    requires ComesTo(fed, m, link, p)
    ensures fed.raised == p.raised
  {
  }

  lemma FeedNothing(m: Machine, link: nat)
    ensures ComesTo(Fed(m, None, []), m, link, Parsed(m.core, FramerOf(m, link), None))
  {
    LongerNone(FramerOf(m, link));
  }

  lemma FeedNoMore(fed: Fed, m: Machine, link: nat, p: Parsed, last: bytes)
    requires ComesTo(fed, m, link, p) && p.raised != None
    ensures ComesTo(fed.(unfed := fed.unfed + last), m, link, Parsed(p.core, Longer(p.framer, last), p.raised))
  {
    LongerTwice(FramerOf(fed.machine, link), fed.unfed, last);
  }

  lemma PutSame(a: Fed, b: Fed, m: Machine, link: nat, p: Parsed)
    requires ComesTo(a, m, link, p) && ComesTo(b, m, link, p)
    ensures Put(a, link) == Put(b, link)
  {
    var x, y := a.machine.framers, b.machine.framers;
    assert x[link := p.framer] == (x - {link})[link := p.framer];
    assert y[link := p.framer] == (y - {link})[link := p.framer];
  }

  /** Any two divisions of the same bytes into non-empty pieces leave the same events, pending
      table, outboxes, framer cursors and bytes to parse, and let out the same exception. */
  lemma ChunkingIndependent(m: Machine, pieces: seq<bytes>, others: seq<bytes>, link: nat)
    requires NoneEmpty(pieces) && NoneEmpty(others) && Concat(pieces) == Concat(others)
    requires TameStream(m, Concat(pieces), link)
    ensures Put(FeedAll(m, pieces, link), link) == Put(FeedAll(m, others, link), link)
  {
    hide Receive, TameStream, ComesTo, Put;
    NotEmpty(pieces);
    NotEmpty(others);
    if pieces != [] && others != [] {
      FeedAllIsFeed(m, pieces, link);
      FeedAllIsFeed(m, others, link);
      PutSame(FeedAll(m, pieces, link), FeedAll(m, others, link), m, link,
        Feed(m.core, FramerOf(m, link), Concat(pieces)));
    }
  }

  lemma NotEmpty(pieces: seq<bytes>)
    requires NoneEmpty(pieces)
    ensures Concat(pieces) == [] <==> pieces == []
  {
  }

  lemma StatusDataAppends(c: Core, sid: nat, data: bytes)
    ensures c.events <= StatusData(c, sid, data).events
  {
  }

  lemma {:induction false} NextCredentialAppends(c: Core)
    ensures c.events <= NextCredential(c).events
    decreases |c.ladder|
  {
    if c.ladder != [] && c.ladder[0].initial == None {
      NextCredentialAppends(c.(ladder := c.ladder[1..]));
    }
  }

  lemma BringUpAppends(c: Core, status: nat, body: bytes)
    ensures c.events <= BringUp(c, status, body).0.events
  {
    hide NextCredential, AuthStep, AfterProtocol, BecomeReady, ParseProtocol, UntilNul, Slice;
    AuthStepAppends(c);
    var named := c.(sessionId := Slice(body, 0, 16));
    NextCredentialAppends(named.(phase := Auth));
    BecomeReadyAppends(c);
    BecomeReadyAppends(named);
    if c.phase == Bind && body != [] { BecomeReadyAppends(c.(boundPath := body[0] as nat)); }
    if c.phase == Protocol && ParseProtocol(body) != None {
      var info := ParseProtocol(body).value;
      AfterProtocolAppends(Emit(c.(info := info), Negotiated(info)));
    }
  }

  lemma AuthStepAppends(c: Core)
    ensures c.events <= AuthStep(c).events
  {
    hide NextCredential, FrameOf;
    NextCredentialAppends(c);
  }

  lemma BecomeReadyAppends(c: Core)
    ensures c.events <= BecomeReady(c).events
  {
  }

  lemma AfterProtocolAppends(c: Core)
    ensures c.events <= AfterProtocol(c).events
  {
    hide FrameOf, DemandsTls, HasTls;
  }

  lemma DispatchAppends(c: Core, h: Header, body: bytes)
    ensures c.events <= Dispatch(c, h, body).core.events
  {
    hide BringUp, DecodeHeader, OnResponse;
    BringUpAppends(c, h.status, body);
    if h.streamid in c.pending { OnResponseAppends(c, h.streamid, h.status, body); }
    if h.status == KXR_ATTN && |body| >= 16 && DecodeHeader(body[8..16]) != None {
      var inner := DecodeHeader(body[8..16]).value;
      BringUpAppends(c, inner.status, body[16..]);
      if inner.streamid in c.pending { OnResponseAppends(c, inner.streamid, inner.status, body[16..]); }
    }
  }

  lemma OnResponseAppends(c: Core, sid: nat, status: nat, body: bytes)
    requires sid in c.pending
    ensures c.events <= OnResponse(c, sid, status, body).core.events
  {
    hide ParseStatus, StatusData, RedirectHost, UntilNul;
    if status == KXR_STATUS && ParseStatus(body) != None {
      var noted := c.(pending := c.pending[sid := c.pending[sid].(status := Some(ParseStatus(body).value))]);
      StatusDataAppends(noted, sid, []);
    }
  }

  lemma MoveAppends(c: Core, f: Framer)
    requires MoveOf(c, f) != Wait
    ensures c.events <= MoveOf(c, f).core.events
  {
    hide StatusData, Dispatch, DecodeHeader;
    if f.needTrailer != 0 && f.trailerFor != None {
      StatusDataAppends(c, f.trailerFor.value, Front(f.buffer, f.needTrailer));
    }
    if f.needTrailer == 0 && f.header != None {
      var n := f.header.value.dlen;
      DispatchAppends(c, f.header.value, f.buffer[..n]);
    }
  }

  lemma {:induction false} ParseAppends(c: Core, f: Framer)
    ensures c.events <= Parse(c, f).core.events
    decreases |f.buffer|, Rank(f)
  {
    hide MoveOf;
    if MoveOf(c, f) != Wait {
      MoveAppends(c, f);
      if MoveOf(c, f).Go? {
        MoveShrinks(c, f);
        ParseAppends(MoveOf(c, f).core, MoveOf(c, f).framer);
      }
    }
  }

  // ----- where the division does matter -----

  /** The first state of the parse in which a negative trailer length takes bytes. */
  ghost function Trouble(c: Core, f: Framer): Option<(Core, Framer)>
    decreases |f.buffer|, Rank(f)
  {
    if !Bounded(f) then Some((c, f))
    else
      match MoveOf(c, f)
      case Go(c', f') => Trouble(c', f')
      case _ => None
  }

  lemma {:induction false} TroubleMeans(c: Core, f: Framer)
    ensures Tame(c, f) <==> Trouble(c, f) == None
    ensures Trouble(c, f) != None ==>
              var (c', f') := Trouble(c, f).value;
              !Bounded(f') && Parse(c, f) == Parse(c', f') && Behind(f.buffer, f'.buffer)
    decreases |f.buffer|, Rank(f)
  {
    hide MoveOf;
    BehindSelf(f.buffer);
    if Bounded(f) && MoveOf(c, f).Go? {
      var m := MoveOf(c, f);
      MoveShrinks(c, f);
      TroubleMeans(m.core, m.framer);
      MoveBehind(c, f);
      if Trouble(c, f) != None { BehindThen(f.buffer, m.framer.buffer, Trouble(c, f).value.1.buffer); }
    }
  }

  /** One string ends in another. */
  ghost predicate Behind(b: bytes, tail: bytes) { |tail| <= |b| && b[|b| - |tail|..] == tail }

  lemma BehindSelf(b: bytes)
    ensures Behind(b, b)
  {
  }

  lemma BehindThen(a: bytes, b: bytes, c: bytes)
    requires Behind(a, b) && Behind(b, c)
    ensures Behind(a, c)
  {
    assert a[|a| - |c|..] == a[|a| - |b|..][|b| - |c|..];
  }

  lemma MoveBehind(c: Core, f: Framer)
    requires MoveOf(c, f).Go?
    ensures Behind(f.buffer, MoveOf(c, f).framer.buffer)
  {
    hide StatusData, Dispatch, DecodeHeader;
  }

  /** The response that owes the trailer is in flight and has its status. */
  ghost predicate Owed(c: Core, f: Framer) {
    f.trailerFor != None && f.trailerFor.value in c.pending && c.pending[f.trailerFor.value].status != None
  }

  lemma OnResponseOwes(c: Core, sid: nat, status: nat, body: bytes)
    requires sid in c.pending
    ensures var d := OnResponse(c, sid, status, body);
            d.need != 0 ==> d.owner == Some(sid) && sid in d.core.pending && d.core.pending[sid].status != None
  {
    hide StatusData, ParseStatus, UntilNul, RedirectHost, Release;
  }

  lemma MoveOwes(c: Core, f: Framer)
    requires MoveOf(c, f).Go? && (f.needTrailer < 0 ==> Owed(c, f))
    ensures var m := MoveOf(c, f); m.framer.needTrailer < 0 ==> Owed(m.core, m.framer)
  {
    hide StatusData, BringUp, OnResponse, DecodeHeader;
    if f.needTrailer == 0 && f.header != None && !InBringUp(c.phase) {
      var h, body := f.header.value, f.buffer[..f.header.value.dlen];
      if h.status != KXR_ATTN {
        if h.streamid in c.pending { OnResponseOwes(c, h.streamid, h.status, body); }
      } else if |body| >= 16 && DecodeHeader(body[8..16]) != None {
        var inner := DecodeHeader(body[8..16]).value;
        if inner.streamid in c.pending { OnResponseOwes(c, inner.streamid, inner.status, body[16..]); }
      }
    }
  }

  lemma {:induction false} TroubleOwed(c: Core, f: Framer)
    requires Trouble(c, f) != None && (f.needTrailer < 0 ==> Owed(c, f))
    ensures var (c', f') := Trouble(c, f).value; Owed(c', f')
    decreases |f.buffer|, Rank(f)
  {
    hide MoveOf, Owed;
    if Bounded(f) {
      MoveOwes(c, f);
      MoveShrinks(c, f);
      TroubleOwed(MoveOf(c, f).core, MoveOf(c, f).framer);
    }
  }

  /** Without the bytes behind the trouble the parse goes the same way up to it. */
  lemma {:induction false} TroubleReached(c: Core, g: Framer, y: bytes)
    requires Trouble(c, Longer(g, y)) != None && Trouble(c, Longer(g, y)).value.1.buffer == y
    ensures var (c', f') := Trouble(c, Longer(g, y)).value; Parse(c, g) == Parse(c', f'.(buffer := []))
    decreases |g.buffer|, Rank(g)
  {
    hide MoveOf;
    var f := Longer(g, y);
    if !Bounded(f) {
      assert |g.buffer| == 0;
      assert g == f.(buffer := []);
    } else {
      var m := MoveOf(c, f);
      TroubleMeans(m.core, m.framer);
      EnoughLeft(c, g, y);
      MoveExtends(c, g, y);
      MoveShrinks(c, g);
      TroubleReached(MoveOf(c, g).core, MoveOf(c, g).framer, y);
    }
  }

  /** A move that leaves all of the bytes behind did not need them. */
  lemma EnoughLeft(c: Core, g: Framer, y: bytes)
    requires Bounded(Longer(g, y)) && MoveOf(c, Longer(g, y)).Go? && |y| <= |MoveOf(c, Longer(g, y)).framer.buffer|
    ensures MoveOf(c, g) != Wait
  {
    hide StatusData, Dispatch, DecodeHeader;
    var f := Longer(g, y);
    if f.needTrailer == 0 && f.header == None { assert f.buffer[..8] == f.buffer[..8]; }
  }

  /** A link that waits needs new bytes for its next move. */
  lemma TakesNew(c: Core, f: Framer, data: bytes)
    requires MoveOf(c, f) == Wait && MoveOf(c, Longer(f, data)).Go?
    ensures |MoveOf(c, Longer(f, data)).framer.buffer| < |data|
  {
    hide StatusData, Dispatch, DecodeHeader;
  }

  /** The data of the event made by a status response's data. */
  lemma StatusDataTells(c: Core, sid: nat, data: bytes)
    requires sid in c.pending && c.pending[sid].status != None
    ensures var d := StatusData(c, sid, data);
            var p := c.pending[sid];
            || d.events == c.events + [Completed(sid, p.request, p.buffer + data, p.status)]
            || d.events == c.events + [Chunk(sid, p.request, data)]
    ensures IsFinal(c.pending[sid].status.value) <==>
              StatusData(c, sid, data).events ==
              c.events + [Completed(sid, c.pending[sid].request, c.pending[sid].buffer + data, c.pending[sid].status)]
  {
    hide Without;
    var p := c.pending[sid];
    assert (c.events + [Completed(sid, p.request, p.buffer + data, p.status)])[|c.events|]
        != (c.events + [Chunk(sid, p.request, data)])[|c.events|];
  }

  /** With a trailer of negative length owed, what the next event tells depends on the bytes
      that happen to be there. */
  lemma TellsApart(c: Core, f: Framer, g: Framer, one: Core, other: Core)
    requires Owed(c, f) && !Bounded(f) && g == f.(buffer := [])
    requires Parse(c, f).core.events <= one.events && Parse(c, g).core.events <= other.events
    ensures one.events != other.events
  {
    hide StatusData;
    var sid := f.trailerFor.value;
    var more, none := Front(f.buffer, f.needTrailer), Front(g.buffer, g.needTrailer);
    assert |more| > 0 && none == [];
    StatusDataTells(c, sid, more);
    StatusDataTells(c, sid, none);
    var m, n := MoveOf(c, f), MoveOf(c, g);
    ParseAppends(m.core, m.framer);
    ParseAppends(n.core, n.framer);
    var at := |c.events|;
    assert one.events[at] == m.core.events[at] && other.events[at] == n.core.events[at];
    assert |c.pending[sid].buffer + more| != |c.pending[sid].buffer + none|;
  }

  /** The bytes, whole, and cut where the trouble begins, leave different machines: so they
      come to the same for every division exactly when the stream is tame. */
  lemma CutMatters(m: Machine, data: bytes, link: nat) returns (j: nat)
    requires MoveOf(m.core, FramerOf(m, link)) == Wait && !TameStream(m, data, link)
    ensures 0 < j < |data|
    ensures FeedAll(m, [data], link).machine.core.events != FeedAll(m, [data[..j], data[j..]], link).machine.core.events
  {
    hide Parse, Trouble, Tame, MoveOf, FeedAll, Owed;
    var c, f := m.core, FramerOf(m, link);
    var all := Longer(f, data);
    WaitsBounded(c, f);
    TroubleMeans(c, all);
    TroubleOwed(c, all);
    var (c', f') := Trouble(c, all).value;
    var y := f'.buffer;
    FirstMove(c, f, data);
    j := |data| - |y|;
    assert data[j..] == y by { assert all.buffer[|all.buffer| - |y|..] == data[j..]; }
    var x := data[..j];
    var g := Longer(f, x);
    assert Longer(g, y) == all by { assert f.buffer + x + y == f.buffer + data; }
    TroubleReached(c, g, y);
    FeedOne(m, data, link);
    FeedTwo(m, x, y, link);
    TellsApart(c', f', f'.(buffer := []), FeedAll(m, [data], link).machine.core, FeedAll(m, [x, y], link).machine.core);
  }

  lemma WaitsBounded(c: Core, f: Framer)
    requires MoveOf(c, f) == Wait
    ensures f.needTrailer >= 0
  {
    hide StatusData, Dispatch, DecodeHeader;
  }

  lemma FirstMove(c: Core, f: Framer, data: bytes)
    requires MoveOf(c, f) == Wait && Trouble(c, Longer(f, data)) != None
    ensures 0 < |Trouble(c, Longer(f, data)).value.1.buffer| < |data|
  {
    hide MoveOf;
    WaitsBounded(c, f);
    TroubleMeans(c, Longer(f, data));
    var m := MoveOf(c, Longer(f, data));
    TroubleMeans(m.core, m.framer);
    TakesNew(c, f, data);
  }

  lemma FeedOne(m: Machine, data: bytes, link: nat)
    requires data != []
    ensures FeedAll(m, [data], link).machine.core == Parse(m.core, Longer(FramerOf(m, link), data)).core
  {
    hide Parse;
    assert [data][..0] == [];
  }

  lemma FeedTwo(m: Machine, x: bytes, y: bytes, link: nat)
    requires x != [] && y != []
    ensures Parse(m.core, Longer(FramerOf(m, link), x)).core.events <= FeedAll(m, [x, y], link).machine.core.events
  {
    hide Parse;
    assert [x, y][..1] == [x];
    FeedOne(m, x, link);
    var mid := FeedAll(m, [x], link);
    if mid.raised == None {
      var f := FramerOf(mid.machine, link);
      ParseAppends(mid.machine.core, f.(buffer := f.buffer + y));
    }
  }

  /** Such a stream: a status response with a negative trailer length, to a stream in flight
      once the session is up, and more bytes behind it than that length counts back. */
  lemma NegativeTrailerTroubles(m: Machine, link: nat, head: bytes, sid: nat, body: bytes, tail: bytes)
    requires FramerOf(m, link) == FRESH_FRAMER && !InBringUp(m.core.phase) && sid in m.core.pending
    requires |head| == RESPONSE_HDRLEN && DecodeHeader(head) == Some(Header(sid, KXR_STATUS, |body|))
    requires ParseStatus(body) != None && ParseStatus(body).value.dlen < 0 && |tail| > -ParseStatus(body).value.dlen
    ensures !TameStream(m, head + body + tail, link)
  {
    hide DecodeHeader, ParseStatus, StatusData, MoveOf, Dispatch;
    var c, f := m.core, Longer(FRESH_FRAMER, head + body + tail);
    var st, h := ParseStatus(body).value, Header(sid, KXR_STATUS, |body|);
    assert f == FRESH_FRAMER.(buffer := head + (body + tail)) by {
      assert [] + (head + body + tail) == head + (body + tail);
    }
    HeaderMove(c, head, body + tail, h);
    BodyMove(c, h, body, tail);
    StatusOwes(c, sid, body);
    var d := Dispatch(c, h, body);
    assert !Tame(d.core, Framer(tail, None, st.dlen, Some(sid)));
    TameOn(c, Framer(body + tail, Some(h), 0, None));
    TameOn(c, f);
  }

  lemma TameOn(c: Core, f: Framer)
    requires MoveOf(c, f).Go?
    ensures Tame(c, f) ==> Tame(MoveOf(c, f).core, MoveOf(c, f).framer)
  {
    hide MoveOf;
  }

  lemma HeaderMove(c: Core, head: bytes, rest: bytes, h: Header)
    requires |head| == RESPONSE_HDRLEN && DecodeHeader(head) == Some(h)
    ensures MoveOf(c, FRESH_FRAMER.(buffer := head + rest)) == Go(c, Framer(rest, Some(h), 0, None))
  {
    hide DecodeHeader;
    assert (head + rest)[..8] == head && (head + rest)[8..] == rest;
  }

  lemma BodyMove(c: Core, h: Header, body: bytes, rest: bytes)
    requires |body| == h.dlen
    ensures var d := Dispatch(c, h, body);
            var f := if d.need != 0 then Framer(rest, None, d.need, d.owner) else Framer(rest, None, 0, None);
            MoveOf(c, Framer(body + rest, Some(h), 0, None)) ==
            if d.raised == None then Go(d.core, f) else Throw(d.core, f, d.raised.value)
  {
    hide Dispatch;
    assert (body + rest)[..|body|] == body && (body + rest)[|body|..] == rest;
  }

  lemma StatusOwes(c: Core, sid: nat, body: bytes)
    requires sid in c.pending && !InBringUp(c.phase) && ParseStatus(body) != None && ParseStatus(body).value.dlen != 0
    ensures var d := Dispatch(c, Header(sid, KXR_STATUS, |body|), body);
            d.raised == None && d.need == ParseStatus(body).value.dlen && d.owner == Some(sid)
  {
    hide ParseStatus, StatusData, BringUp;
  }

  /** And the bytes of one: for stream 4, a trailer of length -1. */
  lemma NegativeFrame()
    ensures var head := Big(4, 2) + Big(KXR_STATUS, 2) + Big(16, 4);
            var body := Zeros(12) + [255, 255, 255, 255];
            && |head| == RESPONSE_HDRLEN && DecodeHeader(head) == Some(Header(4, KXR_STATUS, |body|))
            && ParseStatus(body) != None && ParseStatus(body).value.dlen == -1
  {
    var head := Big(4, 2) + Big(KXR_STATUS, 2) + Big(16, 4);
    BigAppend(4, 2);
    BigAppend(KXR_STATUS, 2);
    Big4Is(16);
    var tail := Big(16, 4);
    assert head[4] == tail[0] && head[5] == tail[1] && head[6] == tail[2] && head[7] == tail[3];
  }
}
