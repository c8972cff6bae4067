/** When the stream-id space runs out, over every run of the session machine. */
module SessionExhaustion {
  import opened Octets
  import opened Frames
  import opened Session
  import opened SessionRuns
  import opened SessionLaws
  import S = SessionSafety

  const ID_COUNT := 65_532

  // ----- counting -----

  lemma RangeCounts()
    ensures |Range(FIRST_SID, LAST_SID + 1)| == ID_COUNT
  {
    RangeSize(FIRST_SID, LAST_SID + 1);
  }

  lemma Within(a: set<nat>, b: set<nat>)
    requires a <= b && |a| == |b|
    ensures a == b
  {
    if a != b {
      var x :| x in b && x !in a;
      var rest := b - {x};
      assert a <= rest;
      Smaller(a, rest);
    }
  }

  lemma Smaller(a: set<nat>, b: set<nat>)
    requires a <= b
    ensures |a| <= |b|
  {
    assert b == a + (b - a);
  }

  lemma FreeMeansNotFull(c: Core)
    requires Ids(c) && c.free != []
    ensures c.pending.Keys != Range(FIRST_SID, LAST_SID + 1)
  {
    hide NoDup;
    assert c.free[0] in Range(FIRST_SID, LAST_SID + 1) && c.free[0] !in c.pending.Keys;
  }

  /** A full table: nothing is free and the next id is in flight. */
  lemma FullTable(c: Core)
    requires Ids(c) && c.pending.Keys == Range(FIRST_SID, LAST_SID + 1)
    ensures Acquire(c).1 == Err(Exhausted)
  {
    hide NoDup;
    if c.free != [] { FreeMeansNotFull(c); }
  }

  lemma AllInFlight(c: Core)
    requires Ids(c) && |c.pending| == ID_COUNT
    ensures c.pending.Keys == Range(FIRST_SID, LAST_SID + 1)
  {
    hide NoDup;
    RangeCounts();
    assert c.pending.Keys <= Range(FIRST_SID, LAST_SID + 1);
    assert |c.pending.Keys| == |c.pending|;
    Within(c.pending.Keys, Range(FIRST_SID, LAST_SID + 1));
  }

  // ----- the exact condition -----

  /** An exhausted space is made up of the ids in flight and the ids lost, and of nothing
      else, so that the one number determines the other. */
  lemma ExhaustedHere(c: Core, h: History)
    requires Laws(c, h) && Acquire(c).1.Err?
    ensures c.pending.Keys + h.lost == Range(FIRST_SID, LAST_SID + 1) && c.pending.Keys !! h.lost
    ensures |c.pending| + |h.lost| == ID_COUNT
  {
    hide Opening, Signing, Accounted, Ids;
    ExhaustedMeans(c, h);
    hide Acquire, Issued;
    RangeCounts();
    assert c.pending.Keys !! h.lost by { assert Taken(c) == c.pending.Keys by { assert Set([]) == {}; } }
    assert |c.pending.Keys + h.lost| == |c.pending.Keys| + |h.lost|;
    assert |c.pending.Keys| == |c.pending|;
  }

  /** Over every run that is up: a submission finds the space exhausted exactly when nothing
      is free and the counter stands at an id in flight; that is with all 65,532 ids in
      flight but for those lost; and with fewer than all of them in flight exactly when some
      are lost to encodings that failed. */
  lemma ExhaustedIff(cfg: Config, ladder: seq<Credential>, hmac: Hmac, calls: seq<S.Call>, r: Request, arrive: bool)
    requires S.Run(cfg, ladder, hmac, calls).machine.core.phase == Ready
    ensures var w := S.Run(cfg, ladder, hmac, calls);
            var c, h := w.machine.core, w.history;
            var exhausted := Submit(c, hmac, r, arrive).1 == Err(Exhausted);
            && (exhausted <==> c.free == [] && c.nextSid in c.pending)
            && (exhausted ==> |c.pending| == ID_COUNT - |h.lost|)
            && (exhausted && |c.pending| < ID_COUNT <==> c.free == [] && c.nextSid in c.pending && h.lost != {})
            && (|c.pending| == ID_COUNT ==> exhausted)
            && (h.lost != {} ==> h.refused > 0)
  {
    S.RunLaws(cfg, ladder, hmac, calls);
    var w := S.Run(cfg, ladder, hmac, calls);
    var c, h := w.machine.core, w.history;
    hide S.Run, Opening, Signing, Accounted, Ids, Space, Send, Encodable;
    NoneLost(c, h);
    if Acquire(c).1.Err? {
      ExhaustedHere(c, h);
      LostCount(h.lost);
    }
    if |c.pending| == ID_COUNT {
      AllInFlight(c);
      FullTable(c);
    }
  }

  lemma LostCount(lost: set<nat>)
    ensures |lost| == 0 <==> lost == {}
  {
  }

  lemma NoneLost(c: Core, h: History)
    requires Space(c, h) && c.phase == Ready
    ensures h.lost != {} ==> h.refused > 0
  {
    hide Issued, Taken;
  }

  /** So while every submission could be encoded, exactly when all 65,532 are in flight. */
  lemma ExhaustedWhenFull(cfg: Config, ladder: seq<Credential>, hmac: Hmac, calls: seq<S.Call>, r: Request,
    arrive: bool)
    requires S.Run(cfg, ladder, hmac, calls).machine.core.phase == Ready
    requires S.Run(cfg, ladder, hmac, calls).history.refused == 0
    ensures var c := S.Run(cfg, ladder, hmac, calls).machine.core;
            Submit(c, hmac, r, arrive).1 == Err(Exhausted) <==> |c.pending| == ID_COUNT
  {
    ExhaustedIff(cfg, ladder, hmac, calls, r, arrive);
    hide S.Run, Submit;
  }

  // ----- which id comes next -----

  /** An id given back is the next one handed out; with none to hand back, ids come in turn
      from 4 to 65,535 and then from 4 again. */
  lemma NextId(c: Core, sid: nat)
    ensures sid in c.pending && sid >= 4 ==> Acquire(Release(c, sid)).1 == Ok(sid)
    ensures c.free == [] ==> Acquire(c).0.nextSid == if c.nextSid >= 65_535 then 4 else c.nextSid + 1
    ensures c.free == [] && c.nextSid !in c.pending ==> Acquire(c).1 == Ok(c.nextSid)
    ensures Initial(c.cfg, c.ladder).core.nextSid == 4 && Initial(c.cfg, c.ladder).core.free == []
  {
    hide Without;
  }
}
