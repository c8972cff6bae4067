/** What a completion carries when its request was sent again: `resume` replays the stored
    bytes and leaves what the stream has gathered where it is. */
module SessionResends {
  import opened Octets
  import opened Frames
  import opened Session
  import opened SessionRuns
  import opened SessionLaws
  import opened SessionTheorems
  import S = SessionSafety
  import Framing

  /** For each stream, from calls and events alone: the chunks it had when it was last sent
      (none for a first send), the chunks it got since, and whether every resend of it came
      before any chunk. */
  datatype Sends = Sends(carried: map<nat, bytes>, since: map<nat, bytes>, clean: set<nat>)

  function Hear(s: Sends, e: Event): Sends {
    if e.Chunk? && e.sid in s.since then s.(since := s.since[e.sid := s.since[e.sid] + e.data]) else s
  }

  function HearAll(s: Sends, es: seq<Event>): Sends {
    if es == [] then s else Hear(HearAll(s, es[..|es| - 1]), es[|es| - 1])
  }

  ghost function Next(m: Machine, h: History, s: Sends, hmac: Hmac, call: S.Call): Sends {
    var c, d := m.core, S.Do(m, hmac, call).core;
    var told := if c.events <= d.events then HearAll(s, d.events[|c.events|..]) else s;
    match call
    case Submit(r, arrive) =>
      var sid := Session.Submit(c, hmac, r, arrive).1;
      if sid.Err? then told
      else Sends(told.carried[sid.value := []], told.since[sid.value := []], told.clean + {sid.value})
    case Resume(sid) =>
      if sid !in h.got then told
      else Sends(told.carried[sid := h.got[sid]], told.since[sid := []],
                 if h.got[sid] == [] then told.clean else told.clean - {sid})
    case _ => told
  }

  ghost function SendsOf(cfg: Config, ladder: seq<Credential>, hmac: Hmac, calls: seq<S.Call>): Sends {
    if calls == [] then Sends(map[], map[], {})
    else
      var before := calls[..|calls| - 1];
      var w := S.Run(cfg, ladder, hmac, before);
      Next(w.machine, w.history, SendsOf(cfg, ladder, hmac, before), hmac, calls[|calls| - 1])
  }

  /** What a stream has gathered is what it had when last sent and what came since. */
  ghost predicate Split(h: History, s: Sends) {
    forall sid | sid in h.got ::
      && sid in s.carried && sid in s.since && h.got[sid] == s.carried[sid] + s.since[sid]
      && (sid in s.clean <==> s.carried[sid] == [])
  }

  lemma HearKeeps(h: History, s: Sends, e: Event)
    requires Split(h, s)
    ensures Split(Tell(h, e), Hear(s, e))
  {
    if e.Chunk? && e.sid in h.got {
      assert h.got[e.sid] + e.data == s.carried[e.sid] + (s.since[e.sid] + e.data);
    }
  }

  lemma {:induction false} HearAllKeeps(h: History, s: Sends, es: seq<Event>)
    requires Split(h, s)
    ensures Split(TellAll(h, es), HearAll(s, es))
    decreases |es|
  {
    hide Split, Tell, Hear;
    if es != [] {
      HearAllKeeps(h, s, es[..|es| - 1]);
      HearKeeps(TellAll(h, es[..|es| - 1]), HearAll(s, es[..|es| - 1]), es[|es| - 1]);
    }
  }

  lemma HeardKeeps(h: History, s: Sends, c: Core, d: Core)
    requires Split(h, s)
    ensures Split(S.Heard(h, c, d), if c.events <= d.events then HearAll(s, d.events[|c.events|..]) else s)
  {
    hide Split, TellAll, HearAll;
    if c.events <= d.events { HearAllKeeps(h, s, d.events[|c.events|..]); }
  }

  lemma SubmitKeeps(h: History, s: Sends, c: Core, hmac: Hmac, r: Request, arrive: bool)
    requires Split(h, s)
    ensures var sid := Submit(c, hmac, r, arrive).1;
            Split(S.NoteSubmit(h, c, hmac, r, arrive),
                  if sid.Err? then s
                  else Sends(s.carried[sid.value := []], s.since[sid.value := []], s.clean + {sid.value}))
  {
    hide Acquire, Send, Encodable;
  }

  lemma ResumeKeeps(h: History, s: Sends, sid: nat)
    requires Split(h, s) && sid in h.got
    ensures Split(h, Sends(s.carried[sid := h.got[sid]], s.since[sid := []],
                           if h.got[sid] == [] then s.clean else s.clean - {sid}))
  {
    assert h.got[sid] == h.got[sid] + [];
  }

  /** A resend makes no event. */
  lemma ResumeQuiet(m: Machine, hmac: Hmac, sid: nat)
    ensures S.Do(m, hmac, S.Resume(sid)).core.events == m.core.events
  {
  }

  lemma NextKeeps(w: S.World, s: Sends, hmac: Hmac, call: S.Call)
    requires Split(w.history, s)
    ensures Split(S.Note(w.machine, w.history, hmac, call), Next(w.machine, w.history, s, hmac, call))
  {
    hide S.Do, S.Heard, HearAll, Submit, S.NoteSubmit;
    var c, d := w.machine.core, S.Do(w.machine, hmac, call).core;
    HeardKeeps(w.history, s, c, d);
    var told := S.Heard(w.history, c, d);
    match call
    case Submit(r, arrive) =>
      SubmitKeeps(told, if c.events <= d.events then HearAll(s, d.events[|c.events|..]) else s, c, hmac, r, arrive);
    case Resume(sid) =>
      ResumeQuiet(w.machine, hmac, sid);
      SameEvents(w.history, s, c, d);
      if sid in w.history.got { ResumeKeeps(w.history, s, sid); }
    case _ =>
  }

  lemma SameEvents(h: History, s: Sends, c: Core, d: Core)
    requires c.events == d.events
    ensures S.Heard(h, c, d) == h && HearAll(s, d.events[|c.events|..]) == s
  {
    AfterSame(h, c, d);
  }

  lemma {:induction false} RunSplits(cfg: Config, ladder: seq<Credential>, hmac: Hmac, calls: seq<S.Call>)
    ensures Split(S.Run(cfg, ladder, hmac, calls).history, SendsOf(cfg, ladder, hmac, calls))
    decreases |calls|
  {
    hide S.Note, S.Do, Next;
    if calls != [] {
      var before := calls[..|calls| - 1];
      RunSplits(cfg, ladder, hmac, before);
      hide Split;
      NextKeeps(S.Run(cfg, ladder, hmac, before), SendsOf(cfg, ladder, hmac, before), hmac, calls[|calls| - 1]);
    }
  }

  // ----- completions -----

  /** Every completion a step makes is what the stream had when last sent, what came since,
      and `data`; it is the body of the last send exactly for a clean stream. */
  ghost predicate AnswersWith(s: Sends, c: Core, d: Core, data: bytes) {
    forall i | |c.events| <= i < |d.events| && d.events[i].Completed? ::
      var e := d.events[i];
      && e.sid in s.carried && e.sid in s.since && e.data == s.carried[e.sid] + (s.since[e.sid] + data)
      && (e.data == s.since[e.sid] + data <==> e.sid in s.clean)
  }

  ghost predicate ParseAnswers(c: Core, s: Sends, f: Framer)
    decreases |f.buffer|, Rank(f)
  {
    match MoveOf(c, f)
    case Wait => true
    case Throw(c', _, _) => AnswersWith(s, c, c', Delivered(f))
    case Go(c', f') =>
      && AnswersWith(s, c, c', Delivered(f)) && c.events <= c'.events
      && ParseAnswers(c', HearAll(s, c'.events[|c.events|..]), f')
  }

  lemma WholeAnswers(h: History, s: Sends, c: Core, d: Core, data: bytes)
    requires Split(h, s) && CompletesWith(h, c, d, data)
    ensures AnswersWith(s, c, d, data)
  {
    forall i | |c.events| <= i < |d.events| && d.events[i].Completed?
      ensures var e := d.events[i];
              && e.sid in s.carried && e.sid in s.since && e.data == s.carried[e.sid] + (s.since[e.sid] + data)
              && (e.data == s.since[e.sid] + data <==> e.sid in s.clean)
    {
      var e := d.events[i];
      Joins(s.carried[e.sid], s.since[e.sid], data);
    }
  }

  lemma Joins(a: bytes, b: bytes, data: bytes)
    ensures a + b + data == a + (b + data)
    ensures a + (b + data) == b + data <==> a == []
  {
    if a != [] { assert |a + (b + data)| != |b + data|; }
    assert [] + (b + data) == b + data;
  }

  lemma {:induction false} ParseAnswered(c: Core, h: History, s: Sends, f: Framer)
    requires Laws(c, h) && Split(h, s)
    ensures ParseAnswers(c, s, f)
    decreases |f.buffer|, Rank(f)
  {
    hide MoveOf, Delivered, CompletesWith, AnswersWith, Split, Ledger, Ids, Opening, Signing, Space, TellAll, HearAll;
    var m := MoveOf(c, f);
    if m != Wait {
      MoveCompletes(c, h, f);
      MoveLaws(c, h, f);
      WholeAnswers(h, s, c, m.core, Delivered(f));
      if m.Go? {
        Framing.MoveShrinks(c, f);
        HearAllKeeps(h, s, m.core.events[|c.events|..]);
        ParseAnswered(m.core, After(h, c, m.core), HearAll(s, m.core.events[|c.events|..]), m.framer);
      }
    }
  }

  /** Of every call of a run; only received bytes complete anything. */
  ghost predicate RunAnswers(cfg: Config, ladder: seq<Credential>, hmac: Hmac, calls: seq<S.Call>) {
    calls == [] ||
    var before, call := calls[..|calls| - 1], calls[|calls| - 1];
    var m := S.Run(cfg, ladder, hmac, before).machine;
    && RunAnswers(cfg, ladder, hmac, before)
    && if call.Receive? && call.data != [] then
         var f := FramerOf(m, call.link);
         ParseAnswers(m.core, SendsOf(cfg, ladder, hmac, before), f.(buffer := f.buffer + call.data))
       else NoneDelivered(m.core, S.Do(m, hmac, call).core)
  }

  /** Over every run: a completion is what its stream had gathered when last sent, then the
      body since; so it is the body of the last send exactly when every resend of its stream
      came before any chunk. */
  lemma {:induction false} CompletionsSinceSend(cfg: Config, ladder: seq<Credential>, hmac: Hmac, calls: seq<S.Call>)
    ensures RunAnswers(cfg, ladder, hmac, calls)
    decreases |calls|
  {
    if calls != [] {
      var before, call := calls[..|calls| - 1], calls[|calls| - 1];
      CompletionsSinceSend(cfg, ladder, hmac, before);
      S.RunLaws(cfg, ladder, hmac, before);
      RunSplits(cfg, ladder, hmac, before);
      hide S.Run, SendsOf, ParseAnswers, Laws, Split, S.Do, ParseWhole;
      var w := S.Run(cfg, ladder, hmac, before);
      CallIsWhole(w, hmac, call);
      if call.Receive? && call.data != [] {
        var f := FramerOf(w.machine, call.link);
        ParseAnswered(w.machine.core, w.history, SendsOf(cfg, ladder, hmac, before),
          f.(buffer := f.buffer + call.data));
      }
    }
  }
}
