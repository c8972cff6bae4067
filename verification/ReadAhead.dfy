/** The read-ahead window and the pump (`copy/engine.py`: `_Ahead`, `_pump`). One thread
    reads and offers chunks to a bounded queue, the other takes them and works on them; a
    run is any interleaving of their steps, up to the join when the window closes. */
module ReadAhead {
  import opened Octets

  /** What reading the source comes to: its chunks in order, then its end or an exception. */
  datatype Script = Script(chunks: seq<bytes>, failure: Option<int>)

  datatype Item = Piece(data: bytes) | Oops(error: int) | Nothing

  /** The reading thread: about to read, offering an item (`clear` once it has seen the stop
      flag down, so that it will now try to put), or gone. */
  datatype Reader = Reading | Offering(item: Item, clear: bool) | Gone

  /** The consuming thread: waiting on the queue, working on a chunk, leaving (why it
      leaves), emptying the queue until the reader is gone, or out. */
  datatype Reason = SawEnd | SawError(error: int) | GaveUp
  datatype Consumer = Waiting | Working | Leaving(why: Reason) | Draining(why: Reason) | Out(why: Reason)

  /** `next` counts the chunks read, `taken` are those handed to the consumer. */
  datatype Window = Window(queue: seq<Item>, reader: Reader, next: nat, stop: bool, consumer: Consumer,
    taken: seq<bytes>)

  const OPEN := Window([], Reading, 0, false, Waiting, [])

  datatype Act =
    | Fill          // the reader reads one chunk, or its end
    | Look          // the reader looks at the stop flag
    | Put           // the reader puts its item, or finds the queue full
    | Get           // the consumer takes the next item
    | Work          // the consumer is done with a chunk and wants the next
    | Fault         // the consumer's own work on a chunk fails
    | RaiseStop     // the consumer leaves the window
    | Discard       // the leaving consumer throws an item away
    | Join          // the leaving consumer finds the reader gone

  /** The reader's next item once the last one was put. */
  function AfterPut(w: Window): Window
    requires w.reader.Offering?
  {
    match w.reader.item
    case Piece(_) => w.(reader := Reading)
    case Oops(_) => w.(reader := Offering(Nothing, false))
    case Nothing => w.(reader := Gone)
  }

  /** A step; one that its thread cannot take now changes nothing. */
  function Step(s: Script, depth: nat, w: Window, act: Act): Window {
    match act
    case Fill =>
      if w.reader != Reading then w
      else if w.next < |s.chunks| then w.(reader := Offering(Piece(s.chunks[w.next]), false), next := w.next + 1)
      else if s.failure == None then w.(reader := Offering(Nothing, false))
      else w.(reader := Offering(Oops(s.failure.value), false))
    case Look =>
      if !w.reader.Offering? || w.reader.clear then w
      else if !w.stop then w.(reader := w.reader.(clear := true))
      // refused: a chunk ends the loop, and the closing offers are refused in turn
      else if w.reader.item == Nothing then w.(reader := Gone)
      else w.(reader := Offering(Nothing, false))
    case Put =>
      if !w.reader.Offering? || !w.reader.clear then w
      else if |w.queue| < depth then AfterPut(w.(queue := w.queue + [w.reader.item]))
      else w.(reader := w.reader.(clear := false))
    case Get =>
      if w.consumer != Waiting || w.queue == [] then w
      else
        var rest := w.(queue := w.queue[1..]);
        (match w.queue[0]
         case Piece(data) => rest.(consumer := Working, taken := w.taken + [data])
         case Oops(error) => rest.(consumer := Leaving(SawError(error)))
         case Nothing => rest.(consumer := Leaving(SawEnd)))
    case Work => if w.consumer != Working then w else w.(consumer := Waiting)
    case Fault => if w.consumer != Working then w else w.(consumer := Leaving(GaveUp))
    case RaiseStop => if !w.consumer.Leaving? then w else w.(stop := true, consumer := Draining(w.consumer.why))
    case Discard => if !w.consumer.Draining? || w.queue == [] then w else w.(queue := w.queue[1..])
    case Join => if !w.consumer.Draining? || w.reader != Gone then w else w.(consumer := Out(w.consumer.why))
  }

  function Run(s: Script, depth: nat, acts: seq<Act>): Window {
    if acts == [] then OPEN else Step(s, depth, Run(s, depth, acts[..|acts| - 1]), acts[|acts| - 1])
  }

  // ----- what every interleaving keeps -----

  /** All the items a script makes the reader offer, in order. */
  function Items(s: Script): (r: seq<Item>)
    ensures |r| == |s.chunks| + (if s.failure == None then 1 else 2)
    ensures forall i | 0 <= i < |s.chunks| :: r[i] == Piece(s.chunks[i])
    ensures s.failure != None ==> r[|s.chunks|] == Oops(s.failure.value)
    ensures r[|r| - 1] == Nothing
  {
    Pieces(s.chunks) + (if s.failure == None then [] else [Oops(s.failure.value)]) + [Nothing]
  }

  function Pieces(chunks: seq<bytes>): (r: seq<Item>)
    ensures |r| == |chunks| && forall i | 0 <= i < |r| :: r[i] == Piece(chunks[i])
  {
    seq(|chunks|, i requires 0 <= i < |chunks| => Piece(chunks[i]))
  }

  /** How many of the script's items the reader has put, while nobody has told it to stop. */
  function PutCount(s: Script, w: Window): nat {
    match w.reader
    case Reading => w.next
    case Offering(Piece(_), _) => if w.next > 0 then w.next - 1 else 0
    case Offering(Oops(_), _) => |s.chunks|
    case Offering(Nothing, _) => |Items(s)| - 1
    case Gone => |Items(s)|
  }

  /** How many the consumer has taken off the queue, while it is still in the window. */
  function TookCount(w: Window): nat {
    |w.taken| + if w.consumer.Leaving? && w.consumer.why != GaveUp then 1 else 0
  }

  /** The reader's place agrees with what it has read. */
  ghost predicate InPlace(s: Script, w: Window) {
    && w.next <= |s.chunks|
    && (w.reader.Offering? && w.reader.item.Piece? ==> w.next > 0 && w.reader.item.data == s.chunks[w.next - 1])
    && (w.reader.Offering? && w.reader.item.Oops? ==> w.next == |s.chunks| && s.failure == Some(w.reader.item.error))
    && (!w.stop && w.reader.Offering? && w.reader.item.Nothing? ==> w.next == |s.chunks|)
  }

  /** Until the window closes, the queue holds exactly the items put and not yet taken. */
  ghost predicate Lined(s: Script, w: Window) {
    !w.stop ==>
      TookCount(w) <= PutCount(s, w) <= |Items(s)| && w.queue == Items(s)[TookCount(w)..PutCount(s, w)]
  }

  /** What the consumer was given, and why it left. */
  ghost predicate Heard(s: Script, w: Window) {
    && w.taken <= s.chunks
    && (w.consumer.Leaving? || w.consumer.Draining? || w.consumer.Out? ==>
          && (w.consumer.why == SawEnd ==> w.taken == s.chunks && s.failure == None)
          && (w.consumer.why.SawError? ==> w.taken == s.chunks && s.failure == Some(w.consumer.why.error)))
    && (w.stop <==> w.consumer.Draining? || w.consumer.Out?)
  }

  ghost predicate Invariant(s: Script, depth: nat, w: Window) {
    |w.queue| <= depth && InPlace(s, w) && Lined(s, w) && Heard(s, w) && (w.consumer.Out? ==> w.reader == Gone)
  }

  lemma FillKeeps(s: Script, depth: nat, w: Window)
    requires Invariant(s, depth, w)
    ensures Invariant(s, depth, Step(s, depth, w, Fill))
  {
    hide Items;
  }

  lemma LookKeeps(s: Script, depth: nat, w: Window)
    requires Invariant(s, depth, w)
    ensures Invariant(s, depth, Step(s, depth, w, Look))
  {
    hide Items;
  }

  lemma PutKeeps(s: Script, depth: nat, w: Window)
    requires Invariant(s, depth, w)
    ensures Invariant(s, depth, Step(s, depth, w, Put))
  {
    hide Items;
    if w.reader.Offering? && w.reader.clear && |w.queue| < depth && !w.stop { PutNext(s, w); }
  }

  /** The item being offered is the one that comes after those put. */
  lemma PutNext(s: Script, w: Window)
    requires InPlace(s, w) && Lined(s, w) && w.reader.Offering? && !w.stop
    ensures var n, t := PutCount(s, w), TookCount(w);
            n < |Items(s)| && t <= n && Items(s)[n] == w.reader.item && w.queue + [w.reader.item] == Items(s)[t..n + 1]
  {
    hide Items;
    var items, n, t := Items(s), PutCount(s, w), TookCount(w);
    assert items[n] == w.reader.item;
    assert items[t..n + 1] == items[t..n] + [items[n]];
  }

  lemma GetKeeps(s: Script, depth: nat, w: Window)
    requires Invariant(s, depth, w)
    ensures Invariant(s, depth, Step(s, depth, w, Get))
  {
    hide Items;
    if w.consumer == Waiting && w.queue != [] { GetNext(s, w); }
  }

  /** The item at the front is the one that comes after those taken. */
  lemma GetNext(s: Script, w: Window)
    requires Lined(s, w) && Heard(s, w) && w.consumer == Waiting && w.queue != []
    ensures var n, t := PutCount(s, w), TookCount(w);
            t < n <= |Items(s)| && w.queue[0] == Items(s)[t] && w.queue[1..] == Items(s)[t + 1..n] && t <= |s.chunks|
    ensures w.queue[0].Piece? ==> w.taken + [w.queue[0].data] <= s.chunks
    ensures !w.queue[0].Piece? ==> w.taken == s.chunks
    ensures w.queue[0].Oops? ==> s.failure == Some(w.queue[0].error)
    ensures w.queue[0].Nothing? ==> s.failure == None
  {
    hide Items;
    var items, n, t := Items(s), PutCount(s, w), TookCount(w);
    assert w.queue[0] == items[t] && w.queue[1..] == items[t + 1..n];
    assert w.taken == s.chunks[..t];
    if t < |s.chunks| {
      assert items[t] == Piece(s.chunks[t]);
      assert s.chunks[..t + 1] == s.chunks[..t] + [s.chunks[t]];
    }
  }

  lemma LeaveKeeps(s: Script, depth: nat, w: Window, act: Act)
    requires Invariant(s, depth, w) && act in {Work, Fault, RaiseStop, Discard, Join}
    ensures Invariant(s, depth, Step(s, depth, w, act))
  {
    hide Items;
  }

  /** Every interleaving keeps the invariant. */
  lemma {:induction false} RunKeeps(s: Script, depth: nat, acts: seq<Act>)
    ensures Invariant(s, depth, Run(s, depth, acts))
    decreases |acts|
  {
    if acts != [] {
      var w := Run(s, depth, acts[..|acts| - 1]);
      RunKeeps(s, depth, acts[..|acts| - 1]);
      hide Invariant, Step;
      match acts[|acts| - 1]
      case Fill => FillKeeps(s, depth, w);
      case Look => LookKeeps(s, depth, w);
      case Put => PutKeeps(s, depth, w);
      case Get => GetKeeps(s, depth, w);
      case act => LeaveKeeps(s, depth, w, act);
    }
  }

  /** For every interleaving: the queue never exceeds its depth; the consumer has been given
      a prefix of the chunks in the order read; all of them, and no error, if it saw the end;
      all of them and then that very error if it saw one. */
  lemma InOrder(s: Script, depth: nat, acts: seq<Act>)
    ensures var w := Run(s, depth, acts);
            && |w.queue| <= depth
            && w.taken <= s.chunks
            && (w.consumer == Out(SawEnd) ==> w.taken == s.chunks && s.failure == None)
            && (forall e :: w.consumer == Out(SawError(e)) ==> w.taken == s.chunks && s.failure == Some(e))
            && (w.consumer.Out? ==> w.reader == Gone)
  {
    RunKeeps(s, depth, acts);
    hide Run;
  }

  // ----- windows close -----

  /** How far a window is from the end. */
  function Left(s: Script, w: Window): int {
    8 * (|s.chunks| - w.next) + 3 * |w.queue| + ReaderLeft(w.reader) + ConsumerLeft(w.consumer)
  }

  function ReaderLeft(r: Reader): nat {
    match r
    case Gone => 0
    case Offering(Nothing, clear) => if clear then 4 else 5
    case Offering(Oops(_), clear) => if clear then 9 else 10
    case Reading => 11
    case Offering(Piece(_), clear) => if clear then 15 else 16
  }

  function ConsumerLeft(c: Consumer): nat {
    match c
    case Out(_) => 0
    case Draining(_) => 2
    case Leaving(_) => 3
    case Waiting => 4
    case Working => 5
  }

  /** Every step that changes anything brings the window nearer its end, but for a reader
      that finds the queue full and is to look and try again. */
  lemma EveryStepCounts(s: Script, depth: nat, w: Window, act: Act)
    requires Invariant(s, depth, w) && Step(s, depth, w, act) != w
    requires act == Put ==> |w.queue| < depth
    ensures 0 <= Left(s, Step(s, depth, w, act)) < Left(s, w)
  {
    hide Items, Lined, Heard;
  }

  /** Until the consumer is out, some thread has a step that brings the end nearer: no
      interleaving deadlocks, and none is past closing. */
  lemma NeverStuck(s: Script, depth: nat, w: Window) returns (act: Act)
    requires Invariant(s, depth, w) && depth > 0 && !w.consumer.Out?
    ensures Step(s, depth, w, act) != w && (act == Put ==> |w.queue| < depth)
  {
    hide Items;
    match w.consumer
    case Working => act := Work;
    case Leaving(_) => act := RaiseStop;
    case Waiting =>
      if w.queue == [] && w.reader == Gone { StillToTake(s, depth, w); }
      act := if w.queue != [] then Get else ReaderStep(w.reader);
    case Draining(_) =>
      act := if w.queue != [] then Discard else if w.reader == Gone then Join else ReaderStep(w.reader);
  }

  function ReaderStep(r: Reader): Act {
    match r
    case Reading => Fill
    case Offering(_, clear) => if clear then Put else Look
    case Gone => Join
  }

  /** From wherever a run is, some continuation ends it. */
  lemma {:induction false} CanEnd(s: Script, depth: nat, acts: seq<Act>) returns (more: seq<Act>)
    requires depth > 0
    ensures Run(s, depth, acts + more).consumer.Out?
    decreases Left(s, Run(s, depth, acts))
  {
    hide Run, Step, Invariant, Left;
    RunKeeps(s, depth, acts);
    var w := Run(s, depth, acts);
    if w.consumer.Out? {
      assert acts + [] == acts;
      more := [];
    } else {
      var act := NeverStuck(s, depth, w);
      EveryStepCounts(s, depth, w, act);
      RunNext(s, depth, acts, act);
      var rest := CanEnd(s, depth, acts + [act]);
      more := [act] + rest;
      assert acts + more == acts + [act] + rest;
    }
  }

  lemma RunNext(s: Script, depth: nat, acts: seq<Act>, act: Act)
    ensures Run(s, depth, acts + [act]) == Step(s, depth, Run(s, depth, acts), act)
  {
    assert (acts + [act])[..|acts|] == acts;
  }

  /** A waiting consumer's queue is never empty for good: the closing item comes last. */
  lemma StillToTake(s: Script, depth: nat, w: Window)
    requires Invariant(s, depth, w) && w.consumer == Waiting && w.reader == Gone
    ensures w.queue != []
  {
    assert |w.taken| <= |s.chunks| < |Items(s)|;
  }

  // ----- the pump -----

  /** Writes, digests and reports each piece in turn: the bytes written are the pieces
      joined, the digest is taken over the same bytes, and after each piece the report is the
      length so far. */
  method Pump(pieces: seq<bytes>, digesting: bool, reporting: bool)
    returns (written: bytes, digested: bytes, reports: seq<nat>, done: nat)
    ensures written == Concat(pieces) && done == |written|
    ensures digested == if digesting then written else []
    ensures !reporting ==> reports == []
    ensures reporting ==>
              |reports| == |pieces| && forall i | 0 <= i < |pieces| :: reports[i] == |Concat(pieces[..i + 1])|
  {
    written, digested, reports, done := [], [], [], 0;
    for n := 0 to |pieces|
      invariant written == Concat(pieces[..n]) && done == |written|
      invariant digested == if digesting then written else []
      invariant !reporting ==> reports == []
      invariant reporting ==> |reports| == n && forall i | 0 <= i < n :: reports[i] == |Concat(pieces[..i + 1])|
    {
      assert pieces[..n + 1][..n] == pieces[..n];
      written := written + pieces[n];
      if digesting { digested := digested + pieces[n]; }
      done := done + |pieces[n]|;
      if reporting { reports := reports + [done]; }
    }
    assert pieces[..|pieces|] == pieces;
  }

  /** The pieces the pump works on, and how its loop ends, when it reads and writes in turn. */
  function InTurn(s: Script): (seq<bytes>, Reason) {
    (s.chunks, if s.failure == None then SawEnd else SawError(s.failure.value))
  }

  /** Unless its own work fails, the pump gets the same pieces and ends the same way through
      a window of any depth and under any interleaving as it does in turn; so, by what `Pump`
      makes of its pieces, it writes, digests and reports the same. */
  lemma SameAtAnyDepth(s: Script, depth: nat, acts: seq<Act>)
    requires Run(s, depth, acts).consumer.Out? && Run(s, depth, acts).consumer.why != GaveUp
    ensures var w := Run(s, depth, acts); (w.taken, w.consumer.why) == InTurn(s)
  {
    RunKeeps(s, depth, acts);
    hide Run;
  }
}
