/** Moving a file as several spans at once (`copy/engine.py`: `_in_parallel`). Each worker
    reads, writes and reports in its own time; a run is any interleaving of their steps. */
module ParallelCopy {
  import opened Octets
  import opened Spans

  /** Where a worker is in its loop: about to test and read, holding what it read, having
      written that many bytes without yet reporting them, finished, or out by an exception. */
  datatype Stage = Idle | Holding(data: bytes) | Unreported(count: nat) | Finished | Raised

  datatype Worker = Worker(span: Span, moved: nat, stage: Stage)

  /** The target file, the workers, and every total reported so far. */
  datatype Copy = Copy(target: bytes, workers: seq<Worker>, reports: seq<nat>)

  /** One step of one worker; a read brings at most `want` bytes, fewer if fewer are left. A
      worker may raise anywhere: a failing write has written any part of its data, and a
      failing report was made, since the total is raised before the callback is called. */
  datatype Act =
    | Read(worker: nat, want: nat)
    | Write(worker: nat)
    | Report(worker: nat)
    | Stop(worker: nat)
    | Fail(worker: nat, applied: nat)

  function Reported(c: Copy): nat { if c.reports == [] then 0 else c.reports[|c.reports| - 1] }

  function Place(c: Copy, i: nat, w: Worker): Copy
    requires i < |c.workers|
  {
    c.(workers := c.workers[i := w])
  }

  /** A step; one that is not this worker's next to take changes nothing. A read comes back
      empty only at the end of the source, and then the worker stops early. */
  function Step(source: bytes, chunk: nat, c: Copy, act: Act): Copy {
    if act.worker >= |c.workers| then c
    else
      var w := c.workers[act.worker];
      var at := w.span.offset + w.moved;
      match act
      case Read(i, want) =>
        if w.stage != Idle || w.moved >= w.span.length then c
        else if at >= |source| then Place(c, i, w.(stage := Finished))
        else
          var count := Min(Min(want, chunk), Min(w.span.length - w.moved, |source| - at));
          if count <= 0 then c else Place(c, i, w.(stage := Holding(source[at..at + count])))
      case Write(i) =>
        if !w.stage.Holding? || w.stage.data == [] then c
        else Place(c.(target := Splice(c.target, at, w.stage.data)), i,
                   w.(moved := w.moved + |w.stage.data|, stage := Unreported(|w.stage.data|)))
      case Report(i) =>
        if !w.stage.Unreported? then c
        else Place(c.(reports := c.reports + [Reported(c) + w.stage.count]), i, w.(stage := Idle))
      case Stop(i) =>
        if w.stage != Idle || w.moved < w.span.length then c else Place(c, i, w.(stage := Finished))
      case Fail(i, applied) =>
        (match w.stage
         case Idle => Place(c, i, w.(stage := Raised))
         case Holding(data) =>
           var part := data[..Min(applied, |data|)];
           Place(if part == [] then c else c.(target := Splice(c.target, at, part)), i, w.(stage := Raised))
         case Unreported(count) =>
           Place(c.(reports := c.reports + [Reported(c) + count]), i, w.(stage := Raised))
         case _ => c)
  }

  /** A run of the workers on a new, empty target. */
  function Run(source: bytes, chunk: nat, spans: seq<Span>, acts: seq<Act>): Copy {
    if acts == [] then Copy([], seq(|spans|, i requires 0 <= i < |spans| => Worker(spans[i], 0, Idle)), [])
    else Step(source, chunk, Run(source, chunk, spans, acts[..|acts| - 1]), acts[|acts| - 1])
  }

  predicate AllDone(c: Copy) {
    forall i | 0 <= i < |c.workers| :: c.workers[i].stage == Finished || c.workers[i].stage.Raised?
  }

  predicate AllFinished(c: Copy) { forall i | 0 <= i < |c.workers| :: c.workers[i].stage == Finished }

  function Total(workers: seq<Worker>): nat {
    if workers == [] then 0 else workers[0].moved + Total(workers[1..])
  }

  /** The result of the call once every worker is done: their bytes added up, or None where
      the exception of one of them gets out. */
  function Answer(c: Copy): Option<nat> { if AllFinished(c) then Some(Total(c.workers)) else None }

  // ----- what every interleaving keeps -----

  /** One worker: within its span and the source, holding the bytes that come next. */
  ghost predicate Sane(w: Worker, source: bytes) {
    var at := w.span.offset + w.moved;
    && w.moved <= w.span.length
    && (w.moved > 0 ==> at <= |source|)
    && (w.stage.Holding? ==> w.stage.data != [] && w.moved + |w.stage.data| <= w.span.length
                             && at + |w.stage.data| <= |source| && w.stage.data == source[at..at + |w.stage.data|])
    && (w.stage.Unreported? ==> 0 < w.stage.count <= w.moved)
    && (w.stage == Finished ==> w.moved == w.span.length || at >= |source|)
  }

  /** What a worker moved is in the target. */
  ghost predicate Landed(w: Worker, source: bytes, target: bytes) {
    var end := w.span.offset + w.moved;
    w.moved > 0 ==>
      end <= |target| && end <= |source| && forall j | w.span.offset <= j < end :: target[j] == source[j]
  }

  function Behind(w: Worker): nat { if w.stage.Unreported? then w.stage.count else 0 }

  function TotalBehind(workers: seq<Worker>): nat {
    if workers == [] then 0 else Behind(workers[0]) + TotalBehind(workers[1..])
  }

  predicate Apart(a: Span, b: Span) { a.offset + a.length <= b.offset || b.offset + b.length <= a.offset }

  ghost predicate Disjoint(workers: seq<Worker>) {
    forall i, j | 0 <= i < j < |workers| :: Apart(workers[i].span, workers[j].span)
  }

  ghost predicate Rising(reports: seq<nat>) {
    && (forall i | 0 <= i < |reports| :: reports[i] > 0)
    && (forall i, j | 0 <= i < j < |reports| :: reports[i] < reports[j])
  }

  ghost predicate Within(c: Copy, source: bytes, size: nat) {
    && |c.target| <= size && |c.target| <= |source|
    && (forall i | 0 <= i < |c.workers| :: c.workers[i].span.offset + c.workers[i].span.length <= size)
  }

  ghost predicate Invariant(c: Copy, source: bytes, size: nat) {
    && Within(c, source, size)
    && Disjoint(c.workers)
    && (forall i | 0 <= i < |c.workers| :: Sane(c.workers[i], source) && Landed(c.workers[i], source, c.target))
    && Rising(c.reports)
    && Reported(c) + TotalBehind(c.workers) == Total(c.workers)
  }

  lemma {:induction false} TotalUpdate(workers: seq<Worker>, i: nat, w: Worker)
    requires i < |workers|
    ensures Total(workers[i := w]) == Total(workers) - workers[i].moved + w.moved
    ensures TotalBehind(workers[i := w]) == TotalBehind(workers) - Behind(workers[i]) + Behind(w)
    decreases i
  {
    hide Behind;
    if i == 0 {
      assert workers[0 := w][1..] == workers[1..];
    } else {
      TotalUpdate(workers[1..], i - 1, w);
      assert workers[i := w][1..] == workers[1..][i - 1 := w];
    }
  }

  /** Replacing one worker, its span kept, and leaving the rest of the copy alone. */
  lemma PlaceKeeps(c: Copy, source: bytes, size: nat, i: nat, w: Worker)
    requires Invariant(c, source, size) && i < |c.workers|
    requires w.span == c.workers[i].span && w.moved == c.workers[i].moved && Behind(w) == Behind(c.workers[i])
        && Sane(w, source)
    ensures Invariant(Place(c, i, w), source, size)
  {
    TotalUpdate(c.workers, i, w);
    hide Total, TotalBehind, Sane, Behind, Rising;
    var d := Place(c, i, w);
    assert Landed(w, source, c.target) by { assert Landed(c.workers[i], source, c.target); }
    assert forall k | 0 <= k < |d.workers| :: d.workers[k].span == c.workers[k].span;
    hide Landed;
  }

  /** A write, or part of one, leaves every other worker's bytes where they are. */
  lemma WriteLands(c: Copy, source: bytes, size: nat, i: nat, part: bytes)
    requires Invariant(c, source, size) && i < |c.workers| && c.workers[i].stage.Holding?
    requires part != [] && part <= c.workers[i].stage.data
    ensures var w := c.workers[i];
            var target := Splice(c.target, w.span.offset + w.moved, part);
            && |target| <= size && |target| <= |source|
            && Landed(w, source, target)
            && Landed(w.(moved := w.moved + |part|), source, target)
            && (forall k | 0 <= k < |c.workers| && k != i :: Landed(c.workers[k], source, target))
  {
    hide Total, TotalBehind, Rising, Reported;
    var w := c.workers[i];
    var at := w.span.offset + w.moved;
    assert Sane(w, source) && Landed(w, source, c.target);
    assert part == source[at..at + |part|];
    var target := Splice(c.target, at, part);
    SpliceIs(c.target, at, part);
    forall j | w.span.offset <= j < at + |part|
      ensures target[j] == source[j]
    {
      if j >= at {
        assert target[j] == target[at..at + |part|][j - at] == part[j - at] == source[at..at + |part|][j - at];
      }
    }
    forall k | 0 <= k < |c.workers| && k != i
      ensures Landed(c.workers[k], source, target)
    {
      OthersStay(c, source, size, i, k, part);
    }
  }

  lemma OthersStay(c: Copy, source: bytes, size: nat, i: nat, k: nat, part: bytes)
    requires Invariant(c, source, size) && i < |c.workers| && k < |c.workers| && k != i
    requires c.workers[i].stage.Holding? && part != [] && part <= c.workers[i].stage.data
    ensures Landed(c.workers[k], source, Splice(c.target, c.workers[i].span.offset + c.workers[i].moved, part))
  {
    hide Total, TotalBehind, Rising, Reported;
    var v, w := c.workers[k], c.workers[i];
    var at := w.span.offset + w.moved;
    SpliceIs(c.target, at, part);
    assert Landed(v, source, c.target) && Sane(v, source) && Sane(w, source);
    assert Apart(v.span, w.span) by {
      assert Apart(c.workers[Min(i, k)].span, c.workers[if i < k then k else i].span);
    }
    forall j | v.span.offset <= j < v.span.offset + v.moved
      ensures Splice(c.target, at, part)[j] == source[j]
    {
      assert !(at <= j < at + |part|);
    }
  }

  lemma WriteKeeps(c: Copy, source: bytes, size: nat, i: nat)
    requires Invariant(c, source, size) && i < |c.workers| && c.workers[i].stage.Holding?
    ensures var w := c.workers[i];
            Invariant(Place(c.(target := Splice(c.target, w.span.offset + w.moved, w.stage.data)), i,
                            w.(moved := w.moved + |w.stage.data|, stage := Unreported(|w.stage.data|))), source, size)
  {
    var w := c.workers[i];
    var v := w.(moved := w.moved + |w.stage.data|, stage := Unreported(|w.stage.data|));
    assert Sane(w, source);
    assert Sane(v, source);
    WriteLands(c, source, size, i, w.stage.data);
    TotalUpdate(c.workers, i, v);
    var target := Splice(c.target, w.span.offset + w.moved, w.stage.data);
    hide Splice, Total, TotalBehind, Rising, Sane;
    var d := Place(c.(target := target), i, v);
    assert Landed(v, source, target) by { assert Landed(w.(moved := v.moved), source, target); }
    hide Landed;
    assert forall k | 0 <= k < |d.workers| :: d.workers[k].span == c.workers[k].span;
    assert Reported(d) == Reported(c);
  }

  /** A write that fails part-way. */
  lemma FailKeeps(c: Copy, source: bytes, size: nat, i: nat, part: bytes)
    requires Invariant(c, source, size) && i < |c.workers| && c.workers[i].stage.Holding?
    requires part != [] && part <= c.workers[i].stage.data
    ensures var w := c.workers[i];
            Invariant(Place(c.(target := Splice(c.target, w.span.offset + w.moved, part)), i, w.(stage := Raised)),
                      source, size)
  {
    var w := c.workers[i];
    var v := w.(stage := Raised);
    assert Sane(w, source);
    assert Sane(v, source);
    WriteLands(c, source, size, i, part);
    TotalUpdate(c.workers, i, v);
    var target := Splice(c.target, w.span.offset + w.moved, part);
    hide Splice, Total, TotalBehind, Rising, Sane;
    var d := Place(c.(target := target), i, v);
    assert Landed(v, source, target) by { assert Landed(w, source, target); }
    hide Landed;
    assert forall k | 0 <= k < |d.workers| :: d.workers[k].span == c.workers[k].span;
    assert Reported(d) == Reported(c);
  }

  /** A report, the callback returning or raising. */
  lemma ReportKeeps(c: Copy, source: bytes, size: nat, i: nat, next: Stage)
    requires Invariant(c, source, size) && i < |c.workers| && c.workers[i].stage.Unreported?
    requires next == Idle || next == Raised
    ensures var w := c.workers[i];
            Invariant(Place(c.(reports := c.reports + [Reported(c) + w.stage.count]), i, w.(stage := next)), source,
              size)
  {
    var w := c.workers[i];
    var v := w.(stage := next);
    assert Sane(w, source) && Sane(v, source);
    TotalUpdate(c.workers, i, v);
    RisingMore(c, w.stage.count);
    assert Landed(v, source, c.target) by { assert Landed(w, source, c.target); }
    hide Total, TotalBehind, Rising, Sane, Landed;
    var d := Place(c.(reports := c.reports + [Reported(c) + w.stage.count]), i, v);
    assert forall k | 0 <= k < |d.workers| :: d.workers[k].span == c.workers[k].span;
  }

  lemma RisingMore(c: Copy, count: nat)
    requires Rising(c.reports) && count > 0
    ensures Rising(c.reports + [Reported(c) + count])
  {
    var more := c.reports + [Reported(c) + count];
    forall i, j | 0 <= i < j < |more|
      ensures more[i] < more[j]
    {
      if j == |c.reports| && i < |c.reports| - 1 { assert c.reports[i] < c.reports[|c.reports| - 1]; }
    }
  }

  lemma StepKeeps(source: bytes, chunk: nat, size: nat, c: Copy, act: Act)
    requires Invariant(c, source, size)
    ensures Invariant(Step(source, chunk, c, act), source, size)
    ensures |Step(source, chunk, c, act).workers| == |c.workers|
    ensures forall k | 0 <= k < |c.workers| :: Step(source, chunk, c, act).workers[k].span == c.workers[k].span
  {
    hide Splice, Total, TotalBehind, Rising, Landed, Reported, Disjoint;
    if act.worker < |c.workers| {
      var i := act.worker;
      var w := c.workers[i];
      assert Sane(w, source);
      var d := Step(source, chunk, c, act);
      if d != c {
        match act
        case Read(_, _) => PlaceKeeps(c, source, size, i, d.workers[i]);
        case Write(_) => WriteKeeps(c, source, size, i);
        case Report(_) => ReportKeeps(c, source, size, i, Idle);
        case Stop(_) => PlaceKeeps(c, source, size, i, d.workers[i]);
        case Fail(_, applied) =>
          if w.stage.Holding? && Min(applied, |w.stage.data|) > 0 {
            FailKeeps(c, source, size, i, w.stage.data[..Min(applied, |w.stage.data|)]);
          } else if w.stage.Unreported? {
            ReportKeeps(c, source, size, i, Raised);
          } else {
            PlaceKeeps(c, source, size, i, d.workers[i]);
          }
      }
    }
  }

  // ----- runs -----

  lemma {:induction false} CoversApart(spans: seq<Span>, lo: nat, hi: nat)
    requires Spans.Covers(spans, lo, hi)
    ensures lo <= hi
    ensures forall i | 0 <= i < |spans| :: lo <= spans[i].offset && spans[i].offset + spans[i].length <= hi
    ensures forall i, j | 0 <= i < j < |spans| :: Apart(spans[i], spans[j])
    decreases |spans|
  {
    if spans != [] {
      var mid := lo + spans[0].length;
      CoversApart(spans[1..], mid, hi);
      assert forall i | 0 < i < |spans| :: spans[i] == spans[1..][i - 1];
    }
  }

  lemma {:induction false} TotalNone(workers: seq<Worker>)
    requires forall i | 0 <= i < |workers| :: workers[i].moved == 0 && workers[i].stage == Idle
    ensures Total(workers) == 0 && TotalBehind(workers) == 0
    decreases |workers|
  {
    if workers != [] { TotalNone(workers[1..]); }
  }

  /** Every interleaving keeps the invariant. */
  lemma {:induction false} RunKeeps(source: bytes, chunk: nat, spans: seq<Span>, size: nat, acts: seq<Act>)
    requires Spans.Covers(spans, 0, size)
    ensures var c := Run(source, chunk, spans, acts);
            Invariant(c, source, size) && |c.workers| == |spans|
              && forall k | 0 <= k < |spans| :: c.workers[k].span == spans[k]
    decreases |acts|
  {
    hide Step;
    if acts == [] {
      CoversApart(spans, 0, size);
      TotalNone(Run(source, chunk, spans, acts).workers);
    } else {
      RunKeeps(source, chunk, spans, size, acts[..|acts| - 1]);
      StepKeeps(source, chunk, size, Run(source, chunk, spans, acts[..|acts| - 1]), acts[|acts| - 1]);
      hide Invariant;
    }
  }

  /** What a worker that finished has moved: its span, as far as the source goes. */
  function Due(s: Span, n: nat): nat {
    if s.offset >= n then 0 else Min(s.length, n - s.offset)
  }

  lemma {:induction false} TotalDue(workers: seq<Worker>, spans: seq<Span>, lo: nat, hi: nat, n: nat)
    requires |workers| == |spans| && Spans.Covers(spans, lo, hi)
    requires forall i | 0 <= i < |workers| :: workers[i].moved == Due(spans[i], n)
    ensures lo <= hi && Total(workers) == if n <= lo then 0 else Min(n, hi) - lo
    decreases |workers|
  {
    if workers != [] { TotalDue(workers[1..], spans[1..], lo + spans[0].length, hi, n); }
  }

  /** Every offset below `hi` is in some span. */
  lemma {:induction false} CoversFind(spans: seq<Span>, lo: nat, hi: nat, j: nat) returns (i: nat)
    requires Spans.Covers(spans, lo, hi) && lo <= j < hi
    ensures i < |spans| && spans[i].offset <= j < spans[i].offset + spans[i].length
    decreases |spans|
  {
    if j < lo + spans[0].length {
      i := 0;
    } else {
      var k := CoversFind(spans[1..], lo + spans[0].length, hi, j);
      i := k + 1;
    }
  }

  /** What a worker that finished was to move is in the target. */
  lemma {:induction false} FinishedLands(source: bytes, c: Copy, size: nat, i: nat, j: nat)
    requires Invariant(c, source, size) && i < |c.workers| && c.workers[i].stage == Finished
    requires c.workers[i].span.offset <= j < c.workers[i].span.offset + c.workers[i].span.length && j < |source|
    ensures j < |c.target| && c.target[j] == source[j]
  {
    hide Total, TotalBehind, Rising, Reported, Disjoint;
    var w := c.workers[i];
    assert Sane(w, source) && Landed(w, source, c.target);
  }

  lemma {:induction false} NoneBehind(workers: seq<Worker>)
    requires forall i | 0 <= i < |workers| :: !workers[i].stage.Unreported?
    ensures TotalBehind(workers) == 0
    decreases |workers|
  {
    if workers != [] { NoneBehind(workers[1..]); }
  }

  /** For every interleaving, once all workers are done: if none raised, the target is the
      source, as far as it goes and at most the size asked for, the call returns exactly that
      many bytes, and the totals reported rose, ending there; if one raised, the call raises,
      every span whose worker finished is nevertheless in the target, and the last total is
      that of the bytes whose write returned. */
  lemma {:induction false} CopiesSource(source: bytes, chunk: nat, size: nat, workers: nat, acts: seq<Act>)
    requires SpansOf(size, workers).Ok? && AllDone(Run(source, chunk, SpansOf(size, workers).value, acts))
    ensures var c := Run(source, chunk, SpansOf(size, workers).value, acts);
            var n := Min(size, |source|);
            && Rising(c.reports) && Reported(c) == Total(c.workers)
            && (Answer(c) == None <==> exists i | 0 <= i < |c.workers| :: c.workers[i].stage.Raised?)
            && (Answer(c) != None ==> Answer(c) == Some(n) && c.target == source[..n] && Reported(c) == n)
            && (forall i, j | 0 <= i < |c.workers| && c.workers[i].stage == Finished && j < |source|
                  && c.workers[i].span.offset <= j < c.workers[i].span.offset + c.workers[i].span.length ::
                  j < |c.target| && c.target[j] == source[j])
  {
    SpansPartition(size, workers);
    var spans := SpansOf(size, workers).value;
    hide SpansOf, Run;
    var c := Run(source, chunk, spans, acts);
    RunKeeps(source, chunk, spans, size, acts);
    if AllFinished(c) { CopiesHere(source, spans, size, c); }
    NoneBehind(c.workers);
    hide Total, Reported, Sane, Landed, TotalBehind, Disjoint;
    forall i, j | 0 <= i < |c.workers| && c.workers[i].stage == Finished && j < |source|
                  && c.workers[i].span.offset <= j < c.workers[i].span.offset + c.workers[i].span.length
      ensures j < |c.target| && c.target[j] == source[j]
    {
      FinishedLands(source, c, size, i, j);
    }
  }

  lemma {:induction false} CopiesHere(source: bytes, spans: seq<Span>, size: nat, c: Copy)
    requires Spans.Covers(spans, 0, size) && Invariant(c, source, size) && AllFinished(c)
    requires |c.workers| == |spans| && forall k | 0 <= k < |spans| :: c.workers[k].span == spans[k]
    ensures c.target == source[..Min(size, |source|)] && Total(c.workers) == Min(size, |source|)
    ensures Rising(c.reports) && Reported(c) == Min(size, |source|)
  {
    var n := Min(size, |source|);
    forall i | 0 <= i < |c.workers|
      ensures c.workers[i].moved == Due(spans[i], |source|)
    {
      assert Sane(c.workers[i], source) && c.workers[i].stage == Finished;
    }
    TotalDue(c.workers, spans, 0, size, |source|);
    NoneBehind(c.workers);
    hide Total, TotalBehind, Due, Rising, Reported;
    if n > 0 {
      var i := CoversFind(spans, 0, size, n - 1);
      FinishedLands(source, c, size, i, n - 1);
    }
    assert |c.target| == n;
    forall j | 0 <= j < n
      ensures c.target[j] == source[j]
    {
      var i := CoversFind(spans, 0, size, j);
      FinishedLands(source, c, size, i, j);
    }
  }

  /** While the copy runs, every total reported is at most the bytes in the target's spans. */
  lemma ReportsNeverAhead(source: bytes, chunk: nat, size: nat, workers: nat, acts: seq<Act>)
    requires SpansOf(size, workers).Ok?
    ensures var c := Run(source, chunk, SpansOf(size, workers).value, acts);
            Rising(c.reports) && Reported(c) <= Total(c.workers) && |c.target| <= Min(size, |source|)
  {
    SpansPartition(size, workers);
    RunKeeps(source, chunk, SpansOf(size, workers).value, size, acts);
    hide Run, SpansOf;
  }

  // ----- runs end -----

  /** How much one worker has left to do. */
  function Left(w: Worker): int {
    4 * (w.span.length - w.moved) +
    match w.stage
    case Idle => 2
    case Holding(_) => 1
    case Unreported(_) => 3
    case _ => 0
  }

  function AllLeft(workers: seq<Worker>): int {
    if workers == [] then 0 else Left(workers[0]) + AllLeft(workers[1..])
  }

  lemma {:induction false} LeftUpdate(workers: seq<Worker>, i: nat, w: Worker)
    requires i < |workers|
    ensures AllLeft(workers[i := w]) == AllLeft(workers) - Left(workers[i]) + Left(w)
    decreases i
  {
    hide Left;
    if i == 0 {
      assert workers[0 := w][1..] == workers[1..];
    } else {
      LeftUpdate(workers[1..], i - 1, w);
      assert workers[i := w][1..] == workers[1..][i - 1 := w];
    }
  }

  lemma {:induction false} LeftBounds(workers: seq<Worker>, source: bytes)
    requires forall i | 0 <= i < |workers| :: Sane(workers[i], source)
    ensures AllLeft(workers) >= 0
    decreases |workers|
  {
    if workers != [] {
      assert Sane(workers[0], source);
      LeftBounds(workers[1..], source);
    }
  }

  lemma StepPlaces(source: bytes, chunk: nat, c: Copy, act: Act)
    requires act.worker < |c.workers|
    ensures var d := Step(source, chunk, c, act);
            |d.workers| == |c.workers| && d.workers == c.workers[act.worker := d.workers[act.worker]]
  {
    hide Splice, Reported;
  }

  lemma StepStays(source: bytes, chunk: nat, c: Copy, act: Act)
    requires act.worker >= |c.workers|
    ensures Step(source, chunk, c, act) == c
  {
  }

  lemma WorkerFalls(source: bytes, chunk: nat, c: Copy, act: Act)
    requires act.worker < |c.workers| && Sane(c.workers[act.worker], source)
    requires Step(source, chunk, c, act) != c && |Step(source, chunk, c, act).workers| == |c.workers|
    ensures Left(Step(source, chunk, c, act).workers[act.worker]) < Left(c.workers[act.worker])
  {
    hide Splice, Reported;
  }

  /** Every step that changes anything leaves less to do, so no run goes on for ever. */
  lemma EveryStepCounts(source: bytes, chunk: nat, size: nat, c: Copy, act: Act)
    requires Invariant(c, source, size) && Step(source, chunk, c, act) != c
    ensures 0 <= AllLeft(Step(source, chunk, c, act).workers) < AllLeft(c.workers)
  {
    StepKeeps(source, chunk, size, c, act);
    hide Step, AllLeft, Left, Sane, Landed, Total, TotalBehind, Rising, Disjoint, Within;
    var d := Step(source, chunk, c, act);
    LeftBounds(d.workers, source);
    if act.worker >= |c.workers| { StepStays(source, chunk, c, act); }
    StepPlaces(source, chunk, c, act);
    WorkerFalls(source, chunk, c, act);
    LeftUpdate(c.workers, act.worker, d.workers[act.worker]);
  }

  /** A worker that is not done always has a step to take, short of raising. */
  lemma NeverStuck(source: bytes, chunk: nat, size: nat, c: Copy, i: nat) returns (act: Act)
    requires Invariant(c, source, size) && chunk > 0 && i < |c.workers|
    requires c.workers[i].stage != Finished && !c.workers[i].stage.Raised?
    ensures act.worker == i && !act.Fail? && Step(source, chunk, c, act).workers[i] != c.workers[i]
  {
    var w := c.workers[i];
    assert Sane(w, source);
    hide Total, TotalBehind, Rising, Landed, Splice;
    match w.stage
    case Idle =>
      act := if w.moved < w.span.length then Read(i, 1) else Stop(i);
    case Holding(_) => act := Write(i);
    case Unreported(_) => act := Report(i);
  }

  /** Some continuation finishes from wherever a run is, and without anyone raising anew. */
  lemma {:induction false} CanFinish(source: bytes, chunk: nat, size: nat, spans: seq<Span>, acts: seq<Act>)
    returns (more: seq<Act>)
    requires Spans.Covers(spans, 0, size) && chunk > 0
    ensures AllDone(Run(source, chunk, spans, acts + more)) && forall i | 0 <= i < |more| :: !more[i].Fail?
    decreases AllLeft(Run(source, chunk, spans, acts).workers)
  {
    hide Run, Step, Invariant, Spans.Covers, AllLeft;
    RunKeeps(source, chunk, spans, size, acts);
    var c := Run(source, chunk, spans, acts);
    if AllDone(c) {
      assert acts + [] == acts;
      more := [];
    } else {
      var i :| 0 <= i < |c.workers| && c.workers[i].stage != Finished && !c.workers[i].stage.Raised?;
      var act := NeverStuck(source, chunk, size, c, i);
      EveryStepCounts(source, chunk, size, c, act);
      RunNext(source, chunk, spans, acts, act);
      var rest := CanFinish(source, chunk, size, spans, acts + [act]);
      more := [act] + rest;
      assert acts + more == acts + [act] + rest;
    }
  }

  lemma RunNext(source: bytes, chunk: nat, spans: seq<Span>, acts: seq<Act>, act: Act)
    ensures Run(source, chunk, spans, acts + [act]) == Step(source, chunk, Run(source, chunk, spans, acts), act)
  {
    assert (acts + [act])[..|acts|] == acts;
  }
}
