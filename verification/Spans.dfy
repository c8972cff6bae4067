/** How a transfer is divided among connections (`copy/engine.py`: `_spread`, `_spans`). */
module Spans {
  import opened Octets

  datatype Span = Span(offset: nat, length: nat)

  /** Division by no workers and a step of zero are the exceptions the source lets out. */
  datatype Refusal = NoWorkers | NothingToDivide

  /** The spans from `offset` on, `step` bytes each and a shorter last one. */
  function SpansFrom(offset: nat, size: nat, step: nat): seq<Span>
    requires step > 0
    decreases size - offset
  {
    if offset >= size then []
    else [Span(offset, if step < size - offset then step else size - offset)] + SpansFrom(offset + step, size, step)
  }

  function SpansOf(size: nat, workers: nat): Result<seq<Span>, Refusal> {
    if workers == 0 then Err(NoWorkers)
    else if CeilDiv(size, workers) == 0 then Err(NothingToDivide)
    else Ok(SpansFrom(0, size, CeilDiv(size, workers)))
  }

  /** Non-empty pieces, each beginning where the one before ends, from `lo` to `hi`. */
  predicate Covers(spans: seq<Span>, lo: nat, hi: nat) {
    if spans == [] then lo == hi
    else spans[0].offset == lo && spans[0].length > 0 && Covers(spans[1..], lo + spans[0].length, hi)
  }

  lemma {:induction false} SpansFromCovers(offset: nat, size: nat, step: nat)
    requires step > 0 && offset <= size
    ensures Covers(SpansFrom(offset, size, step), offset, size)
    ensures size - offset <= |SpansFrom(offset, size, step)| * step < size - offset + step
    ensures forall i | 0 <= i < |SpansFrom(offset, size, step)| - 1 :: SpansFrom(offset, size, step)[i].length == step
    decreases size - offset
  {
    var spans := SpansFrom(offset, size, step);
    if offset < size {
      if offset + step <= size {
        SpansFromCovers(offset + step, size, step);
        var rest := SpansFrom(offset + step, size, step);
        assert spans[1..] == rest;
        assert |spans| * step == |rest| * step + step;
      } else {
        assert SpansFrom(offset + step, size, step) == [];
        assert spans == [Span(offset, size - offset)];
      }
    }
  }

  lemma CeilDivBounds(size: nat, workers: nat)
    requires workers > 0
    ensures size <= workers * CeilDiv(size, workers) < size + workers
  {
    var q, r := (-(size as int)) / workers, (-(size as int)) % workers;
    assert -(size as int) == workers * q + r;
  }

  /** For every size and number of workers, the pieces partition [0, size) in order, there
      are at most `workers` of them, and none is empty; the one refusal of a positive number
      of workers is a size of zero. */
  lemma SpansPartition(size: nat, workers: nat)
    ensures SpansOf(size, workers).Ok? <==> size > 0 && workers > 0
    ensures SpansOf(size, workers).Ok? ==>
              Covers(SpansOf(size, workers).value, 0, size) && 0 < |SpansOf(size, workers).value| <= workers
  {
    if workers > 0 {
      CeilDivBounds(size, workers);
      var step := CeilDiv(size, workers);
      if size > 0 {
        Fewer(0, step, workers);
        SpansFromCovers(0, size, step);
        Fewer(|SpansFrom(0, size, step)|, workers + 1, step);
      } else {
        Fewer(step, 1, workers);
      }
    }
  }

  lemma Scale(a: nat, b: nat, k: nat)
    requires a <= b
    ensures a * k <= b * k
  {
  }

  lemma Fewer(a: nat, b: nat, k: nat)
    requires a * k < b * k
    ensures a < b
  {
    if a >= b { Scale(b, a, k); }
  }

  /** As many pieces as workers come out exactly when all but one of them, at the rounded-up
      step, do not already cover the size. */
  lemma SpanCountIff(size: nat, workers: nat)
    requires SpansOf(size, workers).Ok?
    ensures |SpansOf(size, workers).value| == workers <==> (workers - 1) * CeilDiv(size, workers) < size
  {
    SpansPartition(size, workers);
    var step := CeilDiv(size, workers);
    SpansFromCovers(0, size, step);
    var count := |SpansFrom(0, size, step)|;
    if (workers - 1) * step < size {
      Fewer(workers - 1, count, step);
    } else {
      Fewer(count, workers, step);
    }
  }

  /** Five bytes over four workers: three pieces. */
  lemma FewerSpansThanWorkers()
    ensures SpansOf(5, 4) == Ok([Span(0, 2), Span(2, 2), Span(4, 1)])
  {
    assert CeilDiv(5, 4) == 2;
    assert SpansFrom(6, 5, 2) == [];
    assert SpansFrom(4, 5, 2) == [Span(4, 1)] + SpansFrom(6, 5, 2);
    assert SpansFrom(2, 5, 2) == [Span(2, 2)] + SpansFrom(4, 5, 2);
    assert SpansFrom(0, 5, 2) == [Span(0, 2)] + SpansFrom(2, 5, 2);
    assert SpansFrom(0, 5, 2) == [Span(0, 2), Span(2, 2), Span(4, 1)];
  }

  /** How a URL is reached, as far as spans care. */
  datatype Scheme = Local | Root | Http | Elsewhere

  /** The target is written at an offset, the source read at one. */
  predicate Divisible(source: Scheme, target: Scheme) {
    (target == Local || target == Root) && source != Elsewhere
  }

  /** How many workers a transfer is spread over, if it is: both ends are URLs (not streams
      already open) that spans can be moved between, and the source says how long it is. */
  function Spread(source: Option<Scheme>, target: Option<Scheme>, probed: Option<nat>, chunk: nat, parallel: nat)
    : (workers: Option<nat>)
    requires chunk > 0
    ensures workers.Some? ==> 1 < workers.value <= parallel && probed.Some? && SpansOf(probed.value, workers.value).Ok?
    ensures workers.Some? <==>
              source.Some? && target.Some? && Divisible(source.value, target.value)
              && probed.Some? && 2 * chunk <= probed.value && parallel >= 2
  {
    if source == None || target == None || !Divisible(source.value, target.value) || probed == None then None
    else
      var most := Min(parallel, probed.value / chunk);
      WholeChunks(probed.value, chunk);
      if most > 1 then
        SpansPartition(probed.value, most);
        Some(most)
      else None
  }

  lemma WholeChunks(size: nat, chunk: nat)
    requires chunk > 0
    ensures size / chunk > 1 <==> 2 * chunk <= size
  {
    assert size == chunk * (size / chunk) + size % chunk;
    if size / chunk > 1 { Scale(2, size / chunk, chunk); }
    if size / chunk <= 1 { Scale(size / chunk, 1, chunk); }
  }

  lemma LastSpan(offset: nat, size: nat, step: nat)
    requires step > 0 && offset < size
    ensures var spans := SpansFrom(offset, size, step);
            spans != [] && spans[|spans| - 1].length == if (size - offset) % step == 0 then step
              else (size - offset) % step
    decreases size - offset
  {
    if offset + step < size {
      LastSpan(offset + step, size, step);
      assert (size - offset) % step == (size - offset - step) % step by { ModLess(size - offset, step); }
      assert SpansFrom(offset, size, step)[1..] == SpansFrom(offset + step, size, step);
    } else {
      assert SpansFrom(offset + step, size, step) == [];
      if offset + step > size { SmallMod(size - offset, step); }
    }
  }

  lemma SmallMod(n: nat, step: nat)
    requires n < step
    ensures n % step == n
  {
  }

  lemma ModLess(n: nat, step: nat)
    requires 0 < step <= n
    ensures n % step == (n - step) % step
  {
    var q, r := (n - step) / step, (n - step) % step;
    assert n - step == step * q + r;
    assert n == step * (q + 1) + r;
    ModUnique(n, step, q + 1, r);
  }

  lemma ModUnique(n: nat, step: nat, q: nat, r: nat)
    requires 0 <= r < step && n == step * q + r
    ensures n % step == r
  {
    var d := n / step - q;
    assert n == step * (n / step) + n % step;
    assert step * d == r - n % step;
    if d >= 1 { Scale(1, d, step); }
    if d <= -1 { Scale(1, -d, step); }
  }

  /** Every span but the last holds a whole chunk; the last does exactly when the size
      leaves no remainder shorter than a chunk. */
  lemma WholeChunksIff(size: nat, chunk: nat, workers: nat)
    requires chunk > 0 && 0 < workers <= size / chunk
    ensures var step := CeilDiv(size, workers);
            step > 0 && SpansOf(size, workers).Ok? &&
            ((forall i | 0 <= i < |SpansOf(size, workers).value| :: SpansOf(size, workers).value[i].length >= chunk)
             <==> size % step == 0 || size % step >= chunk)
  {
    var step := CeilDiv(size, workers);
    SpansPartition(size, workers);
    SpansFromCovers(0, size, step);
    LastSpan(0, size, step);
    StepHoldsChunk(size, chunk, workers);
    var spans := SpansFrom(0, size, step);
    assert forall i | 0 <= i < |spans| :: spans[i].length == step || i == |spans| - 1;
  }

  lemma StepHoldsChunk(size: nat, chunk: nat, workers: nat)
    requires chunk > 0 && 0 < workers <= size / chunk
    ensures CeilDiv(size, workers) >= chunk
  {
    var step := CeilDiv(size, workers);
    CeilDivBounds(size, workers);
    assert size >= chunk * (size / chunk);
    Scale(workers, size / chunk, chunk);
    Fewer(chunk, step + 1, workers);
  }

  /** Ten bytes in chunks of two over four connections: the last span is a single byte, so
      not every worker gets a whole chunk. */
  lemma LastSpanMayBeShort()
    ensures Spread(Some(Root), Some(Local), Some(10), 2, 4) == Some(4)
    ensures SpansOf(10, 4) == Ok([Span(0, 3), Span(3, 3), Span(6, 3), Span(9, 1)])
  {
    assert CeilDiv(10, 4) == 3;
    assert SpansFrom(12, 10, 3) == [];
    assert SpansFrom(9, 10, 3) == [Span(9, 1)] + SpansFrom(12, 10, 3);
    assert SpansFrom(6, 10, 3) == [Span(6, 3)] + SpansFrom(9, 10, 3);
    assert SpansFrom(0, 10, 3) == [Span(0, 3)] + SpansFrom(3, 10, 3);
    assert SpansFrom(3, 10, 3) == [Span(3, 3)] + SpansFrom(6, 10, 3);
    assert SpansFrom(0, 10, 3) == [Span(0, 3), Span(3, 3), Span(6, 3), Span(9, 1)];
  }
}
