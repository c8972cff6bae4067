/** Vector reads (`client/file.py`: `_batches`, `readv`, `_segment_for`; `parse_readv` of
    `proto/responses.py`): many ranges in few requests, and the answers put back in order. */
module VectorRead {
  import opened Octets
  import opened Frames

  const READV_MAX_CHUNKS := 1024
  const READV_MAX_BYTES := 0x20_0000
  const FHANDLE_LEN := 4

  datatype Range = Range(offset: int, length: nat)

  datatype Refusal = TooLarge | Malformed | LeftOut | Overlong

  // ----- batches -----

  function Sum(ranges: seq<Range>): nat {
    if ranges == [] then 0 else Sum(ranges[..|ranges| - 1]) + ranges[|ranges| - 1].length
  }

  /** A batch is non-empty and within the server's limits. */
  ghost predicate Fits(batch: seq<Range>) {
    0 < |batch| <= 1024 && Sum(batch) <= 2_097_152
  }

  /** Nothing of the next batch would have fitted into this one. */
  ghost predicate Full(batch: seq<Range>, next: seq<Range>) {
    next != [] && (|batch| >= 1024 || Sum(batch) + next[0].length > 2_097_152)
  }

  /** The batches of some ranges: in order, each within the limits and none smaller than it
      had to be. */
  ghost predicate Batched(batches: seq<seq<Range>>, ranges: seq<Range>) {
    && Concat(batches) == ranges
    && (forall i | 0 <= i < |batches| :: Fits(batches[i]))
    && (forall i | 0 <= i < |batches| - 1 :: Full(batches[i], batches[i + 1]))
  }

  predicate Small(ranges: seq<Range>) { forall i | 0 <= i < |ranges| :: ranges[i].length <= READV_MAX_BYTES }

  /** The batches yielded, and whether the ranges ran out before one too large to ask for:
      all of the ranges then, and otherwise what came before the batch that one would have
      joined. */
  method Batches(ranges: seq<Range>) returns (batches: seq<seq<Range>>, refused: bool)
    ensures refused <==> !Small(ranges)
    ensures !refused ==> Batched(batches, ranges)
    ensures refused ==> exists n: nat | n <= |ranges| :: Small(ranges[..n]) && Batched(batches, ranges[..n])
  {
    hide Fits, Full, Batched, Sum, Small;
    batches := [];
    var batch, total := [], 0;
    ghost var yielded := 0;
    BatchedNone();
    SlicesMeet(ranges, 0, 0);
    for i := 0 to |ranges|
      invariant yielded <= i && Small(ranges[..i])
      invariant Batched(batches, ranges[..yielded])
      invariant batch == ranges[yielded..i] && total == Sum(batch)
      invariant i > 0 ==> Fits(batch)
      invariant i == 0 ==> batches == [] && batch == []
      invariant batches != [] ==> Full(batches[|batches| - 1], batch)
    {
      var r := ranges[i];
      SmallUpto(ranges, yielded, i);
      if r.length > READV_MAX_BYTES { return batches, true; }
      if batch != [] && (|batch| >= READV_MAX_CHUNKS || total + r.length > READV_MAX_BYTES) {
        BatchedMore(batches, ranges[..yielded], batch);
        SlicesMeet(ranges, yielded, i);
        FullNow(batch, r);
        batches, yielded := batches + [batch], i;
        batch, total := [], 0;
        BatchedNone();
      } else if batches != [] {
        FullStays(batches[|batches| - 1], batch, r);
      }
      FitsMore(batch, r);
      SliceGrows(ranges, yielded, i);
      batch, total := batch + [r], total + r.length;
    }
    SlicesMeet(ranges, yielded, |ranges|);
    if batch != [] {
      BatchedMore(batches, ranges[..yielded], batch);
      batches := batches + [batch];
    }
    refused := false;
  }

  lemma SlicesMeet(ranges: seq<Range>, lo: nat, i: nat)
    requires lo <= i <= |ranges|
    ensures ranges[..lo] + ranges[lo..i] == ranges[..i] && ranges[i..i] == []
    ensures i == 0 ==> Small(ranges[..i]) && ranges[..i] == []
    ensures i == |ranges| ==> ranges[..i] == ranges
  {
  }

  lemma SliceGrows(ranges: seq<Range>, lo: nat, i: nat)
    requires lo <= i < |ranges|
    ensures ranges[lo..i + 1] == ranges[lo..i] + [ranges[i]]
  {
  }

  lemma SmallUpto(ranges: seq<Range>, lo: nat, i: nat)
    requires lo <= i < |ranges| && Small(ranges[..i])
    ensures Small(ranges[..lo])
    ensures ranges[i].length <= READV_MAX_BYTES ==> Small(ranges[..i + 1])
    ensures ranges[i].length > READV_MAX_BYTES ==> !Small(ranges)
  {
    assert ranges[..lo] == ranges[..i][..lo];
    assert ranges[..i + 1] == ranges[..i] + [ranges[i]];
  }

  lemma BatchedNone()
    ensures Batched([], []) && Sum([]) == 0
  {
  }

  lemma FitsMore(batch: seq<Range>, r: Range)
    requires batch == [] || (Fits(batch) && |batch| < READV_MAX_CHUNKS && Sum(batch) + r.length <= READV_MAX_BYTES)
    requires r.length <= READV_MAX_BYTES
    ensures Fits(batch + [r]) && Sum(batch + [r]) == Sum(batch) + r.length
  {
    assert (batch + [r])[..|batch|] == batch;
  }

  lemma FullNow(batch: seq<Range>, r: Range)
    requires |batch| >= READV_MAX_CHUNKS || Sum(batch) + r.length > READV_MAX_BYTES
    ensures Full(batch, [] + [r])
  {
  }

  lemma FullStays(before: seq<Range>, batch: seq<Range>, r: Range)
    requires Full(before, batch)
    ensures Full(before, batch + [r])
  {
  }

  lemma BatchedMore(batches: seq<seq<Range>>, ranges: seq<Range>, batch: seq<Range>)
    requires Batched(batches, ranges) && Fits(batch) && (batches != [] ==> Full(batches[|batches| - 1], batch))
    ensures Batched(batches + [batch], ranges + batch)
  {
    var more := batches + [batch];
    assert more[..|batches|] == batches;
    hide Fits, Full;
    assert forall i | 0 <= i < |more| :: Fits(more[i]);
    forall i | 0 <= i < |more| - 1
      ensures Full(more[i], more[i + 1])
    {
      assert more[i] == batches[i];
      if i + 1 < |batches| { assert more[i + 1] == batches[i + 1]; }
    }
  }

  // ----- the reply -----

  datatype Segment = Segment(fhandle: bytes, offset: int, data: bytes)

  function I64(b: bytes, at: nat): int
    requires at + 8 <= |b|
  {
    I32(b, at) * 0x1_0000_0000 + U32(b, at + 4)
  }

  function Big64(n: int): (r: bytes)
    requires -0x8000_0000_0000_0000 <= n < 0x8000_0000_0000_0000
    ensures |r| == 8
  {
    var u := if n < 0 then n + 0x1_0000_0000_0000_0000 else n;
    Big(u / 0x1_0000_0000, 4) + Big(u % 0x1_0000_0000, 4)
  }

  /** One element as the server writes it. */
  predicate Writable(s: Segment) {
    |s.fhandle| == FHANDLE_LEN && |s.data| < 0x8000_0000 && -0x8000_0000_0000_0000 <= s.offset < 0x8000_0000_0000_0000
  }

  function WrittenOne(s: Segment): bytes
    requires Writable(s)
  {
    s.fhandle + Big(|s.data|, 4) + Big64(s.offset) + s.data
  }

  function Written(segments: seq<Segment>): bytes
    requires forall i | 0 <= i < |segments| :: Writable(segments[i])
  {
    if segments == [] then []
    else
      WrittenOne(segments[0]) + Written(segments[1..])
  }

  function ParseReadv(data: bytes): Option<seq<Segment>> {
    if data == [] then Some([])
    else if |data| < 16 || I32(data, 4) < 0 || |data| < 16 + I32(data, 4) then None
    else
      var length := I32(data, 4);
      match ParseReadv(data[16 + length..])
      case None => None
      case Some(rest) => Some([Segment(data[..4], I64(data, 8), data[16..16 + length])] + rest)
  }

  /** The cursor loop of `parse_readv`. */
  method ParseSegments(data: bytes) returns (r: Option<seq<Segment>>)
    ensures r == ParseReadv(data)
  {
    hide I32, I64;
    var at, segments := 0, [];
    assert data[0..] == data;
    BeforeNone(ParseReadv(data));
    while at < |data|
      invariant at <= |data|
      invariant ParseReadv(data) == Before(segments, ParseReadv(data[at..]))
    {
      var rest := data[at..];
      if |rest| < 16 { return None; }
      var length := I32(rest, 4);
      if length < 0 || |rest| < 16 + length { return None; }
      var s := Segment(rest[..4], I64(rest, 8), rest[16..16 + length]);
      assert ParseReadv(rest) == Before([s], ParseReadv(rest[16 + length..]));
      BeforeBefore(segments, [s], ParseReadv(rest[16 + length..]));
      segments := segments + [s];
      at := at + 16 + length;
      assert data[at..] == rest[16 + length..];
    }
    assert data[at..] == [] && segments + [] == segments;
    r := Some(segments);
  }

  function Before(front: seq<Segment>, rest: Option<seq<Segment>>): Option<seq<Segment>> {
    match rest
    case None => None
    case Some(segments) => Some(front + segments)
  }

  lemma BeforeNone(rest: Option<seq<Segment>>)
    ensures Before([], rest) == rest
  {
    if rest != None { assert [] + rest.value == rest.value; }
  }

  lemma BeforeBefore(a: seq<Segment>, b: seq<Segment>, rest: Option<seq<Segment>>)
    ensures Before(a, Before(b, rest)) == Before(a + b, rest)
  {
    if rest != None { assert a + (b + rest.value) == a + b + rest.value; }
  }

  lemma Big64Is(n: int, b: bytes, at: nat)
    requires -0x8000_0000_0000_0000 <= n < 0x8000_0000_0000_0000
    requires at + 8 <= |b| && b[at..at + 8] == Big64(n)
    ensures I64(b, at) == n
  {
    var u := if n < 0 then n + 0x1_0000_0000_0000_0000 else n;
    var hi, lo := u / 0x1_0000_0000, u % 0x1_0000_0000;
    Big4Is(hi);
    Big4Is(lo);
    var w := Big64(n);
    assert w[..4] == Big(hi, 4) && w[4..] == Big(lo, 4);
    assert b[at..at + 4] == b[at..at + 8][..4] && b[at + 4..at + 8] == b[at..at + 8][4..];
    U32Here(b, at, Big(hi, 4));
    U32Here(b, at + 4, Big(lo, 4));
  }

  lemma U32Here(b: bytes, at: nat, part: bytes)
    requires |part| == 4 && at + 4 <= |b| && b[at..at + 4] == part
    ensures U32(b, at) == U32(part, 0)
  {
    assert b[at] == part[0] && b[at + 1] == part[1] && b[at + 2] == part[2] && b[at + 3] == part[3];
  }

  /** Every reply a server can write is read back as it was written. */
  lemma {:induction false} ParseWritten(segments: seq<Segment>)
    requires forall i | 0 <= i < |segments| :: Writable(segments[i])
    ensures ParseReadv(Written(segments)) == Some(segments)
    decreases |segments|
  {
    if segments != [] {
      ParseWritten(segments[1..]);
      ParseOne(segments[0], Written(segments[1..]));
      hide WrittenOne, Writable;
      assert [segments[0]] + segments[1..] == segments;
    }
  }

  lemma ParseOne(s: Segment, rest: bytes)
    requires Writable(s)
    ensures ParseReadv(WrittenOne(s) + rest) == Before([s], ParseReadv(rest))
  {
    hide Big, Big64, I64, I32;
    var b := WrittenOne(s) + rest;
    var n := |s.data|;
    assert b[..4] == s.fhandle && b[4..8] == Big(n, 4) && b[8..16] == Big64(s.offset);
    assert b[16..16 + n] == s.data && b[16 + n..] == rest;
    LengthHere(b, n);
    Big64Is(s.offset, b, 8);
  }

  lemma LengthHere(b: bytes, n: nat)
    requires n < 0x8000_0000 && |b| >= 8 && b[4..8] == Big(n, 4)
    ensures I32(b, 4) == n
  {
    Big4Is(n);
    U32Here(b, 4, Big(n, 4));
  }

  // ----- putting the answers back in order -----

  /** The data of the segments at one offset, in the order they came. */
  function At(segments: seq<Segment>, offset: int): seq<bytes> {
    if segments == [] then []
    else
      var front := At(segments[..|segments| - 1], offset);
      var last := segments[|segments| - 1];
      if last.offset == offset then front + [last.data] else front
  }

  /** How many ranges ask for one offset. */
  function Asked(ranges: seq<Range>, offset: int): nat {
    if ranges == [] then 0
    else Asked(ranges[..|ranges| - 1], offset) + if ranges[|ranges| - 1].offset == offset then 1 else 0
  }

  /** The answer for the i-th range: the next one at its offset, or the last one there is
      once they run out; a refusal where there is none or it is longer than asked. */
  function Answer(ranges: seq<Range>, segments: seq<Segment>, i: nat): Result<bytes, Refusal>
    requires i < |ranges|
  {
    var answers := At(segments, ranges[i].offset);
    var k := Asked(ranges[..i], ranges[i].offset);
    if answers == [] then Err(LeftOut)
    else
      var data := answers[if k < |answers| then k else |answers| - 1];
      if |data| > ranges[i].length then Err(Overlong) else Ok(data)
  }

  /** The segments gathered under their offsets. */
  ghost predicate Gathered(out: map<int, seq<bytes>>, segments: seq<Segment>) {
    forall offset :: (if offset in out then out[offset] else []) == At(segments, offset)
  }

  /** What is left under each offset once some ranges have taken theirs. */
  ghost predicate LeftAfter(out: map<int, seq<bytes>>, segments: seq<Segment>, served: seq<Range>) {
    forall offset ::
      var all, k := At(segments, offset), Asked(served, offset);
      (if offset in out then out[offset] else []) ==
        if all == [] then [] else all[if k < |all| then k else |all| - 1..]
  }

  method Gather(out: map<int, seq<bytes>>, ghost before: seq<Segment>, segments: seq<Segment>)
    returns (r: map<int, seq<bytes>>)
    requires Gathered(out, before)
    ensures Gathered(r, before + segments)
  {
    r := out;
    assert before + segments[..0] == before;
    for i := 0 to |segments|
      invariant Gathered(r, before + segments[..i])
    {
      var s := segments[i];
      ghost var so := before + segments[..i + 1];
      assert so[..|so| - 1] == before + segments[..i] && so[|so| - 1] == s;
      r := r[s.offset := (if s.offset in r then r[s.offset] else []) + [s.data]];
    }
    assert segments[..|segments|] == segments;
  }

  /** `_segment_for`, for each range in turn. */
  method Serve(ranges: seq<Range>, gathered: map<int, seq<bytes>>, ghost segments: seq<Segment>)
    returns (r: Result<seq<bytes>, Refusal>)
    requires Gathered(gathered, segments)
    ensures r.Ok? ==>
              |r.value| == |ranges| && forall i | 0 <= i < |ranges| :: Answer(ranges, segments, i) == Ok(r.value[i])
    ensures r.Err? ==> exists i: nat | i < |ranges| :: Answer(ranges, segments, i) == Err(r.error)
  {
    hide At, Asked, LeftAfter, Answer, Gathered;
    var out := gathered;
    var results := [];
    assert ranges[..0] == [];
    LeftNone(gathered, segments);
    for i := 0 to |ranges|
      invariant LeftAfter(out, segments, ranges[..i])
      invariant |results| == i && forall j | 0 <= j < i :: Answer(ranges, segments, j) == Ok(results[j])
    {
      var wanted := ranges[i];
      var answers := if wanted.offset in out then out[wanted.offset] else [];
      AnswerIs(out, segments, ranges, i);
      if answers == [] { return Err(LeftOut); }
      var data := answers[0];
      if |data| > wanted.length { return Err(Overlong); }
      ServedOne(out, segments, ranges, i);
      if |answers| > 1 { out := out[wanted.offset := answers[1..]]; }
      results := results + [data];
    }
    r := Ok(results);
  }

  function Kept(out: map<int, seq<bytes>>, offset: int): seq<bytes> { if offset in out then out[offset] else [] }

  lemma LeftNone(out: map<int, seq<bytes>>, segments: seq<Segment>)
    requires Gathered(out, segments)
    ensures LeftAfter(out, segments, [])
  {
    hide At;
    assert forall all: seq<bytes> :: all[0..] == all;
  }

  lemma AnswerIs(out: map<int, seq<bytes>>, segments: seq<Segment>, ranges: seq<Range>, i: nat)
    requires i < |ranges| && LeftAfter(out, segments, ranges[..i])
    ensures Answer(ranges, segments, i) ==
            var answers := Kept(out, ranges[i].offset);
            if answers == [] then Err(LeftOut) else if |answers[0]| > ranges[i].length then Err(Overlong)
              else Ok(answers[0])
  {
    hide At, Asked;
  }

  lemma ServedOne(out: map<int, seq<bytes>>, segments: seq<Segment>, ranges: seq<Range>, i: nat)
    requires i < |ranges| && LeftAfter(out, segments, ranges[..i]) && Kept(out, ranges[i].offset) != []
    ensures var answers := Kept(out, ranges[i].offset);
            LeftAfter(if |answers| > 1 then out[ranges[i].offset := answers[1..]] else out, segments, ranges[..i + 1])
  {
    assert ranges[..i + 1][..i] == ranges[..i];
    assert forall offset ::
        Asked(ranges[..i + 1], offset) == Asked(ranges[..i], offset) + if ranges[i].offset == offset then 1 else 0;
    hide At, Asked;
  }

  // ----- the whole call -----

  /** What a correct server holds for a range: the file's bytes there, fewer at its end. */
  function Held(content: bytes, r: Range): bytes {
    if r.offset < 0 then [] else Slice(content, r.offset, r.offset + r.length)
  }

  function Replies(content: bytes, ranges: seq<Range>): (s: seq<Segment>)
    ensures |s| == |ranges|
    ensures forall i | 0 <= i < |s| :: s[i] == Segment([], ranges[i].offset, Held(content, ranges[i]))
  {
    seq(|ranges|, i requires 0 <= i < |ranges| => Segment([], ranges[i].offset, Held(content, ranges[i])))
  }

  /** A reply answers a batch correctly, in any order that keeps the answers for one offset
      in the order asked. */
  ghost predicate Correct(segments: seq<Segment>, content: bytes, batch: seq<Range>) {
    forall offset :: At(segments, offset) == At(Replies(content, batch), offset)
  }

  function Parsed(reply: bytes): seq<Segment> { if ParseReadv(reply) == None then [] else ParseReadv(reply).value }

  /** The segments of the first n replies together. */
  function AllParsed(server: nat -> bytes, n: nat): seq<Segment> {
    if n == 0 then [] else AllParsed(server, n - 1) + Parsed(server(n - 1))
  }

  /** `readv` where the server's reply to the i-th batch is `server(i)`: a result per range
      exactly when none is too large to ask for, every reply can be read, and every range
      has an answer no longer than asked. */
  method Readv(ranges: seq<Range>, server: nat -> bytes, ghost content: bytes)
    returns (r: Result<seq<bytes>, Refusal>, batches: seq<seq<Range>>)
    ensures Small(ranges) ==> Batched(batches, ranges)
    ensures r.Ok? <==>
              (&& Small(ranges)
               && (forall i: nat | i < |batches| :: ParseReadv(server(i)) != None)
               && (forall i: nat | i < |ranges| :: Answer(ranges, AllParsed(server, |batches|), i).Ok?))
    ensures r.Ok? ==>
              |r.value| == |ranges|
              && forall i: nat | i < |ranges| :: Answer(ranges, AllParsed(server, |batches|), i) == Ok(r.value[i])
    ensures Small(ranges) && AllCorrect(server, content, batches) ==>
              r.Ok? && |r.value| == |ranges| && forall i: nat | i < |ranges| :: r.value[i] == Held(content, ranges[i])
  {
    var refused;
    batches, refused := Batches(ranges);
    hide Batched, Gathered, Answer, ParseReadv, Small, AllCorrect, AllParsed, Held;
    if Small(ranges) && AllCorrect(server, content, batches) { ReadvCorrect(content, ranges, batches, server); }
    var out: map<int, seq<bytes>> := map[];
    GatheredNone(server);
    for n := 0 to |batches|
      invariant Gathered(out, AllParsed(server, n))
      invariant forall i: nat | i < n :: ParseReadv(server(i)) != None
    {
      var segments := ParseSegments(server(n));
      if segments == None { return Err(Malformed), batches; }
      out := Gather(out, AllParsed(server, n), segments.value);
      OneMore(server, n);
    }
    if refused { return Err(TooLarge), batches; }
    r := Serve(ranges, out, AllParsed(server, |batches|));
  }

  lemma OneMore(server: nat -> bytes, n: nat)
    requires ParseReadv(server(n)) != None
    ensures AllParsed(server, n + 1) == AllParsed(server, n) + ParseReadv(server(n)).value
  {
    hide ParseReadv;
  }

  lemma GatheredNone(server: nat -> bytes)
    ensures Gathered(map[], AllParsed(server, 0))
  {
  }

  lemma {:induction false} AtConcat(a: seq<Segment>, b: seq<Segment>, offset: int)
    ensures At(a + b, offset) == At(a, offset) + At(b, offset)
    decreases |b|
  {
    if b == [] {
      assert a + b == a;
    } else {
      assert (a + b)[..|a + b| - 1] == a + b[..|b| - 1];
      AtConcat(a, b[..|b| - 1], offset);
    }
  }

  /** Segment by segment, the offsets asked for. */
  ghost predicate Aligned(ranges: seq<Range>, s: seq<Segment>) {
    |s| == |ranges| && forall i | 0 <= i < |s| :: s[i].offset == ranges[i].offset
  }

  /** Where the answer for the i-th range lies among those for its offset. */
  lemma {:induction false} SegmentAt(ranges: seq<Range>, s: seq<Segment>, i: nat)
    requires i < |ranges| && Aligned(ranges, s)
    ensures var answers, k := At(s, ranges[i].offset), Asked(ranges[..i], ranges[i].offset);
            k < |answers| && answers[k] == s[i].data
    decreases |ranges|
  {
    var n := |ranges| - 1;
    assert Aligned(ranges[..n], s[..n]);
    if i < n {
      assert ranges[..n][..i] == ranges[..i];
      SegmentAt(ranges[..n], s[..n], i);
    } else {
      CountAt(ranges[..n], s[..n], ranges[n].offset);
    }
  }

  lemma {:induction false} CountAt(ranges: seq<Range>, s: seq<Segment>, offset: int)
    requires Aligned(ranges, s)
    ensures |At(s, offset)| == Asked(ranges, offset)
    decreases |ranges|
  {
    if ranges != [] { CountAt(ranges[..|ranges| - 1], s[..|s| - 1], offset); }
  }

  lemma ReplyAt(content: bytes, ranges: seq<Range>, i: nat)
    requires i < |ranges|
    ensures var answers, k := At(Replies(content, ranges), ranges[i].offset), Asked(ranges[..i], ranges[i].offset);
            k < |answers| && answers[k] == Held(content, ranges[i])
  {
    SegmentAt(ranges, Replies(content, ranges), i);
  }

  lemma {:induction false} AllAt(content: bytes, batches: seq<seq<Range>>, server: nat -> bytes, n: nat, offset: int)
    requires n <= |batches|
    requires forall i: nat | i < n :: Correct(Parsed(server(i)), content, batches[i])
    ensures At(AllParsed(server, n), offset) == At(Replies(content, Concat(batches[..n])), offset)
    decreases n
  {
    hide At, Parsed, Replies;
    if n > 0 {
      AllAt(content, batches, server, n - 1, offset);
      assert batches[..n][..n - 1] == batches[..n - 1];
      var front, last := Concat(batches[..n - 1]), batches[n - 1];
      AtConcat(AllParsed(server, n - 1), Parsed(server(n - 1)), offset);
      assert Correct(Parsed(server(n - 1)), content, last);
      RepliesConcat(content, front, last);
      AtConcat(Replies(content, front), Replies(content, last), offset);
    } else {
      RepliesConcat(content, [], []);
    }
  }

  lemma RepliesConcat(content: bytes, a: seq<Range>, b: seq<Range>)
    ensures Replies(content, a + b) == Replies(content, a) + Replies(content, b)
    ensures Replies(content, []) == []
  {
    hide Held;
  }

  /** Whenever the server answers each batch correctly, in any order that keeps the answers
      for one offset as asked, every reply can be read and every range gets the file's bytes
      at that range, in the order the ranges were asked for. */
  lemma {:induction false} ReadvCorrect(content: bytes, ranges: seq<Range>, batches: seq<seq<Range>>,
    server: nat -> bytes)
    requires Batched(batches, ranges) && AllCorrect(server, content, batches)
    ensures forall n: nat | n < |batches| :: ParseReadv(server(n)) != None
    ensures forall i: nat | i < |ranges| ::
              Answer(ranges, AllParsed(server, |batches|), i) == Ok(Held(content, ranges[i]))
  {
    hide At, Asked, Held, AllParsed, Full;
    forall n: nat | n < |batches|
      ensures ParseReadv(server(n)) != None
    {
      assert Fits(batches[n]) && Correct(Parsed(server(n)), content, batches[n]);
      CorrectParses(server(n), content, batches[n]);
    }
    hide ParseReadv;
    forall i: nat | i < |ranges|
      ensures Answer(ranges, AllParsed(server, |batches|), i) == Ok(Held(content, ranges[i]))
    {
      AllAt(content, batches, server, |batches|, ranges[i].offset);
      assert batches[..|batches|] == batches;
      ReplyAt(content, ranges, i);
      HeldShort(content, ranges[i]);
    }
  }

  ghost predicate AllCorrect(server: nat -> bytes, content: bytes, batches: seq<seq<Range>>) {
    forall n: nat | n < |batches| :: Correct(Parsed(server(n)), content, batches[n])
  }

  lemma CorrectParses(reply: bytes, content: bytes, batch: seq<Range>)
    requires batch != [] && Correct(Parsed(reply), content, batch)
    ensures ParseReadv(reply) != None
  {
    hide ParseReadv;
    ReplyAt(content, batch, 0);
    assert At(Parsed(reply), batch[0].offset) != [];
  }

  lemma HeldShort(content: bytes, r: Range)
    ensures |Held(content, r)| <= r.length
  {
  }

  // ----- replies in just any order -----

  /** Segments without the handle they repeat. */
  function Bare(s: seq<Segment>): (r: seq<Segment>)
    ensures |r| == |s| && forall i | 0 <= i < |s| :: r[i] == Segment([], s[i].offset, s[i].data)
  {
    seq(|s|, i requires 0 <= i < |s| => Segment([], s[i].offset, s[i].data))
  }

  /** The correct answers to all the ranges, in any order whatever. */
  ghost predicate Reordered(s: seq<Segment>, content: bytes, ranges: seq<Range>) {
    multiset(Bare(s)) == multiset(Replies(content, ranges))
  }

  ghost predicate AllRight(s: seq<Segment>, content: bytes, ranges: seq<Range>) {
    forall i: nat | i < |ranges| :: Answer(ranges, s, i) == Ok(Held(content, ranges[i]))
  }

  /** Ranges at one offset have one answer. */
  ghost predicate OneAnswer(content: bytes, ranges: seq<Range>) {
    forall i, j | 0 <= i < |ranges| && 0 <= j < |ranges| && ranges[i].offset == ranges[j].offset ::
      Held(content, ranges[i]) == Held(content, ranges[j])
  }

  lemma {:induction false} BareAt(s: seq<Segment>, offset: int)
    ensures At(Bare(s), offset) == At(s, offset)
    decreases |s|
  {
    if s != [] {
      assert Bare(s)[..|s| - 1] == Bare(s[..|s| - 1]);
      BareAt(s[..|s| - 1], offset);
    }
  }

  /** A sequence without one of its elements. */
  lemma Without<T>(t: seq<T>, j: nat)
    requires j < |t|
    ensures multiset(t) == multiset(t[..j] + t[j + 1..]) + multiset{t[j]}
    ensures t == t[..j] + ([t[j]] + t[j + 1..])
  {
    assert t == t[..j] + ([t[j]] + t[j + 1..]);
  }

  lemma SameWithout<T>(s: seq<T>, t: seq<T>, j: nat)
    requires multiset(s) == multiset(t) && s != [] && j < |t| && t[j] == s[0]
    ensures multiset(s[..0] + s[1..]) == multiset(t[..j] + t[j + 1..])
  {
    Without(s, 0);
    Without(t, j);
    assert multiset(s[..0] + s[1..]) == multiset(s) - multiset{s[0]};
    assert multiset(t[..j] + t[j + 1..]) == multiset(t) - multiset{s[0]};
  }

  lemma AtWithout(t: seq<Segment>, j: nat, offset: int)
    requires j < |t|
    ensures multiset(At(t, offset)) == multiset(At(t[..j] + t[j + 1..], offset)) + multiset(At([t[j]], offset))
  {
    hide At;
    Without(t, j);
    AtConcat(t[..j], t[j + 1..], offset);
    AtConcat(t[..j], [t[j]] + t[j + 1..], offset);
    AtConcat([t[j]], t[j + 1..], offset);
  }

  /** A reordering of segments reorders the answers at each offset. */
  lemma {:induction false} ReorderedAt(s: seq<Segment>, t: seq<Segment>, offset: int)
    requires multiset(s) == multiset(t)
    ensures multiset(At(s, offset)) == multiset(At(t, offset))
    decreases |s|
  {
    if s == [] {
      assert |multiset(t)| == 0;
    } else {
      hide At;
      assert s[0] in multiset(t);
      var j :| 0 <= j < |t| && t[j] == s[0];
      SameWithout(s, t, j);
      AtWithout(s, 0, offset);
      AtWithout(t, j, offset);
      ReorderedAt(s[..0] + s[1..], t[..j] + t[j + 1..], offset);
    }
  }

  lemma {:induction false} AtFrom(ranges: seq<Range>, s: seq<Segment>, offset: int, data: bytes) returns (i: nat)
    requires Aligned(ranges, s) && data in At(s, offset)
    ensures i < |ranges| && ranges[i].offset == offset && s[i].data == data
    decreases |s|
  {
    var n := |s| - 1;
    if data in At(s[..n], offset) { i := AtFrom(ranges[..n], s[..n], offset, data); } else { i := n; }
  }

  /** Where every offset has one answer, no order can mix the answers up. */
  lemma OneAnswerRight(s: seq<Segment>, content: bytes, ranges: seq<Range>)
    requires OneAnswer(content, ranges) && Reordered(s, content, ranges)
    ensures AllRight(s, content, ranges)
  {
    hide At, Asked, Held;
    forall i: nat | i < |ranges|
      ensures Answer(ranges, s, i) == Ok(Held(content, ranges[i]))
    {
      var offset := ranges[i].offset;
      var t := Replies(content, ranges);
      BareAt(s, offset);
      ReorderedAt(Bare(s), t, offset);
      ReplyAt(content, ranges, i);
      HeldShort(content, ranges[i]);
      assert |At(s, offset)| == |multiset(At(s, offset))| == |multiset(At(t, offset))| == |At(t, offset)|;
      var data := At(s, offset)[Asked(ranges[..i], offset)];
      assert data in multiset(At(s, offset));
      var j := AtFrom(ranges, t, offset, data);
    }
  }

  /** Two answers at one offset changed for each other. */
  function Swapped(content: bytes, ranges: seq<Range>, i: nat, j: nat): seq<Segment>
    requires i < |ranges| && j < |ranges|
  {
    var t := Replies(content, ranges);
    t[i := t[j]][j := t[i]]
  }

  lemma SwappedWrong(content: bytes, ranges: seq<Range>, i: nat, j: nat)
    requires i < |ranges| && j < |ranges| && ranges[i].offset == ranges[j].offset
    requires Held(content, ranges[i]) != Held(content, ranges[j])
    ensures Reordered(Swapped(content, ranges, i, j), content, ranges)
    ensures !AllRight(Swapped(content, ranges, i, j), content, ranges)
  {
    hide At, Asked, Held;
    var t, s := Replies(content, ranges), Swapped(content, ranges, i, j);
    assert Bare(s) == s;
    assert multiset(s) == multiset(t);
    SegmentAt(ranges, s, i);
    assert Answer(ranges, s, i) != Ok(Held(content, ranges[i]));
  }

  /** Answers come back right in every order exactly when ranges at one offset have one
      answer. */
  lemma AnyOrderIff(content: bytes, ranges: seq<Range>)
    ensures (forall s | Reordered(s, content, ranges) :: AllRight(s, content, ranges)) <==> OneAnswer(content, ranges)
  {
    hide Reordered, AllRight, Held;
    if OneAnswer(content, ranges) {
      forall s | Reordered(s, content, ranges) ensures AllRight(s, content, ranges) {
        OneAnswerRight(s, content, ranges);
      }
    } else {
      var i, j :| 0 <= i < |ranges| && 0 <= j < |ranges| && ranges[i].offset == ranges[j].offset
        && Held(content, ranges[i]) != Held(content, ranges[j]);
      SwappedWrong(content, ranges, i, j);
    }
  }

  ghost predicate OneLength(ranges: seq<Range>) {
    forall i, j | 0 <= i < |ranges| && 0 <= j < |ranges| && ranges[i].offset == ranges[j].offset >= 0 ::
      ranges[i].length == ranges[j].length
  }

  lemma HeldWhole(content: bytes, r: Range)
    requires r.offset >= 0 && |content| >= r.offset + r.length
    ensures |Held(content, r)| == r.length
  {
  }

  /** So they do for every file exactly when no two ranges share an offset and not a length. */
  lemma AnyOrderAlwaysIff(ranges: seq<Range>)
    ensures (forall content, s | Reordered(s, content, ranges) :: AllRight(s, content, ranges)) <==> OneLength(ranges)
  {
    hide Reordered, AllRight, Held;
    if OneLength(ranges) {
      forall content, s | Reordered(s, content, ranges) ensures AllRight(s, content, ranges) {
        OneLengthOneAnswer(content, ranges);
        OneAnswerRight(s, content, ranges);
      }
    } else {
      var i, j :| 0 <= i < |ranges| && 0 <= j < |ranges| && ranges[i].offset == ranges[j].offset >= 0
        && ranges[i].length != ranges[j].length;
      var content := Zeros(ranges[i].offset + ranges[i].length + ranges[j].length);
      HeldWhole(content, ranges[i]);
      HeldWhole(content, ranges[j]);
      SwappedWrong(content, ranges, i, j);
    }
  }

  lemma OneLengthOneAnswer(content: bytes, ranges: seq<Range>)
    requires OneLength(ranges)
    ensures OneAnswer(content, ranges)
  {
    forall i, j | 0 <= i < |ranges| && 0 <= j < |ranges| && ranges[i].offset == ranges[j].offset
      ensures Held(content, ranges[i]) == Held(content, ranges[j])
    {
      assert ranges[i].offset >= 0 ==> ranges[i] == ranges[j];
    }
  }
}
