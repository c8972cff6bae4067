/** The LZ4 block codec of `root/compression.py`: a greedy encoder with a dictionary of
    four-byte prefixes, and a decoder whose repeats may overlap what they produce. */
module Lz4 {
  import opened Octets

  datatype Lz4Error =
    | MidSequence    // the block ends in the middle of a sequence
    | BeforeBlock    // a match points before the start of the output
    | WrongSize      // the block gave another number of bytes than promised

  const MIN_MATCH := 4
  const WINDOW := 0xFFFF

  // ----- lengths: a nibble, then 255-a-byte continuation -----

  function Continuation(value: nat): bytes {
    if value >= 255 then [255] + Continuation(value - 255) else [value as byte]
  }

  /** What follows a length nibble: nothing below 15, the continuation from 15 on. */
  function Extension(value: nat): bytes {
    if value >= 15 then Continuation(value - 15) else []
  }

  /** Sums continuation bytes onto `total`; the value and what is left of the input. */
  function ReadContinuation(rest: bytes, total: nat): (r: Option<(nat, bytes)>)
    ensures r.Some? ==> |r.value.1| < |rest|
  {
    if rest == [] then None
    else if rest[0] == 255 then ReadContinuation(rest[1..], total + 255)
    else Some((total + rest[0] as nat, rest[1..]))
  }

  function ReadLength(nibble: nat, rest: bytes): (r: Option<(nat, bytes)>)
    ensures r.Some? ==> |r.value.1| <= |rest|
  {
    if nibble == 15 then ReadContinuation(rest, 15) else Some((nibble, rest))
  }

  lemma {:induction false} ContinuationRoundTrip(value: nat, total: nat, tail: bytes)
    ensures ReadContinuation(Continuation(value) + tail, total) == Some((total + value, tail))
  {
    var all := Continuation(value) + tail;
    if value >= 255 {
      assert all[1..] == Continuation(value - 255) + tail;
      ContinuationRoundTrip(value - 255, total + 255, tail);
    } else {
      assert all[1..] == tail;
    }
  }

  /** Any length, written as nibble and continuation, reads back exactly. */
  lemma LengthRoundTrip(value: nat, tail: bytes)
    ensures ReadLength(Min(value, 15), Extension(value) + tail) == Some((value, tail))
  {
    if value >= 15 {
      ContinuationRoundTrip(value - 15, 15, tail);
    } else {
      assert Extension(value) + tail == tail;
    }
  }

  lemma {:induction false} ContinuationSize(value: nat)
    ensures |Continuation(value)| == value / 255 + 1
  {
    if value >= 255 {
      ContinuationSize(value - 255);
    }
  }

  // ----- the repeat -----

  /** `out` followed by `count` bytes, each the one `offset` places before it. */
  function Repeat(out: bytes, offset: nat, count: nat): (r: bytes)
    requires 0 < offset <= |out|
    ensures |r| == |out| + count && out <= r
    decreases count
  {
    if count == 0 then out else Repeat(out + [out[|out| - offset]], offset, count - 1)
  }

  /** Without overlap the repeat is one slice copied. */
  lemma {:induction false} RepeatIsSlice(out: bytes, offset: nat, count: nat)
    requires 0 < offset <= |out| && count <= offset
    ensures Repeat(out, offset, count) == out + out[|out| - offset..|out| - offset + count]
  {
    RepeatFrom(out, offset, 0, count);
    assert out + out[|out| - offset..|out| - offset] == out;
  }

  lemma {:induction false} RepeatFrom(out: bytes, offset: nat, done: nat, count: nat)
    requires 0 < offset <= |out| && done + count <= offset
    ensures var start := |out| - offset;
            Repeat(out + out[start..start + done], offset, count) == out + out[start..start + done + count]
    decreases count
  {
    var start := |out| - offset;
    var now := out + out[start..start + done];
    if count > 0 {
      assert now[|now| - offset] == out[start + done];
      assert now + [out[start + done]] == out + out[start..start + done + 1];
      RepeatFrom(out, offset, done + 1, count - 1);
    }
  }

  /** A repeat rebuilds the text it was found in, overlapping or not. */
  lemma {:induction false} RepeatRebuilds(text: bytes, pos: nat, found: nat, count: nat)
    requires found < pos && pos + count <= |text|
    requires text[found..found + count] == text[pos..pos + count]
    ensures Repeat(text[..pos], pos - found, count) == text[..pos + count]
    decreases count
  {
    if count > 0 {
      assert text[found..found + count][0] == text[pos..pos + count][0];
      assert text[..pos] + [text[found]] == text[..pos + 1];
      assert text[found + 1..found + count] == text[found..found + count][1..];
      assert text[pos + 1..pos + count] == text[pos..pos + count][1..];
      assert text[found + 1..found + 1 + (count - 1)] == text[pos + 1..pos + 1 + (count - 1)];
      RepeatRebuilds(text, pos + 1, found + 1, count - 1);
    }
  }

  // ----- decoding -----

  /** One sequence taken off the front of a block. */
  datatype Parsed =
    | Last(literals: bytes)
    | Copy(literals: bytes, offset: nat, count: nat, next: bytes)
    | Broken

  function ParseMatch(literals: bytes, nibble: nat, tail: bytes): (r: Parsed)
    ensures r.Copy? ==> |r.next| < |tail|
  {
    if |tail| < 2 then Broken
    else
      match ReadLength(nibble, tail[2..])
      case None => Broken
      case Some((extra, next)) =>
        Copy(literals, tail[0] as nat + 256 * tail[1] as nat, extra + MIN_MATCH, next)
  }

  function ParseSequence(rest: bytes): (r: Parsed)
    requires rest != []
    ensures r.Copy? ==> |r.next| < |rest|
  {
    match ReadLength(rest[0] as nat / 16, rest[1..])
    case None => Broken
    case Some((literals, body)) =>
      if literals >= |body| then Last(body)
      else ParseMatch(body[..literals], rest[0] as nat % 16, body[literals..])
  }

  /** The bytes a block stands for, written after `out`; a match may reach back into `out`. */
  function Decode(rest: bytes, out: bytes): Result<bytes, Lz4Error>
    decreases |rest|
  {
    if rest == [] then Ok(out)
    else
      match ParseSequence(rest)
      case Broken => Err(MidSequence)
      case Last(literals) => Ok(out + literals)
      case Copy(literals, offset, count, next) =>
        var copied := out + literals;
        if offset > |copied| then Err(BeforeBlock)
        else if offset == 0 then Err(MidSequence)
        else Decode(next, Repeat(copied, offset, count))
  }

  function Unpacked(src: bytes, size: int): Result<bytes, Lz4Error> {
    match Decode(src, [])
    case Err(e) => Err(e)
    case Ok(out) => if |out| == size then Ok(out) else Err(WrongSize)
  }

  method ReadMore(src: bytes, start: nat, nibble: nat) returns (ok: bool, value: nat, pos: nat)
    requires start <= |src| && nibble <= 15
    ensures ok ==> start <= pos <= |src| && ReadLength(nibble, src[start..]) == Some((value, src[pos..]))
    ensures !ok ==> ReadLength(nibble, src[start..]) == None
  {
    value, pos, ok := nibble, start, true;
    if nibble == 15 {
      while pos < |src| && src[pos] == 255
        invariant start <= pos <= |src|
        invariant ReadContinuation(src[pos..], value) == ReadContinuation(src[start..], 15)
        decreases |src| - pos
      {
        assert src[pos..][1..] == src[pos + 1..];
        value := value + 255;
        pos := pos + 1;
      }
      if pos == |src| {
        ok := false;
      } else {
        assert src[pos..][1..] == src[pos + 1..];
        value := value + src[pos] as nat;
        pos := pos + 1;
      }
    }
  }

  /** The offset and length of a match; a count of zero says the block ends inside it. */
  method ReadMatch(src: bytes, start: nat, nibble: nat, ghost literals: bytes)
    returns (offset: nat, count: nat, pos: nat)
    requires start <= |src| && nibble <= 15
    ensures count == 0 ==> ParseMatch(literals, nibble, src[start..]) == Broken
    ensures count != 0 ==> start < pos <= |src|
    ensures count != 0 ==> ParseMatch(literals, nibble, src[start..]) == Copy(literals, offset, count, src[pos..])
  {
    offset, count, pos := 0, 0, start;
    if start + 2 <= |src| {
      assert src[start..][2..] == src[start + 2..];
      var ok, extra, after := ReadMore(src, start + 2, nibble);
      if ok {
        offset, count, pos := src[start] as nat + 256 * src[start + 1] as nat, extra + MIN_MATCH, after;
      }
    }
  }

  /** Appends the match: a slice when it fits, otherwise byte by byte. */
  method CopyMatch(out: bytes, offset: nat, count: nat) returns (r: bytes)
    requires 0 < offset <= |out|
    ensures r == Repeat(out, offset, count)
  {
    var start := |out| - offset;
    if offset >= count {
      RepeatIsSlice(out, offset, count);
      r := out + out[start..start + count];
    } else {
      r := out;
      var index := start;
      while index < start + count
        invariant start <= index <= start + count
        invariant |r| == |out| + (index - start)
        invariant Repeat(r, offset, start + count - index) == Repeat(out, offset, count)
      {
        assert r[|r| - offset] == r[index];
        r := r + [r[index]];
        index := index + 1;
      }
    }
  }

  method Unpack(src: bytes, size: int) returns (r: Result<bytes, Lz4Error>)
    ensures r == Unpacked(src, size)
  {
    hide ReadLength, ParseMatch, Repeat, ReadContinuation;
    var out: bytes := [];
    var pos, end := 0, |src|;
    assert src[0..] == src;
    while pos < end
      invariant 0 <= pos <= end == |src|
      invariant Decode(src[pos..], out) == Decode(src, [])
      decreases end - pos
    {
      ghost var rest := src[pos..];
      var token := src[pos] as nat;
      pos := pos + 1;
      assert rest[1..] == src[pos..];
      var ok, literals, next := ReadMore(src, pos, token / 16);
      if !ok { return Err(MidSequence); }
      pos := next;
      ghost var before := out;
      out := out + Slice(src, pos, pos + literals);
      if pos + literals >= end {
        assert out == before + src[pos..];
        pos := end;
        break;
      }
      assert src[pos..][..literals] == src[pos..pos + literals];
      assert src[pos..][literals..] == src[pos + literals..];
      pos := pos + literals;
      var offset, count, after := ReadMatch(src, pos, token % 16, src[pos - literals..pos]);
      if count == 0 { return Err(MidSequence); }
      pos := after;
      if offset > |out| { return Err(BeforeBlock); }
      if offset == 0 { return Err(MidSequence); }
      out := CopyMatch(out, offset, count);
    }
    if |out| != size { return Err(WrongSize); }
    return Ok(out);
  }

  // ----- encoding -----

  function Token(literals: nat, match_: nat): byte {
    (Min(literals, 15) * 16 + Min(match_, 15)) as byte
  }

  /** One sequence before `next`: literals, then `length` bytes repeated from `offset` back. */
  function Sequence(literals: bytes, offset: nat, length: nat, next: bytes): bytes
    requires 0 < offset <= WINDOW && length >= MIN_MATCH
  {
    [Token(|literals|, length - MIN_MATCH)] + (Extension(|literals|) + (literals + MatchPart(offset, length, next)))
  }

  function MatchPart(offset: nat, length: nat, next: bytes): bytes
    requires 0 < offset <= WINDOW && length >= MIN_MATCH
  {
    [(offset % 256) as byte, (offset / 256) as byte] + (Extension(length - MIN_MATCH) + next)
  }

  /** The literal-only sequence every block ends in. */
  function LastSequence(literals: bytes): bytes {
    [Token(|literals|, 0)] + (Extension(|literals|) + literals)
  }

  /** The dictionary only names places before `pos` where the four bytes really are. */
  ghost predicate Remembers(src: bytes, recent: map<bytes, nat>, pos: nat) {
    forall k | k in recent :: recent[k] < pos && recent[k] + 4 <= |src| && src[recent[k]..recent[k] + 4] == k
  }

  function MatchLength(src: bytes, found: nat, pos: nat, length: nat): (r: nat)
    requires found < pos && pos + length <= |src|
    ensures length <= r && pos + r <= |src|
    ensures pos + length <= |src| - 5 ==> pos + r <= |src| - 5
    decreases |src| - length
  {
    if pos + length < |src| - 5 && src[found + length] == src[pos + length]
    then MatchLength(src, found, pos, length + 1) else length
  }

  lemma {:induction false} MatchLengthMatches(src: bytes, found: nat, pos: nat, length: nat)
    requires found < pos && pos + length <= |src|
    requires src[found..found + length] == src[pos..pos + length]
    ensures var r := MatchLength(src, found, pos, length);
            src[found..found + r] == src[pos..pos + r]
    decreases |src| - length
  {
    if pos + length < |src| - 5 && src[found + length] == src[pos + length] {
      assert src[found..found + length + 1] == src[found..found + length] + [src[found + length]];
      assert src[pos..pos + length + 1] == src[pos..pos + length] + [src[pos + length]];
      MatchLengthMatches(src, found, pos, length + 1);
    }
  }

  lemma RemembersMore(src: bytes, recent: map<bytes, nat>, pos: nat, next: nat)
    requires pos + 4 <= |src| && pos < next && Remembers(src, recent, pos)
    ensures Remembers(src, recent[src[pos..pos + 4] := pos], next)
  {
  }

  /** What the encoder still emits with its cursor at `pos`, literals pending from `anchor`. */
  function PackFrom(src: bytes, recent: map<bytes, nat>, anchor: nat, pos: nat): bytes
    requires anchor <= pos <= |src| && Remembers(src, recent, pos)
    decreases |src| - pos
  {
    if pos >= |src| - 12 then LastSequence(src[anchor..])
    else
      var key := src[pos..pos + 4];
      var now := recent[key := pos];
      if key !in recent || pos - recent[key] > WINDOW then
        RemembersMore(src, recent, pos, pos + 1);
        PackFrom(src, now, anchor, pos + 1)
      else
        var found := recent[key];
        var length := MatchLength(src, found, pos, MIN_MATCH);
        RemembersMore(src, recent, pos, pos + length);
        Sequence(src[anchor..pos], pos - found, length, PackFrom(src, now, pos + length, pos + length))
  }

  function Packed(src: bytes): bytes { PackFrom(src, map[], 0, 0) }

  method Extend(out: bytes, value: nat) returns (r: bytes)
    requires value >= 15
    ensures r == out + Extension(value)
  {
    var left := value - 15;
    r := out;
    while left >= 255
      invariant r + Continuation(left) == out + Continuation(value - 15)
    {
      assert r + Continuation(left) == (r + [255]) + Continuation(left - 255);
      r := r + [255];
      left := left - 255;
    }
    r := r + [left as byte];
  }

  method Emit(out: bytes, literals: bytes, offset: nat, length: nat, ghost next: bytes) returns (r: bytes)
    requires 0 < offset <= WINDOW && length >= MIN_MATCH
    ensures r + next == out + Sequence(literals, offset, length, next)
  {
    hide Continuation, Token;
    ghost var tail := MatchPart(offset, length, next);
    ghost var tok := [Token(|literals|, length - MIN_MATCH)];
    r := out + [Token(|literals|, length - MIN_MATCH)];
    ghost var r1 := r;
    if |literals| >= 15 { r := Extend(r, |literals|); }
    assert r == r1 + Extension(|literals|);
    ghost var r2 := r;
    r := r + literals;
    ghost var r3 := r;
    r := r + [(offset % 256) as byte, (offset / 256) as byte];
    ghost var r4 := r;
    if length - MIN_MATCH >= 15 { r := Extend(r, length - MIN_MATCH); }
    assert r == r4 + Extension(length - MIN_MATCH);
    calc {
      r + next;
      r4 + (Extension(length - MIN_MATCH) + next);
      r3 + tail;
      r2 + (literals + tail);
      r1 + (Extension(|literals|) + (literals + tail));
      out + (tok + (Extension(|literals|) + (literals + tail)));
    }
  }

  method EmitLast(out: bytes, literals: bytes) returns (r: bytes)
    ensures r == out + LastSequence(literals)
  {
    r := out + [Token(|literals|, 0)];
    if |literals| >= 15 { r := Extend(r, |literals|); }
    r := r + literals;
  }

  method Extent(src: bytes, found: nat, pos: nat) returns (length: nat)
    requires found < pos && pos + MIN_MATCH <= |src|
    ensures length == MatchLength(src, found, pos, MIN_MATCH)
  {
    length := MIN_MATCH;
    while pos + length < |src| - 5 && src[found + length] == src[pos + length]
      invariant MIN_MATCH <= length && pos + length <= |src|
      invariant MatchLength(src, found, pos, length) == MatchLength(src, found, pos, MIN_MATCH)
      decreases |src| - length
    {
      length := length + 1;
    }
  }

  method Pack(src: bytes) returns (out: bytes)
    ensures out == Packed(src)
  {
    hide Sequence, MatchLength, LastSequence;
    var n := |src|;
    out := [];
    var recent: map<bytes, nat> := map[];
    var anchor, pos := 0, 0;
    while pos < n - 12
      invariant 0 <= anchor <= pos <= n
      invariant Remembers(src, recent, pos)
      invariant out + PackFrom(src, recent, anchor, pos) == Packed(src)
      decreases n - pos
    {
      var key := src[pos..pos + 4];
      var found := if key in recent then Some(recent[key]) else None;
      ghost var was := recent;
      recent := recent[key := pos];
      if found == None || pos - found.value > WINDOW {
        RemembersMore(src, was, pos, pos + 1);
        pos := pos + 1;
        continue;
      }
      var length := Extent(src, found.value, pos);
      RemembersMore(src, was, pos, pos + length);
      out := Emit(out, src[anchor..pos], pos - found.value, length,
                  PackFrom(src, recent, pos + length, pos + length));
      pos := pos + length;
      anchor := pos;
    }
    out := EmitLast(out, src[anchor..]);
  }

  // ----- the round trip -----

  lemma TokenNibbles(literals: nat, match_: nat)
    ensures Token(literals, match_) as nat / 16 == Min(literals, 15)
    ensures Token(literals, match_) as nat % 16 == Min(match_, 15)
  {
  }

  lemma ParseLastSequence(literals: bytes)
    ensures ParseSequence(LastSequence(literals)) == Last(literals)
  {
    TokenNibbles(|literals|, 0);
    LengthRoundTrip(|literals|, literals);
    assert LastSequence(literals)[1..] == Extension(|literals|) + literals;
  }

  /** A sequence parses back to exactly what it was made from, whatever follows. */
  lemma ParseWrittenSequence(literals: bytes, offset: nat, length: nat, next: bytes)
    requires 0 < offset <= WINDOW && length >= MIN_MATCH
    ensures ParseSequence(Sequence(literals, offset, length, next)) == Copy(literals, offset, length, next)
  {
    hide ReadLength, ParseMatch, Extension, MatchPart, Token;
    var block := Sequence(literals, offset, length, next);
    var tail := MatchPart(offset, length, next);
    TokenNibbles(|literals|, length - MIN_MATCH);
    LengthRoundTrip(|literals|, literals + tail);
    assert block[1..] == Extension(|literals|) + (literals + tail);
    assert (literals + tail)[|literals|..] == tail && (literals + tail)[..|literals|] == literals;
    ParseWrittenMatch(literals, offset, length, next);
  }

  lemma ParseWrittenMatch(literals: bytes, offset: nat, length: nat, next: bytes)
    requires 0 < offset <= WINDOW && length >= MIN_MATCH
    ensures ParseMatch(literals, Min(length - MIN_MATCH, 15), MatchPart(offset, length, next))
         == Copy(literals, offset, length, next)
  {
    LengthRoundTrip(length - MIN_MATCH, next);
    assert MatchPart(offset, length, next)[2..] == Extension(length - MIN_MATCH) + next;
  }

  lemma DecodeLast(literals: bytes, out: bytes)
    ensures Decode(LastSequence(literals), out) == Ok(out + literals)
  {
    hide LastSequence;
    assert LastSequence(literals) != [] by { LastNotEmpty(literals); }
    ParseLastSequence(literals);
  }

  lemma LastNotEmpty(literals: bytes)
    ensures LastSequence(literals) != []
  {
  }

  lemma DecodeCopy(rest: bytes, out: bytes)
    requires rest != [] && ParseSequence(rest).Copy?
    requires 0 < ParseSequence(rest).offset <= |out| + |ParseSequence(rest).literals|
    ensures var p := ParseSequence(rest);
            Decode(rest, out) == Decode(p.next, Repeat(out + p.literals, p.offset, p.count))
  {
  }

  /** Decoding one written match leaves the decoder where the encoder's anchor went. */
  lemma DecodeMatch(src: bytes, anchor: nat, pos: nat, found: nat, next: bytes)
    requires anchor <= pos && found < pos && pos + MIN_MATCH <= |src| && pos - found <= WINDOW
    requires src[found..found + MIN_MATCH] == src[pos..pos + MIN_MATCH]
    ensures var length := MatchLength(src, found, pos, MIN_MATCH);
            Decode(Sequence(src[anchor..pos], pos - found, length, next), src[..anchor])
            == Decode(next, src[..pos + length])
  {
    hide Decode, Sequence, MatchLength, Repeat, ParseSequence;
    var length := MatchLength(src, found, pos, MIN_MATCH);
    ParseWrittenSequence(src[anchor..pos], pos - found, length, next);
    assert src[..anchor] + src[anchor..pos] == src[..pos];
    MatchLengthMatches(src, found, pos, MIN_MATCH);
    RepeatRebuilds(src, pos, found, length);
    DecodeCopy(Sequence(src[anchor..pos], pos - found, length, next), src[..anchor]);
  }

  /** From any cursor the encoder can be at, what it still emits decodes to the rest. */
  lemma {:induction false} PackFromRoundTrip(src: bytes, recent: map<bytes, nat>, anchor: nat, pos: nat)
    requires anchor <= pos <= |src| && Remembers(src, recent, pos)
    ensures Decode(PackFrom(src, recent, anchor, pos), src[..anchor]) == Ok(src)
    decreases |src| - pos
  {
    hide Sequence, LastSequence, MatchLength, ParseSequence, Decode;
    if pos >= |src| - 12 {
      DecodeLast(src[anchor..], src[..anchor]);
      assert src[..anchor] + src[anchor..] == src;
    } else {
      var key := src[pos..pos + 4];
      var now := recent[key := pos];
      if key !in recent || pos - recent[key] > WINDOW {
        RemembersMore(src, recent, pos, pos + 1);
        PackFromRoundTrip(src, now, anchor, pos + 1);
      } else {
        var length := MatchLength(src, recent[key], pos, MIN_MATCH);
        RemembersMore(src, recent, pos, pos + length);
        DecodeMatch(src, anchor, pos, recent[key], PackFrom(src, now, pos + length, pos + length));
        PackFromRoundTrip(src, now, pos + length, pos + length);
      }
    }
  }

  /** The decoder undoes the encoder on every byte string. */
  lemma RoundTrip(src: bytes)
    ensures Unpacked(Packed(src), |src|) == Ok(src)
  {
    PackFromRoundTrip(src, map[], 0, 0);
    assert src[..0] == [];
  }

  // ----- the size bound -----

  lemma SequenceSize(literals: bytes, offset: nat, length: nat, next: bytes)
    requires 0 < offset <= WINDOW && length >= MIN_MATCH
    ensures 255 * |Sequence(literals, offset, length, next)| <= 256 * (|literals| + length) + 255 * |next|
  {
    if |literals| >= 15 { ContinuationSize(|literals| - 15); }
    if length - MIN_MATCH >= 15 { ContinuationSize(length - MIN_MATCH - 15); }
  }

  lemma {:induction false} PackFromSize(src: bytes, recent: map<bytes, nat>, anchor: nat, pos: nat)
    requires anchor <= pos <= |src| && Remembers(src, recent, pos)
    ensures 255 * |PackFrom(src, recent, anchor, pos)| <= 256 * (|src| - anchor) + 495
    decreases |src| - pos
  {
    hide Sequence, MatchLength;
    if pos >= |src| - 12 {
      if |src| - anchor >= 15 { ContinuationSize(|src| - anchor - 15); }
    } else {
      var key := src[pos..pos + 4];
      var now := recent[key := pos];
      if key !in recent || pos - recent[key] > WINDOW {
        PackFromSize(src, now, anchor, pos + 1);
      } else {
        var length := MatchLength(src, recent[key], pos, MIN_MATCH);
        SequenceSize(src[anchor..pos], pos - recent[key], length, PackFrom(src, now, pos + length, pos + length));
        PackFromSize(src, now, pos + length, pos + length);
      }
    }
  }

  /** A packed block exceeds its input by at most one byte in 255, plus two. */
  lemma PackedSize(src: bytes)
    ensures |Packed(src)| <= |src| + |src| / 255 + 2
  {
    PackFromSize(src, map[], 0, 0);
  }

  // ----- the format's end rules -----

  /** A block for `n` bytes of which `done` are behind: no match begins within twelve bytes of
      the end or reaches into the last five, and the block ends in literals, the last five
      bytes among them. */
  ghost predicate EndRules(rest: bytes, done: nat, n: nat)
    decreases |rest|
  {
    rest != [] &&
    match ParseSequence(rest)
    case Broken => false
    case Last(literals) => done + |literals| == n && |literals| >= Min(5, n)
    case Copy(literals, offset, count, next) =>
      var start := done + |literals|;
      start + 12 < n && start + count <= n - 5 && EndRules(next, start + count, n)
  }

  lemma {:induction false} PackFromEnds(src: bytes, recent: map<bytes, nat>, anchor: nat, pos: nat)
    requires anchor <= pos <= |src| && Remembers(src, recent, pos) && (anchor == 0 || anchor <= |src| - 5)
    ensures EndRules(PackFrom(src, recent, anchor, pos), anchor, |src|)
    decreases |src| - pos
  {
    hide Sequence, LastSequence, MatchLength, ParseSequence;
    if pos >= |src| - 12 {
      ParseLastSequence(src[anchor..]);
      LastNotEmpty(src[anchor..]);
    } else {
      var key := src[pos..pos + 4];
      var now := recent[key := pos];
      if key !in recent || pos - recent[key] > WINDOW {
        RemembersMore(src, recent, pos, pos + 1);
        PackFromEnds(src, now, anchor, pos + 1);
      } else {
        var length := MatchLength(src, recent[key], pos, MIN_MATCH);
        RemembersMore(src, recent, pos, pos + length);
        var next := PackFrom(src, now, pos + length, pos + length);
        PackFromEnds(src, now, pos + length, pos + length);
        ParseWrittenSequence(src[anchor..pos], pos - recent[key], length, next);
        SequenceNotEmpty(src[anchor..pos], pos - recent[key], length, next);
      }
    }
  }

  lemma SequenceNotEmpty(literals: bytes, offset: nat, length: nat, next: bytes)
    requires 0 < offset <= WINDOW && length >= MIN_MATCH
    ensures Sequence(literals, offset, length, next) != []
  {
  }

  /** Every block the encoder makes keeps the end rules. */
  lemma PackedEnds(src: bytes)
    ensures EndRules(Packed(src), 0, |src|)
  {
    PackFromEnds(src, map[], 0, 0);
  }

  // ----- what does not compress -----

  function Four(src: bytes, p: nat): bytes
    requires p + 4 <= |src|
  {
    src[p..p + 4]
  }

  /** No four bytes come again within the window. */
  ghost predicate NoRepeat(src: bytes) {
    forall p: nat, q: nat | p < q && q + 4 <= |src| && q - p <= WINDOW :: Four(src, p) != Four(src, q)
  }

  lemma {:induction false} PackFromPlain(src: bytes, recent: map<bytes, nat>, pos: nat)
    requires pos <= |src| && Remembers(src, recent, pos) && NoRepeat(src)
    ensures PackFrom(src, recent, 0, pos) == LastSequence(src)
    decreases |src| - pos
  {
    hide LastSequence, Sequence, MatchLength;
    if pos >= |src| - 12 {
      assert src[0..] == src;
    } else {
      RemembersMore(src, recent, pos, pos + 1);
      var key := Four(src, pos);
      if key in recent { assert Four(src, recent[key]) == key; }
      PackFromPlain(src, recent[src[pos..pos + 4] := pos], pos + 1);
    }
  }

  /** Such a block packs into one sequence of literals: longer than it was. */
  lemma PackedPlain(src: bytes)
    requires NoRepeat(src)
    ensures |Packed(src)| == 1 + |Extension(|src|)| + |src|
  {
    PackFromPlain(src, map[], 0);
  }
}
