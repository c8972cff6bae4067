/** The LZ4 block format byte by byte, and what the encoder finds: the decoder reads every
    block as the format says, and the encoder uses the first repeat there is. */
module Lz4Format {
  import opened Octets
  import opened Lz4

  // ----- reading -----

  /** A length as the format spells it: a nibble below 15 is itself; a nibble of 15 goes on
      with bytes 255 and one below, all added up. */
  ghost predicate Spelled(nibble: nat, more: bytes, value: nat) {
    if nibble < 15 then more == [] && value == nibble
    else
      && nibble == 15 && more != [] && more[|more| - 1] < 255
      && (forall i | 0 <= i < |more| - 1 :: more[i] == 255)
      && value == 15 + 255 * (|more| - 1) + more[|more| - 1] as nat
  }

  lemma {:induction false} ReadsContinuation(more: bytes, tail: bytes, total: nat)
    requires more != [] && more[|more| - 1] < 255 && forall i | 0 <= i < |more| - 1 :: more[i] == 255
    ensures ReadContinuation(more + tail, total) ==
            Some((total + 255 * (|more| - 1) + more[|more| - 1] as nat, tail))
    decreases |more|
  {
    var all := more + tail;
    if |more| == 1 {
      assert all[1..] == tail;
    } else {
      assert all[0] == 255 && all[1..] == more[1..] + tail;
      ReadsContinuation(more[1..], tail, total + 255);
    }
  }

  lemma ReadsLength(nibble: nat, more: bytes, value: nat, tail: bytes)
    requires Spelled(nibble, more, value)
    ensures ReadLength(nibble, more + tail) == Some((value, tail))
  {
    if nibble == 15 {
      ReadsContinuation(more, tail, 15);
    } else {
      assert more + tail == tail;
    }
  }

  /** `count` bytes more, each the one `offset` places before it. */
  ghost predicate Copies(before: bytes, offset: nat, count: nat, after: bytes)
    requires 0 < offset <= |before|
  {
    && |after| == |before| + count && before <= after
    && forall i | |before| <= i < |after| :: after[i] == after[i - offset]
  }

  lemma {:induction false} RepeatCopies(out: bytes, offset: nat, count: nat)
    requires 0 < offset <= |out|
    ensures Copies(out, offset, count, Repeat(out, offset, count))
    decreases count
  {
    if count > 0 {
      var more := out + [out[|out| - offset]];
      RepeatCopies(more, offset, count - 1);
      var r := Repeat(more, offset, count - 1);
      assert r[|out|] == more[|out|] && r[|out| - offset] == more[|out| - offset];
    }
  }

  /** A sequence of a block is a token, the rest of the literal count, the literals, the
      offset low byte first, and the rest of the match length less four; it writes the
      literals and then the match. An offset of zero, or to before the block, is refused. */
  lemma ReadsSequence(token: byte, more: bytes, literals: bytes, low: byte, high: byte, extra: bytes, count: nat,
    next: bytes, out: bytes)
    requires Spelled(token as nat / 16, more, |literals|) && Spelled(token as nat % 16, extra, count)
    ensures var offset := low as nat + 256 * high as nat;
            var block := [token] + (more + (literals + ([low, high] + (extra + next))));
            && (offset == 0 ==> Decode(block, out) == Err(MidSequence))
            && (offset > |out + literals| ==> Decode(block, out) == Err(BeforeBlock))
            && (0 < offset <= |out + literals| ==>
                  exists after: bytes ::
                    Copies(out + literals, offset, count + 4, after) && Decode(block, out) == Decode(next, after))
  {
    var offset := low as nat + 256 * high as nat;
    var tail := [low, high] + (extra + next);
    var block := [token] + (more + (literals + tail));
    ParsesMatch(token as nat % 16, low, high, extra, count, next, literals);
    ParsesSequence(token, more, literals, tail);
    hide *;
    DecodeSequence(block, out);
    if 0 < offset <= |out + literals| { RepeatCopies(out + literals, offset, count + 4); }
  }

  lemma ParsesMatch(nibble: nat, low: byte, high: byte, extra: bytes, count: nat, next: bytes, literals: bytes)
    requires Spelled(nibble, extra, count)
    ensures ParseMatch(literals, nibble, [low, high] + (extra + next)) ==
            Copy(literals, low as nat + 256 * high as nat, count + 4, next)
  {
    ReadsLength(nibble, extra, count, next);
    hide Spelled, ReadLength;
    assert ([low, high] + (extra + next))[2..] == extra + next;
  }

  lemma ParsesSequence(token: byte, more: bytes, literals: bytes, tail: bytes)
    requires Spelled(token as nat / 16, more, |literals|) && tail != []
    ensures ParseSequence([token] + (more + (literals + tail))) == ParseMatch(literals, token as nat % 16, tail)
  {
    var body := literals + tail;
    var block := [token] + (more + body);
    ReadsLength(token as nat / 16, more, |literals|, body);
    hide *;
    assert block[0] == token && block[1..] == more + body;
    assert body[..|literals|] == literals && body[|literals|..] == tail;
    ParsesGiven(block, |literals|, body);
  }

  lemma ParsesGiven(block: bytes, n: nat, body: bytes)
    requires block != [] && ReadLength(block[0] as nat / 16, block[1..]) == Some((n, body)) && n < |body|
    ensures ParseSequence(block) == ParseMatch(body[..n], block[0] as nat % 16, body[n..])
  {
    hide ReadLength, ParseMatch;
  }

  lemma DecodeSequence(block: bytes, out: bytes)
    requires block != [] && ParseSequence(block).Copy?
    ensures var p := ParseSequence(block);
            Decode(block, out) ==
            if p.offset > |out + p.literals| then Err(BeforeBlock)
            else if p.offset == 0 then Err(MidSequence)
            else Decode(p.next, Repeat(out + p.literals, p.offset, p.count))
  {
    hide ParseSequence, Repeat;
  }

  /** The last sequence is literals alone; and a block of no sequences writes nothing. */
  lemma ReadsLast(token: byte, more: bytes, literals: bytes, out: bytes)
    requires Spelled(token as nat / 16, more, |literals|)
    ensures Decode([token] + (more + literals), out) == Ok(out + literals) && Decode([], out) == Ok(out)
  {
    var block := [token] + (more + literals);
    ReadsLength(token as nat / 16, more, |literals|, literals);
    hide Spelled, ReadLength;
    assert block[1..] == more + literals;
  }

  // ----- what the encoder finds -----

  /** The greedy extension stops only at a difference or five bytes before the end. */
  lemma {:induction false} ExtentMaximal(src: bytes, found: nat, pos: nat, length: nat)
    requires found < pos && pos + length <= |src|
    ensures var r := MatchLength(src, found, pos, length);
            pos + r >= |src| - 5 || src[found + r] != src[pos + r]
    decreases |src| - length
  {
    if pos + length < |src| - 5 && src[found + length] == src[pos + length] {
      ExtentMaximal(src, found, pos, length + 1);
    }
  }

  /** The four bytes at `q` come at `p` too, not too far before. */
  ghost predicate Again(src: bytes, p: nat, q: nat) {
    p < q && q + 4 <= |src| && q - p <= 0xFFFF && Four(src, p) == Four(src, q)
  }

  /** The places looked at when the encoder, having stopped at `at`, comes to `q`. */
  function Places(seen: set<nat>, at: nat, q: nat): set<nat> {
    if at >= q then seen else Places(seen, at, q - 1) + {q - 1}
  }

  lemma {:induction false} PlacesAre(seen: set<nat>, at: nat, q: nat)
    ensures forall x: nat :: x in Places(seen, at, q) <==> x in seen || at <= x < q
    decreases q
  {
    if at < q { PlacesAre(seen, at, q - 1); }
  }

  /** The four bytes at `q` come at some place looked at. */
  ghost predicate Repeats(src: bytes, places: set<nat>, q: nat) { exists p: nat | p in places :: Again(src, p, q) }

  /** The first repeat from `at` on; no match may begin within twelve bytes of the end. */
  ghost predicate FirstRepeat(src: bytes, seen: set<nat>, at: nat, q: nat) {
    && at <= q && q + 12 < |src| && Repeats(src, Places(seen, at, q), q)
    && forall r: nat | at <= r < q :: !Repeats(src, Places(seen, at, r), r)
  }

  /** The match there: to the last place its four bytes were, and as long as can be. */
  ghost predicate LongestMatch(src: bytes, places: set<nat>, q: nat, p: nat, length: nat) {
    && p in places && Again(src, p, q)
    && (forall r: nat | r in places && p < r < q :: Four(src, r) != Four(src, q))
    && length >= 4 && q + length <= |src| - 5 && src[p..p + length] == src[q..q + length]
    && (q + length == |src| - 5 || src[p + length] != src[q + length])
  }

  /** A block that goes on from `at` with that match as its sequence. */
  ghost predicate Uses(src: bytes, seen: set<nat>, at: nat, q: nat, p: nat, length: nat, next: bytes, block: bytes) {
    && at <= q && q + length <= |src| && LongestMatch(src, Places(seen, at, q), q, p, length)
    && block == Sequence(src[at..q], q - p, length, next)
  }

  /** A block in which every sequence is the first repeat from where the one before ended, of
      the places looked at so far, which are all but those inside matches; and the last is
      what is left when there is no more. */
  ghost predicate Greedy(src: bytes, seen: set<nat>, at: nat, block: bytes)
    requires at <= |src|
    decreases |src| - at
  {
    && (forall q: nat | FirstRepeat(src, seen, at, q) ::
          exists p: nat, length: nat, next: bytes ::
            Uses(src, seen, at, q, p, length, next, block) && q + length <= |src|
            && Greedy(src, Places(seen, at, q + 1), q + length, next))
    && ((forall q: nat :: !FirstRepeat(src, seen, at, q)) ==> block == LastSequence(src[at..]))
  }

  /** The dictionary names the last of the places looked at for each four bytes. */
  ghost predicate Knows(src: bytes, recent: map<bytes, nat>, seen: set<nat>, pos: nat) {
    && Remembers(src, recent, pos)
    && (forall k | k in recent :: recent[k] in seen)
    && (forall p: nat | p in seen :: p < pos && p + 4 <= |src|)
    && (forall p: nat {:trigger Four(src, p)} | p in seen :: Four(src, p) in recent && p <= recent[Four(src, p)])
  }

  lemma KnowsMore(src: bytes, recent: map<bytes, nat>, seen: set<nat>, pos: nat, next: nat)
    requires pos + 4 <= |src| && pos < next && Knows(src, recent, seen, pos)
    ensures Knows(src, recent[Four(src, pos) := pos], seen + {pos}, next)
  {
    RemembersMore(src, recent, pos, next);
  }

  lemma FoundIff(src: bytes, recent: map<bytes, nat>, seen: set<nat>, pos: nat)
    requires pos + 4 <= |src| && Knows(src, recent, seen, pos)
    ensures var key := Four(src, pos);
            (key in recent && pos - recent[key] <= WINDOW) <==> Repeats(src, seen, pos)
    ensures var key := Four(src, pos);
            key in recent && pos - recent[key] <= WINDOW ==> Again(src, recent[key], pos) && recent[key] in seen
  {
    var key := Four(src, pos);
    if key in recent && pos - recent[key] <= WINDOW {
      assert Four(src, recent[key]) == key;
      assert Again(src, recent[key], pos);
    }
    if p: nat :| p in seen && Again(src, p, pos) { assert Four(src, p) in recent; }
  }

  lemma FourIs(src: bytes, p: nat)
    requires p + 4 <= |src|
    ensures Four(src, p) == src[p..p + 4]
  {
  }

  /** Up to the first repeat the encoder only moves on. */
  lemma {:induction false} MovesOn(src: bytes, recent: map<bytes, nat>, seen: set<nat>, at: nat, pos: nat, q: nat)
    returns (now: map<bytes, nat>)
    requires at <= pos <= q && q + 12 < |src| && Knows(src, recent, Places(seen, at, pos), pos)
    requires forall r: nat | at <= r < q :: !Repeats(src, Places(seen, at, r), r)
    ensures Knows(src, now, Places(seen, at, q), q) && PackFrom(src, recent, at, pos) == PackFrom(src, now, at, q)
    decreases q - pos
  {
    hide LastSequence, Sequence, MatchLength, Repeats, Four;
    if pos == q {
      now := recent;
    } else {
      FoundIff(src, recent, Places(seen, at, pos), pos);
      KnowsMore(src, recent, Places(seen, at, pos), pos, pos + 1);
      FourIs(src, pos);
      var more := recent[src[pos..pos + 4] := pos];
      assert Places(seen, at, pos + 1) == Places(seen, at, pos) + {pos};
      assert PackFrom(src, recent, at, pos) == PackFrom(src, more, at, pos + 1);
      now := MovesOn(src, more, seen, at, pos + 1, q);
    }
  }

  /** And there it takes the longest match to the last place. */
  lemma TakesMatch(src: bytes, recent: map<bytes, nat>, places: set<nat>, at: nat, q: nat)
    returns (p: nat, length: nat, now: map<bytes, nat>)
    requires at <= q && q + 12 < |src| && Knows(src, recent, places, q) && Repeats(src, places, q)
    ensures p < q && q - p <= WINDOW && 4 <= length && q + length <= |src| && Remembers(src, now, q + length)
    ensures LongestMatch(src, places, q, p, length)
    ensures Knows(src, now, places + {q}, q + length)
    ensures PackFrom(src, recent, at, q)
         == Sequence(src[at..q], q - p, length, PackFrom(src, now, q + length, q + length))
  {
    FoundIff(src, recent, places, q);
    FourIs(src, q);
    KnowsRemembers(src, recent, places, q);
    var key := src[q..q + 4];
    p := recent[key];
    AgainFits(src, p, q);
    hide *;
    length := Matched(src, recent, places, q);
    now := recent[key := q];
    KnowsMore(src, recent, places, q, q + length);
    KnowsRemembers(src, now, places + {q}, q + length);
    PackStep(src, recent, at, q, p, length, now);
  }

  lemma PackStep(src: bytes, recent: map<bytes, nat>, at: nat, q: nat, found: nat, length: nat, now: map<bytes, nat>)
    requires at <= q && q + 12 < |src| && Remembers(src, recent, q)
    requires src[q..q + 4] in recent && found == recent[src[q..q + 4]] && found < q && q - found <= WINDOW
    requires q + 4 <= q + length <= |src| && length == MatchLength(src, found, q, 4)
    requires now == recent[src[q..q + 4] := q] && Remembers(src, now, q + length)
    ensures PackFrom(src, recent, at, q)
         == Sequence(src[at..q], q - found, length, PackFrom(src, now, q + length, q + length))
  {
    hide MatchLength, Sequence, Remembers, LastSequence;
  }

  lemma AgainFits(src: bytes, p: nat, q: nat)
    requires Again(src, p, q)
    ensures p < q && q - p <= WINDOW
  {
  }

  lemma Matched(src: bytes, recent: map<bytes, nat>, places: set<nat>, q: nat) returns (length: nat)
    requires q + 12 < |src| && Knows(src, recent, places, q) && Repeats(src, places, q)
    ensures Four(src, q) in recent && recent[Four(src, q)] < q && 4 <= length && q + length <= |src|
    ensures LongestMatch(src, places, q, recent[Four(src, q)], length)
    ensures length == MatchLength(src, recent[Four(src, q)], q, 4)
  {
    FoundIff(src, recent, places, q);
    LastPlace(src, recent, places, q);
    var p := recent[Four(src, q)];
    SameFour(src, p, q);
    hide Knows, Repeats, Four;
    length := MatchLength(src, p, q, 4);
    MatchLengthMatches(src, p, q, 4);
    ExtentMaximal(src, p, q, 4);
    hide MatchLength;
  }

  lemma SameFour(src: bytes, p: nat, q: nat)
    requires Again(src, p, q)
    ensures src[p..p + 4] == src[q..q + 4]
  {
  }

  lemma LastPlace(src: bytes, recent: map<bytes, nat>, places: set<nat>, q: nat)
    requires q + 4 <= |src| && Knows(src, recent, places, q) && Four(src, q) in recent
    ensures forall r: nat | r in places && recent[Four(src, q)] < r < q :: Four(src, r) != Four(src, q)
  {
    hide Four;
    forall r: nat | r in places && recent[Four(src, q)] < r < q
      ensures Four(src, r) != Four(src, q)
    {
      assert r <= recent[Four(src, r)];
    }
  }

  /** From every place it stops at, the encoder is greedy. */
  lemma {:induction false} PackFromGreedy(src: bytes, recent: map<bytes, nat>, seen: set<nat>, at: nat)
    requires at <= |src| && Knows(src, recent, seen, at) && Remembers(src, recent, at)
    ensures Greedy(src, seen, at, PackFrom(src, recent, at, at))
    decreases |src| - at
  {
    hide PackFrom, Knows, Remembers, FirstRepeat, Uses, LastSequence, Places;
    var block := PackFrom(src, recent, at, at);
    forall q: nat | FirstRepeat(src, seen, at, q)
      ensures exists p: nat, length: nat, next: bytes ::
                Uses(src, seen, at, q, p, length, next, block) && q + length <= |src|
                && Greedy(src, Places(seen, at, q + 1), q + length, next)
    {
      var p, length, now := GoesOn(src, recent, seen, at, q);
      PackFromGreedy(src, now, Places(seen, at, q + 1), q + length);
    }
    if forall q: nat :: !FirstRepeat(src, seen, at, q) { NoneUsed(src, recent, seen, at); }
  }

  lemma GoesOn(src: bytes, recent: map<bytes, nat>, seen: set<nat>, at: nat, q: nat)
    returns (p: nat, length: nat, now: map<bytes, nat>)
    requires at <= |src| && Knows(src, recent, seen, at) && Remembers(src, recent, at) && FirstRepeat(src, seen, at, q)
    ensures at < q + length <= |src| && Remembers(src, now, q + length)
    ensures Knows(src, now, Places(seen, at, q + 1), q + length)
    ensures Uses(src, seen, at, q, p, length, PackFrom(src, now, q + length, q + length), PackFrom(src, recent, at, at))
  {
    assert Places(seen, at, at) == seen && Places(seen, at, q + 1) == Places(seen, at, q) + {q};
    hide PackFrom, Knows, Remembers, Repeats, Sequence, LongestMatch, Places;
    var there := MovesOn(src, recent, seen, at, at, q);
    p, length, now := TakesMatch(src, there, Places(seen, at, q), at, q);
  }

  lemma {:induction false} LeastRepeat(src: bytes, seen: set<nat>, at: nat, q: nat) returns (first: nat)
    requires at <= q && q + 12 < |src| && Repeats(src, Places(seen, at, q), q)
    ensures FirstRepeat(src, seen, at, first)
    decreases q
  {
    hide Repeats, Places;
    if r: nat :| at <= r < q && Repeats(src, Places(seen, at, r), r) {
      first := LeastRepeat(src, seen, at, r);
    } else {
      first := q;
    }
  }

  lemma NoneUsed(src: bytes, recent: map<bytes, nat>, seen: set<nat>, at: nat)
    requires at <= |src| && Knows(src, recent, seen, at) && forall q: nat :: !FirstRepeat(src, seen, at, q)
    ensures PackFrom(src, recent, at, at) == LastSequence(src[at..])
  {
    hide Repeats, LastSequence, Sequence, MatchLength, Knows;
    if at + 12 < |src| {
      var q := |src| - 13;
      forall r: nat | at <= r <= q
        ensures !Repeats(src, Places(seen, at, r), r)
      {
        if Repeats(src, Places(seen, at, r), r) { var first := LeastRepeat(src, seen, at, r); }
      }
      var there := MovesOn(src, recent, seen, at, at, q);
      LastStep(src, there, Places(seen, at, q), at, q);
    } else {
      KnowsRemembers(src, recent, seen, at);
    }
  }

  lemma KnowsRemembers(src: bytes, recent: map<bytes, nat>, seen: set<nat>, pos: nat)
    requires Knows(src, recent, seen, pos)
    ensures Remembers(src, recent, pos)
  {
  }

  lemma LastStep(src: bytes, recent: map<bytes, nat>, places: set<nat>, at: nat, q: nat)
    requires at <= q && q + 13 == |src| && Knows(src, recent, places, q) && !Repeats(src, places, q)
    ensures PackFrom(src, recent, at, q) == LastSequence(src[at..])
  {
    hide Repeats, LastSequence, Sequence, MatchLength;
    FoundIff(src, recent, places, q);
    FourIs(src, q);
    KnowsMore(src, recent, places, q, q + 1);
  }

  /** Every block the encoder makes is greedy. */
  lemma PackedGreedy(src: bytes)
    ensures Greedy(src, {}, 0, Packed(src))
  {
    hide Greedy;
    PackFromGreedy(src, map[], {}, 0);
  }
}
