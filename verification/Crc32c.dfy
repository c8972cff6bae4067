/** CRC-32C as `crypto/crc32c.py` computes it: eight tables and eight bytes a turn,
    against the bit-at-a-time definition of section 12.1 of RFC 3720. */
module Crc32c {
  import opened Words

  const POLY: bv32 := 0x82F63B78
  const MASK: bv32 := 0xFFFF_FFFF

  // ----- the definition: a shift register fed one message bit at a time -----

  function Odd(w: bv32): bool { w & 1 == 1 }

  function Half(w: bv32): bv32 { w >> 1 }

  /** One turn of the reflected register: out comes the low bit, the polynomial goes in. */
  function Turn(c: bv32): bv32 {
    if Odd(c) then Xor(Half(c), POLY) else Half(c)
  }

  function Turns(c: bv32, n: nat): bv32
    decreases n
  {
    if n == 0 then c else Turns(Turn(c), n - 1)
  }

  function Bit(b: bool): bv32 { if b then 1 else 0 }

  /** Feeding message bits into the register, first bit first. */
  function FeedBits(c: bv32, bits: seq<bool>): bv32
    decreases |bits|
  {
    if bits == [] then c else FeedBits(Turn(Xor(c, Bit(bits[0]))), bits[1..])
  }

  /** The low `n` bits of `w` in transmission order, least significant first. */
  function BitsOf(w: bv32, n: nat): (r: seq<bool>)
    ensures |r| == n
    decreases n
  {
    if n == 0 then [] else [Odd(w)] + BitsOf(Half(w), n - 1)
  }

  function MessageBits(data: seq<bv8>): seq<bool> {
    if data == [] then [] else BitsOf(data[0] as bv32, 8) + MessageBits(data[1..])
  }

  /** The CRC-32C of `data` chained onto `crc`, by definition. */
  function Reference(data: seq<bv8>, crc: bv32): bv32 {
    Xor(FeedBits(Xor(crc, MASK), MessageBits(data)), MASK)
  }

  // ----- the register is linear and loses nothing -----

  lemma HalfLinear(a: bv32, b: bv32)
    ensures Half(Xor(a, b)) == Xor(Half(a), Half(b))
  {
  }

  lemma OddXor(a: bv32, b: bv32)
    ensures Odd(Xor(a, b)) <==> Odd(a) != Odd(b)
  {
    LowBit(a);
    LowBit(b);
    assert (a ^ b) & 1 == (a & 1) ^ (b & 1);
  }

  lemma LowBit(a: bv32)
    ensures a & 1 == 0 || a & 1 == 1
  {
  }

  lemma TurnLinear(a: bv32, b: bv32)
    ensures Turn(Xor(a, b)) == Xor(Turn(a), Turn(b))
  {
    hide Xor, Odd, Half;
    HalfLinear(a, b);
    OddXor(a, b);
    XorThird(Half(a), Half(b), POLY);
  }

  lemma {:induction false} TurnsLinear(a: bv32, b: bv32, n: nat)
    ensures Turns(Xor(a, b), n) == Xor(Turns(a, n), Turns(b, n))
    decreases n
  {
    hide Turn, Xor;
    if n > 0 {
      TurnLinear(a, b);
      TurnsLinear(Turn(a), Turn(b), n - 1);
    }
  }

  lemma {:induction false} TurnsAdd(c: bv32, m: nat, n: nat)
    ensures Turns(c, m + n) == Turns(Turns(c, m), n)
    decreases m
  {
    hide Turn;
    if m > 0 { TurnsAdd(Turn(c), m - 1, n); }
  }

  /** Undoes `Turn`: the polynomial's top bit is set, so the bit that left can be told. */
  function Unturn(c: bv32): bv32 {
    if c & 0x8000_0000 != 0 then ((c ^ POLY) << 1) | 1 else c << 1
  }

  lemma UnturnTurn(c: bv32)
    ensures Unturn(Turn(c)) == c
  {
  }

  /** No non-zero state ever turns to zero, so no difference is ever forgotten. */
  lemma {:induction false} TurnsInjective(c: bv32, n: nat)
    requires c != 0
    ensures Turns(c, n) != 0
    decreases n
  {
    if n > 0 {
      UnturnTurn(c);
      assert Unturn(0) == 0;
      TurnsInjective(Turn(c), n - 1);
    }
  }

  lemma {:induction false} TurnsZero(n: nat)
    ensures Turns(0, n) == 0
  {
    if n > 0 { TurnsZero(n - 1); }
  }

  lemma Turns4(c: bv32)
    ensures Turns(c, 4) == Turn(Turn(Turn(Turn(c))))
  {
    hide Turn;
    var c1 := Turn(c); var c2 := Turn(c1); var c3 := Turn(c2);
    assert Turns(c, 4) == Turns(c1, 3);
    assert Turns(c1, 3) == Turns(c2, 2);
    assert Turns(c2, 2) == Turns(c3, 1);
  }

  lemma Turns8(c: bv32)
    ensures Turns(c, 8) == Turn(Turn(Turn(Turn(Turn(Turn(Turn(Turn(c))))))))
  {
    hide Turn, Turns;
    TurnsAdd(c, 4, 4);
    Turns4(c);
    Turns4(Turns(c, 4));
  }

  function Low(c: bv32): bv8 { (c & 0xFF) as bv8 }

  function Shr8(c: bv32): bv32 { c >> 8 }

  function Shl8(c: bv32): bv32 { c << 8 }

  function Wide(b: bv8): bv32 { b as bv32 }

  /** A clear low byte is only shifted by eight turns. */
  lemma Turns8Clear(c: bv32)
    requires c & 0xFF == 0
    ensures Turns(c, 8) == Shr8(c)
  {
    Turns8(c);
  }

  lemma LowParts(c: bv32)
    ensures Xor(c & 0xFFFF_FF00, Wide(Low(c))) == c
    ensures (c & 0xFFFF_FF00) & 0xFF == 0
    ensures Shr8(c & 0xFFFF_FF00) == Shr8(c)
  {
  }

  /** Eight turns, as a table on the low byte and a shift of the rest. */
  lemma Turns8Table(c: bv32)
    ensures Turns(c, 8) == Xor(Shr8(c), Turns(Wide(Low(c)), 8))
  {
    hide Turns, Low, Xor, Shr8, Wide;
    LowParts(c);
    TurnsLinear(c & 0xFFFF_FF00, Wide(Low(c)), 8);
    Turns8Clear(c & 0xFFFF_FF00);
  }

  // ----- bytes instead of bits -----

  lemma BitAndRest(w: bv32)
    ensures Xor(Bit(Odd(w)), w & 0xFFFF_FFFE) == w
    ensures Turn(w & 0xFFFF_FFFE) == Half(w)
  {
  }

  lemma TurnSplit(c: bv32, w: bv32)
    ensures Turn(Xor(c, w)) == Xor(Turn(Xor(c, Bit(Odd(w)))), Half(w))
  {
    hide Turn, Xor, Half, Odd, Bit;
    BitAndRest(w);
    XorLaws(c, Bit(Odd(w)), w & 0xFFFF_FFFE);
    TurnLinear(Xor(c, Bit(Odd(w))), w & 0xFFFF_FFFE);
  }

  function ShiftedOut(w: bv32, n: nat): bv32
    decreases n
  {
    if n == 0 then w else ShiftedOut(Half(w), n - 1)
  }

  /** Feeding bits one by one is turning the register with the word already mixed in. */
  lemma {:induction false} FeedBitsIsTurns(c: bv32, w: bv32, n: nat)
    ensures Turns(Xor(c, w), n) == Xor(FeedBits(c, BitsOf(w, n)), ShiftedOut(w, n))
    decreases n
  {
    hide Turn, Xor, Half, Odd, Bit;
    if n > 0 {
      var bits := BitsOf(w, n);
      assert bits[0] == Odd(w) && bits[1..] == BitsOf(Half(w), n - 1);
      TurnSplit(c, w);
      FeedBitsIsTurns(Turn(Xor(c, Bit(Odd(w)))), Half(w), n - 1);
    }
  }

  lemma {:induction false} FeedBitsConcat(c: bv32, x: seq<bool>, y: seq<bool>)
    ensures FeedBits(c, x + y) == FeedBits(FeedBits(c, x), y)
    decreases |x|
  {
    hide Turn, Xor;
    if x == [] {
      assert x + y == y;
    } else {
      assert (x + y)[1..] == x[1..] + y;
      FeedBitsConcat(Turn(Xor(c, Bit(x[0]))), x[1..], y);
    }
  }

  lemma ByteShiftedOut(b: bv8)
    ensures ShiftedOut(b as bv32, 8) == 0
  {
    var w0 := b as bv32;
    var w1 := Half(w0); var w2 := Half(w1); var w3 := Half(w2); var w4 := Half(w3);
    var w5 := Half(w4); var w6 := Half(w5); var w7 := Half(w6);
    assert ShiftedOut(w0, 8) == ShiftedOut(w1, 7);
    assert ShiftedOut(w1, 7) == ShiftedOut(w2, 6);
    assert ShiftedOut(w2, 6) == ShiftedOut(w3, 5);
    assert ShiftedOut(w3, 5) == ShiftedOut(w4, 4);
    assert ShiftedOut(w4, 4) == ShiftedOut(w5, 3);
    assert ShiftedOut(w5, 3) == ShiftedOut(w6, 2);
    assert ShiftedOut(w6, 2) == ShiftedOut(w7, 1);
    assert ShiftedOut(w7, 1) == Half(w7);
  }

  function FeedByte(c: bv32, b: bv8): bv32 { Turns(Xor(c, Wide(b)), 8) }

  function FeedBytes(c: bv32, data: seq<bv8>): bv32
    decreases |data|
  {
    if data == [] then c else FeedBytes(FeedByte(c, data[0]), data[1..])
  }

  lemma FeedByteIsFeedBits(c: bv32, b: bv8)
    ensures FeedByte(c, b) == FeedBits(c, BitsOf(b as bv32, 8))
  {
    hide Turns, BitsOf, FeedBits, ShiftedOut, Xor;
    ByteShiftedOut(b);
    FeedBitsIsTurns(c, b as bv32, 8);
    XorLaws(FeedBits(c, BitsOf(b as bv32, 8)), 0, 0);
  }

  lemma {:induction false} FeedBytesIsFeedBits(c: bv32, data: seq<bv8>)
    ensures FeedBytes(c, data) == FeedBits(c, MessageBits(data))
    decreases |data|
  {
    hide BitsOf, FeedByte, Xor;
    if data != [] {
      FeedByteIsFeedBits(c, data[0]);
      FeedBitsConcat(c, BitsOf(data[0] as bv32, 8), MessageBits(data[1..]));
      FeedBytesIsFeedBits(FeedByte(c, data[0]), data[1..]);
    }
  }

  lemma {:induction false} FeedBytesConcat(c: bv32, x: seq<bv8>, y: seq<bv8>)
    ensures FeedBytes(c, x + y) == FeedBytes(FeedBytes(c, x), y)
    decreases |x|
  {
    hide FeedByte;
    if x == [] {
      assert x + y == y;
    } else {
      assert (x + y)[1..] == x[1..] + y;
      FeedBytesConcat(FeedByte(c, x[0]), x[1..], y);
    }
  }

  lemma FeedBytesAppend(c: bv32, x: seq<bv8>, b: bv8)
    ensures FeedBytes(c, x + [b]) == FeedByte(FeedBytes(c, x), b)
  {
    hide FeedByte;
    FeedBytesConcat(c, x, [b]);
    assert [b][1..] == [];
  }

  // ----- a word at a time -----

  /** Four bytes as the little-endian word the loop mixes in at once. */
  function Word(b0: bv8, b1: bv8, b2: bv8, b3: bv8): bv32 {
    Xor(Wide(b0), Shl8(Xor(Wide(b1), Shl8(Xor(Wide(b2), Shl8(Wide(b3)))))))
  }

  lemma ShlLaws(a: bv32, b: bv8)
    ensures Shl8(a) & 0xFF == 0
    ensures a & 0xFF00_0000 == 0 ==> Shr8(Shl8(a)) == a
    ensures Wide(b) & 0xFFFF_FF00 == 0
  {
  }

  lemma WordFits(b1: bv8, b2: bv8, b3: bv8)
    ensures Wide(b3) & 0xFF00_0000 == 0
    ensures Xor(Wide(b2), Shl8(Wide(b3))) & 0xFF00_0000 == 0
    ensures Xor(Wide(b1), Shl8(Xor(Wide(b2), Shl8(Wide(b3))))) & 0xFF00_0000 == 0
  {
  }

  /** Mixing the rest of a word in before eight turns, shifted up, is mixing it in after. */
  lemma EarlyMix(c: bv32, w: bv32, n: nat)
    requires w & 0xFF00_0000 == 0
    ensures Turns(Xor(c, Shl8(w)), 8 + n) == Turns(Xor(Turns(c, 8), w), n)
  {
    hide Turns, Xor, Shl8, Shr8;
    ShlLaws(w, 0);
    TurnsAdd(Xor(c, Shl8(w)), 8, n);
    TurnsLinear(c, Shl8(w), 8);
    Turns8Clear(Shl8(w));
  }

  lemma FeedWord(c: bv32, b0: bv8, b1: bv8, b2: bv8, b3: bv8)
    ensures FeedByte(FeedByte(FeedByte(FeedByte(c, b0), b1), b2), b3) == Turns(Xor(c, Word(b0, b1, b2, b3)), 32)
  {
    hide Turns, Xor, Shl8, Wide;
    WordFits(b1, b2, b3);
    var w3 := Wide(b3);
    var w2 := Xor(Wide(b2), Shl8(w3));
    var w1 := Xor(Wide(b1), Shl8(w2));
    var c1 := FeedByte(c, b0);
    var c2 := FeedByte(c1, b1);
    var c3 := FeedByte(c2, b2);
    XorLaws(c, Wide(b0), Shl8(w1));
    XorLaws(c1, Wide(b1), Shl8(w2));
    XorLaws(c2, Wide(b2), Shl8(w3));
    EarlyMix(Xor(c, Wide(b0)), w1, 24);
    EarlyMix(Xor(c1, Wide(b1)), w2, 16);
    EarlyMix(Xor(c2, Wide(b2)), w3, 8);
  }

  /** A word's turns, byte by byte through tables of decreasing turns. */
  lemma TurnsByBytes(b0: bv8, b1: bv8, b2: bv8, b3: bv8, n: nat)
    ensures Turns(Word(b0, b1, b2, b3), 24 + n)
         == Xor(Turns(Wide(b0), 24 + n), Xor(Turns(Wide(b1), 16 + n), Xor(Turns(Wide(b2), 8 + n), Turns(Wide(b3), n))))
  {
    hide Turns, Xor, Shl8, Wide;
    WordFits(b1, b2, b3);
    var w3 := Wide(b3);
    var w2 := Xor(Wide(b2), Shl8(w3));
    var w1 := Xor(Wide(b1), Shl8(w2));
    TurnsLinear(Wide(b0), Shl8(w1), 24 + n);
    TurnsShl(w1, 16 + n);
    TurnsLinear(Wide(b1), Shl8(w2), 16 + n);
    TurnsShl(w2, 8 + n);
    TurnsLinear(Wide(b2), Shl8(w3), 8 + n);
    TurnsShl(w3, n);
  }

  lemma TurnsShl(w: bv32, n: nat)
    requires w & 0xFF00_0000 == 0
    ensures Turns(Shl8(w), 8 + n) == Turns(w, n)
  {
    hide Turns, Xor, Shl8;
    EarlyMix(0, w, n);
    TurnsZero(8);
    XorLaws(w, 0, 0);
    XorLaws(Shl8(w), 0, 0);
  }

  // ----- the tables -----

  /** Row k, entry n holds the register after 8(k+1) turns from n. */
  ghost predicate TableRow(row: seq<bv32>, turns: nat) {
    |row| == 256 && forall n | 0 <= n < 256 :: row[n] == Turns(Wide(n as bv8), turns)
  }

  ghost predicate Tables(t: seq<seq<bv32>>) {
    |t| == 8 && forall k | 0 <= k < 8 :: TableRow(t[k], 8 * (k + 1))
  }

  function At(row: seq<bv32>, b: bv8): bv32
    requires |row| == 256
  {
    row[b as int]
  }

  lemma Lookup(row: seq<bv32>, turns: nat, b: bv8)
    requires TableRow(row, turns)
    ensures At(row, b) == Turns(Wide(b), turns)
  {
    hide Turns, Wide;
    assert (b as int) as bv8 == b;
  }

  lemma WideIs(n: int)
    requires 0 <= n < 256
    ensures n as bv32 == Wide(n as bv8)
  {
  }

  method BuildFirst() returns (first: seq<bv32>)
    ensures TableRow(first, 8)
  {
    hide Turn, Wide;
    first := [];
    for n := 0 to 256
      invariant |first| == n
      invariant forall m | 0 <= m < n :: first[m] == Turns(Wide(m as bv8), 8)
    {
      var crc := n as bv32;
      WideIs(n);
      for i := 0 to 8
        invariant Turns(crc, 8 - i) == Turns(Wide(n as bv8), 8)
      {
        crc := Turn(crc);
      }
      first := first + [crc];
    }
  }

  method NextRow(prev: seq<bv32>, first: seq<bv32>, ghost turns: nat) returns (row: seq<bv32>)
    requires TableRow(first, 8) && TableRow(prev, turns)
    ensures TableRow(row, turns + 8)
  {
    hide Turns, Wide, Xor, Shr8, Low;
    row := [];
    for n := 0 to 256
      invariant |row| == n
      invariant forall m | 0 <= m < n :: row[m] == Turns(Wide(m as bv8), turns + 8)
    {
      var v := prev[n];
      Lookup(first, 8, Low(v));
      Turns8Table(v);
      TurnsAdd(Wide(n as bv8), turns, 8);
      row := row + [Xor(Shr8(v), At(first, Low(v)))];
    }
  }

  method BuildTables() returns (t: seq<seq<bv32>>)
    ensures Tables(t)
  {
    hide TableRow;
    var first := BuildFirst();
    t := [first];
    for k := 1 to 8
      invariant |t| == k
      invariant forall j | 0 <= j < k :: TableRow(t[j], 8 * (j + 1))
    {
      var row := NextRow(t[k - 1], first, 8 * k);
      t := t + [row];
    }
  }

  // ----- slice-by-eight -----

  /** Eight bytes through the eight tables. */
  function Slice8(t: seq<seq<bv32>>, c: bv32, d: seq<bv8>): bv32
    requires |t| == 8 && (forall k | 0 <= k < 8 :: |t[k]| == 256) && |d| == 8
  {
    var x := Xor(c, Word(d[0], d[1], d[2], d[3]));
    Xor(At(t[7], Low(x)), Xor(At(t[6], Low(Shr8(x))), Xor(At(t[5], Low(Shr8(Shr8(x)))),
      Xor(At(t[4], Low(Shr8(Shr8(Shr8(x))))),
    Xor(At(t[3], d[4]), Xor(At(t[2], d[5]), Xor(At(t[1], d[6]), At(t[0], d[7]))))))))
  }

  lemma WordOfLows(x: bv32)
    ensures Word(Low(x), Low(Shr8(x)), Low(Shr8(Shr8(x))), Low(Shr8(Shr8(Shr8(x))))) == x
  {
  }

  lemma FeedEight(c: bv32, d: seq<bv8>)
    requires |d| == 8
    ensures FeedBytes(c, d)
         == Xor(Turns(Xor(c, Word(d[0], d[1], d[2], d[3])), 64), Turns(Word(d[4], d[5], d[6], d[7]), 32))
  {
    hide Turns, Xor, Word, FeedBytes, FeedByte;
    var c4 := Turns(Xor(c, Word(d[0], d[1], d[2], d[3])), 32);
    FeedFour(c, d[..4]);
    FeedWord(c, d[0], d[1], d[2], d[3]);
    FeedFour(c4, d[4..]);
    FeedWord(c4, d[4], d[5], d[6], d[7]);
    FeedBytesConcat(c, d[..4], d[4..]);
    assert d[..4] + d[4..] == d;
    TurnsLinear(c4, Word(d[4], d[5], d[6], d[7]), 32);
    TurnsAdd(Xor(c, Word(d[0], d[1], d[2], d[3])), 32, 32);
  }

  lemma FeedFour(c: bv32, d: seq<bv8>)
    requires |d| == 4
    ensures FeedBytes(c, d) == FeedByte(FeedByte(FeedByte(FeedByte(c, d[0]), d[1]), d[2]), d[3])
  {
    hide FeedByte;
    assert d == d[..3] + [d[3]];
    FeedBytesAppend(c, d[..3], d[3]);
    assert d[..3] == d[..2] + [d[2]];
    FeedBytesAppend(c, d[..2], d[2]);
    assert d[..2] == [d[0]] + [d[1]];
    FeedBytesAppend(c, [d[0]], d[1]);
    assert [d[0]][1..] == [];
  }

  lemma XorEight(a: bv32, b: bv32, c: bv32, d: bv32, rest: bv32)
    ensures Xor(Xor(a, Xor(b, Xor(c, d))), rest) == Xor(a, Xor(b, Xor(c, Xor(d, rest))))
  {
    hide Xor;
    XorLaws(a, Xor(b, Xor(c, d)), rest);
    XorLaws(b, Xor(c, d), rest);
    XorLaws(c, d, rest);
  }

  /** One turn of the main loop does what eight bytes do one at a time. */
  lemma Slice8IsFeed(t: seq<seq<bv32>>, c: bv32, d: seq<bv8>)
    requires Tables(t) && |d| == 8
    ensures (forall k | 0 <= k < 8 :: |t[k]| == 256) && Slice8(t, c, d) == FeedBytes(c, d)
  {
    hide Turns, Xor, Word, FeedBytes, At, Low, Shr8, Wide;
    var x := Xor(c, Word(d[0], d[1], d[2], d[3]));
    var x0, x1, x2, x3 := Low(x), Low(Shr8(x)), Low(Shr8(Shr8(x))), Low(Shr8(Shr8(Shr8(x))));
    FeedEight(c, d);
    WordOfLows(x);
    TurnsByBytes(x0, x1, x2, x3, 40);
    TurnsByBytes(d[4], d[5], d[6], d[7], 8);
    Lookup(t[7], 64, x0); Lookup(t[6], 56, x1); Lookup(t[5], 48, x2); Lookup(t[4], 40, x3);
    Lookup(t[3], 32, d[4]); Lookup(t[2], 24, d[5]); Lookup(t[1], 16, d[6]); Lookup(t[0], 8, d[7]);
    XorEight(At(t[7], x0), At(t[6], x1), At(t[5], x2), At(t[4], x3),
             Xor(At(t[3], d[4]), Xor(At(t[2], d[5]), Xor(At(t[1], d[6]), At(t[0], d[7])))));
  }

  lemma HighOfMix(c: bv32, b: bv8)
    ensures Shr8(Xor(c, Wide(b))) == Shr8(c)
  {
  }

  /** The software CRC: eight bytes a turn, then the tail byte by byte. */
  method Compute(t: seq<seq<bv32>>, data: seq<bv8>, crc: bv32) returns (r: bv32)
    requires Tables(t)
    ensures r == Reference(data, crc)
  {
    hide Turns, FeedBytes, FeedByte, MessageBits, FeedBits, TableRow, Xor, Word, At, Low, Shr8, Wide;
    var n := |data|;
    var c := Xor(crc, MASK);
    var i := 0;
    var limit := n - n % 8;
    assert FeedBytes(c, data[..0]) == c by { FeedNoBytes(c); }
    while i < limit
      invariant 0 <= i <= limit <= n && i % 8 == 0 && limit % 8 == 0
      invariant c == FeedBytes(Xor(crc, MASK), data[..i])
    {
      Slice8IsFeed(t, c, data[i..i + 8]);
      FeedBytesConcat(Xor(crc, MASK), data[..i], data[i..i + 8]);
      assert data[..i] + data[i..i + 8] == data[..i + 8];
      c := Slice8(t, c, data[i..i + 8]);
      i := i + 8;
    }
    while i < n
      invariant 0 <= i <= n
      invariant c == FeedBytes(Xor(crc, MASK), data[..i])
    {
      var b := data[i];
      TailStep(t[0], c, b);
      FeedBytesAppend(Xor(crc, MASK), data[..i], b);
      assert data[..i] + [b] == data[..i + 1];
      c := Xor(At(t[0], Low(Xor(c, Wide(b)))), Shr8(c));
      i := i + 1;
    }
    assert data[..n] == data;
    FeedBytesIsFeedBits(Xor(crc, MASK), data);
    r := Xor(c, MASK);
  }

  lemma FeedNoBytes(c: bv32)
    ensures FeedBytes(c, []) == c
  {
  }

  lemma TailStep(row: seq<bv32>, c: bv32, b: bv8)
    requires TableRow(row, 8)
    ensures |row| == 256 && Xor(At(row, Low(Xor(c, Wide(b)))), Shr8(c)) == FeedByte(c, b)
  {
    hide Turns, Xor, At, Low, Shr8, Wide;
    var x := Xor(c, Wide(b));
    Turns8Table(x);
    Lookup(row, 8, Low(x));
    HighOfMix(c, b);
    XorLaws(At(row, Low(x)), Shr8(c), 0);
  }

  // ----- chaining -----

  /** Chaining the checksum of the front into the back gives the checksum of the whole. */
  lemma Chaining(a: seq<bv8>, b: seq<bv8>, crc: bv32)
    ensures Reference(b, Reference(a, crc)) == Reference(a + b, crc)
  {
    hide FeedBits, MessageBits, Xor;
    var start := Xor(crc, MASK);
    FeedBytesIsFeedBits(start, a);
    FeedBytesIsFeedBits(start, a + b);
    FeedBytesIsFeedBits(FeedBytes(start, a), b);
    FeedBytesConcat(start, a, b);
    XorLaws(FeedBytes(start, a), MASK, 0);
  }

  // ----- what the checksum detects -----

  lemma TurnDiffers(a: bv32, b: bv32)
    requires a != b
    ensures Turn(a) != Turn(b)
  {
    UnturnTurn(a);
    UnturnTurn(b);
    hide Turn, Unturn;
  }

  lemma XorDiffers(a: bv32, b: bv32, w: bv32)
    requires a != b
    ensures Xor(a, w) != Xor(b, w)
  {
    hide Xor;
    XorLaws(a, w, 0);
    XorLaws(b, w, 0);
  }

  /** Two registers that differ still differ after any common bits. */
  lemma {:induction false} FeedKeepsDifference(a: bv32, b: bv32, bits: seq<bool>)
    requires a != b
    ensures FeedBits(a, bits) != FeedBits(b, bits)
    decreases |bits|
  {
    hide Turn, Xor, Bit;
    if bits != [] {
      var w := Bit(bits[0]);
      XorDiffers(a, b, w);
      TurnDiffers(Xor(a, w), Xor(b, w));
      FeedKeepsDifference(Turn(Xor(a, w)), Turn(Xor(b, w)), bits[1..]);
    }
  }

  /** `floor` can be halved so many times without losing a bit, and is not zero then. */
  predicate Halves(floor: bv32, n: nat) {
    if n == 0 then floor != 0 else !Odd(floor) && Halves(Half(floor), n - 1)
  }

  lemma {:induction false} HalvesLess(floor: bv32, n: nat, m: nat)
    requires Halves(floor, n) && m <= n
    ensures Halves(floor, m)
    decreases n
  {
    if m > 0 {
      HalvesLess(Half(floor), n - 1, m - 1);
    } else if n > 0 {
      HalvesLess(Half(floor), n - 1, 0);
      assert Half(0) == 0;
    }
  }

  lemma TopBitHalves(n: nat)
    requires n <= 31
    ensures Halves(0x8000_0000, n)
  {
    var w24: bv32 := 0x80_0000;
    var w16: bv32 := 0x8000;
    var w8: bv32 := 0x80;
    assert Halves(w8, 7);
    assert Halves(w16, 15) by { HalvesEight(w16, 7); }
    assert Halves(w24, 23) by { HalvesEight(w24, 15); }
    HalvesEight(0x8000_0000, 23);
    HalvesLess(0x8000_0000, 31, n);
  }

  lemma HalvesEight(floor: bv32, n: nat)
    requires floor & 0xFF == 0 && Halves(floor >> 8, n)
    ensures Halves(floor, n + 8)
  {
    var f1 := Half(floor); var f2 := Half(f1); var f3 := Half(f2); var f4 := Half(f3);
    var f5 := Half(f4); var f6 := Half(f5); var f7 := Half(f6); var f8 := Half(f7);
    assert f8 == floor >> 8;
    assert !Odd(floor) && !Odd(f1) && !Odd(f2) && !Odd(f3) && !Odd(f4) && !Odd(f5) && !Odd(f6) && !Odd(f7);
    hide Half, Odd;
    assert Halves(f7, n + 1);
    assert Halves(f6, n + 2);
    assert Halves(f5, n + 3);
    assert Halves(f4, n + 4);
    assert Halves(f3, n + 5);
    assert Halves(f2, n + 6);
    assert Halves(f1, n + 7);
  }

  predicate AtLeast(d: bv32, floor: bv32) { d >= floor }

  /** One bit moves the highest set bit of a difference down by at most one place: the
      polynomial's own top bit is set. */
  lemma FloorFalls(d: bv32, bit: bool, floor: bv32)
    requires AtLeast(d, floor) && !Odd(floor)
    ensures AtLeast(Turn(Xor(d, Bit(bit))), Half(floor))
  {
  }

  lemma BitsXor(p: bool, q: bool)
    ensures Xor(Bit(p), Bit(q)) == Bit(p != q)
  {
  }

  /** What two registers differ by, one bit each later. */
  lemma DifferenceTurns(a: bv32, b: bv32, p: bool, q: bool)
    ensures Xor(Turn(Xor(a, Bit(p))), Turn(Xor(b, Bit(q)))) == Turn(Xor(Xor(a, b), Bit(p != q)))
  {
    hide Xor, Turn, Bit;
    var u, v := Bit(p), Bit(q);
    TurnLinear(Xor(a, u), Xor(b, v));
    BitsXor(p, q);
    calc {
      Xor(Xor(a, u), Xor(b, v));
      { XorLaws(a, u, Xor(b, v)); XorLaws(u, b, v); XorLaws(u, b, 0); XorLaws(b, u, v); }
      Xor(a, Xor(b, Xor(u, v)));
      { XorLaws(a, b, Xor(u, v)); }
      Xor(Xor(a, b), Xor(u, v));
    }
  }

  /** A difference whose highest bit is high enough outlasts the bits still to come. */
  lemma {:induction false} DifferenceLasts(a: bv32, b: bv32, u: seq<bool>, v: seq<bool>, floor: bv32)
    requires |u| == |v| && Halves(floor, |u|) && AtLeast(Xor(a, b), floor)
    ensures FeedBits(a, u) != FeedBits(b, v)
    decreases |u|
  {
    hide Turn, Bit, Xor, Half, Odd, FeedBits, Halves, AtLeast;
    HalvesOnce(floor, |u|);
    if u == [] {
      FedNone(a);
      FedNone(b);
      NotSame(a, b, floor);
    } else {
      FloorFalls(Xor(a, b), u[0] != v[0], floor);
      DifferenceTurns(a, b, u[0], v[0]);
      FedOne(a, u);
      FedOne(b, v);
      DifferenceLasts(Turn(Xor(a, Bit(u[0]))), Turn(Xor(b, Bit(v[0]))), u[1..], v[1..], Half(floor));
    }
  }

  lemma HalvesOnce(floor: bv32, n: nat)
    requires Halves(floor, n)
    ensures if n == 0 then floor != 0 else !Odd(floor) && Halves(Half(floor), n - 1)
  {
  }

  lemma FedNone(c: bv32)
    ensures FeedBits(c, []) == c
  {
  }

  lemma FedOne(c: bv32, bits: seq<bool>)
    requires bits != []
    ensures FeedBits(c, bits) == FeedBits(Turn(Xor(c, Bit(bits[0]))), bits[1..])
  {
  }

  lemma NotSame(a: bv32, b: bv32, floor: bv32)
    requires AtLeast(Xor(a, b), floor) && floor != 0
    ensures a != b
  {
  }

  lemma FirstDifference(c: bv32, p: bool, q: bool)
    requires p != q
    ensures AtLeast(Xor(Turn(Xor(c, Bit(p))), Turn(Xor(c, Bit(q)))), 0x8000_0000)
  {
    hide Xor, Turn, AtLeast;
    DifferenceTurns(c, c, p, q);
    XorLaws(c, c, 0);
    XorLaws(Bit(true), 0, 0);
    TurnOne();
  }

  lemma TurnOne()
    ensures AtLeast(Turn(1), 0x8000_0000)
  {
  }

  /** Two different strings of at most 32 bits leave one register different. */
  lemma {:induction false} ShortBitsDiffer(c: bv32, u: seq<bool>, v: seq<bool>)
    requires |u| == |v| <= 32 && u != v
    ensures FeedBits(c, u) != FeedBits(c, v)
    decreases |u|
  {
    hide Turn, Bit, Xor, Halves, AtLeast;
    var x, y := u[1..], v[1..];
    assert u == [u[0]] + x && v == [v[0]] + y;
    if u[0] == v[0] {
      ShortBitsDiffer(Turn(Xor(c, Bit(u[0]))), x, y);
    } else {
      FirstDifference(c, u[0], v[0]);
      TopBitHalves(|x|);
      DifferenceLasts(Turn(Xor(c, Bit(u[0]))), Turn(Xor(c, Bit(v[0]))), x, y, 0x8000_0000);
    }
  }

  /** From bit `at`, `width` bits may have changed, at most 32, and no others. */
  ghost predicate BurstAt(x: seq<bv8>, y: seq<bv8>, at: nat, width: nat) {
    var u, v := MessageBits(x), MessageBits(y);
    && at + width <= |u| == |v| && width <= 32
    && u[..at] == v[..at] && u[at + width..] == v[at + width..]
  }

  /** `y` is as long as `x` and differs from it, within 32 consecutive bits. */
  ghost predicate Burst(x: seq<bv8>, y: seq<bv8>) {
    |x| == |y| && x != y && exists at: nat, width: nat :: BurstAt(x, y, at, width)
  }

  /** A burst of up to 32 bits, anywhere in data of any length, changes the checksum. */
  lemma BurstDetected(x: seq<bv8>, y: seq<bv8>, crc: bv32)
    requires Burst(x, y)
    ensures Reference(x, crc) != Reference(y, crc)
  {
    hide FeedBits, MessageBits, Xor;
    var at: nat, width: nat :| BurstAt(x, y, at, width);
    var u, v := MessageBits(x), MessageBits(y);
    if u == v { MessageBitsInjective(x, y); }
    var start := Xor(crc, MASK);
    assert u == u[..at] + (u[at..at + width] + u[at + width..]);
    assert v == u[..at] + (v[at..at + width] + u[at + width..]);
    BurstFeeds(start, u[..at], u[at..at + width], v[at..at + width], u[at + width..]);
    XorDiffers(FeedBits(start, u), FeedBits(start, v), MASK);
  }

  lemma BurstFeeds(start: bv32, front: seq<bool>, u: seq<bool>, v: seq<bool>, back: seq<bool>)
    requires |u| == |v| <= 32 && u != v
    ensures FeedBits(start, front + (u + back)) != FeedBits(start, front + (v + back))
  {
    hide FeedBits;
    var c := FeedBits(start, front);
    FeedBitsConcat(start, front, u + back);
    FeedBitsConcat(start, front, v + back);
    FeedBitsConcat(c, u, back);
    FeedBitsConcat(c, v, back);
    ShortBitsDiffer(c, u, v);
    FeedKeepsDifference(FeedBits(c, u), FeedBits(c, v), back);
  }

  // ----- bytes and their bits -----

  lemma TurnsDiffer(a: bv32, b: bv32, n: nat)
    requires a != b
    ensures Turns(a, n) != Turns(b, n)
  {
    hide Turns, Xor;
    XorLaws(a, b, 0);
    TurnsLinear(a, b, n);
    TurnsInjective(Xor(a, b), n);
    XorLaws(Turns(a, n), Turns(a, n), 0);
  }

  lemma ByteBitsInjective(a: bv8, b: bv8)
    requires BitsOf(a as bv32, 8) == BitsOf(b as bv32, 8)
    ensures a == b
  {
    hide BitsOf, FeedBits, Turns, Xor;
    FeedByteIsFeedBits(0, a);
    FeedByteIsFeedBits(0, b);
    XorLaws(Wide(a), 0, 0);
    XorLaws(Wide(b), 0, 0);
    if Wide(a) != Wide(b) { TurnsDiffer(Wide(a), Wide(b), 8); }
    WideInjective(a, b);
  }

  lemma WideInjective(a: bv8, b: bv8)
    ensures Wide(a) == Wide(b) ==> a == b
  {
  }

  lemma {:induction false} MessageBitsInjective(x: seq<bv8>, y: seq<bv8>)
    requires |x| == |y| && MessageBits(x) == MessageBits(y)
    ensures x == y
    decreases |x|
  {
    hide BitsOf;
    if x != [] {
      var u, v := MessageBits(x), MessageBits(y);
      assert u[..8] == BitsOf(x[0] as bv32, 8) && v[..8] == BitsOf(y[0] as bv32, 8);
      assert u[8..] == MessageBits(x[1..]) && v[8..] == MessageBits(y[1..]);
      ByteBitsInjective(x[0], y[0]);
      MessageBitsInjective(x[1..], y[1..]);
      assert x == [x[0]] + x[1..] && y == [y[0]] + y[1..];
    }
  }

  lemma {:induction false} MessageBitsConcat(x: seq<bv8>, y: seq<bv8>)
    ensures MessageBits(x + y) == MessageBits(x) + MessageBits(y)
    ensures |MessageBits(x)| == 8 * |x|
    decreases |x|
  {
    hide BitsOf;
    if x == [] {
      assert x + y == y;
    } else {
      assert (x + y)[0] == x[0] && (x + y)[1..] == x[1..] + y;
      MessageBitsConcat(x[1..], y);
    }
  }

  /** Whatever is changed within four consecutive bytes is such a burst. */
  lemma FourBytesBurst(front: seq<bv8>, u: seq<bv8>, v: seq<bv8>, back: seq<bv8>)
    requires |u| == |v| <= 4 && u != v
    ensures Burst(front + u + back, front + v + back)
  {
    hide MessageBits;
    var x, y := front + u + back, front + v + back;
    MessageBitsConcat(front + u, back);
    MessageBitsConcat(front + v, back);
    MessageBitsConcat(front, u);
    MessageBitsConcat(front, v);
    MessageBitsConcat(u, []);
    MessageBitsConcat(v, []);
    assert x[|front|..|front| + |u|] == u && y[|front|..|front| + |u|] == v;
    var a, b := MessageBits(x), MessageBits(y);
    assert a[..8 * |front|] == b[..8 * |front|] == MessageBits(front);
    assert a[8 * |front| + 8 * |u|..] == b[8 * |front| + 8 * |u|..] == MessageBits(back);
    assert BurstAt(x, y, 8 * |front|, 8 * |u|);
  }

  // ----- the check value -----

  const DIGITS: seq<bv8> := [0x31, 0x32, 0x33, 0x34, 0x35, 0x36, 0x37, 0x38, 0x39]

  lemma DigitSteps()
    ensures FeedByte(0xFFFF_FFFF, 0x31) == 0x6F0A_661C
    ensures FeedByte(0x6F0A_661C, 0x32) == 0x8CAA_3B9F
    ensures FeedByte(0x8CAA_3B9F, 0x33) == 0xEF84_D04D
    ensures FeedByte(0xEF84_D04D, 0x34) == 0x09C5_0B11
    ensures FeedByte(0x09C5_0B11, 0x35) == 0xE72E_DCCA
    ensures FeedByte(0xE72E_DCCA, 0x36) == 0xBECA_8E79
    ensures FeedByte(0xBECA_8E79, 0x37) == 0xEDBD_6815
    ensures FeedByte(0xEDBD_6815, 0x38) == 0x9F78_7F65
    ensures FeedByte(0x9F78_7F65, 0x39) == 0x1CF9_6D7C
  {
  }

  lemma FedAt(c: bv32, data: seq<bv8>, k: nat, next: bv32)
    requires k < |data| && FeedByte(c, data[k]) == next
    ensures FeedBytes(c, data[k..]) == FeedBytes(next, data[k + 1..])
  {
    hide FeedByte;
    assert data[k..][0] == data[k] && data[k..][1..] == data[k + 1..];
  }

  lemma DigitsFrom1()
    ensures FeedBytes(0xFFFF_FFFF, DIGITS[0..]) == FeedBytes(0xEF84_D04D, DIGITS[3..])
  {
    DigitSteps();
    hide FeedByte, FeedBytes;
    FedAt(0xFFFF_FFFF, DIGITS, 0, 0x6F0A_661C);
    FedAt(0x6F0A_661C, DIGITS, 1, 0x8CAA_3B9F);
    FedAt(0x8CAA_3B9F, DIGITS, 2, 0xEF84_D04D);
  }

  lemma DigitsFrom4()
    ensures FeedBytes(0xEF84_D04D, DIGITS[3..]) == FeedBytes(0xBECA_8E79, DIGITS[6..])
  {
    DigitSteps();
    hide FeedByte, FeedBytes;
    FedAt(0xEF84_D04D, DIGITS, 3, 0x09C5_0B11);
    FedAt(0x09C5_0B11, DIGITS, 4, 0xE72E_DCCA);
    FedAt(0xE72E_DCCA, DIGITS, 5, 0xBECA_8E79);
  }

  lemma DigitsFrom7()
    ensures FeedBytes(0xBECA_8E79, DIGITS[6..]) == FeedBytes(0x1CF9_6D7C, DIGITS[9..])
  {
    DigitSteps();
    hide FeedByte, FeedBytes;
    FedAt(0xBECA_8E79, DIGITS, 6, 0xEDBD_6815);
    FedAt(0xEDBD_6815, DIGITS, 7, 0x9F78_7F65);
    FedAt(0x9F78_7F65, DIGITS, 8, 0x1CF9_6D7C);
  }

  lemma DigitsFed()
    ensures FeedBytes(0xFFFF_FFFF, DIGITS) == 0x1CF9_6D7C
  {
    assert DIGITS[0..] == DIGITS && DIGITS[9..] == [];
    hide FeedBytes, DIGITS;
    DigitsFrom1();
    DigitsFrom4();
    DigitsFrom7();
    FeedNoBytes(0x1CF9_6D7C);
  }

  /** The checksum of the digits 1 to 9, by which CRC-32C is told from the other CRCs. */
  lemma CheckValue()
    ensures Reference(DIGITS, 0) == 0xE306_9283
  {
    DigitsFed();
    assert Xor(0, MASK) == 0xFFFF_FFFF && Xor(0x1CF9_6D7C, MASK) == 0xE306_9283;
    hide FeedBytes, FeedBits, Xor, MessageBits;
    FeedBytesIsFeedBits(0xFFFF_FFFF, DIGITS);
  }
}
