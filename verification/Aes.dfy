/** AES and its CBC mode as `crypto/aes.py` computes them: the round steps in place on a
    16-byte state, the key schedule, and chaining with PKCS#7 padding. */
module Aes {
  import opened Gf256
  import opened AesTables
  import NumberTheory
  import Octets

  type Bytes = seq<bv8>

  const BLOCK_SIZE := 16

  datatype AesError = BadKey | BadBlock | BadIv | NotWholeBlocks | BadPadding

  // ----- steps of a round, on values -----

  function Xored(a: Bytes, b: Bytes): (r: Bytes)
    requires |a| == |b|
    ensures |r| == |a| && forall i | 0 <= i < |a| :: r[i] == Add(a[i], b[i])
  {
    seq(|a|, i requires 0 <= i < |a| => Add(a[i], b[i]))
  }

  function Mapped(table: Bytes, s: Bytes): (r: Bytes)
    requires |table| == 256
    ensures |r| == |s| && forall i | 0 <= i < |s| :: r[i] == At(table, s[i])
  {
    seq(|s|, i requires 0 <= i < |s| => At(table, s[i]))
  }

  /** Section 5.1.2 of FIPS 197: row r rotated left by r places, columns stored in order. */
  function ShiftedRows(s: Bytes): (r: Bytes)
    requires |s| == 16
    ensures |r| == 16
  {
    [s[0], s[5], s[10], s[15], s[4], s[9], s[14], s[3], s[8], s[13], s[2], s[7], s[12], s[1], s[6], s[11]]
  }

  /** Section 5.3.1: each row rotated back. */
  function UnshiftedRows(s: Bytes): (r: Bytes)
    requires |s| == 16
    ensures |r| == 16
  {
    [s[0], s[13], s[10], s[7], s[4], s[1], s[14], s[11], s[8], s[5], s[2], s[15], s[12], s[9], s[6], s[3]]
  }

  /** One byte of a mixed column, from the column's byte, the next one and the column sum. */
  function MixedByte(a: bv8, next: bv8, sum: bv8): bv8 { Add(Add(a, sum), Xtime(Add(a, next))) }

  function SumOf(a: Bytes): bv8
    requires |a| == 4
  {
    Add(Add(Add(a[0], a[1]), a[2]), a[3])
  }

  function MixedColumn(a: Bytes): (r: Bytes)
    requires |a| == 4
    ensures |r| == 4
  {
    var t := SumOf(a);
    [MixedByte(a[0], a[1], t), MixedByte(a[1], a[2], t), MixedByte(a[2], a[3], t), MixedByte(a[3], a[0], t)]
  }

  function UnmixedByte(a: bv8, b: bv8, c: bv8, d: bv8): bv8 {
    Add(Mul(a, 14), Add(Mul(b, 11), Add(Mul(c, 13), Mul(d, 9))))
  }

  function UnmixedColumn(a: Bytes): (r: Bytes)
    requires |a| == 4
    ensures |r| == 4
  {
    [UnmixedByte(a[0], a[1], a[2], a[3]), UnmixedByte(a[1], a[2], a[3], a[0]),
     UnmixedByte(a[2], a[3], a[0], a[1]), UnmixedByte(a[3], a[0], a[1], a[2])]
  }

  /** Columns mixed one after the other. */
  function Mixed(s: Bytes): (r: Bytes)
    requires |s| % 4 == 0
    ensures |r| == |s|
  {
    if s == [] then [] else Mixed(s[..|s| - 4]) + MixedColumn(s[|s| - 4..])
  }

  function Unmixed(s: Bytes): (r: Bytes)
    requires |s| % 4 == 0
    ensures |r| == |s|
  {
    if s == [] then [] else Unmixed(s[..|s| - 4]) + UnmixedColumn(s[|s| - 4..])
  }

  // ----- each step has an inverse -----

  lemma XoredTwice(a: Bytes, k: Bytes)
    requires |a| == |k|
    ensures Xored(Xored(a, k), k) == a
  {
    forall i | 0 <= i < |a|
      ensures Xored(Xored(a, k), k)[i] == a[i]
    {
      AddLaws(a[i], k[i], 0);
    }
  }

  lemma MappedBack(sbox: Bytes, inverse: Bytes, s: Bytes)
    requires Tables(sbox, inverse)
    ensures Mapped(inverse, Mapped(sbox, s)) == s
  {
  }

  lemma UnshiftShift(s: Bytes)
    requires |s| == 16
    ensures UnshiftedRows(ShiftedRows(s)) == s
  {
  }

  // A column and its mixture are linear, so it is enough to look at one byte at a time.

  function Sum4(a: bv8, b: bv8, c: bv8, d: bv8): bv8 { Add(Add(Add(a, b), c), d) }

  lemma Sum4Turns(a: bv8, b: bv8, c: bv8, d: bv8)
    ensures Sum4(a, b, c, d) == Sum4(b, c, d, a)
  {
    hide Add;
    AddLaws(Add(Add(a, b), c), d, 0);
    AddLaws(a, b, c);
    AddLaws(a, Add(b, c), d);
    AddLaws(Add(Add(b, c), d), a, 0);
  }

  lemma Sum4Linear(a: bv8, b: bv8, c: bv8, d: bv8, e: bv8, f: bv8, g: bv8, h: bv8)
    ensures Sum4(Add(a, e), Add(b, f), Add(c, g), Add(d, h)) == Add(Sum4(a, b, c, d), Sum4(e, f, g, h))
  {
    hide Add;
    AddSwap(a, e, b, f);
    AddSwap(Add(a, b), Add(e, f), c, g);
    AddSwap(Add(Add(a, b), c), Add(Add(e, f), g), d, h);
  }

  /** The first byte of the mixture of a column. */
  function First(a: bv8, b: bv8, c: bv8, d: bv8): bv8 { MixedByte(a, b, Sum4(a, b, c, d)) }

  lemma FirstLinear(a: bv8, b: bv8, c: bv8, d: bv8, e: bv8, f: bv8, g: bv8, h: bv8)
    ensures First(Add(a, e), Add(b, f), Add(c, g), Add(d, h)) == Add(First(a, b, c, d), First(e, f, g, h))
  {
    hide Add, Xtime, Sum4;
    var t, u := Sum4(a, b, c, d), Sum4(e, f, g, h);
    Sum4Linear(a, b, c, d, e, f, g, h);
    AddSwap(a, e, t, u);
    AddSwap(a, e, b, f);
    XtimeLinear(Add(a, b), Add(e, f));
    AddSwap(Add(a, t), Add(e, u), Xtime(Add(a, b)), Xtime(Add(e, f)));
  }

  lemma UnmixedByteLinear(a: bv8, b: bv8, c: bv8, d: bv8, e: bv8, f: bv8, g: bv8, h: bv8)
    ensures UnmixedByte(Add(a, e), Add(b, f), Add(c, g), Add(d, h))
         == Add(UnmixedByte(a, b, c, d), UnmixedByte(e, f, g, h))
  {
    hide Add, Mul;
    MulAddLeft(a, e, 14);
    MulAddLeft(b, f, 11);
    MulAddLeft(c, g, 13);
    MulAddLeft(d, h, 9);
    AddSwap(Mul(c, 13), Mul(g, 13), Mul(d, 9), Mul(h, 9));
    AddSwap(Mul(b, 11), Mul(f, 11), Add(Mul(c, 13), Mul(d, 9)), Add(Mul(g, 13), Mul(h, 9)));
    AddSwap(Mul(a, 14), Mul(e, 14), Add(Mul(b, 11), Add(Mul(c, 13), Mul(d, 9))),
      Add(Mul(f, 11), Add(Mul(g, 13), Mul(h, 9))));
  }

  /** The first byte of a column mixed and unmixed. */
  function Recovered(a: bv8, b: bv8, c: bv8, d: bv8): bv8 {
    UnmixedByte(First(a, b, c, d), First(b, c, d, a), First(c, d, a, b), First(d, a, b, c))
  }

  lemma RecoveredLinear(a: bv8, b: bv8, c: bv8, d: bv8, e: bv8, f: bv8, g: bv8, h: bv8)
    ensures Recovered(Add(a, e), Add(b, f), Add(c, g), Add(d, h)) == Add(Recovered(a, b, c, d), Recovered(e, f, g, h))
  {
    hide Add, First, UnmixedByte;
    FirstLinear(a, b, c, d, e, f, g, h);
    FirstLinear(b, c, d, a, f, g, h, e);
    FirstLinear(c, d, a, b, g, h, e, f);
    FirstLinear(d, a, b, c, h, e, f, g);
    UnmixedByteLinear(First(a, b, c, d), First(b, c, d, a), First(c, d, a, b), First(d, a, b, c),
                      First(e, f, g, h), First(f, g, h, e), First(g, h, e, f), First(h, e, f, g));
  }

  lemma FirstOfOne(a: bv8)
    ensures First(a, 0, 0, 0) == Xtime(a)
    ensures First(0, a, 0, 0) == Add(Xtime(a), a)
    ensures First(0, 0, a, 0) == a
    ensures First(0, 0, 0, a) == a
  {
  }

  // Sums of products of one byte and its doublings, in which everything else cancels.

  lemma CancelOne(a: bv8, x1: bv8, x2: bv8, x3: bv8, x4: bv8)
    ensures Add(Add(x2, Add(x3, x4)), Add(Add(a, Add(x1, x3)),
        Add(Add(a, Add(x2, x3)), Add(Add(x1, x4), Add(a, x3))))) == a
  {
    hide Add;
    var p, q, r, s := Add(x2, Add(x3, x4)), Add(a, Add(x1, x3)), Add(a, Add(x2, x3)), Add(Add(x1, x4), Add(a, x3));
    CancelOnePairs(a, x1, x2, x3, x4);
    AddSecond(q, r, s);
    AddLaws(p, r, Add(q, s));
    AddLaws(a, x4, 0);
  }

  lemma CancelOnePairs(a: bv8, x1: bv8, x2: bv8, x3: bv8, x4: bv8)
    ensures Add(Add(x2, Add(x3, x4)), Add(a, Add(x2, x3))) == Add(a, x4)
    ensures Add(Add(a, Add(x1, x3)), Add(Add(x1, x4), Add(a, x3))) == x4
  {
    hide Add;
    var v, w := Add(x2, x3), Add(a, x3);
    AddLaws(x2, x3, x4);
    AddLaws(v, x4, Add(a, v));
    AddLaws(x4, a, v);
    AddLaws(v, Add(x4, a), v);
    AddLaws(Add(x4, a), v, 0);
    AddLaws(v, Add(Add(x4, a), v), 0);
    AddSecond(a, x1, x3);
    AddSwap(x1, w, Add(x1, x4), w);
    AddLaws(w, 0, 0);
    AddLaws(x4, x1, 0);
    AddLaws(x1, x4, 0);
    AddLaws(x1, Add(x4, x1), 0);
    AddLaws(x4, 0, 0);
  }

  lemma UnmixedOfOne(a: bv8)
    ensures UnmixedByte(Xtime(a), a, a, Add(Xtime(a), a)) == a
  {
    hide Add, Mul, Xtime;
    var x1 := Xtime(a); var x2 := Xtime(x1); var x3 := Xtime(x2); var x4 := Xtime(x3);
    MulConstants(a);
    MulConstants(x1);
    MulAddLeft(x1, a, 9);
    CancelOne(a, x1, x2, x3, x4);
  }

  lemma CancelSecond(a: bv8, x1: bv8, x2: bv8, x3: bv8, x4: bv8)
    ensures Add(Add(Add(x2, Add(x3, x4)), Add(x1, Add(x2, x3))),
        Add(Add(x1, Add(x2, x4)), Add(Add(a, Add(x2, x3)), Add(a, x3)))) == 0
  {
  }

  lemma UnmixedOfSecond(a: bv8)
    ensures UnmixedByte(Add(Xtime(a), a), Xtime(a), a, a) == 0
  {
    hide Add, Mul, Xtime;
    var x1 := Xtime(a); var x2 := Xtime(x1); var x3 := Xtime(x2); var x4 := Xtime(x3);
    MulConstants(a);
    MulConstants(x1);
    MulAddLeft(x1, a, 14);
    CancelSecond(a, x1, x2, x3, x4);
  }

  lemma CancelThird(a: bv8, x1: bv8, x2: bv8, x3: bv8, x4: bv8)
    ensures Add(Add(x1, Add(x2, x3)), Add(Add(Add(x1, Add(x2, x4)), Add(a, Add(x1, x3))),
        Add(Add(x1, Add(x3, x4)), Add(a, x3)))) == 0
  {
  }

  lemma UnmixedOfThird(a: bv8)
    ensures UnmixedByte(a, Add(Xtime(a), a), Xtime(a), a) == 0
  {
    hide Add, Mul, Xtime;
    var x1 := Xtime(a); var x2 := Xtime(x1); var x3 := Xtime(x2); var x4 := Xtime(x3);
    MulConstants(a);
    MulConstants(x1);
    MulAddLeft(x1, a, 11);
    CancelThird(a, x1, x2, x3, x4);
  }

  lemma CancelFourth(a: bv8, x1: bv8, x2: bv8, x3: bv8, x4: bv8)
    ensures Add(Add(x1, Add(x2, x3)), Add(Add(a, Add(x1, x3)),
        Add(Add(Add(x1, Add(x3, x4)), Add(a, Add(x2, x3))), Add(x1, x4)))) == 0
  {
    hide Add;
    var a14, a11, a13 := Add(x1, Add(x2, x3)), Add(a, Add(x1, x3)), Add(a, Add(x2, x3));
    var x13, x9 := Add(x1, Add(x3, x4)), Add(x1, x4);
    CancelPairs(a, x1, x2, x3, x4);
    AddLaws(a14, a11, Add(Add(x13, a13), x9));
    AddLaws(x13, a13, x9);
    AddLaws(x13, x9, a13);
    AddLaws(a13, x9, 0);
    AddLaws(Add(a, x2), 0, 0);
  }

  lemma CancelPairs(a: bv8, x1: bv8, x2: bv8, x3: bv8, x4: bv8)
    ensures Add(Add(x1, Add(x2, x3)), Add(a, Add(x1, x3))) == Add(a, x2)
    ensures Add(Add(x1, Add(x3, x4)), Add(x1, x4)) == x3
    ensures Add(x3, Add(a, Add(x2, x3))) == Add(a, x2)
  {
    hide Add;
    var v, w := Add(x1, x3), Add(x1, x4);
    AddSecond(x1, x2, x3);
    AddSecond(x1, x3, x4);
    AddSwap(x2, v, a, v);
    AddLaws(v, 0, 0);
    AddLaws(x2, a, 0);
    AddLaws(Add(x2, a), 0, 0);
    AddLaws(x3, w, 0);
    AddLaws(a, x2, x3);
    AddLaws(Add(a, x2), x3, 0);
    AddLaws(x3, Add(Add(a, x2), x3), 0);
  }

  lemma AddSecond(p: bv8, q: bv8, r: bv8)
    ensures Add(p, Add(q, r)) == Add(q, Add(p, r))
  {
    hide Add;
    AddLaws(p, q, r);
    AddLaws(q, p, r);
  }

  lemma UnmixedOfFourth(a: bv8)
    ensures UnmixedByte(a, a, Add(Xtime(a), a), Xtime(a)) == 0
  {
    hide Add, Mul, Xtime;
    var x1 := Xtime(a); var x2 := Xtime(x1); var x3 := Xtime(x2); var x4 := Xtime(x3);
    MulConstants(a);
    MulConstants(x1);
    MulAddLeft(x1, a, 13);
    CancelFourth(a, x1, x2, x3, x4);
  }

  /** Over GF(2^8) the inverse mixture gives a column's byte back. */
  lemma RecoveredIs(a: bv8, b: bv8, c: bv8, d: bv8)
    ensures Recovered(a, b, c, d) == a
  {
    hide Add, First, UnmixedByte, Xtime, Recovered;
    assert Recovered(a, 0, 0, 0) == a && Recovered(0, b, 0, 0) == 0 && Recovered(0, 0, c, 0) == 0
        && Recovered(0, 0, 0, d) == 0 by { RecoveredOne(a); RecoveredOne(b); RecoveredOne(c); RecoveredOne(d); }
    AddLaws(a, 0, 0);
    AddLaws(b, 0, 0);
    AddLaws(c, 0, 0);
    AddLaws(d, 0, 0);
    AddLaws(0, 0, 0);
    RecoveredLinear(a, 0, 0, 0, 0, b, 0, 0);
    RecoveredLinear(a, b, 0, 0, 0, 0, c, 0);
    RecoveredLinear(a, b, c, 0, 0, 0, 0, d);
  }

  lemma RecoveredOne(a: bv8)
    ensures Recovered(a, 0, 0, 0) == a && Recovered(0, a, 0, 0) == 0
    ensures Recovered(0, 0, a, 0) == 0 && Recovered(0, 0, 0, a) == 0
  {
    hide First, UnmixedByte, Add, Xtime;
    FirstOfOne(a);
    UnmixedOfOne(a);
    UnmixedOfSecond(a);
    UnmixedOfThird(a);
    UnmixedOfFourth(a);
  }

  /** The mixture is the matrix of section 5.1.3 of FIPS 197: each byte is twice itself, three
      times the next, and the other two. */
  lemma MixedIsMatrix(a: Bytes, i: nat)
    requires |a| == 4 && i < 4
    ensures MixedColumn(a)[i] ==
            Add(Add(Mul(a[i], 2), Mul(a[(i + 1) % 4], 3)), Add(a[(i + 2) % 4], a[(i + 3) % 4]))
  {
    hide Add, Mul, Xtime, Sum4, MixedByte;
    Sum4Turns(a[0], a[1], a[2], a[3]);
    Sum4Turns(a[1], a[2], a[3], a[0]);
    Sum4Turns(a[2], a[3], a[0], a[1]);
    SumOfIs(a);
    MulSmall(a[i]);
    MulSmall(a[(i + 1) % 4]);
    RowIs(a[i], a[(i + 1) % 4], a[(i + 2) % 4], a[(i + 3) % 4]);
  }

  lemma SumOfIs(a: Bytes)
    requires |a| == 4
    ensures SumOf(a) == Sum4(a[0], a[1], a[2], a[3])
  {
  }

  lemma RowIs(a: bv8, b: bv8, c: bv8, d: bv8)
    ensures MixedByte(a, b, Sum4(a, b, c, d)) == Add(Add(Xtime(a), Add(b, Xtime(b))), Add(c, d))
  {
    hide Add, Xtime;
    XtimeLinear(a, b);
    RowCancels(a, b, c, d, Xtime(a), Xtime(b));
  }

  lemma RowCancels(a: bv8, b: bv8, c: bv8, d: bv8, xa: bv8, xb: bv8)
    ensures Add(Add(a, Add(Add(Add(a, b), c), d)), Add(xa, xb)) == Add(Add(xa, Add(b, xb)), Add(c, d))
  {
    hide Add;
    RowRest(a, b, c, d);
    RowTurns(b, Add(c, d), xa, xb);
  }

  lemma RowRest(a: bv8, b: bv8, c: bv8, d: bv8)
    ensures Add(a, Add(Add(Add(a, b), c), d)) == Add(b, Add(c, d))
  {
    hide Add;
    var rest := Add(b, Add(c, d));
    AddLaws(Add(a, b), c, d);
    AddLaws(a, b, Add(c, d));
    AddLaws(a, a, rest);
    AddLaws(rest, 0, 0);
  }

  lemma RowTurns(b: bv8, e: bv8, xa: bv8, xb: bv8)
    ensures Add(Add(b, e), Add(xa, xb)) == Add(Add(xa, Add(b, xb)), e)
  {
    hide Add;
    AddSwap(b, e, xa, xb);
    AddLaws(xa, b, xb);
    AddLaws(Add(xa, b), xb, e);
    AddLaws(xb, e, 0);
  }

  lemma UnmixMixColumn(a: Bytes)
    requires |a| == 4
    ensures UnmixedColumn(MixedColumn(a)) == a
  {
    hide Add, MixedByte, UnmixedByte;
    Sum4Turns(a[0], a[1], a[2], a[3]);
    Sum4Turns(a[1], a[2], a[3], a[0]);
    Sum4Turns(a[2], a[3], a[0], a[1]);
    RecoveredIs(a[0], a[1], a[2], a[3]);
    RecoveredIs(a[1], a[2], a[3], a[0]);
    RecoveredIs(a[2], a[3], a[0], a[1]);
    RecoveredIs(a[3], a[0], a[1], a[2]);
  }

  lemma {:induction false} UnmixMix(s: Bytes)
    requires |s| % 4 == 0
    ensures Unmixed(Mixed(s)) == s
    decreases |s|
  {
    hide MixedColumn, UnmixedColumn;
    if s != [] {
      var front, last := s[..|s| - 4], s[|s| - 4..];
      UnmixMix(front);
      UnmixMixColumn(last);
      var m := Mixed(s);
      assert m[..|m| - 4] == Mixed(front) && m[|m| - 4..] == MixedColumn(last);
      assert front + last == s;
    }
  }

  // ----- the steps in place -----

  method AddRoundKey(state: array<bv8>, key: Bytes)
    requires state.Length == 16 && |key| == 16
    modifies state
    ensures state[..] == Xored(old(state[..]), key)
  {
    hide Add;
    for i := 0 to 16
      invariant forall j | 0 <= j < i :: state[j] == Add(old(state[j]), key[j])
      invariant forall j | i <= j < 16 :: state[j] == old(state[j])
    {
      state[i] := Add(state[i], key[i]);
    }
  }

  /** Row `row` of the state, rotated left by `places`. */
  function RowRotated(s: Bytes, row: nat, places: nat): (r: Bytes)
    requires |s| == 16 && 1 <= row < 4 && places < 4
    ensures |r| == 16
  {
    var column := [s[row], s[row + 4], s[row + 8], s[row + 12]];
    var turned := column[places..] + column[..places];
    s[row := turned[0]][row + 4 := turned[1]][row + 8 := turned[2]][row + 12 := turned[3]]
  }

  /** Rows 1 to `row` - 1 rotated, left by their number or right by it. */
  function RowsRotated(s: Bytes, row: nat, right: bool): (r: Bytes)
    requires |s| == 16 && 1 <= row <= 4
    ensures |r| == 16
  {
    if row == 1 then s
    else RowRotated(RowsRotated(s, row - 1, right), row - 1, if right then 4 - (row - 1) else row - 1)
  }

  lemma Row1Left(s: Bytes)
    requires |s| == 16
    ensures RowRotated(s, 1, 1) == [s[0], s[5], s[2], s[3], s[4], s[9], s[6], s[7], s[8], s[13], s[10], s[11], s[12],
        s[1], s[14], s[15]]
  {
  }

  lemma Row2Turned(s: Bytes)
    requires |s| == 16
    ensures RowRotated(s, 2, 2) == [s[0], s[1], s[10], s[3], s[4], s[5], s[14], s[7], s[8], s[9], s[2], s[11], s[12],
        s[13], s[6], s[15]]
  {
  }

  lemma Row3Left(s: Bytes)
    requires |s| == 16
    ensures RowRotated(s, 3, 3) == [s[0], s[1], s[2], s[15], s[4], s[5], s[6], s[3], s[8], s[9], s[10], s[7], s[12],
        s[13], s[14], s[11]]
  {
  }

  lemma Row1Right(s: Bytes)
    requires |s| == 16
    ensures RowRotated(s, 1, 3) == [s[0], s[13], s[2], s[3], s[4], s[1], s[6], s[7], s[8], s[5], s[10], s[11], s[12],
        s[9], s[14], s[15]]
  {
  }

  lemma Row3Right(s: Bytes)
    requires |s| == 16
    ensures RowRotated(s, 3, 1) == [s[0], s[1], s[2], s[7], s[4], s[5], s[6], s[11], s[8], s[9], s[10], s[15], s[12],
        s[13], s[14], s[3]]
  {
  }

  lemma RotatedIsShifted(s: Bytes)
    requires |s| == 16
    ensures RowsRotated(s, 4, false) == ShiftedRows(s)
  {
    hide RowsRotated, RowRotated;
    RowsStep(s, 1, false); RowsStep(s, 2, false); RowsStep(s, 3, false);
    Row1Left(s);
    Row2Turned(RowsRotated(s, 2, false));
    Row3Left(RowsRotated(s, 3, false));
  }

  lemma RotatedIsUnshifted(s: Bytes)
    requires |s| == 16
    ensures RowsRotated(s, 4, true) == UnshiftedRows(s)
  {
    hide RowsRotated, RowRotated;
    RowsStep(s, 1, true); RowsStep(s, 2, true); RowsStep(s, 3, true);
    Row1Right(s);
    Row2Turned(RowsRotated(s, 2, true));
    Row3Right(RowsRotated(s, 3, true));
  }

  lemma RowsStep(s: Bytes, row: nat, right: bool)
    requires |s| == 16 && 1 <= row < 4
    ensures RowsRotated(s, 1, right) == s
    ensures RowsRotated(s, row + 1, right)
         == RowRotated(RowsRotated(s, row, right), row, if right then 4 - row else row)
  {
  }

  method RotateRow(state: array<bv8>, row: nat, places: nat)
    requires state.Length == 16 && 1 <= row < 4 && places < 4
    modifies state
    ensures state[..] == RowRotated(old(state[..]), row, places)
  {
    var column := [state[row], state[row + 4], state[row + 8], state[row + 12]];
    column := column[places..] + column[..places];
    for c := 0 to 4
      invariant c > 0 ==> state[row] == column[0]
      invariant c > 1 ==> state[row + 4] == column[1]
      invariant c > 2 ==> state[row + 8] == column[2]
      invariant c > 3 ==> state[row + 12] == column[3]
      invariant forall i | 0 <= i < 16 && i != row && i != row + 4 && i != row + 8
          && i != row + 12 :: state[i] == old(state[i])
    {
      state[row + 4 * c] := column[c];
    }
  }

  method ShiftRows(state: array<bv8>)
    requires state.Length == 16
    modifies state
    ensures state[..] == ShiftedRows(old(state[..]))
  {
    hide RowRotated, ShiftedRows;
    for row := 1 to 4
      invariant state[..] == RowsRotated(old(state[..]), row, false)
    {
      RotateRow(state, row, row);
    }
    RotatedIsShifted(old(state[..]));
  }

  method InvShiftRows(state: array<bv8>)
    requires state.Length == 16
    modifies state
    ensures state[..] == UnshiftedRows(old(state[..]))
  {
    hide RowRotated, UnshiftedRows;
    for row := 1 to 4
      invariant state[..] == RowsRotated(old(state[..]), row, true)
    {
      RotateRow(state, row, 4 - row);
    }
    RotatedIsUnshifted(old(state[..]));
  }

  lemma {:induction false} MixedStep(s: Bytes, c: nat)
    requires |s| == 16 && c < 4
    ensures Mixed(s[..4 * c + 4]) == Mixed(s[..4 * c]) + MixedColumn(s[4 * c..4 * c + 4])
    ensures Unmixed(s[..4 * c + 4]) == Unmixed(s[..4 * c]) + UnmixedColumn(s[4 * c..4 * c + 4])
  {
    hide MixedColumn, UnmixedColumn;
    var t := s[..4 * c + 4];
    assert t[..|t| - 4] == s[..4 * c] && t[|t| - 4..] == s[4 * c..4 * c + 4];
  }

  /** Column c of the state replaced. */
  method SetColumn(state: array<bv8>, c: nat, column: Bytes)
    requires state.Length == 16 && c < 4 && |column| == 4
    modifies state
    ensures state[..] == old(state[..])[..4 * c] + column + old(state[..])[4 * c + 4..]
  {
    for i := 0 to 4
      invariant forall j | 0 <= j < i :: state[4 * c + j] == column[j]
      invariant forall j | 0 <= j < 16 && !(4 * c <= j < 4 * c + i) :: state[j] == old(state[j])
    {
      state[4 * c + i] := column[i];
    }
  }

  method MixColumn(a: Bytes) returns (r: Bytes)
    requires |a| == 4
    ensures r == MixedColumn(a)
  {
    hide Add, Xtime;
    var t := Add(Add(Add(a[0], a[1]), a[2]), a[3]);
    r := [];
    for i := 0 to 4
      invariant |r| == i
      invariant forall j | 0 <= j < i :: r[j] == MixedByte(a[j], a[(j + 1) % 4], t)
    {
      r := r + [Add(Add(a[i], t), Xtime(Add(a[i], a[(i + 1) % 4])))];
    }
  }

  method UnmixByte(a: bv8, b: bv8, c: bv8, d: bv8) returns (r: bv8)
    ensures r == UnmixedByte(a, b, c, d)
  {
    hide Add, Mul;
    var by14 := Multiply(a, 14);
    var by11 := Multiply(b, 11);
    var by13 := Multiply(c, 13);
    var by9 := Multiply(d, 9);
    r := Add(by14, Add(by11, Add(by13, by9)));
  }

  method InvMixColumn(a: Bytes) returns (r: Bytes)
    requires |a| == 4
    ensures r == UnmixedColumn(a)
  {
    hide UnmixedByte;
    r := [];
    for i := 0 to 4
      invariant |r| == i
      invariant forall j | 0 <= j < i :: r[j] == UnmixedByte(a[j], a[(j + 1) % 4], a[(j + 2) % 4], a[(j + 3) % 4])
    {
      var b := UnmixByte(a[i], a[(i + 1) % 4], a[(i + 2) % 4], a[(i + 3) % 4]);
      r := r + [b];
    }
  }

  lemma ColumnDone(now: Bytes, was: Bytes, c: nat, column: Bytes)
    requires |now| == 16 && |was| == 16 && c < 4 && now[4 * c..] == was[4 * c..]
    ensures now[4 * c..4 * c + 4] == was[4 * c..4 * c + 4]
    ensures |column| == 4 ==>
              var next := now[..4 * c] + column + now[4 * c + 4..];
              next[..4 * c + 4] == now[..4 * c] + column && next[4 * c + 4..] == was[4 * c + 4..]
  {
    assert now[4 * c..4 * c + 4] == now[4 * c..][..4];
    assert was[4 * c..4 * c + 4] == was[4 * c..][..4];
    assert now[4 * c + 4..] == now[4 * c..][4..];
    assert was[4 * c + 4..] == was[4 * c..][4..];
  }

  method MixColumns(state: array<bv8>)
    requires state.Length == 16
    modifies state
    ensures state[..] == Mixed(old(state[..]))
  {
    hide MixedColumn, Mixed, UnmixedColumn, Unmixed;
    ghost var was := state[..];
    MixedNothing();
    for c := 0 to 4
      invariant state[..][..4 * c] == Mixed(was[..4 * c])
      invariant state[..][4 * c..] == was[4 * c..]
    {
      ghost var now := state[..];
      ColumnDone(now, was, c, []);
      var column := MixColumn(state[..][4 * c..4 * c + 4]);
      SetColumn(state, c, column);
      MixedStep(was, c);
      ColumnNext(now, was, c, column, state[..]);
    }
    assert state[..][..16] == state[..] && was[..16] == was;
  }

  /** One more column done, and the rest as it was. */
  lemma ColumnNext(now: Bytes, was: Bytes, c: nat, column: Bytes, next: Bytes)
    requires |now| == 16 && |was| == 16 && c < 4 && |column| == 4 && now[4 * c..] == was[4 * c..]
    requires |next| == 16 && next == now[..4 * c] + column + now[4 * c + 4..]
    ensures next[..4 * (c + 1)] == now[..4 * c] + column && next[4 * (c + 1)..] == was[4 * (c + 1)..]
  {
    ColumnDone(now, was, c, column);
  }

  lemma MixedNothing()
    ensures Mixed([]) == [] && Unmixed([]) == []
  {
  }

  method InvMixColumns(state: array<bv8>)
    requires state.Length == 16
    modifies state
    ensures state[..] == Unmixed(old(state[..]))
  {
    hide MixedColumn, Mixed, UnmixedColumn, Unmixed;
    ghost var was := state[..];
    MixedNothing();
    for c := 0 to 4
      invariant state[..][..4 * c] == Unmixed(was[..4 * c])
      invariant state[..][4 * c..] == was[4 * c..]
    {
      ghost var now := state[..];
      ColumnDone(now, was, c, []);
      var column := InvMixColumn(state[..][4 * c..4 * c + 4]);
      SetColumn(state, c, column);
      MixedStep(was, c);
      ColumnNext(now, was, c, column, state[..]);
    }
    assert state[..][..16] == state[..] && was[..16] == was;
  }

  method Substitute(state: array<bv8>, table: Bytes)
    requires state.Length == 16 && |table| == 256
    modifies state
    ensures state[..] == Mapped(table, old(state[..]))
  {
    hide At;
    for i := 0 to 16
      invariant forall j | 0 <= j < i :: state[j] == At(table, old(state[j]))
      invariant forall j | i <= j < 16 :: state[j] == old(state[j])
    {
      state[i] := At(table, state[i]);
    }
  }

  // ----- the key schedule -----

  const RCON: Bytes := [0x01, 0x02, 0x04, 0x08, 0x10, 0x20, 0x40, 0x80, 0x1B, 0x36, 0x6C, 0xD8, 0xAB, 0x4D]

  function Rounds(keySize: nat): nat { if keySize == 16 then 10 else if keySize == 24 then 12 else 14 }

  ghost predicate KeySize(n: nat) { n == 16 || n == 24 || n == 32 }

  /** The word mixed into word `index`, from the one before it: section 5.2 of FIPS 197. */
  function ScheduleCore(sbox: Bytes, temp: Bytes, nk: nat, index: nat): (r: Bytes)
    requires |sbox| == 256 && |temp| == 4 && 4 <= nk <= 8 && nk <= index < 60
    ensures |r| == 4
  {
    if index % nk == 0 then
      var turned := Mapped(sbox, temp[1..] + temp[..1]);
      turned[0 := Add(turned[0], RCON[index / nk - 1])]
    else if nk > 6 && index % nk == 4 then Mapped(sbox, temp)
    else temp
  }

  lemma RconBound(nk: nat, index: nat)
    requires 4 <= nk <= 8 && nk <= index < 60
    ensures 0 <= index / nk - 1 < 14
  {
  }

  /** The first `n` words of the expanded key. */
  function Words(sbox: Bytes, key: Bytes, n: nat): (r: seq<Bytes>)
    requires |sbox| == 256 && KeySize(|key|) && n <= 60
    ensures |r| == n && forall i | 0 <= i < n :: |r[i]| == 4
  {
    if n == 0 then []
    else
      var before := Words(sbox, key, n - 1);
      var nk := |key| / 4;
      if n <= nk then before + [key[4 * (n - 1)..4 * n]]
      else before + [Xored(before[n - 1 - nk], ScheduleCore(sbox, before[n - 2], nk, n - 1))]
  }

  function RoundKey(words: seq<Bytes>, round: nat): (r: Bytes)
    requires 4 * round + 4 <= |words| && forall i | 0 <= i < |words| :: |words[i]| == 4
    ensures |r| == 16
  {
    words[4 * round] + words[4 * round + 1] + words[4 * round + 2] + words[4 * round + 3]
  }

  function RoundKeys(words: seq<Bytes>, n: nat): (r: seq<Bytes>)
    requires 4 * n <= |words| && forall i | 0 <= i < |words| :: |words[i]| == 4
    ensures |r| == n && forall i | 0 <= i < n :: |r[i]| == 16
  {
    if n == 0 then [] else RoundKeys(words, n - 1) + [RoundKey(words, n - 1)]
  }

  /** The words of a key of any size satisfy the recurrence of the standard. */
  lemma {:induction false} WordsRecurrence(sbox: Bytes, key: Bytes, n: nat, i: nat)
    requires |sbox| == 256 && KeySize(|key|) && i < n <= 60
    ensures var w := Words(sbox, key, n);
            var nk := |key| / 4;
            w[i] == if i < nk then key[4 * i..4 * i + 4] else Xored(w[i - nk], ScheduleCore(sbox, w[i - 1], nk, i))
    decreases n
  {
    hide ScheduleCore;
    if i < n - 1 {
      WordsRecurrence(sbox, key, n - 1, i);
    }
  }

  method Expand(sbox: Bytes, key: Bytes) returns (roundKeys: seq<Bytes>)
    requires |sbox| == 256 && KeySize(|key|)
    ensures var n := Rounds(|key|) + 1;
            roundKeys == RoundKeys(Words(sbox, key, 4 * n), n)
  {
    hide ScheduleCore, RoundKey;
    var nk := |key| / 4;
    var total := 4 * (Rounds(|key|) + 1);
    var words: seq<Bytes> := [];
    for index := 0 to nk
      invariant words == Words(sbox, key, index)
    {
      words := words + [key[4 * index..4 * index + 4]];
    }
    for index := nk to total
      invariant words == Words(sbox, key, index)
    {
      var temp := ScheduleStep(sbox, words[index - 1], nk, index);
      words := words + [Xored(words[index - nk], temp)];
    }
    roundKeys := [];
    for r := 0 to total / 4
      invariant roundKeys == RoundKeys(words, r)
    {
      roundKeys := roundKeys + [RoundKey(words, r)];
    }
  }

  method ScheduleStep(sbox: Bytes, word: Bytes, nk: nat, index: nat) returns (temp: Bytes)
    requires |sbox| == 256 && |word| == 4 && 4 <= nk <= 8 && nk <= index < 60
    ensures temp == ScheduleCore(sbox, word, nk, index)
  {
    hide At, Add;
    temp := word;
    if index % nk == 0 {
      temp := temp[1..] + temp[..1];
      temp := Mapped(sbox, temp);
      RconBound(nk, index);
      temp := temp[0 := Add(temp[0], RCON[index / nk - 1])];
    } else if nk > 6 && index % nk == 4 {
      temp := Mapped(sbox, temp);
    }
  }

  // ----- one block -----

  /** An expanded key: the number of rounds and a 16-byte key for each, and one more. */
  datatype Cipher = Cipher(rounds: nat, keys: seq<Bytes>)

  ghost predicate Usable(c: Cipher) {
    c.rounds > 0 && |c.keys| == c.rounds + 1 && forall i | 0 <= i < |c.keys| :: |c.keys[i]| == 16
  }

  function CipherOf(sbox: Bytes, key: Bytes): (r: Octets.Result<Cipher, AesError>)
    requires |sbox| == 256
    ensures r.Ok? <==> KeySize(|key|)
    ensures r.Ok? ==> Usable(r.value)
  {
    if |key| != 16 && |key| != 24 && |key| != 32 then Octets.Err(BadKey)
    else
      var n := Rounds(|key|) + 1;
      Octets.Ok(Cipher(Rounds(|key|), RoundKeys(Words(sbox, key, 4 * n), n)))
  }

  method NewCipher(sbox: Bytes, key: Bytes) returns (r: Octets.Result<Cipher, AesError>)
    requires |sbox| == 256
    ensures r == CipherOf(sbox, key)
  {
    if |key| != 16 && |key| != 24 && |key| != 32 { return Octets.Err(BadKey); }
    var keys := Expand(sbox, key);
    return Octets.Ok(Cipher(Rounds(|key|), keys));
  }

  /** The state after the opening key and r full rounds. */
  function Forward(sbox: Bytes, c: Cipher, block: Bytes, r: nat): (s: Bytes)
    requires |sbox| == 256 && Usable(c) && |block| == 16 && r < c.rounds
    ensures |s| == 16
  {
    if r == 0 then Xored(block, c.keys[0])
    else Xored(Mixed(ShiftedRows(Mapped(sbox, Forward(sbox, c, block, r - 1)))), c.keys[r])
  }

  function Encrypted(sbox: Bytes, c: Cipher, block: Bytes): (s: Bytes)
    requires |sbox| == 256 && Usable(c) && |block| == 16
    ensures |s| == 16
  {
    Xored(ShiftedRows(Mapped(sbox, Forward(sbox, c, block, c.rounds - 1))), c.keys[c.rounds])
  }

  /** The state on the way back, with rounds down to r undone. */
  function Backward(inverse: Bytes, c: Cipher, block: Bytes, r: nat): (s: Bytes)
    requires |inverse| == 256 && Usable(c) && |block| == 16 && 1 <= r <= c.rounds
    ensures |s| == 16
    decreases c.rounds - r
  {
    if r == c.rounds then Xored(block, c.keys[r])
    else Unmixed(Xored(Mapped(inverse, UnshiftedRows(Backward(inverse, c, block, r + 1))), c.keys[r]))
  }

  function Decrypted(inverse: Bytes, c: Cipher, block: Bytes): (s: Bytes)
    requires |inverse| == 256 && Usable(c) && |block| == 16
    ensures |s| == 16
  {
    Xored(Mapped(inverse, UnshiftedRows(Backward(inverse, c, block, 1))), c.keys[0])
  }

  method EncryptBlock(sbox: Bytes, c: Cipher, block: Bytes) returns (r: Octets.Result<Bytes, AesError>)
    requires |sbox| == 256 && Usable(c)
    ensures |block| != 16 ==> r == Octets.Err(BadBlock)
    ensures |block| == 16 ==> r == Octets.Ok(Encrypted(sbox, c, block))
  {
    hide Mixed, ShiftedRows, Mapped, Xored;
    if |block| != BLOCK_SIZE { return Octets.Err(BadBlock); }
    var state := new bv8[16](i requires 0 <= i < 16 => block[i]);
    assert state[..] == block;
    AddRoundKey(state, c.keys[0]);
    for rnd := 1 to c.rounds
      invariant state[..] == Forward(sbox, c, block, rnd - 1)
    {
      Substitute(state, sbox);
      ShiftRows(state);
      MixColumns(state);
      AddRoundKey(state, c.keys[rnd]);
    }
    Substitute(state, sbox);
    ShiftRows(state);
    AddRoundKey(state, c.keys[c.rounds]);
    return Octets.Ok(state[..]);
  }

  method DecryptBlock(inverse: Bytes, c: Cipher, block: Bytes) returns (r: Octets.Result<Bytes, AesError>)
    requires |inverse| == 256 && Usable(c)
    ensures |block| != 16 ==> r == Octets.Err(BadBlock)
    ensures |block| == 16 ==> r == Octets.Ok(Decrypted(inverse, c, block))
  {
    hide Unmixed, UnshiftedRows, Mapped, Xored;
    if |block| != BLOCK_SIZE { return Octets.Err(BadBlock); }
    var state := new bv8[16](i requires 0 <= i < 16 => block[i]);
    assert state[..] == block;
    AddRoundKey(state, c.keys[c.rounds]);
    var rnd := c.rounds;
    while rnd > 1
      invariant 1 <= rnd <= c.rounds
      invariant state[..] == Backward(inverse, c, block, rnd)
    {
      rnd := rnd - 1;
      InvShiftRows(state);
      Substitute(state, inverse);
      AddRoundKey(state, c.keys[rnd]);
      InvMixColumns(state);
    }
    InvShiftRows(state);
    Substitute(state, inverse);
    AddRoundKey(state, c.keys[0]);
    return Octets.Ok(state[..]);
  }

  /** On the way back, before row r is unshifted, the state is round r's before mixing. */
  lemma {:induction false} BackwardMeetsForward(sbox: Bytes, inverse: Bytes, c: Cipher, block: Bytes, r: nat)
    requires Tables(sbox, inverse) && Usable(c) && |block| == 16 && 1 <= r <= c.rounds
    ensures Backward(inverse, c, Encrypted(sbox, c, block), r) ==
        ShiftedRows(Mapped(sbox, Forward(sbox, c, block, r - 1)))
    decreases c.rounds - r
  {
    hide Mixed, Unmixed, ShiftedRows, UnshiftedRows, Mapped, Xored, Tables;
    assert |sbox| == 256 && |inverse| == 256 by { TableSizes(sbox, inverse); }
    var before := Forward(sbox, c, block, r - 1);
    var shifted := ShiftedRows(Mapped(sbox, before));
    if r == c.rounds {
      XoredTwice(shifted, c.keys[r]);
    } else {
      BackwardMeetsForward(sbox, inverse, c, block, r + 1);
      var here := Forward(sbox, c, block, r);
      UnshiftShift(Mapped(sbox, here));
      MappedBack(sbox, inverse, here);
      XoredTwice(Mixed(shifted), c.keys[r]);
      UnmixMix(shifted);
    }
  }

  lemma TableSizes(sbox: Bytes, inverse: Bytes)
    requires Tables(sbox, inverse)
    ensures |sbox| == 256 && |inverse| == 256
  {
  }

  /** Decryption undoes encryption, for every expanded key and block. */
  lemma DecryptEncrypt(sbox: Bytes, inverse: Bytes, c: Cipher, block: Bytes)
    requires Tables(sbox, inverse) && Usable(c) && |block| == 16
    ensures Decrypted(inverse, c, Encrypted(sbox, c, block)) == block
  {
    hide Mixed, Unmixed, ShiftedRows, UnshiftedRows, Mapped, Xored, Tables, Backward;
    assert |sbox| == 256 && |inverse| == 256 by { TableSizes(sbox, inverse); }
    BackwardMeetsForward(sbox, inverse, c, block, 1);
    var start := Forward(sbox, c, block, 0);
    UnshiftShift(Mapped(sbox, start));
    MappedBack(sbox, inverse, start);
    XoredTwice(block, c.keys[0]);
  }

  // ----- PKCS#7 -----

  function Repeated(b: bv8, n: nat): (r: Bytes)
    ensures |r| == n && forall i | 0 <= i < n :: r[i] == b
  {
    seq(n, _ => b)
  }

  function Padded(data: Bytes, size: nat): (r: Bytes)
    requires 1 <= size <= 255
    ensures |r| % size == 0 && |data| < |r| <= |data| + size
  {
    var pad := size - |data| % size;
    PadLength(|data|, size);
    data + Repeated(pad as bv8, pad)
  }

  lemma PadLength(n: nat, size: nat)
    requires 1 <= size
    ensures (n + (size - n % size)) % size == 0
  {
    var q := n / size;
    assert n == q * size + n % size;
    assert n + (size - n % size) == (q + 1) * size by { assert (q + 1) * size == q * size + size; }
    MultipleMod(q + 1, size);
  }

  lemma MultipleMod(k: int, size: int)
    requires size > 0
    ensures (k * size) % size == 0
  {
    NumberTheory.MultipleIsZero(k, size);
  }

  function Unpadded(data: Bytes, size: nat): Octets.Result<Bytes, AesError>
    requires 1 <= size <= 255
  {
    if data == [] || |data| % size != 0 then Octets.Err(NotWholeBlocks)
    else
      var pad := data[|data| - 1] as int;
      if !(1 <= pad <= size) || |data| < pad || data[|data| - pad..] != Repeated(pad as bv8, pad)
      then Octets.Err(BadPadding)
      else Octets.Ok(data[..|data| - pad])
  }

  lemma PadOf(n: nat, pad: nat, size: nat)
    requires 1 <= pad <= size && pad <= n && n % size == 0
    ensures size - (n - pad) % size == pad
  {
    var q := n / size;
    assert n == q * size;
    if pad == size {
      assert n - pad == (q - 1) * size;
      MultipleMod(q - 1, size);
    } else {
      assert n - pad == (q - 1) * size + (size - pad);
      NumberTheory.ModIs(n - pad, q - 1, size - pad, size);
    }
  }

  lemma NextByte(b: bv8)
    requires b != 255
    ensures (b + 1) as int == b as int + 1
  {
  }

  function ByteOf(n: nat): (b: bv8)
    requires n < 256
    ensures b as int == n
  {
    if n == 0 then 0 else var before := ByteOf(n - 1); NextByte(before); before + 1
  }

  lemma ByteOfInt(b: bv8, n: int)
    requires b as int == n
    ensures n as bv8 == b
  {
  }

  lemma UnpadPadded(data: Bytes, size: nat)
    requires 1 <= size <= 255
    ensures Unpadded(Padded(data, size), size) == Octets.Ok(data)
  {
    var pad := size - |data| % size;
    ByteOfInt(ByteOf(pad), pad);
    assert Padded(data, size) == data + Repeated(ByteOf(pad), pad);
    PadLength(|data|, size);
    hide Unpadded, Padded, Repeated, ByteOf;
    UnpadOne(data, ByteOf(pad), pad, size);
  }

  lemma UnpadOne(data: Bytes, b: bv8, pad: nat, size: nat)
    requires 1 <= pad <= size <= 255 && (|data| + pad) % size == 0 && b as int == pad && pad as bv8 == b
    ensures Unpadded(data + Repeated(b, pad), size) == Octets.Ok(data)
  {
    PadEnds(data, b, pad);
    hide Repeated;
  }

  lemma PadEnds(data: Bytes, b: bv8, pad: nat)
    requires pad >= 1
    ensures var padded := data + Repeated(b, pad);
            padded[|padded| - 1] == b && padded[|padded| - pad..] == Repeated(b, pad)
              && padded[..|padded| - pad] == data
  {
  }

  lemma PadUnpadded(padded: Bytes, size: nat)
    requires 1 <= size <= 255 && Unpadded(padded, size).Ok?
    ensures Padded(Unpadded(padded, size).value, size) == padded
  {
    var pad := padded[|padded| - 1] as int;
    PadOf(|padded|, pad, size);
    assert padded == padded[..|padded| - pad] + padded[|padded| - pad..];
  }

  /** Stripping succeeds exactly on what padding makes, and then undoes it. */
  lemma UnpadIff(padded: Bytes, data: Bytes, size: nat)
    requires 1 <= size <= 255
    ensures Unpadded(padded, size) == Octets.Ok(data) <==> padded == Padded(data, size)
  {
    hide Unpadded, Padded;
    UnpadPadded(data, size);
    if Unpadded(padded, size).Ok? { PadUnpadded(padded, size); }
  }

  // ----- chaining -----

  /** CBC over whole blocks: each block is mixed with the ciphertext before it. */
  function Chained(sbox: Bytes, c: Cipher, data: Bytes, previous: Bytes): (r: Bytes)
    requires |sbox| == 256 && Usable(c) && |previous| == 16 && |data| % 16 == 0
    ensures |r| == |data|
    decreases |data|
  {
    if data == [] then []
    else
      var block := Encrypted(sbox, c, Xored(data[..16], previous));
      block + Chained(sbox, c, data[16..], block)
  }

  function Unchained(inverse: Bytes, c: Cipher, data: Bytes, previous: Bytes): (r: Bytes)
    requires |inverse| == 256 && Usable(c) && |previous| == 16 && |data| % 16 == 0
    ensures |r| == |data|
    decreases |data|
  {
    if data == [] then []
    else Xored(Decrypted(inverse, c, data[..16]), previous) + Unchained(inverse, c, data[16..], data[..16])
  }

  lemma {:induction false} UnchainChain(sbox: Bytes, inverse: Bytes, c: Cipher, data: Bytes, previous: Bytes)
    requires Tables(sbox, inverse) && Usable(c) && |previous| == 16 && |data| % 16 == 0
    ensures Unchained(inverse, c, Chained(sbox, c, data, previous), previous) == data
    decreases |data|
  {
    hide Encrypted, Decrypted, Xored, Tables;
    assert |sbox| == 256 && |inverse| == 256 by { TableSizes(sbox, inverse); }
    if data != [] {
      var first := data[..16];
      var block := Encrypted(sbox, c, Xored(first, previous));
      var out := Chained(sbox, c, data, previous);
      assert out[..16] == block && out[16..] == Chained(sbox, c, data[16..], block);
      DecryptEncrypt(sbox, inverse, c, Xored(first, previous));
      XoredTwice(first, previous);
      UnchainChain(sbox, inverse, c, data[16..], block);
      assert first + data[16..] == data;
    }
  }

  function CbcEncrypted(sbox: Bytes, key: Bytes, data: Bytes, iv: Bytes, pad: bool): Octets.Result<Bytes, AesError>
    requires |sbox| == 256
  {
    if |iv| != 16 then Octets.Err(BadIv)
    else
      var plain := if pad then Padded(data, 16) else data;
      if |plain| % 16 != 0 then Octets.Err(NotWholeBlocks)
      else
        match CipherOf(sbox, key)
        case Err(e) => Octets.Err(e)
        case Ok(c) => Octets.Ok(Chained(sbox, c, plain, iv))
  }

  function CbcDecrypted(sbox: Bytes, inverse: Bytes, key: Bytes, data: Bytes, iv: Bytes, pad: bool)
    : Octets.Result<Bytes, AesError>
    requires |sbox| == 256 && |inverse| == 256
  {
    if |iv| != 16 then Octets.Err(BadIv)
    else if data == [] || |data| % 16 != 0 then Octets.Err(NotWholeBlocks)
    else
      match CipherOf(sbox, key)
      case Err(e) => Octets.Err(e)
      case Ok(c) =>
        var out := Unchained(inverse, c, data, iv);
        if pad then Unpadded(out, 16) else Octets.Ok(out)
  }

  /** Padded CBC gives data of any length back, under every key size; unpadded CBC gives
      whole blocks back, except that it refuses the empty string. */
  lemma CbcRoundTrip(sbox: Bytes, inverse: Bytes, key: Bytes, data: Bytes, iv: Bytes, pad: bool)
    requires Tables(sbox, inverse)
    ensures |sbox| == 256 && |inverse| == 256
    ensures CbcEncrypted(sbox, key, data, iv, pad).Ok? <==>
            |iv| == 16 && (|key| == 16 || |key| == 24 || |key| == 32) && (pad || |data| % 16 == 0)
    ensures CbcEncrypted(sbox, key, data, iv, pad).Ok? ==>
            CbcDecrypted(sbox, inverse, key, CbcEncrypted(sbox, key, data, iv, pad).value, iv, pad)
            == if !pad && data == [] then Octets.Err(NotWholeBlocks) else Octets.Ok(data)
  {
    hide Chained, Unchained, Padded, Unpadded, Tables;
    assert |sbox| == 256 && |inverse| == 256 by { TableSizes(sbox, inverse); }
    if CbcEncrypted(sbox, key, data, iv, pad).Ok? {
      var c := CipherOf(sbox, key).value;
      var plain := if pad then Padded(data, 16) else data;
      UnchainChain(sbox, inverse, c, plain, iv);
      UnpadIff(Padded(data, 16), data, 16);
    }
  }

  method CbcEncrypt(sbox: Bytes, key: Bytes, data: Bytes, iv: Bytes, pad: bool)
    returns (r: Octets.Result<Bytes, AesError>)
    requires |sbox| == 256
    ensures r == CbcEncrypted(sbox, key, data, iv, pad)
  {
    hide Encrypted, Xored, Padded, Usable, CipherOf;
    if |iv| != BLOCK_SIZE { return Octets.Err(BadIv); }
    var plain := if pad then Padded(data, 16) else data;
    if |plain| % BLOCK_SIZE != 0 { return Octets.Err(NotWholeBlocks); }
    var made := NewCipher(sbox, key);
    if made.Err? { return Octets.Err(made.error); }
    var out := ChainBlocks(sbox, made.value, plain, iv);
    return Octets.Ok(out);
  }

  method ChainBlocks(sbox: Bytes, c: Cipher, plain: Bytes, iv: Bytes) returns (out: Bytes)
    requires |sbox| == 256 && Usable(c) && |iv| == 16 && |plain| % 16 == 0
    ensures out == Chained(sbox, c, plain, iv)
  {
    hide Encrypted, Xored, Usable;
    var previous := iv;
    out := [];
    var start := 0;
    assert plain[0..] == plain;
    while start < |plain|
      invariant 0 <= start <= |plain| && start % 16 == 0 && |previous| == 16
      invariant out + Chained(sbox, c, plain[start..], previous) == Chained(sbox, c, plain, iv)
    {
      assert plain[start..][..16] == plain[start..start + 16] && plain[start..][16..] == plain[start + 16..];
      var block := EncryptBlock(sbox, c, Xored(plain[start..start + 16], previous));
      ghost var more := Chained(sbox, c, plain[start + 16..], block.value);
      assert out + (block.value + more) == (out + block.value) + more;
      previous := block.value;
      out := out + previous;
      start := start + 16;
    }
    assert plain[start..] == [] && out + [] == out;
  }

  method CbcDecrypt(sbox: Bytes, inverse: Bytes, key: Bytes, data: Bytes, iv: Bytes, pad: bool)
    returns (r: Octets.Result<Bytes, AesError>)
    requires |sbox| == 256 && |inverse| == 256
    ensures r == CbcDecrypted(sbox, inverse, key, data, iv, pad)
  {
    hide Decrypted, Xored, Unpadded, Usable, CipherOf;
    if |iv| != BLOCK_SIZE { return Octets.Err(BadIv); }
    if data == [] || |data| % BLOCK_SIZE != 0 { return Octets.Err(NotWholeBlocks); }
    var made := NewCipher(sbox, key);
    if made.Err? { return Octets.Err(made.error); }
    var c := made.value;
    var previous, out := iv, [];
    var start := 0;
    assert data[0..] == data;
    while start < |data|
      invariant 0 <= start <= |data| && start % 16 == 0 && |previous| == 16
      invariant out + Unchained(inverse, c, data[start..], previous) == Unchained(inverse, c, data, iv)
    {
      var block := data[start..start + 16];
      assert data[start..][..16] == block && data[start..][16..] == data[start + 16..];
      var plain := DecryptBlock(inverse, c, block);
      ghost var more := Unchained(inverse, c, data[start + 16..], block);
      assert out + (Xored(plain.value, previous) + more) == (out + Xored(plain.value, previous)) + more;
      out := out + Xored(plain.value, previous);
      previous := block;
      start := start + 16;
    }
    assert data[start..] == [] && out + [] == out;
    if pad { return Unpadded(out, 16); }
    return Octets.Ok(out);
  }
}
