/** Arithmetic in GF(2^8) modulo the AES polynomial, and the walk of the generator 3 that
    `crypto/aes.py` fills its S-box with. */
module Gf256 {
  import NumberTheory

  /** Addition in the field. */
  function Add(a: bv8, b: bv8): bv8 { a ^ b }

  /** Multiplication by x. */
  function Xtime(a: bv8): bv8 { if a & 0x80 != 0 then (a << 1) ^ 0x1B else a << 1 }

  function Pick(on: bool, a: bv8): bv8 { if on then a else 0 }

  function Odd(b: bv8): bool { b & 1 == 1 }

  function Half(b: bv8): bv8 { b >> 1 }

  /** Multiplication, shift and add. */
  function Mul(a: bv8, b: bv8): bv8
    decreases b
  {
    if b == 0 then 0 else Add(Pick(Odd(b), a), Mul(Xtime(a), Half(b)))
  }

  method Multiply(a: bv8, b: bv8) returns (out: bv8)
    ensures out == Mul(a, b)
  {
    hide Add, Xtime, Pick, Odd;
    out := 0;
    var x, y := a, b;
    AddLaws(Mul(a, b), 0, 0);
    while y != 0
      invariant Add(out, Mul(x, y)) == Mul(a, b)
      decreases y
    {
      AddLaws(out, Pick(Odd(y), x), Mul(Xtime(x), Half(y)));
      if Odd(y) {
        assert Pick(Odd(y), x) == x by { PickLaws(x); }
        out := Add(out, x);
      } else {
        assert Pick(Odd(y), x) == 0 by { PickLaws(x); }
        AddLaws(out, 0, 0);
      }
      x := Xtime(x);
      y := Half(y);
    }
    AddLaws(out, 0, 0);
  }

  lemma PickLaws(a: bv8)
    ensures Pick(true, a) == a && Pick(false, a) == 0
  {
  }

  // ----- addition and Xtime -----

  lemma AddLaws(a: bv8, b: bv8, c: bv8)
    ensures Add(Add(a, b), c) == Add(a, Add(b, c))
    ensures Add(a, b) == Add(b, a)
    ensures Add(a, 0) == a && Add(0, a) == a && Add(a, a) == 0
    ensures Add(Add(a, b), b) == a
  {
  }

  /** Sums of sums, regrouped. */
  lemma AddSwap(a: bv8, b: bv8, c: bv8, d: bv8)
    ensures Add(Add(a, b), Add(c, d)) == Add(Add(a, c), Add(b, d))
  {
    hide Add;
    AddLaws(a, b, Add(c, d));
    AddLaws(b, c, d);
    AddLaws(c, b, d);
    AddLaws(a, c, Add(b, d));
  }

  lemma XtimeLinear(a: bv8, b: bv8)
    ensures Xtime(Add(a, b)) == Add(Xtime(a), Xtime(b))
  {
    assert (a ^ b) << 1 == (a << 1) ^ (b << 1);
    assert (a ^ b) & 0x80 == (a & 0x80) ^ (b & 0x80);
    TopBit(a);
    TopBit(b);
  }

  lemma TopBit(a: bv8)
    ensures a & 0x80 == 0 || a & 0x80 == 0x80
  {
  }

  // ----- multiplication is bilinear -----

  lemma PickLinear(on: bool, a: bv8, b: bv8)
    ensures Pick(on, Add(a, b)) == Add(Pick(on, a), Pick(on, b))
    ensures Pick(on, Xtime(a)) == Xtime(Pick(on, a))
    ensures Xtime(0) == 0
  {
  }

  lemma {:induction false} MulZero(b: bv8)
    ensures Mul(0, b) == 0
    decreases b
  {
    if b != 0 {
      MulZero(Half(b));
    }
  }

  lemma {:induction false} MulAddLeft(a: bv8, c: bv8, b: bv8)
    ensures Mul(Add(a, c), b) == Add(Mul(a, b), Mul(c, b))
    decreases b
  {
    hide Add, Xtime, Pick, Odd;
    if b == 0 {
      AddLaws(0, 0, 0);
    } else {
      XtimeLinear(a, c);
      MulAddLeft(Xtime(a), Xtime(c), Half(b));
      PickLinear(Odd(b), a, c);
      AddSwap(Pick(Odd(b), a), Pick(Odd(b), c), Mul(Xtime(a), Half(b)), Mul(Xtime(c), Half(b)));
    }
  }

  lemma {:induction false} MulXtimeLeft(a: bv8, b: bv8)
    ensures Mul(Xtime(a), b) == Xtime(Mul(a, b))
    decreases b
  {
    hide Add, Xtime, Pick, Odd;
    PickLinear(true, 0, 0);
    if b != 0 {
      MulXtimeLeft(Xtime(a), Half(b));
      PickLinear(Odd(b), a, a);
      XtimeLinear(Pick(Odd(b), a), Mul(Xtime(a), Half(b)));
    }
  }

  lemma HalfAdd(b: bv8, c: bv8)
    ensures Half(Add(b, c)) == Add(Half(b), Half(c))
    ensures Odd(Add(b, c)) <==> Odd(b) != Odd(c)
  {
    LowBit(b);
    LowBit(c);
    assert (b ^ c) & 1 == (b & 1) ^ (c & 1);
  }

  lemma LowBit(a: bv8)
    ensures a & 1 == 0 || a & 1 == 1
  {
  }

  lemma PickXor(x: bool, y: bool, a: bv8)
    ensures Pick(x != y, a) == Add(Pick(x, a), Pick(y, a))
  {
  }

  /** The recursion also holds at zero. */
  lemma MulStep(a: bv8, b: bv8)
    ensures Mul(a, b) == Add(Pick(Odd(b), a), Mul(Xtime(a), Half(b)))
  {
    if b == 0 { AddLaws(0, 0, 0); }
  }

  lemma {:induction false} MulAddRight(a: bv8, b: bv8, c: bv8)
    ensures Mul(a, Add(b, c)) == Add(Mul(a, b), Mul(a, c))
    decreases b | c
  {
    hide Add, Xtime, Pick, Odd, Mul;
    if b == 0 {
      AddLaws(c, 0, 0);
      MulAtZero(a);
      AddLaws(Mul(a, c), 0, 0);
    } else if c == 0 {
      AddLaws(b, 0, 0);
      MulAtZero(a);
      AddLaws(Mul(a, b), 0, 0);
    } else {
      HalfOr(b, c);
      HalfAdd(b, c);
      MulStep(a, b);
      MulStep(a, c);
      MulStep(a, Add(b, c));
      MulAddRight(Xtime(a), Half(b), Half(c));
      PickXor(Odd(b), Odd(c), a);
      AddSwap(Pick(Odd(b), a), Pick(Odd(c), a), Mul(Xtime(a), Half(b)), Mul(Xtime(a), Half(c)));
    }
  }

  lemma MulAtZero(a: bv8)
    ensures Mul(a, 0) == 0
  {
  }

  lemma HalfOr(b: bv8, c: bv8)
    requires b != 0
    ensures Half(b) | Half(c) < b | c
  {
  }

  lemma MulConstants(a: bv8)
    ensures Mul(a, 9) == Add(a, Xtime(Xtime(Xtime(a))))
    ensures Mul(a, 11) == Add(a, Add(Xtime(a), Xtime(Xtime(Xtime(a)))))
    ensures Mul(a, 13) == Add(a, Add(Xtime(Xtime(a)), Xtime(Xtime(Xtime(a)))))
    ensures Mul(a, 14) == Add(Xtime(a), Add(Xtime(Xtime(a)), Xtime(Xtime(Xtime(a)))))
  {
    hide Xtime, Add;
    var a1 := Xtime(a); var a2 := Xtime(a1); var a3 := Xtime(a2);
    One(a3);
    MulStep(a2, 3); MulStep(a2, 2);
    MulStep(a1, 4); MulStep(a1, 5); MulStep(a1, 6); MulStep(a1, 7);
    MulStep(a, 9); MulStep(a, 11); MulStep(a, 13); MulStep(a, 14);
    AddLaws(a3, 0, 0); AddLaws(Add(a2, a3), 0, 0); AddLaws(Add(a1, a3), 0, 0); AddLaws(Add(a1, Add(a2, a3)), 0, 0);
  }

  lemma MulSmall(a: bv8)
    ensures Mul(a, 2) == Xtime(a) && Mul(a, 3) == Add(a, Xtime(a))
  {
    hide Xtime, Add;
    One(Xtime(a));
    MulStep(a, 2);
    MulStep(a, 3);
    AddLaws(Xtime(a), 0, 0);
  }

  lemma One(a: bv8)
    ensures Mul(a, 1) == a
  {
    hide Xtime;
    MulAtZero(Xtime(a));
    AddLaws(a, 0, 0);
  }

  // ----- and commutative and associative -----

  lemma HalfAndLow(b: bv8)
    ensures b == Add(Pick(Odd(b), 1), Xtime(Half(b)))
  {
    LowBit(b);
    assert (b >> 1) & 0x80 == 0;
    assert b == (b & 1) ^ ((b >> 1) << 1);
  }

  lemma {:induction false} OneLeft(b: bv8)
    ensures Mul(1, b) == b
    decreases b
  {
    hide Add, Xtime, Pick, Odd, Half;
    HalfDecreases(b);
    if b != 0 {
      MulStep(1, b);
      MulXtimeLeft(1, Half(b));
      OneLeft(Half(b));
      HalfAndLow(b);
    }
  }

  lemma HalfDecreases(b: bv8)
    ensures b != 0 ==> Half(b) < b
  {
  }

  lemma PickOne(on: bool, a: bv8)
    ensures Mul(Pick(on, 1), a) == Pick(on, a)
  {
    hide Mul;
    OneLeft(a);
    MulZero(a);
  }

  lemma {:induction false} MulCommutes(a: bv8, b: bv8)
    ensures Mul(a, b) == Mul(b, a)
    decreases b
  {
    hide Add, Xtime, Pick, Odd, Half, Mul;
    HalfDecreases(b);
    if b == 0 {
      MulAtZero(a);
      MulZero(a);
    } else {
      MulStep(a, b);
      MulCommutes(Xtime(a), Half(b));
      MulXtimeRight(Half(b), a);
      HalfAndLow(b);
      MulAddLeft(Pick(Odd(b), 1), Xtime(Half(b)), a);
      PickOne(Odd(b), a);
    }
  }

  lemma PickRight(on: bool, a: bv8, b: bv8)
    ensures Mul(a, Pick(on, b)) == Pick(on, Mul(a, b))
  {
    hide Mul;
    MulAtZero(a);
  }

  lemma {:induction false} MulAssociates(a: bv8, b: bv8, c: bv8)
    ensures Mul(Mul(a, b), c) == Mul(a, Mul(b, c))
    decreases c
  {
    hide Add, Xtime, Pick, Odd, Half, Mul;
    HalfDecreases(c);
    if c == 0 {
      MulAtZero(Mul(a, b));
      MulAtZero(b);
      MulAtZero(a);
    } else {
      MulStep(Mul(a, b), c);
      MulStep(b, c);
      MulXtimeLeft(a, b);
      MulXtimeRight(a, b);
      MulAssociates(a, Xtime(b), Half(c));
      PickRight(Odd(c), a, b);
      MulAddRight(a, Pick(Odd(c), b), Mul(Xtime(b), Half(c)));
    }
  }

  // ----- the generator walk -----

  /** Multiplication by the generator 3, as the table builder spells it. */
  function Triple(p: bv8): bv8 { p ^ (p << 1) ^ (if p & 0x80 != 0 then 0x1B else 0) }

  /** Division by 3, as the table builder spells it. */
  function Third(q: bv8): bv8 {
    var q1 := q ^ (q << 1);
    var q2 := q1 ^ (q1 << 2);
    var q3 := q2 ^ (q2 << 4);
    if q3 & 0x80 != 0 then q3 ^ 0x09 else q3
  }

  lemma ThirdUndoesTriple(x: bv8)
    ensures Third(Triple(x)) == x && Triple(Third(x)) == x
    ensures Triple(x) == Add(x, Xtime(x))
    ensures Triple(x) == 0 <==> x == 0
  {
  }

  /** The k-th power of 3, and of its inverse. */
  function Up(k: nat): bv8 { if k == 0 then 1 else Triple(Up(k - 1)) }

  function Down(k: nat): bv8 { if k == 0 then 1 else Third(Down(k - 1)) }

  lemma ShiftProduct(p: bv8, q: bv8)
    ensures Mul(Triple(p), Third(q)) == Mul(p, q)
  {
    hide Add, Xtime, Mul, Triple, Third;
    var y := Third(q);
    ThirdUndoesTriple(p);
    ThirdUndoesTriple(y);
    ThirdUndoesTriple(q);
    MulAddLeft(p, Xtime(p), y);
    MulAddRight(p, y, Xtime(y));
    MulXtimeRight(p, y);
  }

  lemma ShiftedLeft(b: bv8)
    requires b & 0x80 == 0
    ensures Xtime(b) == b << 1 && Half(b << 1) == b && !Odd(b << 1)
  {
  }

  lemma MulShifted(a: bv8, b: bv8)
    requires b & 0x80 == 0
    ensures Mul(a, b << 1) == Mul(Xtime(a), b)
  {
    hide Xtime, Odd, Half, Add;
    ShiftedLeft(b);
    MulStep(a, b << 1);
    AddLaws(Mul(Xtime(a), b), 0, 0);
  }

  lemma TopPart(b: bv8)
    requires b & 0x80 != 0
    ensures b == Add(b & 0x7F, 0x80) && (b & 0x7F) & 0x80 == 0
    ensures Xtime(b) == Add((b & 0x7F) << 1, 0x1B)
  {
  }

  /** x^8 is x^4 + x^3 + x + 1: the polynomial the field is taken modulo. */
  lemma EighthPower(a: bv8)
    ensures var a1 := Xtime(a); var a3 := Xtime(Xtime(a1)); var a4 := Xtime(a3);
            Xtime(Xtime(Xtime(Xtime(a4)))) == Add(a, Add(a1, Add(a3, a4)))
  {
  }

  lemma Reduction(a: bv8)
    ensures Mul(a, 0x1B) == Mul(Xtime(a), 0x80)
  {
    hide Xtime, Add;
    var a1 := Xtime(a); var a2 := Xtime(a1); var a3 := Xtime(a2); var a4 := Xtime(a3);
    var a5 := Xtime(a4); var a6 := Xtime(a5); var a7 := Xtime(a6); var a8 := Xtime(a7);
    EighthPower(a);
    One(a4);
    MulStep(a3, 3); MulStep(a2, 6); MulStep(a1, 13); MulStep(a, 27);
    AddLaws(Add(a3, a4), 0, 0);
    One(a8);
    MulStep(a7, 2); MulStep(a6, 4); MulStep(a5, 8); MulStep(a4, 16); MulStep(a3, 32); MulStep(a2, 64); MulStep(a1, 128);
    AddLaws(a8, 0, 0);
  }

  lemma MulXtimeRight(a: bv8, b: bv8)
    ensures Mul(a, Xtime(b)) == Mul(Xtime(a), b)
  {
    hide Add, Mul, Odd, Half, Xtime;
    if b & 0x80 == 0 {
      ShiftedLeft(b);
      MulShifted(a, b);
    } else {
      var low := b & 0x7F;
      TopPart(b);
      MulAddRight(a, low << 1, 0x1B);
      MulShifted(a, low);
      MulAddRight(Xtime(a), low, 0x80);
      Reduction(a);
    }
  }

  /** All along the walk the two cursors are inverse to each other. */
  lemma {:induction false} WalkInverse(k: nat)
    ensures Mul(Up(k), Down(k)) == 1
  {
    hide Mul, Triple, Third;
    if k == 0 {
      One(1);
    } else {
      ShiftProduct(Up(k - 1), Down(k - 1));
      WalkInverse(k - 1);
    }
  }

  // ----- the generator has order 255 -----

  function Steps17(x: bv8): bv8 {
    var y := Triple(Triple(Triple(Triple(Triple(Triple(Triple(Triple(x))))))));
    Triple(Triple(Triple(Triple(Triple(Triple(Triple(Triple(Triple(y)))))))))
  }

  lemma Up4(k: nat)
    ensures Up(k + 4) == Triple(Triple(Triple(Triple(Up(k)))))
  {
    hide Triple;
    assert Up(k + 1) == Triple(Up(k));
    assert Up(k + 2) == Triple(Up(k + 1));
    assert Up(k + 3) == Triple(Up(k + 2));
  }

  lemma Jump17(k: nat, v: bv8)
    requires Up(k) == v
    ensures Up(k + 17) == Steps17(v)
  {
    hide Triple, Up;
    Up4(k);
    Up4(k + 4);
    Up4(k + 8);
    Up4(k + 12);
    assert Up(k + 17) == Triple(Up(k + 16)) by { UpStep(k + 16); }
  }

  lemma UpStep(k: nat)
    ensures Up(k + 1) == Triple(Up(k)) && Down(k + 1) == Third(Down(k))
  {
  }

  lemma Landmarks()
    ensures Steps17(1) == 225
    ensures Steps17(225) == 92
    ensures Steps17(92) == 12
    ensures Steps17(12) == 224
    ensures Steps17(224) == 189
    ensures Steps17(189) == 80
    ensures Steps17(80) == 236
    ensures Steps17(236) == 93
    ensures Steps17(93) == 237
    ensures Steps17(237) == 188
    ensures Steps17(188) == 177
    ensures Steps17(177) == 176
    ensures Steps17(176) == 81
    ensures Steps17(81) == 13
    ensures Steps17(13) == 1
  {
    assert Steps17(1) == 225;
    assert Steps17(225) == 92;
    assert Steps17(92) == 12;
    assert Steps17(12) == 224;
    assert Steps17(224) == 189;
    assert Steps17(189) == 80;
    assert Steps17(80) == 236;
    assert Steps17(236) == 93;
    assert Steps17(93) == 237;
    assert Steps17(237) == 188;
    assert Steps17(188) == 177;
    assert Steps17(177) == 176;
    assert Steps17(176) == 81;
    assert Steps17(81) == 13;
    assert Steps17(13) == 1;
  }

  lemma LongLandmarks()
    ensures Up(17) == 225 && Up(51) == 12 && Up(85) == 189 && Up(255) == 1
  {
    hide Triple, Steps17, Up;
    Landmarks();
    UpZero();
    Jump17(0, 1);
    Jump17(17, 225);
    Jump17(34, 92);
    Jump17(51, 12);
    Jump17(68, 224);
    Jump17(85, 189);
    Jump17(102, 80);
    Jump17(119, 236);
    Jump17(136, 93);
    Jump17(153, 237);
    Jump17(170, 188);
    Jump17(187, 177);
    Jump17(204, 176);
    Jump17(221, 81);
    Jump17(238, 13);
  }

  lemma ShortLandmarks()
    ensures Up(1) == 3 && Up(3) == 15 && Up(5) == 51 && Up(15) == 53
  {
    assert Up(1) == 3 && Up(2) == 5 && Up(3) == 15;
    Up4(1);
    assert Up(5) == 51;
    Up4(5);
    assert Up(9) == 46;
    Up4(9);
    assert Up(13) == 248 && Up(14) == 19 && Up(15) == 53;
  }

  lemma UpZero()
    ensures Up(0) == 1 && Down(0) == 1
  {
  }

  lemma {:induction false} UpCancels(i: nat, j: nat)
    requires i <= j && Up(i) == Up(j)
    ensures Up(j - i) == 1
    decreases i
  {
    hide Triple, Third;
    if i > 0 {
      ThirdUndoesTriple(Up(i - 1));
      ThirdUndoesTriple(Up(j - 1));
      UpCancels(i - 1, j - 1);
    }
  }

  lemma {:induction false} UpPeriod(k: nat, n: nat)
    requires Up(k) == 1
    ensures Up(k + n) == Up(n)
    decreases n
  {
    hide Triple;
    if n > 0 { UpPeriod(k, n - 1); }
  }

  lemma {:induction false} UpMultiple(k: nat, m: nat, n: nat)
    requires Up(k) == 1
    ensures Up(m * k + n) == Up(n)
    decreases m
  {
    hide Up;
    if m > 0 {
      UpMultiple(k, m - 1, n);
      UpPeriod(k, (m - 1) * k + n);
      assert m * k + n == k + ((m - 1) * k + n);
    } else {
      assert m * k == 0;
    }
  }

  lemma DivisorsOf255(k: int, m: int)
    requires 0 < k < 255 && m * k == 255
    ensures k == 1 || k == 3 || k == 5 || k == 15 || k == 17 || k == 51 || k == 85
  {
    ProductBounds(m, k);
    if k > 15 {
      SmallFactor(m, k);
    } else {
      assert k * m == 255;
      SmallFactor(k, m);
    }
  }

  lemma ProductBounds(m: int, k: int)
    ensures m >= 16 && k >= 16 ==> m * k >= 256
    ensures m <= 0 && k >= 0 ==> m * k <= 0
  {
    if m >= 16 && k >= 16 { assert m * k == (m - 16) * k + 16 * k; assert (m - 16) * k >= 0; }
  }

  lemma SmallFactor(a: int, b: int)
    requires 1 <= a <= 15 && a * b == 255
    ensures (a == 1 && b == 255) || (a == 3 && b == 85) || (a == 5 && b == 51) || (a == 15 && b == 17)
  {
    if a == 1 {} else if a == 2 {} else if a == 3 {} else if a == 4 {} else if a == 5 {} else if a == 6 {}
    else if a == 7 {} else if a == 8 {} else if a == 9 {} else if a == 10 {} else if a == 11 {}
    else if a == 12 {} else if a == 13 {} else if a == 14 {} else {}
  }

  /** The generator returns to 1 for the first time after 255 steps. */
  lemma {:induction false} Order255(k: nat)
    requires 0 < k < 255
    ensures Up(k) != 1
    decreases k
  {
    hide Up;
    LongLandmarks();
    ShortLandmarks();
    if Up(k) == 1 {
      var m, r := 255 / k, 255 % k;
      NumberTheory.DivMod(255, k);
      assert m >= 0 by { if m < 0 { NumberTheory.MulOrder(m, k); } }
      UpMultiple(k, m, r);
      if r > 0 {
        Order255(r);
      } else {
        DivisorsOf255(k, m);
      }
    }
  }

  lemma {:induction false} UpNonZero(k: nat)
    ensures Up(k) != 0
  {
    hide Triple;
    if k > 0 {
      UpNonZero(k - 1);
      ThirdUndoesTriple(Up(k - 1));
    }
  }

  lemma UpDistinct(i: nat, j: nat)
    requires 1 <= i < j <= 255
    ensures Up(i) != Up(j)
  {
    hide Up;
    if Up(i) == Up(j) {
      UpCancels(i, j);
      Order255(j - i);
    }
  }

  function Walked(n: nat): (r: seq<int>)
    ensures |r| == n
    ensures forall i | 0 <= i < n :: r[i] == Up(i + 1) as int
  {
    if n == 0 then [] else Walked(n - 1) + [Up(n) as int]
  }

  lemma AsInt(a: bv8, b: bv8)
    ensures a != b ==> a as int != b as int
    ensures a != 0 ==> 1 <= a as int <= 255
  {
    if a as int == b as int {
      assert (a as int) as bv8 == a && (b as int) as bv8 == b;
    }
  }

  /** The walk visits every unit: 255 distinct units are all there are. */
  lemma WalkCovers(b: bv8)
    requires b != 0
    ensures exists k :: 1 <= k <= 255 && Up(k) == b
  {
    hide Up;
    if forall k | 1 <= k <= 255 :: Up(k) != b {
      var s := Walked(255) + [b as int];
      AsInt(b, 0);
      forall i | 0 <= i < |s|
        ensures 1 <= s[i] <= 255
      {
        if i < 255 { UpNonZero(i + 1); AsInt(Up(i + 1), 0); }
      }
      forall i, j | 0 <= i < j < |s|
        ensures s[i] != s[j]
      {
        if j < 255 {
          UpDistinct(i + 1, j + 1);
          AsInt(Up(i + 1), Up(j + 1));
        } else {
          AsInt(Up(i + 1), b);
        }
      }
      NumberTheory.DistinctCount(s, 255);
    }
  }
}
