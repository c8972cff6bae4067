/** Exclusive or on 32-bit words, named so that proofs can treat it as an abelian group. */
module Words {

  function Xor(a: bv32, b: bv32): bv32 { a ^ b }

  function Plus(a: bv32, b: bv32): bv32 { a + b }

  lemma XorLaws(a: bv32, b: bv32, c: bv32)
    ensures Xor(Xor(a, b), c) == Xor(a, Xor(b, c))
    ensures Xor(a, b) == Xor(b, a)
    ensures Xor(a, 0) == a && Xor(0, a) == a && Xor(a, a) == 0
    ensures Xor(Xor(a, b), b) == a
    ensures Xor(a, b) == 0 ==> a == b
  {
  }

  lemma XorThird(a: bv32, b: bv32, p: bv32)
    ensures Xor(Xor(a, p), Xor(b, p)) == Xor(a, b)
    ensures Xor(Xor(a, p), b) == Xor(Xor(a, b), p)
    ensures Xor(a, Xor(b, p)) == Xor(Xor(a, b), p)
  {
    hide Xor;
    XorLaws(a, b, p);
    XorLaws(a, p, b);
    XorLaws(p, b, b);
    calc {
      Xor(Xor(a, p), Xor(b, p));
      { XorLaws(a, p, Xor(b, p)); }
      Xor(a, Xor(p, Xor(b, p)));
      { XorLaws(p, Xor(b, p), p); XorLaws(b, p, p); }
      Xor(a, b);
    }
  }

  // ----- big-endian bytes -----

  function Big4(w: bv32): (r: seq<bv8>)
    ensures |r| == 4
  {
    [(w >> 24) as bv8, ((w >> 16) & 0xFF) as bv8, ((w >> 8) & 0xFF) as bv8, (w & 0xFF) as bv8]
  }

  function FromBig4(b0: bv8, b1: bv8, b2: bv8, b3: bv8): bv32 {
    (b0 as bv32 << 24) | (b1 as bv32 << 16) | (b2 as bv32 << 8) | b3 as bv32
  }

  lemma Big4RoundTrip(w: bv32)
    ensures FromBig4(Big4(w)[0], Big4(w)[1], Big4(w)[2], Big4(w)[3]) == w
  {
  }

  lemma FromBig4RoundTrip(b: seq<bv8>)
    requires |b| == 4
    ensures Big4(FromBig4(b[0], b[1], b[2], b[3])) == b
  {
    FromBig4Bytes(b[0], b[1], b[2], b[3]);
  }

  lemma FromBig4Bytes(b0: bv8, b1: bv8, b2: bv8, b3: bv8)
    ensures var w := FromBig4(b0, b1, b2, b3);
            (w >> 24) as bv8 == b0 && ((w >> 16) & 0xFF) as bv8 == b1 && ((w >> 8) & 0xFF) as bv8 == b2
              && (w & 0xFF) as bv8 == b3
  {
  }

  /** Most significant byte first. */
  lemma BigEndian(b0: bv8, b1: bv8, b2: bv8, b3: bv8)
    ensures var w := ((((((b0 as bv32) << 8) | b1 as bv32) << 8) | b2 as bv32) << 8) | b3 as bv32;
            Big4(w) == [b0, b1, b2, b3] && FromBig4(b0, b1, b2, b3) == w
  {
    FromBig4Bytes(b0, b1, b2, b3);
  }
}
