/** Blowfish part by part, as its definition has it: the round function on bytes, the order
    of rounds and subkeys, what the key is mixed into, and how blocks are chained. */
module BlowfishRounds {
  import opened Words
  import opened Blowfish

  /** The four bytes of a word, the highest first, index the four boxes. */
  lemma RoundFunction(b: Boxes, b0: bv8, b1: bv8, b2: bv8, b3: bv8)
    requires Shaped(b)
    ensures F(b, FromBig4(b0, b1, b2, b3)) ==
            MixWords(b.s[0][b0 as int], b.s[1][b1 as int], b.s[2][b2 as int], b.s[3][b3 as int])
  {
    FromBig4Bytes(b0, b1, b2, b3);
    hide MixWords, FromBig4;
  }

  /** Two words at a time, the others nothing: the first two are added, the third is mixed in,
      and the last is added. */
  lemma MixParts(x: bv32, y: bv32)
    ensures MixWords(x, y, 0, 0) == Plus(x, y)
    ensures MixWords(x, 0, y, 0) == Xor(x, y) && MixWords(0, x, y, 0) == Xor(x, y)
    ensures MixWords(x, 0, 0, y) == Plus(x, y) && MixWords(0, 0, x, y) == Plus(x, y)
  {
    hide Xor, Plus;
    PlusZero(x);
    PlusZero(0);
    XorLaws(x, y, 0);
    XorLaws(Plus(x, y), 0, 0);
    PlusZero(Plus(x, y));
    PlusZero(Xor(x, y));
  }

  lemma PlusZero(x: bv32)
    ensures Plus(x, 0) == x && Plus(0, x) == x
  {
  }

  /** Boxes that add nothing. */
  ghost predicate Silent(b: Boxes) { Shaped(b) && forall x: bv32 :: F(b, x) == 0 }

  lemma SilentRound(b: Boxes, k: bv32, h: (Half, Half))
    requires Silent(b)
    ensures Round(b, k, h) == (h.1, Xor(h.0, k))
  {
    hide F, Xor;
    XorLaws(h.1, 0, 0);
  }

  lemma {:induction false} SilentRounds(b: Boxes, p: seq<bv32>, h: (Half, Half), n: nat)
    requires Silent(b) && 2 * n <= |p|
    ensures RoundsTo(b, p, h, 2 * n) == (Xor(h.0, Keys(p, 0, n)), Xor(h.1, Keys(p, 1, n)))
    decreases n
  {
    hide Xor, Round, F;
    if n == 0 {
      XorLaws(h.0, 0, 0);
      XorLaws(h.1, 0, 0);
    } else {
      SilentRounds(b, p, h, n - 1);
      var e := RoundsTo(b, p, h, 2 * n - 2);
      SilentRound(b, p[2 * n - 2], e);
      RoundStepIs(b, p, h, 2 * n - 1);
      RoundStepIs(b, p, h, 2 * n);
      SilentRound(b, p[2 * n - 1], RoundsTo(b, p, h, 2 * n - 1));
      XorLaws(h.0, Keys(p, 0, n - 1), p[2 * n - 2]);
      XorLaws(h.1, Keys(p, 1, n - 1), p[2 * n - 1]);
    }
  }

  lemma RoundStepIs(b: Boxes, p: seq<bv32>, h: (Half, Half), n: nat)
    requires Silent(b) && 1 <= n <= |p|
    ensures Shaped(b) && RoundsTo(b, p, h, n) == Round(b, p[n - 1], RoundsTo(b, p, h, n - 1))
  {
    hide Round, F;
  }

  /** The first n subkeys with even or with odd numbers, mixed together. */
  function Keys(p: seq<bv32>, odd: nat, n: nat): bv32
    requires odd <= 1 && 2 * n <= |p|
  {
    if n == 0 then 0 else Xor(Keys(p, odd, n - 1), p[2 * n - 2 + odd])
  }

  /** With boxes that add nothing, each half is mixed with nine of the eighteen subkeys, and
      the halves come out in the other order: sixteen rounds, a swap, and the two outer keys. */
  lemma SilentNetwork(b: Boxes, h: (Half, Half))
    requires Silent(b)
    ensures Shaped(b) && Encrypted(b, h) == (Xor(h.1, Keys(b.p, 1, 9)), Xor(h.0, Keys(b.p, 0, 9)))
  {
    hide Xor;
    SilentRounds(b, b.p, h, 8);
    XorLaws(h.1, Keys(b.p, 1, 8), b.p[17]);
    XorLaws(h.0, Keys(b.p, 0, 8), b.p[16]);
  }

  /** The key, over and over, is mixed into the subkeys four bytes at a time. */
  lemma {:induction false} KeyMixed(p: seq<bv32>, key: seq<bv8>, n: nat, i: nat)
    requires key != [] && n <= |p| && i < |p|
    ensures KeyedTo(p, key, n)[i] ==
            if i >= n then p[i]
            else Xor(p[i], FromBig4(key[4 * i % |key|], key[(4 * i + 1) % |key|], key[(4 * i + 2) % |key|],
                                    key[(4 * i + 3) % |key|]))
    decreases n
  {
    hide Xor, FromBig4;
    if n > 0 { KeyMixed(p, key, n - 1, i); }
  }

  /** Block i of CFB output is the data mixed with the encryption of the ciphertext block
      before it, or of the initialisation vector (section 6.3 of SP 800-38A, with s = 64). */
  lemma {:induction false} CfbBlockIs(b: Boxes, iv: seq<bv8>, data: seq<bv8>, decrypt: bool, i: nat, j: nat)
    requires Shaped(b) && |iv| == 8 && 8 * i + j < |data| && j < 8
    ensures var out := Cfb(b, iv, data, decrypt);
            var cipher := if decrypt then data else out;
            var register := if i == 0 then iv else cipher[8 * i - 8..8 * i];
            out[8 * i + j] == XorByte(data[8 * i + j], Joined(Encrypted(b, Halves(register)))[j])
    decreases i
  {
    hide Encrypted, Halves, Joined, XorByte, Shaped;
    if i == 0 {
      FirstBlock(b, iv, data, decrypt, j);
    } else {
      var next := NextBlocks(b, iv, data, decrypt);
      var rest := data[8..];
      var out, more := Cfb(b, iv, data, decrypt), Cfb(b, next, rest, decrypt);
      hide Cfb;
      CfbBlockIs(b, next, rest, decrypt, i - 1, j);
      var tail := if decrypt then rest else more;
      assert data == data[..8] + rest;
      Later(if decrypt then data[..8] else out[..8], tail, i);
    }
  }

  lemma Later(first: seq<bv8>, tail: seq<bv8>, i: nat)
    requires |first| == 8 && i >= 1 && 8 * i - 8 <= |tail|
    ensures (first + tail)[8 * i - 8..8 * i] == if i == 1 then first else tail[8 * i - 16..8 * i - 8]
  {
  }

  lemma FirstBlock(b: Boxes, iv: seq<bv8>, data: seq<bv8>, decrypt: bool, j: nat)
    requires Shaped(b) && |iv| == 8 && j < |data| && j < 8
    ensures Cfb(b, iv, data, decrypt)[j] == XorByte(data[j], Joined(Encrypted(b, Halves(iv)))[j])
  {
    hide Encrypted, Halves, Joined, XorByte, Shaped;
    var n := if |data| < 8 then |data| else 8;
    var (first, next) := Fed(b, iv, data[..n], decrypt);
    assert Cfb(b, iv, data, decrypt) == first + Cfb(b, next, data[n..], decrypt);
  }

  lemma NextBlocks(b: Boxes, iv: seq<bv8>, data: seq<bv8>, decrypt: bool) returns (next: seq<bv8>)
    requires Shaped(b) && |iv| == 8 && |data| >= 8
    ensures |next| == 8
    ensures var out := Cfb(b, iv, data, decrypt);
            out == out[..8] + Cfb(b, next, data[8..], decrypt) && next == if decrypt then data[..8] else out[..8]
  {
    hide Encrypted, Halves, Joined, XorByte, Shaped, Masked;
    var (first, after) := Fed(b, iv, data[..8], decrypt);
    next := after;
    var out := Cfb(b, iv, data, decrypt);
    assert out == first + Cfb(b, next, data[8..], decrypt);
    assert out[..8] == first;
  }
}
