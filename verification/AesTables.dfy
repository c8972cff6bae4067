/** The S-box and its inverse, generated from the field arithmetic as `crypto/aes.py` does
    at import. */
module AesTables {
  import opened Gf256

  function At(table: seq<bv8>, b: bv8): bv8
    requires |table| == 256
  {
    table[b as int]
  }

  /** The affine step of section 5.1.1 of FIPS 197. */
  function Affine(q: bv8): bv8 {
    (q ^ ((q << 1) | (q >> 7)) ^ ((q << 2) | (q >> 6)) ^ ((q << 3) | (q >> 5)) ^ ((q << 4) | (q >> 4))) ^ 0x63
  }

  lemma AffineInjective(q: bv8, r: bv8)
    requires Affine(q) == Affine(r)
    ensures q == r
  {
  }

  /** Section 5.1.1 of FIPS 197: the affine step over the inverse in the field, 0 to itself. */
  ghost predicate SubstitutesFor(b: bv8, v: bv8) {
    if b == 0 then v == Affine(0) else exists q :: Mul(b, q) == 1 && v == Affine(q)
  }

  /** `inverse` undoes `sbox` on every byte. */
  ghost predicate Tables(sbox: seq<bv8>, inverse: seq<bv8>) {
    && |sbox| == 256 && |inverse| == 256
    && (forall b: bv8 :: SubstitutesFor(b, At(sbox, b)))
    && (forall b: bv8 :: At(inverse, At(sbox, b)) == b)
  }

  lemma {:induction false} DownCancels(i: nat, j: nat)
    requires i <= j && Down(i) == Down(j)
    ensures Down(j - i) == 1
    decreases i
  {
    hide Triple, Third;
    if i > 0 {
      ThirdUndoesTriple(Down(i - 1));
      ThirdUndoesTriple(Down(j - 1));
      DownCancels(i - 1, j - 1);
    }
  }

  lemma DownDistinct(i: nat, j: nat)
    requires 1 <= i < j <= 255
    ensures Down(i) != Down(j)
  {
    hide Up, Down;
    if Down(i) == Down(j) {
      DownCancels(i, j);
      WalkInverse(j - i);
      One(Up(j - i));
      Order255(j - i);
    }
  }

  lemma DownNonZero(k: nat)
    ensures Down(k) != 0
  {
    hide Up, Down;
    WalkInverse(k);
    MulAtZero(Up(k));
  }

  /** What the walk has filled in after k steps. */
  ghost predicate Filled(table: seq<bv8>, k: nat) {
    |table| == 256 && forall j | 1 <= j <= k :: At(table, Up(j)) == Affine(Down(j))
  }

  lemma FillStep(table: seq<bv8>, k: nat)
    requires k < 255 && Filled(table, k)
    ensures Filled(table[Up(k + 1) as int := Affine(Down(k + 1))], k + 1)
  {
    hide Up, Down, Affine;
    var now := table[Up(k + 1) as int := Affine(Down(k + 1))];
    forall j | 1 <= j <= k + 1
      ensures At(now, Up(j)) == Affine(Down(j))
    {
      if j <= k {
        UpDistinct(j, k + 1);
        AsInt(Up(j), Up(k + 1));
        assert At(table, Up(j)) == Affine(Down(j));
      }
    }
  }

  lemma FilledSubstitutes(table: seq<bv8>)
    requires Filled(table, 255) && At(table, 0) == 0x63
    ensures forall b: bv8 :: SubstitutesFor(b, At(table, b))
  {
    hide Up, Down, Mul;
    forall b: bv8
      ensures SubstitutesFor(b, At(table, b))
    {
      if b != 0 {
        WalkCovers(b);
        var k :| 1 <= k <= 255 && Up(k) == b;
        WalkInverse(k);
      }
    }
  }

  lemma FilledInjective(table: seq<bv8>, a: bv8, b: bv8)
    requires Filled(table, 255) && At(table, 0) == 0x63 && At(table, a) == At(table, b)
    ensures a == b
  {
    hide Up, Down, Affine;
    assert Affine(0) == 0x63 by { AffineZero(); }
    if a != 0 {
      WalkCovers(a);
      var i :| 1 <= i <= 255 && Up(i) == a;
      if b != 0 {
        WalkCovers(b);
        var j :| 1 <= j <= 255 && Up(j) == b;
        AffineInjective(Down(i), Down(j));
        if i < j { DownDistinct(i, j); } else if j < i { DownDistinct(j, i); }
      } else {
        AffineInjective(Down(i), 0);
        DownNonZero(i);
      }
    } else if b != 0 {
      WalkCovers(b);
      var j :| 1 <= j <= 255 && Up(j) == b;
      AffineInjective(Down(j), 0);
      DownNonZero(j);
    }
  }

  lemma AffineZero()
    ensures Affine(0) == 0x63
  {
  }

  lemma FilledAfterZero(table: seq<bv8>)
    requires Filled(table, 255)
    ensures Filled(table[0 := 0x63], 255) && At(table[0 := 0x63], 0) == 0x63
  {
    hide Up, Down, Affine;
    var now := table[0 := 0x63];
    forall j | 1 <= j <= 255
      ensures At(now, Up(j)) == Affine(Down(j))
    {
      UpNonZero(j);
      AsInt(Up(j), 0);
      assert At(table, Up(j)) == Affine(Down(j));
    }
  }

  method BuildSbox() returns (sbox: seq<bv8>)
    ensures Filled(sbox, 255) && At(sbox, 0) == 0x63
  {
    hide Triple, Third, Affine, Up, Down;
    var table := new bv8[256](_ => 0);
    var p, q: bv8 := 1, 1;
    ghost var k := 0;
    LongLandmarks();
    UpZero();
    while true
      invariant 0 <= k < 255
      invariant p == Up(k) && q == Down(k)
      invariant Filled(table[..], k)
      decreases 255 - k
    {
      p := Triple(p);
      q := Third(q);
      UpStep(k);
      FillStep(table[..], k);
      ghost var now := table[..][p as int := Affine(q)];
      table[p as int] := Affine(q);
      assert table[..] == now;
      k := k + 1;
      if p == 1 { break; }
    }
    if k < 255 { Order255(k); }
    FilledAfterZero(table[..]);
    ghost var last := table[..][0 := 0x63];
    table[0] := 0x63;
    assert table[..] == last;
    sbox := table[..];
  }

  /** `table` undoes `sbox` on every byte up to and including `last`. */
  ghost predicate UndoneTo(table: seq<bv8>, sbox: seq<bv8>, last: bv8) {
    && |table| == 256 && |sbox| == 256
    && forall n: bv8 | n <= last :: At(table, At(sbox, n)) == n
  }

  lemma UndoStep(table: seq<bv8>, sbox: seq<bv8>, index: bv8)
    requires |sbox| == 256 && |table| == 256 && Filled(sbox, 255) && At(sbox, 0) == 0x63
    requires index != 0 ==> UndoneTo(table, sbox, index - 1)
    ensures UndoneTo(table[At(sbox, index) as int := index], sbox, index)
  {
    hide Filled;
    forall n: bv8 | n <= index
      ensures At(table[At(sbox, index) as int := index], At(sbox, n)) == n
    {
      if n != index {
        Below(n, index);
        if At(sbox, n) == At(sbox, index) { FilledInjective(sbox, n, index); }
        AsInt(At(sbox, n), At(sbox, index));
        assert At(table, At(sbox, n)) == n;
      }
    }
  }

  lemma Below(n: bv8, index: bv8)
    ensures n <= index && n != index ==> index != 0 && n <= index - 1
  {
  }

  method BuildTables() returns (sbox: seq<bv8>, inverse: seq<bv8>)
    ensures Tables(sbox, inverse)
  {
    hide Up, Down, Affine, Filled, SubstitutesFor, At, UndoneTo;
    sbox := BuildSbox();
    FilledLength(sbox);
    FilledSubstitutes(sbox);
    var table := new bv8[256](_ => 0);
    var index: bv8 := 0;
    while true
      invariant index != 0 ==> UndoneTo(table[..], sbox, index - 1)
      decreases 255 - index
    {
      UndoStep(table[..], sbox, index);
      ghost var now := table[..][At(sbox, index) as int := index];
      table[At(sbox, index) as int] := index;
      assert table[..] == now;
      if index == 255 { break; }
      index := index + 1;
    }
    inverse := table[..];
    UndoneAll(inverse, sbox);
  }

  lemma UndoneAll(table: seq<bv8>, sbox: seq<bv8>)
    requires UndoneTo(table, sbox, 255)
    ensures |table| == 256 && |sbox| == 256 && forall b: bv8 :: At(table, At(sbox, b)) == b
  {
    hide At;
  }

  lemma FilledLength(table: seq<bv8>)
    requires Filled(table, 255)
    ensures |table| == 256
  {
  }
}
