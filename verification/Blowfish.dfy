/** Blowfish with its ECB and CFB64 modes, as `crypto/blowfish.py` runs it. The unkeyed
    boxes, which the source derives from pi, are parameters. */
module Blowfish {
  import opened Words
  import Octets

  type Bytes = seq<bv8>

  datatype BlowfishError = EmptyKey | LongKey | NotWholeBlocks | BadIv

  /** The P-array and the four S-boxes. */
  datatype Boxes = Boxes(p: seq<bv32>, s: seq<seq<bv32>>)

  ghost predicate Shaped(b: Boxes) {
    |b.p| == 18 && |b.s| == 4 && forall i | 0 <= i < 4 :: |b.s[i]| == 256
  }

  // ----- one block -----

  /** Four words into one; sums are modulo 2^32. */
  function MixWords(w0: bv32, w1: bv32, w2: bv32, w3: bv32): bv32 { Plus(Xor(Plus(w0, w1), w2), w3) }

  /** What the four boxes give for four bytes. */
  function Mix(b: Boxes, i0: nat, i1: nat, i2: nat, i3: nat): bv32
    requires Shaped(b) && i0 < 256 && i1 < 256 && i2 < 256 && i3 < 256
  {
    MixWords(b.s[0][i0], b.s[1][i1], b.s[2][i2], b.s[3][i3])
  }

  function F(b: Boxes, x: bv32): bv32
    requires Shaped(b)
  {
    Mix(b, ((x >> 24) as bv8) as int, (((x >> 16) & 0xFF) as bv8) as int, (((x >> 8) & 0xFF) as bv8) as int,
      ((x & 0xFF) as bv8) as int)
  }

  type Half = bv32

  /** One Feistel round under subkey k, halves swapped. */
  function Round(b: Boxes, k: bv32, h: (Half, Half)): (Half, Half)
    requires Shaped(b)
  {
    (Xor(h.1, F(b, Xor(h.0, k))), Xor(h.0, k))
  }

  function RoundsTo(b: Boxes, p: seq<bv32>, h: (Half, Half), n: nat): (Half, Half)
    requires Shaped(b) && n <= |p|
  {
    if n == 0 then h else Round(b, p[n - 1], RoundsTo(b, p, h, n - 1))
  }

  /** Sixteen rounds, the last swap undone, and the two outer subkeys. */
  function Crypted(b: Boxes, p: seq<bv32>, h: (Half, Half)): (Half, Half)
    requires Shaped(b) && |p| == 18
  {
    var e := RoundsTo(b, p, h, 16);
    (Xor(e.1, p[17]), Xor(e.0, p[16]))
  }

  function Reversed(p: seq<bv32>): (r: seq<bv32>)
    ensures |r| == |p| && forall i | 0 <= i < |p| :: r[i] == p[|p| - 1 - i]
  {
    seq(|p|, i requires 0 <= i < |p| => p[|p| - 1 - i])
  }

  function Encrypted(b: Boxes, h: (Half, Half)): (Half, Half)
    requires Shaped(b)
  {
    Crypted(b, b.p, h)
  }

  /** Decryption is the same network with the subkeys backwards. */
  function Decrypted(b: Boxes, h: (Half, Half)): (Half, Half)
    requires Shaped(b)
  {
    Crypted(b, Reversed(b.p), h)
  }

  /** Undoing round by round: with the keys of rounds 16 down to n peeled off, the halves are
      the right halves of two successive forward rounds, the left one still keyed. */
  lemma {:induction false} PeelRounds(b: Boxes, p: seq<bv32>, h: (Half, Half), n: nat)
    requires Shaped(b) && |p| == 18 && 1 <= n <= 16
    ensures RoundsTo(b, Reversed(p), Crypted(b, p, h), 17 - n)
         == (Xor(RoundsTo(b, p, h, n - 1).1, p[n]), RoundsTo(b, p, h, n).1)
    decreases 16 - n
  {
    hide F, Xor, RoundsTo;
    var q, c := Reversed(p), Crypted(b, p, h);
    var before, at := RoundsTo(b, p, h, n - 1), RoundsTo(b, p, h, n);
    RoundStep(b, p, h, n);
    RoundStep(b, q, c, 17 - n);
    assert q[16 - n] == p[n + 1];
    var f := F(b, Xor(before.0, p[n - 1]));
    if n == 16 {
      RoundNone(b, q, c);
      XorLaws(at.1, p[17], 0);
      Unkey(at.0, p[16], before.1, f);
    } else {
      PeelRounds(b, p, h, n + 1);
      var next := RoundsTo(b, p, h, n + 1);
      RoundStep(b, p, h, n + 1);
      XorLaws(at.1, p[n + 1], 0);
      Unkey(at.0, p[n], before.1, f);
    }
  }

  /** What a round added to a half comes off again, keyed or not. */
  lemma Unkey(x: bv32, k: bv32, y: bv32, f: bv32)
    requires x == Xor(y, f)
    ensures Xor(Xor(x, k), f) == Xor(y, k)
  {
    hide Xor;
    XorThird(y, k, f);
    XorLaws(Xor(y, k), f, 0);
  }

  lemma RoundStep(b: Boxes, p: seq<bv32>, h: (Half, Half), n: nat)
    requires Shaped(b) && 1 <= n <= |p|
    ensures RoundsTo(b, p, h, n) == Round(b, p[n - 1], RoundsTo(b, p, h, n - 1))
  {
  }

  lemma RoundNone(b: Boxes, p: seq<bv32>, h: (Half, Half))
    requires Shaped(b)
    ensures RoundsTo(b, p, h, 0) == h
  {
  }

  /** The network with the subkeys backwards undoes the network, whatever the boxes. */
  lemma ReverseUndoes(b: Boxes, p: seq<bv32>, h: (Half, Half))
    requires Shaped(b) && |p| == 18
    ensures Crypted(b, Reversed(p), Crypted(b, p, h)) == h
  {
    hide F, Xor, RoundsTo;
    PeelRounds(b, p, h, 1);
    RoundNone(b, p, h);
    RoundStep(b, p, h, 1);
    XorLaws(h.0, p[0], 0);
    XorLaws(h.1, p[1], 0);
  }

  /** Decryption undoes encryption and encryption undoes decryption. */
  lemma BlockInverse(b: Boxes, h: (Half, Half))
    requires Shaped(b)
    ensures Decrypted(b, Encrypted(b, h)) == h
    ensures Encrypted(b, Decrypted(b, h)) == h
  {
    hide Crypted;
    ReverseUndoes(b, b.p, h);
    assert Reversed(Reversed(b.p)) == b.p;
    ReverseUndoes(b, Reversed(b.p), h);
  }

  // ----- words and bytes -----

  function Halves(b: Bytes): (Half, Half)
    requires |b| == 8
  {
    (FromBig4(b[0], b[1], b[2], b[3]), FromBig4(b[4], b[5], b[6], b[7]))
  }

  function Joined(h: (Half, Half)): (r: Bytes)
    ensures |r| == 8
  {
    Big4(h.0) + Big4(h.1)
  }

  lemma HalvesJoined(h: (Half, Half))
    ensures Halves(Joined(h)) == h
  {
    hide FromBig4, Big4;
    Big4RoundTrip(h.0);
    Big4RoundTrip(h.1);
  }

  lemma JoinedHalves(b: Bytes)
    requires |b| == 8
    ensures Joined(Halves(b)) == b
  {
    hide FromBig4, Big4;
    FromBig4RoundTrip(b[..4]);
    FromBig4RoundTrip(b[4..]);
    assert b[..4] + b[4..] == b;
  }

  // ----- ECB -----

  function Ecb(b: Boxes, p: seq<bv32>, data: Bytes): (r: Bytes)
    requires Shaped(b) && |p| == 18 && |data| % 8 == 0
    ensures |r| == |data|
    decreases |data|
  {
    if data == [] then [] else Joined(Crypted(b, p, Halves(data[..8]))) + Ecb(b, p, data[8..])
  }

  lemma {:induction false} EcbUndoes(b: Boxes, p: seq<bv32>, data: Bytes)
    requires Shaped(b) && |p| == 18 && |data| % 8 == 0
    ensures Ecb(b, Reversed(p), Ecb(b, p, data)) == data
    decreases |data|
  {
    hide Crypted, Halves, Joined, Reversed;
    if data != [] {
      var block := Joined(Crypted(b, p, Halves(data[..8])));
      var out := Ecb(b, p, data);
      assert out[..8] == block && out[8..] == Ecb(b, p, data[8..]);
      HalvesJoined(Crypted(b, p, Halves(data[..8])));
      ReverseUndoes(b, p, Halves(data[..8]));
      JoinedHalves(data[..8]);
      EcbUndoes(b, p, data[8..]);
      assert data[..8] + data[8..] == data;
    }
  }

  /** ECB decryption undoes ECB encryption on any whole number of blocks. */
  lemma EcbRoundTrip(b: Boxes, data: Bytes)
    requires Shaped(b) && |data| % 8 == 0
    ensures Ecb(b, Reversed(b.p), Ecb(b, b.p, data)) == data
  {
    EcbUndoes(b, b.p, data);
  }

  // ----- CFB64 -----

  function XorByte(a: bv8, b: bv8): bv8 { a ^ b }

  /** Data mixed with as much of the key stream as it needs. */
  function Masked(data: Bytes, stream: Bytes): (r: Bytes)
    requires |data| <= |stream|
    ensures |r| == |data| && forall i | 0 <= i < |data| :: r[i] == XorByte(data[i], stream[i])
  {
    seq(|data|, i requires 0 <= i < |data| => XorByte(data[i], stream[i]))
  }

  /** Cipher feedback: the register is re-encrypted for every eight bytes and then takes
      the ciphertext of those eight, from the output or, when decrypting, from the input. */
  function Cfb(b: Boxes, register: Bytes, data: Bytes, decrypt: bool): (r: Bytes)
    requires Shaped(b) && |register| == 8
    ensures |r| == |data|
    decreases |data|
  {
    if data == [] then []
    else
      var n := if |data| < 8 then |data| else 8;
      var (out, next) := Fed(b, register, data[..n], decrypt);
      out + Cfb(b, next, data[n..], decrypt)
  }

  /** One stretch of at most eight bytes: its output and the register after it. */
  function Fed(b: Boxes, register: Bytes, piece: Bytes, decrypt: bool): (r: (Bytes, Bytes))
    requires Shaped(b) && |register| == 8 && |piece| <= 8
    ensures |r.0| == |piece| && |r.1| == 8
  {
    var stream := Joined(Encrypted(b, Halves(register)));
    var out := Masked(piece, stream);
    (out, (if decrypt then piece else out) + stream[|piece|..])
  }

  lemma CfbNone(b: Boxes, register: Bytes, decrypt: bool)
    requires Shaped(b) && |register| == 8
    ensures Cfb(b, register, [], decrypt) == []
  {
  }

  lemma CfbStep(b: Boxes, register: Bytes, data: Bytes, start: nat, out: Bytes, decrypt: bool)
    requires Shaped(b) && |register| == 8 && start < |data|
    ensures var n := if |data| - start < 8 then |data| - start else 8;
            var (block, next) := Fed(b, register, data[start..start + n], decrypt);
            out + Cfb(b, register, data[start..], decrypt) == (out + block) + Cfb(b, next, data[start + n..], decrypt)
  {
    hide Fed;
    var n := if |data| - start < 8 then |data| - start else 8;
    assert data[start..][..n] == data[start..start + n] && data[start..][n..] == data[start + n..];
    var (block, next) := Fed(b, register, data[start..start + n], decrypt);
    var more := Cfb(b, next, data[start + n..], decrypt);
    assert out + (block + more) == (out + block) + more;
  }

  lemma MaskedTwice(data: Bytes, stream: Bytes)
    requires |data| <= |stream|
    ensures Masked(Masked(data, stream), stream) == data
  {
    forall i | 0 <= i < |data|
      ensures Masked(Masked(data, stream), stream)[i] == data[i]
    {
      XorByteTwice(data[i], stream[i]);
    }
  }

  lemma XorByteTwice(a: bv8, k: bv8)
    ensures XorByte(XorByte(a, k), k) == a
  {
  }

  /** CFB64 decryption undoes encryption on data of any length, short last block included. */
  lemma {:induction false} CfbRoundTrip(b: Boxes, iv: Bytes, data: Bytes)
    requires Shaped(b) && |iv| == 8
    ensures Cfb(b, iv, Cfb(b, iv, data, false), true) == data
    decreases |data|
  {
    hide Encrypted, Halves, Joined, Masked;
    if data != [] {
      var stream := Joined(Encrypted(b, Halves(iv)));
      var n := if |data| < 8 then |data| else 8;
      var out := Masked(data[..n], stream);
      var all := Cfb(b, iv, data, false);
      assert all[..n] == out && all[n..] == Cfb(b, out + stream[n..], data[n..], false);
      MaskedTwice(data[..n], stream);
      CfbRoundTrip(b, out + stream[n..], data[n..]);
      assert data[..n] + data[n..] == data;
    }
  }

  // ----- the key schedule -----

  /** Key bytes i, i+1, i+2 and i+3, wrapping round the key, as one word. */
  function KeyWord(key: Bytes, i: nat): bv32
    requires key != []
  {
    FromBig4(key[i % |key|], key[(i + 1) % |key|], key[(i + 2) % |key|], key[(i + 3) % |key|])
  }

  function KeyedTo(p: seq<bv32>, key: Bytes, n: nat): (r: seq<bv32>)
    requires key != [] && n <= |p|
    ensures |r| == |p|
  {
    if n == 0 then p
    else
      var before := KeyedTo(p, key, n - 1);
      before[n - 1 := Xor(before[n - 1], KeyWord(key, 4 * (n - 1)))]
  }

  /** The boxes after n encryptions written over the P-array and then the S-boxes, and the
      block that the next encryption starts from. */
  function FilledTo(b: Boxes, n: nat): (r: (Boxes, (Half, Half)))
    requires Shaped(b) && n <= 521
    ensures Shaped(r.0)
  {
    if n == 0 then (b, (0, 0))
    else
      var (before, h) := FilledTo(b, n - 1);
      var out := Encrypted(before, h);
      (Written(before, n - 1, out), out)
  }

  /** Encryption number i goes to P[2i], P[2i+1] for the first nine, then through the S-boxes. */
  function Written(b: Boxes, i: nat, h: (Half, Half)): (r: Boxes)
    requires Shaped(b) && i < 521
    ensures Shaped(r)
  {
    if i < 9 then b.(p := b.p[2 * i := h.0][2 * i + 1 := h.1])
    else
      var j := i - 9;
      var box := b.s[j / 128][2 * (j % 128) := h.0][2 * (j % 128) + 1 := h.1];
      b.(s := b.s[j / 128 := box])
  }

  function Scheduled(b: Boxes, key: Bytes): (r: Boxes)
    requires Shaped(b) && key != []
    ensures Shaped(r)
  {
    FilledTo(b.(p := KeyedTo(b.p, key, 18)), 521).0
  }

  /** One keyed cipher; the schedule rewrites its boxes while it encrypts with them. */
  class Blowfish {
    var p: seq<bv32>
    var s: seq<seq<bv32>>

    ghost function View(): Boxes
      reads this
    {
      Boxes(p, s)
    }

    ghost predicate Valid()
      reads this
    {
      Shaped(View())
    }

    constructor (boxes: Boxes, key: Bytes)
      requires Shaped(boxes) && 0 < |key| <= 56
      ensures Valid() && View() == Scheduled(boxes, key)
    {
      p, s := boxes.p, boxes.s;
      new;
      MixKey(key);
      Fill();
    }

    /** A cipher for `key`, or the refusal of an empty or over-long one. */
    static method Keyed(boxes: Boxes, key: Bytes) returns (r: Octets.Result<Blowfish, BlowfishError>)
      requires Shaped(boxes)
      ensures key == [] ==> r == Octets.Err(EmptyKey)
      ensures |key| > 56 ==> r == Octets.Err(LongKey)
      ensures 0 < |key| <= 56 ==> r.Ok? && fresh(r.value) && r.value.Valid() && r.value.View() == Scheduled(boxes, key)
    {
      if key == [] { return Octets.Err(EmptyKey); }
      if |key| > 56 { return Octets.Err(LongKey); }
      var cipher := new Blowfish(boxes, key);
      return Octets.Ok(cipher);
    }

    method MixKey(key: Bytes)
      requires Valid() && key != []
      modifies this
      ensures Valid() && s == old(s) && p == KeyedTo(old(p), key, 18)
    {
      hide KeyWord, Xor;
      for i := 0 to 18
        invariant s == old(s) && p == KeyedTo(old(p), key, i)
      {
        p := p[i := Xor(p[i], KeyWord(key, 4 * i))];
      }
    }

    method Fill()
      requires Valid()
      modifies this
      ensures Valid() && View() == FilledTo(old(View()), 521).0
    {
      hide Encrypted, FilledTo;
      ghost var start := View();
      var left, right := FillSubkeys();
      for box := 0 to 4
        invariant Valid() && (View(), (left, right)) == FilledTo(start, 9 + 128 * box)
      {
        left, right := FillBox(box, left, right, start);
      }
    }

    method FillSubkeys() returns (left: bv32, right: bv32)
      requires Valid()
      modifies this
      ensures Valid() && (View(), (left, right)) == FilledTo(old(View()), 9)
    {
      hide Encrypted;
      left, right := 0, 0;
      for i := 0 to 9
        invariant Valid() && (View(), (left, right)) == FilledTo(old(View()), i)
      {
        left, right := EncryptBlock(left, right);
        p := p[2 * i := left][2 * i + 1 := right];
      }
    }

    method FillBox(box: nat, left: bv32, right: bv32, ghost start: Boxes) returns (l: bv32, r: bv32)
      requires Valid() && box < 4 && Shaped(start) && (View(), (left, right)) == FilledTo(start, 9 + 128 * box)
      modifies this
      ensures Valid() && (View(), (l, r)) == FilledTo(start, 9 + 128 * box + 128)
    {
      hide Encrypted;
      l, r := left, right;
      for i := 0 to 128
        invariant Valid() && (View(), (l, r)) == FilledTo(start, 9 + 128 * box + i)
      {
        l, r := EncryptBlock(l, r);
        Position(box, i);
        s := s[box := s[box][2 * i := l][2 * i + 1 := r]];
      }
    }

    lemma Position(box: nat, i: nat)
      requires i < 128
      ensures (128 * box + i) / 128 == box && (128 * box + i) % 128 == i
    {
    }

    method EncryptBlock(left: bv32, right: bv32) returns (l: bv32, r: bv32)
      requires Valid()
      ensures (l, r) == Encrypted(View(), (left, right))
    {
      hide F, Xor;
      l, r := left, right;
      for i := 0 to 16
        invariant (l, r) == RoundsTo(View(), p, (left, right), i)
      {
        l := Xor(l, p[i]);
        r := Xor(r, F(Boxes(p, s), l));
        l, r := r, l;
      }
      l, r := r, l;
      l, r := Xor(l, p[17]), Xor(r, p[16]);
    }

    method DecryptBlock(left: bv32, right: bv32) returns (l: bv32, r: bv32)
      requires Valid()
      ensures (l, r) == Decrypted(View(), (left, right))
    {
      hide F, Xor;
      l, r := left, right;
      var i := 17;
      while i > 1
        invariant 1 <= i <= 17
        invariant (l, r) == RoundsTo(View(), Reversed(p), (left, right), 17 - i)
      {
        l := Xor(l, p[i]);
        r := Xor(r, F(Boxes(p, s), l));
        l, r := r, l;
        i := i - 1;
      }
      l, r := r, l;
      l, r := Xor(l, p[0]), Xor(r, p[1]);
    }

    method EncryptEcb(data: Bytes) returns (r: Octets.Result<Bytes, BlowfishError>)
      requires Valid()
      ensures r == if |data| % 8 != 0 then Octets.Err(NotWholeBlocks) else Octets.Ok(Ecb(View(), p, data))
    {
      hide Crypted, Halves, Joined;
      if |data| % 8 != 0 { return Octets.Err(NotWholeBlocks); }
      var out := [];
      var i := 0;
      assert data[0..] == data;
      while i < |data|
        invariant 0 <= i <= |data| && i % 8 == 0
        invariant out + Ecb(View(), p, data[i..]) == Ecb(View(), p, data)
      {
        assert data[i..][..8] == data[i..i + 8] && data[i..][8..] == data[i + 8..];
        var h := Halves(data[i..i + 8]);
        var left, right := EncryptBlock(h.0, h.1);
        ghost var more := Ecb(View(), p, data[i + 8..]);
        assert out + (Joined((left, right)) + more) == (out + Joined((left, right))) + more;
        out := out + Joined((left, right));
        i := i + 8;
      }
      assert data[i..] == [] && out + [] == out;
      return Octets.Ok(out);
    }

    method DecryptEcb(data: Bytes) returns (r: Octets.Result<Bytes, BlowfishError>)
      requires Valid()
      ensures r == if |data| % 8 != 0 then Octets.Err(NotWholeBlocks) else Octets.Ok(Ecb(View(), Reversed(p), data))
    {
      hide Crypted, Halves, Joined;
      if |data| % 8 != 0 { return Octets.Err(NotWholeBlocks); }
      var out := [];
      var i := 0;
      assert data[0..] == data;
      while i < |data|
        invariant 0 <= i <= |data| && i % 8 == 0
        invariant out + Ecb(View(), Reversed(p), data[i..]) == Ecb(View(), Reversed(p), data)
      {
        assert data[i..][..8] == data[i..i + 8] && data[i..][8..] == data[i + 8..];
        var h := Halves(data[i..i + 8]);
        var left, right := DecryptBlock(h.0, h.1);
        ghost var more := Ecb(View(), Reversed(p), data[i + 8..]);
        assert out + (Joined((left, right)) + more) == (out + Joined((left, right))) + more;
        out := out + Joined((left, right));
        i := i + 8;
      }
      assert data[i..] == [] && out + [] == out;
      return Octets.Ok(out);
    }

    /** Masks one stretch of at most eight bytes in place, feeding the ciphertext back. */
    method FeedBack(fb: array<bv8>, data: Bytes, decrypt: bool) returns (out: Bytes)
      requires fb.Length == 8 && |data| <= 8
      modifies fb
      ensures out == Masked(data, old(fb[..]))
      ensures fb[..] == (if decrypt then data else out) + old(fb[..])[|data|..]
    {
      hide XorByte;
      out := [];
      for k := 0 to |data|
        invariant |out| == k
        invariant forall j | 0 <= j < k :: out[j] == XorByte(data[j], old(fb[j]))
        invariant forall j | 0 <= j < k :: fb[j] == if decrypt then data[j] else out[j]
        invariant forall j | k <= j < 8 :: fb[j] == old(fb[j])
      {
        var o := XorByte(data[k], fb[k]);
        out := out + [o];
        fb[k] := if decrypt then data[k] else o;
      }
    }

    method CfbBlock(fb: array<bv8>, piece: Bytes, decrypt: bool) returns (block: Bytes)
      requires Valid() && fb.Length == 8 && |piece| <= 8
      modifies fb
      ensures Valid() && View() == old(View())
      ensures (block, fb[..]) == Fed(View(), old(fb[..]), piece, decrypt)
    {
      hide Encrypted, Halves, Joined, Masked;
      Refresh(fb);
      block := FeedBack(fb, piece, decrypt);
    }

    method Cfb64(iv: Bytes, data: Bytes, decrypt: bool) returns (r: Octets.Result<Bytes, BlowfishError>)
      requires Valid()
      ensures r == if |iv| != 8 then Octets.Err(BadIv) else Octets.Ok(Cfb(View(), iv, data, decrypt))
    {
      hide Encrypted, Halves, Joined, Masked, Cfb;
      if |iv| != 8 { return Octets.Err(BadIv); }
      var fb := new bv8[8](i requires 0 <= i < 8 => iv[i]);
      assert fb[..] == iv && data[0..] == data;
      var out: Bytes := [];
      var start := 0;
      while start < |data|
        invariant 0 <= start <= |data|
        invariant Valid() && View() == old(View())
        invariant out + Cfb(View(), fb[..], data[start..], decrypt) == Cfb(View(), iv, data, decrypt)
        decreases |data| - start
      {
        var n := if |data| - start < 8 then |data| - start else 8;
        CfbStep(View(), fb[..], data, start, out, decrypt);
        var block := CfbBlock(fb, data[start..start + n], decrypt);
        out := out + block;
        start := start + n;
      }
      CfbNone(View(), fb[..], decrypt);
      assert data[start..] == [] && out + [] == out;
      return Octets.Ok(out);
    }

    /** The register replaced by its own encryption. */
    method Refresh(fb: array<bv8>)
      requires Valid() && fb.Length == 8
      modifies fb
      ensures fb[..] == Joined(Encrypted(View(), Halves(old(fb[..]))))
      ensures Valid() && View() == old(View())
    {
      hide Encrypted, Halves, Joined;
      var h := Halves(fb[..]);
      var left, right := EncryptBlock(h.0, h.1);
      var fresh_ := Joined((left, right));
      for k := 0 to 8
        invariant forall j | 0 <= j < k :: fb[j] == fresh_[j]
        invariant Valid() && View() == old(View())
      {
        fb[k] := fresh_[k];
      }
    }
  }
}
