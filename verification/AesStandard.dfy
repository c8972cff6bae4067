/** The cipher byte by byte, as FIPS 197 writes it: each lemma says what a byte of the result
    is from the bytes before, over the S-box, the field's product and sum alone. */
module AesStandard {
  import opened Gf256
  import opened AesTables
  import opened Aes
  import Octets

  // ----- section 5.2: key expansion -----

  /** The round constants: one, and then each twice the one before. */
  function Constant(k: nat): bv8 { if k == 0 then 1 else Xtime(Constant(k - 1)) }

  lemma {:induction false} RconIs(k: nat)
    requires k < 14
    ensures RCON[k] == Constant(k)
  {
    if k > 0 {
      RconIs(k - 1);
      RconStep(k);
      hide Xtime;
    }
  }

  lemma RconStep(k: nat)
    requires 0 < k < 14
    ensures RCON[k] == Xtime(RCON[k - 1])
  {
    assert Xtime(0x01) == 0x02 && Xtime(0x02) == 0x04 && Xtime(0x04) == 0x08 && Xtime(0x08) == 0x10;
    assert Xtime(0x10) == 0x20 && Xtime(0x20) == 0x40 && Xtime(0x40) == 0x80 && Xtime(0x80) == 0x1B;
    assert Xtime(0x1B) == 0x36 && Xtime(0x36) == 0x6C && Xtime(0x6C) == 0xD8 && Xtime(0xD8) == 0xAB;
    assert Xtime(0xAB) == 0x4D;
    hide Xtime;
  }

  /** What is mixed into byte `j` of word `i` of a key of `size` bytes: every fourth, sixth or
      eighth word the word before it turned by a byte, substituted, the first byte with the
      round constant; for 32-byte keys half-way between, the word before it substituted; and
      otherwise that word. */
  function Mixture(sbox: Bytes, before: Bytes, size: nat, i: nat, j: nat): bv8
    requires |sbox| == 256 && |before| == 4 && j < 4 && size / 4 > 0 && i >= size / 4
  {
    var nk := size / 4;
    if i % nk == 0 then Add(At(sbox, before[(j + 1) % 4]), if j == 0 then Constant(i / nk - 1) else 0)
    else if size == 32 && i % 8 == 4 then At(sbox, before[j])
    else before[j]
  }

  lemma CoreIs(sbox: Bytes, temp: Bytes, size: nat, i: nat, j: nat)
    requires |sbox| == 256 && |temp| == 4 && KeySize(size) && size / 4 <= i < 60 && j < 4
    ensures ScheduleCore(sbox, temp, size / 4, i)[j] == Mixture(sbox, temp, size, i, j)
  {
    hide At, Add, Constant;
    var nk := size / 4;
    RconBound(nk, i);
    RconIs(i / nk - 1);
    AddLaws(At(sbox, temp[(j + 1) % 4]), 0, 0);
    assert (temp[1..] + temp[..1])[j] == temp[(j + 1) % 4];
  }

  /** Every byte of every word of the expanded key, for all three key sizes. */
  lemma ScheduleBytes(sbox: Bytes, key: Bytes, n: nat, i: nat, j: nat)
    requires |sbox| == 256 && KeySize(|key|) && i < n <= 60 && j < 4
    ensures var w := Words(sbox, key, n);
            var nk := |key| / 4;
            && (i < nk ==> w[i][j] == key[4 * i + j])
            && (i >= nk ==> w[i][j] == Add(w[i - nk][j], Mixture(sbox, w[i - 1], |key|, i, j)))
  {
    WordsRecurrence(sbox, key, n, i);
    hide Words, ScheduleCore, Mixture, Add;
    if i >= |key| / 4 { CoreIs(sbox, Words(sbox, key, n)[i - 1], |key|, i, j); }
  }

  lemma {:induction false} RoundKeysAre(words: seq<Bytes>, n: nat, r: nat)
    requires 4 * n <= |words| && r < n && forall i | 0 <= i < |words| :: |words[i]| == 4
    ensures RoundKeys(words, n)[r] == RoundKey(words, r)
    decreases n
  {
    hide RoundKey;
    if r < n - 1 { RoundKeysAre(words, n - 1, r); }
  }

  /** Round key `r` is words 4r to 4r + 3; there are six rounds more than words in the key. */
  lemma RoundKeyBytes(sbox: Bytes, key: Bytes, r: nat, column: nat, j: nat)
    requires |sbox| == 256 && KeySize(|key|) && r <= |key| / 4 + 6 && column < 4 && j < 4
    ensures CipherOf(sbox, key).Ok?
    ensures var c := CipherOf(sbox, key).value;
            c.rounds == |key| / 4 + 6 && |c.keys| == c.rounds + 1 && |c.keys[r]| == 16
            && c.keys[r][4 * column + j] == Words(sbox, key, 4 * (c.rounds + 1))[4 * r + column][j]
  {
    hide Words;
    var n := Rounds(|key|) + 1;
    var words := Words(sbox, key, 4 * n);
    RoundKeysAre(words, n, r);
    RoundKeyIs(words, r, column, j);
    hide RoundKey, RoundKeys;
  }

  lemma RoundKeyIs(words: seq<Bytes>, r: nat, column: nat, j: nat)
    requires 4 * r + 4 <= |words| && column < 4 && j < 4 && forall i | 0 <= i < |words| :: |words[i]| == 4
    ensures RoundKey(words, r)[4 * column + j] == words[4 * r + column][j]
  {
    var a, b, c, d := words[4 * r], words[4 * r + 1], words[4 * r + 2], words[4 * r + 3];
    assert RoundKey(words, r) == a + b + c + d;
    hide RoundKey;
    if column == 0 {
      assert (a + b + c + d)[j] == a[j];
    } else if column == 1 {
      assert (a + b + c + d)[4 + j] == b[j];
    } else if column == 2 {
      assert (a + b + c + d)[8 + j] == c[j];
    } else {
      assert (a + b + c + d)[12 + j] == d[j];
    }
  }

  // ----- section 5.1: the rounds -----

  /** Where byte `i` comes from when rows are shifted: row `r` of column `c` from row `r` of
      column `c + r`. */
  function From(i: nat): (k: nat)
    requires i < 16
    ensures k < 16
  {
    4 * ((i / 4 + i % 4) % 4) + i % 4
  }

  /** The state with its bytes substituted and its rows shifted. */
  function Shifted(sbox: Bytes, s: Bytes): (t: Bytes)
    requires |sbox| == 256 && |s| == 16
    ensures |t| == 16 && forall i | 0 <= i < 16 :: t[i] == At(sbox, s[From(i)])
  {
    hide At, From;
    seq(16, i requires 0 <= i < 16 => At(sbox, s[From(i)]))
  }

  lemma ShiftedIs(sbox: Bytes, s: Bytes)
    requires |sbox| == 256 && |s| == 16
    ensures ShiftedRows(Mapped(sbox, s)) == Shifted(sbox, s)
  {
    hide At, ShiftedRows, Mapped, From, Shifted;
    forall i | 0 <= i < 16
      ensures ShiftedRows(Mapped(sbox, s))[i] == Shifted(sbox, s)[i]
    {
      ShiftedRow(Mapped(sbox, s), i);
    }
  }

  lemma ShiftedRow(s: Bytes, i: nat)
    requires |s| == 16 && i < 16
    ensures ShiftedRows(s)[i] == s[From(i)]
  {
    FromIs();
    hide From;
    assert i == 0 || i == 1 || i == 2 || i == 3 || i == 4 || i == 5 || i == 6 || i == 7
      || i == 8 || i == 9 || i == 10 || i == 11 || i == 12 || i == 13 || i == 14 || i == 15;
  }

  lemma FromIs()
    ensures From(0) == 0 && From(1) == 5 && From(2) == 10 && From(3) == 15
    ensures From(4) == 4 && From(5) == 9 && From(6) == 14 && From(7) == 3
    ensures From(8) == 8 && From(9) == 13 && From(10) == 2 && From(11) == 7
    ensures From(12) == 12 && From(13) == 1 && From(14) == 6 && From(15) == 11
  {
  }

  lemma MixedLast(s: Bytes, last: Bytes)
    requires |s| % 4 == 0 && |last| == 4
    ensures Mixed(s + last) == Mixed(s) + MixedColumn(last)
  {
    assert (s + last)[..|s|] == s && (s + last)[|s|..] == last;
  }

  lemma MixedColumns(s: Bytes)
    requires |s| == 16
    ensures Mixed(s) == MixedColumn(s[..4]) + MixedColumn(s[4..8]) + MixedColumn(s[8..12]) + MixedColumn(s[12..])
  {
    MixedNothing();
    hide MixedColumn, Mixed;
    MixedLast([], s[..4]);
    MixedLast(s[..4], s[4..8]);
    MixedLast(s[..8], s[8..12]);
    MixedLast(s[..12], s[12..]);
    assert [] + s[..4] == s[..4] && s[..4] + s[4..8] == s[..8] && s[..8] + s[8..12] == s[..12];
    assert s[..12] + s[12..] == s && [] + MixedColumn(s[..4]) == MixedColumn(s[..4]);
  }

  lemma ColumnIs(s: Bytes, column: nat, row: nat)
    requires |s| == 16 && column < 4 && row < 4
    ensures Mixed(s)[4 * column + row] == MixedColumn(s[4 * column..4 * column + 4])[row]
  {
    MixedColumns(s);
    hide Mixed, MixedColumn;
    var a, b, c, d := MixedColumn(s[..4]), MixedColumn(s[4..8]), MixedColumn(s[8..12]), MixedColumn(s[12..]);
    if column == 0 {
      assert s[0..4] == s[..4] && (a + b + c + d)[row] == a[row];
    } else if column == 1 {
      assert (a + b + c + d)[4 + row] == b[row];
    } else if column == 2 {
      assert (a + b + c + d)[8 + row] == c[row];
    } else {
      assert s[12..16] == s[12..] && (a + b + c + d)[12 + row] == d[row];
    }
  }

  /** Every byte after every full round: twice the byte shifted there, three times the next of
      its column, the other two, and the round key. */
  lemma RoundBytes(sbox: Bytes, c: Cipher, block: Bytes, r: nat, column: nat, row: nat)
    requires |sbox| == 256 && Usable(c) && |block| == 16 && 0 < r < c.rounds && column < 4 && row < 4
    ensures var t := Shifted(sbox, Forward(sbox, c, block, r - 1));
            var at := 4 * column;
            Forward(sbox, c, block, r)[at + row] ==
            Add(Add(Add(Mul(t[at + row], 2), Mul(t[at + (row + 1) % 4], 3)),
                    Add(t[at + (row + 2) % 4], t[at + (row + 3) % 4])), c.keys[r][at + row])
  {
    var s := Forward(sbox, c, block, r - 1);
    hide *;
    KeysFit(c, r);
    ForwardStep(sbox, c, block, r);
    ShiftedIs(sbox, s);
    var t := Shifted(sbox, s);
    XoredAt(Mixed(t), c.keys[r], 4 * column + row);
    ColumnBytes(t, column, row);
  }

  lemma XoredAt(a: Bytes, b: Bytes, i: nat)
    requires |a| == |b| && i < |a|
    ensures Xored(a, b)[i] == Add(a[i], b[i])
  {
  }

  lemma KeysFit(c: Cipher, r: nat)
    requires Usable(c) && r <= c.rounds
    ensures c.rounds > 0 && r < |c.keys| && |c.keys[r]| == 16
  {
  }

  lemma ForwardStep(sbox: Bytes, c: Cipher, block: Bytes, r: nat)
    requires |sbox| == 256 && Usable(c) && |block| == 16 && 0 < r < c.rounds
    ensures Forward(sbox, c, block, r) ==
            Xored(Mixed(ShiftedRows(Mapped(sbox, Forward(sbox, c, block, r - 1)))), c.keys[r])
  {
    hide Xored, Mixed, ShiftedRows, Mapped;
  }

  lemma EncryptedStep(sbox: Bytes, c: Cipher, block: Bytes)
    requires |sbox| == 256 && Usable(c) && |block| == 16
    ensures Encrypted(sbox, c, block) ==
            Xored(ShiftedRows(Mapped(sbox, Forward(sbox, c, block, c.rounds - 1))), c.keys[c.rounds])
  {
    hide Xored, ShiftedRows, Mapped, Forward;
  }

  lemma ColumnBytes(t: Bytes, column: nat, row: nat)
    requires |t| == 16 && column < 4 && row < 4
    ensures Mixed(t)[4 * column + row] ==
            Add(Add(Mul(t[4 * column + row], 2), Mul(t[4 * column + (row + 1) % 4], 3)),
                Add(t[4 * column + (row + 2) % 4], t[4 * column + (row + 3) % 4]))
  {
    hide Mixed, Mul, Add, MixedColumn;
    var a := t[4 * column..4 * column + 4];
    ColumnIs(t, column, row);
    MixedIsMatrix(a, row);
  }

  /** Before the first round, the block and the first round key. */
  lemma OpeningBytes(sbox: Bytes, c: Cipher, block: Bytes, i: nat)
    requires |sbox| == 256 && Usable(c) && |block| == 16 && i < 16
    ensures Forward(sbox, c, block, 0)[i] == Add(block[i], c.keys[0][i])
  {
    hide Add;
  }

  /** The last round mixes no columns. */
  lemma ClosingBytes(sbox: Bytes, c: Cipher, block: Bytes, i: nat)
    requires |sbox| == 256 && Usable(c) && |block| == 16 && i < 16
    ensures Encrypted(sbox, c, block)[i] ==
            Add(Shifted(sbox, Forward(sbox, c, block, c.rounds - 1))[i], c.keys[c.rounds][i])
  {
    var s := Forward(sbox, c, block, c.rounds - 1);
    hide *;
    KeysFit(c, c.rounds);
    EncryptedStep(sbox, c, block);
    ShiftedIs(sbox, s);
    XoredAt(Shifted(sbox, s), c.keys[c.rounds], i);
  }

  // ----- chaining and padding -----

  /** Block `i` of a CBC ciphertext is the encryption of block `i` mixed with the ciphertext
      block before it, or with the initialisation vector (section 6.2 of SP 800-38A). */
  lemma {:induction false} ChainedBlock(sbox: Bytes, c: Cipher, data: Bytes, iv: Bytes, i: nat)
    requires |sbox| == 256 && Usable(c) && |iv| == 16 && |data| % 16 == 0 && 16 * i + 16 <= |data|
    ensures var out := Chained(sbox, c, data, iv);
            out[16 * i..16 * i + 16] ==
            Encrypted(sbox, c, Xored(data[16 * i..16 * i + 16], if i == 0 then iv else out[16 * i - 16..16 * i]))
    decreases i
  {
    hide Encrypted, Xored, Usable;
    var block := Encrypted(sbox, c, Xored(data[..16], iv));
    var rest := data[16..];
    var out, more := Chained(sbox, c, data, iv), Chained(sbox, c, rest, block);
    assert out == block + more;
    hide Chained;
    assert data == data[..16] + rest;
    if i == 0 {
      assert out[0..16] == block && data[0..16] == data[..16];
    } else {
      var at := 16 * i - 16;
      ChainedBlock(sbox, c, rest, block, i - 1);
      Behind(block, more, at);
      Behind(data[..16], rest, at);
      if i == 1 { assert out[0..16] == block; } else { Behind(block, more, at - 16); }
    }
  }

  lemma Behind(a: Bytes, b: Bytes, at: nat)
    requires |a| == 16 && at + 16 <= |b|
    ensures (a + b)[at + 16..at + 32] == b[at..at + 16]
  {
  }

  /** Padding adds one to sixteen bytes, each their number (section 6.3 of RFC 5652). */
  lemma PaddedBytes(data: Bytes)
    ensures var p := Padded(data, 16);
            var n := |p| - |data|;
            1 <= n <= 16 && |p| % 16 == 0 && p[..|data|] == data && forall i | |data| <= i < |p| :: p[i] as int == n
  {
    PadLength(|data|, 16);
    var pad := 16 - |data| % 16;
    assert Padded(data, 16) == data + Repeated(ByteOf(pad), pad) by { ByteOfInt(ByteOf(pad), pad); }
    hide Padded, ByteOf;
  }
}
