/** PKCS#1 v1.5 signatures as `crypto/rsa.py` makes and checks them: padding, the
    private-key operation by the Chinese remainder theorem, and verification. The hash
    functions are a parameter. */
module Rsa {
  import opened Octets
  import opened NumberTheory

  datatype PublicKey = PublicKey(n: nat, e: nat)

  /** `p` and `q` are zero when the primes are not known. */
  datatype PrivateKey = PrivateKey(n: nat, e: nat, d: nat, p: nat, q: nat)

  datatype RsaError = UnsupportedDigest | MessageTooLong | NotInvertible

  type Hash = (string, bytes) -> bytes

  function Public(k: PrivateKey): PublicKey { PublicKey(k.n, k.e) }

  // ----- integers as big-endian bytes -----

  function BitLength(n: nat): nat { if n == 0 then 0 else 1 + BitLength(n / 2) }

  /** The modulus length in bytes. */
  function Size(n: nat): nat { (BitLength(n) + 7) / 8 }

  function FromBig(b: bytes): nat {
    if b == [] then 0 else 256 * FromBig(b[..|b| - 1]) + b[|b| - 1] as nat
  }

  lemma {:induction false} BigRoundTrip(x: nat, size: nat)
    requires x < Pow(256, size)
    ensures FromBig(Big(x, size)) == x
    decreases size
  {
    if size > 0 {
      BigRoundTrip(x / 256, size - 1);
      var b := Big(x, size);
      assert b[..|b| - 1] == Big(x / 256, size - 1);
    }
  }

  lemma {:induction false} FromBigRoundTrip(b: bytes)
    ensures FromBig(b) < Pow(256, |b|)
    ensures Big(FromBig(b), |b|) == b
    decreases |b|
  {
    if b != [] {
      var front, last := b[..|b| - 1], b[|b| - 1];
      FromBigRoundTrip(front);
      assert FromBig(b) == 256 * FromBig(front) + last as nat;
      hide FromBig, Pow, Big;
      BigLast(FromBig(front), last, |front|);
      PowNext(256, |front|);
      assert b == front + [last];
    }
  }

  lemma BigLast(high: nat, low: byte, width: nat)
    ensures Big(256 * high + low as nat, width + 1) == Big(high, width) + [low]
  {
    var x := 256 * high + low as nat;
    assert x / 256 == high && x % 256 == low as nat;
    assert Big(x, width + 1) == Big(x / 256, width) + [(x % 256) as byte];
  }

  lemma PowNext(x: int, n: nat)
    ensures Pow(x, n + 1) == x * Pow(x, n)
  {
  }

  lemma {:induction false} LeadingZero(b: bytes)
    requires b != [] && b[0] == 0
    ensures FromBig(b) < Pow(256, |b| - 1)
    decreases |b|
  {
    if |b| > 1 {
      LeadingZero(b[..|b| - 1]);
    } else {
      assert FromBig(b[..0]) == 0;
    }
  }

  lemma {:induction false} BitLengthBounds(n: nat)
    requires n > 0
    ensures BitLength(n) > 0 && Pow(2, BitLength(n) - 1) <= n < Pow(2, BitLength(n))
  {
    if n > 1 {
      BitLengthBounds(n / 2);
    } else {
      assert BitLength(1) == 1 + BitLength(0) && Pow(2, 1) == 2;
    }
  }

  lemma {:induction false} PowGrows(m: nat, n: nat)
    requires m <= n
    ensures 0 < Pow(2, m) <= Pow(2, n)
    decreases n
  {
    if m < n { PowGrows(m, n - 1); } else if m > 0 { PowGrows(m - 1, n - 1); }
  }

  lemma {:induction false} Pow256(k: nat)
    ensures Pow(256, k) == Pow(2, 8 * k)
  {
    PowMul(2, 8, k);
    assert Pow(2, 8) == 256 by { assert Pow(2, 4) == 16; PowAdd(2, 4, 4); }
  }

  /** The modulus needs exactly `Size` bytes. */
  lemma SizeBounds(n: nat)
    requires n > 0
    ensures Size(n) > 0 && Pow(256, Size(n) - 1) <= n < Pow(256, Size(n))
  {
    BitLengthBounds(n);
    Pow256(Size(n));
    Pow256(Size(n) - 1);
    PowGrows(BitLength(n), 8 * Size(n));
    PowGrows(8 * (Size(n) - 1), BitLength(n) - 1);
  }

  // ----- padding -----

  function Lower(s: string): string {
    if s == "" then ""
    else if s[0] == '-' then Lower(s[1..])
    else [if 'A' <= s[0] <= 'Z' then ((s[0] as int) + 32) as char else s[0]] + Lower(s[1..])
  }

  /** The DigestInfo prefix of each supported hash. */
  function DigestPrefix(name: string): Option<bytes> {
    if name == "sha1" then
      Some([0x30, 0x21, 0x30, 0x09, 0x06, 0x05, 0x2b, 0x0e, 0x03, 0x02, 0x1a, 0x05, 0x00, 0x04, 0x14])
    else if name == "sha256" then
      Some([0x30, 0x31, 0x30, 0x0d, 0x06, 0x09, 0x60, 0x86, 0x48, 0x01, 0x65, 0x03, 0x04, 0x02, 0x01, 0x05, 0x00,
        0x04, 0x20])
    else if name == "sha384" then
      Some([0x30, 0x41, 0x30, 0x0d, 0x06, 0x09, 0x60, 0x86, 0x48, 0x01, 0x65, 0x03, 0x04, 0x02, 0x02, 0x05, 0x00,
        0x04, 0x30])
    else if name == "sha512" then
      Some([0x30, 0x51, 0x30, 0x0d, 0x06, 0x09, 0x60, 0x86, 0x48, 0x01, 0x65, 0x03, 0x04, 0x02, 0x03, 0x05, 0x00,
        0x04, 0x40])
    else None
  }

  /** What goes inside the padding: the message itself, or DigestInfo and hash. */
  function Content(hash: Hash, message: bytes, digest: Option<string>): Result<bytes, RsaError> {
    match digest
    case None => Ok(message)
    case Some(name) =>
      match DigestPrefix(Lower(name))
      case None => Err(UnsupportedDigest)
      case Some(prefix) => Ok(prefix + hash(Lower(name), message))
  }

  function Filler(n: nat): (r: bytes)
    ensures |r| == n && forall i | 0 <= i < n :: r[i] == 0xFF
  {
    if n == 0 then [] else Filler(n - 1) + [0xFF]
  }

  function Frame(content: bytes, size: nat): (r: bytes)
    requires |content| + 11 <= size
    ensures |r| == size
  {
    [0x00, 0x01] + Filler(size - |content| - 3) + [0x00] + content
  }

  function Pad(hash: Hash, message: bytes, size: nat, digest: Option<string>): Result<bytes, RsaError> {
    match Content(hash, message, digest)
    case Err(e) => Err(e)
    case Ok(content) => if |content| + 11 > size then Err(MessageTooLong) else Ok(Frame(content, size))
  }

  /** The padded block tells its content: the first zero after the filler ends it. */
  lemma FrameInjective(a: bytes, b: bytes, size: nat)
    requires |a| + 11 <= size && |b| + 11 <= size && Frame(a, size) == Frame(b, size)
    ensures a == b
  {
    var x, y := Frame(a, size), Frame(b, size);
    var endA, endB := size - |a| - 1, size - |b| - 1;
    assert x[endA] == 0 && y[endB] == 0;
    assert forall i | 2 <= i < endA :: x[i] == 0xFF;
    assert forall i | 2 <= i < endB :: y[i] == 0xFF;
    assert endA == endB;
    assert a == x[size - |a|..] && b == y[size - |b|..];
  }

  // ----- what the standards say of the padding -----

  /** A number in base 128, most significant first, every digit but the last with its top bit
      set. */
  function Base128(n: nat, more: nat): bytes
    requires more == 0 || more == 0x80
  {
    (if n < 128 then [] else Base128(n / 128, 0x80)) + [(n % 128 + more) as byte]
  }

  function Arcs(arcs: seq<nat>): bytes {
    if arcs == [] then [] else Base128(arcs[0], 0) + Arcs(arcs[1..])
  }

  /** An object identifier's contents (section 8.19 of X.690): the first two arcs together. */
  function Oid(first: nat, second: nat, arcs: seq<nat>): bytes
    requires first <= 2 && second < 40
  {
    [(40 * first + second) as byte] + Arcs(arcs)
  }

  /** A DigestInfo up to the hash itself: a sequence of the algorithm, which is an identifier
      and NULL, and an octet string of `size` bytes (section 9.2 of RFC 8017). */
  function DigestInfo(oid: bytes, size: nat): bytes
    requires |oid| + size < 100
  {
    [0x30, (|oid| + 8 + size) as byte, 0x30, (|oid| + 4) as byte, 0x06, |oid| as byte] + oid
    + [0x05, 0x00, 0x04, size as byte]
  }

  lemma Sha1Oid()
    ensures Oid(1, 3, [14, 3, 2, 26]) == [0x2b, 0x0e, 0x03, 0x02, 0x1a]
  {
    SmallArcs([14, 3, 2, 26], [14, 3, 2, 26]);
    hide Arcs;
  }

  lemma Sha2Oid(last: nat)
    requires last < 128
    ensures Oid(2, 16, [840, 1, 101, 3, 4, 2, last]) == [0x60, 0x86, 0x48, 0x01, 0x65, 0x03, 0x04, 0x02, last as byte]
  {
    assert Base128(840, 0) == [0x86, 0x48] by { assert Base128(6, 0x80) == [0x86]; }
    var rest := [1, 101, 3, 4, 2, last];
    SmallArcs(rest, [1, 101, 3, 4, 2, last as byte]);
    assert [840, 1, 101, 3, 4, 2, last][1..] == rest;
    hide Base128;
  }

  lemma {:induction false} SmallArcs(arcs: seq<nat>, b: bytes)
    requires |arcs| == |b| && forall i | 0 <= i < |arcs| :: arcs[i] == b[i] as nat < 128
    ensures Arcs(arcs) == b
    decreases |arcs|
  {
    if arcs != [] {
      SmallArcs(arcs[1..], b[1..]);
      assert Base128(arcs[0], 0) == [b[0]];
      hide Base128;
      assert b == [b[0]] + b[1..];
    }
  }

  /** The four prefixes are the DigestInfo of the hash's identifier and size: 1.3.14.3.2.26
      for SHA-1, and 2.16.840.1.101.3.4.2 with 1, 2 or 3 behind it for SHA-256, -384, -512. No
      other digest is known. */
  lemma DigestPrefixIs(name: string)
    ensures name == "sha1" ==> DigestPrefix(name) == Some(DigestInfo(Oid(1, 3, [14, 3, 2, 26]), 20))
    ensures name == "sha256" ==> DigestPrefix(name) == Some(DigestInfo(Oid(2, 16, [840, 1, 101, 3, 4, 2, 1]), 32))
    ensures name == "sha384" ==> DigestPrefix(name) == Some(DigestInfo(Oid(2, 16, [840, 1, 101, 3, 4, 2, 2]), 48))
    ensures name == "sha512" ==> DigestPrefix(name) == Some(DigestInfo(Oid(2, 16, [840, 1, 101, 3, 4, 2, 3]), 64))
    ensures name !in ["sha1", "sha256", "sha384", "sha512"] ==> DigestPrefix(name) == None
  {
    Sha1Oid();
    Sha2Oid(1);
    Sha2Oid(2);
    Sha2Oid(3);
    hide Oid;
    assert DigestInfo([0x2b, 0x0e, 0x03, 0x02, 0x1a], 20) ==
           [0x30, 0x21, 0x30, 0x09, 0x06, 0x05, 0x2b, 0x0e, 0x03, 0x02, 0x1a, 0x05, 0x00, 0x04, 0x14];
    Sha2Info(1, 32);
    Sha2Info(2, 48);
    Sha2Info(3, 64);
    hide DigestInfo;
  }

  lemma Sha2Info(last: byte, size: nat)
    requires size < 90
    ensures DigestInfo([0x60, 0x86, 0x48, 0x01, 0x65, 0x03, 0x04, 0x02, last], size) ==
            [0x30, (size + 17) as byte, 0x30, 0x0d, 0x06, 0x09, 0x60, 0x86, 0x48, 0x01, 0x65, 0x03, 0x04, 0x02, last,
             0x05, 0x00, 0x04, size as byte]
  {
  }

  /** Names are read without their hyphens and in lower case. */
  lemma {:induction false} LowerJoins(a: string, b: string)
    ensures Lower(a + b) == Lower(a) + Lower(b)
    ensures Lower("-") == "" && forall c | 'A' <= c <= 'Z' :: Lower([c]) == [((c as int) + 32) as char]
    ensures forall c | c != '-' && !('A' <= c <= 'Z') :: Lower([c]) == [c]
    decreases |a|
  {
    assert forall c: char :: [c][1..] == "" && Lower("") == "";
    if a == "" {
      assert a + b == b;
    } else {
      assert (a + b)[0] == a[0] && (a + b)[1..] == a[1..] + b;
      LowerJoins(a[1..], b);
    }
  }

  // ----- the private-key operation -----

  function ModPow(b: int, e: nat, m: int): (r: int)
    requires m > 0
    ensures 0 <= r < m
  {
    Pow(b, e) % m
  }

  /** `pow(a, -1, m)`: the number in [0, m) whose product with `a` is 1 modulo `m`. */
  function InverseFrom(a: int, m: int, c: int): (r: Option<int>)
    requires m > 0 && 0 <= c <= m
    ensures r.Some? ==> 0 <= r.value < m && (a * r.value) % m == 1 % m
    ensures r.None? ==> forall x | c <= x < m :: (a * x) % m != 1 % m
    decreases m - c
  {
    if c == m then None
    else if (a * c) % m == 1 % m then Some(c)
    else InverseFrom(a, m, c + 1)
  }

  /** `value ** d mod n`, by the Chinese remainder theorem when the primes are known;
      None where the source raises. */
  function Power(k: PrivateKey, value: nat): (r: Option<nat>)
    ensures r.Some? ==> r.value < k.n
  {
    if k.n == 0 then None
    else if k.p != 0 && k.q != 0 then
      if k.p == 1 || k.q == 1 then None
      else
        var mp := ModPow(value % k.p, k.d % (k.p - 1), k.p);
        var mq := ModPow(value % k.q, k.d % (k.q - 1), k.q);
        match InverseFrom(k.q, k.p, 0)
        case None => None
        case Some(coefficient) => Some((mq + k.q * ((coefficient * (mp - mq)) % k.p)) % k.n)
    else Some(ModPow(value, k.d, k.n))
  }

  /** A genuine key: two distinct primes, and exponents inverse modulo each p-1. Both
      primes are odd, since nothing is 1 modulo 1. */
  ghost predicate Genuine(k: PrivateKey) {
    && Prime(k.p) && Prime(k.q) && k.p != k.q && k.n == k.p * k.q
    && (k.e * k.d) % (k.p - 1) == 1 && (k.e * k.d) % (k.q - 1) == 1
  }

  lemma ExponentReduces(e: nat, d: nat, p: nat)
    requires Prime(p) && (e * d) % (p - 1) == 1
    ensures d % (p - 1) != 0
  {
    if d % (p - 1) == 0 {
      assert e * d == d * e;
      MulModLeft(d, e, p - 1);
      assert 0 * e == 0;
      ModIs(0, 0, 0, p - 1);
    }
  }

  lemma InverseExists(a: int, p: int)
    requires Prime(p) && a % p != 0
    ensures InverseFrom(a, p, 0).Some?
  {
    var c := Pow(a, p - 2) % p;
    Fermat(a, p);
    assert Pow(a, p - 1) == a * Pow(a, p - 2);
    assert a * Pow(a, p - 2) == Pow(a, p - 2) * a && a * c == c * a;
    MulModLeft(Pow(a, p - 2), a, p);
    ModIs(1, 0, 1, p);
  }

  /** Each half of the CRT path is the plain power modulo its prime. */
  lemma HalfPower(value: nat, e: nat, d: nat, p: nat)
    requires Prime(p) && (e * d) % (p - 1) == 1
    ensures ModPow(value % p, d % (p - 1), p) == Pow(value, d) % p
  {
    ExponentReduces(e, d, p);
    ModMod(value, p);
    PowReduceExponent(value % p, d, p);
    PowMod(value, d, p);
  }

  /** Garner's recombination has the wanted remainders. */
  lemma Recombines(mp: int, mq: int, c: int, p: int, q: int)
    requires p > 1 && q > 1 && 0 <= mp < p && 0 <= mq < q && (q * c) % p == 1
    ensures (mq + q * ((c * (mp - mq)) % p)) % q == mq
    ensures (mq + q * ((c * (mp - mq)) % p)) % p == mp
  {
    var diff := mp - mq;
    var t := (c * diff) % p;
    assert q * t == t * q;
    AddMultiple(mq, t, q);
    ModIs(mq, 0, mq, q);
    MulModLeft(c * diff, q, p);
    assert (c * diff) * q == (q * c) * diff;
    MulModLeft(q * c, diff, p);
    assert 1 * diff == diff;
    CongSub(q * t, diff, p);
    CongSub(mq + q * t, mp, p);
    ModIs(mp, 0, mp, p);
  }

  /** The CRT path gives exactly `value ** d mod n`, as the path without the primes does. */
  lemma PowerIsModPow(k: PrivateKey, value: nat)
    requires Genuine(k)
    ensures k.n > 0 && Power(k, value) == Some(Pow(value, k.d) % k.n)
    ensures Power(k.(p := 0, q := 0), value) == Power(k, value)
  {
    var p, q := k.p, k.q;
    PrimeNotDivides(q, p);
    InverseExists(q, p);
    HalfPower(value, k.e, k.d, p);
    HalfPower(value, k.e, k.d, q);
    var mp, mq := Pow(value, k.d) % p, Pow(value, k.d) % q;
    var c := InverseFrom(q, p, 0).value;
    ModIs(1, 0, 1, p);
    Recombines(mp, mq, c, p, q);
    RemaindersDecide(mq + q * ((c * (mp - mq)) % p), Pow(value, k.d), p, q);
  }

  /** Raising to e and to d, in either order, is the identity modulo n. */
  lemma ExponentsCancel(k: PrivateKey, x: int)
    requires Genuine(k)
    ensures k.n > 0 && Pow(x, k.e * k.d) % k.n == x % k.n
  {
    var p, q, ed := k.p, k.q, k.e * k.d;
    DivMod(ed, p - 1);
    DivMod(ed, q - 1);
    assert ed / (p - 1) >= 0 by { if ed / (p - 1) < 0 { MulOrder(ed / (p - 1), p - 1); } }
    assert ed / (q - 1) >= 0 by { if ed / (q - 1) < 0 { MulOrder(ed / (q - 1), q - 1); } }
    PowUnitExponent(x, ed / (p - 1), p);
    PowUnitExponent(x, ed / (q - 1), q);
    RemaindersDecide(Pow(x, ed), x, p, q);
  }

  // ----- signing and verifying -----

  function Sign(k: PrivateKey, hash: Hash, message: bytes, digest: Option<string>): Result<bytes, RsaError> {
    match Pad(hash, message, Size(k.n), digest)
    case Err(e) => Err(e)
    case Ok(block) =>
      match Power(k, FromBig(block))
      case None => Err(NotInvertible)
      case Some(s) => Ok(Big(s, Size(k.n)))
  }

  function Verify(k: PublicKey, hash: Hash, message: bytes, signature: bytes, digest: Option<string>)
    : Result<bool, RsaError>
  {
    if |signature| != Size(k.n) then Ok(false)
    else
      match Pad(hash, message, Size(k.n), digest)
      case Err(e) => Err(e)
      case Ok(expected) =>
        if k.n == 0 then Err(NotInvertible)
        else Ok(Big(ModPow(FromBig(signature), k.e, k.n), Size(k.n)) == expected)
  }

  lemma {:induction false} PowSwap(x: int, a: nat, b: nat, n: int)
    requires n > 0
    ensures Pow(Pow(x, a) % n, b) % n == Pow(x, a * b) % n
  {
    PowMod(Pow(x, a), b, n);
    PowMul(x, a, b);
  }

  /** For a genuine key, s is an e-th root of v exactly when it is v's d-th power. */
  lemma RootIff(k: PrivateKey, v: nat, s: nat)
    requires Genuine(k) && v < k.n
    ensures Pow(s, k.e) % k.n == v <==> s % k.n == Pow(v, k.d) % k.n
  {
    var n := k.n;
    ModIs(v, 0, v, n);
    if Pow(s, k.e) % n == v {
      PowSwap(s, k.e, k.d, n);
      ExponentsCancel(k, s);
    }
    if s % n == Pow(v, k.d) % n {
      PowMod(s, k.e, n);
      PowSwap(v, k.d, k.e, n);
      assert k.d * k.e == k.e * k.d;
      ExponentsCancel(k, v);
    }
  }

  /** A padded block is below the modulus, and survives the trip through an integer. */
  lemma BlockFits(content: bytes, n: nat)
    requires n > 0 && |content| + 11 <= Size(n)
    ensures FromBig(Frame(content, Size(n))) < n
    ensures Big(FromBig(Frame(content, Size(n))), Size(n)) == Frame(content, Size(n))
  {
    var block := Frame(content, Size(n));
    assert block[0] == 0;
    LeadingZero(block);
    SizeBounds(n);
    FromBigRoundTrip(block);
  }

  lemma BigInjective(x: nat, y: nat, size: nat)
    requires x < Pow(256, size) && y < Pow(256, size) && Big(x, size) == Big(y, size)
    ensures x == y
  {
    BigRoundTrip(x, size);
    BigRoundTrip(y, size);
  }

  /** Signing succeeds exactly when the digest is known and the content fits the key. */
  lemma SignSucceedsIff(k: PrivateKey, hash: Hash, message: bytes, digest: Option<string>)
    requires Genuine(k)
    ensures Sign(k, hash, message, digest).Ok? <==>
            Content(hash, message, digest).Ok? && |Content(hash, message, digest).value| + 11 <= Size(k.n)
  {
    var pad := Pad(hash, message, Size(k.n), digest);
    if pad.Ok? { PowerIsModPow(k, FromBig(pad.value)); }
  }

  /** Verification accepts a string exactly when, as a number, it has the signature's
      remainder modulo n; a wrong length is refused. */
  lemma VerifyIff(k: PrivateKey, hash: Hash, message: bytes, signature: bytes, digest: Option<string>)
    requires Genuine(k) && Sign(k, hash, message, digest).Ok?
    ensures Verify(Public(k), hash, message, signature, digest) == Ok(true) <==>
            k.n > 0 && |signature| == Size(k.n)
            && FromBig(signature) % k.n == FromBig(Sign(k, hash, message, digest).value)
  {
    var n := k.n;
    var content := Content(hash, message, digest).value;
    var block := Frame(content, Size(n));
    var v, s := FromBig(block), FromBig(signature);
    PowerIsModPow(k, v);
    BlockFits(content, n);
    SizeBounds(n);
    BigRoundTrip(Pow(v, k.d) % n, Size(n));
    RootIff(k, v, s);
    if |signature| == Size(n) && Big(ModPow(s, k.e, n), Size(n)) == block {
      BigInjective(ModPow(s, k.e, n), v, Size(n));
    }
  }

  /** Every signature a genuine key makes is accepted by its public half. */
  lemma VerifyAcceptsSign(k: PrivateKey, hash: Hash, message: bytes, digest: Option<string>)
    requires Genuine(k) && Sign(k, hash, message, digest).Ok?
    ensures Verify(Public(k), hash, message, Sign(k, hash, message, digest).value, digest) == Ok(true)
  {
    var n := k.n;
    var v := FromBig(Pad(hash, message, Size(n), digest).value);
    PowerIsModPow(k, v);
    SizeBounds(n);
    BigRoundTrip(Pow(v, k.d) % n, Size(n));
    ModMod(Pow(v, k.d), n);
    VerifyIff(k, hash, message, Sign(k, hash, message, digest).value, digest);
  }

  lemma SignatureBelow(k: PrivateKey, hash: Hash, message: bytes, digest: Option<string>)
    requires Genuine(k) && Sign(k, hash, message, digest).Ok?
    ensures var sig := Sign(k, hash, message, digest).value; k.n > 0 && |sig| == Size(k.n) && FromBig(sig) < k.n
  {
    PowerIsModPow(k, FromBig(Pad(hash, message, Size(k.n), digest).value));
    hide Pow, Power, FromBig, Size, Pad, Genuine;
    VerifyAcceptsSign(k, hash, message, digest);
    VerifyIff(k, hash, message, Sign(k, hash, message, digest).value, digest);
  }

  /** A signature's number plus the modulus, where that still fits, is accepted as well. */
  lemma AcceptsAboveModulus(k: PrivateKey, hash: Hash, message: bytes, digest: Option<string>)
    requires Genuine(k) && Sign(k, hash, message, digest).Ok?
    requires FromBig(Sign(k, hash, message, digest).value) + k.n < Pow(256, Size(k.n))
    ensures var sig := Sign(k, hash, message, digest).value;
            var other := Big(FromBig(sig) + k.n, Size(k.n));
            && other != sig && FromBig(other) >= k.n
            && Verify(Public(k), hash, message, other, digest) == Ok(true)
  {
    hide Pow, FromBig, Size, Sign, Verify, Genuine;
    var s := FromBig(Sign(k, hash, message, digest).value);
    SignatureBelow(k, hash, message, digest);
    BigRoundTrip(s + k.n, Size(k.n));
    ModIs(s + k.n, 1, s, k.n);
    VerifyIff(k, hash, message, Big(s + k.n, Size(k.n)), digest);
  }

  /** And only then is any string but the signature accepted. */
  lemma OtherAcceptedIff(k: PrivateKey, hash: Hash, message: bytes, digest: Option<string>)
    requires Genuine(k) && Sign(k, hash, message, digest).Ok?
    ensures var sig := Sign(k, hash, message, digest).value;
            (exists other :: other != sig && Verify(Public(k), hash, message, other, digest) == Ok(true)) <==>
            FromBig(sig) + k.n < Pow(256, Size(k.n))
  {
    hide Pow, FromBig, Size, Sign, Verify, Genuine;
    var sig := Sign(k, hash, message, digest).value;
    SignatureBelow(k, hash, message, digest);
    FromBigRoundTrip(sig);
    if FromBig(sig) + k.n < Pow(256, Size(k.n)) {
      AcceptsAboveModulus(k, hash, message, digest);
    }
    if other :| other != sig && Verify(Public(k), hash, message, other, digest) == Ok(true) {
      VerifyIff(k, hash, message, other, digest);
      FromBigRoundTrip(other);
      NextUp(FromBig(other), FromBig(sig), k.n);
    }
  }

  lemma NextUp(x: nat, s: nat, n: nat)
    requires n > 0 && x % n == s && x != s
    ensures s + n <= x
  {
    var q := x / n;
    assert x == n * q + s;
    assert q != 0;
    assert n * q >= n;
  }

  /** An encoded message of section 9.2 of RFC 8017: 0, 1, at least eight bytes 0xFF, 0, and
      the content. */
  ghost predicate Encodes(block: bytes, content: bytes) {
    var end := |block| - |content| - 1;
    && end >= 10 && block[0] == 0 && block[1] == 1 && block[end] == 0 && block[end + 1..] == content
    && forall i | 2 <= i < end :: block[i] == 0xFF
  }

  /** What anyone with the public half recovers from a signature is the encoded message: the
      message itself, or the DigestInfo of a known hash and the hash of the message. */
  lemma SignatureRecovers(k: PrivateKey, hash: Hash, message: bytes, digest: Option<string>)
    requires Genuine(k) && Sign(k, hash, message, digest).Ok?
    ensures var sig := Sign(k, hash, message, digest).value;
            && k.n > 0 && |sig| == Size(k.n)
            && var block := Big(Pow(FromBig(sig), k.e) % k.n, Size(k.n));
               match digest
               case None => Encodes(block, message)
               case Some(name) =>
                 DigestPrefix(Lower(name)) != None
                 && Encodes(block, DigestPrefix(Lower(name)).value + hash(Lower(name), message))
  {
    SignatureBelow(k, hash, message, digest);
    VerifyAcceptsSign(k, hash, message, digest);
    hide Pow, FromBig, Size, Power, DigestPrefix, Lower, Big, Genuine, Filler;
    var content := Content(hash, message, digest).value;
    FrameEncodes(content, Size(k.n));
    hide Frame, Encodes;
  }

  lemma FrameEncodes(content: bytes, size: nat)
    requires |content| + 11 <= size
    ensures Encodes(Frame(content, size), content)
  {
  }

  /** Two messages signed bare, with no DigestInfo, never share a signature. */
  lemma SignInjective(k: PrivateKey, hash: Hash, a: bytes, b: bytes)
    requires Genuine(k) && Sign(k, hash, a, None).Ok? && Sign(k, hash, a, None) == Sign(k, hash, b, None)
    ensures a == b
  {
    var n := k.n;
    var va, vb := FromBig(Frame(a, Size(n))), FromBig(Frame(b, Size(n)));
    PowerIsModPow(k, va);
    PowerIsModPow(k, vb);
    SizeBounds(n);
    BigInjective(Pow(va, k.d) % n, Pow(vb, k.d) % n, Size(n));
    BlockFits(a, n);
    BlockFits(b, n);
    RootIff(k, va, Pow(va, k.d) % n);
    RootIff(k, vb, Pow(vb, k.d) % n);
    ModMod(Pow(va, k.d), n);
    FrameInjective(a, b, Size(n));
  }
}
