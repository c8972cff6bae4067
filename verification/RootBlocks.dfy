/** ROOT's block framing in `root/compression.py`: a run of blocks, each behind a
    nine-byte header. LZ4 is the codec modelled here; the library codecs and the XXH64
    checksum are parameters. */
module RootBlocks {
  import opened Octets
  import Lz4
  import NumberTheory

  const HEADER := 9
  const BLOCK := 0xFFFFFF

  datatype Algorithm = Zlib | Lzma | LZ4 | Zstd

  datatype Failure =
    | UnknownAlgorithm   // compress was asked for a name it has no tag for
    | BlockTooLong       // a packed length does not fit its three bytes
    | CodecFailed        // the library codec raised
    | RanOut             // the blocks end before the promised size
    | ShortBlock         // a block is shorter than its header says
    | BadLz4             // the LZ4 decoder refused the block
    | UnknownTag         // no reader for this tag
    | WrongTotal         // the blocks gave more than was promised

  /** The codecs that come from outside: zlib, lzma, zstd, raw deflate and XXH64. */
  datatype Library = Library(
    pack: (Algorithm, bytes, int) -> Option<bytes>,
    unpack: (Algorithm, bytes, nat) -> Option<bytes>,
    inflateRaw: (bytes, nat) -> Option<bytes>,
    checksum: bytes -> bytes)

  /** What is asked of the library: unpacking undoes packing, and the checksum is eight bytes. */
  ghost predicate Faithful(lib: Library) {
    && (forall a, chunk: bytes, level, z {:trigger lib.pack(a, chunk, level), lib.unpack(a, z, |chunk|)} ::
          lib.pack(a, chunk, level) == Some(z) ==> lib.unpack(a, z, |chunk|) == Some(chunk))
    && (forall body :: |lib.checksum(body)| == 8)
  }

  function Named(name: string): Option<Algorithm> {
    if name == "zlib" then Some(Zlib) else if name == "lzma" then Some(Lzma)
    else if name == "lz4" then Some(LZ4) else if name == "zstd" then Some(Zstd) else None
  }

  function DefaultLevel(a: Algorithm): int {
    match a case Zlib => 6 case Lzma => 6 case LZ4 => 1 case Zstd => 3
  }

  function Tag(a: Algorithm): bytes {
    match a
    case Zlib => [0x5A, 0x4C]   // "ZL"
    case Lzma => [0x58, 0x5A]   // "XZ"
    case LZ4 => [0x4C, 0x34]    // "L4"
    case Zstd => [0x5A, 0x53]   // "ZS"
  }

  const OLD_TAG: bytes := [0x43, 0x53]   // "CS"

  function MethodByte(a: Algorithm): byte {
    match a case Zlib => 8 case Lzma => 0 case LZ4 => 1 case Zstd => 1
  }

  function Little3(n: nat): bytes
    requires n <= BLOCK
  {
    [(n % 256) as byte, (n / 256 % 256) as byte, (n / 65536) as byte]
  }

  function FromLittle3(a: byte, b: byte, c: byte): nat { a as nat + 256 * b as nat + 65536 * c as nat }

  lemma Little3RoundTrip(n: nat)
    requires n <= BLOCK
    ensures FromLittle3(Little3(n)[0], Little3(n)[1], Little3(n)[2]) == n
  {
    assert n / 65536 == n / 256 / 256;
  }

  // ----- writing -----

  function Body(lib: Library, a: Algorithm, level: int, chunk: bytes): Option<bytes> {
    if a == LZ4 then
      var body := Lz4.Packed(chunk);
      Some(lib.checksum(body) + body)
    else lib.pack(a, chunk, level)
  }

  function HeaderOf(a: Algorithm, packed: nat, unpacked: nat): (r: bytes)
    requires packed <= BLOCK && unpacked <= BLOCK
    ensures |r| == HEADER
  {
    Tag(a) + [MethodByte(a)] + Little3(packed) + Little3(unpacked)
  }

  function BlockOf(lib: Library, a: Algorithm, level: int, chunk: bytes): Result<bytes, Failure>
    requires |chunk| <= BLOCK
  {
    match Body(lib, a, level, chunk)
    case None => Err(CodecFailed)
    case Some(packed) =>
      if |packed| > BLOCK then Err(BlockTooLong) else Ok(HeaderOf(a, |packed|, |chunk|) + packed)
  }

  /** The blocks of `data`, cut every 0xFFFFFF bytes; the empty string is one empty block. */
  function Compressed(lib: Library, a: Algorithm, level: int, data: bytes): Result<bytes, Failure> {
    if |data| <= BLOCK then BlockOf(lib, a, level, data)
    else
      match BlockOf(lib, a, level, data[..BLOCK])
      case Err(e) => Err(e)
      case Ok(first) =>
        match Compressed(lib, a, level, data[BLOCK..])
        case Err(e) => Err(e)
        case Ok(rest) => Ok(first + rest)
  }

  ghost function After(out: bytes, rest: Result<bytes, Failure>): Result<bytes, Failure> {
    match rest case Ok(more) => Ok(out + more) case Err(e) => Err(e)
  }

  method CompressBlock(lib: Library, a: Algorithm, level: int, chunk: bytes) returns (r: Result<bytes, Failure>)
    requires |chunk| <= BLOCK
    ensures r == BlockOf(lib, a, level, chunk)
  {
    var packed: bytes;
    if a == LZ4 {
      var body := Lz4.Pack(chunk);
      packed := lib.checksum(body) + body;
    } else {
      var p := lib.pack(a, chunk, level);
      if p == None { return Err(CodecFailed); }
      packed := p.value;
    }
    if |packed| > BLOCK { return Err(BlockTooLong); }
    return Ok(HeaderOf(a, |packed|, |chunk|) + packed);
  }

  method Compress(lib: Library, data: bytes, algorithm: string, level: Option<int>)
    returns (r: Result<bytes, Failure>)
    ensures Named(algorithm) == None ==> r == Err(UnknownAlgorithm)
    ensures Named(algorithm) != None ==>
              var a := Named(algorithm).value;
              var usual := if a == LZ4 then 1 else if a == Zstd then 3 else 6;
              r == Compressed(lib, a, if level == None then usual else level.value, data)
  {
    hide BlockOf;
    var a := Named(algorithm);
    if a == None { return Err(UnknownAlgorithm); }
    var lvl := if level == None then DefaultLevel(a.value) else level.value;
    var out: bytes := [];
    var start := 0;
    ghost var whole := Compressed(lib, a.value, lvl, data);
    assert data[0..] == data && (whole.Ok? ==> [] + whole.value == whole.value);
    while |data| - start > BLOCK
      invariant 0 <= start <= |data|
      invariant After(out, Compressed(lib, a.value, lvl, data[start..])) == whole
    {
      var block := CompressBlock(lib, a.value, lvl, data[start..start + BLOCK]);
      assert data[start..][..BLOCK] == data[start..start + BLOCK];
      assert data[start..][BLOCK..] == data[start + BLOCK..];
      if block.Err? { return block; }
      ghost var rest := Compressed(lib, a.value, lvl, data[start + BLOCK..]);
      assert rest.Ok? ==> (out + block.value) + rest.value == out + (block.value + rest.value);
      out := out + block.value;
      start := start + BLOCK;
    }
    var last := CompressBlock(lib, a.value, lvl, data[start..]);
    if last.Err? { return last; }
    return Ok(out + last.value);
  }

  /** A block byte by byte: two letters for the algorithm, its method byte, the packed and the
      unpacked length in three bytes each, low byte first, and the packed bytes; for LZ4 these
      are the checksum of the packed block and that block. */
  lemma BlockBytes(lib: Library, name: string, level: int, chunk: bytes)
    requires Faithful(lib) && |chunk| <= 0xFFFFFF
    ensures Named(name) == None <==> name !in ["zlib", "lzma", "lz4", "zstd"]
    ensures Named(name) != None && BlockOf(lib, Named(name).value, level, chunk).Ok? ==>
              var a := Named(name).value;
              var b := BlockOf(lib, a, level, chunk).value;
              && |b| >= 9
              && b[3] as nat + 0x100 * b[4] as nat + 0x1_0000 * b[5] as nat == |b| - 9
              && b[6] as nat + 0x100 * b[7] as nat + 0x1_0000 * b[8] as nat == |chunk|
              && (name == "zlib" ==> b[..3] == Ascii("ZL") + [8] && Some(b[9..]) == lib.pack(a, chunk, level))
              && (name == "lzma" ==> b[..3] == Ascii("XZ") + [0] && Some(b[9..]) == lib.pack(a, chunk, level))
              && (name == "zstd" ==> b[..3] == Ascii("ZS") + [1] && Some(b[9..]) == lib.pack(a, chunk, level))
              && (name == "lz4" ==>
                    && |b| >= 17 && b[..3] == Ascii("L4") + [1]
                    && b[9..17] == lib.checksum(b[17..]) && b[17..] == Lz4.Packed(chunk))
  {
    NamesDiffer();
    hide Lz4.Packed;
    if Named(name) != None {
      var a := Named(name).value;
      if BlockOf(lib, a, level, chunk).Ok? {
        var packed := Body(lib, a, level, chunk).value;
        var head := HeaderOf(a, |packed|, |chunk|);
        var b := head + packed;
        Little3RoundTrip(|packed|);
        Little3RoundTrip(|chunk|);
        TagBytes(a);
        assert b[..3] == Tag(a) + [MethodByte(a)];
        assert b[9..] == packed;
        if a == LZ4 {
          var body := Lz4.Packed(chunk);
          assert packed == lib.checksum(body) + body;
          assert b[9..17] == packed[..8] && b[17..] == packed[8..];
        }
      }
    }
  }

  lemma NamesDiffer()
    ensures "zlib" != "lzma" && "zlib" != "lz4" && "zlib" != "zstd" && "lzma" != "lz4" && "lzma" != "zstd"
    ensures "lz4" != "zstd"
  {
    assert "zlib"[0] == 'z' && "lzma"[0] == 'l' && "zstd"[1] == 's' && |"lz4"| == 3;
  }

  /** The bytes of an ASCII string. */
  function Ascii(s: string): bytes
    requires forall i | 0 <= i < |s| :: s[i] <= '~'
  {
    seq(|s|, i requires 0 <= i < |s| => s[i] as int as byte)
  }

  lemma TagBytes(a: Algorithm)
    ensures Tag(a) == Ascii(match a { case Zlib => "ZL" case Lzma => "XZ" case LZ4 => "L4" case Zstd => "ZS" })
  {
  }

  // ----- reading -----

  function Undo(lib: Library, tag: bytes, block: bytes, unpacked: nat): Result<bytes, Failure> {
    if tag == Tag(Zlib) then Expect(lib.unpack(Zlib, block, unpacked))
    else if tag == OLD_TAG then
      match lib.inflateRaw(block, unpacked)
      case None => Err(CodecFailed)
      case Some(out) => if |out| == unpacked then Ok(out) else Err(WrongTotal)
    else if tag == Tag(Lzma) then Expect(lib.unpack(Lzma, block, unpacked))
    else if tag == Tag(LZ4) then
      match Lz4.Unpacked(Slice(block, 8, |block|), unpacked)
      case Err(_) => Err(BadLz4)
      case Ok(out) => Ok(out)
    else if tag == Tag(Zstd) then Expect(lib.unpack(Zstd, block, unpacked))
    else Err(UnknownTag)
  }

  function Expect(o: Option<bytes>): Result<bytes, Failure> {
    match o case None => Err(CodecFailed) case Some(out) => Ok(out)
  }

  /** Undoes blocks off the front of `rest` until `out` holds `size` bytes. */
  function Inflate(lib: Library, rest: bytes, out: bytes, size: int): Result<bytes, Failure>
    decreases |rest|
  {
    if |out| >= size then (if |out| == size then Ok(out) else Err(WrongTotal))
    else if |rest| < HEADER then Err(RanOut)
    else
      var packed := FromLittle3(rest[3], rest[4], rest[5]);
      var unpacked := FromLittle3(rest[6], rest[7], rest[8]);
      if |rest| < HEADER + packed then Err(ShortBlock)
      else
        match Undo(lib, rest[..2], rest[HEADER..HEADER + packed], unpacked)
        case Err(e) => Err(e)
        case Ok(piece) => Inflate(lib, rest[HEADER + packed..], out + piece, size)
  }

  method Decompress(lib: Library, data: bytes, size: int) returns (r: Result<bytes, Failure>)
    ensures r == Inflate(lib, data, [], size)
  {
    hide FromLittle3, Undo, Inflate;
    var out: bytes := [];
    var pos := 0;
    assert data[0..] == data;
    while |out| < size
      invariant 0 <= pos <= |data|
      invariant Inflate(lib, data[pos..], out, size) == Inflate(lib, data, [], size)
      decreases |data| - pos
    {
      InflateStep(lib, data, pos, out, size);
      if pos + HEADER > |data| { return Err(RanOut); }
      var packed := FromLittle3(data[pos + 3], data[pos + 4], data[pos + 5]);
      var unpacked := FromLittle3(data[pos + 6], data[pos + 7], data[pos + 8]);
      if pos + HEADER + packed > |data| { return Err(ShortBlock); }
      var tag, block := data[pos..pos + 2], data[pos + HEADER..pos + HEADER + packed];
      pos := pos + HEADER + packed;
      var piece := Undone(lib, tag, block, unpacked);
      if piece.Err? { return piece; }
      out := out + piece.value;
    }
    InflateEnd(lib, data[pos..], out, size);
    if |out| != size { return Err(WrongTotal); }
    return Ok(out);
  }

  /** One block undone; LZ4 by the decoder loop. */
  method Undone(lib: Library, tag: bytes, block: bytes, unpacked: nat) returns (piece: Result<bytes, Failure>)
    ensures piece == Undo(lib, tag, block, unpacked)
  {
    hide Lz4.Unpacked;
    if tag == Tag(LZ4) {
      var undone := Lz4.Unpack(Slice(block, 8, |block|), unpacked);
      piece := match undone case Err(_) => Err(BadLz4) case Ok(o) => Ok(o);
    } else {
      piece := Undo(lib, tag, block, unpacked);
    }
  }

  /** One block of what is left from `pos` on. */
  lemma InflateStep(lib: Library, data: bytes, pos: nat, out: bytes, size: int)
    requires pos <= |data| && |out| < size
    ensures pos + HEADER > |data| ==> Inflate(lib, data[pos..], out, size) == Err(RanOut)
    ensures pos + HEADER <= |data| ==>
              var packed := FromLittle3(data[pos + 3], data[pos + 4], data[pos + 5]);
              var unpacked := FromLittle3(data[pos + 6], data[pos + 7], data[pos + 8]);
              Inflate(lib, data[pos..], out, size) ==
              if pos + HEADER + packed > |data| then Err(ShortBlock)
              else
                match Undo(lib, data[pos..pos + 2], data[pos + HEADER..pos + HEADER + packed], unpacked)
                case Err(e) => Err(e)
                case Ok(piece) => Inflate(lib, data[pos + HEADER + packed..], out + piece, size)
  {
    hide FromLittle3, Undo;
    var rest := data[pos..];
    if pos + HEADER <= |data| {
      var packed := FromLittle3(rest[3], rest[4], rest[5]);
      assert rest[..2] == data[pos..pos + 2];
      if |rest| >= HEADER + packed {
        assert rest[HEADER..HEADER + packed] == data[pos + HEADER..pos + HEADER + packed];
        assert rest[HEADER + packed..] == data[pos + HEADER + packed..];
      }
    }
  }

  lemma InflateEnd(lib: Library, rest: bytes, out: bytes, size: int)
    requires |out| >= size
    ensures Inflate(lib, rest, out, size) == if |out| == size then Ok(out) else Err(WrongTotal)
  {
  }

  // ----- the round trip -----

  /** A block is undone to its chunk, whatever blocks follow it. */
  lemma BlockRoundTrip(lib: Library, a: Algorithm, level: int, chunk: bytes, next: bytes, out: bytes, size: int)
    requires Faithful(lib) && |chunk| <= BLOCK && BlockOf(lib, a, level, chunk).Ok? && |out| < size
    ensures Inflate(lib, BlockOf(lib, a, level, chunk).value + next, out, size) == Inflate(lib, next, out + chunk, size)
  {
    hide Lz4.Unpacked, Lz4.Packed;
    var packed := Body(lib, a, level, chunk).value;
    var head := HeaderOf(a, |packed|, |chunk|);
    var rest := head + packed + next;
    Little3RoundTrip(|packed|);
    Little3RoundTrip(|chunk|);
    assert rest[..2] == Tag(a);
    assert rest[HEADER..HEADER + |packed|] == packed;
    assert rest[HEADER + |packed|..] == next;
    UndoBody(lib, a, level, chunk);
  }

  lemma UndoBody(lib: Library, a: Algorithm, level: int, chunk: bytes)
    requires Faithful(lib) && Body(lib, a, level, chunk).Some?
    ensures Undo(lib, Tag(a), Body(lib, a, level, chunk).value, |chunk|) == Ok(chunk)
  {
    if a == LZ4 {
      var body := Lz4.Packed(chunk);
      var packed := lib.checksum(body) + body;
      assert Slice(packed, 8, |packed|) == body;
      Lz4.RoundTrip(chunk);
    } else {
      var z := lib.pack(a, chunk, level).value;
      assert lib.unpack(a, z, |chunk|) == Some(chunk);
    }
  }

  lemma InflateDone(lib: Library, out: bytes)
    ensures Inflate(lib, [], out, |out|) == Ok(out)
  {
  }

  lemma {:induction false} InflateCompressed(lib: Library, a: Algorithm, level: int, data: bytes, out: bytes)
    requires Faithful(lib) && Compressed(lib, a, level, data).Ok? && data != []
    ensures Inflate(lib, Compressed(lib, a, level, data).value, out, |out| + |data|) == Ok(out + data)
    decreases |data|
  {
    hide BlockOf, Undo, Inflate, Faithful;
    var size := |out| + |data|;
    if |data| <= BLOCK {
      var z := BlockOf(lib, a, level, data).value;
      BlockRoundTrip(lib, a, level, data, [], out, size);
      assert z + [] == z;
      InflateDone(lib, out + data);
    } else {
      var chunk, more := data[..BLOCK], data[BLOCK..];
      BlockRoundTrip(lib, a, level, chunk, Compressed(lib, a, level, more).value, out, size);
      InflateCompressed(lib, a, level, more, out + chunk);
      assert (out + chunk) + more == out + data;
    }
  }

  /** Whenever compression succeeds, for any of the four algorithms and any number of
      blocks, decompression gives the data back. */
  lemma RoundTrip(lib: Library, a: Algorithm, level: int, data: bytes)
    requires Faithful(lib) && Compressed(lib, a, level, data).Ok?
    ensures Inflate(lib, Compressed(lib, a, level, data).value, [], |data|) == Ok(data)
  {
    if data != [] {
      InflateCompressed(lib, a, level, data, []);
      assert [] + data == data;
    }
  }

  // ----- when LZ4 compression succeeds -----

  /** The pieces `compress` cuts `data` into. */
  function Chunks(data: bytes): (r: seq<bytes>)
    ensures forall c | c in r :: |c| <= BLOCK
  {
    if |data| <= BLOCK then [data] else [data[..BLOCK]] + Chunks(data[BLOCK..])
  }

  ghost predicate Fits(chunk: bytes) { |Lz4.Packed(chunk)| + 8 <= BLOCK }

  /** LZ4 compression fails exactly when some chunk packs to more than its length field holds. */
  lemma {:induction false} Lz4SucceedsIff(lib: Library, level: int, data: bytes)
    requires Faithful(lib)
    ensures Compressed(lib, LZ4, level, data).Ok? <==> forall c | c in Chunks(data) :: Fits(c)
    ensures Compressed(lib, LZ4, level, data).Err? ==> Compressed(lib, LZ4, level, data).error == BlockTooLong
    decreases |data|
  {
    if |data| > BLOCK {
      Lz4SucceedsIff(lib, level, data[BLOCK..]);
      Lz4BlockIff(lib, level, data[..BLOCK]);
    } else {
      Lz4BlockIff(lib, level, data);
    }
  }

  lemma Lz4BlockIff(lib: Library, level: int, chunk: bytes)
    requires Faithful(lib) && |chunk| <= BLOCK
    ensures BlockOf(lib, LZ4, level, chunk).Ok? <==> Fits(chunk)
    ensures BlockOf(lib, LZ4, level, chunk).Err? ==> BlockOf(lib, LZ4, level, chunk).error == BlockTooLong
  {
    hide Lz4.Packed;
    var body := Lz4.Packed(chunk);
    assert |lib.checksum(body)| == 8;
  }

  /** Up to 16,711,670 bytes always fit: the worst case is exactly the field's 16,777,215. */
  lemma Lz4AlwaysFits(lib: Library, level: int, data: bytes)
    requires Faithful(lib) && |data| <= 16_711_670
    ensures Compressed(lib, LZ4, level, data).Ok?
    ensures Inflate(lib, Compressed(lib, LZ4, level, data).value, [], |data|) == Ok(data)
  {
    Lz4.PackedSize(data);
    Lz4BlockIff(lib, level, data);
    RoundTrip(lib, LZ4, level, data);
  }

  // ----- a block that LZ4 makes too long -----

  // The digits of a count, seven bits each.
  function High(k: nat): nat { k / 16384 % 128 }

  function Middle(k: nat): nat { k / 128 % 128 }

  function Low(k: nat): nat { k % 128 }

  /** A counter of three digits over and over, the first of them marked. */
  function CounterByte(i: nat): byte {
    var k := i / 3;
    if i % 3 == 0 then (128 + High(k)) as byte else if i % 3 == 1 then Middle(k) as byte else Low(k) as byte
  }

  function Counter(n: nat): (r: bytes)
    ensures |r| == n
  {
    seq(n, i requires 0 <= i < n => CounterByte(i))
  }

  lemma Digits(k: nat)
    ensures k % 2097152 == 16384 * High(k) + 128 * Middle(k) + Low(k)
  {
    assert k / 128 / 128 == k / 16384;
    assert k / 16384 / 128 == k / 2097152;
    assert k == 128 * (k / 128) + k % 128;
    assert k / 128 == 128 * (k / 16384) + k / 128 % 128;
    assert k / 16384 == 128 * (k / 2097152) + k / 16384 % 128;
  }

  lemma Apart(k: nat, d: nat, m: nat)
    requires 0 < d < m
    ensures k % m != (k + d) % m
  {
    NumberTheory.DivMod(k, m);
    NumberTheory.DivMod(k + d, m);
    var turns := (k + d) / m - k / m;
    if k % m == (k + d) % m {
      assert d == m * turns by { assert m * ((k + d) / m) - m * (k / m) == m * turns; }
      NumberTheory.MulOrder(turns, m);
    }
  }

  /** Counts less than 2^21 apart differ in a digit. */
  lemma CountsDiffer(k: nat, d: nat)
    requires 0 < d < 2097152
    ensures High(k) != High(k + d) || Middle(k) != Middle(k + d) || Low(k) != Low(k + d)
  {
    Digits(k);
    Digits(k + d);
    Apart(k, d, 2097152);
    hide High, Middle, Low;
  }

  lemma ByteAt(i: nat, k: nat, r: nat)
    requires i == 3 * k + r && r < 3
    ensures CounterByte(i) as nat == if r == 0 then 128 + High(k) else if r == 1 then Middle(k) else Low(k)
  {
    assert i / 3 == k && i % 3 == r;
  }

  /** Two windows of four bytes, close enough to match, differ somewhere. */
  lemma WindowsDiffer(p: nat, q: nat) returns (j: nat)
    requires p < q && q - p <= Lz4.WINDOW
    ensures j < 4 && CounterByte(p + j) != CounterByte(q + j)
  {
    hide CounterByte;
    var lead := (3 - p % 3) % 3;
    if p % 3 != q % 3 {
      MarkedApart(p, q, lead);
      j := lead;
    } else {
      var k, d := (p + lead) / 3, (q - p) / 3;
      assert p + lead == 3 * k && q == p + 3 * d && 0 < d;
      j := GroupsDiffer(p, q, lead, k, d);
    }
  }

  /** Only first digits are marked. */
  lemma MarkedApart(p: nat, q: nat, lead: nat)
    requires p % 3 != q % 3 && lead == (3 - p % 3) % 3
    ensures CounterByte(p + lead) != CounterByte(q + lead)
  {
    assert (p + lead) % 3 == 0 && (q + lead) % 3 != 0;
    hide High, Middle, Low;
    Marked(p + lead);
    Marked(q + lead);
  }

  lemma Marked(i: nat)
    ensures CounterByte(i) >= 128 <==> i % 3 == 0
  {
  }

  lemma GroupsDiffer(p: nat, q: nat, lead: nat, k: nat, d: nat) returns (j: nat)
    requires p + lead == 3 * k && lead < 3 && q == p + 3 * d && 0 < d && q - p <= Lz4.WINDOW
    ensures j < 4 && CounterByte(p + j) != CounterByte(q + j)
  {
    hide CounterByte, High, Middle;
    CountsDiffer(k, d);
    ByteAt(p + lead, k, 0);
    ByteAt(q + lead, k + d, 0);
    ByteAt(p + lead + 1, k, 1);
    ByteAt(q + lead + 1, k + d, 1);
    if High(k) != High(k + d) {
      j := lead;
    } else if Middle(k) != Middle(k + d) {
      j := lead + 1;
    } else if lead == 2 {
      ByteAt(p + 1, k - 1, 2);
      ByteAt(q + 1, k - 1 + d, 2);
      LastDigitBefore(k, d);
      j := 1;
    } else {
      ByteAt(p + lead + 2, k, 2);
      ByteAt(q + lead + 2, k + d, 2);
      j := lead + 2;
    }
  }

  lemma LastDigitBefore(k: nat, d: nat)
    requires k > 0 && Low(k) != Low(k + d)
    ensures Low(k - 1) != Low(k - 1 + d)
  {
    var q, t := (k - 1) / 128, (k - 1 + d) / 128;
    NumberTheory.DivMod(k - 1, 128);
    NumberTheory.DivMod(k - 1 + d, 128);
    if Low(k - 1) == Low(k - 1 + d) { NumberTheory.AddMultiple(k, t - q, 128); }
  }

  lemma CounterNoRepeat(n: nat)
    ensures Lz4.NoRepeat(Counter(n))
  {
    hide CounterByte;
    var s := Counter(n);
    forall p: nat, q: nat | p < q && q + 4 <= |s| && q - p <= Lz4.WINDOW
      ensures Lz4.Four(s, p) != Lz4.Four(s, q)
    {
      var j := WindowsDiffer(p, q);
      assert Lz4.Four(s, p)[j] == CounterByte(p + j) && Lz4.Four(s, q)[j] == CounterByte(q + j);
    }
  }

  /** Any full block in which no four bytes come again within the window is refused. */
  lemma IncompressibleRaises(lib: Library, level: int, data: bytes)
    requires Faithful(lib) && |data| == BLOCK && Lz4.NoRepeat(data)
    ensures Compressed(lib, LZ4, level, data) == Err(BlockTooLong)
  {
    hide Compressed, Lz4.Packed, Lz4.NoRepeat;
    Lz4.PackedPlain(data);
    assert !Fits(data);
    OneChunk(data);
    assert data in Chunks(data);
    Lz4SucceedsIff(lib, level, data);
  }

  lemma OneChunk(data: bytes)
    requires |data| == BLOCK
    ensures data in Chunks(data)
  {
    assert data[..BLOCK] == data;
  }

  /** And there is such a block. */
  lemma CounterRaises(lib: Library, level: int)
    requires Faithful(lib)
    ensures Compressed(lib, LZ4, level, Counter(BLOCK)) == Err(BlockTooLong)
  {
    hide Compressed, Counter, Lz4.NoRepeat;
    CounterNoRepeat(BLOCK);
    IncompressibleRaises(lib, level, Counter(BLOCK));
  }
}
