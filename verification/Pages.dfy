/** Paged I/O: a big-endian CRC-32C before each 4 KiB page, and the check on the way back
    (`crypto/crc32c.py`), with the reply length `client/file.py` allows for. */
module Pages {
  import opened Words
  import Crc32c
  import Octets

  type Bytes = seq<bv8>

  const PAGE_SIZE := 4096

  function Checksum(page: Bytes): bv32 { Crc32c.Reference(page, 0) }

  // ----- big-endian words -----

  /** `int.from_bytes(b, "big")` of up to four bytes. */
  function FromBig(b: Bytes): bv32
    requires |b| <= 4
  {
    if |b| == 0 then 0
    else if |b| == 1 then b[0] as bv32
    else if |b| == 2 then (b[0] as bv32 << 8) | b[1] as bv32
    else if |b| == 3 then (b[0] as bv32 << 16) | (b[1] as bv32 << 8) | b[2] as bv32
    else FromBig4(b[0], b[1], b[2], b[3])
  }

  lemma FromBigOfBig4(c: bv32)
    ensures FromBig(Big4(c)) == c
  {
    hide Big4, FromBig4;
    Big4RoundTrip(c);
  }

  function Cut(b: Bytes, lo: nat, hi: nat): Bytes {
    if lo >= |b| || hi <= lo then [] else if hi >= |b| then b[lo..] else b[lo..hi]
  }

  function Rest(b: Bytes, lo: nat): Bytes { if lo >= |b| then [] else b[lo..] }

  /** How long the first page from `offset` is: what is left of its page. */
  function Head(offset: int): (r: nat)
    ensures 1 <= r <= PAGE_SIZE
  {
    if offset % PAGE_SIZE != 0 then PAGE_SIZE - offset % PAGE_SIZE else PAGE_SIZE
  }

  // ----- packing and unpacking -----

  function PackFrom(data: Bytes, head: nat): Bytes
    requires head > 0
    decreases |data|
  {
    if data == [] then []
    else
      var page := Cut(data, 0, head);
      Big4(Checksum(page)) + page + PackFrom(Rest(data, head), PAGE_SIZE)
  }

  /** The payload, and the file offsets of the pages whose checksum is not theirs. */
  function UnpackFrom(wire: Bytes, head: nat, at: int): (Bytes, seq<int>)
    requires head > 0
    decreases |wire|
  {
    if wire == [] then ([], [])
    else
      var page := Cut(wire, 4, 4 + head);
      var (data, corrupt) := UnpackFrom(Rest(wire, 4 + |page|), PAGE_SIZE, at + |page|);
      (page + data, (if Checksum(page) != FromBigCut(wire, 0) then [at] else []) + corrupt)
  }

  lemma CutOfRest(b: Bytes, pos: nat, lo: nat, hi: nat)
    ensures Cut(Rest(b, pos), lo, hi) == Cut(b, pos + lo, pos + hi)
    ensures Rest(Rest(b, pos), lo) == Rest(b, pos + lo)
    ensures Rest(b, pos) == [] <==> pos >= |b|
    ensures Rest(b, 0) == b
  {
  }

  method Pack(t: seq<seq<bv32>>, data: Bytes, offset: int) returns (out: Bytes)
    requires Crc32c.Tables(t)
    ensures out == PackFrom(data, Head(offset))
  {
    hide Checksum, Big4, Cut, Rest, PackFrom, Crc32c.Tables;
    var head := Head(offset);
    out := [];
    var pos := 0;
    CutOfRest(data, 0, 0, 0);
    while pos < |data|
      invariant 0 <= pos && head > 0
      invariant out + PackFrom(Rest(data, pos), head) == PackFrom(data, Head(offset))
      decreases |data| - pos
    {
      var page := Cut(data, pos, pos + head);
      CutOfRest(data, pos, 0, head);
      CutOfRest(data, pos, head, head);
      var sum := Crc32c.Compute(t, page, 0);
      ChecksumIs(page);
      ghost var more := PackFrom(Rest(data, pos + head), PAGE_SIZE);
      PackStep(Rest(data, pos), head);
      assert (out + (Big4(sum) + page)) + more == out + (Big4(sum) + page + more);
      out := out + (Big4(sum) + page);
      pos := pos + head;
      head := PAGE_SIZE;
    }
    CutOfRest(data, pos, 0, 0);
    PackStep([], head);
    assert out + [] == out;
  }

  lemma PackStep(data: Bytes, head: nat)
    requires head > 0
    ensures data == [] ==> PackFrom(data, head) == []
    ensures data != [] ==>
              var page := Cut(data, 0, head);
              PackFrom(data, head) == Big4(Checksum(page)) + page + PackFrom(Rest(data, head), PAGE_SIZE)
  {
  }

  lemma ChecksumIs(page: Bytes)
    ensures Checksum(page) == Crc32c.Reference(page, 0)
  {
  }

  /** A result with what came before it put in front. */
  ghost function Before(out: Bytes, corrupt: seq<int>, rest: (Bytes, seq<int>)): (Bytes, seq<int>) {
    (out + rest.0, corrupt + rest.1)
  }

  method Unpack(t: seq<seq<bv32>>, wire: Bytes, offset: int) returns (out: Bytes, corrupt: seq<int>)
    requires Crc32c.Tables(t)
    ensures (out, corrupt) == UnpackFrom(wire, Head(offset), offset)
  {
    hide Checksum, FromBig, Cut, Rest, Crc32c.Tables, UnpackFrom;
    var head := Head(offset);
    out, corrupt := [], [];
    var pos, at := 0, offset;
    ghost var whole := UnpackFrom(wire, Head(offset), offset);
    CutOfRest(wire, 0, 0, 0);
    assert [] + whole.0 == whole.0 && [] + whole.1 == whole.1;
    while pos < |wire|
      invariant 0 <= pos && head > 0
      invariant Before(out, corrupt, UnpackFrom(Rest(wire, pos), head, at)) == whole
      decreases |wire| - pos
    {
      var page := Cut(wire, pos + 4, pos + 4 + head);
      CutOfRest(wire, pos, 0, 4);
      CutOfRest(wire, pos, 4, 4 + head);
      CutOfRest(wire, pos, 4 + |page|, 4 + |page|);
      var want := FromBigCut(wire, pos);
      var sum := Crc32c.Compute(t, page, 0);
      ChecksumIs(page);
      ghost var rest := UnpackFrom(Rest(wire, pos + 4 + |page|), PAGE_SIZE, at + |page|);
      ghost var here := if sum != want then [at] else [];
      UnpackStep(Rest(wire, pos), head, at);
      BeforeBefore(out, corrupt, page, here, rest);
      if sum != want { corrupt := corrupt + [at]; }
      out := out + page;
      pos := pos + 4 + |page|;
      at := at + |page|;
      head := PAGE_SIZE;
    }
    CutOfRest(wire, pos, 0, 0);
    UnpackStep([], head, at);
    assert out + [] == out && corrupt + [] == corrupt;
  }

  lemma UnpackStep(wire: Bytes, head: nat, at: int)
    requires head > 0
    ensures wire == [] ==> UnpackFrom(wire, head, at) == ([], [])
    ensures wire != [] ==>
              var page := Cut(wire, 4, 4 + head);
              var rest := UnpackFrom(Rest(wire, 4 + |page|), PAGE_SIZE, at + |page|);
              UnpackFrom(wire, head, at)
              == (page + rest.0, (if Checksum(page) != FromBigCut(wire, 0) then [at] else []) + rest.1)
  {
  }

  function FromBigCut(wire: Bytes, pos: nat): bv32 { FromBig(Cut(wire, pos, pos + 4)) }

  lemma BeforeBefore(out: Bytes, corrupt: seq<int>, page: Bytes, here: seq<int>, rest: (Bytes, seq<int>))
    ensures Before(out, corrupt, (page + rest.0, here + rest.1)) == Before(out + page, corrupt + here, rest)
    ensures corrupt + [] == corrupt
  {
    assert out + (page + rest.0) == (out + page) + rest.0;
    assert corrupt + (here + rest.1) == (corrupt + here) + rest.1;
  }

  // ----- pages on the wire, each with some checksum -----

  /** A payload cut into pages: the first of at most `head` bytes, the others of 4 KiB. */
  function Cuts(data: Bytes, head: nat): (r: seq<Bytes>)
    requires head > 0
    ensures Shaped(r, head)
    decreases |data|
  {
    if data == [] then []
    else if |data| <= head then [data]
    else [data[..head]] + Cuts(data[head..], PAGE_SIZE)
  }

  /** Every page is full but the last, and none is empty. */
  ghost predicate Shaped(pages: seq<Bytes>, head: nat)
    decreases |pages|
  {
    pages == [] || (0 < |pages[0]| <= head && (|pages| > 1 ==> |pages[0]| == head) && Shaped(pages[1..], PAGE_SIZE))
  }

  function Joined(pages: seq<Bytes>): Bytes {
    if pages == [] then [] else pages[0] + Joined(pages[1..])
  }

  function Sums(pages: seq<Bytes>): (r: seq<bv32>)
    ensures |r| == |pages|
  {
    if pages == [] then [] else [Checksum(pages[0])] + Sums(pages[1..])
  }

  /** Pages on the wire, each behind the checksum it is sent with. */
  function Wire(pages: seq<Bytes>, sums: seq<bv32>): Bytes
    requires |pages| == |sums|
  {
    if pages == [] then [] else Big4(sums[0]) + pages[0] + Wire(pages[1..], sums[1..])
  }

  /** The offsets of the pages whose checksum is not theirs. */
  function Bad(pages: seq<Bytes>, sums: seq<bv32>, at: int): seq<int>
    requires |pages| == |sums|
  {
    if pages == [] then []
    else (if Checksum(pages[0]) != sums[0] then [at] else []) + Bad(pages[1..], sums[1..], at + |pages[0]|)
  }

  lemma {:induction false} CutsJoin(data: Bytes, head: nat)
    requires head > 0
    ensures Joined(Cuts(data, head)) == data
    decreases |data|
  {
    hide Shaped;
    var pages := Cuts(data, head);
    if data == [] {
    } else if |data| <= head {
      assert pages[1..] == [] && pages[0] == data;
      assert data + [] == data;
    } else {
      CutsJoin(data[head..], PAGE_SIZE);
      assert pages[1..] == Cuts(data[head..], PAGE_SIZE) && pages[0] == data[..head];
      assert data[..head] + data[head..] == data;
    }
  }

  lemma {:induction false} PackIsWire(data: Bytes, head: nat)
    requires head > 0
    ensures PackFrom(data, head) == Wire(Cuts(data, head), Sums(Cuts(data, head)))
    decreases |data|
  {
    hide Checksum, Big4;
    var pages := Cuts(data, head);
    if data != [] && |data| > head {
      PackIsWire(data[head..], PAGE_SIZE);
      assert pages[1..] == Cuts(data[head..], PAGE_SIZE);
      assert Sums(pages)[1..] == Sums(pages[1..]);
      assert Cut(data, 0, head) == data[..head] && Rest(data, head) == data[head..];
    } else if data != [] {
      assert Sums(pages)[1..] == [] && pages[1..] == [];
      assert Cut(data, 0, head) == data && Rest(data, head) == [];
    }
  }

  /** Unpacking finds every page, and reports exactly those that fail their checksum. */
  lemma {:induction false} UnpackWire(pages: seq<Bytes>, sums: seq<bv32>, head: nat, at: int)
    requires |pages| == |sums| && head > 0 && Shaped(pages, head)
    ensures UnpackFrom(Wire(pages, sums), head, at) == (Joined(pages), Bad(pages, sums, at))
    decreases |pages|
  {
    hide Checksum, FromBig, Big4, Shaped, Cut, Rest, UnpackFrom;
    UnpackStep(Wire(pages, sums), head, at);
    if pages != [] {
      var page, sum := pages[0], sums[0];
      assert 0 < |page| <= head && (|pages| > 1 ==> |page| == head) && Shaped(pages[1..], PAGE_SIZE) by {
        ShapedStep(pages, head);
      }
      var more := Wire(pages[1..], sums[1..]);
      var wire := Big4(sum) + page + more;
      assert |pages| == 1 ==> more == [];
      WireParts(sum, page, more, head);
      FromBigOfBig4(sum);
      UnpackWire(pages[1..], sums[1..], PAGE_SIZE, at + |page|);
    }
  }

  lemma WireParts(sum: bv32, page: Bytes, more: Bytes, head: nat)
    requires 0 < |page| <= head && (more != [] ==> |page| == head)
    ensures var wire := Big4(sum) + page + more;
            wire != [] && Cut(wire, 0, 4) == Big4(sum) && Cut(wire, 4, 4 + head) == page
              && Rest(wire, 4 + |page|) == more
  {
    hide Big4;
  }

  lemma ShapedStep(pages: seq<Bytes>, head: nat)
    requires Shaped(pages, head) && pages != []
    ensures 0 < |pages[0]| <= head && (|pages| > 1 ==> |pages[0]| == head) && Shaped(pages[1..], PAGE_SIZE)
  {
  }

  lemma {:induction false} OwnSumsAreGood(pages: seq<Bytes>, at: int)
    ensures Bad(pages, Sums(pages), at) == []
    decreases |pages|
  {
    hide Checksum;
    if pages != [] {
      assert Sums(pages)[1..] == Sums(pages[1..]);
      OwnSumsAreGood(pages[1..], at + |pages[0]|);
    }
  }

  /** What was packed unpacks to itself with no page reported, at every alignment. */
  lemma RoundTrip(data: Bytes, offset: int)
    ensures UnpackFrom(PackFrom(data, Head(offset)), Head(offset), offset) == (data, [])
  {
    var pages := Cuts(data, Head(offset));
    PackIsWire(data, Head(offset));
    UnpackWire(pages, Sums(pages), Head(offset), offset);
    CutsJoin(data, Head(offset));
    OwnSumsAreGood(pages, offset);
  }

  // ----- the packed length -----

  function PackedLength(size: int, offset: int): int {
    if size <= 0 then 0
    else
      var head := PAGE_SIZE - offset % PAGE_SIZE;
      var rest := if size - head > 0 then size - head else 0;
      size + 4 * (1 + Octets.CeilDiv(rest, PAGE_SIZE))
  }

  lemma {:induction false} PackSize(data: Bytes, head: nat)
    requires head > 0 && data != []
    ensures |PackFrom(data, head)| == |data| + 4 * (1 + Octets.CeilDiv(if |data| > head then |data| - head else 0,
        PAGE_SIZE))
    decreases |data|
  {
    hide Checksum, Big4;
    if |data| > head {
      PackSize(data[head..], PAGE_SIZE);
    } else {
      assert Rest(data, head) == [];
    }
  }

  /** A packed payload is exactly as long as the client allows a reply to be. */
  lemma PackedLengthExact(data: Bytes, offset: int)
    ensures |PackFrom(data, Head(offset))| == PackedLength(|data|, offset)
  {
    if data != [] { PackSize(data, Head(offset)); }
  }

  /** Every page but the first begins at a multiple of 4,096 in the file, and none reaches
      over one. */
  lemma {:induction false} PagesAligned(data: Bytes, offset: int, j: nat)
    requires j < |Cuts(data, Head(offset))|
    ensures var at := OffsetOf(Cuts(data, Head(offset)), j, offset);
            && (j > 0 ==> at % 4096 == 0)
            && at % 4096 + |Cuts(data, Head(offset))[j]| <= 4096
    decreases |data|
  {
    var pages, head := Cuts(data, Head(offset)), Head(offset);
    assert (offset + head) % 4096 == 0;
    if j > 0 {
      assert |pages| > 1 && |pages[0]| == head;
      assert Head(offset + head) == PAGE_SIZE;
      assert pages[1..] == Cuts(data[head..], PAGE_SIZE);
      PagesAligned(data[head..], offset + head, j - 1);
    }
  }

  // ----- corruption -----

  function OffsetOf(pages: seq<Bytes>, j: nat, at: int): int
    requires j < |pages|
  {
    if j == 0 then at else OffsetOf(pages[1..], j - 1, at + |pages[0]|)
  }

  lemma {:induction false} OneBad(pages: seq<Bytes>, j: nat, page: Bytes, at: int)
    requires j < |pages| && Checksum(page) != Checksum(pages[j]) && |page| == |pages[j]|
    ensures Bad(pages[j := page], Sums(pages), at) == [OffsetOf(pages, j, at)]
    decreases |pages|
  {
    hide Checksum;
    var altered := pages[j := page];
    assert Sums(pages)[1..] == Sums(pages[1..]);
    if j == 0 {
      assert altered[1..] == pages[1..];
      OwnSumsAreGood(pages[1..], at + |page|);
    } else {
      assert altered[1..] == pages[1..][j - 1 := page];
      OneBad(pages[1..], j - 1, page, at + |pages[0]|);
    }
  }

  lemma {:induction false} AlteredShaped(pages: seq<Bytes>, j: nat, page: Bytes, head: nat)
    requires j < |pages| && |page| == |pages[j]| && Shaped(pages, head)
    ensures Shaped(pages[j := page], head)
    decreases |pages|
  {
    var altered := pages[j := page];
    if j == 0 {
      assert altered[1..] == pages[1..];
    } else {
      assert altered[1..] == pages[1..][j - 1 := page];
      AlteredShaped(pages[1..], j - 1, page, PAGE_SIZE);
    }
  }

  /** Changing data bits within 32 consecutive ones inside one page of a packed payload makes
      that page's file offset, and no other, be reported; the payload carries the change. */
  lemma BurstReported(data: Bytes, offset: int, j: nat, page: Bytes)
    requires j < |Cuts(data, Head(offset))| && Crc32c.Burst(Cuts(data, Head(offset))[j], page)
    ensures var pages := Cuts(data, Head(offset));
            UnpackFrom(Wire(pages[j := page], Sums(pages)), Head(offset), offset)
            == (Joined(pages[j := page]), [OffsetOf(pages, j, offset)])
  {
    hide Shaped, Wire, UnpackFrom, Joined, Bad, Crc32c.Reference;
    var pages := Cuts(data, Head(offset));
    Crc32c.BurstDetected(pages[j], page, 0);
    OneBad(pages, j, page, offset);
    AlteredShaped(pages, j, page, Head(offset));
    UnpackWire(pages[j := page], Sums(pages), Head(offset), offset);
  }
}
