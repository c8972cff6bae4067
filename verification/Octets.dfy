/** The byte strings every other module works on, the result type standing for the source's
    exceptions, and the few functions several modules share. */
module Octets {

  newtype byte = x: int | 0 <= x < 256

  type bytes = seq<byte>

  datatype Option<+T> = None | Some(value: T)

  datatype Result<+T, +E> = Ok(value: T) | Err(error: E)

  /** Python's `b[lo:hi]` for non-negative bounds: both ends clamp to the length. */
  function Slice(b: bytes, lo: nat, hi: nat): bytes {
    if lo >= |b| || hi <= lo then [] else if hi >= |b| then b[lo..] else b[lo..hi]
  }

  function Min(a: int, b: int): int { if a < b then a else b }

  /** Python's `-(-n // d)`. */
  function CeilDiv(n: int, d: int): (r: int)
    requires d > 0
    ensures n >= 0 ==> r >= 0
  {
    -((-n) / d)
  }

  function Concat<T>(pieces: seq<seq<T>>): seq<T> {
    if pieces == [] then [] else Concat(pieces[..|pieces| - 1]) + pieces[|pieces| - 1]
  }

  /** The last `width` base-256 digits of a number, most significant first. */
  function Big(n: nat, width: nat): (r: bytes)
    ensures |r| == width
    decreases width
  {
    if width == 0 then [] else Big(n / 256, width - 1) + [(n % 256) as byte]
  }

  function Zeros(n: nat): (r: bytes)
    ensures |r| == n && forall i | 0 <= i < n :: r[i] == 0
  {
    seq(n, _ => 0)
  }

  /** A file after a write at an offset: what lay beyond it stays, and a gap before it reads
      as zeros. */
  function Splice(file: bytes, at: nat, data: bytes): (r: bytes)
    requires data != []
    ensures |r| == if at + |data| <= |file| then |file| else at + |data|
  {
    if at + |data| <= |file| then file[..at] + data + file[at + |data|..]
    else if at <= |file| then file[..at] + data
    else file + Zeros(at - |file|) + data
  }

  lemma SpliceIs(file: bytes, at: nat, data: bytes)
    requires data != []
    ensures var r := Splice(file, at, data);
            && r[at..at + |data|] == data
            && forall j | 0 <= j < |r| && !(at <= j < at + |data|) :: r[j] == if j < |file| then file[j] else 0
  {
  }
}
