/**
 Go's fixed-width integer types, the two's-complement conversion between
 `uint64` and `int64`, the builtin `copy` on byte slices, and the error
 values that travel through the key reader.
 */
module GoTypes {

  newtype uint8 = x: int | 0 <= x < 0x100
  newtype uint32 = x: int | 0 <= x < 0x1_0000_0000
  newtype uint64 = x: int | 0 <= x < 0x1_0000_0000_0000_0000
  newtype int64 = x: int | -0x8000_0000_0000_0000 <= x < 0x8000_0000_0000_0000

  const TwoTo64: int := 0x1_0000_0000_0000_0000

  datatype Option<+T> = None | Some(value: T)

  /** Go `error` values seen by this layer. Errors produced by collaborators
      that this layer only forwards are kept opaque. */
  datatype Error =
    | ErrIllegalArguments   // store.ErrIllegalArguments
    | ErrNoMoreEntries      // tbtree.ErrNoMoreEntries, end of a scan
    | Opaque(code: nat)     // any other error of the index or the value log

  /** Go's conversion `int64(u)`: the same 64 bits read as two's complement. */
  function Int64Of(u: uint64): (i: int64)
    ensures i as int % TwoTo64 == u as int
    ensures i >= 0 <==> u < 0x8000_0000_0000_0000
  {
    if u < 0x8000_0000_0000_0000 then u as int64 else (u as int - TwoTo64) as int64
  }

  /** Go's conversion `uint64(i)`: the bits of `i` read as unsigned. */
  function Uint64Of(i: int64): (u: uint64)
    ensures u as int % TwoTo64 == i as int % TwoTo64
    ensures i >= 0 ==> u as int == i as int
  {
    if i >= 0 then i as uint64 else (i as int + TwoTo64) as uint64
  }

  /** The two conversions are inverse to each other, in both directions. */
  lemma Int64RoundTrip(u: uint64, i: int64)
    ensures Uint64Of(Int64Of(u)) == u
    ensures Int64Of(Uint64Of(i)) == i
  {
  }

  function Min(a: int, b: int): (m: int)
    ensures m <= a && m <= b && (m == a || m == b)
  {
    if a <= b then a else b
  }

  function Zeros(n: nat): (z: seq<uint8>)
    ensures |z| == n
    ensures forall i :: 0 <= i < n ==> z[i] == 0
  {
    seq(n, _ => 0)
  }

  /** The new contents of `dst` after Go's `copy(dst, src)`: the first
      min(len(dst), len(src)) bytes come from `src`, the rest keep their value. */
  function Copy(dst: seq<uint8>, src: seq<uint8>): (r: seq<uint8>)
    ensures |r| == |dst|
    ensures forall i :: 0 <= i < |dst| ==> r[i] == if i < |src| then src[i] else dst[i]
  {
    var n := Min(|dst|, |src|);
    src[..n] + dst[n..]
  }
}
