/**
 Big-endian byte order as Go's `encoding/binary.BigEndian` implements it.

 `Value` and `Bytes` are the reference definitions (most significant byte
 first, of any width); `Uint32`, `Uint64`, `PutUint32` and `PutUint64` are
 the fixed-width operations written the way the Go library writes them, one
 byte per term. Reading a `Uint32` shifts each byte into place and ORs them;
 the shifted bytes never overlap, so the OR is written here as a sum.
 */
module BigEndian {
  import opened GoTypes

  function Pow256(n: nat): (p: nat)
    ensures p > 0
  {
    if n == 0 then 1 else 256 * Pow256(n - 1)
  }

  /** The number `s` denotes with its first byte most significant. */
  function Value(s: seq<uint8>): (v: nat)
    ensures v < Pow256(|s|)
  {
    if s == [] then 0 else Value(s[..|s| - 1]) * 256 + s[|s| - 1] as nat
  }

  /** The `n` bytes of `v` modulo 256^n, most significant first. */
  function Bytes(v: nat, n: nat): (s: seq<uint8>)
    ensures |s| == n
  {
    if n == 0 then [] else Bytes(v / 256, n - 1) + [(v % 256) as uint8]
  }

  lemma ValueSnoc(s: seq<uint8>, b: uint8)
    ensures Value(s + [b]) == Value(s) * 256 + b as nat
  {
    assert (s + [b])[..|s|] == s;
  }

  /** Encoding a number that fits in `n` bytes and reading it back gives the number. */
  lemma {:induction false} ValueOfBytes(v: nat, n: nat)
    requires v < Pow256(n)
    ensures Value(Bytes(v, n)) == v
  {
    if n > 0 {
      ValueOfBytes(v / 256, n - 1);
      ValueSnoc(Bytes(v / 256, n - 1), (v % 256) as uint8);
    }
  }

  /** Reading bytes as a number and encoding it back at the same width gives the bytes. */
  lemma {:induction false} BytesOfValue(s: seq<uint8>)
    ensures Bytes(Value(s), |s|) == s
  {
    if s != [] {
      var init, last := s[..|s| - 1], s[|s| - 1];
      var v := Value(s);
      assert v / 256 == Value(init) && v % 256 == last as nat;
      BytesOfValue(init);
      assert s == init + [last];
    }
  }

  /** Two byte strings of the same width denote the same number only if they are equal. */
  lemma ValueInjective(s: seq<uint8>, t: seq<uint8>)
    requires |s| == |t| && Value(s) == Value(t)
    ensures s == t
  {
    BytesOfValue(s);
    BytesOfValue(t);
  }

  /** Extending a prefix by one byte shifts its value up by a byte. */
  lemma ValuePrefix(b: seq<uint8>, k: nat)
    requires k < |b|
    ensures Value(b[..k + 1]) == Value(b[..k]) * 256 + b[k] as nat
  {
    assert b[..k + 1][..k] == b[..k];
  }

  /** The four bytes of `x` computed by one division per byte, as the Go code computes them. */
  lemma Bytes4(x: nat)
    ensures Bytes(x, 4) == [(x / 0x100_0000 % 0x100) as uint8, (x / 0x1_0000 % 0x100) as uint8,
                            (x / 0x100 % 0x100) as uint8, (x % 0x100) as uint8]
  {
    assert Bytes(x / 0x100_0000, 1) == [(x / 0x100_0000 % 0x100) as uint8];
    assert Bytes(x / 0x1_0000, 2) == Bytes(x / 0x100_0000, 1) + [(x / 0x1_0000 % 0x100) as uint8];
    assert Bytes(x / 0x100, 3) == Bytes(x / 0x1_0000, 2) + [(x / 0x100 % 0x100) as uint8];
  }

  /** The eight bytes of `x` computed by one division per byte. */
  lemma Bytes8(x: nat)
    ensures Bytes(x, 8) == [(x / 0x100_0000_0000_0000 % 0x100) as uint8, (x / 0x1_0000_0000_0000 % 0x100) as uint8,
                            (x / 0x100_0000_0000 % 0x100) as uint8, (x / 0x1_0000_0000 % 0x100) as uint8,
                            (x / 0x100_0000 % 0x100) as uint8, (x / 0x1_0000 % 0x100) as uint8,
                            (x / 0x100 % 0x100) as uint8, (x % 0x100) as uint8]
  {
    var y := x / 0x1_0000_0000;
    Bytes4(y);
    assert x / 0x100_0000 / 0x100 == y;
    assert Bytes(x / 0x100_0000, 5) == Bytes(y, 4) + [(x / 0x100_0000 % 0x100) as uint8];
    assert x / 0x1_0000 / 0x100 == x / 0x100_0000;
    assert Bytes(x / 0x1_0000, 6) == Bytes(x / 0x100_0000, 5) + [(x / 0x1_0000 % 0x100) as uint8];
    assert x / 0x100 / 0x100 == x / 0x1_0000;
    assert Bytes(x / 0x100, 7) == Bytes(x / 0x1_0000, 6) + [(x / 0x100 % 0x100) as uint8];
    assert y / 0x100_0000 == x / 0x100_0000_0000_0000;
    assert y / 0x1_0000 == x / 0x1_0000_0000_0000;
    assert y / 0x100 == x / 0x100_0000_0000;
  }

  lemma Pow256Table()
    ensures Pow256(1) == 0x100 && Pow256(2) == 0x1_0000 && Pow256(3) == 0x100_0000
    ensures Pow256(4) == 0x1_0000_0000 && Pow256(5) == 0x100_0000_0000
    ensures Pow256(6) == 0x1_0000_0000_0000 && Pow256(7) == 0x100_0000_0000_0000
    ensures Pow256(8) == 0x1_0000_0000_0000_0000
  {
  }

  /** `binary.BigEndian.Uint32`: reads the first four bytes; Go panics on fewer. */
  function Uint32(b: seq<uint8>): (v: uint32)
    requires |b| >= 4
    ensures v as nat == Value(b[..4])
  {
    assert b[..0] == [];
    ValuePrefix(b, 0); ValuePrefix(b, 1); ValuePrefix(b, 2); ValuePrefix(b, 3);
    (b[0] as int * 0x100_0000 + b[1] as int * 0x1_0000 + b[2] as int * 0x100 + b[3] as int) as uint32
  }

  /** `binary.BigEndian.Uint64`: reads the first eight bytes; Go panics on fewer. */
  function Uint64(b: seq<uint8>): (v: uint64)
    requires |b| >= 8
    ensures v as nat == Value(b[..8])
  {
    assert b[..0] == [];
    ValuePrefix(b, 0); ValuePrefix(b, 1); ValuePrefix(b, 2); ValuePrefix(b, 3);
    ValuePrefix(b, 4); ValuePrefix(b, 5); ValuePrefix(b, 6); ValuePrefix(b, 7);
    var hi := b[0] as int * 0x100_0000 + b[1] as int * 0x1_0000 + b[2] as int * 0x100 + b[3] as int;
    assert Value(b[..4]) == hi;
    assert Value(b[..8]) == hi * 0x1_0000_0000
      + b[4] as int * 0x100_0000 + b[5] as int * 0x1_0000 + b[6] as int * 0x100 + b[7] as int;
    (b[0] as int * 0x100_0000_0000_0000 + b[1] as int * 0x1_0000_0000_0000
     + b[2] as int * 0x100_0000_0000 + b[3] as int * 0x1_0000_0000
     + b[4] as int * 0x100_0000 + b[5] as int * 0x1_0000
     + b[6] as int * 0x100 + b[7] as int) as uint64
  }

  /** `binary.BigEndian.PutUint32`, as the four bytes it writes. */
  function PutUint32(v: uint32): (b: seq<uint8>)
    ensures b == Bytes(v as nat, 4)
  {
    var x := v as int;
    var b := [(x / 0x100_0000 % 0x100) as uint8, (x / 0x1_0000 % 0x100) as uint8,
              (x / 0x100 % 0x100) as uint8, (x % 0x100) as uint8];
    Bytes4(x);
    b
  }

  /** `binary.BigEndian.PutUint64`, as the eight bytes it writes. */
  function PutUint64(v: uint64): (b: seq<uint8>)
    ensures b == Bytes(v as nat, 8)
  {
    var x := v as int;
    var b := [(x / 0x100_0000_0000_0000 % 0x100) as uint8, (x / 0x1_0000_0000_0000 % 0x100) as uint8,
              (x / 0x100_0000_0000 % 0x100) as uint8, (x / 0x1_0000_0000 % 0x100) as uint8,
              (x / 0x100_0000 % 0x100) as uint8, (x / 0x1_0000 % 0x100) as uint8,
              (x / 0x100 % 0x100) as uint8, (x % 0x100) as uint8];
    Bytes8(x);
    b
  }

  lemma Uint32RoundTrip(v: uint32, b: seq<uint8>)
    requires |b| >= 4
    ensures Uint32(PutUint32(v)) == v
    ensures PutUint32(Uint32(b)) == b[..4]
  {
    Pow256Table();
    ValueOfBytes(v as nat, 4);
    assert PutUint32(v)[..4] == PutUint32(v);
    BytesOfValue(b[..4]);
  }

  lemma Uint64RoundTrip(v: uint64, b: seq<uint8>)
    requires |b| >= 8
    ensures Uint64(PutUint64(v)) == v
    ensures PutUint64(Uint64(b)) == b[..8]
  {
    Pow256Table();
    ValueOfBytes(v as nat, 8);
    assert PutUint64(v)[..8] == PutUint64(v);
    BytesOfValue(b[..8]);
  }
}
