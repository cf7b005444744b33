/**
 The key reader of the store: it pulls entries from an index reader, decodes
 each entry's value locator, and hands out lazy value references that read
 the value log only when resolved.

 A locator is laid out as
   bytes 0..4   value length, big-endian uint32
   bytes 4..12  value-log offset, big-endian uint64 read as int64
   bytes 12..44 SHA-256 digest of the value
 and is decoded without a length check: the decoding needs at least 12 bytes
 (fewer make the Go code panic), and a digest shorter than 32 bytes is padded
 with zeros.
 */
module Store {
  import opened GoTypes
  import opened BigEndian
  import Tbtree

  /** `sha256.Size`. */
  const DigestSize: nat := 32
  /** Bytes the decoding reads before the digest; a shorter locator panics. */
  const DigestStart: nat := 12
  /** The full width of an encoded locator. */
  const LocatorSize: nat := 44

  type Digest = d: seq<uint8> | |d| == DigestSize witness Zeros(32)

  /** The three fields decoded from a locator. */
  datatype Locator = Locator(valLen: uint32, vOff: int64, hVal: Digest)

  /** The decoding of `Read`: both integers big-endian, the offset reinterpreted
      as two's complement, and the digest copied into a zeroed 32-byte array. */
  function DecodeLocator(loc: seq<uint8>): (l: Locator)
    requires |loc| >= DigestStart
    ensures l.valLen as nat == Value(loc[..4])
    ensures l.vOff as int % TwoTo64 == Value(loc[4..12])
    ensures l.vOff >= 0 <==> Value(loc[4..12]) < 0x8000_0000_0000_0000
    ensures forall i :: 0 <= i < DigestSize ==>
              l.hVal[i] == if DigestStart + i < |loc| then loc[DigestStart + i] else 0
  {
    var valLen := Uint32(loc);
    var vOff := Uint64(loc[4..]);
    assert loc[4..][..8] == loc[4..12];
    var hVal := Copy(Zeros(DigestSize), loc[DigestStart..]);
    Locator(valLen, Int64Of(vOff), hVal)
  }

  /** The write-side layout that the decoding reads: the inverse of `DecodeLocator`. */
  function EncodeLocator(l: Locator): (loc: seq<uint8>)
    ensures |loc| == LocatorSize
  {
    PutUint32(l.valLen) + PutUint64(Uint64Of(l.vOff)) + l.hVal
  }

  /** The digest is bytes 12..min(44, |loc|) of the locator followed by zeros. */
  lemma DecodedDigest(loc: seq<uint8>)
    requires |loc| >= DigestStart
    ensures var end := Min(LocatorSize, |loc|);
            DecodeLocator(loc).hVal == loc[DigestStart..end] + Zeros(LocatorSize - end)
  {
    var end := Min(LocatorSize, |loc|);
    var h, r := DecodeLocator(loc).hVal, loc[DigestStart..end] + Zeros(LocatorSize - end);
    assert |h| == |r|;
    forall i | 0 <= i < |h| ensures h[i] == r[i] {
      if DigestStart + i < end {
        assert r[i] == loc[DigestStart + i];
      } else {
        assert r[i] == Zeros(LocatorSize - end)[i - (end - DigestStart)];
      }
    }
  }

  /** Bytes after the 44th do not affect the decoding. */
  lemma DecodeIgnoresTrailing(loc: seq<uint8>, tail: seq<uint8>)
    requires |loc| >= LocatorSize
    ensures DecodeLocator(loc + tail) == DecodeLocator(loc)
  {
    var a, b := DecodeLocator(loc + tail), DecodeLocator(loc);
    assert (loc + tail)[..4] == loc[..4];
    assert (loc + tail)[4..12] == loc[4..12];
    assert a.valLen == b.valLen;
    assert a.vOff == b.vOff by {
      Int64Determined(a.vOff, b.vOff, Value(loc[4..12]));
    }
    assert a.hVal == b.hVal by {
      forall i | 0 <= i < DigestSize ensures a.hVal[i] == b.hVal[i] {
        assert (loc + tail)[DigestStart + i] == loc[DigestStart + i];
      }
    }
  }

  /** An int64 is determined by its value modulo 2^64. */
  lemma Int64Determined(x: int64, y: int64, v: nat)
    requires x as int % TwoTo64 == v && y as int % TwoTo64 == v
    ensures x == y
  {
    Int64RoundTrip(v as uint64, x);
    Int64RoundTrip(v as uint64, y);
  }

  /** Decoding an encoded locator gives back its fields, for every offset. */
  lemma DecodeEncode(l: Locator)
    ensures DecodeLocator(EncodeLocator(l)) == l
  {
    var loc := EncodeLocator(l);
    var u := Uint64Of(l.vOff);
    assert loc[..4] == PutUint32(l.valLen);
    assert loc[4..12] == PutUint64(u);
    Uint32RoundTrip(l.valLen, loc);
    Uint64RoundTrip(u, loc[4..12]);
    assert PutUint64(u)[..8] == PutUint64(u);
    assert PutUint32(l.valLen)[..4] == PutUint32(l.valLen);
    var d := DecodeLocator(loc);
    assert d.valLen as nat == Value(PutUint32(l.valLen)) == l.valLen as nat;
    assert d.vOff as int % TwoTo64 == u as int;
    Int64RoundTrip(u, l.vOff);
    Int64Determined(d.vOff, l.vOff, u as int);
    assert d.hVal == l.hVal by {
      forall i | 0 <= i < DigestSize ensures d.hVal[i] == l.hVal[i] {
        assert loc[DigestStart + i] == l.hVal[i];
      }
    }
  }

  /** Encoding a decoded locator gives back its first 44 bytes. */
  lemma EncodeDecode(loc: seq<uint8>)
    requires |loc| >= LocatorSize
    ensures EncodeLocator(DecodeLocator(loc)) == loc[..LocatorSize]
  {
    var d := DecodeLocator(loc);
    var v := Value(loc[4..12]);
    assert d.valLen as nat == Value(loc[..4]);
    BytesOfValue(loc[..4]);
    BytesOfValue(loc[4..12]);
    assert Uint64Of(d.vOff) as int == v by {
      Int64RoundTrip(v as uint64, d.vOff);
      Int64Determined(d.vOff, Int64Of(v as uint64), v);
    }
    DecodedDigest(loc);
    assert d.hVal == loc[DigestStart..LocatorSize];
    assert loc[..LocatorSize] == loc[..4] + loc[4..12] + loc[DigestStart..LocatorSize];
  }

  /** A locator laid out from a length, a non-negative offset and a digest decodes to exactly those. */
  lemma DecodeLayout(len: uint32, off: uint64, d: Digest)
    requires off < 0x8000_0000_0000_0000
    ensures DecodeLocator(PutUint32(len) + PutUint64(off) + d) == Locator(len, off as int64, d)
  {
    DecodeEncode(Locator(len, off as int64, d));
  }

  /** One call of `ImmuStore.ReadValueAt`: the buffer length, the offset and the digest passed. */
  datatype ReadCall = ReadCall(bufLen: nat, off: int64, hVal: Digest)

  /** What the value log answers to a call: the bytes it delivers and its error. */
  datatype ReadReply = ReadReply(data: seq<uint8>, err: Option<Error>)

  /** A value reference: a decoded locator and the store to read it from. */
  datatype ValueRef = ValueRef(hVal: Digest, vOff: int64, valLen: uint32, st: ImmuStore) {

    /** The value-log read that resolving this reference performs. */
    function Call(): ReadCall
    {
      ReadCall(valLen as nat, vOff, hVal)
    }

    /** Allocates a zeroed buffer of `valLen` bytes, asks the store to fill it
        from offset `vOff` with digest `hVal`, and returns both the buffer and
        the store's error as they are. Nothing is cached: each call reads again. */
    method Resolve() returns (refVal: array<uint8>, err: Option<Error>)
      modifies st`calls
      ensures fresh(refVal) && refVal.Length == valLen as nat
      ensures st.calls == old(st.calls) + [Call()]
      ensures refVal[..] == Copy(Zeros(valLen as nat), st.respond(Call()).data)
      ensures err == st.respond(Call()).err
    {
      refVal := new uint8[valLen](_ => 0);
      assert refVal[..] == Zeros(valLen as nat);
      var n, e := st.ReadValueAt(refVal, vOff, hVal);
      err := e;
    }
  }

  /** The reference `Read` builds from a decoded locator. */
  function RefOf(l: Locator, st: ImmuStore): ValueRef
  {
    ValueRef(l.hVal, l.vOff, l.valLen, st)
  }

  /** Resolving one reference twice reads the value log twice, into two
      distinct buffers holding the same bytes. */
  method ResolveTwice(v: ValueRef) returns (a: array<uint8>, b: array<uint8>)
    modifies v.st`calls
    ensures v.st.calls == old(v.st.calls) + [v.Call(), v.Call()]
    ensures a != b && a[..] == b[..]
  {
    var errA, errB;
    a, errA := v.Resolve();
    b, errB := v.Resolve();
  }

  /** The store, reduced to its value log: `respond` says what the log
      answers to each read, and `calls` records the reads made so far. */
  class ImmuStore {
    const respond: ReadCall -> ReadReply
    var calls: seq<ReadCall>

    constructor (respond: ReadCall -> ReadReply)
      ensures this.respond == respond && calls == []
    {
      this.respond := respond;
      calls := [];
    }

    /** Fills `b` from the value log at `off`; records the call. */
    method ReadValueAt(b: array<uint8>, off: int64, hVal: Digest) returns (n: nat, err: Option<Error>)
      modifies this`calls, b
      ensures calls == old(calls) + [ReadCall(b.Length, off, hVal)]
      ensures b[..] == Copy(old(b[..]), respond(ReadCall(b.Length, off, hVal)).data)
      ensures n == Min(b.Length, |respond(ReadCall(b.Length, off, hVal)).data|)
      ensures err == respond(ReadCall(b.Length, off, hVal)).err
    {
      var call := ReadCall(b.Length, off, hVal);
      var reply := respond(call);
      forall i | 0 <= i < b.Length && i < |reply.data| {
        b[i] := reply.data[i];
      }
      n := Min(b.Length, |reply.data|);
      err := reply.err;
      calls := calls + [call];
    }

    /** Opens a key reader on `snap`; a missing snapshot is refused before any
        reader is opened, and an error opening the index reader is returned as is. */
    method NewKeyReader(snap: Tbtree.Snapshot?, spec: Tbtree.ReaderSpec) returns (kr: KeyReader?, err: Option<Error>)
      modifies if snap == null then {} else {snap}
      ensures snap == null ==> kr == null && err == Some(ErrIllegalArguments)
      ensures snap != null ==> snap.readersOpened == old(snap.readersOpened) + 1 && err == snap.openErr(spec)
      ensures err.Some? ==> kr == null
      ensures err.None? ==> snap != null && kr != null && fresh(kr) && fresh(kr.reader)
      ensures err.None? ==> kr != null && kr.store == this
      ensures err.None? ==> kr != null && kr.reader.Valid() && kr.reader.pos == 0 && !kr.reader.closed
      ensures err.None? ==> snap != null && kr != null && kr.reader.steps == snap.scan(spec)
      ensures err.None? ==> snap != null && kr != null && kr.reader.closeErr == snap.closeErr(spec)
    {
      if snap == null {
        return null, Some(ErrIllegalArguments);
      }
      var r, e := snap.NewReader(spec);
      if e.Some? {
        return null, e;
      }
      kr := new KeyReader(this, r);
      err := None;
    }
  }

  class KeyReader {
    const store: ImmuStore
    const reader: Tbtree.Reader

    constructor (store: ImmuStore, reader: Tbtree.Reader)
      ensures this.store == store && this.reader == reader
    {
      this.store := store;
      this.reader := reader;
    }

    /** The reader is open, and the next entry, if it is one, has a locator the decoding can read. */
    ghost predicate CanRead()
      reads this, reader
    {
      reader.Valid() && !reader.closed && (reader.Next().Entry? ==> |reader.Next().locator| >= DigestStart)
    }

    /** Pulls one result from the index reader. An error comes back unchanged with
        no key, no reference and zero tx and hc; an entry comes back with its key,
        tx and hc unchanged and a reference to its decoded locator in this reader's
        store. The value log is not read. */
    method Read() returns (key: seq<uint8>, val: Option<ValueRef>, tx: uint64, hc: uint64, err: Option<Error>)
      requires CanRead()
      modifies reader`pos
      ensures reader.Valid()
      ensures reader.pos == if old(reader.pos) < |reader.steps| then old(reader.pos) + 1 else old(reader.pos)
      ensures old(reader.Next()).Fail? ==>
        key == [] && val == None && tx == 0 && hc == 0 && err == Some(old(reader.Next()).err)
      ensures old(reader.Next()).Entry? ==>
        key == old(reader.Next()).key && tx == old(reader.Next()).tx && hc == old(reader.Next()).hc
        && err == None && val == Some(RefOf(DecodeLocator(old(reader.Next()).locator), store))
      ensures store.calls == old(store.calls)
    {
      var s := reader.Read();
      if s.Fail? {
        return [], None, 0, 0, Some(s.err);
      }
      var l := DecodeLocator(s.locator);
      val := Some(RefOf(l, store));
      key, tx, hc, err := s.key, s.tx, s.hc, None;
    }

    /** Closes the index reader and returns its error as is. */
    method Close() returns (err: Option<Error>)
      requires !reader.closed
      modifies reader`closed
      ensures reader.closed && err == reader.closeErr
    {
      err := reader.Close();
    }
  }
}
