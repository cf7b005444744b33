# immudb key reader, modelled in Dafny

This project models the key reader of immudb's embedded store
(`embedded/store/key_reader.go`). The key reader walks an index snapshot
through a `tbtree` reader. Every index entry carries a key, a transaction id
`tx`, a count `hc` and an opaque *value locator*. The key reader decodes that
locator and returns a lazy `ValueRef`. The value log is read only when the
caller resolves the reference.

The locator is decoded at fixed offsets, with no length check:

| bytes | field | decoding |
|---|---|---|
| 0..4 | `valLen` | big-endian `uint32` |
| 4..12 | `vOff` | big-endian `uint64`, converted to `int64` (two's complement) |
| 12.. | `hVal` | Go `copy` into a zeroed 32-byte array |

A locator shorter than 12 bytes makes the Go code panic, so the model makes
at least 12 bytes a precondition. A locator of 12 to 43 bytes only fills part
of the digest and leaves the rest zero. Bytes after the 44th are ignored.

Modules:

- `GoTypes` (`go_types.dfy`): Go's `uint8`/`uint32`/`uint64`/`int64`, the `int64(u)` and `uint64(i)` conversions, the builtin `copy`, and the error values.
- `BigEndian` (`big_endian.dfy`): `binary.BigEndian.Uint32`/`Uint64`/`PutUint32`/`PutUint64`, proved equal to a reference definition of big-endian value (`Value`, `Bytes`) of any width.
- `Tbtree` (`tbtree.dfy`): the index collaborator. A `Snapshot` opens a `Reader`. The `Reader` is a class holding a position into the fixed sequence of results its scan yields.
- `Store` (`store.dfy`): the locator decoding and its inverse, `ValueRef` with `Resolve`, `KeyReader` with `Read` and `Close`, and `ImmuStore`. `ImmuStore` is reduced to its value-log read: a fixed answer function (`respond`) plus a log of every call made (`calls`).
- `Scenarios` (`scenarios.dfy`): concrete locators for values at offsets 1000, 1005 and 1008, and a scan over keys "a", "b", "c".

The code has no 44-byte length check and no "malformed locator" error: a
short digest is zero-padded, and fewer than 12 bytes is a precondition.

## Model

| member | source | states |
|---|---|---|
| `GoTypes.Int64Of` | embedded/store/key_reader.go:75 | `int64(vOff)` keeps the same 64 bits: the result is congruent to the input modulo 2^64, and it is non-negative exactly when the input is below 2^63 |
| `GoTypes.Uint64Of` | embedded/store/key_reader.go:75 | the inverse conversion, congruent modulo 2^64 and the identity on non-negative values |
| `GoTypes.Int64RoundTrip` | embedded/store/key_reader.go:75 | the two conversions undo each other in both directions |
| `GoTypes.Copy` | embedded/store/key_reader.go:71 | after `copy(dst, src)`, `dst` keeps its length, holds `src[i]` at every index below `len(src)` and keeps its old byte elsewhere |
| `BigEndian.Value` | embedded/store/key_reader.go:67-68 | the big-endian value of a byte string is below 256^len |
| `BigEndian.ValueOfBytes` | embedded/store/key_reader.go:67-68 | encoding a number that fits in n bytes and reading it back gives the number |
| `BigEndian.BytesOfValue` | embedded/store/key_reader.go:67-68 | reading n bytes as a number and encoding it back at width n gives the bytes |
| `BigEndian.ValueInjective` | embedded/store/key_reader.go:67-68 | two byte strings of the same width with the same value are equal |
| `BigEndian.Uint32` | embedded/store/key_reader.go:67 | `binary.BigEndian.Uint32` needs at least 4 bytes and returns the big-endian value of the first four |
| `BigEndian.Uint64` | embedded/store/key_reader.go:68 | `binary.BigEndian.Uint64` needs at least 8 bytes and returns the big-endian value of the first eight |
| `BigEndian.PutUint32` | embedded/store/key_reader.go:67 | write-side inverse of the read at this line, used only to state the round trip (key_reader.go never calls it): the four bytes written are the reference big-endian encoding of the value |
| `BigEndian.PutUint64` | embedded/store/key_reader.go:68 | write-side inverse of the read at this line, used only to state the round trip (key_reader.go never calls it): the eight bytes written are the reference big-endian encoding of the value |
| `BigEndian.Uint32RoundTrip` | embedded/store/key_reader.go:67 | `Uint32(PutUint32(v)) == v`, and `PutUint32(Uint32(b))` is the first four bytes of `b` |
| `BigEndian.Uint64RoundTrip` | embedded/store/key_reader.go:68 | `Uint64(PutUint64(v)) == v`, and `PutUint64(Uint64(b))` is the first eight bytes of `b` |
| `Store.DecodeLocator` | embedded/store/key_reader.go:67-75 | for a locator of at least 12 bytes: `valLen` is the big-endian value of bytes 0..4; `vOff` is the big-endian value of bytes 4..12 read as two's-complement int64; digest byte i is locator byte 12+i where that exists and 0 otherwise |
| `Store.EncodeLocator` | embedded/store/key_reader.go:67-75 | write-side inverse of the decoding at these lines, with no counterpart in key_reader.go; it lays out the 44 bytes the decoding reads, and `DecodeEncode`/`EncodeDecode` fix its meaning |
| `Store.DecodedDigest` | embedded/store/key_reader.go:70-71 | the digest equals locator bytes 12..min(44, len) followed by zeros |
| `Store.DecodeIgnoresTrailing` | embedded/store/key_reader.go:67-71 | bytes past index 44 do not change the decoded locator |
| `Store.Int64Determined` | embedded/store/key_reader.go:75 | two int64 values congruent modulo 2^64 are equal, so the decoded offset is unique |
| `Store.DecodeEncode` | embedded/store/key_reader.go:67-78 | decoding an encoded locator gives back its length, offset (negative ones too) and digest |
| `Store.EncodeDecode` | embedded/store/key_reader.go:67-75 | for a locator of at least 44 bytes, encoding its decoding gives back its first 44 bytes |
| `Store.DecodeLayout` | embedded/store/key_reader.go:67-78 | for any length, any offset below 2^63 and any 32-byte digest, `BE32(len) ++ BE64(off) ++ d` decodes to exactly `(len, off, d)` |
| `Store.ValueRef.Resolve` | embedded/store/key_reader.go:55-59 | allocates a fresh zeroed buffer of exactly `valLen` bytes; makes exactly one `ReadValueAt` call with that buffer, `vOff` and `hVal`; returns the buffer as the store filled it and the store's error as is, even when it is an error |
| `Store.ResolveTwice` | embedded/store/key_reader.go:55-59 | nothing is cached: resolving one reference twice logs two identical reads and returns two distinct buffers with the same bytes, against an unchanging value log (`respond` is a fixed function of the call) |
| `Store.ImmuStore.ReadValueAt` | embedded/store/key_reader.go:57 | the value-log read: logs the call, and overwrites the buffer's prefix with the log's answer |
| `Store.ImmuStore.NewKeyReader` | embedded/store/key_reader.go:31-45 | a nil snapshot gives no reader and `ErrIllegalArguments`, with no reader opened; an error from opening the index reader is returned unchanged with no key reader; otherwise a fresh key reader over this store and a fresh index reader at the start of the scan |
| `Store.KeyReader.constructor` | embedded/store/key_reader.go:41-44 | the key reader holds the given store and index reader |
| `Store.KeyReader.Read` | embedded/store/key_reader.go:61-81 | on an open reader, pulls one result from the index reader; on an error returns it unchanged with an empty key, no reference and `tx = hc = 0`; on an entry returns its key, `tx` and `hc` unchanged and a reference to the decoded locator in the reader's own store; the value log is not read |
| `Store.KeyReader.Close` | embedded/store/key_reader.go:83-85 | on an open reader, closes the index reader and returns its `Close` error unchanged |
| `Tbtree.Reader.Read` | embedded/store/key_reader.go:62 | on an open reader, yields the step at its position and advances by one, in the scan's own order; past the end it yields `ErrNoMoreEntries` and stays put |
| `Tbtree.Reader.Close` | embedded/store/key_reader.go:84 | on an open reader, marks it closed and reports its close error |
| `Tbtree.Snapshot.NewReader` | embedded/store/key_reader.go:36 | opens one reader for the scan specification, or returns the opening error and no reader |
| `Scenarios.HelloLocator` | embedded/store/key_reader.go:67-78 | bytes `00 00 00 05`, `00 00 00 00 00 00 03 E8`, then a digest `d`, decode to length 5, offset 1000, digest `d` |
| `Scenarios.NextLocators` | embedded/store/key_reader.go:67-78 | two further concrete locators decode to length 3 at offsets 1005 and 1008 |
| `Scenarios.ScanInOrder` | embedded/store/key_reader.go:55-81 | a scan over "a", "b", "c", each entry with its own locator, is read in that order with `tx` and `hc` unchanged and each key paired with the reference its own locator decodes to in this store; resolving the first reference makes exactly one read, at offset 1000, and yields "hello" |

## Left out

- `pkg/sql/stmt.go` is not part of this model. It holds only declarative statement and value types and has no behaviour to state.
- `tbtree` internals (key order, range and prefix specifications) are foreign code. They are modelled only as the fixed result sequence of each scan.
- `Store.KeyReader.Read`, `Store.KeyReader.Close`, `Tbtree.Reader.Read`, `Tbtree.Reader.Close`: what the index does on a read or a second close after `Close` is not part of key_reader.go. All four methods require an open reader, so the model promises nothing about reads or closes after `Close`.
- `Tbtree.Reader.Read`: past the end of its scan, the model returns `ErrNoMoreEntries` and stays put. This is the index's behaviour, not key_reader.go's.
- `ImmuStore.ReadValueAt` and the value log (offset bounds, truncation, I/O errors) are foreign I/O. They are modelled as the `respond` answer function plus a call log. The byte count it returns is not used by `Resolve`, as in the source.
- SHA-256 is never computed or checked by this code. Only its 32-byte size is modelled.
- Store lifetime and concurrency do not appear in this code and are not modelled.
- `Store.KeyReader.Read`: a locator shorter than 12 bytes makes the Go code panic. The model makes at least 12 bytes a precondition instead of modelling the panic.
- `Store.KeyReader.Read`: Go returns a nil key on error. The model returns the empty key, which Go treats the same for length and comparison.
- `Store.KeyReader.Read`: Go returns a fresh `*ValueRef` pointer. The model returns a value, so pointer identity and aliasing of references are not modelled. References are never mutated, so this makes no observable difference here.
- `BigEndian.Uint32`, `BigEndian.Uint64`: Go combines the bytes with shifts and OR. The model adds byte times power of 256. The shifted bytes occupy disjoint bits, so the two are equal.
