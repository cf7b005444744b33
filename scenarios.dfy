/**
 Worked examples of the key reader on concrete data: locators for values
 at offsets 1000, 1005 and 1008, and a scan over the keys "a", "b", "c".
 */
module Scenarios {
  import opened GoTypes
  import opened BigEndian
  import opened Store
  import Tbtree

  /** Bytes 00 00 00 05 | 00 00 00 00 00 00 03 E8 | d decode to length 5, offset 1000, digest d. */
  lemma HelloLocator(d: Digest)
    ensures DecodeLocator([0, 0, 0, 5, 0, 0, 0, 0, 0, 0, 3, 0xE8] + d) == Locator(5, 1000, d)
  {
    assert PutUint32(5) == [0, 0, 0, 5];
    assert PutUint64(1000) == [0, 0, 0, 0, 0, 0, 3, 0xE8];
    DecodeLayout(5, 1000, d);
  }

  /** The locators of two 3-byte values stored right after it, at offsets 1005 and 1008. */
  lemma NextLocators(d: Digest)
    ensures DecodeLocator([0, 0, 0, 3, 0, 0, 0, 0, 0, 0, 3, 0xED] + d) == Locator(3, 1005, d)
    ensures DecodeLocator([0, 0, 0, 3, 0, 0, 0, 0, 0, 0, 3, 0xF0] + d) == Locator(3, 1008, d)
  {
    assert PutUint32(3) == [0, 0, 0, 3];
    assert PutUint64(1005) == [0, 0, 0, 0, 0, 0, 3, 0xED];
    assert PutUint64(1008) == [0, 0, 0, 0, 0, 0, 3, 0xF0];
    DecodeLayout(3, 1005, d);
    DecodeLayout(3, 1008, d);
  }

  const Hello: seq<uint8> := [0x68, 0x65, 0x6C, 0x6C, 0x6F]

  /** A scan over "a", "b", "c", each entry with its own locator, is read back in
      that order with tx and hc unchanged and each key paired with the reference
      its own locator decodes to in this store. No value is read until the first
      reference is resolved, which makes exactly one read, at offset 1000, and
      yields "hello". */
  method ScanInOrder(d: Digest) returns (st: ImmuStore, keys: seq<seq<uint8>>, vals: seq<Option<ValueRef>>,
                                         txs: seq<uint64>, hcs: seq<uint64>, value: seq<uint8>)
    ensures keys == [[0x61], [0x62], [0x63]]
    ensures vals == [Some(RefOf(Locator(5, 1000, d), st)), Some(RefOf(Locator(3, 1005, d), st)),
                     Some(RefOf(Locator(3, 1008, d), st))]
    ensures txs == [7, 8, 9]
    ensures hcs == [1, 1, 2]
    ensures value == Hello
    ensures st.calls == [ReadCall(5, 1000, d)]
  {
    var loc1 := [0, 0, 0, 5, 0, 0, 0, 0, 0, 0, 3, 0xE8] + d;
    var loc2 := [0, 0, 0, 3, 0, 0, 0, 0, 0, 0, 3, 0xED] + d;
    var loc3 := [0, 0, 0, 3, 0, 0, 0, 0, 0, 0, 3, 0xF0] + d;
    HelloLocator(d);
    NextLocators(d);
    st := new ImmuStore(call => if call == ReadCall(5, 1000, d) then ReadReply(Hello, None)
                                else ReadReply([], Some(Opaque(1))));
    var entries := [Tbtree.Entry([0x61], loc1, 7, 1), Tbtree.Entry([0x62], loc2, 8, 1),
                    Tbtree.Entry([0x63], loc3, 9, 2)];
    var snap := new Tbtree.Snapshot(_ => entries, _ => None, _ => None);
    var kr, err := st.NewKeyReader(snap, Tbtree.ReaderSpec(0));
    assert kr != null;

    var k1, v1, tx1, hc1, e1 := kr.Read();
    var k2, v2, tx2, hc2, e2 := kr.Read();
    var k3, v3, tx3, hc3, e3 := kr.Read();
    keys, vals, txs, hcs := [k1, k2, k3], [v1, v2, v3], [tx1, tx2, tx3], [hc1, hc2, hc3];

    var buf, e := v1.value.Resolve();
    value := buf[..];
  }
}
