/**
 The index collaborator of the key reader, reduced to what the reader relies
 on: a snapshot opens a reader for a scan specification, and a reader yields,
 one call at a time, the entries of that scan and then `ErrNoMoreEntries`.
 How the index orders and selects its entries is not modelled: each scan is
 given as the sequence of results it produces.
 */
module Tbtree {
  import opened GoTypes

  /** Stands for `tbtree.ReaderSpec`; its fields are interpreted by the index only. */
  datatype ReaderSpec = ReaderSpec(id: nat)

  /** One result of `Reader.Read`: an index entry, or the error of that call. */
  datatype Step =
    | Entry(key: seq<uint8>, locator: seq<uint8>, tx: uint64, hc: uint64)
    | Fail(err: Error)

  class Reader {
    /** Everything this cursor will yield, in the order it yields it. */
    const steps: seq<Step>
    /** The result `Close` reports. */
    const closeErr: Option<Error>
    /** How many steps have been yielded. */
    var pos: nat
    var closed: bool

    ghost predicate Valid()
      reads this
    {
      pos <= |steps|
    }

    constructor (steps: seq<Step>, closeErr: Option<Error>)
      ensures Valid()
      ensures this.steps == steps && this.closeErr == closeErr
      ensures pos == 0 && !closed
    {
      this.steps := steps;
      this.closeErr := closeErr;
      pos := 0;
      closed := false;
    }

    /** The result the next `Read` produces. */
    function Next(): Step
      reads this
    {
      if pos < |steps| then steps[pos] else Fail(ErrNoMoreEntries)
    }

    /** Reading a closed reader is the index's own business and is not modelled. */
    method Read() returns (s: Step)
      requires Valid() && !closed
      modifies this`pos
      ensures Valid()
      ensures s == old(Next())
      ensures pos == if old(pos) < |steps| then old(pos) + 1 else old(pos)
    {
      s := Next();
      if pos < |steps| {
        pos := pos + 1;
      }
    }

    /** Closing a reader twice is the index's own business and is not modelled. */
    method Close() returns (err: Option<Error>)
      requires !closed
      modifies this`closed
      ensures closed && err == closeErr
    {
      closed := true;
      err := closeErr;
    }
  }

  class Snapshot {
    /** The results a reader opened with a given specification yields. */
    const scan: ReaderSpec -> seq<Step>
    /** The error, if any, with which opening a reader for a specification fails. */
    const openErr: ReaderSpec -> Option<Error>
    /** The result `Close` reports on a reader opened for a specification. */
    const closeErr: ReaderSpec -> Option<Error>
    /** How many times a reader has been asked for. */
    var readersOpened: nat

    constructor (scan: ReaderSpec -> seq<Step>, openErr: ReaderSpec -> Option<Error>,
                 closeErr: ReaderSpec -> Option<Error>)
      ensures this.scan == scan && this.openErr == openErr && this.closeErr == closeErr
      ensures readersOpened == 0
    {
      this.scan := scan;
      this.openErr := openErr;
      this.closeErr := closeErr;
      readersOpened := 0;
    }

    method NewReader(spec: ReaderSpec) returns (r: Reader?, err: Option<Error>)
      modifies this`readersOpened
      ensures readersOpened == old(readersOpened) + 1
      ensures err == openErr(spec)
      ensures err.Some? ==> r == null
      ensures err.None? ==> r != null && fresh(r) && r.Valid()
      ensures err.None? ==> r != null && r.steps == scan(spec) && r.closeErr == closeErr(spec)
      ensures err.None? ==> r != null && r.pos == 0 && !r.closed
    {
      readersOpened := readersOpened + 1;
      err := openErr(spec);
      if err.Some? {
        r := null;
      } else {
        r := new Reader(scan(spec), closeErr(spec));
      }
    }
  }
}
