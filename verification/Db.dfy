/** The DB object of engine.go: the fields the writer goroutine changes, the segment files' contents, and, as ghost
    state, the state of the machine they mirror. */
module Db {
  import opened Bytes
  import opened Record
  import opened Log
  import opened Keydirs
  import opened KeydirIndex
  import opened View
  import opened Engine
  import opened Refinement

  /** The fields of a DB, as a value. */
  datatype Fields = Fields(segments: map<nat, seq<byte>>, active: nat, nextID: nat, lastTstamp: int,
                           writesDisabled: bool, maxSegmentSize: nat, index: Keydir)

  ghost predicate Mirror(f: Fields, s: Sys) {
    && f.segments.Keys == s.cur.segs.Keys
    && (forall i :: i in f.segments ==> ValidLog(s.cur.segs[i]) && f.segments[i] == Print(s.cur.segs[i]))
    && f.active == s.cur.active && f.nextID == s.nextID && s.last <= f.lastTstamp
    && f.writesDisabled == s.disabled && f.maxSegmentSize == s.maxSize && f.index == s.cur.kd
  }

  class DB {
    const maxSegmentSize: nat
    const syncOnPut: bool
    const keydir: Index
    var segments: map<nat, seq<byte>>
    var active: nat
    var nextID: nat
    var lastTstamp: int
    var encBuf: array<byte>
    var writesDisabled: bool
    ghost var sys: Sys

    function Values(): Fields
      reads this, keydir
    {
      Fields(segments, active, nextID, lastTstamp, writesDisabled, maxSegmentSize, keydir.index)
    }

    /** The fields are the running engine of the machine's state, byte for byte. */
    ghost predicate Mirrors()
      reads this, keydir
    {
      Mirror(Values(), sys)
    }

    ghost predicate Valid()
      reads this, keydir
    {
      Mirrors() && MemInv(sys)
    }

    /** Open on an empty directory. */
    constructor (maxSegmentSize: nat, syncOnPut: bool)
      ensures Valid() && sys == Init(maxSegmentSize) && fresh(keydir) && fresh(encBuf)
      ensures this.syncOnPut == syncOnPut
      ensures Values() == Fields(map[0 := []], 0, 1, 0, false, maxSegmentSize, map[])
    {
      this.maxSegmentSize, this.syncOnPut := maxSegmentSize, syncOnPut;
      keydir := new Index();
      segments := map[0 := []];
      active, nextID, lastTstamp, writesDisabled := 0, 1, 0, false;
      encBuf := new byte[0];
      sys := Init(maxSegmentSize);
      new;
      InitMem(maxSegmentSize);
    }

    /** The object Open fills: segments loaded, nothing recovered. */
    constructor Recovering(maxSegmentSize: nat, syncOnPut: bool, segments: map<nat, seq<byte>>, nextID: nat)
      ensures fresh(keydir) && this.maxSegmentSize == maxSegmentSize && this.syncOnPut == syncOnPut
      ensures Values() == Fields(segments, 0, nextID, 0, false, maxSegmentSize, map[])
    {
      this.maxSegmentSize, this.syncOnPut := maxSegmentSize, syncOnPut;
      keydir := new Index();
      this.segments, this.nextID := segments, nextID;
      active, lastTstamp, writesDisabled := 0, 0, false;
      encBuf := new byte[0];
      sys := Init(maxSegmentSize);
    }
  }
}
