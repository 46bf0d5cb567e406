/** A segment file scanned from its first byte: the records found, where the last of them ends, and what is behind. */
module Scan {
  import opened Bytes
  import opened Record
  import opened Log

  datatype Rest = Clean | TornTail | Bad

  datatype Found = Found(recs: Log, good: nat, rest: Rest)

  ghost function ScanFrom(b: seq<byte>, off: nat): (f: Found)
    requires off <= |b|
    ensures off <= f.good <= |b| && ValidLog(f.recs)
    ensures f.rest.Clean? <==> f.good == |b|
    decreases |b| - off
  {
    match ParseAt(b, off)
    case End => Found([], off, Clean)
    case Torn => Found([], off, TornTail)
    case Corrupt => Found([], off, Bad)
    case Good(r) =>
      var f := ScanFrom(b, off + RecordSize(r));
      Found([r] + f.recs, f.good, f.rest)
  }

  /** One record at off leads the scan from off. */
  lemma ScanStep(b: seq<byte>, off: nat)
    requires off <= |b| && ParseAt(b, off).Good?
    ensures var r := ParseAt(b, off).rec; var f := ScanFrom(b, off + RecordSize(r));
      ScanFrom(b, off) == Found([r] + f.recs, f.good, f.rest)
  {
  }

  /** Records written one behind the other are found one behind the other. */
  lemma {:induction false} ScanLeads(b: seq<byte>, log: Log)
    requires ValidLog(log) && LogSize(log) <= |b| && b[..LogSize(log)] == Print(log)
    ensures var f := ScanFrom(b, LogSize(log));
      ScanFrom(b, 0) == Found(log + f.recs, f.good, f.rest)
  {
    hide ParseAt, RecordBytes, ValidRecord, RecordSize;
    if log == [] {
      assert ScanFrom(b, 0).recs == [] + ScanFrom(b, 0).recs;
    } else {
      var n := |log| - 1;
      var front, r := log[..n], log[n];
      LastRecordBytes(b, log);
      ScanLeads(b, front);
      ParseOfRecordBytes(r, b, LogSize(front));
      ScanStep(b, LogSize(front));
      var f := ScanFrom(b, LogSize(log));
      assert front + ([r] + f.recs) == log + f.recs;
    }
  }

  lemma LastRecordBytes(b: seq<byte>, log: Log)
    requires ValidLog(log) && log != [] && LogSize(log) <= |b| && b[..LogSize(log)] == Print(log)
    ensures var front, r := log[..|log| - 1], log[|log| - 1];
      LogSize(front) + RecordSize(r) == LogSize(log) && b[..LogSize(front)] == Print(front)
      && b[LogSize(front)..LogSize(log)] == RecordBytes(r)
  {
    hide RecordBytes, ValidRecord;
    var front, r := log[..|log| - 1], log[|log| - 1];
    assert IsInt64(r.tstamp) by { RecordIsInt64(r); }
    var n := LogSize(front);
    assert b[..n] == b[..LogSize(log)][..n];
    assert b[n..LogSize(log)] == b[..LogSize(log)][n..];
  }

  /** The bytes up to the good offset are exactly the encodings of the records found. */
  lemma {:induction false} ScanExact(b: seq<byte>, done: Log)
    requires ValidLog(done) && LogSize(done) <= |b| && b[..LogSize(done)] == Print(done)
    ensures var f := ScanFrom(b, LogSize(done));
      ValidLog(done + f.recs) && f.good == LogSize(done + f.recs) && b[..f.good] == Print(done + f.recs)
    decreases |b| - LogSize(done)
  {
    hide ParseAt, RecordBytes, ValidRecord, LogSize, Print, LogItems, ValidLog;
    var off := LogSize(done);
    var f := ScanFrom(b, off);
    if ParseAt(b, off).Good? {
      var r := ParseAt(b, off).rec;
      MoreRead(b, done);
      ScanExact(b, done + [r]);
      assert done + [r] + ScanFrom(b, off + RecordSize(r)).recs == done + f.recs;
    } else {
      assert done + f.recs == done;
    }
  }

  lemma MoreRead(b: seq<byte>, done: Log)
    requires ValidLog(done) && LogSize(done) <= |b| && b[..LogSize(done)] == Print(done)
    requires ParseAt(b, LogSize(done)).Good?
    ensures var r := ParseAt(b, LogSize(done)).rec;
      && ValidLog(done + [r]) && LogSize(done + [r]) == LogSize(done) + RecordSize(r) <= |b|
      && b[..LogSize(done + [r])] == Print(done + [r])
  {
    hide RecordBytes, ParseAt, ValidRecord, LogSize, Print, LogItems;
    var off := LogSize(done);
    var r := ParseAt(b, off).rec;
    RecordBytesOfParse(b, off);
    Append(done, r);
    Glue(b, 0, off, off + RecordSize(r));
    assert b[0..off] == b[..off] && b[0..off + RecordSize(r)] == b[..off + RecordSize(r)];
  }

  // ---------------------------------------------------------------- a log cut anywhere

  /** The number of records that end at or before byte n. */
  ghost function Whole(log: Log, n: nat): (j: nat)
    ensures j <= |log|
  {
    if log == [] then 0
    else if LogSize(log) <= n then |log|
    else Whole(log[..|log| - 1], n)
  }

  lemma {:induction false} WholeFits(log: Log, n: nat)
    ensures var j := Whole(log, n);
      LogSize(log[..j]) <= n && (j < |log| ==> n < LogSize(log[..j + 1]))
  {
    hide RecordSize;
    if log != [] && n < LogSize(log) {
      var front := log[..|log| - 1];
      WholeFits(front, n);
      var j := Whole(front, n);
      assert front[..j] == log[..j];
      if j < |front| {
        assert front[..j + 1] == log[..j + 1];
      } else {
        assert log[..j + 1] == log;
      }
    } else {
      assert log[..|log|] == log;
    }
  }

  lemma {:induction false} PrintPrefix(log: Log, j: nat)
    requires ValidLog(log) && j <= |log|
    ensures LogSize(log[..j]) <= LogSize(log) && Print(log)[..LogSize(log[..j])] == Print(log[..j])
  {
    hide RecordBytes, RecordSize, ValidRecord;
    if j == |log| {
      assert log[..j] == log;
    } else {
      var front := log[..|log| - 1];
      PrintPrefix(front, j);
      assert front[..j] == log[..j];
      assert IsInt64(log[|log| - 1].tstamp) by { RecordIsInt64(log[|log| - 1]); }
      assert Print(log)[..LogSize(log[..j])] == Print(front)[..LogSize(log[..j])];
    }
  }

  /** Record j sits right behind the records before it. */
  lemma RecordAt(log: Log, j: nat)
    requires ValidLog(log) && j < |log|
    ensures LogSize(log[..j]) + RecordSize(log[j]) <= LogSize(log)
    ensures LogSize(log[..j]) + RecordSize(log[j]) == LogSize(log[..j + 1])
    ensures Print(log)[LogSize(log[..j])..LogSize(log[..j]) + RecordSize(log[j])] == RecordBytes(log[j])
  {
    hide RecordBytes, ValidRecord, RecordSize, LogSize, Print;
    PrintPrefix(log, j + 1);
    FrontOf(log, j);
    LastRecordBytes(Print(log), log[..j + 1]);
  }

  lemma FrontOf(log: Log, j: nat)
    requires j < |log|
    ensures var u := log[..j + 1]; |u| == j + 1 && u[..|u| - 1] == log[..j] && u[|u| - 1] == log[j]
  {
  }

  /** Record j of a log, cut off before its end, is torn or not there at all. */
  lemma CutRecord(log: Log, j: nat, n: nat)
    requires ValidLog(log) && j < |log| && LogSize(log[..j]) <= n < LogSize(log[..j + 1])
    requires n <= LogSize(log)
    ensures ParseAt(Print(log)[..n], LogSize(log[..j])) == if n == LogSize(log[..j]) then End else Torn
  {
    hide RecordBytes, ParseAt, ValidRecord, RecordSize, Print, LogSize, LogItems;
    RecordAt(log, j);
    TornAt(Print(log), log[j], LogSize(log[..j]), n);
  }

  lemma TornAt(p: seq<byte>, r: Record, off: nat, n: nat)
    requires ValidRecord(r) && off <= n < off + RecordSize(r) <= |p| && p[off..off + RecordSize(r)] == RecordBytes(r)
    ensures ParseAt(p[..n], off) == if n == off then End else Torn
  {
    hide RecordBytes, ParseAt, ValidRecord;
    RecordIsInt64(r);
    assert p[..n][off..] == p[off..n];
    SubSlice(p, off, RecordSize(r), 0, n - off);
    ParseOfTornRecord(r, p[..n], off);
  }

  /** The prefix-crash theorem: a well-formed log cut at any byte. The scan finds exactly the records that lie wholly
      before the cut, a batch entirely or not at all, and stops at the last record boundary; the rest is clean exactly
      when the cut is such a boundary, and never corrupt. */
  lemma ScanOfCut(log: Log, n: nat)
    requires ValidLog(log) && n <= LogSize(log)
    ensures var j := Whole(log, n);
      ScanFrom(Print(log)[..n], 0) ==
        Found(log[..j], LogSize(log[..j]), if n == LogSize(log[..j]) then Clean else TornTail)
  {
    hide ParseAt, ValidRecord;
    var j := Whole(log, n);
    var b, off := Print(log)[..n], LogSize(log[..j]);
    WholeFits(log, n);
    PrintPrefix(log, j);
    assert b[..off] == Print(log)[..off];
    ScanLeads(b, log[..j]);
    if j < |log| {
      CutRecord(log, j, n);
    } else {
      assert log[..j] == log;
      ScanAtEnd(b);
    }
    assert log[..j] + [] == log[..j];
  }

  lemma ScanAtEnd(b: seq<byte>)
    ensures ScanFrom(b, |b|) == Found([], |b|, Clean)
  {
  }

  /** A second recovery changes nothing: the bytes kept by the first are scanned to the same records, with no rest. */
  lemma ScanAgain(b: seq<byte>)
    ensures var f := ScanFrom(b, 0);
      ScanFrom(b[..f.good], 0) == Found(f.recs, f.good, Clean)
  {
    hide ParseAt;
    var f := ScanFrom(b, 0);
    assert b[..LogSize([])] == Print([]);
    ScanExact(b, []);
    assert [] + f.recs == f.recs;
    var c := b[..f.good];
    assert c[..f.good] == c;
    ScanLeads(c, f.recs);
    ScanAtEnd(c);
    assert f.recs + [] == f.recs;
  }

  ghost predicate Boundary(log: Log, n: nat) {
    exists j :: 0 <= j <= |log| && n == LogSize(log[..j])
  }

  /** Sealed strictness: a cut of a sealed segment is accepted exactly when it is at a record boundary. */
  lemma SealedCut(log: Log, n: nat)
    requires ValidLog(log) && n <= LogSize(log)
    ensures ScanFrom(Print(log)[..n], 0).rest.Clean? <==> Boundary(log, n)
  {
    hide Print, ValidRecord;
    ScanOfCut(log, n);
    WholeFits(log, n);
    if Boundary(log, n) {
      var j :| 0 <= j <= |log| && n == LogSize(log[..j]);
      SizesAscend(log, j, Whole(log, n));
    }
  }

  lemma SizesAscend(log: Log, i: nat, w: nat)
    requires i <= |log| && w <= |log|
    requires LogSize(log[..w]) <= LogSize(log[..i]) && (w < |log| ==> LogSize(log[..i]) < LogSize(log[..w + 1]))
    ensures LogSize(log[..i]) == LogSize(log[..w])
  {
    if i < w {
      Ascend(log, i, w);
    } else if w < i {
      Ascend(log, w + 1, i);
    }
  }

  lemma {:induction false} Ascend(log: Log, i: nat, j: nat)
    requires i <= j <= |log|
    ensures LogSize(log[..i]) <= LogSize(log[..j])
  {
    if i < j {
      Ascend(log, i, j - 1);
      assert log[..j] == log[..j - 1] + [log[j - 1]];
      Append(log[..j - 1], log[j - 1]);
    }
  }
}
