/** handleRange of server.go: a range scan streamed in pages under a byte cap. Writes to the connection are taken to
    succeed; what the frame and page encoders may refuse is not. */
module RangeServer {
  import opened Bytes
  import opened Wrappers
  import Record
  import opened Log
  import opened View
  import opened Refinement
  import opened Lists
  import opened WireFields
  import opened WireFrame
  import opened WireResponse
  import opened Db
  import Reader
  import Keydirs
  import Engine

  const RANGE_PAGE_FLUSH_BYTES := 256 * 1024
  const STATUS_CLOSED: byte := 4

  // ---------------------------------------------------------------- pages

  function Flatten(pages: seq<seq<KV>>): seq<KV> {
    if pages == [] then [] else pages[0] + Flatten(pages[1..])
  }

  /** The bytes of the page bodies together. */
  ghost function Bodies(pages: seq<seq<KV>>): nat {
    if pages == [] then 0 else |PageBody(pages[0])| + Bodies(pages[1..])
  }

  lemma {:induction false} OneMorePage(pages: seq<seq<KV>>, page: seq<KV>)
    ensures Flatten(pages + [page]) == Flatten(pages) + page
    ensures Bodies(pages + [page]) == Bodies(pages) + |PageBody(page)|
    ensures PagesBytes(pages + [page]) == PagesBytes(pages) + FrameBytes(STATUS_OK, PageBody(page))
  {
    hide FrameBytes, PageBody;
    if pages == [] {
      assert [page][1..] == [];
      assert Flatten([]) == [] && PagesBytes([]) == [];
      assert page + [] == page;
      assert PagesBytes([page]) == FrameBytes(STATUS_OK, PageBody(page)) + [];
    } else {
      OneMorePage(pages[1..], page);
      assert (pages + [page])[1..] == pages[1..] + [page] && (pages + [page])[0] == pages[0];
      Regroup(pages[0], Flatten(pages[1..]), page);
      Regroup(FrameBytes(STATUS_OK, PageBody(pages[0])), PagesBytes(pages[1..]), FrameBytes(STATUS_OK, PageBody(page)));
    }
  }

  /** The variables that handleRange and its two closures share. */
  class Stream {
    const maxBytes: nat
    var page: seq<KV>
    var pageBytes: nat
    var streamedBytes: nat
    var sent: seq<byte>
    ghost var pages: seq<seq<KV>>

    /** Flushed pages and the one in hand, at any moment between two callbacks: everything counted, the cap kept with
        the page in hand included, and that page below the flush threshold. */
    ghost predicate Valid()
      reads this
    {
      && sent == PagesBytes(pages) && streamedBytes == Bodies(pages) <= maxBytes
      && (forall i :: 0 <= i < |pages| ==> PageFits(pages[i]))
      && AllValid(PairOk, page) && pageBytes == |EncAll(PairBytes, page)|
      && (page != [] ==> streamedBytes + 4 + pageBytes <= maxBytes)
    }

    ghost function Delivered(): seq<KV>
      reads this
    {
      Flatten(pages) + page
    }

    constructor (maxBytes: nat)
      ensures Valid() && this.maxBytes == maxBytes && Delivered() == [] && page == [] && pageBytes == 0 && pages == []
    {
      this.maxBytes := maxBytes;
      page, pageBytes, streamedBytes, sent, pages := [], 0, 0, [], [];
    }

    /** The closure flush: the page in hand becomes a frame. It never fails, because every page it can be called with
        fits one. */
    method Flush() returns (ok: bool)
      requires Valid() && pageBytes < RANGE_PAGE_FLUSH_BYTES + 8 + MAX_KEY_LEN + MAX_VAL_LEN
      modifies this
      ensures ok && Valid() && Delivered() == old(Delivered()) && page == [] && pageBytes == 0
      ensures pages == if old(page) == [] then old(pages) else old(pages) + [old(page)]
      ensures streamedBytes == old(streamedBytes) + if old(page) == [] then 0 else 4 + old(pageBytes)
    {
      hide FrameBytes, PageBody, PagesBytes, Bodies, Flatten, PairBytes;
      if |page| == 0 {
        return true;
      }
      SmallPageFits(page);
      var body := EncodeRangePage(page);
      if body.None? {
        return false;
      }
      var out := WriteFrame(sent, STATUS_OK, body.value);
      if out.None? {
        return false;
      }
      OneMorePage(pages, page);
      sent, streamedBytes, pages := out.value, streamedBytes + |body.value|, pages + [page];
      assert Flatten(pages) + [] == Flatten(pages);
      page, pageBytes := [], 0;
      return true;
    }

    /** The callback given to ReadKeyRange: a pair that would take the stream over its cap is not taken, and ends the
        scan. */
    method Offer(k: seq<byte>, v: seq<byte>) returns (more: bool)
      requires Valid() && PairOk(KV(k, v)) && pageBytes < RANGE_PAGE_FLUSH_BYTES
      modifies this
      ensures Valid() && pageBytes < RANGE_PAGE_FLUSH_BYTES
      ensures more ==> Delivered() == old(Delivered()) + [KV(k, v)]
      ensures !more ==> Delivered() == old(Delivered()) && OverCap(KV(k, v))
    {
      hide FrameBytes, PageBody, PagesBytes, Bodies, Flatten, PageFits, Fits;
      var entryBytes := 4 + |k| + 4 + |v|;
      var projected := streamedBytes + pageBytes + 4 + entryBytes;
      if projected > maxBytes {
        return false;
      }
      EncAppend(PairBytes, page, KV(k, v));
      Regroup(Flatten(pages), page, [KV(k, v)]);
      page := page + [KV(k, v)];
      pageBytes := pageBytes + entryBytes;
      if pageBytes >= RANGE_PAGE_FLUSH_BYTES {
        var ok := Flush();
        if !ok {
          return false;
        }
      }
      return true;
    }

    /** There is no room for one more pair, with the count of the page it would go into. */
    ghost predicate OverCap(p: KV)
      reads this
    {
      streamedBytes + pageBytes + 4 + |PairBytes(p)| > maxBytes
    }
  }

  /** Every page fits a frame: it is below the threshold before its last pair, and no pair is large. */
  lemma SmallPageFits(page: seq<KV>)
    requires AllValid(PairOk, page)
    requires |EncAll(PairBytes, page)| < RANGE_PAGE_FLUSH_BYTES + 8 + MAX_KEY_LEN + MAX_VAL_LEN
    ensures PageFits(page) && |PageBody(page)| == 4 + |EncAll(PairBytes, page)|
  {
    hide PairBytes, BE32;
    PairsSize(page);
  }

  // ---------------------------------------------------------------- the scan

  function Pairs(out: seq<Reader.KeyValue>): (pairs: seq<KV>)
    ensures |pairs| == |out| && forall i :: 0 <= i < |out| ==> pairs[i] == KV(out[i].key, out[i].value)
  {
    seq(|out|, i requires 0 <= i < |out| => KV(out[i].key, out[i].value))
  }

  lemma {:induction false} ItemsValid(log: Log)
    requires ValidLog(log)
    ensures forall i :: 0 <= i < |LogItems(log)| ==> Record.ValidOp(LogItems(log)[i].op)
  {
    hide Record.RecordSize, Record.BatchBody;
    if log != [] {
      var n := |log| - 1;
      ItemsValid(log[..n]);
      RecordItemsValid(log[n], LogSize(log[..n]));
    }
  }

  lemma RecordItemsValid(r: Record.Record, off: nat)
    requires Record.ValidRecord(r)
    ensures forall i :: 0 <= i < |RecordItems(r, off)| ==> Record.ValidOp(RecordItems(r, off)[i].op)
  {
    hide Record.BatchBody, OpsItems;
  }

  /** What the engine stores is within the limits of the wire. */
  lemma StoredPairOk(s: Engine.Sys, k: Record.Key)
    requires MemInv(s) && k in s.cur.store
    ensures PairOk(KV(k, s.cur.store[k]))
  {
    hide Record.ValidRecord, LogItems, Timed, PassOk, PickOk, PhaseOk, Engine.Replay;
    assert LocatedAt(s.cur, k);
    var e := s.cur.kd[k];
    ItemsValid(s.cur.segs[e.fileID]);
  }

  function Ascii(s: string): (b: seq<byte>)
    ensures |b| == |s|
  {
    seq(|s|, i requires 0 <= i < |s| => (s[i] as int % 256) as byte)
  }

  /** The answer of a server that streams some pages and then closes the stream. */
  ghost predicate Answers(sent: seq<byte>, status: byte, pages: seq<seq<KV>>, c: Close) {
    IsStream(sent, pages, c, []) && status == if c.EndMark? then STATUS_OK else c.status
  }

  /** The pages hold all the pairs, or, in an overload, those before the first for which there is no room. */
  ghost predicate Delivers(status: byte, pages: seq<seq<KV>>, all: seq<KV>, maxBytes: nat) {
    if status == STATUS_OK then Flatten(pages) == all
    else status == STATUS_OVERLOAD && Flatten(pages) < all
         && Bodies(pages) + 4 + |PairBytes(all[|Flatten(pages)|])| > maxBytes
  }

  method SendError(sent: seq<byte>, status: byte, text: string, ghost pages: seq<seq<KV>>)
    returns (out: seq<byte>, ghost c: Close)
    requires status != STATUS_OK && |text| <= MAX_ERR_MSG_LEN
    requires sent == PagesBytes(pages) && forall i :: 0 <= i < |pages| ==> PageFits(pages[i])
    ensures c.ErrorMark? && Answers(out, status, pages, c)
  {
    hide FrameBytes, PageBody, PagesBytes, PageFits;
    var msg := Ascii(text);
    var body := EncodeError(msg);
    c := ErrorMark(status, msg);
    CloseFits(c);
    var frame := WriteFrame(sent, status, body[..]);
    assert CloseBytes(c) + [] == CloseBytes(c);
    out := frame.value;
  }

  /** handleRange: what goes to the client is one well-formed stream. It holds the whole range of the plain map when
      it ends well, a proper prefix of it when it ends in an overload, and its page bodies keep the cap either way;
      nothing is held back for which there was room. */
  method HandleRange(db: DB, start: Option<seq<byte>>, end: Option<seq<byte>>, moments: nat -> Reader.Moment,
                     maxRangeResponseBytes: nat, slotFree: bool, closed: bool)
    returns (status: byte, sent: seq<byte>, ghost pages: seq<seq<KV>>, ghost c: Close, ghost all: seq<Reader.KeyValue>)
    requires db.Valid() && forall i :: Reader.Reached(db.sys, moments(i))
    ensures Answers(sent, status, pages, c)
    ensures !slotFree ==> status == STATUS_OVERLOAD && pages == []
    ensures slotFree && closed ==> status == STATUS_CLOSED && pages == []
    ensures slotFree && !closed ==> Reader.RangeOf(Engine.Replay(db.sys.hist), start, end, all)
    ensures slotFree && !closed ==> Delivers(status, pages, Pairs(all), maxRangeResponseBytes)
    ensures Bodies(pages) <= maxRangeResponseBytes
  {
    hide FrameBytes, PageBody, PagesBytes, Bodies, Flatten, PageFits, Fits, MemInv;
    hide Mirror, Engine.Replay, IsStream, PairBytes;
    pages, all := [], [];
    NoPages();
    if !slotFree {
      status := STATUS_OVERLOAD;
      sent, c := SendError([], STATUS_OVERLOAD, "concurrent range stream limit reached", []);
      return;
    }
    if closed {
      status := STATUS_CLOSED;
      sent, c := SendError([], STATUS_CLOSED, "engine: db closed", []);
      return;
    }
    var scan := Reader.ReadKeyRange(db, start, end, moments);
    all := scan.value;
    var stream := new Stream(maxRangeResponseBytes);
    var overloaded := false;
    var i := 0;
    while i < |scan.value| && !overloaded
      decreases |scan.value| - i, !overloaded
      invariant stream.Valid() && fresh(stream) && stream.maxBytes == maxRangeResponseBytes
      invariant stream.pageBytes < RANGE_PAGE_FLUSH_BYTES && i <= |scan.value|
      invariant stream.Delivered() == Pairs(all)[..i]
      invariant overloaded ==> i < |scan.value| && stream.OverCap(Pairs(all)[i])
    {
      PairInStore(db, start, end, all, i);
      var more := stream.Offer(scan.value[i].key, scan.value[i].value);
      if more {
        assert Pairs(all)[..i + 1] == Pairs(all)[..i] + [Pairs(all)[i]];
        i := i + 1;
      } else {
        overloaded := true;
      }
    }
    EmptyPage(stream);
    var ok := stream.Flush();
    pages := stream.pages;
    assert Flatten(pages) + [] == Flatten(pages);
    StreamFields(stream);
    if overloaded {
      status := STATUS_OVERLOAD;
      sent, c := SendError(stream.sent, STATUS_OVERLOAD, "range response exceeds byte cap", pages);
    } else {
      assert Pairs(all)[..i] == Pairs(all);
      status := STATUS_OK;
      sent, c := SendEnd(stream.sent, pages);
    }
  }

  method SendEnd(sent: seq<byte>, ghost pages: seq<seq<KV>>) returns (out: seq<byte>, ghost c: Close)
    requires sent == PagesBytes(pages) && forall i :: 0 <= i < |pages| ==> PageFits(pages[i])
    ensures c.EndMark? && Answers(out, STATUS_OK, pages, c)
  {
    hide FrameBytes, PageBody, PagesBytes, PageFits;
    c := EndMark;
    CloseFits(c);
    var frame := WriteFrame(sent, STATUS_OK, EndBody());
    assert CloseBytes(c) + [] == CloseBytes(c);
    out := frame.value;
  }

  /** A stream that is read to its end gives back its pages and how it was closed, and nothing is left of it. */
  lemma ReadBack(sent: seq<byte>, status: byte, pages: seq<seq<KV>>, c: Close, got: seq<seq<KV>>, outcome: Outcome,
                 left: seq<byte>)
    requires Answers(sent, status, pages, c) && ReadsWhole(sent, got, outcome, left)
    ensures got == pages && left == []
    ensures if status == STATUS_OK then outcome == Ended else outcome.RemoteError? && outcome.status == status
  {
    hide IsStream;
    CloseOk(sent, pages, c, []);
  }

  /** End to end, the server's handler and the client's stream reader on the two ends of one connection: the client gets
      the whole range of the plain map in order when the stream ends well; when it ends in an overload, those before the
      first pair for which there was no room; and nothing is left on the connection. */
  method RangeEndToEnd(db: DB, start: Option<seq<byte>>, end: Option<seq<byte>>, moments: nat -> Reader.Moment,
                       maxRangeResponseBytes: nat, slotFree: bool, closed: bool)
    returns (got: seq<seq<KV>>, outcome: Outcome, left: seq<byte>, ghost all: seq<Reader.KeyValue>)
    requires db.Valid() && forall i :: Reader.Reached(db.sys, moments(i))
    ensures left == [] && Bodies(got) <= maxRangeResponseBytes && (outcome.Ended? || outcome.RemoteError?)
    ensures !slotFree ==> got == [] && outcome.RemoteError? && outcome.status == 5
    ensures slotFree && closed ==> got == [] && outcome.RemoteError? && outcome.status == 4
    ensures slotFree && !closed ==> Reader.RangeOf(Engine.Replay(db.sys.hist), start, end, all)
    ensures slotFree && !closed && outcome.Ended? ==> Flatten(got) == Pairs(all)
    ensures slotFree && !closed && outcome.RemoteError? ==>
      outcome.status == 5 && Flatten(got) < Pairs(all)
      && Bodies(got) + 4 + 8 + |all[|Flatten(got)|].key| + |all[|Flatten(got)|].value| > maxRangeResponseBytes
  {
    hide Bodies, Flatten, PairBytes, Answers, ReadsWhole, Engine.Replay, MemInv, Mirror, Reader.RangeOf;
    ghost var pages, c;
    var status, sent;
    status, sent, pages, c, all := HandleRange(db, start, end, moments, maxRangeResponseBytes, slotFree, closed);
    got, outcome, left := ReadRangeStream(sent, None);
    ReadBack(sent, status, pages, c, got, outcome, left);
  }

  lemma EmptyPage(s: Stream)
    requires s.Valid()
    ensures s.page == [] ==> s.pageBytes == 0
  {
  }

  lemma StreamFields(s: Stream)
    requires s.Valid()
    ensures s.sent == PagesBytes(s.pages) && (forall i :: 0 <= i < |s.pages| ==> PageFits(s.pages[i]))
    ensures s.streamedBytes == Bodies(s.pages) <= s.maxBytes
  {
  }

  lemma NoPages()
    ensures PagesBytes([]) == [] && Bodies([]) == 0
  {
  }

  lemma PairInStore(db: DB, start: Option<seq<byte>>, end: Option<seq<byte>>, all: seq<Reader.KeyValue>, i: nat)
    requires db.Valid() && i < |all| && Reader.RangeOf(Engine.Replay(db.sys.hist), start, end, all)
    ensures PairOk(KV(all[i].key, all[i].value))
  {
    hide Engine.Replay, Sound, PassOk, PickOk, PhaseOk, Mirror;
    assert all[i] in all;
    StoredPairOk(db.sys, all[i].key);
  }
}
