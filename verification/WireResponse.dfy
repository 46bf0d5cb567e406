/** Range responses, response.go: pages of pairs, the end mark, error frames, and the stream they form. */
module WireResponse {
  import opened Bytes
  import opened Wrappers
  import opened Lists
  import opened WireFields
  import opened WireFrame

  const STATUS_OK: byte := 0
  const STATUS_OVERLOAD: byte := 5
  const MAX_ERR_MSG_LEN := 1024
  const MIN_RANGE_PAIR_BYTES := 9
  const RANGE_END_SENTINEL := 0xFFFF_FFFF

  datatype KV = KV(key: seq<byte>, value: seq<byte>)

  // ---------------------------------------------------------------- error envelopes

  function ErrorBody(msg: seq<byte>): seq<byte> {
    BE(2, |msg|) + msg
  }

  predicate MsgOk(msg: seq<byte>) {
    |msg| <= MAX_ERR_MSG_LEN
  }

  /** EncodeError: a message too long is cut. */
  method EncodeError(msg: seq<byte>) returns (r: array<byte>)
    ensures r[..] == ErrorBody(if MsgOk(msg) then msg else msg[..MAX_ERR_MSG_LEN])
    ensures ErrorLaid(r[..], if |msg| <= 1024 then msg else msg[..1024])
  {
    hide BE, ErrorLaid;
    var m := if |msg| > MAX_ERR_MSG_LEN then msg[..MAX_ERR_MSG_LEN] else msg;
    r := new byte[2 + |m|];
    LayOut(r, 0, 0, BE(2, |m|));
    LayOut(r, 0, 2, m);
    assert r[0..2 + |m|] == r[..];
    ErrorMeans(r[..], m);
  }

  /** A length in two bytes, the higher one first, and the message. */
  ghost predicate ErrorLaid(body: seq<byte>, msg: seq<byte>) {
    && |body| == 2 + |msg| && |msg| == 256 * (body[0] as nat) + body[1] as nat
    && forall i :: 0 <= i < |msg| ==> body[2 + i] == msg[i]
  }

  lemma ErrorMeans(body: seq<byte>, msg: seq<byte>)
    requires |msg| < 65_536
    ensures body == ErrorBody(msg) <==> ErrorLaid(body, msg)
  {
    hide BE, FromBE;
    Widths();
    FromBEOfBE(2, |msg|);
    if |body| == 2 + |msg| {
      BEOfFromBE(body[..2]);
      Digits2(body[..2]);
      assert body == body[..2] + body[2..];
      assert body[2..] == msg <==> forall i :: 0 <= i < |msg| ==> body[2 + i] == msg[i] by {
        assert forall i :: 0 <= i < |msg| ==> body[2..][i] == body[2 + i];
      }
    }
  }

  method DecodeError(body: seq<byte>) returns (r: Option<seq<byte>>)
    ensures r.Some? ==> MsgOk(r.value) && body == ErrorBody(r.value)
    ensures forall msg :: MsgOk(msg) && body == ErrorBody(msg) ==> r == Some(msg)
    ensures r.Some? ==> |r.value| <= 1024 && ErrorLaid(body, r.value)
    ensures r.None? ==> forall msg :: |msg| <= 1024 ==> !ErrorLaid(body, msg)
  {
    hide BE, FromBE, ErrorLaid;
    forall msg | |msg| <= 1024 ensures body == ErrorBody(msg) <==> ErrorLaid(body, msg) {
      ErrorMeans(body, msg);
    }
    forall msg | MsgOk(msg) && body == ErrorBody(msg)
      ensures 2 <= |body| && FromBE(body[0..2]) == |msg| && |body| == 2 + |msg| && body[2..] == msg
    {
      ErrorLength(body, msg);
    }
    if |body| < 2 {
      return None;
    }
    var mlen := FromBE(body[0..2]);
    if mlen > MAX_ERR_MSG_LEN || |body| != 2 + mlen {
      return None;
    }
    BEOfFromBE(body[0..2]);
    assert body == body[0..2] + body[2..];
    return Some(body[2..]);
  }

  lemma ErrorLength(body: seq<byte>, msg: seq<byte>)
    requires MsgOk(msg) && body == ErrorBody(msg)
    ensures FromBE(body[0..2]) == |msg| && |body| == 2 + |msg| && body[2..] == msg
  {
    hide BE, FromBE;
    Widths();
    FromBEOfBE(2, |msg|);
    assert body[0..2] == BE(2, |msg|);
  }

  // ---------------------------------------------------------------- pages

  function PairBytes(p: KV): (b: seq<byte>)
    ensures |b| == 8 + |p.key| + |p.value|
  {
    Field(p.key) + Field(p.value)
  }

  predicate PairOk(p: KV) {
    1 <= |p.key| <= MAX_KEY_LEN && |p.value| <= MAX_VAL_LEN
  }

  ghost function PageBody(pairs: seq<KV>): seq<byte> {
    BE32(|pairs|) + EncAll(PairBytes, pairs)
  }

  /** How many bytes the pairs of a page take. */
  function PairsLength(pairs: seq<KV>): nat {
    if pairs == [] then 0 else
      var n := |pairs| - 1;
      PairsLength(pairs[..n]) + 8 + |pairs[n].key| + |pairs[n].value|
  }

  /** Where pair i of a page starts. */
  function PairOff(pairs: seq<KV>, i: nat): nat
    requires i <= |pairs|
  {
    4 + PairsLength(pairs[..i])
  }

  /** A count, and that many pairs of a key and a value, one behind the other. */
  ghost predicate PageLaid(body: seq<byte>, pairs: seq<KV>) {
    && |body| == 4 + PairsLength(pairs) && FromBE(body[0..4]) == |pairs|
    && forall i :: 0 <= i < |pairs| ==>
         && FieldAt(body, PairOff(pairs, i), pairs[i].key)
         && FieldAt(body, PairOff(pairs, i) + 4 + |pairs[i].key|, pairs[i].value)
  }

  ghost predicate PageOk(pairs: seq<KV>) {
    |pairs| < RANGE_END_SENTINEL && AllValid(PairOk, pairs)
  }

  lemma PairHere(pairs: seq<KV>, i: nat)
    requires i < |pairs|
    ensures EncAll(PairBytes, pairs[..i + 1]) == EncAll(PairBytes, pairs[..i]) + PairBytes(pairs[i])
    ensures |EncAll(PairBytes, pairs[..i + 1])| <= |EncAll(PairBytes, pairs)|
  {
    SplitAt(pairs, i);
    EncAppend(PairBytes, pairs[..i], pairs[i]);
    EncAt(PairBytes, pairs, i);
  }

  /** EncodeRangePage fails exactly when a pair is outside the limits or the page does not fit a frame. */
  method EncodeRangePage(pairs: seq<KV>) returns (r: Option<seq<byte>>)
    ensures r == if PageOk(pairs) && Fits(PageBody(pairs)) then Some(PageBody(pairs)) else None
    ensures r.Some? ==> PageLaid(r.value, pairs)
    ensures r.Some? <==>
      |pairs| < 0xFFFF_FFFF && 4 + PairsLength(pairs) + 1 <= 33_554_432
      && forall i :: 0 <= i < |pairs| ==> 1 <= |pairs[i].key| <= 65_536 && |pairs[i].value| <= 16_777_216
  {
    hide PairBytes, BE32, PageLaid;
    PageSize(pairs);
    if |pairs| >= RANGE_END_SENTINEL {
      return None;
    }
    var size := 4;
    for i := 0 to |pairs|
      invariant forall j :: 0 <= j < i ==> PairOk(pairs[j])
      invariant size == 4 + |EncAll(PairBytes, pairs[..i])|
    {
      var p := pairs[i];
      PairHere(pairs, i);
      if |p.key| == 0 || |p.key| > MAX_KEY_LEN || |p.value| > MAX_VAL_LEN {
        return None;
      }
      size := size + (4 + |p.key| + 4 + |p.value|);
    }
    assert pairs[..|pairs|] == pairs;
    if size + 1 > MAX_FRAME_PAYLOAD {
      return None;
    }
    var buf := FillPage(pairs, size);
    PageMeans(buf[..], pairs);
    return Some(buf[..]);
  }

  method FillPage(pairs: seq<KV>, size: nat) returns (buf: array<byte>)
    requires size == 4 + |EncAll(PairBytes, pairs)|
    ensures buf[..] == PageBody(pairs)
  {
    hide Field, BE32;
    buf := new byte[size];
    var count := BE32(|pairs|);
    LayOut(buf, 0, 0, count);
    var off := 4;
    assert pairs[..0] == [] && count + [] == count;
    for i := 0 to |pairs|
      invariant off == 4 + |EncAll(PairBytes, pairs[..i])| <= buf.Length
      invariant buf[0..off] == count + EncAll(PairBytes, pairs[..i])
    {
      PairHere(pairs, i);
      ghost var before := buf[0..off];
      PutField(buf, off, pairs[i].key);
      PutField(buf, off + 4 + |pairs[i].key|, pairs[i].value);
      Regroup(before, Field(pairs[i].key), Field(pairs[i].value));
      Regroup(count, EncAll(PairBytes, pairs[..i]), PairBytes(pairs[i]));
      off := off + 8 + |pairs[i].key| + |pairs[i].value|;
    }
    assert pairs[..|pairs|] == pairs && buf[0..off] == buf[..];
  }

  ghost predicate PairAt(b: seq<byte>, off: nat, p: KV) {
    FieldAt(b, off, p.key) && FieldAt(b, off + 4 + |p.key|, p.value)
  }

  lemma PairAtBytes(b: seq<byte>, off: nat, p: KV)
    requires PairOk(p) && off <= |b|
    ensures PairAt(b, off, p) <==> PairBytes(p) <= b[off..]
  {
    hide Field;
    TwoFields(b, off, p.key, Field(p.value));
    if off + 4 + |p.key| <= |b| {
      FieldAtBytes(b, off + 4 + |p.key|, p.value);
    }
  }

  lemma PairUnique(b: seq<byte>, off: nat, p: KV, q: KV)
    requires PairAt(b, off, p) && PairAt(b, off, q)
    ensures p == q
  {
    hide FieldAt;
    FieldUnique(b, off, p.key, q.key);
    FieldUnique(b, off + 4 + |p.key|, p.value, q.value);
  }

  lemma PairsPrefixFree()
    ensures PrefixFree(PairBytes, PairOk) && NonEmpty(PairBytes, PairOk)
  {
    hide PairAt;
    forall x, y, b: seq<byte> | PairOk(x) && PairOk(y) && Begins(b, PairBytes(x)) && Begins(b, PairBytes(y))
      ensures x == y
    {
      assert b[0..] == b;
      PairAtBytes(b, 0, x);
      PairAtBytes(b, 0, y);
      PairUnique(b, 0, x, y);
    }
  }

  lemma {:induction false} PairsSize(pairs: seq<KV>)
    requires AllValid(PairOk, pairs)
    ensures |EncAll(PairBytes, pairs)| >= MIN_RANGE_PAIR_BYTES * |pairs|
  {
    hide PairBytes;
    if pairs != [] {
      PairsSize(pairs[..|pairs| - 1]);
    }
  }

  method TakePair(b: seq<byte>, off: nat) returns (r: Option<KV>)
    requires off <= |b|
    ensures r.Some? ==> PairOk(r.value) && PairAt(b, off, r.value)
    ensures r.None? ==> forall p :: PairOk(p) ==> !PairAt(b, off, p)
  {
    hide FieldAt;
    var key := TakeField(b, off, MAX_KEY_LEN);
    if key.None? {
      return None;
    }
    FieldIs(b, off, key.value);
    if |key.value| < 1 {
      return None;
    }
    var value := TakeField(b, off + 4 + |key.value|, MAX_VAL_LEN);
    if value.None? {
      return None;
    }
    return Some(KV(key.value, value.value));
  }

  lemma {:induction false} PairsStart(pairs: seq<KV>)
    ensures |EncAll(PairBytes, pairs)| == PairsLength(pairs)
  {
    if pairs != [] {
      PairsStart(pairs[..|pairs| - 1]);
    }
  }

  lemma PageSize(pairs: seq<KV>)
    ensures |PageBody(pairs)| == 4 + PairsLength(pairs)
  {
    hide PairBytes, BE32;
    PairsStart(pairs);
  }

  lemma {:induction false} PairsGrow(pairs: seq<KV>, i: nat)
    requires i <= |pairs|
    ensures PairsLength(pairs[..i]) <= PairsLength(pairs)
  {
    if i == |pairs| {
      assert pairs[..i] == pairs;
    } else {
      PairsGrow(pairs[..|pairs| - 1], i);
      assert pairs[..|pairs| - 1][..i] == pairs[..i];
    }
  }

  lemma PairPlaced(body: seq<byte>, pairs: seq<KV>, i: nat)
    requires i < |pairs| && PairOk(pairs[i]) && |body| == 4 + PairsLength(pairs)
    ensures Placed(PairBytes, body[4..], pairs, i) <==> PairAt(body, PairOff(pairs, i), pairs[i])
  {
    hide PairBytes, PairAt, PairOk;
    PairsStart(pairs[..i]);
    PairsGrow(pairs, i);
    PairAtBytes(body, PairOff(pairs, i), pairs[i]);
    assert body[4..][PairsLength(pairs[..i])..] == body[PairOff(pairs, i)..];
  }

  lemma PairsLaid(body: seq<byte>, pairs: seq<KV>)
    requires AllValid(PairOk, pairs) && 4 <= |body|
    ensures body[4..] == EncAll(PairBytes, pairs) <==>
      |body| == 4 + PairsLength(pairs)
      && forall i :: 0 <= i < |pairs| ==> PairAt(body, PairOff(pairs, i), pairs[i])
  {
    hide PairBytes, PairAt, PairOk, Placed, PairOff;
    LaidOut(PairBytes, body[4..], pairs);
    PairsStart(pairs);
    assert pairs[..|pairs|] == pairs;
    if |body| == 4 + PairsLength(pairs) {
      forall i | 0 <= i < |pairs|
        ensures Placed(PairBytes, body[4..], pairs, i) <==> PairAt(body, PairOff(pairs, i), pairs[i])
      {
        PairPlaced(body, pairs, i);
      }
    }
  }

  /** What the body of a page is, byte by byte. */
  lemma PageMeans(body: seq<byte>, pairs: seq<KV>)
    requires PageOk(pairs)
    ensures body == PageBody(pairs) <==> PageLaid(body, pairs)
  {
    hide PairBytes, PairOk, BE32, FromBE, FieldAt, PairOff;
    if 4 <= |body| {
      PairsLaid(body, pairs);
      BE32RoundTrip(|pairs|);
      FromBE32Bound(body[0..4]);
      assert body == body[0..4] + body[4..];
      assert body == PageBody(pairs) ==> body[0..4] == BE32(|pairs|);
    }
  }

  /** EncodeRangeEnd: a page count no page can have. */
  function EndBody(): seq<byte> {
    BE32(RANGE_END_SENTINEL)
  }

  lemma EndMeans()
    ensures EndBody() == [255, 255, 255, 255]
  {
    hide BE32, FromBE;
    var b: seq<byte> := [255, 255, 255, 255];
    Digits4(b);
    FromBE32Bound(b);
  }

  datatype RangeFrame = Page(pairs: seq<KV>) | End

  ghost predicate StandsForFrame(body: seq<byte>, f: RangeFrame) {
    match f
    case Page(pairs) => PageOk(pairs) && body == PageBody(pairs)
    case End => body == EndBody()
  }

  /** DecodeRangeFrame: a body is accepted exactly when it is the encoding of a page or of the end. */
  method DecodeRangeFrame(body: seq<byte>) returns (r: Option<RangeFrame>)
    ensures r.Some? ==> StandsForFrame(body, r.value)
    ensures forall f :: StandsForFrame(body, f) ==> r == Some(f)
    ensures r.Some? ==> if r.value.Page? then PageLaid(body, r.value.pairs) else body == [255, 255, 255, 255]
  {
    hide BE32, FromBE, PageBody, PageOk, PageLaid;
    EndMeans();
    if |body| < 4 {
      forall f ensures !StandsForFrame(body, f) {
        if StandsForFrame(body, f) {
          FrameHeader(body, f);
        }
      }
      return None;
    }
    var count := FromBE(body[0..4]);
    forall f | StandsForFrame(body, f)
      ensures count == (if f.Page? then |f.pairs| else RANGE_END_SENTINEL)
      && (f.Page? ==> PageOk(f.pairs)) && (f.End? ==> |body| == 4)
    {
      FrameHeader(body, f);
    }
    if count == RANGE_END_SENTINEL {
      NotAPage(body);
      if |body| != 4 {
        return None;
      }
      FromBE32Bound(body[0..4]);
      assert body[0..4] == body;
      return Some(End);
    }
    var pairs := DecodePage(body, count);
    if pairs.None? {
      return None;
    }
    forall f | StandsForFrame(body, f) ensures f == Page(pairs.value) {
      PagesSame(body, f.pairs, pairs.value);
    }
    PageMeans(body, pairs.value);
    return Some(Page(pairs.value));
  }

  lemma NotAPage(body: seq<byte>)
    requires 4 <= |body| && FromBE(body[0..4]) == RANGE_END_SENTINEL
    ensures forall f :: StandsForFrame(body, f) ==> f.End?
  {
    hide BE32, FromBE, PageBody;
    forall f | StandsForFrame(body, f) ensures f.End? {
      FrameHeader(body, f);
    }
  }

  lemma FrameHeader(body: seq<byte>, f: RangeFrame)
    requires StandsForFrame(body, f)
    ensures 4 <= |body| && FromBE(body[0..4]) == if f.Page? then |f.pairs| else RANGE_END_SENTINEL
    ensures f.End? ==> |body| == 4
    ensures f.Page? ==> PageOk(f.pairs) && |f.pairs| < RANGE_END_SENTINEL
    ensures f.Page? ==> body[4..] == EncAll(PairBytes, f.pairs)
  {
    hide BE32, FromBE, PairBytes;
    var n := if f.Page? then |f.pairs| else RANGE_END_SENTINEL;
    BE32RoundTrip(n);
    assert body[0..4] == BE32(n);
  }

  lemma PagesSame(body: seq<byte>, p: seq<KV>, q: seq<KV>)
    requires PageOk(p) && PageOk(q) && body == PageBody(p) == PageBody(q)
    ensures p == q
  {
    hide BE32, FromBE, PairBytes, PrefixFree, NonEmpty;
    FrameHeader(body, Page(p));
    FrameHeader(body, Page(q));
    PairsPrefixFree();
    EncSame(PairBytes, PairOk, p, q);
  }

  method DecodePage(body: seq<byte>, count: nat) returns (r: Option<seq<KV>>)
    requires 4 <= |body| && count == FromBE(body[0..4]) != RANGE_END_SENTINEL
    ensures r.Some? ==> PageOk(r.value) && body == PageBody(r.value)
    ensures r.None? ==> forall pairs :: PageOk(pairs) ==> body != PageBody(pairs)
  {
    hide BE32, FromBE, PairBytes, PairAt, PairOk, PrefixFree, NonEmpty, PageBody, PageOk;
    var remaining := body[4..];
    forall ps: seq<KV> | PageOk(ps) && body == PageBody(ps)
      ensures |ps| == count && AllValid(PairOk, ps) && remaining == EncAll(PairBytes, ps)
      ensures |remaining| >= MIN_RANGE_PAIR_BYTES * count
    {
      PageHeader(body, ps);
    }
    if count * MIN_RANGE_PAIR_BYTES > |remaining| {
      return None;
    }
    var pairs: seq<KV> := [];
    var off: nat := 0;
    for i := 0 to count
      invariant |pairs| == i && AllValid(PairOk, pairs)
      invariant off <= |remaining| && remaining[..off] == EncAll(PairBytes, pairs)
    {
      forall ps: seq<KV> | PageOk(ps) && body == PageBody(ps) ensures PairOk(ps[i]) && PairAt(remaining, off, ps[i]) {
        NextPair(remaining, ps, pairs, off);
      }
      var p := TakePair(remaining, off);
      if p.None? {
        return None;
      }
      PairTaken(remaining, pairs, off, p.value);
      pairs := pairs + [p.value];
      off := off + 8 + |p.value.key| + |p.value.value|;
    }
    if off != |remaining| {
      forall ps: seq<KV> ensures !(PageOk(ps) && body == PageBody(ps)) {
        if PageOk(ps) && body == PageBody(ps) {
          AllTaken(remaining, ps, pairs, off);
        }
      }
      return None;
    }
    assert remaining[..off] == remaining;
    PageRead(body, pairs);
    return Some(pairs);
  }

  lemma PageHeader(body: seq<byte>, ps: seq<KV>)
    requires PageOk(ps) && body == PageBody(ps)
    ensures FromBE(body[0..4]) == |ps| && AllValid(PairOk, ps) && body[4..] == EncAll(PairBytes, ps)
    ensures |body[4..]| >= MIN_RANGE_PAIR_BYTES * |ps|
  {
    hide BE32, FromBE, PairBytes;
    FrameHeader(body, Page(ps));
    PairsSize(ps);
  }

  lemma PageRead(body: seq<byte>, pairs: seq<KV>)
    requires 4 <= |body| && FromBE(body[0..4]) == |pairs| != RANGE_END_SENTINEL && AllValid(PairOk, pairs)
    requires body[4..] == EncAll(PairBytes, pairs)
    ensures PageOk(pairs) && body == PageBody(pairs)
  {
    hide BE32, FromBE, PairBytes;
    FromBE32Bound(body[0..4]);
    assert body == body[0..4] + body[4..];
  }

  lemma AllTaken(remaining: seq<byte>, ps: seq<KV>, done: seq<KV>, off: nat)
    requires AllValid(PairOk, ps) && AllValid(PairOk, done) && |done| == |ps|
    requires remaining == EncAll(PairBytes, ps) && off <= |remaining| && remaining[..off] == EncAll(PairBytes, done)
    ensures off == |remaining|
  {
    hide PairBytes, PairOk, PrefixFree, NonEmpty;
    PairsPrefixFree();
    assert remaining[..off] <= remaining;
    DeterminedAll(PairBytes, PairOk, ps, done);
  }

  lemma NextPair(remaining: seq<byte>, ps: seq<KV>, done: seq<KV>, off: nat)
    requires AllValid(PairOk, ps) && AllValid(PairOk, done) && |done| < |ps|
    requires remaining == EncAll(PairBytes, ps) && off <= |remaining| && remaining[..off] == EncAll(PairBytes, done)
    ensures PairOk(ps[|done|]) && PairAt(remaining, off, ps[|done|])
  {
    hide PairBytes, PairAt, PairOk, PrefixFree, NonEmpty;
    PairsPrefixFree();
    NextElement(PairBytes, PairOk, remaining, ps, done);
    PairAtBytes(remaining, off, ps[|done|]);
  }

  lemma PairTaken(remaining: seq<byte>, done: seq<KV>, off: nat, p: KV)
    requires AllValid(PairOk, done) && PairOk(p) && off <= |remaining| && PairAt(remaining, off, p)
    requires remaining[..off] == EncAll(PairBytes, done)
    ensures var n := off + 8 + |p.key| + |p.value|;
      n <= |remaining| && remaining[..n] == EncAll(PairBytes, done + [p]) && AllValid(PairOk, done + [p])
  {
    hide PairAt, PairOk, PairBytes, Field;
    PairAtBytes(remaining, off, p);
    EncAppend(PairBytes, done, p);
    var n := off + |PairBytes(p)|;
    Glue(remaining, 0, off, n);
    assert remaining[off..n] == remaining[off..][..|PairBytes(p)|];
    assert remaining[0..off] == remaining[..off] && remaining[0..n] == remaining[..n];
  }

  // ---------------------------------------------------------------- streams

  /** How a stream ends. */
  datatype Close = EndMark | ErrorMark(status: byte, msg: seq<byte>)

  ghost function PagesBytes(pages: seq<seq<KV>>): seq<byte> {
    if pages == [] then [] else FrameBytes(STATUS_OK, PageBody(pages[0])) + PagesBytes(pages[1..])
  }

  ghost function CloseBytes(c: Close): seq<byte> {
    if c.EndMark? then FrameBytes(STATUS_OK, EndBody()) else FrameBytes(c.status, ErrorBody(c.msg))
  }

  ghost predicate PageFits(pairs: seq<KV>) {
    PageOk(pairs) && Fits(PageBody(pairs))
  }

  /** b begins with a whole stream, and rest follows it. */
  ghost predicate IsStream(b: seq<byte>, pages: seq<seq<KV>>, c: Close, rest: seq<byte>) {
    && (forall i :: 0 <= i < |pages| ==> PageFits(pages[i]))
    && (c.ErrorMark? ==> c.status != STATUS_OK && MsgOk(c.msg))
    && b == PagesBytes(pages) + (CloseBytes(c) + rest)
  }

  /** What a stream is, frame by frame: pages with status 0, then the end mark or one error. */
  lemma StreamMeans(b: seq<byte>, pages: seq<seq<KV>>, c: Close, rest: seq<byte>)
    ensures IsStream(b, pages, c, rest) <==>
      if pages != [] then
        PageFits(pages[0])
        && exists tail :: b == FrameBytes(0, PageBody(pages[0])) + tail && IsStream(tail, pages[1..], c, rest)
      else if c.EndMark? then b == FrameBytes(0, [255, 255, 255, 255]) + rest
      else c.status != 0 && |c.msg| <= 1024 && b == FrameBytes(c.status, ErrorBody(c.msg)) + rest
  {
    hide FrameBytes, PageBody, PageFits, ErrorBody;
    EndMeans();
    if pages != [] {
      if IsStream(b, pages, c, rest) {
        StreamHead(b, pages, c, rest);
      }
      forall tail | PageFits(pages[0]) && b == FrameBytes(0, PageBody(pages[0])) + tail
        && IsStream(tail, pages[1..], c, rest)
        ensures IsStream(b, pages, c, rest)
      {
        Regroup(FrameBytes(0, PageBody(pages[0])), PagesBytes(pages[1..]), CloseBytes(c) + rest);
        assert forall i :: 0 < i < |pages| ==> pages[i] == pages[1..][i - 1];
      }
    }
  }

  /** What the first frame of a stream is. */
  lemma StreamHead(b: seq<byte>, pages: seq<seq<KV>>, c: Close, rest: seq<byte>)
    requires IsStream(b, pages, c, rest)
    ensures pages == [] ==> b == CloseBytes(c) + rest
    ensures pages != [] ==>
      var tail := PagesBytes(pages[1..]) + (CloseBytes(c) + rest);
      b == FrameBytes(STATUS_OK, PageBody(pages[0])) + tail && PageFits(pages[0]) && IsStream(tail, pages[1..], c, rest)
  {
    hide FrameBytes, PageBody, CloseBytes, PageFits;
    if pages == [] {
      assert b == CloseBytes(c) + rest;
    } else {
      Regroup(FrameBytes(STATUS_OK, PageBody(pages[0])), PagesBytes(pages[1..]), CloseBytes(c) + rest);
    }
  }

  lemma CloseFits(c: Close)
    requires c.ErrorMark? ==> MsgOk(c.msg)
    ensures Fits(if c.EndMark? then EndBody() else ErrorBody(c.msg))
  {
    hide BE32, BE;
  }

  /** What reading one frame off a stream tells about it. */
  ghost predicate FrameSays(tag: byte, body: seq<byte>, left: seq<byte>, pages: seq<seq<KV>>, c: Close,
                            rest: seq<byte>)
  {
    if pages != [] then
      tag == STATUS_OK && StandsForFrame(body, Page(pages[0])) && IsStream(left, pages[1..], c, rest)
    else if c.EndMark? then tag == STATUS_OK && StandsForFrame(body, End) && left == rest
    else tag == c.status != STATUS_OK && MsgOk(c.msg) && body == ErrorBody(c.msg) && left == rest
  }

  lemma FrameOfStream(b: seq<byte>, tag: byte, body: seq<byte>, left: seq<byte>,
                      pages: seq<seq<KV>>, c: Close, rest: seq<byte>)
    requires IsStream(b, pages, c, rest) && Fits(body) && b == FrameBytes(tag, body) + left
    ensures FrameSays(tag, body, left, pages, c, rest)
  {
    hide FrameBytes, PageBody, PageOk, EndBody, ErrorBody, IsStream, Fits;
    StreamHead(b, pages, c, rest);
    CloseOk(b, pages, c, rest);
    if pages != [] {
      FrameUnique(tag, body, left, STATUS_OK, PageBody(pages[0]), PagesBytes(pages[1..]) + (CloseBytes(c) + rest));
    } else {
      CloseFits(c);
      if c.EndMark? {
        FrameUnique(tag, body, left, STATUS_OK, EndBody(), rest);
      } else {
        FrameUnique(tag, body, left, c.status, ErrorBody(c.msg), rest);
      }
    }
  }

  lemma CloseOk(b: seq<byte>, pages: seq<seq<KV>>, c: Close, rest: seq<byte>)
    requires IsStream(b, pages, c, rest)
    ensures c.ErrorMark? ==> c.status != STATUS_OK && MsgOk(c.msg)
  {
  }

  /** A stream starts with a frame. */
  lemma StreamHasFrame(b: seq<byte>, pages: seq<seq<KV>>, c: Close, rest: seq<byte>)
    requires IsStream(b, pages, c, rest)
    ensures exists tag, body :: Fits(body) && FrameBytes(tag, body) <= b
  {
    hide FrameBytes, PageBody, PageOk, EndBody, ErrorBody, IsStream, Fits;
    StreamHead(b, pages, c, rest);
    CloseOk(b, pages, c, rest);
    if pages != [] {
      assert Fits(PageBody(pages[0])) && FrameBytes(STATUS_OK, PageBody(pages[0])) <= b;
    } else {
      CloseFits(c);
      if c.EndMark? {
        assert Fits(EndBody()) && FrameBytes(STATUS_OK, EndBody()) <= b;
      } else {
        assert Fits(ErrorBody(c.msg)) && FrameBytes(c.status, ErrorBody(c.msg)) <= b;
      }
    }
  }

  datatype Outcome = Ended | RemoteError(status: byte, msg: seq<byte>) | Stopped | Broken

  function OutcomeOf(c: Close): Outcome {
    if c.EndMark? then Ended else RemoteError(c.status, c.msg)
  }

  /** Of the stream in r, got has been read and left is still to come. */
  ghost predicate ReadSoFar(r: seq<byte>, got: seq<seq<KV>>, left: seq<byte>) {
    forall pages, c, rest :: IsStream(r, pages, c, rest) ==> got <= pages && IsStream(left, pages[|got|..], c, rest)
  }

  /** If r begins with a whole stream, that is what has been read of it. */
  ghost predicate ReadsWhole(r: seq<byte>, pages: seq<seq<KV>>, outcome: Outcome, left: seq<byte>) {
    forall ps, c, rest :: IsStream(r, ps, c, rest) ==> pages == ps && outcome == OutcomeOf(c) && left == rest
  }

  /** ReadRangeStream on a connection that delivers r. Page number stopAfter is the one the callback refuses. On a
      whole stream, the callback is given exactly its pages in order, the outcome is how it was closed, and nothing
      behind it is consumed. */
  method ReadRangeStream(r: seq<byte>, stopAfter: Option<nat>)
    returns (pages: seq<seq<KV>>, outcome: Outcome, left: seq<byte>)
    ensures stopAfter.None? ==> ReadsWhole(r, pages, outcome, left)
    ensures stopAfter.None? ==> forall ps, c, rest :: IsStream(r, ps, c, rest) ==>
      pages == ps && left == rest && if c.EndMark? then outcome == Ended else outcome == RemoteError(c.status, c.msg)
    ensures forall ps, c, rest :: IsStream(r, ps, c, rest) ==> pages <= ps
    ensures stopAfter.Some? ==> |pages| <= stopAfter.value + 1 && (outcome.Stopped? <==> |pages| == stopAfter.value + 1)
    ensures stopAfter.None? ==> !outcome.Stopped?
  {
    hide FrameBytes, PageBody, PageOk, EndBody, ErrorBody, IsStream, Fits, StandsForFrame, PageLaid, ErrorLaid;
    pages, left := [], r;
    forall ps, c, rest | IsStream(r, ps, c, rest) ensures IsStream(left, ps[0..], c, rest) {
      assert ps[0..] == ps;
    }
    while true
      invariant ReadSoFar(r, pages, left)
      invariant stopAfter.Some? ==> |pages| <= stopAfter.value
      decreases |left|
    {
      var f := ReadFrame(left);
      if !f.Frame? {
        forall ps, c, rest ensures !IsStream(r, ps, c, rest) {
          if IsStream(r, ps, c, rest) {
            StreamHasFrame(left, ps[|pages|..], c, rest);
          }
        }
        return pages, Broken, left;
      }
      forall ps, c, rest | IsStream(r, ps, c, rest)
        ensures FrameSays(f.tag, f.body, f.rest, ps[|pages|..], c, rest)
      {
        FrameOfStream(left, f.tag, f.body, f.rest, ps[|pages|..], c, rest);
      }
      ghost var before := left;
      left := f.rest;
      if f.tag != STATUS_OK {
        var msg := DecodeError(f.body);
        forall ps, c, rest | IsStream(r, ps, c, rest)
          ensures pages == ps && msg.Some? && OutcomeOf(c) == RemoteError(f.tag, msg.value) && left == rest
        {
          assert pages <= ps && FrameSays(f.tag, f.body, f.rest, ps[|pages|..], c, rest);
        }
        return pages, if msg.None? then Broken else RemoteError(f.tag, msg.value), left;
      }
      var frame := DecodeRangeFrame(f.body);
      if frame.None? || frame.value.End? {
        forall ps, c, rest | IsStream(r, ps, c, rest) ensures pages == ps && frame.Some? && c.EndMark? && left == rest {
          assert pages <= ps && FrameSays(f.tag, f.body, f.rest, ps[|pages|..], c, rest);
        }
        return pages, if frame.None? then Broken else Ended, left;
      }
      forall ps, c, rest | IsStream(r, ps, c, rest)
        ensures pages + [frame.value.pairs] <= ps && IsStream(left, ps[|pages| + 1..], c, rest)
      {
        assert pages <= ps && FrameSays(f.tag, f.body, f.rest, ps[|pages|..], c, rest);
        assert ps[|pages|..][1..] == ps[|pages| + 1..];
      }
      pages := pages + [frame.value.pairs];
      if stopAfter.Some? && |pages| > stopAfter.value {
        return pages, Stopped, left;
      }
    }
  }
}
