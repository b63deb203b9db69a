/**
 * The write buffer down to the bytes: the array with the frames in it, the slice being sent, and the socket. Frames
 * are placed under the lock; the writer puts a WebSocket header in front of its slice, in the array itself, and sends
 * both outside the lock, while frames may be placed. `spoiled` records that a header has changed a queued frame or a
 * queued frame a header; as long as neither has, the socket carries exactly the batches taken.
 */
module Wire {
  import opened Bytes
  import opened Frames
  import opened BipRing
  import opened RingBytes
  import opened RingHeader
  import RingGroups
  import WebSocket

  /** The slice taken and not yet sent. `moved` is the array it lies in once the buffer has grown out of it; `header`
      is what has been written in front of it, nothing at first. */
  datatype Hand = Hand(lo: nat, hi: nat, moved: Option<seq<byte>>, header: seq<byte>)

  datatype Mem = Mem(buf: seq<byte>, hand: Option<Hand>, spoiled: bool)

  /** The array the slice lies in. */
  function Array(m: Mem, h: Hand): seq<byte> { if h.moved.Some? then h.moved.value else m.buf }

  /** The live array b does not have the header of its slice any more. */
  predicate HeaderLost(b: seq<byte>, hand: Option<Hand>) {
    && hand.Some? && hand.value.moved.None?
    && var h := hand.value; !(|h.header| <= h.lo <= |b| && b[h.lo - |h.header|..h.lo] == h.header)
  }

  // ---------------------------------------------------------------- placing frames

  function Zeros(n: nat): (z: seq<byte>)
    ensures |z| == n
  {
    seq(n, i => 0)
  }

  /** The fresh array of cap bytes with the queue copied to the prefix. */
  ghost function GrownBytes(cfg: Config, r: Ring, b: seq<byte>, cap: nat): (b2: seq<byte>)
    requires Shape(cfg, r) && |b| == r.cap && cfg.prefix + QueueLen(cfg, r) <= cap
    ensures |b2| == cap
    ensures r.cap > 0 ==> b2[cfg.prefix..cfg.prefix + QueueLen(cfg, r)] == QueueBytes(cfg, r, b)
  {
    if r.cap == 0 then Zeros(cap)
    else
      var queue := QueueBytes(cfg, r, b);
      QueueBytesSize(cfg, r, b);
      Zeros(cfg.prefix) + queue + Zeros(cap - cfg.prefix - |queue|)
  }

  lemma QueueBytesSize(cfg: Config, r: Ring, b: seq<byte>)
    requires Shape(cfg, r) && |b| == r.cap > 0
    ensures |QueueBytes(cfg, r, b)| == QueueLen(cfg, r)
  {
    SizeNonempty(r.back);
  }

  /** The array frame f is written to: the same one, or a fresh one. */
  ghost function RoomBytes(cfg: Config, r: Ring, b: seq<byte>, f: Frame): (b2: seq<byte>)
    requires Valid(cfg, r) && |b| == r.cap && Alloc(cfg, r, f).Placed?
    ensures |b2| == Alloc(cfg, r, f).ring.cap
  {
    AllocAppends(cfg, r, f, 0);
    var p := Alloc(cfg, r, f);
    if p.grew then GrownBytes(cfg, r, b, p.ring.cap) else b
  }

  /** The array with frame f, header and contents, where AllocFrame puts it. */
  ghost function PlaceBytes(cfg: Config, r: Ring, b: seq<byte>, f: Frame): (b2: seq<byte>)
    requires Valid(cfg, r) && |b| == r.cap && Alloc(cfg, r, f).Placed?
    ensures |b2| == Alloc(cfg, r, f).ring.cap
  {
    AllocAppends(cfg, r, f, 0);
    Overwrite(RoomBytes(cfg, r, b, f), Alloc(cfg, r, f).pos, EncodeFrame(f))
  }

  /** The slice stays in the old array when the buffer grows. */
  function AfterGrowth(m: Mem): Option<Hand> {
    if m.hand.Some? && m.hand.value.moved.None? then Some(m.hand.value.(moved := Some(m.buf))) else m.hand
  }

  /** Placing frames moves the array under the slice at most; the slice and its header stay what they are. */
  predicate SameHand(a: Option<Hand>, b: Option<Hand>) {
    && (a.Some? <==> b.Some?)
    && (a.Some? ==> a.value.lo == b.value.lo && a.value.hi == b.value.hi && a.value.header == b.value.header)
  }

  ghost function PlaceOne(cfg: Config, r: Ring, m: Mem, f: Frame): (m2: Mem)
    requires Valid(cfg, r) && |m.buf| == r.cap && Alloc(cfg, r, f).Placed?
    ensures |m2.buf| == Alloc(cfg, r, f).ring.cap
  {
    var p := Alloc(cfg, r, f);
    var hand, buf := if p.grew then AfterGrowth(m) else m.hand, PlaceBytes(cfg, r, m.buf, f);
    Mem(buf, hand, m.spoiled || HeaderLost(buf, hand))
  }

  /** Frames placed one after the other under one lock, until one is refused. */
  ghost function PlaceSome(cfg: Config, r: Ring, m: Mem, fs: seq<Frame>): Mem
    requires Valid(cfg, r) && |m.buf| == r.cap
    decreases |fs|
  {
    if fs == [] || Alloc(cfg, r, fs[0]).Refused? then m
    else
      AllocIsValid(cfg, r, fs[0], 0);
      PlaceSome(cfg, Alloc(cfg, r, fs[0]).ring, PlaceOne(cfg, r, m, fs[0]), fs[1..])
  }

  // ---------------------------------------------------------------- what the memory holds

  /** The slice lies where the cursors say, or in an array of its own. */
  predicate HandOk(cfg: Config, r: Ring, h: Hand) {
    && cfg.prefix <= h.lo <= h.hi < h.lo + 65536 && |h.header| <= cfg.prefix
    && (if h.moved.None? then r.cap > 0 && h.lo == r.sent && h.hi == r.sendEnd else h.hi <= |h.moved.value|)
  }

  predicate MemOk(cfg: Config, r: Ring, m: Mem) {
    Valid(cfg, r) && |m.buf| == r.cap && (m.hand.Some? ==> HandOk(cfg, r, m.hand.value))
  }

  lemma HandInside(cfg: Config, r: Ring, m: Mem)
    requires MemOk(cfg, r, m) && m.hand.Some?
    ensures m.hand.value.hi <= |Array(m, m.hand.value)|
  {
  }

  /** The slice holds the batch, with its header, if written, in front. */
  ghost predicate HandHolds(a: seq<byte>, h: Hand, batch: seq<Frame>) {
    |h.header| <= h.lo <= h.hi <= |a| && a[h.lo..h.hi] == Encode(batch) && a[h.lo - |h.header|..h.lo] == h.header
  }

  /** The array holds the queued frames and the slice its batch. */
  ghost predicate Sound(cfg: Config, r: Ring, m: Mem, batch: seq<Frame>)
    requires MemOk(cfg, r, m)
  {
    Holds(cfg, r, m.buf) && (m.hand.Some? ==> HandHolds(Array(m, m.hand.value), m.hand.value, batch))
  }

  // ---------------------------------------------------------------- placing keeps it

  lemma GrownPlaces(cfg: Config, r: Ring, f: Frame)
    requires Valid(cfg, r) && Alloc(cfg, r, f).Placed? && Alloc(cfg, r, f).grew
    ensures var p := Alloc(cfg, r, f); var moved := Relocated(cfg, r, p.ring.cap);
      && Valid(cfg, moved) && r.cap < p.ring.cap && cfg.prefix + QueueLen(cfg, r) <= p.ring.cap
      && Alloc(cfg, moved, f) == Placed(p.ring, p.pos, false)
  {
    AllocAppends(cfg, r, f, 0);
    RelocatedShape(cfg, r, f);
  }

  lemma GrownHolds(cfg: Config, r: Ring, b: seq<byte>, f: Frame)
    requires Valid(cfg, r) && Holds(cfg, r, b) && Alloc(cfg, r, f).Placed? && Alloc(cfg, r, f).grew
    ensures var p := Alloc(cfg, r, f); var moved := Relocated(cfg, r, p.ring.cap);
      && Valid(cfg, moved) && Holds(cfg, moved, RoomBytes(cfg, r, b, f))
      && Alloc(cfg, moved, f) == Placed(p.ring, p.pos, false)
  {
    assert |b| == r.cap;
    hide Holds;
    hide QueueBytes;
    hide Relocated;
    GrownPlaces(cfg, r, f);
    HoldsAfterGrow(cfg, r, b, RoomBytes(cfg, r, b, f));
  }

  lemma PlaceHolds(cfg: Config, r: Ring, b: seq<byte>, f: Frame)
    requires Valid(cfg, r) && Holds(cfg, r, b) && Alloc(cfg, r, f).Placed?
    ensures Valid(cfg, Alloc(cfg, r, f).ring) && Holds(cfg, Alloc(cfg, r, f).ring, PlaceBytes(cfg, r, b, f))
  {
    AllocAppends(cfg, r, f, 0);
    if Alloc(cfg, r, f).grew {
      GrownHolds(cfg, r, b, f);
      HoldsAfterPlace(cfg, Relocated(cfg, r, Alloc(cfg, r, f).ring.cap), RoomBytes(cfg, r, b, f), f,
                      PlaceBytes(cfg, r, b, f));
    } else {
      HoldsAfterPlace(cfg, r, b, f, PlaceBytes(cfg, r, b, f));
    }
  }

  /** A frame placed in the same array lies clear of the batch in flight. */
  lemma PlaceIsAside(cfg: Config, r: Ring, f: Frame)
    requires Valid(cfg, r) && Alloc(cfg, r, f).Placed? && !Alloc(cfg, r, f).grew
    ensures var p := Alloc(cfg, r, f);
      && p.ring.sent == r.sent && p.ring.sendEnd == r.sendEnd && p.ring.write == p.pos + 2 + |f|
      && (r.sendEnd <= p.pos || (p.ring.tailEnd > 0 && p.ring.write <= r.sent))
  {
    AllocAppends(cfg, r, f, 0);
  }

  lemma PlaceOneOk(cfg: Config, r: Ring, m: Mem, f: Frame)
    requires MemOk(cfg, r, m) && Alloc(cfg, r, f).Placed?
    ensures MemOk(cfg, Alloc(cfg, r, f).ring, PlaceOne(cfg, r, m, f))
    ensures var m2 := PlaceOne(cfg, r, m, f); SameHand(m.hand, m2.hand) && (m.spoiled ==> m2.spoiled)
  {
    AllocAppends(cfg, r, f, 0);
    if Alloc(cfg, r, f).grew {
      if m.hand.Some? { HandInside(cfg, r, m); }
    } else {
      PlaceIsAside(cfg, r, f);
    }
  }

  lemma HandUntouched(a: seq<byte>, a2: seq<byte>, lo: nat, hi: nat, h: Hand, batch: seq<Frame>)
    requires HandHolds(a, h, batch) && SameOutside(a, a2, lo, hi) && (hi <= h.lo || h.hi <= lo)
    ensures HandHolds(a2, h, batch) <==> a2[h.lo - |h.header|..h.lo] == h.header
  {
    SameSlice(a, a2, lo, hi, h.lo, h.hi);
  }

  lemma PlaceOneKeepsHand(cfg: Config, r: Ring, m: Mem, f: Frame, batch: seq<Frame>)
    requires MemOk(cfg, r, m) && Alloc(cfg, r, f).Placed? && !Alloc(cfg, r, f).grew
    requires m.hand.Some? && HandHolds(Array(m, m.hand.value), m.hand.value, batch)
    ensures var m2 := PlaceOne(cfg, r, m, f);
      && m2.hand == m.hand
      && (HandHolds(Array(m2, m.hand.value), m.hand.value, batch) <==> !HeaderLost(m2.buf, m.hand))
  {
    hide Alloc;
    hide Encode;
    var p := Alloc(cfg, r, f);
    PlaceIsAside(cfg, r, f);
    if m.hand.value.moved.None? {
      HandUntouched(m.buf, PlaceBytes(cfg, r, m.buf, f), p.pos, p.ring.write, m.hand.value, batch);
    }
  }

  lemma HandMoved(a: seq<byte>, h: Hand, moved: Option<seq<byte>>, batch: seq<Frame>)
    requires HandHolds(a, h, batch)
    ensures HandHolds(a, h.(moved := moved), batch)
  {
  }

  /** The slice stays behind in the old array, as it is. */
  lemma PlaceOneLeavesHand(cfg: Config, r: Ring, m: Mem, f: Frame, batch: seq<Frame>)
    requires MemOk(cfg, r, m) && Alloc(cfg, r, f).Placed? && Alloc(cfg, r, f).grew
    requires m.hand.Some? && HandHolds(Array(m, m.hand.value), m.hand.value, batch)
    ensures var m2 := PlaceOne(cfg, r, m, f);
      m2.hand.Some? && HandHolds(Array(m2, m2.hand.value), m2.hand.value, batch)
  {
    hide HandHolds;
    hide PlaceBytes;
    if m.hand.value.moved.None? {
      HandMoved(m.buf, m.hand.value, Some(m.buf), batch);
    }
  }

  /** A frame leaves slice and header as they are, unless it changes the header: then it spoils what is sent. */
  lemma PlaceOneSound(cfg: Config, r: Ring, m: Mem, f: Frame, batch: seq<Frame>)
    requires MemOk(cfg, r, m) && Sound(cfg, r, m, batch) && Alloc(cfg, r, f).Placed? && !m.spoiled
    ensures MemOk(cfg, Alloc(cfg, r, f).ring, PlaceOne(cfg, r, m, f))
    ensures Sound(cfg, Alloc(cfg, r, f).ring, PlaceOne(cfg, r, m, f), batch) <==> !PlaceOne(cfg, r, m, f).spoiled
  {
    PlaceOneOk(cfg, r, m, f);
    PlaceHolds(cfg, r, m.buf, f);
    hide Holds;
    hide HandHolds;
    hide Valid;
    if m.hand.Some? {
      if Alloc(cfg, r, f).grew {
        PlaceOneLeavesHand(cfg, r, m, f, batch);
      } else {
        PlaceOneKeepsHand(cfg, r, m, f, batch);
      }
    }
  }

  lemma {:induction false} PlaceSomeOk(cfg: Config, r: Ring, m: Mem, fs: seq<Frame>, batch: seq<Frame>)
    requires MemOk(cfg, r, m)
    ensures var last, m2 := RingGroups.AllocSome(cfg, r, fs).0, PlaceSome(cfg, r, m, fs);
      && MemOk(cfg, last, m2) && SameHand(m.hand, m2.hand) && (m.spoiled ==> m2.spoiled)
      && (!m2.spoiled && Sound(cfg, r, m, batch) ==> Sound(cfg, last, m2, batch))
    decreases |fs|
  {
    hide Holds;
    hide HandHolds;
    if fs != [] && Alloc(cfg, r, fs[0]).Placed? {
      var next := PlaceOne(cfg, r, m, fs[0]);
      PlaceOneOk(cfg, r, m, fs[0]);
      PlaceSomeOk(cfg, Alloc(cfg, r, fs[0]).ring, next, fs[1..], batch);
      if !next.spoiled && Sound(cfg, r, m, batch) {
        PlaceOneSound(cfg, r, m, fs[0], batch);
      }
    }
  }

  lemma StretchKeptIff(a: seq<byte>, a2: seq<byte>, at: nat, end: nat, lo: nat, hi: nat)
    requires SameOutside(a, a2, at, end) && lo <= hi <= |a|
    ensures a2[lo..hi] == a[lo..hi] <==> forall i :: lo <= i < hi && at <= i < end ==> a2[i] == a[i]
  {
    SliceEqual(a2, a, lo, hi);
  }

  lemma PlaceWritesThere(cfg: Config, r: Ring, b: seq<byte>, f: Frame)
    requires Valid(cfg, r) && |b| == r.cap && Alloc(cfg, r, f).Placed? && !Alloc(cfg, r, f).grew
    ensures SameOutside(b, PlaceBytes(cfg, r, b, f), Alloc(cfg, r, f).pos, Alloc(cfg, r, f).ring.write)
  {
    AllocAppends(cfg, r, f, 0);
  }

  /** A write aside from the slice leaves the header in front of it if and only if it changes none of its bytes. */
  lemma HeaderLostIff(a: seq<byte>, a2: seq<byte>, lo: nat, hi: nat, h: Hand, batch: seq<Frame>)
    requires h.moved.None? && HandHolds(a, h, batch) && SameOutside(a, a2, lo, hi) && (hi <= h.lo || h.hi <= lo)
    ensures h.hi <= |a2| && a2[h.lo..h.hi] == Encode(batch)
    ensures HeaderLost(a2, Some(h)) <==> exists i :: h.lo - |h.header| <= i < h.lo && lo <= i < hi && a2[i] != a[i]
  {
    SameSlice(a, a2, lo, hi, h.lo, h.hi);
    StretchKeptIff(a, a2, lo, hi, h.lo - |h.header|, h.lo);
  }

  /**
   * A frame placed while a header waits in front of the slice: the payload is safe, and the header is lost if and
   * only if, where the two meet, the frame has a byte that is not the header's own.
   */
  lemma FrameOverHeaderIff(cfg: Config, r: Ring, m: Mem, f: Frame, batch: seq<Frame>)
    requires MemOk(cfg, r, m) && Sound(cfg, r, m, batch) && Alloc(cfg, r, f).Placed? && !Alloc(cfg, r, f).grew
    requires m.hand.Some? && m.hand.value.moved.None?
    ensures var h, b2, p := m.hand.value, PlaceBytes(cfg, r, m.buf, f), Alloc(cfg, r, f);
      && 0 <= h.lo - |h.header| && h.hi <= |b2| == |m.buf| && b2[h.lo..h.hi] == Encode(batch)
      && (HeaderLost(b2, m.hand)
          <==> exists i :: h.lo - |h.header| <= i < h.lo && p.pos <= i < p.ring.write && b2[i] != m.buf[i])
  {
    var h, b2, p := m.hand.value, PlaceBytes(cfg, r, m.buf, f), Alloc(cfg, r, f);
    assert |b2| == p.ring.cap;
    PlaceIsAside(cfg, r, f);
    PlaceWritesThere(cfg, r, m.buf, f);
    hide PlaceBytes;
    hide Holds;
    hide HeaderLost;
    hide Alloc;
    hide Encode;
    HeaderLostIff(m.buf, b2, p.pos, p.ring.write, h, batch);
  }

  // ---------------------------------------------------------------- writing the header

  /** The header WriteFrame puts in front of the slice: a binary message, unmasked. */
  function HeaderOf(h: Hand): seq<byte>
    requires h.lo <= h.hi
  {
    WebSocket.Header(2, h.hi - h.lo, None)
  }

  lemma HeaderBySize(h: Hand, h2: Hand)
    requires h.lo == h2.lo <= h.hi == h2.hi
    ensures HeaderOf(h) == HeaderOf(h2)
  {
  }

  lemma HeaderIsShort(h: Hand)
    requires h.lo <= h.hi < h.lo + 65536
    ensures 2 <= |HeaderOf(h)| <= 4
  {
    WebSocket.HeaderFitsPrefix(h.hi - h.lo, None);
  }

  /** The slice's array with head written right in front of the slice. */
  function WriteHead(cfg: Config, r: Ring, m: Mem, head: seq<byte>): Mem
    requires MemOk(cfg, r, m) && m.hand.Some? && |head| <= cfg.prefix
  {
    var h := m.hand.value;
    HandInside(cfg, r, m);
    var now := Overwrite(Array(m, h), h.lo - |head|, head);
    var hand := Some(Hand(h.lo, h.hi, if h.moved.Some? then Some(now) else None, head));
    Mem(if h.moved.Some? then m.buf else now, hand,
        m.spoiled || (h.moved.None? && !Survives(cfg, r, m.buf, head)))
  }

  lemma WriteHeadOk(cfg: Config, r: Ring, m: Mem, head: seq<byte>)
    requires MemOk(cfg, r, m) && m.hand.Some? && |head| <= cfg.prefix
    ensures var m2 := WriteHead(cfg, r, m, head);
      MemOk(cfg, r, m2) && m2.hand.Some? && m2.hand.value.header == head
      && m2.hand.value.lo == m.hand.value.lo && m2.hand.value.hi == m.hand.value.hi
      && (m.spoiled ==> m2.spoiled)
  {
    HandInside(cfg, r, m);
  }

  lemma HeadWritten(a: seq<byte>, h: Hand, head: seq<byte>, batch: seq<Frame>)
    requires |head| <= h.lo <= h.hi <= |a| && a[h.lo..h.hi] == Encode(batch)
    ensures var now := Overwrite(a, h.lo - |head|, head);
      now[h.lo..h.hi] == Encode(batch) && now[h.lo - |head|..h.lo] == head
  {
    SameSlice(a, Overwrite(a, h.lo - |head|, head), h.lo - |head|, h.lo, h.lo, h.hi);
  }

  /**
   * What the header does to the queue, exactly: it leaves it intact if and only if the buffer has moved away from the
   * slice, or nothing is queued under the header, or the queued bytes there happen to be the header's own.
   */
  lemma WriteHeadIff(cfg: Config, r: Ring, m: Mem, head: seq<byte>)
    requires MemOk(cfg, r, m) && m.hand.Some? && |head| <= cfg.prefix && Holds(cfg, r, m.buf)
    ensures Holds(cfg, r, WriteHead(cfg, r, m, head).buf) <==> m.hand.value.moved.Some? || Survives(cfg, r, m.buf, head)
  {
    hide Survives;
    if m.hand.value.moved.None? {
      HeaderIsHarmlessIff(cfg, r, m.buf, head);
    }
  }

  /** With its header the slice is as it should be; the queue is, unless the header spoils it. */
  lemma WriteHeadSound(cfg: Config, r: Ring, m: Mem, head: seq<byte>, batch: seq<Frame>)
    requires MemOk(cfg, r, m) && Sound(cfg, r, m, batch) && m.hand.Some? && |head| <= cfg.prefix && !m.spoiled
    ensures MemOk(cfg, r, WriteHead(cfg, r, m, head))
    ensures Sound(cfg, r, WriteHead(cfg, r, m, head), batch) <==> !WriteHead(cfg, r, m, head).spoiled
  {
    WriteHeadOk(cfg, r, m, head);
    HeadWritten(Array(m, m.hand.value), m.hand.value, head, batch);
    WriteHeadIff(cfg, r, m, head);
    hide Holds;
    hide Survives;
    hide Overwrite;
  }

  // ---------------------------------------------------------------- taking

  /** frameAlignedEnd, from the bytes of the array: the headers say where frames end. */
  function AlignedEnd(cfg: Config, b: seq<byte>, start: nat, end: nat, limit: nat): nat
    decreases limit - end
  {
    if cfg.maxFramePayload == 0 then limit
    else if end >= limit || end + 1 >= |b| then end
    else
      var total := 2 + FromLe16(b[end], b[end + 1]);
      if end + total - start > cfg.maxFramePayload then end
      else AlignedEnd(cfg, b, start, end + total, limit)
  }

  lemma AlignedEndStep(cfg: Config, b: seq<byte>, start: nat, at: nat, limit: nat)
    requires 0 < cfg.maxFramePayload && start <= at < limit && at + 1 < |b|
    ensures var next := at + 2 + FromLe16(b[at], b[at + 1]);
      AlignedEnd(cfg, b, start, at, limit)
      == if next - start > cfg.maxFramePayload then at else AlignedEnd(cfg, b, start, next, limit)
  {
  }

  /** Over bytes that hold whole frames it ends after as many of them as fit. */
  lemma {:induction false} AlignedEndFits(cfg: Config, b: seq<byte>, start: nat, at: nat, limit: nat, fs: seq<Frame>)
    requires start <= at <= limit <= |b| && b[at..limit] == Encode(fs) && 0 < cfg.maxFramePayload
    requires at - start <= cfg.maxFramePayload
    ensures AlignedEnd(cfg, b, start, at, limit) == FitEnd(cfg, start, at, fs)
    decreases |fs|
  {
    if fs == [] {
      assert at == limit;
    } else {
      FrontFrame(b, at, limit, fs);
      AlignedEndStep(cfg, b, start, at, limit);
      FitEndStep(cfg, start, at, fs);
      hide AlignedEnd;
      hide FitEnd;
      hide Encode;
      hide FromLe16;
      var next := at + 2 + |fs[0]|;
      if next - start <= cfg.maxFramePayload {
        AlignedEndFits(cfg, b, start, next, limit, fs[1..]);
      }
    }
  }

  lemma AlignedEndIsBatch(cfg: Config, b: seq<byte>, start: nat, limit: nat, fs: seq<Frame>)
    requires start <= limit <= |b| && b[start..limit] == Encode(fs)
    ensures AlignedEnd(cfg, b, start, start, limit) == start + Size(fs[..BatchCount(cfg, fs)])
  {
    SizeIsLength(fs);
    if cfg.maxFramePayload == 0 {
      assert fs[..|fs|] == fs;
    } else {
      AlignedEndFits(cfg, b, start, start, limit, fs);
    }
  }

  /** Where the bytes say the next batch of a confirmed ring ends. */
  function TakenEnd(cfg: Config, c: Ring, b: seq<byte>): nat {
    AlignedEnd(cfg, b, c.sent, c.sent, if c.tailEnd > 0 then c.tailEnd else c.write)
  }

  /** While the array holds the frames, the bytes say what the frames say. */
  lemma TakenEndIsBatch(cfg: Config, r: Ring, b: seq<byte>)
    requires Valid(cfg, r) && Holds(cfg, r, b) && Take(cfg, r).batch != []
    ensures var t := Take(cfg, r);
      && Valid(cfg, t.ring) && Holds(cfg, t.ring, b)
      && t.ring.sendEnd <= |b| && TakenEnd(cfg, Confirmed(cfg, r), b) == t.ring.sendEnd
      && b[t.ring.sent..t.ring.sendEnd] == Encode(t.batch)
  {
    hide AlignedEnd;
    hide Encode;
    var c := Confirmed(cfg, r);
    ConfirmedKeepsQueue(cfg, r);
    HoldsAfterConfirm(cfg, r, b);
    HoldsAfterTake(cfg, c, b);
    CutSplits(cfg, c, b);
    AlignedEndIsBatch(cfg, b, c.sent, if c.tailEnd > 0 then c.tailEnd else c.write, c.front);
  }
}
