/** What the bytes of the array hold in each state of the ring. */
module RingBytes {
  import opened Bytes
  import opened Frames
  import opened BipRing

  /** The stretch that starts behind the batch in flight holds the encoded front of the queue. */
  ghost predicate UpperHolds(cfg: Config, r: Ring, b: seq<byte>)
    requires Shape(cfg, r) && |b| == r.cap
  {
    r.cap == 0 || b[r.sendEnd + r.pendingGap..if r.tailEnd == 0 then r.write else r.tailEnd] == Encode(r.front)
  }

  /** And when it has wrapped, the one at the prefix holds the rest. */
  ghost predicate LowerHolds(cfg: Config, r: Ring, b: seq<byte>)
    requires Shape(cfg, r) && |b| == r.cap
  {
    r.tailEnd == 0 || b[cfg.prefix..r.write] == Encode(r.back)
  }

  /** The array holds the frames of the ring. */
  ghost predicate Holds(cfg: Config, r: Ring, b: seq<byte>)
    requires Shape(cfg, r)
  {
    |b| == r.cap && UpperHolds(cfg, r, b) && LowerHolds(cfg, r, b)
  }

  /** b2 is b with frame f written at pos. */
  ghost predicate Wrote(b: seq<byte>, b2: seq<byte>, pos: nat, f: Frame) {
    && pos + 2 + |f| <= |b|
    && SameOutside(b, b2, pos, pos + 2 + |f|)
    && b2[pos..pos + 2 + |f|] == EncodeFrame(f)
  }

  /** Frame f, written where Alloc says, extends what the array holds. */
  lemma HoldsAfterPlace(cfg: Config, r: Ring, b: seq<byte>, f: Frame, b2: seq<byte>)
    requires Shape(cfg, r) && Holds(cfg, r, b)
    requires Alloc(cfg, r, f).Placed? && !Alloc(cfg, r, f).grew && Wrote(b, b2, Alloc(cfg, r, f).pos, f)
    ensures Shape(cfg, Alloc(cfg, r, f).ring) && Holds(cfg, Alloc(cfg, r, f).ring, b2)
  {
    AllocShape(cfg, r, f, 0);
    var p := Alloc(cfg, r, f);
    if p.ring.tailEnd == 0 {
      HoldsAbove(cfg, r, b, f, b2, p.ring);
    } else if r.tailEnd == 0 {
      HoldsWrapped(cfg, r, b, f, b2, p.ring);
    } else {
      HoldsBelow(cfg, r, b, f, b2, p.ring);
    }
  }

  lemma HoldsAbove(cfg: Config, r: Ring, b: seq<byte>, f: Frame, b2: seq<byte>, next: Ring)
    requires Shape(cfg, r) && Holds(cfg, r, b) && r.tailEnd == 0 && Wrote(b, b2, r.write, f)
    requires next == r.(write := r.write + 2 + |f|, front := r.front + [f]) && Shape(cfg, next)
    ensures Holds(cfg, next, b2)
  {
    PlaceAppends(b, b2, r.sendEnd + r.pendingGap, r.write, r.front, f);
  }

  lemma HoldsWrapped(cfg: Config, r: Ring, b: seq<byte>, f: Frame, b2: seq<byte>, next: Ring)
    requires Shape(cfg, r) && Holds(cfg, r, b) && r.tailEnd == 0 && r.cap > 0 && Wrote(b, b2, cfg.prefix, f)
    requires cfg.prefix + 2 + |f| <= r.sent
    requires next == r.(tailEnd := r.write, write := cfg.prefix + 2 + |f|, back := [f]) && Shape(cfg, next)
    ensures Holds(cfg, next, b2)
  {
    SameSlice(b, b2, cfg.prefix, cfg.prefix + 2 + |f|, r.sendEnd + r.pendingGap, r.write);
    EncodeSnoc([], f);
    assert [] + [f] == [f] && [] + EncodeFrame(f) == EncodeFrame(f);
  }

  lemma HoldsBelow(cfg: Config, r: Ring, b: seq<byte>, f: Frame, b2: seq<byte>, next: Ring)
    requires Shape(cfg, r) && Holds(cfg, r, b) && r.tailEnd > 0 && Wrote(b, b2, r.write, f)
    requires next == r.(write := r.write + 2 + |f|, back := r.back + [f]) && Shape(cfg, next)
    ensures Holds(cfg, next, b2)
  {
    SameSlice(b, b2, r.write, r.write + 2 + |f|, r.sendEnd + r.pendingGap, r.tailEnd);
    PlaceAppends(b, b2, cfg.prefix, r.write, r.back, f);
  }

  lemma PlaceAppends(b: seq<byte>, b2: seq<byte>, x: nat, pos: nat, fs: seq<Frame>, f: Frame)
    requires x <= pos <= pos + 2 + |f| <= |b| && SameOutside(b, b2, pos, pos + 2 + |f|)
    requires b[x..pos] == Encode(fs) && b2[pos..pos + 2 + |f|] == EncodeFrame(f)
    ensures b2[x..pos + 2 + |f|] == Encode(fs + [f])
  {
    SameSlice(b, b2, pos, pos + 2 + |f|, x, pos);
    SliceJoin(b2, x, pos, pos + 2 + |f|);
    EncodeSnoc(fs, f);
  }

  /** The bytes growth copies. */
  ghost function QueueBytes(cfg: Config, r: Ring, b: seq<byte>): seq<byte>
    requires Shape(cfg, r) && |b| == r.cap > 0
  {
    if r.tailEnd == 0 then b[r.sendEnd..r.write] else b[r.sendEnd..r.tailEnd] + b[cfg.prefix..r.write]
  }

  lemma HoldsAfterGrow(cfg: Config, r: Ring, b: seq<byte>, b2: seq<byte>)
    requires Shape(cfg, r) && Holds(cfg, r, b)
    requires cfg.prefix + QueueLen(cfg, r) <= |b2| && |b2| > 0
    requires r.cap > 0 ==> b2[cfg.prefix..cfg.prefix + QueueLen(cfg, r)] == QueueBytes(cfg, r, b)
    requires Shape(cfg, Relocated(cfg, r, |b2|))
    ensures Holds(cfg, Relocated(cfg, r, |b2|), b2)
  {
    hide Size;
    var end := cfg.prefix + QueueLen(cfg, r);
    if r.cap == 0 {
      SizeIsLength(r.front);
      assert b2[end..end] == [] == Encode(r.Queue());
    } else {
      QueueBytesTail(cfg, r, b);
      hide Encode;
      hide QueueBytes;
      SliceOfSlice(b2, cfg.prefix, end, r.pendingGap, QueueLen(cfg, r));
      assert QueueBytes(cfg, r, b)[r.pendingGap..] == b2[cfg.prefix..end][r.pendingGap..QueueLen(cfg, r)];
    }
  }

  /** Past the gap, the copied bytes are the whole queue in order. */
  lemma QueueBytesTail(cfg: Config, r: Ring, b: seq<byte>)
    requires Shape(cfg, r) && Holds(cfg, r, b) && r.cap > 0
    ensures |QueueBytes(cfg, r, b)| == QueueLen(cfg, r) >= r.pendingGap
    ensures QueueBytes(cfg, r, b)[r.pendingGap..] == Encode(r.Queue())
  {
    hide Encode;
    hide Size;
    EncodeAppend(r.front, r.back);
    var x := r.sendEnd + r.pendingGap;
    if r.tailEnd == 0 {
      assert r.Queue() == r.front;
      SliceOfSlice(b, r.sendEnd, r.write, r.pendingGap, r.write - r.sendEnd);
    } else {
      var gap, front, back := b[r.sendEnd..x], b[x..r.tailEnd], b[cfg.prefix..r.write];
      SliceJoin(b, r.sendEnd, x, r.tailEnd);
      Associative(gap, front, back);
      TakeDropConcat(gap, front + back);
    }
  }

  lemma HoldsAfterConfirm(cfg: Config, r: Ring, b: seq<byte>)
    requires Valid(cfg, r) && Holds(cfg, r, b)
    ensures NothingInFlight(cfg, Confirmed(cfg, r)) && Holds(cfg, Confirmed(cfg, r), b)
  {
    ConfirmedKeepsQueue(cfg, r);
  }

  /** The upper stretch splits where the batch ends. */
  lemma CutSplits(cfg: Config, c: Ring, b: seq<byte>)
    requires NothingInFlight(cfg, c) && Holds(cfg, c, b) && c.front != []
    ensures var k, limit := BatchCount(cfg, c.front), if c.tailEnd == 0 then c.write else c.tailEnd;
      var end := c.sent + Size(c.front[..k]);
      && c.sent < end <= limit <= |b| && c.sent < c.write + c.tailEnd && (end == limit <==> c.front[k..] == [])
      && b[c.sent..end] == Encode(c.front[..k]) && b[end..limit] == Encode(c.front[k..])
  {
    SizeNonempty(c.front);
    BatchBounds(cfg, c.front);
    var k, limit := BatchCount(cfg, c.front), if c.tailEnd == 0 then c.write else c.tailEnd;
    SplitStretch(b, c.sent, limit, c.front, k);
    SizeNonempty(c.front[..k]);
    SizeSplit(c.front, k);
    SizeNonempty(c.front[k..]);
  }

  lemma HoldsAfterCut(cfg: Config, c: Ring, b: seq<byte>)
    requires NothingInFlight(cfg, c) && Holds(cfg, c, b) && c.front != []
    ensures var t := TakeConfirmed(cfg, c);
      && Valid(cfg, t.ring) && Holds(cfg, t.ring, b)
      && t.ring.sendEnd <= |b| && b[t.ring.sent..t.ring.sendEnd] == Encode(t.batch)
  {
    var t := TakeConfirmed(cfg, c);
    TakeIsValid(cfg, c);
    CutSplits(cfg, c, b);
    assert b[t.ring.write..t.ring.write] == [];
  }

  lemma HoldsAfterDrain(cfg: Config, c: Ring, b: seq<byte>)
    requires NothingInFlight(cfg, c) && Holds(cfg, c, b) && c.front == []
    ensures var t := TakeConfirmed(cfg, c); t.batch == [] && Valid(cfg, t.ring) && Holds(cfg, t.ring, b)
  {
    TakeIsValid(cfg, c);
    SizeNonempty(c.front);
    BatchBounds(cfg, c.front);
  }

  /** The batch a take hands out is the encoding of the frames it removes; the rest stays where it was. */
  lemma HoldsAfterTake(cfg: Config, c: Ring, b: seq<byte>)
    requires NothingInFlight(cfg, c) && Holds(cfg, c, b)
    ensures var t := TakeConfirmed(cfg, c);
      && Valid(cfg, t.ring) && Holds(cfg, t.ring, b)
      && (t.batch != [] ==> t.ring.sendEnd <= |b| && b[t.ring.sent..t.ring.sendEnd] == Encode(t.batch))
  {
    TakeIsValid(cfg, c);
    if c.front == [] {
      HoldsAfterDrain(cfg, c, b);
    } else {
      HoldsAfterCut(cfg, c, b);
    }
  }

  /** A stretch holding fs splits at frame k. */
  lemma SplitStretch(b: seq<byte>, x: nat, y: nat, fs: seq<Frame>, k: nat)
    requires x <= y <= |b| && b[x..y] == Encode(fs) && k <= |fs|
    ensures x + Size(fs[..k]) <= y == x + Size(fs)
    ensures b[x..x + Size(fs[..k])] == Encode(fs[..k])
    ensures b[x + Size(fs[..k])..y] == Encode(fs[k..])
  {
    hide Encode;
    hide Size;
    EncodingSplits(fs, k);
    var m := Size(fs[..k]);
    SplitBytes(b, x, y, m, Encode(fs[..k]), Encode(fs[k..]));
  }

  lemma EncodingSplits(fs: seq<Frame>, k: nat)
    requires k <= |fs|
    ensures Encode(fs) == Encode(fs[..k]) + Encode(fs[k..])
    ensures |Encode(fs[..k])| == Size(fs[..k]) && |Encode(fs)| == Size(fs)
  {
    SizeSplit(fs, k);
    SizeIsLength(fs[..k]);
    SizeIsLength(fs);
  }

  lemma SplitBytes(b: seq<byte>, x: nat, y: nat, m: nat, first: seq<byte>, second: seq<byte>)
    requires x <= y <= |b| && b[x..y] == first + second && m == |first|
    ensures y == x + m + |second| && b[x..x + m] == first && b[x + m..y] == second
  {
    TakeDropConcat(first, second);
    SliceOfSlice(b, x, y, 0, m);
    SliceOfSlice(b, x, y, m, y - x);
  }

  /** The two header bytes of frame k, and where it ends. */
  lemma HeaderAt(b: seq<byte>, x: nat, y: nat, fs: seq<Frame>, k: nat)
    requires x <= y <= |b| && b[x..y] == Encode(fs) && k < |fs|
    ensures var at := x + Size(fs[..k]);
      && at + 2 + |fs[k]| == x + Size(fs[..k + 1]) <= y
      && FromLe16(b[at], b[at + 1]) == |fs[k]|
      && b[at + 2..at + 2 + |fs[k]|] == fs[k]
  {
    hide Encode;
    hide Size;
    hide EncodeFrame;
    FrameAt(fs, k);
    SliceOfSlice(b, x, y, Size(fs[..k]), Size(fs[..k + 1]));
    FrameHeader(b, x + Size(fs[..k]), fs[k]);
  }

  /** The frame in front and the bytes of the others behind it. */
  lemma FrontFrame(b: seq<byte>, at: nat, limit: nat, fs: seq<Frame>)
    requires at <= limit <= |b| && b[at..limit] == Encode(fs) && fs != []
    ensures var next := at + 2 + |fs[0]|;
      next <= limit && FromLe16(b[at], b[at + 1]) == |fs[0]| && b[next..limit] == Encode(fs[1..])
  {
    HeaderAt(b, at, limit, fs, 0);
    SplitStretch(b, at, limit, fs, 1);
    assert Size(fs[..0]) == 0 && fs[..0 + 1] == fs[..1];
  }

  lemma SomeFrameLeft(b: seq<byte>, at: nat, limit: nat, fs: seq<Frame>)
    requires at < limit <= |b| && b[at..limit] == Encode(fs)
    ensures fs != []
  {
  }

  /** The end of the longest run of whole frames from `at` that keeps within the cap, counted from start. */
  function FitEnd(cfg: Config, start: nat, at: nat, fs: seq<Frame>): nat
    requires start <= at && at - start <= cfg.maxFramePayload
  {
    at + Size(fs[..Fit(fs, cfg.maxFramePayload - (at - start))])
  }

  lemma FitEndStep(cfg: Config, start: nat, at: nat, fs: seq<Frame>)
    requires start <= at && at - start <= cfg.maxFramePayload && fs != []
    ensures var next := at + 2 + |fs[0]|;
      FitEnd(cfg, start, at, fs)
      == if next - start > cfg.maxFramePayload then at else FitEnd(cfg, start, next, fs[1..])
  {
    var budget := cfg.maxFramePayload - (at - start);
    if 2 + |fs[0]| <= budget {
      var k := Fit(fs[1..], budget - 2 - |fs[0]|);
      assert fs[..k + 1][1..] == fs[1..][..k];
    } else {
      assert fs[..0] == [];
    }
  }

  lemma NoFrameLeft(cfg: Config, b: seq<byte>, start: nat, limit: nat, fs: seq<Frame>)
    requires start <= limit <= |b| && limit - start <= cfg.maxFramePayload && b[limit..limit] == Encode(fs)
    ensures FitEnd(cfg, start, limit, fs) == limit
  {
    SizeIsLength(fs);
  }
}
