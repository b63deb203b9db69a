/**
 * The growable bip-buffer as arithmetic on its cursors, with the frames that lie in each stretch.
 *
 * Not wrapped (tailEnd == 0):   [prefix .. sent) free, [sent .. sendEnd) being sent, a gap, then front up to write.
 * Wrapped (tailEnd > 0):        back lies in [prefix .. write), the batch being sent in [sent .. sendEnd),
 *                               a gap, then front up to tailEnd.
 * The bytes themselves are in BipBuf.dfy, whose class refines the functions below.
 */
module BipRing {
  import opened Bytes
  import opened Frames

  datatype Config = Config(maxCap: nat, prefix: nat, suffix: nat, maxFramePayload: nat)

  datatype Ring = Ring(
    cap: nat, sent: nat, sendEnd: nat, write: nat, tailEnd: nat, pendingGap: nat,
    front: seq<Frame>, back: seq<Frame>)
  {
    function Queue(): seq<Frame> { front + back }
  }

  predicate Legal(cfg: Config, f: Frame) {
    cfg.maxFramePayload == 0 || 2 + |f| <= cfg.maxFramePayload
  }

  predicate AllLegal(cfg: Config, fs: seq<Frame>) {
    forall i :: 0 <= i < |fs| ==> Legal(cfg, fs[i])
  }

  predicate Valid(cfg: Config, r: Ring) {
    Shape(cfg, r) && AllLegal(cfg, r.front) && AllLegal(cfg, r.back)
  }

  /** The cursors are ordered and the frames fill exactly the stretches between them. */
  predicate Shape(cfg: Config, r: Ring) {
    && cfg.prefix <= r.sent && (r.sendEnd == r.sent || r.sendEnd >= r.sent + 3)
    && r.cap <= cfg.maxCap
    && (r.cap == 0 ==> r.sent == r.sendEnd == r.write == cfg.prefix && r.tailEnd == 0)
    && (if r.tailEnd == 0 then
          && r.back == []
          && r.write == r.sendEnd + r.pendingGap + Size(r.front)
          && (r.cap > 0 ==> r.write <= r.cap)
        else
          && r.tailEnd == r.sendEnd + r.pendingGap + Size(r.front) && r.tailEnd <= r.cap
          && r.back != [] && r.write == cfg.prefix + Size(r.back) && r.write <= r.sent)
  }

  /** A ring that is not wrapped and has no gap. */
  function Flat(cap: nat, sent: nat, sendEnd: nat, write: nat, front: seq<Frame>): Ring {
    Ring(cap, sent, sendEnd, write, 0, 0, front, [])
  }

  function Init(cfg: Config): Ring {
    Ring(0, cfg.prefix, cfg.prefix, cfg.prefix, 0, 0, [], [])
  }

  // ---------------------------------------------------------------- growth

  function Doubling(size: nat, required: nat, maxCap: nat): nat
    requires size > 0
    decreases maxCap - size
  {
    if size < required && size < maxCap then
      if size > maxCap / 2 then maxCap else Doubling(size * 2, required, maxCap)
    else size
  }

  lemma {:induction false} DoublingBounds(size: nat, required: nat, maxCap: nat)
    requires size > 0
    ensures var d := Doubling(size, required, maxCap);
      d >= size && (d >= required || d >= maxCap) && (d == size || d < 2 * required)
    decreases maxCap - size
  {
    if size < required && size < maxCap && size <= maxCap / 2 {
      DoublingBounds(size * 2, required, maxCap);
    }
  }

  /** The new capacity when `required` bytes must fit, or None when the buffer may not grow that far. */
  function GrownCap(cap: nat, required: nat, maxCap: nat): (r: Option<nat>)
    ensures r.Some? <==> cap < maxCap && required <= maxCap
    ensures r.Some? ==> cap < r.value <= maxCap && required <= r.value
  {
    if cap >= maxCap then None
    else
      var start := 2 * (if cap == 0 then 64 else cap);
      DoublingBounds(start, required, maxCap);
      var doubled := Doubling(start, required, maxCap);
      var size := if doubled > maxCap then maxCap else doubled;
      if size < required then None else Some(size)
  }

  /** size doubled k times. */
  function Doubled(size: nat, k: nat): nat
    decreases k
  {
    if k == 0 then size else Doubled(2 * size, k - 1)
  }

  function Capped(size: nat, maxCap: nat): nat { if size < maxCap then size else maxCap }

  lemma {:induction false} DoublingIsFirst(size: nat, required: nat, maxCap: nat) returns (k: nat)
    requires size > 0
    ensures required <= Doubled(size, k) && (k > 0 ==> Doubled(size, k - 1) < required)
    ensures Capped(Doubling(size, required, maxCap), maxCap) == Capped(Doubled(size, k), maxCap)
    decreases required - size
  {
    if size >= required {
      return 0;
    }
    k := DoublingIsFirst(2 * size, required, maxCap);
    k := k + 1;
    DoubledGrows(2 * size, k - 1);
  }

  lemma {:induction false} DoubledGrows(size: nat, k: nat)
    ensures Doubled(size, k) >= size
    decreases k
  {
    if k > 0 {
      DoubledGrows(2 * size, k - 1);
    }
  }

  /** Growth doubles the capacity, 64 for none, at least once and until `required` bytes fit, and no further, but stops
      at the maximum. */
  lemma GrownIsFirst(cap: nat, required: nat, maxCap: nat) returns (k: nat)
    requires GrownCap(cap, required, maxCap).Some?
    ensures var base := if cap == 0 then 64 else cap;
      && k > 0 && required <= Doubled(base, k) && (k > 1 ==> Doubled(base, k - 1) < required)
      && GrownCap(cap, required, maxCap).value == Capped(Doubled(base, k), maxCap)
  {
    k := DoublingIsFirst(2 * (if cap == 0 then 64 else cap), required, maxCap);
    k := k + 1;
  }

  // ---------------------------------------------------------------- allocation

  /** Bytes that growth would copy: the gap and the queued frames. */
  function QueueLen(cfg: Config, r: Ring): nat
    requires Shape(cfg, r)
  {
    if r.tailEnd == 0 then r.write - r.sendEnd
    else (r.tailEnd - r.sendEnd) + (r.write - cfg.prefix)
  }

  function FreeForAlloc(cfg: Config, r: Ring): nat
    requires Shape(cfg, r)
  {
    var used := cfg.prefix + QueueLen(cfg, r);
    if used >= cfg.maxCap then 0 else cfg.maxCap - used
  }

  datatype Placement = Refused | Placed(ring: Ring, pos: nat, grew: bool)

  /** The ring after growing to `cap`: everything queued is moved, in order, to the prefix. */
  function Relocated(cfg: Config, r: Ring, cap: nat): Ring
    requires Shape(cfg, r)
  {
    Ring(cap, cfg.prefix, cfg.prefix, cfg.prefix + QueueLen(cfg, r), 0, r.pendingGap, r.Queue(), [])
  }

  /**
   * Where AllocFrame puts frame f. The source's two wrap guards compare with Sent: slack 0.
   * `slack` asks for that many more free bytes below Sent in both guards.
   */
  function Alloc(cfg: Config, r: Ring, f: Frame, slack: nat := 0): Placement
    requires Shape(cfg, r)
  {
    var total := 2 + |f|;
    if !Legal(cfg, f) then Refused
    else if r.tailEnd == 0 && r.cap > 0 && r.write + total <= r.cap then
      Placed(r.(write := r.write + total, front := r.front + [f]), r.write, false)
    else if r.tailEnd == 0 && r.cap > 0 && cfg.prefix + total + slack <= r.sent then
      Placed(r.(tailEnd := r.write, write := cfg.prefix + total, back := [f]), cfg.prefix, false)
    else if r.tailEnd > 0 && r.write + total + slack <= r.sent then
      Placed(r.(write := r.write + total, back := r.back + [f]), r.write, false)
    else
      match GrownCap(r.cap, cfg.prefix + QueueLen(cfg, r) + total, cfg.maxCap)
      case None => Refused
      case Some(cap) =>
        var moved := Relocated(cfg, r, cap);
        Placed(moved.(write := moved.write + total, front := moved.front + [f]), moved.write, true)
  }

  lemma RelocatedShape(cfg: Config, r: Ring, f: Frame)
    requires Shape(cfg, r)
    ensures var cap := GrownCap(r.cap, cfg.prefix + QueueLen(cfg, r) + 2 + |f|, cfg.maxCap);
      cap.Some? ==>
        var moved := Relocated(cfg, r, cap.value);
        && Shape(cfg, moved)
        && Shape(cfg, moved.(write := moved.write + 2 + |f|, front := moved.front + [f]))
  {
    SizeAppend(r.front, r.back);
    SizeSnoc(r.Queue(), f);
    SizeNonempty(r.front);
    SizeNonempty(r.back);
  }

  lemma AllocShape(cfg: Config, r: Ring, f: Frame, slack: nat)
    requires Shape(cfg, r)
    ensures var p := Alloc(cfg, r, f, slack); p.Placed? ==> Shape(cfg, p.ring)
  {
    var p := Alloc(cfg, r, f, slack);
    if p.Placed? {
      if p.grew {
        RelocatedShape(cfg, r, f);
      } else if p.ring.front != r.front {
        SizeSnoc(r.front, f);
      } else if r.tailEnd == 0 {
        SizeSnoc([], f);
        assert [f] == [] + [f];
      } else {
        SizeSnoc(r.back, f);
      }
    }
  }

  lemma AllocIsValid(cfg: Config, r: Ring, f: Frame, slack: nat)
    requires Valid(cfg, r)
    ensures var p := Alloc(cfg, r, f, slack); p.Placed? ==> Valid(cfg, p.ring)
  {
    AllocShape(cfg, r, f, slack);
  }

  /** A placed frame joins the end of the queue and nothing else about the queue changes. */
  lemma AllocAppends(cfg: Config, r: Ring, f: Frame, slack: nat)
    requires Valid(cfg, r)
    ensures var p := Alloc(cfg, r, f, slack);
      p.Placed? ==>
        && Valid(cfg, p.ring)
        && p.ring.Queue() == r.Queue() + [f]
        && p.ring.pendingGap == r.pendingGap
        && p.ring.write == p.pos + 2 + |f| <= p.ring.cap
        && (p.grew ==> p.ring.cap > r.cap)
        && (!p.grew ==> p.ring.cap == r.cap && p.ring.sent == r.sent && p.ring.sendEnd == r.sendEnd)
  {
    AllocIsValid(cfg, r, f, slack);
    var p := Alloc(cfg, r, f, slack);
    if p.Placed? {
      if p.grew || r.tailEnd == 0 {
        assert (r.Queue() + [f]) + [] == r.Queue() + [f];
        assert r.front + [] == r.front;
      } else {
        Associative(r.front, r.back, [f]);
      }
    }
  }

  /** Position i of the array may be written to: it is in no prefix, not queued, not being sent, and when the data is
      wrapped it is below it. */
  predicate IsFree(cfg: Config, r: Ring, i: int) {
    && cfg.prefix <= i < r.cap
    && (if r.tailEnd == 0 then i < r.sent || r.write <= i else r.write <= i < r.sent)
  }

  /** `total` free positions from `at` on, on one side of Sent. */
  predicate IsStretch(cfg: Config, r: Ring, at: nat, total: nat) {
    (at + total <= r.sent || r.sent <= at) && forall i :: at <= i < at + total ==> IsFree(cfg, r, i)
  }

  ghost predicate HasStretch(cfg: Config, r: Ring, total: nat) {
    exists at: nat :: IsStretch(cfg, r, at, total)
  }

  /** A stretch lies above the queue or below what is being sent. */
  lemma StretchIsAtCursor(cfg: Config, r: Ring, at: nat, total: nat)
    requires Valid(cfg, r) && total > 0 && IsStretch(cfg, r, at, total)
    ensures r.cap > 0
    ensures if r.tailEnd == 0 then r.write + total <= r.cap || cfg.prefix + total <= r.sent
            else r.write + total <= r.sent
  {
    assert IsFree(cfg, r, at) && IsFree(cfg, r, at + total - 1);
    SizeNonempty(r.front);
  }

  /**
   * Where AllocFrame puts a frame: in the array as it is if and only if there is a free stretch for it; otherwise in a
   * larger one, if the queue and the frame fit in the maximum.
   */
  lemma PlacedIff(cfg: Config, r: Ring, f: Frame)
    requires Valid(cfg, r)
    ensures var p, total := Alloc(cfg, r, f), 2 + |f|;
      && (p.Placed? && !p.grew <==> Legal(cfg, f) && HasStretch(cfg, r, total))
      && (p.Placed? && p.grew <==>
            Legal(cfg, f) && !HasStretch(cfg, r, total) && r.cap < cfg.maxCap
            && cfg.prefix + QueueLen(cfg, r) + total <= cfg.maxCap)
  {
    var p, total := Alloc(cfg, r, f), 2 + |f|;
    SizeNonempty(r.front);
    if p.Placed? && !p.grew {
      assert IsStretch(cfg, r, p.pos, total);
    } else if HasStretch(cfg, r, total) {
      var at: nat :| IsStretch(cfg, r, at, total);
      StretchIsAtCursor(cfg, r, at, total);
    }
  }

  /** FreeForAlloc drops by exactly the frame's size, header included. */
  lemma FreeDrops(cfg: Config, r: Ring, f: Frame)
    requires Shape(cfg, r) && Alloc(cfg, r, f).Placed?
    requires 2 + |f| <= FreeForAlloc(cfg, r)
    ensures var next := Alloc(cfg, r, f).ring;
      Shape(cfg, next) && FreeForAlloc(cfg, next) == FreeForAlloc(cfg, r) - (2 + |f|)
  {
    AllocShape(cfg, r, f, 0);
  }

  // ---------------------------------------------------------------- taking a batch

  /** How many leading frames fit in `budget` bytes. */
  function Fit(fs: seq<Frame>, budget: nat): (k: nat)
    ensures k <= |fs|
  {
    if fs == [] || 2 + |fs[0]| > budget then 0 else 1 + Fit(fs[1..], budget - 2 - |fs[0]|)
  }

  lemma {:induction false} FitIsGreedy(fs: seq<Frame>, budget: nat)
    ensures var k := Fit(fs, budget);
      Size(fs[..k]) <= budget && (k < |fs| ==> Size(fs[..k + 1]) > budget)
  {
    if fs != [] {
      assert fs[..1] == [fs[0]] && [fs[0]][1..] == [];
      if 2 + |fs[0]| <= budget {
        FitIsGreedy(fs[1..], budget - 2 - |fs[0]|);
        var k := Fit(fs, budget);
        assert fs[..k][1..] == fs[1..][..k - 1];
        if k < |fs| {
          assert fs[..k + 1][1..] == fs[1..][..k];
        }
      }
    }
  }

  /** The frames one batch takes from a contiguous stretch. */
  function BatchCount(cfg: Config, fs: seq<Frame>): (k: nat)
    ensures k <= |fs|
  {
    if cfg.maxFramePayload == 0 then |fs| else Fit(fs, cfg.maxFramePayload)
  }

  lemma BatchIsGreedy(cfg: Config, fs: seq<Frame>)
    requires AllLegal(cfg, fs)
    ensures var k := BatchCount(cfg, fs);
      && (fs != [] ==> k > 0)
      && (cfg.maxFramePayload > 0 ==> Size(fs[..k]) <= cfg.maxFramePayload)
      && (k < |fs| ==> cfg.maxFramePayload > 0 && Size(fs[..k + 1]) > cfg.maxFramePayload)
  {
    FitIsGreedy(fs, cfg.maxFramePayload);
    if fs != [] {
      assert Legal(cfg, fs[0]);
    }
  }

  lemma PartSizes(fs: seq<Frame>, k: nat)
    requires k <= |fs|
    ensures Size(fs) == Size(fs[..k]) + Size(fs[k..])
    ensures k > 0 ==> Size(fs[..k]) >= 3
    ensures k < |fs| ==> Size(fs[k..]) >= 3
  {
    SizeSplit(fs, k);
    SizeIsLength(fs[..k]);
    SizeIsLength(fs[k..]);
    hide Size;
  }

  lemma BatchBounds(cfg: Config, fs: seq<Frame>)
    requires AllLegal(cfg, fs)
    ensures var k := BatchCount(cfg, fs);
      && (fs != [] ==> k > 0)
      && (cfg.maxFramePayload > 0 ==> Size(fs[..k]) <= cfg.maxFramePayload)
      && (k < |fs| ==> cfg.maxFramePayload > 0 && Size(fs[..k + 1]) > cfg.maxFramePayload)
      && Size(fs) == Size(fs[..k]) + Size(fs[k..])
      && (k > 0 ==> Size(fs[..k]) >= 3)
      && (k < |fs| ==> Size(fs[k..]) >= 3)
  {
    hide BatchCount;
    hide Size;
    BatchIsGreedy(cfg, fs);
    PartSizes(fs, BatchCount(cfg, fs));
  }

  /** The implicit confirmation of the previous batch at the start of a take: the data now starts at sent. */
  function Confirmed(cfg: Config, r: Ring): Ring
    requires Valid(cfg, r)
  {
    var start := r.sendEnd + r.pendingGap;
    if r.tailEnd > 0 && start >= r.tailEnd then
      Ring(r.cap, cfg.prefix, cfg.prefix, r.write, 0, 0, r.back, [])
    else
      r.(sent := start, sendEnd := start, pendingGap := 0)
  }

  lemma ConfirmedKeepsQueue(cfg: Config, r: Ring)
    requires Valid(cfg, r)
    ensures var c := Confirmed(cfg, r);
      && Valid(cfg, c) && c.Queue() == r.Queue() && c.cap == r.cap
      && (c.front == [] <==> r.Queue() == [])
      && NothingInFlight(cfg, c)
  {
    SizeIsLength(r.front);
    SizeIsLength(r.back);
    if r.tailEnd > 0 && r.sendEnd + r.pendingGap >= r.tailEnd {
      assert r.Queue() == r.back == Confirmed(cfg, r).Queue();
    }
  }

  datatype Taken = Taken(ring: Ring, batch: seq<Frame>)

  /** What Confirmed leaves: nothing in flight, and the data in front unless there is none. */
  predicate NothingInFlight(cfg: Config, c: Ring) {
    Valid(cfg, c) && c.sendEnd == c.sent && c.pendingGap == 0 && (c.front == [] ==> c.tailEnd == 0)
  }

  function Take(cfg: Config, r: Ring): Taken
    requires Valid(cfg, r)
  {
    ConfirmedKeepsQueue(cfg, r);
    TakeConfirmed(cfg, Confirmed(cfg, r))
  }

  function TakeConfirmed(cfg: Config, c: Ring): Taken
    requires NothingInFlight(cfg, c)
  {
    var k := BatchCount(cfg, c.front);
    var end := c.sent + Size(c.front[..k]);
    var rest := c.(sendEnd := end, front := c.front[k..]);
    if c.tailEnd > 0 then
      Taken(rest, c.front[..k])
    else if c.sent < c.write then
      if cfg.suffix > 0 && end == c.write && c.cap - c.write >= cfg.suffix then
        Taken(rest.(write := c.write + cfg.suffix, pendingGap := cfg.suffix), c.front[..k])
      else
        Taken(rest, c.front[..k])
    else
      Taken(c.(sent := cfg.prefix, sendEnd := cfg.prefix, write := cfg.prefix), [])
  }

  lemma TakeIsValid(cfg: Config, c: Ring)
    requires NothingInFlight(cfg, c)
    ensures var t := TakeConfirmed(cfg, c);
      && Valid(cfg, t.ring)
      && t.ring.cap == c.cap
      && t.ring.sendEnd == t.ring.sent + Size(t.batch)
      && (t.batch == [] ==> t.ring.sendEnd == cfg.prefix)
      && (t.ring.pendingGap > 0 ==> t.ring.front == [] && t.ring.back == [] && t.ring.write <= t.ring.cap)
  {
    BatchBounds(cfg, c.front);
    SizeNonempty(c.front);
    SizeNonempty(c.front[BatchCount(cfg, c.front)..]);
  }

  lemma TakeSplitsQueue(cfg: Config, c: Ring)
    requires NothingInFlight(cfg, c)
    ensures var t := TakeConfirmed(cfg, c);
      && t.batch + t.ring.Queue() == c.Queue()
      && (t.batch == [] <==> c.front == [])
      && (cfg.maxFramePayload > 0 ==> Size(t.batch) <= cfg.maxFramePayload)
  {
    BatchBounds(cfg, c.front);
    SizeNonempty(c.front);
    var k := BatchCount(cfg, c.front);
    Associative(c.front[..k], c.front[k..], c.back);
    assert c.front[..k] + c.front[k..] == c.front;
  }

  /**
   * A take removes whole frames from the head of the queue, at most maxFramePayload bytes of them,
   * and comes back empty exactly when there is nothing queued.
   */
  lemma TakeRemovesPrefix(cfg: Config, r: Ring)
    requires Valid(cfg, r)
    ensures var t := Take(cfg, r);
      && Valid(cfg, t.ring)
      && t.batch + t.ring.Queue() == r.Queue()
      && (t.batch == [] <==> r.Queue() == [])
      && (cfg.maxFramePayload > 0 ==> Size(t.batch) <= cfg.maxFramePayload)
      && t.ring.cap == r.cap
      && t.ring.sendEnd == t.ring.sent + Size(t.batch)
      && (t.batch == [] ==> t.ring.sendEnd == cfg.prefix)
      && (t.ring.pendingGap > 0 ==> t.ring.front == [] && t.ring.back == [] && t.ring.write <= t.ring.cap)
  {
    ConfirmedKeepsQueue(cfg, r);
    TakeIsValid(cfg, Confirmed(cfg, r));
    TakeSplitsQueue(cfg, Confirmed(cfg, r));
  }

  /** Unless the take reached the end of its stretch, one more frame of it would have exceeded the cap. */
  lemma TakeIsMaximal(cfg: Config, r: Ring)
    requires Valid(cfg, r) && Take(cfg, r).ring.front != []
    ensures var t := Take(cfg, r);
      && t.batch + [t.ring.front[0]] <= r.Queue()
      && cfg.maxFramePayload > 0 && Size(t.batch + [t.ring.front[0]]) > cfg.maxFramePayload
  {
    hide TakeConfirmed;
    hide Confirmed;
    ConfirmedKeepsQueue(cfg, r);
    CutIsMaximal(cfg, Confirmed(cfg, r));
  }

  lemma CutIsMaximal(cfg: Config, c: Ring)
    requires NothingInFlight(cfg, c) && TakeConfirmed(cfg, c).ring.front != []
    ensures var t := TakeConfirmed(cfg, c);
      && t.batch + [t.ring.front[0]] <= c.Queue()
      && cfg.maxFramePayload > 0 && Size(t.batch + [t.ring.front[0]]) > cfg.maxFramePayload
  {
    BatchBounds(cfg, c.front);
    SizeNonempty(c.front);
    var k := BatchCount(cfg, c.front);
    assert c.front[..k + 1] == c.front[..k] + [c.front[k]];
  }

  /** The footer scratch is granted if and only if the take leaves nothing queued and there is room for it. */
  lemma FooterIsGranted(cfg: Config, r: Ring)
    requires Valid(cfg, r) && r.Queue() != []
    ensures var t := Take(cfg, r).ring;
      t.pendingGap == if t.Queue() == [] && t.sendEnd + cfg.suffix <= t.cap then cfg.suffix else 0
  {
    var c := Confirmed(cfg, r);
    ConfirmedKeepsQueue(cfg, r);
    BatchBounds(cfg, c.front);
    SizeNonempty(c.front);
  }

  /** Taking |queue| times empties the buffer and yields every queued frame, in order. */
  lemma {:induction false} DrainTerminates(cfg: Config, r: Ring, bound: nat)
    requires Valid(cfg, r) && |r.Queue()| <= bound
    ensures var d := Drain(cfg, r, bound);
      d.batch == r.Queue() && Valid(cfg, d.ring) && d.ring.Queue() == []
    decreases bound
  {
    hide TakeConfirmed;
    hide Confirmed;
    hide Size;
    TakeRemovesPrefix(cfg, r);
    if bound > 0 {
      var t := Take(cfg, r);
      DrainTerminates(cfg, t.ring, bound - 1);
    }
  }

  function Drain(cfg: Config, r: Ring, takes: nat): Taken
    requires Valid(cfg, r)
    decreases takes
  {
    if takes == 0 then Taken(r, [])
    else
      var t := Take(cfg, r);
      TakeRemovesPrefix(cfg, r);
      var rest := Drain(cfg, t.ring, takes - 1);
      Taken(rest.ring, t.batch + rest.batch)
  }

  // ---------------------------------------------------------------- popping one frame, reset

  function Pop(cfg: Config, r: Ring): (Ring, Option<Frame>)
    requires Valid(cfg, r)
  {
    ConfirmedKeepsQueue(cfg, r);
    PopConfirmed(cfg, Confirmed(cfg, r))
  }

  function PopConfirmed(cfg: Config, c: Ring): (Ring, Option<Frame>)
    requires NothingInFlight(cfg, c)
  {
    if c.front == [] then
      (c.(sent := cfg.prefix, sendEnd := cfg.prefix, write := cfg.prefix), None)
    else
      var end := c.sent + 2 + |c.front[0]|;
      (c.(sent := end, sendEnd := end, front := c.front[1..]), Some(c.front[0]))
  }

  lemma PopRemovesHead(cfg: Config, r: Ring)
    requires Valid(cfg, r)
    ensures var (next, popped) := Pop(cfg, r);
      && Valid(cfg, next) && next.cap == r.cap
      && (popped.None? <==> r.Queue() == [])
      && (popped.None? ==> next.Queue() == [])
      && (popped.Some? ==> [popped.value] + next.Queue() == r.Queue())
  {
    ConfirmedKeepsQueue(cfg, r);
    var c := Confirmed(cfg, r);
    if c.front != [] {
      assert c.front == [c.front[0]] + c.front[1..];
      assert [c.front[0]] + (c.front[1..] + c.back) == c.Queue();
    }
  }

  function ResetRing(cfg: Config, r: Ring): Ring {
    Ring(r.cap, cfg.prefix, cfg.prefix, cfg.prefix, 0, 0, [], [])
  }

  /** After a reset all of the maximum but the prefix is free, and nothing is in flight. */
  lemma ResetFrees(cfg: Config, r: Ring)
    requires Valid(cfg, r)
    ensures var next := ResetRing(cfg, r);
      && Valid(cfg, next) && next.cap == r.cap && next.Queue() == [] && next.sendEnd == next.sent == cfg.prefix
      && (cfg.prefix <= cfg.maxCap ==> FreeForAlloc(cfg, next) == cfg.maxCap - cfg.prefix)
  {
    SizeNonempty(r.front);
  }

  // ---------------------------------------------------------------- whole runs

  datatype Op = DoAlloc(f: Frame) | DoTake | DoPop | DoReset

  /** Frames accepted and delivered so far; a reset forgets the accepted frames it drops. */
  datatype Run = Run(ring: Ring, accepted: seq<Frame>, delivered: seq<Frame>)

  function Step(cfg: Config, s: Run, op: Op, slack: nat := 0): Run
    requires Valid(cfg, s.ring)
  {
    match op
    case DoAlloc(f) =>
      (match Alloc(cfg, s.ring, f, slack)
       case Refused => s
       case Placed(ring, _, _) => Run(ring, s.accepted + [f], s.delivered))
    case DoTake =>
      var t := Take(cfg, s.ring);
      Run(t.ring, s.accepted, s.delivered + t.batch)
    case DoPop =>
      var (ring, popped) := Pop(cfg, s.ring);
      Run(ring, s.accepted, if popped.Some? then s.delivered + [popped.value] else s.delivered)
    case DoReset =>
      Run(ResetRing(cfg, s.ring), s.delivered, s.delivered)
  }

  /** Between takes of a writer that never pops, either a batch is in flight or the cursors are at the base. */
  predicate TakeOnly(cfg: Config, r: Ring) {
    r.sent < r.sendEnd || r.sendEnd == cfg.prefix
  }

  ghost predicate RunInv(cfg: Config, s: Run) {
    Valid(cfg, s.ring) && s.accepted == s.delivered + s.ring.Queue()
  }

  lemma StepKeeps(cfg: Config, s: Run, op: Op, slack: nat)
    requires RunInv(cfg, s)
    ensures RunInv(cfg, Step(cfg, s, op, slack))
    ensures TakeOnly(cfg, s.ring) && op != DoPop ==> TakeOnly(cfg, Step(cfg, s, op, slack).ring)
  {
    var q := s.ring.Queue();
    match op
    case DoAlloc(f) =>
      AllocAppends(cfg, s.ring, f, slack);
      Associative(s.delivered, q, [f]);
    case DoTake =>
      var t := Take(cfg, s.ring);
      TakeRemovesPrefix(cfg, s.ring);
      SizeNonempty(t.batch);
      Associative(s.delivered, t.batch, t.ring.Queue());
    case DoPop =>
      var (next, popped) := Pop(cfg, s.ring);
      PopRemovesHead(cfg, s.ring);
      if popped.Some? {
        Associative(s.delivered, [popped.value], next.Queue());
      }
    case DoReset =>
      assert ResetRing(cfg, s.ring).Queue() == [];
      assert s.delivered + [] == s.delivered;
  }

  /** The state after a run; every prefix keeps the ring valid, which the function carries in its result. */
  ghost function Exec(cfg: Config, ops: seq<Op>, slack: nat := 0): (s: Run)
    ensures RunInv(cfg, s)
  {
    if ops == [] then
      Run(Init(cfg), [], [])
    else
      var s := Exec(cfg, ops[..|ops| - 1], slack);
      StepKeeps(cfg, s, ops[|ops| - 1], slack);
      Step(cfg, s, ops[|ops| - 1], slack)
  }

  lemma ExecSnoc(cfg: Config, ops: seq<Op>, op: Op, slack: nat)
    ensures Exec(cfg, ops + [op], slack) == Step(cfg, Exec(cfg, ops, slack), op, slack)
  {
    assert (ops + [op])[..|ops|] == ops;
  }

  /**
   * Every run behaves as a FIFO of frames: what was delivered, followed by what is queued, is exactly what was
   * accepted and not reset away. Nothing is lost, duplicated, split or reordered across wrap, growth and gaps.
   */
  lemma {:induction false} RunsAreFifo(cfg: Config, ops: seq<Op>, slack: nat)
    ensures var s := Exec(cfg, ops, slack);
      && s.accepted == s.delivered + s.ring.Queue()
      && Drain(cfg, s.ring, |s.ring.Queue()|).batch == s.accepted[|s.delivered|..]
      && (DoPop !in ops ==> TakeOnly(cfg, s.ring))
  {
    var s := Exec(cfg, ops, slack);
    DrainTerminates(cfg, s.ring, |s.ring.Queue()|);
    if ops != [] {
      RunsAreFifo(cfg, ops[..|ops| - 1], slack);
      StepKeeps(cfg, Exec(cfg, ops[..|ops| - 1], slack), ops[|ops| - 1], slack);
    }
  }
}
