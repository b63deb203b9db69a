/** Placing a group of frames under one lock, and what FreeForAlloc promises about it. */
module RingGroups {
  import opened Bytes
  import opened Frames
  import opened BipRing

  /** Consecutive AllocFrames until one is refused: the ring and how many were placed. */
  function AllocSome(cfg: Config, r: Ring, fs: seq<Frame>): (result: (Ring, nat))
    requires Valid(cfg, r)
    ensures result.1 <= |fs|
    decreases |fs|
  {
    if fs == [] then (r, 0)
    else
      match Alloc(cfg, r, fs[0])
      case Refused => (r, 0)
      case Placed(next, _, _) =>
        AllocIsValid(cfg, r, fs[0], 0);
        var (last, n) := AllocSome(cfg, next, fs[1..]);
        (last, n + 1)
  }

  predicate PlacesAll(cfg: Config, r: Ring, fs: seq<Frame>)
    requires Valid(cfg, r)
  {
    AllocSome(cfg, r, fs).1 == |fs|
  }

  lemma FirstThenRest(q: seq<Frame>, fs: seq<Frame>, n: nat)
    requires fs != [] && n < |fs|
    ensures q + [fs[0]] + fs[1..][..n] == q + fs[..n + 1]
  {
  }

  /** The frames placed join the queue in order. */
  lemma {:induction false} AllocSomeAppends(cfg: Config, r: Ring, fs: seq<Frame>)
    requires Valid(cfg, r)
    ensures var (last, n) := AllocSome(cfg, r, fs);
      && Valid(cfg, last) && last.Queue() == r.Queue() + fs[..n]
      && (TakeOnly(cfg, r) ==> TakeOnly(cfg, last))
    decreases |fs|
  {
    if fs == [] {
      assert r.Queue() + fs[..0] == r.Queue();
    } else {
      var p := Alloc(cfg, r, fs[0]);
      if p.Placed? {
        AllocAppends(cfg, r, fs[0], 0);
        AllocSomeAppends(cfg, p.ring, fs[1..]);
        var n := AllocSome(cfg, p.ring, fs[1..]).1;
        FirstThenRest(r.Queue(), fs, n);
      } else {
        assert r.Queue() + fs[..0] == r.Queue();
      }
    }
  }

  /** When nothing is placed, nothing has happened: a refused AllocFrame leaves the ring alone. */
  lemma NonePlaced(cfg: Config, r: Ring, fs: seq<Frame>)
    requires Valid(cfg, r)
    ensures AllocSome(cfg, r, fs).1 == 0 ==> AllocSome(cfg, r, fs).0 == r
  {
  }

  /** Nothing is in flight in the current array: all free bytes lie in one stretch above the queue. */
  predicate AtBase(cfg: Config, r: Ring) {
    r.sendEnd == cfg.prefix
  }

  /** One frame of a group that fits in FreeForAlloc is placed, and the rest still meets the same conditions. */
  lemma FrameOfGroupFits(cfg: Config, r: Ring, f: Frame)
    requires Valid(cfg, r) && Legal(cfg, f) && 2 + |f| <= FreeForAlloc(cfg, r)
    requires r.cap < cfg.maxCap || AtBase(cfg, r)
    ensures var p := Alloc(cfg, r, f);
      && p.Placed? && Valid(cfg, p.ring)
      && (p.ring.cap < cfg.maxCap || AtBase(cfg, p.ring))
      && FreeForAlloc(cfg, p.ring) == FreeForAlloc(cfg, r) - (2 + |f|)
      && p.ring.Queue() == r.Queue() + [f]
  {
    SizeNonempty(r.back);
    assert Alloc(cfg, r, f).Placed?;
    AllocAppends(cfg, r, f, 0);
    FreeDrops(cfg, r, f);
  }

  /**
   * A group whose total size is within FreeForAlloc is appended whole, in order, when the buffer may still grow
   * or nothing is in flight.
   */
  lemma {:induction false} GroupFits(cfg: Config, r: Ring, fs: seq<Frame>)
    requires Valid(cfg, r) && AllLegal(cfg, fs) && Size(fs) <= FreeForAlloc(cfg, r)
    requires r.cap < cfg.maxCap || AtBase(cfg, r)
    ensures var (last, n) := AllocSome(cfg, r, fs);
      n == |fs| && Valid(cfg, last) && last.Queue() == r.Queue() + fs
      && FreeForAlloc(cfg, last) == FreeForAlloc(cfg, r) - Size(fs)
    decreases |fs|
  {
    if fs == [] {
      assert r.Queue() + fs == r.Queue();
    } else {
      FrameOfGroupFits(cfg, r, fs[0]);
      var next := Alloc(cfg, r, fs[0]).ring;
      GroupFits(cfg, next, fs[1..]);
      Associative(r.Queue(), [fs[0]], fs[1..]);
      assert [fs[0]] + fs[1..] == fs;
    }
  }

  /** FreeForAlloc is no less than what can be placed: no group beyond it is ever placed whole. */
  lemma {:induction false} PlacedIsWithinFree(cfg: Config, r: Ring, fs: seq<Frame>)
    requires Valid(cfg, r) && PlacesAll(cfg, r, fs)
    ensures Size(fs) <= FreeForAlloc(cfg, r)
    decreases |fs|
  {
    if fs != [] {
      var next := Alloc(cfg, r, fs[0]).ring;
      PlacedIsWithin(cfg, r, fs[0]);
      PlacedIsWithinFree(cfg, next, fs[1..]);
      FreeDrops(cfg, r, fs[0]);
    }
  }

  lemma PlacedIsWithin(cfg: Config, r: Ring, f: Frame)
    requires Valid(cfg, r) && Alloc(cfg, r, f).Placed?
    ensures 2 + |f| <= FreeForAlloc(cfg, r) && Valid(cfg, Alloc(cfg, r, f).ring)
  {
    AllocAppends(cfg, r, f, 0);
    SizeNonempty(r.front);
  }

  /** Free bytes a full-size buffer can really hand out while a batch is in flight. */
  function Usable(cfg: Config, r: Ring): nat
    requires Valid(cfg, r) && r.cap > 0
  {
    if r.tailEnd == 0 then (r.cap - r.write) + (r.sent - cfg.prefix) else r.sent - r.write
  }

  lemma {:induction false} GroupIsUsable(cfg: Config, r: Ring, fs: seq<Frame>)
    requires Valid(cfg, r) && r.cap == cfg.maxCap > 0
    ensures PlacesAll(cfg, r, fs) ==> Size(fs) <= Usable(cfg, r)
    decreases |fs|
  {
    if fs != [] {
      var p := Alloc(cfg, r, fs[0]);
      if p.Placed? {
        AllocAppends(cfg, r, fs[0], 0);
        assert !p.grew;
        SizeNonempty(r.front);
        GroupIsUsable(cfg, p.ring, fs[1..]);
      }
    }
  }

  /** A group of k one-byte frames. */
  function Ones(k: nat): (fs: seq<Frame>)
    ensures |fs| == k && forall i :: 0 <= i < k ==> |fs[i]| == 1
  {
    if k == 0 then [] else
      var one: Frame := [0];
      [one] + Ones(k - 1)
  }

  lemma {:induction false} OnesSize(k: nat)
    ensures Size(Ones(k)) == 3 * k
  {
    if k > 0 {
      OnesSize(k - 1);
      assert Ones(k)[1..] == Ones(k - 1);
    }
  }

  /** With a batch in flight in a buffer of full size, FreeForAlloc counts bytes that cannot be handed out. */
  lemma FullBufferRefusesAGroup(cfg: Config, r: Ring)
    requires Valid(cfg, r) && r.cap == cfg.maxCap && r.sent < r.sendEnd
    requires FreeForAlloc(cfg, r) >= 3 && (cfg.maxFramePayload == 0 || cfg.maxFramePayload >= 3)
    ensures var fs := Ones(FreeForAlloc(cfg, r) / 3);
      AllLegal(cfg, fs) && Size(fs) <= FreeForAlloc(cfg, r) && !PlacesAll(cfg, r, fs)
  {
    var free := FreeForAlloc(cfg, r);
    OnesSize(free / 3);
    GroupIsUsable(cfg, r, Ones(free / 3));
    SizeNonempty(r.front);
    assert Usable(cfg, r) <= free - 3;
  }

  /**
   * FreeForAlloc's promise, that every legal group within it succeeds, holds exactly when the buffer is below its
   * full size or nothing is in flight. (A writer that only takes is always TakeOnly: see BipRing.RunsAreFifo. With
   * fewer than three free bytes, or a cap below three, there is no frame to promise anything about.)
   */
  lemma FreeForAllocPromise(cfg: Config, r: Ring)
    requires Valid(cfg, r) && TakeOnly(cfg, r)
    requires FreeForAlloc(cfg, r) >= 3 && (cfg.maxFramePayload == 0 || cfg.maxFramePayload >= 3)
    ensures (forall fs: seq<Frame> :: AllLegal(cfg, fs) && Size(fs) <= FreeForAlloc(cfg, r)
              ==> PlacesAll(cfg, r, fs))
        <==> (r.cap < cfg.maxCap || AtBase(cfg, r))
  {
    if r.cap < cfg.maxCap || AtBase(cfg, r) {
      forall fs: seq<Frame> | AllLegal(cfg, fs) && Size(fs) <= FreeForAlloc(cfg, r)
        ensures PlacesAll(cfg, r, fs)
      {
        GroupFits(cfg, r, fs);
      }
    } else {
      FullBufferRefusesAGroup(cfg, r);
    }
  }
}
