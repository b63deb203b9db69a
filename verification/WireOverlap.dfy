/**
 * A run of the guards as written in which a header overwrites a queued frame: with the sizes of RingScratch.TightFit,
 * the third frame pushed leaves the server with the second one's header in its last two bytes.
 */
module WireOverlap {
  import opened Bytes
  import opened Frames
  import opened BipRing
  import opened RingBytes
  import opened RingHeader
  import opened RingScratch
  import opened Wire
  import opened WireRun
  import WebSocket
  import WriteBuf

  /** An unbroken connection: writer 0 holds `batch`, [] between batches, and its slice is `hand`. */
  ghost predicate Is(s: State, ring: Ring, batch: seq<Frame>, hand: Option<Hand>, accepted: seq<Frame>,
                     batches: seq<seq<Frame>>, spoiled: bool)
  {
    s == State(WriteBuf.State(ring, true, false, map[0 := batch], accepted, s.base.written),
               Mem(s.mem.buf, hand, spoiled), batches, s.socket, false, false)
  }

  lemma ExecSnoc(cfg: Config, steps: seq<Step>, step: Step)
    requires HeaderRoom(cfg) && StepsOk(cfg, steps) && StepOk(cfg, step)
    ensures StepsOk(cfg, steps + [step])
    ensures WireRun.Exec(cfg, steps + [step]) == Next(cfg, WireRun.Exec(cfg, steps), step)
  {
    assert (steps + [step])[..|steps|] == steps;
  }

  /** Writer 0 pushes the first frame and is started by it. */
  lemma FirstPush(cfg: Config, f: Frame)
    requires HeaderRoom(cfg) && Alloc(cfg, Init(cfg), f).Placed?
    ensures Is(WireRun.Exec(cfg, [Push(f, 0)]), Alloc(cfg, Init(cfg), f).ring, [], None, [f], [], false)
  {
    StartInv(cfg);
    ExecSnoc(cfg, [], Push(f, 0));
    assert [] + [Push(f, 0)] == [Push(f, 0)];
    assert [] + [f] == [f];
  }

  lemma PushIs(cfg: Config, s: State, f: Frame, w: nat)
    requires MemOk(cfg, s.base.ring, s.mem) && HeaderRoom(cfg) && !s.derailed
    requires s.base.writerRunning && !s.base.isBroken && w !in s.base.writers && Alloc(cfg, s.base.ring, f).Placed?
    ensures Next(cfg, s, Push(f, w))
         == s.(base := s.base.(ring := Alloc(cfg, s.base.ring, f).ring, accepted := s.base.accepted + [f]),
               mem := PlaceOne(cfg, s.base.ring, s.mem, f))
  {
  }

  /** A frame placed in the same array while nothing is written in front of the slice. */
  lemma AfterPush(cfg: Config, steps: seq<Step>, ring: Ring, batch: seq<Frame>, hand: Option<Hand>,
                  accepted: seq<Frame>, batches: seq<seq<Frame>>, f: Frame, w: nat)
    requires HeaderRoom(cfg) && StepsOk(cfg, steps) && w != 0
    requires Is(WireRun.Exec(cfg, steps), ring, batch, hand, accepted, batches, false)
    requires BipRing.Valid(cfg, ring) && Alloc(cfg, ring, f).Placed? && !Alloc(cfg, ring, f).grew
    requires hand.Some? && hand.value.header == []
    ensures StepsOk(cfg, steps + [Push(f, w)])
    ensures Is(WireRun.Exec(cfg, steps + [Push(f, w)]), Alloc(cfg, ring, f).ring, batch, hand, accepted + [f], batches,
               false)
  {
    hide WireRun.Exec;
    ExecSnoc(cfg, steps, Push(f, w));
    PushIs(cfg, WireRun.Exec(cfg, steps), f, w);
  }

  lemma TakeIs(cfg: Config, s: State, ring: Ring)
    requires MemOk(cfg, ring, s.mem) && s.base.ring == ring && HeaderRoom(cfg) && !s.derailed
    requires !s.base.isBroken && s.base.writers == map[0 := []]
    requires BipRing.Take(cfg, ring).batch != []
    requires TakenEnd(cfg, Confirmed(cfg, ring), s.mem.buf) == BipRing.Take(cfg, ring).ring.sendEnd
    ensures var t := BipRing.Take(cfg, ring);
      Next(cfg, s, Take(0))
      == s.(base := s.base.(ring := t.ring, writers := map[0 := t.batch]),
            mem := s.mem.(hand := Some(Hand(t.ring.sent, t.ring.sendEnd, None, []))))
  {
    assert s.base.writers[0 := BipRing.Take(cfg, ring).batch] == map[0 := BipRing.Take(cfg, ring).batch];
  }

  lemma AfterTake(cfg: Config, steps: seq<Step>, ring: Ring, accepted: seq<Frame>, batches: seq<seq<Frame>>, ov: bool)
    requires HeaderRoom(cfg) && StepsOk(cfg, steps)
    requires Is(WireRun.Exec(cfg, steps), ring, [], None, accepted, batches, ov)
    requires BipRing.Valid(cfg, ring) && BipRing.Take(cfg, ring).batch != []
    requires ov ==> TakenEnd(cfg, Confirmed(cfg, ring), WireRun.Exec(cfg, steps).mem.buf)
                    == BipRing.Take(cfg, ring).ring.sendEnd
    ensures StepsOk(cfg, steps + [Take(0)])
    ensures var t := BipRing.Take(cfg, ring);
      Is(WireRun.Exec(cfg, steps + [Take(0)]), t.ring, t.batch, Some(Hand(t.ring.sent, t.ring.sendEnd, None, [])),
         accepted, batches, ov)
    ensures WireRun.Exec(cfg, steps + [Take(0)]).mem.buf == WireRun.Exec(cfg, steps).mem.buf
    ensures WireRun.Exec(cfg, steps + [Take(0)]).socket == WireRun.Exec(cfg, steps).socket
  {
    hide WireRun.Exec;
    var s := WireRun.Exec(cfg, steps);
    ExecSnoc(cfg, steps, Take(0));
    if !ov {
      TakenEndIsBatch(cfg, ring, s.mem.buf);
    }
    TakeIs(cfg, s, ring);
  }

  lemma HeadIs(cfg: Config, s: State, h: Hand)
    requires MemOk(cfg, s.base.ring, s.mem) && HeaderRoom(cfg) && !s.derailed && s.mem.hand == Some(h)
    requires 0 in s.base.writers && s.base.writers[0] != [] && h == Hand(h.lo, h.hi, None, [])
    requires |HeaderOf(h)| <= cfg.prefix
    ensures |HeaderOf(h)| <= h.lo <= h.hi <= |s.mem.buf|
    ensures Next(cfg, s, Head(0))
         == s.(mem := Mem(Overwrite(s.mem.buf, h.lo - |HeaderOf(h)|, HeaderOf(h)), Some(h.(header := HeaderOf(h))),
                          s.mem.spoiled || !Survives(cfg, s.base.ring, s.mem.buf, HeaderOf(h))))
  {
    assert |s.mem.buf| == s.base.ring.cap > 0;
    hide HeaderOf;
    hide Survives;
    hide Overwrite;
    hide BipRing.Valid;
  }

  lemma SendIs(cfg: Config, s: State, batch: seq<Frame>, h: Hand)
    requires MemOk(cfg, s.base.ring, s.mem) && HeaderRoom(cfg) && !s.derailed
    requires s.mem.hand == Some(h) && h.moved.None? && h.header != []
    requires s.base.writers == map[0 := batch] && batch != []
    ensures |h.header| <= h.lo <= h.hi <= |s.mem.buf|
    ensures Next(cfg, s, Send(0))
         == s.(base := s.base.(written := s.base.written + batch, writers := map[0 := []]),
               mem := s.mem.(hand := None), batches := s.batches + [batch],
               socket := s.socket + s.mem.buf[h.lo - |h.header|..h.hi])
  {
    assert s.base.writers[0 := []] == map[0 := []];
  }

  lemma AfterHead(cfg: Config, steps: seq<Step>, s: State, ring: Ring, batch: seq<Frame>, h: Hand,
                  accepted: seq<Frame>, batches: seq<seq<Frame>>, ov: bool) returns (next: State)
    requires HeaderRoom(cfg) && StepsOk(cfg, steps) && s == WireRun.Exec(cfg, steps)
    requires batch != [] && h == Hand(h.lo, h.hi, None, []) && h.lo <= h.hi
    requires Is(s, ring, batch, Some(h), accepted, batches, ov)
    ensures StepsOk(cfg, steps + [Head(0)]) && next == WireRun.Exec(cfg, steps + [Head(0)])
    ensures 2 <= |HeaderOf(h)| <= h.lo <= h.hi <= |s.mem.buf|
    ensures BipRing.Valid(cfg, ring) && |s.mem.buf| == ring.cap && |HeaderOf(h)| <= cfg.prefix
    ensures Is(next, ring, batch, Some(h.(header := HeaderOf(h))), accepted, batches,
               ov || !Survives(cfg, ring, s.mem.buf, HeaderOf(h)))
    ensures next.mem.buf == Overwrite(s.mem.buf, h.lo - |HeaderOf(h)|, HeaderOf(h)) && next.socket == s.socket
  {
    hide WireRun.Exec;
    hide Next;
    assert MemOk(cfg, ring, s.mem);
    hide Inv;
    HeaderIsShort(h);
    hide HeaderOf;
    hide Survives;
    HeadIs(cfg, s, h);
    ExecSnoc(cfg, steps, Head(0));
    next := WireRun.Exec(cfg, steps + [Head(0)]);
  }

  lemma AfterSend(cfg: Config, steps: seq<Step>, s: State, ring: Ring, batch: seq<Frame>, h: Hand,
                  accepted: seq<Frame>, batches: seq<seq<Frame>>, ov: bool) returns (next: State)
    requires HeaderRoom(cfg) && StepsOk(cfg, steps) && s == WireRun.Exec(cfg, steps)
    requires batch != [] && h.moved.None? && h.header != []
    requires Is(s, ring, batch, Some(h), accepted, batches, ov)
    ensures StepsOk(cfg, steps + [Send(0)]) && next == WireRun.Exec(cfg, steps + [Send(0)])
    ensures |h.header| <= h.lo <= h.hi <= |s.mem.buf|
    ensures Is(next, ring, [], None, accepted, batches + [batch], ov)
    ensures next.mem.buf == s.mem.buf && next.socket == s.socket + s.mem.buf[h.lo - |h.header|..h.hi]
  {
    hide WireRun.Exec;
    hide Next;
    assert MemOk(cfg, ring, s.mem);
    hide Inv;
    hide MemOk;
    SendIs(cfg, s, batch, h);
    ExecSnoc(cfg, steps, Send(0));
    next := WireRun.Exec(cfg, steps + [Send(0)]);
  }

  /** Header and send, one after the other. */
  lemma AfterWrite(cfg: Config, steps: seq<Step>, s: State, ring: Ring, batch: seq<Frame>, h: Hand,
                   accepted: seq<Frame>, batches: seq<seq<Frame>>, ov: bool) returns (next: State)
    requires HeaderRoom(cfg) && StepsOk(cfg, steps) && s == WireRun.Exec(cfg, steps)
    requires batch != [] && h == Hand(h.lo, h.hi, None, []) && h.lo <= h.hi
    requires Is(s, ring, batch, Some(h), accepted, batches, ov)
    ensures StepsOk(cfg, steps + [Head(0)] + [Send(0)])
    ensures next == WireRun.Exec(cfg, steps + [Head(0)] + [Send(0)])
    ensures 2 <= |HeaderOf(h)| <= h.lo <= h.hi <= |s.mem.buf|
    ensures BipRing.Valid(cfg, ring) && |s.mem.buf| == ring.cap && |HeaderOf(h)| <= cfg.prefix
    ensures Is(next, ring, [], None, accepted, batches + [batch], ov || !Survives(cfg, ring, s.mem.buf, HeaderOf(h)))
    ensures next.mem.buf == Overwrite(s.mem.buf, h.lo - |HeaderOf(h)|, HeaderOf(h))
    ensures next.socket == s.socket + next.mem.buf[h.lo - |HeaderOf(h)|..h.hi]
  {
    hide WireRun.Exec;
    hide HeaderOf;
    hide Survives;
    hide Overwrite;
    hide Next;
    hide Inv;
    var mid := AfterHead(cfg, steps, s, ring, batch, h, accepted, batches, ov);
    next := AfterSend(cfg, steps + [Head(0)], mid, ring, batch, h.(header := HeaderOf(h)), accepted, batches,
                      ov || !Survives(cfg, ring, s.mem.buf, HeaderOf(h)));
  }

  // ---------------------------------------------------------------- the ring's side

  lemma FirstPlaced(cfg: Config, f: Frame)
    requires cfg.maxCap <= 128 && Legal(cfg, f) && cfg.prefix + 2 + |f| <= cfg.maxCap
    ensures Alloc(cfg, Init(cfg), f)
         == Placed(Flat(cfg.maxCap, cfg.prefix, cfg.prefix, cfg.prefix + 2 + |f|, [f]), cfg.prefix, true)
  {
    assert [] + [f] == [f];
  }

  lemma SecondPlaced(cfg: Config, r: Ring, f: Frame)
    requires r == Flat(r.cap, r.sent, r.sendEnd, r.write, []) && BipRing.Valid(cfg, r)
    requires r.cap > 0 && r.write + 2 + |f| <= r.cap && Legal(cfg, f)
    ensures Alloc(cfg, r, f) == Placed(Flat(r.cap, r.sent, r.sendEnd, r.write + 2 + |f|, [f]), r.write, false)
  {
    assert [] + [f] == [f];
  }

  lemma SoleTaken(cfg: Config, r: Ring, f: Frame)
    requires r == Flat(r.cap, r.sent, r.sendEnd, r.write, [f]) && BipRing.Valid(cfg, r) && cfg.suffix == 0
    ensures BipRing.Take(cfg, r) == Taken(Flat(r.cap, r.sendEnd, r.write, r.write, []), [f])
  {
    ConfirmedKeepsQueue(cfg, r);
    assert [f][..1] == [f] && [f][1..] == [];
    SizeSnoc([], f);
    assert [] + [f] == [f];
  }

  /** Above there is no room for f; below it ends right where the batch in flight starts. */
  lemma WrapPlaced(cfg: Config, r: Ring, f: Frame)
    requires r == Flat(r.cap, r.sent, r.sendEnd, r.write, []) && BipRing.Valid(cfg, r) && Legal(cfg, f)
    requires r.cap > 0 && r.write + 2 + |f| > r.cap && cfg.prefix + 2 + |f| == r.sent
    ensures Alloc(cfg, r, f)
         == Placed(Ring(r.cap, r.sent, r.sendEnd, r.sent, r.write, 0, [], [f]), cfg.prefix, false)
  {
  }

  lemma WrappedTaken(cfg: Config, r: Ring, f: Frame)
    requires r == Ring(r.cap, r.sent, r.sendEnd, r.write, r.sendEnd, 0, [], [f]) && BipRing.Valid(cfg, r)
    requires cfg.suffix == 0
    ensures Confirmed(cfg, r) == Flat(r.cap, cfg.prefix, cfg.prefix, r.write, [f])
    ensures BipRing.Take(cfg, r) == Taken(Flat(r.cap, cfg.prefix, r.write, r.write, []), [f])
  {
    ConfirmedKeepsQueue(cfg, r);
    SoleTaken(cfg, Confirmed(cfg, r), f);
    assert Confirmed(cfg, Confirmed(cfg, r)) == Confirmed(cfg, r);
  }

  // ---------------------------------------------------------------- the run

  ghost predicate Spoiling(cfg: Config, e: Frame, f: Frame, g: Frame) {
    HeaderRoom(cfg) && TightFit(cfg, f, g) && |e| == |f| && |f| >= 2
  }

  /** f with the two-byte header of the batch [g] for its last two bytes. */
  function Spoiled(f: Frame, g: Frame): (s: Frame)
    requires |f| >= 2 && |g| <= 123
    ensures |s| == |f|
  {
    f[..|f| - 2] + WebSocket.Header(2, 2 + |g|, None)
  }

  function Two(e: Frame): seq<Step> { [Push(e, 0)] + [Take(0)] }

  function Five(e: Frame, g: Frame): seq<Step> { Two(e) + [Push(g, 1)] + [Head(0)] + [Send(0)] }

  function Seven(e: Frame, f: Frame, g: Frame): seq<Step> { Five(e, g) + [Take(0)] + [Push(f, 2)] }

  /** Two rounds, then f pushed while g is in flight, and then the header of g. */
  function SpoilingRun(e: Frame, f: Frame, g: Frame): seq<Step> {
    Seven(e, f, g) + [Head(0)] + [Send(0)] + [Take(0)] + [Head(0)] + [Send(0)]
  }

  lemma SpoilingRunOk(cfg: Config, e: Frame, f: Frame, g: Frame)
    ensures StepsOk(cfg, SpoilingRun(e, f, g))
  {
  }

  ghost function Outcome(cfg: Config, e: Frame, f: Frame, g: Frame): State
    requires Spoiling(cfg, e, f, g)
  {
    SpoilingRunOk(cfg, e, f, g);
    WireRun.Exec(cfg, SpoilingRun(e, f, g))
  }

  lemma AfterTwo(cfg: Config, e: Frame)
    requires HeaderRoom(cfg) && cfg.suffix == 0 && cfg.maxCap <= 128 && Legal(cfg, e)
    requires cfg.prefix + 2 + |e| <= cfg.maxCap
    ensures var mid := cfg.prefix + 2 + |e|;
      Is(WireRun.Exec(cfg, Two(e)), Flat(cfg.maxCap, cfg.prefix, mid, mid, []), [e],
         Some(Hand(cfg.prefix, mid, None, [])), [e], [], false)
  {
    hide WireRun.Exec;
    hide Next;
    hide Inv;
    var ring := Flat(cfg.maxCap, cfg.prefix, cfg.prefix, cfg.prefix + 2 + |e|, [e]);
    FirstPlaced(cfg, e);
    FirstPush(cfg, e);
    AllocIsValid(cfg, Init(cfg), e, 0);
    SoleTaken(cfg, ring, e);
    AfterTake(cfg, [Push(e, 0)], ring, [e], [], false);
  }

  lemma AfterFive(cfg: Config, e: Frame, f: Frame, g: Frame)
    requires Spoiling(cfg, e, f, g)
    ensures var mid := cfg.prefix + 2 + |e|;
      Is(WireRun.Exec(cfg, Five(e, g)), Flat(cfg.maxCap, cfg.prefix, mid, mid + 2 + |g|, [g]), [], None, [e, g], [[e]],
         false)
  {
    hide WireRun.Exec;
    hide Next;
    hide Inv;
    var mid := cfg.prefix + 2 + |e|;
    var ring, h := Flat(cfg.maxCap, cfg.prefix, mid, mid, []), Hand(cfg.prefix, mid, None, []);
    AfterTwo(cfg, e);
    SecondPlaced(cfg, ring, g);
    AfterPush(cfg, Two(e), ring, [e], Some(h), [e], [], g, 1);
    var steps := Two(e) + [Push(g, 1)];
    var third := Flat(cfg.maxCap, cfg.prefix, mid, mid + 2 + |g|, [g]);
    var _ := AfterWrite(cfg, steps, WireRun.Exec(cfg, steps), third, [e], h, [e] + [g], [], false);
    assert [e] + [g] == [e, g] && [] + [[e]] == [[e]];
  }

  lemma AfterSeven(cfg: Config, e: Frame, f: Frame, g: Frame)
    requires Spoiling(cfg, e, f, g)
    ensures var mid, end := cfg.prefix + 2 + |f|, cfg.prefix + 4 + |f| + |g|;
      Is(WireRun.Exec(cfg, Seven(e, f, g)), Ring(cfg.maxCap, mid, end, mid, end, 0, [], [f]), [g],
         Some(Hand(mid, end, None, [])), [e, g, f], [[e]], false)
  {
    hide WireRun.Exec;
    hide Next;
    hide Inv;
    var mid, end := cfg.prefix + 2 + |f|, cfg.prefix + 4 + |f| + |g|;
    AfterFive(cfg, e, f, g);
    SizeSnoc([], g);
    assert [] + [g] == [g];
    var third := Flat(cfg.maxCap, cfg.prefix, mid, end, [g]);
    SoleTaken(cfg, third, g);
    AfterTake(cfg, Five(e, g), third, [e, g], [[e]], false);
    var fourth := Flat(cfg.maxCap, mid, end, end, []);
    WrapPlaced(cfg, fourth, f);
    AfterPush(cfg, Five(e, g) + [Take(0)], fourth, [g], Some(Hand(mid, end, None, [])), [e, g], [[e]], f, 2);
    assert [e, g] + [f] == [e, g, f];
  }

  /** Over frame f, right-aligned with it, the header of [g] takes f's last two bytes. */
  lemma SpoiledInArray(b: seq<byte>, at: nat, f: Frame, g: Frame)
    requires |f| >= 2 && |g| <= 123 && at + 2 + |f| <= |b| && b[at..at + 2 + |f|] == EncodeFrame(f)
    ensures var head := WebSocket.Header(2, 2 + |g|, None);
      && |head| == 2
      && Overwrite(b, at + |f|, head)[at..at + 2 + |f|] == EncodeFrame(Spoiled(f, g))
  {
    var head := WebSocket.Header(2, 2 + |g|, None);
    var now := Overwrite(b, at + |f|, head);
    SliceJoin(now, at, at + |f|, at + 2 + |f|);
    SameSlice(b, now, at + |f|, at + 2 + |f|, at, at + |f|);
    SliceOfSlice(b, at, at + 2 + |f|, 0, |f|);
    assert EncodeFrame(f)[0..|f|] == Le16(|f|) + f[..|f| - 2];
    Associative(Le16(|f|), f[..|f| - 2], head);
  }

  lemma SoleAlignedEnd(cfg: Config, b: seq<byte>, at: nat, f: Frame)
    requires at + 2 + |f| <= |b| && b[at..at + 2 + |f|] == EncodeFrame(f) && Legal(cfg, f)
    ensures AlignedEnd(cfg, b, at, at, at + 2 + |f|) == at + 2 + |f|
  {
    FrameHeader(b, at, f);
  }

  /** As long as nothing is spoiled, array and socket hold what they should. */
  lemma HeldAt(cfg: Config, s: State, f: Frame, g: Frame, accepted: seq<Frame>, batches: seq<seq<Frame>>)
    requires Inv(cfg, s)
    requires var mid, end := cfg.prefix + 2 + |f|, cfg.prefix + 4 + |f| + |g|;
      Is(s, Ring(cfg.maxCap, mid, end, mid, end, 0, [], [f]), [g], Some(Hand(mid, end, None, [])), accepted, batches,
         false)
    ensures var at, mid := cfg.prefix, cfg.prefix + 2 + |f|;
      && mid + 2 + |g| <= |s.mem.buf|
      && s.mem.buf[at..mid] == EncodeFrame(f) && s.mem.buf[mid..mid + 2 + |g|] == EncodeFrame(g)
      && s.socket == Streamed(batches)
  {
    WriteBuf.InHandIs(s.base, 0);
    EncodeOne(f);
    EncodeOne(g);
    hide WriteBuf.Inv;
    hide History;
    hide Streamed;
    hide Encode;
    hide EncodeFrame;
  }

  lemma EncodeOne(f: Frame)
    ensures Encode([f]) == EncodeFrame(f)
  {
    assert [f][1..] == [] && EncodeFrame(f) + [] == EncodeFrame(f);
  }

  /** A header and one frame behind it are one message on the socket. */
  lemma OneMore(b: seq<byte>, head: nat, lo: nat, hi: nat, batches: seq<seq<Frame>>, f: Frame)
    requires head <= lo <= hi <= |b| && hi == lo + 2 + |f| && b[lo..hi] == EncodeFrame(f)
    requires b[lo - head..lo] == WebSocket.Header(2, hi - lo, None)
    ensures Streamed(batches) + b[lo - head..hi] == Streamed(batches + [[f]])
  {
    EncodeOne(f);
    SliceJoin(b, lo - head, lo, hi);
    StreamedSnoc(batches, [f]);
  }

  /** With nothing queued below the slice there is nothing for its header to change. */
  lemma UnwrappedSurvives(cfg: Config, r: Ring, b: seq<byte>, head: seq<byte>)
    requires BipRing.Valid(cfg, r) && |b| == r.cap > 0 && |head| <= cfg.prefix && r.tailEnd == 0
    ensures Survives(cfg, r, b, head)
  {
  }

  lemma EndingIsOwn(f: seq<byte>, k: nat, end: seq<byte>)
    requires k + |end| == |f|
    ensures f[..k] + end == f <==> end == f[k..]
  {
    assert f == f[..k] + f[k..];
    TakeDropConcat(f[..k], end);
  }

  /** The queue survives the header of [g] exactly if the header's bytes are f's last two. */
  lemma SurvivesIffOwn(cfg: Config, r: Ring, b: seq<byte>, f: Frame, g: Frame)
    requires BipRing.Valid(cfg, r) && |b| == r.cap > 0 && cfg.prefix >= 4 && |f| >= 2 && |g| <= 123
    requires r.tailEnd > 0 && r.write == r.sent == cfg.prefix + 2 + |f|
    requires r.write <= |b| && b[cfg.prefix..r.write] == EncodeFrame(f)
    ensures |WebSocket.Header(2, 2 + |g|, None)| == 2
    ensures Survives(cfg, r, b, WebSocket.Header(2, 2 + |g|, None)) <==> Spoiled(f, g) == f
  {
    var head, at := WebSocket.Header(2, 2 + |g|, None), cfg.prefix;
    SliceOfSlice(b, at, r.write, |f|, 2 + |f|);
    SliceOfSlice(Le16(|f|) + f, 0, 2 + |f|, |f|, 2 + |f|);
    assert b[r.write - 2..r.write] == f[|f| - 2..];
    assert head[0..2] == head;
    EndingIsOwn(f, |f| - 2, head);
    hide WebSocket.Header;
    hide EncodeFrame;
    hide Le16;
  }

  /** The header of [g] goes over the last two bytes of f. */
  lemma AfterNine(cfg: Config, e: Frame, f: Frame, g: Frame)
    requires Spoiling(cfg, e, f, g)
    ensures var s, mid, end := WireRun.Exec(cfg, Seven(e, f, g) + [Head(0)] + [Send(0)]), cfg.prefix + 2 + |f|,
                               cfg.prefix + 4 + |f| + |g|;
      && Is(s, Ring(cfg.maxCap, mid, end, mid, end, 0, [], [f]), [], None, [e, g, f], [[e], [g]], Spoiled(f, g) != f)
      && mid <= |s.mem.buf| && s.mem.buf[cfg.prefix..mid] == EncodeFrame(Spoiled(f, g))
      && s.socket == Streamed([[e], [g]])
  {
    hide WireRun.Exec;
    hide Next;
    hide Inv;
    hide Spoiled;
    hide Streamed;
    hide EncodeFrame;
    hide WebSocket.Header;
    var mid, end := cfg.prefix + 2 + |f|, cfg.prefix + 4 + |f| + |g|;
    var h, s := Hand(mid, end, None, []), WireRun.Exec(cfg, Seven(e, f, g));
    AfterSeven(cfg, e, f, g);
    HeldAt(cfg, s, f, g, [e, g, f], [[e]]);
    var _ := AfterWrite(cfg, Seven(e, f, g), s, Ring(cfg.maxCap, mid, end, mid, end, 0, [], [f]), [g], h, [e, g, f],
                        [[e]], false);
    SpoiledInArray(s.mem.buf, cfg.prefix, f, g);
    SurvivesIffOwn(cfg, Ring(cfg.maxCap, mid, end, mid, end, 0, [], [f]), s.mem.buf, f, g);
    hide Survives;
    var now := Overwrite(s.mem.buf, mid - 2, HeaderOf(h));
    SameSlice(s.mem.buf, now, mid - 2, mid, mid, end);
    OneMore(now, 2, mid, end, [[e]], g);
    assert [[e]] + [[g]] == [[e], [g]];
  }

  /** What is left of f is taken as if nothing had happened. */
  lemma AfterTen(cfg: Config, e: Frame, f: Frame, g: Frame)
    requires Spoiling(cfg, e, f, g)
    ensures var s, mid := WireRun.Exec(cfg, Seven(e, f, g) + [Head(0)] + [Send(0)] + [Take(0)]), cfg.prefix + 2 + |f|;
      && Is(s, Flat(cfg.maxCap, cfg.prefix, mid, mid, []), [f], Some(Hand(cfg.prefix, mid, None, [])), [e, g, f],
            [[e], [g]], Spoiled(f, g) != f)
      && mid <= |s.mem.buf| && s.mem.buf[cfg.prefix..mid] == EncodeFrame(Spoiled(f, g))
      && s.socket == Streamed([[e], [g]])
  {
    hide WireRun.Exec;
    hide Spoiled;
    hide EncodeFrame;
    hide Streamed;
    hide Next;
    hide Inv;
    var mid, end := cfg.prefix + 2 + |f|, cfg.prefix + 4 + |f| + |g|;
    var nine, ring := Seven(e, f, g) + [Head(0)] + [Send(0)], Ring(cfg.maxCap, mid, end, mid, end, 0, [], [f]);
    AfterNine(cfg, e, f, g);
    WrappedTaken(cfg, ring, f);
    SoleAlignedEnd(cfg, WireRun.Exec(cfg, nine).mem.buf, cfg.prefix, Spoiled(f, g));
    AfterTake(cfg, nine, ring, [e, g, f], [[e], [g]], Spoiled(f, g) != f);
  }

  /**
   * With guards that compare with Sent, frame f leaves the server with a header for its last two bytes: accepted whole,
   * taken whole, and spoiled in the array in between, unless those two bytes are its own. Sizes as in
   * RingScratch.GuardsAsWrittenOverlap, so the server's own cap is no protection.
   */
  lemma HeaderSpoilsFrame(cfg: Config, e: Frame, f: Frame, g: Frame)
    requires Spoiling(cfg, e, f, g)
    ensures var s := Outcome(cfg, e, f, g);
      && (s.mem.spoiled <==> Spoiled(f, g) != f) && !s.failed && !s.derailed
      && s.base.accepted == [e, g, f] && s.batches == [[e], [g], [f]]
      && s.socket == Streamed([[e], [g], [Spoiled(f, g)]])
  {
    hide WireRun.Exec;
    hide Next;
    hide Inv;
    var at, mid := cfg.prefix, cfg.prefix + 2 + |f|;
    var ten, h := Seven(e, f, g) + [Head(0)] + [Send(0)] + [Take(0)], Hand(at, mid, None, []);
    AfterTen(cfg, e, f, g);
    var s := WireRun.Exec(cfg, ten);
    hide Spoiled;
    hide Streamed;
    hide EncodeFrame;
    var _ := AfterWrite(cfg, ten, s, Flat(cfg.maxCap, at, mid, mid, []), [f], h, [e, g, f], [[e], [g]],
                        Spoiled(f, g) != f);
    UnwrappedSurvives(cfg, Flat(cfg.maxCap, at, mid, mid, []), s.mem.buf, HeaderOf(h));
    hide Survives;
    var now := Overwrite(s.mem.buf, at - |HeaderOf(h)|, HeaderOf(h));
    SameSlice(s.mem.buf, now, at - |HeaderOf(h)|, at, at, mid);
    OneMore(now, |HeaderOf(h)|, at, mid, [[e], [g]], Spoiled(f, g));
    assert [[e], [g]] + [[f]] == [[e], [g], [f]];
    assert [[e], [g]] + [[Spoiled(f, g)]] == [[e], [g], [Spoiled(f, g)]];
  }
}
