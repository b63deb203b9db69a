/** The header scratch in front of a batch in flight, and whether queued bytes can reach it. */
module RingScratch {
  import opened Frames
  import opened BipRing

  /** Some byte of [sent - prefix, sent), where the header of the batch in flight goes, holds queued data. */
  ghost predicate Overlaps(cfg: Config, r: Ring)
    requires Valid(cfg, r)
  {
    exists i :: r.sent - cfg.prefix <= i < r.sent && Queued(cfg, r, i)
  }

  /** Position i of the array holds a queued byte. */
  predicate Queued(cfg: Config, r: Ring, i: int) {
    if r.tailEnd == 0 then r.sendEnd + r.pendingGap <= i < r.write
    else r.sendEnd + r.pendingGap <= i < r.tailEnd || cfg.prefix <= i < r.write
  }

  /** The test on cursors that decides it. */
  predicate Separated(cfg: Config, r: Ring) {
    cfg.prefix == 0 || r.tailEnd == 0 || r.write + cfg.prefix <= r.sent
  }

  lemma SeparatedMeansDisjoint(cfg: Config, r: Ring)
    requires Valid(cfg, r)
    ensures Separated(cfg, r) <==> !Overlaps(cfg, r)
  {
    if !Separated(cfg, r) {
      SizeNonempty(r.back);
      assert Queued(cfg, r, r.write - 1);
    }
  }

  /** The payload and the granted footer scratch never hold queued bytes. */
  lemma PayloadAndFooterAreDisjoint(cfg: Config, r: Ring, i: int)
    requires Valid(cfg, r) && r.sent <= i < r.sendEnd + r.pendingGap
    ensures !Queued(cfg, r, i)
  {
  }

  /** The frame lands in the lower stretch and reaches into the scratch: the source's guards let this through. */
  predicate LandsInScratch(cfg: Config, r: Ring, f: Frame) {
    var total := 2 + |f|;
    && cfg.prefix > 0 && r.cap > 0
    && (if r.tailEnd == 0 then
          r.write + total > r.cap && cfg.prefix + total <= r.sent < cfg.prefix + total + cfg.prefix
        else
          r.write + total <= r.sent < r.write + total + cfg.prefix)
  }

  /** Allocation keeps the header scratch clear of queued bytes exactly when the frame does not land in it. */
  lemma AllocKeepsScratchClear(cfg: Config, r: Ring, f: Frame)
    requires Valid(cfg, r) && Alloc(cfg, r, f).Placed? && !Overlaps(cfg, r)
    ensures var next := Alloc(cfg, r, f).ring;
      Valid(cfg, next) && (!Overlaps(cfg, next) <==> !LandsInScratch(cfg, r, f))
  {
    AllocIsValid(cfg, r, f, 0);
    SeparatedMeansDisjoint(cfg, r);
    SeparatedMeansDisjoint(cfg, Alloc(cfg, r, f).ring);
  }

  /**
   * The scratch of a batch just taken is clear exactly when the ring is not (or no longer) wrapped, or the wrapped
   * data ends Prefix bytes before the new batch.
   */
  lemma TakeScratchClear(cfg: Config, r: Ring)
    requires Valid(cfg, r) && cfg.prefix > 0 && r.Queue() != []
    ensures var next := Take(cfg, r).ring;
      Valid(cfg, next)
      && (!Overlaps(cfg, next) <==>
            r.tailEnd == 0 || r.front == [] || r.write + cfg.prefix <= r.sendEnd + r.pendingGap)
  {
    TakeRemovesPrefix(cfg, r);
    SeparatedMeansDisjoint(cfg, Take(cfg, r).ring);
    ConfirmedKeepsQueue(cfg, r);
    SizeNonempty(r.front);
  }

  /** In particular it is clear whenever the previous batch and its gap were at least Prefix bytes long. */
  lemma LongBatchLeavesRoom(cfg: Config, r: Ring)
    requires Valid(cfg, r) && r.Queue() != []
    requires r.sendEnd + r.pendingGap - r.sent >= cfg.prefix
    ensures Valid(cfg, Take(cfg, r).ring) && !Overlaps(cfg, Take(cfg, r).ring)
  {
    if cfg.prefix > 0 {
      TakeScratchClear(cfg, r);
    } else {
      TakeRemovesPrefix(cfg, r);
      SeparatedMeansDisjoint(cfg, Take(cfg, r).ring);
    }
  }

  /** With guards that leave Prefix bytes below Sent, the scratch stays clear in every state of every run. */
  lemma {:induction false} GuardsWithPrefixKeepScratchClear(cfg: Config, ops: seq<Op>)
    ensures !Overlaps(cfg, Exec(cfg, ops, cfg.prefix).ring)
    decreases |ops|
  {
    var s := Exec(cfg, ops, cfg.prefix);
    SeparatedMeansDisjoint(cfg, s.ring);
    if ops != [] {
      var before := Exec(cfg, ops[..|ops| - 1], cfg.prefix);
      GuardsWithPrefixKeepScratchClear(cfg, ops[..|ops| - 1]);
      SeparatedMeansDisjoint(cfg, before.ring);
      StepStaysSeparated(cfg, before, ops[|ops| - 1]);
    }
  }

  lemma StepStaysSeparated(cfg: Config, s: Run, op: Op)
    requires RunInv(cfg, s) && Separated(cfg, s.ring)
    ensures Separated(cfg, Step(cfg, s, op, cfg.prefix).ring)
  {
    SizeNonempty(s.ring.front);
  }

  /** Sizes for which two rounds leave room for g but not for f above the batch in flight. */
  predicate TightFit(cfg: Config, f: Frame, g: Frame) {
    && cfg.suffix == 0 && cfg.prefix > 0 && cfg.maxCap <= 128 && Legal(cfg, f) && Legal(cfg, g)
    && cfg.prefix + 2 + |f| + 2 + |g| <= cfg.maxCap < cfg.prefix + 2 + |f| + 2 + |g| + 2 + |f|
  }

  /**
   * The guards as written: Alloc f, Take, Alloc g, Take, Alloc f wraps f right up to Sent, over the whole header
   * scratch of the batch g in flight. Prefix 4, capacity 128, |f| = 54 and |g| = 38 are such sizes, with the cap of
   * 65532 that the server sets or with none.
   */
  lemma GuardsAsWrittenOverlap(cfg: Config, f: Frame, g: Frame)
    requires TightFit(cfg, f, g)
    ensures var s := Exec(cfg, [DoAlloc(f), DoTake, DoAlloc(g), DoTake, DoAlloc(f)]);
      && s.accepted == [f, g, f] && s.ring.Queue() == [f]
      && s.ring.sent == s.ring.write == cfg.prefix + 2 + |f| && s.ring.sendEnd == s.ring.sent + 2 + |g|
      && Overlaps(cfg, s.ring)
  {
    var mid := cfg.prefix + 2 + |f|;
    var end := mid + 2 + |g|;
    ThirdStep(cfg, f, g);
    var ops := [DoAlloc(f), DoTake, DoAlloc(g)];
    var s3 := Exec(cfg, ops);
    ExecSnoc(cfg, ops, DoTake, 0);
    TakeSole(cfg, s3, g);
    var s4 := Step(cfg, s3, DoTake);
    assert s4.ring == Ring(cfg.maxCap, mid, end, end, 0, 0, [], []);
    ExecSnoc(cfg, ops + [DoTake], DoAlloc(f), 0);
    assert ops + [DoTake] + [DoAlloc(f)] == [DoAlloc(f), DoTake, DoAlloc(g), DoTake, DoAlloc(f)];
    var s5 := Step(cfg, s4, DoAlloc(f));
    assert s5.ring == Ring(cfg.maxCap, mid, end, mid, end, 0, [], [f]);
    SeparatedMeansDisjoint(cfg, s5.ring);
  }

  lemma ThirdStep(cfg: Config, f: Frame, g: Frame)
    requires TightFit(cfg, f, g)
    ensures var mid := cfg.prefix + 2 + |f|;
      Exec(cfg, [DoAlloc(f), DoTake, DoAlloc(g)])
      == Run(Ring(cfg.maxCap, cfg.prefix, mid, mid + 2 + |g|, 0, 0, [g], []), [f, g], [f])
  {
    ExecSnoc(cfg, [], DoAlloc(f), 0);
    assert [] + [DoAlloc(f)] == [DoAlloc(f)];
    var s1 := Exec(cfg, [DoAlloc(f)]);
    FirstAlloc(cfg, f);
    ExecSnoc(cfg, [DoAlloc(f)], DoTake, 0);
    TakeSole(cfg, s1, f);
    var s2 := Step(cfg, s1, DoTake);
    ExecSnoc(cfg, [DoAlloc(f)] + [DoTake], DoAlloc(g), 0);
    assert [DoAlloc(f)] + [DoTake] + [DoAlloc(g)] == [DoAlloc(f), DoTake, DoAlloc(g)];
    assert [] + [g] == [g] && [f] + [g] == [f, g] && [] + [f] == [f];
  }

  lemma FirstAlloc(cfg: Config, f: Frame)
    requires cfg.maxCap <= 128 && Legal(cfg, f) && cfg.prefix + 2 + |f| <= cfg.maxCap
    ensures Step(cfg, Run(Init(cfg), [], []), DoAlloc(f))
         == Run(Ring(cfg.maxCap, cfg.prefix, cfg.prefix, cfg.prefix + 2 + |f|, 0, 0, [f], []), [f], [])
  {
    assert [] + [f] == [f];
  }

  lemma TakeSole(cfg: Config, s: Run, f: Frame)
    requires RunInv(cfg, s) && cfg.suffix == 0 && Legal(cfg, f)
    requires s.ring.front == [f] && s.ring.tailEnd == 0 && s.ring.pendingGap == 0
    ensures Step(cfg, s, DoTake)
         == Run(s.ring.(sent := s.ring.sendEnd, sendEnd := s.ring.write, front := []), s.accepted, s.delivered + [f])
  {
    assert [f][..1] == [f] && [f][1..] == [];
    SizeSnoc([], f);
    assert [] + [f] == [f];
  }
}
