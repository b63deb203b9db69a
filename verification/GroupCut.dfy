/**
 * A run in which pushMsgsAtomic is not atomic: real messages, the server's cap, and a group that passes the capacity
 * check and is cut.
 */
module GroupCut {
  import opened BipRing
  import opened Chunks
  import opened Frames
  import opened Packing
  import opened RingGroups
  import Codec
  import WriteBuf

  /** A buffer of four of the longest frames, with the server's cap. */
  const FOUR_FRAMES := Config(262132, 4, 0, 65532)

  const LONGEST: int := 65530

  /** Before anything has been taken, a frame goes above, in the same array or in a larger one. */
  lemma PlacedAbove(cfg: Config, r: Ring, f: Frame)
    requires Valid(cfg, r) && Legal(cfg, f) && r.write + 2 + |f| <= cfg.maxCap
    requires r == Flat(r.cap, cfg.prefix, cfg.prefix, r.write, r.front)
    ensures var p := Alloc(cfg, r, f);
      && p.Placed? && Valid(cfg, p.ring) && r.write + 2 + |f| <= p.ring.cap <= cfg.maxCap
      && p.ring == Flat(p.ring.cap, cfg.prefix, cfg.prefix, r.write + 2 + |f|, r.front + [f])
  {
    AllocIsValid(cfg, r, f, 0);
    assert r.front + [] == r.front;
  }

  /** A take that ends after the first frame, because the second would exceed the cap. */
  lemma FirstTaken(cfg: Config, r: Ring, f: Frame, rest: seq<Frame>)
    requires Valid(cfg, r) && r == Flat(r.cap, r.sent, r.sendEnd, r.write, [f] + rest)
    requires rest != [] && 2 + |f| + 2 + |rest[0]| > cfg.maxFramePayload > 0
    ensures BipRing.Take(cfg, r) == Taken(Flat(r.cap, r.sendEnd, r.sendEnd + 2 + |f|, r.write, rest), [f])
  {
    var fs := [f] + rest;
    ConfirmedKeepsQueue(cfg, r);
    assert Legal(cfg, fs[0]) && fs[1..] == rest && fs[..1] == [f];
    assert Fit(fs, cfg.maxFramePayload) == 1 + Fit(rest, cfg.maxFramePayload - 2 - |f|);
    SizeSplit(fs, 1);
    SizeSnoc([], f);
    assert [] + [f] == [f];
    SizeNonempty(rest);
  }

  /** A connection that works: writer 0 holds `batch`. */
  predicate Steady(s: WriteBuf.State, ring: Ring, batch: seq<Frame>, accepted: seq<Frame>) {
    s == WriteBuf.State(ring, true, false, map[0 := batch], accepted, s.written)
  }

  predicate StepsOk(cfg: Config, steps: seq<WriteBuf.Step>) {
    forall i :: 0 <= i < |steps| ==> WriteBuf.StepOk(cfg, steps[i])
  }

  lemma ExecSnoc(cfg: Config, steps: seq<WriteBuf.Step>, step: WriteBuf.Step)
    requires StepsOk(cfg, steps) && WriteBuf.StepOk(cfg, step)
    ensures StepsOk(cfg, steps + [step])
    ensures WriteBuf.Exec(cfg, steps + [step]) == WriteBuf.Next(cfg, WriteBuf.Exec(cfg, steps), step)
  {
    assert (steps + [step])[..|steps|] == steps;
  }

  /** The buffer holds fs, nothing has been taken, and the writer waits at the top of its loop. */
  predicate Filled(cfg: Config, s: WriteBuf.State, fs: seq<Frame>) {
    && Steady(s, Flat(s.ring.cap, cfg.prefix, cfg.prefix, cfg.prefix + Size(fs), fs), [], fs)
    && cfg.prefix + Size(fs) <= s.ring.cap <= cfg.maxCap
  }

  lemma FirstFilled(cfg: Config, f: Frame)
    requires Legal(cfg, f) && cfg.prefix + 2 + |f| <= cfg.maxCap
    ensures StepsOk(cfg, [WriteBuf.DoPush(f, 0)]) && Filled(cfg, WriteBuf.Exec(cfg, [WriteBuf.DoPush(f, 0)]), [f])
  {
    WriteBuf.StartInv(cfg);
    PlacedAbove(cfg, Init(cfg), f);
    ExecSnoc(cfg, [], WriteBuf.DoPush(f, 0));
    assert [] + [WriteBuf.DoPush(f, 0)] == [WriteBuf.DoPush(f, 0)];
    SizeSnoc([], f);
    assert [] + [f] == [f];
  }

  lemma PushSteady(cfg: Config, s: WriteBuf.State, ring: Ring, accepted: seq<Frame>, f: Frame, w: nat)
    requires Valid(cfg, ring) && Steady(s, ring, [], accepted) && w != 0 && Alloc(cfg, ring, f).Placed?
    ensures Steady(WriteBuf.Next(cfg, s, WriteBuf.DoPush(f, w)), Alloc(cfg, ring, f).ring, [], accepted + [f])
  {
  }

  lemma NextFilled(cfg: Config, steps: seq<WriteBuf.Step>, fs: seq<Frame>, f: Frame, w: nat)
    requires StepsOk(cfg, steps) && Filled(cfg, WriteBuf.Exec(cfg, steps), fs) && w != 0
    requires Legal(cfg, f) && cfg.prefix + Size(fs) + 2 + |f| <= cfg.maxCap
    ensures StepsOk(cfg, steps + [WriteBuf.DoPush(f, w)])
    ensures Filled(cfg, WriteBuf.Exec(cfg, steps + [WriteBuf.DoPush(f, w)]), fs + [f])
  {
    hide WriteBuf.Next;
    var s := WriteBuf.Exec(cfg, steps);
    ExecSnoc(cfg, steps, WriteBuf.DoPush(f, w));
    PlacedAbove(cfg, s.ring, f);
    PushSteady(cfg, s, s.ring, fs, f, w);
    SizeSnoc(fs, f);
  }

  lemma TakenIs(cfg: Config, s: WriteBuf.State, ring: Ring, accepted: seq<Frame>)
    requires Valid(cfg, ring) && Steady(s, ring, [], accepted) && BipRing.Take(cfg, ring).batch != []
    ensures var t := BipRing.Take(cfg, ring);
      Steady(WriteBuf.Next(cfg, s, WriteBuf.DoTakeBatch(0)), t.ring, t.batch, accepted)
  {
    assert map[0 := []][0 := BipRing.Take(cfg, ring).batch] == map[0 := BipRing.Take(cfg, ring).batch];
  }

  lemma TakeSteady(cfg: Config, steps: seq<WriteBuf.Step>, ring: Ring, accepted: seq<Frame>)
    requires StepsOk(cfg, steps) && Steady(WriteBuf.Exec(cfg, steps), ring, [], accepted)
    requires Valid(cfg, ring) && BipRing.Take(cfg, ring).batch != []
    ensures StepsOk(cfg, steps + [WriteBuf.DoTakeBatch(0)])
    ensures var t := BipRing.Take(cfg, ring);
      Steady(WriteBuf.Exec(cfg, steps + [WriteBuf.DoTakeBatch(0)]), t.ring, t.batch, accepted)
  {
    hide WriteBuf.Next;
    ExecSnoc(cfg, steps, WriteBuf.DoTakeBatch(0));
    TakenIs(cfg, WriteBuf.Exec(cfg, steps), ring, accepted);
  }

  lemma WrittenIs(cfg: Config, s: WriteBuf.State, ring: Ring, batch: seq<Frame>, accepted: seq<Frame>)
    requires Valid(cfg, ring) && Steady(s, ring, batch, accepted) && batch != []
    ensures Steady(WriteBuf.Next(cfg, s, WriteBuf.DoWritten(0)), ring, [], accepted)
  {
    assert map[0 := batch][0 := []] == map[0 := []];
  }

  lemma WrittenSteady(cfg: Config, steps: seq<WriteBuf.Step>, ring: Ring, batch: seq<Frame>, accepted: seq<Frame>)
    requires StepsOk(cfg, steps) && Steady(WriteBuf.Exec(cfg, steps), ring, batch, accepted) && batch != []
    ensures StepsOk(cfg, steps + [WriteBuf.DoWritten(0)])
    ensures Steady(WriteBuf.Exec(cfg, steps + [WriteBuf.DoWritten(0)]), ring, [], accepted)
  {
    hide WriteBuf.Next;
    ExecSnoc(cfg, steps, WriteBuf.DoWritten(0));
    WrittenIs(cfg, WriteBuf.Exec(cfg, steps), ring, batch, accepted);
  }

  // ---------------------------------------------------------------- the run

  /** Four messages that fill the longest frame. */
  predicate Longest(us: seq<Value>) {
    |us| == 4 && forall i :: 0 <= i < 4 ==> Fits(Whole(us[i])) && |FrameOf(Whole(us[i]))| == LONGEST
  }

  function F(us: seq<Value>, i: nat): (f: Frame)
    requires Longest(us) && i < 4
    ensures |f| == LONGEST
  {
    FrameOf(Whole(us[i]))
  }

  function Pushes(us: seq<Value>): seq<WriteBuf.Step>
    requires Longest(us)
  {
    [WriteBuf.DoPush(F(us, 0), 0)] + [WriteBuf.DoPush(F(us, 1), 1)] + [WriteBuf.DoPush(F(us, 2), 1)]
    + [WriteBuf.DoPush(F(us, 3), 1)]
  }

  /** All four pushed, the first written, the second on its way. */
  function FillingRun(us: seq<Value>): seq<WriteBuf.Step>
    requires Longest(us)
  {
    Pushes(us) + [WriteBuf.DoTakeBatch(0)] + [WriteBuf.DoWritten(0)] + [WriteBuf.DoTakeBatch(0)]
  }

  lemma AfterPushes(us: seq<Value>)
    requires Longest(us)
    ensures var fs := [F(us, 0), F(us, 1), F(us, 2), F(us, 3)];
      && StepsOk(FOUR_FRAMES, Pushes(us)) && Size(fs) == 4 * 65532
      && Filled(FOUR_FRAMES, WriteBuf.Exec(FOUR_FRAMES, Pushes(us)), fs)
  {
    hide WriteBuf.Exec;
    FourPushed(F(us, 0), F(us, 1), F(us, 2), F(us, 3));
  }

  lemma FourPushed(f0: Frame, f1: Frame, f2: Frame, f3: Frame)
    requires |f0| == LONGEST && |f1| == LONGEST && |f2| == LONGEST && |f3| == LONGEST
    ensures var steps := [WriteBuf.DoPush(f0, 0)] + [WriteBuf.DoPush(f1, 1)] + [WriteBuf.DoPush(f2, 1)]
                         + [WriteBuf.DoPush(f3, 1)];
      && StepsOk(FOUR_FRAMES, steps) && Size([f0, f1, f2, f3]) == 4 * 65532
      && Filled(FOUR_FRAMES, WriteBuf.Exec(FOUR_FRAMES, steps), [f0, f1, f2, f3])
  {
    hide WriteBuf.Exec;
    var p0 := [WriteBuf.DoPush(f0, 0)];
    SizeSnoc([], f0);
    SizeSnoc([f0], f1);
    SizeSnoc([f0, f1], f2);
    SizeSnoc([f0, f1, f2], f3);
    assert [] + [f0] == [f0] && [f0] + [f1] == [f0, f1] && [f0, f1] + [f2] == [f0, f1, f2];
    assert [f0, f1, f2] + [f3] == [f0, f1, f2, f3];
    FirstFilled(FOUR_FRAMES, f0);
    NextFilled(FOUR_FRAMES, p0, [f0], f1, 1);
    NextFilled(FOUR_FRAMES, p0 + [WriteBuf.DoPush(f1, 1)], [f0, f1], f2, 1);
    NextFilled(FOUR_FRAMES, p0 + [WriteBuf.DoPush(f1, 1)] + [WriteBuf.DoPush(f2, 1)], [f0, f1, f2], f3, 1);
  }

  lemma AfterFilling(us: seq<Value>)
    requires Longest(us)
    ensures StepsOk(FOUR_FRAMES, FillingRun(us))
    ensures Steady(WriteBuf.Exec(FOUR_FRAMES, FillingRun(us)),
                   Flat(262132, 4 + 65532, 4 + 2 * 65532, 262132, [F(us, 2), F(us, 3)]), [F(us, 1)],
                   [F(us, 0), F(us, 1), F(us, 2), F(us, 3)])
  {
    hide WriteBuf.Exec;
    AfterPushes(us);
    FirstWritten(Pushes(us), F(us, 0), F(us, 1), F(us, 2), F(us, 3));
  }

  lemma FirstWritten(steps: seq<WriteBuf.Step>, f0: Frame, f1: Frame, f2: Frame, f3: Frame)
    requires |f0| == LONGEST && |f1| == LONGEST && |f2| == LONGEST && |f3| == LONGEST
    requires StepsOk(FOUR_FRAMES, steps) && Size([f0, f1, f2, f3]) == 4 * 65532
    requires Filled(FOUR_FRAMES, WriteBuf.Exec(FOUR_FRAMES, steps), [f0, f1, f2, f3])
    ensures var last := steps + [WriteBuf.DoTakeBatch(0)] + [WriteBuf.DoWritten(0)] + [WriteBuf.DoTakeBatch(0)];
      && StepsOk(FOUR_FRAMES, last)
      && Steady(WriteBuf.Exec(FOUR_FRAMES, last), Flat(262132, 4 + 65532, 4 + 2 * 65532, 262132, [f2, f3]), [f1],
                [f0, f1, f2, f3])
  {
    hide WriteBuf.Next;
    hide WriteBuf.Exec;
    hide Size;
    var all, cfg := [f0, f1, f2, f3], FOUR_FRAMES;
    var r1, r2 := Flat(262132, 4, 4, 262132, all), Flat(262132, 4, 4 + 65532, 262132, [f1, f2, f3]);
    assert all == [f0] + [f1, f2, f3] && [f1, f2, f3] == [f1] + [f2, f3];
    FirstTaken(cfg, r1, f0, [f1, f2, f3]);
    TakeSteady(cfg, steps, r1, all);
    WrittenSteady(cfg, steps + [WriteBuf.DoTakeBatch(0)], r2, [f0], all);
    FirstTaken(cfg, r2, f1, [f2, f3]);
    TakeSteady(cfg, steps + [WriteBuf.DoTakeBatch(0)] + [WriteBuf.DoWritten(0)], r2, all);
  }

  // ---------------------------------------------------------------- the group

  /** A value of as many bytes as the longest frame, with the metadata at most half of it: sent in two pieces. */
  predicate TwoPieces(v: Value) { MetaOk(v) && |v.liveData| == LONGEST && 2 * TailMeta(v) <= LONGEST }

  function FirstPiece(v: Value): Codec.Msg
    requires TwoPieces(v)
  {
    Codec.RoomValueMore(v.liveData[..LONGEST - TailMeta(v)])
  }

  lemma GroupOf(v: Value)
    requires TwoPieces(v)
    ensures var msgs := SendMsgs(v, LONGEST);
      && |msgs| == 2 && msgs[0] == FirstPiece(v) && AllFit(msgs)
      && |Pack(msgs)[0]| == 65533 - TailMeta(v) && |Pack(msgs)[1]| == 2 * TailMeta(v)
      && Pack(msgs)[0] == FrameOf(FirstPiece(v))
  {
    var n := LONGEST - TailMeta(v);
    var last := v.(liveData := v.liveData[n..]);
    assert Pieces(last, n) == [Whole(last)];
    var msgs := SendMsgs(v, LONGEST);
    assert msgs == [FirstPiece(v)] + [Whole(last)];
    WholeSize(last);
    Codec.SizeIsExact(FirstPiece(v));
    forall m | m in msgs ensures Fits(m) { }
    assert msgs[1..] == [Whole(last)];
  }

  lemma GroupSizes(v: Value)
    requires TwoPieces(v)
    ensures var msgs := SendMsgs(v, LONGEST);
      AllFit(msgs) && AllLegal(FOUR_FRAMES, Pack(msgs)) && Size(Pack(msgs)) == 65537 + TailMeta(v)
  {
    GroupOf(v);
    var fs := Pack(SendMsgs(v, LONGEST));
    assert fs == [] + [fs[0]] + [fs[1]];
    SizeSnoc([], fs[0]);
    SizeSnoc([] + [fs[0]], fs[1]);
  }

  /**
   * Four of the longest messages pushed, one written, one on its way: sendRoomValue's two messages for v pass the
   * capacity check, the first is placed, the second refused. A full buffer is reported, and the piece stays behind.
   */
  lemma GroupIsCut(us: seq<Value>, v: Value, w: nat)
    requires Longest(us) && TwoPieces(v)
    ensures StepsOk(FOUR_FRAMES, FillingRun(us)) && AllFit(SendMsgs(v, LONGEST))
    ensures var s, fs := WriteBuf.Exec(FOUR_FRAMES, FillingRun(us)), Pack(SendMsgs(v, LONGEST));
      && AllLegal(FOUR_FRAMES, fs) && Size(fs) <= FreeForAlloc(FOUR_FRAMES, s.ring)
      && WriteBuf.PushGroup(FOUR_FRAMES, s, fs, w).1 == WriteBuf.BufFull
      && Fits(FirstPiece(v))
      && WriteBuf.PushGroup(FOUR_FRAMES, s, fs, w).0.accepted == s.accepted + [FrameOf(FirstPiece(v))]
  {
    AfterFilling(us);
    GroupOf(v);
    GroupSizes(v);
    CutAt(us, WriteBuf.Exec(FOUR_FRAMES, FillingRun(us)), Pack(SendMsgs(v, LONGEST)), w);
  }

  lemma CutAt(us: seq<Value>, s: WriteBuf.State, fs: seq<Frame>, w: nat)
    requires Longest(us) && WriteBuf.Inv(FOUR_FRAMES, s) && |fs| == 2 && AllLegal(FOUR_FRAMES, fs)
    requires Steady(s, Flat(262132, 4 + 65532, 4 + 2 * 65532, 262132, [F(us, 2), F(us, 3)]), [F(us, 1)],
                    [F(us, 0), F(us, 1), F(us, 2), F(us, 3)])
    requires 65532 < Size(fs) <= 131064 && |fs[0]| <= 65530
    ensures Size(fs) <= FreeForAlloc(FOUR_FRAMES, s.ring)
    ensures WriteBuf.PushGroup(FOUR_FRAMES, s, fs, w).1 == WriteBuf.BufFull
    ensures WriteBuf.PushGroup(FOUR_FRAMES, s, fs, w).0.accepted == s.accepted + [fs[0]]
  {
    assert Alloc(FOUR_FRAMES, s.ring, fs[0]).Placed?;
    WriteBuf.GroupCanBeCut(FOUR_FRAMES, s, fs, w);
    assert fs[..1] == [fs[0]];
  }
}
