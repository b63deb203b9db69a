/**
 * The per-connection write buffer: pushers append frames under a lock, one writer goroutine at a time takes batches
 * and writes them outside the lock. Each locked section is one step of the machine below.
 */
module WriteBuf {
  import opened Bytes
  import opened Frames
  import opened BipRing
  import opened RingGroups

  datatype PushResult = PushOk | MsgTooLarge | Broken | BufFull

  /**
   * `writers` are the live writeLoops with the batch each is writing, [] between batches. `accepted` and `written`
   * record the frames that entered the buffer and the frames whose payload has been written.
   */
  datatype State = State(
    ring: Ring, writerRunning: bool, isBroken: bool,
    writers: map<nat, seq<Frame>>, accepted: seq<Frame>, written: seq<Frame>)

  function Start(cfg: Config): State {
    State(Init(cfg), false, false, map[], [], [])
  }

  /** `go wb.writeLoop()` unless a writer is running; w names the new goroutine. */
  function Started(s: State, w: nat): State {
    if s.writerRunning then s else s.(writerRunning := true, writers := s.writers[w := []])
  }

  /** The locked section of pushMsg. */
  function Push(cfg: Config, s: State, f: Frame, w: nat): (State, PushResult)
    requires Valid(cfg, s.ring)
  {
    if s.isBroken then (s, Broken)
    else
      match Alloc(cfg, s.ring, f)
      case Refused => (s, BufFull)
      case Placed(ring, _, _) => (Started(s.(ring := ring, accepted := s.accepted + [f]), w), PushOk)
  }

  /** The locked section of pushMsgsAtomic. A refusal in the middle leaves the frames before it in the buffer. */
  function PushGroup(cfg: Config, s: State, fs: seq<Frame>, w: nat): (State, PushResult)
    requires Valid(cfg, s.ring)
  {
    if s.isBroken then (s, Broken)
    else if Size(fs) > FreeForAlloc(cfg, s.ring) then (s, BufFull)
    else
      var (ring, n) := AllocSome(cfg, s.ring, fs);
      if n < |fs| then (s.(ring := ring, accepted := s.accepted + fs[..n]), BufFull)
      else (Started(s.(ring := ring, accepted := s.accepted + fs), w), PushOk)
  }

  /** The group passes the capacity check, and some of its frames are placed and some are not. */
  predicate CutsGroup(cfg: Config, s: State, fs: seq<Frame>)
    requires Valid(cfg, s.ring)
  {
    !s.isBroken && Size(fs) <= FreeForAlloc(cfg, s.ring) && 0 < AllocSome(cfg, s.ring, fs).1 < |fs|
  }

  /** A group that is not cut is accepted whole or not at all. */
  lemma UncutGroup(cfg: Config, s: State, fs: seq<Frame>, w: nat)
    requires Valid(cfg, s.ring) && !CutsGroup(cfg, s, fs)
    ensures var next := PushGroup(cfg, s, fs, w).0;
      next.accepted == s.accepted || next.accepted == s.accepted + fs
  {
    assert s.accepted + fs[..0] == s.accepted;
  }

  /** pushMsgsAtomic's way with an unbroken buffer, on the ring alone. */
  function GroupResult(cfg: Config, r: Ring, fs: seq<Frame>): (Ring, PushResult)
    requires Valid(cfg, r)
  {
    if Size(fs) > FreeForAlloc(cfg, r) then (r, BufFull)
    else
      var (ring, n) := AllocSome(cfg, r, fs);
      (ring, if n < |fs| then BufFull else PushOk)
  }

  /** What a push does to the state besides the ring and the history. */
  ghost predicate PushEffect(s: State, next: State, result: PushResult, w: nat) {
    && next.isBroken == s.isBroken && next.written == s.written
    && next.writerRunning == (s.writerRunning || result == PushOk)
    && (next.writers == s.writers || next.writers == s.writers[w := []])
  }

  lemma PushGroupEffect(cfg: Config, s: State, fs: seq<Frame>, w: nat)
    requires Valid(cfg, s.ring)
    ensures var (next, result) := PushGroup(cfg, s, fs, w);
      && (next.ring, result) == (if s.isBroken then (s.ring, Broken) else GroupResult(cfg, s.ring, fs))
      && PushEffect(s, next, result, w)
  {
  }

  lemma PushEffectOf(cfg: Config, s: State, f: Frame, w: nat)
    requires Valid(cfg, s.ring)
    ensures var (next, result) := Push(cfg, s, f, w); var p := Alloc(cfg, s.ring, f);
      && (next.ring, result) == (if s.isBroken then (s.ring, Broken)
                                 else if p.Placed? then (p.ring, PushOk) else (s.ring, BufFull))
      && PushEffect(s, next, result, w)
  {
  }

  function MarkBroken(s: State): State {
    s.(isBroken := true, writerRunning := false)
  }

  /** The locked section at the top of the write loop of goroutine w. */
  function TakeBatch(cfg: Config, s: State, w: nat): State
    requires Valid(cfg, s.ring)
  {
    if s.isBroken then s.(writerRunning := false, writers := s.writers - {w})
    else
      var t := Take(cfg, s.ring);
      if t.batch == [] then s.(ring := t.ring, writerRunning := false, writers := s.writers - {w})
      else s.(ring := t.ring, writers := s.writers[w := t.batch])
  }

  datatype Step =
    | DoPush(f: Frame, w: nat)
    | DoPushGroup(fs: seq<Frame>, w: nat)
    | DoBreak
    | DoTakeBatch(w: nat)   // writer w is at the top of its loop
    | DoWritten(w: nat)     // writer w's WriteFrame succeeded
    | DoFailed(w: nat)      // writer w found the connection closed, or its WriteFrame failed

  /** A step that no goroutine is in a position to take changes nothing. */
  function Next(cfg: Config, s: State, step: Step): State
    requires Valid(cfg, s.ring)
  {
    match step
    case DoPush(f, w) => if w in s.writers then s else Push(cfg, s, f, w).0
    case DoPushGroup(fs, w) => if w in s.writers then s else PushGroup(cfg, s, fs, w).0
    case DoBreak => MarkBroken(s)
    case DoTakeBatch(w) => if w in s.writers && s.writers[w] == [] then TakeBatch(cfg, s, w) else s
    case DoWritten(w) =>
      if w in s.writers && s.writers[w] != [] then
        s.(written := s.written + s.writers[w], writers := s.writers[w := []])
      else s
    case DoFailed(w) =>
      if w in s.writers && s.writers[w] != [] then MarkBroken(s).(writers := s.writers - {w}) else s
  }

  // ---------------------------------------------------------------- the invariant

  ghost predicate OneWriter(s: State) {
    forall v, w :: v in s.writers && w in s.writers ==> v == w
  }

  /** The batch being written, if any. */
  ghost function InHand(s: State): seq<Frame>
    requires OneWriter(s)
  {
    if s.writers == map[] then [] else var w :| w in s.writers; s.writers[w]
  }

  ghost predicate Inv(cfg: Config, s: State) {
    && Valid(cfg, s.ring) && TakeOnly(cfg, s.ring)
    && OneWriter(s)
    && (!s.isBroken ==> (s.writerRunning <==> s.writers != map[]))
    && (!s.isBroken && !s.writerRunning ==> AtBase(cfg, s.ring) && s.ring.Queue() == [])
    && (!s.isBroken ==> s.accepted == s.written + InHand(s) + s.ring.Queue())
    && s.written + InHand(s) <= s.accepted
  }

  lemma StartInv(cfg: Config)
    ensures Inv(cfg, Start(cfg))
  {
  }

  lemma InHandIs(s: State, w: nat)
    requires OneWriter(s) && w in s.writers
    ensures InHand(s) == s.writers[w]
    ensures s.writers - {w} == map[]
  {
  }

  /** Frames appended to both the queue and the history keep the accounting. */
  lemma AcceptedGrows(cfg: Config, s: State, ring: Ring, fs: seq<Frame>)
    requires Inv(cfg, s) && !s.isBroken && ring.Queue() == s.ring.Queue() + fs
    ensures s.accepted + fs == s.written + InHand(s) + ring.Queue()
    ensures s.written + InHand(s) <= s.accepted + fs
  {
    Associative(s.written + InHand(s), s.ring.Queue(), fs);
  }

  lemma StartedInv(cfg: Config, s: State, ring: Ring, fs: seq<Frame>, w: nat)
    requires Inv(cfg, s) && !s.isBroken && w !in s.writers
    requires Valid(cfg, ring) && TakeOnly(cfg, ring) && ring.Queue() == s.ring.Queue() + fs
    ensures Inv(cfg, Started(s.(ring := ring, accepted := s.accepted + fs), w))
  {
    AcceptedGrows(cfg, s, ring, fs);
    var grown := s.(ring := ring, accepted := s.accepted + fs);
    assert grown.writers == s.writers;
    if !s.writerRunning {
      var next := Started(grown, w);
      assert s.writers == map[] && next.writers == map[w := []];
      InHandIs(next, w);
    }
  }

  /** While a group is cut short, a writer is at work: the buffer is full-size and something is in flight. */
  lemma CutGroupNeedsFlight(cfg: Config, s: State, fs: seq<Frame>)
    requires Inv(cfg, s) && !s.isBroken
    requires AllLegal(cfg, fs) && Size(fs) <= FreeForAlloc(cfg, s.ring) && AllocSome(cfg, s.ring, fs).1 < |fs|
    ensures s.ring.cap == cfg.maxCap && !AtBase(cfg, s.ring) && s.writerRunning
  {
    AllocSomeAppends(cfg, s.ring, fs);
    if s.ring.cap < cfg.maxCap || AtBase(cfg, s.ring) {
      GroupFits(cfg, s.ring, fs);
    }
  }

  lemma PushInv(cfg: Config, s: State, f: Frame, w: nat)
    requires Inv(cfg, s) && w !in s.writers
    ensures Inv(cfg, Push(cfg, s, f, w).0)
  {
    if !s.isBroken && Alloc(cfg, s.ring, f).Placed? {
      AllocAppends(cfg, s.ring, f, 0);
      StartedInv(cfg, s, Alloc(cfg, s.ring, f).ring, [f], w);
    }
  }

  lemma PushGroupInv(cfg: Config, s: State, fs: seq<Frame>, w: nat)
    requires Inv(cfg, s) && w !in s.writers && AllLegal(cfg, fs)
    ensures Inv(cfg, PushGroup(cfg, s, fs, w).0)
  {
    if !s.isBroken && Size(fs) <= FreeForAlloc(cfg, s.ring) {
      var (ring, n) := AllocSome(cfg, s.ring, fs);
      AllocSomeAppends(cfg, s.ring, fs);
      if n < |fs| {
        CutGroupNeedsFlight(cfg, s, fs);
        AcceptedGrows(cfg, s, ring, fs[..n]);
        assert s.(ring := ring, accepted := s.accepted + fs[..n]).writers == s.writers;
      } else {
        assert fs[..n] == fs;
        StartedInv(cfg, s, ring, fs, w);
      }
    }
  }

  lemma TakeBatchInv(cfg: Config, s: State, w: nat)
    requires Inv(cfg, s) && w in s.writers && s.writers[w] == []
    ensures Inv(cfg, TakeBatch(cfg, s, w))
  {
    InHandIs(s, w);
    assert s.written + [] == s.written;
    if !s.isBroken {
      var t := Take(cfg, s.ring);
      TakeRemovesPrefix(cfg, s.ring);
      SizeNonempty(t.batch);
      var next := TakeBatch(cfg, s, w);
      if t.batch != [] {
        InHandIs(next, w);
        Associative(s.written, t.batch, t.ring.Queue());
      } else {
        assert t.ring.Queue() == s.ring.Queue() == [];
      }
    }
  }

  lemma WriterInv(cfg: Config, s: State, step: Step)
    requires Inv(cfg, s) && (step.DoWritten? || step.DoFailed? || step.DoBreak?)
    ensures Inv(cfg, Next(cfg, s, step))
  {
    var next := Next(cfg, s, step);
    if step.DoBreak? {
      assert next.writers == s.writers;
    } else if step.w in s.writers && s.writers[step.w] != [] {
      InHandIs(s, step.w);
      if step.DoWritten? {
        InHandIs(next, step.w);
        assert next.written + [] == next.written;
      } else {
        assert s.written + [] == s.written;
      }
    }
  }

  /** A take ends its writer, or gives it a batch; nothing else changes but the ring. */
  lemma TakeEffect(cfg: Config, s: State, w: nat)
    requires Inv(cfg, s) && w in s.writers && s.writers[w] == []
    ensures var next, t := TakeBatch(cfg, s, w), Take(cfg, s.ring);
      && next.isBroken == s.isBroken && next.written == s.written
      && (if s.isBroken then next.ring == s.ring else next.ring == t.ring)
      && (t.batch == [] <==> s.ring.Queue() == [])
      && (if s.isBroken || t.batch == [] then !next.writerRunning && next.writers == map[]
          else next.writerRunning == s.writerRunning && next.writers == map[w := t.batch])
  {
    InHandIs(s, w);
    TakeRemovesPrefix(cfg, s.ring);
    assert s.writers.Keys == {w} by {
      forall v | v in s.writers ensures v == w { }
    }
  }

  /** A batch written leaves everything but the history and its writer as it was. */
  lemma WrittenEffect(cfg: Config, s: State, w: nat)
    requires Inv(cfg, s) && w in s.writers && s.writers[w] != []
    ensures var next := Next(cfg, s, DoWritten(w));
      && next.ring == s.ring && next.writerRunning == s.writerRunning && next.isBroken == s.isBroken
      && Encode(next.written) == Encode(s.written) + Encode(s.writers[w])
      && next.writers == map[w := []]
  {
    InHandIs(s, w);
    EncodeAppend(s.written, s.writers[w]);
    assert s.writers.Keys == {w} by {
      forall v | v in s.writers ensures v == w { }
    }
  }

  /** A push may start an idle writer; the batch being written stays the same. */
  lemma PushKeepsInHand(cfg: Config, s: State, next: State, w: nat)
    requires Inv(cfg, s) && Inv(cfg, next) && w !in s.writers
    requires next.writers == s.writers || next.writers == s.writers[w := []]
    ensures InHand(next) == InHand(s)
  {
    if s.writers == map[] {
      if next.writers != map[] {
        InHandIs(next, w);
      }
    } else {
      var v :| v in s.writers;
      InHandIs(s, v);
      InHandIs(next, v);
    }
  }

  predicate StepOk(cfg: Config, step: Step) {
    step.DoPushGroup? ==> AllLegal(cfg, step.fs)
  }

  lemma StepKeepsInv(cfg: Config, s: State, step: Step)
    requires Inv(cfg, s) && StepOk(cfg, step)
    ensures Inv(cfg, Next(cfg, s, step))
  {
    match step
    case DoPush(f, w) => if w !in s.writers { PushInv(cfg, s, f, w); }
    case DoPushGroup(fs, w) => if w !in s.writers { PushGroupInv(cfg, s, fs, w); }
    case DoTakeBatch(w) => if w in s.writers && s.writers[w] == [] { TakeBatchInv(cfg, s, w); }
    case _ => WriterInv(cfg, s, step);
  }

  ghost function Exec(cfg: Config, steps: seq<Step>): (s: State)
    requires forall i :: 0 <= i < |steps| ==> StepOk(cfg, steps[i])
    ensures Inv(cfg, s)
  {
    if steps == [] then
      StartInv(cfg);
      Start(cfg)
    else
      var s := Exec(cfg, steps[..|steps| - 1]);
      assert StepOk(cfg, steps[|steps| - 1]);
      StepKeepsInv(cfg, s, steps[|steps| - 1]);
      Next(cfg, s, steps[|steps| - 1])
  }

  /**
   * Under every interleaving of pushers, writers and markBroken: never two writeLoops at once; while the connection
   * is whole, queued frames have a writer and nothing accepted is lost; what is written is always a prefix of what
   * was accepted.
   */
  lemma WriterProtocol(cfg: Config, steps: seq<Step>)
    requires forall i :: 0 <= i < |steps| ==> StepOk(cfg, steps[i])
    ensures var s := Exec(cfg, steps);
      && |s.writers| <= 1
      && (!s.isBroken && s.ring.Queue() != [] ==> |s.writers| == 1)
      && (!s.isBroken ==> s.accepted == s.written + InHand(s) + s.ring.Queue())
      && s.written <= s.accepted
  {
    var s := Exec(cfg, steps);
    if s.writers != map[] {
      var w :| w in s.writers;
      InHandIs(s, w);
      assert s.writers.Keys == {w};
      assert |s.writers| == |s.writers.Keys|;
    }
  }

  /** Once broken, always broken, and nothing more is accepted. */
  lemma BrokenIsFinal(cfg: Config, s: State, step: Step)
    requires Inv(cfg, s) && s.isBroken
    ensures var next := Next(cfg, s, step);
      next.isBroken && next.accepted == s.accepted && next.writers.Keys <= s.writers.Keys
  {
  }

  /** pushMsgsAtomic succeeds, with the whole group, exactly when the check passes and no frame is refused after it;
      otherwise it leaves the buffer as it was unless the group is cut. */
  lemma GroupIsAtomic(cfg: Config, s: State, fs: seq<Frame>, w: nat)
    requires Inv(cfg, s) && w !in s.writers && AllLegal(cfg, fs)
    ensures var (next, result) := PushGroup(cfg, s, fs, w);
      && (result == PushOk <==> !s.isBroken && Size(fs) <= FreeForAlloc(cfg, s.ring) && PlacesAll(cfg, s.ring, fs))
      && (result == PushOk ==> next.accepted == s.accepted + fs)
      && (result != PushOk && !CutsGroup(cfg, s, fs) ==> next == s)
      && (s.ring.cap < cfg.maxCap || AtBase(cfg, s.ring) ==>
            (result == PushOk <==> !s.isBroken && Size(fs) <= FreeForAlloc(cfg, s.ring)))
  {
    AllocSomeAppends(cfg, s.ring, fs);
    NonePlaced(cfg, s.ring, fs);
    assert s.accepted + fs[..0] == s.accepted;
    if (s.ring.cap < cfg.maxCap || AtBase(cfg, s.ring)) && Size(fs) <= FreeForAlloc(cfg, s.ring) {
      GroupFits(cfg, s.ring, fs);
    }
  }

  /**
   * The case the capacity check misses: in a buffer of full size, a group it admits is cut short when it is larger
   * than what can be handed out around the batch in flight. The frames placed before the refusal stay behind.
   */
  lemma GroupCanBeCut(cfg: Config, s: State, fs: seq<Frame>, w: nat)
    requires Inv(cfg, s) && !s.isBroken && s.ring.cap == cfg.maxCap > 0
    requires fs != [] && Alloc(cfg, s.ring, fs[0]).Placed?
    requires Usable(cfg, s.ring) < Size(fs) <= FreeForAlloc(cfg, s.ring)
    ensures var (next, result) := PushGroup(cfg, s, fs, w); var k := AllocSome(cfg, s.ring, fs).1;
      CutsGroup(cfg, s, fs) && result == BufFull && 0 < k < |fs| && next.accepted == s.accepted + fs[..k]
  {
    GroupIsUsable(cfg, s.ring, fs);
    AllocSomeAppends(cfg, s.ring, fs);
  }

  /** No legal group is ever cut: what a buffer must be for pushMsgsAtomic to be all or nothing. */
  ghost predicate CutsNothing(cfg: Config, s: State)
    requires Valid(cfg, s.ring)
  {
    forall fs :: AllLegal(cfg, fs) ==> !CutsGroup(cfg, s, fs)
  }

  /** The smallest frame is refused, and so is every other. */
  lemma SmallestRefused(cfg: Config, s: State, fs: seq<Frame>)
    requires Inv(cfg, s) && s.ring.cap == cfg.maxCap && AllLegal(cfg, fs) && Alloc(cfg, s.ring, [0]).Refused?
    ensures AllocSome(cfg, s.ring, fs).1 == 0
  {
  }

  /** A group of one-byte frames that the check admits and the ring does not hold. */
  lemma OnesAreCut(cfg: Config, s: State)
    requires Inv(cfg, s) && !s.isBroken && s.ring.cap == cfg.maxCap && !AtBase(cfg, s.ring)
    requires Alloc(cfg, s.ring, [0]).Placed?
    ensures !CutsNothing(cfg, s)
  {
    FreeDrops(cfg, s.ring, [0]);
    FullBufferRefusesAGroup(cfg, s.ring);
    var fs := Ones(FreeForAlloc(cfg, s.ring) / 3);
    assert fs[0] == [0];
    assert CutsGroup(cfg, s, fs);
  }

  /**
   * Exactly when pushMsgsAtomic is all or nothing, on the cursors: the connection is broken, or the buffer may still
   * grow, or nothing is in flight, or there is not even room for the smallest frame.
   */
  lemma AtomicIff(cfg: Config, s: State)
    requires Inv(cfg, s)
    ensures CutsNothing(cfg, s) <==>
      s.isBroken || s.ring.cap < cfg.maxCap || AtBase(cfg, s.ring) || Alloc(cfg, s.ring, [0]).Refused?
  {
    if s.isBroken {
    } else if s.ring.cap < cfg.maxCap || AtBase(cfg, s.ring) {
      forall fs | AllLegal(cfg, fs) ensures !CutsGroup(cfg, s, fs) {
        if Size(fs) <= FreeForAlloc(cfg, s.ring) {
          GroupFits(cfg, s.ring, fs);
        }
      }
    } else if Alloc(cfg, s.ring, [0]).Refused? {
      forall fs | AllLegal(cfg, fs) ensures !CutsGroup(cfg, s, fs) {
        SmallestRefused(cfg, s, fs);
      }
    } else {
      OnesAreCut(cfg, s);
    }
  }
}
