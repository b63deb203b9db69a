/**
 * Runs of the write buffer over the bytes of Wire: pushes, takes, header writes and sends in any interleaving. As long
 * as no header and no queued frame has changed the other, the socket carries the batches, each in one WebSocket frame.
 */
module WireRun {
  import opened Bytes
  import opened Frames
  import opened BipRing
  import opened RingBytes
  import opened Wire
  import RingGroups
  import WebSocket
  import WriteBuf

  /** `base` is the machine of the write buffer; `batches` are those whose writing was attempted, `socket` the bytes
      written. `failed`: a write has failed, perhaps half way. `derailed`: the bytes no longer say where frames end;
      nothing after that is modelled. */
  datatype State = State(
    base: WriteBuf.State, mem: Mem, batches: seq<seq<Frame>>, socket: seq<byte>, failed: bool, derailed: bool)

  datatype Step =
    | Push(f: Frame, w: nat)
    | PushGroup(fs: seq<Frame>, w: nat)
    | Break
    | Take(w: nat)
    | Head(w: nat)            // writer w puts the header in front of its slice
    | Send(w: nat)            // and its write of header and slice succeeds
    | Fail(w: nat, n: nat)    // or fails after n bytes, or is not attempted

  predicate HeaderRoom(cfg: Config) { 0 < cfg.maxFramePayload < 65536 && cfg.prefix >= 4 }

  predicate StepOk(cfg: Config, step: Step) { step.PushGroup? ==> AllLegal(cfg, step.fs) }

  function Start(cfg: Config): State {
    State(WriteBuf.Start(cfg), Mem([], None, false), [], [], false, false)
  }

  /** Writer w has a slice to send. */
  predicate Holding(s: State, w: nat) {
    w in s.base.writers && s.base.writers[w] != [] && s.mem.hand.Some?
  }

  ghost predicate Ok(cfg: Config, s: State) {
    && WriteBuf.Inv(cfg, s.base) && MemOk(cfg, s.base.ring, s.mem)
    && (s.mem.hand.Some? <==> WriteBuf.InHand(s.base) != [])
    && (s.mem.hand.Some? ==> s.mem.hand.value.header == [] || s.mem.hand.value.header == HeaderOf(s.mem.hand.value))
    && Size(WriteBuf.InHand(s.base)) <= cfg.maxFramePayload
  }

  /** What goes out for the slice: the header in front of it, and the slice. */
  function Outgoing(cfg: Config, r: Ring, m: Mem): seq<byte>
    requires MemOk(cfg, r, m) && m.hand.Some?
  {
    var h := m.hand.value;
    HandInside(cfg, r, m);
    Array(m, h)[h.lo - |h.header|..h.hi]
  }

  /** What goes out before the failure. */
  function Attempted(cfg: Config, r: Ring, m: Mem): seq<byte>
    requires MemOk(cfg, r, m) && m.hand.Some?
  {
    if m.hand.value.header == [] then [] else Outgoing(cfg, r, m)
  }

  ghost function PushStep(cfg: Config, s: State, f: Frame, w: nat): State
    requires MemOk(cfg, s.base.ring, s.mem)
  {
    var base := WriteBuf.Next(cfg, s.base, WriteBuf.DoPush(f, w));
    if w in s.base.writers || s.base.isBroken || Alloc(cfg, s.base.ring, f).Refused? then s.(base := base)
    else s.(base := base, mem := PlaceOne(cfg, s.base.ring, s.mem, f))
  }

  ghost function PushGroupStep(cfg: Config, s: State, fs: seq<Frame>, w: nat): State
    requires MemOk(cfg, s.base.ring, s.mem)
  {
    var base := WriteBuf.Next(cfg, s.base, WriteBuf.DoPushGroup(fs, w));
    if w in s.base.writers || s.base.isBroken || Size(fs) > FreeForAlloc(cfg, s.base.ring) then s.(base := base)
    else s.(base := base, mem := PlaceSome(cfg, s.base.ring, s.mem, fs))
  }

  ghost function TakeStep(cfg: Config, s: State, w: nat): State
    requires MemOk(cfg, s.base.ring, s.mem)
  {
    var base := WriteBuf.Next(cfg, s.base, WriteBuf.DoTakeBatch(w));
    var t := BipRing.Take(cfg, s.base.ring);
    if w !in s.base.writers || s.base.writers[w] != [] || s.base.isBroken || t.batch == [] then s.(base := base)
    else
      s.(base := base, mem := s.mem.(hand := Some(Hand(t.ring.sent, t.ring.sendEnd, None, []))),
         derailed := TakenEnd(cfg, Confirmed(cfg, s.base.ring), s.mem.buf) != t.ring.sendEnd)
  }

  ghost function HeadStep(cfg: Config, s: State, w: nat): State
    requires MemOk(cfg, s.base.ring, s.mem) && HeaderRoom(cfg)
  {
    if !Holding(s, w) || s.mem.hand.value.header != [] then s
    else
      HeaderIsShort(s.mem.hand.value);
      s.(mem := WriteHead(cfg, s.base.ring, s.mem, HeaderOf(s.mem.hand.value)))
  }

  ghost function SendStep(cfg: Config, s: State, w: nat): State
    requires MemOk(cfg, s.base.ring, s.mem)
  {
    if !Holding(s, w) || s.mem.hand.value.header == [] then s
    else
      s.(base := WriteBuf.Next(cfg, s.base, WriteBuf.DoWritten(w)), mem := s.mem.(hand := None),
         batches := s.batches + [s.base.writers[w]], socket := s.socket + Outgoing(cfg, s.base.ring, s.mem))
  }

  ghost function FailStep(cfg: Config, s: State, w: nat, n: nat): State
    requires MemOk(cfg, s.base.ring, s.mem)
  {
    if !Holding(s, w) then s
    else
      var out := Attempted(cfg, s.base.ring, s.mem);
      s.(base := WriteBuf.Next(cfg, s.base, WriteBuf.DoFailed(w)), mem := s.mem.(hand := None),
         batches := s.batches + [s.base.writers[w]], socket := s.socket + out[..if n < |out| then n else |out|],
         failed := true)
  }

  /** A step that nobody is in a position to take changes nothing. */
  ghost function Next(cfg: Config, s: State, step: Step): State
    requires MemOk(cfg, s.base.ring, s.mem) && HeaderRoom(cfg)
  {
    if s.derailed then s
    else
      match step
      case Push(f, w) => PushStep(cfg, s, f, w)
      case PushGroup(fs, w) => PushGroupStep(cfg, s, fs, w)
      case Break => s.(base := WriteBuf.MarkBroken(s.base))
      case Take(w) => TakeStep(cfg, s, w)
      case Head(w) => HeadStep(cfg, s, w)
      case Send(w) => SendStep(cfg, s, w)
      case Fail(w, n) => FailStep(cfg, s, w, n)
  }

  // ---------------------------------------------------------------- the socket

  predicate NoneEmpty(batches: seq<seq<Frame>>) { forall i :: 0 <= i < |batches| ==> batches[i] != [] }

  /** One unmasked binary message for each batch. */
  function Wrapped(batches: seq<seq<Frame>>): seq<WebSocket.Sent> {
    if batches == [] then [] else [WebSocket.Data(2, Encode(batches[0]), None)] + Wrapped(batches[1..])
  }

  function Streamed(batches: seq<seq<Frame>>): seq<byte> { WebSocket.Stream(Wrapped(batches)) }

  lemma {:induction false} StreamedSnoc(batches: seq<seq<Frame>>, batch: seq<Frame>)
    ensures Streamed(batches + [batch]) == Streamed(batches) + WebSocket.FrameBytes(2, Encode(batch), None)
  {
    if batches == [] {
      assert Wrapped([batch])[1..] == [];
      assert [batch][1..] == [];
      assert WebSocket.Stream([]) == [];
    } else {
      StreamedSnoc(batches[1..], batch);
      assert (batches + [batch])[1..] == batches[1..] + [batch];
      Associative(WebSocket.FrameBytes(2, Encode(batches[0]), None), Streamed(batches[1..]),
                  WebSocket.FrameBytes(2, Encode(batch), None));
    }
  }

  ghost predicate History(cfg: Config, s: State) {
    && NoneEmpty(s.batches) && (forall b :: b in s.batches ==> Size(b) <= cfg.maxFramePayload)
    && (if s.failed then s.base.isBroken && s.base.writers == map[] && Concat(s.batches) <= s.base.accepted
        else Concat(s.batches) == s.base.written)
  }

  predicate OnWire(failed: bool, socket: seq<byte>, batches: seq<seq<Frame>>) {
    if failed then socket <= Streamed(batches) else socket == Streamed(batches)
  }

  /** As long as no header and no queued frame has changed the other. */
  ghost predicate Intact(cfg: Config, s: State)
    requires Ok(cfg, s)
  {
    !s.mem.spoiled ==>
      !s.derailed && Sound(cfg, s.base.ring, s.mem, WriteBuf.InHand(s.base)) && OnWire(s.failed, s.socket, s.batches)
  }

  ghost predicate Inv(cfg: Config, s: State) {
    Ok(cfg, s) && History(cfg, s) && Intact(cfg, s)
  }

  // ---------------------------------------------------------------- every step keeps it

  /** Pushes: frames are placed, the batch in hand and what has been sent stay. */
  lemma PlacedKeeps(cfg: Config, s: State, base: WriteBuf.State, mem: Mem)
    requires Inv(cfg, s) && !s.failed && WriteBuf.Inv(cfg, base) && MemOk(cfg, base.ring, mem)
    requires SameHand(s.mem.hand, mem.hand) && WriteBuf.InHand(base) == WriteBuf.InHand(s.base)
    requires base.written == s.base.written && (s.mem.spoiled ==> mem.spoiled)
    requires !mem.spoiled && Sound(cfg, s.base.ring, s.mem, WriteBuf.InHand(s.base))
             ==> Sound(cfg, base.ring, mem, WriteBuf.InHand(s.base))
    ensures Inv(cfg, s.(base := base, mem := mem))
  {
    hide OnWire;
    hide Sound;
    hide WriteBuf.Inv;
  }

  lemma PushKeeps(cfg: Config, s: State, f: Frame, w: nat)
    requires Inv(cfg, s)
    ensures Inv(cfg, PushStep(cfg, s, f, w))
  {
    var r, base := s.base.ring, WriteBuf.Next(cfg, s.base, WriteBuf.DoPush(f, w));
    WriteBuf.PushEffectOf(cfg, s.base, f, w);
    if w !in s.base.writers && !s.base.isBroken && Alloc(cfg, r, f).Placed? {
      WriteBuf.StepKeepsInv(cfg, s.base, WriteBuf.DoPush(f, w));
      WriteBuf.PushKeepsInHand(cfg, s.base, base, w);
      PlaceOneOk(cfg, r, s.mem, f);
      var mem := PlaceOne(cfg, r, s.mem, f);
      hide Sound;
      hide PlaceOne;
      hide WriteBuf.Inv;
      if !mem.spoiled && Sound(cfg, r, s.mem, WriteBuf.InHand(s.base)) {
        PlaceOneSound(cfg, r, s.mem, f, WriteBuf.InHand(s.base));
      }
      PlacedKeeps(cfg, s, base, mem);
    }
  }

  lemma PushGroupKeeps(cfg: Config, s: State, fs: seq<Frame>, w: nat)
    requires Inv(cfg, s) && AllLegal(cfg, fs)
    ensures Inv(cfg, PushGroupStep(cfg, s, fs, w))
  {
    var r, base := s.base.ring, WriteBuf.Next(cfg, s.base, WriteBuf.DoPushGroup(fs, w));
    WriteBuf.PushGroupEffect(cfg, s.base, fs, w);
    if w !in s.base.writers && !s.base.isBroken && Size(fs) <= FreeForAlloc(cfg, r) {
      WriteBuf.StepKeepsInv(cfg, s.base, WriteBuf.DoPushGroup(fs, w));
      WriteBuf.PushKeepsInHand(cfg, s.base, base, w);
      PlaceSomeOk(cfg, r, s.mem, fs, WriteBuf.InHand(s.base));
      PlacedKeeps(cfg, s, base, PlaceSome(cfg, r, s.mem, fs));
    }
  }

  /** A take that hands out nothing ends its writer. */
  lemma TakeNothingKeeps(cfg: Config, s: State, w: nat)
    requires Inv(cfg, s) && w in s.base.writers && s.base.writers[w] == []
    requires s.base.isBroken || BipRing.Take(cfg, s.base.ring).batch == []
    ensures Inv(cfg, TakeStep(cfg, s, w))
  {
    var r, base := s.base.ring, WriteBuf.TakeBatch(cfg, s.base, w);
    WriteBuf.StepKeepsInv(cfg, s.base, WriteBuf.DoTakeBatch(w));
    WriteBuf.TakeEffect(cfg, s.base, w);
    WriteBuf.InHandIs(s.base, w);
    TakeRemovesPrefix(cfg, r);
    hide Holds;
    hide BipRing.Valid;
    if Holds(cfg, r, s.mem.buf) {
      HoldsAfterConfirm(cfg, r, s.mem.buf);
      HoldsAfterTake(cfg, Confirmed(cfg, r), s.mem.buf);
    }
  }

  /** A batch in hand, and nothing in front of it yet. */
  lemma TakenKeeps(cfg: Config, s: State, base: WriteBuf.State, h: Hand, derailed: bool)
    requires Inv(cfg, s) && !s.failed && WriteBuf.Inv(cfg, base) && WriteBuf.InHand(base) != []
    requires base.written == s.base.written && Size(WriteBuf.InHand(base)) <= cfg.maxFramePayload
    requires h.header == [] && MemOk(cfg, base.ring, s.mem.(hand := Some(h)))
    requires !s.mem.spoiled ==> !derailed && Sound(cfg, base.ring, s.mem.(hand := Some(h)), WriteBuf.InHand(base))
    ensures Inv(cfg, s.(base := base, mem := s.mem.(hand := Some(h)), derailed := derailed))
  {
    hide OnWire;
    hide Sound;
    hide WriteBuf.Inv;
  }

  lemma TakenIsSound(cfg: Config, r: Ring, m: Mem)
    requires MemOk(cfg, r, m) && 0 < cfg.maxFramePayload < 65536 && BipRing.Take(cfg, r).batch != []
    ensures var t := BipRing.Take(cfg, r); var m2 := m.(hand := Some(Hand(t.ring.sent, t.ring.sendEnd, None, [])));
      && MemOk(cfg, t.ring, m2)
      && (Holds(cfg, r, m.buf) ==>
            TakenEnd(cfg, Confirmed(cfg, r), m.buf) == t.ring.sendEnd && Sound(cfg, t.ring, m2, t.batch))
  {
    hide TakenEnd;
    hide Confirmed;
    hide Holds;
    hide Encode;
    hide Size;
    TakeRemovesPrefix(cfg, r);
    SizeNonempty(BipRing.Take(cfg, r).batch);
    hide BipRing.Take;
    if Holds(cfg, r, m.buf) {
      TakenEndIsBatch(cfg, r, m.buf);
      hide BipRing.Valid;
    }
  }

  lemma TakeBatchKeeps(cfg: Config, s: State, w: nat)
    requires Inv(cfg, s) && HeaderRoom(cfg) && w in s.base.writers && s.base.writers[w] == []
    requires !s.base.isBroken && BipRing.Take(cfg, s.base.ring).batch != []
    ensures Inv(cfg, TakeStep(cfg, s, w))
  {
    var r, t, base := s.base.ring, BipRing.Take(cfg, s.base.ring), WriteBuf.TakeBatch(cfg, s.base, w);
    WriteBuf.StepKeepsInv(cfg, s.base, WriteBuf.DoTakeBatch(w));
    WriteBuf.TakeEffect(cfg, s.base, w);
    WriteBuf.InHandIs(base, w);
    TakeRemovesPrefix(cfg, r);
    TakenIsSound(cfg, r, s.mem);
    hide WriteBuf.Inv;
    hide TakenEnd;
    hide Confirmed;
    hide BipRing.Take;
    TakenKeeps(cfg, s, base, Hand(t.ring.sent, t.ring.sendEnd, None, []),
               TakenEnd(cfg, Confirmed(cfg, r), s.mem.buf) != t.ring.sendEnd);
  }

  lemma TakeKeeps(cfg: Config, s: State, w: nat)
    requires Inv(cfg, s) && HeaderRoom(cfg)
    ensures Inv(cfg, TakeStep(cfg, s, w))
  {
    if w in s.base.writers && s.base.writers[w] == [] {
      if s.base.isBroken || BipRing.Take(cfg, s.base.ring).batch == [] {
        TakeNothingKeeps(cfg, s, w);
      } else {
        TakeBatchKeeps(cfg, s, w);
      }
    }
  }

  /** The header written: nothing but the memory has changed. */
  lemma HeadWrittenKeeps(cfg: Config, s: State, mem: Mem)
    requires Inv(cfg, s) && s.mem.hand.Some? && MemOk(cfg, s.base.ring, mem) && mem.hand.Some?
    requires mem.hand.value.header == HeaderOf(mem.hand.value) && (s.mem.spoiled ==> mem.spoiled)
    requires !mem.spoiled ==> Sound(cfg, s.base.ring, mem, WriteBuf.InHand(s.base))
    ensures Inv(cfg, s.(mem := mem))
  {
    hide OnWire;
    hide Sound;
    hide WriteBuf.Inv;
  }

  lemma HeadKeeps(cfg: Config, s: State, w: nat)
    requires Inv(cfg, s) && HeaderRoom(cfg)
    ensures Inv(cfg, HeadStep(cfg, s, w))
  {
    if Holding(s, w) && s.mem.hand.value.header == [] {
      HeadIsSound(cfg, s.base.ring, s.mem, WriteBuf.InHand(s.base));
      hide WriteHead;
      hide Sound;
      hide WriteBuf.Inv;
      HeadWrittenKeeps(cfg, s, WriteHead(cfg, s.base.ring, s.mem, HeaderOf(s.mem.hand.value)));
    }
  }

  lemma HeadIsSound(cfg: Config, r: Ring, m: Mem, batch: seq<Frame>)
    requires MemOk(cfg, r, m) && HeaderRoom(cfg) && m.hand.Some?
    ensures |HeaderOf(m.hand.value)| <= cfg.prefix
    ensures var m2 := WriteHead(cfg, r, m, HeaderOf(m.hand.value));
      && MemOk(cfg, r, m2) && m2.hand.Some? && m2.hand.value.header == HeaderOf(m2.hand.value)
      && (m.spoiled ==> m2.spoiled) && (!m2.spoiled && Sound(cfg, r, m, batch) ==> Sound(cfg, r, m2, batch))
  {
    var head := HeaderOf(m.hand.value);
    HeaderIsShort(m.hand.value);
    WriteHeadOk(cfg, r, m, head);
    HeaderBySize(m.hand.value, WriteHead(cfg, r, m, head).hand.value);
    hide WriteHead;
    hide Sound;
    hide HeaderOf;
    if !WriteHead(cfg, r, m, head).spoiled && Sound(cfg, r, m, batch) {
      WriteHeadSound(cfg, r, m, head, batch);
    }
  }

  /** With its header in place, what goes out is the batch in one WebSocket frame. */
  lemma OutgoingIsFrame(cfg: Config, r: Ring, m: Mem, batch: seq<Frame>)
    requires MemOk(cfg, r, m) && Sound(cfg, r, m, batch) && m.hand.Some?
    requires m.hand.value.header == HeaderOf(m.hand.value)
    ensures Outgoing(cfg, r, m) == WebSocket.FrameBytes(2, Encode(batch), None)
  {
    hide Holds;
    hide Encode;
    hide BipRing.Valid;
    var h := m.hand.value;
    SliceJoin(Array(m, h), h.lo - |h.header|, h.lo, h.hi);
  }

  /** One more batch out of hand. */
  lemma BatchCounted(cfg: Config, s: State, w: nat)
    requires Inv(cfg, s) && Holding(s, w)
    ensures var batch, batches := s.base.writers[w], s.batches + [s.base.writers[w]];
      && batch == WriteBuf.InHand(s.base) && !s.failed
      && NoneEmpty(batches) && (forall b :: b in batches ==> Size(b) <= cfg.maxFramePayload)
      && Concat(batches) == s.base.written + batch <= s.base.accepted
  {
    var batch := s.base.writers[w];
    WriteBuf.InHandIs(s.base, w);
    ConcatAppend(s.batches, [batch]);
    ConcatOne(batch);
  }

  lemma SendKeeps(cfg: Config, s: State, w: nat)
    requires Inv(cfg, s)
    ensures Inv(cfg, SendStep(cfg, s, w))
  {
    if Holding(s, w) && s.mem.hand.value.header != [] {
      var batch, next := s.base.writers[w], SendStep(cfg, s, w);
      BatchCounted(cfg, s, w);
      WriteBuf.StepKeepsInv(cfg, s.base, WriteBuf.DoWritten(w));
      WriteBuf.WrittenEffect(cfg, s.base, w);
      WriteBuf.InHandIs(next.base, w);
      StreamedSnoc(s.batches, batch);
      if !s.mem.spoiled {
        OutgoingIsFrame(cfg, s.base.ring, s.mem, batch);
      }
    }
  }

  /** Part of what was to be appended. */
  lemma PartAppended<T>(a: seq<T>, out: seq<T>, k: nat, whole: seq<T>)
    requires k <= |out| && (out == [] || a + out == whole) && a <= whole
    ensures a + out[..k] <= whole
  {
  }

  /** The writer gone, the buffer broken, and no more of the stream on the wire than there should be. */
  lemma FailedKeeps(cfg: Config, s: State, base: WriteBuf.State, batches: seq<seq<Frame>>, socket: seq<byte>)
    requires Inv(cfg, s) && WriteBuf.Inv(cfg, base) && base.ring == s.base.ring
    requires base.isBroken && base.writers == map[] && Concat(batches) <= base.accepted
    requires NoneEmpty(batches) && forall b :: b in batches ==> Size(b) <= cfg.maxFramePayload
    requires !s.mem.spoiled ==> socket <= Streamed(batches)
    ensures Inv(cfg, s.(base := base, mem := s.mem.(hand := None), batches := batches, socket := socket,
                        failed := true))
  {
    assert WriteBuf.InHand(base) == [];
    hide WriteBuf.Inv;
    hide Holds;
    hide HandHolds;
    hide Streamed;
    hide BipRing.Valid;
  }

  lemma FailKeeps(cfg: Config, s: State, w: nat, n: nat)
    requires Inv(cfg, s)
    ensures Inv(cfg, FailStep(cfg, s, w, n))
  {
    if Holding(s, w) {
      var batch, next := s.base.writers[w], FailStep(cfg, s, w, n);
      BatchCounted(cfg, s, w);
      WriteBuf.StepKeepsInv(cfg, s.base, WriteBuf.DoFailed(w));
      WriteBuf.InHandIs(s.base, w);
      if !s.mem.spoiled {
        FailedOnWire(cfg, s, batch, n);
      }
      hide Attempted;
      hide Streamed;
      FailedKeeps(cfg, s, next.base, s.batches + [batch], next.socket);
      hide Inv;
    }
  }

  lemma FailedOnWire(cfg: Config, s: State, batch: seq<Frame>, n: nat)
    requires MemOk(cfg, s.base.ring, s.mem) && s.mem.hand.Some? && Sound(cfg, s.base.ring, s.mem, batch)
    requires s.mem.hand.value.header == [] || s.mem.hand.value.header == HeaderOf(s.mem.hand.value)
    requires s.socket == Streamed(s.batches)
    ensures var out := Attempted(cfg, s.base.ring, s.mem);
      s.socket + out[..if n < |out| then n else |out|] <= Streamed(s.batches + [batch])
  {
    var out := Attempted(cfg, s.base.ring, s.mem);
    StreamedSnoc(s.batches, batch);
    if s.mem.hand.value.header != [] {
      OutgoingIsFrame(cfg, s.base.ring, s.mem, batch);
    }
    hide Streamed;
    hide Attempted;
    PartAppended(s.socket, out, if n < |out| then n else |out|, Streamed(s.batches + [batch]));
  }

  lemma BreakKeeps(cfg: Config, s: State)
    requires Inv(cfg, s)
    ensures Inv(cfg, s.(base := WriteBuf.MarkBroken(s.base)))
  {
    WriteBuf.StepKeepsInv(cfg, s.base, WriteBuf.DoBreak);
    assert WriteBuf.MarkBroken(s.base).writers == s.base.writers;
  }

  lemma StepKeepsInv(cfg: Config, s: State, step: Step)
    requires Inv(cfg, s) && HeaderRoom(cfg) && StepOk(cfg, step)
    ensures Inv(cfg, Next(cfg, s, step))
  {
    match step
    case Push(f, w) => PushKeeps(cfg, s, f, w);
    case PushGroup(fs, w) => PushGroupKeeps(cfg, s, fs, w);
    case Break => BreakKeeps(cfg, s);
    case Take(w) => TakeKeeps(cfg, s, w);
    case Head(w) => HeadKeeps(cfg, s, w);
    case Send(w) => SendKeeps(cfg, s, w);
    case Fail(w, n) => FailKeeps(cfg, s, w, n);
  }

  predicate StepsOk(cfg: Config, steps: seq<Step>) {
    forall i :: 0 <= i < |steps| ==> StepOk(cfg, steps[i])
  }

  lemma StartInv(cfg: Config)
    ensures Inv(cfg, Start(cfg))
  {
    WriteBuf.StartInv(cfg);
  }

  ghost function Exec(cfg: Config, steps: seq<Step>): (s: State)
    requires HeaderRoom(cfg) && StepsOk(cfg, steps)
    ensures Inv(cfg, s)
  {
    if steps == [] then
      StartInv(cfg);
      Start(cfg)
    else
      var s := Exec(cfg, steps[..|steps| - 1]);
      StepKeepsInv(cfg, s, steps[|steps| - 1]);
      Next(cfg, s, steps[|steps| - 1])
  }

  // ---------------------------------------------------------------- whole groups

  /** The frames a step offers the buffer. */
  function Offered(step: Step): seq<Frame> {
    match step
    case Push(f, _) => [f]
    case PushGroup(fs, _) => fs
    case _ => []
  }

  /** The step pushes a group and cuts it. */
  predicate CutsGroup(cfg: Config, s: WriteBuf.State, step: Step)
    requires BipRing.Valid(cfg, s.ring)
  {
    step.PushGroup? && step.w !in s.writers && WriteBuf.CutsGroup(cfg, s, step.fs)
  }

  /** No step of the run cuts a group. */
  ghost predicate Uncut(cfg: Config, steps: seq<Step>)
    requires HeaderRoom(cfg) && StepsOk(cfg, steps)
  {
    steps == []
    || var before := steps[..|steps| - 1];
       Uncut(cfg, before) && !CutsGroup(cfg, Exec(cfg, before).base, steps[|steps| - 1])
  }

  /** A step that cuts no group accepts all it offers or nothing. */
  lemma AllOrNothing(cfg: Config, s: State, step: Step)
    requires Inv(cfg, s) && HeaderRoom(cfg) && StepOk(cfg, step) && !CutsGroup(cfg, s.base, step)
    ensures var next := Next(cfg, s, step);
      next.base.accepted == s.base.accepted || next.base.accepted == s.base.accepted + Offered(step)
  {
    hide OnWire;
    hide History;
    hide WriteBuf.Inv;
    hide Sound;
    hide WriteBuf.PushGroup;
    hide RingGroups.AllocSome;
    if step.PushGroup? && step.w !in s.base.writers {
      WriteBuf.UncutGroup(cfg, s.base, step.fs, step.w);
    }
  }

  /** Below its full size, or with nothing in flight, the buffer cuts no group. */
  lemma CutNeedsFullBuffer(cfg: Config, s: State, step: Step)
    requires Inv(cfg, s) && StepOk(cfg, step) && CutsGroup(cfg, s.base, step)
    ensures s.base.ring.cap == cfg.maxCap && s.base.ring.sendEnd != cfg.prefix && s.base.writerRunning
  {
    WriteBuf.CutGroupNeedsFlight(cfg, s.base, step.fs);
  }

  // ---------------------------------------------------------------- what the socket has carried

  /**
   * In every run in which no header changes a queued frame and no queued frame a header, though they may share bytes:
   * the socket has carried the batches in order, each as one unmasked binary message, the last one cut short if its
   * write failed; and their frames are the first of those accepted.
   */
  lemma SocketCarriesBatches(cfg: Config, steps: seq<Step>)
    requires HeaderRoom(cfg) && StepsOk(cfg, steps)
    ensures var s := Exec(cfg, steps);
      && NoneEmpty(s.batches) && (forall b :: b in s.batches ==> 3 <= Size(b) <= cfg.maxFramePayload)
      && Concat(s.batches) <= s.base.accepted
      && (!s.failed ==> Concat(s.batches) == s.base.written)
      && (!s.mem.spoiled ==> s.socket <= Streamed(s.batches) && (!s.failed ==> s.socket == Streamed(s.batches)))
  {
    var s := Exec(cfg, steps);
    forall b | b in s.batches ensures Size(b) >= 3 {
      SizeNonempty(b);
    }
  }
}
