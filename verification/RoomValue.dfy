/** sendRoomValue: one message when it fits a frame, a group of pieces otherwise. */
module RoomValue {
  import opened BipRing
  import opened Chunks
  import opened ConnWriteBuf
  import opened Frames
  import opened Packing
  import opened RingGroups
  import opened WriteBuf
  import Codec

  lemma {:induction false} PiecesTyped(v: Value, size: nat)
    requires size > 0 && v.changeSeq < Codec.MAX_UINT64
    ensures forall m :: m in Pieces(v, size) ==> Codec.Typed(m)
    decreases |v.liveData|
  {
    if |v.liveData| > size {
      PiecesTyped(v.(liveData := v.liveData[size..]), size);
    }
  }

  // ---------------------------------------------------------------- when a value is sent

  predicate AllCarried(cfg: Config, msgs: seq<Codec.Msg>) { forall m :: m in msgs ==> Carried(cfg, m) }

  lemma CarriedFit(cfg: Config, msgs: seq<Codec.Msg>)
    requires AllCarried(cfg, msgs)
    ensures AllFit(msgs)
  {
  }

  /** v goes out as one message. */
  predicate IsSingle(v: Value, maxFrame: int) { TailMeta(v) + |v.liveData| <= maxFrame }

  /** The buffer has room for the messages of v: for the one, or, under pushMsgsAtomic's check, for all of them. */
  predicate HasRoom(cfg: Config, r: Ring, v: Value, maxFrame: int)
    requires Valid(cfg, r) && AllCarried(cfg, SendMsgs(v, maxFrame))
  {
    var fs := Pack(SendMsgs(v, maxFrame));
    if IsSingle(v, maxFrame) then Alloc(cfg, r, fs[0]).Placed?
    else Size(fs) <= FreeForAlloc(cfg, r) && PlacesAll(cfg, r, fs)
  }

  /** With the cap the server sets, a message of v is too large exactly if a field of its metadata is too long for its
      length prefix or the metadata leaves no room in the frame, for one byte of live data if there is any. (Then a
      value without live data is sent as no message: Chunks.NothingSentIff.) */
  lemma CarriedIff(cfg: Config, v: Value, maxFrame: int)
    requires 0 < maxFrame <= 65535 && cfg.maxFramePayload == maxFrame + 2 && v.changeSeq < Codec.MAX_UINT64
    ensures AllCarried(cfg, SendMsgs(v, maxFrame)) <==>
      if v.liveData == [] then TailMeta(v) <= maxFrame ==> MetaOk(v) else MetaOk(v) && TailMeta(v) < maxFrame
  {
    var msgs := SendMsgs(v, maxFrame);
    if IsSingle(v, maxFrame) {
      assert Whole(v) in msgs;
      if MetaOk(v) {
        WholeSize(v);
      }
    } else if v.liveData != [] {
      PiecesShape(v, ChunkSize(v, maxFrame));
      assert msgs[|msgs| - 1] in msgs;
      if MetaOk(v) {
        PiecesFit(v, maxFrame);
        assert forall m :: m in msgs ==> (Carried(cfg, m) <==> Sendable(m, maxFrame));
      }
    }
  }

  /** What sendRoomValue reports, on the state before the call. */
  predicate Reports(cfg: Config, s: State, v: Value, maxFrame: int, result: PushResult)
    requires Valid(cfg, s.ring)
  {
    var carried := AllCarried(cfg, SendMsgs(v, maxFrame));
    && (result == MsgTooLarge <==> !carried)
    && (result == Broken <==> carried && s.isBroken)
    && (result == BufFull <==> carried && !s.isBroken && !HasRoom(cfg, s.ring, v, maxFrame))
    && (result == PushOk <==> carried && !s.isBroken && HasRoom(cfg, s.ring, v, maxFrame))
  }

  /** The step it takes in the write buffer's machine. */
  function SendStep(v: Value, maxFrame: int, w: nat): Step
    requires AllFit(SendMsgs(v, maxFrame))
  {
    var fs := Pack(SendMsgs(v, maxFrame));
    if IsSingle(v, maxFrame) then DoPush(fs[0], w) else DoPushGroup(fs, w)
  }

  /**
   * Everything is sent that should be: on an unbroken connection whose buffer may still grow, or has nothing in
   * flight, a value whose messages are within FreeForAlloc is accepted.
   */
  lemma WithinFreeIsAccepted(cfg: Config, s: State, v: Value, maxFrame: int, result: PushResult)
    requires Inv(cfg, s) && !s.isBroken && (s.ring.cap < cfg.maxCap || AtBase(cfg, s.ring))
    requires MetaOk(v) && TailMeta(v) < maxFrame <= 65535
    requires cfg.maxFramePayload == 0 || maxFrame + 2 <= cfg.maxFramePayload
    requires Reports(cfg, s, v, maxFrame, result)
    ensures AllFit(SendMsgs(v, maxFrame))
    ensures Size(Pack(SendMsgs(v, maxFrame))) <= FreeForAlloc(cfg, s.ring) ==> result == PushOk
  {
    var msgs := SendMsgs(v, maxFrame);
    SendMsgsFit(v, maxFrame);
    CarriedFit(cfg, msgs);
    CarriedIsLegal(cfg, msgs);
    if Size(Pack(msgs)) <= FreeForAlloc(cfg, s.ring) {
      GroupFits(cfg, s.ring, Pack(msgs));
    }
  }

  lemma {:induction false} CarriedIsLegal(cfg: Config, msgs: seq<Codec.Msg>)
    requires AllCarried(cfg, msgs) && AllFit(msgs)
    ensures AllLegal(cfg, Pack(msgs))
  {
    if msgs != [] {
      assert msgs[0] in msgs;
      CarriedIsLegal(cfg, msgs[1..]);
    }
  }

  // ---------------------------------------------------------------- sendRoomValue

  /** What a push of the one message reports and adds. */
  lemma PushReports(cfg: Config, s: State, v: Value, maxFrame: int, w: nat)
    requires Inv(cfg, s) && IsSingle(v, maxFrame) && Fits(Whole(v))
    ensures SendMsgs(v, maxFrame) == [Whole(v)] && Pack([Whole(v)]) == [FrameOf(Whole(v))]
    ensures var (next, result) := Push(cfg, s, FrameOf(Whole(v)), w);
      && (Carried(cfg, Whole(v)) ==> Reports(cfg, s, v, maxFrame, result))
      && (result == PushOk ==> next.accepted == s.accepted + Pack([Whole(v)]))
      && (result != PushOk ==> next == s)
  {
    assert [Whole(v)][1..] == [] && Pack([Whole(v)]) == [FrameOf(Whole(v))];
  }

  lemma GroupReports(cfg: Config, s: State, v: Value, maxFrame: int, w: nat)
    requires Inv(cfg, s) && !IsSingle(v, maxFrame) && w !in s.writers
    requires AllCarried(cfg, SendMsgs(v, maxFrame)) && AllFit(SendMsgs(v, maxFrame))
    ensures var fs := Pack(SendMsgs(v, maxFrame)); var (next, result) := PushGroup(cfg, s, fs, w);
      && Reports(cfg, s, v, maxFrame, result)
      && (result == PushOk ==> next.accepted == s.accepted + fs)
      && (result != PushOk && !CutsGroup(cfg, s, fs) ==> next == s)
  {
    CarriedIsLegal(cfg, SendMsgs(v, maxFrame));
    GroupIsAtomic(cfg, s, Pack(SendMsgs(v, maxFrame)), w);
  }

  /** The one message through pushMsg. */
  method SendWhole(wb: ServerConnWriteBuf, v: Value, maxFrame: int, ghost w: nat) returns (result: PushResult)
    requires wb.Valid() && w !in wb.state.writers && v.changeSeq < Codec.MAX_UINT64 && IsSingle(v, maxFrame)
    modifies wb, wb.bipBuf, wb.bipBuf.buf
    ensures wb.Valid() && wb.wire == old(wb.wire)
    ensures Reports(wb.bipBuf.cfg, old(wb.state), v, maxFrame, result)
    ensures result != MsgTooLarge ==>
      AllFit(SendMsgs(v, maxFrame)) && wb.state == Next(wb.bipBuf.cfg, old(wb.state), SendStep(v, maxFrame, w))
    ensures result == PushOk ==> wb.state.accepted == old(wb.state.accepted) + Pack(SendMsgs(v, maxFrame))
    ensures result != PushOk ==> wb.state == old(wb.state)
  {
    ghost var s := wb.state;
    if Fits(Whole(v)) {
      PushReports(wb.bipBuf.cfg, s, v, maxFrame, w);
    }
    result := wb.PushMsg(Whole(v), w);
  }

  /** The pieces through pushMsgsAtomic. */
  method SendPieces(wb: ServerConnWriteBuf, v: Value, maxFrame: int, ghost w: nat) returns (result: PushResult)
    requires wb.Valid() && w !in wb.state.writers && v.changeSeq < Codec.MAX_UINT64 && !IsSingle(v, maxFrame)
    modifies wb, wb.bipBuf, wb.bipBuf.buf
    ensures wb.Valid() && wb.wire == old(wb.wire)
    ensures Reports(wb.bipBuf.cfg, old(wb.state), v, maxFrame, result)
    ensures result == MsgTooLarge ==> wb.state == old(wb.state)
    ensures result != MsgTooLarge ==>
      AllFit(SendMsgs(v, maxFrame)) && wb.state == Next(wb.bipBuf.cfg, old(wb.state), SendStep(v, maxFrame, w))
    ensures result == PushOk ==> wb.state.accepted == old(wb.state.accepted) + Pack(SendMsgs(v, maxFrame))
    ensures result != PushOk && CutsNothing(wb.bipBuf.cfg, old(wb.state)) ==> wb.state == old(wb.state)
  {
    ghost var s := wb.state;
    PiecesTyped(v, ChunkSize(v, maxFrame));
    var msgs := BuildRoomValueChunks(v, maxFrame);
    if AllCarried(wb.bipBuf.cfg, msgs) {
      CarriedFit(wb.bipBuf.cfg, msgs);
      GroupReports(wb.bipBuf.cfg, s, v, maxFrame, w);
    }
    result := wb.PushMsgsAtomic(msgs, w);
  }

  /**
   * What it reports is decided by the state before the call, and it takes the step SendStep of the write buffer unless
   * a message is too large. What it accepts is the value's whole group of messages, or nothing at all where no group
   * can be cut; AtomicIff says on the cursors when that is.
   */
  method SendRoomValue(wb: ServerConnWriteBuf, v: Value, maxFrame: int, ghost w: nat) returns (result: PushResult)
    requires wb.Valid() && w !in wb.state.writers && v.changeSeq < Codec.MAX_UINT64
    modifies wb, wb.bipBuf, wb.bipBuf.buf
    ensures wb.Valid() && wb.wire == old(wb.wire)
    ensures Reports(wb.bipBuf.cfg, old(wb.state), v, maxFrame, result)
    ensures result == MsgTooLarge ==> wb.state == old(wb.state)
    ensures result != MsgTooLarge ==>
      AllFit(SendMsgs(v, maxFrame)) && wb.state == Next(wb.bipBuf.cfg, old(wb.state), SendStep(v, maxFrame, w))
    ensures result == PushOk ==> wb.state.accepted == old(wb.state.accepted) + Pack(SendMsgs(v, maxFrame))
    ensures result != PushOk && CutsNothing(wb.bipBuf.cfg, old(wb.state)) ==> wb.state == old(wb.state)
  {
    var singleSize := TailMeta(v) + |v.liveData|;
    if singleSize <= maxFrame {
      result := SendWhole(wb, v, maxFrame, w);
    } else {
      result := SendPieces(wb, v, maxFrame, w);
    }
  }
}
