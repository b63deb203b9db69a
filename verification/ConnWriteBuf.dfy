/**
 * The write buffer as the server keeps it: fields under a mutex around a BipBuf, and a writer that sends slices of
 * its array outside the lock. Each method is one locked section, or one write, and refines a step of WriteBuf.
 */
module ConnWriteBuf {
  import opened Bytes
  import opened Frames
  import opened BipRing
  import opened RingBytes
  import opened BipBuf
  import opened Packing
  import opened RingGroups
  import opened WriteBuf
  import Codec
  import WebSocket

  /** Refilling twice is refilling once. */
  lemma RefilledTwice(r: Ring, f: Frame, g: Frame)
    ensures Refilled(Refilled(r, f), g) == Refilled(r, g)
  {
    if r.back != [] {
      TakeDropConcat(r.back[..|r.back| - 1], [f]);
    } else if r.front != [] {
      TakeDropConcat(r.front[..|r.front| - 1], [f]);
    }
  }

  class ServerConnWriteBuf {
    const bipBuf: Frame16BipBuf2
    var writerRunning: bool
    var isBroken: bool
    ghost var state: State     // the fields, the goroutines and the history
    ghost var wire: seq<byte>  // payload bytes written so far

    ghost predicate Valid()
      reads this, bipBuf, bipBuf.buf, if bipBuf.flight.Some? then {bipBuf.flight.value.arr} else {}
    {
      bipBuf.Valid() && Agrees()
    }

    /** The fields and the buffer's cursors are those of the machine. */
    ghost predicate Agrees()
      reads this, bipBuf
    {
      && state.ring == bipBuf.ring && state.writerRunning == writerRunning && state.isBroken == isBroken
      && Inv(bipBuf.cfg, state)
      && wire == Encode(state.written)
      && forall w :: w in state.writers && state.writers[w] != [] ==> HandsOut(state.writers[w])
    }

    /** The slice in flight is this batch. */
    ghost predicate HandsOut(frames: seq<Frame>)
      reads bipBuf
    {
      bipBuf.flight.Some? && bipBuf.batch == frames
    }

    constructor (maxCap: nat, prefix: nat, suffix: nat, maxFramePayload: nat)
      ensures Valid() && state == Start(bipBuf.cfg) && wire == []
      ensures fresh(bipBuf) && fresh(bipBuf.buf)
    {
      bipBuf := new Frame16BipBuf2(maxCap, prefix, suffix, maxFramePayload);
      writerRunning, isBroken := false, false;
      wire := [];
      new;
      state := Start(bipBuf.cfg);
      StartInv(bipBuf.cfg);
    }

    /** AllocFrame, then the contents into the slot it returned. */
    method Append(data: Frame) returns (ok: bool)
      requires bipBuf.Valid()
      modifies bipBuf, bipBuf.buf
      ensures bipBuf.Valid() && bipBuf.flight == old(bipBuf.flight) && bipBuf.batch == old(bipBuf.batch)
      ensures bipBuf.buf == old(bipBuf.buf) || fresh(bipBuf.buf)
      ensures ok <==> Alloc(bipBuf.cfg, old(bipBuf.ring), data).Placed?
      ensures bipBuf.ring == if ok then Alloc(bipBuf.cfg, old(bipBuf.ring), data).ring else old(bipBuf.ring)
    {
      ghost var r := bipBuf.ring;
      AllocBySize(bipBuf.cfg, r, data, Blank(|data|));
      AllocBySize(bipBuf.cfg, r, Blank(|data|), data);
      var slot := bipBuf.AllocFrame(|data|);
      if slot.None? {
        return false;
      }
      ghost var mid := bipBuf.ring;
      RefilledTwice(mid, Blank(|data|), data);
      bipBuf.Fill(slot.value, data);
      return true;
    }

    /** The frame a message is sent in; None when it cannot be serialised or is too large for a frame. */
    method Marshal(m: Codec.Msg) returns (f: Option<Frame>)
      requires Codec.Typed(m)
      ensures f.None? <==> !Carried(bipBuf.cfg, m)
      ensures f.Some? ==> f.value == FrameOf(m)
    {
      Codec.SizeIsExact(m);
      var size := Codec.BinarySize(m);
      if size.Err? {
        return None;
      }
      var msgSize := size.value;
      if msgSize > 65535 || (bipBuf.cfg.maxFramePayload > 0 && 2 + msgSize > bipBuf.cfg.maxFramePayload) {
        return None;
      }
      return Some(FrameOf(m));
    }

    /** pushMsg. w names the goroutine it may start. */
    method PushMsg(m: Codec.Msg, ghost w: nat) returns (result: PushResult)
      requires Valid() && Codec.Typed(m) && w !in state.writers
      modifies this, bipBuf, bipBuf.buf
      ensures Valid() && wire == old(wire)
      ensures result == MsgTooLarge <==> !Carried(bipBuf.cfg, m)
      ensures result == MsgTooLarge ==> state == old(state)
      ensures result != MsgTooLarge ==> (state, result) == Push(bipBuf.cfg, old(state), FrameOf(m), w)
    {
      var f := Marshal(m);
      if f.None? {
        return MsgTooLarge;
      }
      result := PushFrame(f.value, w);
    }

    /** The locked section of pushMsg. */
    method PushFrame(f: Frame, ghost w: nat) returns (result: PushResult)
      requires Valid() && w !in state.writers
      modifies this, bipBuf, bipBuf.buf
      ensures Valid() && wire == old(wire)
      ensures (state, result) == Push(bipBuf.cfg, old(state), f, w)
    {
      ghost var next := Push(bipBuf.cfg, state, f, w).0;
      PushInv(bipBuf.cfg, state, f, w);
      PushEffectOf(bipBuf.cfg, state, f, w);
      if isBroken {
        result := Broken;
      } else {
        var ok := Append(f);
        result := if ok then PushOk else BufFull;
      }
      Commit(writerRunning || result == PushOk, next);
    }

    /** The end of a locked section: the flag, and the state the section led to. */
    method Commit(running: bool, ghost next: State)
      requires bipBuf.Valid() && Inv(bipBuf.cfg, next) && next.ring == bipBuf.ring && next.isBroken == isBroken
      requires next.writerRunning == running && wire == Encode(next.written)
      requires forall v :: v in next.writers && next.writers[v] != [] ==> HandsOut(next.writers[v])
      modifies this`writerRunning, this`state
      ensures Valid() && state == next
    {
      writerRunning := running;
      state := next;
    }

    /** AllocFrame for each frame of a group until one is refused; how many were placed. */
    method AppendAll(fs: seq<Frame>) returns (n: nat)
      requires bipBuf.Valid()
      modifies bipBuf, bipBuf.buf
      ensures bipBuf.Valid() && bipBuf.flight == old(bipBuf.flight) && bipBuf.batch == old(bipBuf.batch)
      ensures bipBuf.buf == old(bipBuf.buf) || fresh(bipBuf.buf)
      ensures (bipBuf.ring, n) == AllocSome(bipBuf.cfg, old(bipBuf.ring), fs)
    {
      hide Holds;
      hide BipRing.Valid;
      ghost var whole := AllocSome(bipBuf.cfg, bipBuf.ring, fs);
      n := 0;
      assert fs[0..] == fs;
      while n < |fs|
        invariant n <= |fs| && bipBuf.Valid()
        invariant bipBuf.flight == old(bipBuf.flight) && bipBuf.batch == old(bipBuf.batch)
        invariant bipBuf.buf == old(bipBuf.buf) || fresh(bipBuf.buf)
        invariant AllocSome(bipBuf.cfg, bipBuf.ring, fs[n..]) == (whole.0, whole.1 - n)
      {
        assert fs[n..][0] == fs[n] && fs[n..][1..] == fs[n + 1..];
        var ok := Append(fs[n]);
        if !ok {
          return;
        }
        n := n + 1;
      }
    }

    /** The group part of pushMsgsAtomic: the capacity check, then AllocFrame for each frame. */
    method AppendGroup(fs: seq<Frame>) returns (result: PushResult)
      requires bipBuf.Valid()
      modifies bipBuf, bipBuf.buf
      ensures bipBuf.Valid() && bipBuf.flight == old(bipBuf.flight) && bipBuf.batch == old(bipBuf.batch)
      ensures bipBuf.buf == old(bipBuf.buf) || fresh(bipBuf.buf)
      ensures (bipBuf.ring, result) == GroupResult(bipBuf.cfg, old(bipBuf.ring), fs)
    {
      var free := bipBuf.FreeForAllocNow();
      if Size(fs) > free {
        return BufFull;
      }
      var placed := AppendAll(fs);
      return if placed == |fs| then PushOk else BufFull;
    }

    /** The locked section of pushMsgsAtomic. */
    method PushFrames(fs: seq<Frame>, ghost w: nat) returns (result: PushResult)
      requires Valid() && AllLegal(bipBuf.cfg, fs) && w !in state.writers
      modifies this, bipBuf, bipBuf.buf
      ensures Valid() && wire == old(wire)
      ensures (state, result) == PushGroup(bipBuf.cfg, old(state), fs, w)
    {
      ghost var next := PushGroup(bipBuf.cfg, state, fs, w).0;
      PushGroupInv(bipBuf.cfg, state, fs, w);
      PushGroupEffect(bipBuf.cfg, state, fs, w);
      hide Inv;
      hide PushGroup;
      hide Holds;
      if isBroken {
        result := Broken;
      } else {
        result := AppendGroup(fs);
      }
      Commit(writerRunning || result == PushOk, next);
    }

    /** The frames of a group; None when one of the messages cannot be carried. */
    method MarshalAll(msgs: seq<Codec.Msg>) returns (fs: Option<seq<Frame>>)
      requires forall m :: m in msgs ==> Codec.Typed(m)
      ensures fs.None? <==> exists m :: m in msgs && !Carried(bipBuf.cfg, m)
      ensures fs.Some? ==> AllFit(msgs) && fs.value == Pack(msgs) && AllLegal(bipBuf.cfg, fs.value)
    {
      var done: seq<Frame> := [];
      for i := 0 to |msgs|
        invariant forall m :: m in msgs[..i] ==> Carried(bipBuf.cfg, m)
        invariant AllFit(msgs[..i]) && done == Pack(msgs[..i]) && AllLegal(bipBuf.cfg, done)
      {
        assert msgs[..i + 1] == msgs[..i] + [msgs[i]];
        var f := Marshal(msgs[i]);
        if f.None? {
          assert msgs[i] in msgs;
          return None;
        }
        PackSnoc(msgs[..i], msgs[i]);
        done := done + [f.value];
      }
      assert msgs[..|msgs|] == msgs;
      return Some(done);
    }

    /** pushMsgsAtomic: nothing happens unless every message can be carried. */
    method PushMsgsAtomic(msgs: seq<Codec.Msg>, ghost w: nat) returns (result: PushResult)
      requires Valid() && w !in state.writers && forall m :: m in msgs ==> Codec.Typed(m)
      modifies this, bipBuf, bipBuf.buf
      ensures Valid() && wire == old(wire)
      ensures result == MsgTooLarge <==> exists m :: m in msgs && !Carried(bipBuf.cfg, m)
      ensures result == MsgTooLarge ==> state == old(state)
      ensures result != MsgTooLarge ==>
        && AllFit(msgs) && AllLegal(bipBuf.cfg, Pack(msgs))
        && (state, result) == PushGroup(bipBuf.cfg, old(state), Pack(msgs), w)
    {
      hide Pack;
      hide Holds;
      hide Inv;
      var fs := MarshalAll(msgs);
      if fs.None? {
        return MsgTooLarge;
      }
      result := PushFrames(fs.value, w);
    }

    method MarkBroken()
      requires Valid()
      modifies this
      ensures Valid() && state == WriteBuf.MarkBroken(old(state)) && wire == old(wire)
    {
      hide Encode;
      hide Holds;
      hide BipRing.Valid;
      WriterInv(bipBuf.cfg, state, DoBreak);
      isBroken := true;
      writerRunning := false;
      state := WriteBuf.MarkBroken(state);
    }

    /** The locked section at the top of writeLoop: the batch to send, or None when the loop ends. */
    method WriterTake(ghost w: nat) returns (batch: Option<Slice>)
      requires Valid() && w in state.writers && state.writers[w] == []
      modifies this, bipBuf
      ensures Valid() && wire == old(wire)
      ensures state == TakeBatch(bipBuf.cfg, old(state), w)
      ensures batch.None? <==> w !in state.writers
      ensures batch.Some? ==> bipBuf.flight == batch && state.writers[w] != [] && HandsOut(state.writers[w])
    {
      ghost var next := TakeBatch(bipBuf.cfg, state, w);
      TakeBatchInv(bipBuf.cfg, state, w);
      TakeEffect(bipBuf.cfg, state, w);
      batch := None;
      if !isBroken {
        batch := bipBuf.TakeSendSlice();
      }
      Commit(writerRunning && batch.Some?, next);
    }

    /** The header WriteFrame puts in front of a batch's payload. */
    function HeaderFor(batch: Slice): seq<byte>
      requires batch.start + bipBuf.cfg.prefix <= batch.end
    {
      WebSocket.Header(2, batch.end - (batch.start + bipBuf.cfg.prefix), None)
    }

    /** What WriteFrame sends for the batch: header and payload, in place when the scratch takes the header. */
    method Send(batch: Slice) returns (sent: seq<byte>)
      requires bipBuf.Valid() && bipBuf.flight == Some(batch)
      modifies batch.arr
      ensures bipBuf.Linked() && BipRing.Valid(bipBuf.cfg, bipBuf.ring) && bipBuf.FlightOk()
      ensures sent == WebSocket.FrameBytes(2, Encode(bipBuf.batch), None)
      ensures var head := HeaderFor(batch);
        bipBuf.Valid() <==> |head| > bipBuf.cfg.prefix || old(bipBuf.HeaderFits(head))
    {
      hide Holds;
      hide BipRing.Valid;
      var start := batch.start + bipBuf.cfg.prefix;
      var head := HeaderFor(batch);
      assert batch.arr[start..batch.end] == Encode(bipBuf.batch);
      if |head| <= bipBuf.cfg.prefix {
        bipBuf.WriteHeader(batch, head);
        sent := batch.arr[start - |head|..batch.end];
      } else {
        sent := head + batch.arr[start..batch.end];
      }
    }

    /** The batch is written. */
    ghost method NoteWritten(w: nat)
      requires Agrees() && w in state.writers && state.writers[w] != []
      modifies this`wire, this`state
      ensures Agrees() && state == Next(bipBuf.cfg, old(state), DoWritten(w))
      ensures wire == old(wire) + Encode(old(state.writers[w]))
    {
      WriterInv(bipBuf.cfg, state, DoWritten(w));
      WrittenEffect(bipBuf.cfg, state, w);
      hide Inv;
      wire := wire + Encode(state.writers[w]);
      state := Next(bipBuf.cfg, state, DoWritten(w));
    }

    /**
     * WriteFrame on the batch taken. What it sends is the batch in one binary message, whatever has been pushed since.
     * The buffer is intact afterwards exactly when the header was not written into it, or it has moved away from the
     * slice, or no queued byte was under the header, or those that were are the header's own.
     */
    method WriterWrite(batch: Slice, ghost w: nat) returns (sent: seq<byte>)
      requires Valid() && w in state.writers && state.writers[w] != [] && bipBuf.flight == Some(batch)
      modifies this, batch.arr
      ensures state == Next(bipBuf.cfg, old(state), DoWritten(w))
      ensures sent == WebSocket.FrameBytes(2, Encode(old(state.writers[w])), None)
      ensures wire == old(wire) + Encode(old(state.writers[w]))
      ensures var head := HeaderFor(batch);
        Valid() <==> |head| > bipBuf.cfg.prefix || old(bipBuf.HeaderFits(head))
    {
      ghost var frames := state.writers[w];
      assert HandsOut(frames) && BipRing.Valid(bipBuf.cfg, bipBuf.ring);
      hide Inv;
      hide Encode;
      hide Holds;
      hide BipRing.Valid;
      hide WebSocket.FrameBytes;
      sent := Send(batch);
      NoteWritten(w);
    }

    /** The connection was closed, or WriteFrame failed. */
    method WriterFail(ghost w: nat)
      requires Valid() && w in state.writers && state.writers[w] != []
      modifies this
      ensures Valid() && state == Next(bipBuf.cfg, old(state), DoFailed(w)) && wire == old(wire)
    {
      hide Encode;
      hide Holds;
      hide BipRing.Valid;
      ghost var next := Next(bipBuf.cfg, state, DoFailed(w));
      WriterInv(bipBuf.cfg, state, DoFailed(w));
      InHandIs(state, w);
      isBroken := true;
      writerRunning := false;
      state := next;
    }
  }
}
