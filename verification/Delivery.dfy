/**
 * From sendRoomValue on the server to onRoomValue on the client, over one unbroken connection: messages, frames,
 * batches, WebSocket messages, bytes, and all the way back.
 */
module Delivery {
  import opened Bytes
  import opened Chunks
  import opened WebSocket
  import Codec
  import Frames
  import opened Packing
  import BipRing
  import RoomValue
  import opened WireRun

  type Frame = Frames.Frame

  // ---------------------------------------------------------------- the client's read loop

  /** The loop over the messages of one WebSocket message; anything malformed closes the connection. */
  function Serve(r: Reader, data: seq<byte>, limit: nat): Reader
    decreases |data|
  {
    if r.closed || data == [] then r
    else if |data| < 2 then r.(closed := true)
    else
      var n := FromLe16(data[0], data[1]);
      if n == 0 || |data| < 2 + n then r.(closed := true)
      else
        match Codec.Decode(data[2..2 + n])
        case None => r.(closed := true)
        case Some(m) => Serve(Handle(r, m, limit), data[2 + n..], limit)
  }

  /** One turn of readThread; an empty WebSocket message closes the connection. */
  function ServeMessage(r: Reader, data: seq<byte>, limit: nat): Reader {
    if r.closed then r else if data == [] then r.(closed := true) else Serve(r, data, limit)
  }

  function ServeAll(r: Reader, messages: seq<seq<byte>>, limit: nat): Reader
    decreases |messages|
  {
    if messages == [] then r else ServeAll(ServeMessage(r, messages[0], limit), messages[1..], limit)
  }

  /** What readThread does with one WebSocket message. */
  method OnMessage(conn: ClientConn, message: seq<byte>, limit: nat)
    requires !conn.closed
    modifies conn
    ensures conn.Abs() == ServeMessage(old(conn.Abs()), message, limit)
  {
    if |message| == 0 {
      conn.closed := true;
      return;
    }
    var data := message;
    while |data| > 0
      invariant !conn.closed
      invariant Serve(conn.Abs(), data, limit) == Serve(old(conn.Abs()), message, limit)
      decreases |data|
    {
      if |data| < 2 {
        conn.closed := true;
        return;
      }
      var frameLen := FromLe16(data[0], data[1]);
      if frameLen == 0 || |data| < 2 + frameLen {
        conn.closed := true;
        return;
      }
      var msg := Codec.Decode(data[2..2 + frameLen]);
      if msg.None? {
        conn.closed := true;
        return;
      }
      data := data[2 + frameLen..];
      var _ := conn.OnReadMsg(msg.value, limit);
      if conn.closed {
        return;
      }
    }
  }

  // ---------------------------------------------------------------- frames

  /** Reading a run of packed messages handles each of them. */
  lemma {:induction false} ServePacked(r: Reader, msgs: seq<Codec.Msg>, limit: nat)
    requires AllFit(msgs)
    ensures Serve(r, Frames.Encode(Pack(msgs)), limit) == HandleAll(r, msgs, limit)
    decreases |msgs|
  {
    if r.closed {
      ClosedStays(r, msgs, limit);
    } else if msgs != [] {
      var m, rest := msgs[0], Frames.Encode(Pack(msgs[1..]));
      assert m in msgs;
      FrontFrame(Codec.Encode(m), rest);
      Codec.RoundTrip(m, []);
      assert Codec.Encode(m) + [] == Codec.Encode(m);
      ServePacked(Handle(r, m, limit), msgs[1..], limit);
    }
  }

  lemma FrontFrame(f: Frame, rest: seq<byte>)
    ensures var data := Frames.EncodeFrame(f) + rest;
      |data| >= 2 + |f| && FromLe16(data[0], data[1]) == |f| && data[2..2 + |f|] == f && data[2 + |f|..] == rest
  {
    var data := Frames.EncodeFrame(f) + rest;
    assert data[0] == Le16(|f|)[0] && data[1] == Le16(|f|)[1];
  }

  predicate AllDecode(fs: seq<Frame>) { forall f :: f in fs ==> Codec.Decode(f).Some? }

  function Decoded(fs: seq<Frame>): seq<Codec.Msg>
    requires AllDecode(fs)
  {
    if fs == [] then []
    else
      assert fs[0] in fs;
      [Codec.Decode(fs[0]).value] + Decoded(fs[1..])
  }

  /** What is malformed: the bytes are handled message by message if they are frames that all decode, and otherwise the
      connection is closed. */
  lemma {:induction false} ServeIff(r: Reader, data: seq<byte>, limit: nat)
    requires !r.closed
    ensures match Frames.Split(data)
      case Some(fs) => if AllDecode(fs) then Serve(r, data, limit) == HandleAll(r, Decoded(fs), limit)
                       else Serve(r, data, limit).closed
      case None => Serve(r, data, limit).closed
    decreases |data|
  {
    if |data| >= 2 {
      var n := FromLe16(data[0], data[1]);
      if n > 0 && |data| >= 2 + n && Codec.Decode(data[2..2 + n]).Some? {
        var next := Handle(r, Codec.Decode(data[2..2 + n]).value, limit);
        if next.closed {
          ClosedServe(next, data, n, limit);
        } else {
          ServeIff(next, data[2 + n..], limit);
        }
      }
    }
  }

  /** What closes the connection: an empty message, bytes that are not frames, a frame that does not decode, or a
      message that is itself refused. Otherwise every message of it is handled, in order. */
  lemma ServeMessageIff(r: Reader, data: seq<byte>, limit: nat)
    requires !r.closed
    ensures var fs := Frames.Split(data);
      if data == [] || fs.None? || !AllDecode(fs.value) then ServeMessage(r, data, limit).closed
      else ServeMessage(r, data, limit) == HandleAll(r, Decoded(fs.value), limit)
  {
    ServeIff(r, data, limit);
  }

  lemma ClosedServe(r: Reader, data: seq<byte>, n: nat, limit: nat)
    requires r.closed && 2 + n <= |data|
    ensures Serve(r, data[2 + n..], limit) == r
    ensures forall msgs :: HandleAll(r, msgs, limit) == r
  {
    forall msgs ensures HandleAll(r, msgs, limit) == r {
      ClosedStays(r, msgs, limit);
    }
  }

  // ---------------------------------------------------------------- batches

  function EncodeEach(batches: seq<seq<Frame>>): seq<seq<byte>> {
    if batches == [] then [] else [Frames.Encode(batches[0])] + EncodeEach(batches[1..])
  }

  lemma ServeBatch(r: Reader, msgs: seq<Codec.Msg>, limit: nat)
    requires AllFit(msgs) && msgs != []
    ensures ServeMessage(r, Frames.Encode(Pack(msgs)), limit) == HandleAll(r, msgs, limit)
  {
    Frames.SizeIsLength(Pack(msgs));
    ServePacked(r, msgs, limit);
  }

  lemma FirstBatch(msgs: seq<Codec.Msg>, first: seq<Frame>, others: seq<Frame>)
    requires AllFit(msgs) && first + others == Pack(msgs)
    ensures |first| <= |msgs| && AllFit(msgs[..|first|]) && AllFit(msgs[|first|..])
    ensures first == Pack(msgs[..|first|]) && others == Pack(msgs[|first|..])
  {
    TakeDropConcat(first, others);
    PackTake(msgs, |first|);
  }

  lemma ServeAllCons(r: Reader, batches: seq<seq<Frame>>, limit: nat)
    requires batches != []
    ensures ServeAll(r, EncodeEach(batches), limit)
         == ServeAll(ServeMessage(r, Frames.Encode(batches[0]), limit), EncodeEach(batches[1..]), limit)
  {
    assert EncodeEach(batches)[1..] == EncodeEach(batches[1..]);
  }

  lemma HandleAllSplit(r: Reader, msgs: seq<Codec.Msg>, k: nat, limit: nat)
    requires k <= |msgs|
    ensures HandleAll(r, msgs, limit) == HandleAll(HandleAll(r, msgs[..k], limit), msgs[k..], limit)
  {
    HandleAppend(r, msgs[..k], msgs[k..], limit);
    assert msgs == msgs[..k] + msgs[k..];
  }

  /** However the frames are cut into batches, the client handles the same messages. */
  lemma {:induction false} ServeBatches(r: Reader, msgs: seq<Codec.Msg>, batches: seq<seq<Frame>>, limit: nat)
    requires AllFit(msgs) && NoneEmpty(batches) && Concat(batches) == Pack(msgs)
    ensures ServeAll(r, EncodeEach(batches), limit) == HandleAll(r, msgs, limit)
    decreases |batches|
  {
    if batches != [] {
      FirstBatch(msgs, batches[0], Concat(batches[1..]));
      var head, tail := msgs[..|batches[0]|], msgs[|batches[0]|..];
      ServeAllCons(r, batches, limit);
      ServeBatch(r, head, limit);
      ServeBatches(HandleAll(r, head, limit), tail, batches[1..], limit);
      HandleAllSplit(r, msgs, |batches[0]|, limit);
    }
  }

  lemma {:induction false} EncodeEachTake(batches: seq<seq<Frame>>, k: nat)
    requires k <= |EncodeEach(batches)|
    ensures k <= |batches| && EncodeEach(batches)[..k] == EncodeEach(batches[..k])
    ensures Concat(batches[..k]) <= Concat(batches)
    decreases k
  {
    if k > 0 {
      EncodeEachTake(batches[1..], k - 1);
      assert batches[1..][..k - 1] == batches[..k][1..];
    }
  }

  // ---------------------------------------------------------------- a stream cut anywhere

  /** More bytes behind a whole frame do not change how it reads. */
  lemma ParseExtends(s: seq<byte>, more: seq<byte>, max: nat)
    requires ParseFrame(s, max).Parsed?
    ensures var p := ParseFrame(s, max); ParseFrame(s + more, max) == Parsed(p.opcode, p.payload, p.rest + more)
  {
    HeadExtends(s, more, max);
    var h := ParseHead(s, max).value;
    assert (s + more)[h.at..h.at + h.length] == s[h.at..h.at + h.length];
    assert (s + more)[h.at + h.length..] == s[h.at + h.length..] + more;
  }

  lemma HeadExtends(s: seq<byte>, more: seq<byte>, max: nat)
    requires ParseHead(s, max).Some?
    ensures ParseHead(s + more, max) == ParseHead(s, max)
  {
    var at := 2 + ExtraLen(s[1]);
    assert (s + more)[2..at] == s[2..at];
  }

  lemma {:induction false} MessageExtends(s: seq<byte>, more: seq<byte>, max: nat)
    requires ReadMessage(s, max).Some?
    ensures var (payload, rest) := ReadMessage(s, max).value;
      ReadMessage(s + more, max) == Some((payload, rest + more))
    decreases |s|
  {
    ParseExtends(s, more, max);
    var p := ParseFrame(s, max);
    if p.opcode != 1 && p.opcode != 2 {
      MessageExtends(p.rest, more, max);
    }
  }

  /** A stream cut short yields the first messages of the whole stream. */
  lemma {:induction false} CutStreamReads(s: seq<byte>, more: seq<byte>, max: nat)
    ensures ReadAll(s, max) <= ReadAll(s + more, max)
    decreases |s|
  {
    ReadShrinks(s, max);
    ReadShrinks(s + more, max);
    if ReadMessage(s, max).Some? {
      MessageExtends(s, more, max);
      CutStreamReads(ReadMessage(s, max).value.1, more, max);
    }
  }

  // ---------------------------------------------------------------- the server's side

  predicate AllOk(items: seq<Item>, maxFrame: int, limit: nat) {
    forall i :: 0 <= i < |items| ==> ItemOk(items[i], maxFrame, limit)
  }

  lemma {:induction false} ItemsMsgsSnoc(items: seq<Item>, it: Item, maxFrame: int)
    ensures ItemsMsgs(items + [it], maxFrame) == ItemsMsgs(items, maxFrame) + ItemMsgs(it, maxFrame)
    decreases |items|
  {
    if items == [] {
      assert [it][1..] == [] && ItemMsgs(it, maxFrame) + [] == ItemMsgs(it, maxFrame);
    } else {
      ItemsMsgsSnoc(items[1..], it, maxFrame);
      assert (items + [it])[1..] == items[1..] + [it];
      Associative(ItemMsgs(items[0], maxFrame), ItemsMsgs(items[1..], maxFrame), ItemMsgs(it, maxFrame));
    }
  }

  // ---------------------------------------------------------------- end to end

  /** The frames of the batches are the first of the messages of the items. */
  predicate Conveys(batches: seq<seq<Frame>>, items: seq<Item>, maxFrame: int) {
    var msgs := ItemsMsgs(items, maxFrame);
    AllFit(msgs) && NoneEmpty(batches) && Concat(batches) <= Pack(msgs)
  }

  /** The client handles the messages of the first batches, however they are batched. */
  lemma BatchesServed(batches: seq<seq<Frame>>, items: seq<Item>, maxFrame: int, limit: nat, n: nat)
    requires Conveys(batches, items, maxFrame) && n <= |batches|
    ensures Concat(batches[..n]) <= Concat(batches)
    ensures var k := |Concat(batches[..n])|; var msgs := ItemsMsgs(items, maxFrame);
      k <= |msgs| && ServeAll(Fresh(), EncodeEach(batches[..n]), limit) == HandleAll(Fresh(), msgs[..k], limit)
  {
    var msgs := ItemsMsgs(items, maxFrame);
    ConcatSplit(batches, n);
    var k := |Concat(batches[..n])|;
    PackTake(msgs, k);
    assert Concat(batches[..n]) == Pack(msgs)[..k];
    ServeBatches(Fresh(), msgs[..k], batches[..n], limit);
  }

  /**
   * However the frames are batched, masked and interleaved with control frames, and wherever the byte stream is cut:
   * the values the client delivers are the first of the values sent, whole and unmixed, and the client finds no fault
   * with the stream.
   */
  lemma PrefixDelivered(
    items: seq<Item>, maxFrame: int, limit: nat, batches: seq<seq<Frame>>, sent: seq<Sent>, max: nat, n: nat)
    requires AllOk(items, maxFrame, limit) && Conveys(batches, items, maxFrame)
    requires (forall i :: 0 <= i < |sent| ==> SentOk(sent[i], max)) && Payloads(sent) == EncodeEach(batches)
    requires n <= |Stream(sent)|
    ensures var r := ServeAll(Fresh(), ReadAll(Stream(sent)[..n], max), limit);
      r.delivered <= Values(items) && !r.closed
  {
    hide ReadAll;
    hide Stream;
    hide ServeAll;
    var got := Stream(sent)[..n];
    StreamReadsBack(sent, max);
    assert Stream(sent) == got + Stream(sent)[n..];
    CutStreamReads(got, Stream(sent)[n..], max);
    var read := |ReadAll(got, max)|;
    EncodeEachTake(batches, read);
    assert ReadAll(got, max) == EncodeEach(batches[..read]);
    BatchesServed(batches, items, maxFrame, limit, read);
    PrefixArrives(items, maxFrame, limit, ItemsMsgs(items, maxFrame)[..|Concat(batches[..read])|]);
  }

  /** When every frame has been written and read, every value has been delivered. */
  lemma AllDelivered(
    items: seq<Item>, maxFrame: int, limit: nat, batches: seq<seq<Frame>>, sent: seq<Sent>, max: nat)
    requires AllOk(items, maxFrame, limit) && Conveys(batches, items, maxFrame)
    requires |Concat(batches)| == |ItemsMsgs(items, maxFrame)|
    requires (forall i :: 0 <= i < |sent| ==> SentOk(sent[i], max)) && Payloads(sent) == EncodeEach(batches)
    ensures ServeAll(Fresh(), ReadAll(Stream(sent), max), limit) == Reader(None, Values(items), false)
  {
    var msgs := ItemsMsgs(items, maxFrame);
    StreamReadsBack(sent, max);
    BatchesServed(batches, items, maxFrame, limit, |batches|);
    assert batches[..|batches|] == batches && msgs[..|msgs|] == msgs;
    ItemsArrive(Fresh(), items, maxFrame, limit);
    assert [] + Values(items) == Values(items);
  }

  // ---------------------------------------------------------------- one connection

  /** The hard limit on what is written for one frame, and on what is read of one. */
  const MAX_WRITE: int := 65536

  /** The configuration a connection's write buffer is given. */
  function ServerConfig(maxBytes: nat, prefix: nat, suffix: nat): BipRing.Config
    requires prefix + suffix + 2 < MAX_WRITE
  {
    BipRing.Config(maxBytes, prefix, suffix, MAX_WRITE - prefix - suffix)
  }

  /** maxSingleMsgSize. */
  function MaxSingleMsgSize(prefix: nat, suffix: nat): int { MAX_WRITE - prefix - suffix - 2 }

  /** A message of that size is exactly the longest the write buffer takes. */
  lemma SingleMsgIsLegal(maxBytes: nat, prefix: nat, suffix: nat, f: Frame)
    requires prefix + suffix + 2 < MAX_WRITE
    ensures BipRing.Legal(ServerConfig(maxBytes, prefix, suffix), f) <==> |f| <= MaxSingleMsgSize(prefix, suffix)
    ensures prefix == 4 && suffix == 0 ==> MaxSingleMsgSize(prefix, suffix) == 65530
  {
  }

  /** What goroutines do to a connection: push an item, w naming the writer this may start, or anything else. */
  datatype Act = Offer(it: Item, w: nat) | Do(step: WireRun.Step)

  /** The server's end of a connection, and the client's limit on reassembled data. */
  datatype Conn = Conn(maxBytes: nat, prefix: nat, suffix: nat, limit: nat)
  {
    predicate Sized() { prefix + suffix + 2 < MAX_WRITE && prefix >= 4 }

    function Cfg(): BipRing.Config
      requires Sized()
    {
      ServerConfig(maxBytes, prefix, suffix)
    }

    function MaxFrame(): int { MaxSingleMsgSize(prefix, suffix) }
  }

  /** Room values that leave the client's limits alone, and other messages the buffer carries. (A message it does not
      carry is turned away before the lock and changes nothing.) */
  predicate ActOk(c: Conn, act: Act)
    requires c.Sized()
  {
    match act
    case Offer(it, _) => ItemOk(it, c.MaxFrame(), c.limit) && (it.Other? ==> Carried(c.Cfg(), it.m))
    case Do(step) => !step.Push? && !step.PushGroup?
  }

  predicate ActsOk(c: Conn, acts: seq<Act>) {
    c.Sized() && forall i :: 0 <= i < |acts| ==> ActOk(c, acts[i])
  }

  lemma ItemIsCarried(c: Conn, it: Item, m: Codec.Msg)
    requires c.Sized() && ActOk(c, Offer(it, 0)) && m in ItemMsgs(it, c.MaxFrame())
    ensures Carried(c.Cfg(), m)
  {
    match it
    case Room(v) =>
      SendMsgsFit(v, c.MaxFrame());
      Codec.SizeIsExact(m);
    case Other(_) =>
  }

  lemma ItemPacks(c: Conn, it: Item)
    requires c.Sized() && ActOk(c, Offer(it, 0))
    ensures AllFit(ItemMsgs(it, c.MaxFrame()))
    ensures BipRing.AllLegal(c.Cfg(), Pack(ItemMsgs(it, c.MaxFrame())))
  {
    var msgs := ItemMsgs(it, c.MaxFrame());
    forall m | m in msgs ensures Carried(c.Cfg(), m) {
      ItemIsCarried(c, it, m);
    }
    forall i | 0 <= i < |msgs| ensures BipRing.Legal(c.Cfg(), Pack(msgs)[i]) {
      assert msgs[i] in msgs;
      PackAt(msgs, i);
    }
  }

  lemma {:induction false} PackAt(msgs: seq<Codec.Msg>, i: nat)
    requires AllFit(msgs) && i < |msgs|
    ensures msgs[i] in msgs && Pack(msgs)[i] == FrameOf(msgs[i])
  {
    if i > 0 {
      PackAt(msgs[1..], i - 1);
    }
  }

  /** A single message goes through pushMsg, the pieces of a value through pushMsgsAtomic. */
  function StepOf(c: Conn, act: Act): (step: WireRun.Step)
    requires c.Sized() && ActOk(c, act)
    ensures WireRun.StepOk(c.Cfg(), step)
  {
    match act
    case Do(step) => step
    case Offer(it, w) =>
      ItemPacks(c, it);
      var fs := Pack(ItemMsgs(it, c.MaxFrame()));
      if |fs| == 1 then Push(fs[0], w) else PushGroup(fs, w)
  }

  /** Offering a value is the step that sendRoomValue takes. */
  lemma OfferIsSendStep(c: Conn, v: Value, w: nat)
    requires c.Sized() && ActOk(c, Offer(Room(v), w))
    ensures AllFit(SendMsgs(v, c.MaxFrame()))
    ensures StepOf(c, Offer(Room(v), w)) ==
      match RoomValue.SendStep(v, c.MaxFrame(), w)
      case DoPush(f, w) => Push(f, w)
      case DoPushGroup(fs, w) => PushGroup(fs, w)
      case _ => Break
  {
    ItemPacks(c, Room(v));
    if !RoomValue.IsSingle(v, c.MaxFrame()) {
      var size := ChunkSize(v, c.MaxFrame());
      PiecesCons(v, size);
      PiecesShape(v.(liveData := v.liveData[size..]), size);
    }
  }

  function StepsOf(c: Conn, acts: seq<Act>): (steps: seq<WireRun.Step>)
    requires ActsOk(c, acts)
    ensures |steps| == |acts| && WireRun.StepsOk(c.Cfg(), steps)
  {
    if acts == [] then []
    else
      var last := |acts| - 1;
      assert ActOk(c, acts[last]);
      StepsOf(c, acts[..last]) + [StepOf(c, acts[last])]
  }

  ghost function Run(c: Conn, acts: seq<Act>): WireRun.State
    requires ActsOk(c, acts)
  {
    Exec(c.Cfg(), StepsOf(c, acts))
  }

  lemma RunSnoc(c: Conn, acts: seq<Act>)
    requires ActsOk(c, acts) && acts != []
    ensures var before, act := acts[..|acts| - 1], acts[|acts| - 1];
      && ActOk(c, act) && WireRun.Inv(c.Cfg(), Run(c, before))
      && Run(c, acts) == Next(c.Cfg(), Run(c, before), StepOf(c, act))
      && (Uncut(c.Cfg(), StepsOf(c, acts)) <==>
            Uncut(c.Cfg(), StepsOf(c, before)) && !CutsGroup(c.Cfg(), Run(c, before).base, StepOf(c, act)))
  {
    var steps := StepsOf(c, acts);
    assert steps[..|steps| - 1] == StepsOf(c, acts[..|acts| - 1]);
  }

  /** The items the write buffer has taken in, in lock order. */
  ghost function Kept(c: Conn, acts: seq<Act>): seq<Item>
    requires ActsOk(c, acts)
  {
    if acts == [] then []
    else
      var before, act := acts[..|acts| - 1], acts[|acts| - 1];
      if act.Offer? && Run(c, acts).base.accepted != Run(c, before).base.accepted then Kept(c, before) + [act.it]
      else Kept(c, before)
  }

  lemma {:induction false} KeptIsOk(c: Conn, acts: seq<Act>)
    requires ActsOk(c, acts)
    ensures AllOk(Kept(c, acts), c.MaxFrame(), c.limit)
    decreases |acts|
  {
    if acts != [] {
      KeptIsOk(c, acts[..|acts| - 1]);
      assert ActOk(c, acts[|acts| - 1]);
    }
  }

  /** As long as no group is cut, the frames accepted are exactly the messages of the items taken in. */
  lemma {:induction false} KeptIsAccepted(c: Conn, acts: seq<Act>)
    requires ActsOk(c, acts) && Uncut(c.Cfg(), StepsOf(c, acts))
    ensures var msgs := ItemsMsgs(Kept(c, acts), c.MaxFrame());
      AllFit(msgs) && Run(c, acts).base.accepted == Pack(msgs)
    decreases |acts|
  {
    hide Next;
    hide Inv;
    hide CutsGroup;
    if acts != [] {
      var before, act := acts[..|acts| - 1], acts[|acts| - 1];
      RunSnoc(c, acts);
      KeptIsAccepted(c, before);
      AllOrNothing(c.Cfg(), Run(c, before), StepOf(c, act));
      ActAccepts(c, Run(c, before), act);
      if Run(c, acts).base.accepted != Run(c, before).base.accepted {
        ItemPacks(c, act.it);
        ItemsMsgsSnoc(Kept(c, before), act.it, c.MaxFrame());
        PackAppend(ItemsMsgs(Kept(c, before), c.MaxFrame()), ItemMsgs(act.it, c.MaxFrame()));
      }
    }
  }

  lemma ActAccepts(c: Conn, s: WireRun.State, act: Act)
    requires c.Sized() && ActOk(c, act) && WireRun.Inv(c.Cfg(), s) && !CutsGroup(c.Cfg(), s.base, StepOf(c, act))
    ensures var next := Next(c.Cfg(), s, StepOf(c, act));
      next.base.accepted != s.base.accepted ==>
        act.Offer? && AllFit(ItemMsgs(act.it, c.MaxFrame()))
        && next.base.accepted == s.base.accepted + Pack(ItemMsgs(act.it, c.MaxFrame()))
  {
    AllOrNothing(c.Cfg(), s, StepOf(c, act));
    if act.Offer? {
      ItemPacks(c, act.it);
    }
  }

  // ---------------------------------------------------------------- end to end

  lemma {:induction false} WrappedPayloads(batches: seq<seq<Frame>>)
    ensures Payloads(Wrapped(batches)) == EncodeEach(batches)
  {
    if batches != [] {
      WrappedPayloads(batches[1..]);
      assert Wrapped(batches)[1..] == Wrapped(batches[1..]);
    }
  }

  lemma {:induction false} WrappedOk(batches: seq<seq<Frame>>, max: nat)
    requires max <= MAX_WRITE && forall b :: b in batches ==> Frames.Size(b) <= max
    ensures forall i :: 0 <= i < |Wrapped(batches)| ==> SentOk(Wrapped(batches)[i], MAX_WRITE)
  {
    if batches != [] {
      assert batches[0] in batches;
      Frames.SizeIsLength(batches[0]);
      WrappedOk(batches[1..], max);
    }
  }

  /** The batches of the run convey the items it took in, and the reader admits them all. */
  lemma RunConveys(c: Conn, acts: seq<Act>)
    requires ActsOk(c, acts) && Uncut(c.Cfg(), StepsOf(c, acts))
    ensures var batches := Run(c, acts).batches;
      && Conveys(batches, Kept(c, acts), c.MaxFrame())
      && Payloads(Wrapped(batches)) == EncodeEach(batches)
      && forall i :: 0 <= i < |Wrapped(batches)| ==> SentOk(Wrapped(batches)[i], MAX_WRITE)
  {
    KeptIsAccepted(c, acts);
    SocketCarriesBatches(c.Cfg(), StepsOf(c, acts));
    WrappedPayloads(Run(c, acts).batches);
    WrappedOk(Run(c, acts).batches, c.Cfg().maxFramePayload);
  }

  /**
   * Whatever pushers, writer and failures do, and wherever the byte stream is cut: as long as no header and no queued
   * frame has changed the other and no group has been cut, the values the client delivers are the first of the values
   * taken in, in lock order, whole and unmixed, and the client finds no fault with the stream.
   */
  lemma EndToEnd(c: Conn, acts: seq<Act>, n: nat)
    requires ActsOk(c, acts) && Uncut(c.Cfg(), StepsOf(c, acts)) && !Run(c, acts).mem.spoiled
    requires n <= |Run(c, acts).socket|
    ensures var r := ServeAll(Fresh(), ReadAll(Run(c, acts).socket[..n], MAX_WRITE), c.limit);
      r.delivered <= Values(Kept(c, acts)) && !r.closed
  {
    hide ReadAll;
    hide Stream;
    hide ServeAll;
    hide WireRun.Exec;
    var s := Run(c, acts);
    RunConveys(c, acts);
    KeptIsOk(c, acts);
    SocketCarriesBatches(c.Cfg(), StepsOf(c, acts));
    assert s.socket[..n] == Stream(Wrapped(s.batches))[..n];
    PrefixDelivered(Kept(c, acts), c.MaxFrame(), c.limit, s.batches, Wrapped(s.batches), MAX_WRITE, n);
  }

  /** And when everything accepted has been written and read, they are all of them. */
  lemma EverythingArrives(c: Conn, acts: seq<Act>)
    requires ActsOk(c, acts) && Uncut(c.Cfg(), StepsOf(c, acts)) && !Run(c, acts).mem.spoiled
    requires !Run(c, acts).failed && Run(c, acts).base.written == Run(c, acts).base.accepted
    ensures ServeAll(Fresh(), ReadAll(Run(c, acts).socket, MAX_WRITE), c.limit)
         == Reader(None, Values(Kept(c, acts)), false)
  {
    var s := Run(c, acts);
    RunConveys(c, acts);
    KeptIsOk(c, acts);
    KeptIsAccepted(c, acts);
    SocketCarriesBatches(c.Cfg(), StepsOf(c, acts));
    AllDelivered(Kept(c, acts), c.MaxFrame(), c.limit, s.batches, Wrapped(s.batches), MAX_WRITE);
  }
}
