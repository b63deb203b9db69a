/**
 * One room value on its way over a connection: cut into messages that fit a frame on the server, put together
 * again on the client.
 */
module Chunks {
  import opened Bytes
  import opened Codec

  datatype Value = Value(
    roomId: seq<byte>, roomEpoch: seq<byte>, changeSeq: nat, cVersionId: seq<byte>, liveData: seq<byte>)

  function Whole(v: Value): Msg {
    RoomValue(v.roomId, v.roomEpoch, v.changeSeq, v.cVersionId, v.liveData)
  }

  /** The fields that must fit their length prefixes whatever the live data is. */
  predicate MetaOk(v: Value) {
    |v.roomId| <= 65535 && |v.roomEpoch| <= 255 && |v.cVersionId| <= 255 && v.changeSeq < MAX_UINT64
  }

  /** Size of the roomValue message without its live data. */
  function TailMeta(v: Value): nat {
    1 + (2 + |v.roomId|) + (1 + |v.roomEpoch|) + UvarintSize(v.changeSeq) + (1 + |v.cVersionId|) + 2
  }

  lemma WholeSize(v: Value)
    requires MetaOk(v) && |v.liveData| <= 65535
    ensures Encodable(Whole(v)) && |Encode(Whole(v))| == TailMeta(v) + |v.liveData|
  {
    SizeIsExact(Whole(v));
  }

  // ---------------------------------------------------------------- cutting

  function ChunkSize(v: Value, maxFrame: int): nat {
    if maxFrame - TailMeta(v) < 1 then 1 else maxFrame - TailMeta(v)
  }

  /** Pieces of at most `size` bytes; all but the last are roomValueMore, the last carries the metadata. */
  function Pieces(v: Value, size: nat): seq<Msg>
    requires size > 0
    decreases |v.liveData|
  {
    if v.liveData == [] then []
    else if |v.liveData| <= size then [Whole(v)]
    else [RoomValueMore(v.liveData[..size])] + Pieces(v.(liveData := v.liveData[size..]), size)
  }

  /** The live data of v from position off on. */
  function From(v: Value, off: nat): Value
    requires off <= |v.liveData|
  {
    v.(liveData := v.liveData[off..])
  }

  lemma NextPiece(v: Value, off: nat, size: nat)
    requires size > 0 && off + size < |v.liveData|
    ensures Pieces(From(v, off), size)
         == [RoomValueMore(v.liveData[off..off + size])] + Pieces(From(v, off + size), size)
  {
    assert From(v, off).liveData[..size] == v.liveData[off..off + size];
    DropDrop(v.liveData, off, size);
  }

  lemma LastPiece(v: Value, off: nat, size: nat)
    requires size > 0 && off < |v.liveData| <= off + size
    ensures Pieces(From(v, off), size) == [Whole(v.(liveData := v.liveData[off..|v.liveData|]))]
  {
    assert v.liveData[off..] == v.liveData[off..|v.liveData|];
  }

  method BuildRoomValueChunks(v: Value, maxFrame: int) returns (msgs: seq<Msg>)
    ensures msgs == Pieces(v, ChunkSize(v, maxFrame))
  {
    var chunkSize := maxFrame - TailMeta(v);
    if chunkSize < 1 {
      chunkSize := 1;
    }
    msgs := [];
    var off := 0;
    assert From(v, 0) == v && From(v, |v.liveData|).liveData == [];
    assert Pieces(From(v, |v.liveData|), chunkSize) == [];
    hide Pieces;
    hide From;
    hide Whole;
    while off < |v.liveData|
      invariant off <= |v.liveData| || msgs == Pieces(v, chunkSize)
      invariant off <= |v.liveData| ==> msgs + Pieces(From(v, off), chunkSize) == Pieces(v, chunkSize)
      decreases |v.liveData| - off
    {
      var end := off + chunkSize;
      if end > |v.liveData| {
        end := |v.liveData|;
      }
      var chunk := v.liveData[off..end];
      if end >= |v.liveData| {
        LastPiece(v, off, chunkSize);
        msgs := msgs + [Whole(v.(liveData := chunk))];
      } else {
        NextPiece(v, off, chunkSize);
        Associative(msgs, [RoomValueMore(chunk)], Pieces(From(v, end), chunkSize));
        msgs := msgs + [RoomValueMore(chunk)];
      }
      off := off + chunkSize;
    }
  }

  function LiveDataOf(m: Msg): seq<byte> {
    match m
    case RoomValue(_, _, _, _, liveData) => liveData
    case RoomValueMore(liveData) => liveData
    case _ => []
  }

  function AllLiveData(msgs: seq<Msg>): seq<byte> {
    if msgs == [] then [] else LiveDataOf(msgs[0]) + AllLiveData(msgs[1..])
  }

  lemma PiecesCons(v: Value, size: nat)
    requires size > 0 && |v.liveData| > size
    ensures Pieces(v, size)[0] == RoomValueMore(v.liveData[..size])
    ensures Pieces(v, size)[1..] == Pieces(v.(liveData := v.liveData[size..]), size)
  {
    var rest := Pieces(v.(liveData := v.liveData[size..]), size);
    assert Pieces(v, size) == [RoomValueMore(v.liveData[..size])] + rest;
    hide Pieces;
    TakeDropConcat([RoomValueMore(v.liveData[..size])], rest);
  }

  lemma {:induction false} PiecesJoin(v: Value, size: nat)
    requires size > 0 && v.liveData != []
    ensures AllLiveData(Pieces(v, size)) == v.liveData
    decreases |v.liveData|
  {
    if |v.liveData| <= size {
      assert Pieces(v, size)[1..] == [];
    } else {
      PiecesCons(v, size);
      PiecesJoin(v.(liveData := v.liveData[size..]), size);
      hide Pieces;
      SliceJoin(v.liveData, 0, size, |v.liveData|);
    }
  }

  /** The pieces concatenate back; only the last is a roomValue, with all the metadata; none is empty or too long. */
  lemma {:induction false} PiecesShape(v: Value, size: nat)
    requires size > 0 && v.liveData != []
    ensures var msgs := Pieces(v, size);
      && msgs != [] && AllLiveData(msgs) == v.liveData
      && (forall i :: 0 <= i < |msgs| - 1 ==> msgs[i].RoomValueMore? && |msgs[i].liveData| == size)
      && var last := msgs[|msgs| - 1];
         last.RoomValue? && last == Whole(v.(liveData := last.liveData)) && 0 < |last.liveData| <= size
    decreases |v.liveData|
  {
    PiecesJoin(v, size);
    hide AllLiveData;
    if |v.liveData| > size {
      PiecesCons(v, size);
      PiecesShape(v.(liveData := v.liveData[size..]), size);
    }
  }

  /** As many pieces as it takes. */
  lemma {:induction false} PieceCount(v: Value, size: nat)
    requires size > 0 && v.liveData != []
    ensures (|Pieces(v, size)| - 1) * size < |v.liveData| <= |Pieces(v, size)| * size
    decreases |v.liveData|
  {
    if |v.liveData| > size {
      var rest := v.(liveData := v.liveData[size..]);
      PiecesCons(v, size);
      PieceCount(rest, size);
      var k := |Pieces(rest, size)|;
      assert (k - 1) * size + size == k * size && k * size + size == (k + 1) * size;
    }
  }

  /** Where piece i begins: i * size, one piece at a time. */
  function Offset(size: nat, i: nat): nat {
    if i == 0 then 0 else size + Offset(size, i - 1)
  }

  lemma {:induction false} OffsetIs(size: nat, i: nat)
    ensures Offset(size, i) == i * size
  {
    if i > 0 {
      OffsetIs(size, i - 1);
      assert size + (i - 1) * size == i * size;
    }
  }

  /** Piece i is the live data from `off` on: `size` bytes of it, or the rest with the metadata if it is the last. */
  predicate PieceIs(v: Value, msgs: seq<Msg>, size: nat, i: nat, off: nat) {
    && i < |msgs| && off <= |v.liveData|
    && (i < |msgs| - 1 ==> off + size <= |v.liveData| && msgs[i] == RoomValueMore(v.liveData[off..off + size]))
    && (i == |msgs| - 1 ==> msgs[i] == Whole(v.(liveData := v.liveData[off..])))
  }

  lemma FirstPiece(v: Value, size: nat)
    requires size > 0 && v.liveData != []
    ensures PieceIs(v, Pieces(v, size), size, 0, 0)
    ensures |Pieces(v, size)| > 1 ==> |v.liveData| > size
  {
    assert v.liveData[0..] == v.liveData;
    if |v.liveData| > size {
      PiecesCons(v, size);
      PiecesShape(v.(liveData := v.liveData[size..]), size);
    }
  }

  lemma LaterPiece(v: Value, msgs: seq<Msg>, size: nat, i: nat, off: nat)
    requires size <= |v.liveData| && msgs != []
    requires PieceIs(v.(liveData := v.liveData[size..]), msgs[1..], size, i, off)
    ensures PieceIs(v, msgs, size, i + 1, size + off)
  {
    hide Whole;
    DropDrop(v.liveData, size, off);
    if i < |msgs| - 2 {
      SliceOfDrop(v.liveData, size, off, off + size);
    }
  }

  /** All but the last are of `size` bytes, cut off one after the other. */
  lemma {:induction false} PieceAt(v: Value, size: nat, i: nat)
    requires size > 0 && v.liveData != [] && i < |Pieces(v, size)|
    ensures PieceIs(v, Pieces(v, size), size, i, Offset(size, i))
    decreases |v.liveData|
  {
    hide PieceIs;
    hide Pieces;
    FirstPiece(v, size);
    if i > 0 {
      PiecesCons(v, size);
      PieceAt(v.(liveData := v.liveData[size..]), size, i - 1);
      LaterPiece(v, Pieces(v, size), size, i - 1, Offset(size, i - 1));
    }
  }

  predicate Sendable(m: Msg, maxFrame: int) { Encodable(m) && |Encode(m)| <= maxFrame }

  lemma WholeFits(v: Value, maxFrame: int)
    requires MetaOk(v) && |v.liveData| <= 65535
    ensures Sendable(Whole(v), maxFrame) <==> TailMeta(v) + |v.liveData| <= maxFrame
  {
    WholeSize(v);
  }

  lemma MoreFits(chunk: seq<byte>, maxFrame: int)
    requires 3 + |chunk| <= maxFrame <= 65535
    ensures Sendable(RoomValueMore(chunk), maxFrame)
  {
  }

  lemma LastPieceFits(v: Value, maxFrame: int)
    requires MetaOk(v) && v.liveData != [] && maxFrame <= 65535
    ensures var msgs := Pieces(v, ChunkSize(v, maxFrame));
      msgs != [] && (maxFrame <= TailMeta(v) ==> !Sendable(msgs[|msgs| - 1], maxFrame))
      && (maxFrame > TailMeta(v) ==> Sendable(msgs[|msgs| - 1], maxFrame))
  {
    var size := ChunkSize(v, maxFrame);
    PiecesShape(v, size);
    var msgs := Pieces(v, size);
    var last := v.(liveData := msgs[|msgs| - 1].liveData);
    assert TailMeta(last) == TailMeta(v);
    WholeFits(last, maxFrame);
  }

  lemma EarlierPieceFits(v: Value, maxFrame: int, i: nat)
    requires v.liveData != [] && TailMeta(v) < maxFrame <= 65535
    requires i + 1 < |Pieces(v, ChunkSize(v, maxFrame))|
    ensures Sendable(Pieces(v, ChunkSize(v, maxFrame))[i], maxFrame)
  {
    var size := ChunkSize(v, maxFrame);
    PiecesShape(v, size);
    MoreFits(Pieces(v, size)[i].liveData, maxFrame);
  }

  /**
   * Every piece serialises to at most maxFrame bytes exactly when maxFrame leaves room for one byte of live data
   * beside the metadata.
   */
  lemma PiecesFit(v: Value, maxFrame: int)
    requires MetaOk(v) && v.liveData != [] && maxFrame <= 65535
    ensures (forall m :: m in Pieces(v, ChunkSize(v, maxFrame)) ==> Sendable(m, maxFrame)) <==> maxFrame > TailMeta(v)
  {
    var msgs := Pieces(v, ChunkSize(v, maxFrame));
    LastPieceFits(v, maxFrame);
    assert msgs[|msgs| - 1] in msgs;
    if maxFrame > TailMeta(v) {
      forall m | m in msgs ensures Sendable(m, maxFrame) {
        var i :| 0 <= i < |msgs| && msgs[i] == m;
        if i < |msgs| - 1 {
          EarlierPieceFits(v, maxFrame, i);
        }
      }
    }
  }

  /** The messages sendRoomValue hands to the write buffer. */
  function SendMsgs(v: Value, maxFrame: int): seq<Msg> {
    if TailMeta(v) + |v.liveData| <= maxFrame then [Whole(v)] else Pieces(v, ChunkSize(v, maxFrame))
  }

  /** Something is sent, and everything sent fits, unless the metadata alone fills the frame. */
  lemma SendMsgsFit(v: Value, maxFrame: int)
    requires MetaOk(v) && TailMeta(v) < maxFrame <= 65535
    ensures SendMsgs(v, maxFrame) != []
    ensures forall m :: m in SendMsgs(v, maxFrame) ==> Sendable(m, maxFrame)
  {
    if TailMeta(v) + |v.liveData| <= maxFrame {
      WholeFits(v, maxFrame);
    } else {
      PiecesShape(v, ChunkSize(v, maxFrame));
      PiecesFit(v, maxFrame);
    }
  }

  /**
   * What the messages of a value carry: a value that fits the frame goes out whole; otherwise every message but the
   * last carries as much live data as fits a frame beside the metadata, and the last the remainder and the metadata.
   * Their number is the length of the live data divided by that, rounded up.
   */
  lemma MessagesCarry(v: Value, maxFrame: int, i: nat)
    requires TailMeta(v) < maxFrame && i < |SendMsgs(v, maxFrame)|
    ensures var msgs, n := SendMsgs(v, maxFrame), maxFrame - TailMeta(v);
      if |v.liveData| <= n then msgs == [Whole(v)]
      else (|msgs| - 1) * n < |v.liveData| <= |msgs| * n && PieceIs(v, msgs, n, i, i * n)
  {
    var n := maxFrame - TailMeta(v);
    if |v.liveData| > n {
      hide Pieces;
      hide PieceIs;
      PieceCount(v, n);
      PieceAt(v, n, i);
      OffsetIs(n, i);
    }
  }

  /** A value is sent as no message at all exactly when it has no live data and its metadata alone is longer than the
      frame: never within the server's limits on room ids and custom versions, in a frame of 1396 bytes or more. */
  lemma NothingSentIff(v: Value, maxFrame: int)
    ensures SendMsgs(v, maxFrame) == [] <==> v.liveData == [] && TailMeta(v) > maxFrame
    ensures MetaOk(v) && |v.roomId| <= 1024 && |v.cVersionId| <= 100 && maxFrame >= 1396 ==>
      SendMsgs(v, maxFrame) != []
  {
    if v.liveData != [] {
      PiecesShape(v, ChunkSize(v, maxFrame));
    } else if MetaOk(v) {
      UvarintSizeExact(v.changeSeq);
      UvarintRoundTrip(v.changeSeq, []);
    }
  }

  // ---------------------------------------------------------------- putting together

  /** The client's side of one connection; `buffer` is None where the source's slice is nil. */
  datatype Reader = Reader(buffer: Option<seq<byte>>, delivered: seq<Value>, closed: bool)

  function Fresh(): Reader { Reader(None, [], false) }

  /** append(buffer, chunk...): nil stays nil when there is nothing to append. */
  function Append(buffer: Option<seq<byte>>, chunk: seq<byte>): Option<seq<byte>> {
    match buffer
    case None => if chunk == [] then None else Some(chunk)
    case Some(b) => Some(b + chunk)
  }

  function Held(buffer: Option<seq<byte>>): seq<byte> {
    if buffer.Some? then buffer.value else []
  }

  /** onReadMsg, as far as room values are concerned. A closed connection handles nothing more. */
  function Handle(r: Reader, m: Msg, limit: nat): Reader {
    if r.closed then r
    else
      match m
      case RoomValue(roomId, roomEpoch, changeSeq, cVersionId, liveData) =>
        Reader(None, r.delivered + [Value(roomId, roomEpoch, changeSeq, cVersionId, Held(r.buffer) + liveData)], false)
      case RoomValueMore(liveData) =>
        if |Held(r.buffer)| + |liveData| > limit then r.(closed := true)
        else r.(buffer := Append(r.buffer, liveData))
      case _ => r
  }

  class ClientConn {
    var roomValueReassembleBuf: Option<seq<byte>>
    var closed: bool
    ghost var delivered: seq<Value>

    constructor ()
      ensures Abs() == Fresh()
    {
      roomValueReassembleBuf, closed, delivered := None, false, [];
    }

    ghost function Abs(): Reader
      reads this
    {
      Reader(roomValueReassembleBuf, delivered, closed)
    }

    /** Returns the value to pass to onRoomValue, if the message completes one. */
    method OnReadMsg(m: Msg, limit: nat) returns (value: Option<Value>)
      requires !closed
      modifies this
      ensures Abs() == Handle(old(Abs()), m, limit)
      ensures delivered == if value.Some? then old(delivered) + [value.value] else old(delivered)
    {
      match m
      case RoomValue(roomId, roomEpoch, changeSeq, cVersionId, liveData0) =>
        var liveData := liveData0;
        if roomValueReassembleBuf.Some? {
          liveData := roomValueReassembleBuf.value + liveData0;
          roomValueReassembleBuf := None;
        }
        assert liveData == Held(old(roomValueReassembleBuf)) + liveData0;
        var v := Value(roomId, roomEpoch, changeSeq, cVersionId, liveData);
        delivered := delivered + [v];
        return Some(v);
      case RoomValueMore(chunk) =>
        var length := if roomValueReassembleBuf.Some? then |roomValueReassembleBuf.value| else 0;
        if length + |chunk| > limit {
          closed := true;
          return None;
        }
        roomValueReassembleBuf := Append(roomValueReassembleBuf, chunk);
        return None;
      case _ =>
        return None;
    }
  }

  function HandleAll(r: Reader, msgs: seq<Msg>, limit: nat): Reader
    decreases |msgs|
  {
    if msgs == [] then r else HandleAll(Handle(r, msgs[0], limit), msgs[1..], limit)
  }

  lemma {:induction false} HandleAppend(r: Reader, a: seq<Msg>, b: seq<Msg>, limit: nat)
    ensures HandleAll(r, a + b, limit) == HandleAll(HandleAll(r, a, limit), b, limit)
    decreases |a|
  {
    if a == [] {
      assert a + b == b;
    } else {
      HandleAppend(Handle(r, a[0], limit), a[1..], b, limit);
      assert (a + b)[1..] == a[1..] + b;
    }
  }

  /** Values are only ever added at the end. */
  lemma {:induction false} DeliveredGrows(r: Reader, msgs: seq<Msg>, limit: nat)
    ensures r.delivered <= HandleAll(r, msgs, limit).delivered
    decreases |msgs|
  {
    if msgs != [] {
      DeliveredGrows(Handle(r, msgs[0], limit), msgs[1..], limit);
    }
  }

  /** Bytes of the group that precede its last piece. */
  function MoreBytes(v: Value, size: nat): nat
    requires size > 0
    decreases |v.liveData|
  {
    if |v.liveData| <= size then 0 else size + MoreBytes(v.(liveData := v.liveData[size..]), size)
  }

  /**
   * A group arriving on top of held bytes delivers the value with the held bytes in front, or, exactly when the
   * held bytes and the leading pieces exceed the limit, closes the connection.
   */
  lemma {:induction false} GroupArrives(r: Reader, v: Value, size: nat, limit: nat)
    requires size > 0 && v.liveData != [] && !r.closed && |Held(r.buffer)| <= limit
    ensures var after := HandleAll(r, Pieces(v, size), limit);
      if |Held(r.buffer)| + MoreBytes(v, size) <= limit then
        after == Reader(None, r.delivered + [v.(liveData := Held(r.buffer) + v.liveData)], false)
      else
        after.closed && after.delivered == r.delivered
    decreases |v.liveData|
  {
    var msgs := Pieces(v, size);
    if |v.liveData| <= size {
      assert msgs == [Whole(v)] && msgs[1..] == [];
    } else {
      var rest := v.(liveData := v.liveData[size..]);
      assert msgs[0] == RoomValueMore(v.liveData[..size]) && msgs[1..] == Pieces(rest, size);
      var next := Handle(r, msgs[0], limit);
      if next.closed {
        ClosedStays(next, msgs[1..], limit);
      } else {
        assert Held(next.buffer) == Held(r.buffer) + v.liveData[..size];
        GroupArrives(next, rest, size, limit);
        Associative(Held(r.buffer), v.liveData[..size], v.liveData[size..]);
        assert v.liveData == v.liveData[..size] + v.liveData[size..];
      }
    }
  }

  lemma {:induction false} ClosedStays(r: Reader, msgs: seq<Msg>, limit: nat)
    requires r.closed
    ensures HandleAll(r, msgs, limit) == r
    decreases |msgs|
  {
    if msgs != [] {
      ClosedStays(r, msgs[1..], limit);
    }
  }

  lemma {:induction false} MoreBytesBound(v: Value, size: nat)
    requires size > 0
    ensures MoreBytes(v, size) <= |v.liveData|
    decreases |v.liveData|
  {
    if |v.liveData| > size {
      MoreBytesBound(v.(liveData := v.liveData[size..]), size);
    }
  }

  /** What sendRoomValue sends, the client puts back together, for live data of any length up to its limit. */
  lemma SendArrives(r: Reader, v: Value, maxFrame: int, limit: nat)
    requires r.buffer.None? && !r.closed && |v.liveData| <= limit
    requires TailMeta(v) + |v.liveData| <= maxFrame || v.liveData != []
    ensures HandleAll(r, SendMsgs(v, maxFrame), limit) == Reader(None, r.delivered + [v], false)
  {
    if TailMeta(v) + |v.liveData| <= maxFrame {
      assert SendMsgs(v, maxFrame)[1..] == [];
      assert [] + v.liveData == v.liveData;
    } else {
      MoreBytesBound(v, ChunkSize(v, maxFrame));
      GroupArrives(r, v, ChunkSize(v, maxFrame), limit);
      assert [] + v.liveData == v.liveData;
    }
  }

  // ---------------------------------------------------------------- a whole connection

  /** What is pushed on a connection: a room value, as one group, or any other message. */
  datatype Item = Room(v: Value) | Other(m: Msg)

  predicate ItemOk(it: Item, maxFrame: int, limit: nat) {
    match it
    case Room(v) => MetaOk(v) && TailMeta(v) < maxFrame && |v.liveData| <= limit
    case Other(m) => !m.RoomValue? && !m.RoomValueMore?
  }

  function ItemMsgs(it: Item, maxFrame: int): seq<Msg> {
    match it
    case Room(v) => SendMsgs(v, maxFrame)
    case Other(m) => [m]
  }

  function ItemsMsgs(items: seq<Item>, maxFrame: int): seq<Msg> {
    if items == [] then [] else ItemMsgs(items[0], maxFrame) + ItemsMsgs(items[1..], maxFrame)
  }

  function Values(items: seq<Item>): seq<Value> {
    if items == [] then []
    else (match items[0] case Room(v) => [v] case Other(_) => []) + Values(items[1..])
  }

  /** Whole groups with other messages in between deliver exactly the values sent, in order. */
  lemma {:induction false} ItemsArrive(r: Reader, items: seq<Item>, maxFrame: int, limit: nat)
    requires r.buffer.None? && !r.closed
    requires forall i :: 0 <= i < |items| ==> ItemOk(items[i], maxFrame, limit)
    ensures HandleAll(r, ItemsMsgs(items, maxFrame), limit) == Reader(None, r.delivered + Values(items), false)
    decreases |items|
  {
    if items == [] {
      assert r.delivered + [] == r.delivered;
    } else {
      var head := ItemMsgs(items[0], maxFrame);
      HandleAppend(r, head, ItemsMsgs(items[1..], maxFrame), limit);
      var next := HandleAll(r, head, limit);
      assert ItemOk(items[0], maxFrame, limit);
      match items[0] {
        case Room(v) =>
          SendArrives(r, v, maxFrame, limit);
          Associative(r.delivered, [v], Values(items[1..]));
        case Other(m) =>
          assert head[1..] == [];
          assert [] + Values(items[1..]) == Values(items[1..]);
      }
      ItemsArrive(next, items[1..], maxFrame, limit);
    }
  }

  /** Cut off anywhere, the messages deliver a prefix of the values sent: never a partial or a mixed one. */
  lemma PrefixArrives(items: seq<Item>, maxFrame: int, limit: nat, msgs: seq<Msg>)
    requires forall i :: 0 <= i < |items| ==> ItemOk(items[i], maxFrame, limit)
    requires msgs <= ItemsMsgs(items, maxFrame)
    ensures HandleAll(Fresh(), msgs, limit).delivered <= Values(items)
    ensures !HandleAll(Fresh(), msgs, limit).closed
  {
    var all := ItemsMsgs(items, maxFrame);
    var rest := all[|msgs|..];
    var mid := HandleAll(Fresh(), msgs, limit);
    assert all == msgs + rest;
    HandleAppend(Fresh(), msgs, rest, limit);
    ItemsArrive(Fresh(), items, maxFrame, limit);
    assert HandleAll(mid, rest, limit) == Reader(None, [] + Values(items), false);
    assert [] + Values(items) == Values(items);
    DeliveredGrows(mid, rest, limit);
    if mid.closed {
      ClosedStays(mid, rest, limit);
    }
  }

  /**
   * Whole groups matter: when a group is cut short after a piece and another value follows, the client delivers
   * that value with the piece glued in front of its live data.
   */
  lemma CutGroupIsGlued(piece: seq<byte>, w: Value, limit: nat)
    requires piece != [] && |piece| <= limit
    ensures HandleAll(Fresh(), [RoomValueMore(piece), Whole(w)], limit).delivered
         == [w.(liveData := piece + w.liveData)] != [w]
  {
    var msgs := [RoomValueMore(piece), Whole(w)];
    assert [] + piece == piece;
    assert msgs[1..] == [Whole(w)] && msgs[1..][1..] == [];
    var glued := w.(liveData := piece + w.liveData);
    var r1 := Handle(Fresh(), msgs[0], limit);
    assert r1 == Reader(Some(piece), [], false);
    assert Handle(r1, Whole(w), limit) == Reader(None, [] + [glued], false);
    assert HandleAll(r1, [Whole(w)], limit) == HandleAll(Handle(r1, Whole(w), limit), [], limit);
    assert |glued.liveData| > |w.liveData| && [glued][0] != [w][0];
    assert [] + [glued] == [glued];
  }

  /** The browser client's join: pieces are copied one after the other into one array. */
  method JoinChunks(chunks: seq<seq<byte>>) returns (joined: array<byte>)
    ensures joined[..] == Concat(chunks)
  {
    assert Concat(chunks[..0]) == [];
    hide Concat;
    var total := 0;
    for i := 0 to |chunks|
      invariant total == |Concat(chunks[..i])|
    {
      ConcatSnoc(chunks, i);
      total := total + |chunks[i]|;
    }
    assert chunks[..|chunks|] == chunks;
    joined := new byte[total](_ => 0);
    var off := 0;
    for i := 0 to |chunks|
      invariant off == |Concat(chunks[..i])| <= joined.Length == |Concat(chunks)|
      invariant joined[..off] == Concat(chunks[..i])
    {
      ConcatSnoc(chunks, i);
      ConcatSplit(chunks, i + 1);
      ghost var was := joined[..];
      PutBytes(joined, off, chunks[i]);
      SameSlice(was, joined[..], off, off + |chunks[i]|, 0, off);
      SliceJoin(joined[..], 0, off, off + |chunks[i]|);
      off := off + |chunks[i]|;
    }
  }

  lemma ConcatSnoc<T>(chunks: seq<seq<T>>, i: nat)
    requires i < |chunks|
    ensures Concat(chunks[..i + 1]) == Concat(chunks[..i]) + chunks[i]
  {
    assert chunks[..i + 1] == chunks[..i] + [chunks[i]];
    ConcatAppend(chunks[..i], [chunks[i]]);
    assert [chunks[i]][1..] == [] && chunks[i] + [] == chunks[i];
  }

  lemma ConcatSplit<T>(chunks: seq<seq<T>>, i: nat)
    requires i <= |chunks|
    ensures Concat(chunks) == Concat(chunks[..i]) + Concat(chunks[i..])
  {
    assert chunks == chunks[..i] + chunks[i..];
    ConcatAppend(chunks[..i], chunks[i..]);
  }
}
