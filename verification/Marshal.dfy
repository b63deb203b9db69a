/**
 * The codec as the source runs it: writing into a preallocated slice, appending to a growing buffer, and parsing
 * by an advancing position. All three agree with Codec.
 */
module Marshal {
  import opened Bytes
  import opened Codec

  // ---------------------------------------------------------------- into a preallocated slice

  /** Writes data at pos, extending what has been written since start. */
  method Put(arr: array<byte>, start: nat, pos: nat, data: seq<byte>, ghost was: seq<byte>) returns (end: nat)
    requires start <= pos && pos + |data| <= arr.Length && SameOutside(was, arr[..], start, pos)
    modifies arr
    ensures end == pos + |data| && arr[start..end] == old(arr[start..pos]) + data
    ensures SameOutside(was, arr[..], start, end)
  {
    forall i | 0 <= i < |data| {
      arr[pos + i] := data[i];
    }
    end := pos + |data|;
    assert arr[start..pos] == old(arr[start..pos]);
    assert arr[pos..end] == data;
    SliceJoin(arr[..], start, pos, end);
  }

  method PutStr16(arr: array<byte>, start: nat, pos: nat, s: seq<byte>, ghost was: seq<byte>) returns (end: nat)
    requires |s| <= 65535
    requires start <= pos && pos + 2 + |s| <= arr.Length && SameOutside(was, arr[..], start, pos)
    modifies arr
    ensures end == pos + 2 + |s| && arr[start..end] == old(arr[start..pos]) + Str16(s)
    ensures SameOutside(was, arr[..], start, end)
  {
    end := Put(arr, start, pos, Le16(|s|), was);
    end := Put(arr, start, end, s, was);
    Associative(old(arr[start..pos]), Le16(|s|), s);
  }

  method PutStr8(arr: array<byte>, start: nat, pos: nat, s: seq<byte>, ghost was: seq<byte>) returns (end: nat)
    requires |s| <= 255
    requires start <= pos && pos + 1 + |s| <= arr.Length && SameOutside(was, arr[..], start, pos)
    modifies arr
    ensures end == pos + 1 + |s| && arr[start..end] == old(arr[start..pos]) + Str8(s)
    ensures SameOutside(was, arr[..], start, end)
  {
    end := Put(arr, start, pos, [|s| as byte], was);
    end := Put(arr, start, end, s, was);
    Associative(old(arr[start..pos]), [|s| as byte], s);
  }

  method PutKeyValue(arr: array<byte>, start: nat, pos: nat, id: byte, value: nat, ghost was: seq<byte>)
    returns (end: nat)
    requires start <= pos && pos + 9 <= arr.Length && SameOutside(was, arr[..], start, pos)
    modifies arr
    ensures end == pos + 9 && arr[start..end] == old(arr[start..pos]) + KeyValue(id, value)
    ensures SameOutside(was, arr[..], start, end)
  {
    end := Put(arr, start, pos, [id], was);
    end := Put(arr, start, end, LittleEndian(value, 8), was);
    Associative(old(arr[start..pos]), [id], LittleEndian(value, 8));
  }

  /** Seven bits at a time, as binary.PutUvarint does. */
  method PutUvarint(arr: array<byte>, start: nat, pos: nat, x: nat, ghost was: seq<byte>) returns (end: nat)
    requires start <= pos && pos + |Uvarint(x)| <= arr.Length && SameOutside(was, arr[..], start, pos)
    modifies arr
    ensures end == pos + |Uvarint(x)| && arr[start..end] == old(arr[start..pos]) + Uvarint(x)
    ensures SameOutside(was, arr[..], start, end)
  {
    ghost var head := arr[start..pos];
    end := pos;
    var rest := x;
    while rest >= 128
      invariant start <= end && end + |Uvarint(rest)| == pos + |Uvarint(x)|
      invariant arr[start..end] + Uvarint(rest) == head + Uvarint(x)
      invariant SameOutside(was, arr[..], start, end)
    {
      ghost var done := arr[start..end];
      Associative(done, [(rest % 128 + 128) as byte], Uvarint(rest / 128));
      end := Put(arr, start, end, [(rest % 128 + 128) as byte], was);
      rest := rest / 128;
    }
    end := Put(arr, start, end, [rest as byte], was);
  }

  /** MarshalBinaryInto: the encoding, in place, in the BinarySize bytes from start on; nothing else changes. */
  method MarshalBinaryInto(m: Msg, arr: array<byte>, start: nat)
    requires Encodable(m) && start + |Encode(m)| <= arr.Length
    modifies arr
    ensures arr[start..start + |Encode(m)|] == Encode(m)
    ensures SameOutside(old(arr[..]), arr[..], start, start + |Encode(m)|)
  {
    ghost var was := arr[..];
    var pos := Put(arr, start, start, [Cmd(m)], was);
    assert arr[start..pos] == [Cmd(m)];
    pos := PutBody(arr, start, pos, m, was);
  }

  method PutBody(arr: array<byte>, start: nat, pos: nat, m: Msg, ghost was: seq<byte>) returns (end: nat)
    requires Encodable(m)
    requires start <= pos && pos + |Body(m)| <= arr.Length && SameOutside(was, arr[..], start, pos)
    modifies arr
    ensures end == pos + |Body(m)| && arr[start..end] == old(arr[start..pos]) + Body(m)
    ensures SameOutside(was, arr[..], start, end)
  {
    ghost var head := arr[start..pos];
    match m
    case Ping =>
      end := pos;
      assert head + [] == head;
    case ConnAllow(authEnabled) =>
      end := Put(arr, start, pos, if authEnabled then [1] else [0], was);
    case Identity(identity) =>
      end := PutStr16(arr, start, pos, identity, was);
    case Deny(scope, roomId, reason) =>
      end := Put(arr, start, pos, [scope], was);
      end := PutStr16(arr, start, end, roomId, was);
      end := PutStr16(arr, start, end, reason, was);
      Associative(head + [scope], Str16(roomId), Str16(reason));
      Associative(head, [scope], Str16(roomId) + Str16(reason));
    case CloseConn(isTemp, reason) =>
      end := Put(arr, start, pos, if isTemp then [1] else [0], was);
      end := PutStr16(arr, start, end, reason, was);
      Associative(head, Bool(isTemp), Str16(reason));
    case SetTimeCfg(cfg) =>
      end := Put(arr, start, pos, [6], was);
      end := PutCfg(arr, start, end, cfg.value, was);
      Associative(head, [6], CfgFields(cfg.value));
    case RoomEnter(roomId) =>
      end := PutStr16(arr, start, pos, roomId, was);
    case RoomLeave(roomId) =>
      end := PutStr16(arr, start, pos, roomId, was);
    case RoomValue(_, _, _, _, _) =>
      end := PutRoomValue(arr, start, pos, m, was);
    case RoomValueMore(liveData) =>
      end := PutStr16(arr, start, pos, liveData, was);
  }

  method PutRoomValue(arr: array<byte>, start: nat, pos: nat, m: Msg, ghost was: seq<byte>) returns (end: nat)
    requires Encodable(m) && m.RoomValue?
    requires start <= pos && pos + |Body(m)| <= arr.Length && SameOutside(was, arr[..], start, pos)
    modifies arr
    ensures end == pos + |Body(m)| && arr[start..end] == old(arr[start..pos]) + Body(m)
    ensures SameOutside(was, arr[..], start, end)
  {
    ghost var head := arr[start..pos];
    end := PutStr16(arr, start, pos, m.roomId, was);
    end := PutStr8(arr, start, end, m.roomEpoch, was);
    end := PutUvarint(arr, start, end, m.changeSeq, was);
    end := PutStr8(arr, start, end, m.cVersionId, was);
    end := PutStr16(arr, start, end, m.liveData, was);
    JoinFive(head, Str16(m.roomId), Str8(m.roomEpoch), Uvarint(m.changeSeq), Str8(m.cVersionId), Str16(m.liveData));
  }

  lemma JoinFive(head: seq<byte>, a: seq<byte>, b: seq<byte>, c: seq<byte>, d: seq<byte>, e: seq<byte>)
    ensures head + a + b + c + d + e == head + (a + (b + (c + (d + e))))
  {
    Associative(head, a, b + (c + (d + e)));
    Associative(head + a, b, c + (d + e));
    Associative(head + a + b, c, d + e);
    Associative(head + a + b + c, d, e);
  }

  method PutCfg(arr: array<byte>, start: nat, pos: nat, c: TimeCfg, ghost was: seq<byte>) returns (end: nat)
    requires start <= pos && pos + 54 <= arr.Length && SameOutside(was, arr[..], start, pos)
    modifies arr
    ensures end == pos + 54 && arr[start..end] == old(arr[start..pos]) + CfgFields(c)
    ensures SameOutside(was, arr[..], start, end)
  {
    ghost var head := arr[start..pos];
    end := PutKeyValue(arr, start, pos, 1, c.reconnectMin, was);
    ghost var k1 := KeyValue(1, c.reconnectMin);
    end := PutKeyValue(arr, start, end, 2, c.idleToSendKeepAlive, was);
    end := PutKeyValue(arr, start, end, 3, c.lastReadToReconnect, was);
    end := PutKeyValue(arr, start, end, 4, c.wsDialTimeout, was);
    end := PutKeyValue(arr, start, end, 5, c.noNeedIdle, was);
    end := PutKeyValue(arr, start, end, 6, c.lastReadToUiNoWork, was);
    JoinFive(head + k1, KeyValue(2, c.idleToSendKeepAlive), KeyValue(3, c.lastReadToReconnect),
      KeyValue(4, c.wsDialTimeout), KeyValue(5, c.noNeedIdle), KeyValue(6, c.lastReadToUiNoWork));
    Associative(head, k1, KeyValue(2, c.idleToSendKeepAlive) + (KeyValue(3, c.lastReadToReconnect)
      + (KeyValue(4, c.wsDialTimeout) + (KeyValue(5, c.noNeedIdle) + KeyValue(6, c.lastReadToUiNoWork)))));
  }

  // ---------------------------------------------------------------- appending to a growing buffer

  class BufWriter {
    var arr: array<byte>
    var pos: nat

    ghost predicate Valid()
      reads this
    {
      pos <= arr.Length
    }

    ghost function Contents(): seq<byte>
      reads this, arr
      requires Valid()
    {
      arr[..pos]
    }

    constructor ()
      ensures Valid() && Contents() == [] && fresh(arr)
    {
      arr := new byte[0];
      pos := 0;
    }

    method Reset()
      requires Valid()
      modifies this`pos
      ensures Valid() && Contents() == [] && arr == old(arr)
    {
      pos := 0;
    }

    /** Room for toWrite bytes after pos. Bytes after pos may be lost when the array is replaced. */
    method TryGrow(toWrite: nat)
      requires Valid()
      modifies this`arr
      ensures Valid() && pos + toWrite <= arr.Length && Contents() == old(Contents())
      ensures arr == old(arr) || (fresh(arr) && old(arr.Length) < pos + toWrite)
      ensures old(arr.Length) < pos + toWrite ==> arr.Length >= 32 && arr.Length >= 2 * old(arr.Length) + toWrite
    {
      var needSize := pos + toWrite;
      if needSize > arr.Length {
        var targetSize := arr.Length * 2 + toWrite;
        if targetSize < 32 {
          targetSize := 32;
        }
        var newBuf := new byte[targetSize](_ => 0);
        forall i | 0 <= i < pos {
          newBuf[i] := arr[i];
        }
        assert newBuf[..pos] == arr[..pos];
        arr := newBuf;
      }
    }

    /** Room for toWrite bytes after pos, keeping every byte of the array, also those after pos. */
    method TryGrowWithSetPos(toWrite: nat)
      requires Valid()
      modifies this`arr
      ensures Valid() && pos + toWrite <= arr.Length && old(arr.Length) <= arr.Length
      ensures arr[..old(arr.Length)] == old(arr[..])
      ensures arr == old(arr) || (fresh(arr) && old(arr.Length) < pos + toWrite)
      ensures old(arr.Length) < pos + toWrite ==> arr.Length >= 32 && arr.Length >= 2 * old(arr.Length) + toWrite
    {
      var needSize := pos + toWrite;
      if needSize > arr.Length {
        var targetSize := arr.Length * 2 + toWrite;
        if targetSize < 32 {
          targetSize := 32;
        }
        var newBuf := new byte[targetSize](_ => 0);
        forall i | 0 <= i < arr.Length {
          newBuf[i] := arr[i];
        }
        assert newBuf[..arr.Length] == arr[..];
        arr := newBuf;
      }
    }

    /** The next `size` bytes after pos, to be filled by the caller at arr[pos..pos + size]; pos does not move. */
    method GetHeadBuffer(size: nat)
      requires Valid()
      modifies this`arr
      ensures Valid() && pos + size <= arr.Length && Contents() == old(Contents())
      ensures arr == old(arr) || fresh(arr)
    {
      ghost var was := arr[..];
      TryGrowWithSetPos(size);
      assert arr[..pos] == arr[..|was|][..pos] == was[..pos];
    }

    /** Moves pos over bytes already in the array: what the caller filled in becomes contents, growth or not. */
    method AddPos(offset: nat)
      requires Valid()
      modifies this
      ensures Valid() && pos == old(pos) + offset
      ensures old(pos + offset <= arr.Length) ==> Contents() == old(arr[..pos + offset])
      ensures old(arr.Length) <= arr.Length && arr[..old(arr.Length)] == old(arr[..])
      ensures arr == old(arr) || fresh(arr)
    {
      ghost var was := arr[..];
      TryGrowWithSetPos(offset);
      pos := pos + offset;
      if pos <= |was| {
        assert arr[..pos] == arr[..|was|][..pos] == was[..pos];
      }
    }

    /** append. */
    method Write(data: seq<byte>)
      requires Valid()
      modifies this, arr
      ensures Valid() && Contents() == old(Contents()) + data
      ensures arr == old(arr) || fresh(arr)
    {
      TryGrow(|data|);
      ghost var head := arr[..pos];
      forall i | 0 <= i < |data| {
        arr[pos + i] := data[i];
      }
      assert arr[..pos] == head && arr[pos..pos + |data|] == data;
      SliceJoin(arr[..], 0, pos, pos + |data|);
      pos := pos + |data|;
      assert arr[..pos] == head + data;
    }

    method WriteStr16(s: seq<byte>)
      requires Valid() && |s| <= 65535
      modifies this, arr
      ensures Valid() && Contents() == old(Contents()) + Str16(s)
      ensures arr == old(arr) || fresh(arr)
    {
      ghost var head := Contents();
      Write(Le16(|s|));
      Write(s);
      Associative(head, Le16(|s|), s);
    }

    method WriteStr8(s: seq<byte>)
      requires Valid() && |s| <= 255
      modifies this, arr
      ensures Valid() && Contents() == old(Contents()) + Str8(s)
      ensures arr == old(arr) || fresh(arr)
    {
      ghost var head := Contents();
      Write([|s| as byte]);
      Write(s);
      Associative(head, [|s| as byte], s);
    }
  }

  /** MarshalBinaryTo appends the same bytes that MarshalBinaryInto writes in place. */
  method MarshalBinaryTo(m: Msg, w: BufWriter)
    requires Encodable(m) && w.Valid()
    modifies w, w.arr
    ensures w.Valid() && w.Contents() == old(w.Contents()) + Encode(m)
    ensures w.arr == old(w.arr) || fresh(w.arr)
  {
    ghost var head := w.Contents();
    w.Write([Cmd(m)]);
    AppendBody(m, w);
    Associative(head, [Cmd(m)], Body(m));
  }

  method AppendBody(m: Msg, w: BufWriter)
    requires Encodable(m) && w.Valid()
    modifies w, w.arr
    ensures w.Valid() && w.Contents() == old(w.Contents()) + Body(m)
    ensures w.arr == old(w.arr) || fresh(w.arr)
  {
    ghost var head := w.Contents();
    match m
    case Ping =>
      assert head + [] == head;
    case ConnAllow(authEnabled) =>
      w.Write(if authEnabled then [1] else [0]);
    case Identity(identity) =>
      w.WriteStr16(identity);
    case Deny(scope, roomId, reason) =>
      w.Write([scope]);
      w.WriteStr16(roomId);
      w.WriteStr16(reason);
      Associative(head + [scope], Str16(roomId), Str16(reason));
      Associative(head, [scope], Str16(roomId) + Str16(reason));
    case CloseConn(isTemp, reason) =>
      w.Write(if isTemp then [1] else [0]);
      w.WriteStr16(reason);
      Associative(head, Bool(isTemp), Str16(reason));
    case SetTimeCfg(cfg) =>
      w.Write([6]);
      AppendCfg(cfg.value, w);
      Associative(head, [6], CfgFields(cfg.value));
    case RoomEnter(roomId) =>
      w.WriteStr16(roomId);
    case RoomLeave(roomId) =>
      w.WriteStr16(roomId);
    case RoomValue(_, _, _, _, _) =>
      AppendRoomValue(m, w);
    case RoomValueMore(liveData) =>
      w.WriteStr16(liveData);
  }

  method AppendRoomValue(m: Msg, w: BufWriter)
    requires Encodable(m) && m.RoomValue? && w.Valid()
    modifies w, w.arr
    ensures w.Valid() && w.Contents() == old(w.Contents()) + Body(m)
    ensures w.arr == old(w.arr) || fresh(w.arr)
  {
    ghost var head := w.Contents();
    w.WriteStr16(m.roomId);
    w.WriteStr8(m.roomEpoch);
    w.Write(Uvarint(m.changeSeq));
    w.WriteStr8(m.cVersionId);
    w.WriteStr16(m.liveData);
    JoinFive(head, Str16(m.roomId), Str8(m.roomEpoch), Uvarint(m.changeSeq), Str8(m.cVersionId), Str16(m.liveData));
  }

  method AppendCfg(c: TimeCfg, w: BufWriter)
    requires w.Valid()
    modifies w, w.arr
    ensures w.Valid() && w.Contents() == old(w.Contents()) + CfgFields(c)
    ensures w.arr == old(w.arr) || fresh(w.arr)
  {
    ghost var head := w.Contents();
    ghost var k1 := KeyValue(1, c.reconnectMin);
    w.Write(KeyValue(1, c.reconnectMin));
    w.Write(KeyValue(2, c.idleToSendKeepAlive));
    w.Write(KeyValue(3, c.lastReadToReconnect));
    w.Write(KeyValue(4, c.wsDialTimeout));
    w.Write(KeyValue(5, c.noNeedIdle));
    w.Write(KeyValue(6, c.lastReadToUiNoWork));
    JoinFive(head + k1, KeyValue(2, c.idleToSendKeepAlive), KeyValue(3, c.lastReadToReconnect),
      KeyValue(4, c.wsDialTimeout), KeyValue(5, c.noNeedIdle), KeyValue(6, c.lastReadToUiNoWork));
    Associative(head, k1, KeyValue(2, c.idleToSendKeepAlive) + (KeyValue(3, c.lastReadToReconnect)
      + (KeyValue(4, c.wsDialTimeout) + (KeyValue(5, c.noNeedIdle) + KeyValue(6, c.lastReadToUiNoWork)))));
  }

  // ---------------------------------------------------------------- parsing by position

  /** Reads a 16-bit length and a string at pos: the string and the position after it. */
  method TakeStr16(data: seq<byte>, pos: nat, what: string) returns (r: Result<(seq<byte>, nat)>)
    requires pos <= |data|
    ensures r.Ok? <==> ReadStr16(data[pos..]).Some?
    ensures r.Ok? ==> r.value.1 <= |data| && ReadStr16(data[pos..]) == Some((r.value.0, data[r.value.1..]))
  {
    if pos + 2 > |data| {
      return Err("data too short for " + what + " len");
    }
    var n := FromLe16(data[pos], data[pos + 1]);
    if pos + 2 + n > |data| {
      return Err(what + " overflow");
    }
    SliceOfDrop(data, pos, 2, 2 + n);
    DropDrop(data, pos, 2 + n);
    return Ok((data[pos + 2..pos + 2 + n], pos + 2 + n));
  }

  method TakeStr8(data: seq<byte>, pos: nat, what: string) returns (r: Result<(seq<byte>, nat)>)
    requires pos <= |data|
    ensures r.Ok? <==> ReadStr8(data[pos..]).Some?
    ensures r.Ok? ==> r.value.1 <= |data| && ReadStr8(data[pos..]) == Some((r.value.0, data[r.value.1..]))
  {
    if pos + 1 > |data| {
      return Err("data too short for " + what + " len");
    }
    var n := data[pos] as nat;
    if pos + 1 + n > |data| {
      return Err(what + " overflow");
    }
    SliceOfDrop(data, pos, 1, 1 + n);
    DropDrop(data, pos, 1 + n);
    return Ok((data[pos + 1..pos + 1 + n], pos + 1 + n));
  }

  lemma Regroup(a: int, b: int, p: int, h: int)
    ensures a + 128 * (b + p * h) == (a + 128 * b) + (128 * p) * h
  {
  }

  /** Seven bits at their place in the number. */
  function Scaled(weight: nat, bits: nat): nat { weight * bits }

  /** Reading past k continuation bytes: their bits below, the rest of the number above. */
  lemma {:induction false} UvarintSplit(data: seq<byte>, i: nat, k: nat, sum: nat)
    requires k < |data| && i + k < 10 && forall j :: 0 <= j < k ==> data[j] >= 128
    requires sum == LowBits(data[..k])
    ensures ReadUvarint(data, i)
         == match ReadUvarint(data[k..], i + k)
            case None => None
            case Some((high, rest)) => Some((sum + Scaled(Pow128(k), high), rest))
    decreases k
  {
    if k == 0 {
      assert data[0..] == data;
    } else {
      assert data[..k][1..] == data[1..][..k - 1] && data[..k][0] == data[0];
      UvarintSplit(data[1..], i + 1, k - 1, LowBits(data[1..][..k - 1]));
      assert data[1..][k - 1..] == data[k..];
      match ReadUvarint(data[k..], i + k) {
        case None =>
        case Some((high, rest)) =>
          Regroup(data[0] as int - 128, LowBits(data[1..][..k - 1]), Pow128(k - 1), high);
      }
    }
  }

  /** The value of continuation bytes, lowest first. */
  function LowBits(bytes: seq<byte>): int {
    if bytes == [] then 0 else (bytes[0] as int - 128) + 128 * LowBits(bytes[1..])
  }

  lemma {:induction false} LowBitsSnoc(bytes: seq<byte>, b: byte)
    ensures LowBits(bytes + [b]) == LowBits(bytes) + Pow128(|bytes|) * (b as int - 128)
  {
    if bytes == [] {
      assert [] + [b] == [b] && [b][1..] == [];
    } else {
      assert (bytes + [b])[1..] == bytes[1..] + [b];
      LowBitsSnoc(bytes[1..], b);
      Regroup(bytes[0] as int - 128, LowBits(bytes[1..]), Pow128(|bytes| - 1), b as int - 128);
    }
  }

  /** Byte k ends the number: too large, or the value is complete. */
  lemma UvarintEnds(data: seq<byte>, k: nat, sum: nat)
    requires k < |data| && k < 10 && (forall j :: 0 <= j < k ==> data[j] >= 128) && data[k] < 128
    requires sum == LowBits(data[..k])
    ensures k == 9 && data[k] > 1 ==> ReadUvarint(data).None?
    ensures !(k == 9 && data[k] > 1) ==>
      ReadUvarint(data) == Some((sum + Scaled(Pow128(k), data[k] as nat), data[k + 1..]))
  {
    hide ReadUvarint;
    hide Scaled;
    hide Pow128;
    hide LowBits;
    ReadLast(data[k..], k);
    DropDrop(data, k, 1);
    assert data[k..][0] == data[k];
    UvarintSplit(data, 0, k, sum);
  }

  lemma ReadLast(data: seq<byte>, i: nat)
    requires data != [] && data[0] < 128 && i < 10
    ensures ReadUvarint(data, i) == if i == 9 && data[0] > 1 then None else Some((data[0] as nat, data[1..]))
  {
  }

  /** Byte k continues the number. */
  lemma UvarintContinues(data: seq<byte>, k: nat, sum: nat)
    requires k < |data| && data[k] >= 128 && sum == LowBits(data[..k])
    ensures sum + Scaled(Pow128(k), data[k] as nat - 128) == LowBits(data[..k + 1])
    ensures Pow128(k + 1) == Pow128(k) * 128
  {
    LowBitsSnoc(data[..k], data[k]);
    assert data[..k + 1] == data[..k] + [data[k]];
  }

  /** binary.Uvarint as a loop over the bytes from pos on. */
  method TakeUvarint(data: seq<byte>, pos: nat) returns (r: Option<(nat, nat)>)
    requires pos <= |data|
    ensures r.Some? <==> ReadUvarint(data[pos..]).Some?
    ensures r.Some? ==> r.value.1 <= |data| && ReadUvarint(data[pos..]) == Some((r.value.0, data[r.value.1..]))
  {
    ghost var tail := data[pos..];
    var x: nat := 0;
    var scale: nat := 1;
    var i := 0;
    assert LowBits(tail[..0]) == 0 && Pow128(0) == 1;
    hide LowBits;
    hide Pow128;
    hide ReadUvarint;
    hide Scaled;
    while pos + i < |data|
      invariant pos + i <= |data| && i <= 10
      invariant forall j :: 0 <= j < i ==> tail[j] >= 128
      invariant x == LowBits(tail[..i]) && scale == Pow128(i)
    {
      if i == 10 {
        TooLong(tail, 0, 10);
        return None;
      }
      var b := data[pos + i];
      if b < 128 {
        UvarintEnds(tail, i, x);
        DropDrop(data, pos, i + 1);
        if i == 9 && b > 1 {
          return None;
        }
        return Some((x + Scaled(scale, b as nat), pos + i + 1));
      }
      UvarintContinues(tail, i, x);
      x := x + Scaled(scale, b as nat - 128);
      scale := scale * 128;
      i := i + 1;
    }
    TooLong(tail, 0, i);
    return None;
  }

  /** Continuation bytes up to the end of the data, or ten of them, are no number. */
  lemma {:induction false} TooLong(data: seq<byte>, i: nat, k: nat)
    requires k <= |data| && i + k <= 10 && (k == |data| || i + k == 10) && forall j :: 0 <= j < k ==> data[j] >= 128
    ensures ReadUvarint(data, i).None?
    decreases k
  {
    if k > 0 {
      TooLong(data[1..], i + 1, k - 1);
    }
  }

  method ParseRoomValue(data: seq<byte>, start: nat) returns (r: Result<Msg>)
    requires start <= |data|
    ensures r.Ok? <==> DecodeRoomValue(data[start..]).Some?
    ensures r.Ok? ==> DecodeRoomValue(data[start..]) == Some(r.value)
  {
    var roomId := TakeStr16(data, start, "roomId");
    if roomId.Err? {
      return Err(roomId.message);
    }
    var roomEpoch := TakeStr8(data, roomId.value.1, "RoomEpoch");
    if roomEpoch.Err? {
      return Err(roomEpoch.message);
    }
    var changeSeq := TakeUvarint(data, roomEpoch.value.1);
    if changeSeq.None? {
      return Err("ChangeSeq uvarint decode fail");
    }
    var cVersionId := TakeStr8(data, changeSeq.value.1, "CVersionId");
    if cVersionId.Err? {
      return Err(cVersionId.message);
    }
    var liveData := TakeStr16(data, cVersionId.value.1, "data");
    if liveData.Err? {
      return Err(liveData.message);
    }
    return Ok(RoomValue(roomId.value.0, roomEpoch.value.0, changeSeq.value.0, cVersionId.value.0, liveData.value.0));
  }

  /** The key-value loop of setTimeCfg. */
  method ParseCfg(data: seq<byte>, start: nat, count: nat) returns (c: TimeCfg)
    requires start + 9 * count <= |data|
    ensures c == ReadCfg(data[start..], count, TimeCfg(0, 0, 0, 0, 0, 0))
  {
    c := TimeCfg(0, 0, 0, 0, 0, 0);
    var pos := start;
    for i := 0 to count
      invariant pos == start + 9 * i
      invariant ReadCfg(data[pos..], count - i, c) == ReadCfg(data[start..], count, TimeCfg(0, 0, 0, 0, 0, 0))
    {
      DropDrop(data, pos, 9);
      SliceOfDrop(data, pos, 1, 9);
      var value := FromLittleEndian(data[pos + 1..pos + 9]);
      var fieldId := data[pos];
      match fieldId {
        case 1 => c := c.(reconnectMin := value);
        case 2 => c := c.(idleToSendKeepAlive := value);
        case 3 => c := c.(lastReadToReconnect := value);
        case 4 => c := c.(wsDialTimeout := value);
        case 5 => c := c.(noNeedIdle := value);
        case 6 => c := c.(lastReadToUiNoWork := value);
        case _ =>
      }
      pos := pos + 9;
    }
  }

  /** UnmarshalMsg: never reads outside data, and accepts exactly what Decode accepts. */
  method UnmarshalMsg(data: seq<byte>) returns (r: Result<Msg>)
    ensures r.Ok? <==> Decode(data).Some?
    ensures r.Ok? ==> Decode(data) == Some(r.value)
  {
    if |data| < 1 {
      return Err("data too short");
    }
    var cmd := data[0];
    if cmd == 1 {
      return Ok(Ping);
    } else if cmd == 7 {
      if 2 > |data| {
        return Err("data too short for connAllow");
      }
      return Ok(ConnAllow(data[1] != 0));
    } else if cmd == 8 {
      if 2 > |data| {
        return Err("data too short for denyScope");
      }
      assert data[1..][1..] == data[2..];
      var roomId := TakeStr16(data, 2, "deny roomId");
      if roomId.Err? {
        return Err(roomId.message);
      }
      var reason := TakeStr16(data, roomId.value.1, "deny reason");
      if reason.Err? {
        return Err(reason.message);
      }
      return Ok(Deny(data[1], roomId.value.0, reason.value.0));
    } else if cmd == 9 {
      if 2 > |data| {
        return Err("data too short for closeConn isTemp");
      }
      assert data[1..][1..] == data[2..];
      var reason := TakeStr16(data, 2, "closeConn reason");
      if reason.Err? {
        return Err(reason.message);
      }
      return Ok(CloseConn(data[1] != 0, reason.value.0));
    } else if cmd == 2 {
      if 2 > |data| {
        return Err("data too short for timeoutCfg count");
      }
      var count := data[1] as nat;
      if 2 + count * 9 > |data| {
        return Err("data too short for timeoutCfg kv pairs");
      }
      assert data[1..][1..] == data[2..];
      var cfg := ParseCfg(data, 2, count);
      return Ok(SetTimeCfg(Some(cfg)));
    } else if cmd == 5 {
      r := ParseRoomValue(data, 1);
      return;
    } else if cmd == 3 || cmd == 4 || cmd == 6 || cmd == 10 {
      var s := TakeStr16(data, 1, "string");
      if s.Err? {
        return Err(s.message);
      }
      return Ok(StringMsg(cmd, s.value.0));
    } else {
      return Err("unknown cmd");
    }
  }
}
