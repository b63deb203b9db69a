/**
 * The message format of the wire: what each message's bytes are, and what bytes decode to.
 * Strings are byte sequences; durations are their 64-bit patterns.
 */
module Codec {
  import opened Bytes

  const MAX_UINT64 := 0x1_0000_0000_0000_0000

  datatype TimeCfg = TimeCfg(
    reconnectMin: nat, idleToSendKeepAlive: nat, lastReadToReconnect: nat,
    wsDialTimeout: nat, noNeedIdle: nat, lastReadToUiNoWork: nat)

  /** One constructor per command, with the fields that command serialises. */
  datatype Msg =
    | Ping
    | SetTimeCfg(cfg: Option<TimeCfg>)
    | RoomEnter(roomId: seq<byte>)
    | RoomLeave(roomId: seq<byte>)
    | RoomValue(roomId: seq<byte>, roomEpoch: seq<byte>, changeSeq: nat, cVersionId: seq<byte>, liveData: seq<byte>)
    | Identity(identity: seq<byte>)
    | ConnAllow(authEnabled: bool)
    | Deny(scope: byte, roomId: seq<byte>, reason: seq<byte>)
    | CloseConn(isTemp: bool, reason: seq<byte>)
    | RoomValueMore(liveData: seq<byte>)
    | Unknown(cmd: byte)

  predicate Known(cmd: byte) { 1 <= cmd <= 10 }

  /** Field values that a Go program can hold: uint64 sequence numbers and durations, unknown commands unknown. */
  predicate Typed(m: Msg) {
    && (m.RoomValue? ==> m.changeSeq < MAX_UINT64)
    && (m.SetTimeCfg? && m.cfg.Some? ==> TypedCfg(m.cfg.value))
    && (m.Unknown? ==> !Known(m.cmd))
  }

  predicate TypedCfg(c: TimeCfg) {
    && c.reconnectMin < MAX_UINT64 && c.idleToSendKeepAlive < MAX_UINT64 && c.lastReadToReconnect < MAX_UINT64
    && c.wsDialTimeout < MAX_UINT64 && c.noNeedIdle < MAX_UINT64 && c.lastReadToUiNoWork < MAX_UINT64
  }

  function Cmd(m: Msg): byte {
    match m
    case Ping => 1
    case SetTimeCfg(_) => 2
    case RoomEnter(_) => 3
    case RoomLeave(_) => 4
    case RoomValue(_, _, _, _, _) => 5
    case Identity(_) => 6
    case ConnAllow(_) => 7
    case Deny(_, _, _) => 8
    case CloseConn(_, _) => 9
    case RoomValueMore(_) => 10
    case Unknown(cmd) => cmd
  }

  // ---------------------------------------------------------------- uvarint

  /** Seven bits a byte, low bits first, the top bit marking that more follow (binary.PutUvarint). */
  function Uvarint(x: nat): (r: seq<byte>)
    ensures |r| > 0
  {
    if x < 128 then [x as byte] else [(x % 128 + 128) as byte] + Uvarint(x / 128)
  }

  /** Seven-bit group i of x, counted from the least significant. */
  function Group(x: nat, i: nat): nat {
    if i == 0 then x % 128 else Group(x / 128, i - 1)
  }

  /** Byte i holds group i, with the top bit set on all but the last; a number of more than one byte does not end in an
      empty group. */
  lemma {:induction false} UvarintAt(x: nat, i: nat)
    requires i < |Uvarint(x)|
    ensures var b, last := Uvarint(x)[i] as nat, |Uvarint(x)| - 1;
      b == Group(x, i) + (if i < last then 128 else 0) && (i == last > 0 ==> b > 0)
  {
    if x >= 128 && i > 0 {
      UvarintAt(x / 128, i - 1);
    }
  }

  /** Number of binary digits (bits.Len64). */
  function BitLen(x: nat): nat {
    if x == 0 then 0 else 1 + BitLen(x / 2)
  }

  /** x | 127. */
  function Or127(x: nat): nat { x - x % 128 + 127 }

  /** getUvarintOutputSize. */
  function UvarintSize(x: nat): nat { (BitLen(Or127(x)) + 6) / 7 }

  lemma BitLenShift(x: nat)
    requires x >= 128
    ensures BitLen(x) == 7 + BitLen(x / 128)
  {
    var a := x / 2; var b := a / 2; var c := b / 2; var d := c / 2; var e := d / 2; var f := e / 2; var g := f / 2;
    assert g == x / 128;
    assert BitLen(x) == 1 + BitLen(a) && BitLen(a) == 1 + BitLen(b) && BitLen(b) == 1 + BitLen(c);
    assert BitLen(c) == 1 + BitLen(d) && BitLen(d) == 1 + BitLen(e) && BitLen(e) == 1 + BitLen(f);
  }

  lemma {:induction false} BitLenMonotone(x: nat, y: nat)
    requires x <= y
    ensures BitLen(x) <= BitLen(y)
  {
    if x > 0 {
      BitLenMonotone(x / 2, y / 2);
    }
  }

  /** The size formula of the source is exactly the number of bytes written. */
  lemma {:induction false} UvarintSizeExact(x: nat)
    ensures UvarintSize(x) == |Uvarint(x)|
  {
    Or127Div(x);
    if x < 128 {
      BitLen127();
    } else {
      BitLenShift(Or127(x));
      UvarintSizeExact(x / 128);
      SameGroups(x / 128);
    }
  }

  lemma Or127Div(x: nat)
    ensures Or127(x) / 128 == x / 128 && Or127(x) >= x && (x < 128 ==> Or127(x) == 127)
  {
  }

  /** Filling the lowest seven bits does not change the number of seven-bit groups. */
  lemma SameGroups(y: nat)
    requires y > 0
    ensures (BitLen(y) + 6) / 7 == (BitLen(Or127(y)) + 6) / 7
  {
    Or127Div(y);
    if y < 128 {
      BitLenMonotone(1, y);
      BitLenMonotone(y, 127);
      BitLen127();
    } else {
      BitLenShift(y);
      BitLenShift(Or127(y));
    }
  }

  lemma BitLen127()
    ensures BitLen(127) == 7
  {
  }

  /** A 64-bit value takes at most ten bytes, and in the tenth byte at most the lowest bit is set. */
  lemma {:induction false} UvarintShort(x: nat, shift: nat)
    requires shift <= 9 && x < Pow128(shift) * 2
    ensures |Uvarint(x)| <= shift + 1
    ensures |Uvarint(x)| == shift + 1 ==> Uvarint(x)[shift] <= 1
  {
    if x >= 128 {
      UvarintShort(x / 128, shift - 1);
    }
  }

  function Pow128(n: nat): (r: nat)
    ensures r > 0
  {
    if n == 0 then 1 else 128 * Pow128(n - 1)
  }

  /**
   * binary.Uvarint from byte i of the number on: the value and the bytes after it; None for a truncated number,
   * for more than ten bytes, or for a tenth byte above 1.
   */
  function ReadUvarint(data: seq<byte>, i: nat := 0): Option<(nat, seq<byte>)>
    decreases |data|
  {
    if data == [] || i == 10 then None
    else
      var b := data[0] as nat;
      if b < 128 then
        if i == 9 && b > 1 then None else Some((b, data[1..]))
      else
        match ReadUvarint(data[1..], i + 1)
        case None => None
        case Some((high, rest)) => Some((b - 128 + 128 * high, rest))
  }

  /** The number beginning at byte i of its ten ends with byte k of data. */
  predicate EndsAt(data: seq<byte>, i: nat, k: nat) {
    && k < |data| && i + k < 10 && data[k] < 128 && (i + k == 9 ==> data[k] <= 1)
    && forall j :: 0 <= j < k ==> data[j] >= 128
  }

  /** A number is read if and only if it ends within ten bytes, the tenth being at most 1. */
  lemma {:induction false} UvarintIsReadIff(data: seq<byte>, i: nat)
    requires i <= 10
    ensures ReadUvarint(data, i).Some? <==> exists k: nat :: EndsAt(data, i, k)
    decreases |data|
  {
    if data != [] && i < 10 {
      assert data[0] < 128 && ReadUvarint(data, i).Some? ==> EndsAt(data, i, 0);
      if data[0] >= 128 {
        var rest := data[1..];
        UvarintIsReadIff(rest, i + 1);
        if ReadUvarint(rest, i + 1).Some? {
          var k: nat :| EndsAt(rest, i + 1, k);
          assert forall j :: 0 < j <= k + 1 ==> data[j] == rest[j - 1];
          assert EndsAt(data, i, k + 1);
        }
        if k: nat :| EndsAt(data, i, k) {
          assert EndsAt(rest, i + 1, k - 1);
        }
      }
    }
  }

  /** What is read fits 64 bits. */
  lemma {:induction false} UvarintFits(data: seq<byte>, i: nat)
    requires i <= 9 && ReadUvarint(data, i).Some?
    ensures ReadUvarint(data, i).value.0 < 2 * Pow128(9 - i)
    decreases |data|
  {
    if data[0] >= 128 {
      UvarintFits(data[1..], i + 1);
    }
  }

  lemma {:induction false} ReadUvarintBack(x: nat, i: nat, rest: seq<byte>)
    requires |Uvarint(x)| + i <= 10
    requires |Uvarint(x)| + i == 10 ==> Uvarint(x)[|Uvarint(x)| - 1] <= 1
    ensures ReadUvarint(Uvarint(x) + rest, i) == Some((x, rest))
  {
    var data := Uvarint(x) + rest;
    if x < 128 {
      assert data[0] == x as byte && data[1..] == rest;
    } else {
      ReadUvarintBack(x / 128, i + 1, rest);
      assert data[0] == (x % 128 + 128) as byte;
      assert data[1..] == Uvarint(x / 128) + rest;
    }
  }

  /** Ten bytes of seven bits hold every uint64. */
  lemma UvarintRoundTrip(x: nat, rest: seq<byte>)
    requires x < MAX_UINT64
    ensures |Uvarint(x)| <= 10
    ensures ReadUvarint(Uvarint(x) + rest) == Some((x, rest))
  {
    Pow128Nine();
    UvarintShort(x, 9);
    ReadUvarintBack(x, 0, rest);
  }

  lemma Pow128Nine()
    ensures Pow128(9) * 2 == MAX_UINT64
  {
    assert Pow128(3) == 2097152;
    assert Pow128(6) == 2097152 * 2097152;
  }

  // ---------------------------------------------------------------- encoding

  /** Exact size of the encoding, or why the message cannot be serialised. */
  function BinarySize(m: Msg): Result<nat> {
    match m
    case Ping => Ok(1)
    case ConnAllow(_) => Ok(1 + 1)
    case Identity(identity) =>
      if |identity| > 65535 then Err("Identity too long") else Ok(1 + (2 + |identity|))
    case Deny(_, roomId, reason) =>
      if |roomId| > 65535 then Err("RoomId too long")
      else if |reason| > 65535 then Err("Reason too long")
      else Ok(1 + 1 + (2 + |roomId|) + (2 + |reason|))
    case CloseConn(_, reason) =>
      if |reason| > 65535 then Err("Reason too long") else Ok(1 + 1 + (2 + |reason|))
    case SetTimeCfg(cfg) =>
      if cfg.None? then Err("TimeoutCfg is nil") else Ok(1 + 1 + 6 * 9)
    case RoomEnter(roomId) =>
      if |roomId| > 65535 then Err("RoomId too long") else Ok(1 + (2 + |roomId|))
    case RoomLeave(roomId) =>
      if |roomId| > 65535 then Err("RoomId too long") else Ok(1 + (2 + |roomId|))
    case RoomValue(roomId, roomEpoch, changeSeq, cVersionId, liveData) =>
      if |roomId| > 65535 then Err("RoomId too long")
      else if |roomEpoch| > 255 then Err("RoomEpoch too long")
      else if |cVersionId| > 255 then Err("CVersionId too long")
      else if |liveData| > 65535 then Err("LiveData too long")
      else Ok(1 + (2 + |roomId|) + (1 + |roomEpoch|) + UvarintSize(changeSeq) + (1 + |cVersionId|) + (2 + |liveData|))
    case RoomValueMore(liveData) =>
      if |liveData| > 65535 then Err("LiveData chunk too long") else Ok(1 + (2 + |liveData|))
    case Unknown(_) => Err("unknown cmd")
  }

  /** The messages that can be serialised: every field fits its length prefix. */
  predicate Encodable(m: Msg) {
    Typed(m) &&
    match m
    case Identity(identity) => |identity| <= 65535
    case Deny(_, roomId, reason) => |roomId| <= 65535 && |reason| <= 65535
    case CloseConn(_, reason) => |reason| <= 65535
    case SetTimeCfg(cfg) => cfg.Some?
    case RoomEnter(roomId) => |roomId| <= 65535
    case RoomLeave(roomId) => |roomId| <= 65535
    case RoomValue(roomId, roomEpoch, _, cVersionId, liveData) =>
      |roomId| <= 65535 && |roomEpoch| <= 255 && |cVersionId| <= 255 && |liveData| <= 65535
    case RoomValueMore(liveData) => |liveData| <= 65535
    case Unknown(_) => false
    case _ => true
  }

  function Bool(b: bool): seq<byte> { if b then [1] else [0] }

  /** A 16-bit length and that many bytes. */
  function Str16(s: seq<byte>): seq<byte>
    requires |s| <= 65535
  {
    Le16(|s|) + s
  }

  /** An 8-bit length and that many bytes. */
  function Str8(s: seq<byte>): seq<byte>
    requires |s| <= 255
  {
    [|s| as byte] + s
  }

  function KeyValue(id: byte, value: nat): (r: seq<byte>)
    ensures |r| == 9
  {
    [id] + LittleEndian(value, 8)
  }

  function CfgFields(c: TimeCfg): (r: seq<byte>)
    ensures |r| == 54
  {
    KeyValue(1, c.reconnectMin) + (KeyValue(2, c.idleToSendKeepAlive) + (KeyValue(3, c.lastReadToReconnect)
    + (KeyValue(4, c.wsDialTimeout) + (KeyValue(5, c.noNeedIdle) + KeyValue(6, c.lastReadToUiNoWork)))))
  }

  /** The bytes after the command byte. */
  function Body(m: Msg): seq<byte>
    requires Encodable(m)
  {
    match m
    case Ping => []
    case ConnAllow(authEnabled) => Bool(authEnabled)
    case Identity(identity) => Str16(identity)
    case Deny(scope, roomId, reason) => [scope] + (Str16(roomId) + Str16(reason))
    case CloseConn(isTemp, reason) => Bool(isTemp) + Str16(reason)
    case SetTimeCfg(cfg) => [6] + CfgFields(cfg.value)
    case RoomEnter(roomId) => Str16(roomId)
    case RoomLeave(roomId) => Str16(roomId)
    case RoomValue(roomId, roomEpoch, changeSeq, cVersionId, liveData) =>
      Str16(roomId) + (Str8(roomEpoch) + (Uvarint(changeSeq) + (Str8(cVersionId) + Str16(liveData))))
    case RoomValueMore(liveData) => Str16(liveData)
  }

  function Encode(m: Msg): (r: seq<byte>)
    requires Encodable(m)
    ensures |r| > 0
  {
    [Cmd(m)] + Body(m)
  }

  /** BinarySize accepts exactly the messages that can be serialised, and is exact on them. */
  lemma SizeIsExact(m: Msg)
    requires Typed(m)
    ensures BinarySize(m).Ok? <==> Encodable(m)
    ensures Encodable(m) ==> BinarySize(m) == Ok(|Encode(m)|)
  {
    if m.RoomValue? && Encodable(m) {
      RoomValueSize(m);
    }
  }

  lemma RoomValueSize(m: Msg)
    requires Encodable(m) && m.RoomValue?
    ensures BinarySize(m) == Ok(1 + |Body(m)|)
  {
    UvarintSizeExact(m.changeSeq);
    var a, b, c := Str16(m.roomId), Str8(m.roomEpoch), Uvarint(m.changeSeq);
    var d, e := Str8(m.cVersionId), Str16(m.liveData);
    assert |Body(m)| == |a| + |b| + |c| + |d| + |e|;
  }

  // ---------------------------------------------------------------- decoding

  function ReadStr16(data: seq<byte>): Option<(seq<byte>, seq<byte>)> {
    if |data| < 2 then None
    else
      var n := FromLe16(data[0], data[1]);
      if |data| < 2 + n then None else Some((data[2..2 + n], data[2 + n..]))
  }

  function ReadStr8(data: seq<byte>): Option<(seq<byte>, seq<byte>)> {
    if |data| < 1 then None
    else
      var n := data[0] as nat;
      if |data| < 1 + n then None else Some((data[1..1 + n], data[1 + n..]))
  }

  /** Applies `count` key-value fields in order; unknown ids are skipped. */
  function ReadCfg(data: seq<byte>, count: nat, c: TimeCfg): TimeCfg
    requires |data| >= 9 * count
    decreases count
  {
    if count == 0 then c
    else ReadCfg(data[9..], count - 1, SetField(c, data[0], FromLittleEndian(data[1..9])))
  }

  function SetField(c: TimeCfg, id: byte, value: nat): TimeCfg {
    if id == 1 then c.(reconnectMin := value)
    else if id == 2 then c.(idleToSendKeepAlive := value)
    else if id == 3 then c.(lastReadToReconnect := value)
    else if id == 4 then c.(wsDialTimeout := value)
    else if id == 5 then c.(noNeedIdle := value)
    else if id == 6 then c.(lastReadToUiNoWork := value)
    else c
  }

  function DecodeRoomValue(body: seq<byte>): Option<Msg> {
    match ReadStr16(body)
    case None => None
    case Some((roomId, d1)) =>
      match ReadStr8(d1)
      case None => None
      case Some((roomEpoch, d2)) =>
        match ReadUvarint(d2)
        case None => None
        case Some((changeSeq, d3)) =>
          match ReadStr8(d3)
          case None => None
          case Some((cVersionId, d4)) =>
            match ReadStr16(d4)
            case None => None
            case Some((liveData, _)) => Some(RoomValue(roomId, roomEpoch, changeSeq, cVersionId, liveData))
  }

  function DecodeDeny(body: seq<byte>): Option<Msg> {
    if body == [] then None
    else
      match ReadStr16(body[1..])
      case None => None
      case Some((roomId, rest)) =>
        match ReadStr16(rest) case None => None case Some((reason, _)) => Some(Deny(body[0], roomId, reason))
  }

  function DecodeCloseConn(body: seq<byte>): Option<Msg> {
    if body == [] then None
    else match ReadStr16(body[1..]) case None => None case Some((reason, _)) => Some(CloseConn(body[0] != 0, reason))
  }

  function DecodeTimeCfg(body: seq<byte>): Option<Msg> {
    if body == [] || |body| < 1 + 9 * (body[0] as nat) then None
    else Some(SetTimeCfg(Some(ReadCfg(body[1..], body[0] as nat, TimeCfg(0, 0, 0, 0, 0, 0)))))
  }

  /** A command whose body is one 16-bit string. */
  function StringMsg(cmd: byte, s: seq<byte>): Msg
    requires cmd == 3 || cmd == 4 || cmd == 6 || cmd == 10
  {
    if cmd == 3 then RoomEnter(s) else if cmd == 4 then RoomLeave(s) else if cmd == 6 then Identity(s)
    else RoomValueMore(s)
  }

  function DecodeBody(cmd: byte, body: seq<byte>): Option<Msg> {
    if cmd == 1 then Some(Ping)
    else if cmd == 7 then (if body == [] then None else Some(ConnAllow(body[0] != 0)))
    else if cmd == 8 then DecodeDeny(body)
    else if cmd == 9 then DecodeCloseConn(body)
    else if cmd == 2 then DecodeTimeCfg(body)
    else if cmd == 5 then DecodeRoomValue(body)
    else if cmd == 3 || cmd == 4 || cmd == 6 || cmd == 10 then
      (match ReadStr16(body) case None => None case Some((s, _)) => Some(StringMsg(cmd, s)))
    else None
  }

  /** The message at the head of data, or None for bytes that are not a message. Bytes after it are ignored. */
  function Decode(data: seq<byte>): Option<Msg> {
    if data == [] then None else DecodeBody(data[0], data[1..])
  }

  // ---------------------------------------------------------------- round trip

  lemma ReadStr16Back(s: seq<byte>, rest: seq<byte>)
    requires |s| <= 65535
    ensures ReadStr16(Str16(s) + rest) == Some((s, rest))
  {
    var data := Str16(s) + rest;
    assert data[0] == Le16(|s|)[0] && data[1] == Le16(|s|)[1];
    assert data[2..2 + |s|] == s && data[2 + |s|..] == rest;
  }

  lemma ReadStr8Back(s: seq<byte>, rest: seq<byte>)
    requires |s| <= 255
    ensures ReadStr8(Str8(s) + rest) == Some((s, rest))
  {
    var data := Str8(s) + rest;
    assert data[1..1 + |s|] == s && data[1 + |s|..] == rest;
  }

  lemma RoomValueBack(m: Msg, rest: seq<byte>)
    requires Encodable(m) && m.RoomValue?
    ensures DecodeRoomValue(Body(m) + rest) == Some(m)
  {
    var a, b, c := Str16(m.roomId), Str8(m.roomEpoch), Uvarint(m.changeSeq);
    var d, e := Str8(m.cVersionId), Str16(m.liveData);
    Associative(a, b + (c + (d + e)), rest);
    Associative(b, c + (d + e), rest);
    Associative(c, d + e, rest);
    Associative(d, e, rest);
    ReadStr16Back(m.roomId, b + (c + (d + (e + rest))));
    ReadStr8Back(m.roomEpoch, c + (d + (e + rest)));
    UvarintRoundTrip(m.changeSeq, d + (e + rest));
    ReadStr8Back(m.cVersionId, e + rest);
    ReadStr16Back(m.liveData, rest);
  }

  lemma Pow256Eight()
    ensures Pow256(8) == MAX_UINT64
  {
    assert Pow256(4) == 0x1_0000_0000;
  }

  /** One field read off the front of the key-value list. */
  lemma ReadField(id: byte, value: nat, rest: seq<byte>, count: nat, c: TimeCfg)
    requires value < MAX_UINT64 && count > 0 && |rest| >= 9 * (count - 1)
    ensures ReadCfg(KeyValue(id, value) + rest, count, c) == ReadCfg(rest, count - 1, SetField(c, id, value))
  {
    var data := KeyValue(id, value) + rest;
    Pow256Eight();
    LittleEndianRoundTrip(value, 8);
    assert data[9..] == rest && data[0] == id;
    assert data[1..9] == LittleEndian(value, 8);
  }

  lemma CfgBack(c: TimeCfg, rest: seq<byte>)
    requires TypedCfg(c)
    ensures ReadCfg(CfgFields(c) + rest, 6, TimeCfg(0, 0, 0, 0, 0, 0)) == c
  {
    var k1, k2 := KeyValue(1, c.reconnectMin), KeyValue(2, c.idleToSendKeepAlive);
    var k3 := KeyValue(3, c.lastReadToReconnect);
    var k4, k5, k6 := KeyValue(4, c.wsDialTimeout), KeyValue(5, c.noNeedIdle), KeyValue(6, c.lastReadToUiNoWork);
    var t5 := k6 + rest; var t4 := k5 + t5; var t3 := k4 + t4; var t2 := k3 + t3; var t1 := k2 + t2;
    Associative(k5, k6, rest);
    Associative(k4, k5 + k6, rest);
    Associative(k3, k4 + (k5 + k6), rest);
    Associative(k2, k3 + (k4 + (k5 + k6)), rest);
    Associative(k1, k2 + (k3 + (k4 + (k5 + k6))), rest);
    assert CfgFields(c) + rest == k1 + t1;
    var c0 := TimeCfg(0, 0, 0, 0, 0, 0);
    ReadField(1, c.reconnectMin, t1, 6, c0);
    var c1 := SetField(c0, 1, c.reconnectMin);
    ReadField(2, c.idleToSendKeepAlive, t2, 5, c1);
    var c2 := SetField(c1, 2, c.idleToSendKeepAlive);
    ReadField(3, c.lastReadToReconnect, t3, 4, c2);
    var c3 := SetField(c2, 3, c.lastReadToReconnect);
    ReadField(4, c.wsDialTimeout, t4, 3, c3);
    var c4 := SetField(c3, 4, c.wsDialTimeout);
    ReadField(5, c.noNeedIdle, t5, 2, c4);
    var c5 := SetField(c4, 5, c.noNeedIdle);
    ReadField(6, c.lastReadToUiNoWork, rest, 1, c5);
  }

  lemma TaggedBack(tag: byte, body: seq<byte>, rest: seq<byte>)
    ensures ([tag] + body + rest)[0] == tag && ([tag] + body + rest)[1..] == body + rest
  {
  }

  lemma DenyBack(m: Msg, rest: seq<byte>)
    requires Encodable(m) && m.Deny?
    ensures DecodeBody(8, Body(m) + rest) == Some(m)
  {
    TaggedBack(m.scope, Str16(m.roomId) + Str16(m.reason), rest);
    Associative(Str16(m.roomId), Str16(m.reason), rest);
    ReadStr16Back(m.roomId, Str16(m.reason) + rest);
    ReadStr16Back(m.reason, rest);
  }

  lemma CloseConnBack(m: Msg, rest: seq<byte>)
    requires Encodable(m) && m.CloseConn?
    ensures DecodeBody(9, Body(m) + rest) == Some(m)
  {
    var flag := Bool(m.isTemp);
    assert flag == [flag[0]];
    TaggedBack(flag[0], Str16(m.reason), rest);
    ReadStr16Back(m.reason, rest);
  }

  lemma TimeCfgBack(m: Msg, rest: seq<byte>)
    requires Encodable(m) && m.SetTimeCfg?
    ensures DecodeBody(2, Body(m) + rest) == Some(m)
  {
    TaggedBack(6, CfgFields(m.cfg.value), rest);
    CfgBack(m.cfg.value, rest);
  }

  lemma StringBack(m: Msg, rest: seq<byte>)
    requires Encodable(m) && (m.RoomEnter? || m.RoomLeave? || m.Identity? || m.RoomValueMore?)
    ensures DecodeBody(Cmd(m), Body(m) + rest) == Some(m)
  {
    var s := match m case RoomEnter(s) => s case RoomLeave(s) => s case Identity(s) => s case RoomValueMore(s) => s;
    ReadStr16Back(s, rest);
  }

  lemma FlagBack(m: Msg, rest: seq<byte>)
    requires Encodable(m) && m.ConnAllow?
    ensures DecodeBody(7, Body(m) + rest) == Some(m)
  {
    assert (Body(m) + rest)[0] == Body(m)[0];
  }

  lemma DecodeRoomValueBody(body: seq<byte>)
    ensures DecodeBody(5, body) == DecodeRoomValue(body)
    ensures DecodeBody(1, body) == Some(Ping)
  {
  }

  lemma BodyBack(m: Msg, rest: seq<byte>)
    requires Encodable(m)
    ensures DecodeBody(Cmd(m), Body(m) + rest) == Some(m)
  {
    var body := Body(m) + rest;
    DecodeRoomValueBody(body);
    if m.ConnAllow? {
      FlagBack(m, rest);
    } else if m.Deny? {
      DenyBack(m, rest);
    } else if m.CloseConn? {
      CloseConnBack(m, rest);
    } else if m.SetTimeCfg? {
      TimeCfgBack(m, rest);
    } else if m.RoomValue? {
      RoomValueBack(m, rest);
    } else if !m.Ping? {
      StringBack(m, rest);
    }
  }

  /** Decoding an encoded message, whatever follows it, gives the message back. */
  lemma RoundTrip(m: Msg, rest: seq<byte>)
    requires Encodable(m)
    ensures Decode(Encode(m) + rest) == Some(m)
  {
    TaggedBack(Cmd(m), Body(m), rest);
    BodyBack(m, rest);
  }

  /** Different messages have different bytes. */
  lemma EncodeInjective(m: Msg, k: Msg)
    requires Encodable(m) && Encodable(k) && Encode(m) == Encode(k)
    ensures m == k
  {
    RoundTrip(m, []);
    RoundTrip(k, []);
    assert Encode(m) + [] == Encode(k) + [];
  }

  // ---------------------------------------------------------------- the format, byte by byte

  /** The 16-bit length of s, low byte first. */
  function Len16(s: seq<byte>): seq<byte>
    requires |s| <= 65535
  {
    [(|s| % 256) as byte, (|s| / 256) as byte]
  }

  /** Command, flags, and strings behind their lengths. */
  lemma Layout(m: Msg)
    requires Encodable(m) && !m.SetTimeCfg?
    ensures Encode(m) ==
      match m
      case Ping => [1]
      case ConnAllow(authEnabled) => [7, if authEnabled then 1 else 0]
      case Identity(identity) => [6] + (Len16(identity) + identity)
      case Deny(scope, roomId, reason) => [8] + ([scope] + ((Len16(roomId) + roomId) + (Len16(reason) + reason)))
      case CloseConn(isTemp, reason) => [9] + ([if isTemp then 1 else 0] + (Len16(reason) + reason))
      case RoomEnter(roomId) => [3] + (Len16(roomId) + roomId)
      case RoomLeave(roomId) => [4] + (Len16(roomId) + roomId)
      case RoomValueMore(liveData) => [10] + (Len16(liveData) + liveData)
      case RoomValue(roomId, roomEpoch, changeSeq, cVersionId, liveData) =>
        [5] + ((Len16(roomId) + roomId) + (([|roomEpoch| as byte] + roomEpoch) + (Uvarint(changeSeq)
        + (([|cVersionId| as byte] + cVersionId) + (Len16(liveData) + liveData)))))
      case _ => []
  {
    LengthFirst();
    hide Uvarint;
    hide Str16;
    hide Len16;
  }

  lemma LengthFirst()
    ensures forall s: seq<byte> :: |s| <= 65535 ==> Str16(s) == Len16(s) + s
  {
  }

  /** The duration of field i of a time configuration. */
  function Duration(c: TimeCfg, i: nat): nat {
    if i == 0 then c.reconnectMin else if i == 1 then c.idleToSendKeepAlive else if i == 2 then c.lastReadToReconnect
    else if i == 3 then c.wsDialTimeout else if i == 4 then c.noNeedIdle else c.lastReadToUiNoWork
  }

  /** The fields from number i + 1 on. */
  function FieldsFrom(c: TimeCfg, i: nat): (r: seq<byte>)
    requires i <= 6
    ensures |r| == 9 * (6 - i)
    decreases 6 - i
  {
    if i == 6 then [] else KeyValue((i + 1) as byte, Duration(c, i)) + FieldsFrom(c, i + 1)
  }

  lemma FieldsAre(c: TimeCfg)
    ensures CfgFields(c) == FieldsFrom(c, 0)
  {
    hide KeyValue;
    assert FieldsFrom(c, 6) == [];
    assert FieldsFrom(c, 5) == KeyValue(6, c.lastReadToUiNoWork);
    assert FieldsFrom(c, 4) == KeyValue(5, c.noNeedIdle) + FieldsFrom(c, 5);
    assert FieldsFrom(c, 3) == KeyValue(4, c.wsDialTimeout) + FieldsFrom(c, 4);
    assert FieldsFrom(c, 2) == KeyValue(3, c.lastReadToReconnect) + FieldsFrom(c, 3);
    assert FieldsFrom(c, 1) == KeyValue(2, c.idleToSendKeepAlive) + FieldsFrom(c, 2);
    assert FieldsFrom(c, 0) == KeyValue(1, c.reconnectMin) + FieldsFrom(c, 1);
  }

  lemma {:induction false} FieldAt(c: TimeCfg, j: nat, i: nat, k: nat)
    requires j <= i < 6 && k < 9
    ensures FieldsFrom(c, j)[9 * (i - j) + k] == KeyValue((i + 1) as byte, Duration(c, i))[k]
    decreases i - j
  {
    hide KeyValue;
    if j < i {
      FieldAt(c, j + 1, i, k);
    }
  }

  lemma CfgByte(c: TimeCfg, i: nat, k: nat)
    requires TypedCfg(c) && i < 6 && k < 9
    ensures var data := Encode(SetTimeCfg(Some(c)));
      && |data| == 56 && data[0] == 2 && data[1] == 6
      && data[2 + 9 * i + k] == KeyValue((i + 1) as byte, Duration(c, i))[k]
  {
    FieldsAre(c);
    FieldAt(c, 0, i, k);
    hide KeyValue;
    hide CfgFields;
    hide FieldsFrom;
    hide Duration;
  }

  /** A time configuration is six numbered fields of eight bytes, low byte first. */
  lemma TimeCfgLayout(c: TimeCfg, i: nat, k: nat)
    requires TypedCfg(c) && i < 6 && k < 8
    ensures var data := Encode(SetTimeCfg(Some(c)));
      && |data| == 56 && data[0] == 2 && data[1] == 6
      && data[2 + 9 * i] as nat == i + 1 && data[3 + 9 * i + k] == ByteOf(Duration(c, i), k)
  {
    hide Encode;
    hide Duration;
    CfgByte(c, i, 0);
    CfgByte(c, i, k + 1);
    LittleEndianAt(Duration(c, i), 8, k);
    hide ByteOf;
    hide LittleEndian;
  }

  // ---------------------------------------------------------------- what is refused

  lemma CutPair(a: seq<byte>, b: seq<byte>, k: nat)
    requires k <= |a + b|
    ensures (a + b)[..k] == if k <= |a| then a[..k] else a + b[..k - |a|]
  {
  }

  lemma CutStr16(s: seq<byte>, k: nat)
    requires |s| <= 65535 && k < |Str16(s)|
    ensures ReadStr16(Str16(s)[..k]).None?
  {
    var data := Str16(s)[..k];
    if k >= 2 {
      assert data[0] == Le16(|s|)[0] && data[1] == Le16(|s|)[1];
    }
  }

  lemma CutStr8(s: seq<byte>, k: nat)
    requires |s| <= 255 && k < |Str8(s)|
    ensures ReadStr8(Str8(s)[..k]).None?
  {
    var data := Str8(s)[..k];
    if k >= 1 {
      assert data[0] == |s| as byte;
    }
  }

  lemma {:induction false} CutUvarint(x: nat, k: nat, i: nat)
    requires k < |Uvarint(x)|
    ensures ReadUvarint(Uvarint(x)[..k], i).None?
    decreases k
  {
    if k > 0 {
      CutUvarint(x / 128, k - 1, i + 1);
      assert Uvarint(x)[..k][1..] == Uvarint(x / 128)[..k - 1];
    }
  }

  /** Two strings one after the other, cut short. */
  lemma CutStrings(s: seq<byte>, t: seq<byte>, k: nat)
    requires |s| <= 65535 && |t| <= 65535 && k < |Str16(s) + Str16(t)|
    ensures var r := ReadStr16((Str16(s) + Str16(t))[..k]); r.None? || ReadStr16(r.value.1).None?
  {
    CutPair(Str16(s), Str16(t), k);
    if k < |Str16(s)| {
      CutStr16(s, k);
    } else {
      var rest := Str16(t)[..k - |Str16(s)|];
      assert Str16(s) + [] == Str16(s);
      ReadStr16Back(s, rest);
      CutStr16(t, k - |Str16(s)|);
    }
  }

  /** A sequence number, a version and live data, cut short. */
  lemma CutNumbers(x: nat, cv: seq<byte>, live: seq<byte>, k: nat)
    requires x < MAX_UINT64 && |cv| <= 255 && |live| <= 65535 && k < |Uvarint(x) + (Str8(cv) + Str16(live))|
    ensures var data := (Uvarint(x) + (Str8(cv) + Str16(live)))[..k];
      match ReadUvarint(data)
      case None => true
      case Some((_, d3)) =>
        match ReadStr8(d3) case None => true case Some((_, d4)) => ReadStr16(d4).None?
  {
    var c, d, e := Uvarint(x), Str8(cv), Str16(live);
    CutPair(c, d + e, k);
    if k < |c| {
      CutUvarint(x, k, 0);
    } else {
      var j := k - |c|;
      UvarintRoundTrip(x, (d + e)[..j]);
      assert c + [] == c;
      CutPair(d, e, j);
      if j < |d| {
        CutStr8(cv, j);
      } else {
        assert d + [] == d;
        ReadStr8Back(cv, e[..j - |d|]);
        CutStr16(live, j - |d|);
      }
    }
  }

  /** What follows the room id, cut short. */
  lemma CutAfterRoomId(m: Msg, k: nat)
    requires Encodable(m) && m.RoomValue?
    requires k < |Str8(m.roomEpoch) + (Uvarint(m.changeSeq) + (Str8(m.cVersionId) + Str16(m.liveData)))|
    ensures var data := (Str8(m.roomEpoch) + (Uvarint(m.changeSeq) + (Str8(m.cVersionId) + Str16(m.liveData))))[..k];
      match ReadStr8(data)
      case None => true
      case Some((_, d2)) =>
        match ReadUvarint(d2)
        case None => true
        case Some((_, d3)) =>
          match ReadStr8(d3) case None => true case Some((_, d4)) => ReadStr16(d4).None?
  {
    var b, tail := Str8(m.roomEpoch), Uvarint(m.changeSeq) + (Str8(m.cVersionId) + Str16(m.liveData));
    hide Uvarint;
    hide ReadUvarint;
    hide Str16;
    hide Str8;
    hide ReadStr16;
    hide ReadStr8;
    CutPair(b, tail, k);
    if k < |b| {
      CutStr8(m.roomEpoch, k);
    } else {
      assert b + [] == b;
      ReadStr8Back(m.roomEpoch, tail[..k - |b|]);
      CutNumbers(m.changeSeq, m.cVersionId, m.liveData, k - |b|);
    }
  }

  lemma CutRoomValue(m: Msg, k: nat)
    requires Encodable(m) && m.RoomValue? && k < |Body(m)|
    ensures DecodeRoomValue(Body(m)[..k]).None?
  {
    hide Uvarint;
    hide ReadUvarint;
    hide Str16;
    hide Str8;
    hide ReadStr16;
    hide ReadStr8;
    var a := Str16(m.roomId);
    var tail := Str8(m.roomEpoch) + (Uvarint(m.changeSeq) + (Str8(m.cVersionId) + Str16(m.liveData)));
    assert Body(m) == a + tail;
    hide Body;
    CutPair(a, tail, k);
    if k < |a| {
      CutStr16(m.roomId, k);
    } else {
      assert a + [] == a;
      ReadStr16Back(m.roomId, tail[..k - |a|]);
      CutAfterRoomId(m, k - |a|);
    }
  }

  /** A message of one string. */
  predicate OneString(m: Msg) { m.RoomEnter? || m.RoomLeave? || m.Identity? || m.RoomValueMore? }

  lemma CutTagged(tag: byte, body: seq<byte>, k: nat)
    requires 0 < k <= 1 + |body|
    ensures var data := ([tag] + body)[..k]; data[0] == tag && data[1..] == body[..k - 1]
  {
  }

  lemma CutDeny(m: Msg, k: nat)
    requires Encodable(m) && m.Deny? && k < |Body(m)|
    ensures DecodeDeny(Body(m)[..k]).None?
  {
    hide Str16;
    hide ReadStr16;
    if k > 0 {
      CutTagged(m.scope, Str16(m.roomId) + Str16(m.reason), k);
      CutStrings(m.roomId, m.reason, k - 1);
    }
  }

  lemma CutCloseConn(m: Msg, k: nat)
    requires Encodable(m) && m.CloseConn? && k < |Body(m)|
    ensures DecodeCloseConn(Body(m)[..k]).None?
  {
    if k > 0 {
      assert Body(m) == [Bool(m.isTemp)[0]] + Str16(m.reason);
      CutTagged(Bool(m.isTemp)[0], Str16(m.reason), k);
      CutStr16(m.reason, k - 1);
      hide Str16;
      hide ReadStr16;
    }
  }

  lemma CutOneString(m: Msg, k: nat)
    requires Encodable(m) && OneString(m) && k < |Body(m)|
    ensures DecodeBody(Cmd(m), Body(m)[..k]).None?
  {
    hide Str16;
    hide ReadStr16;
    match m
    case Identity(s) => CutStr16(s, k);
    case RoomEnter(s) => CutStr16(s, k);
    case RoomLeave(s) => CutStr16(s, k);
    case RoomValueMore(s) => CutStr16(s, k);
  }

  lemma CutFixed(m: Msg, k: nat)
    requires Encodable(m) && (m.ConnAllow? || m.SetTimeCfg?) && k < |Body(m)|
    ensures DecodeBody(Cmd(m), Body(m)[..k]).None?
  {
    hide CfgFields;
    hide ReadCfg;
  }

  lemma CutBody(m: Msg, k: nat)
    requires Encodable(m) && k < |Body(m)|
    ensures DecodeBody(Cmd(m), Body(m)[..k]).None?
  {
    if m.RoomValue? {
      CutRoomValue(m, k);
      DecodeRoomValueBody(Body(m)[..k]);
      hide Body;
      hide DecodeBody;
    } else if m.Deny? {
      CutDeny(m, k);
      hide Body;
      hide DecodeDeny;
    } else if m.CloseConn? {
      CutCloseConn(m, k);
      hide Body;
      hide DecodeCloseConn;
    } else if m.ConnAllow? || m.SetTimeCfg? {
      CutFixed(m, k);
      hide Body;
      hide DecodeBody;
    } else if OneString(m) {
      CutOneString(m, k);
      hide Body;
      hide DecodeBody;
    }
  }

  /** No part of a message is taken for a message: cut short anywhere, it is refused. */
  lemma TruncatedIsRefused(m: Msg, k: nat)
    requires Encodable(m) && k < |Encode(m)|
    ensures Decode(Encode(m)[..k]).None?
  {
    hide Body;
    hide DecodeBody;
    if k > 0 {
      CutTagged(Cmd(m), Body(m), k);
      CutBody(m, k - 1);
    }
  }

  /** What is read as a string is there with its length in front. */
  lemma ReadIsThere(data: seq<byte>)
    ensures ReadStr16(data).Some? ==> var (s, rest) := ReadStr16(data).value; |s| <= 65535 && data == Str16(s) + rest
  {
    if ReadStr16(data).Some? {
      var s := ReadStr16(data).value.0;
      assert Le16(|s|) == data[..2];
    }
  }

  lemma StringIsThere(data: seq<byte>, m: Msg)
    requires Decode(data) == Some(m) && OneString(m)
    ensures Encodable(m) && Encode(m) <= data
  {
    hide Str16;
    hide ReadStr16;
    ReadIsThere(data[1..]);
    assert data == [data[0]] + data[1..];
  }

  lemma DenyBodyIsThere(body: seq<byte>, m: Msg) returns (tail: seq<byte>)
    requires DecodeDeny(body) == Some(m)
    ensures m.Deny? && Encodable(m) && body == [m.scope] + (Str16(m.roomId) + Str16(m.reason)) + tail
  {
    ReadIsThere(body[1..]);
    var rest := ReadStr16(body[1..]).value.1;
    ReadIsThere(rest);
    tail := ReadStr16(rest).value.1;
    hide ReadStr16;
    hide Str16;
    Associative(Str16(m.roomId), Str16(m.reason), tail);
    Associative([m.scope], Str16(m.roomId) + Str16(m.reason), tail);
    assert body == [m.scope] + body[1..];
  }

  lemma OnlyRoomValue(body: seq<byte>)
    ensures DecodeRoomValue(body).Some? ==> DecodeRoomValue(body).value.RoomValue?
  {
    hide ReadStr16;
    hide ReadStr8;
    hide ReadUvarint;
  }

  lemma DenyIsTagged(data: seq<byte>, m: Msg)
    requires Decode(data) == Some(m) && m.Deny?
    ensures data[0] == 8 && DecodeDeny(data[1..]) == Some(m)
  {
    hide ReadStr16;
    hide DecodeDeny;
    hide DecodeRoomValue;
    DecodeRoomValueBody(data[1..]);
    OnlyRoomValue(data[1..]);
  }

  lemma DenyIsThere(data: seq<byte>, m: Msg)
    requires Decode(data) == Some(m) && m.Deny?
    ensures Encodable(m) && Encode(m) <= data
  {
    hide Str16;
    hide DecodeBody;
    hide DecodeDeny;
    DenyIsTagged(data, m);
    var tail := DenyBodyIsThere(data[1..], m);
    Associative([Cmd(m)], Body(m), tail);
    assert data == [data[0]] + data[1..];
  }

  /** A message of strings only is decoded exactly where its bytes are. */
  lemma DecodedIsThere(data: seq<byte>, m: Msg)
    requires m.Ping? || m.Deny? || OneString(m)
    ensures Decode(data) == Some(m) <==> Encodable(m) && Encode(m) <= data
  {
    hide Str16;
    hide ReadStr16;
    if Encodable(m) && Encode(m) <= data {
      RoundTrip(m, data[|Encode(m)|..]);
      assert data == Encode(m) + data[|Encode(m)|..];
    } else if Decode(data) == Some(m) {
      if m.Deny? {
        DenyIsThere(data, m);
      } else if OneString(m) {
        StringIsThere(data, m);
      }
    }
  }

  /** Only the ten commands are known. */
  lemma UnknownIsRefused(data: seq<byte>)
    requires data == [] || data[0] == 0 || data[0] > 10
    ensures Decode(data).None?
  {
  }

  /** Any flag byte but zero means yes. */
  lemma FlagIsRead(flag: byte, reason: seq<byte>, rest: seq<byte>)
    requires |reason| <= 65535
    ensures Decode([7, flag] + rest) == Some(ConnAllow(flag != 0))
    ensures Decode([9, flag] + (Str16(reason) + rest)) == Some(CloseConn(flag != 0, reason))
  {
    assert ([7, flag] + rest)[1..] == [flag] + rest;
    var body := [flag] + (Str16(reason) + rest);
    assert ([9, flag] + (Str16(reason) + rest))[1..] == body && body[1..] == Str16(reason) + rest;
    ReadStr16Back(reason, rest);
  }

  /** Of two fields with the same number the later one counts. */
  lemma LaterFieldCounts(n: byte, id: byte, a: nat, b: nat, rest: seq<byte>)
    requires n < 254 && a < MAX_UINT64 && b < MAX_UINT64
    ensures DecodeTimeCfg([n + 2] + (KeyValue(id, a) + (KeyValue(id, b) + rest)))
         == DecodeTimeCfg([n + 1] + (KeyValue(id, b) + rest))
  {
    var c, tail := TimeCfg(0, 0, 0, 0, 0, 0), KeyValue(id, b) + rest;
    assert ([n + 2] + (KeyValue(id, a) + tail))[1..] == KeyValue(id, a) + tail && ([n + 1] + tail)[1..] == tail;
    if |rest| >= 9 * (n as nat) {
      ReadField(id, a, tail, n as nat + 2, c);
      ReadField(id, b, rest, n as nat + 1, SetField(c, id, a));
      ReadField(id, b, rest, n as nat + 1, c);
      assert SetField(SetField(c, id, a), id, b) == SetField(c, id, b);
    }
  }

  /** A field of a time configuration with an unknown number is skipped. */
  lemma UnknownFieldIsSkipped(n: byte, id: byte, value: nat, rest: seq<byte>)
    requires n < 255 && (id == 0 || id > 6) && value < MAX_UINT64
    ensures DecodeTimeCfg([n + 1] + KeyValue(id, value) + rest) == DecodeTimeCfg([n] + rest)
  {
    var data := [n + 1] + KeyValue(id, value) + rest;
    assert data[1..] == KeyValue(id, value) + rest && ([n] + rest)[1..] == rest;
    if |rest| >= 9 * (n as nat) {
      ReadField(id, value, rest, n as nat + 1, TimeCfg(0, 0, 0, 0, 0, 0));
    }
  }
}
