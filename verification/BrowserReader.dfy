/** The browser client's readers of roomValue, and where they agree with the Go decoder. */
module BrowserReader {
  import opened Bytes
  import opened Codec
  import opened Marshal

  // ---------------------------------------------------------------- numbers

  /** JavaScript numbers are doubles: 53 significant bits. Integers below this are exact. */
  const MAX_SAFE := 0x20_0000_0000_0000

  /** The integers among the doubles. */
  predicate IsDouble(n: nat) { n < MAX_SAFE || (n % 2 == 0 && IsDouble(n / 2)) }

  /** The distance between doubles where n lies. */
  function Ulp(n: nat): (u: nat)
    ensures u > 0
  {
    if n < MAX_SAFE then 1 else 2 * Ulp(n / 2)
  }

  /** The leading 53 bits of n. */
  function Significand(n: nat): nat { if n < MAX_SAFE then n else Significand(n / 2) }

  /** The largest double that is not above n. */
  function Down(n: nat): (low: nat)
    ensures low <= n < low + Ulp(n)
    ensures n >= MAX_SAFE / 2 ==> low >= MAX_SAFE / 2
    ensures n >= MAX_SAFE ==> low >= MAX_SAFE
  {
    if n < MAX_SAFE then n else 2 * Down(n / 2)
  }

  /** The double nearest to n; of two equally near, the one with the even significand. */
  function Double(n: nat): nat {
    var low, over, u := Down(n), n - Down(n), Ulp(n);
    if 2 * over < u || (2 * over == u && Significand(n) % 2 == 0) then low else low + u
  }

  lemma {:induction false} NeighboursAreDoubles(n: nat)
    ensures IsDouble(Down(n)) && IsDouble(Down(n) + Ulp(n)) && (IsDouble(n) ==> Down(n) == n)
  {
    if n >= MAX_SAFE {
      NeighboursAreDoubles(n / 2);
    } else {
      assert IsDouble(MAX_SAFE / 2);
    }
  }

  /** No double lies strictly between n's neighbours. */
  lemma {:induction false} NoneBetween(n: nat, m: nat)
    requires IsDouble(m) && Down(n) < m
    ensures Down(n) + Ulp(n) <= m
    decreases n
  {
    if n >= MAX_SAFE {
      NoneBetween(n / 2, m / 2);
    }
  }

  function Distance(a: nat, b: nat): nat { if a < b then b - a else a - b }

  /** Rounding yields a double, and none is nearer. */
  lemma DoubleIsNearest(n: nat, m: nat)
    requires IsDouble(m)
    ensures IsDouble(Double(n)) && Distance(Double(n), n) <= Distance(m, n)
  {
    NeighboursAreDoubles(n);
    if Down(n) < m {
      NoneBetween(n, m);
    }
  }

  lemma {:induction false} DownIs(n: nat)
    ensures Down(n) == Significand(n) * Ulp(n)
  {
    if n >= MAX_SAFE {
      DownIs(n / 2);
      var k, u := Significand(n / 2), Ulp(n / 2);
      assert 2 * (k * u) == k * (2 * u);
    }
  }

  /** Between two doubles equally near, rounding takes the one that is an even multiple of their distance. */
  lemma TiesToEven(n: nat) returns (k: nat)
    requires 2 * (n - Down(n)) == Ulp(n)
    ensures k % 2 == 0 && Double(n) == k * Ulp(n)
  {
    DownIs(n);
    k := Significand(n);
    if k % 2 == 1 {
      k := k + 1;
    }
  }

  /** Rounding leaves n as it is exactly when n is a double. */
  lemma DoubleIsExactIff(n: nat)
    ensures Double(n) == n <==> IsDouble(n)
  {
    NeighboursAreDoubles(n);
  }

  lemma MulMonotone(a: nat, b: nat, u: nat)
    requires a <= b
    ensures a * u <= b * u
  {
  }

  lemma {:induction false} Pow2IsPow128(i: nat)
    ensures Pow2(7 * i) == Pow128(i)
  {
    if i > 0 {
      Pow2IsPow128(i - 1);
      var n := 7 * i;
      assert Pow2(n) == 2 * Pow2(n - 1) && Pow2(n - 1) == 2 * Pow2(n - 2) && Pow2(n - 2) == 2 * Pow2(n - 3);
      assert Pow2(n - 3) == 2 * Pow2(n - 4) && Pow2(n - 4) == 2 * Pow2(n - 5) && Pow2(n - 5) == 2 * Pow2(n - 6);
    }
  }

  // ---------------------------------------------------------------- reading one

  /** Like ReadUvarint, but a ninth byte is refused. */
  function ReadUvarint53(data: seq<byte>, i: nat := 0): Option<(nat, seq<byte>)>
    decreases |data|
  {
    if data == [] then None
    else
      var b := data[0] as nat;
      if b < 128 then Some((b, data[1..]))
      else if i >= 7 then None
      else
        match ReadUvarint53(data[1..], i + 1)
        case None => None
        case Some((high, rest)) => Some((b - 128 + 128 * high, rest))
  }

  /** What the browser reads: the same, as a double. */
  function ReadNumber(data: seq<byte>): Option<(nat, seq<byte>)> {
    match ReadUvarint53(data)
    case None => None
    case Some((x, rest)) => Some((Double(x), rest))
  }

  /** Before rounding the two readers agree, except that numbers of nine and ten bytes are refused here. */
  lemma {:induction false} ReadersCompared(data: seq<byte>, i: nat)
    requires i <= 7
    ensures ReadUvarint53(data, i)
         == match ReadUvarint(data, i)
            case None => None
            case Some((x, rest)) => if |data| - |rest| + i <= 8 then Some((x, rest)) else None
    ensures ReadUvarint(data, i).Some? ==> |ReadUvarint(data, i).value.1| < |data|
    decreases |data|
  {
    if data != [] && data[0] >= 128 {
      if i < 7 {
        ReadersCompared(data[1..], i + 1);
      } else {
        RestShrinks(data[1..], 8);
      }
    }
  }

  /**
   * On any bytes, the browser reads what the Go client reads if and only if neither reads a number, or the number
   * takes at most eight bytes and is a double. Every number below 2^53 is one.
   */
  lemma ReadersAgree(data: seq<byte>)
    ensures ReadNumber(data) == ReadUvarint(data)
       <==> match ReadUvarint(data) case None => true case Some((x, rest)) => |data| - |rest| <= 8 && IsDouble(x)
    ensures ReadNumber(data)
         == match ReadUvarint(data)
            case None => None
            case Some((x, rest)) => if |data| - |rest| <= 8 then Some((Double(x), rest)) else None
  {
    ReadersCompared(data, 0);
    if ReadUvarint(data).Some? {
      DoubleIsExactIff(ReadUvarint(data).value.0);
    }
  }

  /** Eight bytes that say 2^53 + 1: the browser reads 2^53. */
  lemma ReadersDiffer()
    ensures var data: seq<byte> := [0x81, 0x80, 0x80, 0x80, 0x80, 0x80, 0x80, 0x10];
      ReadUvarint(data) == Some((MAX_SAFE + 1, [])) && ReadNumber(data) == Some((MAX_SAFE, []))
  {
    var data: seq<byte> := [0x81, 0x80, 0x80, 0x80, 0x80, 0x80, 0x80, 0x10];
    ZerosThen(data[1..], 1);
    var rest: seq<byte> := [];
    assert ReadUvarint(data, 0) == Some((1 + 128 * 0x4000_0000_0000, rest));
    RoundsDown();
    hide ReadUvarint;
    ReadersAgree(data);
  }

  lemma RoundsDown()
    ensures Double(MAX_SAFE + 1) == MAX_SAFE
  {
    assert Down(MAX_SAFE + 1) == MAX_SAFE && Significand(MAX_SAFE + 1) == MAX_SAFE / 2;
  }

  lemma ZerosThen(data: seq<byte>, i: nat)
    requires data == [0x80, 0x80, 0x80, 0x80, 0x80, 0x80, 0x10] && i == 1
    ensures ReadUvarint(data, i) == Some((0x4000_0000_0000, []))
  {
    var rest: seq<byte> := [];
    assert data[6..][1..] == rest;
    assert ReadUvarint(data[6..], 7) == Some((16, rest));
    assert data[5..][1..] == data[6..] && ReadUvarint(data[5..], 6) == Some((16 * 128, rest));
    assert data[4..][1..] == data[5..] && ReadUvarint(data[4..], 5) == Some((16 * 128 * 128, rest));
    assert data[3..][1..] == data[4..] && ReadUvarint(data[3..], 4) == Some((16 * 128 * 128 * 128, rest));
    assert data[2..][1..] == data[3..] && ReadUvarint(data[2..], 3) == Some((16 * 128 * 128 * 128 * 128, rest));
    assert data[1..][1..] == data[2..] && ReadUvarint(data[1..], 2) == Some((16 * 128 * 128 * 128 * 128 * 128, rest));
  }

  lemma {:induction false} RestShrinks(data: seq<byte>, i: nat)
    ensures ReadUvarint(data, i).Some? ==> |ReadUvarint(data, i).value.1| < |data|
    decreases |data|
  {
    if data != [] && data[0] >= 128 && i != 10 {
      RestShrinks(data[1..], i + 1);
    }
  }

  lemma {:induction false} ShortNumber(x: nat, n: nat)
    requires n > 0 && x < Pow128(n)
    ensures |Uvarint(x)| <= n
  {
    if x >= 128 && n > 1 {
      ShortNumber(x / 128, n - 1);
    }
  }

  lemma {:induction false} LongNumber(x: nat, n: nat)
    requires x >= Pow128(n)
    ensures |Uvarint(x)| > n
  {
    if n > 0 {
      LongNumber(x / 128, n - 1);
    }
  }

  lemma Pow128Eight()
    ensures Pow128(8) == 0x100_0000_0000_0000
  {
    assert Pow128(4) == 0x1000_0000;
    assert Pow128(8) == 0x1000_0000 * 0x1000_0000;
  }

  /** A sequence number is read back exactly when it is a double below 2^56; every safe integer is. */
  lemma NumberBackIff(x: nat, rest: seq<byte>)
    requires x < MAX_UINT64
    ensures ReadNumber(Uvarint(x) + rest) == Some((x, rest)) <==> x < 0x100_0000_0000_0000 && IsDouble(x)
    ensures x < MAX_SAFE ==> ReadNumber(Uvarint(x) + rest) == Some((x, rest))
  {
    UvarintRoundTrip(x, rest);
    ReadersAgree(Uvarint(x) + rest);
    DoubleIsExactIff(x);
    Pow128Eight();
    if x < Pow128(8) {
      ShortNumber(x, 8);
    } else {
      LongNumber(x, 8);
    }
  }

  // ---------------------------------------------------------------- the loop

  /** The number at the head of `whole` is x plus what `tail` still holds from its byte i on. */
  ghost predicate Reading(whole: seq<byte>, tail: seq<byte>, x: nat, i: nat) {
    match ReadUvarint53(tail, i)
    case None => ReadUvarint53(whole).None?
    case Some((high, rest)) => ReadUvarint53(whole) == Some((x + Pow2(7 * i) * high, rest))
  }

  lemma LastByte(whole: seq<byte>, tail: seq<byte>, x: nat, i: nat)
    requires Reading(whole, tail, x, i) && tail != [] && tail[0] < 128
    ensures ReadUvarint53(whole) == Some((x + Pow2(7 * i) * (tail[0] as nat), tail[1..]))
  {
  }

  lemma OneByteOn(whole: seq<byte>, tail: seq<byte>, x: nat, i: nat) returns (next: nat)
    requires Reading(whole, tail, x, i) && i < 7 && tail != [] && tail[0] >= 128
    ensures next == x + Pow2(7 * i) * (tail[0] as nat - 128)
    ensures Reading(whole, tail[1..], next, i + 1)
  {
    NextWeight(i);
    var low := tail[0] as nat - 128;
    next := x + Pow2(7 * i) * low;
    var left := ReadUvarint53(tail[1..], i + 1);
    if left.Some? {
      assert ReadUvarint53(tail, i) == Some((low + 128 * left.value.0, left.value.1));
      Shift(x, low, Pow2(7 * i), left.value.0);
    }
  }

  lemma NextWeight(i: nat)
    ensures Pow2(7 * (i + 1)) == Pow2(7 * i) * 128
  {
    Pow2IsPow128(i);
    Pow2IsPow128(i + 1);
  }

  lemma SumBelow(x: nat, p: nat, low: nat)
    requires x < p && low < 128
    ensures 0 <= x + p * low < p * 128
  {
    MulMonotone(low, 127, p);
  }

  /** Sums of seven-bit groups below 2^49 are exact. */
  lemma SumIsExact(x: nat, i: nat, low: nat)
    requires x < Pow2(7 * i) && low < 128 && i < 7
    ensures 0 <= x + Pow2(7 * i) * low < Pow2(7 * (i + 1))
    ensures Double(x + Pow2(7 * i) * low) == x + Pow2(7 * i) * low
  {
    hide Double;
    hide Pow2;
    hide Pow128;
    SumBelow(x, Pow2(7 * i), low);
    NextWeight(i);
    Pow2IsPow128(i + 1);
    SmallPow128(i + 1);
    DoubleIsExactIff(x + Pow2(7 * i) * low);
  }

  lemma SmallPow128(i: nat)
    requires i <= 7
    ensures Pow128(i) <= 0x2_0000_0000_0000
  {
    assert Pow128(1) == 128 && Pow128(2) == 128 * 128 && Pow128(3) == 128 * 128 * 128;
    assert Pow128(4) == 0x1000_0000 && Pow128(5) == 0x1000_0000 * 128;
    assert Pow128(6) == 0x1000_0000 * 128 * 128 && Pow128(7) == 0x1000_0000 * 128 * 128 * 128;
  }

  /** hgmRn_readUvarint. Each sum is a sum of doubles, rounded; each product of a byte and a power of two is exact. */
  method ReadUvarintLoop(data: seq<byte>, start: nat) returns (r: Option<(nat, nat)>)
    requires start <= |data|
    ensures r.Some? <==> ReadNumber(data[start..]).Some?
    ensures r.Some? ==> r.value.1 <= |data| && ReadNumber(data[start..]) == Some((r.value.0, data[r.value.1..]))
  {
    ghost var whole := data[start..];
    ghost var i := 0;
    var pos := start;
    var x: nat := 0;
    var s := 0;
    while true
      invariant start <= pos <= |data| && s == 7 * i <= 49 && x < Pow2(s)
      invariant Reading(whole, data[pos..], x, i)
      decreases |data| - pos
    {
      if pos >= |data| {
        return None;
      }
      var b := data[pos];
      ghost var tail := data[pos..];
      DropDrop(data, pos, 1);
      pos := pos + 1;
      if b < 128 {
        LastByte(whole, tail, x, i);
        return Some((Double(x + Pow2(s) * (b as nat)), pos));
      }
      if s >= 49 {
        return None;
      }
      ghost var next := OneByteOn(whole, tail, x, i);
      SumIsExact(x, i, b as nat - 128);
      x := Double(x + Pow2(s) * (b as nat - 128));
      s := s + 7;
      i := i + 1;
    }
  }

  lemma Shift(x: int, low: int, p: int, high: int)
    ensures x + p * (low + 128 * high) == (x + p * low) + (p * 128) * high
  {
  }

  function DecodeFields(body: seq<byte>): Option<Msg> {
    match ReadStr16(body)
    case None => None
    case Some((roomId, d1)) =>
      match ReadStr8(d1)
      case None => None
      case Some((roomEpoch, d2)) =>
        match ReadNumber(d2)
        case None => None
        case Some((changeSeq, d3)) =>
          match ReadStr8(d3)
          case None => None
          case Some((cVersionId, d4)) =>
            match ReadStr16(d4)
            case None => None
            case Some((chunk, _)) => Some(RoomValue(roomId, roomEpoch, changeSeq, cVersionId, chunk))
  }

  /** _parseRoomValueFields. */
  method ParseRoomValueFields(data: seq<byte>, startPos: nat) returns (r: Option<Msg>)
    requires startPos <= |data|
    ensures r == DecodeFields(data[startPos..])
  {
    var roomId := TakeStr16(data, startPos, "roomId");
    if roomId.Err? {
      return None;
    }
    var p := roomId.value.1;
    var roomEpoch := TakeStr8(data, p, "roomEpoch");
    if roomEpoch.Err? {
      return None;
    }
    p := roomEpoch.value.1;
    var changeSeq := ReadUvarintLoop(data, p);
    if changeSeq.None? {
      return None;
    }
    p := changeSeq.value.1;
    var cVersionId := TakeStr8(data, p, "cVersionId");
    if cVersionId.Err? {
      return None;
    }
    p := cVersionId.value.1;
    var chunk := TakeStr16(data, p, "chunk");
    if chunk.Err? {
      return None;
    }
    return Some(RoomValue(roomId.value.0, roomEpoch.value.0, changeSeq.value.0, cVersionId.value.0, chunk.value.0));
  }

  /**
   * A roomValue the server sends is read by both clients alike exactly when its sequence number is a double below
   * 2^56; every safe integer is.
   */
  lemma SameFieldsIff(m: Msg, rest: seq<byte>)
    requires Encodable(m) && m.RoomValue?
    ensures DecodeRoomValue(Body(m) + rest) == Some(m)
    ensures DecodeFields(Body(m) + rest) == DecodeRoomValue(Body(m) + rest)
       <==> m.changeSeq < 0x100_0000_0000_0000 && IsDouble(m.changeSeq)
    ensures m.changeSeq < MAX_SAFE ==> DecodeFields(Body(m) + rest) == Some(m)
  {
    RoomValueBack(m, rest);
    FieldsUpToNumber(m, rest);
    var d, e := Str8(m.cVersionId), Str16(m.liveData);
    NumberBackIff(m.changeSeq, d + (e + rest));
    ReadersAgree(Uvarint(m.changeSeq) + (d + (e + rest)));
    UvarintRoundTrip(m.changeSeq, d + (e + rest));
    ReadStr8Back(m.cVersionId, e + rest);
    ReadStr16Back(m.liveData, rest);
  }

  /** The fields in front of the number are read back, whatever it is. */
  lemma FieldsUpToNumber(m: Msg, rest: seq<byte>)
    requires Encodable(m) && m.RoomValue?
    ensures var tail := Uvarint(m.changeSeq) + (Str8(m.cVersionId) + (Str16(m.liveData) + rest));
      && ReadStr16(Body(m) + rest) == Some((m.roomId, Str8(m.roomEpoch) + tail))
      && ReadStr8(Str8(m.roomEpoch) + tail) == Some((m.roomEpoch, tail))
  {
    var a, b, c := Str16(m.roomId), Str8(m.roomEpoch), Uvarint(m.changeSeq);
    var d, e := Str8(m.cVersionId), Str16(m.liveData);
    Associative(a, b + (c + (d + e)), rest);
    Associative(b, c + (d + e), rest);
    Associative(c, d + e, rest);
    Associative(d, e, rest);
    ReadStr16Back(m.roomId, b + (c + (d + (e + rest))));
    ReadStr8Back(m.roomEpoch, c + (d + (e + rest)));
  }
}
