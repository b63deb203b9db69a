/**
 * The WebSocket layer (sections 5.2 and 5.3 of RFC 6455): frame headers, masking, reading a message off a byte
 * stream, and the two ways of writing one. Only unfragmented messages are supported, as in the source.
 */
module WebSocket {
  import opened Bytes
  import opened Marshal

  // ---------------------------------------------------------------- masking

  function XorBits(a: nat, b: nat, n: nat): (r: nat)
    ensures r < Pow2(n)
  {
    if n == 0 then 0 else (a % 2 + b % 2) % 2 + 2 * XorBits(a / 2, b / 2, n - 1)
  }

  lemma LowBit(bit: nat, high: nat)
    requires bit < 2
    ensures (bit + 2 * high) % 2 == bit && (bit + 2 * high) / 2 == high
  {
  }

  lemma BitTwice(a: nat, b: nat)
    ensures ((a % 2 + b % 2) % 2 + b % 2) % 2 == a % 2 && a == a % 2 + 2 * (a / 2)
  {
  }

  lemma {:induction false} XorBitsTwice(a: nat, b: nat, n: nat)
    requires a < Pow2(n)
    ensures XorBits(XorBits(a, b, n), b, n) == a
  {
    if n > 0 {
      var bit, high := (a % 2 + b % 2) % 2, XorBits(a / 2, b / 2, n - 1);
      LowBit(bit, high);
      BitTwice(a, b);
      XorBitsTwice(a / 2, b / 2, n - 1);
      var x := XorBits(a, b, n);
      assert x % 2 == bit && x / 2 == high;
      assert XorBits(x, b, n) == (bit + b % 2) % 2 + 2 * XorBits(high, b / 2, n - 1);
    }
  }

  lemma Pow2Eight()
    ensures Pow2(8) == 256
  {
  }

  /** Exclusive or of two bytes. */
  function Xor(a: byte, b: byte): byte {
    Pow2Eight();
    XorBits(a as nat, b as nat, 8) as byte
  }

  lemma XorTwice(a: byte, b: byte)
    ensures Xor(Xor(a, b), b) == a
  {
    Pow2Eight();
    XorBitsTwice(a as nat, b as nat, 8);
  }

  /** Bit k of x. */
  function Bit(x: nat, k: nat): nat {
    if k == 0 then x % 2 else Bit(x / 2, k - 1)
  }

  lemma {:induction false} XorBitsAt(a: nat, b: nat, n: nat, k: nat)
    requires k < n
    ensures Bit(XorBits(a, b, n), k) == if Bit(a, k) == Bit(b, k) then 0 else 1
  {
    LowBit((a % 2 + b % 2) % 2, XorBits(a / 2, b / 2, n - 1));
    if k > 0 {
      XorBitsAt(a / 2, b / 2, n - 1, k - 1);
    }
  }

  /** Bit k of the exclusive or is set if and only if bit k of one of the two is, and of the other is not. */
  lemma XorAt(a: byte, b: byte, k: nat)
    requires k < 8
    ensures Bit(Xor(a, b) as nat, k) == 1 <==> Bit(a as nat, k) != Bit(b as nat, k)
  {
    Pow2Eight();
    XorBitsAt(a as nat, b as nat, 8, k);
  }

  /** The four bytes of a masking key. */
  datatype Key = Key(k0: byte, k1: byte, k2: byte, k3: byte) {
    /** The key byte for payload byte i. */
    function At(i: nat): byte {
      if i % 4 == 0 then k0 else if i % 4 == 1 then k1 else if i % 4 == 2 then k2 else k3
    }

    function Bytes(): seq<byte> { [k0, k1, k2, k3] }
  }

  function KeyFrom(s: seq<byte>): Key
    requires |s| == 4
  {
    Key(s[0], s[1], s[2], s[3])
  }

  /** Byte i of the payload is masked with byte i mod 4 of the key. */
  function MaskWith(payload: seq<byte>, key: Key): (r: seq<byte>)
    ensures |r| == |payload|
  {
    if payload == [] then []
    else
      var last := |payload| - 1;
      MaskWith(payload[..last], key) + [Xor(payload[last], key.At(last))]
  }

  /** Byte k is masked with the key byte k mod 4, whatever the length. */
  lemma {:induction false} MaskWithAt(payload: seq<byte>, key: Key, k: nat)
    requires k < |payload|
    ensures MaskWith(payload, key)[k] == Xor(payload[k], key.At(k))
  {
    if k < |payload| - 1 {
      MaskWithAt(payload[..|payload| - 1], key, k);
    }
  }

  /** The mask on the wire: bit j of byte k of a masked payload is set if and only if that bit of the payload byte
      differs from that bit of byte k mod 4 of the key, in the order the key is sent in. */
  lemma MaskedBit(payload: seq<byte>, key: Key, k: nat, j: nat)
    requires k < |payload| && j < 8
    ensures Bit(MaskWith(payload, key)[k] as nat, j) == 1
       <==> Bit(payload[k] as nat, j) != Bit(key.Bytes()[k % 4] as nat, j)
  {
    MaskWithAt(payload, key, k);
    XorAt(payload[k], key.At(k), j);
  }

  function Masked(payload: seq<byte>, key: Option<Key>): (r: seq<byte>)
    ensures |r| == |payload|
  {
    if key.None? then payload else MaskWith(payload, key.value)
  }

  lemma {:induction false} MaskWithTwice(payload: seq<byte>, key: Key)
    ensures MaskWith(MaskWith(payload, key), key) == payload
  {
    if payload != [] {
      var last := |payload| - 1;
      MaskWithTwice(payload[..last], key);
      XorTwice(payload[last], key.At(last));
      TakeDropConcat(MaskWith(payload[..last], key), [Xor(payload[last], key.At(last))]);
      assert payload == payload[..last] + [payload[last]];
    }
  }

  /** Masking with the same key twice gives the payload back. */
  lemma MaskedTwice(payload: seq<byte>, key: Option<Key>)
    ensures Masked(Masked(payload, key), key) == payload
  {
    if key.Some? {
      MaskWithTwice(payload, key.value);
    }
  }

  // ---------------------------------------------------------------- frame layout

  /** n bytes, most significant first. */
  function BigEndian(value: nat, n: nat): (r: seq<byte>)
    ensures |r| == n
  {
    if n == 0 then [] else BigEndian(value / 256, n - 1) + [(value % 256) as byte]
  }

  function FromBigEndian(s: seq<byte>): nat {
    if s == [] then 0 else 256 * FromBigEndian(s[..|s| - 1]) + s[|s| - 1] as nat
  }

  lemma {:induction false} BigEndianRoundTrip(value: nat, n: nat)
    requires value < Pow256(n)
    ensures FromBigEndian(BigEndian(value, n)) == value
  {
    if n > 0 {
      BigEndianRoundTrip(value / 256, n - 1);
      TakeDropConcat(BigEndian(value / 256, n - 1), [(value % 256) as byte]);
    }
  }

  lemma {:induction false} BigEndianAt(value: nat, n: nat, k: nat)
    requires k < n
    ensures BigEndian(value, n)[k] == ByteOf(value, n - 1 - k)
  {
    if k < n - 1 {
      BigEndianAt(value / 256, n - 1, k);
    }
  }

  function MaskBit(key: Option<Key>): int { if key.Some? then 128 else 0 }

  /** The second header byte and the extended length. */
  function LengthBytes(length: nat, key: Option<Key>): seq<byte> {
    if length >= 65536 then [(MaskBit(key) + 127) as byte] + BigEndian(length, 8)
    else if length > 125 then [(MaskBit(key) + 126) as byte] + BigEndian(length, 2)
    else [(MaskBit(key) + length) as byte]
  }

  function KeyBytes(key: Option<Key>): seq<byte> { if key.Some? then key.value.Bytes() else [] }

  /** Header of an unfragmented frame. */
  function Header(opcode: nat, length: nat, key: Option<Key>): seq<byte>
  {
    [(128 + opcode % 16) as byte] + (LengthBytes(length, key) + KeyBytes(key))
  }

  function FrameBytes(opcode: nat, payload: seq<byte>, key: Option<Key>): seq<byte>
  {
    Header(opcode, |payload|, key) + Masked(payload, key)
  }

  /** wsHeaderLen. */
  function HeaderLen(dataLen: nat, isMask: bool): nat {
    2 + (if dataLen >= 65536 then 8 else if dataLen > 125 then 2 else 0) + (if isMask then 4 else 0)
  }

  /** GetFrameBufPreservedSize().Prefix. */
  function Prefix(isMask: bool): nat { if isMask then 8 else 4 }

  /** The reserved prefix always holds the header, exactly as long as payloads stay below 64 KB. */
  lemma HeaderFitsPrefix(length: nat, key: Option<Key>)
    ensures |Header(2, length, key)| == HeaderLen(length, key.Some?)
    ensures HeaderLen(length, key.Some?) <= Prefix(key.Some?) <==> length < 65536
  {
  }

  /** The header of a final binary frame, byte by byte (section 5.2 of RFC 6455). */
  lemma HeaderLayout(length: nat, key: Option<Key>)
    ensures var h, mask := Header(2, length, key), if key.Some? then 128 else 0;
      && |h| == HeaderLen(length, key.Some?) && h[0] == 0x82
      && (length <= 125 ==> h[1] as nat == mask + length)
      && (125 < length < 65536 ==>
            h[1] as nat == mask + 126 && h[2] as nat == length / 256 && h[3] as nat == length % 256)
      && (length >= 65536 ==>
            h[1] as nat == mask + 127 && forall i :: 2 <= i < 10 ==> h[i] == ByteOf(length, 9 - i))
      && (key.Some? ==> h[|h| - 4..] == [key.value.k0, key.value.k1, key.value.k2, key.value.k3])
  {
    if length >= 65536 {
      var h := Header(2, length, key);
      forall i | 2 <= i < 10 ensures h[i] == ByteOf(length, 9 - i) {
        BigEndianAt(length, 8, i - 2);
      }
    } else if length > 125 {
      BigEndianAt(length, 2, 0);
      BigEndianAt(length, 2, 1);
      assert ByteOf(length, 1) == ByteOf(length / 256, 0);
    }
  }

  // ---------------------------------------------------------------- what a stream reads as

  /** What the header of a frame says: the payload is s[at..at + length]. */
  datatype Head = Head(opcode: nat, key: Option<Key>, at: nat, length: nat)

  /** Bytes of extended length that the second header byte announces. */
  function Extended(b1: byte): nat {
    if b1 % 128 == 126 then 2 else if b1 % 128 == 127 then 8 else 0
  }

  /** Bytes of extended length and key. */
  function ExtraLen(b1: byte): nat { Extended(b1) + (if b1 >= 128 then 4 else 0) }

  /** What a whole header says; None for an oversized frame (max 0: no limit). */
  function HeadOf(b0: byte, b1: byte, more: seq<byte>, max: nat): Option<Head>
    requires |more| == ExtraLen(b1)
  {
    var extended := Extended(b1);
    var length := if extended == 0 then (b1 % 128) as nat else FromBigEndian(more[..extended]);
    if (extended == 8 && length > 0x8000_0000) || (max > 0 && length > max) then None
    else Some(Head((b0 % 16) as nat, if b1 >= 128 then Some(KeyFrom(more[extended..])) else None, 2 + |more|, length))
  }

  /** The header at the front of the stream; None for a truncated, fragmented or oversized frame. */
  function ParseHead(s: seq<byte>, max: nat): (h: Option<Head>)
    ensures h.Some? ==> 2 <= h.value.at <= |s|
  {
    if |s| < 2 || s[0] < 128 || |s| < 2 + ExtraLen(s[1]) then None
    else HeadOf(s[0], s[1], s[2..2 + ExtraLen(s[1])], max)
  }

  datatype Parsed = Bad | Parsed(opcode: nat, payload: seq<byte>, rest: seq<byte>)

  /** One frame off the stream. */
  function ParseFrame(s: seq<byte>, max: nat): (p: Parsed)
    ensures p.Parsed? ==> |p.rest| < |s|
  {
    match ParseHead(s, max)
    case None => Bad
    case Some(Head(opcode, key, at, length)) =>
      if |s| < at + length then Bad
      else Parsed(opcode, Masked(s[at..at + length], key), s[at + length..])
  }

  /** Bytes of extended length for a seven-bit length. */
  predicate ExtendedBy(length7: int, extended: seq<byte>) {
    |extended| == if length7 == 126 then 2 else if length7 == 127 then 8 else 0
  }

  lemma HeadIsRead(b0: byte, b1: byte, extended: seq<byte>, key: Option<Key>, length: nat, max: nat)
    requires ExtendedBy((b1 % 128) as int, extended) && (key.Some? <==> b1 >= 128)
    requires length == if extended == [] then (b1 % 128) as nat else FromBigEndian(extended)
    ensures var more := extended + KeyBytes(key);
      && |more| == ExtraLen(b1)
      && HeadOf(b0, b1, more, max)
         == if (|extended| == 8 && length > 0x8000_0000) || (max > 0 && length > max) then None
            else Some(Head((b0 % 16) as nat, key, 2 + |more|, length))
  {
    TakeDropConcat(extended, KeyBytes(key));
  }

  lemma ParseHeadIs(b0: byte, b1: byte, more: seq<byte>, tail: seq<byte>, max: nat)
    requires |more| == ExtraLen(b1)
    ensures ParseHead([b0, b1] + (more + tail), max) == if b0 < 128 then None else HeadOf(b0, b1, more, max)
  {
    hide ExtraLen;
    hide HeadOf;
    ThreeParts([b0, b1], more, tail);
  }

  lemma ParseBody(s: seq<byte>, at: nat, body: seq<byte>, rest: seq<byte>, max: nat)
    requires at + |body| <= |s| && s[at..at + |body|] == body && s[at + |body|..] == rest
    ensures match ParseHead(s, max)
      case None => ParseFrame(s, max) == Bad
      case Some(h) => h.at == at && h.length == |body| ==>
        ParseFrame(s, max) == Parsed(h.opcode, Masked(body, h.key), rest)
  {
    hide ParseHead;
    hide Masked;
  }

  /**
   * What is read of a whole frame, field by field: it is refused if and only if it is a fragment, or its 64-bit length
   * is over 2^31, or it is longer than the limit; otherwise it yields its opcode and its body, unmasked if it has a
   * key.
   */
  lemma FrameIsRead(b0: byte, b1: byte, extended: seq<byte>, key: Option<Key>, body: seq<byte>, rest: seq<byte>,
                    max: nat)
    requires ExtendedBy((b1 % 128) as int, extended) && (key.Some? <==> b1 >= 128)
    requires |body| == if extended == [] then (b1 % 128) as nat else FromBigEndian(extended)
    ensures ParseFrame([b0, b1] + (extended + (KeyBytes(key) + (body + rest))), max)
         == if b0 < 128 || (|extended| == 8 && |body| > 0x8000_0000) || (max > 0 && |body| > max) then Bad
            else Parsed((b0 % 16) as nat, Masked(body, key), rest)
  {
    var s, more := [b0, b1] + (extended + (KeyBytes(key) + (body + rest))), extended + KeyBytes(key);
    HeadIsRead(b0, b1, extended, key, |body|, max);
    Associative(extended, KeyBytes(key), body + rest);
    ParseHeadIs(b0, b1, more, body + rest, max);
    Associative([b0, b1], more, body + rest);
    ThreeParts([b0, b1] + more, body, rest);
    ParseBody(s, 2 + |more|, body, rest, max);
    hide HeadOf;
    hide ParseHead;
    hide ParseFrame;
    hide Masked;
    hide KeyBytes;
    hide ExtraLen;
  }

  /** ReadMsg: the next text or binary message; frames of other kinds are skipped, a close frame ends it. */
  function ReadMessage(s: seq<byte>, max: nat): Option<(seq<byte>, seq<byte>)>
    decreases |s|
  {
    match ParseFrame(s, max)
    case Bad => None
    case Parsed(opcode, payload, rest) =>
      if opcode == 8 then None
      else if opcode == 1 || opcode == 2 then Some((payload, rest))
      else ReadMessage(rest, max)
  }

  /** A close frame is what ends the search for the next message. */
  predicate EndsByClose(s: seq<byte>, max: nat)
    decreases |s|
  {
    match ParseFrame(s, max)
    case Bad => false
    case Parsed(opcode, _, rest) => opcode == 8 || (opcode != 1 && opcode != 2 && EndsByClose(rest, max))
  }

  predicate Admits(max: nat, length: nat) { length <= 0x8000_0000 && (max == 0 || length <= max) }

  /** Parsing a written frame, whatever follows it, gives the payload back. */
  lemma ParseWritten(opcode: nat, payload: seq<byte>, key: Option<Key>, rest: seq<byte>, max: nat)
    requires opcode < 16 && Admits(max, |payload|)
    ensures ParseFrame(FrameBytes(opcode, payload, key) + rest, max) == Parsed(opcode, payload, rest)
  {
    var header, body := Header(opcode, |payload|, key), Masked(payload, key);
    var s := FrameBytes(opcode, payload, key) + rest;
    Associative(header, body, rest);
    HeaderBack(opcode, |payload|, key, body + rest, max);
    var at := |header|;
    assert s[at..at + |payload|] == body && s[at + |payload|..] == rest;
    MaskedTwice(payload, key);
  }

  lemma HeaderBack(opcode: nat, length: nat, key: Option<Key>, rest: seq<byte>, max: nat)
    requires opcode < 16 && Admits(max, length)
    ensures ParseHead(Header(opcode, length, key) + rest, max)
         == Some(Head(opcode, key, |Header(opcode, length, key)|, length))
  {
    var b := LengthBytes(length, key);
    var s := Header(opcode, length, key) + rest;
    var more := b[1..] + KeyBytes(key);
    HeadBack(opcode, length, key, max);
    assert s[0] == (128 + opcode % 16) as byte && s[1] == b[0];
    assert s[2..2 + |more|] == more;
  }

  lemma HeadBack(opcode: nat, length: nat, key: Option<Key>, max: nat)
    requires opcode < 16 && Admits(max, length)
    ensures var b := LengthBytes(length, key); var more := b[1..] + KeyBytes(key);
      && |more| == ExtraLen(b[0])
      && HeadOf((128 + opcode % 16) as byte, b[0], more, max) == Some(Head(opcode, key, 2 + |more|, length))
  {
    LengthBack(length, key);
    TakeDropConcat(LengthBytes(length, key)[1..], KeyBytes(key));
  }

  /** The length bytes say how many bytes of length follow, whether a key follows, and the length. */
  lemma LengthBack(n: nat, key: Option<Key>)
    requires n <= 0x8000_0000
    ensures var b := LengthBytes(n, key); var length7 := (b[0] % 128) as nat;
      && (b[0] >= 128 <==> key.Some?)
      && |b| == 1 + (if length7 == 126 then 2 else if length7 == 127 then 8 else 0)
      && (if |b| == 1 then length7 else FromBigEndian(b[1..])) == n
  {
    var b := LengthBytes(n, key);
    if n >= 65536 {
      assert Pow256(4) == 0x1_0000_0000 && Pow256(8) >= Pow256(4);
      BigEndianRoundTrip(n, 8);
      assert b[1..] == BigEndian(n, 8);
    } else if n > 125 {
      assert Pow256(2) == 65536;
      BigEndianRoundTrip(n, 2);
      assert b[1..] == BigEndian(n, 2);
    }
  }

  // ---------------------------------------------------------------- whole streams

  /** What a peer may put on the stream: messages, and control or reserved frames that are not close. */
  datatype Sent = Data(opcode: nat, payload: seq<byte>, key: Option<Key>)
                | Control(opcode: nat, payload: seq<byte>, key: Option<Key>)

  predicate SentOk(f: Sent, max: nat) {
    && Admits(max, |f.payload|) && f.opcode < 16
    && (f.Data? ==> f.opcode == 1 || f.opcode == 2)
    && (f.Control? ==> f.opcode != 1 && f.opcode != 2 && f.opcode != 8)
  }

  function Stream(fs: seq<Sent>): seq<byte> {
    if fs == [] then [] else FrameBytes(fs[0].opcode, fs[0].payload, fs[0].key) + Stream(fs[1..])
  }

  function Payloads(fs: seq<Sent>): seq<seq<byte>> {
    if fs == [] then [] else (if fs[0].Data? then [fs[0].payload] else []) + Payloads(fs[1..])
  }

  /** Messages read until the stream no longer yields one. */
  function ReadAll(s: seq<byte>, max: nat): seq<seq<byte>>
    decreases |s|
  {
    ReadShrinks(s, max);
    match ReadMessage(s, max)
    case None => []
    case Some((payload, rest)) => [payload] + ReadAll(rest, max)
  }

  lemma {:induction false} ReadShrinks(s: seq<byte>, max: nat)
    ensures ReadMessage(s, max).Some? ==> |ReadMessage(s, max).value.1| < |s|
    decreases |s|
  {
    var p := ParseFrame(s, max);
    if p.Parsed? {
      ReadShrinks(p.rest, max);
    }
  }

  /** Reading a stream of written frames yields the payloads of its messages, in order, whatever the keys. */
  lemma {:induction false} StreamReadsBack(fs: seq<Sent>, max: nat)
    requires forall i :: 0 <= i < |fs| ==> SentOk(fs[i], max)
    ensures ReadAll(Stream(fs), max) == Payloads(fs)
    decreases |fs|
  {
    if fs != [] {
      var rest := Stream(fs[1..]);
      assert SentOk(fs[0], max);
      ParseWritten(fs[0].opcode, fs[0].payload, fs[0].key, rest, max);
      StreamReadsBack(fs[1..], max);
      if fs[0].Control? {
        assert ReadMessage(Stream(fs), max) == ReadMessage(rest, max);
        assert [] + Payloads(fs[1..]) == Payloads(fs[1..]);
      }
    }
  }

  /** A close frame is found, and ends the reading, exactly when no message comes before it. */
  lemma {:induction false} CloseIsFound(fs: seq<Sent>, payload: seq<byte>, key: Option<Key>, rest: seq<byte>, max: nat)
    requires (forall i :: 0 <= i < |fs| ==> SentOk(fs[i], max)) && Admits(max, |payload|)
    ensures var s := Stream(fs) + (FrameBytes(8, payload, key) + rest);
      (EndsByClose(s, max) <==> Payloads(fs) == []) && (ReadMessage(s, max).None? <==> Payloads(fs) == [])
    decreases |fs|
  {
    hide FrameBytes;
    hide ParseFrame;
    var tail := FrameBytes(8, payload, key) + rest;
    if fs == [] {
      assert Stream(fs) + tail == tail;
      ParseWritten(8, payload, key, rest, max);
    } else {
      assert SentOk(fs[0], max);
      var first, others := FrameBytes(fs[0].opcode, fs[0].payload, fs[0].key), Stream(fs[1..]);
      Associative(first, others, tail);
      ParseWritten(fs[0].opcode, fs[0].payload, fs[0].key, others + tail, max);
      CloseIsFound(fs[1..], payload, key, rest, max);
      hide Stream;
    }
  }

  // ---------------------------------------------------------------- the loops

  /** XORs data in arr[at..at + n] with the key, one byte after the other. */
  method MaskInPlace(arr: array<byte>, at: nat, n: nat, key: Key)
    requires at + n <= arr.Length
    modifies arr
    ensures arr[at..at + n] == MaskWith(old(arr[at..at + n]), key)
    ensures SameOutside(old(arr[..]), arr[..], at, at + n)
  {
    ghost var was := arr[..];
    for i := 0 to n
      invariant forall k :: 0 <= k < i ==> arr[at + k] == Xor(was[at + k], key.At(k))
      invariant SameOutside(was, arr[..], at, at + i)
    {
      assert arr[..][at + i] == was[at + i];
      arr[at + i] := Xor(arr[at + i], key.At(i));
    }
    ghost var now, masked := arr[at..at + n], MaskWith(was[at..at + n], key);
    forall k | 0 <= k < n ensures now[k] == masked[k] {
      MaskWithAt(was[at..at + n], key, k);
    }
  }

  /** Header and key of a binary frame, written from at on. */
  method PutHeader(arr: array<byte>, at: nat, dataLen: nat, key: Option<Key>, ghost was: seq<byte>) returns (pos: nat)
    requires at + HeaderLen(dataLen, key.Some?) <= arr.Length && was == arr[..]
    modifies arr
    ensures pos == at + HeaderLen(dataLen, key.Some?) && arr[at..pos] == Header(2, dataLen, key)
    ensures SameOutside(was, arr[..], at, pos)
  {
    var b1 := if key.Some? then 128 else 0;
    pos := Put(arr, at, at, [0x82], was);
    assert arr[at..pos] == [0x82];
    if dataLen >= 65536 {
      pos := Put(arr, at, pos, [(b1 + 127) as byte] + BigEndian(dataLen, 8), was);
    } else if dataLen > 125 {
      pos := Put(arr, at, pos, [(b1 + 126) as byte] + BigEndian(dataLen, 2), was);
    } else {
      pos := Put(arr, at, pos, [(b1 + dataLen) as byte], was);
    }
    assert arr[at..pos] == [0x82] + LengthBytes(dataLen, key);
    hide LengthBytes;
    hide BigEndian;
    Associative([0x82], LengthBytes(dataLen, key), KeyBytes(key));
    if key.Some? {
      pos := Put(arr, at, pos, key.value.Bytes(), was);
    } else {
      assert LengthBytes(dataLen, key) + [] == LengthBytes(dataLen, key);
    }
  }

  /**
   * writeFrameInPlace: the header goes right-aligned into the bytes before the payload, a client masks the payload
   * where it is, and one write sends both. The bytes sent are exactly the frame; nothing else in buf changes.
   */
  method WriteFrameInPlace(buf: array<byte>, startPos: nat, dataLen: nat, hdrLen: nat, key: Option<Key>)
    returns (wire: seq<byte>)
    requires hdrLen == HeaderLen(dataLen, key.Some?) <= startPos && startPos + dataLen <= buf.Length
    modifies buf
    ensures wire == FrameBytes(2, old(buf[startPos..startPos + dataLen]), key)
    ensures SameOutside(old(buf[..]), buf[..], startPos - hdrLen, startPos + dataLen)
    ensures key.None? ==> buf[startPos..startPos + dataLen] == old(buf[startPos..startPos + dataLen])
  {
    hide Header;
    hide HeaderLen;
    hide FrameBytes;
    ghost var was := buf[..];
    var at := startPos - hdrLen;
    var pos := PutHeader(buf, at, dataLen, key, was);
    ghost var payload := was[startPos..startPos + dataLen];
    SameSlice(was, buf[..], at, startPos, startPos, startPos + dataLen);
    assert buf[at..startPos] == Header(2, dataLen, key);
    MaskPayload(buf, startPos, dataLen, key, at);
    assert buf[at..startPos] == Header(2, dataLen, key);
    wire := buf[at..startPos + dataLen];
    Assemble(buf[..], at, startPos, startPos + dataLen, payload, key);
  }

  /** Masks n bytes at start if there is a key; the bytes from `head` to start stay. */
  method MaskPayload(arr: array<byte>, start: nat, n: nat, key: Option<Key>, ghost head: nat)
    requires head <= start && start + n <= arr.Length
    modifies arr
    ensures arr[start..start + n] == Masked(old(arr[start..start + n]), key)
    ensures arr[head..start] == old(arr[head..start])
    ensures SameOutside(old(arr[..]), arr[..], start, start + n)
  {
    if key.Some? {
      ghost var was := arr[..];
      MaskInPlace(arr, start, n, key.value);
      SameSlice(was, arr[..], start, start + n, head, start);
    }
  }

  lemma Assemble(b: seq<byte>, at: nat, start: nat, end: nat, payload: seq<byte>, key: Option<Key>)
    requires at <= start <= end <= |b|
    requires b[at..start] == Header(2, |payload|, key) && b[start..end] == Masked(payload, key)
    ensures b[at..end] == FrameBytes(2, payload, key)
  {
    SliceJoin(b, at, start, end);
  }

  /** WriteMsg: header, key and masked payload are laid out in the write cache, copying the payload. */
  method WriteMsg(cache: BufWriter, buf: seq<byte>, key: Option<Key>) returns (wire: seq<byte>)
    requires cache.Valid()
    modifies cache, cache.arr
    ensures cache.Valid() && wire == FrameBytes(2, buf, key)
  {
    cache.Reset();
    cache.GetHeadBuffer(|buf| + if key.Some? then 15 else 11);
    wire := LayOut(cache.arr, buf, key);
  }

  method LayOut(arr: array<byte>, buf: seq<byte>, key: Option<Key>) returns (wire: seq<byte>)
    requires HeaderLen(|buf|, key.Some?) + |buf| <= arr.Length
    modifies arr
    ensures wire == FrameBytes(2, buf, key)
  {
    var start := PutHeader(arr, 0, |buf|, key, arr[..]);
    ghost var was := arr[..];
    PutBytes(arr, start, buf);
    SameSlice(was, arr[..], start, start + |buf|, 0, start);
    MaskPayload(arr, start, |buf|, key, 0);
    wire := arr[0..start + |buf|];
    Assemble(arr[..], 0, start, start + |buf|, buf, key);
  }

  /** WriteFrame: in place when there is room before the payload, through the cache otherwise; the same bytes. */
  method WriteFrame(cache: BufWriter, buf: array<byte>, startPos: nat, key: Option<Key>) returns (wire: seq<byte>)
    requires cache.Valid() && startPos <= buf.Length && cache.arr != buf
    modifies cache, cache.arr, buf
    ensures wire == FrameBytes(2, old(buf[startPos..]), key)
  {
    var dataLen := buf.Length - startPos;
    var hdrLen := HeaderLen(dataLen, key.Some?);
    assert buf[startPos..] == buf[startPos..startPos + dataLen];
    if startPos >= hdrLen {
      wire := WriteFrameInPlace(buf, startPos, dataLen, hdrLen, key);
    } else {
      wire := WriteMsg(cache, buf[startPos..], key);
    }
  }

  /** io.ReadFull of n bytes into the head buffer of w; the contents of w stay. */
  method ReadFull(w: BufWriter, s: seq<byte>, n: nat) returns (ok: bool)
    requires w.Valid()
    modifies w`arr, w.arr
    ensures w.Valid() && w.Contents() == old(w.Contents())
    ensures w.arr == old(w.arr) || fresh(w.arr)
    ensures ok <==> n <= |s|
    ensures ok ==> w.pos + n <= w.arr.Length && w.arr[w.pos..w.pos + n] == s[..n]
  {
    w.GetHeadBuffer(n);
    if |s| < n {
      return false;
    }
    ghost var was := w.arr[..];
    PutBytes(w.arr, w.pos, s[..n]);
    assert w.arr[..w.pos] == was[..w.pos];
    return true;
  }

  /** The header part of ReadMsg. */
  method ReadHead(w: BufWriter, s: seq<byte>, max: nat) returns (h: Option<Head>)
    requires w.Valid()
    modifies w`arr, w.arr
    ensures w.Valid() && w.Contents() == old(w.Contents())
    ensures w.arr == old(w.arr) || fresh(w.arr)
    ensures h == ParseHead(s, max)
  {
    h := None;
    var ok := ReadFull(w, s, 2);
    if ok {
      var b0, b1 := w.arr[w.pos], w.arr[w.pos + 1];
      assert w.arr[w.pos..w.pos + 2] == s[..2];
      assert b0 == s[..2][0] && b1 == s[..2][1];
      if b0 >= 128 {
        var more := ReadExtra(w, s, b1);
        if more.Some? {
          h := DecodeHead(b0, b1, more.value, max);
        }
      }
    }
  }

  /** The bytes the first two announce, after those; None when the stream ends before. */
  method ReadExtra(w: BufWriter, s: seq<byte>, b1: byte) returns (more: Option<seq<byte>>)
    requires w.Valid() && |s| >= 2
    modifies w`arr, w.arr
    ensures w.Valid() && w.Contents() == old(w.Contents())
    ensures w.arr == old(w.arr) || fresh(w.arr)
    ensures more == if |s| < 2 + ExtraLen(b1) then None else Some(s[2..2 + ExtraLen(b1)])
  {
    var isMask := b1 >= 128;
    var toReadLen := 0;
    if b1 % 128 == 126 {
      toReadLen := 2;
    } else if b1 % 128 == 127 {
      toReadLen := 8;
    }
    if isMask {
      toReadLen := toReadLen + 4;
    }
    if toReadLen == 0 {
      assert s[2..2] == [];
      return Some([]);
    }
    var ok := ReadFull(w, s[2..], toReadLen);
    if !ok {
      return None;
    }
    SliceOfDrop(s, 2, 0, toReadLen);
    return Some(w.arr[w.pos..w.pos + toReadLen]);
  }

  /** Length, limit checks and key, in the source's order. */
  method DecodeHead(b0: byte, b1: byte, more: seq<byte>, max: nat) returns (h: Option<Head>)
    requires |more| == ExtraLen(b1)
    ensures h == HeadOf(b0, b1, more, max)
  {
    var frameLen := (b1 % 128) as nat;
    var extended := Extended(b1);
    if extended > 0 {
      frameLen := FromBigEndian(more[..extended]);
      if extended == 8 && frameLen > 0x8000_0000 {
        return None;
      }
    }
    var key: Option<Key> := None;
    if b1 >= 128 {
      key := Some(KeyFrom(more[extended..]));
    }
    if max > 0 && frameLen > max {
      return None;
    }
    return Some(Head((b0 % 16) as nat, key, 2 + |more|, frameLen));
  }

  /** The n bytes at the head of w hold this payload, masked. */
  ghost predicate HeadHolds(w: BufWriter, n: nat, key: Option<Key>, payload: seq<byte>)
    reads w, w.arr
  {
    w.Valid() && w.pos + n <= w.arr.Length && payload == Masked(w.arr[w.pos..w.pos + n], key)
  }

  /** Header and body of one frame; the body, still masked, is left in the head buffer of w. */
  method ReadBody(w: BufWriter, s: seq<byte>, max: nat)
    returns (h: Option<Head>, rest: seq<byte>, ghost payload: seq<byte>)
    requires w.Valid()
    modifies w`arr, w.arr
    ensures w.Valid() && w.Contents() == old(w.Contents())
    ensures w.arr == old(w.arr) || fresh(w.arr)
    ensures h.None? ==> ParseFrame(s, max).Bad?
    ensures h.Some? ==> ParseFrame(s, max) == Parsed(h.value.opcode, payload, rest)
    ensures h.Some? ==> HeadHolds(w, h.value.length, h.value.key, payload)
  {
    rest, payload := [], [];
    assert ParseHead(s, max).None? ==> ParseFrame(s, max).Bad?;
    hide ParseFrame;
    h := ReadHead(w, s, max);
    if h.Some? {
      var ok;
      ok, rest, payload := ReadPayload(w, s, max, h.value);
      if !ok {
        h := None;
      }
    }
  }

  /** The body, once the header is known. */
  method ReadPayload(w: BufWriter, s: seq<byte>, max: nat, h: Head)
    returns (ok: bool, rest: seq<byte>, ghost payload: seq<byte>)
    requires w.Valid() && ParseHead(s, max) == Some(h)
    modifies w`arr, w.arr
    ensures w.Valid() && w.Contents() == old(w.Contents())
    ensures w.arr == old(w.arr) || fresh(w.arr)
    ensures if ok then ParseFrame(s, max) == Parsed(h.opcode, payload, rest) else ParseFrame(s, max).Bad?
    ensures ok ==> HeadHolds(w, h.length, h.key, payload)
  {
    rest, payload := [], [];
    ok := ReadFull(w, s[h.at..], h.length);
    if ok {
      FrameReads(s, max, h);
      rest := s[h.at + h.length..];
      payload := Masked(s[h.at..h.at + h.length], h.key);
    } else {
      FrameEnds(s, max, h);
    }
    hide ParseFrame;
    hide ParseHead;
    hide MaskWith;
  }

  lemma FrameEnds(s: seq<byte>, max: nat, h: Head)
    requires ParseHead(s, max) == Some(h) && h.at + h.length > |s|
    ensures ParseFrame(s, max).Bad?
  {
  }

  lemma FrameReads(s: seq<byte>, max: nat, h: Head)
    requires ParseHead(s, max) == Some(h) && h.at + h.length <= |s|
    ensures s[h.at..][..h.length] == s[h.at..h.at + h.length]
    ensures ParseFrame(s, max) == Parsed(h.opcode, Masked(s[h.at..h.at + h.length], h.key), s[h.at + h.length..])
  {
    SliceOfDrop(s, h.at, 0, h.length);
  }

  /** Unmasks the n bytes at the head of w and makes them contents. */
  method Accept(w: BufWriter, n: nat, key: Option<Key>, ghost payload: seq<byte>)
    requires HeadHolds(w, n, key, payload)
    modifies w, w.arr
    ensures w.Valid() && w.Contents() == old(w.Contents()) + payload
  {
    MaskPayload(w.arr, w.pos, n, key, 0);
    assert w.arr[..w.pos] == w.arr[0..w.pos];
    SliceJoin(w.arr[..], 0, w.pos, w.pos + n);
    assert w.arr[..w.pos + n] == w.arr[0..w.pos + n];
    w.AddPos(n);
  }

  /** What a close frame is answered with. */
  function CloseReply(key: Option<Key>): seq<byte> {
    if key.Some? then [0x88, 0x80] + key.value.Bytes() else [0x88, 0x00]
  }

  /** The answer is itself a well-formed close frame without a payload. */
  lemma CloseReplyIsClose(key: Option<Key>, payload: seq<byte>)
    requires payload == []
    ensures CloseReply(key) == FrameBytes(8, payload, key)
  {
  }

  /**
   * ReadMsg over a byte stream: appends the next message to w and returns what is left of the stream, or fails
   * where ReadMessage says there is none. `reply` is what it writes: the answer to a close frame, exactly when one
   * is what ended the read.
   */
  method ReadMsg(w: BufWriter, stream: seq<byte>, max: nat, replyKey: Option<Key>)
    returns (r: Option<seq<byte>>, reply: seq<byte>)
    requires w.Valid()
    modifies w, w.arr
    ensures w.Valid()
    ensures r.Some? <==> ReadMessage(stream, max).Some?
    ensures r.Some? ==> reply == [] && ReadMessage(stream, max).value.1 == r.value
    ensures r.Some? ==> w.Contents() == old(w.Contents()) + ReadMessage(stream, max).value.0
    ensures r.None? ==> w.Contents() == old(w.Contents())
    ensures reply == if EndsByClose(stream, max) then CloseReply(replyKey) else []
  {
    var s := stream;
    reply := [];
    while true
      invariant w.Valid() && w.Contents() == old(w.Contents()) && (w.arr == old(w.arr) || fresh(w.arr))
      invariant ReadMessage(s, max) == ReadMessage(stream, max)
      invariant EndsByClose(s, max) == EndsByClose(stream, max) && reply == []
      decreases |s|
    {
      var h, rest, payload := ReadBody(w, s, max);
      if h.None? {
        return None, reply;
      }
      if h.value.opcode == 8 {
        return None, CloseReply(replyKey);
      }
      if h.value.opcode == 2 || h.value.opcode == 1 {
        Accept(w, h.value.length, h.value.key, payload);
        return Some(rest), reply;
      }
      s := rest;
    }
  }
}
