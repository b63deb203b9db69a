/**
 * The bip-buffer as the source keeps it: one array reused in place, integer cursors, and slices of the array
 * handed to a sender that works outside the lock. Each method refines the function of the same name on rings;
 * Valid ties the bytes of the array to the frames, and remembers the slice that is still being sent.
 */
module BipBuf {
  import opened Bytes
  import opened Frames
  import opened BipRing
  import opened RingBytes
  import opened RingGroups
  import opened RingHeader
  import opened RingScratch

  /** A slice arr[start..end] whose capacity runs to limit. */
  datatype Slice = Slice(arr: array<byte>, start: nat, end: nat, limit: nat)

  function Blank(n: nat): (f: Frame)
    requires 0 < n < 65536
    ensures |f| == n
  {
    var zeros: seq<byte> := seq(n, i => 0);
    zeros
  }

  /** The ring's last frame gets other contents of the same length. */
  function Refilled(r: Ring, data: Frame): Ring {
    if r.back != [] then r.(back := r.back[..|r.back| - 1] + [data])
    else if r.front != [] then r.(front := r.front[..|r.front| - 1] + [data])
    else r
  }

  lemma RefilledAbove(r: Ring, write: nat, f: Frame, g: Frame)
    requires r.back == []
    ensures Refilled(r.(write := write, front := r.front + [f]), g) == r.(write := write, front := r.front + [g])
  {
    TakeDropConcat(r.front, [f]);
  }

  lemma RefilledBelow(r: Ring, write: nat, f: Frame, g: Frame)
    ensures Refilled(r.(write := write, back := r.back + [f]), g) == r.(write := write, back := r.back + [g])
  {
    TakeDropConcat(r.back, [f]);
  }

  /** Where a frame goes depends on its length alone. */
  lemma AllocBySize(cfg: Config, r: Ring, f: Frame, g: Frame)
    requires Shape(cfg, r) && |f| == |g|
    ensures Alloc(cfg, r, f).Placed? <==> Alloc(cfg, r, g).Placed?
    ensures Alloc(cfg, r, f).Placed? ==>
      var p, q := Alloc(cfg, r, f), Alloc(cfg, r, g);
      p.pos == q.pos && p.grew == q.grew && Refilled(p.ring, g) == q.ring
  {
    hide Refilled;
    if Alloc(cfg, r, f).Placed? {
      var p := Alloc(cfg, r, f);
      if p.grew {
        RefilledAbove(Relocated(cfg, r, p.ring.cap), p.ring.write, f, g);
      } else if r.tailEnd == 0 && p.ring.tailEnd > 0 {
        assert [] + [f] == [f] && [] + [g] == [g];
        RefilledBelow(r.(tailEnd := r.write), p.ring.write, f, g);
      } else if r.tailEnd == 0 {
        RefilledAbove(r, p.ring.write, f, g);
      } else {
        RefilledBelow(r, p.ring.write, f, g);
      }
    }
  }

  /** Once the header is in the array, the slot holds a frame, whatever its contents are. */
  lemma HeaderMakesFrame(cfg: Config, r: Ring, was: seq<byte>, now: seq<byte>, pos: nat, n: nat) returns (f: Frame)
    requires BipRing.Valid(cfg, r) && Holds(cfg, r, was) && 0 < n < 65536
    requires Alloc(cfg, r, Blank(n)).Placed? && !Alloc(cfg, r, Blank(n)).grew && Alloc(cfg, r, Blank(n)).pos == pos
    requires SameOutside(was, now, pos, pos + 2) && pos + 2 + n <= |now|
    requires now[pos] == (n % 256) as byte && now[pos + 1] == (n / 256) as byte
    ensures |f| == n && Alloc(cfg, r, f).Placed?
    ensures var next := Alloc(cfg, r, f).ring;
      && BipRing.Valid(cfg, next) && Holds(cfg, next, now)
      && Refilled(next, Blank(n)) == Alloc(cfg, r, Blank(n)).ring
      && next.Queue() == r.Queue() + [f]
      && next.write == pos + 2 + n && next.tailEnd == Alloc(cfg, r, Blank(n)).ring.tailEnd
      && next.cap == r.cap && next.sent == r.sent && next.sendEnd == r.sendEnd && next.pendingGap == r.pendingGap
  {
    f := now[pos + 2..pos + 2 + n];
    assert now[pos..pos + 2 + n] == EncodeFrame(f);
    AllocBySize(cfg, r, f, Blank(n));
    AllocAppends(cfg, r, f, 0);
    HoldsAfterPlace(cfg, r, was, f, now);
  }

  lemma RelocatedIsValid(cfg: Config, r: Ring, cap: nat)
    requires BipRing.Valid(cfg, r) && r.cap < cap <= cfg.maxCap && cfg.prefix + QueueLen(cfg, r) <= cap
    ensures BipRing.Valid(cfg, Relocated(cfg, r, cap))
  {
    SizeAppend(r.front, r.back);
  }

  /** A larger array with the queue's bytes from the prefix on holds the relocated ring. */
  lemma RelocatedHolds(cfg: Config, r: Ring, b: seq<byte>, b2: seq<byte>)
    requires BipRing.Valid(cfg, r) && Holds(cfg, r, b) && r.cap < |b2| <= cfg.maxCap
    requires cfg.prefix + QueueLen(cfg, r) <= |b2|
    requires r.cap > 0 ==> b2[cfg.prefix..cfg.prefix + QueueLen(cfg, r)] == QueueBytes(cfg, r, b)
    ensures BipRing.Valid(cfg, Relocated(cfg, r, |b2|)) && Holds(cfg, Relocated(cfg, r, |b2|), b2)
  {
    RelocatedIsValid(cfg, r, |b2|);
    HoldsAfterGrow(cfg, r, b, b2);
  }

  /** The last frame of the queue ends at the write cursor. */
  lemma LastFrameEnds(cfg: Config, r: Ring, b: seq<byte>, data: Frame)
    requires BipRing.Valid(cfg, r) && Holds(cfg, r, b) && r.Queue() != []
    requires |r.Queue()[|r.Queue()| - 1]| == |data|
    ensures |data| + 2 <= r.write <= |b|
    ensures r.write <= r.sent || r.sendEnd + r.pendingGap <= r.write - |data| - 2
  {
    var last := r.Queue()[|r.Queue()| - 1];
    if r.back != [] {
      assert r.back == r.back[..|r.back| - 1] + [last];
      SizeSnoc(r.back[..|r.back| - 1], last);
    } else {
      assert r.front == r.front[..|r.front| - 1] + [last];
      SizeSnoc(r.front[..|r.front| - 1], last);
      SizeNonempty(r.front);
    }
  }

  lemma RefilledValid(cfg: Config, r: Ring, data: Frame)
    requires BipRing.Valid(cfg, r) && r.Queue() != [] && |r.Queue()[|r.Queue()| - 1]| == |data|
    ensures BipRing.Valid(cfg, Refilled(r, data))
    ensures Refilled(r, data).Queue() == r.Queue()[..|r.Queue()| - 1] + [data]
  {
    var last := r.Queue()[|r.Queue()| - 1];
    if r.back != [] {
      var rest := r.back[..|r.back| - 1];
      assert r.back == rest + [last];
      SizeSnoc(rest, last);
      SizeSnoc(rest, data);
      Associative(r.front, rest, [data]);
      assert r.Queue()[..|r.Queue()| - 1] == r.front + rest;
      assert Legal(cfg, last);
    } else {
      var rest := r.front[..|r.front| - 1];
      assert r.front == rest + [last];
      SizeSnoc(rest, last);
      SizeSnoc(rest, data);
      assert r.Queue() == r.front && rest + [data] + [] == rest + [data];
      assert Legal(cfg, last);
    }
  }

  lemma HoldsAfterRefill(cfg: Config, r: Ring, was: seq<byte>, data: Frame, now: seq<byte>)
    requires BipRing.Valid(cfg, r) && Holds(cfg, r, was) && r.Queue() != []
    requires |r.Queue()[|r.Queue()| - 1]| == |data| < r.write <= |was|
    requires SameOutside(was, now, r.write - |data|, r.write) && now[r.write - |data|..r.write] == data
    ensures BipRing.Valid(cfg, Refilled(r, data)) && Holds(cfg, Refilled(r, data), now)
    ensures Refilled(r, data).Queue() == r.Queue()[..|r.Queue()| - 1] + [data]
  {
    RefilledValid(cfg, r, data);
    LastFrameEnds(cfg, r, was, data);
    if r.back != [] {
      HoldsAfterRefillBack(cfg, r, was, data, now);
    } else {
      RefillStretch(was, now, r.sendEnd + r.pendingGap, r.write, r.front, data);
    }
  }

  lemma HoldsAfterRefillBack(cfg: Config, r: Ring, was: seq<byte>, data: Frame, now: seq<byte>)
    requires BipRing.Valid(cfg, r) && BipRing.Valid(cfg, Refilled(r, data)) && Holds(cfg, r, was) && r.back != []
    requires |r.back[|r.back| - 1]| == |data| < r.write <= |was|
    requires r.write <= r.sent || r.sendEnd + r.pendingGap <= r.write - |data| - 2
    requires SameOutside(was, now, r.write - |data|, r.write) && now[r.write - |data|..r.write] == data
    ensures Holds(cfg, Refilled(r, data), now)
  {
    RefillStretch(was, now, cfg.prefix, r.write, r.back, data);
    SameSlice(was, now, r.write - |data|, r.write, r.sendEnd + r.pendingGap, r.tailEnd);
  }

  lemma RefillStretch(was: seq<byte>, now: seq<byte>, x: nat, y: nat, fs: seq<Frame>, data: Frame)
    requires fs != [] && |fs[|fs| - 1]| == |data| <= y <= |was| && x <= y && was[x..y] == Encode(fs)
    requires SameOutside(was, now, y - |data|, y) && now[y - |data|..y] == data
    ensures now[x..y] == Encode(fs[..|fs| - 1] + [data])
  {
    hide SameOutside;
    hide Encode;
    hide Le16;
    var rest, last := fs[..|fs| - 1], fs[|fs| - 1];
    assert fs == rest + [last];
    LastFrame(rest, last);
    LastFrame(rest, data);
    ReplaceTail(was, now, x, y, Encode(rest) + Le16(|last|), last, data);
  }

  lemma LastFrame(rest: seq<Frame>, last: Frame)
    ensures Encode(rest + [last]) == (Encode(rest) + Le16(|last|)) + last
  {
    EncodeSnoc(rest, last);
    Associative(Encode(rest), Le16(|last|), last);
  }

  lemma ReplaceTail(was: seq<byte>, now: seq<byte>, x: nat, y: nat, head: seq<byte>, tail: seq<byte>, data: seq<byte>)
    requires |tail| == |data| <= y <= |was| && x <= y && was[x..y] == head + tail
    requires SameOutside(was, now, y - |data|, y) && now[y - |data|..y] == data
    ensures now[x..y] == head + data
  {
    var m := y - |data|;
    SplitBytes(was, x, y, |head|, head, tail);
    SameSlice(was, now, m, y, x, m);
    SliceJoin(now, x, m, y);
  }

  /** What a confirmed ring has in its upper stretch, and when that is nothing at all. */
  lemma FrontStretch(cfg: Config, c: Ring, b: seq<byte>)
    requires NothingInFlight(cfg, c) && Holds(cfg, c, b)
    ensures c.front == [] <==> c.tailEnd == 0 && c.sent >= c.write
    ensures TakeConfirmed(cfg, c).batch == [] <==> c.front == []
    ensures c.front != [] ==>
      var limit := if c.tailEnd > 0 then c.tailEnd else c.write;
      c.sent <= limit <= |b| && b[c.sent..limit] == Encode(c.front) && AllLegal(cfg, c.front)
  {
    SizeNonempty(c.front);
    TakeSplitsQueue(cfg, c);
  }

  lemma HoldsAfterPop(cfg: Config, c: Ring, b: seq<byte>)
    requires NothingInFlight(cfg, c) && Holds(cfg, c, b) && c.front != []
    ensures var end := c.sent + 2 + |c.front[0]|;
      var next := c.(sent := end, sendEnd := end, front := c.front[1..]);
      Shape(cfg, next) && Holds(cfg, next, b)
  {
    SplitStretch(b, c.sent, if c.tailEnd == 0 then c.write else c.tailEnd, c.front, 1);
    assert c.front[..1] == [] + [c.front[0]];
    SizeSnoc([], c.front[0]);
    var end := c.sent + 2 + |c.front[0]|;
  }

  /** The frame at the head of a confirmed queue, by its header; the array holds what is left behind it. */
  lemma PopIsHeld(cfg: Config, c: Ring, b: seq<byte>)
    requires NothingInFlight(cfg, c) && Holds(cfg, c, b) && c.front != []
    ensures c.sent + 2 <= |b|
    ensures var (end, next) := (c.sent + 2 + FromLe16(b[c.sent], b[c.sent + 1]), PopConfirmed(cfg, c).0);
      && end <= (if c.tailEnd == 0 then c.write else c.tailEnd) <= |b|
      && PopConfirmed(cfg, c).1 == Some(b[c.sent + 2..end])
      && next == c.(sent := end, sendEnd := end, front := next.front)
      && BipRing.Valid(cfg, next) && Holds(cfg, next, b)
  {
    HeadSlot(cfg, c, b);
    HoldsAfterPop(cfg, c, b);
    PopIsValid(cfg, c);
  }

  lemma HeadSlot(cfg: Config, c: Ring, b: seq<byte>)
    requires NothingInFlight(cfg, c) && Holds(cfg, c, b) && c.front != []
    ensures c.sent + 2 + |c.front[0]| <= (if c.tailEnd == 0 then c.write else c.tailEnd) <= |b|
    ensures FromLe16(b[c.sent], b[c.sent + 1]) == |c.front[0]|
    ensures b[c.sent + 2..c.sent + 2 + |c.front[0]|] == c.front[0]
  {
    SizeNonempty(c.front);
    HeaderAt(b, c.sent, if c.tailEnd == 0 then c.write else c.tailEnd, c.front, 0);
  }

  lemma PopIsValid(cfg: Config, c: Ring)
    requires NothingInFlight(cfg, c) && c.front != []
    ensures BipRing.Valid(cfg, PopConfirmed(cfg, c).0)
  {
    assert c.front == [c.front[0]] + c.front[1..];
  }

  lemma Adjoin(b: seq<byte>, x: nat, m: nat, y: nat, first: seq<byte>)
    requires x <= m <= y <= |b| && b[x..m] == first
    ensures b[x..y] == first + b[m..y]
  {
    SliceJoin(b, x, m, y);
  }

  /** Copy src[from..to] to dst[at..]. */
  method CopyBytes(dst: array<byte>, at: nat, src: array<byte>, from: nat, to: nat)
    requires dst != src && from <= to <= src.Length && at + (to - from) <= dst.Length
    modifies dst
    ensures dst[at..at + (to - from)] == src[from..to]
    ensures SameOutside(old(dst[..]), dst[..], at, at + (to - from))
  {
    forall i | 0 <= i < to - from {
      dst[at + i] := src[from + i];
    }
  }

  /** Copies two stretches of src to dst, one after the other. */
  method CopyTwo(dst: array<byte>, at: nat, src: array<byte>, from: nat, to: nat, from2: nat, to2: nat)
    requires dst != src && from <= to <= src.Length && from2 <= to2 <= src.Length
    requires at + (to - from) + (to2 - from2) <= dst.Length
    modifies dst
    ensures dst[at..at + (to - from) + (to2 - from2)] == src[from..to] + src[from2..to2]
  {
    var mid, end := at + (to - from), at + (to - from) + (to2 - from2);
    CopyBytes(dst, at, src, from, to);
    ghost var half := dst[..];
    CopyBytes(dst, mid, src, from2, to2);
    SameSlice(half, dst[..], mid, end, at, mid);
    SliceJoin(dst[..], at, mid, end);
  }

  class Frame16BipBuf2 {
    const cfg: Config
    var buf: array<byte>
    var sent: nat
    var sendEnd: nat
    var write: nat
    var tailEnd: nat
    var pendingGap: nat
    var oldBuf: array?<byte>

    ghost var ring: Ring             // the cursors below, with the frames between them
    ghost var flight: Option<Slice>  // what the last take handed out
    ghost var batch: seq<Frame>      // the frames in it

    ghost predicate Linked()
      reads this
    {
      && ring.cap == buf.Length && ring.sent == sent && ring.sendEnd == sendEnd && ring.write == write
      && ring.tailEnd == tailEnd && ring.pendingGap == pendingGap
    }

    ghost function Queue(): seq<Frame>
      reads this
    {
      ring.Queue()
    }

    /** The slice in flight lies in the array that oldBuf keeps; there, or nowhere, the cursors point at it. */
    ghost predicate FlightOk()
      reads this
    {
      flight.Some? ==>
        var s := flight.value;
        && oldBuf == s.arr && s.start + cfg.prefix <= s.end <= s.limit <= s.arr.Length
        && (s.arr == buf ==>
              s.start + cfg.prefix == sent && s.end == sendEnd && s.limit == sendEnd + pendingGap)
    }

    /** The payload of the slice in flight. */
    ghost function Payload(): seq<byte>
      reads this, if flight.Some? then {flight.value.arr} else {}
      requires FlightOk()
    {
      if flight.Some? then flight.value.arr[flight.value.start + cfg.prefix..flight.value.end] else []
    }

    /** The footer scratch granted after it. */
    ghost function Footer(): seq<byte>
      reads this, if flight.Some? then {flight.value.arr} else {}
      requires FlightOk()
    {
      if flight.Some? then flight.value.arr[flight.value.end..flight.value.limit] else []
    }

    /** The cursors and frames agree, the array holds the frames, and the slice in flight still holds its batch. */
    ghost predicate Valid()
      reads this, buf, if flight.Some? then {flight.value.arr} else {}
    {
      && Linked() && BipRing.Valid(cfg, ring) && Holds(cfg, ring, buf[..]) && FlightOk()
      && (flight.Some? ==> Payload() == Encode(batch))
    }

    constructor (maxCap: nat, prefix: nat, suffix: nat, maxFramePayload: nat)
      ensures Valid() && cfg == Config(maxCap, prefix, suffix, maxFramePayload)
      ensures ring == Init(cfg) && flight == None && fresh(buf)
    {
      cfg := Config(maxCap, prefix, suffix, maxFramePayload);
      buf := new byte[0];
      sent, sendEnd, write, tailEnd, pendingGap := prefix, prefix, prefix, 0, 0;
      oldBuf := null;
      ring, flight, batch := Init(Config(maxCap, prefix, suffix, maxFramePayload)), None, [];
    }

    /**
     * The cursors are those of `base`, apart from a wrap already noted in tailEnd, the array holds its frames, and
     * a frame of n bytes goes at pos of that array.
     */
    ghost predicate Reserved(base: Ring, pos: nat, n: nat)
      reads this, buf, if flight.Some? then {flight.value.arr} else {}
      requires 0 < n < 65536
    {
      && BipRing.Valid(cfg, base) && Holds(cfg, base, buf[..]) && FlightOk()
      && (flight.Some? ==> Payload() == Encode(batch))
      && Alloc(cfg, base, Blank(n)).Placed? && !Alloc(cfg, base, Blank(n)).grew
      && Alloc(cfg, base, Blank(n)).pos == pos && Alloc(cfg, base, Blank(n)).ring.tailEnd == tailEnd
      && sent == base.sent && sendEnd == base.sendEnd && pendingGap == base.pendingGap
      && pos + 2 + n <= buf.Length && (pos + 2 <= sent || sendEnd + pendingGap <= pos)
    }

    /** Finds where a frame of n bytes goes: above, wrapped below, or in a grown array. */
    method FindRoom(n: nat) returns (pos: Option<nat>, ghost base: Ring)
      requires Valid() && 0 < n < 65536 && Legal(cfg, Blank(n))
      modifies this`buf, this`sent, this`sendEnd, this`write, this`tailEnd, this`ring
      ensures pos.Some? <==> Alloc(cfg, old(ring), Blank(n)).Placed?
      ensures pos.None? ==> Valid() && ring == old(ring) && buf == old(buf)
      ensures pos.Some? ==> Reserved(base, pos.value, n)
      ensures pos.Some? ==> Alloc(cfg, base, Blank(n)).ring == Alloc(cfg, old(ring), Blank(n)).ring
      ensures buf == old(buf) || fresh(buf)
      ensures FlightOk() && Payload() == old(Payload()) && Footer() == old(Footer())
    {
      hide Holds;
      base := ring;
      var total := 2 + n;
      var cap := buf.Length;
      if tailEnd == 0 {
        if cap > 0 && write + total <= cap {
          return Some(write), base;
        }
        if cap > 0 && cfg.prefix + total <= sent {
          tailEnd := write;
          return Some(cfg.prefix), base;
        }
      } else if write + total <= sent {
        return Some(write), base;
      }
      var grown := Grow(total);
      if !grown {
        return None, base;
      }
      base := ring;
      return Some(write), base;
    }

    /** Writes the header of a frame of n bytes at pos and moves the write cursor past the frame. */
    method PlaceAt(pos: nat, n: nat, ghost base: Ring)
      requires 0 < n < 65536 && Reserved(base, pos, n)
      modifies this`write, this`ring, buf
      ensures Valid() && Refilled(ring, Blank(n)) == Alloc(cfg, base, Blank(n)).ring
      ensures write == pos + 2 + n && EndsWith(n)
      ensures Payload() == old(Payload()) && Footer() == old(Footer())
    {
      hide Holds;
      ghost var was := buf[..];
      StampHeader(pos, n);
      ghost var f := HeaderMakesFrame(cfg, base, was, buf[..], pos, n);
      ring := Alloc(cfg, base, f).ring;
    }

    /** Writes a frame header at pos, away from the slice in flight. */
    method StampHeader(pos: nat, n: nat)
      requires n < 65536 && pos + 2 + n <= buf.Length && FlightOk()
      requires pos + 2 <= sent || sendEnd + pendingGap <= pos
      modifies this`write, buf
      ensures write == pos + 2 + n
      ensures buf[pos] == (n % 256) as byte && buf[pos + 1] == (n / 256) as byte
      ensures SameOutside(old(buf[..]), buf[..], pos, pos + 2)
      ensures Payload() == old(Payload()) && Footer() == old(Footer())
    {
      buf[pos] := (n % 256) as byte;
      buf[pos + 1] := (n / 256) as byte;
      write := pos + 2 + n;
    }

    ghost predicate EndsWith(n: nat)
      reads this
    {
      Queue() != [] && |Queue()[|Queue()| - 1]| == n
    }

    /**
     * Room for a frame of n bytes, its header already written; None when n is 0 or the ring has no place for it.
     * The new last frame holds whatever the slot holds until Fill. What is being sent is not touched, whether the
     * frame goes above, wraps, or makes the buffer move to a fresh array.
     */
    method AllocFrame(n: nat) returns (slot: Option<Slice>)
      requires Valid() && n < 65536
      modifies this, buf
      ensures Valid()
      ensures slot.Some? <==> n > 0 && Alloc(cfg, old(ring), Blank(n)).Placed?
      ensures slot.None? ==> ring == old(ring) && buf == old(buf) && buf[..] == old(buf[..])
      ensures slot.Some? ==>
        && slot.value.arr == buf && slot.value.end == slot.value.limit == write == slot.value.start + n
        && Refilled(ring, Blank(n)) == Alloc(cfg, old(ring), Blank(n)).ring
        && EndsWith(n)
      ensures buf == old(buf) || fresh(buf)
      ensures oldBuf == old(oldBuf) && flight == old(flight) && batch == old(batch)
      ensures Payload() == old(Payload()) && Footer() == old(Footer())
    {
      hide Holds;
      hide BipRing.Valid;
      slot := None;
      if n > 0 && (cfg.maxFramePayload == 0 || 2 + n <= cfg.maxFramePayload) {
        var pos, base := FindRoom(n);
        if pos.Some? {
          PlaceAt(pos.value, n, base);
          slot := Some(Slice(buf, pos.value + 2, pos.value + 2 + n, pos.value + 2 + n));
        }
      }
    }

    /**
     * Moves to a fresh, larger array with everything queued laid out from the prefix on; false when the buffer may
     * not grow enough. The old array, and with it the slice in flight, is left as it is.
     */
    method Grow(needTotal: nat) returns (grown: bool)
      requires Valid()
      modifies this`buf, this`sent, this`sendEnd, this`write, this`tailEnd, this`ring
      ensures Valid()
      ensures grown <==> GrownCap(old(buf.Length), cfg.prefix + QueueLen(cfg, old(ring)) + needTotal, cfg.maxCap).Some?
      ensures !grown ==> ring == old(ring) && buf == old(buf)
      ensures grown ==>
        && fresh(buf)
        && GrownCap(old(buf.Length), cfg.prefix + QueueLen(cfg, old(ring)) + needTotal, cfg.maxCap) == Some(buf.Length)
        && ring == Relocated(cfg, old(ring), buf.Length)
      ensures Payload() == old(Payload()) && Footer() == old(Footer())
    {
      if buf.Length >= cfg.maxCap {
        return false;
      }
      var queueLen := if tailEnd == 0 then write - sendEnd else (tailEnd - sendEnd) + (write - cfg.prefix);
      var newSize := GrownSize(cfg.prefix + queueLen + needTotal);
      if newSize < cfg.prefix + queueLen + needTotal {
        return false;
      }
      Relocate(newSize, queueLen);
      return true;
    }

    /** Doubles the capacity until `required` fits or maxCap is reached. */
    method GrownSize(required: nat) returns (newSize: nat)
      requires buf.Length < cfg.maxCap
      ensures newSize > 0
      ensures GrownCap(buf.Length, required, cfg.maxCap) == if newSize < required then None else Some(newSize)
    {
      var curSize := buf.Length;
      if curSize == 0 {
        curSize := 64;
      }
      newSize := curSize * 2;
      while newSize < required && newSize < cfg.maxCap
        invariant newSize > 0
        invariant Doubling(curSize * 2, required, cfg.maxCap) == Doubling(newSize, required, cfg.maxCap)
        decreases cfg.maxCap - newSize
      {
        if newSize > cfg.maxCap / 2 {
          newSize := cfg.maxCap;
        } else {
          newSize := newSize * 2;
        }
      }
      if newSize > cfg.maxCap {
        newSize := cfg.maxCap;
      }
    }

    /** Lays the gap and the queued frames out in newBuf from the prefix on. */
    method CopyQueue(newBuf: array<byte>, queueLen: nat)
      requires Valid() && buf.Length > 0 && newBuf != buf
      requires queueLen == QueueLen(cfg, ring) && cfg.prefix + queueLen <= newBuf.Length
      modifies newBuf
      ensures newBuf[cfg.prefix..cfg.prefix + queueLen] == QueueBytes(cfg, ring, buf[..])
    {
      if tailEnd == 0 {
        CopyBytes(newBuf, cfg.prefix, buf, sendEnd, write);
      } else {
        CopyTwo(newBuf, cfg.prefix, buf, sendEnd, tailEnd, cfg.prefix, write);
      }
    }

    /** Moves the queue to a fresh array of newSize bytes. */
    method Relocate(newSize: nat, queueLen: nat)
      requires Valid() && buf.Length < newSize <= cfg.maxCap
      requires queueLen == QueueLen(cfg, ring) && cfg.prefix + queueLen <= newSize
      modifies this`buf, this`sent, this`sendEnd, this`write, this`tailEnd, this`ring
      ensures Valid() && ring == Relocated(cfg, old(ring), newSize)
      ensures fresh(buf) && Payload() == old(Payload()) && Footer() == old(Footer())
    {
      hide Holds;
      hide BipRing.Valid;
      var newBuf := new byte[newSize](_ => 0);
      if buf.Length > 0 {
        CopyQueue(newBuf, queueLen);
      }
      RelocatedHolds(cfg, ring, buf[..], newBuf[..]);
      SwitchTo(newBuf, queueLen);
    }

    method SwitchTo(newBuf: array<byte>, queueLen: nat)
      requires Valid() && newBuf != buf && oldBuf != newBuf && queueLen == QueueLen(cfg, ring)
      requires BipRing.Valid(cfg, Relocated(cfg, ring, newBuf.Length))
      requires Holds(cfg, Relocated(cfg, ring, newBuf.Length), newBuf[..])
      modifies this`buf, this`sent, this`sendEnd, this`write, this`tailEnd, this`ring
      ensures Valid() && ring == Relocated(cfg, old(ring), newBuf.Length)
      ensures buf == newBuf && Payload() == old(Payload()) && Footer() == old(Footer())
    {
      assert Shape(cfg, ring);
      hide Holds;
      hide BipRing.Valid;
      ring := Relocated(cfg, ring, newBuf.Length);
      buf := newBuf;
      sent, sendEnd, write, tailEnd := cfg.prefix, cfg.prefix, cfg.prefix + queueLen, 0;
    }

    /** Fills the slot of the frame just allocated with its contents. */
    method Fill(slot: Slice, data: Frame)
      requires Valid() && slot.arr == buf && slot.end == write && slot.start + |data| == slot.end && EndsWith(|data|)
      modifies this`ring, buf
      ensures Valid() && ring == Refilled(old(ring), data)
      ensures Queue() == old(Queue()[..|Queue()| - 1]) + [data]
      ensures Payload() == old(Payload()) && Footer() == old(Footer())
    {
      hide Holds;
      ghost var r, was := ring, buf[..];
      LastFrameEnds(cfg, r, was, data);
      PutClear(slot.start, data);
      HoldsAfterRefill(cfg, r, was, data, buf[..]);
      ring := Refilled(r, data);
    }

    /** Writes data at `at`, away from the slice in flight. */
    method PutClear(at: nat, data: seq<byte>)
      requires at + |data| <= buf.Length && FlightOk()
      requires at + |data| <= sent || sendEnd + pendingGap <= at
      modifies buf
      ensures buf[at..at + |data|] == data && SameOutside(old(buf[..]), buf[..], at, at + |data|)
      ensures Payload() == old(Payload()) && Footer() == old(Footer())
    {
      ghost var was := buf[..];
      PutBytes(buf, at, data);
      if flight.Some? && flight.value.arr == buf {
        SameSlice(was, buf[..], at, at + |data|, sent, sendEnd);
        SameSlice(was, buf[..], at, at + |data|, sendEnd, sendEnd + pendingGap);
      }
    }

    /** The end of the last whole frame, from start on, that the batch cap admits. */
    method FrameAlignedEnd(start: nat, limit: nat, ghost fs: seq<Frame>) returns (end: nat)
      requires start <= limit <= buf.Length && buf[start..limit] == Encode(fs) && AllLegal(cfg, fs)
      ensures end == start + Size(fs[..BatchCount(cfg, fs)]) <= limit
    {
      SizeIsLength(fs);
      BatchBounds(cfg, fs);
      if cfg.maxFramePayload == 0 {
        assert fs[..|fs|] == fs;
        return limit;
      }
      assert start + Size(fs[..BatchCount(cfg, fs)]) == FitEnd(cfg, start, start, fs);
      hide Size;
      hide BatchCount;
      end := AlignedEndFrom(start, limit, fs);
    }

    /** Its loop; `rest` are the frames from the cursor on. */
    method AlignedEndFrom(start: nat, limit: nat, ghost fs: seq<Frame>) returns (end: nat)
      requires start <= limit <= buf.Length && buf[start..limit] == Encode(fs) && cfg.maxFramePayload > 0
      ensures end == FitEnd(cfg, start, start, fs)
    {
      hide FitEnd;
      hide FromLe16;
      end := start;
      ghost var rest, b := fs, buf[..];
      while end < limit
        invariant start <= end <= limit && end - start <= cfg.maxFramePayload && b[end..limit] == Encode(rest)
        invariant FitEnd(cfg, start, end, rest) == FitEnd(cfg, start, start, fs)
        decreases limit - end
      {
        SomeFrameLeft(b, end, limit, rest);
        hide Encode;
        FrontFrame(b, end, limit, rest);
        FitEndStep(cfg, start, end, rest);
        var total := 2 + FromLe16(buf[end], buf[end + 1]);
        if end + total - start > cfg.maxFramePayload {
          return;
        }
        end, rest := end + total, rest[1..];
      }
      NoFrameLeft(cfg, b, start, limit, rest);
    }

    /** The confirmation at the head of a take or a pop. */
    method ConfirmPrevious()
      requires Valid()
      modifies this`oldBuf, this`sent, this`sendEnd, this`tailEnd, this`pendingGap, this`ring, this`flight
      ensures Valid() && flight == None && oldBuf == buf
      ensures ring == Confirmed(cfg, old(ring))
    {
      hide Holds;
      ghost var r := ring;
      HoldsAfterConfirm(cfg, r, buf[..]);
      oldBuf, flight := buf, None;
      if sent < sendEnd {
        sent := sendEnd;
      }
      assert sent == r.sendEnd;
      sent := sent + pendingGap;
      pendingGap := 0;
      if tailEnd > 0 && sent >= tailEnd {
        sent := cfg.prefix;
        tailEnd := 0;
      }
      sendEnd := sent;
      ring := Confirmed(cfg, r);
    }

    /**
     * The next batch, with Prefix bytes of header scratch before its payload; None when nothing is queued. The
     * payload is the encoding of the frames the take removes, whole frames from the head of the queue. The slice's
     * capacity exceeds its end by Suffix exactly when the footer scratch was granted.
     */
    method TakeSendSlice() returns (slice: Option<Slice>)
      requires Valid()
      modifies this
      ensures Valid() && buf == old(buf) && buf[..] == old(buf[..]) && oldBuf == buf && flight == slice
      ensures ring == Take(cfg, old(ring)).ring && batch == Take(cfg, old(ring)).batch
      ensures slice.None? <==> old(Queue()) == []
      ensures slice.Some? ==>
        slice.value == Slice(buf, sent - cfg.prefix, sendEnd, sendEnd + pendingGap) && Payload() == Encode(batch)
      ensures batch + Queue() == old(Queue())
    {
      ghost var r := ring;
      TakeRemovesPrefix(cfg, r);
      ConfirmPrevious();
      ConfirmedKeepsQueue(cfg, r);
      slice := CutBatch();
    }

    /** The second half of a take: cuts the batch at a frame boundary and grants the footer scratch if it can. */
    method CutBatch() returns (slice: Option<Slice>)
      requires Valid() && NothingInFlight(cfg, ring) && flight == None && oldBuf == buf
      modifies this`sent, this`sendEnd, this`write, this`pendingGap, this`ring, this`flight, this`batch
      ensures Valid() && flight == slice
      ensures ring == TakeConfirmed(cfg, old(ring)).ring && batch == TakeConfirmed(cfg, old(ring)).batch
      ensures slice.None? <==> batch == []
      ensures slice.Some? ==> slice.value == Slice(buf, sent - cfg.prefix, sendEnd, sendEnd + pendingGap)
    {
      FrontStretch(cfg, ring, buf[..]);
      hide Holds;
      hide NothingInFlight;
      hide BipRing.Valid;
      hide Encode;
      if tailEnd == 0 && sent >= write {
        Drained();
        return None;
      }
      var limit := if tailEnd > 0 then tailEnd else write;
      var end := FrameAlignedEnd(sent, limit, ring.front);
      slice := CutAt(end);
    }

    /** Nothing is queued: back to the base. */
    method Drained()
      requires Valid() && NothingInFlight(cfg, ring) && ring.front == [] && flight == None
      modifies this`sent, this`sendEnd, this`write, this`ring, this`batch
      ensures Valid() && ring == TakeConfirmed(cfg, old(ring)).ring && batch == []
    {
      HoldsAfterTake(cfg, ring, buf[..]);
      sent, sendEnd, write := cfg.prefix, cfg.prefix, cfg.prefix;
      ring, batch := TakeConfirmed(cfg, ring).ring, [];
    }

    /** Moves the cursors past end, and past a footer scratch if the queue is drained and there is room. */
    method MoveTo(end: nat)
      modifies this`sendEnd, this`write, this`pendingGap
      ensures sendEnd == end
      ensures var grant := tailEnd == 0 && cfg.suffix > 0 && end == old(write) && buf.Length - old(write) >= cfg.suffix;
        && write == (if grant then old(write) + cfg.suffix else old(write))
        && pendingGap == (if grant then cfg.suffix else old(pendingGap))
    {
      sendEnd := end;
      if tailEnd == 0 && cfg.suffix > 0 && sendEnd == write && buf.Length - write >= cfg.suffix {
        write := write + cfg.suffix;
        pendingGap := cfg.suffix;
      }
    }

    /** Hands out everything up to end, with a footer scratch if the queue is drained and there is room. */
    method CutAt(end: nat) returns (slice: Option<Slice>)
      requires Valid() && NothingInFlight(cfg, ring) && ring.front != [] && flight == None && oldBuf == buf
      requires end == sent + Size(ring.front[..BatchCount(cfg, ring.front)])
      modifies this`sendEnd, this`write, this`pendingGap, this`ring, this`flight, this`batch
      ensures Valid() && flight == slice && batch != []
      ensures ring == TakeConfirmed(cfg, old(ring)).ring && batch == TakeConfirmed(cfg, old(ring)).batch
      ensures slice == Some(Slice(buf, sent - cfg.prefix, sendEnd, sendEnd + pendingGap))
    {
      ghost var t := TakeConfirmed(cfg, ring);
      TakeSplitsQueue(cfg, ring);
      HoldsAfterTake(cfg, ring, buf[..]);
      SizeNonempty(ring.front);
      MoveTo(end);
      slice := HandOut(t.ring, t.batch);
    }

    /** The slice between the cursors, which have reached those of next. */
    method HandOut(ghost next: Ring, ghost frames: seq<Frame>) returns (slice: Option<Slice>)
      requires BipRing.Valid(cfg, next) && Holds(cfg, next, buf[..]) && oldBuf == buf && frames != []
      requires next.cap == buf.Length && next.sent == sent && next.sendEnd == sendEnd && next.write == write
      requires next.tailEnd == tailEnd && next.pendingGap == pendingGap
      requires sent <= sendEnd <= buf.Length && buf[sent..sendEnd] == Encode(frames)
      modifies this`ring, this`flight, this`batch
      ensures Valid() && flight == slice && ring == next && batch == frames
      ensures slice == Some(Slice(buf, sent - cfg.prefix, sendEnd, sendEnd + pendingGap))
    {
      ring, batch := next, frames;
      slice := Some(Slice(buf, sent - cfg.prefix, sendEnd, sendEnd + pendingGap));
      flight := slice;
    }

    /**
     * The next single frame, without its length header; None when nothing is queued. It ends within its stretch, so
     * the source's comparisons of the end with Write and TailEnd always pass, and its second half, reached when the
     * upper stretch ends in a partial frame, is dead.
     */
    method PopReadFrame() returns (frame: Option<Slice>)
      requires Valid()
      modifies this
      ensures Valid() && buf == old(buf) && buf[..] == old(buf[..]) && flight == None
      ensures ring == Pop(cfg, old(ring)).0
      ensures frame.None? <==> old(Queue()) == []
      ensures frame.Some? ==>
        && frame.value.arr == buf && frame.value.start <= frame.value.end == sendEnd <= buf.Length
        && Pop(cfg, old(ring)).1 == Some(buf[frame.value.start..frame.value.end])
      ensures frame.Some? ==> frame.value.end <= if tailEnd == 0 then write else tailEnd
      ensures frame.Some? ==> old(Queue()) == [buf[frame.value.start..frame.value.end]] + Queue()
    {
      ghost var r := ring;
      PopRemovesHead(cfg, r);
      ConfirmPrevious();
      ConfirmedKeepsQueue(cfg, r);
      frame := CutFrame();
    }

    method CutFrame() returns (frame: Option<Slice>)
      requires Valid() && NothingInFlight(cfg, ring) && flight == None
      modifies this`sent, this`sendEnd, this`write, this`ring
      ensures Valid() && ring == PopConfirmed(cfg, old(ring)).0
      ensures frame.None? <==> PopConfirmed(cfg, old(ring)).1.None?
      ensures frame.Some? ==>
        && frame.value.arr == buf && frame.value.start <= frame.value.end == sendEnd <= buf.Length
        && PopConfirmed(cfg, old(ring)).1 == Some(buf[frame.value.start..frame.value.end])
      ensures frame.Some? ==> frame.value.end <= if tailEnd == 0 then write else tailEnd
    {
      SizeNonempty(ring.front);
      if tailEnd == 0 && sent + 2 > write {
        NothingToPop();
        frame := None;
      } else {
        frame := HeadFrame();
      }
    }

    /** Nothing is queued: back to the base. */
    method NothingToPop()
      requires Valid() && NothingInFlight(cfg, ring) && flight == None && ring.front == []
      modifies this`sent, this`sendEnd, this`write, this`ring
      ensures Valid() && ring == PopConfirmed(cfg, old(ring)).0 && PopConfirmed(cfg, old(ring)).1.None?
    {
      ring := PopConfirmed(cfg, ring).0;
      if sent >= write {
        sent, sendEnd, write := cfg.prefix, cfg.prefix, cfg.prefix;
      }
    }

    /** Passes the frame at the head of the queue. */
    method HeadFrame() returns (frame: Option<Slice>)
      requires Valid() && NothingInFlight(cfg, ring) && flight == None && ring.front != []
      modifies this`sent, this`sendEnd, this`ring
      ensures Valid() && ring == PopConfirmed(cfg, old(ring)).0
      ensures frame.Some? && frame.value.arr == buf && frame.value.start <= frame.value.end == sendEnd <= buf.Length
      ensures PopConfirmed(cfg, old(ring)).1 == Some(buf[frame.value.start..frame.value.end])
      ensures frame.value.end <= if tailEnd == 0 then write else tailEnd
    {
      ghost var next := PopConfirmed(cfg, ring).0;
      PopIsHeld(cfg, ring, buf[..]);
      hide Holds;
      hide BipRing.Valid;
      hide NothingInFlight;
      hide PopConfirmed;
      var start := sent + 2;
      var end := start + FromLe16(buf[sent], buf[sent + 1]);
      frame := Some(Slice(buf, start, end, end));
      Pass(end, next);
    }

    /** Moves the read cursors to end, which is where those of next are. */
    method Pass(end: nat, ghost next: Ring)
      requires Linked() && flight == None && BipRing.Valid(cfg, next) && Holds(cfg, next, buf[..])
      requires next == ring.(sent := end, sendEnd := end, front := next.front)
      modifies this`sent, this`sendEnd, this`ring
      ensures Valid() && ring == next && sent == sendEnd == end
    {
      sent, sendEnd := end, end;
      ring := next;
    }

    method FreeForAllocNow() returns (free: nat)
      requires Valid()
      ensures free == FreeForAlloc(cfg, ring)
    {
      var queueLen := if tailEnd == 0 then write - sendEnd else (tailEnd - sendEnd) + (write - cfg.prefix);
      var used := cfg.prefix + queueLen;
      if used >= cfg.maxCap {
        return 0;
      }
      return cfg.maxCap - used;
    }

    /** Drops everything queued, keeping the array. */
    method Reset()
      requires Valid()
      modifies this
      ensures Valid() && ring == ResetRing(cfg, old(ring)) && Queue() == [] && buf == old(buf) && flight == None
    {
      sent, sendEnd, write := cfg.prefix, cfg.prefix, cfg.prefix;
      tailEnd := 0;
      pendingGap := 0;
      oldBuf := null;
      ring, flight, batch := ResetRing(cfg, ring), None, [];
    }

    // ------------------------------------------------------------ the sender, outside the lock

    /** The sender writes data into scratch outside the payload, where nothing is queued. */
    method PutScratch(s: Slice, at: nat, data: seq<byte>)
      requires Valid() && flight == Some(s) && at + |data| <= s.arr.Length
      requires at + |data| <= s.start + cfg.prefix || s.end <= at
      requires s.arr == buf ==> forall i :: at <= i < at + |data| ==> !Queued(cfg, ring, i)
      modifies s.arr
      ensures Valid() && Payload() == old(Payload()) && s.arr[at..at + |data|] == data
    {
      ghost var was := s.arr[..];
      PutBytes(s.arr, at, data);
      SameSlice(was, s.arr[..], at, at + |data|, s.start + cfg.prefix, s.end);
      if s.arr == buf {
        HoldsUnderScratch(cfg, ring, was, s.arr[..], at, at + |data|);
      }
    }

    /** The bytes of the buffer survive this header in front of the slice in flight. */
    ghost predicate HeaderFits(header: seq<byte>)
      reads this, buf
      requires Linked() && BipRing.Valid(cfg, ring) && FlightOk() && flight.Some? && |header| <= cfg.prefix
    {
      flight.value.arr != buf || buf.Length == 0 || Survives(cfg, ring, buf[..], header)
    }

    /**
     * The sender writes a header right-aligned into the scratch before the payload. The payload stays what it is; the
     * queue stays what it is exactly when the buffer has moved since the take, or no queued byte lies under the
     * header, or those that do equal the header's own.
     */
    method WriteHeader(s: Slice, header: seq<byte>)
      requires Valid() && flight == Some(s) && |header| <= cfg.prefix
      modifies s.arr
      ensures Linked() && BipRing.Valid(cfg, ring) && FlightOk() && Payload() == old(Payload()) == Encode(batch)
      ensures s.arr[s.start + cfg.prefix - |header|..s.end] == header + Payload()
      ensures s.arr[..] == Overwrite(old(s.arr[..]), s.start + cfg.prefix - |header|, header)
      ensures Valid() <==> old(HeaderFits(header))
    {
      hide Overwrite;
      hide Encode;
      hide Holds;
      hide BipRing.Valid;
      hide Survives;
      ghost var was := s.arr[..];
      PutBefore(s, header);
      if s.arr == buf && buf.Length > 0 {
        HeaderIsHarmlessIff(cfg, ring, was, header);
      }
    }

    /** Writes the header into the array of the slice. */
    method PutBefore(s: Slice, header: seq<byte>)
      requires FlightOk() && flight == Some(s) && |header| <= cfg.prefix
      modifies s.arr
      ensures s.arr[..] == Overwrite(old(s.arr[..]), s.start + cfg.prefix - |header|, header)
      ensures Payload() == old(Payload())
      ensures s.arr[s.start + cfg.prefix - |header|..s.end] == header + Payload()
    {
      var data := s.start + cfg.prefix;
      ghost var was := s.arr[..];
      PutBytes(s.arr, data - |header|, header);
      SameSlice(was, s.arr[..], data - |header|, data, data, s.end);
      Adjoin(s.arr[..], data - |header|, data, s.end, header);
      OverwriteIs(was, s.arr[..], data - |header|, header);
    }

    /** The sender writes a footer into the scratch granted after the payload; no queued byte is ever there. */
    method WriteFooter(s: Slice, footer: seq<byte>)
      requires Valid() && flight == Some(s) && s.end + |footer| <= s.limit
      modifies s.arr
      ensures Valid() && Payload() == old(Payload())
      ensures s.arr[s.start + cfg.prefix..s.end + |footer|] == Payload() + footer
    {
      PutScratch(s, s.end, footer);
      SliceJoin(s.arr[..], s.start + cfg.prefix, s.end, s.end + |footer|);
    }
  }
}
