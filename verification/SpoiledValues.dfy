/** A run in which a value reaches the client spoiled: the header of one batch lands on the frame queued behind it. */
module SpoiledValues {
  import opened Bytes
  import opened Chunks
  import opened Delivery
  import opened Packing
  import opened WebSocket
  import opened WireOverlap
  import Codec
  import WireRun

  /** v as the client gets it when the header of a batch holding only b's message lands on its last two bytes. */
  function SpoiledValue(v: Value, b: Value): Value
    requires |v.liveData| >= 2 && MetaOk(b) && TailMeta(b) + |b.liveData| <= 123
  {
    v.(liveData := v.liveData[..|v.liveData| - 2] + Header(2, 2 + TailMeta(b) + |b.liveData|, None))
  }

  /** The bytes of v's message in front of its live data. */
  function Before(v: Value): seq<byte>
    requires Codec.Encodable(Whole(v))
  {
    [Codec.Cmd(Whole(v))] + (Codec.Str16(v.roomId) + (Codec.Str8(v.roomEpoch) + (Codec.Uvarint(v.changeSeq)
    + (Codec.Str8(v.cVersionId) + Le16(|v.liveData|)))))
  }

  lemma LiveDataIsLast(v: Value)
    requires Codec.Encodable(Whole(v))
    ensures Codec.Encode(Whole(v)) == Before(v) + v.liveData
  {
    var a, b, c, d := Codec.Str16(v.roomId), Codec.Str8(v.roomEpoch), Codec.Uvarint(v.changeSeq),
                      Codec.Str8(v.cVersionId);
    var e, f := Le16(|v.liveData|), v.liveData;
    Associative(d, e, f);
    Associative(c, d + e, f);
    Associative(b, c + (d + e), f);
    Associative(a, b + (c + (d + e)), f);
    Associative([Codec.Cmd(Whole(v))], a + (b + (c + (d + e))), f);
  }

  lemma SpoiledMessage(v: Value, b: Value)
    requires Fits(Whole(v)) && Fits(Whole(b)) && |v.liveData| >= 2 && |FrameOf(Whole(b))| <= 123
    ensures MetaOk(b) && |FrameOf(Whole(b))| == TailMeta(b) + |b.liveData| && |FrameOf(Whole(v))| >= 2
    ensures Fits(Whole(SpoiledValue(v, b)))
    ensures Spoiled(FrameOf(Whole(v)), FrameOf(Whole(b))) == FrameOf(Whole(SpoiledValue(v, b)))
  {
    WholeSize(b);
    var w, n := SpoiledValue(v, b), |v.liveData|;
    LiveDataIsLast(v);
    LiveDataIsLast(w);
    assert Before(w) == Before(v);
    hide Before;
    hide Codec.Encode;
    hide TailMeta;
    var f := Codec.Encode(Whole(v));
    assert f[..|f| - 2] == Before(v) + v.liveData[..n - 2];
    Associative(Before(v), v.liveData[..n - 2], Header(2, 2 + TailMeta(b) + |b.liveData|, None));
  }

  /** Three batches of one message each: the client delivers the three values. */
  lemma ThreeServed(a: Value, b: Value, c: Value, limit: nat)
    requires Fits(Whole(a)) && Fits(Whole(b)) && Fits(Whole(c))
    requires forall v :: v in [a, b, c] ==> |FrameOf(Whole(v))| + 2 <= MAX_WRITE
    ensures var batches := [[FrameOf(Whole(a))], [FrameOf(Whole(b))], [FrameOf(Whole(c))]];
      ServeAll(Fresh(), ReadAll(WireRun.Streamed(batches), MAX_WRITE), limit) == Reader(None, [a, b, c], false)
  {
    var msgs := [Whole(a), Whole(b), Whole(c)];
    var batches := [[FrameOf(Whole(a))], [FrameOf(Whole(b))], [FrameOf(Whole(c))]];
    ThreePacked(a, b, c);
    WrappedPayloads(batches);
    WrappedOk(batches, MAX_WRITE);
    StreamReadsBack(WireRun.Wrapped(batches), MAX_WRITE);
    ServeBatches(Fresh(), msgs, batches, limit);
    ThreeHandled(a, b, c, limit);
  }

  lemma ThreePacked(a: Value, b: Value, c: Value)
    requires Fits(Whole(a)) && Fits(Whole(b)) && Fits(Whole(c))
    ensures AllFit([Whole(a), Whole(b), Whole(c)])
    ensures Pack([Whole(a), Whole(b), Whole(c)]) == [FrameOf(Whole(a)), FrameOf(Whole(b)), FrameOf(Whole(c))]
    ensures Concat([[FrameOf(Whole(a))], [FrameOf(Whole(b))], [FrameOf(Whole(c))]])
         == Pack([Whole(a), Whole(b), Whole(c)])
  {
    var x, y, z := FrameOf(Whole(a)), FrameOf(Whole(b)), FrameOf(Whole(c));
    assert Pack([Whole(a), Whole(b), Whole(c)]) == [x, y, z] by {
      PackSnoc([Whole(a), Whole(b)], Whole(c));
      PackSnoc([Whole(a)], Whole(b));
      assert [Whole(a)][1..] == [] && Pack([Whole(a)]) == [x];
      assert [Whole(a)] + [Whole(b)] == [Whole(a), Whole(b)];
      assert [Whole(a), Whole(b)] + [Whole(c)] == [Whole(a), Whole(b), Whole(c)];
    }
    assert Concat([[x], [y], [z]]) == [x, y, z] by {
      ConcatOne([z]);
      assert [[x], [y], [z]][1..] == [[y], [z]] && [[y], [z]][1..] == [[z]];
    }
  }

  lemma ThreeHandled(a: Value, b: Value, c: Value, limit: nat)
    ensures HandleAll(Fresh(), [Whole(a), Whole(b), Whole(c)], limit) == Reader(None, [a, b, c], false)
  {
    var items := [Room(a), Room(b), Room(c)];
    assert [Whole(a), Whole(b), Whole(c)][1..] == [Whole(b), Whole(c)] && [Whole(b), Whole(c)][1..] == [Whole(c)];
    assert [Whole(c)][1..] == [];
    var r1 := Handle(Fresh(), Whole(a), limit);
    assert [] + a.liveData == a.liveData && [] + [a] == [a] && r1 == Reader(None, [a], false);
    var r2 := Handle(r1, Whole(b), limit);
    assert [] + b.liveData == b.liveData && [a] + [b] == [a, b] && r2 == Reader(None, [a, b], false);
    assert [] + c.liveData == c.liveData && [a, b] + [c] == [a, b, c];
    assert HandleAll(r2, [Whole(c)], limit) == HandleAll(Handle(r2, Whole(c), limit), [], limit);
  }

  /** The sizes of WireOverlap.HeaderSpoilsFrame for the messages of a, b and v. */
  ghost predicate Tight(c: Conn, a: Value, b: Value, v: Value) {
    && c.Sized() && Fits(Whole(a)) && Fits(Whole(b)) && Fits(Whole(v)) && |v.liveData| >= 2
    && Spoiling(c.Cfg(), FrameOf(Whole(a)), FrameOf(Whole(v)), FrameOf(Whole(b)))
  }

  /** Messages of 54, 38 and 54 bytes in a buffer of 128. */
  lemma TightSizes(limit: nat, a: Value, b: Value, v: Value)
    requires Fits(Whole(a)) && Fits(Whole(b)) && Fits(Whole(v)) && |v.liveData| >= 2
    requires |FrameOf(Whole(a))| == |FrameOf(Whole(v))| == 54 && |FrameOf(Whole(b))| == 38
    ensures Tight(Conn(128, 4, 0, limit), a, b, v)
  {
  }

  /** The state after a has been pushed and sent, b taken, v pushed, and both sent. */
  ghost function Outcome(c: Conn, a: Value, b: Value, v: Value): WireRun.State
    requires Tight(c, a, b, v)
  {
    WireOverlap.Outcome(c.Cfg(), FrameOf(Whole(a)), FrameOf(Whole(v)), FrameOf(Whole(b)))
  }

  lemma OutcomeIs(c: Conn, a: Value, b: Value, v: Value)
    requires Tight(c, a, b, v)
    ensures MetaOk(b) && |FrameOf(Whole(b))| == TailMeta(b) + |b.liveData| <= 121
    ensures var w := SpoiledValue(v, b);
      && Fits(Whole(w))
      && Outcome(c, a, b, v).base.accepted == Pack([Whole(a), Whole(b), Whole(v)])
      && Outcome(c, a, b, v).socket
         == WireRun.Streamed([[FrameOf(Whole(a))], [FrameOf(Whole(b))], [FrameOf(Whole(w))]])
      && (Outcome(c, a, b, v).mem.spoiled <==> FrameOf(Whole(w)) != FrameOf(Whole(v)))
  {
    hide WireOverlap.Outcome;
    hide WireRun.Streamed;
    SpoiledMessage(v, b);
    HeaderSpoilsFrame(c.Cfg(), FrameOf(Whole(a)), FrameOf(Whole(v)), FrameOf(Whole(b)));
    ThreePacked(a, b, v);
  }

  lemma SameFrameSameValue(v: Value, w: Value)
    requires Fits(Whole(v)) && Fits(Whole(w))
    ensures FrameOf(Whole(v)) == FrameOf(Whole(w)) <==> v == w
  {
    if FrameOf(Whole(v)) == FrameOf(Whole(w)) {
      Codec.EncodeInjective(Whole(v), Whole(w));
    }
  }

  /** The header is the value's own ending, or the value is another one. */
  lemma SpoiledIff(v: Value, b: Value)
    requires |v.liveData| >= 2 && MetaOk(b) && TailMeta(b) + |b.liveData| <= 123
    ensures SpoiledValue(v, b) == v
       <==> v.liveData[|v.liveData| - 2..] == Header(2, 2 + TailMeta(b) + |b.liveData|, None)
  {
    assert v.liveData == v.liveData[..|v.liveData| - 2] + v.liveData[|v.liveData| - 2..];
  }

  /**
   * The server's own sizes, a buffer of at most 128 bytes: all three values are accepted, the client delivers the
   * first two, and for the third one the header of the second where the last two bytes should be. It is another value
   * exactly if `spoiled` says so.
   */
  lemma ValueIsSpoiled(c: Conn, a: Value, b: Value, v: Value)
    requires Tight(c, a, b, v)
    ensures Outcome(c, a, b, v).base.accepted == Pack([Whole(a), Whole(b), Whole(v)])
    ensures MetaOk(b) && TailMeta(b) + |b.liveData| <= 121
    ensures ServeAll(Fresh(), ReadAll(Outcome(c, a, b, v).socket, MAX_WRITE), c.limit)
         == Reader(None, [a, b, SpoiledValue(v, b)], false)
    ensures SpoiledValue(v, b) == v
       <==> v.liveData[|v.liveData| - 2..] == Header(2, 2 + TailMeta(b) + |b.liveData|, None)
    ensures SpoiledValue(v, b) == v <==> !Outcome(c, a, b, v).mem.spoiled
  {
    hide Outcome;
    hide WireRun.Streamed;
    OutcomeIs(c, a, b, v);
    ThreeServed(a, b, SpoiledValue(v, b), c.limit);
    SpoiledIff(v, b);
    SameFrameSameValue(v, SpoiledValue(v, b));
  }
}
