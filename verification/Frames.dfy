/**
 * The sub-frame layer shared by the write buffer and the wire:
 * a payload is a run of frames, each a 16-bit little-endian length followed by that many bytes.
 */
module Frames {
  import opened Bytes

  type Frame = f: seq<byte> | 0 < |f| < 65536 witness [0]

  /** Bytes of one frame with its length header. */
  function EncodeFrame(f: Frame): (r: seq<byte>)
    ensures |r| == 2 + |f|
  {
    Le16(|f|) + f
  }

  function Encode(fs: seq<Frame>): seq<byte> {
    if fs == [] then [] else EncodeFrame(fs[0]) + Encode(fs[1..])
  }

  /** Size in bytes of a run of frames, length headers included. */
  function Size(fs: seq<Frame>): nat {
    if fs == [] then 0 else 2 + |fs[0]| + Size(fs[1..])
  }

  lemma {:induction false} SizeIsLength(fs: seq<Frame>)
    ensures |Encode(fs)| == Size(fs)
    ensures fs == [] || Size(fs) >= 3
  {
    if fs != [] {
      SizeIsLength(fs[1..]);
    }
  }

  lemma {:induction false} EncodeAppend(a: seq<Frame>, b: seq<Frame>)
    ensures Encode(a + b) == Encode(a) + Encode(b)
    ensures Size(a + b) == Size(a) + Size(b)
  {
    if a == [] {
      assert a + b == b;
    } else {
      EncodeAppend(a[1..], b);
      assert (a + b)[1..] == a[1..] + b;
      assert (a + b)[0] == a[0];
      Associative(EncodeFrame(a[0]), Encode(a[1..]), Encode(b));
    }
  }

  lemma EncodeSnoc(a: seq<Frame>, f: Frame)
    ensures Encode(a + [f]) == Encode(a) + EncodeFrame(f)
    ensures Size(a + [f]) == Size(a) + 2 + |f|
  {
    EncodeAppend(a, [f]);
    assert [f][1..] == [];
  }

  /** The size half of the two lemmas above, for reasoning that never looks at bytes. */
  lemma SizeAppend(a: seq<Frame>, b: seq<Frame>)
    ensures Size(a + b) == Size(a) + Size(b)
  {
    EncodeAppend(a, b);
  }

  lemma SizeSnoc(a: seq<Frame>, f: Frame)
    ensures Size(a + [f]) == Size(a) + 2 + |f|
  {
    EncodeSnoc(a, f);
  }

  lemma SizeNonempty(fs: seq<Frame>)
    ensures fs == [] <==> Size(fs) == 0
    ensures fs == [] || Size(fs) >= 3
  {
    SizeIsLength(fs);
  }

  lemma SizeSplit(fs: seq<Frame>, k: nat)
    requires k <= |fs|
    ensures Encode(fs) == Encode(fs[..k]) + Encode(fs[k..])
    ensures Size(fs) == Size(fs[..k]) + Size(fs[k..])
  {
    assert fs == fs[..k] + fs[k..];
    EncodeAppend(fs[..k], fs[k..]);
  }

  /** Frame k of an encoded run sits, header first, right after the frames before it. */
  lemma FrameAt(fs: seq<Frame>, k: nat)
    requires k < |fs|
    ensures |Encode(fs)| == Size(fs)
    ensures Size(fs[..k]) + 2 + |fs[k]| == Size(fs[..k + 1]) <= Size(fs)
    ensures Encode(fs)[Size(fs[..k])..Size(fs[..k + 1])] == EncodeFrame(fs[k])
  {
    SizeIsLength(fs);
    SizeIsLength(fs[..k]);
    SizeSplit(fs, k + 1);
    assert fs[..k + 1] == fs[..k] + [fs[k]];
    EncodeSnoc(fs[..k], fs[k]);
  }

  lemma FrameHeader(s: seq<byte>, x: nat, f: Frame)
    requires x + 2 + |f| <= |s| && s[x..x + 2 + |f|] == EncodeFrame(f)
    ensures FromLe16(s[x], s[x + 1]) == |f| && s[x + 2..x + 2 + |f|] == f
  {
    var e := s[x..x + 2 + |f|];
    assert e[0] == s[x] && e[1] == s[x + 1];
    SliceOfSlice(s, x, x + 2 + |f|, 2, 2 + |f|);
    TakeDropConcat(Le16(|f|), f);
  }

  /** A frame on the wire: its length, low byte first, and its bytes. */
  lemma FrameLayout(f: Frame)
    ensures EncodeFrame(f) == [(|f| % 256) as byte, (|f| / 256) as byte] + f
  {
    assert Le16(|f|) == [(|f| % 256) as byte, (|f| / 256) as byte];
  }

  /** A frame read off the front of a payload is the frame encoded there. */
  lemma FrameBack(data: seq<byte>, n: nat)
    requires |data| >= 2 + n && n == FromLe16(data[0], data[1]) > 0
    ensures data == EncodeFrame(data[2..2 + n]) + data[2 + n..]
  {
    assert Le16(n) == data[..2];
    hide Le16;
    hide FromLe16;
    SliceJoin(data, 0, 2, 2 + n);
    assert data[0..2] == data[..2] && data[0..2 + n] == data[..2 + n];
  }

  /** What the reader's splitting loop makes of a payload: the frames, or None for a malformed payload. */
  function Split(data: seq<byte>): (r: Option<seq<Frame>>)
    ensures r.Some? ==> Encode(r.value) == data
  {
    if data == [] then Some([])
    else if |data| < 2 then None
    else
      var n := FromLe16(data[0], data[1]);
      if n == 0 || |data| < 2 + n then None
      else
        var f: Frame := data[2..2 + n];
        match Split(data[2 + n..])
        case None => None
        case Some(rest) =>
          FrameBack(data, n);
          assert ([f] + rest)[1..] == rest;
          Some([f] + rest)
  }

  /** Splitting inverts encoding. */
  lemma {:induction false} SplitEncode(fs: seq<Frame>)
    ensures Split(Encode(fs)) == Some(fs)
  {
    if fs != [] {
      var data := Encode(fs);
      SplitEncode(fs[1..]);
      assert data[0] == Le16(|fs[0]|)[0] && data[1] == Le16(|fs[0]|)[1];
      assert data[2..2 + |fs[0]|] == fs[0];
      assert data[2 + |fs[0]|..] == Encode(fs[1..]);
      assert fs == [fs[0]] + fs[1..];
    }
  }

  /** A run of frames is determined by its bytes. */
  lemma EncodeInjective(a: seq<Frame>, b: seq<Frame>)
    requires Encode(a) == Encode(b)
    ensures a == b
  {
    SplitEncode(a);
    SplitEncode(b);
  }
}
