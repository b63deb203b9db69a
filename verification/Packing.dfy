/** Messages as frames: each message that can be serialised, and is not too long, travels in a frame of its own. */
module Packing {
  import BipRing
  import Codec
  import Frames

  predicate Fits(m: Codec.Msg) { Codec.Encodable(m) && |Codec.Encode(m)| < 65536 }

  predicate AllFit(msgs: seq<Codec.Msg>) { forall m :: m in msgs ==> Fits(m) }

  /** The frame a message travels in. */
  function FrameOf(m: Codec.Msg): (f: Frames.Frame)
    requires Fits(m)
  {
    Codec.Encode(m)
  }

  /** A message a connection's write buffer takes: it can be serialised and fits a frame. */
  predicate Carried(cfg: BipRing.Config, m: Codec.Msg) {
    Fits(m) && BipRing.Legal(cfg, FrameOf(m))
  }

  /** One frame for each message. */
  function Pack(msgs: seq<Codec.Msg>): (fs: seq<Frames.Frame>)
    requires AllFit(msgs)
    ensures |fs| == |msgs|
  {
    if msgs == [] then []
    else
      assert msgs[0] in msgs;
      [FrameOf(msgs[0])] + Pack(msgs[1..])
  }

  lemma {:induction false} PackTake(msgs: seq<Codec.Msg>, k: nat)
    requires AllFit(msgs) && k <= |msgs|
    ensures AllFit(msgs[..k]) && AllFit(msgs[k..])
    ensures Pack(msgs)[..k] == Pack(msgs[..k]) && Pack(msgs)[k..] == Pack(msgs[k..])
    decreases k
  {
    hide Fits;
    hide FrameOf;
    if k > 0 {
      PackTake(msgs[1..], k - 1);
      assert msgs[1..][..k - 1] == msgs[..k][1..];
      assert msgs[1..][k - 1..] == msgs[k..];
    }
  }

  lemma PackAppend(a: seq<Codec.Msg>, b: seq<Codec.Msg>)
    requires AllFit(a) && AllFit(b)
    ensures AllFit(a + b) && Pack(a + b) == Pack(a) + Pack(b)
  {
    hide Fits;
    hide FrameOf;
    PackTake(a + b, |a|);
    assert (a + b)[..|a|] == a && (a + b)[|a|..] == b;
  }

  lemma PackSnoc(a: seq<Codec.Msg>, m: Codec.Msg)
    requires AllFit(a) && Fits(m)
    ensures AllFit(a + [m]) && Pack(a + [m]) == Pack(a) + [FrameOf(m)]
  {
    assert [m][1..] == [];
    PackAppend(a, [m]);
  }
}
