/** What writing a frame header in front of the batch in flight does to the queued bytes, exactly. */
module RingHeader {
  import opened Bytes
  import opened Frames
  import opened BipRing
  import opened RingBytes
  import opened RingScratch

  /** The test on cursors: the n bytes before the batch in flight hold nothing queued. */
  predicate HeaderClear(cfg: Config, r: Ring, n: nat) {
    n == 0 || r.tailEnd == 0 || r.write + n <= r.sent
  }

  lemma HeaderClearMeans(cfg: Config, r: Ring, n: nat)
    requires Valid(cfg, r) && n <= cfg.prefix
    ensures HeaderClear(cfg, r, n) <==> forall i :: r.sent - n <= i < r.sent ==> !Queued(cfg, r, i)
  {
    if !HeaderClear(cfg, r, n) {
      SizeNonempty(r.back);
      assert Queued(cfg, r, r.write - 1);
    }
  }

  /** b with data written at `at`. */
  function Overwrite(b: seq<byte>, at: nat, data: seq<byte>): (b2: seq<byte>)
    requires at + |data| <= |b|
    ensures SameOutside(b, b2, at, at + |data|) && b2[at..at + |data|] == data
  {
    b[..at] + data + b[at + |data|..]
  }

  lemma OverwriteIs(b: seq<byte>, b2: seq<byte>, at: nat, data: seq<byte>)
    requires at + |data| <= |b| && SameOutside(b, b2, at, at + |data|) && b2[at..at + |data|] == data
    ensures b2 == Overwrite(b, at, data)
  {
    var c := Overwrite(b, at, data);
    forall i | 0 <= i < |b| ensures b2[i] == c[i] {
      if at <= i < at + |data| {
        assert b2[at..at + |data|][i - at] == c[at..at + |data|][i - at];
      }
    }
  }

  /** Queued bytes are determined by the frames. */
  lemma HeldBytes(cfg: Config, r: Ring, was: seq<byte>, now: seq<byte>, i: int)
    requires Valid(cfg, r) && Holds(cfg, r, was) && Holds(cfg, r, now) && r.cap > 0 && Queued(cfg, r, i)
    ensures 0 <= i < |was| == |now| && now[i] == was[i]
  {
    var data, end := r.sendEnd + r.pendingGap, if r.tailEnd == 0 then r.write else r.tailEnd;
    if data <= i < end {
      assert now[data..end][i - data] == was[data..end][i - data];
    } else {
      assert now[cfg.prefix..r.write][i - cfg.prefix] == was[cfg.prefix..r.write][i - cfg.prefix];
    }
  }

  /** Equal on everything queued, the array holds the same frames. */
  lemma HoldsIfSame(cfg: Config, r: Ring, was: seq<byte>, now: seq<byte>)
    requires Valid(cfg, r) && Holds(cfg, r, was) && |now| == |was|
    requires forall i :: 0 <= i < |was| && Queued(cfg, r, i) ==> now[i] == was[i]
    ensures Holds(cfg, r, now)
  {
    if r.cap > 0 {
      var data, end := r.sendEnd + r.pendingGap, if r.tailEnd == 0 then r.write else r.tailEnd;
      assert now[data..end] == was[data..end];
      if r.tailEnd > 0 {
        assert now[cfg.prefix..r.write] == was[cfg.prefix..r.write];
      }
    }
  }

  /** A write leaves the queue intact if and only if it leaves every queued byte it covers as it was. */
  lemma WriteIsHarmlessIff(cfg: Config, r: Ring, was: seq<byte>, now: seq<byte>, lo: nat, hi: nat)
    requires Valid(cfg, r) && Holds(cfg, r, was) && r.cap > 0 && lo <= hi <= |was| && SameOutside(was, now, lo, hi)
    ensures Holds(cfg, r, now) <==> forall i :: lo <= i < hi && Queued(cfg, r, i) ==> now[i] == was[i]
  {
    if Holds(cfg, r, now) {
      forall i | lo <= i < hi && Queued(cfg, r, i) ensures now[i] == was[i] {
        HeldBytes(cfg, r, was, now, i);
      }
    } else if forall i :: lo <= i < hi && Queued(cfg, r, i) ==> now[i] == was[i] {
      HoldsIfSame(cfg, r, was, now);
    }
  }

  /** Writes where nothing is queued change nothing that is queued. */
  lemma HoldsUnderScratch(cfg: Config, r: Ring, was: seq<byte>, now: seq<byte>, lo: int, hi: int)
    requires Valid(cfg, r) && Holds(cfg, r, was) && SameOutside(was, now, lo, hi)
    requires forall i :: lo <= i < hi ==> !Queued(cfg, r, i)
    ensures Holds(cfg, r, now)
  {
    HoldsIfSame(cfg, r, was, now);
  }

  /**
   * The condition on cursors is exact: n bytes of header in front of the batch in flight are harmless, whatever they
   * are, if and only if nothing is queued under them.
   */
  lemma ClearIffHarmless(cfg: Config, r: Ring, b: seq<byte>, n: nat)
    requires Valid(cfg, r) && Holds(cfg, r, b) && r.cap > 0 && n <= cfg.prefix
    ensures r.sent <= |b|
    ensures HeaderClear(cfg, r, n)
      <==> forall h: seq<byte> :: |h| == n ==> Holds(cfg, r, Overwrite(b, r.sent - n, h))
  {
    SentInside(cfg, r);
    HeaderClearMeans(cfg, r, n);
    if HeaderClear(cfg, r, n) {
      forall h: seq<byte> | |h| == n ensures Holds(cfg, r, Overwrite(b, r.sent - n, h)) {
        HoldsUnderScratch(cfg, r, b, Overwrite(b, r.sent - n, h), r.sent - n, r.sent);
      }
    } else {
      var h := SpoiledHeader(cfg, r, b, n);
      assert !Holds(cfg, r, Overwrite(b, r.sent - n, h));
    }
  }

  lemma SentInside(cfg: Config, r: Ring)
    requires Shape(cfg, r) && r.cap > 0
    ensures r.sent <= r.cap
  {
    SizeNonempty(r.front);
  }

  /** The last queued byte lies under a header that is not clear. */
  lemma LastQueuedByte(cfg: Config, r: Ring, n: nat)
    requires Valid(cfg, r) && r.cap > 0 && n <= cfg.prefix && !HeaderClear(cfg, r, n)
    ensures r.sent - n <= r.write - 1 < r.sent <= r.cap && Queued(cfg, r, r.write - 1)
  {
    SentInside(cfg, r);
    SizeNonempty(r.back);
  }

  /** Bytes for the stretch that leave another one at i. */
  lemma ChangesByte(b: seq<byte>, lo: nat, hi: nat, i: nat) returns (h: seq<byte>)
    requires lo <= i < hi <= |b|
    ensures |h| == hi - lo && Overwrite(b, lo, h)[i] != b[i]
  {
    h := b[lo..hi][i - lo := if b[i] == 0 then 1 else 0];
    assert Overwrite(b, lo, h)[lo..hi][i - lo] == h[i - lo];
  }

  /** A header that spoils the last queued byte. */
  lemma SpoiledHeader(cfg: Config, r: Ring, b: seq<byte>, n: nat) returns (h: seq<byte>)
    requires Valid(cfg, r) && Holds(cfg, r, b) && r.cap > 0 && n <= cfg.prefix && !HeaderClear(cfg, r, n)
    ensures |h| == n && r.sent <= |b| && !Holds(cfg, r, Overwrite(b, r.sent - n, h))
  {
    assert |b| == r.cap;
    LastQueuedByte(cfg, r, n);
    hide Holds;
    hide Valid;
    hide Overwrite;
    hide Queued;
    hide HeaderClear;
    h := ChangesByte(b, r.sent - n, r.sent, r.write - 1);
    WriteIsHarmlessIff(cfg, r, b, Overwrite(b, r.sent - n, h), r.sent - n, r.sent);
  }

  /** The queued bytes under n bytes of header, when there are any. */
  function Under(cfg: Config, r: Ring, n: nat): int {
    if r.sent - n < cfg.prefix then cfg.prefix else r.sent - n
  }

  lemma QueuedUnder(cfg: Config, r: Ring, n: nat, i: int)
    requires Valid(cfg, r) && n <= cfg.prefix && !HeaderClear(cfg, r, n) && r.sent - n <= i < r.sent
    ensures Under(cfg, r, n) < r.write <= r.sent && (Queued(cfg, r, i) <==> Under(cfg, r, n) <= i < r.write)
  {
    SizeNonempty(r.back);
  }

  /** The queue survives header h over array b: nothing is queued under it, or the header's own bytes are. */
  predicate Survives(cfg: Config, r: Ring, b: seq<byte>, h: seq<byte>)
    requires Valid(cfg, r) && |b| == r.cap > 0 && |h| <= cfg.prefix
  {
    || HeaderClear(cfg, r, |h|)
    || var lo, at := Under(cfg, r, |h|), r.sent - |h|;
       UnderInside(cfg, r, |h|);
       b[lo..r.write] == h[lo - at..r.write - at]
  }

  lemma UnderInside(cfg: Config, r: Ring, n: nat)
    requires Valid(cfg, r) && n <= cfg.prefix && !HeaderClear(cfg, r, n)
    ensures r.sent - n <= Under(cfg, r, n) < r.write <= r.sent <= r.cap
  {
    SizeNonempty(r.back);
    SizeNonempty(r.front);
  }

  lemma SliceEqual(a: seq<byte>, b: seq<byte>, lo: nat, hi: nat)
    requires lo <= hi <= |a| && hi <= |b|
    ensures a[lo..hi] == b[lo..hi] <==> forall i :: lo <= i < hi ==> a[i] == b[i]
  {
    if a[lo..hi] == b[lo..hi] {
      forall i | lo <= i < hi ensures a[i] == b[i] {
        assert a[lo..hi][i - lo] == b[lo..hi][i - lo];
      }
    }
  }

  /**
   * A header with a given content: the queue survives it if and only if nothing is queued under it or the queued
   * bytes under it happen to be the header's own.
   */
  lemma HeaderIsHarmlessIff(cfg: Config, r: Ring, b: seq<byte>, h: seq<byte>)
    requires Valid(cfg, r) && Holds(cfg, r, b) && r.cap > 0 && |h| <= cfg.prefix
    ensures r.sent <= |b|
    ensures Holds(cfg, r, Overwrite(b, r.sent - |h|, h)) <==> Survives(cfg, r, b, h)
  {
    SentInside(cfg, r);
    if HeaderClear(cfg, r, |h|) {
      HeaderClearMeans(cfg, r, |h|);
      HoldsUnderScratch(cfg, r, b, Overwrite(b, r.sent - |h|, h), r.sent - |h|, r.sent);
    } else {
      UnderInside(cfg, r, |h|);
      CoveredIsHarmlessIff(cfg, r, b, h);
    }
  }

  lemma CoveredIsHarmlessIff(cfg: Config, r: Ring, b: seq<byte>, h: seq<byte>)
    requires Valid(cfg, r) && Holds(cfg, r, b) && |b| == r.cap > 0 && |h| <= cfg.prefix && !HeaderClear(cfg, r, |h|)
    requires r.sent - |h| <= Under(cfg, r, |h|) < r.write <= r.sent <= r.cap
    ensures var lo, at := Under(cfg, r, |h|), r.sent - |h|;
      Holds(cfg, r, Overwrite(b, at, h)) <==> b[lo..r.write] == h[lo - at..r.write - at]
  {
    hide Holds;
    hide Valid;
    var at := r.sent - |h|;
    var now := Overwrite(b, at, h);
    WriteIsHarmlessIff(cfg, r, b, now, at, r.sent);
    CoveredBytes(cfg, r, b, now, h);
  }

  /** The queued bytes under a header, as positions and as a slice. */
  lemma CoveredBytes(cfg: Config, r: Ring, b: seq<byte>, now: seq<byte>, h: seq<byte>)
    requires Valid(cfg, r) && |h| <= cfg.prefix && !HeaderClear(cfg, r, |h|)
    requires |b| == |now| == r.cap && r.sent <= r.cap && now[r.sent - |h|..r.sent] == h
    requires r.sent - |h| <= Under(cfg, r, |h|) < r.write <= r.sent
    ensures var lo, at := Under(cfg, r, |h|), r.sent - |h|;
      (forall i :: at <= i < r.sent && Queued(cfg, r, i) ==> now[i] == b[i])
      <==> b[lo..r.write] == h[lo - at..r.write - at]
  {
    hide Valid;
    var lo, at := Under(cfg, r, |h|), r.sent - |h|;
    SliceOfSlice(now, at, r.sent, lo - at, r.write - at);
    SliceEqual(now, b, lo, r.write);
    forall i | at <= i < r.sent ensures Queued(cfg, r, i) <==> lo <= i < r.write {
      QueuedUnder(cfg, r, |h|, i);
    }
  }
}
