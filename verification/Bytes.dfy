/** Bytes and the fixed-width integers that cross the wire. Strings of the protocol are byte sequences. */
module Bytes {
  newtype byte = x: int | 0 <= x < 256

  datatype Option<+T> = None | Some(value: T)

  datatype Result<+T> = Ok(value: T) | Err(message: string)

  /** Two bytes, least significant first (encoding/binary LittleEndian.PutUint16). */
  function Le16(n: nat): (r: seq<byte>)
    requires n < 65536
    ensures |r| == 2 && FromLe16(r[0], r[1]) == n
  {
    [(n % 256) as byte, (n / 256) as byte]
  }

  function FromLe16(low: byte, high: byte): (n: nat)
    ensures n < 65536
  {
    low as nat + 256 * (high as nat)
  }

  /** n bytes, least significant first. */
  function LittleEndian(value: nat, n: nat): (r: seq<byte>)
    ensures |r| == n
  {
    if n == 0 then [] else [(value % 256) as byte] + LittleEndian(value / 256, n - 1)
  }

  /** Byte i of value, counted from the least significant. */
  function ByteOf(value: nat, i: nat): byte {
    if i == 0 then (value % 256) as byte else ByteOf(value / 256, i - 1)
  }

  lemma {:induction false} LittleEndianAt(value: nat, n: nat, k: nat)
    requires k < n
    ensures LittleEndian(value, n)[k] == ByteOf(value, k)
  {
    if k > 0 {
      LittleEndianAt(value / 256, n - 1, k - 1);
    }
  }

  function FromLittleEndian(s: seq<byte>): nat {
    if s == [] then 0 else s[0] as nat + 256 * FromLittleEndian(s[1..])
  }

  function Pow2(n: nat): (r: nat)
    ensures r > 0
  {
    if n == 0 then 1 else 2 * Pow2(n - 1)
  }

  function Pow256(n: nat): (r: nat)
    ensures r > 0
  {
    if n == 0 then 1 else 256 * Pow256(n - 1)
  }

  /** A value that fits in n bytes survives the trip through them. */
  lemma {:induction false} LittleEndianRoundTrip(value: nat, n: nat)
    requires value < Pow256(n)
    ensures FromLittleEndian(LittleEndian(value, n)) == value
  {
    if n > 0 {
      LittleEndianRoundTrip(value / 256, n - 1);
    }
  }

  function Concat<T>(parts: seq<seq<T>>): seq<T> {
    if parts == [] then [] else parts[0] + Concat(parts[1..])
  }

  /** b2 differs from b at most inside [lo, hi). */
  ghost predicate SameOutside<T>(b: seq<T>, b2: seq<T>, lo: int, hi: int) {
    |b| == |b2| && forall i :: 0 <= i < |b| && !(lo <= i < hi) ==> b2[i] == b[i]
  }

  /** A stretch of b untouched by writes elsewhere. */
  lemma SameSlice<T>(b: seq<T>, b2: seq<T>, lo: int, hi: int, x: nat, y: nat)
    requires SameOutside(b, b2, lo, hi) && x <= y <= |b| && (y <= lo || hi <= x)
    ensures b2[x..y] == b[x..y]
  {
  }

  /** Writes data into dst from position at on. */
  method PutBytes(dst: array<byte>, at: nat, data: seq<byte>)
    requires at + |data| <= dst.Length
    modifies dst
    ensures dst[at..at + |data|] == data
    ensures SameOutside(old(dst[..]), dst[..], at, at + |data|)
  {
    forall i | 0 <= i < |data| {
      dst[at + i] := data[i];
    }
  }

  lemma Associative<T>(a: seq<T>, b: seq<T>, c: seq<T>)
    ensures a + (b + c) == (a + b) + c
  {
  }

  lemma SliceOfSlice<T>(s: seq<T>, x: nat, y: nat, lo: nat, hi: nat)
    requires lo <= hi && x + hi <= y <= |s|
    ensures s[x..y][lo..hi] == s[x + lo..x + hi]
  {
    forall i | 0 <= i < hi - lo
      ensures s[x..y][lo..hi][i] == s[x + lo..x + hi][i]
    {
      assert s[x..y][lo + i] == s[x + lo + i];
    }
  }

  lemma SliceJoin<T>(s: seq<T>, x: nat, y: nat, z: nat)
    requires x <= y <= z <= |s|
    ensures s[x..z] == s[x..y] + s[y..z]
  {
  }

  lemma DropDrop<T>(s: seq<T>, x: nat, k: nat)
    requires x + k <= |s|
    ensures s[x..][k..] == s[x + k..]
  {
  }

  lemma SliceOfDrop<T>(s: seq<T>, x: nat, lo: nat, hi: nat)
    requires lo <= hi && x + hi <= |s|
    ensures s[x..][lo..hi] == s[x + lo..x + hi]
  {
    assert s[x..] == s[x..|s|];
    SliceOfSlice(s, x, |s|, lo, hi);
  }

  lemma TakeDropConcat<T>(a: seq<T>, b: seq<T>)
    ensures (a + b)[..|a|] == a && (a + b)[|a|..] == b
  {
  }

  lemma ThreeParts<T>(a: seq<T>, b: seq<T>, c: seq<T>)
    ensures var s := a + (b + c); s[|a|..|a| + |b|] == b && s[|a| + |b|..] == c
  {
  }

  lemma ConcatOne<T>(part: seq<T>)
    ensures Concat([part]) == part
  {
    assert [part][1..] == [];
  }

  lemma {:induction false} ConcatAppend<T>(a: seq<seq<T>>, b: seq<seq<T>>)
    ensures Concat(a + b) == Concat(a) + Concat(b)
  {
    if a == [] {
      assert a + b == b;
    } else {
      ConcatAppend(a[1..], b);
      assert (a + b)[1..] == a[1..] + b && (a + b)[0] == a[0];
      Associative(a[0], Concat(a[1..]), Concat(b));
    }
  }
}
