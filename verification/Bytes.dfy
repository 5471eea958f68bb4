/** Byte strings and the slice operations that the Python tools use on them. */
module Bytes {
  type byte = x: int | 0 <= x < 256

  datatype Option<+T> = None | Some(value: T)

  datatype Result<+T, +E> = Ok(value: T) | Err(error: E)

  function Zeros(n: nat): (z: seq<byte>)
    ensures |z| == n
  {
    seq(n, _ => 0)
  }

  /** `s[lo:hi]` for non-negative bounds: out-of-range bounds are clamped. */
  function Slice<T>(s: seq<T>, lo: nat, hi: nat): seq<T> {
    var h := if hi < |s| then hi else |s|;
    if lo < h then s[lo..h] else []
  }

  /** `s[at:at+len(p)] = p` inside the bounds of `s`. */
  function Splice<T>(s: seq<T>, at: nat, p: seq<T>): (r: seq<T>)
    requires at + |p| <= |s|
    ensures |r| == |s|
  {
    s[..at] + p + s[at + |p|..]
  }

  /** A splice is read back exactly where it was written and nowhere else. */
  lemma SpliceReads<T>(s: seq<T>, at: nat, p: seq<T>, lo: nat, hi: nat)
    requires at + |p| <= |s| && lo <= hi <= |s|
    ensures hi <= at || at + |p| <= lo ==> Splice(s, at, p)[lo..hi] == s[lo..hi]
    ensures at <= lo && hi <= at + |p| ==> Splice(s, at, p)[lo..hi] == p[lo - at..hi - at]
  {
    var r := Splice(s, at, p);
    assert forall k | 0 <= k < at :: r[k] == s[k];
    assert forall k | at <= k < at + |p| :: r[k] == p[k - at];
    assert forall k | at + |p| <= k < |s| :: r[k] == s[k];
  }

  function Word(lo: byte, hi: byte): (w: nat)
    ensures w < 0x10000
  {
    lo + 256 * hi
  }

  function Lo(w: int): byte { w % 256 }

  function Hi(w: int): byte { w / 256 % 256 }

  lemma WordRoundTrip(w: nat)
    requires w < 0x10000
    ensures Word(Lo(w), Hi(w)) == w
  {
  }

  function Sum(s: seq<byte>): (n: nat) {
    if s == [] then 0 else Sum(s[..|s| - 1]) + s[|s| - 1]
  }

  lemma {:induction false} SumAppend(a: seq<byte>, b: seq<byte>)
    ensures Sum(a + b) == Sum(a) + Sum(b)
    decreases |b|
  {
    if b == [] {
      assert a + b == a;
    } else {
      var n := |b| - 1;
      assert (a + b)[..|a + b| - 1] == a + b[..n];
      SumAppend(a, b[..n]);
    }
  }

  lemma SumOfOne(b: byte)
    ensures Sum([]) == 0 && Sum([b]) == b as int
  {
    assert [b][..0] == [];
  }

  /** A changed byte changes the sum by the difference. */
  lemma SumChange(p: seq<byte>, j: nat, b: byte)
    requires j < |p|
    ensures Sum(p[j := b]) as int == Sum(p) - p[j] as int + b as int
  {
    var head, tail := p[..j], p[j + 1..];
    assert p == head + [p[j]] + tail && p[j := b] == head + [b] + tail;
    SumAppend(head + [p[j]], tail);
    SumAppend(head, [p[j]]);
    SumAppend(head + [b], tail);
    SumAppend(head, [b]);
    SumOfOne(p[j]);
    SumOfOne(b);
  }
}
