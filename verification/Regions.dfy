/** Byte buffers that are filled region by region, in ascending order. */
module Regions {
  import opened Bytes

  datatype Part = Part(at: nat, bytes: seq<byte>)

  function PartEnd(p: Part): nat { p.at + |p.bytes| }

  function EndOf(parts: seq<Part>): nat { if parts == [] then 0 else PartEnd(parts[|parts| - 1]) }

  /** Every part starts behind the one before it. */
  predicate Ascending(parts: seq<Part>) {
    forall i | 0 < i < |parts| :: PartEnd(parts[i - 1]) <= parts[i].at
  }

  predicate Holds(v: seq<byte>, p: Part) { PartEnd(p) <= |v| && v[p.at..PartEnd(p)] == p.bytes }

  /** `v` with the parts written to it. */
  function Assemble(v: seq<byte>, parts: seq<Part>): (r: seq<byte>)
    requires Ascending(parts) && EndOf(parts) <= |v|
    ensures |r| == |v|
  {
    if parts == [] then v
    else
      var n := |parts| - 1;
      assert parts[..n] != [] ==> parts[..n][n - 1] == parts[n - 1];
      Splice(Assemble(v, parts[..n]), parts[n].at, parts[n].bytes)
  }

  lemma {:induction false} EndsBelow(parts: seq<Part>, i: nat)
    requires Ascending(parts) && i < |parts|
    ensures PartEnd(parts[i]) <= EndOf(parts)
    decreases |parts|
  {
    var n := |parts| - 1;
    if i < n {
      EndsBelow(parts[..n], i);
    }
  }

  /** Afterwards every part is read where it was written, and everything else is as before. */
  lemma {:induction false} AssembleReads(v: seq<byte>, parts: seq<Part>)
    requires Ascending(parts) && EndOf(parts) <= |v|
    ensures forall i | 0 <= i < |parts| :: Holds(Assemble(v, parts), parts[i])
    ensures forall k | EndOf(parts) <= k < |v| :: Assemble(v, parts)[k] == v[k]
    decreases |parts|
  {
    hide Splice;
    if parts != [] {
      var n := |parts| - 1;
      var rest, p := parts[..n], parts[n];
      assert rest != [] ==> rest[n - 1] == parts[n - 1];
      AssembleReads(v, rest);
      var before := Assemble(v, rest);
      forall i | 0 <= i < |parts| ensures Holds(Splice(before, p.at, p.bytes), parts[i]) {
        if i < n {
          EndsBelow(rest, i);
          assert Holds(before, rest[i]);
          SpliceReads(before, p.at, p.bytes, parts[i].at, PartEnd(parts[i]));
        } else {
          SpliceReads(before, p.at, p.bytes, p.at, PartEnd(p));
        }
      }
      forall k | EndOf(parts) <= k < |v| ensures Splice(before, p.at, p.bytes)[k] == v[k] {
        SpliceReads(before, p.at, p.bytes, k, k + 1);
        assert before[k] == v[k];
        assert Splice(before, p.at, p.bytes)[k..k + 1][0] == before[k..k + 1][0];
      }
    }
  }

  /** Between the parts everything is as before. */
  lemma {:induction false} AssembleElsewhere(v: seq<byte>, parts: seq<Part>, k: nat)
    requires Ascending(parts) && EndOf(parts) <= |v| && k < |v|
    requires forall i | 0 <= i < |parts| :: k < parts[i].at || PartEnd(parts[i]) <= k
    ensures Assemble(v, parts)[k] == v[k]
    decreases |parts|
  {
    if parts != [] {
      var n := |parts| - 1;
      var rest := parts[..n];
      assert rest != [] ==> rest[n - 1] == parts[n - 1];
      AssembleElsewhere(v, rest, k);
      SpliceReads(Assemble(v, rest), parts[n].at, parts[n].bytes, k, k + 1);
      assert Splice(Assemble(v, rest), parts[n].at, parts[n].bytes)[k..k + 1][0] == Assemble(v, rest)[k..k + 1][0];
    }
  }

  lemma PrefixAscends(parts: seq<Part>, i: nat, n: nat)
    requires Ascending(parts) && EndOf(parts) <= n && i <= |parts|
    ensures Ascending(parts[..i]) && EndOf(parts[..i]) <= n
    ensures i < |parts| ==> PartEnd(parts[i]) <= n
  {
    if i < |parts| {
      EndsBelow(parts, i);
    }
    if i > 0 {
      EndsBelow(parts, i - 1);
    }
  }

  lemma AssembleLast(v: seq<byte>, parts: seq<Part>, i: nat)
    requires i < |parts| && PartEnd(parts[i]) <= |v|
    requires Ascending(parts[..i]) && EndOf(parts[..i]) <= |v|
    requires Ascending(parts[..i + 1]) && EndOf(parts[..i + 1]) <= |v|
    ensures Assemble(v, parts[..i + 1]) == Splice(Assemble(v, parts[..i]), parts[i].at, parts[i].bytes)
  {
    hide Ascending, Splice;
    assert parts[..i + 1][..i] == parts[..i];
  }

  lemma AssembleMore(v: seq<byte>, parts: seq<Part>, i: nat)
    requires Ascending(parts) && EndOf(parts) <= |v| && i < |parts|
    ensures Ascending(parts[..i + 1]) && EndOf(parts[..i + 1]) <= |v|
    ensures Ascending(parts[..i]) && EndOf(parts[..i]) <= |v| && PartEnd(parts[i]) <= |v|
    ensures Assemble(v, parts[..i + 1]) == Splice(Assemble(v, parts[..i]), parts[i].at, parts[i].bytes)
  {
    hide Ascending, EndOf, Assemble, Splice;
    PrefixAscends(parts, i, |v|);
    PrefixAscends(parts, i + 1, |v|);
    AssembleLast(v, parts, i);
  }

  /** What lies below the first part is as before. */
  lemma {:induction false} AssembleKeeps(v: seq<byte>, parts: seq<Part>, n: nat)
    requires Ascending(parts) && EndOf(parts) <= |v| && n <= |v| && (parts != [] ==> n <= parts[0].at)
    ensures Assemble(v, parts)[..n] == v[..n]
    decreases |parts|
  {
    hide Splice;
    if parts != [] {
      var m := |parts| - 1;
      var rest, p := parts[..m], parts[m];
      PrefixAscends(parts, m, |v|);
      if m > 0 {
        EndsBelow(rest, 0);
      }
      AssembleKeeps(v, rest, n);
      SpliceReads(Assemble(v, rest), p.at, p.bytes, 0, n);
    }
  }

  lemma SuffixAscends(parts: seq<Part>, i: nat)
    requires Ascending(parts) && i <= |parts|
    ensures Ascending(parts[i..]) && EndOf(parts[i..]) <= EndOf(parts)
  {
    var rest := parts[i..];
    forall k | 0 < k < |rest| ensures PartEnd(rest[k - 1]) <= rest[k].at {
      assert rest[k] == parts[i + k] && rest[k - 1] == parts[i + k - 1];
    }
  }

  /** `v[at:at+len(p)] = p`, which makes the buffer longer if need be. */
  function Patch(v: seq<byte>, at: nat, p: seq<byte>): seq<byte> {
    Slice(v, 0, at) + p + Slice(v, at + |p|, |v|)
  }

  lemma PatchReads(v: seq<byte>, at: nat, p: seq<byte>)
    requires at <= |v|
    ensures |Patch(v, at, p)| == if at + |p| > |v| then at + |p| else |v|
    ensures Patch(v, at, p)[..at] == v[..at] && Patch(v, at, p)[at..at + |p|] == p
    ensures at + |p| <= |v| ==> Patch(v, at, p) == Splice(v, at, p) && Patch(v, at, p)[at + |p|..] == v[at + |p|..]
  {
  }

  /** A part below `n` is still there if the first `n` bytes are. */
  lemma HoldsBelow(v: seq<byte>, w: seq<byte>, p: Part, n: nat)
    requires Holds(v, p) && PartEnd(p) <= n <= |v| && n <= |w| && w[..n] == v[..n]
    ensures Holds(w, p)
  {
    var a, b := w[p.at..PartEnd(p)], v[p.at..PartEnd(p)];
    forall k | 0 <= k < |a| ensures a[k] == b[k] {
      assert w[..n][p.at + k] == v[..n][p.at + k];
    }
  }

  /** What is inside a part is inside the buffer. */
  lemma Inside(v: seq<byte>, p: Part, lo: nat, hi: nat)
    requires Holds(v, p) && lo <= hi <= |p.bytes|
    ensures p.at + hi <= |v| && v[p.at + lo..p.at + hi] == p.bytes[lo..hi]
  {
    var w := v[p.at..PartEnd(p)];
    var a, b := v[p.at + lo..p.at + hi], w[lo..hi];
    forall k | 0 <= k < |b| ensures a[k] == b[k] {
      assert b[k] == w[lo + k];
    }
  }
}
