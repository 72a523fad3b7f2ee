/** Byte strings and the flattening of a list of segments into one string. */
module Bytes {

  type byte = b: int | 0 <= b < 0x100

  function Min(a: int, b: int): int {
    if a <= b then a else b
  }

  function Flatten(ss: seq<seq<byte>>): seq<byte> {
    if ss == [] then [] else ss[0] + Flatten(ss[1..])
  }

  lemma {:induction false} FlattenConcat(a: seq<seq<byte>>, b: seq<seq<byte>>)
    ensures Flatten(a + b) == Flatten(a) + Flatten(b)
  {
    if a == [] {
      assert a + b == b;
    } else {
      assert (a + b)[1..] == a[1..] + b;
      FlattenConcat(a[1..], b);
    }
  }

  lemma {:induction false} FlattenEmpties(ss: seq<seq<byte>>)
    requires forall i :: 0 <= i < |ss| ==> ss[i] == []
    ensures Flatten(ss) == []
  {
    if ss != [] {
      FlattenEmpties(ss[1..]);
    }
  }

  lemma FlattenNonEmpty(ss: seq<seq<byte>>, j: nat)
    requires j < |ss| && ss[j] != []
    ensures |Flatten(ss)| > 0
  {
    FlattenSplit(ss, j);
  }

  lemma FlattenOne(s: seq<byte>)
    ensures Flatten([s]) == s
  {
    assert Flatten([s]) == s + Flatten([]);
  }

  /** Cut the list at k. */
  lemma FlattenCut(ss: seq<seq<byte>>, k: nat)
    requires k <= |ss|
    ensures Flatten(ss) == Flatten(ss[..k]) + Flatten(ss[k..])
  {
    assert ss == ss[..k] + ss[k..];
    FlattenConcat(ss[..k], ss[k..]);
  }

  /** One step of a left-to-right walk over the segments. */
  lemma FlattenSnoc(ss: seq<seq<byte>>, k: nat)
    requires k < |ss|
    ensures Flatten(ss[..k + 1]) == Flatten(ss[..k]) + ss[k]
  {
    assert ss[..k + 1] == ss[..k] + [ss[k]];
    FlattenConcat(ss[..k], [ss[k]]);
    FlattenOne(ss[k]);
  }

  lemma FlattenHead(ss: seq<seq<byte>>, k: nat)
    requires k < |ss|
    ensures Flatten(ss[k..]) == ss[k] + Flatten(ss[k + 1..])
  {
    assert ss[k..][1..] == ss[k + 1..];
  }

  lemma FlattenSplit(ss: seq<seq<byte>>, k: nat)
    requires k < |ss|
    ensures Flatten(ss) == Flatten(ss[..k]) + ss[k] + Flatten(ss[k + 1..])
  {
    FlattenCut(ss, k);
    FlattenHead(ss, k);
  }

  /** Empty segments at the end hold nothing. */
  lemma FlattenTail(ss: seq<seq<byte>>, k: nat)
    requires k <= |ss|
    requires forall i :: k <= i < |ss| ==> ss[i] == []
    ensures Flatten(ss) == Flatten(ss[..k])
  {
    FlattenCut(ss, k);
    FlattenEmpties(ss[k..]);
  }

  lemma TailStep<T>(s: seq<T>, i: nat)
    requires i < |s|
    ensures s[i..][0] == s[i] && s[i..][1..] == s[i + 1..]
  {
  }

  lemma Assoc(a: seq<byte>, b: seq<byte>, c: seq<byte>)
    ensures a + b + c == a + (b + c)
  {
  }

  lemma Parts(s: seq<byte>, a: seq<byte>, b: seq<byte>, n: nat)
    requires s == a + b && n <= |b|
    ensures a == s[..|a|] && b == s[|a|..] && b[n..] == s[|a| + n..]
  {
  }

  lemma Halves(s: seq<byte>, k: nat, t: seq<byte>)
    requires k <= |s|
    ensures s[..k] + (s[k..] + t) == s + t
  {
  }

  /** n bytes went from the front of b to the end of a; what is in both now is a2 and b2. */
  ghost predicate Passed(a: seq<byte>, b: seq<byte>, a2: seq<byte>, b2: seq<byte>, n: int) {
    0 <= n <= |b| && a2 == a + b[..n] && b2 == b[n..]
  }

  /** The first k bytes of b went to the end of a, and those behind them up to the n-th are nowhere. */
  ghost predicate Lost(a: seq<byte>, b: seq<byte>, a2: seq<byte>, b2: seq<byte>, k: nat, n: int) {
    k <= n <= |b| && a2 == a + b[..k] && b2 == b[n..]
  }

  lemma PassedTwice(a: seq<byte>, b: seq<byte>, a2: seq<byte>, b2: seq<byte>, n: nat, m: nat)
    requires Passed(a, b, a2, b2, n) && m <= |b2|
    ensures Passed(a, b, a2 + b2[..m], b2[m..], n + m)
  {
    TwoSteps(a, b, n, m);
  }

  lemma PassedLost(a: seq<byte>, b: seq<byte>, a2: seq<byte>, b2: seq<byte>, n: nat, m: nat)
    requires Passed(a, b, a2, b2, n) && m <= |b2|
    ensures Lost(a, b, a2, b2[m..], n, n + m)
  {
    TwoSteps(a, b, n, m);
  }

  lemma PassedSizes(a: seq<byte>, b: seq<byte>, a2: seq<byte>, b2: seq<byte>, n: int)
    requires Passed(a, b, a2, b2, n)
    ensures |a2| == |a| + n && |b2| == |b| - n
  {
  }

  lemma PassedNothing(a: seq<byte>, b: seq<byte>)
    ensures Passed(a, b, a, b, 0)
  {
  }

  lemma PassedAll(a: seq<byte>, b: seq<byte>)
    ensures Passed(a, b, a + b, [], |b|)
  {
    assert b[..|b|] == b && b[|b|..] == [];
  }

  lemma TwoSteps(t: seq<byte>, s: seq<byte>, a: nat, b: nat)
    requires a + b <= |s|
    ensures t + s[..a] + s[a..][..b] == t + s[..a + b]
    ensures s[a..][b..] == s[a + b..]
  {
    assert s[..a] + s[a..][..b] == s[..a + b];
  }

  /** Extending a copied stretch of s by the next bytes of the segment that starts at `at`. */
  lemma CopyStep(s: seq<byte>, pos: nat, out: seq<byte>, at: nat, seg: seq<byte>, off: nat, n: nat)
    requires off + n <= |seg| && at + |seg| <= |s| && s[at..at + |seg|] == seg
    requires pos + |out| == at + off && out == s[pos..pos + |out|]
    ensures out + seg[off..off + n] == s[pos..pos + |out| + n]
  {
    var mid := at + off;
    forall j | off <= j < off + n
      ensures seg[j] == s[at + j]
    {
      assert s[at..at + |seg|][j] == seg[j];
    }
    assert seg[off..off + n] == s[mid..mid + n];
    assert s[pos..mid] + s[mid..mid + n] == s[pos..mid + n];
  }

  lemma SegmentByte(s: seq<byte>, at: nat, seg: seq<byte>, k: nat)
    requires k < |seg| && at + |seg| <= |s| && s[at..at + |seg|] == seg
    ensures s[at + k] == seg[k]
  {
    assert s[at..at + |seg|][k] == s[at + k];
  }

  /** A stretch of a segment is a stretch of the whole. */
  lemma SegmentAt(s: seq<byte>, at: nat, seg: seq<byte>, off: nat, n: nat)
    requires off + n <= |seg| && at + |seg| <= |s| && s[at..at + |seg|] == seg
    ensures s[at + off..at + off + n] == seg[off..off + n]
  {
    CopyStep(s, at + off, [], at, seg, off, n);
    assert [] + seg[off..off + n] == seg[off..off + n];
  }

  /** Bytes appended in two parts. */
  lemma AddedInParts(t: seq<byte>, s: seq<byte>, k: nat)
    requires k <= |s|
    ensures t + s[..k] + s[k..] == t + s && (k == 0 ==> t + s[k..] == t + s)
  {
  }
}
