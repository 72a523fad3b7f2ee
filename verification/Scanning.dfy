/** Looking for bytes and patterns in a byte string, and cutting it into lines. */
module Scanning {
  import opened Bytes
  import Eol

  /** The lines, each followed by its terminator. */
  ghost function Weave(lines: seq<seq<byte>>, ends: seq<seq<byte>>): seq<byte>
    requires |lines| == |ends|
  {
    if lines == [] then [] else lines[0] + ends[0] + Weave(lines[1..], ends[1..])
  }

  lemma WeaveNone()
    ensures Weave([], []) == []
  {
  }

  lemma Regroup(w: seq<byte>, l: seq<byte>, e: seq<byte>, r: seq<byte>)
    ensures w + (l + e + r) == w + l + e + r
  {
  }

  lemma {:induction false} WeaveSnoc(lines: seq<seq<byte>>, ends: seq<seq<byte>>, line: seq<byte>, end: seq<byte>)
    requires |lines| == |ends|
    ensures Weave(lines + [line], ends + [end]) == Weave(lines, ends) + line + end
  {
    if lines == [] {
      assert Weave([], []) == [];
    } else {
      WeaveSnoc(lines[1..], ends[1..], line, end);
      assert (lines + [line])[1..] == lines[1..] + [line] && (ends + [end])[1..] == ends[1..] + [end];
    }
  }

  /** end is a terminator of the style, and no terminator begins inside line. */
  ghost predicate IsLine(style: Eol.Style, line: seq<byte>, end: seq<byte>) {
    Eol.IsTerminator(style, end) && forall i :: 0 <= i < |line| ==> !Eol.Begins(style, line + end, i)
  }

  lemma LineCut(style: Eol.Style, s: seq<byte>)
    requires Eol.Find(style, s).At?
    ensures var t := Eol.Find(style, s);
            && 0 < t.len && t.pos + t.len <= |s|
            && s == s[..t.pos] + s[t.pos..t.pos + t.len] + s[t.pos + t.len..]
            && IsLine(style, s[..t.pos], s[t.pos..t.pos + t.len])
  {
    Eol.FindMeaning(style, s);
    var t := Eol.Find(style, s);
    var w := s[..t.pos + t.len];
    assert w == s[..t.pos] + s[t.pos..t.pos + t.len];
    forall i | 0 <= i < t.pos
      ensures !Eol.Begins(style, w, i)
    {
      assert !Eol.Begins(style, s, i);
      forall e | i <= e <= |w|
        ensures !Eol.IsTerminator(style, w[i..e])
      {
        assert w[i..e] == s[i..e];
      }
    }
  }

  /** The leftmost CR LF in s[a..] is the leftmost one in s from a on. */
  lemma CrlfFound(s: seq<byte>, a: nat, pos: int)
    requires a <= |s|
    requires if pos < 0 then forall j :: a <= j && MatchAt(s, [Eol.CR, Eol.LF], j) ==> j + 2 > |s|
             else a <= pos && MatchAt(s, [Eol.CR, Eol.LF], pos) && NoMatch(s, [Eol.CR, Eol.LF], a, pos)
    ensures var rest := s[a..]; Eol.FirstCrlf(rest) == if pos < 0 then |rest| else pos - a
  {
    var rest, what := s[a..], [Eol.CR, Eol.LF];
    forall j | 0 <= j && j + 1 < |rest|
      ensures rest[j] == Eol.CR && rest[j + 1] == Eol.LF <==> MatchAt(s, what, a + j)
    {
      assert s[a + j..a + j + 2] == [s[a + j], s[a + j + 1]];
    }
    var i := Eol.FirstCrlf(rest);
    if i < |rest| {
      assert MatchAt(s, what, a + i);
    }
    if pos >= 0 {
      assert rest[pos - a] == Eol.CR && rest[pos - a + 1] == Eol.LF;
    }
  }

  /** No byte of cs in s from a to b. */
  ghost predicate AbsentIn(s: seq<byte>, cs: seq<byte>, a: int, b: int) {
    0 <= a <= b <= |s| && forall j :: a <= j < b ==> s[j] !in cs
  }

  lemma AbsentYet(s: seq<byte>, cs: seq<byte>, a: int)
    requires 0 <= a <= |s|
    ensures AbsentIn(s, cs, a, a)
  {
  }

  lemma AbsentOn(s: seq<byte>, cs: seq<byte>, a: int, b: int, at: nat, seg: seq<byte>, off: nat, k: nat)
    requires AbsentIn(s, cs, a, b) && off <= k <= |seg| && at + |seg| <= |s| && s[at..at + |seg|] == seg &&
             b == at + off
    requires forall j :: off <= j < k ==> seg[j] !in cs
    ensures AbsentIn(s, cs, a, at + k)
  {
    forall j | b <= j < at + k
      ensures s[j] !in cs
    {
      assert s[at..at + |seg|][j - at] == s[j];
      assert seg[j - at] !in cs;
    }
  }

  lemma FirstInAt(s: seq<byte>, cs: seq<byte>, a: int, b: int)
    requires AbsentIn(s, cs, a, b) && (b < |s| ==> s[b] in cs)
    ensures Eol.FirstIn(s[a..], cs) == b - a
  {
    var rest := s[a..];
    assert forall j :: 0 <= j < |rest| ==> rest[j] == s[a + j];
  }

  method ScanSegment(seg: seq<byte>, from: nat, any: bool, c: byte) returns (at: nat)
    requires from <= |seg|
    ensures var cs := if any then [Eol.CR, Eol.LF] else [c];
            from <= at <= |seg| && (forall j :: from <= j < at ==> seg[j] !in cs) && (at < |seg| ==> seg[at] in cs)
  {
    if any {
      var k := FindEolChar(seg[from..]);
      at := from + k;
      forall j | from <= j < at
        ensures seg[j] != Eol.CR && seg[j] != Eol.LF
      {
        assert seg[from..][j - from] == seg[j];
      }
    } else {
      at := MemChr(seg, from, c);
    }
  }

  /** memchr on s[from..to]; returns `to` if c does not occur. */
  method MemChrIn(s: seq<byte>, from: nat, to: nat, c: byte) returns (k: nat)
    requires from <= to <= |s|
    ensures from <= k <= to && (forall j :: from <= j < k ==> s[j] != c) && (k < to ==> s[k] == c)
  {
    k := from;
    while k < to && s[k] != c
      invariant from <= k <= to && forall j :: from <= j < k ==> s[j] != c
    {
      k := k + 1;
    }
  }

  const CHUNK_SZ: nat := 128

  /** The first CR or LF, looked for in chunks of 128 bytes; |s| if there is none. */
  method FindEolChar(s: seq<byte>) returns (k: nat)
    ensures k == Eol.FirstIn(s, [Eol.CR, Eol.LF])
  {
    var p := 0;
    while p < |s|
      invariant 0 <= p && forall j :: 0 <= j < p && j < |s| ==> s[j] != Eol.CR && s[j] != Eol.LF
    {
      var end := if p + CHUNK_SZ < |s| then p + CHUNK_SZ else |s|;
      var cr := MemChrIn(s, p, end, Eol.CR);
      var lf := MemChrIn(s, p, end, Eol.LF);
      if cr < end {
        if lf < end && lf < cr {
          return lf;
        }
        return cr;
      } else if lf < end {
        return lf;
      }
      p := p + CHUNK_SZ;
    }
    k := |s|;
  }

  datatype Verdict = Found | Missing | Unknown

  /** memchr */
  method MemChr(s: seq<byte>, from: nat, c: byte) returns (k: nat)
    requires from <= |s|
    ensures from <= k <= |s| && (forall j :: from <= j < k ==> s[j] != c) && (k < |s| ==> s[k] == c)
  {
    k := from;
    while k < |s| && s[k] != c
      invariant from <= k <= |s| && forall j :: from <= j < k ==> s[j] != c
    {
      k := k + 1;
    }
  }

  ghost predicate NoMatch(s: seq<byte>, what: seq<byte>, a: int, b: int) {
    forall j :: a <= j < b ==> !MatchAt(s, what, j)
  }

  lemma NoMatchYet(s: seq<byte>, what: seq<byte>, a: int)
    ensures NoMatch(s, what, a, a)
  {
  }

  lemma SkipOne(s: seq<byte>, what: seq<byte>, a: int, b: int)
    requires NoMatch(s, what, a, b) && !MatchAt(s, what, b)
    ensures NoMatch(s, what, a, b + 1)
  {
  }

  /** What does not occur before `upto` can only end behind `to` if that is no later. */
  lemma NoMatchTo(s: seq<byte>, what: seq<byte>, a: int, upto: int, to: int)
    requires NoMatch(s, what, a, upto) && what != [] && to <= upto <= |s|
    ensures forall j :: a <= j && MatchAt(s, what, j) ==> j + |what| > to
  {
  }

  lemma LeftmostEndsLate(s: seq<byte>, what: seq<byte>, a: int, b: int, to: int)
    requires NoMatch(s, what, a, b) && b + |what| > to
    ensures forall j :: a <= j && MatchAt(s, what, j) ==> j + |what| > to
  {
  }

  /** Where the first byte does not occur there is no match. */
  lemma SkipTo(s: seq<byte>, what: seq<byte>, a: int, pos: nat, at: nat, seg: seq<byte>, off: nat, k: nat)
    requires what != [] && off <= k <= |seg| && at + |seg| <= |s| && s[at..at + |seg|] == seg && pos == at + off
    requires NoMatch(s, what, a, pos) && forall j :: off <= j < k ==> seg[j] != what[0]
    ensures NoMatch(s, what, a, at + k)
  {
    forall j | pos <= j < at + k
      ensures !MatchAt(s, what, j)
    {
      assert s[at..at + |seg|][j - at] == s[j];
      assert seg[j - at] != what[0];
      if j + |what| <= |s| {
        assert s[j..j + |what|][0] == s[j];
      }
    }
  }

  /** The sign of the first difference of two byte strings of the same length. */
  ghost function Difference(a: seq<byte>, b: seq<byte>): (d: int)
    requires |a| == |b|
  {
    if a == [] then 0
    else if a[0] != b[0] then (if a[0] < b[0] then -1 else 1)
    else Difference(a[1..], b[1..])
  }

  lemma {:induction false} NoDifference(a: seq<byte>, b: seq<byte>)
    requires |a| == |b|
    ensures Difference(a, b) == 0 <==> a == b
  {
    if a != [] {
      NoDifference(a[1..], b[1..]);
      assert a == [a[0]] + a[1..] && b == [b[0]] + b[1..];
    }
  }

  /** memcmp, of which only the sign matters. */
  method MemCmp(a: seq<byte>, b: seq<byte>) returns (d: int)
    requires |a| == |b|
    ensures d == Difference(a, b)
  {
    assert a[0..] == a && b[0..] == b;
    for i := 0 to |a|
      invariant Difference(a, b) == Difference(a[i..], b[i..])
    {
      assert a[i..][1..] == a[i + 1..] && b[i..][1..] == b[i + 1..];
      if a[i] != b[i] {
        return if a[i] < b[i] then -1 else 1;
      }
    }
    d := 0;
  }

  lemma {:induction false} SkipSame(a: seq<byte>, b: seq<byte>, done: nat)
    requires |a| == |b| && done <= |a| && a[..done] == b[..done]
    ensures Difference(a, b) == Difference(a[done..], b[done..])
  {
    hide Difference;
    if done == 0 {
      assert a[0..] == a && b[0..] == b;
    } else {
      assert a[..done - 1] == a[..done][..done - 1] && b[..done - 1] == b[..done][..done - 1];
      SkipSame(a, b, done - 1);
      SkipOneSame(a[done - 1..], b[done - 1..]) by { assert a[done - 1] == a[..done][done - 1] == b[done - 1]; }
      assert a[done - 1..][1..] == a[done..] && b[done - 1..][1..] == b[done..];
    }
  }

  lemma SkipOneSame(a: seq<byte>, b: seq<byte>)
    requires |a| == |b| > 0 && a[0] == b[0]
    ensures Difference(a, b) == Difference(a[1..], b[1..])
  {
  }

  lemma {:induction false} PrefixDecides(a: seq<byte>, b: seq<byte>, n: nat)
    requires |a| == |b| && n <= |a| && Difference(a[..n], b[..n]) != 0
    ensures Difference(a, b) == Difference(a[..n], b[..n])
  {
    if n > 0 && a[0] == b[0] {
      assert a[..n][1..] == a[1..][..n - 1] && b[..n][1..] == b[1..][..n - 1];
      PrefixDecides(a[1..], b[1..], n - 1);
    }
  }

  lemma Stretch(s: seq<byte>, a: nat, n: nat)
    requires a + n <= |s|
    ensures s[a..][..n] == s[a..a + n]
  {
  }

  lemma Longer(a: seq<byte>, b: seq<byte>, done: nat, n: nat)
    requires done + n <= |a| && done + n <= |b| && a[..done] == b[..done] && a[done..done + n] == b[done..done + n]
    ensures a[..done + n] == b[..done + n]
  {
    assert a[..done + n] == a[..done] + a[done..done + n];
    assert b[..done + n] == b[..done] + b[done..done + n];
  }

  /** Comparing the next n bytes, when those before them are the same. */
  lemma Compared(w: seq<byte>, b: seq<byte>, done: nat, n: nat)
    requires |w| == |b| && done + n <= |w| && w[..done] == b[..done]
    ensures var d := Difference(w[done..done + n], b[done..done + n]);
            if d == 0 then w[..done + n] == b[..done + n] else Difference(w, b) == d && w != b
  {
    hide Difference;
    NoDifference(w[done..done + n], b[done..done + n]);
    if w[done..done + n] == b[done..done + n] {
      Longer(w, b, done, n);
    } else {
      SkipSame(w, b, done);
      Stretch(w, done, n);
      Stretch(b, done, n);
      PrefixDecides(w[done..], b[done..], n);
      NoDifference(w, b);
    }
  }

  /** The bytes of s that mem is compared with. */
  lemma Window(s: seq<byte>, mem: seq<byte>, pos: nat, n: nat)
    requires pos + |mem| <= |s| && n <= |mem|
    ensures SameUpTo(s, mem, pos, n) <==> s[pos..pos + |mem|][..n] == mem[..n]
    ensures MatchAt(s, mem, pos) <==> s[pos..pos + |mem|] == mem
  {
    assert s[pos..pos + |mem|][..n] == s[pos..pos + n];
  }

  lemma AllSame(s: seq<byte>, mem: seq<byte>, pos: nat)
    requires pos + |mem| <= |s| && SameUpTo(s, mem, pos, |mem|)
    ensures MatchAt(s, mem, pos) && Difference(s[pos..pos + |mem|], mem) == 0
  {
    assert mem[..|mem|] == mem;
    NoDifference(s[pos..pos + |mem|], mem);
  }

  lemma SameNone(s: seq<byte>, mem: seq<byte>, pos: nat)
    requires pos <= |s|
    ensures SameUpTo(s, mem, pos, 0)
  {
  }

  /** The first n bytes of mem are those of s at pos. */
  ghost predicate SameUpTo(s: seq<byte>, mem: seq<byte>, pos: nat, n: nat) {
    n <= |mem| && pos + n <= |s| && s[pos..pos + n] == mem[..n]
  }

  /** mem occurs in s at index i. */
  ghost predicate MatchAt(s: seq<byte>, mem: seq<byte>, i: int) {
    0 <= i && i + |mem| <= |s| && s[i..i + |mem|] == mem
  }
}
