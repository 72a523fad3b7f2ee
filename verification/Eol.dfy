/** What a line terminator is, for each end-of-line style. */
module Eol {
  import opened Bytes

  const CR: byte := 13
  const LF: byte := 10
  const NUL: byte := 0

  datatype Style = Any | Crlf | CrlfStrict | Lf | Nul

  /** The index of the first byte of s that is in cs, or |s|. */
  function FirstIn(s: seq<byte>, cs: seq<byte>): (i: nat)
    ensures i <= |s| && (i < |s| ==> s[i] in cs)
    ensures forall j :: 0 <= j < i ==> s[j] !in cs
  {
    if s == [] || s[0] in cs then 0 else 1 + FirstIn(s[1..], cs)
  }

  /** How many leading bytes of s are in cs. */
  function Span(s: seq<byte>, cs: seq<byte>): (n: nat)
    ensures n <= |s| && (n < |s| ==> s[n] !in cs)
    ensures forall j :: 0 <= j < n ==> s[j] in cs
  {
    if s == [] || s[0] !in cs then 0 else 1 + Span(s[1..], cs)
  }

  /** The index of the first CR LF in s, or |s|. */
  function FirstCrlf(s: seq<byte>): (i: nat)
    ensures i <= |s| && (i < |s| ==> i + 2 <= |s| && s[i] == CR && s[i + 1] == LF)
    ensures forall j :: 0 <= j < i && j + 1 < |s| && s[j] == CR ==> s[j + 1] != LF
  {
    if s == [] || (|s| >= 2 && s[0] == CR && s[1] == LF) then 0 else 1 + FirstCrlf(s[1..])
  }

  datatype Terminator = None | At(pos: nat, len: nat)

  /** Where the first line of s ends and how long its terminator is. */
  function Find(style: Style, s: seq<byte>): (t: Terminator)
    ensures t.At? ==> 0 < t.len && t.pos + t.len <= |s|
  {
    match style
    case Any =>
      var i := FirstIn(s, [CR, LF]);
      if i == |s| then None else At(i, Span(s[i..], [CR, LF]))
    case Crlf =>
      var j := FirstIn(s, [LF]);
      if j == |s| then None else if j > 0 && s[j - 1] == CR then At(j - 1, 2) else At(j, 1)
    case CrlfStrict =>
      var i := FirstCrlf(s);
      if i == |s| then None else At(i, 2)
    case Lf =>
      var i := FirstIn(s, [LF]);
      if i == |s| then None else At(i, 1)
    case Nul =>
      var i := FirstIn(s, [NUL]);
      if i == |s| then None else At(i, 1)
  }

  /** The terminators of a style. */
  predicate IsTerminator(style: Style, t: seq<byte>) {
    match style
    case Any => t != [] && forall b :: b in t ==> b == CR || b == LF
    case Crlf => t == [LF] || t == [CR, LF]
    case CrlfStrict => t == [CR, LF]
    case Lf => t == [LF]
    case Nul => t == [NUL]
  }

  /** Some terminator of the style begins at index i of s. */
  ghost predicate Begins(style: Style, s: seq<byte>, i: nat) {
    exists e :: i <= e <= |s| && IsTerminator(style, s[i..e])
  }

  /** The terminator found is one of the style, it is the first one, and it is as long as possible. */
  lemma FindMeaning(style: Style, s: seq<byte>)
    ensures var t := Find(style, s);
            && (t.None? ==> forall i :: 0 <= i <= |s| ==> !Begins(style, s, i))
            && (t.At? ==> IsTerminator(style, s[t.pos..t.pos + t.len]) &&
                          forall i :: 0 <= i < t.pos ==> !Begins(style, s, i))
            && (t.At? ==> forall e :: t.pos + t.len < e <= |s| ==> !IsTerminator(style, s[t.pos..e]))
  {
    var t := Find(style, s);
    if t.At? {
      FoundIsTerminator(style, s);
      forall e | t.pos + t.len < e <= |s|
        ensures !IsTerminator(style, s[t.pos..e])
      {
        NoLonger(style, s, e);
      }
    }
    forall i | 0 <= i <= |s| && (t.At? ==> i < t.pos)
      ensures !Begins(style, s, i)
    {
      NotBefore(style, s, i);
    }
  }

  lemma FoundIsTerminator(style: Style, s: seq<byte>)
    requires Find(style, s).At?
    ensures var t := Find(style, s); IsTerminator(style, s[t.pos..t.pos + t.len])
  {
    var t := Find(style, s);
    var w := s[t.pos..t.pos + t.len];
    assert w[0] == s[t.pos];
    if t.len == 2 { assert w == [s[t.pos], s[t.pos + 1]]; }
    if t.len == 1 { assert w == [s[t.pos]]; }
    if style.Any? {
      forall j | 0 <= j < t.len
        ensures w[j] == CR || w[j] == LF
      {
        assert w[j] == s[t.pos..][j];
      }
    }
  }

  lemma NoLonger(style: Style, s: seq<byte>, e: nat)
    requires Find(style, s).At? && Find(style, s).pos + Find(style, s).len < e <= |s|
    ensures !IsTerminator(style, s[Find(style, s).pos..e])
  {
    var t := Find(style, s);
    var w := s[t.pos..e];
    assert w[t.len] == s[t.pos + t.len] == s[t.pos..][t.len];
    assert w[0] == s[t.pos];
    if style.Any? { assert w[t.len] in w; }
  }

  lemma NotBefore(style: Style, s: seq<byte>, i: nat)
    requires i <= |s| && (Find(style, s).At? ==> i < Find(style, s).pos)
    ensures !Begins(style, s, i)
  {
    forall e | i <= e <= |s|
      ensures !IsTerminator(style, s[i..e])
    {
      var w := s[i..e];
      if e > i { assert w[0] == s[i] && w[0] in w; }
      if e > i + 1 { assert w[1] == s[i + 1]; }
    }
  }
}
