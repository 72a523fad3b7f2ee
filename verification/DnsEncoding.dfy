/**
 * Writing domain names with compression: dnsname_to_labels and its table of suffixes.
 * A name is its text, without the terminating zero.
 */
module DnsEncoding {
  import opened Bytes
  import opened Options
  import opened DnsNames

  const MAX_LABELS: nat := 128
  const REACH: nat := 0x4000    // positions a compression pointer can name

  /** The first dot of the text from index a on, or its end. */
  function Dot(text: seq<byte>, a: nat): (k: nat)
    requires a <= |text|
    ensures a <= k <= |text| && (k < |text| ==> text[k] == DOT)
    ensures forall i :: a <= i < k ==> text[i] != DOT
    decreases |text| - a
  {
    if a == |text| || text[a] == DOT then a else Dot(text, a + 1)
  }

  /** The labels of the text from index a on, up to the first empty one.  A dot at the very end adds none. */
  ghost function Labels(text: seq<byte>, a: nat): seq<seq<byte>>
    requires a <= |text|
    decreases |text| - a
  {
    var k := Dot(text, a);
    if k == a then [] else if k == |text| then [text[a..]] else [text[a..k]] + Labels(text, k + 1)
  }

  /** No label but the last is empty. */
  ghost predicate Filled(text: seq<byte>, a: nat)
    requires a <= |text|
    decreases |text| - a
  {
    var k := Dot(text, a);
    k == |text| || (a < k && Filled(text, k + 1))
  }

  /** No label is longer than 63 bytes. */
  ghost predicate Short(text: seq<byte>, a: nat)
    requires a <= |text|
    decreases |text| - a
  {
    var k := Dot(text, a);
    k - a <= 63 && (k == |text| || Short(text, k + 1))
  }

  // ---------- Names with backward pointers ----------

  /** The name that starts at `start` reads, from position pos of it on, as these labels, with pointers
      to names that start before it only. */
  ghost predicate Reads(p: seq<byte>, start: nat, pos: nat, labels: seq<seq<byte>>)
    decreases start, if pos < |p| then |p| - pos else 0
  {
    match At(p, pos)
    case Stop => labels == []
    case Bad => false
    case Jump(to) => p[pos] >= 0xc0 && to < start && Reads(p, to, to, labels)
    case Label(text) => labels != [] && labels[0] == text && Reads(p, start, pos + 1 + |text|, labels[1..])
  }

  /** Such a name is what the parser finds. */
  lemma {:induction false} ReadsWalk(p: seq<byte>, start: nat, pos: nat, labels: seq<seq<byte>>, jumps: nat)
    requires Reads(p, start, pos, labels) && jumps + start <= |p|
    ensures Walk(p, pos, jumps) == Some(labels)
    decreases start, if pos < |p| then |p| - pos else 0
  {
    match At(p, pos)
    case Stop =>
    case Jump(to) => ReadsWalk(p, to, to, labels, jumps + 1);
    case Label(text) =>
      ReadsWalk(p, start, pos + 1 + |text|, labels[1..], jumps);
      assert [labels[0]] + labels[1..] == labels;
  }

  /** What is written behind a name does not change it. */
  lemma {:induction false} ReadsMore(p: seq<byte>, more: seq<byte>, start: nat, pos: nat, labels: seq<seq<byte>>)
    requires Reads(p, start, pos, labels)
    ensures Reads(p + more, start, pos, labels)
    decreases start, if pos < |p| then |p| - pos else 0
  {
    AtMore(p, more, pos);
    match At(p, pos)
    case Stop =>
    case Jump(to) => ReadsMore(p, more, to, to, labels);
    case Label(text) => ReadsMore(p, more, start, pos + 1 + |text|, labels[1..]);
  }

  lemma ReadsInside(p: seq<byte>, start: nat, pos: nat, labels: seq<seq<byte>>)
    requires Reads(p, start, pos, labels)
    ensures pos < |p|
  {
  }

  lemma AtMore(p: seq<byte>, more: seq<byte>, pos: nat)
    requires At(p, pos) != Bad
    ensures At(p + more, pos) == At(p, pos)
  {
  }

  /** A later start allows more pointers. */
  lemma {:induction false} ReadsFrom(p: seq<byte>, start: nat, later: nat, pos: nat, labels: seq<seq<byte>>)
    requires Reads(p, start, pos, labels) && start <= later
    ensures Reads(p, later, pos, labels)
    decreases if pos < |p| then |p| - pos else 0
  {
    match At(p, pos)
    case Stop =>
    case Jump(to) =>
    case Label(text) => ReadsFrom(p, start, later, pos + 1 + |text|, labels[1..]);
  }

  // ---------- A name being written ----------

  /** The labels of the name from index a up to s, where one begins, are written; index 0 is at position j0. */
  ghost predicate Spelled(p: seq<byte>, name: seq<byte>, j0: nat, a: nat, s: nat)
    requires a <= s <= |name|
    decreases s - a
  {
    a == s ||
    (var k := Dot(name, a);
     && k < s && j0 + k + 1 <= |p|
     && At(p, j0 + a) == Sign(name[a..k])
     && Spelled(p, name, j0, k + 1, s))
  }

  /** What stands for a label in the message; an empty one reads as the end of the name. */
  ghost function Sign(text: seq<byte>): Item {
    if text == [] then Stop else Label(text)
  }

  /** None of the labels from index a up to s, where one begins, is empty. */
  ghost predicate NoEmpty(name: seq<byte>, a: nat, s: nat)
    requires a <= s <= |name|
    decreases s - a
  {
    a == s || (var k := Dot(name, a); a < k < s && NoEmpty(name, k + 1, s))
  }

  lemma {:induction false} SpelledMore(p: seq<byte>, more: seq<byte>, name: seq<byte>, j0: nat, a: nat, s: nat)
    requires a <= s <= |name| && Spelled(p, name, j0, a, s)
    ensures Spelled(p + more, name, j0, a, s)
    decreases s - a
  {
    if a < s {
      AtMore(p, more, j0 + a);
      SpelledMore(p, more, name, j0, Dot(name, a) + 1, s);
    }
  }

  /** One more label. */
  lemma {:induction false} SpelledSnoc(p: seq<byte>, name: seq<byte>, j0: nat, a: nat, s: nat)
    requires a <= s < |name| && Spelled(p, name, j0, a, s) && Dot(name, s) < |name|
    requires At(p, j0 + s) == Sign(name[s..Dot(name, s)])
    ensures Spelled(p, name, j0, a, Dot(name, s) + 1)
    decreases s - a
  {
    if a < s { SpelledSnoc(p, name, j0, Dot(name, a) + 1, s); }
  }

  lemma {:induction false} NoEmptySnoc(p: seq<byte>, name: seq<byte>, j0: nat, a: nat, s: nat)
    requires a <= s < |name| && Spelled(p, name, j0, a, s) && Dot(name, s) < |name|
    ensures NoEmpty(name, a, Dot(name, s) + 1) <==> NoEmpty(name, a, s) && s < Dot(name, s)
    decreases s - a
  {
    if a < s { NoEmptySnoc(p, name, j0, Dot(name, a) + 1, s); }
  }

  /** When the rest of the name is in place, so is all of it from index a on. */
  lemma {:induction false} SpelledReads(p: seq<byte>, name: seq<byte>, j0: nat, a: nat, s: nat)
    requires a <= s <= |name| && Spelled(p, name, j0, a, s) && Reads(p, j0, j0 + s, Labels(name, s))
    ensures Reads(p, j0, j0 + a, Labels(name, a))
    decreases s - a
  {
    hide At, Dot;
    if a < s {
      var k := Dot(name, a);
      SpelledReads(p, name, j0, k + 1, s);
      if a < k { assert Labels(name, a)[1..] == Labels(name, k + 1); }
    }
  }

  lemma {:induction false} SpelledShort(p: seq<byte>, name: seq<byte>, j0: nat, a: nat, s: nat)
    requires a <= s <= |name| && Spelled(p, name, j0, a, s) && Short(name, s)
    ensures Short(name, a)
    decreases s - a
  {
    hide At, Dot;
    if a < s { SpelledShort(p, name, j0, Dot(name, a) + 1, s); }
  }

  lemma {:induction false} SpelledEnd(p: seq<byte>, name: seq<byte>, j0: nat, a: nat, s: nat)
    requires a <= s <= |name| && Spelled(p, name, j0, a, s)
    ensures if NoEmpty(name, a, s) then EndOf(p, j0 + a) == EndOf(p, j0 + s) else EndOf(p, j0 + a) <= j0 + s
    decreases s - a
  {
    hide At, Dot;
    if a < s { SpelledEnd(p, name, j0, Dot(name, a) + 1, s); }
  }

  // ---------- The text from an index on, as a text of its own ----------

  lemma {:induction false} SuffixDot(text: seq<byte>, s: nat, a: nat)
    requires s + a <= |text|
    ensures Dot(text[s..], a) + s == Dot(text, s + a)
    decreases |text| - a
  {
    if s + a < |text| && text[s + a] != DOT { SuffixDot(text, s, a + 1); }
  }

  lemma {:induction false} SuffixLabels(text: seq<byte>, s: nat, a: nat)
    requires s + a <= |text|
    ensures Labels(text[s..], a) == Labels(text, s + a) && (Short(text[s..], a) <==> Short(text, s + a))
    decreases |text| - a
  {
    hide Dot;
    SuffixDot(text, s, a);
    var k := Dot(text[s..], a);
    assert text[s..][a..k] == text[s + a..s + k];
    if k < |text[s..]| { SuffixLabels(text, s, k + 1); } else { assert text[s..][a..] == text[s + a..]; }
  }

  // ---------- The table ----------

  datatype Entry = Entry(text: seq<byte>, pos: nat)

  /** The message says this text at this position, as far as its first empty label. */
  ghost predicate Known(p: seq<byte>, e: Entry) {
    e.pos < |p| && Reads(p, e.pos, e.pos, Labels(e.text, 0)) && Short(e.text, 0)
  }

  class LabelTable {
    var labels: seq<Entry>

    ghost predicate Valid(p: seq<byte>)
      reads this
    {
      |labels| <= MAX_LABELS && forall i :: 0 <= i < |labels| ==> Known(p, labels[i])
    }

    constructor ()
      ensures labels == [] && Valid([])
    {
      labels := [];
    }

    /** The position of the first entry with this text, or -1. */
    method GetPos(text: seq<byte>) returns (pos: int)
      ensures pos >= 0 ==> exists i :: 0 <= i < |labels| && labels[i] == Entry(text, pos) &&
                             forall k :: 0 <= k < i ==> labels[k].text != text
      ensures pos < 0 ==> pos == -1 && forall i :: 0 <= i < |labels| ==> labels[i].text != text
    {
      for i := 0 to |labels|
        invariant forall k :: 0 <= k < i ==> labels[k].text != text
      {
        if labels[i].text == text {
          return labels[i].pos;
        }
      }
      return -1;
    }

    /** Refused when the table is full. */
    method Add(text: seq<byte>, pos: nat) returns (r: int)
      modifies this
      ensures r == if |old(labels)| == MAX_LABELS then -1 else 0
      ensures labels == if r == 0 then old(labels) + [Entry(text, pos)] else old(labels)
    {
      if |labels| == MAX_LABELS {
        return -1;
      }
      labels := labels + [Entry(text, pos)];
      return 0;
    }
  }

  /** While a name is written from position j0, up to index s of its text: an entry is known from
      before, or is a part of this name whose first labels are written. */
  ghost predicate InWork(p: seq<byte>, name: seq<byte>, j0: nat, s: nat, e: Entry)
    requires s <= |name|
  {
    || (e.pos < j0 && Known(p, e))
    || (j0 <= e.pos <= j0 + s && e.text == name[e.pos - j0..] && Spelled(p, name, j0, e.pos - j0, s))
  }

  ghost predicate AllInWork(p: seq<byte>, name: seq<byte>, j0: nat, s: nat, es: seq<Entry>)
    requires s <= |name|
  {
    forall i :: 0 <= i < |es| ==> InWork(p, name, j0, s, es[i])
  }

  lemma StartWork(p: seq<byte>, name: seq<byte>, es: seq<Entry>)
    requires forall i :: 0 <= i < |es| ==> Known(p, es[i])
    ensures AllInWork(p, name, |p|, 0, es)
  {
  }

  lemma AddWork(p: seq<byte>, name: seq<byte>, j0: nat, s: nat, es: seq<Entry>)
    requires s <= |name| && AllInWork(p, name, j0, s, es)
    ensures AllInWork(p, name, j0, s, es + [Entry(name[s..], j0 + s)])
  {
  }

  /** A label was written behind p. */
  lemma GoOn(p: seq<byte>, more: seq<byte>, name: seq<byte>, j0: nat, s: nat, es: seq<Entry>)
    requires s <= |name| && AllInWork(p, name, j0, s, es) && Dot(name, s) < |name|
    requires At(p + more, j0 + s) == Sign(name[s..Dot(name, s)])
    ensures AllInWork(p + more, name, j0, Dot(name, s) + 1, es)
  {
    hide InWork, At, Dot;
    forall i | 0 <= i < |es|
      ensures InWork(p + more, name, j0, Dot(name, s) + 1, es[i])
    {
      GoOnEntry(p, more, name, j0, s, es[i]);
    }
  }

  lemma GoOnEntry(p: seq<byte>, more: seq<byte>, name: seq<byte>, j0: nat, s: nat, e: Entry)
    requires s <= |name| && InWork(p, name, j0, s, e) && Dot(name, s) < |name|
    requires At(p + more, j0 + s) == Sign(name[s..Dot(name, s)])
    ensures InWork(p + more, name, j0, Dot(name, s) + 1, e)
  {
    hide Reads, Spelled, At, Labels, Dot;
    if e.pos < j0 {
      ReadsMore(p, more, e.pos, e.pos, Labels(e.text, 0));
    } else {
      SpelledMore(p, more, name, j0, e.pos - j0, s);
      SpelledSnoc(p + more, name, j0, e.pos - j0, s);
    }
  }

  /** The rest of the name was written behind p: all entries are known. */
  lemma Complete(p: seq<byte>, more: seq<byte>, name: seq<byte>, j0: nat, s: nat, es: seq<Entry>)
    requires s <= |name| && AllInWork(p, name, j0, s, es)
    requires Reads(p + more, j0, j0 + s, Labels(name, s)) && Short(name, s)
    ensures forall i :: 0 <= i < |es| ==> Known(p + more, es[i])
  {
    hide InWork, Known, Reads, Labels;
    forall i | 0 <= i < |es|
      ensures Known(p + more, es[i])
    {
      CompleteEntry(p, more, name, j0, s, es[i]);
    }
  }

  lemma CompleteEntry(p: seq<byte>, more: seq<byte>, name: seq<byte>, j0: nat, s: nat, e: Entry)
    requires s <= |name| && InWork(p, name, j0, s, e) && Short(name, s)
    requires Reads(p + more, j0, j0 + s, Labels(name, s))
    ensures Known(p + more, e)
  {
    hide Reads, Spelled, At, Labels, Dot;
    if e.pos < j0 {
      ReadsMore(p, more, e.pos, e.pos, Labels(e.text, 0));
    } else {
      var a := e.pos - j0;
      SpelledMore(p, more, name, j0, a, s);
      SpelledReads(p + more, name, j0, a, s);
      SpelledShort(p + more, name, j0, a, s);
      ReadsFrom(p + more, j0, e.pos, e.pos, Labels(name, a));
      SuffixLabels(name, a, 0);
      ReadsInside(p + more, e.pos, e.pos, Labels(name, a));
    }
  }

  /** An entry with the text still to be written is an old one: those of this name are longer. */
  lemma FoundOld(p: seq<byte>, name: seq<byte>, j0: nat, s: nat, es: seq<Entry>, pos: nat)
    requires s <= |name| && AllInWork(p, name, j0, s, es) && Entry(name[s..], pos) in es
    requires forall i :: 0 <= i < |es| ==> es[i].pos < j0 + s
    ensures pos < j0 && pos < |p| && Reads(p, pos, pos, Labels(name, s)) && Short(name, s)
  {
    var i :| 0 <= i < |es| && es[i] == Entry(name[s..], pos);
    assert InWork(p, name, j0, s, es[i]);
    SuffixLabels(name, s, 0);
  }

  // ---------- dnsname_to_labels ----------

  /** APPEND16 of a pointer. */
  method AppendPointer(buf: array<byte>, j: nat, ref: nat) returns (r: int)
    requires j <= buf.Length && ref < REACH
    modifies buf
    ensures r == if j + 2 > buf.Length then -2 else j + 2
    ensures r >= 0 ==> buf[..r] == old(buf[..j]) + [0xc0 + ref / 256, ref % 256]
    ensures r < 0 ==> buf[..j] == old(buf[..j])
  {
    if j + 2 > buf.Length {
      return -2;
    }
    buf[j], buf[j + 1] := 0xc0 + ref / 256, ref % 256;
    assert buf[..j + 2] == buf[..j] + [buf[j], buf[j + 1]];
    return j + 2;
  }

  /** A length byte and the label. */
  method WriteLabel(buf: array<byte>, j: nat, text: seq<byte>)
    requires j + |text| + 1 <= buf.Length && |text| <= 63
    modifies buf
    ensures buf[..j + |text| + 1] == old(buf[..j]) + ([|text|] + text)
  {
    buf[j] := |text|;
    forall i | 0 <= i < |text| {
      buf[j + 1 + i] := text[i];
    }
    assert buf[..j + 1 + |text|] == buf[..j] + ([buf[j]] + buf[j + 1..j + 1 + |text|]);
    assert buf[j + 1..j + 1 + |text|] == text;
  }

  lemma PointerReads(p: seq<byte>, ref: nat, j0: nat, labels: seq<seq<byte>>)
    requires ref < j0 <= |p| && ref < REACH && Reads(p, ref, ref, labels)
    ensures var q := p + [0xc0 + ref / 256, ref % 256]; Reads(q, j0, |p|, labels) && EndOf(q, |p|) == |p| + 2
  {
    var more: seq<byte> := [0xc0 + ref / 256, ref % 256];
    ReadsMore(p, more, ref, ref, labels);
    var q := p + more;
    assert High(q[|p|]) == ref / 256;
    assert At(q, |p|) == Jump(ref);
  }

  lemma LabelAt(p: seq<byte>, text: seq<byte>)
    requires |text| <= 63
    ensures At(p + ([|text|] + text), |p|) == Sign(text)
  {
    var q := p + ([|text|] + text);
    assert q[|p| + 1..|p| + 1 + |text|] == text;
  }

  /** The last label and the zero behind it; no label, if the name ends with a dot or is empty. */
  lemma LastReads(p: seq<byte>, name: seq<byte>, j0: nat, s: nat)
    requires s <= |name| && |p| == j0 + s && Dot(name, s) == |name| && |name| - s <= 63
    ensures var tail := if s == |name| then [0] else [|name| - s] + name[s..] + [0];
            Reads(p + tail, j0, |p|, Labels(name, s)) && EndOf(p + tail, |p|) == |p| + |tail|
  {
    if s < |name| {
      var text := name[s..];
      LabelAt(p, text);
      var q := p + ([|text|] + text);
      AtMore(q, [0], |p|);
      assert p + ([|text|] + text + [0]) == q + [0];
      assert At(q + [0], |q|) == Stop;
      assert Labels(name, s) == [text] && Labels(name, s)[1..] == [];
    }
  }

  lemma LabelStep(name: seq<byte>, s: nat)
    requires s <= |name|
    ensures var k := Dot(name, s);
            && s <= k <= |name|
            && (Short(name, s) <==> k - s <= 63 && (k == |name| || Short(name, k + 1)))
  {
  }

  lemma KnownInside(p: seq<byte>, es: seq<Entry>)
    requires forall i :: 0 <= i < |es| ==> Known(p, es[i])
    ensures forall i :: 0 <= i < |es| ==> es[i].pos < |p|
  {
  }

  /** The whole name can be read once its rest can. */
  lemma WholeName(p: seq<byte>, more: seq<byte>, name: seq<byte>, j0: nat, s: nat)
    requires s <= |name| && Spelled(p, name, j0, 0, s) && Reads(p + more, j0, j0 + s, Labels(name, s))
    ensures Reads(p + more, j0, j0, Labels(name, 0))
    ensures if NoEmpty(name, 0, s) then EndOf(p + more, j0) == EndOf(p + more, j0 + s)
            else EndOf(p + more, j0) <= j0 + s
  {
    hide Reads, Spelled, Labels, EndOf;
    SpelledMore(p, more, name, j0, 0, s);
    SpelledReads(p + more, name, j0, 0, s);
    SpelledEnd(p + more, name, j0, 0, s);
  }

  /** A label that is not the last was written. */
  lemma NextLabel(p: seq<byte>, name: seq<byte>, j0: nat, s: nat, es: seq<Entry>)
    requires s <= |name| && |p| == j0 + s && Spelled(p, name, j0, 0, s) && AllInWork(p, name, j0, s, es)
    requires var k := Dot(name, s); k < |name| && k - s <= 63
    ensures var k := Dot(name, s); var q := p + ([k - s] + name[s..k]);
            Spelled(q, name, j0, 0, k + 1) && AllInWork(q, name, j0, k + 1, es)
  {
    hide Reads, Spelled, Labels, Known, At, Dot, InWork, AllInWork;
    var k := Dot(name, s);
    var more: seq<byte> := [k - s] + name[s..k];
    LabelAt(p, name[s..k]);
    GoOn(p, more, name, j0, s, es);
    SpelledMore(p, more, name, j0, 0, s);
    SpelledSnoc(p + more, name, j0, 0, s);
  }

  /** What was written last does not reach back before j0. */
  lemma Unchanged(buf: seq<byte>, p: seq<byte>, j0: nat)
    requires j0 <= |p| <= |buf| && buf[..|p|] == p
    ensures buf[..j0] == p[..j0]
  {
  }

  ghost function EntriesOf(table: LabelTable?): seq<Entry>
    reads table
  {
    if table == null then [] else table.labels
  }

  /** The last label and its zero are written. */
  lemma Finish(p: seq<byte>, name: seq<byte>, j0: nat, s: nat, es: seq<Entry>, labelled: seq<byte>, whole: seq<byte>)
    requires s <= |name| && |p| == j0 + s && Dot(name, s) == |name| && |name| - s <= 63 && 0 !in name
    requires Spelled(p, name, j0, 0, s) && AllInWork(p, name, j0, s, es)
    requires labelled == p + ([|name| - s] + name[s..])
    requires whole == if labelled[|labelled| - 1] != 0 then labelled + [0] else labelled
    ensures Reads(whole, j0, j0, Labels(name, 0)) && (EndOf(whole, j0) == |whole| <==> NoEmpty(name, 0, s))
    ensures forall i :: 0 <= i < |es| ==> Known(whole, es[i])
  {
    hide Reads, Spelled, Labels, Known, At, EndOf, Dot, InWork, AllInWork, NoEmpty, Short;
    LabelStep(name, s);
    LastReads(p, name, j0, s);
    var tail: seq<byte> := if s == |name| then [0] else [|name| - s] + name[s..] + [0];
    assert whole == p + tail by {
      if s < |name| { assert labelled[|labelled| - 1] == name[|name| - 1] && name[|name| - 1] in name; }
    }
    WholeName(p, tail, name, j0, s);
    Complete(p, tail, name, j0, s, es);
  }

  /** The name is written up to index s of its text, where p ends; entries lie before that, or, once
      the rest is remembered, at that position. */
  ghost predicate InProgress(p: seq<byte>, name: seq<byte>, j0: nat, s: nat, es: seq<Entry>, remembered: bool) {
    && s <= |name| && |p| == j0 + s && (s > 0 ==> name[s - 1] == DOT)
    && Spelled(p, name, j0, 0, s) && (Short(name, 0) <==> Short(name, s))
    && AllInWork(p, name, j0, s, es)
    && forall i :: 0 <= i < |es| ==> es[i].pos < |p| || (remembered && es[i].pos == |p|)
  }

  lemma StartProgress(p: seq<byte>, name: seq<byte>, es: seq<Entry>)
    requires forall i :: 0 <= i < |es| ==> Known(p, es[i])
    ensures InProgress(p, name, |p|, 0, es, false)
  {
    hide Filled, Short, Known, Reads;
    StartWork(p, name, es);
    KnownInside(p, es);
  }

  lemma NextProgress(p: seq<byte>, name: seq<byte>, j0: nat, s: nat, es: seq<Entry>)
    requires InProgress(p, name, j0, s, es, true)
    requires var k := Dot(name, s); k < |name| && k - s <= 63
    ensures var k := Dot(name, s); InProgress(p + ([k - s] + name[s..k]), name, j0, k + 1, es, false)
  {
    hide Filled, Short, Spelled, AllInWork, Dot;
    LabelStep(name, s);
    NextLabel(p, name, j0, s, es);
  }

  lemma LongLabel(p: seq<byte>, name: seq<byte>, j0: nat, s: nat, es: seq<Entry>)
    requires InProgress(p, name, j0, s, es, false) && Dot(name, s) - s > 63
    ensures !Short(name, 0)
  {
    LabelStep(name, s);
  }

  /** The name is written behind j0, and every entry of the table is known. */
  ghost predicate Written(p: seq<byte>, name: seq<byte>, j0: nat, es: seq<Entry>) {
    Reads(p, j0, j0, Labels(name, 0)) && forall i :: 0 <= i < |es| ==> Known(p, es[i])
  }

  /** The rest of the name is in the table: point there. */
  method WritePointer(buf: array<byte>, j: nat, ref: nat, ghost name: seq<byte>, ghost j0: nat, ghost s: nat,
      ghost es: seq<Entry>)
      returns (r: int)
    requires j <= buf.Length <= REACH && InProgress(buf[..j], name, j0, s, es, false) && Entry(name[s..], ref) in es
    modifies buf
    ensures r == if j + 2 > buf.Length then -2 else j + 2
    ensures s <= |name| && j == j0 + s && buf[..j0] == old(buf[..j0])
    ensures r >= 0 ==> Short(name, 0) && Written(buf[..r], name, j0, es)
    ensures r >= 0 ==> (EndOf(buf[..r], j0) == r <==> NoEmpty(name, 0, s))
  {
    hide Reads, Spelled, Labels, Known, EndOf, AllInWork, Short, Filled;
    ghost var p := buf[..j];
    FoundOld(p, name, j0, s, es, ref);
    r := AppendPointer(buf, j, ref);
    if r >= 0 {
      PointerReads(p, ref, j0, Labels(name, s));
      WholeName(p, [0xc0 + ref / 256, ref % 256], name, j0, s);
      Complete(p, [0xc0 + ref / 256, ref % 256], name, j0, s, es);
      Unchanged(buf[..r], p, j0);
    } else {
      Unchanged(buf[..j], p, j0);
    }
  }

  /** Close the name with a zero, unless its last label was empty.  It is stored without a look at the length
      of the buffer; overrun says that it came to lie right behind the end. */
  method Terminate(buf: array<byte>, j: nat, ghost p: seq<byte>, ghost name: seq<byte>, ghost j0: nat, ghost s: nat,
                   ghost es: seq<Entry>) returns (r: nat, overrun: bool)
    requires j == j0 + |name| + 1 <= buf.Length && InProgress(p, name, j0, s, es, true)
    requires Dot(name, s) == |name| && |name| - s <= 63 && 0 !in name
    requires buf[..j] == p + ([|name| - s] + name[s..])
    modifies buf
    ensures r == EndUncompressed(name, j0) && buf[..j0] == old(buf[..j0]) && Short(name, 0)
    ensures overrun <==> j == buf.Length && name != [] && name[|name| - 1] != DOT
    ensures if overrun then r == buf.Length + 1
            else r <= buf.Length && Written(buf[..r], name, j0, es) &&
                 (EndOf(buf[..r], j0) == r <==> NoEmpty(name, 0, s))
  {
    hide Reads, Spelled, Labels, Known, EndOf, AllInWork, Dot, Short, Filled;
    LabelStep(name, s);
    ghost var labelled := buf[..j];
    assert labelled[j - 1] == buf[j - 1];
    LastByte(name, s, p, labelled);
    r, overrun := j, false;
    if buf[j - 1] != 0 {
      if j < buf.Length {
        buf[j] := 0;
        assert buf[..j + 1] == labelled + [0];
      } else {
        overrun := true;
      }
      r := j + 1;
    }
    assert buf[..j] == labelled;
    Unchanged(buf[..j], p, j0);
    if !overrun {
      Finish(p, name, j0, s, es, labelled, buf[..r]);
    }
  }

  /** The last byte written is zero exactly when the last label is empty. */
  lemma LastByte(name: seq<byte>, s: nat, p: seq<byte>, labelled: seq<byte>)
    requires s <= |name| && Dot(name, s) == |name| && 0 !in name && (s > 0 ==> name[s - 1] == DOT)
    requires labelled == p + ([|name| - s] + name[s..])
    ensures labelled[|labelled| - 1] == 0 <==> name == [] || name[|name| - 1] == DOT
  {
    if s < |name| {
      assert labelled[|labelled| - 1] == name[|name| - 1] && name[|name| - 1] in name;
    }
  }

  /** Note in the table that the rest of the name is about to be written. */
  method Remember(table: LabelTable?, name: seq<byte>, s: nat, j: nat, ghost p: seq<byte>, ghost j0: nat)
    requires j == |p| && InProgress(p, name, j0, s, EntriesOf(table), false)
    modifies table
    ensures InProgress(p, name, j0, s, EntriesOf(table), true)
    ensures var es, more := old(EntriesOf(table)), EntriesOf(table);
            more == if table == null || |es| == MAX_LABELS then es else es + [Entry(name[s..], j)]
  {
    hide AllInWork, Spelled, Filled, Short;
    AddWork(p, name, j0, s, EntriesOf(table));
    if table != null {
      var r := table.Add(name[s..], j);
    }
  }

  /** No suffix of the name that starts with a label, from index s on, is the text of an entry. */
  ghost predicate Unknown(name: seq<byte>, s: nat, es: seq<Entry>)
    requires s <= |name|
    decreases |name| - s
  {
    && (forall i :: 0 <= i < |es| ==> es[i].text != name[s..])
    && (Dot(name, s) < |name| ==> Unknown(name, Dot(name, s) + 1, es))
  }

  ghost predicate IsKnown(text: seq<byte>, es: seq<Entry>) {
    exists i :: 0 <= i < |es| && es[i].text == text
  }

  /** The first suffix, from index s on, that starts with a label and is the text of an entry; behind the name if there
      is none. */
  ghost function Cut(name: seq<byte>, s: nat, es: seq<Entry>): (c: nat)
    requires s <= |name|
    ensures s <= c <= |name| + 1 && (c <= |name| ==> IsKnown(name[c..], es))
    decreases |name| - s
  {
    if IsKnown(name[s..], es) then s
    else if Dot(name, s) == |name| then |name| + 1
    else Cut(name, Dot(name, s) + 1, es)
  }

  /** Where the labels up to index stop, from index a on, are remembered. */
  ghost function Marks(name: seq<byte>, a: nat, stop: nat, j0: nat): seq<Entry>
    requires a <= |name| + 1
    decreases |name| + 1 - a
  {
    if a >= stop || a > |name| then []
    else [Entry(name[a..], j0 + a)] + Marks(name, Dot(name, a) + 1, stop, j0)
  }

  /** As many entries as there is room for. */
  ghost function Limited(es: seq<Entry>): seq<Entry> {
    es[..Min(|es|, MAX_LABELS)]
  }

  /** The result: the end of the name, or why it could not be written from index s on. */
  ghost function Wrote(name: seq<byte>, s: nat, j0: nat, size: nat, es: seq<Entry>): int
    requires s <= |name|
    decreases |name| - s
  {
    var k := Dot(name, s);
    if IsKnown(name[s..], es) then (if j0 + s + 2 > size then -2 else j0 + s + 2)
    else if k - s > 63 then -1
    else if j0 + k + 1 > size then -2
    else if k == |name| then EndUncompressed(name, j0)
    else Wrote(name, k + 1, j0, size, es)
  }

  /** Where all labels of a name end, with the zero behind the last one unless that is empty. */
  function EndUncompressed(name: seq<byte>, j0: nat): nat {
    j0 + |name| + if name == [] || name[|name| - 1] == DOT then 1 else 2
  }

  /** A name that was written ends with a pointer in place of its first known suffix, or in full. */
  lemma {:induction false} WroteAt(name: seq<byte>, s: nat, j0: nat, size: nat, es: seq<Entry>)
    requires s <= |name| && Wrote(name, s, j0, size, es) >= 0
    ensures Wrote(name, s, j0, size, es) ==
            if Cut(name, s, es) <= |name| then j0 + Cut(name, s, es) + 2 else EndUncompressed(name, j0)
    decreases |name| - s
  {
    hide Dot;
    if !IsKnown(name[s..], es) && Dot(name, s) < |name| { WroteAt(name, Dot(name, s) + 1, j0, size, es); }
  }

  /** How the result and the table depend on what is still to be written from index s on. */
  ghost predicate OnTrack(before: seq<Entry>, es: seq<Entry>, name: seq<byte>, s: nat, j0: nat, size: nat,
                          table: bool) {
    && s <= |name| && |before| <= MAX_LABELS
    && Wrote(name, 0, j0, size, before) == Wrote(name, s, j0, size, before)
    && Cut(name, 0, before) == Cut(name, s, before)
    && es == if table then Limited(before + Marks(name, 0, s, j0)) else before
  }

  lemma TrackStarts(es: seq<Entry>, name: seq<byte>, j0: nat, size: nat, table: bool)
    requires |es| <= MAX_LABELS
    ensures OnTrack(es, es, name, 0, j0, size, table)
  {
    assert es + [] == es;
  }

  /** The label at index s was written: go on behind it, or all is done. */
  lemma TrackStep(before: seq<Entry>, es: seq<Entry>, more: seq<Entry>, name: seq<byte>, s: nat, p: seq<byte>, j0: nat,
                  size: nat, table: bool)
    requires OnTrack(before, es, name, s, j0, size, table) && !IsKnown(name[s..], before)
    requires Dot(name, s) - s <= 63 && j0 + Dot(name, s) + 1 <= size && Spelled(p, name, j0, 0, s)
    requires more == if !table || |es| == MAX_LABELS then es else es + [Entry(name[s..], j0 + s)]
    ensures var k := Dot(name, s);
            if k < |name| then OnTrack(before, more, name, k + 1, j0, size, table)
            else Wrote(name, 0, j0, size, before) == EndUncompressed(name, j0) && Cut(name, 0, before) == |name| + 1 &&
                 more == if table then Limited(before + Marks(name, 0, |name| + 1, j0)) else before
  {
    hide Dot, IsKnown, Spelled, Wrote, Cut, Marks, Limited;
    WroteNext(name, s, j0, size, before);
    Remembered(before, name, s, p, j0);
  }

  lemma WroteNext(name: seq<byte>, s: nat, j0: nat, size: nat, before: seq<Entry>)
    requires s <= |name| && !IsKnown(name[s..], before) && Dot(name, s) - s <= 63 && j0 + Dot(name, s) + 1 <= size
    ensures var k := Dot(name, s);
            && Wrote(name, s, j0, size, before) ==
               (if k < |name| then Wrote(name, k + 1, j0, size, before) else EndUncompressed(name, j0))
            && Cut(name, s, before) == if k < |name| then Cut(name, k + 1, before) else |name| + 1
  {
    hide Dot, IsKnown;
  }

  lemma Remembered(before: seq<Entry>, name: seq<byte>, s: nat, p: seq<byte>, j0: nat)
    requires s <= |name| && Spelled(p, name, j0, 0, s)
    ensures var es := Limited(before + Marks(name, 0, s, j0));
            Limited(before + Marks(name, 0, Dot(name, s) + 1, j0)) ==
            if |es| == MAX_LABELS then es else es + [Entry(name[s..], j0 + s)]
  {
    hide Dot, Spelled, Marks, Limited;
    MarksSnoc(p, name, 0, s, j0);
    var marks, e := Marks(name, 0, s, j0), Entry(name[s..], j0 + s);
    LimitedSnoc(before + marks, e);
    assert before + marks + [e] == before + (marks + [e]);
  }

  lemma LimitedSnoc(es: seq<Entry>, e: Entry)
    ensures Limited(es + [e]) == if |Limited(es)| == MAX_LABELS then Limited(es) else Limited(es) + [e]
  {
  }

  lemma {:induction false} MarksSnoc(p: seq<byte>, name: seq<byte>, a: nat, s: nat, j0: nat)
    requires a <= s <= |name| && Spelled(p, name, j0, a, s)
    ensures Marks(name, a, Dot(name, s) + 1, j0) == Marks(name, a, s, j0) + [Entry(name[s..], j0 + s)]
    decreases s - a
  {
    var stop := Dot(name, s) + 1;
    if a == s {
      assert Marks(name, stop, stop, j0) == [];
    } else {
      MarksSnoc(p, name, Dot(name, a) + 1, s, j0);
    }
  }

  /** All labels were written, and where there is a table all of them are remembered there. */
  ghost predicate AllWritten(before: seq<Entry>, es: seq<Entry>, name: seq<byte>, j0: nat, size: nat, table: bool) {
    && Wrote(name, 0, j0, size, before) == EndUncompressed(name, j0) && Cut(name, 0, before) == |name| + 1
    && es == if table then Limited(before + Marks(name, 0, |name| + 1, j0)) else before
  }

  lemma NextTrack(before: seq<Entry>, es: seq<Entry>, more: seq<Entry>, name: seq<byte>, s: nat, p: seq<byte>, j0: nat,
                  size: nat, table: bool)
    requires OnTrack(before, es, name, s, j0, size, table) && !IsKnown(name[s..], before)
    requires Dot(name, s) - s <= 63 && j0 + Dot(name, s) + 1 <= size && InProgress(p, name, j0, s, es, false)
    requires more == if !table || |es| == MAX_LABELS then es else es + [Entry(name[s..], j0 + s)]
    ensures var k := Dot(name, s);
            if k < |name| then OnTrack(before, more, name, k + 1, j0, size, table)
            else AllWritten(before, more, name, j0, size, table)
  {
    hide Dot, IsKnown, Spelled, OnTrack, AllInWork;
    TrackStep(before, es, more, name, s, p, j0, size, table);
  }

  lemma NotKnown(before: seq<Entry>, es: seq<Entry>, name: seq<byte>, s: nat)
    requires Searched(before, es, name, s) && forall i :: 0 <= i < |es| ==> es[i].text != name[s..]
    ensures !IsKnown(name[s..], before)
  {
    assert forall i :: 0 <= i < |before| ==> before[i] == es[..|before|][i] == es[i];
  }

  /** A label that is too long, or for which there is no room. */
  lemma TrackFails(before: seq<Entry>, es: seq<Entry>, name: seq<byte>, s: nat, j0: nat, size: nat, table: bool)
    requires OnTrack(before, es, name, s, j0, size, table) && !IsKnown(name[s..], before)
    ensures Dot(name, s) - s > 63 ==> Wrote(name, 0, j0, size, before) == -1
    ensures Dot(name, s) - s <= 63 && j0 + Dot(name, s) + 1 > size ==> Wrote(name, 0, j0, size, before) == -2
  {
  }

  lemma TrackTable(before: seq<Entry>, es: seq<Entry>, name: seq<byte>, s: nat, j0: nat, size: nat, table: bool)
    requires OnTrack(before, es, name, s, j0, size, table)
    ensures es == if table then Limited(before + Marks(name, 0, s, j0)) else before
  {
  }

  /** What is found in the table ends the name. */
  lemma TrackEnds(before: seq<Entry>, es: seq<Entry>, name: seq<byte>, s: nat, j0: nat, size: nat, table: bool)
    requires OnTrack(before, es, name, s, j0, size, table) && IsKnown(name[s..], before)
    ensures Cut(name, 0, before) == s
    ensures Wrote(name, 0, j0, size, before) == if j0 + s + 2 > size then -2 else j0 + s + 2
  {
  }

  /** Up to the first suffix that is the text of an entry, or the last label, no label is empty. */
  ghost predicate Undivided(name: seq<byte>, s: nat, es: seq<Entry>)
    requires s <= |name|
    decreases |name| - s
  {
    || (exists i :: 0 <= i < |es| && es[i].text == name[s..])
    || Dot(name, s) == |name|
    || (s < Dot(name, s) && Undivided(name, Dot(name, s) + 1, es))
  }

  lemma {:induction false} FilledUndivided(name: seq<byte>, s: nat, es: seq<Entry>)
    requires s <= |name| && Filled(name, s)
    ensures Undivided(name, s, es)
    decreases |name| - s
  {
    if Dot(name, s) < |name| { FilledUndivided(name, Dot(name, s) + 1, es); }
  }

  /** The entries es are those of before, and longer suffixes than the one at index s; what of the
      name is behind index s decides whether any suffix was known before. */
  ghost predicate Searched(before: seq<Entry>, es: seq<Entry>, name: seq<byte>, s: nat) {
    && s <= |name| && |before| <= |es| && es[..|before|] == before
    && (forall i :: |before| <= i < |es| ==> |es[i].text| > |name| - s)
    && (Unknown(name, 0, before) <==> Unknown(name, s, before))
    && (Undivided(name, 0, before) <==> NoEmpty(name, 0, s) && Undivided(name, s, before))
  }

  lemma StartSearch(name: seq<byte>, es: seq<Entry>)
    ensures Searched(es, es, name, 0)
  {
  }

  /** What is found was there before. */
  lemma FoundBefore(before: seq<Entry>, es: seq<Entry>, name: seq<byte>, s: nat, ref: nat)
    requires Searched(before, es, name, s) && Entry(name[s..], ref) in es
    ensures !Unknown(name, 0, before) && (Undivided(name, 0, before) <==> NoEmpty(name, 0, s))
    ensures IsKnown(name[s..], before)
  {
    var i :| 0 <= i < |es| && es[i] == Entry(name[s..], ref);
    assert |es[i].text| == |name| - s;
    assert before[i] == es[..|before|][i];
  }

  /** Nothing was found: the next suffix decides. */
  lemma NotFound(before: seq<Entry>, es: seq<Entry>, name: seq<byte>, s: nat, more: seq<Entry>)
    requires Searched(before, es, name, s) && forall i :: 0 <= i < |es| ==> es[i].text != name[s..]
    requires es <= more && forall i :: |es| <= i < |more| ==> more[i].text == name[s..]
    requires Dot(name, s) < |name| ==>
               (NoEmpty(name, 0, Dot(name, s) + 1) <==> NoEmpty(name, 0, s) && s < Dot(name, s))
    ensures var k := Dot(name, s);
            if k < |name| then Searched(before, more, name, k + 1)
            else Unknown(name, 0, before) && (Undivided(name, 0, before) <==> NoEmpty(name, 0, s))
  {
    assert forall i :: 0 <= i < |before| ==> before[i] == es[..|before|][i] == es[i];
    assert more[..|before|] == more[..|es|][..|before|];
  }

  lemma EmptyStep(p: seq<byte>, name: seq<byte>, j0: nat, s: nat, es: seq<Entry>)
    requires InProgress(p, name, j0, s, es, false)
    ensures Dot(name, s) < |name| ==>
              (NoEmpty(name, 0, Dot(name, s) + 1) <==> NoEmpty(name, 0, s) && s < Dot(name, s))
  {
    hide NoEmpty, Spelled, AllInWork;
    if Dot(name, s) < |name| { NoEmptySnoc(p, name, j0, 0, s); }
  }

  /** When the closing zero is stored right behind the end of the buffer. */
  ghost predicate Overruns(size: nat, j0: nat, name: seq<byte>, es: seq<Entry>) {
    && |name| <= 255 && Short(name, 0) && j0 + |name| + 1 == size
    && name != [] && name[|name| - 1] != DOT && Unknown(name, 0, es)
  }

  /** Remember the rest of the name and write its first label. */
  method PutLabel(buf: array<byte>, j: nat, name: seq<byte>, s: nat, table: LabelTable?,
                  ghost p: seq<byte>, ghost j0: nat, ghost before: seq<Entry>) returns (next: nat)
    requires OnTrack(before, EntriesOf(table), name, s, j0, buf.Length, table != null)
    requires InProgress(p, name, j0, s, EntriesOf(table), false) && Searched(before, EntriesOf(table), name, s)
    requires forall i :: 0 <= i < |EntriesOf(table)| ==> EntriesOf(table)[i].text != name[s..]
    requires j == j0 + s && j <= buf.Length && p == buf[..j]
    requires Dot(name, s) - s <= 63 && j + (Dot(name, s) - s) + 1 <= buf.Length
    modifies buf, table
    ensures next == j0 + Dot(name, s) + 1 <= buf.Length && buf[..j0] == old(buf[..j0])
    ensures buf[..next] == p + ([Dot(name, s) - s] + name[s..Dot(name, s)])
    ensures InProgress(p, name, j0, s, EntriesOf(table), true)
    ensures if Dot(name, s) == |name| then
              Unknown(name, 0, before) && (Undivided(name, 0, before) <==> NoEmpty(name, 0, s))
            else InProgress(buf[..next], name, j0, Dot(name, s) + 1, EntriesOf(table), false) &&
                 Searched(before, EntriesOf(table), name, Dot(name, s) + 1)
    ensures if Dot(name, s) == |name| then AllWritten(before, EntriesOf(table), name, j0, buf.Length, table != null)
            else OnTrack(before, EntriesOf(table), name, Dot(name, s) + 1, j0, buf.Length, table != null)
  {
    hide Reads, Labels, Short, Filled, Known, EndOf, Dot, InProgress, Written, Searched, Unknown, Undivided, NoEmpty;
    hide OnTrack, IsKnown, Cut, Wrote, Marks, Limited, AllWritten, EntriesOf, LabelTable.Valid;
    ghost var es := EntriesOf(table);
    var k := Dot(name, s);
    Remember(table, name, s, j, p, j0);
    EmptyStep(p, name, j0, s, es);
    NotKnown(before, es, name, s);
    NotFound(before, es, name, s, EntriesOf(table));
    NextTrack(before, es, EntriesOf(table), name, s, p, j0, buf.Length, table != null);
    WriteLabel(buf, j, name[s..k]);
    next := j + (k - s) + 1;
    Unchanged(buf[..next], p, j0);
    if k < |name| {
      NextProgress(p, name, j0, s, EntriesOf(table));
    }
  }

  /** Write a name at position j0, using and extending the table.
      A zero in the text would end it; an empty label would end it in the message. */
  method DnsnameToLabels(buf: array<byte>, j0: nat, name: seq<byte>, table: LabelTable?) returns (r: int, overrun: bool)
    requires j0 <= buf.Length <= REACH
    requires 0 !in name
    requires table != null ==> table.Valid(buf[..j0])
    modifies buf, table
    ensures overrun <==> Overruns(buf.Length, j0, name, old(EntriesOf(table)))
    ensures overrun ==> r == buf.Length + 1
    ensures !overrun ==> r == -1 || r == -2 || j0 < r <= Min(buf.Length, j0 + |name| + 2)
    ensures buf[..j0] == old(buf[..j0])
    ensures r == -1 ==> |name| <= 255 && !Short(name, 0)
    ensures r == -2 ==> |name| > 255 || j0 + |name| + 1 > buf.Length ||
                        (j0 + |name| + 1 == buf.Length && (name == [] || name[|name| - 1] == DOT))
    ensures r >= 0 && !overrun ==> |name| <= 255 && Short(name, 0) && Written(buf[..r], name, j0, EntriesOf(table))
    ensures r >= 0 && !overrun ==> (EndOf(buf[..r], j0) == r <==> Undivided(name, 0, old(EntriesOf(table))))
    ensures r == if |name| > 255 then -2 else Wrote(name, 0, j0, buf.Length, old(EntriesOf(table)))
    ensures r >= 0 && table != null ==>
              var before := old(EntriesOf(table));
              table.labels == Limited(before + Marks(name, 0, Cut(name, 0, before), j0))
  {
    hide Reads, Labels, Short, Filled, Known, EndOf, Dot, InProgress, Written, Searched, Unknown, Undivided, NoEmpty;
    hide OnTrack, IsKnown, Cut, Wrote, Marks, Limited;
    overrun := false;
    if |name| > 255 {
      return -2, false;
    }
    var j, s: nat := j0, 0;
    StartProgress(buf[..j0], name, EntriesOf(table));
    StartSearch(name, EntriesOf(table));
    TrackStarts(EntriesOf(table), name, j0, buf.Length, table != null);
    ghost var p, before := buf[..j0], EntriesOf(table);
    while true
      invariant s <= |name| && j == j0 + s <= buf.Length && p == buf[..j] && buf[..j0] == old(buf[..j0])
      invariant InProgress(p, name, j0, s, EntriesOf(table), false)
      invariant Searched(before, EntriesOf(table), name, s)
      invariant OnTrack(before, EntriesOf(table), name, s, j0, buf.Length, table != null)
      invariant s > 0 ==> name[s - 1] == DOT
      decreases |name| - s
    {
      if table != null {
        var ref := table.GetPos(name[s..]);
        if ref >= 0 {
          FoundBefore(before, table.labels, name, s, ref);
          TrackEnds(before, table.labels, name, s, j0, buf.Length, true);
          TrackTable(before, table.labels, name, s, j0, buf.Length, true);
          r := WritePointer(buf, j, ref, name, j0, s, table.labels);
          return;
        }
      }
      var k := Dot(name, s);
      var labelLen: nat := k - s;
      NotKnown(before, EntriesOf(table), name, s);
      TrackFails(before, EntriesOf(table), name, s, j0, buf.Length, table != null);
      if labelLen > 63 {
        LongLabel(p, name, j0, s, EntriesOf(table));
        return -1, false;
      }
      if j + labelLen + 1 > buf.Length {
        return -2, false;
      }
      j := PutLabel(buf, j, name, s, table, p, j0, before);
      if k == |name| {
        assert name[s..k] == name[s..];
        break;
      }
      p := buf[..j];
      s := k + 1;
    }
    r, overrun := Terminate(buf, j, p, name, j0, s, EntriesOf(table));
  }

  /** A name written again takes the two bytes of a pointer, if it could be remembered and there is room for them. */
  method WriteTwice(buf: array<byte>, j0: nat, name: seq<byte>, table: LabelTable)
      returns (first: int, overrun: bool, second: int)
    requires j0 <= buf.Length <= REACH && 0 !in name && table.Valid(buf[..j0]) && |table.labels| < MAX_LABELS
    modifies buf, table
    ensures first >= 0 && !overrun && first + 2 <= buf.Length ==> second == first + 2
  {
    hide Reads, Labels, Short, Known, EndOf, Unknown, Undivided, Cut, Wrote, Marks, Limited;
    ghost var before := table.labels;
    first, overrun := DnsnameToLabels(buf, j0, name, table);
    second := -2;
    if first >= 0 && !overrun {
      NowKnown(before, name, j0);
      LimitedSize(before + Marks(name, 0, Cut(name, 0, before), j0));
      KnownAtOnce(name, first, buf.Length, table.labels);
      var over;
      second, over := DnsnameToLabels(buf, first, name, table);
    }
  }

  lemma NowKnown(before: seq<Entry>, name: seq<byte>, j0: nat)
    requires |before| < MAX_LABELS
    ensures IsKnown(name, Limited(before + Marks(name, 0, Cut(name, 0, before), j0)))
  {
    assert name[0..] == name;
    var es := before + Marks(name, 0, Cut(name, 0, before), j0);
    if IsKnown(name, before) {
      var i :| 0 <= i < |before| && before[i].text == name;
      assert Limited(es)[i].text == name;
    } else {
      assert Limited(es)[|before|] == Entry(name, j0);
    }
  }

  lemma LimitedSize(es: seq<Entry>)
    ensures |Limited(es)| <= MAX_LABELS
  {
  }

  lemma KnownAtOnce(name: seq<byte>, j: nat, size: nat, es: seq<Entry>)
    requires IsKnown(name, es)
    ensures Wrote(name, 0, j, size, es) == if j + 2 > size then -2 else j + 2
  {
    assert name[0..] == name;
  }

  /** Two bytes before the end of a buffer of 1500, the one-letter name needs a third. */
  method OverrunBehindBuffer() returns (overrun: bool)
    ensures overrun
  {
    var name: seq<byte> := ['a' as int];
    assert Dot(name, 0) == 1;
    var buf := new byte[1500](_ => 0);
    var r;
    r, overrun := DnsnameToLabels(buf, 1498, name, null);
  }

  // ---------- Round trip ----------

  /** A name that can be written: no zeros, no empty label before the last, no label over 63 bytes. */
  ghost predicate Proper(name: seq<byte>) {
    |name| <= 255 && 0 !in name && Filled(name, 0) && Short(name, 0)
  }

  /** The name without a dot at its end. */
  function Stripped(name: seq<byte>): seq<byte> {
    if name != [] && name[|name| - 1] == DOT then name[..|name| - 1] else name
  }

  /** The labels of a name, joined by dots, are the beginning of it, and all of it exactly when none but the last
      is empty; the name of the root may also be written as a dot. */
  lemma {:induction false} DottedLabels(name: seq<byte>, a: nat)
    requires a <= |Stripped(name)|
    ensures Dotted(Labels(name, a)) <= Stripped(name)[a..]
    ensures Dotted(Labels(name, a)) == Stripped(name)[a..] <==> Filled(name, a) || name[a..] == [DOT]
    decreases |name| - a
  {
    hide Dot, Dotted, Filled, Labels, Stripped;
    StrippedPart(name);
    var k := Dot(name, a);
    if k < |Stripped(name)| {
      DottedLabels(name, k + 1);
      if k > a { DottedBehind(name, a); }
    } else if k > a {
      DottedLast(name, a);
    }
    if k == a { DottedEmpty(name, a); }
  }

  lemma DottedEmpty(name: seq<byte>, a: nat)
    requires a <= |Stripped(name)| && Dot(name, a) == a
    ensures Dotted(Labels(name, a)) == []
    ensures Stripped(name)[a..] == [] <==> Filled(name, a) || name[a..] == [DOT]
  {
    hide Dotted, Dot, Stripped;
    StrippedPart(name);
    DottedNone();
  }

  lemma DottedLast(name: seq<byte>, a: nat)
    requires a <= |name| && a < Dot(name, a) && |Stripped(name)| <= Dot(name, a)
    ensures Dotted(Labels(name, a)) == Stripped(name)[a..] && Filled(name, a)
  {
    hide Dot, Dotted, Filled, Labels, Stripped;
    StrippedPart(name);
    LabelsStep(name, a);
    var k, e := Dot(name, a), |Stripped(name)|;
    if k < |name| { LabelsStep(name, k + 1); }
    DottedOne([], name[a..k]);
    assert Labels(name, a) == [] + [name[a..k]];
    Pieces(name, e, a, k);
  }

  /** A label, and what the labels behind it make of the rest. */
  lemma DottedBehind(name: seq<byte>, a: nat)
    requires a <= |name| && a < Dot(name, a) < |Stripped(name)| <= |name|
    requires var k := Dot(name, a); var d := Dotted(Labels(name, k + 1));
             && d <= Stripped(name)[k + 1..]
             && (d == Stripped(name)[k + 1..] <==> Filled(name, k + 1) || name[k + 1..] == [DOT])
    ensures Dotted(Labels(name, a)) <= Stripped(name)[a..]
    ensures Dotted(Labels(name, a)) == Stripped(name)[a..] <==> Filled(name, a) || name[a..] == [DOT]
  {
    hide Dot, Dotted, Filled, Labels, Stripped;
    var k := Dot(name, a);
    StrippedStep(name, a);
    DottedStep(name, a);
    FilledStep(name, a);
    Behind(name[a..k], Dotted(Labels(name, k + 1)), Stripped(name)[k + 1..]);
  }

  lemma StrippedStep(name: seq<byte>, a: nat)
    requires a <= |name| && a < Dot(name, a) < |Stripped(name)| <= |name|
    ensures var k := Dot(name, a); Stripped(name)[a..] == name[a..k] + [DOT] + Stripped(name)[k + 1..]
  {
    hide Dot, Stripped;
    StrippedPart(name);
    Pieces(name, |Stripped(name)|, a, Dot(name, a));
  }

  lemma DottedStep(name: seq<byte>, a: nat)
    requires a <= |name| && a < Dot(name, a) < |name|
    ensures var k := Dot(name, a); var rest := Labels(name, k + 1);
            Dotted(Labels(name, a)) == if rest == [] then name[a..k] else name[a..k] + [DOT] + Dotted(rest)
    ensures var rest := Labels(name, Dot(name, a) + 1); rest == [] ==> Dotted(rest) == []
  {
    hide Dot, Dotted, Labels;
    var k := Dot(name, a);
    LabelsStep(name, a);
    DottedNone();
    if Labels(name, k + 1) == [] {
      DottedOne([], name[a..k]);
      assert Labels(name, a) == [] + [name[a..k]];
    } else {
      DottedCons(name[a..k], Labels(name, k + 1));
    }
  }

  lemma FilledStep(name: seq<byte>, a: nat)
    requires a <= |name| && a < Dot(name, a) < |Stripped(name)| <= |name|
    ensures var k := Dot(name, a);
            && (Filled(name, a) <==> Filled(name, k + 1)) && name[a..] != [DOT]
            && (Labels(name, k + 1) == [] ==> !Filled(name, k + 1))
            && (name[k + 1..] == [DOT] ==> Labels(name, k + 1) == [])
  {
    hide Dot, Stripped;
    StrippedPart(name);
    var k := Dot(name, a);
    assert name[k + 1..] == [DOT] ==> name[k + 1] == DOT;
  }

  lemma Behind(front: seq<byte>, a: seq<byte>, b: seq<byte>)
    requires a <= b
    ensures front <= front + [DOT] + b && |front| < |front + [DOT] + b|
    ensures front + [DOT] + a <= front + [DOT] + b && (front + [DOT] + a == front + [DOT] + b <==> a == b)
  {
    assert front + [DOT] + b == front + [DOT] + a + b[|a|..];
    if a != b { assert |front + [DOT] + a| < |front + [DOT] + b|; }
  }

  lemma StrippedPart(name: seq<byte>)
    ensures var e := |Stripped(name)|;
            && |name| - 1 <= e <= |name| && Stripped(name) == name[..e]
            && (e == |name| - 1 ==> name[e] == DOT) && (e == |name| && e > 0 ==> name[e - 1] != DOT)
  {
  }

  lemma Pieces(name: seq<byte>, e: nat, a: nat, k: nat)
    requires a <= k <= |name| && e <= |name| && a <= e
    ensures k == e ==> name[..e][a..] == name[a..k]
    ensures k < e && name[k] == DOT ==> name[..e][a..] == name[a..k] + [DOT] + name[..e][k + 1..]
  {
  }

  lemma LabelsStep(name: seq<byte>, a: nat)
    requires a <= |name|
    ensures var k := Dot(name, a);
            && Labels(name, a) == (if k == a then [] else if k == |name| then [name[a..k]]
                                   else [name[a..k]] + Labels(name, k + 1))
            && (Filled(name, a) <==> k == |name| || (a < k && Filled(name, k + 1)))
  {
    assert name[a..] == name[a..|name|];
  }

  lemma DottedNone()
    ensures Dotted([]) == []
  {
  }

  lemma DottedCons(text: seq<byte>, rest: seq<seq<byte>>)
    requires rest != []
    ensures Dotted([text] + rest) == text + [DOT] + Dotted(rest)
  {
    assert ([text] + rest)[1..] == rest;
  }

  lemma {:induction false} EndMore(p: seq<byte>, more: seq<byte>, start: nat, pos: nat, labels: seq<seq<byte>>)
    requires Reads(p, start, pos, labels)
    ensures EndOf(p + more, pos) == EndOf(p, pos)
    decreases start, if pos < |p| then |p| - pos else 0
  {
    AtMore(p, more, pos);
    match At(p, pos)
    case Stop =>
    case Jump(_) =>
    case Label(text) => EndMore(p, more, start, pos + 1 + |text|, labels[1..]);
  }

  /** The name starts at `start`, reads as it should and ends before `end`. */
  ghost predicate Placed(p: seq<byte>, name: seq<byte>, start: nat, end: nat) {
    Reads(p, start, start, Labels(name, 0)) && EndOf(p, start) == end && start <= |p|
  }

  lemma PlacedMore(p: seq<byte>, more: seq<byte>, name: seq<byte>, start: nat, end: nat)
    requires Placed(p, name, start, end)
    ensures Placed(p + more, name, start, end)
  {
    ReadsMore(p, more, start, start, Labels(name, 0));
    EndMore(p, more, start, start, Labels(name, 0));
  }

  /** Room for names, uncompressed. */
  ghost function Room(names: seq<seq<byte>>): nat {
    if names == [] then 0 else |names[0]| + 2 + Room(names[1..])
  }

  /** Where names end that are written one after the other from position j on, es being remembered already. */
  ghost function Ends(names: seq<seq<byte>>, j: nat, size: nat, es: seq<Entry>): seq<int> {
    if names == [] then []
    else
      var r := Wrote(names[0], 0, j, size, es);
      if r < 0 then [r]
      else [r] + Ends(names[1..], r, size, Limited(es + Marks(names[0], 0, Cut(names[0], 0, es), j)))
  }

  lemma EndsFirst(names: seq<seq<byte>>, n: nat, j: nat, size: nat, es: seq<Entry>)
    requires n < |names| && Wrote(names[n], 0, j, size, es) >= 0
    ensures var r := Wrote(names[n], 0, j, size, es);
            Ends(names[n..], j, size, es) ==
            [r] + Ends(names[n + 1..], r, size, Limited(es + Marks(names[n], 0, Cut(names[n], 0, es), j)))
  {
    hide Wrote, Cut, Marks, Limited;
    assert names[n..][0] == names[n] && names[n..][1..] == names[n + 1..];
  }

  /** Write names one after the other with one table; starts has the positions, and the end of the last. */
  method WriteNames(buf: array<byte>, j0: nat, names: seq<seq<byte>>) returns (starts: seq<nat>)
    requires forall i :: 0 <= i < |names| ==> Proper(names[i])
    requires j0 + Room(names) <= buf.Length <= REACH
    modifies buf
    ensures |starts| == |names| + 1 && starts[0] == j0 && starts[|names|] <= buf.Length
    ensures forall i :: 0 <= i < |names| ==> Placed(buf[..starts[|names|]], names[i], starts[i], starts[i + 1])
    ensures starts == [j0] + Ends(names, j0, buf.Length, [])
  {
    hide Placed, Reads, Labels, EndOf, LabelTable.Valid, Wrote, Cut, Marks, Limited, Ends;
    var table := new LabelTable();
    EmptyTable(table, buf[..j0]);
    starts := [j0];
    assert names[0..] == names;
    for n := 0 to |names|
      invariant |starts| == n + 1 && starts[0] == j0 && starts[n] + Room(names[n..]) <= buf.Length
      invariant table.Valid(buf[..starts[n]]) && fresh(table)
      invariant starts + Ends(names[n..], starts[n], buf.Length, table.labels) == [j0] + Ends(names, j0, buf.Length, [])
      invariant forall i :: 0 <= i < n ==> Placed(buf[..starts[n]], names[i], starts[i], starts[i + 1])
    {
      var j := starts[n];
      ghost var p := buf[..j];
      assert names[n..][0] == names[n] && names[n..][1..] == names[n + 1..];
      ghost var ends := Ends(names[n..], j, buf.Length, table.labels);
      EndsFirst(names, n, j, buf.Length, table.labels) by { FitsWhole(names[n], j, buf.Length, table.labels); }
      var r := WriteOne(buf, j, names[n], table);
      assert starts + ([r] + Ends(names[n + 1..], r, buf.Length, table.labels)) ==
             (starts + [r]) + Ends(names[n + 1..], r, buf.Length, table.labels);
      ghost var q := buf[..r];
      assert q == p + q[j..] by { assert buf[..j] == q[..j]; }
      forall i | 0 <= i < n
        ensures Placed(q, names[i], starts[i], starts[i + 1])
      {
        PlacedMore(p, q[j..], names[i], starts[i], starts[i + 1]);
      }
      starts := starts + [r];
    }
    EndsNone(names, starts[|names|], buf.Length, table.labels);
  }

  lemma EndsNone(names: seq<seq<byte>>, j: nat, size: nat, es: seq<Entry>)
    ensures Ends(names[|names|..], j, size, es) == []
  {
  }

  lemma EmptyTable(table: LabelTable, p: seq<byte>)
    requires table.labels == []
    ensures table.Valid(p)
  {
  }

  /** A proper name with room for all its labels is written. */
  lemma {:induction false} FitsFrom(name: seq<byte>, s: nat, j: nat, size: nat, es: seq<Entry>)
    requires s <= |name| && Short(name, s) && j + |name| + 2 <= size
    ensures Wrote(name, s, j, size, es) >= 0
    decreases |name| - s
  {
    hide IsKnown;
    if Dot(name, s) < |name| { FitsFrom(name, Dot(name, s) + 1, j, size, es); }
  }

  lemma FitsWhole(name: seq<byte>, j: nat, size: nat, es: seq<Entry>)
    requires Proper(name) && j + |name| + 2 <= size
    ensures Wrote(name, 0, j, size, es) >= 0
  {
    FitsFrom(name, 0, j, size, es);
  }

  method WriteOne(buf: array<byte>, j: nat, name: seq<byte>, table: LabelTable) returns (r: nat)
    requires Proper(name) && j + |name| + 2 <= buf.Length <= REACH && table.Valid(buf[..j])
    modifies buf, table
    ensures j < r <= j + |name| + 2 && buf[..j] == old(buf[..j])
    ensures table.Valid(buf[..r]) && Placed(buf[..r], name, j, r)
    ensures var es := old(table.labels);
            && r == Wrote(name, 0, j, buf.Length, es)
            && table.labels == Limited(es + Marks(name, 0, Cut(name, 0, es), j))
  {
    LimitedSize(table.labels + Marks(name, 0, Cut(name, 0, table.labels), j));
    hide Reads, Labels, EndOf, Filled, Short;
    FilledUndivided(name, 0, table.labels);
    var e, overrun := DnsnameToLabels(buf, j, name, table);
    r := e;
  }

  /** Every name comes back at its position, and the parser stops where the next one begins. */
  method RoundTrip(buf: array<byte>, j0: nat, names: seq<seq<byte>>) returns (texts: seq<seq<byte>>)
    requires forall i :: 0 <= i < |names| ==> Proper(names[i])
    requires j0 + Room(names) <= buf.Length <= REACH
    modifies buf
    ensures |texts| == |names| && forall i :: 0 <= i < |names| ==> texts[i] == Stripped(names[i])
  {
    hide Placed, Proper, Room, Reads, Labels, EndOf, Dotted, Stripped, Ends;
    var starts := WriteNames(buf, j0, names);
    var packet := buf[..starts[|names|]];
    texts := [];
    var idx := j0;
    for n := 0 to |names|
      invariant idx == starts[n] && |texts| == n && forall i :: 0 <= i < n ==> texts[i] == Stripped(names[i])
    {
      OneText(packet, names[n], idx, starts[n + 1]);
      var text, next := ParseOne(packet, idx, names[n]);
      texts := texts + [text];
      idx := next;
    }
  }

  lemma OneText(packet: seq<byte>, name: seq<byte>, idx: nat, end: nat)
    requires Proper(name) && Placed(packet, name, idx, end)
    ensures |name| <= 255 && 0 !in name && Reads(packet, idx, idx, Labels(name, 0)) && idx <= |packet|
    ensures EndOf(packet, idx) == end && Dotted(Labels(name, 0)) == Stripped(name)
  {
    hide Reads, Labels, EndOf, Filled, Short, Dotted;
    DottedLabels(name, 0);
    assert Stripped(name)[0..] == Stripped(name);
  }

  method ParseOne(packet: seq<byte>, idx: nat, ghost name: seq<byte>) returns (text: seq<byte>, next: nat)
    requires |name| <= 255 && 0 !in name && Reads(packet, idx, idx, Labels(name, 0)) && idx <= |packet|
    ensures text == Dotted(Labels(name, 0)) && next == EndOf(packet, idx)
  {
    hide Reads, Labels, EndOf, Walk, Filled, Short, Dotted;
    var nameOut := new byte[256];
    ReadsWalk(packet, idx, idx, Labels(name, 0), 0);
    DottedLabels(name, 0);
    assert Stripped(name)[0..] == Stripped(name);
    var r;
    r, next := NameParse(packet, idx, nameOut);
    var k := Terminator(nameOut, Dotted(Labels(name, 0)));
    text := nameOut[..k];
  }

  /** Any name without zeros, written alone and parsed: the text comes back exactly when no label but the last
      is empty, or it is a single dot; the parser stops where the writer did exactly when none but the last is. */
  method ReadBack(buf: array<byte>, j0: nat, name: seq<byte>) returns (r: int, text: seq<byte>, next: nat)
    requires j0 <= buf.Length <= REACH && 0 !in name && j0 + |name| + 2 <= buf.Length
    modifies buf
    ensures r >= 0 <==> |name| <= 255 && Short(name, 0)
    ensures r >= 0 ==> (text == Stripped(name) <==> Filled(name, 0) || name == [DOT])
    ensures r >= 0 ==> (next == r <==> Filled(name, 0))
  {
    hide Reads, Labels, EndOf, Filled, Short, Dotted, Undivided, Stripped;
    var overrun;
    r, overrun := DnsnameToLabels(buf, j0, name, null);
    text, next := [], 0;
    if r >= 0 {
      UndividedAlone(name, 0);
      DottedLabels(name, 0);
      assert name[0..] == name && Stripped(name)[0..] == Stripped(name);
      text, next := ParseOne(buf[..r], j0, name);
    }
  }

  /** "a..b" does not come back, and the parser stops before the end. */
  method EmptyLabel() returns (r: int, text: seq<byte>, next: nat)
    ensures r >= 0 && text != Stripped(['a' as int, DOT, DOT, 'b' as int]) && next != r
  {
    var name: seq<byte> := ['a' as int, DOT, DOT, 'b' as int];
    LettersDots(name);
    var buf := new byte[100](_ => 0);
    r, text, next := ReadBack(buf, 0, name);
  }

  lemma LettersDots(name: seq<byte>)
    requires |name| == 4 && name[0] != DOT && name[1] == DOT && name[2] == DOT && name[3] != DOT
    ensures Short(name, 0) && !Filled(name, 0)
  {
    assert Dot(name, 0) == 1 && Dot(name, 2) == 2;
    assert Dot(name, 3) == 4 by { assert Dot(name, 4) == 4; }
    assert Short(name, 3) && Short(name, 2);
  }

  lemma {:induction false} UndividedAlone(name: seq<byte>, s: nat)
    requires s <= |name|
    ensures Undivided(name, s, []) <==> Filled(name, s)
    decreases |name| - s
  {
    if Dot(name, s) < |name| { UndividedAlone(name, Dot(name, s) + 1); }
  }

  /** strlen of what the parser wrote. */
  method Terminator(a: array<byte>, ghost text: seq<byte>) returns (k: nat)
    requires |text| < a.Length && a[..|text| + 1] == text + [0] && 0 !in text
    ensures k == |text| && a[..k] == text
  {
    assert forall i :: 0 <= i < |text| ==> a[i] == (text + [0])[i] && text[i] in text;
    assert a[|text|] == (text + [0])[|text|];
    k := 0;
    while a[k] != 0
      invariant k <= |text|
      decreases |text| - k
    {
      k := k + 1;
    }
    assert a[..k] == a[..k + 1][..k];
  }
}
