/**
 * Domain names in DNS messages (RFC 1035, sections 3.1 and 4.1.4): the parser that follows
 * compression pointers, and the writer that makes them.
 */
module DnsNames {
  import opened Options
  import opened Bytes
  import opened Counting

  const DOT: byte := 0x2e

  // ---------- What a message says at a position ----------

  function High(b: byte): nat {
    var n: nat := b;
    n % 64
  }

  /** The target of the pointer whose first byte is at j. */
  function Target(p: seq<byte>, j: nat): (t: nat)
    requires j + 1 < |p|
  {
    High(p[j]) * 256 + p[j + 1]
  }

  /** What name_parse does at one position. */
  datatype Item = Stop | Bad | Label(text: seq<byte>) | Jump(to: nat)

  function At(p: seq<byte>, j: nat): (i: Item)
    ensures i.Label? ==> 1 <= |i.text| <= 63 && j + 1 + |i.text| <= |p|
    ensures i.Jump? ==> i.to < |p| && j + 2 <= |p|
    ensures i.Stop? ==> j < |p|
  {
    if j >= |p| then Bad
    else if p[j] == 0 then Stop
    else if p[j] >= 64 then
      if j + 1 < |p| && Target(p, j) < |p| then Jump(Target(p, j)) else Bad
    else if j + 1 + p[j] <= |p| then Label(p[j + 1..j + 1 + p[j]]) else Bad
  }

  /** The labels found from position j on, when at most |p| - jumps more pointers may be followed. */
  function Walk(p: seq<byte>, j: nat, jumps: nat): Option<seq<seq<byte>>>
    requires jumps <= |p|
    decreases |p| - jumps, if j < |p| then |p| - j else 0
  {
    match At(p, j)
    case Bad => None
    case Stop => Some([])
    case Jump(to) => if jumps + 1 > |p| then None else Walk(p, to, jumps + 1)
    case Label(text) => Cons(text, Walk(p, j + 1 + |text|, jumps))
  }

  function Cons(text: seq<byte>, rest: Option<seq<seq<byte>>>): Option<seq<seq<byte>>> {
    if rest.Some? then Some([text] + rest.value) else None
  }

  /** Where the name at j ends in the message: behind its zero or its first pointer. */
  function EndOf(p: seq<byte>, j: nat): nat
    decreases if j < |p| then |p| - j else 0
  {
    match At(p, j)
    case Label(text) => EndOf(p, j + 1 + |text|)
    case Jump(_) => j + 2
    case _ => j + 1
  }

  /** The labels with dots between them. */
  function Dotted(labels: seq<seq<byte>>): seq<byte> {
    if labels == [] then []
    else if |labels| == 1 then labels[0]
    else labels[0] + [DOT] + Dotted(labels[1..])
  }

  // ---------- The jump limit rejects exactly the loops ----------

  /** The name at j comes to its end within n steps: the plain reading of the standard, which
      knows no limit on pointers. */
  ghost predicate Ends(p: seq<byte>, j: nat, n: nat)
    decreases n
  {
    match At(p, j)
    case Stop => true
    case Bad => false
    case Jump(to) => n > 0 && Ends(p, to, n - 1)
    case Label(text) => n > 0 && Ends(p, j + 1 + |text|, n - 1)
  }

  ghost predicate HasEnd(p: seq<byte>, j: nat) {
    exists n: nat :: Ends(p, j, n)
  }

  /** How many steps it takes. */
  ghost function Steps(p: seq<byte>, j: nat, n: nat): (k: nat)
    requires Ends(p, j, n)
    ensures k <= n
    decreases n
  {
    match At(p, j)
    case Stop => 0
    case Jump(to) => 1 + Steps(p, to, n - 1)
    case Label(text) => 1 + Steps(p, j + 1 + |text|, n - 1)
  }

  /** The positions it visits. */
  ghost function Visited(p: seq<byte>, j: nat, n: nat): (v: set<nat>)
    requires Ends(p, j, n)
    ensures forall x :: x in v ==> x < |p|
    decreases n
  {
    match At(p, j)
    case Stop => {j}
    case Jump(to) => {j} + Visited(p, to, n - 1)
    case Label(text) => {j} + Visited(p, j + 1 + |text|, n - 1)
  }

  lemma {:induction false} StepsUnique(p: seq<byte>, j: nat, n: nat, m: nat)
    requires Ends(p, j, n) && Ends(p, j, m)
    ensures Steps(p, j, n) == Steps(p, j, m)
    decreases n
  {
    match At(p, j)
    case Stop =>
    case Jump(to) => StepsUnique(p, to, n - 1, m - 1);
    case Label(text) => StepsUnique(p, j + 1 + |text|, n - 1, m - 1);
  }

  /** From a visited position it takes no more steps than from the start. */
  lemma {:induction false} VisitedLater(p: seq<byte>, j: nat, n: nat, x: nat)
    requires Ends(p, j, n) && x in Visited(p, j, n)
    ensures Ends(p, x, n) && Steps(p, x, n) <= Steps(p, j, n)
    decreases n
  {
    match At(p, j)
    case Stop =>
    case Jump(to) =>
      if x != j { VisitedLater(p, to, n - 1, x); EndsMore(p, x, n - 1); }
    case Label(text) =>
      if x != j { VisitedLater(p, j + 1 + |text|, n - 1, x); EndsMore(p, x, n - 1); }
  }

  lemma {:induction false} EndsMore(p: seq<byte>, j: nat, n: nat)
    requires Ends(p, j, n)
    ensures Ends(p, j, n + 1) && Steps(p, j, n + 1) == Steps(p, j, n)
    decreases n
  {
    match At(p, j)
    case Stop =>
    case Jump(to) => EndsMore(p, to, n - 1);
    case Label(text) => EndsMore(p, j + 1 + |text|, n - 1);
  }

  /** A name that ends visits no position twice. */
  lemma {:induction false} VisitedCount(p: seq<byte>, j: nat, n: nat)
    requires Ends(p, j, n)
    ensures |Visited(p, j, n)| == Steps(p, j, n) + 1
    decreases n, 1
  {
    match At(p, j)
    case Stop =>
    case Jump(to) => VisitedNew(p, j, to, n);
    case Label(text) => VisitedNew(p, j, j + 1 + |text|, n);
  }

  lemma {:induction false} VisitedNew(p: seq<byte>, j: nat, next: nat, n: nat)
    requires n > 0 && Ends(p, j, n) && Ends(p, next, n - 1)
    requires Steps(p, j, n) == 1 + Steps(p, next, n - 1) && Visited(p, j, n) == {j} + Visited(p, next, n - 1)
    ensures |Visited(p, j, n)| == Steps(p, j, n) + 1
    decreases n, 0
  {
    VisitedCount(p, next, n - 1);
    if j in Visited(p, next, n - 1) {
      VisitedLater(p, next, n - 1, j);
      StepsUnique(p, j, n, n - 1);
    }
  }

  /** So it ends within as many steps as the message has bytes. */
  lemma StepsBounded(p: seq<byte>, j: nat, n: nat)
    requires Ends(p, j, n)
    ensures Steps(p, j, n) < |p|
  {
    VisitedCount(p, j, n);
    NumbersCount(|p|);
    Subset(Visited(p, j, n), Numbers(|p|));
  }

  lemma {:induction false} WalkEnds(p: seq<byte>, j: nat, n: nat, jumps: nat)
    requires Ends(p, j, n) && jumps + Steps(p, j, n) <= |p|
    ensures Walk(p, j, jumps).Some?
    decreases n
  {
    match At(p, j)
    case Stop =>
    case Jump(to) => WalkEnds(p, to, n - 1, jumps + 1);
    case Label(text) => WalkEnds(p, j + 1 + |text|, n - 1, jumps);
  }

  lemma {:induction false} EndsWalk(p: seq<byte>, j: nat, jumps: nat) returns (n: nat)
    requires jumps <= |p| && Walk(p, j, jumps).Some?
    ensures Ends(p, j, n)
    decreases |p| - jumps, if j < |p| then |p| - j else 0
  {
    match At(p, j)
    case Stop => n := 0;
    case Jump(to) => n := EndsWalk(p, to, jumps + 1); n := n + 1;
    case Label(text) => n := EndsWalk(p, j + 1 + |text|, jumps); n := n + 1;
  }

  /** With as many jumps as the message has bytes, exactly the names that never end are refused. */
  lemma WalkExact(p: seq<byte>, j: nat)
    ensures Walk(p, j, 0).Some? <==> HasEnd(p, j)
  {
    if HasEnd(p, j) {
      var n: nat :| Ends(p, j, n);
      StepsBounded(p, j, n);
      WalkEnds(p, j, n, 0);
    }
    if Walk(p, j, 0).Some? {
      var n := EndsWalk(p, j, 0);
      assert Ends(p, j, n);
    }
  }

  // ---------- name_parse ----------

  /** What a parse has written so far: the labels, with a dot before each but the first. */
  lemma DottedSnoc(labels: seq<seq<byte>>, l: seq<byte>)
    requires labels != []
    ensures Dotted(labels + [l]) == Dotted(labels) + [DOT] + l
  {
    if |labels| == 1 {
      assert (labels + [l])[1..] == [l];
    } else {
      assert (labels + [l])[1..] == labels[1..] + [l];
      DottedSnoc(labels[1..], l);
    }
  }

  lemma {:induction false} DottedLonger(a: seq<seq<byte>>, b: seq<seq<byte>>)
    ensures |Dotted(a)| <= |Dotted(a + b)|
    decreases |b|
  {
    if b == [] {
      assert a + b == a;
    } else {
      if a != [] { DottedSnoc(a, b[0]); } else { assert a + [b[0]] == [b[0]]; }
      assert a + b == (a + [b[0]]) + b[1..];
      DottedLonger(a + [b[0]], b[1..]);
    }
  }

  ghost function Append(labels: seq<seq<byte>>, rest: Option<seq<seq<byte>>>): Option<seq<seq<byte>>> {
    if rest.Some? then Some(labels + rest.value) else None
  }

  /** The parse succeeds with these labels in a buffer of this size. */
  ghost predicate Fits(found: Option<seq<seq<byte>>>, size: nat) {
    found.Some? && |Dotted(found.value)| < size
  }

  lemma AppendStep(labels: seq<seq<byte>>, text: seq<byte>, rest: Option<seq<seq<byte>>>)
    ensures Append(labels, Cons(text, rest)) == Append(labels + [text], rest)
  {
    if rest.Some? { assert labels + ([text] + rest.value) == labels + [text] + rest.value; }
  }

  lemma TooLong(labels: seq<seq<byte>>, rest: Option<seq<seq<byte>>>, size: nat)
    requires |Dotted(labels)| >= size
    ensures !Fits(Append(labels, rest), size)
  {
    if rest.Some? { DottedLonger(labels, rest.value); }
  }

  /** Append a label to the text, after a dot unless it is the first; false if it does not fit. */
  method PutLabel(nameOut: array<byte>, cp: nat, text: seq<byte>, ghost labels: seq<seq<byte>>)
      returns (ok: bool, q: nat)
    requires cp <= nameOut.Length && 1 <= |text| && nameOut[..cp] == Dotted(labels) && (cp == 0 <==> labels == [])
    modifies nameOut
    ensures ok <==> |Dotted(labels + [text])| < nameOut.Length
    ensures ok ==> 0 < q == |Dotted(labels + [text])| <= nameOut.Length && nameOut[..q] == Dotted(labels + [text])
  {
    hide Dotted;
    q := cp;
    if labels == [] { DottedOne(labels, text); } else { DottedSnoc(labels, text); }
    assert nameOut[..q] == Dotted(labels);
    if cp != 0 {
      if q + 1 >= nameOut.Length {
        return false, q;
      }
      nameOut[q] := DOT;
      q := q + 1;
    }
    assert nameOut[..q] == Dotted(labels) + if cp != 0 then [DOT] else [];
    if q + |text| >= nameOut.Length {
      return false, q;
    }
    forall i | 0 <= i < |text| {
      nameOut[q + i] := text[i];
    }
    assert nameOut[..q + |text|] == nameOut[..q] + text;
    q := q + |text|;
    ok := true;
  }

  lemma DottedOne(labels: seq<seq<byte>>, text: seq<byte>)
    requires labels == []
    ensures Dotted(labels) == [] && Dotted(labels + [text]) == text
  {
    assert labels + [text] == [text];
  }

  lemma StepStop(p: seq<byte>, j: nat, jumps: nat)
    requires j < |p| && p[j] == 0 && jumps <= |p|
    ensures Walk(p, j, jumps) == Some([]) && EndOf(p, j) == j + 1
  {
  }

  lemma StepLabel(p: seq<byte>, j: nat, n: nat, jumps: nat)
    requires j + 1 + n <= |p| && 0 < p[j] == n < 64 && jumps <= |p|
    ensures Walk(p, j, jumps) == Cons(p[j + 1..j + 1 + n], Walk(p, j + 1 + n, jumps))
    ensures EndOf(p, j) == EndOf(p, j + 1 + n)
  {
  }

  lemma StepJump(p: seq<byte>, j: nat, t: nat, jumps: nat)
    requires j + 1 < |p| && p[j] >= 64 && t == High(p[j]) * 256 + p[j + 1] && jumps <= |p|
    ensures t < |p| ==> EndOf(p, j) == j + 2
    ensures Walk(p, j, jumps) == if t < |p| && jumps < |p| then Walk(p, t, jumps + 1) else None
  {
  }

  lemma StepBad(p: seq<byte>, j: nat, jumps: nat)
    requires jumps <= |p|
    requires j >= |p| || (p[j] >= 64 && j + 1 == |p|) || (0 < p[j] < 64 && j + 1 + p[j] > |p|)
    ensures Walk(p, j, jumps) == None
  {
  }

  /** Parse the name at idx into a buffer as a terminated string.  The result is 0 exactly when the name
      ends at all and its text fits, and then idx moves behind the name. */
  method NameParse(packet: seq<byte>, idx: nat, nameOut: array<byte>) returns (r: int, next: nat)
    modifies nameOut
    ensures r == 0 || r == -1
    ensures r == 0 <==> Fits(Walk(packet, idx, 0), nameOut.Length)
    ensures r == 0 ==> var text := Dotted(Walk(packet, idx, 0).value); nameOut[..|text| + 1] == text + [0]
    ensures r == 0 ==> next == EndOf(packet, idx) && idx < next <= |packet|
    ensures r != 0 ==> next == idx
  {
    hide Dotted, Fits, Append, Walk, EndOf, At, Cons;
    var length := |packet|;
    var nameEnd, j: nat, ptrCount, cp := -1, idx, 0, 0;
    ghost var labels: seq<seq<byte>> := [];
    r, next := -1, idx;
    NothingYet(packet, idx);
    while true
      invariant cp <= nameOut.Length && ptrCount <= length && (cp == 0 <==> labels == [])
      invariant cp == |Dotted(labels)| && nameOut[..cp] == Dotted(labels)
      invariant Walk(packet, idx, 0) == Append(labels, Walk(packet, j, ptrCount))
      invariant nameEnd < 0 ==> EndOf(packet, idx) == EndOf(packet, j) && idx <= j
      invariant nameEnd >= 0 ==> EndOf(packet, idx) == nameEnd && idx < nameEnd <= length
      decreases length - ptrCount, if j < length then length - j else 0
    {
      ghost var here := j;
      if j >= length {
        StepBad(packet, here, ptrCount);
        NoName(labels, nameOut.Length);
        return;
      }
      var labelLen: nat := packet[j];
      j := j + 1;
      if labelLen == 0 {
        StepStop(packet, here, ptrCount);
        FoundAll(labels, nameOut.Length);
        break;
      }
      if labelLen >= 64 {
        if j >= length {
          StepBad(packet, here, ptrCount);
          NoName(labels, nameOut.Length);
          return;
        }
        var ptrLow := packet[j];
        j := j + 1;
        if nameEnd < 0 {
          nameEnd := j;
        }
        j := High(labelLen) * 256 + ptrLow;
        StepJump(packet, here, j, ptrCount);
        if j >= length {
          NoName(labels, nameOut.Length);
          return;
        }
        ptrCount := ptrCount + 1;
        if ptrCount > length {
          NoName(labels, nameOut.Length);
          return;
        }
      } else {
        if j + labelLen > length {
          StepBad(packet, here, ptrCount);
          NoName(labels, nameOut.Length);
          return;
        }
        var text := packet[j..j + labelLen];
        StepLabel(packet, here, labelLen, ptrCount);
        AppendStep(labels, text, Walk(packet, j + labelLen, ptrCount));
        var ok, q := PutLabel(nameOut, cp, text, labels);
        labels := labels + [text];
        if !ok {
          TooLong(labels, Walk(packet, j + labelLen, ptrCount), nameOut.Length);
          return;
        }
        cp := q;
        j := j + labelLen;
      }
    }
    if cp >= nameOut.Length {
      return;
    }
    nameOut[cp] := 0;
    assert nameOut[..cp + 1] == nameOut[..cp] + [0];
    r := 0;
    next := if nameEnd < 0 then j else nameEnd;
  }

  lemma NothingYet(packet: seq<byte>, idx: nat)
    ensures Walk(packet, idx, 0) == Append([], Walk(packet, idx, 0)) && Dotted([]) == []
  {
    if Walk(packet, idx, 0).Some? { assert [] + Walk(packet, idx, 0).value == Walk(packet, idx, 0).value; }
  }

  lemma NoName(labels: seq<seq<byte>>, size: nat)
    ensures !Fits(Append(labels, None), size)
  {
  }

  lemma FoundAll(labels: seq<seq<byte>>, size: nat)
    ensures Append(labels, Some([])) == Some(labels)
    ensures Fits(Some(labels), size) <==> |Dotted(labels)| < size
  {
    assert labels + [] == labels;
  }
}
