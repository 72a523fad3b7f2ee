/**
 * The ring buffer between one producer and one consumer at a time.  Each operation reads the other
 * side's index, copies byte by byte in any order, and then publishes its own index; the steps of
 * the two threads interleave arbitrarily.
 */
module KfifoThreads {
  import opened Options
  import opened Bytes
  import opened Kfifo

  /** A put under way: the bytes it will add, and which of them are in the ring already. */
  datatype Putting = NotPutting | Putting(data: seq<byte>, copied: set<nat>)

  /** A get under way: what it will take, as far as it is copied out. */
  datatype Getting = NotGetting | Getting(out: seq<Option<byte>>)

  /** The ring and the two indices; `put` and `taken` record what was published and handed out so far. */
  datatype State = State(raw: seq<byte>, readIndex: nat, writeIndex: nat, producer: Putting, consumer: Getting,
                         put: seq<byte>, taken: seq<byte>)

  datatype Step =
    | PutStart(data: seq<byte>, all: bool)
    | PutCopy(i: nat)
    | PutEnd
    | GetStart(len: nat, all: bool)
    | GetCopy(i: nat)
    | GetEnd

  function Used(s: State): nat {
    (s.writeIndex - s.readIndex) % U32
  }

  function Free(s: State): nat {
    (|s.raw| - s.writeIndex + s.readIndex) % U32
  }

  /** What a get hands out when it is done. */
  function Copied(out: seq<Option<byte>>): seq<byte>
    requires forall i :: 0 <= i < |out| ==> out[i].Some?
  {
    seq(|out|, i requires 0 <= i < |out| => out[i].value)
  }

  predicate Enabled(s: State, step: Step) {
    |s.raw| > 0 &&
    match step
    case PutStart(_, _) => s.producer == NotPutting
    case PutCopy(i) => s.producer.Putting? && i < |s.producer.data|
    case PutEnd => s.producer.Putting? && forall i :: 0 <= i < |s.producer.data| ==> i in s.producer.copied
    case GetStart(_, _) => s.consumer == NotGetting
    case GetCopy(i) => s.consumer.Getting? && i < |s.consumer.out|
    case GetEnd => s.consumer.Getting? && forall i :: 0 <= i < |s.consumer.out| ==> s.consumer.out[i].Some?
  }

  /** How much an operation handles: what there is room for, or all or nothing. */
  function Amount(want: nat, have: nat, all: bool): (n: nat)
    ensures n <= have && n <= want && (all ==> n == 0 || n == want)
  {
    if all then (if want > have then 0 else want) else if want < have then want else have
  }

  function Apply(s: State, step: Step): State
    requires Enabled(s, step)
  {
    match step
    case PutStart(data, all) => s.(producer := Putting(data[..Amount(|data|, Free(s), all)], {}))
    case PutCopy(i) =>
      s.(raw := s.raw[Slot(s.writeIndex + i, |s.raw|) := s.producer.data[i]],
         producer := s.producer.(copied := s.producer.copied + {i}))
    case PutEnd =>
      s.(writeIndex := (s.writeIndex + |s.producer.data|) % U32, put := s.put + s.producer.data, producer := NotPutting)
    case GetStart(len, all) => s.(consumer := Getting(seq(Amount(len, Used(s), all), _ => None)))
    case GetCopy(i) =>
      s.(consumer := Getting(s.consumer.out[i := Some(s.raw[Slot(s.readIndex + i, |s.raw|)])]))
    case GetEnd =>
      s.(readIndex := (s.readIndex + |s.consumer.out|) % U32, taken := s.taken + Copied(s.consumer.out),
          consumer := NotGetting)
  }

  // ---------- The invariant ----------

  /** The indices count what was put and taken, and at most one ring full lies between. */
  ghost predicate Counters(s: State) {
    && Divides(|s.raw|) && 0 < |s.raw| < U32
    && s.readIndex == |s.taken| % U32 && s.writeIndex == |s.put| % U32
    && |s.taken| <= |s.put| <= |s.taken| + |s.raw|
  }

  /** The ring holds what was put and not taken. */
  ghost predicate Holds(s: State)
    requires Counters(s)
  {
    && s.taken == s.put[..|s.taken|]
    && forall x :: |s.taken| <= x < |s.put| ==> s.raw[Slot(x, |s.raw|)] == s.put[x]
  }

  /** The put under way has room for its bytes, and those it copied are in place. */
  ghost predicate Producing(s: State)
    requires Counters(s)
  {
    s.producer.Putting? ==>
      && |s.put| + |s.producer.data| <= |s.taken| + |s.raw|
      && forall i :: i in s.producer.copied && i < |s.producer.data| ==>
         s.raw[Slot(|s.put| + i, |s.raw|)] == s.producer.data[i]
  }

  /** The get under way takes no more than there is, and what it copied are the right bytes. */
  ghost predicate Consuming(s: State)
    requires Counters(s)
  {
    s.consumer.Getting? ==>
      && |s.taken| + |s.consumer.out| <= |s.put|
      && forall i :: 0 <= i < |s.consumer.out| && s.consumer.out[i].Some? ==>
         s.consumer.out[i].value == s.put[|s.taken| + i]
  }

  ghost predicate Inv(s: State) {
    Counters(s) && Holds(s) && Producing(s) && Consuming(s)
  }

  /** The differences of the wrapped indices are the true ones. */
  lemma Counted(s: State)
    requires Counters(s)
    ensures Used(s) == |s.put| - |s.taken| && Free(s) == |s.raw| - (|s.put| - |s.taken|)
  {
    hide Divides;
    WrapDifference(|s.taken|, |s.put|, |s.raw|);
  }

  lemma WrapDifference(a: nat, b: nat, size: nat)
    requires a <= b <= a + size && size < U32
    ensures (b % U32 - a % U32) % U32 == b - a && (size - b % U32 + a % U32) % U32 == size - (b - a)
  {
    var p, q := a / U32, b / U32;
    assert q == p || q == p + 1;
    assert b % U32 - a % U32 == b - a - (q - p) * U32;
  }

  lemma PutStartInv(s: State, data: seq<byte>, all: bool)
    requires Inv(s) && Enabled(s, PutStart(data, all))
    ensures Inv(Apply(s, PutStart(data, all)))
  {
    Counted(s);
  }

  lemma PutCopyStored(s: State, i: nat)
    requires Inv(s) && Enabled(s, PutCopy(i))
    ensures var n := Apply(s, PutCopy(i));
            |n.raw| == |s.raw| > 0 && forall x :: |s.taken| <= x < |s.put| ==> n.raw[Slot(x, |s.raw|)] == s.put[x]
  {
    hide Slot;
    SlotWrapped(|s.put|, i, |s.raw|);
    forall x | |s.taken| <= x < |s.put|
      ensures Apply(s, PutCopy(i)).raw[Slot(x, |s.raw|)] == s.put[x]
    {
      SlotsDiffer(x, |s.put| + i, |s.raw|);
    }
  }

  lemma PutCopyCopied(s: State, i: nat)
    requires Inv(s) && Enabled(s, PutCopy(i))
    ensures var n := Apply(s, PutCopy(i));
            |n.raw| == |s.raw| > 0 &&
            forall k :: k in n.producer.copied && k < |s.producer.data| ==>
                n.raw[Slot(|s.put| + k, |s.raw|)] == s.producer.data[k]
  {
    hide Slot;
    var n := Apply(s, PutCopy(i));
    SlotWrapped(|s.put|, i, |s.raw|);
    forall k | k in n.producer.copied && k < |s.producer.data|
      ensures n.raw[Slot(|s.put| + k, |s.raw|)] == s.producer.data[k]
    {
      if k < i { SlotsDiffer(|s.put| + k, |s.put| + i, |s.raw|); }
      if k > i { SlotsDiffer(|s.put| + i, |s.put| + k, |s.raw|); }
    }
  }

  lemma PutCopyInv(s: State, i: nat)
    requires Inv(s) && Enabled(s, PutCopy(i))
    ensures Inv(Apply(s, PutCopy(i)))
  {
    hide Slot;
    PutCopyStored(s, i);
    PutCopyCopied(s, i);
  }

  lemma WrapAdd(a: nat, b: nat)
    ensures (a % U32 + b) % U32 == (a + b) % U32
  {
  }

  lemma PutEndInv(s: State)
    requires Inv(s) && Enabled(s, PutEnd)
    ensures Inv(Apply(s, PutEnd))
  {
    hide Slot, Divides;
    var n := Apply(s, PutEnd);
    assert |n.put| == |s.put| + |s.producer.data|;
    WrapAdd(|s.put|, |s.producer.data|);
    assert Counters(n);
    PutEndHolds(s);
    assert Consuming(n) by {
      if n.consumer.Getting? {
        forall i | 0 <= i < |n.consumer.out| && n.consumer.out[i].Some?
          ensures n.consumer.out[i].value == n.put[|n.taken| + i]
        {
          assert n.put[|s.taken| + i] == s.put[|s.taken| + i];
        }
      }
    }
  }

  lemma PutEndHolds(s: State)
    requires Inv(s) && Enabled(s, PutEnd) && Counters(Apply(s, PutEnd))
    ensures Holds(Apply(s, PutEnd))
  {
    hide Slot, Divides;
    var n := Apply(s, PutEnd);
    forall x | |n.taken| <= x < |n.put|
      ensures n.raw[Slot(x, |n.raw|)] == n.put[x]
    {
      if x >= |s.put| {
        var i := x - |s.put|;
        assert i in s.producer.copied && x == |s.put| + i;
      }
    }
    assert n.put[..|n.taken|] == s.put[..|s.taken|];
  }

  lemma GetStartInv(s: State, len: nat, all: bool)
    requires Inv(s) && Enabled(s, GetStart(len, all))
    ensures Inv(Apply(s, GetStart(len, all)))
  {
    Counted(s);
  }

  lemma GetCopyInv(s: State, i: nat)
    requires Inv(s) && Enabled(s, GetCopy(i))
    ensures Inv(Apply(s, GetCopy(i)))
  {
    hide Slot;
    SlotWrapped(|s.taken|, i, |s.raw|);
  }

  lemma GetEndInv(s: State)
    requires Inv(s) && Enabled(s, GetEnd)
    ensures Inv(Apply(s, GetEnd))
  {
    hide Slot, Divides;
    var n := Apply(s, GetEnd);
    var out := Copied(s.consumer.out);
    assert |n.taken| == |s.taken| + |out| && |out| == |s.consumer.out|;
    WrapAdd(|s.taken|, |out|);
    assert Counters(n);
    assert n.taken == n.put[..|n.taken|] by {
      forall i | 0 <= i < |out|
        ensures out[i] == s.put[|s.taken| + i]
      {
        assert s.consumer.out[i].Some?;
      }
    }
  }

  lemma StepInv(s: State, step: Step)
    requires Inv(s) && Enabled(s, step)
    ensures Inv(Apply(s, step))
  {
    match step
    case PutStart(data, all) => PutStartInv(s, data, all);
    case PutCopy(i) => PutCopyInv(s, i);
    case PutEnd => PutEndInv(s);
    case GetStart(len, all) => GetStartInv(s, len, all);
    case GetCopy(i) => GetCopyInv(s, i);
    case GetEnd => GetEndInv(s);
  }

  // ---------- Runs ----------

  predicate Legal(s: State, steps: seq<Step>)
    decreases |steps|
  {
    steps == [] || (Enabled(s, steps[0]) && Legal(Apply(s, steps[0]), steps[1..]))
  }

  function After(s: State, steps: seq<Step>): State
    requires Legal(s, steps)
    decreases |steps|
  {
    if steps == [] then s else After(Apply(s, steps[0]), steps[1..])
  }

  ghost predicate Initial(s: State) {
    && Divides(|s.raw|) && 0 < |s.raw| < U32
    && s.readIndex == 0 && s.writeIndex == 0 && s.producer == NotPutting && s.consumer == NotGetting
    && s.put == [] && s.taken == []
  }

  lemma {:induction false} RunInv(s: State, steps: seq<Step>)
    requires Inv(s) && Legal(s, steps)
    ensures Inv(After(s, steps))
    decreases |steps|
  {
    hide Inv, Apply, Enabled;
    if steps != [] {
      StepInv(s, steps[0]);
      RunInv(Apply(s, steps[0]), steps[1..]);
    }
  }

  /** Whatever the interleaving and however often the indices wrap: what came out is a prefix of what
      went in, and no more than a ring full is in between. */
  lemma InOrder(s: State, steps: seq<Step>)
    requires Initial(s) && Legal(s, steps)
    ensures var n := After(s, steps); n.taken <= n.put && |n.put| - |n.taken| <= |n.raw|
  {
    RunInv(s, steps);
  }

  // ---------- Job records ----------

  /** The queue of jobs: every put and every get is for a whole record of r bytes. */
  predicate OfRecords(steps: seq<Step>, r: nat) {
    forall i :: 0 <= i < |steps| ==>
      match steps[i]
      case PutStart(data, all) => all && |data| == r
      case GetStart(len, all) => all && len == r
      case _ => true
  }

  /** The records that entered the queue, in the order in which they did. */
  function Accepted(s: State, steps: seq<Step>): seq<seq<byte>>
    requires Legal(s, steps)
    decreases |steps|
  {
    if steps == [] then []
    else
      var rest := Accepted(Apply(s, steps[0]), steps[1..]);
      if steps[0].PutEnd? && s.producer.data != [] then [s.producer.data] + rest else rest
  }

  /** The records handed to the worker. */
  function Handed(s: State, steps: seq<Step>): seq<seq<byte>>
    requires Legal(s, steps)
    decreases |steps|
  {
    if steps == [] then []
    else
      var rest := Handed(Apply(s, steps[0]), steps[1..]);
      if steps[0].GetEnd? && s.consumer.out != [] then [Copied(s.consumer.out)] + rest else rest
  }

  /** What is under way is a whole record or nothing. */
  ghost predicate WholeRecords(s: State, r: nat) {
    && (s.producer.Putting? ==> |s.producer.data| == r || s.producer.data == [])
    && (s.consumer.Getting? ==> |s.consumer.out| == r || s.consumer.out == [])
  }

  lemma {:induction false} RecordsKept(s: State, steps: seq<Step>, r: nat)
    requires Legal(s, steps) && OfRecords(steps, r) && WholeRecords(s, r)
    ensures forall i :: 0 <= i < |Accepted(s, steps)| ==> |Accepted(s, steps)[i]| == r
    ensures forall i :: 0 <= i < |Handed(s, steps)| ==> |Handed(s, steps)[i]| == r
    ensures After(s, steps).put == s.put + Flatten(Accepted(s, steps))
    ensures After(s, steps).taken == s.taken + Flatten(Handed(s, steps))
    decreases |steps|
  {
    if steps != [] {
      var n, rest := Apply(s, steps[0]), steps[1..];
      assert OfRecords(rest, r) by { assert forall i :: 0 <= i < |rest| ==> rest[i] == steps[i + 1]; }
      assert WholeRecords(n, r) by { assert OfRecords([steps[0]], r); }
      RecordsKept(n, rest, r);
      Unfold(s, steps);
    }
  }

  lemma Unfold(s: State, steps: seq<Step>)
    requires Legal(s, steps) && steps != []
    ensures var n, rest := Apply(s, steps[0]), steps[1..];
            && n.put + Flatten(Accepted(n, rest)) == s.put + Flatten(Accepted(s, steps))
            && n.taken + Flatten(Handed(n, rest)) == s.taken + Flatten(Handed(s, steps))
  {
    hide Flatten, Slot;
    var n, rest := Apply(s, steps[0]), steps[1..];
    var accepted, handed := Accepted(n, rest), Handed(n, rest);
    if steps[0].PutEnd? {
      OneMore(s.put, s.producer.data, accepted);
    }
    if steps[0].GetEnd? {
      OneMore(s.taken, Copied(s.consumer.out), handed);
    }
  }

  lemma OneMore(before: seq<byte>, record: seq<byte>, rest: seq<seq<byte>>)
    ensures before + record + Flatten(rest) == before + Flatten([record] + rest)
    ensures record == [] ==> before + record == before
  {
    assert ([record] + rest)[1..] == rest;
  }

  lemma {:induction false} SamePrefix(a: seq<seq<byte>>, b: seq<seq<byte>>, r: nat)
    requires r > 0 && Flatten(a) <= Flatten(b)
    requires forall i :: 0 <= i < |a| ==> |a[i]| == r
    requires forall i :: 0 <= i < |b| ==> |b[i]| == r
    ensures a <= b
  {
    if a != [] {
      assert b != [];
      var fa, fb := Flatten(a[1..]), Flatten(b[1..]);
      assert Flatten(a) == a[0] + fa && Flatten(b) == b[0] + fb;
      assert a[0] == Flatten(a)[..r] == Flatten(b)[..r] == b[0];
      assert fa == Flatten(a)[r..] && fb == Flatten(b)[r..];
      SamePrefix(a[1..], b[1..], r);
      assert a == [a[0]] + a[1..] && b == [b[0]] + b[1..];
    }
  }

  /** Jobs are handed over whole, each once and in order: those handed over are the first of those accepted. */
  lemma JobsInOrder(s: State, steps: seq<Step>, r: nat)
    requires Initial(s) && Legal(s, steps) && OfRecords(steps, r) && r > 0
    ensures Handed(s, steps) <= Accepted(s, steps)
  {
    InOrder(s, steps);
    RecordsKept(s, steps, r);
    assert [] + Flatten(Accepted(s, steps)) == Flatten(Accepted(s, steps));
    assert [] + Flatten(Handed(s, steps)) == Flatten(Handed(s, steps));
    SamePrefix(Handed(s, steps), Accepted(s, steps), r);
  }

  /** What an operation begins to handle, in any state that can be reached: a put what there is room for, a get what
      there is, or each all or nothing. */
  lemma Begun(s: State, data: seq<byte>, len: nat, all: bool)
    requires Inv(s)
    ensures var room, there := |s.raw| - (|s.put| - |s.taken|), |s.put| - |s.taken|;
            && (Enabled(s, PutStart(data, all)) ==>
                  var p := Apply(s, PutStart(data, all)).producer;
                  p.Putting? && p.copied == {} &&
                  p.data == if |data| <= room then data else if all then [] else data[..room])
            && (Enabled(s, GetStart(len, all)) ==>
                  var c := Apply(s, GetStart(len, all)).consumer;
                  c.Getting? && (forall i :: 0 <= i < |c.out| ==> c.out[i] == None) &&
                  |c.out| == if len <= there then len else if all then 0 else there)
  {
    Counted(s);
  }

  // ---------- Filling the ring ----------

  function CopiesIn(i: nat, r: nat): seq<Step>
    requires i <= r
    decreases r - i
  {
    if i == r then [] else [PutCopy(i)] + CopiesIn(i + 1, r)
  }

  /** A whole put. */
  function OnePut(data: seq<byte>): seq<Step> {
    [PutStart(data, true)] + (CopiesIn(0, |data|) + [PutEnd])
  }

  lemma {:induction false} CopiesInRun(s: State, i: nat)
    requires Inv(s) && s.producer.Putting? && i <= |s.producer.data|
    requires forall j :: 0 <= j < i ==> j in s.producer.copied
    ensures var steps := CopiesIn(i, |s.producer.data|) + [PutEnd];
            && Legal(s, steps) && var n := After(s, steps);
            Inv(n) && n.put == s.put + s.producer.data && n.taken == s.taken && n.producer == NotPutting
    decreases |s.producer.data| - i
  {
    hide Slot, Inv;
    var steps := CopiesIn(i, |s.producer.data|) + [PutEnd];
    if i == |s.producer.data| {
      assert Enabled(s, PutEnd) by { RawThere(s); }
      StepInv(s, PutEnd);
      assert steps == [PutEnd] && steps[1..] == [];
    } else {
      assert Enabled(s, PutCopy(i)) by { RawThere(s); }
      StepInv(s, PutCopy(i));
      CopiesInRun(Apply(s, PutCopy(i)), i + 1);
      assert steps[1..] == CopiesIn(i + 1, |s.producer.data|) + [PutEnd];
    }
  }

  /** A record for which there is room gets in, and all others are left out. */
  lemma PutRun(s: State, data: seq<byte>)
    requires Inv(s) && s.producer == NotPutting
    ensures var fits := |s.put| - |s.taken| + |data| <= |s.raw|;
            var steps := if fits then OnePut(data) else [PutStart(data, true), PutEnd];
            && Legal(s, steps) && var n := After(s, steps);
            n.put == (if fits then s.put + data else s.put) && n.taken == s.taken && n.producer == NotPutting
  {
    hide Slot, Inv;
    RawThere(s);
    var n := Apply(s, PutStart(data, true));
    StepInv(s, PutStart(data, true));
    Begun(s, data, 0, true);
    CopiesInRun(n, 0);
    assert OnePut(data)[1..] == CopiesIn(0, |data|) + [PutEnd];
    if |s.put| - |s.taken| + |data| > |s.raw| {
      assert CopiesIn(0, 0) + [PutEnd] == [PutEnd] == [PutStart(data, true), PutEnd][1..];
    }
  }

  // ---------- Emptying the ring ----------

  function Copies(i: nat, r: nat): seq<Step>
    requires i <= r
    decreases r - i
  {
    if i == r then [] else [GetCopy(i)] + Copies(i + 1, r)
  }

  /** A whole get of a record of r bytes. */
  function OneGet(r: nat): seq<Step> {
    [GetStart(r, true)] + (Copies(0, r) + [GetEnd])
  }

  function Gets(k: nat, r: nat): seq<Step> {
    if k == 0 then [] else OneGet(r) + Gets(k - 1, r)
  }

  /** Another record was taken from n to m, and nothing was put in. */
  ghost predicate OneTaken(s: State, n: State, r: nat) {
    && Inv(n) && n.put == s.put && n.producer == s.producer && n.consumer == NotGetting
    && |n.taken| == |s.taken| + r
  }

  lemma {:induction false} CopiesRun(s: State, i: nat, r: nat)
    requires Inv(s) && s.consumer.Getting? && |s.consumer.out| == r && i <= r
    requires forall j :: 0 <= j < i ==> s.consumer.out[j].Some?
    ensures var steps := Copies(i, r) + [GetEnd];
            Legal(s, steps) && OneTaken(s, After(s, steps), r) && Accepted(s, steps) == []
    decreases r - i
  {
    hide Slot, Inv;
    var steps := Copies(i, r) + [GetEnd];
    if i == r {
      assert Enabled(s, GetEnd) by { RawThere(s); }
      StepInv(s, GetEnd);
      assert steps == [GetEnd] && steps[1..] == [];
    } else {
      assert Enabled(s, GetCopy(i)) by { RawThere(s); }
      StepInv(s, GetCopy(i));
      CopiesRun(Apply(s, GetCopy(i)), i + 1, r);
      assert steps[1..] == Copies(i + 1, r) + [GetEnd];
    }
  }

  lemma RawThere(s: State)
    requires Inv(s)
    ensures |s.raw| > 0
  {
  }

  lemma GetRun(s: State, r: nat)
    requires Inv(s) && s.consumer == NotGetting && |s.put| - |s.taken| >= r
    ensures Legal(s, OneGet(r)) && OneTaken(s, After(s, OneGet(r)), r) && Accepted(s, OneGet(r)) == []
  {
    hide Slot, Inv, OneTaken;
    RawThere(s);
    var n := Apply(s, GetStart(r, true));
    StepInv(s, GetStart(r, true));
    Begun(s, [], r, true);
    CopiesRun(n, 0, r);
    assert OneGet(r)[1..] == Copies(0, r) + [GetEnd];
    SameTaken(s, n, After(s, OneGet(r)), r);
  }

  lemma SameTaken(s: State, n: State, m: State, r: nat)
    requires OneTaken(n, m, r) && n.put == s.put && n.producer == s.producer && n.taken == s.taken
    ensures OneTaken(s, m, r)
  {
  }

  /** One run after the other. */
  lemma {:induction false} Joined(s: State, a: seq<Step>, b: seq<Step>)
    requires Legal(s, a) && Legal(After(s, a), b)
    ensures Legal(s, a + b) && After(s, a + b) == After(After(s, a), b)
    ensures Accepted(s, a + b) == Accepted(s, a) + Accepted(After(s, a), b)
    decreases |a|
  {
    hide Apply, Enabled;
    if a == [] {
      assert a + b == b;
    } else {
      assert (a + b)[1..] == a[1..] + b;
      Joined(Apply(s, a[0]), a[1..], b);
    }
  }

  lemma {:induction false} GetsRun(s: State, k: nat, r: nat)
    requires Inv(s) && s.consumer == NotGetting && |s.put| - |s.taken| == k * r
    ensures Legal(s, Gets(k, r)) && Accepted(s, Gets(k, r)) == []
    ensures var n := After(s, Gets(k, r)); n.put == s.put && |n.taken| == |s.put|
    decreases k
  {
    hide Inv, Apply, Enabled, OneGet;
    if k > 0 {
      assert k * r == (k - 1) * r + r;
      GetRun(s, r);
      var n := After(s, OneGet(r));
      GetsRun(n, k - 1, r);
      Joined(s, OneGet(r), Gets(k - 1, r));
    }
  }

  lemma {:induction false} FlattenSize(records: seq<seq<byte>>, r: nat)
    requires forall i :: 0 <= i < |records| ==> |records[i]| == r
    ensures |Flatten(records)| == |records| * r
  {
    if records != [] {
      FlattenSize(records[1..], r);
      assert |records| * r == r + (|records| - 1) * r;
    }
  }

  lemma {:induction false} GetsOfRecords(k: nat, r: nat)
    ensures OfRecords(Gets(k, r), r)
    decreases k
  {
    if k > 0 {
      CopiesOnly(0, r);
      GetsOfRecords(k - 1, r);
    }
  }

  lemma {:induction false} CopiesOnly(i: nat, r: nat)
    requires i <= r
    ensures forall j :: 0 <= j < |Copies(i, r)| ==> Copies(i, r)[j].GetCopy?
    decreases r - i
  {
    if i < r { CopiesOnly(i + 1, r); }
  }

  /** When nothing is under way, as many gets as there are records between hand over everything that was accepted. */
  lemma AllHanded(s: State, steps: seq<Step>, r: nat)
    requires Initial(s) && Legal(s, steps) && OfRecords(steps, r) && r > 0
    requires After(s, steps).consumer == NotGetting
    ensures |Handed(s, steps)| <= |Accepted(s, steps)|
    ensures var all := steps + Gets(|Accepted(s, steps)| - |Handed(s, steps)|, r);
            Legal(s, all) && Handed(s, all) == Accepted(s, all) == Accepted(s, steps)
  {
    hide Inv, Apply, Enabled, Gets, Flatten;
    var n := After(s, steps);
    JobsInOrder(s, steps, r);
    RecordsKept(s, steps, r);
    RunInv(s, steps) by { Starts(s); }
    FlattenSize(Accepted(s, steps), r);
    FlattenSize(Handed(s, steps), r);
    var k := |Accepted(s, steps)| - |Handed(s, steps)|;
    assert |Accepted(s, steps)| * r - |Handed(s, steps)| * r == k * r;
    GetsRun(n, k, r);
    GetsOfRecords(k, r);
    Joined(s, steps, Gets(k, r));
    var all := steps + Gets(k, r);
    assert OfRecords(all, r);
    JobsInOrder(s, all, r);
    RecordsKept(s, all, r);
    FlattenSize(Accepted(s, all), r);
    FlattenSize(Handed(s, all), r);
    SameCount(|Handed(s, all)|, |Accepted(s, all)|, r);
  }

  lemma Starts(s: State)
    requires Initial(s)
    ensures Inv(s)
  {
  }

  lemma SameCount(a: nat, b: nat, r: nat)
    requires r > 0 && a * r == b * r
    ensures a == b
  {
    assert (a - b) * r == 0;
  }

  /** A job is refused exactly when its record does not fit any more. */
  lemma Refused(s: State, data: seq<byte>)
    requires Inv(s) && Enabled(s, PutStart(data, true))
    ensures Apply(s, PutStart(data, true)).producer.data == if |s.put| - |s.taken| + |data| > |s.raw| then [] else data
  {
    Counted(s);
  }
}
