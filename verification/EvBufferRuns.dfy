/**
 * Whole runs: any sequence of operations on two buffers is the same sequence of
 * append, prepend, drop and concatenate on two byte strings.
 */
module EvBufferRuns {
  import opened Bytes
  import opened Chains
  import opened Counting
  import opened EvBuffers
  import opened Layouts

  /** What can be called on a buffer; AddOther, PrependOther and Move take bytes over from the other buffer, where Move
      first pulls them up.  Receive reserves space, writes the bytes there and commits them.  memory says whether a
      chain can be allocated. */
  datatype Op =
    | Add(bytes: seq<byte>, memory: bool)
    | Prepend(bytes: seq<byte>, memory: bool)
    | Receive(bytes: seq<byte>, memory: bool)
    | Pullup(size: int, memory: bool)
    | Drain(n: nat)
    | Remove(n: nat)
    | AddOther
    | PrependOther
    | Move(n: nat, memory: bool)
    | Freeze(atFront: bool)
    | Unfreeze(atFront: bool)

  /** One call, on the left or on the right buffer. */
  datatype Call = Call(left: bool, op: Op)

  /** Which ends of a buffer are frozen. */
  datatype Ends = Ends(start: bool, end: bool)

  function Input(op: Op): seq<byte> {
    if op.Add? || op.Prepend? || op.Receive? then op.bytes else []
  }

  /** How many bytes the call puts into the buffer, of its input or of size bytes of the other buffer.  Only a prepend
      and a move can stop halfway, and none does while there is memory; -1 is a move that was given up. */
  predicate Puts(op: Op, size: nat, put: int) {
    match op
    case Add(bytes, memory) => put == |bytes| || (put == 0 && !(memory && |bytes| <= CHAIN_LIMIT))
    case Receive(bytes, memory) => put == |bytes| || (put == 0 && !(memory && |bytes| <= CHAIN_LIMIT))
    case Prepend(bytes, memory) => put == |bytes| || (0 <= put < |bytes| && !(memory && |bytes| <= CHAIN_LIMIT))
    case Move(n, memory) => put == Min(n, size) || (-1 <= put < Min(n, size) && !(memory && n <= CHAIN_LIMIT))
    case _ => put == 0
  }

  /** The two byte strings, what of them is frozen, and all that was taken out so far. */
  datatype Streams = Streams(left: seq<byte>, right: seq<byte>, leftEnds: Ends, rightEnds: Ends, taken: seq<byte>) {

    /** A call that puts so many bytes in; one that a frozen end forbids changes nothing. */
    ghost function Do(op: Op, put: int): Streams
      requires Puts(op, |right|, put)
    {
      match op
      case Add(bytes, _) => if leftEnds.end then this else this.(left := left + bytes[..put])
      case Receive(bytes, _) => if leftEnds.end then this else this.(left := left + bytes[..put])
      case Prepend(bytes, _) => if leftEnds.start then this else this.(left := bytes[|bytes| - put..] + left)
      case Pullup(_, _) => this
      case Drain(n) => if leftEnds.start then this else this.(left := left[Min(n, |left|)..])
      case Remove(n) =>
        if leftEnds.start then this
        else this.(left := left[Min(n, |left|)..], taken := taken + left[..Min(n, |left|)])
      case AddOther =>
        if leftEnds.end || rightEnds.start then this else this.(left := left + right, right := [])
      case PrependOther =>
        if leftEnds.start || rightEnds.start then this else this.(left := right + left, right := [])
      case Move(n, _) =>
        if leftEnds.end || rightEnds.start || put < 0 then this
        else this.(left := left + right[..put], right := right[Min(n, |right|)..])
      case Freeze(atFront) => SetEnd(atFront, true)
      case Unfreeze(atFront) => SetEnd(atFront, false)
    }

    function SetEnd(atFront: bool, frozen: bool): Streams {
      this.(leftEnds := if atFront then leftEnds.(start := frozen) else leftEnds.(end := frozen))
    }

    ghost function Swap(): Streams {
      Streams(right, left, rightEnds, leftEnds, taken)
    }

    /** As the buffer sees it that is called. */
    ghost function From(c: Call): Streams {
      if c.left then this else Swap()
    }

    ghost function Step(c: Call, put: int): Streams
      requires Puts(c.op, |From(c).right|, put)
    {
      From(c).Do(c.op, put).From(c)
    }

    /** Can the calls put in so much, one after the other? */
    ghost predicate Possible(cs: seq<Call>, puts: seq<int>)
      decreases |cs|
    {
      |cs| == |puts| &&
      (cs == [] || (Puts(cs[0].op, |From(cs[0]).right|, puts[0]) && Step(cs[0], puts[0]).Possible(cs[1..], puts[1..])))
    }

    ghost function After(cs: seq<Call>, puts: seq<int>): Streams
      requires Possible(cs, puts)
      decreases |cs|
    {
      if cs == [] then this else Step(cs[0], puts[0]).After(cs[1..], puts[1..])
    }

    /** All bytes there are, from the first one taken out to the last one put in. */
    ghost function All(): seq<byte> {
      taken + right + left
    }

    ghost function Room(): int {
      SIZE_MAX - |left| - |right|
    }
  }

  /** The two buffers as byte strings. */
  ghost function Seen(a: EvBuffer, b: EvBuffer, taken: seq<byte>): Streams
    reads a, b
  {
    Streams(a.Contents(), b.Contents(), Ends(a.freezeStart, a.freezeEnd), Ends(b.freezeStart, b.freezeEnd), taken)
  }

  /** The counters cannot overflow: all inputs together leave room. */
  ghost function Volume(cs: seq<Call>): nat {
    if cs == [] then 0 else |Input(cs[0].op)| + Volume(cs[1..])
  }

  // ---------- Receiving ----------

  /** The bytes, cut into pieces for areas of these lengths. */
  function Cut(bytes: seq<byte>, lens: seq<nat>): (pieces: seq<seq<byte>>)
    ensures |pieces| == |lens|
  {
    if lens == [] then []
    else
      var k := Min(lens[0], |bytes|);
      [bytes[..k]] + Cut(bytes[k..], lens[1..])
  }

  lemma {:induction false} CutWhole(bytes: seq<byte>, lens: seq<nat>)
    requires |bytes| <= Sum(lens)
    ensures Flatten(Cut(bytes, lens)) == bytes
    ensures forall k :: 0 <= k < |lens| ==> |Cut(bytes, lens)[k]| <= lens[k]
  {
    hide Flatten, Sum;
    if lens != [] {
      var k := Min(lens[0], |bytes|);
      assert Sum(lens) == lens[0] + Sum(lens[1..]) by { SumFirst(lens); }
      CutWhole(bytes[k..], lens[1..]);
      OnePiece(bytes, k, Cut(bytes[k..], lens[1..]));
    } else {
      SumNone();
      FlattenEmpties([]);
    }
  }

  lemma SumFirst(lens: seq<nat>)
    requires lens != []
    ensures Sum(lens) == lens[0] + Sum(lens[1..])
  {
  }

  lemma OnePiece(bytes: seq<byte>, k: nat, rest: seq<seq<byte>>)
    requires k <= |bytes| && Flatten(rest) == bytes[k..]
    ensures Flatten([bytes[..k]] + rest) == bytes
  {
    assert ([bytes[..k]] + rest)[1..] == rest;
    assert bytes == bytes[..k] + bytes[k..];
  }

  /** The bytes go into two areas at most; all of them are committed, or none. */
  method Store(a: EvBuffer, bytes: seq<byte>, memory: bool) returns (put: nat)
    requires a.Valid() && |a.Contents()| + |bytes| <= SIZE_MAX
    modifies a, a.g.chains
    ensures a.Valid() && unchanged(a`freezeStart, a`freezeEnd)
    ensures forall c :: c in a.g.chains ==> c in old(a.g.chains) || fresh(c)
    ensures put == |bytes| || (put == 0 && !(memory && |bytes| <= CHAIN_LIMIT)) || a.freezeEnd
    ensures a.Contents() == if a.freezeEnd then old(a.Contents()) else old(a.Contents()) + bytes[..put]
  {
    hide EvBuffer.Valid, EvBuffer.Contents, EvBuffer.Fit, EvBuffer.Lone, EvBuffer.Stuck, Layout.Regrown, Flatten;
    put := 0;
    assert old(a.Contents()) + bytes[..0] == old(a.Contents());
    if |bytes| > SSIZE_MAX {
      return;
    }
    var r, vecs := a.ReserveSpace(|bytes|, 2, memory);
    if r < 0 {
      return;
    }
    assert forall i :: 0 <= i < |a.g.chains| ==> a.g.chains[i] in a.g.chains;
    var fill := Cut(bytes, Lens(vecs));
    CutWhole(bytes, Lens(vecs));
    ghost var was := a.Contents();
    var done, pieces := a.FillAndCommit(vecs, fill);
    assert pieces == fill;
    put := |bytes|;
    assert bytes[..put] == bytes;
  }

  // ---------- Runs ----------

  /** A call that works on a alone. */
  predicate Alone(op: Op) {
    !op.AddOther? && !op.PrependOther? && !op.Move?
  }

  /** evbuffer_add puts in all or nothing. */
  method AddIn(a: EvBuffer, bytes: seq<byte>, memory: bool) returns (put: nat)
    requires a.Valid() && |a.Contents()| + |bytes| <= SIZE_MAX
    modifies a, a.g.chains
    ensures a.Valid() && unchanged(a`freezeStart, a`freezeEnd)
    ensures forall c :: c in a.g.chains ==> c in old(a.g.chains) || fresh(c)
    ensures Puts(Add(bytes, memory), 0, put)
    ensures a.Contents() == if a.freezeEnd then old(a.Contents()) else old(a.Contents()) + bytes[..put]
  {
    hide EvBuffer.Contents, EvBuffer.Valid, EvBuffer.Takes;
    a.ValidCounts();
    CanTake(a, |bytes|, memory);
    AllOrNothing(a.Contents(), bytes);
    var r := a.Add(bytes, memory);
    put := if r == 0 || a.freezeEnd then |bytes| else 0;
  }

  /** evbuffer_prepend may stop halfway. */
  method PrependIn(a: EvBuffer, bytes: seq<byte>, memory: bool) returns (put: nat)
    requires a.Valid() && |a.Contents()| + |bytes| <= SIZE_MAX
    modifies a, a.g.chains
    ensures a.Valid() && unchanged(a`freezeStart, a`freezeEnd)
    ensures forall c :: c in a.g.chains ==> c in old(a.g.chains) || fresh(c)
    ensures Puts(Prepend(bytes, memory), 0, put)
    ensures a.Contents() ==
            if a.freezeStart then old(a.Contents()) else bytes[|bytes| - put..] + old(a.Contents())
  {
    hide EvBuffer.Contents, EvBuffer.Valid, EvBuffer.FrontRoom, EvBuffer.HasChainFor;
    a.ValidCounts();
    CanPrepend(a, bytes, memory);
    AllOrNothing(a.Contents(), bytes);
    var room := a.FrontRoom();
    var r := a.Prepend(bytes, memory);
    put := if r == 0 || a.freezeStart then |bytes| else room;
  }

  lemma AllOrNothing(s: seq<byte>, bytes: seq<byte>)
    ensures bytes[..|bytes|] == bytes && bytes[|bytes| - |bytes|..] == bytes
    ensures s + bytes[..0] == s
  {
  }

  /** The calls that put bytes in. */
  method PutIn(a: EvBuffer, op: Op) returns (put: nat)
    requires a.Valid() && (op.Add? || op.Prepend? || op.Receive?) && |a.Contents()| + |Input(op)| <= SIZE_MAX
    modifies a, a.g.chains
    ensures a.Valid() && unchanged(a`freezeStart, a`freezeEnd)
    ensures forall c :: c in a.g.chains ==> c in old(a.g.chains) || fresh(c)
    ensures Puts(op, 0, put)
    ensures a.Contents() ==
            if op.Prepend? then
              if a.freezeStart then old(a.Contents()) else op.bytes[|op.bytes| - put..] + old(a.Contents())
            else if a.freezeEnd then old(a.Contents()) else old(a.Contents()) + op.bytes[..put]
  {
    hide EvBuffer.Contents, EvBuffer.Valid;
    if op.Add? {
      put := AddIn(a, op.bytes, op.memory);
    } else if op.Prepend? {
      put := PrependIn(a, op.bytes, op.memory);
    } else {
      put := Store(a, op.bytes, op.memory);
      if a.freezeEnd { put := |op.bytes|; }
    }
  }

  lemma CanTake(a: EvBuffer, n: nat, memory: bool)
    ensures memory && n <= CHAIN_LIMIT ==> EvBuffer.Takes(a.Target(), n, memory)
  {
  }

  lemma CanPrepend(a: EvBuffer, bytes: seq<byte>, memory: bool)
    ensures memory && |bytes| <= CHAIN_LIMIT ==> a.HasChainFor(bytes, memory)
    ensures !a.HasChainFor(bytes, memory) ==> a.FrontRoom() <= |bytes|
    ensures a.FrontRoom() == |bytes| && |bytes| > 0 ==> a.HasChainFor(bytes, memory)
  {
  }

  method PerformAlone(a: EvBuffer, op: Op) returns (out: seq<byte>, put: int)
    requires a.Valid() && Alone(op) && |a.Contents()| + |Input(op)| <= SIZE_MAX
    modifies a, a.g.chains
    ensures a.Valid() && Puts(op, 0, put)
    ensures forall c :: c in a.g.chains ==> c in old(a.g.chains) || fresh(c)
    ensures forall r, e :: Streams(a.Contents(), r, Ends(a.freezeStart, a.freezeEnd), e, out) ==
                           Streams(old(a.Contents()), r, Ends(old(a.freezeStart), old(a.freezeEnd)), e, []).Do(op, put)
  {
    hide EvBuffer.Contents, EvBuffer.Valid, EvBuffer.Reaches;
    out, put := [], 0;
    a.ValidCounts();
    if op.Add? || op.Prepend? || op.Receive? {
      put := PutIn(a, op);
      return;
    }
    match op
    case Drain(n) =>
      var r := a.Drain(n);
    case Remove(n) =>
      var r;
      r, out := a.Remove(n);
      assert a.Contents() == old(a.Contents())[|out|..] && out == old(a.Contents())[..|out|];
    case Pullup(size, memory) =>
      var r := a.Pullup(size, memory);
    case Freeze(atFront) =>
      a.Freeze(atFront);
    case Unfreeze(atFront) =>
      a.Unfreeze(atFront);
    case _ =>
  }

  /** Once the first n bytes are in one chain they can be moved. */
  lemma PulledMovable(src: Layout, dst: Layout, n: nat)
    requires src.Ok() && dst.Ok() && src.chains != [] && 0 < n <= |src.data[0]|
    ensures Movable(src, dst, n)
  {
    hide Flatten, NoDup;
    WholeStep(src.data, 0, n);
    assert src.data[0..] == src.data;
    if n == |src.data[0]| {
      NothingMore(src.data[1..]);
      var i := Whole(src.data, n);
      assert forall j :: 0 < j < i ==> src.data[j] == src.data[1..][j - 1];
      FlattenNonEmpty(src.data[..i], 0);
      NoGapBehind(dst, src.data[..i]);
    }
  }

  /** Data and then only empty chains leave no gap behind a list that is in order. */
  lemma NoGapBehind(dst: Layout, ds: seq<seq<byte>>)
    requires dst.Ok() && ds != [] && ds[0] != [] && forall j :: 0 < j < |ds| ==> ds[j] == []
    ensures NoGap(dst.Cut().data + ds, dst.Cut().lwd)
  {
    hide Flatten, NoDup;
    var h := dst.Cut();
    assert forall j :: |h.data| < j < |h.data| + |ds| ==> (h.data + ds)[j] == ds[j - |h.data|];
    assert (h.data + ds)[|h.data|] == ds[0];
  }

  lemma {:induction false} NothingMore(ds: seq<seq<byte>>)
    ensures forall j :: 0 <= j < Whole(ds, 0) ==> ds[j] == []
  {
    if ds != [] && |ds[0]| <= 0 {
      NothingMore(ds[1..]);
      assert forall j :: 0 < j < Whole(ds, 0) ==> ds[j] == ds[1..][j - 1];
    }
  }

  /** Bytes of b go over to a, unless they cannot be pulled up. */
  method MoveOver(a: EvBuffer, b: EvBuffer, n: nat, memory: bool) returns (ghost put: int)
    requires a.Separate(b) && |a.Contents()| + |b.Contents()| <= SIZE_MAX
    modifies a, a.g.chains, b, b.g.chains
    ensures a.Separate(b)
    ensures forall c :: c in a.g.chains || c in b.g.chains ==> c in old(a.g.chains) || c in old(b.g.chains) || fresh(c)
    ensures Puts(Move(n, memory), |old(b.Contents())|, put)
    ensures Seen(a, b, []) == old(Seen(a, b, [])).Do(Move(n, memory), put)
  {
    hide EvBuffer.Contents, EvBuffer.Valid, Movable, Streams.Do, EvBuffer.Reaches;
    a.ValidCounts();
    b.ValidCounts();
    if 0 < n && n < b.totalLen {
      assert forall i :: 0 <= i < |a.g.chains| ==> a.g.chains[i] !in b.g.chains;
      var r := b.Pullup(n, memory);
      assert forall i :: 0 <= i < |a.g.chains| ==> a.g.chains[i] !in b.g.chains;
      if r == null {
        put := -1;
        GivenUp(Seen(a, b, []), n, memory);
        return;
      }
    }
    InFront(a, b, n);
    OpenLists(a, b);
    put := MoveReady(a, b, n, memory);
  }

  lemma GivenUp(s: Streams, n: nat, memory: bool)
    requires n < |s.right| && !(memory && n <= CHAIN_LIMIT)
    ensures s.Do(Move(n, memory), -1) == s
  {
  }

  /** All of b, or what is in its first chain, can be moved. */
  lemma InFront(a: EvBuffer, b: EvBuffer, n: nat)
    requires a.Separate(b) && (n == 0 || n >= |b.Contents()| || (b.first != null && b.first.off >= n))
    ensures n > 0 ==> Movable(b.g, a.g, n)
  {
    hide Flatten, NoDup, Movable;
    if n >= |b.Contents()| {
      AllMovable(b.g, a.g, n);
    } else if n > 0 {
      LinkedAt(b.g.chains, b.g.data, null, 0);
      PulledMovable(b.g, a.g, n);
    }
  }

  method MoveReady(a: EvBuffer, b: EvBuffer, n: nat, memory: bool) returns (ghost put: int)
    requires a.Separate(b) && |a.Contents()| + |b.Contents()| <= SIZE_MAX && (n > 0 ==> Movable(b.g, a.g, n))
    modifies a, a.g.chains, b, b.g.chains
    ensures a.Separate(b)
    ensures forall c :: c in a.g.chains || c in b.g.chains ==> c in old(a.g.chains) || c in old(b.g.chains) || fresh(c)
    ensures Puts(Move(n, memory), |old(b.Contents())|, put)
    ensures Seen(a, b, []) == old(Seen(a, b, [])).Do(Move(n, memory), put)
  {
    hide EvBuffer.Contents, EvBuffer.Valid, Movable, EvBuffer.Kept, Whole, Layout.Start, Passed, Lost, Streams.Do, Puts;
    hide Flatten, Linked, NoDup, EmptyFrom, EvBuffer.LinkIn, EvBuffer.LaterTarget;
    a.ValidCore();
    b.ValidCore();
    MemoryKeeps(a, b, n, memory);
    ghost var s, kept, whole := Seen(a, b, []), a.Kept(b.g, n, memory), b.g.Start(Whole(b.g.data, n));
    var r := a.RemoveBuffer(b, n, memory);
    put := Moved(s, Seen(a, b, []), n, memory, kept, whole, r);
  }

  /** What evbuffer_remove_buffer says, as a move between byte strings. */
  lemma Moved(s: Streams, t: Streams, n: nat, memory: bool, kept: bool, whole: nat, r: int) returns (put: int)
    requires t == s.(left := t.left, right := t.right)
    requires (memory && n <= CHAIN_LIMIT) || n >= |s.right| ==> kept
    requires r == if n == 0 then 0 else if s.leftEnds.end || s.rightEnds.start then -1 else Min(n, |s.right|)
    requires if r <= 0 then t.left == s.left && t.right == s.right
             else if kept then Passed(s.left, s.right, t.left, t.right, r)
             else Lost(s.left, s.right, t.left, t.right, whole, r)
    ensures Puts(Move(n, memory), |s.right|, put) && t == s.Do(Move(n, memory), put)
  {
    put := if r <= 0 || kept then Min(n, |s.right|) else whole;
    if r <= 0 {
      assert s.right[..0] == [] && s.left + [] == s.left && s.right[0..] == s.right;
    }
  }

  lemma MemoryKeeps(a: EvBuffer, b: EvBuffer, n: nat, memory: bool)
    requires a.g.Sized() && |b.g.chains| == |b.g.data|
    ensures (memory && n <= CHAIN_LIMIT) || n >= |b.Contents()| ==> a.Kept(b.g, n, memory)
  {
    hide Whole, Layout.Start, EvBuffer.LaterTarget;
  }

  method Perform(a: EvBuffer, b: EvBuffer, op: Op) returns (out: seq<byte>, ghost put: int)
    requires a.Separate(b) && |a.Contents()| + |b.Contents()| + |Input(op)| <= SIZE_MAX
    modifies a, a.g.chains, b, b.g.chains
    ensures a.Separate(b)
    ensures forall c :: c in a.g.chains || c in b.g.chains ==> c in old(a.g.chains) || c in old(b.g.chains) || fresh(c)
    ensures Puts(op, |old(b.Contents())|, put)
    ensures Seen(a, b, out) == old(Seen(a, b, [])).Do(op, put)
  {
    hide EvBuffer.Contents, EvBuffer.Valid;
    out, put := [], 0;
    match op
    case AddOther =>
      var r := a.AddBuffer(b);
      assert old(a.Contents()) + [] == old(a.Contents());
    case PrependOther =>
      var r := a.PrependBuffer(b);
      assert [] + old(a.Contents()) == old(a.Contents());
    case Move(n, memory) =>
      put := MoveOver(a, b, n, memory);
    case _ =>
      assert forall i :: 0 <= i < |b.g.chains| ==> b.g.chains[i] !in a.g.chains;
      var k;
      out, k := PerformAlone(a, op);
      put := k;
      assert forall i :: 0 <= i < |a.g.chains| ==> a.g.chains[i] in a.g.chains;
  }

  lemma OtherWay(a: EvBuffer, b: EvBuffer)
    requires a.Separate(b)
    ensures b.Separate(a)
  {
    assert forall i :: 0 <= i < |b.g.chains| ==> b.g.chains[i] !in a.g.chains;
  }

  method Dispatch(a: EvBuffer, b: EvBuffer, c: Call) returns (out: seq<byte>, ghost put: int)
    requires a.Separate(b) && |a.Contents()| + |b.Contents()| + |Input(c.op)| <= SIZE_MAX
    modifies a, a.g.chains, b, b.g.chains
    ensures a.Separate(b)
    ensures forall c :: c in a.g.chains || c in b.g.chains ==> c in old(a.g.chains) || c in old(b.g.chains) || fresh(c)
    ensures Puts(c.op, |old(Seen(a, b, [])).From(c).right|, put)
    ensures Seen(a, b, out) == old(Seen(a, b, [])).Step(c, put)
  {
    hide EvBuffer.Contents, EvBuffer.Valid, Streams.Do, Puts;
    if c.left {
      out, put := Perform(a, b, c.op);
    } else {
      OtherWay(a, b);
      out, put := Perform(b, a, c.op);
      OtherWay(b, a);
    }
  }

  /** What was taken before is only carried along. */
  lemma Carried(s: Streams, taken: seq<byte>, c: Call, put: int)
    requires s.taken == [] && Puts(c.op, |s.From(c).right|, put)
    ensures s.(taken := taken).Step(c, put) == s.Step(c, put).(taken := taken + s.Step(c, put).taken)
  {
    hide Streams.Do, Puts;
    DoCarries(s.From(c), taken, c.op, put);
  }

  lemma DoCarries(s: Streams, taken: seq<byte>, op: Op, put: int)
    requires s.taken == [] && Puts(op, |s.right|, put)
    ensures s.(taken := taken).Do(op, put) == s.Do(op, put).(taken := taken + s.Do(op, put).taken)
  {
    assert taken + [] == taken;
    if op.Remove? {
      var x := s.left[..Min(op.n, |s.left|)];
      assert [] + x == x;
    }
  }

  /** The room left after a call is enough for the calls that follow. */
  lemma RoomAfter(s: Streams, c: Call, put: int)
    requires Puts(c.op, |s.From(c).right|, put)
    ensures s.Step(c, put).Room() >= s.Room() - |Input(c.op)|
  {
  }

  /** One call more at the end of a run. */
  lemma {:induction false} AfterSnoc(s: Streams, cs: seq<Call>, puts: seq<int>, c: Call, put: int)
    requires s.Possible(cs, puts) && Puts(c.op, |s.After(cs, puts).From(c).right|, put)
    ensures s.Possible(cs + [c], puts + [put]) && s.After(cs + [c], puts + [put]) == s.After(cs, puts).Step(c, put)
    decreases |cs|
  {
    hide Streams.Step, Puts;
    if cs == [] {
      assert (cs + [c])[1..] == [] && (puts + [put])[1..] == [];
    } else {
      assert (cs + [c])[1..] == cs[1..] + [c] && (puts + [put])[1..] == puts[1..] + [put];
      AfterSnoc(s.Step(cs[0], puts[0]), cs[1..], puts[1..], c, put);
    }
  }

  /** Every run does to the two buffers what it does to two byte strings, and keeps both in order; puts says how much
      each call has put in. */
  method Run(a: EvBuffer, b: EvBuffer, calls: seq<Call>) returns (taken: seq<byte>, ghost puts: seq<int>)
    requires a.Separate(b) && |a.Contents()| + |b.Contents()| + Volume(calls) <= SIZE_MAX
    modifies a, a.g.chains, b, b.g.chains
    ensures a.Separate(b) && old(Seen(a, b, [])).Possible(calls, puts)
    ensures Seen(a, b, taken) == old(Seen(a, b, [])).After(calls, puts)
  {
    hide EvBuffer.Contents, EvBuffer.Valid, EvBuffer.Separate, Streams.After, Streams.Step, Streams.Possible, Puts;
    taken, puts := [], [];
    ghost var s := Seen(a, b, []);
    NoCalls(s, calls);
    for i := 0 to |calls|
      invariant a.Separate(b)
      invariant forall c :: c in a.g.chains || c in b.g.chains ==>
                  c in old(a.g.chains) || c in old(b.g.chains) || fresh(c)
      invariant s.Possible(calls[..i], puts) && Seen(a, b, taken) == s.After(calls[..i], puts)
      invariant Seen(a, b, taken).Room() >= Volume(calls[i..])
    {
      NextCall(calls, i);
      OpenLists(a, b);
      ghost var n := Seen(a, b, []);
      var out;
      ghost var put;
      out, put := Dispatch(a, b, calls[i]);
      Carried(n, taken, calls[i], put);
      RoomAfter(n, calls[i], put);
      AfterSnoc(s, calls[..i], puts, calls[i], put);
      taken, puts := taken + out, puts + [put];
    }
    assert calls[..|calls|] == calls;
  }

  lemma NoCalls(s: Streams, calls: seq<Call>)
    ensures s.Possible(calls[..0], []) && s.After(calls[..0], []) == s && calls[0..] == calls
  {
  }

  lemma NextCall(calls: seq<Call>, i: nat)
    requires i < |calls|
    ensures calls[..i + 1] == calls[..i] + [calls[i]]
    ensures Volume(calls[i..]) == |Input(calls[i].op)| + Volume(calls[i + 1..])
  {
    assert calls[i..][1..] == calls[i + 1..];
  }

  lemma OpenLists(a: EvBuffer, b: EvBuffer)
    ensures forall j :: 0 <= j < |a.g.chains| ==> a.g.chains[j] in a.g.chains
    ensures forall j :: 0 <= j < |b.g.chains| ==> b.g.chains[j] in b.g.chains
  {
  }

  // ---------- Pipes ----------

  /** A call as it is used on a pipe: bytes go in at the right end of `left`, move on to the end of `right` and are
      taken out at its front; chains may be pulled up, and any end may be frozen for a while. */
  predicate OfPipe(c: Call) {
    || c.op.Freeze? || c.op.Unfreeze? || c.op.Pullup?
    || (if c.left then c.op.Add? || c.op.Receive? else c.op.AddOther? || c.op.Move? || c.op.Remove?)
  }

  /** What a call puts in: nothing if that end is frozen. */
  ghost function Accepted(s: Streams, c: Call, put: int): seq<byte>
    requires Puts(c.op, |s.From(c).right|, put)
  {
    if (c.op.Add? || c.op.Receive?) && !s.From(c).leftEnds.end then c.op.bytes[..put] else []
  }

  /** How many bytes a move takes out of the one buffer and does not put into the other. */
  ghost function LostBy(s: Streams, c: Call, put: int): nat
    requires Puts(c.op, |s.From(c).right|, put)
  {
    var v := s.From(c);
    if c.op.Move? && !v.leftEnds.end && !v.rightEnds.start && put >= 0 then Min(c.op.n, |v.right|) - put else 0
  }

  /** All bytes put in by the calls, in order. */
  ghost function Inputs(s: Streams, cs: seq<Call>, puts: seq<int>): seq<byte>
    requires s.Possible(cs, puts)
    decreases |cs|
  {
    if cs == [] then []
    else Accepted(s, cs[0], puts[0]) + Inputs(s.Step(cs[0], puts[0]), cs[1..], puts[1..])
  }

  ghost function Losses(s: Streams, cs: seq<Call>, puts: seq<int>): nat
    requires s.Possible(cs, puts)
    decreases |cs|
  {
    if cs == [] then 0 else LostBy(s, cs[0], puts[0]) + Losses(s.Step(cs[0], puts[0]), cs[1..], puts[1..])
  }

  /** A pipe duplicates and reorders nothing, whatever is frozen meanwhile, and loses nothing exactly when no move
      does. */
  lemma {:induction false} PipeConserves(s: Streams, cs: seq<Call>, puts: seq<int>)
    requires s.Possible(cs, puts) && forall i :: 0 <= i < |cs| ==> OfPipe(cs[i])
    ensures var t := s.After(cs, puts);
            && (t.All() == s.All() + Inputs(s, cs, puts) <==> Losses(s, cs, puts) == 0)
            && |t.All()| + Losses(s, cs, puts) == |s.All()| + |Inputs(s, cs, puts)|
    decreases |cs|
  {
    hide Streams.Step, Puts, Accepted, LostBy, Streams.All, OfPipe;
    if cs == [] {
      assert s.All() + [] == s.All();
    } else {
      assert OfPipe(cs[0]);
      PipeStep(s, cs[0], puts[0]);
      var n := s.Step(cs[0], puts[0]);
      PipeConserves(n, cs[1..], puts[1..]);
      Regrouped(s.All(), Accepted(s, cs[0], puts[0]), Inputs(n, cs[1..], puts[1..]));
    }
  }

  /** With memory no move loses anything. */
  lemma {:induction false} NothingLost(s: Streams, cs: seq<Call>, puts: seq<int>)
    requires s.Possible(cs, puts)
    requires forall i :: 0 <= i < |cs| && cs[i].op.Move? ==> cs[i].op.memory && cs[i].op.n <= CHAIN_LIMIT
    ensures Losses(s, cs, puts) == 0
    decreases |cs|
  {
    hide Streams.Step;
    if cs != [] {
      NothingLost(s.Step(cs[0], puts[0]), cs[1..], puts[1..]);
    }
  }

  lemma Regrouped(a: seq<byte>, b: seq<byte>, c: seq<byte>)
    ensures a + b + c == a + (b + c)
  {
  }

  lemma PipeStep(s: Streams, c: Call, put: int)
    requires OfPipe(c) && Puts(c.op, |s.From(c).right|, put)
    ensures var n := s.Step(c, put);
            && (LostBy(s, c, put) == 0 ==> n.All() == s.All() + Accepted(s, c, put))
            && |n.All()| + LostBy(s, c, put) == |s.All()| + |Accepted(s, c, put)|
  {
    var all := s.All();
    assert all + [] == all;
    match c.op
    case Add(bytes, _) => Regrouped(s.taken + s.right, s.left, bytes[..put]);
    case Receive(bytes, _) => Regrouped(s.taken + s.right, s.left, bytes[..put]);
    case Remove(k) =>
      var m := Min(k, |s.right|);
      assert s.right == s.right[..m] + s.right[m..];
      Regrouped(s.taken, s.right[..m], s.right[m..]);
    case AddOther =>
      Regrouped(s.taken, s.right, s.left);
    case Move(k, _) =>
      MoveStep(s, k, put);
    case _ =>
  }

  /** Bytes that move from the front of left to the end of right. */
  lemma MoveStep(s: Streams, k: nat, put: int)
    requires put <= Min(k, |s.left|)
    ensures put >= 0 ==>
              var m := Min(k, |s.left|);
              && (m == put ==> s.taken + (s.right + s.left[..put]) + s.left[m..] == s.All())
              && |s.taken + (s.right + s.left[..put]) + s.left[m..]| + (m - put) == |s.All()|
  {
    var m := Min(k, |s.left|);
    assert s.left == s.left[..m] + s.left[m..];
  }
}
