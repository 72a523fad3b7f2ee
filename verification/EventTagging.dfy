/** Marshalling tagged data into an evbuffer and reading it back. */
module EventTagging {
  import opened Bytes
  import opened Options
  import opened Chains
  import opened EvBuffers
  import opened TagFormat

  /** A buffer that can be written and read. */
  ghost predicate Open(buf: EvBuffer)
    reads buf, buf.g.chains
  {
    buf.Valid() && !buf.freezeStart && !buf.freezeEnd
  }

  /** evbuffer_add with room for the bytes. */
  method Append(buf: EvBuffer, bytes: seq<byte>)
    requires Open(buf) && |buf.Contents()| + |bytes| <= SIZE_MAX && |bytes| <= CHAIN_LIMIT
    modifies buf, buf.g.chains
    ensures Open(buf) && buf.Contents() == old(buf.Contents()) + bytes
    ensures forall c :: c in buf.g.chains ==> c in old(buf.g.chains) || fresh(c)
  {
    hide EvBuffer.Valid, EvBuffer.Contents;
    buf.ValidCounts();
    var r := buf.Add(bytes, true);
  }

  /** evbuffer_drain */
  method Discard(buf: EvBuffer, n: nat)
    requires Open(buf) && n <= |buf.Contents()|
    modifies buf, buf.g.chains
    ensures Open(buf) && buf.Contents() == old(buf.Contents())[n..]
    ensures forall c :: c in buf.g.chains ==> c in old(buf.g.chains) || fresh(c)
  {
    hide EvBuffer.Valid, EvBuffer.Contents;
    var r := buf.Drain(n);
  }

  /** evbuffer_drain with a length that was a signed number: a negative one becomes very large. */
  method DiscardLen(buf: EvBuffer, n: int)
    requires Open(buf) && n > 0 - SIZE_MAX
    modifies buf, buf.g.chains
    ensures Open(buf) && buf.Contents() == old(buf.Contents())[Min(AsSize(n), |old(buf.Contents())|)..]
    ensures forall c :: c in buf.g.chains ==> c in old(buf.g.chains) || fresh(c)
  {
    hide EvBuffer.Valid, EvBuffer.Contents;
    var r := buf.Drain(AsSize(n));
  }

  function AsSize(n: int): nat
    requires n > 0 - SIZE_MAX
  {
    if n < 0 then n + SIZE_MAX + 1 else n
  }

  lemma SliceOf(s: seq<byte>, at: nat, len: nat, n: nat)
    requires at + len <= |s| && n <= len
    ensures s[at..at + len][..n] == s[at..at + n]
  {
  }

  /** The first n bytes, made contiguous. */
  method Peek(buf: EvBuffer, n: nat) returns (data: seq<byte>)
    requires Open(buf) && n <= |buf.Contents()| && n <= CHAIN_LIMIT
    modifies buf, buf.g.chains
    ensures Open(buf) && buf.Contents() == old(buf.Contents()) && data == buf.Contents()[..n]
    ensures forall c :: c in buf.g.chains ==> c in old(buf.g.chains) || fresh(c)
  {
    hide EvBuffer.Valid, EvBuffer.Contents;
    var chain := buf.Pullup(n, true);
    if chain == null {
      return [];
    }
    data := chain.buffer[chain.misalign..chain.misalign + n];
    SliceOf(chain.buffer, chain.misalign, chain.off, n);
  }

  /** ENCODE_INT_INTERNAL for a type of size bytes: nibble by nibble into a zeroed field. */
  method EncodeIntInternal(number: nat, size: nat) returns (data: seq<byte>)
    requires 1 <= size <= 8 && number < Pow16(2 * size)
    ensures |Nibbles(number)| <= 16 && data == EncodeInt(number)
  {
    hide Pow16, Byte, Nibble, SetNibble, Partly, Nibbles;
    NibblesCount(number, 2 * size);
    var off, num := 1, number;
    data := seq(size + 1, _ => 0);
    NothingSet(data, number);
    while num > 0
      invariant 1 <= off && off - 1 + |Nibbles(num)| == |Nibbles(number)| && |data| == size + 1
      invariant Nibbles(number)[off - 1..] == Nibbles(num) && Partly(data, Nibbles(number), off, 0)
      decreases num
    {
      NextNibble(number, off, num);
      var was := data;
      data := SetNibble(data, off, num % 16);
      OneSet(was, Nibbles(number), off, data);
      num := num / 16;
      off := off + 1;
    }
    NoNibbles();
    var nibbles := if off > 2 then off - 2 else 0;
    var full := data;
    data := SetNibble(data, 0, nibbles % 16);
    data := data[..(off + 1) / 2];
    AllSet(full, number, off, nibbles, data);
  }

  /** The count is x, and the first off - 1 nibbles are in place; the rest is zero. */
  ghost predicate Partly(data: seq<byte>, ns: seq<nat>, off: nat, x: nat) {
    forall p :: 0 <= p < 2 * |data| ==>
      Nibble(data, p) == if p == 0 then x else if p < off && p - 1 < |ns| then ns[p - 1] else 0
  }

  lemma NothingSet(data: seq<byte>, number: nat)
    requires forall i :: 0 <= i < |data| ==> data[i] == 0
    ensures Partly(data, Nibbles(number), 1, 0) && Nibbles(number)[0..] == Nibbles(number)
  {
  }

  lemma NextNibble(number: nat, off: nat, num: nat)
    requires num > 0 && 1 <= off && off - 1 + |Nibbles(num)| == |Nibbles(number)| &&
             Nibbles(number)[off - 1..] == Nibbles(num)
    ensures off - 1 < |Nibbles(number)| && Nibbles(number)[off - 1] == num % 16
    ensures off + |Nibbles(num / 16)| == |Nibbles(number)| && Nibbles(number)[off..] == Nibbles(num / 16)
  {
    assert Nibbles(num) == [num % 16] + Nibbles(num / 16);
    assert Nibbles(number)[off - 1] == Nibbles(num)[0];
    assert Nibbles(number)[off..] == Nibbles(num)[1..];
  }

  lemma NoNibbles()
    ensures Nibbles(0) == []
  {
  }

  lemma OneSet(data: seq<byte>, ns: seq<nat>, off: nat, next: seq<byte>)
    requires Partly(data, ns, off, 0) && 1 <= off <= |ns| && |next| == |data|
    requires forall q :: 0 <= q < 2 * |data| ==> Nibble(next, q) == if q == off then ns[off - 1] else Nibble(data, q)
    ensures Partly(next, ns, off + 1, 0)
  {
    hide Nibble;
  }

  lemma AllSet(full: seq<byte>, number: nat, off: nat, nibbles: nat, data: seq<byte>)
    requires off == |Nibbles(number)| + 1 <= 17 && nibbles == (if off > 2 then off - 2 else 0) &&
             (off + 1) / 2 <= |full|
    requires Partly(full, Nibbles(number), off, 0) && data == SetNibble(full, 0, nibbles)[..(off + 1) / 2]
    ensures data == EncodeInt(number)
  {
    hide SetNibble, Nibbles;
    var marked := SetNibble(full, 0, nibbles);
    forall p | 0 <= p < 2 * |data|
      ensures Nibble(data, p) == if p < |Stream(number)| then Stream(number)[p] else 0
    {
      assert Nibble(data, p) == Nibble(marked, p);
      assert Nibble(marked, p) == if p == 0 then nibbles else Nibble(full, p);
    }
    IntUnique(data, number);
  }

  /** One half of a byte changes. */
  function SetNibble(data: seq<byte>, p: nat, x: nat): (r: seq<byte>)
    requires p / 2 < |data| && x < 16
    ensures |r| == |data| && forall q :: 0 <= q < 2 * |data| ==> Nibble(r, q) == if q == p then x else Nibble(data, q)
  {
    var b: nat := data[p / 2];
    data[p / 2 := if p % 2 == 1 then Byte(b / 16, x) else Byte(x, b % 16)]
  }

  /** evtag_encode_int, evtag_encode_int64 */
  method EncodeNumber(buf: EvBuffer, number: nat, size: nat)
    requires Open(buf) && 1 <= size <= 8 && number < Pow16(2 * size) && |buf.Contents()| + 9 <= SIZE_MAX
    modifies buf, buf.g.chains
    ensures Open(buf) && |Nibbles(number)| <= 16 && buf.Contents() == old(buf.Contents()) + EncodeInt(number)
    ensures forall c :: c in buf.g.chains ==> c in old(buf.g.chains) || fresh(c)
  {
    hide Open, Pow16, Nibbles, EvBuffer.Contents;
    var data := EncodeIntInternal(number, size);
    Append(buf, data);
  }

  /** evtag_encode_tag */
  method WriteTag(buf: EvBuffer, tag: nat) returns (bytes: nat)
    requires Open(buf) && tag < 0x1_0000_0000 && |buf.Contents()| + 5 <= SIZE_MAX
    modifies buf, buf.g.chains
    ensures Open(buf) && buf.Contents() == old(buf.Contents()) + EncodeTag(tag) && bytes == |EncodeTag(tag)| <= 5
    ensures forall c :: c in buf.g.chains ==> c in old(buf.g.chains) || fresh(c)
  {
    hide Open, EvBuffer.Contents;
    var data: seq<byte> := [];
    var rest := tag;
    TagShortest(tag);
    while true
      invariant rest < 0x1_0000_0000 && EncodeTag(tag) == data + EncodeTag(rest)
      decreases rest
    {
      var lower: nat := rest % 128;
      var next := rest / 128;
      if next > 0 {
        lower := lower + 128;
        assert EncodeTag(rest) == [lower] + EncodeTag(next);
      }
      data := data + [lower];
      rest := next;
      if rest == 0 {
        break;
      }
    }
    bytes := |data|;
    Append(buf, data);
  }

  lemma TagShortest(tag: nat)
    requires tag < 0x1_0000_0000
    ensures |EncodeTag(tag)| <= 5
  {
    assert Pow128(5) > 0x1_0000_0000;
    TagLength(tag, 5);
  }

  lemma {:induction false} TagLength(tag: nat, k: nat)
    requires k > 0 && tag < Pow128(k)
    ensures |EncodeTag(tag)| <= k
  {
    if tag >= 128 { TagLength(tag / 128, k - 1); }
  }

  /** Of the bytes pulled up, at most five of a stream s, as many as the tag takes. */
  method ScanTag(data: seq<byte>, len: nat, ghost s: seq<byte>) returns (r: int, tag: nat)
    requires len == |s| && data == s[..Min(len, 5)]
    ensures var t := DecodeTag(s, 0); r == (if t.Some? then t.value.len else -1) && (t.Some? ==> tag == t.value.value)
  {
    tag := 0;
    var count, shift := 0, 1;      // shift as the power of two to multiply with
    while count < len
      invariant 0 <= count <= Min(len, 5) && shift == Pow128(count)
      invariant DecodeTag(s, 0) == Shifted(tag, shift, count, DecodeTag(s, count))
    {
      if count > 4 {
        return -1, tag;
      }
      var lower: nat := data[count];
      if count == 4 && Low(lower) > 15 {
        return -1, tag;
      }
      ShiftStep(s, tag, shift, count);
      tag := tag + Low(lower) * shift;
      shift := shift * 128;
      count := count + 1;
      if lower < 128 {
        return count, tag;
      }
    }
    return -1, tag;
  }

  /** decode_tag_internal */
  method DecodeTagInternal(buf: EvBuffer, doDrain: bool) returns (r: int, tag: nat)
    requires Open(buf)
    modifies buf, buf.g.chains
    ensures Open(buf)
    ensures forall c :: c in buf.g.chains ==> c in old(buf.g.chains) || fresh(c)
    ensures var t := DecodeTag(old(buf.Contents()), 0);
            && (r == if t.Some? then t.value.len else -1)
            && (t.Some? ==> tag == t.value.value)
            && buf.Contents() == if t.Some? && doDrain then old(buf.Contents())[t.value.len..] else old(buf.Contents())
  {
    hide Open, EvBuffer.Contents, DecodeTag;
    var len := Length(buf);
    var data := Peek(buf, Min(len, 5));
    assert forall i :: 0 <= i < |buf.g.chains| ==> buf.g.chains[i] in buf.g.chains;
    r, tag := ScanTag(data, len, buf.Contents());
    if r != -1 && doDrain {
      Discard(buf, r);
    }
  }

  method Length(buf: EvBuffer) returns (n: nat)
    requires Open(buf)
    ensures n == |buf.Contents()|
  {
    buf.ValidCounts();
    n := buf.totalLen;
  }

  function Pow128(k: nat): (p: nat)
    ensures p > 0
  {
    if k == 0 then 1 else 128 * Pow128(k - 1)
  }

  /** The number read so far, with what comes from byte `count` on above it. */
  function Shifted(tag: nat, shift: nat, count: nat, rest: Option<Number>): Option<Number> {
    if rest.Some? then Some(Number(tag + rest.value.value * shift, count + rest.value.len)) else None
  }

  lemma ShiftStep(s: seq<byte>, tag: nat, shift: nat, count: nat)
    requires count < |s| && count <= 4 && !(count == 4 && Low(s[count]) > 15)
    ensures Shifted(tag, shift, count, DecodeTag(s, count)) ==
            if s[count] < 128 then Some(Number(tag + Low(s[count]) * shift, count + 1))
            else Shifted(tag + Low(s[count]) * shift, shift * 128, count + 1, DecodeTag(s, count + 1))
  {
    var rest := DecodeTag(s, count + 1);
    if s[count] >= 128 && rest.Some? {
      var v, l := rest.value.value, Low(s[count]);
      assert (l + 128 * v) * shift == l * shift + v * (shift * 128);
    }
  }

  /** DECODE_INT_INTERNAL: the integer at an offset; nothing is drained. */
  method DecodeIntInternal(buf: EvBuffer, max: nat, offset: nat) returns (r: int, number: nat)
    requires Open(buf) && offset <= |buf.Contents()| && offset <= 5 + 9
    modifies buf, buf.g.chains
    ensures Open(buf) && buf.Contents() == old(buf.Contents())
    ensures forall c :: c in buf.g.chains ==> c in old(buf.g.chains) || fresh(c)
    ensures var n := DecodeInt(buf.Contents()[offset..], max);
            r == (if n.Some? then n.value.len else -1) && (n.Some? ==> number == n.value.value)
  {
    hide Open, EvBuffer.Contents, Value;
    number := 0;
    var total := Length(buf);
    var len: nat := total - offset;
    if len <= 0 {
      return -1, 0;
    }
    var data := Peek(buf, offset + 1);
    data := data[offset..];
    ghost var s := buf.Contents()[offset..];
    assert data[0] == s[0];
    var nibbles := Nibble(data, 0) + 1;
    assert Nibble(s, 0) == Nibble(data, 0);
    if nibbles > max || nibbles / 2 + 1 > len {
      return -1, 0;
    }
    len := nibbles / 2 + 1;
    assert forall i :: 0 <= i < |buf.g.chains| ==> buf.g.chains[i] in buf.g.chains;
    data := Peek(buf, offset + len);
    data := data[offset..];
    assert forall i :: 0 <= i < |buf.g.chains| ==> buf.g.chains[i] in buf.g.chains;
    number := Assemble(data, nibbles, s);
    r := len;
  }

  /** From the highest nibble down. */
  method Assemble(data: seq<byte>, count: nat, ghost s: seq<byte>) returns (number: nat)
    requires count / 2 < |data| <= |s| && data == s[..|data|]
    ensures number == Value(s, 1, count)
  {
    number := 0;
    var nibbles: nat := count;
    while nibbles > 0
      invariant nibbles <= count && number == Value(s, nibbles + 1, count)
    {
      assert data[nibbles / 2] == s[nibbles / 2];
      number := number * 16 + Nibble(data, nibbles);
      nibbles := nibbles - 1;
    }
  }

  /** evtag_decode_int and evtag_decode_int64: the integer at the start is drained. */
  method DecodeNumber(buf: EvBuffer, max: nat) returns (r: int, number: nat)
    requires Open(buf)
    modifies buf, buf.g.chains
    ensures Open(buf)
    ensures forall c :: c in buf.g.chains ==> c in old(buf.g.chains) || fresh(c)
    ensures var n := DecodeInt(old(buf.Contents()), max);
            && (r == if n.Some? then 0 else -1)
            && (n.Some? ==> number == n.value.value)
            && buf.Contents() == if n.Some? then old(buf.Contents())[n.value.len..] else old(buf.Contents())
  {
    hide Open, EvBuffer.Contents, DecodeInt;
    assert buf.Contents()[0..] == buf.Contents();
    r, number := DecodeIntInternal(buf, max, 0);
    if r != -1 {
      assert forall i :: 0 <= i < |buf.g.chains| ==> buf.g.chains[i] in buf.g.chains;
      Discard(buf, r);
      r := 0;
    }
  }

  // ---------- Records ----------

  /** evtag_marshal */
  method Marshal(buf: EvBuffer, r: Record)
    requires Open(buf) && r.Proper() && |buf.Contents()| + 14 + |r.payload| <= SIZE_MAX
    modifies buf, buf.g.chains
    ensures Open(buf) && buf.Contents() == old(buf.Contents()) + Bytes32(r)
    ensures forall c :: c in buf.g.chains ==> c in old(buf.g.chains) || fresh(c)
  {
    hide Open, EvBuffer.Contents, EncodeTag, EncodeInt, Pow16, Nibbles, IntLen;
    LengthNibbles(|r.payload|);
    IntShort(|r.payload|);
    ghost var s := buf.Contents();
    var bytes := WriteTag(buf, r.tag);
    assert forall i :: 0 <= i < |buf.g.chains| ==> buf.g.chains[i] in buf.g.chains;
    EncodeNumber(buf, |r.payload|, 4);
    assert forall i :: 0 <= i < |buf.g.chains| ==> buf.g.chains[i] in buf.g.chains;
    Append(buf, r.payload);
    assert s + EncodeTag(r.tag) + EncodeInt(|r.payload|) + r.payload == s + Bytes32(r);
  }

  lemma IntShort(n: nat)
    requires |Nibbles(n)| <= 16
    ensures |EncodeInt(n)| <= 9
  {
  }

  /** What is left when a header is read from s, whole or not. */
  ghost function PastHeader(s: seq<byte>): seq<byte> {
    var t := DecodeTag(s, 0);
    if t == None then s
    else
      var rest := s[t.value.len..];
      var n := DecodeInt(rest, 8);
      if n == None then rest else rest[n.value.len..]
  }

  lemma PastHeaderAt(s: seq<byte>)
    ensures ParseHeader(s).Some? ==> PastHeader(s) == s[ParseHeader(s).value.size..]
  {
  }

  /** The length is handed out as a signed 32-bit number. */
  function Int32(n: nat): int {
    if n < 0x8000_0000 then n else n - 0x1_0000_0000
  }

  /** evtag_unmarshal_header: the header is drained even if the payload is not there yet. */
  method UnmarshalHeader(buf: EvBuffer) returns (r: int, tag: nat)
    requires Open(buf)
    modifies buf, buf.g.chains
    ensures Open(buf) && buf.Contents() == PastHeader(old(buf.Contents()))
    ensures forall c :: c in buf.g.chains ==> c in old(buf.g.chains) || fresh(c)
    ensures var h := ParseHeader(old(buf.Contents()));
            && (h == None || |buf.Contents()| < h.value.len ==> r == -1)
            && (h.Some? && |buf.Contents()| >= h.value.len ==> r == Int32(h.value.len) && tag == h.value.tag)
  {
    hide Open, EvBuffer.Contents, DecodeTag, DecodeInt;
    var t;
    t, tag := DecodeTagInternal(buf, true);
    if t == -1 {
      return -1, tag;
    }
    assert forall i :: 0 <= i < |buf.g.chains| ==> buf.g.chains[i] in buf.g.chains;
    var e, len := DecodeNumber(buf, 8);
    if e == -1 {
      return -1, tag;
    }
    assert forall i :: 0 <= i < |buf.g.chains| ==> buf.g.chains[i] in buf.g.chains;
    var n := Length(buf);
    if n < len {
      return -1, tag;
    }
    r := Int32(len);
  }

  /** evtag_peek_length: tag, length and payload together, as an unsigned 32-bit number. */
  method PeekLength(buf: EvBuffer) returns (r: int, length: nat)
    requires Open(buf)
    modifies buf, buf.g.chains
    ensures Open(buf) && buf.Contents() == old(buf.Contents())
    ensures forall c :: c in buf.g.chains ==> c in old(buf.g.chains) || fresh(c)
    ensures var h := ParseHeader(buf.Contents());
            && (r == if h.Some? then 0 else -1)
            && (h.Some? ==> length == (h.value.size + h.value.len) % 0x1_0000_0000)
  {
    hide Open, EvBuffer.Contents, DecodeTag, DecodeInt;
    length := 0;
    var t, tag := DecodeTagInternal(buf, false);
    if t == -1 {
      return -1, 0;
    }
    TagShort(buf.Contents(), 0);
    assert forall i :: 0 <= i < |buf.g.chains| ==> buf.g.chains[i] in buf.g.chains;
    var e, n := DecodeIntInternal(buf, 8, t);
    if e == -1 {
      return -1, 0;
    }
    length := (n + e + t) % 0x1_0000_0000;
    r := 0;
  }

  lemma {:induction false} TagShort(s: seq<byte>, i: nat)
    ensures DecodeTag(s, i).Some? ==> i + DecodeTag(s, i).value.len <= 5
    decreases |s| - i
  {
    if i < |s| && i <= 4 { TagShort(s, i + 1); }
  }

  /** The record begins with a header and its payload is all there, but its length is not the one
      that as a signed number is -1. */
  ghost predicate Whole(s: seq<byte>) {
    var h := ParseHeader(s);
    h.Some? && h.value.size + h.value.len <= |s| && Int32(h.value.len) != -1
  }

  /** What is left when the payload is drained as well: everything goes if its length is 2^31 or more. */
  ghost function PastPayload(s: seq<byte>): seq<byte>
    requires ParseHeader(s).Some?
  {
    var p := PastHeader(s);
    p[Min(AsSize(Int32(ParseHeader(s).value.len)), |p|)..]
  }

  /** What follows a record of 2^31 bytes or more is drained with it. */
  lemma AllDrained(r: Record, after: seq<byte>)
    requires r.Proper() && 0x8000_0000 <= |r.payload| && |r.payload| != 0xFFFF_FFFF
    requires |Bytes32(r) + after| <= CHAIN_LIMIT
    ensures var s := Bytes32(r) + after; Whole(s) && PastPayload(s) == []
  {
    hide Bytes32, ParseHeader, PastHeader;
    var s := Bytes32(r) + after;
    HeaderRoundTrip(r, after);
    BytesAtLeast(r);
    WholeAt(s);
  }

  lemma WholeAt(s: seq<byte>)
    ensures ParseHeader(s).Some? ==>
              PastHeader(s) == s[ParseHeader(s).value.size..] &&
              ParseHeader(s).value.len < 0x1_0000_0000
    ensures Whole(s) && ParseHeader(s).value.len < 0x8000_0000 ==>
              var h := ParseHeader(s).value;
              PastPayload(s) == s[h.size + h.len..] && PastHeader(s)[..h.len] == s[h.size..h.size + h.len]
  {
    PastHeaderAt(s);
    hide ParseHeader, PastHeader;
    var h := ParseHeader(s);
    if h.Some? {
      HeaderLen(s);
      if h.value.size + h.value.len <= |s| { DropTwice(s, h.value.size, h.value.len); }
    }
  }

  lemma HeaderLen(s: seq<byte>)
    requires ParseHeader(s).Some?
    ensures ParseHeader(s).value.len < 0x1_0000_0000
  {
    IntBelow(s[DecodeTag(s, 0).value.len..]);
  }

  /** evtag_consume: when it succeeds, the header and the payload are gone. */
  method Consume(buf: EvBuffer) returns (r: int)
    requires Open(buf)
    modifies buf, buf.g.chains
    ensures Open(buf)
    ensures forall c :: c in buf.g.chains ==> c in old(buf.g.chains) || fresh(c)
    ensures var s := old(buf.Contents());
            && (r == if Whole(s) then 0 else -1)
            && buf.Contents() == if r == 0 then PastPayload(s) else PastHeader(s)
  {
    hide Open, EvBuffer.Contents, ParseHeader, PastHeader;
    WholeAt(buf.Contents());
    var len, tag := UnmarshalHeader(buf);
    if len == -1 {
      return -1;
    }
    assert forall i :: 0 <= i < |buf.g.chains| ==> buf.g.chains[i] in buf.g.chains;
    DiscardLen(buf, len);
    r := 0;
  }

  /** The length that was peeked at is what evtag_consume removes, exactly when the payload is shorter than 2^31 bytes
      or nothing follows the record, which is then shorter than 2^32. */
  method PeekThenConsume(buf: EvBuffer) returns (peeked: int, length: nat, r: int, removed: nat)
    requires Open(buf)
    modifies buf, buf.g.chains
    ensures Open(buf) && (r == 0 ==> peeked == 0)
    ensures var s := old(buf.Contents()); var h := ParseHeader(s);
            r == 0 ==> h.Some? && (removed == length <==>
              h.value.len < 0x8000_0000 || |s| == h.value.size + h.value.len < 0x1_0000_0000)
  {
    hide Open, EvBuffer.Contents, ParseHeader, PastHeader, PastPayload, Whole;
    PayloadGone(buf.Contents());
    peeked, length := PeekLength(buf);
    OpenChains(buf);
    var before := Length(buf);
    OpenChains(buf);
    r := Consume(buf);
    OpenChains(buf);
    var after := Length(buf);
    removed := before - after;
  }

  lemma PayloadGone(s: seq<byte>)
    ensures |PastHeader(s)| <= |s|
    ensures Whole(s) ==>
              var h := ParseHeader(s);
              && h.Some? && |PastPayload(s)| <= |s|
              && (|s| - |PastPayload(s)| == (h.value.size + h.value.len) % 0x1_0000_0000 <==>
                    h.value.len < 0x8000_0000 || |s| == h.value.size + h.value.len < 0x1_0000_0000)
  {
    hide PastHeader;
    PastHeaderShorter(s);
    WholeAt(s);
    if Whole(s) { HeaderShort(s); }
  }

  lemma PastHeaderShorter(s: seq<byte>)
    ensures |PastHeader(s)| <= |s|
  {
  }

  lemma HeaderShort(s: seq<byte>)
    ensures ParseHeader(s).Some? ==> ParseHeader(s).value.size <= 10
  {
    TagShort(s, 0);
    var t := DecodeTag(s, 0);
    if t.Some? { IntAtMost(s[t.value.len..]); }
  }

  lemma DropTwice(s: seq<byte>, a: nat, b: nat)
    requires a + b <= |s|
    ensures s[a..][b..] == s[a + b..]
  {
  }

  /** evtag_unmarshal: the payload moves to another buffer, unless its length is 2^31 or more. */
  method Unmarshal(src: EvBuffer, dst: EvBuffer) returns (r: int, tag: nat)
    requires Open(src) && Open(dst) && src.Separate(dst)
    requires |src.Contents()| + |dst.Contents()| <= SIZE_MAX
    modifies src, src.g.chains, dst, dst.g.chains
    ensures Open(src) && Open(dst) && src.Separate(dst)
    ensures forall c :: c in src.g.chains ==> c in old(src.g.chains) || fresh(c)
    ensures forall c :: c in dst.g.chains ==> c in old(dst.g.chains) || fresh(c)
    ensures var s := old(src.Contents()); var h := ParseHeader(s);
            if Whole(s) && h.value.len < 0x8000_0000 then
              && r == h.value.len && tag == h.value.tag
              && dst.Contents() == old(dst.Contents()) + s[h.value.size..h.value.size + h.value.len]
              && src.Contents() == s[h.value.size + h.value.len..]
            else r == -1 && dst.Contents() == old(dst.Contents()) && src.Contents() == PastHeader(s)
  {
    hide EvBuffer.Contents, EvBuffer.Valid, ParseHeader, PastHeader;
    WholeAt(src.Contents());
    assert forall i :: 0 <= i < |dst.g.chains| ==> dst.g.chains[i] !in src.g.chains;
    r, tag := UnmarshalHeader(src);
    assert forall i :: 0 <= i < |dst.g.chains| ==> dst.g.chains[i] !in src.g.chains && dst.g.chains[i] in dst.g.chains;
    assert forall i :: 0 <= i < |src.g.chains| ==> src.g.chains[i] in src.g.chains;
    if r == -1 {
      return;
    }
    r := TakePayload(src, dst, r);
  }

  /** Copy the payload over and drain it.  evbuffer_add refuses the huge size that a negative length becomes
      before it reads a byte, when all that there is was already pulled up. */
  method TakePayload(src: EvBuffer, dst: EvBuffer, len: int) returns (r: int)
    requires Open(src) && Open(dst) && src.Separate(dst) && len <= |src.Contents()| && len <= CHAIN_LIMIT
    requires |src.Contents()| + |dst.Contents()| <= SIZE_MAX
    modifies src, src.g.chains, dst, dst.g.chains
    ensures Open(src) && Open(dst) && src.Separate(dst)
    ensures forall c :: c in src.g.chains ==> c in old(src.g.chains) || fresh(c)
    ensures forall c :: c in dst.g.chains ==> c in old(dst.g.chains) || fresh(c)
    ensures r == if len >= 0 then len else -1
    ensures dst.Contents() == if len >= 0 then old(dst.Contents() + src.Contents()[..len]) else old(dst.Contents())
    ensures src.Contents() == if len >= 0 then old(src.Contents())[len..] else old(src.Contents())
  {
    hide EvBuffer.Contents, EvBuffer.Valid;
    assert forall i :: 0 <= i < |dst.g.chains| ==> dst.g.chains[i] !in src.g.chains;
    if len < 0 {
      var chain := src.Pullup(len, true);
      assert forall i :: 0 <= i < |dst.g.chains| ==>
               dst.g.chains[i] !in src.g.chains &&
               dst.g.chains[i] in dst.g.chains;
      assert forall i :: 0 <= i < |src.g.chains| ==> src.g.chains[i] in src.g.chains;
      return -1;
    }
    var data := Peek(src, len);
    assert forall i :: 0 <= i < |dst.g.chains| ==> dst.g.chains[i] !in src.g.chains && dst.g.chains[i] in dst.g.chains;
    assert forall i :: 0 <= i < |src.g.chains| ==> src.g.chains[i] in src.g.chains && src.g.chains[i] !in dst.g.chains;
    Append(dst, data);
    assert forall i :: 0 <= i < |src.g.chains| ==> src.g.chains[i] in src.g.chains && src.g.chains[i] !in dst.g.chains;
    assert forall i :: 0 <= i < |dst.g.chains| ==> dst.g.chains[i] in dst.g.chains;
    Discard(src, len);
    assert forall i :: 0 <= i < |dst.g.chains| ==> dst.g.chains[i] in dst.g.chains;
    assert forall i :: 0 <= i < |src.g.chains| ==> src.g.chains[i] in src.g.chains;
    r := len;
  }

  // ---------- Lists of records ----------

  ghost function AllBytes(rs: seq<Record>): seq<byte>
    requires forall i :: 0 <= i < |rs| ==> rs[i].Proper()
  {
    if rs == [] then [] else Bytes32(rs[0]) + AllBytes(rs[1..])
  }

  lemma {:induction false} AllBytesSnoc(rs: seq<Record>, k: nat)
    requires k < |rs| && forall i :: 0 <= i < |rs| ==> rs[i].Proper()
    ensures AllBytes(rs[..k + 1]) == AllBytes(rs[..k]) + Bytes32(rs[k])
  {
    hide Bytes32;
    if k == 0 {
      assert rs[..1][1..] == [] && rs[..0] == [];
      assert [] + Bytes32(rs[0]) == Bytes32(rs[0]) + [];
    } else {
      assert rs[..k + 1][1..] == rs[1..][..k] && rs[..k][1..] == rs[1..][..k - 1];
      AllBytesSnoc(rs[1..], k - 1);
      assert Bytes32(rs[0]) + AllBytes(rs[1..][..k - 1]) + Bytes32(rs[k])
          == Bytes32(rs[0]) + (AllBytes(rs[1..][..k - 1]) + Bytes32(rs[k]));
    }
  }

  ghost function Room(rs: seq<Record>): nat {
    if rs == [] then 0 else 14 + |rs[0].payload| + Room(rs[1..])
  }

  method MarshalAll(buf: EvBuffer, rs: seq<Record>)
    requires Open(buf) && (forall i :: 0 <= i < |rs| ==> rs[i].Proper()) && |buf.Contents()| + Room(rs) <= SIZE_MAX
    modifies buf, buf.g.chains
    ensures Open(buf) && buf.Contents() == old(buf.Contents()) + AllBytes(rs)
    ensures forall c :: c in buf.g.chains ==> c in old(buf.g.chains) || fresh(c)
  {
    hide Open, EvBuffer.Contents, Bytes32;
    ghost var s := buf.Contents();
    assert rs[..0] == [] && rs[0..] == rs;
    for k := 0 to |rs|
      invariant Open(buf) && buf.Contents() == s + AllBytes(rs[..k])
      invariant |buf.Contents()| + Room(rs[k..]) <= SIZE_MAX
      invariant forall c :: c in buf.g.chains ==> c in old(buf.g.chains) || fresh(c)
    {
      RecordShort(rs[k]);
      AllBytesSnoc(rs, k);
      assert rs[k..][0] == rs[k] && rs[k..][1..] == rs[k + 1..];
      ghost var before := buf.Contents();
      assert forall i :: 0 <= i < |buf.g.chains| ==> buf.g.chains[i] in buf.g.chains;
      Marshal(buf, rs[k]);
      assert s + (AllBytes(rs[..k]) + Bytes32(rs[k])) == s + AllBytes(rs[..k]) + Bytes32(rs[k]);
    }
    assert rs[..|rs|] == rs;
  }

  lemma RecordShort(r: Record)
    requires r.Proper()
    ensures |Bytes32(r)| <= 14 + |r.payload|
  {
    hide EncodeInt, EncodeTag, Nibbles, Pow16;
    LengthNibbles(|r.payload|);
    IntShort(|r.payload|);
    TagShortest(r.tag);
  }

  /** Read as many records as there are. */
  method UnmarshalAll(src: EvBuffer, count: nat, ghost rs: seq<Record>, ghost after: seq<byte>)
      returns (got: seq<Record>)
    requires Open(src) && |rs| == count
    requires forall i :: 0 <= i < |rs| ==> rs[i].Proper() && |rs[i].payload| < 0x8000_0000
    requires src.Contents() == AllBytes(rs) + after && |src.Contents()| <= SIZE_MAX
    modifies src, src.g.chains
    ensures Open(src) && got == rs && src.Contents() == after
    ensures forall c :: c in src.g.chains ==> c in old(src.g.chains) || fresh(c)
  {
    hide Open, EvBuffer.Contents, Bytes32, AllBytes;
    got := [];
    assert rs[0..] == rs;
    for k := 0 to count
      invariant Open(src) && got == rs[..k] && src.Contents() == AllBytes(rs[k..]) + after &&
                |src.Contents()| <= SIZE_MAX
      invariant forall c :: c in src.g.chains ==> c in old(src.g.chains) || fresh(c)
    {
      assert forall i :: 0 <= i < |src.g.chains| ==> src.g.chains[i] in src.g.chains;
      FirstRecord(rs, k, after);
      var r := UnmarshalOne(src, rs[k], AllBytes(rs[k + 1..]) + after);
      got := got + [r];
    }
    AllBytesNone();
    assert rs[count..] == [] && [] + after == after;
  }

  lemma AllBytesNone()
    ensures AllBytes([]) == []
  {
  }

  lemma FirstRecord(rs: seq<Record>, k: nat, after: seq<byte>)
    requires k < |rs| && forall i :: 0 <= i < |rs| ==> rs[i].Proper()
    ensures AllBytes(rs[k..]) + after == Bytes32(rs[k]) + (AllBytes(rs[k + 1..]) + after)
  {
    hide Bytes32;
    assert rs[k..][1..] == rs[k + 1..];
  }

  /** Read one record that is all there, by way of a buffer of its own. */
  method Fetch(src: EvBuffer) returns (got: Record)
    requires Open(src) && |src.Contents()| <= SIZE_MAX
    requires Whole(src.Contents()) && ParseHeader(src.Contents()).value.len < 0x8000_0000
    modifies src, src.g.chains
    ensures Open(src)
    ensures forall c :: c in src.g.chains ==> c in old(src.g.chains) || fresh(c)
    ensures var s := old(src.Contents()); var h := ParseHeader(s).value;
            && got == Record(h.tag, s[h.size..h.size + h.len])
            && src.Contents() == s[h.size + h.len..]
  {
    hide EvBuffer.Contents, EvBuffer.Valid, ParseHeader, PastHeader;
    assert forall i :: 0 <= i < |src.g.chains| ==> src.g.chains[i] in src.g.chains;
    var dst := new EvBuffer();
    assert src.Separate(dst);
    var len, tag := Unmarshal(src, dst);
    assert forall i :: 0 <= i < |dst.g.chains| ==> dst.g.chains[i] in dst.g.chains;
    var payload := RemoveAll(dst, src, len);
    got := Record(tag, payload);
  }

  /** Take everything out of a buffer that shares nothing with another one. */
  method RemoveAll(dst: EvBuffer, ghost src: EvBuffer, len: nat) returns (payload: seq<byte>)
    requires Open(dst) && Open(src) && src.Separate(dst) && len == |dst.Contents()|
    modifies dst, dst.g.chains
    ensures Open(src) && src.Contents() == old(src.Contents()) && src.g == old(src.g) && payload == old(dst.Contents())
  {
    hide EvBuffer.Contents, EvBuffer.Valid;
    assert forall i :: 0 <= i < |src.g.chains| ==> src.g.chains[i] !in dst.g.chains;
    var n;
    n, payload := dst.Remove(len);
  }

  /** A record at the start of a buffer is read, and what follows is left. */
  method UnmarshalOne(src: EvBuffer, ghost r: Record, ghost after: seq<byte>) returns (got: Record)
    requires Open(src) && r.Proper() && |r.payload| < 0x8000_0000
    requires src.Contents() == Bytes32(r) + after && |src.Contents()| <= SIZE_MAX
    modifies src, src.g.chains
    ensures Open(src) && got == r && src.Contents() == after
    ensures forall c :: c in src.g.chains ==> c in old(src.g.chains) || fresh(c)
  {
    hide EvBuffer.Contents, Open, Bytes32, ParseHeader;
    HeaderRoundTrip(r, after);
    BytesAtLeast(r);
    Payload(src.Contents(), |Bytes32(r)| - |r.payload|, r.payload, after);
    got := Fetch(src);
  }

  lemma BytesAtLeast(r: Record)
    requires r.Proper()
    ensures |Bytes32(r)| >= |r.payload|
  {
  }

  lemma Payload(s: seq<byte>, size: nat, payload: seq<byte>, after: seq<byte>)
    requires size <= |s| && s[size..] == payload + after
    ensures size + |payload| <= |s| && s[size..size + |payload|] == payload && s[size + |payload|..] == after
    ensures [] + s[size..size + |payload|] == payload
  {
    assert s[size..size + |payload|] == s[size..][..|payload|];
    assert s[size + |payload|..] == s[size..][|payload|..];
  }

  /** Every list of records is recovered, in order, and the buffer is left as it was before. */
  method RoundTrip(rs: seq<Record>) returns (got: seq<Record>)
    requires (forall i :: 0 <= i < |rs| ==> rs[i].Proper() && |rs[i].payload| < 0x8000_0000) && Room(rs) <= SIZE_MAX
    ensures got == rs
  {
    hide EvBuffer.Contents, EvBuffer.Valid, AllBytes;
    var buf := new EvBuffer();
    MarshalAll(buf, rs);
    AllBytesRoom(rs);
    assert [] + AllBytes(rs) == AllBytes(rs) + [];
    assert forall i :: 0 <= i < |buf.g.chains| ==> buf.g.chains[i] in buf.g.chains;
    got := UnmarshalAll(buf, |rs|, rs, []);
    assert buf.Contents() == [];
  }

  lemma {:induction false} AllBytesRoom(rs: seq<Record>)
    requires forall i :: 0 <= i < |rs| ==> rs[i].Proper()
    ensures |AllBytes(rs)| <= Room(rs)
  {
    if rs != [] {
      RecordShort(rs[0]);
      AllBytesRoom(rs[1..]);
    }
  }

  /** Any record that can be marshalled comes back exactly when its payload is shorter than 2^31 bytes. */
  method OneThrough(r: Record, after: seq<byte>) returns (n: int, tag: nat, payload: seq<byte>, rest: seq<byte>)
    requires r.Proper() && |after| <= 0x1_0000_0000
    ensures if |r.payload| < 0x8000_0000 then n == |r.payload| && tag == r.tag && payload == r.payload && rest == after
            else n == -1 && payload == [] && rest == r.payload + after
  {
    hide EvBuffer.Contents, EvBuffer.Valid, Bytes32;
    var buf := Marshalled(r, after);
    var dst := Empty();
    OpenChains(buf);
    n, tag := UnmarshalAny(buf, dst, r, after);
    OpenChains(buf);
    OpenChains(dst);
    payload := ReadAll(dst);
    rest := ReadAll(buf);
  }

  /** The record in front of src goes over to dst, or only its header is gone. */
  method UnmarshalAny(src: EvBuffer, dst: EvBuffer, ghost r: Record, ghost after: seq<byte>)
      returns (n: int, tag: nat)
    requires Open(src) && Open(dst) && src.Separate(dst) && dst.Contents() == []
    requires r.Proper() && src.Contents() == Bytes32(r) + after && |src.Contents()| <= CHAIN_LIMIT
    modifies src, src.g.chains, dst, dst.g.chains
    ensures Open(src) && Open(dst) && src.Separate(dst)
    ensures forall c :: c in src.g.chains ==> c in old(src.g.chains) || fresh(c)
    ensures forall c :: c in dst.g.chains ==> c in old(dst.g.chains) || fresh(c)
    ensures if |r.payload| < 0x8000_0000 then
              n == |r.payload| && tag == r.tag && dst.Contents() == r.payload && src.Contents() == after
            else n == -1 && dst.Contents() == [] && src.Contents() == r.payload + after
  {
    hide EvBuffer.Contents, EvBuffer.Valid, Bytes32, ParseHeader, PastHeader, Whole;
    ghost var size := RecordParts(r, after);
    n, tag := Unmarshal(src, dst);
  }

  lemma OpenChains(buf: EvBuffer)
    ensures forall i :: 0 <= i < |buf.g.chains| ==> buf.g.chains[i] in buf.g.chains
  {
  }

  method Empty() returns (buf: EvBuffer)
    ensures fresh(buf) && Open(buf) && buf.Contents() == [] && buf.g.chains == []
  {
    buf := new EvBuffer();
  }

  /** A record, and something behind it. */
  method Marshalled(r: Record, after: seq<byte>) returns (buf: EvBuffer)
    requires r.Proper() && |after| <= 0x1_0000_0000
    ensures fresh(buf) && Open(buf) && buf.Contents() == Bytes32(r) + after && |buf.Contents()| <= CHAIN_LIMIT
    ensures forall c :: c in buf.g.chains ==> fresh(c)
  {
    hide EvBuffer.Contents, EvBuffer.Valid, Bytes32;
    buf := new EvBuffer();
    Marshal(buf, r);
    OpenChains(buf);
    RecordShort(r);
    assert buf.Contents() == Bytes32(r);
    Append(buf, after);
  }

  /** Where the payload of a record begins. */
  lemma RecordHeader(r: Record, after: seq<byte>) returns (size: nat)
    requires r.Proper()
    ensures var s := Bytes32(r) + after;
            && ParseHeader(s) == Some(Header(r.tag, |r.payload|, size))
            && size <= |s| && s[size..] == r.payload + after && PastHeader(s) == r.payload + after
  {
    hide Bytes32, ParseHeader, PastHeader;
    BytesAtLeast(r);
    size := |Bytes32(r)| - |r.payload|;
    HeaderRoundTrip(r, after);
    PastHeaderAt(Bytes32(r) + after);
  }

  lemma RecordParts(r: Record, after: seq<byte>) returns (size: nat)
    requires r.Proper()
    ensures var s := Bytes32(r) + after;
            && ParseHeader(s) == Some(Header(r.tag, |r.payload|, size))
            && PastHeader(s) == r.payload + after && size + |r.payload| <= |s|
            && (|r.payload| < 0x8000_0000 ==> Whole(s))
            && s[size..size + |r.payload|] == r.payload && s[size + |r.payload|..] == after
  {
    hide Bytes32, ParseHeader, PastHeader, PastPayload, Whole;
    var s := Bytes32(r) + after;
    size := RecordHeader(r, after);
    Payload(s, size, r.payload, after);
    WholeIs(s);
  }

  lemma WholeIs(s: seq<byte>)
    ensures var h := ParseHeader(s);
            h.Some? && h.value.size + h.value.len <= |s| && h.value.len < 0x8000_0000 ==> Whole(s)
  {
    hide ParseHeader;
  }

  // ---------- Integers and times as records ----------

  /** evtag_marshal_int and evtag_marshal_int64: an integer of size bytes. */
  method MarshalInt(buf: EvBuffer, tag: nat, number: nat, size: nat)
    requires Open(buf) && tag < 0x1_0000_0000 && 1 <= size <= 8 && number < Pow16(2 * size)
    requires |buf.Contents()| + 23 <= SIZE_MAX
    modifies buf, buf.g.chains
    ensures Open(buf) && |Nibbles(number)| <= 16 && |EncodeInt(number)| <= 9
    ensures buf.Contents() == old(buf.Contents()) + Bytes32(Record(tag, EncodeInt(number)))
    ensures forall c :: c in buf.g.chains ==> c in old(buf.g.chains) || fresh(c)
  {
    hide Open, EvBuffer.Contents, Pow16, Nibbles, EncodeInt, Bytes32;
    var data := EncodeIntInternal(number, size);
    IntShort(number);
    Marshal(buf, Record(tag, data));
  }

  /** What a record with the wanted tag that is all there holds, and what follows it. */
  ghost function Wanted(s: seq<byte>, needTag: nat): Option<(seq<byte>, seq<byte>)> {
    var h := ParseHeader(s);
    if h.Some? && h.value.tag == needTag && h.value.size + h.value.len <= |s|
    then Some((s[h.value.size..], s[h.value.size + h.value.len..]))
    else None
  }

  /** What is left when a record with the wanted tag is looked for and not found whole: all of it, all behind
      another tag, or all behind what could be read of the header. */
  ghost function PastUnwanted(s: seq<byte>, needTag: nat): seq<byte> {
    var t := DecodeTag(s, 0);
    if t.Some? && t.value.value != needTag then s[t.value.len..] else PastHeader(s)
  }

  /** The tag, if it is the wanted one, and the length, if so much is there. */
  method WantedLength(buf: EvBuffer, needTag: nat) returns (ok: bool, len: nat)
    requires Open(buf)
    modifies buf, buf.g.chains
    ensures Open(buf)
    ensures forall c :: c in buf.g.chains ==> c in old(buf.g.chains) || fresh(c)
    ensures var s := old(buf.Contents());
            && ok == Wanted(s, needTag).Some?
            && (ok ==> len == ParseHeader(s).value.len && buf.Contents() == s[ParseHeader(s).value.size..])
            && (!ok ==> buf.Contents() == PastUnwanted(s, needTag))
  {
    hide Open, EvBuffer.Contents, DecodeTag, DecodeInt;
    var t, tag := DecodeTagInternal(buf, true);
    if t == -1 {
      return false, 0;
    }
    if needTag != tag {
      return false, 0;
    }
    assert forall i :: 0 <= i < |buf.g.chains| ==> buf.g.chains[i] in buf.g.chains;
    var e;
    e, len := DecodeNumber(buf, 8);
    if e == -1 {
      return false, 0;
    }
    assert forall i :: 0 <= i < |buf.g.chains| ==> buf.g.chains[i] in buf.g.chains;
    var have := Length(buf);
    ok := have >= len;
  }

  /** evtag_unmarshal_int and evtag_unmarshal_int64: the integer may not reach beyond the payload, but
      it is looked for before that is cut off. */
  method UnmarshalInt(buf: EvBuffer, needTag: nat, max: nat) returns (r: int, number: nat)
    requires Open(buf)
    modifies buf, buf.g.chains
    ensures Open(buf)
    ensures forall c :: c in buf.g.chains ==> c in old(buf.g.chains) || fresh(c)
    ensures var s := old(buf.Contents()); var w := Wanted(s, needTag);
            if w.Some? then
              var n := DecodeInt(w.value.0, max);
              && buf.Contents() == w.value.1
              && (r == if n.Some? && n.value.len <= ParseHeader(s).value.len then n.value.len else -1)
              && (r != -1 ==> number == n.value.value)
            else r == -1 && buf.Contents() == PastUnwanted(s, needTag)
  {
    hide Open, EvBuffer.Contents, DecodeInt, ParseHeader, PastUnwanted;
    ghost var s := buf.Contents();
    number := 0;
    var ok, len := WantedLength(buf, needTag);
    if !ok {
      return -1, 0;
    }
    assert buf.Contents()[0..] == buf.Contents();
    assert forall i :: 0 <= i < |buf.g.chains| ==> buf.g.chains[i] in buf.g.chains;
    var result;
    result, number := DecodeIntInternal(buf, max, 0);
    assert forall i :: 0 <= i < |buf.g.chains| ==> buf.g.chains[i] in buf.g.chains;
    Discard(buf, len);
    DropTwice(s, ParseHeader(s).value.size, len);
    r := if result < 0 || result > len then -1 else result;
  }

  /** An integer record is wanted and holds the encoding. */
  lemma WantedRecord(r: Record, after: seq<byte>)
    requires r.Proper() && |r.payload| < 0x8000_0000
    ensures var s := Bytes32(r) + after;
            && Wanted(s, r.tag) == Some((r.payload + after, after))
            && ParseHeader(s).Some? && ParseHeader(s).value.len == |r.payload| && Whole(s)
  {
    hide Bytes32, ParseHeader;
    HeaderRoundTrip(r, after);
    BytesAtLeast(r);
    Payload(Bytes32(r) + after, |Bytes32(r)| - |r.payload|, r.payload, after);
  }

  method ReadAll(buf: EvBuffer) returns (data: seq<byte>)
    requires Open(buf) && |buf.Contents()| <= CHAIN_LIMIT
    modifies buf, buf.g.chains
    ensures data == old(buf.Contents())
  {
    var n := Length(buf);
    data := Peek(buf, n);
  }

  /** 32-bit and 64-bit integers come back, and what follows them is left. */
  method IntThrough(tag: nat, number: nat, size: nat, after: seq<byte>) returns (r: int, got: nat, rest: seq<byte>)
    requires tag < 0x1_0000_0000 && 1 <= size <= 8 && number < Pow16(2 * size) && |after| <= CHAIN_LIMIT
    ensures |Nibbles(number)| <= 16 && r == |EncodeInt(number)| && got == number && rest == after
  {
    hide EvBuffer.Contents, EvBuffer.Valid, Bytes32, EncodeInt, Nibbles, ParseHeader, Pow16, DecodeInt;
    var buf := new EvBuffer();
    MarshalInt(buf, tag, number, size);
    var data := Record(tag, EncodeInt(number));
    RecordShort(data);
    assert forall i :: 0 <= i < |buf.g.chains| ==> buf.g.chains[i] in buf.g.chains;
    assert buf.Contents() == Bytes32(data);
    Append(buf, after);
    WantedRecord(data, after);
    EncodeIntIs(number);
    IntRoundTrip(EncodeInt(number), number, 2 * size, after);
    assert forall i :: 0 <= i < |buf.g.chains| ==> buf.g.chains[i] in buf.g.chains;
    r, got := UnmarshalInt(buf, tag, 2 * size);
    assert forall i :: 0 <= i < |buf.g.chains| ==> buf.g.chains[i] in buf.g.chains;
    rest := ReadAll(buf);
  }

  /** evtag_marshal_timeval: seconds and microseconds as 32-bit integers. */
  method MarshalTimeval(buf: EvBuffer, tag: nat, sec: nat, usec: nat) returns (ghost data: seq<byte>)
    requires Open(buf) && tag < 0x1_0000_0000 && sec < 0x1_0000_0000 && usec < 0x1_0000_0000
    requires |buf.Contents()| + 32 <= SIZE_MAX
    modifies buf, buf.g.chains
    ensures Open(buf) && |Nibbles(sec)| <= 16 && |Nibbles(usec)| <= 16 && data == EncodeInt(sec) + EncodeInt(usec) &&
            |data| <= 18
    ensures buf.Contents() == old(buf.Contents()) + Bytes32(Record(tag, data))
    ensures forall c :: c in buf.g.chains ==> c in old(buf.g.chains) || fresh(c)
  {
    hide Open, EvBuffer.Contents, Pow16, Nibbles, EncodeInt, Bytes32;
    LengthNibbles(sec);
    var a := EncodeIntInternal(sec, 4);
    var b := EncodeIntInternal(usec, 4);
    IntShort(sec);
    IntShort(usec);
    data := a + b;
    Marshal(buf, Record(tag, a + b));
  }

  /** evtag_unmarshal_timeval: a whole record is drained whatever is wrong with it. */
  method UnmarshalTimeval(buf: EvBuffer, needTag: nat) returns (r: int, sec: nat, usec: nat)
    requires Open(buf)
    modifies buf, buf.g.chains
    ensures Open(buf)
    ensures forall c :: c in buf.g.chains ==> c in old(buf.g.chains) || fresh(c)
    ensures var s := old(buf.Contents());
            && buf.Contents() == (if Whole(s) then PastPayload(s) else PastHeader(s))
            && (r == 0 || r == -1)
            && (r == 0 <==> Whole(s) && ParseHeader(s).value.tag == needTag &&
                            TwoFit(PastHeader(s), Int32(ParseHeader(s).value.len)))
            && (r == 0 ==> var a := DecodeInt(PastHeader(s), 8).value;
                           sec == a.value && usec == DecodeInt(PastHeader(s)[a.len..], 8).value.value)
  {
    hide Open, EvBuffer.Contents, DecodeInt, ParseHeader, PastHeader, TwoFit;
    WholeAt(buf.Contents());
    sec, usec := 0, 0;
    var len, tag := UnmarshalHeader(buf);
    if len == -1 {
      return -1, 0, 0;
    }
    r := -1;
    assert forall i :: 0 <= i < |buf.g.chains| ==> buf.g.chains[i] in buf.g.chains;
    if tag == needTag {
      r, sec, usec := TwoInts(buf, len);
      assert forall i :: 0 <= i < |buf.g.chains| ==> buf.g.chains[i] in buf.g.chains;
    }
    DiscardLen(buf, len);
  }

  /** Two integers at the start take no more than len bytes. */
  ghost predicate TwoFit(s: seq<byte>, len: int) {
    var a := DecodeInt(s, 8);
    a.Some? && var b := DecodeInt(s[a.value.len..], 8); b.Some? && a.value.len + b.value.len <= len
  }

  method TwoInts(buf: EvBuffer, len: int) returns (r: int, first: nat, second: nat)
    requires Open(buf)
    modifies buf, buf.g.chains
    ensures Open(buf) && buf.Contents() == old(buf.Contents())
    ensures forall c :: c in buf.g.chains ==> c in old(buf.g.chains) || fresh(c)
    ensures r == if TwoFit(buf.Contents(), len) then 0 else -1
    ensures r == 0 ==> var a := DecodeInt(buf.Contents(), 8).value;
                       first == a.value && second == DecodeInt(buf.Contents()[a.len..], 8).value.value
  {
    hide Open, EvBuffer.Contents, DecodeInt;
    assert buf.Contents()[0..] == buf.Contents();
    second := 0;
    var offset;
    offset, first := DecodeIntInternal(buf, 8, 0);
    if offset == -1 {
      return -1, 0, 0;
    }
    IntAtMost(buf.Contents());
    assert forall i :: 0 <= i < |buf.g.chains| ==> buf.g.chains[i] in buf.g.chains;
    var offset2;
    offset2, second := DecodeIntInternal(buf, 8, offset);
    if offset2 == -1 || offset + offset2 > len {
      return -1, 0, 0;
    }
    r := 0;
  }

  lemma IntAtMost(s: seq<byte>)
    ensures DecodeInt(s, 8).Some? ==> DecodeInt(s, 8).value.len <= 5
  {
  }

  /** A time comes back, and what follows it is left. */
  method TimevalThrough(tag: nat, sec: nat, usec: nat, after: seq<byte>)
      returns (r: int, gotSec: nat, gotUsec: nat, rest: seq<byte>)
    requires tag < 0x1_0000_0000 && sec < 0x1_0000_0000 && usec < 0x1_0000_0000 && |after| <= CHAIN_LIMIT
    ensures r == 0 && gotSec == sec && gotUsec == usec && rest == after
  {
    hide EvBuffer.Contents, EvBuffer.Valid, Bytes32, EncodeInt, Nibbles, ParseHeader, Pow16, DecodeInt, PastHeader,
         PastPayload, TwoFit;
    var buf := new EvBuffer();
    ghost var data := MarshalTimeval(buf, tag, sec, usec);
    RecordShort(Record(tag, data));
    assert forall i :: 0 <= i < |buf.g.chains| ==> buf.g.chains[i] in buf.g.chains;
    assert buf.Contents() == Bytes32(Record(tag, data));
    Append(buf, after);
    TimevalRecord(tag, sec, usec, data, after);
    assert forall i :: 0 <= i < |buf.g.chains| ==> buf.g.chains[i] in buf.g.chains;
    r, gotSec, gotUsec := UnmarshalTimeval(buf, tag);
    assert forall i :: 0 <= i < |buf.g.chains| ==> buf.g.chains[i] in buf.g.chains;
    rest := ReadAll(buf);
  }

  /** What is found in the record of a time. */
  lemma TimevalRecord(tag: nat, sec: nat, usec: nat, data: seq<byte>, after: seq<byte>)
    requires tag < 0x1_0000_0000 && sec < 0x1_0000_0000 && usec < 0x1_0000_0000
    requires |Nibbles(sec)| <= 16 && |Nibbles(usec)| <= 16 && data == EncodeInt(sec) + EncodeInt(usec) && |data| <= 18
    ensures var s := Bytes32(Record(tag, data)) + after;
            && Whole(s) && ParseHeader(s).value.tag == tag && PastPayload(s) == after
            && var len := Int32(ParseHeader(s).value.len);
               var a := DecodeInt(PastHeader(s), 8);
            && TwoFit(PastHeader(s), len) && a.value.value == sec
            && DecodeInt(PastHeader(s)[a.value.len..], 8).value.value == usec
  {
    hide Bytes32, EncodeInt, Nibbles, ParseHeader, PastHeader, DecodeInt;
    var r := Record(tag, data);
    var s := Bytes32(r) + after;
    HeaderRoundTrip(r, after);
    WantedRecord(r, after);
    WholeAt(s);
    TwoIntsRead(sec, usec, after);
  }

  lemma TwoIntsRead(a: nat, b: nat, after: seq<byte>)
    requires a < 0x1_0000_0000 && b < 0x1_0000_0000 && |Nibbles(a)| <= 16 && |Nibbles(b)| <= 16
    ensures var s := EncodeInt(a) + EncodeInt(b) + after;
            && DecodeInt(s, 8) == Some(Number(a, |EncodeInt(a)|))
            && DecodeInt(s[|EncodeInt(a)|..], 8) == Some(Number(b, |EncodeInt(b)|))
  {
    hide EncodeInt, Nibbles, Pow16, DecodeInt;
    LengthNibbles(a);
    EncodeIntIs(a);
    EncodeIntIs(b);
    IntRoundTrip(EncodeInt(a), a, 8, EncodeInt(b) + after);
    IntRoundTrip(EncodeInt(b), b, 8, after);
    var s := EncodeInt(a) + EncodeInt(b) + after;
    assert s == EncodeInt(a) + (EncodeInt(b) + after);
    assert s[|EncodeInt(a)|..] == EncodeInt(b) + after;
  }
}
