/** The numbers of the tagged format: base-128 tags and integers packed in nibbles. */
module TagFormat {
  import opened Options
  import opened Bytes

  /** A number, and how many bytes it takes. */
  datatype Number = Number(value: nat, len: nat)

  function Pow16(k: nat): (p: nat)
    ensures p > 0
  {
    if k == 0 then 1 else 16 * Pow16(k - 1)
  }

  // ---------- Tags ----------

  /** Seven bits a byte, low ones first; all bytes but the last have the high bit. */
  function EncodeTag(tag: nat): (s: seq<byte>)
    ensures |s| > 0
  {
    if tag < 128 then [tag] else [128 + tag % 128] + EncodeTag(tag / 128)
  }

  /** The tag from byte i on.  The fifth byte may add four bits only, and there is no sixth. */
  function DecodeTag(s: seq<byte>, i: nat): (n: Option<Number>)
    ensures n.Some? ==> 1 <= n.value.len && i + n.value.len <= |s|
    decreases |s| - i
  {
    if i >= |s| || i > 4 || (i == 4 && Low(s[i]) > 15) then None
    else if s[i] < 128 then Some(Number(s[i], 1))
    else
      var rest := DecodeTag(s, i + 1);
      if rest.Some? then Some(Number(Low(s[i]) + 128 * rest.value.value, 1 + rest.value.len)) else None
  }

  /** The lower seven bits. */
  function Low(b: nat): nat {
    b % 128
  }

  /** How large a number may be that starts at byte i of a tag. */
  function TagRoom(i: nat): nat {
    if i == 0 then 0x1_0000_0000 else if i == 1 then 0x200_0000 else if i == 2 then 0x4_0000 else if i == 3 then 0x800
        else if i == 4 then 16 else 0
  }

  /** A 32-bit tag is read back from its encoding, whatever precedes and follows it. */
  lemma {:induction false} TagRoundTrip(tag: nat, before: seq<byte>, after: seq<byte>)
    requires tag < TagRoom(|before|)
    ensures DecodeTag(before + EncodeTag(tag) + after, |before|) == Some(Number(tag, |EncodeTag(tag)|))
    decreases tag
  {
    var s := before + EncodeTag(tag) + after;
    if tag >= 128 {
      var b: byte := 128 + tag % 128;
      TagRoundTrip(tag / 128, before + [b], after);
      assert s == before + [b] + EncodeTag(tag / 128) + after;
      assert s[|before|] == b;
    } else {
      assert s[|before|] == tag;
    }
  }

  function Pow128(k: nat): (p: nat)
    ensures p > 0
  {
    if k == 0 then 1 else 128 * Pow128(k - 1)
  }

  /** Digit i to the base 128. */
  function Seven(n: nat, i: nat): (d: nat)
    ensures d < 128
  {
    n / Pow128(i) % 128
  }

  /** The bytes of a tag are its digits to the base 128, from the lowest one to the highest that is not zero. */
  lemma {:induction false} TagBytes(tag: nat)
    ensures var s := EncodeTag(tag);
            && tag < Pow128(|s|) && (|s| > 1 ==> Pow128(|s| - 1) <= tag)
            && forall i :: 0 <= i < |s| ==> s[i] == Seven(tag, i) + if i < |s| - 1 then 128 else 0
    decreases tag
  {
    hide Seven, Pow128;
    var s := EncodeTag(tag);
    TagSize(tag);
    if tag >= 128 {
      var t := EncodeTag(tag / 128);
      TagBytes(tag / 128);
      SevenFirst(tag);
      forall i | 0 < i < |s|
        ensures s[i] == Seven(tag, i) + if i < |s| - 1 then 128 else 0
      {
        SevenNext(tag, i);
        assert s[i] == t[i - 1];
      }
    } else {
      SevenFirst(tag);
    }
  }

  lemma {:induction false} TagSize(tag: nat)
    ensures tag < Pow128(|EncodeTag(tag)|) && (|EncodeTag(tag)| > 1 ==> Pow128(|EncodeTag(tag)| - 1) <= tag)
    decreases tag
  {
    if tag >= 128 { TagSize(tag / 128); }
  }

  lemma SevenFirst(n: nat)
    ensures Seven(n, 0) == n % 128
  {
  }

  lemma SevenNext(n: nat, i: nat)
    requires i > 0
    ensures Seven(n, i) == Seven(n / 128, i - 1)
  {
    DivideTwice(n, 128, Pow128(i - 1));
  }

  lemma DivideTwice(n: nat, a: nat, b: nat)
    requires a > 0 && b > 0
    ensures a * b > 0 && n / (a * b) == n / a / b
  {
    var x, y, q := n % a, n / a % b, n / a / b;
    Regroup(n, a, n / a, x, b, q, y);
    Quotient(n, a * b, q, a * y + x);
  }

  lemma Regroup(n: nat, a: nat, m: nat, x: nat, b: nat, q: nat, y: nat)
    requires n == a * m + x && m == b * q + y && x < a && y < b
    ensures n == a * b * q + (a * y + x) && a * y + x < a * b
  {
    Distribute(a, b * q, y);
    Associate(a, b, q);
    Distribute(a, y, 1);
    Below(a, y + 1, b);
  }

  lemma Distribute(a: nat, u: nat, v: nat)
    ensures a * (u + v) == a * u + a * v
  {
  }

  lemma Associate(a: nat, b: nat, q: nat)
    ensures a * (b * q) == a * b * q
  {
  }

  lemma Below(a: nat, u: nat, b: nat)
    requires u <= b
    ensures a * u <= a * b
  {
    Distribute(a, u, b - u);
  }

  lemma Quotient(n: nat, d: nat, q: nat, r: nat)
    requires n == d * q + r && r < d
    ensures n / d == q
  {
    var e := n / d;
    assert d * (e - q) == r - n % d;
    if e != q { Multiple(d, if e > q then e - q else q - e); }
  }

  lemma Multiple(d: nat, e: nat)
    requires e > 0
    ensures d * e >= d
  {
  }

  /** What is read as a tag fits into 32 bits. */
  lemma {:induction false} TagFits(s: seq<byte>, i: nat)
    requires DecodeTag(s, i).Some?
    ensures DecodeTag(s, i).value.value < TagRoom(i)
    decreases |s| - i
  {
    if s[i] >= 128 { TagFits(s, i + 1); }
  }

  // ---------- Integers ----------

  /** The nibbles of a number, low ones first, without leading zeros. */
  function Nibbles(n: nat): (s: seq<nat>)
    ensures forall i :: 0 <= i < |s| ==> s[i] < 16
  {
    if n == 0 then [] else [n % 16] + Nibbles(n / 16)
  }

  /** The p-th nibble of a byte string, the high half of a byte first. */
  function Nibble(s: seq<byte>, p: nat): (x: nat)
    requires p / 2 < |s|
    ensures x < 16
  {
    if p % 2 == 1 then s[p / 2] % 16 else s[p / 2] / 16
  }

  /** The number of nibbles less one, but zero for zero, and then the nibbles. */
  function Stream(n: nat): seq<nat> {
    [if |Nibbles(n)| > 1 then |Nibbles(n)| - 1 else 0] + Nibbles(n)
  }

  /** How many bytes an integer takes. */
  function IntLen(n: nat): nat {
    |Nibbles(n)| / 2 + 1
  }

  /** s is the encoding of n. */
  ghost predicate IsInt(s: seq<byte>, n: nat) {
    && |s| == IntLen(n)
    && forall p :: 0 <= p < 2 * |s| ==> Nibble(s, p) == if p < |Stream(n)| then Stream(n)[p] else 0
  }

  /** The number whose nibbles are at positions p to k. */
  function Value(s: seq<byte>, p: nat, k: nat): nat
    requires p > k || k / 2 < |s|
    decreases k + 1 - p
  {
    if p > k then 0 else Nibble(s, p) + 16 * Value(s, p + 1, k)
  }

  /** The integer at the start of s, of at most max nibbles. */
  function DecodeInt(s: seq<byte>, max: nat): (n: Option<Number>)
    ensures n.Some? ==> 1 <= n.value.len <= |s|
  {
    if s == [] then None
    else
      var nibbles := Nibble(s, 0) + 1;
      if nibbles > max || nibbles / 2 + 1 > |s| then None else Some(Number(Value(s, 1, nibbles), nibbles / 2 + 1))
  }

  lemma {:induction false} ValueBelow(s: seq<byte>, p: nat, k: nat)
    requires 1 <= p <= k + 1 && (p > k || k / 2 < |s|)
    ensures Value(s, p, k) < Pow16(k + 1 - p)
    decreases k + 1 - p
  {
    hide Nibble;
    if p <= k { ValueBelow(s, p + 1, k); }
  }

  lemma {:induction false} Pow16Grows(j: nat, k: nat)
    requires j <= k
    ensures Pow16(j) <= Pow16(k)
    decreases k
  {
    if j < k { Pow16Grows(j, k - 1); }
  }

  /** Up to eight nibbles make a 32-bit number. */
  lemma IntBelow(s: seq<byte>)
    ensures DecodeInt(s, 8).Some? ==> DecodeInt(s, 8).value.value < 0x1_0000_0000
  {
    if DecodeInt(s, 8).Some? {
      var nibbles := Nibble(s, 0) + 1;
      ValueBelow(s, 1, nibbles);
      Pow16Grows(nibbles, 8);
      assert Pow16(8) == 0x1_0000_0000;
    }
  }

  lemma {:induction false} NibblesCount(n: nat, k: nat)
    requires n < Pow16(k)
    ensures |Nibbles(n)| <= k
  {
    if n > 0 { NibblesCount(n / 16, k - 1); }
  }

  /** The nibbles of s from position p on are those of m. */
  lemma {:induction false} ValueOf(s: seq<byte>, p: nat, k: nat, m: nat)
    requires k / 2 < |s| && p + |Nibbles(m)| == k + 1
    requires forall i :: p <= i <= k ==> Nibble(s, i) == Nibbles(m)[i - p]
    ensures Value(s, p, k) == m
    decreases m
  {
    if m > 0 {
      assert Nibble(s, p) == Nibbles(m)[0];
      forall i | p + 1 <= i <= k
        ensures Nibble(s, i) == Nibbles(m / 16)[i - (p + 1)]
      {
        assert Nibble(s, i) == Nibbles(m)[i - p];
      }
      ValueOf(s, p + 1, k, m / 16);
    }
  }

  /** An integer is read back from its encoding, whatever follows it. */
  lemma IntRoundTrip(s: seq<byte>, n: nat, max: nat, after: seq<byte>)
    requires IsInt(s, n) && n < Pow16(max) && max > 0
    ensures DecodeInt(s + after, max) == Some(Number(n, |s|))
  {
    var t := s + after;
    NibblesCount(n, max);
    forall p | 0 <= p < 2 * |s|
      ensures Nibble(t, p) == if p < |Stream(n)| then Stream(n)[p] else 0
    {
      assert Nibble(t, p) == Nibble(s, p);
    }
    var k := |Nibbles(n)|;
    if n == 0 {
      assert Nibble(t, 0) == 0 && Nibble(t, 1) == 0;
      assert Value(t, 1, 1) == 0;
    } else {
      assert Nibble(t, 0) == k - 1;
      ValueOf(t, 1, k, n);
    }
  }

  /** Position p of the encoding of n. */
  function NibbleOf(n: nat, p: nat): (x: nat)
    requires |Nibbles(n)| <= 16
    ensures x < 16
  {
    if p < |Stream(n)| then Stream(n)[p] else 0
  }

  function Byte(high: nat, low: nat): (b: byte)
    requires high < 16 && low < 16
    ensures b / 16 == high && b % 16 == low
  {
    16 * high + low
  }

  function EncodeInt(n: nat): seq<byte>
    requires |Nibbles(n)| <= 16
  {
    seq(IntLen(n), i requires 0 <= i < IntLen(n) => Byte(NibbleOf(n, 2 * i), NibbleOf(n, 2 * i + 1)))
  }

  lemma EncodeIntIs(n: nat)
    requires |Nibbles(n)| <= 16
    ensures IsInt(EncodeInt(n), n)
  {
    hide Nibbles, Stream, NibbleOf, Byte;
    var s := EncodeInt(n);
    forall p | 0 <= p < 2 * |s|
      ensures Nibble(s, p) == NibbleOf(n, p)
    {
      var i := p / 2;
      assert s[i] == Byte(NibbleOf(n, 2 * i), NibbleOf(n, 2 * i + 1));
      assert p == 2 * i || p == 2 * i + 1;
    }
    AllNibbles(s, n);
  }

  lemma AllNibbles(s: seq<byte>, n: nat)
    requires |Nibbles(n)| <= 16 && |s| == IntLen(n)
    ensures (forall p :: 0 <= p < 2 * |s| ==> Nibble(s, p) == NibbleOf(n, p)) <==> IsInt(s, n)
  {
  }

  /** Nothing else is an encoding of n. */
  lemma IntUnique(s: seq<byte>, n: nat)
    requires |Nibbles(n)| <= 16 && IsInt(s, n)
    ensures s == EncodeInt(n)
  {
    hide Nibbles, Stream, NibbleOf, Byte, IsInt;
    IntLength(s, n);
    AllNibbles(s, n);
    var t := EncodeInt(n);
    forall i | 0 <= i < |s|
      ensures s[i] == t[i]
    {
      assert Nibble(s, 2 * i) == s[i] / 16 && Nibble(s, 2 * i + 1) == s[i] % 16;
      assert t[i] == Byte(NibbleOf(n, 2 * i), NibbleOf(n, 2 * i + 1));
    }
  }

  lemma IntLength(s: seq<byte>, n: nat)
    requires IsInt(s, n)
    ensures |s| == IntLen(n)
  {
  }

  /** Digit i to the base 16. */
  function Digit(n: nat, i: nat): (d: nat)
    ensures d < 16
  {
    n / Pow16(i) % 16
  }

  /** How many digits a number has; zero has none. */
  lemma {:induction false} NibblesDigits(n: nat)
    ensures var k := |Nibbles(n)|;
            && n < Pow16(k) && (n > 0 ==> k > 0 && Pow16(k - 1) <= n)
            && (forall i :: 0 <= i < k ==> Nibbles(n)[i] == Digit(n, i))
            && forall i :: k <= i ==> Digit(n, i) == 0
    decreases n
  {
    var k := |Nibbles(n)|;
    if n > 0 {
      NibblesDigits(n / 16);
      forall i | 0 < i
        ensures Digit(n, i) == Digit(n / 16, i - 1)
      {
        DivideTwice(n, 16, Pow16(i - 1));
      }
      assert Digit(n, 0) == n % 16;
    } else {
      forall i | 0 <= i
        ensures Digit(0, i) == 0
      {
        Quotient(0, Pow16(i), 0, 0);
      }
    }
  }

  /** The bytes of an encoding: the high half of the first is the number of digits less one, its low half the lowest
      digit; every further byte has two digits, the lower one in its high half.  There is room for just the digits. */
  ghost predicate Packed(s: seq<byte>, n: nat, k: nat) {
    && |s| == k / 2 + 1 && s[0] / 16 == (if k > 1 then k - 1 else 0) && s[0] % 16 == Digit(n, 0)
    && forall i :: 1 <= i < |s| ==> s[i] / 16 == Digit(n, 2 * i - 1) && s[i] % 16 == Digit(n, 2 * i)
  }

  /** An encoding is just that, with the number of digits of n. */
  lemma IntBytes(s: seq<byte>, n: nat)
    ensures var k := |Nibbles(n)|;
            && n < Pow16(k) && (n > 0 ==> k > 0 && Pow16(k - 1) <= n)
            && (IsInt(s, n) <==> Packed(s, n, k))
  {
    NibblesDigits(n);
    hide Nibbles, Digit, Pow16, Nibble, Due;
    var k := |Nibbles(n)|;
    DueIs(n);
    if |s| == IntLen(n) {
      forall i | 0 <= i < |s|
        ensures Nibble(s, 2 * i) == s[i] / 16 && Nibble(s, 2 * i + 1) == s[i] % 16
      {
        Halves(s, i);
      }
      AllDue(s, n);
      if Packed(s, n, k) {
        forall p | 0 <= p < 2 * |s|
          ensures Nibble(s, p) == Due(n, p)
        {
          var i := p / 2;
          assert p == 2 * i || p == 2 * i + 1;
        }
      }
      if IsInt(s, n) {
        forall i | 1 <= i < |s|
          ensures s[i] / 16 == Digit(n, 2 * i - 1) && s[i] % 16 == Digit(n, 2 * i)
        {
          assert Nibble(s, 2 * i) == Due(n, 2 * i) && Nibble(s, 2 * i + 1) == Due(n, 2 * i + 1);
        }
        assert Nibble(s, 2 * 0) == Due(n, 0) && Nibble(s, 2 * 0 + 1) == Due(n, 1);
      }
    }
  }

  lemma Halves(s: seq<byte>, i: nat)
    requires i < |s|
    ensures Nibble(s, 2 * i) == s[i] / 16 && Nibble(s, 2 * i + 1) == s[i] % 16
  {
  }

  lemma AllDue(s: seq<byte>, n: nat)
    requires |s| == IntLen(n)
    ensures IsInt(s, n) <==> forall p :: 0 <= p < 2 * |s| ==> Nibble(s, p) == Due(n, p)
  {
  }

  lemma DueIs(n: nat)
    ensures Due(n, 0) == (if |Nibbles(n)| > 1 then |Nibbles(n)| - 1 else 0)
    ensures forall p :: 0 < p ==> Due(n, p) == Digit(n, p - 1)
  {
    NibblesDigits(n);
    hide Nibbles, Digit, Pow16;
  }

  function Due(n: nat, p: nat): nat {
    if p < |Stream(n)| then Stream(n)[p] else 0
  }

  /** What is decoded from bytes has just the digits that stand in them. */
  lemma DecodedDigits(s: seq<byte>, max: nat)
    requires DecodeInt(s, max).Some?
    ensures var n, k := DecodeInt(s, max).value.value, s[0] / 16 + 1;
            && k <= max && n < Pow16(k) && DecodeInt(s, max).value.len == k / 2 + 1
            && forall i :: 0 <= i < k ==> Digit(n, i) == if i % 2 == 0 then s[i / 2] % 16 else s[i / 2 + 1] / 16
  {
    var k := s[0] / 16 + 1;
    DecodedValue(s, max);
    ValueBelow(s, 1, k);
    hide DecodeInt, Digit, Value, Pow16, Nibble;
    forall i | 0 <= i < k
      ensures Digit(Value(s, 1, k), i) == if i % 2 == 0 then s[i / 2] % 16 else s[i / 2 + 1] / 16
    {
      ValueDigit(s, 1, k, i);
      NibbleAt(s, i);
    }
  }

  lemma NibbleAt(s: seq<byte>, i: nat)
    requires (i + 1) / 2 < |s|
    ensures Nibble(s, 1 + i) == if i % 2 == 0 then s[i / 2] % 16 else s[i / 2 + 1] / 16
  {
  }

  lemma DecodedValue(s: seq<byte>, max: nat)
    requires DecodeInt(s, max).Some?
    ensures var k := s[0] / 16 + 1;
            k <= max && k / 2 < |s| && DecodeInt(s, max).value == Number(Value(s, 1, k), k / 2 + 1)
  {
  }

  lemma {:induction false} ValueDigit(s: seq<byte>, p: nat, k: nat, i: nat)
    requires p + i <= k && k / 2 < |s|
    ensures Digit(Value(s, p, k), i) == Nibble(s, p + i)
    decreases i
  {
    var n := Value(s, p, k);
    assert n / 16 == Value(s, p + 1, k) && n % 16 == Nibble(s, p);
    if i > 0 {
      DivideTwice(n, 16, Pow16(i - 1));
      ValueDigit(s, p + 1, k, i - 1);
    }
  }

  // ---------- Records ----------

  datatype Record = Record(tag: nat, payload: seq<byte>) {
    /** Tags and lengths have 32 bits. */
    ghost predicate Proper() {
      tag < 0x1_0000_0000 && |payload| < 0x1_0000_0000
    }
  }

  lemma LengthNibbles(n: nat)
    requires n < 0x1_0000_0000_0000_0000
    ensures |Nibbles(n)| <= 16 && (n < 0x1_0000_0000 ==> |Nibbles(n)| <= 8)
    ensures Pow16(8) == 0x1_0000_0000 && Pow16(16) == 0x1_0000_0000_0000_0000
  {
    assert Pow16(8) == 0x1_0000_0000;
    assert Pow16(16) == 0x1_0000_0000_0000_0000;
    NibblesCount(n, 16);
    if n < 0x1_0000_0000 { NibblesCount(n, 8); }
  }

  /** Tag, length and payload. */
  ghost function Bytes32(r: Record): seq<byte>
    requires r.Proper()
  {
    LengthNibbles(|r.payload|);
    EncodeTag(r.tag) + EncodeInt(|r.payload|) + r.payload
  }

  /** What a record announces: its tag, the length of its payload, and where that begins. */
  datatype Header = Header(tag: nat, len: nat, size: nat)

  function ParseHeader(s: seq<byte>): (h: Option<Header>)
    ensures h.Some? ==> h.value.size <= |s|
  {
    var t := DecodeTag(s, 0);
    if t == None then None
    else
      var n := DecodeInt(s[t.value.len..], 8);
      if n == None then None else Some(Header(t.value.value, n.value.value, t.value.len + n.value.len))
  }

  /** The header of a record is read back, and its payload follows. */
  lemma HeaderRoundTrip(r: Record, after: seq<byte>)
    requires r.Proper()
    ensures var s := Bytes32(r) + after;
            && ParseHeader(s) == Some(Header(r.tag, |r.payload|, |Bytes32(r)| - |r.payload|))
            && s[|Bytes32(r)| - |r.payload|..] == r.payload + after
  {
    hide EncodeTag, EncodeInt, IsInt, DecodeInt, DecodeTag, Pow16, Nibbles, ParseHeader;
    LengthNibbles(|r.payload|);
    var t, n := EncodeTag(r.tag), EncodeInt(|r.payload|);
    var rest := r.payload + after;
    assert Bytes32(r) + after == t + n + rest;
    HeaderRead(r.tag, |r.payload|, rest);
  }

  /** A tag and a length are read back as a header. */
  lemma HeaderRead(tag: nat, len: nat, rest: seq<byte>)
    requires tag < 0x1_0000_0000 && len < 0x1_0000_0000 && |Nibbles(len)| <= 16
    ensures var t, n := EncodeTag(tag), EncodeInt(len);
            var s := t + n + rest;
            && ParseHeader(s) == Some(Header(tag, len, |t| + |n|))
            && s[|t| + |n|..] == rest
  {
    hide EncodeTag, EncodeInt, IsInt, DecodeInt, DecodeTag, Pow16, Nibbles;
    LengthNibbles(len);
    var t, n := EncodeTag(tag), EncodeInt(len);
    var s := t + n + rest;
    TagThenNumber(s, t, n, rest);
    TagRoundTrip(tag, [], n + rest);
    assert [] + t + (n + rest) == s;
    EncodeIntIs(len);
    IntRoundTrip(n, len, 8, rest);
  }

  /** Where the number begins and ends. */
  lemma TagThenNumber(s: seq<byte>, t: seq<byte>, n: seq<byte>, rest: seq<byte>)
    requires s == t + n + rest
    ensures s[|t|..] == n + rest && s[|t| + |n|..] == rest
  {
  }
}
