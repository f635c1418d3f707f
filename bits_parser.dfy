/**
 * The BITS transmission parser of archive/2021/day16/src/parser.rs.  The
 * hexadecimal text becomes a vector of bits used as a stack: `convert`
 * reverses it so that `pop` returns the bits in transmission order, and
 * every reader pops from that shared vector.  A reader that runs out of
 * bits returns `None`, and then it has popped the stack empty.
 */
module BitsParser {

  datatype Option<T> = None | Some(value: T)
  {
    predicate IsFailure() { None? }
    function PropagateFailure<U>(): Option<U>
      requires None?
    {
      None
    }
    function Extract(): T
      requires Some?
    {
      value
    }
  }

  datatype Token = Token(version: int, kind: int, value: int)

  function Pow2(n: nat): (r: nat)
    ensures r >= 1
  {
    if n == 0 then 1 else 2 * Pow2(n - 1)
  }

  predicate IsBits(s: seq<int>)
  {
    forall i :: 0 <= i < |s| ==> s[i] == 0 || s[i] == 1
  }

  /** The value of `bits` read most significant first. */
  function BigEndian(bits: seq<int>): int
  {
    if bits == [] then 0 else bits[0] * Pow2(|bits| - 1) + BigEndian(bits[1..])
  }

  /** The n values the stack `s` yields when popped n times, in the order popped. */
  function Popped(s: seq<int>, n: nat): (r: seq<int>)
    requires n <= |s|
    ensures |r| == n
  {
    if n == 0 then [] else [s[|s| - 1]] + Popped(s[..|s| - 1], n - 1)
  }

  function Reverse<T>(s: seq<T>): (r: seq<T>)
    ensures |r| == |s|
    ensures forall i :: 0 <= i < |s| ==> r[i] == s[|s| - 1 - i]
  {
    if s == [] then [] else Reverse(s[1..]) + [s[0]]
  }

  // Converting the text.

  /** The big-endian nibble of a hexadecimal digit (upper-case only, as `convert` matches them). */
  function Nibble(c: char): Option<seq<int>>
  {
    match c
    case '0' => Some([0, 0, 0, 0])
    case '1' => Some([0, 0, 0, 1])
    case '2' => Some([0, 0, 1, 0])
    case '3' => Some([0, 0, 1, 1])
    case '4' => Some([0, 1, 0, 0])
    case '5' => Some([0, 1, 0, 1])
    case '6' => Some([0, 1, 1, 0])
    case '7' => Some([0, 1, 1, 1])
    case '8' => Some([1, 0, 0, 0])
    case '9' => Some([1, 0, 0, 1])
    case 'A' => Some([1, 0, 1, 0])
    case 'B' => Some([1, 0, 1, 1])
    case 'C' => Some([1, 1, 0, 0])
    case 'D' => Some([1, 1, 0, 1])
    case 'E' => Some([1, 1, 1, 0])
    case 'F' => Some([1, 1, 1, 1])
    case _ => None
  }

  function HexValue(c: char): int
  {
    if '0' <= c <= '9' then c as int - '0' as int
    else if 'A' <= c <= 'F' then c as int - 'A' as int + 10
    else -1
  }

  /** A nibble holds four bits whose value is the digit's, and only the 16 upper-case digits have one. */
  lemma NibbleValue(c: char)
    ensures Nibble(c).Some? <==> ('0' <= c <= '9' || 'A' <= c <= 'F')
    ensures Nibble(c).Some? ==> |Nibble(c).value| == 4 && IsBits(Nibble(c).value) && BigEndian(Nibble(c).value) == HexValue(c)
  {
    if Nibble(c).Some? {
      var n := Nibble(c).value;
      BigEndianFour(n[0], n[1], n[2], n[3]);
      assert n == [n[0], n[1], n[2], n[3]];
    }
  }

  lemma BigEndianFour(a: int, b: int, c: int, d: int)
    ensures BigEndian([a, b, c, d]) == 8 * a + 4 * b + 2 * c + d
  {
    assert Pow2(1) == 2 && Pow2(2) == 4 && Pow2(3) == 8;
    assert [d][1..] == [];
    assert BigEndian([d]) == d;
    assert [c, d][1..] == [d];
    assert BigEndian([c, d]) == 2 * c + d;
    assert [b, c, d][1..] == [c, d];
    assert BigEndian([b, c, d]) == 4 * b + 2 * c + d;
    assert [a, b, c, d][1..] == [b, c, d];
  }

  /** The transmission in stream order: the nibbles of the digits, first digit first; a non-digit panics. */
  function Stream(data: string): (r: Option<seq<int>>)
    ensures r.Some? ==> |r.value| == 4 * |data| && IsBits(r.value)
  {
    if data == [] then Some([])
    else
      var head :- Nibble(data[0]);
      NibbleValue(data[0]);
      var tail :- Stream(data[1..]);
      Some(head + tail)
  }

  /** `convert`: the nibbles appended in order, then the whole vector reversed. */
  method Convert(data: string) returns (r: Option<seq<int>>)
    ensures r.Some? <==> Stream(data).Some?
    ensures r.Some? ==> r.value == Reverse(Stream(data).value)
  {
    var packets: seq<int> := [];
    var i := 0;
    while i < |data|
      invariant 0 <= i <= |data|
      invariant Stream(data).Some? <==> Stream(data[i..]).Some?
      invariant Stream(data).Some? ==> Stream(data).value == packets + Stream(data[i..]).value
    {
      assert data[i..][0] == data[i] && data[i..][1..] == data[i + 1..];
      var packet := Nibble(data[i]);
      if packet.None? {
        return None;
      }
      packets := packets + packet.value;
      i := i + 1;
    }
    assert data[i..] == [];
    assert packets + [] == packets;
    return Some(Reverse(packets));
  }

  /** Popping the converted vector yields the stream in order. */
  lemma {:induction false} PopsInStreamOrder(stream: seq<int>, n: nat)
    requires n <= |stream|
    ensures Popped(Reverse(stream), n) == stream[..n]
    decreases n
  {
    if n > 0 {
      PopsFront(stream, n);
      PopsInStreamOrder(stream[1..], n - 1);
      assert stream[..n] == [stream[0]] + stream[1..][..n - 1];
    }
  }

  lemma PopsFront(stream: seq<int>, n: nat)
    requires 0 < n <= |stream|
    ensures Popped(Reverse(stream), n) == [stream[0]] + Popped(Reverse(stream[1..]), n - 1)
  {
    var s := Reverse(stream);
    assert s[..|s| - 1] == Reverse(stream[1..]) by {
      assert forall i :: 0 <= i < |s| - 1 ==> s[..|s| - 1][i] == Reverse(stream[1..])[i];
    }
  }

  // Fixed-width fields.

  class BitStack {
    var bits: seq<int>

    constructor (bits: seq<int>)
      ensures this.bits == bits
    {
      this.bits := bits;
    }

    /** `Vec::pop`. */
    method Pop() returns (r: Option<int>)
      modifies this
      ensures old(bits) == [] ==> r == None && bits == []
      ensures old(bits) != [] ==> r == Some(old(bits)[|old(bits)| - 1]) && bits == old(bits)[..|old(bits)| - 1]
    {
      if bits == [] {
        return None;
      }
      r := Some(bits[|bits| - 1]);
      bits := bits[..|bits| - 1];
    }
  }

  /** `decimal_value(len)` on the stack `s`: the value and the stack left, or None when the bits run out. */
  function Decimal(s: seq<int>, len: nat): (r: Option<(int, seq<int>)>)
    ensures r.Some? <==> len <= |s|
    ensures r.Some? ==> r.value.1 == s[..|s| - len]
    decreases len
  {
    if len == 0 then Some((0, s))
    else if s == [] then None
    else
      var next :- Decimal(s[..|s| - 1], len - 1);
      Some((Pow2(len - 1) * s[|s| - 1] + next.0, next.1))
  }

  /**
   * `decimal_value` pops exactly `len` bits and reads them most significant
   * first; it fails exactly when fewer than `len` bits are left.
   */
  lemma {:induction false} DecimalReads(s: seq<int>, len: nat)
    ensures Decimal(s, len).Some? <==> len <= |s|
    ensures Decimal(s, len).Some? ==>
              && Decimal(s, len).value.1 == s[..|s| - len]
              && Decimal(s, len).value.0 == BigEndian(Popped(s, len))
    decreases len
  {
    if len > 0 && s != [] {
      DecimalReads(s[..|s| - 1], len - 1);
      if len <= |s| {
        var p := Popped(s, len);
        assert p[1..] == Popped(s[..|s| - 1], len - 1);
        assert s[..|s| - 1][..|s| - 1 - (len - 1)] == s[..|s| - len];
      }
    }
  }

  /** On a stack of bits, the value `decimal_value(len)` returns lies in [0, 2^len). */
  lemma DecimalRange(s: seq<int>, len: nat)
    requires IsBits(s) && len <= |s|
    ensures Decimal(s, len).Some? && 0 <= Decimal(s, len).value.0 < Pow2(len)
  {
    DecimalReads(s, len);
    PoppedBits(s, len);
    BigEndianRange(Popped(s, len));
  }

  lemma {:induction false} BigEndianRange(bits: seq<int>)
    requires IsBits(bits)
    ensures 0 <= BigEndian(bits) < Pow2(|bits|)
    decreases |bits|
  {
    if bits != [] {
      BigEndianRange(bits[1..]);
    }
  }

  /** The bits of v in `len` places, most significant first. */
  function BitsOf(v: nat, len: nat): (r: seq<int>)
    ensures |r| == len
  {
    if len == 0 then [] else BitsOf(v / 2, len - 1) + [v % 2]
  }

  lemma {:induction false} BitsOfValue(v: nat, len: nat)
    requires v < Pow2(len)
    ensures BigEndian(BitsOf(v, len)) == v && IsBits(BitsOf(v, len))
    decreases len
  {
    if len > 0 {
      BitsOfValue(v / 2, len - 1);
      BigEndianSnoc(BitsOf(v / 2, len - 1), v % 2);
    }
  }

  lemma {:induction false} BigEndianSnoc(bits: seq<int>, b: int)
    ensures BigEndian(bits + [b]) == 2 * BigEndian(bits) + b
    decreases |bits|
  {
    if bits != [] {
      assert (bits + [b])[1..] == bits[1..] + [b];
      BigEndianSnoc(bits[1..], b);
    } else {
      assert [] + [b] == [b];
    }
  }

  /** Bits pushed onto bits, in either order, are bits. */
  lemma PushedBits(below: seq<int>, enc: seq<int>)
    requires IsBits(below) && IsBits(enc)
    ensures IsBits(below + Reverse(enc))
  {
    var s := below + Reverse(enc);
    forall i | 0 <= i < |s|
      ensures s[i] == 0 || s[i] == 1
    {
      if i >= |below| {
        assert s[i] == Reverse(enc)[i - |below|] == enc[|enc| - 1 - (i - |below|)];
      }
    }
  }

  /** Encoding a value below 2^len and pushing it for popping is undone by `decimal_value`. */
  lemma DecimalRoundTrip(v: nat, len: nat, below: seq<int>)
    requires v < Pow2(len) && IsBits(below)
    ensures Decimal(below + Reverse(BitsOf(v, len)), len) == Some((v, below))
  {
    var enc := BitsOf(v, len);
    BitsOfValue(v, len);
    var s := below + Reverse(enc);
    PushedBits(below, enc);
    DecimalReads(s, len);
    assert s[..|s| - len] == below;
    PoppedSuffix(below, Reverse(enc), len);
    PopsInStreamOrder(enc, len);
    assert enc[..len] == enc;
  }

  lemma {:induction false} PoppedSuffix(below: seq<int>, top: seq<int>, n: nat)
    requires n <= |top|
    ensures Popped(below + top, n) == Popped(top, n)
    decreases n
  {
    if n > 0 {
      assert (below + top)[..|below + top| - 1] == below + top[..|top| - 1];
      PoppedSuffix(below, top[..|top| - 1], n - 1);
    }
  }

  /** `decimal_value`: the `for index in 1..=len` loop. */
  method DecimalValue(b: BitStack, len: nat) returns (r: Option<int>)
    modifies b
    ensures var d := Decimal(old(b.bits), len);
            && (r.Some? <==> d.Some?)
            && (d.Some? ==> r.value == d.value.0 && b.bits == d.value.1)
            && (d.None? ==> b.bits == [])
  {
    var value := 0;
    var index := 1;
    while index <= len
      invariant 1 <= index <= len + 1
      invariant Decimal(old(b.bits), len) == Raise(Decimal(b.bits, len - index + 1), value)
    {
      var digit := b.Pop();
      if digit.None? {
        return None;
      }
      value := value + Pow2(len - index) * digit.value;
      index := index + 1;
    }
    return Some(value);
  }

  /** A partial value: adds `v` to the value a reader returns. */
  function Raise(r: Option<(int, seq<int>)>, v: int): Option<(int, seq<int>)>
  {
    if r.None? then None else Some((r.value.0 + v, r.value.1))
  }

  /** `header`: three bits. */
  method Header(b: BitStack) returns (r: Option<int>)
    modifies b
    ensures var d := Decimal(old(b.bits), 3);
            && (r.Some? <==> d.Some?)
            && (d.Some? ==> r.value == d.value.0 && b.bits == d.value.1)
            && (d.None? ==> b.bits == [])
  {
    r := DecimalValue(b, 3);
  }

  /** `length`: a type bit, then 15 bits (a bit length) after a 0 or 11 bits (a packet count) after a 1. */
  function LengthField(s: seq<int>): Option<(int, seq<int>)>
  {
    if s == [] then None
    else if s[|s| - 1] == 0 then Decimal(s[..|s| - 1], 15)
    else Decimal(s[..|s| - 1], 11)
  }

  lemma LengthReads(s: seq<int>)
    requires IsBits(s) && LengthField(s).Some?
    ensures var n := if s[|s| - 1] == 0 then 15 else 11;
            && n + 1 <= |s|
            && LengthField(s).value.1 == s[..|s| - 1 - n]
            && 0 <= LengthField(s).value.0 < Pow2(n)
  {
    var n := if s[|s| - 1] == 0 then 15 else 11;
    DecimalReads(s[..|s| - 1], n);
    DecimalRange(s[..|s| - 1], n);
    assert s[..|s| - 1][..|s| - 1 - n] == s[..|s| - 1 - n];
  }

  method Length(b: BitStack) returns (r: Option<int>)
    modifies b
    ensures var d := LengthField(old(b.bits));
            && (r.Some? <==> d.Some?)
            && (d.Some? ==> r.value == d.value.0 && b.bits == d.value.1)
            && (d.None? ==> b.bits == [])
  {
    var lengthType := b.Pop();
    if lengthType.None? {
      return None;
    }
    if lengthType.value == 0 {
      r := DecimalValue(b, 15);
    } else {
      r := DecimalValue(b, 11);
    }
  }

  // Literal values.

  /**
   * The payload of a literal: 5-bit groups, each a lead bit and four
   * payload bits, up to and including the first group whose lead bit is 0.
   */
  function Groups(s: seq<int>): (r: Option<(seq<int>, seq<int>)>)
    decreases |s|
    ensures r.Some? ==> |r.value.1| + 5 <= |s|
  {
    if |s| < 5 then None
    else
      var lead := s[|s| - 1];
      var four := Popped(s[..|s| - 1], 4);
      var rest := s[..|s| - 5];
      if lead == 0 then Some((four, rest))
      else
        var more :- Groups(rest);
        Some((four + more.0, more.1))
  }

  /** `value`: the payload bits of all groups, concatenated in order, read as one binary number. */
  function Literal(s: seq<int>): (r: Option<(int, seq<int>)>)
    ensures r.Some? ==> |r.value.1| + 5 <= |s|
  {
    var g :- Groups(s);
    Some((BigEndian(g.0), g.1))
  }

  /** A literal of k groups consumes 5k bits and carries 4k payload bits; every lead bit but the last is 1. */
  lemma {:induction false} GroupsShape(s: seq<int>)
    requires Groups(s).Some?
    ensures var (payload, rest) := Groups(s).value;
            && |payload| % 4 == 0 && |payload| > 0
            && |s| - |rest| == 5 * (|payload| / 4)
            && rest == s[..|rest|]
    decreases |s|
  {
    var rest5 := s[..|s| - 5];
    if s[|s| - 1] != 0 {
      GroupsShape(rest5);
      var (p, r) := Groups(rest5).value;
      assert rest5[..|r|] == s[..|r|];
    }
  }

  /** The inner `for _ in 0..4` loop: four more payload bits. */
  method PopFour(b: BitStack) returns (r: Option<seq<int>>)
    modifies b
    ensures |old(b.bits)| >= 4 ==> r == Some(Popped(old(b.bits), 4)) && b.bits == old(b.bits)[..|old(b.bits)| - 4]
    ensures |old(b.bits)| < 4 ==> r == None && b.bits == []
  {
    var four: seq<int> := [];
    var k := 0;
    while k < 4
      invariant 0 <= k <= 4 && k <= |old(b.bits)|
      invariant b.bits == old(b.bits)[..|old(b.bits)| - k]
      invariant four == Popped(old(b.bits), k)
    {
      var bit := b.Pop();
      if bit.None? {
        return None;
      }
      PoppedNext(old(b.bits), k);
      four := four + [bit.value];
      k := k + 1;
    }
    return Some(four);
  }

  lemma {:induction false} PoppedNext(s: seq<int>, k: nat)
    requires k < |s|
    ensures Popped(s, k + 1) == Popped(s, k) + [s[..|s| - k][|s| - k - 1]]
    decreases k
  {
    if k > 0 {
      PoppedNext(s[..|s| - 1], k - 1);
      assert s[..|s| - 1][..|s| - 1 - (k - 1)] == s[..|s| - k];
    }
  }

  /** `value`: the `while !end` loop collects the groups, then `decimal_value` reads the reversed payload. */
  method Value(b: BitStack) returns (r: Option<int>)
    modifies b
    ensures var d := Literal(old(b.bits));
            && (r.Some? <==> d.Some?)
            && (d.Some? ==> r.value == d.value.0 && b.bits == d.value.1)
            && (d.None? ==> b.bits == [])
  {
    var end := false;
    var value: seq<int> := [];
    AppendNothing(Groups(b.bits));
    while !end
      invariant !end ==> Groups(old(b.bits)) == Append(value, Groups(b.bits))
      invariant end ==> Groups(old(b.bits)) == Some((value, b.bits))
      decreases |b.bits|, if end then 0 else 1
    {
      ghost var s := b.bits;
      var lead := b.Pop();
      if lead.None? {
        return None;
      }
      end := lead.value == 0;
      var four := PopFour(b);
      if four.None? {
        return None;
      }
      assert s[..|s| - 1][..|s| - 1 - 4] == s[..|s| - 5];
      AppendAssoc(value, four.value, Groups(b.bits));
      value := value + four.value;
    }
    var length := |value|;
    var digits := new BitStack(Reverse(value));
    PopsInStreamOrder(value, length);
    assert value[..length] == value;
    DecimalReads(Reverse(value), length);
    r := DecimalValue(digits, length);
  }

  /** A partial payload: puts `p` in front of the payload a reader returns. */
  function Append(p: seq<int>, r: Option<(seq<int>, seq<int>)>): Option<(seq<int>, seq<int>)>
  {
    if r.None? then None else Some((p + r.value.0, r.value.1))
  }

  lemma AppendAssoc(p: seq<int>, q: seq<int>, r: Option<(seq<int>, seq<int>)>)
    ensures Append(p, Append(q, r)) == Append(p + q, r)
  {
    if r.Some? {
      assert p + (q + r.value.0) == (p + q) + r.value.0;
    }
  }

  lemma AppendNothing(r: Option<(seq<int>, seq<int>)>)
    ensures Append([], r) == r
  {
    if r.Some? {
      assert [] + r.value.0 == r.value.0;
    }
  }

  lemma {:induction false} GroupsAreBits(s: seq<int>)
    requires IsBits(s) && Groups(s).Some?
    ensures IsBits(Groups(s).value.0)
    decreases |s|
  {
    PoppedBits(s[..|s| - 1], 4);
    if s[|s| - 1] != 0 {
      GroupsAreBits(s[..|s| - 5]);
    }
  }

  lemma {:induction false} PoppedBits(s: seq<int>, n: nat)
    requires IsBits(s) && n <= |s|
    ensures IsBits(Popped(s, n))
    decreases n
  {
    if n > 0 {
      PoppedBits(s[..|s| - 1], n - 1);
    }
  }

  // Packets.

  /** `parse_packet`: version, class, then the literal for class 4 or the length field otherwise. */
  function Packet(s: seq<int>): (r: Option<(Token, seq<int>)>)
    ensures r.Some? ==> |r.value.1| + 6 < |s|
  {
    var version :- Decimal(s, 3);
    DecimalReads(s, 3);
    var kind :- Decimal(version.1, 3);
    DecimalReads(version.1, 3);
    if kind.0 == 4 then
      var v :- Literal(kind.1);
      Some((Token(version.0, kind.0, v.0), v.1))
    else
      var n :- LengthField(kind.1);
      LengthShrinks(kind.1);
      Some((Token(version.0, kind.0, n.0), n.1))
  }

  lemma LengthShrinks(s: seq<int>)
    ensures LengthField(s).Some? ==> |LengthField(s).value.1| + 12 <= |s|
  {
    if s != [] {
      DecimalReads(s[..|s| - 1], if s[|s| - 1] == 0 then 15 else 11);
    }
  }

  /**
   * On a stack of bits a token's version and class are 3-bit fields
   * (values 0 to 7); class 4 carries the literal's payload read as
   * one number, and any other class a length field below 2^15.
   */
  lemma PacketFields(s: seq<int>)
    requires IsBits(s) && Packet(s).Some?
    ensures var t := Packet(s).value.0;
            && 0 <= t.version <= 7 && 0 <= t.kind <= 7
            && (t.kind == 4 ==> Groups(s[..|s| - 6]).Some? && t.value == BigEndian(Groups(s[..|s| - 6]).value.0))
            && (t.kind != 4 ==> 0 <= t.value < Pow2(15))
  {
    PacketUnfolds(s);
    var v := Decimal(s, 3).value;
    var c := Decimal(v.1, 3).value;
    ThreeBitField(s);
    ThreeBitField(v.1);
    assert v.1[..|v.1| - 3] == s[..|s| - 6];
    if c.0 != 4 {
      LengthReads(c.1);
      assert Pow2(11) <= Pow2(15) by {
        Pow2Grows(11, 15);
      }
    }
  }

  /** A 3-bit field read from the end is a value 0 to 7 and leaves the bits before it. */
  lemma ThreeBitField(s: seq<int>)
    requires IsBits(s) && Decimal(s, 3).Some?
    ensures 0 <= Decimal(s, 3).value.0 <= 7
    ensures |s| >= 3 && Decimal(s, 3).value.1 == s[..|s| - 3] && IsBits(Decimal(s, 3).value.1)
  {
    DecimalReads(s, 3);
    DecimalRange(s, 3);
    PrefixBits(s, |s| - 3);
  }

  lemma PacketUnfolds(s: seq<int>)
    requires Packet(s).Some?
    ensures Decimal(s, 3).Some? && Decimal(Decimal(s, 3).value.1, 3).Some?
    ensures var v := Decimal(s, 3).value;
            var c := Decimal(v.1, 3).value;
            && (c.0 == 4 ==> Literal(c.1).Some? && Packet(s).value.0 == Token(v.0, c.0, Literal(c.1).value.0))
            && (c.0 != 4 ==> LengthField(c.1).Some? && Packet(s).value.0 == Token(v.0, c.0, LengthField(c.1).value.0))
  {
  }

  lemma PrefixBits(s: seq<int>, k: nat)
    requires IsBits(s) && k <= |s|
    ensures IsBits(s[..k])
  {
    assert forall i :: 0 <= i < k ==> s[..k][i] == s[i];
  }

  lemma {:induction false} Pow2Grows(m: nat, n: nat)
    requires m <= n
    ensures Pow2(m) <= Pow2(n)
    decreases n
  {
    if m < n {
      Pow2Grows(m, n - 1);
    }
  }

  method ParsePacket(b: BitStack) returns (r: Option<Token>)
    modifies b
    ensures var d := Packet(old(b.bits));
            && (r.Some? <==> d.Some?)
            && (d.Some? ==> r.value == d.value.0 && b.bits == d.value.1)
            && (d.None? ==> b.bits == [])
  {
    var version := Header(b);
    if version.None? {
      return None;
    }
    var kind := Header(b);
    if kind.None? {
      return None;
    }
    if kind.value == 4 {
      var val := Value(b);
      if val.None? {
        return None;
      }
      return Some(Token(version.value, kind.value, val.value));
    } else {
      var length := Length(b);
      if length.None? {
        return None;
      }
      return Some(Token(version.value, kind.value, length.value));
    }
  }

  /** The tokens the `while let` loop collects, in the order parsed, up to the first unreadable packet. */
  function Packets(s: seq<int>): (r: seq<Token>)
    ensures 7 * |r| <= |s|
    decreases |s|
  {
    match Packet(s)
    case None => []
    case Some((t, rest)) => [t] + Packets(rest)
  }

  /** `parse_packets`: the loop ends at the first unreadable packet, with every bit popped; then the tokens are reversed. */
  method ParsePackets(b: BitStack) returns (tokens: seq<Token>)
    modifies b
    ensures tokens == Reverse(Packets(old(b.bits)))
    ensures b.bits == []
  {
    tokens := [];
    while true
      invariant Packets(old(b.bits)) == tokens + Packets(b.bits)
      decreases |b.bits|
    {
      ghost var s := b.bits;
      var token := ParsePacket(b);
      if token.None? {
        break;
      }
      assert tokens + Packets(s) == (tokens + [token.value]) + Packets(b.bits);
      tokens := tokens + [token.value];
    }
    assert tokens + [] == tokens;
    tokens := Reverse(tokens);
  }

  /** `parse`: the tokens of a transmission, first-parsed last; None is the panic on a non-digit. */
  function Parse(data: string): (r: Option<seq<Token>>)
    ensures r.Some? ==> 7 * |r.value| <= 4 * |data|
  {
    var stream :- Stream(data);
    Some(Reverse(Packets(Reverse(stream))))
  }

  method ParseText(data: string) returns (r: Option<seq<Token>>)
    ensures r == Parse(data)
  {
    var bits := Convert(data);
    if bits.None? {
      return None;
    }
    var b := new BitStack(bits.value);
    var tokens := ParsePackets(b);
    return Some(tokens);
  }
}
