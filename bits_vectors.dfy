/**
 * Encoding packets of the BITS transmission (2021 day 16) and reading them
 * back: a header and a length field, or a header and a one-group literal,
 * written in stream order, are read back by `parse_packet` as the token they
 * encode.  With these the transmissions of the provided tests are parsed
 * and evaluated.
 */
module BitsVectors {
  import opened BitsParser
  import BitsCalculator

  lemma ReverseConcat<T>(a: seq<T>, b: seq<T>)
    ensures Reverse(a + b) == Reverse(b) + Reverse(a)
  {
    var l, r := Reverse(a + b), Reverse(b) + Reverse(a);
    assert forall i :: 0 <= i < |l| ==> l[i] == r[i];
  }

  lemma SnocBits(s: seq<int>, b: int)
    requires IsBits(s) && (b == 0 || b == 1)
    ensures IsBits(s + [b])
  {
    assert forall i :: 0 <= i < |s| ==> (s + [b])[i] == s[i];
  }

  /** The stream bits of an operator packet: version, class, length type, then a 15-bit or 11-bit length. */
  function OperatorBits(version: nat, kind: nat, lengthType: int, length: nat): seq<int>
  {
    BitsOf(version, 3) + BitsOf(kind, 3) + [lengthType] + BitsOf(length, Width(lengthType))
  }

  /** The width of the length field: 15 bits of bit length after a 0, 11 bits of packet count after a 1. */
  function Width(lengthType: int): nat
  {
    if lengthType == 0 then 15 else 11
  }

  lemma Assoc(below: seq<int>, a: seq<int>, b: seq<int>, c: seq<int>, d: seq<int>)
    ensures below + (a + b + c + d) == below + a + b + c + d
  {
  }

  /** The stream bits of a literal packet whose value fits one group: version, class 4, a last-group bit 0 and four bits. */
  function LiteralBits(version: nat, value: nat): seq<int>
  {
    BitsOf(version, 3) + BitsOf(4, 3) + [0] + BitsOf(value, 4)
  }

  lemma Pow2Small()
    ensures Pow2(3) == 8 && Pow2(4) == 16 && Pow2(11) == 2048 && Pow2(15) == 32768
  {
    assert Pow2(4) == 16;
    assert Pow2(8) == 256;
    assert Pow2(11) == 2048;
  }

  /** A three-bit field pushed onto any bits is read back as its value. */
  lemma ThreeBitsBack(v: nat, below: seq<int>)
    requires v < 8 && IsBits(below)
    ensures Decimal(below + Reverse(BitsOf(v, 3)), 3) == Some((v, below))
    ensures IsBits(below + Reverse(BitsOf(v, 3)))
  {
    Pow2Small();
    DecimalRoundTrip(v, 3, below);
    BitsOfValue(v, 3);
    PushedBits(below, BitsOf(v, 3));
  }

  /** Reversing an operator packet's bits stacks its fields with the version on top. */
  lemma OperatorStacked(version: nat, kind: nat, lengthType: int, length: nat)
    ensures Reverse(OperatorBits(version, kind, lengthType, length))
              == Reverse(BitsOf(length, Width(lengthType))) + [lengthType] + Reverse(BitsOf(kind, 3)) + Reverse(BitsOf(version, 3))
  {
    var l := BitsOf(length, Width(lengthType));
    var v, k := BitsOf(version, 3), BitsOf(kind, 3);
    ReverseConcat(v + k + [lengthType], l);
    ReverseConcat(v + k, [lengthType]);
    ReverseConcat(v, k);
    assert Reverse([lengthType]) == [lengthType];
  }

  /** Reversing a literal packet's bits stacks its fields with the version on top. */
  lemma LiteralStacked(version: nat, value: nat)
    ensures Reverse(LiteralBits(version, value)) == Reverse(BitsOf(value, 4)) + [0] + Reverse(BitsOf(4, 3)) + Reverse(BitsOf(version, 3))
  {
    var g := BitsOf(value, 4);
    var v, k := BitsOf(version, 3), BitsOf(4, 3);
    ReverseConcat(v + k + [0], g);
    ReverseConcat(v + k, [0]);
    ReverseConcat(v, k);
    assert Reverse([0]) == [0];
  }

  /** A length type and a length pushed onto any bits are read back by `length`. */
  lemma LengthBack(lengthType: int, length: nat, below: seq<int>)
    requires (lengthType == 0 || lengthType == 1) && length < Pow2(Width(lengthType)) && IsBits(below)
    ensures LengthField(below + Reverse(BitsOf(length, Width(lengthType))) + [lengthType]) == Some((length, below))
    ensures IsBits(below + Reverse(BitsOf(length, Width(lengthType))) + [lengthType])
  {
    var n := Width(lengthType);
    var l := BitsOf(length, n);
    var s1 := below + Reverse(l);
    DecimalRoundTrip(length, n, below);
    BitsOfValue(length, n);
    PushedBits(below, l);
    var s2 := s1 + [lengthType];
    SnocBits(s1, lengthType);
    assert s2[..|s2| - 1] == s1;
  }

  /** A version and a class pushed onto any bits are read back by the two `header` calls. */
  lemma HeaderBack(version: nat, kind: nat, body: seq<int>)
    requires version < 8 && kind < 8 && IsBits(body)
    ensures Decimal(body + Reverse(BitsOf(kind, 3)), 3) == Some((kind, body))
    ensures Decimal(body + Reverse(BitsOf(kind, 3)) + Reverse(BitsOf(version, 3)), 3) == Some((version, body + Reverse(BitsOf(kind, 3))))
  {
    ThreeBitsBack(kind, body);
    ThreeBitsBack(version, body + Reverse(BitsOf(kind, 3)));
  }

  /** A header read from the top of the stack, then the length field below it. */
  lemma OperatorRead(body: seq<int>, rk: seq<int>, rv: seq<int>, version: int, kind: int, length: int, below: seq<int>)
    requires Decimal(body + rk, 3) == Some((kind, body)) && kind != 4
    requires Decimal(body + rk + rv, 3) == Some((version, body + rk))
    requires LengthField(body) == Some((length, below))
    ensures Packet(body + rk + rv) == Some((Token(version, kind, length), below))
  {
  }

  /** A header read from the top of the stack, then the literal below it. */
  lemma LiteralRead(body: seq<int>, rk: seq<int>, rv: seq<int>, version: int, value: int, below: seq<int>)
    requires Decimal(body + rk, 3) == Some((4, body))
    requires Decimal(body + rk + rv, 3) == Some((version, body + rk))
    requires Literal(body) == Some((value, below))
    ensures Packet(body + rk + rv) == Some((Token(version, 4, value), below))
  {
  }

  /** An operator packet pushed onto any bits is read back as its token, leaving those bits. */
  lemma OperatorRoundTrip(version: nat, kind: nat, lengthType: int, length: nat, below: seq<int>)
    requires version < 8 && kind < 8 && kind != 4 && (lengthType == 0 || lengthType == 1)
    requires length < Pow2(Width(lengthType)) && IsBits(below)
    ensures Packet(below + Reverse(OperatorBits(version, kind, lengthType, length))) == Some((Token(version, kind, length), below))
  {
    var rl := Reverse(BitsOf(length, Width(lengthType)));
    var rk, rv := Reverse(BitsOf(kind, 3)), Reverse(BitsOf(version, 3));
    var body := below + rl + [lengthType];
    OperatorStacked(version, kind, lengthType, length);
    Assoc(below, rl, [lengthType], rk, rv);
    LengthBack(lengthType, length, below);
    HeaderBack(version, kind, body);
    OperatorRead(body, rk, rv, version, kind, length, below);
  }

  /** A last group (lead bit 0, then four bits) pushed onto any bits is read back as the literal's value. */
  lemma OneGroup(value: nat, below: seq<int>)
    requires value < 16 && IsBits(below)
    ensures Literal(below + Reverse(BitsOf(value, 4)) + [0]) == Some((value, below))
    ensures IsBits(below + Reverse(BitsOf(value, 4)) + [0])
  {
    Pow2Small();
    var g := BitsOf(value, 4);
    var s1 := below + Reverse(g);
    BitsOfValue(value, 4);
    PushedBits(below, g);
    var s2 := s1 + [0];
    SnocBits(s1, 0);
    assert s2[..|s2| - 1] == s1;
    assert s2[..|s2| - 5] == below;
    PoppedSuffix(below, Reverse(g), 4);
    PopsInStreamOrder(g, 4);
    assert g[..4] == g;
    assert Groups(s2) == Some((g, below));
  }

  /** A one-group literal packet pushed onto any bits is read back as its token, leaving those bits. */
  lemma LiteralRoundTrip(version: nat, value: nat, below: seq<int>)
    requires version < 8 && value < 16 && IsBits(below)
    ensures Packet(below + Reverse(LiteralBits(version, value))) == Some((Token(version, 4, value), below))
  {
    var rg := Reverse(BitsOf(value, 4));
    var rk, rv := Reverse(BitsOf(4, 3)), Reverse(BitsOf(version, 3));
    var body := below + rg + [0];
    LiteralStacked(version, value);
    Assoc(below, rg, [0], rk, rv);
    OneGroup(value, below);
    HeaderBack(version, 4, body);
    LiteralRead(body, rk, rv, version, value, below);
  }

  /** Reversed packets pushed one after another are bits. */
  lemma StackBits(a: seq<int>, b: seq<int>)
    requires IsBits(a) && IsBits(b)
    ensures IsBits(Reverse(a)) && IsBits(Reverse(b) + Reverse(a))
  {
    PushedBits([], a);
    PushedBits(Reverse(b), a);
    PushedBits([], b);
    assert [] + Reverse(a) == Reverse(a);
  }

  /** Packets in stream order are stacked with the first one on top. */
  lemma Stacked(p1: seq<int>, p2: seq<int>, p3: seq<int>, pad: seq<int>)
    ensures Reverse(p1 + p2 + p3 + pad) == Reverse(pad) + Reverse(p3) + Reverse(p2) + Reverse(p1)
  {
    ReverseConcat(p1 + p2 + p3, pad);
    ReverseConcat(p1 + p2, p3);
    ReverseConcat(p1, p2);
  }

  /** Those stacked packets, all but the top one, are bits. */
  lemma StackedBits(p2: seq<int>, p3: seq<int>, pad: seq<int>)
    requires IsBits(p2) && IsBits(p3) && IsBits(pad)
    ensures IsBits(Reverse(pad)) && IsBits(Reverse(pad) + Reverse(p3)) && IsBits(Reverse(pad) + Reverse(p3) + Reverse(p2))
  {
    StackBits(pad, p3);
    PushedBits(Reverse(pad) + Reverse(p3), p2);
  }

  /** A readable packet on top: its token, then the packets below it. */
  lemma PacketsStep(s: seq<int>, t: Token, rest: seq<int>)
    requires Packet(s) == Some((t, rest))
    ensures Packets(s) == [t] + Packets(rest)
  {
  }

  /** Three packets read one after another, then a rest that holds no packet. */
  lemma ThreePackets(below: seq<int>, r3: seq<int>, r2: seq<int>, r1: seq<int>, t1: Token, t2: Token, t3: Token)
    requires Packet(below + r3 + r2 + r1) == Some((t1, below + r3 + r2))
    requires Packet(below + r3 + r2) == Some((t2, below + r3))
    requires Packet(below + r3) == Some((t3, below))
    requires Packets(below) == []
    ensures Packets(below + r3 + r2 + r1) == [t1, t2, t3]
  {
    PacketsStep(below + r3 + r2 + r1, t1, below + r3 + r2);
    PacketsStep(below + r3 + r2, t2, below + r3);
    PacketsStep(below + r3, t3, below);
    assert [t1] + ([t2] + ([t3] + [])) == [t1, t2, t3];
  }

  /** `parse` of a text whose stream holds three packets: the tokens first-parsed last. */
  lemma ParseThree(d: string, stream: seq<int>, t1: Token, t2: Token, t3: Token)
    requires Stream(d) == Some(stream) && Packets(Reverse(stream)) == [t1, t2, t3]
    ensures Parse(d) == Some([t3, t2, t1])
  {
    assert [t1, t2, t3][1..] == [t2, t3] && [t2, t3][1..] == [t3] && [t3][1..] == [];
    assert Reverse([t1, t2, t3]) == [t3, t2, t1];
  }

  // Reading the text.

  /** The stream of a text is its first digit's nibble, then the stream of the rest. */
  lemma StreamCons(s: string)
    requires s != [] && Nibble(s[0]).Some? && Stream(s[1..]).Some?
    ensures Stream(s) == Some(Nibble(s[0]).value + Stream(s[1..]).value)
  {
  }

  /** The few bit patterns of the provided tests. */
  lemma BitsOfSmall()
    ensures BitsOf(6, 3) == [1, 1, 0] && BitsOf(0, 3) == [0, 0, 0] && BitsOf(4, 3) == [1, 0, 0] && BitsOf(2, 3) == [0, 1, 0]
    ensures BitsOf(5, 3) == [1, 0, 1] && BitsOf(3, 3) == [0, 1, 1] && BitsOf(1, 3) == [0, 0, 1]
    ensures BitsOf(1, 4) == [0, 0, 0, 1] && BitsOf(2, 4) == [0, 0, 1, 0] && BitsOf(6, 4) == [0, 1, 1, 0] && BitsOf(9, 4) == [1, 0, 0, 1]
  {
    assert BitsOf(0, 1) == [0] && BitsOf(1, 1) == [1];
    assert BitsOf(0, 2) == [0, 0] && BitsOf(1, 2) == [0, 1] && BitsOf(2, 2) == [1, 0] && BitsOf(3, 2) == [1, 1];
    assert BitsOf(0, 3) == [0, 0, 0] && BitsOf(1, 3) == [0, 0, 1] && BitsOf(2, 3) == [0, 1, 0] && BitsOf(3, 3) == [0, 1, 1];
    assert BitsOf(4, 3) == [1, 0, 0] && BitsOf(5, 3) == [1, 0, 1] && BitsOf(6, 3) == [1, 1, 0];
    assert BitsOf(1, 4) == [0, 0, 0, 1] && BitsOf(2, 4) == [0, 0, 1, 0] && BitsOf(6, 4) == [0, 1, 1, 0];
    assert BitsOf(4, 3) == [1, 0, 0];
    assert BitsOf(9, 4) == [1, 0, 0, 1];
  }

  /** The length fields of the provided tests. */
  lemma LengthsSmall()
    ensures BitsOf(2, 11) == [0, 0, 0, 0, 0, 0, 0, 0, 0, 1, 0]
    ensures BitsOf(22, 15) == [0, 0, 0, 0, 0, 0, 0, 0, 0, 0, 1, 0, 1, 1, 0]
  {
    assert BitsOf(0, 8) == [0, 0, 0, 0, 0, 0, 0, 0];
    assert BitsOf(0, 9) == [0, 0, 0, 0, 0, 0, 0, 0, 0];
    assert BitsOf(1, 10) == [0, 0, 0, 0, 0, 0, 0, 0, 0, 1];
    assert BitsOf(0, 10) == [0, 0, 0, 0, 0, 0, 0, 0, 0, 0];
    assert BitsOf(1, 11) == [0, 0, 0, 0, 0, 0, 0, 0, 0, 0, 1];
    assert BitsOf(2, 12) == [0, 0, 0, 0, 0, 0, 0, 0, 0, 0, 1, 0];
    assert BitsOf(5, 13) == [0, 0, 0, 0, 0, 0, 0, 0, 0, 0, 1, 0, 1];
    assert BitsOf(11, 14) == [0, 0, 0, 0, 0, 0, 0, 0, 0, 0, 1, 0, 1, 1];
  }

  // The first provided test: C200B40A82, a sum of the literals 1 and 2.

  lemma SumDigits2(d: string)
    requires d == "0A82"
    ensures Stream(d) == Some([0, 0, 0, 0] + ([1, 0, 1, 0] + ([1, 0, 0, 0] + ([0, 0, 1, 0] + ([])))))
  {
    assert d[4..] == [];
    assert d[3..][0] == '2' && d[3..][1..] == d[4..];
    StreamCons(d[3..]);
    assert d[2..][0] == '8' && d[2..][1..] == d[3..];
    StreamCons(d[2..]);
    assert d[1..][0] == 'A' && d[1..][1..] == d[2..];
    StreamCons(d[1..]);
    assert d[0..][0] == '0' && d[0..][1..] == d[1..];
    StreamCons(d[0..]);
  }

  lemma SumDigits1(d: string)
    requires d == "0B40A82"
    ensures Stream(d) == Some([0, 0, 0, 0] + ([1, 0, 1, 1] + ([0, 1, 0, 0] + (([0, 0, 0, 0] + ([1, 0, 1, 0] + ([1, 0, 0, 0] + ([0, 0, 1, 0] + ([])))))))))
  {
    assert d[3..] == "0A82";
    SumDigits2(d[3..]);
    assert d[2..][0] == '4' && d[2..][1..] == d[3..];
    StreamCons(d[2..]);
    assert d[1..][0] == 'B' && d[1..][1..] == d[2..];
    StreamCons(d[1..]);
    assert d[0..][0] == '0' && d[0..][1..] == d[1..];
    StreamCons(d[0..]);
  }

  lemma SumDigits0(d: string)
    requires d == "C200B40A82"
    ensures Stream(d) == Some([1, 1, 0, 0] + ([0, 0, 1, 0] + ([0, 0, 0, 0] + (([0, 0, 0, 0] + ([1, 0, 1, 1] + ([0, 1, 0, 0] + (([0, 0, 0, 0] + ([1, 0, 1, 0] + ([1, 0, 0, 0] + ([0, 0, 1, 0] + ([])))))))))))))
  {
    assert d[3..] == "0B40A82";
    SumDigits1(d[3..]);
    assert d[2..][0] == '0' && d[2..][1..] == d[3..];
    StreamCons(d[2..]);
    assert d[1..][0] == '2' && d[1..][1..] == d[2..];
    StreamCons(d[1..]);
    assert d[0..][0] == 'C' && d[0..][1..] == d[1..];
    StreamCons(d[0..]);
  }

  lemma SumNibbles()
    ensures [1, 1, 0, 0] + ([0, 0, 1, 0] + ([0, 0, 0, 0] + (([0, 0, 0, 0] + ([1, 0, 1, 1] + ([0, 1, 0, 0] + (([0, 0, 0, 0] + ([1, 0, 1, 0] + ([1, 0, 0, 0] + ([0, 0, 1, 0] + ([])))))))))))) == [1, 1, 0, 0, 0, 0, 1, 0, 0, 0, 0, 0, 0, 0, 0, 0, 1, 0, 1, 1, 0, 1, 0, 0, 0, 0, 0, 0, 1, 0, 1, 0, 1, 0, 0, 0, 0, 0, 1, 0]
  {
  }

  lemma SumPacketBits()
    ensures OperatorBits(6, 0, 1, 2) + LiteralBits(6, 1) + LiteralBits(2, 2) + [] == [1, 1, 0, 0, 0, 0, 1, 0, 0, 0, 0, 0, 0, 0, 0, 0, 1, 0] + [1, 1, 0, 1, 0, 0, 0, 0, 0, 0, 1] + [0, 1, 0, 1, 0, 0, 0, 0, 0, 1, 0]
  {
    BitsOfSmall();
    LengthsSmall();
  }

  lemma SumPacketsFlat()
    ensures [1, 1, 0, 0, 0, 0, 1, 0, 0, 0, 0, 0, 0, 0, 0, 0, 1, 0] + [1, 1, 0, 1, 0, 0, 0, 0, 0, 0, 1] + [0, 1, 0, 1, 0, 0, 0, 0, 0, 1, 0] == [1, 1, 0, 0, 0, 0, 1, 0, 0, 0, 0, 0, 0, 0, 0, 0, 1, 0, 1, 1, 0, 1, 0, 0, 0, 0, 0, 0, 1, 0, 1, 0, 1, 0, 0, 0, 0, 0, 1, 0]
  {
  }

  /** The transmission is an operator packet (version 6, class 0, a count of 2) then the literals 1 and 2. */
  lemma SumStream(d: string)
    requires d == "C200B40A82"
    ensures Stream(d) == Some(OperatorBits(6, 0, 1, 2) + LiteralBits(6, 1) + LiteralBits(2, 2) + [])
  {
    SumDigits0(d);
    SumNibbles();
    SumPacketsFlat();
    SumPacketBits();
  }

  /** `parse` leaves the sum on top of the two literals, the literal 1 above the literal 2. */
  lemma SumTokens(d: string)
    requires d == "C200B40A82"
    ensures Parse(d) == Some([Token(2, 4, 2), Token(6, 4, 1), Token(6, 0, 2)])
  {
    var p1, p2, p3 := OperatorBits(6, 0, 1, 2), LiteralBits(6, 1), LiteralBits(2, 2);
    SumStream(d);
    SumLiteralsBits();
    Stacked(p1, p2, p3, []);
    StackedBits(p2, p3, []);
    var r: seq<int> := Reverse([]);
    Pow2Small();
    OperatorRoundTrip(6, 0, 1, 2, r + Reverse(p3) + Reverse(p2));
    LiteralRoundTrip(6, 1, r + Reverse(p3));
    LiteralRoundTrip(2, 2, r);
    assert Packets(r) == [];
    ThreePackets(r, Reverse(p3), Reverse(p2), Reverse(p1), Token(6, 0, 2), Token(6, 4, 1), Token(2, 4, 2));
    ParseThree(d, p1 + p2 + p3 + [], Token(6, 0, 2), Token(6, 4, 1), Token(2, 4, 2));
  }

  lemma SumLiteralsBits()
    ensures IsBits(LiteralBits(6, 1)) && IsBits(LiteralBits(2, 2)) && IsBits([])
  {
    BitsOfSmall();
  }

  lemma SumCalc()
    ensures BitsCalculator.Calc([Token(2, 4, 2), Token(6, 4, 1), Token(6, 0, 2)]) == BitsCalculator.Ok((3, []))
  {
    var t1, t2, t3 := Token(6, 0, 2), Token(6, 4, 1), Token(2, 4, 2);
    BitsCalculator.LiteralOnTop([t3], t2);
    BitsCalculator.LiteralOnTop([], t3);
    assert [] + [t3] == [t3] && [t3] + [t2] == [t3, t2];
    assert BitsCalculator.CalcAll([]) == BitsCalculator.Ok([]);
    assert [2] + [] == [2];
    assert BitsCalculator.CalcAll([t3]) == BitsCalculator.Ok([2]);
    BitsCalculator.CalcAllLiteral([t3], t2, [2]);
    assert [t3, t2, t1][..2] == [t3, t2];
    assert BitsCalculator.Sum([1, 2]) == 3 by {
      assert [1, 2][1..] == [2];
      assert [2][1..] == [];
    }
  }

  /** `calculate(&mut parse("C200B40A82"))` is 3. */
  lemma SumVector()
    ensures Parse("C200B40A82").Some? && BitsCalculator.Calc(Parse("C200B40A82").value) == BitsCalculator.Ok((3, []))
  {
    SumTokens("C200B40A82");
    SumCalc();
  }

  // The second provided test: 04005AC33890, a product of the literals 6 and 9.

  lemma ProductDigits2(d: string)
    requires d == "3890"
    ensures Stream(d) == Some([0, 0, 1, 1] + ([1, 0, 0, 0] + ([1, 0, 0, 1] + ([0, 0, 0, 0] + ([])))))
  {
    assert d[4..] == [];
    assert d[3..][0] == '0' && d[3..][1..] == d[4..];
    StreamCons(d[3..]);
    assert d[2..][0] == '9' && d[2..][1..] == d[3..];
    StreamCons(d[2..]);
    assert d[1..][0] == '8' && d[1..][1..] == d[2..];
    StreamCons(d[1..]);
    assert d[0..][0] == '3' && d[0..][1..] == d[1..];
    StreamCons(d[0..]);
  }

  lemma ProductDigits1(d: string)
    requires d == "5AC33890"
    ensures Stream(d) == Some([0, 1, 0, 1] + ([1, 0, 1, 0] + ([1, 1, 0, 0] + ([0, 0, 1, 1] + (([0, 0, 1, 1] + ([1, 0, 0, 0] + ([1, 0, 0, 1] + ([0, 0, 0, 0] + ([]))))))))))
  {
    assert d[4..] == "3890";
    assert d[4..] == "3890";
    ProductDigits2(d[4..]);
    assert d[3..][0] == '3' && d[3..][1..] == d[4..];
    StreamCons(d[3..]);
    assert d[2..][0] == 'C' && d[2..][1..] == d[3..];
    StreamCons(d[2..]);
    assert d[1..][0] == 'A' && d[1..][1..] == d[2..];
    StreamCons(d[1..]);
    assert d[0..][0] == '5' && d[0..][1..] == d[1..];
    StreamCons(d[0..]);
  }

  lemma ProductDigits0(d: string)
    requires d == "04005AC33890"
    ensures Stream(d) == Some([0, 0, 0, 0] + ([0, 1, 0, 0] + ([0, 0, 0, 0] + ([0, 0, 0, 0] + (([0, 1, 0, 1] + ([1, 0, 1, 0] + ([1, 1, 0, 0] + ([0, 0, 1, 1] + (([0, 0, 1, 1] + ([1, 0, 0, 0] + ([1, 0, 0, 1] + ([0, 0, 0, 0] + ([])))))))))))))))
  {
    assert d[4..] == "5AC33890";
    assert d[4..] == "5AC33890";
    ProductDigits1(d[4..]);
    assert d[3..][0] == '0' && d[3..][1..] == d[4..];
    StreamCons(d[3..]);
    assert d[2..][0] == '0' && d[2..][1..] == d[3..];
    StreamCons(d[2..]);
    assert d[1..][0] == '4' && d[1..][1..] == d[2..];
    StreamCons(d[1..]);
    assert d[0..][0] == '0' && d[0..][1..] == d[1..];
    StreamCons(d[0..]);
  }

  /** Four nibbles in front of any bits, regrouped. */
  lemma FourNibbles(n0: seq<int>, n1: seq<int>, n2: seq<int>, n3: seq<int>, t: seq<int>)
    ensures n0 + (n1 + (n2 + (n3 + t))) == (n0 + n1 + n2 + n3) + t
  {
  }

  /** The packet boundaries of the second test, against its 16-bit groups of digits. */
  lemma Regroup(a0: seq<int>, a1: seq<int>, b0: seq<int>, b1: seq<int>, b: seq<int>, pad: seq<int>)
    ensures (a0 + a1) + (b0 + b1) + b + pad == a0 + ((a1 + b0) + ((b1 + b + pad) + []))
  {
  }

  lemma ProductNibbles()
    ensures [0, 0, 0, 0] + ([0, 1, 0, 0] + ([0, 0, 0, 0] + ([0, 0, 0, 0] + (([0, 1, 0, 1] + ([1, 0, 1, 0] + ([1, 1, 0, 0] + ([0, 0, 1, 1] + (([0, 0, 1, 1] + ([1, 0, 0, 0] + ([1, 0, 0, 1] + ([0, 0, 0, 0] + ([])))))))))))))) == [0, 0, 0, 0, 0, 1, 0, 0, 0, 0, 0, 0, 0, 0, 0, 0, 0, 1, 0, 1, 1, 0] + [1, 0, 1, 1, 0, 0, 0, 0, 1, 1, 0] + [0, 1, 1, 1, 0, 0, 0, 1, 0, 0, 1] + [0, 0, 0, 0]
  {
    FourNibbles([0, 0, 1, 1], [1, 0, 0, 0], [1, 0, 0, 1], [0, 0, 0, 0], []);
    assert [0, 0, 1, 1] + [1, 0, 0, 0] + [1, 0, 0, 1] + [0, 0, 0, 0] == [0, 0, 1, 1, 1, 0, 0, 0, 1, 0, 0, 1, 0, 0, 0, 0];
    FourNibbles([0, 1, 0, 1], [1, 0, 1, 0], [1, 1, 0, 0], [0, 0, 1, 1], [0, 0, 1, 1, 1, 0, 0, 0, 1, 0, 0, 1, 0, 0, 0, 0] + []);
    assert [0, 1, 0, 1] + [1, 0, 1, 0] + [1, 1, 0, 0] + [0, 0, 1, 1] == [0, 1, 0, 1, 1, 0, 1, 0, 1, 1, 0, 0, 0, 0, 1, 1];
    FourNibbles([0, 0, 0, 0], [0, 1, 0, 0], [0, 0, 0, 0], [0, 0, 0, 0], [0, 1, 0, 1, 1, 0, 1, 0, 1, 1, 0, 0, 0, 0, 1, 1] + ([0, 0, 1, 1, 1, 0, 0, 0, 1, 0, 0, 1, 0, 0, 0, 0] + []));
    assert [0, 0, 0, 0] + [0, 1, 0, 0] + [0, 0, 0, 0] + [0, 0, 0, 0] == [0, 0, 0, 0, 0, 1, 0, 0, 0, 0, 0, 0, 0, 0, 0, 0];
    assert [0, 0, 0, 0, 0, 1, 0, 0, 0, 0, 0, 0, 0, 0, 0, 0, 0, 1, 0, 1, 1, 0] == [0, 0, 0, 0, 0, 1, 0, 0, 0, 0, 0, 0, 0, 0, 0, 0] + [0, 1, 0, 1, 1, 0];
    assert [1, 0, 1, 1, 0, 0, 0, 0, 1, 1, 0] == [1, 0, 1, 1, 0, 0, 0, 0, 1, 1] + [0];
    assert [0, 1, 0, 1, 1, 0, 1, 0, 1, 1, 0, 0, 0, 0, 1, 1] == [0, 1, 0, 1, 1, 0] + [1, 0, 1, 1, 0, 0, 0, 0, 1, 1];
    assert [0, 0, 1, 1, 1, 0, 0, 0, 1, 0, 0, 1, 0, 0, 0, 0] == [0] + [0, 1, 1, 1, 0, 0, 0, 1, 0, 0, 1] + [0, 0, 0, 0];
    Regroup([0, 0, 0, 0, 0, 1, 0, 0, 0, 0, 0, 0, 0, 0, 0, 0], [0, 1, 0, 1, 1, 0], [1, 0, 1, 1, 0, 0, 0, 0, 1, 1], [0], [0, 1, 1, 1, 0, 0, 0, 1, 0, 0, 1], [0, 0, 0, 0]);
  }

  lemma ProductPacketBits()
    ensures OperatorBits(0, 1, 0, 22) + LiteralBits(5, 6) + LiteralBits(3, 9) + [0, 0, 0, 0] == [0, 0, 0, 0, 0, 1, 0, 0, 0, 0, 0, 0, 0, 0, 0, 0, 0, 1, 0, 1, 1, 0] + [1, 0, 1, 1, 0, 0, 0, 0, 1, 1, 0] + [0, 1, 1, 1, 0, 0, 0, 1, 0, 0, 1] + [0, 0, 0, 0]
  {
    BitsOfSmall();
    LengthsSmall();
  }

  /** The transmission is an operator packet (version 0, class 1, a bit length of 22), the literals 6 and 9, and four bits of padding. */
  lemma ProductStream(d: string)
    requires d == "04005AC33890"
    ensures Stream(d) == Some(OperatorBits(0, 1, 0, 22) + LiteralBits(5, 6) + LiteralBits(3, 9) + [0, 0, 0, 0])
  {
    ProductDigits0(d);
    ProductNibbles();
    ProductPacketBits();
  }

  /** Padding too short for a header ends the packet loop. */
  lemma PaddingEnds()
    ensures Packets(Reverse([0, 0, 0, 0])) == []
  {
    assert Reverse([0, 0, 0, 0]) == [0, 0, 0, 0] by {
      assert [0, 0, 0, 0][1..] == [0, 0, 0];
      assert [0, 0, 0][1..] == [0, 0];
      assert [0, 0][1..] == [0];
    }
    var s: seq<int> := [0, 0, 0, 0];
    assert s[..3] == [0, 0, 0] && s[..3][..2] == [0, 0] && s[..3][..2][..1] == [0];
    assert Decimal(s, 3).value.1 == [0];
    assert [0][..0] == [];
    assert Decimal([0], 3) == None;
  }

  /** `parse` leaves the product on top of the two literals, the literal 6 above the literal 9. */
  lemma ProductTokens(d: string)
    requires d == "04005AC33890"
    ensures Parse(d) == Some([Token(3, 4, 9), Token(5, 4, 6), Token(0, 1, 22)])
  {
    var p1, p2, p3, pad := OperatorBits(0, 1, 0, 22), LiteralBits(5, 6), LiteralBits(3, 9), [0, 0, 0, 0];
    ProductStream(d);
    ProductLiteralsBits();
    Stacked(p1, p2, p3, pad);
    StackedBits(p2, p3, pad);
    var r := Reverse(pad);
    Pow2Small();
    OperatorRoundTrip(0, 1, 0, 22, r + Reverse(p3) + Reverse(p2));
    LiteralRoundTrip(5, 6, r + Reverse(p3));
    LiteralRoundTrip(3, 9, r);
    PaddingEnds();
    ThreePackets(r, Reverse(p3), Reverse(p2), Reverse(p1), Token(0, 1, 22), Token(5, 4, 6), Token(3, 4, 9));
    ParseThree(d, p1 + p2 + p3 + pad, Token(0, 1, 22), Token(5, 4, 6), Token(3, 4, 9));
  }

  lemma ProductLiteralsBits()
    ensures IsBits(LiteralBits(5, 6)) && IsBits(LiteralBits(3, 9)) && IsBits([0, 0, 0, 0])
  {
    BitsOfSmall();
  }

  lemma ProductCalc()
    ensures BitsCalculator.Calc([Token(3, 4, 9), Token(5, 4, 6), Token(0, 1, 22)]) == BitsCalculator.Ok((54, []))
  {
    var t1, t2, t3 := Token(0, 1, 22), Token(5, 4, 6), Token(3, 4, 9);
    BitsCalculator.LiteralOnTop([t3], t2);
    BitsCalculator.LiteralOnTop([], t3);
    assert [] + [t3] == [t3] && [t3] + [t2] == [t3, t2];
    assert BitsCalculator.CalcAll([]) == BitsCalculator.Ok([]);
    assert [9] + [] == [9];
    assert BitsCalculator.CalcAll([t3]) == BitsCalculator.Ok([9]);
    BitsCalculator.CalcAllLiteral([t3], t2, [9]);
    assert [t3, t2, t1][..2] == [t3, t2];
    assert BitsCalculator.Product([6, 9]) == 54 by {
      assert [6, 9][1..] == [9];
      assert [9][1..] == [];
    }
  }

  /** `calculate(&mut parse("04005AC33890"))` is 54. */
  lemma ProductVector()
    ensures Parse("04005AC33890").Some? && BitsCalculator.Calc(Parse("04005AC33890").value) == BitsCalculator.Ok((54, []))
  {
    ProductTokens("04005AC33890");
    ProductCalc();
  }
}
