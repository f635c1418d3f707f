/**
 * `calculate` of 2021/day16/src/calculator.rs: the token stack that
 * `parse` leaves (first-parsed token on top) is evaluated recursively,
 * every call popping from the same vector.
 */
module BitsCalculator {
  import BitsParser

  type Token = BitsParser.Token

  datatype Fault =
    | Empty          // `tokens.pop()?` on an empty stack: `calculate` returns None
    | Unwrap         // a sub-expression's None unwrapped
    | NoValues       // minimum or maximum of no values
    | BadClass(kind: int)

  datatype Result<T> = Ok(value: T) | Err(fault: Fault)
  {
    predicate IsFailure() { Err? }
    function PropagateFailure<U>(): Result<U>
      requires Err?
    {
      Err(fault)
    }
    function Extract(): T
      requires Ok?
    {
      value
    }
  }

  function Sum(vs: seq<int>): int
  {
    if vs == [] then 0 else vs[0] + Sum(vs[1..])
  }

  function Product(vs: seq<int>): int
  {
    if vs == [] then 1 else vs[0] * Product(vs[1..])
  }

  function Min(vs: seq<int>): int
    requires vs != []
  {
    if |vs| == 1 then vs[0] else var m := Min(vs[1..]); if vs[0] <= m then vs[0] else m
  }

  function Max(vs: seq<int>): int
    requires vs != []
  {
    if |vs| == 1 then vs[0] else var m := Max(vs[1..]); if vs[0] >= m then vs[0] else m
  }

  /** The first element of the sorted values is one of them and no larger than any. */
  lemma {:induction false} MinIsLeast(vs: seq<int>)
    requires vs != []
    ensures Min(vs) in vs
    ensures forall i :: 0 <= i < |vs| ==> Min(vs) <= vs[i]
    decreases |vs|
  {
    if |vs| > 1 {
      MinIsLeast(vs[1..]);
      assert forall i :: 1 <= i < |vs| ==> vs[i] == vs[1..][i - 1];
    }
  }

  /** The last element of the sorted values is one of them and no smaller than any. */
  lemma {:induction false} MaxIsGreatest(vs: seq<int>)
    requires vs != []
    ensures Max(vs) in vs
    ensures forall i :: 0 <= i < |vs| ==> vs[i] <= Max(vs)
    decreases |vs|
  {
    if |vs| > 1 {
      MaxIsGreatest(vs[1..]);
      assert forall i :: 1 <= i < |vs| ==> vs[i] == vs[1..][i - 1];
    }
  }

  /** A sub-expression's result as `unwrap` sees it: None becomes a panic. */
  function Unwrapped<T>(r: Result<T>): (u: Result<T>)
    ensures u != Err(Empty)
    ensures r.Ok? ==> u == r
  {
    if r == Err(Empty) then Err(Unwrap) else r
  }

  /**
   * `calculate` on the stack `ts` (top = last): the value and the stack
   * left.  Classes 0 to 3 keep evaluating sub-expressions until the stack
   * is empty; classes 5 to 7 evaluate exactly two.
   */
  function Calc(ts: seq<Token>): (r: Result<(int, seq<Token>)>)
    decreases |ts|, 0
    ensures r == Err(Empty) <==> ts == []
    ensures r.Ok? ==> |r.value.1| < |ts|
  {
    if ts == [] then Err(Empty)
    else
      var t := ts[|ts| - 1];
      var rest := ts[..|ts| - 1];
      if 0 <= t.kind <= 3 then
        var values :- CalcAll(rest);
        if t.kind == 0 then Ok((Sum(values), []))
        else if t.kind == 1 then Ok((Product(values), []))
        else if values == [] then Err(NoValues)
        else if t.kind == 2 then Ok((Min(values), []))
        else Ok((Max(values), []))
      else if t.kind == 4 then Ok((t.value, rest))
      else if 5 <= t.kind <= 7 then
        var first :- Unwrapped(Calc(rest));
        var second :- Unwrapped(Calc(first.1));
        var holds := if t.kind == 5 then first.0 > second.0 else if t.kind == 6 then first.0 < second.0 else first.0 == second.0;
        Ok((if holds then 1 else 0, second.1))
      else Err(BadClass(t.kind))
  }

  /** The `while tokens.len() > 0` loop: the values of the sub-expressions, until the stack is empty. */
  function CalcAll(ts: seq<Token>): (r: Result<seq<int>>)
    decreases |ts|, 1
    ensures r != Err(Empty)
  {
    if ts == [] then Ok([])
    else
      var v :- Calc(ts);
      var more :- CalcAll(v.1);
      Ok([v.0] + more)
  }

  /** A class-4 token on top evaluates to its value and pops only itself. */
  lemma LiteralOnTop(below: seq<Token>, t: Token)
    requires t.kind == 4
    ensures Calc(below + [t]) == Ok((t.value, below))
  {
    assert (below + [t])[..|below|] == below;
  }

  /**
   * Only classes 0 to 7 evaluate; sum, product, minimum and maximum leave the
   * stack empty, the minimum is one of the operands, and comparisons yield 0 or 1.
   */
  lemma CalcShape(ts: seq<Token>)
    requires Calc(ts).Ok?
    ensures 0 <= ts[|ts| - 1].kind <= 3 ==> Calc(ts).value.1 == []
    ensures 5 <= ts[|ts| - 1].kind <= 7 ==> Calc(ts).value.0 in {0, 1}
    ensures ts[|ts| - 1].kind == 2 ==>
              CalcAll(ts[..|ts| - 1]).Ok? && CalcAll(ts[..|ts| - 1]).value != [] && Calc(ts).value.0 in CalcAll(ts[..|ts| - 1]).value
    ensures 0 <= ts[|ts| - 1].kind <= 7
  {
    var t := ts[|ts| - 1];
    if t.kind == 2 {
      MinIsLeast(CalcAll(ts[..|ts| - 1]).value);
    }
  }

  /** The stack `Literals(vs)` pops the literals of vs in order. */
  function Literals(vs: seq<int>): (ts: seq<Token>)
    ensures |ts| == |vs|
  {
    if vs == [] then [] else Literals(vs[1..]) + [BitsParser.Token(0, 4, vs[0])]
  }

  /** With only literals below, the operand loop collects their values in order. */
  lemma {:induction false} OperandsOfLiterals(vs: seq<int>)
    ensures CalcAll(Literals(vs)) == Ok(vs)
    decreases |vs|
  {
    if vs != [] {
      var below, t := Literals(vs[1..]), BitsParser.Token(0, 4, vs[0]);
      assert Literals(vs) == below + [t];
      LiteralOnTop(below, t);
      OperandsOfLiterals(vs[1..]);
      CalcAllLiteral(below, t, vs[1..]);
      assert [vs[0]] + vs[1..] == vs;
    }
  }

  /** One round of the operand loop over a literal on top of a stack whose values are known. */
  lemma CalcAllLiteral(below: seq<Token>, t: Token, more: seq<int>)
    requires Calc(below + [t]) == Ok((t.value, below))
    requires CalcAll(below) == Ok(more)
    ensures CalcAll(below + [t]) == Ok([t.value] + more)
  {
  }

  /** A flat expression: an operator of class 0 to 3 over literals evaluates to the fold of their values. */
  lemma FlatOperator(op: Token, vs: seq<int>)
    requires 0 <= op.kind <= 3
    ensures var r := Calc(Literals(vs) + [op]);
            && (op.kind == 0 ==> r == Ok((Sum(vs), [])))
            && (op.kind == 1 ==> r == Ok((Product(vs), [])))
            && (op.kind == 2 ==> r == if vs == [] then Err(NoValues) else Ok((Min(vs), [])))
            && (op.kind == 3 ==> r == if vs == [] then Err(NoValues) else Ok((Max(vs), [])))
  {
    var ts := Literals(vs) + [op];
    assert ts[..|ts| - 1] == Literals(vs);
    OperandsOfLiterals(vs);
  }

  /** A comparison over two literals a and b (a popped first) yields 1 exactly when the relation holds. */
  lemma FlatComparison(op: Token, a: int, b: int)
    requires 5 <= op.kind <= 7
    ensures var holds := if op.kind == 5 then a > b else if op.kind == 6 then a < b else a == b;
            Calc(Literals([a, b]) + [op]) == Ok((if holds then 1 else 0, []))
  {
    var A, B := BitsParser.Token(0, 4, a), BitsParser.Token(0, 4, b);
    assert Literals([b]) == [B] by {
      assert [a, b][1..] == [b];
      assert [b][1..] == [];
    }
    assert Literals([a, b]) + [op] == [B, A, op] by {
      assert [a, b][1..] == [b];
    }
    LiteralOnTop([B], A);
    LiteralOnTop([], B);
    assert [B, A, op][..2] == [B, A];
    assert [] + [B] == [B];
  }

  /** The single-operator vectors of the unit tests. */
  lemma UnitVectors()
    ensures Calc(Literals([1, 3]) + [BitsParser.Token(0, 0, 0)]) == Ok((4, []))
    ensures Calc(Literals([1, 2, 3]) + [BitsParser.Token(0, 2, 0)]) == Ok((1, []))
    ensures Calc(Literals([2, 1]) + [BitsParser.Token(0, 5, 0)]) == Ok((1, []))
    ensures Calc(Literals([2, 2]) + [BitsParser.Token(0, 7, 0)]) == Ok((1, []))
  {
    FlatOperator(BitsParser.Token(0, 0, 0), [1, 3]);
    assert Sum([1, 3]) == 4 by {
      assert [1, 3][1..] == [3];
      assert [3][1..] == [];
    }
    FlatOperator(BitsParser.Token(0, 2, 0), [1, 2, 3]);
    assert Min([1, 2, 3]) == 1 by {
      assert [1, 2, 3][1..] == [2, 3];
      assert [2, 3][1..] == [3];
    }
    FlatComparison(BitsParser.Token(0, 5, 0), 2, 1);
    FlatComparison(BitsParser.Token(0, 7, 0), 2, 2);
  }

  class TokenStack {
    var tokens: seq<Token>

    constructor (tokens: seq<Token>)
      ensures this.tokens == tokens
    {
      this.tokens := tokens;
    }
  }

  /** The values collected so far, in front of the rest of the loop's result. */
  function Prepend(vs: seq<int>, r: Result<seq<int>>): Result<seq<int>>
  {
    if r.Err? then r else Ok(vs + r.value)
  }

  /**
   * `calculate`: pops the top token, evaluates its sub-expressions through
   * recursive calls on the same stack, and leaves the stack as `Calc` says.
   */
  method Calculate(st: TokenStack) returns (r: Result<int>)
    modifies st
    decreases |st.tokens|
    ensures Calc(old(st.tokens)).Ok? ==> r == Ok(Calc(old(st.tokens)).value.0) && st.tokens == Calc(old(st.tokens)).value.1
    ensures Calc(old(st.tokens)).Err? ==> r == Err(Calc(old(st.tokens)).fault)
  {
    if st.tokens == [] {
      return Err(Empty);
    }
    ghost var ts := st.tokens;
    var token := st.tokens[|st.tokens| - 1];
    st.tokens := st.tokens[..|st.tokens| - 1];
    ghost var rest := st.tokens;
    if 0 <= token.kind <= 3 {
      var values: seq<int> := [];
      PrependNothing(CalcAll(rest));
      while |st.tokens| > 0
        invariant |st.tokens| <= |rest|
        invariant CalcAll(rest) == Prepend(values, CalcAll(st.tokens))
        decreases |st.tokens|
      {
        ghost var here := st.tokens;
        var v := Calculate(st);
        if v.Err? {
          return Err(v.fault);
        }
        assert CalcAll(here) == Prepend([v.value], CalcAll(st.tokens));
        PrependTwice(values, [v.value], CalcAll(st.tokens));
        values := values + [v.value];
      }
      assert CalcAll(rest) == Ok(values + []);
      assert values + [] == values;
      if token.kind == 0 {
        r := Ok(Sum(values));
      } else if token.kind == 1 {
        r := Ok(Product(values));
      } else if values == [] {
        r := Err(NoValues);
      } else if token.kind == 2 {
        r := Ok(Min(values));
      } else {
        r := Ok(Max(values));
      }
    } else if token.kind == 4 {
      r := Ok(token.value);
    } else if 5 <= token.kind <= 7 {
      var first := Calculate(st);
      if first.Err? {
        return Err(if first.fault == Empty then Unwrap else first.fault);
      }
      var second := Calculate(st);
      if second.Err? {
        return Err(if second.fault == Empty then Unwrap else second.fault);
      }
      var holds := if token.kind == 5 then first.value > second.value else if token.kind == 6 then first.value < second.value else first.value == second.value;
      r := Ok(if holds then 1 else 0);
    } else {
      r := Err(BadClass(token.kind));
    }
  }

  lemma PrependNothing(r: Result<seq<int>>)
    ensures Prepend([], r) == r
  {
    if r.Ok? {
      assert [] + r.value == r.value;
    }
  }

  lemma PrependTwice(p: seq<int>, q: seq<int>, r: Result<seq<int>>)
    ensures Prepend(p, Prepend(q, r)) == Prepend(p + q, r)
  {
    if r.Ok? {
      assert p + (q + r.value) == (p + q) + r.value;
    }
  }
}
