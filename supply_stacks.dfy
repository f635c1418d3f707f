/**
 * Cargo stacks of day5/src/main.rs: a drawing of crate stacks, then move
 * instructions run on two copies of the stacks, by a crane that moves one
 * crate at a time (the CrateMover 9000) and by one that moves several at
 * once (the CrateMover 9001); the answer is the top crate of every stack.
 * Stacks are listed bottom crate first.
 */
module SupplyStacks {
  import Numbers
  import Text

  const UsizeMax: nat := 0xFFFF_FFFF_FFFF_FFFF

  type Stacks = seq<seq<char>>

  datatype Fault =
    | OutOfRange                  // an index past the end of a vector panics
    | Underflow                   // a `usize` subtraction below zero panics
    | BadInstruction(line: string)  // the `invalid instruction line` panic
    | NotANumber(piece: string)   // a `usize` parse fails and `?` returns the error

  datatype Result<T> = Ok(value: T) | Err(fault: Fault)

  /** The two cranes. */
  datatype Mover = OneAtATime | AllAtOnce

  function Reverse(s: seq<char>): (r: seq<char>)
    ensures |r| == |s| && forall i :: 0 <= i < |s| ==> r[i] == s[|s| - 1 - i]
  {
    if s == [] then [] else [s[|s| - 1]] + Reverse(s[..|s| - 1])
  }

  /** Reversing twice gives the crates back. */
  lemma ReverseReverse(s: seq<char>)
    ensures Reverse(Reverse(s)) == s
  {
  }

  /**
   * One instruction for one crane: the top `count` crates of stack `from`
   * go onto stack `to`, reversed by the crane that moves one at a time;
   * stacks are numbered from 1. The faults come in the order the source
   * evaluates: `from - 1`, the index, `len - count`, then `to - 1` and its
   * index.
   */
  function Move(stacks: Stacks, count: nat, from: nat, to: nat, mover: Mover): (r: Result<Stacks>)
    ensures r.Ok? <==> 1 <= from <= |stacks| && count <= |stacks[from - 1]| && 1 <= to <= |stacks|
    ensures r.Err? ==> r.fault == Failure(stacks, count, from, to)
    ensures r.Ok? ==> |r.value| == |stacks|
  {
    if from == 0 then Err(Underflow)
    else if from > |stacks| then Err(OutOfRange)
    else
      var len := |stacks[from - 1]|;
      if count > len then Err(Underflow)
      else
        var transit := stacks[from - 1][len - count..];
        var left := stacks[from - 1 := stacks[from - 1][..len - count]];
        if to == 0 then Err(Underflow)
        else if to > |left| then Err(OutOfRange)
        else Ok(left[to - 1 := left[to - 1] + if mover == OneAtATime then Reverse(transit) else transit])
  }

  /** The fault of a move that cannot be made. */
  function Failure(stacks: Stacks, count: nat, from: nat, to: nat): Fault
  {
    if from == 0 then Underflow
    else if from > |stacks| then OutOfRange
    else if count > |stacks[from - 1]| || to == 0 then Underflow
    else OutOfRange
  }

  /** The crates a move carries, in the order they land. */
  function Carried(stacks: Stacks, count: nat, from: nat, mover: Mover): seq<char>
    requires 1 <= from <= |stacks| && count <= |stacks[from - 1]|
  {
    var top := stacks[from - 1][|stacks[from - 1]| - count..];
    if mover == OneAtATime then Reverse(top) else top
  }

  /**
   * What a move does: the top `count` crates leave stack `from` and land
   * on stack `to` (reversed by the crane that moves one at a time, in order
   * by the other); every other stack is unchanged.
   */
  lemma MoveMeans(stacks: Stacks, count: nat, from: nat, to: nat, mover: Mover)
    requires Move(stacks, count, from, to, mover).Ok?
    ensures var r := Move(stacks, count, from, to, mover).value;
      var rest := stacks[from - 1][..|stacks[from - 1]| - count];
      var carried := Carried(stacks, count, from, mover);
      (from != to ==> r[from - 1] == rest && r[to - 1] == stacks[to - 1] + carried)
      && (from == to ==> r[to - 1] == rest + carried)
      && forall k :: 0 <= k < |stacks| && k != from - 1 && k != to - 1 ==> r[k] == stacks[k]
  {
  }

  /** All crates of all stacks. */
  function Crates(stacks: Stacks): multiset<char>
  {
    if stacks == [] then multiset{} else Crates(stacks[..|stacks| - 1]) + multiset(stacks[|stacks| - 1])
  }

  /** Replacing one stack replaces its crates among all the crates. */
  lemma {:induction false} CratesUpdate(stacks: Stacks, k: nat, s: seq<char>)
    requires k < |stacks|
    ensures Crates(stacks[k := s]) + multiset(stacks[k]) == Crates(stacks) + multiset(s)
    decreases |stacks|
  {
    var n := |stacks| - 1;
    var u := stacks[k := s];
    if k == n {
      assert u[..n] == stacks[..n];
    } else {
      CratesUpdate(stacks[..n], k, s);
      assert u[..n] == stacks[..n][k := s];
      assert u[n] == stacks[n] && stacks[..n][k] == stacks[k];
      calc {
        Crates(u) + multiset(stacks[k]);
        Crates(stacks[..n][k := s]) + multiset(stacks[n]) + multiset(stacks[k]);
        { Swap(Crates(stacks[..n][k := s]), multiset(stacks[n]), multiset(stacks[k])); }
        (Crates(stacks[..n][k := s]) + multiset(stacks[..n][k])) + multiset(stacks[n]);
        Crates(stacks[..n]) + multiset(s) + multiset(stacks[n]);
        Crates(stacks) + multiset(s);
      }
    }
  }

  lemma Swap(a: multiset<char>, b: multiset<char>, c: multiset<char>)
    ensures a + b + c == (a + c) + b
  {
  }

  /** A move keeps every crate: the crates of all stacks are the same before and after. */
  lemma MoveKeeps(stacks: Stacks, count: nat, from: nat, to: nat, mover: Mover)
    requires Move(stacks, count, from, to, mover).Ok?
    ensures Crates(Move(stacks, count, from, to, mover).value) == Crates(stacks)
  {
    var n := |stacks[from - 1]| - count;
    var carried := Carried(stacks, count, from, mover);
    CarriedKeeps(stacks, count, from, mover);
    Shuffle(stacks, from - 1, n, to - 1, carried);
    MoveShape(stacks, count, from, to, mover);
  }

  /** Stack k cut down to its first n crates, then `carried` put on stack j. */
  function Shifted(stacks: Stacks, k: nat, n: nat, j: nat, carried: seq<char>): Stacks
    requires k < |stacks| && n <= |stacks[k]| && j < |stacks|
  {
    var left := stacks[k := stacks[k][..n]];
    left[j := left[j] + carried]
  }

  /** A move that succeeds lifts the carried crates off stack `from` and drops them on stack `to`. */
  lemma MoveShape(stacks: Stacks, count: nat, from: nat, to: nat, mover: Mover)
    requires Move(stacks, count, from, to, mover).Ok?
    ensures Move(stacks, count, from, to, mover).value
      == Shifted(stacks, from - 1, |stacks[from - 1]| - count, to - 1, Carried(stacks, count, from, mover))
  {
  }

  /** The carried crates are the top `count` crates of stack `from`, in some order. */
  lemma CarriedKeeps(stacks: Stacks, count: nat, from: nat, mover: Mover)
    requires 1 <= from <= |stacks| && count <= |stacks[from - 1]|
    ensures multiset(Carried(stacks, count, from, mover)) == multiset(stacks[from - 1][|stacks[from - 1]| - count..])
  {
    ReverseKeeps(stacks[from - 1][|stacks[from - 1]| - count..]);
  }

  /** Lifting the crates above n off stack k and putting the same crates on stack j keeps all the crates. */
  lemma Shuffle(stacks: Stacks, k: nat, n: nat, j: nat, carried: seq<char>)
    requires k < |stacks| && n <= |stacks[k]| && j < |stacks| && multiset(carried) == multiset(stacks[k][n..])
    ensures Crates(Shifted(stacks, k, n, j, carried)) == Crates(stacks)
  {
    var left := stacks[k := stacks[k][..n]];
    LiftKeeps(stacks, k, n);
    DropKeeps(left, j, carried);
  }

  /** Taking the crates above position n off stack k takes them out of all the crates. */
  lemma LiftKeeps(stacks: Stacks, k: nat, n: nat)
    requires k < |stacks| && n <= |stacks[k]|
    ensures Crates(stacks[k := stacks[k][..n]]) + multiset(stacks[k][n..]) == Crates(stacks)
  {
    var rest := stacks[k][..n];
    assert stacks[k] == rest + stacks[k][n..];
    CratesUpdate(stacks, k, rest);
    assert (Crates(stacks[k := rest]) + multiset(stacks[k][n..])) + multiset(rest) == Crates(stacks) + multiset(rest);
    Cancel(Crates(stacks[k := rest]) + multiset(stacks[k][n..]), Crates(stacks), multiset(rest));
  }

  /** Putting crates on stack k adds them to all the crates. */
  lemma DropKeeps(stacks: Stacks, k: nat, carried: seq<char>)
    requires k < |stacks|
    ensures Crates(stacks[k := stacks[k] + carried]) == Crates(stacks) + multiset(carried)
  {
    var r := stacks[k := stacks[k] + carried];
    CratesUpdate(stacks, k, stacks[k] + carried);
    assert Crates(r) + multiset(stacks[k]) == (Crates(stacks) + multiset(carried)) + multiset(stacks[k]);
    Cancel(Crates(r), Crates(stacks) + multiset(carried), multiset(stacks[k]));
  }

  lemma Cancel(a: multiset<char>, b: multiset<char>, c: multiset<char>)
    requires a + c == b + c
    ensures a == b
  {
    forall x
      ensures a[x] == b[x]
    {
      assert (a + c)[x] == (b + c)[x];
    }
  }

  /** Reversing keeps the crates. */
  lemma {:induction false} ReverseKeeps(s: seq<char>)
    ensures multiset(Reverse(s)) == multiset(s)
  {
    if s != [] {
      ReverseKeeps(s[..|s| - 1]);
      assert s == s[..|s| - 1] + [s[|s| - 1]];
    }
  }

  /** `count` moves of a single crate, each by the crane that moves several at once. */
  function Singly(stacks: Stacks, count: nat, from: nat, to: nat): Result<Stacks>
    decreases count
  {
    if count == 0 then Ok(stacks)
    else
      match Move(stacks, 1, from, to, AllAtOnce)
      case Err(f) => Err(f)
      case Ok(next) => Singly(next, count - 1, from, to)
  }

  /**
   * The crane that moves one crate at a time does what its name says: on
   * two different stacks, its move of `count` crates is `count` moves of a
   * single crate.
   */
  lemma {:induction false} OneByOne(stacks: Stacks, count: nat, from: nat, to: nat)
    requires Move(stacks, count, from, to, OneAtATime).Ok? && from != to
    ensures Singly(stacks, count, from, to) == Move(stacks, count, from, to, OneAtATime)
    decreases count
  {
    if count > 0 {
      var next := Move(stacks, 1, from, to, AllAtOnce).value;
      FirstOfMany(stacks, count, from, to);
      OneByOne(next, count - 1, from, to);
      assert Singly(stacks, count, from, to) == Singly(next, count - 1, from, to);
    } else {
      var r := Move(stacks, 0, from, to, OneAtATime).value;
      MoveMeans(stacks, 0, from, to, OneAtATime);
      assert Reverse([]) == [];
      assert forall k :: 0 <= k < |stacks| ==> r[k] == stacks[k];
      assert r == stacks;
    }
  }

  /** Moving one crate, then the rest one at a time, is moving them all one at a time. */
  lemma FirstOfMany(stacks: Stacks, count: nat, from: nat, to: nat)
    requires Move(stacks, count, from, to, OneAtATime).Ok? && from != to && count > 0
    ensures var next := Move(stacks, 1, from, to, AllAtOnce);
      next.Ok? && Move(next.value, count - 1, from, to, OneAtATime) == Move(stacks, count, from, to, OneAtATime)
  {
    var s := stacks[from - 1];
    var len := |s|;
    var next := Move(stacks, 1, from, to, AllAtOnce).value;
    MoveMeans(stacks, 1, from, to, AllAtOnce);
    assert next[from - 1] == s[..len - 1];
    assert next[to - 1] == stacks[to - 1] + [s[len - 1]];
    var want := Move(stacks, count, from, to, OneAtATime).value;
    var got := Move(next, count - 1, from, to, OneAtATime).value;
    MoveMeans(stacks, count, from, to, OneAtATime);
    MoveMeans(next, count - 1, from, to, OneAtATime);
    assert s[..len - 1][..len - count] == s[..len - count];
    assert s[..len - 1][len - count..] == s[len - count..len - 1];
    ReverseLast(s, len - count);
    assert got[to - 1] == want[to - 1];
    assert got[from - 1] == want[from - 1];
    assert forall k :: 0 <= k < |stacks| ==> got[k] == want[k];
    assert |got| == |want|;
    assert got == want;
  }

  lemma ReverseLast(s: seq<char>, i: nat)
    requires i < |s|
    ensures Reverse(s[i..]) == [s[|s| - 1]] + Reverse(s[i..|s| - 1])
  {
    assert s[i..][..|s| - i - 1] == s[i..|s| - 1];
  }

  /** `filter_map(|x| x.pop())`: the top crate of every stack that has one. */
  function Tops(stacks: Stacks): (r: seq<char>)
    ensures |r| <= |stacks|
  {
    if stacks == [] then []
    else
      var last := stacks[|stacks| - 1];
      Tops(stacks[..|stacks| - 1]) + if last == [] then [] else [last[|last| - 1]]
  }

  /** The stacks that have crates. */
  function Filled(stacks: Stacks): nat
  {
    if stacks == [] then 0 else Filled(stacks[..|stacks| - 1]) + if stacks[|stacks| - 1] == [] then 0 else 1
  }

  /** One top per stack with crates. */
  lemma {:induction false} TopsCount(stacks: Stacks)
    ensures |Tops(stacks)| == Filled(stacks)
  {
    if stacks != [] {
      TopsCount(stacks[..|stacks| - 1]);
    }
  }

  /** With no empty stack, top k is the last crate of stack k. */
  lemma {:induction false} TopsMeans(stacks: Stacks)
    requires forall k :: 0 <= k < |stacks| ==> stacks[k] != []
    ensures |Tops(stacks)| == |stacks| && forall k :: 0 <= k < |stacks| ==> Tops(stacks)[k] == stacks[k][|stacks[k]| - 1]
  {
    if stacks != [] {
      var n := |stacks| - 1;
      var front := stacks[..n];
      assert forall k :: 0 <= k < n ==> front[k] == stacks[k];
      TopsMeans(front);
      var t := Tops(front);
      assert Tops(stacks) == t + [stacks[n][|stacks[n]| - 1]];
    }
  }

  /** An empty stack adds no top. */
  lemma TopsSkip(stacks: Stacks)
    ensures Tops(stacks + [[]]) == Tops(stacks)
  {
    assert (stacks + [[]])[..|stacks|] == stacks;
  }

  /** A crate `[x]` drawn at column c of a row: its letter sits at position 4c + 1. */
  predicate Crate(row: string, c: nat)
  {
    4 * c + 2 < |row| && row[4 * c] == '[' && row[4 * c + 2] == ']'
  }

  /** Column c of a row breaks the parse: a '[' too near the end, or a crate right of the last of n stacks. */
  predicate Broken(n: nat, row: string, c: nat)
  {
    4 * c < |row| && row[4 * c] == '[' && (4 * c + 2 >= |row| || (row[4 * c + 2] == ']' && c >= n))
  }

  /**
   * The `step_by(4)` loop over one row of the drawing, from column c on:
   * a crate at position 4c goes onto stack c; the index `tokens[i + 2]` and
   * the stack `cargo[i / 4]` panic when out of range.
   */
  function Layer(cargo: Stacks, row: string, c: nat): (r: Result<Stacks>)
    ensures r.Ok? ==> |r.value| == |cargo|
    decreases |row| - 4 * c
  {
    if 4 * c >= |row| then Ok(cargo)
    else if row[4 * c] != '[' then Layer(cargo, row, c + 1)
    else if 4 * c + 2 >= |row| then Err(OutOfRange)
    else if row[4 * c + 2] != ']' then Layer(cargo, row, c + 1)
    else if c >= |cargo| then Err(OutOfRange)
    else Layer(cargo[c := cargo[c] + [row[4 * c + 1]]], row, c + 1)
  }

  /**
   * What a row does: it fails exactly when some column from c on breaks;
   * otherwise every stack from c on gains the crate drawn in its column,
   * when there is one, and the other stacks are unchanged.
   */
  lemma {:induction false} LayerMeans(cargo: Stacks, row: string, c: nat)
    ensures Layer(cargo, row, c).Ok? <==> forall k :: c <= k ==> !Broken(|cargo|, row, k)
    ensures Layer(cargo, row, c).Ok? ==> forall k :: 0 <= k < |cargo| ==>
      Layer(cargo, row, c).value[k] == cargo[k] + if c <= k && Crate(row, k) then [row[4 * k + 1]] else []
    decreases |row| - 4 * c
  {
    if 4 * c < |row| {
      var next := if row[4 * c] == '[' && 4 * c + 2 < |row| && row[4 * c + 2] == ']' && c < |cargo|
        then cargo[c := cargo[c] + [row[4 * c + 1]]] else cargo;
      LayerMeans(next, row, c + 1);
      if Layer(cargo, row, c).Err? && !Broken(|cargo|, row, c) {
        var k :| c + 1 <= k && Broken(|cargo|, row, k);
      }
    } else {
      forall k | c <= k
        ensures !Broken(|cargo|, row, k)
      {
      }
    }
  }

  /** n empty stacks. */
  function Empty(n: nat): (r: Stacks)
    ensures |r| == n && forall k :: 0 <= k < n ==> r[k] == []
  {
    seq(n, k => [])
  }

  /** A line of white space only separates the drawing from the moves. */
  predicate Blank(line: string)
  {
    Text.Trim(line) == []
  }

  /**
   * The line loop of `parse_cargo` from line i on: the first row makes
   * one stack per four characters and one more, every row is layered on,
   * and a blank line ends the drawing. The result is the stacks, top crate
   * first, and the number of lines read.
   */
  function Draw(lines: seq<string>, i: nat, cargo: Stacks): (r: Result<(Stacks, nat)>)
    requires i <= |lines|
    ensures r.Ok? ==> i <= r.value.1 <= |lines|
    decreases |lines| - i
  {
    if i == |lines| then Ok((cargo, i))
    else if Blank(lines[i]) then Ok((cargo, i + 1))
    else
      var stacks := if cargo == [] then Empty(|lines[i]| / 4 + 1) else cargo;
      match Layer(stacks, lines[i], 0)
      case Err(f) => Err(f)
      case Ok(next) => Draw(lines, i + 1, next)
  }

  /** `parse_cargo`: the drawing, each stack then reversed so that its bottom crate comes first. */
  function Cargo(lines: seq<string>): (r: Result<(Stacks, nat)>)
    ensures r.Ok? ==> r.value.1 <= |lines|
  {
    match Draw(lines, 0, [])
    case Err(f) => Err(f)
    case Ok(drawn) => Ok((Reversed(drawn.0), drawn.1))
  }

  /** Every stack reversed. */
  function Reversed(stacks: Stacks): (r: Stacks)
    ensures |r| == |stacks| && forall k :: 0 <= k < |stacks| ==> r[k] == Reverse(stacks[k])
  {
    seq(|stacks|, k requires 0 <= k < |stacks| => Reverse(stacks[k]))
  }

  /** The index of the first blank line from i on, or the number of lines. */
  function Stop(lines: seq<string>, i: nat): (e: nat)
    requires i <= |lines|
    ensures i <= e <= |lines| && (e < |lines| ==> Blank(lines[e]))
    ensures forall j :: i <= j < e ==> !Blank(lines[j])
    decreases |lines| - i
  {
    if i == |lines| || Blank(lines[i]) then i else Stop(lines, i + 1)
  }

  /** The crates the rows draw in column k, top row first. */
  function Column(rows: seq<string>, k: nat): seq<char>
  {
    if rows == [] then []
    else (if Crate(rows[0], k) then [rows[0][4 * k + 1]] else []) + Column(rows[1..], k)
  }

  /**
   * What the line loop reads, once the stacks exist: the lines up to the
   * first blank one, the blank line itself consumed; each stack gains the
   * crates drawn in its column, top row first, and the loop fails exactly
   * when some row breaks.
   */
  lemma {:induction false} DrawMeans(lines: seq<string>, i: nat, cargo: Stacks)
    requires i <= |lines| && cargo != []
    ensures var e := Stop(lines, i);
      Draw(lines, i, cargo).Ok? <==> forall j, k :: i <= j < e ==> !Broken(|cargo|, lines[j], k)
    ensures var e := Stop(lines, i);
      Draw(lines, i, cargo).Ok? ==>
        var r := Draw(lines, i, cargo).value;
        r.1 == (if e < |lines| then e + 1 else e) && |r.0| == |cargo|
        && forall k :: 0 <= k < |cargo| ==> r.0[k] == cargo[k] + Column(lines[i..e], k)
    decreases |lines| - i
  {
    var e := Stop(lines, i);
    if e == i {
      assert lines[i..e] == [];
    } else {
      LayerMeans(cargo, lines[i], 0);
      assert lines[i..e][1..] == lines[i + 1..e];
      if Layer(cargo, lines[i], 0).Ok? {
        var next := Layer(cargo, lines[i], 0).value;
        DrawMeans(lines, i + 1, next);
        if Draw(lines, i, cargo).Ok? {
          OneRowMore(lines, i, e, cargo, next, Draw(lines, i, cargo).value.0);
        }
      } else {
        var k :| !(!Broken(|cargo|, lines[i], k));
      }
    }
  }

  /** Stacks that gained row i's crates and then the columns of the rows after it gained the columns of rows i on. */
  lemma OneRowMore(lines: seq<string>, i: nat, e: nat, cargo: Stacks, next: Stacks, r: Stacks)
    requires i < e <= |lines| && |next| == |cargo| && |r| == |cargo|
    requires forall k :: 0 <= k < |cargo| ==> next[k] == cargo[k] + if Crate(lines[i], k) then [lines[i][4 * k + 1]] else []
    requires forall k :: 0 <= k < |cargo| ==> r[k] == next[k] + Column(lines[i + 1..e], k)
    ensures forall k :: 0 <= k < |cargo| ==> r[k] == cargo[k] + Column(lines[i..e], k)
  {
    assert lines[i..e][1..] == lines[i + 1..e];
    forall k | 0 <= k < |cargo|
      ensures r[k] == cargo[k] + Column(lines[i..e], k)
    {
      assert Column(lines[i..e], k) == (if Crate(lines[i], k) then [lines[i][4 * k + 1]] else []) + Column(lines[i + 1..e], k);
    }
  }

  /**
   * What `parse_cargo` returns, when the first line draws: one stack per
   * four characters of the first line and one more, stack k holding the
   * crates drawn in column k bottom crate first, and the lines up to and
   * including the first blank one read.
   */
  lemma CargoMeans(lines: seq<string>)
    requires |lines| > 0 && !Blank(lines[0])
    ensures var e := Stop(lines, 0);
      Cargo(lines).Ok? ==>
        var r := Cargo(lines).value;
        r.1 == (if e < |lines| then e + 1 else e) && |r.0| == |lines[0]| / 4 + 1
        && forall k :: 0 <= k < |r.0| ==> r.0[k] == Reverse(Column(lines[..e], k))
  {
    var e := Stop(lines, 0);
    var blank := Empty(|lines[0]| / 4 + 1);
    LayerMeans(blank, lines[0], 0);
    if Layer(blank, lines[0], 0).Ok? {
      var first := Layer(blank, lines[0], 0).value;
      DrawMeans(lines, 1, first);
      assert Stop(lines, 0) == Stop(lines, 1);
      assert Draw(lines, 0, []) == Draw(lines, 1, first);
      if Draw(lines, 1, first).Ok? {
        var drawn := Draw(lines, 1, first).value.0;
        assert |drawn| == |first| == |blank|;
        assert Cargo(lines).value.0 == Reversed(drawn);
        FirstRow(lines, e, first, blank);
        assert forall k :: 0 <= k < |drawn| ==> drawn[k] == Column(lines[..e], k);
      }
    }
  }

  /** The first row's crates head every column. */
  lemma FirstRow(lines: seq<string>, e: nat, first: Stacks, blank: Stacks)
    requires 1 <= e <= |lines| && Layer(blank, lines[0], 0) == Ok(first)
    requires forall k :: 0 <= k < |blank| ==> blank[k] == []
    ensures forall k :: 0 <= k < |first| ==> Column(lines[..e], k) == first[k] + Column(lines[1..e], k)
  {
    LayerMeans(blank, lines[0], 0);
    forall k | 0 <= k < |first|
      ensures Column(lines[..e], k) == first[k] + Column(lines[1..e], k)
    {
      assert lines[..e][0] == lines[0] && lines[..e][1..] == lines[1..e];
    }
  }

  /** The `step_by(4)` loop of `parse_cargo` over one row. */
  method AddLayer(cargo: Stacks, tokens: string) returns (r: Result<Stacks>)
    ensures r == Layer(cargo, tokens, 0)
  {
    var stacks := cargo;
    var i := 0;
    while i < |tokens|
      invariant i % 4 == 0 && Layer(cargo, tokens, 0) == Layer(stacks, tokens, i / 4)
      decreases |tokens| - i
    {
      if tokens[i] == '[' {
        if i + 2 >= |tokens| {
          return Err(OutOfRange);
        }
        if tokens[i + 2] == ']' {
          if i / 4 >= |stacks| {
            return Err(OutOfRange);
          }
          stacks := stacks[i / 4 := stacks[i / 4] + [tokens[i + 1]]];
        }
      }
      i := i + 4;
    }
    return Ok(stacks);
  }

  /** `parse_cargo`: the line loop, then every stack reversed in place. */
  method ParseCargo(lines: seq<string>) returns (r: Result<(Stacks, nat)>)
    ensures r == Cargo(lines)
  {
    var cargo: Stacks := [];
    var read := |lines|;
    var i := 0;
    while i < |lines|
      invariant i <= |lines| && Draw(lines, 0, []) == Draw(lines, i, cargo)
      decreases |lines| - i
    {
      if Blank(lines[i]) {
        read := i + 1;
        break;
      }
      if cargo == [] {
        cargo := Empty(|lines[i]| / 4 + 1);
      }
      var next := AddLayer(cargo, lines[i]);
      if next.Err? {
        return Err(next.fault);
      }
      cargo := next.value;
      i := i + 1;
    }
    assert Draw(lines, 0, []) == Ok((cargo, read));
    ghost var drawn := cargo;
    for k := 0 to |cargo|
      invariant |cargo| == |drawn| && forall j :: 0 <= j < |drawn| ==> cargo[j] == if j < k then Reverse(drawn[j]) else drawn[j]
    {
      cargo := cargo[k := Reverse(cargo[k])];
    }
    assert cargo == Reversed(drawn);
    return Ok((cargo, read));
  }

  /** Rust's `piece.parse::<usize>()`, the error passing out. */
  function Size(piece: string): (r: Result<nat>)
    ensures r.Ok? ==> r.value <= UsizeMax
    ensures r.Err? ==> r.fault == NotANumber(piece)
  {
    match Numbers.ParseUnsigned(piece, UsizeMax)
    case Some(v) => Ok(v)
    case None => Err(NotANumber(piece))
  }

  /**
   * A move line "move count from a to b", split at ' ': the words are
   * checked left to right, stopping at the first that is wrong, and each
   * index past the end of the pieces panics; pieces after the sixth are
   * ignored.
   */
  function Instruction(line: string): Result<(nat, nat, nat)>
  {
    var tokens := Text.Split(line, " ");
    if tokens[0] != "move" then Err(BadInstruction(line))
    else if |tokens| < 3 then Err(OutOfRange)
    else if tokens[2] != "from" then Err(BadInstruction(line))
    else if |tokens| < 5 then Err(OutOfRange)
    else if tokens[4] != "to" then Err(BadInstruction(line))
    else
      match Size(tokens[1])
      case Err(f) => Err(f)
      case Ok(count) =>
        match Size(tokens[3])
        case Err(f) => Err(f)
        case Ok(from) =>
          if |tokens| < 6 then Err(OutOfRange)
          else
            match Size(tokens[5])
            case Err(f) => Err(f)
            case Ok(to) => Ok((count, from, to))
  }

  /** The text of a move. */
  function Order(count: nat, from: nat, to: nat): string
  {
    "move " + Numbers.Digits(count) + " from " + Numbers.Digits(from) + " to " + Numbers.Digits(to)
  }

  /** Every move of `usize` numbers reads back from its text. */
  lemma InstructionOrder(count: nat, from: nat, to: nat)
    requires count <= UsizeMax && from <= UsizeMax && to <= UsizeMax
    ensures Instruction(Order(count, from, to)) == Ok((count, from, to))
  {
    var c, f, t := Numbers.Digits(count), Numbers.Digits(from), Numbers.Digits(to);
    var pieces := ["move", c, "from", f, "to", t];
    NoSpace(count);
    NoSpace(from);
    NoSpace(to);
    Numbers.ParseDigits(count, UsizeMax);
    Numbers.ParseDigits(from, UsizeMax);
    Numbers.ParseDigits(to, UsizeMax);
    OrderJoin(c, f, t);
    Text.JoinSplit(pieces, " ");
  }

  lemma OrderJoin(c: string, f: string, t: string)
    ensures "move " + c + " from " + f + " to " + t == Text.Join(["move", c, "from", f, "to", t], " ")
  {
    Text.JoinCons("to", [t], " ");
    Text.JoinCons(f, ["to", t], " ");
    Text.JoinCons("from", [f, "to", t], " ");
    Text.JoinCons(c, ["from", f, "to", t], " ");
    Text.JoinCons("move", [c, "from", f, "to", t], " ");
    assert Text.Join([t], " ") == t;
  }

  lemma NoSpace(n: nat)
    ensures ' ' !in Numbers.Digits(n)
  {
    var d := Numbers.Digits(n);
    assert forall i :: 0 <= i < |d| ==> Numbers.IsDigit(d[i]);
  }

  /** The stacks of both cranes. */
  datatype Yard = Yard(one: Stacks, all: Stacks)

  /** One move line, run by the crane that moves one at a time and then by the other. */
  function Step(y: Yard, line: string): Result<Yard>
  {
    match Instruction(line)
    case Err(f) => Err(f)
    case Ok(order) =>
      match Move(y.one, order.0, order.1, order.2, OneAtATime)
      case Err(f) => Err(f)
      case Ok(one) =>
        match Move(y.all, order.0, order.1, order.2, AllAtOnce)
        case Err(f) => Err(f)
        case Ok(all) => Ok(Yard(one, all))
  }

  /** The move lines in order, or the first fault. */
  function Run(y: Yard, lines: seq<string>): Result<Yard>
    decreases |lines|
  {
    if lines == [] then Ok(y)
    else
      match Step(y, lines[0])
      case Err(f) => Err(f)
      case Ok(next) => Run(next, lines[1..])
  }

  /** The two cranes' stacks have the same heights. */
  predicate Level(y: Yard)
  {
    |y.one| == |y.all| && forall k :: 0 <= k < |y.one| ==> |y.one[k]| == |y.all[k]|
  }

  /**
   * The moves keep every crate on both sides, the two cranes' stacks stay
   * at the same heights, and so the second crane never fails where the
   * first did not.
   */
  lemma {:induction false} RunKeeps(y: Yard, lines: seq<string>)
    requires Level(y)
    ensures Run(y, lines).Ok? ==> var r := Run(y, lines).value;
      Level(r) && Crates(r.one) == Crates(y.one) && Crates(r.all) == Crates(y.all)
    decreases |lines|
  {
    if lines != [] && Step(y, lines[0]).Ok? {
      var order := Instruction(lines[0]).value;
      MoveKeeps(y.one, order.0, order.1, order.2, OneAtATime);
      MoveKeeps(y.all, order.0, order.1, order.2, AllAtOnce);
      StepLevel(y, order.0, order.1, order.2);
      RunKeeps(Step(y, lines[0]).value, lines[1..]);
    }
  }

  /** Level stacks stay level after a move, and the second crane's move succeeds when the first one's does. */
  lemma StepLevel(y: Yard, count: nat, from: nat, to: nat)
    requires Level(y) && Move(y.one, count, from, to, OneAtATime).Ok?
    ensures Move(y.all, count, from, to, AllAtOnce).Ok?
    ensures Level(Yard(Move(y.one, count, from, to, OneAtATime).value, Move(y.all, count, from, to, AllAtOnce).value))
  {
    MoveMeans(y.one, count, from, to, OneAtATime);
    MoveMeans(y.all, count, from, to, AllAtOnce);
  }

  /** The program's result: the tops of both cranes' stacks after the moves that follow the drawing. */
  function Simulated(lines: seq<string>): Result<(seq<char>, seq<char>)>
  {
    match Cargo(lines)
    case Err(f) => Err(f)
    case Ok(parsed) =>
      if parsed.1 > |lines| then Err(OutOfRange)
      else
        match Run(Yard(parsed.0, parsed.0), lines[parsed.1..])
        case Err(f) => Err(f)
        case Ok(y) => Ok((Tops(y.one), Tops(y.all)))
  }

  /** The moves of `simulate_cargo` on one crane's stacks: `split_off` the top, reverse it for the first crane, `append` it. */
  method Crane(cargo: Stacks, count: nat, from: nat, to: nat, mover: Mover) returns (r: Result<Stacks>)
    ensures r == Move(cargo, count, from, to, mover)
  {
    if from == 0 {
      return Err(Underflow);
    }
    if from - 1 >= |cargo| {
      return Err(OutOfRange);
    }
    var len := |cargo[from - 1]|;
    if len < count {
      return Err(Underflow);
    }
    var transit := cargo[from - 1][len - count..];
    var stacks := cargo[from - 1 := cargo[from - 1][..len - count]];
    if mover == OneAtATime {
      transit := Reverse(transit);
    }
    if to == 0 {
      return Err(Underflow);
    }
    if to - 1 >= |stacks| {
      return Err(OutOfRange);
    }
    return Ok(stacks[to - 1 := stacks[to - 1] + transit]);
  }

  /** `simulate_cargo`: every move line on both cranes, then the tops. */
  method SimulateCargo(cargo9000: Stacks, cargo9001: Stacks, lines: seq<string>) returns (r: Result<(seq<char>, seq<char>)>)
    ensures r == match Run(Yard(cargo9000, cargo9001), lines)
      case Err(f) => Err(f)
      case Ok(y) => Ok((Tops(y.one), Tops(y.all)))
  {
    var one, all := cargo9000, cargo9001;
    for i := 0 to |lines|
      invariant Run(Yard(cargo9000, cargo9001), lines) == Run(Yard(one, all), lines[i..])
    {
      assert lines[i..][1..] == lines[i + 1..];
      var order := Instruction(lines[i]);
      if order.Err? {
        return Err(order.fault);
      }
      var count, from, to := order.value.0, order.value.1, order.value.2;
      var moved := Crane(one, count, from, to, OneAtATime);
      if moved.Err? {
        return Err(moved.fault);
      }
      one := moved.value;
      moved := Crane(all, count, from, to, AllAtOnce);
      if moved.Err? {
        return Err(moved.fault);
      }
      all := moved.value;
    }
    return Ok((Tops(one), Tops(all)));
  }

  /** The copy for the second crane, crate by crate. */
  method Copy(cargo: Stacks) returns (r: Stacks)
    ensures r == cargo
  {
    r := [];
    for k := 0 to |cargo|
      invariant r == cargo[..k]
    {
      var temp: seq<char> := [];
      for u := 0 to |cargo[k]|
        invariant temp == cargo[k][..u]
      {
        assert cargo[k][..u + 1] == cargo[k][..u] + [cargo[k][u]];
        temp := temp + [cargo[k][u]];
      }
      assert temp == cargo[k];
      assert cargo[..k + 1] == cargo[..k] + [cargo[k]];
      r := r + [temp];
    }
  }

  /** `simulate`: the drawing, a copy of it, the moves and the tops. */
  method Simulate(lines: seq<string>) returns (r: Result<(seq<char>, seq<char>)>)
    ensures r == Simulated(lines)
  {
    var parsed := ParseCargo(lines);
    if parsed.Err? {
      return Err(parsed.fault);
    }
    var cargo9000 := parsed.value.0;
    var cargo9001 := Copy(cargo9000);
    if parsed.value.1 > |lines| {
      return Err(OutOfRange);
    }
    r := SimulateCargo(cargo9000, cargo9001, lines[parsed.value.1..]);
  }
}
