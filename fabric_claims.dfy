/**
 * Fabric claims (2018 day 3, in Go).  Every line `#n @ x,y: wxh` claims a
 * width by height rectangle of fabric at (x, y).  The overlap map counts the
 * claims on every square; the overlap area is the number of squares with
 * more than one claim, and the free claims are those whose every square has
 * exactly one.  Numbers and coordinates are `uint64` values.
 */
module FabricClaims {
  import Numbers
  import Text
  import Tallies

  const Modulus := 0x1_0000_0000_0000_0000

  type U64 = n: nat | n < 0x1_0000_0000_0000_0000

  datatype Claim = Claim(number: U64, x: U64, y: U64, width: U64, height: U64)

  /** `strings.Trim`: the characters of the cut set removed from both ends. */
  function TrimWith(s: string, cut: set<char>): (r: string)
    ensures |r| <= |s|
    ensures r != [] ==> r[0] !in cut && r[|r| - 1] !in cut
  {
    var t := TrimLeft(s, cut);
    TrimRight(t, cut)
  }

  function TrimLeft(s: string, cut: set<char>): (r: string)
    ensures r == [] || r[0] !in cut
    ensures |r| <= |s| && r == s[|s| - |r|..]
  {
    if s != [] && s[0] in cut then TrimLeft(s[1..], cut) else s
  }

  function TrimRight(s: string, cut: set<char>): (r: string)
    ensures r == [] || r[|r| - 1] !in cut
    ensures |r| <= |s| && r == s[..|r|]
  {
    if s != [] && s[|s| - 1] in cut then TrimRight(s[..|s| - 1], cut) else s
  }

  /** The characters `unicode.IsSpace` accepts, which `strings.TrimSpace` removes. */
  const GoSpace: set<char> := {
    ' ', '\t', '\n', '\U{000B}', '\U{000C}', '\r', '\U{0085}', '\U{00A0}', '\U{1680}',
    '\U{2000}', '\U{2001}', '\U{2002}', '\U{2003}', '\U{2004}', '\U{2005}', '\U{2006}',
    '\U{2007}', '\U{2008}', '\U{2009}', '\U{200A}', '\U{2028}', '\U{2029}', '\U{202F}',
    '\U{205F}', '\U{3000}'}

  /** What one line contributes: a claim, nothing (a line of the wrong shape), a number error, or a panic. */
  datatype Line = Claimed(claim: Claim) | Skipped | Failed | Crashed

  /**
   * One line of `parseFile`, in the code's order of checks.  A line whose
   * x,y part has no comma logs it and goes on, so `xy[1]` panics; extra
   * commas are ignored.
   */
  function ParseLine(line: string): Line
  {
    var claimSplit := Text.Split(line, "@");
    if |claimSplit| != 2 then Skipped
    else
      match Numbers.ParseUint(TrimWith(claimSplit[0], {'#', ' '}))
      case None => Failed
      case Some(number) => ParseDims(number, claimSplit[1])
  }

  /** The part after the '@': the corner, then the size. */
  function ParseDims(number: U64, dims: string): Line
  {
    var dimSplit := Text.Split(dims, ":");
    if |dimSplit| != 2 then Skipped
    else
      var xy := Text.Split(dimSplit[0], ",");
      match Numbers.ParseUint(TrimWith(xy[0], GoSpace))
      case None => Failed
      case Some(x) =>
        if |xy| < 2 then Crashed
        else
          match Numbers.ParseUint(TrimWith(xy[1], GoSpace))
          case None => Failed
          case Some(y) => ParseSize(number, x, y, dimSplit[1])
  }

  /** The `wxh` part. */
  function ParseSize(number: U64, x: U64, y: U64, size: string): Line
  {
    var sizes := Text.Split(size, "x");
    if |sizes| != 2 then Skipped
    else
      match Numbers.ParseUint(TrimWith(sizes[0], GoSpace))
      case None => Failed
      case Some(width) =>
        match Numbers.ParseUint(TrimWith(sizes[1], GoSpace))
        case None => Failed
        case Some(height) => Claimed(Claim(number, x, y, width, height))
  }

  /** The claim as the puzzle writes it. */
  function Show(c: Claim): string
  {
    Head(c.number) + "@" + (Joined(c.x, c.y, ',') + ":" + Joined(c.width, c.height, 'x'))
  }

  /** `#n `, in front of the '@'. */
  function Head(number: nat): string
  {
    "#" + Numbers.Digits(number) + " "
  }

  /** ` a,b` for the corner and ` axb` for the size: two numbers after a space. */
  function Joined(a: nat, b: nat, sep: char): string
  {
    " " + Numbers.Digits(a) + [sep] + Numbers.Digits(b)
  }

  /** Digits hold none of the separators or padding characters. */
  lemma DigitsClean(n: nat)
    ensures var d := Numbers.Digits(n); '@' !in d && ':' !in d && ',' !in d && 'x' !in d
    ensures var d := Numbers.Digits(n); d[0] !in GoSpace && d[|d| - 1] !in GoSpace
    ensures var d := Numbers.Digits(n); d[0] !in {'#', ' '} && d[|d| - 1] !in {'#', ' '}
  {
    var d := Numbers.Digits(n);
    assert Numbers.AllDigits(d);
    assert Numbers.IsDigit(d[0]) && Numbers.IsDigit(d[|d| - 1]);
    forall c | c in d
      ensures Numbers.IsDigit(c)
    {
      var i :| 0 <= i < |d| && d[i] == c;
    }
  }

  /** Trimming text padded by cut characters leaves the clean text in the middle. */
  lemma TrimPadded(pad: string, s: string, pad': string, cut: set<char>)
    requires s != [] && s[0] !in cut && s[|s| - 1] !in cut
    requires forall c :: c in pad ==> c in cut
    requires forall c :: c in pad' ==> c in cut
    ensures TrimWith(pad + s + pad', cut) == s
  {
    assert pad + s + pad' == pad + (s + pad');
    assert (s + pad')[0] == s[0];
    LeftPadded(pad, s + pad', cut);
    RightPadded(s, pad', cut);
  }

  /** Text with clean ends is left as it is. */
  lemma TrimClean(s: string, cut: set<char>)
    requires s != [] && s[0] !in cut && s[|s| - 1] !in cut
    ensures TrimLeft(s, cut) == s && TrimRight(s, cut) == s && TrimWith(s, cut) == s
  {
  }

  lemma {:induction false} LeftPadded(pad: string, s: string, cut: set<char>)
    requires s != [] && s[0] !in cut && forall c :: c in pad ==> c in cut
    ensures TrimLeft(pad + s, cut) == s
    decreases |pad|
  {
    if pad != [] {
      assert (pad + s)[1..] == pad[1..] + s;
      LeftPadded(pad[1..], s, cut);
    } else {
      assert pad + s == s;
    }
  }

  lemma {:induction false} RightPadded(s: string, pad: string, cut: set<char>)
    requires s != [] && s[|s| - 1] !in cut && forall c :: c in pad ==> c in cut
    ensures TrimRight(s + pad, cut) == s
    decreases |pad|
  {
    if pad != [] {
      assert (s + pad)[..|s + pad| - 1] == s + pad[..|pad| - 1];
      assert (s + pad)[|s + pad| - 1] == pad[|pad| - 1];
      RightPadded(s, pad[..|pad| - 1], cut);
    } else {
      assert s + pad == s;
    }
  }

  /** Two clean pieces written " a<sep>b" split and trim back into a and b. */
  lemma ReadPair(da: string, db: string, sep: char)
    requires sep != ' ' && da != [] && da[0] !in GoSpace && da[|da| - 1] !in GoSpace && sep !in da
    requires db != [] && db[0] !in GoSpace && db[|db| - 1] !in GoSpace && sep !in db
    ensures var pieces := Text.Split(" " + da + [sep] + db, [sep]);
      |pieces| == 2 && TrimWith(pieces[0], GoSpace) == da && TrimWith(pieces[1], GoSpace) == db
  {
    assert Text.Split(" " + da + [sep] + db, [sep]) == [" " + da, db] by {
      assert (" " + da)[0] == ' ' && (" " + da)[1..] == da;
      Text.SplitFirst(" " + da, db, [sep]);
      Text.SplitWhole(db, [sep]);
    }
    assert TrimWith(" " + da, GoSpace) == da by {
      LeftPadded(" ", da, GoSpace);
      TrimClean(da, GoSpace);
    }
    TrimClean(db, GoSpace);
  }

  /** Two numbers written " a<sep>b" split into two pieces that read back as a and b. */
  lemma Pair(a: U64, b: U64, sep: char)
    requires sep == ',' || sep == 'x'
    ensures var pieces := Text.Split(Joined(a, b, sep), [sep]);
      |pieces| == 2 && Numbers.ParseUint(TrimWith(pieces[0], GoSpace)) == Numbers.Some(a) &&
      Numbers.ParseUint(TrimWith(pieces[1], GoSpace)) == Numbers.Some(b)
  {
    DigitsClean(a);
    DigitsClean(b);
    ReadPair(Numbers.Digits(a), Numbers.Digits(b), sep);
    Numbers.ParseUintDigits(a);
    Numbers.ParseUintDigits(b);
  }

  /** Neither '@' nor ':' appears in the two numbers written with a separator. */
  lemma JoinedClean(a: nat, b: nat, sep: char)
    requires sep == ',' || sep == 'x'
    ensures '@' !in Joined(a, b, sep) && ':' !in Joined(a, b, sep)
  {
    DigitsClean(a);
    DigitsClean(b);
  }

  /** The line splits at its one '@', and the number in front trims clean. */
  lemma ReadHead(number: nat, dims: string)
    requires '@' !in dims
    ensures var claimSplit := Text.Split(Head(number) + "@" + dims, "@");
      claimSplit == [Head(number), dims] && TrimWith(claimSplit[0], {'#', ' '}) == Numbers.Digits(number)
  {
    var n := Numbers.Digits(number);
    assert '@' !in Head(number) by {
      DigitsClean(number);
      assert forall i :: 0 <= i < |Head(number)| ==> Head(number)[i] == '#' || Head(number)[i] == ' ' || Head(number)[i] in n;
    }
    assert Text.Split(Head(number) + "@" + dims, "@") == [Head(number), dims] by {
      Text.SplitFirst(Head(number), dims, "@");
      Text.SplitWhole(dims, "@");
    }
    assert TrimWith(Head(number), {'#', ' '}) == n by {
      DigitsClean(number);
      TrimPadded("#", n, " ", {'#', ' '});
    }
  }

  /** The size part of a written claim reads back. */
  lemma ReadSize(c: Claim)
    ensures ParseSize(c.number, c.x, c.y, Joined(c.width, c.height, 'x')) == Claimed(c)
  {
    Pair(c.width, c.height, 'x');
  }

  /** The part after the '@' of a written claim reads back. */
  lemma ReadDims(c: Claim)
    ensures ParseDims(c.number, Joined(c.x, c.y, ',') + ":" + Joined(c.width, c.height, 'x')) == Claimed(c)
  {
    var xyPart, sizePart := Joined(c.x, c.y, ','), Joined(c.width, c.height, 'x');
    JoinedClean(c.x, c.y, ',');
    JoinedClean(c.width, c.height, 'x');
    Text.SplitFirst(xyPart, sizePart, ":");
    Text.SplitWhole(sizePart, ":");
    Pair(c.x, c.y, ',');
    ReadSize(c);
  }

  /** Every claim written the puzzle's way reads back. */
  lemma ParseShow(c: Claim)
    ensures ParseLine(Show(c)) == Claimed(c)
  {
    var dims := Joined(c.x, c.y, ',') + ":" + Joined(c.width, c.height, 'x');
    JoinedClean(c.x, c.y, ',');
    JoinedClean(c.width, c.height, 'x');
    assert '@' !in dims;
    ReadHead(c.number, dims);
    Numbers.ParseUintDigits(c.number);
    ReadDims(c);
  }

  /** The claims of a file, or why reading it stopped. */
  datatype Parsed = Read(claims: seq<Claim>) | BadNumber | Panicked

  /** The claims of all lines, skipping badly shaped ones, up to the first number error or panic. */
  function Claims(lines: seq<string>): Parsed
  {
    if lines == [] then Read([])
    else
      match ParseLine(lines[0])
      case Skipped => Claims(lines[1..])
      case Failed => BadNumber
      case Crashed => Panicked
      case Claimed(c) => Ahead([c], Claims(lines[1..]))
  }

  /** The claims read so far in front of what the rest gives. */
  function Ahead(done: seq<Claim>, r: Parsed): Parsed
  {
    match r
    case Read(rest) => Read(done + rest)
    case BadNumber => BadNumber
    case Panicked => Panicked
  }

  lemma AheadAhead(a: seq<Claim>, b: seq<Claim>, r: Parsed)
    ensures Ahead(a, Ahead(b, r)) == Ahead(a + b, r)
  {
    if r.Read? {
      assert a + (b + r.claims) == a + b + r.claims;
    }
  }

  /** A line that lets reading go on. */
  predicate Readable(l: Line)
  {
    l.Claimed? || l.Skipped?
  }

  /** A file is read in full exactly when none of its lines has a bad number or panics. */
  lemma {:induction false} ClaimsRead(lines: seq<string>)
    ensures Claims(lines).Read? <==> forall i :: 0 <= i < |lines| ==> Readable(ParseLine(lines[i]))
  {
    if lines != [] {
      var l := ParseLine(lines[0]);
      assert Claims(lines).Read? <==> Readable(l) && Claims(lines[1..]).Read?;
      assert Claims(lines[1..]).Read? <==> forall i :: 1 <= i < |lines| ==> Readable(ParseLine(lines[i])) by {
        ClaimsRead(lines[1..]);
        assert forall i :: 1 <= i < |lines| ==> lines[1..][i - 1] == lines[i];
      }
    }
  }

  /** A file read in full gives one claim for each well-shaped line, in order. */
  lemma {:induction false} ClaimsOrder(lines: seq<string>)
    ensures Claims(lines).Read? ==> Claims(lines).claims == Kept(lines)
  {
    if lines != [] {
      ClaimsOrder(lines[1..]);
      var l := ParseLine(lines[0]);
      if l.Claimed? && Claims(lines[1..]).Read? {
        assert Claims(lines).claims == [l.claim] + Claims(lines[1..]).claims;
      }
    }
  }

  /** The claims of the well-shaped lines, in order. */
  function Kept(lines: seq<string>): seq<Claim>
  {
    if lines == [] then []
    else (if ParseLine(lines[0]).Claimed? then [ParseLine(lines[0]).claim] else []) + Kept(lines[1..])
  }

  /** The `for scanner.Scan()` loop of `parseFile`. */
  method ParseFile(lines: seq<string>) returns (r: Parsed)
    ensures r == Claims(lines)
  {
    var claims: seq<Claim> := [];
    assert lines[0..] == lines;
    if Claims(lines).Read? {
      assert [] + Claims(lines).claims == Claims(lines).claims;
    }
    for i := 0 to |lines|
      invariant Claims(lines) == Ahead(claims, Claims(lines[i..]))
    {
      assert lines[i..][0] == lines[i] && lines[i..][1..] == lines[i + 1..];
      match ParseLine(lines[i])
      case Skipped =>
      case Failed =>
        return BadNumber;
      case Crashed =>
        return Panicked;
      case Claimed(c) =>
        AheadAhead(claims, [c], Claims(lines[i + 1..]));
        claims := claims + [c];
    }
    assert lines[|lines|..] == [];
    assert claims + [] == claims;
    return Read(claims);
  }

  /** A square of fabric; the code keys its map by the text "x,y", which names each square once. */
  type Square = (U64, U64)

  /** How far `a` lies past `base`, counting in `uint64` arithmetic. */
  function Off(a: U64, base: U64): (d: nat)
    ensures d < Modulus
  {
    (a - base) % Modulus
  }

  /** The square `claim.x+xInc, claim.y+yInc`, where the sums wrap around. */
  function Cell(c: Claim, dx: nat, dy: nat): Square
  {
    ((c.x + dx) % Modulus, (c.y + dy) % Modulus)
  }

  /** The claim covers the square: it lies within width and height past the corner. */
  predicate Covers(c: Claim, p: Square)
  {
    Off(p.0, c.x) < c.width && Off(p.1, c.y) < c.height
  }

  /** Stepping d past base and measuring back gives d. */
  lemma OffCell(base: U64, d: nat)
    requires d < Modulus
    ensures Off((base + d) % Modulus, base) == d
  {
    if base + d < Modulus {
      assert (base + d) % Modulus == base + d;
    } else {
      assert (base + d) % Modulus == base + d - Modulus;
      assert (d - Modulus) % Modulus == d;
    }
  }

  /** Measuring a square's distance and stepping it from base gives the square back. */
  lemma CellOff(base: U64, a: U64)
    ensures (base + Off(a, base)) % Modulus == a
  {
    if a >= base {
      assert Off(a, base) == a - base;
    } else {
      assert Off(a, base) == a - base + Modulus;
    }
  }

  /** The squares a claim covers are exactly the squares of its `xInc, yInc` loops. */
  lemma CoversCells(c: Claim, p: Square)
    ensures Covers(c, p) <==> exists dx: nat, dy: nat :: dx < c.width && dy < c.height && p == Cell(c, dx, dy)
  {
    CellOff(c.x, p.0);
    CellOff(c.y, p.1);
    if Covers(c, p) {
      assert p == Cell(c, Off(p.0, c.x), Off(p.1, c.y));
    }
    forall dx: nat, dy: nat | dx < c.width && dy < c.height && p == Cell(c, dx, dy)
      ensures Covers(c, p)
    {
      OffCell(c.x, dx);
      OffCell(c.y, dy);
    }
  }

  /** How many of the claims cover the square. */
  function Coverage(claims: seq<Claim>, p: Square): (n: nat)
    ensures n <= |claims|
  {
    if claims == [] then 0
    else Coverage(claims[..|claims| - 1], p) + (if Covers(claims[|claims| - 1], p) then 1 else 0)
  }

  /** No claim covers a square exactly when its coverage is zero. */
  lemma {:induction false} CoverageZero(claims: seq<Claim>, p: Square)
    ensures Coverage(claims, p) == 0 <==> forall j :: 0 <= j < |claims| ==> !Covers(claims[j], p)
  {
    if claims != [] {
      var front := claims[..|claims| - 1];
      CoverageZero(front, p);
      assert forall j :: 0 <= j < |front| ==> front[j] == claims[j];
    }
  }

  /** A square of claim i has coverage one exactly when no other claim covers it. */
  lemma {:induction false} CoverageOne(claims: seq<Claim>, i: nat, p: Square)
    requires i < |claims| && Covers(claims[i], p)
    ensures Coverage(claims, p) == 1 <==> forall j :: 0 <= j < |claims| && j != i ==> !Covers(claims[j], p)
  {
    var front := claims[..|claims| - 1];
    assert forall j :: 0 <= j < |front| ==> front[j] == claims[j];
    if i == |claims| - 1 {
      CoverageZero(front, p);
    } else {
      CoverageOne(front, i, p);
      CoverageZero(front, p);
    }
  }

  /** Claim c has been written for the columns before xi and the first yi squares of column xi. */
  predicate Written(c: Claim, xi: nat, yi: nat, p: Square)
  {
    (Off(p.0, c.x) < xi && Off(p.1, c.y) < c.height) || (Off(p.0, c.x) == xi && Off(p.1, c.y) < yi)
  }

  /** The area of all the claims together, each counted in full. */
  function Area(claims: seq<Claim>): nat
  {
    if claims == [] then 0 else Area(claims[..|claims| - 1]) + claims[|claims| - 1].width * claims[|claims| - 1].height
  }

  /** The inner `yInc` loop of `overlapMap`: one column of a claim. */
  method MarkColumn(c: Claim, xi: nat, m0: map<Square, nat>) returns (m: map<Square, nat>)
    requires xi < c.width
    requires forall p :: p in m0 ==> m0[p] > 0
    ensures forall p :: p in m ==> m[p] > 0
    ensures forall p :: Tallies.Get(m, p) == Tallies.Get(m0, p) + (if Off(p.0, c.x) == xi && Off(p.1, c.y) < c.height then 1 else 0)
    ensures Tallies.Total(m) == Tallies.Total(m0) + c.height
  {
    m := m0;
    var yi: nat := 0;
    while yi < c.height
      invariant yi <= c.height
      invariant forall p :: p in m ==> m[p] > 0
      invariant forall p :: Tallies.Get(m, p) == Tallies.Get(m0, p) + (if Off(p.0, c.x) == xi && Off(p.1, c.y) < yi then 1 else 0)
      invariant Tallies.Total(m) == Tallies.Total(m0) + yi
    {
      var q := Cell(c, xi, yi);
      OffCell(c.x, xi);
      OffCell(c.y, yi);
      forall p | p != q
        ensures !(Off(p.0, c.x) == xi && Off(p.1, c.y) == yi)
      {
        CellOff(c.x, p.0);
        CellOff(c.y, p.1);
      }
      Tallies.TotalAdd(m, q, 1);
      m := Tallies.Add(m, q, 1);
      yi := yi + 1;
    }
  }

  /** `overlapMap`: the number of claims on every square any claim covers. */
  method OverlapMap(claims: seq<Claim>) returns (m: map<Square, nat>)
    ensures forall p :: Tallies.Get(m, p) == Coverage(claims, p)
    ensures forall p :: p in m ==> m[p] > 0
    ensures Tallies.Total(m) == Area(claims)
  {
    m := map[];
    for i := 0 to |claims|
      invariant forall p :: Tallies.Get(m, p) == Coverage(claims[..i], p)
      invariant forall p :: p in m ==> m[p] > 0
      invariant Tallies.Total(m) == Area(claims[..i])
    {
      var c := claims[i];
      assert claims[..i + 1][..i] == claims[..i];
      for xi := 0 to c.width
        invariant forall p :: Tallies.Get(m, p) == Coverage(claims[..i], p) + (if Off(p.0, c.x) < xi && Off(p.1, c.y) < c.height then 1 else 0)
        invariant forall p :: p in m ==> m[p] > 0
        invariant Tallies.Total(m) == Area(claims[..i]) + xi * c.height
      {
        m := MarkColumn(c, xi, m);
        assert (xi + 1) * c.height == xi * c.height + c.height;
      }
    }
    assert claims[..|claims|] == claims;
  }

  /** The squares the map counts more than one claim on. */
  function Contested(m: map<Square, nat>): set<Square>
  {
    ContestedAmong(m, m.Keys)
  }

  /** The squares of `keys` the map counts more than one claim on. */
  function ContestedAmong(m: map<Square, nat>, keys: set<Square>): set<Square>
  {
    set p | p in keys && p in m && m[p] > 1
  }

  /** Visiting one more key adds it to the contested squares when its count is above one. */
  lemma ContestedStep(m: map<Square, nat>, keys: set<Square>, p: Square)
    requires p in m && p !in keys
    ensures m[p] > 1 ==> |ContestedAmong(m, keys + {p})| == |ContestedAmong(m, keys)| + 1
    ensures m[p] <= 1 ==> |ContestedAmong(m, keys + {p})| == |ContestedAmong(m, keys)|
  {
    if m[p] > 1 {
      assert ContestedAmong(m, keys + {p}) == ContestedAmong(m, keys) + {p};
    } else {
      assert ContestedAmong(m, keys + {p}) == ContestedAmong(m, keys);
    }
  }

  /** `overlapArea`: the squares with more than one claim, counted in the map's own order. */
  method OverlapArea(m: map<Square, nat>) returns (count: nat)
    ensures count == |Contested(m)|
  {
    count := 0;
    var rest := m.Keys;
    ghost var done: set<Square> := {};
    assert ContestedAmong(m, done) == {};
    while rest != {}
      invariant rest + done == m.Keys && rest !! done
      invariant count == |ContestedAmong(m, done)|
      decreases |rest|
    {
      var p :| p in rest;
      ContestedStep(m, done, p);
      if m[p] > 1 {
        count := count + 1;
      }
      rest := rest - {p};
      done := done + {p};
    }
    assert done == m.Keys;
  }

  /** With the map of the claims, the contested squares are those more than one claim covers. */
  lemma ContestedMeans(claims: seq<Claim>, m: map<Square, nat>, p: Square)
    requires forall q :: Tallies.Get(m, q) == Coverage(claims, q)
    ensures p in Contested(m) <==> Coverage(claims, p) > 1
    ensures p in Contested(m) <==> exists i, j :: 0 <= i < j < |claims| && Covers(claims[i], p) && Covers(claims[j], p)
  {
    assert Tallies.Get(m, p) == Coverage(claims, p);
    if Coverage(claims, p) > 1 {
      var i, j := TwoCover(claims, p);
    }
    forall i, j | 0 <= i < j < |claims| && Covers(claims[i], p) && Covers(claims[j], p)
      ensures Coverage(claims, p) > 1
    {
      CoverageZero(claims, p);
      CoverageOne(claims, i, p);
    }
  }

  /** A square with coverage above one has two different claims over it. */
  lemma {:induction false} TwoCover(claims: seq<Claim>, p: Square) returns (i: nat, j: nat)
    requires Coverage(claims, p) > 1
    ensures i < j < |claims| && Covers(claims[i], p) && Covers(claims[j], p)
  {
    var front := claims[..|claims| - 1];
    assert forall k :: 0 <= k < |front| ==> front[k] == claims[k];
    if Coverage(front, p) > 1 {
      i, j := TwoCover(front, p);
    } else {
      CoverageZero(front, p);
      i :| 0 <= i < |front| && Covers(front[i], p);
      j := |claims| - 1;
    }
  }

  /** Every square of the claim has a count of exactly one. */
  predicate Free(c: Claim, m: map<Square, nat>)
  {
    forall dx: nat, dy: nat :: dx < c.width && dy < c.height ==> Tallies.Get(m, Cell(c, dx, dy)) == 1
  }

  /** The numbers of the free claims, in order. */
  function FreeNumbers(claims: seq<Claim>, m: map<Square, nat>): (r: seq<U64>)
    ensures |r| <= |claims|
  {
    if claims == [] then []
    else
      var c := claims[|claims| - 1];
      FreeNumbers(claims[..|claims| - 1], m) + (if Free(c, m) then [c.number] else [])
  }

  /** The labelled `claimLoop` of `freeClaims`: stops at the first square whose count is not one. */
  method IsFree(c: Claim, m: map<Square, nat>) returns (free: bool)
    ensures free == Free(c, m)
  {
    free := true;
    var xi: nat := 0;
    label claimLoop:
    while xi < c.width
      invariant xi <= c.width
      invariant forall dx: nat, dy: nat :: dx < xi && dy < c.height ==> Tallies.Get(m, Cell(c, dx, dy)) == 1
    {
      var yi: nat := 0;
      while yi < c.height
        invariant yi <= c.height
        invariant forall dy: nat :: dy < yi ==> Tallies.Get(m, Cell(c, xi, dy)) == 1
      {
        if Tallies.Get(m, Cell(c, xi, yi)) != 1 {
          free := false;
          break claimLoop;
        }
        yi := yi + 1;
      }
      xi := xi + 1;
    }
  }

  /** `freeClaims`: the numbers of the claims whose every square has a count of one. */
  method FreeClaims(claims: seq<Claim>, m: map<Square, nat>) returns (free: seq<U64>)
    ensures free == FreeNumbers(claims, m)
  {
    free := [];
    for i := 0 to |claims|
      invariant free == FreeNumbers(claims[..i], m)
    {
      assert claims[..i + 1][..i] == claims[..i];
      var ok := IsFree(claims[i], m);
      if ok {
        free := free + [claims[i].number];
      }
    }
    assert claims[..|claims|] == claims;
  }

  /** With the map of the claims, a claim is free exactly when no other claim shares a square with it. */
  lemma FreeMeans(claims: seq<Claim>, m: map<Square, nat>, i: nat)
    requires i < |claims|
    requires forall q :: Tallies.Get(m, q) == Coverage(claims, q)
    ensures Free(claims[i], m) <==> forall j, p :: 0 <= j < |claims| && j != i && Covers(claims[i], p) ==> !Covers(claims[j], p)
  {
    var c := claims[i];
    forall dx: nat, dy: nat | dx < c.width && dy < c.height
      ensures Covers(c, Cell(c, dx, dy))
    {
      CoversCells(c, Cell(c, dx, dy));
    }
    if Free(c, m) {
      forall j, p | 0 <= j < |claims| && j != i && Covers(c, p)
        ensures !Covers(claims[j], p)
      {
        CoversCells(c, p);
        var dx: nat, dy: nat :| dx < c.width && dy < c.height && p == Cell(c, dx, dy);
        assert Tallies.Get(m, p) == 1;
        CoverageOne(claims, i, p);
      }
    } else {
      var dx: nat, dy: nat :| dx < c.width && dy < c.height && Tallies.Get(m, Cell(c, dx, dy)) != 1;
      var p := Cell(c, dx, dy);
      CoverageOne(claims, i, p);
    }
  }
}
