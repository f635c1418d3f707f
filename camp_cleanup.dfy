/**
 * Section assignment overlaps of day4/src/main.rs: each line "a-b,x-y"
 * gives two elves' spans of sections, and the program counts the pairs
 * where one span contains the other and the pairs that share a section.
 */
module CampCleanup {
  import Numbers
  import Text

  const U32Max: nat := 0xFFFF_FFFF

  /** The sections start to end, both included. */
  datatype Span = Span(start: nat, end: nat)

  datatype Fault =
    | BadLine(line: string)        // the `invalid input line` panic: not two comma-separated spans
    | NoEnd(span: string)          // `first[1]` or `second[1]` indexes past a span without '-'
    | NotANumber(piece: string)    // a `u32` parse fails and `?` returns the error

  datatype Result<T> = Ok(value: T) | Err(fault: Fault)

  /** Rust's `piece.parse::<u32>()`, the error passing out. */
  function Section(piece: string): (r: Result<nat>)
    ensures r.Ok? ==> r.value <= U32Max
    ensures r.Err? ==> r.fault == NotANumber(piece)
  {
    match Numbers.ParseUnsigned(piece, U32Max)
    case Some(v) => Ok(v)
    case None => Err(NotANumber(piece))
  }

  /**
   * A span's pieces, read in the order of the source: the start from the
   * first piece, then the end from the second, which must exist; any pieces
   * after the second are ignored.
   */
  function ReadSpan(text: string, pieces: seq<string>): Result<Span>
    requires |pieces| >= 1
  {
    match Section(pieces[0])
    case Err(f) => Err(f)
    case Ok(start) =>
      if |pieces| < 2 then Err(NoEnd(text))
      else
        match Section(pieces[1])
        case Err(f) => Err(f)
        case Ok(end) => Ok(Span(start, end))
  }

  /**
   * One line: split at ',' into exactly two spans, each split at '-'. The
   * two shape checks after the '-' splits test the comma split again, so
   * only the reading of the numbers rejects a bad span.
   */
  function ParseLine(line: string): (r: Result<(Span, Span)>)
    ensures r.Err? && r.fault.BadLine? ==> |Text.Split(line, ",")| != 2
    ensures r.Ok? ==> r.value.0.end <= U32Max && r.value.1.end <= U32Max
  {
    var spans := Text.Split(line, ",");
    if |spans| != 2 then Err(BadLine(line))
    else
      var first := Text.Split(spans[0], "-");
      var second := Text.Split(spans[1], "-");
      match ReadSpan(spans[0], first)
      case Err(f) => Err(f)
      case Ok(a) =>
        match ReadSpan(spans[1], second)
        case Err(f) => Err(f)
        case Ok(b) => Ok((a, b))
  }

  /** The text of a line for the two spans. */
  function Render(a: Span, b: Span): string
  {
    Numbers.Digits(a.start) + "-" + Numbers.Digits(a.end) + "," + Numbers.Digits(b.start) + "-" + Numbers.Digits(b.end)
  }

  /** Every pair of `u32` spans reads back from its text. */
  lemma ParseRender(a: Span, b: Span)
    requires a.start <= U32Max && a.end <= U32Max && b.start <= U32Max && b.end <= U32Max
    ensures ParseLine(Render(a, b)) == Ok((a, b))
  {
    var sa := Numbers.Digits(a.start) + "-" + Numbers.Digits(a.end);
    var sb := Numbers.Digits(b.start) + "-" + Numbers.Digits(b.end);
    SpanSplits(a);
    SpanSplits(b);
    SpanAvoids(a);
    SpanAvoids(b);
    assert Render(a, b) == Text.Join([sa, sb], ",");
    Text.JoinSplit([sa, sb], ",");
  }

  /** A span's text splits at '-' into its two numbers, which read back. */
  lemma SpanSplits(a: Span)
    requires a.start <= U32Max && a.end <= U32Max
    ensures var pieces := [Numbers.Digits(a.start), Numbers.Digits(a.end)];
      Text.Split(Numbers.Digits(a.start) + "-" + Numbers.Digits(a.end), "-") == pieces
      && ReadSpan(Numbers.Digits(a.start) + "-" + Numbers.Digits(a.end), pieces) == Ok(a)
  {
    DigitsAvoid(a.start);
    DigitsAvoid(a.end);
    Numbers.ParseDigits(a.start, U32Max);
    Numbers.ParseDigits(a.end, U32Max);
    var pieces := [Numbers.Digits(a.start), Numbers.Digits(a.end)];
    assert Numbers.Digits(a.start) + "-" + Numbers.Digits(a.end) == Text.Join(pieces, "-");
    Text.JoinSplit(pieces, "-");
  }

  /** A span's text holds no comma. */
  lemma SpanAvoids(a: Span)
    ensures ',' !in Numbers.Digits(a.start) + "-" + Numbers.Digits(a.end)
  {
    DigitsAvoid(a.start);
    DigitsAvoid(a.end);
  }

  lemma DigitsAvoid(n: nat)
    ensures '-' !in Numbers.Digits(n) && ',' !in Numbers.Digits(n)
  {
    var d := Numbers.Digits(n);
    assert forall i :: 0 <= i < |d| ==> Numbers.IsDigit(d[i]);
  }

  /** A span with a third number still reads: the extra piece is never looked at. */
  lemma ExtraPiece()
    ensures ParseLine("1-2-3,4-5") == Ok((Span(1, 2), Span(4, 5)))
  {
    Halves("1-2-3", "4-5");
    assert "1-2-3" + "," + "4-5" == "1-2-3,4-5";
    ThreePieces();
    FourFive();
  }

  lemma Halves(a: string, b: string)
    requires ',' !in a && ',' !in b
    ensures Text.Split(a + "," + b, ",") == [a, b]
  {
    assert a + "," + b == Text.Join([a, b], ",");
    Text.JoinSplit([a, b], ",");
  }

  lemma FourFive()
    ensures ReadSpan("4-5", Text.Split("4-5", "-")) == Ok(Span(4, 5))
  {
    SpanSplits(Span(4, 5));
    assert Numbers.Digits(4) == "4" && Numbers.Digits(5) == "5";
    assert Numbers.Digits(4) + "-" + Numbers.Digits(5) == "4-5";
  }

  lemma ThreePieces()
    ensures ReadSpan("1-2-3", Text.Split("1-2-3", "-")) == Ok(Span(1, 2))
  {
    assert "1-2-3" == Text.Join(["1", "2", "3"], "-");
    Text.JoinSplit(["1", "2", "3"], "-");
    Numbers.ParseDigits(1, U32Max);
    Numbers.ParseDigits(2, U32Max);
    assert Numbers.Digits(1) == "1" && Numbers.Digits(2) == "2";
  }

  /** A span without '-' reads its start, then indexes past the end of its pieces. */
  lemma MissingEnd()
    ensures ParseLine("7,4-5") == Err(NoEnd("7"))
  {
    Halves("7", "4-5");
    assert "7" + "," + "4-5" == "7,4-5";
    Text.SplitWhole("7", "-");
    Numbers.ParseDigits(7, U32Max);
    assert Numbers.Digits(7) == "7";
  }

  /** Whether one span contains the other, and whether they overlap, by the comparisons of the source. */
  datatype Overlap = Overlap(full: bool, partial: bool)

  function Classify(a: Span, b: Span): Overlap
  {
    if a.start < b.start then Overlap(a.end >= b.end, a.end >= b.start)
    else if b.start < a.start then Overlap(b.end >= a.end, b.end >= a.start)
    else Overlap(true, true)
  }

  predicate Covers(a: Span, s: int)
  {
    a.start <= s <= a.end
  }

  /** Every section of b is a section of a. */
  ghost predicate Within(b: Span, a: Span)
  {
    forall s :: Covers(b, s) ==> Covers(a, s)
  }

  predicate WellFormed(a: Span)
  {
    a.start <= a.end
  }

  /**
   * For spans that are not empty, the comparisons mean what they are meant
   * to: full exactly when one span lies within the other, partial exactly
   * when they share a section.
   */
  lemma ClassifyMeans(a: Span, b: Span)
    requires WellFormed(a) && WellFormed(b)
    ensures Classify(a, b).full <==> Within(b, a) || Within(a, b)
    ensures Classify(a, b).partial <==> exists s :: Covers(a, s) && Covers(b, s)
  {
    if Within(b, a) {
      assert Covers(b, b.start) && Covers(b, b.end);
    }
    if Within(a, b) {
      assert Covers(a, a.start) && Covers(a, a.end);
    }
    var later := if a.start < b.start then b.start else a.start;
    if Classify(a, b).partial {
      assert Covers(a, later) && Covers(b, later);
    }
  }

  /** The classification does not depend on which elf is named first. */
  lemma ClassifySymmetric(a: Span, b: Span)
    ensures Classify(a, b) == Classify(b, a)
  {
  }

  /** For spans that are not empty a full overlap is a partial one. */
  lemma FullIsPartial(a: Span, b: Span)
    requires WellFormed(b) && WellFormed(a)
    ensures Classify(a, b).full ==> Classify(a, b).partial
  {
  }

  /** Equal starts count as both kinds of overlap, even when a span is empty. */
  lemma EqualStarts(a: Span, b: Span)
    requires a.start == b.start
    ensures Classify(a, b) == Overlap(true, true)
  {
  }

  /** The two counters of the source. */
  datatype Counts = Counts(full: nat, partial: nat)

  /** Each line read on its own. */
  function Parsed(lines: seq<string>): (rs: seq<Result<(Span, Span)>>)
    ensures |rs| == |lines| && forall i :: 0 <= i < |lines| ==> rs[i] == ParseLine(lines[i])
  {
    seq(|lines|, i requires 0 <= i < |lines| => ParseLine(lines[i]))
  }

  /** The counts after the given lines, or the first fault. */
  function Tally(lines: seq<string>): Result<Counts>
  {
    Count(Parsed(lines))
  }

  /** The counts after the given pairs, or the fault of the first line that did not read. */
  function Count(rs: seq<Result<(Span, Span)>>): Result<Counts>
  {
    if rs == [] then Ok(Counts(0, 0))
    else
      match Count(rs[..|rs| - 1])
      case Err(f) => Err(f)
      case Ok(c) =>
        match rs[|rs| - 1]
        case Err(f) => Err(f)
        case Ok(pair) => Ok(Add(c, Classify(pair.0, pair.1)))
  }

  /** The counters after a pair of the given kind. */
  function Add(c: Counts, o: Overlap): Counts
  {
    Counts(c.full + if o.full then 1 else 0, c.partial + if o.partial then 1 else 0)
  }

  /** `find_overlap` over the lines of the input; the counts are what it prints. */
  method FindOverlap(lines: seq<string>) returns (r: Result<Counts>)
    ensures r == Tally(lines)
  {
    ghost var rs := Parsed(lines);
    var counts := Counts(0, 0);
    for i := 0 to |lines|
      invariant Count(rs[..i]) == Ok(counts)
    {
      assert rs[..i + 1][..i] == rs[..i];
      var pair := ParseLine(lines[i]);
      assert rs[i] == pair;
      if pair.Err? {
        CountStops(rs, i + 1);
        return Err(pair.fault);
      }
      counts := Compare(counts, pair.value.0, pair.value.1);
    }
    assert rs[..|lines|] == rs;
    return Ok(counts);
  }

  /** The comparisons of one pair, raising the counters. */
  method Compare(c: Counts, a: Span, b: Span) returns (r: Counts)
    ensures r == Add(c, Classify(a, b))
  {
    var fullOverlap, partialOverlap := c.full, c.partial;
    if a.start < b.start {
      if a.end >= b.start {
        partialOverlap := partialOverlap + 1;
      }
      if a.end >= b.end {
        fullOverlap := fullOverlap + 1;
      }
    } else if b.start < a.start {
      if b.end >= a.start {
        partialOverlap := partialOverlap + 1;
      }
      if b.end >= a.end {
        fullOverlap := fullOverlap + 1;
      }
    } else {
      fullOverlap := fullOverlap + 1;
      partialOverlap := partialOverlap + 1;
    }
    return Counts(fullOverlap, partialOverlap);
  }

  /** A fault ends the program: later lines do not change it. */
  lemma {:induction false} CountStops(rs: seq<Result<(Span, Span)>>, n: nat)
    requires 1 <= n <= |rs| && Count(rs[..n]).Err?
    ensures Count(rs) == Count(rs[..n])
    decreases |rs| - n
  {
    if n < |rs| {
      assert rs[..n + 1][..n] == rs[..n];
      CountStops(rs, n + 1);
    } else {
      assert rs[..n] == rs;
    }
  }

  /** The program fails exactly when some line does not read. */
  lemma {:induction false} CountReads(rs: seq<Result<(Span, Span)>>)
    ensures Count(rs).Ok? <==> forall i :: 0 <= i < |rs| ==> rs[i].Ok?
  {
    if rs != [] {
      var n := |rs| - 1;
      CountReads(rs[..n]);
      assert forall i :: 0 <= i < n ==> rs[..n][i] == rs[i];
    }
  }

  /** The fault is that of the first line that does not read. */
  lemma {:induction false} CountFails(rs: seq<Result<(Span, Span)>>)
    ensures Count(rs).Err? ==> exists i :: 0 <= i < |rs| && rs[i] == Err(Count(rs).fault) && ReadBefore(rs, i)
  {
    if rs != [] {
      var n := |rs| - 1;
      CountFails(rs[..n]);
      assert forall i :: 0 <= i < n ==> rs[..n][i] == rs[i];
      if Count(rs[..n]).Err? {
        var i :| 0 <= i < n && rs[..n][i] == Err(Count(rs[..n]).fault) && ReadBefore(rs[..n], i);
        assert ReadBefore(rs, i);
      } else if Count(rs).Err? {
        CountReads(rs[..n]);
        assert ReadBefore(rs, n);
      }
    }
  }

  /** Every line before i reads. */
  predicate ReadBefore(rs: seq<Result<(Span, Span)>>, i: nat)
    requires i <= |rs|
  {
    forall j :: 0 <= j < i ==> rs[j].Ok?
  }

  /** Both spans of every line that reads are not empty. */
  predicate AllWellFormed(rs: seq<Result<(Span, Span)>>)
  {
    forall i :: 0 <= i < |rs| && rs[i].Ok? ==> WellFormed(rs[i].value.0) && WellFormed(rs[i].value.1)
  }

  /**
   * Each count is at most the number of lines, and on spans that are not
   * empty no more pairs overlap fully than partially.
   */
  lemma {:induction false} CountBounds(rs: seq<Result<(Span, Span)>>)
    ensures Count(rs).Ok? ==> Count(rs).value.full <= |rs| && Count(rs).value.partial <= |rs|
    ensures Count(rs).Ok? && AllWellFormed(rs) ==> Count(rs).value.full <= Count(rs).value.partial
  {
    if rs != [] {
      var n := |rs| - 1;
      CountBounds(rs[..n]);
      if Count(rs).Ok? && AllWellFormed(rs) {
        var pair := rs[n].value;
        FullIsPartial(pair.0, pair.1);
        assert AllWellFormed(rs[..n]) by {
          assert forall i :: 0 <= i < n ==> rs[..n][i] == rs[i];
        }
      }
    }
  }

  /**
   * Over the input's lines: the program fails exactly when some line does
   * not read, with the fault of the first such line; otherwise each count
   * is at most the number of lines.
   */
  lemma TallyMeans(lines: seq<string>)
    ensures Tally(lines).Ok? <==> forall i :: 0 <= i < |lines| ==> Parsed(lines)[i].Ok?
    ensures Tally(lines).Err? ==> exists i :: 0 <= i < |lines| && Parsed(lines)[i] == Err(Tally(lines).fault) && ReadBefore(Parsed(lines), i)
    ensures Tally(lines).Ok? ==> Tally(lines).value.full <= |lines| && Tally(lines).value.partial <= |lines|
  {
    var rs := Parsed(lines);
    CountReads(rs);
    CountFails(rs);
    CountBounds(rs);
  }
}
