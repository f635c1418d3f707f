/**
 * Seven-segment search of archive/2021/day8/src/main.rs: each note line
 * lists the ten scrambled digit patterns and a four-digit output.  The
 * patterns of 1, 7, 4 and 8 are found by their segment counts, the other
 * six by subset tests against 1 and 4, and the output words are read as a
 * base-10 number.  A pattern is the SET of its letters, as the source's
 * `HashSet<char>` is.
 */
module SevenSegment {
  import Text
  import Numbers

  datatype Option<T> = None | Some(value: T)
  datatype Result<T> = Ok(value: T) | Err(message: string)

  /** One note line: the ten patterns before ` | ` and the output words after it. */
  datatype Signal = Signal(input: seq<string>, output: seq<string>)

  type Code = set<char>

  // ---------------------------------------------------------------------
  // Parsing

  /** A line is split on ` | `; anything but two halves panics, each half is split on single spaces. */
  function ParseSignal(line: string): (r: Result<Signal>)
    ensures r.Err? <==> |Text.Split(line, " | ")| != 2
  {
    var tokens := Text.Split(line, " | ");
    if |tokens| != 2 then Err("parsed tokens instead of 2")
    else Ok(Signal(Text.Split(tokens[0], " "), Text.Split(tokens[1], " ")))
  }

  /** A parsed signal loses nothing: its words joined back give the line. */
  lemma ParseSignalJoins(line: string)
    requires ParseSignal(line).Ok?
    ensures Text.Join(ParseSignal(line).value.input, " ") + " | " + Text.Join(ParseSignal(line).value.output, " ") == line
  {
    var tokens := Text.Split(line, " | ");
    Text.SplitJoin(line, " | ");
    Text.SplitJoin(tokens[0], " ");
    Text.SplitJoin(tokens[1], " ");
  }

  /** A word as the notes write it: no space and no bar. */
  predicate Word(w: string)
  {
    ' ' !in w && '|' !in w
  }

  /** The note line of a signal. */
  function ShowSignal(s: Signal): string
    requires |s.input| >= 1 && |s.output| >= 1
  {
    Text.Join(s.input, " ") + " | " + Text.Join(s.output, " ")
  }

  /** Parsing the line of a signal made of words gives the signal back. */
  lemma ParseShowSignal(s: Signal)
    requires |s.input| >= 1 && |s.output| >= 1
    requires forall i :: 0 <= i < |s.input| ==> Word(s.input[i])
    requires forall i :: 0 <= i < |s.output| ==> Word(s.output[i])
    ensures ParseSignal(ShowSignal(s)) == Ok(s)
  {
    var left, right := Text.Join(s.input, " "), Text.Join(s.output, " ");
    Text.JoinAvoids(s.input, " ", '|');
    Text.JoinAvoids(s.output, " ", '|');
    Text.SplitFirstMarked(left, right, " | ");
    Text.SplitWholeMarked(right, " | ");
    assert Text.Split(ShowSignal(s), " | ") == [left, right];
    Text.JoinSplit(s.input, " ");
    Text.JoinSplit(s.output, " ");
  }

  /** `parse_input` over the lines: the first line that does not parse panics. */
  function ParseSignals(lines: seq<string>): (r: Result<seq<Signal>>)
    ensures r.Ok? <==> forall i :: 0 <= i < |lines| ==> ParseSignal(lines[i]).Ok?
    ensures r.Ok? ==> |r.value| == |lines| && forall i :: 0 <= i < |lines| ==> ParseSignal(lines[i]) == Ok(r.value[i])
  {
    if lines == [] then Ok([])
    else
      match ParseSignal(lines[0])
      case Err(e) => Err(e)
      case Ok(first) =>
        match ParseSignals(lines[1..])
        case Err(e) => Err(e)
        case Ok(rest) => Ok([first] + rest)
  }

  // ---------------------------------------------------------------------
  // Output words of unique length

  /** An output word whose length alone gives its digit: 1, 7, 4 or 8. */
  predicate Unique(word: string)
  {
    |word| == 2 || |word| == 3 || |word| == 4 || |word| == 7
  }

  function UniqueWords(words: seq<string>): nat
  {
    if words == [] then 0
    else UniqueWords(words[..|words| - 1]) + (if Unique(words[|words| - 1]) then 1 else 0)
  }

  /** The number of output words of unique length over all signals. */
  function UniqueDigits(signals: seq<Signal>): nat
  {
    if signals == [] then 0
    else UniqueDigits(signals[..|signals| - 1]) + UniqueWords(signals[|signals| - 1].output)
  }

  /** `unique_output_digits`: the nested count over every signal's output. */
  method UniqueOutputDigits(signals: seq<Signal>) returns (count: nat)
    ensures count == UniqueDigits(signals)
  {
    count := 0;
    for i := 0 to |signals|
      invariant count == UniqueDigits(signals[..i])
    {
      var output := signals[i].output;
      for j := 0 to |output|
        invariant count == UniqueDigits(signals[..i]) + UniqueWords(output[..j])
      {
        if Unique(output[j]) {
          count := count + 1;
        }
        assert output[..j + 1][..j] == output[..j];
      }
      assert output[..|output|] == output;
      assert signals[..i + 1][..i] == signals[..i];
    }
    assert signals[..|signals|] == signals;
  }

  /** The count is additive over the signals. */
  lemma {:induction false} UniqueDigitsAppend(a: seq<Signal>, b: seq<Signal>)
    ensures UniqueDigits(a + b) == UniqueDigits(a) + UniqueDigits(b)
    decreases |b|
  {
    if b == [] {
      assert a + b == a;
    } else {
      UniqueDigitsAppend(a, b[..|b| - 1]);
      assert (a + b)[..|a + b| - 1] == a + b[..|b| - 1];
    }
  }

  /** At most every word counts, and every word counts exactly when all have a unique length. */
  lemma {:induction false} UniqueWordsAll(words: seq<string>)
    ensures UniqueWords(words) <= |words|
    ensures UniqueWords(words) == |words| <==> forall i :: 0 <= i < |words| ==> Unique(words[i])
    decreases |words|
  {
    if words != [] {
      var front := words[..|words| - 1];
      UniqueWordsAll(front);
      assert forall i :: 0 <= i < |front| ==> front[i] == words[i];
    }
  }

  // ---------------------------------------------------------------------
  // Deducing the codes

  /** A word's pattern: the set of its letters. */
  function Segments(word: string): Code
  {
    set c | c in word
  }

  /** The ten code slots before any is found. */
  const Blank: seq<Code> := [{}, {}, {}, {}, {}, {}, {}, {}, {}, {}]

  /** The digit a pattern's size alone identifies: 2 → 1, 3 → 7, 4 → 4, 7 → 8. */
  function Revealed(size: nat): (k: Option<nat>)
    ensures k.Some? ==> k.value < 10 && size >= 2
  {
    if size == 2 then Some(1)
    else if size == 3 then Some(7)
    else if size == 4 then Some(4)
    else if size == 7 then Some(8)
    else None
  }

  /** One step of the first pass: a pattern of telling size takes its slot. */
  function Assign(codes: seq<Code>, word: string): (r: seq<Code>)
    requires |codes| == 10
    ensures |r| == 10
  {
    var digit := Segments(word);
    match Revealed(|digit|)
    case Some(k) => codes[k := digit]
    case None => codes
  }

  /** The first pass over the input words. */
  function AssignAll(codes: seq<Code>, words: seq<string>): (r: seq<Code>)
    requires |codes| == 10
    ensures |r| == 10
  {
    if words == [] then codes
    else Assign(AssignAll(codes, words[..|words| - 1]), words[|words| - 1])
  }

  /** The slots of 1, 4, 7 and 8 are all filled. */
  predicate Complete(codes: seq<Code>)
    requires |codes| == 10
  {
    codes[1] != {} && codes[4] != {} && codes[7] != {} && codes[8] != {}
  }

  /**
   * The digit of a 5- or 6-segment pattern, told apart by which of 1, 4 and
   * "4 without 1" it contains; `digit * x == x` is the source's
   * "intersection equals x".
   */
  function Classify(digit: Code, one: Code, four: Code): (k: Option<nat>)
    ensures k.Some? <==> |digit| == 5 || |digit| == 6
    ensures k.Some? ==> k.value < 10
  {
    var lDiff := four - one;
    if |digit| == 5 then
      Some(if digit * one == one then 3 else if digit * lDiff == lDiff then 5 else 2)
    else if |digit| == 6 then
      Some(if digit * four == four then 9 else if digit * lDiff == lDiff then 6 else 0)
    else None
  }

  /** One step of the second pass: a 5- or 6-segment pattern takes the slot Classify gives it. */
  function Deduce(codes: seq<Code>, word: string): (r: seq<Code>)
    requires |codes| == 10
    ensures |r| == 10
  {
    var digit := Segments(word);
    match Classify(digit, codes[1], codes[4])
    case Some(k) => codes[k := digit]
    case None => codes
  }

  /** The second pass over the input words. */
  function DeduceAll(codes: seq<Code>, words: seq<string>): (r: seq<Code>)
    requires |codes| == 10
    ensures |r| == 10
  {
    if words == [] then codes
    else Deduce(DeduceAll(codes, words[..|words| - 1]), words[|words| - 1])
  }

  /** The first slot holding the pattern, if any. */
  function FirstMatch(codes: seq<Code>, digit: Code): (r: Option<nat>)
    ensures r.Some? ==> r.value < |codes| && codes[r.value] == digit
    ensures r.Some? ==> forall i :: 0 <= i < r.value ==> codes[i] != digit
    ensures r.None? ==> forall i :: 0 <= i < |codes| ==> codes[i] != digit
  {
    if codes == [] then None
    else if codes[0] == digit then Some(0)
    else
      match FirstMatch(codes[1..], digit)
      case Some(k) => Some(k + 1)
      case None => None
  }

  /** The output read as a base-10 number; a word matching no slot adds no digit. */
  function Reading(codes: seq<Code>, words: seq<string>): nat
  {
    if words == [] then 0
    else
      var total := Reading(codes, words[..|words| - 1]);
      match FirstMatch(codes, Segments(words[|words| - 1]))
      case Some(k) => total * 10 + k
      case None => total
  }

  /** What `calculate_output` computes, or its panic when a telling pattern is missing. */
  function Decode(signal: Signal): Result<nat>
  {
    var found := AssignAll(Blank, signal.input);
    if !Complete(found) then Err("failed to find the unique set of digits")
    else Ok(Reading(DeduceAll(found, signal.input), signal.output))
  }

  /** `calculate_output`: three loops over a ten-slot array of codes. */
  method CalculateOutput(signal: Signal) returns (r: Result<nat>)
    ensures r == Decode(signal)
  {
    var codes := new Code[10](_ => {});
    assert codes[..] == Blank;
    Reveal(codes, signal.input);
    if codes[1] == {} || codes[4] == {} || codes[7] == {} || codes[8] == {} {
      return Err("failed to find the unique set of digits");
    }
    Sort(codes, signal.input);
    var total := Read(codes, signal.output);
    r := Ok(total);
  }

  /** The first loop: a pattern of 2, 3, 4 or 7 segments overwrites the slot of 1, 7, 4 or 8. */
  method Reveal(codes: array<Code>, words: seq<string>)
    requires codes.Length == 10
    modifies codes
    ensures codes[..] == AssignAll(old(codes[..]), words)
  {
    ghost var start := codes[..];
    for i := 0 to |words|
      invariant codes[..] == AssignAll(start, words[..i])
    {
      var digit := Segments(words[i]);
      if |digit| == 2 {
        codes[1] := digit;
      } else if |digit| == 3 {
        codes[7] := digit;
      } else if |digit| == 4 {
        codes[4] := digit;
      } else if |digit| == 7 {
        codes[8] := digit;
      }
      assert words[..i + 1][..i] == words[..i];
    }
    assert words[..|words|] == words;
  }

  /** The second loop: a pattern of 5 or 6 segments overwrites the slot Classify gives it. */
  method Sort(codes: array<Code>, words: seq<string>)
    requires codes.Length == 10
    modifies codes
    ensures codes[..] == DeduceAll(old(codes[..]), words)
  {
    ghost var start := codes[..];
    for i := 0 to |words|
      invariant codes[..] == DeduceAll(start, words[..i])
    {
      var digit := Segments(words[i]);
      var lDiff := codes[4] - codes[1];
      if |digit| == 5 {
        if digit * codes[1] == codes[1] {
          codes[3] := digit;
        } else if digit * lDiff == lDiff {
          codes[5] := digit;
        } else {
          codes[2] := digit;
        }
      } else if |digit| == 6 {
        if digit * codes[4] == codes[4] {
          codes[9] := digit;
        } else if digit * lDiff == lDiff {
          codes[6] := digit;
        } else {
          codes[0] := digit;
        }
      }
      assert words[..i + 1][..i] == words[..i];
    }
    assert words[..|words|] == words;
  }

  /** The third loop: each output word matching a slot appends that slot's digit. */
  method Read(codes: array<Code>, words: seq<string>) returns (total: nat)
    requires codes.Length == 10
    ensures total == Reading(codes[..], words)
  {
    total := 0;
    for i := 0 to |words|
      invariant total == Reading(codes[..], words[..i])
    {
      var digit := Segments(words[i]);
      var index := 0;
      while index < codes.Length
        invariant 0 <= index <= codes.Length
        invariant forall j :: 0 <= j < index ==> codes[j] != digit
      {
        if digit == codes[index] {
          assert FirstMatch(codes[..], digit) == Some(index);
          total := total * 10 + index;
          break;
        }
        index := index + 1;
      }
      if index == codes.Length {
        assert FirstMatch(codes[..], digit) == None;
      }
      assert words[..i + 1][..i] == words[..i];
    }
    assert words[..|words|] == words;
  }

  // ---------------------------------------------------------------------
  // What the passes keep and find

  /** No word of the input has a pattern of this size. */
  predicate HasSize(words: seq<string>, size: nat)
  {
    exists i :: 0 <= i < |words| && |Segments(words[i])| == size
  }

  /** A slot no input pattern identifies keeps its code through the first pass. */
  lemma {:induction false} AssignUntouched(codes: seq<Code>, words: seq<string>, k: nat)
    requires |codes| == 10 && k < 10
    requires forall i :: 0 <= i < |words| ==> Revealed(|Segments(words[i])|) != Some(k)
    ensures AssignAll(codes, words)[k] == codes[k]
    decreases |words|
  {
    if words != [] {
      AssignUntouched(codes, words[..|words| - 1], k);
    }
  }

  /** The slot a size identifies ends up holding the last input pattern of that size. */
  lemma {:induction false} AssignLast(codes: seq<Code>, words: seq<string>, size: nat, k: nat, i: nat)
    requires |codes| == 10 && Revealed(size) == Some(k)
    requires i < |words| && |Segments(words[i])| == size
    requires forall j :: i < j < |words| ==> |Segments(words[j])| != size
    ensures AssignAll(codes, words)[k] == Segments(words[i])
    decreases |words|
  {
    var front := words[..|words| - 1];
    if i < |words| - 1 {
      AssignLast(codes, front, size, k, i);
    }
  }

  /** A slot fills in the first pass exactly when some input pattern has its size. */
  lemma {:induction false} AssignFound(words: seq<string>, size: nat, k: nat)
    requires Revealed(size) == Some(k)
    ensures AssignAll(Blank, words)[k] != {} <==> HasSize(words, size)
    decreases |words|
  {
    if words != [] {
      var front := words[..|words| - 1];
      AssignFound(front, size, k);
      var last := Segments(words[|words| - 1]);
      if |last| == size {
        assert words[|words| - 1] in words;
        assert last != {} by {
          assert |last| >= 2;
        }
      } else {
        if HasSize(words, size) {
          var i :| 0 <= i < |words| && |Segments(words[i])| == size;
          assert front[i] == words[i];
        }
        if HasSize(front, size) {
          var i :| 0 <= i < |front| && |Segments(front[i])| == size;
          assert words[i] == front[i];
        }
      }
    }
  }

  /** `calculate_output` panics exactly when the input lacks a pattern of 2, 3, 4 or 7 segments. */
  lemma DecodeFails(signal: Signal)
    ensures Decode(signal).Err? <==>
      !HasSize(signal.input, 2) || !HasSize(signal.input, 3) || !HasSize(signal.input, 4) || !HasSize(signal.input, 7)
  {
    AssignFound(signal.input, 2, 1);
    AssignFound(signal.input, 3, 7);
    AssignFound(signal.input, 4, 4);
    AssignFound(signal.input, 7, 8);
  }

  // ---------------------------------------------------------------------
  // Reading the output

  /** The digits read as a base-10 number, most significant first. */
  function Horner(ds: seq<nat>): nat
  {
    if ds == [] then 0 else Horner(ds[..|ds| - 1]) * 10 + ds[|ds| - 1]
  }

  /** With ten slots, each output word adds at most one decimal digit. */
  lemma {:induction false} ReadingBound(codes: seq<Code>, words: seq<string>)
    requires |codes| == 10
    ensures Reading(codes, words) < Numbers.Pow10(|words|)
    decreases |words|
  {
    if words != [] {
      var front := words[..|words| - 1];
      ReadingBound(codes, front);
      var t := Reading(codes, front);
      var p := Numbers.Pow10(|front|);
      assert Numbers.Pow10(|words|) == 10 * p;
      assert t * 10 + 9 < 10 * p by {
        assert t + 1 <= p;
        assert (t + 1) * 10 <= p * 10;
      }
    }
  }

  /** Words that match slots ds in order read as the number with digits ds. */
  lemma {:induction false} ReadingDigits(codes: seq<Code>, words: seq<string>, ds: seq<nat>)
    requires |ds| == |words|
    requires forall j :: 0 <= j < |words| ==> FirstMatch(codes, Segments(words[j])) == Some(ds[j])
    ensures Reading(codes, words) == Horner(ds)
    decreases |words|
  {
    if words != [] {
      var n := |words| - 1;
      ReadingDigits(codes, words[..n], ds[..n]);
    }
  }

  /** A word matching no slot is skipped: dropping it leaves the reading unchanged. */
  lemma {:induction false} ReadingSkips(codes: seq<Code>, words: seq<string>, k: nat)
    requires k < |words| && FirstMatch(codes, Segments(words[k])).None?
    ensures Reading(codes, words) == Reading(codes, words[..k] + words[k + 1..])
    decreases |words|
  {
    var shorter := words[..k] + words[k + 1..];
    var n := |words| - 1;
    if k == n {
      assert shorter == words[..n];
    } else {
      ReadingSkips(codes, words[..n], k);
      assert shorter[..|shorter| - 1] == words[..n][..k] + words[..n][k + 1..];
      assert shorter[|shorter| - 1] == words[n];
    }
  }

  // ---------------------------------------------------------------------
  // The deduction is right for every wiring

  /** The segments of each digit on an unscrambled display. */
  function Standard(d: nat): (s: Code)
    requires d < 10
    ensures s <= Wires
  {
    match d
    case 0 => {'a', 'b', 'c', 'e', 'f', 'g'}
    case 1 => {'c', 'f'}
    case 2 => {'a', 'c', 'd', 'e', 'g'}
    case 3 => {'a', 'c', 'd', 'f', 'g'}
    case 4 => {'b', 'c', 'd', 'f'}
    case 5 => {'a', 'b', 'd', 'f', 'g'}
    case 6 => {'a', 'b', 'd', 'e', 'f', 'g'}
    case 7 => {'a', 'c', 'f'}
    case 8 => {'a', 'b', 'c', 'd', 'e', 'f', 'g'}
    case _ => {'a', 'b', 'c', 'd', 'f', 'g'}
  }

  const Wires: set<char> := {'a', 'b', 'c', 'd', 'e', 'f', 'g'}

  /** The segment count of each digit. */
  function Size(d: nat): nat
    requires d < 10
  {
    [6, 2, 5, 5, 4, 5, 6, 3, 7, 6][d]
  }

  lemma StandardSize(d: nat)
    requires d < 10
    ensures |Standard(d)| == Size(d)
  {
  }

  lemma StandardDistinct(d: nat, e: nat)
    requires d < 10 && e < 10 && d != e
    ensures Standard(d) != Standard(e)
  {
  }

  /** On the unscrambled display Classify names the digit of every 5- and 6-segment pattern. */
  lemma StandardClassified(d: nat)
    requires d < 10
    ensures Classify(Standard(d), Standard(1), Standard(4)) == if Size(d) == 5 || Size(d) == 6 then Some(d) else None
  {
    StandardSize(d);
    assert Standard(4) - Standard(1) == {'b', 'd'};
  }

  /** A scrambling of the wires: each of a..g goes to a different letter. */
  predicate Wiring(f: map<char, char>)
  {
    f.Keys == Wires && forall c, e :: c in f && e in f && c != e ==> f[c] != f[e]
  }

  /** A pattern as the scrambled display shows it. */
  function Image(f: map<char, char>, s: Code): Code
    requires s <= f.Keys
  {
    set c | c in s :: f[c]
  }

  lemma {:induction false} ImageSize(f: map<char, char>, s: Code)
    requires Wiring(f) && s <= Wires
    ensures |Image(f, s)| == |s|
    decreases s
  {
    if s != {} {
      var x :| x in s;
      var rest := s - {x};
      ImageSize(f, rest);
      assert Image(f, s) == Image(f, rest) + {f[x]};
      assert f[x] !in Image(f, rest);
    }
  }

  lemma ImageMeet(f: map<char, char>, a: Code, b: Code)
    requires Wiring(f) && a <= Wires && b <= Wires
    ensures Image(f, a * b) == Image(f, a) * Image(f, b)
    ensures Image(f, a - b) == Image(f, a) - Image(f, b)
  {
  }

  lemma ImageInjective(f: map<char, char>, a: Code, b: Code)
    requires Wiring(f) && a <= Wires && b <= Wires && Image(f, a) == Image(f, b)
    ensures a == b
  {
    forall c | c in a
      ensures c in b
    {
      assert f[c] in Image(f, b);
    }
    forall c | c in b
      ensures c in a
    {
      assert f[c] in Image(f, a);
    }
  }

  /** Classify does not care how the wires are scrambled. */
  lemma ClassifyRenamed(f: map<char, char>, digit: Code, one: Code, four: Code)
    requires Wiring(f) && digit <= Wires && one <= Wires && four <= Wires
    ensures Classify(Image(f, digit), Image(f, one), Image(f, four)) == Classify(digit, one, four)
  {
    ImageSize(f, digit);
    ImageMeet(f, digit, one);
    ImageMeet(f, four, one);
    ImageMeet(f, digit, four);
    ImageMeet(f, digit, four - one);
    if Image(f, digit) * Image(f, one) == Image(f, one) {
      ImageInjective(f, digit * one, one);
    }
    if Image(f, digit) * Image(f, four) == Image(f, four) {
      ImageInjective(f, digit * four, four);
    }
    if Image(f, digit) * (Image(f, four) - Image(f, one)) == Image(f, four) - Image(f, one) {
      ImageInjective(f, digit * (four - one), four - one);
    }
  }

  /** Each word shows, under the wiring, the digit its label names. */
  predicate Labelled(f: map<char, char>, words: seq<string>, labels: seq<nat>)
    requires Wiring(f)
  {
    |labels| == |words| &&
    forall i :: 0 <= i < |words| ==> labels[i] < 10 && Segments(words[i]) == Image(f, Standard(labels[i]))
  }

  /** Every slot is empty or holds the scrambled pattern of its own digit. */
  predicate Partial(f: map<char, char>, codes: seq<Code>)
    requires Wiring(f)
  {
    |codes| == 10 && forall k :: 0 <= k < 10 ==> codes[k] == {} || codes[k] == Image(f, Standard(k))
  }

  /** The size of a labelled word's pattern is its digit's segment count. */
  lemma LabelledSize(f: map<char, char>, word: string, d: nat)
    requires Wiring(f) && d < 10 && Segments(word) == Image(f, Standard(d))
    ensures |Segments(word)| == Size(d)
  {
    ImageSize(f, Standard(d));
    StandardSize(d);
  }

  /** A pattern of telling size is the pattern of 1, 7, 4 or 8, whose slot it takes. */
  lemma RevealedSize(d: nat)
    requires d < 10
    ensures Revealed(Size(d)).Some? ==> Revealed(Size(d)) == Some(d)
  {
  }

  /** One first-pass step on a labelled word keeps every slot that holds its own pattern. */
  lemma AssignStep(f: map<char, char>, codes: seq<Code>, word: string, d: nat)
    requires Wiring(f) && Partial(f, codes) && d < 10 && Segments(word) == Image(f, Standard(d))
    ensures Partial(f, Assign(codes, word))
    ensures forall k :: 0 <= k < 10 && codes[k] == Image(f, Standard(k)) ==> Assign(codes, word)[k] == codes[k]
    ensures Revealed(Size(d)).Some? ==> Assign(codes, word)[d] == Image(f, Standard(d))
  {
    LabelledSize(f, word, d);
    RevealedSize(d);
  }

  /** The first pass over labelled words fills the slot of each identified digit with its pattern. */
  lemma {:induction false} AssignWired(f: map<char, char>, codes: seq<Code>, words: seq<string>, labels: seq<nat>)
    requires Wiring(f) && Partial(f, codes) && Labelled(f, words, labels)
    ensures Partial(f, AssignAll(codes, words))
    ensures forall i :: 0 <= i < |words| && Revealed(Size(labels[i])).Some? ==>
      AssignAll(codes, words)[labels[i]] == Image(f, Standard(labels[i]))
    decreases |words|
  {
    if words != [] {
      var n := |words| - 1;
      AssignWired(f, codes, words[..n], labels[..n]);
      var before := AssignAll(codes, words[..n]);
      AssignStep(f, before, words[n], labels[n]);
      forall i | 0 <= i < n && Revealed(Size(labels[i])).Some?
        ensures AssignAll(codes, words)[labels[i]] == Image(f, Standard(labels[i]))
      {
        assert labels[..n][i] == labels[i] && words[..n][i] == words[i];
      }
    }
  }

  /** One second-pass step on a labelled word keeps every slot that holds its own pattern. */
  lemma DeduceStep(f: map<char, char>, codes: seq<Code>, word: string, d: nat)
    requires Wiring(f) && Partial(f, codes) && d < 10 && Segments(word) == Image(f, Standard(d))
    requires codes[1] == Image(f, Standard(1)) && codes[4] == Image(f, Standard(4))
    ensures Partial(f, Deduce(codes, word))
    ensures forall k :: 0 <= k < 10 && codes[k] == Image(f, Standard(k)) ==> Deduce(codes, word)[k] == codes[k]
    ensures Size(d) == 5 || Size(d) == 6 ==> Deduce(codes, word)[d] == Image(f, Standard(d))
  {
    ClassifyRenamed(f, Standard(d), Standard(1), Standard(4));
    StandardClassified(d);
  }

  /** The second pass over labelled words fills the slot of each 5- and 6-segment digit and keeps the rest. */
  lemma {:induction false} DeduceWired(f: map<char, char>, codes: seq<Code>, words: seq<string>, labels: seq<nat>)
    requires Wiring(f) && Partial(f, codes) && Labelled(f, words, labels)
    requires codes[1] == Image(f, Standard(1)) && codes[4] == Image(f, Standard(4))
    ensures Partial(f, DeduceAll(codes, words))
    ensures forall k :: 0 <= k < 10 && codes[k] == Image(f, Standard(k)) ==> DeduceAll(codes, words)[k] == codes[k]
    ensures forall i :: 0 <= i < |words| && (Size(labels[i]) == 5 || Size(labels[i]) == 6) ==>
      DeduceAll(codes, words)[labels[i]] == Image(f, Standard(labels[i]))
    decreases |words|
  {
    if words != [] {
      var n := |words| - 1;
      DeduceWired(f, codes, words[..n], labels[..n]);
      var before := DeduceAll(codes, words[..n]);
      DeduceStep(f, before, words[n], labels[n]);
      forall i | 0 <= i < n && (Size(labels[i]) == 5 || Size(labels[i]) == 6)
        ensures DeduceAll(codes, words)[labels[i]] == Image(f, Standard(labels[i]))
      {
        assert labels[..n][i] == labels[i] && words[..n][i] == words[i];
      }
    }
  }

  /** A pattern a wiring shows is never empty. */
  lemma ImageFilled(f: map<char, char>, d: nat)
    requires Wiring(f) && d < 10
    ensures Image(f, Standard(d)) != {}
  {
    ImageSize(f, Standard(d));
    StandardSize(d);
  }

  /** Input words showing all ten digits fill every slot with its own pattern. */
  lemma WiredCodes(f: map<char, char>, input: seq<string>, labels: seq<nat>)
    requires Wiring(f) && Labelled(f, input, labels)
    requires forall d :: 0 <= d < 10 ==> d in labels
    ensures Complete(AssignAll(Blank, input))
    ensures forall k :: 0 <= k < 10 ==> DeduceAll(AssignAll(Blank, input), input)[k] == Image(f, Standard(k))
  {
    var found := AssignAll(Blank, input);
    AssignWired(f, Blank, input, labels);
    forall k | 0 <= k < 10 && Revealed(Size(k)).Some?
      ensures found[k] == Image(f, Standard(k))
    {
      assert k in labels;
      var i :| 0 <= i < |labels| && labels[i] == k;
    }
    ImageFilled(f, 1);
    ImageFilled(f, 4);
    ImageFilled(f, 7);
    ImageFilled(f, 8);
    DeduceWired(f, found, input, labels);
    forall k | 0 <= k < 10
      ensures DeduceAll(found, input)[k] == Image(f, Standard(k))
    {
      assert k in labels;
      var i :| 0 <= i < |labels| && labels[i] == k;
    }
  }

  /** With every slot holding its own pattern, a word showing d matches slot d first. */
  lemma WiredMatch(f: map<char, char>, codes: seq<Code>, word: string, d: nat)
    requires Wiring(f) && |codes| == 10 && forall k :: 0 <= k < 10 ==> codes[k] == Image(f, Standard(k))
    requires d < 10 && Segments(word) == Image(f, Standard(d))
    ensures FirstMatch(codes, Segments(word)) == Some(d)
  {
    var r := FirstMatch(codes, Segments(word));
    if r.Some? && r.value != d {
      ImageInjective(f, Standard(r.value), Standard(d));
      StandardDistinct(r.value, d);
    }
  }

  /**
   * For any scrambling of the wires, input words showing all ten digits and
   * output words showing digits ds, the source reads exactly the number ds.
   */
  lemma DecodeWired(f: map<char, char>, signal: Signal, labels: seq<nat>, ds: seq<nat>)
    requires Wiring(f) && Labelled(f, signal.input, labels) && Labelled(f, signal.output, ds)
    requires forall d :: 0 <= d < 10 ==> d in labels
    ensures Decode(signal) == Ok(Horner(ds))
  {
    WiredCodes(f, signal.input, labels);
    var codes := DeduceAll(AssignAll(Blank, signal.input), signal.input);
    forall j | 0 <= j < |signal.output|
      ensures FirstMatch(codes, Segments(signal.output[j])) == Some(ds[j])
    {
      WiredMatch(f, codes, signal.output[j], ds[j]);
    }
    ReadingDigits(codes, signal.output, ds);
  }
}
