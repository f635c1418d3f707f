/**
 * Repose records (2018 day 4, in Go).  Every record is a timestamped
 * event: a guard begins a shift, falls asleep or wakes up.  The records are
 * sorted by their timestamp text; the sleep map then counts, for every
 * guard and minute, how often the guard was credited with sleeping through
 * that minute.  Strategy 1 picks the guard with the most minutes asleep and
 * that guard's most frequent minute; strategy 2 picks the guard and minute
 * with the largest count of all.
 */
module ReposeRecord {
  import opened Tallies

  type U64 = n: nat | n < 0x1_0000_0000_0000_0000

  /** `eventType`: `start`, `sleep` and `wake`. */
  datatype Event = Start | Sleep | Wake

  /** `record`: the guard (set on a shift start only), the timestamp text and its parts, and the event. */
  datatype Record = Record(id: U64, fullDate: string, date: string, hour: U64, minute: U64, event: Event)

  datatype Option<T> = None | Some(value: T)

  // Ordering by timestamp.

  /** Go's `<` on strings: character by character, a proper prefix first. */
  function Less(a: string, b: string): bool
  {
    if a == [] then b != []
    else if b == [] then false
    else a[0] < b[0] || (a[0] == b[0] && Less(a[1..], b[1..]))
  }

  /** `sortByDate`: the first record's timestamp comes before the second's. */
  function SortByDate(first: Record, second: Record): bool
  {
    Less(first.fullDate, second.fullDate)
  }

  /** The order is the lexicographic one: at the first difference the smaller character wins, and a proper prefix comes first. */
  lemma {:induction false} LessMeans(a: string, b: string)
    ensures Less(a, b) <==>
              exists k :: 0 <= k <= |a| && k < |b| && a[..k] == b[..k] && (k == |a| || a[k] < b[k])
    decreases |a|
  {
    if a != [] && b != [] {
      LessMeans(a[1..], b[1..]);
      if Less(a, b) && a[0] == b[0] && !(a[0] < b[0]) {
        var k :| 0 <= k <= |a[1..]| && k < |b[1..]| && a[1..][..k] == b[1..][..k] && (k == |a[1..]| || a[1..][k] < b[1..][k]);
        assert a[..k + 1] == [a[0]] + a[1..][..k];
        assert b[..k + 1] == [b[0]] + b[1..][..k];
      }
      if exists k :: 0 <= k <= |a| && k < |b| && a[..k] == b[..k] && (k == |a| || a[k] < b[k]) {
        var k :| 0 <= k <= |a| && k < |b| && a[..k] == b[..k] && (k == |a| || a[k] < b[k]);
        if k > 0 {
          assert a[0] == a[..k][0] == b[..k][0] == b[0];
          assert a[1..][..k - 1] == a[..k][1..] == b[..k][1..] == b[1..][..k - 1];
          assert k - 1 == |a[1..]| || a[1..][k - 1] < b[1..][k - 1];
        }
      }
    } else if a == [] && b != [] {
      assert a[..0] == b[..0];
    }
  }

  lemma {:induction false} LessIrreflexive(a: string)
    ensures !Less(a, a)
    decreases |a|
  {
    if a != [] {
      LessIrreflexive(a[1..]);
    }
  }

  lemma {:induction false} LessTransitive(a: string, b: string, c: string)
    requires Less(a, b) && Less(b, c)
    ensures Less(a, c)
    decreases |a|
  {
    if a != [] && a[0] == b[0] && b[0] == c[0] {
      LessTransitive(a[1..], b[1..], c[1..]);
    }
  }

  /** Two different timestamps are always ordered one way or the other. */
  lemma {:induction false} LessTotal(a: string, b: string)
    ensures a == b || Less(a, b) || Less(b, a)
    decreases |a|
  {
    if a != [] && b != [] && a[0] == b[0] {
      LessTotal(a[1..], b[1..]);
      if a[1..] == b[1..] {
        assert a == [a[0]] + a[1..] && b == [b[0]] + b[1..];
      }
    }
  }

  /** "Not after" is transitive, as a sort needs. */
  lemma NotAfterTransitive(a: string, b: string, c: string)
    requires !Less(b, a) && !Less(c, b)
    ensures !Less(c, a)
  {
    LessTotal(a, b);
    LessTotal(b, c);
    if Less(c, a) {
      if a != b && b != c {
        LessTransitive(a, b, c);
        LessTransitive(a, c, a);
        LessIrreflexive(a);
      }
    }
  }

  /** Records lo..hi-1 are in timestamp order: no record comes after a later one. */
  ghost predicate SortedRange(s: seq<Record>, lo: int, hi: int)
    requires 0 <= lo <= hi <= |s|
  {
    forall k, m :: lo <= k < m < hi ==> !Less(s[m].fullDate, s[k].fullDate)
  }

  /** Record j is being moved down into the sorted records 0..i-1 by adjacent swaps. */
  ghost predicate Inserting(s: seq<Record>, i: int, j: int)
  {
    && 0 <= j <= i < |s|
    && SortedRange(s, 0, j)
    && SortedRange(s, j, i + 1)
    && forall k, m :: 0 <= k < j < m <= i ==> !Less(s[m].fullDate, s[k].fullDate)
  }

  lemma SwapStep(s: seq<Record>, i: int, j: int)
    requires Inserting(s, i, j) && j > 0 && Less(s[j].fullDate, s[j - 1].fullDate)
    ensures Inserting(s[j - 1 := s[j]][j := s[j - 1]], i, j - 1)
  {
    var t := s[j - 1 := s[j]][j := s[j - 1]];
    assert !Less(s[j - 1].fullDate, s[j].fullDate) by {
      if Less(s[j - 1].fullDate, s[j].fullDate) {
        LessTransitive(s[j].fullDate, s[j - 1].fullDate, s[j].fullDate);
        LessIrreflexive(s[j].fullDate);
      }
    }
    assert SortedRange(t, j - 1, i + 1) by {
      forall k, m | j - 1 <= k < m <= i
        ensures !Less(t[m].fullDate, t[k].fullDate)
      {
        if k == j - 1 && m > j {
          assert t[k] == s[j] && t[m] == s[m];
        }
      }
    }
  }

  lemma InsertDone(s: seq<Record>, i: int, j: int)
    requires Inserting(s, i, j) && (j == 0 || !Less(s[j].fullDate, s[j - 1].fullDate))
    ensures SortedRange(s, 0, i + 1)
  {
    forall k, m | 0 <= k < m <= i
      ensures !Less(s[m].fullDate, s[k].fullDate)
    {
      if k < j - 1 && m == j {
        NotAfterTransitive(s[k].fullDate, s[j - 1].fullDate, s[j].fullDate);
      }
    }
  }

  /** `sort.Sort` with `sortByDate`, in place: the records end in timestamp order, the same records as before. */
  method SortRecords(a: array<Record>)
    modifies a
    ensures SortedRange(a[..], 0, a.Length)
    ensures multiset(a[..]) == multiset(old(a[..]))
  {
    var i := 0;
    while i < a.Length
      invariant 0 <= i <= a.Length
      invariant SortedRange(a[..], 0, i)
      invariant multiset(a[..]) == multiset(old(a[..]))
    {
      var j := i;
      while j > 0 && SortByDate(a[j], a[j - 1])
        invariant Inserting(a[..], i, j)
        invariant multiset(a[..]) == multiset(old(a[..]))
        decreases j
      {
        SwapStep(a[..], i, j);
        a[j - 1], a[j] := a[j], a[j - 1];
        j := j - 1;
      }
      InsertDone(a[..], i, j);
      i := i + 1;
    }
  }

  // The sleep map.

  /** The guard on duty, and the record read last. */
  datatype Watch = Watch(current: U64, last: Record)

  /** The guard is credited with sleeping through minutes from..to-1. */
  datatype Span = Span(guard: U64, from: nat, to: nat)

  /**
   * What one record credits: a shift start credits the previous guard from the last
   * record's minute unless that record was a wake-up; a wake-up in the watch hour
   * credits the guard from the last record's minute, or from 0 when that record was in
   * another hour; falling asleep credits nothing.
   */
  function Credit(w: Watch, r: Record): Option<Span>
  {
    match r.event
    case Start => if w.last.event != Wake then Some(Span(w.current, w.last.minute, r.minute)) else None
    case Wake =>
      if r.hour == 0 then Some(Span(w.current, if w.last.hour != 0 then 0 else w.last.minute, r.minute))
      else None
    case Sleep => None
  }

  /** A shift start changes the guard on duty; every record becomes the last one read. */
  function Next(w: Watch, r: Record): Watch
  {
    Watch(if r.event == Start then r.id else w.current, r)
  }

  /** One more for each minute from..to-1. */
  function Bump(mm: map<U64, nat>, from: nat, to: U64): (r: map<U64, nat>)
    ensures forall k: U64 :: k in r <==> k in mm || from <= k < to
    ensures forall k: U64 :: Get(r, k) == Get(mm, k) + (if from <= k < to then 1 else 0)
    decreases (to as int) - from
  {
    if from >= to then mm
    else
      var r := Bump(Add(mm, from as U64, 1), from + 1, to);
      assert forall k: U64 :: Get(r, k) == Get(mm, k) + (if from <= k < to then 1 else 0) by {
        assert forall k: U64 :: Get(Add(mm, from as U64, 1), k) == Get(mm, k) + (if k == from then 1 else 0);
      }
      r
  }

  /** The minute map of a guard; a guard never credited has none. */
  function Inner(m: map<U64, map<U64, nat>>, id: U64): map<U64, nat>
  {
    if id in m then m[id] else map[]
  }

  /** Crediting a span creates the guard's minute map, if missing, and bumps its minutes. */
  function Apply(m: map<U64, map<U64, nat>>, c: Option<Span>): map<U64, map<U64, nat>>
    requires c.Some? ==> c.value.to < 0x1_0000_0000_0000_0000
  {
    match c
    case None => m
    case Some(s) => m[s.guard := Bump(Inner(m, s.guard), s.from, s.to as U64)]
  }

  lemma CreditBounded(w: Watch, r: Record)
    ensures Credit(w, r).Some? ==> Credit(w, r).value.to == r.minute
  {
  }

  /** The records from here on, read from the watch w into the sleep map m. */
  function Fold(w: Watch, m: map<U64, map<U64, nat>>, records: seq<Record>): map<U64, map<U64, nat>>
    decreases |records|
  {
    if records == [] then m
    else
      CreditBounded(w, records[0]);
      Fold(Next(w, records[0]), Apply(m, Credit(w, records[0])), records[1..])
  }

  /** `sleepMap`: no records give no map; otherwise the first record's guard is on duty. */
  function Sleeps(records: seq<Record>): map<U64, map<U64, nat>>
  {
    if records == [] then map[] else Fold(Watch(records[0].id, records[0]), map[], records)
  }

  /** The spans credited, in order, reading the records from the watch w. */
  function SpansFrom(w: Watch, records: seq<Record>): seq<Span>
    decreases |records|
  {
    if records == [] then []
    else
      var rest := SpansFrom(Next(w, records[0]), records[1..]);
      match Credit(w, records[0])
      case None => rest
      case Some(s) => [s] + rest
  }

  function Spans(records: seq<Record>): seq<Span>
  {
    if records == [] then [] else SpansFrom(Watch(records[0].id, records[0]), records)
  }

  /** How many of the spans credit guard g with minute k. */
  function Covering(spans: seq<Span>, g: U64, k: U64): nat
  {
    if spans == [] then 0
    else (if spans[0].guard == g && spans[0].from <= k < spans[0].to then 1 else 0) + Covering(spans[1..], g, k)
  }

  /** Some span credits guard g, even with no minutes. */
  predicate Credited(spans: seq<Span>, g: U64)
  {
    exists i :: 0 <= i < |spans| && spans[i].guard == g
  }

  lemma CoveringCons(s: Span, rest: seq<Span>, g: U64, k: U64)
    ensures Covering([s] + rest, g, k) == (if s.guard == g && s.from <= k < s.to then 1 else 0) + Covering(rest, g, k)
    ensures Credited([s] + rest, g) <==> s.guard == g || Credited(rest, g)
  {
    assert ([s] + rest)[1..] == rest;
    if Credited(rest, g) {
      var i :| 0 <= i < |rest| && rest[i].guard == g;
      assert ([s] + rest)[i + 1] == rest[i];
    }
    if Credited([s] + rest, g) && s.guard != g {
      var i :| 0 <= i < |[s] + rest| && ([s] + rest)[i].guard == g;
      assert rest[i - 1] == ([s] + rest)[i];
    }
  }

  /** Reading more records keeps every count, adding one for each credited span that covers the minute. */
  lemma {:induction false} FoldMeaning(w: Watch, m: map<U64, map<U64, nat>>, records: seq<Record>)
    ensures forall g: U64 :: g in Fold(w, m, records) <==> g in m || Credited(SpansFrom(w, records), g)
    ensures forall g: U64, k: U64 :: Get(Inner(Fold(w, m, records), g), k) == Get(Inner(m, g), k) + Covering(SpansFrom(w, records), g, k)
    decreases |records|
  {
    if records != [] {
      var r := records[0];
      CreditBounded(w, r);
      var m' := Apply(m, Credit(w, r));
      FoldMeaning(Next(w, r), m', records[1..]);
      var rest := SpansFrom(Next(w, r), records[1..]);
      match Credit(w, r)
      case None =>
      case Some(s) =>
        assert Fold(w, m, records) == Fold(Next(w, r), m', records[1..]);
        assert SpansFrom(w, records) == [s] + rest;
        forall g: U64 ensures (g in Fold(w, m, records) <==> g in m || Credited(SpansFrom(w, records), g))
        {
          CoveringCons(s, rest, g, 0);
        }
        forall g: U64, k: U64 ensures Get(Inner(Fold(w, m, records), g), k) == Get(Inner(m, g), k) + Covering(SpansFrom(w, records), g, k)
        {
          CoveringCons(s, rest, g, k);
          ApplyGet(m, s, g, k);
        }
    }
  }

  /** Crediting a span adds one to the guard's count of each minute it covers. */
  lemma ApplyGet(m: map<U64, map<U64, nat>>, s: Span, g: U64, k: U64)
    requires s.to < 0x1_0000_0000_0000_0000
    ensures Get(Inner(Apply(m, Some(s)), g), k) == Get(Inner(m, g), k) + (if s.guard == g && s.from <= k < s.to then 1 else 0)
  {
    if g == s.guard {
      var b := Bump(Inner(m, g), s.from, s.to as U64);
      assert Inner(Apply(m, Some(s)), g) == b;
      assert Get(b, k) == Get(Inner(m, g), k) + (if s.from <= k < s.to then 1 else 0);
    }
  }

  /**
   * The sleep map has a minute map exactly for the guards credited with some span, and
   * counts for each guard and minute the credited spans that cover that minute.
   */
  lemma SleepsMeaning(records: seq<Record>)
    ensures forall g: U64 :: g in Sleeps(records) <==> Credited(Spans(records), g)
    ensures forall g: U64, k: U64 :: Get(Inner(Sleeps(records), g), k) == Covering(Spans(records), g, k)
  {
    if records != [] {
      FoldMeaning(Watch(records[0].id, records[0]), map[], records);
    }
  }

  /** The minute loop of `sleepMap`: one more for each minute from the last record's up to this one's. */
  method BumpMinutes(mm: map<U64, nat>, from: U64, to: U64) returns (r: map<U64, nat>)
    ensures r == Bump(mm, from, to)
  {
    r := mm;
    var minute: nat := from;
    while minute < to
      invariant Bump(r, minute, to) == Bump(mm, from, to)
      decreases (to as int) - minute
    {
      r := r[minute as U64 := Get(r, minute as U64) + 1];
      minute := minute + 1;
    }
  }

  /** `sleepMap`, record by record. */
  method SleepMap(records: seq<Record>) returns (m: map<U64, map<U64, nat>>)
    ensures m == Sleeps(records)
  {
    m := map[];
    if |records| == 0 {
      return;
    }
    var current := records[0].id;
    var last := records[0];
    var i := 0;
    while i < |records|
      invariant 0 <= i <= |records|
      invariant Fold(Watch(current, last), m, records[i..]) == Sleeps(records)
    {
      var record := records[i];
      assert records[i..][0] == record && records[i..][1..] == records[i + 1..];
      match record.event {
        case Start =>
          if last.event != Wake {
            var minuteMap := BumpMinutes(Inner(m, current), last.minute, record.minute);
            m := m[current := minuteMap];
          }
          current := record.id;
          last := record;
        case Wake =>
          if record.hour == 0 {
            var from := last.minute;
            if last.hour != 0 {
              from := 0;
            }
            var minuteMap := BumpMinutes(Inner(m, current), from, record.minute);
            m := m[current := minuteMap];
          }
          last := record;
        case Sleep =>
          last := record;
      }
      i := i + 1;
    }
  }

  /** A night with one nap. */
  function Night(): seq<Record>
  {
    [Record(10, "1518-11-01 23:58", "1518-11-01", 23, 58, Start),
     Record(0, "1518-11-02 00:05", "1518-11-02", 0, 5, Sleep),
     Record(0, "1518-11-02 00:25", "1518-11-02", 0, 25, Wake)]
  }

  lemma NightSpans()
    ensures Spans(Night()) == [Span(10, 58, 58), Span(10, 5, 25)]
  {
    var n := Night();
    var w0 := Watch(10, n[0]);
    assert n[1..][1..][1..] == [];
    assert SpansFrom(Next(Next(w0, n[0]), n[1]), n[1..][1..]) == [Span(10, 5, 25)];
    assert SpansFrom(Next(w0, n[0]), n[1..]) == [Span(10, 5, 25)];
  }

  lemma NightCredited(g: U64)
    ensures Credited(Spans(Night()), g) <==> g == 10
  {
    NightSpans();
    var sp := Spans(Night());
    if g == 10 {
      assert sp[0].guard == 10;
    }
  }

  /** Nobody but guard 10 is in the map of that night. */
  lemma NightGuards()
    ensures Sleeps(Night()).Keys == {10}
  {
    SleepsMeaning(Night());
    forall g: U64
      ensures g in Sleeps(Night()) <==> g == 10
    {
      NightCredited(g);
    }
  }

  /** Guard 10 slept each of minutes 5 to 24 once that night, and no other minute. */
  lemma NightMinutes(k: U64)
    ensures Get(Inner(Sleeps(Night()), 10), k) == if 5 <= k < 25 then 1 else 0
  {
    NightSpans();
    SleepsMeaning(Night());
    var sp := Spans(Night());
    assert sp[1..][1..] == [];
    assert Covering(sp, 10, k) == if 5 <= k < 25 then 1 else 0;
  }

  /** Two shift starts with no nap in between. */
  function Shifts(): seq<Record>
  {
    [Record(10, "1518-11-01 00:00", "1518-11-01", 0, 0, Start),
     Record(99, "1518-11-02 00:03", "1518-11-02", 0, 3, Start)]
  }

  /**
   * A shift start right after another one, when the earlier guard never fell asleep,
   * still credits the earlier guard with the minutes between the two starts.
   */
  lemma AwakeShiftCredited()
    ensures Get(Inner(Sleeps(Shifts()), 10), 2) == 1
  {
    var n := Shifts();
    var w0 := Watch(10, n[0]);
    assert n[1..][1..] == [];
    assert SpansFrom(Next(w0, n[0]), n[1..]) == [Span(10, 0, 3)];
    assert Spans(n) == [Span(10, 0, 0), Span(10, 0, 3)];
    SleepsMeaning(n);
    assert Spans(n)[1..][1..] == [];
  }

  // Choosing a guard and a minute.

  /**
   * k is where the strict-maximum scan of f, starting from count 0 at key 0, may stop:
   * a key with the largest count when some count is positive, and 0 otherwise.
   */
  predicate Peak(f: map<U64, nat>, k: U64)
  {
    if exists j :: j in f && f[j] > 0 then k in f && forall j :: j in f ==> f[j] <= f[k]
    else k == 0
  }

  /**
   * The minute loops of `mostSleep` and `mostLikelyAsleep`: the minute with the most
   * sleep, replaced only by a strictly larger count, and its count.
   */
  method MostMinute(mm: map<U64, nat>) returns (minute: U64, count: nat)
    ensures Peak(mm, minute)
    ensures count == Get(mm, minute)
    ensures forall k :: k in mm ==> mm[k] <= count
  {
    minute, count := 0, 0;
    var keys := mm.Keys;
    while keys != {}
      invariant keys <= mm.Keys
      invariant forall k :: k in mm.Keys - keys ==> mm[k] <= count
      invariant count > 0 ==> minute in mm && mm[minute] == count
      invariant count == 0 ==> minute == 0
      decreases keys
    {
      var k :| k in keys;
      if mm[k] > count {
        count, minute := mm[k], k;
      }
      keys := keys - {k};
    }
  }

  /** The counts of the entries visited so far, those not in keys, add up to total. */
  ghost predicate Summing(mm: map<U64, nat>, keys: set<U64>, total: nat)
  {
    keys <= mm.Keys && total == Total(Restrict(mm, mm.Keys - keys))
  }

  lemma SummingStep(mm: map<U64, nat>, keys: set<U64>, total: nat, k: U64)
    requires Summing(mm, keys, total) && k in keys
    ensures Summing(mm, keys - {k}, total + mm[k])
  {
    assert (mm.Keys - keys) + {k} == mm.Keys - (keys - {k});
    TotalRestrict(mm, mm.Keys - keys, k);
  }

  /** The loop summing a guard's minute counts in `mostSleep`: all the guard's minutes asleep. */
  method SumCounts(mm: map<U64, nat>) returns (total: nat)
    ensures total == Total(mm)
  {
    total := 0;
    var keys := mm.Keys;
    assert mm.Keys - keys == {};
    TotalRestrictAll(mm);
    while keys != {}
      invariant Summing(mm, keys, total)
      decreases keys
    {
      var k :| k in keys;
      SummingStep(mm, keys, total, k);
      total := total + mm[k];
      keys := keys - {k};
    }
    assert mm.Keys - keys == mm.Keys;
  }

  /** The minutes each guard slept in all. */
  ghost function GuardTotals(m: map<U64, map<U64, nat>>): (t: map<U64, nat>)
    ensures t.Keys == m.Keys
    ensures forall g :: g in t ==> t[g] == Total(m[g])
  {
    map g | g in m :: Total(m[g])
  }

  /**
   * `mostSleep` (strategy 1): the guard who slept the most minutes in all, 0 when nobody
   * slept, and that guard's most slept minute.
   */
  method MostSleep(m: map<U64, map<U64, nat>>) returns (id: U64, minute: U64)
    ensures Peak(GuardTotals(m), id)
    ensures Peak(Inner(m, id), minute)
  {
    var most: nat := 0;
    id := 0;
    var keys := m.Keys;
    while keys != {}
      invariant keys <= m.Keys
      invariant forall g :: g in m.Keys - keys ==> Total(m[g]) <= most
      invariant most > 0 ==> id in m && Total(m[id]) == most
      invariant most == 0 ==> id == 0
      decreases keys
    {
      var g :| g in keys;
      var total := SumCounts(m[g]);
      if total > most {
        most, id := total, g;
      }
      keys := keys - {g};
    }
    var count;
    minute, count := MostMinute(Inner(m, id));
  }

  /** A guard's most slept minute and how often it was slept, as the first loop of `mostLikelyAsleep` finds them. */
  datatype Likely = Likely(minute: U64, count: nat)

  /** l is the outcome of the minute scan over the guard's minute map mm. */
  predicate Summarizes(mm: map<U64, nat>, l: Likely)
  {
    Peak(mm, l.minute) && l.count == Get(mm, l.minute) && forall k :: k in mm ==> mm[k] <= l.count
  }

  /** A missing guard reads as the zero value. */
  function LikelyOf(likely: map<U64, Likely>, g: U64): Likely
  {
    if g in likely then likely[g] else Likely(0, 0)
  }

  /**
   * `mostLikelyAsleep` (strategy 2): the guard and minute with the largest count of all,
   * guard 0 and minute 0 when nobody slept.
   */
  method MostLikelyAsleep(m: map<U64, map<U64, nat>>) returns (id: U64, minute: U64)
    ensures id in m || id == 0
    ensures Peak(Inner(m, id), minute)
    ensures forall g, k :: g in m && k in m[g] ==> m[g][k] <= Get(Inner(m, id), minute)
  {
    var likely: map<U64, Likely> := map[];
    var keys := m.Keys;
    while keys != {}
      invariant keys <= m.Keys
      invariant likely.Keys == m.Keys - keys
      invariant forall g :: g in likely ==> Summarizes(m[g], likely[g])
      decreases keys
    {
      var g :| g in keys;
      var best, count := MostMinute(m[g]);
      likely := likely[g := Likely(best, count)];
      keys := keys - {g};
    }
    assert likely.Keys == m.Keys;
    id := 0;
    keys := likely.Keys;
    while keys != {}
      invariant keys <= likely.Keys
      invariant id in likely || id == 0
      invariant forall g :: g in likely.Keys - keys ==> likely[g].count <= LikelyOf(likely, id).count
      decreases keys
    {
      var g :| g in keys;
      if likely[g].count > LikelyOf(likely, id).count {
        id := g;
      }
      keys := keys - {g};
    }
    minute := LikelyOf(likely, id).minute;
    forall g, k | g in m && k in m[g]
      ensures m[g][k] <= Get(Inner(m, id), minute)
    {
      assert Summarizes(m[g], likely[g]);
    }
  }
}
