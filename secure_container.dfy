/**
 * Password check of archive/2019/day4/src/main.rs: a number is a valid
 * password when it has at least six digits, its digits never decrease
 * from left to right, and some run of equal digits has length exactly two.
 */
module SecureContainer {

  /** The decimal digits of n, least significant first, as the `while num > 9` loop pushes them. */
  function Digits(n: int): (ds: seq<int>)
    ensures |ds| >= 1
  {
    if n > 9 then [n % 10] + Digits(n / 10) else [n]
  }

  /** The number written by digits ds, least significant first. */
  function Value(ds: seq<int>): int
  {
    if ds == [] then 0 else ds[0] + 10 * Value(ds[1..])
  }

  /** The digits of a non-negative number are decimal digits and spell the number. */
  lemma {:induction false} DigitsValue(n: int)
    requires n >= 0
    ensures Value(Digits(n)) == n
    ensures forall i :: 0 <= i < |Digits(n)| ==> 0 <= Digits(n)[i] <= 9
    decreases n
  {
    if n > 9 {
      DigitsValue(n / 10);
      assert Digits(n)[1..] == Digits(n / 10);
    }
  }

  function Pow10(k: nat): (p: nat)
    ensures k >= 1 ==> p >= 10
  {
    if k == 0 then 1 else 10 * Pow10(k - 1)
  }

  /** A number has more than k digits exactly when it is at least 10^k; a negative number has one. */
  lemma {:induction false} DigitsLength(n: int, k: nat)
    requires k >= 1
    ensures |Digits(n)| > k <==> n >= Pow10(k)
    ensures n <= 9 ==> |Digits(n)| == 1
    decreases k
  {
    if k > 1 {
      if n > 9 {
        DigitsLength(n / 10, k - 1);
      }
    }
  }

  /** Digits k and k + 1 form a run of equal digits of length exactly two. */
  predicate ExactPairAt(ds: seq<int>, k: int)
  {
    0 <= k && k + 1 < |ds| && ds[k] == ds[k + 1]
    && (k == 0 || ds[k - 1] != ds[k])
    && (k + 2 == |ds| || ds[k + 2] != ds[k])
  }

  /** Some run of equal digits, in either reading order, has length exactly two. */
  predicate HasExactPair(ds: seq<int>)
  {
    exists k :: 0 <= k < |ds| && ExactPairAt(ds, k)
  }

  /** Read most significant first, the digits never decrease. */
  predicate NeverDecreasing(ds: seq<int>)
  {
    forall j :: 1 <= j < |ds| ==> ds[j] <= ds[j - 1]
  }

  /** The password rules. */
  predicate Valid(n: int)
  {
    var ds := Digits(n);
    |ds| >= 6 && NeverDecreasing(ds) && HasExactPair(ds)
  }

  /** The length of the run of equal digits that ends at digit i - 1. */
  function RunLength(ds: seq<int>, i: int): (r: nat)
    requires 1 <= i <= |ds|
    ensures 1 <= r <= i
  {
    if i == 1 || ds[i - 1] != ds[i - 2] then 1 else RunLength(ds, i - 1) + 1
  }

  /** The digit-building loop of `is_valid`. */
  method DigitsOf(num: int) returns (digits: seq<int>)
    ensures digits == Digits(num)
  {
    digits := [];
    var rest := num;
    while rest > 9
      invariant Digits(num) == digits + Digits(rest)
      decreases rest
    {
      assert Digits(rest) == [rest % 10] + Digits(rest / 10);
      digits := digits + [rest % 10];
      rest := rest / 10;
    }
    digits := digits + [rest];
  }

  /**
   * `is_valid`: the digits, least significant first, then one pass over
   * them that counts the current run of equal digits and stops at a decrease.
   */
  method IsValid(num: int) returns (valid: bool)
    ensures valid == Valid(num)
  {
    var digits := DigitsOf(num);
    if |digits| < 6 {
      return false;
    }
    valid := Scan(digits);
  }

  /** The pass over at least six digits: never decreasing and with an exact pair. */
  method Scan(digits: seq<int>) returns (valid: bool)
    requires |digits| >= 6
    ensures valid == (NeverDecreasing(digits) && HasExactPair(digits))
  {
    var double := false;
    var count := 1;
    var prev := digits[0];
    var i := 1;
    while i < |digits|
      invariant 1 <= i <= |digits|
      invariant prev == digits[i - 1] && count == RunLength(digits, i)
      invariant forall j :: 1 <= j < i ==> digits[j] <= digits[j - 1]
      invariant double <==> exists k :: 0 <= k && k + 2 < i && ExactPairAt(digits, k)
    {
      var digit := digits[i];
      if digit == prev {
        count := count + 1;
      } else {
        if count == 2 {
          assert ExactPairAt(digits, i - 2);
          double := true;
        } else if i >= 2 {
          NoPairEnding(digits, i);
        }
        count := 1;
      }
      assert ExactPairAt(digits, i - 2) ==> double;
      if digit > prev {
        return false;
      }
      prev := digit;
      i := i + 1;
    }
    if count == 2 {
      assert ExactPairAt(digits, i - 2);
      double := true;
    } else {
      NoPairEnding(digits, i);
    }
    return double;
  }

  /** A run ending at digit i - 1 whose length is not two is not an exact pair there. */
  lemma NoPairEnding(ds: seq<int>, i: int)
    requires 2 <= i <= |ds| && RunLength(ds, i) != 2
    requires i < |ds| ==> ds[i] != ds[i - 1]
    ensures !ExactPairAt(ds, i - 2)
  {
  }

  /** Fewer than six digits is never a password. */
  lemma TooShort(n: int)
    requires n < 100000
    ensures !Valid(n)
  {
    DigitsLength(n, 5);
    assert Pow10(5) == 100000;
  }

  /** A digit larger than the digit to its right is never a password. */
  lemma Decreasing(n: int, j: int)
    requires 1 <= j < |Digits(n)| && Digits(n)[j] > Digits(n)[j - 1]
    ensures !Valid(n)
  {
  }

  /** The first number `main` prints as a test. */
  lemma FirstExample()
    ensures Valid(112233)
  {
    assert Digits(1) == [1];
    assert Digits(11) == [1, 1];
    assert Digits(112) == [2, 1, 1];
    assert Digits(1122) == [2, 2, 1, 1];
    assert Digits(11223) == [3, 2, 2, 1, 1];
    assert Digits(112233) == [3, 3, 2, 2, 1, 1];
    assert ExactPairAt(Digits(112233), 0);
  }

  /** The second: the only run longer than one has length three. */
  lemma SecondExample()
    ensures !Valid(123444)
  {
    var ds := Digits(123444);
    assert Digits(1) == [1];
    assert Digits(12) == [2, 1];
    assert Digits(123) == [3, 2, 1];
    assert Digits(1234) == [4, 3, 2, 1];
    assert Digits(12344) == [4, 4, 3, 2, 1];
    assert Digits(123444) == [4, 4, 4, 3, 2, 1];
    assert !ExactPairAt(ds, 0) && !ExactPairAt(ds, 1);
  }

  /** The third: a run of four does not spoil the pair before it. */
  lemma ThirdExample()
    ensures Valid(111122)
  {
    assert Digits(1) == [1];
    assert Digits(11) == [1, 1];
    assert Digits(111) == [1, 1, 1];
    assert Digits(1111) == [1, 1, 1, 1];
    assert Digits(11112) == [2, 1, 1, 1, 1];
    assert Digits(111122) == [2, 2, 1, 1, 1, 1];
    assert ExactPairAt(Digits(111122), 0);
  }

  /** The number of passwords among lo, lo + 1, ..., hi. */
  function Passwords(lo: int, hi: int): nat
    decreases hi - lo
  {
    if hi < lo then 0 else Passwords(lo, hi - 1) + (if Valid(hi) then 1 else 0)
  }

  /** `main`'s count over `begin..end+1`. */
  method CountPasswords(begin: int, end: int) returns (count: nat)
    ensures count == Passwords(begin, end)
    ensures count <= if end < begin then 0 else end - begin + 1
  {
    count := 0;
    var number := begin;
    while number <= end
      invariant begin <= number && (end < begin ==> number == begin) && (begin <= end ==> number <= end + 1)
      invariant count == Passwords(begin, number - 1)
      invariant count <= if number <= begin then 0 else number - begin
      decreases end - number
    {
      var ok := IsValid(number);
      if ok {
        count := count + 1;
      }
      number := number + 1;
    }
  }
}
