/**
 * The two password policies of archive/2020/day2/src/main.rs: the sled
 * policy bounds how often the required letter occurs, the toboggan policy
 * wants it at exactly one of two 1-based positions.
 */
module PasswordPhilosophy {

  /** `letters[first-1]` with a position of 0 underflows `usize` and panics. */
  datatype Result<T> = Ok(value: T) | Underflow

  /** `valid_password_sled`: the count of `required` lies in min..=max. */
  method ValidPasswordSled(password: string, required: char, min: int, max: int) returns (valid: bool)
    ensures valid <==> min <= multiset(password)[required] <= max
  {
    var requiredCount := 0;
    for i := 0 to |password|
      invariant requiredCount == multiset(password[..i])[required]
    {
      assert password[..i + 1] == password[..i] + [password[i]];
      if password[i] == required {
        requiredCount := requiredCount + 1;
      }
    }
    assert password[..|password|] == password;
    if requiredCount >= min && requiredCount <= max {
      return true;
    }
    return false;
  }

  /** `valid_password_toboggan`, positions counted from 1. */
  function ValidPasswordToboggan(password: string, required: char, first: nat, second: nat): (r: Result<bool>)
    ensures r == Underflow <==> first <= |password| && second <= |password| && (first == 0 || second == 0)
    ensures r == Ok(true) <==>
      1 <= first <= |password| && 1 <= second <= |password|
      && ((password[first - 1] == required) != (password[second - 1] == required))
  {
    if first > |password| || second > |password| then Ok(false)
    else if first == 0 || second == 0 then Underflow
    else
      var count := (if password[first - 1] == required then 1 else 0) + (if password[second - 1] == required then 1 else 0);
      Ok(count == 1)
  }

  /** Equal positions never qualify: the letter is at both or at neither. */
  lemma SamePosition(password: string, required: char, position: nat)
    ensures ValidPasswordToboggan(password, required, position, position) != Ok(true)
  {
  }

  /** A position past the end rules the password out, even when the other position holds the letter. */
  lemma PastTheEnd(password: string, required: char, first: nat, second: nat)
    requires first > |password| || second > |password|
    ensures ValidPasswordToboggan(password, required, first, second) == Ok(false)
  {
  }
}
