/**
 * The passport checks of 2020/day4/src/main.rs: fields read from
 * `key:value` tokens, the count of passports with every required field
 * filled, and the count of passports whose fields are all valid.
 */
module Passports {
  import Text
  import opened Numbers

  datatype Passport = Passport(
    birth: string,    // byr
    issued: string,   // iyr
    expires: string,  // eyr
    height: string,   // hgt
    hair: string,     // hcl
    eye: string,      // ecl
    id: string,       // pid
    country: string)  // cid

  const Blank := Passport("", "", "", "", "", "", "", "")

  datatype Result<T> = Ok(value: T) | Err(data: string)  // a known key without a value panics on `tokens[1]`

  // Reading tokens.

  /** One `key:value` token: a known key sets its field to the text after the first colon; other keys are ignored. */
  function Assign(p: Passport, data: string): (r: Result<Passport>)
  {
    var tokens := Text.Split(data, ":");
    var key := tokens[0];
    if key !in {"byr", "iyr", "eyr", "hgt", "hcl", "ecl", "pid", "cid"} then Ok(p)
    else if |tokens| < 2 then Err(data)
    else
      var v := tokens[1];
      Ok(if key == "byr" then p.(birth := v)
         else if key == "iyr" then p.(issued := v)
         else if key == "eyr" then p.(expires := v)
         else if key == "hgt" then p.(height := v)
         else if key == "hcl" then p.(hair := v)
         else if key == "ecl" then p.(eye := v)
         else if key == "pid" then p.(id := v)
         else p.(country := v))
  }

  /**
   * A `byr` token sets the birth field, and only it, to the text between
   * the first colon and the next one (or the end).
   */
  lemma AssignBirth(p: Passport, v: string, w: string)
    requires ':' !in v
    ensures Assign(p, "byr:" + v) == Ok(p.(birth := v))
    ensures Assign(p, "byr:" + v + ":" + w) == Ok(p.(birth := v))
  {
    SplitAfterKey("byr", v);
    assert "byr:" + v == "byr" + ":" + v;
    Text.SplitChar(v, ':');
    Text.SplitJoin(v, ":");
    SplitAfterKey("byr", v + ":" + w);
    assert "byr:" + v + ":" + w == "byr" + ":" + (v + ":" + w);
    SplitAfterKey(v, w);
  }

  /** Splitting `key:rest` on ':' gives `key` and then the pieces of `rest`. */
  lemma SplitAfterKey(key: string, rest: string)
    requires ':' !in key
    ensures Text.Split(key + ":" + rest, ":") == [key] + Text.Split(rest, ":")
    decreases |key|
  {
    var s := key + ":" + rest;
    if key == [] {
      assert s[..1] == ":";
      assert s[1..] == rest;
    } else {
      assert s[..1] == [key[0]];
      assert s[1..] == key[1..] + ":" + rest;
      SplitAfterKey(key[1..], rest);
      assert [key[0]] + key[1..] == key;
    }
  }

  /** The fields a group of tokens sets, in order, later tokens overwriting earlier ones. */
  function Fill(p: Passport, datas: seq<string>): Result<Passport>
    decreases |datas|
  {
    if datas == [] then Ok(p)
    else
      match Assign(p, datas[0])
      case Err(d) => Err(d)
      case Ok(q) => Fill(q, datas[1..])
  }

  /** The passports of `load_passports`: groups split at blank lines, tokens at spaces and newlines. */
  function Load(content: string): Result<seq<Passport>>
  {
    LoadGroups(Text.Split(content, "\n\n"))
  }

  function LoadGroups(groups: seq<string>): Result<seq<Passport>>
    decreases |groups|
  {
    if groups == [] then Ok([])
    else
      match Fill(Blank, Text.SplitAny(groups[0], {' ', '\n'}))
      case Err(d) => Err(d)
      case Ok(p) =>
        match LoadGroups(groups[1..])
        case Err(d) => Err(d)
        case Ok(more) => Ok([p] + more)
  }

  /** One passport per group. */
  lemma {:induction false} LoadCount(groups: seq<string>)
    requires LoadGroups(groups).Ok?
    ensures |LoadGroups(groups).value| == |groups|
    decreases |groups|
  {
    if groups != [] {
      LoadCount(groups[1..]);
    }
  }

  /** `load_passports` over the file's content. */
  method LoadPassports(content: string) returns (r: Result<seq<Passport>>)
    ensures r == Load(content)
  {
    var groups := Text.Split(content, "\n\n");
    var passports: seq<Passport> := [];
    var g := 0;
    BeforeNothing(LoadGroups(groups));
    while g < |groups|
      invariant 0 <= g <= |groups|
      invariant LoadGroups(groups) == Before(passports, LoadGroups(groups[g..]))
    {
      assert groups[g..][0] == groups[g] && groups[g..][1..] == groups[g + 1..];
      var passport := Blank;
      var datas := Text.SplitAny(groups[g], {' ', '\n'});
      var k := 0;
      while k < |datas|
        invariant 0 <= k <= |datas|
        invariant Fill(Blank, datas) == Fill(passport, datas[k..])
      {
        assert datas[k..][0] == datas[k] && datas[k..][1..] == datas[k + 1..];
        var tokens := Text.Split(datas[k], ":");
        var key := tokens[0];
        if key in {"byr", "iyr", "eyr", "hgt", "hcl", "ecl", "pid", "cid"} {
          if |tokens| < 2 {
            return Err(datas[k]);
          }
          if key == "byr" {
            passport := passport.(birth := tokens[1]);
          } else if key == "iyr" {
            passport := passport.(issued := tokens[1]);
          } else if key == "eyr" {
            passport := passport.(expires := tokens[1]);
          } else if key == "hgt" {
            passport := passport.(height := tokens[1]);
          } else if key == "hcl" {
            passport := passport.(hair := tokens[1]);
          } else if key == "ecl" {
            passport := passport.(eye := tokens[1]);
          } else if key == "pid" {
            passport := passport.(id := tokens[1]);
          } else {
            passport := passport.(country := tokens[1]);
          }
        }
        k := k + 1;
      }
      assert datas[k..] == [];
      BeforeTwice(passports, [passport], LoadGroups(groups[g + 1..]));
      passports := passports + [passport];
      g := g + 1;
    }
    assert groups[g..] == [];
    assert passports + [] == passports;
    return Ok(passports);
  }

  function Before(ps: seq<Passport>, r: Result<seq<Passport>>): Result<seq<Passport>>
  {
    if r.Err? then r else Ok(ps + r.value)
  }

  lemma BeforeNothing(r: Result<seq<Passport>>)
    ensures Before([], r) == r
  {
    if r.Ok? {
      assert [] + r.value == r.value;
    }
  }

  lemma BeforeTwice(ps: seq<Passport>, qs: seq<Passport>, r: Result<seq<Passport>>)
    ensures Before(ps, Before(qs, r)) == Before(ps + qs, r)
  {
    if r.Ok? {
      assert ps + (qs + r.value) == (ps + qs) + r.value;
    }
  }

  // Part one.

  /** Every field but `country` is non-empty. */
  predicate Filled(p: Passport)
  {
    p.birth != "" && p.issued != "" && p.expires != "" && p.height != "" && p.hair != "" && p.eye != "" && p.id != ""
  }

  function CountFilled(ps: seq<Passport>): (n: nat)
    ensures n <= |ps|
  {
    if ps == [] then 0 else (if Filled(ps[0]) then 1 else 0) + CountFilled(ps[1..])
  }

  /** `filled`: the loop with a `continue` for each empty field. */
  method FilledCount(ps: seq<Passport>) returns (filled: nat)
    ensures filled == CountFilled(ps)
  {
    filled := 0;
    var i := 0;
    while i < |ps|
      invariant 0 <= i <= |ps|
      invariant CountFilled(ps) == filled + CountFilled(ps[i..])
    {
      assert ps[i..][0] == ps[i] && ps[i..][1..] == ps[i + 1..];
      var p := ps[i];
      i := i + 1;
      if p.birth == "" { continue; }
      if p.issued == "" { continue; }
      if p.expires == "" { continue; }
      if p.height == "" { continue; }
      if p.hair == "" { continue; }
      if p.eye == "" { continue; }
      if p.id == "" { continue; }
      filled := filled + 1;
    }
    assert ps[i..] == [];
  }

  // Part two.

  const I32Min := -0x8000_0000
  const I32Max := 0x7fff_ffff

  /** `str::parse::<i32>`. */
  function ParseI32(s: string): Option<int>
  {
    ParseInteger(s, I32Min, I32Max)
  }

  /** An unparseable year counts as year 0. */
  function Year(s: string): int
  {
    match ParseI32(s)
    case Some(v) => v
    case None => 0
  }

  predicate HexDigit(c: char)
  {
    IsDigit(c) || 'a' <= c <= 'f'
  }

  predicate EyeColour(e: string)
  {
    e in {"amb", "blu", "brn", "grn", "gry", "hzl", "oth"}
  }

  /** The height check: at least three characters, a "cm" or "in" unit and an i32 before it, in range for the unit. */
  predicate HeightValid(h: string)
  {
    |h| >= 3 &&
    var units := h[|h| - 2..];
    var number := ParseI32(h[..|h| - 2]);
    number.Some? && (units == "cm" || units == "in") &&
    if units == "cm" then 150 <= number.value <= 193 else 59 <= number.value <= 76
  }

  predicate HairValid(h: string)
  {
    |h| == 7 && h[0] == '#' && forall i :: 1 <= i < 7 ==> HexDigit(h[i])
  }

  predicate IdValid(id: string)
  {
    |id| == 9 && ParseI32(id).Some?
  }

  /** All of `validate`'s checks, in its order. */
  predicate Valid(p: Passport)
  {
    && 1920 <= Year(p.birth) <= 2002
    && 2010 <= Year(p.issued) <= 2020
    && 2020 <= Year(p.expires) <= 2030
    && HeightValid(p.height)
    && HairValid(p.hair)
    && EyeColour(p.eye)
    && IdValid(p.id)
  }

  /** A valid passport has every required field filled, since each check fails on an empty field. */
  lemma ValidIsFilled(p: Passport)
    requires Valid(p)
    ensures Filled(p)
  {
    assert ParseI32("") == None;
  }

  /** Nine ASCII digits always parse as an i32: 999999999 is below 2^31. */
  lemma NineDigitsParse(id: string)
    requires |id| == 9 && AllDigits(id)
    ensures IdValid(id) && ParseI32(id) == Some(DigitsValue(id))
  {
    DigitsBound(id);
    assert Pow10(9) == 1_000_000_000;
    assert IsDigit(id[0]);
  }

  function CountValid(ps: seq<Passport>): (n: nat)
    ensures n <= |ps|
  {
    if ps == [] then 0 else (if Valid(ps[0]) then 1 else 0) + CountValid(ps[1..])
  }

  /** Part two never counts more than part one. */
  lemma {:induction false} ValidAtMostFilled(ps: seq<Passport>)
    ensures CountValid(ps) <= CountFilled(ps) <= |ps|
    decreases |ps|
  {
    if ps != [] {
      if Valid(ps[0]) {
        ValidIsFilled(ps[0]);
      }
      ValidAtMostFilled(ps[1..]);
    }
  }

  /** The `for elem in hair_chars[1..]` loop: the flag stays true exactly while every character is a hex digit. */
  method HairColour(hair: string) returns (validColour: bool)
    requires |hair| >= 1
    ensures validColour <==> forall i :: 1 <= i < |hair| ==> HexDigit(hair[i])
  {
    validColour := true;
    var k := 1;
    while k < |hair|
      invariant 1 <= k <= |hair|
      invariant validColour <==> forall i :: 1 <= i < k ==> HexDigit(hair[i])
    {
      if !HexDigit(hair[k]) {
        validColour := false;
      }
      k := k + 1;
    }
  }

  /** The height checks of `validate`: a number, then "cm" within 150..193 or "in" within 59..76. */
  method CheckHeight(h: string) returns (valid: bool)
    ensures valid == HeightValid(h)
  {
    if |h| < 3 { return false; }
    var units := h[|h| - 2..];
    var height := ParseI32(h[..|h| - 2]);
    if height.None? { return false; }
    var metric;
    if units == "cm" {
      metric := true;
    } else if units == "in" {
      metric := false;
    } else {
      return false;
    }
    if metric {
      if height.value > 193 || height.value < 150 { return false; }
    } else {
      if height.value > 76 || height.value < 59 { return false; }
    }
    return true;
  }

  /** The hair checks of `validate`: seven characters, a '#' and six lower-case hex digits. */
  method CheckHair(hair: string) returns (valid: bool)
    ensures valid == HairValid(hair)
  {
    if |hair| != 7 { return false; }
    if hair[0] != '#' { return false; }
    valid := HairColour(hair);
  }

  /** The checks of one pass of `validate`'s loop, each failing check a `continue`. */
  method CheckPassport(p: Passport) returns (valid: bool)
    ensures valid == Valid(p)
  {
    var birth := Year(p.birth);
    if birth > 2002 || birth < 1920 { return false; }
    var issued := Year(p.issued);
    if issued > 2020 || issued < 2010 { return false; }
    var expires := Year(p.expires);
    if expires > 2030 || expires < 2020 { return false; }
    var heightOk := CheckHeight(p.height);
    if !heightOk { return false; }
    var hairOk := CheckHair(p.hair);
    if !hairOk { return false; }
    if !EyeColour(p.eye) { return false; }
    if |p.id| != 9 { return false; }
    if ParseI32(p.id).None? { return false; }
    return true;
  }

  /** `validate`: the number of valid passports. */
  method ValidCount(ps: seq<Passport>) returns (valid: nat)
    ensures valid == CountValid(ps)
  {
    valid := 0;
    var i := 0;
    while i < |ps|
      invariant 0 <= i <= |ps|
      invariant CountValid(ps) == valid + CountValid(ps[i..])
    {
      assert ps[i..][0] == ps[i] && ps[i..][1..] == ps[i + 1..];
      var ok := CheckPassport(ps[i]);
      if ok {
        valid := valid + 1;
      }
      i := i + 1;
    }
    assert ps[i..] == [];
  }
}
