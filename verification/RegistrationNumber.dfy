/**
 The operator registration number of EN 4709-02 and its base-36 check character
 (`OperatorRegistrationNumberValidator`).

     FIN 87astrdge12k 8 - xyz
     0-2 3-14         15 16 17-19      country code, base, check character, dash, secret suffix

 Characters are ASCII.
 */
module RegistrationNumber {

  const CODE_POINTS := "0123456789abcdefghijklmnopqrstuvwxyz"

  predicate IsCodePoint(c: char) {
    '0' <= c <= '9' || 'a' <= c <= 'z'
  }

  predicate IsAlnum(c: char) {
    IsCodePoint(c) || 'A' <= c <= 'Z'
  }

  predicate AllAlnum(s: string) {
    s != [] && forall i :: 0 <= i < |s| ==> IsAlnum(s[i])
  }

  /** The position of a code point in the table. */
  function Value(c: char): (v: nat)
    requires IsCodePoint(c)
    ensures v < 36
  {
    if c <= '9' then c as int - '0' as int else c as int - 'a' as int + 10
  }

  lemma ValueInverse(v: nat)
    requires v < 36
    ensures IsCodePoint(CODE_POINTS[v]) && Value(CODE_POINTS[v]) == v
  {
  }

  lemma ValueInjective(a: char, b: char)
    requires IsCodePoint(a) && IsCodePoint(b)
    ensures Value(a) == Value(b) <==> a == b
    ensures CODE_POINTS[Value(a)] == a
  {
    ValueInverse(Value(a));
  }

  function PartialSum(number: nat, multFactor: nat): nat {
    number * multFactor / 36 + number * multFactor % 36
  }

  /** The factors alternate, starting with `multFactor`, which is 2 or 1. */
  function FinalSum(digits: seq<nat>, multFactor: nat): nat
    requires 1 <= multFactor <= 2
  {
    if digits == [] then 0 else PartialSum(digits[0], multFactor) + FinalSum(digits[1..], 3 - multFactor)
  }

  function ControlNumber(finalSum: int): (r: nat)
    ensures r < 36
  {
    -finalSum % 36
  }

  function Digits(raw: string): seq<nat>
    requires forall i :: 0 <= i < |raw| ==> IsCodePoint(raw[i])
  {
    seq(|raw|, i requires 0 <= i < |raw| => Value(raw[i]))
  }

  /** `ValueError` is what the validator catches; a character missing from the table raises
      `KeyError`, which it does not. */
  datatype Outcome<T> = Return(value: T) | ValueError | KeyError

  function GenChecksum(rawId: string): Outcome<char> {
    if !AllAlnum(rawId) then ValueError
    else if |rawId| != 15 then ValueError
    else if i :| 0 <= i < |rawId| && !IsCodePoint(rawId[i]) then KeyError
    else Return(CODE_POINTS[ControlNumber(FinalSum(Digits(rawId), 2))])
  }

  function Split(s: string, separator: char): (parts: seq<string>)
    ensures parts != []
    ensures |parts| == 1 ==> |parts[0]| == |s|
    ensures |parts| == 2 ==> |parts[0]| + 1 + |parts[1]| == |s|
  {
    if s == [] then [[]]
    else
      var rest := Split(s[1..], separator);
      if s[0] == separator then [[]] + rest else [[s[0]] + rest[0]] + rest[1..]
  }

  function IsValid(number: string): Outcome<bool> {
    var parts := Split(number, '-');
    if |parts| != 2 then Return(false)
    else
      var oprn, secureCharacters := parts[0], parts[1];
      if |oprn| != 16 then Return(false)
      else if |secureCharacters| != 3 then Return(false)
      else
        var baseId := oprn[3..15];
        if !AllAlnum(baseId) then Return(false)
        else
          match GenChecksum(baseId + number[|number| - 3..])
          case Return(computed) => Return(computed == number[|number| - 5])
          case ValueError => Return(false)
          case KeyError => KeyError
  }

  predicate Accepted(number: string) {
    IsValid(number) == Return(true)
  }

  // ---------- Splitting at the dash ----------

  lemma SplitMore(s: string, separator: char)
    requires s != []
    ensures |Split(s, separator)| == |Split(s[1..], separator)| + if s[0] == separator then 1 else 0
  {
  }

  lemma {:induction false} SplitTwo(s: string, separator: char)
    ensures |Split(s, separator)| == 1 <==> separator !in s
    ensures |Split(s, separator)| == 1 ==> Split(s, separator) == [s]
    ensures |Split(s, separator)| == 2 ==>
              var parts := Split(s, separator);
              s == parts[0] + [separator] + parts[1] && separator !in parts[0] && separator !in parts[1]
  {
    if s != [] {
      SplitTwo(s[1..], separator);
      SplitMore(s, separator);
      assert s == [s[0]] + s[1..];
      assert s[0] != separator ==> Split(s, separator)[0] == [s[0]] + Split(s[1..], separator)[0];
    }
  }

  lemma {:induction false} SplitJoined(a: string, b: string, separator: char)
    requires separator !in a && separator !in b
    ensures Split(a + [separator] + b, separator) == [a, b]
  {
    if a == [] {
      assert (a + [separator] + b)[1..] == b;
      SplitTwo(b, separator);
    } else {
      assert (a + [separator] + b)[1..] == a[1..] + [separator] + b;
      assert a == [a[0]] + a[1..] && a[0] in a;
      SplitJoined(a[1..], b, separator);
    }
  }

  // ---------- When a number is accepted ----------

  /** The shape the validator asks for. */
  predicate WellFormed(number: string) {
    && |number| == 20
    && (forall i :: 0 <= i < 20 ==> (number[i] == '-' <==> i == 16))
    && (forall i :: 3 <= i < 20 && i != 16 ==> IsCodePoint(number[i]))
  }

  /** What the check character protects: the base and the suffix, but not the country code. */
  function Protected(number: string): string
    requires |number| == 20
  {
    number[3..15] + number[17..]
  }

  function Total(number: string): nat
    requires WellFormed(number)
  {
    FinalSum(Digits(Protected(number)), 2) + Value(number[15])
  }

  lemma CheckCharacter(sum: nat, c: char)
    ensures c == CODE_POINTS[ControlNumber(sum)] <==> IsCodePoint(c) && (sum + Value(c)) % 36 == 0
  {
    ValueInverse(ControlNumber(sum));
    if IsCodePoint(c) {
      ValueInjective(c, CODE_POINTS[ControlNumber(sum)]);
      Complement(sum, Value(c));
    }
  }

  lemma Complement(sum: nat, v: nat)
    requires v < 36
    ensures v == ControlNumber(sum) <==> (sum + v) % 36 == 0
  {
  }

  /** A number is accepted if and only if it has the right shape and its weighted digits,
      including the check character, add up to a multiple of 36. */
  lemma AcceptedIff(number: string)
    ensures Accepted(number) <==> WellFormed(number) && Total(number) % 36 == 0
  {
    if WellFormed(number) {
      assert number == number[..16] + ['-'] + number[17..];
      SplitJoined(number[..16], number[17..], '-');
      assert number[..16][3..15] == number[3..15];
      CheckCharacter(FinalSum(Digits(Protected(number)), 2), number[15]);
    } else if Accepted(number) {
      AcceptedIsWellFormed(number);
    }
  }

  lemma AcceptedIsWellFormed(number: string)
    requires Accepted(number)
    ensures WellFormed(number)
  {
    SplitTwo(number, '-');
    var parts := Split(number, '-');
    var oprn, suffix := parts[0], parts[1];
    assert number == oprn + ['-'] + suffix && |number| == 20;
    forall i | 0 <= i < 20 ensures number[i] == '-' <==> i == 16 {
      assert i < 16 ==> number[i] == oprn[i];
      assert i > 16 ==> number[i] == suffix[i - 17];
    }
    var raw := oprn[3..15] + number[17..];
    assert forall i :: 3 <= i < 15 ==> number[i] == raw[i - 3];
    assert forall i :: 17 <= i < 20 ==> number[i] == raw[i - 5];
    CheckCharacter(FinalSum(Digits(raw), 2), number[15]);
  }

  /** For every country code, base and suffix, exactly one check character is accepted: the one
      `GenChecksum` computes. */
  lemma ExactlyOneCheckCharacter(country: string, base: string, suffix: string, check: char)
    requires |country| == 3 && '-' !in country
    requires |base| == 12 && forall i :: 0 <= i < 12 ==> IsCodePoint(base[i])
    requires |suffix| == 3 && forall i :: 0 <= i < 3 ==> IsCodePoint(suffix[i])
    ensures Accepted(country + base + [check] + "-" + suffix) <==> GenChecksum(base + suffix) == Return(check)
  {
    var number := country + base + [check] + "-" + suffix;
    Assembled(country, base, suffix, check);
    AcceptedIff(number);
    CheckCharacter(FinalSum(Digits(base + suffix), 2), check);
    assert GenChecksum(base + suffix) == Return(CODE_POINTS[ControlNumber(FinalSum(Digits(base + suffix), 2))]);
  }

  lemma Assembled(country: string, base: string, suffix: string, check: char)
    requires |country| == 3 && '-' !in country
    requires |base| == 12 && forall i :: 0 <= i < 12 ==> IsCodePoint(base[i])
    requires |suffix| == 3 && forall i :: 0 <= i < 3 ==> IsCodePoint(suffix[i])
    ensures var number := country + base + [check] + "-" + suffix;
            && |number| == 20 && number[15] == check
            && Protected(number) == base + suffix
            && (WellFormed(number) <==> IsCodePoint(check))
  {
    var number := country + base + [check] + "-" + suffix;
    assert number[3..15] == base && number[17..] == suffix;
    assert number[16] == '-';
    assert forall i :: 0 <= i < 3 ==> number[i] == country[i];
    assert forall i :: 3 <= i < 15 ==> number[i] == base[i - 3];
    assert forall i :: 17 <= i < 20 ==> number[i] == suffix[i - 17];
  }

  // ---------- Error detection ----------

  /** The partial sum of a doubled digit. */
  function Double(x: nat): nat {
    if x < 18 then 2 * x else 2 * x - 35
  }

  lemma DoubleIsPartialSum(x: nat)
    requires x < 36
    ensures PartialSum(x, 2) == Double(x) < 36
    ensures PartialSum(x, 1) == x
  {
  }

  lemma {:induction false} FinalSumUpdate(digits: seq<nat>, factor: nat, i: nat, x: nat)
    requires 1 <= factor <= 2 && i < |digits|
    ensures var f := if i % 2 == 0 then factor else 3 - factor;
            FinalSum(digits[i := x], factor) + PartialSum(digits[i], f) == FinalSum(digits, factor) + PartialSum(x, f)
  {
    if i == 0 {
      assert digits[0 := x][1..] == digits[1..];
    } else {
      assert digits[i := x][1..] == digits[1..][i - 1 := x];
      FinalSumUpdate(digits[1..], 3 - factor, i - 1, x);
    }
  }

  /** What the character at position `p` adds to the total. */
  function Weight(p: nat, c: char): nat
    requires 3 <= p < 20 && p != 16 && IsCodePoint(c)
  {
    if p == 15 || p % 2 == 0 then Value(c) else Double(Value(c))
  }

  lemma TotalUpdate(number: string, p: nat, c: char)
    requires WellFormed(number) && 3 <= p < 20 && p != 16 && IsCodePoint(c)
    ensures WellFormed(number[p := c])
    ensures Total(number[p := c]) + Weight(p, number[p]) == Total(number) + Weight(p, c)
  {
    var updated := number[p := c];
    if p == 15 {
      assert Protected(updated) == Protected(number);
    } else {
      ProtectedUpdate(number, p, c);
      DigitUpdate(Digits(Protected(number)), RawIndex(p), Value(c));
    }
  }

  /** Where the character at position `p` stands among the protected ones: the doubled places are
      the odd positions. */
  function RawIndex(p: nat): (i: nat)
    requires 3 <= p < 20 && p != 15 && p != 16
    ensures i < 15 && (i % 2 == 0 <==> p % 2 == 1)
  {
    if p < 15 then p - 3 else p - 5
  }

  lemma ProtectedUpdate(number: string, p: nat, c: char)
    requires WellFormed(number) && 3 <= p < 20 && p != 15 && p != 16 && IsCodePoint(c)
    ensures Digits(Protected(number[p := c])) == Digits(Protected(number))[RawIndex(p) := Value(c)]
    ensures Digits(Protected(number))[RawIndex(p)] == Value(number[p])
  {
  }

  lemma DigitUpdate(digits: seq<nat>, i: nat, x: nat)
    requires i < |digits| && digits[i] < 36 && x < 36
    ensures FinalSum(digits[i := x], 2) + (if i % 2 == 0 then Double(digits[i]) else digits[i])
         == FinalSum(digits, 2) + (if i % 2 == 0 then Double(x) else x)
  {
    FinalSumUpdate(digits, 2, i, x);
    DoubleIsPartialSum(digits[i]);
    DoubleIsPartialSum(x);
  }

  lemma WeightInjective(p: nat, a: char, b: char)
    requires 3 <= p < 20 && p != 16 && IsCodePoint(a) && IsCodePoint(b)
    ensures Weight(p, a) < 36 && Weight(p, b) < 36
    ensures Weight(p, a) == Weight(p, b) <==> a == b
  {
  }

  /** Replacing one character of an accepted number by any other goes undetected if and only if it is
      in the country code and not replaced by a dash. */
  lemma SubstitutionDetectedIff(number: string, p: nat, c: char)
    requires Accepted(number) && p < |number| && c != number[p]
    ensures Accepted(number[p := c]) <==> p < 3 && c != '-'
  {
    AcceptedIff(number);
    AcceptedIff(number[p := c]);
    if p < 3 {
      assert c == '-' ==> number[p := c][p] == '-';
      if c != '-' {
        CountryUnprotected(number, number[p := c]);
      }
    } else if p != 16 && IsCodePoint(c) {
      SubstitutionInside(number, p, c);
    } else {
      assert number[p := c][p] == c;
    }
  }

  /** The total does not depend on the country code. */
  lemma CountryUnprotected(number: string, changed: string)
    requires WellFormed(number) && |changed| == 20 && changed[3..] == number[3..]
    requires forall i :: 0 <= i < 3 ==> changed[i] != '-'
    ensures WellFormed(changed) && Total(changed) == Total(number)
  {
    assert forall i :: 3 <= i < 20 ==> changed[i] == changed[3..][i - 3] == number[3..][i - 3] == number[i];
    assert Protected(changed) == Protected(number);
  }

  lemma SubstitutionInside(number: string, p: nat, c: char)
    requires WellFormed(number) && Total(number) % 36 == 0
    requires 3 <= p < 20 && p != 16 && IsCodePoint(c) && c != number[p]
    ensures WellFormed(number[p := c]) && Total(number[p := c]) % 36 != 0
  {
    TotalUpdate(number, p, c);
    WeightInjective(p, c, number[p]);
    NearMultiples(Total(number), Total(number[p := c]));
  }

  lemma NearMultiples(a: nat, b: nat)
    requires a % 36 == 0 && a != b && -36 < b - a < 36
    ensures b % 36 != 0
  {
  }

  lemma AddToMultiple(a: int, d: int)
    requires a % 36 == 0
    ensures (a + d) % 36 == 0 <==> d % 36 == 0
  {
  }

  function Swap(number: string, p: nat): string
    requires p + 1 < |number|
  {
    number[p := number[p + 1]][p + 1 := number[p]]
  }

  /** The swaps of two adjacent different characters that the check character cannot see: inside
      the country code; of `0` and `z` next to each other inside the base or the suffix; and of
      the last base character with the check character, whose weights are the same. */
  predicate Undetectable(number: string, p: nat)
    requires p + 1 < |number|
  {
    p < 2 || p == 14 || (p != 2 && ZeroAndZ(number[p], number[p + 1]))
  }

  predicate ZeroAndZ(a: char, b: char) {
    (a == '0' && b == 'z') || (a == 'z' && b == '0')
  }

  /** Every other swap of two adjacent different characters is detected; one that moves the dash is too. */
  lemma SwapDetectedIff(number: string, p: nat)
    requires Accepted(number) && p + 1 < |number| && number[p] != number[p + 1]
    ensures Accepted(Swap(number, p)) <==> Undetectable(number, p)
  {
    AcceptedIff(number);
    AcceptedIff(Swap(number, p));
    if p < 2 {
      CountryUnprotected(number, Swap(number, p));
    } else if p == 2 {
      SwapIntoBase(number);
    } else if p == 15 || p == 16 {
      assert Swap(number, p)[16] != '-';
    } else {
      SwapInside(number, p);
    }
  }

  lemma SwapInside(number: string, p: nat)
    requires WellFormed(number) && Total(number) % 36 == 0
    requires 3 <= p < 19 && p != 15 && p != 16 && number[p] != number[p + 1]
    ensures WellFormed(Swap(number, p)) && (Total(Swap(number, p)) % 36 == 0 <==> Undetectable(number, p))
  {
    var a, b := number[p], number[p + 1];
    TotalUpdate(number, p, b);
    TotalUpdate(number[p := b], p + 1, a);
    SwapWeights(p, a, b);
    AddToMultiple(Total(number), Weight(p, b) + Weight(p + 1, a) - Weight(p, a) - Weight(p + 1, b));
  }

  lemma SwapIntoBase(number: string)
    requires WellFormed(number) && Total(number) % 36 == 0
    requires number[2] != number[3]
    ensures WellFormed(Swap(number, 2)) ==> Total(Swap(number, 2)) % 36 != 0
  {
    assert Swap(number, 2)[3] == number[2];
    if !IsCodePoint(number[2]) {
      return;
    }
    var changed := number[3 := number[2]];
    SubstitutionInside(number, 3, number[2]);
    assert Protected(Swap(number, 2)) == Protected(changed);
    assert Swap(number, 2)[15] == changed[15];
  }

  /** Exchanging `a` at `p` and `b` at `p + 1` keeps the total modulo 36 only for the pairs above. */
  lemma SwapWeights(p: nat, a: char, b: char)
    requires 3 <= p < 19 && p != 15 && p != 16 && IsCodePoint(a) && IsCodePoint(b) && a != b
    ensures (Weight(p, b) + Weight(p + 1, a) - Weight(p, a) - Weight(p + 1, b)) % 36 == 0 <==>
            (p == 14 || ZeroAndZ(a, b))
  {
    SwapDifference(p, a, b, Weight(p, b) + Weight(p + 1, a) - Weight(p, a) - Weight(p + 1, b));
  }

  lemma SwapDifference(p: nat, a: char, b: char, d: int)
    requires p != 15 && IsCodePoint(a) && IsCodePoint(b) && a != b
    requires d == if p == 14 then 0
                  else if p % 2 == 0 then Double(Value(a)) + Value(b) - Double(Value(b)) - Value(a)
                  else Double(Value(b)) + Value(a) - Double(Value(a)) - Value(b)
    ensures d % 36 == 0 <==> (p == 14 || ZeroAndZ(a, b))
  {
    ValueInjective(a, b);
    DoubleMinusSingle(Value(a), Value(b));
    Extremes(a);
    Extremes(b);
  }

  lemma Extremes(c: char)
    requires IsCodePoint(c)
    ensures Value(c) == 0 <==> c == '0'
    ensures Value(c) == 35 <==> c == 'z'
  {
  }

  /** Modulo 36, `Double(x) - x` takes every value once, except that 0 and 35 share one. */
  lemma DoubleMinusSingle(x: nat, y: nat)
    requires x < 36 && y < 36 && x != y
    ensures (Double(x) + y - Double(y) - x) % 36 == 0 <==> (x == 0 && y == 35) || (x == 35 && y == 0)
    ensures (Double(y) + x - Double(x) - y) % 36 == 0 <==> (x == 0 && y == 35) || (x == 35 && y == 0)
  {
    var d := Double(x) + y - Double(y) - x;
    assert -36 <= d <= 36;
  }

  // ---------- The table and the weights, from the outside ----------

  /** The digits come before the letters, and both in their own order. */
  lemma TableInOrder(a: char, b: char)
    requires ('0' <= a <= '9' || 'a' <= a <= 'z') && ('0' <= b <= '9' || 'a' <= b <= 'z')
    ensures IsCodePoint(a) && IsCodePoint(b) && (Value(a) < Value(b) <==> a < b)
    ensures Value('0') == 0 && Value('z') == 35
  {
  }

  /** The digits, every other one doubled; a double counts by its base-36 digit sum. */
  function WeightedSum(digits: seq<nat>, doubled: bool): nat {
    if digits == [] then 0
    else
      var x := digits[0];
      (if !doubled then x else if x < 18 then 2 * x else 1 + (2 * x - 36)) + WeightedSum(digits[1..], !doubled)
  }

  /** The check character makes up this sum, beginning with a double, to a multiple of 36. */
  lemma {:induction false} FinalSumIsWeightedSum(digits: seq<nat>, factor: nat)
    requires 1 <= factor <= 2 && forall i :: 0 <= i < |digits| ==> digits[i] < 36
    ensures FinalSum(digits, factor) == WeightedSum(digits, factor == 2)
  {
    if digits != [] {
      DoubleIsPartialSum(digits[0]);
      FinalSumIsWeightedSum(digits[1..], 3 - factor);
    }
  }

  lemma ControlNumberCompletes(sum: nat)
    ensures 0 <= ControlNumber(sum) < 36 && (sum + ControlNumber(sum)) % 36 == 0
  {
    Complement(sum, ControlNumber(sum));
  }

  // ---------- When the validator itself fails ----------

  /** The right lengths around one dash, and letters and digits where they belong. */
  predicate Shaped(number: string) {
    && |number| == 20
    && (forall i :: 0 <= i < 20 ==> (number[i] == '-' <==> i == 16))
    && (forall i :: 3 <= i < 20 && i != 15 && i != 16 ==>
          '0' <= number[i] <= '9' || 'a' <= number[i] <= 'z' || 'A' <= number[i] <= 'Z')
  }

  /** Computing a check character is refused for anything but fifteen letters and digits, fails on
      upper-case letters, and otherwise gives one of the table. */
  lemma ChecksumOutcomes(raw: string)
    ensures GenChecksum(raw) == ValueError <==>
            |raw| != 15 ||
            exists i :: 0 <= i < |raw| && !('0' <= raw[i] <= '9' || 'a' <= raw[i] <= 'z' || 'A' <= raw[i] <= 'Z')
    ensures GenChecksum(raw) == KeyError <==>
            |raw| == 15 && (exists i :: 0 <= i < |raw| && 'A' <= raw[i] <= 'Z') &&
            forall i :: 0 <= i < |raw| ==> '0' <= raw[i] <= '9' || 'a' <= raw[i] <= 'z' || 'A' <= raw[i] <= 'Z'
    ensures GenChecksum(raw).Return? ==> GenChecksum(raw).value in CODE_POINTS
  {
    if |raw| == 15 && (exists i :: 0 <= i < |raw| && 'A' <= raw[i] <= 'Z') {
      var i :| 0 <= i < |raw| && 'A' <= raw[i] <= 'Z';
      assert !IsCodePoint(raw[i]);
    }
  }

  /** Instead of an answer there is an uncaught error if and only if the number has the right shape
      but an upper-case letter in its base or suffix. */
  lemma FailsIff(number: string)
    ensures IsValid(number) != ValueError
    ensures IsValid(number) == KeyError <==>
            Shaped(number) && exists i :: 3 <= i < 20 && i != 15 && i != 16 && 'A' <= number[i] <= 'Z'
  {
    if Shaped(number) {
      assert number == number[..16] + ['-'] + number[17..];
      SplitJoined(number[..16], number[17..], '-');
      assert number[..16][3..15] == number[3..15];
      RawFails(number);
    } else if IsValid(number) == KeyError {
      FailedIsShaped(number);
    }
  }

  lemma RawFails(number: string)
    requires Shaped(number)
    ensures var raw := number[3..15] + number[17..];
            && AllAlnum(raw) && AllAlnum(number[3..15]) && |raw| == 15
            && ((exists k :: 0 <= k < 15 && !IsCodePoint(raw[k])) <==>
                exists i :: 3 <= i < 20 && i != 15 && i != 16 && 'A' <= number[i] <= 'Z')
  {
    var raw := number[3..15] + number[17..];
    assert forall i :: 3 <= i < 15 ==> number[i] == raw[i - 3];
    assert forall i :: 17 <= i < 20 ==> number[i] == raw[i - 5];
    if k :| 0 <= k < 15 && !IsCodePoint(raw[k]) {
      var i := if k < 12 then k + 3 else k + 5;
      assert 'A' <= number[i] <= 'Z';
    }
  }

  lemma FailedIsShaped(number: string)
    requires IsValid(number) == KeyError
    ensures Shaped(number)
  {
    SplitTwo(number, '-');
    var parts := Split(number, '-');
    var oprn, suffix := parts[0], parts[1];
    assert number == oprn + ['-'] + suffix && |number| == 20;
    forall i | 0 <= i < 20 ensures number[i] == '-' <==> i == 16 {
      assert i < 16 ==> number[i] == oprn[i];
      assert i > 16 ==> number[i] == suffix[i - 17];
    }
    var raw := oprn[3..15] + number[17..];
    assert forall i :: 3 <= i < 15 ==> number[i] == raw[i - 3];
    assert forall i :: 17 <= i < 20 ==> number[i] == raw[i - 5];
  }
}
