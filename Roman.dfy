/** `toRoman` (src/prompts.ts): greedy subtractive encoding of a number as a
    Roman numeral over a fixed table of thirteen value/symbol pairs, and a
    standard subtractive decoder that reads such a numeral back. */
module Roman {

  /** The thirteen values of the table, largest first. */
  const Values: seq<nat> := [1000, 900, 500, 400, 100, 90, 50, 40, 10, 9, 5, 4, 1]

  /** The symbol written for each entry of `Values`. */
  const Symbols: seq<string> := ["M", "CM", "D", "CD", "C", "XC", "L", "XL", "X", "IX", "V", "IV", "I"]

  /** The value of one Roman digit; every other character is worth nothing. */
  function DigitValue(c: char): nat
  {
    match c
    case 'I' => 1
    case 'V' => 5
    case 'X' => 10
    case 'L' => 50
    case 'C' => 100
    case 'D' => 500
    case 'M' => 1000
    case _ => 0
  }

  /** The greedy encoding of `n` using table entries `i` and later: take the
      entry's symbol as long as its value still fits, then move on. */
  function Greedy(n: nat, i: nat): string
    requires i <= |Values|
    decreases |Values| - i, n
  {
    if i == |Values| then ""
    else if n >= Values[i] then Symbols[i] + Greedy(n - Values[i], i)
    else Greedy(n, i + 1)
  }

  /** The upper-case numeral for `n`; the empty string for 0. */
  function RomanOf(n: nat): string
  {
    Greedy(n, 0)
  }

  /** The standard reading of a numeral: a digit followed by a larger one
      stands for their difference, any other digit for its own value. */
  function Decode(s: string): int
  {
    if |s| == 0 then 0
    else if |s| >= 2 && DigitValue(s[0]) < DigitValue(s[1]) then
      DigitValue(s[1]) - DigitValue(s[0]) + Decode(s[2..])
    else DigitValue(s[0]) + Decode(s[1..])
  }

  /** What the encoder and decoder need to know about each table entry. */
  lemma TableEntry(i: nat)
    requires i < |Values|
    ensures |Symbols| == |Values|
    ensures Values[i] >= 1
    ensures |Symbols[i]| == 1 || |Symbols[i]| == 2
    ensures DigitValue(Symbols[i][0]) <= Values[i]
    ensures |Symbols[i]| == 1 ==> DigitValue(Symbols[i][0]) == Values[i]
    ensures |Symbols[i]| == 2 ==>
              DigitValue(Symbols[i][0]) < DigitValue(Symbols[i][1]) &&
              DigitValue(Symbols[i][1]) - DigitValue(Symbols[i][0]) == Values[i]
    ensures forall j :: i <= j < |Values| ==> Values[j] <= Values[i]
  {
  }

  /** The first digit of a greedy encoding from entry `i` is worth at most
      the value of entry `i`. */
  lemma {:induction false} GreedyFirstDigit(n: nat, i: nat)
    requires i < |Values|
    requires Greedy(n, i) != ""
    ensures DigitValue(Greedy(n, i)[0]) <= Values[i]
    decreases |Values| - i, n
  {
    TableEntry(i);
    if n < Values[i] {
      GreedyFirstDigit(n, i + 1);
      TableEntry(i + 1);
    }
  }

  /** Decoding the greedy encoding of `n` gives `n` back. */
  lemma {:induction false} DecodeGreedy(n: nat, i: nat)
    requires i < |Values| || (i == |Values| && n == 0)
    ensures Decode(Greedy(n, i)) == n
    decreases |Values| - i, n
  {
    if i < |Values| {
      TableEntry(i);
      if n >= Values[i] {
        var rest := Greedy(n - Values[i], i);
        var s := Symbols[i] + rest;
        DecodeGreedy(n - Values[i], i);
        if |Symbols[i]| == 1 {
          if rest != "" {
            GreedyFirstDigit(n - Values[i], i);
          }
          assert s[0] == Symbols[i][0];
          assert |s| >= 2 ==> s[1] == rest[0];
          assert s[1..] == rest;
        } else {
          assert s[0] == Symbols[i][0] && s[1] == Symbols[i][1];
          assert s[2..] == rest;
        }
      } else {
        DecodeGreedy(n, i + 1);
      }
    }
  }

  /** When `n` is below the values of all entries before `i`, the encoding
      starts at entry `i`. */
  lemma {:induction false} GreedySkip(n: nat, i: nat)
    requires i <= |Values|
    requires forall j :: 0 <= j < i ==> n < Values[j]
    ensures Greedy(n, 0) == Greedy(n, i)
  {
    if i > 0 {
      GreedySkip(n, i - 1);
    }
  }

  /** The first two numerals. */
  lemma FirstNumerals()
    ensures RomanOf(1) == "I" && RomanOf(2) == "II"
  {
    GreedySkip(1, 12);
    GreedySkip(2, 12);
    assert Greedy(0, 12) == "";
  }

  /** The numeral is empty exactly for zero. */
  lemma RomanOfEmpty(n: nat)
    ensures RomanOf(n) == "" <==> n == 0
  {
    DecodeGreedy(n, 0);
  }

  /** The loop test of `toRoman`, `num % value < num`, holds exactly when the
      value fits into `num`. */
  lemma RemainderBelow(n: nat, d: nat)
    requires d > 0
    ensures n % d < n <==> n >= d
  {
  }

  /** `toRoman(num)`: for each table entry in order, append its symbol while
      `num % value < num` (that is, while the value still fits) and subtract.
      The result is the greedy encoding, which decodes back to `num`. */
  method ToRoman(num: nat) returns (result: string)
    ensures result == RomanOf(num)
    ensures Decode(result) == num
  {
    var n: nat := num;
    result := "";
    var i := 0;
    while i < |Values|
      invariant 0 <= i <= |Values|
      invariant result + Greedy(n, i) == RomanOf(num)
      invariant i == |Values| ==> n == 0
      invariant i > 0 ==> n < Values[i - 1]
    {
      TableEntry(i);
      var d := Values[i];
      RemainderBelow(n, d);
      while n % d < n
        invariant result + Greedy(n, i) == RomanOf(num)
        invariant i > 0 ==> n < Values[i - 1]
        invariant n % d < n <==> n >= d
        decreases n
      {
        result := result + Symbols[i];
        n := n - d;
        RemainderBelow(n, d);
      }
      i := i + 1;
    }
    DecodeGreedy(num, 0);
  }

  /** `toRoman(n).toLowerCase()` for a numeral: each digit in lower case. */
  function LowerCase(s: string): (r: string)
    ensures |r| == |s|
    ensures forall k :: 0 <= k < |s| ==> ('A' <= s[k] <= 'Z' ==> r[k] == (s[k] as int + 32) as char)
    ensures forall k :: 0 <= k < |s| ==> (!('A' <= s[k] <= 'Z') ==> r[k] == s[k])
  {
    if s == [] then []
    else [if 'A' <= s[0] <= 'Z' then (s[0] as int + 32) as char else s[0]] + LowerCase(s[1..])
  }
}
