/**
 * GetPositiveIntFromUser (Main.cpp): prompts until a line is made only of the
 * characters "1234567890" and std::stoi converts it without throwing.
 *
 * The console is a parameter: `lines` are the lines getline would return, in
 * order, and `from` is the first one not yet consumed.
 */
module UserInput {
  import opened Wrappers

  /** The largest value std::stoi returns without throwing out_of_range (32-bit int). */
  const INT_MAX := 2147483647

  /** The characters find_first_not_of is given. */
  const DIGITS := "1234567890"

  /** A character find_first_not_of(DIGITS) passes over (see DigitRange). */
  predicate IsDigit(c: char) {
    '0' <= c <= '9'
  }

  predicate AllDigits(s: string) {
    forall i :: 0 <= i < |s| ==> IsDigit(s[i])
  }

  /** The decimal digits are exactly the characters of DIGITS. */
  lemma DigitRange(c: char)
    ensures IsDigit(c) <==> c in DIGITS
  {
  }

  function DigitValue(c: char): (d: nat)
    requires IsDigit(c)
    ensures d < 10
  {
    DigitRange(c);
    c as int - '0' as int
  }

  /** The number a string of decimal digits denotes (leading zeros allowed). */
  function Value(s: string): nat
    requires AllDigits(s)
  {
    if s == [] then 0 else 10 * Value(s[..|s| - 1]) + DigitValue(s[|s| - 1])
  }

  /**
   * One pass of the prompt loop: the value returned for `s`, or None when the
   * loop asks again. A character outside DIGITS fails the find_first_not_of
   * test; the empty string passes it but stoi throws invalid_argument; a value
   * above INT_MAX makes stoi throw out_of_range.
   */
  function ParseUserInt(s: string): (r: Option<int>)
    ensures r.Some? <==> s != [] && AllDigits(s) && Value(s) <= INT_MAX
    ensures r.Some? ==> r.value == Value(s) && 0 <= r.value <= INT_MAX
  {
    if !AllDigits(s) then None
    else if s == [] then None
    else if Value(s) > INT_MAX then None
    else Some(Value(s))
  }

  /** The first line at or after `from` that the prompt loop accepts. */
  function NextInt(lines: seq<string>, from: nat): (r: Option<Read<int>>)
    requires from <= |lines|
    ensures r.Some? ==> from < r.value.next <= |lines|
    ensures r.Some? ==> ParseUserInt(lines[r.value.next - 1]) == Some(r.value.value)
    ensures forall i :: from <= i < (if r.Some? then r.value.next - 1 else |lines|) ==> ParseUserInt(lines[i]).None?
    decreases |lines| - from
  {
    if from == |lines| then None
    else
      match ParseUserInt(lines[from])
      case Some(v) => Some(Read(v, from + 1))
      case None => NextInt(lines, from + 1)
  }

  /** The prompt loop itself: reads lines until one is accepted. */
  method GetPositiveIntFromUser(lines: seq<string>, from: nat) returns (result: Option<Read<int>>)
    requires from <= |lines|
    ensures result == NextInt(lines, from)
  {
    var i := from;
    while i < |lines|
      invariant from <= i <= |lines|
      invariant NextInt(lines, i) == NextInt(lines, from)
    {
      var parsed := ParseUserInt(lines[i]);
      if parsed.Some? {
        return Some(Read(parsed.value, i + 1));
      }
      i := i + 1;
    }
    return None;
  }

  /** The digit character for d. */
  function DigitChar(d: nat): (c: char)
    requires d < 10
    ensures IsDigit(c) && DigitValue(c) == d
  {
    var c := ('0' as int + d) as char;
    DigitRange(c);
    c
  }

  /** Decimal rendering without leading zeros, the inverse of Value. */
  function ToDecimal(n: nat): string
  {
    if n < 10 then [DigitChar(n)] else ToDecimal(n / 10) + [DigitChar(n % 10)]
  }

  function Pow10(k: nat): (p: nat)
    ensures p >= 1
  {
    if k == 0 then 1 else 10 * Pow10(k - 1)
  }

  lemma {:induction false} ToDecimalDigits(n: nat)
    ensures AllDigits(ToDecimal(n)) && ToDecimal(n) != []
    ensures Value(ToDecimal(n)) == n
  {
    if n >= 10 {
      ToDecimalDigits(n / 10);
      var s := ToDecimal(n);
      assert s[..|s| - 1] == ToDecimal(n / 10);
    }
  }

  /** Every int the prompt can return is read back from its own decimal text. */
  lemma DecimalRoundTrip(n: nat)
    ensures ParseUserInt(ToDecimal(n)) == if n <= INT_MAX then Some(n) else None
  {
    ToDecimalDigits(n);
  }

  /** stoi ignores leading zeros: "007" is accepted as 7. */
  lemma {:induction false} LeadingZero(s: string)
    requires AllDigits(s)
    ensures AllDigits("0" + s) && Value("0" + s) == Value(s)
  {
    DigitRange('0');
    if s != [] {
      LeadingZero(s[..|s| - 1]);
      assert ("0" + s)[..|s|] == "0" + s[..|s| - 1];
    }
  }

  lemma LeadingZeroAccepted(s: string)
    requires s != []
    ensures ParseUserInt("0" + s) == ParseUserInt(s)
  {
    if AllDigits(s) {
      LeadingZero(s);
    } else {
      var i :| 0 <= i < |s| && !IsDigit(s[i]);
      assert ("0" + s)[i + 1] == s[i];
    }
  }

  lemma {:induction false} ValueBelowPow10(s: string)
    requires AllDigits(s)
    ensures Value(s) < Pow10(|s|)
  {
    if s != [] {
      ValueBelowPow10(s[..|s| - 1]);
    }
  }

  /** Any non-empty run of at most nine digits is accepted. */
  lemma ShortInputAccepted(s: string)
    requires AllDigits(s) && 0 < |s| <= 9
    ensures ParseUserInt(s) == Some(Value(s))
  {
    ValueBelowPow10(s);
    Pow10Monotone(|s|, 9);
  }

  lemma {:induction false} Pow10Monotone(j: nat, k: nat)
    requires j <= k
    ensures Pow10(j) <= Pow10(k)
  {
    if j < k {
      Pow10Monotone(j, k - 1);
    }
  }
}
