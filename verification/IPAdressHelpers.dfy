/** The check of textual addresses. */
module IPAdressHelpers {
  import opened Wrappers
  import opened Bytes

  const DOT: byte := 46
  const ZERO: byte := 48
  const PLUS: byte := 43
  const MINUS: byte := 45

  predicate IsDigit(c: byte) {
    ZERO <= c < ZERO + 10
  }

  predicate IsSpace(c: byte) {
    c == 32 || 9 <= c <= 13
  }

  function SkipSpace(s: seq<byte>): (r: seq<byte>)
    ensures |r| <= |s|
  {
    if s != [] && IsSpace(s[0]) then SkipSpace(s[1..]) else s
  }

  /** The value of the digits at the start of `s`, after a value already read. */
  function LeadingNumber(s: seq<byte>, value: nat): nat
    decreases |s|
  {
    if s != [] && IsDigit(s[0]) then LeadingNumber(s[1..], 10 * value + (s[0] - ZERO)) else value
  }

  /**
   `std::stoi`: white space, an optional sign, digits, and anything after them; without a digit it
   throws. Values out of the range of int, for which it throws too, are left in: the caller
   refuses both.
   */
  function StringToInteger(text: seq<byte>): Option<int> {
    var s := SkipSpace(text);
    var signed := s != [] && (s[0] == PLUS || s[0] == MINUS);
    var digits := if signed then s[1..] else s;
    if digits == [] || !IsDigit(digits[0]) then None
    else
      var magnitude: int := LeadingNumber(digits, 0);
      Some(if signed && s[0] == MINUS then -magnitude else magnitude)
  }

  predicate IsOctet(text: seq<byte>) {
    var value := StringToInteger(text);
    value.Some? && 0 <= value.value <= 255
  }

  function FindDot(s: seq<byte>): (end: nat)
    ensures end <= |s|
    ensures end < |s| ==> s[end] == DOT
    ensures forall i :: 0 <= i < end ==> s[i] != DOT
  {
    if s == [] || s[0] == DOT then 0 else 1 + FindDot(s[1..])
  }

  /**
   Each of the three rounds of the original restarts at the first dot, so that only the text before
   it and the text after it are looked at.
   */
  predicate IsIPV4(address: seq<byte>) {
    var end := FindDot(address);
    end < |address| && IsOctet(address[..end]) && IsOctet(address[end + 1..])
  }

  /** The loop of the original, three rounds and the rest, against the predicate. */
  method CheckIPV4(address: seq<byte>) returns (valid: bool)
    ensures valid == IsIPV4(address)
  {
    var start := 0;
    for i := 1 to 4
      invariant i > 1 ==> FindDot(address) < |address| && start == FindDot(address) + 1
      invariant i > 1 ==> IsOctet(address[..FindDot(address)])
    {
      var end := FindDot(address);
      if end == |address| {
        return false;
      }
      if !IsOctet(address[..end]) {
        return false;
      }
      start := end + 1;
    }
    valid := IsOctet(address[start..]);
  }

  /** A string without a dot is no address, so nine zero bytes are not. */
  lemma NoDotNoAddress(address: seq<byte>)
    requires DOT !in address
    ensures !IsIPV4(address)
  {
  }

  /** Digits that something other than a digit ends are read as the number they spell. */
  lemma {:induction false} LeadingDigits(s: seq<byte>, n: nat, value: nat)
    requires n <= |s| && (forall i :: 0 <= i < n ==> IsDigit(s[i])) && (n < |s| ==> !IsDigit(s[n]))
    ensures LeadingNumber(s, value) == LeadingNumber(s[..n], value)
    decreases n
  {
    if n > 0 {
      LeadingDigits(s[1..], n - 1, 10 * value + (s[0] - ZERO));
      assert s[..n][1..] == s[1..][..n - 1];
    }
  }

  /** An address that starts with a short number and a dot, and goes on with one after it. */
  lemma TwoNumbersAreAnAddress(address: seq<byte>, a: nat, b: nat)
    requires 0 < a && 0 < b && a + 1 + b <= |address| && address[a] == DOT
    requires forall i :: 0 <= i < a ==> IsDigit(address[i])
    requires forall i :: a < i <= a + b ==> IsDigit(address[i])
    requires a + 1 + b < |address| ==> !IsDigit(address[a + 1 + b])
    ensures IsIPV4(address) <==>
      LeadingNumber(address[..a], 0) <= 255 && LeadingNumber(address[a + 1..][..b], 0) <= 255
  {
    assert FindDot(address) == a;
    assert address[..a][0] == address[0] && address[a + 1..][0] == address[a + 1];
    var rest := address[a + 1..];
    assert forall i :: 0 <= i < |rest| ==> rest[i] == address[a + 1 + i];
    LeadingDigits(rest, b, 0);
  }

  lemma OneDigit(s: seq<byte>)
    requires |s| == 1 && IsDigit(s[0])
    ensures LeadingNumber(s, 0) == s[0] - ZERO
  {
    assert s[1..] == [];
  }

  lemma ThreeDigits(s: seq<byte>)
    requires |s| == 3 && IsDigit(s[0]) && IsDigit(s[1]) && IsDigit(s[2])
    ensures LeadingNumber(s, 0) == 100 * (s[0] - ZERO) + 10 * (s[1] - ZERO) + (s[2] - ZERO)
  {
    var first := s[0] - ZERO;
    var second := 10 * first + (s[1] - ZERO);
    assert s[1..][1..] == s[2..];
    assert LeadingNumber(s, 0) == LeadingNumber(s[1..], first);
    assert LeadingNumber(s[1..], first) == LeadingNumber(s[2..], second);
    assert s[2..][1..] == [];
    assert LeadingNumber(s[2..], second) == 10 * second + (s[2] - ZERO);
  }

  // ---------------------------------------------------------------- what is a number

  /** The number that digits spell in base ten. */
  function Decimal(digits: seq<byte>): nat {
    if digits == [] then 0
    else
      var last := digits[|digits| - 1];
      10 * Decimal(digits[..|digits| - 1]) + if IsDigit(last) then last - 48 else 0
  }

  predicate AllDigits(s: seq<byte>) {
    forall i :: 0 <= i < |s| ==> 48 <= s[i] <= 57
  }

  predicate AllSpace(s: seq<byte>) {
    forall i :: 0 <= i < |s| ==> s[i] == 32 || 9 <= s[i] <= 13
  }

  lemma {:induction false} LeadingIsDecimal(digits: seq<byte>, rest: seq<byte>)
    requires AllDigits(digits) && (rest != [] ==> !(48 <= rest[0] <= 57))
    ensures LeadingNumber(digits + rest, 0) == Decimal(digits)
  {
    assert (digits + rest)[..|digits|] == digits;
    LeadingDigits(digits + rest, |digits|, 0);
    DigitsAreDecimal(digits);
  }

  lemma {:induction false} LeadingLast(s: seq<byte>, last: byte, value: nat)
    requires AllDigits(s) && IsDigit(last)
    ensures LeadingNumber(s + [last], value) == 10 * LeadingNumber(s, value) + (last - ZERO)
    decreases |s|
  {
    if s == [] {
      assert [last][1..] == [] && s + [last] == [last];
    } else {
      assert (s + [last])[1..] == s[1..] + [last];
      LeadingLast(s[1..], last, 10 * value + (s[0] - ZERO));
    }
  }

  lemma {:induction false} DigitsAreDecimal(digits: seq<byte>)
    requires AllDigits(digits)
    ensures LeadingNumber(digits, 0) == Decimal(digits)
  {
    if digits != [] {
      var n := |digits| - 1;
      DigitsAreDecimal(digits[..n]);
      LeadingLast(digits[..n], digits[n], 0);
      assert digits[..n] + [digits[n]] == digits;
    }
  }

  lemma {:induction false} SpaceIsSkipped(spaces: seq<byte>, rest: seq<byte>)
    requires AllSpace(spaces) && (rest != [] ==> !IsSpace(rest[0]))
    ensures SkipSpace(spaces + rest) == rest
  {
    if spaces == [] {
      assert spaces + rest == rest;
    } else {
      assert (spaces + rest)[1..] == spaces[1..] + rest;
      SpaceIsSkipped(spaces[1..], rest);
    }
  }

  lemma {:induction false} SkippedIsSpace(s: seq<byte>) returns (spaces: seq<byte>)
    ensures AllSpace(spaces) && s == spaces + SkipSpace(s)
    ensures SkipSpace(s) != [] ==> !IsSpace(SkipSpace(s)[0])
  {
    spaces := [];
    if s != [] && IsSpace(s[0]) {
      var others := SkippedIsSpace(s[1..]);
      spaces := [s[0]] + others;
    }
  }

  /** The parts of a number as text: white space, a sign or none, at least one digit, and the rest. */
  datatype Numeral = Numeral(spaces: seq<byte>, sign: seq<byte>, digits: seq<byte>, rest: seq<byte>)

  ghost predicate Spells(n: Numeral, text: seq<byte>) {
    && text == n.spaces + (n.sign + (n.digits + n.rest))
    && AllSpace(n.spaces) && (n.sign == [] || n.sign == [43] || n.sign == [45])
    && n.digits != [] && AllDigits(n.digits) && (n.rest != [] ==> !(48 <= n.rest[0] <= 57))
  }

  function ValueOf(n: Numeral): int {
    var value: int := Decimal(n.digits);
    if n.sign == [45] then -value else value
  }

  /** A text is read as the number it spells in base ten. */
  lemma NumeralIsRead(text: seq<byte>, n: Numeral)
    requires Spells(n, text)
    ensures StringToInteger(text) == Some(ValueOf(n))
  {
    var digits := n.digits + n.rest;
    SpaceIsSkipped(n.spaces, n.sign + digits);
    LeadingIsDecimal(n.digits, n.rest);
    if n.sign == [] {
      assert n.sign + digits == digits;
    } else {
      assert (n.sign + digits)[1..] == digits;
    }
  }

  lemma {:induction false} DigitsBefore(s: seq<byte>) returns (digits: seq<byte>, rest: seq<byte>)
    ensures s == digits + rest && AllDigits(digits) && (rest != [] ==> !IsDigit(rest[0]))
  {
    if s != [] && IsDigit(s[0]) {
      digits, rest := DigitsBefore(s[1..]);
      digits := [s[0]] + digits;
    } else {
      digits, rest := [], s;
    }
  }

  /** And a text is read as a number only if it spells one: without a digit there is none. */
  lemma OnlyNumeralsAreRead(text: seq<byte>) returns (n: Numeral)
    requires StringToInteger(text).Some?
    ensures Spells(n, text) && StringToInteger(text) == Some(ValueOf(n))
  {
    var spaces := SkippedIsSpace(text);
    var s := SkipSpace(text);
    var sign := if s[0] == PLUS || s[0] == MINUS then s[..1] else [];
    assert s == sign + s[|sign|..];
    var digits, rest := DigitsBefore(s[|sign|..]);
    n := Numeral(spaces, sign, digits, rest);
    NumeralIsRead(text, n);
  }

  /** The value, from 0 to 255, of a text that spells such a number. */
  ghost predicate SpellsOctet(text: seq<byte>) {
    exists n: Numeral :: Spells(n, text) && 0 <= ValueOf(n) <= 255
  }

  lemma OctetIsSpelt(text: seq<byte>)
    ensures IsOctet(text) <==> SpellsOctet(text)
  {
    if StringToInteger(text).Some? {
      var n := OnlyNumeralsAreRead(text);
    }
    if n: Numeral :| Spells(n, text) && 0 <= ValueOf(n) <= 255 {
      NumeralIsRead(text, n);
    }
  }

  /**
   What the check accepts: texts with a dot such that what is before the first dot and what is after
   it each spell a number from 0 to 255, whatever follows the digits.
   */
  lemma AcceptedAddresses(address: seq<byte>)
    ensures IsIPV4(address) <==>
      exists end :: 0 <= end < |address| && FirstDot(address, end)
        && SpellsOctet(address[..end]) && SpellsOctet(address[end + 1..])
  {
    var end := FindDot(address);
    if end < |address| {
      assert FirstDot(address, end);
      OctetIsSpelt(address[..end]);
      OctetIsSpelt(address[end + 1..]);
    }
    forall e | 0 <= e < |address| && FirstDot(address, e)
      ensures e == end
    {
    }
  }

  ghost predicate FirstDot(address: seq<byte>, end: nat)
    requires end < |address|
  {
    address[end] == 46 && forall i :: 0 <= i < end ==> address[i] != 46
  }
}
