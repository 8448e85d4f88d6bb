// The number formatter of systools/systools.cpp: digits are generated least
// significant first into the caller's buffer and then reversed in place.
module SysTools {

  function DigitChar(d: nat): (c: char)
    requires d < 36
    ensures DigitValue(c) == d
  {
    if d > 9 then ('a' as int + (d - 10)) as char else ('0' as int + d) as char
  }

  // How a reader understands one digit; -1 for a character that is no digit.
  function DigitValue(c: char): int {
    if '0' <= c <= '9' then c as int - '0' as int
    else if 'a' <= c <= 'z' then c as int - 'a' as int + 10
    else -1
  }

  // The digits in their order.
  lemma DigitsByAlphabet(d: nat)
    requires d < 36
    ensures DigitChar(d) == "0123456789abcdefghijklmnopqrstuvwxyz"[d]
  {
  }

  predicate IsNumeral(s: string, radix: nat) {
    forall i :: 0 <= i < |s| ==> 0 <= DigitValue(s[i]) < radix
  }

  // Positional value of a digit string, most significant digit first.
  function Value(s: string, radix: nat): nat
    requires IsNumeral(s, radix)
  {
    if s == "" then 0
    else Value(s[..|s| - 1], radix) * radix + DigitValue(s[|s| - 1])
  }

  // A numeral as people write it: not empty, no leading zero except for zero.
  predicate IsCanonical(s: string, radix: nat) {
    IsNumeral(s, radix) && |s| >= 1 && (|s| == 1 || s[0] != '0')
  }

  lemma MulGrows(a: nat, b: nat, c: nat)
    requires a <= b
    ensures a * c <= b * c
  {
  }

  // Quotient and remainder by repeated subtraction; QuotRem shows that they
  // are the operators / and % of the code.
  function Quot(val: nat, radix: nat): (q: nat)
    requires radix >= 2
    ensures val > 0 ==> q < val
    ensures 2 * q <= val
  {
    if val < radix then 0 else 1 + Quot(val - radix, radix)
  }

  function Rem(val: nat, radix: nat): (r: nat)
    requires radix >= 2
    ensures r < radix
  {
    if val < radix then val else Rem(val - radix, radix)
  }

  lemma QuotientAndDigit(q: nat, d: nat, q': nat, d': nat, radix: nat)
    requires d < radix && d' < radix
    requires q * radix + d == q' * radix + d'
    ensures q == q' && d == d'
  {
    if q < q' {
      MulGrows(q + 1, q', radix);
    } else if q' < q {
      MulGrows(q' + 1, q, radix);
    }
  }

  lemma MulSuccessor(a: nat, c: nat)
    ensures (1 + a) * c == a * c + c
  {
  }

  lemma Euclid(val: nat, radix: nat)
    requires radix >= 2
    ensures val == val / radix * radix + val % radix
    ensures 0 <= val % radix < radix && 0 <= val / radix
  {
  }

  lemma {:induction false} QuotRem(val: nat, radix: nat)
    requires radix >= 2
    ensures val == Quot(val, radix) * radix + Rem(val, radix)
    ensures val / radix == Quot(val, radix) && val % radix == Rem(val, radix)
    decreases val
  {
    Euclid(val, radix);
    if val >= radix {
      QuotRem(val - radix, radix);
      MulSuccessor(Quot(val - radix, radix), radix);
    }
    QuotientAndDigit(val / radix, val % radix, Quot(val, radix), Rem(val, radix), radix);
  }

  // The digits of `val`, least significant first.
  function LowDigits(val: nat, radix: nat): (s: string)
    requires 2 <= radix <= 36
    ensures |s| >= 1
    decreases val
  {
    [DigitChar(Rem(val, radix))] + if Quot(val, radix) == 0 then "" else LowDigits(Quot(val, radix), radix)
  }

  function Reversed(s: string): (r: string)
    ensures |r| == |s|
    ensures forall i :: 0 <= i < |s| ==> r[i] == s[|s| - 1 - i]
  {
    if s == "" then "" else Reversed(s[1..]) + [s[0]]
  }

  lemma AppendDigit(s: string, c: char, radix: nat)
    requires IsNumeral(s, radix) && 0 <= DigitValue(c) < radix
    ensures IsNumeral(s + [c], radix)
    ensures Value(s + [c], radix) == Value(s, radix) * radix + DigitValue(c)
  {
    assert (s + [c])[..|s|] == s;
  }

  lemma {:induction false} LowDigitsAreCanonical(val: nat, radix: nat)
    requires 2 <= radix <= 36
    ensures IsCanonical(Reversed(LowDigits(val, radix)), radix)
    ensures Value(Reversed(LowDigits(val, radix)), radix) == val
    ensures val > 0 ==> Reversed(LowDigits(val, radix))[0] != '0'
    decreases val
  {
    QuotRem(val, radix);
    var q, d := Quot(val, radix), Rem(val, radix);
    var text := Reversed(LowDigits(val, radix));
    if q == 0 {
      assert text == [DigitChar(d)];
      AppendDigit("", DigitChar(d), radix);
    } else {
      assert LowDigits(val, radix)[1..] == LowDigits(q, radix);
      var high := Reversed(LowDigits(q, radix));
      assert text == high + [DigitChar(d)];
      LowDigitsAreCanonical(q, radix);
      AppendDigit(high, DigitChar(d), radix);
    }
  }

  lemma {:induction false} CanonicalIsPositive(s: string, radix: nat)
    requires 2 <= radix <= 36 && IsCanonical(s, radix) && s[0] != '0'
    ensures Value(s, radix) > 0
  {
    if |s| > 1 {
      CanonicalIsPositive(s[..|s| - 1], radix);
      MulGrows(1, Value(s[..|s| - 1], radix), radix);
    }
  }

  // Two canonical numerals with the same value are the same text, so the text
  // that Itoa leaves in the buffer is the only one a reader could expect.
  lemma {:induction false} CanonicalIsUnique(s: string, t: string, radix: nat)
    requires 2 <= radix <= 36 && IsCanonical(s, radix) && IsCanonical(t, radix)
    requires Value(s, radix) == Value(t, radix)
    ensures s == t
    decreases |s|
  {
    var s', t' := s[..|s| - 1], t[..|t| - 1];
    QuotientAndDigit(Value(s', radix), DigitValue(s[|s| - 1]), Value(t', radix), DigitValue(t[|t| - 1]), radix);
    assert s == s' + [s[|s| - 1]] && t == t' + [t[|t| - 1]];
    if s' == "" {
      if t' != "" { CanonicalIsPositive(t', radix); }
    } else if t' == "" {
      CanonicalIsPositive(s', radix);
    } else {
      CanonicalIsUnique(s', t', radix);
    }
  }

  function PowerOfTwo(k: nat): nat { if k == 0 then 1 else 2 * PowerOfTwo(k - 1) }

  // An unsigned long below 2^k needs at most k digits in any radix, so 65
  // characters hold every 64-bit value and its terminator.
  lemma {:induction false} DigitsFit(val: nat, radix: nat, k: nat)
    requires 2 <= radix <= 36 && k >= 1 && val < PowerOfTwo(k)
    ensures |LowDigits(val, radix)| <= k
    decreases k
  {
    if Quot(val, radix) > 0 {
      DigitsFit(Quot(val, radix), radix, k - 1);
    }
  }

  function Remaining(more: bool, val: nat, radix: nat): string
    requires 2 <= radix <= 36
  {
    if more then LowDigits(val, radix) else ""
  }

  // One turn of the first loop: takes the lowest digit off `val`.
  method NextDigit(val: nat, radix: nat) returns (digit: char, rest: nat)
    requires 2 <= radix <= 36
    ensures Remaining(true, val, radix) == [digit] + Remaining(rest > 0, rest, radix)
    ensures rest > 0 ==> rest < val
  {
    QuotRem(val, radix);
    digit := DigitChar(val % radix);
    rest := val / radix;
  }

  // The first loop of itoa: digits least significant first, then the NUL.
  method WriteDigits(value: nat, buf: array<char>, radix: nat) returns (p: nat)
    requires 2 <= radix <= 36
    requires |LowDigits(value, radix)| < buf.Length
    modifies buf
    ensures p == |LowDigits(value, radix)| && buf[..p] == LowDigits(value, radix)
    ensures buf[p] == '\0'
    ensures forall k :: p < k < buf.Length ==> buf[k] == old(buf[k])
  {
    ghost var all := LowDigits(value, radix);
    var val: nat := value;
    p := 0;
    var more := true;
    while more
      invariant 0 <= p <= |all|
      invariant all[p..] == Remaining(more, val, radix)
      invariant forall k :: 0 <= k < p ==> buf[k] == all[k]
      invariant forall k :: |all| <= k < buf.Length ==> buf[k] == old(buf[k])
      decreases more, val
    {
      var digit;
      digit, val := NextDigit(val, radix);
      more := val > 0;
      assert all[p] == all[p..][0] == digit && all[p + 1..] == all[p..][1..];
      buf[p] := digit;
      p := p + 1;
    }
    buf[p] := '\0';
  }

  // The second loop of itoa: swaps the `p` digits end for end. It swaps before
  // it tests, so a single digit is swapped with itself.
  method ReverseDigits(buf: array<char>, p: nat)
    requires 1 <= p <= buf.Length
    modifies buf
    ensures buf[..p] == Reversed(old(buf[..p]))
    ensures forall k :: p <= k < buf.Length ==> buf[k] == old(buf[k])
  {
    var first, last := 0, p - 1;
    var more := true;
    while more
      invariant 0 <= first <= p && last == p - 1 - first
      invariant more ==> first <= last
      invariant !more ==> first >= last
      invariant forall k :: 0 <= k < first ==> buf[k] == old(buf[p - 1 - k]) && buf[p - 1 - k] == old(buf[k])
      invariant forall k :: first <= k <= last ==> buf[k] == old(buf[k])
      invariant forall k :: p <= k < buf.Length ==> buf[k] == old(buf[k])
      decreases more, last - first + 2
    {
      var temp := buf[last];
      buf[last] := buf[first];
      buf[first] := temp;
      last := last - 1;
      first := first + 1;
      more := first < last;
    }
    forall k | 0 <= k < p ensures buf[k] == old(buf[p - 1 - k]) {
      if k > last && k >= first { assert 0 <= p - 1 - k < first; }
    }
  }

  // Writes `value` in `radix` and a terminating NUL at the front of `buf`; the
  // caller provides room for the digits and the NUL.
  method Itoa(value: nat, buf: array<char>, radix: nat)
    requires 2 <= radix <= 36
    requires |LowDigits(value, radix)| < buf.Length
    modifies buf
    ensures var n := |LowDigits(value, radix)|;
      && IsCanonical(buf[..n], radix)
      && Value(buf[..n], radix) == value
      && buf[n] == '\0'
      && buf[n + 1..] == old(buf[n + 1..])
  {
    var p := WriteDigits(value, buf, radix);
    ReverseDigits(buf, p);
    LowDigitsAreCanonical(value, radix);
  }
}
