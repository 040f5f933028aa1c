/**
 The width in "w:N": composed digit by digit where the column type is declared, and parsed by `atoi`
 where the format string is mapped.
 */
module WidthFormat {

  predicate IsDigit(c: char) { '0' <= c <= '9' }

  function DigitOf(v: nat): (c: char)
    requires v < 10
    ensures IsDigit(c)
  {
    '0' + v as char
  }

  /** The decimal digits of a number, without leading zeros. */
  function Decimal(n: nat): (s: string)
    ensures |s| >= 1 && forall i :: 0 <= i < |s| ==> IsDigit(s[i])
  {
    if n < 10 then [DigitOf(n)] else Decimal(n / 10) + [DigitOf(n % 10)]
  }

  /** `atoi`: white space, a sign, and digits up to the first character that is none. */
  function Atoi(s: string): int {
    if s == [] then 0
    else if s[0] == ' ' || '\t' <= s[0] <= '\r' then Atoi(s[1..])
    else if s[0] == '-' then 0 - AtoiDigits(s[1..], 0) as int
    else if s[0] == '+' then AtoiDigits(s[1..], 0)
    else AtoiDigits(s, 0)
  }

  function AtoiDigits(s: string, acc: nat): nat {
    if s == [] || !IsDigit(s[0]) then acc else AtoiDigits(s[1..], 10 * acc + (s[0] - '0') as nat)
  }

  /** The characters of a C string, up to its terminator. */
  function CString(s: string): string {
    if s == [] || s[0] == '\0' then [] else [s[0]] + CString(s[1..])
  }

  /** `fixed_size_binary_format::digits` */
  method DigitCount(n: nat) returns (d: nat)
    ensures d == |Decimal(n)|
  {
    d := 1;
    var v := n;
    while v >= 10
      invariant d >= 1 && |Decimal(n)| == d - 1 + |Decimal(v)|
    {
      v := v / 10;
      d := d + 1;
    }
  }

  /** `fixed_size_binary_format::make`: the digits are filled in from the last. */
  method FixedSizeBinaryFormat(n: nat) returns (out: array<char>)
    ensures fresh(out) && out[..] == "w:" + Decimal(n) + ['\0']
  {
    var digits := DigitCount(n);
    out := new char[2 + digits + 1](_ => '\0');
    out[0] := 'w';
    out[1] := ':';
    var v, i := n, digits;
    ghost var tail: string := [];
    assert out[2..] == seq(digits + 1, _ => '\0');
    while i > 0
      invariant 0 <= i <= digits && out.Length == digits + 3
      invariant out[0] == 'w' && out[1] == ':' && out[2 + digits] == '\0'
      invariant |tail| == digits - i && out[2 + i..2 + digits] == tail
      invariant if i > 0 then |Decimal(v)| == i && Decimal(n) == Decimal(v) + tail else Decimal(n) == tail
    {
      ghost var before := out[2 + i..2 + digits];
      out[1 + i] := DigitOf(v % 10);
      assert out[2 + i..2 + digits] == before;
      assert out[1 + i..2 + digits] == [DigitOf(v % 10)] + before;
      DecimalStep(v, tail);
      tail := [DigitOf(v % 10)] + tail;
      v := v / 10;
      i := i - 1;
    }
    DigitsFramed(out[..], digits);
    assert out[..][2..2 + digits] == out[2..2 + digits];
  }

  lemma {:induction false} DigitsFramed(s: string, n: nat)
    requires |s| == n + 3 && s[0] == 'w' && s[1] == ':' && s[n + 2] == '\0'
    ensures s == "w:" + s[2..2 + n] + ['\0']
  {
  }

  lemma {:induction false} DecimalStep(v: nat, tail: string)
    ensures if |Decimal(v)| == 1 then Decimal(v) + tail == [DigitOf(v % 10)] + tail
      else |Decimal(v / 10)| == |Decimal(v)| - 1 && Decimal(v) + tail == Decimal(v / 10) + ([DigitOf(v % 10)] + tail)
  {
    if v >= 10 {
      assert Decimal(v / 10) + [DigitOf(v % 10)] + tail == Decimal(v / 10) + ([DigitOf(v % 10)] + tail);
    }
  }

  lemma {:induction false} CStringStops(s: string)
    requires '\0' !in s
    ensures CString(s + ['\0']) == s
  {
    if s != [] {
      assert (s + ['\0'])[1..] == s[1..] + ['\0'];
      CStringStops(s[1..]);
    }
  }

  /** Reading digits appends them to what has been read. */
  lemma {:induction false} AtoiAppend(s: string, c: char, acc: nat)
    requires (forall i :: 0 <= i < |s| ==> IsDigit(s[i])) && IsDigit(c)
    ensures AtoiDigits(s + [c], acc) == 10 * AtoiDigits(s, acc) + (c - '0') as nat
  {
    if s == [] {
      assert (s + [c])[1..] == [];
    } else {
      assert (s + [c])[1..] == s[1..] + [c];
      AtoiAppend(s[1..], c, 10 * acc + (s[0] - '0') as nat);
    }
  }

  lemma {:induction false} AtoiDecimal(n: nat)
    ensures AtoiDigits(Decimal(n), 0) == n && Atoi(Decimal(n)) == n
  {
    if n < 10 {
      assert Decimal(n)[1..] == [];
    } else {
      AtoiDecimal(n / 10);
      AtoiAppend(Decimal(n / 10), DigitOf(n % 10), 0);
    }
  }
}
