/** Ruby's decimal conversions between integers and strings: `Integer#to_s`
    and the lenient `String#to_i`, which reads the longest number at the front
    of a string and never fails. */
module RubyInteger {
  import opened Sequences
  import opened RubyText

  predicate IsDigit(c: char) {
    '0' <= c <= '9'
  }

  predicate AllDigits(s: string) {
    forall i :: 0 <= i < |s| ==> IsDigit(s[i])
  }

  function DigitValue(c: char): (d: nat)
    requires IsDigit(c)
    ensures d < 10
  {
    c as int - '0' as int
  }

  function DigitChar(d: nat): (c: char)
    requires d < 10
    ensures IsDigit(c) && DigitValue(c) == d
  {
    ('0' as int + d) as char
  }

  /** The decimal digits of `n`, most significant first, without leading
      zeros. */
  function NatToDecimal(n: nat): (r: string)
    ensures r != [] && AllDigits(r)
    ensures n == 0 ==> r == "0"
    ensures n > 0 ==> r[0] != '0'
  {
    if n < 10 then [DigitChar(n)] else NatToDecimal(n / 10) + [DigitChar(n % 10)]
  }

  /** Ruby's `Integer#to_s`: a minus sign for negative numbers, then the
      decimal digits. */
  function IntToDecimal(n: int): (r: string)
    ensures r != []
    ensures n < 0 <==> r[0] == '-'
    ensures n >= 0 ==> AllDigits(r)
    ensures n < 0 ==> AllDigits(r[1..])
  {
    if n < 0 then "-" + NatToDecimal(-n) else NatToDecimal(n)
  }

  /** The digit loop of Ruby's integer parser: digits are accumulated onto
      `acc`, an underscore is skipped only when a digit follows it, and the
      first character that cannot continue the number ends it. */
  function DigitRun(s: string, acc: nat): nat
    decreases |s|
  {
    if s == [] then acc
    else if IsDigit(s[0]) then DigitRun(s[1..], acc * 10 + DigitValue(s[0]))
    else if s[0] == '_' && |s| >= 2 && IsDigit(s[1]) then DigitRun(s[1..], acc)
    else acc
  }

  /** The unsigned number at the front of `s`; 0 when `s` does not start with
      a digit. */
  function LeadingDigits(s: string): nat {
    if s != [] && IsDigit(s[0]) then DigitRun(s[1..], DigitValue(s[0])) else 0
  }

  /** Ruby's `String#to_i`: leading `\s` characters are skipped, then an
      optional sign, then the digits; anything after them is ignored. */
  function ParseLeadingInt(s: string): int {
    var i := Find(s, 0, NotSpace);
    if i < |s| && s[i] == '-' then -(LeadingDigits(s[i + 1..]) as int)
    else if i < |s| && s[i] == '+' then LeadingDigits(s[i + 1..])
    else LeadingDigits(s[i..])
  }

  /** `to_i` skips leading whitespace: whatever run of `\s` precedes the
      text, the number read is the same. */
  lemma ParseLeadingIntSkipsSpace(ws: string, s: string)
    requires forall i :: 0 <= i < |ws| ==> IsSpace(ws[i])
    ensures ParseLeadingInt(ws + s) == ParseLeadingInt(s)
  {
    var t := ws + s;
    var k := Find(s, 0, NotSpace);
    var i := |ws| + k;
    forall j | 0 <= j < i ensures !NotSpace(t[j]) {
      if j < |ws| {
        assert t[j] == ws[j];
      } else {
        assert t[j] == s[j - |ws|];
      }
    }
    if i < |t| {
      assert t[i] == s[k];
    }
    FindIs(t, 0, NotSpace, i);
    assert t[i..] == s[k..];
    if i < |t| {
      assert t[i + 1..] == s[k + 1..];
    }
  }

  /** Text that, after any whitespace, starts with neither a sign nor a digit
      reads as 0. */
  lemma ParseLeadingIntWithoutNumber(s: string)
    requires s == [] || (!IsSpace(s[0]) && !IsDigit(s[0]) && s[0] != '-' && s[0] != '+')
    ensures ParseLeadingInt(s) == 0
  {
    FindIs(s, 0, NotSpace, 0);
  }

  /** A run of digits is read in full, and reading then goes on exactly as it
      would from the accumulated value. */
  lemma {:induction false} DigitRunAppend(ds: string, rest: string, acc: nat)
    requires AllDigits(ds)
    ensures DigitRun(ds + rest, acc) == DigitRun(rest, DigitRun(ds, acc))
    decreases |ds|
  {
    if ds == [] {
      assert ds + rest == rest;
    } else {
      assert (ds + rest)[0] == ds[0];
      assert (ds + rest)[1..] == ds[1..] + rest;
      DigitRunAppend(ds[1..], rest, acc * 10 + DigitValue(ds[0]));
    }
  }

  /** The digits of `n`, followed by anything that cannot continue a number,
      read back as `n`. */
  lemma {:induction false} LeadingDigitsOfDecimal(n: nat, rest: string)
    requires rest == [] || (!IsDigit(rest[0]) && rest[0] != '_')
    ensures LeadingDigits(NatToDecimal(n) + rest) == n
    decreases n
  {
    var r := NatToDecimal(n);
    assert (r + rest)[0] == r[0];
    assert (r + rest)[1..] == r[1..] + rest;
    if n < 10 {
      assert r[1..] == [];
    } else {
      var high := NatToDecimal(n / 10);
      var low := DigitChar(n % 10);
      assert r == high + [low];
      assert r[0] == high[0];
      assert r[1..] == high[1..] + [low];
      DigitRunAppend(r[1..], rest, DigitValue(r[0]));
      DigitRunAppend(high[1..], [low], DigitValue(high[0]));
      LeadingDigitsOfDecimal(n / 10, []);
      assert high + [] == high;
    }
  }

  /** `to_i` undoes `to_s`, also when the decimal is followed by text that
      cannot continue the number. */
  lemma ParseLeadingIntOfDecimal(n: int, rest: string)
    requires rest == [] || (!IsDigit(rest[0]) && rest[0] != '_')
    ensures ParseLeadingInt(IntToDecimal(n) + rest) == n
  {
    if n < 0 {
      NegativeDecimalReadBack(-n, rest);
    } else {
      NatDecimalReadBack(n, rest);
    }
  }

  lemma NatDecimalReadBack(n: nat, rest: string)
    requires rest == [] || (!IsDigit(rest[0]) && rest[0] != '_')
    ensures ParseLeadingInt(NatToDecimal(n) + rest) == n
  {
    var s := NatToDecimal(n) + rest;
    assert s[0] == NatToDecimal(n)[0];
    FindIs(s, 0, NotSpace, 0);
    assert s[0..] == s;
    LeadingDigitsOfDecimal(n, rest);
  }

  lemma NegativeDecimalReadBack(m: nat, rest: string)
    requires m > 0
    requires rest == [] || (!IsDigit(rest[0]) && rest[0] != '_')
    ensures ParseLeadingInt("-" + NatToDecimal(m) + rest) == -(m as int)
  {
    var digits := NatToDecimal(m) + rest;
    var s := "-" + NatToDecimal(m) + rest;
    assert s == ['-'] + digits;
    assert s[0] == '-' && s[1..] == digits;
    FindIs(s, 0, NotSpace, 0);
    LeadingDigitsOfDecimal(m, rest);
  }

  /** `to_i` undoes `to_s`. */
  lemma DecimalRoundTrip(n: int)
    ensures ParseLeadingInt(IntToDecimal(n)) == n
  {
    ParseLeadingIntOfDecimal(n, []);
    assert IntToDecimal(n) + [] == IntToDecimal(n);
  }
}
