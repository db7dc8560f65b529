/** Text helpers that stand for the Python string operations the scripts use:
    str() of an integer, re.match(r'\d+', s) over Unicode decimal digits, the `in` substring test,
    str.split on one character, ", ".join, str.upper and str.capitalize (ASCII letters only). */
module Strings {

  /** An ASCII digit, the only kind str() writes. Reading digits back goes by DecimalTable below. */
  predicate IsDigit(c: char) { '0' <= c <= '9' }

  function DigitValue(c: char): nat
    requires IsDigit(c)
  {
    c as int - '0' as int
  }

  function DigitChar(d: nat): (c: char)
    requires d < 10
    ensures IsDigit(c) && DigitValue(c) == d
  {
    ('0' as int + d) as char
  }

  predicate AllDigits(s: string) { forall i :: 0 <= i < |s| ==> IsDigit(s[i]) }

  /** Decimal notation of a natural number, as Python's str() writes it: ASCII digits. */
  function NatToString(n: nat): (s: string)
    ensures |s| >= 1 && AllDigits(s)
    ensures s[0] == '0' ==> n == 0
  {
    if n < 10 then [DigitChar(n)] else NatToString(n / 10) + [DigitChar(n % 10)]
  }

  /** str() of a Python int. */
  function IntToString(i: int): string
  {
    if i < 0 then "-" + NatToString(-i) else NatToString(i)
  }

  /** unicodedata.decimal(c, -1) of the Python that runs the script: the value of a Unicode decimal
      digit (category Nd), -1 for any other character. Both `\d` in a str pattern and int() go by this
      property. The character database belongs to the interpreter, not to the scripts, so the model
      takes it as a parameter. */
  type DecimalTable = char -> int

  /** Every Unicode version gives the ASCII digits their usual values. */
  predicate AsciiDecimals(dec: DecimalTable)
  {
    forall c: char :: '0' <= c <= '9' ==> dec(c) == c as int - '0' as int
  }

  /** What `\d` matches: a decimal digit, ASCII or not. */
  predicate IsDecimal(dec: DecimalTable, c: char) { 0 <= dec(c) <= 9 }

  predicate AllDecimal(dec: DecimalTable, s: string) { forall i :: 0 <= i < |s| ==> IsDecimal(dec, s[i]) }

  /** int() of a run of decimal digits: the number they denote, read left to right. */
  function DecimalsValue(dec: DecimalTable, s: string): nat
    requires AllDecimal(dec, s)
    decreases |s|
  {
    if |s| == 0 then 0 else DecimalsValue(dec, s[..|s| - 1]) * 10 + dec(s[|s| - 1])
  }

  /** The longest prefix of s made of decimal digits: what re.match(r'\d+', s) matches. */
  function LeadingDigits(dec: DecimalTable, s: string): (p: string)
    ensures p <= s && AllDecimal(dec, p)
    ensures |p| < |s| ==> !IsDecimal(dec, s[|p|])
  {
    if |s| > 0 && IsDecimal(dec, s[0]) then [s[0]] + LeadingDigits(dec, s[1..]) else []
  }

  /** int(m.group()) if re.match(r'\d+', s) matches, otherwise 0. */
  function ParseLeadingNumber(dec: DecimalTable, s: string): nat
  {
    var p := LeadingDigits(dec, s);
    if |p| == 0 then 0 else DecimalsValue(dec, p)
  }

  /** The digits str() writes are decimal digits, and int() reads them back. */
  lemma {:induction false} DecimalsValueOfNatToString(dec: DecimalTable, n: nat)
    requires AsciiDecimals(dec)
    ensures AllDecimal(dec, NatToString(n)) && DecimalsValue(dec, NatToString(n)) == n
  {
    var s := NatToString(n);
    forall i | 0 <= i < |s| ensures IsDecimal(dec, s[i]) {
      assert IsDigit(s[i]);
    }
    if n >= 10 {
      DecimalsValueOfNatToString(dec, n / 10);
      assert s[..|s| - 1] == NatToString(n / 10);
      assert s[|s| - 1] == DigitChar(n % 10);
    } else {
      assert s[0] == DigitChar(n);
      assert s[..0] == [];
    }
  }

  lemma {:induction false} LeadingDigitsOfDigitsPrefix(dec: DecimalTable, p: string, rest: string)
    requires AllDecimal(dec, p)
    requires |rest| == 0 || !IsDecimal(dec, rest[0])
    ensures LeadingDigits(dec, p + rest) == p
    decreases |p|
  {
    if |p| > 0 {
      assert (p + rest)[1..] == p[1..] + rest;
      assert (p + rest)[0] == p[0];
      LeadingDigitsOfDigitsPrefix(dec, p[1..], rest);
    }
  }

  /** A voltage text that starts with decimal digits, of any script, reads as the number they denote,
      whatever non-digit text follows. */
  lemma ParseLeadingNumberOfDigits(dec: DecimalTable, digits: string, rest: string)
    requires |digits| > 0 && AllDecimal(dec, digits)
    requires |rest| == 0 || !IsDecimal(dec, rest[0])
    ensures ParseLeadingNumber(dec, digits + rest) == DecimalsValue(dec, digits)
  {
    LeadingDigitsOfDigitsPrefix(dec, digits, rest);
  }

  /** The leading-number parse inverts str(): the voltage written as "20 kV" reads as 20. */
  lemma ParseLeadingNumberOfNatToString(dec: DecimalTable, n: nat, rest: string)
    requires AsciiDecimals(dec)
    requires |rest| == 0 || !IsDecimal(dec, rest[0])
    ensures ParseLeadingNumber(dec, NatToString(n) + rest) == n
  {
    DecimalsValueOfNatToString(dec, n);
    ParseLeadingNumberOfDigits(dec, NatToString(n), rest);
  }

  /** Full-width digits are decimal digits too: "２０ kV" reads as 20. */
  lemma ParseLeadingNumberFullwidth(dec: DecimalTable)
    requires dec('\U{FF12}') == 2 && dec('\U{FF10}') == 0 && dec(' ') == -1
    ensures ParseLeadingNumber(dec, "\U{FF12}\U{FF10} kV") == 20
  {
    var digits := "\U{FF12}\U{FF10}";
    assert digits + " kV" == "\U{FF12}\U{FF10} kV";
    assert digits[..1] == "\U{FF12}";
    ParseLeadingNumberOfDigits(dec, digits, " kV");
  }

  /** A string that does not start with a decimal digit parses as 0. */
  lemma ParseLeadingNumberNoDigit(dec: DecimalTable, s: string)
    requires |s| == 0 || !IsDecimal(dec, s[0])
    ensures ParseLeadingNumber(dec, s) == 0
  {
  }

  /** Python's `sub in s` for strings. */
  predicate Contains(s: string, sub: string)
    decreases |s|
  {
    sub <= s || (|s| > 0 && Contains(s[1..], sub))
  }

  predicate OccursAt(s: string, sub: string, i: nat)
  {
    i + |sub| <= |s| && s[i..i + |sub|] == sub
  }

  lemma {:induction false} OccursAtContains(s: string, sub: string, i: nat)
    requires OccursAt(s, sub, i)
    ensures Contains(s, sub)
  {
    if i == 0 {
      assert s[..|sub|] == sub;
    } else {
      assert s[1..][i - 1..i - 1 + |sub|] == s[i..i + |sub|];
      OccursAtContains(s[1..], sub, i - 1);
    }
  }

  lemma {:induction false} ContainsOccurs(s: string, sub: string) returns (i: nat)
    requires Contains(s, sub)
    ensures OccursAt(s, sub, i)
    decreases |s|
  {
    if sub <= s {
      i := 0;
      assert s[..|sub|] == sub;
    } else {
      var j := ContainsOccurs(s[1..], sub);
      assert s[j + 1..j + 1 + |sub|] == s[1..][j..j + |sub|];
      i := j + 1;
    }
  }

  /** `sub in s` holds exactly when sub occurs at some position of s. */
  lemma ContainsIff(s: string, sub: string)
    ensures Contains(s, sub) <==> exists i: nat :: OccursAt(s, sub, i)
  {
    if Contains(s, sub) {
      var i := ContainsOccurs(s, sub);
    }
    if i: nat :| OccursAt(s, sub, i) {
      OccursAtContains(s, sub, i);
    }
  }

  /** s.split(c) for a one-character separator c, built character by character: a c starts a new
      part, any other character extends the last one. Never empty. */
  function Split(s: string, c: char): (parts: seq<string>)
    ensures |parts| >= 1
    decreases |s|
  {
    if |s| == 0 then [""]
    else
      var p := Split(s[..|s| - 1], c);
      var x := s[|s| - 1];
      if x == c then p + [""] else p[..|p| - 1] + [p[|p| - 1] + [x]]
  }

  /** sep.join(parts). */
  function Join(parts: seq<string>, sep: string): string
    decreases |parts|
  {
    if |parts| == 0 then ""
    else if |parts| == 1 then parts[0]
    else Join(parts[..|parts| - 1], sep) + sep + parts[|parts| - 1]
  }

  /** No part of s.split(c) holds c. */
  lemma {:induction false} SplitPartsFree(s: string, c: char)
    ensures forall k :: 0 <= k < |Split(s, c)| ==> c !in Split(s, c)[k]
    decreases |s|
  {
    if |s| > 0 {
      SplitPartsFree(s[..|s| - 1], c);
    }
  }

  /** Splitting on c and joining with c gives the string back. */
  lemma {:induction false} JoinSplit(s: string, c: char)
    ensures Join(Split(s, c), [c]) == s
    decreases |s|
  {
    if |s| > 0 {
      var n := |s| - 1;
      var p := Split(s[..n], c);
      JoinSplit(s[..n], c);
      var k := |p| - 1;
      if s[n] == c {
        assert (p + [""])[..|p|] == p;
      } else if k > 0 {
        var q := p[..k] + [p[k] + [s[n]]];
        assert q[..k] == p[..k];
      }
      assert s == s[..n] + [s[n]];
    }
  }

  function LastOf(parts: seq<string>): string
    requires |parts| >= 1
  {
    parts[|parts| - 1]
  }

  /** t is a suffix of s. */
  predicate IsSuffix(t: string, s: string)
  {
    |t| <= |s| && s[|s| - |t|..] == t
  }

  /** The characters after the last c of s (all of s when there is none). */
  function AfterLast(s: string, c: char): string
    decreases |s|
  {
    if |s| == 0 || s[|s| - 1] == c then "" else AfterLast(s[..|s| - 1], c) + [s[|s| - 1]]
  }

  /** The last part of s.split(c) is the text after the last c. */
  lemma {:induction false} LastOfSplit(s: string, c: char)
    ensures LastOf(Split(s, c)) == AfterLast(s, c)
    decreases |s|
  {
    if |s| > 0 {
      LastOfSplit(s[..|s| - 1], c);
    }
  }

  /** A suffix of all but the last character, extended by that character, is a suffix. */
  lemma SuffixExtend(s: string, t: string)
    requires |s| > 0 && IsSuffix(t, s[..|s| - 1])
    ensures IsSuffix(t + [s[|s| - 1]], s)
  {
    var n := |s| - 1;
    assert s[|s| - |t| - 1..] == s[..n][n - |t|..] + [s[n]];
  }

  /** The text after the last c is a suffix of s. */
  lemma {:induction false} AfterLastSuffix(s: string, c: char)
    ensures IsSuffix(AfterLast(s, c), s)
    decreases |s|
  {
    if |s| > 0 && s[|s| - 1] != c {
      var prefix := s[..|s| - 1];
      AfterLastSuffix(prefix, c);
      SuffixExtend(s, AfterLast(prefix, c));
    }
  }

  /** The text after the last c holds no c. */
  lemma {:induction false} AfterLastFree(s: string, c: char)
    ensures forall j :: 0 <= j < |AfterLast(s, c)| ==> AfterLast(s, c)[j] != c
    decreases |s|
  {
    if |s| > 0 && s[|s| - 1] != c {
      AfterLastFree(s[..|s| - 1], c);
    }
  }

  /** The text after the last c is preceded by c unless it is all of s. */
  lemma {:induction false} AfterLastPreceded(s: string, c: char)
    ensures |AfterLast(s, c)| < |s| ==> s[|s| - |AfterLast(s, c)| - 1] == c
    decreases |s|
  {
    if |s| > 0 && s[|s| - 1] != c {
      var prefix := s[..|s| - 1];
      AfterLastPreceded(prefix, c);
      var t := AfterLast(prefix, c);
      assert |AfterLast(s, c)| == |t| + 1;
      if |t| < |prefix| {
        assert s[|s| - |t| - 2] == prefix[|prefix| - |t| - 1];
      }
    }
  }

  /** The last component of s.split(c) is the part of s after its last c (all of s when there is none). */
  lemma LastComponent(s: string, c: char)
    ensures IsSuffix(LastOf(Split(s, c)), s)
    ensures c !in LastOf(Split(s, c))
    ensures |LastOf(Split(s, c))| < |s| ==> s[|s| - |LastOf(Split(s, c))| - 1] == c
  {
    LastOfSplit(s, c);
    AfterLastSuffix(s, c);
    AfterLastFree(s, c);
    AfterLastPreceded(s, c);
  }

  function UpperChar(c: char): char
  {
    if 'a' <= c <= 'z' then (c as int - 32) as char else c
  }

  function LowerChar(c: char): char
  {
    if 'A' <= c <= 'Z' then (c as int + 32) as char else c
  }

  /** str.upper(), ASCII letters only. */
  function Upper(s: string): (u: string)
    ensures |u| == |s|
    ensures forall i :: 0 <= i < |s| ==> u[i] == UpperChar(s[i])
  {
    seq(|s|, i requires 0 <= i < |s| => UpperChar(s[i]))
  }

  /** str.capitalize(): first character upper case, the rest lower case (ASCII letters only). */
  function Capitalize(s: string): (r: string)
    ensures |r| == |s|
    ensures |s| > 0 ==> r[0] == UpperChar(s[0])
    ensures forall i :: 0 < i < |s| ==> r[i] == LowerChar(s[i])
  {
    if |s| == 0 then "" else [UpperChar(s[0])] + seq(|s| - 1, i requires 0 <= i < |s| - 1 => LowerChar(s[i + 1]))
  }
}
