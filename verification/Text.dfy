/** The few string operations the modelled Python code relies on. */
module Text {
  import opened Sequences

  /** `s.replace(c, by)` for a one-character `c`. */
  function ReplaceChar(s: string, c: char, sub: string): string {
    if s == [] then []
    else (if s[0] == c then sub else [s[0]]) + ReplaceChar(s[1..], c, sub)
  }

  lemma {:induction false} ReplaceCharConcat(a: string, b: string, c: char, sub: string)
    ensures ReplaceChar(a + b, c, sub) == ReplaceChar(a, c, sub) + ReplaceChar(b, c, sub)
  {
    if a == [] {
      assert a + b == b;
    } else {
      FirstOff(a, b);
      ReplaceCharConcat(a[1..], b, c, sub);
      Associates(if a[0] == c then sub else [a[0]], ReplaceChar(a[1..], c, sub), ReplaceChar(b, c, sub));
    }
  }

  lemma ReplaceOne(x: char, c: char, sub: string)
    ensures ReplaceChar([x], c, sub) == if x == c then sub else [x]
  {
    assert [x][1..] == [];
    assert ReplaceChar([], c, sub) == [];
  }

  predicate IsDigit(c: char) { '0' <= c <= '9' }

  predicate IsLowerLetter(c: char) { 'a' <= c <= 'z' }

  predicate IsUpperLetter(c: char) { 'A' <= c <= 'Z' }

  function LowerChar(c: char): char {
    if IsUpperLetter(c) then c + 'a' - 'A' else c
  }

  function UpperChar(c: char): char {
    if IsLowerLetter(c) then c - ('a' - 'A') else c
  }

  function MapChars(f: char -> char, s: string): (r: string)
    ensures |r| == |s|
    ensures forall i :: 0 <= i < |s| ==> r[i] == f(s[i])
  {
    seq(|s|, i requires 0 <= i < |s| => f(s[i]))
  }

  /** `s.lower()`, on the ASCII letters. */
  function Lower(s: string): string { MapChars(LowerChar, s) }

  /** `s.upper()`, on the ASCII letters. */
  function Upper(s: string): string { MapChars(UpperChar, s) }

  /** ASCII white space, as `str.strip()` removes it. */
  predicate IsWhiteSpace(c: char) {
    c == ' ' || '\t' <= c <= '\r' || '\U{1c}' <= c <= '\U{1f}'
  }

  /** The ASCII characters by their codes: white space, and the letters of either case. */
  lemma AsciiExactly(c: char)
    ensures IsWhiteSpace(c) <==> 9 <= c as int <= 13 || 28 <= c as int <= 32
    ensures LowerChar(c) as int == if 65 <= c as int <= 90 then c as int + 32 else c as int
    ensures UpperChar(c) as int == if 97 <= c as int <= 122 then c as int - 32 else c as int
    ensures IsDigit(c) <==> 48 <= c as int <= 57
  {
  }

  /** `s.strip(...)`, the characters to strip being those that satisfy `p`. */
  function StripLeft(p: char -> bool, s: string): string {
    if s != [] && p(s[0]) then StripLeft(p, s[1..]) else s
  }

  function StripRight(p: char -> bool, s: string): string {
    if s != [] && p(s[|s| - 1]) then StripRight(p, s[..|s| - 1]) else s
  }

  function Strip(p: char -> bool, s: string): string {
    StripRight(p, StripLeft(p, s))
  }

  /** What is left begins and ends with a character that is not stripped. */
  lemma {:induction false} StripLeftProperties(p: char -> bool, s: string)
    ensures StripLeft(p, s) == [] || !p(StripLeft(p, s)[0])
    ensures |StripLeft(p, s)| <= |s| && StripLeft(p, s) == s[|s| - |StripLeft(p, s)|..]
  {
    if s != "" && p(s[0]) {
      StripLeftProperties(p, s[1..]);
    }
  }

  lemma {:induction false} StripRightProperties(p: char -> bool, s: string)
    ensures StripRight(p, s) == [] || !p(StripRight(p, s)[|StripRight(p, s)| - 1])
    ensures StripRight(p, s) <= s
  {
    if s != "" && p(s[|s| - 1]) {
      StripRightProperties(p, s[..|s| - 1]);
    }
  }

  /** Stripping takes off exactly what is around the text. */
  lemma {:induction false} StripIs(p: char -> bool, before: string, text: string, after: string)
    requires forall i :: 0 <= i < |before| ==> p(before[i])
    requires forall i :: 0 <= i < |after| ==> p(after[i])
    requires text == "" || (!p(text[0]) && !p(text[|text| - 1]))
    ensures Strip(p, before + text + after) == text
  {
    Associates(before, text, after);
    StripLeftIs(p, before, text + after);
    if text == "" {
      assert text + after == after;
      StripLeftIs(p, after, "");
      assert after + "" == after;
    } else {
      StripRightIs(p, text, after);
    }
  }

  lemma {:induction false} StripLeftIs(p: char -> bool, before: string, text: string)
    requires forall i :: 0 <= i < |before| ==> p(before[i])
    ensures StripLeft(p, before + text) == StripLeft(p, text)
  {
    if before == "" {
      assert before + text == text;
    } else {
      FirstOff(before, text);
      StripLeftIs(p, before[1..], text);
    }
  }

  lemma {:induction false} StripRightIs(p: char -> bool, text: string, after: string)
    requires forall i :: 0 <= i < |after| ==> p(after[i])
    requires text != "" && !p(text[|text| - 1])
    ensures StripRight(p, text + after) == text
  {
    if after == "" {
      assert text + after == text;
    } else {
      var shorter := after[..|after| - 1];
      assert (text + after)[..|text + after| - 1] == text + shorter;
      StripRightIs(p, text, shorter);
    }
  }

  /** Stripping depends on which characters go, and on nothing else. */
  lemma {:induction false} StripAgrees(p: char -> bool, q: char -> bool, s: string)
    requires forall c :: p(c) == q(c)
    ensures Strip(p, s) == Strip(q, s)
  {
    StripLeftAgrees(p, q, s);
    StripRightAgrees(p, q, StripLeft(p, s));
  }

  lemma {:induction false} StripLeftAgrees(p: char -> bool, q: char -> bool, s: string)
    requires forall c :: p(c) == q(c)
    ensures StripLeft(p, s) == StripLeft(q, s)
  {
    if s != "" { StripLeftAgrees(p, q, s[1..]); }
  }

  lemma {:induction false} StripRightAgrees(p: char -> bool, q: char -> bool, s: string)
    requires forall c :: p(c) == q(c)
    ensures StripRight(p, s) == StripRight(q, s)
  {
    if s != "" { StripRightAgrees(p, q, s[..|s| - 1]); }
  }

  lemma {:induction false} StripRightKeepsFirst(p: char -> bool, s: string)
    requires s != "" && !p(s[0])
    ensures StripRight(p, s) != "" && StripRight(p, s)[0] == s[0]
  {
    if p(s[|s| - 1]) {
      StripRightKeepsFirst(p, s[..|s| - 1]);
    }
  }

  /** `s.startswith(prefix)`. */
  predicate StartsWith(s: string, prefix: string) { prefix <= s }

  /** `s.endswith(suffix)`. */
  predicate EndsWith(s: string, suffix: string) {
    |suffix| <= |s| && s[|s| - |suffix|..] == suffix
  }

  /** `sep.join(parts)`. */
  function Join(sep: string, parts: seq<string>): string {
    if parts == [] then ""
    else if |parts| == 1 then parts[0]
    else parts[0] + sep + Join(sep, parts[1..])
  }

  /** `s.split(c)`. */
  function Split(s: string, c: char): (r: seq<string>)
    ensures r != []
  {
    if s == [] then [""]
    else
      var rest := Split(s[1..], c);
      if s[0] == c then [""] + rest else [[s[0]] + rest[0]] + rest[1..]
  }

  /** Splitting what was joined gives the parts back when none of them holds the separator. */
  lemma {:induction false} SplitJoin(parts: seq<string>, c: char)
    requires parts != []
    requires forall i :: 0 <= i < |parts| ==> c !in parts[i]
    ensures Split(Join([c], parts), c) == parts
  {
    if |parts| == 1 {
      SplitWithout(parts[0], c);
    } else {
      SplitJoin(parts[1..], c);
      SplitAt(parts[0], Join([c], parts[1..]), c);
      assert parts[0] + [c] + Join([c], parts[1..]) == parts[0] + ([c] + Join([c], parts[1..]));
    }
  }

  lemma {:induction false} SplitWithout(s: string, c: char)
    requires c !in s
    ensures Split(s, c) == [s]
  {
    if s != [] {
      SplitWithout(s[1..], c);
      assert [s[0]] + s[1..] == s;
    }
  }

  lemma {:induction false} SplitAt(s: string, rest: string, c: char)
    requires c !in s
    ensures Split(s + ([c] + rest), c) == [s] + Split(rest, c)
  {
    var whole := s + ([c] + rest);
    if s == [] {
      assert whole[1..] == rest;
    } else {
      SplitAt(s[1..], rest, c);
      assert whole[1..] == s[1..] + ([c] + rest);
      assert [s[0]] + s[1..] == s;
      assert ([s[1..]] + Split(rest, c))[1..] == Split(rest, c);
    }
  }

  /** `str(n)` for a natural number. */
  function Decimal(n: nat): (r: string)
    ensures r != []
    ensures forall i :: 0 <= i < |r| ==> IsDigit(r[i])
  {
    if n < 10 then [Digit(n)] else Decimal(n / 10) + [Digit(n % 10)]
  }

  function Digit(n: nat): (c: char)
    requires n < 10
    ensures IsDigit(c) && DigitValue(c) == n
  {
    '0' + n as char
  }

  function DigitValue(c: char): nat
    requires IsDigit(c)
  {
    (c - '0') as nat
  }

  /** `int(s)` for a string of digits. */
  function ParseDecimal(s: string): nat
    requires forall i :: 0 <= i < |s| ==> IsDigit(s[i])
  {
    if s == [] then 0 else 10 * ParseDecimal(s[..|s| - 1]) + DigitValue(s[|s| - 1])
  }

  lemma {:induction false} DecimalRoundTrip(n: nat)
    ensures ParseDecimal(Decimal(n)) == n
  {
    if n >= 10 {
      DecimalRoundTrip(n / 10);
      assert Decimal(n)[..|Decimal(n)| - 1] == Decimal(n / 10);
    } else {
      assert ParseDecimal([]) == 0;
      assert Decimal(n)[..0] == [];
    }
  }

  /** How many digits `Decimal` writes, counted by the power of ten that bounds the number. */
  lemma {:induction false} DecimalLength(n: nat, digits: nat)
    requires digits >= 1
    ensures |Decimal(n)| <= digits <==> n < Pow10(digits)
  {
    if digits == 1 {
      assert Pow10(1) == 10 * Pow10(0);
    } else if n < 10 {
      Pow10AtLeast10(digits);
    } else {
      DecimalLength(n / 10, digits - 1);
      assert Pow10(digits) == 10 * Pow10(digits - 1);
    }
  }

  function Pow10(k: nat): nat { if k == 0 then 1 else 10 * Pow10(k - 1) }

  lemma Pow10AtLeast10(k: nat)
    requires k >= 1
    ensures Pow10(k) >= 10
  {
    if k > 1 { Pow10AtLeast10(k - 1); }
  }
}
