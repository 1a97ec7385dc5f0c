/**
 The LIKE predicate of section 8.5 of ISO/IEC 9075-2, as PostgreSQL evaluates it (section 9.7.1
 of its documentation): `%` stands for any string, `_` for any one character, and the backslash
 makes the next character literal.
 */
module Like {
  import opened Wrappers
  import opened Text

  const ESCAPE: char := '\\'

  datatype Token = AnyString | AnyChar | Literal(c: char)

  /** The pattern as tokens. None when it ends with the escape character, an error in SQL. */
  function Parse(pattern: string): Option<seq<Token>> {
    if pattern == [] then Some([])
    else if pattern[0] == ESCAPE then
      if |pattern| == 1 then None else Prepend(Literal(pattern[1]), Parse(pattern[2..]))
    else
      Prepend(
        if pattern[0] == '%' then AnyString
        else if pattern[0] == '_' then AnyChar
        else Literal(pattern[0]),
        Parse(pattern[1..]))
  }

  function Prepend(t: Token, rest: Option<seq<Token>>): Option<seq<Token>> {
    if rest.None? then None else Some([t] + rest.value)
  }

  predicate Matches(text: string, tokens: seq<Token>)
    decreases |tokens|
  {
    if tokens == [] then text == []
    else match tokens[0]
      case AnyString => exists k | 0 <= k <= |text| :: Matches(text[k..], tokens[1..])
      case AnyChar => text != [] && Matches(text[1..], tokens[1..])
      case Literal(c) => text != [] && text[0] == c && Matches(text[1..], tokens[1..])
  }

  /** `text LIKE pattern`. */
  predicate IsLike(text: string, pattern: string) {
    var tokens := Parse(pattern);
    tokens.Some? && Matches(text, tokens.value)
  }

  predicate IsSpecial(c: char) { c == ESCAPE || c == '%' || c == '_' }

  /** Case folding leaves the special characters alone, and makes nothing else special. */
  ghost predicate ValidFold(fold: char -> char) {
    forall c: char :: (IsSpecial(c) ==> fold(c) == c) && (IsSpecial(fold(c)) ==> IsSpecial(c))
  }

  /** `text ILIKE pattern`: both sides are folded, then compared with LIKE. */
  predicate IsILike(fold: char -> char, text: string, pattern: string) {
    IsLike(MapChars(fold, text), MapChars(fold, pattern))
  }

  function Literals(s: string): seq<Token> {
    if s == [] then [] else [Literal(s[0])] + Literals(s[1..])
  }

  /** A run of literals consumes exactly that prefix. */
  lemma {:induction false} MatchLiterals(text: string, s: string, rest: seq<Token>)
    ensures Matches(text, Literals(s) + rest) <==> s <= text && Matches(text[|s|..], rest)
  {
    if s == [] {
      assert Literals(s) + rest == rest && text[0..] == text;
    } else {
      var tokens := Literals(s) + rest;
      assert tokens[1..] == Literals(s[1..]) + rest;
      if text != [] {
        MatchLiterals(text[1..], s[1..], rest);
        if s <= text || (s[0] == text[0] && s[1..] <= text[1..]) {
          assert s == [s[0]] + s[1..] && text == [text[0]] + text[1..];
          assert text[1..][|s| - 1..] == text[|s|..];
          assert s[1..] <= text[1..];
        }
      }
    }
  }

  /** A final `%` accepts whatever is left. */
  lemma MatchAnyTail(text: string)
    ensures Matches(text, [AnyString])
  {
    assert text[|text|..] == [];
    assert Matches(text[|text|..], [AnyString][1..]);
  }

  /** A pattern with no special character stands for itself. */
  lemma {:induction false} ParsePlain(s: string, rest: string)
    requires forall i :: 0 <= i < |s| ==> !IsSpecial(s[i])
    ensures Parse(s + rest) == (if Parse(rest).None? then None else Some(Literals(s) + Parse(rest).value))
  {
    if s == [] {
      assert s + rest == rest;
      assert Parse(rest).Some? ==> Literals(s) + Parse(rest).value == Parse(rest).value;
    } else {
      ParsePlain(s[1..], rest);
      assert (s + rest)[1..] == s[1..] + rest;
      if Parse(rest).Some? {
        assert Literals(s) + Parse(rest).value == [Literal(s[0])] + (Literals(s[1..]) + Parse(rest).value);
      }
    }
  }
}
