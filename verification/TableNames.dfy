/**
 Names of tables: the identifier rule (validators.py), the name made from a title (utils.py), and
 the first free name in a schema (database.py).
 */
module TableNames {
  import opened Wrappers
  import opened Text
  import opened Sequences

  const PG_IDENTIFIER_MAX_LENGTH: nat := 63
  const POSTGIS_TABLE_NAME_MAX_LENGTH: nat := PG_IDENTIFIER_MAX_LENGTH - |"idx__"| - |"geom"|
  const MAX_ATTEMPTS: nat := 20

  // ---- The identifier rule ----

  predicate IsNameChar(c: char) { IsLowerLetter(c) || IsDigit(c) || c == '_' }

  /** A lower-case letter, then lower-case letters, digits and underscores. */
  predicate IsIdentifier(s: string) {
    s != "" && IsLowerLetter(s[0]) && forall i :: 0 <= i < |s| ==> IsNameChar(s[i])
  }

  /** `re.match(r"^[a-z][a-z0-9_]*$", s)`: in Python, `$` also matches before a final newline. */
  predicate MatchesPattern(s: string) {
    s != "" && IsLowerLetter(s[0]) && (AllNameChars(s[1..]) || (EndsWith(s[1..], "\n") && AllNameChars(s[1..|s| - 1])))
  }

  predicate AllNameChars(s: string) { forall i :: 0 <= i < |s| ==> IsNameChar(s[i]) }

  datatype IdentifierError = EmptyIdentifier | BadCharacters | TooLong

  /** `validate_postgres_identifier`. */
  function ValidateIdentifier(s: string, maxLength: nat): Result<string, IdentifierError> {
    if Strip(IsWhiteSpace, s) == "" then Err(EmptyIdentifier)
    else if !MatchesPattern(s) then Err(BadCharacters)
    else if |s| > maxLength then Err(TooLong)
    else Ok(s)
  }

  /** A name that is accepted in SQL text: an identifier, or one with a newline behind it, within 63 characters. */
  predicate IsAccepted(name: string) {
    |name| <= 63 && (IsIdentifier(name) || (EndsWith(name, "\n") && IsIdentifier(name[..|name| - 1])))
  }

  /**
   What the rule accepts: an identifier within the length, and also an identifier followed by one
   newline, which the pattern was not meant to let through.
   */
  lemma ValidatedExactly(s: string, maxLength: nat)
    ensures ValidateIdentifier(s, maxLength).Ok?
       <==> |s| <= maxLength && (IsIdentifier(s) || (EndsWith(s, "\n") && IsIdentifier(s[..|s| - 1])))
  {
    if s != "" && IsLowerLetter(s[0]) {
      StripKeepsInk(s);
      AfterFirstLetter(s);
      NewlineLast(s);
    }
  }

  /** Any identifier with a newline behind it, within the length, is accepted. */
  lemma NewlineIsAccepted(s: string, maxLength: nat)
    requires IsIdentifier(s) && |s| < maxLength
    ensures ValidateIdentifier(s + "\n", maxLength) == Ok(s + "\n") && !IsIdentifier(s + "\n")
  {
    var text := s + "\n";
    assert text[|text| - 1..] == "\n" && text[..|text| - 1] == s && text[|s|] == '\n';
    ValidatedExactly(text, maxLength);
  }

  lemma AcceptedExactly(s: string)
    ensures ValidateIdentifier(s, PG_IDENTIFIER_MAX_LENGTH).Ok? <==> IsAccepted(s)
    ensures IsAccepted(s) ==>
      (ValidateIdentifier(s, POSTGIS_TABLE_NAME_MAX_LENGTH).Ok? <==> |s| <= POSTGIS_TABLE_NAME_MAX_LENGTH)
  {
    ValidatedExactly(s, PG_IDENTIFIER_MAX_LENGTH);
    ValidatedExactly(s, POSTGIS_TABLE_NAME_MAX_LENGTH);
  }

  lemma AfterFirstLetter(s: string)
    requires s != "" && IsLowerLetter(s[0])
    ensures IsIdentifier(s) <==> AllNameChars(s[1..])
  {
    if AllNameChars(s[1..]) {
      forall i | 0 <= i < |s|
        ensures IsNameChar(s[i])
      {
        if i > 0 { assert s[i] == s[1..][i - 1]; }
      }
    }
  }

  lemma NewlineLast(s: string)
    requires s != "" && IsLowerLetter(s[0])
    ensures EndsWith(s, "\n") <==> EndsWith(s[1..], "\n")
    ensures EndsWith(s, "\n") ==> (IsIdentifier(s[..|s| - 1]) <==> AllNameChars(s[1..|s| - 1]))
  {
    if |s| > 1 {
      assert s[1..][|s| - 2..] == s[|s| - 1..];
      AfterFirstLetter(s[..|s| - 1]);
      assert s[..|s| - 1][1..] == s[1..|s| - 1];
    } else {
      assert s[0..] == s && s != "\n";
    }
  }

  lemma StripKeepsInk(s: string)
    requires s != "" && !IsWhiteSpace(s[0])
    ensures Strip(IsWhiteSpace, s) != ""
  {
    StripRightKeepsFirst(IsWhiteSpace, s);
  }

  // ---- The name made from a title ----

  function KeepNameChars(s: string): string {
    if s == "" then ""
    else
      (if IsNameChar(s[0]) || IsUpperLetter(s[0]) then [s[0]] else [])
      + KeepNameChars(s[1..])
  }

  predicate IsUnderscore(c: char) { c == '_' }

  /** `s[:n]`. */
  function Take(s: string, n: nat): string { if n < |s| then s[..n] else s }

  function SanitizedUntrimmed(normalized: string): string {
    var spaced := ReplaceChar(normalized, ' ', "_");
    var dashed := ReplaceChar(spaced, '-', "_");
    Lower(KeepNameChars(dashed))
  }

  function PrefixDigit(s: string): string {
    if s != "" && IsDigit(s[0]) then "layer_" + s else s
  }

  /** `sanitize_name`, from the name already decomposed (NFKD) and stripped of accents. */
  function SanitizeName(normalized: string, maxLength: nat): string {
    Take(PrefixDigit(Strip(IsUnderscore, SanitizedUntrimmed(normalized))), maxLength)
  }

  lemma LowerConcat(a: string, b: string)
    ensures Lower(a + b) == Lower(a) + Lower(b)
  {
  }

  lemma {:induction false} KeptCharsLower(s: string)
    ensures AllNameChars(Lower(KeepNameChars(s)))
  {
    if s != "" {
      KeptCharsLower(s[1..]);
      var head := if IsNameChar(s[0]) || IsUpperLetter(s[0]) then [s[0]] else [];
      var lowered := Lower(KeepNameChars(s));
      LowerConcat(head, KeepNameChars(s[1..]));
    }
  }

  lemma StripProperties(p: char -> bool, s: string)
    ensures var r := Strip(p, s);
      r == "" || (!p(r[0]) && !p(r[|r| - 1]))
    ensures forall i :: 0 <= i < |Strip(p, s)| ==> Strip(p, s)[i] in s
  {
    StripLeftProperties(p, s);
    var left := StripLeft(p, s);
    StripRightProperties(p, left);
    forall i | 0 <= i < |Strip(p, s)| ensures Strip(p, s)[i] == s[|s| - |left| + i] {
    }
  }

  /** Every title gives an identifier within the length, or nothing at all. */
  lemma SanitizedIsIdentifier(normalized: string, maxLength: nat)
    ensures var r := SanitizeName(normalized, maxLength);
      |r| <= maxLength && (r == "" || IsIdentifier(r))
  {
    var untrimmed := SanitizedUntrimmed(normalized);
    var spaced := ReplaceChar(normalized, ' ', "_");
    KeptCharsLower(ReplaceChar(spaced, '-', "_"));
    StripProperties(IsUnderscore, untrimmed);
    var stripped := Strip(IsUnderscore, untrimmed);
    forall i | 0 <= i < |stripped| ensures IsNameChar(stripped[i]) {
      assert stripped[i] in untrimmed;
    }
    var prefixed := PrefixDigit(stripped);
    assert prefixed != "" ==> IsIdentifier(prefixed);
  }

  /** What one character of a title becomes. */
  function NameChar(c: char): string {
    if c == ' ' || c == '-' || c == '_' then "_"
    else if 'a' <= c <= 'z' || '0' <= c <= '9' then [c]
    else if 'A' <= c <= 'Z' then [c - 'A' + 'a']
    else ""
  }

  lemma {:induction false} KeepNameCharsConcat(a: string, b: string)
    ensures KeepNameChars(a + b) == KeepNameChars(a) + KeepNameChars(b)
  {
    if a == "" {
      assert a + b == b;
    } else {
      FirstOff(a, b);
      KeepNameCharsConcat(a[1..], b);
    }
  }

  lemma SanitizedConcat(a: string, b: string)
    ensures SanitizedUntrimmed(a + b) == SanitizedUntrimmed(a) + SanitizedUntrimmed(b)
  {
    var spacedA, spacedB := ReplaceChar(a, ' ', "_"), ReplaceChar(b, ' ', "_");
    ReplaceCharConcat(a, b, ' ', "_");
    ReplaceCharConcat(spacedA, spacedB, '-', "_");
    var keptA, keptB := ReplaceChar(spacedA, '-', "_"), ReplaceChar(spacedB, '-', "_");
    KeepNameCharsConcat(keptA, keptB);
    LowerConcat(KeepNameChars(keptA), KeepNameChars(keptB));
  }

  lemma SanitizedChar(c: char)
    ensures SanitizedUntrimmed([c]) == NameChar(c)
  {
    ReplaceOne(c, ' ', "_");
    var spaced := if c == ' ' then '_' else c;
    ReplaceOne(spaced, '-', "_");
    var dashed := if spaced == '-' then '_' else spaced;
    assert [dashed][1..] == [] && KeepNameChars([]) == [];
    assert KeepNameChars([dashed]) == if IsNameChar(dashed) || IsUpperLetter(dashed) then [dashed] else [];
  }

  /**
   What a title becomes, character by character: blanks and hyphens are underscores, capitals are lowered,
   and what is neither a letter, a digit nor an underscore goes.
   */
  lemma {:induction false} SanitizedCharByChar(title: string)
    ensures SanitizedUntrimmed(title) == if title == "" then "" else NameChar(title[0]) + SanitizedUntrimmed(title[1..])
  {
    if title != "" {
      assert title == [title[0]] + title[1..];
      SanitizedConcat([title[0]], title[1..]);
      SanitizedChar(title[0]);
    }
  }

  /** Then the underscores around it go, a digit in front gets a prefix, and the length is cut. */
  lemma SanitizedNameExactly(title: string, before: string, name: string, after: string, maxLength: nat)
    requires SanitizedUntrimmed(title) == before + name + after
    requires forall i :: 0 <= i < |before| ==> before[i] == '_'
    requires forall i :: 0 <= i < |after| ==> after[i] == '_'
    requires name == "" || (name[0] != '_' && name[|name| - 1] != '_')
    ensures
      var prefixed := if name != "" && '0' <= name[0] <= '9' then "layer_" + name else name;
      SanitizeName(title, maxLength) == if |prefixed| <= maxLength then prefixed else prefixed[..maxLength]
  {
    StripIs(IsUnderscore, before, name, after);
  }

  lemma {:induction false} NothingToReplace(s: string, c: char, sub: string)
    requires c !in s
    ensures ReplaceChar(s, c, sub) == s
  {
    if s != "" {
      NothingToReplace(s[1..], c, sub);
      assert s == [s[0]] + s[1..];
    }
  }

  lemma {:induction false} NothingToDrop(s: string)
    requires AllNameChars(s)
    ensures KeepNameChars(s) == s
  {
    if s != "" {
      NothingToDrop(s[1..]);
      assert s == [s[0]] + s[1..];
    }
  }

  /** What sanitizing makes of a name that is already an identifier: it drops final underscores. */
  lemma SanitizedIdentifier(s: string, maxLength: nat)
    requires IsIdentifier(s)
    ensures SanitizeName(s, maxLength) == Take(StripRight(IsUnderscore, s), maxLength)
  {
    IdentifierUntouched(s);
    StripRightKeepsFirst(IsUnderscore, s);
  }

  lemma IdentifierUntouched(s: string)
    requires IsIdentifier(s)
    ensures SanitizedUntrimmed(s) == s
  {
    NothingToReplace(s, ' ', "_");
    NothingToReplace(s, '-', "_");
    NothingToDrop(s);
    assert Lower(s) == s;
  }

  /**
   The names that sanitizing leaves alone, as GeoServer workspaces and layers need them to be: the
   identifiers within the length that do not end with an underscore.
   */
  lemma SanitizeFixesExactly(s: string, maxLength: nat)
    requires s != ""
    ensures SanitizeName(s, maxLength) == s
       <==> IsIdentifier(s) && |s| <= maxLength && s[|s| - 1] != '_'
  {
    if IsIdentifier(s) {
      SanitizedIdentifier(s, maxLength);
      StripRightProperties(IsUnderscore, s);
      if s[|s| - 1] == '_' {
        assert StripRight(IsUnderscore, s) == StripRight(IsUnderscore, s[..|s| - 1]);
        StripRightProperties(IsUnderscore, s[..|s| - 1]);
      }
    }
    SanitizedIsIdentifier(s, maxLength);
  }

  // ---- The first free name ----

  /** What is left of the length once the longest suffix, that of the last attempt, is appended. */
  const BASE_BUDGET: nat := POSTGIS_TABLE_NAME_MAX_LENGTH - |"_19"|

  function Candidate(base: string, counter: nat): string {
    var base := Take(base, POSTGIS_TABLE_NAME_MAX_LENGTH);
    if counter == 0 then base else Take(base, BASE_BUDGET) + "_" + Decimal(counter)
  }

  /** The candidates: the first 54 characters, then the first 51 with a number behind them. */
  lemma CandidateExactly(base: string, counter: nat)
    ensures Candidate(base, 0) == if |base| <= 54 then base else base[..54]
    ensures counter > 0 ==>
      Candidate(base, counter) == (if |base| <= 51 then base else base[..51]) + "_" + Decimal(counter)
  {
    if |base| > 54 {
      assert base[..54][..51] == base[..51];
    }
  }

  /** `get_available_table_name`, `existing` being the tables of the schema. */
  method GetAvailableTableName(existing: set<string>, base: string) returns (r: Option<string>)
    ensures r.None? <==> forall k :: 0 <= k < 20 ==> Candidate(base, k) in existing
    ensures r.Some? ==> exists k | 0 <= k < 20 ::
      && r.value == Candidate(base, k) && r.value !in existing
      && forall j :: 0 <= j < k ==> Candidate(base, j) in existing
  {
    for counter := 0 to MAX_ATTEMPTS
      invariant forall j :: 0 <= j < counter ==> Candidate(base, j) in existing
    {
      var name := Candidate(base, counter);
      if name !in existing {
        return Some(name);
      }
    }
    return None;
  }

  /** Every candidate made from an identifier is one, and leaves room for its spatial index. */
  lemma CandidatesAreValid(base: string, counter: nat)
    requires IsIdentifier(base) && counter < MAX_ATTEMPTS
    ensures ValidateIdentifier(Candidate(base, counter), POSTGIS_TABLE_NAME_MAX_LENGTH) == Ok(Candidate(base, counter))
    ensures |"idx_" + Candidate(base, counter) + "_geom"| <= PG_IDENTIFIER_MAX_LENGTH
  {
    var candidate := Candidate(base, counter);
    DecimalLength(counter, 2);
    assert Pow10(2) == 10 * Pow10(1) && Pow10(1) == 10 * Pow10(0);
    assert IsIdentifier(candidate);
    ValidatedExactly(candidate, POSTGIS_TABLE_NAME_MAX_LENGTH);
  }

  /** Suffixed candidates never repeat: an attempt is not spent twice on one name. */
  lemma SuffixedCandidatesDiffer(base: string, i: nat, j: nat)
    requires 1 <= i < j
    ensures Candidate(base, i) != Candidate(base, j)
  {
    var prefix := Take(Take(base, POSTGIS_TABLE_NAME_MAX_LENGTH), BASE_BUDGET) + "_";
    if Candidate(base, i) == Candidate(base, j) {
      assert Candidate(base, i)[|prefix|..] == Decimal(i);
      assert Candidate(base, j)[|prefix|..] == Decimal(j);
      DecimalRoundTrip(i);
      DecimalRoundTrip(j);
    }
  }

  /** From a title to the name of its table: nothing usable, or a name that passes the final check. */
  lemma TitleGivesValidName(normalized: string, counter: nat)
    requires counter < MAX_ATTEMPTS
    ensures var base := SanitizeName(normalized, POSTGIS_TABLE_NAME_MAX_LENGTH);
      base == "" || ValidateIdentifier(Candidate(base, counter), POSTGIS_TABLE_NAME_MAX_LENGTH).Ok?
  {
    SanitizedIsIdentifier(normalized, POSTGIS_TABLE_NAME_MAX_LENGTH);
    var base := SanitizeName(normalized, POSTGIS_TABLE_NAME_MAX_LENGTH);
    if base != "" {
      CandidatesAreValid(base, counter);
    }
  }
}
