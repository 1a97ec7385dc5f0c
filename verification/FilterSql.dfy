/**
 Column filters as ILIKE patterns (filter_sql.py): the three shapes of pattern, and the escaping
 that makes a user's value literal inside them.
 */
module FilterSql {
  import opened Wrappers
  import opened Sequences
  import opened Text
  import opened Like

  datatype FilterOperator = Exactly | Contains | StartsWithValue

  datatype ColumnFilter = ColumnFilter(operator: FilterOperator, value: string)

  /** Three replacements in a row, the escape character first. */
  function EscapeLike(value: string): string {
    var escapes := ReplaceChar(value, ESCAPE, [ESCAPE, ESCAPE]);
    var percents := ReplaceChar(escapes, '%', [ESCAPE, '%']);
    ReplaceChar(percents, '_', [ESCAPE, '_'])
  }

  function FilterPattern(filter: ColumnFilter): string {
    var escaped := EscapeLike(filter.value);
    match filter.operator
    case Exactly => escaped
    case Contains => "%" + escaped + "%"
    case StartsWithValue => escaped + "%"
  }

  /** One escape in front of every special character, in a single pass. */
  function EscapeOnce(value: string): string {
    if value == [] then []
    else (if IsSpecial(value[0]) then [ESCAPE, value[0]] else [value[0]]) + EscapeOnce(value[1..])
  }

  /** The order of the three replacements never double-escapes: they equal one pass. */
  lemma {:induction false} SequentialEscapeIsOnePass(value: string)
    ensures EscapeLike(value) == EscapeOnce(value)
  {
    if value != [] {
      var head, tail := value[..1], value[1..];
      assert value == head + tail;
      EscapeLikeConcat(head, tail);
      EscapeLikeChar(value[0]);
      SequentialEscapeIsOnePass(tail);
      assert head == [value[0]];
    }
  }

  lemma EscapeLikeConcat(a: string, b: string)
    ensures EscapeLike(a + b) == EscapeLike(a) + EscapeLike(b)
  {
    var ea, eb := ReplaceChar(a, ESCAPE, [ESCAPE, ESCAPE]), ReplaceChar(b, ESCAPE, [ESCAPE, ESCAPE]);
    ReplaceCharConcat(a, b, ESCAPE, [ESCAPE, ESCAPE]);
    ReplaceCharConcat(ea, eb, '%', [ESCAPE, '%']);
    ReplaceCharConcat(ReplaceChar(ea, '%', [ESCAPE, '%']), ReplaceChar(eb, '%', [ESCAPE, '%']), '_', [ESCAPE, '_']);
  }

  lemma EscapeLikeChar(c: char)
    ensures EscapeLike([c]) == if IsSpecial(c) then [ESCAPE, c] else [c]
  {
    ReplaceOne(c, ESCAPE, [ESCAPE, ESCAPE]);
    if c == ESCAPE {
      ReplaceTwo(ESCAPE, ESCAPE, '%', [ESCAPE, '%']);
      ReplaceTwo(ESCAPE, ESCAPE, '_', [ESCAPE, '_']);
    } else {
      ReplaceOne(c, '%', [ESCAPE, '%']);
      if c == '%' {
        ReplaceTwo(ESCAPE, '%', '_', [ESCAPE, '_']);
      } else {
        ReplaceOne(c, '_', [ESCAPE, '_']);
      }
    }
  }

  lemma ReplaceTwo(x: char, y: char, c: char, sub: string)
    requires x != c && y != c
    ensures ReplaceChar([x, y], c, sub) == [x, y]
  {
    assert [x, y][1..] == [y];
    ReplaceOne(y, c, sub);
  }

  /** Folding a pattern is the same as folding the value it was made from. */
  lemma {:induction false} FoldEscape(fold: char -> char, value: string)
    requires ValidFold(fold)
    ensures MapChars(fold, EscapeOnce(value)) == EscapeOnce(MapChars(fold, value))
  {
    if value == [] {
    } else {
      var c := value[0];
      FoldEscape(fold, value[1..]);
      assert MapChars(fold, value)[1..] == MapChars(fold, value[1..]);
      var head := if IsSpecial(c) then [ESCAPE, c] else [c];
      assert IsSpecial(c) <==> IsSpecial(fold(c));
      assert IsSpecial(ESCAPE);
      assert MapChars(fold, head) == if IsSpecial(fold(c)) then [ESCAPE, fold(c)] else [fold(c)];
      assert MapChars(fold, head + EscapeOnce(value[1..]))
          == MapChars(fold, head) + MapChars(fold, EscapeOnce(value[1..]));
    }
  }

  lemma ParseLiteral(c: char, tail: string)
    ensures Parse((if IsSpecial(c) then [ESCAPE, c] else [c]) + tail) == Prepend(Literal(c), Parse(tail))
  {
    if IsSpecial(c) {
      assert ([ESCAPE, c] + tail)[2..] == tail;
    } else {
      TailOf(c, tail);
    }
  }

  /** An escaped value reads back as literals only. */
  lemma {:induction false} ParseEscaped(value: string, rest: string)
    ensures Parse(EscapeOnce(value) + rest)
         == (if Parse(rest).None? then None else Some(Literals(value) + Parse(rest).value))
  {
    if value == [] {
      assert EscapeOnce(value) + rest == rest;
      assert Parse(rest).Some? ==> Literals(value) + Parse(rest).value == Parse(rest).value;
    } else {
      ParseEscaped(value[1..], rest);
      ParseLiteral(value[0], EscapeOnce(value[1..]) + rest);
      Associates(if IsSpecial(value[0]) then [ESCAPE, value[0]] else [value[0]], EscapeOnce(value[1..]), rest);
      if Parse(rest).Some? {
        Associates([Literal(value[0])], Literals(value[1..]), Parse(rest).value);
      }
    }
  }

  /** What a filter promises its user, with no pattern in sight. */
  predicate FilterHolds(fold: char -> char, filter: ColumnFilter, text: string) {
    var t, v := MapChars(fold, text), MapChars(fold, filter.value);
    match filter.operator
    case Exactly => t == v
    case Contains => exists i | 0 <= i <= |t| :: v <= t[i..]
    case StartsWithValue => v <= t
  }

  /**
   Escaping is exact: for every text and every value, special characters included, the pattern
   matches under ILIKE exactly when the filter's own meaning holds.
   */
  lemma EscapingIsExact(fold: char -> char, filter: ColumnFilter, text: string)
    requires ValidFold(fold)
    ensures IsILike(fold, text, FilterPattern(filter)) <==> FilterHolds(fold, filter, text)
  {
    var t, v := MapChars(fold, text), MapChars(fold, filter.value);
    var pattern := FilterPattern(filter);
    SequentialEscapeIsOnePass(filter.value);
    FoldEscape(fold, filter.value);
    assert IsSpecial('%');
    match filter.operator {
      case Exactly =>
        ParseEscaped(v, "");
        assert EscapeOnce(v) + "" == EscapeOnce(v);
        assert Literals(v) + [] == Literals(v);
        MatchLiterals(t, v, []);
      case StartsWithValue =>
        assert MapChars(fold, pattern) == EscapeOnce(v) + "%";
        ParsePercent(v);
        MatchPrefix(t, v);
      case Contains =>
        assert MapChars(fold, pattern) == "%" + (EscapeOnce(v) + "%");
        ParsePercent(v);
        var tokens := [AnyString] + (Literals(v) + [AnyString]);
        assert ("%" + (EscapeOnce(v) + "%"))[1..] == EscapeOnce(v) + "%";
        assert Parse(MapChars(fold, pattern)) == Some(tokens);
        assert tokens[1..] == Literals(v) + [AnyString];
        forall k | 0 <= k <= |t| ensures Matches(t[k..], tokens[1..]) <==> v <= t[k..] {
          MatchPrefix(t[k..], v);
        }
    }
  }

  lemma ParsePercent(v: string)
    ensures Parse(EscapeOnce(v) + "%") == Some(Literals(v) + [AnyString])
  {
    ParseEscaped(v, "%");
    assert "%"[1..] == "";
    assert [AnyString] + [] == [AnyString];
    assert Parse("%") == Some([AnyString]);
  }

  lemma MatchPrefix(t: string, v: string)
    ensures Matches(t, Literals(v) + [AnyString]) <==> v <= t
  {
    MatchLiterals(t, v, [AnyString]);
    if v <= t { MatchAnyTail(t[|v|..]); }
  }
}
