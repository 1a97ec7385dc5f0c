/**
 The `PG:` connection string handed to GDAL (ingestion.py), read back with the keyword/value grammar
 of libpq (section 34.1.1.1 of the PostgreSQL 16 documentation).
 */
module ConnectionString {
  import opened Wrappers
  import opened Sequences
  import opened Text

  const DEFAULT_PORT: nat := 5432

  /** The components of a SQLAlchemy URL. */
  datatype Url = Url(
    host: Option<string>,
    port: Option<nat>,
    database: Option<string>,
    username: Option<string>,
    password: Option<string>)

  datatype Part = Part(key: string, value: string)

  // ---- Writing ----

  /** `quoted`: backslashes first, then quotes. */
  function Quoted(value: string): string {
    var backslashes := ReplaceChar(value, '\\', ['\\', '\\']);
    ['\''] + ReplaceChar(backslashes, '\'', ['\\', '\'']) + ['\'']
  }

  function OptionalPart(key: string, value: Option<string>): seq<Part> {
    if value.Some? then [Part(key, value.value)] else []
  }

  /** The parts that are present, in order. A missing port, or port 0, becomes the default one. */
  function Parts(url: Url): seq<Part> {
    var port := if url.port.Some? && url.port.value != 0 then url.port.value else DEFAULT_PORT;
    OptionalPart("host", url.host)
    + [Part("port", Decimal(port))]
    + OptionalPart("dbname", url.database)
    + OptionalPart("user", url.username)
    + OptionalPart("password", url.password)
  }

  function PartStrings(parts: seq<Part>): (r: seq<string>)
    ensures |r| == |parts|
    ensures forall i :: 0 <= i < |r| ==> r[i] == parts[i].key + "=" + Quoted(parts[i].value)
  {
    seq(|parts|, i requires 0 <= i < |parts| => parts[i].key + "=" + Quoted(parts[i].value))
  }

  /** `_build_pg_connection_string`. */
  function BuildPgConnectionString(url: Url): string {
    "PG:" + Join(" ", PartStrings(Parts(url)))
  }

  // ---- Reading: libpq ----

  datatype Parsed = Parsed(text: string, rest: string)

  /** `isspace()` in the C locale. */
  predicate IsBlank(c: char) { c == ' ' || '\t' <= c <= '\r' }

  function SkipBlanks(s: string): (r: string)
    ensures |r| <= |s|
  {
    if s != "" && IsBlank(s[0]) then SkipBlanks(s[1..]) else s
  }

  /** A keyword runs to the `=` sign or to a blank. */
  function ReadKey(s: string): (r: Parsed)
    ensures |r.rest| <= |s|
  {
    if s == "" || s[0] == '=' || IsBlank(s[0]) then Parsed("", s)
    else
      var more := ReadKey(s[1..]);
      Parsed([s[0]] + more.text, more.rest)
  }

  /** A quoted value, past its opening quote; None when the closing quote is missing. */
  function ReadQuoted(s: string): (r: Option<Parsed>)
    ensures r.Some? ==> |r.value.rest| < |s|
    decreases |s|
  {
    if s == "" then None
    else if s[0] == '\'' then Some(Parsed("", s[1..]))
    else if s[0] == '\\' && |s| == 1 then None
    else
      var escaped := s[0] == '\\';
      var more := ReadQuoted(if escaped then s[2..] else s[1..]);
      if more.None? then None
      else Some(Parsed([if escaped then s[1] else s[0]] + more.value.text, more.value.rest))
  }

  /** A value without quotes runs to a blank; a backslash escapes the next character. */
  function ReadPlain(s: string): (r: Parsed)
    ensures |r.rest| <= |s|
    decreases |s|
  {
    if s == "" || IsBlank(s[0]) then Parsed("", s)
    else if s[0] == '\\' then
      if |s| == 1 then Parsed("", "")
      else
        var more := ReadPlain(s[2..]);
        Parsed([s[1]] + more.text, more.rest)
    else
      var more := ReadPlain(s[1..]);
      Parsed([s[0]] + more.text, more.rest)
  }

  /** The keyword/value pairs of a connection string; None when it is malformed. */
  function Parse(s: string): Option<seq<Part>>
    decreases |s|
  {
    var s0 := SkipBlanks(s);
    if s0 == "" then Some([])
    else
      var key := ReadKey(s0);
      var s1 := SkipBlanks(key.rest);
      if s1 == "" || s1[0] != '=' then None
      else
        var s2 := SkipBlanks(s1[1..]);
        var value := if s2 != "" && s2[0] == '\'' then ReadQuoted(s2[1..]) else Some(ReadPlain(s2));
        if value.None? then None
        else
          var more := Parse(value.value.rest);
          if more.None? then None else Some([Part(key.text, value.value.text)] + more.value)
  }

  // ---- Round trip ----

  /** The two replacements, as one escape in front of each quote and backslash. */
  function Escaped(value: string): string {
    if value == "" then ""
    else EscapedChar(value[0]) + Escaped(value[1..])
  }

  function EscapedChar(c: char): string {
    if c == '\\' || c == '\'' then ['\\', c] else [c]
  }

  lemma {:induction false} QuotedIsEscaped(value: string)
    ensures ReplaceChar(ReplaceChar(value, '\\', ['\\', '\\']), '\'', ['\\', '\'']) == Escaped(value)
  {
    if value != "" {
      QuotedIsEscaped(value[1..]);
      var head := if value[0] == '\\' then ['\\', '\\'] else [value[0]];
      ReplaceCharConcat(head, ReplaceChar(value[1..], '\\', ['\\', '\\']), '\'', ['\\', '\'']);
      assert ReplaceChar([], '\'', ['\\', '\'']) == [];
      assert head[1..] == if value[0] == '\\' then ['\\'] else [];
      assert ['\\'][1..] == [];
    }
  }

  lemma EscapedCharReadsBack(c: char, tail: string)
    requires ReadQuoted(tail).Some?
    ensures ReadQuoted(EscapedChar(c) + tail)
         == Some(Parsed([c] + ReadQuoted(tail).value.text, ReadQuoted(tail).value.rest))
  {
    var text := EscapedChar(c) + tail;
    assert text[|EscapedChar(c)|..] == tail;
  }

  lemma {:induction false} EscapedReadsBack(value: string, rest: string)
    ensures ReadQuoted(Escaped(value) + (['\''] + rest)) == Some(Parsed(value, rest))
  {
    if value == "" {
      assert "" + (['\''] + rest) == ['\''] + rest;
      TailOf('\'', rest);
    } else {
      var tail := Escaped(value[1..]) + (['\''] + rest);
      EscapedReadsBack(value[1..], rest);
      EscapedCharReadsBack(value[0], tail);
      Associates(EscapedChar(value[0]), Escaped(value[1..]), ['\''] + rest);
      HeadAndTail(value);
    }
  }

  lemma AfterTheQuote(text: string, rest: string)
    ensures (['\''] + text + ['\''] + rest)[1..] == text + (['\''] + rest)
  {
  }

  /** A quoted value reads back, with its spaces, quotes and backslashes. */
  lemma QuotedReadsBack(value: string, rest: string)
    ensures Quoted(value) != "" && Quoted(value)[0] == '\''
    ensures ReadQuoted((Quoted(value) + rest)[1..]) == Some(Parsed(value, rest))
  {
    QuotedIsEscaped(value);
    EscapedReadsBack(value, rest);
    AfterTheQuote(Escaped(value), rest);
  }

  /** A keyword: letters only. */
  predicate IsKey(key: string) {
    key != "" && forall i :: 0 <= i < |key| ==> IsLowerLetter(key[i])
  }

  lemma {:induction false} KeyReadsBack(key: string, rest: string)
    requires forall i :: 0 <= i < |key| ==> IsLowerLetter(key[i])
    ensures ReadKey(key + (['='] + rest)) == Parsed(key, ['='] + rest)
  {
    if key == "" {
      assert key + (['='] + rest) == ['='] + rest;
    } else {
      KeyReadsBack(key[1..], rest);
      assert (key + (['='] + rest))[1..] == key[1..] + (['='] + rest);
      assert [key[0]] + key[1..] == key;
    }
  }

  /** One pair, once its keyword and its value have been read. */
  lemma PairStep(s: string, key: string, after: string, value: string, rest: string)
    requires SkipBlanks(s) == s != "" && ReadKey(s) == Parsed(key, ['='] + after)
    requires after != "" && after[0] == '\'' && ReadQuoted(after[1..]) == Some(Parsed(value, rest))
    ensures Parse(s) == if Parse(rest).None? then None else Some([Part(key, value)] + Parse(rest).value)
  {
    TailOf('=', after);
    assert SkipBlanks(['='] + after) == ['='] + after && SkipBlanks(after) == after;
  }

  /** One pair at the start of a string. */
  lemma PairReadsBack(part: Part, rest: string)
    requires IsKey(part.key)
    ensures var s := part.key + "=" + Quoted(part.value) + rest;
      Parse(s) == if Parse(rest).None? then None else Some([part] + Parse(rest).value)
  {
    var s := part.key + "=" + Quoted(part.value) + rest;
    var after := Quoted(part.value) + rest;
    assert s == part.key + (['='] + after);
    KeyReadsBack(part.key, after);
    QuotedReadsBack(part.value, rest);
    assert s[0] == part.key[0] && after[0] == Quoted(part.value)[0];
    PairStep(s, part.key, after, part.value, rest);
  }

  lemma BlankBefore(rest: string)
    ensures Parse(" " + rest) == Parse(rest)
  {
    assert (" " + rest)[1..] == rest;
  }

  lemma NothingReadsBack()
    ensures Parse("") == Some([])
  {
  }

  lemma {:induction false} JoinedReadsBack(parts: seq<Part>)
    requires forall i :: 0 <= i < |parts| ==> IsKey(parts[i].key)
    ensures Parse(Join(" ", PartStrings(parts))) == Some(parts)
  {
    hide Parse, Quoted;
    var strings := PartStrings(parts);
    if parts == [] {
      NothingReadsBack();
    } else {
      var tail := PartStrings(parts[1..]);
      assert strings[1..] == tail;
      JoinedReadsBack(parts[1..]);
      assert parts == [parts[0]] + parts[1..];
      if |parts| == 1 {
        assert strings[0] + "" == strings[0];
        PairReadsBack(parts[0], "");
      } else {
        assert Join(" ", strings) == strings[0] + (" " + Join(" ", tail));
        PairReadsBack(parts[0], " " + Join(" ", tail));
        BlankBefore(Join(" ", tail));
      }
    }
  }

  /** The value of a keyword: that of its first pair. */
  function ValueOf(parts: seq<Part>, key: string): Option<string> {
    if parts == [] then None
    else if parts[0].key == key then Some(parts[0].value)
    else ValueOf(parts[1..], key)
  }

  /**
   Parsing what follows `PG:` gives exactly the components that are present, unchanged, and under the
   keyword of each: a space, a quote or a backslash in a password neither truncates it nor adds a keyword.
   A port that is missing, or 0, is the default one.
   */
  lemma ConnectionStringReadsBack(url: Url)
    ensures BuildPgConnectionString(url)[..3] == "PG:"
    ensures Parse(BuildPgConnectionString(url)[3..]) == Some(Parts(url))
    ensures
      var read := Parse(BuildPgConnectionString(url)[3..]).value;
      && ValueOf(read, "host") == url.host && ValueOf(read, "dbname") == url.database
      && ValueOf(read, "user") == url.username && ValueOf(read, "password") == url.password
      && ValueOf(read, "port") == Some(Decimal(if url.port in {None, Some(0)} then 5432 else url.port.value))
      && |read| == 1 + Present(url.host) + Present(url.database) + Present(url.username) + Present(url.password)
  {
    KeysAreKeys();
    PartsHaveKeys(url);
    JoinedReadsBack(Parts(url));
    AfterPrefix(Join(" ", PartStrings(Parts(url))));
    PartsAre(url);
  }

  function Present(value: Option<string>): nat { if value.Some? then 1 else 0 }

  lemma ValueAhead(key: string, value: Option<string>, rest: seq<Part>, wanted: string)
    ensures ValueOf(OptionalPart(key, value) + rest, wanted)
      == if value.Some? && key == wanted then value else ValueOf(rest, wanted)
  {
    if value.Some? {
      TailOf(Part(key, value.value), rest);
    } else {
      assert [] + rest == rest;
    }
  }

  lemma PortPart(port: string, key: string)
    ensures OptionalPart("port", Some(port)) == [Part("port", port)] && ValueOf([], key) == None
  {
  }

  lemma PartOf(url: Url, port: string, key: string)
    requires key in {"host", "port", "dbname", "user", "password"}
    requires port == Decimal(if url.port in {None, Some(0)} then 5432 else url.port.value)
    ensures ValueOf(Parts(url), key)
      == if key == "host" then url.host else if key == "port" then Some(port) else if key == "dbname" then url.database
         else if key == "user" then url.username else url.password
  {
    hide ValueOf, OptionalPart, Decimal;
    var password := OptionalPart("password", url.password);
    var user := OptionalPart("user", url.username) + password;
    var database := OptionalPart("dbname", url.database) + user;
    var rest := OptionalPart("port", Some(port)) + database;
    PortPart(port, key);
    FiveInARow(OptionalPart("host", url.host), OptionalPart("port", Some(port)), OptionalPart("dbname", url.database),
      OptionalPart("user", url.username), password);
    assert Parts(url) == OptionalPart("host", url.host) + rest;
    assert password + [] == password;
    ValueAhead("password", url.password, [], key);
    ValueAhead("user", url.username, password, key);
    ValueAhead("dbname", url.database, user, key);
    ValueAhead("port", Some(port), database, key);
    ValueAhead("host", url.host, rest, key);
  }

  lemma PartsAre(url: Url)
    ensures
      var parts := Parts(url);
      && ValueOf(parts, "host") == url.host && ValueOf(parts, "dbname") == url.database
      && ValueOf(parts, "user") == url.username && ValueOf(parts, "password") == url.password
      && ValueOf(parts, "port") == Some(Decimal(if url.port in {None, Some(0)} then 5432 else url.port.value))
      && |parts| == 1 + Present(url.host) + Present(url.database) + Present(url.username) + Present(url.password)
  {
    var port := Decimal(if url.port in {None, Some(0)} then 5432 else url.port.value);
    PartOf(url, port, "host");
    PartOf(url, port, "port");
    PartOf(url, port, "dbname");
    PartOf(url, port, "user");
    PartOf(url, port, "password");
  }

  lemma AfterPrefix(s: string)
    ensures ("PG:" + s)[..3] == "PG:" && ("PG:" + s)[3..] == s
  {
  }

  lemma PartsHaveKeys(url: Url)
    requires IsKey("host") && IsKey("port") && IsKey("dbname") && IsKey("user") && IsKey("password")
    ensures forall i :: 0 <= i < |Parts(url)| ==> IsKey(Parts(url)[i].key)
  {
  }

  lemma KeysAreKeys()
    ensures IsKey("host") && IsKey("port") && IsKey("dbname") && IsKey("user") && IsKey("password")
  {
  }
}
