/** How each dialect of crates/graphnight-sql/src/dialects.rs shows a value, against the lexer that reads the
    string literals in it back. */
module Literals {
  import opened Results
  import opened Queries
  import opened Quoting
  import opened Text

  datatype Driver = Postgres | MySql | Sqlite | DuckDb

  function ListOpening(driver: Driver): string {
    match driver
    case Postgres => "ARRAY["
    case MySql => "JSON_ARRAY("
    case Sqlite => "JSON_GROUP_ARRAY("
    case DuckDb => "["
  }

  function ListSeparator(driver: Driver): string {
    if driver.Sqlite? then "," else ", "
  }

  function ListClosing(driver: Driver): string {
    if driver.Postgres? || driver.DuckDb? then "]" else ")"
  }

  function FormatBool(driver: Driver, b: bool): string {
    if driver.Sqlite? then (if b then "1" else "0") else (if b then "TRUE" else "FALSE")
  }

  function FormatText(driver: Driver, s: string): string {
    "'" + (if driver.MySql? then EscapeLiteral(s) else Doubled(s, '\'')) + "'"
  }

  function FormatValue(driver: Driver, value: Value): string
    decreases value, 0
  {
    match value
    case Null => "NULL"
    case Bool(b) => FormatBool(driver, b)
    case Number(digits) => digits
    case String(s) => FormatText(driver, s)
    case Array(items) =>
      ListOpening(driver) + Joined(FormatValues(driver, items), ListSeparator(driver)) + ListClosing(driver)
    case Object(json) => FormatText(driver, json)
  }

  function FormatValues(driver: Driver, items: seq<Value>): (r: seq<string>)
    ensures |r| == |items|
    decreases items, 1
  {
    if items == [] then [] else [FormatValue(driver, items[0])] + FormatValues(driver, items[1..])
  }

  // ---------- the lexer ----------

  lemma {:induction false} ReadBodyShrinks(text: string, quote: char)
    ensures ReadBody(text, quote).Some? ==> |ReadBody(text, quote).value.1| < |text|
    decreases |text|
  {
    if text != [] {
      ReadBodyShrinks(text[1..], quote);
      if |text| > 1 { ReadBodyShrinks(text[2..], quote); }
    }
  }

  /** Reads the body of a string literal, after its opening quote. */
  function ReadLiteral(driver: Driver, text: string): (r: Option<(string, string)>)
    ensures r.Some? ==> |r.value.1| < |text|
  {
    ReadBodyShrinks(text, '\'');
    ReadEscapedShrinks(text);
    if driver.MySql? then ReadEscapedBody(text) else ReadBody(text, '\'')
  }

  /** What the string literals in a stretch of SQL say, in order; nothing when one is left open. */
  function ReadTexts(driver: Driver, sql: string): Option<seq<string>>
    decreases |sql|
  {
    if sql == [] then Some([])
    else if sql[0] != '\'' then ReadTexts(driver, sql[1..])
    else
      match ReadLiteral(driver, sql[1..])
      case None => None
      case Some((s, rest)) => After([s], ReadTexts(driver, rest))
  }

  function After(texts: seq<string>, more: Option<seq<string>>): Option<seq<string>> {
    match more
    case None => None
    case Some(rest) => Some(texts + rest)
  }

  /** The texts a value is made of, in order. */
  function TextsOf(value: Value): seq<string>
    decreases value, 0
  {
    match value
    case String(s) => [s]
    case Object(json) => [json]
    case Array(items) => TextsOfAll(items)
    case _ => []
  }

  function TextsOfAll(items: seq<Value>): seq<string>
    decreases items, 1
  {
    if items == [] then [] else TextsOf(items[0]) + TextsOfAll(items[1..])
  }

  /** No number is written with a quote. */
  predicate PlainNumbers(value: Value) {
    match value
    case Number(digits) => '\'' !in digits
    case Array(items) => forall i :: 0 <= i < |items| ==> PlainNumbers(items[i])
    case _ => true
  }

  // ---------- what is shown reads back ----------

  lemma AfterOpeningQuote(body: string, rest: string)
    ensures ("'" + body + "'" + rest)[1..] == body + ['\''] + rest
  {
  }

  /** A text value shown as a literal is read back as that value, with nothing of what follows. */
  lemma FormattedTextReadsBack(driver: Driver, s: string, rest: string)
    requires !StartsWith(rest, '\'')
    ensures var text := FormatText(driver, s) + rest;
      text[0] == '\'' && ReadLiteral(driver, text[1..]) == Some((s, rest))
  {
    if driver.MySql? {
      EscapedLiteralReadsBack(s, rest);
    } else {
      ReadDoubled(s, '\'', rest);
    }
    AfterOpeningQuote(if driver.MySql? then EscapeLiteral(s) else Doubled(s, '\''), rest);
  }

  lemma {:induction false} UnquotedReads(driver: Driver, s: string, rest: string)
    requires '\'' !in s
    ensures ReadTexts(driver, s + rest) == ReadTexts(driver, rest)
    decreases |s|
  {
    if s == [] {
      assert s + rest == rest;
    } else {
      assert (s + rest)[1..] == s[1..] + rest;
      assert s[0] in s;
      UnquotedReads(driver, s[1..], rest);
    }
  }

  lemma AfterAfter(a: seq<string>, b: seq<string>, more: Option<seq<string>>)
    ensures After(a, After(b, more)) == After(a + b, more)
    ensures After([], more) == more
  {
    if more.Some? {
      assert a + (b + more.value) == (a + b) + more.value;
      assert [] + more.value == more.value;
    }
  }

  lemma ConstantsAreUnquoted(driver: Driver, b: bool)
    ensures '\'' !in FormatBool(driver, b) && '\'' !in "NULL"
    ensures '\'' !in ListOpening(driver) && '\'' !in ListSeparator(driver) && '\'' !in ListClosing(driver)
  {
  }

  lemma TextReads(driver: Driver, s: string, rest: string)
    requires !StartsWith(rest, '\'')
    ensures ReadTexts(driver, FormatText(driver, s) + rest) == After([s], ReadTexts(driver, rest))
  {
    FormattedTextReadsBack(driver, s, rest);
  }

  /** A value shown in any dialect leaves no literal open, and its literals say exactly the texts the value is
      made of, in order: no quote in any text ends a literal early or swallows what follows. */
  lemma {:induction false} FormattedValueReadsBack(driver: Driver, value: Value, rest: string)
    requires PlainNumbers(value) && !StartsWith(rest, '\'')
    ensures ReadTexts(driver, FormatValue(driver, value) + rest) == After(TextsOf(value), ReadTexts(driver, rest))
    decreases value, 0
  {
    AfterAfter([], [], ReadTexts(driver, rest));
    match value {
      case Null => ConstantsAreUnquoted(driver, true); UnquotedReads(driver, "NULL", rest);
      case Bool(b) => ConstantsAreUnquoted(driver, b); UnquotedReads(driver, FormatBool(driver, b), rest);
      case Number(digits) => UnquotedReads(driver, digits, rest);
      case String(s) => TextReads(driver, s, rest);
      case Object(json) => TextReads(driver, json, rest);
      case Array(items) => FormattedListReadsBack(driver, items, rest);
    }
  }

  lemma {:induction false} FormattedListReadsBack(driver: Driver, items: seq<Value>, rest: string)
    requires (forall i :: 0 <= i < |items| ==> PlainNumbers(items[i])) && !StartsWith(rest, '\'')
    ensures var inner := Joined(FormatValues(driver, items), ListSeparator(driver));
      var list := ListOpening(driver) + inner + ListClosing(driver);
      ReadTexts(driver, list + rest) == After(TextsOfAll(items), ReadTexts(driver, rest))
    decreases items, 2
  {
    var opening, inner, closing :=
      ListOpening(driver), Joined(FormatValues(driver, items), ListSeparator(driver)), ListClosing(driver);
    ConstantsAreUnquoted(driver, true);
    FormattedItemsReadBack(driver, items, closing + rest);
    UnquotedReads(driver, opening, inner + (closing + rest));
    UnquotedReads(driver, closing, rest);
    assert opening + inner + closing + rest == opening + (inner + (closing + rest));
  }

  lemma {:induction false} FormattedItemsReadBack(driver: Driver, items: seq<Value>, rest: string)
    requires (forall i :: 0 <= i < |items| ==> PlainNumbers(items[i])) && !StartsWith(rest, '\'')
    ensures ReadTexts(driver, Joined(FormatValues(driver, items), ListSeparator(driver)) + rest) ==
      After(TextsOfAll(items), ReadTexts(driver, rest))
    decreases items, 1
  {
    AfterAfter([], [], ReadTexts(driver, rest));
    if items == [] {
      assert [] + rest == rest;
    } else if |items| == 1 {
      FormattedValueReadsBack(driver, items[0], rest);
      assert TextsOfAll(items[1..]) == [] && TextsOfAll(items) == TextsOf(items[0]);
    } else {
      var separator, more := ListSeparator(driver), Joined(FormatValues(driver, items[1..]), ListSeparator(driver));
      ConstantsAreUnquoted(driver, true);
      FormattedItemsReadBack(driver, items[1..], rest);
      UnquotedReads(driver, separator, more + rest);
      FormattedValueReadsBack(driver, items[0], separator + (more + rest));
      AfterAfter(TextsOf(items[0]), TextsOfAll(items[1..]), ReadTexts(driver, rest));
      JoinedItems(driver, items, rest);
    }
  }

  lemma JoinedItems(driver: Driver, items: seq<Value>, rest: string)
    requires |items| > 1
    ensures var separator := ListSeparator(driver);
      Joined(FormatValues(driver, items), separator) + rest ==
      FormatValue(driver, items[0]) + (separator + (Joined(FormatValues(driver, items[1..]), separator) + rest))
  {
    assert FormatValues(driver, items)[1..] == FormatValues(driver, items[1..]);
    JoinedMore(FormatValues(driver, items), ListSeparator(driver), rest);
  }
}
