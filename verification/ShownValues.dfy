/** Reading a shown value back: `format_value` of crates/graphnight-sql/src/dialects.rs against a reader of the
    literals, words and lists of each dialect. */
module ShownValues {
  import opened Results
  import opened Queries
  import opened Quoting
  import opened Literals
  import opened Statements
  import opened Text

  /** What a stretch of SQL says a value is. */
  datatype Shown =
    | ShownNull
    | ShownBool(b: bool)
    | ShownNumber(digits: string)
    | ShownText(s: string)
    | ShownList(items: seq<Shown>)

  /** SQLite has no truth values and no dialect has objects: they are shown as numbers and as texts. */
  function AsShown(driver: Driver, value: Value): Shown
    decreases value, 0
  {
    match value
    case Null => ShownNull
    case Bool(b) => if !driver.Sqlite? then ShownBool(b) else if b then ShownNumber("1") else ShownNumber("0")
    case Number(digits) => ShownNumber(digits)
    case String(s) => ShownText(s)
    case Array(items) => ShownList(AllShown(driver, items))
    case Object(json) => ShownText(json)
  }

  function AllShown(driver: Driver, items: seq<Value>): (r: seq<Shown>)
    ensures |r| == |items|
    decreases items, 1
  {
    if items == [] then [] else [AsShown(driver, items[0])] + AllShown(driver, items[1..])
  }

  // ---------- the reader ----------

  predicate IsNumberChar(c: char) { '0' <= c <= '9' || c == '+' || c == '-' || c == '.' || c == 'e' || c == 'E' }

  predicate IsWordChar(c: char) { IsNumberChar(c) || 'A' <= c <= 'Z' }

  function WordEnd(text: string): (n: nat)
    ensures n <= |text|
  {
    if text == [] || !IsWordChar(text[0]) then 0 else WordEnd(text[1..]) + 1
  }

  function WordShown(word: string): Shown {
    if word == "NULL" then ShownNull
    else if word == "TRUE" then ShownBool(true)
    else if word == "FALSE" then ShownBool(false)
    else ShownNumber(word)
  }

  function ReadWord(text: string): (r: Option<(Shown, string)>)
    ensures r.Some? ==> |r.value.1| < |text|
  {
    var n := WordEnd(text);
    if n == 0 then None else Some((WordShown(text[..n]), text[n..]))
  }

  function Opens(driver: Driver): string {
    match driver
    case Postgres => "ARRAY["
    case MySql => "JSON_ARRAY("
    case Sqlite => "JSON_GROUP_ARRAY("
    case DuckDb => "["
  }

  function Closes(driver: Driver): char {
    if driver.Postgres? || driver.DuckDb? then ']' else ')'
  }

  /** Reads one value and says what follows it. */
  function ReadShown(driver: Driver, text: string): (r: Option<(Shown, string)>)
    ensures r.Some? ==> |r.value.1| < |text|
    decreases |text|, 0
  {
    if StartsWith(text, '\'') then
      match ReadLiteral(driver, text[1..])
      case None => None
      case Some((s, rest)) => Some((ShownText(s), rest))
    else if Opens(driver) <= text then
      match ReadItems(driver, text[|Opens(driver)|..])
      case None => None
      case Some((items, rest)) => Some((ShownList(items), rest))
    else ReadWord(text)
  }

  /** Reads the rest of a list, after its opening. */
  function ReadItems(driver: Driver, text: string): (r: Option<(seq<Shown>, string)>)
    ensures r.Some? ==> |r.value.1| < |text|
    decreases |text|, 2
  {
    if StartsWith(text, Closes(driver)) then Some(([], text[1..])) else ReadMore(driver, text)
  }

  /** Items with commas between them, and blanks after the commas or none. */
  function ReadMore(driver: Driver, text: string): (r: Option<(seq<Shown>, string)>)
    ensures r.Some? ==> |r.value.1| < |text|
    decreases |text|, 1
  {
    match ReadShown(driver, text)
    case None => None
    case Some((item, rest)) =>
      if StartsWith(rest, Closes(driver)) then Some(([item], rest[1..]))
      else if !StartsWith(rest, ',') then None
      else
        match ReadMore(driver, if " " <= rest[1..] then rest[2..] else rest[1..])
        case None => None
        case Some((items, rest')) => Some(([item] + items, rest'))
  }

  // ---------- what is shown reads back ----------

  /** Numbers are written as JSON writes them. */
  predicate JsonNumbers(value: Value) {
    match value
    case Number(digits) => digits != [] && forall i :: 0 <= i < |digits| ==> IsNumberChar(digits[i])
    case Array(items) => forall i :: 0 <= i < |items| ==> JsonNumbers(items[i])
    case _ => true
  }

  /** What may follow a value. */
  predicate EndsValue(rest: string) {
    rest == [] || rest[0] == ',' || rest[0] == ']' || rest[0] == ')' || rest[0] == ' '
  }

  lemma {:induction false} WordEndsAt(word: string, rest: string)
    requires EndsValue(rest) && forall i :: 0 <= i < |word| ==> IsWordChar(word[i])
    ensures WordEnd(word + rest) == |word|
  {
    if word == [] {
      assert word + rest == rest;
    } else {
      assert (word + rest)[1..] == word[1..] + rest;
      WordEndsAt(word[1..], rest);
    }
  }

  lemma WordReads(driver: Driver, word: string, rest: string)
    requires EndsValue(rest) && word != [] && forall i :: 0 <= i < |word| ==> IsWordChar(word[i])
    requires word[0] != 'A' && word[0] != 'J'
    ensures ReadShown(driver, word + rest) == Some((WordShown(word), rest))
  {
    WordEndsAt(word, rest);
    var text := word + rest;
    assert text[0] == word[0] && text[..|word|] == word && text[|word|..] == rest;
    assert Opens(driver)[0] == 'A' || Opens(driver)[0] == 'J' || Opens(driver)[0] == '[';
  }

  lemma BoolReads(driver: Driver, b: bool, rest: string)
    requires EndsValue(rest)
    ensures ReadShown(driver, FormatBool(driver, b) + rest) == Some((AsShown(driver, Bool(b)), rest))
  {
    WordReads(driver, FormatBool(driver, b), rest);
  }

  lemma NumberReads(driver: Driver, digits: string, rest: string)
    requires EndsValue(rest) && digits != [] && forall i :: 0 <= i < |digits| ==> IsNumberChar(digits[i])
    ensures ReadShown(driver, digits + rest) == Some((ShownNumber(digits), rest))
  {
    WordReads(driver, digits, rest);
    assert IsNumberChar(digits[0]);
  }

  lemma TextReadsAsShown(driver: Driver, s: string, rest: string)
    requires EndsValue(rest)
    ensures ReadShown(driver, FormatText(driver, s) + rest) == Some((ShownText(s), rest))
  {
    FormattedTextReadsBack(driver, s, rest);
  }

  /** A value shown in any dialect reads back as that value, nested lists included, with nothing of what
      follows. */
  lemma {:induction false} ShownValueReadsBack(driver: Driver, value: Value, rest: string)
    requires JsonNumbers(value) && EndsValue(rest)
    ensures ReadShown(driver, FormatValue(driver, value) + rest) == Some((AsShown(driver, value), rest))
    decreases value, 0
  {
    match value {
      case Null => WordReads(driver, "NULL", rest);
      case Bool(b) => BoolReads(driver, b, rest);
      case Number(digits) => NumberReads(driver, digits, rest);
      case String(s) => TextReadsAsShown(driver, s, rest);
      case Object(json) => TextReadsAsShown(driver, json, rest);
      case Array(items) => ShownListReadsBack(driver, items, rest);
    }
  }

  lemma {:induction false} ShownListReadsBack(driver: Driver, items: seq<Value>, rest: string)
    requires forall i :: 0 <= i < |items| ==> JsonNumbers(items[i])
    ensures var inner := Joined(FormatValues(driver, items), ListSeparator(driver));
      ReadShown(driver, ListOpening(driver) + inner + ListClosing(driver) + rest) ==
        Some((ShownList(AllShown(driver, items)), rest))
    decreases items, 2
  {
    var inner := Joined(FormatValues(driver, items), ListSeparator(driver));
    var body := inner + ([Closes(driver)] + rest);
    var text := ListOpening(driver) + inner + ListClosing(driver) + rest;
    OpeningReads(driver, body);
    assert ListClosing(driver) == [Closes(driver)];
    assert text == Opens(driver) + body;
    if items == [] {
      assert body == [Closes(driver)] + rest;
      assert body[1..] == rest;
    } else {
      ShownItemsReadBack(driver, items, rest);
      ItemsStart(driver, items, [Closes(driver)] + rest);
    }
  }

  lemma OpeningReads(driver: Driver, body: string)
    ensures ListOpening(driver) == Opens(driver)
    ensures var text := Opens(driver) + body;
      !StartsWith(text, '\'') && Opens(driver) <= text && text[|Opens(driver)|..] == body
  {
  }

  lemma FormatStarts(driver: Driver, value: Value)
    requires JsonNumbers(value)
    ensures var text := FormatValue(driver, value); text != [] && text[0] != Closes(driver) && text[0] != ' '
  {
    match value
    case Number(digits) => assert IsNumberChar(digits[0]);
    case _ =>
  }

  lemma ItemsStart(driver: Driver, items: seq<Value>, rest: string)
    requires items != [] && JsonNumbers(items[0])
    ensures var text := Joined(FormatValues(driver, items), ListSeparator(driver)) + rest;
      text != [] && text[0] != Closes(driver) && text[0] != ' '
  {
    FormatStarts(driver, items[0]);
  }

  lemma {:induction false} ShownItemsReadBack(driver: Driver, items: seq<Value>, rest: string)
    requires items != [] && forall i :: 0 <= i < |items| ==> JsonNumbers(items[i])
    ensures ReadMore(driver, Joined(FormatValues(driver, items), ListSeparator(driver)) + ([Closes(driver)] + rest)) ==
      Some((AllShown(driver, items), rest))
    decreases items, 1
  {
    var closing := [Closes(driver)] + rest;
    assert closing[1..] == rest;
    if |items| == 1 {
      ShownValueReadsBack(driver, items[0], closing);
      assert AllShown(driver, items) == [AsShown(driver, items[0])];
    } else {
      var more := Joined(FormatValues(driver, items[1..]), ListSeparator(driver)) + closing;
      JoinedItems(driver, items, closing);
      ShownValueReadsBack(driver, items[0], ListSeparator(driver) + more);
      ShownItemsReadBack(driver, items[1..], rest);
      SeparatorReads(driver, items[1..], more, closing);
    }
  }

  lemma SeparatorReads(driver: Driver, items: seq<Value>, more: string, closing: string)
    requires items != [] && JsonNumbers(items[0])
    requires more == Joined(FormatValues(driver, items), ListSeparator(driver)) + closing
    ensures var text := ListSeparator(driver) + more;
      EndsValue(text) && StartsWith(text, ',') && (if " " <= text[1..] then text[2..] else text[1..]) == more
  {
    ItemsStart(driver, items, closing);
    var text := ListSeparator(driver) + more;
    if driver.Sqlite? {
      assert text[1..] == more;
    } else {
      assert text[2..] == more && text[1..] == " " + more;
    }
  }

  /** Literal `i` of the shown statement reads in its dialect as parameter `i`. */
  lemma DisplayReadsBack(driver: Driver, g: GeneratedSql, i: nat)
    requires Sound(DialectOf(driver), g) && i < |g.params| && JsonNumbers(g.params[i])
    ensures |ShownLiterals(g.display)| == |g.params|
    ensures ReadShown(driver, ShownLiterals(g.display)[i]) == Some((AsShown(driver, g.params[i]), []))
  {
    FillShows(DialectOf(driver), g.sql, g.params);
    var shown := FormatValue(driver, g.params[i]);
    assert ShownLiterals(g.display)[i] == shown;
    ShownValueReadsBack(driver, g.params[i], []);
    assert shown + [] == shown;
  }
}
