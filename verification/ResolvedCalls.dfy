/** `resolve_expression` of crates/graphnight-sql/src/generator.rs: the SQL of a measure expression, against
    the lexer that reads a call back. */
module ResolvedCalls {
  import opened Results
  import opened FunctionCalls
  import opened Quoting
  import opened Text

  /** Where a field lives: the alias of its table and the name of its column. */
  type Resolver = string -> (string, string)

  // `*` stands for every column and is left alone.
  function QualifyField(resolve: Resolver, quote: char, field: string): string {
    if field == "*" then "*" else resolve(field).0 + "." + QuoteIdent(resolve(field).1, quote)
  }

  function RenderArg(resolve: Resolver, quote: char, arg: FunctionArg): string {
    match arg
    case ColumnArg(column) => QualifyField(resolve, quote, column)
    case NumberArg(text) => text
  }

  function RenderArgs(resolve: Resolver, quote: char, args: seq<FunctionArg>): (r: seq<string>)
    ensures |r| == |args|
  {
    seq(|args|, i requires 0 <= i < |args| => RenderArg(resolve, quote, args[i]))
  }

  // ---------- the lexer ----------

  datatype SqlArg = SqlColumn(alias: string, column: string) | SqlNumber(text: string)

  datatype SqlCall = SqlCall(name: string, args: seq<SqlArg>)

  /** The end of an unquoted word: the first comma or closing parenthesis, or the length. */
  function WordEnd(text: string): (r: nat)
    ensures r <= |text|
    ensures forall j :: 0 <= j < r ==> text[j] != ',' && text[j] != ')'
    ensures r < |text| ==> text[r] == ',' || text[r] == ')'
  {
    if text == [] || text[0] == ',' || text[0] == ')' then 0 else WordEnd(text[1..]) + 1
  }

  /** Reads one argument: a number, or an alias, a dot and a delimited identifier (section 5.2 of
      ISO/IEC 9075:1992). */
  function ReadArg(text: string, quote: char): Option<(SqlArg, string)> {
    if text == [] then None
    else if IsDigit(text[0]) || IsSign(text[0]) then
      Some((SqlNumber(text[..WordEnd(text)]), text[WordEnd(text)..]))
    else
      var dot := Find(text, '.');
      if dot == |text| then None
      else
        match ReadQuoted(text[dot + 1..], quote)
        case None => None
        case Some((column, rest)) => Some((SqlColumn(text[..dot], column), rest))
  }

  type ArgReader = string -> Option<(SqlArg, string)>

  function Reader(quote: char): ArgReader {
    text => ReadArg(text, quote)
  }

  /** Reads arguments up to the closing parenthesis, at most `fuel` of them. */
  function ReadArgs(read: ArgReader, text: string, fuel: nat): Option<(seq<SqlArg>, string)>
    decreases fuel
  {
    if fuel == 0 then None
    else
      match read(text)
      case None => None
      case Some((arg, rest)) =>
        if StartsWith(rest, ')') then Some(([arg], rest[1..]))
        else if |rest| > 1 && rest[..2] == ", " then
          match ReadArgs(read, rest[2..], fuel - 1)
          case None => None
          case Some((args, rest')) => Some(([arg] + args, rest'))
        else None
  }

  /** Reads the rest of a call, after its opening parenthesis. */
  function ReadInner(read: ArgReader, name: string, inner: string, fuel: nat): Option<(SqlCall, string)> {
    if StartsWith(inner, ')') then Some((SqlCall(name, []), inner[1..]))
    else
      match ReadArgs(read, inner, fuel)
      case None => None
      case Some((args, rest)) => Some((SqlCall(name, args), rest))
  }

  /** Reads a call, and says what follows it.  No call has more arguments than characters. */
  function ReadCall(read: ArgReader, text: string): Option<(SqlCall, string)> {
    var open := Find(text, '(');
    if open == |text| then None else ReadInner(read, text[..open], text[open + 1..], |text|)
  }

  // ---------- what is emitted reads back ----------

  /** What an argument refers to. */
  function Referent(resolve: Resolver, arg: FunctionArg): SqlArg {
    match arg
    case ColumnArg(column) => SqlColumn(resolve(column).0, resolve(column).1)
    case NumberArg(text) => SqlNumber(text)
  }

  function Referents(resolve: Resolver, args: seq<FunctionArg>): (r: seq<SqlArg>)
    ensures |r| == |args|
  {
    seq(|args|, i requires 0 <= i < |args| => Referent(resolve, args[i]))
  }

  /** Tables go by plain identifiers.  Nothing is asked of the names of columns. */
  ghost predicate PlainAliases(resolve: Resolver) {
    forall field :: IsPlainIdentifier(resolve(field).0)
  }

  predicate IsQuote(quote: char) { quote == '"' || quote == '`' }

  lemma WordEndOf(word: string, rest: string)
    requires PlainChars(word) && (StartsWith(rest, ',') || StartsWith(rest, ')'))
    ensures WordEnd(word + rest) == |word|
  {
    var text := word + rest;
    assert text[|word|] == rest[0];
    assert forall j :: 0 <= j < |word| ==> text[j] == word[j];
  }

  lemma NumberReadsBack(text: string, quote: char, rest: string)
    requires IsNumericLiteral(text) && (StartsWith(rest, ',') || StartsWith(rest, ')'))
    ensures ReadArg(text + rest, quote) == Some((SqlNumber(text), rest))
  {
    NumberIsPlainText(text);
    NumberStart(text);
    WordEndOf(text, rest);
    assert (text + rest)[0] == text[0];
    assert (text + rest)[..|text|] == text && (text + rest)[|text|..] == rest;
  }

  lemma ColumnReadsBack(alias: string, column: string, quote: char, rest: string)
    requires IsPlainIdentifier(alias) && !StartsWith(rest, quote)
    ensures ReadArg(alias + "." + QuoteIdent(column, quote) + rest, quote) == Some((SqlColumn(alias, column), rest))
  {
    var quoted := QuoteIdent(column, quote) + rest;
    var text := alias + ['.'] + quoted;
    assert alias + "." + QuoteIdent(column, quote) + rest == text;
    IdentifierIsPlainText(alias);
    FindConcat(alias, '.', quoted);
    assert text[0] == alias[0];
    assert text[..|alias|] == alias && text[|alias| + 1..] == quoted;
    QuotedIdentReadsBack(column, quote, rest);
  }

  lemma ArgReadsBack(resolve: Resolver, quote: char, arg: FunctionArg, rest: string)
    requires PlainAliases(resolve) && IsQuote(quote) && ValidArg(arg)
    requires StartsWith(rest, ',') || StartsWith(rest, ')')
    ensures ReadArg(RenderArg(resolve, quote, arg) + rest, quote) == Some((Referent(resolve, arg), rest))
  {
    match arg {
      case NumberArg(text) => NumberReadsBack(text, quote, rest);
      case ColumnArg(column) =>
        ColumnStart(column);
        ColumnReadsBack(resolve(column).0, resolve(column).1, quote, rest);
    }
  }

  /** What follows an argument in a call. */
  predicate EndsArg(rest: string) { StartsWith(rest, ',') || StartsWith(rest, ')') }

  ghost predicate ReadsText(read: ArgReader, text: string, arg: SqlArg, rest: string) {
    EndsArg(rest) ==> read(text + rest) == Some((arg, rest))
  }

  lemma ReadLast(read: ArgReader, text: string, fuel: nat, arg: SqlArg, rest: string)
    requires fuel > 0 && read(text) == Some((arg, ")" + rest))
    ensures ReadArgs(read, text, fuel) == Some(([arg], rest))
  {
    assert (")" + rest)[1..] == rest;
  }

  lemma ReadMore(read: ArgReader, text: string, fuel: nat, arg: SqlArg, more: string, args: seq<SqlArg>, rest: string)
    requires fuel > 0 && read(text) == Some((arg, ", " + more))
    requires ReadArgs(read, more, fuel - 1) == Some((args, rest))
    ensures ReadArgs(read, text, fuel) == Some(([arg] + args, rest))
  {
    assert (", " + more)[..2] == ", " && (", " + more)[2..] == more;
  }

  /** Texts that each read as an argument read, joined by commas, as those arguments. */
  lemma {:induction false} ListReadsBack(read: ArgReader, texts: seq<string>, args: seq<SqlArg>, rest: string,
                                         fuel: nat)
    requires 0 < |texts| == |args| <= fuel
    requires forall i, tail {:trigger ReadsText(read, texts[i], args[i], tail)} ::
      0 <= i < |texts| ==> ReadsText(read, texts[i], args[i], tail)
    ensures ReadArgs(read, Joined(texts, ", ") + (")" + rest), fuel) == Some((args, rest))
    decreases |texts|
  {
    var text := Joined(texts, ", ") + (")" + rest);
    if |texts| == 1 {
      assert ReadsText(read, texts[0], args[0], ")" + rest);
      ReadLast(read, text, fuel, args[0], rest);
      assert args == [args[0]];
    } else {
      var more := Joined(texts[1..], ", ") + (")" + rest);
      JoinedMore(texts, ", ", ")" + rest);
      assert ReadsText(read, texts[0], args[0], ", " + more);
      forall i, tail | 0 <= i < |texts[1..]| ensures ReadsText(read, texts[1..][i], args[1..][i], tail) {
        assert ReadsText(read, texts[i + 1], args[i + 1], tail);
      }
      ListReadsBack(read, texts[1..], args[1..], rest, fuel - 1);
      ReadMore(read, text, fuel, args[0], more, args[1..], rest);
      assert [args[0]] + args[1..] == args;
    }
  }

  lemma ArgsReadBack(resolve: Resolver, quote: char, args: seq<FunctionArg>, rest: string, fuel: nat)
    requires PlainAliases(resolve) && IsQuote(quote)
    requires args != [] && (forall i :: 0 <= i < |args| ==> ValidArg(args[i])) && fuel >= |args|
    ensures ReadArgs(Reader(quote), Joined(RenderArgs(resolve, quote, args), ", ") + (")" + rest), fuel) ==
      Some((Referents(resolve, args), rest))
  {
    var read := Reader(quote);
    var texts, referents := RenderArgs(resolve, quote, args), Referents(resolve, args);
    forall i, tail | 0 <= i < |args| ensures ReadsText(read, texts[i], referents[i], tail) {
      if EndsArg(tail) {
        ArgReadsBack(resolve, quote, args[i], tail);
      }
    }
    ListReadsBack(read, texts, referents, rest, fuel);
  }

  function RenderCall(resolve: Resolver, quote: char, call: FunctionCall): string {
    call.name + "(" + Joined(RenderArgs(resolve, quote, call.args), ", ") + ")"
  }

  lemma {:induction false} LongEnough(parts: seq<string>)
    requires forall i :: 0 <= i < |parts| ==> parts[i] != []
    ensures |Joined(parts, ", ")| >= |parts|
  {
    if |parts| > 1 {
      LongEnough(parts[1..]);
    }
  }

  lemma CallText(resolve: Resolver, quote: char, call: FunctionCall, rest: string)
    requires IsPlainIdentifier(call.name)
    ensures var text, body := RenderCall(resolve, quote, call) + rest,
        Joined(RenderArgs(resolve, quote, call.args), ", ") + (")" + rest);
      Find(text, '(') == |call.name| && text[..|call.name|] == call.name && text[|call.name| + 1..] == body
  {
    var body := Joined(RenderArgs(resolve, quote, call.args), ", ") + (")" + rest);
    assert RenderCall(resolve, quote, call) + rest == call.name + ['('] + body;
    IdentifierIsPlainText(call.name);
    FindConcat(call.name, '(', body);
  }

  lemma ArgsAreSolid(resolve: Resolver, quote: char, args: seq<FunctionArg>)
    requires forall i :: 0 <= i < |args| ==> ValidArg(args[i])
    ensures |Joined(RenderArgs(resolve, quote, args), ", ")| >= |args|
    ensures args != [] ==>
      var first := RenderArg(resolve, quote, args[0]);
      first != [] && Joined(RenderArgs(resolve, quote, args), ", ")[0] == first[0]
  {
    var parts := RenderArgs(resolve, quote, args);
    forall i | 0 <= i < |args| ensures parts[i] != [] {
      ArgIsPlainText(args[i]);
    }
    LongEnough(parts);
  }

  lemma ArgDoesNotClose(resolve: Resolver, quote: char, arg: FunctionArg)
    requires PlainAliases(resolve) && ValidArg(arg)
    ensures var text := RenderArg(resolve, quote, arg); text != [] && text[0] != ')'
  {
    match arg {
      case NumberArg(text) => NumberStart(text);
      case ColumnArg(column) => ColumnStart(column);
    }
  }

  /** The SQL emitted for a valid call reads back as the call of that name on one column or number per
      argument, in order, with nothing of what follows: no name of a column, however spelled, ends its
      argument early. */
  lemma CallReadsBack(allowed: string -> bool, resolve: Resolver, quote: char, call: FunctionCall, rest: string)
    requires PlainNames(allowed) && PlainAliases(resolve) && IsQuote(quote) && ValidCall(allowed, call)
    ensures ReadCall(Reader(quote), RenderCall(resolve, quote, call) + rest) ==
      Some((SqlCall(call.name, Referents(resolve, call.args)), rest))
  {
    var text := RenderCall(resolve, quote, call) + rest;
    var inner := Joined(RenderArgs(resolve, quote, call.args), ", ");
    CallText(resolve, quote, call, rest);
    ArgsAreSolid(resolve, quote, call.args);
    if call.args == [] {
      assert inner + (")" + rest) == ")" + rest;
      assert (")" + rest)[1..] == rest;
    } else {
      ArgDoesNotClose(resolve, quote, call.args[0]);
      ArgsReadBack(resolve, quote, call.args, rest, |text|);
    }
  }

  // ---------- the resolver ----------

  lemma AcceptedReadsAs(allowed: string -> bool, resolve: Resolver, quote: char, expr: string, call: FunctionCall)
    requires PlainNames(allowed) && PlainAliases(resolve) && IsQuote(quote)
    ensures Parse(allowed, expr) == Ok(Some(call)) ==>
      ReadsAs(allowed, resolve, quote, call, RenderCall(resolve, quote, call))
  {
    AcceptedCallsReparse(allowed, expr, call);
    if ValidCall(allowed, call) {
      ValidReadsAs(allowed, resolve, quote, call);
    }
  }

  lemma ValidReadsAs(allowed: string -> bool, resolve: Resolver, quote: char, call: FunctionCall)
    requires PlainNames(allowed) && PlainAliases(resolve) && IsQuote(quote) && ValidCall(allowed, call)
    ensures ReadsAs(allowed, resolve, quote, call, RenderCall(resolve, quote, call))
  {
    forall rest ensures ReadCall(Reader(quote), RenderCall(resolve, quote, call) + rest) ==
      Some((SqlCall(call.name, Referents(resolve, call.args)), rest))
    {
      CallReadsBack(allowed, resolve, quote, call, rest);
    }
  }

  /** What comes of an expression: a column, a call, or the parser's error. */
  ghost predicate Resolved(allowed: string -> bool, resolve: Resolver, quote: char, expr: string,
                           r: Result<string, ParseError>) {
    match Parse(allowed, expr)
    case Err(e) => r == Err(e)
    case Ok(None) => r == Ok(QualifyField(resolve, quote, expr))
    case Ok(Some(call)) => r == Ok(RenderCall(resolve, quote, call))
  }

  /** The emitted text is a call of an allowed name on the arguments of the expression, whatever follows it. */
  ghost predicate ReadsAs(allowed: string -> bool, resolve: Resolver, quote: char, call: FunctionCall, sql: string) {
    && allowed(call.name)
    && forall rest {:trigger sql + rest} ::
        ReadCall(Reader(quote), sql + rest) == Some((SqlCall(call.name, Referents(resolve, call.args)), rest))
  }

  /** The emitted text is the column the field lives in, whatever follows it that does not go on with the quote;
      all columns stay all columns. */
  ghost predicate ReadsAsColumn(resolve: Resolver, quote: char, field: string, sql: string) {
    if field == "*" then sql == "*"
    else forall rest {:trigger sql + rest} :: !StartsWith(rest, quote) ==>
      ReadArg(sql + rest, quote) == Some((SqlColumn(resolve(field).0, resolve(field).1), rest))
  }

  lemma FieldReadsBack(resolve: Resolver, quote: char, field: string)
    requires PlainAliases(resolve) && IsQuote(quote)
    ensures ReadsAsColumn(resolve, quote, field, QualifyField(resolve, quote, field))
  {
    if field != "*" {
      forall rest | !StartsWith(rest, quote)
        ensures ReadArg(QualifyField(resolve, quote, field) + rest, quote) ==
          Some((SqlColumn(resolve(field).0, resolve(field).1), rest))
      {
        ColumnReadsBack(resolve(field).0, resolve(field).1, quote, rest);
      }
    }
  }

  method RenderArguments(resolve: Resolver, quote: char, args: seq<FunctionArg>) returns (rendered: seq<string>)
    ensures rendered == RenderArgs(resolve, quote, args)
  {
    rendered := [];
    for i := 0 to |args|
      invariant rendered == RenderArgs(resolve, quote, args[..i])
    {
      assert args[..i + 1] == args[..i] + [args[i]];
      match args[i] {
        case ColumnArg(column) => rendered := rendered + [QualifyField(resolve, quote, column)];
        case NumberArg(text) => rendered := rendered + [text];
      }
    }
    assert args[..|args|] == args;
  }

  method ResolveExpression(allowed: string -> bool, resolve: Resolver, quote: char, expr: string)
    returns (r: Result<string, ParseError>)
    ensures Resolved(allowed, resolve, quote, expr, r)
    ensures PlainNames(allowed) && PlainAliases(resolve) && IsQuote(quote) && Parse(allowed, expr).Ok? ==>
      match Parse(allowed, expr).value
      case None => r.Ok? && ReadsAsColumn(resolve, quote, expr, r.value)
      case Some(call) => r.Ok? && ReadsAs(allowed, resolve, quote, call, r.value)
  {
    var parsed := ParseFunctionCall(allowed, expr);
    match parsed {
      case Err(e) => r := Err(e);
      case Ok(None) =>
        r := Ok(QualifyField(resolve, quote, expr));
        if PlainAliases(resolve) && IsQuote(quote) {
          FieldReadsBack(resolve, quote, expr);
        }
      case Ok(Some(call)) =>
        var rendered := RenderArguments(resolve, quote, call.args);
        r := Ok(call.name + "(" + Joined(rendered, ", ") + ")");
        if PlainNames(allowed) && PlainAliases(resolve) && IsQuote(quote) {
          AcceptedReadsAs(allowed, resolve, quote, expr, call);
        }
    }
  }
}
