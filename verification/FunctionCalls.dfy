/** Calls to allowlisted functions in measure expressions: `parse_function_call`, `is_numeric_literal` and
    `looks_like_function_call` of crates/graphnight-core/src/formula.rs. */
module FunctionCalls {
  import opened Results
  import opened Text

  datatype FunctionArg = ColumnArg(text: string) | NumberArg(text: string)

  datatype FunctionCall = FunctionCall(name: string, args: seq<FunctionArg>)

  datatype ParseError =
    | Unclosed
    | TrailingText
    | NotAllowed(name: string)
    | EmptyArgument
    | BadArgument(part: string)

  // ---------- identifiers ----------

  predicate IsLetter(c: char) { 'a' <= c <= 'z' || 'A' <= c <= 'Z' }

  predicate IsDigit(c: char) { '0' <= c <= '9' }

  predicate IsWordChar(c: char) { IsLetter(c) || IsDigit(c) || c == '_' || c == '$' }

  /** `is_plain_identifier` of crates/graphnight-core/src/models.rs. */
  predicate IsPlainIdentifier(s: string) {
    && s != []
    && (IsLetter(s[0]) || s[0] == '_')
    && forall i :: 1 <= i < |s| ==> IsWordChar(s[i])
  }

  // ---------- numeric literals ----------

  predicate IsSign(c: char) { c == '+' || c == '-' }

  function WithoutSign(s: string): string {
    if s != [] && IsSign(s[0]) then s[1..] else s
  }

  predicate AllDigits(s: string) {
    forall i :: 0 <= i < |s| ==> IsDigit(s[i])
  }

  predicate Digits(s: string) { s != [] && AllDigits(s) }

  predicate IsExponentMark(c: char) { c == 'e' || c == 'E' }

  function FindExponent(s: string): (r: nat)
    ensures r <= |s|
    ensures r < |s| ==> IsExponentMark(s[r])
    ensures forall j :: 0 <= j < r ==> !IsExponentMark(s[j])
  {
    if s == [] || IsExponentMark(s[0]) then 0 else FindExponent(s[1..]) + 1
  }

  predicate IsMantissa(s: string) {
    var parts := Split(s, '.');
    |parts| <= 2 && Digits(parts[0]) && (|parts| == 2 && parts[1] != [] ==> AllDigits(parts[1]))
  }

  predicate IsNumericLiteral(s: string) {
    IsUnsignedLiteral(WithoutSign(s))
  }

  predicate IsUnsignedLiteral(body: string) {
    var mark := FindExponent(body);
    IsMantissa(body[..mark]) && (mark < |body| ==> Digits(WithoutSign(body[mark + 1..])))
  }

  // The grammar: a sign or none, digits, a fraction or none, an exponent or none.

  predicate SignText(s: string) { s == "" || s == "+" || s == "-" }

  ghost predicate FractionText(s: string) { s == "" || (s[0] == '.' && AllDigits(s[1..])) }

  ghost predicate ExponentText(s: string) {
    || s == ""
    || (IsExponentMark(s[0]) && exists sign, digits :: SignText(sign) && Digits(digits) && s[1..] == sign + digits)
  }

  ghost predicate NumberText(s: string, sign: string, whole: string, fraction: string, exponent: string) {
    SignText(sign) && Digits(whole) && FractionText(fraction) && ExponentText(exponent) &&
      s == sign + whole + fraction + exponent
  }

  lemma WithoutSignOf(sign: string, rest: string)
    requires SignText(sign) && (rest != [] ==> !IsSign(rest[0]))
    ensures WithoutSign(sign + rest) == rest
  {
    if sign == "" {
      assert sign + rest == rest;
    } else {
      assert (sign + rest)[1..] == rest;
    }
  }

  lemma SignSplit(s: string) returns (sign: string)
    ensures SignText(sign) && s == sign + WithoutSign(s)
  {
    if s != [] && IsSign(s[0]) {
      sign := [s[0]];
      assert sign == "+" || sign == "-";
    } else {
      sign := "";
    }
  }

  lemma MantissaParts(s: string) returns (whole: string, fraction: string)
    requires IsMantissa(s)
    ensures Digits(whole) && FractionText(fraction) && s == whole + fraction
  {
    var k := Find(s, '.');
    whole := Split(s, '.')[0];
    if k == |s| {
      fraction := "";
    } else {
      var tail := s[k + 1..];
      assert |Split(tail, '.')| == 1;
      fraction := ['.'] + tail;
      assert fraction[1..] == tail;
      assert s == s[..k] + fraction;
    }
  }

  lemma MantissaIsAccepted(whole: string, fraction: string)
    requires Digits(whole) && FractionText(fraction)
    ensures IsMantissa(whole + fraction)
  {
    if fraction == "" {
      assert whole + fraction == whole;
      SplitNone(whole, '.');
    } else {
      var tail := fraction[1..];
      assert fraction == ['.'] + tail;
      assert whole + fraction == whole + ['.'] + tail;
      SplitConcat(whole, '.', tail);
      SplitNone(tail, '.');
    }
  }

  lemma FindExponentAt(front: string, rest: string)
    requires forall j :: 0 <= j < |front| ==> !IsExponentMark(front[j])
    requires rest != [] ==> IsExponentMark(rest[0])
    ensures FindExponent(front + rest) == |front|
  {
    var s := front + rest;
    assert forall j :: 0 <= j < |front| ==> s[j] == front[j];
    assert rest != [] ==> s[|front|] == rest[0];
  }

  lemma ExponentParts(text: string)
    requires text != [] && IsExponentMark(text[0]) && Digits(WithoutSign(text[1..]))
    ensures ExponentText(text)
  {
    var sign := SignSplit(text[1..]);
    assert SignText(sign) && text[1..] == sign + WithoutSign(text[1..]);
  }

  lemma ExponentOf(body: string, mark: nat)
    requires mark == FindExponent(body) && (mark < |body| ==> Digits(WithoutSign(body[mark + 1..])))
    ensures ExponentText(body[mark..])
  {
    if mark < |body| {
      assert body[mark..][1..] == body[mark + 1..];
      ExponentParts(body[mark..]);
    }
  }

  lemma TakeDrop(s: string, n: nat)
    requires n <= |s|
    ensures s == s[..n] + s[n..]
  {
  }

  lemma UnsignedLiteralParts(body: string) returns (whole: string, fraction: string, exponent: string)
    requires IsUnsignedLiteral(body)
    ensures Digits(whole) && FractionText(fraction) && ExponentText(exponent) && body == whole + fraction + exponent
  {
    var mark := FindExponent(body);
    ExponentOf(body, mark);
    TakeDrop(body, mark);
    whole, fraction := MantissaParts(body[..mark]);
    exponent := body[mark..];
  }

  lemma LiteralParts(s: string) returns (sign: string, whole: string, fraction: string, exponent: string)
    requires IsNumericLiteral(s)
    ensures NumberText(s, sign, whole, fraction, exponent)
  {
    sign := SignSplit(s);
    whole, fraction, exponent := UnsignedLiteralParts(WithoutSign(s));
    ConcatFour(sign, whole, fraction, exponent);
  }

  /** The code accepts exactly the texts of the grammar. */
  lemma NumericLiteralGrammar(s: string)
    ensures IsNumericLiteral(s) <==>
      exists sign, whole, fraction, exponent :: NumberText(s, sign, whole, fraction, exponent)
  {
    if IsNumericLiteral(s) {
      var sign, whole, fraction, exponent := LiteralParts(s);
    }
    if sign, whole, fraction, exponent :| NumberText(s, sign, whole, fraction, exponent) {
      GrammarIsAccepted(s, sign, whole, fraction, exponent);
    }
  }

  lemma MantissaHasNoMark(whole: string, fraction: string)
    requires Digits(whole) && FractionText(fraction)
    ensures forall j :: 0 <= j < |whole + fraction| ==> !IsExponentMark((whole + fraction)[j])
    ensures IsMantissa(whole + fraction)
  {
    MantissaIsAccepted(whole, fraction);
    forall j | 0 <= j < |fraction| ensures !IsExponentMark(fraction[j]) {
      if j > 0 {
        assert fraction[j] == fraction[1..][j - 1];
      }
    }
  }

  lemma BodyIsAccepted(mantissa: string, exponent: string)
    requires IsMantissa(mantissa) && ExponentText(exponent)
    requires forall j :: 0 <= j < |mantissa| ==> !IsExponentMark(mantissa[j])
    ensures IsUnsignedLiteral(mantissa + exponent)
  {
    var body := mantissa + exponent;
    FindExponentAt(mantissa, exponent);
    assert body[..|mantissa|] == mantissa;
    if exponent != "" {
      var sign, digits :| SignText(sign) && Digits(digits) && exponent[1..] == sign + digits;
      WithoutSignOf(sign, digits);
      assert body[|mantissa| + 1..] == exponent[1..];
    }
  }

  lemma GrammarIsAccepted(s: string, sign: string, whole: string, fraction: string, exponent: string)
    requires NumberText(s, sign, whole, fraction, exponent)
    ensures IsNumericLiteral(s)
  {
    var mantissa := whole + fraction;
    var body := mantissa + exponent;
    ConcatFour(sign, whole, fraction, exponent);
    assert body[0] == whole[0];
    WithoutSignOf(sign, body);
    MantissaHasNoMark(whole, fraction);
    BodyIsAccepted(mantissa, exponent);
  }

  // ---------- column references ----------

  predicate IsColumnReference(s: string) {
    var parts := Split(s, '.');
    |parts| <= 2 && forall i :: 0 <= i < |parts| ==> IsPlainIdentifier(parts[i])
  }

  lemma NumberStart(s: string)
    requires IsNumericLiteral(s)
    ensures s != [] && (IsDigit(s[0]) || IsSign(s[0]))
  {
    var sign, whole, fraction, exponent := LiteralParts(s);
    assert s[0] == (if sign == "" then whole[0] else sign[0]);
  }

  lemma ColumnStart(s: string)
    requires IsColumnReference(s)
    ensures s != [] && (IsLetter(s[0]) || s[0] == '_')
  {
    var k := Find(s, '.');
    assert Split(s, '.')[0] == s[..k];
    assert IsPlainIdentifier(s[..k]);
  }

  /** No text is both a number and a column reference. */
  lemma NumberIsNotColumn(s: string)
    requires IsNumericLiteral(s)
    ensures !IsColumnReference(s)
  {
    NumberStart(s);
    if IsColumnReference(s) {
      ColumnStart(s);
      assert false;
    }
  }

  // ---------- calls ----------

  predicate LooksLikeFunctionCall(expr: string) {
    var open := Find(expr, '(');
    open < |expr| && LooksLikeName(Trim(expr[..open]))
  }

  predicate LooksLikeName(name: string) {
    name != [] && ' ' !in name && forall i :: 0 <= i < |Split(name, '.')| ==> IsPlainIdentifier(Split(name, '.')[i])
  }

  function ParseArg(raw: string): Result<FunctionArg, ParseError> {
    var part := Trim(raw);
    if part == [] then Err(EmptyArgument)
    else if IsNumericLiteral(part) then Ok(NumberArg(part))
    else if IsColumnReference(part) then Ok(ColumnArg(part))
    else Err(BadArgument(part))
  }

  /** Parses the parts of a list in order; the first that cannot be parsed decides the error. */
  function ParseAll(parse: string -> Result<FunctionArg, ParseError>, raws: seq<string>)
    : Result<seq<FunctionArg>, ParseError>
  {
    if raws == [] then Ok([])
    else
      match ParseAll(parse, raws[..|raws| - 1])
      case Err(e) => Err(e)
      case Ok(args) =>
        match parse(raws[|raws| - 1])
        case Err(e) => Err(e)
        case Ok(arg) => Ok(args + [arg])
  }

  /** Parses an expression, given which function names are allowed; `Ok(None)` when it is not a call at all. */
  function Parse(allowed: string -> bool, text: string): Result<Option<FunctionCall>, ParseError> {
    var expr := Trim(text);
    if !LooksLikeFunctionCall(expr) then Ok(None)
    else
      var open := Find(expr, '(');
      ParseCall(allowed, Trim(expr[..open]), expr[open + 1..])
  }

  /** Parses what follows the opening parenthesis of a call of `name`. */
  function ParseCall(allowed: string -> bool, name: string, body: string): Result<Option<FunctionCall>, ParseError> {
    var close := FindLast(body, ')');
    if close < 0 then Err(Unclosed)
    else if Trim(body[close + 1..]) != [] then Err(TrailingText)
    else if !allowed(name) then Err(NotAllowed(name))
    else if Trim(body[..close]) == [] then Ok(Some(FunctionCall(name, [])))
    else
      match ParseAll(ParseArg, Split(body[..close], ','))
      case Err(e) => Err(e)
      case Ok(args) => Ok(Some(FunctionCall(name, args)))
  }

  method ParseArguments(raws: seq<string>) returns (r: Result<seq<FunctionArg>, ParseError>)
    ensures r == ParseAll(ParseArg, raws)
  {
    var args: seq<FunctionArg> := [];
    for i := 0 to |raws|
      invariant ParseAll(ParseArg, raws[..i]) == Ok(args)
    {
      assert raws[..i + 1][..i] == raws[..i];
      var part := Trim(raws[i]);
      if part == [] {
        ErrorStays(ParseArg, raws, i + 1);
        return Err(EmptyArgument);
      }
      if IsNumericLiteral(part) {
        args := args + [NumberArg(part)];
      } else if IsColumnReference(part) {
        args := args + [ColumnArg(part)];
      } else {
        ErrorStays(ParseArg, raws, i + 1);
        return Err(BadArgument(part));
      }
    }
    assert raws[..|raws|] == raws;
    r := Ok(args);
  }

  method ParseFunctionCall(allowed: string -> bool, text: string) returns (r: Result<Option<FunctionCall>, ParseError>)
    ensures r == Parse(allowed, text)
  {
    var expr := Trim(text);
    if !LooksLikeFunctionCall(expr) {
      return Ok(None);
    }
    var open := Find(expr, '(');
    var name, body := Trim(expr[..open]), expr[open + 1..];
    var close := FindLast(body, ')');
    if close < 0 {
      return Err(Unclosed);
    }
    var argsText := body[..close];
    if Trim(body[close + 1..]) != [] {
      return Err(TrailingText);
    }
    if !allowed(name) {
      return Err(NotAllowed(name));
    }
    var args: Result<seq<FunctionArg>, ParseError> := Ok([]);
    if Trim(argsText) != [] {
      args := ParseArguments(Split(argsText, ','));
    }
    match args {
      case Err(e) => r := Err(e);
      case Ok(list) => r := Ok(Some(FunctionCall(name, list)));
    }
  }

  lemma {:induction false} ErrorStays(parse: string -> Result<FunctionArg, ParseError>, raws: seq<string>, n: nat)
    requires n <= |raws| && ParseAll(parse, raws[..n]).Err?
    ensures ParseAll(parse, raws) == ParseAll(parse, raws[..n])
  {
    if n < |raws| {
      assert raws[..|raws| - 1][..n] == raws[..n];
      ErrorStays(parse, raws[..|raws| - 1], n);
    } else {
      assert raws[..n] == raws;
    }
  }

  /** Parsing a list succeeds exactly when parsing each part does, with the parts' own results. */
  lemma {:induction false} ParseAllIff(parse: string -> Result<FunctionArg, ParseError>, raws: seq<string>,
                                       args: seq<FunctionArg>)
    ensures ParseAll(parse, raws) == Ok(args) <==>
      |args| == |raws| && forall i :: 0 <= i < |raws| ==> parse(raws[i]) == Ok(args[i])
    decreases |raws|
  {
    if raws != [] {
      var n := |raws| - 1;
      if |args| == |raws| {
        ParseAllIff(parse, raws[..n], args[..n]);
        assert args == args[..n] + [args[n]];
      } else {
        match ParseAll(parse, raws[..n])
        case Err(_) =>
        case Ok(front) => ParseAllIff(parse, raws[..n], front);
      }
    }
  }

  // ---------- printing ----------

  function Print(call: FunctionCall): string {
    call.name + "(" + Joined(ArgTexts(call.args), ", ") + ")"
  }

  function ArgTexts(args: seq<FunctionArg>): (r: seq<string>)
    ensures |r| == |args|
  {
    seq(|args|, i requires 0 <= i < |args| => args[i].text)
  }

  predicate ValidArg(arg: FunctionArg) {
    match arg
    case NumberArg(text) => IsNumericLiteral(text)
    case ColumnArg(text) => IsColumnReference(text)
  }

  predicate ValidCall(allowed: string -> bool, call: FunctionCall) {
    allowed(call.name) && forall i :: 0 <= i < |call.args| ==> ValidArg(call.args[i])
  }

  /** The names an allowlist admits are plain identifiers. */
  ghost predicate PlainNames(allowed: string -> bool) {
    forall name :: allowed(name) ==> IsPlainIdentifier(name)
  }

  // Characters that take no part in the shape of a call.
  predicate IsPlainChar(c: char) {
    !IsWhitespace(c) && c != ',' && c != '(' && c != ')'
  }

  predicate PlainText(s: string) {
    s != [] && forall i :: 0 <= i < |s| ==> IsPlainChar(s[i])
  }

  predicate PlainChars(s: string) {
    forall i :: 0 <= i < |s| ==> IsPlainChar(s[i])
  }

  lemma PlainCharsConcat(a: string, b: string)
    requires PlainChars(a) && PlainChars(b)
    ensures PlainChars(a + b)
  {
  }

  lemma DigitsArePlain(s: string)
    requires AllDigits(s)
    ensures PlainChars(s)
  {
  }

  lemma MarkedIsPlain(s: string)
    requires s != [] && IsPlainChar(s[0]) && PlainChars(s[1..])
    ensures PlainChars(s)
  {
    PlainCharsConcat([s[0]], s[1..]);
    assert s == [s[0]] + s[1..];
  }

  lemma FractionIsPlain(fraction: string)
    requires FractionText(fraction)
    ensures PlainChars(fraction)
  {
    if fraction != "" {
      DigitsArePlain(fraction[1..]);
      MarkedIsPlain(fraction);
    }
  }

  lemma ExponentIsPlain(exponent: string)
    requires ExponentText(exponent)
    ensures PlainChars(exponent)
  {
    if exponent != "" {
      var sign, digits :| SignText(sign) && Digits(digits) && exponent[1..] == sign + digits;
      DigitsArePlain(digits);
      PlainCharsConcat(sign, digits);
      MarkedIsPlain(exponent);
    }
  }

  lemma NumberIsPlainText(s: string)
    requires IsNumericLiteral(s)
    ensures PlainText(s)
  {
    var sign, whole, fraction, exponent := LiteralParts(s);
    DigitsArePlain(whole);
    FractionIsPlain(fraction);
    ExponentIsPlain(exponent);
    PlainCharsConcat(sign, whole);
    PlainCharsConcat(sign + whole, fraction);
    PlainCharsConcat(sign + whole + fraction, exponent);
  }

  lemma IdentifierIsPlainText(s: string)
    requires IsPlainIdentifier(s)
    ensures PlainText(s)
    ensures '.' !in s
  {
    forall i | 0 <= i < |s| ensures IsPlainChar(s[i]) && s[i] != '.' {
      assert IsWordChar(s[i]);
    }
  }

  lemma ColumnIsPlainText(s: string)
    requires IsColumnReference(s)
    ensures PlainText(s)
  {
    var k := Find(s, '.');
    var parts := Split(s, '.');
    if k == |s| {
      assert parts == [s];
      IdentifierIsPlainText(parts[0]);
    } else {
      var tail := s[k + 1..];
      assert parts == [s[..k]] + Split(tail, '.');
      assert Split(tail, '.') == [parts[1]] && parts[1] == tail;
      IdentifierIsPlainText(parts[0]);
      IdentifierIsPlainText(parts[1]);
      assert s == parts[0] + ['.'] + parts[1];
    }
  }

  lemma ArgIsPlainText(arg: FunctionArg)
    requires ValidArg(arg)
    ensures PlainText(arg.text)
  {
    match arg
    case NumberArg(text) => NumberIsPlainText(text);
    case ColumnArg(text) => ColumnIsPlainText(text);
  }

  // ---------- printing and parsing are inverse ----------

  lemma ParseArgReads(arg: FunctionArg, raw: string)
    requires ValidArg(arg) && (raw == arg.text || raw == " " + arg.text)
    ensures ParseArg(raw) == Ok(arg)
  {
    ArgIsPlainText(arg);
    TrimNothing(arg.text);
    if raw == " " + arg.text {
      assert raw[1..] == arg.text;
      assert TrimStart(arg.text) == arg.text;
    }
    if arg.NumberArg? {
      NumberIsNotColumn(arg.text);
    } else if IsNumericLiteral(arg.text) {
      NumberIsNotColumn(arg.text);
      assert false;
    }
  }

  function RawArgs(args: seq<FunctionArg>): (r: seq<string>)
    ensures |r| == |args|
  {
    seq(|args|, i requires 0 <= i < |args| => if i == 0 then args[i].text else " " + args[i].text)
  }

  lemma RawArgsParse(args: seq<FunctionArg>)
    requires forall i :: 0 <= i < |args| ==> ValidArg(args[i])
    ensures ParseAll(ParseArg, RawArgs(args)) == Ok(args)
  {
    forall i | 0 <= i < |args| ensures ParseArg(RawArgs(args)[i]) == Ok(args[i]) {
      ParseArgReads(args[i], RawArgs(args)[i]);
    }
    ParseAllIff(ParseArg, RawArgs(args), args);
  }

  /** The text after the first argument: each one behind a comma and a space. */
  function Spaced(args: seq<FunctionArg>): seq<string> {
    seq(|args|, i requires 0 <= i < |args| => " " + args[i].text)
  }

  lemma JoinedCons(args: seq<FunctionArg>, prefix: string)
    requires |args| > 1
    ensures prefix + Joined(ArgTexts(args), ", ") ==
      (prefix + args[0].text) + [','] + (" " + Joined(ArgTexts(args[1..]), ", "))
  {
    var rest := Joined(ArgTexts(args[1..]), ", ");
    assert ArgTexts(args)[1..] == ArgTexts(args[1..]);
    assert Joined(ArgTexts(args), ", ") == args[0].text + ", " + rest;
    assert ", " == [','] + " ";
  }

  lemma SpacedCons(args: seq<FunctionArg>)
    requires args != []
    ensures [" " + args[0].text] + Spaced(args[1..]) == Spaced(args)
  {
  }

  lemma {:induction false} SplitJoined(args: seq<FunctionArg>, prefix: string)
    requires args != [] && ',' !in prefix
    requires forall i :: 0 <= i < |args| ==> PlainText(args[i].text)
    ensures Split(prefix + Joined(ArgTexts(args), ", "), ',') == [prefix + args[0].text] + Spaced(args[1..])
    decreases |args|
  {
    var texts := ArgTexts(args);
    var first := prefix + args[0].text;
    assert ',' !in args[0].text;
    assert ',' !in first;
    if |args| == 1 {
      assert Joined(texts, ", ") == texts[0];
      SplitNone(first, ',');
    } else {
      var rest := Joined(ArgTexts(args[1..]), ", ");
      JoinedCons(args, prefix);
      SplitConcat(first, ',', " " + rest);
      SplitJoined(args[1..], " ");
      SpacedCons(args[1..]);
    }
  }

  lemma {:induction false} JoinedIsSolid(args: seq<FunctionArg>)
    requires args != [] && forall i :: 0 <= i < |args| ==> PlainText(args[i].text)
    ensures var text := Joined(ArgTexts(args), ", ");
      && text != [] && !IsWhitespace(text[0]) && !IsWhitespace(text[|text| - 1])
      && forall i :: 0 <= i < |text| ==> text[i] != '(' && text[i] != ')'
    decreases |args|
  {
    var texts := ArgTexts(args);
    if |args| > 1 {
      assert texts[1..] == ArgTexts(args[1..]);
      JoinedIsSolid(args[1..]);
    }
  }

  lemma FindLastConcat(a: string, c: char)
    ensures FindLast(a + [c], c) == |a|
  {
  }

  lemma PrintLooksLikeCall(call: FunctionCall)
    requires IsPlainIdentifier(call.name)
    ensures var text := Print(call);
      && Trim(text) == text
      && Find(text, '(') == |call.name| && text[..|call.name|] == call.name && Trim(call.name) == call.name
      && text[|call.name| + 1..] == Joined(ArgTexts(call.args), ", ") + ")"
      && LooksLikeFunctionCall(text)
  {
    var text := Print(call);
    var inner := Joined(ArgTexts(call.args), ", ");
    IdentifierIsPlainText(call.name);
    assert text == call.name + ['('] + (inner + ")");
    assert '(' !in call.name;
    FindConcat(call.name, '(', inner + ")");
    assert text[0] == call.name[0] && text[|text| - 1] == ')';
    TrimNothing(text);
    TrimNothing(call.name);
    SplitNone(call.name, '.');
    assert ' ' !in call.name;
  }

  lemma ArgsArePlain(args: seq<FunctionArg>)
    requires forall i :: 0 <= i < |args| ==> ValidArg(args[i])
    ensures forall i :: 0 <= i < |args| ==> PlainText(args[i].text)
  {
    forall i | 0 <= i < |args| ensures PlainText(args[i].text) {
      ArgIsPlainText(args[i]);
    }
  }

  lemma RawArgsCons(args: seq<FunctionArg>)
    requires args != []
    ensures RawArgs(args) == [args[0].text] + Spaced(args[1..])
  {
    var raws := [args[0].text] + Spaced(args[1..]);
    forall i | 0 <= i < |args| ensures raws[i] == RawArgs(args)[i] {
    }
  }

  lemma EmptyPrefix(s: string)
    ensures "" + s == s
  {
  }

  lemma SplitIsRaw(args: seq<FunctionArg>)
    requires args != [] && forall i :: 0 <= i < |args| ==> PlainText(args[i].text)
    ensures Split(Joined(ArgTexts(args), ", "), ',') == RawArgs(args)
  {
    SplitJoined(args, "");
    EmptyPrefix(Joined(ArgTexts(args), ", "));
    EmptyPrefix(args[0].text);
    RawArgsCons(args);
  }

  lemma InnerIsTrimmed(args: seq<FunctionArg>)
    requires args != [] && forall i :: 0 <= i < |args| ==> PlainText(args[i].text)
    ensures Trim(Joined(ArgTexts(args), ", ")) != []
  {
    JoinedIsSolid(args);
    TrimNothing(Joined(ArgTexts(args), ", "));
  }

  lemma ArgsTextParses(args: seq<FunctionArg>)
    requires args != [] && forall i :: 0 <= i < |args| ==> ValidArg(args[i])
    ensures var inner := Joined(ArgTexts(args), ", ");
      Trim(inner) != [] && ParseAll(ParseArg, Split(inner, ',')) == Ok(args)
  {
    ArgsArePlain(args);
    InnerIsTrimmed(args);
    SplitIsRaw(args);
    RawArgsParse(args);
  }

  lemma BodyCloses(inner: string)
    ensures var body := inner + ")";
      FindLast(body, ')') == |inner| && body[..|inner|] == inner && Trim(body[|inner| + 1..]) == []
  {
    FindLastConcat(inner, ')');
    assert (inner + ")")[|inner| + 1..] == [];
  }

  /** A text that is `name(inner)` parses to what its arguments parse to. */
  lemma ParseShape(allowed: string -> bool, text: string, name: string, inner: string)
    requires allowed(name) && LooksLikeFunctionCall(text) && Trim(text) == text
    requires Find(text, '(') == |name| && text[..|name|] == name && Trim(name) == name
    requires text[|name| + 1..] == inner + ")"
    ensures Parse(allowed, text) ==
      if Trim(inner) == [] then Ok(Some(FunctionCall(name, [])))
      else match ParseAll(ParseArg, Split(inner, ','))
        case Err(e) => Err(e)
        case Ok(args) => Ok(Some(FunctionCall(name, args)))
  {
    BodyCloses(inner);
  }

  /** Parsing what a valid call prints gives back that call. */
  lemma ParsePrint(allowed: string -> bool, call: FunctionCall)
    requires PlainNames(allowed) && ValidCall(allowed, call)
    ensures Parse(allowed, Print(call)) == Ok(Some(call))
  {
    var inner := Joined(ArgTexts(call.args), ", ");
    PrintLooksLikeCall(call);
    ParseShape(allowed, Print(call), call.name, inner);
    if call.args == [] {
      assert inner == [];
    } else {
      ArgsTextParses(call.args);
    }
  }

  lemma ParsedArgIsValid(raw: string, arg: FunctionArg)
    requires ParseArg(raw) == Ok(arg)
    ensures ValidArg(arg)
  {
  }

  lemma ParsedArgsAreValid(raws: seq<string>, args: seq<FunctionArg>)
    requires ParseAll(ParseArg, raws) == Ok(args)
    ensures forall i :: 0 <= i < |args| ==> ValidArg(args[i])
  {
    ParseAllIff(ParseArg, raws, args);
    forall i | 0 <= i < |args| ensures ValidArg(args[i]) {
      ParsedArgIsValid(raws[i], args[i]);
    }
  }

  // Where the arguments of an accepted call come from.
  lemma AcceptedShape(allowed: string -> bool, text: string, call: FunctionCall) returns (raws: seq<string>)
    ensures Parse(allowed, text) == Ok(Some(call)) ==>
      allowed(call.name) && (call.args == [] || ParseAll(ParseArg, raws) == Ok(call.args))
  {
    var expr := Trim(text);
    raws := [];
    if LooksLikeFunctionCall(expr) {
      var body := expr[Find(expr, '(') + 1..];
      var close := FindLast(body, ')');
      raws := if close < 0 then [] else Split(body[..close], ',');
    }
  }

  /** Whatever is accepted is a valid call, and printing it changes nothing about it. */
  lemma AcceptedCallsReparse(allowed: string -> bool, text: string, call: FunctionCall)
    requires PlainNames(allowed)
    ensures Parse(allowed, text) == Ok(Some(call)) ==>
      ValidCall(allowed, call) && Parse(allowed, Print(call)) == Ok(Some(call))
  {
    var raws := AcceptedShape(allowed, text, call);
    if ParseAll(ParseArg, raws) == Ok(call.args) {
      ParsedArgsAreValid(raws, call.args);
    }
    if ValidCall(allowed, call) {
      ParsePrint(allowed, call);
    }
  }
}
