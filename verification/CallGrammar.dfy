/** The grammar of calls in measure expressions, against `parse_function_call` of
    crates/graphnight-core/src/formula.rs: which texts are calls, and what is wrong with the others. */
module CallGrammar {
  import opened Results
  import opened Text
  import opened FunctionCalls
  import opened EditDistance

  // ---------- the grammar ----------

  /** One or more plain identifiers with dots between them. */
  ghost predicate NameText(name: string) {
    exists parts :: parts != [] && name == Joined(parts, ".") &&
      forall i :: 0 <= i < |parts| ==> IsPlainIdentifier(parts[i])
  }

  /** A column is named by itself or behind the name of its table. */
  ghost predicate ColumnText(s: string) {
    || IsPlainIdentifier(s)
    || exists table, column :: IsPlainIdentifier(table) && IsPlainIdentifier(column) && s == table + "." + column
  }

  /** A text that begins as a call does: a name and an opening parenthesis, blanks around the name. */
  ghost predicate CallShape(text: string, name: string, body: string) {
    NameText(name) && exists before, gap :: Opened(text, before, name, gap, body)
  }

  predicate Opened(text: string, before: string, name: string, gap: string, body: string) {
    Blank(before) && Blank(gap) && text == before + name + gap + "(" + body
  }

  /** What follows the opening parenthesis, up to the closing one and blanks behind it. */
  predicate Closed(body: string, inner: string, tail: string) {
    body == inner + ")" + tail && Blank(tail)
  }

  /** One argument, with blanks around it. */
  ghost predicate ArgText(part: string, arg: FunctionArg) {
    ValidArg(arg) && exists before, after :: Padded(part, before, arg.text, after)
  }

  predicate Padded(part: string, before: string, s: string, after: string) {
    Blank(before) && Blank(after) && part == before + s + after
  }

  /** The arguments between the parentheses, with commas between them; nothing but blanks where there are none. */
  ghost predicate ArgsText(inner: string, args: seq<FunctionArg>) {
    if args == [] then Blank(inner)
    else exists parts :: ArgParts(inner, args, parts)
  }

  ghost predicate ArgParts(inner: string, args: seq<FunctionArg>, parts: seq<string>) {
    |parts| == |args| && inner == Joined(parts, ",") && forall i :: 0 <= i < |args| ==> ArgText(parts[i], args[i])
  }

  ghost predicate IsArg(part: string) {
    exists arg :: ArgText(part, arg)
  }

  /** Part `i` of a list that is not blank is the first that is no argument. */
  ghost predicate FirstBad(inner: string, parts: seq<string>, i: nat) {
    && !Blank(inner) && inner == Joined(parts, ",") && (forall k :: 0 <= k < |parts| ==> ',' !in parts[k])
    && i < |parts| && (forall k :: 0 <= k < i ==> IsArg(parts[k])) && !IsArg(parts[i])
  }

  ghost predicate BadPart(inner: string, part: string) {
    exists parts, i :: FirstBad(inner, parts, i) && parts[i] == part
  }

  /** The error of a part that is no argument. */
  ghost predicate Blamed(part: string, e: ParseError) {
    match e
    case EmptyArgument => Blank(part)
    case BadArgument(s) => s != [] && Solid(s) && exists before, after :: Padded(part, before, s, after)
    case _ => false
  }

  /** The answer for a text that begins as a call of `name`. */
  ghost predicate Judged(allowed: string -> bool, name: string, body: string,
                         r: Result<Option<FunctionCall>, ParseError>) {
    match r
    case Ok(None) => false
    case Ok(Some(call)) =>
      call.name == name && allowed(name) &&
        exists inner, tail :: Closed(body, inner, tail) && ArgsText(inner, call.args)
    case Err(Unclosed) => ')' !in body
    case Err(TrailingText) => exists inner, tail :: body == inner + ")" + tail && ')' !in tail && !Blank(tail)
    case Err(NotAllowed(n)) => n == name && !allowed(name) && exists inner, tail :: Closed(body, inner, tail)
    case Err(e) =>
      allowed(name) && exists inner, tail, part :: Closed(body, inner, tail) && BadPart(inner, part) && Blamed(part, e)
  }

  // ---------- characters ----------

  lemma {:induction false} ListedFrom(s: string, first: char, c: char)
    requires forall i :: 0 <= i < |s| ==> s[i] as int == first as int + i
    ensures c in s <==> first as int <= c as int < first as int + |s|
  {
    if first as int <= c as int < first as int + |s| {
      assert s[c as int - first as int] == c;
    }
  }

  /** The letters, digits and marks that names and numbers are made of, listed. */
  lemma CharacterClasses(c: char)
    ensures IsDigit(c) <==> c in "0123456789"
    ensures IsLetter(c) <==> c in UPPER_CASE || c in LOWER_CASE
    ensures IsWordChar(c) <==> IsLetter(c) || IsDigit(c) || c in "_$"
    ensures IsExponentMark(c) <==> c in "eE"
    ensures IsSign(c) <==> c in "+-"
  {
    ListedFrom("0123456789", '0', c);
    forall i: nat | i < 26 ensures UPPER_CASE[i] as int == 'A' as int + i && LOWER_CASE[i] as int == 'a' as int + i {
      LetterAt(i);
    }
    ListedFrom(UPPER_CASE, 'A', c);
    ListedFrom(LOWER_CASE, 'a', c);
  }

  // ---------- arguments ----------

  lemma ColumnReferenceParts(s: string)
    requires IsColumnReference(s)
    ensures ColumnText(s)
  {
    var k, parts := Find(s, '.'), Split(s, '.');
    assert IsPlainIdentifier(parts[0]);
    if k < |s| {
      var tail := s[k + 1..];
      assert parts == [s[..k]] + Split(tail, '.');
      assert Split(tail, '.') == [tail];
      assert IsPlainIdentifier(parts[1]);
      assert s == s[..k] + "." + tail;
    }
  }

  lemma ColumnTextIsAccepted(s: string)
    requires ColumnText(s)
    ensures IsColumnReference(s)
  {
    if IsPlainIdentifier(s) {
      IdentifierIsPlainText(s);
      SplitNone(s, '.');
    } else {
      var table, column :| IsPlainIdentifier(table) && IsPlainIdentifier(column) && s == table + "." + column;
      IdentifierIsPlainText(table);
      IdentifierIsPlainText(column);
      assert s == table + ['.'] + column;
      SplitConcat(table, '.', column);
      SplitNone(column, '.');
      assert Split(s, '.') == [table, column];
    }
  }

  /** The code accepts exactly the column references of the grammar. */
  lemma ColumnReferenceGrammar(s: string)
    ensures IsColumnReference(s) <==> ColumnText(s)
  {
    if IsColumnReference(s) {
      ColumnReferenceParts(s);
    } else if ColumnText(s) {
      ColumnTextIsAccepted(s);
    }
  }

  lemma PaddedTrims(part: string, before: string, s: string, after: string)
    requires Padded(part, before, s, after) && Solid(s)
    ensures Trim(part) == s
  {
    TrimOf(before, s, after);
  }

  lemma ArgIsSolid(arg: FunctionArg)
    requires ValidArg(arg)
    ensures arg.text != [] && Solid(arg.text) && ',' !in arg.text
    ensures ParseArg(arg.text) == Ok(arg)
  {
    ArgIsPlainText(arg);
    ParseArgReads(arg, arg.text);
  }

  lemma ParsedArgIsSpelled(part: string, arg: FunctionArg)
    requires ParseArg(part) == Ok(arg)
    ensures ArgText(part, arg)
  {
    var before, after := TrimParts(part);
    assert Padded(part, before, arg.text, after);
  }

  lemma SameTrimSameArg(a: string, b: string)
    requires Trim(a) == Trim(b)
    ensures ParseArg(a) == ParseArg(b)
  {
  }

  lemma SpelledArgIsParsed(part: string, arg: FunctionArg)
    requires ArgText(part, arg)
    ensures ParseArg(part) == Ok(arg)
  {
    var before, after :| Padded(part, before, arg.text, after);
    ArgIsSolid(arg);
    PaddedTrims(part, before, arg.text, after);
    TrimNothing(arg.text);
    SameTrimSameArg(part, arg.text);
  }

  /** An argument is parsed exactly when it is spelled as one. */
  lemma ParseArgIff(part: string, arg: FunctionArg)
    ensures ParseArg(part) == Ok(arg) <==> ArgText(part, arg)
  {
    if ParseArg(part) == Ok(arg) {
      ParsedArgIsSpelled(part, arg);
    } else if ArgText(part, arg) {
      SpelledArgIsParsed(part, arg);
    }
  }

  /** A part that is not is refused for what is in it. */
  lemma ParseArgErrIff(part: string, e: ParseError)
    ensures ParseArg(part) == Err(e) <==> !IsArg(part) && Blamed(part, e)
  {
    TrimIsEmptyIff(part);
    var before, after := TrimParts(part);
    assert Padded(part, before, Trim(part), after);
    if ParseArg(part).Err? {
      forall arg ensures !ArgText(part, arg) {
        ParseArgIff(part, arg);
      }
    } else {
      ParseArgIff(part, ParseArg(part).value);
    }
    if e.BadArgument? && Blamed(part, e) {
      var b, a :| Padded(part, b, e.part, a);
      PaddedTrims(part, b, e.part, a);
    }
  }

  /** A list is refused for the first of its parts that is. */
  lemma {:induction false} ParseAllErrIff(parse: string -> Result<FunctionArg, ParseError>, raws: seq<string>,
                                          e: ParseError)
    ensures ParseAll(parse, raws) == Err(e) <==> exists i: nat :: FirstErr(parse, raws, i, e)
  {
    if raws != [] {
      var n := |raws| - 1;
      var front := raws[..n];
      ParseAllErrIff(parse, front, e);
      if ParseAll(parse, front).Ok? {
        ParseAllIff(parse, front, ParseAll(parse, front).value);
        assert forall k :: 0 <= k < n ==> front[k] == raws[k] && parse(front[k]).Ok?;
        assert ParseAll(parse, raws) == Err(e) ==> FirstErr(parse, raws, n, e);
      } else {
        var other := ParseAll(parse, front).error;
        ParseAllErrIff(parse, front, other);
        var k :| FirstErr(parse, front, k, other);
        FirstErrKept(parse, raws, k, other);
      }
      if i: nat :| FirstErr(parse, raws, i, e) && i < n {
        assert FirstErr(parse, front, i, e);
      }
    }
  }

  lemma FirstErrKept(parse: string -> Result<FunctionArg, ParseError>, raws: seq<string>, i: nat, e: ParseError)
    requires raws != [] && FirstErr(parse, raws[..|raws| - 1], i, e)
    ensures FirstErr(parse, raws, i, e)
  {
    var front := raws[..|raws| - 1];
    assert forall k :: 0 <= k <= i ==> front[k] == raws[k];
  }

  ghost predicate FirstErr(parse: string -> Result<FunctionArg, ParseError>, raws: seq<string>, i: nat, e: ParseError) {
    i < |raws| && parse(raws[i]) == Err(e) && forall k :: 0 <= k < i ==> parse(raws[k]).Ok?
  }

  // ---------- lists ----------

  function ParseInner(inner: string): Result<seq<FunctionArg>, ParseError> {
    if Blank(inner) then Ok([]) else ParseAll(ParseArg, Split(inner, ','))
  }

  lemma ArgPartHasNoComma(part: string, arg: FunctionArg)
    requires ArgText(part, arg)
    ensures ',' !in part && !Blank(part)
  {
    var before, after :| Padded(part, before, arg.text, after);
    ArgIsSolid(arg);
    assert part[|before|] == arg.text[0];
  }

  lemma BlankJoin(parts: seq<string>)
    requires parts != [] && !Blank(parts[0])
    ensures !Blank(Joined(parts, ","))
  {
    var i :| 0 <= i < |parts[0]| && !IsWhitespace(parts[0][i]);
    assert Joined(parts, ",")[i] == parts[0][i];
  }

  lemma PartsAreSplit(inner: string, args: seq<FunctionArg>, parts: seq<string>)
    requires ArgParts(inner, args, parts) && args != []
    ensures Split(inner, ',') == parts && !Blank(inner)
  {
    forall i | 0 <= i < |parts| ensures ',' !in parts[i] && !Blank(parts[i]) {
      ArgPartHasNoComma(parts[i], args[i]);
    }
    SplitOf(parts, ',');
    BlankJoin(parts);
  }

  /** A list is parsed exactly when its parts are spelled as the arguments. */
  lemma ParseInnerIff(inner: string, args: seq<FunctionArg>)
    ensures ParseInner(inner) == Ok(args) <==> ArgsText(inner, args)
  {
    var parts := Split(inner, ',');
    SplitParts(inner, ',');
    ParseAllIff(ParseArg, parts, args);
    if !Blank(inner) && ParseInner(inner) == Ok(args) {
      forall i | 0 <= i < |args| ensures ArgText(parts[i], args[i]) {
        ParseArgIff(parts[i], args[i]);
      }
      assert ArgParts(inner, args, parts);
    }
    if args != [] && ArgsText(inner, args) {
      var spelled :| ArgParts(inner, args, spelled);
      PartsAreSplit(inner, args, spelled);
      forall i | 0 <= i < |args| ensures ParseArg(parts[i]) == Ok(args[i]) {
        ParseArgIff(parts[i], args[i]);
      }
    }
  }

  lemma FirstBadIsFirstErr(inner: string, parts: seq<string>, i: nat, e: ParseError)
    requires FirstBad(inner, parts, i) && Blamed(parts[i], e)
    ensures !Blank(inner) && Split(inner, ',') == parts && FirstErr(ParseArg, parts, i, e)
  {
    SplitOf(parts, ',');
    ParseArgErrIff(parts[i], e);
    forall k | 0 <= k < i ensures ParseArg(parts[k]).Ok? {
      assert IsArg(parts[k]);
      var arg :| ArgText(parts[k], arg);
      ParseArgIff(parts[k], arg);
    }
  }

  lemma FirstErrIsFirstBad(inner: string, parts: seq<string>, i: nat, e: ParseError)
    requires !Blank(inner) && Split(inner, ',') == parts && FirstErr(ParseArg, parts, i, e)
    ensures FirstBad(inner, parts, i) && Blamed(parts[i], e)
  {
    SplitParts(inner, ',');
    ParseArgErrIff(parts[i], e);
    forall k | 0 <= k < i ensures IsArg(parts[k]) {
      ParseArgIff(parts[k], ParseArg(parts[k]).value);
      assert ArgText(parts[k], ParseArg(parts[k]).value);
    }
  }

  /** A list is refused exactly for its first part that is no argument. */
  lemma ParseInnerErrIff(inner: string, e: ParseError)
    ensures ParseInner(inner) == Err(e) <==> exists part :: BadPart(inner, part) && Blamed(part, e)
  {
    var parts := Split(inner, ',');
    ParseAllErrIff(ParseArg, parts, e);
    if ParseInner(inner) == Err(e) {
      var i: nat :| FirstErr(ParseArg, parts, i, e);
      FirstErrIsFirstBad(inner, parts, i, e);
      assert BadPart(inner, parts[i]);
    }
    if part :| BadPart(inner, part) && Blamed(part, e) {
      var ps, i :| FirstBad(inner, ps, i) && ps[i] == part;
      FirstBadIsFirstErr(inner, ps, i, e);
    }
  }

  // ---------- calls ----------

  /** The answer for what follows the opening parenthesis. */
  function ParseBody(allowed: string -> bool, name: string, body: string): Result<Option<FunctionCall>, ParseError> {
    var close := FindLast(body, ')');
    if close < 0 then Err(Unclosed)
    else if !Blank(body[close + 1..]) then Err(TrailingText)
    else if !allowed(name) then Err(NotAllowed(name))
    else
      match ParseInner(body[..close])
      case Err(e) => Err(e)
      case Ok(args) => Ok(Some(FunctionCall(name, args)))
  }

  lemma CloseAt(body: string, inner: string, tail: string)
    requires body == inner + ")" + tail && ')' !in tail
    ensures FindLast(body, ')') == |inner| && body[..|inner|] == inner && body[|inner| + 1..] == tail
  {
    FindLastOf(inner, ')', tail);
  }

  lemma BlankHasNoParenthesis(s: string)
    requires Blank(s)
    ensures ')' !in s && '(' !in s
  {
  }

  lemma BodySplits(body: string)
    requires ')' in body
    ensures var close := FindLast(body, ')');
      && 0 <= close < |body| && body == body[..close] + ")" + body[close + 1..] && ')' !in body[close + 1..]
      && (Blank(body[close + 1..]) ==> Closed(body, body[..close], body[close + 1..]))
  {
    FindLastParts(body, ')');
  }

  lemma ClosedIsSplit(body: string, inner: string, tail: string)
    requires Closed(body, inner, tail)
    ensures ')' in body && FindLast(body, ')') == |inner| && body[..|inner|] == inner && body[|inner| + 1..] == tail
  {
    BlankHasNoParenthesis(tail);
    CloseAt(body, inner, tail);
    assert body[|inner|] == ')';
  }

  lemma NoneInBody(body: string)
    requires ')' !in body
    ensures FindLast(body, ')') < 0
  {
  }

  /** What the code answers is what the grammar says. */
  lemma BodyIsJudged(allowed: string -> bool, name: string, body: string)
    ensures Judged(allowed, name, body, ParseBody(allowed, name, body))
  {
    if ')' !in body {
      NoneInBody(body);
    } else {
      BodySplits(body);
      var close := FindLast(body, ')');
      var inner, tail := body[..close], body[close + 1..];
      if Blank(tail) && allowed(name) {
        match ParseInner(inner) {
          case Ok(args) =>
            ParseInnerIff(inner, args);
            assert Closed(body, inner, tail) && ArgsText(inner, args);
          case Err(e) =>
            ParseInnerErrIff(inner, e);
            assert e.EmptyArgument? || e.BadArgument?;
            var part :| BadPart(inner, part) && Blamed(part, e);
            assert Closed(body, inner, tail) && BadPart(inner, part) && Blamed(part, e);
        }
      }
    }
  }

  /** And the grammar says only one thing. */
  lemma JudgedIsParsed(allowed: string -> bool, name: string, body: string,
                       r: Result<Option<FunctionCall>, ParseError>)
    requires Judged(allowed, name, body, r)
    ensures ParseBody(allowed, name, body) == r
  {
    match r {
      case Ok(Some(call)) =>
        var inner, tail :| Closed(body, inner, tail) && ArgsText(inner, call.args);
        ClosedIsSplit(body, inner, tail);
        ParseInnerIff(inner, call.args);
      case Err(Unclosed) => NoneInBody(body);
      case Err(TrailingText) =>
        var inner, tail :| body == inner + ")" + tail && ')' !in tail && !Blank(tail);
        CloseAt(body, inner, tail);
      case Err(NotAllowed(n)) =>
        var inner, tail :| Closed(body, inner, tail);
        ClosedIsSplit(body, inner, tail);
      case Err(e) =>
        var inner, tail, part :| Closed(body, inner, tail) && BadPart(inner, part) && Blamed(part, e);
        ClosedIsSplit(body, inner, tail);
        ParseInnerErrIff(inner, e);
    }
  }

  // ---------- which texts are calls ----------

  predicate IsNameChar(c: char) { IsWordChar(c) || c == '.' }

  lemma {:induction false} NameChars(parts: seq<string>)
    requires forall i :: 0 <= i < |parts| ==> IsPlainIdentifier(parts[i])
    ensures var name := Joined(parts, "."); forall i :: 0 <= i < |name| ==> IsNameChar(name[i])
    ensures parts != [] ==> Joined(parts, ".") != []
  {
    if |parts| > 1 {
      NameChars(parts[1..]);
    }
    if parts != [] {
      assert forall i :: 0 <= i < |parts[0]| ==> IsWordChar(parts[0][i]);
    }
  }

  lemma NameCharsAreSolid(name: string)
    requires name != [] && forall i :: 0 <= i < |name| ==> IsNameChar(name[i])
    ensures Solid(name) && '(' !in name && ' ' !in name
  {
    assert IsNameChar(name[0]) && IsNameChar(name[|name| - 1]);
  }

  lemma IdentifiersSplit(parts: seq<string>)
    requires parts != [] && forall i :: 0 <= i < |parts| ==> IsPlainIdentifier(parts[i])
    ensures Split(Joined(parts, "."), '.') == parts
  {
    forall i | 0 <= i < |parts| ensures '.' !in parts[i] {
      IdentifierIsPlainText(parts[i]);
    }
    SplitOf(parts, '.');
  }

  /** A name is solid, and the code takes it for one. */
  lemma NameIsSolid(name: string)
    requires NameText(name)
    ensures name != [] && Solid(name) && '(' !in name && LooksLikeName(name)
  {
    var parts :| parts != [] && name == Joined(parts, ".") &&
      forall i :: 0 <= i < |parts| ==> IsPlainIdentifier(parts[i]);
    NameChars(parts);
    NameCharsAreSolid(name);
    IdentifiersSplit(parts);
  }

  lemma NameOfParts(name: string)
    requires LooksLikeName(name)
    ensures NameText(name)
  {
    SplitParts(name, '.');
    assert Split(name, '.') != [] && name == Joined(Split(name, '.'), ".");
  }

  lemma BodyAndMore(inner: string, tail: string, after: string)
    ensures inner + ")" + tail + after == inner + ")" + (tail + after)
  {
  }

  lemma BlankTailKeepsBody(allowed: string -> bool, name: string, body: string, after: string)
    requires Blank(after)
    ensures ParseBody(allowed, name, body + after) == ParseBody(allowed, name, body)
  {
    BlankHasNoParenthesis(after);
    if ')' !in body {
      NoneInBody(body);
      NoneInBody(body + after);
    } else {
      BodySplits(body);
      var close := FindLast(body, ')');
      var inner, tail := body[..close], body[close + 1..];
      BodyAndMore(inner, tail, after);
      CloseAt(body + after, inner, tail + after);
      BlankConcat(tail, after);
    }
  }

  lemma Regroup(a: string, b: string, c: string, d: string, e: string)
    ensures a + b + c + d + e == a + ((b + c) + d) + e
  {
  }

  /** Trimming a text that begins as a call keeps the name and takes blanks from the end of the rest. */
  lemma ShapeTrims(text: string, before: string, name: string, gap: string, body: string)
    returns (kept: string, after: string)
    requires NameText(name) && Opened(text, before, name, gap, body)
    ensures body == kept + after && Blank(after)
    ensures Trim(text) == (name + gap) + ['('] + kept
  {
    NameIsSolid(name);
    var front := (name + gap) + ['('];
    Regroup(before, name, gap, "(", body);
    assert front[0] == name[0] && front[|front| - 1] == '(';
    kept, after := TrimKeeps(before, front, body);
  }

  lemma ShapeLooksLikeCall(expr: string, name: string, gap: string, body: string)
    requires NameText(name) && Blank(gap) && expr == (name + gap) + ['('] + body
    ensures LooksLikeFunctionCall(expr)
    ensures var open := Find(expr, '('); Trim(expr[..open]) == name && expr[open + 1..] == body
  {
    NameIsSolid(name);
    BlankHasNoParenthesis(gap);
    FindConcat(name + gap, '(', body);
    assert expr[..|name + gap|] == [] + name + gap && expr[|name + gap| + 1..] == body;
    TrimOf([], name, gap);
  }

  /** The code reads the body of the trimmed text as the grammar reads that of the whole. */
  lemma ShapeParses(allowed: string -> bool, text: string, name: string, body: string)
    requires CallShape(text, name, body)
    ensures Parse(allowed, text) == ParseBody(allowed, name, body)
  {
    var before, gap :| Opened(text, before, name, gap, body);
    var kept, after := ShapeTrims(text, before, name, gap, body);
    ShapeLooksLikeCall(Trim(text), name, gap, kept);
    BlankTailKeepsBody(allowed, name, kept, after);
    BodyParses(allowed, name, kept);
  }

  lemma BodyParses(allowed: string -> bool, name: string, body: string)
    ensures ParseCall(allowed, name, body) == ParseBody(allowed, name, body)
  {
    var close := FindLast(body, ')');
    if close >= 0 {
      TrimIsEmptyIff(body[close + 1..]);
      TrimIsEmptyIff(body[..close]);
    }
  }

  lemma ShapeOf(text: string, b: string, expr: string, a: string, b': string, name: string, gap: string, body: string)
    requires text == b + expr + a && expr == (b' + name + gap) + ['('] + body
    requires Blank(b) && Blank(b') && Blank(gap) && NameText(name)
    ensures CallShape(text, name, body + a)
  {
    OuterBlanks(b, b', name, gap, body, a);
    BlankConcat(b, b');
    assert Opened(text, b + b', name, gap, body + a);
  }

  lemma LooksLikeCallIsShape(text: string) returns (name: string, body: string)
    requires LooksLikeFunctionCall(Trim(text))
    ensures CallShape(text, name, body)
  {
    var expr := Trim(text);
    var b, a := TrimParts(text);
    var b', gap, rest;
    name, b', gap, rest := CallParts(expr);
    ShapeOf(text, b, expr, a, b', name, gap, rest);
    body := rest + a;
  }

  lemma CallParts(expr: string) returns (name: string, b: string, gap: string, rest: string)
    requires LooksLikeFunctionCall(expr)
    ensures expr == (b + name + gap) + ['('] + rest && Blank(b) && Blank(gap) && NameText(name)
  {
    var open := Find(expr, '(');
    name, rest := Trim(expr[..open]), expr[open + 1..];
    b, gap := TrimParts(expr[..open]);
    NameOfParts(name);
    FindParts(expr, '(');
  }

  lemma OuterBlanks(b: string, b': string, name: string, gap: string, body: string, a: string)
    ensures b + ((b' + name + gap) + ['('] + body) + a == (b + b') + name + gap + "(" + (body + a)
  {
  }

  /** A text is left to be something else exactly when it does not begin as a call. */
  lemma NoCallIff(allowed: string -> bool, text: string)
    ensures Parse(allowed, text) == Ok(None) <==> forall name, body :: !CallShape(text, name, body)
  {
    if LooksLikeFunctionCall(Trim(text)) {
      var name, body := LooksLikeCallIsShape(text);
    }
    if name, body :| CallShape(text, name, body) {
      ShapeParses(allowed, text, name, body);
    }
  }

  /** A text that begins as a call is answered by what the grammar says of the rest of it, and by nothing else. */
  lemma ParseIff(allowed: string -> bool, text: string, name: string, body: string,
                 r: Result<Option<FunctionCall>, ParseError>)
    requires CallShape(text, name, body)
    ensures Parse(allowed, text) == r <==> Judged(allowed, name, body, r)
  {
    ShapeParses(allowed, text, name, body);
    BodyIsJudged(allowed, name, body);
    if Judged(allowed, name, body, r) {
      JudgedIsParsed(allowed, name, body, r);
    }
  }

  /** The whole text of a call: blanks, its name, blanks, its arguments between parentheses, blanks. */
  ghost predicate CallText(text: string, call: FunctionCall) {
    NameText(call.name) && exists before, gap, inner, tail ::
      Opened(text, before, call.name, gap, inner + ")" + tail) && Blank(tail) && ArgsText(inner, call.args)
  }

  /** A text is accepted as a call exactly when its name is allowed and the text spells it. */
  lemma AcceptedIff(allowed: string -> bool, text: string, call: FunctionCall)
    ensures Parse(allowed, text) == Ok(Some(call)) <==> allowed(call.name) && CallText(text, call)
  {
    if Parse(allowed, text) == Ok(Some(call)) {
      NoCallIff(allowed, text);
      var name, body :| CallShape(text, name, body);
      ParseIff(allowed, text, name, body, Ok(Some(call)));
      var inner, tail :| Closed(body, inner, tail) && ArgsText(inner, call.args);
      var before, gap :| Opened(text, before, name, gap, body);
      assert Opened(text, before, call.name, gap, inner + ")" + tail);
    }
    if allowed(call.name) && CallText(text, call) {
      var before, gap, inner, tail :|
        Opened(text, before, call.name, gap, inner + ")" + tail) && Blank(tail) && ArgsText(inner, call.args);
      var body := inner + ")" + tail;
      assert CallShape(text, call.name, body) && Closed(body, inner, tail);
      ParseIff(allowed, text, call.name, body, Ok(Some(call)));
    }
  }
}
