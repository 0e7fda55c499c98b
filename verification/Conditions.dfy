/** What one condition of the generated WHERE text says when it is read by the predicates of section 8 of
    ISO/IEC 9075:1992, and which rows the whole text selects: `build_where_clause` of
    crates/graphnight-sql/src/generator.rs with the operators of crates/graphnight-core/src/models.rs. */
module Conditions {
  import opened Results
  import opened Queries
  import opened Statements
  import opened Precedence
  import opened Quoting
  import opened FunctionCalls

  // ---------- the predicates of SQL ----------

  datatype Comparator = Equal | NotEqual | Less | LessOrEqual | Greater | GreaterOrEqual

  datatype Relation = IntersectsIt | IsWithinIt | ContainsIt

  datatype Predicate =
    | Comparison(column: string, comparator: Comparator, operand: Token)
    | Matching(column: string, anyCase: bool, operand: Token)
    | Membership(column: string, negated: bool, operands: seq<Token>)
    | Range(column: string, negated: bool, low: Token, high: Token)
    | NullTest(column: string, negated: bool)
    | Spatial(relation: Relation, column: string, fromWkt: bool, operand: Token)

  // ---------- the reader ----------

  predicate IsIdentQuote(c: char) { c == '"' || c == '`' }

  /** Inside which quotes the next character stands. */
  function Toggled(open: Option<char>, c: char): Option<char> {
    if open.None? then (if IsIdentQuote(c) then Some(c) else None)
    else if open.value == c then None
    else open
  }

  function OpenAfter(text: string, open: Option<char>): Option<char> {
    if text == [] then open else OpenAfter(text[1..], Toggled(open, text[0]))
  }

  /** The end of the column a text begins with: the first blank or comma outside quotes. */
  function ColumnEnd(text: string, open: Option<char>): (n: nat)
    ensures n <= |text|
  {
    if text == [] || (open.None? && (text[0] == ' ' || text[0] == ',')) then 0
    else ColumnEnd(text[1..], Toggled(open, text[0])) + 1
  }

  /** A column that is read as one word, as every quoted identifier behind a plain alias is. */
  predicate OneWord(column: string) {
    ColumnEnd(column, None) == |column| && OpenAfter(column, None) == None
  }

  predicate IsOperand(token: Token) { token.Placeholder? || token.Literal? }

  /** Section 8.2, with the spelling of "not equal" that all four dialects know. */
  function ReadComparator(text: string): Option<Comparator> {
    if text == " = " then Some(Equal)
    else if text == " != " then Some(NotEqual)
    else if text == " < " then Some(Less)
    else if text == " <= " then Some(LessOrEqual)
    else if text == " > " then Some(Greater)
    else if text == " >= " then Some(GreaterOrEqual)
    else None
  }

  /** The rest of an IN list: at least one operand, commas between, a closing parenthesis. */
  function ReadList(tokens: seq<Token>): Option<seq<Token>> {
    if |tokens| < 2 || !IsOperand(tokens[0]) then None
    else if tokens[1..] == [Verbatim(")")] then Some([tokens[0]])
    else if tokens[1] != Verbatim(", ") then None
    else
      match ReadList(tokens[2..])
      case None => None
      case Some(more) => Some([tokens[0]] + more)
  }

  function ReadRange(column: string, negated: bool, rest: seq<Token>): Option<Predicate> {
    if |rest| == 3 && IsOperand(rest[0]) && rest[1] == Verbatim(" AND ") && IsOperand(rest[2]) then
      Some(Range(column, negated, rest[0], rest[2]))
    else None
  }

  function ReadMembership(column: string, negated: bool, rest: seq<Token>): Option<Predicate> {
    match ReadList(rest)
    case None => None
    case Some(operands) => Some(Membership(column, negated, operands))
  }

  function ReadBinary(column: string, op: string, rest: seq<Token>): Option<Predicate> {
    if |rest| != 1 || !IsOperand(rest[0]) then None
    else if op == " LIKE " then Some(Matching(column, false, rest[0]))
    else if op == " ILIKE " then Some(Matching(column, true, rest[0]))
    else
      match ReadComparator(op)
      case None => None
      case Some(comparator) => Some(Comparison(column, comparator, rest[0]))
  }

  /** What follows a column: sections 8.2 to 8.6. */
  function ReadInfix(column: string, op: string, rest: seq<Token>): Option<Predicate> {
    if op == " IS NULL" then (if rest == [] then Some(NullTest(column, false)) else None)
    else if op == " IS NOT NULL" then (if rest == [] then Some(NullTest(column, true)) else None)
    else if op == " IN (" then ReadMembership(column, false, rest)
    else if op == " NOT IN (" then ReadMembership(column, true, rest)
    else if op == " BETWEEN " then ReadRange(column, false, rest)
    else if op == " NOT BETWEEN " then ReadRange(column, true, rest)
    else ReadBinary(column, op, rest)
  }

  function ReadRelation(name: string): Option<Relation> {
    if name == "ST_Intersects(" then Some(IntersectsIt)
    else if name == "ST_Within(" then Some(IsWithinIt)
    else if name == "ST_Contains(" then Some(ContainsIt)
    else None
  }

  /** Reads the arguments of a spatial function: a column and a geometry made from one operand. */
  function ReadArguments(relation: Relation, text: string, operand: Token): Option<Predicate> {
    var n := ColumnEnd(text, None);
    if text[n..] == ", ST_GeomFromText(CAST(" then Some(Spatial(relation, text[..n], true, operand))
    else if text[n..] == ", ST_GeomFromGeoJSON(CAST(" then Some(Spatial(relation, text[..n], false, operand))
    else None
  }

  function AfterParenthesis(text: string): (n: nat)
    ensures n <= |text|
  {
    if text == [] then 0 else if text[0] == '(' then 1 else AfterParenthesis(text[1..]) + 1
  }

  function ReadSpatial(text: string, operand: Token): Option<Predicate> {
    var n := AfterParenthesis(text);
    match ReadRelation(text[..n])
    case None => None
    case Some(relation) => ReadArguments(relation, text[n..], operand)
  }

  const CLOSE_GEOMETRY: Token := Verbatim(" AS VARCHAR)))")

  /** Reads the tokens of one condition as a predicate, if SQL has it. */
  function ReadPredicate(tokens: seq<Token>): Option<Predicate> {
    if tokens == [] || !tokens[0].Verbatim? then None
    else if |tokens| == 3 && tokens[2] == CLOSE_GEOMETRY then
      if IsOperand(tokens[1]) then ReadSpatial(tokens[0].text, tokens[1]) else None
    else
      var text := tokens[0].text;
      var n := ColumnEnd(text, None);
      ReadInfix(text[..n], text[n..], tokens[1..])
  }

  // ---------- reading columns ----------

  lemma {:induction false} ColumnEndsAt(column: string, open: Option<char>, rest: string)
    requires ColumnEnd(column, open) == |column|
    ensures ColumnEnd(column + rest, open) == |column| + ColumnEnd(rest, OpenAfter(column, open))
    ensures OpenAfter(column + rest, open) == OpenAfter(rest, OpenAfter(column, open))
    decreases |column|
  {
    if column == [] {
      assert column + rest == rest;
    } else {
      assert (column + rest)[1..] == column[1..] + rest;
      ColumnEndsAt(column[1..], Toggled(open, column[0]), rest);
    }
  }

  lemma WordThen(column: string, rest: string)
    requires OneWord(column) && rest != [] && (rest[0] == ' ' || rest[0] == ',')
    ensures var text := column + rest;
      ColumnEnd(text, None) == |column| && text[..|column|] == column && text[|column|..] == rest
  {
    ColumnEndsAt(column, None, rest);
  }

  lemma {:induction false} DoubledStaysOpen(s: string, quote: char)
    requires IsIdentQuote(quote)
    ensures ColumnEnd(Doubled(s, quote), Some(quote)) == |Doubled(s, quote)|
    ensures OpenAfter(Doubled(s, quote), Some(quote)) == Some(quote)
  {
    if s != [] {
      DoubledStaysOpen(s[1..], quote);
      var tail := Doubled(s[1..], quote);
      if s[0] == quote {
        assert Doubled(s, quote) == [quote, quote] + tail;
        assert ([quote, quote] + tail)[1..] == [quote] + tail && ([quote] + tail)[1..] == tail;
      } else {
        assert Doubled(s, quote) == [s[0]] + tail;
        assert ([s[0]] + tail)[1..] == tail;
      }
    }
  }

  lemma {:induction false} PlainIsOneWord(s: string)
    requires forall i :: 0 <= i < |s| ==> IsWordChar(s[i]) || s[i] == '.'
    ensures OneWord(s)
  {
    if s != [] {
      PlainIsOneWord(s[1..]);
    }
  }

  /** Whatever a column is called, behind a plain alias and in its quotes it is one word. */
  lemma QualifiedIsOneWord(alias: string, column: string, quote: char)
    requires IsPlainIdentifier(alias) && IsIdentQuote(quote)
    ensures OneWord(alias + "." + QuoteIdent(column, quote))
  {
    var front, body := alias + ".", Doubled(column, quote);
    assert forall i :: 0 <= i < |alias| ==> IsWordChar(alias[i]);
    PlainIsOneWord(front);
    assert QuoteIdent(column, quote) == [quote] + (body + [quote]);
    assert ([quote] + (body + [quote]))[1..] == body + [quote];
    DoubledStaysOpen(column, quote);
    ColumnEndsAt(body, Some(quote), [quote]);
    ColumnEndsAt(front, None, QuoteIdent(column, quote));
  }

  // ---------- every condition reads as its filter ----------

  /** The tokens that stand for the values of a filter. */
  function Operands(dialect: Dialect, mode: ValueMode, bound: nat, values: seq<Value>): (r: seq<Token>)
    ensures |r| == |values|
  {
    seq(|values|, i requires 0 <= i < |values| => RenderValue(dialect, mode, bound + i, values[i]).0)
  }

  /** There is a predicate for the filter in SQL, written as the generator writes it. */
  predicate Expressible(filter: Filter) {
    && !filter.operator.IsRange()
    && (filter.operator.IsMembership() && filter.value.Array? ==> filter.value.items != [])
  }

  /** The predicate a filter stands for. */
  function PredicateOf(column: string, filter: Filter, operands: seq<Token>): Predicate
    requires |operands| == |ValuesOf(filter)|
    requires filter.operator.IsRange() ==> |operands| == 2
  {
    match filter.operator
    case Eq => Comparison(column, Equal, operands[0])
    case Neq => Comparison(column, NotEqual, operands[0])
    case Gt => Comparison(column, Greater, operands[0])
    case Gte => Comparison(column, GreaterOrEqual, operands[0])
    case Lt => Comparison(column, Less, operands[0])
    case Lte => Comparison(column, LessOrEqual, operands[0])
    case Like => Matching(column, false, operands[0])
    case ILike => Matching(column, true, operands[0])
    case In => Membership(column, false, operands)
    case NotIn => Membership(column, true, operands)
    case IsNull => NullTest(column, false)
    case IsNotNull => NullTest(column, true)
    case Between => Range(column, false, operands[0], operands[1])
    case NotBetween => Range(column, true, operands[0], operands[1])
    case Intersects => Spatial(IntersectsIt, column, filter.value.String?, operands[0])
    case Within => Spatial(IsWithinIt, column, filter.value.String?, operands[0])
    case Contains => Spatial(ContainsIt, column, filter.value.String?, operands[0])
  }

  lemma InfixReads(column: string, op: string, rest: seq<Token>)
    requires OneWord(column) && op != [] && op[0] == ' ' && (|rest| == 2 ==> rest[1] != CLOSE_GEOMETRY)
    ensures ReadPredicate([Verbatim(column + op)] + rest) == ReadInfix(column, op, rest)
  {
    var tokens := [Verbatim(column + op)] + rest;
    WordThen(column, op);
    assert tokens[1..] == rest;
  }

  lemma ListGrows(dialect: Dialect, mode: ValueMode, bound: nat, items: seq<Value>)
    requires |items| > 1
    ensures var n := |items| - 1;
      ListTokens(dialect, mode, bound, items) ==
      ListTokens(dialect, mode, bound, items[..n]) +
        [Verbatim(", "), RenderValue(dialect, mode, bound + n, items[n]).0]
  {
    var n := |items| - 1;
    assert Separator(n, Verbatim(", ")) == [Verbatim(", ")];
  }

  lemma {:induction false} ListFromFront(dialect: Dialect, mode: ValueMode, bound: nat, items: seq<Value>)
    requires items != []
    ensures ListTokens(dialect, mode, bound, items) ==
      [RenderValue(dialect, mode, bound, items[0]).0] +
        if |items| == 1 then [] else [Verbatim(", ")] + ListTokens(dialect, mode, bound + 1, items[1..])
  {
    var n := |items| - 1;
    if n > 0 {
      ListFromFront(dialect, mode, bound, items[..n]);
      ListGrows(dialect, mode, bound, items);
      if n > 1 {
        assert items[1..][..n - 1] == items[..n][1..] && items[1..][n - 1] == items[n];
        ListGrows(dialect, mode, bound + 1, items[1..]);
      }
    }
  }

  lemma {:induction false} ListReads(dialect: Dialect, mode: ValueMode, bound: nat, items: seq<Value>)
    requires items != []
    ensures ReadList(ListTokens(dialect, mode, bound, items) + [Verbatim(")")]) ==
      Some(Operands(dialect, mode, bound, items))
    decreases |items|
  {
    var tokens := ListTokens(dialect, mode, bound, items) + [Verbatim(")")];
    ListFromFront(dialect, mode, bound, items);
    if |items| == 1 {
      assert tokens[1..] == [Verbatim(")")];
      assert Operands(dialect, mode, bound, items) == [tokens[0]];
    } else {
      var rest := ListTokens(dialect, mode, bound + 1, items[1..]) + [Verbatim(")")];
      ListReads(dialect, mode, bound + 1, items[1..]);
      assert tokens == [tokens[0], Verbatim(", ")] + rest;
      assert tokens[2..] == rest && rest != [];
      assert Operands(dialect, mode, bound, items) == [tokens[0]] + Operands(dialect, mode, bound + 1, items[1..]);
    }
  }

  /** The reading of a condition's tokens, where SQL has it. */
  ghost predicate ReadsAsFilter(dialect: Dialect, mode: ValueMode, bound: nat, column: string, filter: Filter) {
    var condition := Condition(dialect, mode, bound, column, OperatorText(filter.operator), filter);
    && condition.Ok?
    && ReadPredicate(condition.value.0) ==
       if Expressible(filter) then
         Some(PredicateOf(column, filter, Operands(dialect, mode, bound, ValuesOf(filter))))
       else None
  }

  lemma {:induction false} OpensAt(name: string, rest: string)
    requires '(' !in name
    ensures var text := name + "(" + rest;
      AfterParenthesis(text) == |name| + 1 && text[..|name| + 1] == name + "(" && text[|name| + 1..] == rest
  {
    var text := name + "(" + rest;
    if name != [] {
      OpensAt(name[1..], rest);
      assert text[1..] == name[1..] + "(" + rest;
    }
  }

  function Opening(fromWkt: bool): string {
    ", " + GeometryConstructor(fromWkt) + "(CAST("
  }

  lemma OpeningTexts()
    ensures Opening(true) == ", ST_GeomFromText(CAST("
    ensures Opening(false) == ", ST_GeomFromGeoJSON(CAST("
    ensures |Opening(true)| != |Opening(false)|
  {
  }

  lemma ArgumentsRead(relation: Relation, column: string, fromWkt: bool, operand: Token)
    requires OneWord(column)
    ensures ReadArguments(relation, column + Opening(fromWkt), operand) ==
      Some(Spatial(relation, column, fromWkt, operand))
  {
    OpeningTexts();
    WordThen(column, Opening(fromWkt));
  }

  lemma SpatialText(op: string, column: string, fromWkt: bool)
    ensures op + "(" + column + ", " + GeometryConstructor(fromWkt) + "(CAST(" ==
      op + "(" + (column + Opening(fromWkt))
  {
  }

  lemma SpatialReads(op: string, relation: Relation, column: string, fromWkt: bool, operand: Token)
    requires OneWord(column) && IsOperand(operand)
    requires '(' !in op && ReadRelation(op + "(") == Some(relation)
    ensures var before := op + "(" + (column + Opening(fromWkt));
      ReadPredicate([Verbatim(before), operand, CLOSE_GEOMETRY]) == Some(Spatial(relation, column, fromWkt, operand))
  {
    OpensAt(op, column + Opening(fromWkt));
    ArgumentsRead(relation, column, fromWkt, operand);
  }

  function RelationOf(operator: FilterOperator): Relation {
    if operator.Intersects? then IntersectsIt else if operator.Within? then IsWithinIt else ContainsIt
  }

  lemma RelationNames(operator: FilterOperator)
    requires operator.IsSpatial()
    ensures '(' !in OperatorText(operator)
    ensures ReadRelation(OperatorText(operator) + "(") == Some(RelationOf(operator))
  {
    match operator {
      case Intersects => assert OperatorText(operator) + "(" == "ST_Intersects(";
      case Within => assert OperatorText(operator) + "(" == "ST_Within(";
      case Contains => assert OperatorText(operator) + "(" == "ST_Contains(";
    }
  }

  lemma SpatialForm(dialect: Dialect, mode: ValueMode, bound: nat, column: string, op: string, filter: Filter)
    requires Refusal(dialect, filter).None? && filter.operator.IsSpatial()
    ensures var (token, values) := RenderValue(dialect, mode, bound, filter.value);
      Condition(dialect, mode, bound, column, op, filter) ==
        Ok(([Verbatim(op + "(" + (column + Opening(filter.value.String?))), token, CLOSE_GEOMETRY], values))
  {
    SpatialText(op, column, filter.value.String?);
  }

  lemma ReadAs(dialect: Dialect, mode: ValueMode, bound: nat, column: string, filter: Filter, tokens: seq<Token>,
               p: Predicate)
    requires var condition := Condition(dialect, mode, bound, column, OperatorText(filter.operator), filter);
      condition.Ok? && condition.value.0 == tokens
    requires filter.operator.IsRange() ==> |ValuesOf(filter)| == 2
    requires p == PredicateOf(column, filter, Operands(dialect, mode, bound, ValuesOf(filter)))
    requires ReadPredicate(tokens) == if Expressible(filter) then Some(p) else None
    ensures ReadsAsFilter(dialect, mode, bound, column, filter)
  {
  }

  lemma SpatialPredicate(column: string, filter: Filter, operand: Token)
    requires filter.operator.IsSpatial()
    ensures ValuesOf(filter) == [filter.value]
    ensures PredicateOf(column, filter, [operand]) ==
      Spatial(RelationOf(filter.operator), column, filter.value.String?, operand)
  {
  }

  lemma SpatialConditionReads(dialect: Dialect, mode: ValueMode, bound: nat, column: string, filter: Filter)
    requires OneWord(column) && Refusal(dialect, filter).None? && filter.operator.IsSpatial()
    ensures ReadsAsFilter(dialect, mode, bound, column, filter)
  {
    var op, operand := OperatorText(filter.operator), RenderValue(dialect, mode, bound, filter.value).0;
    RelationNames(filter.operator);
    SpatialForm(dialect, mode, bound, column, op, filter);
    SpatialReads(op, RelationOf(filter.operator), column, filter.value.String?, operand);
    SpatialPredicate(column, filter, operand);
    assert Operands(dialect, mode, bound, [filter.value]) == [operand];
    ReadAs(dialect, mode, bound, column, filter,
           [Verbatim(op + "(" + (column + Opening(filter.value.String?))), operand, CLOSE_GEOMETRY],
           Spatial(RelationOf(filter.operator), column, filter.value.String?, operand));
  }

  lemma Apart(column: string, op: string, after: string)
    ensures column + " " + op + after == column + (" " + op + after)
  {
  }

  lemma MembershipReads(column: string, negated: bool, rest: seq<Token>)
    requires OneWord(column) && (|rest| == 2 ==> rest[1] != CLOSE_GEOMETRY)
    ensures ReadPredicate([Verbatim(column + (if negated then " NOT IN (" else " IN ("))] + rest) ==
      ReadMembership(column, negated, rest)
  {
    InfixReads(column, if negated then " NOT IN (" else " IN (", rest);
  }

  lemma MembershipText(operator: FilterOperator)
    requires operator.IsMembership()
    ensures " " + OperatorText(operator) + " (" == if operator.NotIn? then " NOT IN (" else " IN ("
  {
  }

  lemma MembershipPredicate(column: string, filter: Filter, operands: seq<Token>)
    requires filter.operator.IsMembership() && filter.value.Array? && |operands| == |filter.value.items|
    ensures ValuesOf(filter) == filter.value.items
    ensures PredicateOf(column, filter, operands) == Membership(column, filter.operator.NotIn?, operands)
    ensures Expressible(filter) <==> filter.value.items != []
  {
  }

  lemma ListCloses(dialect: Dialect, mode: ValueMode, bound: nat, items: seq<Value>)
    ensures var rest := ListTokens(dialect, mode, bound, items) + [Verbatim(")")];
      && rest[|rest| - 1] != CLOSE_GEOMETRY
      && ReadList(rest) == if items == [] then None else Some(Operands(dialect, mode, bound, items))
  {
    if items != [] {
      ListReads(dialect, mode, bound, items);
    }
  }

  lemma MembershipTokens(dialect: Dialect, mode: ValueMode, bound: nat, column: string, filter: Filter)
    requires Refusal(dialect, filter).None? && filter.operator.IsMembership()
    ensures var opening := if filter.operator.NotIn? then " NOT IN (" else " IN (";
      var condition := Condition(dialect, mode, bound, column, OperatorText(filter.operator), filter);
      condition.Ok? && condition.value.0 ==
        [Verbatim(column + opening)] + (ListTokens(dialect, mode, bound, filter.value.items) + [Verbatim(")")])
  {
    MembershipForm(dialect, mode, column, OperatorText(filter.operator), bound, filter);
    MembershipText(filter.operator);
    Apart(column, OperatorText(filter.operator), " (");
  }

  lemma MembershipConditionReads(dialect: Dialect, mode: ValueMode, bound: nat, column: string, filter: Filter)
    requires OneWord(column) && Refusal(dialect, filter).None? && filter.operator.IsMembership()
    ensures ReadsAsFilter(dialect, mode, bound, column, filter)
  {
    var items, opening := filter.value.items, if filter.operator.NotIn? then " NOT IN (" else " IN (";
    var rest := ListTokens(dialect, mode, bound, items) + [Verbatim(")")];
    var operands := Operands(dialect, mode, bound, items);
    MembershipTokens(dialect, mode, bound, column, filter);
    ListCloses(dialect, mode, bound, items);
    MembershipReads(column, filter.operator.NotIn?, rest);
    MembershipPredicate(column, filter, operands);
    ReadAs(dialect, mode, bound, column, filter, [Verbatim(column + opening)] + rest,
           Membership(column, filter.operator.NotIn?, operands));
  }

  lemma RangeForm(dialect: Dialect, mode: ValueMode, bound: nat, column: string, op: string, filter: Filter)
    requires Refusal(dialect, filter).None? && filter.operator.IsRange()
    ensures var operands := Operands(dialect, mode, bound, ValuesOf(filter));
      var condition := Condition(dialect, mode, bound, column, op, filter);
      && condition.Ok? && |operands| == 2
      && condition.value.0 ==
         [Verbatim(column + " " + op + " BETWEEN ")] + [operands[0], Verbatim(" AND "), operands[1]]
  {
  }

  lemma RangeTexts(operator: FilterOperator)
    requires operator.IsRange()
    ensures |" " + OperatorText(operator) + " BETWEEN "| > 14
    ensures " " + OperatorText(operator) + " " == if operator.Between? then " BETWEEN " else " NOT BETWEEN "
  {
  }

  lemma LongIsNoInfix(column: string, op: string, rest: seq<Token>)
    requires |op| > 14 && |rest| != 1
    ensures ReadInfix(column, op, rest) == None
  {
  }

  lemma RangeConditionReads(dialect: Dialect, mode: ValueMode, bound: nat, column: string, filter: Filter)
    requires OneWord(column) && Refusal(dialect, filter).None? && filter.operator.IsRange()
    ensures ReadsAsFilter(dialect, mode, bound, column, filter)
  {
    var op, operands := OperatorText(filter.operator), Operands(dialect, mode, bound, ValuesOf(filter));
    RangeForm(dialect, mode, bound, column, op, filter);
    RangeTexts(filter.operator);
    Apart(column, op, " BETWEEN ");
    InfixReads(column, " " + op + " BETWEEN ", [operands[0], Verbatim(" AND "), operands[1]]);
    LongIsNoInfix(column, " " + op + " BETWEEN ", [operands[0], Verbatim(" AND "), operands[1]]);
  }

  lemma NullConditionReads(dialect: Dialect, mode: ValueMode, bound: nat, column: string, filter: Filter)
    requires OneWord(column) && filter.operator.IsValueless()
    ensures ReadsAsFilter(dialect, mode, bound, column, filter)
  {
    var op := OperatorText(filter.operator);
    Apart(column, op, "");
    assert column + " " + op + "" == column + " " + op;
    assert " " + op + "" == if filter.operator.IsNull? then " IS NULL" else " IS NOT NULL";
    InfixReads(column, " " + op + "", []);
    assert [Verbatim(column + " " + op)] == [Verbatim(column + " " + op)] + [];
  }

  /** The text between column and operand. */
  function Infix(operator: FilterOperator): string {
    " " + OperatorText(operator) + " "
  }

  lemma InfixTexts(operator: FilterOperator)
    requires !operator.IsSpatial() && !operator.IsMembership() && !operator.IsRange() && !operator.IsValueless()
    ensures operator.Eq? ==> Infix(operator) == " = "
    ensures operator.Neq? ==> Infix(operator) == " != "
    ensures operator.Gt? ==> Infix(operator) == " > "
    ensures operator.Gte? ==> Infix(operator) == " >= "
    ensures operator.Lt? ==> Infix(operator) == " < "
    ensures operator.Lte? ==> Infix(operator) == " <= "
    ensures operator.Like? ==> Infix(operator) == " LIKE "
    ensures operator.ILike? ==> Infix(operator) == " ILIKE "
  {
  }

  lemma BinaryReads(column: string, filter: Filter, operand: Token)
    requires var operator := filter.operator;
      !operator.IsSpatial() && !operator.IsMembership() && !operator.IsRange() && !operator.IsValueless()
    requires IsOperand(operand)
    ensures ReadInfix(column, Infix(filter.operator), [operand]) == Some(PredicateOf(column, filter, [operand]))
  {
    InfixTexts(filter.operator);
  }

  lemma PlainConditionReads(dialect: Dialect, mode: ValueMode, bound: nat, column: string, filter: Filter)
    requires OneWord(column)
    requires var operator := filter.operator;
      !operator.IsSpatial() && !operator.IsMembership() && !operator.IsRange() && !operator.IsValueless()
    ensures ReadsAsFilter(dialect, mode, bound, column, filter)
  {
    var op, operand := OperatorText(filter.operator), RenderValue(dialect, mode, bound, filter.value).0;
    Apart(column, op, " ");
    InfixReads(column, Infix(filter.operator), [operand]);
    BinaryReads(column, filter, operand);
    assert [Verbatim(column + " " + op + " "), operand] == [Verbatim(column + Infix(filter.operator))] + [operand];
    assert Operands(dialect, mode, bound, ValuesOf(filter)) == [operand];
  }

  /** In either mode, the tokens of an accepted filter read as the predicate the filter stands for, on its own
      column and its own operands, exactly when it is not a range and its list, if it has one, is not empty.
      SQL has no predicate with the keyword BETWEEN twice, and none with an empty list. */
  lemma ConditionReads(dialect: Dialect, mode: ValueMode, bound: nat, column: string, filter: Filter)
    requires OneWord(column) && Refusal(dialect, filter).None?
    ensures ReadsAsFilter(dialect, mode, bound, column, filter)
  {
    if filter.operator.IsSpatial() {
      SpatialConditionReads(dialect, mode, bound, column, filter);
    } else if filter.operator.IsMembership() {
      MembershipConditionReads(dialect, mode, bound, column, filter);
    } else if filter.operator.IsRange() {
      RangeConditionReads(dialect, mode, bound, column, filter);
    } else if filter.operator.IsValueless() {
      NullConditionReads(dialect, mode, bound, column, filter);
    } else {
      PlainConditionReads(dialect, mode, bound, column, filter);
    }
  }

  lemma RangePredicate(column: string, filter: Filter, operands: seq<Token>)
    requires filter.operator.IsRange() && |operands| == |ValuesOf(filter)| == 2
    ensures PredicateOf(column, filter, operands) ==
      Range(column, filter.operator.NotBetween?, operands[0], operands[1])
  {
  }

  lemma RangeReads(column: string, negated: bool, low: Token, high: Token)
    requires OneWord(column) && IsOperand(low) && IsOperand(high)
    ensures var op := if negated then " NOT BETWEEN " else " BETWEEN ";
      ReadPredicate([Verbatim(column + op)] + [low, Verbatim(" AND "), high]) ==
        Some(Range(column, negated, low, high))
  {
    InfixReads(column, if negated then " NOT BETWEEN " else " BETWEEN ", [low, Verbatim(" AND "), high]);
  }

  /** The repeated keyword is all that is wrong with a range: with `BETWEEN` once, the same operands read as
      the range the filter stands for. */
  lemma RangeRepeatsKeyword(dialect: Dialect, mode: ValueMode, bound: nat, column: string, filter: Filter)
    requires OneWord(column) && Refusal(dialect, filter).None? && filter.operator.IsRange()
    ensures var tokens := Condition(dialect, mode, bound, column, OperatorText(filter.operator), filter).value.0;
      var operands := Operands(dialect, mode, bound, ValuesOf(filter));
      var rest := [operands[0], Verbatim(" AND "), operands[1]];
      && tokens == [Verbatim(column + " " + OperatorText(filter.operator) + " BETWEEN ")] + rest
      && ReadPredicate([Verbatim(column + " " + OperatorText(filter.operator) + " ")] + rest) ==
         Some(PredicateOf(column, filter, operands))
  {
    var op, operands := OperatorText(filter.operator), Operands(dialect, mode, bound, ValuesOf(filter));
    RangeForm(dialect, mode, bound, column, op, filter);
    RangeTexts(filter.operator);
    Apart(column, op, " ");
    RangeReads(column, filter.operator.NotBetween?, operands[0], operands[1]);
    RangePredicate(column, filter, operands);
  }

  // ---------- what a predicate means ----------

  /** A geometry: of the row, or made from a text. */
  datatype Geometry = Stored(value: Value) | FromWkt(text: Value) | FromGeoJson(text: Value)

  /** How a database compares values: how two are ordered (nothing when that is unknown), whether one is like a
      pattern, whether one is null, whether two geometries intersect and whether one lies within another. */
  datatype Database = Database(
    order: (Value, Value) -> Option<int>,
    like: (Value, Value, bool) -> Truth,
    isNull: Value -> bool,
    intersect: (Geometry, Geometry) -> Truth,
    within: (Geometry, Geometry) -> Truth)

  function Decided(b: bool): Truth { if b then True else False }

  function Negation(t: Truth): Truth {
    match t case True => False case False => True case Unknown => Unknown
  }

  /** Section 8.2: whether a comparison holds of two values ordered like `order` and zero. */
  predicate Compares(comparator: Comparator, order: int) {
    match comparator
    case Equal => order == 0
    case NotEqual => order != 0
    case Less => order < 0
    case LessOrEqual => order <= 0
    case Greater => order > 0
    case GreaterOrEqual => order >= 0
  }

  function Compared(db: Database, l: Value, comparator: Comparator, r: Value): Truth {
    match db.order(l, r)
    case None => Unknown
    case Some(order) => Decided(Compares(comparator, order))
  }

  /** Section 8.4: a list of values means a disjunction of equalities. */
  function AnyEqual(db: Database, l: Value, values: seq<Value>): Truth {
    if values == [] then False
    else Either(Compared(db, l, Equal, values[0]), AnyEqual(db, l, values[1..]))
  }

  function Negated(negated: bool, t: Truth): Truth { if negated then Negation(t) else t }

  /** The value a token stands for, given the parameters. */
  function Operand(params: seq<Value>, token: Token): Value {
    if token.Placeholder? && 1 <= token.index <= |params| then params[token.index - 1] else Null
  }

  function OperandValues(params: seq<Value>, tokens: seq<Token>): (r: seq<Value>)
    ensures |r| == |tokens|
  {
    seq(|tokens|, i requires 0 <= i < |tokens| => Operand(params, tokens[i]))
  }

  /** `ST_Within(a, b)`: a lies within b; `ST_Contains(a, b)`: b lies within a (ISO/IEC 13249-3). */
  function Related(db: Database, relation: Relation, a: Geometry, b: Geometry): Truth {
    match relation
    case IntersectsIt => db.intersect(a, b)
    case IsWithinIt => db.within(a, b)
    case ContainsIt => db.within(b, a)
  }

  /** The truth of a predicate in a row. */
  function Truthful(db: Database, row: string -> Value, params: seq<Value>, p: Predicate): Truth {
    match p
    case Comparison(column, comparator, operand) => Compared(db, row(column), comparator, Operand(params, operand))
    case Matching(column, anyCase, operand) => db.like(row(column), Operand(params, operand), anyCase)
    case Membership(column, negated, operands) =>
      Negated(negated, AnyEqual(db, row(column), OperandValues(params, operands)))
    case Range(column, negated, low, high) =>
      Negated(negated, Both(Compared(db, row(column), GreaterOrEqual, Operand(params, low)),
                            Compared(db, row(column), LessOrEqual, Operand(params, high))))
    case NullTest(column, negated) => Negated(negated, Decided(db.isNull(row(column))))
    case Spatial(relation, column, fromWkt, operand) =>
      var text := Operand(params, operand);
      Related(db, relation, Stored(row(column)), if fromWkt then FromWkt(text) else FromGeoJson(text))
  }

  // ---------- what a filter means ----------

  /** How the value `x` of a row stands to the value of a filter. */
  ghost predicate OrderIs(db: Database, x: Value, y: Value, accepted: int -> bool) {
    db.order(x, y).Some? && accepted(db.order(x, y).value)
  }

  ghost function OrderTruth(db: Database, x: Value, y: Value, accepted: int -> bool): Truth {
    if db.order(x, y).None? then Unknown else Decided(OrderIs(db, x, y, accepted))
  }

  /** True with an equal value, else unknown with an incomparable one, else false. */
  ghost function MemberTruth(db: Database, x: Value, values: seq<Value>): Truth {
    if exists y :: y in values && db.order(x, y) == Some(0) then True
    else if exists y :: y in values && db.order(x, y) == None then Unknown
    else False
  }

  function GeometryOf(value: Value): Geometry {
    if value.String? then FromWkt(value) else FromGeoJson(value)
  }

  /** The value of a filter is a list where its operator needs one. */
  predicate Meaningful(filter: Filter) {
    && (filter.operator.IsMembership() || filter.operator.IsRange() ==> filter.value.Array?)
    && (filter.operator.IsRange() ==> |filter.value.items| >= 2)
  }

  /** Whether a row whose column holds `x` satisfies an accepted filter. */
  ghost function FilterTruth(db: Database, x: Value, filter: Filter): Truth
  {
    if !Meaningful(filter) then Unknown else
    match filter.operator
    case Eq => OrderTruth(db, x, filter.value, order => order == 0)
    case Neq => Negation(OrderTruth(db, x, filter.value, order => order == 0))
    case Gt => OrderTruth(db, x, filter.value, order => order > 0)
    case Gte => Negation(OrderTruth(db, x, filter.value, order => order < 0))
    case Lt => OrderTruth(db, x, filter.value, order => order < 0)
    case Lte => Negation(OrderTruth(db, x, filter.value, order => order > 0))
    case Like => db.like(x, filter.value, false)
    case ILike => db.like(x, filter.value, true)
    case In => MemberTruth(db, x, filter.value.items)
    case NotIn => Negation(MemberTruth(db, x, filter.value.items))
    case IsNull => Decided(db.isNull(x))
    case IsNotNull => Negation(Decided(db.isNull(x)))
    case Between => RangeTruth(db, x, filter.value.items[0], filter.value.items[1])
    case NotBetween => Negation(RangeTruth(db, x, filter.value.items[0], filter.value.items[1]))
    case Intersects => db.intersect(Stored(x), GeometryOf(filter.value))
    case Within => db.within(Stored(x), GeometryOf(filter.value))
    case Contains => db.within(GeometryOf(filter.value), Stored(x))
  }

  ghost function RangeTruth(db: Database, x: Value, low: Value, high: Value): Truth {
    Both(Negation(OrderTruth(db, x, low, order => order < 0)), Negation(OrderTruth(db, x, high, order => order > 0)))
  }

  lemma {:induction false} AnyEqualIsMember(db: Database, x: Value, values: seq<Value>)
    ensures AnyEqual(db, x, values) == MemberTruth(db, x, values)
  {
    if values != [] {
      var rest := values[1..];
      AnyEqualIsMember(db, x, rest);
      assert forall y :: y in values <==> y == values[0] || y in rest;
    }
  }

  /** The parameters from `bound` on are the values of the filter. */
  predicate Holds(params: seq<Value>, bound: nat, values: seq<Value>) {
    bound + |values| <= |params| && params[bound..bound + |values|] == values
  }

  lemma OperandsHold(dialect: Dialect, bound: nat, values: seq<Value>, params: seq<Value>)
    requires Holds(params, bound, values)
    ensures OperandValues(params, Operands(dialect, ByPlaceholder, bound, values)) == values
  {
    forall i | 0 <= i < |values|
      ensures OperandValues(params, Operands(dialect, ByPlaceholder, bound, values))[i] == values[i]
    {
      assert params[bound..bound + |values|][i] == values[i];
    }
  }

  lemma ComparisonMeans(db: Database, x: Value, y: Value)
    ensures Compared(db, x, Equal, y) == OrderTruth(db, x, y, order => order == 0)
    ensures Compared(db, x, NotEqual, y) == Negation(OrderTruth(db, x, y, order => order == 0))
    ensures Compared(db, x, Greater, y) == OrderTruth(db, x, y, order => order > 0)
    ensures Compared(db, x, LessOrEqual, y) == Negation(OrderTruth(db, x, y, order => order > 0))
    ensures Compared(db, x, Less, y) == OrderTruth(db, x, y, order => order < 0)
    ensures Compared(db, x, GreaterOrEqual, y) == Negation(OrderTruth(db, x, y, order => order < 0))
  {
  }

  ghost predicate MeansFilter(db: Database, row: string -> Value, params: seq<Value>, column: string, filter: Filter,
                              operands: seq<Token>)
    requires Meaningful(filter) && |operands| == |ValuesOf(filter)|
  {
    Truthful(db, row, params, PredicateOf(column, filter, operands)) == FilterTruth(db, row(column), filter)
  }

  lemma ListMeans(db: Database, row: string -> Value, params: seq<Value>, column: string, filter: Filter,
                  operands: seq<Token>)
    requires Meaningful(filter) && (filter.operator.IsMembership() || filter.operator.IsRange())
    requires OperandValues(params, operands) == ValuesOf(filter)
    ensures MeansFilter(db, row, params, column, filter, operands)
  {
    var x, items := row(column), filter.value.items;
    if filter.operator.IsMembership() {
      AnyEqualIsMember(db, x, items);
    } else {
      assert ValuesOf(filter)[0] == items[0] && ValuesOf(filter)[1] == items[1];
      assert OperandValues(params, operands)[0] == items[0] && OperandValues(params, operands)[1] == items[1];
      ComparisonMeans(db, x, items[0]);
      ComparisonMeans(db, x, items[1]);
    }
  }

  lemma SingleMeans(db: Database, row: string -> Value, params: seq<Value>, column: string, filter: Filter,
                    operands: seq<Token>)
    requires !filter.operator.IsMembership() && !filter.operator.IsRange()
    requires OperandValues(params, operands) == ValuesOf(filter)
    ensures MeansFilter(db, row, params, column, filter, operands)
  {
    if !filter.operator.IsValueless() {
      assert OperandValues(params, operands)[0] == filter.value;
      ComparisonMeans(db, row(column), filter.value);
    }
  }

  /** The predicate a filter stands for means what the filter means. */
  lemma PredicateMeans(db: Database, row: string -> Value, params: seq<Value>, column: string, filter: Filter,
                       operands: seq<Token>)
    requires Meaningful(filter) && OperandValues(params, operands) == ValuesOf(filter)
    ensures MeansFilter(db, row, params, column, filter, operands)
  {
    if filter.operator.IsMembership() || filter.operator.IsRange() {
      ListMeans(db, row, params, column, filter, operands);
    } else {
      SingleMeans(db, row, params, column, filter, operands);
    }
  }

  // ---------- which rows a statement selects ----------

  /** How a row decides the conditions of a WHERE text; a condition that is no predicate decides nothing. */
  function RowTruth(db: Database, row: string -> Value, params: seq<Value>): seq<Token> -> Truth {
    (tokens: seq<Token>) =>
      match ReadPredicate(tokens)
      case None => Unknown
      case Some(p) => Truthful(db, row, params, p)
  }

  /** What a filter asks of a row. */
  ghost function FilterTruths(db: Database, row: string -> Value, qualify: string -> string, filters: seq<Filter>)
    : (r: seq<Truth>)
    ensures |r| == |filters|
  {
    seq(|filters|, i requires 0 <= i < |filters| => FilterTruth(db, row(qualify(filters[i].field)), filters[i]))
  }

  lemma ConditionMeans(dialect: Dialect, bound: nat, column: string, filter: Filter, db: Database,
                       row: string -> Value, params: seq<Value>)
    requires OneWord(column) && Refusal(dialect, filter).None? && Expressible(filter)
    requires Holds(params, bound, ValuesOf(filter))
    ensures var condition :=
        Condition(dialect, ByPlaceholder, bound, column, OperatorText(filter.operator), filter);
      condition.Ok? && RowTruth(db, row, params)(condition.value.0) == FilterTruth(db, row(column), filter)
  {
    ConditionReads(dialect, ByPlaceholder, bound, column, filter);
    OperandsHold(dialect, bound, ValuesOf(filter), params);
    PredicateMeans(db, row, params, column, filter, Operands(dialect, ByPlaceholder, bound, ValuesOf(filter)));
  }

  lemma LastAtom(render: Renderer, filters: seq<Filter>)
    requires filters != [] && WhereBy(render, filters).Ok?
    ensures var front, last := filters[..|filters| - 1], filters[|filters| - 1];
      && WhereBy(render, front).Ok?
      && var bound := |WhereBy(render, front).value.1|;
         && render(bound, last).Ok?
         && Atoms(render, filters) == Atoms(render, front) + [render(bound, last).value.0]
         && WhereBy(render, filters).value.1 == WhereBy(render, front).value.1 + render(bound, last).value.1
  {
  }

  /** Condition `i` is rendered after the values of those before it, and its own stand next in the parameters. */
  lemma {:induction false} AtomAt(render: Renderer, filters: seq<Filter>, i: nat) returns (bound: nat)
    requires WhereBy(render, filters).Ok? && i < |filters|
    ensures render(bound, filters[i]).Ok? && Atoms(render, filters)[i] == render(bound, filters[i]).value.0
    ensures Holds(WhereBy(render, filters).value.1, bound, render(bound, filters[i]).value.1)
  {
    var n := |filters| - 1;
    LastAtom(render, filters);
    var before := WhereBy(render, filters[..n]).value.1;
    if i < n {
      bound := AtomAt(render, filters[..n], i);
      HoldsOn(before, WhereBy(render, filters).value.1, bound, render(bound, filters[i]).value.1);
    } else {
      bound := |before|;
    }
  }

  lemma HoldsOn(before: seq<Value>, params: seq<Value>, bound: nat, values: seq<Value>)
    requires Holds(before, bound, values) && before <= params
    ensures Holds(params, bound, values)
  {
    assert params[bound..bound + |values|] == before[bound..bound + |values|];
  }

  lemma FilterAtomMeans(dialect: Dialect, qualify: string -> string, bound: nat, filter: Filter, db: Database,
                        row: string -> Value, params: seq<Value>)
    requires SelectableFilter(dialect, qualify, filter)
    ensures var condition := ConditionRenderer(dialect, ByPlaceholder, qualify)(bound, filter);
      condition.Ok? && Holds(params, bound, condition.value.1) ==>
        RowTruth(db, row, params)(condition.value.0) == FilterTruth(db, row(qualify(filter.field)), filter)
  {
    ConditionsAgree(dialect, qualify, bound, filter);
    if Holds(params, bound, ValuesOf(filter)) {
      ConditionMeans(dialect, bound, qualify(filter.field), filter, db, row, params);
    }
  }

  predicate SelectableFilter(dialect: Dialect, qualify: string -> string, filter: Filter) {
    Refusal(dialect, filter).None? && Expressible(filter) && OneWord(qualify(filter.field))
  }

  predicate Selectable(dialect: Dialect, qualify: string -> string, filters: seq<Filter>) {
    forall i :: 0 <= i < |filters| ==> SelectableFilter(dialect, qualify, filters[i])
  }

  /** The WHERE text that is executed, with its parameters, decides every row of every database as the filters
      do: a disjunction of AND-groups of what the filters ask, each of its own column and its own value. */
  lemma WhereSelects(dialect: Dialect, qualify: string -> string, filters: seq<Filter>, db: Database,
                     row: string -> Value)
    requires filters != [] && Selectable(dialect, qualify, filters)
    ensures Where(dialect, ByPlaceholder, qualify, filters).Ok?
    ensures var (tokens, params) := Where(dialect, ByPlaceholder, qualify, filters).value;
      Eval(Read(tokens), RowTruth(db, row, params)) ==
        Meaning(Flags(filters), FilterTruths(db, row, qualify, filters))
  {
    WhereFormsAgree(dialect, qualify, filters);
    forall i | 0 <= i < |filters| ensures Refusal(dialect, filters[i]).None? {
      assert SelectableFilter(dialect, qualify, filters[i]);
    }
    var params := Where(dialect, ByPlaceholder, qualify, filters).value.1;
    var truth := RowTruth(db, row, params);
    WhereTextMeans(dialect, ByPlaceholder, qualify, filters, truth);
    var render := ConditionRenderer(dialect, ByPlaceholder, qualify);
    var atoms := Atoms(render, filters);
    forall i | 0 <= i < |filters| ensures Truths(atoms, truth)[i] == FilterTruths(db, row, qualify, filters)[i] {
      var bound := AtomAt(render, filters, i);
      assert SelectableFilter(dialect, qualify, filters[i]);
      FilterAtomMeans(dialect, qualify, bound, filters[i], db, row, params);
    }
    assert Truths(atoms, truth) == FilterTruths(db, row, qualify, filters);
  }
}
