/** The two renderings of one statement: `generate`, `build_where_clause` and `render_value` of
    crates/graphnight-sql/src/generator.rs, with the value formats of crates/graphnight-sql/src/dialects.rs.

    A statement is a sequence of tokens.  Where the text comes from a filter value it is a placeholder in
    the form that is executed and a literal in the form that is shown. */
module Statements {
  import opened Results
  import opened Queries
  import opened Literals

  /** What the generator asks of a dialect: how to show a value, and whether it has spatial predicates. */
  datatype Dialect = Dialect(formatValue: Value -> string, spatial: bool)

  datatype ValueMode = ByPlaceholder | ByLiteral

  datatype Token = Verbatim(text: string) | Placeholder(index: nat) | Literal(text: string) | Connective(or: bool)

  datatype GenError =
    | NotAGeometry(field: string)
    | NoSpatialSupport(field: string)
    | NotAList(field: string)
    | OutOfBounds(field: string)  // indexing past the end of a two-value list panics
    | NoPlan(reason: string)

  // ---------- values ----------

  /** The dialect of a driver.  What follows holds for any dialect whatsoever. */
  function DialectOf(driver: Driver): Dialect {
    Dialect(value => FormatValue(driver, value), driver.Postgres? || driver.DuckDb?)
  }

  /** One value: the token it becomes and the values it binds, when `bound` values are bound already. */
  function RenderValue(dialect: Dialect, mode: ValueMode, bound: nat, value: Value): (Token, seq<Value>) {
    match mode
    case ByPlaceholder => (Placeholder(bound + 1), [value])
    case ByLiteral => (Literal(dialect.formatValue(value)), [])
  }

  // What goes before element `n` of a list.
  function Separator(n: nat, token: Token): seq<Token> {
    if n == 0 then [] else [token]
  }

  /** The values a mode binds instead of writing out. */
  function Bound(mode: ValueMode, items: seq<Value>): seq<Value> {
    if mode.ByPlaceholder? then items else []
  }

  function ListTokens(dialect: Dialect, mode: ValueMode, bound: nat, items: seq<Value>): seq<Token> {
    if items == [] then []
    else
      var n := |items| - 1;
      ListTokens(dialect, mode, bound, items[..n]) + Separator(n, Verbatim(", ")) +
        [RenderValue(dialect, mode, bound + n, items[n]).0]
  }

  // ---------- conditions ----------

  /** The SQL of an operator: a predicate function for the spatial ones, an infix operator otherwise. */
  function OperatorText(operator: FilterOperator): string {
    match operator
    case Eq => "=" case Neq => "!=" case Gt => ">" case Gte => ">=" case Lt => "<" case Lte => "<="
    case Like => "LIKE" case ILike => "ILIKE" case In => "IN" case NotIn => "NOT IN"
    case IsNull => "IS NULL" case IsNotNull => "IS NOT NULL"
    case Between => "BETWEEN" case NotBetween => "NOT BETWEEN"
    case Intersects => "ST_Intersects" case Within => "ST_Within" case Contains => "ST_Contains"
  }

  function GeometryConstructor(fromWkt: bool): string {
    if fromWkt then "ST_GeomFromText" else "ST_GeomFromGeoJSON"
  }

  /** The tokens of one condition and the values it binds. */
  function Condition(dialect: Dialect, mode: ValueMode, bound: nat, column: string, op: string, filter: Filter)
    : Result<(seq<Token>, seq<Value>), GenError>
  {
    if filter.operator.IsSpatial() then
      if !filter.value.String? && !filter.value.Object? then Err(NotAGeometry(filter.field))
      else if !dialect.spatial then Err(NoSpatialSupport(filter.field))
      else
        var (token, values) := RenderValue(dialect, mode, bound, filter.value);
        Ok(([Verbatim(op + "(" + column + ", " + GeometryConstructor(filter.value.String?) + "(CAST("),
             token, Verbatim(" AS VARCHAR)))")], values))
    else if filter.operator.IsMembership() then
      if !filter.value.Array? then Err(NotAList(filter.field))
      else
        var tokens := ListTokens(dialect, mode, bound, filter.value.items);
        Ok(([Verbatim(column + " " + op + " (")] + tokens + [Verbatim(")")], Bound(mode, filter.value.items)))
    else if filter.operator.IsRange() then
      if !filter.value.Array? then Err(NotAList(filter.field))
      else if |filter.value.items| < 2 then Err(OutOfBounds(filter.field))
      else
        var (low, values) := RenderValue(dialect, mode, bound, filter.value.items[0]);
        var (high, more) := RenderValue(dialect, mode, bound + |values|, filter.value.items[1]);
        Ok(([Verbatim(column + " " + op + " BETWEEN "), low, Verbatim(" AND "), high], values + more))
    else if filter.operator.IsValueless() then Ok(([Verbatim(column + " " + op)], []))
    else
      var (token, values) := RenderValue(dialect, mode, bound, filter.value);
      Ok(([Verbatim(column + " " + op + " "), token], values))
  }

  /** Renders one filter, given how many values are bound already. */
  type Renderer = (nat, Filter) -> Result<(seq<Token>, seq<Value>), GenError>

  function ConditionRenderer(dialect: Dialect, mode: ValueMode, qualify: string -> string): Renderer {
    (bound: nat, filter: Filter) => Condition(dialect, mode, bound, qualify(filter.field),
                                                OperatorText(filter.operator), filter)
  }

  /** The flat WHERE text: conditions joined by the connective each filter asks for, the first by none. */
  function WhereBy(render: Renderer, filters: seq<Filter>): Result<(seq<Token>, seq<Value>), GenError> {
    if filters == [] then Ok(([], []))
    else
      var n := |filters| - 1;
      match WhereBy(render, filters[..n])
      case Err(e) => Err(e)
      case Ok((tokens, values)) =>
        match render(|values|, filters[n])
        case Err(e) => Err(e)
        case Ok((condition, more)) =>
          Ok((tokens + Separator(n, Connective(filters[n].orCondition)) + condition, values + more))
  }

  function Where(dialect: Dialect, mode: ValueMode, qualify: string -> string, filters: seq<Filter>)
    : Result<(seq<Token>, seq<Value>), GenError>
  {
    WhereBy(ConditionRenderer(dialect, mode, qualify), filters)
  }

  // ---------- agreement of the two forms ----------

  function Placeholders(tokens: seq<Token>): seq<nat> {
    if tokens == [] then []
    else
      var last := tokens[|tokens| - 1];
      Placeholders(tokens[..|tokens| - 1]) + if last.Placeholder? then [last.index] else []
  }

  function CountFrom(first: nat, n: nat): (r: seq<nat>)
    ensures |r| == n
    ensures forall i :: 0 <= i < n ==> r[i] == first + i
  {
    seq(n, i requires 0 <= i < n => first + i)
  }

  /** The executed tokens number `values` from `bound` + 1 on, and the shown tokens differ from them only
      in holding the formatted value where the executed ones hold its placeholder. */
  ghost predicate Agree(dialect: Dialect, executed: seq<Token>, shown: seq<Token>, bound: nat, values: seq<Value>) {
    && |executed| == |shown|
    && Placeholders(executed) == CountFrom(bound + 1, |values|)
    && forall k :: 0 <= k < |executed| ==> AgreeAt(dialect, executed[k], shown[k], bound, values)
  }

  predicate AgreeAt(dialect: Dialect, executed: Token, shown: Token, bound: nat, values: seq<Value>) {
    if executed.Placeholder? then
      bound < executed.index <= bound + |values| &&
        shown == Literal(dialect.formatValue(values[executed.index - bound - 1]))
    else !executed.Literal? && shown == executed
  }

  lemma {:induction false} PlaceholdersConcat(a: seq<Token>, b: seq<Token>)
    ensures Placeholders(a + b) == Placeholders(a) + Placeholders(b)
  {
    if b == [] {
      assert a + b == a;
    } else {
      assert (a + b)[..|a + b| - 1] == a + b[..|b| - 1];
      PlaceholdersConcat(a, b[..|b| - 1]);
    }
  }

  lemma AgreeConcat(dialect: Dialect, e1: seq<Token>, s1: seq<Token>, v1: seq<Value>,
                    e2: seq<Token>, s2: seq<Token>, v2: seq<Value>, bound: nat)
    requires Agree(dialect, e1, s1, bound, v1) && Agree(dialect, e2, s2, bound + |v1|, v2)
    ensures Agree(dialect, e1 + e2, s1 + s2, bound, v1 + v2)
  {
    PlaceholdersConcat(e1, e2);
    var e, s, v := e1 + e2, s1 + s2, v1 + v2;
    forall k | 0 <= k < |e| ensures AgreeAt(dialect, e[k], s[k], bound, v) {
      if k < |e1| {
        assert AgreeAt(dialect, e1[k], s1[k], bound, v1);
      } else {
        assert AgreeAt(dialect, e2[k - |e1|], s2[k - |e1|], bound + |v1|, v2);
      }
    }
  }

  lemma AgreeVerbatim(dialect: Dialect, token: Token, bound: nat)
    requires token.Verbatim? || token.Connective?
    ensures Agree(dialect, [token], [token], bound, [])
  {
  }

  lemma AgreeSeparated(dialect: Dialect, e1: seq<Token>, s1: seq<Token>, v1: seq<Value>, n: nat, token: Token,
                       e2: seq<Token>, s2: seq<Token>, v2: seq<Value>, bound: nat)
    requires Agree(dialect, e1, s1, bound, v1) && Agree(dialect, e2, s2, bound + |v1|, v2)
    requires token.Verbatim? || token.Connective?
    ensures Agree(dialect, e1 + Separator(n, token) + e2, s1 + Separator(n, token) + s2, bound, v1 + v2)
  {
    if n == 0 {
      assert e1 + Separator(n, token) == e1 && s1 + Separator(n, token) == s1;
    } else {
      AgreeVerbatim(dialect, token, bound + |v1|);
      AgreeConcat(dialect, e1, s1, v1, [token], [token], [], bound);
      assert v1 + [] == v1;
    }
    AgreeConcat(dialect, e1 + Separator(n, token), s1 + Separator(n, token), v1, e2, s2, v2, bound);
  }

  lemma AgreeValue(dialect: Dialect, value: Value, bound: nat)
    ensures Agree(dialect, [Placeholder(bound + 1)], [Literal(dialect.formatValue(value))], bound, [value])
  {
    assert Placeholders([Placeholder(bound + 1)]) == [bound + 1];
  }

  lemma {:induction false} AgreeList(dialect: Dialect, items: seq<Value>, bound: nat)
    ensures Agree(dialect, ListTokens(dialect, ByPlaceholder, bound, items), ListTokens(dialect, ByLiteral, 0, items),
                  bound, items)
  {
    if items == [] {
      assert Placeholders([]) == [];
    } else {
      var front := items[..|items| - 1];
      AgreeList(dialect, front, bound);
      AgreeListStep(dialect, ListTokens(dialect, ByPlaceholder, bound, front),
                    ListTokens(dialect, ByLiteral, 0, front), items, bound);
    }
  }

  lemma AgreeListStep(dialect: Dialect, executed: seq<Token>, shown: seq<Token>, items: seq<Value>, bound: nat)
    requires items != [] && Agree(dialect, executed, shown, bound, items[..|items| - 1])
    ensures var n := |items| - 1;
      Agree(dialect, executed + Separator(n, Verbatim(", ")) + [Placeholder(bound + n + 1)],
            shown + Separator(n, Verbatim(", ")) + [Literal(dialect.formatValue(items[n]))], bound, items)
  {
    var n := |items| - 1;
    AgreeValue(dialect, items[n], bound + n);
    assert items[..n] + [items[n]] == items;
    AgreeSeparated(dialect, executed, shown, items[..n], n, Verbatim(", "),
                   [Placeholder(bound + n + 1)], [Literal(dialect.formatValue(items[n]))], [items[n]], bound);
  }

  // ---------- which filters are accepted, and what they bind ----------

  /** Why a filter cannot be rendered, if it cannot. */
  function Refusal(dialect: Dialect, filter: Filter): Option<GenError> {
    if filter.operator.IsSpatial() then
      if !filter.value.String? && !filter.value.Object? then Some(NotAGeometry(filter.field))
      else if !dialect.spatial then Some(NoSpatialSupport(filter.field))
      else None
    else if filter.operator.IsMembership() || filter.operator.IsRange() then
      if !filter.value.Array? then Some(NotAList(filter.field))
      else if filter.operator.IsRange() && |filter.value.items| < 2 then Some(OutOfBounds(filter.field))
      else None
    else None
  }

  /** The values a filter sends to the database, in order. */
  function ValuesOf(filter: Filter): seq<Value> {
    if filter.operator.IsValueless() then []
    else if filter.operator.IsMembership() && filter.value.Array? then filter.value.items
    else if filter.operator.IsRange() && filter.value.Array? && |filter.value.items| >= 2 then filter.value.items[..2]
    else [filter.value]
  }

  function AllValues(filters: seq<Filter>): seq<Value> {
    if filters == [] then [] else AllValues(filters[..|filters| - 1]) + ValuesOf(filters[|filters| - 1])
  }

  /** What each operator accepts: a geometry, where the dialect has spatial predicates; a list; a list of two at
      least; anything.  What is missing is the error. */
  lemma RefusalIff(driver: Driver, filter: Filter)
    ensures var field, value := filter.field, filter.value;
      match filter.operator
      case Intersects | Within | Contains =>
        Refusal(DialectOf(driver), filter) ==
        (match value
         case String(_) => (if driver == MySql || driver == Sqlite then Some(NoSpatialSupport(field)) else None)
         case Object(_) => (if driver == MySql || driver == Sqlite then Some(NoSpatialSupport(field)) else None)
         case _ => Some(NotAGeometry(field)))
      case In | NotIn =>
        Refusal(DialectOf(driver), filter) == (match value case Array(_) => None case _ => Some(NotAList(field)))
      case Between | NotBetween =>
        Refusal(DialectOf(driver), filter) ==
        (match value
         case Array(items) => (if |items| < 2 then Some(OutOfBounds(field)) else None)
         case _ => Some(NotAList(field)))
      case _ => Refusal(DialectOf(driver), filter) == None
  {
  }

  lemma AgreeAround(dialect: Dialect, before: Token, e: seq<Token>, s: seq<Token>, after: Token, bound: nat,
                    values: seq<Value>)
    requires Agree(dialect, e, s, bound, values) && before.Verbatim? && after.Verbatim?
    ensures Agree(dialect, [before] + e + [after], [before] + s + [after], bound, values)
  {
    AgreeVerbatim(dialect, before, bound);
    AgreeVerbatim(dialect, after, bound + |values|);
    AgreeConcat(dialect, [before], [before], [], e, s, values, bound);
    assert [] + values == values && values + [] == values;
    AgreeConcat(dialect, [before] + e, [before] + s, values, [after], [after], [], bound);
  }

  lemma AgreePair(dialect: Dialect, before: Token, between: Token, low: Value, high: Value, bound: nat)
    requires before.Verbatim? && between.Verbatim?
    ensures Agree(dialect,
      [before, Placeholder(bound + 1), between, Placeholder(bound + 2)],
      [before, Literal(dialect.formatValue(low)), between, Literal(dialect.formatValue(high))], bound, [low, high])
  {
    AgreeValue(dialect, low, bound);
    AgreeAround(dialect, before, [Placeholder(bound + 1)], [Literal(dialect.formatValue(low))], between, bound, [low]);
    AgreeValue(dialect, high, bound + 1);
    var e := [before] + [Placeholder(bound + 1)] + [between];
    var s := [before] + [Literal(dialect.formatValue(low))] + [between];
    AgreeConcat(dialect, e, s, [low], [Placeholder(bound + 2)], [Literal(dialect.formatValue(high))], [high], bound);
    assert [low] + [high] == [low, high];
    assert e + [Placeholder(bound + 2)] == [before, Placeholder(bound + 1), between, Placeholder(bound + 2)];
    assert s + [Literal(dialect.formatValue(high))] ==
      [before, Literal(dialect.formatValue(low)), between, Literal(dialect.formatValue(high))];
  }

  lemma AgreeAfter(dialect: Dialect, before: Token, value: Value, bound: nat)
    requires before.Verbatim?
    ensures Agree(dialect, [before, Placeholder(bound + 1)], [before, Literal(dialect.formatValue(value))], bound,
                  [value])
  {
    AgreeVerbatim(dialect, before, bound);
    AgreeValue(dialect, value, bound);
    AgreeConcat(dialect, [before], [before], [], [Placeholder(bound + 1)], [Literal(dialect.formatValue(value))],
                [value], bound);
    assert [] + [value] == [value];
    assert [before] + [Placeholder(bound + 1)] == [before, Placeholder(bound + 1)];
    assert [before] + [Literal(dialect.formatValue(value))] == [before, Literal(dialect.formatValue(value))];
  }

  /** The two forms of a condition agree, or both are refused for the same reason. */
  ghost predicate ConditionAgrees(dialect: Dialect, executed: Renderer, shown: Renderer, bound: nat, filter: Filter) {
    match Refusal(dialect, filter)
    case Some(e) => executed(bound, filter) == Err(e) && shown(0, filter) == Err(e)
    case None =>
      && executed(bound, filter).Ok? && shown(0, filter).Ok?
      && executed(bound, filter).value.1 == ValuesOf(filter) && shown(0, filter).value.1 == []
      && Agree(dialect, executed(bound, filter).value.0, shown(0, filter).value.0, bound, ValuesOf(filter))
  }

  lemma SpatialAgrees(dialect: Dialect, column: string, op: string, bound: nat, filter: Filter)
    requires Refusal(dialect, filter).None? && filter.operator.IsSpatial()
    ensures FormsAgree(dialect, column, op, bound, filter)
  {
    AgreeValue(dialect, filter.value, bound);
    var before := Verbatim(op + "(" + column + ", " + GeometryConstructor(filter.value.String?) + "(CAST(");
    var after := Verbatim(" AS VARCHAR)))");
    var placeholder, literal := Placeholder(bound + 1), Literal(dialect.formatValue(filter.value));
    AgreeAround(dialect, before, [placeholder], [literal], after, bound, [filter.value]);
    assert [before] + [placeholder] + [after] == [before, placeholder, after];
    assert [before] + [literal] + [after] == [before, literal, after];
  }

  lemma MembershipForm(dialect: Dialect, mode: ValueMode, column: string, op: string, bound: nat, filter: Filter)
    requires Refusal(dialect, filter).None? && filter.operator.IsMembership()
    ensures var tokens := ListTokens(dialect, mode, bound, filter.value.items);
      Condition(dialect, mode, bound, column, op, filter) ==
      Ok(([Verbatim(column + " " + op + " (")] + tokens + [Verbatim(")")], Bound(mode, filter.value.items)))
  {
  }

  lemma ListAgreesAround(dialect: Dialect, before: Token, items: seq<Value>, after: Token, bound: nat)
    requires before.Verbatim? && after.Verbatim?
    ensures Agree(dialect, [before] + ListTokens(dialect, ByPlaceholder, bound, items) + [after],
                  [before] + ListTokens(dialect, ByLiteral, 0, items) + [after], bound, items)
  {
    AgreeList(dialect, items, bound);
    AgreeAround(dialect, before, ListTokens(dialect, ByPlaceholder, bound, items),
                ListTokens(dialect, ByLiteral, 0, items), after, bound, items);
  }

  lemma MembershipAgrees(dialect: Dialect, column: string, op: string, bound: nat, filter: Filter)
    requires Refusal(dialect, filter).None? && filter.operator.IsMembership()
    ensures FormsAgree(dialect, column, op, bound, filter)
  {
    MembershipForm(dialect, ByPlaceholder, column, op, bound, filter);
    MembershipForm(dialect, ByLiteral, column, op, 0, filter);
    ListAgreesAround(dialect, Verbatim(column + " " + op + " ("), filter.value.items, Verbatim(")"), bound);
  }

  lemma RangeAgrees(dialect: Dialect, column: string, op: string, bound: nat, filter: Filter)
    requires Refusal(dialect, filter).None? && filter.operator.IsRange()
    ensures FormsAgree(dialect, column, op, bound, filter)
  {
    var items := filter.value.items;
    AgreePair(dialect, Verbatim(column + " " + op + " BETWEEN "), Verbatim(" AND "), items[0], items[1], bound);
    assert [items[0]] + [items[1]] == items[..2] == [items[0], items[1]];
  }

  lemma PlainAgrees(dialect: Dialect, column: string, op: string, bound: nat, filter: Filter)
    requires !filter.operator.IsSpatial() && !filter.operator.IsMembership() && !filter.operator.IsRange()
    ensures FormsAgree(dialect, column, op, bound, filter)
  {
    if filter.operator.IsValueless() {
      AgreeVerbatim(dialect, Verbatim(column + " " + op), bound);
    } else {
      AgreeAfter(dialect, Verbatim(column + " " + op + " "), filter.value, bound);
    }
  }

  ghost predicate FormsAgree(dialect: Dialect, column: string, op: string, bound: nat, filter: Filter) {
    var executed := Condition(dialect, ByPlaceholder, bound, column, op, filter);
    var shown := Condition(dialect, ByLiteral, 0, column, op, filter);
    && executed.Ok? && shown.Ok?
    && executed.value.1 == ValuesOf(filter) && shown.value.1 == []
    && Agree(dialect, executed.value.0, shown.value.0, bound, ValuesOf(filter))
  }

  lemma ConditionsAgree(dialect: Dialect, qualify: string -> string, bound: nat, filter: Filter)
    ensures ConditionAgrees(dialect, ConditionRenderer(dialect, ByPlaceholder, qualify),
                            ConditionRenderer(dialect, ByLiteral, qualify), bound, filter)
  {
    var column, op := qualify(filter.field), OperatorText(filter.operator);
    if Refusal(dialect, filter).None? {
      if filter.operator.IsSpatial() {
        SpatialAgrees(dialect, column, op, bound, filter);
      } else if filter.operator.IsMembership() {
        MembershipAgrees(dialect, column, op, bound, filter);
      } else if filter.operator.IsRange() {
        RangeAgrees(dialect, column, op, bound, filter);
      } else {
        PlainAgrees(dialect, column, op, bound, filter);
      }
    }
  }

  /** The first filter that cannot be rendered decides the error; without one, both forms exist and agree. */
  ghost predicate WhereAgrees(dialect: Dialect, executed: Renderer, shown: Renderer, filters: seq<Filter>) {
    match WhereBy(executed, filters)
    case Ok((tokens, values)) =>
      && (forall i :: 0 <= i < |filters| ==> Refusal(dialect, filters[i]).None?)
      && values == AllValues(filters)
      && WhereBy(shown, filters).Ok? && WhereBy(shown, filters).value.1 == []
      && Agree(dialect, tokens, WhereBy(shown, filters).value.0, 0, values)
    case Err(e) =>
      WhereBy(shown, filters) == Err(e) && RefusedFor(dialect, filters, e)
  }

  ghost predicate RefusedFor(dialect: Dialect, filters: seq<Filter>, e: GenError) {
    exists i :: 0 <= i < |filters| && FirstRefused(dialect, filters, i) && Refusal(dialect, filters[i]) == Some(e)
  }

  ghost predicate FirstRefused(dialect: Dialect, filters: seq<Filter>, i: nat)
    requires i < |filters|
  {
    Refusal(dialect, filters[i]).Some? && forall j :: 0 <= j < i ==> Refusal(dialect, filters[j]).None?
  }

  lemma WhereByStep(render: Renderer, filters: seq<Filter>)
    requires filters != [] && WhereBy(render, filters[..|filters| - 1]).Ok?
    requires render(|WhereBy(render, filters[..|filters| - 1]).value.1|, filters[|filters| - 1]).Ok?
    ensures var n := |filters| - 1;
      var (tokens, values) := WhereBy(render, filters[..n]).value;
      var (condition, more) := render(|values|, filters[n]).value;
      WhereBy(render, filters) ==
        Ok((tokens + Separator(n, Connective(filters[n].orCondition)) + condition, values + more))
  {
  }

  lemma WhereStep(dialect: Dialect, executed: Renderer, shown: Renderer, filters: seq<Filter>)
    requires filters != [] && WhereAgrees(dialect, executed, shown, filters[..|filters| - 1])
    requires WhereBy(executed, filters[..|filters| - 1]).Ok?
    requires var last := filters[|filters| - 1];
      Refusal(dialect, last).None? &&
        ConditionAgrees(dialect, executed, shown, |WhereBy(executed, filters[..|filters| - 1]).value.1|, last)
    ensures WhereAgrees(dialect, executed, shown, filters)
  {
    WhereByStep(executed, filters);
    WhereByStep(shown, filters);
    TokensStep(dialect, executed, shown, filters);
    assert forall i :: 0 <= i < |filters| - 1 ==> filters[i] == filters[..|filters| - 1][i];
  }

  lemma TokensStep(dialect: Dialect, executed: Renderer, shown: Renderer, filters: seq<Filter>)
    requires filters != [] && WhereAgrees(dialect, executed, shown, filters[..|filters| - 1])
    requires WhereBy(executed, filters[..|filters| - 1]).Ok?
    requires var last := filters[|filters| - 1];
      Refusal(dialect, last).None? &&
        ConditionAgrees(dialect, executed, shown, |WhereBy(executed, filters[..|filters| - 1]).value.1|, last)
    ensures var n := |filters| - 1;
      var (tokens, values) := WhereBy(executed, filters[..n]).value;
      var separator := Separator(n, Connective(filters[n].orCondition));
      Agree(dialect, tokens + separator + executed(|values|, filters[n]).value.0,
            WhereBy(shown, filters[..n]).value.0 + separator + shown(0, filters[n]).value.0, 0,
            values + ValuesOf(filters[n]))
  {
    var n := |filters| - 1;
    var (tokens, values) := WhereBy(executed, filters[..n]).value;
    AgreeSeparated(dialect, tokens, WhereBy(shown, filters[..n]).value.0, values, n, Connective(filters[n].orCondition),
                   executed(|values|, filters[n]).value.0, shown(0, filters[n]).value.0, ValuesOf(filters[n]), 0);
  }

  lemma RefusalStays(dialect: Dialect, filters: seq<Filter>, e: GenError)
    requires filters != [] && RefusedFor(dialect, filters[..|filters| - 1], e)
    ensures RefusedFor(dialect, filters, e)
  {
    var front := filters[..|filters| - 1];
    var i :| 0 <= i < |front| && FirstRefused(dialect, front, i) && Refusal(dialect, front[i]) == Some(e);
    assert filters[i] == front[i] && forall j :: 0 <= j < i ==> filters[j] == front[j];
    assert FirstRefused(dialect, filters, i);
  }

  lemma LastIsRefused(dialect: Dialect, front: seq<Filter>, last: Filter)
    requires Refusal(dialect, last).Some?
    requires forall j :: 0 <= j < |front| ==> Refusal(dialect, front[j]).None?
    ensures RefusedFor(dialect, front + [last], Refusal(dialect, last).value)
  {
    assert FirstRefused(dialect, front + [last], |front|);
  }

  lemma {:induction false} WhereByAgrees(dialect: Dialect, executed: Renderer, shown: Renderer, filters: seq<Filter>)
    requires forall bound, filter {:trigger ConditionAgrees(dialect, executed, shown, bound, filter)} ::
      ConditionAgrees(dialect, executed, shown, bound, filter)
    ensures WhereAgrees(dialect, executed, shown, filters)
  {
    if filters != [] {
      var n := |filters| - 1;
      var front, last := filters[..n], filters[n];
      WhereByAgrees(dialect, executed, shown, front);
      match WhereBy(executed, front) {
        case Err(e) =>
          RefusalStays(dialect, filters, e);
        case Ok((tokens, values)) =>
          assert ConditionAgrees(dialect, executed, shown, |values|, last);
          if Refusal(dialect, last).Some? {
            LastIsRefused(dialect, front, last);
            assert front + [last] == filters;
          } else {
            WhereStep(dialect, executed, shown, filters);
          }
      }
    }
  }

  lemma WhereFormsAgree(dialect: Dialect, qualify: string -> string, filters: seq<Filter>)
    ensures WhereAgrees(dialect, ConditionRenderer(dialect, ByPlaceholder, qualify),
                        ConditionRenderer(dialect, ByLiteral, qualify), filters)
  {
    var executed := ConditionRenderer(dialect, ByPlaceholder, qualify);
    var shown := ConditionRenderer(dialect, ByLiteral, qualify);
    forall bound, filter ensures ConditionAgrees(dialect, executed, shown, bound, filter) {
      ConditionsAgree(dialect, qualify, bound, filter);
    }
    WhereByAgrees(dialect, executed, shown, filters);
  }

  // ---------- filling in ----------

  /** Replaces each placeholder by the formatted parameter it stands for. */
  function Fill(dialect: Dialect, tokens: seq<Token>, params: seq<Value>): (r: seq<Token>)
    ensures |r| == |tokens|
    ensures forall k :: 0 <= k < |tokens| ==> r[k] == FillToken(dialect, tokens[k], params)
  {
    seq(|tokens|, k requires 0 <= k < |tokens| => FillToken(dialect, tokens[k], params))
  }

  function FillToken(dialect: Dialect, token: Token, params: seq<Value>): Token {
    if token.Placeholder? && 1 <= token.index <= |params| then Literal(dialect.formatValue(params[token.index - 1]))
    else token
  }

  datatype GeneratedSql = GeneratedSql(sql: seq<Token>, params: seq<Value>, display: seq<Token>)

  /** A statement is sound when the values are only ever in `params`, numbered as they occur in the text,
      and filling them in gives the text that is shown. */
  ghost predicate Sound(dialect: Dialect, g: GeneratedSql) {
    && Placeholders(g.sql) == CountFrom(1, |g.params|)
    && (forall k :: 0 <= k < |g.sql| ==> !g.sql[k].Literal?)
    && (forall k :: 0 <= k < |g.display| ==> !g.display[k].Placeholder?)
    && Fill(dialect, g.sql, g.params) == g.display
  }

  lemma AgreementIsSound(dialect: Dialect, executed: seq<Token>, shown: seq<Token>, values: seq<Value>)
    requires Agree(dialect, executed, shown, 0, values)
    ensures Sound(dialect, GeneratedSql(executed, values, shown))
  {
    forall k | 0 <= k < |executed|
      ensures !executed[k].Literal? && !shown[k].Placeholder? && FillToken(dialect, executed[k], values) == shown[k]
    {
      assert AgreeAt(dialect, executed[k], shown[k], 0, values);
    }
    assert Fill(dialect, executed, values) == shown;
  }

  // ---------- what the shown text shows ----------

  function ShownLiterals(tokens: seq<Token>): seq<string> {
    if tokens == [] then []
    else
      var last := tokens[|tokens| - 1];
      ShownLiterals(tokens[..|tokens| - 1]) + if last.Literal? then [last.text] else []
  }

  function Formats(dialect: Dialect, params: seq<Value>, indexes: seq<nat>): (r: seq<string>)
    requires Within(indexes, |params|)
    ensures |r| == |indexes|
  {
    seq(|indexes|, i requires 0 <= i < |indexes| => dialect.formatValue(params[indexes[i] - 1]))
  }

  lemma AppendShows(front: seq<Token>, last: Token)
    ensures ShownLiterals(front + [last]) == ShownLiterals(front) + if last.Literal? then [last.text] else []
  {
    assert (front + [last])[..|front|] == front;
  }

  lemma PlaceholdersAppend(front: seq<Token>, last: Token)
    ensures Placeholders(front + [last]) == Placeholders(front) + if last.Placeholder? then [last.index] else []
  {
    assert (front + [last])[..|front|] == front;
  }

  lemma FillAppend(dialect: Dialect, front: seq<Token>, last: Token, params: seq<Value>)
    ensures Fill(dialect, front + [last], params) == Fill(dialect, front, params) + [FillToken(dialect, last, params)]
  {
  }

  ghost predicate Within(indexes: seq<nat>, n: nat) {
    forall i :: 0 <= i < |indexes| ==> 1 <= indexes[i] <= n
  }

  lemma FormatsAppend(dialect: Dialect, params: seq<Value>, indexes: seq<nat>, index: nat)
    requires Within(indexes + [index], |params|)
    ensures Within(indexes, |params|) && 1 <= index <= |params|
    ensures Formats(dialect, params, indexes + [index]) ==
      Formats(dialect, params, indexes) + [dialect.formatValue(params[index - 1])]
  {
    assert (indexes + [index])[|indexes|] == index;
    assert forall i :: 0 <= i < |indexes| ==> (indexes + [index])[i] == indexes[i];
  }

  /** Filling in the placeholders shows, in text order, the formatted parameter of each. */
  lemma {:induction false} FillShows(dialect: Dialect, tokens: seq<Token>, params: seq<Value>)
    requires forall k :: 0 <= k < |tokens| ==> !tokens[k].Literal?
    requires Within(Placeholders(tokens), |params|)
    ensures ShownLiterals(Fill(dialect, tokens, params)) == Formats(dialect, params, Placeholders(tokens))
  {
    if tokens == [] {
      assert Fill(dialect, tokens, params) == [];
    } else {
      var front, last := tokens[..|tokens| - 1], tokens[|tokens| - 1];
      assert tokens == front + [last] && !last.Literal?;
      PlaceholdersAppend(front, last);
      FillAppend(dialect, front, last, params);
      AppendShows(Fill(dialect, front, params), FillToken(dialect, last, params));
      if last.Placeholder? {
        FormatsAppend(dialect, params, Placeholders(front), last.index);
      } else {
        assert Placeholders(tokens) == Placeholders(front);
      }
      FillShows(dialect, front, params);
    }
  }

  /** The literals a reader of the shown statement sees are one per parameter, in order, and each reads in its
      dialect as exactly the texts its parameter is made of. */
  lemma DisplayShowsTheValues(driver: Driver, g: GeneratedSql)
    requires Sound(DialectOf(driver), g)
    requires forall i :: 0 <= i < |g.params| ==> PlainNumbers(g.params[i])
    ensures |ShownLiterals(g.display)| == |g.params|
    ensures forall i :: 0 <= i < |g.params| ==>
      ReadTexts(driver, ShownLiterals(g.display)[i]) == Some(TextsOf(g.params[i]))
  {
    FillShows(DialectOf(driver), g.sql, g.params);
    forall i | 0 <= i < |g.params|
      ensures ReadTexts(driver, ShownLiterals(g.display)[i]) == Some(TextsOf(g.params[i]))
    {
      var shown := FormatValue(driver, g.params[i]);
      assert ShownLiterals(g.display)[i] == shown;
      FormattedValueReadsBack(driver, g.params[i], []);
      assert shown + [] == shown && ReadTexts(driver, []) == Some([]);
      assert TextsOf(g.params[i]) + [] == TextsOf(g.params[i]);
    }
  }

  // ---------- the generator ----------

  method PushValue(dialect: Dialect, mode: ValueMode, params: seq<Value>, value: Value)
    returns (token: Token, params': seq<Value>)
    ensures (token, params') ==
      (RenderValue(dialect, mode, |params|, value).0, params + RenderValue(dialect, mode, |params|, value).1)
  {
    params' := params;
    match mode {
      case ByPlaceholder =>
        params' := params' + [value];
        token := Placeholder(|params'|);
      case ByLiteral =>
        token := Literal(dialect.formatValue(value));
        assert params + [] == params;
    }
  }

  method BuildList(dialect: Dialect, mode: ValueMode, params: seq<Value>, items: seq<Value>)
    returns (tokens: seq<Token>, params': seq<Value>)
    ensures tokens == ListTokens(dialect, mode, |params|, items)
    ensures params' == params + Bound(mode, items)
  {
    tokens, params' := [], params;
    for i := 0 to |items|
      invariant tokens == ListTokens(dialect, mode, |params|, items[..i])
      invariant params' == params + Bound(mode, items[..i])
    {
      assert items[..i + 1][..i] == items[..i];
      var token;
      token, params' := PushValue(dialect, mode, params', items[i]);
      tokens := tokens + Separator(i, Verbatim(", ")) + [token];
    }
    assert items[..|items|] == items;
  }

  method BuildCondition(dialect: Dialect, mode: ValueMode, params: seq<Value>, column: string, filter: Filter)
    returns (r: Result<seq<Token>, GenError>, params': seq<Value>)
    ensures match Condition(dialect, mode, |params|, column, OperatorText(filter.operator), filter)
      case Ok((tokens, values)) => r == Ok(tokens) && params' == params + values
      case Err(e) => r == Err(e)
  {
    params' := params;
    var op := OperatorText(filter.operator);
    if filter.operator.IsSpatial() {
      if !filter.value.String? && !filter.value.Object? {
        return Err(NotAGeometry(filter.field)), params';
      }
      var token;
      token, params' := PushValue(dialect, mode, params', filter.value);
      if !dialect.spatial {
        return Err(NoSpatialSupport(filter.field)), params';
      }
      var before := op + "(" + column + ", " + GeometryConstructor(filter.value.String?) + "(CAST(";
      return Ok([Verbatim(before), token, Verbatim(" AS VARCHAR)))")]), params';
    }
    if filter.operator.IsMembership() {
      if !filter.value.Array? {
        return Err(NotAList(filter.field)), params';
      }
      var tokens;
      tokens, params' := BuildList(dialect, mode, params', filter.value.items);
      return Ok([Verbatim(column + " " + op + " (")] + tokens + [Verbatim(")")]), params';
    }
    if filter.operator.IsRange() {
      if !filter.value.Array? {
        return Err(NotAList(filter.field)), params';
      }
      var items := filter.value.items;
      if |items| < 2 {
        return Err(OutOfBounds(filter.field)), params';
      }
      var low, high;
      low, params' := PushValue(dialect, mode, params', items[0]);
      high, params' := PushValue(dialect, mode, params', items[1]);
      return Ok([Verbatim(column + " " + op + " BETWEEN "), low, Verbatim(" AND "), high]), params';
    }
    if filter.operator.IsValueless() {
      return Ok([Verbatim(column + " " + op)]), params';
    }
    var token;
    token, params' := PushValue(dialect, mode, params', filter.value);
    r := Ok([Verbatim(column + " " + op + " "), token]);
  }

  method BuildWhereClause(dialect: Dialect, mode: ValueMode, qualify: string -> string, filters: seq<Filter>)
    returns (r: Result<Option<seq<Token>>, GenError>, params: seq<Value>)
    ensures match Where(dialect, mode, qualify, filters)
      case Ok((tokens, values)) => r == Ok(if filters == [] then None else Some(tokens)) && params == values
      case Err(e) => r == Err(e)
  {
    params := [];
    if filters == [] {
      return Ok(None), params;
    }
    var conditions: seq<Token> := [];
    for i := 0 to |filters|
      invariant Where(dialect, mode, qualify, filters[..i]) == Ok((conditions, params))
    {
      assert filters[..i + 1][..i] == filters[..i];
      var condition, params' := BuildCondition(dialect, mode, params, qualify(filters[i].field), filters[i]);
      if condition.Err? {
        WhereErrorStays(ConditionRenderer(dialect, mode, qualify), filters, i + 1);
        return Err(condition.error), params';
      }
      conditions := conditions + Separator(i, Connective(filters[i].orCondition)) + condition.value;
      params := params';
    }
    assert filters[..|filters|] == filters;
    r := Ok(Some(conditions));
  }

  lemma {:induction false} WhereErrorStays(render: Renderer, filters: seq<Filter>, n: nat)
    requires n <= |filters| && WhereBy(render, filters[..n]).Err?
    ensures WhereBy(render, filters) == WhereBy(render, filters[..n])
  {
    if n < |filters| {
      var m := |filters| - 1;
      assert filters[..m][..n] == filters[..n];
      WhereErrorStays(render, filters[..m], n);
    } else {
      assert filters[..n] == filters;
    }
  }

  /** The parts of a plan that no filter value reaches: the source and the select list, which are resolved
      before the filters, and the grouping, order and joins, which are resolved after them.  Each is the text
      before or after the WHERE clause, or the reason why there is no plan. */
  datatype Plan = Plan(head: Result<string, string>, tail: Result<string, string>)

  function Assembled(head: string, clause: Option<seq<Token>>, tail: string): seq<Token> {
    match clause
    case None => [Verbatim(head), Verbatim(tail)]
    case Some(tokens) => [Verbatim(head), Verbatim(" WHERE ")] + tokens + [Verbatim(" "), Verbatim(tail)]
  }

  predicate AllAccepted(dialect: Dialect, filters: seq<Filter>) {
    forall i :: 0 <= i < |filters| ==> Refusal(dialect, filters[i]).None?
  }

  /** The first thing that stands in the way of a statement is the error: the head, the first filter refused,
      the tail. */
  ghost predicate Blames(dialect: Dialect, plan: Plan, filters: seq<Filter>, e: GenError) {
    if plan.head.Err? then e == NoPlan(plan.head.error)
    else if AllAccepted(dialect, filters) then plan.tail.Err? && e == NoPlan(plan.tail.error)
    else RefusedFor(dialect, filters, e)
  }

  /** The text of a statement in one mode: the head, the WHERE text of all filters if there are any, the tail. */
  predicate Composed(dialect: Dialect, mode: ValueMode, qualify: string -> string, plan: Plan, filters: seq<Filter>,
                     sql: seq<Token>) {
    && plan.head.Ok? && plan.tail.Ok? && Where(dialect, mode, qualify, filters).Ok?
    && var where := Where(dialect, mode, qualify, filters).value.0;
       var clause := if filters == [] then [] else [Verbatim(" WHERE ")] + where + [Verbatim(" ")];
       sql == [Verbatim(plan.head.value)] + clause + [Verbatim(plan.tail.value)]
  }

  /** Both forms of the statement, from one plan builder run in two modes. */
  method Generate(dialect: Dialect, qualify: string -> string, plan: Plan, filters: seq<Filter>)
    returns (r: Result<GeneratedSql, GenError>)
    ensures r.Ok? <==> plan.head.Ok? && AllAccepted(dialect, filters) && plan.tail.Ok?
    ensures r.Ok? ==> Sound(dialect, r.value) && r.value.params == AllValues(filters)
    ensures r.Ok? ==> Composed(dialect, ByPlaceholder, qualify, plan, filters, r.value.sql)
    ensures r.Ok? ==> Composed(dialect, ByLiteral, qualify, plan, filters, r.value.display)
    ensures r.Err? ==> Blames(dialect, plan, filters, r.error)
  {
    if plan.head.Err? {
      return Err(NoPlan(plan.head.error));
    }
    WhereAgreesWithMode(dialect, qualify, filters);
    var bound, params := BuildWhereClause(dialect, ByPlaceholder, qualify, filters);
    match bound {
      case Err(e) => return Err(e);
      case Ok(clause) =>
        if plan.tail.Err? {
          return Err(NoPlan(plan.tail.error));
        }
        var sql := Assembled(plan.head.value, clause, plan.tail.value);
        var shown, none := BuildWhereClause(dialect, ByLiteral, qualify, filters);
        match shown {
          case Err(e) => return Err(e);
          case Ok(shownClause) =>
            var display := Assembled(plan.head.value, shownClause, plan.tail.value);
            GeneratedIsSound(dialect, qualify, plan, filters, clause, shownClause, params);
            r := Ok(GeneratedSql(sql, params, display));
        }
    }
  }

  /** The WHERE clause of a mode. */
  function ClauseIn(dialect: Dialect, mode: ValueMode, qualify: string -> string, filters: seq<Filter>)
    : Option<seq<Token>>
    requires Where(dialect, mode, qualify, filters).Ok?
  {
    if filters == [] then None else Some(Where(dialect, mode, qualify, filters).value.0)
  }

  lemma WhereAgreesWithMode(dialect: Dialect, qualify: string -> string, filters: seq<Filter>)
    ensures Where(dialect, ByPlaceholder, qualify, filters).Ok? <==> AllAccepted(dialect, filters)
    ensures Where(dialect, ByLiteral, qualify, filters).Ok? <==> AllAccepted(dialect, filters)
    ensures var where := Where(dialect, ByPlaceholder, qualify, filters);
      if where.Ok? then where.value.1 == AllValues(filters) else RefusedFor(dialect, filters, where.error)
  {
    WhereFormsAgree(dialect, qualify, filters);
  }

  lemma AssembledComposes(dialect: Dialect, mode: ValueMode, qualify: string -> string, plan: Plan,
                          filters: seq<Filter>)
    requires plan.head.Ok? && plan.tail.Ok? && Where(dialect, mode, qualify, filters).Ok?
    ensures Composed(dialect, mode, qualify, plan, filters,
                     Assembled(plan.head.value, ClauseIn(dialect, mode, qualify, filters), plan.tail.value))
  {
    if filters != [] {
      AssembledIsNested(plan.head.value, Where(dialect, mode, qualify, filters).value.0, plan.tail.value);
    }
  }

  lemma GeneratedIsSound(dialect: Dialect, qualify: string -> string, plan: Plan, filters: seq<Filter>,
                         executed: Option<seq<Token>>, shown: Option<seq<Token>>, params: seq<Value>)
    requires plan.head.Ok? && plan.tail.Ok? && AllAccepted(dialect, filters)
    requires Where(dialect, ByPlaceholder, qualify, filters).Ok? && Where(dialect, ByLiteral, qualify, filters).Ok?
    requires params == Where(dialect, ByPlaceholder, qualify, filters).value.1
    requires executed == ClauseIn(dialect, ByPlaceholder, qualify, filters)
    requires shown == ClauseIn(dialect, ByLiteral, qualify, filters)
    ensures var sql := Assembled(plan.head.value, executed, plan.tail.value);
      var display := Assembled(plan.head.value, shown, plan.tail.value);
      && Sound(dialect, GeneratedSql(sql, params, display)) && params == AllValues(filters)
      && Composed(dialect, ByPlaceholder, qualify, plan, filters, sql)
      && Composed(dialect, ByLiteral, qualify, plan, filters, display)
  {
    WhereFormsAgree(dialect, qualify, filters);
    AssembledComposes(dialect, ByPlaceholder, qualify, plan, filters);
    AssembledComposes(dialect, ByLiteral, qualify, plan, filters);
    AssembledAgree(dialect, plan.head.value, executed, shown, plan.tail.value, params);
    AgreementIsSound(dialect, Assembled(plan.head.value, executed, plan.tail.value),
                     Assembled(plan.head.value, shown, plan.tail.value), params);
  }

  lemma AssembledIsNested(head: string, tokens: seq<Token>, tail: string)
    ensures Assembled(head, Some(tokens), tail) ==
      [Verbatim(head)] + ([Verbatim(" WHERE ")] + tokens + [Verbatim(" ")]) + [Verbatim(tail)]
  {
  }

  lemma BareAgrees(dialect: Dialect, head: string, tail: string)
    ensures Agree(dialect, Assembled(head, None, tail), Assembled(head, None, tail), 0, [])
  {
    AgreeVerbatim(dialect, Verbatim(head), 0);
    AgreeVerbatim(dialect, Verbatim(tail), 0);
    AgreeConcat(dialect, [Verbatim(head)], [Verbatim(head)], [], [Verbatim(tail)], [Verbatim(tail)], [], 0);
    assert [Verbatim(head)] + [Verbatim(tail)] == [Verbatim(head), Verbatim(tail)];
  }

  lemma AssembledAgree(dialect: Dialect, head: string, executed: Option<seq<Token>>, shown: Option<seq<Token>>,
                       tail: string, values: seq<Value>)
    requires executed.None? <==> shown.None?
    requires if executed.Some? then Agree(dialect, executed.value, shown.value, 0, values) else values == []
    ensures Agree(dialect, Assembled(head, executed, tail), Assembled(head, shown, tail), 0, values)
  {
    if executed.Some? {
      var e := [Verbatim(" WHERE ")] + executed.value + [Verbatim(" ")];
      var s := [Verbatim(" WHERE ")] + shown.value + [Verbatim(" ")];
      AgreeAround(dialect, Verbatim(" WHERE "), executed.value, shown.value, Verbatim(" "), 0, values);
      AgreeAround(dialect, Verbatim(head), e, s, Verbatim(tail), 0, values);
      AssembledIsNested(head, executed.value, tail);
      AssembledIsNested(head, shown.value, tail);
    } else {
      BareAgrees(dialect, head, tail);
    }
  }
}
