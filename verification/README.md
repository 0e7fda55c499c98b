# GraphNight, verified

GraphNight compiles semantic queries to SQL under a session policy and lets a bounded agent drive it.
This project models the parts of it whose behaviour is hard to see from reading one function, and proves
what they keep:

- **Suggestions** (`EditDistance`, `Suggest`, `Sorting`): the two-row, swapped-in-place distance loop computes
  the least number of single-character edits, hence a metric; the suggestions are the best names there are,
  whatever order the names are listed in.
- **Joins** (`JoinPaths`, `JoinGraph`, `JoinClauses`): one breadth-first search is a function, `Tree`; every path
  found is a shortest walk, every prefix of a path is itself the path found, and so the union of many searches,
  deduplicated by target, is a join tree and loses nothing.
- **Agent loop** (`Transcript`, `Agent`): whatever the provider, the tools and the clock do, a run stays inside
  every budget, every request carries a well-formed transcript, and every stop reason is given for its own cause.
- **Pipelines** (`Queries`, `StageOrder`, `MultiStage`): the pass-based order succeeds exactly when there is no
  unknown reference and no cycle; every stage runs once, after the stage it refers to, and its outcome comes back
  in the caller's place.
- **Row caps and paging** (`Policies`, `Paging`): the limit set is the least bound present; following
  `next_offset` gives every row once and in order for Postgres, SQLite and DuckDB, and for MySQL exactly while
  there are fewer rows than two full pages.
- **Statements** (`Text`, `Quoting`, `Literals`, `ShownValues`, `Statements`, `Precedence`, `Conditions`): the executed
  and the shown form of a statement agree, what is shown reads back as the values, quoting is undone by lexing, and
  the flat WHERE text, read by SQL's grammar, decides every row as the filters do.
- **Function calls** (`FunctionCalls`, `CallGrammar`, `AllowedFunctions`, `ResolvedCalls`): a text is accepted exactly
  when a grammar says it is a call, printing and parsing allowlisted calls are inverse, and the SQL emitted for one
  reads back as that call on quoted columns and plain numbers.
- **Rate limit** (`RateLimit`): a request is admitted exactly when no window that ends with it overspends.
- **Hashing, cached embeddings, rank fusion** (`Fnv`, `EmbedCache`, `RankFusion`).

Where the source changes state step by step the model does too: arrays and loops for the distance, classes for the
join graph, the limiter, the hasher and the embedding cache, loops for the rest.  Each such method is proved
against a specification function or predicate, and the laws are lemmas about those.

Behaviour the model cannot see is a parameter: `World` (provider, tools, clock), `Executor` (one governed query),
`Embedder` and `Fingerprint`, `qualify` (how a field name becomes a column), the truth value of a single SQL
condition.  Every statement is for all of them.

`dafny verify dfyconfig.toml` checks the project.

## What the code does and its comments do not say

- `topological_order`: the comment says that whatever cannot be resolved is part of a cycle.  The names reported
  are those of the stages that lead *into* a cycle (`StageOrder.TopologicalOrder`).  `StageOrder.NamedAreOnCyclesIff`:
  with distinct names the comment is right of a report exactly when every stage that leads into a cycle is referred
  to by some stage; `StageOrder.NamedNeedNotBeOnACycle` is a pipeline of two stages where it is not.
- `build_join_clauses`: reverse edges have their columns exchanged in `add_model` and their aliases exchanged
  again here.  `JoinClauses.BuildJoinClauses`: where every required model is joined to the base by a declaration of
  either, its clause comes from the first such declaration, in the order of the models and of the joins of each.
  The clause says what was declared, in any order, exactly when the base made that declaration, or its pairs
  include the exchange of each, or the base alias is the name of the model joined.  A second declaration between the
  same two models, under another alias, gets no clause.
  `JoinClauses.ReverseJoinIsExchanged` joins orders to customers and gets the other clause.  The generator requires
  only targets of the base's own joins (`JoinClauses.OwnJoinsAreDirect`); when two models join each other
  (`JoinClauses.MutualJoinsDependOnOrder`) the clause is the declared one or one that nobody declared, depending on
  which model comes first, and the generator takes the models from a hash map.
- MySQL `limit_offset` exchanges its arguments.  `Paging.WindowRightIff`: a page has the rows asked for exactly
  when there is no offset or it equals the cap.  `Paging.PageWithinCapIff`: it may hold more rows than the cap as
  soon as the offset exceeds the cap.  `Paging.PagingEndsIff` and `Paging.PagingIsLosslessIff`: begun without
  an offset, asking again ends, and is lossless, exactly when there are fewer rows than two full pages;
  `Paging.MySqlStartsAgain`: otherwise every later page starts at the same row again.
- `build_where_clause`: a range prints `BETWEEN` twice and an empty list prints `IN ()`.  `Conditions.ConditionReads`:
  a condition is a predicate of SQL, and then the one its filter stands for, exactly when the filter is no range and
  its list, if it has one, is not empty; `Conditions.RangeRepeatsKeyword`: the keyword is all that is wrong.
- Repeated calls are counted by the text `name:arguments`.  `Transcript.FingerprintsMeetIff`: calls of two tools can
  share it exactly when one name continues the other behind a colon; without colons in names
  `Agent.RepeatedCallsWereRepeated` holds of every run, and `Agent.ColonsConfuse` is what goes wrong with them.
- `escape_literal`: the comment says the order of the two replacements is the whole point.
  `Quoting.EscapeStepsCommute`: either order gives the same text.
- Policy filters are appended to a flat text.  `Precedence.GovernedMeansBothIff`: the result means "the caller's
  filters and the policy's" exactly when one of the lists is empty or no filter after the first asks for OR;
  `Precedence.GovernedTextMeans` says what it means otherwise.
- Under a cap of zero paging never ends (`Paging.ProgressIffCapPositive`, `Paging.PagingEndsIff`), and a rate below
  one admits nothing (`RateLimit.SlowRateAdmitsNothing`).

## Model

| member | source | states |
|---|---|---|
| `EditDistance.EditDistance` | crates/graphnight-runtime/src/suggest.rs:366-386 | The answer is the length of a shortest chain of single-character insertions, deletions and substitutions, made anywhere and in any order, between the lowercased texts: one chain has that length, and none is shorter |
| `EditDistance.LowersCapitals` | crates/graphnight-runtime/src/suggest.rs:367-368 | Lowering changes the 26 capital letters, each to its small one, and nothing else |
| `EditDistance.TwoRows` | crates/graphnight-runtime/src/suggest.rs:369-385 | The two rows, swapped after each character, end with the recurrence on the whole texts |
| `EditDistance.FillRow` | crates/graphnight-runtime/src/suggest.rs:378-382 | From the row of the shorter prefix, one pass makes the row of the longer one |
| `EditDistance.DistanceIsMetric` | crates/graphnight-runtime/src/suggest.rs:366-386 | Zero exactly for texts equal up to ASCII case, symmetric, and obeying the triangle inequality |
| `EditDistance.DistanceTriangle` | crates/graphnight-runtime/src/suggest.rs:366-386 | The triangle inequality, for any three texts |
| `EditDistance.ChainAtLeastDistance` | crates/graphnight-runtime/src/suggest.rs:366-386 | No chain of edits is shorter than the distance |
| `EditDistance.ShortestChain` | crates/graphnight-runtime/src/suggest.rs:366-386 | Some chain of edits is exactly as long as the distance |
| `Suggest.ClosestMatchesAreBest` | crates/graphnight-runtime/src/suggest.rs:389-403 | The suggestions are as many accepted names as the limit allows, nearest first and alphabetically among the equally near, and no accepted name left out comes before one returned |
| `Suggest.AcceptsIff` | crates/graphnight-runtime/src/suggest.rs:393-399 | Up to case, a name is accepted exactly when a chain of one edit, or of at most half the bytes of either name, leads from the field to it, or one occurs in the other |
| `Suggest.NameLeqIff` | crates/graphnight-runtime/src/suggest.rs:401 | Names are compared as in a dictionary: a beginning first, else the smaller character where they first differ |
| `Suggest.Utf8BytesAreLeast` | crates/graphnight-runtime/src/suggest.rs:396 | A character counts for the least number of bytes UTF-8 needs for it (section 3 of RFC 3629) |
| `Suggest.ClosestMatchesIgnoreOrder` | crates/graphnight-runtime/src/suggest.rs:389-403 | Two listings of the same names get the same suggestions in the same order |
| `Sorting.SortByCorrect` | crates/graphnight-runtime/src/suggest.rs:401 | Sorting by a total preorder gives a sorted permutation |
| `Sorting.SortByIsStable` | crates/graphnight-runtime/src/suggest.rs:401 | Elements that neither precede nor follow one another keep their order |
| `JoinPaths.TreeIsShortest` | crates/graphnight-core/src/join.rs:70-98 | Whatever a walk reaches the search finds, and by no longer a path |
| `JoinPaths.TreePathIsWalk` | crates/graphnight-core/src/join.rs:70-98 | Each path found is a connected walk of the graph from its start to its end |
| `JoinPaths.TreePrefix` | crates/graphnight-core/src/join.rs:70-98 | Every prefix of a path found is itself the path found for the model it ends at: searches from one base agree on every shared model |
| `JoinGraph.JoinGraph.constructor` | crates/graphnight-core/src/join.rs:19-30 | Building from models gives their graph, and every edge can be walked back |
| `JoinGraph.JoinGraph.AddModel` | crates/graphnight-core/src/join.rs:32-67 | Adds a forward and a reverse edge per join, in order, and keeps the graph symmetric |
| `JoinGraph.GraphIsSymmetric` | crates/graphnight-core/src/join.rs:32-67 | In a graph built from models every edge can be walked back |
| `JoinGraph.JoinGraph.FindPath` | crates/graphnight-core/src/join.rs:70-98 | Succeeds exactly when some walk exists, with a walk no longer than any other, the one the search tree holds; fails only with the error naming both ends |
| `JoinGraph.JoinGraph.SearchFor` | crates/graphnight-core/src/join.rs:70-98 | The queue loop, stopped early, still answers what the exhaustive search tree holds |
| `JoinGraph.Visit` | crates/graphnight-core/src/join.rs:84-93 | Looking at one model's edges extends the queue and the visited set as one step of the tree does |
| `JoinGraph.PathsBothWays` | crates/graphnight-core/src/join.rs:32-98 | In a symmetric graph, searching from either end succeeds together and gives paths of equal length |
| `JoinGraph.ReverseWalk` | crates/graphnight-core/src/join.rs:43-62 | A walk can be walked back in as many steps |
| `JoinGraph.JoinGraph.ResolveJoins` | crates/graphnight-core/src/join.rs:101-125 | Succeeds exactly when every required model is reachable; the answer is a join tree rooted at the base with no target twice and never the base, each edge leaving the base or an earlier target, covering every required path and holding no other edge; otherwise the first unreachable model is reported |
| `JoinGraph.JoinGraph.CollectPaths` | crates/graphnight-core/src/join.rs:106-112 | The loop gathers the path of every required model but the base, or stops at the first that has none |
| `JoinGraph.DedupDropsOnlyRepeats` | crates/graphnight-core/src/join.rs:114-122 | Because all edges come from one search tree, dropping later edges into a target drops exact repeats only |
| `JoinGraph.Dedup` | crates/graphnight-core/src/join.rs:114-122 | The loop with its seen-set keeps the first edge into each target |
| `JoinPaths.FirstEdgeIsPath` | crates/graphnight-core/src/join.rs:70-98 | The path to a model that some edge of the base leads to is the first such edge alone |
| `JoinClauses.GraphEdgesAreDeclared` | crates/graphnight-core/src/join.rs:32-67 | An edge is in the graph exactly when some model declared its join, or the join it reverses |
| `JoinClauses.EdgesInOrder` | crates/graphnight-core/src/join.rs:32-67 | The edges of a model are those of the declarations it makes and of the declarations made to it, each once, in the order of models and joins |
| `JoinClauses.BuildJoinClauses` | crates/graphnight-core/src/join.rs:141-184 | One clause per edge of the join tree, in order: no table twice, never the base, every required one, or the first unreachable model; where some declaration joins each required model to the base, it succeeds; each clause has the type, table, alias and pairs of a declaration, of the first between the base and its table where all is direct, and then says what was declared exactly when the base made it, or its pairs include the exchange of each, or the base goes by the name of the table |
| `JoinClauses.ClauseSpells` | crates/graphnight-core/src/join.rs:150-181 | From either side, the clause of a declaration has its join type by SQL's keyword (section 7.5 of ISO/IEC 9075:1992), the model it leads to as table, the declared alias or else the table's name, and the pairs in order, exchanged from the other side |
| `JoinClauses.FirstOfAll` | crates/graphnight-core/src/join.rs:32-67 | The first edge from the base into a table is that of the first declaration between the two, in the order of models and joins; without an edge there is no declaration |
| `JoinClauses.BuildClause` | crates/graphnight-core/src/join.rs:150-181 | The clause of one edge, with its ON conditions in declaration order |
| `JoinClauses.DirectJoinsStayDirect` | crates/graphnight-core/src/join.rs:101-125 | When every required model is joined to the base directly, every edge of the tree leaves the base, so its alias is the right qualifier, and is the first declared between the two |
| `JoinClauses.EdgeSaysDeclarationIff` | crates/graphnight-core/src/join.rs:44-58 | For any edge that leaves the base: its clause holds exactly the conditions some model declared for it, in any order, exactly when the edge is forward, or its pairs include the exchange of each, or the base goes by the name of the target |
| `JoinClauses.DirectClausesSayDeclarationIff` | crates/graphnight-core/src/join.rs:161-171 | The same for every clause of a query whose joins are all direct, of the first declaration between the base and the clause's table |
| `JoinClauses.OwnJoinsAreDirect` | crates/graphnight-sql/src/generator.rs:849-864 | The targets of the base's own joins, all that the generator requires, are direct |
| `JoinClauses.MutualJoinsDependOnOrder` | crates/graphnight-sql/src/generator.rs:854-864 | Orders and customers each declare their join to the other; joining customers to orders gives what orders declared when orders come first, and customers.customer_id = orders.id, which nobody declared, when customers do |
| `JoinClauses.ReverseJoinIsExchanged` | crates/graphnight-core/src/join.rs:161-171 | Orders join customers on (customer_id, id); joining orders to customers yields one reverse edge and the clause orders.id = customers.customer_id, which nobody declared |
| `Agent.Run` | crates/graphnight-runtime/src/agent.rs:256-466 | For every provider, tool set and clock the run ends; it makes at most `max_steps` requests, each following whole turns and sent below the token budget and, by the clock read just then, in time; every call is run in time by its own reading, steps are the executed calls in order with the very result each got, repeats and failures stay within bounds, and each stop reason has its own cause, in the order in which the bounds are checked, with an answer only when completed or truncated |
| `Agent.RepeatsAreBounded` | crates/graphnight-runtime/src/agent.rs:394-407 | In every run no tool is called with the same arguments more often than the budget allows |
| `Agent.RepeatedCallsWereRepeated` | crates/graphnight-runtime/src/agent.rs:394-407 | Where no tool has a colon in its name, a run that stops for repeated calls stops, in time, at a call that the steps hold exactly as often as the budget allows |
| `Agent.ColonsConfuse` | crates/graphnight-runtime/src/agent.rs:395 | With colons in names a call that was never made counts as made |
| `Transcript.FingerprintsMeetIff` | crates/graphnight-runtime/src/agent.rs:395 | Calls of two tools can share a fingerprint exactly when the names are equal or one continues the other behind a colon |
| `Agent.FailuresWereConsecutive` | crates/graphnight-runtime/src/agent.rs:416-440 | A run that stops for failures ends with exactly one more of them in a row than the budget allows |
| `Agent.TokensAreCounted` | crates/graphnight-runtime/src/agent.rs:270-297 | The tokens a request is weighed by, and a token stop is given for, are the input and output tokens of the replies so far |
| `Agent.RequestsShowAnswers` | crates/graphnight-runtime/src/agent.rs:377-463 | A request shows each earlier reply as the provider gave it and, in the place of each of its calls, what the tool answered to that call |
| `Agent.NoticeIsAppended` | crates/graphnight-runtime/src/agent.rs:482-492 | Unless the run completed, the answer is the text as it was, an empty line unless the text is blank, and the notice |
| `Agent.RunCalls` | crates/graphnight-runtime/src/agent.rs:382-463 | The calls of a reply run in order, each answered, until a bound stops the run |
| `Agent.RunCall` | crates/graphnight-runtime/src/agent.rs:383-463 | A call runs only in time and under the repeat bound; its failure ends the run only when it is one too many |
| `Agent.Finish` | crates/graphnight-runtime/src/agent.rs:470-502 | Whatever the reason, a completed answer is unchanged, any other answer has the notice of its reason appended, no answer stays none, and everything else is passed on |
| `Agent.RequestsAreWellFormed` | crates/graphnight-runtime/src/agent.rs:377-463 | At every request the messages are the question and then assistant turns each followed by exactly one result per call, in order and under matching ids |
| `Agent.ResultsAreAnswers` | crates/graphnight-runtime/src/agent.rs:409-462 | Each result in the transcript is what the tool answered to the very call it stands under |
| `Agent.FailuresAreBounded` | crates/graphnight-runtime/src/agent.rs:416-440 | A stretch of failures exceeds its bound by at most one, and then only as the last step of a run stopped for it |
| `Transcript.FirstUsesAreTheTools` | crates/graphnight-runtime/src/agent.rs:429-444 | `tools_used` holds exactly the tools of the steps, each once |
| `Transcript.FirstUsesAreInOrder` | crates/graphnight-runtime/src/agent.rs:429-444 | They are listed in the order in which they were first used |
| `Transcript.WholeTurnsAreWellFormed` | crates/graphnight-runtime/src/agent.rs:377-463 | Whole turns make a well-formed message list |
| `StageOrder.TopologicalOrder` | crates/graphnight-runtime/src/governance.rs:644-682 | With distinct names, succeeds exactly when every reference is known and none runs into a cycle; the order is a permutation with each reference before its user, stages already in order keep it; otherwise the first unknown reference, or exactly the stages that lead into a cycle |
| `StageOrder.Pass` | crates/graphnight-runtime/src/governance.rs:651-673 | One pass over the waiting stages: what it resolves, what keeps waiting, and the first unknown reference |
| `StageOrder.ScheduledHasNoCycle` | crates/graphnight-runtime/src/governance.rs:644-682 | A pipeline that can be scheduled has no cycle |
| `StageOrder.StuckLeadsIntoCycle` | crates/graphnight-runtime/src/governance.rs:674-680 | Pigeonhole: when a pass resolves nothing, references from every waiting stage run into a cycle |
| `StageOrder.NamedAreOnCyclesIff` | crates/graphnight-runtime/src/governance.rs:642-680 | For any cycle report over distinct names, every stage it names is on a cycle exactly when every stage that leads into a cycle is referred to by some stage of the pipeline |
| `StageOrder.CyclicAreOnCyclesIff` | crates/graphnight-runtime/src/governance.rs:642-643 | The same of the pipeline itself: everything that leads into a cycle is on one exactly when all of it is referred to |
| `StageOrder.UsersComeRound` | crates/graphnight-runtime/src/governance.rs:642-643 | Pigeonhole backwards: where every stage that leads into a cycle has a user, the users of users come round to it |
| `StageOrder.NamedNeedNotBeOnACycle` | crates/graphnight-runtime/src/governance.rs:674-680 | Two stages for which any answer the contract allows is a cycle report naming a stage that is on no cycle |
| `StageOrder.UnreferencedIsOnNoCycle` | crates/graphnight-runtime/src/governance.rs:642-643 | A stage nothing refers to is on no cycle |
| `MultiStage.ExecuteMultiStage` | crates/graphnight-runtime/src/governance.rs:377-434 | On success every stage ran exactly once, in the order of a schedule, after the stage it refers to; it asked its own query with, after its own filters, one equality per named, blank-free column of the first row of that stage, in order; there is one outcome per stage in the caller's order; a failed query stops the run at the next stage of the schedule, whose prepared query it was, with exactly the stages before it run; every other error comes before any run and for its own cause, and the "not an earlier stage" error and the missing stage cannot occur |
| `MultiStage.RunInOrder` | crates/graphnight-runtime/src/governance.rs:402-433 | The main loop runs the schedule and scatters outcomes back to the caller's slots, or stops where a query fails |
| `MultiStage.PositionsOf` | crates/graphnight-runtime/src/governance.rs:388-400 | The position map exists exactly for distinct names; otherwise a duplicate is named |
| `MultiStage.PrepareQuery` | crates/graphnight-runtime/src/governance.rs:402-421 | The query a stage runs: filtered by the outcome the log has for its reference, named after the stage when it names no source |
| `MultiStage.ApplyStageRef` | crates/graphnight-runtime/src/governance.rs:690-708 | The first row of the referenced stage becomes equality filters, usable columns only, after the caller's own |
| `MultiStage.AsksIff` | crates/graphnight-runtime/src/governance.rs:690-708 | The query prepared is the only one that keeps the stage's query, adds those equalities and nothing else, and names a query without name and source after the stage |
| `MultiStage.SameFirstRowSameQuery` | crates/graphnight-runtime/src/governance.rs:692 | Outcomes with the same first row make the same query |
| `MultiStage.FlattenFull` | crates/graphnight-runtime/src/governance.rs:433 | Flattening filled slots drops nothing |
| `Policies.ApplyForcedFilters` | crates/graphnight-core/src/security.rs:175-179 | Forced filters follow the caller's, in order |
| `Policies.ApplyRls` | crates/graphnight-core/src/security.rs:182-186 | The row filter, if any, comes last |
| `Policies.ApplyPolicy` | crates/graphnight-runtime/src/governance.rs:451-452 | The caller's filters come first and are kept; the policy's follow |
| `Policies.ApplyRowCap` | crates/graphnight-runtime/src/governance.rs:461-474 | The limit set and returned is the least of the bounds present; how many rows a page then has is `Paging.PageWithinCapIff` |
| `Policies.NoPolicyCapIsTenThousand` | crates/graphnight-runtime/src/governance.rs:467 | A policy without a cap caps at ten thousand rows |
| `Policies.EnforceRowLimit` | crates/graphnight-core/src/security.rs:189-196 | The same query as `ApplyRowCap` gives without a per-call cap |
| `Paging.FetchPage` | crates/graphnight-runtime/src/governance.rs:341-354 | The page is the window the dialect's clause selects; it is truncated exactly when it has the cap or more, and then points its own length past the offset; but for MySQL it never has more |
| `Paging.PagingIsLossless` | crates/graphnight-runtime/src/governance.rs:341-354 | For Postgres, SQLite and DuckDB, with a cap of at least one, following `next_offset` ends and gives every row from the offset on exactly once, in order |
| `Paging.PagingIsLosslessIff` | crates/graphnight-runtime/src/governance.rs:341-354 | For any dialect, cap and start: it does so exactly when the cap is at least one and the dialect is not MySQL, or there are fewer rows than two full pages and no offset to start with; for other starts under MySQL the exact bound is `MySqlCompletes` |
| `Paging.PagingEndsIff` | crates/graphnight-sql/src/dialects.rs:384-399 | Following `next_offset` ends exactly when the cap is at least one and the dialect is not MySQL, or there are fewer rows than two full pages, or the start is an offset below the cap |
| `Paging.MySqlStartsAgain` | crates/graphnight-sql/src/dialects.rs:384-399 | Under MySQL, with two full pages of rows or more, every page at an offset of the cap or beyond is truncated, starts at the row after the first page, and points at least a cap further on |
| `Paging.PageCount` | crates/graphnight-runtime/src/governance.rs:341-354 | How many pages that takes for Postgres, SQLite and DuckDB |
| `Paging.OnlyLastPageIsComplete` | crates/graphnight-runtime/src/governance.rs:341-354 | Then every page but the last is full and says it is truncated; the last does not |
| `Paging.MySqlOffsetAlone` | crates/graphnight-sql/src/dialects.rs:393-397 | With an offset alone MySQL's clause selects all remaining rows exactly when they are at most 2^64 - 1 |
| `Paging.ProgressIffCapPositive` | crates/graphnight-runtime/src/governance.rs:343-353 | In every dialect, asking again makes progress exactly when the cap is at least one |
| `Paging.WindowRightIff` | crates/graphnight-sql/src/dialects.rs:384-399 | The page has the rows asked for, whatever the rows, exactly when the dialect is not MySQL, or there is no offset, or it equals the cap |
| `Paging.PageWithinCapIff` | crates/graphnight-sql/src/dialects.rs:384-399 | A page holds at most the cap, whatever the rows, exactly when the dialect is not MySQL, or there is no offset, or it is at most the cap |
| `Statements.Generate` | crates/graphnight-sql/src/generator.rs:145-173 | Succeeds exactly when the source, select list, every filter, grouping, order and joins are acceptable, else reports the first that is not; the executed text holds no value, its placeholders are numbered 1 to n in text order with n the number of parameters, the parameters are the filter values in order, and putting the formatted parameters in their places gives the shown text; each text is the head, the WHERE text of all filters, and the tail |
| `Conditions.WhereSelects` | crates/graphnight-sql/src/generator.rs:701-791 | For every database and row, the executed WHERE text with its parameters, read by sections 8.2 to 8.6 and 8.12 of ISO/IEC 9075:1992, has the truth value the filters give it: a disjunction of AND-groups of what each asks of its own column and value |
| `Conditions.ConditionReads` | crates/graphnight-sql/src/generator.rs:729-788 | In either form the tokens of an accepted filter read as the predicate it stands for, on its own column and operands, exactly when it is no range and its list, if it has one, is not empty; otherwise SQL has no such predicate |
| `Conditions.PredicateMeans` | crates/graphnight-core/src/models.rs:170-215 | The predicate of each operator means what the operator says for any comparison of values: six orders, two patterns, membership, null and range each with its negation, three spatial relations with the row's geometry first |
| `Conditions.RangeRepeatsKeyword` | crates/graphnight-sql/src/generator.rs:772-777 | With BETWEEN once, the tokens of a range read as the range it stands for |
| `Conditions.QualifiedIsOneWord` | crates/graphnight-sql/src/generator.rs:583-601 | However a column is named, behind a plain alias and in its quotes it is read as one column |
| `Statements.BuildWhereClause` | crates/graphnight-sql/src/generator.rs:701-791 | The loop that pushes conditions and parameters computes the flat text of the filters, or its first error |
| `Statements.BuildCondition` | crates/graphnight-sql/src/generator.rs:729-788 | One condition per filter: spatial call, list, range, bare or compared, with each kind's error |
| `Statements.RefusalIff` | crates/graphnight-sql/src/generator.rs:729-771 | A spatial filter needs a text or an object and a dialect other than MySQL's and SQLite's, a list filter a list, a range a list of at least two; every other filter is accepted, and what is missing is the error |
| `Statements.BuildList` | crates/graphnight-sql/src/generator.rs:762-771 | A membership list, each value rendered in turn |
| `Statements.PushValue` | crates/graphnight-sql/src/generator.rs:913-926 | One value becomes a new parameter and its placeholder, or a literal and no parameter |
| `Statements.WhereFormsAgree` | crates/graphnight-sql/src/generator.rs:701-791 | For any filters both modes succeed together, and their texts differ only in holding placeholder or formatted value |
| `Statements.ConditionsAgree` | crates/graphnight-sql/src/generator.rs:729-788 | The same for one filter of any kind, spatial or not, after any number of bound values |
| `Statements.AgreementIsSound` | crates/graphnight-sql/src/generator.rs:140-144 | Agreeing texts satisfy everything `Generate` promises of a statement |
| `Statements.DisplayShowsTheValues` | crates/graphnight-sql/src/dialects.rs:128-140 | The shown statement has one literal per parameter, in order, and in its dialect each reads as exactly the texts its parameter is made of |
| `Statements.FillShows` | crates/graphnight-sql/src/generator.rs:140-144 | Filling in placeholders shows the formatted parameter of each, in text order |
| `Literals.FormattedValueReadsBack` | crates/graphnight-sql/src/dialects.rs:128-140 | In every dialect a value shown, lists of lists included, leaves no literal open and its literals say exactly the texts of the value, in order |
| `ShownValues.ShownValueReadsBack` | crates/graphnight-sql/src/dialects.rs:128-140 | In every dialect a value shown reads back as that value, nulls, truth values, numbers and nested lists included, with nothing of what follows; SQLite's truth values are numbers and objects are texts |
| `ShownValues.DisplayReadsBack` | crates/graphnight-sql/src/generator.rs:140-144 | Literal i of the shown statement reads as parameter i |
| `Literals.FormattedTextReadsBack` | crates/graphnight-sql/src/dialects.rs:277-295 | In every dialect a text literal is read back as the value it shows, with nothing of what follows |
| `Precedence.WhereTextMeans` | crates/graphnight-sql/src/generator.rs:714-790 | Read with AND binding tighter than OR (section 8.12 of ISO/IEC 9075:1992), the generated text of either form has the value its groups give it, for any truth values of the conditions |
| `Precedence.ReadMeansMeaning` | crates/graphnight-sql/src/generator.rs:714-719 | The same for any conditions joined by any flags |
| `Precedence.MeaningIsDisjunctionOfGroups` | crates/graphnight-sql/src/generator.rs:714-719 | In three-valued logic the text is at least as true as a rank exactly when some maximal AND-group is throughout |
| `Precedence.LastGroup` | crates/graphnight-sql/src/generator.rs:714-719 | The last group is a disjunct of its own; with one group the text is the conjunction of all |
| `Precedence.PolicyJoinsLastGroup` | crates/graphnight-core/src/security.rs:175-186 | Policy filters that do not ask for OR conjoin with the caller's last group, and only with it |
| `Precedence.GovernedTextMeans` | crates/graphnight-core/src/security.rs:175-186 | The generated text of a governed query: the caller's earlier groups, or the last group and every policy filter |
| `Precedence.GovernedMeansBothIff` | crates/graphnight-core/src/security.rs:175-186 | It means "caller and policy" for all rows exactly when one list is empty or no filter after the first asks for OR |
| `Quoting.QuotedIdentReadsBack` | crates/graphnight-sql/src/dialects.rs:120-122 | A quoted identifier followed by any text is read back as exactly the identifier and that text, if and only if the text does not start with the quote (section 5.2 of ISO/IEC 9075:1992) |
| `Quoting.QuoteIdentInjective` | crates/graphnight-sql/src/dialects.rs:273-275 | Different identifiers are quoted differently |
| `Quoting.ReadIsDoubled` | crates/graphnight-sql/src/dialects.rs:120-122 | Only the doubled text reads back as a given identifier |
| `Quoting.EscapedLiteralReadsBack` | crates/graphnight-sql/src/dialects.rs:263-265 | With backslash escapes on, the escaped literal is read back as the value, with nothing of what follows |
| `Quoting.EscapedLiteralEndsWithoutEscapes` | crates/graphnight-sql/src/dialects.rs:259-265 | With escapes off it ends at the same place, its backslashes doubled |
| `Quoting.EscapeStepsCommute` | crates/graphnight-sql/src/dialects.rs:253-265 | The order of the two replacements does not change the text |
| `FunctionCalls.ParseFunctionCall` | crates/graphnight-core/src/formula.rs:381-423 | The branches of the code compute the parse of the text, first error included |
| `CallGrammar.AcceptedIff` | crates/graphnight-core/src/formula.rs:381-423 | A text is accepted as a call exactly when the name is allowed and the text is blanks, the name, blanks, "(", the arguments each between blanks with commas between them (blanks alone for none), ")" and blanks |
| `CallGrammar.ParseIff` | crates/graphnight-core/src/formula.rs:381-423 | For a text that begins as a call, the exact condition of the call and of each error: no closing parenthesis; something other than blanks behind the last one; a name not allowed; a blank argument, or one that is neither number nor column, as the first bad one |
| `CallGrammar.NoCallIff` | crates/graphnight-core/src/formula.rs:369-387 | A text is left to be something else exactly when it does not begin with dotted plain identifiers and an opening parenthesis, blanks around the name |
| `CallGrammar.ColumnReferenceGrammar` | crates/graphnight-core/src/formula.rs:411 | A column reference is one plain identifier, or two with a dot between |
| `CallGrammar.CharacterClasses` | crates/graphnight-core/src/formula.rs:344-367 | The letters, digits and marks that names and numbers are made of, each listed |
| `FunctionCalls.ParseArguments` | crates/graphnight-core/src/formula.rs:404-419 | The argument loop, which stops at the first argument that is neither a number nor a column |
| `FunctionCalls.ParseAllIff` | crates/graphnight-core/src/formula.rs:404-420 | The argument list parses exactly when each argument does, to their results in order |
| `FunctionCalls.NumericLiteralGrammar` | crates/graphnight-core/src/formula.rs:344-367 | A literal is accepted exactly when it is a sign or none, digits, a fraction or none, an exponent or none |
| `FunctionCalls.NumberIsNotColumn` | crates/graphnight-core/src/formula.rs:409-412 | No text is both a number and a column reference, so the order of the two tests is immaterial |
| `FunctionCalls.ParsePrint` | crates/graphnight-core/src/formula.rs:381-423 | Parsing what a valid call prints gives that call |
| `FunctionCalls.AcceptedCallsReparse` | crates/graphnight-core/src/formula.rs:381-423 | Accepted text is a valid call, whose printed form parses to the same call |
| `AllowedFunctions.AllowedIsPlain` | crates/graphnight-core/src/formula.rs:319-323 | Every name the allowlist admits, in any case, is a plain identifier and needs no quoting |
| `AllowedFunctions.AllowedCallsRoundTrip` | crates/graphnight-core/src/formula.rs:381-423 | Both directions, for the actual allowlist |
| `ResolvedCalls.ResolveExpression` | crates/graphnight-sql/src/generator.rs:385-410 | An expression becomes a qualified column, a call, or the parser's error; with plain aliases the text of a call reads back, whatever follows it, as the allowlisted name on one column or number per argument, and that of a column as the column the field lives in; `*` stays as it is |
| `ResolvedCalls.CallReadsBack` | crates/graphnight-sql/src/generator.rs:398-410 | The same for any valid call: no column name, however spelled, ends its argument early (section 5.2 of ISO/IEC 9075:1992) |
| `ResolvedCalls.ListReadsBack` | crates/graphnight-sql/src/generator.rs:409 | Texts that each read as an argument read, joined by commas, as those arguments |
| `RateLimit.RateLimitState.TryAcquire` | crates/graphnight-server/src/rate_limit.rs:62-82 | The buckets are those the whole history of calls leaves; over a time-ordered history a token is granted exactly when no window ending now would admit more than its budget; a refusal carries the wait |
| `RateLimit.RateLimitState.TakeToken` | crates/graphnight-server/src/rate_limit.rs:62-82 | Refill, cap, take or refuse, on the bucket of one key; no other bucket changes |
| `RateLimit.LevelIsLeastAllowance` | crates/graphnight-server/src/rate_limit.rs:70-76 | A bucket stands at the least of what all windows leave of their budgets, or full |
| `RateLimit.AdmittedIffEveryWindowAffordsIt` | crates/graphnight-server/src/rate_limit.rs:70-76 | An attempt is admitted exactly when one more admission fits the budget of every window that ends with it |
| `RateLimit.WindowBound` | crates/graphnight-server/src/rate_limit.rs:62-82 | Any window of any schedule admits at most a full bucket plus what flows in during it |
| `RateLimit.WindowOfLength` | crates/graphnight-server/src/rate_limit.rs:62-82 | At most `rps + rps * T` admissions on one key in `T` seconds |
| `RateLimit.KeysAreIndependent` | crates/graphnight-server/src/rate_limit.rs:64-68 | What an attempt meets depends on the earlier attempts on its own key alone |
| `RateLimit.RejectedAttemptsLeaveNoTrace` | crates/graphnight-server/src/rate_limit.rs:70-81 | Deleting a rejected attempt changes no other decision and no other level |
| `RateLimit.WaitIsLeast` | crates/graphnight-server/src/rate_limit.rs:77-81 | An undisturbed retry whole seconds later succeeds exactly when the rate is at least one and the answered wait has passed |
| `RateLimit.WaitFillsToken` | crates/graphnight-server/src/rate_limit.rs:77-81 | At any rate the answered wait is the least whole number of seconds, at least one, in which the missing part of a token flows in |
| `RateLimit.NoTimeNoTokens` | crates/graphnight-server/src/rate_limit.rs:70 | A clock that does not advance brings no tokens |
| `RateLimit.SlowRateAdmitsNothing` | crates/graphnight-server/src/rate_limit.rs:71-74 | A rate below one never admits anything |
| `Fnv.FeedConcat` | crates/graphnight-sql/src/cache.rs:154-171 | Feeding pieces equals feeding their concatenation |
| `Fnv.UnfeedUndoesFeed` | crates/graphnight-sql/src/cache.rs:154-171 | Given the bytes, the state before them is recovered from the state after |
| `Fnv.TimesInverse` | crates/graphnight-sql/src/cache.rs:168-171 | The multiplier is invertible modulo 2^64 |
| `Fnv.DistinctStatesStayDistinct` | crates/graphnight-sql/src/cache.rs:154-171 | Distinct states stay distinct under any common suffix |
| `Fnv.OneByteNeverCollides` | crates/graphnight-sql/src/cache.rs:128-132 | Two keys of equal length that differ in exactly one byte never collide |
| `Fnv.PublishedDigests` | crates/graphnight-sql/src/cache.rs:128-171 | The digests of the empty text and of "a" are the published ones of 64-bit FNV-1a |
| `Fnv.TerminatedIsInjective` | crates/graphnight-sql/src/cache.rs:118-125 | Parts without zero bytes are recovered from the bytes `hash_key` feeds |
| `Fnv.FxHasher.FeedU8` | crates/graphnight-sql/src/cache.rs:168-171 | One byte: exclusive or, then a wrapping multiplication |
| `Fnv.FxHasher.FeedBytes` | crates/graphnight-sql/src/cache.rs:154-158 | The loop feeds the bytes in order |
| `Fnv.HashBytes` | crates/graphnight-sql/src/cache.rs:128-132 | The digest of the bytes from the offset basis |
| `Fnv.HashKey` | crates/graphnight-sql/src/cache.rs:118-125 | The digest of the parts, each followed by a zero byte |
| `Fnv.SimpleHash` | crates/graphnight-server/src/rate_limit.rs:105-112 | The same digest as `HashBytes` |
| `EmbedCache.ToolCatalog.EmbedOrCached` | crates/graphnight-runtime/src/tools.rs:937-987 | Answers at each position the cached or the fresh vector, sends exactly the texts without a current entry, in order, and leaves the cache with the fresh ones; it fails exactly with the embedder or for a wrong number of vectors, and then changes nothing |
| `EmbedCache.ToolCatalog.ReadCache` | crates/graphnight-runtime/src/tools.rs:943-958 | Fills the current slots and lists the others in order |
| `EmbedCache.ToolCatalog.WriteCache` | crates/graphnight-runtime/src/tools.rs:976-983 | Scatters the fresh vectors to their slots and into the cache |
| `EmbedCache.AnswersDirectly` | crates/graphnight-runtime/src/tools.rs:937-987 | From a coherent cache, a successful answer is the direct embedding of every text |
| `EmbedCache.HistoryIsCoherent` | crates/graphnight-runtime/src/tools.rs:937-987 | Any history of calls, failed ones included, leaves the cache coherent |
| `EmbedCache.CacheNeverShows` | crates/graphnight-runtime/src/tools.rs:937-987 | After any history, a successful call answers with the direct embeddings and has sent exactly the texts without a current entry |
| `EmbedCache.AskingAgainSendsNothing` | crates/graphnight-runtime/src/tools.rs:936-987 | With distinct models, the same call again sends nothing |
| `RankFusion.ReciprocalRankFusion` | crates/graphnight-runtime/src/embedding.rs:124-143 | For any weights and any k, every id of either list once, each with its whole score, highest first unless some score is not a number; that is so exactly when the rank r with k + r + 1 = 0 exists and a list of weight zero reaches it, or both lists hold the same id at it under weights of opposite sign |
| `RankFusion.UsualInputsMeetNoPole` | crates/graphnight-runtime/src/embedding.rs:113-134 | k at least zero, or two weights of the same sign, rule that out |
| `RankFusion.AddList` | crates/graphnight-runtime/src/embedding.rs:131-136 | Adds to each score what one list gives it, by the rules for infinities where a denominator is zero |
| `RankFusion.ScoreAtRank` | crates/graphnight-runtime/src/embedding.rs:132-134 | In a duplicate-free list an id scores by its rank alone |
| `RankFusion.FusedScore` | crates/graphnight-runtime/src/embedding.rs:131-136 | Of lists without repeats, a fused score is the sum of what each gives, and what one gives at rank i times k + i + 1 is its weight |
| `RankFusion.ShareTimesDenominator` | crates/graphnight-runtime/src/embedding.rs:134 | A share is the weight over its denominator; over zero it is infinite with the sign of the weight, or no number without one |
| `RankFusion.AboveIsOrder` | crates/graphnight-runtime/src/embedding.rs:141 | Scores that are numbers are totally ordered, infinities at the ends; what is not a number is above and below nothing |
| `RankFusion.AheadScoresMore` | crates/graphnight-runtime/src/embedding.rs:132-134 | Within a weighted list, ranked ahead means a strictly higher share |
| `RankFusion.ConsensusIsKept` | crates/graphnight-runtime/src/embedding.rs:113-143 | An id ahead of another in every weighted list holding the other, of which there is one, scores strictly higher and precedes it |

## Left out

- Drivers, pools, row decoding, storage, HTTP, GraphQL, MCP framing, identity providers, model clients, the command line and language bindings: input and output.
- Flat enum parsers and field-by-field conversions: one-branch facts.
- Agent.Run: does not model `duration_ms` of a step, the serialised text of a tool result (the message carries the result itself), or 32- and 64-bit overflow of the counters; the seconds shown in a notice are those of the clock oracle.
- Agent.Run: the provider's timeout and its own timeout error are one case, as they are in the code; the clock is read once before each request and each call, and that it never goes back is not needed and not required; the `elapsed` field of a run is not part of this model.
- Agent.Finish: the wording of the notices is a table of texts.
- MultiStage.ExecuteMultiStage: running one governed query is an oracle that may answer or fail, so access checks, masks and audit are not part of this model; a query changed through a mutable reference is returned.
- Statements.Generate: what no filter value reaches is an opaque head (source, select list), resolved before the filters, and an opaque tail (grouping, order, joins), resolved after them; each is a text or a failure, equal in both forms because both come from one plan; trimming at the end of the text is not modelled.
- Statements.Generate: a placeholder is a numbered token; the dialects that print `?` for every number rely on the order, which is stated.
- Statements.BuildCondition: indexing a list shorter than two panics in the code and is the error `OutOfBounds` here.
- Statements.Generate: how a field name becomes a column is a function parameter; the registry behind it is not part of this model.
- Conditions.WhereSelects: how a database compares two values, matches a pattern or relates two geometries is a parameter; that a column is read as one word is a condition, met by quoted names behind plain aliases; types and their coercions are not part of this model.
- JoinClauses.BuildJoinClauses: "says what was declared" compares the sets of conditions, each up to exchanging its sides, and not what follows from equalities; the ON columns of edges further than one step from the base use the base's alias all the same, and are stated as they are; only for direct joins is it stated when they are right.
- Suggest.ClosestMatchesAreBest: the standard library's stable sort is modelled as an insertion sort; names compare by characters, which for UTF-8 is the order of bytes.
- RateLimit.RateLimitState.TryAcquire: rates and times are exact; rounding of `f64` and truncation of the wait to 64 bits are not modelled, and the lock is the atomicity of the method.
- RankFusion.ReciprocalRankFusion: scores are exact, with infinities but without rounding; with a score that is not a number the comparison of the code is no order, and the model promises no order of the answer (the library may also panic); the order in which a map yields its entries is arbitrary.
- EmbedCache.CacheNeverShows: vectors are sequences of reals compared exactly; that the fingerprint tells the texts seen apart is an assumption, and the hasher behind it is not part of this model.
- `canonical_query_bytes` is not claimed to be injective: it marks no list boundaries and maps all custom aggregations to one name.
- The plan cache is not claimed fresh across `register_model`: nothing clears it.
- ResolvedCalls.ResolveExpression: which alias a field belongs to is a function parameter; that aliases are plain identifiers is a condition of the reading, since the code does not quote them.
- The formula registry, granularities and time dimensions: lookups.
