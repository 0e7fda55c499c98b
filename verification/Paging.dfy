/** Paging through a result with `next_offset`: the end of `QueryService::execute` in
    crates/graphnight-runtime/src/governance.rs, over a fixed sequence of rows and with the LIMIT and OFFSET
    of each dialect of crates/graphnight-sql/src/dialects.rs. */
module Paging {
  import opened Literals
  import opened Results

  // ---------- LIMIT and OFFSET ----------

  datatype LimitClause = LimitClause(limit: Option<nat>, offset: Option<nat>)

  /** MySQL exchanges its arguments where it has both. */
  function MySqlLimitOffset(limit: Option<nat>, offset: Option<nat>): LimitClause {
    if limit.Some? then
      if offset.Some? then LimitClause(offset, limit) else LimitClause(limit, None)
    else if offset.Some? then LimitClause(Some(18446744073709551615), offset)
    else LimitClause(None, None)
  }

  function LimitOffset(driver: Driver, limit: Option<nat>, offset: Option<nat>): LimitClause {
    if driver.MySql? then MySqlLimitOffset(limit, offset) else LimitClause(limit, offset)
  }

  function StartOf(offset: Option<nat>): nat {
    if offset.Some? then offset.value else 0
  }

  /** The rows LIMIT and OFFSET select. */
  function Window<T>(rows: seq<T>, limit: Option<nat>, offset: Option<nat>): seq<T> {
    var start := StartOf(offset);
    var tail := if start <= |rows| then rows[start..] else [];
    if limit.Some? && limit.value <= |tail| then tail[..limit.value] else tail
  }

  // ---------- pages ----------

  datatype Page<T> = Page(data: seq<T>, truncated: bool, nextOffset: Option<nat>)

  /** The page a query with an effective cap answers. */
  function PageAt<T>(driver: Driver, rows: seq<T>, cap: nat, offset: Option<nat>): Page<T> {
    var clause := LimitOffset(driver, Some(cap), offset);
    var data := Window(rows, clause.limit, clause.offset);
    var truncated := |data| >= cap;
    Page(data, truncated, if truncated then Some(StartOf(offset) + |data|) else None)
  }

  /** The last steps of `execute`: cap the query, run it, describe the page. */
  method FetchPage<T>(driver: Driver, rows: seq<T>, offset: Option<nat>, effectiveLimit: nat) returns (page: Page<T>)
    ensures page == PageAt(driver, rows, effectiveLimit, offset)
    ensures page.truncated <==> |page.data| >= effectiveLimit
    ensures page.truncated ==> page.nextOffset == Some(StartOf(offset) + |page.data|)
    ensures !driver.MySql? ==> |page.data| <= effectiveLimit
  {
    var clause := LimitOffset(driver, Some(effectiveLimit), offset);
    var data := Window(rows, clause.limit, clause.offset);
    var rowCount := |data|;
    var truncated := rowCount >= effectiveLimit;
    var nextOffset := None;
    if truncated {
      nextOffset := Some((if offset.Some? then offset.value else 0) + rowCount);
    }
    page := Page(data, truncated, nextOffset);
  }

  function UpTo(n: nat): (r: seq<int>)
    ensures |r| == n
  {
    seq(n, i => i)
  }

  /** A page is the window that was asked for, whatever the rows, exactly when the dialect is not MySQL, or there
      is no offset, or the offset equals the cap. */
  lemma WindowRightIff(driver: Driver, cap: nat, offset: Option<nat>)
    ensures (forall rows: seq<int> :: PageAt(driver, rows, cap, offset).data == Window(rows, Some(cap), offset))
      <==> !driver.MySql? || offset.None? || offset.value == cap
  {
    if driver.MySql? && offset.Some? && offset.value != cap {
      var rows := UpTo(cap + offset.value);
      assert |Window(rows, Some(cap), offset)| == cap;
      assert |PageAt(driver, rows, cap, offset).data| == offset.value;
    }
  }

  /** A page holds at most the capped number of rows, whatever the rows, exactly when the dialect is not MySQL, or
      there is no offset, or the offset is at most the cap. */
  lemma PageWithinCapIff(driver: Driver, cap: nat, offset: Option<nat>)
    ensures (forall rows: seq<int> :: |PageAt(driver, rows, cap, offset).data| <= cap)
      <==> !driver.MySql? || offset.None? || offset.value <= cap
  {
    if driver.MySql? && offset.Some? && offset.value > cap {
      assert |PageAt(driver, UpTo(cap + offset.value), cap, offset).data| == offset.value;
    }
  }

  /** In every dialect, asking again makes progress exactly when the effective cap is at least one: with a cap of
      zero the page at offset zero is empty, claims to be truncated, and points back at itself. */
  lemma ProgressIffCapPositive<T>(driver: Driver, rows: seq<T>, cap: nat)
    ensures cap >= 1 <==> forall offset: nat ::
      PageAt(driver, rows, cap, Some(offset)).truncated ==>
        PageAt(driver, rows, cap, Some(offset)).nextOffset.value > offset
  {
    if cap == 0 {
      var page := PageAt(driver, rows, cap, Some(0 as nat));
      assert page.truncated && page.nextOffset == Some(0);
    }
  }

  /** With an offset alone the largest 64-bit limit stands for none: it is enough exactly when no more rows than
      that are left. */
  lemma MySqlOffsetAlone<T>(rows: seq<T>, offset: nat)
    ensures var clause := LimitOffset(MySql, None, Some(offset));
      Window(rows, clause.limit, clause.offset) == Window(rows, None, Some(offset)) <==>
        |rows| <= offset + 0xffff_ffff_ffff_ffff
  {
    var clause, all := LimitOffset(MySql, None, Some(offset)), Window(rows, None, Some(offset));
    if |rows| > offset + 0xffff_ffff_ffff_ffff {
      assert |all| > |Window(rows, clause.limit, clause.offset)|;
    }
  }

  // ---------- asking again until a page is complete ----------

  function Rows<T>(pages: seq<Page<T>>): seq<T> {
    if pages == [] then [] else pages[0].data + Rows(pages[1..])
  }

  /** The pages a caller sees who asks again at each next offset until a page is not truncated. */
  ghost predicate IsRun<T>(driver: Driver, rows: seq<T>, cap: nat, start: Option<nat>, pages: seq<Page<T>>)
    decreases |pages|
  {
    && pages != [] && pages[0] == PageAt(driver, rows, cap, start)
    && if pages[0].truncated then IsRun(driver, rows, cap, pages[0].nextOffset, pages[1..]) else |pages| == 1
  }

  ghost predicate Ends<T(!new)>(driver: Driver, rows: seq<T>, cap: nat, start: Option<nat>) {
    exists pages :: IsRun(driver, rows, cap, start, pages)
  }

  /** Asking again ends, and the pages are every row from the start on, once and in order. */
  ghost predicate Lossless<T(!new)>(driver: Driver, rows: seq<T>, cap: nat, start: Option<nat>) {
    exists pages :: IsRun(driver, rows, cap, start, pages) && Rows(pages) == Window(rows, None, start)
  }

  // ---------- Postgres, SQLite and DuckDB ----------

  function Pages<T>(driver: Driver, rows: seq<T>, cap: nat, offset: nat): (r: seq<Page<T>>)
    requires cap >= 1 && !driver.MySql?
    ensures r != []
    decreases |rows| - offset
  {
    var page := PageAt(driver, rows, cap, Some(offset));
    [page] + if page.nextOffset.Some? then Pages(driver, rows, cap, page.nextOffset.value) else []
  }

  /** Paging is lossless: it ends, and together the pages are every row from the offset on, once and in order. */
  lemma {:induction false} PagingIsLossless<T>(driver: Driver, rows: seq<T>, cap: nat, offset: nat)
    requires cap >= 1 && !driver.MySql?
    ensures IsRun(driver, rows, cap, Some(offset), Pages(driver, rows, cap, offset))
    ensures Rows(Pages(driver, rows, cap, offset)) == if offset <= |rows| then rows[offset..] else []
    decreases |rows| - offset
  {
    var page := PageAt(driver, rows, cap, Some(offset));
    var pages := Pages(driver, rows, cap, offset);
    assert pages[0] == page;
    if page.nextOffset.Some? {
      PagingIsLossless(driver, rows, cap, page.nextOffset.value);
      assert pages[1..] == Pages(driver, rows, cap, page.nextOffset.value);
    } else {
      assert pages[1..] == [];
    }
  }

  /** How many pages there are: a result that fills its last page exactly costs one empty page more. */
  lemma {:induction false} PageCount<T>(driver: Driver, rows: seq<T>, cap: nat, offset: nat)
    requires cap >= 1 && !driver.MySql? && offset <= |rows|
    ensures var count := |Pages(driver, rows, cap, offset)|;
      (count - 1) * cap <= |rows| - offset < count * cap
    decreases |rows| - offset
  {
    if |rows| - offset >= cap {
      var rest := |Pages(driver, rows, cap, offset + cap)|;
      PageCount(driver, rows, cap, offset + cap);
      assert |Pages(driver, rows, cap, offset)| == rest + 1;
      OnePageMore(rest, cap, |rows| - offset - cap);
    }
  }

  lemma OnePageMore(count: nat, cap: nat, left: nat)
    requires (count - 1) * cap <= left < count * cap
    ensures count * cap <= left + cap < (count + 1) * cap
  {
  }

  /** Every page but the last is full, and only the last says that it is complete. */
  lemma {:induction false} OnlyLastPageIsComplete<T>(driver: Driver, rows: seq<T>, cap: nat, offset: nat, i: nat)
    requires cap >= 1 && !driver.MySql? && i < |Pages(driver, rows, cap, offset)|
    ensures var pages := Pages(driver, rows, cap, offset);
      pages[i].truncated == (i < |pages| - 1) && (pages[i].truncated ==> |pages[i].data| == cap)
    decreases i
  {
    var page := PageAt(driver, rows, cap, Some(offset));
    if i > 0 {
      OnlyLastPageIsComplete(driver, rows, cap, page.nextOffset.value, i - 1);
    }
  }

  // ---------- MySQL ----------

  /** With two full pages of rows, every page at an offset past the first page is truncated, starts at the same
      row again, and points at least a page further on. */
  lemma MySqlStartsAgain<T>(rows: seq<T>, cap: nat, offset: nat)
    requires 1 <= cap <= offset && |rows| >= 2 * cap
    ensures var page := PageAt(MySql, rows, cap, Some(offset));
      page.truncated && page.data[0] == rows[cap] && page.nextOffset.value >= offset + cap
  {
  }

  lemma {:induction false} MySqlNeverEnds<T>(rows: seq<T>, cap: nat, offset: nat, pages: seq<Page<T>>)
    requires 1 <= cap <= offset && |rows| >= 2 * cap
    ensures !IsRun(MySql, rows, cap, Some(offset), pages)
    decreases |pages|
  {
    MySqlStartsAgain(rows, cap, offset);
    if pages != [] {
      MySqlNeverEnds(rows, cap, PageAt(MySql, rows, cap, Some(offset)).nextOffset.value, pages[1..]);
    }
  }

  predicate MySqlEnds(count: nat, cap: nat, start: Option<nat>) {
    count < 2 * cap || (start.Some? && start.value < cap)
  }

  // An offset below the cap becomes a limit that ends paging at once, after that many rows from the cap on.
  predicate MySqlCompletes(count: nat, cap: nat, start: Option<nat>) {
    match start
    case None => count < 2 * cap
    case Some(offset) =>
      if offset < cap then count <= offset else count < 2 * cap && (count <= cap || offset == cap)
  }

  /** The pages, where there is an end to them: two for a first page that is full, else one. */
  function MySqlPages<T>(rows: seq<T>, cap: nat, start: Option<nat>): seq<Page<T>> {
    var page := PageAt(MySql, rows, cap, start);
    [page] + if page.truncated then [PageAt(MySql, rows, cap, page.nextOffset)] else []
  }

  lemma MySqlRun<T>(rows: seq<T>, cap: nat, start: Option<nat>)
    requires cap >= 1 && MySqlEnds(|rows|, cap, start)
    ensures IsRun(MySql, rows, cap, start, MySqlPages(rows, cap, start))
  {
    var pages := MySqlPages(rows, cap, start);
    if pages[0].truncated {
      assert pages[1..] == [PageAt(MySql, rows, cap, pages[0].nextOffset)];
    }
  }

  lemma {:induction false} RunIsUnique<T>(driver: Driver, rows: seq<T>, cap: nat, start: Option<nat>,
                                          a: seq<Page<T>>, b: seq<Page<T>>)
    requires IsRun(driver, rows, cap, start, a) && IsRun(driver, rows, cap, start, b)
    ensures a == b
    decreases |a|
  {
    if a[0].truncated {
      RunIsUnique(driver, rows, cap, a[0].nextOffset, a[1..], b[1..]);
      assert a == [a[0]] + a[1..] && b == [b[0]] + b[1..];
    } else {
      assert a == [a[0]] && b == [b[0]];
    }
  }

  lemma MySqlEndsIff<T(!new)>(rows: seq<T>, cap: nat, start: Option<nat>)
    requires cap >= 1
    ensures Ends(MySql, rows, cap, start) <==> MySqlEnds(|rows|, cap, start)
  {
    if MySqlEnds(|rows|, cap, start) {
      MySqlRun(rows, cap, start);
    } else {
      forall pages ensures !IsRun(MySql, rows, cap, start, pages) {
        if pages != [] && start.None? {
          MySqlNeverEnds(rows, cap, cap, pages[1..]);
        } else if start.Some? {
          MySqlNeverEnds(rows, cap, start.value, pages);
        }
      }
    }
  }

  lemma MySqlRows<T>(rows: seq<T>, cap: nat, start: Option<nat>)
    requires cap >= 1 && MySqlEnds(|rows|, cap, start)
    ensures Rows(MySqlPages(rows, cap, start)) == Window(rows, None, start) <==> MySqlCompletes(|rows|, cap, start)
  {
    var pages := MySqlPages(rows, cap, start);
    if pages[0].truncated {
      assert pages[1..] == [pages[1]];
      assert Rows([pages[1]]) == pages[1].data;
    } else {
      assert pages == [pages[0]] && Rows(pages) == pages[0].data;
    }
  }

  // ---------- any dialect ----------

  /** Under a cap of zero every page claims to be truncated. */
  lemma {:induction false} ZeroCapNeverEnds<T>(driver: Driver, rows: seq<T>, start: Option<nat>, pages: seq<Page<T>>)
    ensures !IsRun(driver, rows, 0, start, pages)
    decreases |pages|
  {
    if pages != [] {
      ZeroCapNeverEnds(driver, rows, PageAt(driver, rows, 0, start).nextOffset, pages[1..]);
    }
  }

  lemma StandardStart<T(!new)>(driver: Driver, rows: seq<T>, cap: nat, start: Option<nat>)
    requires cap >= 1 && !driver.MySql?
    ensures Lossless(driver, rows, cap, start)
  {
    var offset := StartOf(start);
    PagingIsLossless(driver, rows, cap, offset);
    assert PageAt(driver, rows, cap, start) == PageAt(driver, rows, cap, Some(offset));
    assert IsRun(driver, rows, cap, start, Pages(driver, rows, cap, offset));
  }

  /** Asking again at each next offset ends exactly when the cap is at least one and the dialect is not MySQL, or
      there are fewer rows than two full pages, or the caller started with an offset below the cap. */
  lemma PagingEndsIff<T(!new)>(driver: Driver, rows: seq<T>, cap: nat, start: Option<nat>)
    ensures Ends(driver, rows, cap, start) <==> cap >= 1 && (driver.MySql? ==> MySqlEnds(|rows|, cap, start))
  {
    if cap == 0 {
      forall pages ensures !IsRun(driver, rows, cap, start, pages) {
        ZeroCapNeverEnds(driver, rows, start, pages);
      }
    } else if driver.MySql? {
      MySqlEndsIff(rows, cap, start);
    } else {
      StandardStart(driver, rows, cap, start);
    }
  }

  /** It gives every row once and in order exactly when the cap is at least one and the dialect is not MySQL, or,
      for a caller who starts without an offset, there are fewer rows than two full pages. */
  lemma PagingIsLosslessIff<T(!new)>(driver: Driver, rows: seq<T>, cap: nat, start: Option<nat>)
    ensures Lossless(driver, rows, cap, start) <==>
      cap >= 1 && (driver.MySql? ==> MySqlCompletes(|rows|, cap, start))
  {
    PagingEndsIff(driver, rows, cap, start);
    if cap >= 1 && !driver.MySql? {
      StandardStart(driver, rows, cap, start);
    } else if cap >= 1 {
      if MySqlEnds(|rows|, cap, start) {
        MySqlRun(rows, cap, start);
        MySqlRows(rows, cap, start);
        forall pages | IsRun(MySql, rows, cap, start, pages) ensures pages == MySqlPages(rows, cap, start) {
          RunIsUnique(MySql, rows, cap, start, pages, MySqlPages(rows, cap, start));
        }
      }
    }
  }
}
