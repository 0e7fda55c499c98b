/** What a session policy does to a query: `PolicyEnforcer` of crates/graphnight-core/src/security.rs and
    `apply_row_cap` of crates/graphnight-runtime/src/governance.rs.  A query passed by mutable reference
    is returned. */
module Policies {
  import opened Numbers
  import opened Results
  import opened Queries

  const DEFAULT_MAX_ROWS: nat := 10000

  datatype SessionPolicy = SessionPolicy(forcedFilters: seq<Filter>, rowFilter: Option<Filter>, maxRows: Option<nat>)

  // ---------- filters ----------

  function PolicyFilters(policy: SessionPolicy): seq<Filter> {
    policy.forcedFilters + (if policy.rowFilter.Some? then [policy.rowFilter.value] else [])
  }

  method ApplyForcedFilters(policy: SessionPolicy, query: Query) returns (r: Query)
    ensures r == query.(filters := query.filters + policy.forcedFilters)
  {
    r := query;
    for i := 0 to |policy.forcedFilters|
      invariant r == query.(filters := query.filters + policy.forcedFilters[..i])
    {
      r := r.(filters := r.filters + [policy.forcedFilters[i]]);
    }
  }

  method ApplyRls(policy: SessionPolicy, query: Query) returns (r: Query)
    ensures r == query.(filters := query.filters + if policy.rowFilter.Some? then [policy.rowFilter.value] else [])
  {
    r := query;
    if policy.rowFilter.Some? {
      r := r.(filters := r.filters + [policy.rowFilter.value]);
    }
  }

  /** The policy part of a governed query: the caller's filters come first and are kept. */
  method ApplyPolicy(policy: SessionPolicy, query: Query) returns (r: Query)
    ensures r == query.(filters := query.filters + PolicyFilters(policy))
    ensures query.filters + policy.forcedFilters <= r.filters
    ensures policy.rowFilter.Some? ==> r.filters == query.filters + policy.forcedFilters + [policy.rowFilter.value]
    ensures policy.rowFilter.None? ==> r.filters == query.filters + policy.forcedFilters
  {
    r := ApplyForcedFilters(policy, query);
    r := ApplyRls(policy, r);
  }

  // ---------- the row cap ----------

  /** The bounds on the number of rows that are present. */
  function Bounds(policy: SessionPolicy, perCall: Option<nat>, limit: Option<nat>): set<nat> {
    {if policy.maxRows.Some? then policy.maxRows.value else DEFAULT_MAX_ROWS}
    + (if perCall.Some? then {perCall.value} else {})
    + (if limit.Some? then {limit.value} else {})
  }

  ghost predicate IsLeast(n: nat, bounds: set<nat>) {
    n in bounds && forall b :: b in bounds ==> n <= b
  }

  function LeastBound(policy: SessionPolicy, perCall: Option<nat>, limit: Option<nat>): (cap: nat)
    ensures IsLeast(cap, Bounds(policy, perCall, limit))
  {
    var policyCap := if policy.maxRows.Some? then policy.maxRows.value else DEFAULT_MAX_ROWS;
    var called := if perCall.Some? then Min(policyCap, perCall.value) else policyCap;
    if limit.Some? then Min(called, limit.value) else called
  }

  /** Sets the tightest bound as the limit of the query and says which it is. */
  method ApplyRowCap(policy: SessionPolicy, query: Query, perCall: Option<nat>) returns (r: Query, cap: nat)
    ensures IsLeast(cap, Bounds(policy, perCall, query.limit))
    ensures cap == LeastBound(policy, perCall, query.limit) && r == query.(limit := Some(cap))
  {
    var policyCap := if policy.maxRows.Some? then policy.maxRows.value else DEFAULT_MAX_ROWS;
    var effective := match perCall
      case Some(callCap) => Min(policyCap, callCap)
      case None => policyCap;
    r := query.(limit := Some(match query.limit case Some(l) => Min(l, effective) case None => effective));
    cap := r.limit.value;
  }

  /** The enforcer of the core crate answers the very query that `ApplyRowCap` does without a per-call cap. */
  method EnforceRowLimit(policy: SessionPolicy, query: Query) returns (r: Query)
    ensures r == query.(limit := Some(LeastBound(policy, None, query.limit)))
    ensures IsLeast(r.limit.value, Bounds(policy, None, query.limit))
  {
    var maxRows := if policy.maxRows.Some? then policy.maxRows.value else 10000;
    r := query;
    match query.limit {
      case Some(limit) =>
        if limit > maxRows {
          r := query.(limit := Some(maxRows));
        }
      case None =>
        r := query.(limit := Some(maxRows));
    }
  }

  /** A policy without a cap of its own still caps: nobody gets more than ten thousand rows, and who asks for no
      limit gets exactly that one. */
  lemma NoPolicyCapIsTenThousand(policy: SessionPolicy, perCall: Option<nat>, limit: Option<nat>)
    requires policy.maxRows.None?
    ensures LeastBound(policy, perCall, limit) <= 10000
    ensures perCall.None? && limit.None? ==> LeastBound(policy, perCall, limit) == 10000
  {
  }
}
