/** The token bucket of crates/graphnight-server/src/rate_limit.rs, over exact tokens and exact seconds. */
module RateLimit {
  import opened Results

  datatype Bucket = Bucket(tokens: real, lastRefill: real)

  datatype Attempt = Attempt(key: string, at: real)

  type Buckets = map<string, Bucket>

  /** A bucket holds at most `rps` tokens. */
  function Capped(tokens: real, rps: real): real { if tokens <= rps then tokens else rps }

  // A clock that has not advanced counts as no time.
  function Elapsed(now: real, since: real): real { if now >= since then now - since else 0.0 }

  function Ceiling(x: real): int {
    if x.Floor as real == x then x.Floor else x.Floor + 1
  }

  /** The tokens that flow in during `secs` seconds. */
  function Flow(rps: real, secs: real): real { secs * rps }

  lemma FlowAdds(rps: real, first: real, second: real)
    ensures Flow(rps, first + second) == Flow(rps, first) + Flow(rps, second)
  {
  }

  lemma FlowGrows(rps: real, short: real, long: real)
    requires rps > 0.0 && short <= long
    ensures Flow(rps, short) <= Flow(rps, long)
    ensures Flow(rps, 0.0) == 0.0
  {
    assert (long - short) * rps >= 0.0;
  }

  // An unknown key starts with a full bucket.
  function Refilled(rps: real, bucket: Option<Bucket>, now: real): real {
    match bucket
    case None => rps
    case Some(b) => Capped(b.tokens + Flow(rps, Elapsed(now, b.lastRefill)), rps)
  }

  function Lookup(buckets: Buckets, key: string): Option<Bucket> {
    if key in buckets then Some(buckets[key]) else None
  }

  /** The tokens `key` would find at time `now`. */
  function Level(rps: real, buckets: Buckets, key: string, now: real): real {
    Refilled(rps, Lookup(buckets, key), now)
  }

  predicate Admits(rps: real, buckets: Buckets, attempt: Attempt) {
    Level(rps, buckets, attempt.key, attempt.at) >= 1.0
  }

  function WaitSecs(rps: real, level: real): int
    requires rps > 0.0
  {
    var secs := Ceiling((1.0 - level) / rps);
    if secs >= 1 then secs else 1
  }

  function Next(rps: real, buckets: Buckets, attempt: Attempt): Buckets {
    var level := Level(rps, buckets, attempt.key, attempt.at);
    buckets[attempt.key := Bucket(if level >= 1.0 then level - 1.0 else level, attempt.at)]
  }

  // ---------- schedules ----------

  function After(rps: real, schedule: seq<Attempt>): Buckets {
    if schedule == [] then map[]
    else Next(rps, After(rps, schedule[..|schedule| - 1]), schedule[|schedule| - 1])
  }

  predicate Admitted(rps: real, schedule: seq<Attempt>, n: nat)
    requires n < |schedule|
  {
    Admits(rps, After(rps, schedule[..n]), schedule[n])
  }

  /** How many of the attempts `i <= k < j` on `key` are admitted. */
  function Admissions(rps: real, schedule: seq<Attempt>, key: string, i: nat, j: nat): nat
    requires i <= j <= |schedule|
    decreases j
  {
    if i == j then 0
    else
      var last := schedule[j - 1].key == key && Admitted(rps, schedule, j - 1);
      Admissions(rps, schedule, key, i, j - 1) + (if last then 1 else 0)
  }

  ghost predicate TimeOrdered(schedule: seq<Attempt>) {
    forall i, j :: 0 <= i <= j < |schedule| ==> schedule[i].at <= schedule[j].at
  }

  /** What the window that opens at attempt `i` leaves of its budget at time `now`. */
  ghost function Allowance(rps: real, schedule: seq<Attempt>, key: string, i: nat, now: real): real
    requires i < |schedule|
  {
    rps + Flow(rps, now - schedule[i].at) - Admissions(rps, schedule, key, i, |schedule|) as real
  }

  lemma {:induction false} AdmissionsOfPrefix(rps: real, schedule: seq<Attempt>, key: string, i: nat, j: nat, n: nat)
    requires i <= j <= n <= |schedule|
    ensures Admissions(rps, schedule[..n], key, i, j) == Admissions(rps, schedule, key, i, j)
    decreases j
  {
    if i < j {
      AdmissionsOfPrefix(rps, schedule, key, i, j - 1, n);
      assert schedule[..n][..j - 1] == schedule[..j - 1];
    }
  }

  lemma RefillTwice(rps: real, tokens: real, first: real, second: real)
    requires rps > 0.0 && first >= 0.0 && second >= 0.0
    ensures Capped(Capped(tokens + Flow(rps, first), rps) + Flow(rps, second), rps) ==
      Capped(tokens + Flow(rps, first + second), rps)
  {
    FlowAdds(rps, first, second);
    FlowGrows(rps, 0.0, second);
  }

  // Refilling at an earlier moment on the way makes no difference.
  lemma RefillOnTheWay(rps: real, bucket: Option<Bucket>, mid: real, now: real)
    requires rps > 0.0 && mid <= now
    requires bucket.Some? ==> bucket.value.lastRefill <= mid
    ensures Refilled(rps, bucket, now) == Capped(Refilled(rps, bucket, mid) + Flow(rps, now - mid), rps)
  {
    if bucket.Some? {
      RefillTwice(rps, bucket.value.tokens, mid - bucket.value.lastRefill, now - mid);
    } else {
      FlowGrows(rps, 0.0, now - mid);
    }
  }

  lemma {:induction false} RefillsAreBefore(rps: real, schedule: seq<Attempt>, now: real)
    requires TimeOrdered(schedule)
    requires schedule != [] ==> schedule[|schedule| - 1].at <= now
    ensures forall key :: key in After(rps, schedule) ==> After(rps, schedule)[key].lastRefill <= now
  {
    if schedule != [] {
      RefillsAreBefore(rps, schedule[..|schedule| - 1], now);
    }
  }

  function Taken(rps: real, schedule: seq<Attempt>, key: string): real
    requires schedule != []
  {
    if schedule[|schedule| - 1].key == key && Admitted(rps, schedule, |schedule| - 1) then 1.0 else 0.0
  }

  lemma LevelStep(rps: real, schedule: seq<Attempt>, key: string, now: real)
    requires rps > 0.0 && TimeOrdered(schedule)
    requires schedule != [] && schedule[|schedule| - 1].at <= now
    ensures var n := |schedule| - 1;
      var before := Level(rps, After(rps, schedule[..n]), key, schedule[n].at);
      Level(rps, After(rps, schedule), key, now) ==
      Capped(before - Taken(rps, schedule, key) + Flow(rps, now - schedule[n].at), rps)
  {
    var n := |schedule| - 1;
    if schedule[n].key != key {
      RefillsAreBefore(rps, schedule[..n], schedule[n].at);
      RefillOnTheWay(rps, Lookup(After(rps, schedule[..n]), key), schedule[n].at, now);
    }
  }

  lemma AllowanceStep(rps: real, schedule: seq<Attempt>, key: string, i: nat, now: real)
    requires rps > 0.0 && i < |schedule|
    ensures var n := |schedule| - 1;
      Allowance(rps, schedule, key, i, now) ==
      (if i < n then Allowance(rps, schedule[..n], key, i, schedule[n].at) else rps) +
        Flow(rps, now - schedule[n].at) - Taken(rps, schedule, key)
  {
    var n := |schedule| - 1;
    var earlier, later := schedule[n].at - schedule[i].at, now - schedule[n].at;
    AdmissionsOfPrefix(rps, schedule, key, i, n, n);
    FlowAdds(rps, earlier, later);
    FlowGrows(rps, 0.0, 0.0);
    assert now - schedule[i].at == earlier + later;
  }

  /** A bucket stands at the least allowance of all windows, or full. */
  lemma {:induction false} LevelIsLeastAllowance(rps: real, schedule: seq<Attempt>, key: string, now: real)
    requires rps > 0.0 && TimeOrdered(schedule)
    requires schedule != [] ==> schedule[|schedule| - 1].at <= now
    ensures var level := Level(rps, After(rps, schedule), key, now);
      && level <= rps
      && (forall i :: 0 <= i < |schedule| ==> level <= Allowance(rps, schedule, key, i, now))
      && (level == rps || exists i :: 0 <= i < |schedule| && level == Allowance(rps, schedule, key, i, now))
    decreases |schedule|
  {
    if schedule != [] {
      var n := |schedule| - 1;
      var front, mid := schedule[..n], schedule[n].at;
      LevelIsLeastAllowance(rps, front, key, mid);
      LevelStep(rps, schedule, key, now);
      FlowGrows(rps, 0.0, now - mid);
      var level := Level(rps, After(rps, schedule), key, now);
      var before := Level(rps, After(rps, front), key, mid);
      forall i | 0 <= i < |schedule| ensures level <= Allowance(rps, schedule, key, i, now) {
        AllowanceStep(rps, schedule, key, i, now);
      }
      if level != rps {
        var i := n;
        if before != rps {
          i :| 0 <= i < n && before == Allowance(rps, front, key, i, mid);
        }
        AllowanceStep(rps, schedule, key, i, now);
        assert level == Allowance(rps, schedule, key, i, now);
      }
    }
  }

  /** One more admission at attempt `n` fits the budget of the window that opened at attempt `i`. */
  ghost predicate Affords(rps: real, schedule: seq<Attempt>, i: nat, n: nat)
    requires i <= n < |schedule|
  {
    Admissions(rps, schedule, schedule[n].key, i, n) as real + 1.0 <= rps + Flow(rps, schedule[n].at - schedule[i].at)
  }

  /** An attempt is admitted exactly when one more admission fits the budget of every window that ends
      with it: the bucket refuses nothing it could afford. */
  lemma AdmittedIffEveryWindowAffordsIt(rps: real, schedule: seq<Attempt>, n: nat)
    requires rps > 0.0 && TimeOrdered(schedule) && n < |schedule|
    ensures Admitted(rps, schedule, n) <==>
      forall i :: 0 <= i <= n ==> Affords(rps, schedule, i, n)
  {
    var key, now, front := schedule[n].key, schedule[n].at, schedule[..n];
    LevelIsLeastAllowance(rps, front, key, now);
    FlowGrows(rps, 0.0, 0.0);
    var level := Level(rps, After(rps, front), key, now);
    if Admitted(rps, schedule, n) {
      forall i | 0 <= i <= n ensures Affords(rps, schedule, i, n) {
        if i < n {
          AdmissionsOfPrefix(rps, schedule, key, i, n, n);
          assert level <= Allowance(rps, front, key, i, now);
        }
      }
    } else if level == rps {
      assert !Affords(rps, schedule, n, n);
    } else {
      var i :| 0 <= i < n && level == Allowance(rps, front, key, i, now);
      AdmissionsOfPrefix(rps, schedule, key, i, n, n);
      assert !Affords(rps, schedule, i, n);
    }
  }

  /** Any window of the schedule admits at most a full bucket plus what flows in during it. */
  lemma {:induction false} WindowBound(rps: real, schedule: seq<Attempt>, key: string, i: nat, j: nat)
    requires rps > 0.0 && TimeOrdered(schedule) && i < j <= |schedule|
    ensures Admissions(rps, schedule, key, i, j) as real <= rps + Flow(rps, schedule[j - 1].at - schedule[i].at)
    decreases j
  {
    var n := j - 1;
    if schedule[n].key == key && Admitted(rps, schedule, n) {
      AdmittedIffEveryWindowAffordsIt(rps, schedule, n);
      assert Affords(rps, schedule, i, n);
    } else if i == n {
      assert Admissions(rps, schedule, key, i, j) == 0;
      FlowGrows(rps, 0.0, 0.0);
    } else {
      assert Admissions(rps, schedule, key, i, j) == Admissions(rps, schedule, key, i, n);
      WindowBound(rps, schedule, key, i, n);
      FlowGrows(rps, schedule[n - 1].at - schedule[i].at, schedule[n].at - schedule[i].at);
    }
  }

  /** At most `rps + rps * length` admissions on one key while `length` seconds pass. */
  lemma WindowOfLength(rps: real, schedule: seq<Attempt>, key: string, i: nat, j: nat, length: real)
    requires rps > 0.0 && TimeOrdered(schedule) && i < j <= |schedule|
    requires schedule[j - 1].at - schedule[i].at <= length
    ensures Admissions(rps, schedule, key, i, j) as real <= rps + length * rps
  {
    WindowBound(rps, schedule, key, i, j);
    FlowGrows(rps, schedule[j - 1].at - schedule[i].at, length);
  }

  /** A rate below one token per second admits nothing, ever. */
  lemma SlowRateAdmitsNothing(rps: real, schedule: seq<Attempt>, n: nat)
    requires 0.0 < rps < 1.0 && TimeOrdered(schedule) && n < |schedule|
    ensures !Admitted(rps, schedule, n)
  {
    LevelIsLeastAllowance(rps, schedule[..n], schedule[n].key, schedule[n].at);
  }

  // ---------- keys do not interact ----------

  function Only(schedule: seq<Attempt>, key: string): seq<Attempt> {
    if schedule == [] then []
    else
      var front, last := schedule[..|schedule| - 1], schedule[|schedule| - 1];
      Only(front, key) + (if last.key == key then [last] else [])
  }

  lemma NextKeepsLookup(rps: real, a: Buckets, b: Buckets, attempt: Attempt, key: string)
    requires Lookup(a, key) == Lookup(b, key)
    ensures Lookup(Next(rps, a, attempt), key) == Lookup(Next(rps, b, attempt), key)
    ensures attempt.key != key ==> Lookup(Next(rps, a, attempt), key) == Lookup(b, key)
  {
    if attempt.key == key {
      assert Level(rps, a, key, attempt.at) == Level(rps, b, key, attempt.at);
    } else {
      assert Lookup(Next(rps, a, attempt), key) == Lookup(a, key);
      assert Lookup(Next(rps, b, attempt), key) == Lookup(b, key);
    }
  }

  /** What an attempt meets depends on the earlier attempts on its own key alone. */
  lemma {:induction false} KeysAreIndependent(rps: real, schedule: seq<Attempt>, attempt: Attempt)
    ensures Lookup(After(rps, schedule), attempt.key) == Lookup(After(rps, Only(schedule, attempt.key)), attempt.key)
    ensures Admits(rps, After(rps, schedule), attempt) <==>
      Admits(rps, After(rps, Only(schedule, attempt.key)), attempt)
    decreases |schedule|
  {
    if schedule != [] {
      var n := |schedule| - 1;
      var earlier, only := Only(schedule[..n], attempt.key), Only(schedule, attempt.key);
      KeysAreIndependent(rps, schedule[..n], attempt);
      NextKeepsLookup(rps, After(rps, schedule[..n]), After(rps, earlier), schedule[n], attempt.key);
      if schedule[n].key == attempt.key {
        assert only[..|only| - 1] == earlier && only[|only| - 1] == schedule[n];
        assert After(rps, only) == Next(rps, After(rps, earlier), schedule[n]);
      } else {
        assert only == earlier;
      }
    }
  }

  // ---------- rejected attempts leave no trace ----------

  /** From `start` on, the two sets of buckets offer every key the same tokens. */
  ghost predicate SameLevels(rps: real, a: Buckets, b: Buckets, start: real) {
    forall key, now :: start <= now ==> Level(rps, a, key, now) == Level(rps, b, key, now)
  }

  lemma NextKeepsSameLevels(rps: real, a: Buckets, b: Buckets, start: real, attempt: Attempt)
    requires rps > 0.0 && SameLevels(rps, a, b, start) && start <= attempt.at
    ensures SameLevels(rps, Next(rps, a, attempt), Next(rps, b, attempt), attempt.at)
  {
    forall key, now | attempt.at <= now
      ensures Level(rps, Next(rps, a, attempt), key, now) == Level(rps, Next(rps, b, attempt), key, now)
    {
      assert Level(rps, a, attempt.key, attempt.at) == Level(rps, b, attempt.key, attempt.at);
      assert Level(rps, a, key, now) == Level(rps, b, key, now);
    }
  }

  lemma RejectionKeepsLevels(rps: real, schedule: seq<Attempt>, n: nat)
    requires rps > 0.0 && TimeOrdered(schedule) && n < |schedule| && !Admitted(rps, schedule, n)
    ensures SameLevels(rps, After(rps, schedule[..n + 1]), After(rps, schedule[..n]), schedule[n].at)
  {
    var upto := schedule[..n + 1];
    assert upto[..n] == schedule[..n];
    forall key, now | schedule[n].at <= now
      ensures Level(rps, After(rps, upto), key, now) == Level(rps, After(rps, schedule[..n]), key, now)
    {
      LevelStep(rps, upto, key, now);
      RefillsAreBefore(rps, schedule[..n], schedule[n].at);
      RefillOnTheWay(rps, Lookup(After(rps, schedule[..n]), key), schedule[n].at, now);
    }
  }

  lemma AfterLast(rps: real, front: seq<Attempt>, last: Attempt, schedule: seq<Attempt>)
    requires schedule == front + [last]
    ensures After(rps, schedule) == Next(rps, After(rps, front), last)
  {
    assert schedule[..|schedule| - 1] == front;
  }

  lemma StepKeepsSameLevels(rps: real, a: seq<Attempt>, b: seq<Attempt>, start: real, attempt: Attempt)
    requires rps > 0.0 && SameLevels(rps, After(rps, a), After(rps, b), start) && start <= attempt.at
    ensures SameLevels(rps, After(rps, a + [attempt]), After(rps, b + [attempt]), attempt.at)
  {
    AfterLast(rps, a, attempt, a + [attempt]);
    AfterLast(rps, b, attempt, b + [attempt]);
    NextKeepsSameLevels(rps, After(rps, a), After(rps, b), start, attempt);
  }

  /** The first `m` attempts without attempt `n`. */
  function Without(schedule: seq<Attempt>, n: nat, m: nat): seq<Attempt>
    requires n < m <= |schedule|
  {
    schedule[..n] + schedule[n + 1..m]
  }

  lemma WithoutStep(schedule: seq<Attempt>, n: nat, m: nat)
    requires n < m <= |schedule|
    ensures m == n + 1 ==> Without(schedule, n, m) == schedule[..n]
    ensures m > n + 1 ==> Without(schedule, n, m) == Without(schedule, n, m - 1) + [schedule[m - 1]]
    ensures schedule[..m] == schedule[..m - 1] + [schedule[m - 1]]
  {
  }

  lemma {:induction false} LevelsWithoutRejected(rps: real, schedule: seq<Attempt>, n: nat, m: nat)
    requires rps > 0.0 && TimeOrdered(schedule) && n < m <= |schedule| && !Admitted(rps, schedule, n)
    ensures SameLevels(rps, After(rps, schedule[..m]), After(rps, Without(schedule, n, m)), schedule[m - 1].at)
    decreases m
  {
    WithoutStep(schedule, n, m);
    if m == n + 1 {
      RejectionKeepsLevels(rps, schedule, n);
    } else {
      LevelsWithoutRejected(rps, schedule, n, m - 1);
      StepKeepsSameLevels(rps, schedule[..m - 1], Without(schedule, n, m - 1), schedule[m - 2].at, schedule[m - 1]);
    }
  }

  lemma WithoutPrefix(schedule: seq<Attempt>, n: nat, m: nat)
    requires n < m < |schedule|
    ensures (schedule[..n] + schedule[n + 1..])[..m - 1] == Without(schedule, n, m)
    ensures (schedule[..n] + schedule[n + 1..])[m - 1] == schedule[m]
  {
    var after := schedule[n + 1..];
    assert after[..m - 1 - n] == schedule[n + 1..m];
    assert (schedule[..n] + after)[..m - 1] == schedule[..n] + after[..m - 1 - n];
  }

  /** Deleting a rejected attempt changes neither the decision nor the wait of any other attempt. */
  lemma RejectedAttemptsLeaveNoTrace(rps: real, schedule: seq<Attempt>, n: nat, m: nat)
    requires rps > 0.0 && TimeOrdered(schedule) && n < |schedule| && m < |schedule| && m != n &&
      !Admitted(rps, schedule, n)
    ensures var without := schedule[..n] + schedule[n + 1..];
      var m' := if m < n then m else m - 1;
      && without[m'] == schedule[m]
      && Level(rps, After(rps, without[..m']), schedule[m].key, schedule[m].at) ==
        Level(rps, After(rps, schedule[..m]), schedule[m].key, schedule[m].at)
      && (Admitted(rps, without, m') <==> Admitted(rps, schedule, m))
  {
    var without := schedule[..n] + schedule[n + 1..];
    if m < n {
      assert without[..m] == schedule[..m];
    } else {
      LevelsWithoutRejected(rps, schedule, n, m);
      WithoutPrefix(schedule, n, m);
    }
  }

  // ---------- the wait ----------

  // Dividing by the rate and multiplying by it again compare alike.
  lemma EnoughSeconds(rps: real, need: real, secs: real)
    requires rps > 0.0
    ensures secs >= need / rps <==> secs * rps >= need
  {
    var q := need / rps;
    assert q * rps == need;
    if secs >= q {
      assert (secs - q) * rps >= 0.0;
    } else {
      assert (q - secs) * rps > 0.0;
    }
  }

  /** After a rejection, an undisturbed retry whole seconds later succeeds exactly when the rate allows
      admissions at all and the answered wait has passed: the wait is the least that works. */
  lemma WaitIsLeast(rps: real, buckets: Buckets, attempt: Attempt, secs: int)
    requires rps > 0.0 && secs >= 1
    requires !Admits(rps, buckets, attempt)
    ensures Admits(rps, Next(rps, buckets, attempt), Attempt(attempt.key, attempt.at + secs as real)) <==>
      rps >= 1.0 && secs >= WaitSecs(rps, Level(rps, buckets, attempt.key, attempt.at))
  {
    var level := Level(rps, buckets, attempt.key, attempt.at);
    LevelOnRetry(rps, buckets, attempt, secs as real);
    EnoughSeconds(rps, 1.0 - level, secs as real);
    CeilingIsLeast((1.0 - level) / rps, secs);
  }

  lemma LevelOnRetry(rps: real, buckets: Buckets, attempt: Attempt, later: real)
    requires rps > 0.0 && later >= 0.0 && !Admits(rps, buckets, attempt)
    ensures Level(rps, Next(rps, buckets, attempt), attempt.key, attempt.at + later) ==
      Capped(Level(rps, buckets, attempt.key, attempt.at) + later * rps, rps)
  {
    var level := Level(rps, buckets, attempt.key, attempt.at);
    assert Lookup(Next(rps, buckets, attempt), attempt.key) == Some(Bucket(level, attempt.at));
    assert Elapsed(attempt.at + later, attempt.at) == later;
  }

  lemma CeilingIsLeast(x: real, k: int)
    ensures k as real >= x <==> k >= Ceiling(x)
  {
  }

  /** At any rate the answered wait is the least whole number of seconds, at least one, in which the missing
      part of a token flows in. */
  lemma WaitFillsToken(rps: real, level: real, secs: int)
    requires rps > 0.0 && level < 1.0 && secs >= 1
    ensures WaitSecs(rps, level) >= 1
    ensures secs >= WaitSecs(rps, level) <==> level + secs as real * rps >= 1.0
  {
    EnoughSeconds(rps, 1.0 - level, secs as real);
    CeilingIsLeast((1.0 - level) / rps, secs);
  }

  /** A clock that stands still or goes back brings no tokens. */
  lemma NoTimeNoTokens(rps: real, bucket: Bucket, now: real)
    requires now <= bucket.lastRefill && bucket.tokens <= rps
    ensures Refilled(rps, Some(bucket), now) == bucket.tokens
  {
  }

  // ---------- the limiter ----------

  /** `ok` is the decision on the last attempt of the history: a token is granted exactly when no window
      that ends with it would admit more than its budget. */
  ghost predicate LastDecision(rps: real, history: seq<Attempt>, ok: bool) {
    && history != []
    && (ok <==> Admitted(rps, history, |history| - 1))
    && (TimeOrdered(history) ==> (ok <==> forall i {:trigger Affords(rps, history, i, |history| - 1)} ::
          0 <= i < |history| ==> Affords(rps, history, i, |history| - 1)))
  }

  lemma DecidedBy(rps: real, earlier: seq<Attempt>, attempt: Attempt)
    requires rps > 0.0
    ensures After(rps, earlier + [attempt]) == Next(rps, After(rps, earlier), attempt)
    ensures LastDecision(rps, earlier + [attempt], Admits(rps, After(rps, earlier), attempt))
  {
    var history, n := earlier + [attempt], |earlier|;
    AfterLast(rps, earlier, attempt, history);
    assert history[..n] == earlier;
    if TimeOrdered(history) {
      AdmittedIffEveryWindowAffordsIt(rps, history, n);
    }
  }

  class RateLimitState {
    const rps: real
    var buckets: Buckets
    ghost var history: seq<Attempt>

    ghost predicate Valid()
      reads this
    {
      rps > 0.0 && buckets == After(rps, history)
    }

    constructor (rps: real)
      requires rps > 0.0
      ensures Valid() && this.rps == rps && history == []
    {
      this.rps := rps;
      this.buckets := map[];
      this.history := [];
    }

    /** Takes one token for `key`, or says how many seconds to wait; the history records the attempt. */
    method TryAcquire(key: string, now: real) returns (r: Result<(), int>)
      requires Valid()
      modifies this
      ensures Valid() && history == old(history) + [Attempt(key, now)]
      ensures buckets == Next(rps, old(buckets), Attempt(key, now))
      ensures LastDecision(rps, history, r.Ok?)
      ensures r.Err? ==> r.error == WaitSecs(rps, Level(rps, old(buckets), key, now))
    {
      DecidedBy(rps, history, Attempt(key, now));
      r := TakeToken(key, now);
      history := history + [Attempt(key, now)];
    }

    method TakeToken(key: string, now: real) returns (r: Result<(), int>)
      requires rps > 0.0
      modifies this`buckets
      ensures buckets == Next(rps, old(buckets), Attempt(key, now))
      ensures r.Ok? == Admits(rps, old(buckets), Attempt(key, now))
      ensures r.Err? ==> r.error == WaitSecs(rps, Level(rps, old(buckets), key, now))
    {
      if key !in buckets {
        buckets := buckets[key := Bucket(rps, now)];
      }
      var bucket := buckets[key];
      var elapsed := Elapsed(now, bucket.lastRefill);
      bucket := bucket.(tokens := Capped(bucket.tokens + Flow(rps, elapsed), rps));
      bucket := bucket.(lastRefill := now);
      if bucket.tokens >= 1.0 {
        bucket := bucket.(tokens := bucket.tokens - 1.0);
        r := Ok(());
      } else {
        var need := 1.0 - bucket.tokens;
        var secs := Ceiling(need / rps);
        r := Err(if secs >= 1 then secs else 1);
      }
      buckets := buckets[key := bucket];
    }
  }
}
