/**
 The server's rate limiter: one token bucket per client key, refilled lazily on every check. Several endpoints with
 different limits share the bucket of a client. Times are whole milliseconds, token counts are exact.
 */
module RateLimiter {
  import opened Options
  import opened Reals
  import opened Seqs

  datatype Config = Config(maxTokens: real, refillRate: real)

  datatype Bucket = Bucket(tokens: real, last: real)

  /** `retryAfterMs` is missing where the source divides by a zero rate and reports infinity. */
  datatype CheckResult = Allowed | Denied(retryAfterMs: Option<int>)

  function Seconds(ms: int): real { ms as real / 1000.0 }

  function Positive(x: real): real { if x < 0.0 then 0.0 else x }

  function Refilled(existing: Option<Bucket>, config: Config, now: real): Bucket {
    match existing
    case Some(b) => Bucket(Min(config.maxTokens, b.tokens + (now - b.last) * config.refillRate), now)
    case None => Bucket(config.maxTokens, now)
  }

  function RetryAfter(tokens: real, refillRate: real): Option<int> {
    if refillRate == 0.0 then None else Some(Ceil((1.0 - tokens) / refillRate * 1000.0))
  }

  function Check(existing: Option<Bucket>, config: Config, ms: int): (CheckResult, Bucket) {
    var b := Refilled(existing, config, Seconds(ms));
    if b.tokens < 1.0 then (Denied(RetryAfter(b.tokens, config.refillRate)), b)
    else (Allowed, b.(tokens := b.tokens - 1.0))
  }

  class Limiter {
    var buckets: map<string, Bucket>

    constructor ()
      ensures buckets == map[]
    {
      buckets := map[];
    }

    method CheckKey(key: string, config: Config, ms: int) returns (result: CheckResult)
      modifies this
      ensures result == Check(Lookup(old(buckets), key), config, ms).0
      ensures buckets == old(buckets)[key := Check(Lookup(old(buckets), key), config, ms).1]
    {
      var now := Seconds(ms);
      var refilled: Bucket;
      if key in buckets {
        var existing := buckets[key];
        refilled := Bucket(Min(config.maxTokens, existing.tokens + (now - existing.last) * config.refillRate), now);
      } else {
        refilled := Bucket(config.maxTokens, now);
      }
      if refilled.tokens < 1.0 {
        buckets := buckets[key := refilled];
        result := Denied(RetryAfter(refilled.tokens, config.refillRate));
      } else {
        buckets := buckets[key := refilled.(tokens := refilled.tokens - 1.0)];
        result := Allowed;
      }
    }
  }

  // Traces.

  datatype Request = Request(key: string, config: Config, ms: int)

  function Results(buckets: map<string, Bucket>, trace: seq<Request>): (r: seq<CheckResult>)
    ensures |r| == |trace|
    decreases |trace|
  {
    if trace == [] then []
    else
      var (result, b) := Check(Lookup(buckets, trace[0].key), trace[0].config, trace[0].ms);
      [result] + Results(buckets[trace[0].key := b], trace[1..])
  }

  /** The checks of one key, run on that key's bucket alone. */
  function KeyResults(existing: Option<Bucket>, trace: seq<Request>): (r: seq<CheckResult>)
    ensures |r| == |trace|
    decreases |trace|
  {
    if trace == [] then []
    else
      var (result, b) := Check(existing, trace[0].config, trace[0].ms);
      [result] + KeyResults(Some(b), trace[1..])
  }

  function OfKey(key: string, trace: seq<Request>): seq<Request> {
    if trace == [] then [] else (if trace[0].key == key then [trace[0]] else []) + OfKey(key, trace[1..])
  }

  function ResultsOfKey(key: string, trace: seq<Request>, results: seq<CheckResult>): (r: seq<CheckResult>)
    requires |trace| == |results|
    ensures |r| == |OfKey(key, trace)|
  {
    if trace == [] then []
    else (if trace[0].key == key then [results[0]] else []) + ResultsOfKey(key, trace[1..], results[1..])
  }

  /** Checks of other keys never affect a key: its results are those of its own checks alone. */
  lemma {:induction false} KeysAreIndependent(buckets: map<string, Bucket>, trace: seq<Request>, key: string)
    ensures ResultsOfKey(key, trace, Results(buckets, trace)) == KeyResults(Lookup(buckets, key), OfKey(key, trace))
    decreases |trace|
  {
    if trace != [] {
      var (result, b) := Check(Lookup(buckets, trace[0].key), trace[0].config, trace[0].ms);
      var after := buckets[trace[0].key := b];
      KeysAreIndependent(after, trace[1..], key);
      assert Results(buckets, trace)[1..] == Results(after, trace[1..]);
      if trace[0].key == key {
        assert OfKey(key, trace) == [trace[0]] + OfKey(key, trace[1..]);
        assert OfKey(key, trace)[1..] == OfKey(key, trace[1..]);
      } else {
        assert OfKey(key, trace) == OfKey(key, trace[1..]);
      }
    }
  }

  // The bound on every window.

  function CountAllowed(results: seq<CheckResult>): nat {
    if results == [] then 0 else (if results[0].Allowed? then 1 else 0) + CountAllowed(results[1..])
  }

  predicate Ordered(trace: seq<Request>) {
    forall i, j :: 0 <= i < j < |trace| ==> trace[i].ms <= trace[j].ms
  }

  predicate Within(trace: seq<Request>, maxTokens: real, refillRate: real) {
    forall request <- trace :: request.config.maxTokens <= maxTokens && request.config.refillRate <= refillRate
  }

  predicate Between(trace: seq<Request>, start: int, end: int) {
    forall request <- trace :: start <= request.ms <= end
  }

  lemma TailOfTrace(trace: seq<Request>, maxTokens: real, refillRate: real, start: int, end: int)
    requires trace != [] && Ordered(trace) && Within(trace, maxTokens, refillRate) && Between(trace, start, end)
    ensures start <= trace[0].ms <= end
    ensures trace[0].config.maxTokens <= maxTokens && trace[0].config.refillRate <= refillRate
    ensures Ordered(trace[1..]) && Within(trace[1..], maxTokens, refillRate) && Between(trace[1..], trace[0].ms, end)
  {
    assert trace[0] in trace;
    forall r | r in trace[1..]
      ensures r in trace && trace[0].ms <= r.ms
    {
      var i :| 0 <= i < |trace[1..]| && trace[1..][i] == r;
      assert r == trace[i + 1];
    }
  }

  lemma RateTimes(dt: real, a: real, b: real)
    requires dt >= 0.0 && a <= b
    ensures dt * a <= dt * b
  {
  }

  lemma TimeAdds(x: real, y: real, z: real, rate: real)
    ensures (z - x) * rate == (y - x) * rate + (z - y) * rate
  {
  }

  /** One check: its cost and what it leaves are together within what was there and what time has added. */
  lemma CheckGains(b: Bucket, config: Config, ms: int, refillRate: real)
    requires b.last <= Seconds(ms) && config.refillRate <= refillRate && refillRate >= 0.0
    ensures var (result, after) := Check(Some(b), config, ms);
      (if result.Allowed? then 1.0 else 0.0) + Positive(after.tokens)
        <= Positive(b.tokens) + (Seconds(ms) - b.last) * refillRate
  {
    RateTimes(Seconds(ms) - b.last, config.refillRate, refillRate);
    RateTimes(Seconds(ms) - b.last, 0.0, refillRate);
  }

  /** Whatever was in the bucket, a first check and what it leaves are together within the largest burst. */
  lemma FirstCheck(existing: Option<Bucket>, config: Config, ms: int, maxTokens: real)
    requires config.maxTokens <= maxTokens && maxTokens >= 0.0
    ensures var (result, b) := Check(existing, config, ms);
      (if result.Allowed? then 1.0 else 0.0) + Positive(b.tokens) <= maxTokens
  {
  }

  lemma FirstOfTrace(existing: Option<Bucket>, trace: seq<Request>) returns (after: Bucket, cost: real)
    requires trace != []
    ensures after == Check(existing, trace[0].config, trace[0].ms).1 && after.last == Seconds(trace[0].ms)
    ensures cost == if Check(existing, trace[0].config, trace[0].ms).0.Allowed? then 1.0 else 0.0
    ensures CountAllowed(KeyResults(existing, trace)) as real
         == cost + CountAllowed(KeyResults(Some(after), trace[1..])) as real
  {
    var (result, b) := Check(existing, trace[0].config, trace[0].ms);
    after, cost := b, if result.Allowed? then 1.0 else 0.0;
    assert KeyResults(existing, trace)[1..] == KeyResults(Some(after), trace[1..]);
  }

  lemma StepFromBucket(b: Bucket, trace: seq<Request>, refillRate: real, start: int) returns (after: Bucket, cost: real)
    requires trace != [] && b.last == Seconds(start) && start <= trace[0].ms
    requires trace[0].config.refillRate <= refillRate && refillRate >= 0.0
    ensures after.last == Seconds(trace[0].ms)
    ensures cost + Positive(after.tokens) <= Positive(b.tokens) + Gain(start, trace[0].ms, refillRate)
    ensures CountAllowed(KeyResults(Some(b), trace)) as real
         == cost + CountAllowed(KeyResults(Some(after), trace[1..])) as real
  {
    after, cost := FirstOfTrace(Some(b), trace);
    CheckGains(b, trace[0].config, trace[0].ms, refillRate);
  }

  lemma StepFromAnything(
    existing: Option<Bucket>, trace: seq<Request>, maxTokens: real) returns (after: Bucket, cost: real
  )
    requires trace != [] && trace[0].config.maxTokens <= maxTokens && maxTokens >= 0.0
    ensures after.last == Seconds(trace[0].ms) && cost + Positive(after.tokens) <= maxTokens
    ensures CountAllowed(KeyResults(existing, trace)) as real
         == cost + CountAllowed(KeyResults(Some(after), trace[1..])) as real
  {
    after, cost := FirstOfTrace(existing, trace);
    FirstCheck(existing, trace[0].config, trace[0].ms, maxTokens);
  }

  /** What a rate refills between two times. */
  function Gain(start: int, end: int, refillRate: real): (gain: real)
    ensures start <= end && refillRate >= 0.0 ==> gain >= 0.0
  {
    (Seconds(end) - Seconds(start)) * refillRate
  }

  /** Tokens are only gained by time, and every allowed check costs one. */
  lemma {:induction false} CountFromBucket(b: Bucket, trace: seq<Request>, maxTokens: real, refillRate: real,
                                           start: int, end: int)
    requires Ordered(trace) && Within(trace, maxTokens, refillRate) && refillRate >= 0.0
    requires b.last == Seconds(start) && start <= end && Between(trace, start, end)
    ensures CountAllowed(KeyResults(Some(b), trace)) as real <= Positive(b.tokens) + Gain(start, end, refillRate)
    decreases |trace|
  {
    if trace != [] {
      var ms := trace[0].ms;
      TailOfTrace(trace, maxTokens, refillRate, start, end);
      var after, cost := StepFromBucket(b, trace, refillRate, start);
      CountFromBucket(after, trace[1..], maxTokens, refillRate, ms, end);
      TimeAdds(Seconds(start), Seconds(ms), Seconds(end), refillRate);
      assert Gain(start, end, refillRate) == Gain(start, ms, refillRate) + Gain(ms, end, refillRate);
    }
  }

  lemma CountOfPart(
    existing: Option<Bucket>, trace: seq<Request>, maxTokens: real, refillRate: real, start: int, end: int
  )
    requires Ordered(trace) && Within(trace, maxTokens, refillRate) && refillRate >= 0.0 && maxTokens >= 0.0
    requires start <= end && Between(trace, start, end)
    ensures CountAllowed(KeyResults(existing, trace)) as real <= maxTokens + Gain(start, end, refillRate)
  {
    if trace != [] {
      var ms := trace[0].ms;
      TailOfTrace(trace, maxTokens, refillRate, start, end);
      var after, cost := StepFromAnything(existing, trace, maxTokens);
      CountFromBucket(after, trace[1..], maxTokens, refillRate, ms, end);
      TimeAdds(Seconds(start), Seconds(ms), Seconds(end), refillRate);
      assert Gain(start, end, refillRate) == Gain(start, ms, refillRate) + Gain(ms, end, refillRate);
    }
  }

  lemma KeyResultsAfter(existing: Option<Bucket>, before: seq<Request>, trace: seq<Request>) returns (b: Option<Bucket>)
    ensures KeyResults(existing, before + trace) == KeyResults(existing, before) + KeyResults(b, trace)
    decreases |before|
  {
    if before == [] {
      assert before + trace == trace;
      b := existing;
    } else {
      var after := Check(existing, before[0].config, before[0].ms).1;
      assert (before + trace)[1..] == before[1..] + trace;
      b := KeyResultsAfter(Some(after), before[1..], trace);
    }
  }

  lemma ResultsOfPart(existing: Option<Bucket>, before: seq<Request>, window: seq<Request>, later: seq<Request>)
    returns (b: Option<Bucket>)
    ensures KeyResults(existing, before + window + later)[|before|..|before| + |window|] == KeyResults(b, window)
  {
    assert before + window + later == before + (window + later);
    b := KeyResultsAfter(existing, before, window + later);
    var c := KeyResultsAfter(b, window, later);
  }

  lemma PartOfTrace(before: seq<Request>, window: seq<Request>, later: seq<Request>, maxTokens: real, refillRate: real)
    requires Ordered(before + window + later) && Within(before + window + later, maxTokens, refillRate)
    ensures Ordered(window) && Within(window, maxTokens, refillRate)
  {
    var all := before + window + later;
    assert forall i :: 0 <= i < |window| ==> window[i] == all[|before| + i];
    forall r | r in window
      ensures r in all
    {
    }
  }

  /**
   For one key, with a clock that does not go back and any mix of limits on the shared bucket: the checks allowed in
   any window of time are at most the largest burst plus what the largest rate refills in that time.
   */
  lemma {:induction false} WindowBound(
    existing: Option<Bucket>, before: seq<Request>, window: seq<Request>, later: seq<Request>,
    maxTokens: real, refillRate: real, start: int, end: int
  )
    requires Ordered(before + window + later)
    requires Within(before + window + later, maxTokens, refillRate) && maxTokens >= 0.0 && refillRate >= 0.0
    requires start <= end && Between(window, start, end)
    ensures var results := KeyResults(existing, before + window + later);
      CountAllowed(results[|before|..|before| + |window|]) as real
        <= maxTokens + Gain(start, end, refillRate)
  {
    PartOfTrace(before, window, later, maxTokens, refillRate);
    var b := ResultsOfPart(existing, before, window, later);
    CountOfPart(b, window, maxTokens, refillRate, start, end);
  }

  /** The limits of the execute, WebSocket and gRPC endpoints. */
  predicate ServerLimit(config: Config) {
    config == Config(60.0, 1.0) || config == Config(20.0, 2.0) || config == Config(40.0, 2.0)
  }

  lemma OrderedParts(trace: seq<Request>)
    requires Ordered(trace) && trace != []
    ensures Ordered(trace[1..]) && forall request <- trace[1..] :: trace[0].ms <= request.ms
  {
  }

  lemma OrderedWithFirst(first: Request, rest: seq<Request>)
    requires Ordered(rest) && forall request <- rest :: first.ms <= request.ms
    ensures Ordered([first] + rest)
  {
  }

  lemma {:induction false} OfKeyIsOrdered(key: string, trace: seq<Request>)
    requires Ordered(trace)
    ensures forall request <- OfKey(key, trace) :: request in trace
    ensures Ordered(OfKey(key, trace))
  {
    if trace != [] {
      OrderedParts(trace);
      OfKeyIsOrdered(key, trace[1..]);
      if trace[0].key == key {
        OrderedWithFirst(trace[0], OfKey(key, trace[1..]));
      } else {
        assert OfKey(key, trace) == OfKey(key, trace[1..]);
      }
    }
  }

  /** On the whole server, a client gets at most 60 checks through at once and two more per second in any window. */
  lemma {:induction false} ServerWindowBound(
    trace: seq<Request>, key: string, before: seq<Request>, window: seq<Request>, later: seq<Request>,
    start: int, end: int
  )
    requires Ordered(trace) && forall request <- trace :: ServerLimit(request.config)
    requires OfKey(key, trace) == before + window + later && start <= end && Between(window, start, end)
    ensures var results := ResultsOfKey(key, trace, Results(map[], trace));
      && |results| == |before| + |window| + |later|
      && CountAllowed(results[|before|..|before| + |window|]) as real <= 60.0 + Gain(start, end, 2.0)
  {
    KeysAreIndependent(map[], trace, key);
    OfKeyIsOrdered(key, trace);
    WindowBound(None, before, window, later, 60.0, 2.0, start, end);
  }

  // Retry-after, and the irrelevance of denied checks.

  /** A denied check leaves a bucket that refills to the same amount at every later time. */
  lemma {:induction false} DeniedCheckIsInvisible(existing: Option<Bucket>, config: Config, ms: int, later: int)
    requires config.refillRate >= 0.0 && ms <= later
    ensures Refilled(Some(Refilled(existing, config, Seconds(ms))), config, Seconds(later))
         == Refilled(existing, config, Seconds(later))
  {
    var now, t, rate := Seconds(ms), Seconds(later), config.refillRate;
    assert (t - now) * rate >= 0.0;
    if existing.Some? {
      var b := existing.value;
      assert (t - b.last) * rate == (now - b.last) * rate + (t - now) * rate;
    }
  }

  predicate SingleLimit(checks: seq<Request>, config: Config) {
    forall request <- checks :: request.config == config
  }

  function Times(checks: seq<Request>): seq<int> {
    seq(|checks|, i requires 0 <= i < |checks| => checks[i].ms)
  }

  predicate Sorted(times: seq<int>) {
    forall i, j :: 0 <= i < j < |times| ==> times[i] <= times[j]
  }

  function Outcomes(existing: Option<Bucket>, config: Config, times: seq<int>): (r: seq<CheckResult>)
    ensures |r| == |times|
    decreases |times|
  {
    if times == [] then []
    else
      var (result, b) := Check(existing, config, times[0]);
      [result] + Outcomes(Some(b), config, times[1..])
  }

  /** `Outcomes` are the results of one key's checks under a single limit. */
  lemma {:induction false} OutcomesAreKeyResults(existing: Option<Bucket>, config: Config, checks: seq<Request>)
    requires SingleLimit(checks, config)
    ensures Outcomes(existing, config, Times(checks)) == KeyResults(existing, checks)
    decreases |checks|
  {
    if checks != [] {
      assert checks[0] in checks && forall request <- checks[1..] :: request in checks;
      OutcomesAreKeyResults(Some(Check(existing, config, checks[0].ms).1), config, checks[1..]);
      assert Times(checks)[0] == checks[0].ms && Times(checks)[1..] == Times(checks[1..]);
    }
  }

  function Drop<T>(s: seq<T>, i: nat): seq<T>
    requires i < |s|
  {
    s[..i] + s[i + 1..]
  }

  lemma DropLater<T>(s: seq<T>, i: nat)
    requires 0 < i < |s|
    ensures Drop(s, i) == [s[0]] + Drop(s[1..], i - 1)
  {
  }

  lemma OutcomesStart(existing: Option<Bucket>, config: Config, times: seq<int>)
    requires times != []
    ensures var (result, b) := Check(existing, config, times[0]);
      Outcomes(existing, config, times) == [result] + Outcomes(Some(b), config, times[1..])
  {
  }

  /** A denied check only moves the bucket to its own time, so a later check cannot tell that it happened. */
  lemma SameCheckAfterDenial(existing: Option<Bucket>, config: Config, ms: int, later: int)
    requires config.refillRate >= 0.0 && ms <= later && Check(existing, config, ms).0.Denied?
    ensures Check(Some(Check(existing, config, ms).1), config, later) == Check(existing, config, later)
  {
    DeniedCheckIsInvisible(existing, config, ms, later);
  }

  lemma FirstDeniedCanBeDeleted(existing: Option<Bucket>, config: Config, times: seq<int>)
    requires config.refillRate >= 0.0 && Sorted(times) && times != [] && Check(existing, config, times[0]).0.Denied?
    ensures Outcomes(existing, config, times[1..]) == Outcomes(existing, config, times)[1..]
  {
    var b, rest := Check(existing, config, times[0]).1, times[1..];
    OutcomesStart(existing, config, times);
    if rest != [] {
      assert rest[0] == times[1];
      SameCheckAfterDenial(existing, config, times[0], rest[0]);
      OutcomesStart(existing, config, rest);
      OutcomesStart(Some(b), config, rest);
    }
  }

  /** Deleting a denied check from a single-limit trace changes no other outcome, not even a reported wait. */
  lemma {:induction false} DeniedCheckCanBeDeleted(existing: Option<Bucket>, config: Config, times: seq<int>, i: nat)
    requires config.refillRate >= 0.0 && Sorted(times) && i < |times|
    requires Outcomes(existing, config, times)[i].Denied?
    ensures Outcomes(existing, config, Drop(times, i)) == Drop(Outcomes(existing, config, times), i)
    decreases i
  {
    var (result, b) := Check(existing, config, times[0]);
    var rest := times[1..];
    OutcomesStart(existing, config, times);
    if i == 0 {
      assert Drop(times, 0) == rest;
      FirstDeniedCanBeDeleted(existing, config, times);
    } else {
      DeniedCheckCanBeDeleted(Some(b), config, rest, i - 1);
      OutcomesStart(existing, config, Drop(times, i));
      DropLater(times, i);
      DropLater(Outcomes(existing, config, times), i);
    }
  }

  /** The least whole number of milliseconds not below a wait is its rounding up. */
  lemma CeilIsLeast(x: real, d: int)
    ensures d >= Ceil(x) <==> d as real >= x
  {
    var f := (-x).Floor;
    assert f as real <= -x < (f + 1) as real;
  }

  lemma WaitInRealTime(tokens: real, rate: real, d: int)
    requires rate > 0.0
    ensures d as real >= (1.0 - tokens) / rate * 1000.0 <==> tokens + d as real / 1000.0 * rate >= 1.0
  {
    var x := (1.0 - tokens) / rate;
    assert x * rate == 1.0 - tokens;
    var s := d as real / 1000.0;
    if s >= x {
      assert s * rate >= x * rate;
    } else {
      assert s * rate < x * rate;
    }
  }

  /** The next check of the key under the same limit, d milliseconds after a denial, is allowed from the wait on. */
  lemma {:induction false} RetryAfterIsExact(existing: Option<Bucket>, config: Config, ms: int, d: nat)
    requires config.maxTokens >= 1.0 && config.refillRate > 0.0
    requires Check(existing, config, ms).0.Denied?
    ensures var (denied, b) := Check(existing, config, ms);
      denied.retryAfterMs.Some? &&
      (Check(Some(b), config, ms + d).0.Allowed? <==> d >= denied.retryAfterMs.value)
  {
    var b := Check(existing, config, ms).1;
    assert Seconds(ms + d) - Seconds(ms) == d as real / 1000.0;
    CeilIsLeast((1.0 - b.tokens) / config.refillRate * 1000.0, d);
    WaitInRealTime(b.tokens, config.refillRate, d);
  }

  predicate AllDenied(results: seq<CheckResult>) {
    forall i :: 0 <= i < |results| ==> results[i].Denied?
  }

  /** The same, when any number of further denied checks of the key came in between. */
  lemma {:induction false} RetryAfterSurvivesDenials(
    existing: Option<Bucket>, config: Config, ms: int, between: seq<int>, d: nat
  )
    requires config.maxTokens >= 1.0 && config.refillRate > 0.0
    requires Sorted([ms] + between + [ms + d])
    requires Check(existing, config, ms).0.Denied?
    requires AllDenied(Outcomes(existing, config, [ms] + between + [ms + d])[..|between| + 1])
    ensures var outcomes := Outcomes(existing, config, [ms] + between + [ms + d]);
      Last(outcomes).Allowed? <==> d >= Check(existing, config, ms).0.retryAfterMs.GetOr(0)
    decreases |between|
  {
    var times := [ms] + between + [ms + d];
    if between == [] {
      assert times == [ms, ms + d];
      RetryAfterIsExact(existing, config, ms, d);
      assert Outcomes(existing, config, times)[1] == Outcomes(Some(Check(existing, config, ms).1), config, [ms + d])[0];
    } else {
      var rest := between[1..];
      DeniedCheckCanBeDeleted(existing, config, times, 1);
      var fewer := Drop(times, 1);
      assert fewer == [ms] + rest + [ms + d];
      var outcomes := Outcomes(existing, config, times);
      assert forall i :: 0 <= i < |fewer| ==> fewer[i] == times[if i < 1 then i else i + 1];
      assert forall i :: 0 <= i < |fewer| ==>
        Outcomes(existing, config, fewer)[i] == outcomes[if i < 1 then i else i + 1];
      RetryAfterSurvivesDenials(existing, config, ms, rest, d);
    }
  }

  // The same on the whole server, among the checks of all other clients.

  /** The bucket a denied check leaves behind makes no difference to what follows. */
  lemma {:induction false} SameResultsAfterDenial(
    buckets: map<string, Bucket>, key: string, config: Config, ms: int, trace: seq<Request>
  )
    requires config.refillRate >= 0.0 && Check(Lookup(buckets, key), config, ms).0.Denied?
    requires SingleLimit(OfKey(key, trace), config) && forall request <- trace :: ms <= request.ms
    ensures Results(buckets[key := Check(Lookup(buckets, key), config, ms).1], trace) == Results(buckets, trace)
    decreases |trace|
  {
    if trace != [] {
      var after := buckets[key := Check(Lookup(buckets, key), config, ms).1];
      var first, rest := trace[0], trace[1..];
      var b := Check(Lookup(buckets, first.key), first.config, first.ms).1;
      assert first in trace && forall request <- rest :: request in trace;
      if first.key == key {
        assert OfKey(key, trace)[0] == first && first in OfKey(key, trace);
        SameCheckAfterDenial(Lookup(buckets, key), config, ms, first.ms);
        assert after[key := b] == buckets[key := b];
      } else {
        assert OfKey(key, trace) == OfKey(key, rest);
        assert Lookup(buckets[first.key := b], key) == Lookup(buckets, key);
        SameResultsAfterDenial(buckets[first.key := b], key, config, ms, rest);
        assert after[first.key := b] == buckets[first.key := b][key := after[key]];
      }
    }
  }

  /** Deleting a denied check of a client with a single limit changes no other result of any client. */
  lemma {:induction false} ServerDeniedCheckCanBeDeleted(buckets: map<string, Bucket>, trace: seq<Request>, j: nat)
    requires Ordered(trace) && j < |trace| && Results(buckets, trace)[j].Denied?
    requires trace[j].config.refillRate >= 0.0 && SingleLimit(OfKey(trace[j].key, trace), trace[j].config)
    ensures Results(buckets, Drop(trace, j)) == Drop(Results(buckets, trace), j)
    decreases j
  {
    var first, rest := trace[0], trace[1..];
    var b := Check(Lookup(buckets, first.key), first.config, first.ms).1;
    OrderedParts(trace);
    SingleLimitTail(trace, trace[j].key, trace[j].config);
    if j == 0 {
      assert Drop(trace, 0) == rest;
      SameResultsAfterDenial(buckets, first.key, first.config, first.ms, rest);
    } else {
      ServerDeniedCheckCanBeDeleted(buckets[first.key := b], rest, j - 1);
      DropLater(trace, j);
      DropLater(Results(buckets, trace), j);
    }
  }

  lemma SingleLimitTail(trace: seq<Request>, key: string, config: Config)
    requires trace != [] && SingleLimit(OfKey(key, trace), config)
    ensures SingleLimit(OfKey(key, trace[1..]), config)
  {
    assert forall request <- OfKey(key, trace[1..]) :: request in OfKey(key, trace);
  }

  lemma OrderedTimes(checks: seq<Request>)
    requires Ordered(checks)
    ensures Sorted(Times(checks))
  {
  }

  /** A client that was denied ever since a reported wait gets through exactly from the end of that wait on. */
  lemma {:induction false} ServerRetryAfterIsExact(
    buckets: map<string, Bucket>, trace: seq<Request>, key: string, config: Config,
    ms: int, between: seq<int>, d: nat
  )
    requires config.maxTokens >= 1.0 && config.refillRate > 0.0 && Ordered(trace)
    requires SingleLimit(OfKey(key, trace), config) && Times(OfKey(key, trace)) == [ms] + between + [ms + d]
    requires AllDenied(Front(ResultsOfKey(key, trace, Results(buckets, trace))))
    ensures var results := ResultsOfKey(key, trace, Results(buckets, trace));
      && |results| == |between| + 2 && results[0].Denied? && results[0].retryAfterMs.Some?
      && (Last(results).Allowed? <==> d >= results[0].retryAfterMs.value)
  {
    var existing, checks, times := Lookup(buckets, key), OfKey(key, trace), [ms] + between + [ms + d];
    var results := ResultsOfKey(key, trace, Results(buckets, trace));
    KeysAreIndependent(buckets, trace, key);
    OfKeyIsOrdered(key, trace);
    OrderedTimes(checks);
    OutcomesAreKeyResults(existing, config, checks);
    assert results == Outcomes(existing, config, times);
    OutcomesStart(existing, config, times);
    assert times[0] == ms && Front(results)[0] == results[0] == Check(existing, config, ms).0;
    assert results[..|between| + 1] == Front(results);
    RetryAfterSurvivesDenials(existing, config, ms, between, d);
  }
}
