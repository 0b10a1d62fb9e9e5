/**
 Exactly which checks a new client gets through: a check is allowed if and only if, counted from each earlier check on,
 the checks allowed since then and this one are within the burst of that check and what was refilled since.
 */
module RateAllowance {
  import opened Options
  import opened Reals
  import opened Seqs
  import opened RateLimiter

  /** The bucket that the check at a place finds. */
  function BucketAt(trace: seq<Request>, i: nat): Option<Bucket>
    requires i <= |trace|
  {
    if i == 0 then None else Some(Check(BucketAt(trace, i - 1), trace[i - 1].config, trace[i - 1].ms).1)
  }

  lemma {:induction false} ResultsFrom(trace: seq<Request>, n: nat)
    requires n <= |trace|
    ensures KeyResults(None, trace) == KeyResults(None, trace[..n]) + KeyResults(BucketAt(trace, n), trace[n..])
    decreases n
  {
    if n == 0 {
      assert trace[0..] == trace && trace[..0] == [];
    } else {
      ResultsFrom(trace, n - 1);
      ResultsFrom(trace[..n], n - 1);
      BucketAtPrefix(trace, n, n - 1);
      assert trace[n - 1..][1..] == trace[n..] && trace[..n][..n - 1] == trace[..n - 1];
      assert trace[..n][n - 1..] == [trace[n - 1]] && [trace[n - 1]][1..] == [];
      var result := Check(BucketAt(trace, n - 1), trace[n - 1].config, trace[n - 1].ms).0;
      ConcatAssociates(KeyResults(None, trace[..n - 1]), [result], KeyResults(BucketAt(trace, n), trace[n..]));
    }
  }

  lemma {:induction false} BucketAtPrefix(trace: seq<Request>, n: nat, i: nat)
    requires i <= n <= |trace|
    ensures BucketAt(trace[..n], i) == BucketAt(trace, i)
    decreases i
  {
    if i > 0 {
      BucketAtPrefix(trace, n, i - 1);
    }
  }

  lemma ResultAt(trace: seq<Request>, i: nat)
    requires i < |trace|
    ensures KeyResults(None, trace)[i] == Check(BucketAt(trace, i), trace[i].config, trace[i].ms).0
  {
    ResultsFrom(trace, i);
  }

  /** The tokens that the check at a place has before it takes one. */
  function TokensAt(trace: seq<Request>, i: nat): real
    requires i < |trace|
  {
    Refilled(BucketAt(trace, i), trace[i].config, Seconds(trace[i].ms)).tokens
  }

  /** How many checks from `j` on are allowed before `i`. */
  function AllowedBetween(trace: seq<Request>, j: nat, i: nat): nat
    requires j <= i <= |trace|
  {
    CountAllowed(KeyResults(None, trace)[j..i])
  }

  /** What a rate in tokens a second refills from one time in milliseconds to another. */
  function RefilledIn(start: int, end: int, refillRate: real): real {
    (end - start) as real / 1000.0 * refillRate
  }

  /** What is refilled from one check to a later one, each stretch at the rate of the check that ends it. */
  function Refill(trace: seq<Request>, j: nat, i: nat): real
    requires j <= i < |trace|
    decreases i
  {
    if i == j then 0.0
    else Refill(trace, j, i - 1) + RefilledIn(trace[i - 1].ms, trace[i].ms, trace[i].config.refillRate)
  }

  /** What is left of the burst of an earlier check. */
  function LeftSince(trace: seq<Request>, j: nat, i: nat): real
    requires j <= i < |trace|
  {
    trace[j].config.maxTokens + Refill(trace, j, i) - AllowedBetween(trace, j, i) as real
  }

  lemma {:induction false} CountAppend(results: seq<CheckResult>, r: CheckResult)
    ensures CountAllowed(results + [r]) == CountAllowed(results) + if r.Allowed? then 1 else 0
  {
    if results == [] {
      assert [] + [r] == [r] && [r][1..] == [];
    } else {
      assert (results + [r])[1..] == results[1..] + [r];
      CountAppend(results[1..], r);
    }
  }

  lemma OneMoreCounted(results: seq<CheckResult>, j: nat, i: nat)
    requires j <= i < |results|
    ensures CountAllowed(results[j..i + 1]) == CountAllowed(results[j..i]) + if results[i].Allowed? then 1 else 0
  {
    assert results[j..i + 1] == results[j..i] + [results[i]];
    CountAppend(results[j..i], results[i]);
  }

  lemma OneMoreBetween(trace: seq<Request>, j: nat, i: nat)
    requires j <= i < |trace|
    ensures AllowedBetween(trace, j, i + 1)
         == AllowedBetween(trace, j, i) + if KeyResults(None, trace)[i].Allowed? then 1 else 0
  {
    OneMoreCounted(KeyResults(None, trace), j, i);
  }

  /** What the check before cost. */
  function Cost(trace: seq<Request>, i: nat): real
    requires i < |trace|
  {
    if KeyResults(None, trace)[i].Allowed? then 1.0 else 0.0
  }

  lemma AfterCheck(existing: Option<Bucket>, config: Config, ms: int)
    ensures var (result, after) := Check(existing, config, ms);
      var tokens := Refilled(existing, config, Seconds(ms)).tokens;
      && after.last == Seconds(ms)
      && (result.Allowed? <==> tokens >= 1.0)
      && after.tokens == tokens - if result.Allowed? then 1.0 else 0.0
  {
  }

  lemma TokensDecide(trace: seq<Request>, i: nat)
    requires i < |trace|
    ensures KeyResults(None, trace)[i].Allowed? <==> TokensAt(trace, i) >= 1.0
  {
    ResultAt(trace, i);
    AfterCheck(BucketAt(trace, i), trace[i].config, trace[i].ms);
  }

  lemma BucketLeft(trace: seq<Request>, i: nat)
    requires i < |trace|
    ensures BucketAt(trace, i + 1) == Some(Bucket(TokensAt(trace, i) - Cost(trace, i), Seconds(trace[i].ms)))
  {
    ResultAt(trace, i);
    AfterCheck(BucketAt(trace, i), trace[i].config, trace[i].ms);
  }

  lemma RefilledBy(b: Bucket, config: Config, start: int, end: int)
    requires b.last == Seconds(start)
    ensures Refilled(Some(b), config, Seconds(end)).tokens
         == Min(config.maxTokens, b.tokens + RefilledIn(start, end, config.refillRate))
  {
    assert Seconds(end) - Seconds(start) == (end - start) as real / 1000.0;
  }

  lemma TokensNext(trace: seq<Request>, i: nat)
    requires 0 < i < |trace|
    ensures TokensAt(trace, i)
         == Min(trace[i].config.maxTokens,
                TokensAt(trace, i - 1) - Cost(trace, i - 1)
                + RefilledIn(trace[i - 1].ms, trace[i].ms, trace[i].config.refillRate))
  {
    BucketLeft(trace, i - 1);
    RefilledBy(BucketAt(trace, i).value, trace[i].config, trace[i - 1].ms, trace[i].ms);
  }

  lemma LeftNext(trace: seq<Request>, j: nat, i: nat)
    requires j < i < |trace|
    ensures LeftSince(trace, j, i)
         == LeftSince(trace, j, i - 1) - Cost(trace, i - 1)
            + RefilledIn(trace[i - 1].ms, trace[i].ms, trace[i].config.refillRate)
  {
    OneMoreBetween(trace, j, i - 1);
  }

  lemma LeftHere(trace: seq<Request>, i: nat)
    requires i < |trace|
    ensures LeftSince(trace, i, i) == trace[i].config.maxTokens
  {
  }

  /** The tokens are within what is left since any earlier check, and are exactly that for one of them. */
  lemma {:induction false} TokensAreWhatIsLeft(trace: seq<Request>, i: nat) returns (least: nat)
    requires i < |trace|
    ensures forall j: nat | j <= i :: TokensAt(trace, i) <= LeftSince(trace, j, i)
    ensures least <= i && TokensAt(trace, i) == LeftSince(trace, least, i)
    decreases i
  {
    LeftHere(trace, i);
    if i == 0 {
      least := 0;
    } else {
      var before := TokensAreWhatIsLeft(trace, i - 1);
      TokensNext(trace, i);
      forall j: nat | j < i
        ensures TokensAt(trace, i) <= LeftSince(trace, j, i)
      {
        LeftNext(trace, j, i);
      }
      LeftNext(trace, before, i);
      least := if TokensAt(trace, i) == trace[i].config.maxTokens then i else before;
    }
  }

  /**
   For a key seen for the first time, under any mix of limits and at any times: a check is allowed exactly if, from each
   earlier check on, the checks allowed since and this one are within that check's burst and what was refilled since.
   */
  lemma {:induction false} AllowedIff(trace: seq<Request>, i: nat)
    requires i < |trace|
    ensures KeyResults(None, trace)[i].Allowed?
       <==> forall j: nat | j <= i ::
              AllowedBetween(trace, j, i) as real + 1.0 <= trace[j].config.maxTokens + Refill(trace, j, i)
  {
    var least := TokensAreWhatIsLeft(trace, i);
    TokensDecide(trace, i);
    assert LeftSince(trace, least, i) >= 1.0
      <==> AllowedBetween(trace, least, i) as real + 1.0 <= trace[least].config.maxTokens + Refill(trace, least, i);
    if TokensAt(trace, i) >= 1.0 {
      forall j: nat | j <= i
        ensures AllowedBetween(trace, j, i) as real + 1.0 <= trace[j].config.maxTokens + Refill(trace, j, i)
      {
        assert TokensAt(trace, i) <= LeftSince(trace, j, i);
      }
    }
  }

  // Under one limit.

  lemma RefillsAdd(start: int, middle: int, end: int, refillRate: real)
    ensures RefilledIn(start, end, refillRate)
         == RefilledIn(start, middle, refillRate) + RefilledIn(middle, end, refillRate)
  {
    var (x, y) := ((middle - start) as real / 1000.0, (end - middle) as real / 1000.0);
    assert (end - start) as real / 1000.0 == x + y;
    assert (x + y) * refillRate == x * refillRate + y * refillRate;
  }

  lemma {:induction false} RefillIsOneStretch(trace: seq<Request>, config: Config, j: nat, i: nat)
    requires SingleLimit(trace, config) && j <= i < |trace|
    ensures Refill(trace, j, i) == RefilledIn(trace[j].ms, trace[i].ms, config.refillRate)
    decreases i
  {
    if i > j {
      RefillIsOneStretch(trace, config, j, i - 1);
      assert trace[i] in trace;
      RefillsAdd(trace[j].ms, trace[i - 1].ms, trace[i].ms, config.refillRate);
    }
  }

  /** From every earlier check on, the allowed ones and this one are within one burst and what was refilled since. */
  predicate WithinAllowance(own: seq<Request>, results: seq<CheckResult>, config: Config, i: nat)
    requires i < |own| == |results|
  {
    forall j: nat | j <= i ::
      CountAllowed(results[j..i]) as real + 1.0
        <= config.maxTokens + RefilledIn(own[j].ms, own[i].ms, config.refillRate)
  }

  lemma {:induction false} AllowedUnderOneLimit(trace: seq<Request>, config: Config, i: nat)
    requires SingleLimit(trace, config) && i < |trace|
    ensures KeyResults(None, trace)[i].Allowed? <==> WithinAllowance(trace, KeyResults(None, trace), config, i)
  {
    AllowedIff(trace, i);
    forall j: nat | j <= i
      ensures trace[j].config == config
      ensures Refill(trace, j, i) == RefilledIn(trace[j].ms, trace[i].ms, config.refillRate)
      ensures AllowedBetween(trace, j, i) == CountAllowed(KeyResults(None, trace)[j..i])
    {
      assert trace[j] in trace;
      RefillIsOneStretch(trace, config, j, i);
    }
  }

  /** The same on the whole server for a client with a single limit, among the checks of all other clients. */
  lemma {:induction false} ServerAllowsIff(trace: seq<Request>, key: string, config: Config, i: nat)
    requires SingleLimit(OfKey(key, trace), config) && i < |OfKey(key, trace)|
    ensures var (own, results) := (OfKey(key, trace), ResultsOfKey(key, trace, Results(map[], trace)));
      results[i].Allowed? <==> WithinAllowance(own, results, config, i)
  {
    KeysAreIndependent(map[], trace, key);
    AllowedUnderOneLimit(OfKey(key, trace), config, i);
  }

  // A burst at one time.

  /** All checks come at one time, under one limit. */
  predicate Burst(trace: seq<Request>, config: Config) {
    SingleLimit(trace, config) && forall a <- trace, b <- trace :: a.ms == b.ms
  }

  function Least(a: nat, b: int): nat { if a <= b then a else if b < 0 then 0 else b }

  lemma CountIsNoMore(results: seq<CheckResult>)
    ensures CountAllowed(results) <= |results|
  {
  }

  lemma AllowanceInBurst(trace: seq<Request>, config: Config, i: nat, j: nat)
    requires Burst(trace, config) && j <= i < |trace|
    ensures RefilledIn(trace[j].ms, trace[i].ms, config.refillRate) == 0.0
    ensures CountAllowed(KeyResults(None, trace)[j..i]) <= i - j
  {
    assert trace[j] in trace && trace[i] in trace;
    CountIsNoMore(KeyResults(None, trace)[j..i]);
  }

  lemma WholeTokens(tokens: real, n: nat)
    ensures n as real + 1.0 <= tokens <==> n < tokens.Floor
  {
  }

  lemma BurstAllows(trace: seq<Request>, config: Config, i: nat)
    requires Burst(trace, config) && i < |trace|
    requires CountAllowed(KeyResults(None, trace)[0..i]) == Least(i, config.maxTokens.Floor)
    ensures KeyResults(None, trace)[i].Allowed? <==> i < config.maxTokens.Floor
  {
    var results := KeyResults(None, trace);
    AllowedUnderOneLimit(trace, config, i);
    AllowanceInBurst(trace, config, i, 0);
    WholeTokens(config.maxTokens, Least(i, config.maxTokens.Floor));
    WholeTokens(config.maxTokens, i);
    forall j: nat | j <= i && i < config.maxTokens.Floor
      ensures CountAllowed(results[j..i]) as real + 1.0
           <= config.maxTokens + RefilledIn(trace[j].ms, trace[i].ms, config.refillRate)
    {
      AllowanceInBurst(trace, config, i, j);
    }
  }

  lemma {:induction false} BurstCount(trace: seq<Request>, config: Config, i: nat)
    requires Burst(trace, config) && i <= |trace|
    ensures CountAllowed(KeyResults(None, trace)[0..i]) == Least(i, config.maxTokens.Floor)
    decreases i
  {
    if i > 0 {
      BurstCount(trace, config, i - 1);
      BurstAllows(trace, config, i - 1);
      OneMoreCounted(KeyResults(None, trace), 0, i - 1);
    }
  }

  /** A burst of checks at one time lets through exactly as many as there are whole tokens, the first ones. */
  lemma {:induction false} BurstAllowsWholeTokens(trace: seq<Request>, config: Config, i: nat)
    requires Burst(trace, config) && i < |trace|
    ensures KeyResults(None, trace)[i].Allowed? <==> i < config.maxTokens.Floor
  {
    BurstCount(trace, config, i);
    BurstAllows(trace, config, i);
  }
}
