/**
 The static flow validator: one walk over the nested steps that updates a list of issues, a set of seen
 ids and two statistics. It accepts exactly the flows that satisfy `Accepted`.
 */
module FlowValidation {
  import opened Options
  import opened Seqs
  import opened JsText
  import opened FlowInterpreter

  const MAX_FLOW_NAME_LENGTH := 120
  const MAX_STEP_NAME_LENGTH := 120
  const MAX_TOTAL_STEPS := 500
  const MAX_NESTING_DEPTH := 8
  const MAX_DELAY_MS := 300000.0
  const LONG_DELAY_MS := 30000.0
  const MAX_LOOP_ITERATIONS := 1000.0

  datatype Level = Error | Warning

  datatype Problem =
    | FlowNameRequired | FlowNameTooLong | NoSteps | TooManySteps | TooDeep
    | IdRequired | IdNotUnique | NameRequired | NameTooLong
    | DelayOutOfRange | LongDelay | EmptyBranches | EmptyLoop | CountOutOfRange | MaxIterationsOutOfRange
    | CountAboveMaxIterations | BadConditionMode | NoCap | NeedsResponse
    | RequestProblem(text: string) | ConditionProblem(text: string)

  datatype Issue = Issue(level: Level, problem: Problem, stepId: Option<string>)

  /** The checks of a single request or condition, which do not look at the structure of the flow. */
  datatype LeafChecks = LeafChecks(request: (RequestConfig, string) -> seq<Issue>,
                                   condition: (Condition, string) -> seq<Issue>)

  datatype Flow = Flow(name: string, steps: seq<Step>)

  predicate NoErrors(issues: seq<Issue>) {
    forall i :: 0 <= i < |issues| ==> issues[i].level == Warning
  }

  /** `issues.filter((issue) => issue.level === level)`. */
  function OfLevel(issues: seq<Issue>, level: Level): seq<Issue> {
    if issues == [] then []
    else if Last(issues).level == level then OfLevel(Front(issues), level) + [Last(issues)]
    else OfLevel(Front(issues), level)
  }

  lemma OneMoreIssue(issues: seq<Issue>, i: nat)
    requires i < |issues|
    ensures forall level ::
      OfLevel(issues[..i + 1], level)
      == if issues[i].level == level then OfLevel(issues[..i], level) + [issues[i]] else OfLevel(issues[..i], level)
  {
    assert Front(issues[..i + 1]) == issues[..i] && Last(issues[..i + 1]) == issues[i];
  }

  lemma OneMoreOnEitherSide<T>(a: seq<T>, b: seq<T>, all: seq<T>, x: T)
    requires multiset(a) + multiset(b) == multiset(all)
    ensures multiset(a + [x]) + multiset(b) == multiset(all + [x])
    ensures multiset(a) + multiset(b + [x]) == multiset(all + [x])
  {
  }

  lemma {:induction false} LevelsAreAll(issues: seq<Issue>)
    ensures multiset(OfLevel(issues, Error)) + multiset(OfLevel(issues, Warning)) == multiset(issues)
  {
    if issues != [] {
      var front, x := Front(issues), Last(issues);
      LevelsAreAll(front);
      OneMoreOnEitherSide(OfLevel(front, Error), OfLevel(front, Warning), front, x);
      assert issues == front + [x];
    }
  }

  lemma {:induction false} OfLevelHasLevel(issues: seq<Issue>, level: Level)
    ensures forall i :: 0 <= i < |OfLevel(issues, level)| ==> OfLevel(issues, level)[i].level == level
  {
    if issues != [] {
      OfLevelHasLevel(Front(issues), level);
    }
  }

  lemma {:induction false} NoErrorsIff(issues: seq<Issue>)
    ensures OfLevel(issues, Error) == [] <==> NoErrors(issues)
  {
    if issues != [] {
      NoErrorsIff(Front(issues));
      assert NoErrors(issues) <==> NoErrors(Front(issues)) && Last(issues).level == Warning;
    }
  }

  predicate IsInteger(x: real) { x == x.Floor as real }

  predicate InRange(x: Option<real>, low: real, high: real) {
    x.Some? ==> IsInteger(x.value) && low <= x.value <= high
  }

  // What an accepted flow is.

  function Count(steps: seq<Step>): nat
    decreases steps, 2
  {
    if steps == [] then 0 else CountStep(steps[0]) + Count(steps[1..])
  }

  function CountStep(step: Step): nat
    decreases step, 1
  {
    match step
    case Branch(_, _, _, thenSteps, elseSteps) => 1 + Count(thenSteps) + Count(elseSteps)
    case Loop(_, _, _, _, _, steps, _) => 1 + Count(steps)
    case _ => 1
  }

  function Larger(x: nat, y: nat): nat { if x < y then y else x }

  function Depth(steps: seq<Step>): nat
    decreases steps, 2
  {
    if steps == [] then 0 else Larger(DepthStep(steps[0]), Depth(steps[1..]))
  }

  function DepthStep(step: Step): (d: nat)
    ensures d > 0
    decreases step, 1
  {
    match step
    case Branch(_, _, _, thenSteps, elseSteps) => 1 + Larger(Depth(thenSteps), Depth(elseSteps))
    case Loop(_, _, _, _, _, steps, _) => 1 + Depth(steps)
    case _ => 1
  }

  /** The ids in the order the validator meets them. */
  function Ids(steps: seq<Step>): seq<string>
    decreases steps, 2
  {
    if steps == [] then [] else StepIds(steps[0]) + Ids(steps[1..])
  }

  function StepIds(step: Step): seq<string>
    decreases step, 1
  {
    match step
    case Branch(_, _, _, thenSteps, elseSteps) => [step.id] + (Ids(thenSteps) + Ids(elseSteps))
    case Loop(_, _, _, _, _, steps, _) => [step.id] + Ids(steps)
    case _ => [step.id]
  }

  predicate Distinct<T(==)>(s: seq<T>) {
    forall i, j :: 0 <= i < j < |s| ==> s[i] != s[j]
  }

  predicate StepsOk(checks: LeafChecks, steps: seq<Step>)
    decreases steps, 2
  {
    steps != [] ==> StepOk(checks, steps[0]) && StepsOk(checks, steps[1..])
  }

  predicate StepOk(checks: LeafChecks, step: Step)
    decreases step, 1
  {
    && !Blank(step.name)
    && |step.name| <= MAX_STEP_NAME_LENGTH
    && match step
       case Request(id, _, request, _, _) => NoErrors(checks.request(request, id))
       case Delay(_, _, delayMs) => InRange(Some(delayMs), 0.0, MAX_DELAY_MS)
       case Branch(id, _, condition, thenSteps, elseSteps) =>
         NoErrors(checks.condition(condition, id)) && StepsOk(checks, thenSteps) && StepsOk(checks, elseSteps)
       case Loop(_, _, _, _, _, steps, _) => LoopHeadOk(checks, step) && StepsOk(checks, steps)
  }

  /** A loop has a count, a cap or a condition, each in order. */
  predicate LoopHeadOk(checks: LeafChecks, step: Step)
    requires step.Loop?
  {
    && InRange(step.count, 1.0, MAX_LOOP_ITERATIONS)
    && InRange(step.maxIterations, 1.0, MAX_LOOP_ITERATIONS)
    && (step.guard.Some? ==>
          step.mode in {Some(While), Some(Until)} && NoErrors(checks.condition(step.guard.value, step.id)))
    && (step.guard.None? ==> step.count.Some? || step.maxIterations.Some?)
  }

  predicate Accepted(checks: LeafChecks, flow: Flow, requireSteps: bool) {
    && !Blank(flow.name) && |flow.name| <= MAX_FLOW_NAME_LENGTH
    && (requireSteps ==> flow.steps != [])
    && Count(flow.steps) <= MAX_TOTAL_STEPS
    && Depth(flow.steps) <= MAX_NESTING_DEPTH
    && Distinct(Ids(flow.steps))
    && (forall i :: 0 <= i < |Ids(flow.steps)| ==> !Blank(Ids(flow.steps)[i]))
    && StepsOk(checks, flow.steps)
  }

  // The bookkeeping of seen ids.

  /** Every id is present, new, and given once. */
  predicate AllFresh(ids: seq<string>, seen: set<string>) {
    ids != [] ==> !Blank(ids[0]) && ids[0] !in seen && AllFresh(ids[1..], seen + {ids[0]})
  }

  function Present(ids: seq<string>): set<string> {
    set id | id in ids && !Blank(id)
  }

  lemma PresentConcat(a: seq<string>, b: seq<string>)
    ensures Present(a + b) == Present(a) + Present(b)
  {
  }

  lemma {:induction false} FreshConcat(a: seq<string>, b: seq<string>, seen: set<string>)
    ensures AllFresh(a + b, seen) <==> AllFresh(a, seen) && AllFresh(b, seen + Present(a))
  {
    if a == [] {
      assert a + b == b;
      assert seen + Present(a) == seen;
    } else {
      var first, rest := a[0], a[1..];
      assert (a + b)[0] == first && (a + b)[1..] == rest + b;
      if !Blank(first) && first !in seen {
        FreshConcat(rest, b, seen + {first});
        PresentConcat([first], rest);
        assert [first] + rest == a;
        assert Present([first]) == {first};
        assert seen + {first} + Present(rest) == seen + Present(a);
      }
    }
  }

  lemma ConcatFacts(a: seq<string>, b: seq<string>, seen: set<string>)
    ensures AllFresh(a + b, seen) <==> AllFresh(a, seen) && AllFresh(b, seen + Present(a))
    ensures seen + Present(a + b) == seen + Present(a) + Present(b)
  {
    FreshConcat(a, b, seen);
    PresentConcat(a, b);
  }

  lemma {:induction false} FreshIsDistinct(ids: seq<string>, seen: set<string>)
    ensures AllFresh(ids, seen) <==>
      Distinct(ids) && (forall i :: 0 <= i < |ids| ==> !Blank(ids[i]) && ids[i] !in seen)
  {
    if ids != [] {
      var first, rest := ids[0], ids[1..];
      assert ids == [first] + rest;
      if !Blank(first) && first !in seen {
        FreshIsDistinct(rest, seen + {first});
        assert forall i :: 0 < i < |ids| ==> ids[i] == rest[i - 1];
        assert forall i :: 0 <= i < |rest| ==> rest[i] == ids[i + 1];
      }
    }
  }

  lemma NoErrorsConcat(a: seq<Issue>, b: seq<Issue>)
    ensures NoErrors(a + b) <==> NoErrors(a) && NoErrors(b)
  {
    if NoErrors(a + b) {
      assert forall i :: 0 <= i < |a| ==> (a + b)[i] == a[i];
      assert forall i :: 0 <= i < |b| ==> (a + b)[|a| + i] == b[i];
    }
  }

  // The issues in the order the validator adds them, each function adding to those before.

  predicate ConditionNeedsResponse(condition: Condition) {
    condition.source in {"status", "header", "bodyJsonPath"}
  }

  function Added(issues: seq<Issue>, when: bool, level: Level, problem: Problem, stepId: Option<string>): seq<Issue> {
    if when then issues + [Issue(level, problem, stepId)] else issues
  }

  function WithHead(issues: seq<Issue>, step: Step, seen: set<string>): seq<Issue> {
    var id := Some(step.id);
    var ids := if Blank(step.id) then Added(issues, true, Error, IdRequired, None)
               else Added(issues, step.id in seen, Error, IdNotUnique, id);
    var names := Added(ids, Blank(step.name), Error, NameRequired, id);
    Added(names, |step.name| > MAX_STEP_NAME_LENGTH, Error, NameTooLong, id)
  }

  function WithRange(issues: seq<Issue>, x: Option<real>, low: real, high: real, problem: Problem, id: string)
    : seq<Issue>
  {
    Added(issues, !InRange(x, low, high), Error, problem, Some(id))
  }

  function WithCondition(issues: seq<Issue>, checks: LeafChecks, condition: Condition, id: string, hasPrevious: bool)
    : seq<Issue>
  {
    Added(issues + checks.condition(condition, id), ConditionNeedsResponse(condition) && !hasPrevious,
          Warning, NeedsResponse, Some(id))
  }

  function WithBounds(issues: seq<Issue>, step: Step): seq<Issue>
    requires step.Loop?
  {
    var (id, count, max) := (Some(step.id), step.count, step.maxIterations);
    var empty := Added(issues, step.steps == [], Warning, EmptyLoop, id);
    var counts := WithRange(empty, count, 1.0, MAX_LOOP_ITERATIONS, CountOutOfRange, step.id);
    var maxes := WithRange(counts, max, 1.0, MAX_LOOP_ITERATIONS, MaxIterationsOutOfRange, step.id);
    Added(maxes, count.Some? && max.Some? && count.value > max.value, Warning, CountAboveMaxIterations, id)
  }

  function WithGuard(issues: seq<Issue>, checks: LeafChecks, step: Step, hasPrevious: bool): seq<Issue>
    requires step.Loop?
  {
    var id := Some(step.id);
    match step.guard
    case Some(guard) =>
      var modes := Added(issues, step.mode != Some(While) && step.mode != Some(Until), Error, BadConditionMode, id);
      Added(WithCondition(modes, checks, guard, step.id, hasPrevious),
            ConditionNeedsResponse(guard) && !hasPrevious, Warning, NeedsResponse, id)
    case None => Added(issues, step.count.None? && step.maxIterations.None?, Error, NoCap, id)
  }

  /** What is reported about a step of its type, without what is nested in it. */
  function WithOwn(issues: seq<Issue>, checks: LeafChecks, step: Step, hasPrevious: bool): seq<Issue> {
    match step
    case Request(id, _, request, _, _) => issues + checks.request(request, id)
    case Delay(id, _, delayMs) =>
      Added(WithRange(issues, Some(delayMs), 0.0, MAX_DELAY_MS, DelayOutOfRange, id),
            IsInteger(delayMs) && delayMs > LONG_DELAY_MS, Warning, LongDelay, Some(id))
    case Branch(id, _, condition, thenSteps, elseSteps) =>
      Added(WithCondition(issues, checks, condition, id, hasPrevious),
            thenSteps == [] && elseSteps == [], Warning, EmptyBranches, Some(id))
    case Loop(_, _, _, _, _, _, _) => WithGuard(WithBounds(issues, step), checks, step, hasPrevious)
  }

  /** The fields the walk updates. */
  datatype Progress = Progress(issues: seq<Issue>, seen: set<string>, total: nat, deepest: nat)

  function AfterHead(p: Progress, step: Step, depth: nat): Progress {
    Progress(WithHead(p.issues, step, p.seen), p.seen + Present([step.id]), p.total + 1, Larger(p.deepest, depth))
  }

  function AfterOwn(p: Progress, checks: LeafChecks, step: Step, hasPrevious: bool): Progress {
    p.(issues := WithOwn(p.issues, checks, step, hasPrevious))
  }

  function AfterNested(p: Progress, checks: LeafChecks, step: Step, depth: nat, hasPrevious: bool): Progress
    decreases step, 0
  {
    match step
    case Branch(_, _, _, thenSteps, elseSteps) =>
      AfterSteps(AfterSteps(p, checks, thenSteps, depth + 1, hasPrevious), checks, elseSteps, depth + 1, hasPrevious)
    case Loop(_, _, _, _, _, steps, _) => AfterSteps(p, checks, steps, depth + 1, hasPrevious)
    case _ => p
  }

  function AfterStep(p: Progress, checks: LeafChecks, step: Step, depth: nat, hasPrevious: bool): Progress
    decreases step, 1
  {
    AfterNested(AfterOwn(AfterHead(p, step, depth), checks, step, hasPrevious), checks, step, depth, hasPrevious)
  }

  function AfterSteps(p: Progress, checks: LeafChecks, steps: seq<Step>, depth: nat, hasPrevious: bool): Progress
    decreases steps, 2
  {
    if steps == [] then p
    else
      AfterSteps(AfterStep(p, checks, steps[0], depth, hasPrevious), checks, steps[1..], depth,
                 hasPrevious || steps[0].Request?)
  }

  /** The issues about the flow before its steps are looked at. */
  function FlowHeadIssues(flow: Flow, requireSteps: bool): seq<Issue> {
    var name := Added([], Blank(flow.name), Error, FlowNameRequired, None);
    var long := Added(name, |flow.name| > MAX_FLOW_NAME_LENGTH, Error, FlowNameTooLong, None);
    Added(long, flow.steps == [], if requireSteps then Error else Warning, NoSteps, None)
  }

  function FlowIssues(checks: LeafChecks, flow: Flow, requireSteps: bool): seq<Issue> {
    var after := AfterSteps(Progress(FlowHeadIssues(flow, requireSteps), {}, 0, 0), checks, flow.steps, 1, false);
    var many := Added(after.issues, after.total > MAX_TOTAL_STEPS, Error, TooManySteps, None);
    Added(many, after.deepest > MAX_NESTING_DEPTH, Error, TooDeep, None)
  }

  // What a walk adds up to.

  predicate Grows(p: Progress, after: Progress, count: nat, level: nat, ids: seq<string>) {
    && after.total == p.total + count
    && after.deepest == Larger(p.deepest, level)
    && after.seen == p.seen + Present(ids)
  }

  lemma GrowsTwice(
    p: Progress, q: Progress, r: Progress, m: nat, x: nat, a: seq<string>, n: nat, y: nat, b: seq<string>
  )
    requires Grows(p, q, m, x, a) && Grows(q, r, n, y, b)
    ensures Grows(p, r, m + n, Larger(x, y), a + b)
  {
    PresentConcat(a, b);
  }

  lemma {:induction false} StepsAddUp(p: Progress, checks: LeafChecks, steps: seq<Step>, depth: nat, hasPrevious: bool)
    requires 0 < depth <= p.deepest + 1
    ensures Grows(p, AfterSteps(p, checks, steps, depth, hasPrevious), Count(steps), depth - 1 + Depth(steps),
                  Ids(steps))
    decreases steps, 2
  {
    if steps != [] {
      var q, more := AfterStep(p, checks, steps[0], depth, hasPrevious), hasPrevious || steps[0].Request?;
      StepAddsUp(p, checks, steps[0], depth, hasPrevious);
      StepsAddUp(q, checks, steps[1..], depth, more);
      GrowsTwice(p, q, AfterSteps(q, checks, steps[1..], depth, more),
                 CountStep(steps[0]), depth - 1 + DepthStep(steps[0]), StepIds(steps[0]),
                 Count(steps[1..]), depth - 1 + Depth(steps[1..]), Ids(steps[1..]));
    }
  }

  lemma {:induction false} StepAddsUp(p: Progress, checks: LeafChecks, step: Step, depth: nat, hasPrevious: bool)
    requires 0 < depth <= p.deepest + 1
    ensures Grows(p, AfterStep(p, checks, step, depth, hasPrevious), CountStep(step), depth - 1 + DepthStep(step),
                  StepIds(step))
    ensures AfterStep(p, checks, step, depth, hasPrevious).deepest >= depth
    decreases step, 1
  {
    var own := AfterOwn(AfterHead(p, step, depth), checks, step, hasPrevious);
    NestedAddUp(own, checks, step, depth, hasPrevious);
    StepParts(step);
    GrowsTwice(p, own, AfterNested(own, checks, step, depth, hasPrevious), 1, depth, [step.id],
               NestedCount(step), depth + NestedDepth(step), NestedIds(step));
  }

  lemma {:induction false} NestedAddUp(p: Progress, checks: LeafChecks, step: Step, depth: nat, hasPrevious: bool)
    requires 0 < depth <= p.deepest
    ensures Grows(p, AfterNested(p, checks, step, depth, hasPrevious), NestedCount(step), depth + NestedDepth(step),
                  NestedIds(step))
    decreases step, 0
  {
    match step
    case Branch(_, _, _, thenSteps, elseSteps) =>
      var q := AfterSteps(p, checks, thenSteps, depth + 1, hasPrevious);
      StepsAddUp(p, checks, thenSteps, depth + 1, hasPrevious);
      StepsAddUp(q, checks, elseSteps, depth + 1, hasPrevious);
      GrowsTwice(p, q, AfterSteps(q, checks, elseSteps, depth + 1, hasPrevious),
                 Count(thenSteps), depth + Depth(thenSteps), Ids(thenSteps),
                 Count(elseSteps), depth + Depth(elseSteps), Ids(elseSteps));
    case Loop(_, _, _, _, _, steps, _) =>
      StepsAddUp(p, checks, steps, depth + 1, hasPrevious);
    case _ =>
  }

  function NestedCount(step: Step): nat {
    match step
    case Branch(_, _, _, thenSteps, elseSteps) => Count(thenSteps) + Count(elseSteps)
    case Loop(_, _, _, _, _, steps, _) => Count(steps)
    case _ => 0
  }

  function NestedDepth(step: Step): nat {
    match step
    case Branch(_, _, _, thenSteps, elseSteps) => Larger(Depth(thenSteps), Depth(elseSteps))
    case Loop(_, _, _, _, _, steps, _) => Depth(steps)
    case _ => 0
  }

  lemma StepParts(step: Step)
    ensures CountStep(step) == 1 + NestedCount(step) && DepthStep(step) == 1 + NestedDepth(step)
    ensures StepIds(step) == [step.id] + NestedIds(step)
  {
  }

  // No errors exactly if accepted.

  lemma AddedIff(issues: seq<Issue>, when: bool, level: Level, problem: Problem, stepId: Option<string>)
    ensures NoErrors(Added(issues, when, level, problem, stepId)) <==> NoErrors(issues) && (!when || level == Warning)
  {
    var issue := Issue(level, problem, stepId);
    assert [issue][0] == issue;
    NoErrorsConcat(issues, [issue]);
  }

  lemma HeadIff(issues: seq<Issue>, step: Step, seen: set<string>)
    ensures NoErrors(WithHead(issues, step, seen)) <==>
      NoErrors(issues) && AllFresh([step.id], seen) && !Blank(step.name) && |step.name| <= MAX_STEP_NAME_LENGTH
  {
    var id := Some(step.id);
    var ids := if Blank(step.id) then Added(issues, true, Error, IdRequired, None)
               else Added(issues, step.id in seen, Error, IdNotUnique, id);
    AddedIff(issues, true, Error, IdRequired, None);
    AddedIff(issues, step.id in seen, Error, IdNotUnique, id);
    AddedIff(ids, Blank(step.name), Error, NameRequired, id);
    AddedIff(Added(ids, Blank(step.name), Error, NameRequired, id),
             |step.name| > MAX_STEP_NAME_LENGTH, Error, NameTooLong, id);
    assert [step.id][1..] == [];
  }

  lemma RangeIff(issues: seq<Issue>, x: Option<real>, low: real, high: real, problem: Problem, id: string)
    ensures NoErrors(WithRange(issues, x, low, high, problem, id)) <==> NoErrors(issues) && InRange(x, low, high)
  {
    AddedIff(issues, !InRange(x, low, high), Error, problem, Some(id));
  }

  lemma ConditionIff(issues: seq<Issue>, checks: LeafChecks, condition: Condition, id: string, hasPrevious: bool)
    ensures NoErrors(WithCondition(issues, checks, condition, id, hasPrevious)) <==>
      NoErrors(issues) && NoErrors(checks.condition(condition, id))
  {
    NoErrorsConcat(issues, checks.condition(condition, id));
    AddedIff(issues + checks.condition(condition, id), ConditionNeedsResponse(condition) && !hasPrevious,
             Warning, NeedsResponse, Some(id));
  }

  lemma BoundsIff(issues: seq<Issue>, step: Step)
    requires step.Loop?
    ensures NoErrors(WithBounds(issues, step)) <==>
      && NoErrors(issues)
      && InRange(step.count, 1.0, MAX_LOOP_ITERATIONS) && InRange(step.maxIterations, 1.0, MAX_LOOP_ITERATIONS)
  {
    var (id, count, max) := (Some(step.id), step.count, step.maxIterations);
    var empty := Added(issues, step.steps == [], Warning, EmptyLoop, id);
    var counts := WithRange(empty, count, 1.0, MAX_LOOP_ITERATIONS, CountOutOfRange, step.id);
    var maxes := WithRange(counts, max, 1.0, MAX_LOOP_ITERATIONS, MaxIterationsOutOfRange, step.id);
    AddedIff(issues, step.steps == [], Warning, EmptyLoop, id);
    RangeIff(empty, count, 1.0, MAX_LOOP_ITERATIONS, CountOutOfRange, step.id);
    RangeIff(counts, max, 1.0, MAX_LOOP_ITERATIONS, MaxIterationsOutOfRange, step.id);
    AddedIff(maxes, count.Some? && max.Some? && count.value > max.value, Warning, CountAboveMaxIterations, id);
  }

  predicate GuardOk(checks: LeafChecks, step: Step)
    requires step.Loop?
  {
    match step.guard
    case Some(guard) => step.mode in {Some(While), Some(Until)} && NoErrors(checks.condition(guard, step.id))
    case None => step.count.Some? || step.maxIterations.Some?
  }

  lemma GuardIff(issues: seq<Issue>, checks: LeafChecks, step: Step, hasPrevious: bool)
    requires step.Loop?
    ensures NoErrors(WithGuard(issues, checks, step, hasPrevious)) <==> NoErrors(issues) && GuardOk(checks, step)
  {
    var id := Some(step.id);
    match step.guard
    case Some(guard) =>
      var modes := Added(issues, step.mode != Some(While) && step.mode != Some(Until), Error, BadConditionMode, id);
      AddedIff(issues, step.mode != Some(While) && step.mode != Some(Until), Error, BadConditionMode, id);
      ConditionIff(modes, checks, guard, step.id, hasPrevious);
      AddedIff(WithCondition(modes, checks, guard, step.id, hasPrevious),
               ConditionNeedsResponse(guard) && !hasPrevious, Warning, NeedsResponse, id);
    case None =>
      AddedIff(issues, step.count.None? && step.maxIterations.None?, Error, NoCap, id);
  }

  predicate OwnOk(checks: LeafChecks, step: Step) {
    match step
    case Request(id, _, request, _, _) => NoErrors(checks.request(request, id))
    case Delay(_, _, delayMs) => InRange(Some(delayMs), 0.0, MAX_DELAY_MS)
    case Branch(id, _, condition, _, _) => NoErrors(checks.condition(condition, id))
    case Loop(_, _, _, _, _, _, _) => LoopHeadOk(checks, step)
  }

  lemma OwnIff(issues: seq<Issue>, checks: LeafChecks, step: Step, hasPrevious: bool)
    ensures NoErrors(WithOwn(issues, checks, step, hasPrevious)) <==> NoErrors(issues) && OwnOk(checks, step)
  {
    match step
    case Request(id, _, request, _, _) =>
      NoErrorsConcat(issues, checks.request(request, id));
    case Delay(id, _, delayMs) =>
      RangeIff(issues, Some(delayMs), 0.0, MAX_DELAY_MS, DelayOutOfRange, id);
      AddedIff(WithRange(issues, Some(delayMs), 0.0, MAX_DELAY_MS, DelayOutOfRange, id),
               IsInteger(delayMs) && delayMs > LONG_DELAY_MS, Warning, LongDelay, Some(id));
    case Branch(id, _, condition, thenSteps, elseSteps) =>
      ConditionIff(issues, checks, condition, id, hasPrevious);
      AddedIff(WithCondition(issues, checks, condition, id, hasPrevious),
               thenSteps == [] && elseSteps == [], Warning, EmptyBranches, Some(id));
    case Loop(_, _, _, _, _, _, _) =>
      BoundsIff(issues, step);
      GuardIff(WithBounds(issues, step), checks, step, hasPrevious);
  }

  function NestedIds(step: Step): seq<string>
    decreases step, 0
  {
    match step
    case Branch(_, _, _, thenSteps, elseSteps) => Ids(thenSteps) + Ids(elseSteps)
    case Loop(_, _, _, _, _, steps, _) => Ids(steps)
    case _ => []
  }

  predicate NestedOk(checks: LeafChecks, step: Step) {
    match step
    case Branch(_, _, _, thenSteps, elseSteps) => StepsOk(checks, thenSteps) && StepsOk(checks, elseSteps)
    case Loop(_, _, _, _, _, steps, _) => StepsOk(checks, steps)
    case _ => true
  }

  lemma {:induction false} NestedIff(p: Progress, checks: LeafChecks, step: Step, depth: nat, hasPrevious: bool)
    requires 0 < depth <= p.deepest
    ensures NoErrors(AfterNested(p, checks, step, depth, hasPrevious).issues) <==>
      NoErrors(p.issues) && NestedOk(checks, step) && AllFresh(NestedIds(step), p.seen)
    decreases step, 0
  {
    match step
    case Branch(_, _, _, thenSteps, elseSteps) =>
      StepsIff(p, checks, thenSteps, depth + 1, hasPrevious);
      StepsAddUp(p, checks, thenSteps, depth + 1, hasPrevious);
      StepsIff(AfterSteps(p, checks, thenSteps, depth + 1, hasPrevious), checks, elseSteps, depth + 1, hasPrevious);
      FreshConcat(Ids(thenSteps), Ids(elseSteps), p.seen);
    case Loop(_, _, _, _, _, steps, _) =>
      StepsIff(p, checks, steps, depth + 1, hasPrevious);
    case _ =>
  }

  lemma {:induction false} StepIff(p: Progress, checks: LeafChecks, step: Step, depth: nat, hasPrevious: bool)
    requires 0 < depth <= p.deepest + 1
    ensures NoErrors(AfterStep(p, checks, step, depth, hasPrevious).issues) <==>
      NoErrors(p.issues) && StepOk(checks, step) && AllFresh(StepIds(step), p.seen)
    decreases step, 1
  {
    var head := AfterHead(p, step, depth);
    HeadIff(p.issues, step, p.seen);
    OwnIff(head.issues, checks, step, hasPrevious);
    NestedIff(AfterOwn(head, checks, step, hasPrevious), checks, step, depth, hasPrevious);
    FreshConcat([step.id], NestedIds(step), p.seen);
    StepParts(step);
    StepOkIff(checks, step);
  }

  lemma StepOkIff(checks: LeafChecks, step: Step)
    ensures StepOk(checks, step) <==>
      !Blank(step.name) && |step.name| <= MAX_STEP_NAME_LENGTH && OwnOk(checks, step) && NestedOk(checks, step)
  {
  }

  lemma {:induction false} StepsIff(p: Progress, checks: LeafChecks, steps: seq<Step>, depth: nat, hasPrevious: bool)
    requires 0 < depth <= p.deepest + 1
    ensures NoErrors(AfterSteps(p, checks, steps, depth, hasPrevious).issues) <==>
      NoErrors(p.issues) && StepsOk(checks, steps) && AllFresh(Ids(steps), p.seen)
    decreases steps, 2
  {
    if steps != [] {
      var first, ids := steps[0], StepIds(steps[0]);
      StepIff(p, checks, first, depth, hasPrevious);
      StepAddsUp(p, checks, first, depth, hasPrevious);
      StepsIff(AfterStep(p, checks, first, depth, hasPrevious), checks, steps[1..], depth,
               hasPrevious || first.Request?);
      FreshConcat(ids, Ids(steps[1..]), p.seen);
    }
  }

  lemma FlowHeadIff(flow: Flow, requireSteps: bool)
    ensures NoErrors(FlowHeadIssues(flow, requireSteps)) <==>
      !Blank(flow.name) && |flow.name| <= MAX_FLOW_NAME_LENGTH && (requireSteps ==> flow.steps != [])
  {
    var name := Added([], Blank(flow.name), Error, FlowNameRequired, None);
    AddedIff([], Blank(flow.name), Error, FlowNameRequired, None);
    AddedIff(name, |flow.name| > MAX_FLOW_NAME_LENGTH, Error, FlowNameTooLong, None);
    AddedIff(Added(name, |flow.name| > MAX_FLOW_NAME_LENGTH, Error, FlowNameTooLong, None),
             flow.steps == [], if requireSteps then Error else Warning, NoSteps, None);
  }

  lemma FlowIff(checks: LeafChecks, flow: Flow, requireSteps: bool)
    ensures NoErrors(FlowIssues(checks, flow, requireSteps)) <==> Accepted(checks, flow, requireSteps)
  {
    var start := Progress(FlowHeadIssues(flow, requireSteps), {}, 0, 0);
    var after := AfterSteps(start, checks, flow.steps, 1, false);
    FlowHeadIff(flow, requireSteps);
    StepsIff(start, checks, flow.steps, 1, false);
    StepsAddUp(start, checks, flow.steps, 1, false);
    AddedIff(after.issues, after.total > MAX_TOTAL_STEPS, Error, TooManySteps, None);
    AddedIff(Added(after.issues, after.total > MAX_TOTAL_STEPS, Error, TooManySteps, None),
             after.deepest > MAX_NESTING_DEPTH, Error, TooDeep, None);
    FreshIsDistinct(Ids(flow.steps), {});
  }

  lemma FromHere<T>(s: seq<T>, i: nat)
    requires i < |s|
    ensures s[i..] != [] && s[i..][0] == s[i] && s[i..][1..] == s[i + 1..]
  {
  }

  datatype Verdict = Verdict(valid: bool, errors: seq<Issue>, warnings: seq<Issue>)

  class FlowValidator {
    const checks: LeafChecks
    var issues: seq<Issue>
    var seenIds: set<string>
    var totalSteps: nat
    var maxDepth: nat

    constructor (checks: LeafChecks)
      ensures this.checks == checks && issues == [] && seenIds == {} && totalSteps == 0 && maxDepth == 0
    {
      this.checks := checks;
      issues, seenIds, totalSteps, maxDepth := [], {}, 0, 0;
    }

    method Add(when: bool, level: Level, problem: Problem, stepId: Option<string>)
      modifies this`issues
      ensures issues == Added(old(issues), when, level, problem, stepId)
    {
      if when {
        issues := issues + [Issue(level, problem, stepId)];
      }
    }

    method CheckRange(x: real, low: real, high: real, problem: Problem, stepId: string)
      modifies this`issues
      ensures issues == WithRange(old(issues), Some(x), low, high, problem, stepId)
    {
      if x != x.Floor as real {
        Add(true, Error, problem, Some(stepId));
      } else {
        Add(x < low || x > high, Error, problem, Some(stepId));
      }
    }

    method ValidateFlow(flow: Flow, requireSteps: bool) returns (verdict: Verdict)
      requires issues == [] && seenIds == {} && totalSteps == 0 && maxDepth == 0
      modifies this
      ensures issues == FlowIssues(checks, flow, requireSteps)
      ensures verdict.errors == OfLevel(issues, Error) && verdict.warnings == OfLevel(issues, Warning)
      ensures verdict.valid <==> Accepted(checks, flow, requireSteps)
      ensures multiset(verdict.errors) + multiset(verdict.warnings) == multiset(issues)
      ensures verdict.valid <==> verdict.errors == []
      ensures (forall issue <- verdict.errors :: issue.level == Error) && NoErrors(verdict.warnings)
    {
      Walk(flow, requireSteps);
      FlowIff(checks, flow, requireSteps);
      var errors, warnings := Partition();
      verdict := Verdict(errors == [], errors, warnings);
    }

    /** All issues, before they are split by level. */
    method Walk(flow: Flow, requireSteps: bool)
      requires issues == [] && seenIds == {} && totalSteps == 0 && maxDepth == 0
      modifies this
      ensures issues == FlowIssues(checks, flow, requireSteps)
    {
      Add(Blank(flow.name), Error, FlowNameRequired, None);
      Add(|flow.name| > MAX_FLOW_NAME_LENGTH, Error, FlowNameTooLong, None);
      Add(flow.steps == [], if requireSteps then Error else Warning, NoSteps, None);
      ValidateSteps(flow.steps, 1, false);
      Add(totalSteps > MAX_TOTAL_STEPS, Error, TooManySteps, None);
      Add(maxDepth > MAX_NESTING_DEPTH, Error, TooDeep, None);
    }

    method Partition() returns (errors: seq<Issue>, warnings: seq<Issue>)
      ensures errors == OfLevel(issues, Error) && warnings == OfLevel(issues, Warning)
      ensures multiset(errors) + multiset(warnings) == multiset(issues)
      ensures (forall issue <- errors :: issue.level == Error) && NoErrors(warnings)
      ensures errors == [] <==> NoErrors(issues)
    {
      errors, warnings := [], [];
      var i := 0;
      while i < |issues|
        invariant 0 <= i <= |issues|
        invariant errors == OfLevel(issues[..i], Error) && warnings == OfLevel(issues[..i], Warning)
      {
        OneMoreIssue(issues, i);
        if issues[i].level == Error {
          errors := errors + [issues[i]];
        } else {
          warnings := warnings + [issues[i]];
        }
        i := i + 1;
      }
      assert issues[..i] == issues;
      LevelsAreAll(issues);
      OfLevelHasLevel(issues, Error);
      OfLevelHasLevel(issues, Warning);
      NoErrorsIff(issues);
    }

    ghost function Now(): Progress
      reads this
    {
      Progress(issues, seenIds, totalSteps, maxDepth)
    }

    method ValidateSteps(steps: seq<Step>, depth: nat, hasPrevious: bool)
      modifies this
      ensures Now() == AfterSteps(old(Now()), checks, steps, depth, hasPrevious)
      decreases steps, 2
    {
      var hasPreviousRequest, i := hasPrevious, 0;
      assert steps[0..] == steps;
      while i < |steps|
        invariant 0 <= i <= |steps|
        invariant AfterSteps(Now(), checks, steps[i..], depth, hasPreviousRequest)
               == AfterSteps(old(Now()), checks, steps, depth, hasPrevious)
      {
        FromHere(steps, i);
        ValidateStep(steps[i], depth, hasPreviousRequest);
        if steps[i].Request? {
          hasPreviousRequest := true;
        }
        i := i + 1;
      }
    }

    method ValidateStep(step: Step, depth: nat, hasPrevious: bool)
      modifies this
      ensures Now() == AfterStep(old(Now()), checks, step, depth, hasPrevious)
      decreases step, 1
    {
      ValidateStepHead(step, depth);
      match step {
        case Request(id, _, request, _, _) =>
          issues := issues + checks.request(request, id);
        case Delay(id, _, delayMs) =>
          CheckRange(delayMs, 0.0, MAX_DELAY_MS, DelayOutOfRange, id);
          Add(IsInteger(delayMs) && delayMs > LONG_DELAY_MS, Warning, LongDelay, Some(id));
        case Branch(_, _, _, _, _) =>
          ValidateConditionStep(step, depth, hasPrevious);
        case Loop(_, _, _, _, _, _, _) =>
          ValidateLoopStep(step, depth, hasPrevious);
      }
    }

    method ValidateConditionStep(step: Step, depth: nat, hasPrevious: bool)
      requires step.Branch?
      modifies this
      ensures Now() == AfterNested(AfterOwn(old(Now()), checks, step, hasPrevious), checks, step, depth, hasPrevious)
      decreases step, 0
    {
      ValidateCondition(step.condition, step.id, hasPrevious);
      Add(step.thenSteps == [] && step.elseSteps == [], Warning, EmptyBranches, Some(step.id));
      ValidateSteps(step.thenSteps, depth + 1, hasPrevious);
      ValidateSteps(step.elseSteps, depth + 1, hasPrevious);
    }

    method ValidateLoopStep(step: Step, depth: nat, hasPrevious: bool)
      requires step.Loop?
      modifies this
      ensures Now() == AfterNested(AfterOwn(old(Now()), checks, step, hasPrevious), checks, step, depth, hasPrevious)
      decreases step, 0
    {
      ValidateLoopHead(step, hasPrevious);
      ValidateSteps(step.steps, depth + 1, hasPrevious);
    }

    /** The checks every step gets, before those of its type. */
    method ValidateStepHead(step: Step, depth: nat)
      modifies this
      ensures Now() == AfterHead(old(Now()), step, depth)
    {
      totalSteps := totalSteps + 1;
      maxDepth := Larger(maxDepth, depth);
      assert Present([step.id]) == if Blank(step.id) then {} else {step.id};
      if Blank(step.id) {
        Add(true, Error, IdRequired, None);
      } else if step.id in seenIds {
        Add(true, Error, IdNotUnique, Some(step.id));
      } else {
        seenIds := seenIds + {step.id};
      }
      Add(Blank(step.name), Error, NameRequired, Some(step.id));
      Add(|step.name| > MAX_STEP_NAME_LENGTH, Error, NameTooLong, Some(step.id));
    }

    method ValidateCondition(condition: Condition, stepId: string, hasPrevious: bool)
      modifies this`issues
      ensures issues == WithCondition(old(issues), checks, condition, stepId, hasPrevious)
    {
      issues := issues + checks.condition(condition, stepId);
      Add(ConditionNeedsResponse(condition) && !hasPrevious, Warning, NeedsResponse, Some(stepId));
    }

    method ValidateLoopHead(step: Step, hasPrevious: bool)
      requires step.Loop?
      modifies this`issues
      ensures issues == WithGuard(WithBounds(old(issues), step), checks, step, hasPrevious)
    {
      var id := Some(step.id);
      Add(step.steps == [], Warning, EmptyLoop, id);
      if step.count.Some? {
        CheckRange(step.count.value, 1.0, MAX_LOOP_ITERATIONS, CountOutOfRange, step.id);
      }
      if step.maxIterations.Some? {
        CheckRange(step.maxIterations.value, 1.0, MAX_LOOP_ITERATIONS, MaxIterationsOutOfRange, step.id);
      }
      Add(step.count.Some? && step.maxIterations.Some? && step.count.value > step.maxIterations.value,
          Warning, CountAboveMaxIterations, id);
      if step.guard.Some? {
        Add(step.mode != Some(While) && step.mode != Some(Until), Error, BadConditionMode, id);
        ValidateCondition(step.guard.value, step.id, hasPrevious);
        Add(ConditionNeedsResponse(step.guard.value) && !hasPrevious, Warning, NeedsResponse, id);
      } else {
        Add(step.count.None? && step.maxIterations.None?, Error, NoCap, id);
      }
    }
  }
}
