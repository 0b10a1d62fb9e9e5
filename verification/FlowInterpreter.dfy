/**
 The flow engine: request, delay, condition and loop steps run over shared variables and an
 append-only result list. `FlowRunner` is the engine as the source writes it, with fields updated
 in place; the functions `RunStep`, `RunSteps` and `RunLoop` are the state it is proved to compute.
 */
module FlowInterpreter {
  import opened Options
  import opened Decimal
  import opened Reals

  datatype Condition = Condition(source: string, expression: string, matcher: string, expected: string)

  datatype LoopMode = While | Until | UnknownMode

  /** The request document is opaque here: only the executor, the assertions and the extraction rules read it. */
  datatype RequestConfig = RequestConfig(document: string)

  /** A missing `elseSteps` is the empty list: the source never tells them apart. */
  datatype Step =
    | Request(id: string, name: string, request: RequestConfig, continueOnFailure: bool, retryCount: Option<int>)
    | Delay(id: string, name: string, delayMs: real)
    | Branch(id: string, name: string, condition: Condition, thenSteps: seq<Step>, elseSteps: seq<Step>)
    | Loop(id: string, name: string, count: Option<real>, guard: Option<Condition>, mode: Option<LoopMode>,
           steps: seq<Step>, maxIterations: Option<real>)

  datatype Status = Passed | Failed | Cancelled

  datatype Response = Response(error: string, document: string)

  datatype StepResult = StepResult(stepId: string, status: Status, response: Option<Response>)

  /** One call of `execute`: an answer, or a rejection or timeout. */
  datatype Attempt = Answered(response: Response) | Rejected

  /** Everything outside the engine. The n-th call of `execute` in a run may answer differently from every other. */
  datatype World = World(
    execute: (RequestConfig, map<string, string>, nat) -> Attempt,
    assertionsPass: (Response, RequestConfig) -> bool,
    extract: (Response, RequestConfig) -> map<string, string>,
    holds: (Condition, map<string, string>, Option<Response>) -> bool)

  datatype State = State(variables: map<string, string>, results: seq<StepResult>, calls: nat)

  function Start(calls: nat): State { State(map[], [], calls) }

  function Push(s: State, r: StepResult): State {
    s.(results := s.results + [r])
  }

  function LastResponse(s: State): Option<Response> {
    if s.results == [] then None else s.results[|s.results| - 1].response
  }

  function LastFailed(s: State): bool {
    s.results != [] && s.results[|s.results| - 1].status == Failed
  }

  /** `execute` repeated until it answers, at most `retries` further times, and the number of calls made by then. */
  function ExecuteWithRetry(w: World, request: RequestConfig, variables: map<string, string>, call: nat, retries: nat)
    : (Option<Response>, nat)
    decreases retries
  {
    match w.execute(request, variables, call)
    case Answered(response) => (Some(response), call + 1)
    case Rejected =>
      if retries == 0 then (None, call + 1) else ExecuteWithRetry(w, request, variables, call + 1, retries - 1)
  }

  /** Every call before the last is rejected; the last is the first answer, or there are no retries left. */
  lemma {:induction false} RetriesUntilAnswered(
    w: World, request: RequestConfig, variables: map<string, string>, call: nat, retries: nat
  )
    ensures var (outcome, calls) := ExecuteWithRetry(w, request, variables, call, retries);
      && call < calls <= call + retries + 1
      && (forall n :: call <= n < calls - 1 ==> w.execute(request, variables, n).Rejected?)
      && match w.execute(request, variables, calls - 1)
         case Answered(response) => outcome == Some(response)
         case Rejected => outcome == None && calls == call + retries + 1
    decreases retries
  {
    if w.execute(request, variables, call).Rejected? && retries > 0 {
      RetriesUntilAnswered(w, request, variables, call + 1, retries - 1);
    }
  }

  function Retries(step: Step): nat
    requires step.Request?
  {
    match step.retryCount
    case Some(n) => if n > 0 then n else 0
    case None => 0
  }

  function RunRequest(w: World, step: Step, s: State): State
    requires step.Request?
  {
    var (outcome, calls) := ExecuteWithRetry(w, step.request, s.variables, s.calls, Retries(step));
    match outcome
    case Some(response) =>
      var status := if response.error != "" || !w.assertionsPass(response, step.request) then Failed else Passed;
      Push(State(s.variables + w.extract(response, step.request), s.results, calls),
           StepResult(step.id, status, Some(response)))
    case None =>
      Push(s.(calls := calls), StepResult(step.id, Failed, None))
  }

  /** `loopMaxIterations`. */
  function LoopMaxIterations(count: Option<real>, maxIterations: Option<real>): real {
    var safeMax := Max(0.0, maxIterations.GetOr(1000.0));
    match count
    case None => safeMax
    case Some(n) => Min(Max(0.0, n), safeMax)
  }

  /** How often the counter of a loop step can pass its test. */
  function Cap(step: Step): nat
    requires step.Loop?
  {
    var c := Ceil(LoopMaxIterations(step.count, step.maxIterations));
    if c < 0 then 0 else c
  }

  /** `shouldRunLoopIteration`. */
  predicate ShouldIterate(w: World, step: Step, s: State)
    requires step.Loop?
  {
    match step.guard
    case None => true
    case Some(condition) =>
      var matched := w.holds(condition, s.variables, LastResponse(s));
      if step.mode == Some(Until) then !matched else matched
  }

  /** The test `stepsEffect` makes after a step: should the rest of this list be skipped? */
  predicate Cuts(step: Step, after: State) {
    LastFailed(after) && step.Request? && !step.continueOnFailure
  }

  function Mark(s: State, index: nat): State {
    s.(variables := s.variables["$loop.iteration" := NatToString(index)])
  }

  function RunSteps(w: World, steps: seq<Step>, s: State): State
    decreases steps, 2
  {
    if steps == [] then s
    else
      var after := RunStep(w, steps[0], s);
      if Cuts(steps[0], after) then after else RunSteps(w, steps[1..], after)
  }

  function RunStep(w: World, step: Step, s: State): State
    decreases step, 1, 0
  {
    match step
    case Request(_, _, _, _, _) => RunRequest(w, step, s)
    case Delay(_, _, _) => Push(s, StepResult(step.id, Passed, None))
    case Branch(_, _, _, thenSteps, elseSteps) =>
      var pushed := Push(s, StepResult(step.id, Passed, None));
      if w.holds(step.condition, s.variables, LastResponse(s)) then RunSteps(w, thenSteps, pushed)
      else RunSteps(w, elseSteps, pushed)
    case Loop(_, _, _, _, _, _, _) => RunLoop(w, step, 0, s)
  }

  function RunLoop(w: World, step: Step, index: nat, s: State): State
    requires step.Loop?
    decreases step, 0, if index < Cap(step) then Cap(step) - index else 0
  {
    if index < Cap(step) && ShouldIterate(w, step, s) then
      RunLoop(w, step, index + 1, RunSteps(w, step.steps, Mark(s, index)))
    else
      Push(s, StepResult(step.id, Passed, None))
  }

  /** The counter test of the loop, over the reals, in terms of the whole number `Cap`. */
  lemma {:induction false} CapIsLoopTest(step: Step, index: nat)
    requires step.Loop?
    ensures index as real < LoopMaxIterations(step.count, step.maxIterations) <==> index < Cap(step)
  {
    var m := LoopMaxIterations(step.count, step.maxIterations);
    assert (-m).Floor as real <= -m < ((-m).Floor + 1) as real;
  }

  // What a loop and a step add, without looking at the recursion.

  /** The state after the first `k` iterations of a loop. */
  function AfterIterations(w: World, step: Step, s: State, k: nat): State
    requires step.Loop?
  {
    if k == 0 then s else RunSteps(w, step.steps, Mark(AfterIterations(w, step, s, k - 1), k - 1))
  }

  lemma {:induction false} LoopStopsFrom(w: World, step: Step, s: State, index: nat) returns (k: nat)
    requires step.Loop? && index <= Cap(step)
    ensures index <= k <= Cap(step)
    ensures RunLoop(w, step, index, AfterIterations(w, step, s, index))
         == Push(AfterIterations(w, step, s, k), StepResult(step.id, Passed, None))
    ensures forall i :: index <= i < k ==> ShouldIterate(w, step, AfterIterations(w, step, s, i))
    ensures k < Cap(step) ==> !ShouldIterate(w, step, AfterIterations(w, step, s, k))
    decreases Cap(step) - index
  {
    k := index;
    if index < Cap(step) && ShouldIterate(w, step, AfterIterations(w, step, s, index)) {
      k := LoopStopsFrom(w, step, s, index + 1);
    }
  }

  /**
   A loop runs its body, numbered from zero, until its check fails for the first time or the cap is reached, and then
   adds its own result.
   */
  lemma {:induction false} LoopStopsAtFirstFailedCheck(w: World, step: Step, s: State) returns (k: nat)
    requires step.Loop?
    ensures k <= Cap(step)
    ensures RunStep(w, step, s) == Push(AfterIterations(w, step, s, k), StepResult(step.id, Passed, None))
    ensures forall i :: 0 <= i < k ==> ShouldIterate(w, step, AfterIterations(w, step, s, i))
    ensures k < Cap(step) ==> !ShouldIterate(w, step, AfterIterations(w, step, s, k))
  {
    k := LoopStopsFrom(w, step, s, 0);
  }

  lemma {:induction false} StepsOnlyAdd(w: World, steps: seq<Step>, s: State)
    ensures s.results <= RunSteps(w, steps, s).results
    decreases steps, 2
  {
    if steps != [] {
      StepPushesItsOwn(w, steps[0], s);
      StepsOnlyAdd(w, steps[1..], RunStep(w, steps[0], s));
    }
  }

  lemma {:induction false} LoopOnlyAdds(w: World, step: Step, index: nat, s: State)
    requires step.Loop?
    ensures s.results < RunLoop(w, step, index, s).results
    ensures RunLoop(w, step, index, s).results[|RunLoop(w, step, index, s).results| - 1]
         == StepResult(step.id, Passed, None)
    decreases step, 0, if index < Cap(step) then Cap(step) - index else 0
  {
    if index < Cap(step) && ShouldIterate(w, step, s) {
      StepsOnlyAdd(w, step.steps, Mark(s, index));
      LoopOnlyAdds(w, step, index + 1, RunSteps(w, step.steps, Mark(s, index)));
    }
  }

  /**
   Every step adds its own result: a request and a delay nothing else, a condition before those of its branch, a loop
   after those of its iterations.
   */
  lemma {:induction false} StepPushesItsOwn(w: World, step: Step, s: State)
    ensures var (n, after) := (|s.results|, RunStep(w, step, s).results);
      && s.results < after
      && (step.Request? || step.Delay? ==> |after| == n + 1)
      && after[if step.Loop? then |after| - 1 else n].stepId == step.id
    decreases step, 1, 0
  {
    match step
    case Request(_, _, _, _, _) =>
    case Delay(_, _, _) =>
    case Branch(id, _, condition, thenSteps, elseSteps) =>
      var pushed := Push(s, StepResult(id, Passed, None));
      StepsOnlyAdd(w, if w.holds(condition, s.variables, LastResponse(s)) then thenSteps else elseSteps, pushed);
    case Loop(_, _, _, _, _, _, _) =>
      LoopOnlyAdds(w, step, 0, s);
  }

  datatype FlowResult = FlowResult(status: Status, variables: map<string, string>, steps: seq<StepResult>)

  /** The engine of the source: one object whose fields every step updates in place. */
  class FlowRunner {
    const w: World
    var variables: map<string, string>
    var results: seq<StepResult>
    var calls: nat

    constructor (w: World)
      ensures this.w == w && View() == Start(0)
    {
      this.w := w;
      variables, results, calls := map[], [], 0;
    }

    ghost function View(): State
      reads this
    {
      State(variables, results, calls)
    }

    /** Every run starts from fresh variables and results; only the executor remembers earlier calls. */
    method Run(steps: seq<Step>) returns (result: FlowResult)
      modifies this
      ensures View() == RunSteps(w, steps, Start(old(calls)))
      ensures result.steps == results && result.variables == variables
      ensures result.status == Failed <==> exists i :: 0 <= i < |results| && results[i].status == Failed
      ensures result.status != Cancelled
    {
      variables, results := map[], [];
      RunStepList(steps);
      var failed, i := false, 0;
      while i < |results|
        invariant 0 <= i <= |results|
        invariant failed <==> exists j :: 0 <= j < i && results[j].status == Failed
      {
        if results[i].status == Failed {
          failed := true;
        }
        i := i + 1;
      }
      result := FlowResult(if failed then Failed else Passed, variables, results);
    }

    method RunStepList(steps: seq<Step>)
      modifies this
      ensures View() == RunSteps(w, steps, old(View()))
      decreases steps, 2
    {
      var i := 0;
      while i < |steps|
        invariant 0 <= i <= |steps|
        invariant RunSteps(w, steps, old(View())) == RunSteps(w, steps[i..], View())
      {
        label before:
        RunOneStep(steps[i]);
        assert steps[i..][1..] == steps[i + 1..];
        var failed := |results| > 0 && results[|results| - 1].status == Failed;
        if failed && steps[i].Request? && !steps[i].continueOnFailure {
          return;
        }
        i := i + 1;
      }
    }

    method RunOneStep(step: Step)
      modifies this
      ensures View() == RunStep(w, step, old(View()))
      decreases step, 1, 0
    {
      match step {
        case Request(_, _, _, _, _) =>
          RunRequestStep(step);
        case Delay(_, _, _) =>
          results := results + [StepResult(step.id, Passed, None)];
        case Branch(_, _, condition, thenSteps, elseSteps) =>
          var taken := w.holds(condition, variables, CurrentResponse());
          results := results + [StepResult(step.id, Passed, None)];
          if taken {
            RunStepList(thenSteps);
          } else {
            RunStepList(elseSteps);
          }
        case Loop(_, _, count, _, _, steps, maxIterations) =>
          var limit := LoopMaxIterations(count, maxIterations);
          var index: nat := 0;
          CapIsLoopTest(step, index);
          while index as real < limit
            invariant index as real < limit <==> index < Cap(step)
            invariant RunStep(w, step, old(View())) == RunLoop(w, step, index, View())
            decreases Cap(step) - index
          {
            var go := true;
            if step.guard.Some? {
              var matched := w.holds(step.guard.value, variables, CurrentResponse());
              go := if step.mode == Some(Until) then !matched else matched;
            }
            if !go {
              break;
            }
            variables := variables["$loop.iteration" := NatToString(index)];
            RunStepList(steps);
            index := index + 1;
            CapIsLoopTest(step, index);
          }
          results := results + [StepResult(step.id, Passed, None)];
      }
    }

    function CurrentResponse(): (r: Option<Response>)
      reads this
      ensures r == LastResponse(View())
    {
      if results == [] then None else results[|results| - 1].response
    }

    /** The request is executed again until it answers or no retries are left. */
    method ExecuteRequest(step: Step) returns (attempt: Attempt)
      requires step.Request?
      modifies this`calls
      ensures (if attempt.Answered? then Some(attempt.response) else None, calls)
           == ExecuteWithRetry(w, step.request, variables, old(calls), Retries(step))
    {
      var retriesLeft := Retries(step);
      attempt := w.execute(step.request, variables, calls);
      calls := calls + 1;
      while attempt.Rejected? && retriesLeft > 0
        invariant calls > 0 && attempt == w.execute(step.request, variables, calls - 1)
        invariant ExecuteWithRetry(w, step.request, variables, old(calls), Retries(step))
               == ExecuteWithRetry(w, step.request, variables, calls - 1, retriesLeft)
        decreases retriesLeft
      {
        attempt := w.execute(step.request, variables, calls);
        calls := calls + 1;
        retriesLeft := retriesLeft - 1;
      }
    }

    method RunRequestStep(step: Step)
      requires step.Request?
      modifies this
      ensures View() == RunRequest(w, step, old(View()))
    {
      var attempt := ExecuteRequest(step);
      match attempt {
        case Answered(response) =>
          variables := variables + w.extract(response, step.request);
          var status := if response.error != "" || !w.assertionsPass(response, step.request) then Failed else Passed;
          results := results + [StepResult(step.id, status, Some(response))];
        case Rejected =>
          results := results + [StepResult(step.id, Failed, None)];
      }
    }
  }
}
