/**
 What the results of a run say about the text of the flow: which branch a condition took, what a request did to the
 variables, how often a loop went round.
 */
module FlowTrace {
  import opened Options
  import opened Decimal
  import opened FlowInterpreter
  import opened FlowValidation

  // Every result of a list names a step nested in it.

  /** The results from `n` on name only the given ids. */
  predicate NamesOnly(results: seq<StepResult>, n: nat, ids: seq<string>) {
    forall i :: n <= i < |results| ==> results[i].stepId in ids
  }

  lemma NamesTogether(a: seq<StepResult>, b: seq<StepResult>, n: nat, ids: seq<string>, more: seq<string>)
    requires n <= |a| && a <= b && NamesOnly(a, n, ids) && NamesOnly(b, |a|, more)
    ensures NamesOnly(b, n, ids + more) && NamesOnly(b, n, more + ids)
  {
  }

  lemma {:induction false} ListNamesItsSteps(w: World, steps: seq<Step>, s: State)
    ensures s.results <= RunSteps(w, steps, s).results
    ensures NamesOnly(RunSteps(w, steps, s).results, |s.results|, Ids(steps))
    decreases steps, 2
  {
    StepsOnlyAdd(w, steps, s);
    if steps != [] {
      var after := RunStep(w, steps[0], s);
      StepNamesItsSteps(w, steps[0], s);
      StepPushesItsOwn(w, steps[0], s);
      if !Cuts(steps[0], after) {
        ListNamesItsSteps(w, steps[1..], after);
        NamesTogether(after.results, RunSteps(w, steps, s).results, |s.results|, StepIds(steps[0]), Ids(steps[1..]));
      }
    }
  }

  lemma {:induction false} StepNamesItsSteps(w: World, step: Step, s: State)
    ensures NamesOnly(RunStep(w, step, s).results, |s.results|, StepIds(step))
    decreases step, 1, 0
  {
    match step
    case Request(_, _, _, _, _) =>
    case Delay(_, _, _) =>
    case Branch(id, _, _, thenSteps, elseSteps) =>
      var pushed := Push(s, StepResult(id, Passed, None));
      ListNamesItsSteps(w, thenSteps, pushed);
      ListNamesItsSteps(w, elseSteps, pushed);
    case Loop(_, _, _, _, _, _, _) =>
      LoopNamesItsSteps(w, step, 0, s);
  }

  lemma {:induction false} LoopNamesItsSteps(w: World, step: Step, index: nat, s: State)
    requires step.Loop?
    ensures s.results <= RunLoop(w, step, index, s).results
    ensures NamesOnly(RunLoop(w, step, index, s).results, |s.results|, StepIds(step))
    decreases step, 0, if index < Cap(step) then Cap(step) - index else 0
  {
    LoopOnlyAdds(w, step, index, s);
    if index < Cap(step) && ShouldIterate(w, step, s) {
      ListNamesItsSteps(w, step.steps, Mark(s, index));
      LoopNamesItsSteps(w, step, index + 1, RunSteps(w, step.steps, Mark(s, index)));
    }
  }

  // Which branch a condition takes.

  function LastAnswer(results: seq<StepResult>): Option<Response> {
    if results == [] then None else results[|results| - 1].response
  }

  lemma FirstStepIsBegun(w: World, steps: seq<Step>, s: State)
    requires steps != []
    ensures var (n, after) := (|s.results|, RunSteps(w, steps, s).results);
      && s.results < after
      && (!steps[0].Loop? ==> after[n].stepId == steps[0].id)
      && exists i :: n <= i < |after| && after[i].stepId == steps[0].id
  {
    var first, after := RunStep(w, steps[0], s), RunSteps(w, steps, s);
    StepPushesItsOwn(w, steps[0], s);
    if !Cuts(steps[0], first) {
      StepsOnlyAdd(w, steps[1..], first);
    }
    var i := if steps[0].Loop? then |first.results| - 1 else |s.results|;
    assert after.results[i] == first.results[i];
  }

  /**
   A condition is judged on the state before it and the last response. It passes, and after its own result come only
   results of the steps of its then-list if it held and of its else-list otherwise: the first step of that list is
   begun at once, and an empty list changes nothing.
   */
  lemma {:induction false} ConditionTakesItsBranch(w: World, step: Step, s: State)
    requires step.Branch?
    ensures var held := w.holds(step.condition, s.variables, LastAnswer(s.results));
      var chosen := if held then step.thenSteps else step.elseSteps;
      var (n, after) := (|s.results|, RunStep(w, step, s));
      && s.results < after.results && after.results[n] == StepResult(step.id, Passed, None)
      && NamesOnly(after.results, n + 1, Ids(chosen))
      && (chosen == [] ==> |after.results| == n + 1 && after.variables == s.variables && after.calls == s.calls)
      && (chosen != [] ==> exists i :: n < i < |after.results| && after.results[i].stepId == chosen[0].id)
      && (chosen != [] && !chosen[0].Loop? ==>
            |after.results| > n + 1 && after.results[n + 1].stepId == chosen[0].id)
  {
    var held := w.holds(step.condition, s.variables, LastAnswer(s.results));
    var chosen := if held then step.thenSteps else step.elseSteps;
    var pushed := Push(s, StepResult(step.id, Passed, None));
    ListNamesItsSteps(w, chosen, pushed);
    assert RunStep(w, step, s) == RunSteps(w, chosen, pushed);
    assert pushed.results[|s.results|] == StepResult(step.id, Passed, None);
    if chosen != [] {
      FirstStepIsBegun(w, chosen, pushed);
    }
  }

  // What a request does.

  /** How often a request may be executed again. */
  function AllowedRetries(retryCount: Option<int>): nat {
    if retryCount.Some? && retryCount.value > 0 then retryCount.value else 0
  }

  /** The variables with what was extracted, which goes before. */
  predicate Extracted(before: map<string, string>, found: map<string, string>, after: map<string, string>) {
    && after.Keys == before.Keys + found.Keys
    && (forall k <- found :: after[k] == found[k])
    && forall k <- before :: k !in found ==> after[k] == before[k]
  }

  /** The result and the variables an answer leaves: it fails by its error or by its assertions. */
  ghost predicate Answers(w: World, step: Step, response: Response, s: State, t: State, r: StepResult)
    requires step.Request?
  {
    && r.response == Some(response) && r.status in {Passed, Failed}
    && (r.status == Passed <==> response.error == "" && w.assertionsPass(response, step.request))
    && Extracted(s.variables, w.extract(response, step.request), t.variables)
  }

  /**
   A request adds one result, its own. All calls but the last were rejected; the last was answered, and the answer
   decides the result and adds its variables, or it was rejected too with no retries left.
   */
  lemma {:induction false} RequestAddsItsAnswer(w: World, step: Step, s: State)
    requires step.Request?
    ensures var (n, t) := (|s.results|, RunStep(w, step, s));
      && t.results == s.results + [t.results[n]] && t.results[n].stepId == step.id
      && s.calls < t.calls <= s.calls + AllowedRetries(step.retryCount) + 1
      && (forall i :: s.calls <= i < t.calls - 1 ==> w.execute(step.request, s.variables, i).Rejected?)
      && match w.execute(step.request, s.variables, t.calls - 1)
         case Answered(response) => Answers(w, step, response, s, t, t.results[n])
         case Rejected =>
           && t.results[n] == StepResult(step.id, Failed, None) && t.variables == s.variables
           && t.calls == s.calls + AllowedRetries(step.retryCount) + 1
  {
    RetriesUntilAnswered(w, step.request, s.variables, s.calls, Retries(step));
  }

  /** A delay only adds its own result. */
  lemma DelayOnlyPasses(w: World, step: Step, s: State)
    requires step.Delay?
    ensures RunStep(w, step, s) == State(s.variables, s.results + [StepResult(step.id, Passed, None)], s.calls)
  {
  }

  // How a loop goes round.

  /** The counter is below the count, if there is one, and below the cap, a thousand if there is none. */
  predicate CounterAllows(step: Step, index: nat)
    requires step.Loop?
  {
    && (step.count.Some? ==> index as real < step.count.value)
    && index as real < (if step.maxIterations.Some? then step.maxIterations.value else 1000.0)
  }

  /** A loop with a condition goes on while it holds, or until it does. */
  predicate GuardAllows(w: World, step: Step, s: State)
    requires step.Loop?
  {
    step.guard.Some? ==>
      (w.holds(step.guard.value, s.variables, LastAnswer(s.results)) <==> step.mode != Some(Until))
  }

  /** The state an iteration begins in: the one before it with the number of the iteration among the variables. */
  function Entered(s: State, index: nat): State {
    State(s.variables["$loop.iteration" := NatToString(index)], s.results, s.calls)
  }

  lemma CapIsCounter(step: Step, index: nat)
    requires step.Loop?
    ensures index < Cap(step) <==> CounterAllows(step, index)
  {
    CapIsLoopTest(step, index);
  }

  /** One more round: it was allowed, and it ran the list of the loop. */
  predicate Round(w: World, step: Step, index: nat, before: State, after: State)
    requires step.Loop?
  {
    RoundAllowed(w, step, index, before) && after == RunSteps(w, step.steps, Entered(before, index))
  }

  /** The states between the rounds of a loop, numbered from `first`. */
  predicate GoesRound(w: World, step: Step, first: nat, states: seq<State>)
    requires step.Loop?
  {
    forall i {:trigger states[i]} :: 0 <= i < |states| - 1 ==> Round(w, step, first + i, states[i], states[i + 1])
  }

  lemma OneMoreRound(w: World, step: Step, first: nat, s: State, rest: seq<State>)
    requires step.Loop? && rest != [] && GoesRound(w, step, first + 1, rest) && Round(w, step, first, s, rest[0])
    ensures GoesRound(w, step, first, [s] + rest)
  {
    var states := [s] + rest;
    forall i {:trigger states[i]} | 0 <= i < |states| - 1
      ensures Round(w, step, first + i, states[i], states[i + 1])
    {
      if i > 0 {
        assert states[i] == rest[i - 1] && states[i + 1] == rest[i];
        assert Round(w, step, first + 1 + (i - 1), rest[i - 1], rest[i]);
      }
    }
  }

  predicate RoundAllowed(w: World, step: Step, index: nat, s: State)
    requires step.Loop?
  {
    CounterAllows(step, index) && GuardAllows(w, step, s)
  }

  lemma AllowedIsTested(w: World, step: Step, index: nat, s: State)
    requires step.Loop?
    ensures RoundAllowed(w, step, index, s) <==> index < Cap(step) && ShouldIterate(w, step, s)
  {
    CapIsCounter(step, index);
  }

  lemma RoundIsRun(w: World, step: Step, index: nat, s: State)
    requires step.Loop? && index < Cap(step) && ShouldIterate(w, step, s)
    ensures var next := RunSteps(w, step.steps, Mark(s, index));
      Round(w, step, index, s, next) && RunLoop(w, step, index, s) == RunLoop(w, step, index + 1, next)
  {
    AllowedIsTested(w, step, index, s);
  }

  /** The loop stops before a round, in a state. */
  predicate ComesTo(w: World, step: Step, index: nat, s: State, stop: nat, last: State)
    requires step.Loop?
  {
    !RoundAllowed(w, step, stop, last) && RunLoop(w, step, index, s) == Push(last, StepResult(step.id, Passed, None))
  }

  lemma ComesToLater(w: World, step: Step, index: nat, s: State, stop: nat, last: State)
    requires step.Loop? && index < Cap(step) && ShouldIterate(w, step, s)
    requires ComesTo(w, step, index + 1, RunSteps(w, step.steps, Mark(s, index)), stop, last)
    ensures ComesTo(w, step, index, s, stop, last)
  {
    RoundIsRun(w, step, index, s);
  }

  /** The states of the rounds from one on, and what the loop comes to. */
  predicate Rounds(w: World, step: Step, index: nat, s: State, states: seq<State>)
    requires step.Loop?
  {
    && states != [] && states[0] == s && GoesRound(w, step, index, states)
    && ComesTo(w, step, index, s, index + |states| - 1, states[|states| - 1])
  }

  lemma RoundBefore(w: World, step: Step, index: nat, s: State, rest: seq<State>)
    requires step.Loop? && index < Cap(step) && ShouldIterate(w, step, s)
    requires Rounds(w, step, index + 1, RunSteps(w, step.steps, Mark(s, index)), rest)
    ensures Rounds(w, step, index, s, [s] + rest)
  {
    RoundIsRun(w, step, index, s);
    OneMoreRound(w, step, index, s, rest);
    ComesToLater(w, step, index, s, index + |rest|, rest[|rest| - 1]);
    assert ([s] + rest)[|rest|] == rest[|rest| - 1];
  }

  lemma {:induction false} RoundsFrom(w: World, step: Step, index: nat, s: State) returns (states: seq<State>)
    requires step.Loop?
    ensures Rounds(w, step, index, s, states)
    decreases if index < Cap(step) then Cap(step) - index else 0
  {
    AllowedIsTested(w, step, index, s);
    if index < Cap(step) && ShouldIterate(w, step, s) {
      var rest := RoundsFrom(w, step, index + 1, RunSteps(w, step.steps, Mark(s, index)));
      RoundBefore(w, step, index, s, rest);
      states := [s] + rest;
    } else {
      states := [s];
    }
  }

  /**
   A loop runs its list again and again, each time with the number of the round among the variables, as long as the
   counter and the condition allow it, and then adds its own result.
   */
  lemma {:induction false} LoopGoesRound(w: World, step: Step, s: State) returns (states: seq<State>)
    requires step.Loop?
    ensures states != [] && states[0] == s && GoesRound(w, step, 0, states)
    ensures var (rounds, last) := (|states| - 1, states[|states| - 1]);
      && !RoundAllowed(w, step, rounds, last)
      && RunStep(w, step, s)
         == State(last.variables, last.results + [StepResult(step.id, Passed, None)], last.calls)
  {
    states := RoundsFrom(w, step, 0, s);
  }
}
