/**
 The flow engine as a machine of small steps: a stack of pending step lists and running loops. Between
 two machine steps the run can be interrupted. The machine is proved to compute what the recursive
 engine computes, to halt whatever the responses are, and to have pushed a prefix of the full run's
 results wherever it is stopped.
 */
module FlowMachine {
  import opened FlowInterpreter

  type LoopStep = s: Step | s.Loop? witness Loop("", "", Options.None, Options.None, Options.None, [], Options.None)
  import Options

  datatype Frame = Pending(steps: seq<Step>) | Iterating(loop: LoopStep, index: nat)

  /** `stack[0]` is the innermost frame. */
  datatype Config = Config(stack: seq<Frame>, state: State)

  function Init(steps: seq<Step>, s: State): Config {
    Config([Pending(steps)], s)
  }

  function Next(w: World, c: Config): Config {
    if c.stack == [] then c
    else
      var outer := c.stack[1..];
      match c.stack[0]
      case Pending(steps) =>
        if steps == [] then Config(outer, c.state)
        else Begin(w, steps[0], [Pending(steps[1..])] + outer, outer, c.state)
      case Iterating(loop, index) =>
        if index < Cap(loop) && ShouldIterate(w, loop, c.state) then
          Config([Pending(loop.steps), Iterating(loop, index + 1)] + outer, Mark(c.state, index))
        else
          Config(outer, Push(c.state, StepResult(loop.id, Passed, Options.None)))
  }

  /** Begins one step: `rest` is the stack when its list goes on, `outer` the stack when its list is cut. */
  function Begin(w: World, step: Step, rest: seq<Frame>, outer: seq<Frame>, s: State): Config {
    match step
    case Request(_, _, _, _, _) =>
      var after := RunRequest(w, step, s);
      if Cuts(step, after) then Config(outer, after) else Config(rest, after)
    case Delay(_, _, _) => Config(rest, Push(s, StepResult(step.id, Passed, Options.None)))
    case Branch(_, _, _, thenSteps, elseSteps) =>
      var taken := if w.holds(step.condition, s.variables, LastResponse(s)) then thenSteps else elseSteps;
      Config([Pending(taken)] + rest, Push(s, StepResult(step.id, Passed, Options.None)))
    case Loop(_, _, _, _, _, _, _) => Config([Iterating(step, 0)] + rest, s)
  }

  function Run(w: World, c: Config, n: nat): Config
    decreases n
  {
    if n == 0 then c else Run(w, Next(w, c), n - 1)
  }

  // What a stack still has to do, as the recursive engine would do it.

  function FrameMeaning(w: World, f: Frame, s: State): State {
    match f
    case Pending(steps) => RunSteps(w, steps, s)
    case Iterating(loop, index) => RunLoop(w, loop, index, s)
  }

  function Meaning(w: World, stack: seq<Frame>, s: State): State {
    if stack == [] then s else Meaning(w, stack[1..], FrameMeaning(w, stack[0], s))
  }

  lemma MeaningOfTop(w: World, f: Frame, stack: seq<Frame>, s: State)
    ensures Meaning(w, [f] + stack, s) == Meaning(w, stack, FrameMeaning(w, f, s))
  {
    assert ([f] + stack)[1..] == stack;
  }

  lemma {:induction false} NextKeepsMeaning(w: World, c: Config)
    ensures Meaning(w, Next(w, c).stack, Next(w, c).state) == Meaning(w, c.stack, c.state)
  {
    if c.stack != [] {
      var outer, s := c.stack[1..], c.state;
      match c.stack[0]
      case Pending(steps) =>
        if steps != [] {
          BeginKeepsMeaning(w, steps, outer, s);
        }
      case Iterating(loop, index) =>
        MeaningOfTop(w, Iterating(loop, index + 1), outer, RunSteps(w, loop.steps, Mark(s, index)));
        MeaningOfTop(w, Pending(loop.steps), [Iterating(loop, index + 1)] + outer, Mark(s, index));
        assert [Pending(loop.steps), Iterating(loop, index + 1)] + outer
            == [Pending(loop.steps)] + ([Iterating(loop, index + 1)] + outer);
    }
  }

  lemma BeginKeepsMeaning(w: World, steps: seq<Step>, outer: seq<Frame>, s: State)
    requires steps != []
    ensures var c := Begin(w, steps[0], [Pending(steps[1..])] + outer, outer, s);
      Meaning(w, c.stack, c.state) == Meaning(w, outer, RunSteps(w, steps, s))
  {
    var rest := [Pending(steps[1..])] + outer;
    MeaningOfTop(w, Pending(steps[1..]), outer, RunStep(w, steps[0], s));
    match steps[0]
    case Request(_, _, _, _, _) =>
    case Delay(_, _, _) =>
    case Branch(_, _, _, thenSteps, elseSteps) =>
      var taken := if w.holds(steps[0].condition, s.variables, LastResponse(s)) then thenSteps else elseSteps;
      MeaningOfTop(w, Pending(taken), rest, Push(s, StepResult(steps[0].id, Passed, Options.None)));
    case Loop(_, _, _, _, _, _, _) =>
      MeaningOfTop(w, Iterating(steps[0], 0), rest, s);
  }

  // A bound on the number of machine steps, from the flow alone.

  function StepFuel(step: Step): nat
    decreases step, 1
  {
    match step
    case Request(_, _, _, _, _) => 1
    case Delay(_, _, _) => 1
    case Branch(_, _, _, thenSteps, elseSteps) => 1 + ListFuel(thenSteps) + ListFuel(elseSteps)
    case Loop(_, _, _, _, _, steps, _) => 2 + Cap(step) * (ListFuel(steps) + 1)
  }

  function ListFuel(steps: seq<Step>): (fuel: nat)
    ensures fuel > 0
    decreases steps, 2
  {
    if steps == [] then 1 else StepFuel(steps[0]) + ListFuel(steps[1..])
  }

  function FrameFuel(f: Frame): nat {
    match f
    case Pending(steps) => ListFuel(steps)
    case Iterating(loop, index) =>
      1 + if index < Cap(loop) then (Cap(loop) - index) * (ListFuel(loop.steps) + 1) else 0
  }

  function Fuel(stack: seq<Frame>): nat {
    if stack == [] then 0 else FrameFuel(stack[0]) + Fuel(stack[1..])
  }

  lemma FuelOfTop(f: Frame, stack: seq<Frame>)
    ensures Fuel([f] + stack) == FrameFuel(f) + Fuel(stack)
  {
    assert ([f] + stack)[1..] == stack;
  }

  /** One iteration less is left; the loop's steps take what it had. */
  lemma IterationBurnsFuel(loop: LoopStep, index: nat, outer: seq<Frame>)
    requires index < Cap(loop)
    ensures Fuel([Pending(loop.steps), Iterating(loop, index + 1)] + outer)
          < FrameFuel(Iterating(loop, index)) + Fuel(outer)
  {
    FuelOfTop(Iterating(loop, index + 1), outer);
    FuelOfTop(Pending(loop.steps), [Iterating(loop, index + 1)] + outer);
    assert [Pending(loop.steps), Iterating(loop, index + 1)] + outer
        == [Pending(loop.steps)] + ([Iterating(loop, index + 1)] + outer);
    var left, cost := Cap(loop) - index, ListFuel(loop.steps) + 1;
    assert left * cost == (left - 1) * cost + cost;
  }

  lemma {:induction false} NextBurnsFuel(w: World, c: Config)
    requires c.stack != []
    ensures Fuel(Next(w, c).stack) < Fuel(c.stack)
  {
    var outer := c.stack[1..];
    match c.stack[0]
    case Pending(steps) =>
      if steps != [] {
        BeginBurnsFuel(w, steps, outer, c.state);
      }
    case Iterating(loop, index) =>
      if index < Cap(loop) {
        IterationBurnsFuel(loop, index, outer);
      }
  }

  lemma BeginBurnsFuel(w: World, steps: seq<Step>, outer: seq<Frame>, s: State)
    requires steps != []
    ensures Fuel(Begin(w, steps[0], [Pending(steps[1..])] + outer, outer, s).stack) < ListFuel(steps) + Fuel(outer)
  {
    var rest := [Pending(steps[1..])] + outer;
    FuelOfTop(Pending(steps[1..]), outer);
    match steps[0]
    case Request(_, _, _, _, _) =>
    case Delay(_, _, _) =>
    case Branch(_, _, _, thenSteps, elseSteps) =>
      FuelOfTop(Pending(thenSteps), rest);
      FuelOfTop(Pending(elseSteps), rest);
    case Loop(_, _, _, _, _, _, _) =>
      FuelOfTop(Iterating(steps[0], 0), rest);
  }

  lemma StepTowardsHalt(w: World, c: Config, n: nat)
    requires Fuel(c.stack) <= n + 1
    ensures Fuel(Next(w, c).stack) <= n
    ensures Meaning(w, Next(w, c).stack, Next(w, c).state) == Meaning(w, c.stack, c.state)
  {
    NextKeepsMeaning(w, c);
    if c.stack != [] {
      NextBurnsFuel(w, c);
    }
  }

  lemma FramesHaveFuel(f: Frame)
    ensures FrameFuel(f) > 0
  {
  }

  lemma StacksHaveFuel(stack: seq<Frame>)
    ensures stack != [] ==> Fuel(stack) > 0
  {
    if stack != [] {
      FramesHaveFuel(stack[0]);
    }
  }

  lemma EmptyStackIsDone(w: World, c: Config)
    requires c.stack == []
    ensures c == Config([], Meaning(w, c.stack, c.state))
  {
  }

  lemma {:induction false} HaltsWithMeaning(w: World, c: Config, n: nat)
    requires Fuel(c.stack) <= n
    ensures Run(w, c, n) == Config([], Meaning(w, c.stack, c.state))
    decreases n
  {
    if n == 0 {
      StacksHaveFuel(c.stack);
      EmptyStackIsDone(w, c);
    } else {
      StepTowardsHalt(w, c, n - 1);
      HaltsWithMeaning(w, Next(w, c), n - 1);
    }
  }

  /** The machine and the recursive engine agree on every flow and every sequence of responses. */
  lemma {:induction false} MachineAgreesWithEngine(w: World, steps: seq<Step>, s: State, n: nat)
    requires n >= ListFuel(steps)
    ensures Run(w, Init(steps, s), n) == Config([], RunSteps(w, steps, s))
  {
    var c := Init(steps, s);
    assert c.stack[1..] == [];
    HaltsWithMeaning(w, c, n);
  }

  lemma {:induction false} ResultsOnlyGrow(w: World, c: Config, n: nat)
    ensures c.state.results <= Run(w, c, n).state.results
    decreases n
  {
    if n > 0 {
      ResultsOnlyGrow(w, Next(w, c), n - 1);
    }
  }

  lemma {:induction false} RunInTwoParts(w: World, c: Config, m: nat, n: nat)
    ensures Run(w, c, m + n) == Run(w, Run(w, c, m), n)
    decreases m
  {
    if m > 0 {
      RunInTwoParts(w, Next(w, c), m - 1, n);
    }
  }

  /** `cancel()` after any number of machine steps reports a prefix of the results of the uninterrupted run. */
  lemma {:induction false} InterruptionKeepsPrefix(w: World, steps: seq<Step>, s: State, n: nat)
    ensures Run(w, Init(steps, s), n).state.results <= RunSteps(w, steps, s).results
  {
    var rest := ListFuel(steps);
    RunInTwoParts(w, Init(steps, s), n, rest);
    ResultsOnlyGrow(w, Run(w, Init(steps, s), n), rest);
    MachineAgreesWithEngine(w, steps, s, n + rest);
  }

  /** What a run reports that is cancelled after `n` machine steps. */
  function CancelledResult(w: World, steps: seq<Step>, calls: nat, n: nat): FlowResult {
    var s := Run(w, Init(steps, Start(calls)), n).state;
    FlowResult(Cancelled, s.variables, s.results)
  }

  /**
   A cancelled run reports as cancelled, with a prefix of the results of the full run; when nothing was left to do, it
   reports the variables and results of the full run.
   */
  lemma {:induction false} CancelledRunReportsPrefix(w: World, steps: seq<Step>, calls: nat, n: nat)
    ensures CancelledResult(w, steps, calls, n).status == Cancelled
    ensures CancelledResult(w, steps, calls, n).steps <= RunSteps(w, steps, Start(calls)).results
    ensures n >= ListFuel(steps) ==>
      var s := RunSteps(w, steps, Start(calls));
      CancelledResult(w, steps, calls, n) == FlowResult(Cancelled, s.variables, s.results)
  {
    InterruptionKeepsPrefix(w, steps, Start(calls), n);
    if n >= ListFuel(steps) {
      MachineAgreesWithEngine(w, steps, Start(calls), n);
    }
  }

  // A failed request cuts its own list and nothing else.

  /** The steps one after another, whatever fails: the list without its early exit. */
  function RunAll(w: World, steps: seq<Step>, s: State): State {
    if steps == [] then s else RunAll(w, steps[1..], RunStep(w, steps[0], s))
  }

  /** How many steps of this list are begun. */
  function Begun(w: World, steps: seq<Step>, s: State): (k: nat)
    ensures k <= |steps|
  {
    if steps == [] then 0
    else
      var after := RunStep(w, steps[0], s);
      if Cuts(steps[0], after) then 1 else 1 + Begun(w, steps[1..], after)
  }

  predicate FailedHere(step: Step, after: State) {
    && step.Request?
    && !step.continueOnFailure
    && LastFailed(after)
    && after.results[|after.results| - 1].stepId == step.id
  }

  /**
   A list runs its steps in order with no early exit up to the first request that fails without
   `continueOnFailure`, counting only the requests of the list itself: failures inside a branch or a
   loop never stop it.
   */
  lemma {:induction false} FailureCutsOnlyItsOwnList(w: World, steps: seq<Step>, s: State)
    ensures var k := Begun(w, steps, s);
      && RunSteps(w, steps, s) == RunAll(w, steps[..k], s)
      && (k < |steps| ==> k > 0 && FailedHere(steps[k - 1], RunSteps(w, steps, s)))
      && (forall j :: 0 < j < k ==> !FailedHere(steps[j - 1], RunAll(w, steps[..j], s)))
  {
    if steps != [] {
      var after := RunStep(w, steps[0], s);
      var k := Begun(w, steps, s);
      assert steps[..1][1..] == [];
      if Cuts(steps[0], after) {
        assert RunAll(w, steps[..1], s) == after;
      } else {
        FailureCutsOnlyItsOwnList(w, steps[1..], after);
        assert steps[..k][1..] == steps[1..][..k - 1];
        forall j | 0 < j < k
          ensures !FailedHere(steps[j - 1], RunAll(w, steps[..j], s))
        {
          assert steps[..j][1..] == steps[1..][..j - 1];
          if j > 1 {
            assert steps[1..][j - 2] == steps[j - 1];
          }
        }
      }
    }
  }

  /** So a list of branches, loops, delays and tolerant requests always runs to its end. */
  lemma {:induction false} TolerantListRunsToItsEnd(w: World, steps: seq<Step>, s: State)
    requires forall i :: 0 <= i < |steps| && steps[i].Request? ==> steps[i].continueOnFailure
    ensures RunSteps(w, steps, s) == RunAll(w, steps, s)
  {
    FailureCutsOnlyItsOwnList(w, steps, s);
    var k := Begun(w, steps, s);
    if k == |steps| {
      assert steps[..k] == steps;
    }
  }
}
