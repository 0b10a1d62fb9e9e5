/**
 What acceptance by the validator says about every run: how many results each step and the whole flow can
 produce whatever the responses are, and that every result names exactly one step.
 */
module FlowBounds {
  import opened Options
  import opened FlowInterpreter
  import opened FlowValidation

  // Positions in a nested flow.

  datatype Path =
    | Here(index: nat)
    | InThen(index: nat, inner: Path)
    | InElse(index: nat, inner: Path)
    | InLoop(index: nat, inner: Path)

  function StepAt(steps: seq<Step>, p: Path): Option<Step>
    decreases p
  {
    if p.index >= |steps| then None
    else
      var step := steps[p.index];
      match p
      case Here(_) => Some(step)
      case InThen(_, inner) => if step.Branch? then StepAt(step.thenSteps, inner) else None
      case InElse(_, inner) => if step.Branch? then StepAt(step.elseSteps, inner) else None
      case InLoop(_, inner) => if step.Loop? then StepAt(step.steps, inner) else None
  }

  /** The product of the caps of the loops around a position. */
  function CapProduct(steps: seq<Step>, p: Path): nat
    requires StepAt(steps, p).Some?
    decreases p
  {
    var step := steps[p.index];
    match p
    case Here(_) => 1
    case InThen(_, inner) => CapProduct(step.thenSteps, inner)
    case InElse(_, inner) => CapProduct(step.elseSteps, inner)
    case InLoop(_, inner) => Cap(step) * CapProduct(step.steps, inner)
  }

  /** The number of loops around a position. */
  function LoopsAround(p: Path): nat {
    match p
    case Here(_) => 0
    case InThen(_, inner) => LoopsAround(inner)
    case InElse(_, inner) => LoopsAround(inner)
    case InLoop(_, inner) => 1 + LoopsAround(inner)
  }

  // How often a result can name an id, from the text of the flow.

  function CountId(results: seq<StepResult>, id: string): nat {
    if results == [] then 0
    else CountId(results[..|results| - 1], id) + if results[|results| - 1].stepId == id then 1 else 0
  }

  function Allowance(steps: seq<Step>, id: string): nat
    decreases steps, 2
  {
    if steps == [] then 0 else StepAllowance(steps[0], id) + Allowance(steps[1..], id)
  }

  function StepAllowance(step: Step, id: string): nat
    decreases step, 1
  {
    var own := if step.id == id then 1 else 0;
    match step
    case Branch(_, _, _, thenSteps, elseSteps) => own + Allowance(thenSteps, id) + Allowance(elseSteps, id)
    case Loop(_, _, _, _, _, steps, _) => own + Cap(step) * Allowance(steps, id)
    case _ => own
  }

  lemma CountIdPush(s: State, r: StepResult, id: string)
    ensures CountId(Push(s, r).results, id) == CountId(s.results, id) + if r.stepId == id then 1 else 0
  {
    var results := Push(s, r).results;
    assert results[..|results| - 1] == s.results;
  }

  lemma {:induction false} ListWithinAllowance(w: World, steps: seq<Step>, s: State, id: string)
    ensures CountId(RunSteps(w, steps, s).results, id) <= CountId(s.results, id) + Allowance(steps, id)
    decreases steps, 2
  {
    if steps != [] {
      var after := RunStep(w, steps[0], s);
      StepWithinAllowance(w, steps[0], s, id);
      if !Cuts(steps[0], after) {
        ListWithinAllowance(w, steps[1..], after, id);
      }
    }
  }

  lemma {:induction false} StepWithinAllowance(w: World, step: Step, s: State, id: string)
    ensures CountId(RunStep(w, step, s).results, id) <= CountId(s.results, id) + StepAllowance(step, id)
    decreases step, 1, 0
  {
    match step
    case Request(_, _, _, _, _) =>
      var after := RunRequest(w, step, s);
      CountIdPush(s, after.results[|s.results|], id);
    case Delay(_, _, _) =>
      CountIdPush(s, StepResult(step.id, Passed, None), id);
    case Branch(_, _, _, thenSteps, elseSteps) =>
      var r := StepResult(step.id, Passed, None);
      CountIdPush(s, r, id);
      ListWithinAllowance(w, thenSteps, Push(s, r), id);
      ListWithinAllowance(w, elseSteps, Push(s, r), id);
    case Loop(_, _, _, _, _, _, _) =>
      LoopWithinAllowance(w, step, 0, s, id);
  }

  /** The product, as the sum a loop builds up. */
  function Times(n: nat, each: nat): (product: nat)
    ensures product == n * each
  {
    if n == 0 then 0 else each + Times(n - 1, each)
  }

  lemma {:induction false} LoopWithinAllowance(w: World, step: Step, index: nat, s: State, id: string)
    requires step.Loop? && index <= Cap(step)
    ensures CountId(RunLoop(w, step, index, s).results, id)
         <= CountId(s.results, id) + Times(Cap(step) - index, Allowance(step.steps, id))
          + if step.id == id then 1 else 0
    decreases step, 0, Cap(step) - index
  {
    if index < Cap(step) && ShouldIterate(w, step, s) {
      var marked := Mark(s, index);
      ListWithinAllowance(w, step.steps, marked, id);
      LoopWithinAllowance(w, step, index + 1, RunSteps(w, step.steps, marked), id);
    } else {
      CountIdPush(s, StepResult(step.id, Passed, None), id);
    }
  }

  // With unique ids the allowance of a step is the cap product of its position.

  function Tail(p: Path): Path
    requires p.index > 0
  {
    p.(index := p.index - 1)
  }

  lemma DistinctParts(a: seq<string>, b: seq<string>)
    requires Distinct(a + b)
    ensures Distinct(a) && Distinct(b)
    ensures forall id :: !(id in a && id in b)
  {
    assert forall i :: 0 <= i < |a| ==> (a + b)[i] == a[i];
    assert forall i :: 0 <= i < |b| ==> (a + b)[|a| + i] == b[i];
  }

  lemma {:induction false} NoAllowanceForUnknownId(steps: seq<Step>, id: string)
    requires id !in Ids(steps)
    ensures Allowance(steps, id) == 0
    decreases steps, 2
  {
    if steps != [] {
      NoStepAllowanceForUnknownId(steps[0], id);
      NoAllowanceForUnknownId(steps[1..], id);
    }
  }

  lemma {:induction false} NoStepAllowanceForUnknownId(step: Step, id: string)
    requires id !in StepIds(step)
    ensures StepAllowance(step, id) == 0
    decreases step, 1
  {
    assert step.id == StepIds(step)[0];
    match step
    case Branch(_, _, _, thenSteps, elseSteps) =>
      NoAllowanceForUnknownId(thenSteps, id);
      NoAllowanceForUnknownId(elseSteps, id);
    case Loop(_, _, _, _, _, steps, _) =>
      NoAllowanceForUnknownId(steps, id);
    case _ =>
  }

  lemma {:induction false} IdAtPath(steps: seq<Step>, p: Path)
    requires StepAt(steps, p).Some?
    ensures StepAt(steps, p).value.id in Ids(steps)
    ensures p.index == 0 ==> StepAt(steps, p).value.id in StepIds(steps[0])
    decreases steps
  {
    if p.index > 0 {
      assert steps[1..][p.index - 1] == steps[p.index];
      IdAtPath(steps[1..], Tail(p));
    } else {
      match p
      case Here(_) => assert steps[0].id == StepIds(steps[0])[0];
      case InThen(_, inner) => IdAtPath(steps[0].thenSteps, inner);
      case InElse(_, inner) => IdAtPath(steps[0].elseSteps, inner);
      case InLoop(_, inner) => IdAtPath(steps[0].steps, inner);
    }
  }

  lemma {:induction false} AllowanceIsCapProduct(steps: seq<Step>, p: Path)
    requires Distinct(Ids(steps)) && StepAt(steps, p).Some?
    ensures Allowance(steps, StepAt(steps, p).value.id) == CapProduct(steps, p)
    decreases steps
  {
    var id := StepAt(steps, p).value.id;
    var head := steps[0];
    IdAtPath(steps, p);
    DistinctParts(StepIds(head), Ids(steps[1..]));
    if p.index > 0 {
      assert steps[1..][p.index - 1] == steps[p.index];
      IdAtPath(steps[1..], Tail(p));
      NoStepAllowanceForUnknownId(head, id);
      AllowanceIsCapProduct(steps[1..], Tail(p));
    } else {
      NoAllowanceForUnknownId(steps[1..], id);
      match head {
        case Branch(_, _, _, thenSteps, elseSteps) =>
          DistinctParts([head.id], Ids(thenSteps) + Ids(elseSteps));
          DistinctParts(Ids(thenSteps), Ids(elseSteps));
          assert head.id in [head.id];
          match p {
            case Here(_) =>
              NoAllowanceForUnknownId(thenSteps, id);
              NoAllowanceForUnknownId(elseSteps, id);
            case InThen(_, inner) =>
              IdAtPath(thenSteps, inner);
              NoAllowanceForUnknownId(elseSteps, id);
              AllowanceIsCapProduct(thenSteps, inner);
            case InElse(_, inner) =>
              IdAtPath(elseSteps, inner);
              NoAllowanceForUnknownId(thenSteps, id);
              AllowanceIsCapProduct(elseSteps, inner);
          }
        case Loop(_, _, _, _, _, body, _) =>
          DistinctParts([head.id], Ids(body));
          assert head.id in [head.id];
          match p {
            case Here(_) =>
              NoAllowanceForUnknownId(body, id);
            case InLoop(_, inner) =>
              IdAtPath(body, inner);
              AllowanceIsCapProduct(body, inner);
          }
        case _ =>
      }
    }
  }

  lemma {:induction false} SameIdSamePath(steps: seq<Step>, p: Path, q: Path)
    requires Distinct(Ids(steps)) && StepAt(steps, p).Some? && StepAt(steps, q).Some?
    requires StepAt(steps, p).value.id == StepAt(steps, q).value.id
    ensures p == q
    decreases steps
  {
    var head := steps[0];
    IdAtPath(steps, p);
    IdAtPath(steps, q);
    DistinctParts(StepIds(head), Ids(steps[1..]));
    if p.index > 0 {
      assert steps[1..][p.index - 1] == steps[p.index];
      IdAtPath(steps[1..], Tail(p));
    }
    if q.index > 0 {
      assert steps[1..][q.index - 1] == steps[q.index];
      IdAtPath(steps[1..], Tail(q));
    }
    if p.index > 0 && q.index > 0 {
      SameIdSamePath(steps[1..], Tail(p), Tail(q));
    } else if p.index == 0 && q.index == 0 {
      SameIdSamePathInStep(steps, p, q);
    }
  }

  lemma {:induction false} SameIdSamePathInStep(steps: seq<Step>, p: Path, q: Path)
    requires steps != [] && Distinct(StepIds(steps[0])) && StepAt(steps, p).Some? && StepAt(steps, q).Some?
    requires StepAt(steps, p).value.id == StepAt(steps, q).value.id
    requires p.index == 0 == q.index
    ensures p == q
    decreases steps, 0
  {
    var head := steps[0];
    match head
    case Branch(_, _, _, thenSteps, elseSteps) =>
      DistinctParts([head.id], Ids(thenSteps) + Ids(elseSteps));
      DistinctParts(Ids(thenSteps), Ids(elseSteps));
      assert head.id in [head.id];
      if !p.Here? { IdAtPath(if p.InThen? then thenSteps else elseSteps, p.inner); }
      if !q.Here? { IdAtPath(if q.InThen? then thenSteps else elseSteps, q.inner); }
      if p.InThen? && q.InThen? { SameIdSamePath(thenSteps, p.inner, q.inner); }
      if p.InElse? && q.InElse? { SameIdSamePath(elseSteps, p.inner, q.inner); }
    case Loop(_, _, _, _, _, body, _) =>
      DistinctParts([head.id], Ids(body));
      assert head.id in [head.id];
      if !p.Here? { IdAtPath(body, p.inner); }
      if !q.Here? { IdAtPath(body, q.inner); }
      if p.InLoop? && q.InLoop? { SameIdSamePath(body, p.inner, q.inner); }
    case _ =>
  }

  // Caps of accepted loops.

  lemma {:induction false} PathOk(checks: LeafChecks, steps: seq<Step>, i: nat)
    requires StepsOk(checks, steps) && i < |steps|
    ensures StepOk(checks, steps[i])
  {
    if i > 0 {
      PathOk(checks, steps[1..], i - 1);
    }
  }

  lemma CapAtMost1000(checks: LeafChecks, step: Step)
    requires step.Loop? && StepOk(checks, step)
    ensures Cap(step) <= 1000
  {
    var m := LoopMaxIterations(step.count, step.maxIterations);
    assert m <= 1000.0;
    assert (-m).Floor >= -1000;
  }

  function Pow(base: nat, exponent: nat): nat {
    if exponent == 0 then 1 else base * Pow(base, exponent - 1)
  }

  lemma {:induction false} PowMonotone(base: nat, m: nat, n: nat)
    requires base > 0 && m <= n
    ensures 0 < Pow(base, m) <= Pow(base, n)
    decreases n
  {
    if m > 0 {
      PowMonotone(base, m - 1, n - 1);
      assert base * Pow(base, m - 1) <= base * Pow(base, n - 1);
    } else if n > 0 {
      PowMonotone(base, 0, n - 1);
      assert Pow(base, n - 1) <= base * Pow(base, n - 1);
    }
  }

  lemma {:induction false} CapProductBound(checks: LeafChecks, steps: seq<Step>, p: Path)
    requires StepsOk(checks, steps) && StepAt(steps, p).Some?
    ensures CapProduct(steps, p) <= Pow(1000, LoopsAround(p))
    decreases p
  {
    var step := steps[p.index];
    PathOk(checks, steps, p.index);
    match p
    case Here(_) =>
    case InThen(_, inner) => CapProductBound(checks, step.thenSteps, inner);
    case InElse(_, inner) => CapProductBound(checks, step.elseSteps, inner);
    case InLoop(_, inner) =>
      CapProductBound(checks, step.steps, inner);
      CapAtMost1000(checks, step);
      Products(Cap(step), CapProduct(step.steps, inner), 1000, Pow(1000, LoopsAround(inner)));
  }

  lemma Products(a: nat, b: nat, c: nat, d: nat)
    requires a <= c && b <= d
    ensures a * b <= c * d
  {
    assert a * b <= a * d <= c * d;
  }

  /**
   In every run of an accepted flow, whatever the responses, the step at a position produces at most as many
   results as the product of the caps of the loops around it.
   */
  lemma {:induction false} ResultsPerStep(
    checks: LeafChecks, flow: Flow, requireSteps: bool, w: World, calls: nat, p: Path
  )
    requires Accepted(checks, flow, requireSteps) && StepAt(flow.steps, p).Some?
    ensures CountId(RunSteps(w, flow.steps, Start(calls)).results, StepAt(flow.steps, p).value.id)
         <= CapProduct(flow.steps, p) <= Pow(1000, LoopsAround(p))
  {
    ListWithinAllowance(w, flow.steps, Start(calls), StepAt(flow.steps, p).value.id);
    AllowanceIsCapProduct(flow.steps, p);
    CapProductBound(checks, flow.steps, p);
  }

  // Every result names one step.

  lemma {:induction false} PathOfId(steps: seq<Step>, id: string) returns (p: Path)
    requires id in Ids(steps)
    ensures StepAt(steps, p).Some? && StepAt(steps, p).value.id == id
    decreases steps, 2
  {
    if id in StepIds(steps[0]) {
      p := PathOfIdInStep(steps, id);
    } else {
      var q := PathOfId(steps[1..], id);
      p := q.(index := q.index + 1);
      assert steps[1..][q.index] == steps[p.index];
    }
  }

  lemma {:induction false} PathOfIdInStep(steps: seq<Step>, id: string) returns (p: Path)
    requires steps != [] && id in StepIds(steps[0])
    ensures StepAt(steps, p).Some? && StepAt(steps, p).value.id == id && p.index == 0
    decreases steps, 1
  {
    p := Here(0);
    if steps[0].id != id {
      match steps[0]
      case Branch(_, _, _, thenSteps, elseSteps) =>
        if id in Ids(thenSteps) {
          var inner := PathOfId(thenSteps, id);
          p := InThen(0, inner);
        } else {
          var inner := PathOfId(elseSteps, id);
          p := InElse(0, inner);
        }
      case Loop(_, _, _, _, _, body, _) =>
        var inner := PathOfId(body, id);
        p := InLoop(0, inner);
    }
  }

  lemma {:induction false} CountIdPositive(results: seq<StepResult>, i: nat)
    requires i < |results|
    ensures CountId(results, results[i].stepId) > 0
  {
    if i < |results| - 1 {
      CountIdPositive(results[..|results| - 1], i);
    }
  }

  /** The position a result of an accepted flow came from exists and is the only one with its id. */
  lemma {:induction false} ResultNamesOneStep(
    checks: LeafChecks, flow: Flow, requireSteps: bool, w: World, calls: nat, i: nat
  )
    returns (p: Path)
    requires Accepted(checks, flow, requireSteps) && i < |RunSteps(w, flow.steps, Start(calls)).results|
    ensures var id := RunSteps(w, flow.steps, Start(calls)).results[i].stepId;
      && StepAt(flow.steps, p).Some? && StepAt(flow.steps, p).value.id == id
      && forall q :: StepAt(flow.steps, q).Some? && StepAt(flow.steps, q).value.id == id ==> q == p
  {
    var results := RunSteps(w, flow.steps, Start(calls)).results;
    var id := results[i].stepId;
    CountIdPositive(results, i);
    ListWithinAllowance(w, flow.steps, Start(calls), id);
    if id !in Ids(flow.steps) {
      NoAllowanceForUnknownId(flow.steps, id);
    }
    p := PathOfId(flow.steps, id);
    forall q | StepAt(flow.steps, q).Some? && StepAt(flow.steps, q).value.id == id
      ensures q == p
    {
      SameIdSamePath(flow.steps, q, p);
    }
  }

  // The whole run.

  function Weight(steps: seq<Step>): nat
    decreases steps, 2
  {
    if steps == [] then 0 else StepWeight(steps[0]) + Weight(steps[1..])
  }

  function StepWeight(step: Step): nat
    decreases step, 1
  {
    match step
    case Branch(_, _, _, thenSteps, elseSteps) => 1 + Weight(thenSteps) + Weight(elseSteps)
    case Loop(_, _, _, _, _, steps, _) => 1 + Cap(step) * Weight(steps)
    case _ => 1
  }

  lemma {:induction false} ListWithinWeight(w: World, steps: seq<Step>, s: State)
    ensures |RunSteps(w, steps, s).results| <= |s.results| + Weight(steps)
    decreases steps, 2
  {
    if steps != [] {
      var after := RunStep(w, steps[0], s);
      StepWithinWeight(w, steps[0], s);
      if !Cuts(steps[0], after) {
        ListWithinWeight(w, steps[1..], after);
      }
    }
  }

  lemma {:induction false} StepWithinWeight(w: World, step: Step, s: State)
    ensures |RunStep(w, step, s).results| <= |s.results| + StepWeight(step)
    decreases step, 1, 0
  {
    match step
    case Branch(_, _, _, thenSteps, elseSteps) =>
      var pushed := Push(s, StepResult(step.id, Passed, None));
      ListWithinWeight(w, thenSteps, pushed);
      ListWithinWeight(w, elseSteps, pushed);
    case Loop(_, _, _, _, _, _, _) =>
      LoopWithinWeight(w, step, 0, s);
    case _ =>
  }

  lemma {:induction false} LoopWithinWeight(w: World, step: Step, index: nat, s: State)
    requires step.Loop? && index <= Cap(step)
    ensures |RunLoop(w, step, index, s).results| <= |s.results| + Times(Cap(step) - index, Weight(step.steps)) + 1
    decreases step, 0, Cap(step) - index
  {
    if index < Cap(step) && ShouldIterate(w, step, s) {
      var marked := Mark(s, index);
      ListWithinWeight(w, step.steps, marked);
      LoopWithinWeight(w, step, index + 1, RunSteps(w, step.steps, marked));
    }
  }

  /** An exponent one less than a nesting depth. */
  function Power(depth: nat): nat {
    if depth == 0 then 1 else Pow(1000, depth - 1)
  }

  lemma PowerMonotone(m: nat, n: nat)
    requires m <= n
    ensures 0 < Power(m) <= Power(n)
  {
    PowMonotone(1000, 0, if n == 0 then 0 else n - 1);
    if m > 0 {
      PowMonotone(1000, m - 1, n - 1);
    }
  }

  /** Two parts of a flow, each within its own bound, are together within the bound of the deeper one. */
  lemma SumBound(m: nat, x: nat, dx: nat, n: nat, y: nat, dy: nat, d: nat)
    requires x <= m * Power(dx) && y <= n * Power(dy) && dx <= d && dy <= d
    ensures x + y <= (m + n) * Power(d)
  {
    PowerMonotone(dx, d);
    PowerMonotone(dy, d);
    Products(m, Power(dx), m, Power(d));
    Products(n, Power(dy), n, Power(d));
    assert (m + n) * Power(d) == m * Power(d) + n * Power(d);
  }

  /** A loop of at most 1000 rounds over a body within its bound is within the bound one level up. */
  lemma LoopBound(cap: nat, n: nat, x: nat, d: nat)
    requires cap <= 1000 && x <= n * Power(d) && (n == 0 || d > 0)
    ensures 1 + cap * x <= (1 + n) * Power(1 + d)
  {
    PowerMonotone(1, 1 + d);
    Products(cap, x, 1000, n * Power(d));
    assert 1000 * (n * Power(d)) == n * (1000 * Power(d));
    assert (1 + n) * Power(1 + d) == Power(1 + d) + n * Power(1 + d);
  }

  lemma {:induction false} WeightBound(checks: LeafChecks, steps: seq<Step>)
    requires StepsOk(checks, steps)
    ensures Weight(steps) <= Count(steps) * Power(Depth(steps))
    decreases steps, 2
  {
    if steps != [] {
      var head, rest := steps[0], steps[1..];
      StepWeightBound(checks, head);
      WeightBound(checks, rest);
      SumBound(
        CountStep(head), StepWeight(head), DepthStep(head), Count(rest), Weight(rest), Depth(rest), Depth(steps));
    }
  }

  lemma {:induction false} StepWeightBound(checks: LeafChecks, step: Step)
    requires StepOk(checks, step)
    ensures StepWeight(step) <= CountStep(step) * Power(DepthStep(step))
    decreases step, 1
  {
    match step
    case Branch(_, _, _, a, b) =>
      WeightBound(checks, a);
      WeightBound(checks, b);
      SumBound(Count(a), Weight(a), Depth(a), Count(b), Weight(b), Depth(b), DepthStep(step));
      SumBound(1, 1, 1, Count(a) + Count(b), Weight(a) + Weight(b), DepthStep(step), DepthStep(step));
    case Loop(_, _, _, _, _, body, _) =>
      WeightBound(checks, body);
      CapAtMost1000(checks, step);
      if body != [] {
        DepthPositive(body);
      }
      LoopBound(Cap(step), Count(body), Weight(body), Depth(body));
    case _ =>
  }

  lemma DepthPositive(steps: seq<Step>)
    requires steps != []
    ensures Depth(steps) > 0
  {
  }

  /** No run of an accepted flow produces more than count * 1000^(depth - 1) results, nor more than 500 * 1000^7. */
  lemma {:induction false} ResultsOfWholeRun(checks: LeafChecks, flow: Flow, requireSteps: bool, w: World, calls: nat)
    requires Accepted(checks, flow, requireSteps)
    ensures |RunSteps(w, flow.steps, Start(calls)).results|
         <= Count(flow.steps) * Power(Depth(flow.steps)) <= 500 * Pow(1000, 7)
  {
    ListWithinWeight(w, flow.steps, Start(calls));
    WeightBound(checks, flow.steps);
    PowerMonotone(Depth(flow.steps), 8);
    Products(Count(flow.steps), Power(Depth(flow.steps)), 500, Power(8));
  }
}
