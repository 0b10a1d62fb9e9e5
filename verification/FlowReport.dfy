/**
 What the validator accepts and reports, said about the positions of a flow one by one: no recursion over the steps
 is needed to read it.
 */
module FlowReport {
  import opened Options
  import opened JsText
  import opened FlowInterpreter
  import opened FlowValidation
  import opened FlowBounds

  /** There is a step at this position. */
  predicate Valid(steps: seq<Step>, p: Path) { StepAt(steps, p).Some? }

  function Levels(p: Path): nat {
    if p.Here? then 1 else 1 + Levels(p.inner)
  }

  // Positions of a list: in its first step or in the rest.

  function Later(p: Path): Path { p.(index := p.index + 1) }

  lemma LaterIsInRest(steps: seq<Step>, p: Path)
    requires steps != []
    ensures StepAt(steps, Later(p)) == StepAt(steps[1..], p) && Levels(Later(p)) == Levels(p)
  {
    assert p.index + 1 < |steps| ==> steps[p.index + 1] == steps[1..][p.index];
  }

  lemma EarlierIsInRest(steps: seq<Step>, p: Path)
    requires steps != [] && p.index > 0
    ensures StepAt(steps, p) == StepAt(steps[1..], Tail(p)) && Levels(Tail(p)) == Levels(p)
  {
    LaterIsInRest(steps, Tail(p));
    assert Later(Tail(p)) == p;
  }

  // Steps that are right by themselves.

  /** A whole number within two bounds. */
  predicate Whole(x: real, low: int, high: int) {
    x == x.Floor as real && low as real <= x <= high as real
  }

  /** The rules for a step without what is nested in it. */
  predicate RightAlone(checks: LeafChecks, step: Step) {
    && (exists i :: 0 <= i < |step.name| && !IsSpace(step.name[i])) && |step.name| <= 120
    && match step
       case Request(id, _, request, _, _) => forall issue <- checks.request(request, id) :: issue.level == Warning
       case Delay(_, _, delayMs) => Whole(delayMs, 0, 300000)
       case Branch(id, _, condition, _, _) => forall issue <- checks.condition(condition, id) :: issue.level == Warning
       case Loop(id, _, count, guard, mode, _, maxIterations) =>
         && (count.Some? ==> Whole(count.value, 1, 1000))
         && (maxIterations.Some? ==> Whole(maxIterations.value, 1, 1000))
         && (guard.Some? ==> mode == Some(While) || mode == Some(Until))
         && (guard.Some? ==> forall issue <- checks.condition(guard.value, id) :: issue.level == Warning)
         && (count.Some? || maxIterations.Some? || guard.Some?)
  }

  lemma RightAloneIff(checks: LeafChecks, step: Step)
    ensures RightAlone(checks, step) <==>
      !Blank(step.name) && |step.name| <= MAX_STEP_NAME_LENGTH && OwnOk(checks, step)
  {
    assert Blank(step.name) <==> forall i :: 0 <= i < |step.name| ==> IsSpace(step.name[i]);
  }

  ghost predicate AllRight(checks: LeafChecks, steps: seq<Step>) {
    forall p | Valid(steps, p) :: RightAlone(checks, StepAt(steps, p).value)
  }

  lemma {:induction false} RightEverywhere(checks: LeafChecks, steps: seq<Step>, p: Path)
    requires StepsOk(checks, steps) && Valid(steps, p)
    ensures RightAlone(checks, StepAt(steps, p).value)
    decreases p
  {
    var step := steps[p.index];
    PathOk(checks, steps, p.index);
    StepOkIff(checks, step);
    match p
    case Here(_) => RightAloneIff(checks, step);
    case InThen(_, inner) => RightEverywhere(checks, step.thenSteps, inner);
    case InElse(_, inner) => RightEverywhere(checks, step.elseSteps, inner);
    case InLoop(_, inner) => RightEverywhere(checks, step.steps, inner);
  }

  lemma {:induction false} AllRightIsOk(checks: LeafChecks, steps: seq<Step>)
    requires AllRight(checks, steps)
    ensures StepsOk(checks, steps)
    decreases steps, 2
  {
    if steps != [] {
      AllRightIsOkInStep(checks, steps);
      forall p | Valid(steps[1..], p)
        ensures RightAlone(checks, StepAt(steps[1..], p).value)
      {
        LaterIsInRest(steps, p);
        assert Valid(steps, Later(p));
      }
      AllRightIsOk(checks, steps[1..]);
    }
  }

  lemma {:induction false} AllRightIsOkInStep(checks: LeafChecks, steps: seq<Step>)
    requires steps != [] && AllRight(checks, steps)
    ensures StepOk(checks, steps[0])
    decreases steps, 1
  {
    var step := steps[0];
    assert Valid(steps, Here(0));
    RightAloneIff(checks, step);
    StepOkIff(checks, step);
    match step
    case Branch(_, _, _, thenSteps, elseSteps) =>
      assert forall p :: Valid(thenSteps, p) ==> Valid(steps, InThen(0, p));
      assert forall p :: Valid(elseSteps, p) ==> Valid(steps, InElse(0, p));
      AllRightIsOk(checks, thenSteps);
      AllRightIsOk(checks, elseSteps);
    case Loop(_, _, _, _, _, body, _) =>
      assert forall p :: Valid(body, p) ==> Valid(steps, InLoop(0, p));
      AllRightIsOk(checks, body);
    case _ =>
  }

  // The nesting depth.

  lemma {:induction false} LevelsWithinDepth(steps: seq<Step>, p: Path)
    requires Valid(steps, p)
    ensures Levels(p) <= Depth(steps)
    decreases steps
  {
    if p.index > 0 {
      EarlierIsInRest(steps, p);
      LevelsWithinDepth(steps[1..], Tail(p));
    } else {
      match p
      case Here(_) =>
      case InThen(_, inner) => LevelsWithinDepth(steps[0].thenSteps, inner);
      case InElse(_, inner) => LevelsWithinDepth(steps[0].elseSteps, inner);
      case InLoop(_, inner) => LevelsWithinDepth(steps[0].steps, inner);
    }
  }

  lemma {:induction false} DeepestPosition(steps: seq<Step>) returns (p: Path)
    requires steps != []
    ensures Valid(steps, p) && Levels(p) == Depth(steps)
    decreases steps
  {
    p := Here(0);
    match steps[0] {
      case Branch(_, _, _, thenSteps, elseSteps) =>
        if thenSteps != [] && Depth(thenSteps) >= Depth(elseSteps) {
          var inner := DeepestPosition(thenSteps);
          p := InThen(0, inner);
        } else if elseSteps != [] {
          var inner := DeepestPosition(elseSteps);
          p := InElse(0, inner);
        }
      case Loop(_, _, _, _, _, body, _) =>
        if body != [] {
          var inner := DeepestPosition(body);
          p := InLoop(0, inner);
        }
      case _ =>
    }
    if Depth(steps[1..]) > DepthStep(steps[0]) {
      var later := DeepestPosition(steps[1..]);
      LaterIsInRest(steps, later);
      p := Later(later);
    }
  }

  lemma DepthIff(steps: seq<Step>, n: nat)
    ensures Depth(steps) <= n <==> forall p | Valid(steps, p) :: Levels(p) <= n
  {
    forall p | Valid(steps, p)
      ensures Levels(p) <= Depth(steps)
    {
      LevelsWithinDepth(steps, p);
    }
    if steps != [] {
      var p := DeepestPosition(steps);
    }
  }

  // The number of steps.

  lemma {:induction false} ImageSize(positions: set<Path>, f: Path -> Path) returns (image: set<Path>)
    requires forall p, q :: f(p) == f(q) ==> p == q
    ensures forall q :: q in image <==> exists p :: p in positions && f(p) == q
    ensures |image| == |positions|
    decreases |positions|
  {
    image := {};
    if positions != {} {
      var p :| p in positions;
      var rest := ImageSize(positions - {p}, f);
      image := rest + {f(p)};
      forall q | q in image
        ensures exists p0 :: p0 in positions && f(p0) == q
      {
        assert q == f(p) || exists p0 :: p0 in positions - {p} && f(p0) == q;
      }
    }
  }

  /** The positions in the first step of a list. */
  ghost predicate InFirst(steps: seq<Step>, p: Path) { p.index == 0 && Valid(steps, p) }

  lemma {:induction false} PositionsOfList(steps: seq<Step>) returns (all: set<Path>)
    ensures forall p :: p in all <==> Valid(steps, p)
    ensures |all| == Count(steps)
    decreases steps, 2
  {
    all := {};
    if steps != [] {
      var first := PositionsOfFirst(steps);
      var rest := PositionsOfList(steps[1..]);
      var later := ImageSize(rest, Later);
      forall p | Valid(steps, p) && p.index > 0
        ensures p in later
      {
        EarlierIsInRest(steps, p);
        assert Tail(p) in rest && Later(Tail(p)) == p;
      }
      forall p | p in later
        ensures Valid(steps, p) && p.index > 0
      {
        var q :| q in rest && Later(q) == p;
        LaterIsInRest(steps, q);
      }
      all := first + later;
    }
  }

  lemma {:induction false} PositionsOfFirst(steps: seq<Step>) returns (all: set<Path>)
    requires steps != []
    ensures forall p :: p in all <==> InFirst(steps, p)
    ensures |all| == CountStep(steps[0])
    decreases steps, 1
  {
    match steps[0]
    case Branch(_, _, _, thenSteps, elseSteps) =>
      var a := PositionsOfList(thenSteps);
      var b := PositionsOfList(elseSteps);
      all := PositionsOfBranch(steps, a, b);
    case Loop(_, _, _, _, _, body, _) =>
      var a := PositionsOfList(body);
      all := PositionsOfLoop(steps, a);
    case _ =>
      all := {Here(0)};
      forall p | InFirst(steps, p)
        ensures p == Here(0)
      {
      }
  }

  lemma PositionsInThen(steps: seq<Step>, a: set<Path>) returns (image: set<Path>)
    requires steps != [] && steps[0].Branch?
    requires forall p :: p in a <==> Valid(steps[0].thenSteps, p)
    ensures forall p :: p in image <==> InFirst(steps, p) && p.InThen?
    ensures |image| == |a|
  {
    image := ImageSize(a, p => InThen(0, p));
    forall p | InFirst(steps, p) && p.InThen?
      ensures p in image
    {
      assert p.inner in a;
    }
  }

  lemma PositionsInElse(steps: seq<Step>, b: set<Path>) returns (image: set<Path>)
    requires steps != [] && steps[0].Branch?
    requires forall p :: p in b <==> Valid(steps[0].elseSteps, p)
    ensures forall p :: p in image <==> InFirst(steps, p) && p.InElse?
    ensures |image| == |b|
  {
    image := ImageSize(b, p => InElse(0, p));
    forall p | InFirst(steps, p) && p.InElse?
      ensures p in image
    {
      assert p.inner in b;
    }
  }

  lemma PositionsOfBranch(steps: seq<Step>, a: set<Path>, b: set<Path>) returns (all: set<Path>)
    requires steps != [] && steps[0].Branch?
    requires forall p :: p in a <==> Valid(steps[0].thenSteps, p)
    requires forall p :: p in b <==> Valid(steps[0].elseSteps, p)
    ensures forall p :: p in all <==> InFirst(steps, p)
    ensures |all| == 1 + |a| + |b|
  {
    var one := PositionsInThen(steps, a);
    var other := PositionsInElse(steps, b);
    assert InFirst(steps, Here(0)) && one !! other;
    all := {Here(0)} + (one + other);
  }

  lemma PositionsOfLoop(steps: seq<Step>, a: set<Path>) returns (all: set<Path>)
    requires steps != [] && steps[0].Loop?
    requires forall p :: p in a <==> Valid(steps[0].steps, p)
    ensures forall p :: p in all <==> InFirst(steps, p)
    ensures |all| == 1 + |a|
  {
    var inner := ImageSize(a, p => InLoop(0, p));
    assert Here(0) !in inner;
    all := {Here(0)} + inner;
    forall p | InFirst(steps, p)
      ensures p in all
    {
      assert p.InLoop? ==> p.inner in a;
    }
  }

  // Unique ids.

  /** No two positions share an id. */
  ghost predicate UniqueIds(steps: seq<Step>) {
    forall p, q | Valid(steps, p) && Valid(steps, q) && StepAt(steps, p).value.id == StepAt(steps, q).value.id :: p == q
  }

  lemma DistinctTogether(a: seq<string>, b: seq<string>)
    requires Distinct(a) && Distinct(b) && forall x <- a :: x !in b
    ensures Distinct(a + b)
  {
    forall i, j | 0 <= i < j < |a + b|
      ensures (a + b)[i] != (a + b)[j]
    {
      if i < |a| <= j {
        assert a[i] in a && b[j - |a|] in b;
      }
    }
  }

  lemma {:induction false} UniqueIdsAreDistinct(steps: seq<Step>)
    requires UniqueIds(steps)
    ensures Distinct(Ids(steps))
    decreases steps, 2
  {
    if steps != [] {
      UniqueIdsAreDistinctInStep(steps);
      forall p | Valid(steps[1..], p)
        ensures StepAt(steps, Later(p)) == StepAt(steps[1..], p)
      {
        LaterIsInRest(steps, p);
      }
      assert UniqueIds(steps[1..]) by {
        forall p, q | Valid(steps[1..], p) && Valid(steps[1..], q)
          && StepAt(steps[1..], p).value.id == StepAt(steps[1..], q).value.id
          ensures p == q
        {
          assert Later(p) == Later(q);
        }
      }
      UniqueIdsAreDistinct(steps[1..]);
      forall id <- StepIds(steps[0])
        ensures id !in Ids(steps[1..])
      {
        var p := PathOfIdInStep(steps, id);
        forall other <- Ids(steps[1..])
          ensures other != id
        {
          var q := PathOfId(steps[1..], other);
          FirstIsNotLater(steps, p, q);
        }
      }
      DistinctTogether(StepIds(steps[0]), Ids(steps[1..]));
    }
  }

  lemma FirstIsNotLater(steps: seq<Step>, p: Path, q: Path)
    requires UniqueIds(steps) && steps != [] && Valid(steps, p) && p.index == 0 && Valid(steps[1..], q)
    ensures StepAt(steps, p).value.id != StepAt(steps[1..], q).value.id
  {
    LaterIsInRest(steps, q);
    assert Valid(steps, Later(q)) && Later(q) != p;
  }

  lemma {:induction false} UniqueIdsAreDistinctInStep(steps: seq<Step>)
    requires steps != [] && UniqueIds(steps)
    ensures Distinct(StepIds(steps[0]))
    decreases steps, 1
  {
    var step := steps[0];
    assert Valid(steps, Here(0)) && StepAt(steps, Here(0)).value == step;
    match step
    case Branch(_, _, _, thenSteps, elseSteps) =>
      NestedUnique(steps, thenSteps, p => InThen(0, p));
      NestedUnique(steps, elseSteps, p => InElse(0, p));
      UniqueIdsAreDistinct(thenSteps);
      UniqueIdsAreDistinct(elseSteps);
      forall id <- Ids(thenSteps)
        ensures id !in Ids(elseSteps)
      {
        var p := PathOfId(thenSteps, id);
        forall other <- Ids(elseSteps)
          ensures other != id
        {
          var q := PathOfId(elseSteps, other);
          assert Valid(steps, InThen(0, p)) && Valid(steps, InElse(0, q)) && InThen(0, p) != InElse(0, q);
        }
      }
      DistinctTogether(Ids(thenSteps), Ids(elseSteps));
      DistinctTogether([step.id], Ids(thenSteps) + Ids(elseSteps));
    case Loop(_, _, _, _, _, body, _) =>
      NestedUnique(steps, body, p => InLoop(0, p));
      UniqueIdsAreDistinct(body);
      DistinctTogether([step.id], Ids(body));
    case _ =>
  }

  /** A nested list whose positions are positions of the whole has unique ids, none of them that of the first step. */
  lemma NestedUnique(steps: seq<Step>, nested: seq<Step>, f: Path -> Path)
    requires steps != [] && UniqueIds(steps)
    requires forall p, q :: f(p) == f(q) ==> p == q
    requires forall p | Valid(nested, p) :: StepAt(steps, f(p)) == StepAt(nested, p) && f(p) != Here(0)
    ensures UniqueIds(nested) && steps[0].id !in Ids(nested)
  {
    assert Valid(steps, Here(0)) && StepAt(steps, Here(0)).value == steps[0];
    forall p, q | Valid(nested, p) && Valid(nested, q) && StepAt(nested, p).value.id == StepAt(nested, q).value.id
      ensures p == q
    {
      assert Valid(steps, f(p)) && Valid(steps, f(q));
    }
    forall id <- Ids(nested)
      ensures id != steps[0].id
    {
      var p := PathOfId(nested, id);
      assert Valid(steps, f(p));
    }
  }

  lemma UniqueIdsIff(steps: seq<Step>)
    ensures Distinct(Ids(steps)) <==> UniqueIds(steps)
  {
    if Distinct(Ids(steps)) {
      forall p, q | Valid(steps, p) && Valid(steps, q) && StepAt(steps, p).value.id == StepAt(steps, q).value.id
        ensures p == q
      {
        SameIdSamePath(steps, p, q);
      }
    } else if UniqueIds(steps) {
      UniqueIdsAreDistinct(steps);
    }
  }

  lemma IdsPresentIff(steps: seq<Step>)
    ensures (forall i :: 0 <= i < |Ids(steps)| ==> !Blank(Ids(steps)[i]))
       <==> forall p | Valid(steps, p) :: !Blank(StepAt(steps, p).value.id)
  {
    forall p | Valid(steps, p)
      ensures StepAt(steps, p).value.id in Ids(steps)
    {
      IdAtPath(steps, p);
    }
    forall i | 0 <= i < |Ids(steps)|
      ensures exists p :: Valid(steps, p) && StepAt(steps, p).value.id == Ids(steps)[i]
    {
      var p := PathOfId(steps, Ids(steps)[i]);
    }
  }

  /**
   A flow is accepted exactly if its name is not blank and within 120 characters, it has steps where they are required,
   every step is right by itself, is at most eight levels deep and has an id that no other has, and there are at most
   500 of them.
   */
  lemma {:induction false} AcceptedIff(checks: LeafChecks, flow: Flow, requireSteps: bool) returns (all: set<Path>)
    ensures forall p :: p in all <==> Valid(flow.steps, p)
    ensures Accepted(checks, flow, requireSteps) <==>
      && (exists i :: 0 <= i < |flow.name| && !IsSpace(flow.name[i])) && |flow.name| <= 120
      && (requireSteps ==> flow.steps != [])
      && (forall p | Valid(flow.steps, p) ::
            RightAlone(checks, StepAt(flow.steps, p).value) && Levels(p) <= 8
            && !Blank(StepAt(flow.steps, p).value.id))
      && UniqueIds(flow.steps)
      && |all| <= 500
  {
    var steps := flow.steps;
    all := PositionsOfList(steps);
    assert Blank(flow.name) <==> forall i :: 0 <= i < |flow.name| ==> IsSpace(flow.name[i]);
    DepthIff(steps, 8);
    UniqueIdsIff(steps);
    IdsPresentIff(steps);
    if StepsOk(checks, steps) {
      forall p | Valid(steps, p)
        ensures RightAlone(checks, StepAt(steps, p).value)
      {
        RightEverywhere(checks, steps, p);
      }
    } else if AllRight(checks, steps) {
      AllRightIsOk(checks, steps);
    }
  }

  // What is reported.

  /** Before the position, in one of the lists around it, there is a request step. */
  predicate Asked(steps: seq<Step>, p: Path)
    requires Valid(steps, p)
    decreases p
  {
    || (exists j :: 0 <= j < p.index && steps[j].Request?)
    || match p
       case Here(_) => false
       case InThen(_, inner) => Asked(steps[p.index].thenSteps, inner)
       case InElse(_, inner) => Asked(steps[p.index].elseSteps, inner)
       case InLoop(_, inner) => Asked(steps[p.index].steps, inner)
  }

  /** The condition looks at a response, and there has been no request. */
  predicate AsksTooEarly(condition: Condition, asked: bool) {
    (condition.source == "status" || condition.source == "header" || condition.source == "bodyJsonPath") && !asked
  }

  /** What a step is reported for by itself. */
  predicate ReportedFor(checks: LeafChecks, step: Step, asked: bool, issue: Issue) {
    var id := Some(step.id);
    || (issue == Issue(Error, IdRequired, None) && Blank(step.id))
    || (issue == Issue(Error, NameRequired, id) && Blank(step.name))
    || (issue == Issue(Error, NameTooLong, id) && |step.name| > 120)
    || match step
       case Request(_, _, request, _, _) => issue in checks.request(request, step.id)
       case Delay(_, _, delayMs) =>
         || (issue == Issue(Error, DelayOutOfRange, id) && !Whole(delayMs, 0, 300000))
         || (issue == Issue(Warning, LongDelay, id) && delayMs == delayMs.Floor as real && delayMs > 30000.0)
       case Branch(_, _, condition, thenSteps, elseSteps) =>
         || issue in checks.condition(condition, step.id)
         || (issue == Issue(Warning, NeedsResponse, id) && AsksTooEarly(condition, asked))
         || (issue == Issue(Warning, EmptyBranches, id) && thenSteps == [] && elseSteps == [])
       case Loop(_, _, count, guard, mode, steps, max) =>
         || (issue == Issue(Warning, EmptyLoop, id) && steps == [])
         || (issue == Issue(Error, CountOutOfRange, id) && count.Some? && !Whole(count.value, 1, 1000))
         || (issue == Issue(Error, MaxIterationsOutOfRange, id) && max.Some? && !Whole(max.value, 1, 1000))
         || (issue == Issue(Warning, CountAboveMaxIterations, id)
             && count.Some? && max.Some? && count.value > max.value)
         || (guard.Some? && issue == Issue(Error, BadConditionMode, id) && mode != Some(While) && mode != Some(Until))
         || (guard.Some? && issue in checks.condition(guard.value, step.id))
         || (guard.Some? && issue == Issue(Warning, NeedsResponse, id) && AsksTooEarly(guard.value, asked))
         || (issue == Issue(Error, NoCap, id) && guard.None? && count.None? && max.None?)
  }

  /** Some step of a list is reported for it. */
  ghost predicate ReportedIn(checks: LeafChecks, steps: seq<Step>, hasPrevious: bool, issue: Issue) {
    exists p :: Valid(steps, p) && ReportedFor(checks, StepAt(steps, p).value, hasPrevious || Asked(steps, p), issue)
  }

  ghost predicate ReportedInFirst(checks: LeafChecks, steps: seq<Step>, hasPrevious: bool, issue: Issue) {
    exists p :: InFirst(steps, p)
      && ReportedFor(checks, StepAt(steps, p).value, hasPrevious || Asked(steps, p), issue)
  }

  ghost predicate ReportedInNested(checks: LeafChecks, step: Step, hasPrevious: bool, issue: Issue) {
    match step
    case Branch(_, _, _, thenSteps, elseSteps) =>
      ReportedIn(checks, thenSteps, hasPrevious, issue) || ReportedIn(checks, elseSteps, hasPrevious, issue)
    case Loop(_, _, _, _, _, steps, _) => ReportedIn(checks, steps, hasPrevious, issue)
    case _ => false
  }

  lemma AskedLater(steps: seq<Step>, p: Path)
    requires steps != [] && Valid(steps[1..], p)
    ensures Valid(steps, Later(p)) && Asked(steps, Later(p)) == (steps[0].Request? || Asked(steps[1..], p))
  {
    LaterIsInRest(steps, p);
    var (q, rest) := (Later(p), steps[1..]);
    assert rest[p.index] == steps[q.index];
    if exists j :: 0 <= j < q.index && steps[j].Request? {
      var j :| 0 <= j < q.index && steps[j].Request?;
      assert j > 0 ==> rest[j - 1].Request?;
    }
    if exists j :: 0 <= j < p.index && rest[j].Request? {
      var j :| 0 <= j < p.index && rest[j].Request?;
      assert steps[j + 1].Request?;
    }
    if steps[0].Request? {
      assert 0 < q.index && steps[0].Request?;
    }
  }

  lemma ReportedInList(checks: LeafChecks, steps: seq<Step>, hasPrevious: bool, issue: Issue)
    requires steps != []
    ensures ReportedIn(checks, steps, hasPrevious, issue) <==>
      || ReportedInFirst(checks, steps, hasPrevious, issue)
      || ReportedIn(checks, steps[1..], hasPrevious || steps[0].Request?, issue)
  {
    forall p | Valid(steps, p) && p.index > 0
      ensures Valid(steps[1..], Tail(p)) && StepAt(steps[1..], Tail(p)) == StepAt(steps, p)
      ensures Asked(steps, p) == (steps[0].Request? || Asked(steps[1..], Tail(p)))
    {
      EarlierIsInRest(steps, p);
      AskedLater(steps, Tail(p));
      assert Later(Tail(p)) == p;
    }
    forall p | Valid(steps[1..], p)
      ensures Valid(steps, Later(p)) && StepAt(steps, Later(p)) == StepAt(steps[1..], p)
      ensures Asked(steps, Later(p)) == (steps[0].Request? || Asked(steps[1..], p))
    {
      LaterIsInRest(steps, p);
      AskedLater(steps, p);
    }
  }

  lemma ReportedInStep(checks: LeafChecks, steps: seq<Step>, hasPrevious: bool, issue: Issue)
    requires steps != []
    ensures ReportedInFirst(checks, steps, hasPrevious, issue) <==>
      ReportedFor(checks, steps[0], hasPrevious, issue) || ReportedInNested(checks, steps[0], hasPrevious, issue)
  {
    assert InFirst(steps, Here(0)) && !Asked(steps, Here(0));
    match steps[0]
    case Branch(_, _, _, thenSteps, elseSteps) =>
      forall p | Valid(thenSteps, p)
        ensures InFirst(steps, InThen(0, p)) && Asked(steps, InThen(0, p)) == Asked(thenSteps, p)
      {
      }
      forall p | Valid(elseSteps, p)
        ensures InFirst(steps, InElse(0, p)) && Asked(steps, InElse(0, p)) == Asked(elseSteps, p)
      {
      }
    case Loop(_, _, _, _, _, body, _) =>
      forall p | Valid(body, p)
        ensures InFirst(steps, InLoop(0, p)) && Asked(steps, InLoop(0, p)) == Asked(body, p)
      {
      }
    case _ =>
  }

  // The walk reports exactly that, and the ids met again.

  /** The id is met again: seen before the list or earlier in it. */
  predicate Repeated(ids: seq<string>, seen: set<string>, id: string) {
    !Blank(id) && exists j :: 0 <= j < |ids| && ids[j] == id && (id in seen || id in ids[..j])
  }

  predicate NotUnique(ids: seq<string>, seen: set<string>, issue: Issue) {
    issue.level == Error && issue.problem == IdNotUnique && issue.stepId.Some?
    && Repeated(ids, seen, issue.stepId.value)
  }

  lemma RepeatedConcat(a: seq<string>, b: seq<string>, seen: set<string>, id: string)
    ensures Repeated(a + b, seen, id) <==> Repeated(a, seen, id) || Repeated(b, seen + Present(a), id)
  {
    if !Blank(id) {
      forall j | 0 <= j < |a|
        ensures (a + b)[j] == a[j] && (a + b)[..j] == a[..j]
      {
      }
      forall j | 0 <= j < |b|
        ensures (a + b)[|a| + j] == b[j] && (a + b)[..|a| + j] == a + b[..j]
      {
      }
      assert id in Present(a) <==> id in a;
      assert forall j :: 0 <= j < |b| ==> (id in a + b[..j] <==> id in a || id in b[..j]);
    }
  }

  lemma NotUniqueConcat(a: seq<string>, b: seq<string>, seen: set<string>, issue: Issue)
    ensures NotUnique(a + b, seen, issue) <==> NotUnique(a, seen, issue) || NotUnique(b, seen + Present(a), issue)
  {
    if issue.stepId.Some? {
      RepeatedConcat(a, b, seen, issue.stepId.value);
    }
  }

  lemma HeadReports(issues: seq<Issue>, step: Step, seen: set<string>, issue: Issue)
    ensures issue in WithHead(issues, step, seen) <==>
      || issue in issues
      || NotUnique([step.id], seen, issue)
      || (issue == Issue(Error, IdRequired, None) && Blank(step.id))
      || (issue == Issue(Error, NameRequired, Some(step.id)) && Blank(step.name))
      || (issue == Issue(Error, NameTooLong, Some(step.id)) && |step.name| > 120)
  {
    assert NotUnique([step.id], seen, issue) <==>
      issue == Issue(Error, IdNotUnique, Some(step.id)) && !Blank(step.id) && step.id in seen by {
      assert [step.id][0] == step.id && [step.id][..0] == [];
    }
  }

  lemma BoundsReport(issues: seq<Issue>, step: Step, issue: Issue)
    requires step.Loop?
    ensures issue in WithBounds(issues, step) <==>
      var (id, count, max) := (Some(step.id), step.count, step.maxIterations);
      || issue in issues
      || (issue == Issue(Warning, EmptyLoop, id) && step.steps == [])
      || (issue == Issue(Error, CountOutOfRange, id) && count.Some? && !Whole(count.value, 1, 1000))
      || (issue == Issue(Error, MaxIterationsOutOfRange, id) && max.Some? && !Whole(max.value, 1, 1000))
      || (issue == Issue(Warning, CountAboveMaxIterations, id) && count.Some? && max.Some? && count.value > max.value)
  {
  }

  lemma GuardReports(issues: seq<Issue>, checks: LeafChecks, step: Step, asked: bool, issue: Issue)
    requires step.Loop?
    ensures issue in WithGuard(issues, checks, step, asked) <==>
      var (id, guard, mode) := (Some(step.id), step.guard, step.mode);
      || issue in issues
      || (guard.Some? && issue == Issue(Error, BadConditionMode, id) && mode != Some(While) && mode != Some(Until))
      || (guard.Some? && issue in checks.condition(guard.value, step.id))
      || (guard.Some? && issue == Issue(Warning, NeedsResponse, id) && AsksTooEarly(guard.value, asked))
      || (issue == Issue(Error, NoCap, id) && guard.None? && step.count.None? && step.maxIterations.None?)
  {
  }

  lemma OwnReports(issues: seq<Issue>, checks: LeafChecks, step: Step, seen: set<string>, asked: bool, issue: Issue)
    ensures issue in WithOwn(WithHead(issues, step, seen), checks, step, asked) <==>
      issue in issues || NotUnique([step.id], seen, issue) || ReportedFor(checks, step, asked, issue)
  {
    var head := WithHead(issues, step, seen);
    HeadReports(issues, step, seen, issue);
    if step.Loop? {
      BoundsReport(head, step, issue);
      GuardReports(WithBounds(head, step), checks, step, asked, issue);
    }
  }

  /** What a list is reported for: its steps by themselves, and ids that are met again. */
  ghost predicate ReportedOf(checks: LeafChecks, steps: seq<Step>, seen: set<string>, hasPrevious: bool, issue: Issue) {
    ReportedIn(checks, steps, hasPrevious, issue) || NotUnique(Ids(steps), seen, issue)
  }

  lemma {:induction false} StepsReport(p: Progress, checks: LeafChecks, steps: seq<Step>, depth: nat, hasPrevious: bool,
                                       issue: Issue)
    requires 0 < depth <= p.deepest + 1
    ensures issue in AfterSteps(p, checks, steps, depth, hasPrevious).issues <==>
      issue in p.issues || ReportedOf(checks, steps, p.seen, hasPrevious, issue)
    decreases steps, 2
  {
    if steps != [] {
      var q, more := AfterStep(p, checks, steps[0], depth, hasPrevious), hasPrevious || steps[0].Request?;
      StepReports(p, checks, steps[0], depth, hasPrevious, issue);
      StepAddsUp(p, checks, steps[0], depth, hasPrevious);
      StepsReport(q, checks, steps[1..], depth, more, issue);
      ReportedInList(checks, steps, hasPrevious, issue);
      ReportedInStep(checks, steps, hasPrevious, issue);
      NotUniqueConcat(StepIds(steps[0]), Ids(steps[1..]), p.seen, issue);
    }
  }

  lemma {:induction false} StepReports(p: Progress, checks: LeafChecks, step: Step, depth: nat, hasPrevious: bool,
                                       issue: Issue)
    requires 0 < depth <= p.deepest + 1
    ensures issue in AfterStep(p, checks, step, depth, hasPrevious).issues <==>
      || issue in p.issues || ReportedFor(checks, step, hasPrevious, issue)
      || ReportedInNested(checks, step, hasPrevious, issue) || NotUnique(StepIds(step), p.seen, issue)
    decreases step, 1
  {
    var own := AfterOwn(AfterHead(p, step, depth), checks, step, hasPrevious);
    OwnReports(p.issues, checks, step, p.seen, hasPrevious, issue);
    NestedReport(own, checks, step, depth, hasPrevious, issue);
    NotUniqueConcat([step.id], NestedIds(step), p.seen, issue);
    StepParts(step);
  }

  lemma {:induction false} NestedReport(p: Progress, checks: LeafChecks, step: Step, depth: nat, hasPrevious: bool,
                                        issue: Issue)
    requires 0 < depth <= p.deepest
    ensures issue in AfterNested(p, checks, step, depth, hasPrevious).issues <==>
      || issue in p.issues
      || ReportedInNested(checks, step, hasPrevious, issue) || NotUnique(NestedIds(step), p.seen, issue)
    decreases step, 0
  {
    match step
    case Branch(_, _, _, thenSteps, elseSteps) =>
      var q := AfterSteps(p, checks, thenSteps, depth + 1, hasPrevious);
      StepsReport(p, checks, thenSteps, depth + 1, hasPrevious, issue);
      StepsAddUp(p, checks, thenSteps, depth + 1, hasPrevious);
      StepsReport(q, checks, elseSteps, depth + 1, hasPrevious, issue);
      NotUniqueConcat(Ids(thenSteps), Ids(elseSteps), p.seen, issue);
    case Loop(_, _, _, _, _, steps, _) =>
      StepsReport(p, checks, steps, depth + 1, hasPrevious, issue);
    case _ =>
  }

  /** Two ids are equal and present, and reported for it. */
  predicate TwiceAt(ids: seq<string>, i: int, j: int, issue: Issue) {
    0 <= i < j < |ids| && ids[i] == ids[j] && !Blank(ids[i]) && issue == Issue(Error, IdNotUnique, Some(ids[i]))
  }

  /** What is reported about the flow as a whole. */
  ghost predicate ReportedForFlow(flow: Flow, requireSteps: bool, all: set<Path>, issue: Issue) {
    || (issue == Issue(Error, FlowNameRequired, None) && Blank(flow.name))
    || (issue == Issue(Error, FlowNameTooLong, None) && |flow.name| > 120)
    || (issue == Issue(if requireSteps then Error else Warning, NoSteps, None) && flow.steps == [])
    || (issue == Issue(Error, TooManySteps, None) && |all| > 500)
    || (issue == Issue(Error, TooDeep, None) && exists p :: Valid(flow.steps, p) && Levels(p) > 8)
  }

  /**
   The validator reports exactly what the flow as a whole, one of its steps by itself or two steps with one id are to be
   reported for, errors as well as warnings.
   */
  lemma {:induction false} ReportedIff(checks: LeafChecks, flow: Flow, requireSteps: bool, issue: Issue)
    returns (all: set<Path>)
    ensures forall p :: p in all <==> Valid(flow.steps, p)
    ensures issue in FlowIssues(checks, flow, requireSteps) <==>
      || ReportedForFlow(flow, requireSteps, all, issue)
      || (exists p :: Valid(flow.steps, p)
            && ReportedFor(checks, StepAt(flow.steps, p).value, Asked(flow.steps, p), issue))
      || (exists i, j :: TwiceAt(Ids(flow.steps), i, j, issue))
  {
    all := PositionsOfList(flow.steps);
    FlowHeadReports(flow, requireSteps, issue);
    ReportedByWalk(checks, flow, requireSteps, issue);
    DepthIff(flow.steps, 8);
    RepeatedAtTop(Ids(flow.steps), issue);
    ReportedAtTop(checks, flow.steps, issue);
  }

  lemma ReportedAtTop(checks: LeafChecks, steps: seq<Step>, issue: Issue)
    ensures ReportedIn(checks, steps, false, issue) <==>
      exists p :: Valid(steps, p) && ReportedFor(checks, StepAt(steps, p).value, Asked(steps, p), issue)
  {
  }

  lemma FlowHeadReports(flow: Flow, requireSteps: bool, issue: Issue)
    ensures issue in FlowHeadIssues(flow, requireSteps) <==>
      || (issue == Issue(Error, FlowNameRequired, None) && Blank(flow.name))
      || (issue == Issue(Error, FlowNameTooLong, None) && |flow.name| > 120)
      || (issue == Issue(if requireSteps then Error else Warning, NoSteps, None) && flow.steps == [])
  {
  }

  lemma ReportedByWalk(checks: LeafChecks, flow: Flow, requireSteps: bool, issue: Issue)
    ensures issue in FlowIssues(checks, flow, requireSteps) <==>
      || issue in FlowHeadIssues(flow, requireSteps)
      || (issue == Issue(Error, TooManySteps, None) && Count(flow.steps) > 500)
      || (issue == Issue(Error, TooDeep, None) && Depth(flow.steps) > 8)
      || ReportedIn(checks, flow.steps, false, issue) || NotUnique(Ids(flow.steps), {}, issue)
  {
    var steps, start := flow.steps, Progress(FlowHeadIssues(flow, requireSteps), {}, 0, 0);
    StepsReport(start, checks, steps, 1, false, issue);
    StepsAddUp(start, checks, steps, 1, false);
    var after := AfterSteps(start, checks, steps, 1, false);
    AddedReports(after.issues, after.total > 500, Error, TooManySteps, issue);
    AddedReports(Added(after.issues, after.total > 500, Error, TooManySteps, None), after.deepest > 8, Error, TooDeep,
                 issue);
  }

  lemma AddedReports(issues: seq<Issue>, when: bool, level: Level, problem: Problem, issue: Issue)
    ensures issue in Added(issues, when, level, problem, None) <==>
      issue in issues || (issue == Issue(level, problem, None) && when)
  {
  }

  lemma RepeatedAtTop(ids: seq<string>, issue: Issue)
    ensures NotUnique(ids, {}, issue) <==> exists i, j :: TwiceAt(ids, i, j, issue)
  {
    if NotUnique(ids, {}, issue) {
      var id := issue.stepId.value;
      var j :| 0 <= j < |ids| && ids[j] == id && id in ids[..j];
      var i :| 0 <= i < j && ids[..j][i] == id;
      assert TwiceAt(ids, i, j, issue);
    }
    if i, j :| TwiceAt(ids, i, j, issue) {
      assert ids[..j][i] == ids[i];
    }
  }
}
