/**
 The changes the differ reports turn the left value into the right one when they are applied in a fitting order: an
 item is added after the one on its left and removed after the one on its right. Nothing else about the order matters.
 */
module JsonPatchOrder {
  import opened Options
  import opened Seqs
  import opened JsonDiff
  import opened JsonPatch

  // What a change says of the left value.

  predicate Grounded(left: Json, c: Change) {
    match c
    case Add(p, v) => p != [] && At(left, p).None? && WellFormed(v)
    case Remove(p, o) => p != [] && At(left, p) == Some(o)
    case Replace(p, o, v) => At(left, p) == Some(o) && WellFormed(v)
  }

  lemma GroundedUnder(v: Json, right: Option<Json>, e: Elem, d: Change)
    requires d in Slot(Child(v, e), right)
    requires right.Some? ==> WellFormed(right.value)
    requires Child(v, e).Some? && right.Some? ==> Grounded(Child(v, e).value, d)
    ensures Grounded(v, Under([e], d))
  {
    AtStep(v, e, d.path);
  }

  lemma {:induction false} ItemChange(left: seq<Json>, right: seq<Json>, i: nat, c: Change) returns (k: nat, d: Change)
    requires c in CompareItems(left, right, [], i)
    ensures d in Slot(Item(left, k), Item(right, k)) && c == Under([Index(k)], d)
    decreases Longer(left, right) - i
  {
    FirstItemSlot(left, right, i);
    var slot := Slot(Item(left, i), Item(right, i));
    var first := AllUnder([Index(i)], slot);
    if c in first {
      var j :| 0 <= j < |first| && first[j] == c;
      k, d := i, slot[j];
    } else {
      k, d := ItemChange(left, right, i + 1, c);
    }
  }

  lemma {:induction false} FieldChange(left: seq<Field>, right: seq<Field>, keys: seq<string>, c: Change)
    returns (k: string, d: Change)
    requires c in CompareFields(left, right, keys, [])
    ensures d in Slot(FieldValue(left, k), FieldValue(right, k)) && c == Under([Key(k)], d)
  {
    FirstFieldSlot(left, right, keys);
    var slot := Slot(FieldValue(left, keys[0]), FieldValue(right, keys[0]));
    var first := AllUnder([Key(keys[0])], slot);
    if c in first {
      var j :| 0 <= j < |first| && first[j] == c;
      k, d := keys[0], slot[j];
    } else {
      k, d := FieldChange(left, right, keys[1..], c);
    }
  }

  lemma {:induction false} ChangesAreGrounded(left: Json, right: Json, c: Change)
    requires WellFormed(left) && WellFormed(right) && c in Compare(left, right, [])
    ensures Grounded(left, c)
    decreases left
  {
    if left.Array? && right.Array? {
      var k, d := ItemChange(left.items, right.items, 0, c);
      if k < |left.items| && k < |right.items| {
        ChangesAreGrounded(left.items[k], right.items[k], d);
      }
      GroundedUnder(left, Item(right.items, k), Index(k), d);
    } else if left.Object? && right.Object? {
      var k, d := FieldChange(left.fields, right.fields, UnionKeys(left.fields, right.fields), c);
      var l, r := Position(left.fields, k), Position(right.fields, k);
      if l >= 0 && r >= 0 {
        ChangesAreGrounded(left.fields[l].value, right.fields[r].value, d);
      }
      GroundedUnder(left, FieldValue(right.fields, k), Key(k), d);
    }
  }

  // The order of the list.

  /** Two places of one array, the second right after the first. */
  predicate LeftOf(p: Path, q: Path) {
    && p != [] && q != [] && Front(p) == Front(q)
    && Last(p).Index? && Last(q).Index? && Last(p).index + 1 == Last(q).index
  }

  /** The first change has to be made before the second can. */
  predicate Precedes(a: Change, b: Change) {
    || (a.Add? && b.Add? && LeftOf(a.path, b.path))
    || (a.Remove? && b.Remove? && LeftOf(b.path, a.path))
  }

  predicate Allowed(order: seq<Change>) {
    forall i, j :: 0 <= i < j < |order| ==> !Precedes(order[j], order[i])
  }

  /** Items of an array come from left to right. */
  predicate LeftToRight(cs: seq<Change>) {
    forall i, j :: 0 <= i < j < |cs| ==> !LeftOf(cs[j].path, cs[i].path)
  }

  lemma LeftOfUnder(e: Elem, p: Path, q: Path)
    requires p != [] && q != []
    ensures LeftOf([e] + p, [e] + q) <==> LeftOf(p, q)
  {
    assert Front([e] + p) == [e] + Front(p) && Front([e] + q) == [e] + Front(q);
    if Front([e] + p) == Front([e] + q) {
      assert Front(p) == Front([e] + p)[1..];
      assert Front(q) == Front([e] + q)[1..];
    }
  }

  lemma NotLeftOfFirst(p: Path, q: Path)
    requires p != [] && q != [] && p[0] != q[0]
    requires p[0].Index? && q[0].Index? ==> q[0].index < p[0].index
    ensures !LeftOf(p, q)
  {
    if |p| > 1 && |q| > 1 {
      assert Front(p)[0] == p[0] && Front(q)[0] == q[0];
    }
  }

  predicate AfterElem(e: Elem, f: Elem) {
    e != f && (e.Index? && f.Index? ==> e.index < f.index)
  }

  lemma RestIsRight(e: Elem, cs: seq<Change>, rest: seq<Change>, i: nat, j: nat)
    requires StartWith(rest, (f: Elem) => AfterElem(e, f))
    requires i < |cs| && j < |rest|
    ensures !LeftOf(rest[j].path, Under([e], cs[i]).path)
  {
    assert ((f: Elem) => AfterElem(e, f))(rest[j].path[0]);
    NotLeftOfFirst(rest[j].path, Under([e], cs[i]).path);
  }

  lemma RootIsAlone(cs: seq<Change>, i: nat, j: nat)
    requires Separate(cs) && i < j < |cs|
    ensures cs[i].path != [] && cs[j].path != []
  {
    assert Apart(cs[i], cs[j]);
  }

  lemma LeftToRightUnder(e: Elem, cs: seq<Change>, rest: seq<Change>)
    requires LeftToRight(cs) && Separate(cs) && LeftToRight(rest) && StartWith(rest, (f: Elem) => AfterElem(e, f))
    ensures LeftToRight(AllUnder([e], cs) + rest)
  {
    var all, n := AllUnder([e], cs) + rest, |cs|;
    forall i, j | 0 <= i < j < |all|
      ensures !LeftOf(all[j].path, all[i].path)
    {
      if j < n {
        RootIsAlone(cs, i, j);
        LeftOfUnder(e, cs[j].path, cs[i].path);
      } else if i < n {
        RestIsRight(e, cs, rest, i, j - n);
      }
    }
  }

  lemma SlotIsSeparate(left: Option<Json>, right: Option<Json>)
    requires left.Some? ==> WellFormed(left.value)
    requires right.Some? ==> WellFormed(right.value)
    ensures Separate(Slot(left, right))
  {
    if left.Some? && right.Some? {
      ChangesDoNotOverlap(left.value, right.value);
    }
  }

  lemma {:induction false} ItemsLeftToRight(left: seq<Json>, right: seq<Json>, i: nat)
    requires WellFormed(Array(left)) && WellFormed(Array(right))
    ensures LeftToRight(CompareItems(left, right, [], i))
    decreases left, 0, Longer(left, right) - i
  {
    if i < Longer(left, right) {
      FirstItemSlot(left, right, i);
      SlotIsSeparate(Item(left, i), Item(right, i));
      if i < |left| && i < |right| {
        ListedLeftToRight(left[i], right[i]);
      }
      ItemsLeftToRight(left, right, i + 1);
      ItemsStart(left, right, i + 1);
      LeftToRightUnder(Index(i), Slot(Item(left, i), Item(right, i)), CompareItems(left, right, [], i + 1));
    }
  }

  lemma {:induction false} FieldsLeftToRight(left: seq<Field>, right: seq<Field>, keys: seq<string>)
    requires WellFormed(Object(left)) && WellFormed(Object(right))
    requires forall i, j | 0 <= i < j < |keys| :: keys[i] != keys[j]
    ensures LeftToRight(CompareFields(left, right, keys, []))
    decreases left, 0, |keys|
  {
    if keys != [] {
      var k := keys[0];
      var l, r := Position(left, k), Position(right, k);
      FirstFieldSlot(left, right, keys);
      SlotIsSeparate(FieldValue(left, k), FieldValue(right, k));
      if l >= 0 && r >= 0 {
        ListedLeftToRight(left[l].value, right[r].value);
      }
      FieldsLeftToRight(left, right, keys[1..]);
      FieldsStart(left, right, keys[1..]);
      LeftToRightUnder(Key(k), Slot(FieldValue(left, k), FieldValue(right, k)),
                       CompareFields(left, right, keys[1..], []));
    }
  }

  lemma {:induction false} ListedLeftToRight(left: Json, right: Json)
    requires WellFormed(left) && WellFormed(right)
    ensures LeftToRight(Compare(left, right, []))
    decreases left, 1
  {
    if left == right {
    } else if left.Array? && right.Array? {
      assert Array(left.items) == left && Array(right.items) == right;
      ItemsLeftToRight(left.items, right.items, 0);
    } else if left.Object? && right.Object? {
      assert Object(left.fields) == left && Object(right.fields) == right;
      DistinctUnion(left.fields, right.fields);
      FieldsLeftToRight(left.fields, right.fields, UnionKeys(left.fields, right.fields));
    }
  }

  // A permutation of the list says the same.

  lemma {:induction false} CoveringIs(cs: seq<Change>, c: Change, p: Path)
    requires Separate(cs) && c in cs && c.path <= p
    ensures Covering(cs, p) == Some(c)
  {
    var i :| 0 <= i < |cs| && cs[i] == c;
    if i > 0 {
      assert Apart(cs[0], cs[i]);
      if cs[0].path <= p {
        PrefixesAreComparable(cs[0].path, c.path, p);
      } else {
        CoveringIs(cs[1..], c, p);
      }
    }
  }

  lemma {:induction false} CoveringIsListed(cs: seq<Change>, p: Path)
    ensures Covering(cs, p).Some? ==> Covering(cs, p).value in cs && Covering(cs, p).value.path <= p
  {
    if cs != [] {
      CoveringIsListed(cs[1..], p);
    }
  }

  lemma SameChangesCoverTheSame(cs: seq<Change>, order: seq<Change>, p: Path)
    requires Separate(cs) && Separate(order) && forall c :: c in cs <==> c in order
    ensures Covering(cs, p) == Covering(order, p)
  {
    CoveringIsListed(cs, p);
    CoveringIsListed(order, p);
    if Covering(cs, p).Some? {
      CoveringIs(order, Covering(cs, p).value, p);
    } else if Covering(order, p).Some? {
      CoveringIs(cs, Covering(order, p).value, p);
    }
  }

  lemma TwiceInMultiset<T>(s: seq<T>, i: nat, j: nat)
    requires i < j < |s| && s[i] == s[j]
    ensures multiset(s)[s[i]] >= 2
  {
    assert s == s[..j] + s[j..];
    assert s[i] in multiset(s[..j]) && s[j] in multiset(s[j..]) by {
      assert s[..j][i] == s[i] && s[j..][0] == s[j];
    }
  }

  lemma SeparateAreDistinct(cs: seq<Change>)
    requires Separate(cs)
    ensures forall i, j | 0 <= i < j < |cs| :: cs[i] != cs[j]
  {
    forall i, j | 0 <= i < j < |cs|
      ensures cs[i] != cs[j]
    {
      assert Apart(cs[i], cs[j]);
    }
  }

  lemma PermutedIsSeparate(cs: seq<Change>, order: seq<Change>)
    requires Separate(cs) && multiset(order) == multiset(cs)
    ensures forall c :: c in cs <==> c in order
    ensures Separate(order)
  {
    forall c
      ensures c in cs <==> c in order
    {
      assert c in cs <==> c in multiset(cs);
    }
    SeparateAreDistinct(cs);
    forall i, j | 0 <= i < j < |order|
      ensures Apart(order[i], order[j])
    {
      if order[i] == order[j] {
        TwiceInMultiset(order, i, j);
        CountInDistinct(cs, order[i]);
        assert false;
      }
      assert order[i] in cs && order[j] in cs;
      var x :| 0 <= x < |cs| && cs[x] == order[i];
      var y :| 0 <= y < |cs| && cs[y] == order[j];
      assert if x < y then Apart(cs[x], cs[y]) else Apart(cs[y], cs[x]);
    }
  }

  /** The changes do not overlap, say what the left value is and read together as the right one. */
  ghost predicate IsPatch(left: Json, order: seq<Change>, right: Json) {
    && Separate(order)
    && (forall c <- order :: Grounded(left, c))
    && forall p :: PatchedView(Some(left), order, p) == View(right, p)
  }

  lemma PermutedIsPatch(left: Json, right: Json, order: seq<Change>)
    requires WellFormed(left) && WellFormed(right) && multiset(order) == multiset(Compare(left, right, []))
    ensures IsPatch(left, order, right)
  {
    var cs := Compare(left, right, []);
    ChangesDoNotOverlap(left, right);
    PermutedIsSeparate(cs, order);
    forall c | c in order
      ensures Grounded(left, c)
    {
      ChangesAreGrounded(left, right, c);
    }
    forall p
      ensures PatchedView(Some(left), order, p) == View(right, p)
    {
      SameChangesCoverTheSame(cs, order, p);
      PatchReadsAsRight(left, right, p);
    }
  }

  // Which change can come next.

  lemma {:induction false} AtSplit(v: Json, a: Path, b: Path)
    ensures At(v, a + b) == match At(v, a) case Some(x) => At(x, b) case None => None
  {
    if a == [] {
      assert a + b == b;
    } else {
      assert a + b == [a[0]] + (a[1..] + b) && a == [a[0]] + a[1..];
      AtStep(v, a[0], a[1..] + b);
      AtStep(v, a[0], a[1..]);
      if Child(v, a[0]).Some? {
        AtSplit(Child(v, a[0]).value, a[1..], b);
      }
    }
  }

  lemma AtLast(v: Json, p: Path)
    requires p != []
    ensures At(v, p) == match At(v, Front(p)) case Some(x) => Child(x, Last(p)) case None => None
  {
    assert p == Front(p) + [Last(p)];
    AtSplit(v, Front(p), [Last(p)]);
    if At(v, Front(p)).Some? {
      AtOneStep(At(v, Front(p)).value, Last(p));
    }
  }

  /** An array has every item to the left of one it has. */
  lemma ItemsHaveNoGaps(v: Json, p: Path, q: Path)
    requires LeftOf(p, q) && At(v, q).Some?
    ensures At(v, p).Some?
  {
    AtLast(v, p);
    AtLast(v, q);
  }

  /** The state a run of the first changes leaves, with the next one at hand. */
  ghost predicate Midway(left: Json, right: Json, order: seq<Change>, k: nat, v: Json) {
    && WellFormed(left) && WellFormed(right) && IsPatch(left, order, right)
    && k < |order| && ApplyAll(left, order[..k]) == Some(v)
  }

  lemma ReadsAsDone(left: Json, right: Json, order: seq<Change>, k: nat, v: Json, p: Path)
    requires Midway(left, right, order, k, v)
    ensures View(v, p) == PatchedView(Some(left), order[..k], p)
  {
    assert forall c <- order[..k] :: Grounded(left, c);
    assert Separate(order[..k]);
    AppliedReadsAsPatch(left, order[..k], p);
  }

  lemma NextIsUntouched(left: Json, right: Json, order: seq<Change>, k: nat, v: Json)
    requires Midway(left, right, order, k, v)
    ensures At(v, order[k].path) == At(left, order[k].path)
  {
    assert forall c <- order[..k] :: Grounded(left, c);
    forall c | c in order[..k]
      ensures Apart(c, order[k])
    {
      var i :| 0 <= i < k && order[i] == c;
    }
    UntouchedStays(left, order[..k], order[k].path);
  }

  lemma PrefixOfFront(a: Path, p: Path)
    requires p != []
    ensures a <= Front(p) ==> a <= p && a != p
  {
  }

  lemma ParentIsNotCovered(order: seq<Change>, k: nat, p: Path)
    requires Separate(order) && k < |order| && order[k].path != [] && p <= Front(order[k].path)
    ensures forall c <- order :: !(c.path <= p)
  {
    forall c | c in order
      ensures !(c.path <= p)
    {
      var i :| 0 <= i < |order| && order[i] == c;
      assert i < k ==> Apart(order[i], order[k]);
      assert k < i ==> Apart(order[k], order[i]);
      PrefixOfFront(c.path, order[k].path);
    }
  }

  lemma ParentReadsTheSame(left: Json, right: Json, order: seq<Change>, k: nat, v: Json)
    requires Midway(left, right, order, k, v) && order[k].path != []
    ensures View(v, Front(order[k].path)) == View(right, Front(order[k].path))
  {
    var p := Front(order[k].path);
    ParentIsNotCovered(order, k, p);
    NotCovered(order, p);
    NotCovered(order[..k], p);
    ReadsAsDone(left, right, order, k, v, p);
    assert PatchedView(Some(left), order, p) == View(right, p);
  }

  lemma NextReadsAsRight(left: Json, right: Json, order: seq<Change>, k: nat)
    requires IsPatch(left, order, right) && k < |order|
    ensures View(right, order[k].path) == NewView(order[k], order[k].path)
  {
    CoveringIs(order, order[k], order[k].path);
    assert PatchedView(Some(left), order, order[k].path) == View(right, order[k].path);
  }

  lemma NextIsFound(left: Json, right: Json, order: seq<Change>, k: nat, v: Json)
    requires Midway(left, right, order, k, v)
    ensures Found(v, order[k].path, order[k])
  {
    var c := order[k];
    assert Grounded(left, c);
    NextIsUntouched(left, right, order, k, v);
    if c.Add? {
      ParentReadsTheSame(left, right, order, k, v);
      NextReadsAsRight(left, right, order, k);
      AtLast(right, c.path);
    }
  }

  /** A later change at a place adds or removes the value there. */
  ghost predicate Waits(order: seq<Change>, k: nat, q: Path, adds: bool) {
    exists j :: k < j < |order| && order[j].path == q && (if adds then order[j].Add? else order[j].Remove?)
  }

  lemma BesideOrAbove(p: Path, q: Path)
    requires q != []
    ensures p <= q ==> p == q || p <= Front(q)
  {
    if p <= q && p != q {
      assert p == q[..|p|] == Front(q)[..|p|];
    }
  }

  /** A place beside the next change is covered by a change exactly there or by none. */
  lemma CoveredBeside(order: seq<Change>, k: nat, q: Path)
    requires Separate(order) && k < |order| && order[k].path != []
    requires q != [] && Front(q) == Front(order[k].path)
    ensures forall c <- order :: c.path <= q ==> c.path == q
  {
    ParentIsNotCovered(order, k, Front(q));
    forall c | c in order
      ensures c.path <= q ==> c.path == q
    {
      BesideOrAbove(c.path, q);
    }
  }

  lemma ChangeBeside(left: Json, right: Json, order: seq<Change>, j: nat)
    requires IsPatch(left, order, right) && j < |order|
    ensures View(right, order[j].path).Some? == !order[j].Remove?
    ensures View(left, order[j].path).Some? == !order[j].Add?
  {
    NextReadsAsRight(left, right, order, j);
    assert Grounded(left, order[j]);
  }

  lemma DoneOrNot(left: Json, right: Json, order: seq<Change>, k: nat, v: Json, j: nat)
    requires Midway(left, right, order, k, v) && j < |order| && j != k
    requires forall c <- order :: c.path <= order[j].path ==> c.path == order[j].path
    ensures View(v, order[j].path) == if j < k then View(right, order[j].path) else View(left, order[j].path)
  {
    var done, q := order[..k], order[j].path;
    ReadsAsDone(left, right, order, k, v, q);
    NextReadsAsRight(left, right, order, j);
    assert Separate(done);
    if j < k {
      assert done[j] == order[j];
      CoveringIs(done, order[j], q);
    } else {
      forall c | c in done
        ensures !(c.path <= q)
      {
        var i :| 0 <= i < k && order[i] == c;
        assert Apart(order[i], order[j]);
      }
      NotCovered(done, q);
    }
  }

  lemma OnlyChangeThere(order: seq<Change>, j: nat)
    requires Separate(order) && j < |order|
    ensures forall i | 0 <= i < |order| && i != j :: order[i].path != order[j].path
  {
    forall i | 0 <= i < |order| && i != j
      ensures order[i].path != order[j].path
    {
      assert if i < j then Apart(order[i], order[j]) else Apart(order[j], order[i]);
    }
  }

  lemma ChangedNeighbour(left: Json, right: Json, order: seq<Change>, k: nat, v: Json, j: nat, adds: bool)
    requires Midway(left, right, order, k, v) && j < |order| && j != k && order[k].path != [] && order[j].path != []
    requires Front(order[j].path) == Front(order[k].path) && View(right, order[j].path).Some? == adds
    ensures View(v, order[j].path).Some? == adds <==> !Waits(order, k, order[j].path, adds)
  {
    CoveredBeside(order, k, order[j].path);
    DoneOrNot(left, right, order, k, v, j);
    ChangeBeside(left, right, order, j);
    OnlyChangeThere(order, j);
  }

  lemma UnchangedNeighbour(left: Json, right: Json, order: seq<Change>, k: nat, v: Json, q: Path)
    requires Midway(left, right, order, k, v) && order[k].path != [] && q != []
    requires Front(q) == Front(order[k].path) && forall c <- order :: c.path != q
    ensures View(v, q) == View(right, q)
  {
    CoveredBeside(order, k, q);
    NotCovered(order, q);
    NotCovered(order[..k], q);
    ReadsAsDone(left, right, order, k, v, q);
    assert PatchedView(Some(left), order, q) == View(right, q);
  }

  lemma Neighbour(left: Json, right: Json, order: seq<Change>, k: nat, v: Json, q: Path, adds: bool)
    requires Midway(left, right, order, k, v) && order[k].path != [] && q != [] && q != order[k].path
    requires Front(q) == Front(order[k].path) && View(right, q).Some? == adds
    ensures At(v, q).Some? == adds <==> !Waits(order, k, q, adds)
  {
    if c :| c in order && c.path == q {
      var j :| 0 <= j < |order| && order[j] == c;
      ChangedNeighbour(left, right, order, k, v, j, adds);
    } else {
      UnchangedNeighbour(left, right, order, k, v, q);
    }
  }

  lemma LeftOfIs(p: Path, q: Path, n: nat)
    requires p != [] && q != [] && Last(q) == Index(n)
    ensures LeftOf(p, q) <==> n > 0 && p == Beside(q, n - 1)
    ensures LeftOf(q, p) <==> p == Beside(q, n + 1)
  {
    assert p == Front(p) + [Last(p)];
  }

  predicate PrecededLater(order: seq<Change>, k: nat)
    requires k < |order|
  {
    exists j :: k < j < |order| && Precedes(order[j], order[k])
  }

  lemma AddsWait(left: Json, right: Json, order: seq<Change>, k: nat, n: nat)
    requires IsPatch(left, order, right) && k < |order| && order[k].Add?
    requires order[k].path != [] && Last(order[k].path) == Index(n)
    ensures PrecededLater(order, k) <==> n > 0 && Waits(order, k, Beside(order[k].path, n - 1), true)
  {
    forall j | k < j < |order| && order[j].Add?
      ensures Precedes(order[j], order[k]) <==> n > 0 && order[j].path == Beside(order[k].path, n - 1)
    {
      assert Grounded(left, order[j]);
      LeftOfIs(order[j].path, order[k].path, n);
    }
  }

  lemma RemovesWait(left: Json, right: Json, order: seq<Change>, k: nat, n: nat)
    requires IsPatch(left, order, right) && k < |order| && order[k].Remove?
    requires order[k].path != [] && Last(order[k].path) == Index(n)
    ensures PrecededLater(order, k) <==> Waits(order, k, Beside(order[k].path, n + 1), false)
  {
    forall j | k < j < |order| && order[j].Remove?
      ensures Precedes(order[j], order[k]) <==> order[j].path == Beside(order[k].path, n + 1)
    {
      assert Grounded(left, order[j]);
      LeftOfIs(order[j].path, order[k].path, n);
    }
  }

  lemma AddAtEnd(left: Json, right: Json, order: seq<Change>, k: nat, v: Json)
    requires Midway(left, right, order, k, v) && order[k].Add?
    ensures AtEnd(v, order[k].path, order[k]) <==> !PrecededLater(order, k)
  {
    var p := order[k].path;
    assert Grounded(left, order[k]);
    if Last(p).Index? {
      var n := Last(p).index;
      AddsWait(left, right, order, k, n);
      if n > 0 {
        var q := Beside(p, n - 1);
        LeftOfIs(q, p, n);
        NextReadsAsRight(left, right, order, k);
        ItemsHaveNoGaps(right, q, p);
        Neighbour(left, right, order, k, v, q, true);
      }
    }
  }

  lemma RightHasNone(left: Json, right: Json, order: seq<Change>, k: nat, n: nat)
    requires IsPatch(left, order, right) && k < |order| && order[k].Remove?
    requires order[k].path != [] && Last(order[k].path) == Index(n)
    ensures View(right, Beside(order[k].path, n + 1)).None?
  {
    var p, q := order[k].path, Beside(order[k].path, n + 1);
    LeftOfIs(q, p, n);
    NextReadsAsRight(left, right, order, k);
    if At(right, q).Some? {
      ItemsHaveNoGaps(right, p, q);
    }
  }

  lemma RemoveAtEnd(left: Json, right: Json, order: seq<Change>, k: nat, v: Json)
    requires Midway(left, right, order, k, v) && order[k].Remove?
    ensures AtEnd(v, order[k].path, order[k]) <==> !PrecededLater(order, k)
  {
    var p := order[k].path;
    assert Grounded(left, order[k]);
    if Last(p).Index? {
      var n := Last(p).index;
      RemovesWait(left, right, order, k, n);
      RightHasNone(left, right, order, k, n);
      Neighbour(left, right, order, k, v, Beside(p, n + 1), false);
    }
  }

  lemma NextFits(left: Json, right: Json, order: seq<Change>, k: nat, v: Json)
    requires Midway(left, right, order, k, v)
    ensures ApplyOne(v, order[k]).Some? <==> !PrecededLater(order, k)
  {
    NextIsFound(left, right, order, k, v);
    EditFits(v, order[k].path, order[k]);
    if order[k].Add? {
      AddAtEnd(left, right, order, k, v);
    } else if order[k].Remove? {
      RemoveAtEnd(left, right, order, k, v);
    }
  }

  // Whole runs.

  predicate NonePrecededLater(order: seq<Change>, k: nat)
    requires k <= |order|
  {
    forall i | 0 <= i < k :: !PrecededLater(order, i)
  }

  lemma OneMoreApplied(left: Json, order: seq<Change>, k: nat)
    requires k < |order|
    ensures ApplyAll(left, order[..k + 1])
         == match ApplyAll(left, order[..k]) case Some(x) => ApplyOne(x, order[k]) case None => None
  {
    assert Front(order[..k + 1]) == order[..k] && Last(order[..k + 1]) == order[k];
  }

  lemma {:induction false} RunFits(left: Json, right: Json, order: seq<Change>, k: nat)
    requires WellFormed(left) && WellFormed(right) && IsPatch(left, order, right) && k <= |order|
    ensures ApplyAll(left, order[..k]).Some? <==> NonePrecededLater(order, k)
  {
    if k > 0 {
      RunFits(left, right, order, k - 1);
      OneMoreApplied(left, order, k - 1);
      if ApplyAll(left, order[..k - 1]).Some? {
        NextFits(left, right, order, k - 1, ApplyAll(left, order[..k - 1]).value);
      }
    }
  }

  lemma AllowedPrecedence(order: seq<Change>)
    ensures Allowed(order) <==> NonePrecededLater(order, |order|)
  {
    if NonePrecededLater(order, |order|) {
      forall i, j | 0 <= i < j < |order|
        ensures !Precedes(order[j], order[i])
      {
        assert !PrecededLater(order, i);
      }
    }
  }

  /**
   The reported changes can be applied one after another exactly in the orders that add no item before the one on its
   left and remove none before the one on its right, and every such order leads to the right value.
   */
  lemma {:induction false} AppliesExactlyInAllowedOrders(left: Json, right: Json, order: seq<Change>)
    requires WellFormed(left) && WellFormed(right) && multiset(order) == multiset(Compare(left, right, []))
    ensures ApplyAll(left, order).Some? <==> Allowed(order)
    ensures Allowed(order) ==> SameUpToOrder(ApplyAll(left, order).value, right)
  {
    PermutedIsPatch(left, right, order);
    RunFits(left, right, order, |order|);
    assert order[..|order|] == order;
    AllowedPrecedence(order);
    if Allowed(order) {
      PatchedRunIsRight(left, right, order);
    }
  }

  lemma PatchedRunIsRight(left: Json, right: Json, order: seq<Change>)
    requires WellFormed(left) && WellFormed(right) && IsPatch(left, order, right) && ApplyAll(left, order).Some?
    ensures SameUpToOrder(ApplyAll(left, order).value, right)
  {
    var v := ApplyAll(left, order).value;
    assert forall c <- order :: Grounded(left, c);
    AppliedWellFormed(left, order);
    forall p
      ensures View(v, p) == View(right, p)
    {
      AppliedReadsAsPatch(left, order, p);
    }
    ReadsTheSameIsSame(v, right);
  }

  // One allowed order.

  /** Additions and replacements as listed, then the removals from the last to the first. */
  function PatchOrder(cs: seq<Change>): seq<Change> {
    if cs == [] then []
    else if cs[0].Remove? then PatchOrder(cs[1..]) + [cs[0]]
    else [cs[0]] + PatchOrder(cs[1..])
  }

  lemma {:induction false} PatchOrderIsPermutation(cs: seq<Change>)
    ensures multiset(PatchOrder(cs)) == multiset(cs)
  {
    if cs != [] {
      PatchOrderIsPermutation(cs[1..]);
      assert cs == [cs[0]] + cs[1..];
    }
  }

  lemma OneMoreAllowed(c: Change, rest: seq<Change>)
    requires Allowed(rest) && forall i | 0 <= i < |rest| :: !LeftOf(rest[i].path, c.path)
    ensures c.Remove? ==> Allowed(rest + [c])
    ensures !c.Remove? ==> Allowed([c] + rest)
  {
    assert forall i | 0 <= i < |rest| :: c.Remove? ==> !Precedes(c, rest[i]);
    assert forall i | 0 <= i < |rest| :: !c.Remove? ==> !Precedes(rest[i], c);
  }

  lemma {:induction false} PatchOrderIsAllowed(cs: seq<Change>)
    requires LeftToRight(cs)
    ensures Allowed(PatchOrder(cs))
  {
    if cs != [] {
      var rest := PatchOrder(cs[1..]);
      PatchOrderIsAllowed(cs[1..]);
      PatchOrderIsPermutation(cs[1..]);
      forall i | 0 <= i < |rest|
        ensures !LeftOf(rest[i].path, cs[0].path)
      {
        assert rest[i] in multiset(rest);
        var j :| 0 <= j < |cs[1..]| && cs[1..][j] == rest[i];
        assert !LeftOf(cs[j + 1].path, cs[0].path);
      }
      OneMoreAllowed(cs[0], rest);
    }
  }

  /** Applied in that order every reported change fits, and the left value becomes the right one. */
  lemma {:induction false} PatchMakesRight(left: Json, right: Json)
    requires WellFormed(left) && WellFormed(right)
    ensures var patched := ApplyAll(left, PatchOrder(Compare(left, right, [])));
      patched.Some? && SameUpToOrder(patched.value, right)
  {
    var cs := Compare(left, right, []);
    ListedLeftToRight(left, right);
    PatchOrderIsPermutation(cs);
    PatchOrderIsAllowed(cs);
    AppliesExactlyInAllowedOrders(left, right, PatchOrder(cs));
  }

  lemma {:induction false} ItemsEndWith(left: seq<Json>, right: seq<Json>, i: nat, n: nat) returns (before: seq<Change>)
    requires i <= n <= Longer(left, right)
    ensures CompareItems(left, right, [], i) == before + CompareItems(left, right, [], n)
    decreases n - i
  {
    if i == n {
      before := [];
    } else {
      var more := ItemsEndWith(left, right, i + 1, n);
      var first := AllUnder([Index(i)], Slot(Item(left, i), Item(right, i)));
      FirstItemSlot(left, right, i);
      before := first + more;
      assert before + CompareItems(left, right, [], n) == first + (more + CompareItems(left, right, [], n));
    }
  }

  lemma TwoRemovalsAtEnd(left: seq<Json>, right: seq<Json>, n: nat) returns (rest: seq<Change>)
    requires n == |right| && n + 2 <= |left|
    ensures CompareItems(left, right, [], n)
         == [Remove([Index(n)], left[n]), Remove([Index(n + 1)], left[n + 1])] + rest
  {
    rest := CompareItems(left, right, [], n + 2);
    assert [] + [Index(n)] == [Index(n)] && [] + [Index(n + 1)] == [Index(n + 1)];
  }

  /** In the order of the list itself they do not fit when the array loses two items or more. */
  lemma {:induction false} ListedOrderFails(left: Json, right: Json)
    requires WellFormed(left) && WellFormed(right) && left.Array? && right.Array?
    requires |right.items| + 2 <= |left.items|
    ensures ApplyAll(left, Compare(left, right, [])).None?
  {
    var n, cs := |right.items|, Compare(left, right, []);
    var before := ItemsEndWith(left.items, right.items, 0, n);
    var rest := TwoRemovalsAtEnd(left.items, right.items, n);
    var k := |before|;
    assert cs[k] == Remove([Index(n)], left.items[n]) && cs[k + 1] == Remove([Index(n + 1)], left.items[n + 1]);
    assert Front(cs[k].path) == Front(cs[k + 1].path);
    assert Precedes(cs[k + 1], cs[k]);
    AppliesExactlyInAllowedOrders(left, right, cs);
  }
}
