/**
 Applying the changes the differ reports, one after another. Every change is an edit of the value the ones before it
 left: an item is appended to its array or taken off its end, a field is added or taken out, a value is replaced by
 another. The edits need not fit: `None` says that one does not.
 */
module JsonPatch {
  import opened Options
  import opened Seqs
  import opened JsonDiff

  // One edit.

  /** A child exchanged for another value. */
  function Put(v: Json, e: Elem, x: Json): Json
    requires Child(v, e).Some?
  {
    match e
    case Index(i) => Array(v.items[i := x])
    case Key(k) =>
      var j := Position(v.fields, k);
      Object(v.fields[j := Field(k, x)])
  }

  /** A new item at the end of an array, or a new field of an object. */
  function Insert(v: Json, e: Elem, x: Json): Option<Json> {
    match e
    case Index(i) => if v.Array? && i == |v.items| then Some(Array(v.items + [x])) else None
    case Key(k) => if v.Object? && Position(v.fields, k) < 0 then Some(Object(v.fields + [Field(k, x)])) else None
  }

  /** The last item of an array, or a field of an object, taken away when it has the value it is said to have. */
  function Delete(v: Json, e: Elem, was: Json): Option<Json> {
    if Child(v, e) != Some(was) then None
    else
      match e
      case Index(i) => if i + 1 == |v.items| then Some(Array(v.items[..i])) else None
      case Key(k) =>
        var j := Position(v.fields, k);
        Some(Object(v.fields[..j] + v.fields[j + 1..]))
  }

  function Edit(v: Json, path: Path, c: Change): Option<Json>
    decreases |path|
  {
    if path == [] then if c.Replace? && v == c.oldValue then Some(c.value) else None
    else if |path| == 1 && c.Add? then Insert(v, path[0], c.value)
    else if |path| == 1 && c.Remove? then Delete(v, path[0], c.oldValue)
    else
      match Child(v, path[0])
      case None => None
      case Some(x) =>
        match Edit(x, path[1..], c)
        case None => None
        case Some(y) => Some(Put(v, path[0], y))
  }

  function ApplyOne(v: Json, c: Change): Option<Json> {
    Edit(v, c.path, c)
  }

  function ApplyAll(v: Json, cs: seq<Change>): Option<Json> {
    if cs == [] then Some(v)
    else
      match ApplyAll(v, Front(cs))
      case None => None
      case Some(x) => ApplyOne(x, Last(cs))
  }

  // What an edit does to the children.

  lemma PutChild(v: Json, e: Elem, x: Json, other: Elem)
    requires Child(v, e).Some?
    ensures Child(Put(v, e, x), other) == if other == e then Some(x) else Child(v, other)
    ensures ShapeOf(Put(v, e, x)) == ShapeOf(v)
  {
    if e.Key? && other.Key? {
      var j := Position(v.fields, e.key);
      PositionKept(v.fields, j, x, other.key);
    }
  }

  lemma PutWellFormed(v: Json, e: Elem, x: Json)
    requires Child(v, e).Some? && WellFormed(v) && WellFormed(x)
    ensures WellFormed(Put(v, e, x))
  {
  }

  lemma InsertChild(v: Json, e: Elem, x: Json, other: Elem)
    requires Insert(v, e, x).Some?
    ensures Child(Insert(v, e, x).value, other) == if other == e then Some(x) else Child(v, other)
    ensures ShapeOf(Insert(v, e, x).value) == ShapeOf(v)
  {
    if e.Key? && other.Key? {
      PositionAppended(v.fields, [Field(e.key, x)], other.key);
    }
  }

  lemma InsertWellFormed(v: Json, e: Elem, x: Json)
    requires Insert(v, e, x).Some? && WellFormed(v) && WellFormed(x)
    ensures WellFormed(Insert(v, e, x).value)
  {
    if e.Key? {
      assert forall i :: 0 <= i < |v.fields| ==> v.fields[i].key != e.key;
    }
  }

  lemma ValueAppended(a: seq<Field>, b: seq<Field>, k: string)
    ensures FieldValue(a + b, k) == if FieldValue(a, k).Some? then FieldValue(a, k) else FieldValue(b, k)
  {
    PositionAppended(a, b, k);
  }

  lemma ValueAround(before: seq<Field>, here: Field, after: seq<Field>, k: string)
    requires FieldValue(before, here.key).None? && FieldValue(after, here.key).None?
    ensures FieldValue(before + after, k)
         == if k == here.key then None else FieldValue(before + ([here] + after), k)
  {
    ValueAppended(before, [here] + after, k);
    ValueAppended([here], after, k);
    ValueAppended(before, after, k);
    assert [here][1..] == [];
  }

  /** A field taken out of distinct fields is not found, every other field as before. */
  lemma FieldGone(fields: seq<Field>, j: nat, k: string)
    requires j < |fields| && Position(fields[j + 1..], fields[j].key) < 0 && Position(fields[..j], fields[j].key) < 0
    ensures FieldValue(fields[..j] + fields[j + 1..], k)
         == if k == fields[j].key then None else FieldValue(fields, k)
  {
    assert fields == fields[..j] + ([fields[j]] + fields[j + 1..]);
    ValueAround(fields[..j], fields[j], fields[j + 1..], k);
  }

  lemma KeyOnlyHere(v: Json, j: nat)
    requires WellFormed(v) && v.Object? && j < |v.fields|
    ensures Position(v.fields[j + 1..], v.fields[j].key) < 0 && Position(v.fields[..j], v.fields[j].key) < 0
  {
    var before, after, k := v.fields[..j], v.fields[j + 1..], v.fields[j].key;
    assert forall i :: 0 <= i < |before| ==> before[i] == v.fields[i];
    assert forall i :: 0 <= i < |after| ==> after[i] == v.fields[j + 1 + i];
  }

  lemma DeleteChild(v: Json, e: Elem, was: Json, other: Elem)
    requires Delete(v, e, was).Some? && WellFormed(v)
    ensures Child(Delete(v, e, was).value, other) == if other == e then None else Child(v, other)
    ensures ShapeOf(Delete(v, e, was).value) == ShapeOf(v)
  {
    if e.Key? && other.Key? {
      var j := Position(v.fields, e.key);
      KeyOnlyHere(v, j);
      FieldGone(v.fields, j, other.key);
    }
  }

  lemma DeleteWellFormed(v: Json, e: Elem, was: Json)
    requires Delete(v, e, was).Some? && WellFormed(v)
    ensures WellFormed(Delete(v, e, was).value)
  {
  }

  // What an edit does at every path.

  predicate NewValueWellFormed(c: Change) {
    c.Remove? || WellFormed(c.value)
  }

  lemma {:induction false} EditWellFormed(v: Json, path: Path, c: Change)
    requires Edit(v, path, c).Some? && WellFormed(v) && NewValueWellFormed(c)
    ensures WellFormed(Edit(v, path, c).value)
    decreases |path|
  {
    if path == [] {
    } else if |path| == 1 && c.Add? {
      InsertWellFormed(v, path[0], c.value);
    } else if |path| == 1 && c.Remove? {
      DeleteWellFormed(v, path[0], c.oldValue);
    } else {
      var x := Child(v, path[0]).value;
      EditWellFormed(x, path[1..], c);
      PutWellFormed(v, path[0], Edit(x, path[1..], c).value);
    }
  }

  /** What is at a path after an edit: something new at and below it, nothing else of the value changed. */
  predicate EditedAt(v: Json, w: Json, path: Path, c: Change, p: Path) {
    if path <= p then At(w, p) == (if c.Remove? then None else At(c.value, p[|path|..]))
    else if p <= path then At(v, p).Some? && At(w, p).Some? && ShapeOf(At(w, p).value) == ShapeOf(At(v, p).value)
    else At(w, p) == At(v, p)
  }

  lemma AtStep(v: Json, e: Elem, p: Path)
    ensures At(v, [e] + p) == match Child(v, e) case Some(x) => At(x, p) case None => None
  {
    assert ([e] + p)[1..] == p;
  }

  lemma {:induction false} EditAt(v: Json, path: Path, c: Change, p: Path)
    requires Edit(v, path, c).Some? && WellFormed(v)
    ensures EditedAt(v, Edit(v, path, c).value, path, c, p)
    decreases |path|
  {
    var w := Edit(v, path, c).value;
    if path == [] {
      assert p[0..] == p;
    } else {
      var e, rest := path[0], path[1..];
      assert path == [e] + rest;
      EditRoot(v, path, c);
      if p != [] {
        var f, q := p[0], p[1..];
        assert p == [f] + q;
        AtStep(v, f, q);
        AtStep(w, f, q);
        EditChild(v, path, c, f);
        if f == e {
          EditBelow(v, path, c, q);
        }
      }
    }
  }

  lemma EditRoot(v: Json, path: Path, c: Change)
    requires Edit(v, path, c).Some? && WellFormed(v) && path != []
    ensures ShapeOf(Edit(v, path, c).value) == ShapeOf(v)
  {
    if |path| == 1 && c.Add? {
      InsertChild(v, path[0], c.value, path[0]);
    } else if |path| == 1 && c.Remove? {
      DeleteChild(v, path[0], c.oldValue, path[0]);
    } else {
      PutChild(v, path[0], Edit(Child(v, path[0]).value, path[1..], c).value, path[0]);
    }
  }

  /** Only the child the path goes through is another one afterwards. */
  lemma EditChild(v: Json, path: Path, c: Change, f: Elem)
    requires Edit(v, path, c).Some? && WellFormed(v) && path != []
    ensures f != path[0] ==> Child(Edit(v, path, c).value, f) == Child(v, f)
  {
    if |path| == 1 && c.Add? {
      InsertChild(v, path[0], c.value, f);
    } else if |path| == 1 && c.Remove? {
      DeleteChild(v, path[0], c.oldValue, f);
    } else {
      PutChild(v, path[0], Edit(Child(v, path[0]).value, path[1..], c).value, f);
    }
  }

  lemma {:induction false} EditBelow(v: Json, path: Path, c: Change, q: Path)
    requires Edit(v, path, c).Some? && WellFormed(v) && path != []
    ensures EditedAt(v, Edit(v, path, c).value, path, c, [path[0]] + q)
    decreases |path|, 0
  {
    var e, rest, w := path[0], path[1..], Edit(v, path, c).value;
    AtStep(v, e, q);
    AtStep(w, e, q);
    PrefixUnder(e, rest, q);
    PrefixUnder(e, q, rest);
    assert path == [e] + rest;
    if rest <= q {
      assert ([e] + q)[|path|..] == q[|rest|..];
    }
    if |path| == 1 && c.Add? {
      InsertChild(v, e, c.value, e);
    } else if |path| == 1 && c.Remove? {
      DeleteChild(v, e, c.oldValue, e);
    } else {
      var x := Child(v, e).value;
      PutChild(v, e, Edit(x, rest, c).value, e);
      EditAt(x, rest, c, q);
    }
  }

  // When an edit fits.

  /** The last element of the path of an item moved by one. */
  function Beside(path: Path, i: nat): Path
    requires path != []
  {
    Front(path) + [Index(i)]
  }

  predicate Holds(v: Json, e: Elem) {
    if e.Index? then v.Array? else v.Object?
  }

  /** An item goes to the end of its array, and comes off it there. */
  predicate AtEnd(v: Json, path: Path, c: Change) {
    path != [] && Last(path).Index? ==>
      var i := Last(path).index;
      && (c.Add? && i > 0 ==> At(v, Beside(path, i - 1)).Some?)
      && (c.Remove? ==> At(v, Beside(path, i + 1)).None?)
  }

  /** The value said to be there is there, or for an addition nothing is but a composite to put it into. */
  predicate Found(v: Json, path: Path, c: Change) {
    match c
    case Replace(_, o, _) => At(v, path) == Some(o)
    case Remove(_, o) => path != [] && At(v, path) == Some(o)
    case Add(_, _) =>
      path != [] && At(v, path).None? && At(v, Front(path)).Some? && Holds(At(v, Front(path)).value, Last(path))
  }

  lemma LeafFits(v: Json, path: Path, c: Change)
    requires |path| == 1 && !c.Replace?
    ensures Edit(v, path, c).Some? <==> Found(v, path, c) && AtEnd(v, path, c)
  {
    var e := path[0];
    assert path == [e] && Front(path) == [];
    AtOneStep(v, e);
    if e.Index? {
      AtOneStep(v, Index(e.index + 1));
      assert Beside(path, e.index + 1) == [Index(e.index + 1)];
      if e.index > 0 {
        AtOneStep(v, Index(e.index - 1));
        assert Beside(path, e.index - 1) == [Index(e.index - 1)];
      }
    }
  }

  lemma FoundBelow(v: Json, path: Path, c: Change)
    requires path != [] && (|path| > 1 || c.Replace?)
    ensures Found(v, path, c) <==> Child(v, path[0]).Some? && Found(Child(v, path[0]).value, path[1..], c)
  {
    var e, rest := path[0], path[1..];
    assert path == [e] + rest;
    AtStep(v, e, rest);
    if |path| > 1 {
      assert Front(path) == [e] + Front(rest);
      AtStep(v, e, Front(rest));
    }
  }

  lemma AtEndBelow(v: Json, path: Path, c: Change)
    requires |path| > 1 && Child(v, path[0]).Some?
    ensures AtEnd(v, path, c) <==> AtEnd(Child(v, path[0]).value, path[1..], c)
  {
    var e, rest := path[0], path[1..];
    if Last(path).Index? {
      var i := Last(path).index;
      assert Beside(path, i + 1) == [e] + Beside(rest, i + 1);
      AtStep(v, e, Beside(rest, i + 1));
      if i > 0 {
        assert Beside(path, i - 1) == [e] + Beside(rest, i - 1);
        AtStep(v, e, Beside(rest, i - 1));
      }
    }
  }

  lemma {:induction false} EditFits(v: Json, path: Path, c: Change)
    ensures Edit(v, path, c).Some? <==> Found(v, path, c) && AtEnd(v, path, c)
    decreases |path|
  {
    if path == [] {
    } else if |path| == 1 && !c.Replace? {
      LeafFits(v, path, c);
    } else {
      FoundBelow(v, path, c);
      if Child(v, path[0]).Some? {
        EditFits(Child(v, path[0]).value, path[1..], c);
        if |path| > 1 {
          AtEndBelow(v, path, c);
        }
      }
    }
  }

  // What a value is after several edits that do not overlap.

  /** Where no change is at, above or below, the value is as before. */
  predicate OffPath(cs: seq<Change>, p: Path) {
    forall c <- cs :: !(c.path <= p) && !(p <= c.path)
  }

  lemma {:induction false} AppliedWellFormed(v: Json, cs: seq<Change>)
    requires ApplyAll(v, cs).Some? && WellFormed(v)
    requires forall c <- cs :: NewValueWellFormed(c)
    ensures WellFormed(ApplyAll(v, cs).value)
  {
    if cs != [] {
      AppliedWellFormed(v, Front(cs));
      EditWellFormed(ApplyAll(v, Front(cs)).value, Last(cs).path, Last(cs));
    }
  }

  lemma {:induction false} UntouchedStays(v: Json, cs: seq<Change>, p: Path)
    requires ApplyAll(v, cs).Some? && WellFormed(v) && OffPath(cs, p)
    requires forall c <- cs :: NewValueWellFormed(c)
    ensures At(ApplyAll(v, cs).value, p) == At(v, p)
  {
    if cs != [] {
      UntouchedStays(v, Front(cs), p);
      AppliedWellFormed(v, Front(cs));
      EditAt(ApplyAll(v, Front(cs)).value, Last(cs).path, Last(cs), p);
    }
  }

  lemma NotCovered(cs: seq<Change>, p: Path)
    requires forall c <- cs :: !(c.path <= p)
    ensures Covering(cs, p).None?
  {
    if cs != [] {
      NotCovered(cs[1..], p);
    }
  }

  lemma EditReads(x: Json, c: Change, p: Path)
    requires ApplyOne(x, c).Some? && WellFormed(x)
    ensures View(ApplyOne(x, c).value, p) == if c.path <= p then NewView(c, p) else View(x, p)
  {
    EditAt(x, c.path, c, p);
  }

  lemma PatchOfOneMore(v: Json, cs: seq<Change>, p: Path)
    requires cs != [] && Separate(cs)
    ensures PatchedView(Some(v), cs, p)
         == if Last(cs).path <= p then NewView(Last(cs), p) else PatchedView(Some(v), Front(cs), p)
  {
    assert cs == Front(cs) + [Last(cs)];
    CoveringConcat(Front(cs), [Last(cs)], p);
    if Last(cs).path <= p {
      CoveredOnce(cs, p);
    }
  }

  /** After the changes the value reads at every path as the list of changes says. */
  lemma {:induction false} AppliedReadsAsPatch(v: Json, cs: seq<Change>, p: Path)
    requires ApplyAll(v, cs).Some? && WellFormed(v) && Separate(cs)
    requires forall c <- cs :: NewValueWellFormed(c)
    ensures View(ApplyAll(v, cs).value, p) == PatchedView(Some(v), cs, p)
  {
    if cs != [] {
      AppliedReadsAsPatch(v, Front(cs), p);
      AppliedWellFormed(v, Front(cs));
      EditReads(ApplyAll(v, Front(cs)).value, Last(cs), p);
      PatchOfOneMore(v, cs, p);
    }
  }

  lemma CoveredOnce(cs: seq<Change>, p: Path)
    requires cs != [] && Separate(cs) && Last(cs).path <= p
    ensures Covering(Front(cs), p).None?
  {
    forall c | c in Front(cs)
      ensures !(c.path <= p)
    {
      var i :| 0 <= i < |cs| - 1 && cs[i] == c;
      assert Apart(cs[i], cs[|cs| - 1]);
      if c.path <= p {
        PrefixesAreComparable(c.path, Last(cs).path, p);
      }
    }
    NotCovered(Front(cs), p);
  }

  lemma PrefixesAreComparable(a: Path, b: Path, p: Path)
    requires a <= p && b <= p
    ensures a <= b || b <= a
  {
    assert a == p[..|a|] && b == p[..|b|];
    if |a| <= |b| {
      assert b[..|a|] == a;
    } else {
      assert a[..|b|] == b;
    }
  }
}
