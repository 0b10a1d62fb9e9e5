/**
 The response differ: a recursive comparison of two JSON values that lists additions, removals and changes by path.
 Paths are kept as lists of indices and keys here; the source prints them as text.
 */
module JsonDiff {
  import opened Options
  import opened JsText

  datatype Json =
    | Null
    | Bool(value: bool)
    | Number(number: real)
    | Text(text: string)
    | Array(items: seq<Json>)
    | Object(fields: seq<Field>)

  /** Fields keep their order: two objects that differ only in it print differently. */
  datatype Field = Field(key: string, value: Json)

  datatype Elem = Index(index: nat) | Key(key: string)

  type Path = seq<Elem>

  datatype Change =
    | Add(path: Path, value: Json)
    | Remove(path: Path, oldValue: Json)
    | Replace(path: Path, oldValue: Json, value: Json)

  function Position(fields: seq<Field>, key: string): (i: int)
    ensures -1 <= i < |fields|
    ensures i >= 0 ==> fields[i].key == key
    ensures i >= 0 <==> exists j :: 0 <= j < |fields| && fields[j].key == key
  {
    if fields == [] then -1
    else if fields[0].key == key then 0
    else
      var rest := Position(fields[1..], key);
      assert forall j :: 0 < j < |fields| ==> fields[j] == fields[1..][j - 1];
      if rest < 0 then -1 else rest + 1
  }

  lemma {:induction false} PositionKept(fields: seq<Field>, j: nat, x: Json, k: string)
    requires j < |fields|
    ensures Position(fields[j := Field(fields[j].key, x)], k) == Position(fields, k)
  {
    var next := fields[j := Field(fields[j].key, x)];
    if j > 0 {
      assert next[1..] == fields[1..][j - 1 := Field(fields[1..][j - 1].key, x)];
      PositionKept(fields[1..], j - 1, x, k);
    } else {
      assert next[1..] == fields[1..];
    }
  }

  lemma {:induction false} PositionAppended(fields: seq<Field>, more: seq<Field>, k: string)
    ensures Position(fields + more, k)
         == if Position(fields, k) >= 0 then Position(fields, k)
            else if Position(more, k) >= 0 then |fields| + Position(more, k) else -1
  {
    if fields == [] {
      assert fields + more == more;
    } else {
      assert (fields + more)[1..] == fields[1..] + more;
      PositionAppended(fields[1..], more, k);
    }
  }

  function Keys(fields: seq<Field>): seq<string> {
    seq(|fields|, i requires 0 <= i < |fields| => fields[i].key)
  }

  function Without(keys: seq<string>, fields: seq<Field>): seq<string> {
    if keys == [] then []
    else (if Position(fields, keys[0]) >= 0 then [] else [keys[0]]) + Without(keys[1..], fields)
  }

  /** `new Set([...Object.keys(left), ...Object.keys(right)])`. */
  function UnionKeys(left: seq<Field>, right: seq<Field>): seq<string> {
    Keys(left) + Without(Keys(right), left)
  }

  function Compare(left: Json, right: Json, path: Path): seq<Change>
    decreases left, 1
  {
    if left == right then []
    else if left.Array? && right.Array? then CompareItems(left.items, right.items, path, 0)
    else if left.Object? && right.Object? then
      CompareFields(left.fields, right.fields, UnionKeys(left.fields, right.fields), path)
    else [Replace(path, left, right)]
  }

  function Longer<T>(a: seq<T>, b: seq<T>): nat { if |a| < |b| then |b| else |a| }

  function CompareItems(left: seq<Json>, right: seq<Json>, path: Path, i: nat): seq<Change>
    decreases left, 0, Longer(left, right) - i
  {
    if i >= Longer(left, right) then []
    else
      (if i >= |left| then [Add(path + [Index(i)], right[i])]
       else if i >= |right| then [Remove(path + [Index(i)], left[i])]
       else Compare(left[i], right[i], path + [Index(i)]))
      + CompareItems(left, right, path, i + 1)
  }

  function CompareFields(left: seq<Field>, right: seq<Field>, keys: seq<string>, path: Path): seq<Change>
    decreases left, 0, |keys|
  {
    if keys == [] then []
    else
      var l, r, p := Position(left, keys[0]), Position(right, keys[0]), path + [Key(keys[0])];
      (if l < 0 && r < 0 then []
       else if l < 0 then [Add(p, right[r].value)]
       else if r < 0 then [Remove(p, left[l].value)]
       else Compare(left[l].value, right[r].value, p))
      + CompareFields(left, right, keys[1..], path)
  }

  // Relative changes.

  function Under(path: Path, c: Change): Change {
    match c
    case Add(p, v) => Add(path + p, v)
    case Remove(p, v) => Remove(path + p, v)
    case Replace(p, o, v) => Replace(path + p, o, v)
  }

  function AllUnder(path: Path, cs: seq<Change>): seq<Change> {
    seq(|cs|, i requires 0 <= i < |cs| => Under(path, cs[i]))
  }

  lemma UnderUnder(a: Path, b: Path, cs: seq<Change>)
    ensures AllUnder(a, AllUnder(b, cs)) == AllUnder(a + b, cs)
  {
    assert forall p: Path :: a + b + p == a + (b + p);
  }

  lemma AllUnderConcat(path: Path, a: seq<Change>, b: seq<Change>)
    ensures AllUnder(path, a + b) == AllUnder(path, a) + AllUnder(path, b)
  {
  }

  lemma {:induction false} CompareUnder(left: Json, right: Json, path: Path)
    ensures Compare(left, right, path) == AllUnder(path, Compare(left, right, []))
    decreases left, 1
  {
    if left == right {
    } else if left.Array? && right.Array? {
      CompareItemsUnder(left.items, right.items, path, 0);
    } else if left.Object? && right.Object? {
      CompareFieldsUnder(left.fields, right.fields, UnionKeys(left.fields, right.fields), path);
    } else {
      assert path + [] == path;
    }
  }

  lemma CompareUnderElem(left: Json, right: Json, path: Path, e: Path)
    requires Compare(left, right, path + e) == AllUnder(path + e, Compare(left, right, []))
    requires Compare(left, right, e) == AllUnder(e, Compare(left, right, []))
    ensures Compare(left, right, path + e) == AllUnder(path, Compare(left, right, e))
  {
    UnderUnder(path, e, Compare(left, right, []));
  }

  lemma {:induction false} CompareItemsUnder(left: seq<Json>, right: seq<Json>, path: Path, i: nat)
    ensures CompareItems(left, right, path, i) == AllUnder(path, CompareItems(left, right, [], i))
    decreases left, 0, Longer(left, right) - i
  {
    if i < Longer(left, right) {
      var e := [Index(i)];
      var tail := CompareItems(left, right, [], i + 1);
      assert [] + e == e;
      CompareItemsUnder(left, right, path, i + 1);
      if i >= |left| {
        AllUnderConcat(path, [Add(e, right[i])], tail);
        assert AllUnder(path, [Add(e, right[i])]) == [Add(path + e, right[i])];
      } else if i >= |right| {
        AllUnderConcat(path, [Remove(e, left[i])], tail);
        assert AllUnder(path, [Remove(e, left[i])]) == [Remove(path + e, left[i])];
      } else {
        CompareUnder(left[i], right[i], path + e);
        CompareUnder(left[i], right[i], e);
        CompareUnderElem(left[i], right[i], path, e);
        AllUnderConcat(path, Compare(left[i], right[i], e), tail);
      }
    }
  }

  lemma {:induction false} CompareFieldsUnder(left: seq<Field>, right: seq<Field>, keys: seq<string>, path: Path)
    ensures CompareFields(left, right, keys, path) == AllUnder(path, CompareFields(left, right, keys, []))
    decreases left, 0, |keys|
  {
    if keys != [] {
      var l, r, e := Position(left, keys[0]), Position(right, keys[0]), [Key(keys[0])];
      var tail := CompareFields(left, right, keys[1..], []);
      assert [] + e == e;
      CompareFieldsUnder(left, right, keys[1..], path);
      if l < 0 && r < 0 {
        AllUnderConcat(path, [], tail);
      } else if l < 0 {
        AllUnderConcat(path, [Add(e, right[r].value)], tail);
        assert AllUnder(path, [Add(e, right[r].value)]) == [Add(path + e, right[r].value)];
      } else if r < 0 {
        AllUnderConcat(path, [Remove(e, left[l].value)], tail);
        assert AllUnder(path, [Remove(e, left[l].value)]) == [Remove(path + e, left[l].value)];
      } else {
        CompareUnder(left[l].value, right[r].value, path + e);
        CompareUnder(left[l].value, right[r].value, e);
        CompareUnderElem(left[l].value, right[r].value, path, e);
        AllUnderConcat(path, Compare(left[l].value, right[r].value, e), tail);
      }
    }
  }

  // A composite value as slots, each present or missing on either side.

  function Item(items: seq<Json>, i: nat): Option<Json> {
    if i < |items| then Some(items[i]) else None
  }

  function FieldValue(fields: seq<Field>, key: string): Option<Json> {
    var i := Position(fields, key);
    if i < 0 then None else Some(fields[i].value)
  }

  function Slot(left: Option<Json>, right: Option<Json>): seq<Change> {
    match (left, right)
    case (None, None) => []
    case (None, Some(r)) => [Add([], r)]
    case (Some(l), None) => [Remove([], l)]
    case (Some(l), Some(r)) => Compare(l, r, [])
  }

  lemma FirstItemSlot(left: seq<Json>, right: seq<Json>, i: nat)
    requires i < Longer(left, right)
    ensures CompareItems(left, right, [], i)
         == AllUnder([Index(i)], Slot(Item(left, i), Item(right, i))) + CompareItems(left, right, [], i + 1)
  {
    var e := [Index(i)];
    assert [] + e == e && e + [] == e;
    if i < |left| && i < |right| {
      CompareUnder(left[i], right[i], e);
    }
  }

  /** What is listed for one key: the changes of its slot. */
  lemma FieldSlot(left: seq<Field>, right: seq<Field>, k: string)
    ensures var (l, r, p) := (Position(left, k), Position(right, k), [Key(k)]);
      AllUnder(p, Slot(FieldValue(left, k), FieldValue(right, k)))
      == if l < 0 && r < 0 then []
         else if l < 0 then [Add(p, right[r].value)]
         else if r < 0 then [Remove(p, left[l].value)]
         else Compare(left[l].value, right[r].value, p)
  {
    var l, r, p := Position(left, k), Position(right, k), [Key(k)];
    assert p + [] == p;
    if l >= 0 && r >= 0 {
      CompareUnder(left[l].value, right[r].value, p);
    }
  }

  lemma FirstFieldSlot(left: seq<Field>, right: seq<Field>, keys: seq<string>)
    requires keys != []
    ensures CompareFields(left, right, keys, [])
         == AllUnder([Key(keys[0])], Slot(FieldValue(left, keys[0]), FieldValue(right, keys[0])))
            + CompareFields(left, right, keys[1..], [])
  {
    FieldSlot(left, right, keys[0]);
    assert [] + [Key(keys[0])] == [Key(keys[0])];
  }

  // Reading a value at a path, directly and through a list of changes.

  predicate WellFormed(v: Json)
    decreases v
  {
    match v
    case Array(items) => forall i | 0 <= i < |items| :: WellFormed(items[i])
    case Object(fields) =>
      && (forall i | 0 <= i < |fields| :: WellFormed(fields[i].value))
      && (forall i, j | 0 <= i < j < |fields| :: fields[i].key != fields[j].key)
    case _ => true
  }

  function At(v: Json, p: Path): Option<Json> {
    if p == [] then Some(v)
    else
      match Child(v, p[0])
      case Some(c) => At(c, p[1..])
      case None => None
  }

  function Child(v: Json, e: Elem): Option<Json> {
    match e
    case Index(i) => if v.Array? then Item(v.items, i) else None
    case Key(k) => if v.Object? then FieldValue(v.fields, k) else None
  }

  /** What is to be seen at one place: a leaf, or the kind of a composite. */
  datatype Shape = Leaf(value: Json) | ArrayShape | ObjectShape

  function ShapeOf(v: Json): Shape {
    match v
    case Array(_) => ArrayShape
    case Object(_) => ObjectShape
    case _ => Leaf(v)
  }

  function View(v: Json, p: Path): Option<Shape> {
    match At(v, p)
    case Some(c) => Some(ShapeOf(c))
    case None => None
  }

  function SlotView(v: Option<Json>, p: Path): Option<Shape> {
    if v.Some? then View(v.value, p) else None
  }

  /** The first change at or above a path. */
  function Covering(cs: seq<Change>, p: Path): Option<Change> {
    if cs == [] then None
    else if cs[0].path <= p then Some(cs[0])
    else Covering(cs[1..], p)
  }

  function NewView(c: Change, p: Path): Option<Shape>
    requires c.path <= p
  {
    if c.Remove? then None else View(c.value, p[|c.path|..])
  }

  /** The left value with the changes applied, read at a path. */
  function PatchedView(v: Option<Json>, cs: seq<Change>, p: Path): Option<Shape> {
    match Covering(cs, p)
    case Some(c) => if c.path <= p then NewView(c, p) else None
    case None => SlotView(v, p)
  }

  lemma {:induction false} CoveringConcat(a: seq<Change>, b: seq<Change>, p: Path)
    ensures Covering(a + b, p) == if Covering(a, p).Some? then Covering(a, p) else Covering(b, p)
  {
    if a == [] {
      assert a + b == b;
    } else {
      assert (a + b)[1..] == a[1..] + b;
      CoveringConcat(a[1..], b, p);
    }
  }

  /** Changes under one child cover only paths that start with it, and there as they cover the rest of the path. */
  lemma {:induction false} CoveringUnder(e: Elem, cs: seq<Change>, p: Path)
    ensures p == [] || p[0] != e ==> Covering(AllUnder([e], cs), p) == None
    ensures p != [] && p[0] == e ==>
      Covering(AllUnder([e], cs), p) ==
        (match Covering(cs, p[1..]) case Some(c) => Some(Under([e], c)) case None => None)
  {
    if cs != [] {
      var path := [e] + cs[0].path;
      assert AllUnder([e], cs)[1..] == AllUnder([e], cs[1..]);
      CoveringUnder(e, cs[1..], p);
      assert path[0] == e && path[1..] == cs[0].path;
      if p != [] && p[0] == e {
        assert p == [e] + p[1..];
        assert path <= p <==> cs[0].path <= p[1..];
      }
    }
  }

  lemma CoveringIsPrefix(cs: seq<Change>, p: Path)
    ensures Covering(cs, p).Some? ==> Covering(cs, p).value.path <= p
  {
  }

  lemma {:induction false} CoveringItems(left: seq<Json>, right: seq<Json>, i: nat, p: Path)
    ensures var here := Covering(CompareItems(left, right, [], i), p);
      if p != [] && p[0].Index? && i <= p[0].index < Longer(left, right) then
        here == Covering(AllUnder([p[0]], Slot(Item(left, p[0].index), Item(right, p[0].index))), p)
      else here == None
    decreases Longer(left, right) - i
  {
    if i < Longer(left, right) {
      var slot := AllUnder([Index(i)], Slot(Item(left, i), Item(right, i)));
      FirstItemSlot(left, right, i);
      CoveringConcat(slot, CompareItems(left, right, [], i + 1), p);
      CoveringUnder(Index(i), Slot(Item(left, i), Item(right, i)), p);
      CoveringItems(left, right, i + 1, p);
    }
  }

  lemma {:induction false} CoveringFields(left: seq<Field>, right: seq<Field>, keys: seq<string>, p: Path)
    ensures var here := Covering(CompareFields(left, right, keys, []), p);
      if p != [] && p[0].Key? && p[0].key in keys then
        here == Covering(AllUnder([p[0]], Slot(FieldValue(left, p[0].key), FieldValue(right, p[0].key))), p)
      else here == None
    decreases |keys|
  {
    if keys != [] {
      var k := keys[0];
      var slot := AllUnder([Key(k)], Slot(FieldValue(left, k), FieldValue(right, k)));
      FirstFieldSlot(left, right, keys);
      CoveringConcat(slot, CompareFields(left, right, keys[1..], []), p);
      CoveringUnder(Key(k), Slot(FieldValue(left, k), FieldValue(right, k)), p);
      CoveringFields(left, right, keys[1..], p);
      assert keys == [k] + keys[1..];
    }
  }

  lemma {:induction false} InWithout(keys: seq<string>, fields: seq<Field>, k: string)
    ensures k in Without(keys, fields) <==> k in keys && Position(fields, k) < 0
  {
    if keys != [] {
      assert keys == [keys[0]] + keys[1..];
      InWithout(keys[1..], fields, k);
    }
  }

  lemma InUnion(left: seq<Field>, right: seq<Field>, k: string)
    ensures k in UnionKeys(left, right) <==> Position(left, k) >= 0 || Position(right, k) >= 0
  {
    InWithout(Keys(right), left, k);
    InKeys(left, k);
    InKeys(right, k);
  }

  lemma InKeys(fields: seq<Field>, k: string)
    ensures k in Keys(fields) <==> Position(fields, k) >= 0
  {
    var keys := Keys(fields);
    if k in keys {
      var i :| 0 <= i < |keys| && keys[i] == k;
      assert fields[i].key == k;
    }
    if Position(fields, k) >= 0 {
      assert keys[Position(fields, k)] == k;
    }
  }

  /** What a list of changes makes of one slot is what the slot has on the right. */
  predicate SlotReads(left: Option<Json>, right: Option<Json>, p: Path)
    requires p != []
  {
    var here := Covering(AllUnder([p[0]], Slot(left, right)), p);
    if here.Some? then here.value.path <= p && NewView(here.value, p) == SlotView(right, p[1..])
    else SlotView(left, p[1..]) == SlotView(right, p[1..])
  }

  lemma {:induction false} ItemSlotReads(left: Json, right: Json, p: Path)
    requires WellFormed(left) && WellFormed(right) && left.Array? && right.Array? && p != [] && p[0].Index?
    ensures SlotReads(Item(left.items, p[0].index), Item(right.items, p[0].index), p)
    decreases left, 0
  {
    var i := p[0].index;
    if i < |left.items| && i < |right.items| {
      PatchReadsAsRight(left.items[i], right.items[i], p[1..]);
    }
    SlotPatch(Item(left.items, i), Item(right.items, i), p);
  }

  lemma {:induction false} FieldSlotReads(left: Json, right: Json, p: Path)
    requires WellFormed(left) && WellFormed(right) && left.Object? && right.Object? && p != [] && p[0].Key?
    ensures SlotReads(FieldValue(left.fields, p[0].key), FieldValue(right.fields, p[0].key), p)
    decreases left, 0
  {
    var lf, rf, k := left.fields, right.fields, p[0].key;
    if Position(lf, k) >= 0 && Position(rf, k) >= 0 {
      PatchReadsAsRight(lf[Position(lf, k)].value, rf[Position(rf, k)].value, p[1..]);
    }
    SlotPatch(FieldValue(lf, k), FieldValue(rf, k), p);
  }

  lemma ReadsThroughSlot(left: Json, right: Json, cs: seq<Change>, p: Path)
    requires p != [] && SlotReads(Child(left, p[0]), Child(right, p[0]), p)
    requires Covering(cs, p) == Covering(AllUnder([p[0]], Slot(Child(left, p[0]), Child(right, p[0]))), p)
    ensures PatchedView(Some(left), cs, p) == View(right, p)
  {
  }

  lemma {:induction false} ItemsReadAsRight(left: Json, right: Json, p: Path)
    requires WellFormed(left) && WellFormed(right) && left.Array? && right.Array?
    ensures PatchedView(Some(left), CompareItems(left.items, right.items, [], 0), p) == View(right, p)
    decreases left, 1
  {
    CoveringItems(left.items, right.items, 0, p);
    if p != [] && p[0].Index? {
      ItemSlotReads(left, right, p);
      if p[0].index < Longer(left.items, right.items) {
        ReadsThroughSlot(left, right, CompareItems(left.items, right.items, [], 0), p);
      }
    }
  }

  lemma {:induction false} FieldsReadAsRight(left: Json, right: Json, p: Path)
    requires WellFormed(left) && WellFormed(right) && left.Object? && right.Object?
    ensures var (lf, rf) := (left.fields, right.fields);
      PatchedView(Some(left), CompareFields(lf, rf, UnionKeys(lf, rf), []), p) == View(right, p)
    decreases left, 1
  {
    var lf, rf := left.fields, right.fields;
    CoveringFields(lf, rf, UnionKeys(lf, rf), p);
    if p != [] && p[0].Key? {
      InUnion(lf, rf, p[0].key);
      FieldSlotReads(left, right, p);
      if p[0].key in UnionKeys(lf, rf) {
        ReadsThroughSlot(left, right, CompareFields(lf, rf, UnionKeys(lf, rf), []), p);
      }
    }
  }

  /**
   The changes are a correct patch: at every path the left value with the changes applied reads as the right value.
   */
  lemma {:induction false} PatchReadsAsRight(left: Json, right: Json, p: Path)
    requires WellFormed(left) && WellFormed(right)
    ensures PatchedView(Some(left), Compare(left, right, []), p) == View(right, p)
    decreases left, 2
  {
    var cs := Compare(left, right, []);
    if left == right {
    } else if left.Array? && right.Array? {
      ItemsReadAsRight(left, right, p);
    } else if left.Object? && right.Object? {
      FieldsReadAsRight(left, right, p);
    } else {
      assert cs == [Replace([], left, right)] && cs[0].path <= p && p[0..] == p;
    }
  }

  /** One slot under the first element of a path, when the values in it are compared correctly. */
  lemma SlotPatch(left: Option<Json>, right: Option<Json>, p: Path)
    requires p != []
    requires left.Some? && right.Some? ==>
      PatchedView(left, Compare(left.value, right.value, []), p[1..]) == View(right.value, p[1..])
    ensures SlotReads(left, right, p)
  {
    var cs := Slot(left, right);
    CoveringUnder(p[0], cs, p);
    CoveringIsPrefix(AllUnder([p[0]], cs), p);
    CoveringIsPrefix(cs, p[1..]);
    var inner := Covering(cs, p[1..]);
    if inner.Some? {
      var c := inner.value;
      assert Under([p[0]], c).path == [p[0]] + c.path;
      assert p[|c.path| + 1..] == p[1..][|c.path|..];
    }
    if left.None? && right.Some? {
      assert cs[0].path <= p[1..];
      assert p[1..][0..] == p[1..];
    }
    if left.Some? && right.None? {
      assert cs[0].path <= p[1..];
    }
  }

  // Equality up to the order of object keys.

  predicate SameUpToOrder(a: Json, b: Json)
    decreases a
  {
    match (a, b)
    case (Array(x), Array(y)) =>
      |x| == |y| && forall i | 0 <= i < |x| && i < |y| :: SameUpToOrder(x[i], y[i])
    case (Object(x), Object(y)) =>
      && (forall i | 0 <= i < |x| ::
            var j := Position(y, x[i].key); j >= 0 && SameUpToOrder(x[i].value, y[j].value))
      && (forall j | 0 <= j < |y| :: Position(x, y[j].key) >= 0)
    case _ => a == b
  }

  lemma {:induction false} SameIsReflexive(a: Json)
    requires WellFormed(a)
    ensures SameUpToOrder(a, a)
    decreases a
  {
    match a
    case Array(x) =>
      forall i | 0 <= i < |x|
        ensures SameUpToOrder(x[i], x[i])
      {
        SameIsReflexive(x[i]);
      }
    case Object(x) =>
      forall i | 0 <= i < |x|
        ensures Position(x, x[i].key) == i && SameUpToOrder(x[i].value, x[i].value)
      {
        SameIsReflexive(x[i].value);
        PositionOfField(x, i);
      }
    case _ =>
  }

  lemma PositionOfField(fields: seq<Field>, i: nat)
    requires i < |fields| && forall a, b | 0 <= a < b < |fields| :: fields[a].key != fields[b].key
    ensures Position(fields, fields[i].key) == i
  {
    var j := Position(fields, fields[i].key);
    assert fields[j].key == fields[i].key;
  }

  predicate EmptyItemSlots(left: seq<Json>, right: seq<Json>, i: nat) {
    forall k :: i <= k < Longer(left, right) ==> Slot(Item(left, k), Item(right, k)) == []
  }

  lemma EmptyFrom(left: seq<Json>, right: seq<Json>, i: nat)
    requires i < Longer(left, right)
    ensures EmptyItemSlots(left, right, i)
       <==> Slot(Item(left, i), Item(right, i)) == [] && EmptyItemSlots(left, right, i + 1)
  {
  }

  lemma {:induction false} NoItemChanges(left: seq<Json>, right: seq<Json>, i: nat)
    ensures CompareItems(left, right, [], i) == [] <==> EmptyItemSlots(left, right, i)
    decreases Longer(left, right) - i
  {
    if i < Longer(left, right) {
      FirstItemSlot(left, right, i);
      NoItemChanges(left, right, i + 1);
      EmptyFrom(left, right, i);
      assert |AllUnder([Index(i)], Slot(Item(left, i), Item(right, i)))| == |Slot(Item(left, i), Item(right, i))|;
    }
  }

  lemma {:induction false} NoFieldChanges(left: seq<Field>, right: seq<Field>, keys: seq<string>)
    ensures CompareFields(left, right, keys, []) == [] <==> EmptySlots(left, right, keys)
  {
    if keys != [] {
      FirstFieldSlot(left, right, keys);
      NoFieldChanges(left, right, keys[1..]);
      var slot := Slot(FieldValue(left, keys[0]), FieldValue(right, keys[0]));
      assert |AllUnder([Key(keys[0])], slot)| == |slot|;
      assert keys == [keys[0]] + keys[1..];
    }
  }

  /** Nothing is reported exactly when the two values are equal up to the order of object keys. */
  lemma {:induction false} NoChangesIffSame(left: Json, right: Json)
    requires WellFormed(left) && WellFormed(right)
    ensures Compare(left, right, []) == [] <==> SameUpToOrder(left, right)
    decreases left, 3
  {
    if left == right {
      SameIsReflexive(left);
    } else if left.Array? && right.Array? {
      var x, y := left.items, right.items;
      NoItemChanges(x, y, 0);
      forall i | 0 <= i < |x| && i < |y|
        ensures Slot(Item(x, i), Item(y, i)) == [] <==> SameUpToOrder(x[i], y[i])
      {
        NoChangesIffSame(x[i], y[i]);
      }
      if |x| != |y| {
        var i := if |x| < |y| then |x| else |y|;
        assert Slot(Item(x, i), Item(y, i)) != [];
      }
    } else if left.Object? && right.Object? {
      ObjectsNoChanges(left, right);
    }
  }

  lemma {:induction false} FieldSlotEmptyIffSame(left: Json, right: Json, i: nat)
    requires WellFormed(left) && WellFormed(right) && left.Object? && right.Object? && i < |left.fields|
    ensures var (x, y, k) := (left.fields, right.fields, left.fields[i].key);
      Slot(FieldValue(x, k), FieldValue(y, k)) == [] <==>
        Position(y, k) >= 0 && SameUpToOrder(x[i].value, y[Position(y, k)].value)
    decreases left, 0
  {
    var x, y, k := left.fields, right.fields, left.fields[i].key;
    PositionOfField(x, i);
    if Position(y, k) >= 0 {
      NoChangesIffSame(x[i].value, y[Position(y, k)].value);
    }
  }

  predicate EmptySlots(left: seq<Field>, right: seq<Field>, keys: seq<string>) {
    forall k <- keys :: Slot(FieldValue(left, k), FieldValue(right, k)) == []
  }

  lemma {:induction false} EmptySlotsAreSame(left: Json, right: Json)
    requires WellFormed(left) && WellFormed(right) && left.Object? && right.Object?
    requires EmptySlots(left.fields, right.fields, UnionKeys(left.fields, right.fields))
    ensures SameUpToOrder(left, right)
    decreases left, 1
  {
    var x, y := left.fields, right.fields;
    forall i | 0 <= i < |x|
      ensures Position(y, x[i].key) >= 0 && SameUpToOrder(x[i].value, y[Position(y, x[i].key)].value)
    {
      PositionOfField(x, i);
      InUnion(x, y, x[i].key);
      FieldSlotEmptyIffSame(left, right, i);
    }
    forall j | 0 <= j < |y|
      ensures Position(x, y[j].key) >= 0
    {
      InUnion(x, y, y[j].key);
      assert FieldValue(y, y[j].key).Some?;
    }
  }

  lemma {:induction false} SameHasEmptySlots(left: Json, right: Json)
    requires WellFormed(left) && WellFormed(right) && left.Object? && right.Object? && SameUpToOrder(left, right)
    ensures EmptySlots(left.fields, right.fields, UnionKeys(left.fields, right.fields))
    decreases left, 1
  {
    var x, y := left.fields, right.fields;
    forall k | k in UnionKeys(x, y)
      ensures Slot(FieldValue(x, k), FieldValue(y, k)) == []
    {
      InUnion(x, y, k);
      var i := Position(x, k);
      assert Position(y, k) >= 0 ==> y[Position(y, k)].key == k;
      if i >= 0 {
        FieldSlotEmptyIffSame(left, right, i);
      }
    }
  }

  lemma {:induction false} ObjectsNoChanges(left: Json, right: Json)
    requires WellFormed(left) && WellFormed(right) && left.Object? && right.Object?
    ensures CompareFields(left.fields, right.fields, UnionKeys(left.fields, right.fields), []) == []
       <==> SameUpToOrder(left, right)
    decreases left, 2
  {
    var keys := UnionKeys(left.fields, right.fields);
    NoFieldChanges(left.fields, right.fields, keys);
    if EmptySlots(left.fields, right.fields, keys) {
      EmptySlotsAreSame(left, right);
    }
    if SameUpToOrder(left, right) {
      SameHasEmptySlots(left, right);
    }
  }

  /** Values that read the same at every path are equal up to the order of object keys, and the other way round. */
  lemma {:induction false} SameReadsTheSame(a: Json, b: Json, p: Path)
    requires WellFormed(a) && WellFormed(b) && SameUpToOrder(a, b)
    ensures View(a, p) == View(b, p)
    decreases a
  {
    if p != [] {
      match (a, b)
      case (Array(x), Array(y)) =>
        if p[0].Index? && p[0].index < |x| {
          SameReadsTheSame(x[p[0].index], y[p[0].index], p[1..]);
        }
      case (Object(x), Object(y)) =>
        if p[0].Key? {
          var i, j := Position(x, p[0].key), Position(y, p[0].key);
          if i >= 0 {
            SameReadsTheSame(x[i].value, y[j].value, p[1..]);
          }
        }
      case _ =>
    }
  }

  lemma {:induction false} ReadsTheSameIsSame(a: Json, b: Json)
    requires WellFormed(a) && WellFormed(b)
    requires forall p :: View(a, p) == View(b, p)
    ensures SameUpToOrder(a, b)
    decreases a
  {
    assert View(a, []) == View(b, []);
    match (a, b)
    case (Array(x), Array(y)) =>
      ChildView(a, b, Index(|x|));
      ChildView(a, b, Index(|y|));
      forall i | 0 <= i < |x|
        ensures SameUpToOrder(x[i], y[i])
      {
        ChildrenReadTheSame(a, b, Index(i), x[i], y[i]);
        ReadsTheSameIsSame(x[i], y[i]);
      }
    case (Object(x), Object(y)) =>
      forall i | 0 <= i < |x|
        ensures Position(y, x[i].key) >= 0 && SameUpToOrder(x[i].value, y[Position(y, x[i].key)].value)
      {
        ChildView(a, b, Key(x[i].key));
        PositionOfField(x, i);
        var j := Position(y, x[i].key);
        ChildrenReadTheSame(a, b, Key(x[i].key), x[i].value, y[j].value);
        ReadsTheSameIsSame(x[i].value, y[j].value);
      }
      forall j | 0 <= j < |y|
        ensures Position(x, y[j].key) >= 0
      {
        ChildView(a, b, Key(y[j].key));
      }
    case _ =>
  }

  lemma ChildView(a: Json, b: Json, e: Elem)
    requires forall p :: View(a, p) == View(b, p)
    ensures Child(a, e).Some? <==> Child(b, e).Some?
  {
    assert View(a, [e]) == View(b, [e]);
    AtOneStep(a, e);
    AtOneStep(b, e);
  }

  lemma AtOneStep(v: Json, e: Elem)
    ensures At(v, [e]) == Child(v, e)
  {
    assert [e][1..] == [];
    if Child(v, e).Some? {
      assert At(Child(v, e).value, []) == Child(v, e);
    }
  }

  lemma ChildrenReadTheSame(a: Json, b: Json, e: Elem, c: Json, d: Json)
    requires forall p :: View(a, p) == View(b, p)
    requires Child(a, e) == Some(c) && Child(b, e) == Some(d)
    ensures forall p :: View(c, p) == View(d, p)
  {
    forall p: Path
      ensures View(c, p) == View(d, p)
    {
      var q := [e] + p;
      assert q[1..] == p && q[0] == e;
      assert View(a, q) == View(b, q);
    }
  }

  // Swapping the sides.

  function Mirror(c: Change): Change {
    match c
    case Add(p, v) => Remove(p, v)
    case Remove(p, v) => Add(p, v)
    case Replace(p, o, v) => Replace(p, v, o)
  }

  function Mirrored(cs: seq<Change>): seq<Change> {
    seq(|cs|, i requires 0 <= i < |cs| => Mirror(cs[i]))
  }

  function MapChanges(f: Change -> Change, cs: seq<Change>): seq<Change> {
    seq(|cs|, i requires 0 <= i < |cs| => f(cs[i]))
  }

  lemma MultisetSplit<T>(s: seq<T>, i: nat)
    requires i < |s|
    ensures multiset(s) == multiset(s[..i] + s[i + 1..]) + multiset{s[i]}
  {
    assert s == s[..i] + ([s[i]] + s[i + 1..]);
  }

  lemma MultisetRest<T>(s: seq<T>, i: nat)
    requires i < |s|
    ensures multiset(s[..i] + s[i + 1..]) == multiset(s) - multiset{s[i]}
  {
    MultisetSplit(s, i);
  }

  lemma PlaceOf<T>(x: T, s: seq<T>) returns (i: nat)
    requires x in multiset(s)
    ensures i < |s| && s[i] == x
  {
    assert x in s;
    i :| 0 <= i < |s| && s[i] == x;
  }

  lemma RestsAgree<T>(a: seq<T>, b: seq<T>, i: nat)
    requires a != [] && i < |b| && b[i] == a[0] && multiset(a) == multiset(b)
    ensures multiset(a[1..]) == multiset(b[..i] + b[i + 1..])
  {
    MultisetRest(a, 0);
    MultisetRest(b, i);
    assert a[..0] + a[1..] == a[1..];
  }

  /** Equal multisets stay equal when the first element of one side is taken from both. */
  lemma TakeFirst<T>(a: seq<T>, b: seq<T>) returns (i: nat)
    requires a != [] && multiset(a) == multiset(b)
    ensures i < |b| && b[i] == a[0] && multiset(a[1..]) == multiset(b[..i] + b[i + 1..])
  {
    i := PlaceOf(a[0], b);
    RestsAgree(a, b, i);
  }

  /** Mapping respects multisets. */
  lemma {:induction false} MapRespectsMultisets(f: Change -> Change, a: seq<Change>, b: seq<Change>)
    requires multiset(a) == multiset(b)
    ensures multiset(MapChanges(f, a)) == multiset(MapChanges(f, b))
    decreases |a|
  {
    if a == [] {
      assert |b| == |multiset(b)| == 0;
    } else {
      var i := TakeFirst(a, b);
      var rest := b[..i] + b[i + 1..];
      MapRespectsMultisets(f, a[1..], rest);
      var mapped := MapChanges(f, b);
      MultisetSplit(mapped, i);
      assert mapped[..i] + mapped[i + 1..] == MapChanges(f, rest);
      assert MapChanges(f, a) == [f(a[0])] + MapChanges(f, a[1..]);
    }
  }

  lemma UnderRespectsMultisets(path: Path, a: seq<Change>, b: seq<Change>)
    requires multiset(a) == multiset(b)
    ensures multiset(AllUnder(path, a)) == multiset(AllUnder(path, b))
  {
    var f := c => Under(path, c);
    MapRespectsMultisets(f, a, b);
    assert MapChanges(f, a) == AllUnder(path, a) && MapChanges(f, b) == AllUnder(path, b);
  }

  lemma MirroredUnder(path: Path, cs: seq<Change>)
    ensures Mirrored(AllUnder(path, cs)) == AllUnder(path, Mirrored(cs))
  {
  }

  lemma MirroredConcat(a: seq<Change>, b: seq<Change>)
    ensures Mirrored(a + b) == Mirrored(a) + Mirrored(b)
  {
  }

  /** One slot seen from the other side, when the values in it mirror. */
  lemma MirrorSlot(e: Elem, left: Option<Json>, right: Option<Json>)
    requires left.Some? && right.Some? ==>
      multiset(Compare(right.value, left.value, [])) == multiset(Mirrored(Compare(left.value, right.value, [])))
    ensures multiset(AllUnder([e], Slot(right, left))) == multiset(Mirrored(AllUnder([e], Slot(left, right))))
  {
    assert multiset(Slot(right, left)) == multiset(Mirrored(Slot(left, right)));
    UnderRespectsMultisets([e], Slot(right, left), Mirrored(Slot(left, right)));
    MirroredUnder([e], Slot(left, right));
  }

  /** The changes of the slots of some keys, whatever the order of the keys. */
  lemma {:induction false} FieldsInAnyOrder(left: seq<Field>, right: seq<Field>, a: seq<string>, b: seq<string>)
    requires multiset(a) == multiset(b)
    ensures multiset(CompareFields(left, right, a, [])) == multiset(CompareFields(left, right, b, []))
    decreases |a|
  {
    if a == [] {
      assert |b| == |multiset(b)| == 0;
    } else {
      var i := TakeFirst(a, b);
      var rest := b[..i] + b[i + 1..];
      FieldsInAnyOrder(left, right, a[1..], rest);
      FieldMovedToFront(left, right, b, i);
      FirstFieldSlot(left, right, a);
      FirstFieldSlot(left, right, [b[i]] + rest);
      assert ([b[i]] + rest)[1..] == rest;
    }
  }

  /** The changes of one key. */
  function KeyChanges(left: seq<Field>, right: seq<Field>, key: string): seq<Change> {
    AllUnder([Key(key)], Slot(FieldValue(left, key), FieldValue(right, key)))
  }

  lemma FieldBefore(left: seq<Field>, right: seq<Field>, key: string, keys: seq<string>)
    ensures CompareFields(left, right, [key] + keys, [])
         == KeyChanges(left, right, key) + CompareFields(left, right, keys, [])
  {
    FirstFieldSlot(left, right, [key] + keys);
    assert ([key] + keys)[1..] == keys;
  }

  lemma SwapInMultiset<T>(a: seq<T>, b: seq<T>, c: seq<T>, d: seq<T>)
    requires multiset(d) == multiset(b + c)
    ensures multiset(a + d) == multiset(b + (a + c))
  {
  }

  lemma KeyMovedPast(
    left: seq<Field>, right: seq<Field>, k: string, moved: string, rest: seq<string>, others: seq<string>
  )
    requires multiset(CompareFields(left, right, rest, []))
          == multiset(CompareFields(left, right, [moved] + others, []))
    ensures multiset(CompareFields(left, right, [k] + rest, []))
         == multiset(CompareFields(left, right, [moved] + ([k] + others), []))
  {
    FieldBefore(left, right, k, rest);
    FieldBefore(left, right, moved, others);
    FieldBefore(left, right, k, others);
    FieldBefore(left, right, moved, [k] + others);
    SwapInMultiset(KeyChanges(left, right, k), KeyChanges(left, right, moved),
      CompareFields(left, right, others, []), CompareFields(left, right, rest, []));
  }

  lemma KeysMoved(keys: seq<string>, i: nat)
    requires 0 < i < |keys|
    ensures var others := keys[1..][..i - 1] + keys[1..][i..];
      keys == [keys[0]] + keys[1..] && keys[..i] + keys[i + 1..] == [keys[0]] + others
  {
  }

  /** A key may come first instead of in its place. */
  ghost predicate MovesToFront(left: seq<Field>, right: seq<Field>, keys: seq<string>, i: nat)
    requires i < |keys|
  {
    multiset(CompareFields(left, right, keys, []))
    == multiset(CompareFields(left, right, [keys[i]] + (keys[..i] + keys[i + 1..]), []))
  }

  lemma MovesPastFirst(left: seq<Field>, right: seq<Field>, keys: seq<string>, i: nat)
    requires 0 < i < |keys| && MovesToFront(left, right, keys[1..], i - 1)
    ensures MovesToFront(left, right, keys, i)
  {
    KeysMoved(keys, i);
    KeyMovedPast(left, right, keys[0], keys[i], keys[1..], keys[1..][..i - 1] + keys[1..][i..]);
  }

  lemma {:induction false} FieldMovedToFront(left: seq<Field>, right: seq<Field>, keys: seq<string>, i: nat)
    requires i < |keys|
    ensures MovesToFront(left, right, keys, i)
  {
    if i == 0 {
      assert [keys[i]] + (keys[..i] + keys[i + 1..]) == keys;
    } else {
      FieldMovedToFront(left, right, keys[1..], i - 1);
      MovesPastFirst(left, right, keys, i);
    }
  }

  predicate ItemsMirror(left: seq<Json>, right: seq<Json>, i: nat) {
    i < |left| && i < |right| ==>
      multiset(Compare(right[i], left[i], [])) == multiset(Mirrored(Compare(left[i], right[i], [])))
  }

  lemma {:induction false} MirrorItems(left: seq<Json>, right: seq<Json>, i: nat)
    requires forall k: nat :: ItemsMirror(left, right, k)
    ensures multiset(CompareItems(right, left, [], i)) == multiset(Mirrored(CompareItems(left, right, [], i)))
    decreases Longer(left, right) - i
  {
    if i < Longer(left, right) {
      assert ItemsMirror(left, right, i);
      FirstItemSlot(left, right, i);
      FirstItemSlot(right, left, i);
      MirrorSlot(Index(i), Item(left, i), Item(right, i));
      MirrorItems(left, right, i + 1);
      MirroredConcat(AllUnder([Index(i)], Slot(Item(left, i), Item(right, i))), CompareItems(left, right, [], i + 1));
    }
  }

  predicate FieldsMirror(left: seq<Field>, right: seq<Field>, k: string) {
    Position(left, k) >= 0 && Position(right, k) >= 0 ==>
      var l, r := left[Position(left, k)].value, right[Position(right, k)].value;
      multiset(Compare(r, l, [])) == multiset(Mirrored(Compare(l, r, [])))
  }

  lemma {:induction false} MirrorFields(left: seq<Field>, right: seq<Field>, keys: seq<string>)
    requires forall k <- keys :: FieldsMirror(left, right, k)
    ensures multiset(CompareFields(right, left, keys, [])) == multiset(Mirrored(CompareFields(left, right, keys, [])))
  {
    if keys != [] {
      var k := keys[0];
      assert FieldsMirror(left, right, k);
      FirstFieldSlot(left, right, keys);
      FirstFieldSlot(right, left, keys);
      MirrorSlot(Key(k), FieldValue(left, k), FieldValue(right, k));
      MirrorFields(left, right, keys[1..]);
      MirroredConcat(AllUnder([Key(k)], Slot(FieldValue(left, k), FieldValue(right, k))),
                     CompareFields(left, right, keys[1..], []));
    }
  }

  lemma DistinctWithout(keys: seq<string>, fields: seq<Field>)
    requires forall i, j | 0 <= i < j < |keys| :: keys[i] != keys[j]
    ensures forall i, j | 0 <= i < j < |Without(keys, fields)| :: Without(keys, fields)[i] != Without(keys, fields)[j]
  {
    if keys != [] {
      var rest := Without(keys[1..], fields);
      DistinctWithout(keys[1..], fields);
      InWithout(keys[1..], fields, keys[0]);
      assert keys[0] !in rest;
    }
  }

  lemma DistinctUnion(left: seq<Field>, right: seq<Field>)
    requires WellFormed(Object(left)) && WellFormed(Object(right))
    ensures var keys := UnionKeys(left, right); forall i, j | 0 <= i < j < |keys| :: keys[i] != keys[j]
  {
    DistinctWithout(Keys(right), left);
    var a, b := Keys(left), Without(Keys(right), left);
    forall i, j | 0 <= i < |a| && 0 <= j < |b|
      ensures a[i] != b[j]
    {
      InWithout(Keys(right), left, b[j]);
      InKeys(left, a[i]);
    }
  }

  lemma {:induction false} DistinctSameMultiset<T>(a: seq<T>, b: seq<T>)
    requires forall i, j | 0 <= i < j < |a| :: a[i] != a[j]
    requires forall i, j | 0 <= i < j < |b| :: b[i] != b[j]
    requires forall x :: x in a <==> x in b
    ensures multiset(a) == multiset(b)
  {
    forall x
      ensures multiset(a)[x] == multiset(b)[x]
    {
      CountInDistinct(a, x);
      CountInDistinct(b, x);
    }
  }

  lemma {:induction false} CountInDistinct<T>(a: seq<T>, x: T)
    requires forall i, j | 0 <= i < j < |a| :: a[i] != a[j]
    ensures multiset(a)[x] == if x in a then 1 else 0
  {
    if a != [] {
      var front, last := a[..|a| - 1], a[|a| - 1];
      assert a == front + [last];
      CountInDistinct(front, x);
      assert last !in front;
    }
  }

  lemma UnionEitherWay(left: seq<Field>, right: seq<Field>)
    requires WellFormed(Object(left)) && WellFormed(Object(right))
    ensures multiset(UnionKeys(left, right)) == multiset(UnionKeys(right, left))
  {
    DistinctUnion(left, right);
    DistinctUnion(right, left);
    forall k
      ensures k in UnionKeys(left, right) <==> k in UnionKeys(right, left)
    {
      InUnion(left, right, k);
      InUnion(right, left, k);
    }
    DistinctSameMultiset(UnionKeys(left, right), UnionKeys(right, left));
  }

  /** Swapping the sides swaps additions with removals and old values with new ones, and reports nothing else. */
  lemma {:induction false} SwappingSidesMirrors(left: Json, right: Json)
    requires WellFormed(left) && WellFormed(right)
    ensures multiset(Compare(right, left, [])) == multiset(Mirrored(Compare(left, right, [])))
    decreases left
  {
    if left == right {
    } else if left.Array? && right.Array? {
      var x, y := left.items, right.items;
      forall k: nat
        ensures ItemsMirror(x, y, k)
      {
        if k < |x| && k < |y| {
          SwappingSidesMirrors(x[k], y[k]);
        }
      }
      MirrorItems(x, y, 0);
    } else if left.Object? && right.Object? {
      var x, y := left.fields, right.fields;
      assert Object(x) == left && Object(y) == right;
      forall k | k in UnionKeys(x, y)
        ensures FieldsMirror(x, y, k)
      {
        if Position(x, k) >= 0 && Position(y, k) >= 0 {
          SwappingSidesMirrors(x[Position(x, k)].value, y[Position(y, k)].value);
        }
      }
      MirrorFields(x, y, UnionKeys(x, y));
      UnionEitherWay(x, y);
      FieldsInAnyOrder(y, x, UnionKeys(x, y), UnionKeys(y, x));
    }
  }

  // The summary.

  datatype Summary = Summary(additions: nat, deletions: nat, changes: nat)

  function Count(cs: seq<Change>, kind: Change -> bool): nat {
    if cs == [] then 0 else (if kind(cs[0]) then 1 else 0) + Count(cs[1..], kind)
  }

  function Summarize(cs: seq<Change>): Summary {
    Summary(Count(cs, (c: Change) => c.Add?), Count(cs, (c: Change) => c.Remove?), Count(cs, (c: Change) => c.Replace?))
  }

  lemma {:induction false} CountIsPermutable(a: seq<Change>, b: seq<Change>, kind: Change -> bool)
    requires multiset(a) == multiset(b)
    ensures Count(a, kind) == Count(b, kind)
    decreases |a|
  {
    if a == [] {
      assert |b| == |multiset(b)| == 0;
    } else {
      var i := TakeFirst(a, b);
      CountIsPermutable(a[1..], b[..i] + b[i + 1..], kind);
      CountWithout(b, i, kind);
    }
  }

  lemma {:induction false} CountWithout(cs: seq<Change>, i: nat, kind: Change -> bool)
    requires i < |cs|
    ensures Count(cs, kind) == (if kind(cs[i]) then 1 else 0) + Count(cs[..i] + cs[i + 1..], kind)
  {
    if i == 0 {
      assert cs[..0] + cs[1..] == cs[1..];
    } else {
      CountWithout(cs[1..], i - 1, kind);
      assert (cs[..i] + cs[i + 1..])[1..] == cs[1..][..i - 1] + cs[1..][i..];
    }
  }

  lemma {:induction false} CountMirrored(cs: seq<Change>, kind: Change -> bool, mirror: Change -> bool)
    requires forall c :: kind(Mirror(c)) == mirror(c)
    ensures Count(Mirrored(cs), kind) == Count(cs, mirror)
  {
    if cs != [] {
      assert Mirrored(cs)[1..] == Mirrored(cs[1..]);
      CountMirrored(cs[1..], kind, mirror);
    }
  }

  /** So the counts of additions and deletions swap and the count of changes stays. */
  lemma {:induction false} SwappingSidesSwapsCounts(left: Json, right: Json)
    requires WellFormed(left) && WellFormed(right)
    ensures var (a, b) := (Summarize(Compare(left, right, [])), Summarize(Compare(right, left, [])));
      b == Summary(a.deletions, a.additions, a.changes)
  {
    var cs, ds := Compare(left, right, []), Compare(right, left, []);
    SwappingSidesMirrors(left, right);
    var add, remove, replace := (c: Change) => c.Add?, (c: Change) => c.Remove?, (c: Change) => c.Replace?;
    CountIsPermutable(ds, Mirrored(cs), add);
    CountIsPermutable(ds, Mirrored(cs), remove);
    CountIsPermutable(ds, Mirrored(cs), replace);
    CountMirrored(cs, add, remove);
    CountMirrored(cs, remove, add);
    CountMirrored(cs, replace, replace);
  }

  // No two reported paths overlap: each change is made at a place of its own.

  predicate Apart(a: Change, b: Change) {
    !(a.path <= b.path) && !(b.path <= a.path)
  }

  predicate Separate(cs: seq<Change>) {
    forall i, j :: 0 <= i < j < |cs| ==> Apart(cs[i], cs[j])
  }

  /** All paths start with one of the given elements. */
  predicate StartWith(cs: seq<Change>, starts: Elem -> bool) {
    forall i :: 0 <= i < |cs| ==> cs[i].path != [] && starts(cs[i].path[0])
  }

  lemma PrefixUnder(e: Elem, a: Path, b: Path)
    ensures [e] + a <= [e] + b <==> a <= b
  {
    assert ([e] + a)[1..] == a && ([e] + b)[1..] == b;
    if a <= b {
      assert [e] + b == ([e] + a) + b[|a|..];
    }
  }

  lemma SeparateUnder(e: Elem, cs: seq<Change>, rest: seq<Change>, starts: Elem -> bool)
    requires Separate(cs) && Separate(rest) && StartWith(rest, starts) && !starts(e)
    ensures Separate(AllUnder([e], cs) + rest)
  {
    var first := AllUnder([e], cs);
    forall i, j | 0 <= i < j < |first + rest|
      ensures Apart((first + rest)[i], (first + rest)[j])
    {
      var p, q := (first + rest)[i].path, (first + rest)[j].path;
      if j < |first| {
        assert Apart(cs[i], cs[j]);
        PrefixUnder(e, cs[i].path, cs[j].path);
        PrefixUnder(e, cs[j].path, cs[i].path);
      } else if i < |first| {
        assert p[0] == e;
        assert starts(rest[j - |first|].path[0]);
      } else {
        assert Apart(rest[i - |first|], rest[j - |first|]);
      }
    }
  }

  lemma {:induction false} ItemsStart(left: seq<Json>, right: seq<Json>, i: nat)
    ensures StartWith(CompareItems(left, right, [], i), (e: Elem) => e.Index? && e.index >= i)
    decreases Longer(left, right) - i
  {
    if i < Longer(left, right) {
      FirstItemSlot(left, right, i);
      ItemsStart(left, right, i + 1);
    }
  }

  lemma {:induction false} FieldsStart(left: seq<Field>, right: seq<Field>, keys: seq<string>)
    ensures StartWith(CompareFields(left, right, keys, []), (e: Elem) => e.Key? && e.key in keys)
  {
    if keys != [] {
      FirstFieldSlot(left, right, keys);
      FieldsStart(left, right, keys[1..]);
      assert keys == [keys[0]] + keys[1..];
    }
  }

  lemma {:induction false} SeparateItems(left: seq<Json>, right: seq<Json>, i: nat)
    requires WellFormed(Array(left)) && WellFormed(Array(right))
    ensures Separate(CompareItems(left, right, [], i))
    decreases left, 0, Longer(left, right) - i
  {
    if i < Longer(left, right) {
      FirstItemSlot(left, right, i);
      if i < |left| && i < |right| {
        ChangesDoNotOverlap(left[i], right[i]);
      }
      SeparateItems(left, right, i + 1);
      ItemsStart(left, right, i + 1);
      SeparateUnder(Index(i), Slot(Item(left, i), Item(right, i)), CompareItems(left, right, [], i + 1),
                    (e: Elem) => e.Index? && e.index >= i + 1);
    }
  }

  lemma {:induction false} SeparateFields(left: seq<Field>, right: seq<Field>, keys: seq<string>)
    requires WellFormed(Object(left)) && WellFormed(Object(right))
    requires forall i, j | 0 <= i < j < |keys| :: keys[i] != keys[j]
    ensures Separate(CompareFields(left, right, keys, []))
    decreases left, 0, |keys|
  {
    if keys != [] {
      var k := keys[0];
      var l, r := Position(left, k), Position(right, k);
      FirstFieldSlot(left, right, keys);
      if l >= 0 && r >= 0 {
        ChangesDoNotOverlap(left[l].value, right[r].value);
      }
      SeparateFields(left, right, keys[1..]);
      FieldsStart(left, right, keys[1..]);
      SeparateUnder(Key(k), Slot(FieldValue(left, k), FieldValue(right, k)), CompareFields(left, right, keys[1..], []),
                    (e: Elem) => e.Key? && e.key in keys[1..]);
    }
  }

  lemma {:induction false} ChangesDoNotOverlap(left: Json, right: Json)
    requires WellFormed(left) && WellFormed(right)
    ensures Separate(Compare(left, right, []))
    decreases left, 1
  {
    if left == right {
    } else if left.Array? && right.Array? {
      assert Array(left.items) == left && Array(right.items) == right;
      SeparateItems(left.items, right.items, 0);
    } else if left.Object? && right.Object? {
      assert Object(left.fields) == left && Object(right.fields) == right;
      DistinctUnion(left.fields, right.fields);
      SeparateFields(left.fields, right.fields, UnionKeys(left.fields, right.fields));
    }
  }
}
