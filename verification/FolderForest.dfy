/**
 The way up from a folder to the top. Nothing keeps parents from going round in a circle; the loop that follows them
 ends exactly where no folder comes twice.
 */
module FolderForest {
  import opened Options
  import opened Sets

  datatype Folder = Folder(id: string, name: string, parentFolderId: Option<string>)

  /** The folder above; a missing or unknown parent is none. */
  function Above(byId: map<string, Folder>, folder: Folder): Option<Folder> {
    if folder.parentFolderId.Some? && folder.parentFolderId.value != "" then
      Lookup(byId, folder.parentFolderId.value)
    else None
  }

  predicate KeyedById(byId: map<string, Folder>) {
    forall id <- byId :: byId[id].id == id
  }

  predicate Known(byId: map<string, Folder>, folder: Folder) {
    Lookup(byId, folder.id) == Some(folder)
  }

  /** Where `n` turns of the loop lead. */
  function Up(byId: map<string, Folder>, current: Option<Folder>, n: nat): Option<Folder>
    decreases n
  {
    if n == 0 || current.None? then current else Up(byId, Above(byId, current.value), n - 1)
  }

  /** The loop from the folder ends. */
  ghost predicate Ends(byId: map<string, Folder>, folder: Folder) {
    exists n: nat :: Up(byId, Some(folder), n).None?
  }

  /** The loop ends from every folder. */
  ghost predicate Acyclic(byId: map<string, Folder>) {
    forall id <- byId :: Ends(byId, byId[id])
  }

  lemma {:induction false} UpUp(byId: map<string, Folder>, current: Option<Folder>, m: nat, n: nat)
    ensures Up(byId, current, m + n) == Up(byId, Up(byId, current, m), n)
    decreases m
  {
    if m > 0 && current.Some? {
      UpUp(byId, Above(byId, current.value), m - 1, n);
    }
  }

  lemma {:induction false} UpIsKnown(byId: map<string, Folder>, folder: Folder, n: nat)
    requires KeyedById(byId) && Known(byId, folder)
    ensures var f := Up(byId, Some(folder), n); f.Some? ==> Known(byId, f.value)
    decreases n
  {
    if n > 0 && Above(byId, folder).Some? {
      UpIsKnown(byId, Above(byId, folder).value, n - 1);
    }
  }

  // The number of turns until the loop ends.

  /** The least number of turns from `n` downwards. */
  ghost function LeastFrom(byId: map<string, Folder>, folder: Folder, n: nat): (least: nat)
    requires Up(byId, Some(folder), n).None?
    ensures Up(byId, Some(folder), least).None? && least > 0 && Up(byId, Some(folder), least - 1).Some?
  {
    if Up(byId, Some(folder), n - 1).None? then LeastFrom(byId, folder, n - 1) else n
  }

  ghost function Height(byId: map<string, Folder>, folder: Folder): (h: nat)
    requires Ends(byId, folder)
    ensures Up(byId, Some(folder), h).None? && h > 0 && Up(byId, Some(folder), h - 1).Some?
  {
    var n: nat :| Up(byId, Some(folder), n).None?;
    LeastFrom(byId, folder, n)
  }

  lemma OnceEndedStays(byId: map<string, Folder>, current: Option<Folder>, m: nat, n: nat)
    requires m <= n && Up(byId, current, m).None?
    ensures Up(byId, current, n).None?
  {
    UpUp(byId, current, m, n - m);
  }

  lemma HeightIsLeast(byId: map<string, Folder>, folder: Folder, n: nat)
    requires Ends(byId, folder)
    ensures Up(byId, Some(folder), n).None? <==> n >= Height(byId, folder)
  {
    var h := Height(byId, folder);
    if n >= h {
      OnceEndedStays(byId, Some(folder), h, n);
    } else if Up(byId, Some(folder), n).None? {
      OnceEndedStays(byId, Some(folder), n, h - 1);
      assert false;
    }
  }

  /** The folder above ends one turn sooner. */
  lemma AboveIsLower(byId: map<string, Folder>, folder: Folder)
    requires Ends(byId, folder) && Above(byId, folder).Some?
    ensures var above := Above(byId, folder).value;
      Ends(byId, above) && Height(byId, above) + 1 == Height(byId, folder)
  {
    var above, h := Above(byId, folder).value, Height(byId, folder);
    assert Up(byId, Some(above), h - 1) == Up(byId, Some(folder), h);
    HeightIsLeast(byId, above, h - 1);
    HeightIsLeast(byId, folder, Height(byId, above) + 1);
    assert Up(byId, Some(folder), Height(byId, above) + 1) == Up(byId, Some(above), Height(byId, above));
  }

  lemma BelowEnds(byId: map<string, Folder>, folder: Folder)
    requires Above(byId, folder).Some? ==> Ends(byId, Above(byId, folder).value)
    ensures Ends(byId, folder)
  {
    if Above(byId, folder).Some? {
      var n: nat :| Up(byId, Above(byId, folder), n).None?;
      assert Up(byId, Some(folder), n + 1) == Up(byId, Above(byId, folder), n);
    } else {
      assert Up(byId, Some(folder), 1) == Up(byId, None, 0);
    }
  }

  // When the loop does not end.

  /** A folder that is its own parent is where the loop stays for ever. */
  lemma {:induction false} OwnParentNeverEnds(byId: map<string, Folder>, folder: Folder, n: nat)
    requires Known(byId, folder) && folder.parentFolderId == Some(folder.id) && folder.id != ""
    ensures Up(byId, Some(folder), n) == Some(folder)
    decreases n
  {
    if n > 0 {
      OwnParentNeverEnds(byId, folder, n - 1);
    }
  }

  /** Numbers that go down on the way up. */
  ghost predicate Ranked(byId: map<string, Folder>, rank: string -> nat) {
    forall id <- byId :: Above(byId, byId[id]).Some? ==> rank(Above(byId, byId[id]).value.id) < rank(id)
  }

  lemma {:induction false} RankedEnds(byId: map<string, Folder>, rank: string -> nat, folder: Folder)
    requires KeyedById(byId) && Ranked(byId, rank) && Known(byId, folder)
    ensures Ends(byId, folder)
    decreases rank(folder.id)
  {
    if Above(byId, folder).Some? {
      RankedEnds(byId, rank, Above(byId, folder).value);
    }
    BelowEnds(byId, folder);
  }

  ghost function Heights(byId: map<string, Folder>): (rank: string -> nat) {
    id => if id in byId && Ends(byId, byId[id]) then Height(byId, byId[id]) else 0
  }

  /** The loop ends from every folder exactly if parents can be ranked below their children. */
  lemma {:induction false} AcyclicIffRanked(byId: map<string, Folder>)
    requires KeyedById(byId)
    ensures Acyclic(byId) <==> exists rank: string -> nat :: Ranked(byId, rank)
  {
    if Acyclic(byId) {
      forall id | id in byId && Above(byId, byId[id]).Some?
        ensures Heights(byId)(Above(byId, byId[id]).value.id) < Heights(byId)(id)
      {
        AboveIsLower(byId, byId[id]);
      }
      assert Ranked(byId, Heights(byId));
    }
    if rank: string -> nat :| Ranked(byId, rank) {
      forall id | id in byId
        ensures Ends(byId, byId[id])
      {
        RankedEnds(byId, rank, byId[id]);
      }
    }
  }

  /** No folder comes twice on the way up. */
  ghost predicate NoneTwice(byId: map<string, Folder>, folder: Folder) {
    forall i: nat, j: nat :: i < j && Up(byId, Some(folder), j).Some? ==>
      Up(byId, Some(folder), i) != Up(byId, Some(folder), j)
  }

  lemma EndingMeetsNoneTwice(byId: map<string, Folder>, folder: Folder)
    requires Ends(byId, folder)
    ensures NoneTwice(byId, folder)
  {
    var start, h := Some(folder), Height(byId, folder);
    forall i: nat, j: nat | i < j && Up(byId, start, j).Some?
      ensures Up(byId, start, i) != Up(byId, start, j)
    {
      HeightIsLeast(byId, folder, j);
      UpUp(byId, start, i, h - j);
      UpUp(byId, start, j, h - j);
      HeightIsLeast(byId, folder, i + (h - j));
    }
  }

  /** The ids met in the first `n` turns. */
  function Met(byId: map<string, Folder>, folder: Folder, n: nat): set<string> {
    if n == 0 then {}
    else
      var f := Up(byId, Some(folder), n - 1);
      Met(byId, folder, n - 1) + if f.Some? then {f.value.id} else {}
  }

  lemma {:induction false} MetAreUps(byId: map<string, Folder>, folder: Folder, n: nat, id: string)
    requires KeyedById(byId) && Known(byId, folder) && id in Met(byId, folder, n)
    ensures id in byId && exists i: nat :: i < n && Up(byId, Some(folder), i) == Some(byId[id])
  {
    var f := Up(byId, Some(folder), n - 1);
    UpIsKnown(byId, folder, n - 1);
    if id in Met(byId, folder, n - 1) {
      MetAreUps(byId, folder, n - 1, id);
    }
  }

  lemma NextIsNotMet(byId: map<string, Folder>, folder: Folder, n: nat)
    requires KeyedById(byId) && Known(byId, folder) && NoneTwice(byId, folder) && Up(byId, Some(folder), n).Some?
    ensures Up(byId, Some(folder), n).value.id !in Met(byId, folder, n)
    ensures Up(byId, Some(folder), n).value.id in byId
  {
    var f := Up(byId, Some(folder), n).value;
    UpIsKnown(byId, folder, n);
    if f.id in Met(byId, folder, n) {
      MetAreUps(byId, folder, n, f.id);
      assert false;
    }
  }

  lemma {:induction false} EachTurnMeetsAnother(byId: map<string, Folder>, folder: Folder, n: nat)
    requires KeyedById(byId) && Known(byId, folder) && NoneTwice(byId, folder)
    requires n > 0 ==> Up(byId, Some(folder), n - 1).Some?
    ensures |Met(byId, folder, n)| == n && Met(byId, folder, n) <= byId.Keys
  {
    if n > 0 {
      if n > 1 && Up(byId, Some(folder), n - 2).None? {
        OnceEndedStays(byId, Some(folder), n - 2, n - 1);
      }
      EachTurnMeetsAnother(byId, folder, n - 1);
      NextIsNotMet(byId, folder, n - 1);
    }
  }

  lemma NoneTwiceEndsSoon(byId: map<string, Folder>, folder: Folder)
    requires KeyedById(byId) && Known(byId, folder) && NoneTwice(byId, folder)
    ensures Up(byId, Some(folder), |byId|).None?
  {
    assert |byId.Keys| == |byId|;
    if Up(byId, Some(folder), |byId|).Some? {
      EachTurnMeetsAnother(byId, folder, |byId| + 1);
      SubsetIsNoLarger(Met(byId, folder, |byId| + 1), byId.Keys);
      assert false;
    }
  }

  /** The loop ends exactly if it has ended after as many turns as there are folders, and if no folder comes twice. */
  lemma {:induction false} EndsIffWithinSize(byId: map<string, Folder>, folder: Folder)
    requires KeyedById(byId) && Known(byId, folder)
    ensures Ends(byId, folder) <==> Up(byId, Some(folder), |byId|).None?
    ensures Ends(byId, folder) <==> NoneTwice(byId, folder)
  {
    if Ends(byId, folder) {
      EndingMeetsNoneTwice(byId, folder);
    }
    if NoneTwice(byId, folder) {
      NoneTwiceEndsSoon(byId, folder);
    }
  }
}
