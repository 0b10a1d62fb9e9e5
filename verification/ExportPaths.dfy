/**
 The paths of exported folders: the slugs from the top down to a folder. The loop that goes up need not end, so it is
 given up after some number of turns here; with as many turns as there are folders it ends if it ever does.
 */
module ExportPaths {
  import opened ExportSlugs
  import opened FolderForest
  import opened JsText
  import opened Options
  import opened Seqs
  import opened Slugs

  function ById(folders: seq<Folder>): map<string, Folder> {
    if folders == [] then map[] else ById(Front(folders))[Last(folders).id := Last(folders)]
  }

  lemma {:induction false} ByIdFinds(folders: seq<Folder>)
    requires DistinctIds(folders)
    ensures forall f <- folders :: f.id in ById(folders) && ById(folders)[f.id] == f
    ensures forall id <- ById(folders) :: ById(folders)[id] in folders && ById(folders)[id].id == id
  {
    if folders != [] {
      ByIdFinds(Front(folders));
      assert folders == Front(folders) + [Last(folders)];
    }
  }

  lemma ByIdIsKeyed(folders: seq<Folder>)
    requires DistinctIds(folders)
    ensures KeyedById(ById(folders)) && |ById(folders)| == |folders|
    ensures forall f <- folders :: Known(ById(folders), f)
  {
    ByIdFinds(folders);
    ByIdSize(folders);
  }

  lemma {:induction false} ByIdSize(folders: seq<Folder>)
    requires DistinctIds(folders)
    ensures |ById(folders)| == |folders|
  {
    if folders != [] {
      ByIdSize(Front(folders));
      ByIdFinds(Front(folders));
      assert Last(folders).id !in ById(Front(folders)) by {
        assert forall f <- Front(folders) :: f.id != Last(folders).id;
      }
    }
  }

  /** Every parent that is named exists. */
  predicate ParentsPresent(byId: map<string, Folder>) {
    forall id <- byId :: byId[id].parentFolderId.Some? ==>
      byId[id].parentFolderId.value != "" && byId[id].parentFolderId.value in byId
  }

  function SlugFor(slugById: map<string, string>, folder: Folder): string {
    if folder.id in slugById then slugById[folder.id] else Slug(folder.name)
  }

  /** The slugs from the top down to a folder the loop ends from. */
  ghost function Parts(byId: map<string, Folder>, slugById: map<string, string>, folder: Folder): seq<string>
    requires Ends(byId, folder)
    decreases Height(byId, folder)
  {
    var above := Above(byId, folder);
    var upper := if above.Some? then AboveIsLower(byId, folder); Parts(byId, slugById, above.value) else [];
    upper + [SlugFor(slugById, folder)]
  }

  /** The loop from what is left of the way ends. */
  ghost predicate EndsFrom(byId: map<string, Folder>, current: Option<Folder>) {
    current.Some? ==> Ends(byId, current.value)
  }

  /** The parts down to a folder, if there is one. */
  ghost function PartsTo(
    byId: map<string, Folder>, slugById: map<string, string>, current: Option<Folder>
  ): seq<string>
    requires EndsFrom(byId, current)
  {
    if current.Some? then Parts(byId, slugById, current.value) else []
  }

  /** The parts of the whole path are those above and those collected. */
  ghost predicate Collected(
    byId: map<string, Folder>, slugById: map<string, string>, folder: Folder, current: Option<Folder>,
    parts: seq<string>
  ) {
    Ends(byId, folder) ==>
      EndsFrom(byId, current) && Parts(byId, slugById, folder) == PartsTo(byId, slugById, current) + parts
  }

  lemma CollectedFirst(byId: map<string, Folder>, slugById: map<string, string>, folder: Folder)
    ensures Collected(byId, slugById, folder, Above(byId, folder), [SlugFor(slugById, folder)])
  {
    if Ends(byId, folder) && Above(byId, folder).Some? {
      AboveIsLower(byId, folder);
    }
  }

  lemma CollectedNext(
    byId: map<string, Folder>, slugById: map<string, string>, folder: Folder, current: Folder, parts: seq<string>
  )
    requires Collected(byId, slugById, folder, Some(current), parts)
    ensures Collected(byId, slugById, folder, Above(byId, current), [SlugFor(slugById, current)] + parts)
  {
    if Ends(byId, folder) {
      CollectedFirst(byId, slugById, current);
      ConcatAssociates(PartsTo(byId, slugById, Above(byId, current)), [SlugFor(slugById, current)], parts);
    }
  }

  ghost function PathOf(byId: map<string, Folder>, slugById: map<string, string>, folder: Folder): string
    requires Ends(byId, folder)
  {
    Join(Parts(byId, slugById, folder), "/")
  }

  lemma {:induction false} JoinLast(parts: seq<string>, last: string)
    ensures Join(parts + [last], "/") == if parts == [] then last else Join(parts, "/") + "/" + last
  {
    if parts != [] {
      assert (parts + [last])[1..] == parts[1..] + [last];
      JoinLast(parts[1..], last);
      if |parts| > 1 {
        assert parts[0] + "/" + (Join(parts[1..], "/") + "/" + last)
            == parts[0] + "/" + Join(parts[1..], "/") + "/" + last;
      }
    }
  }

  /** The path of a folder is that of its parent, if that is known, a slash and its own slug. */
  lemma {:induction false} PathBelowParent(byId: map<string, Folder>, slugById: map<string, string>, folder: Folder)
    requires Ends(byId, folder) && folder.id in slugById
    ensures match folder.parentFolderId
      case Some(parent) =>
        if parent != "" && parent in byId then
          Ends(byId, byId[parent])
          && PathOf(byId, slugById, folder) == PathOf(byId, slugById, byId[parent]) + "/" + slugById[folder.id]
        else PathOf(byId, slugById, folder) == slugById[folder.id]
      case None => PathOf(byId, slugById, folder) == slugById[folder.id]
  {
    var above := Above(byId, folder);
    if above.Some? {
      AboveIsLower(byId, folder);
      PartsEnd(byId, slugById, above.value);
      JoinLast(Parts(byId, slugById, above.value), slugById[folder.id]);
    } else {
      JoinLast([], slugById[folder.id]);
    }
  }

  /**
   The loop up the parents, given up after `turns` turns: it has a path exactly if the way up is over by then, and the
   path is the one any number of turns that suffices gives.
   */
  method FolderExportPath(
    folder: Folder, byId: map<string, Folder>, slugById: map<string, string>, turns: nat
  ) returns (path: Option<string>)
    ensures path.Some? <==> Up(byId, Some(folder), turns + 1).None?
    ensures path.Some? ==> Ends(byId, folder) && path.value == PathOf(byId, slugById, folder)
  {
    var parts := [SlugFor(slugById, folder)];
    var current, left := Above(byId, folder), turns;
    CollectedFirst(byId, slugById, folder);
    while current.Some? && left > 0
      invariant Up(byId, Some(folder), turns + 1) == Up(byId, current, left)
      invariant Collected(byId, slugById, folder, current, parts)
      decreases left
    {
      CollectedNext(byId, slugById, folder, current.value, parts);
      parts := [SlugFor(slugById, current.value)] + parts;
      current, left := Above(byId, current.value), left - 1;
    }
    if current.Some? {
      return None;
    }
    assert [] + parts == parts;
    path := Some(Join(parts, "/"));
  }

  /** With as many turns as there are folders the loop has a path exactly if it ends at all. */
  lemma {:induction false} TurnsSuffice(byId: map<string, Folder>, folder: Folder, turns: nat)
    requires KeyedById(byId) && Known(byId, folder) && turns >= |byId|
    ensures Up(byId, Some(folder), turns + 1).None? <==> Ends(byId, folder)
  {
    EndsIffWithinSize(byId, folder);
    if Ends(byId, folder) {
      OnceEndedStays(byId, Some(folder), |byId|, turns + 1);
    }
  }

  lemma {:induction false} PartsAreSlugs(folders: seq<Folder>, slugById: map<string, string>, folder: Folder)
    requires DistinctIds(folders) && SlugsApart(folders, slugById) && folder in folders
    requires Ends(ById(folders), folder)
    ensures forall part <- Parts(ById(folders), slugById, folder) :: IsSlug(part)
    decreases Height(ById(folders), folder)
  {
    var above := Above(ById(folders), folder);
    ByIdFinds(folders);
    if above.Some? {
      AboveIsLower(ById(folders), folder);
      PartsAreSlugs(folders, slugById, above.value);
    }
  }

  /** The folders that are exported at the top, those with no known parent above them, have different slugs. */
  predicate TopsApart(folders: seq<Folder>, slugById: map<string, string>) {
    forall f, g :: f in folders && g in folders && BothAtTop(folders, f, g) ==>
      SlugFor(slugById, f) != SlugFor(slugById, g)
  }

  predicate BothAtTop(folders: seq<Folder>, f: Folder, g: Folder) {
    f.id != g.id && Above(ById(folders), f).None? && Above(ById(folders), g).None?
  }

  lemma SameAboveIsSibling(folders: seq<Folder>, a: Folder, b: Folder)
    requires DistinctIds(folders) && a in folders && b in folders && a.id != b.id
    requires Above(ById(folders), a).Some? && Above(ById(folders), b).Some?
    requires Above(ById(folders), a).value.id == Above(ById(folders), b).value.id
    ensures Siblings(a, b)
  {
    ByIdFinds(folders);
  }

  lemma PartsEnd(byId: map<string, Folder>, slugById: map<string, string>, folder: Folder)
    requires Ends(byId, folder)
    ensures EndsFrom(byId, Above(byId, folder))
    ensures var parts := Parts(byId, slugById, folder);
      && parts != [] && Last(parts) == SlugFor(slugById, folder)
      && Front(parts) == PartsTo(byId, slugById, Above(byId, folder))
  {
    if Above(byId, folder).Some? {
      AboveIsLower(byId, folder);
    }
    LastIsLast(PartsTo(byId, slugById, Above(byId, folder)), SlugFor(slugById, folder));
  }

  lemma LastIsLast<T>(front: seq<T>, last: T)
    ensures Front(front + [last]) == front && Last(front + [last]) == last
  {
  }

  /** When the folders at the top have different slugs, different folders have different lists of slugs. */
  lemma {:induction false} PartsDiffer(folders: seq<Folder>, slugById: map<string, string>, a: Folder, b: Folder)
    requires DistinctIds(folders) && SlugsApart(folders, slugById) && TopsApart(folders, slugById)
    requires a in folders && b in folders && a.id != b.id
    requires Ends(ById(folders), a) && Ends(ById(folders), b)
    ensures Parts(ById(folders), slugById, a) != Parts(ById(folders), slugById, b)
    decreases Height(ById(folders), a)
  {
    var byId := ById(folders);
    var p, q := Above(byId, a), Above(byId, b);
    ByIdFinds(folders);
    PartsEnd(byId, slugById, a);
    PartsEnd(byId, slugById, b);
    if p.Some? && q.Some? {
      if p.value.id == q.value.id {
        SameAboveIsSibling(folders, a, b);
      } else {
        AboveIsLower(byId, a);
        PartsDiffer(folders, slugById, p.value, q.value);
      }
    } else if p.Some? {
      PartsEnd(byId, slugById, p.value);
    } else if q.Some? {
      PartsEnd(byId, slugById, q.value);
    } else {
      assert BothAtTop(folders, a, b);
    }
  }

  /** Paths are equal exactly if the lists of slugs are. */
  lemma PathIsParts(folders: seq<Folder>, slugById: map<string, string>, a: Folder, b: Folder)
    requires DistinctIds(folders) && SlugsApart(folders, slugById) && a in folders && b in folders
    requires Ends(ById(folders), a) && Ends(ById(folders), b)
    ensures PathOf(ById(folders), slugById, a) == PathOf(ById(folders), slugById, b)
       <==> Parts(ById(folders), slugById, a) == Parts(ById(folders), slugById, b)
  {
    PartsAreSlugs(folders, slugById, a);
    PartsAreSlugs(folders, slugById, b);
    SplitJoined(Parts(ById(folders), slugById, a), '/');
    SplitJoined(Parts(ById(folders), slugById, b), '/');
  }

  /** No two folders have the same path. */
  ghost predicate PathsApart(folders: seq<Folder>, slugById: map<string, string>)
    requires forall f <- folders :: Ends(ById(folders), f)
  {
    forall f, g :: f in folders && g in folders && f.id != g.id ==>
      PathOf(ById(folders), slugById, f) != PathOf(ById(folders), slugById, g)
  }

  /** No two folders have the same path exactly if the folders at the top have different slugs. */
  lemma {:induction false} PathsDifferIff(folders: seq<Folder>, slugById: map<string, string>)
    requires DistinctIds(folders) && SlugsApart(folders, slugById)
    requires forall f <- folders :: Ends(ById(folders), f)
    ensures PathsApart(folders, slugById) <==> TopsApart(folders, slugById)
  {
    if TopsApart(folders, slugById) {
      forall f, g | f in folders && g in folders && f.id != g.id
        ensures PathOf(ById(folders), slugById, f) != PathOf(ById(folders), slugById, g)
      {
        PartsDiffer(folders, slugById, f, g);
        PathIsParts(folders, slugById, f, g);
      }
    }
    if PathsApart(folders, slugById) {
      forall f, g | f in folders && g in folders && BothAtTop(folders, f, g)
        ensures SlugFor(slugById, f) != SlugFor(slugById, g)
      {
        TopIsItsSlug(ById(folders), slugById, f);
        TopIsItsSlug(ById(folders), slugById, g);
      }
    }
  }

  lemma TopIsItsSlug(byId: map<string, Folder>, slugById: map<string, string>, folder: Folder)
    requires Above(byId, folder).None?
    ensures Ends(byId, folder) && PathOf(byId, slugById, folder) == SlugFor(slugById, folder)
  {
    BelowEnds(byId, folder);
    assert Parts(byId, slugById, folder) == [SlugFor(slugById, folder)];
  }

  /** When every parent that is named exists, the folders at the top are siblings. */
  lemma PresentParentsSetTopsApart(folders: seq<Folder>, slugById: map<string, string>)
    requires DistinctIds(folders) && SlugsApart(folders, slugById) && ParentsPresent(ById(folders))
    ensures TopsApart(folders, slugById)
  {
    ByIdFinds(folders);
    forall f, g | f in folders && g in folders && BothAtTop(folders, f, g)
      ensures SlugFor(slugById, f) != SlugFor(slugById, g)
    {
      assert Siblings(f, g);
    }
  }

  /**
   Two folders of one name, one at the top and one whose parent is gone: they are the only ones of their groups, so
   both are exported under the plain name.
   */
  lemma {:induction false} DanglingParentCollides(
    name: string, top: string, dangling: string, gone: string,
    arrange: seq<Folder> -> seq<Folder>, slugById: map<string, string>
  )
    requires top != dangling && gone != top && gone != dangling && gone != "root" && Permutes(arrange)
    requires Assigned([Folder(top, name, None), Folder(dangling, name, Some(gone))], arrange, slugById)
    ensures var folders := [Folder(top, name, None), Folder(dangling, name, Some(gone))];
      && DistinctIds(folders) && Ends(ById(folders), folders[0]) && Ends(ById(folders), folders[1])
      && PathOf(ById(folders), slugById, folders[0]) == PathOf(ById(folders), slugById, folders[1])
  {
    var a, b := Folder(top, name, None), Folder(dangling, name, Some(gone));
    var folders := [a, b];
    TwoById(a, b);
    assert a in folders && b in folders;
    assert Lone(folders, a) && Lone(folders, b);
    LoneIsPlain(folders, arrange, slugById, a);
    LoneIsPlain(folders, arrange, slugById, b);
    TopIsItsSlug(ById(folders), slugById, a);
    TopIsItsSlug(ById(folders), slugById, b);
  }

  lemma TwoById(a: Folder, b: Folder)
    ensures ById([a, b]) == map[a.id := a][b.id := b]
  {
    assert Front([a, b]) == [a] && Front([a]) == [];
    assert ById([a]) == map[a.id := a];
  }

  /** The map holds the paths of the folders. */
  ghost predicate PathsOf(
    folders: seq<Folder>, byId: map<string, Folder>, slugById: map<string, string>, paths: map<string, string>
  )
    requires forall f <- folders :: Ends(byId, f)
  {
    && paths.Keys == Ids(folders)
    && forall f <- folders :: paths[f.id] == PathOf(byId, slugById, f)
  }

  lemma PathsNext(
    folders: seq<Folder>, folder: Folder, byId: map<string, Folder>, slugById: map<string, string>,
    paths: map<string, string>
  )
    requires (forall f <- folders :: Ends(byId, f)) && Ends(byId, folder)
    requires (forall f <- folders :: f.id != folder.id) && PathsOf(folders, byId, slugById, paths)
    ensures forall f <- folders + [folder] :: Ends(byId, f)
    ensures PathsOf(folders + [folder], byId, slugById, paths[folder.id := PathOf(byId, slugById, folder)])
  {
    assert Ids(folders + [folder]) == Ids(folders) + {folder.id};
  }

  method CollectPaths(folders: seq<Folder>, byId: map<string, Folder>, slugById: map<string, string>, turns: nat)
    returns (paths: Option<map<string, string>>)
    requires DistinctIds(folders)
    ensures paths.Some? <==> forall f <- folders :: Up(byId, Some(f), turns + 1).None?
    ensures paths.Some? ==> (forall f <- folders :: Ends(byId, f)) && PathsOf(folders, byId, slugById, paths.value)
  {
    var pathById: map<string, string> := map[];
    for n := 0 to |folders|
      invariant forall f <- folders[..n] :: Up(byId, Some(f), turns + 1).None? && Ends(byId, f)
      invariant PathsOf(folders[..n], byId, slugById, pathById)
    {
      var folder := folders[n];
      assert folder in folders && folders[..n + 1] == folders[..n] + [folder];
      var path := FolderExportPath(folder, byId, slugById, turns);
      if path.None? {
        return None;
      }
      PathsNext(folders[..n], folder, byId, slugById, pathById);
      pathById := pathById[folder.id := path.value];
    }
    assert folders[..|folders|] == folders;
    paths := Some(pathById);
  }

  lemma AllPathsDifferIff(folders: seq<Folder>, slugById: map<string, string>, paths: map<string, string>)
    requires DistinctIds(folders) && SlugsApart(folders, slugById)
    requires forall f <- folders :: Ends(ById(folders), f)
    requires PathsOf(folders, ById(folders), slugById, paths)
    ensures AllApart(paths) <==> TopsApart(folders, slugById)
  {
    PathsDifferIff(folders, slugById);
    if PathsApart(folders, slugById) {
      forall a, b | a in paths && b in paths && a != b
        ensures paths[a] != paths[b]
      {
        assert a in Ids(folders) && b in Ids(folders);
        var f :| f in folders && f.id == a;
        var g :| g in folders && g.id == b;
      }
    }
    if AllApart(paths) {
      assert forall f <- folders :: f.id in Ids(folders);
    }
  }

  predicate AllApart(paths: map<string, string>) {
    forall a, b :: a in paths && b in paths && a != b ==> paths[a] != paths[b]
  }

  /** With as many turns as there are folders every loop ends exactly if the forest has no cycle. */
  lemma {:induction false} AllEndIff(folders: seq<Folder>, turns: nat)
    requires DistinctIds(folders) && turns >= |folders|
    ensures (forall f <- folders :: Up(ById(folders), Some(f), turns + 1).None?) <==> Acyclic(ById(folders))
  {
    ByIdFinds(folders);
    ByIdIsKeyed(folders);
    forall f | f in folders
      ensures Up(ById(folders), Some(f), turns + 1).None? <==> Ends(ById(folders), f)
    {
      TurnsSuffice(ById(folders), f, turns);
    }
  }

  /**
   Every folder's path, if all loops are over in `turns` turns. No two are the same exactly if the folders at the top
   were given different slugs, which is so when every parent that is named exists.
   */
  method ExportFolderPaths(folders: seq<Folder>, arrange: seq<Folder> -> seq<Folder>, turns: nat)
    returns (paths: Option<map<string, string>>, ghost slugById: map<string, string>)
    requires DistinctIds(folders) && Permutes(arrange)
    ensures Assigned(folders, arrange, slugById)
    ensures paths.Some? <==> forall f <- folders :: Up(ById(folders), Some(f), turns + 1).None?
    ensures turns >= |folders| ==> (paths.Some? <==> Acyclic(ById(folders)))
    ensures paths.Some? ==>
      && (forall f <- folders :: Ends(ById(folders), f)) && PathsOf(folders, ById(folders), slugById, paths.value)
      && (AllApart(paths.value) <==> TopsApart(folders, slugById))
      && (ParentsPresent(ById(folders)) ==> AllApart(paths.value))
  {
    var slugs := AssignSlugs(folders, arrange);
    slugById := slugs;
    AssignedAreApart(folders, arrange, slugs);
    paths := CollectPaths(folders, ById(folders), slugs, turns);
    if turns >= |folders| {
      AllEndIff(folders, turns);
    }
    if paths.Some? {
      AllPathsDifferIff(folders, slugs, paths.value);
      if ParentsPresent(ById(folders)) {
        PresentParentsSetTopsApart(folders, slugs);
      }
    }
  }
}
