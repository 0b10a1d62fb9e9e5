/** The folders below a folder, for any parent relation, cyclic ones included. */
module FolderTree {
  import opened Options
  import opened Seqs
  import opened Graphs
  import opened Sets

  datatype Folder = Folder(id: string, parentFolderId: Option<string>)

  /** The child names the parent; an empty parent id counts as none. */
  predicate IsChild(folder: Folder, parent: string, child: string) {
    folder.id == child && folder.parentFolderId == Some(parent) && parent != ""
  }

  function ParentOf(folders: seq<Folder>): Edges {
    (parent, child) => exists folder <- folders :: IsChild(folder, parent, child)
  }

  /** The ids a run can collect. */
  function AllIds(folders: seq<Folder>, rootId: string): set<string> {
    {rootId} + set folder <- folders :: folder.id
  }

  /** The collected ids in the order they were added. */
  ghost predicate Collected(folders: seq<Folder>, rootId: string, ids: set<string>, order: seq<string>) {
    && rootId in ids && ids <= AllIds(folders, rootId)
    && (forall id :: id in ids <==> id in order)
    && (forall i, j :: 0 <= i < j < |order| ==> order[i] != order[j])
    && forall id <- ids :: Reaches(ParentOf(folders), rootId, id)
  }

  predicate Adds(folder: Folder, ids: set<string>) {
    folder.parentFolderId.Some? && folder.parentFolderId.value != ""
    && folder.parentFolderId.value in ids && folder.id !in ids
  }

  lemma ChildIsReached(folders: seq<Folder>, rootId: string, folder: Folder, ids: set<string>)
    requires folder in folders && Adds(folder, ids)
    requires forall id <- ids :: Reaches(ParentOf(folders), rootId, id)
    ensures Reaches(ParentOf(folders), rootId, folder.id)
  {
    var edge, parent := ParentOf(folders), folder.parentFolderId.value;
    assert IsChild(folder, parent, folder.id);
    EdgeReaches(edge, parent, folder.id);
    ReachesFurther(edge, rootId, parent, folder.id);
  }

  lemma NothingToAddIsClosed(folders: seq<Folder>, ids: set<string>)
    requires forall folder <- folders :: !Adds(folder, ids)
    ensures Closed(ParentOf(folders), ids)
  {
  }

  lemma CollectedGrows(folders: seq<Folder>, rootId: string, ids: set<string>, order: seq<string>, folder: Folder)
    requires Collected(folders, rootId, ids, order) && folder in folders && Adds(folder, ids)
    ensures Collected(folders, rootId, ids + {folder.id}, order + [folder.id])
  {
    ChildIsReached(folders, rootId, folder, ids);
  }

  lemma CollectedAreReachable(folders: seq<Folder>, rootId: string, ids: set<string>, order: seq<string>)
    requires Collected(folders, rootId, ids, order) && forall folder <- folders :: !Adds(folder, ids)
    ensures forall id :: id in order <==> Reaches(ParentOf(folders), rootId, id)
  {
    var edge, seeds := ParentOf(folders), {rootId};
    NothingToAddIsClosed(folders, ids);
    forall id | id in ids
      ensures ReachedFrom(edge, seeds, id)
    {
      assert rootId in seeds && Reaches(edge, rootId, id);
    }
    ClosureIsReachability(edge, seeds, ids);
    forall id
      ensures ReachedFrom(edge, seeds, id) <==> Reaches(edge, rootId, id)
    {
      assert rootId in seeds;
    }
  }

  /** One pass over the folders. */
  method AddChildren(folders: seq<Folder>, ghost rootId: string, ids: set<string>, order: seq<string>)
    returns (more: set<string>, longer: seq<string>, changed: bool)
    requires Collected(folders, rootId, ids, order)
    ensures Collected(folders, rootId, more, longer)
    ensures changed ==> ids < more
    ensures !changed ==> more == ids && longer == order && forall folder <- folders :: !Adds(folder, ids)
  {
    more, longer, changed := ids, order, false;
    for n := 0 to |folders|
      invariant Collected(folders, rootId, more, longer) && ids <= more
      invariant changed ==> ids < more
      invariant !changed ==> more == ids && longer == order && forall i :: 0 <= i < n ==> !Adds(folders[i], ids)
    {
      var folder := folders[n];
      if Adds(folder, more) {
        CollectedGrows(folders, rootId, more, longer, folder);
        more := more + {folder.id};
        longer := longer + [folder.id];
        changed := true;
      }
    }
  }

  lemma CollectedIsBounded(folders: seq<Folder>, rootId: string, ids: set<string>, order: seq<string>)
    requires Collected(folders, rootId, ids, order)
    ensures ids <= AllIds(folders, rootId)
  {
  }

  lemma RootIsCollected(folders: seq<Folder>, rootId: string)
    ensures Collected(folders, rootId, {rootId}, [rootId])
  {
    ReachesItself(ParentOf(folders), rootId);
  }

  /** The root and exactly its descendants, each once. */
  method CollectFolderIds(folders: seq<Folder>, rootId: string) returns (order: seq<string>)
    ensures forall id :: id in order <==> Reaches(ParentOf(folders), rootId, id)
    ensures forall i, j :: 0 <= i < j < |order| ==> order[i] != order[j]
  {
    var ids := {rootId};
    order := [rootId];
    RootIsCollected(folders, rootId);
    ghost var all := AllIds(folders, rootId);
    var changed := true;
    while changed
      invariant Collected(folders, rootId, ids, order)
      invariant !changed ==> forall folder <- folders :: !Adds(folder, ids)
      decreases |all - ids|, changed
    {
      ghost var before := ids;
      ids, order, changed := AddChildren(folders, rootId, ids, order);
      if changed {
        CollectedIsBounded(folders, rootId, ids, order);
        LessIsLeft(all, before, ids);
      }
    }
    CollectedAreReachable(folders, rootId, ids, order);
  }
}
