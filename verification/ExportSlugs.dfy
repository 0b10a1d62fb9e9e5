/**
 Slugs for the folders of an export: each group of siblings is sorted, and each folder in turn takes the first name that
 those before it left.
 */
module ExportSlugs {
  import opened FolderForest
  import opened Options
  import opened Seqs
  import opened Slugs

  function GroupKey(folder: Folder): string { folder.parentFolderId.GetOr("root") }

  function GroupOf(folders: seq<Folder>, key: string): seq<Folder> {
    if folders == [] then []
    else GroupOf(Front(folders), key) + (if GroupKey(Last(folders)) == key then [Last(folders)] else [])
  }

  predicate DistinctIds(folders: seq<Folder>) {
    forall i, j :: 0 <= i < j < |folders| ==> folders[i].id != folders[j].id
  }

  function Ids(folders: seq<Folder>): set<string> {
    set folder <- folders :: folder.id
  }

  predicate Siblings(f: Folder, g: Folder) { f.id != g.id && GroupKey(f) == GroupKey(g) }

  /** No other folder has the same parent. */
  predicate Lone(folders: seq<Folder>, folder: Folder) {
    forall f <- folders :: GroupKey(f) == GroupKey(folder) ==> f == folder
  }

  /** The slugs of some folders. */
  function SlugsOf(group: seq<Folder>, slugById: map<string, string>): set<string> {
    set f | f in group && f.id in slugById :: slugById[f.id]
  }

  /** The first name made of a folder's name that is not used. */
  ghost predicate FirstCandidate(name: string, used: set<string>, slug: string) {
    exists n :: FirstFree(Slug(name), n, used) && slug == Candidate(Slug(name), n)
  }

  /** Said without the search: the slug of the name, or that with the least number from 2 on that is left. */
  lemma {:induction false} FirstCandidateIff(name: string, used: set<string>, slug: string)
    requires exists s :: FirstCandidate(name, used, s)
    ensures FirstCandidate(name, used, slug) <==> FirstLeft(Slug(name), used, slug)
  {
    var s :| FirstCandidate(name, used, s);
    var n :| FirstFree(Slug(name), n, used) && s == Candidate(Slug(name), n);
    FirstFreeIsLeft(Slug(name), n, used);
    if FirstLeft(Slug(name), used, slug) {
      FirstLeftIsUnique(Slug(name), used, s, slug);
    } else if FirstCandidate(name, used, slug) {
      var m :| FirstFree(Slug(name), m, used) && slug == Candidate(Slug(name), m);
      FirstFreeIsLeft(Slug(name), m, used);
    }
  }

  /** The folder at a place has the first name of its own that the folders before it left. */
  ghost predicate NamedInTurn(group: seq<Folder>, slugById: map<string, string>, i: nat)
    requires i < |group|
  {
    && group[i].id in slugById
    && FirstCandidate(group[i].name, SlugsOf(group[..i], slugById), slugById[group[i].id])
  }

  ghost predicate InOrder(group: seq<Folder>, slugById: map<string, string>) {
    forall i :: 0 <= i < |group| ==> NamedInTurn(group, slugById, i)
  }

  /** What `AssignSlugs` gives: in every sorted group of siblings the folders are named in turn. */
  ghost predicate Assigned(folders: seq<Folder>, arrange: seq<Folder> -> seq<Folder>, slugById: map<string, string>) {
    forall key :: InOrder(arrange(GroupOf(folders, key)), slugById)
  }

  /** The siblings of `folders` have slugs, and different ones. */
  predicate SlugsApart(folders: seq<Folder>, slugById: map<string, string>) {
    && (forall f <- folders :: f.id in slugById && IsSlug(slugById[f.id]))
    && forall f, g :: f in folders && g in folders && Siblings(f, g) ==> slugById[f.id] != slugById[g.id]
  }

  lemma {:induction false} GroupMembers(folders: seq<Folder>, key: string)
    ensures forall f :: f in GroupOf(folders, key) <==> f in folders && GroupKey(f) == key
  {
    if folders != [] {
      GroupMembers(Front(folders), key);
      assert folders == Front(folders) + [Last(folders)];
    }
  }

  lemma {:induction false} GroupIdsAreDistinct(folders: seq<Folder>, key: string)
    requires DistinctIds(folders)
    ensures DistinctIds(GroupOf(folders, key))
  {
    if folders != [] {
      var before, last := Front(folders), Last(folders);
      var group := GroupOf(before, key);
      GroupIdsAreDistinct(before, key);
      GroupMembers(before, key);
      forall i | 0 <= i < |group|
        ensures group[i].id != last.id
      {
        assert group[i] in before;
      }
    }
  }

  lemma DistinctIdsCountOnce(folders: seq<Folder>, i: nat)
    requires DistinctIds(folders) && i < |folders|
    ensures multiset(folders)[folders[i]] == 1
  {
    assert folders == folders[..i] + [folders[i]] + folders[i + 1..];
    assert folders[i] !in folders[..i] && folders[i] !in folders[i + 1..];
  }

  lemma TwiceCountsTwo(folders: seq<Folder>, i: nat, j: nat)
    requires i < j < |folders| && folders[i] == folders[j]
    ensures multiset(folders)[folders[i]] >= 2
  {
    assert folders == folders[..j] + folders[j..];
    assert folders[i] in folders[..j] && folders[j..][0] == folders[j];
  }

  /** Sorting keeps ids distinct. */
  lemma PermutedIdsStayDistinct(before: seq<Folder>, after: seq<Folder>)
    requires multiset(before) == multiset(after) && DistinctIds(before)
    ensures DistinctIds(after)
  {
    forall i, j | 0 <= i < j < |after|
      ensures after[i].id != after[j].id
    {
      assert after[i] in multiset(before) && after[j] in multiset(before);
      var k :| 0 <= k < |before| && before[k] == after[i];
      var l :| 0 <= l < |before| && before[l] == after[j];
      DistinctIdsCountOnce(before, k);
      if k == l {
        TwiceCountsTwo(after, i, j);
      }
    }
  }

  lemma SameIdSameFolder(folders: seq<Folder>, f: Folder, g: Folder)
    requires DistinctIds(folders) && f in folders && g in folders && f.id == g.id
    ensures f == g
  {
    var i :| 0 <= i < |folders| && folders[i] == f;
    var j :| 0 <= j < |folders| && folders[j] == g;
  }

  /** The folders with the key make up the group. */
  ghost predicate IsGroup(folders: seq<Folder>, key: string, group: seq<Folder>) {
    forall f :: f in group <==> f in folders && GroupKey(f) == key
  }

  /** The siblings collected from the folders so far, and the order of their keys. */
  ghost predicate Grouped(folders: seq<Folder>, siblings: map<string, seq<Folder>>, keys: seq<string>) {
    && (forall key :: key in siblings <==> key in keys)
    && (forall key <- keys :: siblings[key] == GroupOf(folders, key))
    && (forall f <- folders :: GroupKey(f) in keys)
    && forall i, j :: 0 <= i < j < |keys| ==> keys[i] != keys[j]
  }

  lemma {:induction false} NoGroup(folders: seq<Folder>, key: string)
    requires forall f <- folders :: GroupKey(f) != key
    ensures GroupOf(folders, key) == []
  {
    if folders != [] {
      NoGroup(Front(folders), key);
    }
  }

  lemma AppendedStaysDistinct(keys: seq<string>, key: string)
    requires key !in keys && forall i, j :: 0 <= i < j < |keys| ==> keys[i] != keys[j]
    ensures var longer := keys + [key]; forall i, j :: 0 <= i < j < |longer| ==> longer[i] != longer[j]
  {
  }

  lemma GroupAfterOneMore(
    folders: seq<Folder>, folder: Folder, siblings: map<string, seq<Folder>>, keys: seq<string>, k: string
  )
    requires Grouped(folders, siblings, keys) && (k in keys || k == GroupKey(folder))
    ensures GroupOf(folders + [folder], k)
         == (if k in siblings then siblings[k] else []) + (if GroupKey(folder) == k then [folder] else [])
  {
    GroupNext(folders, folder, k);
    if k !in siblings {
      NoGroup(folders, k);
    }
  }

  lemma KeysNext(folders: seq<Folder>, folder: Folder, siblings: map<string, seq<Folder>>, keys: seq<string>)
    requires Grouped(folders, siblings, keys)
    ensures var longer := if GroupKey(folder) in siblings then keys else keys + [GroupKey(folder)];
      && (forall key :: key in longer <==> key in keys || key == GroupKey(folder))
      && (forall f <- folders + [folder] :: GroupKey(f) in longer)
      && forall i, j :: 0 <= i < j < |longer| ==> longer[i] != longer[j]
  {
    if GroupKey(folder) !in siblings {
      AppendedStaysDistinct(keys, GroupKey(folder));
    }
    assert forall f <- folders + [folder] :: f == folder || f in folders;
  }

  lemma GroupedNext(folders: seq<Folder>, folder: Folder, siblings: map<string, seq<Folder>>, keys: seq<string>)
    requires Grouped(folders, siblings, keys)
    ensures var key := GroupKey(folder);
      var group := (if key in siblings then siblings[key] else []) + [folder];
      Grouped(folders + [folder], siblings[key := group], if key in siblings then keys else keys + [key])
  {
    var more, key := folders + [folder], GroupKey(folder);
    var group := (if key in siblings then siblings[key] else []) + [folder];
    var next, longer := siblings[key := group], if key in siblings then keys else keys + [key];
    KeysNext(folders, folder, siblings, keys);
    forall k | k in longer
      ensures next[k] == GroupOf(more, k)
    {
      GroupAfterOneMore(folders, folder, siblings, keys, k);
    }
  }

  lemma GroupNext(folders: seq<Folder>, folder: Folder, key: string)
    ensures GroupOf(folders + [folder], key)
         == GroupOf(folders, key) + (if GroupKey(folder) == key then [folder] else [])
  {
    assert Front(folders + [folder]) == folders;
  }

  method GroupSiblings(folders: seq<Folder>) returns (siblings: map<string, seq<Folder>>, keys: seq<string>)
    ensures Grouped(folders, siblings, keys)
  {
    siblings, keys := map[], [];
    for n := 0 to |folders|
      invariant Grouped(folders[..n], siblings, keys)
    {
      var folder, parentKey := folders[n], GroupKey(folders[n]);
      GroupedNext(folders[..n], folder, siblings, keys);
      assert folders[..n + 1] == folders[..n] + [folder];
      var group := (if parentKey in siblings then siblings[parentKey] else []) + [folder];
      keys := if parentKey in siblings then keys else keys + [parentKey];
      siblings := siblings[parentKey := group];
    }
    assert folders[..|folders|] == folders;
  }

  /** Sorting, of which only this matters here. */
  ghost predicate Permutes(arrange: seq<Folder> -> seq<Folder>) {
    forall group :: multiset(arrange(group)) == multiset(group)
  }

  lemma ArrangedGroup(folders: seq<Folder>, key: string, arrange: seq<Folder> -> seq<Folder>)
    requires DistinctIds(folders) && Permutes(arrange)
    ensures var group := arrange(GroupOf(folders, key));
      DistinctIds(group) && IsGroup(folders, key, group)
  {
    var before := GroupOf(folders, key);
    var group := arrange(before);
    GroupMembers(folders, key);
    GroupIdsAreDistinct(folders, key);
    assert multiset(group) == multiset(before);
    PermutedIdsStayDistinct(before, group);
    forall f
      ensures f in group <==> f in before
    {
      assert f in group <==> f in multiset(group);
      assert f in before <==> f in multiset(before);
    }
  }

  // What naming in turn says of a group.

  lemma CandidateIsNew(name: string, used: set<string>, slug: string)
    requires FirstCandidate(name, used, slug)
    ensures slug !in used && IsSlug(slug)
  {
    var n :| FirstFree(Slug(name), n, used) && slug == Candidate(Slug(name), n);
    FirstFreeIsFresh(name, n, used);
  }

  lemma InOrderIsApart(group: seq<Folder>, slugById: map<string, string>, i: nat, j: nat)
    requires InOrder(group, slugById) && i < j < |group|
    ensures group[i].id in slugById && group[j].id in slugById
    ensures IsSlug(slugById[group[i].id]) && slugById[group[i].id] != slugById[group[j].id]
  {
    assert NamedInTurn(group, slugById, i) && NamedInTurn(group, slugById, j);
    CandidateIsNew(group[i].name, SlugsOf(group[..i], slugById), slugById[group[i].id]);
    CandidateIsNew(group[j].name, SlugsOf(group[..j], slugById), slugById[group[j].id]);
    assert group[..j][i] == group[i] && group[i] in group[..j];
  }

  lemma EarlierIsUsed(base: string, m: nat, n: nat, used: set<string>)
    requires 1 <= m < n && FirstFree(base, n, used)
    ensures Candidate(base, m) in used
  {
    TriedHolds(base, n - 1, m);
  }

  lemma FirstFreeIsUnique(base: string, m: nat, n: nat, used: set<string>)
    requires FirstFree(base, m, used) && FirstFree(base, n, used)
    ensures m == n
  {
    if m < n {
      EarlierIsUsed(base, m, n, used);
    } else if n < m {
      EarlierIsUsed(base, n, m, used);
    }
  }

  lemma SameSlugsOf(group: seq<Folder>, a: map<string, string>, b: map<string, string>)
    requires Agree(group, a, b)
    ensures SlugsOf(group, a) == SlugsOf(group, b)
  {
  }

  lemma CandidateIsUnique(name: string, used: set<string>, a: string, b: string)
    requires FirstCandidate(name, used, a) && FirstCandidate(name, used, b)
    ensures a == b
  {
    var k :| FirstFree(Slug(name), k, used) && a == Candidate(Slug(name), k);
    var l :| FirstFree(Slug(name), l, used) && b == Candidate(Slug(name), l);
    FirstFreeIsUnique(Slug(name), k, l, used);
  }

  predicate Agree(group: seq<Folder>, a: map<string, string>, b: map<string, string>) {
    forall f <- group :: f.id in a && f.id in b && a[f.id] == b[f.id]
  }

  lemma AgreeOnOneMore(group: seq<Folder>, folder: Folder, a: map<string, string>, b: map<string, string>)
    requires Agree(group, a, b) && folder.id in a && folder.id in b && a[folder.id] == b[folder.id]
    ensures Agree(group + [folder], a, b)
  {
  }

  lemma NextAgrees(group: seq<Folder>, a: map<string, string>, b: map<string, string>, i: nat)
    requires i < |group| && NamedInTurn(group, a, i) && NamedInTurn(group, b, i) && Agree(group[..i], a, b)
    ensures Agree(group[..i + 1], a, b)
  {
    SameSlugsOf(group[..i], a, b);
    CandidateIsUnique(group[i].name, SlugsOf(group[..i], a), a[group[i].id], b[group[i].id]);
    AgreeOnOneMore(group[..i], group[i], a, b);
    assert group[..i + 1] == group[..i] + [group[i]];
  }

  /** The names of a group depend on nothing but the names of its folders and their order. */
  lemma {:induction false} InOrderIsUnique(group: seq<Folder>, a: map<string, string>, b: map<string, string>, n: nat)
    requires InOrder(group, a) && InOrder(group, b) && n <= |group|
    ensures Agree(group[..n], a, b)
  {
    if n > 0 {
      InOrderIsUnique(group, a, b, n - 1);
      assert NamedInTurn(group, a, n - 1) && NamedInTurn(group, b, n - 1);
      NextAgrees(group, a, b, n - 1);
    }
  }

  /** A name is numbered only when another took it before. */
  lemma UnusedIsPlain(name: string, n: nat)
    requires FirstFree(Slug(name), n, {})
    ensures n == 1
  {
    TriedGrows(Slug(name), n - 1);
  }

  lemma TriedGrows(base: string, n: nat)
    ensures Tried(base, n) == {} <==> n == 0
  {
    assert n > 0 ==> Candidate(base, n) in Tried(base, n);
  }

  // One group after another.

  /** The folders of the group got slugs; the others keep theirs. */
  ghost predicate Extends(group: seq<Folder>, before: map<string, string>, slugById: map<string, string>) {
    && slugById.Keys == before.Keys + Ids(group)
    && forall id <- before :: id !in Ids(group) ==> slugById[id] == before[id]
  }

  lemma ExtendsNext(
    group: seq<Folder>, folder: Folder, before: map<string, string>, slugById: map<string, string>, candidate: string
  )
    requires Extends(group, before, slugById)
    ensures Extends(group + [folder], before, slugById[folder.id := candidate])
  {
    assert Ids(group + [folder]) == Ids(group) + {folder.id};
  }

  /** The slugs of folders with other ids stay as they are. */
  lemma OthersKeepOrder(group: seq<Folder>, before: map<string, string>, after: map<string, string>)
    requires InOrder(group, before)
    requires forall f <- group :: f.id in before ==> f.id in after && after[f.id] == before[f.id]
    ensures InOrder(group, after)
  {
    forall i | 0 <= i < |group|
      ensures NamedInTurn(group, after, i)
    {
      assert NamedInTurn(group, before, i);
      forall f | f in group[..i]
        ensures f.id in before
      {
        var j :| 0 <= j < i && group[j] == f;
        assert NamedInTurn(group, before, j);
      }
      SameSlugsOf(group[..i], before, after);
    }
  }

  lemma OneMoreInOrder(group: seq<Folder>, folder: Folder, slugById: map<string, string>, candidate: string)
    requires InOrder(group, slugById) && DistinctIds(group + [folder])
    requires FirstCandidate(folder.name, SlugsOf(group, slugById), candidate)
    ensures InOrder(group + [folder], slugById[folder.id := candidate])
  {
    var more, next := group + [folder], slugById[folder.id := candidate];
    NewIdIsOther(group, folder);
    OthersKeepOrder(group, slugById, next);
    forall i | 0 <= i < |more|
      ensures NamedInTurn(more, next, i)
    {
      if i < |group| {
        assert NamedInTurn(group, next, i) && more[..i] == group[..i];
      } else {
        assert more[..i] == group;
        InOrderHasSlugs(group, slugById);
        SameSlugsOf(group, slugById, next);
      }
    }
  }

  lemma InOrderHasSlugs(group: seq<Folder>, slugById: map<string, string>)
    requires InOrder(group, slugById)
    ensures forall f <- group :: f.id in slugById
  {
    forall f | f in group
      ensures f.id in slugById
    {
      var i :| 0 <= i < |group| && group[i] == f;
      assert NamedInTurn(group, slugById, i);
    }
  }

  lemma NewIdIsOther(group: seq<Folder>, folder: Folder)
    requires DistinctIds(group + [folder])
    ensures forall f <- group :: f.id != folder.id
  {
    var more := group + [folder];
    forall f | f in group
      ensures f.id != folder.id
    {
      var i :| 0 <= i < |group| && group[i] == f;
      assert more[i].id != more[|group|].id;
    }
  }

  lemma OneMoreSlug(group: seq<Folder>, folder: Folder, slugById: map<string, string>, candidate: string)
    requires DistinctIds(group + [folder]) && forall f <- group :: f.id in slugById
    ensures SlugsOf(group + [folder], slugById[folder.id := candidate]) == SlugsOf(group, slugById) + {candidate}
  {
    var more, next := group + [folder], slugById[folder.id := candidate];
    NewIdIsOther(group, folder);
    assert folder in more && forall f <- group :: f in more;
    assert SlugsOf(more, next) <= SlugsOf(group, slugById) + {candidate};
    forall slug | slug in SlugsOf(group, slugById)
      ensures slug in SlugsOf(more, next)
    {
      var f :| f in group && f.id in slugById && slugById[f.id] == slug;
      assert f in more && next[f.id] == slug;
    }
  }

  /** A group of which the first folders are named in turn, and the names used for that. */
  ghost predicate Named(
    group: seq<Folder>, before: map<string, string>, slugById: map<string, string>, used: set<string>
  ) {
    Extends(group, before, slugById) && InOrder(group, slugById) && used == SlugsOf(group, slugById)
  }

  /** One folder more of a group. */
  method SlugFolder(
    group: seq<Folder>, n: nat, ghost before: map<string, string>, slugById: map<string, string>, used: set<string>
  ) returns (result: map<string, string>, more: set<string>)
    requires n < |group| && DistinctIds(group) && Named(group[..n], before, slugById, used)
    ensures Named(group[..n + 1], before, result, more)
  {
    var folder := group[n];
    var candidate: string;
    candidate, more := UniqueSlug(folder.name, used);
    PrefixIdsDistinct(group, n);
    InOrderHasSlugs(group[..n], slugById);
    ExtendsNext(group[..n], folder, before, slugById, candidate);
    OneMoreInOrder(group[..n], folder, slugById, candidate);
    OneMoreSlug(group[..n], folder, slugById, candidate);
    result := slugById[folder.id := candidate];
  }

  /** The slugs of one group of siblings, in the order given. */
  method SlugGroup(group: seq<Folder>, slugById: map<string, string>) returns (result: map<string, string>)
    requires DistinctIds(group)
    ensures Extends(group, slugById, result) && InOrder(group, result)
  {
    var used: set<string> := {};
    result := slugById;
    for n := 0 to |group|
      invariant Named(group[..n], slugById, result, used)
    {
      result, used := SlugFolder(group, n, slugById, result, used);
    }
    assert group[..|group|] == group;
  }

  lemma PrefixIdsDistinct(group: seq<Folder>, n: nat)
    requires DistinctIds(group) && n < |group|
    ensures DistinctIds(group[..n] + [group[n]]) && group[..n] + [group[n]] == group[..n + 1]
  {
    assert group[..n] + [group[n]] == group[..n + 1];
  }

  // All groups.

  /** The groups with these keys are done. */
  ghost predicate GroupsNamed(
    folders: seq<Folder>, arrange: seq<Folder> -> seq<Folder>, done: set<string>, slugById: map<string, string>
  ) {
    forall key <- done :: InOrder(arrange(GroupOf(folders, key)), slugById)
  }

  lemma GroupsHaveOtherIds(folders: seq<Folder>, a: string, b: string, group: seq<Folder>, other: seq<Folder>)
    requires DistinctIds(folders) && a != b && IsGroup(folders, a, group) && IsGroup(folders, b, other)
    ensures forall f <- other :: f.id !in Ids(group)
  {
    forall f, g | f in other && g in group
      ensures f.id != g.id
    {
      if f.id == g.id {
        SameIdSameFolder(folders, f, g);
      }
    }
  }

  lemma GroupIsDone(
    folders: seq<Folder>, arrange: seq<Folder> -> seq<Folder>, done: set<string>, key: string,
    before: map<string, string>, after: map<string, string>
  )
    requires DistinctIds(folders) && Permutes(arrange) && GroupsNamed(folders, arrange, done, before)
    requires key !in done
    requires Extends(arrange(GroupOf(folders, key)), before, after)
    requires InOrder(arrange(GroupOf(folders, key)), after)
    ensures GroupsNamed(folders, arrange, done + {key}, after)
  {
    var group := arrange(GroupOf(folders, key));
    ArrangedGroup(folders, key, arrange);
    forall k | k in done
      ensures InOrder(arrange(GroupOf(folders, k)), after)
    {
      var other := arrange(GroupOf(folders, k));
      ArrangedGroup(folders, k, arrange);
      GroupsHaveOtherIds(folders, key, k, group, other);
      OthersKeepOrder(other, before, after);
    }
  }

  /** One group more. */
  method SlugSiblings(
    folders: seq<Folder>, ghost done: set<string>, key: string, siblings: seq<Folder>,
    arrange: seq<Folder> -> seq<Folder>, slugById: map<string, string>
  ) returns (result: map<string, string>)
    requires DistinctIds(folders) && Permutes(arrange)
    requires GroupsNamed(folders, arrange, done, slugById) && key !in done && siblings == GroupOf(folders, key)
    ensures GroupsNamed(folders, arrange, done + {key}, result)
  {
    ArrangedGroup(folders, key, arrange);
    result := SlugGroup(arrange(siblings), slugById);
    GroupIsDone(folders, arrange, done, key, slugById, result);
  }

  lemma NextKeyIsNew(keys: seq<string>, k: nat)
    requires k < |keys| && forall i, j :: 0 <= i < j < |keys| ==> keys[i] != keys[j]
    ensures keys[k] !in keys[..k] && forall key :: key in keys[..k + 1] <==> key in keys[..k] || key == keys[k]
  {
    assert keys[..k + 1] == keys[..k] + [keys[k]];
  }

  method SlugGroups(
    folders: seq<Folder>, siblings: map<string, seq<Folder>>, keys: seq<string>, arrange: seq<Folder> -> seq<Folder>
  ) returns (slugById: map<string, string>, ghost done: set<string>)
    requires DistinctIds(folders) && Permutes(arrange) && Grouped(folders, siblings, keys)
    ensures GroupsNamed(folders, arrange, done, slugById) && forall key <- keys :: key in done
  {
    slugById := map[];
    done := {};
    for k := 0 to |keys|
      invariant forall key :: key in done <==> key in keys[..k]
      invariant GroupsNamed(folders, arrange, done, slugById)
    {
      NextKeyIsNew(keys, k);
      assert keys[k] in keys;
      slugById := SlugSiblings(folders, done, keys[k], siblings[keys[k]], arrange, slugById);
      done := done + {keys[k]};
    }
    assert keys[..|keys|] == keys;
  }

  lemma AllGroupsDone(
    folders: seq<Folder>, arrange: seq<Folder> -> seq<Folder>, done: set<string>, slugById: map<string, string>
  )
    requires Permutes(arrange) && GroupsNamed(folders, arrange, done, slugById)
    requires forall f <- folders :: GroupKey(f) in done
    ensures Assigned(folders, arrange, slugById)
  {
    forall key
      ensures InOrder(arrange(GroupOf(folders, key)), slugById)
    {
      if key !in done {
        NoGroup(folders, key);
        assert multiset(arrange([])) == multiset([]);
        assert |arrange([])| == |multiset(arrange([]))|;
      }
    }
  }

  /**
   In every sorted group of siblings a folder has the slug of its name if none before it has that, and else that with
   the least number from 2 on that none before it has.
   */
  lemma {:induction false} SlugInGroup(
    folders: seq<Folder>, arrange: seq<Folder> -> seq<Folder>, slugById: map<string, string>, key: string, i: nat
  )
    requires Assigned(folders, arrange, slugById) && i < |arrange(GroupOf(folders, key))|
    ensures var group := arrange(GroupOf(folders, key));
      && group[i].id in slugById
      && FirstLeft(Slug(group[i].name), set f | f in group[..i] && f.id in slugById :: slugById[f.id],
                   slugById[group[i].id])
  {
    var group := arrange(GroupOf(folders, key));
    assert NamedInTurn(group, slugById, i);
    FirstCandidateIff(group[i].name, SlugsOf(group[..i], slugById), slugById[group[i].id]);
  }

  /** The folders of every group of siblings take their slugs in turn. */
  method AssignSlugs(folders: seq<Folder>, arrange: seq<Folder> -> seq<Folder>) returns (slugById: map<string, string>)
    requires DistinctIds(folders) && Permutes(arrange)
    ensures Assigned(folders, arrange, slugById)
  {
    var siblings, keys := GroupSiblings(folders);
    ghost var done: set<string>;
    slugById, done := SlugGroups(folders, siblings, keys, arrange);
    AllGroupsDone(folders, arrange, done, slugById);
  }

  // What follows for siblings.

  lemma PlaceInGroup(folders: seq<Folder>, arrange: seq<Folder> -> seq<Folder>, folder: Folder) returns (i: nat)
    requires DistinctIds(folders) && Permutes(arrange) && folder in folders
    ensures var group := arrange(GroupOf(folders, GroupKey(folder))); i < |group| && group[i] == folder
  {
    ArrangedGroup(folders, GroupKey(folder), arrange);
    var group := arrange(GroupOf(folders, GroupKey(folder)));
    assert folder in group;
    i :| 0 <= i < |group| && group[i] == folder;
  }

  lemma AssignedHasSlug(
    folders: seq<Folder>, arrange: seq<Folder> -> seq<Folder>, slugById: map<string, string>, folder: Folder
  )
    requires DistinctIds(folders) && Permutes(arrange) && Assigned(folders, arrange, slugById) && folder in folders
    ensures folder.id in slugById && IsSlug(slugById[folder.id])
  {
    var group := arrange(GroupOf(folders, GroupKey(folder)));
    var i := PlaceInGroup(folders, arrange, folder);
    assert InOrder(group, slugById) && NamedInTurn(group, slugById, i);
    CandidateIsNew(folder.name, SlugsOf(group[..i], slugById), slugById[folder.id]);
  }

  /** Siblings get different slugs, in whatever order they are sorted. */
  lemma {:induction false} AssignedAreApart(
    folders: seq<Folder>, arrange: seq<Folder> -> seq<Folder>, slugById: map<string, string>
  )
    requires DistinctIds(folders) && Permutes(arrange) && Assigned(folders, arrange, slugById)
    ensures SlugsApart(folders, slugById)
  {
    forall f | f in folders
      ensures f.id in slugById && IsSlug(slugById[f.id])
    {
      AssignedHasSlug(folders, arrange, slugById, f);
    }
    forall f, g | f in folders && g in folders && Siblings(f, g)
      ensures slugById[f.id] != slugById[g.id]
    {
      var group := arrange(GroupOf(folders, GroupKey(f)));
      var i := PlaceInGroup(folders, arrange, f);
      var j := PlaceInGroup(folders, arrange, g);
      assert InOrder(group, slugById);
      if i < j {
        InOrderIsApart(group, slugById, i, j);
      } else {
        InOrderIsApart(group, slugById, j, i);
      }
    }
  }

  /** The slugs are settled by the folders and the order of their siblings. */
  lemma {:induction false} AssignedIsUnique(
    folders: seq<Folder>, arrange: seq<Folder> -> seq<Folder>, a: map<string, string>, b: map<string, string>
  )
    requires DistinctIds(folders) && Permutes(arrange)
    requires Assigned(folders, arrange, a) && Assigned(folders, arrange, b)
    ensures Agree(folders, a, b)
  {
    forall f | f in folders
      ensures f.id in a && f.id in b && a[f.id] == b[f.id]
    {
      var group := arrange(GroupOf(folders, GroupKey(f)));
      var i := PlaceInGroup(folders, arrange, f);
      assert InOrder(group, a) && InOrder(group, b);
      InOrderIsUnique(group, a, b, |group|);
      assert group[..|group|] == group;
    }
  }

  /** A folder without siblings has its plain slug. */
  lemma {:induction false} LoneIsPlain(
    folders: seq<Folder>, arrange: seq<Folder> -> seq<Folder>, slugById: map<string, string>, folder: Folder
  )
    requires DistinctIds(folders) && Permutes(arrange) && Assigned(folders, arrange, slugById)
    requires folder in folders && Lone(folders, folder)
    ensures folder.id in slugById && slugById[folder.id] == Slug(folder.name)
  {
    var group := arrange(GroupOf(folders, GroupKey(folder)));
    var i := PlaceInGroup(folders, arrange, folder);
    ArrangedGroup(folders, GroupKey(folder), arrange);
    assert group[0] in group && group[0] in folders;
    assert InOrder(group, slugById) && NamedInTurn(group, slugById, 0);
    assert SlugsOf(group[..0], slugById) == {};
    var n :| FirstFree(Slug(folder.name), n, {}) && slugById[folder.id] == Candidate(Slug(folder.name), n);
    UnusedIsPlain(folder.name, n);
  }
}
