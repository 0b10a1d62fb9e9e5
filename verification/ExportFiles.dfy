/** The files of an exported collection: where each request goes, and that no two requests share a file. */
module ExportFiles {
  import opened JsText
  import opened Options
  import opened Seqs
  import opened Slugs
  import opened ExportPaths
  import opened ExportSlugs
  import opened FolderForest

  datatype Request = Request(name: string, folderId: Option<string>)

  datatype Target = Target(path: string, file: string)

  function FileName(slug: string): string { slug + ".invoke.yaml" }

  /** The path of the request's folder; a request without a known folder goes to the top. */
  function RequestPath(request: Request, paths: map<string, string>): string {
    if request.folderId.Some? && request.folderId.value != "" && request.folderId.value in paths then
      paths[request.folderId.value]
    else ""
  }

  /** Every file given out so far is remembered under its path, and all of them differ. */
  ghost predicate Placed(targets: seq<Target>, usedByPath: map<string, set<string>>) {
    && (forall t <- targets ::
      t.path in usedByPath && exists slug <- usedByPath[t.path] :: IsSlug(slug) && t.file == FileName(slug))
    && forall i, j :: 0 <= i < j < |targets| ==> targets[i] != targets[j]
  }

  function UsedAt(usedByPath: map<string, set<string>>, path: string): set<string> {
    if path in usedByPath then usedByPath[path] else {}
  }

  /** A slug that was free in the path is used there from now on. */
  predicate TakesSlug(
    usedByPath: map<string, set<string>>, path: string, slug: string, next: map<string, set<string>>
  ) {
    && IsSlug(slug) && slug !in UsedAt(usedByPath, path)
    && next == usedByPath[path := UsedAt(usedByPath, path) + {slug}]
  }

  lemma FileNamesDiffer(a: string, b: string)
    requires FileName(a) == FileName(b)
    ensures a == b
  {
    assert |FileName(a)| == |a| + |".invoke.yaml"| && |FileName(b)| == |b| + |".invoke.yaml"|;
    assert a == FileName(a)[..|a|] && b == FileName(b)[..|b|];
  }

  lemma PlacedNext(
    targets: seq<Target>, usedByPath: map<string, set<string>>, path: string, slug: string,
    next: map<string, set<string>>
  )
    requires Placed(targets, usedByPath) && TakesSlug(usedByPath, path, slug, next)
    ensures Placed(targets + [Target(path, FileName(slug))], next)
  {
    var target := Target(path, FileName(slug));
    forall t | t in targets
      ensures t != target
      ensures t.path in next && exists s <- next[t.path] :: IsSlug(s) && t.file == FileName(s)
    {
      var s :| s in usedByPath[t.path] && IsSlug(s) && t.file == FileName(s);
      assert s in next[t.path];
      if t == target {
        FileNamesDiffer(s, slug);
      }
    }
    assert slug in next[path];
  }

  method UniqueRequestFileName(name: string, path: string, usedByPath: map<string, set<string>>)
    returns (file: string, next: map<string, set<string>>)
    ensures exists slug ::
      && file == slug + ".invoke.yaml" && FirstLeft(Slug(name), UsedAt(usedByPath, path), slug)
      && TakesSlug(usedByPath, path, slug, next)
  {
    var used := UsedAt(usedByPath, path);
    var candidate: string;
    candidate, used := UniqueSlug(name, used);
    file := candidate + ".invoke.yaml";
    next := usedByPath[path := used];
  }

  /** The slugs of the targets with this path. */
  function SlugsAt(targets: seq<Target>, slugs: seq<string>, path: string): set<string>
    requires |targets| == |slugs|
  {
    set i | 0 <= i < |targets| && targets[i].path == path :: slugs[i]
  }

  /** What is used under each path is the slugs given out there. */
  ghost predicate Remembers(targets: seq<Target>, slugs: seq<string>, usedByPath: map<string, set<string>>)
    requires |targets| == |slugs|
  {
    forall path :: UsedAt(usedByPath, path) == SlugsAt(targets, slugs, path)
  }

  lemma SlugsAtNext(targets: seq<Target>, slugs: seq<string>, target: Target, slug: string, path: string)
    requires |targets| == |slugs|
    ensures SlugsAt(targets + [target], slugs + [slug], path)
         == SlugsAt(targets, slugs, path) + if target.path == path then {slug} else {}
  {
    var (more, all) := (targets + [target], slugs + [slug]);
    forall s | s in SlugsAt(targets, slugs, path)
      ensures s in SlugsAt(more, all, path)
    {
      var i :| 0 <= i < |targets| && targets[i].path == path && slugs[i] == s;
      assert more[i] == targets[i] && all[i] == s;
    }
    assert more[|targets|] == target && all[|targets|] == slug;
  }

  lemma RemembersNext(
    targets: seq<Target>, slugs: seq<string>, usedByPath: map<string, set<string>>, path: string, slug: string,
    file: string, next: map<string, set<string>>
  )
    requires |targets| == |slugs| && Remembers(targets, slugs, usedByPath) && TakesSlug(usedByPath, path, slug, next)
    ensures Remembers(targets + [Target(path, file)], slugs + [slug], next)
  {
    forall p
      ensures UsedAt(next, p) == SlugsAt(targets + [Target(path, file)], slugs + [slug], p)
    {
      SlugsAtNext(targets, slugs, Target(path, file), slug, p);
      assert UsedAt(usedByPath, p) == SlugsAt(targets, slugs, p);
    }
  }

  /** The slugs given out under the path of a target before it. */
  function TakenBefore(targets: seq<Target>, slugs: seq<string>, i: nat): set<string>
    requires i < |targets| == |slugs|
  {
    set j | 0 <= j < i && targets[j].path == targets[i].path :: slugs[j]
  }

  /** A target has the first name made of its request's that the earlier ones under its path left. */
  ghost predicate NamedAt(requests: seq<Request>, targets: seq<Target>, slugs: seq<string>, i: nat)
    requires i < |targets| == |slugs| <= |requests|
  {
    && targets[i].file == slugs[i] + ".invoke.yaml"
    && FirstLeft(Slug(requests[i].name), TakenBefore(targets, slugs, i), slugs[i])
  }

  ghost predicate NamedByRequest(requests: seq<Request>, targets: seq<Target>, slugs: seq<string>)
    requires |targets| == |slugs| <= |requests|
  {
    forall i :: 0 <= i < |targets| ==> NamedAt(requests, targets, slugs, i)
  }

  lemma TakenStays(targets: seq<Target>, slugs: seq<string>, target: Target, slug: string, i: nat)
    requires i < |targets| == |slugs|
    ensures TakenBefore(targets + [target], slugs + [slug], i) == TakenBefore(targets, slugs, i)
  {
    var (more, all) := (targets + [target], slugs + [slug]);
    assert forall j :: 0 <= j <= i ==> more[j] == targets[j] && all[j] == slugs[j];
  }

  lemma TakenLast(targets: seq<Target>, slugs: seq<string>, target: Target, slug: string)
    requires |targets| == |slugs|
    ensures TakenBefore(targets + [target], slugs + [slug], |targets|) == SlugsAt(targets, slugs, target.path)
  {
    var (more, all) := (targets + [target], slugs + [slug]);
    assert forall j :: 0 <= j < |targets| ==> more[j] == targets[j] && all[j] == slugs[j];
  }

  lemma NamedNext(requests: seq<Request>, targets: seq<Target>, slugs: seq<string>, path: string, slug: string)
    requires |targets| == |slugs| < |requests| && NamedByRequest(requests, targets, slugs)
    requires FirstLeft(Slug(requests[|targets|].name), SlugsAt(targets, slugs, path), slug)
    ensures NamedByRequest(requests, targets + [Target(path, slug + ".invoke.yaml")], slugs + [slug])
  {
    var target := Target(path, slug + ".invoke.yaml");
    forall i | 0 <= i <= |targets|
      ensures NamedAt(requests, targets + [target], slugs + [slug], i)
    {
      if i < |targets| {
        assert NamedAt(requests, targets, slugs, i);
        TakenStays(targets, slugs, target, slug, i);
      } else {
        TakenLast(targets, slugs, target, slug);
      }
    }
  }

  /** The first requests are placed. */
  ghost predicate PlacedFirst(
    requests: seq<Request>, paths: map<string, string>, targets: seq<Target>, slugs: seq<string>,
    usedByPath: map<string, set<string>>
  ) {
    && |targets| == |slugs| <= |requests|
    && (forall i :: 0 <= i < |targets| ==> targets[i].path == RequestPath(requests[i], paths))
    && Placed(targets, usedByPath) && Remembers(targets, slugs, usedByPath)
    && NamedByRequest(requests, targets, slugs)
  }

  lemma PlacedOneMore(
    requests: seq<Request>, paths: map<string, string>, targets: seq<Target>, slugs: seq<string>,
    usedByPath: map<string, set<string>>, slug: string, next: map<string, set<string>>
  )
    requires PlacedFirst(requests, paths, targets, slugs, usedByPath) && |targets| < |requests|
    requires var path := RequestPath(requests[|targets|], paths);
      && TakesSlug(usedByPath, path, slug, next)
      && FirstLeft(Slug(requests[|targets|].name), UsedAt(usedByPath, path), slug)
    ensures var target := Target(RequestPath(requests[|targets|], paths), slug + ".invoke.yaml");
      PlacedFirst(requests, paths, targets + [target], slugs + [slug], next)
  {
    var path := RequestPath(requests[|targets|], paths);
    PlacedNext(targets, usedByPath, path, slug, next);
    RemembersNext(targets, slugs, usedByPath, path, slug, slug + ".invoke.yaml", next);
    assert UsedAt(usedByPath, path) == SlugsAt(targets, slugs, path);
    NamedNext(requests, targets, slugs, path, slug);
  }

  /** Each request is put into its folder's path and named after itself, and no two get the same path and file name. */
  method PlaceRequests(requests: seq<Request>, paths: map<string, string>)
    returns (targets: seq<Target>, ghost slugs: seq<string>)
    ensures |targets| == |slugs| == |requests|
    ensures forall i :: 0 <= i < |requests| ==> targets[i].path == RequestPath(requests[i], paths)
    ensures forall i, j :: 0 <= i < j < |targets| ==> targets[i] != targets[j]
    ensures NamedByRequest(requests, targets, slugs)
  {
    var requestNamesByPath: map<string, set<string>> := map[];
    targets, slugs := [], [];
    for n := 0 to |requests|
      invariant |targets| == n && PlacedFirst(requests, paths, targets, slugs, requestNamesByPath)
    {
      var path := RequestPath(requests[n], paths);
      ghost var before := requestNamesByPath;
      var file: string;
      file, requestNamesByPath := UniqueRequestFileName(requests[n].name, path, requestNamesByPath);
      ghost var slug :| file == slug + ".invoke.yaml" && FirstLeft(Slug(requests[n].name), UsedAt(before, path), slug)
        && TakesSlug(before, path, slug, requestNamesByPath);
      PlacedOneMore(requests, paths, targets, slugs, before, slug, requestNamesByPath);
      targets, slugs := targets + [Target(path, file)], slugs + [slug];
    }
  }

  /** Where an export puts its folders and requests. */
  datatype Export = Export(paths: map<string, string>, targets: seq<Target>)

  /**
   The folder paths and the request files of a collection, if all loops up the parents are over in `turns` turns: no
   two requests share a file, and no two folders a path exactly if the folders at the top were given different slugs.
   */
  method ExportCollection(
    folders: seq<Folder>, requests: seq<Request>, arrange: seq<Folder> -> seq<Folder>, turns: nat
  ) returns (files: Option<Export>, ghost slugById: map<string, string>, ghost slugs: seq<string>)
    requires DistinctIds(folders) && Permutes(arrange)
    ensures Assigned(folders, arrange, slugById)
    ensures files.Some? <==> forall f <- folders :: Up(ById(folders), Some(f), turns + 1).None?
    ensures turns >= |folders| ==> (files.Some? <==> Acyclic(ById(folders)))
    ensures files.Some? ==>
      var Export(paths, targets) := files.value;
      && paths.Keys == Ids(folders) && (AllApart(paths) <==> TopsApart(folders, slugById))
      && (ParentsPresent(ById(folders)) ==> AllApart(paths))
      && |targets| == |slugs| == |requests|
      && (forall i :: 0 <= i < |requests| ==>
            targets[i].path == match requests[i].folderId
              case Some(id) => if id != "" && id in paths then paths[id] else ""
              case None => "")
      && NamedByRequest(requests, targets, slugs)
      && forall i, j :: 0 <= i < j < |targets| ==> targets[i] != targets[j]
  {
    var paths;
    paths, slugById := ExportFolderPaths(folders, arrange, turns);
    slugs := [];
    if paths.None? {
      return None, slugById, slugs;
    }
    var targets;
    targets, slugs := PlaceRequests(requests, paths.value);
    files := Some(Export(paths.value, targets));
  }
}
