/**
 Fetching the imports of proto files over server reflection: files are asked for by name until no known file has an
 unknown import. Names the server does not serve are kept without a file.
 */
module DependencyFetch {
  import opened Options
  import opened Seqs
  import opened Graphs
  import opened Sets

  datatype File = File(name: string, dependencies: seq<string>)

  datatype Response = Files(files: seq<File>) | NotFound | Failure(message: string)

  type Database = map<string, File>

  /** The answer to the n-th request, which asks for a file name. */
  type Server = (nat, string) -> Response

  function Imports(db: Database): Edges {
    (name, dependency) => name in db && dependency in db[name].dependencies
  }

  /**
   The server answers out of one set of files: it sends the file it is asked for, possibly with some of the files that
   one needs, and it says so when it does not have it. It may fail at any request.
   */
  ghost predicate Consistent(db: Database, server: Server) {
    && (forall name <- db :: db[name].name == name)
    && forall n, name :: Truthful(db, name, server(n, name))
  }

  ghost predicate Truthful(db: Database, name: string, response: Response) {
    match response
    case Failure(_) => true
    case NotFound => name !in db
    case Files(files) =>
      && name in db && db[name] in files
      && forall f <- files :: f.name in db && db[f.name] == f && Reaches(Imports(db), name, f.name)
  }

  /** Every name stands for the server's file of that name, or for none if the server has none. */
  predicate Known(db: Database, files: map<string, Option<File>>) {
    forall name <- files :: files[name] == Lookup(db, name)
  }

  ghost predicate NeverFails(server: Server) {
    forall n, name :: !server(n, name).Failure?
  }

  /** The names are exactly those reachable from the seeds over imports. */
  ghost predicate Complete(db: Database, seeds: set<string>, names: set<string>) {
    forall name :: name in names <==> ReachedFrom(Imports(db), seeds, name)
  }

  ghost predicate Reached(db: Database, seeds: set<string>, names: set<string>) {
    forall name <- names :: ReachedFrom(Imports(db), seeds, name)
  }

  /** Every name that can come up. */
  function Universe(db: Database, seeds: set<string>): set<string> {
    seeds + db.Keys + set name, dependency | name in db && dependency in db[name].dependencies :: dependency
  }

  /** An import of a known file that is not known itself. */
  predicate Missing(files: map<string, Option<File>>, dependency: string) {
    dependency !in files
    && exists name <- files :: files[name].Some? && dependency in files[name].value.dependencies
  }

  lemma ReachedStays(db: Database, seeds: set<string>, name: string)
    requires ReachedFrom(Imports(db), seeds, name)
    ensures name in Universe(db, seeds)
  {
    var edge := Imports(db);
    var a :| a in seeds && Reaches(edge, a, name);
    var path :| IsPath(edge, path) && path[0] == a && Last(path) == name;
    if |path| > 1 {
      assert edge(path[|path| - 2], path[|path| - 1]);
    }
  }

  lemma ReachedNext(db: Database, seeds: set<string>, name: string, next: string)
    requires ReachedFrom(Imports(db), seeds, name) && Reaches(Imports(db), name, next)
    ensures ReachedFrom(Imports(db), seeds, next)
  {
    var a :| a in seeds && Reaches(Imports(db), a, name);
    ReachesFurther(Imports(db), a, name, next);
  }

  lemma MissingIsReached(db: Database, seeds: set<string>, files: map<string, Option<File>>, dependency: string)
    requires Known(db, files) && Reached(db, seeds, files.Keys) && Missing(files, dependency)
    ensures ReachedFrom(Imports(db), seeds, dependency)
  {
    var name :| name in files && files[name].Some? && dependency in files[name].value.dependencies;
    EdgeReaches(Imports(db), name, dependency);
    ReachedNext(db, seeds, name, dependency);
  }

  lemma AllMissingReached(db: Database, seeds: set<string>, files: map<string, Option<File>>, missing: seq<string>)
    requires Known(db, files) && Reached(db, seeds, files.Keys)
    requires forall name <- missing :: Missing(files, name)
    ensures forall name <- missing :: name !in files && ReachedFrom(Imports(db), seeds, name)
  {
    forall name | name in missing
      ensures ReachedFrom(Imports(db), seeds, name)
    {
      MissingIsReached(db, seeds, files, name);
    }
  }

  lemma NothingMissingIsClosed(db: Database, files: map<string, Option<File>>)
    requires Known(db, files) && forall dependency :: !Missing(files, dependency)
    ensures Closed(Imports(db), files.Keys)
  {
    forall a, b | a in files.Keys && Imports(db)(a, b)
      ensures b in files.Keys
    {
      assert files[a] == Some(db[a]);
      assert !Missing(files, b);
    }
  }

  lemma ReachedGrows(db: Database, seeds: set<string>, known: set<string>, more: set<string>, filename: string)
    requires Reached(db, seeds, known) && ReachedFrom(Imports(db), seeds, filename)
    requires forall name <- more - known :: Reaches(Imports(db), filename, name)
    ensures Reached(db, seeds, more)
  {
    forall name | name in more
      ensures ReachedFrom(Imports(db), seeds, name)
    {
      if name !in known {
        ReachedNext(db, seeds, filename, name);
      }
    }
  }

  ghost predicate Bounds(db: Database, seeds: set<string>, all: set<string>) {
    forall names :: Reached(db, seeds, names) ==> names <= all
  }

  /** Only finitely many names can come up. */
  lemma ReachedIsBounded(db: Database, seeds: set<string>) returns (all: set<string>)
    ensures Bounds(db, seeds, all)
  {
    all := Universe(db, seeds);
    forall names, name | Reached(db, seeds, names) && name in names
      ensures name in all
    {
      ReachedStays(db, seeds, name);
    }
  }

  lemma FewerAreLeft(db: Database, seeds: set<string>, all: set<string>, before: set<string>, names: set<string>)
    requires Bounds(db, seeds, all) && Reached(db, seeds, names) && before < names
    ensures |all - names| < |all - before|
  {
    LessIsLeft(all, before, names);
  }

  lemma SeedsAreReached(db: Database, seeds: set<string>)
    ensures Reached(db, seeds, seeds)
  {
    forall name | name in seeds
      ensures ReachedFrom(Imports(db), seeds, name)
    {
      ReachesItself(Imports(db), name);
    }
  }

  /** Nothing is missing any more: the names are closed under imports and all of them are reachable. */
  lemma FetchedIsReachable(db: Database, seeds: set<string>, files: map<string, Option<File>>)
    requires Known(db, files) && seeds <= files.Keys && Reached(db, seeds, files.Keys)
    requires forall dependency :: !Missing(files, dependency)
    ensures Complete(db, seeds, files.Keys)
  {
    NothingMissingIsClosed(db, files);
    ClosureIsReachability(Imports(db), seeds, files.Keys);
  }

  class ReflectionClient {
    const server: Server
    ghost const db: Database
    var filesByName: map<string, Option<File>>
    var sent: nat

    ghost predicate Valid()
      reads this
    {
      Consistent(db, server) && Known(db, filesByName)
    }

    constructor (server: Server, ghost db: Database, seeds: map<string, Option<File>>)
      requires Consistent(db, server) && Known(db, seeds)
      ensures Valid() && this.server == server && this.db == db && filesByName == seeds
    {
      this.server := server;
      this.db := db;
      filesByName := seeds;
      sent := 0;
    }

    /** The imports that are not known, in any order and possibly repeated. */
    method CollectMissing() returns (missing: seq<string>)
      ensures forall dependency :: dependency in missing <==> Missing(filesByName, dependency)
    {
      missing := [];
      var names := filesByName.Keys;
      while names != {}
        invariant names <= filesByName.Keys
        invariant forall dependency :: dependency in missing <==>
          dependency !in filesByName
          && exists name <- filesByName.Keys - names ::
            filesByName[name].Some? && dependency in filesByName[name].value.dependencies
      {
        var name :| name in names;
        var file := filesByName[name];
        ghost var before, done := missing, filesByName.Keys - names;
        names := names - {name};
        if file.Some? {
          var dependencies := file.value.dependencies;
          for i := 0 to |dependencies|
            invariant forall dependency :: dependency in missing <==>
              dependency in before || (dependency in dependencies[..i] && dependency !in filesByName)
          {
            if dependencies[i] !in filesByName {
              missing := missing + [dependencies[i]];
            }
          }
        }
        assert filesByName.Keys - names == done + {name};
      }
    }

    /** One request: the name is marked as seen, then whatever the server sends is kept. */
    method Fetch(filename: string) returns (error: Option<string>)
      requires Valid()
      modifies this
      ensures error.None? ==> Valid()
      ensures error.Some? <==> server(old(sent), filename).Failure?
      ensures sent == old(sent) + 1
      ensures old(filesByName).Keys + {filename} <= filesByName.Keys
      ensures forall name <- filesByName.Keys - old(filesByName).Keys :: Reaches(Imports(db), filename, name)
    {
      filesByName := filesByName[filename := None];
      ReachesItself(Imports(db), filename);
      var response := server(sent, filename);
      assert Truthful(db, filename, response);
      sent := sent + 1;
      match response {
        case Failure(message) =>
          return Some(message);
        case NotFound =>
        case Files(files) =>
          for i := 0 to |files|
            invariant old(filesByName).Keys + {filename} <= filesByName.Keys
            invariant forall name <- filesByName ::
              filesByName[name] == Lookup(db, name) || (name == filename && db[filename] !in files[..i])
            invariant forall name <- filesByName.Keys - old(filesByName).Keys :: Reaches(Imports(db), filename, name)
            invariant sent == old(sent) + 1
          {
            var file := files[i];
            assert file in files;
            filesByName := filesByName[file.name := Some(file)];
          }
          assert files[..|files|] == files;
      }
      error := None;
    }

    /** One round: every missing name is asked for. */
    method FetchAll(missing: seq<string>, ghost seeds: set<string>) returns (error: Option<string>)
      requires Valid() && Reached(db, seeds, filesByName.Keys)
      requires forall name <- missing :: ReachedFrom(Imports(db), seeds, name)
      modifies this
      ensures error.None? ==> Valid() && Reached(db, seeds, filesByName.Keys)
      ensures error.None? ==> old(filesByName).Keys <= filesByName.Keys && forall name <- missing :: name in filesByName
      ensures NeverFails(server) ==> error.None?
    {
      for n := 0 to |missing|
        invariant Valid() && Reached(db, seeds, filesByName.Keys) && old(filesByName).Keys <= filesByName.Keys
        invariant forall i :: 0 <= i < n ==> missing[i] in filesByName
      {
        assert missing[n] in missing;
        ghost var known := filesByName.Keys;
        error := Fetch(missing[n]);
        if error.Some? {
          return;
        }
        ReachedGrows(db, seeds, known, filesByName.Keys, missing[n]);
      }
      error := None;
    }

    ghost predicate Underway(seeds: set<string>)
      reads this
    {
      Valid() && seeds <= filesByName.Keys && Reached(db, seeds, filesByName.Keys)
    }

    /** Some missing names are asked for: fewer are left, or it fails. */
    method FetchMore(missing: seq<string>, ghost seeds: set<string>, ghost all: set<string>)
      returns (error: Option<string>)
      requires Underway(seeds) && Bounds(db, seeds, all) && missing != []
      requires forall name <- missing :: Missing(filesByName, name)
      modifies this
      ensures error.None? ==> Underway(seeds)
      ensures error.None? ==> |all - filesByName.Keys| < |all - old(filesByName).Keys|
      ensures NeverFails(server) ==> error.None?
    {
      ghost var before := filesByName;
      AllMissingReached(db, seeds, before, missing);
      assert missing[0] in missing && missing[0] !in before;
      error := FetchAll(missing, seeds);
      if error.None? {
        FewerAreLeft(db, seeds, all, before.Keys, filesByName.Keys);
      }
    }

    /** One turn of the loop: it is done when nothing is missing, and otherwise fewer names are left or it fails. */
    method FetchRound(ghost seeds: set<string>, ghost all: set<string>) returns (done: bool, error: Option<string>)
      requires Underway(seeds) && Bounds(db, seeds, all)
      modifies this
      ensures error.None? ==> Underway(seeds)
      ensures error.None? && !done ==> |all - filesByName.Keys| < |all - old(filesByName).Keys|
      ensures error.None? && done ==> Complete(db, seeds, filesByName.Keys)
      ensures NeverFails(server) ==> error.None?
    {
      var missing := CollectMissing();
      done := |missing| == 0;
      if done {
        FetchedIsReachable(db, seeds, filesByName);
        return done, None;
      }
      error := FetchMore(missing, seeds, all);
    }

    /** Without an error the known names are exactly those reachable from the names at the start. */
    method FetchMissingDeps() returns (error: Option<string>)
      requires Valid()
      modifies this
      ensures error.None? ==> Valid()
      ensures error.None? ==> Complete(db, old(filesByName).Keys, filesByName.Keys)
      ensures NeverFails(server) ==> error.None?
    {
      ghost var seeds := filesByName.Keys;
      SeedsAreReached(db, seeds);
      ghost var all := ReachedIsBounded(db, seeds);
      while true
        invariant Underway(seeds)
        decreases |all - filesByName.Keys|
      {
        var done: bool;
        done, error := FetchRound(seeds, all);
        if done || error.Some? {
          return;
        }
      }
    }
  }
}
