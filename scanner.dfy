/**
 * The project scanner: one `find` sweep for marker files under the search
 * roots that are directories, every reported path parsed, and the projects
 * found collected in a dictionary keyed by project root.
 */
module Scanner {
  import opened Wrappers
  import opened Seqs
  import opened Marker
  import opened Sweep

  /** What the sweep may open: the marker file read at each path. */
  type Files = string -> VersionFile

  /** Keep a search root when it is a directory. */
  function IfDirectory(isDir: string -> bool): string -> Option<string> {
    p => if isDir(p) then Some(p) else None
  }

  /** `[p for p in paths if os.path.isdir(p)]`. */
  function Directories(paths: seq<string>, isDir: string -> bool): seq<string> {
    FilterMap(paths, IfDirectory(isDir))
  }

  /** Parse the marker file at a reported path. */
  function PathProject(files: Files): string -> Option<Project> {
    p => ProjectDetails(p, files(p))
  }

  /**
   * What the first half of the scan returns: nothing when no search root is
   * a directory or when the sweep fails; otherwise the project of every
   * reported path that parses, in output order.
   */
  function SweptProjects(searchPaths: seq<string>, isDir: string -> bool,
                         sweep: seq<string> -> Outcome, files: Files): seq<Project>
  {
    var dirs := Directories(searchPaths, isDir);
    if dirs == [] then []
    else
      match sweep(dirs)
      case Failed => []
      case Finished(stdout) => ProjectsIn(PathProject(files), Entries(stdout))
  }

  /**
   * The sweep and parse loop: run the sweep over the directories among the
   * search roots and parse each non-empty, decodable entry of its output.
   */
  method FindProjectsWithFind(searchPaths: seq<string>, isDir: string -> bool,
                              sweep: seq<string> -> Outcome, files: Files)
    returns (projects: seq<Project>)
    ensures projects == SweptProjects(searchPaths, isDir, sweep, files)
  {
    projects := [];
    var dirs := Directories(searchPaths, isDir);
    if dirs == [] {
      return [];
    }
    var outcome := sweep(dirs);
    if outcome.Failed? {
      return;  // TimeoutExpired, FileNotFoundError or any other failure
    }
    projects := ParseEntries(Entries(outcome.stdout), files);
  }

  /** The loop over the entries of the sweep's output. */
  method ParseEntries(entries: seq<seq<Unit>>, files: Files) returns (projects: seq<Project>)
    ensures projects == ProjectsIn(PathProject(files), entries)
  {
    projects := [];
    for i := 0 to |entries|
      invariant projects == ProjectsIn(PathProject(files), entries[..i])
    {
      assert entries[..i + 1][..i] == entries[..i];
      var details := ParseEntry(entries[i], files);
      if details.Some? {
        projects := projects + [details.value];
      }
    }
    assert entries[..|entries|] == entries;
  }

  /** Decode an entry and parse the marker file it names. */
  function EntryDetails(parse: string -> Option<Project>, entry: seq<Unit>): Option<Project> {
    match EntryPath(entry)
    case None => None
    case Some(p) => parse(p)
  }

  /** The projects of the entries, parsed one by one in order. */
  function ProjectsIn(parse: string -> Option<Project>, entries: seq<seq<Unit>>): seq<Project>
    decreases |entries|
  {
    if entries == [] then []
    else
      var found := ProjectsIn(parse, entries[..|entries| - 1]);
      match EntryDetails(parse, entries[|entries| - 1])
      case None => found
      case Some(details) => found + [details]
  }

  /**
   * The body of the sweep loop for one entry: skip it when empty or not
   * UTF-8, otherwise parse the marker file it names.
   */
  method ParseEntry(entry: seq<Unit>, files: Files) returns (details: Option<Project>)
    ensures details == EntryDetails(PathProject(files), entry)
  {
    if entry == [] {
      return None;
    }
    var path := Decode(entry);
    if path.None? {
      return None;  // UnicodeDecodeError
    }
    details := GetProjectDetails(path.value, files(path.value));
  }

  /** Parsing entry by entry is parsing the listed paths. */
  lemma {:induction false} SweptListed(parse: string -> Option<Project>, entries: seq<seq<Unit>>)
    ensures ProjectsIn(parse, entries) == FilterMap(FilterMap(entries, EntryPath), parse)
    decreases |entries|
  {
    if entries != [] {
      var n := |entries| - 1;
      SweptListed(parse, entries[..n]);
      assert entries == entries[..n] + [entries[n]];
      FilterMapSnoc(entries[..n], entries[n], EntryPath);
      if EntryPath(entries[n]).Some? {
        FilterMapSnoc(FilterMap(entries[..n], EntryPath), EntryPath(entries[n]).value, parse);
      }
    }
  }

  /** No directory among the search roots, or a failed sweep, finds nothing. */
  lemma NothingWithoutSweep(searchPaths: seq<string>, isDir: string -> bool,
                            sweep: seq<string> -> Outcome, files: Files)
    requires || (forall i :: 0 <= i < |searchPaths| ==> !isDir(searchPaths[i]))
             || sweep(Directories(searchPaths, isDir)).Failed?
    ensures SweptProjects(searchPaths, isDir, sweep, files) == []
  {
    FilterMapEmpty(searchPaths, IfDirectory(isDir));
  }

  /**
   * For a sweep that reports the given paths, the scan yields the project of
   * each path that parses, in the order reported.
   */
  lemma SweptReported(searchPaths: seq<string>, isDir: string -> bool,
                      sweep: seq<string> -> Outcome, files: Files, reported: seq<string>)
    requires Directories(searchPaths, isDir) != []
    requires sweep(Directories(searchPaths, isDir)) == Finished(Print0(reported))
    requires forall k :: 0 <= k < |reported| ==> Reportable(reported[k])
    ensures SweptProjects(searchPaths, isDir, sweep, files) == FilterMap(reported, PathProject(files))
  {
    SweptListed(PathProject(files), Entries(Print0(reported)));
    ListedPrint0(reported);
  }

  /** The sweep only looks under search roots that are directories, in the configured order. */
  lemma SweepRoots(searchPaths: seq<string>, isDir: string -> bool, p: string)
    ensures p in Directories(searchPaths, isDir) <==> p in searchPaths && isDir(p)
  {
    FilterMapMember(searchPaths, IfDirectory(isDir), p);
  }

  /** Every project found comes from a reported path whose marker file describes it. */
  lemma SweptFromReported(searchPaths: seq<string>, isDir: string -> bool,
                          sweep: seq<string> -> Outcome, files: Files, p: Project)
    requires p in SweptProjects(searchPaths, isDir, sweep, files)
    ensures sweep(Directories(searchPaths, isDir)).Finished?
    ensures exists path :: path in Listed(sweep(Directories(searchPaths, isDir)).stdout)
                        && ProjectDetails(path, files(path)) == Some(p)
  {
    var stdout := sweep(Directories(searchPaths, isDir)).stdout;
    SweptListed(PathProject(files), Entries(stdout));
    FilterMapMember(Listed(stdout), PathProject(files), p);
    var i :| 0 <= i < |Listed(stdout)| && PathProject(files)(Listed(stdout)[i]) == Some(p);
    assert Listed(stdout)[i] in Listed(stdout);
  }

  // ---------------------------------------------------------------------
  // `find_projects`: a dictionary keyed by project root.

  function Roots(ps: seq<Project>): seq<string> {
    seq(|ps|, i requires 0 <= i < |ps| => ps[i].root)
  }

  /**
   * The distinct elements of xs, each kept where it first occurs (an element
   * already present is skipped, a new one goes at the end): a dictionary's
   * key order. `DistinctPrefix` states that order.
   */
  function Distinct(xs: seq<string>): (r: seq<string>)
    ensures forall x :: x in r <==> x in xs
    ensures forall i, j :: 0 <= i < j < |r| ==> r[i] != r[j]
    decreases |xs|
  {
    if xs == [] then []
    else
      var d := Distinct(xs[..|xs| - 1]);
      if xs[|xs| - 1] in d then d else d + [xs[|xs| - 1]]
  }

  /** The last project with the given root. */
  function LastWithRoot(found: seq<Project>, root: string): (r: Option<Project>)
    ensures r.Some? <==> root in Roots(found)
    ensures r.Some? ==> r.value in found && r.value.root == root
    decreases |found|
  {
    if found == [] then None
    else if found[|found| - 1].root == root then
      assert Roots(found)[|found| - 1] == root;
      Some(found[|found| - 1])
    else
      var r := LastWithRoot(found[..|found| - 1], root);
      assert Roots(found[..|found| - 1]) == Roots(found)[..|found| - 1];
      r
  }

  /**
   * `list(d.values())` after `d[p.root] = p` for each p in found: one entry
   * per root, in order of the root's first occurrence, holding the last
   * project with that root.
   */
  function Deduped(found: seq<Project>): seq<Project> {
    var keys := Distinct(Roots(found));
    seq(|keys|, k requires 0 <= k < |keys| => LastWithRoot(found, keys[k]).value)
  }

  /**
   * The state of the dictionary after inserting found in order: its keys in
   * insertion order, and the value kept for each key.
   */
  ghost predicate DictOf(found: seq<Project>, order: seq<string>, byRoot: map<string, Project>) {
    && order == Distinct(Roots(found))
    && (forall r :: r in byRoot <==> r in order)
    && (forall r :: r in byRoot ==> LastWithRoot(found, r) == Some(byRoot[r]))
  }

  /** Inserting one more project: a new root joins the key order at its end, and the root's value is replaced. */
  lemma DictInsert(found: seq<Project>, order: seq<string>, byRoot: map<string, Project>, p: Project)
    requires DictOf(found, order, byRoot)
    ensures DictOf(found + [p], if p.root in byRoot then order else order + [p.root], byRoot[p.root := p])
  {
    InsertOrder(found, order, p);
    InsertValues(found, byRoot, p);
  }

  lemma InsertOrder(found: seq<Project>, order: seq<string>, p: Project)
    requires order == Distinct(Roots(found))
    ensures (if p.root in order then order else order + [p.root]) == Distinct(Roots(found + [p]))
  {
    assert Roots(found + [p]) == Roots(found) + [p.root];
    DistinctSnoc(Roots(found), p.root);
  }

  lemma InsertValues(found: seq<Project>, byRoot: map<string, Project>, p: Project)
    requires forall r :: r in byRoot ==> LastWithRoot(found, r) == Some(byRoot[r])
    ensures forall r :: r in byRoot[p.root := p] ==> LastWithRoot(found + [p], r) == Some(byRoot[p.root := p][r])
  {
    forall r | r in byRoot[p.root := p] ensures LastWithRoot(found + [p], r) == Some(byRoot[p.root := p][r]) {
      LastWithRootSnoc(found, p, r);
    }
  }

  lemma DistinctSnoc(xs: seq<string>, x: string)
    ensures Distinct(xs + [x]) == if x in Distinct(xs) then Distinct(xs) else Distinct(xs) + [x]
  {
    assert (xs + [x])[..|xs|] == xs;
  }

  /**
   * The order of first occurrence: the distinct elements of any prefix of xs
   * come first in `Distinct(xs)`, in the same order, and every element met
   * later comes after them.
   */
  lemma {:induction false} DistinctPrefix(xs: seq<string>, n: nat)
    requires n <= |xs|
    ensures Distinct(xs[..n]) <= Distinct(xs)
    decreases |xs|
  {
    if n < |xs| {
      var m := |xs| - 1;
      assert xs[..m][..n] == xs[..n];
      DistinctPrefix(xs[..m], n);
    } else {
      assert xs[..n] == xs;
    }
  }

  lemma LastWithRootSnoc(found: seq<Project>, p: Project, r: string)
    ensures LastWithRoot(found + [p], r) == if r == p.root then Some(p) else LastWithRoot(found, r)
  {
    assert (found + [p])[..|found|] == found;
  }

  /** Reading the dictionary's values in key order gives the deduplicated projects. */
  lemma DictValues(found: seq<Project>, order: seq<string>, byRoot: map<string, Project>, values: seq<Project>)
    requires DictOf(found, order, byRoot)
    requires |values| == |order| && forall k :: 0 <= k < |order| ==> values[k] == byRoot[order[k]]
    ensures values == Deduped(found)
  {
  }

  /** The dictionary loop of `find_projects`. */
  method DedupByRoot(found: seq<Project>) returns (projects: seq<Project>)
    ensures projects == Deduped(found)
  {
    var byRoot: map<string, Project> := map[];
    var order: seq<string> := [];  // the dictionary's key order
    for i := 0 to |found|
      invariant DictOf(found[..i], order, byRoot)
    {
      var p := found[i];
      assert found[..i + 1] == found[..i] + [p];
      DictInsert(found[..i], order, byRoot, p);
      if p.root !in byRoot {
        order := order + [p.root];
      }
      byRoot := byRoot[p.root := p];
    }
    assert found[..|found|] == found;
    projects := seq(|order|, k requires 0 <= k < |order| => byRoot[order[k]]);
    DictValues(found, order, byRoot, projects);
  }

  /** `find_projects`: sweep, then keep one project per root. */
  method FindProjects(searchPaths: seq<string>, isDir: string -> bool,
                      sweep: seq<string> -> Outcome, files: Files)
    returns (projects: seq<Project>)
    ensures projects == Deduped(SweptProjects(searchPaths, isDir, sweep, files))
  {
    var found := FindProjectsWithFind(searchPaths, isDir, sweep, files);
    projects := DedupByRoot(found);
  }

  /** At most one project per root. */
  lemma DedupRootsDistinct(found: seq<Project>)
    ensures forall i, j :: 0 <= i < j < |Deduped(found)| ==> Deduped(found)[i].root != Deduped(found)[j].root
  {
  }

  /** The roots kept are the distinct roots found, in order of first occurrence. */
  lemma DedupRoots(found: seq<Project>)
    ensures Roots(Deduped(found)) == Distinct(Roots(found))
  {
  }

  /** Every root found keeps a project, and every project kept was found. */
  lemma DedupCovers(found: seq<Project>)
    ensures forall r :: r in Roots(found) <==> r in Roots(Deduped(found))
    ensures forall p :: p in Deduped(found) ==> p in found
  {
    DedupRoots(found);
    forall p | p in Deduped(found) ensures p in found {
      var k :| 0 <= k < |Deduped(found)| && Deduped(found)[k] == p;
    }
  }

  lemma {:induction false} LastWithRootAt(found: seq<Project>, i: nat)
    requires i < |found|
    requires forall j :: i < j < |found| ==> found[j].root != found[i].root
    ensures LastWithRoot(found, found[i].root) == Some(found[i])
    decreases |found|
  {
    var n := |found| - 1;
    if i < n {
      LastWithRootAt(found[..n], i);
    }
  }

  /** The project kept for a root is the last one found with that root. */
  lemma DedupLastWins(found: seq<Project>, i: nat)
    requires i < |found|
    requires forall j :: i < j < |found| ==> found[j].root != found[i].root
    ensures found[i] in Deduped(found)
  {
    var r := found[i].root;
    var keys := Distinct(Roots(found));
    assert Roots(found)[i] == r;
    assert r in keys;
    var k :| 0 <= k < |keys| && keys[k] == r;
    LastWithRootAt(found, i);
    assert Deduped(found)[k] == found[i];
  }
}
