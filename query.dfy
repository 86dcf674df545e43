/**
 * The launcher's answer to one keyword query: the cached project list (found
 * on the first query), the projects whose name or root contains the query
 * case-insensitively, one result item per such project (launchable when its
 * editor is found), and a single placeholder item when there is nothing to
 * show.
 */
module Query {
  import opened Wrappers
  import opened Seqs
  import opened Text
  import opened Marker
  import opened Sweep
  import opened Scanner
  import opened Locator
  import opened Config

  const ICON := "images/unity.png"
  const PLACEHOLDER_NAME := "Unity Project Not Found"
  const NO_PROJECTS := "No Unity projects found in the configured search paths."
  const START_TYPING := "Unity projects found. Start typing to search."

  /** A result item: icon, title, subtitle and the command run on Enter, if any. */
  datatype Item = Item(icon: string, name: string, description: string, action: Option<string>)

  /**
   * The file system as one query sees it: which paths are directories, what
   * the project sweep and the editor sweep print for given roots, and what
   * each marker file holds.
   */
  datatype World = World(isDir: string -> bool, projectSweep: seq<string> -> Outcome,
                         files: Files, editorSweep: seq<string> -> Outcome)

  /** `event.get_argument() or ""`. */
  function QueryText(argument: Option<string>): string {
    match argument
    case None => ""
    case Some(a) => a
  }

  /** The query occurs in the project's name or root, ignoring case. */
  predicate Matches(p: Project, query: string) {
    Contains(Lower(p.name), Lower(query)) || Contains(Lower(p.root), Lower(query))
  }

  function IfMatches(query: string): Project -> Option<Project> {
    p => if Matches(p, query) then Some(p) else None
  }

  /** The projects the query selects, in list order. */
  function Filtered(projects: seq<Project>, query: string): seq<Project> {
    FilterMap(projects, IfMatches(query))
  }

  /** The shell command that opens the project in the editor. */
  function LaunchCommand(editor: string, root: string): string {
    "\"" + editor + "\" -projectPath \"" + root + "\""
  }

  /** The item for a project, given the editor found for its version (if any). */
  function ItemFor(p: Project, editor: Option<string>): Item {
    if editor.Some? && editor.value != "" then
      Item(ICON, p.name + " (" + p.version + ")", "Path: " + p.root,
           Some(LaunchCommand(editor.value, p.root)))
    else
      Item(ICON, p.name + " (" + p.version + ") - Editor Not Found!",
           "Path: " + p.root + ". Unity Editor for this version (" + p.version
             + ") could not be found or accessed on your system.",
           None)
  }

  /** The single item shown when no project item is. */
  function Placeholder(projects: seq<Project>, query: string): Item {
    var description :=
      if projects == [] then NO_PROJECTS
      else if query == "" then START_TYPING
      else "No Unity project matching '" + query + "' found. Check your project locations and search term.";
    Item(ICON, PLACEHOLDER_NAME, description, None)
  }

  /** One item per project, each with the editor the memo holds for its version. */
  function ProjectItems(matching: seq<Project>, memo: map<string, string>): seq<Item> {
    seq(|matching|, i requires 0 <= i < |matching| => ItemFor(matching[i], Lookup(memo, matching[i].version)))
  }

  /** The items of one query over the given projects and editor memo. */
  function Results(projects: seq<Project>, query: string, memo: map<string, string>): seq<Item> {
    var items := if projects == [] then [] else ProjectItems(Filtered(projects, query), memo);
    if items == [] then [Placeholder(projects, query)] else items
  }

  /**
   * The launcher's state across queries: the search roots loaded once, the
   * project list found on the first query and kept, and the editor locator.
   */
  class Launcher {
    /** The configured search roots. */
    const searchPaths: seq<string>
    /** The project list, once found. */
    var cachedProjects: Option<seq<Project>>
    /** The editor locator with its memo and flag. */
    const locator: EditorLocator

    ghost predicate Valid()
      reads this, locator
    {
      locator.Valid() && locator.searchPaths == searchPaths
    }

    /** Start-up: load the search roots; no project list and no editor sweep yet. */
    constructor(config: ConfigFile, expand: string -> string)
      ensures Valid()
      ensures searchPaths == LoadSearchPaths(config, expand)
      ensures cachedProjects == None && locator.memo == map[] && !locator.scanned
      ensures fresh(locator)
    {
      searchPaths := LoadSearchPaths(config, expand);
      cachedProjects := None;
      locator := new EditorLocator(LoadSearchPaths(config, expand));
    }

    /**
     * Answer a query: find the projects on the first query only, then give
     * an item per matching project, looking up its editor (the first lookup
     * of the session runs the editor sweep), or the placeholder.
     */
    method OnEvent(argument: Option<string>, world: World) returns (items: seq<Item>)
      requires Valid()
      modifies this, locator
      ensures Valid()
      ensures cachedProjects == Some(
        if old(cachedProjects).Some? then old(cachedProjects).value
        else Deduped(SweptProjects(searchPaths, world.isDir, world.projectSweep, world.files)))
      ensures items == Results(cachedProjects.value, QueryText(argument), locator.memo)
      ensures locator.scanned <==> old(locator.scanned) || Filtered(cachedProjects.value, QueryText(argument)) != []
      ensures locator.memo == if locator.scanned && !old(locator.scanned)
                              then SweptEditors(world.editorSweep(searchPaths))
                              else old(locator.memo)
    {
      var query := QueryText(argument);
      var projects := CachedProjects(world);
      items := [];
      if projects != [] {
        items := ListMatching(Filtered(projects, query), world.editorSweep);
      }
      if items == [] {
        items := [Placeholder(projects, query)];
      }
    }

    /** The project list: found by the first query, the cached list afterwards. */
    method CachedProjects(world: World) returns (projects: seq<Project>)
      modifies this
      ensures projects == if old(cachedProjects).Some? then old(cachedProjects).value
                          else Deduped(SweptProjects(searchPaths, world.isDir, world.projectSweep, world.files))
      ensures cachedProjects == Some(projects)
    {
      if cachedProjects.None? {
        var found := FindProjects(searchPaths, world.isDir, world.projectSweep, world.files);
        cachedProjects := Some(found);
      }
      projects := cachedProjects.value;
    }

    /**
     * The item loop: look up the editor of each matching project, in order.
     * Only the first lookup of the session can sweep, so every item sees the
     * memo as it stands at the end.
     */
    method ListMatching(matching: seq<Project>, editorSweep: seq<string> -> Outcome) returns (items: seq<Item>)
      requires Valid()
      modifies locator
      ensures Valid()
      ensures items == ProjectItems(matching, locator.memo)
      ensures locator.scanned <==> old(locator.scanned) || matching != []
      ensures locator.memo == if locator.scanned && !old(locator.scanned)
                              then SweptEditors(editorSweep(searchPaths))
                              else old(locator.memo)
    {
      items := [];
      ghost var swept := if old(locator.scanned) then old(locator.memo) else SweptEditors(editorSweep(searchPaths));
      for k := 0 to |matching|
        invariant locator.Valid()
        invariant k == 0 ==> locator.memo == old(locator.memo) && locator.scanned == old(locator.scanned)
        invariant k > 0 ==> locator.scanned && locator.memo == swept
        invariant items == ProjectItems(matching[..k], locator.memo)
      {
        var p := matching[k];
        var editor := locator.FindEditor(p.version, editorSweep);
        assert matching[..k + 1] == matching[..k] + [p];
        ProjectItemsSnoc(matching[..k], p, locator.memo);
        items := items + [ItemFor(p, editor)];
      }
      assert matching[..|matching|] == matching;
    }
  }

  /** The items of one more project are those before it followed by its own. */
  lemma ProjectItemsSnoc(matching: seq<Project>, p: Project, memo: map<string, string>)
    ensures ProjectItems(matching + [p], memo) == ProjectItems(matching, memo) + [ItemFor(p, Lookup(memo, p.version))]
  {
  }

  // ---------------------------------------------------------------------
  // Properties of the query.

  /** A project is shown exactly when it is in the list and matches the query. */
  lemma FilteredMember(projects: seq<Project>, query: string, p: Project)
    ensures p in Filtered(projects, query) <==> p in projects && Matches(p, query)
  {
    FilterMapMember(projects, IfMatches(query), p);
  }

  /** Lower-casing twice is lower-casing once. */
  lemma LowerIdempotent(s: string)
    ensures Lower(Lower(s)) == Lower(s)
  {
  }

  /** Matching ignores the case of the query. */
  lemma MatchIgnoresCase(p: Project, query: string)
    ensures Matches(p, query) <==> Matches(p, Lower(query))
  {
    LowerIdempotent(query);
  }

  /** The empty query selects every project, in order. */
  lemma EmptyQueryMatchesAll(projects: seq<Project>)
    ensures Filtered(projects, "") == projects
  {
    forall i | 0 <= i < |projects| ensures IfMatches("")(projects[i]) == Some(projects[i]) {
      assert Lower("") == "";
      assert Lower(projects[i].name)[..0] == [];
    }
    FilterMapTotal(projects, IfMatches(""), projects);
  }

  /** No project item is titled like the placeholder: its title holds a parenthesis. */
  lemma ProjectItemNotPlaceholder(p: Project, editor: Option<string>)
    ensures ItemFor(p, editor).name != PLACEHOLDER_NAME
  {
    var name := ItemFor(p, editor).name;
    assert name[|p.name| + 1] == '(';
    assert forall i :: 0 <= i < |PLACEHOLDER_NAME| ==> PLACEHOLDER_NAME[i] != '(';
  }

  /**
   * The answer is never empty, and it is the placeholder exactly when no
   * project matches the query.
   */
  lemma PlaceholderIffNoMatch(projects: seq<Project>, query: string, memo: map<string, string>)
    ensures Results(projects, query, memo) != []
    ensures Results(projects, query, memo) == [Placeholder(projects, query)] <==> Filtered(projects, query) == []
  {
    var matching := Filtered(projects, query);
    if matching != [] {
      ProjectItemNotPlaceholder(matching[0], Lookup(memo, matching[0].version));
    }
  }

  /**
   * With some project matching, the answer holds one item per matching
   * project, in order: titled with its name and version, subtitled with its
   * root, and launchable exactly when the memo holds a non-empty editor path
   * for its version, with the command that opens the project in that editor.
   */
  lemma MatchingItems(projects: seq<Project>, query: string, memo: map<string, string>, i: nat)
    requires i < |Filtered(projects, query)|
    ensures |Results(projects, query, memo)| == |Filtered(projects, query)|
    ensures var p := Filtered(projects, query)[i];
      var item := Results(projects, query, memo)[i];
      && p.name + " (" + p.version + ")" <= item.name
      && "Path: " + p.root <= item.description
      && (item.action.Some? <==> p.version in memo && memo[p.version] != "")
      && (item.action.Some? ==> item.action.value == LaunchCommand(memo[p.version], p.root))
  {
    var matching := Filtered(projects, query);
    assert projects != [];
    assert Results(projects, query, memo) == ProjectItems(matching, memo);
    ItemShape(matching[i], Lookup(memo, matching[i].version));
  }

  /**
   * An item is titled with the project's name and version and subtitled
   * with its root; it launches exactly when an editor path is known, with
   * the command that opens the project in it.
   */
  lemma ItemShape(p: Project, editor: Option<string>)
    ensures p.name + " (" + p.version + ")" <= ItemFor(p, editor).name
    ensures "Path: " + p.root <= ItemFor(p, editor).description
    ensures ItemFor(p, editor).action.Some? <==> editor.Some? && editor.value != ""
    ensures ItemFor(p, editor).action.Some? ==> ItemFor(p, editor).action.value == LaunchCommand(editor.value, p.root)
  {
    var title := p.name + " (" + p.version + ")";
    var path := "Path: " + p.root;
    if !(editor.Some? && editor.value != "") {
      assert ItemFor(p, editor).name == title + " - Editor Not Found!";
      assert ItemFor(p, editor).description == path + (". Unity Editor for this version (" + p.version
             + ") could not be found or accessed on your system.");
    }
  }

  /**
   * The "start typing" hint is never shown: the placeholder only appears
   * with no projects or with a non-empty query, since with projects and an
   * empty query every project matches and gets an item.
   */
  lemma StartTypingUnreachable(projects: seq<Project>, query: string, memo: map<string, string>)
    requires Results(projects, query, memo) == [Placeholder(projects, query)]
    ensures projects == [] || query != ""
  {
    if projects != [] && query == "" {
      EmptyQueryMatchesAll(projects);
      PlaceholderIffNoMatch(projects, query, memo);
    }
  }

  /** The placeholder tells an empty project list apart from a query that matches nothing. */
  lemma PlaceholderText(projects: seq<Project>, query: string, memo: map<string, string>)
    requires Filtered(projects, query) == []
    ensures projects == [] ==> Results(projects, query, memo)[0].description == NO_PROJECTS
    ensures projects != [] ==>
      (query != [] && Results(projects, query, memo)[0].description ==
        "No Unity project matching '" + query + "' found. Check your project locations and search term.")
  {
    if projects != [] && query == "" {
      EmptyQueryMatchesAll(projects);
    }
  }

  /**
   * With no search root that is a directory (in particular with no root at
   * all, as a list of blank entries leaves) no project is found: every
   * query shows the "no projects" placeholder and matches nothing, so by
   * `OnEvent`'s contract no query looks up an editor and the editor sweep
   * never runs.
   */
  lemma NoRootNoEditorSweep(searchPaths: seq<string>, isDir: string -> bool, sweep: seq<string> -> Outcome,
                            files: Files, query: string, memo: map<string, string>)
    requires forall i :: 0 <= i < |searchPaths| ==> !isDir(searchPaths[i])
    ensures var projects := Deduped(SweptProjects(searchPaths, isDir, sweep, files));
      && projects == []
      && Filtered(projects, query) == []
      && Results(projects, query, memo) == [Placeholder(projects, query)]
      && Results(projects, query, memo)[0].description == NO_PROJECTS
  {
    NothingWithoutSweep(searchPaths, isDir, sweep, files);
    assert Roots([]) == [];
  }
}
