/**
 * Loading the search paths from the launcher's `config.json`: the
 * `search_paths` member, when it is a list of strings, gives the search
 * roots (blank entries dropped, the rest home-expanded, in order); anything
 * else falls back to the home directory alone.
 */
module Config {
  import opened Wrappers
  import opened Seqs
  import opened Text

  /** A decoded JSON value; an object keeps the last value of a repeated key. */
  datatype Json =
    | JNull
    | JBool(b: bool)
    | JNumber(text: string)
    | JString(s: string)
    | JArray(items: seq<Json>)
    | JObject(members: map<string, Json>)

  /**
   * What reading the configuration file yields: no file, a file that cannot
   * be opened or is not UTF-8, a file that is not JSON, or a JSON document.
   */
  datatype ConfigFile = Missing | Unreadable | Malformed | Parsed(json: Json)

  /** The member that holds the search roots. */
  const SEARCH_PATHS_KEY := "search_paths"
  /** The home directory, before expansion. */
  const HOME := "~"

  /** The search roots used when the configuration gives none: the home directory. */
  function DefaultSearchPaths(expand: string -> string): seq<string> {
    [expand(HOME)]
  }

  /** The strings of a JSON list, when every item is a string. */
  function Strings(items: seq<Json>): (r: Option<seq<string>>)
    ensures r.Some? <==> forall i :: 0 <= i < |items| ==> items[i].JString?
    ensures r.Some? ==> |r.value| == |items| && forall i :: 0 <= i < |items| ==> r.value[i] == items[i].s
    decreases |items|
  {
    if items == [] then Some([])
    else
      match Strings(items[..|items| - 1])
      case None => None
      case Some(init) =>
        if items[|items| - 1].JString? then Some(init + [items[|items| - 1].s]) else None
  }

  /**
   * `config_data.get("search_paths")` when it is a list of strings; None
   * when the document is not an object (`.get` raises), the member is
   * absent, or it is not a list of strings.
   */
  function SearchPathsSetting(json: Json): Option<seq<string>> {
    if json.JObject? && SEARCH_PATHS_KEY in json.members && json.members[SEARCH_PATHS_KEY].JArray?
    then Strings(json.members[SEARCH_PATHS_KEY].items)
    else None
  }

  /** Keep an entry, home-expanded, when it is not blank. */
  function IfNotBlank(expand: string -> string): string -> Option<string> {
    p => if Strip(p) != "" then Some(expand(p)) else None
  }

  /** `[os.path.expanduser(p) for p in paths if p.strip()]`. */
  function NonBlank(paths: seq<string>, expand: string -> string): seq<string> {
    FilterMap(paths, IfNotBlank(expand))
  }

  /** `load_search_paths`: the configured search roots, or the default. */
  function LoadSearchPaths(config: ConfigFile, expand: string -> string): seq<string> {
    match config
    case Parsed(json) =>
      (match SearchPathsSetting(json)
       case Some(paths) => NonBlank(paths, expand)
       case None => DefaultSearchPaths(expand))
    case _ => DefaultSearchPaths(expand)
  }

  // ---------------------------------------------------------------------
  // Properties of the loader.

  /**
   * The setting is present exactly when the document is an object whose
   * `search_paths` member is a list of strings, and then it is those strings.
   */
  lemma SettingShape(json: Json)
    ensures SearchPathsSetting(json).Some? <==>
      && json.JObject? && SEARCH_PATHS_KEY in json.members
      && json.members[SEARCH_PATHS_KEY].JArray?
      && forall i :: 0 <= i < |json.members[SEARCH_PATHS_KEY].items| ==> json.members[SEARCH_PATHS_KEY].items[i].JString?
    ensures SearchPathsSetting(json).Some? ==>
      var items := json.members[SEARCH_PATHS_KEY].items;
      |SearchPathsSetting(json).value| == |items|
      && forall i :: 0 <= i < |items| ==> SearchPathsSetting(json).value[i] == items[i].s
  {
  }

  /**
   * A missing, unreadable or malformed file, or a document without a list of
   * strings under `search_paths`, gives the home directory alone.
   */
  lemma FallBackToHome(config: ConfigFile, expand: string -> string)
    requires !config.Parsed? || SearchPathsSetting(config.json).None?
    ensures LoadSearchPaths(config, expand) == [expand(HOME)]
  {
  }

  /**
   * With a list of strings configured, a root is loaded exactly when it is
   * the expansion of a non-blank entry; no more roots than entries.
   */
  lemma ConfiguredRoots(config: ConfigFile, expand: string -> string, root: string)
    requires config.Parsed? && SearchPathsSetting(config.json).Some?
    ensures var paths := SearchPathsSetting(config.json).value;
      && |LoadSearchPaths(config, expand)| <= |paths|
      && (root in LoadSearchPaths(config, expand) <==>
          exists i :: 0 <= i < |paths| && Strip(paths[i]) != "" && expand(paths[i]) == root)
  {
    var paths := SearchPathsSetting(config.json).value;
    FilterMapMember(paths, IfNotBlank(expand), root);
  }

  /** The entries keep their configured order: the loaded roots of a concatenation concatenate. */
  lemma NonBlankAppend(a: seq<string>, b: seq<string>, expand: string -> string)
    ensures NonBlank(a + b, expand) == NonBlank(a, expand) + NonBlank(b, expand)
  {
    FilterMapAppend(a, b, IfNotBlank(expand));
  }

  /**
   * A list of strings that are all blank (in particular an empty list) gives
   * no search roots at all, not the default.
   */
  lemma BlankListGivesNothing(config: ConfigFile, expand: string -> string)
    requires config.Parsed? && SearchPathsSetting(config.json).Some?
    requires forall i :: 0 <= i < |SearchPathsSetting(config.json).value| ==> Strip(SearchPathsSetting(config.json).value[i]) == ""
    ensures LoadSearchPaths(config, expand) == []
  {
    FilterMapEmpty(SearchPathsSetting(config.json).value, IfNotBlank(expand));
  }

  /** Every entry that is not blank is loaded, expanded, in place of the entry. */
  lemma NonBlankKeepsAll(paths: seq<string>, expand: string -> string)
    requires forall i :: 0 <= i < |paths| ==> Strip(paths[i]) != ""
    ensures NonBlank(paths, expand) == seq(|paths|, i requires 0 <= i < |paths| => expand(paths[i]))
  {
    FilterMapTotal(paths, IfNotBlank(expand), seq(|paths|, i requires 0 <= i < |paths| => expand(paths[i])));
  }
}
