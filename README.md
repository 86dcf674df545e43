# Unity projects launcher: a Dafny model of its discovery and caching logic

The launcher is a keyword extension for a desktop launcher. On the first
query it runs one `find` sweep for `*/ProjectSettings/ProjectVersion.txt`
files under the configured search roots. It parses each marker file into a
project: name, root directory and editor version. It keeps one project per
root and caches the list for the session. Each query shows the projects
whose name or root contains the query, ignoring case. A project whose
editor is found gets a launch command. The editor is found by one
session-wide `find` sweep for executables named `Unity`, memoised by
version. Everything lives in `main.py`.

The model follows that file's structure:

- `Config` (config.dfy): `load_search_paths`. The decoded configuration
  document is an input value.
- `Marker` (marker.dfy): `get_project_details_from_project_version_file`.
  The specification function is `ProjectDetails`. The methods
  `GetProjectDetails` and `ReadVersion` carry the line loop with its
  `break`.
- `Sweep` (sweep.dfy): how both sweeps' `-print0` output is read. The output
  is stripped of NUL at both ends, split on NUL, and empty or non-UTF-8
  entries are skipped. It also holds the `-print0` framing and the proof
  that reading it back gives the reported paths.
- `Scanner` (scanner.dfy): `find_projects_with_find_command` (the methods
  `FindProjectsWithFind`, `ParseEntries` and `ParseEntry`) and the
  `find_projects` dictionary (`DedupByRoot`). The dictionary is a `map`
  built in place, with a sequence of keys for its insertion order.
- `Locator` (locator.dfy): `find_unity_editor`. The class `EditorLocator`
  holds the memo (`CACHED_EDITORS`) and the flag (`EDITORS_SCANNED`). A
  ghost counter of sweeps states that at most one sweep ever runs.
- `Query` (query.dfy): `on_event`. The class `Launcher` holds the search
  roots, the project cache (`CACHED_PROJECTS_LIST`) and the editor locator.
  Its specification function is `Results`.
- `Seqs`, `Paths` and `Text` are helpers. They give Python's
  `split`/`strip`/`in` on sequences, `posixpath.dirname`/`basename`, and
  ASCII `strip`/`isdigit`/`lower`.

Two points where the model follows the code rather than a prose reading of
it:

- The version is field 1 of `line.strip().split(": ")`. That is the text
  between the first and the second `": "` on the line, not everything after
  the first separator (`Marker.SecondFieldPlace`).
- The project sweep searches only the roots that are directories. The
  editor sweep is given all configured roots, unfiltered (`FindEditor`
  sweeps `searchPaths`).

## Model

| member | source | states |
|---|---|---|
| Config.Strings | main.py:23 | a JSON list yields strings exactly when every item is a string, and then it yields those strings, one per item, in order |
| Config.SettingShape | main.py:21-23 | the setting exists exactly when the document is an object whose `search_paths` member is a list of strings; `.get` on a non-object raises, which also falls back |
| Config.FallBackToHome | main.py:18-36 | a missing, unreadable or non-JSON file, or any other shape of `search_paths`, gives exactly the default `[expanduser("~")]` |
| Config.ConfiguredRoots | main.py:23-24 | with a list of strings, a root is loaded iff it is the expansion of a non-blank entry; there are never more roots than entries |
| Config.NonBlankAppend | main.py:24 | the loaded roots keep the configured order: loading a concatenation concatenates the loaded parts |
| Config.BlankListGivesNothing | main.py:24 | a list of only blank strings, the empty list included, gives no roots at all, not the default |
| Config.NonBlankKeepsAll | main.py:24 | when no entry is blank, every entry is loaded, expanded, at its own position |
| Marker.KeyLine | main.py:56-59 | the index found is the first line that starts with `m_EditorVersion:`; none is reported only when no line does |
| Marker.ReadVersion | main.py:54-60 | the line loop with `break` returns exactly the version `VersionIn` specifies; a missing field, a failed read before the key line or an empty version gives none |
| Marker.GetProjectDetails | main.py:41-64 | the parser method returns exactly `ProjectDetails`: no project unless the parent directory is `ProjectSettings`, otherwise the root, its basename and the version |
| Marker.OnlyInSettingsDir | main.py:47-49 | a marker file at `prefix/dir/file` yields a project only when dir is exactly `ProjectSettings` |
| Marker.ProjectIdentity | main.py:47-61 | for `prefix/name/ProjectSettings/file`, the root is `prefix/name`, the name is `name`, and a project results exactly when the file announces a version |
| Marker.SecondFieldExists | main.py:58 | field 1 exists exactly when the stripped line contains `": "`, and it never contains that separator itself |
| Marker.SecondFieldPlace | main.py:58 | field 1 starts right after the first `": "` and ends at the next `": "` or at the end of the line |
| Marker.KeyLineAppend | main.py:56-59 | lines after the first key line do not move it |
| Marker.FirstKeyLineWins | main.py:56-59 | only the first key line counts: later lines, and a read error after it, leave the version unchanged |
| Marker.NoVersionNoProject | main.py:54-64 | no key line, no field 1 or an empty field 1 means no project |
| Sweep.Decode | main.py:92 | decoding succeeds exactly when every unit is a character, and gives those characters in order, none of them NUL |
| Sweep.DecodeEncode | main.py:92 | decoding a path's encoding gives the path back |
| Sweep.Print0Join | main.py:86 | `-print0` output is the encoded paths joined by NUL, with a final NUL |
| Sweep.EntriesPrint0 | main.py:86 | stripping and splitting a `-print0` output gives exactly the encoded paths |
| Sweep.ListedPrint0 | main.py:86-92 | reading a `-print0` output of non-empty, NUL-free paths gives exactly those paths, in order, and nothing else |
| Sweep.ListedMember | main.py:88-92 | a path is read from the output iff some non-empty entry decodes to it |
| Scanner.FindProjectsWithFind | main.py:66-107 | the sweep method returns `SweptProjects`: nothing without a directory root or on a failed sweep, otherwise the parse of each entry, in order |
| Scanner.ParseEntries | main.py:88-99 | the entry loop returns the projects of the entries that are non-empty, decode and parse, in output order |
| Scanner.ParseEntry | main.py:89-99 | one entry: skipped when empty or not UTF-8, otherwise the parser's result for its path |
| Scanner.SweptListed | main.py:88-95 | parsing entry by entry equals parsing the list of decoded, non-empty entries |
| Scanner.NothingWithoutSweep | main.py:70-107 | no directory among the roots, or a failed sweep, finds no project |
| Scanner.SweptReported | main.py:70-107 | when the sweep reports given paths, the result is the project of each path that parses, in reported order |
| Scanner.SweepRoots | main.py:71 | the sweep searches exactly the configured roots that are directories |
| Scanner.SweptFromReported | main.py:88-95 | every project found comes from a path the sweep reported, whose marker file describes that project |
| Scanner.Distinct | main.py:117-120 | the dictionary's key order: every root found, each exactly once |
| Scanner.LastWithRoot | main.py:117-118 | the value kept for a root exists iff the root was found, and is a found project with that root |
| Scanner.DictInsert | main.py:118 | one assignment `d[root] = p` appends a new root to the key order and replaces that root's value |
| Scanner.InsertOrder | main.py:118 | assigning to a key adds it to the key order only when it is new |
| Scanner.InsertValues | main.py:118 | after the assignment the root holds p, and every other root keeps its last project |
| Scanner.DistinctSnoc | main.py:118 | one more root extends the key order exactly when it is new |
| Scanner.DistinctPrefix | main.py:117-120 | the key order is the order of first occurrence: the roots of any prefix of the found projects come first, in the same order |
| Scanner.LastWithRootSnoc | main.py:118 | one more project becomes the last project for its root and changes no other root |
| Scanner.DictValues | main.py:120 | the dictionary's values in key order are the deduplicated projects |
| Scanner.DedupByRoot | main.py:111-120 | the dictionary loop returns one project per root, in first-seen root order, the last one found for each root |
| Scanner.FindProjects | main.py:110-120 | `find_projects` is the sweep followed by the deduplication |
| Scanner.DedupRootsDistinct | main.py:117-120 | no two projects returned share a root |
| Scanner.DedupRoots | main.py:117-120 | the roots returned are the distinct roots found, in order of first appearance |
| Scanner.DedupCovers | main.py:117-120 | every root found is kept, and every project returned was found |
| Scanner.LastWithRootAt | main.py:117-118 | a project with no later project of the same root is that root's last |
| Scanner.DedupLastWins | main.py:117-120 | the last project found for each root is the one returned |
| Locator.EditorVersionSome | main.py:162-165 | an accepted executable path ends in `<v>/Editor/Unity` with a digit-led segment v, as a whole path or after a `/` |
| Locator.EditorVersionOf | main.py:162-165 | every path of that shape is accepted, with version v |
| Locator.EditorVersionShape | main.py:162-165 | acceptance with version v holds iff v is digit-led and the path is `.../v/Editor/Unity` |
| Locator.Editors | main.py:157-168 | every memo entry maps a version to an accepted executable for it that the sweep listed |
| Locator.EditorsSnoc | main.py:166 | recording a listed path sets its version to it when accepted, and otherwise changes nothing |
| Locator.EditorsInListed | main.py:157-172 | recording entry by entry equals recording the listed paths |
| Locator.SweptEditorsSound | main.py:148-179 | the memo a sweep leaves is the listed paths recorded in order, and each entry is an accepted executable for its key; a failed sweep records nothing |
| Locator.EditorsComplete | main.py:163-166 | every version named by an accepted listed path is recorded |
| Locator.EditorsLastWins | main.py:166 | for a version named by several paths, the last one is recorded |
| Locator.EditorLocator.RecordSweep | main.py:155-172 | the sweep loop leaves exactly `SweptEditors(outcome)` in the memo and notes the requested version's path |
| Locator.EditorLocator.RecordEntry | main.py:158-168 | one entry: skipped when empty, undecodable or not an accepted executable; otherwise recorded under its version, and noted when that is the requested version |
| Locator.EditorLocator.FindEditor | main.py:126-187 | a memo hit returns its path with no sweep; with the flag set the memo is never touched; the first miss sweeps once, fills the memo from that sweep and sets the flag for good; the result is always the memo lookup |
| Query.Launcher.constructor | main.py:122-124 | start-up: the roots are loaded once (the module-level load at main.py line 38); no project list, an empty memo and the flag unset |
| Query.Launcher.OnEvent | main.py:195-252 | the answer is `Results` over the cached projects and the memo; the list is found only on the first query; the editor sweep runs only when a project matches and the flag was unset |
| Query.Launcher.CachedProjects | main.py:201-204 | the project list is computed only while the cache is empty, and kept afterwards |
| Query.Launcher.ListMatching | main.py:215-234 | the item loop gives one item per matching project, in order, each with the memo's editor for its version |
| Query.ProjectItemsSnoc | main.py:215-234 | appending one project appends exactly its item |
| Query.FilteredMember | main.py:210-213 | a project is kept iff it is listed and the lower-cased query occurs in its lower-cased name or root |
| Query.LowerIdempotent | main.py:212 | lower-casing twice is lower-casing once |
| Query.MatchIgnoresCase | main.py:212 | matching does not depend on the case of the query |
| Query.EmptyQueryMatchesAll | main.py:210-213 | the empty query keeps every project, in order |
| Query.ProjectItemNotPlaceholder | main.py:219-247 | no project item carries the placeholder's title |
| Query.PlaceholderIffNoMatch | main.py:208-250 | the answer is never empty, and it is the single placeholder exactly when no project matches |
| Query.MatchingItems | main.py:215-234 | with matches, there is one item per matching project, in order, with its name and version, its root, and a launch command exactly when the memo holds a non-empty editor path |
| Query.ItemShape | main.py:217-233 | an item is titled with name and version and subtitled with the root; it launches iff the editor path is non-empty, with `"<editor>" -projectPath "<root>"` |
| Query.StartTypingUnreachable | main.py:236-240 | the placeholder appears only with no projects or with a non-empty query, so the "Start typing" text is never shown |
| Query.PlaceholderText | main.py:237-242 | the placeholder says "no projects" for an empty list, and "no match for the query" otherwise |
| Query.NoRootNoEditorSweep | main.py:70-73 | with no root that is a directory (no root at all included) no project is found, nothing matches and the "no projects" placeholder is shown, so the editor lookup is never called and the editor sweep never runs |

## Left out

- Spawning `find` (`Popen`, `communicate`, the 5-second timeout, stderr) is an input. A sweep is a function from the roots to an `Outcome`: the output units, or `Failed` for a timeout, a missing `find` or any other error. Both sweeps are such inputs, and what they report is not modelled as a filesystem traversal.
- The bytes of a sweep's output are abstracted to units: NUL, one UTF-8 character other than NUL (`Sweep.PathChar`), or an invalid byte. Decoding fails exactly when an entry holds an invalid byte. UTF-8 multi-byte encoding itself is not modelled.
- Reading the marker file is the lines delivered before end of file or before an error, plus a flag saying whether reading on raises (open failure or bad UTF-8). Python's line splitting is not modelled.
- Reading `config.json`, `os.path.exists` and `json.load` are not modelled: the configuration is given as `Missing`, `Unreadable`, `Malformed` or a decoded `Json` value. JSON parsing itself is out of scope.
- `os.path.expanduser` and `os.path.isdir` are function parameters, with no behaviour of their own.
- `str.strip`, `str.isdigit` and `str.lower` are modelled on ASCII only. Unicode whitespace, digits and case mappings are not.
- With no search root configured (a list of only blank entries) no project is found, so no query calls the editor lookup and the editor sweep never runs (`Query.NoRootNoEditorSweep`). `Locator.EditorLocator.FindEditor` called on its own would sweep with no roots; what `find` does then (search the current directory) is whatever the sweep parameter returns.
- The desktop launcher's classes (`Extension`, `EventListener`, `ExtensionResultItem`, `RunScriptAction`, `RenderResultListAction`) are out of scope. Items are a plain datatype: icon, name, description and an optional command string.
- `time.time()` readings and `print` diagnostics are out of scope: their values are never used.
- Python's exception mechanics are replaced by results. The broad `except` clauses are modelled as the `None`/default outcome they produce.
- The sweep counter of `EditorLocator` is ghost state. It states "at most one sweep" and has no counterpart in the code.
- One `World` value stands for the filesystem during one query. The model does not say how the filesystem changes between queries, only that the cached list and memo are reused.
