/**
 * The marker-file parser: given the path of a `ProjectVersion.txt` found by a
 * sweep and the lines read from it, decide whether it describes a Unity
 * project and, if so, which one (name, root directory, editor version).
 * Every failure, including a read or decode error, yields no project.
 */
module Marker {
  import opened Wrappers
  import opened Seqs
  import opened Paths
  import opened Text

  /** The directory a marker file must sit in. */
  const SETTINGS_DIR := "ProjectSettings"
  /** The prefix of the line that carries the editor version. */
  const VERSION_KEY := "m_EditorVersion:"
  /** The separator whose second field is the version. */
  const FIELD_SEP := ": "

  /** A discovered project: (name, project root, editor version). */
  datatype Project = Project(name: string, root: string, version: string)

  /**
   * A marker file as the reader sees it: the lines delivered (each with its
   * line terminator, if any) before the end of the file or before the read
   * failed; `failed` says whether reading on would raise (the file could not
   * be opened, or its bytes are not UTF-8).
   */
  datatype VersionFile = VersionFile(lines: seq<string>, failed: bool)

  predicate IsKeyLine(line: string) {
    VERSION_KEY <= line
  }

  /** The index of the first line that starts with the version key. */
  function KeyLine(lines: seq<string>): (r: Option<nat>)
    ensures r.Some? ==> r.value < |lines| && IsKeyLine(lines[r.value])
    ensures r.Some? ==> forall j :: 0 <= j < r.value ==> !IsKeyLine(lines[j])
    ensures r.None? ==> forall j :: 0 <= j < |lines| ==> !IsKeyLine(lines[j])
    decreases |lines|
  {
    if lines == [] then None
    else if IsKeyLine(lines[0]) then Some(0)
    else
      match KeyLine(lines[1..])
      case None => None
      case Some(i) => Some(i + 1)
  }

  /** `t.split(": ")[1]`, or None where that raises IndexError. */
  function SecondField(t: string): Option<string> {
    var parts := Split(t, FIELD_SEP);
    if |parts| < 2 then None else Some(parts[1])
  }

  /** `line.strip().split(": ")[1]`, or None where that raises IndexError. */
  function FieldOne(line: string): Option<string> {
    SecondField(Strip(line))
  }

  /**
   * The version the file announces: field 1 of its first key line, when that
   * field exists and is not empty.
   */
  function VersionIn(file: VersionFile): Option<string> {
    match KeyLine(file.lines)
    case None => None
    case Some(i) =>
      match FieldOne(file.lines[i])
      case None => None
      case Some(v) => if v == "" then None else Some(v)
  }

  /** The project a marker file at `path` with contents `file` describes. */
  function ProjectDetails(path: string, file: VersionFile): Option<Project> {
    var settingsDir := Dirname(path);
    if Basename(settingsDir) != SETTINGS_DIR then None
    else
      var root := Dirname(settingsDir);
      match VersionIn(file)
      case None => None
      case Some(v) => Some(Project(Basename(root), root, v))
  }

  /**
   * The reading half of the parser: read lines until the first key line and
   * take its field 1. A missing field or a failed read raises, which the
   * caller's handler turns into "no project", as it does an empty version.
   */
  method ReadVersion(file: VersionFile) returns (found: Option<string>)
    ensures found == VersionIn(file)
  {
    var version: Option<string> := None;
    var raised := false;
    var i := 0;
    while i < |file.lines|
      invariant 0 <= i <= |file.lines|
      invariant version.None? && !raised
      invariant forall j :: 0 <= j < i ==> !IsKeyLine(file.lines[j])
    {
      var line := file.lines[i];
      if IsKeyLine(line) {
        var parts := Split(Strip(line), FIELD_SEP);
        if |parts| < 2 {
          raised := true;  // IndexError
        } else {
          version := Some(parts[1]);
        }
        assert KeyLine(file.lines) == Some(i);
        break;
      }
      i := i + 1;
    }
    if i == |file.lines| && file.failed {
      raised := true;  // reading past the delivered lines raises
    }
    if !raised && version.Some? && version.value != "" {
      found := version;
    } else {
      found := None;
    }
  }

  /**
   * The parser as the launcher runs it: check the directory shape, then read
   * the version; any exception on the way yields no project.
   */
  method GetProjectDetails(path: string, file: VersionFile) returns (details: Option<Project>)
    ensures details == ProjectDetails(path, file)
  {
    var settingsDir := Dirname(path);
    if Basename(settingsDir) != SETTINGS_DIR {
      return None;
    }
    var root := Dirname(settingsDir);
    var name := Basename(root);
    var version := ReadVersion(file);
    if version.Some? {
      details := Some(Project(name, root, version.value));
    } else {
      details := None;
    }
  }

  // ---------------------------------------------------------------------
  // Properties of the parser.

  /**
   * A marker file at `prefix/dir/file` can only describe a project when dir
   * is exactly the settings directory.
   */
  lemma OnlyInSettingsDir(prefix: string, dir: string, fileName: string, file: VersionFile)
    requires dir != [] && SEP !in dir && SEP !in fileName
    requires ProjectDetails(prefix + [SEP] + dir + [SEP] + fileName, file).Some?
    ensures dir == SETTINGS_DIR
  {
    DirnameJoin(prefix + [SEP] + dir, fileName);
    BasenameJoin(prefix, dir);
  }

  /**
   * For `prefix/name/ProjectSettings/file`, the project root is
   * `prefix/name`, its name is name, and a project results exactly when the
   * file announces a version.
   */
  lemma ProjectIdentity(prefix: string, name: string, fileName: string, file: VersionFile)
    requires name != [] && SEP !in name && SEP !in fileName
    ensures ProjectDetails(prefix + [SEP] + name + [SEP] + SETTINGS_DIR + [SEP] + fileName, file)
         == match VersionIn(file)
            case None => None
            case Some(v) => Some(Project(name, prefix + [SEP] + name, v))
  {
    var root := prefix + [SEP] + name;
    var settingsDir := root + [SEP] + SETTINGS_DIR;
    assert prefix + [SEP] + name + [SEP] + SETTINGS_DIR + [SEP] + fileName == settingsDir + [SEP] + fileName;
    DirnameJoin(settingsDir, fileName);
    BasenameJoin(root, SETTINGS_DIR);
    DirnameJoin(root, SETTINGS_DIR);
    BasenameJoin(prefix, name);
  }

  /**
   * Field 1 exists exactly when the text holds the separator, and then holds
   * no separator itself.
   */
  lemma SecondFieldExists(t: string)
    ensures SecondField(t).None? <==> !Contains(t, FIELD_SEP)
    ensures SecondField(t).Some? ==> !Contains(SecondField(t).value, FIELD_SEP)
  {
    match IndexOf(t, FIELD_SEP)
    case None =>
      SplitFree(t, FIELD_SEP);
    case Some(k) =>
      SplitSecond(t, FIELD_SEP, k);
  }

  /**
   * Field 1 is the text right after the first separator, up to the next
   * separator or the end of the text.
   */
  lemma SecondFieldPlace(t: string)
    requires SecondField(t).Some?
    ensures Contains(t, FIELD_SEP)
    ensures SecondField(t).value <= t[IndexOf(t, FIELD_SEP).value + 2..]
    ensures || IndexOf(t, FIELD_SEP).value + 2 + |SecondField(t).value| == |t|
            || OccursAt(t, FIELD_SEP, IndexOf(t, FIELD_SEP).value + 2 + |SecondField(t).value|)
  {
    SecondFieldExists(t);
    var k := IndexOf(t, FIELD_SEP).value;
    SplitSecond(t, FIELD_SEP, k);
    SplitSecondEnd(t, FIELD_SEP, k);
  }

  /** Appending lines does not move the first key line. */
  lemma {:induction false} KeyLineAppend(lines: seq<string>, more: seq<string>)
    requires KeyLine(lines).Some?
    ensures KeyLine(lines + more) == KeyLine(lines)
    decreases |lines|
  {
    if !IsKeyLine(lines[0]) {
      assert (lines + more)[1..] == lines[1..] + more;
      KeyLineAppend(lines[1..], more);
    }
  }

  /**
   * Only the first key line counts: lines after it, and a read failure after
   * it, change nothing.
   */
  lemma FirstKeyLineWins(lines: seq<string>, more: seq<string>, failed: bool, failedLater: bool)
    requires KeyLine(lines).Some?
    ensures VersionIn(VersionFile(lines + more, failedLater)) == VersionIn(VersionFile(lines, failed))
  {
    KeyLineAppend(lines, more);
    var i := KeyLine(lines).value;
    assert (lines + more)[i] == lines[i];
  }

  /** A file without a key line, or whose key line has no version, describes no project. */
  lemma NoVersionNoProject(path: string, file: VersionFile)
    requires KeyLine(file.lines).None?
          || FieldOne(file.lines[KeyLine(file.lines).value]) in {None, Some("")}
    ensures ProjectDetails(path, file).None?
  {
  }
}
