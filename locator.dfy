/**
 * The editor locator: a memo from editor version to executable path, filled
 * by at most one `find` sweep for executables named `Unity`, and a flag that
 * records that the sweep has happened.
 */
module Locator {
  import opened Wrappers
  import opened Seqs
  import opened Paths
  import opened Text
  import opened Sweep

  /** The directory that holds the executable. */
  const EDITOR_DIR := "Editor"
  /** The executable's file name. */
  const EXECUTABLE := "Unity"
  /** `/Editor/Unity`: what follows the version segment. */
  const EDITOR_SUFFIX := [SEP] + EDITOR_DIR + [SEP] + EXECUTABLE

  /** A directory name accepted as a version: non-empty and digit-led. */
  predicate LooksLikeVersion(v: string) {
    v != [] && IsDigit(v[0])
  }

  /**
   * The version an executable path names: its third-last `/`-segment, when
   * the last two segments are `Editor` and `Unity` and that segment looks
   * like a version.
   */
  function EditorVersion(path: string): Option<string> {
    var parts := Split(path, [SEP]);
    var n := |parts|;
    if n >= 3 && parts[n - 2] == EDITOR_DIR && parts[n - 1] == EXECUTABLE && LooksLikeVersion(parts[n - 3])
    then Some(parts[n - 3])
    else None
  }

  /** path is `v/Editor/Unity` or ends with `/v/Editor/Unity`, for a segment v. */
  predicate EditorPathOf(path: string, v: string) {
    && SEP !in v
    && |path| >= |v| + |EDITOR_SUFFIX|
    && path[|path| - |v| - |EDITOR_SUFFIX|..] == v + EDITOR_SUFFIX
    && (|path| == |v| + |EDITOR_SUFFIX| || path[|path| - |v| - |EDITOR_SUFFIX| - 1] == SEP)
  }

  /** Appending a separator and a segment appends that segment. */
  lemma SplitSegment(b: string, x: string)
    requires SEP !in x
    ensures Split(b + [SEP] + x, [SEP]) == Split(b, [SEP]) + [x]
  {
    ContainsSingle(x, SEP);
    SplitSnoc(b, [SEP], x);
  }

  /** Appending `/Editor/Unity` appends those two segments. */
  lemma SplitSuffix(b: string)
    ensures Split(b + EDITOR_SUFFIX, [SEP]) == Split(b, [SEP]) + [EDITOR_DIR, EXECUTABLE]
  {
    var b' := b + [SEP] + EDITOR_DIR;
    assert b + EDITOR_SUFFIX == b' + [SEP] + EXECUTABLE;
    calc {
      Split(b' + [SEP] + EXECUTABLE, [SEP]);
      { SplitSegment(b', EXECUTABLE); }
      Split(b', [SEP]) + [EXECUTABLE];
      { SplitSegment(b, EDITOR_DIR); }
      Split(b, [SEP]) + [EDITOR_DIR] + [EXECUTABLE];
    }
  }

  /** The segments of a path shaped `<pre>v/Editor/Unity` end with v, Editor, Unity. */
  lemma SplitEditorPath(pre: string, v: string)
    requires SEP !in v
    requires pre == [] || pre[|pre| - 1] == SEP
    ensures |Split(pre + v + EDITOR_SUFFIX, [SEP])| >= 3
    ensures Split(pre + v + EDITOR_SUFFIX, [SEP])[|Split(pre + v + EDITOR_SUFFIX, [SEP])| - 3..]
         == [v, EDITOR_DIR, EXECUTABLE]
  {
    ContainsSingle(v, SEP);
    SplitSuffix(pre + v);
    if pre == [] {
      assert pre + v == v;
      SplitFree(v, [SEP]);
    } else {
      var pre' := pre[..|pre| - 1];
      assert pre + v == pre' + [SEP] + v;
      SplitSnoc(pre', [SEP], v);
    }
  }

  /** Joining segments that end with Editor, Unity appends `/Editor/Unity`. */
  lemma JoinEditorParts(parts: seq<string>)
    requires |parts| >= 3 && parts[|parts| - 2] == EDITOR_DIR && parts[|parts| - 1] == EXECUTABLE
    ensures Join(parts, [SEP]) == Join(parts[..|parts| - 2], [SEP]) + EDITOR_SUFFIX
  {
    var n := |parts|;
    var front := parts[..n - 2];
    assert parts == front + [EDITOR_DIR] + [EXECUTABLE];
    calc {
      Join(front + [EDITOR_DIR] + [EXECUTABLE], [SEP]);
      { JoinSnoc(front + [EDITOR_DIR], [SEP], EXECUTABLE); }
      Join(front + [EDITOR_DIR], [SEP]) + [SEP] + EXECUTABLE;
      { JoinSnoc(front, [SEP], EDITOR_DIR); }
      Join(front, [SEP]) + [SEP] + EDITOR_DIR + [SEP] + EXECUTABLE;
    }
  }

  /** `<pre>v/Editor/Unity` has the shape EditorPathOf names. */
  lemma EditorPathOfJoin(pre: string, v: string)
    requires SEP !in v
    requires pre == [] || pre[|pre| - 1] == SEP
    ensures EditorPathOf(pre + v + EDITOR_SUFFIX, v)
  {
    var path := pre + v + EDITOR_SUFFIX;
    assert path[|pre|..] == v + EDITOR_SUFFIX;
    if pre != [] {
      assert path[|pre| - 1] == SEP;
    }
  }

  /** A path the locator accepts has the shape `<pre>v/Editor/Unity`. */
  lemma EditorVersionSome(path: string, v: string)
    requires EditorVersion(path) == Some(v)
    ensures LooksLikeVersion(v) && EditorPathOf(path, v)
  {
    var parts := Split(path, [SEP]);
    var n := |parts|;
    assert SEP !in v by {
      SplitPiecesFree(path, [SEP]);
      ContainsSingle(v, SEP);
    }
    var head := Join(parts[..n - 2], [SEP]);
    assert path == head + EDITOR_SUFFIX by {
      SplitJoin(path, [SEP]);
      JoinEditorParts(parts);
    }
    if n == 3 {
      assert head == v;
      assert path == [] + v + EDITOR_SUFFIX;
      EditorPathOfJoin([], v);
    } else {
      assert parts[..n - 2] == parts[..n - 3] + [v];
      JoinSnoc(parts[..n - 3], [SEP], v);
      var pre := Join(parts[..n - 3], [SEP]) + [SEP];
      assert path == pre + v + EDITOR_SUFFIX;
      EditorPathOfJoin(pre, v);
    }
  }

  /** A path shaped `<pre>v/Editor/Unity` with a digit-led segment v is accepted as version v. */
  lemma EditorVersionOf(path: string, v: string)
    requires LooksLikeVersion(v) && EditorPathOf(path, v)
    ensures EditorVersion(path) == Some(v)
  {
    var pre := path[..|path| - |v| - |EDITOR_SUFFIX|];
    assert path == pre + v + EDITOR_SUFFIX;
    SplitEditorPath(pre, v);
    var parts := Split(path, [SEP]);
    var n := |parts|;
    assert parts[n - 3..][0] == parts[n - 3];
    assert parts[n - 3..][1] == parts[n - 2];
    assert parts[n - 3..][2] == parts[n - 1];
  }

  /** The acceptance rule, both ways. */
  lemma EditorVersionShape(path: string, v: string)
    ensures EditorVersion(path) == Some(v) <==> LooksLikeVersion(v) && EditorPathOf(path, v)
  {
    if EditorVersion(path) == Some(v) {
      EditorVersionSome(path, v);
    }
    if LooksLikeVersion(v) && EditorPathOf(path, v) {
      EditorVersionOf(path, v);
    }
  }

  // ---------------------------------------------------------------------
  // What one sweep puts into the memo.

  /** The memo after recording each path of a sweep, in order: later paths win. */
  function Editors(paths: seq<string>): (memo: map<string, string>)
    ensures forall v :: v in memo ==> EditorVersion(memo[v]) == Some(v) && memo[v] in paths
    decreases |paths|
  {
    if paths == [] then map[]
    else
      var memo := Editors(paths[..|paths| - 1]);
      var p := paths[|paths| - 1];
      match EditorVersion(p)
      case None => memo
      case Some(v) => memo[v := p]
  }

  /** Recording one more path. */
  lemma EditorsSnoc(paths: seq<string>, p: string)
    ensures Editors(paths + [p]) == match EditorVersion(p)
                                    case None => Editors(paths)
                                    case Some(v) => Editors(paths)[v := p]
  {
    assert (paths + [p])[..|paths|] == paths;
  }

  /** Editors, computed entry by entry as the sweep loop does. */
  function EditorsIn(entries: seq<seq<Unit>>): map<string, string>
    decreases |entries|
  {
    if entries == [] then map[]
    else
      var memo := EditorsIn(entries[..|entries| - 1]);
      match EntryPath(entries[|entries| - 1])
      case None => memo
      case Some(p) =>
        match EditorVersion(p)
        case None => memo
        case Some(v) => memo[v := p]
  }

  /** Recording entry by entry is recording the listed paths. */
  lemma {:induction false} EditorsInListed(entries: seq<seq<Unit>>)
    ensures EditorsIn(entries) == Editors(FilterMap(entries, EntryPath))
    decreases |entries|
  {
    if entries != [] {
      var n := |entries| - 1;
      EditorsInListed(entries[..n]);
      assert entries == entries[..n] + [entries[n]];
      FilterMapSnoc(entries[..n], entries[n], EntryPath);
      if EntryPath(entries[n]).Some? {
        EditorsSnoc(FilterMap(entries[..n], EntryPath), EntryPath(entries[n]).value);
      }
    }
  }

  /** The memo a sweep outcome leaves: nothing for a failed sweep. */
  function SweptEditors(outcome: Outcome): map<string, string> {
    match outcome
    case Failed => map[]
    case Finished(stdout) => EditorsIn(Entries(stdout))
  }

  /**
   * The memo a sweep leaves is the listed paths recorded in order; every
   * entry in it is an accepted executable for its version.
   */
  lemma SweptEditorsSound(outcome: Outcome)
    ensures outcome.Finished? ==> SweptEditors(outcome) == Editors(Listed(outcome.stdout))
    ensures forall v :: v in SweptEditors(outcome) ==> EditorVersion(SweptEditors(outcome)[v]) == Some(v)
  {
    if outcome.Finished? {
      EditorsInListed(Entries(outcome.stdout));
    }
  }

  /** Every version some swept path names is recorded. */
  lemma {:induction false} EditorsComplete(paths: seq<string>, i: nat)
    requires i < |paths| && EditorVersion(paths[i]).Some?
    ensures EditorVersion(paths[i]).value in Editors(paths)
    decreases |paths|
  {
    var n := |paths| - 1;
    if i < n {
      EditorsComplete(paths[..n], i);
    }
  }

  /** For a version named by several paths, the last of them is recorded. */
  lemma {:induction false} EditorsLastWins(paths: seq<string>, i: nat)
    requires i < |paths| && EditorVersion(paths[i]).Some?
    requires forall j :: i < j < |paths| ==> EditorVersion(paths[j]) != EditorVersion(paths[i])
    ensures EditorVersion(paths[i]).value in Editors(paths)
    ensures Editors(paths)[EditorVersion(paths[i]).value] == paths[i]
    decreases |paths|
  {
    var n := |paths| - 1;
    if i < n {
      EditorsLastWins(paths[..n], i);
    }
  }

  /** The memo lookup `memo.get(version)`. */
  function Lookup(memo: map<string, string>, version: string): Option<string> {
    if version in memo then Some(memo[version]) else None
  }

  class EditorLocator {
    /** The memo from version to executable path. */
    var memo: map<string, string>
    /** Whether the sweep has run. */
    var scanned: bool
    /** The number of sweeps run so far. */
    ghost var sweeps: nat
    /** The roots the sweep searches: the configured search paths, unfiltered. */
    const searchPaths: seq<string>

    /**
     * Every memo entry is an accepted executable for its version; the memo
     * is empty until the sweep and at most one sweep ever runs.
     */
    ghost predicate Valid()
      reads this
    {
      && (forall v :: v in memo ==> EditorVersion(memo[v]) == Some(v))
      && (!scanned ==> memo == map[])
      && sweeps == (if scanned then 1 else 0)
    }

    constructor(searchPaths: seq<string>)
      ensures Valid()
      ensures this.searchPaths == searchPaths && memo == map[] && !scanned
    {
      this.searchPaths := searchPaths;
      memo := map[];
      scanned := false;
      sweeps := 0;
    }

    /**
     * The sweep loop: record every accepted executable of the sweep's output
     * in the memo, later entries overwriting earlier ones, and note the path
     * for the requested version.
     */
    method RecordSweep(version: string, outcome: Outcome) returns (found: Option<string>)
      requires memo == map[]
      modifies this
      ensures memo == SweptEditors(outcome)
      ensures found == Lookup(memo, version)
      ensures scanned == old(scanned) && sweeps == old(sweeps)
    {
      found := None;
      if outcome.Failed? {
        return;  // TimeoutExpired, FileNotFoundError or any other failure
      }
      var entries := Entries(outcome.stdout);
      for i := 0 to |entries|
        invariant scanned == old(scanned) && sweeps == old(sweeps)
        invariant memo == EditorsIn(entries[..i])
        invariant found == Lookup(memo, version)
      {
        var entry := entries[i];
        assert entries[..i + 1][..i] == entries[..i];
        found := RecordEntry(entry, version, found);
      }
      assert entries[..|entries|] == entries;
    }

    /**
     * The body of the sweep loop for one entry: skip it when empty or not
     * UTF-8; otherwise, when its path is an accepted executable, record it
     * under its version and note it when that is the requested version.
     */
    method RecordEntry(entry: seq<Unit>, version: string, found: Option<string>) returns (found': Option<string>)
      modifies this
      ensures scanned == old(scanned) && sweeps == old(sweeps)
      ensures memo == match EntryPath(entry)
                      case None => old(memo)
                      case Some(p) =>
                        match EditorVersion(p)
                        case None => old(memo)
                        case Some(v) => old(memo)[v := p]
      ensures found' == match EntryPath(entry)
                        case None => found
                        case Some(p) => if EditorVersion(p) == Some(version) then Some(p) else found
    {
      found' := found;
      if entry == [] {
        return;
      }
      var decoded := Decode(entry);
      if decoded.None? {
        return;  // UnicodeDecodeError
      }
      var executable := decoded.value;
      var parts := Split(executable, [SEP]);
      var n := |parts|;
      if n >= 3 && parts[n - 2] == EDITOR_DIR && parts[n - 1] == EXECUTABLE {
        var v := parts[n - 3];
        if v != [] && IsDigit(v[0]) {
          memo := memo[v := executable];
          if v == version {
            found' := Some(executable);
          }
        }
      }
    }

    /**
     * The path of the editor for a version: a memo hit answers at once;
     * otherwise the first call sweeps, records every accepted executable and
     * sets the flag for good, and later calls never sweep again.
     */
    method FindEditor(version: string, sweep: seq<string> -> Outcome) returns (path: Option<string>)
      requires Valid()
      modifies this
      ensures Valid() && scanned
      ensures path == Lookup(memo, version)
      ensures old(version in memo) ==> path == Some(old(memo)[version]) && memo == old(memo) && sweeps == old(sweeps)
      ensures old(scanned) ==> memo == old(memo) && sweeps == old(sweeps)
      ensures !old(scanned) ==> memo == SweptEditors(sweep(searchPaths)) && sweeps == 1
    {
      if version in memo {
        return Some(memo[version]);
      }
      if scanned {
        return None;
      }
      var outcome := sweep(searchPaths);
      var found := RecordSweep(version, outcome);
      SweptEditorsSound(outcome);
      sweeps := sweeps + 1;
      scanned := true;
      if version in memo {
        return Some(memo[version]);
      }
      return found;
    }
  }
}
