/**
 * POSIX path helpers as Python's `os.path` computes them on strings
 * (`posixpath.basename` and `posixpath.dirname`); nothing here touches a
 * filesystem.
 */
module Paths {
  import opened Seqs

  /** os.sep on POSIX. */
  const SEP: char := '/'

  predicate IsSep(c: char) {
    c == SEP
  }

  /** One past the last separator of p, 0 when p has none: `p.rfind('/') + 1`. */
  function AfterLastSep(p: string): (k: nat)
    ensures k <= |p|
    ensures k > 0 ==> p[k - 1] == SEP
    ensures forall i :: k <= i < |p| ==> p[i] != SEP
    decreases |p|
  {
    if p == [] then 0
    else if p[|p| - 1] == SEP then |p|
    else AfterLastSep(p[..|p| - 1])
  }

  /** os.path.basename: what follows the last separator. */
  function Basename(p: string): (b: string)
    ensures SEP !in b
  {
    p[AfterLastSep(p)..]
  }

  predicate AllSeps(s: string) {
    forall i :: 0 <= i < |s| ==> s[i] == SEP
  }

  /**
   * os.path.dirname: everything up to the last separator, with the trailing
   * separators removed unless that would leave only separators.
   */
  function Dirname(p: string): string {
    var head := p[..AfterLastSep(p)];
    if head != [] && !AllSeps(head) then TrimEnd(head, IsSep) else head
  }

  lemma {:induction false} AfterLastSepJoin(dir: string, entry: string)
    requires SEP !in entry
    ensures AfterLastSep(dir + [SEP] + entry) == |dir| + 1
    decreases |entry|
  {
    var p := dir + [SEP] + entry;
    if entry != [] {
      var e' := entry[..|entry| - 1];
      assert p[|p| - 1] == entry[|entry| - 1];
      assert p[..|p| - 1] == dir + [SEP] + e';
      AfterLastSepJoin(dir, e');
    }
  }

  /** The basename of `dir/entry` is entry when entry holds no separator. */
  lemma BasenameJoin(dir: string, entry: string)
    requires SEP !in entry
    ensures Basename(dir + [SEP] + entry) == entry
  {
    AfterLastSepJoin(dir, entry);
    assert (dir + [SEP] + entry)[|dir| + 1..] == entry;
  }

  /**
   * The dirname of `dir/entry` is dir when entry holds no separator and dir is
   * non-empty and does not end in one.
   */
  lemma DirnameJoin(dir: string, entry: string)
    requires SEP !in entry
    requires dir != [] && dir[|dir| - 1] != SEP
    ensures Dirname(dir + [SEP] + entry) == dir
  {
    var p := dir + [SEP] + entry;
    AfterLastSepJoin(dir, entry);
    var head := p[..|dir| + 1];
    assert head == dir + [SEP];
    assert !AllSeps(head) by {
      assert head[|dir| - 1] != SEP;
    }
    var t := TrimEnd(head, IsSep);
    assert !IsSep(head[|dir| - 1]);
    assert t == dir;
  }
}
