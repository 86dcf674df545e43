/**
 * The output of one `find ... -print0` sweep and how the launcher reads it:
 * strip the NUL bytes at both ends, split on NUL, skip empty entries and
 * entries that are not valid UTF-8.
 */
module Sweep {
  import opened Wrappers
  import opened Seqs

  /**
   * One unit of a sweep's standard output: a NUL byte, the UTF-8 bytes of
   * one character, or a byte that does not decode as UTF-8. No multi-byte
   * UTF-8 sequence holds a zero byte, so splitting units on Nul is splitting
   * the bytes on NUL.
   */
  datatype Unit = Nul | Char(c: PathChar) | Invalid

  /** A character a unit can hold: the zero byte is a unit of its own. */
  type PathChar = c: char | c != '\0' witness 'a'

  /**
   * How a sweep ends: with its standard output, or without one (the command
   * is missing, fails to start or exceeds its timeout).
   */
  datatype Outcome = Finished(stdout: seq<Unit>) | Failed

  predicate IsNul(u: Unit) {
    u == Nul
  }

  /** `stdout.strip(b'\0').split(b'\0')`. */
  function Entries(stdout: seq<Unit>): seq<seq<Unit>> {
    Split(Trim(stdout, IsNul), [Nul])
  }

  /** `entry.decode('utf-8')`, None where that raises. */
  function Decode(entry: seq<Unit>): (r: Option<string>)
    ensures r.Some? <==> forall i :: 0 <= i < |entry| ==> entry[i].Char?
    ensures r.Some? ==> |r.value| == |entry|
    ensures r.Some? ==> forall i :: 0 <= i < |entry| ==> r.value[i] == entry[i].c
    ensures r.Some? ==> forall i :: 0 <= i < |r.value| ==> r.value[i] != '\0'
    decreases |entry|
  {
    if entry == [] then Some([])
    else
      match entry[0]
      case Char(c) =>
        (match Decode(entry[1..])
         case None => None
         case Some(rest) => Some([c] + rest))
      case _ => None
  }

  /** The path an entry names: skipped when empty or undecodable. */
  function EntryPath(entry: seq<Unit>): Option<string> {
    if entry == [] then None else Decode(entry)
  }

  /** The paths a sweep reports, in output order. */
  function Listed(stdout: seq<Unit>): seq<string> {
    FilterMap(Entries(stdout), EntryPath)
  }

  // ---------------------------------------------------------------------
  // The framing `find -print0` uses: each path's bytes followed by NUL.

  /** The UTF-8 bytes of a string, as units. */
  function Encode(s: string): seq<Unit> {
    seq(|s|, i requires 0 <= i < |s| => if s[i] == '\0' then Nul else Char(s[i]))
  }

  /** The output of `-print0` for the given paths. */
  function Print0(paths: seq<string>): seq<Unit>
    decreases |paths|
  {
    if paths == [] then []
    else Print0(paths[..|paths| - 1]) + Encode(paths[|paths| - 1]) + [Nul]
  }

  function EncodeAll(paths: seq<string>): seq<seq<Unit>> {
    seq(|paths|, i requires 0 <= i < |paths| => Encode(paths[i]))
  }

  /** A path `find` can report: not empty and without NUL. */
  predicate Reportable(p: string) {
    p != [] && '\0' !in p
  }

  /** Decoding an encoded path gives it back. */
  lemma DecodeEncode(s: string)
    requires '\0' !in s
    ensures Decode(Encode(s)) == Some(s)
  {
    var e := Encode(s);
    assert forall i :: 0 <= i < |s| ==> e[i] == Char(s[i]);
    assert Decode(e).Some?;
    assert Decode(e).value == s;
  }

  lemma {:induction false} Print0Join(paths: seq<string>)
    requires paths != []
    ensures Print0(paths) == Join(EncodeAll(paths), [Nul]) + [Nul]
    decreases |paths|
  {
    var n := |paths| - 1;
    var init := paths[..n];
    if n == 0 {
      assert EncodeAll(paths) == [Encode(paths[0])];
    } else {
      Print0Join(init);
      assert EncodeAll(paths) == EncodeAll(init) + [Encode(paths[n])];
      JoinSnoc(EncodeAll(init), [Nul], Encode(paths[n]));
    }
  }

  /** The join of encoded reportable paths starts and ends with a character. */
  lemma JoinEnds(paths: seq<string>)
    requires paths != [] && forall k :: 0 <= k < |paths| ==> Reportable(paths[k])
    ensures Join(EncodeAll(paths), [Nul]) != []
    ensures Join(EncodeAll(paths), [Nul])[0].Char?
    ensures Join(EncodeAll(paths), [Nul])[|Join(EncodeAll(paths), [Nul])| - 1].Char?
  {
    var parts := EncodeAll(paths);
    var n := |parts| - 1;
    assert parts[0][0] == Char(paths[0][0]);
    assert parts[n][|parts[n]| - 1] == Char(paths[n][|paths[n]| - 1]);
    if n > 0 {
      assert parts == parts[..n] + [parts[n]];
      JoinSnoc(parts[..n], [Nul], parts[n]);
    }
  }

  /** No encoded path without NUL holds the separator. */
  lemma EncodedFree(paths: seq<string>)
    requires forall k :: 0 <= k < |paths| ==> '\0' !in paths[k]
    ensures forall k :: 0 <= k < |paths| ==> !Contains(EncodeAll(paths)[k], [Nul])
  {
    forall k | 0 <= k < |paths| ensures !Contains(EncodeAll(paths)[k], [Nul]) {
      var e := EncodeAll(paths)[k];
      assert forall i :: 0 <= i < |e| ==> e[i] == Char(paths[k][i]);
      ContainsSingle(e, Nul);
    }
  }

  /** The entries of a `-print0` output are the encoded paths. */
  lemma EntriesPrint0(paths: seq<string>)
    requires paths != [] && forall k :: 0 <= k < |paths| ==> Reportable(paths[k])
    ensures Entries(Print0(paths)) == EncodeAll(paths)
  {
    var parts := EncodeAll(paths);
    var joined := Join(parts, [Nul]);
    calc {
      Entries(Print0(paths));
      { Print0Join(paths); }
      Split(Trim(joined + [Nul], IsNul), [Nul]);
      { JoinEnds(paths); TrimPadded(joined, Nul, IsNul); }
      Split(joined, [Nul]);
      { EncodedFree(paths); JoinSplit(parts, [Nul]); }
      parts;
    }
  }

  /**
   * Reading back a `-print0` output gives exactly the reported paths, in
   * order: the framing loses and invents nothing.
   */
  lemma ListedPrint0(paths: seq<string>)
    requires forall k :: 0 <= k < |paths| ==> Reportable(paths[k])
    ensures Listed(Print0(paths)) == paths
  {
    if paths == [] {
      assert Entries([]) == [[]];
    } else {
      var parts := EncodeAll(paths);
      EntriesPrint0(paths);
      forall k | 0 <= k < |parts| ensures EntryPath(parts[k]) == Some(paths[k]) {
        DecodeEncode(paths[k]);
      }
      FilterMapTotal(parts, EntryPath, paths);
    }
  }

  /**
   * A path is listed exactly when some entry of the output is non-empty and
   * decodes to it.
   */
  lemma ListedMember(stdout: seq<Unit>, p: string)
    ensures p in Listed(stdout) <==>
      exists i :: 0 <= i < |Entries(stdout)| && Entries(stdout)[i] != [] && Decode(Entries(stdout)[i]) == Some(p)
  {
    FilterMapMember(Entries(stdout), EntryPath, p);
  }
}
