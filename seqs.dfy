/**
 * Sequence operations that the launcher borrows from Python's built-ins:
 * list comprehensions with an `if` (FilterMap), `in` on strings and
 * `bytes`/`str.find` (IndexOf, Contains), `split` on a separator (Split, with
 * Join as its inverse) and `strip`/`rstrip` (TrimStart, TrimEnd, Trim).
 */
module Seqs {
  import opened Wrappers

  // ---------------------------------------------------------------------
  // [g(x) for x in s if ...]: keep the elements f maps to Some, in order.

  function FilterMap<A, B>(s: seq<A>, f: A -> Option<B>): (r: seq<B>)
    ensures |r| <= |s|
    decreases |s|
  {
    if s == [] then []
    else
      var rest := FilterMap(s[..|s| - 1], f);
      match f(s[|s| - 1])
      case Some(y) => rest + [y]
      case None => rest
  }

  /** One more element at the end adds at most its own image at the end. */
  lemma FilterMapSnoc<A, B>(s: seq<A>, x: A, f: A -> Option<B>)
    ensures FilterMap(s + [x], f) == FilterMap(s, f) + (if f(x).Some? then [f(x).value] else [])
  {
    assert (s + [x])[..|s + [x]| - 1] == s;
  }

  /** The comprehension distributes over concatenation: it keeps the input order. */
  lemma {:induction false} FilterMapAppend<A, B>(a: seq<A>, b: seq<A>, f: A -> Option<B>)
    ensures FilterMap(a + b, f) == FilterMap(a, f) + FilterMap(b, f)
    decreases |b|
  {
    if b == [] {
      assert a + b == a;
    } else {
      var b' := b[..|b| - 1];
      var x := b[|b| - 1];
      assert b == b' + [x];
      assert a + b == (a + b') + [x];
      FilterMapAppend(a, b', f);
      FilterMapSnoc(a + b', x, f);
      FilterMapSnoc(b', x, f);
    }
  }

  /** An output element is exactly the image of some input element. */
  lemma {:induction false} FilterMapMember<A, B>(s: seq<A>, f: A -> Option<B>, y: B)
    ensures y in FilterMap(s, f) <==> exists i :: 0 <= i < |s| && f(s[i]) == Some(y)
    decreases |s|
  {
    if s != [] {
      var s' := s[..|s| - 1];
      FilterMapMember(s', f, y);
      assert s == s' + [s[|s| - 1]];
      FilterMapSnoc(s', s[|s| - 1], f);
      if y in FilterMap(s', f) {
        var i :| 0 <= i < |s'| && f(s'[i]) == Some(y);
        assert s[i] == s'[i];
      }
      if exists i :: 0 <= i < |s| && f(s[i]) == Some(y) {
        var i :| 0 <= i < |s| && f(s[i]) == Some(y);
        if i < |s'| {
          assert s'[i] == s[i];
        }
      }
    }
  }

  /** The output is empty exactly when f rejects every input element. */
  lemma {:induction false} FilterMapEmpty<A, B>(s: seq<A>, f: A -> Option<B>)
    ensures FilterMap(s, f) == [] <==> forall i :: 0 <= i < |s| ==> f(s[i]).None?
    decreases |s|
  {
    if s != [] {
      var s' := s[..|s| - 1];
      FilterMapEmpty(s', f);
      assert s == s' + [s[|s| - 1]];
      FilterMapSnoc(s', s[|s| - 1], f);
      if forall i :: 0 <= i < |s| ==> f(s[i]).None? {
        forall i | 0 <= i < |s'| ensures f(s'[i]).None? {
          assert s'[i] == s[i];
        }
      }
    }
  }

  /** When f maps every element of s to Some, the comprehension is exactly those images. */
  lemma {:induction false} FilterMapTotal<A, B>(s: seq<A>, f: A -> Option<B>, t: seq<B>)
    requires |t| == |s|
    requires forall i :: 0 <= i < |s| ==> f(s[i]) == Some(t[i])
    ensures FilterMap(s, f) == t
    decreases |s|
  {
    if s != [] {
      var n := |s| - 1;
      forall i | 0 <= i < n ensures f(s[..n][i]) == Some(t[..n][i]) {
        assert s[..n][i] == s[i];
      }
      FilterMapTotal(s[..n], f, t[..n]);
      assert t == t[..n] + [t[n]];
    }
  }


  // ---------------------------------------------------------------------
  // Occurrences of a pattern: Python's `str.find`, `in` and the first step of `split`.

  predicate OccursAt<T(==)>(s: seq<T>, pat: seq<T>, j: int) {
    0 <= j && j + |pat| <= |s| && s[j..j + |pat|] == pat
  }

  /** The first position where pat occurs in s, if any (IndexOfSpec says so). */
  function IndexOf<T(==)>(s: seq<T>, pat: seq<T>): (r: Option<nat>)
    ensures r.Some? ==> r.value + |pat| <= |s|
    decreases |s|
  {
    if |s| < |pat| then None
    else if s[..|pat|] == pat then Some(0)
    else
      match IndexOf(s[1..], pat)
      case None => None
      case Some(i) => Some(i + 1)
  }

  /** IndexOf finds an occurrence, the first one, and reports none only when there is none. */
  lemma {:induction false} IndexOfSpec<T>(s: seq<T>, pat: seq<T>)
    ensures IndexOf(s, pat).Some? ==> OccursAt(s, pat, IndexOf(s, pat).value)
    ensures IndexOf(s, pat).Some? ==> forall j :: 0 <= j < IndexOf(s, pat).value ==> !OccursAt(s, pat, j)
    ensures IndexOf(s, pat).None? ==> forall j :: !OccursAt(s, pat, j)
    decreases |s|
  {
    if |s| >= |pat| && s[..|pat|] != pat {
      IndexOfSpec(s[1..], pat);
      assert !OccursAt(s, pat, 0) by {
        assert s[0..|pat|] == s[..|pat|];
      }
      forall j | OccursAt(s, pat, j) && j > 0 ensures OccursAt(s[1..], pat, j - 1) {
        assert s[1..][j - 1..j - 1 + |pat|] == s[j..j + |pat|];
      }
      if IndexOf(s[1..], pat).Some? {
        var i := IndexOf(s[1..], pat).value;
        assert s[i + 1..i + 1 + |pat|] == s[1..][i..i + |pat|];
      }
    } else if |s| >= |pat| {
      assert s[0..|pat|] == s[..|pat|];
    }
  }

  /** An occurrence at i with none before it is what IndexOf reports. */
  lemma IndexOfFirst<T>(s: seq<T>, pat: seq<T>, i: nat)
    requires OccursAt(s, pat, i)
    requires forall j :: 0 <= j < i ==> !OccursAt(s, pat, j)
    ensures IndexOf(s, pat) == Some(i)
  {
    IndexOfSpec(s, pat);
  }

  /** Python's `needle in haystack` on strings. */
  predicate Contains<T(==)>(haystack: seq<T>, needle: seq<T>) {
    IndexOf(haystack, needle).Some?
  }

  /** A pattern that occurs nowhere in s before k occurs nowhere in s[..k]. */
  lemma NoOccurrenceInPrefix<T>(s: seq<T>, pat: seq<T>, k: nat)
    requires k <= |s|
    requires forall j :: 0 <= j < k ==> !OccursAt(s, pat, j)
    requires pat != []
    ensures !Contains(s[..k], pat)
  {
    IndexOfSpec(s[..k], pat);
    if Contains(s[..k], pat) {
      var j := IndexOf(s[..k], pat).value;
      assert s[..k][j..j + |pat|] == s[j..j + |pat|];
      assert OccursAt(s, pat, j);
    }
  }

  // ---------------------------------------------------------------------
  // Python's `s.split(sep)`: the pieces between the occurrences of sep.

  function Split<T(==)>(s: seq<T>, sep: seq<T>): (parts: seq<seq<T>>)
    requires sep != []
    ensures |parts| >= 1
    decreases |s|
  {
    match IndexOf(s, sep)
    case None => [s]
    case Some(i) => [s[..i]] + Split(s[i + |sep|..], sep)
  }

  /** `sep.join(parts)`. */
  function Join<T>(parts: seq<seq<T>>, sep: seq<T>): seq<T>
    decreases |parts|
  {
    if parts == [] then []
    else if |parts| == 1 then parts[0]
    else parts[0] + sep + Join(parts[1..], sep)
  }

  /** One step of Split at the first occurrence of the separator. */
  lemma SplitStep<T>(s: seq<T>, sep: seq<T>, i: nat)
    requires sep != [] && IndexOf(s, sep) == Some(i)
    ensures Split(s, sep) == [s[..i]] + Split(s[i + |sep|..], sep)
    ensures s == s[..i] + sep + s[i + |sep|..]
  {
    IndexOfSpec(s, sep);
    assert s == s[..i] + s[i..i + |sep|] + s[i + |sep|..];
  }

  /** Joining the pieces with the separator gives back the split string. */
  lemma {:induction false} SplitJoin<T>(s: seq<T>, sep: seq<T>)
    requires sep != []
    ensures Join(Split(s, sep), sep) == s
    decreases |s|
  {
    var r := IndexOf(s, sep);
    if r.Some? {
      var i := r.value;
      var rest := s[i + |sep|..];
      var tail := Split(rest, sep);
      SplitJoin(rest, sep);
      SplitStep(s, sep, i);
      assert ([s[..i]] + tail)[1..] == tail;
    }
  }

  /** No piece of a split contains the separator. */
  lemma {:induction false} SplitPiecesFree<T>(s: seq<T>, sep: seq<T>)
    requires sep != []
    ensures forall k :: 0 <= k < |Split(s, sep)| ==> !Contains(Split(s, sep)[k], sep)
    decreases |s|
  {
    var r := IndexOf(s, sep);
    if r.Some? {
      var i := r.value;
      var rest := s[i + |sep|..];
      SplitPiecesFree(rest, sep);
      IndexOfSpec(s, sep);
      NoOccurrenceInPrefix(s, sep, i);
      SplitStep(s, sep, i);
    }
  }

  /**
   * The first piece of a split is the longest prefix without the separator:
   * it runs up to the first occurrence or to the end.
   */
  lemma SplitHead<T>(s: seq<T>, sep: seq<T>)
    requires sep != []
    ensures !Contains(Split(s, sep)[0], sep)
    ensures Split(s, sep)[0] <= s
    ensures |Split(s, sep)[0]| < |s| ==> OccursAt(s, sep, |Split(s, sep)[0]|)
  {
    var r := IndexOf(s, sep);
    if r.Some? {
      IndexOfSpec(s, sep);
      SplitStep(s, sep, r.value);
      NoOccurrenceInPrefix(s, sep, r.value);
    }
  }

  /** An occurrence right after a prefix of t[d..] is an occurrence in t. */
  lemma OccursAfter<T>(t: seq<T>, sep: seq<T>, d: nat, v: seq<T>)
    requires d <= |t| && v <= t[d..]
    requires |v| < |t[d..]| ==> OccursAt(t[d..], sep, |v|)
    ensures d + |v| < |t| ==> OccursAt(t, sep, d + |v|)
  {
    if d + |v| < |t| {
      var e := |v|;
      assert t[d + e..d + e + |sep|] == t[d..][e..e + |sep|];
    }
  }

  /** When the separator first occurs at k, the second piece is the first piece of the rest. */
  lemma SplitSecondIsHead<T>(t: seq<T>, sep: seq<T>, k: nat)
    requires sep != [] && IndexOf(t, sep) == Some(k)
    ensures |Split(t, sep)| >= 2 && Split(t, sep)[1] == Split(t[k + |sep|..], sep)[0]
  {
    SplitStep(t, sep, k);
  }

  /**
   * When the separator first occurs at k, the second piece starts right after
   * that occurrence and holds no separator ...
   */
  lemma SplitSecond<T>(t: seq<T>, sep: seq<T>, k: nat)
    requires sep != [] && IndexOf(t, sep) == Some(k)
    ensures |Split(t, sep)| >= 2
    ensures !Contains(Split(t, sep)[1], sep)
    ensures Split(t, sep)[1] <= t[k + |sep|..]
  {
    SplitSecondIsHead(t, sep, k);
    SplitHead(t[k + |sep|..], sep);
  }

  /** ... and it runs up to the next occurrence or to the end. */
  lemma SplitSecondEnd<T>(t: seq<T>, sep: seq<T>, k: nat)
    requires sep != [] && IndexOf(t, sep) == Some(k)
    ensures |Split(t, sep)| >= 2
    ensures k + |sep| + |Split(t, sep)[1]| < |t| ==> OccursAt(t, sep, k + |sep| + |Split(t, sep)[1]|)
  {
    SplitSecondIsHead(t, sep, k);
    SplitHead(t[k + |sep|..], sep);
    OccursAfter(t, sep, k + |sep|, Split(t, sep)[1]);
  }

  /** A string without the separator splits into itself alone. */
  lemma SplitFree<T>(s: seq<T>, sep: seq<T>)
    requires sep != [] && !Contains(s, sep)
    ensures Split(s, sep) == [s]
  {
  }

  /**
   * With a one-element separator, the first one in `a + sep + b` is the
   * first one of a, or the added one when a has none.
   */
  lemma FirstSepInSnoc<T>(a: seq<T>, sep: seq<T>, b: seq<T>)
    requires |sep| == 1
    ensures IndexOf(a + sep + b, sep) == Some(if Contains(a, sep) then IndexOf(a, sep).value else |a|)
  {
    var s := a + sep + b;
    IndexOfSpec(a, sep);
    var i := if Contains(a, sep) then IndexOf(a, sep).value else |a|;
    forall j | 0 <= j < i ensures !OccursAt(s, sep, j) {
      assert s[j..j + 1] == a[j..j + 1];
      assert !OccursAt(a, sep, j);
    }
    assert s[i..i + 1] == if Contains(a, sep) then a[i..i + 1] else sep;
    IndexOfFirst(s, sep, i);
  }

  /**
   * With a one-element separator, splitting `a + sep + b` where b holds no
   * separator yields the pieces of a followed by b.
   */
  lemma {:induction false} SplitSnoc<T>(a: seq<T>, sep: seq<T>, b: seq<T>)
    requires |sep| == 1 && !Contains(b, sep)
    ensures Split(a + sep + b, sep) == Split(a, sep) + [b]
    decreases |a|
  {
    var s := a + sep + b;
    FirstSepInSnoc(a, sep, b);
    if !Contains(a, sep) {
      SplitStep(s, sep, |a|);
      assert s[..|a|] == a;
      assert s[|a| + 1..] == b;
    } else {
      var i := IndexOf(a, sep).value;
      var a' := a[i + 1..];
      assert s[..i] == a[..i] && s[i + 1..] == a' + sep + b;
      calc {
        Split(s, sep);
        { SplitStep(s, sep, i); }
        [a[..i]] + Split(a' + sep + b, sep);
        { SplitSnoc(a', sep, b); }
        [a[..i]] + (Split(a', sep) + [b]);
        ([a[..i]] + Split(a', sep)) + [b];
        { SplitStep(a, sep, i); }
        Split(a, sep) + [b];
      }
    }
  }

  /** Joining one more piece appends the separator and the piece. */
  lemma {:induction false} JoinSnoc<T>(parts: seq<seq<T>>, sep: seq<T>, x: seq<T>)
    requires parts != []
    ensures Join(parts + [x], sep) == Join(parts, sep) + sep + x
    decreases |parts|
  {
    if |parts| > 1 {
      JoinSnoc(parts[1..], sep, x);
      assert (parts + [x])[1..] == parts[1..] + [x];
    }
  }

  /** A sequence holds an occurrence of [x] exactly when it holds x. */
  lemma ContainsSingle<T>(s: seq<T>, x: T)
    ensures Contains(s, [x]) <==> x in s
  {
    forall j | 0 <= j && j + 1 <= |s| ensures OccursAt(s, [x], j) <==> s[j] == x {
      assert s[j..j + 1] == [s[j]];
    }
    IndexOfSpec(s, [x]);
    if x in s {
      var j :| 0 <= j < |s| && s[j] == x;
      assert OccursAt(s, [x], j);
    }
  }

  /**
   * With a one-element separator, splitting the join of pieces that hold no
   * separator gives back the pieces.
   */
  lemma {:induction false} JoinSplit<T>(parts: seq<seq<T>>, sep: seq<T>)
    requires |sep| == 1 && parts != []
    requires forall k :: 0 <= k < |parts| ==> !Contains(parts[k], sep)
    ensures Split(Join(parts, sep), sep) == parts
    decreases |parts|
  {
    var n := |parts|;
    if n == 1 {
      SplitFree(parts[0], sep);
    } else {
      var init := parts[..n - 1];
      assert parts == init + [parts[n - 1]];
      JoinSnoc(init, sep, parts[n - 1]);
      JoinSplit(init, sep);
      SplitSnoc(Join(init, sep), sep, parts[n - 1]);
    }
  }

  // ---------------------------------------------------------------------
  // Python's `strip`, `lstrip`, `rstrip`: remove the leading and/or trailing
  // elements that `drop` accepts.

  function TrimStart<T>(s: seq<T>, drop: T -> bool): (r: seq<T>)
    ensures |r| <= |s| && r == s[|s| - |r|..]
    ensures r != [] ==> !drop(r[0])
    ensures forall i :: 0 <= i < |s| - |r| ==> drop(s[i])
    decreases |s|
  {
    if s != [] && drop(s[0]) then TrimStart(s[1..], drop) else s
  }

  function TrimEnd<T>(s: seq<T>, drop: T -> bool): (r: seq<T>)
    ensures |r| <= |s| && r == s[..|r|]
    ensures r != [] ==> !drop(r[|r| - 1])
    ensures forall i :: |r| <= i < |s| ==> drop(s[i])
    decreases |s|
  {
    if s != [] && drop(s[|s| - 1]) then TrimEnd(s[..|s| - 1], drop) else s
  }

  function Trim<T>(s: seq<T>, drop: T -> bool): seq<T> {
    TrimEnd(TrimStart(s, drop), drop)
  }

  /**
   * Stripping a sequence that starts and ends with kept elements, padded at
   * the end with one dropped element, removes exactly the padding.
   */
  lemma TrimPadded<T>(s: seq<T>, x: T, drop: T -> bool)
    requires s != [] && !drop(s[0]) && !drop(s[|s| - 1]) && drop(x)
    ensures Trim(s + [x], drop) == s
  {
    var p := s + [x];
    assert !drop(p[0]);
    assert TrimStart(p, drop) == p;
    assert !drop(p[|s| - 1]) && drop(p[|s|]);
  }
}
