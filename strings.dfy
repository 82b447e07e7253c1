// String operations of the Rust standard library that the build tool relies
// on, stated over `seq<char>`, and the ordering `Ord for String` uses.

module Strings {
  import opened Errors
  import opened Collections

  /** `s.trim_end_matches(c)` for a single character: every trailing `c`
      removed. */
  function TrimEnd(s: string, c: char): (r: string)
    ensures |r| <= |s| && r == s[..|r|]
    ensures r == [] || r[|r| - 1] != c
    ensures forall i :: |r| <= i < |s| ==> s[i] == c
  {
    if s == [] || s[|s| - 1] != c then s else TrimEnd(s[..|s| - 1], c)
  }

  /** Trimming twice trims nothing more. */
  lemma TrimEndIdempotent(s: string, c: char)
    ensures TrimEnd(TrimEnd(s, c), c) == TrimEnd(s, c)
  {
  }

  /** Appending the trimmed character does not change the trimmed string. */
  lemma {:induction false} TrimEndAppend(s: string, c: char)
    ensures TrimEnd(s + [c], c) == TrimEnd(s, c)
  {
    assert (s + [c])[..|s|] == s;
  }

  /** The last position of `c` in `s`, if any. */
  function LastIndexOf(s: string, c: char): (r: Option<nat>)
    ensures r.None? <==> c !in s
    ensures r.Some? ==> r.value < |s| && s[r.value] == c && c !in s[r.value + 1..]
  {
    if s == [] then None
    else if s[|s| - 1] == c then Some(|s| - 1)
    else
      var r := LastIndexOf(s[..|s| - 1], c);
      assert s == s[..|s| - 1] + [s[|s| - 1]];
      if r.Some? then
        assert s[r.value + 1..] == s[..|s| - 1][r.value + 1..] + [s[|s| - 1]];
        r
      else r
  }

  /** The last `c` of `a + [c] + b` is the one after `a` when `b` has none. */
  lemma LastIndexOfAt(a: string, c: char, b: string)
    requires c !in b
    ensures LastIndexOf(a + [c] + b, c) == Some(|a|)
  {
    var s := a + [c] + b;
    assert s[|a|] == c;
  }

  /** The first position of `c` in `s`, if any (`s.find(c)`). */
  function FindChar(s: string, c: char): (r: Option<nat>)
    ensures r.None? <==> c !in s
    ensures r.Some? ==> r.value < |s| && s[r.value] == c && c !in s[..r.value]
  {
    if s == [] then None
    else if s[0] == c then Some(0)
    else
      var r := FindChar(s[1..], c);
      if r.Some? then
        assert s[..r.value + 1] == [s[0]] + s[1..][..r.value];
        Some(r.value + 1)
      else None
  }

  /** `pat` occurs in `s` starting at position `i`. */
  predicate OccursAt(s: string, pat: string, i: nat)
  {
    i + |pat| <= |s| && s[i..i + |pat|] == pat
  }

  lemma OccursAtTail(s: string, pat: string, j: nat)
    requires s != []
    ensures OccursAt(s, pat, j + 1) <==> OccursAt(s[1..], pat, j)
  {
    if j + 1 + |pat| <= |s| {
      assert s[1..][j..j + |pat|] == s[j + 1..j + 1 + |pat|];
    }
  }

  /** `s.find(pat)`: the first position where `pat` occurs. */
  function FindSub(s: string, pat: string): (r: Option<nat>)
    ensures r.Some? ==> OccursAt(s, pat, r.value)
    ensures r.Some? ==> forall j :: 0 <= j < r.value ==> !OccursAt(s, pat, j)
    ensures r.None? ==> forall j :: 0 <= j ==> !OccursAt(s, pat, j)
    decreases |s|
  {
    if |pat| <= |s| && s[..|pat|] == pat then Some(0)
    else if s == [] then None
    else
      var r := FindSub(s[1..], pat);
      if r.None? then
        forall j: nat | j > 0 ensures !OccursAt(s, pat, j) {
          OccursAtTail(s, pat, j - 1);
        }
        None
      else
        forall j: nat | 0 < j < r.value + 1 ensures !OccursAt(s, pat, j) {
          OccursAtTail(s, pat, j - 1);
        }
        OccursAtTail(s, pat, r.value);
        Some(r.value + 1)
  }

  /** `s.contains(pat)`. */
  predicate Contains(s: string, pat: string)
  {
    FindSub(s, pat).Some?
  }

  /** A string contains every piece it is glued from. */
  lemma ContainsMiddle(a: string, pat: string, b: string)
    ensures Contains(a + pat + b, pat)
  {
    var s := a + pat + b;
    assert s[|a|..|a| + |pat|] == pat;
    assert OccursAt(s, pat, |a|);
  }

  /** `s.lines()`: the pieces between '\n's, a '\r' right before a '\n'
      dropped, and no empty piece after a final '\n'. */
  function Lines(s: string): (r: seq<string>)
    ensures forall k :: 0 <= k < |r| ==> '\n' !in r[k]
    ensures s == [] <==> r == []
    decreases |s|
  {
    if s == [] then []
    else match FindChar(s, '\n')
    case None => [s]
    case Some(i) =>
      var line := if i > 0 && s[i - 1] == '\r' then s[..i - 1] else s[..i];
      assert '\n' !in line by {
        assert line == s[..i][..|line|];
      }
      [line] + Lines(s[i + 1..])
  }

  /** `s.split(c)`: the pieces between occurrences of `c`, empty pieces
      kept, so there is always one more piece than there are `c`s. */
  function Split(s: string, c: char): (r: seq<string>)
    ensures |r| >= 1
    ensures forall k :: 0 <= k < |r| ==> c !in r[k]
    ensures Join(r, c) == s
    decreases |s|
  {
    match FindChar(s, c)
    case None => [s]
    case Some(i) =>
      var rest := Split(s[i + 1..], c);
      assert s == s[..i] + [c] + s[i + 1..];
      [s[..i]] + rest
  }

  /** The pieces glued back together with `c` between neighbours. */
  function Join(parts: seq<string>, c: char): string
    requires |parts| >= 1
  {
    if |parts| == 1 then parts[0] else parts[0] + [c] + Join(parts[1..], c)
  }

  /** Splitting undoes joining pieces that do not contain the separator. */
  lemma {:induction false} SplitJoin(parts: seq<string>, c: char)
    requires |parts| >= 1
    requires forall k :: 0 <= k < |parts| ==> c !in parts[k]
    ensures Split(Join(parts, c), c) == parts
  {
    if |parts| > 1 {
      var s := Join(parts, c);
      var n := |parts[0]|;
      assert s[..n] == parts[0] && s[n] == c;
      assert FindChar(s, c) == Some(n);
      assert s[n + 1..] == Join(parts[1..], c);
      SplitJoin(parts[1..], c);
    } else {
      assert c !in parts[0];
    }
  }

  /** `s.replace(a, b)` for single characters: every `a` becomes `b`. */
  function ReplaceChar(s: string, a: char, b: char): (r: string)
    ensures |r| == |s|
    ensures forall i :: 0 <= i < |s| ==> r[i] == (if s[i] == a then b else s[i])
  {
    if s == [] then [] else [if s[0] == a then b else s[0]] + ReplaceChar(s[1..], a, b)
  }

  // ---------------------------------------------------------------------
  // Lexicographic order, as `Ord for String` compares UTF-8 bytes: for
  // well-formed text that is the order of the code points.

  predicate LexLess(a: string, b: string)
  {
    if a == [] then b != []
    else b != [] && (a[0] < b[0] || (a[0] == b[0] && LexLess(a[1..], b[1..])))
  }

  lemma {:induction false} LexIrreflexive(a: string)
    ensures !LexLess(a, a)
  {
    if a != [] { LexIrreflexive(a[1..]); }
  }

  lemma {:induction false} LexTransitive(a: string, b: string, c: string)
    requires LexLess(a, b) && LexLess(b, c)
    ensures LexLess(a, c)
  {
    if a != [] && a[0] == b[0] && b[0] == c[0] {
      LexTransitive(a[1..], b[1..], c[1..]);
    }
  }

  lemma {:induction false} LexTotal(a: string, b: string)
    ensures a == b || LexLess(a, b) || LexLess(b, a)
  {
    if a != [] && b != [] && a[0] == b[0] {
      LexTotal(a[1..], b[1..]);
      if a[1..] == b[1..] {
        assert a == [a[0]] + a[1..] && b == [b[0]] + b[1..];
      }
    }
  }

  /** Every two positions are in strictly increasing order. */
  ghost predicate StrictlySorted(s: seq<string>)
  {
    forall i, j :: 0 <= i < j < |s| ==> LexLess(s[i], s[j])
  }

  /** `x` placed into a strictly sorted sequence at its position. */
  function Insert(s: seq<string>, x: string): (r: seq<string>)
    requires StrictlySorted(s) && x !in s
    ensures StrictlySorted(r) && Elems(r) == Elems(s) + {x} && |r| == |s| + 1
  {
    if s == [] then [x]
    else
      LexTotal(x, s[0]);
      if LexLess(x, s[0]) then
        forall j | 0 <= j < |s| ensures LexLess(x, s[j]) {
          if j > 0 { LexTransitive(x, s[0], s[j]); }
        }
        assert Elems([x] + s) == {x} + Elems(s);
        [x] + s
      else
        var t := Insert(s[1..], x);
        assert Elems(s) == {s[0]} + Elems(s[1..]);
        assert Elems([s[0]] + t) == {s[0]} + Elems(t);
        forall k | 0 <= k < |t| ensures LexLess(s[0], t[k]) {
          assert t[k] in Elems(t);
        }
        [s[0]] + t
  }

  /** The sort of a list of distinct strings (`sort()` on the key list). */
  function Sort(s: seq<string>): (r: seq<string>)
    requires Distinct(s)
    ensures StrictlySorted(r) && Elems(r) == Elems(s) && |r| == |s|
  {
    if s == [] then []
    else
      var init := s[..|s| - 1];
      assert s == init + [s[|s| - 1]];
      DistinctSplit(init, [s[|s| - 1]]);
      assert s[|s| - 1] !in Elems(init);
      Insert(Sort(init), s[|s| - 1])
  }

  /** The tail of a strictly sorted sequence is strictly sorted and holds
      every element but the head. */
  lemma SortedTail(a: seq<string>)
    requires StrictlySorted(a) && a != []
    ensures StrictlySorted(a[1..]) && Elems(a[1..]) == Elems(a) - {a[0]}
  {
    assert a == [a[0]] + a[1..];
    assert a[0] !in a[1..] by { LexIrreflexive(a[0]); }
  }

  /** Two strictly sorted sequences with the same elements start alike. */
  lemma SortedSameHead(a: seq<string>, b: seq<string>)
    requires StrictlySorted(a) && StrictlySorted(b) && Elems(a) == Elems(b) && a != []
    ensures b != [] && a[0] == b[0]
  {
    assert a[0] in Elems(b);
    assert b[0] in Elems(a);
    if a[0] != b[0] {
      var i :| 0 <= i < |a| && a[i] == b[0];
      var j :| 0 <= j < |b| && b[j] == a[0];
      LexTransitive(a[0], b[0], a[0]);
      LexIrreflexive(a[0]);
    }
  }

  /** Two strictly sorted sequences with the same elements are equal: the
      result of sorting does not depend on the order of the input. */
  lemma {:induction false} SortedUnique(a: seq<string>, b: seq<string>)
    requires StrictlySorted(a) && StrictlySorted(b) && Elems(a) == Elems(b)
    ensures a == b
    decreases |a|
  {
    assert b != [] ==> b[0] in Elems(b);
    if a != [] {
      SortedSameHead(a, b);
      SortedTail(a);
      SortedTail(b);
      SortedUnique(a[1..], b[1..]);
      assert a == [a[0]] + a[1..] && b == [b[0]] + b[1..];
    }
  }

  /** A finite set of strings listed in ascending order. */
  ghost function SortedKeys(s: set<string>): (r: seq<string>)
    ensures StrictlySorted(r) && Elems(r) == s
    decreases s
  {
    if s == {} then []
    else
      var x := Least(s);
      var rest := SortedKeys(s - {x});
      assert Elems([x] + rest) == {x} + Elems(rest);
      [x] + rest
  }

  /** The least element of a non-empty finite set of strings. */
  ghost function Least(s: set<string>): (x: string)
    requires s != {}
    ensures x in s && forall y :: y in s && y != x ==> LexLess(x, y)
    decreases s
  {
    var y :| y in s;
    if s == {y} then y
    else
      var m := Least(s - {y});
      LexTotal(m, y);
      if LexLess(y, m) then
        forall z | z in s && z != y ensures LexLess(y, z) {
          if z != m { LexTransitive(y, m, z); }
        }
        y
      else m
  }
}
