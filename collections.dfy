// Sequence and set facts shared by the graph, cache and executor models,
// and the arbitrary enumeration that stands for hash-map iteration order.

module Collections {

  /** The set of elements of a sequence. */
  function Elems<T>(s: seq<T>): set<T>
  {
    set x | x in s
  }

  /** No element occurs twice. */
  ghost predicate Distinct<T>(s: seq<T>)
  {
    forall i, j :: 0 <= i < j < |s| ==> s[i] != s[j]
  }

  lemma SubsetCard<T>(a: set<T>, b: set<T>)
    requires a <= b
    ensures |a| <= |b|
    ensures a < b ==> |a| < |b|
  {
    assert b == a + (b - a);
  }

  /** A sequence has at least as many positions as distinct elements, and
      exactly as many when it has no duplicates. */
  lemma {:induction false} ElemsCard<T>(s: seq<T>)
    ensures |Elems(s)| <= |s|
    ensures |Elems(s)| == |s| <==> Distinct(s)
  {
    if s != [] {
      var t := s[1..];
      ElemsCard(t);
      assert Elems(s) == {s[0]} + Elems(t);
      if s[0] in t {
        assert Elems(s) == Elems(t);
        var j :| 0 <= j < |t| && t[j] == s[0];
        assert s[0] == s[j + 1];
      } else {
        assert |Elems(s)| == |Elems(t)| + 1;
        if Distinct(t) {
          forall i, j | 0 <= i < j < |s| ensures s[i] != s[j] {
            if i > 0 { assert s[i] == t[i - 1] && s[j] == t[j - 1]; }
            else { assert s[j] == t[j - 1]; }
          }
        }
        if Distinct(s) {
          forall i, j | 0 <= i < j < |t| ensures t[i] != t[j] {
            assert t[i] == s[i + 1] && t[j] == s[j + 1];
          }
        }
      }
    }
  }

  lemma DistinctAppend<T>(s: seq<T>, x: T)
    requires Distinct(s) && x !in s
    ensures Distinct(s + [x])
  {
  }

  lemma DistinctSplit<T>(a: seq<T>, b: seq<T>)
    requires Distinct(a + b)
    ensures Distinct(a) && Distinct(b)
    ensures forall x :: x in a ==> x !in b
  {
    forall i, j | 0 <= i < j < |a| ensures a[i] != a[j] {
      assert (a + b)[i] == a[i] && (a + b)[j] == a[j];
    }
    forall i, j | 0 <= i < j < |b| ensures b[i] != b[j] {
      assert (a + b)[|a| + i] == b[i] && (a + b)[|a| + j] == b[j];
    }
    forall x | x in a ensures x !in b {
      var i :| 0 <= i < |a| && a[i] == x;
      forall j | 0 <= j < |b| ensures b[j] != x {
        assert (a + b)[i] == a[i] && (a + b)[|a| + j] == b[j];
      }
    }
  }

  /** Growing a prefix by one position adds that element. */
  lemma ElemsPrefix<T>(s: seq<T>, j: nat)
    requires j < |s|
    ensures Elems(s[..j + 1]) == Elems(s[..j]) + {s[j]}
    ensures Distinct(s) ==> s[j] !in s[..j]
  {
    assert s[..j + 1] == s[..j] + [s[j]];
  }

  lemma ElemsAppend<T>(s: seq<T>, x: T)
    ensures Elems(s + [x]) == Elems(s) + {x}
  {
  }

  lemma HeadTail<T>(s: seq<T>)
    requires s != []
    ensures s == [s[0]] + s[1..]
  {
  }

  lemma ElemsWhole<T>(s: seq<T>)
    ensures Elems(s[..|s|]) == Elems(s)
  {
    assert s[..|s|] == s;
  }

  /** Number of positions of `s` whose element is in `x` (duplicates count
      once per position). */
  function CountIn<T>(s: seq<T>, x: set<T>): (n: nat)
    ensures n <= |s|
  {
    if s == [] then 0
    else (if s[0] in x then 1 else 0) + CountIn(s[1..], x)
  }

  /** Every position is counted exactly when every element is in `x`. */
  lemma {:induction false} CountInAll<T>(s: seq<T>, x: set<T>)
    ensures CountIn(s, x) == |s| <==> Elems(s) <= x
  {
    if s != [] {
      CountInAll(s[1..], x);
      assert Elems(s) == {s[0]} + Elems(s[1..]);
    }
  }

  /** The first position of `x` in `s`. */
  function IndexOf<T(==)>(s: seq<T>, x: T): (i: nat)
    requires x in s
    ensures i < |s| && s[i] == x
    ensures forall j :: 0 <= j < i ==> s[j] != x
  {
    if s[0] == x then 0 else 1 + IndexOf(s[1..], x)
  }

  /** The concatenation of a sequence of sequences. */
  function Flatten<T>(ss: seq<seq<T>>): seq<T>
  {
    if ss == [] then [] else Flatten(ss[..|ss| - 1]) + ss[|ss| - 1]
  }

  lemma FlattenSnoc<T>(ss: seq<seq<T>>, x: seq<T>)
    ensures Flatten(ss + [x]) == Flatten(ss) + x
  {
    assert (ss + [x])[..|ss|] == ss;
  }

  lemma {:induction false} FlattenElems<T>(ss: seq<seq<T>>, x: T)
    ensures x in Flatten(ss) <==> exists k :: 0 <= k < |ss| && x in ss[k]
  {
    if ss != [] {
      var init := ss[..|ss| - 1];
      FlattenElems(init, x);
      if x in Flatten(ss) && x !in ss[|ss| - 1] {
        var k :| 0 <= k < |init| && x in init[k];
        assert ss[k] == init[k];
      }
      if x !in Flatten(ss) {
        forall k | 0 <= k < |ss| ensures x !in ss[k] {
          if k < |ss| - 1 { assert ss[k] == init[k]; }
        }
      }
    }
  }

  /** An arbitrary listing of a finite set of names, each exactly once: the
      order in which a hash map hands out its keys. Nothing else is known
      about the order. */
  method EnumerateKeys(s: set<string>) returns (r: seq<string>)
    ensures Elems(r) == s && Distinct(r) && |r| == |s|
  {
    r := [];
    var rest := s;
    while rest != {}
      invariant Elems(r) + rest == s && Elems(r) !! rest
      invariant Distinct(r)
      decreases rest
    {
      var x :| x in rest;
      DistinctAppend(r, x);
      ElemsAppend(r, x);
      r := r + [x];
      rest := rest - {x};
    }
    ElemsCard(r);
  }
}
