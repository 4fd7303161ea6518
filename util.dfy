/**
 * Small shared vocabulary: an optional value (Python's None / JavaScript's null),
 * sequences without repeats, and substring search on strings.
 */
module Util {

  datatype Option<T> = None | Some(value: T)

  /** No element occurs twice. */
  predicate Distinct<T(==)>(s: seq<T>) {
    forall i, j :: 0 <= i < j < |s| ==> s[i] != s[j]
  }

  /** In a sequence without repeats an element determines its position. */
  lemma DistinctIndex<T>(s: seq<T>, i: int, j: int)
    requires Distinct(s) && 0 <= i < |s| && 0 <= j < |s| && s[i] == s[j]
    ensures i == j
  {
  }

  function Elements<T(==)>(s: seq<T>): set<T> {
    set x | x in s
  }

  /** A sequence without repeats has as many elements as its set. */
  lemma {:induction false} DistinctCard<T>(s: seq<T>)
    requires Distinct(s)
    ensures |Elements(s)| == |s|
  {
    if |s| > 0 {
      var init := s[..|s| - 1];
      assert Distinct(init);
      DistinctCard(init);
      assert Elements(s) == Elements(init) + {s[|s| - 1]};
      assert s[|s| - 1] !in Elements(init);
    }
  }

  /** Two enumerations without repeats of the same set have the same length. */
  lemma SameElementsSameLength<T>(s: seq<T>, t: seq<T>)
    requires Distinct(s) && Distinct(t) && Elements(s) == Elements(t)
    ensures |s| == |t|
  {
    DistinctCard(s);
    DistinctCard(t);
  }

  /** In a sequence without repeats every element occurs exactly once. */
  lemma {:induction false} DistinctMultiplicity<T>(s: seq<T>, x: T)
    requires Distinct(s)
    ensures multiset(s)[x] == if x in s then 1 else 0
  {
    if |s| > 0 {
      var init := s[..|s| - 1];
      assert s == init + [s[|s| - 1]];
      assert Distinct(init);
      DistinctMultiplicity(init, x);
      assert s[|s| - 1] !in init;
    }
  }

  /** An element found at two positions occurs at least twice. */
  lemma RepeatMultiplicity<T>(s: seq<T>, i: int, j: int)
    requires 0 <= i < j < |s| && s[i] == s[j]
    ensures multiset(s)[s[i]] >= 2
  {
    assert s == s[..j] + [s[j]] + s[j + 1..];
    assert s[i] in s[..j];
  }

  /** A rearrangement of a sequence without repeats has no repeats either. */
  lemma DistinctPermutation<T>(s: seq<T>, t: seq<T>)
    requires Distinct(s) && multiset(s) == multiset(t)
    ensures Distinct(t)
  {
    forall i, j | 0 <= i < j < |t|
      ensures t[i] != t[j]
    {
      DistinctMultiplicity(s, t[i]);
      if t[i] == t[j] {
        RepeatMultiplicity(t, i, j);
      }
    }
  }

  /** Two sequences without repeats are rearrangements of each other exactly when they have the same elements. */
  lemma DistinctSameElements<T>(s: seq<T>, t: seq<T>)
    requires Distinct(s) && Distinct(t)
    ensures multiset(s) == multiset(t) <==> Elements(s) == Elements(t)
  {
    if Elements(s) == Elements(t) {
      forall x
        ensures multiset(s)[x] == multiset(t)[x]
      {
        assert x in s <==> x in Elements(t);
        DistinctMultiplicity(s, x);
        DistinctMultiplicity(t, x);
      }
    }
    if multiset(s) == multiset(t) {
      forall x
        ensures x in s <==> x in t
      {
        assert x in s <==> x in multiset(s);
        assert x in t <==> x in multiset(t);
      }
    }
  }

  /** Against a sequence without repeats, being a rearrangement means having no repeats and the same elements. */
  lemma PermutationOfDistinct<T>(s: seq<T>, t: seq<T>)
    requires Distinct(t)
    ensures multiset(s) == multiset(t) <==> Distinct(s) && Elements(s) == Elements(t)
  {
    if multiset(s) == multiset(t) {
      DistinctPermutation(t, s);
    }
    if Distinct(s) {
      DistinctSameElements(s, t);
    }
  }

  /** `t` occurs in `s` starting at index i. */
  predicate OccursAt(t: string, s: string, i: int) {
    0 <= i && i + |t| <= |s| && s[i..i + |t|] == t
  }

  /** JavaScript `s.includes(t)` / Python `t in s` for strings. */
  predicate Contains(s: string, t: string) {
    exists i :: 0 <= i <= |s| - |t| && OccursAt(t, s, i)
  }

  /** `s` contains `t` exactly when `s` is some text, then `t`, then some more text. */
  lemma ContainsSplit(s: string, t: string)
    ensures Contains(s, t) <==> exists a, c :: s == a + t + c
  {
    if Contains(s, t) {
      var i :| 0 <= i <= |s| - |t| && OccursAt(t, s, i);
      assert s == s[..i] + t + s[i + |t|..];
    }
    if exists a, c :: s == a + t + c {
      var a, c :| s == a + t + c;
      assert s[|a|..|a| + |t|] == t;
      assert OccursAt(t, s, |a|);
    }
  }

  /** A string contains every string appended to it and the string it extends. */
  lemma ContainsConcat(a: string, t: string, b: string)
    ensures Contains(a + t + b, t)
  {
    assert OccursAt(t, a + t + b, |a|) by {
      assert (a + t + b)[|a|..|a| + |t|] == t;
    }
  }

  lemma ContainsSuffix(a: string, t: string)
    ensures Contains(a + t, t)
  {
    assert OccursAt(t, a + t, |a|) by {
      assert (a + t)[|a|..|a| + |t|] == t;
    }
  }

  lemma ContainsPrefix(s: string, t: string, b: string)
    requires Contains(s, t)
    ensures Contains(s + b, t)
  {
    var i :| 0 <= i <= |s| - |t| && OccursAt(t, s, i);
    assert (s + b)[i..i + |t|] == s[i..i + |t|];
    assert OccursAt(t, s + b, i);
  }
}
