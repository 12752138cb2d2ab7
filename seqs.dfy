/** Order-preserving selection from a sequence: `Array.prototype.filter` and
    the subsequence relation that describes its result. */
module Sequences {

  /** `b` can be obtained from `a` by deleting elements, in order. */
  predicate IsSubsequence<T(==)>(b: seq<T>, a: seq<T>)
    decreases |a|
  {
    b == [] || (a != [] && ((b[0] == a[0] && IsSubsequence(b[1..], a[1..])) || IsSubsequence(b, a[1..])))
  }

  /** Every sequence is a subsequence of itself. */
  lemma {:induction false} SubsequenceReflexive<T>(a: seq<T>)
    ensures IsSubsequence(a, a)
  {
    if a != [] {
      SubsequenceReflexive(a[1..]);
    }
  }

  /** `s.filter(keep)`: the elements that pass; FilterMultiset adds that
      they keep their multiplicities and FilterSubsequence that they keep
      their order. */
  function Filter<T(!new, ==)>(keep: T -> bool, s: seq<T>): (r: seq<T>)
    ensures forall k :: 0 <= k < |r| ==> keep(r[k])
  {
    if s == [] then []
    else
      var rest := Filter(keep, s[1..]);
      assert s == [s[0]] + s[1..];
      if keep(s[0]) then [s[0]] + rest else rest
  }

  /** Every element that passes the filter occurs in the result as often as
      in the input, and no other element occurs. */
  lemma {:induction false} FilterMultiset<T(!new)>(keep: T -> bool, s: seq<T>)
    ensures forall x :: multiset(Filter(keep, s))[x] == if keep(x) then multiset(s)[x] else 0
  {
    if s != [] {
      var rest := Filter(keep, s[1..]);
      FilterMultiset(keep, s[1..]);
      assert s == [s[0]] + s[1..];
      assert multiset(s) == multiset{s[0]} + multiset(s[1..]);
      if keep(s[0]) {
        assert multiset(Filter(keep, s)) == multiset{s[0]} + multiset(rest);
      }
    }
  }

  /** The elements that pass the filter keep their original order. */
  lemma {:induction false} FilterSubsequence<T(!new)>(keep: T -> bool, s: seq<T>)
    ensures IsSubsequence(Filter(keep, s), s)
  {
    if s != [] {
      var rest := Filter(keep, s[1..]);
      FilterSubsequence(keep, s[1..]);
      if keep(s[0]) {
        assert ([s[0]] + rest)[1..] == rest;
      }
    }
  }

  /** Every element that passes the filter is kept. */
  lemma FilterKeeps<T(!new)>(keep: T -> bool, s: seq<T>, k: nat)
    requires k < |s| && keep(s[k])
    ensures s[k] in Filter(keep, s)
  {
    FilterMultiset(keep, s);
    assert multiset(Filter(keep, s))[s[k]] > 0;
  }

  /** What a filter selects, all together: an ordered selection that holds
      every passing element, each as often as the input does. */
  lemma FilterSelects<T(!new)>(keep: T -> bool, s: seq<T>)
    ensures IsSubsequence(Filter(keep, s), s)
    ensures forall k :: 0 <= k < |s| && keep(s[k]) ==> s[k] in Filter(keep, s)
    ensures forall x :: multiset(Filter(keep, s))[x] == if keep(x) then multiset(s)[x] else 0
  {
    FilterSubsequence(keep, s);
    FilterMultiset(keep, s);
    assert forall k :: 0 <= k < |s| && keep(s[k]) ==> multiset(Filter(keep, s))[s[k]] > 0;
  }

  /** Two tests that agree on every element of `s` filter it alike. */
  lemma {:induction false} FilterSameTest<T(!new)>(f: T -> bool, g: T -> bool, s: seq<T>)
    requires forall k :: 0 <= k < |s| ==> f(s[k]) == g(s[k])
    ensures Filter(f, s) == Filter(g, s)
  {
    if s != [] {
      assert forall k :: 0 <= k < |s[1..]| ==> s[1..][k] == s[k + 1];
      FilterSameTest(f, g, s[1..]);
    }
  }

  /** Filtering twice by the same test is filtering once. */
  lemma {:induction false} FilterIdempotent<T(!new)>(keep: T -> bool, s: seq<T>)
    ensures Filter(keep, Filter(keep, s)) == Filter(keep, s)
  {
    if s != [] {
      FilterIdempotent(keep, s[1..]);
      if keep(s[0]) {
        assert ([s[0]] + Filter(keep, s[1..]))[1..] == Filter(keep, s[1..]);
      }
    }
  }

  /** Two filters can be applied in either order. */
  lemma {:induction false} FilterCommute<T(!new)>(f: T -> bool, g: T -> bool, s: seq<T>)
    ensures Filter(f, Filter(g, s)) == Filter(g, Filter(f, s))
  {
    if s != [] {
      FilterCommute(f, g, s[1..]);
      var x := s[0];
      var fs := Filter(f, s[1..]);
      var gs := Filter(g, s[1..]);
      if g(x) { assert ([x] + gs)[1..] == gs; }
      if f(x) { assert ([x] + fs)[1..] == fs; }
      if f(x) && g(x) {
        assert ([x] + Filter(f, gs))[1..] == Filter(f, gs);
        assert ([x] + Filter(g, fs))[1..] == Filter(g, fs);
      }
    }
  }

  /** A filter that keeps everything changes nothing. */
  lemma {:induction false} FilterAll<T(!new)>(keep: T -> bool, s: seq<T>)
    requires forall k :: 0 <= k < |s| ==> keep(s[k])
    ensures Filter(keep, s) == s
  {
    if s != [] {
      FilterAll(keep, s[1..]);
      assert s == [s[0]] + s[1..];
    }
  }

  /** Filtering a concatenation filters each part. */
  lemma {:induction false} FilterAppend<T(!new)>(keep: T -> bool, a: seq<T>, b: seq<T>)
    ensures Filter(keep, a + b) == Filter(keep, a) + Filter(keep, b)
  {
    if a == [] {
      assert a + b == b;
    } else {
      assert (a + b)[0] == a[0] && (a + b)[1..] == a[1..] + b;
      FilterAppend(keep, a[1..], b);
    }
  }

  /** An element the filter rejects leaves no trace wherever it stands. */
  lemma FilterSkips<T(!new)>(keep: T -> bool, a: seq<T>, x: T, b: seq<T>)
    requires !keep(x)
    ensures Filter(keep, a + [x] + b) == Filter(keep, a + b)
  {
    assert [x][1..] == [];
    assert Filter(keep, [x]) == [];
    FilterAppend(keep, a, [x]);
    var fa := Filter(keep, a);
    assert Filter(keep, a + [x]) == fa + [] == fa;
    FilterAppend(keep, a + [x], b);
    FilterAppend(keep, a, b);
  }

  /** The head and the tail of a sequence built by prepending an element. */
  lemma ConsParts<T>(x: T, s: seq<T>)
    ensures ([x] + s)[0] == x && ([x] + s)[1..] == s
  {
  }

  /** Every element of a subsequence is an element of the sequence. */
  lemma {:induction false} SubsequenceMembers<T>(b: seq<T>, a: seq<T>)
    requires IsSubsequence(b, a)
    ensures forall x :: x in b ==> x in a
    decreases |a|
  {
    if b != [] {
      assert a == [a[0]] + a[1..];
      if IsSubsequence(b, a[1..]) {
        SubsequenceMembers(b, a[1..]);
      } else {
        SubsequenceMembers(b[1..], a[1..]);
        assert b == [b[0]] + b[1..];
      }
    }
  }

  /** Being a subsequence is transitive. */
  lemma {:induction false} SubsequenceTransitive<T>(c: seq<T>, b: seq<T>, a: seq<T>)
    requires IsSubsequence(c, b) && IsSubsequence(b, a)
    ensures IsSubsequence(c, a)
    decreases |a|
  {
    if c != [] {
      if IsSubsequence(b, a[1..]) {
        SubsequenceTransitive(c, b, a[1..]);
      } else if c[0] == b[0] && IsSubsequence(c[1..], b[1..]) {
        SubsequenceTransitive(c[1..], b[1..], a[1..]);
      } else {
        SubsequenceTransitive(c, b[1..], a[1..]);
      }
    }
  }

  /** A subsequence is no longer than the sequence. */
  lemma {:induction false} SubsequenceLength<T>(b: seq<T>, a: seq<T>)
    requires IsSubsequence(b, a)
    ensures |b| <= |a|
    decreases |a|
  {
    if b != [] {
      if IsSubsequence(b, a[1..]) {
        SubsequenceLength(b, a[1..]);
      } else {
        SubsequenceLength(b[1..], a[1..]);
      }
    }
  }
}
