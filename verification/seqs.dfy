/** Order-preserving selection from a list, the shape of every
    "for (x : list) if (test(x)) result.add(x)" loop in the register code, and
    the facts about it the rest of the model uses. */
module Seqs {

  function Last<T>(s: seq<T>): T
    requires s != []
  {
    s[|s| - 1]
  }

  /** The elements of `s` that satisfy `p`, in their original order. */
  function Filter<T(==,!new)>(s: seq<T>, p: T -> bool): (r: seq<T>)
    ensures |r| <= |s|
    ensures forall x :: x in r <==> x in s && p(x)
  {
    if s == [] then []
    else
      var init := Filter(s[..|s| - 1], p);
      assert s == s[..|s| - 1] + [s[|s| - 1]];
      if p(s[|s| - 1]) then init + [s[|s| - 1]] else init
  }

  /** Extending a prefix by the next element. */
  lemma PrefixStep<T>(s: seq<T>, j: nat)
    requires j < |s|
    ensures s[..j + 1] == s[..j] + [s[j]]
  {
  }

  lemma PrefixWhole<T>(s: seq<T>)
    ensures s[..|s|] == s
  {
  }

  lemma ConcatAssociative<T>(a: seq<T>, b: seq<T>, c: seq<T>)
    ensures a + b + c == a + (b + c)
  {
  }

  /** `part` occurs as a contiguous run inside `whole`. */
  ghost predicate Within<T>(part: seq<T>, whole: seq<T>) {
    exists i :: 0 <= i <= |whole| - |part| && whole[i..][..|part|] == part
  }

  lemma WithinMiddle<T>(before: seq<T>, part: seq<T>, after: seq<T>)
    ensures Within(part, before + part + after)
  {
    var whole := before + part + after;
    assert whole[|before|..][..|part|] == part;
  }

  /** A run inside `whole` is still inside it with more in front. */
  lemma WithinPrepend<T>(part: seq<T>, whole: seq<T>, before: seq<T>)
    requires Within(part, whole)
    ensures Within(part, before + whole)
  {
    var i :| 0 <= i <= |whole| - |part| && whole[i..][..|part|] == part;
    assert (before + whole)[|before| + i..] == whole[i..];
  }

  /** A run inside `whole` is still inside it with more behind. */
  lemma WithinAppend<T>(part: seq<T>, whole: seq<T>, after: seq<T>)
    requires Within(part, whole)
    ensures Within(part, whole + after)
  {
    var i :| 0 <= i <= |whole| - |part| && whole[i..][..|part|] == part;
    assert (whole + after)[i..][..|part|] == whole[i..][..|part|];
  }


  /** Selection over a list extended by one element. */
  lemma FilterSnoc<T(!new)>(s: seq<T>, x: T, p: T -> bool)
    ensures Filter(s + [x], p) == if p(x) then Filter(s, p) + [x] else Filter(s, p)
  {
    assert (s + [x])[..|s|] == s;
  }

  /** Every occurrence of a selected element is kept, and no other. */
  lemma {:induction false} FilterCount<T(!new)>(s: seq<T>, p: T -> bool, x: T)
    ensures multiset(Filter(s, p))[x] == if p(x) then multiset(s)[x] else 0
  {
    if s != [] {
      var init := s[..|s| - 1];
      FilterCount(init, p, x);
      assert s == init + [s[|s| - 1]];
    }
  }

  /** Selection distributes over concatenation, so it keeps the order. */
  lemma {:induction false} FilterConcat<T(!new)>(s: seq<T>, t: seq<T>, p: T -> bool)
    ensures Filter(s + t, p) == Filter(s, p) + Filter(t, p)
    decreases |t|
  {
    if t == [] {
      assert s + t == s;
    } else {
      var u := s + t;
      assert u[..|u| - 1] == s + t[..|t| - 1];
      assert u[|u| - 1] == t[|t| - 1];
      FilterConcat(s, t[..|t| - 1], p);
    }
  }

  /** Two tests that agree on the elements of `s` select the same elements. */
  lemma {:induction false} FilterCongruent<T(!new)>(s: seq<T>, p: T -> bool, q: T -> bool)
    requires forall x :: x in s ==> p(x) == q(x)
    ensures Filter(s, p) == Filter(s, q)
  {
    if s != [] {
      assert s == s[..|s| - 1] + [s[|s| - 1]];
      FilterCongruent(s[..|s| - 1], p, q);
    }
  }

  /** Selecting by `p` and then by `q` is selecting by their conjunction. */
  lemma {:induction false} FilterFilter<T(!new)>(s: seq<T>, p: T -> bool, q: T -> bool, r: T -> bool)
    requires forall x :: x in s ==> (p(x) && q(x)) == r(x)
    ensures Filter(Filter(s, p), q) == Filter(s, r)
  {
    if s != [] {
      var init := s[..|s| - 1];
      var x := s[|s| - 1];
      assert s == init + [x];
      FilterFilter(init, p, q, r);
      if p(x) {
        FilterConcat(Filter(init, p), [x], q);
        assert Filter([x], q) == Filter([], q) + (if q(x) then [x] else []);
      }
    }
  }

  /** A test every element passes keeps the whole list. */
  lemma {:induction false} FilterKeepsAll<T(!new)>(s: seq<T>, p: T -> bool)
    requires forall x :: x in s ==> p(x)
    ensures Filter(s, p) == s
  {
    if s != [] {
      assert s == s[..|s| - 1] + [s[|s| - 1]];
      FilterKeepsAll(s[..|s| - 1], p);
    }
  }
}
