/** `ArrayDiff`: compares the neighbour list a client had with the one it
    has now. Elements are compared by identity (Go compares `*Client`
    pointers), which is Dafny's `==` on references. */
module Diff {

  datatype ArrayDiffResult<T> = ArrayDiffResult(kept: seq<T>, added: seq<T>, removed: seq<T>)

  /** The elements of s that occur in t, in s's order, duplicates kept. */
  function Common<T(==)>(s: seq<T>, t: seq<T>): seq<T>
  {
    if s == [] then []
    else Common(s[..|s| - 1], t) + (if s[|s| - 1] in t then [s[|s| - 1]] else [])
  }

  /** The elements of s that do not occur in t, in s's order, duplicates kept. */
  function Minus<T(==)>(s: seq<T>, t: seq<T>): seq<T>
  {
    if s == [] then []
    else Minus(s[..|s| - 1], t) + (if s[|s| - 1] !in t then [s[|s| - 1]] else [])
  }

  /** a is a subsequence of b: b with some elements deleted. */
  predicate Subseq<T(==)>(a: seq<T>, b: seq<T>)
  {
    if a == [] then true
    else if b == [] then false
    else if a[|a| - 1] == b[|b| - 1] then Subseq(a[..|a| - 1], b[..|b| - 1])
    else Subseq(a, b[..|b| - 1])
  }

  /** `has(a, v)`: a linear scan for v. */
  method Has<T(==)>(a: seq<T>, v: T) returns (b: bool)
    ensures b <==> v in a
  {
    var i := 0;
    while i < |a|
      invariant 0 <= i <= |a|
      invariant v !in a[..i]
    {
      if a[i] == v {
        return true;
      }
      i := i + 1;
    }
    assert a[..i] == a;
    return false;
  }

  /** `ArrayDiff(old, new)`: one pass over `new` sorts each element into
      Kept (also in `old`) or Added; a second pass over `old` collects
      Removed (not in `new`). */
  method ArrayDiff<T(==)>(before: seq<T>, after: seq<T>) returns (r: ArrayDiffResult<T>)
    ensures r == ArrayDiffResult(Common(after, before), Minus(after, before), Minus(before, after))
  {
    var kept: seq<T> := [];
    var added: seq<T> := [];
    var i := 0;
    while i < |after|
      invariant 0 <= i <= |after|
      invariant kept == Common(after[..i], before)
      invariant added == Minus(after[..i], before)
    {
      assert after[..i + 1][..i] == after[..i];
      var found := Has(before, after[i]);
      if found {
        kept := kept + [after[i]];
      } else {
        added := added + [after[i]];
      }
      i := i + 1;
    }
    assert after[..i] == after;
    var removed: seq<T> := [];
    var j := 0;
    while j < |before|
      invariant 0 <= j <= |before|
      invariant removed == Minus(before[..j], after)
    {
      assert before[..j + 1][..j] == before[..j];
      var found := Has(after, before[j]);
      if !found {
        removed := removed + [before[j]];
      }
      j := j + 1;
    }
    assert before[..j] == before;
    r := ArrayDiffResult(kept, added, removed);
  }

  /** Every element of s lands in exactly one of Common(s, t) and Minus(s, t):
      the two together have s's length and s's elements with multiplicity. */
  lemma {:induction false} Partition<T>(s: seq<T>, t: seq<T>)
    ensures |Common(s, t)| + |Minus(s, t)| == |s|
    ensures multiset(Common(s, t)) + multiset(Minus(s, t)) == multiset(s)
  {
    if s != [] {
      var init := s[..|s| - 1];
      var last := [s[|s| - 1]];
      Partition(init, t);
      assert s == init + last;
      if s[|s| - 1] in t {
        assert Common(s, t) == Common(init, t) + last;
        assert Minus(s, t) == Minus(init, t);
      } else {
        assert Common(s, t) == Common(init, t);
        assert Minus(s, t) == Minus(init, t) + last;
      }
    }
  }

  /** Common(s, t) holds each x of t as often as s does, and nothing else. */
  lemma {:induction false} CommonCount<T>(s: seq<T>, t: seq<T>, x: T)
    ensures multiset(Common(s, t))[x] == if x in t then multiset(s)[x] else 0
  {
    if s != [] {
      var init := s[..|s| - 1];
      CommonCount(init, t, x);
      assert s == init + [s[|s| - 1]];
    }
  }

  /** Minus(s, t) holds each x outside t as often as s does, and nothing else. */
  lemma {:induction false} MinusCount<T>(s: seq<T>, t: seq<T>, x: T)
    ensures multiset(Minus(s, t))[x] == if x in t then 0 else multiset(s)[x]
  {
    if s != [] {
      var init := s[..|s| - 1];
      MinusCount(init, t, x);
      assert s == init + [s[|s| - 1]];
    }
  }

  /** Membership in the two halves, both directions. */
  lemma Membership<T>(s: seq<T>, t: seq<T>, x: T)
    ensures x in Common(s, t) <==> x in s && x in t
    ensures x in Minus(s, t) <==> x in s && x !in t
  {
    CommonCount(s, t, x);
    MinusCount(s, t, x);
  }

  /** Both halves keep the order of s: each is a subsequence of s. */
  lemma {:induction false} InOrder<T>(s: seq<T>, t: seq<T>)
    ensures Subseq(Common(s, t), s)
    ensures Subseq(Minus(s, t), s)
  {
    if s != [] {
      var init := s[..|s| - 1];
      var last := s[|s| - 1];
      InOrder(init, t);
      if last in t {
        var c := Common(s, t);
        assert c == Common(init, t) + [last];
        assert c[..|c| - 1] == Common(init, t);
        assert Subseq(c, s);
        assert Minus(s, t) == Minus(init, t);
        SubseqDropLast(Minus(s, t), s);
      } else {
        var m := Minus(s, t);
        assert m == Minus(init, t) + [last];
        assert m[..|m| - 1] == Minus(init, t);
        assert Subseq(m, s);
        assert Common(s, t) == Common(init, t);
        SubseqDropLast(Common(s, t), s);
      }
    }
  }

  /** A subsequence of s without s's last element stays one of s. */
  lemma SubseqDropLast<T>(a: seq<T>, s: seq<T>)
    requires s != [] && Subseq(a, s[..|s| - 1])
    ensures Subseq(a, s)
  {
    if a != [] && a[|a| - 1] == s[|s| - 1] {
      SubseqWeaken(a, s[..|s| - 1]);
    }
  }

  /** Dropping the last element of a subsequence leaves a subsequence. */
  lemma {:induction false} SubseqWeaken<T>(a: seq<T>, b: seq<T>)
    requires a != [] && Subseq(a, b)
    ensures Subseq(a[..|a| - 1], b)
  {
    var init := a[..|a| - 1];
    if a[|a| - 1] == b[|b| - 1] {
      if init != [] {
        SubseqDropLast(init, b);
      }
    } else {
      SubseqWeaken(a, b[..|b| - 1]);
      if init != [] {
        SubseqDropLast(init, b);
      }
    }
  }

  /** Comparing a list with itself: everything is kept, nothing added or removed. */
  lemma SelfDiff<T>(s: seq<T>)
    ensures Common(s, s) == s && Minus(s, s) == []
  {
    PrefixSelf(s, |s|);
    assert s[..|s|] == s;
  }

  lemma {:induction false} PrefixSelf<T>(s: seq<T>, k: nat)
    requires k <= |s|
    ensures Common(s[..k], s) == s[..k] && Minus(s[..k], s) == []
  {
    if k > 0 {
      PrefixSelf(s, k - 1);
      assert s[..k][..k - 1] == s[..k - 1];
    }
  }

  /** With an empty side, the other side is wholly added or wholly removed. */
  lemma {:induction false} EmptySide<T>(s: seq<T>)
    ensures Common(s, []) == [] && Minus(s, []) == s
    ensures Common([], s) == [] && Minus([], s) == []
  {
    if s != [] {
      EmptySide(s[..|s| - 1]);
    }
  }
}
