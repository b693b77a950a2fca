/** Distances between positions and the ordering of neighbours by distance
    used by `getClosestPlayers`. Positions are integer pairs; the Euclidean
    distance is compared through its square, and the distance stored for
    sorting is the truncated square root. */
module Ranking {
  import opened PosCodec

  /** Squared Euclidean distance. */
  function DistSq(a: Vector2D, b: Vector2D): (r: int)
    ensures r >= 0
  {
    var dx := a.x - b.x;
    var dy := a.y - b.y;
    assert dx * dx >= 0 && dy * dy >= 0;
    dx * dx + dy * dy
  }

  /** `distance <= 10000` is `dx² + dy² <= 10000²`. */
  const MaxDistSq: int := 10000 * 10000

  /** The integer square root: `int(distance)` for a distance `sqrt(n)`. */
  function Isqrt(n: nat): nat
  {
    if n == 0 then 0
    else
      var s := Isqrt(n - 1);
      if (s + 1) * (s + 1) <= n then s + 1 else s
  }

  /** Isqrt(n) is the largest r with r * r <= n. */
  lemma {:induction false} IsqrtSpec(n: nat)
    ensures Isqrt(n) * Isqrt(n) <= n < (Isqrt(n) + 1) * (Isqrt(n) + 1)
  {
    if n > 0 {
      IsqrtSpec(n - 1);
      var s := Isqrt(n - 1);
      if (s + 1) * (s + 1) <= n {
        assert (s + 2) * (s + 2) == (s + 1) * (s + 1) + 2 * s + 3;
      }
    }
  }

  /** Isqrt is monotonic, so ordering by it agrees with ordering by distance. */
  lemma IsqrtMono(m: nat, n: nat)
    requires m <= n
    ensures Isqrt(m) <= Isqrt(n)
  {
    var a := Isqrt(m);
    var b := Isqrt(n);
    IsqrtSpec(m);
    IsqrtSpec(n);
    if b + 1 <= a {
      MulMono(b + 1, a);
    }
  }

  lemma MulMono(x: nat, y: nat)
    requires x <= y
    ensures x * x <= y * y
  {
    assert x * x <= x * y <= y * y;
  }

  /** `clientPosSortInfo`: a neighbour with its truncated distance. */
  datatype SortInfo<C> = SortInfo(client: C, length: int)

  predicate SortedByLength<C>(s: seq<SortInfo<C>>)
  {
    forall i, j :: 0 <= i < j < |s| ==> s[i].length <= s[j].length
  }

  /** Inserts x before the first element that is longer. */
  function InsertByLength<C>(x: SortInfo<C>, s: seq<SortInfo<C>>): seq<SortInfo<C>>
  {
    if s == [] || x.length <= s[0].length then [x] + s
    else [s[0]] + InsertByLength(x, s[1..])
  }

  /** A sort by length. It stands for Go's `sort.Sort`, whose order among
      equal lengths is not specified; only sortedness and permutation are
      relied on. */
  function SortByLength<C>(s: seq<SortInfo<C>>): seq<SortInfo<C>>
  {
    if s == [] then [] else InsertByLength(s[0], SortByLength(s[1..]))
  }

  /** Inserting keeps a lower bound that x and every element of s respect. */
  lemma {:induction false} InsertLowerBound<C>(x: SortInfo<C>, s: seq<SortInfo<C>>, b: int)
    requires b <= x.length && forall k :: 0 <= k < |s| ==> b <= s[k].length
    ensures forall k :: 0 <= k < |InsertByLength(x, s)| ==> b <= InsertByLength(x, s)[k].length
  {
    if !(s == [] || x.length <= s[0].length) {
      InsertLowerBound(x, s[1..], b);
    }
  }

  /** Inserting into a sorted list keeps it sorted. */
  lemma {:induction false} InsertSorted<C>(x: SortInfo<C>, s: seq<SortInfo<C>>)
    requires SortedByLength(s)
    ensures SortedByLength(InsertByLength(x, s))
  {
    if !(s == [] || x.length <= s[0].length) {
      var r := InsertByLength(x, s[1..]);
      InsertSorted(x, s[1..]);
      InsertLowerBound(x, s[1..], s[0].length);
      var q := [s[0]] + r;
      assert InsertByLength(x, s) == q;
      forall i, j | 0 <= i < j < |q|
        ensures q[i].length <= q[j].length
      {
        if i > 0 {
          assert q[i] == r[i - 1] && q[j] == r[j - 1];
        } else {
          assert q[j] == r[j - 1];
        }
      }
    }
  }

  /** Inserting adds exactly x. */
  lemma {:induction false} InsertPerm<C>(x: SortInfo<C>, s: seq<SortInfo<C>>)
    ensures multiset(InsertByLength(x, s)) == multiset{x} + multiset(s)
  {
    if !(s == [] || x.length <= s[0].length) {
      InsertPerm(x, s[1..]);
      assert InsertByLength(x, s) == [s[0]] + InsertByLength(x, s[1..]);
      assert s == [s[0]] + s[1..];
    }
  }

  /** The sort returns its input reordered, non-decreasing by length. */
  lemma {:induction false} SortSpec<C>(s: seq<SortInfo<C>>)
    ensures SortedByLength(SortByLength(s))
    ensures multiset(SortByLength(s)) == multiset(s)
  {
    if s != [] {
      SortSpec(s[1..]);
      InsertSorted(s[0], SortByLength(s[1..]));
      InsertPerm(s[0], SortByLength(s[1..]));
      assert s == [s[0]] + s[1..];
    }
  }

  /** The clients of a list of sort entries, in order. */
  function ClientsOf<C>(s: seq<SortInfo<C>>): (r: seq<C>)
    ensures |r| == |s| && forall i :: 0 <= i < |s| ==> r[i] == s[i].client
  {
    if s == [] then [] else [s[0].client] + ClientsOf(s[1..])
  }

  lemma {:induction false} ClientsOfInsert<C>(x: SortInfo<C>, s: seq<SortInfo<C>>)
    ensures multiset(ClientsOf(InsertByLength(x, s))) == multiset{x.client} + multiset(ClientsOf(s))
  {
    if !(s == [] || x.length <= s[0].length) {
      ClientsOfInsert(x, s[1..]);
      assert ClientsOf(s) == [s[0].client] + ClientsOf(s[1..]);
    }
  }

  /** Sorting permutes the clients too. */
  lemma {:induction false} ClientsOfSort<C>(s: seq<SortInfo<C>>)
    ensures multiset(ClientsOf(SortByLength(s))) == multiset(ClientsOf(s))
  {
    if s != [] {
      ClientsOfSort(s[1..]);
      ClientsOfInsert(s[0], SortByLength(s[1..]));
    }
  }
}
