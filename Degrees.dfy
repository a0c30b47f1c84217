/**
 * Degree sums of adjacency lists. MOL_nbEdges (src/structureMol.c) and SHL_nbEdges
 * (src/structureShl.c) add up the neighbour counts of every atom and halve the sum. The lemma
 * Handshake shows that when the lists are duplicate-free, in range, without self-loops and
 * symmetric, that half is exactly the number of unordered adjacent pairs.
 *
 * adj[i] is the sequence of neighbour ids of atom i.
 */
module Degrees {
  import opened IdLists

  /** Lists that describe an undirected simple graph on the ids 0 .. |adj| - 1. */
  ghost predicate Simple(adj: seq<seq<int>>)
  {
    forall i :: 0 <= i < |adj| ==> RowOk(adj, i)
  }

  /** Row i is duplicate-free and each of its ids is another row that lists i back. */
  ghost predicate RowOk(adj: seq<seq<int>>, i: nat)
    requires i < |adj|
  {
    NoDup(adj[i]) && forall x :: x in adj[i] ==> 0 <= x < |adj| && x != i && i in adj[x]
  }

  /** Number of ids j with 0 <= j < hi that occur in xs. */
  function CountIn(xs: seq<int>, hi: int): nat
    decreases hi
  {
    if hi <= 0 then 0 else CountIn(xs, hi - 1) + (if hi - 1 in xs then 1 else 0)
  }

  /** Number of i < n that list j as a neighbour. */
  function ColCount(adj: seq<seq<int>>, j: int, n: nat): nat
    requires n <= |adj|
  {
    if n == 0 then 0 else ColCount(adj, j, n - 1) + (if j in adj[n - 1] then 1 else 0)
  }

  /** Number of pairs i < j < n with j a neighbour of i: the undirected edges among 0 .. n - 1. */
  function PairCount(adj: seq<seq<int>>, n: nat): nat
    requires n <= |adj|
  {
    if n == 0 then 0 else PairCount(adj, n - 1) + ColCount(adj, n - 1, n - 1)
  }

  /** The sum of the neighbour counts of the first n lists. */
  function DegreeSum(adj: seq<seq<int>>, n: nat): nat
    requires n <= |adj|
  {
    if n == 0 then 0 else DegreeSum(adj, n - 1) + |adj[n - 1]|
  }

  /** Number of pairs (i, j), both below the bounds, with j a neighbour of i. */
  function Rows(adj: seq<seq<int>>, n: nat, hi: int): nat
    requires n <= |adj|
  {
    if n == 0 then 0 else Rows(adj, n - 1, hi) + CountIn(adj[n - 1], hi)
  }

  /*********************************************************************************************
   * Counting lemmas
   *********************************************************************************************/

  /** Dropping the head of a duplicate-free list removes one id from the count when it is in
      range. */
  lemma {:induction false} CountInDrop(xs: seq<int>, hi: int)
    requires xs != [] && xs[0] !in xs[1..]
    ensures CountIn(xs, hi) == CountIn(xs[1..], hi) + (if 0 <= xs[0] < hi then 1 else 0)
    decreases hi
  {
    if hi > 0 {
      CountInDrop(xs, hi - 1);
      assert hi - 1 in xs <==> hi - 1 == xs[0] || hi - 1 in xs[1..] by {
        assert xs == [xs[0]] + xs[1..];
      }
    }
  }

  /** A duplicate-free list of ids below hi has as many entries as ids it counts. */
  lemma {:induction false} LengthIsCount(xs: seq<int>, hi: int)
    requires NoDup(xs) && forall x :: x in xs ==> 0 <= x < hi
    ensures |xs| == CountIn(xs, hi)
    decreases |xs|
  {
    if xs == [] {
      EmptyCount(hi);
    } else {
      assert xs[0] !in xs[1..];
      assert NoDup(xs[1..]) by {
        forall i, j | 0 <= i < j < |xs[1..]|
          ensures xs[1..][i] != xs[1..][j]
        {
          assert xs[i + 1] != xs[j + 1];
        }
      }
      assert xs[0] in xs;
      forall x | x in xs[1..]
        ensures 0 <= x < hi
      {
        var k :| 0 <= k < |xs[1..]| && xs[1..][k] == x;
        assert xs[k + 1] == x;
        assert x in xs;
      }
      CountInDrop(xs, hi);
      LengthIsCount(xs[1..], hi);
    }
  }

  lemma {:induction false} EmptyCount(hi: int)
    ensures CountIn([], hi) == 0
    decreases hi
  {
    if hi > 0 {
      EmptyCount(hi - 1);
    }
  }

  /** At most hi ids lie below hi. */
  lemma {:induction false} CountInBound(xs: seq<int>, hi: int)
    ensures CountIn(xs, hi) <= if hi < 0 then 0 else hi
    decreases hi
  {
    if hi > 0 {
      CountInBound(xs, hi - 1);
    }
  }

  /** Counting ids of a larger set gives at least as many, and more when it holds one more id
      in range. */
  lemma {:induction false} CountInGrows(xs: seq<int>, ys: seq<int>, hi: int, z: int)
    requires forall x :: x in xs ==> x in ys
    ensures CountIn(xs, hi) <= CountIn(ys, hi)
    ensures 0 <= z < hi && z in ys && z !in xs ==> CountIn(xs, hi) < CountIn(ys, hi)
    decreases hi
  {
    if hi > 0 {
      CountInGrows(xs, ys, hi - 1, z);
    }
  }

  /** Widening every row by one column adds that column's count. */
  lemma {:induction false} RowsStep(adj: seq<seq<int>>, n: nat, hi: int)
    requires n <= |adj| && hi >= 0
    ensures Rows(adj, n, hi + 1) == Rows(adj, n, hi) + ColCount(adj, hi, n)
  {
    if n > 0 {
      RowsStep(adj, n - 1, hi);
    }
  }

  /** In symmetric lists, the rows below n listing n are the ids below n that n lists. */
  lemma {:induction false} ColIsRow(adj: seq<seq<int>>, j: nat, n: nat)
    requires Simple(adj) && j < |adj| && n <= j
    ensures ColCount(adj, j, n) == CountIn(adj[j], n)
  {
    if n > 0 {
      ColIsRow(adj, j, n - 1);
      assert RowOk(adj, j) && RowOk(adj, n - 1);
    }
  }

  /** The square of the first n rows and columns holds twice the edges among them. */
  lemma {:induction false} SquareIsTwicePairs(adj: seq<seq<int>>, n: nat)
    requires Simple(adj) && n <= |adj|
    ensures Rows(adj, n, n) == 2 * PairCount(adj, n)
  {
    if n > 0 {
      var m := n - 1;
      SquareIsTwicePairs(adj, m);
      RowsStep(adj, m, m);
      ColIsRow(adj, m, m);
      assert RowOk(adj, m);
    }
  }

  /** Rows that only hold ids below hi count as many ids as they are long. */
  lemma {:induction false} DegreeSumIsRows(adj: seq<seq<int>>, n: nat)
    requires Simple(adj) && n <= |adj|
    ensures DegreeSum(adj, n) == Rows(adj, n, |adj|)
  {
    if n > 0 {
      DegreeSumIsRows(adj, n - 1);
      assert RowOk(adj, n - 1);
      LengthIsCount(adj[n - 1], |adj|);
    }
  }

  /** The handshake lemma: the neighbour counts of symmetric simple lists add up to twice the
      number of unordered adjacent pairs, so halving the sum counts the edges. */
  lemma Handshake(adj: seq<seq<int>>)
    requires Simple(adj)
    ensures DegreeSum(adj, |adj|) == 2 * PairCount(adj, |adj|)
    ensures DegreeSum(adj, |adj|) / 2 == PairCount(adj, |adj|)
  {
    DegreeSumIsRows(adj, |adj|);
    SquareIsTwicePairs(adj, |adj|);
  }
}
