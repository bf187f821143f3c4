/**
  The `valid_indices` bookkeeping shared by the orchestrator and the batch
  classifier: walk a list with `enumerate` and append every position whose
  element passes a test.
*/
module Indexing {

  /** The positions of `s` whose element satisfies `p`, in increasing order,
      built the way the source's loop appends them. */
  function Positions<T>(s: seq<T>, p: T -> bool): (r: seq<nat>)
    ensures |r| <= |s|
    ensures forall j :: 0 <= j < |r| ==> r[j] < |s| && p(s[r[j]])
    ensures forall j, l :: 0 <= j < l < |r| ==> r[j] < r[l]
    ensures forall i :: 0 <= i < |s| && p(s[i]) ==> i in r
  {
    if s == [] then []
    else
      var last := |s| - 1;
      var prefix := s[..last];
      assert forall i :: 0 <= i < last ==> prefix[i] == s[i];
      Positions(prefix, p) + (if p(s[last]) then [last] else [])
  }

  /** The positions found in a prefix of `s` are a prefix of those found in
      `s`, and every later position lies at or beyond the prefix's end. */
  lemma {:induction false} PositionsOfPrefix<T>(s: seq<T>, p: T -> bool, m: nat)
    requires m <= |s|
    ensures Positions(s[..m], p) <= Positions(s, p)
    ensures forall j :: |Positions(s[..m], p)| <= j < |Positions(s, p)| ==> Positions(s, p)[j] >= m
    decreases |s| - m
  {
    if m < |s| {
      var prefix := s[..|s| - 1];
      assert prefix[..m] == s[..m];
      PositionsOfPrefix(prefix, p, m);
    } else {
      assert s[..m] == s;
    }
  }

  /** The number of satisfying positions before `m` is the rank of `m` among
      all satisfying positions: the j-th listed position has exactly j
      satisfying positions before it. */
  lemma RankOfPosition<T>(s: seq<T>, p: T -> bool, j: nat)
    requires j < |Positions(s, p)|
    ensures |Positions(s[..Positions(s, p)[j]], p)| == j
  {
    var r := Positions(s, p);
    var m := r[j];
    PositionsOfPrefix(s, p, m);
    var c := |Positions(s[..m], p)|;
    assert forall x :: 0 <= x < c ==> r[x] < m;
    assert forall x :: c <= x < |r| ==> r[x] >= m;
    assert c <= j;
    assert r[c] >= m;
  }

  /** Extending the scanned prefix by one element appends its position
      exactly when it passes the test. */
  lemma PositionsStep<T>(s: seq<T>, p: T -> bool, i: nat)
    requires i < |s|
    ensures Positions(s[..i + 1], p) == Positions(s[..i], p) + (if p(s[i]) then [i] else [])
  {
    assert s[..i + 1][..i] == s[..i];
  }

  /** When every element passes, the positions are 0, 1, ..., |s| - 1. */
  lemma {:induction false} PositionsOfAll<T>(s: seq<T>, p: T -> bool)
    requires forall i :: 0 <= i < |s| ==> p(s[i])
    ensures Positions(s, p) == seq(|s|, i => i)
  {
    if s != [] {
      var prefix := s[..|s| - 1];
      PositionsOfAll(prefix, p);
    }
  }

  /** A position is listed exactly when its element passes. */
  lemma ListedIff<T>(s: seq<T>, p: T -> bool, i: nat)
    requires i < |s|
    ensures i in Positions(s, p) <==> p(s[i])
  {
    var r := Positions(s, p);
    if i in r {
      var j :| 0 <= j < |r| && r[j] == i;
      assert p(s[r[j]]);
    }
  }

  /** A passing position is listed, at the index that counts the passing
      positions before it. */
  lemma RankOf<T>(s: seq<T>, p: T -> bool, i: nat) returns (j: nat)
    requires i < |s| && p(s[i])
    ensures j < |Positions(s, p)| && Positions(s, p)[j] == i
    ensures |Positions(s[..i], p)| == j
  {
    ListedIff(s, p, i);
    var r := Positions(s, p);
    j :| 0 <= j < |r| && r[j] == i;
    RankOfPosition(s, p, j);
  }

  /** Counting from the front: the first element adds one position when it
      passes, and the rest add as many as they have on their own. */
  lemma {:induction false} PositionsFront<T>(s: seq<T>, p: T -> bool)
    requires s != []
    ensures |Positions(s, p)| == (if p(s[0]) then 1 else 0) + |Positions(s[1..], p)|
    decreases |s|
  {
    if |s| > 1 {
      var last := |s| - 1;
      PositionsFront(s[..last], p);
      assert s[..last][1..] == s[1..][..last - 1];
      assert s[1..][last - 1] == s[last];
    } else {
      assert s[1..] == [];
    }
  }

  /** The set of positions of `s` whose element satisfies `p`. */
  function Passing<T>(s: seq<T>, p: T -> bool): set<nat> {
    set i: nat | i < |s| && p(s[i])
  }

  /** Dropping the last element drops its position when it passes. */
  lemma PassingLast<T>(s: seq<T>, p: T -> bool)
    requires s != []
    ensures |Passing(s, p)| == |Passing(s[..|s| - 1], p)| + (if p(s[|s| - 1]) then 1 else 0)
  {
    var last := |s| - 1;
    var before := Passing(s[..last], p);
    assert before == set i: nat | i < last && p(s[i]);
    if p(s[last]) {
      assert Passing(s, p) == before + {last};
    } else {
      assert Passing(s, p) == before;
    }
  }

  /** The number of listed positions is the number of passing positions. */
  lemma {:induction false} PositionsCount<T>(s: seq<T>, p: T -> bool)
    ensures |Positions(s, p)| == |Passing(s, p)|
    decreases |s|
  {
    if s != [] {
      PositionsCount(s[..|s| - 1], p);
      PassingLast(s, p);
    }
  }

  /** Counting the passing positions from the front. */
  lemma PassingFront<T>(s: seq<T>, p: T -> bool)
    requires s != []
    ensures |Passing(s, p)| == (if p(s[0]) then 1 else 0) + |Passing(s[1..], p)|
  {
    PositionsFront(s, p);
    PositionsCount(s, p);
    PositionsCount(s[1..], p);
  }

  /** A sequence one longer than `a` that agrees with it and ends in `x` is
      `a + [x]`. */
  lemma AppendOne<T>(a: seq<T>, b: seq<T>, x: T)
    requires |b| == |a| + 1 && b[|a|] == x
    requires forall m :: 0 <= m < |a| ==> b[m] == a[m]
    ensures b == a + [x]
  {
  }
}
