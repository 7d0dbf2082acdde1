/** `Collections.sort`: a stable sort by a comparator, written as insertion
    sort. Each element is inserted after every element that does not compare
    above it, so elements that compare equal keep their order. */
module Sorting {

  /** Java's comparator contract, in the part the proofs need: the sign of
      `cmp(a, b)` is the opposite of the sign of `cmp(b, a)`. */
  ghost predicate Antisymmetric<T(!new)>(cmp: (T, T) -> int)
  {
    forall a, b :: cmp(a, b) > 0 <==> cmp(b, a) < 0
  }

  /** The rest of the contract of a comparator that orders totally:
      "at most" chains. */
  ghost predicate Transitive<T(!new)>(cmp: (T, T) -> int)
  {
    forall a, b, c :: cmp(a, b) <= 0 && cmp(b, c) <= 0 ==> cmp(a, c) <= 0
  }

  /** The elements of `s` that compare equal to `p`, in their order in `s`. */
  function Equivalents<T>(s: seq<T>, p: T, cmp: (T, T) -> int): seq<T>
  {
    if |s| == 0 then []
    else Equivalents(s[..|s| - 1], p, cmp) + (if cmp(s[|s| - 1], p) == 0 then [s[|s| - 1]] else [])
  }

  /** Every element compares at most equal to its successor. */
  ghost predicate Sorted<T>(s: seq<T>, cmp: (T, T) -> int)
  {
    forall i :: 0 <= i < |s| - 1 ==> cmp(s[i], s[i + 1]) <= 0
  }

  function Insert<T>(s: seq<T>, x: T, cmp: (T, T) -> int): (r: seq<T>)
    ensures |r| == |s| + 1
    ensures multiset(r) == multiset(s) + multiset{x}
    ensures r[|r| - 1] == x || (|s| > 0 && r[|r| - 1] == s[|s| - 1])
  {
    if |s| == 0 then [x]
    else if cmp(s[|s| - 1], x) > 0 then
      (assert s == s[..|s| - 1] + [s[|s| - 1]];
       Insert(s[..|s| - 1], x, cmp) + [s[|s| - 1]])
    else s + [x]
  }

  function Sort<T>(s: seq<T>, cmp: (T, T) -> int): (r: seq<T>)
    ensures |r| == |s|
    ensures multiset(r) == multiset(s)
  {
    if |s| == 0 then []
    else
      assert s == s[..|s| - 1] + [s[|s| - 1]];
      Insert(Sort(s[..|s| - 1], cmp), s[|s| - 1], cmp)
  }

  lemma {:induction false} SortedFront<T>(s: seq<T>, cmp: (T, T) -> int)
    requires |s| > 0 && Sorted(s, cmp)
    ensures Sorted(s[..|s| - 1], cmp)
  {
    var front := s[..|s| - 1];
    forall i | 0 <= i < |front| - 1 ensures cmp(front[i], front[i + 1]) <= 0 {
      assert front[i] == s[i] && front[i + 1] == s[i + 1];
    }
  }

  lemma {:induction false} SortedAppend<T>(s: seq<T>, y: T, cmp: (T, T) -> int)
    requires Sorted(s, cmp)
    requires |s| > 0 ==> cmp(s[|s| - 1], y) <= 0
    ensures Sorted(s + [y], cmp)
  {
    var r := s + [y];
    forall i | 0 <= i < |r| - 1 ensures cmp(r[i], r[i + 1]) <= 0 {
      if i < |s| - 1 {
        assert r[i] == s[i] && r[i + 1] == s[i + 1];
      }
    }
  }

  lemma {:induction false} InsertSorted<T(!new)>(s: seq<T>, x: T, cmp: (T, T) -> int)
    requires Antisymmetric(cmp)
    requires Sorted(s, cmp)
    ensures Sorted(Insert(s, x, cmp), cmp)
  {
    if |s| > 0 && cmp(s[|s| - 1], x) > 0 {
      var front := s[..|s| - 1];
      var last := s[|s| - 1];
      SortedFront(s, cmp);
      InsertSorted(front, x, cmp);
      var ins := Insert(front, x, cmp);
      assert cmp(ins[|ins| - 1], last) <= 0 by {
        if ins[|ins| - 1] == x {
          assert cmp(x, last) < 0;
        } else {
          assert ins[|ins| - 1] == s[|s| - 2];
        }
      }
      SortedAppend(ins, last, cmp);
    } else {
      SortedAppend(s, x, cmp);
    }
  }

  /** The sort orders its input by an antisymmetric comparator; when the
      comparator is also transitive, every element compares at most equal
      to every later one, and elements that compare equal keep their
      relative order (`Collections.sort` is stable). */
  lemma {:induction false} SortSorted<T(!new)>(s: seq<T>, cmp: (T, T) -> int)
    requires Antisymmetric(cmp)
    ensures Sorted(Sort(s, cmp), cmp)
    ensures Transitive(cmp) ==>
      forall i, j :: 0 <= i < j < |Sort(s, cmp)| ==> cmp(Sort(s, cmp)[i], Sort(s, cmp)[j]) <= 0
    ensures Transitive(cmp) ==> forall p :: Equivalents(Sort(s, cmp), p, cmp) == Equivalents(s, p, cmp)
  {
    SortAdjacent(s, cmp);
    if Transitive(cmp) {
      SortedPairwise(Sort(s, cmp), cmp);
      forall p ensures Equivalents(Sort(s, cmp), p, cmp) == Equivalents(s, p, cmp) {
        EqualsInOrderHolds(p, cmp);
        SortStable(s, p, cmp);
      }
    }
  }

  lemma {:induction false} SortAdjacent<T(!new)>(s: seq<T>, cmp: (T, T) -> int)
    requires Antisymmetric(cmp)
    ensures Sorted(Sort(s, cmp), cmp)
  {
    if |s| > 0 {
      SortAdjacent(s[..|s| - 1], cmp);
      InsertSorted(Sort(s[..|s| - 1], cmp), s[|s| - 1], cmp);
    }
  }

  /** With a transitive comparator, order between neighbours is order
      between any two elements. */
  lemma {:induction false} SortedPairwise<T(!new)>(s: seq<T>, cmp: (T, T) -> int)
    requires Transitive(cmp) && Sorted(s, cmp)
    ensures forall i, j :: 0 <= i < j < |s| ==> cmp(s[i], s[j]) <= 0
  {
    forall i, j | 0 <= i < j < |s| ensures cmp(s[i], s[j]) <= 0 {
      SortedFrom(s, cmp, i, j);
    }
  }

  lemma {:induction false} SortedFrom<T(!new)>(s: seq<T>, cmp: (T, T) -> int, i: nat, j: nat)
    requires Transitive(cmp) && Sorted(s, cmp) && i < j < |s|
    ensures cmp(s[i], s[j]) <= 0
    decreases j - i
  {
    if i + 1 < j {
      SortedFrom(s, cmp, i + 1, j);
      assert cmp(s[i], s[i + 1]) <= 0;
    }
  }

  lemma {:induction false} EquivalentsAppend<T>(s: seq<T>, x: T, p: T, cmp: (T, T) -> int)
    ensures Equivalents(s + [x], p, cmp) == Equivalents(s, p, cmp) + (if cmp(x, p) == 0 then [x] else [])
  {
    assert (s + [x])[..|s|] == s;
  }

  /** Inserting puts the new element after the elements equal to it. */
  lemma {:induction false} InsertStable<T(!new)>(s: seq<T>, x: T, p: T, cmp: (T, T) -> int)
    requires EqualsInOrder(p, cmp)
    ensures Equivalents(Insert(s, x, cmp), p, cmp) == Equivalents(s, p, cmp) + (if cmp(x, p) == 0 then [x] else [])
  {
    if |s| == 0 {
      EquivalentsAppend([], x, p, cmp);
    } else if cmp(s[|s| - 1], x) > 0 {
      var front := s[..|s| - 1];
      var last := s[|s| - 1];
      InsertStable(front, x, p, cmp);
      EquivalentsAppend(Insert(front, x, cmp), last, p, cmp);
      EquivalentsAppend(front, last, p, cmp);
      assert front + [last] == s;
    } else {
      EquivalentsAppend(s, x, p, cmp);
    }
  }

  /** Two elements equal to `p` never compare greater. */
  ghost predicate EqualsInOrder<T(!new)>(p: T, cmp: (T, T) -> int)
  {
    forall a, b :: cmp(a, p) == 0 && cmp(b, p) == 0 ==> cmp(a, b) <= 0
  }

  lemma EqualsInOrderHolds<T(!new)>(p: T, cmp: (T, T) -> int)
    requires Antisymmetric(cmp) && Transitive(cmp)
    ensures EqualsInOrder(p, cmp)
  {
  }

  lemma {:induction false} SortStable<T(!new)>(s: seq<T>, p: T, cmp: (T, T) -> int)
    requires EqualsInOrder(p, cmp)
    ensures Equivalents(Sort(s, cmp), p, cmp) == Equivalents(s, p, cmp)
  {
    if |s| > 0 {
      var front, last := s[..|s| - 1], s[|s| - 1];
      assert Sort(s, cmp) == Insert(Sort(front, cmp), last, cmp);
      SortStable(front, p, cmp);
      InsertStable(Sort(front, cmp), last, p, cmp);
    }
  }

  /** Stability on a sorted input: a list already in order is left as it is. */
  lemma {:induction false} SortKeepsSorted<T>(s: seq<T>, cmp: (T, T) -> int)
    requires Sorted(s, cmp)
    ensures Sort(s, cmp) == s
  {
    if |s| > 0 {
      var front := s[..|s| - 1];
      var last := s[|s| - 1];
      assert front + [last] == s;
      SortedFront(s, cmp);
      SortKeepsSorted(front, cmp);
      assert Sort(s, cmp) == Insert(front, last, cmp);
      if |front| > 0 {
        assert cmp(front[|front| - 1], last) <= 0;
      }
      assert Insert(front, last, cmp) == front + [last];
    }
  }
}
