/** Facts about lists that hold the same elements. */
module Rearrangements {

  lemma SameElements<T>(a: seq<T>, b: seq<T>)
    requires multiset(a) == multiset(b)
    ensures |a| == |b|
    ensures forall e :: e in a <==> e in b
  {
    assert |a| == |multiset(a)| == |multiset(b)| == |b|;
    assert forall e :: e in a <==> e in multiset(a);
    assert forall e :: e in b <==> e in multiset(b);
  }

  lemma LastSplits<T>(a: seq<T>)
    requires a != []
    ensures a == a[..|a| - 1] + [a[|a| - 1]]
    ensures multiset(a[..|a| - 1]) == multiset(a) - multiset{a[|a| - 1]}
  {
    assert a == a[..|a| - 1] + [a[|a| - 1]];
  }

  ghost predicate Distinct<T>(a: seq<T>) {
    forall i, j :: 0 <= i < j < |a| ==> a[i] != a[j]
  }

  lemma {:induction false} DistinctMeansOnce<T>(a: seq<T>, e: T)
    ensures Distinct(a) ==> multiset(a)[e] <= 1
  {
    if a != [] && Distinct(a) {
      LastSplits(a);
      DistinctMeansOnce(a[..|a| - 1], e);
      if a[|a| - 1] == e {
        assert e !in a[..|a| - 1];
        assert e !in multiset(a[..|a| - 1]);
      }
    }
  }

  lemma RepeatedCountsTwice<T>(a: seq<T>, i: nat, j: nat)
    requires i < j < |a| && a[i] == a[j]
    ensures multiset(a)[a[i]] >= 2
  {
    assert a == a[..j] + [a[j]] + a[j + 1..];
    assert a[i] == a[..j][i] && a[i] in multiset(a[..j]);
  }

  lemma DistinctCarriesOver<T>(a: seq<T>, b: seq<T>)
    requires multiset(a) == multiset(b) && Distinct(a)
    ensures Distinct(b)
  {
    forall i, j | 0 <= i < j < |b| ensures b[i] != b[j] {
      if b[i] == b[j] {
        RepeatedCountsTwice(b, i, j);
        DistinctMeansOnce(a, b[i]);
        assert false;
      }
    }
  }

  lemma SwappingNeighboursKeeps<T>(a: seq<T>, i: nat)
    requires i + 1 < |a|
    ensures multiset(a[i := a[i + 1]][i + 1 := a[i]]) == multiset(a)
  {
    var front, back, x, y := a[..i], a[i + 2..], a[i], a[i + 1];
    assert a == front + [x, y] + back;
    assert a[i := y][i + 1 := x] == front + [y, x] + back;
    SwappedPair(front, x, y, back);
  }

  lemma SwappedPair<T>(front: seq<T>, x: T, y: T, back: seq<T>)
    ensures multiset(front + [y, x] + back) == multiset(front + [x, y] + back)
  {
    assert multiset(front + [x, y] + back) == multiset(front) + multiset{x, y} + multiset(back);
    assert multiset(front + [y, x] + back) == multiset(front) + multiset{y, x} + multiset(back);
  }

  lemma WithoutOne<T>(a: seq<T>, i: nat)
    requires i < |a|
    ensures multiset(a[..i] + a[i + 1..]) == multiset(a) - multiset{a[i]}
  {
    assert a == a[..i] + [a[i]] + a[i + 1..];
  }

  lemma SameWithout<T>(a: seq<T>, b: seq<T>, i: nat, j: nat)
    requires multiset(a) == multiset(b) && i < |a| && j < |b| && a[i] == b[j]
    ensures multiset(a[..i] + a[i + 1..]) == multiset(b[..j] + b[j + 1..])
  {
    WithoutOne(a, i);
    WithoutOne(b, j);
  }
}
