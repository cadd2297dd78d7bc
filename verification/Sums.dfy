/** The sum of a dictionary's values. */
module Sums {

  ghost function SumValues<K>(scores: map<K, real>): real {
    if scores == map[] then 0.0
    else
      var k :| k in scores;
      scores[k] + SumValues(scores - {k})
  }

  /** Any entry may be taken out first. */
  lemma {:induction false} SumTakesOut<K>(scores: map<K, real>, k: K)
    requires k in scores
    ensures SumValues(scores) == scores[k] + SumValues(scores - {k})
    decreases |scores|
  {
    var first :| first in scores && SumValues(scores) == scores[first] + SumValues(scores - {first});
    if first != k {
      SizeWithout(scores, first);
      SizeWithout(scores, k);
      SumTakesOut(scores - {first}, k);
      SumTakesOut(scores - {k}, first);
      assert scores - {first} - {k} == scores - {k} - {first};
    }
  }

  lemma SizeWithout<K>(scores: map<K, real>, k: K)
    requires k in scores
    ensures |scores| == |scores - {k}| + 1
  {
    assert scores == (scores - {k})[k := scores[k]];
  }

  ghost function Times(n: nat, x: real): real {
    if n == 0 then 0.0 else x + Times(n - 1, x)
  }

  lemma {:induction false} TimesIsProduct(n: nat, x: real)
    ensures Times(n, x) == n as real * x
  {
    if n > 0 {
      TimesIsProduct(n - 1, x);
      Distributes((n - 1) as real, x);
    }
  }

  lemma Distributes(n: real, x: real)
    ensures (n + 1.0) * x == n * x + x
  {
  }

  lemma {:induction false} SumAtLeast<K>(scores: map<K, real>, bound: real)
    requires forall k :: k in scores ==> scores[k] >= bound
    ensures SumValues(scores) >= Times(|scores|, bound)
    decreases |scores|
  {
    if scores != map[] {
      var k :| k in scores;
      SumTakesOut(scores, k);
      SizeWithout(scores, k);
      SumAtLeast(scores - {k}, bound);
    }
  }

  lemma {:induction false} SumMonotone<K>(a: map<K, real>, b: map<K, real>)
    requires a.Keys == b.Keys && forall k :: k in a ==> a[k] <= b[k]
    ensures SumValues(a) <= SumValues(b)
    decreases |a|
  {
    if a != map[] {
      var k :| k in a;
      SumTakesOut(a, k);
      SumTakesOut(b, k);
      SizeWithout(a, k);
      SumMonotone(a - {k}, b - {k});
    }
  }

  lemma {:induction false} SumConstant<K>(scores: map<K, real>, x: real)
    requires forall k :: k in scores ==> scores[k] == x
    ensures SumValues(scores) == Times(|scores|, x)
    decreases |scores|
  {
    if scores != map[] {
      var k :| k in scores;
      SumTakesOut(scores, k);
      SizeWithout(scores, k);
      SumConstant(scores - {k}, x);
    }
  }

  lemma {:induction false} SumSubtracts<K>(differences: map<K, real>, a: map<K, real>, b: map<K, real>)
    requires a.Keys == b.Keys == differences.Keys
    requires forall k :: k in differences ==> differences[k] == a[k] - b[k]
    ensures SumValues(differences) == SumValues(a) - SumValues(b)
    decreases |a|
  {
    if a != map[] {
      var k :| k in a;
      SumTakesOut(differences, k);
      SumTakesOut(a, k);
      SumTakesOut(b, k);
      SizeWithout(a, k);
      SumSubtracts(differences - {k}, a - {k}, b - {k});
    }
  }

  lemma {:induction false} SumPositiveIff<K>(scores: map<K, real>)
    requires forall k :: k in scores ==> scores[k] >= 0.0
    ensures SumValues(scores) >= 0.0
    ensures SumValues(scores) > 0.0 <==> exists k :: k in scores && scores[k] > 0.0
    decreases |scores|
  {
    if scores != map[] {
      var k :| k in scores;
      SumTakesOut(scores, k);
      SizeWithout(scores, k);
      SumPositiveIff(scores - {k});
      assert forall j :: j in scores ==> j == k || (j in scores - {k} && (scores - {k})[j] == scores[j]);
    }
  }
}
