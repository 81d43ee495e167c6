/** Regrouping, membership and distinctness of sequences. */
module Sequences {

  lemma Regroup<T>(a: seq<T>, b: seq<T>, c: seq<T>)
    ensures a + (b + c) == a + b + c
  {}

  lemma Members<T>(a: seq<T>, c: seq<T>)
    ensures forall x :: x in a + c <==> x in a || x in c
  {}

  /** No element occurs twice. */
  ghost predicate Distinct<T>(s: seq<T>) {
    forall i, j :: 0 <= i < j < |s| ==> s[i] != s[j]
  }

  lemma DistinctSplit<T>(a: seq<T>, c: seq<T>)
    requires Distinct(a + c)
    ensures Distinct(a) && Distinct(c) && forall x :: x in a ==> x !in c
  {
    var bs := a + c;
    forall i, j | 0 <= i < j < |a| ensures a[i] != a[j] {
      assert bs[i] == a[i] && bs[j] == a[j];
    }
    forall i, j | 0 <= i < j < |c| ensures c[i] != c[j] {
      assert bs[|a| + i] == c[i] && bs[|a| + j] == c[j];
    }
    forall i, j | 0 <= i < |a| && 0 <= j < |c| ensures a[i] != c[j] {
      assert bs[i] == a[i] && bs[|a| + j] == c[j];
    }
  }

  lemma DistinctJoin<T>(a: seq<T>, c: seq<T>)
    requires Distinct(a) && Distinct(c) && forall x :: x in a ==> x !in c
    ensures Distinct(a + c)
  {
    var bs := a + c;
    forall i, j | 0 <= i < j < |bs| ensures bs[i] != bs[j] {
      if j < |a| {
        assert bs[i] == a[i] && bs[j] == a[j];
      } else if i >= |a| {
        assert bs[i] == c[i - |a|] && bs[j] == c[j - |a|];
      } else {
        assert bs[i] == a[i] && bs[j] == c[j - |a|];
        assert a[i] in a && c[j - |a|] in c;
      }
    }
  }

  lemma OthersAreOthers<T>(s: seq<T>)
    requires Distinct(s) && s != []
    ensures forall i :: 0 < i < |s| ==> s[i] != s[0]
    ensures forall i :: 0 <= i < |s| - 1 ==> s[i] != s[|s| - 1]
  {}

  lemma DistinctMeans<T>(s: seq<T>)
    requires Distinct(s)
    ensures forall i, j :: 0 <= i < j < |s| ==> s[i] != s[j]
  {}

  lemma DistinctMore<T>(s: seq<T>, x: T)
    requires Distinct(s) && x !in s
    ensures Distinct([x] + s) && Distinct(s + [x])
  {}

  lemma DistinctLess<T>(s: seq<T>)
    requires Distinct(s) && s != []
    ensures Distinct(s[1..]) && Distinct(s[..|s| - 1])
    ensures s[0] !in s[1..] && s[|s| - 1] !in s[..|s| - 1]
  {}
}
