/** owl-db-utils: order-preserving removal of duplicates. */
module Utils {

  /** The first occurrences of the elements of `s`, in input order. */
  function Dedup<T(==)>(s: seq<T>): seq<T>
  {
    if s == [] then []
    else
      var r := Dedup(s[..|s| - 1]);
      if s[|s| - 1] in r then r else r + [s[|s| - 1]]
  }

  ghost predicate NoDuplicates<T>(s: seq<T>)
  {
    forall i, j :: 0 <= i < j < |s| ==> s[i] != s[j]
  }

  /** Index of the first occurrence of `x` in `s`. */
  function FirstIndex<T(==)>(s: seq<T>, x: T): (i: nat)
    requires x in s
    ensures i < |s| && s[i] == x && x !in s[..i]
  {
    if s[0] == x then 0 else 1 + FirstIndex(s[1..], x)
  }

  /** Loop over `arr`, keeping each value the first time it is seen. */
  method RemoveDuplicates<T(==)>(arr: seq<T>) returns (result: seq<T>)
    ensures result == Dedup(arr)
    ensures NoDuplicates(result)
    ensures forall x :: x in result <==> x in arr
  {
    var unique: set<T> := {};
    result := [];
    var i := 0;
    while i < |arr|
      invariant 0 <= i <= |arr|
      invariant result == Dedup(arr[..i])
      invariant unique == set x | x in result
      invariant NoDuplicates(result)
      invariant forall x :: x in result <==> x in arr[..i]
    {
      var v := arr[i];
      assert arr[..i + 1][..i] == arr[..i];
      if v !in unique {
        unique := unique + {v};
        result := result + [v];
      }
      i := i + 1;
    }
    assert arr[..|arr|] == arr;
  }

  /** The deduplicated sequence has the same elements, each once. */
  lemma {:induction false} DedupElements<T>(s: seq<T>)
    ensures NoDuplicates(Dedup(s))
    ensures forall x :: x in Dedup(s) <==> x in s
    ensures |Dedup(s)| <= |s|
  {
    if s != [] {
      var p := s[..|s| - 1];
      DedupElements(p);
      assert s == p + [s[|s| - 1]];
    }
  }

  /** Elements keep the order of their first occurrences in the input. */
  lemma DedupFirstOccurrenceOrder<T>(s: seq<T>)
    ensures forall a :: 0 <= a < |Dedup(s)| ==> Dedup(s)[a] in s
    ensures forall a, b :: 0 <= a < b < |Dedup(s)| ==>
      FirstIndex(s, Dedup(s)[a]) < FirstIndex(s, Dedup(s)[b])
  {
    forall a | 0 <= a < |Dedup(s)| ensures Dedup(s)[a] in s {
      DedupIn(s, a);
    }
    forall a, b | 0 <= a < b < |Dedup(s)|
      ensures FirstIndex(s, Dedup(s)[a]) < FirstIndex(s, Dedup(s)[b])
    {
      DedupOrderAt(s, a, b);
    }
  }

  lemma {:induction false} DedupOrderAt<T>(s: seq<T>, a: nat, b: nat)
    requires a < b < |Dedup(s)|
    ensures Dedup(s)[a] in s && Dedup(s)[b] in s
    ensures FirstIndex(s, Dedup(s)[a]) < FirstIndex(s, Dedup(s)[b])
  {
    var p := s[..|s| - 1];
    var x := s[|s| - 1];
    DedupElements(p);
    assert s == p + [x];
    var q := Dedup(p);
    var r := Dedup(s);
    assert r == q || r == q + [x];
    DedupIn(p, a);
    FirstIndexPrefix(p, x, q[a]);
    if b < |q| {
      DedupIn(p, b);
      FirstIndexPrefix(p, x, q[b]);
      DedupOrderAt(p, a, b);
    } else {
      assert r == q + [x] && x !in q && r[b] == x;
      FirstIndexLast(p, x);
    }
  }

  lemma DedupIn<T>(s: seq<T>, i: nat)
    requires i < |Dedup(s)|
    ensures Dedup(s)[i] in s
  {
    DedupElements(s);
    assert Dedup(s)[i] in Dedup(s);
  }

  lemma {:induction false} FirstIndexPrefix<T>(p: seq<T>, x: T, y: T)
    requires y in p
    ensures y in p + [x] && FirstIndex(p + [x], y) == FirstIndex(p, y)
  {
    if p[0] != y {
      assert (p + [x])[1..] == p[1..] + [x];
      FirstIndexPrefix(p[1..], x, y);
    }
  }

  lemma {:induction false} FirstIndexLast<T>(p: seq<T>, x: T)
    requires x !in p
    ensures x in p + [x] && FirstIndex(p + [x], x) == |p|
  {
    if p != [] {
      assert (p + [x])[1..] == p[1..] + [x];
      FirstIndexLast(p[1..], x);
    }
  }

  /** Applying the deduplication twice changes nothing. */
  lemma {:induction false} DedupIdempotent<T>(s: seq<T>)
    ensures Dedup(Dedup(s)) == Dedup(s)
  {
    DedupElements(s);
    DedupOfDistinct(Dedup(s));
  }

  /** A sequence without duplicates is its own deduplication. */
  lemma {:induction false} DedupOfDistinct<T>(s: seq<T>)
    requires NoDuplicates(s)
    ensures Dedup(s) == s
  {
    if s != [] {
      var p := s[..|s| - 1];
      assert NoDuplicates(p);
      DedupOfDistinct(p);
      assert s[|s| - 1] !in p;
      assert p + [s[|s| - 1]] == s;
    }
  }
}
