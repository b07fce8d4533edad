/** What a scan yields, how the comparator orders, and what skip and limit keep. */
module ScanLaws {
  import opened Wrappers
  import opened Values
  import opened Store
  import opened Collections
  import opened Filters
  import opened Projection
  import opened Scan
  import Utils

  /** Processing keys without remembering any: what the scan yields when no key repeats. */
  function Process(re: Matcher, s: Store, keys: seq<Key>, filter: Filter, sel: Select): seq<Doc>
    requires InStore(s, keys)
  {
    if keys == [] then []
    else Process(re, s, keys[..|keys| - 1], filter, sel) + Yield(re, s[keys[|keys| - 1]], filter, sel)
  }

  /** The processed set makes the scan yield what its distinct keys yield, each key once, in first-visit order. */
  lemma {:induction false} CollectIsDistinctKeys(re: Matcher, s: Store, scan: seq<Key>, filter: Filter, sel: Select)
    requires InStore(s, scan)
    ensures InStore(s, Utils.Dedup(scan))
    ensures Collect(re, s, scan, filter, sel) == Process(re, s, Utils.Dedup(scan), filter, sel)
  {
    Utils.DedupElements(scan);
    assert forall i :: 0 <= i < |Utils.Dedup(scan)| ==> Utils.Dedup(scan)[i] in Utils.Dedup(scan);
    if scan != [] {
      var p := scan[..|scan| - 1];
      var k := scan[|scan| - 1];
      assert InStore(s, p);
      CollectIsDistinctKeys(re, s, p, filter, sel);
      Utils.DedupElements(p);
      var q := Utils.Dedup(p);
      if k !in p {
        assert Utils.Dedup(scan) == q + [k];
        assert (q + [k])[..|q + [k]| - 1] == q;
      }
    }
  }

  /** A document is yielded by a record exactly when the record decodes to a matching document that projects to it and is non-empty. */
  lemma YieldMeans(re: Matcher, r: Record, filter: Filter, sel: Select, d: Doc)
    ensures d in Yield(re, r, filter, sel) <==>
      r.Encoded? && Match(re, r.doc, filter) && d == Project(r.doc, sel, "") && |d| > 0
  {
  }

  /** The gathered documents are exactly the yields of the visited keys. */
  lemma {:induction false} CollectMembers(re: Matcher, s: Store, scan: seq<Key>, filter: Filter, sel: Select, d: Doc)
    requires InStore(s, scan)
    ensures d in Collect(re, s, scan, filter, sel) <==> exists i :: 0 <= i < |scan| && d in Yield(re, s[scan[i]], filter, sel)
  {
    if scan != [] {
      var p := scan[..|scan| - 1];
      var k := scan[|scan| - 1];
      assert InStore(s, p);
      CollectMembers(re, s, p, filter, sel, d);
      var last := if k in p then [] else Yield(re, s[k], filter, sel);
      assert Collect(re, s, scan, filter, sel) == Collect(re, s, p, filter, sel) + last;
      assert forall i :: 0 <= i < |p| ==> p[i] == scan[i];
      if d in last {
        assert scan[|scan| - 1] == k;
      }
      if exists i :: 0 <= i < |scan| && d in Yield(re, s[scan[i]], filter, sel) {
        var i :| 0 <= i < |scan| && d in Yield(re, s[scan[i]], filter, sel);
        if i == |p| && k in p {
          var j :| 0 <= j < |p| && p[j] == k;
          assert d in Yield(re, s[p[j]], filter, sel);
        }
      }
    }
  }

  /**
   * Over the scan of a collection, a document is found exactly when some
   * key under the collection's prefix holds an encoded document that
   * matches the filter and projects to it, non-empty.  Raw records (index
   * entries, undecodable values) are skipped.
   */
  lemma FoundExactly(re: Matcher, s: Store, scan: seq<Key>, name: string, filter: Filter, sel: Select, d: Doc)
    requires ScanOf(s, scan, name)
    ensures d in Collect(re, s, scan, filter, sel) <==>
      exists k :: k in s && InPrefix(k, name) && s[k].Encoded? && Match(re, s[k].doc, filter) &&
                  d == Project(s[k].doc, sel, "") && |d| > 0
  {
    CollectMembers(re, s, scan, filter, sel, d);
    if d in Collect(re, s, scan, filter, sel) {
      var i :| 0 <= i < |scan| && d in Yield(re, s[scan[i]], filter, sel);
      YieldMeans(re, s[scan[i]], filter, sel, d);
    }
    if exists k :: k in s && InPrefix(k, name) && s[k].Encoded? && Match(re, s[k].doc, filter) &&
                  d == Project(s[k].doc, sel, "") && |d| > 0 {
      var k :| k in s && InPrefix(k, name) && s[k].Encoded? && Match(re, s[k].doc, filter) &&
               d == Project(s[k].doc, sel, "") && |d| > 0;
      var i :| 0 <= i < |scan| && scan[i] == k;
      YieldMeans(re, s[k], filter, sel, d);
    }
  }

  /** No more documents than distinct keys visited. */
  lemma {:induction false} CollectBounded(re: Matcher, s: Store, scan: seq<Key>, filter: Filter, sel: Select)
    requires InStore(s, scan)
    ensures |Collect(re, s, scan, filter, sel)| <= |Utils.Dedup(scan)|
  {
    CollectIsDistinctKeys(re, s, scan, filter, sel);
    ProcessBounded(re, s, Utils.Dedup(scan), filter, sel);
  }

  lemma {:induction false} ProcessBounded(re: Matcher, s: Store, keys: seq<Key>, filter: Filter, sel: Select)
    requires InStore(s, keys)
    ensures |Process(re, s, keys, filter, sel)| <= |keys|
  {
    if keys != [] {
      assert InStore(s, keys[..|keys| - 1]);
      ProcessBounded(re, s, keys[..|keys| - 1], filter, sel);
    }
  }

  // ---- skip and limit

  /** A skip at or past the end leaves nothing. */
  lemma SkipPastEnd<T>(xs: seq<T>, skip: int, limit: int)
    requires skip > 0 && skip >= |xs|
    ensures Window(xs, skip, limit) == []
  {
  }

  /** A positive skip drops the first `skip` results, and the kept ones keep their order. */
  lemma SkipDrops<T>(xs: seq<T>, skip: int, limit: int)
    requires 0 < skip < |xs|
    ensures Window(xs, skip, limit) == Window(xs[skip..], 0, limit)
    ensures forall i :: 0 <= i < |Window(xs, skip, limit)| ==> Window(xs, skip, limit)[i] == xs[skip + i]
  {
  }

  /** With a positive limit and no more skipped than there are results, the window has `min(limit, len - skip)` results. */
  lemma WindowLength<T>(xs: seq<T>, skip: int, limit: int)
    requires skip <= |xs| && limit > 0
    ensures var rest := if skip > 0 then |xs| - skip else |xs|;
      |Window(xs, skip, limit)| == if limit < rest then limit else rest
  {
  }

  /** A limit of zero or less is no limit. */
  lemma NoLimit<T>(xs: seq<T>, skip: int, limit: int)
    requires limit <= 0 && skip <= 0
    ensures Window(xs, skip, limit) == xs
  {
  }

  /** With no options, the search returns every gathered document, in scan order. */
  lemma NoOptionsKeepsAll(xs: seq<Doc>)
    ensures Window(Ordered(xs, NoOptions.sort), NoOptions.skip, NoOptions.limit) == xs
  {
  }

  // ---- the comparator

  /** The sort fields look up values with `getNestedValue`. */
  function SortValue(d: Doc, f: SortField): Option<Value>
  {
    GetNestedValue(Obj(d), Split(f.field))
  }

  /**
   * A field missing on both documents passes to the next field; a document
   * missing a field sorts before one that has it when ascending, after it
   * when descending.
   */
  lemma MissingValues(a: Doc, b: Doc, f: SortField, rest: seq<SortField>)
    ensures SortValue(a, f).None? && SortValue(b, f).None? ==>
      (SortLess(a, b, [f] + rest) <==> SortLess(a, b, rest))
    ensures SortValue(a, f).None? && SortValue(b, f).Some? && f.order == 1 ==>
      SortLess(a, b, [f] + rest) && !SortLess(b, a, [f] + rest)
    ensures SortValue(a, f).None? && SortValue(b, f).Some? && f.order != 1 ==>
      !SortLess(a, b, [f] + rest) && SortLess(b, a, [f] + rest)
  {
    assert ([f] + rest)[0] == f && ([f] + rest)[1..] == rest;
  }

  /**
   * The first field present on both documents decides: the later fields are
   * never consulted, even when the two values are equal.
   */
  lemma FirstPresentFieldDecides(a: Doc, b: Doc, f: SortField, rest: seq<SortField>)
    requires SortValue(a, f).Some? && SortValue(b, f).Some?
    ensures SortLess(a, b, [f] + rest) <==> ValueLess(SortValue(a, f).value, SortValue(b, f).value, f.order == 1)
    ensures SortLess(a, b, [f] + rest) <==> SortLess(a, b, [f])
  {
    assert ([f] + rest)[0] == f && ([f] + rest)[1..] == rest;
    assert [f][0] == f && [f][1..] == [];
  }

  /** Equal present values are never "less", except for times sorted descending, where each is less than itself. */
  lemma EqualValues(a: Doc, b: Doc, f: SortField, rest: seq<SortField>)
    requires SortValue(a, f).Some? && SortValue(a, f) == SortValue(b, f)
    ensures SortValue(a, f).value.Time? && f.order != 1 ==> SortLess(a, b, [f] + rest)
    ensures !(SortValue(a, f).value.Time? && f.order != 1) ==> !SortLess(a, b, [f] + rest)
  {
    FirstPresentFieldDecides(a, b, f, rest);
    var v := SortValue(a, f).value;
    if v.Str? {
      StrLessIrreflexive(v.s);
    }
  }

  lemma {:induction false} StrLessIrreflexive(a: string)
    ensures !StrLess(a, a)
  {
    if a != [] {
      StrLessIrreflexive(a[1..]);
    }
  }

  // ---- the sort

  predicate Sorted(r: seq<Doc>, fields: seq<SortField>)
  {
    forall i, j :: 0 <= i < j < |r| ==> !SortLess(r[j], r[i], fields)
  }

  /** The comparator is a strict order on the documents of `xs`. */
  ghost predicate StrictOn(xs: seq<Doc>, fields: seq<SortField>)
  {
    (forall a :: a in xs ==> !SortLess(a, a, fields)) &&
    (forall a, b, c :: a in xs && b in xs && c in xs && SortLess(a, b, fields) && SortLess(b, c, fields) ==>
       SortLess(a, c, fields))
  }

  lemma {:induction false} InsertSortedPermutation(x: Doc, s: seq<Doc>, fields: seq<SortField>)
    ensures multiset(InsertSorted(x, s, fields)) == multiset([x] + s)
  {
    if s != [] && !SortLess(x, s[0], fields) {
      InsertSortedPermutation(x, s[1..], fields);
      assert s == [s[0]] + s[1..];
    }
  }

  /** The sort returns a permutation of the results. */
  lemma {:induction false} SortDocsPermutation(xs: seq<Doc>, fields: seq<SortField>)
    ensures multiset(SortDocs(xs, fields)) == multiset(xs)
  {
    if xs != [] {
      SortDocsPermutation(xs[1..], fields);
      InsertSortedPermutation(xs[0], SortDocs(xs[1..], fields), fields);
      assert xs == [xs[0]] + xs[1..];
    }
  }

  /** Putting in front a document that nothing after it is less than keeps the order. */
  lemma SortedCons(y: Doc, u: seq<Doc>, fields: seq<SortField>)
    requires Sorted(u, fields)
    requires forall k :: 0 <= k < |u| ==> !SortLess(u[k], y, fields)
    ensures Sorted([y] + u, fields)
  {
    var r := [y] + u;
    forall i, j | 0 <= i < j < |r| ensures !SortLess(r[j], r[i], fields) {
      assert r[j] == u[j - 1];
      if i > 0 {
        assert r[i] == u[i - 1];
      }
    }
  }

  lemma {:induction false} InsertSortedSorted(x: Doc, s: seq<Doc>, fields: seq<SortField>)
    requires Sorted(s, fields) && StrictOn([x] + s, fields)
    ensures Sorted(InsertSorted(x, s, fields), fields)
  {
    if s == [] {
    } else if SortLess(x, s[0], fields) {
      assert x in [x] + s && s[0] in [x] + s;
      forall k | 0 <= k < |s| ensures !SortLess(s[k], x, fields) {
        assert s[k] in [x] + s;
        if k > 0 {
          assert !SortLess(s[k], s[0], fields);
        }
      }
      SortedCons(x, s, fields);
    } else {
      var t := s[1..];
      assert Sorted(t, fields) by {
        forall i, j | 0 <= i < j < |t| ensures !SortLess(t[j], t[i], fields) {
          assert t[i] == s[i + 1] && t[j] == s[j + 1];
        }
      }
      assert forall y :: y in [x] + t ==> y in [x] + s;
      InsertSortedSorted(x, t, fields);
      InsertSortedPermutation(x, t, fields);
      var u := InsertSorted(x, t, fields);
      forall k | 0 <= k < |u| ensures !SortLess(u[k], s[0], fields) {
        assert u[k] in multiset([x] + t);
        if u[k] != x {
          assert u[k] in t;
          var m :| 0 <= m < |t| && t[m] == u[k];
          assert s[m + 1] == u[k];
        }
      }
      SortedCons(s[0], u, fields);
    }
  }

  /** Whenever the comparator is a strict order on the results, the sort orders them by it. */
  lemma {:induction false} SortDocsSorted(xs: seq<Doc>, fields: seq<SortField>)
    requires StrictOn(xs, fields)
    ensures Sorted(SortDocs(xs, fields), fields)
  {
    if xs != [] {
      var t := xs[1..];
      assert forall y :: y in t ==> y in xs;
      SortDocsSorted(t, fields);
      SortDocsPermutation(t, fields);
      var st := SortDocs(t, fields);
      forall y | y in [xs[0]] + st ensures y in xs {
        if y != xs[0] {
          assert y in multiset(st);
          assert y in t;
        }
      }
      InsertSortedSorted(xs[0], st, fields);
    }
  }

  /** The number at `f`; zero where there is none. */
  function NumberAt(d: Doc, f: string): real
  {
    var v := GetNestedValue(Obj(d), Split(f));
    if v.Some? && v.value.Float? then v.value.f else 0.0
  }

  /** Sorting ascending by a field that every result holds as a number orders the results by that number. */
  lemma SortByNumberAscending(xs: seq<Doc>, f: string)
    requires forall d :: d in xs ==> SortValue(d, SortField(f, 1)).Some? && SortValue(d, SortField(f, 1)).value.Float?
    ensures multiset(SortDocs(xs, [SortField(f, 1)])) == multiset(xs)
    ensures var r := SortDocs(xs, [SortField(f, 1)]);
      forall i, j :: 0 <= i < j < |r| ==> NumberAt(r[i], f) <= NumberAt(r[j], f)
  {
    var fields := [SortField(f, 1)];
    assert fields[0] == SortField(f, 1) && fields[1..] == [];
    forall a, b | a in xs && b in xs ensures SortLess(a, b, fields) <==> NumberAt(a, f) < NumberAt(b, f) {
    }
    SortDocsSorted(xs, fields);
    SortDocsPermutation(xs, fields);
    var r := SortDocs(xs, fields);
    forall i, j | 0 <= i < j < |r| ensures NumberAt(r[i], f) <= NumberAt(r[j], f) {
      assert r[i] in multiset(xs) && r[j] in multiset(xs);
      assert !SortLess(r[j], r[i], fields);
    }
  }
}
