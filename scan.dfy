/**
 * `nativeFind` and `nativeFindOne`, run sequentially over one prefix scan.
 *
 * The scan is a parameter: the keys the iterator visits, in its order.
 * Each is looked up in the transaction's store, decoded, matched and
 * projected; the results are then sorted and windowed by skip and limit.
 */
module Scan {
  import opened Wrappers
  import opened Values
  import opened Store
  import opened Collections
  import opened Filters
  import opened Projection

  /** `SortField`: `Order == 1` is ascending, any other order descending. */
  datatype SortField = SortField(field: string, order: int)

  datatype FindOptions = FindOptions(skip: int, limit: int, sort: seq<SortField>, select: Select)

  /** The options used when none are given. */
  const NoOptions := FindOptions(0, 0, [], map[])

  /** The scan visits keys of the store only. */
  ghost predicate InStore(s: Store, scan: seq<Key>)
  {
    forall i :: 0 <= i < |scan| ==> scan[i] in s
  }

  /** The scan of collection `name`: exactly the keys under its prefix. */
  ghost predicate ScanOf(s: Store, scan: seq<Key>, name: string)
  {
    InStore(s, scan) &&
    (forall i :: 0 <= i < |scan| ==> InPrefix(scan[i], name)) &&
    (forall k :: k in s && InPrefix(k, name) ==> k in scan)
  }

  /** What one processed key yields: its decoded document when it matches and its projection is non-empty. */
  function Yield(re: Matcher, r: Record, filter: Filter, sel: Select): seq<Doc>
  {
    match Decode(r)
    case None => []
    case Some(doc) =>
      if Match(re, doc, filter) && |Project(doc, sel, "")| > 0 then [Project(doc, sel, "")] else []
  }

  /** The documents gathered from `scan`, in scan order; a key seen before yields nothing again. */
  function Collect(re: Matcher, s: Store, scan: seq<Key>, filter: Filter, sel: Select): seq<Doc>
    requires InStore(s, scan)
  {
    if scan == [] then []
    else
      var prev := scan[..|scan| - 1];
      var k := scan[|scan| - 1];
      Collect(re, s, prev, filter, sel) + (if k in prev then [] else Yield(re, s[k], filter, sel))
  }

  /** Lexicographic order of strings, code point by code point. */
  predicate StrLess(a: string, b: string)
  {
    if a == [] then b != []
    else if b == [] then false
    else if a[0] != b[0] then a[0] < b[0]
    else StrLess(a[1..], b[1..])
  }

  /**
   * The comparison of two present values in a sort comparator.  Only
   * strings, integers, numbers and times are ordered, each against its own
   * kind; descending times compare with "after or equal".  Every other
   * pairing answers false.
   */
  predicate ValueLess(x: Value, y: Value, ascending: bool)
  {
    match (x, y)
    case (Str(a), Str(b)) => if ascending then StrLess(a, b) else StrLess(b, a)
    case (Int(a), Int(b)) => if ascending then a < b else a > b
    case (Float(a), Float(b)) => if ascending then a < b else a > b
    case (Time(a), Time(b)) => if ascending then a < b else a >= b
    case _ => false
  }

  /** The `less` function handed to the sort: the sort fields in turn, a field missing on both skipped. */
  predicate SortLess(a: Doc, b: Doc, fields: seq<SortField>)
  {
    if fields == [] then false
    else
      var keys := Split(fields[0].field);
      var va := GetNestedValue(Obj(a), keys);
      var vb := GetNestedValue(Obj(b), keys);
      if va.None? && vb.None? then SortLess(a, b, fields[1..])
      else if va.None? then fields[0].order == 1
      else if vb.None? then fields[0].order != 1
      else ValueLess(va.value, vb.value, fields[0].order == 1)
  }

  /** Insert `x` before the first element it is less than. */
  function InsertSorted(x: Doc, s: seq<Doc>, fields: seq<SortField>): seq<Doc>
  {
    if s == [] then [x]
    else if SortLess(x, s[0], fields) then [x] + s
    else [s[0]] + InsertSorted(x, s[1..], fields)
  }

  /** The order the sort is taken to produce: an insertion sort by `SortLess`. */
  function SortDocs(xs: seq<Doc>, fields: seq<SortField>): seq<Doc>
  {
    if xs == [] then [] else InsertSorted(xs[0], SortDocs(xs[1..], fields), fields)
  }

  /** The window that skip and limit leave: from the skip offset, at most `limit` long when `limit > 0`. */
  function Window<T>(xs: seq<T>, skip: int, limit: int): seq<T>
  {
    var lo := if skip <= 0 then 0 else if skip < |xs| then skip else |xs|;
    var hi := if limit > 0 && lo + limit < |xs| then lo + limit else |xs|;
    xs[lo..hi]
  }

  /** Apply skip, then limit, re-slicing the results. */
  method Paginate(results: seq<Doc>, skip: int, limit: int) returns (page: seq<Doc>)
    ensures page == Window(results, skip, limit)
  {
    page := results;
    if skip > 0 {
      if skip >= |page| {
        return [];
      }
      page := page[skip..];
    }
    if limit > 0 && limit < |page| {
      page := page[..limit];
    }
  }

  /** The ordering step: the results are sorted only when sort fields are given. */
  function Ordered(xs: seq<Doc>, fields: seq<SortField>): seq<Doc>
  {
    if |fields| > 0 then SortDocs(xs, fields) else xs
  }

  /** One more key of the scan adds what it yields, unless it was visited before. */
  lemma CollectStep(re: Matcher, s: Store, scan: seq<Key>, i: nat, filter: Filter, sel: Select)
    requires InStore(s, scan) && i < |scan|
    ensures InStore(s, scan[..i]) && InStore(s, scan[..i + 1])
    ensures Collect(re, s, scan[..i + 1], filter, sel) ==
      Collect(re, s, scan[..i], filter, sel) + (if scan[i] in scan[..i] then [] else Yield(re, s[scan[i]], filter, sel))
    ensures forall k :: k in scan[..i + 1] <==> k in scan[..i] || k == scan[i]
  {
    assert scan[..i + 1][..i] == scan[..i];
    assert scan[..i + 1] == scan[..i] + [scan[i]];
  }

  /** `nativeFind`, with the first of the variadic options (or no options) as `opts`. */
  method NativeFind(re: Matcher, s: Store, scan: seq<Key>, filter: Filter, opts: FindOptions)
    returns (results: seq<Doc>)
    requires InStore(s, scan)
    ensures results == Window(Ordered(Collect(re, s, scan, filter, opts.select), opts.sort), opts.skip, opts.limit)
  {
    results := Gather(re, s, scan, filter, opts.select);
    if |opts.sort| > 0 {
      results := SortDocs(results, opts.sort);
    }
    results := Paginate(results, opts.skip, opts.limit);
  }

  /** The iteration of `nativeFind`: decode, skip processed keys, match and project. */
  method Gather(re: Matcher, s: Store, scan: seq<Key>, filter: Filter, sel: Select) returns (results: seq<Doc>)
    requires InStore(s, scan)
    ensures results == Collect(re, s, scan, filter, sel)
  {
    results := [];
    var processed: set<Key> := {};
    var i := 0;
    while i < |scan|
      invariant 0 <= i <= |scan|
      invariant results == Collect(re, s, scan[..i], filter, sel)
      invariant forall k :: k in processed <==> k in scan[..i] && Decode(s[k]).Some?
    {
      var key := scan[i];
      CollectStep(re, s, scan, i, filter, sel);
      ghost var before := results;
      var decoded := Decode(s[key]);
      if decoded.Some? && key !in processed {
        processed := processed + {key};
        var hit := Visit(re, decoded.value, filter, sel);
        results := results + hit;
      }
      assert results == before + (if key in scan[..i] then [] else Yield(re, s[key], filter, sel));
      i := i + 1;
    }
    assert scan[..|scan|] == scan;
  }

  /** One unprocessed document: matched, then projected, then kept unless the projection is empty. */
  method Visit(re: Matcher, doc: Doc, filter: Filter, sel: Select) returns (hit: seq<Doc>)
    ensures hit == Yield(re, Encoded(doc), filter, sel)
  {
    hit := [];
    if Match(re, doc, filter) {
      var selected := RemoveExcludedFields(doc, sel, "");
      if |selected| > 0 {
        hit := [selected];
      }
    }
  }

  /** The key decodes to a document that matches the filter. */
  predicate Hit(re: Matcher, r: Record, filter: Filter)
  {
    Decode(r).Some? && Match(re, Decode(r).value, filter)
  }

  /** The first decodable matching document of the scan, if any. */
  function FirstHit(re: Matcher, s: Store, scan: seq<Key>, filter: Filter): (r: Option<Doc>)
    requires InStore(s, scan)
    ensures r.Some? ==> Match(re, r.value, filter)
  {
    if scan == [] then None
    else if Hit(re, s[scan[0]], filter) then Decode(s[scan[0]])
    else FirstHit(re, s, scan[1..], filter)
  }

  /** `nativeFindOne`, in scan order: the first decodable matching document, unprojected. */
  method NativeFindOne(re: Matcher, s: Store, scan: seq<Key>, filter: Filter) returns (found: bool, doc: Doc)
    requires InStore(s, scan)
    ensures found <==> exists i :: 0 <= i < |scan| && Hit(re, s[scan[i]], filter)
    ensures found ==> Match(re, doc, filter)
    ensures found ==> exists i :: 0 <= i < |scan| && Hit(re, s[scan[i]], filter) && Decode(s[scan[i]]) == Some(doc) &&
                        forall j :: 0 <= j < i ==> !Hit(re, s[scan[j]], filter)
    ensures !found ==> doc == map[]
    ensures found == FirstHit(re, s, scan, filter).Some? && (found ==> doc == FirstHit(re, s, scan, filter).value)
  {
    found := false;
    doc := map[];
    var i := 0;
    while i < |scan|
      invariant 0 <= i <= |scan|
      invariant forall j :: 0 <= j < i ==> !Hit(re, s[scan[j]], filter)
      invariant doc == map[]
      invariant FirstHit(re, s, scan, filter) == FirstHit(re, s, scan[i..], filter)
    {
      var decoded := Decode(s[scan[i]]);
      if decoded.Some? && Match(re, decoded.value, filter) {
        return true, decoded.value;
      }
      assert scan[i..][1..] == scan[i + 1..];
      i := i + 1;
    }
  }
}
