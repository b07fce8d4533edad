/** What filters mean: the combinators, the operators and the path lookup of the find side. */
module FilterLaws {
  import opened Wrappers
  import opened Values
  import opened Collections
  import opened Filters

  // ---------------------------------------------------------------------
  // Combinators

  lemma {:induction false} AllMatchIff(re: Matcher, doc: Doc, fs: seq<Filter>)
    ensures AllMatch(re, doc, fs) <==> forall i :: 0 <= i < |fs| ==> Match(re, doc, fs[i])
    decreases |fs|
  {
    if fs != [] {
      AllMatchIff(re, doc, fs[1..]);
      assert forall i :: 1 <= i < |fs| ==> fs[i] == fs[1..][i - 1];
    }
  }

  lemma {:induction false} AnyMatchIff(re: Matcher, doc: Doc, fs: seq<Filter>)
    ensures AnyMatch(re, doc, fs) <==> exists i :: 0 <= i < |fs| && Match(re, doc, fs[i])
    decreases |fs|
  {
    if fs != [] {
      AnyMatchIff(re, doc, fs[1..]);
      if AnyMatch(re, doc, fs[1..]) {
        var i :| 0 <= i < |fs[1..]| && Match(re, doc, fs[1..][i]);
        assert fs[i + 1] == fs[1..][i];
      }
      if exists i :: 0 <= i < |fs| && Match(re, doc, fs[i]) {
        var i :| 0 <= i < |fs| && Match(re, doc, fs[i]);
        if i > 0 {
          assert fs[1..][i - 1] == fs[i];
        }
      }
    }
  }

  /** `$and` needs every sub-filter, then the rest of the filter. */
  lemma AndEntry(re: Matcher, doc: Doc, fs: seq<Filter>, rest: seq<Entry>)
    ensures MatchEntries(re, doc, [Entry("$and", Subs(fs))] + rest) <==>
      (forall i :: 0 <= i < |fs| ==> Match(re, doc, fs[i])) && MatchEntries(re, doc, rest)
  {
    assert ([Entry("$and", Subs(fs))] + rest)[1..] == rest;
    AllMatchIff(re, doc, fs);
  }

  /** `$or` decides the whole filter: some sub-filter must match, and the rest is not looked at. */
  lemma OrEntry(re: Matcher, doc: Doc, fs: seq<Filter>, rest: seq<Entry>)
    ensures MatchEntries(re, doc, [Entry("$or", Subs(fs))] + rest) <==>
      exists i :: 0 <= i < |fs| && Match(re, doc, fs[i])
  {
    AnyMatchIff(re, doc, fs);
  }

  /** `$nor` decides the whole filter: no sub-filter may match, and the rest is not looked at. */
  lemma NorEntry(re: Matcher, doc: Doc, fs: seq<Filter>, rest: seq<Entry>)
    ensures MatchEntries(re, doc, [Entry("$nor", Subs(fs))] + rest) <==>
      forall i :: 0 <= i < |fs| ==> !Match(re, doc, fs[i])
  {
    AnyMatchIff(re, doc, fs);
  }

  /** A combinator whose payload is not a list of filters fails the whole filter. */
  lemma CombinatorNeedsList(re: Matcher, doc: Doc, c: string, a: Arg, rest: seq<Entry>)
    requires c == "$and" || c == "$or" || c == "$nor"
    requires !a.Subs?
    ensures !MatchEntries(re, doc, [Entry(c, a)] + rest)
  {
  }

  /** The truth table of the combinators over two filters, and their empty cases. */
  lemma CombinatorTruthTable(re: Matcher, doc: Doc, f1: Filter, f2: Filter)
    ensures Match(re, doc, Filter([Entry("$and", Subs([f1, f2]))])) <==> Match(re, doc, f1) && Match(re, doc, f2)
    ensures Match(re, doc, Filter([Entry("$or", Subs([f1, f2]))])) <==> Match(re, doc, f1) || Match(re, doc, f2)
    ensures Match(re, doc, Filter([Entry("$nor", Subs([f1, f2]))])) <==> !Match(re, doc, f1) && !Match(re, doc, f2)
    ensures !Match(re, doc, Filter([Entry("$or", Subs([]))]))
    ensures Match(re, doc, Filter([Entry("$nor", Subs([]))]))
  {
    var empty: seq<Entry> := [];
    var fs := [f1, f2];
    assert fs[0] == f1 && fs[1] == f2;
    assert [Entry("$and", Subs(fs))] == [Entry("$and", Subs(fs))] + empty;
    AndEntry(re, doc, fs, empty);
    assert (forall i :: 0 <= i < |fs| ==> Match(re, doc, fs[i])) <==> Match(re, doc, f1) && Match(re, doc, f2);
    assert [Entry("$or", Subs(fs))] == [Entry("$or", Subs(fs))] + empty;
    OrEntry(re, doc, fs, empty);
    assert (exists i :: 0 <= i < |fs| && Match(re, doc, fs[i])) <==> Match(re, doc, f1) || Match(re, doc, f2);
    assert [Entry("$nor", Subs(fs))] == [Entry("$nor", Subs(fs))] + empty;
    NorEntry(re, doc, fs, empty);
  }

  predicate IsCombinator(key: string)
  {
    key == "$and" || key == "$or" || key == "$nor"
  }

  /** A filter of field entries only matches iff every entry holds; in particular the empty filter matches every document. */
  lemma {:induction false} FieldEntries(re: Matcher, doc: Doc, entries: seq<Entry>)
    requires forall i :: 0 <= i < |entries| ==> !IsCombinator(entries[i].key)
    ensures MatchEntries(re, doc, entries) <==>
      forall i :: 0 <= i < |entries| ==> ApplyOperator(re, doc, entries[i].key, entries[i].arg)
    decreases |entries|
  {
    if entries != [] {
      assert !IsCombinator(entries[0].key);
      FieldEntries(re, doc, entries[1..]);
      assert forall i :: 1 <= i < |entries| ==> entries[i] == entries[1..][i - 1];
    }
  }

  // ---------------------------------------------------------------------
  // compare and the ordering operators

  /** On the pairs it orders, `compare` is antisymmetric and is zero exactly on equal values. */
  lemma CompareOrders(a: Value, b: Value)
    requires Comparable(a, b)
    ensures Compare(a, Some(b)) == -Compare(b, Some(a))
    ensures Compare(a, Some(b)) == 0 <==> a == b
  {
  }

  /** On the pairs it orders, "less" is transitive. */
  lemma CompareTransitive(a: Value, b: Value, c: Value)
    requires Comparable(a, b) && Comparable(b, c)
    requires Compare(a, Some(b)) < 0 && Compare(b, Some(c)) < 0
    ensures Comparable(a, c) && Compare(a, Some(c)) < 0
  {
  }

  /** A one-operator object. */
  function OpObject(op: string, operand: Value): Arg
  {
    Sub(Filter([Entry(op, Lit(operand))]))
  }

  /** Any pair `compare` does not order answers "less": `$lt` and `$lte` hold, `$gt` and `$gte` fail. */
  lemma IncomparableIsLess(re: Matcher, doc: Doc, field: string, b: Value)
    requires !Comparable(FindNested(doc, Split(field)), b)
    ensures ApplyOperator(re, doc, field, OpObject("$lt", b))
    ensures ApplyOperator(re, doc, field, OpObject("$lte", b))
    ensures !ApplyOperator(re, doc, field, OpObject("$gt", b))
    ensures !ApplyOperator(re, doc, field, OpObject("$gte", b))
  {
  }

  /** On numbers, the four ordering operators are the ordering of the reals. */
  lemma NumericOrdering(re: Matcher, doc: Doc, field: string, x: real, y: real)
    requires FindNested(doc, Split(field)) == Float(x)
    ensures ApplyOperator(re, doc, field, OpObject("$gt", Float(y))) <==> x > y
    ensures ApplyOperator(re, doc, field, OpObject("$gte", Float(y))) <==> x >= y
    ensures ApplyOperator(re, doc, field, OpObject("$lt", Float(y))) <==> x < y
    ensures ApplyOperator(re, doc, field, OpObject("$lte", Float(y))) <==> x <= y
  {
  }

  /** `{price: {$gt: 15}}` holds for price 20 and not for price 10. */
  lemma PriceExample(re: Matcher)
    ensures Match(re, map["price" := Float(20.0)], Filter([Entry("price", OpObject("$gt", Float(15.0)))]))
    ensures !Match(re, map["price" := Float(10.0)], Filter([Entry("price", OpObject("$gt", Float(15.0)))]))
  {
    Values.SplitNoDot("price");
    NumericOrdering(re, map["price" := Float(20.0)], "price", 20.0, 15.0);
    NumericOrdering(re, map["price" := Float(10.0)], "price", 10.0, 15.0);
  }

  // ---------------------------------------------------------------------
  // The other operators

  /** `$in` is membership in a list operand; without a list `$in` fails and `$nin` holds. */
  lemma InOperator(re: Matcher, doc: Doc, field: string, operand: Value)
    ensures ApplyOperator(re, doc, field, OpObject("$in", operand)) <==>
      operand.Arr? && exists i :: 0 <= i < |operand.elems| && operand.elems[i] == FindNested(doc, Split(field))
    ensures ApplyOperator(re, doc, field, OpObject("$nin", operand)) <==>
      !ApplyOperator(re, doc, field, OpObject("$in", operand))
    ensures !operand.Arr? ==> ApplyOperator(re, doc, field, OpObject("$nin", operand))
  {
  }

  /** `$exists b` compares presence (a non-null value) with `b`; `$ne` is negated equality. */
  lemma ExistsAndNe(re: Matcher, doc: Doc, field: string, operand: Value)
    ensures ApplyOperator(re, doc, field, OpObject("$exists", operand)) <==>
      operand == Bool(FindNested(doc, Split(field)) != Null)
    ensures ApplyOperator(re, doc, field, OpObject("$ne", operand)) <==>
      !ApplyOperator(re, doc, field, Lit(operand))
  {
  }

  /** `$not` negates its operand applied to the same field, whatever follows it in the operator object. */
  lemma NotOperator(re: Matcher, doc: Doc, field: string, x: Arg, more: seq<Entry>)
    ensures ApplyOperator(re, doc, field, Sub(Filter([Entry("$not", x)] + more))) <==>
      !ApplyOperator(re, doc, field, x)
  {
  }

  /** An empty operator object, or one led by an unknown operator, never holds. */
  lemma UnknownOperator(re: Matcher, doc: Doc, field: string, op: string, x: Arg, more: seq<Entry>)
    requires op !in {"$gt", "$lt", "$gte", "$lte", "$in", "$nin", "$ne", "$exists", "$type", "$regex", "$not"}
    ensures !ApplyOperator(re, doc, field, Sub(Filter([])))
    ensures !ApplyOperator(re, doc, field, Sub(Filter([Entry(op, x)] + more)))
  {
  }

  /** `$type` knows five names, each one kind; `$regex` needs a string field and a string pattern. */
  lemma TypeAndRegex(re: Matcher, v: Value, t: Value)
    ensures CheckType(v, Some(t)) ==> t.Str? && t.s in {"string", "int", "float", "bool", "time"}
    ensures CheckType(v, Some(Str("string"))) <==> v.Str?
    ensures CheckType(v, Some(Str("int"))) <==> v.Int?
    ensures CheckType(v, Some(Str("float"))) <==> v.Float?
    ensures CheckType(v, Some(Str("bool"))) <==> v.Bool?
    ensures CheckType(v, Some(Str("time"))) <==> v.Time?
    ensures ApplyRegex(re, v, Some(t)) ==> v.Str? && t.Str?
  {
  }

  // ---------------------------------------------------------------------
  // getFindNestedValue

  /** Where the path exists, the find-side lookup agrees with `getNestedValue`. */
  lemma {:induction false} FindNestedAgrees(m: Doc, keys: seq<string>, v: Value)
    requires GetNestedValue(Obj(m), keys) == Some(v)
    ensures FindNested(m, keys) == v
    decreases |keys|
  {
    if keys != [] {
      var w := m[keys[0]];
      if keys[1..] == [] {
        assert GetNestedValue(w, []) == Some(w);
      } else {
        assert w.Obj?;
        assert Obj(w.fields) == w;
        FindNestedAgrees(w.fields, keys[1..], v);
      }
    }
  }

  /** An absent field reads as `Null`, and a non-object segment answers for the rest of the path. */
  lemma FindNestedStops(m: Doc, k: string, rest: seq<string>)
    ensures k !in m ==> FindNested(m, [k] + rest) == Null
    ensures k in m && !m[k].Obj? ==> FindNested(m, [k] + rest) == m[k]
  {
    assert ([k] + rest)[0] == k;
  }

  /** `"a.b"` on `{a: 5}` gives 5. */
  lemma FindNestedExample()
    ensures FindNested(map["a" := Int(5)], Split("a.b")) == Int(5)
  {
    Values.SplitNoDot("b");
    Values.SplitPrefix("a", "b");
    FindNestedStops(map["a" := Int(5)], "a", ["b"]);
  }
}
