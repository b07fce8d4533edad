/**
 * A collection's configuration, as `NewCollection` builds it, and the two
 * lookups of indexed fields that it defines.
 */
module Collections {
  import opened Wrappers
  import opened Values
  import Store
  import Utils

  datatype CollectionOptions = CollectionOptions(timestamp: bool, indexes: seq<string>, edgeLabels: seq<string>)

  /** A collection never changes after it is built; only the database it points to does. */
  datatype Collection = Collection(
    db: Store.Db,
    name: string,
    indexes: seq<string>,
    timestamp: bool,
    edgeLabels: seq<string>,
    edgePrefix: string)

  /** Only the first of the variadic options is looked at; index and edge lists lose their duplicates. */
  method NewCollection(db: Store.Db, name: string, opts: seq<CollectionOptions>) returns (c: Collection)
    ensures c.db == db && c.name == name
    ensures c.edgePrefix == "e:" + name + ":"
    ensures |opts| == 0 ==> !c.timestamp && c.indexes == [] && c.edgeLabels == []
    ensures |opts| > 0 ==> c.timestamp == opts[0].timestamp
    ensures |opts| > 0 ==> c.indexes == Utils.Dedup(opts[0].indexes) && c.edgeLabels == Utils.Dedup(opts[0].edgeLabels)
    ensures Utils.NoDuplicates(c.indexes) && Utils.NoDuplicates(c.edgeLabels)
  {
    var timestamp := false;
    var indexes: seq<string> := [];
    var edgeLabels: seq<string> := [];
    if |opts| > 0 {
      timestamp := opts[0].timestamp;
      indexes := Utils.RemoveDuplicates(opts[0].indexes);
      edgeLabels := Utils.RemoveDuplicates(opts[0].edgeLabels);
    }
    c := Collection(db, name, indexes, timestamp, edgeLabels, "e:" + name + ":");
  }

  /**
   * `getNestedValue`: walk `keys` down from `v`; every step needs an object
   * that holds the next key.
   */
  function GetNestedValue(v: Value, keys: seq<string>): (r: Option<Value>)
    ensures keys == [] ==> r == Some(v)
    ensures keys != [] && !v.Obj? ==> r == None
    ensures keys != [] && v.Obj? && keys[0] !in v.fields ==> r == None
    decreases keys
  {
    if keys == [] then Some(v)
    else match v
      case Obj(m) => if keys[0] in m then GetNestedValue(m[keys[0]], keys[1..]) else None
      case _ => None
  }

  /** Resolving a path in two parts resolves the first part, then the second from there. */
  lemma {:induction false} GetNestedValueAppend(v: Value, p: seq<string>, q: seq<string>)
    ensures GetNestedValue(v, p + q) ==
      (match GetNestedValue(v, p) case None => None case Some(w) => GetNestedValue(w, q))
    decreases p
  {
    if p == [] {
      assert p + q == q;
    } else {
      assert (p + q)[0] == p[0] && (p + q)[1..] == p[1..] + q;
      if v.Obj? && p[0] in v.fields {
        GetNestedValueAppend(v.fields[p[0]], p[1..], q);
      }
    }
  }

  /** The value at a dot path of a document, if the path exists. */
  function Lookup(doc: Doc, path: string): Option<Value>
  {
    GetNestedValue(Obj(doc), Split(path))
  }

  /** `getIndexableFields`, with the codec round trip taken as the identity. */
  function IndexableFields(doc: Doc, indexFields: seq<string>): map<string, Value>
  {
    map f | f in indexFields && Lookup(doc, f).Some? :: Lookup(doc, f).value
  }

  /** The loop of `getIndexableFields` that fills the map field by field. */
  method GetIndexableFields(doc: Doc, indexFields: seq<string>) returns (r: map<string, Value>)
    ensures forall f :: f in r <==> f in indexFields && Lookup(doc, f).Some?
    ensures forall f :: f in r ==> Lookup(doc, f) == Some(r[f])
    ensures r == IndexableFields(doc, indexFields)
  {
    r := map[];
    var i := 0;
    while i < |indexFields|
      invariant 0 <= i <= |indexFields|
      invariant forall f :: f in r <==> f in indexFields[..i] && Lookup(doc, f).Some?
      invariant forall f :: f in r ==> Lookup(doc, f) == Some(r[f])
    {
      var field := indexFields[i];
      var parts := Split(field);
      var value := GetNestedValue(Obj(doc), parts);
      if value.Some? {
        r := r[field := value.value];
      }
      assert indexFields[..i + 1] == indexFields[..i] + [field];
      i := i + 1;
    }
    assert indexFields[..i] == indexFields;
  }
}
