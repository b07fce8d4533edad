/** What the index reconciliation keeps true of the store, and where the key schemes part. */
module IndexLaws {
  import opened Wrappers
  import opened Values
  import opened Store
  import opened Collections
  import opened Updates
  import opened IndexMaintenance

  /**
   * The index entries of document `id` in `s` are exactly those of the
   * indexed values `fields`, each holding the document ID.
   */
  ghost predicate IndexedAs(s: Store, scheme: KeyScheme, name: string, id: string, fields: map<string, Value>)
  {
    (forall f, v :: IndexKey(scheme, name, f, v, id) in s <==> f in fields && fields[f] == v) &&
    (forall f :: f in fields ==> s[IndexKey(scheme, name, f, fields[f], id)] == Raw(id))
  }

  /**
   * When the reconciliation uses the key scheme the store's entries were
   * written with, the entries of the document afterwards are exactly those
   * of its new indexed values: nothing stale, nothing missing.
   */
  lemma UpdateKeepsIndexConsistent(scheme: KeyScheme, txn: Store, name: string, id: string,
                                   before: map<string, Value>, after: map<string, Value>, doc: Doc)
    requires IndexedAs(txn, scheme, name, id, before)
    ensures IndexedAs(UpdatedStore(scheme, name, id, txn, before, after, doc), scheme, name, id, after)
  {
    var s := UpdatedStore(scheme, name, id, txn, before, after, doc);
    var added := AddedEntries(scheme, name, id, before, after);
    forall f, v ensures IndexKey(scheme, name, f, v, id) in s <==> f in after && after[f] == v {
      var k := IndexKey(scheme, name, f, v, id);
      assert IsKeyFor(scheme, name, id, k) && k.field == f && k.value == v;
      if f in after && after[f] == v {
        if Changed(after, before, f) {
          assert k in added;
        } else {
          assert k in txn && !Removed(scheme, name, id, before, after, k);
        }
      }
      if k in s {
        if k in added {
          var g :| g in after && Changed(after, before, g) && k == IndexKey(scheme, name, g, after[g], id);
          assert g == f;
        } else {
          assert k in txn && !Removed(scheme, name, id, before, after, k);
        }
      }
    }
    forall f | f in after ensures s[IndexKey(scheme, name, f, after[f], id)] == Raw(id) {
      var k := IndexKey(scheme, name, f, after[f], id);
      assert IsKeyFor(scheme, name, id, k) && k.field == f;
      if Changed(after, before, f) {
        assert k in added;
      } else {
        assert k in txn && !Removed(scheme, name, id, before, after, k) && k !in added;
      }
    }
  }

  /** With the key `nativeUpdate` builds, the reconciliation never touches an insert-time entry. */
  lemma BareLeavesInsertEntries(name: string, id: string, txn: Store, before: map<string, Value>,
                                after: map<string, Value>, doc: Doc, k: Key)
    requires k.Index?
    ensures k in UpdatedStore(Bare, name, id, txn, before, after, doc) <==> k in txn
    ensures k in txn ==> UpdatedStore(Bare, name, id, txn, before, after, doc)[k] == txn[k]
  {
    var added := AddedEntries(Bare, name, id, before, after);
    assert !Removed(Bare, name, id, before, after, k);
    assert k !in added;
  }

  /** With the key `nativeUpdate` builds, a changed indexed value gets its entry `field|value|docID`. */
  lemma BareAddsBareEntry(name: string, id: string, txn: Store, before: map<string, Value>,
                          after: map<string, Value>, doc: Doc, f: string)
    requires f in after && Changed(after, before, f)
    ensures BareIndex(f, after[f], id) in UpdatedStore(Bare, name, id, txn, before, after, doc)
    ensures UpdatedStore(Bare, name, id, txn, before, after, doc)[BareIndex(f, after[f], id)] == Raw(id)
  {
    var added := AddedEntries(Bare, name, id, before, after);
    assert IndexKey(Bare, name, f, after[f], id) == BareIndex(f, after[f], id);
    assert BareIndex(f, after[f], id) in added;
  }

  /** A document inserted into `products` with its `price` indexed, and then repriced. */
  function InsertedProduct(): Store
  {
    map[Primary("products", "x") := Encoded(map["_id" := Str("x"), "price" := Float(10.0)]),
        Index("products", "price", Float(10.0), "x") := Raw("x")]
  }

  /**
   * With the key that `nativeUpdate` builds, repricing the document leaves the
   * insert-time entry for the old price in place and adds no entry for the
   * new price under the collection's prefix.
   */
  lemma StaleEntryAsWritten()
    ensures IndexedAs(InsertedProduct(), Prefixed, "products", "x", map["price" := Float(10.0)])
    ensures var s := UpdatedStore(Bare, "products", "x", InsertedProduct(), map["price" := Float(10.0)],
                                  map["price" := Float(20.0)], map["_id" := Str("x"), "price" := Float(20.0)]);
      Index("products", "price", Float(10.0), "x") in s &&
      Index("products", "price", Float(20.0), "x") !in s &&
      !IndexedAs(s, Prefixed, "products", "x", map["price" := Float(20.0)])
  {
    var before := map["price" := Float(10.0)];
    var after := map["price" := Float(20.0)];
    var s := UpdatedStore(Bare, "products", "x", InsertedProduct(), before, after,
                          map["_id" := Str("x"), "price" := Float(20.0)]);
    var stale := Index("products", "price", Float(10.0), "x");
    assert !Removed(Bare, "products", "x", before, after, stale);
    assert stale in InsertedProduct();
    var newEntry := Index("products", "price", Float(20.0), "x");
    var added := AddedEntries(Bare, "products", "x", before, after);
    assert added == map[BareIndex("price", Float(20.0), "x") := Raw("x")];
    assert newEntry !in added;
    assert IndexKey(Prefixed, "products", "price", Float(10.0), "x") == stale;
  }

  /** The same repricing under the insert-time key leaves the index consistent. */
  lemma RepricedConsistently()
    ensures IndexedAs(UpdatedStore(Prefixed, "products", "x", InsertedProduct(), map["price" := Float(10.0)],
                                   map["price" := Float(20.0)], map["_id" := Str("x"), "price" := Float(20.0)]),
                      Prefixed, "products", "x", map["price" := Float(20.0)])
  {
    StaleEntryAsWritten();
    UpdateKeepsIndexConsistent(Prefixed, InsertedProduct(), "products", "x", map["price" := Float(10.0)],
                               map["price" := Float(20.0)], map["_id" := Str("x"), "price" := Float(20.0)]);
  }
}
