/** What the collection operations leave in the store. */
module CrudLaws {
  import opened Wrappers
  import opened Values
  import opened Store
  import opened Collections
  import opened Updates
  import opened IndexMaintenance
  import opened IndexLaws
  import opened Crud
  import opened Filters
  import Scan
  import ScanLaws
  import Projection
  import ProjectionLaws

  /** The store holds no index entry of document `id` of collection `name`. */
  ghost predicate NoEntriesOf(s: Store, name: string, id: string)
  {
    forall f, v :: Index(name, f, v, id) !in s
  }

  /** An inserted document is found again under its ID, as it was stored. */
  lemma InsertThenFind(c: Collection, s: Store, doc: Doc, id: string)
    ensures FindByIdSpec(Inserted(c, s, doc, id), c.name, id) == Ok(doc)
  {
    assert Primary(c.name, id) !in InsertEntries(c.name, id, IndexableFields(doc, c.indexes));
  }

  /**
   * Inserting a document that has no entries yet gives it exactly one entry
   * per indexed field present on it, holding its ID, and none for absent fields.
   */
  lemma InsertIndexes(c: Collection, s: Store, doc: Doc, id: string)
    requires NoEntriesOf(s, c.name, id)
    ensures IndexedAs(Inserted(c, s, doc, id), Prefixed, c.name, id, IndexableFields(doc, c.indexes))
    ensures forall f, v :: f in c.indexes && Lookup(doc, f).None? ==> Index(c.name, f, v, id) !in Inserted(c, s, doc, id)
  {
    var fields := IndexableFields(doc, c.indexes);
    var t := Inserted(c, s, doc, id);
    var entries := InsertEntries(c.name, id, fields);
    forall f, v ensures IndexKey(Prefixed, c.name, f, v, id) in t <==> f in fields && fields[f] == v {
      if Index(c.name, f, v, id) in entries {
        var g :| g in fields && Index(c.name, f, v, id) == Index(c.name, g, fields[g], id);
      }
      if f in fields && fields[f] == v {
        assert Index(c.name, f, v, id) in entries;
      }
    }
    forall f | f in fields ensures t[IndexKey(Prefixed, c.name, f, fields[f], id)] == Raw(id) {
      assert Index(c.name, f, fields[f], id) in entries;
    }
  }

  /** Inserting touches only the document's own primary record and index entries. */
  lemma InsertFrame(c: Collection, s: Store, doc: Doc, id: string, k: Key)
    requires k != Primary(c.name, id) && !(k.Index? && k.coll == c.name && k.id == id)
    ensures k in Inserted(c, s, doc, id) <==> k in s
    ensures k in s ==> Inserted(c, s, doc, id)[k] == s[k]
  {
    EntryKeys(c.name, id, IndexableFields(doc, c.indexes));
  }

  /** Every key an insert adds besides the primary one is an index key of the inserted document. */
  lemma EntryKeys(name: string, id: string, fields: map<string, Value>)
    ensures forall k :: k in InsertEntries(name, id, fields) ==> k.Index? && k.coll == name && k.id == id
  {
    forall k | k in InsertEntries(name, id, fields) ensures k.Index? && k.coll == name && k.id == id {
      var g :| g in fields && k == Index(name, g, fields[g], id);
    }
  }

  /**
   * With the insert-time key (the corrected reconciliation), a freshly
   * inserted document whose update succeeds has, afterwards, exactly the
   * index entries of its new indexed values.
   */
  lemma InsertThenUpdateIndexed(c: Collection, s: Store, doc: Doc, id: string, update: Update, now: int)
    requires NoEntriesOf(s, c.name, id)
    requires ApplyUpdateSpec(doc, update).Ok?
    ensures Reconciled(c, Prefixed, Inserted(c, s, doc, id), doc, id, update, now).Ok?
    ensures IndexedAs(Reconciled(c, Prefixed, Inserted(c, s, doc, id), doc, id, update, now).value,
                      Prefixed, c.name, id, IndexableFields(ApplyUpdateSpec(doc, update).value, c.indexes))
  {
    InsertIndexes(c, s, doc, id);
    var after := ApplyUpdateSpec(doc, update).value;
    UpdateKeepsIndexConsistent(Prefixed, Inserted(c, s, doc, id), c.name, id, IndexableFields(doc, c.indexes),
                               IndexableFields(after, c.indexes), Stamped(c, after, now));
  }

  /** The ID `insertDoc` ends up using for the `i`-th document. */
  function AssignedID(docs: seq<Doc>, newIDs: seq<string>, i: nat): string
    requires |newIDs| == |docs| && i < |docs|
  {
    GetID(WithID(docs[i], newIDs[i]))
  }

  /** Inserting under another ID leaves a primary record as it was. */
  lemma InsertedKeepsPrimary(c: Collection, s: Store, doc: Doc, id: string, other: string)
    requires other != id
    ensures Primary(c.name, other) in Inserted(c, s, doc, id) <==> Primary(c.name, other) in s
    ensures Primary(c.name, other) in s ==> Inserted(c, s, doc, id)[Primary(c.name, other)] == s[Primary(c.name, other)]
  {
    InsertFrame(c, s, doc, id, Primary(c.name, other));
  }

  /**
   * When the documents end up with distinct IDs, `InsertMany` stores each
   * under its ID, with its ID set and no `createdAt` stamp of its own.
   */
  lemma {:induction false} InsertManyStoresEach(c: Collection, s: Store, docs: seq<Doc>, newIDs: seq<string>, i: nat)
    requires |newIDs| == |docs| && i < |docs|
    requires forall a, b :: 0 <= a < b < |docs| ==> AssignedID(docs, newIDs, a) != AssignedID(docs, newIDs, b)
    ensures FindByIdSpec(InsertedAll(c, s, docs, newIDs), c.name, AssignedID(docs, newIDs, i)) ==
      Ok(WithID(docs[i], newIDs[i]))
    decreases |docs|
  {
    var d := WithID(docs[0], newIDs[0]);
    var s1 := Inserted(c, s, d, GetID(d));
    assert InsertedAll(c, s, docs, newIDs) == InsertedAll(c, s1, docs[1..], newIDs[1..]);
    if i == 0 {
      InsertThenFind(c, s, d, GetID(d));
      TailAvoidsHead(docs, newIDs);
      InsertedAllKeeps(c, s1, docs[1..], newIDs[1..], GetID(d));
    } else {
      TailDistinct(docs, newIDs);
      assert AssignedID(docs[1..], newIDs[1..], i - 1) == AssignedID(docs, newIDs, i);
      InsertManyStoresEach(c, s1, docs[1..], newIDs[1..], i - 1);
    }
  }

  /** Distinct assigned IDs stay distinct without the first document. */
  lemma TailDistinct(docs: seq<Doc>, newIDs: seq<string>)
    requires |newIDs| == |docs| && 0 < |docs|
    requires forall a, b :: 0 <= a < b < |docs| ==> AssignedID(docs, newIDs, a) != AssignedID(docs, newIDs, b)
    ensures forall a, b :: 0 <= a < b < |docs| - 1 ==>
      AssignedID(docs[1..], newIDs[1..], a) != AssignedID(docs[1..], newIDs[1..], b)
  {
    forall a, b | 0 <= a < b < |docs| - 1
      ensures AssignedID(docs[1..], newIDs[1..], a) != AssignedID(docs[1..], newIDs[1..], b)
    {
      assert AssignedID(docs[1..], newIDs[1..], a) == AssignedID(docs, newIDs, a + 1);
      assert AssignedID(docs[1..], newIDs[1..], b) == AssignedID(docs, newIDs, b + 1);
    }
  }

  /** With distinct assigned IDs, no later document takes the first one's ID. */
  lemma TailAvoidsHead(docs: seq<Doc>, newIDs: seq<string>)
    requires |newIDs| == |docs| && 0 < |docs|
    requires forall a, b :: 0 <= a < b < |docs| ==> AssignedID(docs, newIDs, a) != AssignedID(docs, newIDs, b)
    ensures forall a :: 0 <= a < |docs| - 1 ==>
      AssignedID(docs[1..], newIDs[1..], a) != GetID(WithID(docs[0], newIDs[0]))
  {
    forall a | 0 <= a < |docs| - 1 ensures AssignedID(docs[1..], newIDs[1..], a) != GetID(WithID(docs[0], newIDs[0])) {
      assert AssignedID(docs[1..], newIDs[1..], a) == AssignedID(docs, newIDs, a + 1);
      assert AssignedID(docs, newIDs, 0) == GetID(WithID(docs[0], newIDs[0]));
    }
  }

  /** Later inserts under other IDs leave a primary record as it was. */
  lemma {:induction false} InsertedAllKeeps(c: Collection, s: Store, docs: seq<Doc>, newIDs: seq<string>, id: string)
    requires |newIDs| == |docs|
    requires forall a :: 0 <= a < |docs| ==> AssignedID(docs, newIDs, a) != id
    requires Primary(c.name, id) in s
    ensures Primary(c.name, id) in InsertedAll(c, s, docs, newIDs)
    ensures InsertedAll(c, s, docs, newIDs)[Primary(c.name, id)] == s[Primary(c.name, id)]
    decreases |docs|
  {
    if docs != [] {
      var d := WithID(docs[0], newIDs[0]);
      assert AssignedID(docs, newIDs, 0) == GetID(d);
      InsertedKeepsPrimary(c, s, d, GetID(d), id);
      forall a | 0 <= a < |docs| - 1 ensures AssignedID(docs[1..], newIDs[1..], a) != id {
        assert AssignedID(docs[1..], newIDs[1..], a) == AssignedID(docs, newIDs, a + 1);
      }
      InsertedAllKeeps(c, Inserted(c, s, d, GetID(d)), docs[1..], newIDs[1..], id);
    }
  }

  /** Deleting a document keeps its index entries: they now point at nothing. */
  lemma DeleteLeavesEntries(s: Store, name: string, id: string, fields: map<string, Value>)
    requires IndexedAs(s, Prefixed, name, id, fields)
    ensures IndexedAs(s - {Primary(name, id)}, Prefixed, name, id, fields)
    ensures FindByIdSpec(s - {Primary(name, id)}, name, id) == Err(KeyNotFound)
  {
    var t := s - {Primary(name, id)};
    forall f, v ensures IndexKey(Prefixed, name, f, v, id) in t <==> f in fields && fields[f] == v {
      assert IndexKey(Prefixed, name, f, v, id) != Primary(name, id);
    }
  }

  /**
   * `UpdateMany` reports no error exactly when every match has a string
   * `_id` and the update succeeds on it; the store it reaches does not
   * change that.
   */
  lemma {:induction false} UpdateAllSucceeds(c: Collection, scheme: KeyScheme, s: Store, docs: seq<Doc>, update: Update, now: int)
    ensures UpdateAll(c, scheme, s, docs, update, now).1 == [] <==>
      forall i :: 0 <= i < |docs| ==> IdOf(docs[i]).Some? && ApplyUpdateSpec(docs[i], update).Ok?
    decreases |docs|
  {
    if docs != [] {
      var doc := docs[0];
      assert forall i :: 0 < i < |docs| ==> docs[i] == docs[1..][i - 1];
      match IdOf(doc)
      case None =>
      case Some(id) =>
        match Reconciled(c, scheme, s, doc, id, update, now)
        case Err(e) =>
        case Ok(t1) => UpdateAllSucceeds(c, scheme, t1, docs[1..], update, now);
    }
  }

  /**
   * With the insert-time key (the corrected reconciliation), what
   * `UpdateByID` and `UpdateOne` commit keeps the document's entries exact:
   * an indexed value changed from `A` to `B` leaves no entry for `A` and
   * one for `B`.
   */
  lemma ReconciledKeepsIndex(c: Collection, s: Store, doc: Doc, id: string, update: Update, now: int)
    requires IndexedAs(s, Prefixed, c.name, id, IndexableFields(doc, c.indexes))
    requires ApplyUpdateSpec(doc, update).Ok?
    ensures Reconciled(c, Prefixed, s, doc, id, update, now).Ok?
    ensures IndexedAs(Reconciled(c, Prefixed, s, doc, id, update, now).value,
                      Prefixed, c.name, id, IndexableFields(ApplyUpdateSpec(doc, update).value, c.indexes))
  {
    var after := ApplyUpdateSpec(doc, update).value;
    UpdateKeepsIndexConsistent(Prefixed, s, c.name, id, IndexableFields(doc, c.indexes),
                               IndexableFields(after, c.indexes), Stamped(c, after, now));
  }

  /**
   * With the key `nativeUpdate` builds, as the code runs it: after an
   * insert, an update that changes an indexed value from `A` to `B` leaves
   * the insert-time entry `name|field|A|docID` in place, writes
   * `field|B|docID` instead of `name|field|B|docID`, and so leaves the
   * document's insert-time entries inexact.
   */
  lemma InsertThenUpdateAsWritten(c: Collection, s: Store, doc: Doc, id: string, update: Update, now: int, f: string)
    requires NoEntriesOf(s, c.name, id)
    requires ApplyUpdateSpec(doc, update).Ok?
    requires f in IndexableFields(doc, c.indexes) && f in IndexableFields(ApplyUpdateSpec(doc, update).value, c.indexes)
    requires IndexableFields(doc, c.indexes)[f] != IndexableFields(ApplyUpdateSpec(doc, update).value, c.indexes)[f]
    ensures Reconciled(c, Bare, Inserted(c, s, doc, id), doc, id, update, now).Ok?
    ensures var t := Reconciled(c, Bare, Inserted(c, s, doc, id), doc, id, update, now).value;
      var before := IndexableFields(doc, c.indexes);
      var after := IndexableFields(ApplyUpdateSpec(doc, update).value, c.indexes);
      Index(c.name, f, before[f], id) in t &&
      Index(c.name, f, after[f], id) !in t &&
      BareIndex(f, after[f], id) in t && t[BareIndex(f, after[f], id)] == Raw(id) &&
      !IndexedAs(t, Prefixed, c.name, id, after)
  {
    var before := IndexableFields(doc, c.indexes);
    var upd := ApplyUpdateSpec(doc, update).value;
    var after := IndexableFields(upd, c.indexes);
    var s0 := Inserted(c, s, doc, id);
    InsertIndexes(c, s, doc, id);
    assert IndexKey(Prefixed, c.name, f, before[f], id) == Index(c.name, f, before[f], id);
    assert IndexKey(Prefixed, c.name, f, after[f], id) == Index(c.name, f, after[f], id);
    BareLeavesInsertEntries(c.name, id, s0, before, after, Stamped(c, upd, now), Index(c.name, f, before[f], id));
    BareLeavesInsertEntries(c.name, id, s0, before, after, Stamped(c, upd, now), Index(c.name, f, after[f], id));
    BareAddsBareEntry(c.name, id, s0, before, after, Stamped(c, upd, now), f);
  }

  /**
   * `UpdateMany` updates the documents as the search returns them with no
   * options: every one of them is settled under the empty select map, so
   * an empty nested object is gone before the update runs and is never
   * written back.
   */
  lemma UpdateManySeesSettled(re: Matcher, s: Store, scan: seq<Key>, filter: Filter)
    requires Scan.InStore(s, scan)
    ensures forall i :: 0 <= i < |Scan.Collect(re, s, scan, filter, map[])| ==>
      ProjectionLaws.Settled(Scan.Collect(re, s, scan, filter, map[])[i], map[], "")
  {
    var docs := Scan.Collect(re, s, scan, filter, map[]);
    forall i | 0 <= i < |docs| ensures ProjectionLaws.Settled(docs[i], map[], "") {
      var d := docs[i];
      ScanLaws.CollectMembers(re, s, scan, filter, map[], d);
      var j :| 0 <= j < |scan| && d in Scan.Yield(re, s[scan[j]], filter, map[]);
      ScanLaws.YieldMeans(re, s[scan[j]], filter, map[], d);
      ProjectionLaws.ProjectSettles(s[scan[j]].doc, map[], "");
    }
  }

  /** An illustration of `UpdateManySeesSettled`: a stored empty `meta` object does not reach the update. */
  lemma UpdateManySeesNoEmptyObjects()
    ensures Projection.Project(map["_id" := Str("x"), "meta" := Obj(map[])], map[], "") == map["_id" := Str("x")]
  {
    var doc := map["_id" := Str("x"), "meta" := Obj(map[])];
    var r := Projection.Project(doc, map[], "");
    assert Projection.Full("", "_id") == "_id" && Projection.Full("", "meta") == "meta";
    assert !Projection.IsExcluded("_id", map[]) by {
      ProjectionLaws.IncludesOnlyNotExcluded("_id", map[]);
    }
    assert !Projection.IsExcluded("meta", map[]) by {
      ProjectionLaws.IncludesOnlyNotExcluded("meta", map[]);
    }
    assert Projection.ProjectValue(Str("x"), map[], "_id") == Some(Str("x"));
    assert Projection.Project(map[], map[], "meta") == map[];
    assert Projection.ProjectValue(Obj(map[]), map[], "meta") == None;
    assert "meta" !in r && "_id" in r;
    assert r.Keys == {"_id"};
  }
}
