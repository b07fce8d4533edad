/**
 * The collection operations: each one runs as a transaction on a copy of
 * the committed store and commits the copy only when it succeeds.
 *
 * A typed document is its field map; `GetID` reads its `_id`, `SetID`
 * sets it and `SetCreatedAt` sets `createdAt`.  A fresh object ID, the
 * clock, the regular-expression matcher and the iterator's key order are
 * parameters.  The updates take the index key scheme as a parameter:
 * `Bare` is the code as written, `Prefixed` the corrected program.
 */
module Crud {
  import opened Wrappers
  import opened Values
  import opened Store
  import opened Collections
  import opened Updates
  import opened IndexMaintenance
  import opened Filters
  import opened Projection
  import opened Scan

  datatype CrudError =
    | /** The store holds no record under `name|docID`. */
      KeyNotFound
    | /** The record does not decode to a document. */
      DecodeFailed
    | /** "no document found in result" */
      NoDocumentFound
    | /** The found document's `_id` is not a string (the type assertion fails). */
      IdNotString
    | /** The update's own error, returned as is. */
      Rejected(cause: UpdateError)
    | /** "failed to update doc <id>: <cause>" */
      UpdateFailed(id: string, cause: UpdateError)

  /** `GetID`: the document's string `_id`, or the empty string. */
  function GetID(doc: Doc): string
  {
    if "_id" in doc && doc["_id"].Str? then doc["_id"].s else ""
  }

  /** A document without an ID gets `newID`; one with an ID keeps it. */
  function WithID(doc: Doc, newID: string): (d: Doc)
    ensures GetID(doc) != "" ==> d == doc
    ensures GetID(doc) == "" ==> GetID(d) == newID && forall f :: f != "_id" && f in doc ==> f in d && d[f] == doc[f]
  {
    if GetID(doc) == "" then doc["_id" := Str(newID)] else doc
  }

  /** The index entries `name|field|value|docID → docID` of the indexed values `fields`. */
  function InsertEntries(name: string, id: string, fields: map<string, Value>): map<Key, Record>
  {
    map f | f in fields :: Index(name, f, fields[f], id) := Raw(id)
  }

  /** The transaction after storing `doc` at `name|id` and writing its index entries. */
  function Inserted(c: Collection, txn: Store, doc: Doc, id: string): Store
  {
    txn[Primary(c.name, id) := Encoded(doc)] + InsertEntries(c.name, id, IndexableFields(doc, c.indexes))
  }

  /** `k` is the index entry of document `id` for one of the indexed values `fields`. */
  predicate EntryOf(name: string, id: string, fields: map<string, Value>, k: Key)
  {
    k.Index? && k.coll == name && k.id == id && k.field in fields && k.value == fields[k.field]
  }

  /** Adding one indexed value adds its one entry. */
  lemma InsertEntriesStep(name: string, id: string, done: map<string, Value>, f: string, v: Value)
    requires f !in done
    ensures InsertEntries(name, id, done[f := v]) == InsertEntries(name, id, done)[Index(name, f, v, id) := Raw(id)]
  {
    var l := InsertEntries(name, id, done[f := v]);
    var r := InsertEntries(name, id, done)[Index(name, f, v, id) := Raw(id)];
    forall k | k in l ensures k in r && l[k] == r[k] {
      var g :| g in done[f := v] && k == Index(name, g, done[f := v][g], id);
      if g != f {
        assert k == Index(name, g, done[g], id);
      }
    }
    forall k | k in r ensures k in l {
      if k != Index(name, f, v, id) {
        var g :| g in done && k == Index(name, g, done[g], id);
        assert g != f;
        assert k == Index(name, g, done[f := v][g], id);
      }
    }
  }

  /** Updating a union updates its right-hand part. */
  lemma UnionUpdate(a: Store, b: Store, k: Key, r: Record)
    ensures (a + b)[k := r] == a + b[k := r]
  {
  }

  /** The body shared by `Insert` and `insertDoc`: the primary write, then one write per indexed field. */
  method WriteDocument(c: Collection, txn: Store, doc: Doc, id: string) returns (t: Store)
    ensures t == Inserted(c, txn, doc, id)
  {
    var base := txn[Primary(c.name, id) := Encoded(doc)];
    t := base;
    var fields := GetIndexableFields(doc, c.indexes);
    var todo := fields.Keys;
    ghost var done: map<string, Value> := map[];
    while todo != {}
      invariant todo <= fields.Keys
      invariant forall f :: f in done <==> f in fields && f !in todo
      invariant forall f :: f in done ==> done[f] == fields[f]
      invariant t == base + InsertEntries(c.name, id, done)
      decreases todo
    {
      var field :| field in todo;
      todo := todo - {field};
      InsertEntriesStep(c.name, id, done, field, fields[field]);
      UnionUpdate(base, InsertEntries(c.name, id, done), Index(c.name, field, fields[field], id), Raw(id));
      t := t[Index(c.name, field, fields[field], id) := Raw(id)];
      done := done[field := fields[field]];
    }
    assert done == fields;
  }

  /** `Insert`: assign an ID if missing, stamp `createdAt` when the collection keeps timestamps, write. */
  method Insert(c: Collection, doc: Doc, newID: string, now: int) returns (id: string, stored: Doc)
    modifies c.db
    ensures id == GetID(WithID(doc, newID))
    ensures stored == (if c.timestamp then WithID(doc, newID)["createdAt" := Time(now)] else WithID(doc, newID))
    ensures c.db.kv == Inserted(c, old(c.db.kv), stored, id)
  {
    var d := doc;
    if GetID(d) == "" {
      d := d["_id" := Str(newID)];
    }
    var txn := c.db.kv;
    id := GetID(d);
    if c.timestamp {
      d := d["createdAt" := Time(now)];
    }
    stored := d;
    txn := WriteDocument(c, txn, d, id);
    c.db.kv := txn;
  }

  /** The store after `insertDoc` has run for each document in turn, each given its fresh ID. */
  function InsertedAll(c: Collection, txn: Store, docs: seq<Doc>, newIDs: seq<string>): Store
    requires |newIDs| == |docs|
    decreases |docs|
  {
    if docs == [] then txn
    else
      var d := WithID(docs[0], newIDs[0]);
      InsertedAll(c, Inserted(c, txn, d, GetID(d)), docs[1..], newIDs[1..])
  }

  /** `InsertMany`: one transaction, documents in order, no `createdAt` stamp. */
  method InsertMany(c: Collection, docs: seq<Doc>, newIDs: seq<string>)
    requires |newIDs| == |docs|
    modifies c.db
    ensures c.db.kv == InsertedAll(c, old(c.db.kv), docs, newIDs)
  {
    var txn := c.db.kv;
    var i := 0;
    while i < |docs|
      invariant 0 <= i <= |docs|
      invariant InsertedAll(c, old(c.db.kv), docs, newIDs) == InsertedAll(c, txn, docs[i..], newIDs[i..])
    {
      var d := docs[i];
      if GetID(d) == "" {
        d := d["_id" := Str(newIDs[i])];
      }
      var id := GetID(d);
      assert docs[i..][1..] == docs[i + 1..] && newIDs[i..][1..] == newIDs[i + 1..];
      txn := WriteDocument(c, txn, d, id);
      i := i + 1;
    }
    c.db.kv := txn;
  }

  /** `FindByID`: the decoded record at `name|docID`. */
  function FindByIdSpec(s: Store, name: string, docID: string): (r: Result<Doc, CrudError>)
    ensures r.Err? <==> Primary(name, docID) !in s || s[Primary(name, docID)].Raw?
    ensures r.Ok? ==> s[Primary(name, docID)] == Encoded(r.value)
  {
    var key := Primary(name, docID);
    if key !in s then Err(KeyNotFound)
    else match Decode(s[key])
      case None => Err(DecodeFailed)
      case Some(doc) => Ok(doc)
  }

  method FindByID(c: Collection, docID: string) returns (r: Result<Doc, CrudError>)
    ensures r == FindByIdSpec(c.db.kv, c.name, docID)
  {
    var key := Primary(c.name, docID);
    if key !in c.db.kv {
      return Err(KeyNotFound);
    }
    var decoded := Decode(c.db.kv[key]);
    if decoded.None? {
      return Err(DecodeFailed);
    }
    return Ok(decoded.value);
  }

  /** The options `Find` uses: the first given, or none. */
  function FirstOptions(opts: seq<FindOptions>): FindOptions
  {
    if |opts| > 0 then opts[0] else NoOptions
  }

  /** `Find` over the scan `scan` of the committed store. */
  method Find(c: Collection, filter: Filter, opts: seq<FindOptions>, re: Matcher, scan: seq<Key>)
    returns (results: seq<Doc>)
    requires ScanOf(c.db.kv, scan, c.name)
    ensures var o := FirstOptions(opts);
      results == Window(Ordered(Collect(re, c.db.kv, scan, filter, o.select), o.sort), o.skip, o.limit)
  {
    results := NativeFind(re, c.db.kv, scan, filter, FirstOptions(opts));
  }

  /** `FindOne`: the first matching document; `None` is the nil map. */
  method FindOne(c: Collection, filter: Filter, re: Matcher, scan: seq<Key>) returns (doc: Option<Doc>)
    requires ScanOf(c.db.kv, scan, c.name)
    ensures doc == FirstHit(re, c.db.kv, scan, filter)
  {
    var found, d := NativeFindOne(re, c.db.kv, scan, filter);
    doc := if found then Some(d) else None;
  }

  /**
   * `UpdateByID`: read, decode, reconcile, commit on success.  The code
   * reconciles with the key `nativeUpdate` builds (`scheme == Bare`);
   * `Prefixed` is the corrected program, keyed as `Insert` keys.
   */
  method UpdateByID(c: Collection, scheme: KeyScheme, docID: string, update: Update, now: int) returns (err: Option<CrudError>)
    modifies c.db
    ensures match FindByIdSpec(old(c.db.kv), c.name, docID)
      case Err(e) => err == Some(e) && c.db.kv == old(c.db.kv)
      case Ok(doc) =>
        match Reconciled(c, scheme, old(c.db.kv), doc, docID, update, now)
        case Err(e) => err == Some(Rejected(e)) && c.db.kv == old(c.db.kv)
        case Ok(s) => err == None && c.db.kv == s
  {
    var found := FindByID(c, docID);
    if found.Err? {
      return Some(found.error);
    }
    var r, _ := NativeUpdate(c, scheme, c.db.kv, found.value, docID, update, now);
    if r.Err? {
      return Some(Rejected(r.error));
    }
    c.db.kv := r.value;
    return None;
  }

  /** The `_id` of a found document, when it is a string. */
  function IdOf(doc: Doc): Option<string>
  {
    if "_id" in doc && doc["_id"].Str? then Some(doc["_id"].s) else None
  }

  /**
   * `UpdateOne`: the first match is updated under its `_id`; the committed
   * store is untouched on any error.  `scheme` as for `UpdateByID`.
   */
  method UpdateOne(c: Collection, scheme: KeyScheme, filter: Filter, update: Update, re: Matcher, scan: seq<Key>, now: int)
    returns (err: Option<CrudError>)
    requires ScanOf(c.db.kv, scan, c.name)
    modifies c.db
    ensures match FirstHit(re, old(c.db.kv), scan, filter)
      case None => err == Some(NoDocumentFound) && c.db.kv == old(c.db.kv)
      case Some(doc) =>
        match IdOf(doc)
        case None => err == Some(IdNotString) && c.db.kv == old(c.db.kv)
        case Some(id) =>
          match Reconciled(c, scheme, old(c.db.kv), doc, id, update, now)
          case Err(e) => err == Some(Rejected(e)) && c.db.kv == old(c.db.kv)
          case Ok(s) => err == None && c.db.kv == s
  {
    var found, doc := NativeFindOne(re, c.db.kv, scan, filter);
    if !found {
      return Some(NoDocumentFound);
    }
    var id := IdOf(doc);
    if id.None? {
      return Some(IdNotString);
    }
    var r, _ := NativeUpdate(c, scheme, c.db.kv, doc, id.value, update, now);
    if r.Err? {
      return Some(Rejected(r.error));
    }
    c.db.kv := r.value;
    return None;
  }

  /** `nativeUpdate` on one document: the transaction after it, and the error it adds, if any. */
  function UpdateStep(c: Collection, scheme: KeyScheme, txn: Store, doc: Doc, update: Update, now: int): (Store, seq<CrudError>)
  {
    match IdOf(doc)
    case None => (txn, [IdNotString])
    case Some(id) =>
      match Reconciled(c, scheme, txn, doc, id, update, now)
      case Err(e) => (txn, [UpdateFailed(id, e)])
      case Ok(t1) => (t1, [])
  }

  /** `nativeUpdate` on each document in turn, on one transaction, gathering the errors. */
  function UpdateAll(c: Collection, scheme: KeyScheme, txn: Store, docs: seq<Doc>, update: Update, now: int): (Store, seq<CrudError>)
    decreases |docs|
  {
    if docs == [] then (txn, [])
    else
      var (t1, e) := UpdateStep(c, scheme, txn, docs[0], update, now);
      var (t, es) := UpdateAll(c, scheme, t1, docs[1..], update, now);
      (t, e + es)
  }

  /**
   * `UpdateMany`: every match, as the search returns it with no options, is
   * updated; any error commits nothing.  `scheme` as for `UpdateByID`.
   */
  method UpdateMany(c: Collection, scheme: KeyScheme, filter: Filter, update: Update, re: Matcher, scan: seq<Key>, now: int)
    returns (errs: seq<CrudError>)
    requires ScanOf(c.db.kv, scan, c.name)
    modifies c.db
    ensures var (t, es) := UpdateAll(c, scheme, old(c.db.kv), Collect(re, old(c.db.kv), scan, filter, map[]), update, now);
      errs == es && c.db.kv == (if es == [] then t else old(c.db.kv))
  {
    var results := NativeFind(re, c.db.kv, scan, filter, NoOptions);
    assert results == Collect(re, c.db.kv, scan, filter, map[]);
    if |results| == 0 {
      return [];
    }
    var txn;
    txn, errs := UpdateEach(c, scheme, c.db.kv, results, update, now);
    if errs == [] {
      c.db.kv := txn;
    }
  }

  /** The loop invariant of `UpdateEach` survives one document's step. */
  lemma UpdateEachStep(c: Collection, scheme: KeyScheme, txn: Store, docs: seq<Doc>, i: nat,
                       t: Store, errs: seq<CrudError>, t2: Store, e: seq<CrudError>, update: Update, now: int)
    requires i < |docs|
    requires UpdateAll(c, scheme, txn, docs, update, now).0 == UpdateAll(c, scheme, t, docs[i..], update, now).0
    requires UpdateAll(c, scheme, txn, docs, update, now).1 == errs + UpdateAll(c, scheme, t, docs[i..], update, now).1
    requires (t2, e) == UpdateStep(c, scheme, t, docs[i], update, now)
    ensures UpdateAll(c, scheme, txn, docs, update, now).0 == UpdateAll(c, scheme, t2, docs[i + 1..], update, now).0
    ensures UpdateAll(c, scheme, txn, docs, update, now).1 == (errs + e) + UpdateAll(c, scheme, t2, docs[i + 1..], update, now).1
  {
    assert docs[i..][0] == docs[i] && docs[i..][1..] == docs[i + 1..];
    var rest := UpdateAll(c, scheme, t2, docs[i + 1..], update, now);
    assert UpdateAll(c, scheme, t, docs[i..], update, now) == (rest.0, e + rest.1);
    assert errs + (e + rest.1) == (errs + e) + rest.1;
  }

  /** One worker's `nativeUpdate` call, of which the loop keeps only the outcome. */
  method ReconcileDoc(c: Collection, scheme: KeyScheme, txn: Store, doc: Doc, docID: string, update: Update, now: int)
    returns (r: Result<Store, UpdateError>)
    ensures r == Reconciled(c, scheme, txn, doc, docID, update, now)
  {
    var writes;
    r, writes := NativeUpdate(c, scheme, txn, doc, docID, update, now);
  }

  /** The loop of `UpdateMany`'s workers, run one document after another. */
  method UpdateEach(c: Collection, scheme: KeyScheme, txn: Store, docs: seq<Doc>, update: Update, now: int)
    returns (t: Store, errs: seq<CrudError>)
    ensures (t, errs) == UpdateAll(c, scheme, txn, docs, update, now)
  {
    t := txn;
    errs := [];
    var i := 0;
    while i < |docs|
      invariant 0 <= i <= |docs|
      invariant UpdateAll(c, scheme, txn, docs, update, now).0 == UpdateAll(c, scheme, t, docs[i..], update, now).0
      invariant UpdateAll(c, scheme, txn, docs, update, now).1 == errs + UpdateAll(c, scheme, t, docs[i..], update, now).1
    {
      var doc := docs[i];
      ghost var before := t;
      var id := IdOf(doc);
      var e: seq<CrudError> := [];
      if id.None? {
        e := [IdNotString];
      } else {
        var r := ReconcileDoc(c, scheme, t, doc, id.value, update, now);
        if r.Err? {
          e := [UpdateFailed(id.value, r.error)];
        } else {
          t := r.value;
        }
      }
      assert (t, e) == UpdateStep(c, scheme, before, doc, update, now);
      UpdateEachStep(c, scheme, txn, docs, i, before, errs, t, e, update, now);
      errs := errs + e;
      i := i + 1;
    }
    assert docs[i..] == [] && errs + [] == errs;
  }

  /** `DeleteByID`: only the primary record goes; index entries stay. */
  method DeleteByID(c: Collection, docID: string) returns (err: Option<CrudError>)
    modifies c.db
    ensures Primary(c.name, docID) !in old(c.db.kv) ==> err == Some(KeyNotFound) && c.db.kv == old(c.db.kv)
    ensures Primary(c.name, docID) in old(c.db.kv) ==> err == None && c.db.kv == old(c.db.kv) - {Primary(c.name, docID)}
  {
    var key := Primary(c.name, docID);
    if key !in c.db.kv {
      return Some(KeyNotFound);
    }
    c.db.kv := c.db.kv - {key};
    return None;
  }

  /** `DeleteOne`: the primary record under the first match's `_id` goes. */
  method DeleteOne(c: Collection, filter: Filter, re: Matcher, scan: seq<Key>) returns (err: Option<CrudError>)
    requires ScanOf(c.db.kv, scan, c.name)
    modifies c.db
    ensures match FirstHit(re, old(c.db.kv), scan, filter)
      case None => err == Some(NoDocumentFound) && c.db.kv == old(c.db.kv)
      case Some(doc) =>
        match IdOf(doc)
        case None => err == Some(IdNotString) && c.db.kv == old(c.db.kv)
        case Some(id) => err == None && c.db.kv == old(c.db.kv) - {Primary(c.name, id)}
  {
    var found, doc := NativeFindOne(re, c.db.kv, scan, filter);
    if !found {
      return Some(NoDocumentFound);
    }
    var id := IdOf(doc);
    if id.None? {
      return Some(IdNotString);
    }
    c.db.kv := c.db.kv - {Primary(c.name, id.value)};
    return None;
  }

  /** The primary keys under the string `_id`s of `docs`. */
  function PrimaryKeys(name: string, docs: seq<Doc>): set<Key>
  {
    set i | 0 <= i < |docs| && IdOf(docs[i]).Some? :: Primary(name, IdOf(docs[i]).value)
  }

  /** `DeleteMany`: the primary record of every match goes; a match without a string `_id` commits nothing. */
  method DeleteMany(c: Collection, filter: Filter, re: Matcher, scan: seq<Key>) returns (err: Option<CrudError>)
    requires ScanOf(c.db.kv, scan, c.name)
    modifies c.db
    ensures var docs := Collect(re, old(c.db.kv), scan, filter, map[]);
      if exists i :: 0 <= i < |docs| && IdOf(docs[i]).None? then
        err == Some(IdNotString) && c.db.kv == old(c.db.kv)
      else
        err == None && c.db.kv == old(c.db.kv) - PrimaryKeys(c.name, docs)
  {
    var results := NativeFind(re, c.db.kv, scan, filter, NoOptions);
    assert results == Collect(re, c.db.kv, scan, filter, map[]);
    if |results| == 0 {
      assert PrimaryKeys(c.name, results) == {};
      return None;
    }
    var txn, ok := DeleteEach(c.name, c.db.kv, results);
    if !ok {
      return Some(IdNotString);
    }
    c.db.kv := txn;
    return None;
  }

  /** The loop of `DeleteMany`'s workers, run one document after another. */
  method DeleteEach(name: string, txn: Store, docs: seq<Doc>) returns (t: Store, ok: bool)
    ensures ok <==> forall i :: 0 <= i < |docs| ==> IdOf(docs[i]).Some?
    ensures ok ==> t == txn - PrimaryKeys(name, docs)
  {
    t := txn;
    var i := 0;
    while i < |docs|
      invariant 0 <= i <= |docs|
      invariant forall j :: 0 <= j < i ==> IdOf(docs[j]).Some?
      invariant t == txn - PrimaryKeys(name, docs[..i])
    {
      var id := IdOf(docs[i]);
      if id.None? {
        return t, false;
      }
      assert PrimaryKeys(name, docs[..i + 1]) == PrimaryKeys(name, docs[..i]) + {Primary(name, id.value)} by {
        assert forall j :: 0 <= j < i ==> docs[..i + 1][j] == docs[..i][j];
        assert docs[..i + 1][i] == docs[i];
      }
      t := t - {Primary(name, id.value)};
      i := i + 1;
    }
    assert docs[..i] == docs;
    return t, true;
  }
}
