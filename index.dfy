/**
 * `nativeUpdate`: run an update on a decoded document, reconcile the
 * index entries of the indexed fields from the snapshots taken before and
 * after, stamp `updatedAt` and write the document back.
 *
 * The transaction is a copy of the store: the method returns the copy after
 * its writes, and the writes themselves in the order they are issued.
 * Index entries are keyed by `scheme`: `Bare` is the key `nativeUpdate`
 * builds (`field|value|docID`), `Prefixed` the key `Insert` builds
 * (`name|field|value|docID`).
 */
module IndexMaintenance {
  import opened Wrappers
  import opened Values
  import opened Store
  import opened Collections
  import opened Updates
  import Utils

  datatype KeyScheme = Bare | Prefixed

  /** The index key of `field = v` for document `id` of collection `name`. */
  function IndexKey(scheme: KeyScheme, name: string, field: string, v: Value, id: string): Key
  {
    if scheme.Bare? then BareIndex(field, v, id) else Index(name, field, v, id)
  }

  /** `k` is an index key of document `id` of collection `name` under `scheme`. */
  predicate IsKeyFor(scheme: KeyScheme, name: string, id: string, k: Key)
  {
    if scheme.Bare? then k.BareIndex? && k.id == id else k.Index? && k.coll == name && k.id == id
  }

  /** The field is missing from `b` or holds a value there other than in `a`. */
  predicate Changed(a: map<string, Value>, b: map<string, Value>, f: string)
    requires f in a
  {
    f !in b || b[f] != a[f]
  }

  /** `k` is the entry of a field whose old value is gone: it gets one remove. */
  predicate Removed(scheme: KeyScheme, name: string, id: string, before: map<string, Value>, after: map<string, Value>, k: Key)
  {
    IsKeyFor(scheme, name, id, k) && k.field in before && Changed(before, after, k.field) && k.value == before[k.field]
  }

  /** `k` is the entry of a field whose new value is new: it gets one add. */
  predicate Added(scheme: KeyScheme, name: string, id: string, before: map<string, Value>, after: map<string, Value>, k: Key)
  {
    IsKeyFor(scheme, name, id, k) && k.field in after && Changed(after, before, k.field) && k.value == after[k.field]
  }

  /** The added index entries, each holding the document ID. */
  function AddedEntries(scheme: KeyScheme, name: string, id: string, before: map<string, Value>, after: map<string, Value>): map<Key, Record>
  {
    map f | f in after && Changed(after, before, f) :: IndexKey(scheme, name, f, after[f], id) := Raw(id)
  }

  /** The document written back: stamped with `updatedAt` when the collection keeps timestamps. */
  function Stamped(c: Collection, d: Doc, now: int): Doc
  {
    if c.timestamp then d["updatedAt" := Time(now)] else d
  }

  /** The transaction after the removes, the adds and the write-back. */
  function UpdatedStore(scheme: KeyScheme, name: string, id: string, txn: Store,
                        before: map<string, Value>, after: map<string, Value>, doc: Doc): Store
  {
    ((map k | k in txn && !Removed(scheme, name, id, before, after, k) :: txn[k]) +
      AddedEntries(scheme, name, id, before, after))[Primary(name, id) := Encoded(doc)]
  }

  /** The outcome of `nativeUpdate` on the transaction `txn`: the update's error, or the reconciled store. */
  function Reconciled(c: Collection, scheme: KeyScheme, txn: Store, doc: Doc, docID: string,
                      update: Update, now: int): Result<Store, UpdateError>
  {
    match ApplyUpdateSpec(doc, update)
    case Err(e) => Err(e)
    case Ok(after) =>
      Ok(UpdatedStore(scheme, c.name, docID, txn, IndexableFields(doc, c.indexes),
                      IndexableFields(after, c.indexes), Stamped(c, after, now)))
  }

  /** The writes of one reconciliation: every remove, then every add, each once, then the write-back. */
  ghost predicate IndexWrites(scheme: KeyScheme, name: string, id: string, before: map<string, Value>,
                        after: map<string, Value>, ws: seq<Write>)
  {
    Utils.NoDuplicates(ws) &&
    (forall w :: w in ws <==>
      (w.Delete? && Removed(scheme, name, id, before, after, w.key)) ||
      (w.Set? && Added(scheme, name, id, before, after, w.key) && w.rec == Raw(id))) &&
    (forall i, j :: 0 <= i < j < |ws| && ws[j].Delete? ==> ws[i].Delete?)
  }

  /** The remove loop: one delete per indexed field whose old value is gone. */
  method RemoveStaleEntries(scheme: KeyScheme, name: string, id: string, txn: Store,
                            before: map<string, Value>, after: map<string, Value>)
    returns (t: Store, writes: seq<Write>)
    ensures t == Replay(txn, writes)
    ensures forall k :: k in t <==> k in txn && !Removed(scheme, name, id, before, after, k)
    ensures forall k :: k in t ==> t[k] == txn[k]
    ensures Utils.NoDuplicates(writes)
    ensures forall w :: w in writes <==> w.Delete? && Removed(scheme, name, id, before, after, w.key)
  {
    t := txn;
    writes := [];
    var todo := before.Keys;
    ghost var done: set<string> := {};
    while todo != {}
      invariant todo + done == before.Keys && todo !! done
      invariant forall k :: k in t <==> k in txn && !(Removed(scheme, name, id, before, after, k) && k.field in done)
      invariant forall k :: k in t ==> t[k] == txn[k]
      invariant t == Replay(txn, writes)
      invariant Utils.NoDuplicates(writes)
      invariant forall w :: w in writes <==>
        w.Delete? && Removed(scheme, name, id, before, after, w.key) && w.key.field in done
      decreases todo
    {
      var field :| field in todo;
      todo := todo - {field};
      done := done + {field};
      var oldValue := before[field];
      if field !in after || after[field] != oldValue {
        var k := IndexKey(scheme, name, field, oldValue, id);
        ReplayAppend(txn, writes, [Delete(k)]);
        assert Delete(k) !in writes;
        t := t - {k};
        writes := writes + [Delete(k)];
      }
    }
  }

  /** The add loop: one entry per indexed field whose new value is new. */
  method AddFreshEntries(scheme: KeyScheme, name: string, id: string, txn: Store,
                         before: map<string, Value>, after: map<string, Value>)
    returns (t: Store, writes: seq<Write>)
    ensures t == Replay(txn, writes)
    ensures forall k :: k in t <==> k in txn || Added(scheme, name, id, before, after, k)
    ensures forall k :: k in t ==> t[k] == if Added(scheme, name, id, before, after, k) then Raw(id) else txn[k]
    ensures Utils.NoDuplicates(writes)
    ensures forall w :: w in writes <==> w.Set? && Added(scheme, name, id, before, after, w.key) && w.rec == Raw(id)
  {
    t := txn;
    writes := [];
    var todo := after.Keys;
    ghost var done: set<string> := {};
    while todo != {}
      invariant todo + done == after.Keys && todo !! done
      invariant forall k :: k in t <==> k in txn || (Added(scheme, name, id, before, after, k) && k.field in done)
      invariant forall k :: k in t ==>
        t[k] == if Added(scheme, name, id, before, after, k) && k.field in done then Raw(id) else txn[k]
      invariant t == Replay(txn, writes)
      invariant Utils.NoDuplicates(writes)
      invariant forall w :: w in writes <==>
        w.Set? && Added(scheme, name, id, before, after, w.key) && w.key.field in done && w.rec == Raw(id)
      decreases todo
    {
      var field :| field in todo;
      todo := todo - {field};
      done := done + {field};
      var newValue := after[field];
      if field !in before || before[field] != newValue {
        var k := IndexKey(scheme, name, field, newValue, id);
        ReplayAppend(txn, writes, [Set(k, Raw(id))]);
        assert Set(k, Raw(id)) !in writes;
        t := t[k := Raw(id)];
        writes := writes + [Set(k, Raw(id))];
      }
    }
  }

  /** The two loops together build the store `UpdatedStore` describes, before the write-back. */
  lemma ReconciledStore(scheme: KeyScheme, name: string, id: string, txn: Store, t1: Store, t2: Store,
                        before: map<string, Value>, after: map<string, Value>, doc: Doc)
    requires forall k :: k in t1 <==> k in txn && !Removed(scheme, name, id, before, after, k)
    requires forall k :: k in t1 ==> t1[k] == txn[k]
    requires forall k :: k in t2 <==> k in t1 || Added(scheme, name, id, before, after, k)
    requires forall k :: k in t2 ==> t2[k] == if Added(scheme, name, id, before, after, k) then Raw(id) else t1[k]
    ensures t2[Primary(name, id) := Encoded(doc)] == UpdatedStore(scheme, name, id, txn, before, after, doc)
  {
    var kept := map k | k in txn && !Removed(scheme, name, id, before, after, k) :: txn[k];
    var added := AddedEntries(scheme, name, id, before, after);
    forall k | Added(scheme, name, id, before, after, k)
      ensures k in added && added[k] == Raw(id)
    {
      assert k == IndexKey(scheme, name, k.field, after[k.field], id);
    }
    forall k | k in added ensures Added(scheme, name, id, before, after, k) {
      var f :| f in after && Changed(after, before, f) && k == IndexKey(scheme, name, f, after[f], id);
    }
    var u := kept + added;
    forall k | k in t2 ensures k in u && u[k] == t2[k] {
      if !Added(scheme, name, id, before, after, k) {
        assert k in t1 && k !in added;
      }
    }
    forall k | k in u ensures k in t2 {
      if k !in added {
        assert k in kept;
      }
    }
    assert t2.Keys == u.Keys;
    assert t2 == u;
  }

  method NativeUpdate(c: Collection, scheme: KeyScheme, txn: Store, doc: Doc, docID: string,
                      update: Update, now: int)
    returns (r: Result<Store, UpdateError>, writes: seq<Write>)
    ensures r == Reconciled(c, scheme, txn, doc, docID, update, now)
    ensures r.Err? <==> ApplyUpdateSpec(doc, update).Err?
    ensures r.Err? ==> r.error == ApplyUpdateSpec(doc, update).error && writes == []
    ensures r.Ok? ==>
      var after := ApplyUpdateSpec(doc, update).value;
      var before := IndexableFields(doc, c.indexes);
      var afterFields := IndexableFields(after, c.indexes);
      r.value == UpdatedStore(scheme, c.name, docID, txn, before, afterFields, Stamped(c, after, now)) &&
      r.value == Replay(txn, writes) &&
      |writes| >= 1 && writes[|writes| - 1] == Set(Primary(c.name, docID), Encoded(Stamped(c, after, now))) &&
      IndexWrites(scheme, c.name, docID, before, afterFields, writes[..|writes| - 1])
  {
    var oldFields := GetIndexableFields(doc, c.indexes);
    var applied := ApplyUpdate(doc, update);
    if applied.Err? {
      return Err(applied.error), [];
    }
    var d := applied.value;
    var newFields := GetIndexableFields(d, c.indexes);
    var t1, removes := RemoveStaleEntries(scheme, c.name, docID, txn, oldFields, newFields);
    var t2, adds := AddFreshEntries(scheme, c.name, docID, t1, oldFields, newFields);
    var stored := Stamped(c, d, now);
    var key := Primary(c.name, docID);
    ReconciledStore(scheme, c.name, docID, txn, t1, t2, oldFields, newFields, stored);
    ReplayAppend(txn, removes, adds);
    ReplayAppend(txn, removes + adds, [Set(key, Encoded(stored))]);
    writes := removes + adds + [Set(key, Encoded(stored))];
    assert writes[..|writes| - 1] == removes + adds;
    IndexWritesConcat(scheme, c.name, docID, oldFields, newFields, removes, adds);
    return Ok(t2[key := Encoded(stored)]), writes;
  }

  lemma IndexWritesConcat(scheme: KeyScheme, name: string, id: string, before: map<string, Value>,
                          after: map<string, Value>, removes: seq<Write>, adds: seq<Write>)
    requires Utils.NoDuplicates(removes) && Utils.NoDuplicates(adds)
    requires forall w :: w in removes <==> w.Delete? && Removed(scheme, name, id, before, after, w.key)
    requires forall w :: w in adds <==> w.Set? && Added(scheme, name, id, before, after, w.key) && w.rec == Raw(id)
    ensures IndexWrites(scheme, name, id, before, after, removes + adds)
  {
    var ws := removes + adds;
    forall i | 0 <= i < |removes| ensures ws[i].Delete? {
      assert ws[i] in removes;
    }
    forall i | |removes| <= i < |ws| ensures ws[i].Set? {
      assert ws[i] == adds[i - |removes|];
      assert ws[i] in adds;
    }
    forall i, j | 0 <= i < j < |ws| ensures ws[i] != ws[j] {
      if i < |removes| && j >= |removes| {
        assert ws[i].Delete? && ws[j].Set?;
      }
    }
  }
}
