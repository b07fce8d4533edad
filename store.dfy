/**
 * The ordered key-value store underneath owl-db, reduced to what the
 * document engine relies on: a finite map from keys to records, and the
 * two key families the engine writes.
 *
 * Keys are kept structured instead of as the formatted strings the engine
 * builds, so that two keys are equal exactly when their parts are.  The
 * string form of each is given in its comment.
 */
module Store {
  import opened Wrappers
  import opened Values

  datatype Key =
    | /** `name|docID`: the primary record of a document. */
      Primary(coll: string, id: string)
    | /** `name|field|value|docID`: an index entry written by Insert. */
      Index(coll: string, field: string, value: Value, id: string)
    | /** `field|value|docID`: an index entry without the collection name. */
      BareIndex(field: string, value: Value, id: string)

  /** A stored value: an encoded document, or bytes that are not one (index entries hold the document ID). */
  datatype Record = Encoded(doc: Doc) | Raw(bytes: string)

  type Store = map<Key, Record>

  /** `bson.Unmarshal`: round-trip faithful on encoded documents, failing on anything else. */
  function Decode(r: Record): (d: Option<Doc>)
    ensures d.Some? <==> r.Encoded?
    ensures r.Encoded? ==> d == Some(r.doc)
  {
    match r
    case Encoded(doc) => Some(doc)
    case Raw(_) => None
  }

  /**
   * Whether the string form of `k` starts with `name + "|"`, so that a
   * prefix scan of the collection visits it.  Collection names and field
   * paths are taken to contain no `|`.
   */
  predicate InPrefix(k: Key, name: string)
  {
    match k
    case Primary(c, _) => c == name
    case Index(c, _, _, _) => c == name
    case BareIndex(f, _, _) => f == name
  }

  /** One store mutation issued inside a transaction. */
  datatype Write = Set(key: Key, rec: Record) | Delete(key: Key)

  /** The store after the writes `w`, issued in order. */
  function Replay(s: Store, w: seq<Write>): Store
    decreases |w|
  {
    if w == [] then s
    else
      var s' := match w[0]
        case Set(k, r) => s[k := r]
        case Delete(k) => s - {k};
      Replay(s', w[1..])
  }

  /** Replaying a concatenation replays one part after the other. */
  lemma {:induction false} ReplayAppend(s: Store, w1: seq<Write>, w2: seq<Write>)
    ensures Replay(s, w1 + w2) == Replay(Replay(s, w1), w2)
    decreases |w1|
  {
    if w1 == [] {
      assert w1 + w2 == w2;
    } else {
      assert (w1 + w2)[0] == w1[0] && (w1 + w2)[1..] == w1[1..] + w2;
      var s' := match w1[0]
        case Set(k, r) => s[k := r]
        case Delete(k) => s - {k};
      ReplayAppend(s', w1[1..], w2);
    }
  }

  /** The database handle: the committed contents of the store. */
  class Db {
    var kv: Store

    constructor (contents: Store)
      ensures kv == contents
    {
      kv := contents;
    }
  }
}
