/**
 * Projection of found documents: `isExcluded` and `removeExcludedFields`.
 * A select map only removes: a path is dropped when its verdict is `false`,
 * and an object left empty is dropped with it.
 */
module Projection {
  import opened Wrappers
  import opened Values

  type Select = map<string, bool>

  /** The full path of a key below `cur`. */
  function Full(cur: string, key: string): string
  {
    if cur == "" then key else cur + "." + key
  }

  /** The verdict of the first listed ancestor `parts[..i]`, `parts[..i+1]`, … below the whole path. */
  function AncestorVerdict(parts: seq<string>, sel: Select, i: nat): bool
    requires 1 <= i
    decreases |parts| - i
  {
    if i >= |parts| then false
    else if Join(parts[..i]) in sel then !sel[Join(parts[..i])]
    else AncestorVerdict(parts, sel, i + 1)
  }

  /** `isExcluded`: an entry for the path itself decides; otherwise the shortest listed ancestor; otherwise kept. */
  function IsExcluded(path: string, sel: Select): bool
  {
    if path in sel then !sel[path] else AncestorVerdict(Split(path), sel, 1)
  }

  /** The loop of `isExcluded` over the ancestors, shortest first. */
  method IsExcludedLoop(key: string, sel: Select) returns (r: bool)
    ensures r == IsExcluded(key, sel)
  {
    if key in sel {
      return !sel[key];
    }
    var parts := Split(key);
    var i := 1;
    while i < |parts|
      invariant 1 <= i <= |parts|
      invariant IsExcluded(key, sel) == AncestorVerdict(parts, sel, i)
    {
      var nestedKey := Join(parts[..i]);
      if nestedKey in sel {
        return !sel[nestedKey];
      }
      i := i + 1;
    }
    return false;
  }

  /** What becomes of one value at `path`: dropped (`None`), or kept with its objects projected. */
  function ProjectValue(v: Value, sel: Select, path: string): Option<Value>
    decreases v, 2
  {
    if IsExcluded(path, sel) then None
    else match v
      case Obj(n) =>
        var p := Project(n, sel, path);
        if p == map[] then None else Some(Obj(p))
      case _ => Some(v)
  }

  /** The document `removeExcludedFields` leaves behind. */
  function Project(m: Doc, sel: Select, cur: string): Doc
    decreases Obj(m), 1
  {
    map k | k in m && ProjectValue(m[k], sel, Full(cur, k)).Some? :: ProjectValue(m[k], sel, Full(cur, k)).value
  }

  /**
   * `removeExcludedFields`: visits every key once, deleting excluded keys
   * and recursing into objects, deleting those that end up empty.
   */
  method RemoveExcludedFields(doc: Doc, sel: Select, cur: string) returns (r: Doc)
    ensures r == Project(doc, sel, cur)
    decreases Obj(doc)
  {
    r := doc;
    var pending := doc.Keys;
    while pending != {}
      invariant pending <= doc.Keys && r.Keys <= doc.Keys
      invariant forall k :: k in pending ==> k in r && r[k] == doc[k]
      invariant forall k :: k in doc && k !in pending ==> Settles(doc, sel, cur, r, k)
      decreases pending
    {
      var key :| key in pending;
      ghost var before := r;
      pending := pending - {key};
      var value := doc[key];
      var fullKeyPath := Full(cur, key);
      var excluded := IsExcludedLoop(fullKeyPath, sel);
      if excluded {
        r := r - {key};
      } else if value.Obj? {
        var nested := RemoveExcludedFields(value.fields, sel, fullKeyPath);
        if nested == map[] {
          r := r - {key};
        } else {
          r := r[key := Obj(nested)];
        }
      }
      assert Settles(doc, sel, cur, r, key);
      SettlesFrame(doc, sel, cur, before, r, key);
    }
    ProjectPointwise(doc, sel, cur, r);
  }

  /** Key `k` of `doc` has reached, in `r`, what the projection makes of it. */
  predicate Settles(doc: Doc, sel: Select, cur: string, r: Doc, k: string)
    requires k in doc
  {
    var pv := ProjectValue(doc[k], sel, Full(cur, k));
    (k in r <==> pv.Some?) && (k in r ==> r[k] == pv.value)
  }

  /** Changing only key `key` of `r` keeps every other key settled. */
  lemma SettlesFrame(doc: Doc, sel: Select, cur: string, before: Doc, r: Doc, key: string)
    requires forall k :: k != key ==> (k in r <==> k in before)
    requires forall k :: k != key && k in r ==> r[k] == before[k]
    ensures forall k :: k in doc && k != key && Settles(doc, sel, cur, before, k) ==> Settles(doc, sel, cur, r, k)
  {
  }

  lemma ProjectPointwise(doc: Doc, sel: Select, cur: string, r: Doc)
    requires r.Keys <= doc.Keys
    requires forall k :: k in doc ==> Settles(doc, sel, cur, r, k)
    ensures r == Project(doc, sel, cur)
  {
  }
}
