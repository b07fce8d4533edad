/**
 * The update executor: the path helpers behind each update operator and
 * `applyUpdate`, which runs the operators of an update one after another.
 *
 * A document is a value here: each helper returns the document it leaves
 * behind instead of changing nested maps through shared references.
 * Paths are the result of `Split` (never empty); the last segment names the
 * field the operator acts on and the others lead to the map that holds it.
 */
module Updates {
  import opened Wrappers
  import opened Values
  import opened Collections
  import Utils

  datatype UpdateError =
    | /** "unsupported update operator: <op>" */
      Unsupported(op: string)
    | /** "invalid <op> operation": the operator's payload is not a field map */
      InvalidOperation(op: string)
    | /** "new key in $rename must be a string" */
      RenameTargetNotString
    | /** "invalid value for $pullAll operation" */
      InvalidPullAll
    | /** "invalid value for $pop operation" */
      InvalidPop
    | /** "field <path> not found" */
      FieldNotFound(path: string)
    | /** "field <path> is not a number" */
      NotANumber(path: string)
    | /** "invalid increment value" */
      InvalidIncrement

  /** One `path: operand` pair of an operator's field map. */
  datatype FieldOp = FieldOp(path: string, operand: Value)

  /** An operator's payload: a field map, listed in iteration order, or anything else. */
  datatype Payload = Fields(entries: seq<FieldOp>) | NotFields(other: Value)

  /** One `operator: payload` entry of an update. */
  datatype UpdateOp = UpdateOp(op: string, payload: Payload)

  type Update = seq<UpdateOp>

  const SupportedOps: set<string> :=
    {"$set", "$inc", "$unset", "$rename", "$push", "$pull", "$pullAll", "$pop", "$addToSet"}

  /** The value a path resolves to in a document. */
  function Get(m: Doc, keys: seq<string>): Option<Value>
  {
    GetNestedValue(Obj(m), keys)
  }

  /** Every segment before the last resolves to an object, so the walk reaches the map holding the field. */
  predicate ParentIsObject(m: Doc, keys: seq<string>)
    requires |keys| >= 1
    decreases |keys|
  {
    |keys| == 1 || (keys[0] in m && m[keys[0]].Obj? && ParentIsObject(m[keys[0]].fields, keys[1..]))
  }

  /** Two paths that part ways at some segment, so that neither is a prefix of the other. */
  predicate Diverge(k: seq<string>, q: seq<string>)
    decreases |k|
  {
    |k| > 0 && |q| > 0 && (k[0] != q[0] || Diverge(k[1..], q[1..]))
  }

  /** The map a creating walk descends into: the nested object, or a fresh empty one. */
  function Child(m: Doc, key: string): Doc
  {
    if key in m && m[key].Obj? then m[key].fields else map[]
  }

  // ---------------------------------------------------------------------
  // Path helpers, one per helper of the source

  /** `updateNestedField` ($set): intermediate segments that are not objects become empty objects. */
  function UpdateNestedField(m: Doc, keys: seq<string>, value: Value): Doc
    requires |keys| >= 1
    decreases |keys|
  {
    if |keys| == 1 then m[keys[0] := value]
    else m[keys[0] := Obj(UpdateNestedField(Child(m, keys[0]), keys[1..], value))]
  }

  /** `incrementField` ($inc): no segment is created; the field and the operand must both be numbers. */
  function IncrementField(m: Doc, keys: seq<string>, increment: Value, path: string): Result<Doc, UpdateError>
    requires |keys| >= 1
    decreases |keys|
  {
    if |keys| == 1 then
      if keys[0] in m && m[keys[0]].Float? then
        if increment.Float? then Ok(m[keys[0] := Float(m[keys[0]].f + increment.f)])
        else Err(InvalidIncrement)
      else Err(NotANumber(path))
    else if keys[0] in m && m[keys[0]].Obj? then
      match IncrementField(m[keys[0]].fields, keys[1..], increment, path)
      case Ok(c) => Ok(m[keys[0] := Obj(c)])
      case Err(e) => Err(e)
    else Err(FieldNotFound(path))
  }

  /** `deleteNestedField` ($unset): deletes the last segment; stops quietly at a non-object. */
  function DeleteNestedField(m: Doc, keys: seq<string>): Doc
    requires |keys| >= 1
    decreases |keys|
  {
    if |keys| == 1 then m - {keys[0]}
    else if keys[0] in m && m[keys[0]].Obj? then
      m[keys[0] := Obj(DeleteNestedField(m[keys[0]].fields, keys[1..]))]
    else m
  }

  /** `renameField` ($rename): fails when the old path is absent, otherwise unsets it and sets the new one. */
  function RenameField(m: Doc, oldKey: string, newKey: string): Result<Doc, UpdateError>
  {
    match Lookup(m, oldKey)
    case None => Err(FieldNotFound(oldKey))
    case Some(v) => Ok(UpdateNestedField(DeleteNestedField(m, Split(oldKey)), Split(newKey), v))
  }

  /** `pushToArray` ($push): appends, or puts a one-element array in place of anything else. */
  function PushToArray(m: Doc, keys: seq<string>, value: Value): Doc
    requires |keys| >= 1
    decreases |keys|
  {
    if |keys| == 1 then
      if keys[0] in m && m[keys[0]].Arr? then m[keys[0] := Arr(m[keys[0]].elems + [value])]
      else m[keys[0] := Arr([value])]
    else m[keys[0] := Obj(PushToArray(Child(m, keys[0]), keys[1..], value))]
  }

  /** The array without the first element equal to `v`, if there is one. */
  function RemoveFirst(a: seq<Value>, v: Value): seq<Value>
  {
    if a == [] then []
    else if a[0] == v then a[1..]
    else [a[0]] + RemoveFirst(a[1..], v)
  }

  /** `pullFromArray` ($pull): drops the first equal element; a missing path or a non-array is left alone. */
  function PullFromArray(m: Doc, keys: seq<string>, value: Value): Doc
    requires |keys| >= 1
    decreases |keys|
  {
    if |keys| == 1 then
      if keys[0] in m && m[keys[0]].Arr? then m[keys[0] := Arr(RemoveFirst(m[keys[0]].elems, value))]
      else m
    else if keys[0] in m && m[keys[0]].Obj? then
      m[keys[0] := Obj(PullFromArray(m[keys[0]].fields, keys[1..], value))]
    else m
  }

  /** $pullAll: one $pull per listed value, in list order. */
  function PullAll(m: Doc, keys: seq<string>, values: seq<Value>): Doc
    requires |keys| >= 1
    decreases |values|
  {
    if values == [] then m else PullAll(PullFromArray(m, keys, values[0]), keys, values[1..])
  }

  /** `popFromArray` ($pop): a missing segment is an error; an empty array or a non-array is left alone. */
  function PopFromArray(m: Doc, keys: seq<string>, fromEnd: bool, path: string): Result<Doc, UpdateError>
    requires |keys| >= 1
    decreases |keys|
  {
    if |keys| == 1 then
      if keys[0] in m && m[keys[0]].Arr? && |m[keys[0]].elems| > 0 then
        var a := m[keys[0]].elems;
        Ok(m[keys[0] := Arr(if fromEnd then a[..|a| - 1] else a[1..])])
      else Ok(m)
    else if keys[0] in m && m[keys[0]].Obj? then
      match PopFromArray(m[keys[0]].fields, keys[1..], fromEnd, path)
      case Ok(c) => Ok(m[keys[0] := Obj(c)])
      case Err(e) => Err(e)
    else Err(FieldNotFound(path))
  }

  /** `addToSet` ($addToSet): appends only a value the array does not hold yet. */
  function AddToSet(m: Doc, keys: seq<string>, value: Value): Doc
    requires |keys| >= 1
    decreases |keys|
  {
    if |keys| == 1 then
      if keys[0] in m && m[keys[0]].Arr? then
        if value in m[keys[0]].elems then m
        else m[keys[0] := Arr(m[keys[0]].elems + [value])]
      else m[keys[0] := Arr([value])]
    else m[keys[0] := Obj(AddToSet(Child(m, keys[0]), keys[1..], value))]
  }

  // ---------------------------------------------------------------------
  // applyUpdate

  /** One iteration of an operator's loop over its field map. */
  function ApplyField(doc: Doc, op: string, f: FieldOp): Result<Doc, UpdateError>
  {
    var keys := Split(f.path);
    if op == "$set" then Ok(UpdateNestedField(doc, keys, f.operand))
    else if op == "$inc" then IncrementField(doc, keys, f.operand, f.path)
    else if op == "$unset" then Ok(DeleteNestedField(doc, keys))
    else if op == "$rename" then
      if f.operand.Str? then RenameField(doc, f.path, f.operand.s) else Err(RenameTargetNotString)
    else if op == "$push" then Ok(PushToArray(doc, keys, f.operand))
    else if op == "$pull" then Ok(PullFromArray(doc, keys, f.operand))
    else if op == "$pullAll" then
      if f.operand.Arr? then Ok(PullAll(doc, keys, f.operand.elems)) else Err(InvalidPullAll)
    else if op == "$pop" then
      if f.operand == Float(1.0) then PopFromArray(doc, keys, true, f.path)
      else if f.operand == Float(-1.0) then PopFromArray(doc, keys, false, f.path)
      else Err(InvalidPop)
    else Ok(AddToSet(doc, keys, f.operand)) // $addToSet, the last of the nine supported operators
  }

  /** An operator's loop over its field map, stopping at the first error. */
  function ApplyFields(doc: Doc, op: string, fields: seq<FieldOp>): Result<Doc, UpdateError>
    decreases |fields|
  {
    if fields == [] then Ok(doc)
    else match ApplyField(doc, op, fields[0])
      case Ok(d) => ApplyFields(d, op, fields[1..])
      case Err(e) => Err(e)
  }

  /** Continue with the rest of an update after a partial result. */
  function Continue(r: Result<Doc, UpdateError>, rest: Update): Result<Doc, UpdateError>
    decreases |rest|, 1
  {
    match r
    case Ok(d) => ApplyUpdateSpec(d, rest)
    case Err(e) => Err(e)
  }

  /** What `applyUpdate` computes: the operators in order, the first error ending the run. */
  function ApplyUpdateSpec(doc: Doc, update: Update): Result<Doc, UpdateError>
    decreases |update|, 0
  {
    if update == [] then Ok(doc)
    else if update[0].op !in SupportedOps then Err(Unsupported(update[0].op))
    else if !update[0].payload.Fields? then Err(InvalidOperation(update[0].op))
    else Continue(ApplyFields(doc, update[0].op, update[0].payload.entries), update[1..])
  }

  /** `applyUpdate`: the loop over operators, each looping over its field map. */
  method ApplyUpdate(doc: Doc, update: Update) returns (r: Result<Doc, UpdateError>)
    ensures r == ApplyUpdateSpec(doc, update)
  {
    var d := doc;
    var i := 0;
    while i < |update|
      invariant 0 <= i <= |update|
      invariant ApplyUpdateSpec(doc, update) == ApplyUpdateSpec(d, update[i..])
    {
      var op := update[i].op;
      var payload := update[i].payload;
      assert update[i..][1..] == update[i + 1..];
      if op !in SupportedOps {
        return Err(Unsupported(op));
      }
      if !payload.Fields? {
        return Err(InvalidOperation(op));
      }
      var fields := payload.entries;
      var j := 0;
      while j < |fields|
        invariant 0 <= j <= |fields|
        invariant ApplyUpdateSpec(doc, update) == Continue(ApplyFields(d, op, fields[j..]), update[i + 1..])
      {
        var key := fields[j].path;
        var value := fields[j].operand;
        var keys := Split(key);
        assert fields[j..][0] == fields[j] && fields[j..][1..] == fields[j + 1..];
        ghost var step := ApplyField(d, op, fields[j]);
        if op == "$set" {
          d := UpdateNestedField(d, keys, value);
        } else if op == "$inc" {
          var res := IncrementField(d, keys, value, key);
          if res.Err? {
            return Err(res.error);
          }
          d := res.value;
        } else if op == "$unset" {
          d := DeleteNestedField(d, keys);
        } else if op == "$rename" {
          if !value.Str? {
            return Err(RenameTargetNotString);
          }
          var res := RenameField(d, key, value.s);
          if res.Err? {
            return Err(res.error);
          }
          d := res.value;
        } else if op == "$push" {
          d := PushToArray(d, keys, value);
        } else if op == "$pull" {
          d := PullFromArray(d, keys, value);
        } else if op == "$pullAll" {
          if !value.Arr? {
            return Err(InvalidPullAll);
          }
          var values := value.elems;
          var t := 0;
          while t < |values|
            invariant 0 <= t <= |values|
            invariant step == Ok(PullAll(d, keys, values[t..]))
          {
            assert values[t..][0] == values[t] && values[t..][1..] == values[t + 1..];
            d := PullFromArray(d, keys, values[t]);
            t := t + 1;
          }
          assert values[t..] == [];
        } else if op == "$pop" {
          var res: Result<Doc, UpdateError>;
          if value == Float(1.0) {
            res := PopFromArray(d, keys, true, key);
          } else if value == Float(-1.0) {
            res := PopFromArray(d, keys, false, key);
          } else {
            return Err(InvalidPop);
          }
          if res.Err? {
            return Err(res.error);
          }
          d := res.value;
        } else {
          d := AddToSet(d, keys, value);
        }
        assert step == Ok(d);
        j := j + 1;
      }
      i := i + 1;
    }
    return Ok(d);
  }
}
