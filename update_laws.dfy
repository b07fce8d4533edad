/**
 * What each update operator does to a document, stated against the plain
 * path lookup `Get` and against `$set` (`UpdateNestedField`): every operator
 * that succeeds amounts to setting one path to a computed value, or to no
 * change at all.
 */
module UpdateLaws {
  import opened Wrappers
  import opened Values
  import opened Collections
  import opened Updates
  import Utils

  /** The array a path holds, or the empty array for anything else. */
  function ArrayAt(m: Doc, keys: seq<string>): seq<Value>
  {
    match Get(m, keys)
    case Some(Arr(a)) => a
    case _ => []
  }

  /** The array after one $pull per listed value. */
  function RemoveAll(a: seq<Value>, values: seq<Value>): seq<Value>
    decreases |values|
  {
    if values == [] then a else RemoveAll(RemoveFirst(a, values[0]), values[1..])
  }

  /** $pull drops the first equal element and keeps the others in order. */
  lemma {:induction false} RemoveFirstShape(a: seq<Value>, v: Value)
    ensures v !in a ==> RemoveFirst(a, v) == a
    ensures v in a ==> RemoveFirst(a, v) == a[..Utils.FirstIndex(a, v)] + a[Utils.FirstIndex(a, v) + 1..]
  {
    if a != [] && a[0] != v {
      RemoveFirstShape(a[1..], v);
      if v in a {
        assert v in a[1..];
        var i := Utils.FirstIndex(a[1..], v);
        assert Utils.FirstIndex(a, v) == i + 1;
        assert a[..i + 1] == [a[0]] + a[1..][..i];
        assert a[i + 2..] == a[1..][i + 1..];
      } else {
        assert a == [a[0]] + a[1..];
      }
    }
  }

  /** $pull removes one occurrence of the value, if there is one, and nothing else. */
  lemma {:induction false} RemoveFirstMultiset(a: seq<Value>, v: Value)
    ensures multiset(RemoveFirst(a, v)) == multiset(a) - multiset{v}
  {
    if a != [] {
      assert a == [a[0]] + a[1..];
      if a[0] != v {
        RemoveFirstMultiset(a[1..], v);
      }
    }
  }

  /** $pullAll removes one occurrence per listed value: a multiset difference. */
  lemma {:induction false} RemoveAllMultiset(a: seq<Value>, values: seq<Value>)
    ensures multiset(RemoveAll(a, values)) == multiset(a) - multiset(values)
    decreases |values|
  {
    if values != [] {
      assert values == [values[0]] + values[1..];
      RemoveFirstMultiset(a, values[0]);
      RemoveAllMultiset(RemoveFirst(a, values[0]), values[1..]);
    }
  }

  // ---------------------------------------------------------------------
  // Walking one segment

  lemma GetLast(m: Doc, k: string)
    ensures Get(m, [k]) == if k in m then Some(m[k]) else None
  {
    assert [k][1..] == [];
  }

  lemma GetStep(m: Doc, keys: seq<string>)
    requires |keys| > 1
    ensures Get(m, keys) == if keys[0] in m && m[keys[0]].Obj? then Get(m[keys[0]].fields, keys[1..]) else None
    ensures Get(Child(m, keys[0]), keys[1..]) == Get(m, keys)
  {
    if keys[0] in m && m[keys[0]].Obj? {
      assert Obj(m[keys[0]].fields) == m[keys[0]];
    }
  }

  lemma ArrayAtStep(m: Doc, keys: seq<string>)
    requires |keys| > 1
    ensures ArrayAt(Child(m, keys[0]), keys[1..]) == ArrayAt(m, keys)
  {
    GetStep(m, keys);
  }

  /** `ParentIsObject` says that the path without its last segment leads to an object. */
  lemma {:induction false} ParentIsObjectMeans(m: Doc, keys: seq<string>)
    requires |keys| >= 1
    ensures ParentIsObject(m, keys) <==> GetNestedValue(Obj(m), keys[..|keys| - 1]).Some? &&
                                         GetNestedValue(Obj(m), keys[..|keys| - 1]).value.Obj?
    decreases |keys|
  {
    if |keys| > 1 {
      var rest := keys[1..];
      assert keys[..|keys| - 1] == [keys[0]] + rest[..|rest| - 1];
      assert (keys[..|keys| - 1])[0] == keys[0] && (keys[..|keys| - 1])[1..] == rest[..|rest| - 1];
      if keys[0] in m && m[keys[0]].Obj? {
        ParentIsObjectMeans(m[keys[0]].fields, rest);
        assert Obj(m[keys[0]].fields) == m[keys[0]];
      }
    }
  }

  /** A path that resolves has object parents all the way. */
  lemma {:induction false} GetSomeParent(m: Doc, keys: seq<string>)
    requires |keys| >= 1 && Get(m, keys).Some?
    ensures ParentIsObject(m, keys)
    decreases |keys|
  {
    if |keys| > 1 {
      GetStep(m, keys);
      GetSomeParent(m[keys[0]].fields, keys[1..]);
    }
  }

  lemma {:induction false} DivergeSymmetric(k: seq<string>, q: seq<string>)
    requires Diverge(k, q)
    ensures Diverge(q, k)
    decreases |k|
  {
    if k[0] == q[0] {
      DivergeSymmetric(k[1..], q[1..]);
    }
  }

  // ---------------------------------------------------------------------
  // $set

  /** After setting a path, the path holds the value. */
  lemma {:induction false} SetThenGet(m: Doc, keys: seq<string>, v: Value)
    requires |keys| >= 1
    ensures Get(UpdateNestedField(m, keys, v), keys) == Some(v)
    decreases |keys|
  {
    var m' := UpdateNestedField(m, keys, v);
    if |keys| == 1 {
      assert keys == [keys[0]];
      GetLast(m', keys[0]);
    } else {
      SetThenGet(Child(m, keys[0]), keys[1..], v);
      GetStep(m', keys);
    }
  }

  /** Setting a path leaves every path that branches off it unchanged. */
  lemma {:induction false} SetFrame(m: Doc, keys: seq<string>, q: seq<string>, v: Value)
    requires |keys| >= 1 && Diverge(keys, q)
    ensures Get(UpdateNestedField(m, keys, v), q) == Get(m, q)
    decreases |keys|
  {
    var m' := UpdateNestedField(m, keys, v);
    if keys[0] != q[0] {
      assert q[0] in m' <==> q[0] in m;
      assert q[0] in m ==> m'[q[0]] == m[q[0]];
      if |q| == 1 {
        assert q == [q[0]];
        GetLast(m', q[0]);
        GetLast(m, q[0]);
      } else {
        GetStep(m', q);
        GetStep(m, q);
      }
    } else {
      SetFrame(Child(m, keys[0]), keys[1..], q[1..], v);
      GetStep(m', q);
      GetStep(m, q);
    }
  }

  /** A second set of the same path overrides the first. */
  lemma {:induction false} SetSet(m: Doc, keys: seq<string>, x: Value, y: Value)
    requires |keys| >= 1
    ensures UpdateNestedField(UpdateNestedField(m, keys, x), keys, y) == UpdateNestedField(m, keys, y)
    decreases |keys|
  {
    if |keys| > 1 {
      var m' := UpdateNestedField(m, keys, x);
      assert Child(m', keys[0]) == UpdateNestedField(Child(m, keys[0]), keys[1..], x);
      SetSet(Child(m, keys[0]), keys[1..], x, y);
    }
  }

  /** Setting a path to the value it already holds changes nothing. */
  lemma {:induction false} SetExisting(m: Doc, keys: seq<string>, x: Value)
    requires |keys| >= 1 && Get(m, keys) == Some(x)
    ensures UpdateNestedField(m, keys, x) == m
    decreases |keys|
  {
    if |keys| == 1 {
      assert keys == [keys[0]];
      GetLast(m, keys[0]);
    } else {
      GetStep(m, keys);
      SetExisting(m[keys[0]].fields, keys[1..], x);
      assert Obj(m[keys[0]].fields) == m[keys[0]];
    }
  }

  // ---------------------------------------------------------------------
  // $unset

  /** After an unset the path is gone; unsetting a path that is not there changes nothing. */
  lemma {:induction false} UnsetRemoves(m: Doc, keys: seq<string>)
    requires |keys| >= 1
    ensures Get(DeleteNestedField(m, keys), keys) == None
    ensures Get(m, keys) == None ==> DeleteNestedField(m, keys) == m
    decreases |keys|
  {
    var m' := DeleteNestedField(m, keys);
    if |keys| == 1 {
      assert keys == [keys[0]];
      GetLast(m', keys[0]);
      GetLast(m, keys[0]);
    } else {
      GetStep(m', keys);
      GetStep(m, keys);
      if keys[0] in m && m[keys[0]].Obj? {
        UnsetRemoves(m[keys[0]].fields, keys[1..]);
        assert Obj(m[keys[0]].fields) == m[keys[0]];
      }
    }
  }

  /** Unsetting a path leaves every path that branches off it unchanged. */
  lemma {:induction false} UnsetFrame(m: Doc, keys: seq<string>, q: seq<string>)
    requires |keys| >= 1 && Diverge(keys, q)
    ensures Get(DeleteNestedField(m, keys), q) == Get(m, q)
    decreases |keys|
  {
    var m' := DeleteNestedField(m, keys);
    if keys[0] != q[0] {
      assert q[0] in m' <==> q[0] in m;
      assert q[0] in m ==> m'[q[0]] == m[q[0]];
      if |q| == 1 {
        assert q == [q[0]];
        GetLast(m', q[0]);
        GetLast(m, q[0]);
      } else {
        GetStep(m', q);
        GetStep(m, q);
      }
    } else if keys[0] in m && m[keys[0]].Obj? {
      UnsetFrame(m[keys[0]].fields, keys[1..], q[1..]);
      GetStep(m', q);
      GetStep(m, q);
    }
  }

  // ---------------------------------------------------------------------
  // $inc

  /** $inc fails, in this order, on a missing parent, a non-number field and a non-number operand; otherwise it sets the sum. */
  lemma {:induction false} IncrementFieldSpec(m: Doc, keys: seq<string>, n: Value, path: string)
    requires |keys| >= 1
    ensures IncrementField(m, keys, n, path) ==
      if !ParentIsObject(m, keys) then Err(FieldNotFound(path))
      else if !(Get(m, keys).Some? && Get(m, keys).value.Float?) then Err(NotANumber(path))
      else if !n.Float? then Err(InvalidIncrement)
      else Ok(UpdateNestedField(m, keys, Float(Get(m, keys).value.f + n.f)))
    decreases |keys|
  {
    if |keys| == 1 {
      assert keys == [keys[0]];
      GetLast(m, keys[0]);
    } else {
      GetStep(m, keys);
      if keys[0] in m && m[keys[0]].Obj? {
        IncrementFieldSpec(m[keys[0]].fields, keys[1..], n, path);
      }
    }
  }

  // ---------------------------------------------------------------------
  // $push, $addToSet

  /** $push sets the path to its array (or the empty one) with the value appended. */
  lemma {:induction false} PushToArraySpec(m: Doc, keys: seq<string>, v: Value)
    requires |keys| >= 1
    ensures PushToArray(m, keys, v) == UpdateNestedField(m, keys, Arr(ArrayAt(m, keys) + [v]))
    decreases |keys|
  {
    if |keys| == 1 {
      assert keys == [keys[0]];
      GetLast(m, keys[0]);
      assert [] + [v] == [v];
    } else {
      ArrayAtStep(m, keys);
      PushToArraySpec(Child(m, keys[0]), keys[1..], v);
    }
  }

  /** $addToSet is $push unless the array already holds the value, in which case nothing changes. */
  lemma {:induction false} AddToSetSpec(m: Doc, keys: seq<string>, v: Value)
    requires |keys| >= 1
    ensures AddToSet(m, keys, v) ==
      if v in ArrayAt(m, keys) then m else UpdateNestedField(m, keys, Arr(ArrayAt(m, keys) + [v]))
    decreases |keys|
  {
    if |keys| == 1 {
      assert keys == [keys[0]];
      GetLast(m, keys[0]);
      assert [] + [v] == [v];
    } else {
      ArrayAtStep(m, keys);
      GetStep(m, keys);
      AddToSetSpec(Child(m, keys[0]), keys[1..], v);
      if v in ArrayAt(m, keys) {
        assert m[keys[0]] == Obj(Child(m, keys[0]));
      }
    }
  }

  /** A second identical $addToSet changes nothing, and the value is held once if it was not held before. */
  lemma AddToSetIdempotent(m: Doc, keys: seq<string>, v: Value)
    requires |keys| >= 1
    ensures AddToSet(AddToSet(m, keys, v), keys, v) == AddToSet(m, keys, v)
    ensures v in ArrayAt(AddToSet(m, keys, v), keys)
    ensures v !in ArrayAt(m, keys) ==> multiset(ArrayAt(AddToSet(m, keys, v), keys))[v] == 1
  {
    var a := ArrayAt(m, keys);
    AddToSetSpec(m, keys, v);
    var m' := AddToSet(m, keys, v);
    if v !in a {
      SetThenGet(m, keys, Arr(a + [v]));
      assert ArrayAt(m', keys) == a + [v];
      assert multiset(a + [v]) == multiset(a) + multiset{v};
    }
    AddToSetSpec(m', keys, v);
  }

  // ---------------------------------------------------------------------
  // $pull, $pullAll, $pop

  /** $pull sets an array at the path to itself minus the first equal element and leaves anything else alone. */
  lemma {:induction false} PullFromArraySpec(m: Doc, keys: seq<string>, v: Value)
    requires |keys| >= 1
    ensures PullFromArray(m, keys, v) ==
      if Get(m, keys).Some? && Get(m, keys).value.Arr?
      then UpdateNestedField(m, keys, Arr(RemoveFirst(Get(m, keys).value.elems, v)))
      else m
    decreases |keys|
  {
    if |keys| == 1 {
      PullLast(m, keys[0], v);
      assert keys == [keys[0]];
    } else {
      GetStep(m, keys);
      var k := keys[0];
      if k in m && m[k].Obj? {
        var c := m[k].fields;
        PullFromArraySpec(c, keys[1..], v);
        assert PullFromArray(m, keys, v) == m[k := Obj(PullFromArray(c, keys[1..], v))];
        if Get(m, keys).Some? && Get(m, keys).value.Arr? {
          var x := Arr(RemoveFirst(Get(m, keys).value.elems, v));
          assert Child(m, k) == c;
          assert UpdateNestedField(m, keys, x) == m[k := Obj(UpdateNestedField(c, keys[1..], x))];
        } else {
          assert PullFromArray(c, keys[1..], v) == c;
          assert m[k] == Obj(c);
          assert m[k := Obj(c)] == m;
        }
      }
    }
  }

  lemma PullLast(m: Doc, k: string, v: Value)
    ensures PullFromArray(m, [k], v) ==
      if Get(m, [k]).Some? && Get(m, [k]).value.Arr?
      then UpdateNestedField(m, [k], Arr(RemoveFirst(Get(m, [k]).value.elems, v)))
      else m
  {
    GetLast(m, k);
  }

  /** $pullAll removes one equal element per listed value from an array at the path. */
  lemma {:induction false} PullAllSpec(m: Doc, keys: seq<string>, values: seq<Value>)
    requires |keys| >= 1
    ensures PullAll(m, keys, values) ==
      if Get(m, keys).Some? && Get(m, keys).value.Arr?
      then UpdateNestedField(m, keys, Arr(RemoveAll(Get(m, keys).value.elems, values)))
      else m
    decreases |values|
  {
    if values == [] {
      if Get(m, keys).Some? && Get(m, keys).value.Arr? {
        SetExisting(m, keys, Get(m, keys).value);
      }
    } else {
      var m1 := PullFromArray(m, keys, values[0]);
      PullFromArraySpec(m, keys, values[0]);
      PullAllSpec(m1, keys, values[1..]);
      if Get(m, keys).Some? && Get(m, keys).value.Arr? {
        var a1 := RemoveFirst(Get(m, keys).value.elems, values[0]);
        SetThenGet(m, keys, Arr(a1));
        SetSet(m, keys, Arr(a1), Arr(RemoveAll(a1, values[1..])));
      }
    }
  }

  /** $pop fails on a missing parent, shortens a non-empty array at the chosen end, and leaves anything else alone. */
  lemma {:induction false} PopFromArraySpec(m: Doc, keys: seq<string>, fromEnd: bool, path: string)
    requires |keys| >= 1
    ensures PopFromArray(m, keys, fromEnd, path) ==
      if !ParentIsObject(m, keys) then Err(FieldNotFound(path))
      else if Get(m, keys).Some? && Get(m, keys).value.Arr? && |Get(m, keys).value.elems| > 0 then
        var a := Get(m, keys).value.elems;
        Ok(UpdateNestedField(m, keys, Arr(if fromEnd then a[..|a| - 1] else a[1..])))
      else Ok(m)
    decreases |keys|
  {
    if |keys| == 1 {
      assert keys == [keys[0]];
      GetLast(m, keys[0]);
    } else {
      GetStep(m, keys);
      var k := keys[0];
      if k in m && m[k].Obj? {
        var c := m[k].fields;
        PopFromArraySpec(c, keys[1..], fromEnd, path);
        assert ParentIsObject(m, keys) == ParentIsObject(c, keys[1..]);
        if ParentIsObject(c, keys[1..]) {
          var r := PopFromArray(c, keys[1..], fromEnd, path);
          assert PopFromArray(m, keys, fromEnd, path) == Ok(m[k := Obj(r.value)]);
          if Get(m, keys).Some? && Get(m, keys).value.Arr? && |Get(m, keys).value.elems| > 0 {
            var a := Get(m, keys).value.elems;
            var x := Arr(if fromEnd then a[..|a| - 1] else a[1..]);
            assert Child(m, k) == c;
            assert UpdateNestedField(m, keys, x) == m[k := Obj(UpdateNestedField(c, keys[1..], x))];
          } else {
            assert Get(c, keys[1..]) == Get(m, keys);
            assert r == Ok(c);
            assert m[k] == Obj(c);
            assert m[k := Obj(c)] == m;
          }
        }
      }
    }
  }

  // ---------------------------------------------------------------------
  // $rename

  /** $rename fails exactly when the old path is absent; otherwise the new path holds the old value and a divergent old path is gone. */
  lemma RenameFieldSpec(m: Doc, oldKey: string, newKey: string)
    ensures RenameField(m, oldKey, newKey).Err? <==> Lookup(m, oldKey) == None
    ensures RenameField(m, oldKey, newKey).Err? ==> RenameField(m, oldKey, newKey) == Err(FieldNotFound(oldKey))
    ensures RenameField(m, oldKey, newKey).Ok? ==>
      Lookup(RenameField(m, oldKey, newKey).value, newKey) == Lookup(m, oldKey)
    ensures RenameField(m, oldKey, newKey).Ok? && Diverge(Split(oldKey), Split(newKey)) ==>
      Lookup(RenameField(m, oldKey, newKey).value, oldKey) == None
  {
    if Lookup(m, oldKey).Some? {
      var v := Lookup(m, oldKey).value;
      var m1 := DeleteNestedField(m, Split(oldKey));
      SetThenGet(m1, Split(newKey), v);
      if Diverge(Split(oldKey), Split(newKey)) {
        DivergeSymmetric(Split(oldKey), Split(newKey));
        SetFrame(m1, Split(newKey), Split(oldKey), v);
        UnsetRemoves(m, Split(oldKey));
      }
    }
  }

  /** $rename leaves every path that branches off both the old and the new path unchanged. */
  lemma RenameFrame(m: Doc, oldKey: string, newKey: string, q: seq<string>)
    requires Diverge(Split(oldKey), q) && Diverge(Split(newKey), q)
    ensures RenameField(m, oldKey, newKey).Ok? ==> Get(RenameField(m, oldKey, newKey).value, q) == Get(m, q)
  {
    if Lookup(m, oldKey).Some? {
      var m1 := DeleteNestedField(m, Split(oldKey));
      SetFrame(m1, Split(newKey), q, Lookup(m, oldKey).value);
      UnsetFrame(m, Split(oldKey), q);
    }
  }

  // ---------------------------------------------------------------------
  // applyUpdate

  /** Running two updates one after the other is running their concatenation. */
  lemma {:induction false} ApplyUpdateAppend(doc: Doc, u1: Update, u2: Update)
    ensures ApplyUpdateSpec(doc, u1 + u2) == Continue(ApplyUpdateSpec(doc, u1), u2)
    decreases |u1|
  {
    if u1 == [] {
      assert u1 + u2 == u2;
    } else {
      assert (u1 + u2)[0] == u1[0] && (u1 + u2)[1..] == u1[1..] + u2;
      if u1[0].op in SupportedOps && u1[0].payload.Fields? {
        var r := ApplyFields(doc, u1[0].op, u1[0].payload.entries);
        if r.Ok? {
          ApplyUpdateAppend(r.value, u1[1..], u2);
        }
      }
    }
  }

  /** The field loops report only their own errors, never an operator-level one. */
  lemma {:induction false} ApplyFieldsErrors(doc: Doc, op: string, fields: seq<FieldOp>)
    ensures ApplyFields(doc, op, fields).Err? ==>
      !ApplyFields(doc, op, fields).error.Unsupported? && !ApplyFields(doc, op, fields).error.InvalidOperation?
    decreases |fields|
  {
    if fields != [] {
      var f := fields[0];
      IncrementFieldSpec(doc, Split(f.path), f.operand, f.path);
      PopFromArraySpec(doc, Split(f.path), true, f.path);
      PopFromArraySpec(doc, Split(f.path), false, f.path);
      var r := ApplyField(doc, op, f);
      if r.Ok? {
        ApplyFieldsErrors(r.value, op, fields[1..]);
      }
    }
  }

  /** An operator-level error names an operator of the update: an unknown one, or a known one whose payload is not a field map. */
  lemma {:induction false} OperatorErrorsNameTheirOperator(doc: Doc, u: Update, x: string)
    ensures ApplyUpdateSpec(doc, u) == Err(Unsupported(x)) ==>
      x !in SupportedOps && exists i :: 0 <= i < |u| && u[i].op == x
    ensures ApplyUpdateSpec(doc, u) == Err(InvalidOperation(x)) ==>
      x in SupportedOps && exists i :: 0 <= i < |u| && u[i].op == x && u[i].payload.NotFields?
    decreases |u|
  {
    if u != [] && u[0].op in SupportedOps && u[0].payload.Fields? {
      var r := ApplyFields(doc, u[0].op, u[0].payload.entries);
      ApplyFieldsErrors(doc, u[0].op, u[0].payload.entries);
      if r.Ok? {
        assert ApplyUpdateSpec(doc, u) == ApplyUpdateSpec(r.value, u[1..]);
        OperatorErrorsNameTheirOperator(r.value, u[1..], x);
        if ApplyUpdateSpec(doc, u) == Err(Unsupported(x)) {
          var i :| 0 <= i < |u[1..]| && u[1..][i].op == x;
          assert u[i + 1].op == x;
        }
        if ApplyUpdateSpec(doc, u) == Err(InvalidOperation(x)) {
          var i :| 0 <= i < |u[1..]| && u[1..][i].op == x && u[1..][i].payload.NotFields?;
          assert u[i + 1] == u[1..][i];
        }
      } else {
        assert ApplyUpdateSpec(doc, u) == Err(r.error);
      }
    }
  }

  /** An update of one operator with one field is that field's step. */
  lemma SingleStep(doc: Doc, op: string, f: FieldOp)
    requires op in SupportedOps
    ensures ApplyUpdateSpec(doc, [UpdateOp(op, Fields([f]))]) == ApplyField(doc, op, f)
  {
    var u := [UpdateOp(op, Fields([f]))];
    assert u[0].payload.entries == [f] && u[1..] == [] && [f][1..] == [];
    match ApplyField(doc, op, f)
    case Ok(d) =>
      assert ApplyFields(doc, op, [f]) == ApplyFields(d, op, []) == Ok(d);
      assert ApplyUpdateSpec(doc, u) == Continue(Ok(d), []) == Ok(d);
    case Err(e) =>
      assert ApplyFields(doc, op, [f]) == Err(e);
  }

  /** `{"$set": {p: v}}` makes `p` hold `v` and leaves every path branching off `p` unchanged. */
  lemma SetUpdate(doc: Doc, p: string, v: Value, q: seq<string>)
    ensures ApplyUpdateSpec(doc, [UpdateOp("$set", Fields([FieldOp(p, v)]))]).Ok?
    ensures Lookup(ApplyUpdateSpec(doc, [UpdateOp("$set", Fields([FieldOp(p, v)]))]).value, p) == Some(v)
    ensures Diverge(Split(p), q) ==>
      Get(ApplyUpdateSpec(doc, [UpdateOp("$set", Fields([FieldOp(p, v)]))]).value, q) == Get(doc, q)
  {
    var u := [UpdateOp("$set", Fields([FieldOp(p, v)]))];
    SingleStep(doc, "$set", FieldOp(p, v));
    SetThenGet(doc, Split(p), v);
    if Diverge(Split(p), q) {
      SetFrame(doc, Split(p), q, v);
    }
  }

  /** `{"$inc": {p: n}}` adds exactly `n` to a number at `p` and fails on anything else there. */
  lemma IncUpdate(doc: Doc, p: string, n: real)
    ensures var r := ApplyUpdateSpec(doc, [UpdateOp("$inc", Fields([FieldOp(p, Float(n))]))]);
      match Lookup(doc, p)
      case Some(Float(x)) => r.Ok? && Lookup(r.value, p) == Some(Float(x + n))
      case _ => r.Err?
  {
    var u := [UpdateOp("$inc", Fields([FieldOp(p, Float(n))]))];
    IncrementFieldSpec(doc, Split(p), Float(n), p);
    SingleStep(doc, "$inc", FieldOp(p, Float(n)));
    if Lookup(doc, p).Some? && Lookup(doc, p).value.Float? {
      GetSomeParent(doc, Split(p));
      SetThenGet(doc, Split(p), Float(Lookup(doc, p).value.f + n));
    }
  }

  /** Two identical `{"$addToSet": {p: v}}` updates leave what one leaves, with `v` held once if it was absent. */
  lemma AddToSetTwice(doc: Doc, p: string, v: Value)
    ensures var one := [UpdateOp("$addToSet", Fields([FieldOp(p, v)]))];
      ApplyUpdateSpec(doc, one + one) == ApplyUpdateSpec(doc, one) &&
      ApplyUpdateSpec(doc, one).Ok? &&
      (v !in ArrayAt(doc, Split(p)) ==> multiset(ArrayAt(ApplyUpdateSpec(doc, one).value, Split(p)))[v] == 1)
  {
    var one := [UpdateOp("$addToSet", Fields([FieldOp(p, v)]))];
    var d := AddToSet(doc, Split(p), v);
    SingleStep(doc, "$addToSet", FieldOp(p, v));
    SingleStep(d, "$addToSet", FieldOp(p, v));
    ApplyUpdateAppend(doc, one, one);
    AddToSetIdempotent(doc, Split(p), v);
  }
}
