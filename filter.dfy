/**
 * The filter evaluator: `matchDocument`, `applyOperator` and the operator
 * helpers, over filters given as sequences of entries in iteration order.
 *
 * `regexp.MatchString` is the parameter `re(pattern, text)`; an invalid
 * pattern is one for which it answers false.
 */
module Filters {
  import opened Wrappers
  import opened Values

  datatype Filter = Filter(entries: seq<Entry>)

  /** A `key: argument` pair of a filter or of an operator object. */
  datatype Entry = Entry(key: string, arg: Arg)

  /** A filter argument: a plain value, an operator object (a `Filter`), or a list of filters (`[]Filter`). */
  datatype Arg = Lit(v: Value) | Sub(f: Filter) | Subs(fs: seq<Filter>)

  type Matcher = (string, string) -> bool

  /** The argument as a plain value; `Filter` and `[]Filter` arguments are never equal to a document value. */
  function AsValue(a: Arg): Option<Value>
  {
    if a.Lit? then Some(a.v) else None
  }

  /**
   * `getFindNestedValue`: descend while the values are objects; the first
   * non-object (or missing) segment gives its own value, `Null` if absent.
   */
  function FindNested(m: Doc, keys: seq<string>): Value
    decreases |keys|
  {
    if keys == [] then Obj(m)
    else if keys[0] in m && m[keys[0]].Obj? then FindNested(m[keys[0]].fields, keys[1..])
    else if keys[0] in m then m[keys[0]]
    else Null
  }

  /** The loop of `getFindNestedValue`, rebinding `m` at each object. */
  method GetFindNestedValue(doc: Doc, keys: seq<string>) returns (r: Value)
    ensures r == FindNested(doc, keys)
  {
    var m := doc;
    var i := 0;
    while i < |keys|
      invariant 0 <= i <= |keys|
      invariant FindNested(doc, keys) == FindNested(m, keys[i..])
    {
      var key := keys[i];
      assert keys[i..][0] == key && keys[i..][1..] == keys[i + 1..];
      if key in m && m[key].Obj? {
        m := m[key].fields;
      } else {
        return if key in m then m[key] else Null;
      }
      i := i + 1;
    }
    assert keys[i..] == [];
    return Obj(m);
  }

  /** `compare`: float/float and time/time pairs are ordered; any other pair is "less". */
  function Compare(a: Value, b: Option<Value>): (c: int)
    ensures -1 <= c <= 1
  {
    match (a, b)
    case (Float(x), Some(Float(y))) => if x < y then -1 else if x > y then 1 else 0
    case (Time(x), Some(Time(y))) => if x < y then -1 else if x > y then 1 else 0
    case _ => -1
  }

  /** The pairs `compare` actually orders. */
  predicate Comparable(a: Value, b: Value)
  {
    (a.Float? && b.Float?) || (a.Time? && b.Time?)
  }

  /** `isIn`: the operand must be a list. */
  function IsIn(fieldValue: Value, values: Option<Value>): bool
  {
    values.Some? && values.value.Arr? && fieldValue in values.value.elems
  }

  /** `checkType`: five type names are known. */
  function CheckType(fieldValue: Value, expected: Option<Value>): bool
  {
    match expected
    case Some(Str(t)) =>
      if t == "string" then fieldValue.Str?
      else if t == "int" then fieldValue.Int?
      else if t == "float" then fieldValue.Float?
      else if t == "bool" then fieldValue.Bool?
      else if t == "time" then fieldValue.Time?
      else false
    case _ => false
  }

  /** `applyRegex`: only a string field and a string pattern reach the matcher. */
  function ApplyRegex(re: Matcher, fieldValue: Value, pattern: Option<Value>): bool
  {
    fieldValue.Str? && pattern.Some? && pattern.value.Str? && re(pattern.value.s, fieldValue.s)
  }

  /** `applyOperator`: a plain value is an equality test; an operator object is decided by its first entry. */
  function ApplyOperator(re: Matcher, doc: Doc, field: string, arg: Arg): bool
    decreases arg
  {
    match arg
    case Lit(v) => FindNested(doc, Split(field)) == v
    case Sub(f) => if f.entries == [] then false else ApplyOp(re, doc, field, f.entries[0])
    case Subs(_) => false
  }

  /** One operator of an operator object, applied to the field. */
  function ApplyOp(re: Matcher, doc: Doc, field: string, e: Entry): bool
    decreases e
  {
    var fieldValue := FindNested(doc, Split(field));
    var opVal := AsValue(e.arg);
    if e.key == "$gt" then Compare(fieldValue, opVal) > 0
    else if e.key == "$lt" then Compare(fieldValue, opVal) < 0
    else if e.key == "$gte" then Compare(fieldValue, opVal) >= 0
    else if e.key == "$lte" then Compare(fieldValue, opVal) <= 0
    else if e.key == "$in" then IsIn(fieldValue, opVal)
    else if e.key == "$nin" then !IsIn(fieldValue, opVal)
    else if e.key == "$ne" then opVal != Some(fieldValue)
    else if e.key == "$exists" then opVal == Some(Bool(fieldValue != Null))
    else if e.key == "$type" then CheckType(fieldValue, opVal)
    else if e.key == "$regex" then ApplyRegex(re, fieldValue, opVal)
    else if e.key == "$not" then !ApplyOperator(re, doc, field, e.arg)
    else false
  }

  /** `matchDocument`. */
  function Match(re: Matcher, doc: Doc, filter: Filter): bool
    decreases filter, 1
  {
    MatchEntries(re, doc, filter.entries)
  }

  /** The loop of `matchDocument` over the filter's entries; `$or` and `$nor` end it. */
  function MatchEntries(re: Matcher, doc: Doc, entries: seq<Entry>): bool
    decreases entries, 0
  {
    if entries == [] then true
    else
      var e := entries[0];
      if e.key == "$and" then
        e.arg.Subs? && AllMatch(re, doc, e.arg.fs) && MatchEntries(re, doc, entries[1..])
      else if e.key == "$or" then
        e.arg.Subs? && AnyMatch(re, doc, e.arg.fs)
      else if e.key == "$nor" then
        e.arg.Subs? && !AnyMatch(re, doc, e.arg.fs)
      else
        ApplyOperator(re, doc, e.key, e.arg) && MatchEntries(re, doc, entries[1..])
  }

  function AllMatch(re: Matcher, doc: Doc, fs: seq<Filter>): bool
    decreases fs, 2
  {
    fs == [] || (Match(re, doc, fs[0]) && AllMatch(re, doc, fs[1..]))
  }

  function AnyMatch(re: Matcher, doc: Doc, fs: seq<Filter>): bool
    decreases fs, 2
  {
    fs != [] && (Match(re, doc, fs[0]) || AnyMatch(re, doc, fs[1..]))
  }
}
