/**
 * The tagged value tree every owl-db document is made of, and dot-separated
 * field paths.  A decoded document is a `Doc`: a map from field names to
 * values.  Go's `float64` is `Float` (a real number), Go's `int`/`int64` is
 * `Int`, `time.Time` is `Time` (an instant counted in an integral unit).
 */
module Values {

  datatype Value =
    | Null
    | Bool(b: bool)
    | Int(i: int)
    | Float(f: real)
    | Str(s: string)
    | Time(t: int)
    | Arr(elems: seq<Value>)
    | Obj(fields: map<string, Value>)

  type Doc = map<string, Value>

  /** `strings.Split(s, ".")`: never empty, no segment holds a dot. */
  function Split(s: string): (parts: seq<string>)
    ensures |parts| >= 1
    ensures forall i :: 0 <= i < |parts| ==> '.' !in parts[i]
  {
    if s == [] then [""]
    else if s[0] == '.' then [""] + Split(s[1..])
    else
      var rest := Split(s[1..]);
      [[s[0]] + rest[0]] + rest[1..]
  }

  /** `strings.Join(parts, ".")`. */
  function Join(parts: seq<string>): string
    requires |parts| >= 1
  {
    if |parts| == 1 then parts[0] else parts[0] + "." + Join(parts[1..])
  }

  /** A string with no dot is a one-segment path. */
  lemma {:induction false} SplitNoDot(s: string)
    requires '.' !in s
    ensures Split(s) == [s]
  {
    if s != [] {
      assert s[0] != '.' && '.' !in s[1..];
      SplitNoDot(s[1..]);
      assert [s[0]] + s[1..] == s;
    }
  }

  /** Joining the segments of a split string gives the string back. */
  lemma {:induction false} JoinSplit(s: string)
    ensures Join(Split(s)) == s
  {
    if s == [] {
    } else if s[0] == '.' {
      JoinSplit(s[1..]);
    } else {
      var rest := Split(s[1..]);
      JoinSplit(s[1..]);
      if |rest| == 1 {
      } else {
        assert Join(rest) == rest[0] + "." + Join(rest[1..]);
        assert Split(s)[1..] == rest[1..];
        calc {
          Join(Split(s));
          ([s[0]] + rest[0]) + "." + Join(rest[1..]);
          [s[0]] + (rest[0] + "." + Join(rest[1..]));
          [s[0]] + s[1..];
        }
      }
    }
  }

  /** Splitting a join of dot-free segments gives the segments back. */
  lemma {:induction false} SplitJoin(parts: seq<string>)
    requires |parts| >= 1
    requires forall i :: 0 <= i < |parts| ==> '.' !in parts[i]
    ensures Split(Join(parts)) == parts
  {
    if |parts| == 1 {
      SplitNoDot(parts[0]);
    } else {
      SplitJoin(parts[1..]);
      SplitPrefix(parts[0], Join(parts[1..]));
    }
  }

  /** Splitting `w + "." + t` for a dot-free `w` puts `w` in front of the split of `t`. */
  lemma {:induction false} SplitPrefix(w: string, t: string)
    requires '.' !in w
    ensures Split(w + "." + t) == [w] + Split(t)
  {
    if w == [] {
      assert w + "." + t == ['.'] + t;
      assert (['.'] + t)[1..] == t;
    } else {
      assert (w + "." + t)[0] == w[0];
      assert (w + "." + t)[1..] == w[1..] + "." + t;
      SplitPrefix(w[1..], t);
      assert [w[0]] + w[1..] == w;
    }
  }
}
