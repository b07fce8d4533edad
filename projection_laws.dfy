/** What projection guarantees: the verdict rule, a clean result, idempotence, and that `true` entries remove nothing. */
module ProjectionLaws {
  import opened Wrappers
  import opened Values
  import opened Projection

  // ---------------------------------------------------------------------
  // isExcluded

  lemma {:induction false} AncestorVerdictFirst(parts: seq<string>, sel: Select, from: nat, i: nat)
    requires 1 <= from <= i < |parts|
    requires Join(parts[..i]) in sel
    requires forall j :: from <= j < i ==> Join(parts[..j]) !in sel
    ensures AncestorVerdict(parts, sel, from) == !sel[Join(parts[..i])]
    decreases i - from
  {
    if from < i {
      AncestorVerdictFirst(parts, sel, from + 1, i);
    }
  }

  lemma {:induction false} AncestorVerdictNone(parts: seq<string>, sel: Select, from: nat)
    requires 1 <= from
    requires forall j :: from <= j < |parts| ==> Join(parts[..j]) !in sel
    ensures !AncestorVerdict(parts, sel, from)
    decreases |parts| - from
  {
    if from < |parts| {
      AncestorVerdictNone(parts, sel, from + 1);
    }
  }

  /** With no entry for the path itself, the shortest listed ancestor decides. */
  lemma ShortestAncestorDecides(path: string, sel: Select, i: nat)
    requires path !in sel
    requires 1 <= i < |Split(path)| && Join(Split(path)[..i]) in sel
    requires forall j :: 1 <= j < i ==> Join(Split(path)[..j]) !in sel
    ensures IsExcluded(path, sel) == !sel[Join(Split(path)[..i])]
  {
    AncestorVerdictFirst(Split(path), sel, 1, i);
  }

  /** A path with no entry and no listed ancestor is kept. */
  lemma UnlistedKept(path: string, sel: Select)
    requires path !in sel
    requires forall j :: 1 <= j < |Split(path)| ==> Join(Split(path)[..j]) !in sel
    ensures !IsExcluded(path, sel)
  {
    AncestorVerdictNone(Split(path), sel, 1);
  }

  /** A select map whose entries are all `true` excludes nothing. */
  predicate IncludesOnly(sel: Select)
  {
    forall p :: p in sel ==> sel[p]
  }

  lemma {:induction false} IncludesOnlyNoVerdict(parts: seq<string>, sel: Select, from: nat)
    requires 1 <= from && IncludesOnly(sel)
    ensures !AncestorVerdict(parts, sel, from)
    decreases |parts| - from
  {
    if from < |parts| && Join(parts[..from]) !in sel {
      IncludesOnlyNoVerdict(parts, sel, from + 1);
    }
  }

  lemma IncludesOnlyNotExcluded(path: string, sel: Select)
    requires IncludesOnly(sel)
    ensures !IsExcluded(path, sel)
  {
    if path !in sel {
      IncludesOnlyNoVerdict(Split(path), sel, 1);
    }
  }

  // ---------------------------------------------------------------------
  // removeExcludedFields

  /** No kept path is excluded and no nested object is empty: nothing is left for a projection to do. */
  predicate Settled(m: Doc, sel: Select, cur: string)
    decreases Obj(m)
  {
    forall k :: k in m ==>
      !IsExcluded(Full(cur, k), sel) &&
      match m[k]
      case Obj(n) => n != map[] && Settled(n, sel, Full(cur, k))
      case _ => true
  }

  /** The projection drops only keys of the input, and its result is settled. */
  lemma {:induction false} ProjectSettles(m: Doc, sel: Select, cur: string)
    ensures Project(m, sel, cur).Keys <= m.Keys
    ensures Settled(Project(m, sel, cur), sel, cur)
    decreases Obj(m)
  {
    var p := Project(m, sel, cur);
    forall k | k in p
      ensures !IsExcluded(Full(cur, k), sel)
      ensures match p[k] case Obj(n) => n != map[] && Settled(n, sel, Full(cur, k)) case _ => true
    {
      match m[k]
      case Obj(n) =>
        ProjectSettles(n, sel, Full(cur, k));
      case _ =>
    }
  }

  /** A settled document is its own projection. */
  lemma {:induction false} SettledFixpoint(m: Doc, sel: Select, cur: string)
    requires Settled(m, sel, cur)
    ensures Project(m, sel, cur) == m
    decreases Obj(m)
  {
    forall k | k in m
      ensures ProjectValue(m[k], sel, Full(cur, k)) == Some(m[k])
    {
      match m[k]
      case Obj(n) =>
        SettledFixpoint(n, sel, Full(cur, k));
      case _ =>
    }
  }

  /** Projecting twice with the same select map is projecting once. */
  lemma ProjectIdempotent(m: Doc, sel: Select, cur: string)
    ensures Project(Project(m, sel, cur), sel, cur) == Project(m, sel, cur)
  {
    ProjectSettles(m, sel, cur);
    SettledFixpoint(Project(m, sel, cur), sel, cur);
  }

  /** No nested object of the document is empty. */
  predicate NoEmptyObjects(m: Doc)
    decreases Obj(m)
  {
    forall k :: k in m ==> match m[k] case Obj(n) => n != map[] && NoEmptyObjects(n) case _ => true
  }

  lemma {:induction false} IncludesOnlySettled(m: Doc, sel: Select, cur: string)
    requires IncludesOnly(sel) && NoEmptyObjects(m)
    ensures Settled(m, sel, cur)
    decreases Obj(m)
  {
    forall k | k in m
      ensures !IsExcluded(Full(cur, k), sel)
      ensures match m[k] case Obj(n) => n != map[] && Settled(n, sel, Full(cur, k)) case _ => true
    {
      IncludesOnlyNotExcluded(Full(cur, k), sel);
      match m[k]
      case Obj(n) =>
        IncludesOnlySettled(n, sel, Full(cur, k));
      case _ =>
    }
  }

  /** `true` entries do not restrict: without `false` entries only empty nested objects go. */
  lemma IncludesOnlyKeepsAll(m: Doc, sel: Select, cur: string)
    requires IncludesOnly(sel) && NoEmptyObjects(m)
    ensures Project(m, sel, cur) == m
  {
    IncludesOnlySettled(m, sel, cur);
    SettledFixpoint(m, sel, cur);
  }

  /** An excluded key is gone, whatever it held. */
  lemma ExcludedGone(m: Doc, sel: Select, cur: string, k: string)
    requires k in m && IsExcluded(Full(cur, k), sel)
    ensures k !in Project(m, sel, cur)
  {
  }

  /** Excluding `"a.b"` keeps the sibling `"a.c"`; when `"b"` was all `"a"` held, `"a"` goes too. */
  lemma SiblingExample(v: Value, w: Value)
    requires !v.Obj? && !w.Obj?
    ensures Project(map["a" := Obj(map["b" := v, "c" := w])], map["a.b" := false], "") ==
      map["a" := Obj(map["c" := w])]
    ensures Project(map["a" := Obj(map["b" := v])], map["a.b" := false], "") == map[]
  {
    var sel := map["a.b" := false];
    SiblingVerdicts();
    assert ProjectValue(v, sel, Full("a", "b")) == None;
    assert ProjectValue(w, sel, Full("a", "c")) == Some(w);
    var m1 := map["b" := v, "c" := w];
    var inner := Project(m1, sel, "a");
    assert m1["b"] == v && m1["c"] == w;
    assert "b" !in inner;
    assert "c" in inner && inner["c"] == w;
    assert inner == map["c" := w];
    var m2 := map["b" := v];
    assert m2["b"] == v;
    var inner2 := Project(m2, sel, "a");
    assert "b" !in inner2;
    assert inner2 == map[];
  }

  /** The verdicts of `{"a.b": false}` on `a`, `a.b` and `a.c`. */
  lemma SiblingVerdicts()
    ensures Full("", "a") == "a" && Full("a", "b") == "a.b" && Full("a", "c") == "a.c"
    ensures !IsExcluded("a", map["a.b" := false])
    ensures IsExcluded("a.b", map["a.b" := false])
    ensures !IsExcluded("a.c", map["a.b" := false])
  {
    var sel := map["a.b" := false];
    SplitNoDot("a");
    SplitNoDot("c");
    assert Full("", "a") == "a" && Full("a", "b") == "a.b" && Full("a", "c") == "a.c";
    SplitPrefix("a", "c");
    assert Split("a.c") == ["a", "c"];
    assert Split("a.c")[..1] == ["a"];
    assert Join(["a"]) == "a";
    UnlistedKept("a", sel);
    UnlistedKept("a.c", sel);
  }
}
