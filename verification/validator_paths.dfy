/** The verdict of the validator, said of the documents themselves: of what stands at the end
    of which path. */
module ValidatorPaths {
  import opened Options
  import opened Validator

  // ---------- what counts as set ----------

  /** What stands at the end of a path of keys, through nested maps. */
  function KeyAt(t: Tree, ks: seq<string>): Option<Tree>
    decreases |ks|
  {
    if ks == [] then Some(t)
    else if t.Node? && ks[0] in t.fields then KeyAt(t.fields[ks[0]], ks[1..])
    else None
  }

  /** A bool, a list, a text that is not empty, or a number that is not zero. */
  predicate Lasting(v: Tree) {
    match v
    case Bool(_) => true
    case Items(_) => true
    case Str(s) => |s| > 0
    case Int(n) => n < 0 || n > 0
    case Float(x) => x < 0.0 || x > 0.0
    case Node(_) => false
    case Nil => false
  }

  /** A path of keys leads from here to such a value. */
  predicate LastsAt(t: Tree, ks: seq<string>) {
    KeyAt(t, ks).Some? && Lasting(KeyAt(t, ks).value)
  }

  lemma {:induction false} NotBlankIffLasts(t: Tree)
    ensures !Blank(Filtered(t)) <==> exists ks :: LastsAt(t, ks)
  {
    if t.Node? {
      var r := Filtered(t).fields;
      if !Blank(Filtered(t)) {
        assert |r| == |r.Keys|;
        var k :| k in r;
        NotBlankIffLasts(t.fields[k]);
        var ks :| LastsAt(t.fields[k], ks);
        assert ([k] + ks)[1..] == ks;
        assert LastsAt(t, [k] + ks);
      }
      if ks :| LastsAt(t, ks) {
        var k := ks[0];
        assert LastsAt(t.fields[k], ks[1..]);
        NotBlankIffLasts(t.fields[k]);
        assert k in r;
      }
    } else {
      assert KeyAt(t, []) == Some(t);
      assert Lasting(t) ==> LastsAt(t, []);
    }
  }

  /** A field survives the first pass exactly when such a value stands in it or somewhere
      below it; and unless it is a map, it survives as it is. */
  lemma FieldSurvivesIff(d: Tree, k: string)
    requires d.Node? && k in d.fields
    ensures k in Filtered(d).fields <==> exists ks :: LastsAt(d.fields[k], ks)
    ensures k in Filtered(d).fields && !d.fields[k].Node? ==> Filtered(d).fields[k] == d.fields[k]
  {
    NotBlankIffLasts(d.fields[k]);
  }

  /** No field is added, and a false is never taken for a missing one. */
  lemma FalseSurvives(d: Tree, k: string, b: bool)
    requires d.Node?
    ensures k !in d.fields ==> k !in Filtered(d).fields
    ensures k in d.fields && d.fields[k] == Bool(b) ==> k in Filtered(d).fields && Filtered(d).fields[k] == Bool(b)
  {}

  // ---------- the verdict ----------

  /** The current value does for the desired one. */
  ghost predicate Does(w: Tree, v: Tree) {
    if w.Items? && v.Items? then Covers(w, v) else w == v
  }

  /** What stands at the path in the current document does. */
  ghost predicate DoesAt(c: Tree, ks: seq<string>, v: Tree) {
    KeyAt(c, ks).Some? && Does(KeyAt(c, ks).value, v)
  }

  ghost predicate DoesEverywhere(c: Tree, d: Tree) {
    forall ks :: LastsAt(d, ks) ==> DoesAt(c, ks, KeyAt(d, ks).value)
  }

  /** Two mappings validate exactly when every value that counts as set in the desired one has
      one in the current document, under the same path of keys, that does for it. */
  lemma {:induction false} ValidatesIff(c: Tree, d: Tree)
    requires c.Node? && d.Node?
    ensures Covers(Filtered(c), Filtered(d)) <==> DoesEverywhere(c, d)
    decreases d
  {
    forall k | k in Filtered(d).fields
      ensures FieldOk(c, d, k) <==> FieldDoes(c, d, k)
    {
      FieldValidatesIff(c, d, k);
    }
    ByField(c, d);
    EverywhereByField(c, d);
  }

  /** The same for what is below one field. */
  ghost predicate FieldDoes(c: Tree, d: Tree, k: string)
    requires c.Node? && d.Node? && k in d.fields
  {
    forall ks :: LastsAt(d.fields[k], ks) ==> DoesAt(c, [k] + ks, KeyAt(d.fields[k], ks).value)
  }

  lemma KeyAtStep(t: Tree, k: string, ks: seq<string>)
    requires t.Node? && k in t.fields
    ensures KeyAt(t, [k] + ks) == KeyAt(t.fields[k], ks)
  {
    assert ([k] + ks)[1..] == ks;
  }

  lemma EverywhereByField(c: Tree, d: Tree)
    requires c.Node? && d.Node?
    ensures DoesEverywhere(c, d) <==> forall k :: k in Filtered(d).fields ==> FieldDoes(c, d, k)
  {
    if DoesEverywhere(c, d) {
      forall k, ks | k in Filtered(d).fields && LastsAt(d.fields[k], ks)
        ensures DoesAt(c, [k] + ks, KeyAt(d.fields[k], ks).value)
      {
        KeyAtStep(d, k, ks);
        assert LastsAt(d, [k] + ks);
      }
    }
    if forall k :: k in Filtered(d).fields ==> FieldDoes(c, d, k) {
      forall ks | LastsAt(d, ks) ensures DoesAt(c, ks, KeyAt(d, ks).value) {
        var k := ks[0];
        assert LastsAt(d.fields[k], ks[1..]) && ks == [k] + ks[1..];
        FieldSurvivesIff(d, k);
        assert FieldDoes(c, d, k);
      }
    }
  }

  lemma {:induction false} FieldValidatesIff(c: Tree, d: Tree, k: string)
    requires c.Node? && d.Node? && k in Filtered(d).fields
    ensures FieldOk(c, d, k) <==> FieldDoes(c, d, k)
    decreases d, 1
  {
    FieldSurvivesIff(d, k);
    if d.fields[k].Node? {
      MapFieldValidatesIff(c, d, k);
    } else {
      LeafFieldValidatesIff(c, d, k);
    }
  }

  lemma LeafFieldValidatesIff(c: Tree, d: Tree, k: string)
    requires c.Node? && d.Node? && k in Filtered(d).fields && !d.fields[k].Node?
    ensures FieldOk(c, d, k) <==> FieldDoes(c, d, k)
  {
    var v := d.fields[k];
    assert Lasting(v) && KeyAt(v, []) == Some(v);
    assert forall ks :: LastsAt(v, ks) <==> ks == [];
    assert FieldDoes(c, d, k) <==> DoesAt(c, [k] + [], v);
    assert [k] + [] == [k] && [k][1..] == [];
    assert KeyAt(c, [k]) == if k in c.fields then Some(c.fields[k]) else None;
  }

  lemma {:induction false} MapFieldValidatesIff(c: Tree, d: Tree, k: string)
    requires c.Node? && d.Node? && k in Filtered(d).fields && d.fields[k].Node?
    ensures FieldOk(c, d, k) <==> FieldDoes(c, d, k)
    decreases d, 0
  {
    FieldSurvivesIff(d, k);
    var path :| LastsAt(d.fields[k], path);
    if k in c.fields && c.fields[k].Node? {
      FieldCovered(c, d, k);
      ValidatesIff(c.fields[k], d.fields[k]);
      forall ks ensures KeyAt(c, [k] + ks) == KeyAt(c.fields[k], ks) {
        KeyAtStep(c, k, ks);
      }
      FieldDoesBelow(c, d, k);
    } else {
      assert path != [];
      assert ([k] + path)[1..] == path;
      assert KeyAt(c, [k] + path).None?;
      assert !DoesAt(c, [k] + path, KeyAt(d.fields[k], path).value);
    }
  }

  lemma FieldDoesBelow(c: Tree, d: Tree, k: string)
    requires c.Node? && d.Node? && k in d.fields && k in c.fields
    requires forall ks :: KeyAt(c, [k] + ks) == KeyAt(c.fields[k], ks)
    ensures FieldDoes(c, d, k) <==> DoesEverywhere(c.fields[k], d.fields[k])
  {
    if FieldDoes(c, d, k) {
      forall ks | LastsAt(d.fields[k], ks) ensures DoesAt(c.fields[k], ks, KeyAt(d.fields[k], ks).value) {
        assert DoesAt(c, [k] + ks, KeyAt(d.fields[k], ks).value);
      }
    }
  }

  /** So a scalar that is desired and set has to be there, and the same. */
  lemma DifferentScalarNeverValidates(c: Tree, d: Tree, ks: seq<string>)
    requires c.Node? && d.Node? && LastsAt(d, ks) && !KeyAt(d, ks).value.Items?
    requires KeyAt(c, ks) != KeyAt(d, ks)
    ensures !Covers(Filtered(c), Filtered(d))
  {
    ValidatesIff(c, d);
    assert !DoesAt(c, ks, KeyAt(d, ks).value);
  }

  // ---------- lists, and maps inside them ----------

  /** What stands at the end of a path through maps and through list items that are maps. */
  function ValueAt(t: Tree, path: seq<Step>): Option<Tree>
    decreases |path|
  {
    if path == [] then Some(t)
    else match path[0]
      case Field(k) => if t.Node? && k in t.fields then ValueAt(t.fields[k], path[1..]) else None
      case At(i) =>
        if t.Items? && i < |t.items| && t.items[i].Node? then ValueAt(t.items[i], path[1..]) else None
  }

  /** One value is like another, leaving aside what a longer path looks at. */
  predicate Alike(w: Tree, v: Tree) {
    match v
    case Node(_) => w.Node?
    case Items(vs) =>
      && w.Items? && |w.items| == |vs|
      && forall i :: 0 <= i < |vs| ==> (w.items[i].Node? && vs[i].Node?) || w.items[i] == vs[i]
    case _ => w == v
  }

  ghost predicate AlikeAt(c: Tree, path: seq<Step>, v: Tree) {
    ValueAt(c, path).Some? && Alike(ValueAt(c, path).value, v)
  }

  ghost predicate AlikeEverywhere(c: Tree, d: Tree) {
    forall path :: ValueAt(d, path).Some? ==> AlikeAt(c, path, ValueAt(d, path).value)
  }

  lemma {:induction false} CoveredIsAlike(c: Tree, d: Tree, path: seq<Step>)
    requires Covers(c, d) && ValueAt(d, path).Some?
    ensures AlikeAt(c, path, ValueAt(d, path).value)
    decreases |path|
  {
    if path != [] {
      match path[0]
      case Field(k) => CoveredIsAlike(c.fields[k], d.fields[k], path[1..]);
      case At(i) =>
        assert c.items[i].Node?;
        CoveredIsAlike(c.items[i], d.items[i], path[1..]);
    }
  }

  lemma ValueAtStep(t: Tree, s: Step, path: seq<Step>)
    ensures ValueAt(t, [s] + path) ==
      match s
      case Field(k) => (if t.Node? && k in t.fields then ValueAt(t.fields[k], path) else None)
      case At(i) => if t.Items? && i < |t.items| && t.items[i].Node? then ValueAt(t.items[i], path) else None
  {
    assert ([s] + path)[1..] == path;
  }

  lemma {:induction false} AlikeIsCovered(c: Tree, d: Tree)
    requires AlikeEverywhere(c, d)
    ensures Covers(c, d)
    decreases d
  {
    assert ValueAt(d, []) == Some(d) && AlikeAt(c, [], d);
    match d
    case Node(want) =>
      forall k | k in want ensures k in c.fields && Covers(c.fields[k], want[k]) {
        AlikeBelow(c, d, Field(k), want[k]);
        AlikeIsCovered(c.fields[k], want[k]);
      }
    case Items(want) =>
      forall i | 0 <= i < |want|
        ensures if c.items[i].Node? && want[i].Node? then Covers(c.items[i], want[i]) else c.items[i] == want[i]
      {
        if c.items[i].Node? && want[i].Node? {
          AlikeBelow(c, d, At(i), want[i]);
          AlikeIsCovered(c.items[i], want[i]);
        }
      }
    case _ =>
  }

  lemma AlikeBelow(c: Tree, d: Tree, s: Step, v: Tree)
    requires AlikeEverywhere(c, d) && ValueAt(d, [s]) == Some(v)
    ensures ValueAt(c, [s]).Some? && AlikeEverywhere(ValueAt(c, [s]).value, v)
  {
    assert [s] + [] == [s];
    ValueAtStep(d, s, []);
    ValueAtStep(c, s, []);
    assert AlikeAt(c, [s], v);
    forall path | ValueAt(v, path).Some? ensures AlikeAt(ValueAt(c, [s]).value, path, ValueAt(v, path).value) {
      ValueAtStep(d, s, path);
      ValueAtStep(c, s, path);
      assert AlikeAt(c, [s] + path, ValueAt(d, [s] + path).value);
    }
  }

  /** Covering, path by path: at every path that the second document has, the first one has
      something alike. */
  lemma CoversIff(c: Tree, d: Tree)
    ensures Covers(c, d) <==> AlikeEverywhere(c, d)
  {
    if Covers(c, d) {
      forall path | ValueAt(d, path).Some? ensures AlikeAt(c, path, ValueAt(d, path).value) {
        CoveredIsAlike(c, d, path);
      }
    }
    if AlikeEverywhere(c, d) {
      AlikeIsCovered(c, d);
    }
  }
}
