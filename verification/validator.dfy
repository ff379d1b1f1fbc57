/** The subset validator: two pruning passes and a deep equality, against one recursive
    relation "current covers desired". */
module Validator {
  /** A decoded YAML value; `Node` is a Go map, `Items` a Go slice. */
  datatype Tree =
    | Node(fields: map<string, Tree>)
    | Items(items: seq<Tree>)
    | Str(s: string)
    | Int(n: int)
    | Float(x: real)
    | Bool(b: bool)
    | Nil

  // ---------- what the two passes compute ----------

  /** Values that count as not set.  False and empty lists are not among them. */
  predicate Blank(v: Tree) {
    match v
    case Node(fields) => |fields| == 0
    case Str(s) => s == ""
    case Int(n) => n == 0
    case Float(x) => x == 0.0
    case Nil => true
    case _ => false
  }

  /** Blank fields dropped at every depth of nested maps; lists are left alone. */
  function Filtered(t: Tree): (r: Tree)
    ensures t.Node? <==> r.Node?
    ensures !t.Node? ==> r == t
  {
    match t
    case Node(fields) =>
      Node(map k | k in fields && !Blank(Filtered(fields[k])) :: Filtered(fields[k]))
    case _ => t
  }

  /** Whether pruning keeps field `k` with value `v`. */
  predicate Keeps(v: Tree, ref: Tree, k: string)
    requires ref.Node?
    decreases v, 1
  {
    && k in ref.fields
    && (v.Node? ==> ref.fields[k].Node? && !(|Pruned(v, ref.fields[k]).fields| == 0 && |ref.fields[k].fields| > 0))
  }

  /** `v` reduced to what `ref` mentions. */
  function Pruned(v: Tree, ref: Tree): (r: Tree)
    ensures v.Node? <==> r.Node?
    ensures v.Items? <==> r.Items?
    decreases v, 0
  {
    if v.Node? && ref.Node? then
      Node(map k | k in v.fields && Keeps(v.fields[k], ref, k) :: Pruned(v.fields[k], ref.fields[k]))
    else if v.Items? && ref.Items? then
      Items(seq(|v.items|, i requires 0 <= i < |v.items| =>
        if i < |ref.items| && v.items[i].Node? && ref.items[i].Node? then Pruned(v.items[i], ref.items[i])
        else v.items[i]))
    else v
  }

  // ---------- the relation they decide ----------

  /** Everything desired is there, at any depth; lists have equal length and are compared
      element by element, maps in them by covering and everything else exactly. */
  ghost predicate Covers(c: Tree, d: Tree)
    decreases d
  {
    match d
    case Node(want) =>
      c.Node? && forall k :: k in want ==> k in c.fields && Covers(c.fields[k], want[k])
    case Items(want) =>
      c.Items? && |c.items| == |want| && forall i :: 0 <= i < |want| ==>
        if c.items[i].Node? && want[i].Node? then Covers(c.items[i], want[i]) else c.items[i] == want[i]
    case _ => c == d
  }

  // ---------- pruning decides covering ----------

  /** Deep equality after pruning is exactly covering. */
  lemma {:induction false} PrunedEqualsIffCovers(c: Tree, d: Tree)
    ensures Pruned(c, d) == d <==> Covers(c, d)
    decreases d
  {
    match d
    case Node(want) =>
      if c.Node? {
        forall k | k in want && k in c.fields
          ensures Pruned(c.fields[k], want[k]) == want[k] <==> Covers(c.fields[k], want[k])
        {
          PrunedEqualsIffCovers(c.fields[k], want[k]);
        }
        if Covers(c, d) {
          CoveredFieldsStay(c, d);
          assert Pruned(c, d).fields == want;
        }
        if Pruned(c, d) == d {
          forall k | k in want ensures k in c.fields && Covers(c.fields[k], want[k]) {
            assert k in Pruned(c, d).fields;
          }
        }
      }
    case Items(want) =>
      if c.Items? {
        forall i | 0 <= i < |want| && i < |c.items|
          ensures Pruned(c.items[i], want[i]) == want[i] <==> Covers(c.items[i], want[i])
        {
          PrunedEqualsIffCovers(c.items[i], want[i]);
        }
        var p := Pruned(c, d).items;
        if Covers(c, d) {
          assert p == want;
        }
        if Pruned(c, d) == d {
          forall i | 0 <= i < |want|
            ensures if c.items[i].Node? && want[i].Node? then Covers(c.items[i], want[i]) else c.items[i] == want[i]
          {
            assert p[i] == want[i];
          }
        }
      }
    case _ =>
  }

  lemma PrunedField(c: Tree, d: Tree, k: string)
    requires c.Node? && d.Node?
    ensures k in Pruned(c, d).fields <==> k in c.fields && Keeps(c.fields[k], d, k)
    ensures k in Pruned(c, d).fields ==> Pruned(c, d).fields[k] == Pruned(c.fields[k], d.fields[k])
  {}

  lemma KeptWhenCovered(c: Tree, d: Tree, k: string)
    requires c.Node? && d.Node? && k in d.fields && k in c.fields
    requires Pruned(c.fields[k], d.fields[k]) == d.fields[k]
    ensures Keeps(c.fields[k], d, k)
  {}

  lemma CoveredFieldsStay(c: Tree, d: Tree)
    requires c.Node? && d.Node?
    requires forall k :: k in d.fields ==> k in c.fields && Pruned(c.fields[k], d.fields[k]) == d.fields[k]
    ensures Pruned(c, d) == d
  {
    var p := Pruned(c, d).fields;
    forall k ensures k in p <==> k in d.fields {
      PrunedField(c, d, k);
      if k in d.fields {
        KeptWhenCovered(c, d, k);
      }
    }
    forall k | k in d.fields ensures p[k] == d.fields[k] {
      PrunedField(c, d, k);
    }
    assert p == d.fields;
  }

  lemma {:induction false} CoversReflexive(t: Tree)
    ensures Covers(t, t)
  {
    match t
    case Node(fields) =>
      forall k | k in fields ensures Covers(fields[k], fields[k]) {
        CoversReflexive(fields[k]);
      }
    case Items(items) =>
      forall i | 0 <= i < |items| ensures Covers(items[i], items[i]) {
        CoversReflexive(items[i]);
      }
    case _ =>
  }

  lemma {:induction false} CoversTransitive(a: Tree, b: Tree, c: Tree)
    requires Covers(a, b) && Covers(b, c)
    ensures Covers(a, c)
    decreases c
  {
    match c
    case Node(want) =>
      forall k | k in want ensures k in a.fields && Covers(a.fields[k], want[k]) {
        CoversTransitive(a.fields[k], b.fields[k], want[k]);
      }
    case Items(want) =>
      forall i | 0 <= i < |want|
        ensures if a.items[i].Node? && want[i].Node? then Covers(a.items[i], want[i]) else a.items[i] == want[i]
      {
        if a.items[i].Node? && want[i].Node? {
          CoversTransitive(a.items[i], b.items[i], want[i]);
        }
      }
    case _ =>
  }

  // ---------- the passes are idempotent ----------

  lemma {:induction false} FilteredTwice(t: Tree)
    ensures Filtered(Filtered(t)) == Filtered(t)
  {
    if t.Node? {
      forall k | k in t.fields ensures Filtered(Filtered(t.fields[k])) == Filtered(t.fields[k]) {
        FilteredTwice(t.fields[k]);
      }
      assert Filtered(Filtered(t)).fields == Filtered(t).fields;
    }
  }

  lemma {:induction false} PrunedTwice(c: Tree, d: Tree)
    ensures Pruned(Pruned(c, d), d) == Pruned(c, d)
    decreases c
  {
    if c.Node? && d.Node? {
      var p := Pruned(c, d);
      forall k | k in p.fields
        ensures Keeps(p.fields[k], d, k) && Pruned(p.fields[k], d.fields[k]) == p.fields[k]
      {
        PrunedField(c, d, k);
        PrunedTwice(c.fields[k], d.fields[k]);
      }
      forall k ensures k in Pruned(p, d).fields <==> k in p.fields {
        PrunedField(p, d, k);
      }
      assert Pruned(p, d).fields == p.fields;
    } else if c.Items? && d.Items? {
      var p := Pruned(c, d);
      forall i | 0 <= i < |c.items| ensures Pruned(p, d).items[i] == p.items[i] {
        if i < |d.items| {
          PrunedTwice(c.items[i], d.items[i]);
        }
      }
      assert Pruned(p, d).items == p.items;
    }
  }

  // ---------- extra fields do not matter ----------

  /** One step into a document. */
  datatype Step = Field(k: string) | At(i: nat)

  /** `c` with a value put in under the field at the end of a path through nested maps and
      through maps that are list items, if the path is there. */
  function PutAt(c: Tree, path: seq<Step>, v: Tree): (r: Tree)
    ensures (r.Node? <==> c.Node?) && (r.Items? <==> c.Items?)
    ensures c.Node? || c.Items? || r == c
    decreases |path|
  {
    if path == [] then c
    else match path[0]
      case Field(k) =>
        if !c.Node? then c
        else if |path| == 1 then Node(c.fields[k := v])
        else if k in c.fields then Node(c.fields[k := PutAt(c.fields[k], path[1..], v)])
        else c
      case At(i) =>
        if c.Items? && i < |c.items| && c.items[i].Node? then Items(c.items[i := PutAt(c.items[i], path[1..], v)])
        else c
  }

  /** The desired document does not mention the end of the path. */
  predicate NotDesired(d: Tree, path: seq<Step>)
    decreases |path|
  {
    path == [] ||
    match path[0]
    case Field(k) => d.Node? && k in d.fields ==> |path| > 1 && NotDesired(d.fields[k], path[1..])
    case At(i) => d.Items? && i < |d.items| && d.items[i].Node? ==> NotDesired(d.items[i], path[1..])
  }

  /** Covering never looks at what is put where nothing is desired. */
  lemma {:induction false} PutKeepsCovering(c: Tree, d: Tree, path: seq<Step>, v: Tree)
    requires NotDesired(d, path)
    ensures Covers(PutAt(c, path, v), d) <==> Covers(c, d)
    decreases |path|
  {
    if path != [] {
      match path[0]
      case Field(k) =>
        if c.Node? && d.Node? && k in c.fields && k in d.fields {
          PutKeepsCovering(c.fields[k], d.fields[k], path[1..], v);
        }
      case At(i) =>
        if c.Items? && d.Items? && i < |c.items| && i < |d.items| && c.items[i].Node? {
          PutInItem(c, d, i, path, v);
        }
    }
  }

  lemma {:induction false} PutInItem(c: Tree, d: Tree, i: nat, path: seq<Step>, v: Tree)
    requires NotDesired(d, path) && path != [] && path[0] == At(i)
    requires c.Items? && d.Items? && i < |c.items| && i < |d.items| && c.items[i].Node?
    ensures Covers(PutAt(c, path, v), d) <==> Covers(c, d)
    decreases |path|, 0
  {
    if d.items[i].Node? {
      PutKeepsCovering(c.items[i], d.items[i], path[1..], v);
    }
    forall x | 0 <= x < |d.items| && x < |c.items|
      ensures ItemOk(PutAt(c, path, v), d, x) <==> ItemOk(c, d, x)
    {}
    ByItem(c, d);
    ByItem(PutAt(c, path, v), d);
  }

  /** What covering asks of one list item. */
  ghost predicate ItemOk(c: Tree, d: Tree, i: nat)
    requires c.Items? && d.Items? && i < |c.items| && i < |d.items|
  {
    if c.items[i].Node? && d.items[i].Node? then Covers(c.items[i], d.items[i]) else c.items[i] == d.items[i]
  }

  lemma ByItem(c: Tree, d: Tree)
    requires c.Items? && d.Items?
    ensures Covers(c, d) <==>
      |c.items| == |d.items| && forall i :: 0 <= i < |d.items| && i < |c.items| ==> ItemOk(c, d, i)
  {
    if Covers(c, d) {
      forall i | 0 <= i < |d.items| && i < |c.items| ensures ItemOk(c, d, i) {
        var x, y := c.items[i], d.items[i];
        assert if x.Node? && y.Node? then Covers(x, y) else x == y;
      }
    }
    if |c.items| == |d.items| && forall i :: 0 <= i < |d.items| && i < |c.items| ==> ItemOk(c, d, i) {
      forall i | 0 <= i < |d.items|
        ensures
          if c.items[i].Node? && d.items[i].Node? then Covers(c.items[i], d.items[i])
          else c.items[i] == d.items[i]
      {
        assert ItemOk(c, d, i);
      }
    }
  }

  /** A field that the (filtered) desired document does not mention never changes the
      verdict, wherever it is: in nested maps, and in maps inside lists. */
  lemma {:induction false} ExtraFieldsIgnored(c: Tree, d: Tree, path: seq<Step>, v: Tree)
    requires c.Node? && d.Node? && NotDesired(Filtered(d), path)
    ensures Covers(Filtered(PutAt(c, path, v)), Filtered(d)) <==> Covers(Filtered(c), Filtered(d))
    decreases |path|
  {
    if path != [] && path[0].Field? {
      var c', k := PutAt(c, path, v), path[0].k;
      if k in Filtered(d).fields && k in c.fields {
        assert c'.fields[k] == PutAt(c.fields[k], path[1..], v);
        if c.fields[k].Node? {
          if Filtered(d).fields[k].Node? {
            ExtraFieldsIgnored(c.fields[k], d.fields[k], path[1..], v);
          }
          InnerField(c, c', d, k);
        } else {
          PutKeepsCovering(c.fields[k], Filtered(d).fields[k], path[1..], v);
        }
      }
      forall x | x in Filtered(d).fields ensures FieldOk(c', d, x) <==> FieldOk(c, d, x) {}
      ByField(c, d);
      ByField(c', d);
    }
  }

  /** One map in the place of another, both covering what is asked of them or neither. */
  lemma InnerField(c: Tree, c': Tree, d: Tree, k: string)
    requires c.Node? && c'.Node? && d.Node? && k in Filtered(d).fields
    requires k in c.fields && c.fields[k].Node? && k in c'.fields && c'.fields[k].Node?
    requires Filtered(d).fields[k].Node? ==>
      (Covers(Filtered(c'.fields[k]), Filtered(d.fields[k])) <==> Covers(Filtered(c.fields[k]), Filtered(d.fields[k])))
    ensures FieldOk(c', d, k) <==> FieldOk(c, d, k)
  {
    if Filtered(d).fields[k].Node? {
      FieldCovered(c, d, k);
      FieldCovered(c', d, k);
    } else {
      MapNeverCovers(c, d, k);
      MapNeverCovers(c', d, k);
    }
  }

  /** What covering asks of one field. */
  ghost predicate FieldOk(c: Tree, d: Tree, k: string)
    requires c.Node? && d.Node? && k in Filtered(d).fields
  {
    k in Filtered(c).fields && Covers(Filtered(c).fields[k], Filtered(d).fields[k])
  }

  lemma MapNeverCovers(c: Tree, d: Tree, k: string)
    requires c.Node? && d.Node? && k in c.fields && c.fields[k].Node?
    requires k in Filtered(d).fields && !Filtered(d).fields[k].Node?
    ensures !FieldOk(c, d, k)
  {}

  lemma ByField(c: Tree, d: Tree)
    requires c.Node? && d.Node?
    ensures Covers(Filtered(c), Filtered(d)) <==> forall k :: k in Filtered(d).fields ==> FieldOk(c, d, k)
  {}

  /** For a field that is a map on both sides, filtering first makes no difference: a
      desired map that survives filtering is not empty. */
  lemma FieldCovered(c: Tree, d: Tree, k: string)
    requires c.Node? && d.Node? && k in c.fields && c.fields[k].Node?
    requires k in Filtered(d).fields && Filtered(d).fields[k].Node?
    ensures Filtered(d).fields[k] == Filtered(d.fields[k])
    ensures FieldOk(c, d, k) <==> Covers(Filtered(c.fields[k]), Filtered(d.fields[k]))
  {
    var want := Filtered(d.fields[k]);
    assert |want.fields| == |want.fields.Keys|;
    var x :| x in want.fields;
    if Blank(Filtered(c.fields[k])) {
      assert x !in Filtered(c.fields[k]).fields;
    }
  }

  // ---------- the code ----------

  /** The first pass.  The fields are visited in an arbitrary order, and deleting while
      ranging is what Go allows. */
  method FilterEmptyFields(data: Tree) returns (r: Tree)
    requires data.Node?
    ensures r == Filtered(data)
    decreases data
  {
    var out := data.fields;
    var left := data.fields.Keys;
    while left != {}
      invariant left <= data.fields.Keys
      invariant forall k :: k in out <==> k in left || (k in data.fields && !Blank(Filtered(data.fields[k])))
      invariant forall k :: k in out ==> out[k] == if k in left then data.fields[k] else Filtered(data.fields[k])
      decreases left
    {
      var k :| k in left;
      left := left - {k};
      match data.fields[k] {
        case Node(_) =>
          var sub := FilterEmptyFields(data.fields[k]);
          out := out[k := sub];
          if |sub.fields| == 0 {
            out := out - {k};
          }
        case Str(s) =>
          if s == "" {
            out := out - {k};
          }
        case Int(n) =>
          if n == 0 {
            out := out - {k};
          }
        case Float(x) =>
          if x == 0.0 {
            out := out - {k};
          }
        case Nil =>
          out := out - {k};
        case _ =>
      }
    }
    r := Node(out);
    assert out == Filtered(data).fields;
  }

  /** The second pass. */
  method CleanMapBasedOnAnother(base: Tree, ref: Tree) returns (r: Tree)
    requires base.Node? && ref.Node?
    ensures r == Pruned(base, ref)
    decreases base
  {
    var out := base.fields;
    var left := base.fields.Keys;
    while left != {}
      invariant left <= base.fields.Keys
      invariant forall k :: k in out <==> k in left || (k in base.fields && Keeps(base.fields[k], ref, k))
      invariant forall k :: k in out ==>
        out[k] == if k in left then base.fields[k] else Pruned(base.fields[k], ref.fields[k])
      decreases left
    {
      var k :| k in left;
      left := left - {k};
      var v := base.fields[k];
      if k !in ref.fields {
        out := out - {k};
        continue;
      }
      var refVal := ref.fields[k];
      if v.Node? {
        if refVal.Node? {
          var sub := CleanMapBasedOnAnother(v, refVal);
          out := out[k := sub];
          if |sub.fields| == 0 && |refVal.fields| > 0 {
            out := out - {k};
          }
        } else {
          out := out - {k};
        }
      } else if v.Items? && refVal.Items? {
        var list := CleanItems(v, refVal);
        out := out[k := list];
      }
    }
    r := Node(out);
    assert out == Pruned(base, ref).fields;
  }

  method CleanItems(base: Tree, ref: Tree) returns (r: Tree)
    requires base.Items? && ref.Items?
    ensures r == Pruned(base, ref)
    decreases base
  {
    var list := base.items;
    for i := 0 to |base.items|
      invariant |list| == |base.items|
      invariant forall j :: 0 <= j < i ==> list[j] == Pruned(base, ref).items[j]
      invariant forall j :: i <= j < |list| ==> list[j] == base.items[j]
    {
      if i < |ref.items| {
        if base.items[i].Node? && ref.items[i].Node? {
          var item := CleanMapBasedOnAnother(base.items[i], ref.items[i]);
          list := list[i := item];
        }
      }
    }
    r := Items(list);
    assert list == Pruned(base, ref).items;
  }

  /** A document as the decoder leaves it: not a mapping at all, empty (a nil Go map), or
      a mapping. */
  datatype Document = Invalid | Empty | Mapping(root: Tree)

  predicate WellFormed(doc: Document) {
    doc.Mapping? ==> doc.root.Node?
  }

  /** The verdict, and the two processed documents.  A nil map is deeply equal only to
      another nil map. */
  method ValidateYaml(desired: Document, current: Document) returns (ok: bool, want: Document, have: Document)
    requires WellFormed(desired) && WellFormed(current)
    ensures ok <==>
      || (desired.Empty? && current.Empty?)
      || (desired.Mapping? && current.Mapping? && Covers(Filtered(current.root), Filtered(desired.root)))
    ensures desired.Mapping? && current.Mapping? ==>
      want.Mapping? && want.root == Filtered(desired.root) &&
      have.Mapping? && have.root == Pruned(Filtered(current.root), Filtered(desired.root))
  {
    if desired.Invalid? {
      return false, Mapping(Node(map[])), Mapping(Node(map[]));
    }
    if current.Invalid? {
      return false, desired, Mapping(Node(map[]));
    }
    want, have := desired, current;
    if desired.Mapping? {
      var d := FilterEmptyFields(desired.root);
      want := Mapping(d);
    }
    if current.Mapping? {
      var c := FilterEmptyFields(current.root);
      var p := CleanMapBasedOnAnother(c, if want.Mapping? then want.root else Node(map[]));
      have := Mapping(p);
    }
    if desired.Mapping? && current.Mapping? {
      PrunedEqualsIffCovers(Filtered(current.root), Filtered(desired.root));
    }
    ok := have == want;
  }

  /** Every document validates against itself. */
  lemma ValidatesItself(t: Tree)
    requires t.Node?
    ensures Pruned(Filtered(t), Filtered(t)) == Filtered(t)
  {
    CoversReflexive(Filtered(t));
    PrunedEqualsIffCovers(Filtered(t), Filtered(t));
  }
}
