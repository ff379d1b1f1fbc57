/** What a Same verdict means.  Two documents come out Same exactly when they are equal
    with maps read as finite maps and lists read as sets, and the second one repeats no
    element in any of its lists. */
module DiffSemantics {
  import opened YamlValue
  import opened DiffSpec

  /** Equality with maps read as finite maps and lists read as sets. */
  ghost predicate Equal(a: Value, b: Value)
    decreases a
  {
    match a
    case Map(ea) =>
      b.Map? && Keys(ea) == Keys(b.entries) && forall k :: k in Keys(ea) ==> EqualAt(a, b, k)
    case List(va) =>
      b.List? &&
      (forall i: nat :: i < |va| ==> HasPartner(a, i, b.items)) &&
      (forall j: nat :: j < |b.items| ==> IsPartner(a, b.items, j))
    case _ => a == b
  }

  ghost predicate EqualAt(a: Value, b: Value, k: string)
    requires a.Map? && b.Map?
    decreases a, 0
  {
    var i, j := KeyIndex(a.entries, k), KeyIndex(b.entries, k);
    i < |a.entries| && j < |b.entries| && Equal(a.entries[i].value, b.entries[j].value)
  }

  /** Element i of the list `a` equals some element of `vb`. */
  ghost predicate HasPartner(a: Value, i: nat, vb: seq<Value>)
    requires a.List? && i < |a.items|
    decreases a, 0
  {
    exists j: nat :: j < |vb| && Equal(a.items[i], vb[j])
  }

  /** Element j of `vb` equals some element of the list `a`. */
  ghost predicate IsPartner(a: Value, vb: seq<Value>, j: nat)
    requires a.List? && j < |vb|
    decreases a, 0
  {
    exists i: nat :: i < |a.items| && Equal(a.items[i], vb[j])
  }

  lemma PartnerOf(a: Value, i: nat, b: Value) returns (j: nat)
    requires a.List? && b.List? && Equal(a, b) && i < |a.items|
    ensures j < |b.items| && Equal(a.items[i], b.items[j])
  {
    assert HasPartner(a, i, b.items);
    j :| j < |b.items| && Equal(a.items[i], b.items[j]);
  }

  lemma PartnerTo(a: Value, b: Value, j: nat) returns (i: nat)
    requires a.List? && b.List? && Equal(a, b) && j < |b.items|
    ensures i < |a.items| && Equal(a.items[i], b.items[j])
  {
    assert IsPartner(a, b.items, j);
    i :| i < |a.items| && Equal(a.items[i], b.items[j]);
  }

  /** No list, at any depth, holds two equal elements. */
  ghost predicate RepeatFree(v: Value) {
    match v
    case Map(es) => forall i :: 0 <= i < |es| ==> RepeatFree(es[i].value)
    case List(vs) =>
      (forall i :: 0 <= i < |vs| ==> RepeatFree(vs[i])) &&
      (forall i, j :: 0 <= i < j < |vs| ==> !Equal(vs[i], vs[j]))
    case _ => true
  }

  // ---------- Equal is an equivalence ----------

  lemma {:induction false} EqualReflexive(a: Value)
    ensures Equal(a, a)
  {
    match a
    case Map(es) =>
      forall k | k in Keys(es) ensures EqualAt(a, a, k) {
        KeyIndexFinds(es, k);
        EqualReflexive(es[KeyIndex(es, k)].value);
      }
    case List(vs) =>
      forall i: nat | i < |vs| ensures HasPartner(a, i, vs) && IsPartner(a, vs, i) {
        EqualReflexive(vs[i]);
      }
    case _ =>
  }

  lemma {:induction false} EqualSymmetric(a: Value, b: Value)
    requires Equal(a, b)
    ensures Equal(b, a)
    decreases a
  {
    match a
    case Map(es) =>
      forall k | k in Keys(es) ensures EqualAt(b, a, k) {
        assert EqualAt(a, b, k);
        EqualSymmetric(es[KeyIndex(es, k)].value, b.entries[KeyIndex(b.entries, k)].value);
      }
    case List(vs) =>
      var ws := b.items;
      forall i: nat | i < |vs| ensures IsPartner(b, vs, i) {
        var j := PartnerOf(a, i, b);
        EqualSymmetric(vs[i], ws[j]);
      }
      forall j: nat | j < |ws| ensures HasPartner(b, j, vs) {
        var i := PartnerTo(a, b, j);
        EqualSymmetric(vs[i], ws[j]);
      }
    case _ =>
  }

  lemma {:induction false} EqualTransitive(a: Value, b: Value, c: Value)
    requires Equal(a, b) && Equal(b, c)
    ensures Equal(a, c)
    decreases a
  {
    match a
    case Map(es) =>
      forall k | k in Keys(es) ensures EqualAt(a, c, k) {
        assert EqualAt(a, b, k) && EqualAt(b, c, k);
        EqualTransitive(es[KeyIndex(es, k)].value, b.entries[KeyIndex(b.entries, k)].value,
                        c.entries[KeyIndex(c.entries, k)].value);
      }
    case List(vs) =>
      var ws, xs := b.items, c.items;
      forall i: nat | i < |vs| ensures HasPartner(a, i, xs) {
        var j := PartnerOf(a, i, b);
        var k := PartnerOf(b, j, c);
        EqualTransitive(vs[i], ws[j], xs[k]);
      }
      forall k: nat | k < |xs| ensures IsPartner(a, xs, k) {
        var j := PartnerTo(b, c, k);
        var i := PartnerTo(a, b, j);
        EqualTransitive(vs[i], ws[j], xs[k]);
      }
    case _ =>
  }

  // ---------- the exact meaning of Same ----------

  ghost predicate IsSame(a: Value, b: Value) {
    DiffOf(a, b, 0).status.Same?
  }

  /** The main result, for all documents at any depth. */
  lemma {:induction false} SameMeansEqual(a: Value, b: Value, level: nat)
    requires Decoded(a) && Decoded(b)
    ensures DiffOf(a, b, level).status.Same? <==> Equal(a, b) && RepeatFree(b)
    decreases a
  {
    if a.Map? && b.Map? {
      SameMaps(a, b, level);
    } else if a.List? && b.List? {
      SameLists(a, b, level);
    }
  }

  lemma {:induction false} SameMaps(a: Value, b: Value, level: nat)
    requires Decoded(a) && Decoded(b) && a.Map? && b.Map?
    ensures DiffOf(a, b, level).status.Same? <==> Equal(a, b) && RepeatFree(b)
    decreases a, 0
  {
    var keys, m := Keys(a.entries) + Keys(b.entries), MapDiffs(a, b, level + 1);
    forall k | k in keys ensures m[k].status.Same? <==> SameAt(a, b, k) {
      SameAtKey(a, b, k, level + 1);
    }
    if AllSame(m) {
      assert forall k :: k in keys ==> k in m;
    }
    assert AllSame(m) <==> forall k :: k in keys ==> SameAt(a, b, k);
    SameEverywhere(a, b);
  }

  ghost predicate SameAt(a: Value, b: Value, k: string)
    requires a.Map? && b.Map?
  {
    EqualAt(a, b, k) && RepeatFree(b.entries[KeyIndex(b.entries, k)].value)
  }

  lemma SameEverywhereIsEqual(a: Value, b: Value)
    requires a.Map? && b.Map? && DistinctKeys(b.entries)
    requires forall k :: k in Keys(a.entries) + Keys(b.entries) ==> SameAt(a, b, k)
    ensures Equal(a, b) && RepeatFree(b)
  {
    var ea, eb := a.entries, b.entries;
    forall k ensures k in Keys(ea) <==> k in Keys(eb) {
      KeyIndexFinds(ea, k);
      KeyIndexFinds(eb, k);
      assert k in Keys(ea) + Keys(eb) ==> SameAt(a, b, k);
    }
    assert Equal(a, b) by {
      assert forall k :: k in Keys(ea) ==> SameAt(a, b, k);
    }
    forall i | 0 <= i < |eb| ensures RepeatFree(eb[i].value) {
      DistinctKeyIndex(eb, i);
      assert eb[i].key in Keys(eb) && SameAt(a, b, eb[i].key);
    }
  }

  lemma SameEverywhere(a: Value, b: Value)
    requires a.Map? && b.Map? && DistinctKeys(b.entries)
    ensures (forall k :: k in Keys(a.entries) + Keys(b.entries) ==> SameAt(a, b, k)) <==> Equal(a, b) && RepeatFree(b)
  {
    var ea, eb := a.entries, b.entries;
    if forall k :: k in Keys(ea) + Keys(eb) ==> SameAt(a, b, k) {
      SameEverywhereIsEqual(a, b);
    }
    if Equal(a, b) && RepeatFree(b) {
      forall k | k in Keys(ea) + Keys(eb) ensures SameAt(a, b, k) {
        assert k in Keys(ea) && EqualAt(a, b, k);
        KeyIndexFinds(eb, k);
      }
    }
  }

  lemma {:induction false} SameAtKey(a: Value, b: Value, k: string, level: nat)
    requires Decoded(a) && Decoded(b) && a.Map? && b.Map?
    requires k in Keys(a.entries) + Keys(b.entries)
    ensures KeyDiff(a, b, k, level).status.Same? <==>
      EqualAt(a, b, k) && RepeatFree(b.entries[KeyIndex(b.entries, k)].value)
    decreases a, 0, 0
  {
    var ea, eb := a.entries, b.entries;
    KeyIndexFinds(ea, k);
    KeyIndexFinds(eb, k);
    var i, j := KeyIndex(ea, k), KeyIndex(eb, k);
    assert i < |ea| ==> Decoded(ea[i].value);
    if i < |ea| && j < |eb| {
      SameMeansEqual(ea[i].value, eb[j].value, level);
    }
  }

  lemma {:induction false} SameLists(a: Value, b: Value, level: nat)
    requires Decoded(a) && Decoded(b) && a.List? && b.List?
    ensures DiffOf(a, b, level).status.Same? <==> Equal(a, b) && RepeatFree(b)
    decreases a, 0
  {
    var va, vb := a.items, b.items;
    var m: seq<seq<Diff>> := Pairwise(a, b, level + 1);
    forall i: nat, j: nat | i < |va| && j < |vb|
      ensures Agrees(a, b, m, i, j)
    {
      SameMeansEqual(va[i], vb[j], level + 1);
    }
    if DiffOf(a, b, level).status.Same? {
      SameListsForward(a, b, m);
    }
    if Equal(a, b) && RepeatFree(b) {
      SameListsBackward(a, b, m);
    }
  }

  /** Entry (i, j) of the matrix judges the two elements correctly. */
  ghost predicate Agrees(a: Value, b: Value, m: Matrix, i: nat, j: nat)
    requires a.List? && b.List? && |m| == |a.items| && Shape(m, |b.items|)
    requires i < |m| && j < |b.items|
  {
    m[i][j].status.Same? <==> Equal(a.items[i], b.items[j]) && RepeatFree(b.items[j])
  }

  lemma SameListsForward(a: Value, b: Value, m: Matrix)
    requires a.List? && b.List? && |m| == |a.items| && Shape(m, |b.items|)
    requires forall i: nat, j: nat :: i < |m| && j < |b.items| ==> Agrees(a, b, m, i, j)
    requires FreeA(m) == {} && FreeB(m, |b.items|) == {}
    ensures Equal(a, b) && RepeatFree(b)
  {
    var va, vb := a.items, b.items;
    forall i: nat | i < |va| ensures HasPartner(a, i, vb) {
      assert i !in FreeA(m);
      assert Agrees(a, b, m, i, FirstSame(m[i]));
    }
    forall j: nat | j < |vb| ensures IsPartner(a, vb, j) && RepeatFree(vb[j]) {
      var i := ClaimedBy(a, b, m, j);
    }
    forall j: nat, j': nat | j < j' < |vb| ensures !Equal(vb[j], vb[j']) {
      if Equal(vb[j], vb[j']) {
        var i := ClaimedBy(a, b, m, j');
        assert RepeatFree(vb[j]) && Agrees(a, b, m, i, j);
        EqualSymmetric(vb[j], vb[j']);
        EqualTransitive(va[i], vb[j'], vb[j]);
        assert false;
      }
    }
  }

  lemma ClaimedBy(a: Value, b: Value, m: Matrix, j: nat) returns (i: nat)
    requires a.List? && b.List? && |m| == |a.items| && Shape(m, |b.items|)
    requires forall i: nat, j: nat :: i < |m| && j < |b.items| ==> Agrees(a, b, m, i, j)
    requires FreeB(m, |b.items|) == {} && j < |b.items|
    ensures i < |m| && FirstSame(m[i]) == j && Equal(a.items[i], b.items[j]) && RepeatFree(b.items[j])
  {
    assert j !in FreeB(m, |b.items|);
    assert Claimed(m, j);
    i :| i < |m| && FirstSame(m[i]) == j;
    assert Agrees(a, b, m, i, j);
  }

  lemma SameListsBackward(a: Value, b: Value, m: Matrix)
    requires a.List? && b.List? && |m| == |a.items| && Shape(m, |b.items|)
    requires forall i: nat, j: nat :: i < |m| && j < |b.items| ==> Agrees(a, b, m, i, j)
    requires Equal(a, b) && RepeatFree(b)
    ensures FreeA(m) == {} && FreeB(m, |b.items|) == {}
  {
    var va, vb := a.items, b.items;
    forall i: nat | i < |va| ensures i !in FreeA(m) {
      var j := PartnerOf(a, i, b);
      assert Agrees(a, b, m, i, j);
    }
    forall j: nat | j < |vb| ensures Claimed(m, j) {
      var i := PartnerTo(a, b, j);
      assert Agrees(a, b, m, i, j);
      var first := FirstSame(m[i]);
      if first != j {
        assert first < j && Agrees(a, b, m, i, first);
        EqualSymmetric(va[i], vb[first]);
        EqualTransitive(vb[first], va[i], vb[j]);
      }
    }
  }

  // ---------- consequences ----------

  /** A document is Same as itself exactly when none of its lists repeats an element. */
  lemma SameAsItself(a: Value)
    requires Decoded(a)
    ensures IsSame(a, a) <==> RepeatFree(a)
  {
    SameMeansEqual(a, a, 0);
    EqualReflexive(a);
  }

  /** A Same verdict may be turned round exactly when the first document repeats nothing. */
  lemma SameTurnedRound(a: Value, b: Value)
    requires Decoded(a) && Decoded(b) && IsSame(a, b)
    ensures IsSame(b, a) <==> RepeatFree(a)
  {
    SameMeansEqual(a, b, 0);
    SameMeansEqual(b, a, 0);
    EqualSymmetric(a, b);
  }

  /** Same is transitive on all documents, repeating or not. */
  lemma SameTransitive(a: Value, b: Value, c: Value)
    requires Decoded(a) && Decoded(b) && Decoded(c) && IsSame(a, b) && IsSame(b, c)
    ensures IsSame(a, c)
  {
    SameMeansEqual(a, b, 0);
    SameMeansEqual(b, c, 0);
    SameMeansEqual(a, c, 0);
    EqualTransitive(a, b, c);
  }

  /** Replacing documents by equal ones leaves the verdict alone, except exactly when they
      are equal to each other and one right document repeats an element and the other does
      not. */
  lemma SameRespectsEqual(a: Value, a': Value, b: Value, b': Value)
    requires Decoded(a) && Decoded(a') && Decoded(b) && Decoded(b')
    requires Equal(a, a') && Equal(b, b')
    ensures (IsSame(a, b) <==> IsSame(a', b')) <==> (Equal(a, b) ==> (RepeatFree(b) <==> RepeatFree(b')))
  {
    SameMeansEqual(a, b, 0);
    SameMeansEqual(a', b', 0);
    EqualSymmetric(a, a');
    EqualSymmetric(b, b');
    if Equal(a, b) {
      EqualTransitive(a', a, b);
      EqualTransitive(a', b, b');
    }
    if Equal(a', b') {
      EqualTransitive(a, a', b');
      EqualTransitive(a, b', b);
    }
  }

  /** A rearrangement: `p` visits every index once. */
  ghost predicate Permutation(p: seq<nat>, n: nat) {
    && |p| == n
    && (forall i :: 0 <= i < n ==> p[i] < n)
    && (forall i, j :: 0 <= i < j < n ==> p[i] != p[j])
  }

  lemma PermutationReaches(p: seq<nat>, n: nat, x: nat)
    requires Permutation(p, n) && x < n
    ensures exists i :: 0 <= i < n && p[i] == x
  {
    if forall i :: 0 <= i < n ==> p[i] != x {
      var q := seq(n, i requires 0 <= i < n => if p[i] > x then p[i] - 1 else p[i]);
      assert forall i, j :: 0 <= i < j < n ==> q[i] != q[j] by {
        forall i, j | 0 <= i < j < n ensures q[i] != q[j] {
          assert p[i] != p[j] && p[i] != x && p[j] != x;
        }
      }
      Pigeonhole(q, n - 1);
    }
  }

  /** More than n distinct numbers do not fit below n. */
  lemma {:induction false} Pigeonhole(q: seq<nat>, n: nat)
    requires |q| > n
    requires forall i :: 0 <= i < |q| ==> q[i] < n
    requires forall i, j :: 0 <= i < j < |q| ==> q[i] != q[j]
    ensures false
    decreases n
  {
    if n > 0 {
      var last := q[|q|-1];
      var r := seq(|q| - 1, i requires 0 <= i < |q| - 1 => if q[i] > last then q[i] - 1 else q[i]);
      forall i, j | 0 <= i < j < |r| ensures r[i] != r[j] {
        assert q[i] != q[j] && q[i] != last && q[j] != last;
      }
      forall i | 0 <= i < |r| ensures r[i] < n - 1 {
        assert q[i] != last && q[i] < n && last < n;
      }
      Pigeonhole(r, n - 1);
    } else {
      assert false;
    }
  }

  /** `b` is `a` with the entries of its maps rearranged, at any depth. */
  ghost predicate Shuffled(a: Value, b: Value)
    decreases a
  {
    match a
    case Map(es) => b.Map? && exists p: seq<nat> :: ShuffledBy(a, b, p)
    case List(vs) => b.List? && |b.items| == |vs| && forall i :: 0 <= i < |vs| ==> Shuffled(vs[i], b.items[i])
    case _ => a == b
  }

  ghost predicate ShuffledBy(a: Value, b: Value, p: seq<nat>)
    requires a.Map? && b.Map?
    decreases a, 0
  {
    && Permutation(p, |a.entries|) && |b.entries| == |a.entries|
    && forall i :: 0 <= i < |p| ==>
        b.entries[i].key == a.entries[p[i]].key && Shuffled(a.entries[p[i]].value, b.entries[i].value)
  }

  /** Key order is invisible: a document with its maps rearranged is equal to it, and as
      free of repetitions. */
  lemma {:induction false} KeyOrderInvisible(a: Value, b: Value)
    requires Decoded(a) && Shuffled(a, b)
    ensures Decoded(b) && Equal(a, b)
    ensures RepeatFree(a) <==> RepeatFree(b)
    decreases a
  {
    match a
    case Map(es) => EntryOrderInvisible(a, b);
    case List(vs) =>
      var ws := b.items;
      forall i: nat | i < |vs|
        ensures Decoded(ws[i]) && Equal(vs[i], ws[i]) && (RepeatFree(vs[i]) <==> RepeatFree(ws[i]))
        ensures HasPartner(a, i, ws) && IsPartner(a, ws, i)
      {
        KeyOrderInvisible(vs[i], ws[i]);
      }
      EqualItemsRepeatAlike(vs, ws);
    case _ =>
  }

  lemma EqualItemsRepeatAlike(vs: seq<Value>, ws: seq<Value>)
    requires |vs| == |ws| && forall i :: 0 <= i < |vs| ==> Equal(vs[i], ws[i])
    ensures forall i, j :: 0 <= i < j < |vs| ==> (Equal(vs[i], vs[j]) <==> Equal(ws[i], ws[j]))
  {
    forall i, j | 0 <= i < j < |vs| ensures Equal(vs[i], vs[j]) <==> Equal(ws[i], ws[j]) {
      EqualSymmetric(vs[i], ws[i]);
      EqualSymmetric(vs[j], ws[j]);
      if Equal(vs[i], vs[j]) {
        EqualTransitive(ws[i], vs[i], vs[j]);
        EqualTransitive(ws[i], vs[j], ws[j]);
      }
      if Equal(ws[i], ws[j]) {
        EqualTransitive(vs[i], ws[i], ws[j]);
        EqualTransitive(vs[i], ws[j], vs[j]);
      }
    }
  }

  lemma {:induction false} EntryOrderInvisible(a: Value, b: Value)
    requires Decoded(a) && a.Map? && Shuffled(a, b)
    ensures Decoded(b) && Equal(a, b)
    ensures RepeatFree(a) <==> RepeatFree(b)
    decreases a, 0
  {
    var es, fs := a.entries, b.entries;
    var p :| ShuffledBy(a, b, p);
    forall i | 0 <= i < |fs|
      ensures var v, w := es[p[i]].value, fs[i].value;
        Decoded(w) && Equal(v, w) && (RepeatFree(v) <==> RepeatFree(w))
    {
      KeyOrderInvisible(es[p[i]].value, fs[i].value);
    }
    forall i, j | 0 <= i < j < |fs| ensures fs[i].key != fs[j].key {
      assert p[i] != p[j];
      assert es[p[i]].key != es[p[j]].key;
    }
    SameKeysShuffled(es, fs, p);
    forall k | k in Keys(es) ensures EqualAt(a, b, k) {
      KeyIndexFinds(es, k);
      KeyIndexFinds(fs, k);
      var j := KeyIndex(fs, k);
      assert es[p[j]].key == k;
      DistinctKeyIndex(es, p[j]);
    }
    if RepeatFree(b) {
      forall x | 0 <= x < |es| ensures RepeatFree(es[x].value) {
        PermutationReaches(p, |es|, x);
        var i :| 0 <= i < |es| && p[i] == x;
        assert RepeatFree(fs[i].value);
      }
    }
  }

  lemma SameKeysShuffled(es: seq<Entry>, fs: seq<Entry>, p: seq<nat>)
    requires |es| == |fs| && Permutation(p, |es|) && forall i :: 0 <= i < |fs| ==> fs[i].key == es[p[i]].key
    ensures Keys(es) == Keys(fs)
  {
    forall k | k in Keys(es) ensures k in Keys(fs) {
      var x :| 0 <= x < |es| && es[x].key == k;
      PermutationReaches(p, |es|, x);
      var i :| 0 <= i < |es| && p[i] == x;
      assert fs[i].key == k;
    }
    forall k | k in Keys(fs) ensures k in Keys(es) {
      var i :| 0 <= i < |fs| && fs[i].key == k;
      assert es[p[i]].key == k;
    }
  }

  /** So no verdict depends on the order of keys, on either side. */
  lemma VerdictIgnoresKeyOrder(a: Value, b: Value, c: Value)
    requires Decoded(a) && Decoded(c) && Shuffled(a, b)
    ensures Decoded(b)
    ensures IsSame(a, c) <==> IsSame(b, c)
    ensures IsSame(c, a) <==> IsSame(c, b)
  {
    KeyOrderInvisible(a, b);
    EqualReflexive(c);
    SameRespectsEqual(a, b, c, c);
    SameRespectsEqual(c, c, a, b);
  }

  /** `p` pairs the elements of the two lists off, one to one. */
  ghost predicate Rearranges(va: seq<Value>, vb: seq<Value>, p: seq<nat>) {
    |va| == |vb| && Permutation(p, |va|) && forall i :: 0 <= i < |va| ==> Equal(va[i], vb[p[i]])
  }

  /** For lists without repetitions "equal as sets" is "a rearrangement of each other". */
  lemma RepeatFreeListsAreRearranged(va: seq<Value>, vb: seq<Value>)
    requires RepeatFree(List(va)) && RepeatFree(List(vb))
    ensures Equal(List(va), List(vb)) <==> exists p :: Rearranges(va, vb, p)
  {
    var a, b := List(va), List(vb);
    if Equal(a, b) {
      EqualSymmetric(a, b);
      var p := Matching(va, vb);
      var q := Matching(vb, va);
      if |va| > |vb| {
        Pigeonhole(p, |vb|);
      } else if |vb| > |va| {
        Pigeonhole(q, |va|);
      }
      assert Rearranges(va, vb, p);
    }
    if p :| Rearranges(va, vb, p) {
      forall i: nat | i < |va| ensures HasPartner(a, i, vb) {
        assert Equal(va[i], vb[p[i]]);
      }
      forall j: nat | j < |vb| ensures IsPartner(a, vb, j) {
        PermutationReaches(p, |va|, j);
      }
    }
  }

  /** Each element of a repetition-free list has its own partner. */
  lemma Matching(va: seq<Value>, vb: seq<Value>) returns (p: seq<nat>)
    requires RepeatFree(List(va)) && Equal(List(va), List(vb))
    ensures |p| == |va|
    ensures forall i :: 0 <= i < |va| ==> p[i] < |vb| && Equal(va[i], vb[p[i]])
    ensures forall i, j :: 0 <= i < j < |va| ==> p[i] != p[j]
  {
    p := [];
    while |p| < |va|
      invariant |p| <= |va|
      invariant forall i :: 0 <= i < |p| ==> p[i] < |vb| && Equal(va[i], vb[p[i]])
    {
      var j := PartnerOf(List(va), |p|, List(vb));
      p := p + [j];
    }
    forall i, j | 0 <= i < j < |va| ensures p[i] != p[j] {
      if p[i] == p[j] {
        EqualSymmetric(va[j], vb[p[j]]);
        EqualTransitive(va[i], vb[p[i]], va[j]);
        assert false;
      }
    }
  }

  // ---------- where the obvious statement fails ----------

  /** `[1, 1]` differs from itself, yet is Same as `[1]`; and not the other way round. */
  lemma RepetitionsBreakReflexivity()
    ensures var one := Scalar(IntKind, "1");
      && !IsSame(List([one, one]), List([one, one]))
      && IsSame(List([one, one]), List([one]))
      && !IsSame(List([one]), List([one, one]))
  {
    RepetitionVerdicts(Scalar(IntKind, "1"));
  }

  lemma RepetitionVerdicts(v: Value)
    requires v.Scalar?
    ensures !IsSame(List([v, v]), List([v, v]))
    ensures IsSame(List([v, v]), List([v]))
    ensures !IsSame(List([v]), List([v, v]))
  {
    assert Equal(v, v);
    TwiceIsNotRepeatFree(v);
    TwiceEqualsOnce(v);
    assert RepeatFree(List([v]));
    assert Decoded(List([v])) && Decoded(List([v, v]));
    SameMeansEqual(List([v, v]), List([v, v]), 0);
    SameMeansEqual(List([v, v]), List([v]), 0);
    SameMeansEqual(List([v]), List([v, v]), 0);
  }

  lemma TwiceIsNotRepeatFree(v: Value)
    requires Equal(v, v)
    ensures !RepeatFree(List([v, v]))
  {
    var vs := [v, v];
    assert Equal(vs[0], vs[1]);
  }

  lemma TwiceEqualsOnce(v: Value)
    requires Equal(v, v)
    ensures Equal(List([v, v]), List([v]))
  {
    var a, vb := List([v, v]), [v];
    assert Equal(a.items[0], vb[0]) && Equal(a.items[1], vb[0]);
    forall i: nat | i < 2 ensures HasPartner(a, i, vb) {}
    assert IsPartner(a, vb, 0);
  }
}
