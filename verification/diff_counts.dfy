/** The size attached to a difference: never negative, never more than the linear weight
    of the two documents, zero throughout a Same verdict.  The bound is what lets the
    pairing loop use the largest machine integer as "nothing chosen yet". */
module DiffCounts {
  import opened YamlValue
  import opened DiffSpec

  lemma PrimitiveCountBound(a: Value, b: Value)
    ensures PrimitiveCount(a, b) <= Weight(a) + Weight(b)
    ensures PrimitiveCount(a, b) <= |Render(a)| + |Render(b)|
    ensures a.Missing? ==> PrimitiveCount(a, b) <= Weight(b)
    ensures b.Missing? ==> a.Missing? || PrimitiveCount(a, b) <= Weight(a)
  {
    RenderWithinWeight(a);
    RenderWithinWeight(b);
  }

  /** A difference of size zero that is not Same: exactly two values that print alike
      without being equal, or a missing key facing an empty string. */
  lemma ZeroCountButNotSame(a: Value, b: Value)
    ensures PrimitiveCount(a, b) == 0 && !PrimitiveStatus(a, b).Same? <==>
      || (a.Missing? && Render(b) == "")
      || (b.Missing? && !a.Missing? && Render(a) == "")
      || (!Bare(a) && !Bare(b) && a != b && Render(a) == Render(b))
  {
    var s, t := Render(a), Render(b);
    assert s[..|s|] == s && t[..|t|] == t;
    if !Bare(a) && !Bare(b) && s == t {
      CommonPrefixOfEqual(s);
    }
  }

  lemma CommonPrefixOfEqual(s: string)
    ensures CommonPrefix(s, s) == |s|
  {}

  lemma SumOfConcat(xs: seq<Diff>, ys: seq<Diff>)
    ensures SumDiffs(xs + ys) == SumDiffs(xs) + SumDiffs(ys)
  {
    if xs == [] {
      assert xs + ys == ys;
    } else {
      assert (xs + ys)[1..] == xs[1..] + ys;
    }
  }

  // ---------- lists ----------

  /** The weight of the elements whose index is in `free`, from index `from` on. */
  function FreeWeight(vs: seq<Value>, free: set<nat>, from: nat): nat
    requires from <= |vs|
    decreases |vs| - from
  {
    if from == |vs| then 0
    else (if from in free then Weight(vs[from]) + 6 else 0) + FreeWeight(vs, free, from + 1)
  }

  lemma {:induction false} FreeWeightWithout(vs: seq<Value>, free: set<nat>, i: nat, from: nat)
    requires from <= |vs| && i in free && i < |vs|
    ensures FreeWeight(vs, free, from) ==
      FreeWeight(vs, free - {i}, from) + if from <= i then Weight(vs[i]) + 6 else 0
    decreases |vs| - from
  {
    if from < |vs| {
      FreeWeightWithout(vs, free, i, from + 1);
    }
  }

  lemma {:induction false} FreeWeightWithin(vs: seq<Value>, free: set<nat>, from: nat)
    requires from <= |vs|
    ensures FreeWeight(vs, free, from) <= ItemsWeight(vs[from..])
    decreases |vs| - from
  {
    if from < |vs| {
      assert vs[from..][0] == vs[from] && vs[from..][1..] == vs[from + 1..];
      FreeWeightWithin(vs, free, from + 1);
    }
  }

  predicate CellsBounded(m: Matrix, va: seq<Value>, vb: seq<Value>) {
    && |m| == |va| && Shape(m, |vb|)
    && forall i: nat, j: nat :: i < |va| && j < |vb| ==> CellBounded(m[i][j], va[i], vb[j])
  }

  predicate CellBounded(d: Diff, a: Value, b: Value) {
    && 0 <= d.diffCount <= Weight(a) + Weight(b)
    && (d.status.Same? ==> d.diffCount == 0)
  }

  lemma SumOfCons(m: Matrix, va: seq<Value>, vb: seq<Value>, s: Slot, rest: seq<Slot>, level: nat)
    requires |m| == |va| && Shape(m, |vb|) && InRange(m, |vb|, s) && AllInRange(m, |vb|, rest)
    ensures AllInRange(m, |vb|, [s] + rest)
    ensures SumDiffs(SlotDiffs(m, va, vb, [s] + rest, level)) ==
      SlotDiff(m, va, vb, s, level).diffCount + SumDiffs(SlotDiffs(m, va, vb, rest, level))
  {
    assert SlotDiffs(m, va, vb, [s] + rest, level)[1..] == SlotDiffs(m, va, vb, rest, level);
  }

  lemma {:induction false} TailASum(m: Matrix, va: seq<Value>, vb: seq<Value>, free: set<nat>, from: nat, level: nat)
    requires |m| == |va| && Shape(m, |vb|) && from <= |va|
    ensures AllInRange(m, |vb|, TailA(free, from, |va|))
    ensures 0 <= SumDiffs(SlotDiffs(m, va, vb, TailA(free, from, |va|), level)) <= FreeWeight(va, free, from)
    decreases |va| - from
  {
    TailsInRange(m, |vb|, free, free, from);
    if from < |va| {
      TailASum(m, va, vb, free, from + 1, level);
      var rest := TailA(free, from + 1, |va|);
      var all := TailA(free, from, |va|);
      if from in free {
        assert all == [OnlyA(from)] + rest;
        SumOfCons(m, va, vb, OnlyA(from), rest, level);
        PrimitiveCountBound(va[from], Null);
        assert SumDiffs(SlotDiffs(m, va, vb, all, level)) <=
          Weight(va[from]) + 6 + FreeWeight(va, free, from + 1);
      } else {
        assert all == rest;
      }
    }
  }

  lemma {:induction false} TailBSum(m: Matrix, va: seq<Value>, vb: seq<Value>, free: set<nat>, from: nat, level: nat)
    requires |m| == |va| && Shape(m, |vb|) && from <= |vb|
    ensures AllInRange(m, |vb|, TailB(free, from, |vb|))
    ensures 0 <= SumDiffs(SlotDiffs(m, va, vb, TailB(free, from, |vb|), level)) <= FreeWeight(vb, free, from)
    decreases |vb| - from
  {
    TailsInRange(m, |vb|, free, free, from);
    if from < |vb| {
      TailBSum(m, va, vb, free, from + 1, level);
      var rest := TailB(free, from + 1, |vb|);
      var all := TailB(free, from, |vb|);
      if from in free {
        assert all == [OnlyB(from)] + rest;
        SumOfCons(m, va, vb, OnlyB(from), rest, level);
        PrimitiveCountBound(Null, vb[from]);
        assert SumDiffs(SlotDiffs(m, va, vb, all, level)) <=
          Weight(vb[from]) + 6 + FreeWeight(vb, free, from + 1);
      } else {
        assert all == rest;
      }
    }
  }

  lemma {:induction false} GreedySum(m: Matrix, va: seq<Value>, vb: seq<Value>, fa: set<nat>, fb: set<nat>, level: nat)
    requires CellsBounded(m, va, vb) && Within(m, |vb|, fa, fb)
    ensures AllInRange(m, |vb|, Greedy(m, |vb|, fa, fb))
    ensures 0 <= SumDiffs(SlotDiffs(m, va, vb, Greedy(m, |vb|, fa, fb), level))
              <= FreeWeight(va, fa, 0) + FreeWeight(vb, fb, 0)
    decreases |fa|
  {
    GreedyInRange(m, |vb|, fa, fb);
    if fa == {} {
      TailBSum(m, va, vb, fb, 0, level);
    } else if fb == {} {
      TailASum(m, va, vb, fa, 0, level);
    } else {
      var p := Best(m, |vb|, fa, fb);
      var rest := Greedy(m, |vb|, fa - {p.0}, fb - {p.1});
      GreedySum(m, va, vb, fa - {p.0}, fb - {p.1}, level);
      SumOfCons(m, va, vb, Pair(p.0, p.1), rest, level);
      assert CellBounded(m[p.0][p.1], va[p.0], vb[p.1]);
      FreeWeightWithout(va, fa, p.0, 0);
      FreeWeightWithout(vb, fb, p.1, 0);
    }
  }

  lemma {:induction false} FirstPassSum(m: Matrix, va: seq<Value>, vb: seq<Value>, n: nat, level: nat)
    requires CellsBounded(m, va, vb) && n <= |m|
    ensures AllInRange(m, |vb|, FirstPass(m, n))
    ensures SumDiffs(SlotDiffs(m, va, vb, FirstPass(m, n), level)) == 0
  {
    FirstPassInRange(m, |vb|, n);
    if n > 0 {
      FirstPassSum(m, va, vb, n - 1, level);
      var j := FirstSame(m[n-1]);
      if j < |vb| {
        var before := FirstPass(m, n - 1);
        assert CellBounded(m[n-1][j], va[n-1], vb[j]);
        SlotDiffsOfConcat(m, va, vb, before, [Pair(n - 1, j)], level);
        SumOfConcat(SlotDiffs(m, va, vb, before, level), SlotDiffs(m, va, vb, [Pair(n - 1, j)], level));
      } else {
        assert FirstPass(m, n) == FirstPass(m, n - 1);
      }
    }
  }

  lemma SlotDiffsOfConcat(m: Matrix, va: seq<Value>, vb: seq<Value>, ss: seq<Slot>, ts: seq<Slot>, level: nat)
    requires |m| == |va| && Shape(m, |vb|) && AllInRange(m, |vb|, ss) && AllInRange(m, |vb|, ts)
    ensures AllInRange(m, |vb|, ss + ts)
    ensures SlotDiffs(m, va, vb, ss + ts, level) == SlotDiffs(m, va, vb, ss, level) + SlotDiffs(m, va, vb, ts, level)
  {}

  lemma ListCountBound(m: Matrix, va: seq<Value>, vb: seq<Value>, level: nat)
    requires CellsBounded(m, va, vb)
    ensures CellBounded(ListDiff(m, va, vb, level), List(va), List(vb))
    ensures ListDiff(m, va, vb, level).diffCount == SumDiffs(ListDiff(m, va, vb, level).children.a)
  {
    var fa, fb := FreeA(m), FreeB(m, |vb|);
    FirstPassSum(m, va, vb, |m|, level + 1);
    GreedySum(m, va, vb, fa, fb, level + 1);
    SlotDiffsOfConcat(m, va, vb, FirstPass(m, |m|), Greedy(m, |vb|, fa, fb), level + 1);
    SumOfConcat(SlotDiffs(m, va, vb, FirstPass(m, |m|), level + 1),
                SlotDiffs(m, va, vb, Greedy(m, |vb|, fa, fb), level + 1));
    FreeWeightWithin(va, fa, 0);
    FreeWeightWithin(vb, fb, 0);
    assert va[0..] == va && vb[0..] == vb;
    if fa == {} && fb == {} {
      NoWeight(va, 0);
      NoWeight(vb, 0);
    }
  }

  lemma {:induction false} NoWeight(vs: seq<Value>, from: nat)
    requires from <= |vs|
    ensures FreeWeight(vs, {}, from) == 0
    decreases |vs| - from
  {
    if from < |vs| {
      NoWeight(vs, from + 1);
    }
  }

  // ---------- maps ----------

  /** Taking any key out first gives the same sum: the visiting order does not matter. */
  lemma {:induction false} TotalWithout(m: map<string, Diff>, k: string)
    requires k in m
    ensures Total(m) == m[k].diffCount + Total(m - {k})
    decreases |m|
  {
    var k' :| k' in m.Keys && Total(m) == m[k'].diffCount + Total(m - {k'});
    if k' != k {
      assert (m - {k}).Keys == m.Keys - {k} && (m - {k'}).Keys == m.Keys - {k'};
      assert m - {k} - {k'} == m - {k'} - {k};
      TotalWithout(m - {k'}, k);
      TotalWithout(m - {k}, k');
    }
  }

  /** The weight of the entries whose key is in `ks`. */
  function KeysWeight(es: seq<Entry>, ks: set<string>): nat {
    if es == [] then 0
    else (if es[0].key in ks then Weight(es[0].value) else 0) + KeysWeight(es[1..], ks)
  }

  function WeightAt(es: seq<Entry>, k: string): nat {
    var n := KeyIndex(es, k);
    if n < |es| then Weight(es[n].value) else 0
  }

  lemma {:induction false} KeysWeightWithout(es: seq<Entry>, ks: set<string>, k: string)
    requires k in ks
    ensures KeysWeight(es, ks) >= KeysWeight(es, ks - {k}) + WeightAt(es, k)
  {
    if es != [] {
      KeysWeightWithout(es[1..], ks, k);
    }
  }

  lemma {:induction false} KeysWeightWithin(es: seq<Entry>, ks: set<string>)
    ensures KeysWeight(es, ks) <= EntriesWeight(es)
  {
    if es != [] {
      KeysWeightWithin(es[1..], ks);
    }
  }

  lemma {:induction false} TotalBound(m: map<string, Diff>, ea: seq<Entry>, eb: seq<Entry>)
    requires forall k :: k in m ==> 0 <= m[k].diffCount <= WeightAt(ea, k) + WeightAt(eb, k)
    ensures 0 <= Total(m) <= KeysWeight(ea, m.Keys) + KeysWeight(eb, m.Keys)
    decreases |m|
  {
    if m.Keys != {} {
      var k :| k in m.Keys && Total(m) == m[k].diffCount + Total(m - {k});
      assert (m - {k}).Keys == m.Keys - {k};
      TotalBound(m - {k}, ea, eb);
      KeysWeightWithout(ea, m.Keys, k);
      KeysWeightWithout(eb, m.Keys, k);
    }
  }

  lemma {:induction false} ZeroTotal(m: map<string, Diff>)
    requires forall k :: k in m ==> m[k].diffCount >= 0
    ensures Total(m) >= 0
    ensures Total(m) == 0 <==> forall k :: k in m ==> m[k].diffCount == 0
    decreases |m|
  {
    if m.Keys != {} {
      var k :| k in m.Keys && Total(m) == m[k].diffCount + Total(m - {k});
      assert (m - {k}).Keys == m.Keys - {k};
      ZeroTotal(m - {k});
      assert forall x :: x in m ==> x == k || (x in m - {k} && (m - {k})[x] == m[x]);
    }
  }

  // ---------- the bound ----------

  /** For any two documents: the size is between zero and the sum of the weights, and a
      Same verdict has size zero. */
  lemma {:induction false} CountBound(a: Value, b: Value, level: nat)
    ensures CellBounded(DiffOf(a, b, level), a, b)
    decreases a
  {
    if Bare(a) || Bare(b) {
      PrimitiveCountBound(a, b);
    } else if a.Map? && b.Map? {
      MapCountBound(a, b, level);
    } else if a.List? && b.List? {
      var m: seq<seq<Diff>> := Pairwise(a, b, level + 1);
      forall i: nat, j: nat | i < |a.items| && j < |b.items|
        ensures CellBounded(m[i][j], a.items[i], b.items[j])
      {
        CountBound(a.items[i], b.items[j], level + 1);
      }
      ListCountBound(m, a.items, b.items, level);
    } else {
      PrimitiveCountBound(a, b);
    }
  }

  lemma {:induction false} MapCountBound(a: Value, b: Value, level: nat)
    requires a.Map? && b.Map?
    ensures CellBounded(DiffOf(a, b, level), a, b)
    decreases a, 0
  {
    var ea, eb := a.entries, b.entries;
    var m := MapDiffs(a, b, level + 1);
    forall k | k in m
      ensures 0 <= m[k].diffCount <= WeightAt(ea, k) + WeightAt(eb, k)
      ensures m[k].status.Same? ==> m[k].diffCount == 0
    {
      KeyCountBound(a, b, k, level + 1);
    }
    TotalBound(m, ea, eb);
    KeysWeightWithin(ea, m.Keys);
    KeysWeightWithin(eb, m.Keys);
    if DiffOf(a, b, level).status.Same? {
      ZeroTotal(m);
    }
  }

  lemma {:induction false} KeyCountBound(a: Value, b: Value, k: string, level: nat)
    requires a.Map? && b.Map? && k in Keys(a.entries) + Keys(b.entries)
    ensures 0 <= KeyDiff(a, b, k, level).diffCount <= WeightAt(a.entries, k) + WeightAt(b.entries, k)
    ensures KeyDiff(a, b, k, level).status.Same? ==> KeyDiff(a, b, k, level).diffCount == 0
    decreases a, 0, 0
  {
    var ea, eb := a.entries, b.entries;
    KeyIndexFinds(ea, k);
    KeyIndexFinds(eb, k);
    var i, j := KeyIndex(ea, k), KeyIndex(eb, k);
    if i < |ea| && j < |eb| {
      CountBound(ea[i].value, eb[j].value, level);
    } else {
      PrimitiveCountBound(Get(ea, k), Get(eb, k));
    }
  }

  // ---------- Same all the way down ----------

  /** Same with size zero, and so are all children. */
  ghost predicate Clean(d: Diff) {
    && d.status.Same? && d.diffCount == 0
    && match d.children
       case NoChildren => true
       case ArrayChildren(ds) => forall i :: 0 <= i < |ds| ==> Clean(ds[i])
       case MapChildren(m) => forall k :: k in m ==> Clean(m[k])
  }

  lemma {:induction false} SameIsClean(a: Value, b: Value, level: nat)
    requires DiffOf(a, b, level).status.Same?
    ensures Clean(DiffOf(a, b, level))
    decreases a
  {
    CountBound(a, b, level);
    if Bare(a) || Bare(b) {
    } else if a.Map? && b.Map? {
      var m := MapDiffs(a, b, level + 1);
      assert DiffOf(a, b, level) == MapDiff(m, a, b, level);
      forall k | k in m ensures Clean(m[k]) {
        assert m[k].status.Same? && m[k] == KeyDiff(a, b, k, level + 1);
        var i, j := KeyIndex(a.entries, k), KeyIndex(b.entries, k);
        if i < |a.entries| && j < |b.entries| {
          SameIsClean(a.entries[i].value, b.entries[j].value, level + 1);
        }
      }
    } else if a.List? && b.List? {
      SameListIsClean(a, b, level);
    }
  }

  lemma {:induction false} SameListIsClean(a: Value, b: Value, level: nat)
    requires a.List? && b.List? && DiffOf(a, b, level).status.Same?
    ensures Clean(DiffOf(a, b, level))
    decreases a, 0
  {
    CountBound(a, b, level);
    var m: seq<seq<Diff>> := Pairwise(a, b, level + 1);
    var ds := DiffOf(a, b, level).children.a;
    SlotsInRange(m, |b.items|);
    NoTail({}, 0, |b.items|);
    FirstPassPairs(m, |m|);
    var ss := Slots(m, |b.items|);
    assert ss == FirstPass(m, |m|);
    forall x | 0 <= x < |ds| ensures Clean(ds[x]) {
      assert ds[x] == SlotDiff(m, a.items, b.items, ss[x], level + 1);
      SameIsClean(a.items[ss[x].i], b.items[ss[x].j], level + 1);
    }
  }

  // ---------- size zero all the way down ----------

  /** Every leaf of the difference has size zero. */
  predicate ZeroLeaves(d: Diff) {
    match d.children
    case NoChildren => d.diffCount == 0
    case ArrayChildren(ds) => forall i :: 0 <= i < |ds| ==> ZeroLeaves(ds[i])
    case MapChildren(m) => forall k :: k in m ==> ZeroLeaves(m[k])
  }

  /** Sizes do not cancel: a difference of any depth has size zero exactly when all its
      leaves do, and `ZeroCountButNotSame` says when a leaf does. */
  lemma {:induction false} ZeroCountAtLeaves(a: Value, b: Value, level: nat)
    ensures DiffOf(a, b, level).diffCount == 0 <==> ZeroLeaves(DiffOf(a, b, level))
    decreases a
  {
    if Bare(a) || Bare(b) {
    } else if a.Map? && b.Map? {
      var m := MapDiffs(a, b, level + 1);
      assert DiffOf(a, b, level) == MapDiff(m, a, b, level);
      forall k | k in m ensures m[k].diffCount >= 0 && (m[k].diffCount == 0 <==> ZeroLeaves(m[k])) {
        assert m[k] == KeyDiff(a, b, k, level + 1);
        KeyCountBound(a, b, k, level + 1);
        var i, j := KeyIndex(a.entries, k), KeyIndex(b.entries, k);
        if i < |a.entries| && j < |b.entries| {
          ZeroCountAtLeaves(a.entries[i].value, b.entries[j].value, level + 1);
        }
      }
      ZeroTotal(m);
    } else if a.List? && b.List? {
      ZeroListAtLeaves(a, b, level);
    }
  }

  lemma {:induction false} ZeroListAtLeaves(a: Value, b: Value, level: nat)
    requires a.List? && b.List?
    ensures DiffOf(a, b, level).diffCount == 0 <==> ZeroLeaves(DiffOf(a, b, level))
    decreases a, 0
  {
    var m: seq<seq<Diff>> := Pairwise(a, b, level + 1);
    var d := DiffOf(a, b, level);
    var ds := d.children.a;
    SlotsInRange(m, |b.items|);
    var ss := Slots(m, |b.items|);
    forall x | 0 <= x < |ds| ensures ds[x].diffCount >= 0 && (ds[x].diffCount == 0 <==> ZeroLeaves(ds[x])) {
      assert ds[x] == SlotDiff(m, a.items, b.items, ss[x], level + 1);
      match ss[x]
      case Pair(i, j) =>
        CountBound(a.items[i], b.items[j], level + 1);
        ZeroCountAtLeaves(a.items[i], b.items[j], level + 1);
      case _ =>
    }
    ZeroSum(ds);
    CountIsSum(a, b, level);
  }

  lemma CountIsSum(a: Value, b: Value, level: nat)
    requires a.List? && b.List?
    ensures DiffOf(a, b, level).diffCount == SumDiffs(DiffOf(a, b, level).children.a)
  {
    var m: seq<seq<Diff>> := Pairwise(a, b, level + 1);
    forall i, j | 0 <= i < |m| && 0 <= j < |b.items| ensures CellBounded(m[i][j], a.items[i], b.items[j]) {
      CountBound(a.items[i], b.items[j], level + 1);
    }
    ListCountBound(m, a.items, b.items, level);
  }

  lemma {:induction false} ZeroSum(ds: seq<Diff>)
    requires forall x :: 0 <= x < |ds| ==> ds[x].diffCount >= 0
    ensures SumDiffs(ds) >= 0
    ensures SumDiffs(ds) == 0 <==> forall x :: 0 <= x < |ds| ==> ds[x].diffCount == 0
  {
    if ds != [] {
      ZeroSum(ds[1..]);
      assert forall x :: 0 < x < |ds| ==> ds[x] == ds[1..][x-1];
      assert forall x :: 0 <= x < |ds[1..]| ==> ds[1..][x] == ds[x+1];
    }
  }

  lemma NoTail(fb: set<nat>, from: nat, n: nat)
    requires from <= n && fb == {}
    ensures TailB(fb, from, n) == []
    decreases n - from
  {}

  lemma FirstPassPairs(m: Matrix, n: nat)
    requires n <= |m|
    ensures forall x :: 0 <= x < |FirstPass(m, n)| ==>
      && FirstPass(m, n)[x].Pair? && FirstPass(m, n)[x].i < n
      && FirstPass(m, n)[x].j < |m[FirstPass(m, n)[x].i]|
      && m[FirstPass(m, n)[x].i][FirstPass(m, n)[x].j].status.Same?
  {}
}
