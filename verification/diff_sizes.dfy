/** How large a difference is, said of the texts themselves, and what every difference records
    about the values it compares. */
module DiffSizes {
  import opened YamlValue
  import opened DiffSpec
  import opened DiffCounts

  // ---------- two texts ----------

  /** The texts agree on the first n characters and on no more. */
  predicate PartAt(s: string, t: string, n: nat) {
    && n <= |s| && n <= |t| && s[..n] == t[..n]
    && (n < |s| && n < |t| ==> s[n] != t[n])
  }

  lemma AgreeBelow(s: string, t: string, i: nat, n: nat)
    requires i < n <= |s| && n <= |t| && s[..n] == t[..n]
    ensures s[i] == t[i]
  {
    assert s[..n][i] == t[..n][i];
  }

  lemma PartOnce(s: string, t: string, n: nat)
    requires PartAt(s, t, n)
    ensures CommonPrefix(s, t) == n
  {
    var m := CommonPrefix(s, t);
    if m < n {
      AgreeBelow(s, t, m, n);
    } else if n < m {
      AgreeBelow(s, t, n, m);
    }
  }

  /** Compared child by child: both maps, or both lists. */
  predicate Together(a: Value, b: Value) {
    (a.Map? && b.Map?) || (a.List? && b.List?)
  }

  /** Unequal values that are not compared child by child: what is left of the longer text
      from where the two part. */
  lemma SizeOfDifference(a: Value, b: Value, n: nat, level: nat)
    requires !Bare(a) && !Bare(b) && a != b && !Together(a, b) && PartAt(Render(a), Render(b), n)
    ensures DiffOf(a, b, level).diffCount ==
      (if |Render(a)| >= |Render(b)| then |Render(a)| else |Render(b)|) - n
  {
    PartOnce(Render(a), Render(b), n);
  }

  lemma PartSomewhere(s: string, t: string) returns (n: nat)
    ensures PartAt(s, t, n) && PartAt(t, s, n)
  {
    n := CommonPrefix(s, t);
  }

  /** So it does not matter which one comes first. */
  lemma SizeIsSymmetric(a: Value, b: Value, level: nat)
    requires !Bare(a) && !Bare(b) && !Together(a, b)
    ensures DiffOf(a, b, level).diffCount == DiffOf(b, a, level).diffCount
  {
    if a != b {
      var n := PartSomewhere(Render(a), Render(b));
      SizeOfDifference(a, b, n, level);
      SizeOfDifference(b, a, n, level);
    }
  }

  // ---------- against null ----------

  /** A value against null, as a leftover of the first list is: the text is set against
      "<nil>", and one that "<nil>" begins with counts in full. */
  lemma SizeAgainstNull(a: Value, n: nat, level: nat)
    requires !Bare(a) && PartAt(Render(a), "<nil>", n)
    ensures DiffOf(a, Null, level).diffCount ==
      if n < |Render(a)| then (if |Render(a)| >= 5 then |Render(a)| else 5) - n
      else if |Render(a)| == 0 then 5
      else |Render(a)|
  {
    PartOnce(Render(a), "<nil>", n);
  }

  /** Null against a value, as a leftover of the second list is. */
  lemma SizeOfNullAgainst(b: Value, n: nat, level: nat)
    requires !Bare(b) && PartAt("<nil>", Render(b), n)
    ensures DiffOf(Null, b, level).diffCount ==
      if n < 5 then (if |Render(b)| >= 5 then |Render(b)| else 5) - n else |Render(b)|
  {
    PartOnce("<nil>", Render(b), n);
  }

  /** The two differ, though rarely: exactly for a text that is a beginning of "<nil>" or goes
      on from it. */
  lemma NullSizesDifferIff(a: Value, level: nat)
    requires !Bare(a)
    ensures DiffOf(a, Null, level).diffCount != DiffOf(Null, a, level).diffCount <==>
      || (0 < |Render(a)| < 5 && Render(a) == "<nil>"[..|Render(a)|])
      || (|Render(a)| > 5 && Render(a)[..5] == "<nil>")
  {
    var s := Render(a);
    var n := PartSomewhere(s, "<nil>");
    SizeAgainstNull(a, n, level);
    SizeOfNullAgainst(a, n, level);
    PartOnce(s, "<nil>", n);
    if 0 < |s| < 5 && s == "<nil>"[..|s|] {
      PartOnce(s, "<nil>", |s|);
    }
    if |s| > 5 && s[..5] == "<nil>" {
      PartOnce(s, "<nil>", 5);
    }
  }

  // ---------- maps and lists ----------

  /** Sizes of children add up: nothing for none, its own for one, the sum for two runs of
      them. */
  lemma SizesAddUp(xs: seq<Diff>, d: Diff, ys: seq<Diff>)
    ensures SumDiffs(xs + [d] + ys) == SumDiffs(xs) + d.diffCount + SumDiffs(ys)
    ensures SumDiffs([]) == 0
  {
    SumOfConcat(xs + [d], ys);
    SumOfConcat(xs, [d]);
  }

  /** The size of a list difference is that sum unless the verdict is Same, and then both are
      zero. */
  lemma ListSizeIsSum(a: Value, b: Value, level: nat)
    requires a.List? && b.List?
    ensures DiffOf(a, b, level).children.ArrayChildren?
    ensures DiffOf(a, b, level).diffCount == SumDiffs(DiffOf(a, b, level).children.a)
  {
    CountIsSum(a, b, level);
  }

  lemma MapSizeIsSum(a: Value, b: Value, level: nat, k: string)
    requires a.Map? && b.Map? && k in Keys(a.entries) + Keys(b.entries)
    ensures var m := MapDiffs(a, b, level + 1);
      k in m && DiffOf(a, b, level).diffCount == KeyDiff(a, b, k, level + 1).diffCount + Total(m - {k})
  {
    TotalWithout(MapDiffs(a, b, level + 1), k);
  }

  // ---------- what a difference records ----------

  /** The level of a difference is its depth, at every depth. */
  predicate Levelled(d: Diff, level: nat) {
    && d.treeLevel == level
    && match d.children
       case NoChildren => true
       case ArrayChildren(ds) => forall i :: 0 <= i < |ds| ==> Levelled(ds[i], level + 1)
       case MapChildren(m) => forall k :: k in m ==> Levelled(m[k], level + 1)
  }

  lemma {:induction false} LevelsAreDepths(a: Value, b: Value, level: nat)
    ensures Levelled(DiffOf(a, b, level), level)
    decreases a
  {
    if Bare(a) || Bare(b) {
    } else if a.Map? && b.Map? {
      var m := MapDiffs(a, b, level + 1);
      assert DiffOf(a, b, level) == MapDiff(m, a, b, level);
      forall k | k in m ensures Levelled(m[k], level + 1) {
        assert m[k] == KeyDiff(a, b, k, level + 1);
        var i, j := KeyIndex(a.entries, k), KeyIndex(b.entries, k);
        if i < |a.entries| && j < |b.entries| {
          LevelsAreDepths(a.entries[i].value, b.entries[j].value, level + 1);
        }
      }
    } else if a.List? && b.List? {
      ListLevels(a, b, level);
    }
  }

  lemma {:induction false} ListLevels(a: Value, b: Value, level: nat)
    requires a.List? && b.List?
    ensures Levelled(DiffOf(a, b, level), level)
    decreases a, 0
  {
    var m: seq<seq<Diff>> := Pairwise(a, b, level + 1);
    var ds := DiffOf(a, b, level).children.a;
    SlotsInRange(m, |b.items|);
    var ss := Slots(m, |b.items|);
    forall x | 0 <= x < |ds| ensures Levelled(ds[x], level + 1) {
      assert ds[x] == SlotDiff(m, a.items, b.items, ss[x], level + 1);
      match ss[x]
      case Pair(i, j) => LevelsAreDepths(a.items[i], b.items[j], level + 1);
      case _ =>
    }
  }

  /** The two values are recorded as they are, and a key that is missing as null. */
  lemma ValuesAreRecorded(a: Value, b: Value, level: nat)
    requires !(a.Missing? && b.Missing?)
    ensures DiffOf(a, b, level).a == if a.Missing? then Null else a
    ensures DiffOf(a, b, level).b == if b.Missing? then Null else b
    ensures DiffOf(a, b, level).status.FirstMissing? <==> a.Missing?
    ensures DiffOf(a, b, level).status.SecondMissing? <==> b.Missing?
  {}

  /** Only what is compared child by child has children. */
  lemma ChildrenIff(a: Value, b: Value, level: nat)
    ensures DiffOf(a, b, level).children.MapChildren? <==> a.Map? && b.Map?
    ensures DiffOf(a, b, level).children.ArrayChildren? <==> a.List? && b.List?
  {}

  // ---------- the children of maps ----------

  /** Entries of the two maps under one key are compared with each other. */
  lemma SharedKeyChild(a: Value, b: Value, e: Entry, f: Entry, level: nat)
    requires a.Map? && b.Map? && DistinctKeys(a.entries) && DistinctKeys(b.entries)
    requires e in a.entries && f in b.entries && e.key == f.key
    ensures var d := DiffOf(a, b, level);
      d.children.MapChildren? && e.key in d.children.m && d.children.m[e.key] == DiffOf(e.value, f.value, level + 1)
  {
    var i :| 0 <= i < |a.entries| && a.entries[i] == e;
    var j :| 0 <= j < |b.entries| && b.entries[j] == f;
    DistinctKeyIndex(a.entries, i);
    DistinctKeyIndex(b.entries, j);
    assert e.key in Keys(a.entries);
    assert MapDiffs(a, b, level + 1)[e.key] == KeyDiff(a, b, e.key, level + 1);
  }

  /** An entry that only one map has is recorded with its value, as missing on the other side;
      and there are no children but for the keys of the two. */
  lemma LoneKeyChild(a: Value, b: Value, e: Entry, level: nat)
    requires a.Map? && b.Map? && DistinctKeys(a.entries) && DistinctKeys(b.entries) && !e.value.Missing?
    ensures DiffOf(a, b, level).children.MapChildren?
    ensures DiffOf(a, b, level).children.m.Keys == Keys(a.entries) + Keys(b.entries)
    ensures e in a.entries && e.key !in Keys(b.entries) ==> var c := DiffOf(a, b, level).children.m[e.key];
      c.status.SecondMissing? && c.a == e.value && c.b == Null && c.diffCount == |Render(e.value)|
    ensures e in b.entries && e.key !in Keys(a.entries) ==> var c := DiffOf(a, b, level).children.m[e.key];
      c.status.FirstMissing? && c.a == Null && c.b == e.value && c.diffCount == |Render(e.value)|
  {
    KeyIndexFinds(a.entries, e.key);
    KeyIndexFinds(b.entries, e.key);
    if e in a.entries && e.key !in Keys(b.entries) {
      var i :| 0 <= i < |a.entries| && a.entries[i] == e;
      DistinctKeyIndex(a.entries, i);
      assert MapDiffs(a, b, level + 1)[e.key] == KeyDiff(a, b, e.key, level + 1);
    }
    if e in b.entries && e.key !in Keys(a.entries) {
      var j :| 0 <= j < |b.entries| && b.entries[j] == e;
      DistinctKeyIndex(b.entries, j);
      assert MapDiffs(a, b, level + 1)[e.key] == KeyDiff(a, b, e.key, level + 1);
    }
  }

  // ---------- the text of a value ----------

  /** Lists and maps are printed between brackets, an element after the other with a blank in
      between. */
  lemma {:induction false} ListText(vs: seq<Value>, us: seq<Value>)
    requires vs != [] && us != []
    ensures RenderItems(vs + us) == RenderItems(vs) + " " + RenderItems(us)
  {
    assert (vs + us)[1..] == vs[1..] + us;
    if |vs| > 1 {
      ListText(vs[1..], us);
    } else {
      assert vs[1..] + us == us;
    }
  }

  lemma {:induction false} MapText(es: seq<Entry>, fs: seq<Entry>)
    requires es != [] && fs != []
    ensures RenderEntries(es + fs) == RenderEntries(es) + " " + RenderEntries(fs)
  {
    assert (es + fs)[1..] == es[1..] + fs;
    if |es| > 1 {
      MapText(es[1..], fs);
    } else {
      assert es[1..] + fs == fs;
    }
  }

  lemma SingleText(v: Value, k: string)
    ensures Render(List([])) == "[]" && Render(List([v])) == "[" + Render(v) + "]"
    ensures Render(Map([])) == "[]" && Render(Map([Entry(k, v)])) == "[{" + k + " " + Render(v) + "}]"
  {
    assert RenderItems([v]) == Render(v) && RenderEntries([Entry(k, v)]) == "{" + k + " " + Render(v) + "}";
  }
}
