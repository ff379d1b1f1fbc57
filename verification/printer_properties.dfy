/** What the dump of a Same verdict shows: the first document just as it is. */
module PrinterProperties {
  import opened YamlValue
  import opened DiffSpec
  import opened DiffCounts
  import opened Printer

  // ---------- what the differ builds is always printable ----------

  lemma {:induction false} DiffIsKeyed(a: Value, b: Value, level: nat)
    ensures KeyedDeep(DiffOf(a, b, level))
    decreases a
  {
    if Bare(a) || Bare(b) {
    } else if a.Map? && b.Map? {
      var m := MapDiffs(a, b, level + 1);
      forall k | k in m ensures KeyedDeep(m[k]) {
        KeyDiffIsKeyed(a, b, k, level + 1);
      }
    } else if a.List? && b.List? {
      ListIsKeyed(a, b, level);
    }
  }

  lemma {:induction false} KeyDiffIsKeyed(a: Value, b: Value, k: string, level: nat)
    requires a.Map? && b.Map?
    ensures KeyedDeep(KeyDiff(a, b, k, level))
    decreases a, 0
  {
    var i, j := KeyIndex(a.entries, k), KeyIndex(b.entries, k);
    if i < |a.entries| && j < |b.entries| {
      DiffIsKeyed(a.entries[i].value, b.entries[j].value, level);
    }
  }

  lemma {:induction false} ListIsKeyed(a: Value, b: Value, level: nat)
    requires a.List? && b.List?
    ensures KeyedDeep(DiffOf(a, b, level))
    decreases a, 0
  {
    var m: seq<seq<Diff>> := Pairwise(a, b, level + 1);
    var ds := DiffOf(a, b, level).children.a;
    SlotsInRange(m, |b.items|);
    var ss := Slots(m, |b.items|);
    forall x | 0 <= x < |ds| ensures KeyedDeep(ds[x]) {
      assert ds[x] == SlotDiff(m, a.items, b.items, ss[x], level + 1);
      match ss[x]
      case Pair(i, j) => DiffIsKeyed(a.items[i], b.items[j], level + 1);
      case _ =>
    }
  }

  // ---------- a Same verdict prints the first document ----------

  /** Dumping a Same difference lists the first document as it is, every line unmarked:
      keys in its order, elements in its order. */
  lemma {:induction false} SamePrintsTheDocument(a: Value, b: Value, level: nat, at: nat)
    requires Decoded(a) && Decoded(b) && DiffOf(a, b, level).status.Same?
    ensures Dump(DiffOf(a, b, level), at) == Listing(Kept, at, a)
    decreases a
  {
    if a.Map? && b.Map? {
      SameMapPrints(a, b, level, at);
    } else if a.List? && b.List? {
      SameListPrints(a, b, level, at);
    }
  }

  lemma {:induction false} SameMapPrints(a: Value, b: Value, level: nat, at: nat)
    requires Decoded(a) && Decoded(b) && a.Map? && b.Map? && DiffOf(a, b, level).status.Same?
    ensures Dump(DiffOf(a, b, level), at) == Listing(Kept, at, a)
    decreases a, 1
  {
    var d, m := DiffOf(a, b, level), MapDiffs(a, b, level + 1);
    SameKeys(a, b, level);
    NothingElse(b.entries, Keys(a.entries));
    assert KeysInOrder(a.entries) + KeysInOrder([]) == KeysInOrder(a.entries);
    MapDumpOrder(a, b, level, at);
    forall i | 0 <= i < |a.entries| ensures PrintsAs(m, a.entries[i], at) {
      KeyIsChild(a, b, i, level);
      SameChildPrints(a, b, i, level + 1, at);
    }
    AllKeysPrint(d, a.entries, at);
  }

  /** Maps are dumped key by key, in printing order. */
  lemma MapDumpOrder(a: Value, b: Value, level: nat, at: nat)
    requires a.Map? && b.Map? && DistinctKeys(a.entries) && DistinctKeys(b.entries)
    ensures DiffOf(a, b, level).children == MapChildren(MapDiffs(a, b, level + 1))
    ensures Dump(DiffOf(a, b, level), at) ==
      DumpKeys(DiffOf(a, b, level), KeysInOrder(a.entries) + KeysInOrder(Others(b.entries, Keys(a.entries))), at)
  {
    PrintingOrder(a, b);
    assert MapDiffs(a, b, level + 1).Keys == Keys(a.entries) + Keys(b.entries);
  }

  lemma KeyIsChild(a: Value, b: Value, i: nat, level: nat)
    requires a.Map? && b.Map? && i < |a.entries|
    ensures var k, m := a.entries[i].key, MapDiffs(a, b, level + 1);
      k in m && m[k] == KeyDiff(a, b, k, level + 1)
    ensures DiffOf(a, b, level).status.Same? ==> KeyDiff(a, b, a.entries[i].key, level + 1).status.Same?
  {
    var k, m := a.entries[i].key, MapDiffs(a, b, level + 1);
    assert k in Keys(a.entries);
    assert DiffOf(a, b, level).status.Same? ==> AllSame(m);
  }

  lemma SameKeys(a: Value, b: Value, level: nat)
    requires Decoded(a) && Decoded(b) && a.Map? && b.Map? && DiffOf(a, b, level).status.Same?
    ensures Keys(a.entries) == Keys(b.entries)
  {
    var m := MapDiffs(a, b, level + 1);
    forall k ensures k in Keys(a.entries) <==> k in Keys(b.entries) {
      KeyIndexFinds(a.entries, k);
      KeyIndexFinds(b.entries, k);
      if k in m {
        var i, j := KeyIndex(a.entries, k), KeyIndex(b.entries, k);
        assert m[k] == KeyDiff(a, b, k, level + 1);
        assert m[k].status.Same?;
        assert i < |a.entries| ==> Decoded(a.entries[i].value);
      }
    }
  }

  lemma {:induction false} NothingElse(es: seq<Entry>, skip: set<string>)
    requires Keys(es) <= skip
    ensures Others(es, skip) == []
  {
    if es != [] {
      assert es[0].key in Keys(es);
      forall x | x in Keys(es[1..]) ensures x in Keys(es) {
        var i :| 0 <= i < |es[1..]| && es[1..][i].key == x;
        assert es[i+1].key == x;
      }
      NothingElse(es[1..], skip);
    }
  }

  lemma {:induction false} SameChildPrints(a: Value, b: Value, i: nat, level: nat, at: nat)
    requires Decoded(a) && Decoded(b) && a.Map? && b.Map? && i < |a.entries|
    requires KeyDiff(a, b, a.entries[i].key, level).status.Same?
    ensures DumpKey(KeyDiff(a, b, a.entries[i].key, level), a.entries[i].key, at) ==
      KeyListing(Kept, at, a.entries[i].key, a.entries[i].value)
    decreases a, 0
  {
    var k, v := a.entries[i].key, a.entries[i].value;
    DistinctKeyIndex(a.entries, i);
    var j := KeyIndex(b.entries, k);
    assert Decoded(v);
    assert j < |b.entries|;
    SamePrintsTheDocument(v, b.entries[j].value, level, at + 1);
    SameHasChildren(v, b.entries[j].value, level);
  }

  /** A Same difference has children exactly when it is between maps or lists. */
  lemma SameHasChildren(a: Value, b: Value, level: nat)
    requires Decoded(a) && Decoded(b) && DiffOf(a, b, level).status.Same?
    ensures DiffOf(a, b, level).children.NoChildren? <==> !Composite(a)
    ensures !Composite(a) ==> DiffOf(a, b, level).a == a
  {}

  /** The child for this entry is dumped as the entry itself. */
  predicate PrintsAs(m: map<string, Diff>, e: Entry, at: nat) {
    e.key in m && DumpKey(m[e.key], e.key, at) == KeyListing(Kept, at, e.key, e.value)
  }

  lemma {:induction false} AllKeysPrint(d: Diff, es: seq<Entry>, at: nat)
    requires d.children.MapChildren?
    requires forall i :: 0 <= i < |es| ==> PrintsAs(d.children.m, es[i], at)
    ensures DumpKeys(d, KeysInOrder(es), at) == MapListing(Kept, at, es)
  {
    if es != [] {
      forall i | 0 <= i < |es[1..]| ensures PrintsAs(d.children.m, es[1..][i], at) {
        assert es[1..][i] == es[i+1];
      }
      AllKeysPrint(d, es[1..], at);
      assert KeysInOrder(es)[1..] == KeysInOrder(es[1..]);
    }
  }

  lemma {:induction false} SameListPrints(a: Value, b: Value, level: nat, at: nat)
    requires Decoded(a) && Decoded(b) && a.List? && b.List? && DiffOf(a, b, level).status.Same?
    ensures Dump(DiffOf(a, b, level), at) == Listing(Kept, at, a)
    decreases a, 0
  {
    var d := DiffOf(a, b, level);
    var m: seq<seq<Diff>> := Pairwise(a, b, level + 1);
    var ds := d.children.a;
    SlotsInRange(m, |b.items|);
    NoTail(FreeB(m, |b.items|), 0, |b.items|);
    forall i | 0 <= i < |m| ensures FirstSame(m[i]) < |m[i]| {
      assert i !in FreeA(m);
    }
    MatchedInOrder(m, |m|);
    assert Slots(m, |b.items|) == FirstPass(m, |m|);
    forall i | 0 <= i < |a.items| ensures DumpItem(ds[i], at) == ItemListing(Kept, at, a.items[i]) {
      var j := FirstSame(m[i]);
      assert Slots(m, |b.items|)[i] == Pair(i, j);
      assert ds[i] == m[i][j] == DiffOf(a.items[i], b.items[j], level + 1);
      SamePrintsTheDocument(a.items[i], b.items[j], level + 1, at + 1);
      SameHasChildren(a.items[i], b.items[j], level + 1);
    }
    AllItemsPrint(d, ds, a.items, at);
  }

  lemma {:induction false} MatchedInOrder(m: Matrix, n: nat)
    requires n <= |m| && forall i :: 0 <= i < n ==> FirstSame(m[i]) < |m[i]|
    ensures |FirstPass(m, n)| == n
    ensures forall i :: 0 <= i < n ==> FirstPass(m, n)[i] == Pair(i, FirstSame(m[i]))
  {
    if n > 0 {
      MatchedInOrder(m, n - 1);
    }
  }

  lemma {:induction false} AllItemsPrint(d: Diff, ds: seq<Diff>, vs: seq<Value>, at: nat)
    requires |ds| == |vs| && forall i :: 0 <= i < |ds| ==> ds[i] < d
    requires forall i :: 0 <= i < |ds| ==> DumpItem(ds[i], at) == ItemListing(Kept, at, vs[i])
    ensures DumpItems(d, ds, at) == ListListing(Kept, at, vs)
  {
    if ds != [] {
      forall i | 0 <= i < |ds[1..]| ensures DumpItem(ds[1..][i], at) == ItemListing(Kept, at, vs[1..][i]) {
        assert ds[1..][i] == ds[i+1] && vs[1..][i] == vs[i+1];
      }
      AllItemsPrint(d, ds[1..], vs[1..], at);
    }
  }
}
