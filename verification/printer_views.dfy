/** What any dump shows: both documents, one by leaving out the "+" lines and one by leaving
    out the "-" lines. */
module PrinterViews {
  import opened YamlValue
  import opened DiffSpec
  import opened Printer
  import opened PrinterProperties

  // ---------- leaving out one kind of line ----------

  /** The lines that are not marked `drop`, marks taken off. */
  function Without(drop: Prefix, lines: seq<Line>): seq<Line> {
    if lines == [] then []
    else (if lines[0].prefix == drop then [] else [lines[0].(prefix := Kept)]) + Without(drop, lines[1..])
  }

  lemma WithoutConcat(drop: Prefix, xs: seq<Line>, ys: seq<Line>)
    ensures Without(drop, xs + ys) == Without(drop, xs) + Without(drop, ys)
  {
    if xs == [] {
      assert xs + ys == ys;
    } else {
      assert (xs + ys)[1..] == xs[1..] + ys;
    }
  }

  lemma {:induction false} WithoutListing(drop: Prefix, prefix: Prefix, level: nat, v: Value)
    ensures Without(drop, Listing(prefix, level, v)) == if drop == prefix then [] else Listing(Kept, level, v)
    decreases v, 0
  {
    match v
    case Map(es) => WithoutMapListing(drop, prefix, level, es);
    case List(vs) => WithoutListListing(drop, prefix, level, vs);
    case _ =>
  }

  lemma {:induction false} WithoutItem(drop: Prefix, prefix: Prefix, level: nat, v: Value)
    ensures Without(drop, ItemListing(prefix, level, v)) == if drop == prefix then [] else ItemListing(Kept, level, v)
    decreases v, 1
  {
    if Composite(v) {
      WithoutListing(drop, prefix, level + 1, v);
      WithoutConcat(drop, [Line(prefix, level, ItemHeader, Null)], Listing(prefix, level + 1, v));
    }
  }

  lemma {:induction false} WithoutKey(drop: Prefix, prefix: Prefix, level: nat, k: string, v: Value)
    ensures Without(drop, KeyListing(prefix, level, k, v)) ==
      if drop == prefix then [] else KeyListing(Kept, level, k, v)
    decreases v, 1
  {
    if Composite(v) {
      WithoutListing(drop, prefix, level + 1, v);
      WithoutConcat(drop, [Line(prefix, level, KeyHeader(k), Null)], Listing(prefix, level + 1, v));
    }
  }

  lemma {:induction false} WithoutListListing(drop: Prefix, prefix: Prefix, level: nat, vs: seq<Value>)
    ensures Without(drop, ListListing(prefix, level, vs)) == if drop == prefix then [] else ListListing(Kept, level, vs)
    decreases vs, 2
  {
    if vs != [] {
      WithoutItem(drop, prefix, level, vs[0]);
      WithoutListListing(drop, prefix, level, vs[1..]);
      WithoutConcat(drop, ItemListing(prefix, level, vs[0]), ListListing(prefix, level, vs[1..]));
    }
  }

  lemma {:induction false} WithoutMapListing(drop: Prefix, prefix: Prefix, level: nat, es: seq<Entry>)
    ensures Without(drop, MapListing(prefix, level, es)) == if drop == prefix then [] else MapListing(Kept, level, es)
    decreases es, 2
  {
    if es != [] {
      WithoutKey(drop, prefix, level, es[0].key, es[0].value);
      WithoutMapListing(drop, prefix, level, es[1..]);
      WithoutConcat(drop, KeyListing(prefix, level, es[0].key, es[0].value), MapListing(prefix, level, es[1..]));
    }
  }

  // ---------- the two views ----------

  /** Both maps, or both lists: what is dumped child by child. */
  predicate Meet(a: Value, b: Value) {
    (a.Map? && b.Map?) || (a.List? && b.List?)
  }

  /** The first document as the dump shows it: maps in their own order; where lists meet, its
      elements in the order of the slots, and a null for each leftover of the other list. */
  ghost function FirstView(a: Value, b: Value, level: nat): (r: Value)
    ensures (r.Map? <==> a.Map?) && (r.List? <==> a.List?)
    decreases a, 1
  {
    if a.Map? && b.Map? then Map(FirstInOrder(a.entries, b, level + 1))
    else if a.List? && b.List? then
      var ss := ListSlots(a, b, level);
      List(seq(|ss|, x requires 0 <= x < |ss| => FirstOf(a, b, ss[x], level + 1)))
    else a
  }

  ghost function FirstInOrder(es: seq<Entry>, b: Value, level: nat): seq<Entry>
    requires b.Map?
    decreases es, 0
  {
    if es == [] then []
    else [Entry(es[0].key, FirstAt(es[0].key, es[0].value, b, level))] + FirstInOrder(es[1..], b, level)
  }

  ghost function FirstAt(k: string, v: Value, b: Value, level: nat): Value
    requires b.Map?
    decreases v, 2
  {
    var j := KeyIndex(b.entries, k);
    if j < |b.entries| then FirstView(v, b.entries[j].value, level) else v
  }

  ghost function FirstOf(a: Value, b: Value, s: Slot, level: nat): Value
    requires a.List? && b.List? && SlotIn(a, b, s)
    decreases a, 0
  {
    match s
    case Pair(i, j) => FirstView(a.items[i], b.items[j], level)
    case OnlyA(i) => a.items[i]
    case OnlyB(_) => Null
  }

  /** The second document: the keys the maps share in the first one's order, then its own;
      where lists meet, its elements in the order of the slots, and a null for each leftover
      of the other list. */
  ghost function SecondView(a: Value, b: Value, level: nat): (r: Value)
    ensures (r.Map? <==> b.Map?) && (r.List? <==> b.List?)
    decreases b, 1, 0
  {
    if a.Map? && b.Map? then
      Map(SharedInOrder(a.entries, b, level + 1) + Others(b.entries, Keys(a.entries)))
    else if a.List? && b.List? then
      var ss := ListSlots(a, b, level);
      List(seq(|ss|, x requires 0 <= x < |ss| => SecondOf(a, b, ss[x], level + 1)))
    else b
  }

  ghost function SharedInOrder(es: seq<Entry>, b: Value, level: nat): seq<Entry>
    requires b.Map?
    decreases b, 0, |es|
  {
    if es == [] then []
    else
      var j := KeyIndex(b.entries, es[0].key);
      (if j < |b.entries| then [Entry(es[0].key, SecondView(es[0].value, b.entries[j].value, level))] else []) +
      SharedInOrder(es[1..], b, level)
  }

  ghost function SecondOf(a: Value, b: Value, s: Slot, level: nat): Value
    requires a.List? && b.List? && SlotIn(a, b, s)
    decreases b, 0, 0
  {
    match s
    case Pair(i, j) => SecondView(a.items[i], b.items[j], level)
    case OnlyA(_) => Null
    case OnlyB(j) => b.items[j]
  }

  predicate SlotIn(a: Value, b: Value, s: Slot)
    requires a.List? && b.List?
  {
    match s
    case Pair(i, j) => i < |a.items| && j < |b.items|
    case OnlyA(i) => i < |a.items|
    case OnlyB(j) => j < |b.items|
  }

  /** How the elements of two lists are paired. */
  ghost function ListSlots(a: Value, b: Value, level: nat): (ss: seq<Slot>)
    requires a.List? && b.List?
    ensures forall x :: 0 <= x < |ss| ==> SlotIn(a, b, ss[x])
  {
    var m: Matrix := Pairwise(a, b, level + 1);
    SlotsInRange(m, |b.items|);
    var ss := Slots(m, |b.items|);
    assert forall x :: 0 <= x < |ss| ==> InRange(m, |b.items|, ss[x]) ==> SlotIn(a, b, ss[x]);
    ss
  }

  // ---------- the dump is the two views ----------

  /** Leaving out one kind of line leaves one document: without "+" the view of the first,
      without "-" the view of the second. */
  lemma {:induction false} DumpShowsBoth(a: Value, b: Value, level: nat, at: nat)
    requires Decoded(a) && Decoded(b) && Meet(a, b)
    ensures Without(Plus, Dump(DiffOf(a, b, level), at)) == Listing(Kept, at, FirstView(a, b, level))
    ensures Without(Minus, Dump(DiffOf(a, b, level), at)) == Listing(Kept, at, SecondView(a, b, level))
    decreases a, 2
  {
    if a.Map? {
      MapShowsBoth(a, b, level, at);
    } else {
      ListShowsBoth(a, b, level, at);
    }
  }

  // ---------- maps ----------

  lemma {:induction false} MapShowsBoth(a: Value, b: Value, level: nat, at: nat)
    requires Decoded(a) && Decoded(b) && a.Map? && b.Map?
    ensures Without(Plus, Dump(DiffOf(a, b, level), at)) == Listing(Kept, at, FirstView(a, b, level))
    ensures Without(Minus, Dump(DiffOf(a, b, level), at)) == Listing(Kept, at, SecondView(a, b, level))
    decreases a, 1
  {
    var shared, theirs := SharedInOrder(a.entries, b, level + 1), Others(b.entries, Keys(a.entries));
    OwnKeysShow(a, b, level, at);
    TheirKeysShow(a, b, level, at);
    MapDumpSplits(Plus, a, b, level, at);
    MapDumpSplits(Minus, a, b, level, at);
    MapListingConcat(shared, theirs, at);
    MapViews(a, b, level, at);
  }

  lemma MapViews(a: Value, b: Value, level: nat, at: nat)
    requires a.Map? && b.Map?
    ensures Listing(Kept, at, FirstView(a, b, level)) == MapListing(Kept, at, FirstInOrder(a.entries, b, level + 1))
    ensures Listing(Kept, at, SecondView(a, b, level)) ==
      MapListing(Kept, at, SharedInOrder(a.entries, b, level + 1) + Others(b.entries, Keys(a.entries)))
  {}

  lemma TheirKeysShow(a: Value, b: Value, level: nat, at: nat)
    requires Decoded(a) && Decoded(b) && a.Map? && b.Map?
    ensures DiffOf(a, b, level).children.MapChildren?
    ensures var theirs := Others(b.entries, Keys(a.entries));
      var lines := DumpKeys(DiffOf(a, b, level), KeysInOrder(theirs), at);
      && Without(Plus, lines) == []
      && Without(Minus, lines) == MapListing(Kept, at, theirs)
  {
    OthersAreOthers(b.entries, Keys(a.entries));
    OnlySecondShows(a, b, Others(b.entries, Keys(a.entries)), level, at);
  }

  lemma MapDumpSplits(drop: Prefix, a: Value, b: Value, level: nat, at: nat)
    requires Decoded(a) && Decoded(b) && a.Map? && b.Map?
    ensures DiffOf(a, b, level).children.MapChildren?
    ensures var d, theirs := DiffOf(a, b, level), Others(b.entries, Keys(a.entries));
      Without(drop, Dump(d, at)) ==
      Without(drop, DumpKeys(d, KeysInOrder(a.entries), at)) + Without(drop, DumpKeys(d, KeysInOrder(theirs), at))
  {
    var d, mine, theirs := DiffOf(a, b, level), KeysInOrder(a.entries), KeysInOrder(Others(b.entries, Keys(a.entries)));
    MapDumpOrder(a, b, level, at);
    DumpKeysConcat(d, mine, theirs, at);
    WithoutConcat(drop, DumpKeys(d, mine, at), DumpKeys(d, theirs, at));
  }

  lemma {:induction false} OwnKeysShow(a: Value, b: Value, level: nat, at: nat)
    requires Decoded(a) && Decoded(b) && a.Map? && b.Map?
    ensures DiffOf(a, b, level).children.MapChildren?
    ensures var lines := DumpKeys(DiffOf(a, b, level), KeysInOrder(a.entries), at);
      && Without(Plus, lines) == MapListing(Kept, at, FirstInOrder(a.entries, b, level + 1))
      && Without(Minus, lines) == MapListing(Kept, at, SharedInOrder(a.entries, b, level + 1))
    decreases a, 0, 1
  {
    var d := DiffOf(a, b, level);
    MapDumpOrder(a, b, level, at);
    forall i | 0 <= i < |a.entries| ensures ChildShows(d.children.m, a.entries[i], b, level + 1, at) {
      KeyIsChild(a, b, i, level);
      FirstKeyShowsBoth(a, b, i, level + 1, at);
    }
    ChildrenShow(d, a.entries, b, level + 1, at);
  }

  lemma {:induction false} OthersAreOthers(es: seq<Entry>, skip: set<string>)
    ensures forall e :: e in Others(es, skip) ==> e in es && e.key !in skip
  {
    if es != [] {
      OthersAreOthers(es[1..], skip);
    }
  }

  lemma {:induction false} DumpKeysConcat(d: Diff, ks: seq<string>, ls: seq<string>, at: nat)
    requires d.children.MapChildren?
    ensures DumpKeys(d, ks + ls, at) == DumpKeys(d, ks, at) + DumpKeys(d, ls, at)
    decreases |ks|
  {
    if ks == [] {
      assert ks + ls == ls;
    } else {
      assert (ks + ls)[1..] == ks[1..] + ls;
      DumpKeysConcat(d, ks[1..], ls, at);
    }
  }

  lemma {:induction false} MapListingConcat(es: seq<Entry>, fs: seq<Entry>, at: nat)
    ensures MapListing(Kept, at, es + fs) == MapListing(Kept, at, es) + MapListing(Kept, at, fs)
  {
    if es == [] {
      assert es + fs == fs;
    } else {
      assert (es + fs)[1..] == es[1..] + fs;
      MapListingConcat(es[1..], fs, at);
    }
  }

  /** The lines for one entry of the first map show the entry and what `b` has for its key. */
  ghost predicate ShowsEntry(lines: seq<Line>, e: Entry, b: Value, level: nat, at: nat)
    requires b.Map?
  {
    var j := KeyIndex(b.entries, e.key);
    && Without(Plus, lines) == KeyListing(Kept, at, e.key, FirstAt(e.key, e.value, b, level))
    && Without(Minus, lines) ==
        if j < |b.entries| then KeyListing(Kept, at, e.key, SecondView(e.value, b.entries[j].value, level)) else []
  }

  ghost predicate ChildShows(m: map<string, Diff>, e: Entry, b: Value, level: nat, at: nat)
    requires b.Map?
  {
    e.key in m && ShowsEntry(DumpKey(m[e.key], e.key, at), e, b, level, at)
  }

  lemma {:induction false} ChildrenShow(d: Diff, es: seq<Entry>, b: Value, level: nat, at: nat)
    requires d.children.MapChildren? && b.Map?
    requires forall i :: 0 <= i < |es| ==> ChildShows(d.children.m, es[i], b, level, at)
    ensures Without(Plus, DumpKeys(d, KeysInOrder(es), at)) == MapListing(Kept, at, FirstInOrder(es, b, level))
    ensures Without(Minus, DumpKeys(d, KeysInOrder(es), at)) == MapListing(Kept, at, SharedInOrder(es, b, level))
  {
    if es != [] {
      assert ChildShows(d.children.m, es[0], b, level, at);
      forall i | 0 <= i < |es[1..]| ensures ChildShows(d.children.m, es[1..][i], b, level, at) {
        assert es[1..][i] == es[i+1];
      }
      ChildrenShow(d, es[1..], b, level, at);
      KeyThenRest(Plus, d, es, at);
      KeyThenRest(Minus, d, es, at);
      FirstStep(es, b, level, at);
      SharedStep(es, b, level, at);
    }
  }

  lemma FirstStep(es: seq<Entry>, b: Value, level: nat, at: nat)
    requires es != [] && b.Map?
    ensures MapListing(Kept, at, FirstInOrder(es, b, level)) ==
      KeyListing(Kept, at, es[0].key, FirstAt(es[0].key, es[0].value, b, level)) +
      MapListing(Kept, at, FirstInOrder(es[1..], b, level))
  {
    assert FirstInOrder(es, b, level)[1..] == FirstInOrder(es[1..], b, level);
  }

  lemma SharedStep(es: seq<Entry>, b: Value, level: nat, at: nat)
    requires es != [] && b.Map?
    ensures var j := KeyIndex(b.entries, es[0].key);
      MapListing(Kept, at, SharedInOrder(es, b, level)) ==
      (if j < |b.entries| then KeyListing(Kept, at, es[0].key, SecondView(es[0].value, b.entries[j].value, level))
       else []) +
      MapListing(Kept, at, SharedInOrder(es[1..], b, level))
  {
    var j, rest := KeyIndex(b.entries, es[0].key), SharedInOrder(es[1..], b, level);
    if j < |b.entries| {
      assert SharedInOrder(es, b, level)[1..] == rest;
    } else {
      assert SharedInOrder(es, b, level) == [] + rest == rest;
    }
  }

  lemma KeyThenRest(drop: Prefix, d: Diff, es: seq<Entry>, at: nat)
    requires d.children.MapChildren? && es != [] && es[0].key in d.children.m
    ensures Without(drop, DumpKeys(d, KeysInOrder(es), at)) ==
      Without(drop, DumpKey(d.children.m[es[0].key], es[0].key, at)) +
      Without(drop, DumpKeys(d, KeysInOrder(es[1..]), at))
  {
    var k := es[0].key;
    assert KeysInOrder(es)[1..] == KeysInOrder(es[1..]);
    WithoutConcat(drop, DumpKey(d.children.m[k], k, at), DumpKeys(d, KeysInOrder(es[1..]), at));
  }

  lemma {:induction false} FirstKeyShowsBoth(a: Value, b: Value, i: nat, level: nat, at: nat)
    requires Decoded(a) && Decoded(b) && a.Map? && b.Map? && i < |a.entries|
    ensures var e := a.entries[i]; ShowsEntry(DumpKey(KeyDiff(a, b, e.key, level), e.key, at), e, b, level, at)
    decreases a, 0, 0
  {
    var k, v := a.entries[i].key, a.entries[i].value;
    DistinctKeyIndex(a.entries, i);
    var j := KeyIndex(b.entries, k);
    assert Decoded(v);
    if j < |b.entries| {
      var u := b.entries[j].value;
      assert Decoded(u);
      if Meet(v, u) {
        DumpShowsBoth(v, u, level, at + 1);
        var body := Dump(DiffOf(v, u, level), at + 1);
        WithoutConcat(Plus, [Line(Kept, at, KeyHeader(k), Null)], body);
        WithoutConcat(Minus, [Line(Kept, at, KeyHeader(k), Null)], body);
      } else {
        TwoValuesShowBoth(v, u, k, level, at);
      }
    } else {
      WithoutKey(Plus, Minus, at, k, v);
      WithoutKey(Minus, Minus, at, k, v);
    }
  }

  lemma TwoValuesShowBoth(v: Value, u: Value, k: string, level: nat, at: nat)
    requires Decoded(v) && Decoded(u) && !Meet(v, u)
    ensures Without(Plus, DumpKey(DiffOf(v, u, level), k, at)) == KeyListing(Kept, at, k, v)
    ensures Without(Minus, DumpKey(DiffOf(v, u, level), k, at)) == KeyListing(Kept, at, k, u)
  {
    if v == u {
      WithoutKey(Plus, Kept, at, k, v);
      WithoutKey(Minus, Kept, at, k, v);
    } else {
      TwoValuesDump(v, u, k, level, at);
      WithoutKey(Plus, Minus, at, k, v);
      WithoutKey(Minus, Minus, at, k, v);
      WithoutKey(Plus, Plus, at, k, u);
      WithoutKey(Minus, Plus, at, k, u);
      WithoutConcat(Plus, KeyListing(Minus, at, k, v), KeyListing(Plus, at, k, u));
      WithoutConcat(Minus, KeyListing(Minus, at, k, v), KeyListing(Plus, at, k, u));
    }
  }

  lemma TwoValuesDump(v: Value, u: Value, k: string, level: nat, at: nat)
    requires Decoded(v) && Decoded(u) && !Meet(v, u) && v != u
    ensures DumpKey(DiffOf(v, u, level), k, at) == KeyListing(Minus, at, k, v) + KeyListing(Plus, at, k, u)
    ensures DumpItem(DiffOf(v, u, level), at) == ItemListing(Minus, at, v) + ItemListing(Plus, at, u)
  {}

  lemma OnlySecondHas(a: Value, b: Value, e: Entry, level: nat)
    requires a.Map? && b.Map? && DistinctKeys(b.entries) && e in b.entries && e.key !in Keys(a.entries)
    ensures var m := MapDiffs(a, b, level + 1);
      e.key in m && m[e.key] == Primitive(Missing, e.value, level + 1)
  {
    var j :| 0 <= j < |b.entries| && b.entries[j] == e;
    DistinctKeyIndex(b.entries, j);
    KeyIndexFinds(a.entries, e.key);
    assert e.key in Keys(b.entries);
    assert MapDiffs(a, b, level + 1)[e.key] == KeyDiff(a, b, e.key, level + 1);
  }

  /** The keys that only the second map has. */
  lemma {:induction false} OnlySecondShows(a: Value, b: Value, es: seq<Entry>, level: nat, at: nat)
    requires Decoded(a) && Decoded(b) && a.Map? && b.Map?
    requires forall e :: e in es ==> e in b.entries && e.key !in Keys(a.entries)
    ensures var d := DiffOf(a, b, level);
      && Without(Plus, DumpKeys(d, KeysInOrder(es), at)) == []
      && Without(Minus, DumpKeys(d, KeysInOrder(es), at)) == MapListing(Kept, at, es)
    decreases |es|
  {
    if es != [] {
      var d, k, v := DiffOf(a, b, level), es[0].key, es[0].value;
      assert es[0] in es;
      OnlySecondHas(a, b, es[0], level);
      MapDumpOrder(a, b, level, at);
      OnlySecondShows(a, b, es[1..], level, at);
      KeyThenRest(Plus, d, es, at);
      KeyThenRest(Minus, d, es, at);
      WithoutKey(Plus, Plus, at, k, v);
      WithoutKey(Minus, Plus, at, k, v);
    }
  }

  // ---------- lists ----------

  lemma {:induction false} ListShowsBoth(a: Value, b: Value, level: nat, at: nat)
    requires Decoded(a) && Decoded(b) && a.List? && b.List?
    ensures Without(Plus, Dump(DiffOf(a, b, level), at)) == Listing(Kept, at, FirstView(a, b, level))
    ensures Without(Minus, Dump(DiffOf(a, b, level), at)) == Listing(Kept, at, SecondView(a, b, level))
    decreases a, 1
  {
    var d, ss := DiffOf(a, b, level), ListSlots(a, b, level);
    var ds := d.children.a;
    ListChildren(a, b, level);
    forall x | 0 <= x < |ds| ensures ShowsItem(DumpItem(ds[x], at), a, b, ss[x], level + 1, at) {
      SlotShowsBoth(a, b, ss[x], level + 1, at);
    }
    var firsts, seconds := FirstView(a, b, level).items, SecondView(a, b, level).items;
    ItemsShow(Plus, d, ds, firsts, at);
    ItemsShow(Minus, d, ds, seconds, at);
  }

  /** The comparison a slot stands for: a leftover faces a null. */
  ghost function SlotDiffOf(a: Value, b: Value, s: Slot, level: nat): Diff
    requires a.List? && b.List? && SlotIn(a, b, s)
  {
    match s
    case Pair(i, j) => DiffOf(a.items[i], b.items[j], level)
    case OnlyA(i) => DiffOf(a.items[i], Null, level)
    case OnlyB(j) => DiffOf(Null, b.items[j], level)
  }

  lemma ListChildren(a: Value, b: Value, level: nat)
    requires a.List? && b.List?
    ensures var d, ss := DiffOf(a, b, level), ListSlots(a, b, level);
      && d.children.ArrayChildren? && |d.children.a| == |ss|
      && forall x :: 0 <= x < |ss| ==> d.children.a[x] == SlotDiffOf(a, b, ss[x], level + 1)
  {
    var m: Matrix := Pairwise(a, b, level + 1);
    SlotsInRange(m, |b.items|);
    var ss := Slots(m, |b.items|);
    assert ListSlots(a, b, level) == ss;
    forall x | 0 <= x < |ss|
      ensures DiffOf(a, b, level).children.a[x] == SlotDiffOf(a, b, ss[x], level + 1)
    {
      assert InRange(m, |b.items|, ss[x]);
      assert DiffOf(a, b, level).children.a[x] == SlotDiff(m, a.items, b.items, ss[x], level + 1);
    }
  }

  ghost predicate ShowsItem(lines: seq<Line>, a: Value, b: Value, s: Slot, level: nat, at: nat)
    requires a.List? && b.List? && SlotIn(a, b, s)
  {
    && Without(Plus, lines) == ItemListing(Kept, at, FirstOf(a, b, s, level))
    && Without(Minus, lines) == ItemListing(Kept, at, SecondOf(a, b, s, level))
  }

  lemma {:induction false} SlotShowsBoth(a: Value, b: Value, s: Slot, level: nat, at: nat)
    requires Decoded(a) && Decoded(b) && a.List? && b.List? && SlotIn(a, b, s)
    ensures ShowsItem(DumpItem(SlotDiffOf(a, b, s, level), at), a, b, s, level, at)
    decreases a, 0
  {
    match s
    case Pair(i, j) =>
      var v, u := a.items[i], b.items[j];
      if Meet(v, u) {
        DumpShowsBoth(v, u, level, at + 1);
        var body := Dump(DiffOf(v, u, level), at + 1);
        WithoutConcat(Plus, [Line(Kept, at, ItemHeader, Null)], body);
        WithoutConcat(Minus, [Line(Kept, at, ItemHeader, Null)], body);
      } else {
        TwoItemsShowBoth(v, u, level, at);
      }
    case OnlyA(i) => TwoItemsShowBoth(a.items[i], Null, level, at);
    case OnlyB(j) => TwoItemsShowBoth(Null, b.items[j], level, at);
  }

  lemma TwoItemsShowBoth(v: Value, u: Value, level: nat, at: nat)
    requires Decoded(v) && Decoded(u) && !Meet(v, u)
    ensures Without(Plus, DumpItem(DiffOf(v, u, level), at)) == ItemListing(Kept, at, v)
    ensures Without(Minus, DumpItem(DiffOf(v, u, level), at)) == ItemListing(Kept, at, u)
  {
    if v == u {
      WithoutItem(Plus, Kept, at, v);
      WithoutItem(Minus, Kept, at, v);
    } else {
      TwoValuesDump(v, u, "", level, at);
      WithoutItem(Plus, Minus, at, v);
      WithoutItem(Minus, Minus, at, v);
      WithoutItem(Plus, Plus, at, u);
      WithoutItem(Minus, Plus, at, u);
      WithoutConcat(Plus, ItemListing(Minus, at, v), ItemListing(Plus, at, u));
      WithoutConcat(Minus, ItemListing(Minus, at, v), ItemListing(Plus, at, u));
    }
  }

  lemma {:induction false} ItemsShow(drop: Prefix, d: Diff, ds: seq<Diff>, vs: seq<Value>, at: nat)
    requires |ds| == |vs| && forall x :: 0 <= x < |ds| ==> ds[x] < d
    requires forall x :: 0 <= x < |ds| ==> Without(drop, DumpItem(ds[x], at)) == ItemListing(Kept, at, vs[x])
    ensures Without(drop, DumpItems(d, ds, at)) == ListListing(Kept, at, vs)
  {
    if ds != [] {
      forall x | 0 <= x < |ds[1..]|
        ensures Without(drop, DumpItem(ds[1..][x], at)) == ItemListing(Kept, at, vs[1..][x])
      {
        assert ds[1..][x] == ds[x+1] && vs[1..][x] == vs[x+1];
      }
      ItemsShow(drop, d, ds[1..], vs[1..], at);
      WithoutConcat(drop, DumpItem(ds[0], at), DumpItems(d, ds[1..], at));
    }
  }

  // ---------- without meeting lists ----------

  /** Nowhere do both documents hold a list at the same place. */
  predicate NoListsMeet(a: Value, b: Value)
    decreases a
  {
    && !(a.List? && b.List?)
    && (a.Map? && b.Map? ==>
        forall i :: 0 <= i < |a.entries| ==>
          var j := KeyIndex(b.entries, a.entries[i].key);
          j < |b.entries| ==> NoListsMeet(a.entries[i].value, b.entries[j].value))
  }

  /** The second map with its keys put in printing order, at every depth where the first has
      a map too. */
  function Reordered(a: Value, b: Value): (r: Value)
    ensures b.Map? ==> r.Map?
    decreases b, 0
  {
    if a.Map? && b.Map? then
      Map(SharedReordered(a.entries, b) + Others(b.entries, Keys(a.entries)))
    else b
  }

  function SharedReordered(es: seq<Entry>, b: Value): seq<Entry>
    requires b.Map?
    decreases b, 0, |es|
  {
    if es == [] then []
    else
      var j := KeyIndex(b.entries, es[0].key);
      (if j < |b.entries| then [Entry(es[0].key, Reordered(es[0].value, b.entries[j].value))] else []) +
      SharedReordered(es[1..], b)
  }

  /** Where no lists meet, the views are the first document as it is and the second with its
      keys in printing order. */
  lemma {:induction false} ViewsWithoutLists(a: Value, b: Value, level: nat)
    requires NoListsMeet(a, b)
    ensures FirstView(a, b, level) == a
    ensures SecondView(a, b, level) == Reordered(a, b)
    decreases a, 1
  {
    if a.Map? && b.Map? {
      EntriesWithoutLists(a, b, 0, level + 1);
      assert a.entries[0..] == a.entries;
    }
  }

  lemma {:induction false} EntriesWithoutLists(a: Value, b: Value, i: nat, level: nat)
    requires NoListsMeet(a, b) && a.Map? && b.Map? && i <= |a.entries|
    ensures FirstInOrder(a.entries[i..], b, level) == a.entries[i..]
    ensures SharedInOrder(a.entries[i..], b, level) == SharedReordered(a.entries[i..], b)
    decreases a, 0, |a.entries| - i
  {
    if i < |a.entries| {
      var es := a.entries[i..];
      var j := KeyIndex(b.entries, es[0].key);
      assert es[0] == a.entries[i] && es[1..] == a.entries[i+1..];
      EntriesWithoutLists(a, b, i + 1, level);
      if j < |b.entries| {
        ViewsWithoutLists(a.entries[i].value, b.entries[j].value, level);
      }
      assert Entry(es[0].key, es[0].value) == es[0] && [es[0]] + es[1..] == es;
    }
  }

  /** So there the dump is literally the two documents. */
  lemma DumpShowsBothMaps(a: Value, b: Value, level: nat, at: nat)
    requires Decoded(a) && Decoded(b) && a.Map? && b.Map? && NoListsMeet(a, b)
    ensures Without(Plus, Dump(DiffOf(a, b, level), at)) == Listing(Kept, at, a)
    ensures Without(Minus, Dump(DiffOf(a, b, level), at)) == Listing(Kept, at, Reordered(a, b))
  {
    DumpShowsBoth(a, b, level, at);
    ViewsWithoutLists(a, b, level);
  }

  // ---------- documents that are not compared child by child ----------

  /** Equal ones are dumped once, unmarked; of different ones each is shown under its mark, a
      null not at all. */
  lemma LeavesAreShown(a: Value, b: Value, level: nat, at: nat)
    requires Decoded(a) && Decoded(b) && !Meet(a, b)
    ensures a == b ==> Dump(DiffOf(a, b, level), at) == Listing(Kept, at, a)
    ensures a != b ==> Without(Plus, Dump(DiffOf(a, b, level), at)) == if a.Null? then [] else Listing(Kept, at, a)
    ensures a != b ==> Without(Minus, Dump(DiffOf(a, b, level), at)) == if b.Null? then [] else Listing(Kept, at, b)
  {
    if a != b {
      var mine := if a.Null? then [] else Listing(Minus, at, a);
      var theirs := if b.Null? then [] else Listing(Plus, at, b);
      assert Dump(DiffOf(a, b, level), at) == mine + theirs;
      WithoutConcat(Plus, mine, theirs);
      WithoutConcat(Minus, mine, theirs);
      WithoutListing(Plus, Minus, at, a);
      WithoutListing(Minus, Minus, at, a);
      WithoutListing(Plus, Plus, at, b);
      WithoutListing(Minus, Plus, at, b);
    }
  }
}
