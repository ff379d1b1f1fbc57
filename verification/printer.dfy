/** Dumping a difference.  The text details are left out: a line is its prefix, its level,
    what introduces it and the primitive it shows. */
module Printer {
  import opened YamlValue
  import opened DiffSpec

  datatype Prefix = Kept | Minus | Plus

  /** "k:" and "-" alone on a line announce a map or a list; "k: " and "- " precede a
      primitive. */
  datatype Head = Plain | Item | ItemHeader | Key(k: string) | KeyHeader(k: string)

  datatype Line = Line(prefix: Prefix, level: nat, head: Head, value: Value)

  // ---------- plain listings ----------

  function Listing(prefix: Prefix, level: nat, v: Value): seq<Line>
    decreases v, 0
  {
    match v
    case Map(es) => MapListing(prefix, level, es)
    case List(vs) => ListListing(prefix, level, vs)
    case _ => [Line(prefix, level, Plain, v)]
  }

  function ItemListing(prefix: Prefix, level: nat, v: Value): seq<Line>
    decreases v, 1
  {
    if Composite(v) then [Line(prefix, level, ItemHeader, Null)] + Listing(prefix, level + 1, v)
    else [Line(prefix, level, Item, v)]
  }

  function KeyListing(prefix: Prefix, level: nat, k: string, v: Value): seq<Line>
    decreases v, 1
  {
    if Composite(v) then [Line(prefix, level, KeyHeader(k), Null)] + Listing(prefix, level + 1, v)
    else [Line(prefix, level, Key(k), v)]
  }

  function ListListing(prefix: Prefix, level: nat, vs: seq<Value>): seq<Line>
    decreases vs, 2
  {
    if vs == [] then [] else ItemListing(prefix, level, vs[0]) + ListListing(prefix, level, vs[1..])
  }

  function MapListing(prefix: Prefix, level: nat, es: seq<Entry>): seq<Line>
    decreases es, 2
  {
    if es == [] then [] else KeyListing(prefix, level, es[0].key, es[0].value) + MapListing(prefix, level, es[1..])
  }

  // ---------- the dump of a difference ----------

  function EntriesOf(v: Value): seq<Entry> {
    match v
    case Map(es) => es
    case _ => []
  }

  /** The keys of `es`, in order, that are children and have not been printed. */
  function NewKeys(es: seq<Entry>, keys: set<string>, checked: set<string>): seq<string> {
    if es == [] then []
    else if es[0].key in keys && es[0].key !in checked then
      [es[0].key] + NewKeys(es[1..], keys, checked + {es[0].key})
    else NewKeys(es[1..], keys, checked)
  }

  function KeySet(ks: seq<string>): set<string> {
    set k | k in ks
  }

  /** First the keys of the first map in its order, then those only the second one has. */
  function OrderedKeys(a: Value, b: Value, keys: set<string>): seq<string> {
    var first := NewKeys(EntriesOf(a), keys, {});
    first + NewKeys(EntriesOf(b), keys, KeySet(first))
  }

  /** The children of a map difference are for keys of its two maps. */
  predicate Keyed(d: Diff) {
    d.children.MapChildren? ==> d.children.m.Keys <= Keys(EntriesOf(d.a)) + Keys(EntriesOf(d.b))
  }

  predicate KeyedDeep(d: Diff) {
    && Keyed(d)
    && match d.children
       case NoChildren => true
       case ArrayChildren(ds) => forall i :: 0 <= i < |ds| ==> KeyedDeep(ds[i])
       case MapChildren(m) => forall k :: k in m ==> KeyedDeep(m[k])
  }

  function Dump(d: Diff, level: nat): seq<Line>
    decreases d, 1
  {
    match d.children
    case NoChildren => DumpLeaf(d, level)
    case ArrayChildren(ds) => DumpItems(d, ds, level)
    case MapChildren(m) => DumpKeys(d, OrderedKeys(d.a, d.b, m.Keys), level)
  }

  function DumpLeaf(d: Diff, level: nat): seq<Line> {
    match d.status
    case Same => Listing(Kept, level, d.a)
    case Differs =>
      (if d.a.Null? then [] else Listing(Minus, level, d.a)) + (if d.b.Null? then [] else Listing(Plus, level, d.b))
    case FirstMissing => Listing(Plus, level, d.b)
    case SecondMissing => Listing(Minus, level, d.a)
  }

  function DumpItems(d: Diff, ds: seq<Diff>, level: nat): seq<Line>
    requires forall i :: 0 <= i < |ds| ==> ds[i] < d
    decreases d, 0, |ds|
  {
    if ds == [] then [] else DumpItem(ds[0], level) + DumpItems(d, ds[1..], level)
  }

  function DumpItem(c: Diff, level: nat): seq<Line>
    decreases c, 2
  {
    if !c.children.NoChildren? then [Line(Kept, level, ItemHeader, Null)] + Dump(c, level + 1)
    else match c.status
      case Same => ItemListing(Kept, level, c.a)
      case Differs => ItemListing(Minus, level, c.a) + ItemListing(Plus, level, c.b)
      case FirstMissing => ItemListing(Plus, level, c.b)
      case SecondMissing => ItemListing(Minus, level, c.a)
  }

  function DumpKeys(d: Diff, ks: seq<string>, level: nat): seq<Line>
    requires d.children.MapChildren?
    decreases d, 0, |ks|
  {
    if ks == [] then []
    else
      (if ks[0] in d.children.m then DumpKey(d.children.m[ks[0]], ks[0], level) else []) + DumpKeys(d, ks[1..], level)
  }

  function DumpKey(c: Diff, k: string, level: nat): seq<Line>
    decreases c, 2
  {
    if !c.children.NoChildren? then [Line(Kept, level, KeyHeader(k), Null)] + Dump(c, level + 1)
    else match c.status
      case Same => KeyListing(Kept, level, k, c.a)
      case Differs => KeyListing(Minus, level, k, c.a) + KeyListing(Plus, level, k, c.b)
      case FirstMissing => KeyListing(Plus, level, k, c.b)
      case SecondMissing => KeyListing(Minus, level, k, c.a)
  }

  // ---------- the code ----------

  method DumpData(prefix: Prefix, level: nat, v: Value) returns (lines: seq<Line>)
    ensures lines == Listing(prefix, level, v)
    decreases v, 0
  {
    if v.Map? {
      lines := [];
      for i := 0 to |v.entries|
        invariant lines + MapListing(prefix, level, v.entries[i..]) == MapListing(prefix, level, v.entries)
      {
        assert v.entries[i..][1..] == v.entries[i+1..];
        var item := DumpMapItem(prefix, level, v.entries[i].key, v.entries[i].value);
        lines := lines + item;
      }
      return;
    }
    if v.List? {
      lines := [];
      for i := 0 to |v.items|
        invariant lines + ListListing(prefix, level, v.items[i..]) == ListListing(prefix, level, v.items)
      {
        assert v.items[i..][1..] == v.items[i+1..];
        var item := DumpArrayItem(prefix, level, v.items[i]);
        lines := lines + item;
      }
      return;
    }
    lines := [Line(prefix, level, Plain, v)];
  }

  method DumpArrayItem(prefix: Prefix, level: nat, v: Value) returns (lines: seq<Line>)
    ensures lines == ItemListing(prefix, level, v)
    decreases v, 1
  {
    if v.Map? || v.List? {
      var rest := DumpData(prefix, level + 1, v);
      return [Line(prefix, level, ItemHeader, Null)] + rest;
    }
    lines := [Line(prefix, level, Item, v)];
  }

  method DumpMapItem(prefix: Prefix, level: nat, k: string, v: Value) returns (lines: seq<Line>)
    ensures lines == KeyListing(prefix, level, k, v)
    decreases v, 1
  {
    if v.Map? || v.List? {
      var rest := DumpData(prefix, level + 1, v);
      return [Line(prefix, level, KeyHeader(k), Null)] + rest;
    }
    lines := [Line(prefix, level, Key(k), v)];
  }

  method DumpDiff(d: Diff, level: nat) returns (lines: seq<Line>)
    requires KeyedDeep(d)
    ensures lines == Dump(d, level)
    decreases d, 2
  {
    if !d.children.NoChildren? {
      if d.children.ArrayChildren? {
        lines := DumpTryArray(d, level);
      } else {
        lines := DumpTryMap(d, level);
      }
      return;
    }
    match d.status {
      case Same => lines := DumpData(Kept, level, d.a);
      case Differs =>
        lines := [];
        if !d.a.Null? {
          lines := DumpData(Minus, level, d.a);
        }
        if !d.b.Null? {
          var more := DumpData(Plus, level, d.b);
          lines := lines + more;
        }
      case FirstMissing => lines := DumpData(Plus, level, d.b);
      case SecondMissing => lines := DumpData(Minus, level, d.a);
    }
  }

  method DumpTryArray(d: Diff, level: nat) returns (lines: seq<Line>)
    requires d.children.ArrayChildren? && KeyedDeep(d)
    ensures lines == Dump(d, level)
    decreases d, 0
  {
    var ds := d.children.a;
    lines := [];
    for i := 0 to |ds|
      invariant lines + DumpItems(d, ds[i..], level) == DumpItems(d, ds, level)
    {
      assert ds[i..][1..] == ds[i+1..];
      var part := DumpArrayChild(ds[i], level);
      lines := lines + part;
    }
  }

  method DumpArrayChild(c: Diff, level: nat) returns (lines: seq<Line>)
    requires KeyedDeep(c)
    ensures lines == DumpItem(c, level)
    decreases c, 3
  {
    if !c.children.NoChildren? {
      var rest := DumpDiff(c, level + 1);
      return [Line(Kept, level, ItemHeader, Null)] + rest;
    }
    match c.status {
      case Same => lines := DumpArrayItem(Kept, level, c.a);
      case Differs =>
        lines := DumpArrayItem(Minus, level, c.a);
        var plus := DumpArrayItem(Plus, level, c.b);
        lines := lines + plus;
      case FirstMissing => lines := DumpArrayItem(Plus, level, c.b);
      case SecondMissing => lines := DumpArrayItem(Minus, level, c.a);
    }
  }

  method DumpTryMap(d: Diff, level: nat) returns (lines: seq<Line>)
    requires d.children.MapChildren? && KeyedDeep(d)
    ensures lines == Dump(d, level)
    decreases d, 1
  {
    var sorted := SortedChildren(d);
    OrderedKeysExactly(d.a, d.b, d.children.m.Keys);
    assert forall k :: k in sorted <==> k in KeySet(sorted);
    lines := DumpChildren(d, sorted, level);
  }

  method DumpChildren(d: Diff, sorted: seq<string>, level: nat) returns (lines: seq<Line>)
    requires d.children.MapChildren? && forall k :: k in d.children.m ==> KeyedDeep(d.children.m[k])
    requires forall k :: k in sorted ==> k in d.children.m
    ensures lines == DumpKeys(d, sorted, level)
    decreases d, 0
  {
    lines := [];
    for i := 0 to |sorted|
      invariant lines + DumpKeys(d, sorted[i..], level) == DumpKeys(d, sorted, level)
    {
      assert sorted[i..][1..] == sorted[i+1..];
      var part := DumpMapChild(d.children.m[sorted[i]], sorted[i], level);
      lines := lines + part;
    }
  }

  method DumpMapChild(c: Diff, k: string, level: nat) returns (lines: seq<Line>)
    requires KeyedDeep(c)
    ensures lines == DumpKey(c, k, level)
    decreases c, 3
  {
    if !c.children.NoChildren? {
      var rest := DumpDiff(c, level + 1);
      return [Line(Kept, level, KeyHeader(k), Null)] + rest;
    }
    match c.status {
      case Same => lines := DumpMapItem(Kept, level, k, c.a);
      case Differs =>
        lines := DumpMapItem(Minus, level, k, c.a);
        var plus := DumpMapItem(Plus, level, k, c.b);
        lines := lines + plus;
      case FirstMissing => lines := DumpMapItem(Plus, level, k, c.b);
      case SecondMissing => lines := DumpMapItem(Minus, level, k, c.a);
    }
  }

  /** The keys in printing order.  The children are ranged over in an arbitrary order, again
      and again, and it makes no difference. */
  method SortedChildren(d: Diff) returns (sorted: seq<string>)
    requires d.children.MapChildren? && Keyed(d)
    ensures sorted == OrderedKeys(d.a, d.b, d.children.m.Keys)
  {
    var m := d.children.m;
    var first, checked := AppendSorted(EntriesOf(d.a), m, {});
    assert checked == KeySet(first);
    var second;
    second, checked := AppendSorted(EntriesOf(d.b), m, checked);
    sorted := first + second;
    OrderedKeysExactly(d.a, d.b, m.Keys);
    var left := m.Keys;
    while left != {}
      invariant left <= m.Keys
      decreases left
    {
      var k :| k in left;
      left := left - {k};
      assert k in KeySet(sorted);
      if k in checked {
        continue;
      }
      assert false;
    }
  }

  method AppendSorted(es: seq<Entry>, m: map<string, Diff>, checked0: set<string>)
    returns (sorted: seq<string>, checked: set<string>)
    ensures sorted == NewKeys(es, m.Keys, checked0)
    ensures checked == checked0 + KeySet(sorted)
  {
    sorted, checked := [], checked0;
    for i := 0 to |es|
      invariant sorted + NewKeys(es[i..], m.Keys, checked) == NewKeys(es, m.Keys, checked0)
      invariant checked == checked0 + KeySet(sorted)
    {
      assert es[i..][1..] == es[i+1..];
      var found := FindChild(m, es[i].key, checked);
      if found {
        sorted := sorted + [es[i].key];
        checked := checked + {es[i].key};
      }
    }
  }

  /** Ranges over the children for an unprinted one with this key. */
  method FindChild(m: map<string, Diff>, key: string, checked: set<string>) returns (found: bool)
    ensures found <==> key in m && key !in checked
  {
    var left := m.Keys;
    found := false;
    while left != {}
      invariant left <= m.Keys
      invariant found <==> key in m && key !in checked && key !in left
      decreases left
    {
      var k :| k in left;
      left := left - {k};
      if k in checked || key != k {
        continue;
      }
      found := true;
    }
  }

  // ---------- printing order ----------

  lemma KeySetOfConcat(xs: seq<string>, ys: seq<string>)
    ensures KeySet(xs + ys) == KeySet(xs) + KeySet(ys)
  {}

  predicate NoRepeats(ks: seq<string>) {
    forall i, j :: 0 <= i < j < |ks| ==> ks[i] != ks[j]
  }

  lemma {:induction false} NewKeysExactly(es: seq<Entry>, keys: set<string>, checked: set<string>)
    ensures NoRepeats(NewKeys(es, keys, checked))
    ensures KeySet(NewKeys(es, keys, checked)) == Keys(es) * keys - checked
  {
    if es != [] {
      var k := es[0].key;
      assert Keys(es) == {k} + Keys(es[1..]) by {
        forall x ensures x in Keys(es) <==> x == k || x in Keys(es[1..]) {
          if i :| 0 <= i < |es| && es[i].key == x {
            if i > 0 {
              assert es[1..][i-1].key == x;
            }
          }
          if i :| 0 <= i < |es[1..]| && es[1..][i].key == x {
            assert es[i+1].key == x;
          }
        }
      }
      if k in keys && k !in checked {
        NewKeysExactly(es[1..], keys, checked + {k});
        var rest := NewKeys(es[1..], keys, checked + {k});
        KeySetOfConcat([k], rest);
        assert KeySet([k]) == {k};
        forall j | 0 <= j < |rest| ensures rest[j] != k {
          assert rest[j] in KeySet(rest);
        }
      } else {
        NewKeysExactly(es[1..], keys, checked);
      }
    }
  }

  /** Every child is printed exactly once. */
  lemma OrderedKeysExactly(a: Value, b: Value, keys: set<string>)
    requires keys <= Keys(EntriesOf(a)) + Keys(EntriesOf(b))
    ensures NoRepeats(OrderedKeys(a, b, keys))
    ensures KeySet(OrderedKeys(a, b, keys)) == keys
  {
    var first := NewKeys(EntriesOf(a), keys, {});
    var second := NewKeys(EntriesOf(b), keys, KeySet(first));
    NewKeysExactly(EntriesOf(a), keys, {});
    NewKeysExactly(EntriesOf(b), keys, KeySet(first));
    KeySetOfConcat(first, second);
    forall i, j | 0 <= i < |first| && 0 <= j < |second| ensures first[i] != second[j] {
      assert first[i] in KeySet(first) && second[j] in KeySet(second);
    }
  }

  function KeysInOrder(es: seq<Entry>): seq<string> {
    if es == [] then [] else [es[0].key] + KeysInOrder(es[1..])
  }

  /** The entries of `es` whose key is not among `skip`. */
  function Others(es: seq<Entry>, skip: set<string>): seq<Entry> {
    if es == [] then []
    else (if es[0].key in skip then [] else [es[0]]) + Others(es[1..], skip)
  }

  lemma {:induction false} NewKeysInOrder(es: seq<Entry>, keys: set<string>, checked: set<string>)
    requires DistinctKeys(es) && Keys(es) <= keys
    ensures NewKeys(es, keys, checked) == KeysInOrder(Others(es, checked))
  {
    if es != [] {
      var k := es[0].key;
      assert k in Keys(es);
      assert Keys(es[1..]) <= Keys(es) by {
        forall x | x in Keys(es[1..]) ensures x in Keys(es) {
          var i :| 0 <= i < |es[1..]| && es[1..][i].key == x;
          assert es[i+1].key == x;
        }
      }
      if k in checked {
        NewKeysInOrder(es[1..], keys, checked);
        assert [] + Others(es[1..], checked) == Others(es[1..], checked);
      } else {
        NewKeysInOrder(es[1..], keys, checked + {k});
        forall i | 0 <= i < |es[1..]| ensures es[1..][i].key != k {
          assert es[i+1].key != es[0].key;
        }
        OthersIgnore(es[1..], checked, k);
        assert ([es[0]] + Others(es[1..], checked))[1..] == Others(es[1..], checked);
      }
    }
  }

  lemma {:induction false} OthersIgnore(es: seq<Entry>, skip: set<string>, k: string)
    requires forall i :: 0 <= i < |es| ==> es[i].key != k
    ensures Others(es, skip + {k}) == Others(es, skip)
  {
    if es != [] {
      assert es[0].key != k;
      forall i | 0 <= i < |es[1..]| ensures es[1..][i].key != k {
        assert es[i+1].key != k;
      }
      OthersIgnore(es[1..], skip, k);
    }
  }

  lemma {:induction false} OthersOfNothing(es: seq<Entry>)
    ensures Others(es, {}) == es
  {
    if es != [] {
      OthersOfNothing(es[1..]);
    }
  }

  /** For decoded maps: the keys of the first in its order, then those only the second has,
      in the second's order. */
  lemma PrintingOrder(a: Value, b: Value)
    requires a.Map? && b.Map? && DistinctKeys(a.entries) && DistinctKeys(b.entries)
    ensures OrderedKeys(a, b, Keys(a.entries) + Keys(b.entries)) ==
      KeysInOrder(a.entries) + KeysInOrder(Others(b.entries, Keys(a.entries)))
  {
    var keys := Keys(a.entries) + Keys(b.entries);
    NewKeysInOrder(a.entries, keys, {});
    OthersOfNothing(a.entries);
    NewKeysExactly(a.entries, keys, {});
    assert Keys(a.entries) * keys - {} == Keys(a.entries);
    NewKeysInOrder(b.entries, keys, Keys(a.entries));
  }
}
