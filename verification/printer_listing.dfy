/** What a listing shows: all of the document.  Equal listings are of equal documents, and
    every primitive has its own line, with its key or item mark, its depth and its value. */
module PrinterListing {
  import opened YamlValue
  import opened DiffSpec
  import opened Printer
  import opened PrinterProperties
  import opened PrinterViews

  /** No empty map or list at any depth: those print nothing. */
  predicate NothingEmpty(v: Value) {
    match v
    case Map(es) => es != [] && forall i :: 0 <= i < |es| ==> NothingEmpty(es[i].value)
    case List(vs) => vs != [] && forall i :: 0 <= i < |vs| ==> NothingEmpty(vs[i])
    case _ => true
  }

  // ---------- where a listing ends ----------

  /** The lines begin at this level. */
  predicate BeginsAt(lines: seq<Line>, level: nat) {
    lines != [] && lines[0].level == level
  }

  /** What follows lies further out. */
  predicate EndsBefore(rest: seq<Line>, level: nat) {
    rest == [] || rest[0].level < level
  }

  lemma {:induction false} ListingBegins(prefix: Prefix, level: nat, v: Value)
    requires NothingEmpty(v)
    ensures BeginsAt(Listing(prefix, level, v), level)
    ensures var head := Listing(prefix, level, v)[0].head;
      && (v.Map? <==> head.Key? || head.KeyHeader?) && (v.List? <==> head.Item? || head.ItemHeader?)
  {
    match v
    case Map(es) => assert KeyListing(prefix, level, es[0].key, es[0].value) != [];
    case List(vs) => assert ItemListing(prefix, level, vs[0]) != [];
    case _ =>
  }

  /** Equal lines followed by something further out are of equal values. */
  lemma {:induction false} ListingTellsApart(
    prefix: Prefix, level: nat, v: Value, rest: seq<Line>, v': Value, rest': seq<Line>)
    requires NothingEmpty(v) && NothingEmpty(v') && EndsBefore(rest, level) && EndsBefore(rest', level)
    requires Listing(prefix, level, v) + rest == Listing(prefix, level, v') + rest'
    ensures v == v' && rest == rest'
    decreases v, 0
  {
    var s, s' := Listing(prefix, level, v), Listing(prefix, level, v');
    ListingBegins(prefix, level, v);
    ListingBegins(prefix, level, v');
    assert s[0] == (s + rest)[0] == (s' + rest')[0] == s'[0];
    if v.Map? {
      MapListingTellsApart(prefix, level, v.entries, rest, v'.entries, rest');
    } else if v.List? {
      ListListingTellsApart(prefix, level, v.items, rest, v'.items, rest');
    } else {
      assert rest == (s + rest)[1..] == (s' + rest')[1..] == rest';
    }
  }

  lemma Rejoin<T>(xs: seq<T>, ys: seq<T>)
    requires xs != [] && ys != [] && xs[0] == ys[0] && xs[1..] == ys[1..]
    ensures xs == ys
  {
    assert xs == [xs[0]] + xs[1..] && ys == [ys[0]] + ys[1..];
  }

  lemma MapListingSplits(prefix: Prefix, level: nat, es: seq<Entry>, rest: seq<Line>)
    requires es != []
    ensures MapListing(prefix, level, es) + rest ==
      KeyListing(prefix, level, es[0].key, es[0].value) + (MapListing(prefix, level, es[1..]) + rest)
  {}

  lemma ListListingSplits(prefix: Prefix, level: nat, vs: seq<Value>, rest: seq<Line>)
    requires vs != []
    ensures ListListing(prefix, level, vs) + rest ==
      ItemListing(prefix, level, vs[0]) + (ListListing(prefix, level, vs[1..]) + rest)
  {}

  /** After a nested listing comes the next entry, or what follows the whole. */
  lemma TailEnds(prefix: Prefix, level: nat, es: seq<Entry>, rest: seq<Line>)
    requires EndsBefore(rest, level)
    ensures EndsBefore(MapListing(prefix, level, es) + rest, level + 1)
    ensures es == [] ==> MapListing(prefix, level, es) + rest == rest
    ensures es != [] ==> BeginsAt(MapListing(prefix, level, es) + rest, level)
  {}

  lemma ListTailEnds(prefix: Prefix, level: nat, vs: seq<Value>, rest: seq<Line>)
    requires EndsBefore(rest, level)
    ensures EndsBefore(ListListing(prefix, level, vs) + rest, level + 1)
    ensures vs == [] ==> ListListing(prefix, level, vs) + rest == rest
    ensures vs != [] ==> BeginsAt(ListListing(prefix, level, vs) + rest, level)
  {}

  lemma {:induction false} MapListingTellsApart(
    prefix: Prefix, level: nat, es: seq<Entry>, rest: seq<Line>, es': seq<Entry>, rest': seq<Line>)
    requires forall i :: 0 <= i < |es| ==> NothingEmpty(es[i].value)
    requires forall i :: 0 <= i < |es'| ==> NothingEmpty(es'[i].value)
    requires EndsBefore(rest, level) && EndsBefore(rest', level)
    requires MapListing(prefix, level, es) + rest == MapListing(prefix, level, es') + rest'
    ensures es == es' && rest == rest'
    decreases es, 1
  {
    TailEnds(prefix, level, es, rest);
    TailEnds(prefix, level, es', rest');
    if es != [] && es' != [] {
      var k, k', v, v' := es[0].key, es'[0].key, es[0].value, es'[0].value;
      var tail, tail' := MapListing(prefix, level, es[1..]) + rest, MapListing(prefix, level, es'[1..]) + rest';
      MapListingSplits(prefix, level, es, rest);
      MapListingSplits(prefix, level, es', rest');
      TailEnds(prefix, level, es[1..], rest);
      TailEnds(prefix, level, es'[1..], rest');
      KeyListingTellsApart(prefix, level, k, v, tail, k', v', tail');
      MapListingTellsApart(prefix, level, es[1..], rest, es'[1..], rest');
      Rejoin(es, es');
    }
  }

  lemma {:induction false} KeyListingTellsApart(
    prefix: Prefix, level: nat, k: string, v: Value, tail: seq<Line>, k': string, v': Value, tail': seq<Line>)
    requires NothingEmpty(v) && NothingEmpty(v') && EndsBefore(tail, level + 1) && EndsBefore(tail', level + 1)
    requires KeyListing(prefix, level, k, v) + tail == KeyListing(prefix, level, k', v') + tail'
    ensures k == k' && v == v' && tail == tail'
    decreases v, 2
  {
    var s, s' := KeyListing(prefix, level, k, v) + tail, KeyListing(prefix, level, k', v') + tail';
    assert s[0] == s'[0] && s[1..] == s'[1..];
    if Composite(v) {
      assert s[1..] == Listing(prefix, level + 1, v) + tail;
      assert s'[1..] == Listing(prefix, level + 1, v') + tail';
      ListingTellsApart(prefix, level + 1, v, tail, v', tail');
    } else {
      assert s[1..] == tail && s'[1..] == tail';
    }
  }

  lemma {:induction false} ListListingTellsApart(
    prefix: Prefix, level: nat, vs: seq<Value>, rest: seq<Line>, vs': seq<Value>, rest': seq<Line>)
    requires forall i :: 0 <= i < |vs| ==> NothingEmpty(vs[i])
    requires forall i :: 0 <= i < |vs'| ==> NothingEmpty(vs'[i])
    requires EndsBefore(rest, level) && EndsBefore(rest', level)
    requires ListListing(prefix, level, vs) + rest == ListListing(prefix, level, vs') + rest'
    ensures vs == vs' && rest == rest'
    decreases vs, 1
  {
    ListTailEnds(prefix, level, vs, rest);
    ListTailEnds(prefix, level, vs', rest');
    if vs != [] && vs' != [] {
      var tail, tail' := ListListing(prefix, level, vs[1..]) + rest, ListListing(prefix, level, vs'[1..]) + rest';
      ListListingSplits(prefix, level, vs, rest);
      ListListingSplits(prefix, level, vs', rest');
      ListTailEnds(prefix, level, vs[1..], rest);
      ListTailEnds(prefix, level, vs'[1..], rest');
      ItemListingTellsApart(prefix, level, vs[0], tail, vs'[0], tail');
      ListListingTellsApart(prefix, level, vs[1..], rest, vs'[1..], rest');
      Rejoin(vs, vs');
    }
  }

  lemma {:induction false} ItemListingTellsApart(
    prefix: Prefix, level: nat, v: Value, tail: seq<Line>, v': Value, tail': seq<Line>)
    requires NothingEmpty(v) && NothingEmpty(v') && EndsBefore(tail, level + 1) && EndsBefore(tail', level + 1)
    requires ItemListing(prefix, level, v) + tail == ItemListing(prefix, level, v') + tail'
    ensures v == v' && tail == tail'
    decreases v, 2
  {
    var s, s' := ItemListing(prefix, level, v) + tail, ItemListing(prefix, level, v') + tail';
    assert s[0] == s'[0] && s[1..] == s'[1..];
    if Composite(v) {
      assert s[1..] == Listing(prefix, level + 1, v) + tail;
      assert s'[1..] == Listing(prefix, level + 1, v') + tail';
      ListingTellsApart(prefix, level + 1, v, tail, v', tail');
    } else {
      assert s[1..] == tail && s'[1..] == tail';
    }
  }

  /** Equal listings are of equal documents, at the same level and under the same mark. */
  lemma EqualListingsOfEquals(prefix: Prefix, level: nat, v: Value, prefix': Prefix, level': nat, v': Value)
    requires NothingEmpty(v) && NothingEmpty(v') && Listing(prefix, level, v) == Listing(prefix', level', v')
    ensures v == v' && level == level' && prefix == prefix'
  {
    ListingBegins(prefix, level, v);
    ListingBegins(prefix', level', v');
    AllMarked(prefix, level, v);
    AllMarked(prefix', level', v');
    assert Listing(prefix, level, v)[0] in Listing(prefix, level, v);
    assert Listing(prefix', level', v')[0] in Listing(prefix', level', v');
    assert Listing(prefix, level, v) + [] == Listing(prefix, level, v);
    assert Listing(prefix', level', v') + [] == Listing(prefix', level', v');
    ListingTellsApart(prefix, level, v, [], v', []);
  }

  /** Every line of a listing carries its mark. */
  lemma {:induction false} AllMarked(prefix: Prefix, level: nat, v: Value)
    ensures forall l :: l in Listing(prefix, level, v) ==> l.prefix == prefix
    decreases v, 0
  {
    match v
    case Map(es) => EntriesMarked(prefix, level, es);
    case List(vs) => ItemsMarked(prefix, level, vs);
    case _ =>
  }

  lemma {:induction false} EntriesMarked(prefix: Prefix, level: nat, es: seq<Entry>)
    ensures forall l :: l in MapListing(prefix, level, es) ==> l.prefix == prefix
    decreases es, 1
  {
    if es != [] {
      AllMarked(prefix, level + 1, es[0].value);
      EntriesMarked(prefix, level, es[1..]);
    }
  }

  lemma {:induction false} ItemsMarked(prefix: Prefix, level: nat, vs: seq<Value>)
    ensures forall l :: l in ListListing(prefix, level, vs) ==> l.prefix == prefix
    decreases vs, 1
  {
    if vs != [] {
      AllMarked(prefix, level + 1, vs[0]);
      ItemsMarked(prefix, level, vs[1..]);
    }
  }

  // ---------- the line of every primitive ----------

  function Children(v: Value): (r: seq<Value>)
    ensures v.Map? ==> |r| == |v.entries| && forall i :: 0 <= i < |r| ==> r[i] == v.entries[i].value
    ensures v.List? ==> r == v.items
    ensures forall i :: 0 <= i < |r| ==> r[i] < v
  {
    match v
    case Map(es) => seq(|es|, i requires 0 <= i < |es| => es[i].value)
    case List(vs) => vs
    case _ => []
  }

  /** The way to a value: the number of the child, again and again. */
  datatype Path = Here | Into(i: nat, rest: Path)

  /** The path leads to a primitive. */
  predicate Leads(v: Value, path: Path) {
    match path
    case Here => !Composite(v)
    case Into(i, rest) => i < |Children(v)| && Leads(Children(v)[i], rest)
  }

  function LeafAt(v: Value, path: Path): Value
    requires Leads(v, path)
  {
    match path
    case Here => v
    case Into(i, rest) => LeafAt(Children(v)[i], rest)
  }

  /** What introduces the primitive there: its key, or the mark of an item. */
  function HeadAt(v: Value, path: Path): Head
    requires Leads(v, path)
  {
    match path
    case Here => Plain
    case Into(i, Here) => if v.Map? then Key(v.entries[i].key) else Item
    case Into(i, rest) => HeadAt(Children(v)[i], rest)
  }

  /** A primitive lies as deep as the maps and lists around it, the outermost not counted. */
  function DepthOf(path: Path): nat {
    match path
    case Here => 0
    case Into(_, Here) => 0
    case Into(_, rest) => 1 + DepthOf(rest)
  }

  /** The lines of child `i`, its mark included. */
  function ChildLines(prefix: Prefix, level: nat, v: Value, i: nat): seq<Line>
    requires i < |Children(v)|
  {
    if v.Map? then KeyListing(prefix, level, v.entries[i].key, v.entries[i].value)
    else ItemListing(prefix, level, Children(v)[i])
  }

  /** How many lines come before those of child `i`. */
  function Before(prefix: Prefix, level: nat, v: Value, i: nat): nat
    requires i <= |Children(v)|
  {
    if i == 0 then 0 else Before(prefix, level, v, i - 1) + |ChildLines(prefix, level, v, i - 1)|
  }

  lemma {:induction false} EntriesFrom(prefix: Prefix, level: nat, v: Value, i: nat)
    requires v.Map? && i <= |v.entries|
    ensures Before(prefix, level, v, i) <= |Listing(prefix, level, v)|
    ensures Listing(prefix, level, v)[Before(prefix, level, v, i)..] == MapListing(prefix, level, v.entries[i..])
    decreases i
  {
    if i == 0 {
      assert v.entries[0..] == v.entries;
    } else {
      EntriesFrom(prefix, level, v, i - 1);
      var rest := MapListing(prefix, level, v.entries[i-1..]);
      assert v.entries[i-1..][1..] == v.entries[i..];
      assert rest == ChildLines(prefix, level, v, i - 1) + MapListing(prefix, level, v.entries[i..]);
    }
  }

  lemma {:induction false} ItemsFrom(prefix: Prefix, level: nat, v: Value, i: nat)
    requires v.List? && i <= |v.items|
    ensures Before(prefix, level, v, i) <= |Listing(prefix, level, v)|
    ensures Listing(prefix, level, v)[Before(prefix, level, v, i)..] == ListListing(prefix, level, v.items[i..])
    decreases i
  {
    if i == 0 {
      assert v.items[0..] == v.items;
    } else {
      ItemsFrom(prefix, level, v, i - 1);
      var rest := ListListing(prefix, level, v.items[i-1..]);
      assert v.items[i-1..][1..] == v.items[i..];
      assert rest == ChildLines(prefix, level, v, i - 1) + ListListing(prefix, level, v.items[i..]);
    }
  }

  lemma Window<T>(s: seq<T>, n: nat, part: seq<T>, rest: seq<T>)
    requires n <= |s| && s[n..] == part + rest
    ensures n + |part| <= |s| && forall x :: n <= x < n + |part| ==> s[x] == part[x-n]
  {
    forall x | n <= x < n + |part| ensures s[x] == part[x-n] {
      assert s[n..][x-n] == s[x];
    }
  }

  /** The listing has the lines of its children one after the other. */
  lemma ChildLinesThere(prefix: Prefix, level: nat, v: Value, i: nat)
    requires i < |Children(v)|
    ensures Before(prefix, level, v, i + 1) <= |Listing(prefix, level, v)|
    ensures var n, part := Before(prefix, level, v, i), ChildLines(prefix, level, v, i);
      Before(prefix, level, v, i + 1) == n + |part| &&
      forall x :: n <= x < n + |part| ==> Listing(prefix, level, v)[x] == part[x-n]
  {
    var n, part := Before(prefix, level, v, i), ChildLines(prefix, level, v, i);
    var rest := RestOfListing(prefix, level, v, i);
    Window(Listing(prefix, level, v), n, part, rest);
  }

  lemma RestOfListing(prefix: Prefix, level: nat, v: Value, i: nat) returns (rest: seq<Line>)
    requires i < |Children(v)|
    ensures Before(prefix, level, v, i) <= |Listing(prefix, level, v)|
    ensures Listing(prefix, level, v)[Before(prefix, level, v, i)..] == ChildLines(prefix, level, v, i) + rest
  {
    if v.Map? {
      EntriesFrom(prefix, level, v, i);
      rest := MapListing(prefix, level, v.entries[i..][1..]);
    } else {
      ItemsFrom(prefix, level, v, i);
      rest := ListListing(prefix, level, v.items[i..][1..]);
    }
  }

  /** A map or list has a header and its listing one level further in; a primitive has one
      line. */
  lemma ChildLinesShape(prefix: Prefix, level: nat, v: Value, i: nat)
    requires i < |Children(v)|
    ensures var u, part := Children(v)[i], ChildLines(prefix, level, v, i);
      if Composite(u) then
        && |part| == 1 + |Listing(prefix, level + 1, u)| && part[1..] == Listing(prefix, level + 1, u)
        && (part[0].head.KeyHeader? || part[0].head.ItemHeader?)
      else part == [Line(prefix, level, if v.Map? then Key(v.entries[i].key) else Item, u)]
  {}

  lemma PrimitiveChild(prefix: Prefix, level: nat, v: Value, i: nat)
    requires i < |Children(v)| && !Composite(Children(v)[i])
    ensures Before(prefix, level, v, i + 1) == Before(prefix, level, v, i) + 1 <= |Listing(prefix, level, v)|
    ensures Listing(prefix, level, v)[Before(prefix, level, v, i)] ==
      Line(prefix, level, if v.Map? then Key(v.entries[i].key) else Item, Children(v)[i])
  {
    ChildLinesShape(prefix, level, v, i);
    ChildLinesThere(prefix, level, v, i);
  }

  lemma NestedLine(prefix: Prefix, level: nat, v: Value, i: nat, y: nat)
    requires i < |Children(v)| && Composite(Children(v)[i]) && y < |Listing(prefix, level + 1, Children(v)[i])|
    ensures Before(prefix, level, v, i) + 1 + y < Before(prefix, level, v, i + 1) <= |Listing(prefix, level, v)|
    ensures Listing(prefix, level, v)[Before(prefix, level, v, i) + 1 + y] ==
      Listing(prefix, level + 1, Children(v)[i])[y]
  {
    var part, inner := ChildLines(prefix, level, v, i), Listing(prefix, level + 1, Children(v)[i]);
    ChildLinesShape(prefix, level, v, i);
    ChildLinesThere(prefix, level, v, i);
    assert part[1..][y] == part[1 + y];
  }

  /** The line is the header of a child, its only line, or one of its listing. */
  lemma LineOfChild(prefix: Prefix, level: nat, v: Value, x: nat) returns (i: nat)
    requires Composite(v) && x < |Listing(prefix, level, v)|
    requires !Listing(prefix, level, v)[x].head.KeyHeader? && !Listing(prefix, level, v)[x].head.ItemHeader?
    ensures i < |Children(v)| && Before(prefix, level, v, i) <= x < Before(prefix, level, v, i + 1)
    ensures if Composite(Children(v)[i]) then
        Before(prefix, level, v, i) < x <= Before(prefix, level, v, i) + |Listing(prefix, level + 1, Children(v)[i])|
      else x == Before(prefix, level, v, i)
  {
    AllLines(prefix, level, v);
    i := ChildOfLine(prefix, level, v, x, |Children(v)|);
    ChildLinesShape(prefix, level, v, i);
    ChildLinesThere(prefix, level, v, i);
    assert Listing(prefix, level, v)[x] == ChildLines(prefix, level, v, i)[x - Before(prefix, level, v, i)];
  }

  lemma AllLines(prefix: Prefix, level: nat, v: Value)
    requires Composite(v)
    ensures Before(prefix, level, v, |Children(v)|) == |Listing(prefix, level, v)|
  {
    if v.Map? {
      EntriesFrom(prefix, level, v, |v.entries|);
    } else {
      ItemsFrom(prefix, level, v, |v.items|);
    }
  }

  /** The number of the line of a primitive. */
  function LineAt(prefix: Prefix, level: nat, v: Value, path: Path): nat
    requires Leads(v, path)
    decreases path
  {
    match path
    case Here => 0
    case Into(i, Here) => Before(prefix, level, v, i)
    case Into(i, rest) => Before(prefix, level, v, i) + 1 + LineAt(prefix, level + 1, Children(v)[i], rest)
  }

  /** Line `x` is the line of the primitive: its key or mark, its depth and its value. */
  predicate ListedAt(lines: seq<Line>, x: nat, prefix: Prefix, level: nat, v: Value, path: Path)
    requires Leads(v, path)
  {
    x < |lines| && lines[x] == Line(prefix, level + DepthOf(path), HeadAt(v, path), LeafAt(v, path))
  }

  /** The line is among those of the child. */
  predicate InChild(prefix: Prefix, level: nat, v: Value, i: nat, x: nat) {
    i < |Children(v)| && Before(prefix, level, v, i) <= x < Before(prefix, level, v, i + 1)
  }

  /** Every primitive has its line. */
  lemma {:induction false} PrimitiveIsListed(prefix: Prefix, level: nat, v: Value, path: Path)
    requires Leads(v, path)
    ensures ListedAt(Listing(prefix, level, v), LineAt(prefix, level, v, path), prefix, level, v, path)
    ensures path.Into? ==> InChild(prefix, level, v, path.i, LineAt(prefix, level, v, path))
    decreases path
  {
    if path.Into? && path.rest.Into? {
      PrimitiveIsListed(prefix, level + 1, Children(v)[path.i], path.rest);
      NestedIsListed(prefix, level, v, path.i, path.rest);
    } else if path.Into? {
      ChildIsListed(prefix, level, v, path.i);
    } else {
      AloneIsListed(prefix, level, v);
    }
  }

  lemma AloneIsListed(prefix: Prefix, level: nat, v: Value)
    requires Leads(v, Here)
    ensures ListedAt(Listing(prefix, level, v), 0, prefix, level, v, Here)
  {}

  lemma ChildIsListed(prefix: Prefix, level: nat, v: Value, i: nat)
    requires Leads(v, Into(i, Here))
    ensures var path, x := Into(i, Here), LineAt(prefix, level, v, Into(i, Here));
      ListedAt(Listing(prefix, level, v), x, prefix, level, v, path) && InChild(prefix, level, v, i, x)
  {
    PrimitiveChild(prefix, level, v, i);
  }

  lemma NestedIsListed(prefix: Prefix, level: nat, v: Value, i: nat, rest: Path)
    requires Leads(v, Into(i, rest)) && rest.Into?
    requires var u := Children(v)[i];
      ListedAt(Listing(prefix, level + 1, u), LineAt(prefix, level + 1, u, rest), prefix, level + 1, u, rest)
    ensures var path, x := Into(i, rest), LineAt(prefix, level, v, Into(i, rest));
      ListedAt(Listing(prefix, level, v), x, prefix, level, v, path) && InChild(prefix, level, v, i, x)
  {
    IntoPath(prefix, level, v, i, rest);
    NestedLine(prefix, level, v, i, LineAt(prefix, level + 1, Children(v)[i], rest));
  }

  lemma IntoPath(prefix: Prefix, level: nat, v: Value, i: nat, rest: Path)
    requires Leads(v, Into(i, rest)) && rest.Into?
    ensures var u, path := Children(v)[i], Into(i, rest);
      && LeafAt(v, path) == LeafAt(u, rest) && HeadAt(v, path) == HeadAt(u, rest)
      && DepthOf(path) == 1 + DepthOf(rest)
      && LineAt(prefix, level, v, path) == Before(prefix, level, v, i) + 1 + LineAt(prefix, level + 1, u, rest)
  {}

  /** Different primitives have different lines. */
  lemma {:induction false} PrimitivesAreApart(prefix: Prefix, level: nat, v: Value, path: Path, path': Path)
    requires Leads(v, path) && Leads(v, path') && LineAt(prefix, level, v, path) == LineAt(prefix, level, v, path')
    ensures path == path'
    decreases path
  {
    if path.Into? && path'.Into? {
      SameChild(prefix, level, v, path, path');
      if path.rest.Into? && path'.rest.Into? {
        PrimitivesAreApart(prefix, level + 1, Children(v)[path.i], path.rest, path'.rest);
      }
    }
  }

  lemma SameChild(prefix: Prefix, level: nat, v: Value, path: Path, path': Path)
    requires Leads(v, path) && Leads(v, path') && LineAt(prefix, level, v, path) == LineAt(prefix, level, v, path')
    requires path.Into? && path'.Into?
    ensures path.i == path'.i
  {
    PrimitiveIsListed(prefix, level, v, path);
    PrimitiveIsListed(prefix, level, v, path');
    BeforeGrows(prefix, level, v, path.i, path'.i);
    BeforeGrows(prefix, level, v, path'.i, path.i);
  }

  lemma {:induction false} BeforeGrows(prefix: Prefix, level: nat, v: Value, i: nat, j: nat)
    requires i <= |Children(v)| && j <= |Children(v)|
    ensures i < j ==> Before(prefix, level, v, i + 1) <= Before(prefix, level, v, j)
    decreases j
  {
    if i + 1 < j {
      BeforeGrows(prefix, level, v, i, j - 1);
    }
  }

  lemma LineInside(prefix: Prefix, level: nat, v: Value, i: nat, inner: Path)
    requires i < |Children(v)| && Composite(Children(v)[i]) && Leads(Children(v)[i], inner)
    ensures Leads(v, Into(i, inner))
    ensures LineAt(prefix, level, v, Into(i, inner)) ==
      Before(prefix, level, v, i) + 1 + LineAt(prefix, level + 1, Children(v)[i], inner)
  {}

  /** And there are no other lines than theirs and the headers of maps and lists. */
  lemma {:induction false} NothingElseIsListed(prefix: Prefix, level: nat, v: Value, x: nat) returns (path: Path)
    requires x < |Listing(prefix, level, v)|
    requires !Listing(prefix, level, v)[x].head.KeyHeader? && !Listing(prefix, level, v)[x].head.ItemHeader?
    ensures Leads(v, path) && LineAt(prefix, level, v, path) == x
    decreases v
  {
    path := Here;
    if Composite(v) {
      var i, y := LineOrigin(prefix, level, v, x);
      if Composite(Children(v)[i]) {
        path := NothingElseIsListed(prefix, level + 1, Children(v)[i], y);
        LineInside(prefix, level, v, i, path);
      }
      path := Into(i, path);
    }
  }

  lemma LineOrigin(prefix: Prefix, level: nat, v: Value, x: nat) returns (i: nat, y: nat)
    requires Composite(v) && x < |Listing(prefix, level, v)|
    requires !Listing(prefix, level, v)[x].head.KeyHeader? && !Listing(prefix, level, v)[x].head.ItemHeader?
    ensures i < |Children(v)|
    ensures if !Composite(Children(v)[i]) then x == Before(prefix, level, v, i) else
        && y < |Listing(prefix, level + 1, Children(v)[i])| && x == Before(prefix, level, v, i) + 1 + y
        && Listing(prefix, level + 1, Children(v)[i])[y] == Listing(prefix, level, v)[x]
  {
    i := LineOfChild(prefix, level, v, x);
    y := 0;
    if Composite(Children(v)[i]) {
      y := x - Before(prefix, level, v, i) - 1;
      NestedLine(prefix, level, v, i, y);
    }
  }

  lemma {:induction false} ChildOfLine(prefix: Prefix, level: nat, v: Value, x: nat, n: nat) returns (i: nat)
    requires n <= |Children(v)| && x < Before(prefix, level, v, n)
    ensures i < n && Before(prefix, level, v, i) <= x < Before(prefix, level, v, i + 1)
    decreases n
  {
    if Before(prefix, level, v, n - 1) <= x {
      i := n - 1;
    } else {
      i := ChildOfLine(prefix, level, v, x, n - 1);
    }
  }
}
