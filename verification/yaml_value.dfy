/** The values the differ compares: what the YAML decoder hands to pkg/yamldiff,
    plus the `missingKey` marker, and the text `fmt.Sprint` makes of them. */
module YamlValue {

  /** The dynamic Go type of a scalar.  Two scalars are equal in Go exactly when the
      type and the value agree; within one type the printed text determines the value
      (NaN and negative zero are not part of the model). */
  datatype ScalarKind = IntKind | UintKind | FloatKind | BoolKind | StringKind

  datatype Value =
    | Null
    | Missing
    | Scalar(kind: ScalarKind, text: string)
    | Map(entries: seq<Entry>)
    | List(items: seq<Value>)

  datatype Entry = Entry(key: string, value: Value)

  predicate Composite(v: Value) {
    v.Map? || v.List?
  }

  /** The index of the first entry with key `k`, or the number of entries. */
  function KeyIndex(es: seq<Entry>, k: string): (n: nat)
    ensures n <= |es|
    ensures n < |es| ==> es[n].key == k
    ensures forall i :: 0 <= i < n ==> es[i].key != k
  {
    if es == [] then 0
    else if es[0].key == k then 0
    else 1 + KeyIndex(es[1..], k)
  }

  function Keys(es: seq<Entry>): set<string> {
    set i | 0 <= i < |es| :: es[i].key
  }

  lemma KeyIndexFinds(es: seq<Entry>, k: string)
    ensures k in Keys(es) <==> KeyIndex(es, k) < |es|
  {
    var n := KeyIndex(es, k);
    if n < |es| {
      assert es[n].key == k;
    }
  }

  /** What looking the key up gives: the value, or the missing-key marker. */
  function Get(es: seq<Entry>, k: string): Value {
    var n := KeyIndex(es, k);
    if n < |es| then es[n].value else Missing
  }

  predicate DistinctKeys(es: seq<Entry>) {
    forall i, j :: 0 <= i < j < |es| ==> es[i].key != es[j].key
  }

  lemma DistinctKeyIndex(es: seq<Entry>, i: nat)
    requires DistinctKeys(es) && i < |es|
    ensures KeyIndex(es, es[i].key) == i
  {
    var n := KeyIndex(es, es[i].key);
    assert !(i < n);
  }

  /** What the decoder produces: no missing-key marker, no key twice in a map. */
  predicate Decoded(v: Value) {
    match v
    case Missing => false
    case Map(es) => DistinctKeys(es) && forall i :: 0 <= i < |es| ==> Decoded(es[i].value)
    case List(vs) => forall i :: 0 <= i < |vs| ==> Decoded(vs[i])
    case _ => true
  }

  // ---------- printed text and its length ----------

  function Render(v: Value): string
    decreases v, 0
  {
    match v
    case Null => "<nil>"
    case Missing => "{}"
    case Scalar(_, text) => text
    case Map(es) => "[" + RenderEntries(es) + "]"
    case List(vs) => "[" + RenderItems(vs) + "]"
  }

  function RenderItems(vs: seq<Value>): string
    decreases vs, 1
  {
    if vs == [] then ""
    else Render(vs[0]) + (if |vs| == 1 then "" else " ") + RenderItems(vs[1..])
  }

  function RenderEntries(es: seq<Entry>): string
    decreases es, 1
  {
    if es == [] then ""
    else
      "{" + es[0].key + " " + Render(es[0].value) + "}" +
      (if |es| == 1 then "" else " ") + RenderEntries(es[1..])
  }

  /** A size that is linear in the document: its text plus a few characters a node. */
  function Weight(v: Value): nat
    decreases v, 0
  {
    match v
    case Null => 5
    case Missing => 2
    case Scalar(_, text) => |text|
    case Map(es) => 2 + EntriesWeight(es)
    case List(vs) => 2 + ItemsWeight(vs)
  }

  function ItemsWeight(vs: seq<Value>): nat
    decreases vs, 1
  {
    if vs == [] then 0 else Weight(vs[0]) + 6 + ItemsWeight(vs[1..])
  }

  function EntriesWeight(es: seq<Entry>): nat
    decreases es, 1
  {
    if es == [] then 0 else |es[0].key| + Weight(es[0].value) + 4 + EntriesWeight(es[1..])
  }

  lemma {:induction false} RenderWithinWeight(v: Value)
    ensures |Render(v)| <= Weight(v)
    decreases v, 0
  {
    match v
    case Map(es) => RenderEntriesWithinWeight(es);
    case List(vs) => RenderItemsWithinWeight(vs);
    case _ =>
  }

  lemma {:induction false} RenderItemsWithinWeight(vs: seq<Value>)
    ensures |RenderItems(vs)| <= ItemsWeight(vs)
    decreases vs, 1
  {
    if vs != [] {
      RenderWithinWeight(vs[0]);
      RenderItemsWithinWeight(vs[1..]);
    }
  }

  lemma {:induction false} RenderEntriesWithinWeight(es: seq<Entry>)
    ensures |RenderEntries(es)| <= EntriesWeight(es)
    decreases es, 1
  {
    if es != [] {
      RenderWithinWeight(es[0].value);
      RenderEntriesWithinWeight(es[1..]);
    }
  }
}
