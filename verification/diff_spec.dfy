/** The tree of differences, and what the differ computes as a function of its two
    inputs.  The imperative differ in diff_engine.dfy is proved against `DiffOf`. */
module DiffSpec {
  import opened YamlValue

  datatype Status = Same | Differs | FirstMissing | SecondMissing

  datatype Children =
    | NoChildren
    | ArrayChildren(a: seq<Diff>)
    | MapChildren(m: map<string, Diff>)

  datatype Diff = Diff(a: Value, b: Value, children: Children, status: Status, diffCount: int, treeLevel: nat)

  // ---------- primitives ----------

  /** Length of the longest common prefix. */
  function CommonPrefix(s: string, t: string): (n: nat)
    ensures n <= |s| && n <= |t| && s[..n] == t[..n]
    ensures n < |s| && n < |t| ==> s[n] != t[n]
  {
    if s == [] || t == [] || s[0] != t[0] then 0 else 1 + CommonPrefix(s[1..], t[1..])
  }

  function Max(x: int, y: int): int {
    if x < y then y else x
  }

  /** Size of a difference between two texts: everything after the common prefix, or,
      when the first text is a prefix of the second, `preset` if that is not zero. */
  function TextDistance(s: string, t: string, preset: nat): nat {
    var n := CommonPrefix(s, t);
    if n < |s| then Max(|s|, |t|) - n
    else if preset == 0 then |t| - |s|
    else preset
  }

  function PrimitiveStatus(a: Value, b: Value): Status {
    if a.Null? && b.Null? then Same
    else if a.Missing? then FirstMissing
    else if b.Missing? then SecondMissing
    else if a.Null? || b.Null? then Differs
    else if a == b then Same
    else Differs
  }

  function PrimitiveCount(a: Value, b: Value): nat {
    var s, t := Render(a), Render(b);
    match PrimitiveStatus(a, b)
    case Same => 0
    case FirstMissing => |t|
    case SecondMissing => |s|
    case Differs => TextDistance(s, t, if a.Null? then |t| else if b.Null? then |s| else 0)
  }

  function Primitive(a: Value, b: Value, level: nat): Diff {
    Diff(if a.Missing? then Null else a,
         if b.Missing? && !a.Missing? then Null else b,
         NoChildren, PrimitiveStatus(a, b), PrimitiveCount(a, b), level)
  }

  // ---------- pairing the elements of two lists ----------

  /** `m[i][j]` compares element i of the first list with element j of the second. */
  type Matrix = seq<seq<Diff>>

  predicate Shape(m: Matrix, nb: nat) {
    forall i :: 0 <= i < |m| ==> |m[i]| == nb
  }

  /** One child of a list difference. */
  datatype Slot = Pair(i: nat, j: nat) | OnlyA(i: nat) | OnlyB(j: nat)

  /** The index of the first element that is the same, or the row length. */
  function FirstSame(row: seq<Diff>): (n: nat)
    ensures n <= |row|
    ensures n < |row| ==> row[n].status.Same?
    ensures forall j :: 0 <= j < n ==> !row[j].status.Same?
  {
    if row == [] || row[0].status.Same? then 0 else 1 + FirstSame(row[1..])
  }

  /** The first pass over rows 0..n: each row with its first equal element. */
  function FirstPass(m: Matrix, n: nat): seq<Slot>
    requires n <= |m|
  {
    if n == 0 then []
    else
      var j := FirstSame(m[n-1]);
      FirstPass(m, n - 1) + (if j < |m[n-1]| then [Pair(n - 1, j)] else [])
  }

  /** The elements of the first list that the first pass leaves over. */
  function FreeA(m: Matrix): set<nat> {
    set i: nat | 0 <= i < |m| && FirstSame(m[i]) == |m[i]|
  }

  /** Element j of the second list is some element's first match. */
  predicate Claimed(m: Matrix, j: nat) {
    exists i :: 0 <= i < |m| && FirstSame(m[i]) == j
  }

  /** The elements of the second list that are no element's first match. */
  function FreeB(m: Matrix, nb: nat): set<nat> {
    set j: nat | 0 <= j < nb && !Claimed(m, j)
  }

  function Count(m: Matrix, p: (nat, nat)): int
    requires p.0 < |m| && p.1 < |m[p.0]|
  {
    m[p.0][p.1].diffCount
  }

  predicate LexLess(p: (nat, nat), q: (nat, nat)) {
    p.0 < q.0 || (p.0 == q.0 && p.1 < q.1)
  }

  predicate Within(m: Matrix, nb: nat, fa: set<nat>, fb: set<nat>) {
    && Shape(m, nb)
    && (forall i :: i in fa ==> i < |m|)
    && (forall j :: j in fb ==> j < nb)
  }

  /** p is the lexicographically first among the cheapest pairs still free. */
  predicate IsBest(m: Matrix, nb: nat, fa: set<nat>, fb: set<nat>, p: (nat, nat))
    requires Within(m, nb, fa, fb)
  {
    && p.0 in fa && p.1 in fb
    && forall i, j :: i in fa && j in fb ==>
        Count(m, p) < Count(m, (i, j)) || (Count(m, p) == Count(m, (i, j)) && !LexLess((i, j), p))
  }

  lemma BestExists(m: Matrix, nb: nat, fa: set<nat>, fb: set<nat>)
    requires Within(m, nb, fa, fb) && fa != {} && fb != {}
    ensures exists p :: IsBest(m, nb, fa, fb, p)
  {
    var ps := set i, j | i in fa && j in fb :: (i, j);
    var i0 :| i0 in fa;
    var j0 :| j0 in fb;
    assert (i0, j0) in ps;
    var p := CheapestOf(m, nb, ps);
    forall i, j | i in fa && j in fb
      ensures Count(m, p) < Count(m, (i, j)) || (Count(m, p) == Count(m, (i, j)) && !LexLess((i, j), p))
    {
      assert (i, j) in ps;
    }
    assert IsBest(m, nb, fa, fb, p);
  }

  lemma CheapestOf(m: Matrix, nb: nat, ps: set<(nat, nat)>) returns (p: (nat, nat))
    requires Shape(m, nb) && ps != {}
    requires forall q :: q in ps ==> q.0 < |m| && q.1 < nb
    ensures p in ps
    ensures forall q :: q in ps ==> Count(m, p) < Count(m, q) || (Count(m, p) == Count(m, q) && !LexLess(q, p))
    decreases |ps|
  {
    var first :| first in ps;
    var rest := ps - {first};
    p := first;
    if rest != {} {
      var r := CheapestOf(m, nb, rest);
      if Count(m, r) < Count(m, p) || (Count(m, r) == Count(m, p) && LexLess(r, p)) {
        p := r;
      }
    }
    forall q | q in ps
      ensures Count(m, p) < Count(m, q) || (Count(m, p) == Count(m, q) && !LexLess(q, p))
    {
      assert q == first || q in rest;
    }
  }

  lemma BestUnique(m: Matrix, nb: nat, fa: set<nat>, fb: set<nat>, p: (nat, nat), q: (nat, nat))
    requires Within(m, nb, fa, fb)
    requires IsBest(m, nb, fa, fb, p) && IsBest(m, nb, fa, fb, q)
    ensures p == q
  {
    assert q.0 in fa && q.1 in fb && p.0 in fa && p.1 in fb;
    assert (q.0, q.1) == q && (p.0, p.1) == p;
  }

  ghost function Best(m: Matrix, nb: nat, fa: set<nat>, fb: set<nat>): (p: (nat, nat))
    requires Within(m, nb, fa, fb) && fa != {} && fb != {}
    ensures IsBest(m, nb, fa, fb, p)
  {
    BestExists(m, nb, fa, fb);
    var p :| IsBest(m, nb, fa, fb, p);
    p
  }

  function TailA(fa: set<nat>, from: nat, n: nat): seq<Slot>
    requires from <= n
    decreases n - from
  {
    if from == n then [] else (if from in fa then [OnlyA(from)] else []) + TailA(fa, from + 1, n)
  }

  function TailB(fb: set<nat>, from: nat, n: nat): seq<Slot>
    requires from <= n
    decreases n - from
  {
    if from == n then [] else (if from in fb then [OnlyB(from)] else []) + TailB(fb, from + 1, n)
  }

  /** The pairing loop: the cheapest free pair, again and again, until one list is used
      up; then whatever is left of the other, in order. */
  ghost function Greedy(m: Matrix, nb: nat, fa: set<nat>, fb: set<nat>): seq<Slot>
    requires Within(m, nb, fa, fb)
    decreases |fa|
  {
    if fa == {} then TailB(fb, 0, nb)
    else if fb == {} then TailA(fa, 0, |m|)
    else
      var p := Best(m, nb, fa, fb);
      [Pair(p.0, p.1)] + Greedy(m, nb, fa - {p.0}, fb - {p.1})
  }

  ghost function Slots(m: Matrix, nb: nat): seq<Slot>
    requires Shape(m, nb)
  {
    FirstPass(m, |m|) + Greedy(m, nb, FreeA(m), FreeB(m, nb))
  }

  predicate InRange(m: Matrix, nb: nat, s: Slot)
  {
    match s
    case Pair(i, j) => i < |m| && j < nb
    case OnlyA(i) => i < |m|
    case OnlyB(j) => j < nb
  }

  predicate AllInRange(m: Matrix, nb: nat, ss: seq<Slot>) {
    forall k :: 0 <= k < |ss| ==> InRange(m, nb, ss[k])
  }

  lemma FirstPassInRange(m: Matrix, nb: nat, n: nat)
    requires Shape(m, nb) && n <= |m|
    ensures AllInRange(m, nb, FirstPass(m, n))
  {}

  lemma TailsInRange(m: Matrix, nb: nat, fa: set<nat>, fb: set<nat>, from: nat)
    ensures from <= |m| ==> AllInRange(m, nb, TailA(fa, from, |m|))
    ensures from <= nb ==> AllInRange(m, nb, TailB(fb, from, nb))
    decreases |m| + nb - from
  {
    if from < |m| || from < nb {
      TailsInRange(m, nb, fa, fb, from + 1);
    }
  }

  lemma GreedyInRange(m: Matrix, nb: nat, fa: set<nat>, fb: set<nat>)
    requires Within(m, nb, fa, fb)
    ensures AllInRange(m, nb, Greedy(m, nb, fa, fb))
    decreases |fa|
  {
    if fa == {} || fb == {} {
      TailsInRange(m, nb, fa, fb, 0);
    } else {
      var p := Best(m, nb, fa, fb);
      GreedyInRange(m, nb, fa - {p.0}, fb - {p.1});
    }
  }

  lemma SlotsInRange(m: Matrix, nb: nat)
    requires Shape(m, nb)
    ensures AllInRange(m, nb, Slots(m, nb))
  {
    FirstPassInRange(m, nb, |m|);
    GreedyInRange(m, nb, FreeA(m), FreeB(m, nb));
  }

  /** The difference a slot stands for; a leftover is compared with null. */
  function SlotDiff(m: Matrix, va: seq<Value>, vb: seq<Value>, s: Slot, level: nat): Diff
    requires Shape(m, |vb|) && |m| == |va| && InRange(m, |vb|, s)
  {
    match s
    case Pair(i, j) => m[i][j]
    case OnlyA(i) => Primitive(va[i], Null, level)
    case OnlyB(j) => Primitive(Null, vb[j], level)
  }

  function SlotDiffs(m: Matrix, va: seq<Value>, vb: seq<Value>, ss: seq<Slot>, level: nat): (ds: seq<Diff>)
    requires Shape(m, |vb|) && |m| == |va| && AllInRange(m, |vb|, ss)
    ensures |ds| == |ss|
    ensures forall k :: 0 <= k < |ss| ==> ds[k] == SlotDiff(m, va, vb, ss[k], level)
  {
    seq(|ss|, k requires 0 <= k < |ss| => SlotDiff(m, va, vb, ss[k], level))
  }

  function SumDiffs(ds: seq<Diff>): int {
    if ds == [] then 0 else ds[0].diffCount + SumDiffs(ds[1..])
  }

  ghost function ListDiff(m: Matrix, va: seq<Value>, vb: seq<Value>, level: nat): Diff
    requires Shape(m, |vb|) && |m| == |va|
  {
    SlotsInRange(m, |vb|);
    var ds := SlotDiffs(m, va, vb, Slots(m, |vb|), level + 1);
    if FreeA(m) == {} && FreeB(m, |vb|) == {} then
      Diff(List(va), List(vb), ArrayChildren(ds), Same, 0, level)
    else
      Diff(List(va), List(vb), ArrayChildren(ds), Differs, SumDiffs(ds), level)
  }

  // ---------- maps ----------

  /** The sum over the children of a map, in whatever order they are visited. */
  ghost function Total(m: map<string, Diff>): int
    decreases |m|
  {
    if m.Keys == {} then 0
    else
      var k :| k in m.Keys;
      assert |m - {k}| < |m| by { assert (m - {k}).Keys == m.Keys - {k}; }
      m[k].diffCount + Total(m - {k})
  }

  predicate AllSame(m: map<string, Diff>) {
    forall k :: k in m ==> m[k].status.Same?
  }

  ghost function MapDiff(m: map<string, Diff>, a: Value, b: Value, level: nat): Diff {
    Diff(a, b, MapChildren(m), if AllSame(m) then Same else Differs, Total(m), level)
  }

  // ---------- the differ ----------

  predicate Bare(v: Value) {
    v.Null? || v.Missing?
  }

  ghost function DiffOf(a: Value, b: Value, level: nat): (d: Diff)
    decreases a
  {
    if Bare(a) || Bare(b) then Primitive(a, b, level)
    else if a.Map? && b.Map? then
      MapDiff(MapDiffs(a, b, level + 1), a, b, level)
    else if a.List? && b.List? then
      ListDiff(Pairwise(a, b, level + 1), a.items, b.items, level)
    else if Composite(a) || Composite(b) then
      Diff(a, b, NoChildren, Differs, PrimitiveCount(a, b), level)
    else Primitive(a, b, level)
  }

  ghost function MapDiffs(a: Value, b: Value, level: nat): (m: map<string, Diff>)
    requires a.Map? && b.Map?
    decreases a, 0
  {
    map k | k in Keys(a.entries) + Keys(b.entries) :: KeyDiff(a, b, k, level)
  }

  /** The child stored under key `k`. */
  ghost function KeyDiff(a: Value, b: Value, k: string, level: nat): Diff
    requires a.Map? && b.Map?
    decreases a, 0, 0
  {
    var i, j := KeyIndex(a.entries, k), KeyIndex(b.entries, k);
    if i < |a.entries| && j < |b.entries| then
      DiffOf(a.entries[i].value, b.entries[j].value, level)
    else
      Primitive(Get(a.entries, k), Get(b.entries, k), level)
  }

  ghost function Pairwise(a: Value, b: Value, level: nat): (m: Matrix)
    requires a.List? && b.List?
    ensures |m| == |a.items| && Shape(m, |b.items|)
    decreases a, 0
  {
    seq(|a.items|, i requires 0 <= i < |a.items| =>
      seq(|b.items|, j requires 0 <= j < |b.items| => DiffOf(a.items[i], b.items[j], level)))
  }
}
