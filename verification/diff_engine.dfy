/** The differ as pkg/yamldiff/diff.go runs it: loops over entries and elements, found
    sets that grow, and a pairing loop that ends by itself. */
module Differ {
  import opened Options
  import opened YamlValue
  import opened DiffSpec
  import opened DiffCounts
  import opened DiffMatching

  /** math.MaxInt on a 64-bit machine. */
  const MAX_INT := 0x7fff_ffff_ffff_ffff

  /** A decoded document, or the marker for a key that is not there. */
  predicate Input(v: Value) {
    v.Missing? || Decoded(v)
  }

  /** The sizes stay below the sentinel.  `Weight` is linear in the text of the document. */
  predicate Fits(a: Value, b: Value) {
    Weight(a) + Weight(b) < MAX_INT
  }

  function Rank(v: Value): nat {
    if Composite(v) then 1 else 0
  }

  method PerformDiff(a: Value, b: Value, level: nat) returns (d: Diff)
    requires Input(a) && Input(b) && Fits(a, b)
    ensures d == DiffOf(a, b, level)
    decreases Rank(a), a, 4
  {
    if a.Null? || b.Null? || a.Missing? || b.Missing? {
      d := HandlePrimitive(a, b, level);
      return;
    }
    var byMap := HandleMap(a, b, level);
    if byMap.Some? {
      return byMap.value;
    }
    var byArray := HandleArray(a, b, level);
    if byArray.Some? {
      return byArray.value;
    }
    d := HandlePrimitive(a, b, level);
  }

  method HandlePrimitive(a: Value, b: Value, level: nat) returns (d: Diff)
    ensures d == Primitive(a, b, level)
  {
    var strA, strB := Render(a), Render(b);
    var status: Status;
    var diffCount := 0;
    var keptA, keptB := a, b;
    if a == Null && b == Null {
      status := Same;
    } else if a == Missing {
      keptA := Null;
      status := FirstMissing;
      diffCount := |strB|;
    } else if b == Missing {
      keptB := Null;
      status := SecondMissing;
      diffCount := |strA|;
    } else if a == Null {
      status := Differs;
      diffCount := |strB|;
    } else if b == Null {
      status := Differs;
      diffCount := |strA|;
    } else if a == b {
      status := Same;
    } else {
      status := Differs;
    }
    if status == Differs {
      diffCount := DifferingLength(strA, strB, diffCount);
    }
    d := Diff(keptA, keptB, NoChildren, status, diffCount, level);
  }

  /** Where the texts part, and how much is left from there. */
  method DifferingLength(strA: string, strB: string, preset: nat) returns (diffCount: nat)
    ensures diffCount == TextDistance(strA, strB, preset)
  {
    diffCount := preset;
    var maxLen := |strA|;
    if maxLen < |strB| {
      maxLen := |strB|;
    }
    ghost var n := CommonPrefix(strA, strB);
    assert strA[..n] == strB[..n];
    for i := 0 to |strA|
      invariant i <= n && diffCount == preset
    {
      assert i < n ==> strA[..n][i] == strB[..n][i];
      if |strB| <= i {
        diffCount := maxLen - i;
        break;
      }
      if strA[i] != strB[i] {
        diffCount := maxLen - i;
        break;
      }
    }
    if diffCount == 0 {
      diffCount := maxLen - |strA|;
    }
  }

  // ---------- maps ----------

  lemma KeysGrow(es: seq<Entry>, i: nat)
    requires i < |es|
    ensures Keys(es[..i+1]) == Keys(es[..i]) + {es[i].key}
  {
    forall k | k in Keys(es[..i]) + {es[i].key} ensures k in Keys(es[..i+1]) {
      if k == es[i].key {
        assert es[..i+1][i].key == k;
      } else {
        var x :| 0 <= x < i && es[..i][x].key == k;
        assert es[..i+1][x].key == k;
      }
    }
  }

  lemma EntryWeight(es: seq<Entry>, i: nat)
    requires i < |es|
    ensures Weight(es[i].value) + 4 <= EntriesWeight(es)
  {
    if i > 0 {
      EntryWeight(es[1..], i - 1);
    }
  }

  lemma ItemWeight(vs: seq<Value>, i: nat)
    requires i < |vs|
    ensures Weight(vs[i]) + 6 <= ItemsWeight(vs)
  {
    if i > 0 {
      ItemWeight(vs[1..], i - 1);
    }
  }

  /** The search for an entry with the same key. */
  method FindKey(es: seq<Entry>, k: string) returns (n: nat)
    ensures n == KeyIndex(es, k)
  {
    for j := 0 to |es|
      invariant forall y :: 0 <= y < j ==> es[y].key != k
    {
      if es[j].key == k {
        return j;
      }
    }
    return |es|;
  }

  /** Every child stored so far is the one `KeyDiff` describes. */
  ghost predicate ChildrenRight(children: map<string, Diff>, a: Value, b: Value, level: nat)
    requires a.Map? && b.Map?
  {
    forall k :: k in children ==> children[k] == KeyDiff(a, b, k, level)
  }

  lemma FreshKey(es: seq<Entry>, i: nat)
    requires DistinctKeys(es) && i < |es|
    ensures es[i].key !in Keys(es[..i])
    ensures KeyIndex(es, es[i].key) == i
  {
    DistinctKeyIndex(es, i);
    forall x: nat | x < i ensures es[..i][x].key != es[i].key {}
  }

  method HandleMap(a: Value, b: Value, level: nat) returns (d: Option<Diff>)
    requires Decoded(a) && Decoded(b) && Fits(a, b) && !Bare(a) && !Bare(b)
    ensures d.None? <==> !a.Map? && !b.Map?
    ensures d.Some? ==> d.value == DiffOf(a, b, level)
    decreases Rank(a), a, 2
  {
    if !a.Map? && !b.Map? {
      return None;
    }
    if !a.Map? || !b.Map? {
      var p := HandlePrimitive(a, b, level);
      return Some(Diff(a, b, NoChildren, Differs, p.diffCount, level));
    }
    var children, same := ChildrenOfA(a, b, level);
    children, same := ChildrenOnlyB(a, b, level, children, same);
    assert children == MapDiffs(a, b, level + 1);
    var sum := SumOfChildren(children);
    d := Some(Diff(a, b, MapChildren(children), if same then Same else Differs, sum, level));
  }

  /** The child for entry i of the first map: its partner is the first entry of the second
      map with the same key, or the marker for a missing key. */
  method ChildOfA(a: Value, b: Value, i: nat, level: nat) returns (child: Diff)
    requires a.Map? && b.Map? && Decoded(a) && Decoded(b) && Fits(a, b) && i < |a.entries|
    ensures child == KeyDiff(a, b, a.entries[i].key, level + 1)
    decreases Rank(a), a, 0
  {
    var mapA, mapB := a.entries, b.entries;
    FreshKey(mapA, i);
    EntryWeight(mapA, i);
    var j := FindKey(mapB, mapA[i].key);
    if j < |mapB| {
      EntryWeight(mapB, j);
      child := PerformDiff(mapA[i].value, mapB[j].value, level + 1);
    } else {
      child := PerformDiff(mapA[i].value, Missing, level + 1);
    }
  }

  method ChildOnlyB(a: Value, b: Value, j: nat, level: nat) returns (child: Diff)
    requires a.Map? && b.Map? && Decoded(a) && Decoded(b) && Fits(a, b) && j < |b.entries|
    requires KeyIndex(a.entries, b.entries[j].key) == |a.entries|
    ensures child == KeyDiff(a, b, b.entries[j].key, level + 1)
    decreases Rank(a), a, 0
  {
    FreshKey(b.entries, j);
    EntryWeight(b.entries, j);
    child := PerformDiff(Missing, b.entries[j].value, level + 1);
  }

  /** One child for every entry of the first map. */
  method ChildrenOfA(a: Value, b: Value, level: nat) returns (children: map<string, Diff>, same: bool)
    requires a.Map? && b.Map? && Decoded(a) && Decoded(b) && Fits(a, b)
    ensures children.Keys == Keys(a.entries)
    ensures ChildrenRight(children, a, b, level + 1)
    ensures same == AllSame(children)
    decreases Rank(a), a, 1
  {
    var mapA, mapB := a.entries, b.entries;
    children, same := map[], true;
    for i := 0 to |mapA|
      invariant children.Keys == Keys(mapA[..i])
      invariant ChildrenRight(children, a, b, level + 1)
      invariant same == AllSame(children)
    {
      var keyA := mapA[i].key;
      KeysGrow(mapA, i);
      FreshKey(mapA, i);
      var child := ChildOfA(a, b, i, level);
      AddChild(children, keyA, child, a, b, level + 1);
      children := children[keyA := child];
      if child.status != Same {
        same := false;
      }
    }
    assert mapA[..|mapA|] == mapA;
  }

  lemma AddChild(children: map<string, Diff>, k: string, child: Diff, a: Value, b: Value, level: nat)
    requires a.Map? && b.Map? && ChildrenRight(children, a, b, level) && child == KeyDiff(a, b, k, level)
    requires k !in children
    ensures children[k := child].Keys == children.Keys + {k}
    ensures ChildrenRight(children[k := child], a, b, level)
    ensures AllSame(children[k := child]) <==> AllSame(children) && child.status.Same?
  {
    var m := children[k := child];
    if AllSame(m) {
      assert m[k].status.Same?;
      forall x | x in children ensures children[x].status.Same? {
        assert m[x].status.Same?;
      }
    }
  }

  lemma KeysOfBoth(mapA: seq<Entry>, mapB: seq<Entry>, j: nat)
    requires DistinctKeys(mapB) && j < |mapB|
    ensures var k := mapB[j].key;
      && Keys(mapA) + Keys(mapB[..j+1]) == Keys(mapA) + Keys(mapB[..j]) + {k}
      && if KeyIndex(mapA, k) == |mapA| then k !in Keys(mapA) + Keys(mapB[..j])
         else Keys(mapA) + Keys(mapB[..j+1]) == Keys(mapA) + Keys(mapB[..j])
  {
    KeysGrow(mapB, j);
    FreshKey(mapB, j);
    KeyIndexFinds(mapA, mapB[j].key);
  }

  /** And one for every entry of the second map whose key the first does not have. */
  method ChildrenOnlyB(a: Value, b: Value, level: nat, soFar: map<string, Diff>, sameSoFar: bool)
    returns (children: map<string, Diff>, same: bool)
    requires a.Map? && b.Map? && Decoded(a) && Decoded(b) && Fits(a, b)
    requires soFar.Keys == Keys(a.entries) && ChildrenRight(soFar, a, b, level + 1) && sameSoFar == AllSame(soFar)
    ensures children.Keys == Keys(a.entries) + Keys(b.entries)
    ensures ChildrenRight(children, a, b, level + 1)
    ensures same == AllSame(children)
    decreases Rank(a), a, 1
  {
    var mapA, mapB := a.entries, b.entries;
    children, same := soFar, sameSoFar;
    for j := 0 to |mapB|
      invariant children.Keys == Keys(mapA) + Keys(mapB[..j])
      invariant ChildrenRight(children, a, b, level + 1)
      invariant same == AllSame(children)
    {
      var keyB := mapB[j].key;
      KeysOfBoth(mapA, mapB, j);
      var i := FindKey(mapA, keyB);
      if i == |mapA| {
        var child := ChildOnlyB(a, b, j, level);
        AddChild(children, keyB, child, a, b, level + 1);
        children := children[keyB := child];
        if child.status != Same {
          same := false;
        }
      }
    }
    assert mapB[..|mapB|] == mapB;
  }

  /** Adds the children up in an arbitrary order, as ranging over a Go map does. */
  method SumOfChildren(children: map<string, Diff>) returns (sum: int)
    ensures sum == Total(children)
  {
    sum := 0;
    var left := children;
    while left.Keys != {}
      invariant sum + Total(left) == Total(children)
      decreases |left|
    {
      var k :| k in left.Keys;
      TotalWithout(left, k);
      assert (left - {k}).Keys == left.Keys - {k};
      sum := sum + left[k].diffCount;
      left := left - {k};
    }
  }

  // ---------- lists ----------

  function Indices(n: nat): (r: set<nat>)
    ensures forall x: nat :: x in r <==> x < n
    ensures |r| == n
  {
    if n == 0 then {} else Indices(n - 1) + {n - 1}
  }

  /** Marking one more index as found takes it out of what is free. */
  lemma MarkFound(found: set<nat>, n: nat, k: nat)
    requires found <= Indices(n) && k in Indices(n) - found
    ensures found + {k} <= Indices(n)
    ensures Indices(n) - (found + {k}) == Indices(n) - found - {k}
    ensures |Indices(n) - found - {k}| < |Indices(n) - found|
  {}

  /** `len(found) == n` says that everything has been found. */
  lemma AllFound(found: set<nat>, n: nat)
    requires found <= Indices(n)
    ensures |found| == n <==> Indices(n) - found == {}
    ensures |Indices(n) - found| == n - |found|
  {
    assert Indices(n) == found + (Indices(n) - found);
  }

  function FoundA(m: Matrix, n: nat): set<nat>
    requires n <= |m|
  {
    set x: nat | x < n && FirstSame(m[x]) < |m[x]|
  }

  predicate ClaimedBefore(m: Matrix, n: nat, j: nat)
    requires n <= |m|
  {
    exists x :: 0 <= x < n && FirstSame(m[x]) == j
  }

  function FoundB(m: Matrix, nb: nat, n: nat): set<nat>
    requires n <= |m|
  {
    set j: nat | j < nb && ClaimedBefore(m, n, j)
  }

  lemma FoundGrow(m: Matrix, nb: nat, n: nat)
    requires Shape(m, nb) && n < |m|
    ensures var j := FirstSame(m[n]);
      if j < nb then FoundA(m, n + 1) == FoundA(m, n) + {n} && FoundB(m, nb, n + 1) == FoundB(m, nb, n) + {j}
      else FoundA(m, n + 1) == FoundA(m, n) && FoundB(m, nb, n + 1) == FoundB(m, nb, n)
  {
    forall y: nat ensures ClaimedBefore(m, n + 1, y) <==> ClaimedBefore(m, n, y) || y == FirstSame(m[n]) {
      if ClaimedBefore(m, n, y) {
        var x :| 0 <= x < n && FirstSame(m[x]) == y;
      }
      if y == FirstSame(m[n]) {
        assert n < n + 1;
      }
    }
  }

  lemma FoundAndFree(m: Matrix, nb: nat)
    requires Shape(m, nb)
    ensures FoundA(m, |m|) <= Indices(|m|) && FoundB(m, nb, |m|) <= Indices(nb)
    ensures Indices(|m|) - FoundA(m, |m|) == FreeA(m)
    ensures Indices(nb) - FoundB(m, nb, |m|) == FreeB(m, nb)
  {
    forall j: nat ensures ClaimedBefore(m, |m|, j) <==> Claimed(m, j) {}
  }

  /** Everything the cache holds is right, and it holds the rows of all free elements. */
  ghost predicate Cached(diffs: map<(nat, nat), Diff>, m: Matrix, nb: nat, n: nat)
    requires Shape(m, nb) && n <= |m|
  {
    && (forall p :: p in diffs ==> p.0 < |m| && p.1 < nb && diffs[p] == m[p.0][p.1])
    && (forall x: nat, y: nat :: x < n && y < nb && FirstSame(m[x]) == nb ==> (x, y) in diffs)
  }

  method HandleArray(a: Value, b: Value, level: nat) returns (d: Option<Diff>)
    requires Decoded(a) && Decoded(b) && Fits(a, b) && !Bare(a) && !Bare(b) && !a.Map? && !b.Map?
    ensures d.None? <==> !a.List? && !b.List?
    ensures d.Some? ==> d.value == DiffOf(a, b, level)
    decreases Rank(a), a, 3
  {
    if !a.List? && !b.List? {
      return None;
    }
    if !a.List? || !b.List? {
      var p := HandlePrimitive(a, b, level);
      return Some(Diff(a, b, NoChildren, Differs, p.diffCount, level));
    }
    var arrayA, arrayB := a.items, b.items;
    ghost var m: seq<seq<Diff>> := Pairwise(a, b, level + 1);
    var diffs, children, foundA, foundB := FirstMatches(a, b, level);
    FoundAndFree(m, |arrayB|);
    AllFound(foundA, |arrayA|);
    AllFound(foundB, |arrayB|);
    if |foundA| == |arrayA| && |foundB| == |arrayB| {
      NoTail(FreeB(m, |arrayB|), 0, |arrayB|);
      assert Slots(m, |arrayB|) == FirstPass(m, |m|);
      return Some(Diff(a, b, ArrayChildren(children), Same, 0, level));
    }
    CellsBelowSentinel(a, b, m, level);
    children := PairLeftovers(arrayA, arrayB, diffs, children, foundA, foundB, m, level + 1);
    var sum := SumOfList(children);
    d := Some(Diff(a, b, ArrayChildren(children), Differs, sum, level));
  }

  /** Where the pairing loop stands: `children` are the slots done, and pairing what is
      still free would complete them to `all`. */
  ghost predicate OnTrack(m: Matrix, va: seq<Value>, vb: seq<Value>, level: nat, all: seq<Slot>,
                          children: seq<Diff>, done: seq<Slot>, fa: set<nat>, fb: set<nat>)
    requires |m| == |va| && Shape(m, |vb|)
  {
    && Within(m, |vb|, fa, fb)
    && AllInRange(m, |vb|, done)
    && children == SlotDiffs(m, va, vb, done, level)
    && done + Greedy(m, |vb|, fa, fb) == all
  }

  lemma StillOnTrack(m: Matrix, va: seq<Value>, vb: seq<Value>, level: nat, all: seq<Slot>,
                     children: seq<Diff>, done: seq<Slot>, fa: set<nat>, fb: set<nat>, p: (nat, nat))
    requires |m| == |va| && Shape(m, |vb|)
    requires OnTrack(m, va, vb, level, all, children, done, fa, fb) && IsBest(m, |vb|, fa, fb, p)
    ensures OnTrack(m, va, vb, level, all, children + [m[p.0][p.1]], done + [Pair(p.0, p.1)], fa - {p.0}, fb - {p.1})
  {
    BestUnique(m, |vb|, fa, fb, p, Best(m, |vb|, fa, fb));
    var rest := Greedy(m, |vb|, fa - {p.0}, fb - {p.1});
    assert Greedy(m, |vb|, fa, fb) == [Pair(p.0, p.1)] + rest;
    assert done + ([Pair(p.0, p.1)] + rest) == (done + [Pair(p.0, p.1)]) + rest;
    SlotDiffsOfConcat(m, va, vb, done, [Pair(p.0, p.1)], level);
    assert SlotDiffs(m, va, vb, [Pair(p.0, p.1)], level) == [m[p.0][p.1]];
  }

  lemma TailCompletes(m: Matrix, va: seq<Value>, vb: seq<Value>, level: nat, all: seq<Slot>,
                      children: seq<Diff>, done: seq<Slot>, fa: set<nat>, fb: set<nat>)
    requires |m| == |va| && Shape(m, |vb|) && (fa == {} || fb == {})
    requires OnTrack(m, va, vb, level, all, children, done, fa, fb)
    ensures AllInRange(m, |vb|, all)
    ensures SlotDiffs(m, va, vb, all, level) ==
      children + if fa == {} then LeftB(vb, fb, 0, level) else LeftA(va, fa, 0, level)
  {
    LeftAIsTail(m, va, vb, fa, 0, level);
    LeftBIsTail(m, va, vb, fb, 0, level);
    SlotDiffsOfConcat(m, va, vb, done, Greedy(m, |vb|, fa, fb), level);
  }

  /** The loop without a condition: it ends because every round finds a free pair. */
  method PairLeftovers(arrayA: seq<Value>, arrayB: seq<Value>, diffs: map<(nat, nat), Diff>, firstPass: seq<Diff>,
                       firstA: set<nat>, firstB: set<nat>, ghost m: Matrix, level: nat)
    returns (children: seq<Diff>)
    requires |m| == |arrayA| && Shape(m, |arrayB|) && Cached(diffs, m, |arrayB|, |m|)
    requires firstA == FoundA(m, |m|) && firstB == FoundB(m, |arrayB|, |m|)
    requires AllInRange(m, |arrayB|, FirstPass(m, |m|))
    requires firstPass == SlotDiffs(m, arrayA, arrayB, FirstPass(m, |m|), level)
    requires forall i: nat, j: nat :: i < |m| && j < |arrayB| ==> m[i][j].diffCount < MAX_INT
    ensures AllInRange(m, |arrayB|, Slots(m, |arrayB|))
    ensures children == SlotDiffs(m, arrayA, arrayB, Slots(m, |arrayB|), level)
  {
    var foundA, foundB := firstA, firstB;
    children := firstPass;
    FoundAndFree(m, |arrayB|);
    ghost var fa, fb, done := FreeA(m), FreeB(m, |arrayB|), FirstPass(m, |m|);
    ghost var all := Slots(m, |arrayB|);
    while true
      invariant foundA <= Indices(|arrayA|) && fa == Indices(|arrayA|) - foundA
      invariant foundB <= Indices(|arrayB|) && fb == Indices(|arrayB|) - foundB
      invariant fa <= FreeA(m)
      invariant OnTrack(m, arrayA, arrayB, level, all, children, done, fa, fb)
      decreases |fa|
    {
      AllFound(foundA, |arrayA|);
      AllFound(foundB, |arrayB|);
      if |foundA| == |arrayA| {
        TailCompletes(m, arrayA, arrayB, level, all, children, done, fa, fb);
        var tail := LeftoverB(arrayB, foundB, level);
        children := children + tail;
        break;
      }
      if |foundB| == |arrayB| {
        TailCompletes(m, arrayA, arrayB, level, all, children, done, fa, fb);
        var tail := LeftoverA(arrayA, foundA, level);
        children := children + tail;
        break;
      }
      var smallest, keyA, keyB := SmallestFree(diffs, |arrayA|, |arrayB|, foundA, foundB, m);
      StillOnTrack(m, arrayA, arrayB, level, all, children, done, fa, fb, (keyA, keyB));
      MarkFound(foundA, |arrayA|, keyA);
      MarkFound(foundB, |arrayB|, keyB);
      children := children + [smallest];
      foundA := foundA + {keyA};
      foundB := foundB + {keyB};
      done, fa, fb := done + [Pair(keyA, keyB)], fa - {keyA}, fb - {keyB};
    }
  }

  method SumOfList(ds: seq<Diff>) returns (sum: int)
    ensures sum == SumDiffs(ds)
  {
    sum := 0;
    for k := 0 to |ds|
      invariant sum + SumDiffs(ds[k..]) == SumDiffs(ds)
    {
      assert ds[k..][1..] == ds[k+1..];
      sum := sum + ds[k].diffCount;
    }
  }

  lemma CellsBelowSentinel(a: Value, b: Value, m: Matrix, level: nat)
    requires a.List? && b.List? && Fits(a, b) && m == Pairwise(a, b, level + 1)
    ensures forall i: nat, j: nat :: i < |m| && j < |b.items| ==> m[i][j].diffCount < MAX_INT
  {
    forall i: nat, j: nat | i < |m| && j < |b.items| ensures m[i][j].diffCount < MAX_INT {
      CountBound(a.items[i], b.items[j], level + 1);
      ItemWeight(a.items, i);
      ItemWeight(b.items, j);
    }
  }

  /** The first pass: every element with its first equal partner. */
  method FirstMatches(a: Value, b: Value, level: nat)
    returns (diffs: map<(nat, nat), Diff>, children: seq<Diff>, foundA: set<nat>, foundB: set<nat>)
    requires a.List? && b.List? && Decoded(a) && Decoded(b) && Fits(a, b)
    ensures var m := Pairwise(a, b, level + 1); var nb := |b.items|;
      && Cached(diffs, m, nb, |m|)
      && AllInRange(m, nb, FirstPass(m, |m|))
      && children == SlotDiffs(m, a.items, b.items, FirstPass(m, |m|), level + 1)
      && foundA == FoundA(m, |m|) && foundB == FoundB(m, nb, |m|)
    decreases Rank(a), a, 2
  {
    var arrayA, arrayB := a.items, b.items;
    ghost var m: seq<seq<Diff>>, nb := Pairwise(a, b, level + 1), |b.items|;
    diffs, children, foundA, foundB := map[], [], {}, {};
    for i := 0 to |arrayA|
      invariant Cached(diffs, m, nb, i)
      invariant AllInRange(m, nb, FirstPass(m, i))
      invariant children == SlotDiffs(m, arrayA, arrayB, FirstPass(m, i), level + 1)
      invariant foundA == FoundA(m, i) && foundB == FoundB(m, nb, i)
    {
      var j;
      diffs, j := MatchRow(a, b, i, diffs, level);
      FoundGrow(m, nb, i);
      FirstPassStep(m, arrayA, arrayB, i, level + 1);
      if j < |arrayB| {
        children := children + [diffs[(i, j)]];
        foundA := foundA + {i};
        foundB := foundB + {j};
      }
    }
  }

  lemma FirstPassStep(m: Matrix, va: seq<Value>, vb: seq<Value>, i: nat, level: nat)
    requires |m| == |va| && Shape(m, |vb|) && i < |m| && AllInRange(m, |vb|, FirstPass(m, i))
    ensures AllInRange(m, |vb|, FirstPass(m, i + 1))
    ensures var j := FirstSame(m[i]);
      SlotDiffs(m, va, vb, FirstPass(m, i + 1), level) ==
      SlotDiffs(m, va, vb, FirstPass(m, i), level) + if j < |vb| then [m[i][j]] else []
  {
    var j := FirstSame(m[i]);
    if j < |vb| {
      SlotDiffsOfConcat(m, va, vb, FirstPass(m, i), [Pair(i, j)], level);
      assert SlotDiffs(m, va, vb, [Pair(i, j)], level) == [m[i][j]];
    } else {
      assert FirstPass(m, i + 1) == FirstPass(m, i);
    }
  }

  method Compare(a: Value, b: Value, i: nat, j: nat, level: nat) returns (child: Diff)
    requires a.List? && b.List? && Decoded(a) && Decoded(b) && Fits(a, b) && i < |a.items| && j < |b.items|
    ensures child == Pairwise(a, b, level + 1)[i][j]
    decreases Rank(a), a, 0
  {
    ItemWeight(a.items, i);
    ItemWeight(b.items, j);
    child := PerformDiff(a.items[i], b.items[j], level + 1);
  }

  lemma FirstSameIs(row: seq<Diff>, j: nat)
    requires j <= |row| && (forall y: nat :: y < j ==> !row[y].status.Same?) && (j < |row| ==> row[j].status.Same?)
    ensures FirstSame(row) == j
  {}

  lemma StillCached(diffs: map<(nat, nat), Diff>, m: Matrix, nb: nat, n: nat, i: nat, j: nat)
    requires Shape(m, nb) && n <= |m| && Cached(diffs, m, nb, n) && i < |m| && j < nb
    ensures Cached(diffs[(i, j) := m[i][j]], m, nb, n)
  {}

  lemma RowCached(diffs: map<(nat, nat), Diff>, m: Matrix, nb: nat, i: nat)
    requires Shape(m, nb) && i < |m| && Cached(diffs, m, nb, i)
    requires FirstSame(m[i]) == nb ==> forall y: nat :: y < nb ==> (i, y) in diffs
    ensures Cached(diffs, m, nb, i + 1)
  {}

  /** One row of the first pass: compare until something is the same. */
  method MatchRow(a: Value, b: Value, i: nat, cache: map<(nat, nat), Diff>, level: nat)
    returns (diffs: map<(nat, nat), Diff>, partner: nat)
    requires a.List? && b.List? && Decoded(a) && Decoded(b) && Fits(a, b) && i < |a.items|
    requires Cached(cache, Pairwise(a, b, level + 1), |b.items|, i)
    ensures partner == FirstSame(Pairwise(a, b, level + 1)[i])
    ensures partner < |b.items| ==> (i, partner) in diffs
    ensures Cached(diffs, Pairwise(a, b, level + 1), |b.items|, i + 1)
    decreases Rank(a), a, 1
  {
    ghost var m: seq<seq<Diff>>, nb := Pairwise(a, b, level + 1), |b.items|;
    diffs := cache;
    for j := 0 to |b.items|
      invariant Cached(diffs, m, nb, i)
      invariant forall y: nat :: y < j ==> (i, y) in diffs && !m[i][y].status.Same?
    {
      var child := Compare(a, b, i, j, level);
      StillCached(diffs, m, nb, i, i, j);
      diffs := diffs[(i, j) := child];
      if child.status == Same {
        FirstSameIs(m[i], j);
        RowCached(diffs, m, nb, i);
        return diffs, j;
      }
    }
    FirstSameIs(m[i], nb);
    RowCached(diffs, m, nb, i);
    return diffs, |b.items|;
  }

  /** The differences of the leftovers of the first list, in index order. */
  function LeftA(va: seq<Value>, fa: set<nat>, from: nat, level: nat): seq<Diff>
    requires from <= |va|
    decreases |va| - from
  {
    if from == |va| then []
    else (if from in fa then [Primitive(va[from], Null, level)] else []) + LeftA(va, fa, from + 1, level)
  }

  function LeftB(vb: seq<Value>, fb: set<nat>, from: nat, level: nat): seq<Diff>
    requires from <= |vb|
    decreases |vb| - from
  {
    if from == |vb| then []
    else (if from in fb then [Primitive(Null, vb[from], level)] else []) + LeftB(vb, fb, from + 1, level)
  }

  lemma {:induction false} LeftAIsTail(m: Matrix, va: seq<Value>, vb: seq<Value>, fa: set<nat>, from: nat, level: nat)
    requires |m| == |va| && Shape(m, |vb|) && from <= |va|
    ensures AllInRange(m, |vb|, TailA(fa, from, |va|))
    ensures SlotDiffs(m, va, vb, TailA(fa, from, |va|), level) == LeftA(va, fa, from, level)
    decreases |va| - from
  {
    TailsInRange(m, |vb|, fa, fa, from);
    if from < |va| {
      LeftAIsTail(m, va, vb, fa, from + 1, level);
      if from in fa {
        var head := [OnlyA(from)];
        assert SlotDiffs(m, va, vb, head, level) == [Primitive(va[from], Null, level)];
        SlotDiffsOfConcat(m, va, vb, head, TailA(fa, from + 1, |va|), level);
      }
    }
  }

  lemma {:induction false} LeftBIsTail(m: Matrix, va: seq<Value>, vb: seq<Value>, fb: set<nat>, from: nat, level: nat)
    requires |m| == |va| && Shape(m, |vb|) && from <= |vb|
    ensures AllInRange(m, |vb|, TailB(fb, from, |vb|))
    ensures SlotDiffs(m, va, vb, TailB(fb, from, |vb|), level) == LeftB(vb, fb, from, level)
    decreases |vb| - from
  {
    TailsInRange(m, |vb|, fb, fb, from);
    if from < |vb| {
      LeftBIsTail(m, va, vb, fb, from + 1, level);
      if from in fb {
        var head := [OnlyB(from)];
        assert SlotDiffs(m, va, vb, head, level) == [Primitive(Null, vb[from], level)];
        SlotDiffsOfConcat(m, va, vb, head, TailB(fb, from + 1, |vb|), level);
      }
    }
  }

  method LeftoverB(arrayB: seq<Value>, foundB: set<nat>, level: nat) returns (tail: seq<Diff>)
    ensures tail == LeftB(arrayB, Indices(|arrayB|) - foundB, 0, level)
  {
    ghost var fb := Indices(|arrayB|) - foundB;
    tail := [];
    for k := 0 to |arrayB|
      invariant tail + LeftB(arrayB, fb, k, level) == LeftB(arrayB, fb, 0, level)
    {
      if k in foundB {
        continue;
      }
      assert k in Indices(|arrayB|);
      var child := HandlePrimitive(Null, arrayB[k], level);
      tail := tail + [child];
    }
  }

  method LeftoverA(arrayA: seq<Value>, foundA: set<nat>, level: nat) returns (tail: seq<Diff>)
    ensures tail == LeftA(arrayA, Indices(|arrayA|) - foundA, 0, level)
  {
    ghost var fa := Indices(|arrayA|) - foundA;
    tail := [];
    for k := 0 to |arrayA|
      invariant tail + LeftA(arrayA, fa, k, level) == LeftA(arrayA, fa, 0, level)
    {
      if k in foundA {
        continue;
      }
      assert k in Indices(|arrayA|);
      var child := HandlePrimitive(arrayA[k], Null, level);
      tail := tail + [child];
    }
  }

  predicate Visited(p: (nat, nat), i: nat, j: nat) {
    p.0 < i || (p.0 == i && p.1 < j)
  }

  /** Where the scan stands before looking at (i, j): `smallest` is the best free pair
      seen so far, or the sentinel when none has been seen. */
  ghost predicate Standing(m: Matrix, nb: nat, fa: set<nat>, fb: set<nat>,
                           smallest: Diff, p: (nat, nat), i: nat, j: nat)
    requires Within(m, nb, fa, fb)
  {
    if smallest.diffCount < MAX_INT then
      && p.0 in fa && p.1 in fb && smallest == m[p.0][p.1] && Visited(p, i, j)
      && forall x, y :: x in fa && y in fb && Visited((x, y), i, j) ==> AtMost(m, nb, p, (x, y))
    else
      && smallest.diffCount == MAX_INT
      && forall x, y :: x in fa && y in fb ==> !Visited((x, y), i, j)
  }

  predicate AtMost(m: Matrix, nb: nat, p: (nat, nat), q: (nat, nat))
    requires Shape(m, nb) && p.0 < |m| && p.1 < nb && q.0 < |m| && q.1 < nb
  {
    Count(m, p) < Count(m, q) || (Count(m, p) == Count(m, q) && !LexLess(q, p))
  }

  /** Nothing is free at (i, j). */
  lemma StandingSkips(m: Matrix, nb: nat, fa: set<nat>, fb: set<nat>, smallest: Diff, p: (nat, nat), i: nat, j: nat)
    requires Within(m, nb, fa, fb) && Standing(m, nb, fa, fb, smallest, p, i, j)
    ensures j !in fb ==> Standing(m, nb, fa, fb, smallest, p, i, j + 1)
    ensures i !in fa || j == nb ==> Standing(m, nb, fa, fb, smallest, p, i + 1, 0)
  {}

  /** (i, j) is free, so it is compared. */
  lemma StandingCompares(m: Matrix, nb: nat, fa: set<nat>, fb: set<nat>, smallest: Diff, p: (nat, nat), i: nat, j: nat)
    requires Within(m, nb, fa, fb) && Standing(m, nb, fa, fb, smallest, p, i, j)
    requires i in fa && j in fb && m[i][j].diffCount < MAX_INT
    ensures if smallest.diffCount > m[i][j].diffCount then Standing(m, nb, fa, fb, m[i][j], (i, j), i, j + 1)
            else Standing(m, nb, fa, fb, smallest, p, i, j + 1)
  {
    forall x, y | x in fa && y in fb && Visited((x, y), i, j + 1)
      ensures Visited((x, y), i, j) || (x, y) == (i, j)
    {}
  }

  /** The scan for the cheapest pair that is still free.  The sentinel always loses. */
  method SmallestFree(diffs: map<(nat, nat), Diff>, na: nat, nb: nat, foundA: set<nat>, foundB: set<nat>,
                      ghost m: Matrix)
    returns (smallest: Diff, smallestA: nat, smallestB: nat)
    requires Shape(m, nb) && |m| == na && Cached(diffs, m, nb, na)
    requires Indices(na) - foundA != {} && Indices(nb) - foundB != {}
    requires Indices(na) - foundA <= FreeA(m)
    requires forall i: nat, j: nat :: i < na && j < nb ==> m[i][j].diffCount < MAX_INT
    ensures Within(m, nb, Indices(na) - foundA, Indices(nb) - foundB)
    ensures IsBest(m, nb, Indices(na) - foundA, Indices(nb) - foundB, (smallestA, smallestB))
    ensures smallest == m[smallestA][smallestB]
  {
    ghost var fa, fb := Indices(na) - foundA, Indices(nb) - foundB;
    smallest := Diff(Null, Null, NoChildren, Differs, MAX_INT, 0);
    smallestA, smallestB := 0, 0;
    for i := 0 to na
      invariant Standing(m, nb, fa, fb, smallest, (smallestA, smallestB), i, 0)
    {
      if i in foundA {
        StandingSkips(m, nb, fa, fb, smallest, (smallestA, smallestB), i, 0);
        continue;
      }
      smallest, smallestA, smallestB := ScanRow(diffs, i, nb, foundB, smallest, smallestA, smallestB, m, fa);
      StandingSkips(m, nb, fa, fb, smallest, (smallestA, smallestB), i, nb);
    }
    ghost var x :| x in fa;
    ghost var y :| y in fb;
    assert Visited((x, y), na, 0);
    assert forall x, y :: x in fa && y in fb ==>
      Visited((x, y), na, 0) && AtMost(m, nb, (smallestA, smallestB), (x, y));
  }

  method ScanRow(diffs: map<(nat, nat), Diff>, i: nat, nb: nat, foundB: set<nat>,
                 before: Diff, beforeA: nat, beforeB: nat, ghost m: Matrix, ghost fa: set<nat>)
    returns (smallest: Diff, smallestA: nat, smallestB: nat)
    requires Shape(m, nb) && Cached(diffs, m, nb, |m|) && i in fa && fa <= FreeA(m)
    requires forall j: nat :: j < nb ==> m[i][j].diffCount < MAX_INT
    requires Standing(m, nb, fa, Indices(nb) - foundB, before, (beforeA, beforeB), i, 0)
    ensures Standing(m, nb, fa, Indices(nb) - foundB, smallest, (smallestA, smallestB), i, nb)
  {
    ghost var fb := Indices(nb) - foundB;
    smallest, smallestA, smallestB := before, beforeA, beforeB;
    for j := 0 to nb
      invariant Standing(m, nb, fa, fb, smallest, (smallestA, smallestB), i, j)
    {
      if j in foundB {
        StandingSkips(m, nb, fa, fb, smallest, (smallestA, smallestB), i, j);
        continue;
      }
      FreeMeansUnequal(m, nb, i, j);
      assert j in Indices(nb) && (i, j) in diffs && diffs[(i, j)] == m[i][j];
      if diffs[(i, j)].status == Same {
        assert false;
      }
      StandingCompares(m, nb, fa, fb, smallest, (smallestA, smallestB), i, j);
      if smallest.diffCount > diffs[(i, j)].diffCount {
        smallest := diffs[(i, j)];
        smallestA := i;
        smallestB := j;
      }
    }
  }
}
