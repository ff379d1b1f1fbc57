/** Which elements of two lists are compared, said of the children of the difference, pick by
    pick. */
module DiffPairing {
  import opened YamlValue
  import opened DiffSpec
  import opened DiffMatching
  import opened PrinterViews

  // ---------- what earlier children have used ----------

  predicate TakesA(s: Slot, i: nat) {
    match s
    case Pair(x, _) => x == i
    case OnlyA(x) => x == i
    case OnlyB(_) => false
  }

  predicate TakesB(s: Slot, j: nat) {
    match s
    case Pair(_, y) => y == j
    case OnlyA(_) => false
    case OnlyB(y) => y == j
  }

  /** None of the first n children is for element i of the first list. */
  predicate LeftA(ss: seq<Slot>, n: nat, i: nat)
    requires n <= |ss|
  {
    forall x :: 0 <= x < n ==> !TakesA(ss[x], i)
  }

  predicate LeftB(ss: seq<Slot>, n: nat, j: nat)
    requires n <= |ss|
  {
    forall x :: 0 <= x < n ==> !TakesB(ss[x], j)
  }

  // ---------- the first pass ----------

  lemma {:induction false} FirstPassHas(m: Matrix, n: nat, i: nat) returns (x: nat)
    requires i < n <= |m| && FirstSame(m[i]) < |m[i]|
    ensures x < |FirstPass(m, n)| && FirstPass(m, n)[x] == Pair(i, FirstSame(m[i]))
  {
    if i == n - 1 {
      x := |FirstPass(m, n - 1)|;
    } else {
      x := FirstPassHas(m, n - 1, i);
    }
  }

  lemma {:induction false} FirstPassAt(m: Matrix, n: nat, x: nat)
    requires n <= |m| && x < |FirstPass(m, n)|
    ensures var s := FirstPass(m, n)[x]; s.Pair? && s.i < n && s.j == FirstSame(m[s.i]) < |m[s.i]|
  {
    if x < |FirstPass(m, n - 1)| {
      FirstPassAt(m, n - 1, x);
    }
  }

  lemma {:induction false} FirstPassAscends(m: Matrix, n: nat, x: nat, y: nat)
    requires n <= |m| && x < y < |FirstPass(m, n)|
    ensures FirstPass(m, n)[x].Pair? && FirstPass(m, n)[y].Pair? && FirstPass(m, n)[x].i < FirstPass(m, n)[y].i
  {
    FirstPassAt(m, n, x);
    FirstPassAt(m, n, y);
    if y < |FirstPass(m, n - 1)| {
      FirstPassAscends(m, n - 1, x, y);
    } else {
      FirstPassAt(m, n - 1, x);
    }
  }

  // ---------- the pairing loop ----------

  /** The pick at y is the cheapest pair that was still free, the first such one in the order
      of the lists. */
  lemma {:induction false} PickIsBest(m: Matrix, nb: nat, fa: set<nat>, fb: set<nat>, y: nat, i: nat, j: nat)
    requires Within(m, nb, fa, fb) && y < |Greedy(m, nb, fa, fb)| && Greedy(m, nb, fa, fb)[y].Pair?
    requires i in fa && j in fb && LeftA(Greedy(m, nb, fa, fb), y, i) && LeftB(Greedy(m, nb, fa, fb), y, j)
    ensures var s := Greedy(m, nb, fa, fb)[y];
      && s.i < |m| && s.j < |m[s.i]|
      && (m[s.i][s.j].diffCount < m[i][j].diffCount ||
          (m[s.i][s.j].diffCount == m[i][j].diffCount && (s.i < i || (s.i == i && s.j <= j))))
    decreases |fa|
  {
    var g := Greedy(m, nb, fa, fb);
    var p := Best(m, nb, fa, fb);
    if y > 0 {
      var rest := Greedy(m, nb, fa - {p.0}, fb - {p.1});
      assert g == [Pair(p.0, p.1)] + rest;
      assert TakesA(g[0], p.0) && TakesB(g[0], p.1);
      forall x | 0 <= x < y - 1 ensures !TakesA(rest[x], i) && !TakesB(rest[x], j) {
        assert rest[x] == g[x+1];
      }
      PickIsBest(m, nb, fa - {p.0}, fb - {p.1}, y - 1, i, j);
    }
  }

  /** Leftovers come last, in order, and only when the other list is used up. */
  lemma {:induction false} LeftoverIsLast(m: Matrix, nb: nat, fa: set<nat>, fb: set<nat>, y: nat)
    requires Within(m, nb, fa, fb) && y < |Greedy(m, nb, fa, fb)| && !Greedy(m, nb, fa, fb)[y].Pair?
    ensures Greedy(m, nb, fa, fb)[y].OnlyA? ==> forall j :: j in fb ==> !LeftB(Greedy(m, nb, fa, fb), y, j)
    ensures Greedy(m, nb, fa, fb)[y].OnlyB? ==> forall i :: i in fa ==> !LeftA(Greedy(m, nb, fa, fb), y, i)
    decreases |fa|
  {
    var g := Greedy(m, nb, fa, fb);
    if fa == {} {
      TailMembers(fa, fb, 0, nb);
      assert g[y] in g;
    } else if fb == {} {
      TailMembers(fa, fb, 0, |m|);
      assert g[y] in g;
    } else {
      var p := Best(m, nb, fa, fb);
      var rest := Greedy(m, nb, fa - {p.0}, fb - {p.1});
      assert g == [Pair(p.0, p.1)] + rest;
      LeftoverIsLast(m, nb, fa - {p.0}, fb - {p.1}, y - 1);
      Later(g, rest, y);
      assert TakesA(g[0], p.0) && TakesB(g[0], p.1);
    }
  }

  /** What is taken in the rest is taken in the whole. */
  lemma Later(g: seq<Slot>, rest: seq<Slot>, y: nat)
    requires g != [] && rest == g[1..] && 0 < y <= |g|
    ensures forall i :: LeftA(g, y, i) ==> LeftA(rest, y - 1, i)
    ensures forall j :: LeftB(g, y, j) ==> LeftB(rest, y - 1, j)
  {
    assert forall x :: 0 <= x < y - 1 ==> rest[x] == g[x+1];
  }

  lemma {:induction false} TailAAscends(fa: set<nat>, from: nat, n: nat, x: nat, y: nat)
    requires from <= n && x < y < |TailA(fa, from, n)|
    ensures var t := TailA(fa, from, n); t[x].OnlyA? && t[y].OnlyA? && t[x].i < t[y].i
    decreases n - from
  {
    var rest := TailA(fa, from + 1, n);
    if from !in fa {
      TailAAscends(fa, from + 1, n, x, y);
    } else if x > 0 {
      TailAAscends(fa, from + 1, n, x - 1, y - 1);
    } else {
      TailMembers(fa, {}, from + 1, n);
      assert rest[y-1] in rest;
    }
  }

  lemma {:induction false} TailBAscends(fb: set<nat>, from: nat, n: nat, x: nat, y: nat)
    requires from <= n && x < y < |TailB(fb, from, n)|
    ensures var t := TailB(fb, from, n); t[x].OnlyB? && t[y].OnlyB? && t[x].j < t[y].j
    decreases n - from
  {
    var rest := TailB(fb, from + 1, n);
    if from !in fb {
      TailBAscends(fb, from + 1, n, x, y);
    } else if x > 0 {
      TailBAscends(fb, from + 1, n, x - 1, y - 1);
    } else {
      TailMembers({}, fb, from + 1, n);
      assert rest[y-1] in rest;
    }
  }

  /** Two leftovers are of the same list, in its order. */
  predicate InListOrder(s: Slot, t: Slot) {
    (s.OnlyA? && t.OnlyA? && s.i < t.i) || (s.OnlyB? && t.OnlyB? && s.j < t.j)
  }

  lemma {:induction false} LeftoversAscend(m: Matrix, nb: nat, fa: set<nat>, fb: set<nat>, x: nat, y: nat)
    requires Within(m, nb, fa, fb) && x < y < |Greedy(m, nb, fa, fb)| && !Greedy(m, nb, fa, fb)[x].Pair?
    ensures InListOrder(Greedy(m, nb, fa, fb)[x], Greedy(m, nb, fa, fb)[y])
    decreases |fa|
  {
    if fa == {} {
      TailBAscends(fb, 0, nb, x, y);
    } else if fb == {} {
      TailAAscends(fa, 0, |m|, x, y);
    } else {
      var p := Best(m, nb, fa, fb);
      LeftoversAscend(m, nb, fa - {p.0}, fb - {p.1}, x - 1, y - 1);
    }
  }

  // ---------- both together ----------

  predicate SameCell(m: Matrix, i: nat, j: nat) {
    i < |m| && j < |m[i]| && m[i][j].status.Same?
  }

  /** The slot pairs element i with the first one that is Same. */
  predicate FirstInRow(m: Matrix, s: Slot) {
    s.Pair? && SameCell(m, s.i, s.j) && forall j: nat :: j < s.j ==> !SameCell(m, s.i, j)
  }

  lemma SameSlotsFirst(m: Matrix, nb: nat) returns (n: nat)
    requires Shape(m, nb)
    ensures n <= |Slots(m, nb)|
    ensures forall x :: 0 <= x < n ==> FirstInRow(m, Slots(m, nb)[x])
    ensures forall x, y :: 0 <= x < y < n ==> InRowOrder(Slots(m, nb)[x], Slots(m, nb)[y])
    ensures forall i, j :: SameCell(m, i, j) ==> !LeftA(Slots(m, nb), n, i)
    ensures forall x :: n <= x < |Slots(m, nb)| ==> NotSame(m, Slots(m, nb)[x])
  {
    var first, ss := FirstPass(m, |m|), Slots(m, nb);
    n := |first|;
    forall x | 0 <= x < n ensures FirstInRow(m, ss[x]) {
      FirstPassAt(m, |m|, x);
    }
    forall x, y | 0 <= x < y < n ensures InRowOrder(ss[x], ss[y]) {
      FirstPassAscends(m, |m|, x, y);
    }
    forall i, j | SameCell(m, i, j) ensures !LeftA(ss, n, i) {
      var x := FirstPassHas(m, |m|, i);
      assert TakesA(ss[x], i);
    }
    forall x | n <= x < |ss| ensures NotSame(m, ss[x]) {
      if ss[x].Pair? {
        PairsAreFree(m, nb, FreeA(m), FreeB(m, nb), x - n);
      }
    }
  }

  predicate InRowOrder(s: Slot, t: Slot) {
    s.Pair? && t.Pair? && s.i < t.i
  }

  predicate NotSame(m: Matrix, s: Slot) {
    s.Pair? ==> !SameCell(m, s.i, s.j)
  }

  /** What the first slots leave is what the pairing loop starts from. */
  lemma LeftIsFree(m: Matrix, nb: nat, x: nat, i: nat, j: nat)
    requires Shape(m, nb) && |FirstPass(m, |m|)| <= x <= |Slots(m, nb)|
    ensures i < |m| && LeftA(Slots(m, nb), x, i) ==> i in FreeA(m)
    ensures j < nb && LeftB(Slots(m, nb), x, j) ==> j in FreeB(m, nb)
  {
    var ss := Slots(m, nb);
    if i < |m| && FirstSame(m[i]) < |m[i]| {
      var y := FirstPassHas(m, |m|, i);
      assert TakesA(ss[y], i);
    }
    if j < nb && Claimed(m, j) {
      var i' :| 0 <= i' < |m| && FirstSame(m[i']) == j;
      var y := FirstPassHas(m, |m|, i');
      assert TakesB(ss[y], j);
    }
  }

  lemma LeftLater(first: seq<Slot>, rest: seq<Slot>, y: nat, i: nat, j: nat)
    requires y <= |rest|
    ensures LeftA(first + rest, |first| + y, i) ==> LeftA(rest, y, i)
    ensures LeftB(first + rest, |first| + y, j) ==> LeftB(rest, y, j)
  {
    assert forall x :: 0 <= x < y ==> rest[x] == (first + rest)[|first| + x];
  }

  /** At least as cheap as the other cell, and before it in the order of the lists if it is not
      cheaper. */
  predicate Preferred(m: Matrix, s: Slot, i: nat, j: nat)
    requires i < |m| && j < |m[i]|
  {
    && s.Pair? && s.i < |m| && s.j < |m[s.i]|
    && m[s.i][s.j].diffCount <= m[i][j].diffCount
    && (m[s.i][s.j].diffCount == m[i][j].diffCount ==> s.i < i || (s.i == i && s.j <= j))
  }

  lemma SlotIsBest(m: Matrix, nb: nat, x: nat, i: nat, j: nat)
    requires Shape(m, nb) && x < |Slots(m, nb)| && i < |m| && j < nb
    requires Slots(m, nb)[x].Pair? && NotSame(m, Slots(m, nb)[x])
    requires LeftA(Slots(m, nb), x, i) && LeftB(Slots(m, nb), x, j)
    ensures Preferred(m, Slots(m, nb)[x], i, j)
  {
    var first, rest := FirstPass(m, |m|), Greedy(m, nb, FreeA(m), FreeB(m, nb));
    if x < |first| {
      FirstPassAt(m, |m|, x);
    } else {
      LeftIsFree(m, nb, x, i, j);
      LeftLater(first, rest, x - |first|, i, j);
      PickIsBest(m, nb, FreeA(m), FreeB(m, nb), x - |first|, i, j);
    }
  }

  lemma SlotIsLast(m: Matrix, nb: nat, x: nat)
    requires Shape(m, nb) && x < |Slots(m, nb)| && !Slots(m, nb)[x].Pair?
    ensures Slots(m, nb)[x].OnlyA? ==> forall j: nat :: j < nb ==> !LeftB(Slots(m, nb), x, j)
    ensures Slots(m, nb)[x].OnlyB? ==> forall i: nat :: i < |m| ==> !LeftA(Slots(m, nb), x, i)
    ensures forall y :: x < y < |Slots(m, nb)| ==> InListOrder(Slots(m, nb)[x], Slots(m, nb)[y])
  {
    var fa, fb, ss := FreeA(m), FreeB(m, nb), Slots(m, nb);
    var first, rest := FirstPass(m, |m|), Greedy(m, nb, fa, fb);
    if x < |first| {
      FirstPassAt(m, |m|, x);
    } else {
      LeftoverIsLast(m, nb, fa, fb, x - |first|);
      forall j: nat | ss[x].OnlyA? && j < nb ensures !LeftB(ss, x, j) {
        LeftIsFree(m, nb, x, 0, j);
        LeftLater(first, rest, x - |first|, 0, j);
      }
      forall i: nat | ss[x].OnlyB? && i < |m| ensures !LeftA(ss, x, i) {
        LeftIsFree(m, nb, x, i, 0);
        LeftLater(first, rest, x - |first|, i, 0);
      }
      forall y | x < y < |ss| ensures InListOrder(ss[x], ss[y]) {
        LeftoversAscend(m, nb, fa, fb, x - |first|, y - |first|);
      }
    }
  }

  // ---------- the children of a list difference ----------

  /** Elements i and j, compared. */
  ghost function Compared(a: Value, b: Value, level: nat, i: nat, j: nat): Diff
    requires a.List? && b.List? && i < |a.items| && j < |b.items|
  {
    DiffOf(a.items[i], b.items[j], level + 1)
  }

  ghost predicate ComparesSame(a: Value, b: Value, level: nat, i: nat, j: nat)
    requires a.List? && b.List?
  {
    i < |a.items| && j < |b.items| && Compared(a, b, level, i, j).status.Same?
  }

  lemma SlotsOfLists(a: Value, b: Value, level: nat)
    requires a.List? && b.List?
    ensures var m: Matrix := Pairwise(a, b, level + 1);
      && ListSlots(a, b, level) == Slots(m, |b.items|) && |m| == |a.items|
      && forall i: nat, j: nat :: SameCell(m, i, j) <==> ComparesSame(a, b, level, i, j)
  {
    var m: Matrix := Pairwise(a, b, level + 1);
    forall i: nat, j: nat ensures SameCell(m, i, j) <==> ComparesSame(a, b, level, i, j) {}
  }

  lemma CellIs(a: Value, b: Value, level: nat, i: nat, j: nat)
    requires a.List? && b.List? && i < |a.items| && j < |b.items|
    ensures Pairwise(a, b, level + 1)[i][j] == Compared(a, b, level, i, j)
  {}

  /** The slot pairs an element with the first Same partner it has. */
  ghost predicate FirstSamePair(a: Value, b: Value, level: nat, s: Slot)
    requires a.List? && b.List?
  {
    s.Pair? && ComparesSame(a, b, level, s.i, s.j) && forall j: nat :: j < s.j ==> !ComparesSame(a, b, level, s.i, j)
  }

  /** First come the Same pairs: every element of the first list that has a Same partner with
      the first one it has, in the order of the first list.  No pair after them is Same. */
  lemma SamePairsComeFirst(a: Value, b: Value, level: nat) returns (n: nat)
    requires a.List? && b.List?
    ensures n <= |ListSlots(a, b, level)|
    ensures forall x :: 0 <= x < n ==> FirstSamePair(a, b, level, ListSlots(a, b, level)[x])
    ensures forall x, y :: 0 <= x < y < n ==> InRowOrder(ListSlots(a, b, level)[x], ListSlots(a, b, level)[y])
    ensures forall i, j :: ComparesSame(a, b, level, i, j) ==> !LeftA(ListSlots(a, b, level), n, i)
    ensures forall x :: n <= x < |ListSlots(a, b, level)| ==> var s := ListSlots(a, b, level)[x];
      s.Pair? ==> !ComparesSame(a, b, level, s.i, s.j)
  {
    var m: Matrix := Pairwise(a, b, level + 1);
    SlotsOfLists(a, b, level);
    n := SameSlotsFirst(m, |b.items|);
    FirstInRowsAre(a, b, level, m, ListSlots(a, b, level), n);
  }

  lemma FirstInRowsAre(a: Value, b: Value, level: nat, m: Matrix, ss: seq<Slot>, n: nat)
    requires a.List? && b.List? && n <= |ss|
    requires forall i: nat, j: nat :: SameCell(m, i, j) <==> ComparesSame(a, b, level, i, j)
    requires forall x :: 0 <= x < n ==> FirstInRow(m, ss[x])
    requires forall x :: n <= x < |ss| ==> NotSame(m, ss[x])
    ensures forall x :: 0 <= x < n ==> FirstSamePair(a, b, level, ss[x])
    ensures forall x :: n <= x < |ss| && ss[x].Pair? ==> !ComparesSame(a, b, level, ss[x].i, ss[x].j)
  {
    forall x | 0 <= x < n ensures FirstSamePair(a, b, level, ss[x]) {
      assert FirstInRow(m, ss[x]);
    }
    forall x | n <= x < |ss| && ss[x].Pair? ensures !ComparesSame(a, b, level, ss[x].i, ss[x].j) {
      assert NotSame(m, ss[x]);
    }
  }

  /** Every pair that is not Same is the cheapest one among the elements that no earlier child
      is for, and of equally cheap ones the first in the order of the lists. */
  lemma PickIsCheapest(a: Value, b: Value, level: nat, x: nat, i: nat, j: nat)
    requires a.List? && b.List? && x < |ListSlots(a, b, level)| && i < |a.items| && j < |b.items|
    requires var s := ListSlots(a, b, level)[x]; s.Pair? && !ComparesSame(a, b, level, s.i, s.j)
    requires LeftA(ListSlots(a, b, level), x, i) && LeftB(ListSlots(a, b, level), x, j)
    ensures var s := ListSlots(a, b, level)[x];
      && s.i < |a.items| && s.j < |b.items|
      && var (p, q) := (Compared(a, b, level, s.i, s.j).diffCount, Compared(a, b, level, i, j).diffCount);
      && p <= q && (p == q ==> s.i < i || (s.i == i && s.j <= j))
  {
    SlotsOfLists(a, b, level);
    var m: Matrix := Pairwise(a, b, level + 1);
    var s := ListSlots(a, b, level)[x];
    assert NotSame(m, s);
    SlotIsBest(m, |b.items|, x, i, j);
    CellIs(a, b, level, i, j);
    CellIs(a, b, level, s.i, s.j);
  }

  /** Elements are left over only when the other list is used up, and then they are the last
      children, in the order of their list. */
  lemma LeftoversComeLast(a: Value, b: Value, level: nat, x: nat)
    requires a.List? && b.List? && x < |ListSlots(a, b, level)| && !ListSlots(a, b, level)[x].Pair?
    ensures ListSlots(a, b, level)[x].OnlyA? ==>
      forall j: nat :: j < |b.items| ==> !LeftB(ListSlots(a, b, level), x, j)
    ensures ListSlots(a, b, level)[x].OnlyB? ==>
      forall i: nat :: i < |a.items| ==> !LeftA(ListSlots(a, b, level), x, i)
    ensures forall y :: x < y < |ListSlots(a, b, level)| ==>
      InListOrder(ListSlots(a, b, level)[x], ListSlots(a, b, level)[y])
  {
    SlotsOfLists(a, b, level);
    SlotIsLast(Pairwise(a, b, level + 1), |b.items|, x);
  }
}
