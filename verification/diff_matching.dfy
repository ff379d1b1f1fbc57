/** What the list pairing does with the elements: none is lost, none of the first list is
    used twice, and a second-list element is reused only where it is the same. */
module DiffMatching {
  import opened YamlValue
  import opened DiffSpec

  /** How many of the slots mention element i of the first list. */
  function UsesOfA(ss: seq<Slot>, i: nat): nat {
    if ss == [] then 0 else (if !ss[0].OnlyB? && ss[0].i == i then 1 else 0) + UsesOfA(ss[1..], i)
  }

  /** How many of the slots mention element j of the second list. */
  function UsesOfB(ss: seq<Slot>, j: nat): nat {
    if ss == [] then 0 else (if !ss[0].OnlyA? && ss[0].j == j then 1 else 0) + UsesOfB(ss[1..], j)
  }

  /** The slots whose two elements are not the same. */
  function Unequal(m: Matrix, nb: nat, ss: seq<Slot>): seq<Slot>
    requires Shape(m, nb) && AllInRange(m, nb, ss)
  {
    if ss == [] then []
    else
      (if ss[0].Pair? && m[ss[0].i][ss[0].j].status.Same? then [] else [ss[0]]) + Unequal(m, nb, ss[1..])
  }

  lemma UsesOfConcat(ss: seq<Slot>, ts: seq<Slot>, x: nat)
    ensures UsesOfA(ss + ts, x) == UsesOfA(ss, x) + UsesOfA(ts, x)
    ensures UsesOfB(ss + ts, x) == UsesOfB(ss, x) + UsesOfB(ts, x)
  {
    if ss == [] {
      assert ss + ts == ts;
    } else {
      assert (ss + ts)[1..] == ss[1..] + ts;
    }
  }

  lemma UnequalOfConcat(m: Matrix, nb: nat, ss: seq<Slot>, ts: seq<Slot>)
    requires Shape(m, nb) && AllInRange(m, nb, ss) && AllInRange(m, nb, ts)
    ensures Unequal(m, nb, ss + ts) == Unequal(m, nb, ss) + Unequal(m, nb, ts)
  {
    if ss == [] {
      assert ss + ts == ts;
    } else {
      assert (ss + ts)[1..] == ss[1..] + ts;
    }
  }

  // ---------- the tails ----------

  /** How many members of `s` are at least `from`. */
  function CountFrom(s: set<nat>, from: nat, n: nat): nat
    requires from <= n
    decreases n - from
  {
    if from == n then 0 else (if from in s then 1 else 0) + CountFrom(s, from + 1, n)
  }

  lemma {:induction false} CountFromIsSize(s: set<nat>, from: nat, n: nat)
    requires from <= n && forall x :: x in s ==> from <= x < n
    ensures CountFrom(s, from, n) == |s|
    decreases n - from
  {
    if from < n {
      CountFromIsSize(s - {from}, from + 1, n);
      CountFromIgnores(s, from, from + 1, n);
    } else {
      assert s == {};
    }
  }

  lemma CountFromIgnores(s: set<nat>, x: nat, from: nat, n: nat)
    requires x < from <= n
    ensures CountFrom(s, from, n) == CountFrom(s - {x}, from, n)
    decreases n - from
  {}

  lemma {:induction false} TailAUses(fa: set<nat>, from: nat, n: nat, x: nat)
    requires from <= n
    ensures UsesOfA(TailA(fa, from, n), x) == if x in fa && from <= x < n then 1 else 0
    ensures UsesOfB(TailA(fa, from, n), x) == 0
    ensures |TailA(fa, from, n)| == CountFrom(fa, from, n)
    decreases n - from
  {
    if from < n {
      TailAUses(fa, from + 1, n, x);
      var all, rest := TailA(fa, from, n), TailA(fa, from + 1, n);
      assert if from in fa then all[0] == OnlyA(from) && all[1..] == rest else all == rest;
    }
  }

  lemma {:induction false} TailBUses(fb: set<nat>, from: nat, n: nat, x: nat)
    requires from <= n
    ensures UsesOfB(TailB(fb, from, n), x) == if x in fb && from <= x < n then 1 else 0
    ensures UsesOfA(TailB(fb, from, n), x) == 0
    ensures |TailB(fb, from, n)| == CountFrom(fb, from, n)
    decreases n - from
  {
    if from < n {
      TailBUses(fb, from + 1, n, x);
      var all, rest := TailB(fb, from, n), TailB(fb, from + 1, n);
      assert if from in fb then all[0] == OnlyB(from) && all[1..] == rest else all == rest;
    }
  }

  // ---------- the pairing loop ----------

  /** The loop uses every free element exactly once, and makes as many slots as the
      longer of the two leftovers. */
  lemma {:induction false} GreedyUses(m: Matrix, nb: nat, fa: set<nat>, fb: set<nat>, x: nat)
    requires Within(m, nb, fa, fb)
    ensures UsesOfA(Greedy(m, nb, fa, fb), x) == if x in fa then 1 else 0
    ensures UsesOfB(Greedy(m, nb, fa, fb), x) == if x in fb then 1 else 0
    ensures |Greedy(m, nb, fa, fb)| == Max(|fa|, |fb|)
    decreases |fa|
  {
    if fa == {} {
      TailBUses(fb, 0, nb, x);
      CountFromIsSize(fb, 0, nb);
    } else if fb == {} {
      TailAUses(fa, 0, |m|, x);
      CountFromIsSize(fa, 0, |m|);
    } else {
      var p := Best(m, nb, fa, fb);
      GreedyUses(m, nb, fa - {p.0}, fb - {p.1}, x);
      var rest := Greedy(m, nb, fa - {p.0}, fb - {p.1});
      assert Greedy(m, nb, fa, fb)[1..] == rest;
    }
  }

  /** A first-list element that is free has no equal partner anywhere, so the branch the
      source marks "unexpected case" is never taken. */
  lemma FreeMeansUnequal(m: Matrix, nb: nat, i: nat, j: nat)
    requires Shape(m, nb) && i in FreeA(m) && j < nb
    ensures !m[i][j].status.Same?
  {}

  lemma {:induction false} GreedyIsUnequal(m: Matrix, nb: nat, fa: set<nat>, fb: set<nat>)
    requires Within(m, nb, fa, fb) && fa <= FreeA(m)
    ensures AllInRange(m, nb, Greedy(m, nb, fa, fb))
    ensures Unequal(m, nb, Greedy(m, nb, fa, fb)) == Greedy(m, nb, fa, fb)
    decreases |fa|
  {
    GreedyInRange(m, nb, fa, fb);
    if fa == {} || fb == {} {
      TailsHaveNoPairs(fa, fb, 0, |m|, nb);
      NoPairsUnequal(m, nb, Greedy(m, nb, fa, fb));
    } else {
      var p := Best(m, nb, fa, fb);
      FreeMeansUnequal(m, nb, p.0, p.1);
      GreedyIsUnequal(m, nb, fa - {p.0}, fb - {p.1});
      assert Greedy(m, nb, fa, fb)[1..] == Greedy(m, nb, fa - {p.0}, fb - {p.1});
    }
  }

  lemma NoPairsUnequal(m: Matrix, nb: nat, ss: seq<Slot>)
    requires Shape(m, nb) && AllInRange(m, nb, ss)
    requires forall k :: 0 <= k < |ss| ==> !ss[k].Pair?
    ensures Unequal(m, nb, ss) == ss
  {}

  // ---------- the first pass ----------

  lemma {:induction false} FirstPassUses(m: Matrix, nb: nat, n: nat, x: nat)
    requires Shape(m, nb) && n <= |m|
    ensures UsesOfA(FirstPass(m, n), x) == if x < n && FirstSame(m[x]) < nb then 1 else 0
    ensures UsesOfB(FirstPass(m, n), x) > 0 <==> x < nb && exists i :: 0 <= i < n && FirstSame(m[i]) == x
  {
    if n > 0 {
      FirstPassUses(m, nb, n - 1, x);
      var j := FirstSame(m[n-1]);
      if j < nb {
        UsesOfConcat(FirstPass(m, n - 1), [Pair(n - 1, j)], x);
        assert UsesOfA([Pair(n - 1, j)], x) == if x == n - 1 then 1 else 0;
        assert UsesOfB([Pair(n - 1, j)], x) == if x == j then 1 else 0;
      } else {
        assert FirstPass(m, n) == FirstPass(m, n - 1);
      }
    }
  }

  function FreeBelow(m: Matrix, n: nat): set<nat>
    requires n <= |m|
  {
    set i: nat | i < n && FirstSame(m[i]) == |m[i]|
  }

  lemma {:induction false} FirstPassLength(m: Matrix, nb: nat, n: nat)
    requires Shape(m, nb) && n <= |m|
    ensures |FirstPass(m, n)| + |FreeBelow(m, n)| == n
  {
    var free := FreeBelow(m, n);
    if n == 0 {
      assert free == {};
    } else {
      FirstPassLength(m, nb, n - 1);
      assert free == FreeBelow(m, n - 1) + (if FirstSame(m[n-1]) == nb then {n - 1} else {});
    }
  }

  lemma FirstPassIsEqual(m: Matrix, nb: nat, n: nat)
    requires Shape(m, nb) && n <= |m|
    ensures AllInRange(m, nb, FirstPass(m, n))
    ensures Unequal(m, nb, FirstPass(m, n)) == []
  {
    FirstPassInRange(m, nb, n);
    if n > 0 {
      FirstPassIsEqual(m, nb, n - 1);
      var j := FirstSame(m[n-1]);
      if j < nb {
        UnequalOfConcat(m, nb, FirstPass(m, n - 1), [Pair(n - 1, j)]);
      } else {
        assert FirstPass(m, n) == FirstPass(m, n - 1);
      }
    }
  }

  // ---------- conservation ----------

  /** Every first-list element is in exactly one child; every second-list element is in
      at least one child and in at most one that is not Same; and the number of children
      is the length of the first list plus the surplus of unmatched second-list ones. */
  lemma ElementsConserved(m: Matrix, nb: nat, x: nat)
    requires Shape(m, nb)
    ensures AllInRange(m, nb, Slots(m, nb))
    ensures x < |m| ==> UsesOfA(Slots(m, nb), x) == 1
    ensures x < nb ==> UsesOfB(Slots(m, nb), x) >= 1
    ensures x < nb ==> UsesOfB(Unequal(m, nb, Slots(m, nb)), x) == if x in FreeB(m, nb) then 1 else 0
    ensures |Slots(m, nb)| == |m| + Max(0, |FreeB(m, nb)| - |FreeA(m)|)
  {
    SlotsInRange(m, nb);
    var fa, fb := FreeA(m), FreeB(m, nb);
    var first, rest := FirstPass(m, |m|), Greedy(m, nb, fa, fb);
    UsesOfConcat(first, rest, x);
    GreedyUses(m, nb, fa, fb, x);
    FirstPassUses(m, nb, |m|, x);
    FirstPassLength(m, nb, |m|);
    FirstPassIsEqual(m, nb, |m|);
    GreedyIsUnequal(m, nb, fa, fb);
    UnequalOfConcat(m, nb, first, rest);
    assert Unequal(m, nb, first + rest) == rest;
    assert fa == FreeBelow(m, |m|);
  }

  /** Successive picks of the loop never get cheaper. */
  lemma {:induction false} PicksGetDearer(m: Matrix, nb: nat, fa: set<nat>, fb: set<nat>, x: nat, y: nat)
    requires Within(m, nb, fa, fb) && x < y < |Greedy(m, nb, fa, fb)|
    requires Greedy(m, nb, fa, fb)[x].Pair? && Greedy(m, nb, fa, fb)[y].Pair?
    ensures AllInRange(m, nb, Greedy(m, nb, fa, fb))
    ensures var g := Greedy(m, nb, fa, fb);
      Count(m, (g[x].i, g[x].j)) <= Count(m, (g[y].i, g[y].j))
    decreases |fa|
  {
    GreedyInRange(m, nb, fa, fb);
    var g := Greedy(m, nb, fa, fb);
    if fa == {} || fb == {} {
      TailsHaveNoPairs(fa, fb, 0, |m|, nb);
    } else {
      var p := Best(m, nb, fa, fb);
      var rest := Greedy(m, nb, fa - {p.0}, fb - {p.1});
      assert g[y] == rest[y - 1];
      if x == 0 {
        PairsAreFree(m, nb, fa - {p.0}, fb - {p.1}, y - 1);
      } else {
        assert g[x] == rest[x - 1];
        PicksGetDearer(m, nb, fa - {p.0}, fb - {p.1}, x - 1, y - 1);
      }
    }
  }

  lemma TailsHaveNoPairs(fa: set<nat>, fb: set<nat>, from: nat, na: nat, nb: nat)
    ensures from <= na ==> forall k :: 0 <= k < |TailA(fa, from, na)| ==> !TailA(fa, from, na)[k].Pair?
    ensures from <= nb ==> forall k :: 0 <= k < |TailB(fb, from, nb)| ==> !TailB(fb, from, nb)[k].Pair?
    decreases na + nb - from
  {
    if from < na || from < nb {
      TailsHaveNoPairs(fa, fb, from + 1, na, nb);
    }
  }

  lemma {:induction false} PairsAreFree(m: Matrix, nb: nat, fa: set<nat>, fb: set<nat>, y: nat)
    requires Within(m, nb, fa, fb) && y < |Greedy(m, nb, fa, fb)|
    requires Greedy(m, nb, fa, fb)[y].Pair?
    ensures Greedy(m, nb, fa, fb)[y].i in fa && Greedy(m, nb, fa, fb)[y].j in fb
    decreases |fa|
  {
    if fa == {} || fb == {} {
      TailsHaveNoPairs(fa, fb, 0, |m|, nb);
    } else if y > 0 {
      var p := Best(m, nb, fa, fb);
      PairsAreFree(m, nb, fa - {p.0}, fb - {p.1}, y - 1);
    }
  }

  // ---------- lists whose children are all Same ----------

  predicate ChildrenAllSame(d: Diff) {
    d.children.ArrayChildren? && forall x :: 0 <= x < |d.children.a| ==> d.children.a[x].status.Same?
  }

  /** The slot stands for a Same child. */
  predicate SlotSame(m: Matrix, a: Value, b: Value, s: Slot)
    requires a.List? && b.List? && |m| == |a.items| && Shape(m, |b.items|) && InRange(m, |b.items|, s)
  {
    match s
    case Pair(i, j) => m[i][j].status.Same?
    case OnlyA(i) => a.items[i].Null?
    case OnlyB(j) => b.items[j].Null?
  }

  lemma SlotSameIff(m: Matrix, a: Value, b: Value, s: Slot, level: nat)
    requires a.List? && b.List? && Decoded(a) && Decoded(b)
    requires |m| == |a.items| && Shape(m, |b.items|) && InRange(m, |b.items|, s)
    ensures SlotDiff(m, a.items, b.items, s, level).status.Same? <==> SlotSame(m, a, b, s)
  {}

  /** What a leftover has to be. */
  predicate LeftoversNull(a: Value, b: Value, fa: set<nat>, fb: set<nat>)
    requires a.List? && b.List?
  {
    && (forall i :: i in fa ==> i < |a.items| && a.items[i].Null?)
    && (forall j :: j in fb ==> j < |b.items| && b.items[j].Null?)
  }

  lemma {:induction false} TailMembers(fa: set<nat>, fb: set<nat>, from: nat, n: nat)
    requires from <= n
    ensures forall s :: s in TailA(fa, from, n) <==> s.OnlyA? && s.i in fa && from <= s.i < n
    ensures forall s :: s in TailB(fb, from, n) <==> s.OnlyB? && s.j in fb && from <= s.j < n
    decreases n - from
  {
    if from < n {
      TailMembers(fa, fb, from + 1, n);
    }
  }

  lemma GreedyAllSame(m: Matrix, a: Value, b: Value, fa: set<nat>, fb: set<nat>)
    requires a.List? && b.List? && |m| == |a.items| && Within(m, |b.items|, fa, fb) && fa <= FreeA(m)
    ensures AllInRange(m, |b.items|, Greedy(m, |b.items|, fa, fb))
    ensures (forall s :: s in Greedy(m, |b.items|, fa, fb) ==> InRange(m, |b.items|, s) && SlotSame(m, a, b, s)) <==>
      (fa == {} || fb == {}) && LeftoversNull(a, b, fa, fb)
  {
    var nb := |b.items|;
    var g := Greedy(m, nb, fa, fb);
    GreedyInRange(m, nb, fa, fb);
    if fa == {} {
      TailMembers(fa, fb, 0, nb);
      assert forall j :: j in fb ==> OnlyB(j) in g;
    } else if fb == {} {
      TailMembers(fa, fb, 0, |m|);
      assert forall i :: i in fa ==> OnlyA(i) in g;
    } else {
      var p := Best(m, nb, fa, fb);
      FreeMeansUnequal(m, nb, p.0, p.1);
      assert g[0] == Pair(p.0, p.1) && g[0] in g;
    }
  }

  /** For all lists: every child is Same exactly when the first pass has used one of the lists
      up and everything it left of the other is null. */
  lemma ChildrenAllSameIff(a: Value, b: Value, level: nat)
    requires a.List? && b.List? && Decoded(a) && Decoded(b)
    ensures var m: Matrix := Pairwise(a, b, level + 1); var fa, fb := FreeA(m), FreeB(m, |b.items|);
      ChildrenAllSame(DiffOf(a, b, level)) <==> (fa == {} || fb == {}) && LeftoversNull(a, b, fa, fb)
  {
    var m: Matrix, nb := Pairwise(a, b, level + 1), |b.items|;
    var fa, fb, ds := FreeA(m), FreeB(m, nb), DiffOf(a, b, level).children.a;
    var first, rest := FirstPass(m, |m|), Greedy(m, nb, fa, fb);
    SlotsInRange(m, nb);
    FirstPassSame(m, nb, |m|);
    GreedyAllSame(m, a, b, fa, fb);
    var ss := Slots(m, nb);
    forall x | 0 <= x < |ss| ensures ds[x].status.Same? <==> SlotSame(m, a, b, ss[x]) {
      assert ds[x] == SlotDiff(m, a.items, b.items, ss[x], level + 1);
      SlotSameIff(m, a, b, ss[x], level + 1);
    }
    SlotsOfParts(m, a, b, ss, first, rest);
  }

  lemma SlotsOfParts(m: Matrix, a: Value, b: Value, ss: seq<Slot>, first: seq<Slot>, rest: seq<Slot>)
    requires a.List? && b.List? && |m| == |a.items| && Shape(m, |b.items|)
    requires ss == first + rest && AllInRange(m, |b.items|, ss)
    requires forall s :: s in first ==> InRange(m, |b.items|, s) && SlotSame(m, a, b, s)
    ensures (forall x :: 0 <= x < |ss| ==> SlotSame(m, a, b, ss[x])) <==>
      forall s :: s in rest ==> InRange(m, |b.items|, s) && SlotSame(m, a, b, s)
  {
    if forall x :: 0 <= x < |ss| ==> SlotSame(m, a, b, ss[x]) {
      forall s | s in rest ensures InRange(m, |b.items|, s) && SlotSame(m, a, b, s) {
        var y :| 0 <= y < |rest| && rest[y] == s;
        assert ss[|first| + y] == s;
      }
    }
    if forall s :: s in rest ==> InRange(m, |b.items|, s) && SlotSame(m, a, b, s) {
      forall x | 0 <= x < |ss| ensures SlotSame(m, a, b, ss[x]) {
        assert ss[x] in first || ss[x] in rest;
      }
    }
  }

  lemma {:induction false} FirstPassSame(m: Matrix, nb: nat, n: nat)
    requires Shape(m, nb) && n <= |m|
    ensures forall s :: s in FirstPass(m, n) ==> s.Pair? && InRange(m, nb, s) && m[s.i][s.j].status.Same?
  {
    if n > 0 {
      FirstPassSame(m, nb, n - 1);
    }
  }

  /** So a list that differs looks the same, child by child, exactly when in addition
      something was left: nulls of one of the two lists. */
  lemma DifferingListLooksSameIff(a: Value, b: Value, level: nat)
    requires a.List? && b.List? && Decoded(a) && Decoded(b)
    ensures var m: Matrix := Pairwise(a, b, level + 1); var fa, fb := FreeA(m), FreeB(m, |b.items|);
      DiffOf(a, b, level).status.Differs? && ChildrenAllSame(DiffOf(a, b, level)) <==>
        (fa == {} <==> fb != {}) && LeftoversNull(a, b, fa, fb)
  {
    ChildrenAllSameIff(a, b, level);
  }

  /** An unmatched null makes a Same child inside a list that differs. */
  lemma LeftoverNullLooksSame(level: nat)
    ensures DiffOf(List([]), List([Null]), level).status.Differs?
    ensures DiffOf(List([]), List([Null]), level).children == ArrayChildren([Primitive(Null, Null, level + 1)])
    ensures Primitive(Null, Null, level + 1).status.Same?
  {
    var m: Matrix := Pairwise(List([]), List([Null]), level + 1);
    assert m == [];
    assert 0 in FreeB(m, 1);
    assert FreeB(m, 1) == {0} && FreeA(m) == {};
    assert TailB({0}, 1, 1) == [];
    assert Slots(m, 1) == [OnlyB(0)];
  }
}
