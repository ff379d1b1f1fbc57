/** What the comparison of two document streams guarantees, whatever order the library
    sort returns: every document is accounted for exactly once, in order, and no two
    documents that are the same end up apart when Same entries come first. */
module DocumentMatching {
  import opened DiffSemantics
  import opened Documents

  /** Ids of documents and made-up partners never coincide. */
  predicate FreshIds(docsA: seq<Doc>, docsB: seq<Doc>, emptyIds: seq<string>) {
    && |emptyIds| == |docsA| + |docsB|
    && DistinctIds(docsA) && DistinctIds(docsB)
    && (forall k, l :: 0 <= k < l < |emptyIds| ==> emptyIds[k] != emptyIds[l])
    && (forall i, j :: 0 <= i < |docsA| && 0 <= j < |docsB| ==> docsA[i].id != docsB[j].id)
    && (forall i, k :: 0 <= i < |docsA| && 0 <= k < |emptyIds| ==> docsA[i].id != emptyIds[k])
    && (forall j, k :: 0 <= j < |docsB| && 0 <= k < |emptyIds| ==> docsB[j].id != emptyIds[k])
  }

  predicate DistinctIds(docs: seq<Doc>) {
    forall i, j :: 0 <= i < j < |docs| ==> docs[i].id != docs[j].id
  }

  predicate Disjoint(d: YamlDiff, e: YamlDiff) {
    d.idA != e.idA && d.idA != e.idB && d.idB != e.idA && d.idB != e.idB
  }

  predicate Touches(d: YamlDiff, checked: set<string>) {
    d.idA in checked || d.idB in checked
  }

  /** No two entries share a document. */
  predicate Apart(ds: seq<YamlDiff>) {
    forall k, l :: 0 <= k < l < |ds| ==> Disjoint(ds[k], ds[l])
  }

  predicate ExactlyOnce(ds: seq<YamlDiff>, left: bool, id: string) {
    exists k :: 0 <= k < |ds| && Id(ds[k], left) == id && forall l :: 0 <= l < |ds| && l != k ==> Id(ds[l], left) != id
  }

  // ---------- which entries there are ----------

  ghost predicate IsPair(d: YamlDiff, docsA: seq<Doc>, docsB: seq<Doc>, i: nat, j: nat) {
    i < |docsA| && j < |docsB| && d == PairEntry(docsA[i], docsB[j])
  }

  ghost predicate IsAlone(d: YamlDiff, docsA: seq<Doc>, docsB: seq<Doc>, emptyIds: seq<string>, k: nat)
    requires |emptyIds| == |docsA| + |docsB|
  {
    && k < |emptyIds|
    && d == if k < |docsA| then AloneA(docsA[k], emptyIds[k]) else AloneB(docsB[k-|docsA|], emptyIds[k])
  }

  lemma {:induction false} RowEntry(a: Doc, docsB: seq<Doc>, n: nat, d: YamlDiff) returns (j: nat)
    requires n <= |docsB| && d in Row(a, docsB, n)
    ensures j < n && d == PairEntry(a, docsB[j])
  {
    if d == PairEntry(a, docsB[n-1]) {
      j := n - 1;
    } else {
      j := RowEntry(a, docsB, n - 1, d);
    }
  }

  lemma {:induction false} RowHolds(a: Doc, docsB: seq<Doc>, n: nat, j: nat)
    requires j < n <= |docsB|
    ensures PairEntry(a, docsB[j]) in Row(a, docsB, n)
  {
    var row, last := Row(a, docsB, n), PairEntry(a, docsB[n-1]);
    assert row == Row(a, docsB, n - 1) + [last] && row[|row|-1] == last;
    if j < n - 1 {
      RowHolds(a, docsB, n - 1, j);
    }
  }

  lemma {:induction false} CrossEntry(docsA: seq<Doc>, docsB: seq<Doc>, n: nat, d: YamlDiff) returns (i: nat, j: nat)
    requires n <= |docsA| && d in Cross(docsA, docsB, n)
    ensures IsPair(d, docsA, docsB, i, j)
  {
    if d in Row(docsA[n-1], docsB, |docsB|) {
      i := n - 1;
      j := RowEntry(docsA[n-1], docsB, |docsB|, d);
    } else {
      i, j := CrossEntry(docsA, docsB, n - 1, d);
    }
  }

  lemma {:induction false} CrossHolds(docsA: seq<Doc>, docsB: seq<Doc>, n: nat, i: nat, j: nat)
    requires i < n <= |docsA| && j < |docsB|
    ensures PairEntry(docsA[i], docsB[j]) in Cross(docsA, docsB, n)
  {
    var e := PairEntry(docsA[i], docsB[j]);
    var before, row := Cross(docsA, docsB, n - 1), Row(docsA[n-1], docsB, |docsB|);
    if i < n - 1 {
      CrossHolds(docsA, docsB, n - 1, i, j);
      assert e in before;
    } else {
      RowHolds(docsA[i], docsB, |docsB|, j);
      assert e in row;
    }
    assert Cross(docsA, docsB, n) == before + row;
  }

  lemma {:induction false} AloneEntry(docsA: seq<Doc>, docsB: seq<Doc>, emptyIds: seq<string>, n: nat, d: YamlDiff)
    returns (k: nat)
    requires n <= |docsA| + |docsB| == |emptyIds| && d in Alone(docsA, docsB, emptyIds, n)
    ensures IsAlone(d, docsA, docsB, emptyIds, k)
  {
    if d in Alone(docsA, docsB, emptyIds, n - 1) {
      k := AloneEntry(docsA, docsB, emptyIds, n - 1, d);
    } else {
      k := n - 1;
    }
  }

  lemma {:induction false} AloneHolds(
    docsA: seq<Doc>, docsB: seq<Doc>, emptyIds: seq<string>, n: nat, k: nat, d: YamlDiff)
    requires k < n <= |docsA| + |docsB| == |emptyIds| && IsAlone(d, docsA, docsB, emptyIds, k)
    ensures d in Alone(docsA, docsB, emptyIds, n)
  {
    var all := Alone(docsA, docsB, emptyIds, n);
    assert all[..|all|-1] == Alone(docsA, docsB, emptyIds, n - 1);
    if k < n - 1 {
      AloneHolds(docsA, docsB, emptyIds, n - 1, k, d);
    } else {
      assert all[|all|-1] == d;
    }
  }

  /** Which ids an entry can carry. */
  lemma EntryIds(docsA: seq<Doc>, docsB: seq<Doc>, emptyIds: seq<string>, d: YamlDiff)
    requires |emptyIds| == |docsA| + |docsB| && d in AllDiffs(docsA, docsB, emptyIds)
    ensures (exists i: nat, j: nat :: i < |docsA| && j < |docsB| && d.idA == docsA[i].id && d.idB == docsB[j].id)
      || (exists k: nat :: IsAlone(d, docsA, docsB, emptyIds, k))
  {
    if d in Cross(docsA, docsB, |docsA|) {
      var i, j := CrossEntry(docsA, docsB, |docsA|, d);
      assert d.idA == docsA[i].id && d.idB == docsB[j].id;
    } else {
      var k := AloneEntry(docsA, docsB, emptyIds, |emptyIds|, d);
    }
  }

  /** A made-up id occurs in its own entry only. */
  lemma EmptyIdHolder(docsA: seq<Doc>, docsB: seq<Doc>, emptyIds: seq<string>, d: YamlDiff, k: nat)
    requires FreshIds(docsA, docsB, emptyIds) && d in AllDiffs(docsA, docsB, emptyIds) && k < |emptyIds|
    requires d.idA == emptyIds[k] || d.idB == emptyIds[k]
    ensures IsAlone(d, docsA, docsB, emptyIds, k)
  {
    EntryIds(docsA, docsB, emptyIds, d);
    var l: nat :| IsAlone(d, docsA, docsB, emptyIds, l);
    assert l == k;
  }

  /** A document id stands on its own side. */
  lemma DocIdSide(docsA: seq<Doc>, docsB: seq<Doc>, emptyIds: seq<string>, d: YamlDiff)
    requires FreshIds(docsA, docsB, emptyIds) && d in AllDiffs(docsA, docsB, emptyIds)
    ensures forall i :: 0 <= i < |docsA| ==> d.idB != docsA[i].id
    ensures forall j :: 0 <= j < |docsB| ==> d.idA != docsB[j].id
    ensures (exists i :: 0 <= i < |docsA| && d.idA == docsA[i].id) ||
      (exists j :: 0 <= j < |docsB| && d.idB == docsB[j].id)
  {
    EntryIds(docsA, docsB, emptyIds, d);
  }

  // ---------- the filter ----------

  lemma {:induction false} ChosenAreApart(order: seq<YamlDiff>, checked: set<string>)
    ensures Apart(Chosen(order, checked))
    ensures forall d :: d in Chosen(order, checked) ==> d in order && !Touches(d, checked)
  {
    if order != [] {
      if Touches(order[0], checked) {
        ChosenAreApart(order[1..], checked);
      } else {
        var now := checked + {order[0].idA, order[0].idB};
        ChosenAreApart(order[1..], now);
        var rest := Chosen(order[1..], now);
        forall l | 0 <= l < |rest| ensures Disjoint(order[0], rest[l]) {
          assert rest[l] in rest;
        }
      }
    }
  }

  /** An entry is dropped only because one of its documents is taken. */
  lemma {:induction false} ChosenOrTaken(order: seq<YamlDiff>, checked: set<string>, e: YamlDiff)
    requires e in order
    ensures e in Chosen(order, checked) || Touches(e, checked + Ids(Chosen(order, checked)))
  {
    if Touches(order[0], checked) {
      if e != order[0] {
        ChosenOrTaken(order[1..], checked, e);
      }
    } else {
      if e != order[0] {
        ChosenOrTaken(order[1..], checked + {order[0].idA, order[0].idB}, e);
      }
    }
  }

  /** Every document of the first stream has an entry among the chosen ones. */
  lemma ChosenCoverA(docsA: seq<Doc>, docsB: seq<Doc>, emptyIds: seq<string>, order: seq<YamlDiff>, i: nat)
    requires FreshIds(docsA, docsB, emptyIds) && i < |docsA|
    requires multiset(order) == multiset(AllDiffs(docsA, docsB, emptyIds))
    ensures exists d :: d in Chosen(order, {}) && d.idA == docsA[i].id
  {
    var e := AloneA(docsA[i], emptyIds[i]);
    AloneChosenOrTaken(docsA, docsB, emptyIds, order, i, e);
    if docsA[i].id in Ids(Chosen(order, {})) {
      var d := Taker(docsA, docsB, emptyIds, order, docsA[i].id);
      DocIdSide(docsA, docsB, emptyIds, d);
    }
  }

  lemma ChosenCoverB(docsA: seq<Doc>, docsB: seq<Doc>, emptyIds: seq<string>, order: seq<YamlDiff>, j: nat)
    requires FreshIds(docsA, docsB, emptyIds) && j < |docsB|
    requires multiset(order) == multiset(AllDiffs(docsA, docsB, emptyIds))
    ensures exists d :: d in Chosen(order, {}) && d.idB == docsB[j].id
  {
    var e := AloneB(docsB[j], emptyIds[|docsA| + j]);
    AloneChosenOrTaken(docsA, docsB, emptyIds, order, |docsA| + j, e);
    if docsB[j].id in Ids(Chosen(order, {})) {
      var d := Taker(docsA, docsB, emptyIds, order, docsB[j].id);
      DocIdSide(docsA, docsB, emptyIds, d);
    }
  }

  /** A document's entry against nothing is chosen, or the document is taken. */
  lemma AloneChosenOrTaken(
    docsA: seq<Doc>, docsB: seq<Doc>, emptyIds: seq<string>, order: seq<YamlDiff>, k: nat, e: YamlDiff)
    requires FreshIds(docsA, docsB, emptyIds) && IsAlone(e, docsA, docsB, emptyIds, k)
    requires multiset(order) == multiset(AllDiffs(docsA, docsB, emptyIds))
    ensures e in Chosen(order, {}) ||
      (if k < |docsA| then docsA[k].id else docsB[k-|docsA|].id) in Ids(Chosen(order, {}))
  {
    AloneHolds(docsA, docsB, emptyIds, |emptyIds|, k, e);
    SameMembers(order, AllDiffs(docsA, docsB, emptyIds), e);
    ChosenOrTaken(order, {}, e);
    if emptyIds[k] in Ids(Chosen(order, {})) {
      var d := Taker(docsA, docsB, emptyIds, order, emptyIds[k]);
      EmptyIdHolder(docsA, docsB, emptyIds, d, k);
    }
  }

  lemma SameMembers(xs: seq<YamlDiff>, ys: seq<YamlDiff>, e: YamlDiff)
    requires multiset(xs) == multiset(ys)
    ensures e in xs <==> e in ys
  {
    assert e in xs <==> e in multiset(xs);
    assert e in ys <==> e in multiset(ys);
  }

  /** The chosen entry that holds a taken id, and what kind of entry it is. */
  lemma Taker(docsA: seq<Doc>, docsB: seq<Doc>, emptyIds: seq<string>, order: seq<YamlDiff>, id: string)
    returns (d: YamlDiff)
    requires |emptyIds| == |docsA| + |docsB|
    requires multiset(order) == multiset(AllDiffs(docsA, docsB, emptyIds))
    requires id in Ids(Chosen(order, {}))
    ensures d in Chosen(order, {}) && (d.idA == id || d.idB == id)
    ensures d in AllDiffs(docsA, docsB, emptyIds)
  {
    IdsMember(Chosen(order, {}), id);
    d :| d in Chosen(order, {}) && (d.idA == id || d.idB == id);
    ChosenAreApart(order, {});
    SameMembers(order, AllDiffs(docsA, docsB, emptyIds), d);
  }

  // ---------- the reordering ----------

  /** Each document has one entry on the given side. */
  ghost predicate Indexed(docs: seq<Doc>, ds: seq<YamlDiff>, left: bool, at: seq<nat>) {
    && |at| == |docs|
    && forall i :: 0 <= i < |docs| ==> at[i] < |ds| && Id(ds[at[i]], left) == docs[i].id
  }

  /** The entries of the documents whose entry does not touch `checked`, in order. */
  function Kept(ds: seq<YamlDiff>, at: seq<nat>, checked: set<string>): seq<YamlDiff>
    requires forall i :: 0 <= i < |at| ==> at[i] < |ds|
  {
    if at == [] then []
    else (if Touches(ds[at[0]], checked) then [] else [ds[at[0]]]) + Kept(ds, at[1..], checked)
  }

  lemma {:induction false} ScanFinds(ds: seq<YamlDiff>, left: bool, checked: set<string>, x: nat)
    requires Apart(ds) && x < |ds|
    ensures Scan(ds, left, Id(ds[x], left), checked) == if Touches(ds[x], checked) then [] else [ds[x]]
  {
    var id := Id(ds[x], left);
    if x == 0 {
      var now := if Touches(ds[0], checked) then checked else checked + {ds[0].idA, ds[0].idB};
      forall k | 0 <= k < |ds[1..]| ensures Id(ds[1..][k], left) != id {
        assert Disjoint(ds[0], ds[k+1]);
      }
      ScanMisses(ds[1..], left, id, now);
    } else {
      assert Disjoint(ds[0], ds[x]);
      assert Apart(ds[1..]) by {
        forall k, l | 0 <= k < l < |ds| - 1 ensures Disjoint(ds[1..][k], ds[1..][l]) {
          assert Disjoint(ds[k+1], ds[l+1]);
        }
      }
      ScanFinds(ds[1..], left, checked, x - 1);
    }
  }

  lemma ScanMisses(ds: seq<YamlDiff>, left: bool, id: string, checked: set<string>)
    requires forall k :: 0 <= k < |ds| ==> Id(ds[k], left) != id
    ensures Scan(ds, left, id, checked) == []
  {}

  lemma {:induction false} CollectKeeps(
    docs: seq<Doc>, ds: seq<YamlDiff>, left: bool, checked: set<string>, at: seq<nat>)
    requires Apart(ds) && DistinctIds(docs) && Indexed(docs, ds, left, at)
    ensures Collect(docs, ds, left, checked) == Kept(ds, at, checked)
  {
    if docs != [] {
      ScanFinds(ds, left, checked, at[0]);
      var hit := Scan(ds, left, docs[0].id, checked);
      CollectKeeps(docs[1..], ds, left, checked + Ids(hit), at[1..]);
      if !Touches(ds[at[0]], checked) {
        assert Ids(hit) == {ds[at[0]].idA, ds[at[0]].idB};
        forall i | 1 <= i < |docs| ensures Disjoint(ds[at[0]], ds[at[i]]) {
          assert docs[0].id != docs[i].id;
          assert Disjoint(ds[at[0]], ds[at[i]]) || Disjoint(ds[at[i]], ds[at[0]]);
        }
        KeptIgnores(ds, at[1..], checked, ds[at[0]]);
      } else {
        assert checked + Ids(hit) == checked;
      }
    }
  }

  lemma {:induction false} KeptIgnores(ds: seq<YamlDiff>, at: seq<nat>, checked: set<string>, d: YamlDiff)
    requires forall i :: 0 <= i < |at| ==> at[i] < |ds| && Disjoint(d, ds[at[i]])
    ensures Kept(ds, at, checked + {d.idA, d.idB}) == Kept(ds, at, checked)
  {
    if at != [] {
      assert Disjoint(d, ds[at[0]]);
      forall i | 0 <= i < |at[1..]| ensures at[1..][i] < |ds| && Disjoint(d, ds[at[1..][i]]) {
        assert at[1..][i] == at[i+1];
      }
      KeptIgnores(ds, at[1..], checked, d);
    }
  }

  lemma KeepsAll(ds: seq<YamlDiff>, at: seq<nat>)
    requires forall i :: 0 <= i < |at| ==> at[i] < |ds|
    ensures |Kept(ds, at, {})| == |at|
    ensures forall i :: 0 <= i < |at| ==> Kept(ds, at, {})[i] == ds[at[i]]
  {}

  lemma KeptMembers(ds: seq<YamlDiff>, at: seq<nat>, checked: set<string>, d: YamlDiff)
    requires forall i :: 0 <= i < |at| ==> at[i] < |ds|
    ensures d in Kept(ds, at, checked) <==>
      !Touches(d, checked) && exists i :: 0 <= i < |at| && ds[at[i]] == d
  {
    if at != [] {
      KeptMembers(ds, at[1..], checked, d);
      if i :| 0 <= i < |at| && ds[at[i]] == d {
        if i > 0 {
          assert at[1..][i-1] == at[i];
        }
      }
      if i :| 0 <= i < |at[1..]| && ds[at[1..][i]] == d {
        assert ds[at[i+1]] == d;
      }
    }
  }

  /** The ids of the second-stream documents that no entry of `first` uses, in order. */
  function Unpaired(docsB: seq<Doc>, first: seq<YamlDiff>): seq<string> {
    if docsB == [] then []
    else (if docsB[0].id in Ids(first) then [] else [docsB[0].id]) + Unpaired(docsB[1..], first)
  }

  function RightIds(ds: seq<YamlDiff>): seq<string> {
    seq(|ds|, k requires 0 <= k < |ds| => ds[k].idB)
  }

  /** An entry whose second document is taken is itself one of the entries taken. */
  lemma {:induction false} KeptAreUnpaired(docsB: seq<Doc>, ds: seq<YamlDiff>, at: seq<nat>, first: seq<YamlDiff>)
    requires Apart(ds) && Indexed(docsB, ds, false, at) && forall d :: d in first ==> d in ds
    ensures RightIds(Kept(ds, at, Ids(first))) == Unpaired(docsB, first)
  {
    if docsB != [] {
      KeptAreUnpaired(docsB[1..], ds, at[1..], first);
      var d := ds[at[0]];
      if d.idA in Ids(first) {
        IdsMember(first, d.idA);
        var e :| e in first && (e.idA == d.idA || e.idB == d.idA);
        SharedMeansSame(ds, d, e);
        IdsMember(first, d.idB);
      }
    }
  }

  lemma SharedMeansSame(ds: seq<YamlDiff>, d: YamlDiff, e: YamlDiff)
    requires Apart(ds) && d in ds && e in ds && !Disjoint(d, e)
    ensures d == e
  {
    var k :| 0 <= k < |ds| && ds[k] == d;
    var l :| 0 <= l < |ds| && ds[l] == e;
  }

  lemma IndexAll(docs: seq<Doc>, ds: seq<YamlDiff>, left: bool) returns (at: seq<nat>)
    requires forall i :: 0 <= i < |docs| ==> exists d :: d in ds && Id(d, left) == docs[i].id
    ensures Indexed(docs, ds, left, at)
  {
    at := [];
    while |at| < |docs|
      invariant |at| <= |docs|
      invariant forall i :: 0 <= i < |at| ==> at[i] < |ds| && Id(ds[at[i]], left) == docs[i].id
    {
      var i := |at|;
      assert exists d :: d in ds && Id(d, left) == docs[i].id;
      var d :| d in ds && Id(d, left) == docs[i].id;
      var k: nat :| k < |ds| && ds[k] == d;
      at := at + [k];
    }
  }

  // ---------- the guarantee ----------

  /** For any order the sort returns: the entries come out as one for each document of the
      first stream, in its order, then one for each document of the second that none of
      those pairs off, in its order. */
  lemma OrderedByDocument(docsA: seq<Doc>, docsB: seq<Doc>, emptyIds: seq<string>, order: seq<YamlDiff>)
    requires FreshIds(docsA, docsB, emptyIds)
    requires multiset(order) == multiset(AllDiffs(docsA, docsB, emptyIds))
    ensures var out := Ordered(docsA, docsB, Chosen(order, {}));
      && |out| >= |docsA|
      && (forall i :: 0 <= i < |docsA| ==> out[i].idA == docsA[i].id)
      && RightIds(out[|docsA|..]) == Unpaired(docsB, out[..|docsA|])
  {
    var ds := Chosen(order, {});
    var atA, atB := Index(docsA, docsB, emptyIds, order);
    CollectKeeps(docsA, ds, true, {}, atA);
    var first := Collect(docsA, ds, true, {});
    KeepsAll(ds, atA);
    CollectKeeps(docsB, ds, false, Ids(first), atB);
    KeptAreUnpaired(docsB, ds, atB, first);
    var out := Ordered(docsA, docsB, ds);
    assert out[..|docsA|] == first && out[|docsA|..] == Collect(docsB, ds, false, Ids(first));
  }

  lemma Index(docsA: seq<Doc>, docsB: seq<Doc>, emptyIds: seq<string>, order: seq<YamlDiff>)
    returns (atA: seq<nat>, atB: seq<nat>)
    requires FreshIds(docsA, docsB, emptyIds)
    requires multiset(order) == multiset(AllDiffs(docsA, docsB, emptyIds))
    ensures Apart(Chosen(order, {}))
    ensures Indexed(docsA, Chosen(order, {}), true, atA) && Indexed(docsB, Chosen(order, {}), false, atB)
  {
    ChosenAreApart(order, {});
    forall i | 0 <= i < |docsA| ensures exists d :: d in Chosen(order, {}) && Id(d, true) == docsA[i].id {
      ChosenCoverA(docsA, docsB, emptyIds, order, i);
    }
    forall j | 0 <= j < |docsB| ensures exists d :: d in Chosen(order, {}) && Id(d, false) == docsB[j].id {
      ChosenCoverB(docsA, docsB, emptyIds, order, j);
    }
    atA := IndexAll(docsA, Chosen(order, {}), true);
    atB := IndexAll(docsB, Chosen(order, {}), false);
  }

  /** The reordering neither drops nor repeats an entry. */
  lemma OrderedIsRearranged(docsA: seq<Doc>, docsB: seq<Doc>, emptyIds: seq<string>, order: seq<YamlDiff>)
    requires FreshIds(docsA, docsB, emptyIds)
    requires multiset(order) == multiset(AllDiffs(docsA, docsB, emptyIds))
    ensures multiset(Ordered(docsA, docsB, Chosen(order, {}))) == multiset(Chosen(order, {}))
    ensures Apart(Ordered(docsA, docsB, Chosen(order, {})))
  {
    var ds := Chosen(order, {});
    var atA, atB := Index(docsA, docsB, emptyIds, order);
    CollectKeeps(docsA, ds, true, {}, atA);
    var first := Collect(docsA, ds, true, {});
    CollectKeeps(docsB, ds, false, Ids(first), atB);
    var second := Collect(docsB, ds, false, Ids(first));
    var out := first + second;
    forall d ensures d in out <==> d in ds {
      KeptMembers(ds, atA, {}, d);
      KeptMembers(ds, atB, Ids(first), d);
      if d in ds && d !in first {
        NotInFirst(docsA, docsB, emptyIds, order, atA, atB, first, d);
      }
    }
    KeptApart(docsA, ds, true, atA, {});
    KeptApart(docsB, ds, false, atB, Ids(first));
    forall k, l | 0 <= k < |first| && 0 <= l < |second| ensures Disjoint(first[k], second[l]) {
      KeptMembers(ds, atB, Ids(first), second[l]);
      assert second[l] in second && first[k] in first;
      IdsMember(first, second[l].idA);
      IdsMember(first, second[l].idB);
    }
    SameContents(out, ds);
  }

  /** A chosen entry that is not for a first-stream document is for an unpaired second one. */
  lemma NotInFirst(docsA: seq<Doc>, docsB: seq<Doc>, emptyIds: seq<string>, order: seq<YamlDiff>,
                   atA: seq<nat>, atB: seq<nat>, first: seq<YamlDiff>, d: YamlDiff)
    requires FreshIds(docsA, docsB, emptyIds)
    requires multiset(order) == multiset(AllDiffs(docsA, docsB, emptyIds))
    requires var ds := Chosen(order, {});
      && Apart(ds) && Indexed(docsA, ds, true, atA) && Indexed(docsB, ds, false, atB)
      && first == Kept(ds, atA, {}) && d in ds && d !in first
    ensures !Touches(d, Ids(first))
    ensures exists j :: 0 <= j < |atB| && Chosen(order, {})[atB[j]] == d
  {
    var ds := Chosen(order, {});
    if Touches(d, Ids(first)) {
      var id := if d.idA in Ids(first) then d.idA else d.idB;
      IdsMember(first, id);
      var e :| e in first && (e.idA == id || e.idB == id);
      KeptMembers(ds, atA, {}, e);
      SharedMeansSame(ds, d, e);
      assert false;
    }
    IdsMember(ds, d.idA);
    ChosenAreApart(order, {});
    SameMembers(order, AllDiffs(docsA, docsB, emptyIds), d);
    DocIdSide(docsA, docsB, emptyIds, d);
    KeptMembers(ds, atA, {}, d);
    forall i | 0 <= i < |docsA| ensures d.idA != docsA[i].id {
      if d.idA == docsA[i].id {
        SharedMeansSame(ds, d, ds[atA[i]]);
        assert false;
      }
    }
    var j :| 0 <= j < |docsB| && d.idB == docsB[j].id;
    SharedMeansSame(ds, d, ds[atB[j]]);
  }

  lemma KeptApart(docs: seq<Doc>, ds: seq<YamlDiff>, left: bool, at: seq<nat>, checked: set<string>)
    requires Apart(ds) && DistinctIds(docs) && Indexed(docs, ds, left, at)
    ensures Apart(Kept(ds, at, checked))
  {
    if docs != [] {
      KeptApart(docs[1..], ds, left, at[1..], checked);
      var rest := Kept(ds, at[1..], checked);
      forall l | 0 <= l < |rest| ensures Disjoint(ds[at[0]], rest[l]) {
        KeptMembers(ds, at[1..], checked, rest[l]);
        var i :| 0 <= i < |at[1..]| && ds[at[1..][i]] == rest[l];
        assert docs[0].id != docs[i+1].id;
        assert at[1..][i] == at[i+1];
        assert Disjoint(ds[at[0]], ds[at[i+1]]) || Disjoint(ds[at[i+1]], ds[at[0]]);
      }
    }
  }

  lemma SameContents(xs: seq<YamlDiff>, ys: seq<YamlDiff>)
    requires Apart(xs) && Apart(ys) && forall d :: d in xs <==> d in ys
    ensures multiset(xs) == multiset(ys)
  {
    forall d ensures multiset(xs)[d] == multiset(ys)[d] {
      ApartMultiplicity(xs, d);
      ApartMultiplicity(ys, d);
    }
  }

  lemma ApartMultiplicity(xs: seq<YamlDiff>, d: YamlDiff)
    requires Apart(xs)
    ensures multiset(xs)[d] == if d in xs then 1 else 0
  {
    if xs != [] {
      assert xs == [xs[0]] + xs[1..];
      assert Apart(xs[1..]) by {
        forall k, l | 0 <= k < l < |xs| - 1 ensures Disjoint(xs[1..][k], xs[1..][l]) {
          assert Disjoint(xs[k+1], xs[l+1]);
        }
      }
      ApartMultiplicity(xs[1..], d);
      assert d == xs[0] ==> d !in xs[1..] by {
        forall k | 0 <= k < |xs[1..]| ensures xs[1..][k] != xs[0] {
          assert Disjoint(xs[0], xs[k+1]);
        }
      }
    }
  }

  /** Each document of either stream is in exactly one entry of the result. */
  lemma EveryDocumentOnce(docsA: seq<Doc>, docsB: seq<Doc>, emptyIds: seq<string>, order: seq<YamlDiff>)
    requires FreshIds(docsA, docsB, emptyIds)
    requires multiset(order) == multiset(AllDiffs(docsA, docsB, emptyIds))
    ensures var out := Ordered(docsA, docsB, Chosen(order, {}));
      && (forall i :: 0 <= i < |docsA| ==> ExactlyOnce(out, true, docsA[i].id))
      && (forall j :: 0 <= j < |docsB| ==> ExactlyOnce(out, false, docsB[j].id))
  {
    var out := Ordered(docsA, docsB, Chosen(order, {}));
    OrderedIsRearranged(docsA, docsB, emptyIds, order);
    forall i | 0 <= i < |docsA| ensures ExactlyOnce(out, true, docsA[i].id) {
      ChosenCoverA(docsA, docsB, emptyIds, order, i);
      var d :| d in Chosen(order, {}) && d.idA == docsA[i].id;
      OnceInApart(out, Chosen(order, {}), true, d);
    }
    forall j | 0 <= j < |docsB| ensures ExactlyOnce(out, false, docsB[j].id) {
      ChosenCoverB(docsA, docsB, emptyIds, order, j);
      var d :| d in Chosen(order, {}) && d.idB == docsB[j].id;
      OnceInApart(out, Chosen(order, {}), false, d);
    }
  }

  lemma OnceInApart(out: seq<YamlDiff>, ds: seq<YamlDiff>, left: bool, d: YamlDiff)
    requires Apart(out) && multiset(out) == multiset(ds) && d in ds
    ensures ExactlyOnce(out, left, Id(d, left))
  {
    SameMembers(out, ds, d);
    var k :| 0 <= k < |out| && out[k] == d;
    forall l | 0 <= l < |out| && l != k ensures Id(out[l], left) != Id(d, left) {
      assert Disjoint(out[k], out[l]) || Disjoint(out[l], out[k]);
    }
  }

  // ---------- Same entries first ----------

  predicate SameFirst(order: seq<YamlDiff>) {
    forall k, l :: 0 <= k < l < |order| && order[l].d.status.Same? ==> order[k].d.status.Same?
  }

  /** A Same entry is dropped only for another Same entry. */
  lemma {:induction false} SameYieldsToSame(order: seq<YamlDiff>, checked: set<string>, e: YamlDiff)
    requires SameFirst(order) && e in order && e.d.status.Same?
    ensures Touches(e, checked) ||
      exists d :: d in Chosen(order, checked) && d.d.status.Same? && !Disjoint(d, e)
  {
    var x := order[0];
    if e != x {
      assert e in order[1..];
      assert SameFirst(order[1..]) by {
        forall k, l | 0 <= k < l < |order| - 1 && order[1..][l].d.status.Same?
          ensures order[1..][k].d.status.Same?
        {
          assert order[l+1].d.status.Same?;
        }
      }
      var y :| 0 <= y < |order| && order[y] == e;
      assert x.d.status.Same?;
      if Touches(x, checked) {
        SameYieldsToSame(order[1..], checked, e);
      } else {
        SameYieldsToSame(order[1..], checked + {x.idA, x.idB}, e);
        assert x in Chosen(order, checked);
        if d :| d in Chosen(order[1..], checked + {x.idA, x.idB}) && d.d.status.Same? && !Disjoint(d, e) {
          assert d in Chosen(order, checked);
        }
      }
    } else if !Touches(e, checked) {
      assert e in Chosen(order, checked);
    }
  }

  /** A Same entry that holds one of the two documents. */
  predicate EndsSame(d: YamlDiff, idA: string, idB: string) {
    d.d.status.Same? && (d.idA == idA || d.idB == idB)
  }

  /** The pairing is maximal on Same: of two documents that are the same as each other, at
      least one ends in a Same entry. */
  lemma SamePairsAreMaximal(
    docsA: seq<Doc>, docsB: seq<Doc>, emptyIds: seq<string>, order: seq<YamlDiff>, i: nat, j: nat)
    requires FreshIds(docsA, docsB, emptyIds) && SameFirst(order)
    requires multiset(order) == multiset(AllDiffs(docsA, docsB, emptyIds))
    requires i < |docsA| && j < |docsB| && IsSame(docsA[i].raw, docsB[j].raw)
    ensures exists d :: d in Ordered(docsA, docsB, Chosen(order, {})) && EndsSame(d, docsA[i].id, docsB[j].id)
  {
    var e := PairEntry(docsA[i], docsB[j]);
    CrossHolds(docsA, docsB, |docsA|, i, j);
    SameMembers(order, AllDiffs(docsA, docsB, emptyIds), e);
    SameYieldsToSame(order, {}, e);
    var d :| d in Chosen(order, {}) && d.d.status.Same? && !Disjoint(d, e);
    ChosenAreApart(order, {});
    SameMembers(order, AllDiffs(docsA, docsB, emptyIds), d);
    DocIdSide(docsA, docsB, emptyIds, d);
    OrderedIsRearranged(docsA, docsB, emptyIds, order);
    SameMembers(Ordered(docsA, docsB, Chosen(order, {})), Chosen(order, {}), d);
  }
}
