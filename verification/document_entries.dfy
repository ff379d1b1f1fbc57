/** What the entries of a comparison compare, document by document. */
module DocumentEntries {
  import opened YamlValue
  import opened DiffSpec
  import opened DiffSemantics
  import opened Documents
  import opened DocumentMatching

  /** The entry sets document i of the first stream against document j of the second. */
  ghost predicate ComparesPair(d: YamlDiff, docsA: seq<Doc>, docsB: seq<Doc>, i: nat, j: nat) {
    && i < |docsA| && j < |docsB|
    && d.d == DiffOf(docsA[i].raw, docsB[j].raw, 0) && d.idA == docsA[i].id && d.idB == docsB[j].id
  }

  /** ... document i of the first stream against nothing. */
  ghost predicate ComparesFirst(d: YamlDiff, docsA: seq<Doc>, emptyIds: seq<string>, i: nat) {
    && i < |docsA| && i < |emptyIds|
    && d.d == DiffOf(docsA[i].raw, Null, 0) && d.idA == docsA[i].id && d.idB == emptyIds[i]
  }

  /** ... nothing against document j of the second stream. */
  ghost predicate ComparesSecond(d: YamlDiff, docsA: seq<Doc>, docsB: seq<Doc>, emptyIds: seq<string>, j: nat) {
    && j < |docsB| && |docsA| + j < |emptyIds|
    && d.d == DiffOf(Null, docsB[j].raw, 0) && d.idA == emptyIds[|docsA| + j] && d.idB == docsB[j].id
  }

  ghost predicate Compares(d: YamlDiff, docsA: seq<Doc>, docsB: seq<Doc>, emptyIds: seq<string>) {
    || (exists i: nat, j: nat :: ComparesPair(d, docsA, docsB, i, j))
    || (exists i: nat :: ComparesFirst(d, docsA, emptyIds, i))
    || (exists j: nat :: ComparesSecond(d, docsA, docsB, emptyIds, j))
  }

  /** The entries are exactly these: every pair, and every document against nothing. */
  lemma EntriesIff(docsA: seq<Doc>, docsB: seq<Doc>, emptyIds: seq<string>, d: YamlDiff)
    requires |emptyIds| == |docsA| + |docsB|
    ensures d in AllDiffs(docsA, docsB, emptyIds) <==> Compares(d, docsA, docsB, emptyIds)
  {
    if d in AllDiffs(docsA, docsB, emptyIds) {
      EntryCompares(docsA, docsB, emptyIds, d);
    }
    if i: nat, j: nat :| ComparesPair(d, docsA, docsB, i, j) {
      PairIsEntry(docsA, docsB, emptyIds, d, i, j);
    }
    if i: nat :| ComparesFirst(d, docsA, emptyIds, i) {
      FirstIsEntry(docsA, docsB, emptyIds, d, i);
    }
    if j: nat :| ComparesSecond(d, docsA, docsB, emptyIds, j) {
      SecondIsEntry(docsA, docsB, emptyIds, d, j);
    }
  }

  lemma PairIsEntry(docsA: seq<Doc>, docsB: seq<Doc>, emptyIds: seq<string>, d: YamlDiff, i: nat, j: nat)
    requires |emptyIds| == |docsA| + |docsB| && ComparesPair(d, docsA, docsB, i, j)
    ensures d in AllDiffs(docsA, docsB, emptyIds)
  {
    CrossHolds(docsA, docsB, |docsA|, i, j);
    assert d == PairEntry(docsA[i], docsB[j]);
  }

  lemma FirstIsEntry(docsA: seq<Doc>, docsB: seq<Doc>, emptyIds: seq<string>, d: YamlDiff, i: nat)
    requires |emptyIds| == |docsA| + |docsB| && ComparesFirst(d, docsA, emptyIds, i)
    ensures d in AllDiffs(docsA, docsB, emptyIds)
  {
    assert d == AloneA(docsA[i], emptyIds[i]);
    AloneHolds(docsA, docsB, emptyIds, |emptyIds|, i, d);
  }

  lemma SecondIsEntry(docsA: seq<Doc>, docsB: seq<Doc>, emptyIds: seq<string>, d: YamlDiff, j: nat)
    requires |emptyIds| == |docsA| + |docsB| && ComparesSecond(d, docsA, docsB, emptyIds, j)
    ensures d in AllDiffs(docsA, docsB, emptyIds)
  {
    assert d == AloneB(docsB[j], emptyIds[|docsA| + j]);
    AloneHolds(docsA, docsB, emptyIds, |emptyIds|, |docsA| + j, d);
  }

  lemma EntryCompares(docsA: seq<Doc>, docsB: seq<Doc>, emptyIds: seq<string>, d: YamlDiff)
    requires |emptyIds| == |docsA| + |docsB| && d in AllDiffs(docsA, docsB, emptyIds)
    ensures Compares(d, docsA, docsB, emptyIds)
  {
    if d in Cross(docsA, docsB, |docsA|) {
      var i, j := CrossEntry(docsA, docsB, |docsA|, d);
      assert ComparesPair(d, docsA, docsB, i, j);
    } else {
      var k := AloneEntry(docsA, docsB, emptyIds, |emptyIds|, d);
      if k < |docsA| {
        assert ComparesFirst(d, docsA, emptyIds, k);
      } else {
        assert ComparesSecond(d, docsA, docsB, emptyIds, k - |docsA|);
      }
    }
  }

  lemma {:induction false} RowLength(a: Doc, docsB: seq<Doc>, n: nat)
    requires n <= |docsB|
    ensures |Row(a, docsB, n)| == n
  {
    if n > 0 {
      RowLength(a, docsB, n - 1);
    }
  }

  lemma {:induction false} CrossLength(docsA: seq<Doc>, docsB: seq<Doc>, n: nat)
    requires n <= |docsA|
    ensures |Cross(docsA, docsB, n)| == n * |docsB|
  {
    if n > 0 {
      CrossLength(docsA, docsB, n - 1);
      RowLength(docsA[n-1], docsB, |docsB|);
      OneRowMore(n, |docsB|);
    }
  }

  lemma OneRowMore(n: nat, m: nat)
    ensures n * m == (n - 1) * m + m
  {}

  lemma {:induction false} AloneLength(docsA: seq<Doc>, docsB: seq<Doc>, emptyIds: seq<string>, n: nat)
    requires n <= |docsA| + |docsB| == |emptyIds|
    ensures |Alone(docsA, docsB, emptyIds, n)| == n
  {
    if n > 0 {
      AloneLength(docsA, docsB, emptyIds, n - 1);
    }
  }

  /** As many as there are pairs and documents. */
  lemma EntriesCounted(docsA: seq<Doc>, docsB: seq<Doc>, emptyIds: seq<string>)
    requires |emptyIds| == |docsA| + |docsB|
    ensures |AllDiffs(docsA, docsB, emptyIds)| == |docsA| * |docsB| + |docsA| + |docsB|
  {
    CrossLength(docsA, docsB, |docsA|);
    AloneLength(docsA, docsB, emptyIds, |emptyIds|);
  }

  /** The id is no document's of this stream. */
  predicate NamesNone(docs: seq<Doc>, id: string) {
    forall i :: 0 <= i < |docs| ==> docs[i].id != id
  }

  /** Whatever the sort did: every entry of the result is the comparison of the documents that
      its ids name, or of one of them against nothing. */
  lemma ResultCompares(docsA: seq<Doc>, docsB: seq<Doc>, emptyIds: seq<string>, order: seq<YamlDiff>, d: YamlDiff)
    requires FreshIds(docsA, docsB, emptyIds)
    requires multiset(order) == multiset(AllDiffs(docsA, docsB, emptyIds))
    requires d in Ordered(docsA, docsB, Chosen(order, {}))
    ensures Compares(d, docsA, docsB, emptyIds)
    ensures forall i, j :: 0 <= i < |docsA| && 0 <= j < |docsB| && d.idA == docsA[i].id && d.idB == docsB[j].id ==>
      d.d == DiffOf(docsA[i].raw, docsB[j].raw, 0)
    ensures forall i :: 0 <= i < |docsA| && d.idA == docsA[i].id && NamesNone(docsB, d.idB) ==>
      d.d == DiffOf(docsA[i].raw, Null, 0)
    ensures forall j :: 0 <= j < |docsB| && d.idB == docsB[j].id && NamesNone(docsA, d.idA) ==>
      d.d == DiffOf(Null, docsB[j].raw, 0)
  {
    OrderedIsRearranged(docsA, docsB, emptyIds, order);
    SameMembers(Ordered(docsA, docsB, Chosen(order, {})), Chosen(order, {}), d);
    ChosenAreApart(order, {});
    SameMembers(order, AllDiffs(docsA, docsB, emptyIds), d);
    EntriesIff(docsA, docsB, emptyIds, d);
  }

  // ---------- which entries are kept ----------

  /** The filter goes by the order it is given: an entry is kept exactly when none of those kept
      before it names one of its documents. */
  lemma {:induction false} ChosenStepByStep(order: seq<YamlDiff>, checked: set<string>, e: YamlDiff)
    ensures var taken := checked + Ids(Chosen(order, checked));
      Chosen(order + [e], checked) ==
        Chosen(order, checked) + if e.idA in taken || e.idB in taken then [] else [e]
  {
    if order == [] {
      assert [] + [e] == [e] && [e][1..] == [];
    } else {
      assert (order + [e])[1..] == order[1..] + [e] && (order + [e])[0] == order[0];
      if order[0].idA in checked || order[0].idB in checked {
        ChosenStepByStep(order[1..], checked, e);
      } else {
        var now := checked + {order[0].idA, order[0].idB};
        ChosenStepByStep(order[1..], now, e);
        assert checked + Ids(Chosen(order, checked)) == now + Ids(Chosen(order[1..], now));
      }
    }
  }
}
