/** Comparing two streams of documents: every pair is compared, a cheapest-first filter
    keeps entries whose documents are still free, and the rest is put back in order. */
module Documents {
  import opened YamlValue
  import opened DiffSpec
  import opened Differ

  datatype Doc = Doc(raw: Value, id: string)

  datatype YamlDiff = YamlDiff(d: Diff, idA: string, idB: string)

  ghost function PairEntry(a: Doc, b: Doc): YamlDiff {
    YamlDiff(DiffOf(a.raw, b.raw, 0), a.id, b.id)
  }

  /** A document set against nothing, under a made-up partner id. */
  ghost function AloneA(a: Doc, emptyId: string): YamlDiff {
    YamlDiff(DiffOf(a.raw, Null, 0), a.id, emptyId)
  }

  ghost function AloneB(b: Doc, emptyId: string): YamlDiff {
    YamlDiff(DiffOf(Null, b.raw, 0), emptyId, b.id)
  }

  ghost function Row(a: Doc, docsB: seq<Doc>, n: nat): seq<YamlDiff>
    requires n <= |docsB|
  {
    if n == 0 then [] else Row(a, docsB, n - 1) + [PairEntry(a, docsB[n-1])]
  }

  ghost function Cross(docsA: seq<Doc>, docsB: seq<Doc>, n: nat): seq<YamlDiff>
    requires n <= |docsA|
  {
    if n == 0 then [] else Cross(docsA, docsB, n - 1) + Row(docsA[n-1], docsB, |docsB|)
  }

  ghost function Alone(docsA: seq<Doc>, docsB: seq<Doc>, emptyIds: seq<string>, n: nat): seq<YamlDiff>
    requires n <= |docsA| + |docsB| == |emptyIds|
  {
    if n == 0 then []
    else
      Alone(docsA, docsB, emptyIds, n - 1) +
      [if n - 1 < |docsA| then AloneA(docsA[n-1], emptyIds[n-1]) else AloneB(docsB[n-1-|docsA|], emptyIds[n-1])]
  }

  lemma AloneStep(docsA: seq<Doc>, docsB: seq<Doc>, emptyIds: seq<string>, j: nat)
    requires j < |docsB| && |docsA| + |docsB| == |emptyIds|
    ensures Alone(docsA, docsB, emptyIds, |docsA| + j + 1) ==
      Alone(docsA, docsB, emptyIds, |docsA| + j) + [AloneB(docsB[j], emptyIds[|docsA| + j])]
  {}

  lemma {:induction false} AloneSplits(
    docsA: seq<Doc>, docsB: seq<Doc>, emptyIds: seq<string>, rest: seq<YamlDiff>, n: nat)
    requires n <= |rest| == |docsB| && |docsA| + |docsB| == |emptyIds|
    requires forall x :: 0 <= x < |rest| ==> rest[x] == AloneB(docsB[x], emptyIds[|docsA| + x])
    ensures Alone(docsA, docsB, emptyIds, |docsA| + n) == Alone(docsA, docsB, emptyIds, |docsA|) + rest[..n]
  {
    if n > 0 {
      AloneSplits(docsA, docsB, emptyIds, rest, n - 1);
      AloneStep(docsA, docsB, emptyIds, n - 1);
      var head, last := Alone(docsA, docsB, emptyIds, |docsA|), [rest[n-1]];
      assert (head + rest[..n-1]) + last == head + (rest[..n-1] + last);
      assert rest[..n] == rest[..n-1] + last;
    } else {
      assert rest[..0] == [];
    }
  }

  /** Everything that performAllDiff produces. */
  ghost function AllDiffs(docsA: seq<Doc>, docsB: seq<Doc>, emptyIds: seq<string>): seq<YamlDiff>
    requires |docsA| + |docsB| == |emptyIds|
  {
    Cross(docsA, docsB, |docsA|) + Alone(docsA, docsB, emptyIds, |emptyIds|)
  }

  /** The filter: keep an entry unless one of its documents is already taken. */
  function Chosen(order: seq<YamlDiff>, checked: set<string>): seq<YamlDiff> {
    if order == [] then []
    else if order[0].idA in checked || order[0].idB in checked then Chosen(order[1..], checked)
    else [order[0]] + Chosen(order[1..], checked + {order[0].idA, order[0].idB})
  }

  function Id(d: YamlDiff, left: bool): string {
    if left then d.idA else d.idB
  }

  function Ids(ds: seq<YamlDiff>): set<string> {
    if ds == [] then {} else {ds[0].idA, ds[0].idB} + Ids(ds[1..])
  }

  /** The entries that name document `id` on the given side and are still unchecked;
      taking one checks it, so there is at most one. */
  function Scan(ds: seq<YamlDiff>, left: bool, id: string, checked: set<string>): seq<YamlDiff> {
    if ds == [] then []
    else if Id(ds[0], left) == id && ds[0].idA !in checked && ds[0].idB !in checked then
      [ds[0]] + Scan(ds[1..], left, id, checked + {ds[0].idA, ds[0].idB})
    else Scan(ds[1..], left, id, checked)
  }

  function Collect(docs: seq<Doc>, ds: seq<YamlDiff>, left: bool, checked: set<string>): seq<YamlDiff> {
    if docs == [] then []
    else
      var hit := Scan(ds, left, docs[0].id, checked);
      hit + Collect(docs[1..], ds, left, checked + Ids(hit))
  }

  function Ordered(docsA: seq<Doc>, docsB: seq<Doc>, ds: seq<YamlDiff>): seq<YamlDiff> {
    var first := Collect(docsA, ds, true, {});
    first + Collect(docsB, ds, false, Ids(first))
  }

  lemma IdsOfConcat(xs: seq<YamlDiff>, ys: seq<YamlDiff>)
    ensures Ids(xs + ys) == Ids(xs) + Ids(ys)
  {
    if xs == [] {
      assert xs + ys == ys;
    } else {
      assert (xs + ys)[1..] == xs[1..] + ys;
    }
  }

  lemma IdsMember(ds: seq<YamlDiff>, id: string)
    ensures id in Ids(ds) <==> exists d :: d in ds && (d.idA == id || d.idB == id)
  {
    if ds != [] {
      IdsMember(ds[1..], id);
      assert forall d :: d in ds <==> d == ds[0] || d in ds[1..];
    }
  }

  lemma CollectStep(docs: seq<Doc>, i: nat, ds: seq<YamlDiff>, left: bool, result: seq<YamlDiff>, checked: set<string>)
    requires i < |docs|
    ensures var hit := Scan(ds, left, docs[i].id, checked);
      var rest := Collect(docs[i+1..], ds, left, checked + Ids(hit));
      && (result + hit) + rest == result + Collect(docs[i..], ds, left, checked)
      && (checked + Ids(hit)) + Ids(rest) == checked + Ids(Collect(docs[i..], ds, left, checked))
  {
    var hit := Scan(ds, left, docs[i].id, checked);
    assert docs[i..][1..] == docs[i+1..];
    IdsOfConcat(hit, Collect(docs[i+1..], ds, left, checked + Ids(hit)));
  }

  // ---------- the runner ----------

  predicate Comparable(a: Value, b: Value) {
    Decoded(a) && Decoded(b) && Fits(a, b)
  }

  /** What the loader hands over: decoded documents whose sizes stay below the sentinel. */
  predicate Loaded(docsA: seq<Doc>, docsB: seq<Doc>) {
    && (forall i :: 0 <= i < |docsA| ==> Comparable(docsA[i].raw, Null))
    && (forall j :: 0 <= j < |docsB| ==> Comparable(Null, docsB[j].raw))
    && (forall i, j :: 0 <= i < |docsA| && 0 <= j < |docsB| ==> Comparable(docsA[i].raw, docsB[j].raw))
  }

  method AgainstEachOther(a: Doc, b: Doc) returns (entry: YamlDiff)
    requires Comparable(a.raw, b.raw)
    ensures entry == PairEntry(a, b)
  {
    var d := PerformDiff(a.raw, b.raw, 0);
    entry := YamlDiff(d, a.id, b.id);
  }

  method AgainstNothing(a: Doc, emptyId: string) returns (entry: YamlDiff)
    requires Comparable(a.raw, Null)
    ensures entry == AloneA(a, emptyId)
  {
    var d := PerformDiff(a.raw, Null, 0);
    entry := YamlDiff(d, a.id, emptyId);
  }

  method NothingAgainst(b: Doc, emptyId: string) returns (entry: YamlDiff)
    requires Comparable(Null, b.raw)
    ensures entry == AloneB(b, emptyId)
  {
    var d := PerformDiff(Null, b.raw, 0);
    entry := YamlDiff(d, emptyId, b.id);
  }

  class Runner {
    const rawA: seq<Doc>
    const rawB: seq<Doc>
    var diffs: seq<YamlDiff>

    constructor (rawA: seq<Doc>, rawB: seq<Doc>)
      ensures this.rawA == rawA && this.rawB == rawB && diffs == []
    {
      this.rawA, this.rawB, this.diffs := rawA, rawB, [];
    }

    method PerformAllDiff(emptyIds: seq<string>)
      requires Loaded(rawA, rawB) && |emptyIds| == |rawA| + |rawB|
      modifies this
      ensures diffs == AllDiffs(rawA, rawB, emptyIds)
    {
      var cross := ComparePairs();
      var alone := CompareAlone(emptyIds);
      diffs := cross + alone;
    }

    method CompareFirst(emptyIds: seq<string>) returns (all: seq<YamlDiff>)
      requires Loaded(rawA, rawB) && |emptyIds| == |rawA| + |rawB|
      ensures all == Alone(rawA, rawB, emptyIds, |rawA|)
    {
      all := [];
      for i := 0 to |rawA|
        invariant all == Alone(rawA, rawB, emptyIds, i)
      {
        var d := AgainstNothing(rawA[i], emptyIds[i]);
        all := all + [d];
      }
    }

    method CompareSecond(emptyIds: seq<string>) returns (rest: seq<YamlDiff>)
      requires Loaded(rawA, rawB) && |emptyIds| == |rawA| + |rawB|
      ensures |rest| == |rawB| && forall x :: 0 <= x < |rest| ==> rest[x] == AloneB(rawB[x], emptyIds[|rawA| + x])
    {
      rest := [];
      for j := 0 to |rawB|
        invariant |rest| == j
        invariant forall x :: 0 <= x < j ==> rest[x] == AloneB(rawB[x], emptyIds[|rawA| + x])
      {
        var d := NothingAgainst(rawB[j], emptyIds[|rawA| + j]);
        rest := rest + [d];
      }
    }

    /** Every document against nothing: first the first stream, then the second. */
    method CompareAlone(emptyIds: seq<string>) returns (all: seq<YamlDiff>)
      requires Loaded(rawA, rawB) && |emptyIds| == |rawA| + |rawB|
      ensures all == Alone(rawA, rawB, emptyIds, |emptyIds|)
    {
      all := CompareFirst(emptyIds);
      var rest := CompareSecond(emptyIds);
      AloneSplits(rawA, rawB, emptyIds, rest, |rawB|);
      assert rest[..|rawB|] == rest;
      all := all + rest;
    }

    /** Every document of the first stream against every one of the second. */
    method ComparePairs() returns (all: seq<YamlDiff>)
      requires Loaded(rawA, rawB)
      ensures all == Cross(rawA, rawB, |rawA|)
    {
      all := [];
      for i := 0 to |rawA|
        invariant all == Cross(rawA, rawB, i)
      {
        var row := CompareRow(i);
        all := all + row;
      }
    }

    method CompareRow(i: nat) returns (row: seq<YamlDiff>)
      requires i < |rawA| && Loaded(rawA, rawB)
      ensures row == Row(rawA[i], rawB, |rawB|)
    {
      row := [];
      for j := 0 to |rawB|
        invariant row == Row(rawA[i], rawB, j)
      {
        var d := AgainstEachOther(rawA[i], rawB[j]);
        row := row + [d];
      }
    }

    /** `order` is what the library sort made of the entries: any permutation of them. */
    method FindMinimumDiffs(order: seq<YamlDiff>)
      requires multiset(order) == multiset(diffs)
      modifies this
      ensures diffs == Chosen(order, {})
    {
      var result: seq<YamlDiff> := [];
      var checked: set<string> := {};
      for k := 0 to |order|
        invariant result + Chosen(order[k..], checked) == Chosen(order, {})
      {
        var d := order[k];
        assert order[k..][1..] == order[k+1..];
        if d.idA in checked || d.idB in checked {
          continue;
        }
        result := result + [d];
        checked := checked + {d.idA, d.idB};
      }
      diffs := result;
    }

    method SortResult()
      modifies this
      ensures diffs == Ordered(rawA, rawB, old(diffs))
    {
      var result, checked := CollectInOrder(rawA, true, [], {});
      assert [] + Collect(rawA, diffs, true, {}) == Collect(rawA, diffs, true, {});
      assert {} + Ids(result) == Ids(result);
      result, checked := CollectInOrder(rawB, false, result, checked);
      diffs := result;
    }

    /** One of the two passes of the reordering: document by document, entry by entry. */
    method CollectInOrder(docs: seq<Doc>, left: bool, result0: seq<YamlDiff>, checked0: set<string>)
      returns (result: seq<YamlDiff>, checked: set<string>)
      ensures result == result0 + Collect(docs, diffs, left, checked0)
      ensures checked == checked0 + Ids(Collect(docs, diffs, left, checked0))
    {
      result, checked := result0, checked0;
      for i := 0 to |docs|
        invariant result + Collect(docs[i..], diffs, left, checked) == result0 + Collect(docs, diffs, left, checked0)
        invariant checked + Ids(Collect(docs[i..], diffs, left, checked)) ==
          checked0 + Ids(Collect(docs, diffs, left, checked0))
      {
        CollectStep(docs, i, diffs, left, result, checked);
        result, checked := ScanEntries(docs[i].id, left, result, checked);
      }
    }

    method ScanEntries(id: string, left: bool, result0: seq<YamlDiff>, checked0: set<string>)
      returns (result: seq<YamlDiff>, checked: set<string>)
      ensures result == result0 + Scan(diffs, left, id, checked0)
      ensures checked == checked0 + Ids(Scan(diffs, left, id, checked0))
    {
      result, checked := result0, checked0;
      for k := 0 to |diffs|
        invariant result + Scan(diffs[k..], left, id, checked) == result0 + Scan(diffs, left, id, checked0)
        invariant checked + Ids(Scan(diffs[k..], left, id, checked)) == checked0 + Ids(Scan(diffs, left, id, checked0))
      {
        var d := diffs[k];
        assert diffs[k..][1..] == diffs[k+1..];
        if (if left then d.idA else d.idB) != id {
          continue;
        }
        if d.idA in checked || d.idB in checked {
          continue;
        }
        ghost var tail := Scan(diffs[k+1..], left, id, checked + {d.idA, d.idB});
        assert ([d] + tail)[1..] == tail;
        result := result + [d];
        checked := checked + {d.idA, d.idB};
      }
    }
  }

  /** The whole comparison, for any sort that permutes. */
  method Do(rawA: seq<Doc>, rawB: seq<Doc>, emptyIds: seq<string>, sort: seq<YamlDiff> -> seq<YamlDiff>)
    returns (result: seq<YamlDiff>)
    requires Loaded(rawA, rawB) && |emptyIds| == |rawA| + |rawB|
    requires forall ds :: multiset(sort(ds)) == multiset(ds)
    ensures result == Ordered(rawA, rawB, Chosen(sort(AllDiffs(rawA, rawB, emptyIds)), {}))
  {
    var r := new Runner(rawA, rawB);
    r.PerformAllDiff(emptyIds);
    r.FindMinimumDiffs(sort(r.diffs));
    r.SortResult();
    result := r.diffs;
  }
}
