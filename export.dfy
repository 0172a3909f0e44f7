/** The flat list of all records offered for download (`combined_results`). */
module Export {
  import opened Dicts
  import opened Results
  import opened Assembly

  /** The lists of the given keys, one after the other. */
  function Flattened<R>(keys: seq<string>, entries: map<string, seq<R>>): seq<R>
    requires forall k :: k in keys ==> k in entries
  {
    if |keys| == 0 then []
    else
      var n := |keys| - 1;
      assert forall k :: k in keys[..n] ==> k in keys;
      Flattened(keys[..n], entries) + entries[keys[n]]
  }

  /** `combined_results.extend(results_by_seq[seq_id])` for each key in dict order. */
  method CombineResults<R>(resultsBySeq: Dict<string, seq<R>>) returns (combinedResults: seq<R>)
    requires resultsBySeq.Valid()
    ensures combinedResults == Flattened(resultsBySeq.keys, resultsBySeq.entries)
  {
    var keys := resultsBySeq.keys;
    combinedResults := [];
    for k := 0 to |keys|
      invariant combinedResults == Flattened(keys[..k], resultsBySeq.entries)
    {
      assert keys[k] in keys;
      assert keys[..k + 1][..k] == keys[..k];
      combinedResults := combinedResults + resultsBySeq.entries[keys[k]];
    }
    assert keys[..|keys|] == keys;
  }

  /** The place of item j of the list at position a when every list holds n
      items. */
  function Position(a: nat, n: nat, j: nat): nat {
    a * n + j
  }

  lemma MulStep(a: nat, m: nat, n: nat)
    requires a < m
    ensures a * n + n <= m * n
  {
    assert (m - a) * n >= n by {
      assert m - a >= 1;
    }
  }

  /** When every list holds n items, the flat list holds |keys| * n items. */
  lemma {:induction false} FlattenedLength<R>(keys: seq<string>, entries: map<string, seq<R>>, n: nat)
    requires forall k :: k in keys ==> k in entries && |entries[k]| == n
    ensures |Flattened(keys, entries)| == |keys| * n
  {
    if |keys| > 0 {
      var m := |keys| - 1;
      FlattenedLength(keys[..m], entries, n);
      assert |keys| * n == m * n + n;
    }
  }

  /** When every list holds n items, item j of the list of the key at
      position a sits at position a * n + j of the flat list. */
  lemma {:induction false} FlattenedAt<R>(keys: seq<string>, entries: map<string, seq<R>>, n: nat, a: nat, j: nat)
    requires forall k :: k in keys ==> k in entries && |entries[k]| == n
    requires a < |keys| && j < n
    ensures a * n + j < |Flattened(keys, entries)|
    ensures Flattened(keys, entries)[a * n + j] == entries[keys[a]][j]
  {
    var m := |keys| - 1;
    var init := keys[..m];
    FlattenedLength(init, entries, n);
    if a < m {
      FlattenedAt(init, entries, n, a, j);
      MulStep(a, m, n);
    }
  }

  /** The layout of a flattened dict whose lists all hold n items. */
  lemma DictLayout<R>(d: Dict<string, seq<R>>, ids: seq<string>, n: nat, a: nat, j: nat)
    requires d.keys == ids
    requires forall k :: k in d.keys ==> k in d.entries && |d.entries[k]| == n
    requires a < |ids| && j < n
    ensures |Flattened(d.keys, d.entries)| == |ids| * n
    ensures Position(a, n, j) < |Flattened(d.keys, d.entries)|
    ensures Flattened(d.keys, d.entries)[Position(a, n, j)] == d.entries[ids[a]][j]
  {
    FlattenedLength(d.keys, d.entries, n);
    FlattenedAt(d.keys, d.entries, n, a, j);
  }

  /** `combined_results` for the records assembled from the search results. */
  function Download<D>(results: SearchResults<D>, levels: seq<string>, seqIds: seq<string>, topN: nat)
    : seq<Record<D>>
    requires TableReadable(results, levels, |seqIds|, topN)
  {
    var d := Assembled(results, levels, seqIds, topN);
    Flattened(d.keys, d.entries)
  }

  /** The download list of an assembly with distinct IDs holds
      |seqIds| * topN records; record j of the ID at position a sits at
      position a * topN + j, so each ID's records stand together, in
      submission order and in rank order within. */
  lemma ExportOfAssembly<D>(results: SearchResults<D>, levels: seq<string>, seqIds: seq<string>, topN: nat,
                            a: nat, j: nat)
    requires TableReadable(results, levels, |seqIds|, topN)
    requires Distinct(seqIds)
    requires a < |seqIds| && j < topN
    ensures |Download(results, levels, seqIds, topN)| == |seqIds| * topN
    ensures var dl, k := Download(results, levels, seqIds, topN), Position(a, topN, j);
      k < |dl| && dl[k] == RecordAt(results, levels, seqIds[a], a, j)
  {
    var d := Assembled(results, levels, seqIds, topN);
    AssembledOrder(results, levels, seqIds, topN);
    AssembledRanked(results, levels, seqIds, topN);
    AssembledLists(results, levels, seqIds, topN, a);
    DictLayout(d, seqIds, topN, a, j);
  }
}
