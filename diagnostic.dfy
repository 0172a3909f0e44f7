/** The count check that runs before assembly, and its best-effort list of
    submitted IDs that no returned match carries. */
module Diagnostic {
  import opened Wrappers
  import opened Results

  /** Consistent when the first level returned one list per submitted
      sequence; otherwise both counts and the IDs reported as unprocessed. */
  datatype Diagnosis = Consistent | Mismatch(submitted: nat, returned: nat, unprocessed: set<string>)

  /** Some match at one of the levels carries x under its "id" key. */
  ghost predicate Carried<D>(results: SearchResults<D>, levels: seq<string>, x: string) {
    exists l, a, b :: l in levels && l in results && 0 <= a < |results[l]| && 0 <= b < |results[l][a]|
      && results[l][a][b].id == Some(x)
  }

  /** The IDs carried by one list of matches. */
  function MatchIds<D>(ms: seq<Match<D>>): (ids: set<string>)
    ensures forall x :: x in ids <==> exists b :: 0 <= b < |ms| && ms[b].id == Some(x)
  {
    if |ms| == 0 then {}
    else
      var n := |ms| - 1;
      assert forall b :: 0 <= b < n ==> ms[..n][b] == ms[b];
      MatchIds(ms[..n]) + if ms[n].id.Some? then {ms[n].id.value} else {}
  }

  /** The IDs carried by a level's lists of matches. */
  function ListIds<D>(lists: seq<seq<Match<D>>>): (ids: set<string>)
    ensures forall x :: x in ids <==>
      exists a, b :: 0 <= a < |lists| && 0 <= b < |lists[a]| && lists[a][b].id == Some(x)
  {
    if |lists| == 0 then {}
    else
      var n := |lists| - 1;
      assert forall a :: 0 <= a < n ==> lists[..n][a] == lists[a];
      ListIds(lists[..n]) + MatchIds(lists[n])
  }

  /** `processed_ids`: the IDs carried by any match at any of the levels. */
  function LevelIds<D>(results: SearchResults<D>, levels: seq<string>): (ids: set<string>)
    requires forall l :: l in levels ==> l in results
    ensures forall x :: x in ids <==> Carried(results, levels, x)
  {
    if |levels| == 0 then {}
    else
      var n := |levels| - 1;
      assert forall l :: l in levels <==> l in levels[..n] || l == levels[n];
      LevelIds(results, levels[..n]) + ListIds(results[levels[n]])
  }

  /** The lookups of the check succeed: the first level is always read, and
      on a mismatch every level is. */
  predicate Checkable<D>(results: SearchResults<D>, levels: seq<string>, seqIds: seq<string>) {
    && |levels| > 0 && levels[0] in results
    && (|results[levels[0]]| != |seqIds| ==> forall l :: l in levels ==> l in results)
  }

  /** The diagnostic: the counts are compared on the first level only; on a
      mismatch an ID counts as unprocessed when it was submitted and no
      match at any level carries it. */
  function Diagnose<D>(results: SearchResults<D>, levels: seq<string>, seqIds: seq<string>): (r: Diagnosis)
    requires Checkable(results, levels, seqIds)
    ensures r.Mismatch? <==> |results[levels[0]]| != |seqIds|
    ensures r.Mismatch? ==> r.submitted == |seqIds| && r.returned == |results[levels[0]]|
    ensures r.Mismatch? ==> forall x :: x in r.unprocessed <==> x in seqIds && !Carried(results, levels, x)
  {
    if |results[levels[0]]| != |seqIds| then
      Mismatch(|seqIds|, |results[levels[0]]|, (set x | x in seqIds) - LevelIds(results, levels))
    else Consistent
  }

  /** The innermost loop: add the IDs of one list of matches. */
  method AddMatchIds<D>(processedIds: set<string>, resultList: seq<Match<D>>) returns (ids: set<string>)
    ensures ids == processedIds + MatchIds(resultList)
  {
    ids := processedIds;
    for b := 0 to |resultList|
      invariant ids == processedIds + MatchIds(resultList[..b])
    {
      assert resultList[..b + 1][..b] == resultList[..b];
      if resultList[b].id.Some? {
        ids := ids + {resultList[b].id.value};
      }
    }
    assert resultList[..|resultList|] == resultList;
  }

  /** The middle loop: add the IDs of a level's lists of matches. */
  method AddListIds<D>(processedIds: set<string>, lists: seq<seq<Match<D>>>) returns (ids: set<string>)
    ensures ids == processedIds + ListIds(lists)
  {
    ids := processedIds;
    for a := 0 to |lists|
      invariant ids == processedIds + ListIds(lists[..a])
    {
      assert lists[..a + 1][..a] == lists[..a];
      ids := AddMatchIds(ids, lists[a]);
    }
    assert lists[..|lists|] == lists;
  }

  /** The check of app.py: compare the counts and, on a mismatch, collect
      `processed_ids` over every level and take it away from the submitted IDs. */
  method CheckCounts<D>(results: SearchResults<D>, levels: seq<string>, seqIds: seq<string>)
    returns (diagnosis: Diagnosis)
    requires Checkable(results, levels, seqIds)
    ensures diagnosis == Diagnose(results, levels, seqIds)
  {
    var returned := |results[levels[0]]|;
    if returned == |seqIds| {
      return Consistent;
    }
    var processedIds: set<string> := {};
    for k := 0 to |levels|
      invariant processedIds == LevelIds(results, levels[..k])
    {
      assert levels[k] in levels;
      assert levels[..k + 1][..k] == levels[..k];
      processedIds := AddListIds(processedIds, results[levels[k]]);
    }
    assert levels[..|levels|] == levels;
    var unprocessedIds := (set x | x in seqIds) - processedIds;
    diagnosis := Mismatch(|seqIds|, returned, unprocessedIds);
  }
}
