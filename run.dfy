/** What the "Run TaxoTagger" button does with the engine's answer: the
    count check first, then assembly, which goes ahead after a mismatch. */
module Run {
  import opened Dicts
  import opened Results
  import opened Assembly
  import opened Diagnostic

  method ProcessResults<D>(results: SearchResults<D>, levels: seq<string>, seqIds: seq<string>, topN: nat)
    returns (diagnosis: Diagnosis, resultsBySeq: Dict<string, seq<Record<D>>>)
    requires Checkable(results, levels, seqIds)
    requires TableReadable(results, levels, |seqIds|, topN)
    ensures diagnosis == Diagnose(results, levels, seqIds)
    ensures resultsBySeq == Assembled(results, levels, seqIds, topN)
  {
    diagnosis := CheckCounts(results, levels, seqIds);
    resultsBySeq := AssembleResults(results, levels, seqIds, topN);
  }
}
