/** Reshaping the engine's nested results into `top_n` records per submitted
    sequence ID (the `results_by_seq` loops of app.py). */
module Assembly {
  import opened Wrappers
  import opened Dicts
  import opened Results

  /** Slot (i, j) of `level` can be read as the assembly reads it: the level
      is a key of the results, and a match there with a non-empty label
      carries the "id" key that the assembly then reads. */
  predicate Readable<D>(results: SearchResults<D>, level: string, i: nat, j: nat) {
    && level in results
    && var slot := Slot(results, level, i, j);
       slot.Some? && LabelOf(slot.value, level) != "" ==> slot.value.id.Some?
  }

  /** Slot (i, j) can be read at every level. */
  predicate SlotReadable<D>(results: SearchResults<D>, levels: seq<string>, i: nat, j: nat) {
    forall l :: l in levels ==> Readable(results, l, i, j)
  }

  /** Ranks 1 to n of the sequence at position i can be read. */
  predicate RowReadable<D>(results: SearchResults<D>, levels: seq<string>, i: nat, n: nat) {
    forall j :: 0 <= j < n ==> SlotReadable(results, levels, i, j)
  }

  /** Every slot the assembly reads can be read: ranks 1 to topN of the
      sequences at positions 0 to rows - 1, at every level. */
  predicate TableReadable<D>(results: SearchResults<D>, levels: seq<string>, rows: nat, topN: nat) {
    forall i, j :: 0 <= i < rows && 0 <= j < topN ==> SlotReadable(results, levels, i, j)
  }

  /** The capitalised level names, in level order. */
  function Caps(levels: seq<string>): seq<string> {
    seq(|levels|, k requires 0 <= k < |levels| => Capitalize(levels[k]))
  }

  /** One more level adds its capitalised name at the end. */
  lemma CapsLast(levels: seq<string>)
    requires |levels| > 0
    ensures Caps(levels) == Caps(levels[..|levels| - 1]) + [Capitalize(levels[|levels| - 1])]
    ensures Caps(levels)[..|levels| - 1] == Caps(levels[..|levels| - 1])
  {
  }

  /** A column that belongs to one of the given capitalised level names. */
  predicate Owned(c: Column, caps: seq<string>) {
    (c.Label? || c.Hit? || c.Similarity?) && c.cap in caps
  }

  /** The writes of one iteration of the innermost loop, for `level` and the
      slot results[level][i][j]. */
  function WriteLevel<D>(rec: Record<D>, slot: Option<Match<D>>, level: string): (r: Record<D>)
    requires slot.Some? && LabelOf(slot.value, level) != "" ==> slot.value.id.Some?
    ensures rec.Valid() ==> r.Valid()
    ensures rec.keys <= r.keys
    ensures forall c :: !Owned(c, [Capitalize(level)]) ==>
      (c in r.entries <==> c in rec.entries) && (c in rec.entries ==> r.entries[c] == rec.entries[c])
    ensures forall c :: c in r.entries ==> c in rec.entries || Owned(c, [Capitalize(level)])
  {
    var cap := Capitalize(level);
    match slot
    case None => rec.Put(Label(cap), Text(NoMatchFound))
    case Some(m) =>
      var value := LabelOf(m, level);
      if value != "" then
        rec.Put(Label(cap), Text(value)).Put(Hit(cap), Text(m.id.value)).Put(Similarity(cap), Score(m.distance))
      else
        rec.Put(Label(cap), Text("")).Put(Hit(cap), Text("")).Put(Similarity(cap), Text(""))
  }

  /** The record after the loop over `levels` has run on it. */
  function FillLevels<D>(results: SearchResults<D>, levels: seq<string>, i: nat, j: nat, rec: Record<D>)
    : (r: Record<D>)
    requires SlotReadable(results, levels, i, j)
    ensures rec.Valid() ==> r.Valid()
    ensures rec.keys <= r.keys
    ensures forall c :: !Owned(c, Caps(levels)) ==>
      (c in r.entries <==> c in rec.entries) && (c in rec.entries ==> r.entries[c] == rec.entries[c])
    ensures forall c :: c in r.entries ==> c in rec.entries || Owned(c, Caps(levels))
    decreases |levels|
  {
    if |levels| == 0 then rec
    else
      var n := |levels| - 1;
      assert levels[n] in levels;
      assert forall l :: l in levels[..n] ==> l in levels;
      CapsLast(levels);
      WriteLevel(FillLevels(results, levels[..n], i, j, rec), Slot(results, levels[n], i, j), levels[n])
  }

  /** The record before the loop over the levels: Sequence_ID, then Rank. */
  function Base<D>(seqId: string, j: nat): (r: Record<D>)
    ensures r.Valid()
    ensures r.keys == [SequenceId, Rank]
    ensures r.entries.Keys == {SequenceId, Rank}
    ensures r.entries[SequenceId] == Text(seqId) && r.entries[Rank] == Number(j + 1)
  {
    Empty().Put(SequenceId, Text(seqId)).Put(Rank, Number(j + 1))
  }

  /** A prefix one longer is the prefix and the next element. */
  lemma PrefixStep<T>(s: seq<T>, k: nat)
    requires k < |s|
    ensures s[..k + 1] == s[..k] + [s[k]]
  {
  }

  /** One more level runs one more level's writes. */
  lemma FillLevelsStep<D>(results: SearchResults<D>, init: seq<string>, level: string, i: nat, j: nat, rec: Record<D>)
    requires SlotReadable(results, init, i, j) && Readable(results, level, i, j)
    ensures SlotReadable(results, init + [level], i, j)
    ensures FillLevels(results, init + [level], i, j, rec)
         == WriteLevel(FillLevels(results, init, i, j, rec), Slot(results, level, i, j), level)
  {
    assert (init + [level])[..|init|] == init;
  }

  /** The record of rank j + 1 for the sequence at position i: Sequence_ID and
      Rank first, then each level's columns. */
  function RecordAt<D>(results: SearchResults<D>, levels: seq<string>, seqId: string, i: nat, j: nat)
    : (r: Record<D>)
    requires SlotReadable(results, levels, i, j)
    ensures r.Valid()
    ensures |r.keys| >= 2 && r.keys[0] == SequenceId && r.keys[1] == Rank
    ensures SequenceId in r.entries && r.entries[SequenceId] == Text(seqId)
    ensures Rank in r.entries && r.entries[Rank] == Number(j + 1)
    ensures forall c :: c in r.entries ==> c == SequenceId || c == Rank || Owned(c, Caps(levels))
  {
    var base := Base(seqId, j);
    var r := FillLevels(results, levels, i, j, base);
    assert base.keys <= r.keys;
    r
  }

  /** The cells of `level` the source promises for a slot: a label, hit and
      similarity for a match with a label; three empty strings for a match
      without one; only the label "No match found" for a missing slot. */
  ghost predicate CellsFor<D>(r: Record<D>, slot: Option<Match<D>>, level: string) {
    var cap := Capitalize(level);
    match slot
    case None =>
      && Label(cap) in r.entries && r.entries[Label(cap)] == Text(NoMatchFound)
      && Hit(cap) !in r.entries && Similarity(cap) !in r.entries
    case Some(m) =>
      var value := LabelOf(m, level);
      && Label(cap) in r.entries && Hit(cap) in r.entries && Similarity(cap) in r.entries
      && if value != "" then
           && m.id.Some?
           && r.entries[Label(cap)] == Text(value)
           && r.entries[Hit(cap)] == Text(m.id.value)
           && r.entries[Similarity(cap)] == Score(m.distance)
         else
           && r.entries[Label(cap)] == Text("")
           && r.entries[Hit(cap)] == Text("")
           && r.entries[Similarity(cap)] == Text("")
  }

  /** A level's own writes leave its cells as the source promises, provided
      that for a missing slot the record had no hit or similarity cell of
      that level before. */
  lemma WriteLevelCells<D>(rec: Record<D>, slot: Option<Match<D>>, level: string)
    requires slot.Some? && LabelOf(slot.value, level) != "" ==> slot.value.id.Some?
    requires slot.None? ==> Hit(Capitalize(level)) !in rec.entries && Similarity(Capitalize(level)) !in rec.entries
    ensures CellsFor(WriteLevel(rec, slot, level), slot, level)
  {
  }

  /** The writes of a level with another capitalised name leave a level's
      cells alone. */
  lemma WriteLevelKeepsCells<D>(rec: Record<D>, slot: Option<Match<D>>, level: string,
                                slot': Option<Match<D>>, level': string)
    requires slot'.Some? && LabelOf(slot'.value, level') != "" ==> slot'.value.id.Some?
    requires Capitalize(level) != Capitalize(level')
    requires CellsFor(rec, slot, level)
    ensures CellsFor(WriteLevel(rec, slot', level'), slot, level)
  {
    var cap, cap' := Capitalize(level), Capitalize(level');
    assert !Owned(Label(cap), [cap']) && !Owned(Hit(cap), [cap']) && !Owned(Similarity(cap), [cap']);
  }

  /** When distinct levels have distinct capitalised names, no later level
      overwrites the cells of an earlier one. */
  lemma {:induction false} FillLevelsCells<D>(results: SearchResults<D>, levels: seq<string>, i: nat, j: nat,
                                              rec: Record<D>, k: nat)
    requires SlotReadable(results, levels, i, j)
    requires Distinct(Caps(levels))
    requires forall c :: c in rec.entries ==> !Owned(c, Caps(levels))
    requires k < |levels|
    ensures levels[k] in results
    ensures CellsFor(FillLevels(results, levels, i, j, rec), Slot(results, levels[k], i, j), levels[k])
    decreases |levels|
  {
    var n := |levels| - 1;
    var init := levels[..n];
    CapsLast(levels);
    DistinctInit(Caps(levels));
    if k == n {
      FillLevelsCellsLast(results, levels, i, j, rec);
    } else {
      assert levels[k] in levels && levels[n] in levels;
      assert forall l :: l in init ==> l in levels;
      assert forall c :: c in rec.entries ==> !Owned(c, Caps(init));
      FillLevelsCells(results, init, i, j, rec, k);
      assert Capitalize(levels[k]) == Caps(init)[k];
      assert init[k] == levels[k];
      InitLast(levels);
      FillLevelsKeepsCells(results, init, levels[n], i, j, rec, k);
    }
  }

  /** A further level with another capitalised name leaves the cells of an
      earlier level as they were. */
  lemma FillLevelsKeepsCells<D>(results: SearchResults<D>, init: seq<string>, level: string, i: nat, j: nat,
                                rec: Record<D>, k: nat)
    requires SlotReadable(results, init, i, j) && Readable(results, level, i, j)
    requires k < |init| && init[k] in results && Capitalize(init[k]) != Capitalize(level)
    requires CellsFor(FillLevels(results, init, i, j, rec), Slot(results, init[k], i, j), init[k])
    ensures SlotReadable(results, init + [level], i, j)
    ensures CellsFor(FillLevels(results, init + [level], i, j, rec), Slot(results, init[k], i, j), init[k])
  {
    FillLevelsStep(results, init, level, i, j, rec);
    WriteLevelKeepsCells(FillLevels(results, init, i, j, rec), Slot(results, init[k], i, j), init[k],
                         Slot(results, level, i, j), level);
  }

  /** The last level's writes leave its cells as the source promises, when
      no earlier level shares its capitalised name. */
  lemma FillLevelsCellsLast<D>(results: SearchResults<D>, levels: seq<string>, i: nat, j: nat, rec: Record<D>)
    requires SlotReadable(results, levels, i, j)
    requires |levels| > 0 && Capitalize(levels[|levels| - 1]) !in Caps(levels[..|levels| - 1])
    requires forall c :: c in rec.entries ==> !Owned(c, Caps(levels))
    ensures levels[|levels| - 1] in results
    ensures CellsFor(FillLevels(results, levels, i, j, rec), Slot(results, levels[|levels| - 1], i, j),
                     levels[|levels| - 1])
  {
    var n := |levels| - 1;
    var init := levels[..n];
    var cap := Capitalize(levels[n]);
    assert levels[n] in levels;
    CapsLast(levels);
    var before := FillLevels(results, init, i, j, rec);
    var slot := Slot(results, levels[n], i, j);
    assert FillLevels(results, levels, i, j, rec) == WriteLevel(before, slot, levels[n]);
    assert Owned(Hit(cap), Caps(levels)) && Owned(Similarity(cap), Caps(levels));
    assert !Owned(Hit(cap), Caps(init)) && !Owned(Similarity(cap), Caps(init));
    WriteLevelCells(before, slot, levels[n]);
  }

  /** The records of ranks 1 to n for the sequence at position i. */
  function Records<D>(results: SearchResults<D>, levels: seq<string>, seqId: string, i: nat, n: nat)
    : (rs: seq<Record<D>>)
    requires RowReadable(results, levels, i, n)
    ensures Ranked(seqId, rs, n)
  {
    seq(n, j requires 0 <= j < n => RecordAt(results, levels, seqId, i, j))
  }

  /** Two sequences that agree up to the length of the shorter, which is one
      shorter, differ by the last element. */
  lemma AppendOne<T>(longer: seq<T>, shorter: seq<T>)
    requires |longer| == |shorter| + 1
    requires forall j :: 0 <= j < |shorter| ==> longer[j] == shorter[j]
    ensures longer == shorter + [longer[|shorter|]]
  {
  }

  /** One more rank appends one more record. */
  lemma RecordsStep<D>(results: SearchResults<D>, levels: seq<string>, seqId: string, i: nat, n: nat)
    requires RowReadable(results, levels, i, n + 1)
    ensures Records(results, levels, seqId, i, n + 1) == Records(results, levels, seqId, i, n) + [RecordAt(results, levels, seqId, i, n)]
  {
    AppendOne(Records(results, levels, seqId, i, n + 1), Records(results, levels, seqId, i, n));
  }

  /** The list built for each ID, in submission order. */
  function Lists<D>(results: SearchResults<D>, levels: seq<string>, seqIds: seq<string>, topN: nat)
    : (ls: seq<seq<Record<D>>>)
    requires TableReadable(results, levels, |seqIds|, topN)
    ensures |ls| == |seqIds|
    ensures forall i :: 0 <= i < |seqIds| ==> Ranked(seqIds[i], ls[i], topN)
  {
    seq(|seqIds|, i requires 0 <= i < |seqIds| => Records(results, levels, seqIds[i], i, topN))
  }

  /** `results_by_seq` after the loop over the sequence IDs: the list of each
      ID stored under it in turn, so a later duplicate ID would replace the
      list of an earlier one. */
  function Assembled<D>(results: SearchResults<D>, levels: seq<string>, seqIds: seq<string>, topN: nat)
    : (d: Dict<string, seq<Record<D>>>)
    requires TableReadable(results, levels, |seqIds|, topN)
    ensures d.Valid()
    ensures d.entries.Keys == set id | id in seqIds
  {
    FromPairs(seqIds, Lists(results, levels, seqIds, topN))
  }

  /** The list of one ID: topN records, record j carrying the ID and rank j + 1. */
  ghost predicate Ranked<D>(id: string, rs: seq<Record<D>>, topN: nat) {
    && |rs| == topN
    && forall j :: 0 <= j < topN ==>
         && SequenceId in rs[j].entries && rs[j].entries[SequenceId] == Text(id)
         && Rank in rs[j].entries && rs[j].entries[Rank] == Number(j + 1)
  }

  /** Every submitted ID gets exactly topN records, ranked 1 to topN. */
  lemma AssembledRanked<D>(results: SearchResults<D>, levels: seq<string>, seqIds: seq<string>, topN: nat)
    requires TableReadable(results, levels, |seqIds|, topN)
    ensures forall id :: id in Assembled(results, levels, seqIds, topN).entries ==>
      Ranked(id, Assembled(results, levels, seqIds, topN).entries[id], topN)
  {
    var d := Assembled(results, levels, seqIds, topN);
    var ls := Lists(results, levels, seqIds, topN);
    FromPairsValues(seqIds, ls);
    forall id | id in d.entries ensures Ranked(id, d.entries[id], topN) {
      var i :| 0 <= i < |seqIds| && seqIds[i] == id && d.entries[id] == ls[i];
    }
  }

  /** With distinct IDs (as validation guarantees) the dict lists them in
      submission order. */
  lemma AssembledOrder<D>(results: SearchResults<D>, levels: seq<string>, seqIds: seq<string>, topN: nat)
    requires TableReadable(results, levels, |seqIds|, topN)
    requires Distinct(seqIds)
    ensures Assembled(results, levels, seqIds, topN).keys == seqIds
  {
    FromPairsOrder(seqIds, Lists(results, levels, seqIds, topN));
  }

  /** With distinct IDs, the list stored for the ID at position i is built
      from slot i of every level. */
  lemma AssembledLists<D>(results: SearchResults<D>, levels: seq<string>, seqIds: seq<string>, topN: nat, i: nat)
    requires TableReadable(results, levels, |seqIds|, topN)
    requires Distinct(seqIds) && i < |seqIds|
    ensures seqIds[i] in Assembled(results, levels, seqIds, topN).entries
    ensures Assembled(results, levels, seqIds, topN).entries[seqIds[i]] == Records(results, levels, seqIds[i], i, topN)
  {
    FromPairsAt(seqIds, Lists(results, levels, seqIds, topN), i);
  }

  /** Whatever the IDs, an ID's stored list is the one built for its last
      position: a later duplicate replaces the list of an earlier one. */
  lemma AssembledLast<D>(results: SearchResults<D>, levels: seq<string>, seqIds: seq<string>, topN: nat, i: nat)
    requires TableReadable(results, levels, |seqIds|, topN)
    requires i < |seqIds| && seqIds[i] !in seqIds[i + 1..]
    ensures seqIds[i] in Assembled(results, levels, seqIds, topN).entries
    ensures Assembled(results, levels, seqIds, topN).entries[seqIds[i]] == Records(results, levels, seqIds[i], i, topN)
  {
    FromPairsLast(seqIds, Lists(results, levels, seqIds, topN), i);
  }

  /** Sequence_ID and Rank belong to no level. */
  lemma BaseUnowned<D>(base: Record<D>, caps: seq<string>)
    requires base.entries.Keys == {SequenceId, Rank}
    ensures forall c :: c in base.entries ==> !Owned(c, caps)
  {
    forall c | c in base.entries ensures !Owned(c, caps) {
      assert c == SequenceId || c == Rank;
    }
  }

  /** Every cell of one record is what the source promises for its slot,
      when the levels have distinct capitalised names. */
  lemma RecordAtCells<D>(results: SearchResults<D>, levels: seq<string>, seqId: string, i: nat, j: nat, k: nat)
    requires SlotReadable(results, levels, i, j)
    requires Distinct(Caps(levels))
    requires k < |levels|
    ensures levels[k] in results
    ensures CellsFor(RecordAt(results, levels, seqId, i, j), Slot(results, levels[k], i, j), levels[k])
  {
    var base: Record<D> := Base(seqId, j);
    BaseUnowned(base, Caps(levels));
    FillLevelsCells(results, levels, i, j, base, k);
    assert RecordAt(results, levels, seqId, i, j) == FillLevels(results, levels, i, j, base);
  }

  /** Every cell of the assembled table is what the source promises for its
      slot, when the IDs are distinct (as validation guarantees) and the
      levels have distinct capitalised names. */
  lemma AssembledCells<D>(results: SearchResults<D>, levels: seq<string>, seqIds: seq<string>, topN: nat,
                          i: nat, j: nat, k: nat)
    requires TableReadable(results, levels, |seqIds|, topN)
    requires Distinct(seqIds) && Distinct(Caps(levels))
    requires i < |seqIds| && j < topN && k < |levels|
    ensures seqIds[i] in Assembled(results, levels, seqIds, topN).entries
    ensures |Assembled(results, levels, seqIds, topN).entries[seqIds[i]]| == topN
    ensures levels[k] in results
    ensures CellsFor(Assembled(results, levels, seqIds, topN).entries[seqIds[i]][j],
                     Slot(results, levels[k], i, j), levels[k])
  {
    AssembledLists(results, levels, seqIds, topN, i);
    RecordAtCells(results, levels, seqIds[i], i, j, k);
  }

  /** One pass of the loop over the levels: the `try` block for
      results[level][i][j] and its IndexError handler. */
  method WriteCells<D>(result: Record<D>, results: SearchResults<D>, level: string, i: nat, j: nat)
    returns (r: Record<D>)
    requires Readable(results, level, i, j)
    ensures r == WriteLevel(result, Slot(results, level, i, j), level)
  {
    var levelCap := Capitalize(level);
    if i < |results[level]| && j < |results[level][i]| {
      var m := results[level][i][j];
      var value := if level in m.entity then m.entity[level] else "";
      if value != "" {
        r := result.Put(Label(levelCap), Text(value));
        r := r.Put(Hit(levelCap), Text(m.id.value));
        r := r.Put(Similarity(levelCap), Score(m.distance));
      } else {
        r := result.Put(Label(levelCap), Text(""));
        r := r.Put(Hit(levelCap), Text(""));
        r := r.Put(Similarity(levelCap), Text(""));
      }
    } else {
      r := result.Put(Label(levelCap), Text(NoMatchFound));
    }
  }

  /** One record: Sequence_ID and Rank, then the loop over the levels. */
  method BuildRecord<D>(results: SearchResults<D>, levels: seq<string>, seqId: string, i: nat, j: nat)
    returns (result: Record<D>)
    requires SlotReadable(results, levels, i, j)
    ensures result == RecordAt(results, levels, seqId, i, j)
  {
    result := Base(seqId, j);
    ghost var base := result;
    for k := 0 to |levels|
      invariant result == FillLevels(results, levels[..k], i, j, base)
    {
      assert levels[k] in levels;
      PrefixStep(levels, k);
      FillLevelsStep(results, levels[..k], levels[k], i, j, base);
      result := WriteCells(result, results, levels[k], i, j);
    }
    assert levels[..|levels|] == levels;
  }

  /** The loop over the ranks for the sequence at position i. */
  method BuildRecords<D>(results: SearchResults<D>, levels: seq<string>, seqId: string, i: nat, topN: nat)
    returns (records: seq<Record<D>>)
    requires RowReadable(results, levels, i, topN)
    ensures records == Records(results, levels, seqId, i, topN)
  {
    records := [];
    for j := 0 to topN
      invariant records == Records(results, levels, seqId, i, j)
    {
      var result := BuildRecord(results, levels, seqId, i, j);
      RecordsStep(results, levels, seqId, i, j);
      records := records + [result];
    }
  }

  /** The loop over the sequence IDs. Each ID's list is built and then
      stored, which leaves the dict as the source's store-then-append does. */
  method AssembleResults<D>(results: SearchResults<D>, levels: seq<string>, seqIds: seq<string>, topN: nat)
    returns (resultsBySeq: Dict<string, seq<Record<D>>>)
    requires TableReadable(results, levels, |seqIds|, topN)
    ensures resultsBySeq == Assembled(results, levels, seqIds, topN)
  {
    resultsBySeq := Empty();
    ghost var lists := Lists(results, levels, seqIds, topN);
    for i := 0 to |seqIds|
      invariant resultsBySeq == FromPairs(seqIds[..i], lists[..i])
    {
      var seqId := seqIds[i];
      var records := BuildRecords(results, levels, seqId, i, topN);
      FromPairsStep(seqIds, lists, i);
      resultsBySeq := resultsBySeq.Put(seqId, records);
    }
    assert seqIds[..|seqIds|] == seqIds;
    assert lists[..|lists|] == lists;
  }
}
