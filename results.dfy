/** The search engine's answer as the web app reads it, and the columns of
    the table the app builds from it. */
module Results {
  import opened Wrappers
  import opened Dicts

  /** One nearest neighbour of a submitted sequence: the matched reference's
      ID (the app tests whether the "id" key is there), its similarity score
      (of type D, which the app only copies) and the reference's taxonomy
      labels by level. An entity value of None behaves as an absent one. */
  datatype Match<D> = Match(id: Option<string>, distance: D, entity: map<string, string>)

  /** results[level][i][j]: the match of rank j + 1 for submitted sequence i. */
  type SearchResults<D> = map<string, seq<seq<Match<D>>>>

  /** `match["entity"].get(level, "")` */
  function LabelOf<D>(m: Match<D>, level: string): string {
    if level in m.entity then m.entity[level] else ""
  }

  /** `results[level][i][j]`, or None where the lookup raises IndexError. */
  function Slot<D>(results: SearchResults<D>, level: string, i: nat, j: nat): Option<Match<D>>
    requires level in results
  {
    if i < |results[level]| && j < |results[level][i]| then Some(results[level][i][j]) else None
  }

  predicate IsUpper(ch: char) {
    'A' <= ch <= 'Z'
  }

  function ToUpper(ch: char): (r: char)
    ensures !('a' <= r <= 'z')
  {
    if 'a' <= ch <= 'z' then (ch as int - 32) as char else ch
  }

  function ToLower(ch: char): (r: char)
    ensures !IsUpper(r)
  {
    if IsUpper(ch) then (ch as int + 32) as char else ch
  }

  /** No upper-case letter after the first character. */
  predicate Capitalized(s: string) {
    forall k :: 1 <= k < |s| ==> !IsUpper(s[k])
  }

  /** `str.capitalize()` on ASCII letters: the first character upper case,
      all others lower case. */
  function Capitalize(s: string): (r: string)
    ensures |r| == |s| && Capitalized(r)
    ensures |s| > 0 ==> r[0] == ToUpper(s[0])
    ensures forall k :: 1 <= k < |s| ==> r[k] == ToLower(s[k])
  {
    if |s| == 0 then ""
    else [ToUpper(s[0])] + seq(|s| - 1, k requires 0 <= k < |s| - 1 => ToLower(s[k + 1]))
  }

  /** Capitalising twice is capitalising once. */
  lemma CapitalizeIdempotent(s: string)
    ensures Capitalize(Capitalize(s)) == Capitalize(s)
  {
  }

  /** The keys of a result record. A level's columns carry the level's
      capitalised name `cap`. */
  datatype Column = SequenceId | Rank | Label(cap: string) | Hit(cap: string) | Similarity(cap: string)

  /** The dict key the app writes for a column. */
  function ColumnName(c: Column): string {
    match c
    case SequenceId => "Sequence_ID"
    case Rank => "Rank"
    case Label(cap) => cap
    case Hit(cap) => cap + "_Hit"
    case Similarity(cap) => cap + "_Similarity"
  }

  /** A level column whose name comes from `capitalize()` of a level other than "rank". */
  predicate WellNamed(c: Column) {
    (c.Label? || c.Hit? || c.Similarity?) ==> Capitalized(c.cap) && c.cap != "Rank"
  }

  /** The order of the constructors, used to halve the case analysis below. */
  function Kind(c: Column): nat {
    match c
    case SequenceId => 0
    case Rank => 1
    case Label(_) => 2
    case Hit(_) => 3
    case Similarity(_) => 4
  }

  /** Distinct well-named columns have distinct names, so keying records by
      Column instead of by the name string merges no two keys. */
  lemma ColumnNamesDistinct(c: Column, c': Column)
    requires WellNamed(c) && WellNamed(c') && c != c'
    ensures ColumnName(c) != ColumnName(c')
  {
    if Kind(c) <= Kind(c') {
      NamesDiffer(c, c');
    } else {
      NamesDiffer(c', c);
    }
  }

  /** ColumnNamesDistinct for a pair in constructor order: each case names a
      position at which the two names differ, or their lengths differ. */
  lemma NamesDiffer(c: Column, c': Column)
    requires WellNamed(c) && WellNamed(c') && c != c' && Kind(c) <= Kind(c')
    ensures ColumnName(c) != ColumnName(c')
  {
    var n, n' := ColumnName(c), ColumnName(c');
    match c {
      case SequenceId =>
        if c'.Label? && |n'| == |n| {
          assert n[9] != n'[9];
        } else if c'.Hit? || c'.Similarity? {
          assert n[|n| - 1] != n'[|n'| - 1];
        }
      case Rank =>
        if c'.Hit? || c'.Similarity? {
          assert n[|n| - 1] != n'[|n'| - 1];
        }
      case Label(a) =>
        if (c'.Hit? || c'.Similarity?) && |n| == |n'| {
          assert n[|c'.cap| + 1] != n'[|c'.cap| + 1];
        }
      case Hit(a) =>
        if c'.Hit? && |a| == |c'.cap| {
          var k :| 0 <= k < |a| && a[k] != c'.cap[k];
          assert n[k] != n'[k];
        } else if c'.Similarity? {
          assert n[|n| - 1] != n'[|n'| - 1];
        }
      case Similarity(a) =>
        if |a| == |c'.cap| {
          var k :| 0 <= k < |a| && a[k] != c'.cap[k];
          assert n[k] != n'[k];
        }
    }
  }

  /** The values a record holds. */
  datatype Value<D> = Text(text: string) | Number(number: int) | Score(score: D)

  /** One row of the result table: Sequence_ID, Rank and per-level cells. */
  type Record<D> = Dict<Column, Value<D>>

  /** The label written where the engine returned fewer matches than asked. */
  const NoMatchFound: string := "No match found"
}
