# TaxoTagger web app: input validation and result assembly

The TaxoTagger web app is a Streamlit page. It takes DNA barcode sequences in
FASTA form, sends them to the TaxoTagger search library, and shows the
nearest reference sequences at each taxonomy level as a table the user can
download. The page's own logic is the glue around that search call. This
project models that glue in Dafny and proves what it promises:

- `Upload`: the texts of several uploaded files are joined into one
  submission, with a newline after each file.
- `Validation`: `validate_input` refuses a submission that fails to parse,
  holds two headers with the same sequence ID, holds a header of one
  character or less, or holds more than 100 records. The checks run in that
  order and the first failure stops the submission. An accepted submission
  yields the ordered, duplicate-free list of sequence IDs.
- `Diagnostic`: when the first taxonomy level returns a different number of
  result lists than IDs were submitted, the app reports both counts. It then
  lists the submitted IDs that no returned match carries under its `"id"` key.
- `Assembly`: the nested results `results[level][i][j]` become `top_n`
  records per sequence ID. Each record holds `Sequence_ID`, `Rank` and three
  cells per level: label, hit and similarity. A match with a label fills all
  three. A match without a label gives three empty strings. A missing slot
  gives only the label `"No match found"`.
- `Export`: the per-ID lists are joined, in dict order, into the download
  list.
- `Run`: the button's handler runs the count check, then the assembly. The
  assembly goes ahead even after a mismatch.

Helper modules: `Wrappers` defines `Option` and `Result`. `Dicts` models a
Python dict as an insertion-ordered map. `Results` holds the engine's match
type, the record columns and `str.capitalize`.

Foreign pieces are parameters:
- the library's FASTA parser is `parse: string -> Parsed`. It returns the
  headers in file order, or the message of its `ValueError`.
- the UNITE header decoder `parse_unite_fasta_header(h)[0]` is
  `decode: string -> string`. Nothing is assumed about how it splits a header.
- the library constant `TAXONOMY_LEVELS` is the parameter `levels`.
- the similarity score is a type parameter `D`. It is only copied.

Notes on the source, followed as written:
- A header counts as valid exactly when `len(header) > 1` on the header as
  the parser returns it. Nothing is stripped, so any header the parser
  returns with two or more characters passes, whatever those characters are.
- The sequence ID comes from the library's UNITE header decoder, not from
  splitting on whitespace.
- The unprocessed-ID diagnostic compares submitted IDs with the `"id"` of
  each returned match, at every level. It does not look at the match's
  entity record. The assembly writes that same `"id"` into the hit column
  (app.py:218), so it names the matched reference sequence. A submitted ID
  therefore counts as processed only when some returned match's own `"id"`
  equals it.
- The count check reads only the first level when the counts agree. It reads
  every level only on a mismatch, so only then must every level be present.
- Record keys are the strings `Sequence_ID`, `Rank`, `<Level>`,
  `<Level>_Hit` and `<Level>_Similarity`, where `<Level>` is
  `level.capitalize()`. The model keys records by the datatype `Column`.
  `Results.ColumnNamesDistinct` proves that no two keys are merged by this
  change when the level is not `rank`.

## Model

| member | source | states |
|---|---|---|
| `Validation.ErrorMessage` | app.py:46-79 | A parse failure's text starts with the parser's own message (app.py:48). A repeated ID's text quotes that ID between backticks after a fixed prefix (app.py:59). The header and count refusals show the source's fixed texts (app.py:72, 78) |
| `Validation.DuplicateMessageInjective` | app.py:57-61 | Two repeated-ID messages are equal only for the same ID, so the message tells the user which ID was repeated |
| `Validation.DecodeIds` | app.py:53-54 | Definition: the sequence ID of each header is `parse_unite_fasta_header(header)[0]`, in header order |
| `Validation.Validate` | app.py:42-87 | A parse failure gives the parse error. Otherwise, the ID check fails exactly when two headers decode to the same ID, and it names the ID at the first repeat in header order. The header check fails exactly when the IDs are distinct and some header has length ≤ 1. The count check fails exactly when both earlier checks pass and there are more than 100 records. Success happens exactly when all checks pass (so 100 records is accepted). It stores the decoded IDs in header order, one per header, and the submitted text. |
| `Validation.ValidateInput` | app.py:42-87 | The loop implementation (ID collection with the stop at the first repeat, the `num_valid_headers` counter, then the cap) returns exactly `Validate`'s outcome |
| `Validation.FirstRepeat` | app.py:52-62 | The scan finds no repeat exactly when all IDs are distinct. Otherwise, the position it reports holds an ID seen earlier, and every ID before that position is distinct |
| `Validation.FirstRepeatUnique` | app.py:53-62 | There is at most one first-repeat position, so the reported duplicate ID is determined by the header order |
| `Validation.CountValid` | app.py:64-70 | `num_valid_headers` is at most the record count. It equals the record count exactly when every header is longer than one character |
| `Upload.Joined` | app.py:117-121 | The joined text ends with a newline when there is a file, so the last record of one file cannot run into the next file's first header |
| `Upload.JoinedLength` | app.py:117-121 | The joined text is as long as all files together plus one newline per file |
| `Upload.JoinedAppend` | app.py:117-121 | Joining two file lists one after the other gives the two joined texts one after the other |
| `Upload.FileInJoined` | app.py:117-121 | Each file's text appears whole at its offset, in file order, directly followed by a newline |
| `Upload.JoinUploads` | app.py:116-121 | The `+=` loop builds exactly the joined text |
| `Results.ColumnNamesDistinct` | app.py:209-223 | Two different columns whose level names come from `capitalize()` (and are not `Rank`) get different dict keys, so keying records by column merges nothing the source keeps apart |
| `Results.Capitalize` | app.py:212 | `level.capitalize()` keeps the length, upper-cases the first character and lower-cases the rest |
| `Results.LabelOf` | app.py:215 | Definition: `match["entity"].get(level, "")`, the match's label at a level, or `""` when it has none |
| `Results.ColumnName` | app.py:209-223 | Definition: the dict key the source writes for each column: `Sequence_ID`, `Rank`, `<Level>`, `<Level>_Hit`, `<Level>_Similarity` |
| `Results.CapitalizeIdempotent` | app.py:212 | Capitalising a capitalised level name changes nothing |
| `Dicts.Dict.Put` | app.py:206 | Assigning a key keeps the dict well formed. Only that key's value changes, and nothing else does. A new key goes to the end of the iteration order, and an existing key keeps its place |
| `Dicts.FromPairs` | app.py:204-206 | Storing each value under its key in turn, starting from `{}`, gives a well-formed dict whose keys are exactly the given keys |
| `Dicts.FromPairsOrder` | app.py:204-206 | With distinct keys, the dict lists them in the order they were stored |
| `Dicts.FromPairsAt` | app.py:204-206 | With distinct keys, each key maps to the value stored with it |
| `Dicts.FromPairsLast` | app.py:204-206 | Whatever the keys, a key maps to the value stored at its last position, so a later duplicate overwrites an earlier one |
| `Dicts.FromPairsValues` | app.py:204-206 | Whatever the keys, every key maps to a value that was stored with it. A repeated key holds the value of one of its positions |
| `Assembly.WriteLevel` | app.py:211-226 | One level's writes touch only that level's three columns and add no other key |
| `Assembly.FillLevels` | app.py:211-226 | The loop over the levels keeps the record well formed. It leaves every column not owned by one of the levels unchanged, adds only columns of those levels, and keeps the existing key order as a prefix |
| `Assembly.RecordAt` | app.py:207-226 | Each record is well formed. Its first keys are `Sequence_ID` (the ID) and `Rank` (j + 1), and every other key is a column of one of the levels |
| `Assembly.Base` | app.py:208-210 | Before the loop over the levels, a record holds exactly `Sequence_ID` (the ID) and `Rank` (j + 1), in that order |
| `Assembly.WriteLevelCells` | app.py:213-226 | One level's writes leave its cells as the source's three cases promise for its slot |
| `Assembly.WriteLevelKeepsCells` | app.py:211-226 | The writes of a level with another capitalised name leave a level's cells unchanged |
| `Assembly.FillLevelsCellsLast` | app.py:213-226 | The last level's writes leave its own cells as the source's three cases promise, when no earlier level shares its capitalised name |
| `Assembly.FillLevelsKeepsCells` | app.py:211-226 | One more level with another capitalised name leaves an earlier level's cells as they were |
| `Assembly.FillLevelsCells` | app.py:213-226 | When the levels have distinct capitalised names, each level's cells end as the source promises for its slot, whatever later levels write. A labelled match gives label, hit and similarity. An unlabelled match gives three empty strings. A missing slot gives only the label "No match found", with no hit or similarity key |
| `Assembly.RecordAtCells` | app.py:211-226 | With distinct capitalised level names, each level's cells of a record are as the source's three cases promise for that level's slot |
| `Assembly.Records` | app.py:207-227 | The list built for one sequence holds n records, and record j carries that sequence's ID and rank j + 1 |
| `Assembly.Lists` | app.py:205-227 | One list is built per submitted position, and the list of the ID at position i holds `top_n` records carrying that ID, ranked 1 to `top_n` |
| `Assembly.Assembled` | app.py:204-227 | `results_by_seq` is a well-formed dict whose keys are exactly the submitted IDs |
| `Assembly.AssembledRanked` | app.py:205-210 | Every ID gets exactly `top_n` records, and record j carries that ID and rank j + 1, so ranks run from 1 upwards with no gaps |
| `Assembly.AssembledLast` | app.py:204-227 | Whatever the IDs, an ID's stored list is the one built for its last position, so a later duplicate ID replaces the list of an earlier one |
| `Assembly.AssembledOrder` | app.py:204-206 | With distinct IDs, the dict lists its keys in submission order |
| `Assembly.AssembledLists` | app.py:205-227 | With distinct IDs, the list of the ID at position i is built from slot i of every level |
| `Assembly.AssembledCells` | app.py:213-226 | With distinct IDs and level names, every cell of every record in `results_by_seq` is as the source's three cases promise for slot (i, j) |
| `Assembly.WriteCells` | app.py:213-226 | The `try` block performs exactly one level's writes. `results[level][i][j]` raises `IndexError` exactly when an index is out of range, and the handler then writes only the label "No match found" |
| `Assembly.BuildRecord` | app.py:208-226 | The loop over the levels builds exactly the record of rank j + 1 |
| `Assembly.BuildRecords` | app.py:207-227 | The loop over the ranks builds exactly ranks 1 to `top_n` |
| `Assembly.AssembleResults` | app.py:204-228 | The loop over the IDs builds exactly `Assembled` |
| `Diagnostic.MatchIds` | app.py:194-196 | An ID is collected from a match list exactly when some match in it carries that ID |
| `Diagnostic.ListIds` | app.py:193-196 | An ID is collected from a level's lists exactly when some match in some list carries it |
| `Diagnostic.LevelIds` | app.py:191-196 | `processed_ids` holds exactly the IDs carried by some match at some level |
| `Diagnostic.Diagnose` | app.py:185-197 | A mismatch is reported exactly when the first level's list count differs from the number of submitted IDs, and it carries both counts. An ID is unprocessed exactly when it was submitted and no match at any level carries it. Only the first level needs to be present unless the counts differ |
| `Diagnostic.AddMatchIds` | app.py:194-196 | The innermost loop adds exactly one list's IDs |
| `Diagnostic.AddListIds` | app.py:193-196 | The middle loop adds exactly one level's IDs |
| `Diagnostic.CheckCounts` | app.py:185-197 | The count check and its triple loop give exactly `Diagnose`'s outcome |
| `Export.Flattened` | app.py:263-265 | Definition: the lists of the given keys joined in key order, as the `extend` loop joins them |
| `Export.Download` | app.py:204-265 | Definition: `combined_results` for the dict the assembly builds from the search results |
| `Export.CombineResults` | app.py:263-265 | The `extend` loop yields exactly the per-ID lists joined in dict order |
| `Export.FlattenedLength` | app.py:263-265 | When each list has n records, the flat list has (number of keys) × n records |
| `Export.FlattenedAt` | app.py:263-265 | When each list has n records, record j of the key at position a sits at position a × n + j of the flat list |
| `Export.ExportOfAssembly` | app.py:204-265 | For an assembly over distinct IDs, the download list has `len(seq_ids) * top_n` records. Record j of the ID at position a sits at position a × `top_n` + j (`Position`) and is the record built from slot (a, j) |
| `Run.ProcessResults` | app.py:184-228 | The count check is followed by a full assembly, whatever the check found |

## Left out

- The Streamlit page: page setup, title, widgets, input-method choice, settings, the results table and the footer (app.py:14-27, 90-152, 230-260, 277-286). These are presentation only. A failed check's `st.error` and `st.stop` become an `Err` result, and `Validation.ErrorMessage` gives its text. The unprocessed-ID warning becomes the `Mismatch` diagnosis.
- The success note "You provided N valid sequences" (app.py:81-84) is presentation output and is not modelled.
- The session state and its clearing and reruns (app.py:96, 108, 124, 177-179): this is framework lifecycle. The inputs and outputs are explicit parameters and results. An accepted check returns the `Session` it would store, and a refused one returns no session.
- The TaxoTagger object, the search call and the temporary file (app.py:30-38, 156-172): these are a foreign library and file I/O. The search results are an input.
- `parse_fasta` and `parse_unite_fasta_header` (app.py:9, 45, 54): foreign code whose source is not part of this model. They are parameters. Any exception they raise other than the parser's `ValueError` is not modelled.
- `uploaded_file.getvalue().decode()` (app.py:120): the files are taken as already-decoded text. A decoding failure is not modelled.
- Display merging with `.round(3).astype(str)`, CSV writing and the timestamped file name (app.py:249-259, 266-274): these are floating-point formatting, pandas and the wall clock.
- `Results.Capitalize`: models `str.capitalize` for ASCII letters only. Other characters are left unchanged, while Python also changes the case of non-ASCII letters.
- `Assembly.Readable`: lookups that raise an uncaught `KeyError` in the source are preconditions, not error results. These are a level missing from the results, and a labelled match without `"id"`. They are required only for the slots the assembly reads (`Assembly.TableReadable`: positions below `len(seq_ids)`, ranks below `top_n`, every level), and `Diagnostic.Checkable` requires the levels the count check reads. The source does not handle them, and the app stops with a traceback. A match's `entity` and `distance` keys are always present in the model.
- `Assembly.FillLevelsCells`, `Assembly.AssembledCells`: the cell guarantees assume distinct capitalised level names, and `Results.ColumnNamesDistinct` assumes no level capitalises to `Rank`. With colliding names the source overwrites one dict key with another. The model captures that in `Assembled`, but states no cell property for it.
- An entity value of `None` is falsy like `""`, so the model represents it as an absent label. Non-string entity values are not modelled.
