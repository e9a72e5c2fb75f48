# momal_searching — a Dafny model of the keyword-in-context extractor

`app.py` searches a zip of spoken-corpus transcripts (one JSON file per
document, each holding a list of utterances) for a comma-separated list of
keywords. For every utterance that contains a keyword (a *hit*), it takes the
utterances within `window` positions of it and emits one record per utterance.
A record holds the file name, the speaker, the text, the hit's matched keywords
and the signed offset from the hit. It then writes an Excel sheet. The sheet
drops rows whose text is blank and adds a `Group_Index` column, recomputed from
the offsets with `diff().le(0).cumsum()`. It also draws a bottom border under
the last row of every group.

This project models the pure core of that program:

- `seqs.dfy`, module `Seqs`: generic sequence helpers (`Flatten`, `Filter`,
  `Map`, `ConcatMap`) and their algebra.
- `text.dfy`, module `Text`: Python's `str.strip()` with the `str.isspace`
  character set, substring containment (`k in text`), `str.split(',')` and
  `','.join`.
- `keywords.dfy`, module `Keywords`: the keyword line of `run`, which cuts
  the search text at commas, strips each piece and drops the empty ones.
- `extract.dfy`, module `Extract`: `process_json_folder`. This covers
  documents, utterances and records, matched keywords, the window loop,
  hit enumeration and the `.json` name filter.
- `export.dfy`, module `Export`: `make_excel`. This covers the blank-row
  filter, the group column, the border flags and the six-column sheet.
- `pipeline.dfy`, module `Pipeline`: `run` without its I/O, i.e. keyword
  parsing, extraction, and either the "no results" message or the sheet with
  its success message. It also holds the main theorem. Every keyword is
  trimmed and non-empty, so the hit's own row is never blank and survives
  the filter. Inside one hit the offsets strictly increase, starting at or
  below 0 and ending at or above 0. Hence the offset-reset rule turns each
  hit's surviving rows into exactly one group, numbered in emission order.
  The sheet has exactly as many groups as there were hits.

The directory listing is an input: documents arrive as a sequence in listing
order, each already decoded into its name and its utterances. A missing
`speaker_id` is `None`; a missing `form` is the empty string.

Behaviour of the code worth noting:

- A negative window is not rejected. `range(-w, w + 1)` is then empty, so no
  records are produced and `run` answers "no results" (`Pipeline.Run` states
  this).
- A keyword set that is empty after trimming is not rejected either. Nothing
  can match, and the answer is again "no results".
- Row 0's `diff()` is NaN, and `NaN <= 0` is false, so row 0 always starts
  group 0. The `fillna(True)` on app.py:40 never changes anything.
- Because the reset rule uses `<=`, two adjacent hits with window 0 (both at
  offset 0) still get separate groups.

## Model

| member | source | states |
|---|---|---|
| `Text.Strip` | app.py:38 | The stripped text is no longer than the input, and neither end is a Python whitespace character |
| `Text.StripIsFramed` | app.py:67 | `strip()` removes exactly a whitespace prefix and a whitespace suffix; the result is the infix between them |
| `Text.StripBlank` | app.py:38 | A text strips to `""` exactly when every character is whitespace |
| `Text.StripTrimmed` | app.py:67 | Stripping an already trimmed string changes nothing |
| `Text.ContainsAt` | app.py:22 | `k in text` holds exactly when `k` occurs at some position of `text` |
| `Text.HitIsNotBlank` | app.py:22 | A text containing a non-empty trimmed keyword is not blank after stripping |
| `Text.SplitPiecesLackSep` | app.py:67 | No piece of `split(',')` contains a comma |
| `Text.JoinSplit` | app.py:67 | Joining the pieces of a split with the separator gives back the original string |
| `Text.SplitJoin` | app.py:67 | Splitting a join of separator-free pieces gives back those pieces |
| `Text.SplitAround` | app.py:67 | Splitting `a + ',' + b` gives the pieces of `a` followed by the pieces of `b` |
| `Keywords.StripNonEmptyValid` | app.py:67 | The kept pieces are non-empty and trimmed, never more than the input pieces, and comma-free when the input pieces are |
| `Keywords.ParseKeywords` | app.py:67 | Every parsed keyword is non-empty, trimmed and free of commas |
| `Keywords.ParseAround` | app.py:67 | The keywords of `a + ',' + b` are those of `a` followed by those of `b`, so the input order is kept |
| `Keywords.ParseJoin` | app.py:67 | Parsing the comma-join of valid keywords gives back exactly those keywords |
| `Keywords.ParseBlankPiece` | app.py:67 | A blank piece between commas contributes no keyword |
| `Keywords.ParsePiece` | app.py:67 | A comma-free piece yields its stripped text as the single keyword, or no keyword when it is blank; with `ParseAround` this determines the parse of every input |
| `Keywords.StripNonEmptyKeeps` | app.py:67 | Pieces that are already valid keywords pass through unchanged |
| `Extract.Found` | app.py:22 | The matched keywords are exactly those occurring in the text, taken from the keyword list in list order |
| `Extract.FoundCounts` | app.py:22 | A keyword that occurs in the text is matched exactly as many times as the list holds it, so a keyword listed twice is joined twice |
| `Extract.IsJsonName` | app.py:15 | A file is scanned exactly when its last five characters fold, under ASCII lower-casing, to `.json` |
| `Extract.JsonAnyCase` | app.py:15 | Names ending in `.json`, `.JSON` or `.Json` are all scanned |
| `Extract.ScannedByChars` | app.py:15 | A name whose last five characters fold to `.`, `j`, `s`, `o`, `n` is scanned |
| `Extract.SkippedByLastChar` | app.py:15 | A name whose last character does not fold to `n` (e.g. `.jsonl`, `.txt`) is skipped |
| `Extract.SkippedFileNoRuns` | app.py:14-16 | A file that is not `.json` contributes no runs, wherever it is listed |
| `Extract.ExtractRecords` | app.py:12-35 | Every record comes from a hit in a scanned file: it describes the in-range utterance at the record's offset from the hit, at most `w` away, and carries the hit's own matches |
| `Extract.WindowFrom` | app.py:24-34 | The loop from offset `from` to `w` emits exactly the in-range positions, ascending, each with offset `j - hit` and position `j`'s speaker and text |
| `Extract.Window` | app.py:24-34 | The window emits exactly positions `max(0, i-w) .. min(n-1, i+w)`, each with offset `j - i`; out-of-range positions are omitted, not padded |
| `Extract.WindowShape` | app.py:24-32 | For `w >= 0` a run is non-empty, its offsets lie in `[-w, w]` and strictly increase, exactly one record has offset 0 (the hit itself), and all records carry the file name and the hit's matches |
| `Extract.HitWindowRecords` | app.py:22-32 | Each record of a hit's run carries the hit's own comma-joined matches; speaker and text come from the in-range context position `i + offset` |
| `Extract.WindowZero` | app.py:24 | With window 0 a hit yields exactly its own record at offset 0 |
| `Extract.WindowNegative` | app.py:24 | A negative window yields no records |
| `Extract.HitsFrom` | app.py:20-23 | The hit indices are ascending, in range, and an index is listed exactly when its utterance contains a keyword |
| `Extract.DocRunsMatchHits` | app.py:20-34 | A document's runs are, one for one and in order, the windows of its hits |
| `Extract.RunsAppend` | app.py:14-16 | Documents contribute their runs in the order they are listed |
| `Extract.ExtractAppend` | app.py:13-35 | The records of two batches of documents are the first batch's records followed by the second's |
| `Extract.RunCount` | app.py:14-24 | There is exactly one run per hit across all `.json` documents |
| `Extract.RunsAreHitWindows` | app.py:14-34 | Every run is the window of some hit of some document |
| `Extract.ExtractEmpty` | app.py:24-35 | No records at all exactly when the window is negative or nothing hits |
| `Export.KeepNonBlank` | app.py:38 | A record is kept exactly when it occurs in the input and its text is not blank after stripping |
| `Export.KeepExactly` | app.py:38 | Filtering keeps each non-blank record exactly as often as it occurred, in the original relative order |
| `Export.KeepAscending` | app.py:38 | Dropping rows keeps strictly ascending offsets ascending |
| `Export.RunningCount` | app.py:41 | Entry `r` of the cumulative sum is the start value plus the number of marks in positions `0..r` |
| `Export.Groups` | app.py:40-41 | Row 0 has group 0, and each later row's group is one more than its predecessor's exactly when its offset is not above the predecessor's, and otherwise the same |
| `Export.GroupsUnique` | app.py:40-41 | Any column that starts at 0 and steps by the same rule is the group column |
| `Export.GroupsMonotone` | app.py:40-41 | The group index never decreases |
| `Export.Bordered` | app.py:54 | On a non-decreasing group column, the border test holds exactly for the last row of each group |
| `Export.BorderedIsLastOfGroup` | app.py:53-54 | A row is bordered exactly when no later row shares its group, i.e. it is the last row of its group |
| `Export.OneBorderPerGroup` | app.py:53-54 | A bordered row's group differs from that of every later row, so no group has two bordered rows |
| `Export.EveryGroupBordered` | app.py:53-54 | Every group up to the last row's has a bordered row |
| `Export.MakeSheet` | app.py:37-58 | The sheet has the six-column header; its record column is exactly the non-blank records in order; its group column starts at 0 and steps by one exactly at each offset reset; and each row's border flag is the border test on that column |
| `Pipeline.HitRecordNotBlank` | app.py:22-26 | A hit's run contains its offset-0 record, which is not blank, and the run's offsets ascend |
| `Pipeline.AnchoredRunShaped` | app.py:38 | An ascending run with a non-blank offset-0 record stays non-empty and ascending after filtering, starting at or below 0 and ending at or above 0 |
| `Pipeline.HitWindowShaped` | app.py:22-38 | Every hit's surviving rows are non-empty, ascending, and straddle offset 0 |
| `Pipeline.LabelsStep` | app.py:40-41 | Concatenated shaped blocks, labelled by block index, obey the group column's start and step rule |
| `Pipeline.KeepRuns` | app.py:38 | Dropping blank rows from all records is the same as dropping them run by run |
| `Pipeline.GroupsAreHitIndices` | app.py:22-41 | After filtering, every row's group index is the index of the hit that emitted it |
| `Pipeline.GroupCountIsHitCount` | app.py:22-41 | The sheet has exactly as many groups as there were hits |
| `Pipeline.GroupsMatchHits` | app.py:22-41 | Each hit's surviving rows form exactly one non-empty contiguous group, hits are numbered 0, 1, 2, … in emission order, and there are as many groups as hits |
| `Pipeline.Run` | app.py:66-73 | `run` answers "no results" exactly when the window is negative or nothing hits; otherwise it returns the success message and the sheet built from the extracted records, which is non-empty, lists exactly the non-blank records in order, and has one group per hit |

## Left out

- The Gradio interface (app.py:75-90) is presentation only.
- Zip extraction, `tempfile` and `os.listdir` (app.py:14, 43, 62-65) are file-system I/O. Documents are an input sequence, and the listing order is whatever the caller passes.
- JSON decoding (`ujson`/`json`) and the defaults for a missing `document` or `utterance` key (app.py:7-10, 17-19) are library parsing. A document is its name plus already-decoded utterances. The `IndexError` that an empty `document` list raises is not modelled. Only the first entry of a file's `document` list is read (app.py:19); the utterances of any further entry are ignored, and a document here stands for that first entry.
- xlsxwriter workbooks, cell writes and the bold and border format objects (app.py:43-57) are reduced to the header plus a sequence of (record, group, bordered) rows; the returned temporary file path is not modelled.
- `pd.to_numeric(...).fillna(0).astype(int)` (app.py:39) is the identity here, because offsets are integers from the extractor.
- With at least one keyword, a `form` that is JSON `null` in a scanned file aborts the run with `TypeError` when the loop reaches that utterance (app.py:21-22); the records already collected are discarded. With no keywords the containment test never runs and the answer is "no results". Not modelled: texts are strings.
- `ThreadPoolExecutor` (app.py:4) is imported but never used.
- Non-integer slider values are out of scope: the window is an integer.
- `fn.lower()` is modelled as an ASCII case fold. No other character lowers to one of `.json`, so the suffix test is unaffected.
