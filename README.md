# ai-file-search: the indexing and search engine, in Dafny

This project models `SearchEngine` from core/search_backend.py. That is the
part of the local file-search tool that keeps an index from file path to a
record `{mtime, filename, summary, vector}`, updates it incrementally from a
folder scan, and answers queries by cosine-similarity ranking.

- `SearchBackend.SearchEngine` is a class with a mutable field `index`.
  - `IndexFolder` runs the loop of `index_folder`, updating `index` in
    place file by file.
  - `Search` runs the loop of `search` that collects the scored results,
    then sorts them and keeps the top 15.
  - Each method is proved to compute exactly a pure specification:
    `Indexer.IndexFolderSpec` and `Ranking.SearchSpec`.
  - `save_index` appends a snapshot of the index to a ghost flush log, so
    that the pacing of the saves can be stated.
- `DocIndex` models the index, a Python dict, as an association list with
  unique keys:
  - re-assigning a key keeps its position;
  - a new key is appended.

  This order decides how equal scores are ordered in a search.
- `Indexer` is the per-file decision of `index_folder`:
  1. extension filter;
  2. mtime check;
  3. progress message;
  4. blank-text check;
  5. embedding check;
  6. write, count and save every fifth write.

  It also holds the lemmas about a whole scan: idempotence, what a scan
  leaves untouched, the count of fresh files, and flush pacing.
- `Ranking` is the ranking pipeline:
  1. filter out entries without a vector or with a zero-norm vector;
  2. score each remaining entry;
  3. sort stably by descending score;
  4. cut to 15.

  It holds the lemmas on what the top 15 contains and in which order.
- `Providers` holds the two model-backed helpers:
  - `_get_embedding` cuts its text to 8000 characters and replaces newlines;
  - `_get_summary` sends the first 2500 characters to the chat model, with
    the fallbacks "Kein Inhalt." and "Zusammenfassung fehlgeschlagen.".

  The models themselves are oracles.
- `TextRules` holds the string rules:
  - the lower-cased extension test;
  - Python's `str.strip()` blank test;
  - the newline replacement.

Inputs that are I/O in the source become parameters:
- The folder walk is the sequence of `FileEntry(path, filename, mtime)` that
  `os.walk` and `os.path.getmtime` would yield.
- `read_file_content`, `ollama.embeddings` and `ollama.chat` are the three
  functions of an `Oracles` value. The embedding and chat oracles return
  `None` where the call raises.
- The cosine score is a parameter `score: (Vector, Vector) -> real`.
- What `load_index` finds on disk is a `StoredIndex` value.

A reader may expect the engine to do more than its code does. The model
follows the code in each of these places:
- **Saving.** One might expect a save to write a temporary file and rename it
  over the store, so that no half-written store is ever seen.
  `save_index` instead overwrites the file in place.
- **Progress messages.** One might expect a final completion message. The
  only message `index_folder` sends to the callback is the per-file
  "Verarbeite: <file>...".
- **Field name.** One might expect the time field to be named
  `modifiedTime`. The record field is `mtime`.
- **Malformed store.** One might expect a store that parses but is not an
  object of well-formed records to be discarded. `load_index` keeps whatever
  `json.load` returns. The fallback to an empty index happens only when the
  file is missing, or when opening or parsing it fails.
- **Dimension mismatch.** One might expect a query whose vector length
  differs from a record's to score no match. `search` raises from `np.dot`.
- **Vanished file.** One might expect a file that vanishes or is a dangling
  link to be skipped. In `index_folder`, `os.path.getmtime` raises outside
  any `try`. That aborts the whole scan, and the final save does not run.

## Model

| member | source | states |
|---|---|---|
| TextRules.IsBlank | core/search_backend.py:78 | the definition of `not text.strip()`: every character is one `str.isspace()` accepts; its effect on a scan is stated by `Indexer.StepWritesNothing` and `Indexer.ProcessFresh` |
| TextRules.IsSupportedName | core/search_backend.py:65 | the definition of the extension filter on ".pdf", ".docx" and ".txt"; `TextRules.EndsWithLowerSpec` proves each test is `lower()` then `endswith()` |
| TextRules.Lower | core/search_backend.py:65 | `str.lower()` restricted to A–Z: keeps the length and lower-cases A–Z in place, every other character unchanged |
| TextRules.ReplaceNewlines | core/search_backend.py:40 | `replace("\n", " ")` keeps the length, turns every newline into a space and keeps every other character |
| TextRules.EndsWithLowerSpec | core/search_backend.py:65 | the extension test used by the model holds exactly when the lower-cased name ends with the extension (both directions) |
| Providers.RequestText | core/search_backend.py:50 | the definition of the f-string prompt, the German instruction followed by the excerpt; `Providers.RequestTextInjective` proves that requests and message texts correspond one to one |
| Providers.RequestTextInjective | core/search_backend.py:50-51 | two summary requests send the same message text exactly when they are the same request, so a chat oracle over requests loses nothing |
| Providers.EmbeddingPrompt | core/search_backend.py:40 | the embedded text has length min(len(text), 8000), contains no newline, and agrees with the input except that newlines become spaces |
| Providers.SummaryRequestFor | core/search_backend.py:50 | the definition of the request for `text[:2500]`; `Providers.SummarySeesPrefixOnly` proves only those characters can influence the summary, and `Providers.SummaryOutcomes` gives each outcome |
| Providers.Embed | core/search_backend.py:37-45 | the definition of `_get_embedding`, the embedding oracle applied to `EmbeddingPrompt`; `Providers.EmbeddingPrompt` states what is sent and `Providers.EmbeddingSeesPrefixOnly` that only that prefix matters |
| Providers.Summarize | core/search_backend.py:47-54 | the definition of `_get_summary`; `Providers.ShortTextSkipsModel` and `Providers.SummaryOutcomes` state the three outcomes |
| Providers.ShortTextSkipsModel | core/search_backend.py:48 | a text shorter than 20 characters is summarised as "Kein Inhalt." whatever the chat model would answer, so the model is not consulted |
| Providers.SummaryOutcomes | core/search_backend.py:49-54 | for a text of 20 or more characters, the summary is the model's reply when the call succeeds and "Zusammenfassung fehlgeschlagen." when it fails, so it is never missing |
| Providers.SummarySeesPrefixOnly | core/search_backend.py:50 | two texts of 20 or more characters with the same 2500-character prefix get the same summary |
| Providers.EmbeddingSeesPrefixOnly | core/search_backend.py:40-41 | two texts whose first 8000 characters agree, up to newline versus space, get the same embedding |
| DocIndex.Lookup | core/search_backend.py:70 | `path in self.index` fails exactly when no entry has that key |
| DocIndex.PosOf | core/search_backend.py:111 | the iteration position of a key is that of its first entry, or the length when it is absent |
| DocIndex.Put | core/search_backend.py:84-89 | `index[path] = {...}` replaces an existing key where it stands or appends a new one; every key keeps its position and every other entry its value |
| DocIndex.PutLookup | core/search_backend.py:84-89 | after the assignment the key maps to the new record and every other key maps to what it mapped to before |
| DocIndex.LookupFirst | core/search_backend.py:70 | a lookup that finds a key finds the entry at the key's position |
| DocIndex.LookupAt | core/search_backend.py:111 | with unique keys, each entry met in iteration is what a lookup of its key returns, at its own position |
| DocIndex.PutUnique | core/search_backend.py:84-89 | assigning a key keeps every path in the index at most once |
| Indexer.ProgressMessage | core/search_backend.py:75 | the definition of the callback text "Verarbeite: <file>..."; `Indexer.StepSkips`, `Indexer.StepWritesNothing` and `Indexer.StepWritesRecord` state which outcomes send it |
| Indexer.Process | core/search_backend.py:65-90 | the definition of the per-file decision in source order; `Indexer.ProcessFresh` proves a fresh path is written exactly when the file is indexable, and `Indexer.StepSettles` that a written file is up to date next time |
| Indexer.Apply | core/search_backend.py:74-94 | the definition of the effect of each outcome; `Indexer.StepFrame`, `Indexer.ApplyLookupFrame` and `Indexer.StepWritesRecord` state what it changes and what it keeps |
| Indexer.Step | core/search_backend.py:65-94 | the definition of one iteration of the inner loop; `Indexer.StepSkips`, `Indexer.StepWritesNothing` and `Indexer.StepWritesRecord` state its three kinds of outcome |
| Indexer.ScanFiles | core/search_backend.py:63-94 | the definition of the loop as a fold in walk order; `Indexer.ScanAppend`, `Indexer.ScanFrame`, `Indexer.ScanKeepsUnique`, `Indexer.FreshScanCount` and `Indexer.FlushPacing` state it |
| Indexer.IndexFolderSpec | core/search_backend.py:56-97 | the definition of the whole of `index_folder`; `Indexer.Idempotence` and `Indexer.IndexFolderFlushes` state it |
| Indexer.StepSkips | core/search_backend.py:65-71 | a file whose name fails the extension filter, or whose stored mtime equals the current one, changes nothing: no message, no record, no count, no save |
| Indexer.StepWritesNothing | core/search_backend.py:74-82 | a file with blank text, or with no or an empty embedding, only adds its progress message; the prior record, `count_new` and the saves are unchanged |
| Indexer.StepWritesRecord | core/search_backend.py:83-94 | a successful file gets `{mtime, filename, summary, vector}` with the current mtime. `count_new` rises by exactly 1, with a save when it is a multiple of 5, and every other key keeps its value and position |
| Indexer.StepWritten | core/search_backend.py:81-90 | when the embedding is a non-empty vector, the file's step is the write of the record built from the current mtime, summary and vector |
| Indexer.StepShape | core/search_backend.py:74-94 | a helper that unfolds `Apply` case by case for the scan lemmas: a write puts the record, counts one and saves on a multiple of 5; any other outcome leaves the index, count and saves alone; only the two skips send no message |
| Indexer.StepKeepsUnique | core/search_backend.py:84-89 | one file keeps the index a dictionary (no path twice) |
| Indexer.ScanKeepsUnique | core/search_backend.py:63-94 | a whole scan keeps the index a dictionary |
| Indexer.StepFrame | core/search_backend.py:84-89 | one file touches at most its own path's entry: keys keep their positions, other entries their values, and a new entry has the file's path |
| Indexer.ApplyLookupFrame | core/search_backend.py:84-89 | one file changes the lookup of no other path |
| Indexer.ScanAppend | core/search_backend.py:63-64 | the files are processed in walk order: scanning `a + b` is scanning `a` and then `b` |
| Indexer.ScanFrame | core/search_backend.py:63-94 | over a scan, keys never move or disappear, a path no scanned file has keeps its record, and every new key is the path of a scanned file |
| Indexer.ScanLookupIsOwnStep | core/search_backend.py:63-94 | over a walk that yields each path once, the record a file ends the scan with is the one its own iteration left, so no later file of the walk changes it |
| Indexer.ScanKeepsUpToDate | core/search_backend.py:67-71 | incrementality, unchanged side: a file of the walk whose stored mtime equals its current one ends the whole scan with its record unchanged, whatever the other files do |
| Indexer.ScanUpdatesChanged | core/search_backend.py:67-90 | incrementality, changed side: an indexable file of the walk that has no record, or one with another mtime, ends the scan with the record of its current mtime, filename, summary and vector |
| Indexer.ApplyFlushesPrefix | core/search_backend.py:92-94 | one file's saves are independent of the saves made before it |
| Indexer.ScanFlushesPrefix | core/search_backend.py:92-96 | the saves made before a scan stay in front of the ones the scan makes and do not affect it |
| Indexer.NoWritesNoChange | core/search_backend.py:69-82 | a scan in which no file is written leaves index, count and saves unchanged |
| Indexer.StepSettles | core/search_backend.py:67-90 | a file just written is up to date, because it carries its current mtime, so it would be skipped next time |
| Indexer.RescanWritesNothingAt | core/search_backend.py:63-94 | after a scan over distinct paths, no file of the same walk would be written again |
| Indexer.Idempotence | core/search_backend.py:56-97 | re-running `index_folder` on the unchanged folder with the same reader and models writes no record, returns 0, keeps the index and saves it exactly once |
| Indexer.RescanSkipsWritten | core/search_backend.py:67-71 | a file the scan wrote is up to date on any rescan of the same walk, whatever the reader and models return then: the stored mtime equals the current one, so the file is skipped before it is read |
| Indexer.ProcessFresh | core/search_backend.py:65-90 | for a path not yet indexed, a file is written exactly when its name passes the filter, its text is not blank and its embedding is a non-empty vector (both directions) |
| Indexer.FreshScanCount | core/search_backend.py:77-90 | over distinct paths none of which is indexed yet, `count_new` rises by the number of indexable files: a failing file does not affect the others |
| Indexer.FlushPacing | core/search_backend.py:90-94 | `count_new` is the number of writes; snapshot k (from 0) is the index right after write 5k+5; and at most 4 writes are unsaved |
| Indexer.IndexFolderFlushes | core/search_backend.py:92-97 | `index_folder` saves count/5 + 1 times; the last snapshot is the final index, and the returned count is the number of records written |
| Ranking.IsZero | core/search_backend.py:107-109 | the definition of a zero norm on reals, every component 0.0; `Ranking.SearchRejectsQuery` proves a zero query gives `[]` |
| Ranking.Scorable | core/search_backend.py:112-117 | the definition of an entry that is scored, one with a "vector" of non-zero norm; `Ranking.CandidatesFromIndex` and `Ranking.CandidatesComplete` prove exactly these entries are scored |
| Ranking.HitFor | core/search_backend.py:112-120 | the definition of what one entry appends to `results`; `Ranking.CandidatesFromIndex` states it |
| Ranking.Candidates | core/search_backend.py:111-120 | the definition of `results` after the loop; `Ranking.CandidatesFromIndex`, `Ranking.CandidatesInIndexOrder` and `Ranking.CandidatesComplete` state it |
| Ranking.Rank | core/search_backend.py:111-124 | the definition of the filter, stable sort and top-15 cut; `Ranking.RankSorted`, `Ranking.RankSound`, `Ranking.RankOrder` and `Ranking.RankComplete` state it |
| Ranking.SearchSpec | core/search_backend.py:99-124 | the definition of `search`; `Ranking.SearchRejectsQuery` covers the rejected queries and the `Rank*` lemmas the rest |
| Ranking.Insert | core/search_backend.py:123 | inserting into the sorted list keeps the same elements plus the inserted one |
| Ranking.InsertBounded | core/search_backend.py:123 | inserting keeps every score below a bound that all inputs respect |
| Ranking.InsertSorted | core/search_backend.py:123 | inserting into a list sorted by descending score keeps it sorted |
| Ranking.SortDesc | core/search_backend.py:123 | the sort is a permutation of the candidates |
| Ranking.SortDescSorted | core/search_backend.py:123 | the sort orders by non-increasing score |
| Ranking.InsertAbove | core/search_backend.py:123 | inserting keeps a hit that ranks above every input ranked above every output |
| Ranking.InsertLex | core/search_backend.py:123 | inserting an element whose key precedes all others keeps the order (descending score, then ascending key) |
| Ranking.SortDescStable | core/search_backend.py:123 | stability of `list.sort(reverse=True)`: input in increasing key order comes out ordered by descending score, then by that key |
| Ranking.Take | core/search_backend.py:124 | the definition of `results[:15]`; `Ranking.RankSorted` proves at most 15 results, and `Ranking.RankComplete` that a dropped entry is outranked by all 15 kept |
| Ranking.CandidatesFromIndex | core/search_backend.py:111-120 | every collected result is `(score(q, vector), path, data)` for an index entry with a non-zero-norm vector, found at its path's position |
| Ranking.CandidatesInIndexOrder | core/search_backend.py:111-120 | results are collected in index iteration order |
| Ranking.CandidatesComplete | core/search_backend.py:111-120 | every entry with a vector of non-zero norm yields a result |
| Ranking.RankSorted | core/search_backend.py:122-124 | at most 15 results, with non-increasing scores |
| Ranking.RankSound | core/search_backend.py:111-124 | every result is `(score, path, index[path])` for an indexed path whose vector has a non-zero norm, scored against the query |
| Ranking.RankOrder | core/search_backend.py:111-124 | results with equal scores are in index iteration order, and no path appears twice |
| Ranking.RankComplete | core/search_backend.py:117-124 | a scorable entry that is not among the results is outranked by 15 results scoring at least as high |
| Ranking.SearchRejectsQuery | core/search_backend.py:101-109 | a failed, empty or zero-norm query embedding gives `[]` |
| SearchBackend.SearchEngine.constructor | core/search_backend.py:20-31 | `__init__` with `load_index`: a missing or unreadable store gives the empty index, a readable one its entries; nothing has been saved |
| SearchBackend.SearchEngine.SaveIndex | core/search_backend.py:33-35 | `save_index` records one full snapshot of the current index |
| SearchBackend.SearchEngine.IndexFolder | core/search_backend.py:56-97 | the loop computes the new index, the returned `count_new`, the progress messages and the saves of `IndexFolderSpec`, and keeps keys unique |
| SearchBackend.SearchEngine.IndexFile | core/search_backend.py:64-94 | one pass of the inner loop updates index, count, messages and saves exactly as the specification step for that file |
| SearchBackend.SearchEngine.IndexChanged | core/search_backend.py:73-94 | for a supported file that is not up to date, the progress message, text check and write leave exactly the state of the file's step |
| SearchBackend.SearchEngine.IndexText | core/search_backend.py:81-94 | for a file with non-blank text, the embedding check and write leave exactly the index, count and saves of the file's step |
| SearchBackend.SearchEngine.Store | core/search_backend.py:84-94 | the write assigns the record, counts one and saves exactly when the new count is a multiple of 5 |
| SearchBackend.SearchEngine.Search | core/search_backend.py:99-124 | the loop over the index and the following sort and slice return exactly `SearchSpec` of the current index |

## Left out

- The folder walk is left out (`os.walk`, `os.path.join`, `os.path.getmtime`). Its output is an input sequence of `FileEntry` values, whose order is the walk order. `DistinctPaths` states that a walk yields each path once.
  - Every `FileEntry` has an mtime, so every modelled scan completes. In the source, `os.path.getmtime` raises `FileNotFoundError` for a dangling link or a file that vanished after the listing. It is not inside a `try`, so `index_folder` aborts mid-scan. The final `save_index` does not run, up to 4 written records stay unsaved, and no count is returned. The model does not cover this abort path.
- The progress callback is not a parameter. The messages it would receive are returned from `IndexFolder`; when no callback is given, the source sends nothing.
- The reader and the embedding and chat models are oracles, which are total functions of their input. The model therefore assumes they answer the same way when asked again; `Idempotence` relies on this.
  - The chat oracle is indexed by `ChatRequest`. `RequestText` gives the exact message content sent.
  - A call that raises is the oracle's `None`. Logging is left out.
- Cosine similarity and numpy float arithmetic are left out: the score is a parameter. Two cases are not modelled:
  - NaN and rounding;
  - `np.dot` raising on vectors of different lengths.
- A zero norm is modelled as "every component is 0.0", which is exact on reals.
- JSON parsing and writing in `load_index` and `save_index` is left out. The store is a `StoredIndex` value, and a save is a snapshot in the ghost flush log.
  - The model does not cover a failed write or an exception that propagates from it.
  - A stored record that lacks "mtime" makes the source raise `KeyError`. The model's `Record` always has an mtime.
  - `StoredIndex.Parsed` holds only an object of well-formed records with unique keys. The model does not cover the other things `json.load` can return: a list, `null`, a record that is not an object, or a "vector" that is `null` or not a list of numbers. With those, the source may raise (`TypeError`, `AttributeError` or `ValueError`) in `index_folder` or `search`, or `search` may return a malformed result (a "vector" of `3` gives a norm above 0 and an array as its score). No model member promises what happens to such a store.
- TextRules.Lower: models `str.lower()` on the letters A to Z only. Python's `lower()` also lower-cases non-ASCII letters ('Ä' to 'ä'), and can lengthen a string ('İ' becomes two characters). The model keeps these unchanged. For the extension test this gives the same answer: the extensions are ASCII, and no other character lower-cases to one of their letters.
- Threading, the UI and the file opening in main.py are left out, as is format-specific parsing in core/file_reader.py. core/file_reader.py is not part of this model beyond its `read_file_content` oracle.
- SearchBackend.SearchEngine.Search: its ensures is only the connection to `SearchSpec`. The properties of the result are proved about `SearchSpec` and `Rank`, in `RankSorted`, `RankSound`, `RankOrder`, `RankComplete` and `SearchRejectsQuery`.
- SearchBackend.SearchEngine.Search: the in-place `results.sort` is the pure stable insertion sort `SortDesc`, applied to the collected sequence. It is not an in-place array sort.
- SearchBackend.SearchEngine.IndexFile: its new state, and that of `IndexChanged` and `IndexText`, is stated as `Step` of the old one, without saying that keys stay unique. Uniqueness is proved once over the whole scan by `ScanKeepsUnique` and stated by `IndexFolder`.
- SearchBackend.SearchEngine.Store: does not state that keys stay unique, because it has no `Valid()` clauses. `DocIndex.PutUnique` proves the assignment keeps keys unique, and `IndexFolder` states it for the whole scan.
