/**
 * `SearchEngine` of core/search_backend.py: the in-memory index, the loop of
 * `index_folder` that updates it in place, and `search`, which reads it.
 */
module SearchBackend {
  import opened Wrappers
  import opened DocIndex
  import opened TextRules
  import opened Providers
  import opened Indexer
  import opened Ranking

  /** What `load_index` finds in the index file. */
  datatype StoredIndex =
    | Missing              // no file at INDEX_FILE
    | Unreadable           // the file exists but opening or parsing it fails
    | Parsed(entries: Index)

  class SearchEngine {
    /** `self.index`. */
    var index: Index
    /** Every snapshot `save_index` has written, oldest first. */
    ghost var flushLog: seq<Index>

    ghost predicate Valid()
      reads this
    {
      UniqueKeys(index)
    }

    /** `__init__` with `load_index`: a missing or unreadable store gives an
        empty index, a readable one its entries (a JSON object has unique keys). */
    constructor (stored: StoredIndex)
      requires stored.Parsed? ==> UniqueKeys(stored.entries)
      ensures Valid()
      ensures index == (if stored.Parsed? then stored.entries else [])
      ensures flushLog == []
    {
      index := if stored.Parsed? then stored.entries else [];
      flushLog := [];
    }

    /** `save_index`: a full snapshot overwrites the store. */
    method SaveIndex()
      modifies this`flushLog
      ensures flushLog == old(flushLog) + [index]
    {
      flushLog := flushLog + [index];
    }

    /** `index_folder(folder, progress_callback)` over the files the walk
        yields; returns `count_new` and the messages sent to the callback. */
    method IndexFolder(files: seq<FileEntry>, o: Oracles) returns (countNew: nat, messages: seq<string>)
      requires Valid()
      modifies this
      ensures Valid()
      ensures index == IndexFolderSpec(old(index), files, o).index
      ensures countNew == IndexFolderSpec(old(index), files, o).count
      ensures messages == IndexFolderSpec(old(index), files, o).messages
      ensures flushLog == old(flushLog) + IndexFolderSpec(old(index), files, o).flushes
    {
      countNew := 0;
      messages := [];
      ghost var start := ScanState(index, 0, flushLog, []);
      var i := 0;
      while i < |files|
        invariant 0 <= i <= |files|
        invariant ScanState(index, countNew, flushLog, messages) == ScanFiles(start, files[..i], o)
      {
        assert files[..i + 1][..i] == files[..i];
        countNew, messages := IndexFile(files[i], o, countNew, messages);
        i := i + 1;
      }
      assert files[..i] == files;
      ScanFlushesPrefix(Start(old(index)), old(flushLog), files, o);
      ScanKeepsUnique(Start(old(index)), files, o);
      assert start == Start(old(index)).(flushes := old(flushLog) + []);
      SaveIndex();
    }

    /** One pass of the inner loop of `index_folder` for the file `f`, given
        `count_new` and the messages sent so far; the flush log stands for
        the saves made so far. */
    method IndexFile(f: FileEntry, o: Oracles, count: nat, sent: seq<string>)
      returns (count': nat, sent': seq<string>)
      modifies this
      ensures ScanState(index, count', flushLog, sent')
        == Step(ScanState(old(index), count, old(flushLog), sent), f, o)
    {
      count', sent' := count, sent;
      if IsSupportedName(f.filename) {
        var prior := Lookup(index, f.path);
        if !(prior.Some? && prior.value.mtime == f.mtime) {
          count', sent' := IndexChanged(f, o, count, sent);
        } else {
          StepSkips(ScanState(index, count, flushLog, sent), f, o);
        }
      } else {
        StepSkips(ScanState(index, count, flushLog, sent), f, o);
      }
    }

    /** The rest of the pass for a file that passes the extension filter and
        is not up to date: the progress message, the text and embedding
        checks, and the write. */
    method IndexChanged(f: FileEntry, o: Oracles, count: nat, sent: seq<string>)
      returns (count': nat, sent': seq<string>)
      requires IsSupportedName(f.filename)
      requires !(Lookup(index, f.path).Some? && Lookup(index, f.path).value.mtime == f.mtime)
      modifies this
      ensures ScanState(index, count', flushLog, sent')
        == Step(ScanState(old(index), count, old(flushLog), sent), f, o)
    {
      count' := count;
      sent' := sent + [ProgressMessage(f.filename)];
      var text := o.read(f.path);
      if !IsBlank(text) {
        count' := IndexText(f, o, text, count, sent);
      } else {
        StepWritesNothing(ScanState(index, count, flushLog, sent), f, o);
      }
    }

    /** The embedding check and the write, for a file with non-blank text;
        its progress message is the one its step adds to `sent`. */
    method IndexText(f: FileEntry, o: Oracles, text: string, count: nat, sent: seq<string>)
      returns (count': nat)
      requires IsSupportedName(f.filename)
      requires !(Lookup(index, f.path).Some? && Lookup(index, f.path).value.mtime == f.mtime)
      requires text == o.read(f.path) && !IsBlank(text)
      modifies this
      ensures ScanState(index, count', flushLog, sent + [ProgressMessage(f.filename)])
        == Step(ScanState(old(index), count, old(flushLog), sent), f, o)
    {
      count' := count;
      ghost var s := ScanState(index, count, flushLog, sent);
      var vector := Embed(text, o.embed);
      if vector.Some? && vector.value != [] {
        var summary := Summarize(text, o.chat);
        var rec := Record(f.mtime, f.filename, summary, vector);
        StepWritten(s, f, o);
        count' := Store(f.path, rec, count');
      } else {
        StepWritesNothing(s, f, o);
      }
    }

    /** Storing a new record: `self.index[path] = {...}`, `count_new += 1`
        and the save after every fifth record. */
    method Store(path: string, rec: Record, count: nat) returns (count': nat)
      modifies this
      ensures index == Put(old(index), path, rec)
      ensures count' == count + 1
      ensures flushLog == if count' % 5 == 0 then old(flushLog) + [index] else old(flushLog)
    {
      index := Put(index, path, rec);
      count' := count + 1;
      if count' % 5 == 0 {
        SaveIndex();
      }
    }

    /** `search(query)`: the ranked top 15. */
    method Search(query: string, embed: string -> Option<Vector>, score: (Vector, Vector) -> real)
      returns (results: seq<Hit>)
      ensures results == SearchSpec(index, query, embed, score)
    {
      var queryVec := Embed(query, embed);
      if queryVec.None? || queryVec.value == [] {
        return [];
      }
      var q := queryVec.value;
      if IsZero(q) {
        return [];
      }
      var hits: seq<Hit> := [];
      var i := 0;
      while i < |index|
        invariant 0 <= i <= |index|
        invariant hits == Candidates(index[..i], q, score)
      {
        var (path, data) := index[i];
        assert index[..i + 1][..i] == index[..i];
        if data.vector.Some? {
          var d := data.vector.value;
          if !IsZero(d) {
            hits := hits + [Hit(score(q, d), path, data)];
          }
        }
        i := i + 1;
      }
      assert index[..i] == index;
      hits := SortDesc(hits);
      results := Take(hits, 15);
    }
  }
}
