/**
 * The specification of `SearchEngine.index_folder`: one scan over the files a
 * folder walk yields, as a pure fold over a sequence of `FileEntry` values.
 * `SearchBackend.SearchEngine.IndexFolder` is proved to compute exactly this.
 */
module Indexer {
  import opened Wrappers
  import opened DocIndex
  import opened TextRules
  import opened Providers

  /** One file the walk yields: `os.path.join(root, file)`, `file` and
      `os.path.getmtime(path)`. */
  datatype FileEntry = FileEntry(path: string, filename: string, mtime: real)

  /** What happens to one file, in the order the source decides it. */
  datatype Outcome =
    | Unsupported          // the extension filter rejects the name
    | UpToDate             // the stored mtime equals the current one
    | Blank                // the extracted text is empty or whitespace only
    | NoEmbedding          // the embedding is None or an empty list
    | Written(record: Record)

  /** The state a scan carries from file to file: the index, `count_new`, the
      snapshots saved so far and the messages sent to the progress callback. */
  datatype ScanState = ScanState(index: Index, count: nat, flushes: seq<Index>, messages: seq<string>)

  function Start(idx: Index): ScanState {
    ScanState(idx, 0, [], [])
  }

  function ProgressMessage(filename: string): string {
    "Verarbeite: " + filename + "..."
  }

  /** The decision for one file, given what the index holds for its path. */
  function Process(prior: Option<Record>, f: FileEntry, o: Oracles): Outcome {
    if !IsSupportedName(f.filename) then Unsupported
    else if prior.Some? && prior.value.mtime == f.mtime then UpToDate
    else
      var text := o.read(f.path);
      if IsBlank(text) then Blank
      else
        var vector := Embed(text, o.embed);
        if vector.None? || vector.value == [] then NoEmbedding
        else Written(Record(f.mtime, f.filename, Summarize(text, o.chat), vector))
  }

  /** The effect of one file's outcome on the scan state. */
  function Apply(s: ScanState, f: FileEntry, out: Outcome): ScanState {
    match out
    case Unsupported => s
    case UpToDate => s
    case Blank => s.(messages := s.messages + [ProgressMessage(f.filename)])
    case NoEmbedding => s.(messages := s.messages + [ProgressMessage(f.filename)])
    case Written(rec) =>
      var idx := Put(s.index, f.path, rec);
      var n := s.count + 1;
      ScanState(idx, n, if n % 5 == 0 then s.flushes + [idx] else s.flushes,
                s.messages + [ProgressMessage(f.filename)])
  }

  /** One iteration of the inner loop of `index_folder`. */
  function Step(s: ScanState, f: FileEntry, o: Oracles): ScanState {
    Apply(s, f, Process(Lookup(s.index, f.path), f, o))
  }

  /** The state after processing `files` in order, starting from `s`. */
  function ScanFiles(s: ScanState, files: seq<FileEntry>, o: Oracles): ScanState
    decreases |files|
  {
    if files == [] then s
    else Step(ScanFiles(s, files[..|files| - 1], o), files[|files| - 1], o)
  }

  /** The whole of `index_folder`: the scan, then one more save. */
  function IndexFolderSpec(idx: Index, files: seq<FileEntry>, o: Oracles): ScanState {
    var s := ScanFiles(Start(idx), files, o);
    s.(flushes := s.flushes + [s.index])
  }

  /** The index right after each record written during the scan, in order. */
  function Writes(s: ScanState, files: seq<FileEntry>, o: Oracles): seq<Index>
    decreases |files|
  {
    if files == [] then []
    else
      var before := ScanFiles(s, files[..|files| - 1], o);
      var f := files[|files| - 1];
      Writes(s, files[..|files| - 1], o)
        + if Process(Lookup(before.index, f.path), f, o).Written? then [Step(before, f, o).index] else []
  }

  ghost predicate Mentions(files: seq<FileEntry>, k: string) {
    exists j :: 0 <= j < |files| && files[j].path == k
  }

  /** A folder walk never yields one path twice. */
  ghost predicate DistinctPaths(files: seq<FileEntry>) {
    forall i, j :: 0 <= i < j < |files| ==> files[i].path != files[j].path
  }

  /** A file the scan can index whatever the index holds: its name passes the
      filter, its text is not blank and its embedding is a non-empty vector. */
  predicate Indexable(f: FileEntry, o: Oracles) {
    && IsSupportedName(f.filename)
    && !IsBlank(o.read(f.path))
    && var v := Embed(o.read(f.path), o.embed); v.Some? && v.value != []
  }

  function CountIndexable(files: seq<FileEntry>, o: Oracles): nat
    decreases |files|
  {
    if files == [] then 0
    else CountIndexable(files[..|files| - 1], o) + if Indexable(files[|files| - 1], o) then 1 else 0
  }

  /** A file the extension filter rejects, or whose stored mtime equals the
      current one, changes nothing: no message, no record, no count. */
  lemma StepSkips(s: ScanState, f: FileEntry, o: Oracles)
    requires !IsSupportedName(f.filename)
      || (Lookup(s.index, f.path).Some? && Lookup(s.index, f.path).value.mtime == f.mtime)
    ensures Step(s, f, o) == s
  {
  }

  /** A file that passes both checks but whose text is blank, or whose
      embedding is `None` or empty, only adds its progress message: any prior
      record for the path, `count_new` and the saves are left as they were. */
  lemma StepWritesNothing(s: ScanState, f: FileEntry, o: Oracles)
    requires IsSupportedName(f.filename)
    requires !(Lookup(s.index, f.path).Some? && Lookup(s.index, f.path).value.mtime == f.mtime)
    requires IsBlank(o.read(f.path))
      || Embed(o.read(f.path), o.embed).None? || Embed(o.read(f.path), o.embed).value == []
    ensures Step(s, f, o) == s.(messages := s.messages + [ProgressMessage(f.filename)])
  {
  }

  /** A file that passes both checks, has text and gets a non-empty embedding
      gets the record `{mtime, filename, summary, vector}` with the current
      mtime; `count_new` grows by exactly one, a save follows when it reaches
      a multiple of 5, and every other key keeps its value and position. */
  lemma StepWritesRecord(s: ScanState, f: FileEntry, o: Oracles)
    requires IsSupportedName(f.filename)
    requires !(Lookup(s.index, f.path).Some? && Lookup(s.index, f.path).value.mtime == f.mtime)
    requires !IsBlank(o.read(f.path))
    requires Embed(o.read(f.path), o.embed).Some? && Embed(o.read(f.path), o.embed).value != []
    ensures Lookup(Step(s, f, o).index, f.path)
      == Some(Record(f.mtime, f.filename, Summarize(o.read(f.path), o.chat), Embed(o.read(f.path), o.embed)))
    ensures Step(s, f, o).count == s.count + 1
    ensures Step(s, f, o).flushes
      == if Step(s, f, o).count % 5 == 0 then s.flushes + [Step(s, f, o).index] else s.flushes
    ensures Step(s, f, o).messages == s.messages + [ProgressMessage(f.filename)]
    ensures forall k :: k != f.path ==> Lookup(Step(s, f, o).index, k) == Lookup(s.index, k)
    ensures forall i :: 0 <= i < |s.index| ==> Step(s, f, o).index[i].0 == s.index[i].0
    ensures forall i :: 0 <= i < |s.index| && s.index[i].0 != f.path ==> Step(s, f, o).index[i] == s.index[i]
  {
    var rec := Record(f.mtime, f.filename, Summarize(o.read(f.path), o.chat), Embed(o.read(f.path), o.embed));
    StepWritten(s, f, o);
    PutLookup(s.index, f.path, rec);
    assert Step(s, f, o).index == Put(s.index, f.path, rec);
  }

  /** The case of `StepWritesRecord`, as the whole new state. */
  lemma StepWritten(s: ScanState, f: FileEntry, o: Oracles)
    requires IsSupportedName(f.filename)
    requires !(Lookup(s.index, f.path).Some? && Lookup(s.index, f.path).value.mtime == f.mtime)
    requires !IsBlank(o.read(f.path))
    requires Embed(o.read(f.path), o.embed).Some? && Embed(o.read(f.path), o.embed).value != []
    ensures Step(s, f, o)
      == Apply(s, f, Written(Record(f.mtime, f.filename, Summarize(o.read(f.path), o.chat), Embed(o.read(f.path), o.embed))))
  {
  }

  /** The shape of one iteration, stated on the outcome alone. */
  lemma StepShape(s: ScanState, f: FileEntry, out: Outcome)
    ensures var r := Apply(s, f, out);
      && (out.Written? ==>
            && r.index == Put(s.index, f.path, out.record)
            && r.count == s.count + 1
            && r.flushes == (if r.count % 5 == 0 then s.flushes + [r.index] else s.flushes))
      && (!out.Written? ==> r.index == s.index && r.count == s.count && r.flushes == s.flushes)
      && r.messages == if out.Unsupported? || out.UpToDate? then s.messages
                       else s.messages + [ProgressMessage(f.filename)]
  {
    match out
    case Written(rec) =>
    case _ =>
  }

  /** One iteration keeps each path at most once in the index. */
  lemma StepKeepsUnique(s: ScanState, f: FileEntry, o: Oracles)
    requires UniqueKeys(s.index)
    ensures UniqueKeys(Step(s, f, o).index)
  {
    var out := Process(Lookup(s.index, f.path), f, o);
    assert Step(s, f, o) == Apply(s, f, out);
    match out
    case Written(rec) => PutUnique(s.index, f.path, rec);
    case _ =>
  }

  /** A scan keeps each path at most once in the index. */
  lemma {:induction false} ScanKeepsUnique(s: ScanState, files: seq<FileEntry>, o: Oracles)
    requires UniqueKeys(s.index)
    ensures UniqueKeys(ScanFiles(s, files, o).index)
    decreases |files|
  {
    if files != [] {
      ScanKeepsUnique(s, files[..|files| - 1], o);
      StepKeepsUnique(ScanFiles(s, files[..|files| - 1], o), files[|files| - 1], o);
    }
  }

  /** One iteration touches at most the entry for the file's path. */
  lemma StepFrame(s: ScanState, f: FileEntry, out: Outcome)
    ensures |Apply(s, f, out).index| >= |s.index|
    ensures forall i :: 0 <= i < |s.index| ==> Apply(s, f, out).index[i].0 == s.index[i].0
    ensures forall i :: 0 <= i < |s.index| && s.index[i].0 != f.path ==> Apply(s, f, out).index[i] == s.index[i]
    ensures forall i :: |s.index| <= i < |Apply(s, f, out).index| ==> Apply(s, f, out).index[i].0 == f.path
  {
    match out
    case Written(rec) =>
      var t := Put(s.index, f.path, rec);
      assert Apply(s, f, out).index == t;
      if HasKey(s.index, f.path) {
        assert |t| == |s.index|;
      } else {
        assert |t| == |s.index| + 1 && t[|s.index|].0 == f.path;
      }
    case _ =>
      assert Apply(s, f, out).index == s.index;
  }

  /** A scan runs the files in order: scanning `a + b` is scanning `a` and then `b`. */
  lemma {:induction false} ScanAppend(s: ScanState, a: seq<FileEntry>, b: seq<FileEntry>, o: Oracles)
    ensures ScanFiles(s, a + b, o) == ScanFiles(ScanFiles(s, a, o), b, o)
    decreases |b|
  {
    if b == [] {
      assert a + b == a;
    } else {
      var b' := b[..|b| - 1];
      assert (a + b)[..|a + b| - 1] == a + b';
      assert (a + b)[|a + b| - 1] == b[|b| - 1];
      ScanAppend(s, a, b', o);
    }
  }

  /** One iteration changes the lookup of no other path. */
  lemma ApplyLookupFrame(s: ScanState, f: FileEntry, out: Outcome)
    ensures forall k :: k != f.path ==> Lookup(Apply(s, f, out).index, k) == Lookup(s.index, k)
  {
    match out
    case Written(rec) =>
      PutLookup(s.index, f.path, rec);
    case _ =>
  }

  /** What a scan does to the keys: keys never move and are
      never removed, a key no scanned file has as its path keeps its record,
      and every new key is the path of a scanned file. */
  lemma {:induction false} ScanFrame(s: ScanState, files: seq<FileEntry>, o: Oracles)
    ensures var t := ScanFiles(s, files, o).index;
      && |t| >= |s.index|
      && (forall i :: 0 <= i < |s.index| ==> t[i].0 == s.index[i].0)
      && (forall i :: 0 <= i < |s.index| && !Mentions(files, s.index[i].0) ==> t[i] == s.index[i])
      && (forall k :: !Mentions(files, k) ==> Lookup(t, k) == Lookup(s.index, k))
      && (forall i :: |s.index| <= i < |t| ==> Mentions(files, t[i].0))
    decreases |files|
  {
    if files != [] {
      var pre := files[..|files| - 1];
      var f := files[|files| - 1];
      ScanFrame(s, pre, o);
      var before := ScanFiles(s, pre, o);
      StepFrame(before, f, Process(Lookup(before.index, f.path), f, o));
      ApplyLookupFrame(before, f, Process(Lookup(before.index, f.path), f, o));
      var u := ScanFiles(s, pre, o).index;
      var t := ScanFiles(s, files, o).index;
      forall k | Mentions(pre, k) ensures Mentions(files, k) {
        var j :| 0 <= j < |pre| && pre[j].path == k;
        assert files[j].path == k;
      }
      assert Mentions(files, f.path) by { assert files[|files| - 1].path == f.path; }
      forall k | !Mentions(files, k) ensures !Mentions(pre, k) && k != f.path { }
      forall i | |u| <= i < |t| ensures Mentions(files, t[i].0) {
        assert t[i].0 == f.path;
      }
      forall i | |s.index| <= i < |u| ensures Mentions(files, t[i].0) {
        assert t[i].0 == u[i].0;
      }
    }
  }

  /** Over a walk that yields each path once, the record a file ends the scan
      with is the one its own step left: no later file touches its path. */
  lemma ScanLookupIsOwnStep(s: ScanState, files: seq<FileEntry>, o: Oracles, j: nat)
    requires DistinctPaths(files)
    requires j < |files|
    ensures Lookup(ScanFiles(s, files, o).index, files[j].path)
      == Lookup(Step(ScanFiles(s, files[..j], o), files[j], o).index, files[j].path)
  {
    var pre := files[..j + 1];
    var rest := files[j + 1..];
    assert files == pre + rest;
    ScanAppend(s, pre, rest, o);
    assert pre[..|pre| - 1] == files[..j];
    assert !Mentions(rest, files[j].path) by {
      forall m | 0 <= m < |rest| ensures rest[m].path != files[j].path {
        assert rest[m] == files[j + 1 + m];
      }
    }
    ScanFrame(ScanFiles(s, pre, o), rest, o);
  }

  /** Incrementality, the unchanged side: a file of the walk whose stored
      mtime equals its current one ends the scan with its record as it was,
      whatever the other files of the walk do. */
  lemma ScanKeepsUpToDate(s: ScanState, files: seq<FileEntry>, o: Oracles, j: nat)
    requires DistinctPaths(files)
    requires j < |files|
    requires Lookup(s.index, files[j].path).Some? && Lookup(s.index, files[j].path).value.mtime == files[j].mtime
    ensures Lookup(ScanFiles(s, files, o).index, files[j].path) == Lookup(s.index, files[j].path)
  {
    var pre := files[..j];
    assert !Mentions(pre, files[j].path) by {
      forall m | 0 <= m < |pre| ensures pre[m].path != files[j].path {
        assert pre[m] == files[m];
      }
    }
    ScanFrame(s, pre, o);
    StepSkips(ScanFiles(s, pre, o), files[j], o);
    ScanLookupIsOwnStep(s, files, o, j);
  }

  /** Incrementality, the changed side: an indexable file of the walk with no
      record, or with a record of another mtime, ends the scan with the record
      built from its current mtime, summary and vector. */
  lemma ScanUpdatesChanged(s: ScanState, files: seq<FileEntry>, o: Oracles, j: nat)
    requires DistinctPaths(files)
    requires j < |files|
    requires Indexable(files[j], o)
    requires !(Lookup(s.index, files[j].path).Some? && Lookup(s.index, files[j].path).value.mtime == files[j].mtime)
    ensures var f := files[j];
      Lookup(ScanFiles(s, files, o).index, f.path)
        == Some(Record(f.mtime, f.filename, Summarize(o.read(f.path), o.chat), Embed(o.read(f.path), o.embed)))
  {
    var pre := files[..j];
    assert !Mentions(pre, files[j].path) by {
      forall m | 0 <= m < |pre| ensures pre[m].path != files[j].path {
        assert pre[m] == files[m];
      }
    }
    ScanFrame(s, pre, o);
    StepWritesRecord(ScanFiles(s, pre, o), files[j], o);
    ScanLookupIsOwnStep(s, files, o, j);
  }

  lemma ApplyFlushesPrefix(s: ScanState, earlier: seq<Index>, f: FileEntry, out: Outcome)
    ensures Apply(s.(flushes := earlier + s.flushes), f, out)
      == Apply(s, f, out).(flushes := earlier + Apply(s, f, out).flushes)
  {
    match out
    case Written(rec) =>
      var n := s.count + 1;
      var idx := Put(s.index, f.path, rec);
      assert (if n % 5 == 0 then earlier + s.flushes + [idx] else earlier + s.flushes)
        == earlier + (if n % 5 == 0 then s.flushes + [idx] else s.flushes);
    case _ =>
  }

  /** The saves made before a scan do not affect it: they stay in front of
      the ones the scan makes. */
  lemma {:induction false} ScanFlushesPrefix(s: ScanState, earlier: seq<Index>, files: seq<FileEntry>, o: Oracles)
    ensures ScanFiles(s.(flushes := earlier + s.flushes), files, o)
      == ScanFiles(s, files, o).(flushes := earlier + ScanFiles(s, files, o).flushes)
    decreases |files|
  {
    if files != [] {
      var pre := files[..|files| - 1];
      var f := files[|files| - 1];
      ScanFlushesPrefix(s, earlier, pre, o);
      var t := ScanFiles(s, pre, o);
      ApplyFlushesPrefix(t, earlier, f, Process(Lookup(t.index, f.path), f, o));
    }
  }

  /** Where no file would be written, a scan leaves the index, the count and
      the flushes as they are. */
  lemma {:induction false} NoWritesNoChange(s: ScanState, files: seq<FileEntry>, o: Oracles)
    requires forall j :: 0 <= j < |files| ==> !Process(Lookup(s.index, files[j].path), files[j], o).Written?
    ensures var t := ScanFiles(s, files, o); t.index == s.index && t.count == s.count && t.flushes == s.flushes
    decreases |files|
  {
    if files != [] {
      var pre := files[..|files| - 1];
      assert forall j :: 0 <= j < |pre| ==> pre[j] == files[j];
      NoWritesNoChange(s, pre, o);
      assert !Process(Lookup(s.index, files[|files| - 1].path), files[|files| - 1], o).Written?;
    }
  }

  /** A file that is written carries its current mtime, so right after its
      own step it is up to date. */
  lemma StepSettles(s: ScanState, f: FileEntry, o: Oracles)
    ensures !Process(Lookup(Step(s, f, o).index, f.path), f, o).Written?
  {
    var out := Process(Lookup(s.index, f.path), f, o);
    assert Step(s, f, o) == Apply(s, f, out);
    match out
    case Written(rec) =>
      assert IsSupportedName(f.filename) && rec.mtime == f.mtime;
      PutLookup(s.index, f.path, rec);
      assert Lookup(Apply(s, f, out).index, f.path) == Some(rec);
    case _ =>
      assert Apply(s, f, out).index == s.index;
  }

  /** The half of idempotence that needs no determinism of the reader or the
      models: a file the scan wrote is up to date on a rescan with any
      oracles, so it is not even read again. */
  lemma RescanSkipsWritten(idx: Index, files: seq<FileEntry>, o: Oracles, o2: Oracles, j: nat)
    requires DistinctPaths(files)
    requires j < |files|
    requires Process(Lookup(ScanFiles(Start(idx), files[..j], o).index, files[j].path), files[j], o).Written?
    ensures Process(Lookup(ScanFiles(Start(idx), files, o).index, files[j].path), files[j], o2) == UpToDate
  {
    var before := ScanFiles(Start(idx), files[..j], o);
    var f := files[j];
    var out := Process(Lookup(before.index, f.path), f, o);
    ScanLookupIsOwnStep(Start(idx), files, o, j);
    assert Step(before, f, o).index == Put(before.index, f.path, out.record);
    PutLookup(before.index, f.path, out.record);
  }

  /** After a scan, no file of the same walk would be written again. */
  lemma {:induction false} RescanWritesNothingAt(idx: Index, files: seq<FileEntry>, o: Oracles, j: nat)
    requires DistinctPaths(files)
    requires j < |files|
    ensures !Process(Lookup(ScanFiles(Start(idx), files, o).index, files[j].path), files[j], o).Written?
  {
    var f := files[j];
    var before := ScanFiles(Start(idx), files[..j], o);
    var after := Step(before, f, o);
    var rest := files[j + 1..];
    assert files[..j + 1][..j] == files[..j];
    assert ScanFiles(Start(idx), files[..j + 1], o) == after;
    assert files[..j + 1] + rest == files;
    ScanAppend(Start(idx), files[..j + 1], rest, o);
    ScanFrame(after, rest, o);
    assert !Mentions(rest, f.path) by {
      forall m | 0 <= m < |rest| ensures rest[m].path != f.path {
        assert rest[m] == files[j + 1 + m];
      }
    }
    StepSettles(before, f, o);
  }

  /** Idempotence: scanning the same unchanged folder again, with the same
      reader and models, writes no record, changes nothing and saves once. */
  lemma Idempotence(idx: Index, files: seq<FileEntry>, o: Oracles)
    requires DistinctPaths(files)
    ensures var first := IndexFolderSpec(idx, files, o);
      var second := IndexFolderSpec(first.index, files, o);
      second.count == 0 && second.index == first.index && second.flushes == [first.index]
  {
    var first := ScanFiles(Start(idx), files, o);
    forall j | 0 <= j < |files|
      ensures !Process(Lookup(first.index, files[j].path), files[j], o).Written?
    {
      RescanWritesNothingAt(idx, files, o, j);
    }
    NoWritesNoChange(Start(first.index), files, o);
  }

  /** For a path the index does not hold, a file is written exactly when it
      is indexable. */
  lemma ProcessFresh(f: FileEntry, o: Oracles)
    ensures Process(None, f, o).Written? <==> Indexable(f, o)
  {
  }

  /** Partial-failure isolation: when the scanned paths are distinct and none
      is in the index yet, the count is the number of indexable files, so a
      file that fails does not affect the others. */
  lemma {:induction false} FreshScanCount(s: ScanState, files: seq<FileEntry>, o: Oracles)
    requires DistinctPaths(files)
    requires forall j :: 0 <= j < |files| ==> Lookup(s.index, files[j].path).None?
    ensures ScanFiles(s, files, o).count == s.count + CountIndexable(files, o)
    decreases |files|
  {
    if files != [] {
      var pre := files[..|files| - 1];
      var f := files[|files| - 1];
      assert forall j :: 0 <= j < |pre| ==> pre[j] == files[j];
      FreshScanCount(s, pre, o);
      ScanFrame(s, pre, o);
      var before := ScanFiles(s, pre, o);
      assert !Mentions(pre, f.path) by {
        forall m | 0 <= m < |pre| ensures pre[m].path != f.path {
          assert pre[m] == files[m];
        }
      }
      assert Lookup(before.index, f.path).None?;
      ProcessFresh(f, o);
      StepShape(before, f, Process(None, f, o));
    }
  }

  /** Flush pacing: `count_new` is the number of records written; the k-th
      save inside the loop (from 0) holds the index right after write 5k+5;
      so at any point at most 4 writes are not yet saved. */
  lemma {:induction false} FlushPacing(s: ScanState, files: seq<FileEntry>, o: Oracles)
    requires s.count == 0 && s.flushes == []
    ensures var t := ScanFiles(s, files, o); var w := Writes(s, files, o);
      && t.count == |w|
      && |t.flushes| == t.count / 5
      && t.count - 5 * |t.flushes| <= 4
      && (forall j :: 0 <= j < |t.flushes| ==> 5 * j + 4 < |w| && t.flushes[j] == w[5 * j + 4])
      && (|w| > 0 ==> w[|w| - 1] == t.index)
    decreases |files|
  {
    if files != [] {
      var pre := files[..|files| - 1];
      var f := files[|files| - 1];
      FlushPacing(s, pre, o);
      var before := ScanFiles(s, pre, o);
      StepShape(before, f, Process(Lookup(before.index, f.path), f, o));
      var u := ScanFiles(s, pre, o);
      var wu := Writes(s, pre, o);
      var t := ScanFiles(s, files, o);
      var w := Writes(s, files, o);
      if Process(Lookup(u.index, f.path), f, o).Written? {
        assert w == wu + [t.index];
        assert t.count == u.count + 1;
        if t.count % 5 == 0 {
          assert t.flushes == u.flushes + [t.index];
          assert |u.flushes| == u.count / 5;
          assert t.count / 5 == u.count / 5 + 1;
          assert 5 * |u.flushes| + 4 == u.count;
        } else {
          assert t.flushes == u.flushes;
          assert t.count / 5 == u.count / 5;
        }
      } else {
        assert w == wu;
        assert t.index == u.index && t.count == u.count && t.flushes == u.flushes;
      }
    }
  }

  /** `index_folder` saves exactly once per 5 writes and once more at the end;
      the last snapshot saved is the final index. */
  lemma IndexFolderFlushes(idx: Index, files: seq<FileEntry>, o: Oracles)
    ensures var r := IndexFolderSpec(idx, files, o);
      && |r.flushes| == r.count / 5 + 1
      && r.flushes[|r.flushes| - 1] == r.index
      && r.count == |Writes(Start(idx), files, o)|
  {
    FlushPacing(Start(idx), files, o);
  }
}
