/** The search index of one folder: staged text, search rows and the manifest (server/search-index.ts). */
module SearchIndex {
  import opened Common
  import opened FolderMessages

  datatype ManifestRow = ManifestRow(path: Path, version: nat, hash: Hash, size: nat, author: string)
  datatype SearchRow = SearchRow(path: Path, version: nat, text: string)

  /** The two tables. Search rows have no key of their own, so they form a list. */
  datatype Tables = Tables(manifest: map<Path, ManifestRow>, search: seq<SearchRow>)

  /** Indexed text by content hash; `None` when the blob is missing. */
  type Blobs = Hash -> Option<string>

  function RowOf(value: FileValue): ManifestRow
    requires value.File?
  {
    ManifestRow(value.path, value.version, value.hash, value.size, value.author)
  }

  function DeletePath(rows: seq<SearchRow>, path: Path): seq<SearchRow> {
    Filter(rows, (row: SearchRow) => row.path != path)
  }

  /** Text staged by position in the batch. */
  type Staged = map<nat, string>

  /** One prepared message on the tables, with the text staged at its position, if any. */
  function IndexStep(tables: Tables, m: FileMessage, text: Option<string>): Tables {
    if IsControl(m) then if m.Reset? then Tables(map[], []) else tables
    else
      var manifest, search := tables.manifest - {m.key}, DeletePath(tables.search, m.key);
      if !IsLive(m) then Tables(manifest, search)
      else Tables(manifest[m.value.path := RowOf(m.value)],
                  search + (if text.None? then [] else [SearchRow(m.value.path, m.value.version, text.value)]))
  }

  function TextAt(staged: Staged, i: nat): Option<string> {
    if i in staged then Some(staged[i]) else None
  }

  /** The tables after a batch with this staging. */
  function Indexed(tables: Tables, ms: seq<FileMessage>, staged: Staged): Tables {
    if ms == [] then tables
    else
      var n := |ms| - 1;
      IndexStep(Indexed(tables, ms[..n], staged), ms[n], TextAt(staged, n))
  }

  /** Staging from position `from` on: the text of every live change there. */
  function StageFrom(blobs: Blobs, ms: seq<FileMessage>, from: nat): Staged {
    map i: nat | i < |ms| && i >= from && IsLive(ms[i]) && blobs(ms[i].value.hash).Some?
      :: blobs(ms[i].value.hash).value
  }

  /** Staging one more message. */
  lemma {:induction false} StageOne(blobs: Blobs, ms: seq<FileMessage>, i: nat, from: nat)
    requires i < |ms| && from <= |ms| && (from > 0 ==> ms[from - 1].Reset?)
    ensures StageFrom(blobs, ms[..i + 1], from)
         == if i + 1 < from || !IsLive(ms[i]) || blobs(ms[i].value.hash).None? then StageFrom(blobs, ms[..i], from)
            else StageFrom(blobs, ms[..i], from)[i := blobs(ms[i].value.hash).value]
  {
    assert ms[..i + 1][..i] == ms[..i];
  }

  class Index {
    var tables: Tables
    var staged: Staged

    constructor ()
      ensures tables == Tables(map[], []) && staged == map[]
    {
      tables, staged := Tables(map[], []), map[];
    }

    /** `prepareIndexChanges`: text before the last reset is never staged. */
    method Prepare(blobs: Blobs, ms: seq<FileMessage>)
      modifies this`staged
      ensures staged == StageFrom(blobs, ms, AfterReset(ms))
    {
      staged := map[];
      var lastReset := AfterReset(ms) - 1;
      for i := 0 to |ms|
        invariant staged == StageFrom(blobs, ms[..i], AfterReset(ms))
      {
        StageOne(blobs, ms, i, AfterReset(ms));
        if i < lastReset || !IsLive(ms[i]) { continue; }
        var text := blobs(ms[i].value.hash);
        if text.Some? { staged := staged[i := text.value]; }
      }
      assert ms[..|ms|] == ms;
    }

    /** `clearIndexFolder` */
    method Clear()
      modifies this`tables
      ensures tables == Tables(map[], [])
    {
      tables := Tables(map[], []);
    }

    /** `applyIndexChanges`: delete the path, insert the live row and its staged text, then drop the staging. */
    method Apply(ms: seq<FileMessage>)
      modifies this
      ensures tables == Indexed(old(tables), ms, old(staged))
      ensures staged == map[]
    {
      for i := 0 to |ms|
        invariant tables == Indexed(old(tables), ms[..i], old(staged)) && staged == old(staged)
      {
        var m := ms[i];
        assert ms[..i + 1][..i] == ms[..i];
        if IsControl(m) {
          if m.Reset? { Clear(); }
          continue;
        }
        var manifest, search := tables.manifest - {m.key}, DeletePath(tables.search, m.key);
        if IsLive(m) {
          manifest := manifest[m.value.path := RowOf(m.value)];
          if i in staged { search := search + [SearchRow(m.value.path, m.value.version, staged[i])]; }
        }
        tables := Tables(manifest, search);
      }
      assert ms[..|ms|] == ms;
      staged := map[];
    }

    /**
     * One unit: stage outside the transaction, then apply, or clear the folder when its stream is gone. The
     * tables keep describing the live files, each with the text that its content had when it was indexed.
     */
    method Process(blobs: Blobs, ms: seq<FileMessage>, gone: bool, ghost files: map<Path, FileValue>, ghost texts: Texts)
      requires Describes(tables, files, texts) && OwnPaths(ms)
      modifies this
      ensures gone ==> Describes(tables, map[], map[])
      ensures !gone ==> Describes(tables, LiveFiles(files, ms), TextsAfter(texts, blobs, ms))
      ensures !gone ==> tables == Indexed(old(tables), ms, StageFrom(blobs, ms, 0)) && staged == map[]
    {
      Prepare(blobs, ms);
      if gone { Clear(); return; }
      StagingIsEnough(tables, blobs, ms);
      IndexDescribesLiveFiles(tables, files, texts, blobs, ms);
      Apply(ms);
    }
  }

  /** The indexed text of each live path; `None` when its content was missing at the time. */
  type Texts = map<Path, Option<string>>

  /** A change is indexed with the text that its content has now; the other paths keep theirs. */
  function TextStep(texts: Texts, blobs: Blobs, m: FileMessage): Texts {
    if m.Reset? then map[]
    else if m.Snapshot? then texts
    else if IsLive(m) then texts[m.key := blobs(m.value.hash)]
    else texts - {m.key}
  }

  function TextsAfter(texts: Texts, blobs: Blobs, ms: seq<FileMessage>): Texts {
    if ms == [] then texts else TextStep(TextsAfter(texts, blobs, ms[..|ms| - 1]), blobs, ms[|ms| - 1])
  }

  /** When stored content never changes or disappears, every live file is indexed with the text of its content. */
  lemma {:induction false} StableBlobsGiveOwnText(
      texts: Texts, files: map<Path, FileValue>, blobs: Blobs, ms: seq<FileMessage>)
    requires OwnPaths(ms)
    requires forall p :: p in files ==> p in texts && files[p].File? && texts[p] == blobs(files[p].hash)
    ensures var files', texts' := LiveFiles(files, ms), TextsAfter(texts, blobs, ms);
      forall p :: p in files' ==> p in texts' && files'[p].File? && texts'[p] == blobs(files'[p].hash)
  {
    if ms != [] {
      var front, m := ms[..|ms| - 1], ms[|ms| - 1];
      StableBlobsGiveOwnText(texts, files, blobs, front);
      assert LiveFiles(files, ms) == ApplyFileChange(LiveFiles(files, front), m);
    }
  }

  /** An upsert sits under the path of its value. */
  ghost predicate OwnPaths(ms: seq<FileMessage>) {
    forall i :: 0 <= i < |ms| && ms[i].Upsert? ==> ms[i].key == ms[i].value.path
  }

  /** Both tables hold exactly the live files, each once, with its own version and indexed text. */
  ghost predicate Describes(tables: Tables, files: map<Path, FileValue>, texts: Texts) {
    && (forall p :: p in files ==> files[p].File? && files[p].path == p)
    && (forall p :: p in texts <==> p in files)
    && (forall p :: p in tables.manifest <==> p in files)
    && (forall p :: p in files ==>
          tables.manifest[p] == ManifestRow(p, files[p].version, files[p].hash, files[p].size, files[p].author))
    && (forall row :: row in tables.search ==>
          row.path in files && row.version == files[row.path].version
          && texts[row.path] == Some(row.text))
    && (forall p :: p in files && texts[p].Some? ==> SearchRow(p, files[p].version, texts[p].value) in tables.search)
    && (forall i, j :: 0 <= i < j < |tables.search| ==> tables.search[i].path != tables.search[j].path)
  }

  /** A reset in the batch makes the text staged before it irrelevant. */
  lemma {:induction false} StagingBeforeReset(tables: Tables, ms: seq<FileMessage>, a: Staged, b: Staged, reset: nat)
    requires reset < |ms| && ms[reset].Reset?
    requires forall i: nat :: i > reset ==> TextAt(a, i) == TextAt(b, i)
    ensures Indexed(tables, ms, a) == Indexed(tables, ms, b)
  {
    var n := |ms| - 1;
    if reset < n {
      StagingBeforeReset(tables, ms[..n], a, b, reset);
    }
  }

  lemma {:induction false} SameStaging(tables: Tables, ms: seq<FileMessage>, a: Staged, b: Staged)
    requires forall i: nat :: i < |ms| ==> TextAt(a, i) == TextAt(b, i)
    ensures Indexed(tables, ms, a) == Indexed(tables, ms, b)
  {
    if ms != [] { SameStaging(tables, ms[..|ms| - 1], a, b); }
  }

  /** Staging only after the last reset gives the same tables as staging every change. */
  lemma {:induction false} StagingIsEnough(tables: Tables, blobs: Blobs, ms: seq<FileMessage>)
    ensures Indexed(tables, ms, StageFrom(blobs, ms, AfterReset(ms))) == Indexed(tables, ms, StageFrom(blobs, ms, 0))
  {
    var n := AfterReset(ms);
    if n > 0 {
      StagingBeforeReset(tables, ms, StageFrom(blobs, ms, n), StageFrom(blobs, ms, 0), n - 1);
    }
  }

  lemma {:induction false} FilterUniquePaths(rows: seq<SearchRow>, path: Path)
    requires forall i, j :: 0 <= i < j < |rows| ==> rows[i].path != rows[j].path
    ensures var kept := DeletePath(rows, path);
      && (forall row :: row in kept <==> row in rows && row.path != path)
      && (forall i, j :: 0 <= i < j < |kept| ==> kept[i].path != kept[j].path)
  {
    if rows != [] {
      var rest := rows[1..];
      forall i, j | 0 <= i < j < |rest| ensures rest[i].path != rest[j].path { assert rows[i + 1].path != rows[j + 1].path; }
      FilterUniquePaths(rest, path);
      var kept := DeletePath(rest, path);
      forall i | 0 <= i < |kept| ensures kept[i].path != rows[0].path {
        assert kept[i] in rest;
        var j :| 0 <= j < |rest| && rest[j] == kept[i];
        assert rows[0].path != rows[j + 1].path;
      }
      assert DeletePath(rows, path) == (if rows[0].path != path then [rows[0]] else []) + kept;
      assert forall row :: row in rows <==> row == rows[0] || row in rest;
    }
  }

  lemma {:induction false} DropDescribes(tables: Tables, files: map<Path, FileValue>, texts: Texts, path: Path)
    requires Describes(tables, files, texts)
    ensures Describes(Tables(tables.manifest - {path}, DeletePath(tables.search, path)), files - {path}, texts - {path})
  {
    FilterUniquePaths(tables.search, path);
  }

  lemma {:induction false} AddDescribes(
      tables: Tables, files: map<Path, FileValue>, texts: Texts, value: FileValue, text: Option<string>)
    requires Describes(tables, files, texts) && value.File? && value.path !in files
    ensures Describes(Tables(tables.manifest[value.path := RowOf(value)],
                             tables.search + (if text.None? then [] else [SearchRow(value.path, value.version, text.value)])),
                      files[value.path := value], texts[value.path := text])
  {
    var search := tables.search + (if text.None? then [] else [SearchRow(value.path, value.version, text.value)]);
    forall row | row in search
      ensures row in tables.search || (text.Some? && row == SearchRow(value.path, value.version, text.value)) {}
    forall i | 0 <= i < |tables.search| ensures tables.search[i].path != value.path {
      assert tables.search[i] in tables.search;
    }
    if text.Some? { assert search[|tables.search|] == SearchRow(value.path, value.version, text.value); }
    forall row | row in tables.search ensures row in search {
      var i :| 0 <= i < |tables.search| && tables.search[i] == row;
      assert search[i] == row;
    }
  }

  lemma {:induction false} StepDescribes(tables: Tables, files: map<Path, FileValue>, texts: Texts, blobs: Blobs, m: FileMessage)
    requires Describes(tables, files, texts) && (m.Upsert? ==> m.key == m.value.path)
    ensures Describes(IndexStep(tables, m, if IsLive(m) then blobs(m.value.hash) else None),
                      ApplyFileChange(files, m), TextStep(texts, blobs, m))
  {
    if !IsControl(m) {
      DropDescribes(tables, files, texts, m.key);
      if IsLive(m) {
        var dropped := Tables(tables.manifest - {m.key}, DeletePath(tables.search, m.key));
        AddDescribes(dropped, files - {m.key}, texts - {m.key}, m.value, blobs(m.value.hash));
        assert (files - {m.key})[m.key := m.value] == files[m.key := m.value];
        assert (texts - {m.key})[m.key := blobs(m.value.hash)] == texts[m.key := blobs(m.value.hash)];
      }
    }
  }

  /** Any batch keeps the tables in step with the meaning of the stream. */
  lemma {:induction false} IndexDescribesLiveFiles(
      tables: Tables, files: map<Path, FileValue>, texts: Texts, blobs: Blobs, ms: seq<FileMessage>)
    requires Describes(tables, files, texts) && OwnPaths(ms)
    ensures Describes(Indexed(tables, ms, StageFrom(blobs, ms, 0)), LiveFiles(files, ms), TextsAfter(texts, blobs, ms))
  {
    if ms != [] {
      var front, m := ms[..|ms| - 1], ms[|ms| - 1];
      IndexDescribesLiveFiles(tables, files, texts, blobs, front);
      SameStaging(tables, front, StageFrom(blobs, front, 0), StageFrom(blobs, ms, 0));
      StepDescribes(Indexed(tables, front, StageFrom(blobs, front, 0)), LiveFiles(files, front),
                    TextsAfter(texts, blobs, front), blobs, m);
      assert TextAt(StageFrom(blobs, ms, 0), |ms| - 1) == if IsLive(m) then blobs(m.value.hash) else None;
      assert LiveFiles(files, ms) == ApplyFileChange(LiveFiles(files, front), m);
    }
  }
}
