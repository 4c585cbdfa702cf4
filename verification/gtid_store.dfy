/**
 The checkpoint: the last published GTID kept in one file, `lastgtid`, under a data directory,
 over a file system given as a map from path to contents.
 */
module GtidStore {
  import opened Wrappers
  import opened ByteStrings
  import opened Gtids
  import Paths

  const FileName: Bytes := "lastgtid"

  /**
   The files the store sees. A path missing from `files` cannot be read; a path in
   `readOnly` cannot be written (permissions, a missing directory).
   */
  datatype FileSystem = FileSystem(files: map<Bytes, Bytes>, readOnly: set<Bytes>)

  datatype Store = Store(dataDir: Bytes)

  datatype StoreError =
    | ReadFailed(path: Bytes)       // "read file <path> failed"
    | Unparsable(cause: ParseError) // the file does not hold a GTID
    | WriteFailed(path: Bytes)

  /** `path()`: Go's `path.Join` of the data directory and `lastgtid`. */
  function CheckpointPath(store: Store): Bytes
  {
    Paths.Join2(store.dataDir, FileName)
  }

  /** Whatever the data directory, the checkpoint path ends in the element `lastgtid`. */
  lemma CheckpointPathEndsWithFileName(store: Store)
    ensures Paths.EndsWithElement(CheckpointPath(store), FileName)
  {
    FileNameIsOneName();
    var dir := store.dataDir;
    if |dir| == 0 {
      assert CheckpointPath(store) == Paths.Clean(FileName);
      Paths.CleanKeepsLastName(FileName, FileName);
    } else {
      var joined := dir + [Paths.Slash] + FileName;
      LastElementOfJoin(dir);
      assert CheckpointPath(store) == Paths.Clean(joined);
      Paths.CleanKeepsLastName(joined, FileName);
    }
  }

  lemma FileNameIsOneName()
    ensures Paths.IsName(FileName) && Split(FileName, Paths.Slash) == [FileName]
  {
    assert Paths.Slash !in FileName;
  }

  lemma LastElementOfJoin(dir: Bytes)
    requires Split(FileName, Paths.Slash) == [FileName]
    ensures var parts := Split(dir + [Paths.Slash] + FileName, Paths.Slash);
            |parts| > 0 && parts[|parts| - 1] == FileName
  {
    Paths.SplitAppend(dir, FileName, Paths.Slash);
    var x := Split(dir, Paths.Slash);
    assert (x + [FileName])[|x + [FileName]| - 1] == FileName;
  }

  /** `Write`: store exactly the GTID's text form (empty for an absent GTID) at the checkpoint path. */
  function Write(store: Store, fs: FileSystem, g: Option<Gtid>): (r: Result<FileSystem, StoreError>)
    ensures r.Err? <==> CheckpointPath(store) in fs.readOnly
    ensures r.Err? ==> r.error == WriteFailed(CheckpointPath(store))
    ensures r.Ok? ==> CheckpointPath(store) in r.value.files
                      && r.value.files[CheckpointPath(store)] == OptionalText(g)
    ensures r.Ok? ==> r.value.readOnly == fs.readOnly
    ensures r.Ok? ==> forall p | p != CheckpointPath(store) ::
                        (p in r.value.files <==> p in fs.files)
                        && (p in fs.files ==> r.value.files[p] == fs.files[p])
  {
    var path := CheckpointPath(store);
    if path in fs.readOnly then Err(WriteFailed(path))
    else Ok(fs.(files := fs.files[path := OptionalText(g)]))
  }

  /** `Read`: a missing file is an error; otherwise the contents are parsed as a GTID. */
  function Read(store: Store, fs: FileSystem): (r: Result<Gtid, StoreError>)
    ensures CheckpointPath(store) !in fs.files ==> r == Err(ReadFailed(CheckpointPath(store)))
    ensures r.Ok? ==> CheckpointPath(store) in fs.files && Parse(fs.files[CheckpointPath(store)]) == Ok(r.value)
    ensures CheckpointPath(store) in fs.files ==>
              (r.Ok? <==> Parse(fs.files[CheckpointPath(store)]).Ok?)
              && (r.Err? ==> r.error == Unparsable(Parse(fs.files[CheckpointPath(store)]).error))
  {
    var path := CheckpointPath(store);
    if path !in fs.files then Err(ReadFailed(path))
    else match Parse(fs.files[path])
      case Ok(g) => Ok(g)
      case Err(e) => Err(Unparsable(e))
  }

  /** A GTID written to the store is the GTID read back from it. */
  lemma WriteThenRead(store: Store, fs: FileSystem, g: Gtid)
    requires Write(store, fs, Some(g)).Ok?
    ensures Read(store, Write(store, fs, Some(g)).value) == Ok(g)
  {
    ParseText(g);
  }

  /** Writing the absent GTID stores the empty string, which does not read back as a GTID. */
  lemma WriteAbsentThenRead(store: Store, fs: FileSystem)
    requires Write(store, fs, None).Ok?
    ensures Read(store, Write(store, fs, None).value) == Err(Unparsable(FieldCount(1)))
  {
  }

  /** For a directory already in clean form the checkpoint path is the directory, a slash and `lastgtid`. */
  lemma CheckpointPathOfCleanDir(dir: Bytes)
    requires |dir| > 0 && Paths.IsCleanDir(dir)
    ensures CheckpointPath(Store(dir)) == dir + [Paths.Slash] + FileName
  {
    assert Paths.IsName(FileName) && Paths.Slash !in FileName;
    Paths.CleanOfCleanDirJoin(dir, FileName);
  }
}
