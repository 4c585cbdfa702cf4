/** Where the checkpoint file lands for a few data directories. */
module StoreExamples {
  import opened ByteStrings
  import Paths
  import opened GtidStore

  /** An absolute data directory: the file sits directly inside it. */
  lemma AbsoluteDataDir()
    ensures CheckpointPath(Store("/data")) == "/data/lastgtid"
  {
    var dir: Bytes := "/data";
    DataIsCleanDir(dir);
    CheckpointPathOfCleanDir(dir);
    DataPathText();
  }

  lemma DataPathText()
    ensures "/data" + [Paths.Slash] + FileName == "/data/lastgtid"
  {
  }

  lemma DataIsCleanDir(dir: Bytes)
    requires dir == "/data"
    ensures |dir| > 0 && Paths.IsCleanDir(dir)
  {
    var rel: Bytes := "data";
    assert Paths.Relative(dir) == rel;
    Paths.SplitOfName(rel);
    assert Paths.IsName(rel);
  }

  /** No data directory: the file is `lastgtid` in the working directory. */
  lemma EmptyDataDir()
    ensures CheckpointPath(Store("")) == "lastgtid"
  {
    Paths.SplitOfName(FileName);
    Paths.ResolveNames([FileName], false, []);
  }
}
