/**
 The sender and the store together: a sender whose checkpoints go to a `GtidStore` leaves in
 the store the GTID of the last line it handled completely, which is where a restarted reader
 resumes.
 */
module Checkpointing {
  import opened Wrappers
  import opened ByteStrings
  import opened Gtids
  import GtidStore
  import opened KafkaSender

  /** Save checkpoints one after the other; the first failing write stops the sequence. */
  function SaveAll(store: GtidStore.Store, fs: GtidStore.FileSystem, gs: seq<Option<Gtid>>): (r: Result<GtidStore.FileSystem, GtidStore.StoreError>)
    decreases |gs|
  {
    if |gs| == 0 then Ok(fs)
    else match GtidStore.Write(store, fs, gs[0])
      case Err(e) => Err(e)
      case Ok(next) => SaveAll(store, next, gs[1..])
  }

  /** On a writable checkpoint path every save succeeds, and the file holds the text of the last one. */
  lemma {:induction false} SaveAllKeepsLast(store: GtidStore.Store, fs: GtidStore.FileSystem, gs: seq<Option<Gtid>>)
    requires GtidStore.CheckpointPath(store) !in fs.readOnly
    requires |gs| > 0
    ensures var r := SaveAll(store, fs, gs);
            r.Ok? && GtidStore.CheckpointPath(store) in r.value.files
            && r.value.files[GtidStore.CheckpointPath(store)] == OptionalText(gs[|gs| - 1])
    decreases |gs|
  {
    var next := GtidStore.Write(store, fs, gs[0]).value;
    if |gs| > 1 {
      SaveAllKeepsLast(store, next, gs[1..]);
    }
  }

  /** With a store that accepts every save, the sender never stops on a failed save. */
  lemma NeverFailsSaving(s: Sender, extract: Extractor, kafka: Kafka, acks: seq<bool>, inbox: seq<Delivery>)
    ensures Send(s, extract, kafka, acks, [], inbox).outcome != Failed(SaveFailed)
  {
    if kafka.connects(Brokers(s)) && kafka.producerStarts {
      LoopStepsInOrder(s.topic, extract, acks, [], inbox);
    }
  }

  /** What reading the store gives after the file holds the text of a (possibly absent) GTID. */
  function ReadBack(g: Option<Gtid>): Result<Gtid, GtidStore.StoreError>
  {
    match g
    case Some(x) => Ok(x)
    case None => Err(GtidStore.Unparsable(FieldCount(1)))
  }

  /**
   Resuming: when the checkpoint file is writable, saving the sender's checkpoints leaves a
   store that reads back the GTID of the last line the sender handled completely.
   */
  lemma ResumesAfterLastHandledLine(
    s: Sender, extract: Extractor, kafka: Kafka, acks: seq<bool>, inbox: seq<Delivery>,
    store: GtidStore.Store, fs: GtidStore.FileSystem)
    requires GtidStore.CheckpointPath(store) !in fs.readOnly
    requires Completed(Send(s, extract, kafka, acks, [], inbox)) > 0
    ensures var t := Send(s, extract, kafka, acks, [], inbox);
            var n := Completed(t);
            && n <= |inbox| && inbox[n - 1].Line? && extract(inbox[n - 1].data).Extracted?
            && var r := SaveAll(store, fs, Checkpoints(t.effects));
               r.Ok? && GtidStore.Read(store, r.value) == ReadBack(extract(inbox[n - 1].data).gtid)
  {
    var t := Send(s, extract, kafka, acks, [], inbox);
    var n := Completed(t);
    LastCheckpoint(s, extract, kafka, acks, [], inbox);
    var gs := Checkpoints(t.effects);
    SaveAllKeepsLast(store, fs, gs);
    var g := gs[|gs| - 1];
    if g.Some? {
      ParseText(g.value);
    }
  }
}
