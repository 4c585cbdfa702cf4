/**
 `KafkaSender.Send`: connect to the brokers, then for every line from the channel extract its
 GTID, publish the line to the topic keyed by the GTID's text, and only then save the GTID as
 the checkpoint; the first failure ends the loop. Kafka, the extractor and the store are
 parameters: the extractor is a function of the line, and the results of the producer's sends
 and of the store's writes are scripts taken one per call (an exhausted script succeeds).
 */
module KafkaSender {
  import opened Wrappers
  import opened ByteStrings
  import opened Gtids

  datatype Sender = Sender(brokers: Bytes, topic: Bytes)

  const BrokerSeparator: Byte := ','

  /** The broker addresses handed to the client: the setting split at commas. */
  function Brokers(s: Sender): (b: seq<Bytes>)
    ensures |b| >= 1 && Join(b, BrokerSeparator) == s.brokers
    ensures forall i | 0 <= i < |b| :: BrokerSeparator !in b[i]
  {
    Split(s.brokers, BrokerSeparator)
  }

  datatype Extraction = Extracted(gtid: Option<Gtid>) | ExtractionFailed
  type Extractor = Bytes -> Extraction

  /** Whether a client connects to these brokers, and whether a sync producer starts on it. */
  datatype Kafka = Kafka(connects: seq<Bytes> -> bool, producerStarts: bool)

  /** What the channel delivers next: a line, the channel being closed, or the context being cancelled. */
  datatype Delivery = Line(data: Bytes) | ChannelClosed | Cancelled

  datatype Message = Message(topic: Bytes, key: Bytes, value: Bytes)

  /** What the loop does to the outside world, in order: acknowledged publishes and successful checkpoints. */
  datatype Effect = Published(message: Message) | Checkpointed(gtid: Option<Gtid>)

  datatype SendError =
    | ClientFailed    // "create client failed"
    | ProducerFailed  // "create sync producer failed"
    | ExtractFailed   // "extract gtid failed"
    | PublishFailed   // "send message to kafka failed"
    | SaveFailed      // "save gtid failed"

  /** `Stopped` returns nil (closed channel or cancellation); `Waiting` has not returned: the channel has nothing more yet. */
  datatype Outcome = Stopped | Waiting | Failed(error: SendError)

  /** How many deliveries were taken from the channel, the effects, and how the loop ended. */
  datatype Trace = Trace(consumed: nat, effects: seq<Effect>, outcome: Outcome)

  /** Whether the `i`th call of a result script succeeds. */
  predicate Succeeds(script: seq<bool>, i: nat)
  {
    i >= |script| || script[i]
  }

  function Tail(script: seq<bool>): seq<bool>
  {
    if |script| == 0 then [] else script[1..]
  }

  /** The message for a line: keyed by the text of its GTID (empty for none), the line itself as the value. */
  function MessageFor(topic: Bytes, data: Bytes, g: Option<Gtid>): Message
  {
    Message(topic, OptionalText(g), data)
  }

  /** The data of the lines among some deliveries. */
  function Datas(ds: seq<Delivery>): seq<Bytes>
  {
    if |ds| == 0 then [] else (if ds[0].Line? then [ds[0].data] else []) + Datas(ds[1..])
  }

  /** Reference: the effects of handling lines one after the other with nothing failing. */
  function Handled(topic: Bytes, extract: Extractor, lines: seq<Bytes>): seq<Effect>
  {
    if |lines| == 0 then []
    else
      var head := match extract(lines[0])
        case Extracted(g) => [Published(MessageFor(topic, lines[0], g)), Checkpointed(g)]
        case ExtractionFailed => [];
      head + Handled(topic, extract, lines[1..])
  }

  /** The number of lines the loop handled completely: all consumed ones unless the last failed. */
  function Completed(t: Trace): nat
  {
    if t.outcome.Failed? && t.consumed > 0 then t.consumed - 1 else t.consumed
  }

  /** The loop after the client and producer exist; the lemmas below say what it does. */
  function Loop(topic: Bytes, extract: Extractor, acks: seq<bool>, saves: seq<bool>, inbox: seq<Delivery>): (t: Trace)
    ensures t.consumed <= |inbox|
    decreases |inbox|
  {
    if |inbox| == 0 then Trace(0, [], Waiting)
    else if !inbox[0].Line? then Trace(0, [], Stopped)
    else
      var data := inbox[0].data;
      match extract(data)
      case ExtractionFailed => Trace(1, [], Failed(ExtractFailed))
      case Extracted(g) =>
        var message := MessageFor(topic, data, g);
        if !Succeeds(acks, 0) then Trace(1, [], Failed(PublishFailed))
        else if !Succeeds(saves, 0) then Trace(1, [Published(message)], Failed(SaveFailed))
        else
          var rest := Loop(topic, extract, Tail(acks), Tail(saves), inbox[1..]);
          Trace(rest.consumed + 1, [Published(message), Checkpointed(g)] + rest.effects, rest.outcome)
  }

  /**
   The loop takes only lines from the channel; it returns nil exactly at a close or a
   cancellation, keeps waiting only once the channel is drained, and otherwise fails on the
   last line it took.
   */
  lemma {:induction false} LoopConsumes(topic: Bytes, extract: Extractor, acks: seq<bool>, saves: seq<bool>, inbox: seq<Delivery>)
    ensures var t := Loop(topic, extract, acks, saves, inbox);
            && (forall i | 0 <= i < t.consumed :: inbox[i].Line?)
            && (t.outcome.Stopped? ==> t.consumed < |inbox| && !inbox[t.consumed].Line?)
            && (t.outcome.Waiting? ==> t.consumed == |inbox|)
            && (t.outcome.Failed? ==> t.consumed > 0 && t.outcome.error in {ExtractFailed, PublishFailed, SaveFailed})
    decreases |inbox|
  {
    var t := Loop(topic, extract, acks, saves, inbox);
    if |inbox| > 0 && inbox[0].Line? && extract(inbox[0].data).Extracted? && Succeeds(acks, 0) && Succeeds(saves, 0) {
      LoopConsumes(topic, extract, Tail(acks), Tail(saves), inbox[1..]);
    }
  }

  lemma TailShifts(script: seq<bool>)
    ensures forall i: nat :: Succeeds(Tail(script), i) == Succeeds(script, i + 1)
  {
  }

  /**
   Every completely handled line had its GTID extracted, its publish acknowledged and its
   checkpoint saved; the line the loop fails on failed at exactly the step the error names.
   */
  lemma {:induction false} LoopStepsInOrder(topic: Bytes, extract: Extractor, acks: seq<bool>, saves: seq<bool>, inbox: seq<Delivery>)
    ensures var t := Loop(topic, extract, acks, saves, inbox);
            var n := Completed(t);
            && (forall i | 0 <= i < n :: inbox[i].Line? && extract(inbox[i].data).Extracted? && Succeeds(acks, i) && Succeeds(saves, i))
            && (t.outcome == Failed(ExtractFailed) ==>
                  n < |inbox| && inbox[n].Line? && extract(inbox[n].data).ExtractionFailed?)
            && (t.outcome == Failed(PublishFailed) ==>
                  n < |inbox| && inbox[n].Line? && extract(inbox[n].data).Extracted? && !Succeeds(acks, n))
            && (t.outcome == Failed(SaveFailed) ==>
                  n < |inbox| && inbox[n].Line? && extract(inbox[n].data).Extracted?
                  && Succeeds(acks, n) && !Succeeds(saves, n))
    decreases |inbox|
  {
    LoopConsumes(topic, extract, acks, saves, inbox);
    var t := Loop(topic, extract, acks, saves, inbox);
    if |inbox| > 0 && inbox[0].Line? && extract(inbox[0].data).Extracted? && Succeeds(acks, 0) && Succeeds(saves, 0) {
      var rest := Loop(topic, extract, Tail(acks), Tail(saves), inbox[1..]);
      LoopStepsInOrder(topic, extract, Tail(acks), Tail(saves), inbox[1..]);
      LoopConsumes(topic, extract, Tail(acks), Tail(saves), inbox[1..]);
      TailShifts(acks);
      TailShifts(saves);
      assert Completed(t) == Completed(rest) + 1;
      forall i | 0 < i < Completed(t)
        ensures inbox[i].Line? && extract(inbox[i].data).Extracted? && Succeeds(acks, i) && Succeeds(saves, i)
      {
        assert inbox[i] == inbox[1..][i - 1];
      }
    }
  }

  /**
   The effects of a trace over the channel's deliveries are those of handling its completed
   lines in order, each publish followed by its checkpoint, plus the publish of the failing
   line when it was its save that failed.
   */
  predicate EffectsOfCompleted(topic: Bytes, extract: Extractor, inbox: seq<Delivery>, t: Trace)
  {
    var n := Completed(t);
    && n <= |inbox|
    && (t.outcome == Failed(SaveFailed) ==>
          n < |inbox| && inbox[n].Line? && extract(inbox[n].data).Extracted?
          && t.effects == Handled(topic, extract, Datas(inbox[..n]))
                          + [Published(MessageFor(topic, inbox[n].data, extract(inbox[n].data).gtid))])
    && (t.outcome != Failed(SaveFailed) ==> t.effects == Handled(topic, extract, Datas(inbox[..n])))
  }

  /** The loop's effects are those of the lines it completed (see `EffectsOfCompleted`). */
  lemma {:induction false} LoopEffects(topic: Bytes, extract: Extractor, acks: seq<bool>, saves: seq<bool>, inbox: seq<Delivery>)
    ensures EffectsOfCompleted(topic, extract, inbox, Loop(topic, extract, acks, saves, inbox))
    decreases |inbox|
  {
    var t := Loop(topic, extract, acks, saves, inbox);
    if |inbox| > 0 && inbox[0].Line? {
      var g := extract(inbox[0].data);
      if g.Extracted? && Succeeds(acks, 0) && Succeeds(saves, 0) {
        LoopEffects(topic, extract, Tail(acks), Tail(saves), inbox[1..]);
        LoopConsumes(topic, extract, Tail(acks), Tail(saves), inbox[1..]);
        EffectsPrepend(topic, extract, inbox, g.gtid, Loop(topic, extract, Tail(acks), Tail(saves), inbox[1..]));
      } else {
        assert Completed(t) == 0;
        assert inbox[..0] == [];
      }
    } else {
      assert inbox[..0] == [];
    }
  }

  /** A completed line in front of a trace adds its publish and its checkpoint in front of the effects. */
  lemma EffectsPrepend(topic: Bytes, extract: Extractor, inbox: seq<Delivery>, g: Option<Gtid>, rest: Trace)
    requires |inbox| > 0 && inbox[0].Line? && extract(inbox[0].data) == Extracted(g)
    requires rest.outcome.Failed? ==> rest.consumed > 0
    requires EffectsOfCompleted(topic, extract, inbox[1..], rest)
    ensures EffectsOfCompleted(topic, extract, inbox,
              Trace(rest.consumed + 1, [Published(MessageFor(topic, inbox[0].data, g)), Checkpointed(g)] + rest.effects, rest.outcome))
  {
    var k := Completed(rest);
    HandledStep(topic, extract, inbox, k);
    if rest.outcome == Failed(SaveFailed) {
      assert inbox[k + 1] == inbox[1..][k];
    }
  }

  /** Handling one more line at the front of the channel. */
  lemma HandledStep(topic: Bytes, extract: Extractor, inbox: seq<Delivery>, k: nat)
    requires k < |inbox| && inbox[0].Line? && extract(inbox[0].data).Extracted?
    ensures Handled(topic, extract, Datas(inbox[..k + 1]))
            == [Published(MessageFor(topic, inbox[0].data, extract(inbox[0].data).gtid)),
                Checkpointed(extract(inbox[0].data).gtid)]
               + Handled(topic, extract, Datas(inbox[1..][..k]))
  {
    assert inbox[..k + 1][1..] == inbox[1..][..k];
    var ds := Datas(inbox[..k + 1]);
    assert ds == [inbox[0].data] + Datas(inbox[1..][..k]);
    assert ds[1..] == Datas(inbox[1..][..k]);
  }

  /** `KafkaSender.Send`: nothing is consumed unless the client and the producer were created. */
  function Send(s: Sender, extract: Extractor, kafka: Kafka, acks: seq<bool>, saves: seq<bool>, inbox: seq<Delivery>): (t: Trace)
    ensures !kafka.connects(Brokers(s)) ==> t == Trace(0, [], Failed(ClientFailed))
    ensures kafka.connects(Brokers(s)) && !kafka.producerStarts ==> t == Trace(0, [], Failed(ProducerFailed))
    ensures kafka.connects(Brokers(s)) && kafka.producerStarts ==> t == Loop(s.topic, extract, acks, saves, inbox)
  {
    if !kafka.connects(Brokers(s)) then Trace(0, [], Failed(ClientFailed))
    else if !kafka.producerStarts then Trace(0, [], Failed(ProducerFailed))
    else Loop(s.topic, extract, acks, saves, inbox)
  }

  // ---------------------------------------------------------------------------
  // What the effects add up to

  /** The acknowledged messages, in order. */
  function Publications(e: seq<Effect>): seq<Message>
  {
    if |e| == 0 then [] else (if e[0].Published? then [e[0].message] else []) + Publications(e[1..])
  }

  /** The saved checkpoints, in order. */
  function Checkpoints(e: seq<Effect>): seq<Option<Gtid>>
  {
    if |e| == 0 then [] else (if e[0].Checkpointed? then [e[0].gtid] else []) + Checkpoints(e[1..])
  }

  /** The messages for those lines whose GTIDs were extracted. */
  function MessagesOf(topic: Bytes, extract: Extractor, lines: seq<Bytes>): (m: seq<Message>)
    ensures (forall i | 0 <= i < |lines| :: extract(lines[i]).Extracted?) ==>
              |m| == |lines| && forall i | 0 <= i < |lines| :: m[i] == MessageFor(topic, lines[i], extract(lines[i]).gtid)
  {
    if |lines| == 0 then []
    else
      (if extract(lines[0]).Extracted? then [MessageFor(topic, lines[0], extract(lines[0]).gtid)] else [])
      + MessagesOf(topic, extract, lines[1..])
  }

  /** The GTIDs extracted from those lines whose extraction succeeds. */
  function GtidsOf(extract: Extractor, lines: seq<Bytes>): (g: seq<Option<Gtid>>)
    ensures (forall i | 0 <= i < |lines| :: extract(lines[i]).Extracted?) ==>
              |g| == |lines| && forall i | 0 <= i < |lines| :: g[i] == extract(lines[i]).gtid
  {
    if |lines| == 0 then []
    else (if extract(lines[0]).Extracted? then [extract(lines[0]).gtid] else []) + GtidsOf(extract, lines[1..])
  }

  lemma {:induction false} PublicationsAppend(a: seq<Effect>, b: seq<Effect>)
    ensures Publications(a + b) == Publications(a) + Publications(b)
    ensures Checkpoints(a + b) == Checkpoints(a) + Checkpoints(b)
  {
    if |a| > 0 {
      assert (a + b)[1..] == a[1..] + b;
      PublicationsAppend(a[1..], b);
    } else {
      assert a + b == b;
    }
  }

  /** Handling lines publishes one message per line and saves one checkpoint per line, in line order. */
  lemma {:induction false} HandledEffects(topic: Bytes, extract: Extractor, lines: seq<Bytes>)
    requires forall i | 0 <= i < |lines| :: extract(lines[i]).Extracted?
    ensures Publications(Handled(topic, extract, lines)) == MessagesOf(topic, extract, lines)
    ensures Checkpoints(Handled(topic, extract, lines)) == GtidsOf(extract, lines)
    ensures CheckpointsFollowPublishes(Handled(topic, extract, lines))
  {
    if |lines| > 0 {
      var g := extract(lines[0]).gtid;
      var head := [Published(MessageFor(topic, lines[0], g)), Checkpointed(g)];
      var rest := Handled(topic, extract, lines[1..]);
      HandledEffects(topic, extract, lines[1..]);
      PublicationsAppend(head, rest);
      assert Publications(head) == [MessageFor(topic, lines[0], g)] by {
        assert head[1..][1..] == [];
      }
      assert Checkpoints(head) == [g] by {
        assert head[1..][1..] == [];
      }
      FollowsAppend(head, rest);
    }
  }

  /** Every checkpoint comes right after the publish of a message keyed by that checkpoint's text. */
  predicate CheckpointsFollowPublishes(e: seq<Effect>)
  {
    forall i | 0 <= i < |e| && e[i].Checkpointed? ::
      i > 0 && e[i - 1].Published? && e[i - 1].message.key == OptionalText(e[i].gtid)
  }

  lemma FollowsAppend(a: seq<Effect>, b: seq<Effect>)
    requires CheckpointsFollowPublishes(a) && CheckpointsFollowPublishes(b)
    requires |b| > 0 ==> b[0].Published?
    ensures CheckpointsFollowPublishes(a + b)
  {
    var e := a + b;
    forall i | 0 <= i < |e| && e[i].Checkpointed?
      ensures i > 0 && e[i - 1].Published? && e[i - 1].message.key == OptionalText(e[i].gtid)
    {
      if i >= |a| {
        assert e[i] == b[i - |a|];
        if i > |a| {
          assert e[i - 1] == b[i - 1 - |a|];
        }
      }
    }
  }

  lemma DatasOfLines(ds: seq<Delivery>)
    requires forall i | 0 <= i < |ds| :: ds[i].Line?
    ensures |Datas(ds)| == |ds|
    ensures forall i | 0 <= i < |ds| :: Datas(ds)[i] == ds[i].data
  {
    if |ds| > 0 {
      DatasOfLines(ds[1..]);
    }
  }

  /** The loop-level form of `SendEffects`. */
  lemma LoopPublishes(topic: Bytes, extract: Extractor, acks: seq<bool>, saves: seq<bool>, inbox: seq<Delivery>)
    ensures var t := Loop(topic, extract, acks, saves, inbox);
            var n := Completed(t);
            && n <= |inbox|
            && (forall i | 0 <= i < n :: inbox[i].Line? && extract(inbox[i].data).Extracted?)
            && Checkpoints(t.effects) == GtidsOf(extract, Datas(inbox[..n]))
            && (t.outcome != Failed(SaveFailed) ==>
                  Publications(t.effects) == MessagesOf(topic, extract, Datas(inbox[..n])))
            && (t.outcome == Failed(SaveFailed) ==>
                  n < |inbox| && inbox[n].Line? && extract(inbox[n].data).Extracted?
                  && Publications(t.effects) == MessagesOf(topic, extract, Datas(inbox[..n]))
                                                + [MessageFor(topic, inbox[n].data, extract(inbox[n].data).gtid)])
            && CheckpointsFollowPublishes(t.effects)
  {
    var t := Loop(topic, extract, acks, saves, inbox);
    LoopConsumes(topic, extract, acks, saves, inbox);
    LoopStepsInOrder(topic, extract, acks, saves, inbox);
    LoopEffects(topic, extract, acks, saves, inbox);
    var n := Completed(t);
    var lines := Datas(inbox[..n]);
    DatasOfLines(inbox[..n]);
    HandledEffects(topic, extract, lines);
    if t.outcome == Failed(SaveFailed) {
      SaveFailedEffects(topic, extract, lines, inbox[n].data, t.effects);
    }
  }

  lemma SaveFailedEffects(topic: Bytes, extract: Extractor, lines: seq<Bytes>, data: Bytes, e: seq<Effect>)
    requires forall i | 0 <= i < |lines| :: extract(lines[i]).Extracted?
    requires extract(data).Extracted?
    requires e == Handled(topic, extract, lines) + [Published(MessageFor(topic, data, extract(data).gtid))]
    ensures Checkpoints(e) == GtidsOf(extract, lines)
    ensures Publications(e) == MessagesOf(topic, extract, lines) + [MessageFor(topic, data, extract(data).gtid)]
    ensures CheckpointsFollowPublishes(e)
  {
    var last := [Published(MessageFor(topic, data, extract(data).gtid))];
    HandledEffects(topic, extract, lines);
    PublicationsAppend(Handled(topic, extract, lines), last);
    FollowsAppend(Handled(topic, extract, lines), last);
  }

  /**
   The at-least-once discipline of `Send`: the checkpoints are the GTIDs of the completely
   handled lines in order, the publishes are those lines' messages in order plus the failing
   line's when its save failed, and every checkpoint directly follows the publish it covers.
   */
  lemma SendEffects(s: Sender, extract: Extractor, kafka: Kafka, acks: seq<bool>, saves: seq<bool>, inbox: seq<Delivery>)
    ensures var t := Send(s, extract, kafka, acks, saves, inbox);
            var n := Completed(t);
            && n <= |inbox|
            && (forall i | 0 <= i < n :: inbox[i].Line? && extract(inbox[i].data).Extracted?)
            && Checkpoints(t.effects) == GtidsOf(extract, Datas(inbox[..n]))
            && (t.outcome != Failed(SaveFailed) ==>
                  Publications(t.effects) == MessagesOf(s.topic, extract, Datas(inbox[..n])))
            && (t.outcome == Failed(SaveFailed) ==>
                  n < |inbox| && inbox[n].Line? && extract(inbox[n].data).Extracted?
                  && Publications(t.effects) == MessagesOf(s.topic, extract, Datas(inbox[..n]))
                                                + [MessageFor(s.topic, inbox[n].data, extract(inbox[n].data).gtid)])
            && CheckpointsFollowPublishes(t.effects)
  {
    if kafka.connects(Brokers(s)) && kafka.producerStarts {
      LoopPublishes(s.topic, extract, acks, saves, inbox);
    } else {
      assert inbox[..0] == [];
    }
  }

  /**
   Counting: every checkpoint has its publish, at most one publish lacks its checkpoint, and
   one does exactly when the loop failed saving; nothing is published that was not taken from
   the channel.
   */
  lemma CountingInvariant(s: Sender, extract: Extractor, kafka: Kafka, acks: seq<bool>, saves: seq<bool>, inbox: seq<Delivery>)
    ensures var t := Send(s, extract, kafka, acks, saves, inbox);
            var p, c := |Publications(t.effects)|, |Checkpoints(t.effects)|;
            && c <= p <= c + 1
            && p <= t.consumed
            && (p == c + 1 <==> t.outcome == Failed(SaveFailed))
  {
    SendEffects(s, extract, kafka, acks, saves, inbox);
    var t := Send(s, extract, kafka, acks, saves, inbox);
    var n := Completed(t);
    var lines := Datas(inbox[..n]);
    assert |lines| == n && forall i | 0 <= i < n :: extract(lines[i]).Extracted? by {
      DatasOfLines(inbox[..n]);
    }
    assert |Checkpoints(t.effects)| == n;
    assert |Publications(t.effects)| == if t.outcome == Failed(SaveFailed) then n + 1 else n;
    if kafka.connects(Brokers(s)) && kafka.producerStarts {
      LoopConsumes(s.topic, extract, acks, saves, inbox);
    }
  }

  /** The last checkpoint saved is the GTID of the last line handled completely. */
  lemma LastCheckpoint(s: Sender, extract: Extractor, kafka: Kafka, acks: seq<bool>, saves: seq<bool>, inbox: seq<Delivery>)
    requires Completed(Send(s, extract, kafka, acks, saves, inbox)) > 0
    ensures var t := Send(s, extract, kafka, acks, saves, inbox);
            var n := Completed(t);
            var c := Checkpoints(t.effects);
            && n <= |inbox| && inbox[n - 1].Line? && extract(inbox[n - 1].data).Extracted?
            && |c| == n && c[n - 1] == extract(inbox[n - 1].data).gtid
  {
    SendEffects(s, extract, kafka, acks, saves, inbox);
    var t := Send(s, extract, kafka, acks, saves, inbox);
    DatasOfLines(inbox[..Completed(t)]);
  }
}
