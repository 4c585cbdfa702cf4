/**
 The MaxScale CDC client session of `MaxscaleReader.Read`: dial, authenticate, register,
 request data, then stream newline-terminated lines until EOF, an `ERR` line, a read
 failure or cancellation.

 The connection is a script. Each `Write` call takes the next write result (an exhausted
 script accepts every write); each `Read` call takes the next read event (an exhausted
 script reads as end of stream). A `Cancel` event is the caller's context being cancelled
 at that point: the handshake does not watch the context, so a cancellation that arrives
 during it takes effect once the request has been written.
 */
module MaxscaleReader {
  import opened Wrappers
  import opened ByteStrings
  import Hex
  import opened Gtids

  /** The reader's settings: every field of `MaxscaleReader` except the dialer. */
  datatype Reader = Reader(
    user: Bytes,
    password: Bytes,
    uuid: Bytes,
    format: Bytes,   // JSON or AVRO
    database: Bytes,
    table: Bytes,
    version: Bytes)

  /** A SHA-1 digest is 20 bytes; the hash itself is a parameter of the model. */
  type Digest = d: Bytes | |d| == 20 witness "AAAAAAAAAAAAAAAAAAAA"
  type Sha1 = Bytes -> Digest

  datatype ReadEvent =
    | Data(chunk: Bytes)  // a Read call returning these bytes and no error
    | ReadFailure         // a Read call returning an error other than end of stream
    | EndOfStream         // a Read call returning io.EOF
    | Cancel              // the context is cancelled here; not a Read call

  datatype WriteResult = Written | WriteFailure

  datatype Script = Script(writeResults: seq<WriteResult>, events: seq<ReadEvent>)

  /** What the dialer returns. */
  datatype Dial = Dialed(script: Script) | DialFailure

  datatype SessionError =
    | DialFailed          // "connect to cdc failed"
    | AuthEncodeFailed    // "hex encode failed": writing the hex of user and colon
    | AuthWriteFailed     // "write failed": writing the hex of the password digest
    | ResponseReadFailed  // "read failed": the Read for a handshake response failed
    | LoginFailed         // "login failed": a handshake response not starting with OK (both steps)
    | RegisterFailed      // "register with uuid ... failed"
    | RequestFailed       // "write request to connection failed"
    | LineReadFailed      // "read line failed"
    | NoProgress          // "read line failed" after 100 consecutive empty reads
    | ServerError(line: Bytes) // "got error: <line>"

  /** How a session ends; `Closed` and `Cancelled` both return a nil error. */
  datatype Outcome = Closed | Cancelled | Failed(error: SessionError)

  /** Everything observable about one session. */
  datatype Session = Session(writes: seq<Bytes>, readCalls: nat, lines: seq<Bytes>, outcome: Outcome)

  predicate ReturnsError(o: Outcome)
  {
    o.Failed?
  }

  predicate IsHandshakeError(e: SessionError)
  {
    !(e.LineReadFailed? || e.NoProgress? || e.ServerError?)
  }

  const ResponseBufferSize: nat := 1024
  const OkPrefix: Bytes := "OK"
  const ErrPrefix: Bytes := "ERR"
  const Newline: Byte := '\n'

  /** bufio gives up with io.ErrNoProgress after this many Read calls in a row return nothing. */
  const MaxConsecutiveEmptyReads: nat := 100

  // ---------------------------------------------------------------------------
  // The commands

  /** `REGISTER UUID=<uuid>, TYPE=<format>` */
  function RegisterCommand(r: Reader): Bytes
  {
    "REGISTER UUID=" + r.uuid + ", TYPE=" + r.format
  }

  /** `buildRequestCommand`: `REQUEST-DATA DATABASE.TABLE[.VERSION] [GTID]`. */
  function RequestCommand(r: Reader, gtid: Option<Gtid>): Bytes
  {
    "REQUEST-DATA " + r.database + "." + r.table
    + (if |r.version| > 0 then "." + r.version else [])
    + (if gtid.Some? then " " + Text(gtid.value) else [])
  }

  /** The auth message: the hex of `user:` then the hex of the password's digest. */
  function AuthText(r: Reader, sha1: Sha1): Bytes
  {
    Hex.Encode(r.user + ":") + Hex.Encode(sha1(r.password))
  }

  /** The writes a fully successful handshake makes, in order. */
  function HandshakeWrites(r: Reader, sha1: Sha1, gtid: Option<Gtid>): seq<Bytes>
  {
    Hex.EncoderWrites(r.user + ":") + Hex.EncoderWrites(sha1(r.password))
    + [RegisterCommand(r), RequestCommand(r, gtid)]
  }

  /**
   What the server reads from the auth writes: together they carry exactly the auth text,
   and hex-decoding it gives back the user name, a colon and the password's digest.
   */
  lemma AuthWritesCarryCredentials(r: Reader, sha1: Sha1)
    ensures Concat(Hex.EncoderWrites(r.user + ":") + Hex.EncoderWrites(sha1(r.password))) == AuthText(r, sha1)
    ensures Hex.Decode(AuthText(r, sha1)) == Some(r.user + ":" + sha1(r.password))
  {
    ConcatAppend(Hex.EncoderWrites(r.user + ":"), Hex.EncoderWrites(sha1(r.password)));
    Hex.EncodeAppend(r.user + ":", sha1(r.password));
    Hex.DecodeEncode(r.user + ":" + sha1(r.password));
  }

  const Space: Byte := ' '

  /** The `DATABASE.TABLE[.VERSION]` part of a request. */
  function RequestTarget(r: Reader): Bytes
  {
    r.database + "." + r.table + (if |r.version| > 0 then "." + r.version else [])
  }

  lemma TextHasNoSpace(g: Gtid)
    ensures Space !in Text(g)
  {
    TextIsJoin(g);
    var f := Fields(g);
    assert Text(g) == f[0] + [Separator] + f[1] + [Separator] + f[2];
    assert Decimal.AllDigits(f[0]) && Decimal.AllDigits(f[1]) && Decimal.AllDigits(f[2]);
  }

  lemma RequestCommandParts(r: Reader, gtid: Option<Gtid>, keyword: Bytes)
    requires keyword == "REQUEST-DATA"
    ensures gtid.None? ==> RequestCommand(r, gtid) == keyword + [Space] + RequestTarget(r)
    ensures gtid.Some? ==> RequestCommand(r, gtid) == keyword + [Space] + RequestTarget(r) + [Space] + Text(gtid.value)
  {
  }

  /**
   How the server reads a request: split at spaces, it is the `REQUEST-DATA` keyword, the
   target and, only when a GTID was given, a last field that parses back to that GTID
   (as long as the database, table and version names contain no space).
   */
  lemma RequestFields(r: Reader, gtid: Option<Gtid>)
    requires Space !in r.database && Space !in r.table && Space !in r.version
    ensures gtid.None? ==> Split(RequestCommand(r, gtid), Space) == ["REQUEST-DATA", RequestTarget(r)]
    ensures gtid.Some? ==> Split(RequestCommand(r, gtid), Space) == ["REQUEST-DATA", RequestTarget(r), Text(gtid.value)]
    ensures gtid.Some? ==> Parse(Split(RequestCommand(r, gtid), Space)[2]) == Ok(gtid.value)
  {
    var keyword: Bytes := "REQUEST-DATA";
    assert Space !in keyword;
    var target := RequestTarget(r);
    TargetHasNoSpace(r);
    RequestCommandParts(r, gtid, keyword);
    if gtid.Some? {
      var text := Text(gtid.value);
      TextHasNoSpace(gtid.value);
      SplitTriple(keyword, target, text, Space);
      ParseText(gtid.value);
    } else {
      SplitPair(keyword, target, Space);
    }
  }

  /**
   How the server reads a registration: split at spaces it is `REGISTER`, `UUID=<uuid>,`
   and `TYPE=<format>` (as long as the UUID and the format contain no space).
   */
  lemma RegisterFields(r: Reader)
    requires Space !in r.uuid && Space !in r.format
    ensures Split(RegisterCommand(r), Space) == ["REGISTER", "UUID=" + r.uuid + ",", "TYPE=" + r.format]
  {
    var keyword: Bytes := "REGISTER";
    var id: Bytes := "UUID=" + r.uuid + ",";
    var kind: Bytes := "TYPE=" + r.format;
    assert Space !in keyword;
    assert Space !in id by {
      assert Space !in "UUID=" && Space !in ",";
    }
    assert Space !in kind by {
      assert Space !in "TYPE=";
    }
    assert RegisterCommand(r) == keyword + [Space] + id + [Space] + kind;
    SplitTriple(keyword, id, kind, Space);
  }

  lemma TargetHasNoSpace(r: Reader)
    requires Space !in r.database && Space !in r.table && Space !in r.version
    ensures Space !in RequestTarget(r)
  {
  }

  // ---------------------------------------------------------------------------
  // The handshake as a list of steps run in order until one fails

  datatype Op =
    | Send(data: Bytes, onError: SessionError)  // one Write call
    | ExpectOk                                   // `expectResponse(conn, "OK")`

  function Sends(chunks: seq<Bytes>, onError: SessionError): (ops: seq<Op>)
    ensures |ops| == |chunks|
    ensures forall i | 0 <= i < |ops| :: ops[i] == Send(chunks[i], onError)
  {
    if |chunks| == 0 then [] else [Send(chunks[0], onError)] + Sends(chunks[1..], onError)
  }

  /** The steps of `Read` before streaming. */
  function HandshakeOps(r: Reader, sha1: Sha1, gtid: Option<Gtid>): seq<Op>
  {
    Sends(Hex.EncoderWrites(r.user + ":"), AuthEncodeFailed)
    + Sends(Hex.EncoderWrites(sha1(r.password)), AuthWriteFailed)
    + [ExpectOk, Send(RegisterCommand(r), RegisterFailed), ExpectOk, Send(RequestCommand(r, gtid), RequestFailed)]
  }

  /** The bytes written by a list of steps. */
  function WritesOf(ops: seq<Op>): seq<Bytes>
  {
    if |ops| == 0 then []
    else (if ops[0].Send? then [ops[0].data] else []) + WritesOf(ops[1..])
  }

  /** The number of Read calls a list of steps makes: one per expected response. */
  function ReadsOf(ops: seq<Op>): nat
  {
    if |ops| == 0 then 0 else (if ops[0].ExpectOk? then 1 else 0) + ReadsOf(ops[1..])
  }

  lemma {:induction false} WritesOfAppend(a: seq<Op>, b: seq<Op>)
    ensures WritesOf(a + b) == WritesOf(a) + WritesOf(b)
  {
    if |a| > 0 {
      assert (a + b)[1..] == a[1..] + b;
      WritesOfAppend(a[1..], b);
    } else {
      assert a + b == b;
    }
  }

  lemma {:induction false} WritesOfSends(chunks: seq<Bytes>, e: SessionError)
    ensures WritesOf(Sends(chunks, e)) == chunks
  {
    if |chunks| > 0 {
      WritesOfSends(chunks[1..], e);
    }
  }

  /** The steps of the handshake write exactly the handshake's writes, in order. */
  lemma HandshakeOpsWrite(r: Reader, sha1: Sha1, gtid: Option<Gtid>)
    ensures WritesOf(HandshakeOps(r, sha1, gtid)) == HandshakeWrites(r, sha1, gtid)
  {
    var a := Sends(Hex.EncoderWrites(r.user + ":"), AuthEncodeFailed);
    var b := Sends(Hex.EncoderWrites(sha1(r.password)), AuthWriteFailed);
    var c := [ExpectOk, Send(RegisterCommand(r), RegisterFailed), ExpectOk, Send(RequestCommand(r, gtid), RequestFailed)];
    WritesOfAppend(a + b, c);
    WritesOfAppend(a, b);
    WritesOfSends(Hex.EncoderWrites(r.user + ":"), AuthEncodeFailed);
    WritesOfSends(Hex.EncoderWrites(sha1(r.password)), AuthWriteFailed);
    WritesOfTail(RegisterCommand(r), RequestCommand(r, gtid));
  }

  lemma WritesOfTail(register: Bytes, request: Bytes)
    ensures WritesOf([ExpectOk, Send(register, RegisterFailed), ExpectOk, Send(request, RequestFailed)])
            == [register, request]
  {
    var c := [ExpectOk, Send(register, RegisterFailed), ExpectOk, Send(request, RequestFailed)];
    assert c[1..][1..][1..][1..] == [];
    assert WritesOf(c[1..][1..][1..]) == [request];
    assert WritesOf(c[1..][1..]) == [request];
    assert WritesOf(c[1..]) == [register, request];
  }

  /** The connection as the session sees it: what is left of the script, and what happened so far. */
  datatype Conn = Conn(
    writeResults: seq<WriteResult>,
    events: seq<ReadEvent>,
    written: seq<Bytes>,
    readCalls: nat,
    cancelled: bool)

  function Open(s: Script): Conn
  {
    Conn(s.writeResults, s.events, [], 0, false)
  }

  datatype Step = Step(conn: Conn, failure: Option<SessionError>)

  /** One Write call. */
  function WriteStep(c: Conn, data: Bytes, onError: SessionError): (s: Step)
    ensures s.conn.written == c.written + [data]
    ensures s.conn.readCalls == c.readCalls && s.conn.cancelled == c.cancelled && s.conn.events == c.events
    ensures s.failure.Some? <==> |c.writeResults| > 0 && c.writeResults[0].WriteFailure?
    ensures s.failure.Some? ==> s.failure.value == onError
  {
    var ok := |c.writeResults| == 0 || c.writeResults[0].Written?;
    var rest := if |c.writeResults| == 0 then [] else c.writeResults[1..];
    Step(c.(writeResults := rest, written := c.written + [data]), if ok then None else Some(onError))
  }

  datatype Response = Response(conn: Conn, chunk: Option<Bytes>)

  /** The events from the next Read call on: cancellations in front of it are passed over. */
  function SkipCancels(events: seq<ReadEvent>): (r: seq<ReadEvent>)
    ensures |r| <= |events|
    ensures |r| > 0 ==> !r[0].Cancel?
  {
    if |events| > 0 && events[0].Cancel? then SkipCancels(events[1..]) else events
  }

  /** What a Read call leaves of the event it consumed: the bytes beyond the buffer, if any. */
  function Leftover(e: ReadEvent): seq<ReadEvent>
  {
    if e.Data? && |e.chunk| > ResponseBufferSize then [Data(e.chunk[ResponseBufferSize..])] else []
  }

  /**
   `read`: one Read call into a 1024-byte buffer. A longer chunk fills the buffer and the
   remainder is left for the next Read. Cancellations met on the way are noted.
   */
  function ReadResponse(c: Conn): (r: Response)
    ensures r.conn.readCalls == c.readCalls + 1
    ensures r.conn.written == c.written && r.conn.writeResults == c.writeResults
    ensures c.cancelled ==> r.conn.cancelled
    ensures r.chunk.Some? ==> |r.chunk.value| <= ResponseBufferSize
    decreases |c.events|
  {
    if |c.events| == 0 then Response(c.(readCalls := c.readCalls + 1), None)
    else match c.events[0]
      case Cancel => ReadResponse(c.(events := c.events[1..], cancelled := true))
      case Data(chunk) =>
        if |chunk| <= ResponseBufferSize then
          Response(c.(events := c.events[1..], readCalls := c.readCalls + 1), Some(chunk))
        else
          Response(c.(events := [Data(chunk[ResponseBufferSize..])] + c.events[1..], readCalls := c.readCalls + 1),
                   Some(chunk[..ResponseBufferSize]))
      case _ => Response(c.(events := c.events[1..], readCalls := c.readCalls + 1), None)
  }

  /** The bytes the next Read call returns, skipping cancellations: at most one buffer's worth. */
  function NextResponse(events: seq<ReadEvent>): Option<Bytes>
  {
    if |events| == 0 then None
    else if events[0].Cancel? then NextResponse(events[1..])
    else if events[0].Data? then
      var c := events[0].chunk;
      Some(if |c| <= ResponseBufferSize then c else c[..ResponseBufferSize])
    else None
  }

  /**
   What one `read` takes from the connection: the bytes of the next Read call, at most one
   buffer's worth; the rest of a longer chunk stays for the next Read, so no received byte is
   lost; everything after that event is untouched; cancellations in front of it are noted.
   */
  lemma {:induction false} ReadResponseTakesNext(c: Conn)
    ensures var r := ReadResponse(c);
            r.chunk == NextResponse(c.events)
            && r.conn.cancelled == (c.cancelled || |SkipCancels(c.events)| < |c.events|)
            && r.conn.events == (var e := SkipCancels(c.events); if |e| == 0 then [] else Leftover(e[0]) + e[1..])
            && (r.chunk.Some? ==> r.chunk.value + Received(r.conn.events) == Received(SkipCancels(c.events)))
    decreases |c.events|
  {
    if |c.events| > 0 && c.events[0].Cancel? {
      ReadResponseTakesNext(c.(events := c.events[1..], cancelled := true));
    } else if |c.events| > 0 && c.events[0].Data? {
      KeepsBytes(c.events[0].chunk, c.events[1..]);
    }
  }

  /** A chunk cut at the buffer size loses no bytes: the rest is received next. */
  lemma KeepsBytes(chunk: Bytes, after: seq<ReadEvent>)
    ensures var taken := if |chunk| <= ResponseBufferSize then chunk else chunk[..ResponseBufferSize];
            taken + Received(Leftover(Data(chunk)) + after) == Received([Data(chunk)] + after)
  {
    assert ([Data(chunk)] + after)[1..] == after;
    if |chunk| > ResponseBufferSize {
      var rest := [Data(chunk[ResponseBufferSize..])] + after;
      assert rest[1..] == after;
      assert chunk[..ResponseBufferSize] + chunk[ResponseBufferSize..] == chunk;
    } else {
      assert Leftover(Data(chunk)) + after == after;
    }
  }

  /** `expectResponse(conn, "OK")`. */
  function ExpectStep(c: Conn): (s: Step)
    ensures s.conn.written == c.written && s.conn.readCalls == c.readCalls + 1
    ensures c.cancelled ==> s.conn.cancelled
    ensures s.failure.Some? ==> s.failure.value == ResponseReadFailed || s.failure.value == LoginFailed
  {
    var r := ReadResponse(c);
    match r.chunk
    case None => Step(r.conn, Some(ResponseReadFailed))
    case Some(chunk) => Step(r.conn, if StartsWith(chunk, OkPrefix) then None else Some(LoginFailed))
  }

  /** A handshake step succeeds exactly when the next Read returns bytes that start with OK. */
  lemma {:induction false} ExpectStepIffOk(c: Conn)
    ensures ExpectStep(c).failure.None?
            <==> NextResponse(c.events).Some? && StartsWith(NextResponse(c.events).value, OkPrefix)
    ensures ExpectStep(c).failure == Some(ResponseReadFailed) <==> NextResponse(c.events).None?
    decreases |c.events|
  {
    if |c.events| > 0 && c.events[0].Cancel? {
      ExpectStepIffOk(c.(events := c.events[1..], cancelled := true));
    }
  }

  /** One step: a Send makes one Write call and fails with its own error, an ExpectOk one Read call. */
  function RunStep(op: Op, c: Conn): (s: Step)
    ensures s.conn.written == c.written + (if op.Send? then [op.data] else [])
    ensures s.conn.readCalls == c.readCalls + (if op.ExpectOk? then 1 else 0)
    ensures c.cancelled ==> s.conn.cancelled
    ensures s.failure.Some? && op.Send? ==> s.failure.value == op.onError
  {
    match op
    case Send(data, e) => WriteStep(c, data, e)
    case ExpectOk => ExpectStep(c)
  }

  /** How far a list of steps got: how many ran, and the failure of the last one, if any. */
  datatype Run = Run(conn: Conn, executed: nat, failure: Option<SessionError>)

  /** Run steps in order, stopping at the first that fails; nothing after it is written or read. */
  function RunOps(ops: seq<Op>, c: Conn): (r: Run)
    ensures r.executed <= |ops|
    ensures r.failure.None? ==> r.executed == |ops|
    ensures r.failure.Some? ==> r.executed > 0
    ensures r.failure.Some? && ops[r.executed - 1].Send? ==> r.failure.value == ops[r.executed - 1].onError
    ensures r.conn.written == c.written + WritesOf(ops[..r.executed])
    ensures r.conn.readCalls == c.readCalls + ReadsOf(ops[..r.executed])
    ensures c.cancelled ==> r.conn.cancelled
  {
    if |ops| == 0 then Run(c, 0, None)
    else
      var s := RunStep(ops[0], c);
      assert ops[..1] == [ops[0]];
      if s.failure.Some? then Run(s.conn, 1, s.failure)
      else
        var rest := RunOps(ops[1..], s.conn);
        assert ops[..rest.executed + 1] == [ops[0]] + ops[1..][..rest.executed];
        Run(rest.conn, rest.executed + 1, rest.failure)
  }

  // ---------------------------------------------------------------------------
  // Streaming

  /** A line as `ReadBytes('\n')` returns it: ends with its only newline. */
  predicate IsLine(l: Bytes)
  {
    |l| > 0 && l[|l| - 1] == Newline && Newline !in l[..|l| - 1]
  }

  /** The bytes the peer delivers before the first event that is not data. */
  function Received(events: seq<ReadEvent>): Bytes
  {
    if |events| == 0 || !events[0].Data? then [] else events[0].chunk + Received(events[1..])
  }

  datatype Streamed = Streamed(lines: seq<Bytes>, readCalls: nat, outcome: Outcome)

  /**
   The streaming loop over a `bufio.Reader`: `pending` holds bytes read but not yet returned
   as a line, `empties` counts Read calls in a row that returned nothing.
   Every forwarded line is a complete line not starting with ERR, and the only failures are
   those of the streaming phase; `StreamAccounting` relates the lines to the received bytes.
   */
  function Stream(events: seq<ReadEvent>, pending: Bytes, empties: nat): (r: Streamed)
    requires empties < MaxConsecutiveEmptyReads
    ensures forall i | 0 <= i < |r.lines| :: IsLine(r.lines[i]) && !StartsWith(r.lines[i], ErrPrefix)
    ensures r.outcome.Failed? ==> !IsHandshakeError(r.outcome.error)
    decreases |events|, |pending|
  {
    if Newline in pending then
      var i := IndexOf(pending, Newline);
      var line := pending[..i + 1];
      assert line[..|line| - 1] == pending[..i];
      if StartsWith(line, ErrPrefix) then
        Streamed([], 0, Failed(ServerError(line)))
      else
        var rest := Stream(events, pending[i + 1..], empties);
        Streamed([line] + rest.lines, rest.readCalls, rest.outcome)
    else if |events| == 0 then Streamed([], 1, Closed)
    else match events[0]
      case Cancel => Streamed([], 0, Cancelled)
      case EndOfStream => Streamed([], 1, Closed)
      case ReadFailure => Streamed([], 1, Failed(LineReadFailed))
      case Data(c) =>
        if |c| > 0 then
          var rest := Stream(events[1..], pending + c, 0);
          Streamed(rest.lines, rest.readCalls + 1, rest.outcome)
        else if empties + 1 == MaxConsecutiveEmptyReads then Streamed([], 1, Failed(NoProgress))
        else
          var rest := Stream(events[1..], pending, empties + 1);
          Streamed(rest.lines, rest.readCalls + 1, rest.outcome)
  }

  /**
   How a stream's result accounts for the bytes `total` it received: the lines are those
   bytes in order; an ERR line is a complete line that follows them; and unless the stream
   ended on an ERR line or on no progress, nothing after the lines holds a newline, so only
   an unterminated tail is dropped.
   */
  predicate Accounts(lines: seq<Bytes>, outcome: Outcome, total: Bytes)
  {
    IsPrefix(Concat(lines), total)
    && (outcome.Failed? && outcome.error.ServerError? ==>
          IsLine(outcome.error.line) && StartsWith(outcome.error.line, ErrPrefix)
          && IsPrefix(Concat(lines) + outcome.error.line, total))
    && (!(outcome.Failed? && (outcome.error.ServerError? || outcome.error.NoProgress?)) ==>
          Newline !in total[|Concat(lines)|..])
  }

  /** A stream accounts for the pending bytes and everything received after them. */
  lemma {:induction false} StreamAccounting(events: seq<ReadEvent>, pending: Bytes, empties: nat)
    requires empties < MaxConsecutiveEmptyReads
    ensures var r := Stream(events, pending, empties);
            Accounts(r.lines, r.outcome, pending + Received(events))
    decreases |events|, |pending|
  {
    if Newline in pending {
      var i := IndexOf(pending, Newline);
      var line := pending[..i + 1];
      assert line[..|line| - 1] == pending[..i];
      assert pending == line + pending[i + 1..];
      assert pending + Received(events) == line + (pending[i + 1..] + Received(events));
      if !StartsWith(line, ErrPrefix) {
        StreamAccounting(events, pending[i + 1..], empties);
        var rest := Stream(events, pending[i + 1..], empties);
        AccountsPrepend(line, rest.lines, rest.outcome, pending[i + 1..] + Received(events));
      }
    } else if |events| > 0 && events[0].Data? {
      var c := events[0].chunk;
      assert pending + Received(events) == (pending + c) + Received(events[1..]);
      if |c| > 0 {
        StreamAccounting(events[1..], pending + c, 0);
      } else if empties + 1 < MaxConsecutiveEmptyReads {
        assert pending + c == pending;
        StreamAccounting(events[1..], pending, empties + 1);
      }
    }
  }

  /** Forwarding one line in front of a stream's lines keeps its accounting. */
  lemma AccountsPrepend(line: Bytes, rest: seq<Bytes>, outcome: Outcome, after: Bytes)
    requires Accounts(rest, outcome, after)
    ensures Accounts([line] + rest, outcome, line + after)
  {
    var lines := [line] + rest;
    assert lines[1..] == rest;
    assert Concat(lines) == line + Concat(rest);
    assert (line + after)[|Concat(lines)|..] == after[|Concat(rest)|..];
    if outcome.Failed? && outcome.error.ServerError? {
      assert Concat(lines) + outcome.error.line == line + (Concat(rest) + outcome.error.line);
    }
  }

  /** The event that ends what the peer delivers: the first event that is not data, or end of stream. */
  function Terminator(events: seq<ReadEvent>): (e: ReadEvent)
    ensures !e.Data?
  {
    if |events| == 0 then EndOfStream
    else if events[0].Data? then Terminator(events[1..])
    else events[0]
  }

  /**
   How the streaming loop returns when it meets a terminator: end of stream is a nil
   error, any other read error is "read line failed", a cancellation is a nil return.
   */
  function EndingOf(e: ReadEvent): Outcome
    requires !e.Data?
  {
    match e
    case EndOfStream => Closed
    case ReadFailure => Failed(LineReadFailed)
    case Cancel => Cancelled
  }

  /** The stream was stopped by what it received rather than by how it ended: an ERR line or no progress. */
  predicate StoppedByContent(o: Outcome)
  {
    o.Failed? && (o.error.ServerError? || o.error.NoProgress?)
  }

  /**
   How a stream ends: as its terminator says, unless an ERR line or a run of empty reads
   stops it first. So a nil return after EOF means end of stream, "read line failed" means
   a read error, and a cancelled stream met a cancellation.
   */
  lemma {:induction false} StreamEnding(events: seq<ReadEvent>, pending: Bytes, empties: nat)
    requires empties < MaxConsecutiveEmptyReads
    ensures var o := Stream(events, pending, empties).outcome;
            o == EndingOf(Terminator(events)) || StoppedByContent(o)
    ensures var o := Stream(events, pending, empties).outcome;
            (o.Closed? ==> Terminator(events) == EndOfStream)
            && (o == Failed(LineReadFailed) ==> Terminator(events) == ReadFailure)
            && (o.Cancelled? ==> Terminator(events) == Cancel)
    decreases |events|, |pending|
  {
    if Newline in pending {
      var i := IndexOf(pending, Newline);
      var line := pending[..i + 1];
      if !StartsWith(line, ErrPrefix) {
        StreamEnding(events, pending[i + 1..], empties);
      }
    } else if |events| > 0 && events[0].Data? {
      var c := events[0].chunk;
      if |c| > 0 {
        StreamEnding(events[1..], pending + c, 0);
      } else if empties + 1 < MaxConsecutiveEmptyReads {
        StreamEnding(events[1..], pending, empties + 1);
      }
    }
  }

  /** A Read that returns exactly one ordinary line forwards that line and goes on streaming. */
  lemma StreamOneLine(line: Bytes, events: seq<ReadEvent>)
    requires IsLine(line) && !StartsWith(line, ErrPrefix)
    ensures var st := Stream(events, [], 0);
            Stream([Data(line)] + events, [], 0) == Streamed([line] + st.lines, st.readCalls + 1, st.outcome)
  {
    WholeLine(line);
    assert ([Data(line)] + events)[1..] == events;
    assert [] + line == line;
  }

  /** A Read that returns exactly one ERR line ends the stream with that line as the error. */
  lemma StreamErrLine(line: Bytes, events: seq<ReadEvent>)
    requires IsLine(line) && StartsWith(line, ErrPrefix)
    ensures Stream([Data(line)] + events, [], 0) == Streamed([], 1, Failed(ServerError(line)))
  {
    WholeLine(line);
    assert ([Data(line)] + events)[1..] == events;
    assert [] + line == line;
  }

  lemma WholeLine(line: Bytes)
    requires IsLine(line)
    ensures Newline in line && IndexOf(line, Newline) == |line| - 1
    ensures line[..|line|] == line && line[|line|..] == []
  {
    assert line[|line| - 1] == Newline;
  }

  // ---------------------------------------------------------------------------
  // The session

  /** A run from a fresh connection writes a prefix of the steps' writes, and all of them once every step ran. */
  lemma RunWritesPrefix(ops: seq<Op>, c: Conn)
    requires c.written == []
    ensures var run := RunOps(ops, c);
            IsPrefix(run.conn.written, WritesOf(ops))
            && (run.failure.None? ==> run.conn.written == WritesOf(ops))
  {
    var run := RunOps(ops, c);
    WritesOfAppend(ops[..run.executed], ops[run.executed..]);
    assert ops == ops[..run.executed] + ops[run.executed..];
    assert run.conn.written == WritesOf(ops[..run.executed]);
  }

  /** A run of the handshake writes a prefix of its writes, and all of them once every step ran. */
  lemma HandshakeRunWrites(r: Reader, sha1: Sha1, gtid: Option<Gtid>, c: Conn)
    requires c.written == []
    ensures var run := RunOps(HandshakeOps(r, sha1, gtid), c);
            IsPrefix(run.conn.written, HandshakeWrites(r, sha1, gtid))
            && (run.failure.None? ==> run.conn.written == HandshakeWrites(r, sha1, gtid))
  {
    RunWritesPrefix(HandshakeOps(r, sha1, gtid), c);
    HandshakeOpsWrite(r, sha1, gtid);
  }

  /**
   `MaxscaleReader.Read` with the given GTID to resume from (None for nil).
   The session writes a prefix of the handshake's writes, in order; it forwards lines only
   after the whole handshake was written and both responses were OK; a dial failure
   touches the connection not at all.
   */
  function Read(r: Reader, sha1: Sha1, gtid: Option<Gtid>, dial: Dial): (s: Session)
    ensures dial.DialFailure? ==> s == Session([], 0, [], Failed(DialFailed))
    ensures IsPrefix(s.writes, HandshakeWrites(r, sha1, gtid))
    ensures |s.lines| > 0 ==> s.writes == HandshakeWrites(r, sha1, gtid)
    ensures forall i | 0 <= i < |s.lines| :: IsLine(s.lines[i]) && !StartsWith(s.lines[i], ErrPrefix)
    ensures s.outcome.Failed? && IsHandshakeError(s.outcome.error) ==> s.lines == []
    ensures !ReturnsError(s.outcome) ==> s.writes == HandshakeWrites(r, sha1, gtid)
    ensures dial.Dialed? ==>
              var ops := HandshakeOps(r, sha1, gtid);
              var run := RunOps(ops, Open(dial.script));
              (run.failure.Some? ==>
                 s.writes == WritesOf(ops[..run.executed]) && s.readCalls == ReadsOf(ops[..run.executed]))
              && (run.failure.None? ==> s.readCalls >= ReadsOf(ops))
              && (run.failure.None? && run.conn.cancelled ==> s.readCalls == ReadsOf(ops))
  {
    match dial
    case DialFailure => Session([], 0, [], Failed(DialFailed))
    case Dialed(script) =>
      var run := RunOps(HandshakeOps(r, sha1, gtid), Open(script));
      assert run.failure.None? ==> HandshakeOps(r, sha1, gtid)[..run.executed] == HandshakeOps(r, sha1, gtid);
      HandshakeRunWrites(r, sha1, gtid, Open(script));
      if run.failure.Some? then
        Session(run.conn.written, run.conn.readCalls, [], Failed(run.failure.value))
      else if run.conn.cancelled then
        Session(run.conn.written, run.conn.readCalls, [], Cancelled)
      else
        var st := Stream(run.conn.events, [], 0);
        Session(run.conn.written, run.conn.readCalls + st.readCalls, st.lines, st.outcome)
  }

  /**
   How a session that got through the handshake ends. A failing step's error is returned
   with nothing forwarded; a cancellation during the handshake is a nil return; otherwise,
   on the events left after the handshake, end of stream returns nil, a read error "read
   line failed" and a cancellation nil, unless an ERR line or no progress stops it first,
   and the lines forwarded are the bytes received after the handshake, in order.
   */
  lemma ReadEnding(r: Reader, sha1: Sha1, gtid: Option<Gtid>, script: Script)
    ensures var run := RunOps(HandshakeOps(r, sha1, gtid), Open(script));
            var s := Read(r, sha1, gtid, Dialed(script));
            (run.failure.Some? ==> s.outcome == Failed(run.failure.value) && s.lines == [])
            && (run.failure.None? && run.conn.cancelled ==> s.outcome == Cancelled && s.lines == [])
            && (run.failure.None? && !run.conn.cancelled ==>
                  (s.outcome == EndingOf(Terminator(run.conn.events)) || StoppedByContent(s.outcome))
                  && Accounts(s.lines, s.outcome, Received(run.conn.events)))
  {
    var run := RunOps(HandshakeOps(r, sha1, gtid), Open(script));
    StreamEnding(run.conn.events, [], 0);
    StreamAccounting(run.conn.events, [], 0);
    assert [] + Received(run.conn.events) == Received(run.conn.events);
  }
}
