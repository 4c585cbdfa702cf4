/**
 The scenarios of the reader's unit tests, as facts about the model: the reader of user
 `cdcuser` with password `cdc` against a scripted connection.
 */
module ReaderExamples {
  import opened Wrappers
  import opened ByteStrings
  import Hex
  import opened MaxscaleReader

  const TestReader := Reader("cdcuser", "cdc", "0f672312-e02a-11e8-8c13-cf8f48795343", "JSON", "mydb", "mytable", "")

  /** SHA-1 of `cdc` is 11fb6d5a105a66c85408b8005c461d53818b736e; here in two halves. */
  const DigestHigh: Bytes := "\U{11}\U{fb}mZ\U{10}Zf\U{c8}T\U{08}"
  const DigestLow: Bytes := "\U{b8}\U{00}\U{5c}F\U{1d}S\U{81}\U{8b}sn"

  const UserHex: Bytes := "636463757365723a"
  const DigestHex: Bytes := "11fb6d5a105a66c85408" + "b8005c461d53818b736e"
  const Register: Bytes := "REGISTER UUID=" + "0f672312-e02a-11e8-8c13-cf8f48795343" + ", TYPE=JSON"
  const Request: Bytes := "REQUEST-DATA " + "mydb.mytable"

  /** The hash is a parameter; the scenarios only need its value on the test password. */
  predicate KnowsCdc(sha1: Sha1)
  {
    sha1("cdc") == DigestHigh + DigestLow
  }

  lemma UserHexIs()
    ensures Hex.EncoderWrites(TestReader.user + ":") == [UserHex]
  {
    assert TestReader.user + ":" == "cdcuser:";
    Hex.EncodeByDigits("cdcuser:", UserHex);
  }

  lemma DigestHighHex()
    ensures Hex.Encode(DigestHigh) == "11fb6d5a105a66c85408"
  {
    Hex.EncodeByDigits(DigestHigh, "11fb6d5a105a66c85408");
  }

  lemma DigestLowHex()
    ensures Hex.Encode(DigestLow) == "b8005c461d53818b736e"
  {
    Hex.EncodeByDigits(DigestLow, "b8005c461d53818b736e");
  }

  lemma DigestHexIs(sha1: Sha1)
    requires KnowsCdc(sha1)
    ensures Hex.EncoderWrites(sha1(TestReader.password)) == [DigestHex]
  {
    DigestHighHex();
    DigestLowHex();
    Hex.EncodeAppend(DigestHigh, DigestLow);
  }

  /** `TestPrintAuth`: the auth message for `cdcuser`/`cdc`, as one string. */
  lemma PrintAuth(sha1: Sha1)
    requires KnowsCdc(sha1)
    ensures AuthText(TestReader, sha1) == "636463757365723a" + "11fb6d5a105a66c85408" + "b8005c461d53818b736e"
  {
    UserHexIs();
    DigestHexIs(sha1);
  }

  /** The handshake steps of the test reader, once the digest is known. */
  predicate IsTestOps(ops: seq<Op>)
  {
    ops == [Send(UserHex, AuthEncodeFailed), Send(DigestHex, AuthWriteFailed), ExpectOk,
            Send(Register, RegisterFailed), ExpectOk, Send(Request, RequestFailed)]
  }

  lemma TestHandshake(sha1: Sha1)
    requires KnowsCdc(sha1)
    ensures IsTestOps(HandshakeOps(TestReader, sha1, None))
  {
    UserHexIs();
    DigestHexIs(sha1);
    assert Sends([UserHex], AuthEncodeFailed) == [Send(UserHex, AuthEncodeFailed)];
    assert Sends([DigestHex], AuthWriteFailed) == [Send(DigestHex, AuthWriteFailed)];
    assert RegisterCommand(TestReader) == Register;
    assert RequestCommand(TestReader, None) == Request;
  }

  lemma DialFails(sha1: Sha1)
    ensures Read(TestReader, sha1, None, DialFailure) == Session([], 0, [], Failed(DialFailed))
  {
  }

  /** What is left of a write script that lets the two auth writes through. */
  function AfterAuth(w: seq<WriteResult>): seq<WriteResult>
  {
    if |w| < 2 then [] else w[2..]
  }

  predicate AcceptsAuth(w: seq<WriteResult>)
  {
    |w| == 0 || (|w| >= 2 && w[0].Written? && w[1].Written?)
  }

  /** Both auth writes succeed; the run continues with the first expected response. */
  lemma AuthWritten(ops: seq<Op>, w: seq<WriteResult>, events: seq<ReadEvent>)
    requires IsTestOps(ops) && AcceptsAuth(w)
    ensures RunOps(ops, Open(Script(w, events)))
            == var r := RunOps(ops[2..], Conn(AfterAuth(w), events, [UserHex, DigestHex], 0, false));
               Run(r.conn, r.executed + 2, r.failure)
  {
    var c0 := Open(Script(w, events));
    var c1 := c0.(writeResults := if |w| == 0 then [] else w[1..], written := [UserHex]);
    assert RunStep(ops[0], c0) == Step(c1, None);
    assert RunStep(ops[1], c1) == Step(c1.(writeResults := AfterAuth(w), written := [UserHex, DigestHex]), None);
    assert ops[1..][1..] == ops[2..];
  }

  /** The first response: what is left of the steps after it, and the connection after its Read. */
  lemma FirstResponse(ops: seq<Op>, w: seq<WriteResult>, events: seq<ReadEvent>, chunk: Bytes)
    requires IsTestOps(ops) && |chunk| <= ResponseBufferSize
    ensures var c2 := Conn(w, [Data(chunk)] + events, [UserHex, DigestHex], 0, false);
            var c3 := c2.(events := events, readCalls := 1);
            RunOps(ops[2..], c2)
            == if StartsWith(chunk, OkPrefix)
               then var r := RunOps(ops[3..], c3); Run(r.conn, r.executed + 1, r.failure)
               else Run(c3, 1, Some(LoginFailed))
  {
    var c2 := Conn(w, [Data(chunk)] + events, [UserHex, DigestHex], 0, false);
    assert ([Data(chunk)] + events)[1..] == events;
    assert ops[2..][0] == ExpectOk;
    assert ops[2..][1..] == ops[3..];
  }

  /** Every Read returns nothing: both auth writes, one Read, login fails. */
  lemma WritesAuth(sha1: Sha1)
    requires KnowsCdc(sha1)
    ensures Read(TestReader, sha1, None, Dialed(Script([], [Data([])])))
            == Session([UserHex, DigestHex], 1, [], Failed(LoginFailed))
  {
    TestHandshake(sha1);
    var ops := HandshakeOps(TestReader, sha1, None);
    AuthWritten(ops, [], [Data([])]);
    FirstResponse(ops, [], [], []);
    assert [Data([])] + [] == [Data([])];
  }

  /** Every Write fails: the first auth write fails and nothing is read. */
  lemma WriteAuthFails(sha1: Sha1)
    requires KnowsCdc(sha1)
    ensures Read(TestReader, sha1, None, Dialed(Script([WriteFailure, WriteFailure], [])))
            == Session([UserHex], 0, [], Failed(AuthEncodeFailed))
  {
    TestHandshake(sha1);
    FirstWriteFails(HandshakeOps(TestReader, sha1, None));
  }

  lemma FirstWriteFails(ops: seq<Op>)
    requires IsTestOps(ops)
    ensures RunOps(ops, Open(Script([WriteFailure, WriteFailure], [])))
            == Run(Conn([WriteFailure], [], [UserHex], 0, false), 1, Some(AuthEncodeFailed))
  {
    var c0 := Open(Script([WriteFailure, WriteFailure], []));
    assert RunStep(ops[0], c0) == Step(Conn([WriteFailure], [], [UserHex], 0, false), Some(AuthEncodeFailed));
  }

  /** The first Read fails: both auth writes, one Read. */
  lemma ReadFails(sha1: Sha1)
    requires KnowsCdc(sha1)
    ensures Read(TestReader, sha1, None, Dialed(Script([], [ReadFailure])))
            == Session([UserHex, DigestHex], 1, [], Failed(ResponseReadFailed))
  {
    TestHandshake(sha1);
    FirstReadFails(HandshakeOps(TestReader, sha1, None));
  }

  lemma FirstReadFails(ops: seq<Op>)
    requires IsTestOps(ops)
    ensures RunOps(ops, Open(Script([], [ReadFailure])))
            == Run(Conn([], [], [UserHex, DigestHex], 1, false), 3, Some(ResponseReadFailed))
  {
    AuthWritten(ops, [], [ReadFailure]);
    var c2 := Conn([], [ReadFailure], [UserHex, DigestHex], 0, false);
    assert ops[2..][0] == ExpectOk;
    assert RunStep(ExpectOk, c2) == Step(c2.(events := [], readCalls := 1), Some(ResponseReadFailed));
  }

  /** The first response is `ERR banana`: login fails after one Read. */
  lemma ResponseNotOk(sha1: Sha1)
    requires KnowsCdc(sha1)
    ensures Read(TestReader, sha1, None, Dialed(Script([], [Data("ERR banana")])))
            == Session([UserHex, DigestHex], 1, [], Failed(LoginFailed))
  {
    TestHandshake(sha1);
    var ops := HandshakeOps(TestReader, sha1, None);
    var banana: Bytes := "ERR banana";
    assert banana[..|OkPrefix|][0] != OkPrefix[0];
    AuthWritten(ops, [], [Data(banana)]);
    FirstResponse(ops, [], [], banana);
    assert [Data(banana)] + [] == [Data(banana)];
  }

  /** Login succeeds: the run continues with the register command. */
  lemma LoggedIn(ops: seq<Op>, w: seq<WriteResult>, events: seq<ReadEvent>)
    requires IsTestOps(ops) && AcceptsAuth(w)
    ensures RunOps(ops, Open(Script(w, [Data("OK\n")] + events)))
            == var r := RunOps(ops[3..], Conn(AfterAuth(w), events, [UserHex, DigestHex], 1, false));
               Run(r.conn, r.executed + 3, r.failure)
  {
    var ok: Bytes := "OK\n";
    assert StartsWith(ok, OkPrefix);
    AuthWritten(ops, w, [Data(ok)] + events);
    FirstResponse(ops, AfterAuth(w), events, ok);
  }

  /** The register step and the second response: what is left after them. */
  lemma SecondResponse(ops: seq<Op>, w: seq<WriteResult>, events: seq<ReadEvent>, chunk: Bytes)
    requires IsTestOps(ops) && |chunk| <= ResponseBufferSize
    ensures var c3 := Conn(w, [Data(chunk)] + events, [UserHex, DigestHex], 1, false);
            var c5 := Conn(if |w| == 0 then [] else w[1..], events, [UserHex, DigestHex, Register], 2, false);
            |w| == 0 || w[0].Written? ==>
              RunOps(ops[3..], c3)
              == if StartsWith(chunk, OkPrefix)
                 then var r := RunOps(ops[5..], c5); Run(r.conn, r.executed + 2, r.failure)
                 else Run(c5, 2, Some(LoginFailed))
  {
    var c3 := Conn(w, [Data(chunk)] + events, [UserHex, DigestHex], 1, false);
    var c4 := c3.(writeResults := if |w| == 0 then [] else w[1..], written := [UserHex, DigestHex, Register]);
    assert ops[3..][0] == Send(Register, RegisterFailed);
    assert |w| == 0 || w[0].Written? ==> RunStep(ops[3], c3) == Step(c4, None);
    assert ([Data(chunk)] + events)[1..] == events;
    assert ops[3..][1..] == ops[4..];
    assert ops[4..][0] == ExpectOk;
    assert ops[4..][1..] == ops[5..];
  }

  /** The second Read fails: the register command was written. */
  lemma SendsRegister(sha1: Sha1)
    requires KnowsCdc(sha1)
    ensures var s := Read(TestReader, sha1, None, Dialed(Script([], [Data("OK\n"), ReadFailure])));
            s.writes == [UserHex, DigestHex, Register] && s.outcome == Failed(ResponseReadFailed)
  {
    TestHandshake(sha1);
    SecondReadFails(HandshakeOps(TestReader, sha1, None));
  }

  lemma SecondReadFails(ops: seq<Op>)
    requires IsTestOps(ops)
    ensures RunOps(ops, Open(Script([], [Data("OK\n"), ReadFailure])))
            == Run(Conn([], [], [UserHex, DigestHex, Register], 2, false), 5, Some(ResponseReadFailed))
  {
    assert [Data("OK\n")] + [ReadFailure] == [Data("OK\n"), ReadFailure];
    LoggedIn(ops, [], [ReadFailure]);
    RegisterThenReadFails(ops);
  }

  lemma RegisterThenReadFails(ops: seq<Op>)
    requires IsTestOps(ops)
    ensures RunOps(ops[3..], Conn([], [ReadFailure], [UserHex, DigestHex], 1, false))
            == Run(Conn([], [], [UserHex, DigestHex, Register], 2, false), 2, Some(ResponseReadFailed))
  {
    var c3 := Conn([], [ReadFailure], [UserHex, DigestHex], 1, false);
    var c4 := c3.(written := [UserHex, DigestHex, Register]);
    assert ops[3..][0] == Send(Register, RegisterFailed);
    assert RunStep(ops[3], c3) == Step(c4, None);
    assert ops[3..][1..] == ops[4..];
    assert ops[4..][0] == ExpectOk;
    assert RunStep(ExpectOk, c4) == Step(c4.(events := [], readCalls := 2), Some(ResponseReadFailed));
  }

  /** The register write fails after a successful login. */
  lemma RegisterWriteFails(sha1: Sha1)
    requires KnowsCdc(sha1)
    ensures var s := Read(TestReader, sha1, None, Dialed(Script([Written, Written, WriteFailure], [Data("OK\n")])));
            s.writes == [UserHex, DigestHex, Register] && s.outcome == Failed(RegisterFailed)
  {
    TestHandshake(sha1);
    RegisterWriteFailsRun(HandshakeOps(TestReader, sha1, None));
  }

  lemma RegisterWriteFailsRun(ops: seq<Op>)
    requires IsTestOps(ops)
    ensures RunOps(ops, Open(Script([Written, Written, WriteFailure], [Data("OK\n")])))
            == Run(Conn([], [], [UserHex, DigestHex, Register], 1, false), 4, Some(RegisterFailed))
  {
    assert [Data("OK\n")] + [] == [Data("OK\n")];
    LoggedIn(ops, [Written, Written, WriteFailure], []);
    var c3 := Conn([WriteFailure], [], [UserHex, DigestHex], 1, false);
    assert RunStep(ops[3], c3) == Step(c3.(writeResults := [], written := [UserHex, DigestHex, Register]), Some(RegisterFailed));
  }

  /** The register response is `ERR`: two Reads, three writes. */
  lemma RegisterNotOk(sha1: Sha1)
    requires KnowsCdc(sha1)
    ensures var s := Read(TestReader, sha1, None, Dialed(Script([], [Data("OK\n"), Data("ERR\n"), ReadFailure])));
            s.writes == [UserHex, DigestHex, Register] && s.readCalls == 2 && s.outcome == Failed(LoginFailed)
  {
    TestHandshake(sha1);
    RegisterNotOkRun(HandshakeOps(TestReader, sha1, None));
  }

  lemma RegisterNotOkRun(ops: seq<Op>)
    requires IsTestOps(ops)
    ensures RunOps(ops, Open(Script([], [Data("OK\n"), Data("ERR\n"), ReadFailure])))
            == Run(Conn([], [ReadFailure], [UserHex, DigestHex, Register], 2, false), 5, Some(LoginFailed))
  {
    var err: Bytes := "ERR\n";
    assert err[..|OkPrefix|][0] != OkPrefix[0];
    assert [Data("OK\n")] + ([Data(err)] + [ReadFailure]) == [Data("OK\n"), Data(err), ReadFailure];
    LoggedIn(ops, [], [Data(err)] + [ReadFailure]);
    SecondResponse(ops, [], [ReadFailure], err);
  }

  /** Both responses are OK: the whole handshake is written after two Reads. */
  lemma HandshakeRuns(ops: seq<Op>, events: seq<ReadEvent>)
    requires IsTestOps(ops)
    ensures RunOps(ops, Open(Script([], [Data("OK\n"), Data("OK\n")] + events)))
            == Run(Conn([], events, [UserHex, DigestHex, Register, Request], 2, false), 6, None)
  {
    var ok: Bytes := "OK\n";
    assert StartsWith(ok, OkPrefix);
    assert [Data(ok), Data(ok)] + events == [Data(ok)] + ([Data(ok)] + events);
    LoggedIn(ops, [], [Data(ok)] + events);
    SecondResponse(ops, [], events, ok);
    var c5 := Conn([], events, [UserHex, DigestHex, Register], 2, false);
    assert ops[5..][0] == Send(Request, RequestFailed);
    assert ops[5..][1..] == [];
    assert RunOps(ops[5..], c5) == Run(c5.(written := [UserHex, DigestHex, Register, Request]), 1, None);
  }

  /** After a full handshake the session is the stream of the remaining events. */
  lemma HandshakeDone(sha1: Sha1, events: seq<ReadEvent>)
    requires KnowsCdc(sha1)
    ensures var st := Stream(events, [], 0);
            Read(TestReader, sha1, None, Dialed(Script([], [Data("OK\n"), Data("OK\n")] + events)))
            == Session([UserHex, DigestHex, Register, Request], 2 + st.readCalls, st.lines, st.outcome)
  {
    TestHandshake(sha1);
    HandshakeRuns(HandshakeOps(TestReader, sha1, None), events);
  }

  /** The stream's first Read fails: four writes, three Reads. */
  lemma SendsRequest(sha1: Sha1)
    requires KnowsCdc(sha1)
    ensures Read(TestReader, sha1, None, Dialed(Script([], [Data("OK\n"), Data("OK\n"), ReadFailure])))
            == Session([UserHex, DigestHex, Register, Request], 3, [], Failed(LineReadFailed))
  {
    HandshakeDone(sha1, [ReadFailure]);
    assert [Data("OK\n"), Data("OK\n")] + [ReadFailure] == [Data("OK\n"), Data("OK\n"), ReadFailure];
  }

  /** The stream of the ERR scenario. */
  lemma ErrStream()
    ensures Stream([Data("ERR\n"), ReadFailure], [], 0) == Streamed([], 1, Failed(ServerError("ERR\n")))
  {
    var err: Bytes := "ERR\n";
    assert err[..|ErrPrefix|] == ErrPrefix;
    assert err[..|err| - 1] == ErrPrefix;
    assert IsLine(err);
    StreamErrLine(err, [ReadFailure]);
    assert [Data(err)] + [ReadFailure] == [Data(err), ReadFailure];
  }

  /** The server answers the request with `ERR`: the line is reported, not forwarded. */
  lemma RequestAnsweredWithErr(sha1: Sha1)
    requires KnowsCdc(sha1)
    ensures Read(TestReader, sha1, None, Dialed(Script([], [Data("OK\n"), Data("OK\n"), Data("ERR\n"), ReadFailure])))
            == Session([UserHex, DigestHex, Register, Request], 3, [], Failed(ServerError("ERR\n")))
  {
    var more := [Data("ERR\n"), ReadFailure];
    HandshakeDone(sha1, more);
    ErrStream();
    assert [Data("OK\n"), Data("OK\n")] + more == [Data("OK\n"), Data("OK\n"), Data("ERR\n"), ReadFailure];
  }

  /** The stream of the two-line scenario. */
  lemma TwoLineStream()
    ensures Stream([Data("line 3\n"), Data("line 4\n"), EndOfStream], [], 0)
            == Streamed(["line 3\n", "line 4\n"], 3, Closed)
  {
    var l3: Bytes := "line 3\n";
    var l4: Bytes := "line 4\n";
    assert IsLine(l3) && l3[..|ErrPrefix|][0] != ErrPrefix[0];
    assert IsLine(l4) && l4[..|ErrPrefix|][0] != ErrPrefix[0];
    StreamOneLine(l4, [EndOfStream]);
    assert [Data(l4)] + [EndOfStream] == [Data(l4), EndOfStream];
    StreamOneLine(l3, [Data(l4), EndOfStream]);
    assert [Data(l3)] + [Data(l4), EndOfStream] == [Data(l3), Data(l4), EndOfStream];
  }

  /** Two lines then end of stream: both are forwarded, in order, and the session ends with no error. */
  lemma ForwardsLines(sha1: Sha1)
    requires KnowsCdc(sha1)
    ensures Read(TestReader, sha1, None,
                 Dialed(Script([], [Data("OK\n"), Data("OK\n"), Data("line 3\n"), Data("line 4\n"), EndOfStream])))
            == Session([UserHex, DigestHex, Register, Request], 5, ["line 3\n", "line 4\n"], Closed)
  {
    var more := [Data("line 3\n"), Data("line 4\n"), EndOfStream];
    HandshakeDone(sha1, more);
    TwoLineStream();
    assert [Data("OK\n"), Data("OK\n")] + more
           == [Data("OK\n"), Data("OK\n"), Data("line 3\n"), Data("line 4\n"), EndOfStream];
  }

  /** The stream of the cancellation scenario. */
  lemma CancelStream()
    ensures Stream([Data("line 3\n"), Cancel, Data("line 4\n")], [], 0) == Streamed(["line 3\n"], 1, Cancelled)
  {
    var l3: Bytes := "line 3\n";
    assert IsLine(l3) && l3[..|ErrPrefix|][0] != ErrPrefix[0];
    StreamOneLine(l3, [Cancel, Data("line 4\n")]);
    assert [Data(l3)] + [Cancel, Data("line 4\n")] == [Data(l3), Cancel, Data("line 4\n")];
  }

  /** The context is cancelled after the first line: that line was forwarded and the session returns no error. */
  lemma CancelledWhileStreaming(sha1: Sha1)
    requires KnowsCdc(sha1)
    ensures Read(TestReader, sha1, None,
                 Dialed(Script([], [Data("OK\n"), Data("OK\n"), Data("line 3\n"), Cancel, Data("line 4\n")])))
            == Session([UserHex, DigestHex, Register, Request], 3, ["line 3\n"], Cancelled)
  {
    var more := [Data("line 3\n"), Cancel, Data("line 4\n")];
    HandshakeDone(sha1, more);
    CancelStream();
    assert [Data("OK\n"), Data("OK\n")] + more
           == [Data("OK\n"), Data("OK\n"), Data("line 3\n"), Cancel, Data("line 4\n")];
  }

  /** `TestStartsWith`. */
  lemma StartsWithCases()
    ensures StartsWith([], [])
    ensures StartsWith("OK 123", "OK")
    ensures !StartsWith("ERR 123", "OK")
    ensures !StartsWith("OK", "OK 123")
    ensures StartsWith("OK", "OK")
  {
    var notEqual: Bytes := "ERR 123";
    assert notEqual[..2][0] != 'O';
    var substring: Bytes := "OK 123";
    assert substring[..2] == "OK";
  }
}
