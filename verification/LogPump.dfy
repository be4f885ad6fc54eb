/**
  The pod-log pipeline: a reader goroutine, a channel of depth four, a writer loop, an error slot and
  the teardown in pump (internal/api/ws_logs.go). Every select is resolved by the caller's choice of
  actions, so a run is any interleaving the scheduler, the pod, the peer and the clock may produce.
 */
module LogPump {
  import opened Text

  type Byte = b: int | 0 <= b < 256

  type Bytes = seq<Byte>

  const LOG_READ_CHUNK := 4096
  const FORWARD_CHAN_DEPTH := 4

  datatype ReadErr = EOF | Canceled | Failure

  datatype ReaderEnd = SawEOF | SawCanceled | Reported | GaveUp

  // lost: the chunk in hand when the reader gave up.
  datatype Reader =
    | Reading
    | Sending(chunk: Bytes, err: Option<ReadErr>)
    | Reporting
    | ReaderDone(end: ReaderEnd, lost: Bytes)

  datatype WriterExit = ByContext | PingFailed | WriteFailed | ChannelClosed | ReadFailed

  datatype Writer =
    | Waiting
    | Writing(chunk: Bytes)
    | WriterDone(exit: WriterExit, lost: Bytes)

  /** input: every byte Read has returned so far; the channel is closed once the reader is done. */
  datatype State = State(
    input: Bytes,
    written: Bytes,
    queue: seq<Bytes>,
    errReported: bool,
    ctxDone: bool,
    streamClosed: bool,
    reader: Reader,
    writer: Writer)

  const INITIAL := State([], [], [], false, false, false, Reading, Waiting)

  datatype Action =
    | ReadReturns(data: Bytes, err: Option<ReadErr>)
    | SendLands
    | SendAbandoned
    | ReportLands
    | ReportAbandoned
    | WriterSeesContext
    | Ping(ok: bool)
    | Receive
    | SeeClosed
    | FinishWrite(ok: bool)
    | ReceiveError
    | CloseStream
    | CancelContext
    | ContextFires

  /** Where readChunks goes once Read has returned err and any data has been handed on. */
  function AfterError(err: ReadErr): Reader {
    match err
    case EOF => ReaderDone(SawEOF, [])
    case Canceled => ReaderDone(SawCanceled, [])
    case Failure => Reporting
  }

  function AfterRead(err: Option<ReadErr>): Reader {
    if err.Some? then AfterError(err.value) else Reading
  }

  predicate Enabled(s: State, a: Action) {
    match a
    case ReadReturns(data, err) => s.reader.Reading? && |data| <= LOG_READ_CHUNK && (s.streamClosed ==> err.Some?)
    case SendLands => s.reader.Sending? && |s.queue| < FORWARD_CHAN_DEPTH
    case SendAbandoned => s.reader.Sending? && s.ctxDone
    case ReportLands => s.reader.Reporting? && !s.errReported
    case ReportAbandoned => s.reader.Reporting? && s.ctxDone
    case WriterSeesContext => s.writer.Waiting? && s.ctxDone
    case Ping(_) => s.writer.Waiting?
    case Receive => s.writer.Waiting? && s.queue != []
    case SeeClosed => s.writer.Waiting? && s.queue == [] && s.reader.ReaderDone?
    case FinishWrite(_) => s.writer.Writing?
    case ReceiveError => s.writer.Waiting? && s.errReported
    case CloseStream => s.writer.WriterDone? && !s.streamClosed
    case CancelContext => s.writer.WriterDone? && s.streamClosed && !s.ctxDone
    case ContextFires => !s.ctxDone
  }

  /** One step; an action that is not enabled changes nothing. */
  function Exec(s: State, a: Action): State {
    if !Enabled(s, a) then s
    else match a
      case ReadReturns(data, err) =>
        s.(input := s.input + data, reader := if data != [] then Sending(data, err) else AfterRead(err))
      case SendLands => s.(queue := s.queue + [s.reader.chunk], reader := AfterRead(s.reader.err))
      case SendAbandoned => s.(reader := ReaderDone(GaveUp, s.reader.chunk))
      case ReportLands => s.(errReported := true, reader := ReaderDone(Reported, []))
      case ReportAbandoned => s.(reader := ReaderDone(GaveUp, []))
      case WriterSeesContext => s.(writer := WriterDone(ByContext, []))
      case Ping(ok) => if ok then s else s.(writer := WriterDone(PingFailed, []))
      case Receive => s.(queue := s.queue[1..], writer := Writing(s.queue[0]))
      case SeeClosed => s.(writer := WriterDone(ChannelClosed, []))
      case FinishWrite(ok) =>
        if ok then s.(written := s.written + s.writer.chunk, writer := Waiting)
        else s.(writer := WriterDone(WriteFailed, s.writer.chunk))
      case ReceiveError => s.(errReported := false, writer := WriterDone(ReadFailed, []))
      case CloseStream => s.(streamClosed := true)
      case CancelContext => s.(ctxDone := true)
      case ContextFires => s.(ctxDone := true)
  }

  function Run(s: State, actions: seq<Action>): State {
    if actions == [] then s else Exec(Run(s, actions[..|actions| - 1]), actions[|actions| - 1])
  }

  lemma RunSnoc(s: State, actions: seq<Action>, a: Action)
    ensures Run(s, actions + [a]) == Exec(Run(s, actions), a)
  {
    assert (actions + [a])[..|actions|] == actions;
  }

  // ---- no byte is lost, duplicated or reordered -------------------------------------------

  function Flatten(chunks: seq<Bytes>): Bytes {
    if chunks == [] then [] else chunks[0] + Flatten(chunks[1..])
  }

  lemma {:induction false} FlattenAppend(chunks: seq<Bytes>, last: Bytes)
    ensures Flatten(chunks + [last]) == Flatten(chunks) + last
  {
    if chunks == [] {
      assert [] + [last] == [last];
      assert Flatten([last]) == last + Flatten([]);
    } else {
      FlattenAppend(chunks[1..], last);
      assert (chunks + [last])[1..] == chunks[1..] + [last];
    }
  }

  /** What the writer holds: the chunk being written, or the one whose write failed. */
  function WriterHand(w: Writer): Bytes {
    match w
    case Waiting => []
    case Writing(chunk) => chunk
    case WriterDone(_, lost) => lost
  }

  function ReaderHand(r: Reader): Bytes {
    match r
    case Sending(chunk, _) => chunk
    case ReaderDone(_, lost) => lost
    case _ => []
  }

  ghost predicate Conserved(s: State) {
    s.input == s.written + WriterHand(s.writer) + Flatten(s.queue) + ReaderHand(s.reader)
  }

  predicate IsChunk(b: Bytes) { 1 <= |b| <= LOG_READ_CHUNK }

  ghost predicate Bounded(s: State) {
    && |s.queue| <= FORWARD_CHAN_DEPTH && (forall i | 0 <= i < |s.queue| :: IsChunk(s.queue[i]))
    && (s.reader.Sending? ==> IsChunk(s.reader.chunk))
    && (s.writer.Writing? ==> IsChunk(s.writer.chunk))
  }

  /** Why each party is where it is. */
  ghost predicate Explained(s: State) {
    && (s.errReported ==> s.reader == ReaderDone(Reported, []))
    && (s.reader.ReaderDone? && s.reader.end != GaveUp ==> s.reader.lost == [])
    && (s.reader.ReaderDone? && s.reader.end == GaveUp ==> s.ctxDone)
    && (s.writer.WriterDone? && s.writer.exit != WriteFailed ==> s.writer.lost == [])
    && (s.writer.WriterDone? && s.writer.exit == ByContext ==> s.ctxDone)
    && (s.writer.WriterDone? && s.writer.exit == ChannelClosed ==> s.queue == [] && s.reader.ReaderDone?)
    && (s.writer.WriterDone? && s.writer.exit == ReadFailed ==> s.reader == ReaderDone(Reported, []))
    && (s.streamClosed ==> s.writer.WriterDone?)
  }

  ghost predicate Inv(s: State) { Conserved(s) && Bounded(s) && Explained(s) }

  lemma SentChunk(out: Bytes, queued: Bytes, chunk: Bytes)
    ensures out + queued + chunk == out + (queued + chunk) + []
  {
  }

  lemma TakenChunk(written: Bytes, first: Bytes, rest: Bytes, hand: Bytes)
    ensures written + [] + (first + rest) + hand == written + first + rest + hand
  {
  }

  lemma ExecConserves(s: State, a: Action)
    requires Conserved(s)
    ensures Conserved(Exec(s, a))
  {
    if Enabled(s, a) {
      match a
      case SendLands =>
        FlattenAppend(s.queue, s.reader.chunk);
        SentChunk(s.written + WriterHand(s.writer), Flatten(s.queue), s.reader.chunk);
      case Receive => TakenChunk(s.written, s.queue[0], Flatten(s.queue[1..]), ReaderHand(s.reader));
      case _ =>
    }
  }

  lemma ExecKeepsInv(s: State, a: Action)
    requires Inv(s)
    ensures Inv(Exec(s, a))
  {
    ExecConserves(s, a);
    ExecKeepsBounded(s, a);
    ExecKeepsExplained(s, a);
  }

  lemma ExecKeepsBounded(s: State, a: Action)
    requires Bounded(s)
    ensures Bounded(Exec(s, a))
  {
    if a.Receive? && Enabled(s, a) {
      assert forall i | 0 <= i < |s.queue| - 1 :: s.queue[1..][i] == s.queue[i + 1];
    }
  }

  lemma ExecKeepsExplained(s: State, a: Action)
    requires Explained(s)
    ensures Explained(Exec(s, a))
  {
  }

  lemma {:induction false} RunKeepsInv(s: State, actions: seq<Action>)
    requires Inv(s)
    ensures Inv(Run(s, actions))
  {
    if actions != [] {
      RunKeepsInv(s, actions[..|actions| - 1]);
      ExecKeepsInv(Run(s, actions[..|actions| - 1]), actions[|actions| - 1]);
    }
  }

  /**
    In every interleaving what has been written is a prefix of what was read, the backlog is at most
    four chunks of at most 4096 bytes, and the bytes in between are all accounted for.
   */
  lemma OutputIsPrefix(actions: seq<Action>)
    ensures var s := Run(INITIAL, actions);
            && s.written <= s.input
            && Conserved(s)
            && |s.queue| <= 4 && forall i | 0 <= i < |s.queue| :: 1 <= |s.queue[i]| <= 4096
  {
    RunKeepsInv(INITIAL, actions);
    var s := Run(INITIAL, actions);
    assert s.written + (WriterHand(s.writer) + Flatten(s.queue) + ReaderHand(s.reader)) == s.input;
  }

  /**
    If the log ended with EOF, everything read (data that came together with EOF included) is written,
    unless the context fired, a ping failed or a write failed first.
   */
  lemma EOFDeliversEverything(actions: seq<Action>)
    requires var s := Run(INITIAL, actions);
             && s.reader.ReaderDone? && s.reader.end == SawEOF
             && s.writer.WriterDone? && s.writer.exit !in {ByContext, PingFailed, WriteFailed}
    ensures var s := Run(INITIAL, actions); s.writer.exit == ChannelClosed && s.written == s.input
  {
    RunKeepsInv(INITIAL, actions);
  }

  /** Where the reader can be once Read has returned this error: it reads no more, and ends as the error says. */
  predicate Ending(s: State, err: ReadErr) {
    match s.reader
    case Reading => false
    case Sending(_, e) => e == Some(err)
    case Reporting => err == Failure
    case ReaderDone(end, _) =>
      match err
      case EOF => end == SawEOF || end == GaveUp
      case Canceled => end == SawCanceled || end == GaveUp
      case Failure => end == Reported || end == GaveUp
  }

  /** No error has been reported, nor has the writer seen one. */
  predicate NoneReported(s: State) {
    !s.errReported && !(s.writer.WriterDone? && s.writer.exit == ReadFailed)
  }

  lemma ExecKeepsEnding(s: State, a: Action, err: ReadErr)
    requires Inv(s) && Ending(s, err)
    ensures Ending(Exec(s, a), err) && Exec(s, a).input == s.input
    ensures err != Failure && NoneReported(s) ==> NoneReported(Exec(s, a))
  {
  }

  /** Read returns this error, with or without data, in the i-th step. */
  ghost predicate ReadEnds(actions: seq<Action>, i: nat, err: ReadErr) {
    && i < |actions| && actions[i].ReadReturns? && actions[i].err == Some(err)
    && Enabled(Run(INITIAL, actions[..i]), actions[i])
  }

  lemma {:induction false} AfterReadEnds(actions: seq<Action>, i: nat, err: ReadErr)
    requires ReadEnds(actions, i, err)
    ensures var s := Run(INITIAL, actions);
            && Ending(s, err) && (err != Failure ==> NoneReported(s))
            && s.input == Run(INITIAL, actions[..i]).input + actions[i].data
    decreases |actions|
  {
    var init, last := actions[..|actions| - 1], actions[|actions| - 1];
    RunKeepsInv(INITIAL, init);
    if i < |init| {
      assert init[..i] == actions[..i];
      AfterReadEnds(init, i, err);
      ExecKeepsEnding(Run(INITIAL, init), last, err);
    }
  }

  /**
    In every run in which Read has returned EOF, together with data or not: no error is ever reported, the
    writer does not leave for one, and if it leaves because the channel was closed, then everything read up to
    and with the EOF is written, but for what the reader abandoned; and it abandons nothing unless the
    context has fired. The same holds of a cancelled read.
   */
  lemma EndOfLogDelivers(actions: seq<Action>, i: nat, err: ReadErr)
    requires err != Failure && ReadEnds(actions, i, err)
    ensures var s := Run(INITIAL, actions);
            && Ending(s, err) && NoneReported(s)
            && s.input == Run(INITIAL, actions[..i]).input + actions[i].data
            && (s.writer.WriterDone? && s.writer.exit == ChannelClosed ==>
                  && s.reader.ReaderDone? && (s.written == s.input <==> s.reader.lost == [])
                  && (!s.ctxDone ==> s.written == s.input))
            && (s.writer.WriterDone? ==> s.writer.exit != ReadFailed)
  {
    AfterReadEnds(actions, i, err);
    RunKeepsInv(INITIAL, actions);
    if Run(INITIAL, actions).writer.WriterDone? { WriterLeftNothingIff(actions); }
  }

  /** A real read error is reported, unless the context fires first: the reader never takes it for the end. */
  lemma ReadErrorIsReported(actions: seq<Action>, i: nat)
    requires ReadEnds(actions, i, Failure) && Run(INITIAL, actions).reader.ReaderDone?
    ensures var s := Run(INITIAL, actions); s.reader.end == Reported || (s.reader.end == GaveUp && s.ctxDone)
  {
    AfterReadEnds(actions, i, Failure);
    RunKeepsInv(INITIAL, actions);
  }

  /** The writer leaves on exactly these: the context, a failed ping or write, the closed channel, a read error. */
  lemma WriterLeavesOn(s: State, a: Action)
    requires Enabled(s, a) && !s.writer.WriterDone?
    ensures Exec(s, a).writer.WriterDone? <==>
            a in {WriterSeesContext, Ping(false), SeeClosed, FinishWrite(false), ReceiveError}
  {
  }

  /** The channel takes a chunk exactly while it holds fewer than four, and a read is of up to 4096 bytes. */
  lemma BacklogIsFour(s: State, data: Bytes)
    ensures s.reader.Sending? ==> (Exec(s, SendLands).queue != s.queue <==> |s.queue| < 4)
    ensures s.reader.Reading? && !s.streamClosed ==> (Enabled(s, ReadReturns(data, None)) <==> |data| <= 4096)
  {
    if s.reader.Sending? && |s.queue| < 4 { assert |Exec(s, SendLands).queue| == |s.queue| + 1; }
  }

  lemma {:induction false} FlattenIsEmptyIff(chunks: seq<Bytes>)
    requires forall i | 0 <= i < |chunks| :: IsChunk(chunks[i])
    ensures Flatten(chunks) == [] <==> chunks == []
  {
    if chunks != [] { assert |Flatten(chunks)| >= |chunks[0]|; }
  }

  /**
    Exactly when a log that was read is a log that was written, for every way the writer can leave and
    every interleaving: nothing is queued and neither party was holding a chunk when it gave up.
   */
  lemma WriterLeftNothingIff(actions: seq<Action>)
    requires Run(INITIAL, actions).writer.WriterDone?
    ensures var s := Run(INITIAL, actions);
            && (s.written == s.input <==> s.queue == [] && s.writer.lost == [] && ReaderHand(s.reader) == [])
            && (s.writer.exit == ReadFailed ==> (s.written == s.input <==> s.queue == []))
            && (s.writer.exit == ChannelClosed ==>
                  s.reader.ReaderDone? && (s.written == s.input <==> s.reader.lost == []))
  {
    RunKeepsInv(INITIAL, actions);
    var s := Run(INITIAL, actions);
    FlattenIsEmptyIff(s.queue);
    assert |s.input| == |s.written| + |s.writer.lost| + |Flatten(s.queue)| + |ReaderHand(s.reader)|;
    if s.queue == [] && s.writer.lost == [] && ReaderHand(s.reader) == [] {
      assert s.written + [] + [] + [] == s.written;
    }
  }

  // ---- nobody is parked for ever ------------------------------------------------------------

  predicate Finished(s: State) {
    s.reader.ReaderDone? && s.writer.WriterDone? && s.streamClosed && s.ctxDone
  }

  /** The pipeline is idle: it waits for the pod to say something, nothing is in flight. */
  predicate Quiet(s: State) {
    s.reader.Reading? && s.writer.Waiting? && s.queue == [] && !s.ctxDone && !s.streamClosed
  }

  /** Steps the pipeline takes by itself: not the pod, the clock or the peer. */
  predicate Internal(s: State, a: Action) {
    match a
    case ReadReturns(_, _) => s.streamClosed
    case Ping(_) => false
    case ContextFires => false
    case _ => true
  }

  /** In every reachable state the pipeline is finished, or waits for the pod, or can take a step of its own. */
  lemma NoDeadlock(actions: seq<Action>)
    ensures var s := Run(INITIAL, actions);
            Finished(s) || Quiet(s) || exists a :: Internal(s, a) && Enabled(s, a)
  {
    RunKeepsInv(INITIAL, actions);
    var s := Run(INITIAL, actions);
    if !Finished(s) && !Quiet(s) {
      var a := NextStep(s);
    }
  }

  lemma NextStep(s: State) returns (a: Action)
    requires Inv(s) && !Finished(s) && !Quiet(s)
    ensures Internal(s, a) && Enabled(s, a)
  {
    match s.writer {
      case Writing(_) => a := FinishWrite(true);
      case Waiting =>
        if s.ctxDone { a := WriterSeesContext; }
        else if s.queue != [] { a := Receive; }
        else if s.reader.Sending? { a := SendLands; }
        else if s.reader.Reporting? { a := ReportLands; }
        else { a := SeeClosed; }
      case WriterDone(_, _) =>
        if !s.streamClosed { a := CloseStream; }
        else if !s.ctxDone { a := CancelContext; }
        else if s.reader.Reading? { a := ReadReturns([], Some(EOF)); }
        else if s.reader.Sending? { a := SendAbandoned; }
        else { a := ReportAbandoned; }
    }
  }

  /** The writer has exited and pump has closed the stream and cancelled the context. */
  predicate TornDown(s: State) {
    s.writer.WriterDone? && s.streamClosed && s.ctxDone
  }

  predicate ReaderStep(a: Action) {
    a.ReadReturns? || a.SendLands? || a.SendAbandoned? || a.ReportLands? || a.ReportAbandoned?
  }

  /** How many steps the reader can still take after teardown, at most. */
  function Rank(r: Reader): nat {
    match r
    case Sending(_, None) => 4
    case Reading => 3
    case Sending(_, Some(_)) => 2
    case Reporting => 1
    case ReaderDone(_, _) => 0
  }

  function ReaderSteps(s: State, actions: seq<Action>): nat {
    if actions == [] then 0
    else
      var init, last := actions[..|actions| - 1], actions[|actions| - 1];
      ReaderSteps(s, init) + if ReaderStep(last) && Enabled(Run(s, init), last) then 1 else 0
  }

  /**
    After teardown the reader goroutine ends within four of its own steps, in any interleaving; and
    while it has not ended, a step of its own that needs no other party is open to it.
   */
  lemma {:induction false} ReaderEnds(s: State, actions: seq<Action>)
    requires TornDown(s)
    ensures TornDown(Run(s, actions))
    ensures ReaderSteps(s, actions) + Rank(Run(s, actions).reader) <= Rank(s.reader) <= 4
    ensures !Run(s, actions).reader.ReaderDone? ==> exists a :: ReaderStep(a) && Enabled(Run(s, actions), a)
  {
    if actions != [] {
      ReaderEnds(s, actions[..|actions| - 1]);
    }
    var r := Run(s, actions);
    match r.reader
    case Reading => assert Enabled(r, ReadReturns([], Some(EOF)));
    case Sending(_, _) => assert Enabled(r, SendAbandoned);
    case Reporting => assert Enabled(r, ReportAbandoned);
    case ReaderDone(_, _) =>
  }

  /** After a real read error the promise is weaker: the writer may take the error and drop queued chunks. */
  lemma ReadErrorMayDropChunks(chunk: Bytes)
    requires IsChunk(chunk)
    ensures var s := Run(INITIAL, [ReadReturns(chunk, Some(Failure)), SendLands, ReportLands, ReceiveError]);
            s.writer == WriterDone(ReadFailed, []) && s.reader == ReaderDone(Reported, [])
            && s.written == [] && s.input == chunk && s.queue == [chunk]
  {
    var a1, a2, a3, a4 := ReadReturns(chunk, Some(Failure)), SendLands, ReportLands, ReceiveError;
    RunSnoc(INITIAL, [], a1);
    RunSnoc(INITIAL, [a1], a2);
    RunSnoc(INITIAL, [a1, a2], a3);
    RunSnoc(INITIAL, [a1, a2, a3], a4);
    assert [] + [a1] == [a1] && [a1] + [a2] == [a1, a2];
    assert [a1, a2] + [a3] == [a1, a2, a3] && [a1, a2, a3] + [a4] == [a1, a2, a3, a4];
    assert Exec(INITIAL, a1) == INITIAL.(input := chunk, reader := Sending(chunk, Some(Failure)));
    assert Run(INITIAL, [a1, a2]) == INITIAL.(input := chunk, queue := [chunk], reader := Reporting);
  }

  // ---- the reused read buffer ------------------------------------------------------------------

  datatype ReadResult = ReadResult(data: Bytes, err: Option<ReadErr>)

  function DataOf(results: seq<ReadResult>): Bytes {
    if results == [] then [] else DataOf(results[..|results| - 1]) + results[|results| - 1].data
  }

  ghost function Contents(chunks: seq<array<Byte>>): Bytes
    reads chunks
  {
    if chunks == [] then [] else Contents(chunks[..|chunks| - 1]) + chunks[|chunks| - 1][..]
  }

  /** sendChunkCtx's copy: a fresh array that later reads into raw's buffer cannot touch. */
  method CopyChunk(raw: array<Byte>, n: nat) returns (chunk: array<Byte>)
    requires n <= raw.Length
    ensures fresh(chunk) && chunk[..] == raw[..n]
  {
    chunk := new Byte[n];
    for i := 0 to n
      invariant forall k | 0 <= k < i :: chunk[k] == raw[k]
    {
      chunk[i] := raw[i];
    }
  }

  /** One Read into the buffer. */
  method ReadInto(buf: array<Byte>, data: Bytes)
    requires |data| <= buf.Length
    modifies buf
    ensures buf[..|data|] == data
  {
    for i := 0 to |data|
      invariant forall k | 0 <= k < i :: buf[k] == data[k]
    {
      buf[i] := data[i];
    }
  }

  /** One Read into the buffer and, if it returned data, the copy that is handed to the channel. */
  method ReadAndCopy(buf: array<Byte>, data: Bytes, ghost sent: seq<array<Byte>>) returns (chunk: array<Byte>)
    requires |data| <= buf.Length && buf !in sent
    modifies buf
    ensures fresh(chunk) && chunk[..] == data
    ensures Contents(sent) == old(Contents(sent))
    ensures Contents(sent + [chunk]) == old(Contents(sent)) + data
  {
    ReadInto(buf, data);
    chunk := CopyChunk(buf, |data|);
    ContentsFrame(sent, chunk);
  }

  lemma ContentsFrame(chunks: seq<array<Byte>>, chunk: array<Byte>)
    ensures Contents(chunks + [chunk]) == Contents(chunks) + chunk[..]
  {
    assert (chunks + [chunk])[..|chunks|] == chunks;
  }

  /** Whether readChunks goes on after the k-th result, given which sends land. */
  predicate GoesOn(results: seq<ReadResult>, lands: seq<bool>, k: nat, sends: nat)
    requires k < |results|
  {
    results[k].data == [] || (sends < |lands| && lands[sends])
  }

  /**
    readChunks over one reused buffer; lands says which sends succeed before the context fires. At the
    end, after every later Read has overwritten the buffer, the chunks sent still hold, in order, exactly
    the bytes of the first k reads, and k stops only at an error, an abandoned send or the last result.
   */
  method ReadChunks(results: seq<ReadResult>, lands: seq<bool>) returns (sent: seq<array<Byte>>, k: nat)
    requires forall i | 0 <= i < |results| :: |results[i].data| <= LOG_READ_CHUNK
    ensures k <= |results| && Contents(sent) == DataOf(results[..k])
    ensures forall i | 0 <= i < k - 1 :: results[i].err.None?
    ensures k == |results| || !GoesOn(results, lands, k, |sent|) || (k > 0 && results[k - 1].err.Some?)
    ensures forall c | c in sent :: fresh(c)
  {
    sent, k := [], 0;
    var buf := new Byte[LOG_READ_CHUNK];
    while k < |results|
      invariant 0 <= k <= |results|
      invariant fresh(buf) && buf !in sent && forall c | c in sent :: fresh(c)
      invariant Contents(sent) == DataOf(results[..k])
      invariant forall i | 0 <= i < k :: results[i].err.None?
    {
      var data, err := results[k].data, results[k].err;
      assert results[..k + 1][..k] == results[..k];
      var chunk := ReadAndCopy(buf, data, sent);
      if |data| > 0 {
        if |sent| >= |lands| || !lands[|sent|] {
          return;
        }
        sent := sent + [chunk];
      }
      k := k + 1;
      if err.Some? {
        return;
      }
    }
  }
}
