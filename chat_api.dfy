/**
 * The client side of the streamed chat completion: a session that accumulates decoded chunks in
 * a buffer, runs the frame reassembler over it after every chunk and once more when the stream
 * ends, and turns each parsed envelope into a call of the consumer's
 * `onResponse(content, isComplete, error?)`.
 */
module ChatApi {
  import opened Wrappers
  import opened Text
  import opened Frames

  /** One call of the consumer callback `onResponse(content, isComplete, error?)`. */
  datatype Callback = Callback(content: string, isComplete: bool, error: Option<string>)

  /** A successful envelope whose `data` is `true`: the server's end-of-answer marker. */
  predicate IsDone(e: Envelope) {
    e.code == 0 && e.data.DoneFlag?
  }

  /**
   * The callbacks `processResponse` makes for one envelope: none for a successful envelope
   * without an answer or marker, otherwise exactly one, which completes the answer unless it
   * carries an answer fragment, has the fragment as its content, and carries the envelope's
   * message as its error exactly when the code is not zero.
   */
  function Reaction(e: Envelope): (cs: seq<Callback>)
    ensures |cs| <= 1
    ensures cs == [] <==> e.code == 0 && e.data.Other?
    ensures forall k :: 0 <= k < |cs| ==>
      && (cs[k].isComplete <==> !(e.code == 0 && e.data.Answer?))
      && cs[k].content == (if e.code == 0 && e.data.Answer? then e.data.answer else "")
      && cs[k].error == (if e.code != 0 then e.message else None)
  {
    if e.code != 0 then [Callback("", true, e.message)]
    else match e.data
      case DoneFlag => [Callback("", true, None)]
      case Answer(a) => [Callback(a, false, None)]
      case Other => []
  }

  /** The callbacks for a sequence of envelopes dispatched in order. */
  function Reactions(fs: seq<Envelope>): (cs: seq<Callback>)
    ensures |cs| <= |fs|
  {
    if fs == [] then [] else Reaction(fs[0]) + Reactions(fs[1..])
  }

  lemma {:induction false} ReactionsSnoc(fs: seq<Envelope>, e: Envelope)
    ensures Reactions(fs + [e]) == Reactions(fs) + Reaction(e)
  {
    if fs == [] {
      assert [] + [e] == [e];
      assert [e][1..] == [];
    } else {
      assert (fs + [e])[1..] == fs[1..] + [e];
      ReactionsSnoc(fs[1..], e);
    }
  }

  /** Some envelope of `fs` is the end-of-answer marker. */
  function AnyDone(fs: seq<Envelope>): (b: bool)
    ensures b <==> exists k :: 0 <= k < |fs| && IsDone(fs[k])
  {
    if fs == [] then false
    else
      assert forall k :: 0 < k < |fs| ==> fs[k] == fs[1..][k - 1];
      IsDone(fs[0]) || AnyDone(fs[1..])
  }

  /** The log after dispatching one more envelope. */
  lemma LogSnoc(log0: seq<Callback>, fs: seq<Envelope>, e: Envelope)
    ensures log0 + Reactions(fs) + Reaction(e) == log0 + Reactions(fs + [e])
  {
    ReactionsSnoc(fs, e);
  }

  lemma AnyDoneSnoc(fs: seq<Envelope>, e: Envelope)
    ensures AnyDone(fs + [e]) == (AnyDone(fs) || IsDone(e))
  {
    assert forall k :: 0 <= k < |fs| ==> (fs + [e])[k] == fs[k];
    assert (fs + [e])[|fs|] == e;
  }

  // ------------------------------------------------------------------ the session as a value

  /** What a session has accumulated: its buffer, whether the reader was cancelled, the callbacks made. */
  datatype Session = Session(buffer: string, cancelled: bool, log: seq<Callback>)

  /** The session after one `processData` pass over its buffer. */
  function AfterPass(parse: Parser, st: Session): Session {
    var lines := Split(st.buffer, '\n');
    var r := Pass(parse, lines);
    Session(Rest(lines, r.processed), st.cancelled || AnyDone(r.frames), st.log + Reactions(r.frames))
  }

  /**
   * The session after reading `chunks`: each chunk read is appended to the buffer and followed by
   * a pass; once the reader is cancelled, the next read reports the end of the stream and
   * nothing more is read.
   */
  function Consume(parse: Parser, st: Session, chunks: seq<string>): Session
    decreases |chunks|
  {
    if chunks == [] || st.cancelled then st
    else Consume(parse, AfterPass(parse, st.(buffer := st.buffer + chunks[0])), chunks[1..])
  }

  /** The whole stream: the chunks read, then the pass run when the end of the stream is reported. */
  function Stream(parse: Parser, st: Session, chunks: seq<string>): Session {
    AfterPass(parse, Consume(parse, st, chunks))
  }

  /**
   * A pass keeps a suffix of the buffer, leaves it unchanged exactly when it dispatches nothing,
   * never shortens the log, and cancels the reader exactly when the reader was already cancelled
   * or some dispatched envelope is the end-of-answer marker.
   */
  lemma AfterPassProperties(parse: Parser, st: Session)
    ensures var st', r := AfterPass(parse, st), Pass(parse, Split(st.buffer, '\n'));
      && IsSuffix(st'.buffer, st.buffer)
      && (st'.buffer == st.buffer <==> r.frames == [])
      && st'.log == st.log + Reactions(r.frames)
      && (st'.cancelled <==> st.cancelled || exists k :: 0 <= k < |r.frames| && IsDone(r.frames[k]))
  {
    RestIsSuffix(parse, st.buffer);
  }

  /** Reading never takes back a callback: the log only grows. */
  lemma {:induction false} ConsumeExtendsLog(parse: Parser, st: Session, chunks: seq<string>)
    ensures |st.log| <= |Consume(parse, st, chunks).log|
    ensures Consume(parse, st, chunks).log[..|st.log|] == st.log
    decreases |chunks|
  {
    if chunks != [] && !st.cancelled {
      var st' := AfterPass(parse, st.(buffer := st.buffer + chunks[0]));
      ConsumeExtendsLog(parse, st', chunks[1..]);
      assert st'.log[..|st.log|] == st.log;
    }
  }

  /** Once the reader has been cancelled, chunks the server sends later are never read. */
  lemma {:induction false} ConsumeStopsAtCancel(parse: Parser, st: Session, chunks: seq<string>, later: seq<string>)
    requires Consume(parse, st, chunks).cancelled
    ensures Consume(parse, st, chunks + later) == Consume(parse, st, chunks)
    decreases |chunks|
  {
    if chunks == [] {
      assert chunks + later == later;
      if later != [] {
        assert st.cancelled;
      }
    } else if !st.cancelled {
      assert (chunks + later)[0] == chunks[0];
      assert (chunks + later)[1..] == chunks[1..] + later;
      ConsumeStopsAtCancel(parse, AfterPass(parse, st.(buffer := st.buffer + chunks[0])), chunks[1..], later);
    }
  }

  /** When the first `m` groups all parse, at least `m` frames are dispatched. */
  lemma {:induction false} ParsedPrefixCovers(parse: Parser, gs: seq<Group>, m: nat)
    requires m <= |gs| && forall k :: 0 <= k < m ==> parse(gs[k].text).Some?
    ensures m <= |ParsedPrefix(parse, gs)|
  {
    if m > 0 {
      assert forall k :: 0 <= k < m - 1 ==> gs[1..][k] == gs[k + 1];
      ParsedPrefixCovers(parse, gs[1..], m - 1);
    }
  }

  /**
   * The end-of-answer marker does not end the pass: when the marker's group and the group after
   * it both parse, both are dispatched, the marker's callback first, and the reader is cancelled.
   */
  lemma MarkerDoesNotStopThePass(parse: Parser, st: Session, a: nat)
    requires var gs := GroupsFrom(Split(st.buffer, '\n'), 0);
      && a + 1 < |gs|
      && (forall k :: 0 <= k <= a + 1 ==> parse(gs[k].text).Some?)
      && IsDone(parse(gs[a].text).value)
    ensures var gs, r := GroupsFrom(Split(st.buffer, '\n'), 0), Pass(parse, Split(st.buffer, '\n'));
      && a + 1 < |r.frames|
      && IsDone(r.frames[a])
      && r.frames[a + 1] == parse(gs[a + 1].text).value
      && AfterPass(parse, st).cancelled
  {
    var lines := Split(st.buffer, '\n');
    var gs := GroupsFrom(lines, 0);
    PassOutcome(parse, lines);
    ParsedPrefixCovers(parse, gs, a + 2);
    assert Pass(parse, lines).frames == ParsedPrefix(parse, gs);
  }

  // ------------------------------------------------------------------ the session object

  /** The state `sendChatRequest` keeps for one streamed answer once the response body is readable. */
  class StreamSession {
    /** `JSON.parse` followed by reading the envelope. */
    const parse: Parser
    /** Decoded text not yet consumed by a dispatched frame. */
    var buffer: string
    /** Set while a pass runs, so that a re-entrant call returns at once. */
    var isProcessing: bool
    /** `reader.cancel()` has been called. */
    var readerCancelled: bool
    /** The calls of `onResponse` made so far, in order. */
    var log: seq<Callback>

    function State(): Session
      reads this
    {
      Session(buffer, readerCancelled, log)
    }

    constructor(parse: Parser)
      ensures this.parse == parse
      ensures State() == Session("", false, []) && !isProcessing
    {
      this.parse := parse;
      buffer := "";
      isProcessing := false;
      readerCancelled := false;
      log := [];
    }

    /** `processResponse`: the callbacks for one envelope; the marker also cancels the reader. */
    method ProcessResponse(e: Envelope)
      modifies this
      ensures log == old(log) + Reaction(e)
      ensures readerCancelled == (old(readerCancelled) || IsDone(e))
      ensures buffer == old(buffer) && isProcessing == old(isProcessing)
    {
      if e.code == 0 {
        match e.data
        case DoneFlag =>
          readerCancelled := true;
          log := log + [Callback("", true, None)];
        case Answer(a) =>
          log := log + [Callback(a, false, None)];
        case Other =>
      } else {
        log := log + [Callback("", true, e.message)];
      }
    }

    /**
     * `processData(buffer)`: a pass over the buffer, unless one is already running, in which
     * case nothing changes. The flag is set for the pass and cleared when it ends, and the buffer
     * keeps the lines from `processedLines` on.
     */
    method ProcessData()
      modifies this
      ensures old(isProcessing) ==> State() == old(State()) && isProcessing
      ensures !old(isProcessing) ==> State() == AfterPass(parse, old(State())) && !isProcessing
    {
      if isProcessing {
        return;
      }
      isProcessing := true;
      var lines := Split(buffer, '\n');
      var processed := DispatchLines(lines);
      if processed < |lines| {
        buffer := Join(lines[processed..], '\n');
      } else {
        buffer := "";
      }
      isProcessing := false;
    }

    /**
     * The loop of `processData` over the lines of the buffer and the final parse after it:
     * dispatches the frames of the pass in order and returns `processedLines`.
     */
    method DispatchLines(lines: seq<string>) returns (processed: nat)
      modifies this
      ensures var r := Pass(parse, lines);
        && processed == r.processed
        && log == old(log) + Reactions(r.frames)
        && readerCancelled == (old(readerCancelled) || AnyDone(r.frames))
      ensures buffer == old(buffer) && isProcessing == old(isProcessing)
    {
      processed := 0;
      var temp := "";
      ghost var frames: seq<Envelope> := [];
      ghost var outcome := Walk(parse, lines, 0, "", 0, []);
      for i := 0 to |lines|
        invariant buffer == old(buffer) && isProcessing == old(isProcessing)
        invariant log == old(log) + Reactions(frames)
        invariant readerCancelled == (old(readerCancelled) || AnyDone(frames))
        invariant Walk(parse, lines, i, temp, processed, frames) == outcome
      {
        var stop;
        stop, temp, processed, frames := WalkLine(lines, i, temp, processed, old(log), old(readerCancelled), frames, outcome);
        if stop {
          break;
        }
      }
      assert Finish(parse, |lines|, temp, processed, frames) == outcome;
      processed := FinishPass(|lines|, temp, processed, old(log), old(readerCancelled), frames);
      PassIsWalk(parse, lines);
    }

    /**
     * One iteration of the loop of `processData`, at line `i`: a blank line is skipped; a `data:`
     * line first dispatches a pending accumulator that parses, or stops the walk when it does
     * not, and then seeds a new one; any other line extends a pending accumulator. The walk goes
     * on from the new state, or (when stopped) ends in the final parse.
     */
    method WalkLine(lines: seq<string>, i: nat, temp: string, processed: nat, ghost log0: seq<Callback>,
                    ghost cancelled0: bool, ghost frames: seq<Envelope>, ghost outcome: PassResult)
      returns (stop: bool, temp': string, processed': nat, ghost frames': seq<Envelope>)
      requires i < |lines| && Walk(parse, lines, i, temp, processed, frames) == outcome
      requires log == log0 + Reactions(frames) && readerCancelled == (cancelled0 || AnyDone(frames))
      modifies this
      ensures log == log0 + Reactions(frames') && readerCancelled == (cancelled0 || AnyDone(frames'))
      ensures stop ==> Finish(parse, |lines|, temp', processed', frames') == outcome
      ensures !stop ==> Walk(parse, lines, i + 1, temp', processed', frames') == outcome
      ensures buffer == old(buffer) && isProcessing == old(isProcessing)
    {
      stop, temp', processed', frames' := false, temp, processed, frames;
      var line := lines[i];
      if Trim(line) == "" {
        return;
      }
      if StartsWith(line, "data:") {
        if temp' != "" {
          match parse(temp')
          case Some(e) =>
            Dispatch(e, log0, cancelled0, frames');
            frames' := frames' + [e];
            temp' := "";
            processed' := i;
          case None =>
            return true, temp', processed', frames';
        }
        temp' := temp' + Trim(line[5..]);
        assert temp' == Seed(line);
      } else if temp' != "" {
        temp' := temp' + line;
      }
    }

    /**
     * The parse after the loop of `processData`: a non-empty accumulator that parses is
     * dispatched, and then every line counts as consumed.
     */
    method FinishPass(n: nat, temp: string, processed: nat, ghost log0: seq<Callback>, ghost cancelled0: bool,
                      ghost frames: seq<Envelope>) returns (processed': nat)
      requires log == log0 + Reactions(frames) && readerCancelled == (cancelled0 || AnyDone(frames))
      modifies this
      ensures var r := Finish(parse, n, temp, processed, frames);
        && processed' == r.processed
        && log == log0 + Reactions(r.frames)
        && readerCancelled == (cancelled0 || AnyDone(r.frames))
      ensures buffer == old(buffer) && isProcessing == old(isProcessing)
    {
      processed' := processed;
      if temp != "" {
        match parse(temp)
        case Some(e) =>
          Dispatch(e, log0, cancelled0, frames);
          processed' := n;
        case None =>
      }
    }

    /**
     * `processResponse` for the next frame of a pass: the log and the cancellation flag keep
     * accounting for every frame dispatched since the pass began.
     */
    method Dispatch(e: Envelope, ghost log0: seq<Callback>, ghost cancelled0: bool, ghost frames: seq<Envelope>)
      requires log == log0 + Reactions(frames) && readerCancelled == (cancelled0 || AnyDone(frames))
      modifies this
      ensures log == log0 + Reactions(frames + [e]) && readerCancelled == (cancelled0 || AnyDone(frames + [e]))
      ensures buffer == old(buffer) && isProcessing == old(isProcessing)
    {
      ProcessResponse(e);
      LogSnoc(log0, frames, e);
      AnyDoneSnoc(frames, e);
    }

    /**
     * `readStream`: read chunks until the stream ends or the reader is cancelled, appending each
     * to the buffer and running a pass; then the pass for the end of the stream.
     */
    method ReadStream(chunks: seq<string>)
      requires !isProcessing
      modifies this
      ensures State() == Stream(parse, old(State()), chunks) && !isProcessing
    {
      var k := 0;
      while k < |chunks| && !readerCancelled
        invariant 0 <= k <= |chunks| && !isProcessing
        invariant Consume(parse, State(), chunks[k..]) == Consume(parse, old(State()), chunks)
      {
        assert chunks[k..][0] == chunks[k] && chunks[k..][1..] == chunks[k + 1..];
        buffer := buffer + chunks[k];
        ProcessData();
        k := k + 1;
      }
      assert Consume(parse, State(), chunks[k..]) == State();
      ProcessData();
    }
  }

  /** How the request for the stream ends: it throws, it has no readable body, or it yields chunks. */
  datatype Transport = Thrown(message: string) | NoReadableBody | Body(chunks: seq<string>)

  /**
   * `sendChatRequest`: the callbacks one request produces. A request that throws, or a response
   * without a readable body, reports the error in exactly one completing callback; otherwise the
   * callbacks are those of the stream read by a fresh session.
   */
  method SendChatRequest(parse: Parser, transport: Transport) returns (calls: seq<Callback>)
    ensures transport.Thrown? ==> calls == [Callback("", true, Some(transport.message))]
    ensures transport.NoReadableBody? ==> calls == [Callback("", true, Some("No readable stream"))]
    ensures transport.Body? ==> calls == Stream(parse, Session("", false, []), transport.chunks).log
  {
    match transport
    case Thrown(message) =>
      calls := [Callback("", true, Some(message))];
    case NoReadableBody =>
      calls := [Callback("", true, Some("No readable stream"))];
    case Body(chunks) =>
      var session := new StreamSession(parse);
      session.ReadStream(chunks);
      calls := session.log;
  }
}
