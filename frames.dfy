/**
 * One pass of the streamed chat-completion frame reassembler over the pending buffer.
 *
 * The buffer is split on '\n'. A line starting with `data:` opens a frame seeded with the rest
 * of the line after its first five characters, trimmed; following lines that are neither blank
 * nor `data:` lines are appended verbatim, without a newline. A frame is finalized when the next
 * `data:` line arrives or the lines run out, and is then handed to the JSON parser; a frame that
 * does not parse ends the pass. The buffer keeps the lines from the first one not yet folded
 * into a dispatched frame.
 *
 * `Walk` follows the loop of the implementation line by line. `Pass` states the same outcome
 * without a loop: the frames are the longest prefix of the `data:` groups that parse, and the
 * kept lines start at the end of the last group dispatched. `PassIsWalk` connects the two.
 */
module Frames {
  import opened Wrappers
  import opened Text

  /** The `data` member of an envelope: `true`, an object with an `answer`, or anything else. */
  datatype Data = DoneFlag | Answer(answer: string) | Other

  /** A parsed JSON envelope `{code, message?, data}`. */
  datatype Envelope = Envelope(code: int, message: Option<string>, data: Data)

  /**
   * `JSON.parse` followed by reading the envelope's members: deterministic, and `None` when
   * parsing (or reading `.code` off the parsed value) throws.
   */
  type Parser = string -> Option<Envelope>

  /** `!line.trim()`. */
  predicate IsBlank(line: string) {
    Trim(line) == ""
  }

  /** `line.startsWith('data:')`. */
  predicate IsDataLine(line: string) {
    StartsWith(line, "data:")
  }

  /** `line.slice(5).trim()` for a `data:` line. */
  function Seed(line: string): string
    requires IsDataLine(line)
  {
    Trim(line[5..])
  }

  /** A `data:` line is never blank, so the blank test never hides one. */
  lemma DataLineNotBlank(line: string)
    requires IsDataLine(line)
    ensures !IsBlank(line)
  {
    assert line[0] == 'd';
    TrimEmptyIffAllWhitespace(line);
    assert !IsWhitespace(line[0]);
  }

  /** What a pass produces: the envelopes dispatched, in order, and `processedLines`. */
  datatype PassResult = PassResult(frames: seq<Envelope>, processed: nat)

  // ------------------------------------------------------------------ the loop, line by line

  /** The final step after the walk: a non-empty accumulator is parsed once more. */
  function Finish(parse: Parser, n: nat, temp: string, processed: nat, frames: seq<Envelope>): PassResult {
    if temp != "" && parse(temp).Some? then PassResult(frames + [parse(temp).value], n)
    else PassResult(frames, processed)
  }

  /**
   * The walk from line `i` on, with accumulator `temp`, counter `processed` and the frames
   * dispatched so far. A frame that fails to parse at a `data:` line breaks out of the walk
   * into the final step.
   */
  function Walk(parse: Parser, lines: seq<string>, i: nat, temp: string, processed: nat, frames: seq<Envelope>): PassResult
    requires i <= |lines|
    decreases |lines| - i
  {
    if i == |lines| then Finish(parse, |lines|, temp, processed, frames)
    else
      var line := lines[i];
      if IsBlank(line) then Walk(parse, lines, i + 1, temp, processed, frames)
      else if IsDataLine(line) then
        if temp != "" then
          match parse(temp)
          case Some(e) => Walk(parse, lines, i + 1, Seed(line), i, frames + [e])
          case None => Finish(parse, |lines|, temp, processed, frames)
        else Walk(parse, lines, i + 1, Seed(line), processed, frames)
      else if temp != "" then Walk(parse, lines, i + 1, temp + line, processed, frames)
      else Walk(parse, lines, i + 1, temp, processed, frames)
  }

  // ------------------------------------------------------------------ the same pass, declaratively

  /** A frame: its `data:` line, the index of the next `data:` line (or the line count), its text. */
  datatype Group = Group(start: nat, end: nat, text: string)

  /** The first `data:` line at index `j` or later, or `|lines|` when there is none. */
  function NextDataLine(lines: seq<string>, j: nat): (r: nat)
    requires j <= |lines|
    ensures j <= r <= |lines|
    ensures r < |lines| ==> IsDataLine(lines[r])
    ensures forall k :: j <= k < r ==> !IsDataLine(lines[k])
    decreases |lines| - j
  {
    if j == |lines| || IsDataLine(lines[j]) then j else NextDataLine(lines, j + 1)
  }

  /** The non-blank lines from `j` up to the next `data:` line, concatenated without separators. */
  function Continuation(lines: seq<string>, j: nat): string
    requires j <= |lines|
    decreases |lines| - j
  {
    if j == |lines| || IsDataLine(lines[j]) then ""
    else (if IsBlank(lines[j]) then "" else lines[j]) + Continuation(lines, j + 1)
  }

  /** The group a `data:` line opens (its text may be empty). */
  function GroupAt(lines: seq<string>, j: nat): Group
    requires j < |lines| && IsDataLine(lines[j])
  {
    Group(j, NextDataLine(lines, j + 1), Seed(lines[j]) + Continuation(lines, j + 1))
  }

  /**
   * The groups with non-empty text whose `data:` line is at index `j` or later, in stream order.
   * (A `data:` line with nothing after the prefix yields an empty accumulator, which is never
   * parsed, and its continuation lines are ignored.)
   */
  function GroupsFrom(lines: seq<string>, j: nat): seq<Group>
    requires j <= |lines|
    decreases |lines| - j
  {
    if j == |lines| then []
    else if IsDataLine(lines[j]) && Seed(lines[j]) != "" then
      [GroupAt(lines, j)] + GroupsFrom(lines, j + 1)
    else GroupsFrom(lines, j + 1)
  }

  /** Every group of `gs` is opened by a `data:` line at `j` or later, ends within the lines and has text. */
  predicate GroupsWithin(lines: seq<string>, j: nat, gs: seq<Group>) {
    forall a :: 0 <= a < |gs| ==>
      && j <= gs[a].start < gs[a].end <= |lines|
      && IsDataLine(lines[gs[a].start]) && gs[a] == GroupAt(lines, gs[a].start) && gs[a].text != ""
  }

  /** The groups of `gs` follow each other without overlapping. */
  predicate GroupsOrdered(gs: seq<Group>) {
    forall a, b :: 0 <= a < b < |gs| ==> gs[a].end <= gs[b].start
  }

  /** The groups lie within the lines in increasing order without overlapping. */
  lemma {:induction false} GroupsWellFormed(lines: seq<string>, j: nat)
    requires j <= |lines|
    ensures GroupsWithin(lines, j, GroupsFrom(lines, j))
    ensures GroupsOrdered(GroupsFrom(lines, j))
    decreases |lines| - j
  {
    if j < |lines| {
      GroupsWellFormed(lines, j + 1);
      if IsDataLine(lines[j]) && Seed(lines[j]) != "" {
        assert GroupsFrom(lines, j) == [GroupAt(lines, j)] + GroupsFrom(lines, j + 1);
        GroupsConsWellFormed(lines, j, GroupsFrom(lines, j + 1));
      }
    }
  }

  /** Putting the group a `data:` line opens in front of well-formed groups after it keeps them well-formed. */
  lemma GroupsConsWellFormed(lines: seq<string>, j: nat, rest: seq<Group>)
    requires j < |lines| && IsDataLine(lines[j]) && Seed(lines[j]) != ""
    requires GroupsWithin(lines, j + 1, rest) && GroupsOrdered(rest)
    ensures GroupsWithin(lines, j, [GroupAt(lines, j)] + rest)
    ensures GroupsOrdered([GroupAt(lines, j)] + rest)
  {
    var gs := [GroupAt(lines, j)] + rest;
    assert forall a :: 0 < a < |gs| ==> gs[a] == rest[a - 1];
    forall b | 0 < b < |gs|
      ensures gs[0].end <= gs[b].start
    {
      assert IsDataLine(lines[rest[b - 1].start]);
    }
    forall a, b | 0 < a < b < |gs|
      ensures gs[a].end <= gs[b].start
    {
      assert rest[a - 1].end <= rest[b - 1].start;
    }
  }

  /** The envelopes of the longest prefix of `gs` whose texts all parse. */
  function ParsedPrefix(parse: Parser, gs: seq<Group>): (fs: seq<Envelope>)
    ensures |fs| <= |gs|
  {
    if gs == [] || parse(gs[0].text).None? then []
    else [parse(gs[0].text).value] + ParsedPrefix(parse, gs[1..])
  }

  /** Each envelope of the prefix is its group's parse, and the group after the prefix does not parse. */
  lemma {:induction false} ParsedPrefixIsLongestRun(parse: Parser, gs: seq<Group>)
    ensures var fs := ParsedPrefix(parse, gs);
      && (forall a :: 0 <= a < |fs| ==> parse(gs[a].text) == Some(fs[a]))
      && (|fs| < |gs| ==> parse(gs[|fs|].text).None?)
  {
    if gs != [] && parse(gs[0].text).Some? {
      ParsedPrefixIsLongestRun(parse, gs[1..]);
      var fs := ParsedPrefix(parse, gs);
      assert forall a :: 0 < a < |fs| ==> gs[a] == gs[1..][a - 1];
    }
  }

  /**
   * Dispatching the parsing prefix of `gs` after `frames`: the kept-lines counter moves to the
   * end of the last group dispatched, or stays where it was when none is.
   */
  function Combine(parse: Parser, frames: seq<Envelope>, processed: nat, gs: seq<Group>): PassResult {
    var fs := ParsedPrefix(parse, gs);
    PassResult(frames + fs, if fs == [] then processed else gs[|fs| - 1].end)
  }

  /** The outcome of one pass over `lines`. */
  function Pass(parse: Parser, lines: seq<string>): PassResult {
    Combine(parse, [], 0, GroupsFrom(lines, 0))
  }

  /**
   * The groups still to be finalized when the walk stands at line `i` with accumulator `temp`:
   * the open group (when `temp` is non-empty) followed by the groups whose `data:` line is ahead.
   */
  function Pending(lines: seq<string>, i: nat, temp: string, s: nat): seq<Group>
    requires i <= |lines|
  {
    if temp == "" then GroupsFrom(lines, i)
    else [Group(s, NextDataLine(lines, i), temp + Continuation(lines, i))] + GroupsFrom(lines, i)
  }

  /** The walk from any state is the declarative combination of its pending groups. */
  lemma {:induction false} WalkIsCombine(parse: Parser, lines: seq<string>, i: nat, temp: string,
                                         processed: nat, frames: seq<Envelope>, s: nat)
    requires i <= |lines|
    ensures Walk(parse, lines, i, temp, processed, frames)
         == Combine(parse, frames, processed, Pending(lines, i, temp, s))
    decreases |lines| - i, 2
  {
    if i == |lines| {
      WalkAtEnd(parse, lines, temp, processed, frames, s);
    } else if IsBlank(lines[i]) {
      WalkBlankStep(parse, lines, i, temp, processed, frames, s);
    } else if IsDataLine(lines[i]) {
      WalkDataStep(parse, lines, i, temp, processed, frames, s);
    } else {
      WalkOtherStep(parse, lines, i, temp, processed, frames, s);
    }
  }

  lemma WalkAtEnd(parse: Parser, lines: seq<string>, temp: string, processed: nat, frames: seq<Envelope>, s: nat)
    ensures Walk(parse, lines, |lines|, temp, processed, frames)
         == Combine(parse, frames, processed, Pending(lines, |lines|, temp, s))
  {
    assert temp + "" == temp;
    if temp != "" {
      var gs := Pending(lines, |lines|, temp, s);
      assert gs == [Group(s, |lines|, temp)];
      if parse(temp).Some? {
        assert ParsedPrefix(parse, gs) == [parse(temp).value] + ParsedPrefix(parse, gs[1..]);
      }
    }
  }

  lemma {:induction false} WalkBlankStep(parse: Parser, lines: seq<string>, i: nat, temp: string,
                                         processed: nat, frames: seq<Envelope>, s: nat)
    requires i < |lines| && IsBlank(lines[i])
    ensures Walk(parse, lines, i, temp, processed, frames)
         == Combine(parse, frames, processed, Pending(lines, i, temp, s))
    decreases |lines| - i, 0
  {
    if IsDataLine(lines[i]) { DataLineNotBlank(lines[i]); }
    assert Walk(parse, lines, i, temp, processed, frames) == Walk(parse, lines, i + 1, temp, processed, frames);
    assert GroupsFrom(lines, i) == GroupsFrom(lines, i + 1);
    assert Continuation(lines, i) == Continuation(lines, i + 1);
    WalkIsCombine(parse, lines, i + 1, temp, processed, frames, s);
    assert Pending(lines, i, temp, s) == Pending(lines, i + 1, temp, s);
  }

  lemma WalkOtherStep(parse: Parser, lines: seq<string>, i: nat, temp: string,
                      processed: nat, frames: seq<Envelope>, s: nat)
    requires i < |lines| && !IsBlank(lines[i]) && !IsDataLine(lines[i])
    ensures Walk(parse, lines, i, temp, processed, frames)
         == Combine(parse, frames, processed, Pending(lines, i, temp, s))
    decreases |lines| - i, 1
  {
    if temp == "" {
      WalkOtherIdle(parse, lines, i, processed, frames, s);
    } else {
      WalkOtherExtend(parse, lines, i, temp, processed, frames, s);
    }
  }

  /** Outside a frame, a line that is neither blank nor `data:` is ignored. */
  lemma {:induction false} WalkOtherIdle(parse: Parser, lines: seq<string>, i: nat,
                                         processed: nat, frames: seq<Envelope>, s: nat)
    requires i < |lines| && !IsBlank(lines[i]) && !IsDataLine(lines[i])
    ensures Walk(parse, lines, i, "", processed, frames)
         == Combine(parse, frames, processed, Pending(lines, i, "", s))
    decreases |lines| - i, 0
  {
    assert GroupsFrom(lines, i) == GroupsFrom(lines, i + 1);
    assert Walk(parse, lines, i, "", processed, frames) == Walk(parse, lines, i + 1, "", processed, frames);
    WalkIsCombine(parse, lines, i + 1, "", processed, frames, s);
  }

  /** Inside a frame, a line that is neither blank nor `data:` is appended to it. */
  lemma {:induction false} WalkOtherExtend(parse: Parser, lines: seq<string>, i: nat, temp: string,
                                           processed: nat, frames: seq<Envelope>, s: nat)
    requires i < |lines| && !IsBlank(lines[i]) && !IsDataLine(lines[i]) && temp != ""
    ensures Walk(parse, lines, i, temp, processed, frames)
         == Combine(parse, frames, processed, Pending(lines, i, temp, s))
    decreases |lines| - i, 0
  {
    var line := lines[i];
    var temp' := temp + line;
    assert Walk(parse, lines, i, temp, processed, frames) == Walk(parse, lines, i + 1, temp', processed, frames);
    WalkIsCombine(parse, lines, i + 1, temp', processed, frames, s);
    PendingOtherStep(lines, i, temp, s);
  }

  /** A line that is neither blank nor `data:` moves from the continuation into the open frame. */
  lemma PendingOtherStep(lines: seq<string>, i: nat, temp: string, s: nat)
    requires i < |lines| && !IsBlank(lines[i]) && !IsDataLine(lines[i]) && temp != ""
    ensures Pending(lines, i, temp, s) == Pending(lines, i + 1, temp + lines[i], s)
  {
    var line := lines[i];
    assert GroupsFrom(lines, i) == GroupsFrom(lines, i + 1);
    assert NextDataLine(lines, i) == NextDataLine(lines, i + 1);
    assert Continuation(lines, i) == line + Continuation(lines, i + 1);
    assert (temp + line) + Continuation(lines, i + 1) == temp + (line + Continuation(lines, i + 1));
  }

  /** Dispatching a group that parses moves the counter to its end and continues with the rest. */
  lemma CombineCons(parse: Parser, frames: seq<Envelope>, processed: nat, g: Group, rest: seq<Group>, e: Envelope)
    requires parse(g.text) == Some(e)
    ensures Combine(parse, frames, processed, [g] + rest) == Combine(parse, frames + [e], g.end, rest)
  {
    var gs := [g] + rest;
    assert gs[1..] == rest;
    var fs' := ParsedPrefix(parse, rest);
    var fs := ParsedPrefix(parse, gs);
    assert fs == [e] + fs';
    assert frames + [e] + fs' == frames + fs;
    assert gs[|fs| - 1] == if fs' == [] then g else rest[|fs'| - 1];
  }

  /** The groups ahead of a `data:` line at `i` are its own (if non-empty) and those after it. */
  lemma GroupsAtDataLine(lines: seq<string>, i: nat)
    requires i < |lines| && IsDataLine(lines[i])
    ensures GroupsFrom(lines, i) == Pending(lines, i + 1, Seed(lines[i]), i)
    ensures NextDataLine(lines, i) == i && Continuation(lines, i) == ""
  {
    if Seed(lines[i]) != "" {
      assert GroupsFrom(lines, i) == [GroupAt(lines, i)] + GroupsFrom(lines, i + 1);
    } else {
      assert GroupsFrom(lines, i) == GroupsFrom(lines, i + 1);
    }
  }

  lemma WalkDataStep(parse: Parser, lines: seq<string>, i: nat, temp: string,
                     processed: nat, frames: seq<Envelope>, s: nat)
    requires i < |lines| && !IsBlank(lines[i]) && IsDataLine(lines[i])
    ensures Walk(parse, lines, i, temp, processed, frames)
         == Combine(parse, frames, processed, Pending(lines, i, temp, s))
    decreases |lines| - i, 1
  {
    if temp == "" {
      WalkDataSeed(parse, lines, i, processed, frames, s);
    } else if parse(temp).Some? {
      WalkDataDispatch(parse, lines, i, temp, processed, frames, s, parse(temp).value);
    } else {
      WalkDataStop(parse, lines, i, temp, processed, frames, s);
    }
  }

  /** Outside a frame, a `data:` line opens one. */
  lemma {:induction false} WalkDataSeed(parse: Parser, lines: seq<string>, i: nat,
                                        processed: nat, frames: seq<Envelope>, s: nat)
    requires i < |lines| && !IsBlank(lines[i]) && IsDataLine(lines[i])
    ensures Walk(parse, lines, i, "", processed, frames)
         == Combine(parse, frames, processed, Pending(lines, i, "", s))
    decreases |lines| - i, 0
  {
    assert Walk(parse, lines, i, "", processed, frames) == Walk(parse, lines, i + 1, Seed(lines[i]), processed, frames);
    WalkIsCombine(parse, lines, i + 1, Seed(lines[i]), processed, frames, i);
    GroupsAtDataLine(lines, i);
  }

  /** A `data:` line dispatches the frame before it when that frame parses, and opens the next one. */
  lemma {:induction false} WalkDataDispatch(parse: Parser, lines: seq<string>, i: nat, temp: string,
                                            processed: nat, frames: seq<Envelope>, s: nat, e: Envelope)
    requires i < |lines| && !IsBlank(lines[i]) && IsDataLine(lines[i]) && temp != "" && parse(temp) == Some(e)
    ensures Walk(parse, lines, i, temp, processed, frames)
         == Combine(parse, frames, processed, Pending(lines, i, temp, s))
    decreases |lines| - i, 0
  {
    assert Walk(parse, lines, i, temp, processed, frames) == Walk(parse, lines, i + 1, Seed(lines[i]), i, frames + [e]);
    WalkIsCombine(parse, lines, i + 1, Seed(lines[i]), i, frames + [e], i);
    GroupsAtDataLine(lines, i);
    assert Pending(lines, i, temp, s) == [Group(s, i, temp)] + GroupsFrom(lines, i) by {
      assert temp + "" == temp;
    }
    CombineCons(parse, frames, processed, Group(s, i, temp), GroupsFrom(lines, i), e);
  }

  /** A `data:` line after a frame that does not parse ends the walk. */
  lemma WalkDataStop(parse: Parser, lines: seq<string>, i: nat, temp: string,
                     processed: nat, frames: seq<Envelope>, s: nat)
    requires i < |lines| && !IsBlank(lines[i]) && IsDataLine(lines[i]) && temp != "" && parse(temp).None?
    ensures Walk(parse, lines, i, temp, processed, frames)
         == Combine(parse, frames, processed, Pending(lines, i, temp, s))
  {
    var g := Group(s, NextDataLine(lines, i), temp + Continuation(lines, i));
    assert g.text == temp by {
      assert Continuation(lines, i) == "";
      assert temp + "" == temp;
    }
    assert ParsedPrefix(parse, [g] + GroupsFrom(lines, i)) == [];
    assert Walk(parse, lines, i, temp, processed, frames) == PassResult(frames, processed);
    assert frames + [] == frames;
  }

  /** The loop, run from its initial state, computes `Pass`. */
  lemma PassIsWalk(parse: Parser, lines: seq<string>)
    ensures Walk(parse, lines, 0, "", 0, []) == Pass(parse, lines)
  {
    WalkIsCombine(parse, lines, 0, "", 0, [], 0);
  }

  // ------------------------------------------------------------------ what a pass guarantees

  /** The rewritten buffer: the lines from `p` on rejoined with '\n', or "" when none remain. */
  function Rest(lines: seq<string>, p: nat): string {
    if p < |lines| then Join(lines[p..], '\n') else ""
  }

  /**
   * The frames of a pass are the parsing prefix of the groups, in stream order; the first group
   * that does not parse blocks every later one and none of its lines is dropped; every line of a
   * dispatched group is dropped.
   */
  lemma PassOutcome(parse: Parser, lines: seq<string>)
    ensures var gs, r := GroupsFrom(lines, 0), Pass(parse, lines);
      && |r.frames| <= |gs|
      && (forall a :: 0 <= a < |r.frames| ==> parse(gs[a].text) == Some(r.frames[a]))
      && (|r.frames| < |gs| ==> parse(gs[|r.frames|].text).None?)
      && r.processed <= |lines|
      && (r.frames == [] <==> r.processed == 0)
      && (forall a :: 0 <= a < |r.frames| ==> gs[a].end <= r.processed)
      && (|r.frames| < |gs| ==> r.processed <= gs[|r.frames|].start)
  {
    GroupSpans(lines, 0);
    CombineOutcome(parse, GroupsFrom(lines, 0), |lines|);
  }

  /** `PassOutcome` for any well-formed groups within `n` lines. */
  lemma CombineOutcome(parse: Parser, gs: seq<Group>, n: nat)
    requires GroupsSpanWithin(n, gs) && GroupsOrdered(gs)
    ensures var r := Combine(parse, [], 0, gs);
      && |r.frames| <= |gs|
      && (forall a :: 0 <= a < |r.frames| ==> parse(gs[a].text) == Some(r.frames[a]))
      && (|r.frames| < |gs| ==> parse(gs[|r.frames|].text).None?)
      && r.processed <= n
      && (r.frames == [] <==> r.processed == 0)
      && (forall a :: 0 <= a < |r.frames| ==> gs[a].end <= r.processed)
      && (|r.frames| < |gs| ==> r.processed <= gs[|r.frames|].start)
  {
    CombineFromStart(parse, gs);
    ParsedPrefixIsLongestRun(parse, gs);
    EndOfFirstBounds(gs, n, |ParsedPrefix(parse, gs)|);
  }

  /** From the start of a pass, the frames are the parsing prefix and the counter is where it ends. */
  lemma CombineFromStart(parse: Parser, gs: seq<Group>)
    ensures Combine(parse, [], 0, gs) == PassResult(ParsedPrefix(parse, gs), EndOfFirst(gs, |ParsedPrefix(parse, gs)|))
  {
    var fs := ParsedPrefix(parse, gs);
    assert [] + fs == fs;
  }

  /** Where the first `m` groups end: the end of group `m - 1`, or 0 for none. */
  function EndOfFirst(gs: seq<Group>, m: nat): nat
    requires m <= |gs|
  {
    if m == 0 then 0 else gs[m - 1].end
  }

  /** The first `m` well-formed groups end by line `n`, after none of them and before group `m`; at 0 only for none. */
  lemma EndOfFirstBounds(gs: seq<Group>, n: nat, m: nat)
    requires GroupsSpanWithin(n, gs) && GroupsOrdered(gs) && m <= |gs|
    ensures EndOfFirst(gs, m) <= n
    ensures m == 0 <==> EndOfFirst(gs, m) == 0
    ensures forall a :: 0 <= a < m ==> gs[a].end <= EndOfFirst(gs, m)
    ensures m < |gs| ==> EndOfFirst(gs, m) <= gs[m].start
  {
    if m > 0 {
      LastDispatchedEnd(n, gs, m - 1);
    }
  }

  /** Every group spans at least one line within the lines, and the groups do not overlap. */
  lemma GroupSpans(lines: seq<string>, j: nat)
    requires j <= |lines|
    ensures GroupsSpanWithin(|lines|, GroupsFrom(lines, j))
    ensures GroupsOrdered(GroupsFrom(lines, j))
  {
    GroupsWellFormed(lines, j);
  }

  /** Every group of `gs` starts before it ends, and ends by line `n`. */
  predicate GroupsSpanWithin(n: nat, gs: seq<Group>) {
    forall a :: 0 <= a < |gs| ==> gs[a].start < gs[a].end <= n
  }

  /** In well-formed groups, group `k` ends after every earlier one and before the next one starts. */
  lemma LastDispatchedEnd(n: nat, gs: seq<Group>, k: nat)
    requires GroupsSpanWithin(n, gs) && GroupsOrdered(gs) && k < |gs|
    ensures 0 < gs[k].end <= n
    ensures forall a :: 0 <= a <= k ==> gs[a].end <= gs[k].end
    ensures k + 1 < |gs| ==> gs[k].end <= gs[k + 1].start
  {
    forall a | 0 <= a <= k
      ensures gs[a].end <= gs[k].end
    {
      if a < k {
        assert gs[a].end <= gs[k].start;
      }
    }
  }

  /** The rewritten buffer is a suffix of the old one, and equals it exactly when nothing was dispatched. */
  lemma RestIsSuffix(parse: Parser, b: string)
    ensures var lines := Split(b, '\n');
      var r := Pass(parse, lines);
      && IsSuffix(Rest(lines, r.processed), b)
      && (Rest(lines, r.processed) == b <==> r.frames == [])
  {
    var lines := Split(b, '\n');
    var r := Pass(parse, lines);
    var gs := GroupsFrom(lines, 0);
    PassOutcome(parse, lines);
    JoinSplit(b, '\n');
    var p := r.processed;
    if p < |lines| {
      JoinDropIsSuffix(lines, p, '\n');
      if p == 0 {
        assert lines[0..] == lines;
      }
    }
    if r.frames != [] {
      BufferWithGroupNotEmpty(b);
    }
  }

  /** A buffer whose lines open a group is not empty. */
  lemma BufferWithGroupNotEmpty(b: string)
    requires GroupsFrom(Split(b, '\n'), 0) != []
    ensures b != ""
  {
    var lines := Split(b, '\n');
    var gs := GroupsFrom(lines, 0);
    GroupsWellFormed(lines, 0);
    assert IsDataLine(lines[gs[0].start]);
    assert lines[gs[0].start] != "";
    assert Split("", '\n') == [""];
  }

  /** The texts of a sequence of groups, in order. */
  function Texts(gs: seq<Group>): (ts: seq<string>)
    ensures |ts| == |gs| && forall a :: 0 <= a < |gs| ==> ts[a] == gs[a].text
  {
    if gs == [] then [] else [gs[0].text] + Texts(gs[1..])
  }

  /** Lines that are not `data:` lines do not open groups. */
  lemma {:induction false} GroupsSkipToData(lines: seq<string>, j: nat)
    requires j <= |lines|
    ensures GroupsFrom(lines, j) == GroupsFrom(lines, NextDataLine(lines, j))
    decreases |lines| - j
  {
    if j < |lines| && !IsDataLine(lines[j]) {
      GroupsSkipToData(lines, j + 1);
    }
  }

  /** The groups after the one at position `k` are those from its end on. */
  lemma {:induction false} GroupsAfter(lines: seq<string>, j: nat, k: nat)
    requires j <= |lines| && k < |GroupsFrom(lines, j)| && GroupsFrom(lines, j)[k].end <= |lines|
    ensures GroupsFrom(lines, GroupsFrom(lines, j)[k].end) == GroupsFrom(lines, j)[k + 1..]
    decreases |lines| - j
  {
    var gs := GroupsFrom(lines, j);
    if IsDataLine(lines[j]) && Seed(lines[j]) != "" {
      assert gs == [GroupAt(lines, j)] + GroupsFrom(lines, j + 1);
      if k == 0 {
        GroupsSkipToData(lines, j + 1);
      } else {
        GroupsAfter(lines, j + 1, k - 1);
        assert gs[k] == GroupsFrom(lines, j + 1)[k - 1];
        assert gs[k + 1..] == GroupsFrom(lines, j + 1)[k..];
      }
    } else {
      assert gs == GroupsFrom(lines, j + 1);
      GroupsAfter(lines, j + 1, k);
    }
  }

  /** Continuations do not depend on the lines before the one they start at. */
  lemma {:induction false} ContinuationShift(lines: seq<string>, p: nat, j: nat)
    requires p <= j <= |lines|
    ensures Continuation(lines[p..], j - p) == Continuation(lines, j)
    decreases |lines| - j
  {
    if j < |lines| {
      assert lines[p..][j - p] == lines[j];
      ContinuationShift(lines, p, j + 1);
    }
  }

  lemma TextsCons(g: Group, gs: seq<Group>)
    ensures Texts([g] + gs) == [g.text] + Texts(gs)
  {
    assert ([g] + gs)[1..] == gs;
  }

  /** Dropping the first `p` lines leaves the texts of the groups from line `p` on. */
  lemma {:induction false} GroupsShift(lines: seq<string>, p: nat, j: nat)
    requires p <= j <= |lines|
    ensures Texts(GroupsFrom(lines[p..], j - p)) == Texts(GroupsFrom(lines, j))
    decreases |lines| - j
  {
    if j < |lines| {
      GroupsShift(lines, p, j + 1);
      GroupsShiftStep(lines, p, j);
    }
  }

  lemma GroupsShiftStep(lines: seq<string>, p: nat, j: nat)
    requires p <= j < |lines|
    requires Texts(GroupsFrom(lines[p..], j + 1 - p)) == Texts(GroupsFrom(lines, j + 1))
    ensures Texts(GroupsFrom(lines[p..], j - p)) == Texts(GroupsFrom(lines, j))
  {
    var tail := lines[p..];
    var i := j - p;
    assert tail[i] == lines[j];
    var us, vs := GroupsFrom(tail, i + 1), GroupsFrom(lines, j + 1);
    if IsDataLine(lines[j]) && Seed(lines[j]) != "" {
      GroupAtShift(lines, p, j);
      var g, g' := GroupAt(tail, i), GroupAt(lines, j);
      assert GroupsFrom(tail, i) == [g] + us;
      assert GroupsFrom(lines, j) == [g'] + vs;
      TextsCons(g, us);
      TextsCons(g', vs);
    } else {
      assert GroupsFrom(tail, i) == us;
      assert GroupsFrom(lines, j) == vs;
    }
  }

  lemma GroupAtShift(lines: seq<string>, p: nat, j: nat)
    requires p <= j < |lines| && IsDataLine(lines[j])
    ensures lines[p..][j - p] == lines[j]
    ensures GroupAt(lines[p..], j - p).text == GroupAt(lines, j).text
  {
    ContinuationShift(lines, p, j + 1);
  }

  /**
   * The kept buffer holds exactly the groups not dispatched: split again, its groups carry the
   * texts of the blocked group and of every group after it, so a dispatched frame is never
   * dispatched again and an undispatched one is not lost.
   */
  lemma KeptGroupsAreUndispatched(parse: Parser, b: string)
    ensures var lines := Split(b, '\n');
      var r := Pass(parse, lines);
      var gs := GroupsFrom(lines, 0);
      |r.frames| <= |gs| &&
      Texts(GroupsFrom(Split(Rest(lines, r.processed), '\n'), 0)) == Texts(gs[|r.frames|..])
  {
    var lines := Split(b, '\n');
    KeptLinesStartAtBlocked(parse, lines);
    RestGroupTexts(lines, Pass(parse, lines).processed);
  }

  /** The groups from the kept counter on are the undispatched ones. */
  lemma KeptLinesStartAtBlocked(parse: Parser, lines: seq<string>)
    ensures var r := Pass(parse, lines);
      var gs := GroupsFrom(lines, 0);
      && r.processed <= |lines| && |r.frames| <= |gs|
      && GroupsFrom(lines, r.processed) == gs[|r.frames|..]
  {
    var r := Pass(parse, lines);
    var gs := GroupsFrom(lines, 0);
    PassOutcome(parse, lines);
    if r.frames == [] {
      assert gs[0..] == gs;
    } else {
      GroupsAfter(lines, 0, |r.frames| - 1);
    }
  }

  /** Rejoined and split again, the lines from `p` on open groups with the same texts. */
  lemma RestGroupTexts(lines: seq<string>, p: nat)
    requires p <= |lines|
    requires forall k :: 0 <= k < |lines| ==> '\n' !in lines[k]
    ensures Texts(GroupsFrom(Split(Rest(lines, p), '\n'), 0)) == Texts(GroupsFrom(lines, p))
  {
    if p < |lines| {
      assert forall k :: 0 <= k < |lines[p..]| ==> lines[p..][k] == lines[p + k];
      SplitJoin(lines[p..], '\n');
      GroupsShift(lines, p, p);
    } else {
      assert Split("", '\n') == [""];
      assert !IsDataLine("");
      assert GroupsFrom([""], 1) == [];
      assert GroupsFrom(lines, |lines|) == [];
    }
  }
}
