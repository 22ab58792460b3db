/**
 Attributing the diagnostics of the resident trace process to its responses: a pump thread moves
 bytes from the pipe to a buffer, and the caller takes the buffer after each response.
 */
module StderrPump {

  function Concat(parts: seq<string>): string {
    if parts == [] then "" else Concat(parts[..|parts| - 1]) + parts[|parts| - 1]
  }

  // ---------------------------------------------------------------------------
  // The buffer, under its lock
  // ---------------------------------------------------------------------------

  /** The note added to every text once the capture has failed. */
  function FailureNote(text: string, error: string): string {
    (if text != "" && text[|text| - 1] != '\n' then "\n" else "") +
    "[rtl_trace serve stderr capture failed (" + error + "); later stderr is lost]\n"
  }

  /** What polling the pipe without waiting says. */
  datatype Poll = Drained | Pending | Raised(message: string)

  class Pump {
    var chunks: seq<string>
    var eof: bool
    var error: string

    constructor ()
      ensures Buffered() == "" && !eof && error == ""
    {
      chunks, eof, error := [], false, "";
    }

    function Buffered(): string
      reads this
    {
      Concat(chunks)
    }

    /** A chunk read from the pipe; an empty one is the end of the stream. */
    method Received(data: string) returns (more: bool)
      modifies this
      ensures more == (data != "") && eof == (old(eof) || data == "")
      ensures Buffered() == old(Buffered()) + data && error == old(error)
    {
      if data == "" {
        eof := true;
        return false;
      }
      chunks := chunks + [data];
      more := true;
    }

    /** The buffered text, with a note after a failure; the buffer is empty afterwards. */
    method TakeLocked() returns (text: string)
      modifies this`chunks
      ensures Buffered() == ""
      ensures text == old(Buffered()) + if error == "" then "" else FailureNote(old(Buffered()), error)
    {
      text := Concat(chunks);
      chunks := [];
      if error != "" {
        text := text + FailureNote(text, error);
      }
    }

    /**
     One look at the pipe: takes the text once nothing is left to come, or time is up. The pipe is
     polled only if the buffer does not settle it; a poll that raises is kept as an error.
     */
    method TrySettle(pumping: bool, late: bool, poll: Poll) returns (settled: bool, text: string)
      requires poll.Raised? ==> poll.message != ""
      modifies this`chunks, this`error
      ensures var done := eof || !pumping || late;
              && settled == (done || !poll.Pending?)
              && error == if !done && poll.Raised? && old(error) == "" then poll.message else old(error)
      ensures !settled ==> text == "" && chunks == old(chunks)
      ensures settled ==> Buffered() == ""
      ensures settled ==> text == old(Buffered()) + if error == "" then "" else FailureNote(old(Buffered()), error)
    {
      text := "";
      settled := eof || !pumping || late;
      if !settled {
        settled := !poll.Pending?;
        if poll.Raised? && error == "" {
          error := poll.message;
        }
      }
      if settled {
        text := TakeLocked();
      }
    }
  }

  // ---------------------------------------------------------------------------
  // Child, pump and caller
  // ---------------------------------------------------------------------------

  datatype Child = Waiting | Answering | Exited

  datatype Caller = Ready | Reading | Settling | Closed

  /**
   `written[k]` is what the child wrote to its error stream between the ends of responses k and
   k + 1; `ended` responses have been terminated, `requests` asked for. `returned[k]` is what the
   caller handed out with response k + 1, and `leftover` what it took after the child had exited.
   */
  datatype State = State(
    child: Child,
    written: seq<string>,
    ended: nat,
    requests: nat,
    pipe: string,
    chunks: seq<string>,
    eof: bool,
    failed: bool,
    pumping: bool,
    caller: Caller,
    endsRead: nat,
    returned: seq<string>,
    leftover: string)

  /** The child starts with the response to no request, which the caller waits for. */
  ghost predicate Init(s: State) {
    s == State(Answering, [""], 0, 1, "", [], false, false, true, Reading, 0, [], "")
  }

  // The child writes diagnostics only while it answers, and before it ends the response.

  ghost predicate ChildWrites(s: State, data: string, t: State) {
    && s.child.Answering? && s.written != [] && data != ""
    && var last := |s.written| - 1;
       t == s.(written := s.written[last := s.written[last] + data], pipe := s.pipe + data)
  }

  ghost predicate ChildEnds(s: State, t: State) {
    s.child.Answering? && t == s.(child := Waiting, ended := s.ended + 1)
  }

  ghost predicate ChildStarts(s: State, t: State) {
    s.child.Waiting? && s.requests > s.ended && t == s.(child := Answering, written := s.written + [""])
  }

  ghost predicate ChildExits(s: State, t: State) {
    !s.child.Exited? && t == s.(child := Exited)
  }

  // The pump reads and appends under the lock; it sees the end of the stream once the child is gone.

  ghost predicate PumpReads(s: State, n: nat, t: State) {
    s.pumping && 0 < n <= |s.pipe| && t == s.(pipe := s.pipe[n..], chunks := s.chunks + [s.pipe[..n]])
  }

  ghost predicate PumpEnds(s: State, t: State) {
    s.pumping && s.pipe == "" && s.child.Exited? && t == s.(eof := true, pumping := false)
  }

  ghost predicate PumpFails(s: State, t: State) {
    s.pumping && t == s.(failed := true, pumping := false)
  }

  /** How many lines the child reads for a request text, which is sent with a line break behind it. */
  function Lines(text: string): (n: nat)
    ensures n >= 1 && (n == 1 <==> '\n' !in text)
  {
    if text == "" then 1
    else
      assert text == text[..|text| - 1] + [text[|text| - 1]];
      Lines(text[..|text| - 1]) + if text[|text| - 1] == '\n' then 1 else 0
  }

  // The caller sends one request at a time; the child answers and ends every line of it.

  ghost predicate CallerSends(s: State, text: string, t: State) {
    s.caller.Ready? && t == s.(caller := Reading, requests := s.requests + Lines(text))
  }

  ghost predicate CallerReadsEnd(s: State, t: State) {
    s.caller.Reading? && s.endsRead < s.ended && t == s.(caller := Settling, endsRead := s.endsRead + 1)
  }

  function Taken(s: State): State {
    s.(caller := Ready, returned := s.returned + [Concat(s.chunks)], chunks := [])
  }

  ghost predicate CallerSettles(s: State, t: State) {
    s.caller.Settling? && (s.eof || !s.pumping || s.pipe == "") && t == Taken(s)
  }

  ghost predicate CallerIsLate(s: State, t: State) {
    s.caller.Settling? && t == Taken(s)
  }

  ghost predicate CallerPollFails(s: State, t: State) {
    s.caller.Settling? && t == Taken(s).(failed := true)
  }

  /** After the child is gone, whatever is buffered is taken. */
  ghost predicate CallerGivesUp(s: State, t: State) {
    && s.child.Exited? && !s.caller.Settling?
    && t == s.(caller := Closed, leftover := s.leftover + Concat(s.chunks), chunks := [])
  }

  ghost predicate CallerStops(s: State, t: State) {
    t == s.(caller := Closed, pumping := false)
  }

  /** Steps of child and pump without a read error. */
  ghost predicate CleanServerStep(s: State, t: State) {
    || (exists data :: ChildWrites(s, data, t))
    || ChildEnds(s, t) || ChildStarts(s, t) || ChildExits(s, t)
    || (exists n: nat :: PumpReads(s, n, t)) || PumpEnds(s, t)
  }

  /** Steps of a caller that sends only texts from `texts`, with no deadline and no forced stop. */
  ghost predicate CleanCallerStep(texts: iset<string>, s: State, t: State) {
    || (exists text :: text in texts && CallerSends(s, text, t))
    || CallerReadsEnd(s, t) || CallerSettles(s, t) || CallerGivesUp(s, t)
  }

  ghost predicate CleanStep(texts: iset<string>, s: State, t: State) {
    CleanServerStep(s, t) || CleanCallerStep(texts, s, t)
  }

  ghost const AnyText: iset<string> := iset text: string | true

  ghost predicate Step(s: State, t: State) {
    CleanStep(AnyText, s, t) || PumpFails(s, t) || CallerIsLate(s, t) || CallerPollFails(s, t) || CallerStops(s, t)
  }

  ghost predicate Run(run: seq<State>) {
    run != [] && Init(run[0]) && forall i, j :: 0 <= i && j == i + 1 && j < |run| ==> Step(run[i], run[j])
  }

  ghost predicate CleanRun(texts: iset<string>, run: seq<State>) {
    && run != [] && Init(run[0])
    && forall i, j :: 0 <= i && j == i + 1 && j < |run| ==> CleanStep(texts, run[i], run[j])
  }

  // ---------------------------------------------------------------------------
  // Nothing is lost or reordered
  // ---------------------------------------------------------------------------

  /** Written is returned, then buffered, then in the pipe. */
  ghost predicate Conserved(s: State) {
    && (s.leftover != "" ==> s.caller.Closed?)
    && Concat(s.written) == Concat(s.returned) + s.leftover + Concat(s.chunks) + s.pipe
  }

  lemma {:induction false} ConcatUpdate(parts: seq<string>, data: string)
    requires parts != []
    ensures var last := |parts| - 1; Concat(parts[last := parts[last] + data]) == Concat(parts) + data
  {
    var last := |parts| - 1;
    assert parts[last := parts[last] + data][..last] == parts[..last];
  }

  lemma {:induction false} ConcatAppend(parts: seq<string>, part: string)
    ensures Concat(parts + [part]) == Concat(parts) + part
  {
    assert (parts + [part])[..|parts|] == parts;
  }

  lemma {:induction false} WriteConserves(s: State, data: string, t: State)
    requires Conserved(s) && ChildWrites(s, data, t)
    ensures Conserved(t)
  {
    ConcatUpdate(s.written, data);
    var before := Concat(s.returned) + s.leftover + Concat(s.chunks);
    assert before + (s.pipe + data) == before + s.pipe + data;
  }

  lemma {:induction false} ReadConserves(s: State, n: nat, t: State)
    requires Conserved(s) && PumpReads(s, n, t)
    ensures Conserved(t)
  {
    ConcatAppend(s.chunks, s.pipe[..n]);
    var before := Concat(s.returned) + s.leftover;
    assert s.pipe == s.pipe[..n] + s.pipe[n..];
    assert before + Concat(s.chunks) + s.pipe == before + (Concat(s.chunks) + s.pipe[..n]) + s.pipe[n..];
  }

  lemma {:induction false} TakeConserves(s: State, t: State)
    requires Conserved(s) && s.caller.Settling? && (t == Taken(s) || t == Taken(s).(failed := true))
    ensures Conserved(t)
  {
    ConcatAppend(s.returned, Concat(s.chunks));
    assert s.leftover == "";
    assert Concat(s.returned) + "" + Concat(s.chunks) + s.pipe ==
           Concat(s.returned) + Concat(s.chunks) + "" + "" + s.pipe;
  }

  lemma {:induction false} GiveUpConserves(s: State, t: State)
    requires Conserved(s) && CallerGivesUp(s, t)
    ensures Conserved(t)
  {
    var before := Concat(s.returned);
    assert before + s.leftover + Concat(s.chunks) + s.pipe == before + (s.leftover + Concat(s.chunks)) + "" + s.pipe;
  }

  lemma {:induction false} StartConserves(s: State, t: State)
    requires Conserved(s) && ChildStarts(s, t)
    ensures Conserved(t)
  {
    ConcatAppend(s.written, "");
  }

  /** Steps that move no byte. */
  ghost predicate Quiet(s: State, t: State) {
    || ChildEnds(s, t) || ChildExits(s, t) || PumpEnds(s, t) || PumpFails(s, t)
    || (exists text :: CallerSends(s, text, t)) || CallerReadsEnd(s, t) || CallerStops(s, t)
  }

  lemma {:induction false} QuietConserves(s: State, t: State)
    requires Conserved(s) && Quiet(s, t)
    ensures Conserved(t)
  {
    assert t.written == s.written && t.returned == s.returned && t.leftover == s.leftover;
    assert t.chunks == s.chunks && t.pipe == s.pipe;
  }

  lemma {:induction false} StepConserves(s: State, t: State)
    requires Conserved(s) && Step(s, t)
    ensures Conserved(t)
  {
    if data :| ChildWrites(s, data, t) {
      WriteConserves(s, data, t);
    } else if n: nat :| PumpReads(s, n, t) {
      ReadConserves(s, n, t);
    } else if ChildStarts(s, t) {
      StartConserves(s, t);
    } else if CallerIsLate(s, t) || CallerPollFails(s, t) || CallerSettles(s, t) {
      TakeConserves(s, t);
    } else if CallerGivesUp(s, t) {
      GiveUpConserves(s, t);
    } else {
      QuietConserves(s, t);
    }
  }

  /** In every state of every run all bytes written are returned, buffered or in the pipe, in order. */
  lemma {:induction false} RunConserves(run: seq<State>, i: nat)
    requires Run(run) && i < |run|
    ensures Conserved(run[i])
  {
    if i > 0 {
      RunConserves(run, i - 1);
      StepConserves(run[i - 1], run[i]);
    } else {
      assert [""][..0] == [];
    }
  }

  // ---------------------------------------------------------------------------
  // Each response gets its own bytes
  // ---------------------------------------------------------------------------

  ghost predicate Attributed(s: State) {
    && |s.returned| <= |s.written| && |s.returned| <= s.ended
    && forall k :: 0 <= k < |s.returned| ==> s.returned[k] == s.written[k]
  }

  /** Where child and caller stand, and what is on its way between them. */
  ghost predicate InStep(s: State) {
    var n := |s.returned|;
    && s.ended <= s.requests && |s.written| <= s.requests
    && (s.child.Answering? ==> |s.written| == s.ended + 1)
    && (s.child.Waiting? ==> |s.written| == s.ended)
    && (s.child.Exited? ==> s.ended <= |s.written| <= s.ended + 1)
    && (s.eof ==> s.pipe == "" && s.child.Exited?)
    && (!s.pumping ==> s.eof)
    && (s.caller.Ready? ==> s.requests == s.endsRead == s.ended == n)
    && (s.caller.Reading? ==> s.requests == n + 1 && s.endsRead == n <= s.ended)
    && (s.caller.Settling? ==> s.requests == s.endsRead == s.ended == n + 1)
    && (!s.caller.Closed? ==> Concat(s.chunks) + s.pipe == if |s.written| > n then s.written[n] else "")
  }

  lemma {:induction false} WriteKeeps(s: State, data: string, t: State)
    requires Attributed(s) && InStep(s) && ChildWrites(s, data, t)
    ensures Attributed(t) && InStep(t)
  {}

  lemma {:induction false} ReadKeeps(s: State, n: nat, t: State)
    requires Attributed(s) && InStep(s) && PumpReads(s, n, t)
    ensures Attributed(t) && InStep(t)
  {
    ConcatAppend(s.chunks, s.pipe[..n]);
    assert s.pipe == s.pipe[..n] + s.pipe[n..];
    assert Concat(s.chunks) + s.pipe == Concat(s.chunks) + s.pipe[..n] + s.pipe[n..];
  }

  lemma {:induction false} SettleKeeps(s: State, t: State)
    requires Attributed(s) && InStep(s) && CallerSettles(s, t)
    ensures Attributed(t) && InStep(t)
  {
    assert s.pipe == "" && Concat(s.chunks) + "" == Concat(s.chunks);
  }

  ghost predicate OneLine(texts: iset<string>) {
    forall text :: text in texts ==> '\n' !in text
  }

  lemma {:induction false} ServerStepKeeps(s: State, t: State)
    requires Attributed(s) && InStep(s) && CleanServerStep(s, t)
    ensures Attributed(t) && InStep(t)
  {
    if data :| ChildWrites(s, data, t) {
      WriteKeeps(s, data, t);
    } else if n: nat :| PumpReads(s, n, t) {
      ReadKeeps(s, n, t);
    }
  }

  lemma {:induction false} CallerStepKeeps(texts: iset<string>, s: State, t: State)
    requires OneLine(texts) && Attributed(s) && InStep(s) && CleanCallerStep(texts, s, t)
    ensures Attributed(t) && InStep(t)
  {
    if CallerSettles(s, t) {
      SettleKeeps(s, t);
    }
  }

  lemma {:induction false} CleanStepKeeps(texts: iset<string>, s: State, t: State)
    requires OneLine(texts) && Attributed(s) && InStep(s) && CleanStep(texts, s, t)
    ensures Attributed(t) && InStep(t)
  {
    if CleanServerStep(s, t) {
      ServerStepKeeps(s, t);
    } else {
      CallerStepKeeps(texts, s, t);
    }
  }

  /**
   Without deadlines, read errors, forced stops or line breaks inside a request, the text returned
   with each response is exactly what the child wrote for it, in every interleaving.
   */
  lemma {:induction false} RunAttributes(texts: iset<string>, run: seq<State>, i: nat)
    requires OneLine(texts) && CleanRun(texts, run) && i < |run|
    ensures Attributed(run[i]) && InStep(run[i])
  {
    if i > 0 {
      RunAttributes(texts, run, i - 1);
      CleanStepKeeps(texts, run[i - 1], run[i]);
    }
  }

  // ---------------------------------------------------------------------------
  // Requests of several lines
  // ---------------------------------------------------------------------------

  /** After the start-up response the caller sends one text of `lines` lines. */
  ghost function AfterSend(lines: nat): State {
    State(Waiting, [""], 1, 1 + lines, "", [], false, false, true, Reading, 1, [""], "")
  }

  /** The child has answered the first two lines, and the pump has read both answers. */
  ghost function BothAnswered(lines: nat, first: string, second: string): State {
    State(Waiting, ["", first, second], 3, 1 + lines, "", [first + second], false, false, true, Reading, 1, [""], "")
  }

  /** The run up to the request. */
  ghost function Opening(lines: nat): seq<State> {
    var s := State(Answering, [""], 0, 1, "", [], false, false, true, Reading, 0, [], "");
    [s,
     s.(child := Waiting, ended := 1),
     s.(child := Waiting, ended := 1, endsRead := 1, caller := Settling),
     s.(child := Waiting, ended := 1, endsRead := 1, caller := Ready, returned := [""]),
     AfterSend(lines)]
  }

  /** The child answers two lines before the caller looks. */
  ghost function Answers(lines: nat, first: string, second: string): seq<State> {
    var s := AfterSend(lines).(child := Answering);
    var t := s.(written := ["", first, ""], pipe := first, ended := 2);
    [s.(written := ["", ""]),
     s.(written := ["", first], pipe := first),
     t.(child := Waiting, written := ["", first]),
     t,
     t.(written := ["", first, second], pipe := first + second),
     t.(written := ["", first, second], pipe := first + second, child := Waiting, ended := 3),
     BothAnswered(lines, first, second)]
  }

  /** The caller reads one end and takes both answers. */
  ghost function Mixed(lines: nat, first: string, second: string): seq<State> {
    var s := BothAnswered(lines, first, second);
    [s.(endsRead := 2, caller := Settling),
     s.(endsRead := 2, caller := Ready, returned := ["", first + second], chunks := [])]
  }

  lemma {:induction false} ConcatOne(part: string)
    ensures Concat([part]) == part
  {
    assert [part][..0] == [];
  }

  lemma {:induction false} OpeningSteps(texts: iset<string>, text: string)
    requires text in texts
    ensures CleanRun(texts, Opening(Lines(text)))
  {
    var run := Opening(Lines(text));
    assert Concat([]) == "";
    assert ChildEnds(run[0], run[1]);
    assert CallerReadsEnd(run[1], run[2]);
    assert CallerSettles(run[2], run[3]);
    assert CallerSends(run[3], text, run[4]);
  }

  lemma {:induction false} AnswersSteps(texts: iset<string>, lines: nat, first: string, second: string)
    requires lines >= 2 && first != "" && second != ""
    ensures var run := [AfterSend(lines)] + Answers(lines, first, second);
            forall i, j :: 0 <= i && j == i + 1 && j < |run| ==> CleanStep(texts, run[i], run[j])
  {
    var run := [AfterSend(lines)] + Answers(lines, first, second);
    assert ChildStarts(run[0], run[1]);
    assert "" + first == first && "" + second == second;
    assert run[1].written[1 := "" + first] == run[2].written;
    assert ChildWrites(run[1], first, run[2]);
    assert ChildEnds(run[2], run[3]);
    assert ChildStarts(run[3], run[4]);
    assert run[4].written[2 := "" + second] == run[5].written;
    assert ChildWrites(run[4], second, run[5]);
    assert ChildEnds(run[5], run[6]);
    assert (first + second)[|first + second|..] == "" && (first + second)[..|first + second|] == first + second;
    assert PumpReads(run[6], |first + second|, run[7]);
  }

  lemma {:induction false} MixedSteps(texts: iset<string>, lines: nat, first: string, second: string)
    ensures var run := [BothAnswered(lines, first, second)] + Mixed(lines, first, second);
            forall i, j :: 0 <= i && j == i + 1 && j < |run| ==> CleanStep(texts, run[i], run[j])
  {
    var run := [BothAnswered(lines, first, second)] + Mixed(lines, first, second);
    ConcatOne(first + second);
    assert CallerReadsEnd(run[0], run[1]);
    assert CallerSettles(run[1], run[2]);
  }

  lemma {:induction false} RunExtends(texts: iset<string>, run: seq<State>, more: seq<State>)
    requires CleanRun(texts, run)
    requires var next := [run[|run| - 1]] + more;
             forall i, j :: 0 <= i && j == i + 1 && j < |next| ==> CleanStep(texts, next[i], next[j])
    ensures CleanRun(texts, run + more)
  {
    var next, out := [run[|run| - 1]] + more, run + more;
    forall i, j | 0 <= i && j == i + 1 && j < |out|
      ensures CleanStep(texts, out[i], out[j])
    {
      if j >= |run| {
        var k := i - (|run| - 1);
        assert next[k] == out[i] && next[k + 1] == out[j];
      } else {
        assert out[i] == run[i] && out[j] == run[j];
      }
    }
  }

  /**
   A request with a line break: the child ends two responses, the caller reads one end and gets the
   diagnostics of both with it. No deadline, error or stop is involved.
   */
  lemma {:induction false} LineBreakMixes(texts: iset<string>, text: string, first: string, second: string)
    returns (run: seq<State>)
    requires text in texts && '\n' in text && first != "" && second != ""
    ensures CleanRun(texts, run)
    ensures var last := run[|run| - 1];
            && last.written == ["", first, second] && last.returned == ["", first + second]
            && !Attributed(last)
  {
    var lines := Lines(text);
    OpeningSteps(texts, text);
    AnswersSteps(texts, lines, first, second);
    MixedSteps(texts, lines, first, second);
    RunExtends(texts, Opening(lines), Answers(lines, first, second));
    run := Opening(lines) + Answers(lines, first, second);
    RunExtends(texts, run, Mixed(lines, first, second));
    run := run + Mixed(lines, first, second);
    var last := run[|run| - 1];
    assert last.returned[1] == first + second && last.written[1] == first && |first + second| > |first|;
  }

  /** Every clean run over these texts attributes all bytes to their responses. */
  ghost predicate AlwaysAttributed(texts: iset<string>) {
    forall run: seq<State>, i: nat :: CleanRun(texts, run) && i < |run| ==> Attributed(run[i])
  }

  /** Attribution holds in all clean runs exactly if no request text has a line break. */
  lemma {:induction false} AttributionNeedsOneLine(texts: iset<string>)
    ensures AlwaysAttributed(texts) <==> OneLine(texts)
  {
    if OneLine(texts) {
      forall run: seq<State>, i: nat | CleanRun(texts, run) && i < |run|
        ensures Attributed(run[i])
      {
        RunAttributes(texts, run, i);
      }
    } else {
      var text :| text in texts && '\n' in text;
      var run := LineBreakMixes(texts, text, "1", "2");
      assert CleanRun(texts, run) && |run| - 1 < |run| && !Attributed(run[|run| - 1]);
    }
  }
}
