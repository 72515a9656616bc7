/** The helper's event protocol: what each output line does to one invocation, as a function, and
    what every run of it keeps. */
module NativeProtocol {
  import opened Bytes
  import opened Options

  const MAX_LINE := 8388608
  const MAX_TOTAL := 64 * MAX_LINE

  datatype Operation = StatusOperation | CompleteOperation | SchemaOperation | StreamOperation

  datatype EventName = StatusEvent | SnapshotEvent | CompleteEvent | ErrorEvent | UnknownEvent

  datatype Kind =
    | NativeProtocolKind | LocalUnavailable | ContextCapacity | RequestDeclined | RateLimited | NativeFailed
    | Transport | Timeout | ContextCanceled | OtherKind

  datatype Usage = Usage(input: Option<int>, output: Option<int>, reasoning: Option<int>)

  /** A guided object and whether it meets the requested schema. */
  datatype Structured = Structured(payload: ByteString, conforms: bool)

  /** A decoded event; `identity` says that protocol, version and model are the expected ones. */
  datatype Event = Event(
    identity: bool,
    name: EventName,
    available: Option<bool>,
    contextSize: Option<int>,
    text: Option<ByteString>,
    usage: Option<Usage>,
    structured: Option<Structured>,
    kind: Kind)

  /** One line of output; one that is not a single decodable event has none. */
  datatype Line = Line(length: nat, event: Option<Event>)

  datatype LocalStatus = LocalStatus(available: bool, contextSize: int)

  datatype Completion = Completion(text: ByteString, structured: Option<ByteString>, usage: Option<Usage>)

  const NO_COMPLETION := Completion([], None, None)

  /** What an invocation carries from line to line; `emitted` are the deltas handed over. */
  datatype Session = Session(
    ready: bool,
    terminal: bool,
    previous: ByteString,
    total: nat,
    status: LocalStatus,
    result: Completion,
    emitted: seq<ByteString>)

  const START := Session(false, false, [], 0, LocalStatus(false, 0), NO_COMPLETION, [])

  predicate UsageValid(u: Option<Usage>) {
    && u.Some? && u.value.input.Some? && u.value.output.Some? && u.value.reasoning.Some?
    && 0 <= u.value.input.value && 0 <= u.value.output.value && 0 <= u.value.reasoning.value <= u.value.output.value
  }

  /** A line is rejected, or leads on, the delta to hand over first. */
  datatype Verdict = Reject(kind: Kind, status: LocalStatus) | Advance(next: Session, delta: ByteString)

  /** What one line does: the checks of length, place and form, then the event's own. */
  function Judge(op: Operation, s: Session, line: Line): Verdict {
    var counted := s.(total := s.total + line.length);
    if counted.total > MAX_TOTAL || s.terminal || line.event.None? then Reject(NativeProtocolKind, s.status)
    else
      var e := line.event.value;
      if !e.identity || (e.contextSize.Some? && !e.name.StatusEvent?)
         || (e.structured.Some? && !e.name.CompleteEvent?)
      then
        Reject(NativeProtocolKind, s.status)
      else JudgeEvent(op, counted, e)
  }

  function JudgeEvent(op: Operation, s: Session, e: Event): Verdict {
    match e.name
    case StatusEvent => JudgeStatus(op, s, e)
    case SnapshotEvent => JudgeSnapshot(op, s, e)
    case CompleteEvent => JudgeComplete(op, s, e)
    case ErrorEvent => Reject(ReportedKind(e.kind), s.status)
    case UnknownEvent => Reject(NativeProtocolKind, s.status)
  }

  function ReportedKind(kind: Kind): Kind {
    if kind in {ContextCapacity, RequestDeclined, RateLimited, LocalUnavailable, NativeFailed} then kind
    else NativeProtocolKind
  }

  function JudgeStatus(op: Operation, s: Session, e: Event): Verdict {
    if s.ready || e.available.None? || (e.contextSize.Some? && e.contextSize.value <= 0) then
      Reject(NativeProtocolKind, s.status)
    else
      var status := LocalStatus(e.available.value, if e.contextSize.Some? then e.contextSize.value else 0);
      if op == StatusOperation then Advance(s.(ready := true, status := status, terminal := true), [])
      else if !status.available then Reject(LocalUnavailable, status)
      else Advance(s.(ready := true, status := status), [])
  }

  function JudgeSnapshot(op: Operation, s: Session, e: Event): Verdict {
    if !s.ready || op != StreamOperation || e.text.None? || !(s.previous <= e.text.value) then
      Reject(NativeProtocolKind, s.status)
    else
      var delta := e.text.value[|s.previous|..];
      Advance(s.(previous := e.text.value, emitted := if delta == [] then s.emitted else s.emitted + [delta]), delta)
  }

  function JudgeComplete(op: Operation, s: Session, e: Event): Verdict {
    if !s.ready || op == StatusOperation || e.text.None? || e.text.value == [] then Reject(NativeProtocolKind, s.status)
    else if op == StreamOperation && (e.text.value != s.previous || e.usage.Some?) then
      Reject(NativeProtocolKind, s.status)
    else if op != StreamOperation && !UsageValid(e.usage) then Reject(NativeProtocolKind, s.status)
    else if op == SchemaOperation && (e.structured.None? || !e.structured.value.conforms) then
      Reject(NativeProtocolKind, s.status)
    else if op != SchemaOperation && e.structured.Some? then Reject(NativeProtocolKind, s.status)
    else
      var structured := if op == SchemaOperation then Some(e.structured.value.payload) else None;
      Advance(s.(result := Completion(e.text.value, structured, e.usage), terminal := true), [])
  }

  // ---- runs ----

  /** The state after lines that were all taken, every delta handed over. */
  function After(op: Operation, lines: seq<Line>): Option<Session> {
    if lines == [] then Some(START)
    else
      var before := After(op, lines[..|lines| - 1]);
      if before.None? then None
      else
        var v := Judge(op, before.value, lines[|lines| - 1]);
        if v.Reject? then None else Some(v.next)
  }

  /** What every session reached keeps: deltas only append, and make up the last snapshot. */
  predicate SessionOk(op: Operation, s: Session) {
    && Concat(s.emitted) == s.previous
    && (forall i :: 0 <= i < |s.emitted| ==> s.emitted[i] != [])
    && (op != StreamOperation ==> s.emitted == [])
    && (s.terminal ==> s.ready)
    && (s.ready && op != StatusOperation ==> s.status.available)
    && (!s.terminal ==> s.result == NO_COMPLETION)
    && (s.terminal && op == StreamOperation ==> s.result == Completion(s.previous, None, None) && s.previous != [])
    && (s.terminal && op == SchemaOperation ==> s.result.structured.Some?)
    && s.total <= MAX_TOTAL
  }

  /** An advance that keeps the session and appends its delta. */
  predicate Keeps(op: Operation, s: Session, v: Verdict)
    requires v.Advance?
  {
    && SessionOk(op, v.next)
    && v.next.emitted == (if v.delta == [] then s.emitted else s.emitted + [v.delta])
    && v.next.previous == s.previous + v.delta
  }

  lemma StatusKeeps(op: Operation, s: Session, e: Event)
    requires SessionOk(op, s) && !s.terminal && JudgeStatus(op, s, e).Advance?
    ensures Keeps(op, s, JudgeStatus(op, s, e))
  {
  }

  lemma SnapshotKeeps(op: Operation, s: Session, e: Event)
    requires SessionOk(op, s) && !s.terminal && JudgeSnapshot(op, s, e).Advance?
    ensures Keeps(op, s, JudgeSnapshot(op, s, e))
  {
    var v := JudgeSnapshot(op, s, e);
    if v.delta != [] {
      ConcatSnoc(s.emitted, v.delta);
    }
  }

  lemma CompleteKeeps(op: Operation, s: Session, e: Event)
    requires SessionOk(op, s) && !s.terminal && JudgeComplete(op, s, e).Advance?
    ensures Keeps(op, s, JudgeComplete(op, s, e))
  {
  }

  lemma CountedOk(op: Operation, s: Session, length: nat)
    requires SessionOk(op, s) && s.total + length <= MAX_TOTAL
    ensures SessionOk(op, s.(total := s.total + length))
  {
  }

  lemma EventKeeps(op: Operation, s: Session, e: Event)
    requires SessionOk(op, s) && !s.terminal && JudgeEvent(op, s, e).Advance?
    ensures Keeps(op, s, JudgeEvent(op, s, e))
  {
    match e.name
    case StatusEvent => StatusKeeps(op, s, e);
    case SnapshotEvent => SnapshotKeeps(op, s, e);
    case CompleteEvent => CompleteKeeps(op, s, e);
  }

  lemma KeepsUncounted(op: Operation, s: Session, length: nat, v: Verdict)
    requires v.Advance? && Keeps(op, s.(total := s.total + length), v)
    ensures Keeps(op, s, v)
  {
  }

  lemma JudgedEvent(op: Operation, s: Session, line: Line)
    requires Judge(op, s, line).Advance?
    ensures line.event.Some? && !s.terminal && s.total + line.length <= MAX_TOTAL
    ensures Judge(op, s, line) == JudgeEvent(op, s.(total := s.total + line.length), line.event.value)
  {
  }

  /** Every line taken keeps the session, and adds its delta to the end of what was emitted. */
  lemma JudgeKeeps(op: Operation, s: Session, line: Line)
    requires SessionOk(op, s) && Judge(op, s, line).Advance?
    ensures Keeps(op, s, Judge(op, s, line))
  {
    JudgedEvent(op, s, line);
    CountedOk(op, s, line.length);
    EventKeeps(op, s.(total := s.total + line.length), line.event.value);
    KeepsUncounted(op, s, line.length, Judge(op, s, line));
  }

  lemma {:induction false} AfterKeeps(op: Operation, lines: seq<Line>)
    requires After(op, lines).Some?
    ensures SessionOk(op, After(op, lines).value)
    decreases |lines|
  {
    if lines != [] {
      AfterKeeps(op, lines[..|lines| - 1]);
      JudgeKeeps(op, After(op, lines[..|lines| - 1]).value, lines[|lines| - 1]);
    }
  }

  /** Deltas are never taken back: later sessions extend earlier ones. */
  lemma {:induction false} DeltasOnlyAppend(op: Operation, lines: seq<Line>, i: nat)
    requires i <= |lines| && After(op, lines).Some?
    ensures After(op, lines[..i]).Some?
    ensures After(op, lines[..i]).value.emitted <= After(op, lines).value.emitted
    ensures After(op, lines[..i]).value.previous <= After(op, lines).value.previous
    decreases |lines|
  {
    if i == |lines| {
      assert lines[..i] == lines;
    } else {
      var front := lines[..|lines| - 1];
      AfterKeeps(op, front);
      JudgeKeeps(op, After(op, front).value, lines[|lines| - 1]);
      DeltasOnlyAppend(op, front, i);
      assert front[..i] == lines[..i];
    }
  }

  /** One line more is taken, or none is from there on. */
  lemma AfterOneMore(op: Operation, lines: seq<Line>, i: nat)
    requires i < |lines| && After(op, lines[..i]).Some?
    ensures var s, v := After(op, lines[..i]).value, Judge(op, After(op, lines[..i]).value, lines[i]);
            After(op, lines[..i + 1]) == (if v.Reject? then None else Some(v.next))
            && (v.Advance? ==> v.next.emitted == if v.delta == [] then s.emitted else s.emitted + [v.delta])
  {
    hide Judge;
    var v := Judge(op, After(op, lines[..i]).value, lines[i]);
    assert lines[..i + 1][..i] == lines[..i];
    AfterKeeps(op, lines[..i]);
    if v.Advance? {
      JudgeKeeps(op, After(op, lines[..i]).value, lines[i]);
    }
  }

  /** The session after the lines taken before the first that is rejected. */
  function Furthest(op: Operation, lines: seq<Line>): Session
    decreases |lines|
  {
    if After(op, lines).Some? then After(op, lines).value else Furthest(op, lines[..|lines| - 1])
  }

  /** The verdict on the first line rejected. */
  function Rejection(op: Operation, lines: seq<Line>): (v: Verdict)
    requires After(op, lines).None?
    ensures v.Reject?
    decreases |lines|
  {
    var front := lines[..|lines| - 1];
    if After(op, front).None? then Rejection(op, front) else Judge(op, After(op, front).value, lines[|lines| - 1])
  }

  /** A line rejected after others were taken is the first, and no later line counts. */
  lemma {:induction false} RejectedAt(op: Operation, lines: seq<Line>, i: nat)
    requires i < |lines| && After(op, lines[..i]).Some? && Judge(op, After(op, lines[..i]).value, lines[i]).Reject?
    ensures After(op, lines).None? && Rejection(op, lines) == Judge(op, After(op, lines[..i]).value, lines[i])
    ensures Furthest(op, lines) == After(op, lines[..i]).value
    decreases |lines|
  {
    var front := lines[..|lines| - 1];
    assert front[..i] == lines[..i];
    if i == |lines| - 1 {
      assert front == lines[..i];
    } else {
      RejectedAt(op, front, i);
    }
  }

  /** What was handed over by then has been handed over in the end. */
  lemma {:induction false} FurthestAppends(op: Operation, lines: seq<Line>, i: nat)
    requires i <= |lines| && After(op, lines[..i]).Some?
    ensures After(op, lines[..i]).value.emitted <= Furthest(op, lines).emitted
    decreases |lines|
  {
    if After(op, lines).Some? {
      DeltasOnlyAppend(op, lines, i);
    } else {
      assert lines[..|lines|] == lines;
      var front := lines[..|lines| - 1];
      assert front[..i] == lines[..i];
      FurthestAppends(op, front, i);
    }
  }

  // ---- the shape of a successful stream ----

  predicate IsStatus(line: Line, available: bool) {
    line.event.Some? && line.event.value.name == StatusEvent && line.event.value.available == Some(available)
  }

  predicate IsSnapshot(line: Line, text: ByteString) {
    line.event.Some? && line.event.value.name == SnapshotEvent && line.event.value.text == Some(text)
  }

  predicate IsCompletion(line: Line, text: ByteString) {
    line.event.Some? && line.event.value.name == CompleteEvent && line.event.value.text == Some(text)
  }

  /** Snapshots each extending the one before, from `from` to `to`. */
  predicate SnapshotChain(lines: seq<Line>, from: ByteString, to: ByteString) {
    if lines == [] then from == to
    else
      var line := lines[|lines| - 1];
      && IsSnapshot(line, to)
      && exists k: nat :: k <= |to| && SnapshotChain(lines[..|lines| - 1], from, to[..k])
  }

  /** A stream still open: one status, then a chain of snapshots. */
  lemma {:induction false} OpenStreamShape(lines: seq<Line>)
    requires After(StreamOperation, lines).Some? && !After(StreamOperation, lines).value.terminal
    ensures var s := After(StreamOperation, lines).value;
            if lines == [] then !s.ready && s.previous == []
            else s.ready && IsStatus(lines[0], true) && SnapshotChain(lines[1..], [], s.previous)
    decreases |lines|
  {
    if lines != [] {
      var front, last := lines[..|lines| - 1], lines[|lines| - 1];
      AfterKeeps(StreamOperation, front);
      var before := After(StreamOperation, front).value;
      OpenStreamShape(front);
      if front != [] {
        assert lines[1..][..|lines[1..]| - 1] == front[1..];
        assert lines[1..][|lines[1..]| - 1] == last;
        var to := After(StreamOperation, lines).value.previous;
        assert before.previous == to[..|before.previous|];
      }
    }
  }

  /** A successful stream is an available status, snapshots that only extend, and one completion
      that repeats the last of them; nothing follows it, and the text returned is the deltas. */
  lemma StreamTheorem(lines: seq<Line>)
    requires After(StreamOperation, lines).Some? && After(StreamOperation, lines).value.terminal
    ensures var s := After(StreamOperation, lines).value;
            && |lines| >= 3
            && IsStatus(lines[0], true)
            && SnapshotChain(lines[1..|lines| - 1], [], s.result.text)
            && IsCompletion(lines[|lines| - 1], s.result.text)
            && s.result.text == Concat(s.emitted) != []
            && forall more: Line :: After(StreamOperation, lines + [more]).None?
  {
    AfterKeeps(StreamOperation, lines);
    var front := lines[..|lines| - 1];
    var s := After(StreamOperation, lines).value;
    assert !After(StreamOperation, front).value.terminal;
    OpenStreamShape(front);
    assert front != [];
    assert front[1..] == lines[1..|lines| - 1];
    assert front[1..] != [];
    NothingFollows(lines);
  }

  lemma NothingFollows(lines: seq<Line>)
    requires After(StreamOperation, lines).Some? && After(StreamOperation, lines).value.terminal
    ensures forall more: Line :: After(StreamOperation, lines + [more]).None?
  {
    forall more: Line ensures After(StreamOperation, lines + [more]).None? {
      assert (lines + [more])[..|lines|] == lines;
    }
  }

  // ---- how an invocation ends ----

  /** What the child process did, once no more lines come. */
  datatype Ending = Ending(
    started: bool,
    contextError: Option<Kind>,
    emitError: Option<Kind>,
    readFailed: bool,
    waitFailed: bool)

  datatype Returned = Success(completion: Completion, status: LocalStatus) | Failure(kind: Kind, status: LocalStatus)

  function Finish(s: Session, e: Ending): Returned {
    if !e.started then
      if e.contextError.Some? then Failure(e.contextError.value, s.status) else Failure(Transport, s.status)
    else if e.contextError.Some? then Failure(e.contextError.value, s.status)
    else if e.emitError.Some? then Failure(e.emitError.value, s.status)
    else if e.readFailed then Failure(NativeProtocolKind, s.status)
    else if e.waitFailed then Failure(NativeFailed, s.status)
    else if !s.terminal then Failure(NativeProtocolKind, s.status)
    else Success(s.result, s.status)
  }

  /** How a stream ends when every delta is accepted: by its ending after all the lines, or by the
      first line rejected. */
  function Concluded(lines: seq<Line>, ending: Ending): Returned {
    if After(StreamOperation, lines).Some? then
      Finish(After(StreamOperation, lines).value, ending.(emitError := None))
    else
      var v := Rejection(StreamOperation, lines);
      Finish(START.(status := v.status), ending.(emitError := Some(v.kind)))
  }
}
