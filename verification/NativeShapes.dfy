/** Which outputs of the helper complete each operation, as the shape of the whole output: accepted
    are exactly these. */
module NativeShapes {
  import opened Bytes
  import opened NativeProtocol
  import opened Options

  /** One decodable event of the expected protocol, with no field out of place. */
  predicate Proper(line: Line) {
    && line.event.Some? && line.event.value.identity
    && (line.event.value.contextSize.Some? ==> line.event.value.name == StatusEvent)
    && (line.event.value.structured.Some? ==> line.event.value.name == CompleteEvent)
  }

  function Total(lines: seq<Line>): nat {
    if lines == [] then 0 else Total(lines[..|lines| - 1]) + lines[|lines| - 1].length
  }

  /** Nothing but proper lines, within the limit of all output. */
  predicate Formed(lines: seq<Line>) {
    (forall i :: 0 <= i < |lines| ==> Proper(lines[i])) && Total(lines) <= 536870912
  }

  /** A status with no context size or a positive one. */
  predicate GoodStatus(line: Line, available: bool) {
    IsStatus(line, available) && (line.event.value.contextSize.Some? ==> line.event.value.contextSize.value > 0)
  }

  /** An available status, snapshots each extending the one before, and the last of them completed
      with neither usage nor a guided object. */
  predicate StreamShape(lines: seq<Line>, text: ByteString) {
    && |lines| >= 3 && Formed(lines)
    && GoodStatus(lines[0], true)
    && SnapshotChain(lines[1..|lines| - 1], [], text) && text != []
    && IsCompletion(lines[|lines| - 1], text)
    && lines[|lines| - 1].event.value.usage == None && lines[|lines| - 1].event.value.structured == None
  }

  /** Counts of tokens, reasoning a part of output. */
  predicate Counted(u: Option<Usage>) {
    match u
    case Some(Usage(Some(input), Some(output), Some(reasoning))) => input >= 0 && output >= reasoning >= 0
    case _ => false
  }

  /** An available status, and one completion that is not empty, with its usage. */
  predicate AnswerShape(lines: seq<Line>, text: ByteString) {
    && |lines| == 2 && Formed(lines)
    && GoodStatus(lines[0], true)
    && IsCompletion(lines[1], text) && text != [] && Counted(lines[1].event.value.usage)
  }

  // ---- what is taken is formed ----

  lemma {:induction false} TakenFormed(op: Operation, lines: seq<Line>)
    requires After(op, lines).Some?
    ensures Formed(lines) && After(op, lines).value.total == Total(lines)
    decreases |lines|
  {
    if lines != [] {
      var front := lines[..|lines| - 1];
      TakenFormed(op, front);
      AfterKeeps(op, lines);
      JudgedProper(op, After(op, front).value, lines[|lines| - 1]);
      assert forall i :: 0 <= i < |front| ==> lines[i] == front[i];
    }
  }

  lemma JudgedProper(op: Operation, s: Session, line: Line)
    requires Judge(op, s, line).Advance?
    ensures Proper(line) && !s.terminal && Judge(op, s, line).next.total == s.total + line.length <= MAX_TOTAL
  {
  }

  /** A proper line within the limit is judged by its event. */
  lemma ProperJudged(op: Operation, s: Session, line: Line)
    requires Proper(line) && !s.terminal && s.total + line.length <= MAX_TOTAL
    ensures Judge(op, s, line) == JudgeEvent(op, s.(total := s.total + line.length), line.event.value)
  {
  }

  lemma FormedFront(lines: seq<Line>)
    requires Formed(lines) && lines != []
    ensures Formed(lines[..|lines| - 1]) && Proper(lines[|lines| - 1])
    ensures Total(lines[..|lines| - 1]) + lines[|lines| - 1].length == Total(lines) <= MAX_TOTAL
  {
  }

  // ---- the first line ----

  /** Before anything else comes one status; what it does to an operation that goes on after it. */
  lemma FirstLine(op: Operation, line: Line)
    requires Formed([line]) && op != StatusOperation && GoodStatus(line, true)
    ensures var s := After(op, [line]);
            s.Some? && s.value.ready && !s.value.terminal && s.value.previous == [] && s.value.total == line.length
  {
    StartsEmpty(op, line);
    FormedFront([line]);
    ProperJudged(op, START, line);
  }

  lemma StartsEmpty(op: Operation, line: Line)
    ensures var v := Judge(op, START, line); After(op, [line]) == if v.Reject? then None else Some(v.next)
  {
    hide Judge;
    assert [line][..0] == [];
    assert After(op, []) == Some(START);
  }

  lemma ReadyFirst(op: Operation, line: Line)
    requires After(op, [line]).Some?
    ensures GoodStatus(line, if op == StatusOperation then line.event.value.available == Some(true) else true)
    ensures After(op, [line]).value.terminal == (op == StatusOperation)
    ensures After(op, [line]).value.ready && After(op, [line]).value.previous == []
    ensures var e := line.event.value;
            After(op, [line]).value.status ==
            LocalStatus(e.available.value, if e.contextSize.Some? then e.contextSize.value else 0)
  {
    StartsEmpty(op, line);
    JudgedProper(op, START, line);
    ProperJudged(op, START, line);
  }

  /** A run goes on only from lines that are not the last of their operation. */
  lemma OneMore(op: Operation, lines: seq<Line>)
    requires lines != [] && After(op, lines[..|lines| - 1]).Some?
    ensures var v := Judge(op, After(op, lines[..|lines| - 1]).value, lines[|lines| - 1]);
            After(op, lines) == if v.Reject? then None else Some(v.next)
  {
  }

  // ---- streams ----

  lemma {:induction false} ChainTaken(lines: seq<Line>, text: ByteString)
    requires lines != [] && Formed(lines) && GoodStatus(lines[0], true) && SnapshotChain(lines[1..], [], text)
    ensures var s := After(StreamOperation, lines);
            s.Some? && s.value.ready && !s.value.terminal && s.value.previous == text && s.value.total == Total(lines)
    decreases |lines|
  {
    hide Judge, Proper, GoodStatus;
    if |lines| == 1 {
      assert lines == [lines[0]];
      FirstLine(StreamOperation, lines[0]);
      OneTotal(lines[0]);
    } else {
      var front, last := lines[..|lines| - 1], lines[|lines| - 1];
      var k: nat := ChainStep(lines, text);
      FormedFront(lines);
      ChainTaken(front, text[..k]);
      OneMore(StreamOperation, lines);
      SnapshotTaken(After(StreamOperation, front).value, last, text, k);
    }
  }

  lemma OneTotal(line: Line)
    ensures Total([line]) == line.length
  {
    assert [line][..0] == [];
  }

  lemma ChainStep(lines: seq<Line>, text: ByteString) returns (k: nat)
    requires |lines| >= 2 && SnapshotChain(lines[1..], [], text)
    ensures k <= |text| && IsSnapshot(lines[|lines| - 1], text)
    ensures lines[..|lines| - 1][0] == lines[0] && SnapshotChain(lines[..|lines| - 1][1..], [], text[..k])
  {
    var rest := lines[1..];
    assert rest[|rest| - 1] == lines[|lines| - 1];
    assert rest[..|rest| - 1] == lines[..|lines| - 1][1..];
    k :| k <= |text| && SnapshotChain(rest[..|rest| - 1], [], text[..k]);
  }

  lemma SnapshotTaken(s: Session, line: Line, text: ByteString, k: nat)
    requires s.ready && !s.terminal && k <= |text| && s.previous == text[..k]
    requires Proper(line) && IsSnapshot(line, text) && s.total + line.length <= MAX_TOTAL
    ensures var v := Judge(StreamOperation, s, line);
            && v.Advance? && v.next.ready && !v.next.terminal && v.next.previous == text
            && v.next.total == s.total + line.length
  {
    ProperJudged(StreamOperation, s, line);
  }

  lemma StreamEnds(s: Session, line: Line, text: ByteString)
    requires s.ready && !s.terminal && s.previous == text != []
    requires Proper(line) && IsCompletion(line, text) && s.total + line.length <= MAX_TOTAL
    requires line.event.value.usage == None && line.event.value.structured == None
    ensures var v := Judge(StreamOperation, s, line);
            v.Advance? && v.next.terminal && v.next.result == Completion(text, None, None)
  {
    ProperJudged(StreamOperation, s, line);
  }

  lemma ShapeTaken(lines: seq<Line>, text: ByteString)
    requires StreamShape(lines, text)
    ensures var s := After(StreamOperation, lines);
            s.Some? && s.value.terminal && s.value.result == Completion(text, None, None)
  {
    hide Judge, After, SnapshotChain, Proper, Total, GoodStatus;
    var front := lines[..|lines| - 1];
    FormedFront(lines);
    assert front[1..] == lines[1..|lines| - 1];
    ChainTaken(front, text);
    OneMore(StreamOperation, lines);
    StreamEnds(After(StreamOperation, front).value, lines[|lines| - 1], text);
  }

  lemma CompletionPlain(s: Session, line: Line)
    requires Judge(StreamOperation, s, line).Advance? && Judge(StreamOperation, s, line).next.terminal
    ensures line.event.value.usage == None && line.event.value.structured == None
  {
    JudgedProper(StreamOperation, s, line);
    ProperJudged(StreamOperation, s, line);
  }

  lemma {:induction false} FirstTaken(op: Operation, lines: seq<Line>)
    requires lines != [] && After(op, lines).Some?
    ensures After(op, [lines[0]]).Some?
    decreases |lines|
  {
    if |lines| == 1 {
      assert lines == [lines[0]];
    } else {
      FirstTaken(op, lines[..|lines| - 1]);
    }
  }

  /** A stream is completed with a text exactly by an output of this shape. */
  lemma StreamExactly(lines: seq<Line>, text: ByteString)
    ensures var s := After(StreamOperation, lines);
            (s.Some? && s.value.terminal && s.value.result.text == text) <==> StreamShape(lines, text)
  {
    hide Judge, SnapshotChain, Formed, GoodStatus, After;
    var s := After(StreamOperation, lines);
    if StreamShape(lines, text) {
      ShapeTaken(lines, text);
    } else if s.Some? && s.value.terminal {
      StreamTheorem(lines);
      TakenFormed(StreamOperation, lines);
      FirstTaken(StreamOperation, lines);
      ReadyFirst(StreamOperation, lines[0]);
      LastPlain(lines);
    }
  }

  lemma LastPlain(lines: seq<Line>)
    requires After(StreamOperation, lines).Some? && After(StreamOperation, lines).value.terminal && lines != []
    ensures lines[|lines| - 1].event.value.usage == None && lines[|lines| - 1].event.value.structured == None
    ensures lines[|lines| - 1].event.Some?
  {
    hide Judge;
    var front := After(StreamOperation, lines[..|lines| - 1]).value;
    CompletionPlain(front, lines[|lines| - 1]);
    JudgedProper(StreamOperation, front, lines[|lines| - 1]);
  }

  // ---- the other operations ----

  /** Only the last line of what is taken ends it. */
  lemma {:induction false} OpenBefore(op: Operation, lines: seq<Line>, k: nat)
    requires k < |lines| && After(op, lines).Some?
    ensures After(op, lines[..k]).Some? && !After(op, lines[..k]).value.terminal
    decreases |lines|
  {
    hide Judge;
    var front := lines[..|lines| - 1];
    JudgedProper(op, After(op, front).value, lines[|lines| - 1]);
    if k < |front| {
      OpenBefore(op, front, k);
      assert front[..k] == lines[..k];
    } else {
      assert front == lines[..k];
    }
  }

  /** A status request is completed exactly by one status, which is what it returns. */
  lemma StatusExactly(lines: seq<Line>)
    ensures var s := After(StatusOperation, lines);
            && (s.Some? && s.value.terminal <==>
                |lines| == 1 && Formed(lines) && (GoodStatus(lines[0], true) || GoodStatus(lines[0], false)))
            && (s.Some? && s.value.terminal ==>
                  var e := lines[0].event.value;
                  s.value.status
                  == LocalStatus(e.available.value, if e.contextSize.Some? then e.contextSize.value else 0))
  {
    hide Judge, Formed, GoodStatus, After;
    var s := After(StatusOperation, lines);
    if s.Some? && s.value.terminal {
      NotEmpty(StatusOperation, lines);
      TakenFormed(StatusOperation, lines);
      FirstTaken(StatusOperation, lines);
      assert lines[..1] == [lines[0]];
      ReadyFirst(StatusOperation, lines[0]);
      if |lines| > 1 {
        OpenBefore(StatusOperation, lines, 1);
      }
      assert lines[..1] == lines;
    } else if |lines| == 1 && Formed(lines) && (GoodStatus(lines[0], true) || GoodStatus(lines[0], false)) {
      assert lines == [lines[0]];
      StatusTaken(lines[0]);
    }
  }

  lemma NotEmpty(op: Operation, lines: seq<Line>)
    requires After(op, lines).Some? && After(op, lines).value.terminal
    ensures lines != []
  {
  }

  lemma StatusTaken(line: Line)
    requires Formed([line]) && (GoodStatus(line, true) || GoodStatus(line, false))
    ensures After(StatusOperation, [line]).Some? && After(StatusOperation, [line]).value.terminal
  {
    StartsEmpty(StatusOperation, line);
    FormedFront([line]);
    ProperJudged(StatusOperation, START, line);
  }

  /** What completes an operation that is neither a status nor a stream, after its status. */
  predicate Completes(op: Operation, line: Line, text: ByteString) {
    && IsCompletion(line, text) && text != [] && Counted(line.event.value.usage)
    && if op == SchemaOperation then line.event.value.structured.Some? && line.event.value.structured.value.conforms
       else line.event.value.structured == None
  }

  lemma SecondLine(op: Operation, s: Session, line: Line)
    requires op == CompleteOperation || op == SchemaOperation
    requires s.ready && !s.terminal && Proper(line) && s.total + line.length <= MAX_TOTAL
    ensures var v := Judge(op, s, line);
            v.Advance? <==> line.event.value.text.Some? && Completes(op, line, line.event.value.text.value)
    ensures var v := Judge(op, s, line);
            v.Advance? ==>
              && v.next.terminal
              && v.next.result == Completion(
                   line.event.value.text.value,
                   if op == SchemaOperation then Some(line.event.value.structured.value.payload) else None,
                   line.event.value.usage)
  {
    ProperJudged(op, s, line);
  }

  /** A plain completion and a guided one are completed exactly by an available status and one
      completion with its usage, the guided one with an object that conforms. */
  lemma AnswerExactly(op: Operation, lines: seq<Line>, text: ByteString)
    requires op == CompleteOperation || op == SchemaOperation
    ensures var s := After(op, lines);
            (s.Some? && s.value.terminal && s.value.result.text == text) <==>
            AnswerShape(lines, text) && Completes(op, lines[1], text)
    ensures var s := After(op, lines);
            s.Some? && s.value.terminal && op == SchemaOperation ==>
              |lines| == 2 && lines[1].event.Some? && lines[1].event.value.structured.Some?
              && s.value.result.structured == Some(lines[1].event.value.structured.value.payload)
  {
    hide Judge, GoodStatus, After, Total, Counted;
    var s := After(op, lines);
    if s.Some? && s.value.terminal {
      AnswerTaken(op, lines);
    } else if AnswerShape(lines, text) && Completes(op, lines[1], text) {
      AnswerGiven(op, lines, text);
    }
  }

  lemma AnswerTaken(op: Operation, lines: seq<Line>)
    requires op == CompleteOperation || op == SchemaOperation
    requires After(op, lines).Some? && After(op, lines).value.terminal
    ensures var s := After(op, lines).value;
            && AnswerShape(lines, s.result.text) && Completes(op, lines[1], s.result.text)
            && (op == SchemaOperation ==> s.result.structured == Some(lines[1].event.value.structured.value.payload))
  {
    hide Judge, GoodStatus, After, Total, Counted, Formed;
    NotEmpty(op, lines);
    TakenFormed(op, lines);
    FirstTaken(op, lines);
    assert lines[..1] == [lines[0]];
    assert |lines| == 1 ==> lines[..1] == lines;
    ReadyFirst(op, lines[0]);
    if |lines| > 1 {
      OpenBefore(op, lines, 1);
      SecondTaken(op, lines);
    }
  }

  lemma SecondTaken(op: Operation, lines: seq<Line>)
    requires op == CompleteOperation || op == SchemaOperation
    requires |lines| >= 2 && After(op, lines).Some? && After(op, lines[..1]).Some? && After(op, lines[..1]).value.ready
    requires !After(op, lines[..1]).value.terminal
    ensures var s := After(op, lines).value;
            && |lines| == 2 && Proper(lines[1]) && Completes(op, lines[1], s.result.text)
            && (op == SchemaOperation ==> s.result.structured == Some(lines[1].event.value.structured.value.payload))
  {
    hide Judge, After, Counted;
    var first := After(op, lines[..1]).value;
    AfterOneMore(op, lines, 1);
    assert After(op, lines[..2]).Some? by {
      if |lines| == 2 {
        assert lines[..2] == lines;
      } else {
        OpenBefore(op, lines, 2);
      }
    }
    JudgedProper(op, first, lines[1]);
    SecondLine(op, first, lines[1]);
    if |lines| > 2 {
      OpenBefore(op, lines, 2);
    }
    assert lines[..2] == lines;
  }

  lemma AnswerGiven(op: Operation, lines: seq<Line>, text: ByteString)
    requires op == CompleteOperation || op == SchemaOperation
    requires AnswerShape(lines, text) && Completes(op, lines[1], text)
    ensures var s := After(op, lines);
            && s.Some? && s.value.terminal && s.value.result.text == text
            && (op == SchemaOperation ==>
                  s.value.result.structured == Some(lines[1].event.value.structured.value.payload))
  {
    hide Judge, GoodStatus, After, Counted;
    assert lines[..|lines| - 1] == [lines[0]];
    FormedFront(lines);
    OneTotal(lines[0]);
    FirstLine(op, lines[0]);
    SecondLine(op, After(op, [lines[0]]).value, lines[1]);
    OneMore(op, lines);
  }

  // ---- what is reported otherwise ----

  /** An error event ends any operation with its own kind when that is one of the five a helper may
      report, and as a broken protocol else. */
  lemma ErrorReported(op: Operation, s: Session, line: Line)
    requires Proper(line) && !s.terminal && s.total + line.length <= MAX_TOTAL
    requires line.event.value.name == ErrorEvent
    ensures var kind := line.event.value.kind;
            Judge(op, s, line) ==
            if kind == ContextCapacity || kind == RequestDeclined || kind == RateLimited || kind == LocalUnavailable
               || kind == NativeFailed
            then Reject(kind, s.status) else Reject(NativeProtocolKind, s.status)
  {
    ProperJudged(op, s, line);
  }

  /** A helper that says the model is unavailable ends every operation but the status request. */
  lemma UnavailableReported(op: Operation, line: Line)
    requires Formed([line]) && GoodStatus(line, false) && op != StatusOperation
    ensures var v := Judge(op, START, line); v.Reject? && v.kind == LocalUnavailable && !v.status.available
  {
    FormedFront([line]);
    ProperJudged(op, START, line);
  }
}
