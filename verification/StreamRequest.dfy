/** One streamed request: the helper's lines judged one by one, each delta sent on as it comes,
    and the stream closed or failed at the end. */
module StreamRequest {
  import opened Bytes
  import opened NativeProtocol
  import opened NativeShapes
  import opened Options
  import opened SseStream

  /** Everything a request has tried to send after these deltas. */
  function Script(responses: bool, deltas: seq<ByteString>): seq<Part> {
    if deltas == [] then [] else Opening(responses) + DeltaParts(responses, deltas)
  }

  lemma ScriptSnoc(responses: bool, deltas: seq<ByteString>, delta: ByteString)
    ensures Script(responses, deltas + [delta]) ==
            Script(responses, deltas) + (if deltas == [] then Opening(responses) else [])
            + [DeltaPart(responses, delta)]
  {
    assert DeltaParts(responses, deltas + [delta]) == DeltaParts(responses, deltas) + [DeltaPart(responses, delta)];
  }

  /** How a request can end: refused before any frame and any failed write; closed; cut off while
      closing by a failed write; or failed after part of its script. */
  predicate Ended(responses: bool, tried: seq<Part>, landed: seq<bool>, refused: bool, intact: bool,
                  deltas: seq<ByteString>) {
    if refused then tried == [] && intact
    else
      || Closed(responses, tried, landed, deltas)
      || (!intact && CutClosing(responses, tried, landed, deltas))
      || Failed(responses, tried, landed, deltas)
      || (!intact && CutShort(responses, tried, landed, deltas))
  }

  predicate Closed(responses: bool, tried: seq<Part>, landed: seq<bool>, deltas: seq<ByteString>) {
    tried == Script(responses, deltas) + Closing(responses, Concat(deltas)) && AllLanded(landed)
  }

  /** A closing part was reported as failed, and none was tried after it. */
  predicate CutClosing(responses: bool, tried: seq<Part>, landed: seq<bool>, deltas: seq<ByteString>) {
    && LastInDoubt(landed)
    && exists k: nat :: 1 <= k <= |Closing(responses, [])| &&
         tried == Script(responses, deltas) + Closing(responses, Concat(deltas))[..k]
  }

  /** Every delta was out, and a failure frame followed. */
  predicate Failed(responses: bool, tried: seq<Part>, landed: seq<bool>, deltas: seq<ByteString>) {
    deltas != [] && tried == Script(responses, deltas) + [FailurePart(responses)] && LastInDoubt(landed)
  }

  /** A write failed before all the deltas were out, and the failure frame followed. */
  predicate CutShort(responses: bool, tried: seq<Part>, landed: seq<bool>, deltas: seq<ByteString>) {
    && |landed| == |tried| && tried != [] && LastInDoubt(landed[..|tried| - 1])
    && tried[|tried| - 1] == FailurePart(responses) && PartOf(Script(responses, deltas), tried[..|tried| - 1])
  }

  /** Some of the parts of a script have been tried. */
  predicate PartOf(script: seq<Part>, tried: seq<Part>) { exists k: nat :: 1 <= k <= |script| && tried == script[..k] }

  // ---- what the helper's lines have to do with it ----

  /** The deltas are those of the first i lines, all of them taken. */
  predicate HandedOver(lines: seq<Line>, i: nat, deltas: seq<ByteString>) {
    && i <= |lines| && After(StreamOperation, lines[..i]).Some?
    && deltas == After(StreamOperation, lines[..i]).value.emitted
  }

  /** The i-th line is one more snapshot, and this is what it adds. */
  predicate Adds(lines: seq<Line>, i: nat, delta: ByteString) {
    && i < |lines| && After(StreamOperation, lines[..i]).Some? && delta != []
    && Judge(StreamOperation, After(StreamOperation, lines[..i]).value, lines[i]).Advance?
    && Judge(StreamOperation, After(StreamOperation, lines[..i]).value, lines[i]).delta == delta
  }

  /** The helper completed its stream with these deltas and their text. */
  predicate Completed(lines: seq<Line>, deltas: seq<ByteString>) {
    && After(StreamOperation, lines).Some? && After(StreamOperation, lines).value.terminal
    && deltas == After(StreamOperation, lines).value.emitted
    && Concat(deltas) == After(StreamOperation, lines).value.result.text
  }

  /** All but the last delta are those of the first i lines, and the last is what the next adds. */
  predicate CutWithin(lines: seq<Line>, i: nat, deltas: seq<ByteString>) {
    deltas != [] && HandedOver(lines, i, deltas[..|deltas| - 1]) && Adds(lines, i, deltas[|deltas| - 1])
  }

  predicate AnyClosing(tried: seq<Part>) { exists i :: 0 <= i < |tried| && IsClosing(tried[i]) }

  /** Whatever was tried comes from the lines: the deltas of some taken lines, and when a failed
      write cut the script short at most the one that the next line adds. Closing takes a completed
      stream. */
  ghost predicate Told(responses: bool, tried: seq<Part>, landed: seq<bool>, lines: seq<Line>,
                       deltas: seq<ByteString>) {
    && (|| (exists i: nat :: HandedOver(lines, i, deltas))
        || (CutShort(responses, tried, landed, deltas) && exists i: nat :: CutWithin(lines, i, deltas)))
    && (AnyClosing(tried) ==> Completed(lines, deltas))
  }

  /** What an added delta brings: the opening with the first, and its own part. */
  function Added(responses: bool, deltas: seq<ByteString>, delta: ByteString): seq<Part> {
    (if deltas == [] then Opening(responses) else []) + [DeltaPart(responses, delta)]
  }

  lemma CutScript(responses: bool, deltas: seq<ByteString>, delta: ByteString, tried: seq<Part>)
    requires Reaches(Script(responses, deltas), Added(responses, deltas, delta), tried)
    ensures PartOf(Script(responses, deltas + [delta]), tried)
  {
    var before, more := Script(responses, deltas), Added(responses, deltas, delta);
    var whole := Script(responses, deltas + [delta]);
    ScriptSnoc(responses, deltas, delta);
    assert whole == before + more;
    var k: nat :| 1 <= k <= |more| && tried == before + more[..k];
    assert tried == whole[..|before| + k];
  }

  // ---- whether the request lasts ----

  /** The request has not ended when any of the deltas comes. */
  predicate Lets(ended: ByteString -> bool, deltas: seq<ByteString>) {
    forall k :: 0 <= k < |deltas| ==> !ended(Concat(deltas[..k]))
  }

  lemma LetsMore(ended: ByteString -> bool, deltas: seq<ByteString>, delta: ByteString)
    requires Lets(ended, deltas) && !ended(Concat(deltas))
    ensures Lets(ended, deltas + [delta])
  {
    var more := deltas + [delta];
    assert more[..|deltas|] == deltas;
    forall k | 0 <= k < |deltas| ensures !ended(Concat(more[..k])) {
      assert more[..k] == deltas[..k];
    }
  }

  lemma LetsBefore(ended: ByteString -> bool, deltas: seq<ByteString>, delta: ByteString, more: seq<ByteString>)
    requires Lets(ended, more) && deltas + [delta] <= more
    ensures !ended(Concat(deltas))
  {
    assert more[..|deltas|] == deltas;
  }

  /** The child was started, read to its end and exited well, and its context did not end first. */
  predicate EndsWell(e: Ending) { e.started && e.contextError == None && !e.readFailed && !e.waitFailed }

  /** The snapshot before the i-th line, or nothing before the first. */
  function OutBefore(lines: seq<Line>, i: nat): ByteString
    requires 1 <= i <= |lines|
  {
    if i == 1 || lines[i - 1].event.None? || lines[i - 1].event.value.text.None? then []
    else lines[i - 1].event.value.text.value
  }

  /** The request has not ended whenever one of the first n lines adds to what is out. */
  ghost predicate Lasts(lines: seq<Line>, n: nat, ended: ByteString -> bool) {
    n <= |lines| &&
    forall i :: 1 <= i < n && OutBefore(lines, i + 1) != OutBefore(lines, i) ==> !ended(OutBefore(lines, i))
  }

  /** The helper's output completes a stream with a text that is not blank, the child ends well, and
      the request has not ended by the time all of the text is out. */
  ghost predicate Closes(lines: seq<Line>, ending: Ending, ended: ByteString -> bool, blank: ByteString -> bool) {
    exists text :: StreamShape(lines, text) && EndsWell(ending) && Lasts(lines, |lines| - 1, ended) && !ended(text)
                   && !blank(text)
  }

  /** The same by the session that the lines lead to. */
  ghost predicate ClosesAfter(lines: seq<Line>, ending: Ending, ended: ByteString -> bool, blank: ByteString -> bool) {
    && After(StreamOperation, lines).Some? && Concluded(lines, ending).Success?
    && var s := After(StreamOperation, lines).value;
       Lets(ended, s.emitted) && !ended(s.result.text) && !blank(s.result.text)
  }

  lemma ConcludedWell(lines: seq<Line>, ending: Ending)
    requires After(StreamOperation, lines).Some?
    ensures Concluded(lines, ending).Success? <==> EndsWell(ending) && After(StreamOperation, lines).value.terminal
  {
    hide After;
  }

  /** While a stream is open the request lasts for its deltas exactly when it lasts for its lines. */
  lemma {:induction false} LastsForDeltas(lines: seq<Line>, n: nat, ended: ByteString -> bool)
    requires 1 <= n <= |lines| && After(StreamOperation, lines[..n]).Some?
    requires !After(StreamOperation, lines[..n]).value.terminal
    ensures After(StreamOperation, lines[..n]).value.ready
    ensures OutBefore(lines, n) == After(StreamOperation, lines[..n]).value.previous
    ensures Lasts(lines, n, ended) <==> Lets(ended, After(StreamOperation, lines[..n]).value.emitted)
    decreases n
  {
    hide Judge, After, Lasts, Lets, OutBefore, Concat;
    var front := lines[..n];
    if n == 1 {
      LastsAtFirst(lines, ended);
    } else {
      OpenBefore(StreamOperation, front, n - 1);
      assert front[..n - 1] == lines[..n - 1];
      LastsForDeltas(lines, n - 1, ended);
      AfterOneMore(StreamOperation, lines, n - 1);
      AfterKeeps(StreamOperation, lines[..n - 1]);
      OpenSnapshot(After(StreamOperation, lines[..n - 1]).value, lines[n - 1]);
      SnapshotOut(lines, n - 1);
      LastsMore(lines, n - 1, ended, After(StreamOperation, lines[..n - 1]).value,
                Judge(StreamOperation, After(StreamOperation, lines[..n - 1]).value, lines[n - 1]).delta);
    }
  }

  lemma LastsAtFirst(lines: seq<Line>, ended: ByteString -> bool)
    requires lines != [] && After(StreamOperation, lines[..1]).Some?
    requires !After(StreamOperation, lines[..1]).value.terminal
    ensures After(StreamOperation, lines[..1]).value.ready
    ensures OutBefore(lines, 1) == After(StreamOperation, lines[..1]).value.previous
    ensures Lasts(lines, 1, ended) <==> Lets(ended, After(StreamOperation, lines[..1]).value.emitted)
  {
    hide Judge, After;
    assert lines[..1] == [lines[0]];
    ReadyFirst(StreamOperation, lines[0]);
    AfterKeeps(StreamOperation, lines[..1]);
    NoDeltas(After(StreamOperation, lines[..1]).value, ended);
  }

  /** What is out after a snapshot is the snapshot. */
  lemma SnapshotOut(lines: seq<Line>, i: nat)
    requires 1 <= i < |lines| && lines[i].event.Some? && lines[i].event.value.text.Some?
    ensures OutBefore(lines, i + 1) == lines[i].event.value.text.value
  {
  }

  lemma NoDeltas(s: Session, ended: ByteString -> bool)
    requires SessionOk(StreamOperation, s) && s.previous == []
    ensures s.emitted == [] && Lets(ended, s.emitted)
  {
    if s.emitted != [] {
      LastPart(s.emitted);
    }
  }

  lemma LastPart(parts: seq<ByteString>)
    requires parts != []
    ensures |Concat(parts)| >= |parts[|parts| - 1]|
  {
  }

  /** A line that leaves a ready stream open is a snapshot that extends the last. */
  lemma OpenSnapshot(s: Session, line: Line)
    requires s.ready && Judge(StreamOperation, s, line).Advance? && !Judge(StreamOperation, s, line).next.terminal
    ensures var v := Judge(StreamOperation, s, line);
            && v.next.ready && line.event.Some? && line.event.value.text == Some(v.next.previous)
            && v.next.previous == s.previous + v.delta
  {
  }

  lemma LastsMore(lines: seq<Line>, n: nat, ended: ByteString -> bool, s: Session, delta: ByteString)
    requires 1 <= n < |lines| && OutBefore(lines, n) == s.previous == Concat(s.emitted)
    requires OutBefore(lines, n + 1) == s.previous + delta
    requires Lasts(lines, n, ended) <==> Lets(ended, s.emitted)
    ensures Lasts(lines, n + 1, ended) <==>
            Lets(ended, if delta == [] then s.emitted else s.emitted + [delta])
  {
    hide OutBefore, Concat;
    if delta != [] {
      LetsSplit(ended, s.emitted, delta);
      assert |OutBefore(lines, n + 1)| != |OutBefore(lines, n)|;
    } else {
      assert s.previous + delta == s.previous;
    }
    assert Lasts(lines, n + 1, ended) <==>
           Lasts(lines, n, ended) && (OutBefore(lines, n + 1) != OutBefore(lines, n) ==> !ended(OutBefore(lines, n)));
  }

  lemma LetsSplit(ended: ByteString -> bool, deltas: seq<ByteString>, delta: ByteString)
    ensures Lets(ended, deltas + [delta]) <==> Lets(ended, deltas) && !ended(Concat(deltas))
  {
    if Lets(ended, deltas) && !ended(Concat(deltas)) {
      LetsMore(ended, deltas, delta);
    }
    if Lets(ended, deltas + [delta]) {
      LetsBefore(ended, deltas, delta, deltas + [delta]);
      forall k | 0 <= k < |deltas| ensures !ended(Concat(deltas[..k])) {
        assert (deltas + [delta])[..k] == deltas[..k];
      }
    }
  }

  /** The last line of a completed stream adds nothing. */
  lemma LastsToTheEnd(lines: seq<Line>, ended: ByteString -> bool)
    requires After(StreamOperation, lines).Some? && After(StreamOperation, lines).value.terminal
    ensures Lasts(lines, |lines| - 1, ended) <==> Lets(ended, After(StreamOperation, lines).value.emitted)
  {
    hide Judge, After;
    StreamTheorem(lines);
    var n := |lines| - 1;
    OpenBefore(StreamOperation, lines, n);
    LastsForDeltas(lines, n, ended);
    AfterOneMore(StreamOperation, lines, n);
    assert lines[..n + 1] == lines;
    ClosingDelta(After(StreamOperation, lines[..n]).value, lines[n]);
  }

  lemma ClosingDelta(s: Session, line: Line)
    requires s.ready ==> !s.terminal
    requires Judge(StreamOperation, s, line).Advance? && Judge(StreamOperation, s, line).next.terminal
    ensures Judge(StreamOperation, s, line).delta == []
  {
  }

  lemma ClosesExactly(lines: seq<Line>, ending: Ending, ended: ByteString -> bool, blank: ByteString -> bool)
    ensures Closes(lines, ending, ended, blank) <==> ClosesAfter(lines, ending, ended, blank)
  {
    hide After, SnapshotChain, Formed, GoodStatus, IsCompletion, Lasts, Lets, Concluded, EndsWell;
    var s := After(StreamOperation, lines);
    if ClosesAfter(lines, ending, ended, blank) {
      ConcludedWell(lines, ending);
      StreamExactly(lines, s.value.result.text);
      LastsToTheEnd(lines, ended);
    }
    if text :| StreamShape(lines, text) && EndsWell(ending) && Lasts(lines, |lines| - 1, ended) && !ended(text)
               && !blank(text) {
      StreamExactly(lines, text);
      ConcludedWell(lines, ending);
      LastsToTheEnd(lines, ended);
    }
  }

  /** A delta that is not accepted is one that the request had ended before, or whose write failed. */
  lemma Refused(lines: seq<Line>, i: nat, ended: ByteString -> bool)
    requires i < |lines| && After(StreamOperation, lines[..i]).Some?
    requires var v := Judge(StreamOperation, After(StreamOperation, lines[..i]).value, lines[i]);
             v.Advance? && v.delta != []
    requires ended(Concat(After(StreamOperation, lines[..i]).value.emitted))
    ensures !Lets(ended, Furthest(StreamOperation, lines).emitted)
  {
    hide Judge, After, Furthest, Lets;
    var before := After(StreamOperation, lines[..i]).value;
    AfterOneMore(StreamOperation, lines, i);
    FurthestAppends(StreamOperation, lines, i + 1);
    if Lets(ended, Furthest(StreamOperation, lines).emitted) {
      LetsBefore(ended, before.emitted, Judge(StreamOperation, before, lines[i]).delta,
                 Furthest(StreamOperation, lines).emitted);
    }
  }

  /** A line that fails an invocation: rejected, or its delta not accepted because the request had
      ended or a write failed. Unless so hindered the stream ends as the lines say. */
  lemma Halted(lines: seq<Line>, i: nat, v: Verdict, failure: Kind, hindered: bool, ended: ByteString -> bool,
               ending: Ending, s: Session)
    requires i < |lines| && After(StreamOperation, lines[..i]).Some?
    requires v == Judge(StreamOperation, After(StreamOperation, lines[..i]).value, lines[i])
    requires v.Reject? ==> failure == v.kind && s.status == v.status
    requires v.Advance? ==>
               v.delta != [] && (hindered || ended(Concat(After(StreamOperation, lines[..i]).value.emitted)))
    ensures !hindered && Lets(ended, Furthest(StreamOperation, lines).emitted) ==>
              Finish(s, ending.(emitError := Some(failure))) == Concluded(lines, ending)
  {
    hide Judge, After, Furthest, Lets;
    if v.Reject? {
      RejectedAt(StreamOperation, lines, i);
    } else if !hindered {
      Refused(lines, i, ended);
    }
  }

  class Sink {
    const events: StreamEvents
    /** Whether the request has ended by the time this much text is out. */
    const ended: ByteString -> bool
    var accumulated: ByteString
    /** The deltas accepted in full. */
    ghost var deltas: seq<ByteString>

    constructor (events: StreamEvents, ended: ByteString -> bool)
      ensures this.events == events && this.ended == ended && accumulated == [] && deltas == []
    {
      this.events, this.ended := events, ended;
      accumulated, deltas := [], [];
    }

    /** The deltas handed over are the script tried, and what they add up to is accumulated. */
    ghost predicate Valid()
      reads this, events
    {
      && events.Valid() && !events.refused
      && events.tried == Script(events.responses, deltas)
      && accumulated == Concat(deltas)
      && AllLanded(events.landed)
    }

    /** The stream callback: a request that has ended takes nothing, an empty delta sends nothing. */
    method Emit(delta: ByteString) returns (ok: bool)
      requires Valid()
      modifies this, events
      ensures events.Valid() && !events.refused
      ensures ok ==> Valid() && deltas == (if delta == [] then old(deltas) else old(deltas) + [delta])
                     && events.intact == old(events.intact) && !ended(old(accumulated))
      ensures !ok ==> deltas == old(deltas) && (ended(old(accumulated)) || !events.intact)
      ensures !ok ==> Valid() || (delta != [] && Interrupted(delta))
    {
      hide LogOk, Concat;
      if ended(accumulated) {
        return false;
      }
      if delta == [] {
        return true;
      }
      ScriptSnoc(events.responses, deltas, delta);
      assert (events.tried == []) == (deltas == []);
      ok := events.Delta(delta);
      if !ok {
        CutScript(events.responses, deltas, delta, events.tried);
        return;
      }
      assert events.tried == Script(events.responses, deltas + [delta]);
      ConcatSnoc(deltas, delta);
      accumulated := accumulated + delta;
      deltas := deltas + [delta];
    }

    /** A failed write has cut off the script that would include this delta. */
    ghost predicate Interrupted(delta: ByteString)
      reads this, events
    {
      var script := Script(events.responses, deltas + [delta]);
      !events.intact && LastInDoubt(events.landed) && PartOf(script, events.tried)
    }

    /** As before the failure, or cut off within the frames of the delta judged. */
    ghost predicate StoppedAt(v: Verdict)
      reads this, events
    {
      Valid() || (v.Advance? && v.delta != [] && Interrupted(v.delta))
    }
  }

  lemma JudgedBy(op: Operation, s: Session, line: Line)
    ensures var e := line.event;
            Judge(op, s, line) ==
            if s.total + line.length > MAX_TOTAL || s.terminal || e.None? || !e.value.identity
               || (e.value.contextSize.Some? && e.value.name != StatusEvent)
               || (e.value.structured.Some? && e.value.name != CompleteEvent)
            then Reject(NativeProtocolKind, s.status)
            else JudgeEvent(op, s.(total := s.total + line.length), e.value)
  {
  }

  /** The state of one invocation, updated event by event. */
  class Invocation {
    const operation: Operation
    var ready: bool
    var terminal: bool
    var previous: ByteString
    var total: nat
    var status: LocalStatus
    var result: Completion
    ghost var emitted: seq<ByteString>

    constructor (operation: Operation)
      ensures this.operation == operation && View() == START
    {
      this.operation := operation;
      ready, terminal, previous, total := false, false, [], 0;
      status, result, emitted := LocalStatus(false, 0), NO_COMPLETION, [];
    }

    ghost function View(): Session
      reads this
    {
      Session(ready, terminal, previous, total, status, result, emitted)
    }

    /** What is left after a line was judged: taken with its verdict, or failed for its reason, or
        failed because its delta was not accepted. */
    ghost predicate Heeds(v: Verdict, failure: Option<Kind>, before: seq<ByteString>, sink: Sink)
      reads this, sink, sink.events
    {
      && (v.Reject? ==> failure == Some(v.kind) && status == v.status)
      && (failure.None? ==> v.Advance? && View() == v.next && (v.delta != [] ==> !sink.ended(Concat(before))))
      && (failure.Some? ==> sink.deltas == before)
      && (failure.Some? && v.Advance? ==> v.delta != [] && (!sink.events.intact || sink.ended(Concat(before))))
    }

    /** One line of output. A rejected line changes nothing but the count and a refused status. */
    method Handle(line: Line, sink: Sink) returns (failure: Option<Kind>)
      requires sink.Valid() && sink.deltas == emitted
      modifies this, sink, sink.events
      ensures sink.events.Valid() && !sink.events.refused
      ensures Heeds(Judge(operation, old(View()), line), failure, old(emitted), sink)
      ensures failure.None? ==> sink.Valid() && sink.deltas == emitted && sink.events.intact == old(sink.events.intact)
      ensures failure.Some? ==> sink.StoppedAt(Judge(operation, old(View()), line))
      ensures old(terminal) ==> failure.Some?
    {
      hide LogOk, AllLanded, Script, JudgeEvent;
      JudgedBy(operation, View(), line);
      ghost var v := Judge(operation, View(), line);
      total := total + line.length;
      if total > MAX_TOTAL || terminal || line.event.None? {
        return Some(NativeProtocolKind);
      }
      var event := line.event.value;
      if !event.identity {
        return Some(NativeProtocolKind);
      }
      if event.contextSize.Some? && event.name != StatusEvent {
        return Some(NativeProtocolKind);
      }
      if event.structured.Some? && event.name != CompleteEvent {
        return Some(NativeProtocolKind);
      }
      failure := HandleEvent(event, sink, v);
    }

    method HandleEvent(event: Event, sink: Sink, ghost v: Verdict) returns (failure: Option<Kind>)
      requires sink.Valid() && sink.deltas == emitted && v == JudgeEvent(operation, View(), event)
      modifies this, sink, sink.events
      ensures sink.events.Valid() && !sink.events.refused
      ensures Heeds(v, failure, old(emitted), sink)
      ensures failure.None? ==> sink.Valid() && sink.deltas == emitted && sink.events.intact == old(sink.events.intact)
      ensures failure.Some? ==> sink.StoppedAt(v)
    {
      hide LogOk, AllLanded, Script, JudgeSnapshot;
      match event.name
      case StatusEvent => failure := HandleStatus(event);
      case SnapshotEvent => failure := HandleSnapshot(event, sink);
      case CompleteEvent => failure := HandleComplete(event);
      case ErrorEvent => failure := Some(ReportedKind(event.kind));
      case UnknownEvent => failure := Some(NativeProtocolKind);
    }

    method HandleStatus(event: Event) returns (failure: Option<Kind>)
      modifies this`ready, this`status, this`terminal
      ensures var v := JudgeStatus(operation, old(View()), event);
              if v.Reject? then failure == Some(v.kind) && status == v.status
              else failure.None? && View() == v.next && v.delta == []
    {
      if ready || event.available.None? {
        return Some(NativeProtocolKind);
      }
      var candidate := LocalStatus(event.available.value, 0);
      if event.contextSize.Some? {
        if event.contextSize.value <= 0 {
          return Some(NativeProtocolKind);
        }
        candidate := candidate.(contextSize := event.contextSize.value);
      }
      ready := true;
      status := candidate;
      if operation == StatusOperation {
        terminal := true;
      } else if !status.available {
        return Some(LocalUnavailable);
      }
      failure := None;
    }

    method HandleSnapshot(event: Event, sink: Sink) returns (failure: Option<Kind>)
      requires sink.Valid() && sink.deltas == emitted
      modifies this, sink, sink.events
      ensures sink.events.Valid() && !sink.events.refused
      ensures Heeds(JudgeSnapshot(operation, old(View()), event), failure, old(emitted), sink)
      ensures failure.None? ==> sink.Valid() && sink.deltas == emitted && sink.events.intact == old(sink.events.intact)
      ensures failure.Some? ==> sink.StoppedAt(JudgeSnapshot(operation, old(View()), event))
    {
      hide LogOk, AllLanded, Script, Concat;
      if !ready || operation != StreamOperation || event.text.None? {
        return Some(NativeProtocolKind);
      }
      if !(previous <= event.text.value) {
        return Some(NativeProtocolKind);
      }
      var delta := event.text.value[|previous|..];
      if delta != [] {
        var taken := sink.Emit(delta);
        if !taken {
          return Some(OtherKind);
        }
        emitted := emitted + [delta];
      }
      previous := event.text.value;
      failure := None;
    }

    method HandleComplete(event: Event) returns (failure: Option<Kind>)
      modifies this`result, this`terminal
      ensures var v := JudgeComplete(operation, old(View()), event);
              if v.Reject? then failure == Some(v.kind) && View() == old(View())
              else failure.None? && View() == v.next && v.delta == []
    {
      if !ready || operation == StatusOperation || event.text.None? || event.text.value == [] {
        return Some(NativeProtocolKind);
      }
      if operation == StreamOperation {
        if event.text.value != previous || event.usage.Some? {
          return Some(NativeProtocolKind);
        }
      } else if !UsageValid(event.usage) {
        return Some(NativeProtocolKind);
      }
      var structured: Option<ByteString> := None;
      if operation == SchemaOperation {
        if event.structured.None? || !event.structured.value.conforms {
          return Some(NativeProtocolKind);
        }
        structured := Some(event.structured.value.payload);
      } else if event.structured.Some? {
        return Some(NativeProtocolKind);
      }
      result := Completion(event.text.value, structured, event.usage);
      terminal := true;
      failure := None;
    }
  }

  lemma StreamStarts(lines: seq<Line>, ended: ByteString -> bool)
    ensures After(StreamOperation, lines[..0]) == Some(START) && Lets(ended, [])
  {
  }

  lemma ConcludedTaken(lines: seq<Line>, ending: Ending, s: Session)
    requires After(StreamOperation, lines) == Some(s)
    ensures Finish(s, ending.(emitError := None)) == Concluded(lines, ending)
  {
  }

  /** Where a failed invocation stopped: after some taken lines, or within what the next one adds. */
  ghost predicate StoppedWithin(lines: seq<Line>, i: nat, sink: Sink)
    reads sink, sink.events
  {
    && HandedOver(lines, i, sink.deltas)
    && (sink.Valid() || exists delta :: Adds(lines, i, delta) && sink.Interrupted(delta))
  }

  /** One line of an invocation: taken, or the end of it. */
  method StreamLine(lines: seq<Line>, i: nat, invocation: Invocation, sink: Sink, ghost ending: Ending)
    returns (failure: Option<Kind>)
    requires i < |lines| && sink.Valid() && invocation.operation == StreamOperation
    requires After(StreamOperation, lines[..i]) == Some(invocation.View()) && sink.deltas == invocation.emitted
    requires Lets(sink.ended, sink.deltas)
    modifies invocation, sink, sink.events
    ensures sink.events.Valid() && !sink.events.refused
    ensures failure.None? ==>
              && sink.Valid() && sink.deltas == invocation.emitted && sink.events.intact == old(sink.events.intact)
              && After(StreamOperation, lines[..i + 1]) == Some(invocation.View()) && Lets(sink.ended, sink.deltas)
    ensures failure.Some? ==> StoppedWithin(lines, i, sink)
    ensures failure.Some? && sink.events.intact && Lets(sink.ended, Furthest(StreamOperation, lines).emitted) ==>
              Finish(invocation.View(), ending.(emitError := failure)) == Concluded(lines, ending)
  {
    hide Judge, After, Furthest, Lets, Concluded, Finish, LogOk, AllLanded, Script;
    ghost var v, before := Judge(StreamOperation, invocation.View(), lines[i]), sink.deltas;
    AfterOneMore(StreamOperation, lines, i);
    failure := invocation.Handle(lines[i], sink);
    if failure.Some? {
      Halted(lines, i, v, failure.value, !sink.events.intact, sink.ended, ending, invocation.View());
      assert StoppedWithin(lines, i, sink) by {
        assert HandedOver(lines, i, sink.deltas);
        assert sink.Valid() || (Adds(lines, i, v.delta) && sink.Interrupted(v.delta));
      }
    } else if v.delta != [] {
      LetsMore(sink.ended, before, v.delta);
    }
  }

  /** One invocation: lines handled until one fails, then the ending judged. Unless the request ends
      or a write fails under it, it ends as its lines and its ending say. */
  method Stream(lines: seq<Line>, ending: Ending, sink: Sink) returns (r: Returned)
    requires sink.Valid() && sink.deltas == []
    modifies sink, sink.events
    ensures sink.events.Valid() && !sink.events.refused
    ensures r.Success? || (sink.events.intact && Lets(sink.ended, Furthest(StreamOperation, lines).emitted)) ==>
              r == Concluded(lines, ending)
    ensures r.Success? ==>
              && After(StreamOperation, lines).Some? && After(StreamOperation, lines).value.terminal
              && r.completion == After(StreamOperation, lines).value.result
              && sink.Valid() && sink.deltas == After(StreamOperation, lines).value.emitted
              && Lets(sink.ended, sink.deltas) && sink.events.intact == old(sink.events.intact)
    ensures r.Failure? ==> exists i: nat :: StoppedWithin(lines, i, sink)
  {
    hide Judge, After, Furthest, Lets, Concluded, LogOk, AllLanded, Script;
    var invocation := new Invocation(StreamOperation);
    StreamStarts(lines, sink.ended);
    var i := 0;
    while i < |lines|
      invariant 0 <= i <= |lines| && fresh(invocation) && sink.Valid() && invocation.operation == StreamOperation
      invariant After(StreamOperation, lines[..i]) == Some(invocation.View()) && sink.deltas == invocation.emitted
      invariant Lets(sink.ended, sink.deltas) && sink.events.intact == old(sink.events.intact)
    {
      var failure := StreamLine(lines, i, invocation, sink, ending);
      if failure.Some? {
        return Finish(Session(invocation.ready, invocation.terminal, invocation.previous, invocation.total,
                              invocation.status, invocation.result, []),
                      ending.(emitError := failure));
      }
      i := i + 1;
    }
    assert lines[..i] == lines;
    assert StoppedWithin(lines, i, sink);
    ConcludedTaken(lines, ending, invocation.View());
    r := Finish(Session(invocation.ready, invocation.terminal, invocation.previous, invocation.total,
                        invocation.status, invocation.result, []),
                ending.(emitError := None));
  }

  /** A whole request. A completed stream has tried exactly the opening, the deltas and the closing
      with their concatenation; any other ends refused, cut off, or with one failure frame; and what
      was sent is what the helper's lines say. A request whose helper completes, that has not ended
      meanwhile, is closed unless a write fails; no other is. */
  method StreamPrepared(responses: bool, lines: seq<Line>, ending: Ending, ended: ByteString -> bool,
                        blank: ByteString -> bool)
    returns (events: StreamEvents, ghost deltas: seq<ByteString>)
    ensures events.responses == responses && events.Valid()
    ensures Ended(responses, events.tried, events.landed, events.refused, events.intact, deltas)
    ensures Told(responses, events.tried, events.landed, lines, deltas)
    ensures events.intact && Closes(lines, ending, ended, blank) ==>
              Closed(responses, events.tried, events.landed, deltas)
    ensures AnyClosing(events.tried) ==> Closes(lines, ending, ended, blank)
  {
    hide LogOk, After, Lets, CutShort, CutWithin, Failed, CutClosing, Closes;
    ClosesExactly(lines, ending, ended, blank);
    events := new StreamEvents(responses);
    var sink := new Sink(events, ended);
    assert sink.Valid();
    var r := Stream(lines, ending, sink);
    deltas := sink.deltas;
    if r.Success? {
      StreamTheorem(lines);
    }
    var failed := r.Failure? || ended(sink.accumulated) || blank(r.completion.text)
                  || r.completion.text != sink.accumulated;
    if failed {
      deltas := FailRequest(lines, r, sink);
      return;
    }
    assert r.completion.text == Concat(deltas);
    assert HandedOver(lines, |lines|, deltas) by { assert lines[..|lines|] == lines; }
    CloseRequest(deltas, r.completion.text, events);
  }

  /** The closing of a request whose deltas are all out. */
  method CloseRequest(ghost deltas: seq<ByteString>, text: ByteString, events: StreamEvents)
    requires events.Valid() && !events.refused && AllLanded(events.landed)
    requires events.tried == Script(events.responses, deltas) && text == Concat(deltas)
    modifies events
    ensures events.Valid() && !events.refused
    ensures Closed(events.responses, events.tried, events.landed, deltas)
            || (!events.intact && CutClosing(events.responses, events.tried, events.landed, deltas))
  {
    hide LogOk;
    ghost var before := events.tried;
    var ok := events.Done(text);
    if !ok {
      ghost var k :| 1 <= k <= |Closing(events.responses, text)|
                     && events.tried == before + Closing(events.responses, text)[..k];
    }
  }

  /** The failure of a request after its invocation. */
  method FailRequest(lines: seq<Line>, r: Returned, sink: Sink) returns (ghost deltas: seq<ByteString>)
    requires sink.events.Valid() && !sink.events.refused
    requires r.Success? ==> sink.Valid() && Completed(lines, sink.deltas)
    requires r.Failure? ==> exists i: nat :: StoppedWithin(lines, i, sink)
    modifies sink.events
    ensures sink.events.Valid() && (sink.events.intact ==> old(sink.events.intact))
    ensures Ended(sink.events.responses, sink.events.tried, sink.events.landed, sink.events.refused,
                  sink.events.intact, deltas)
    ensures Told(sink.events.responses, sink.events.tried, sink.events.landed, lines, deltas)
    ensures !AnyClosing(sink.events.tried)
  {
    hide LogOk;
    deltas := sink.deltas;
    assert lines[..|lines|] == lines;
    ghost var i: nat := |lines|;
    if r.Failure? {
      i :| StoppedWithin(lines, i, sink);
    }
    assert HandedOver(lines, i, sink.deltas);
    ghost var before, landed := sink.events.tried, sink.events.landed;
    ghost var responses, whole := sink.events.responses, sink.Valid();
    if !whole {
      ghost var delta :| Adds(lines, i, delta) && sink.Interrupted(delta);
      deltas := sink.deltas + [delta];
      assert CutWithin(lines, i, deltas) by { assert deltas[..|deltas| - 1] == sink.deltas; }
    }
    var fate: Fate := *;
    sink.events.Failed(fate);
    if whole {
      FailedEnds(responses, before, landed, sink.events.tried, sink.events.landed, sink.events.intact, deltas);
    } else {
      CutEnds(responses, before, landed, sink.events.tried, sink.events.landed, deltas);
    }
  }

  /** A request failed with every delta out, or with none. */
  lemma FailedEnds(responses: bool, before: seq<Part>, landedBefore: seq<bool>, tried: seq<Part>, landed: seq<bool>,
                   intact: bool, deltas: seq<ByteString>)
    requires before == Script(responses, deltas) && AllLanded(landedBefore) && |landedBefore| == |before|
    requires if before == [] then tried == [] && landed == [] && intact
             else tried == before + [FailurePart(responses)] && |landed| == |before| + 1
                  && landed[..|before|] == landedBefore
    ensures !AnyClosing(tried) && Ended(responses, tried, landed, before == [], intact, deltas)
  {
    ScriptPlain(responses, deltas);
    if before != [] {
      assert forall i :: 0 <= i < |before| ==> landed[i] == landedBefore[i];
      assert Failed(responses, tried, landed, deltas);
    }
  }

  /** A request failed by a write within its script. */
  lemma CutEnds(responses: bool, before: seq<Part>, landedBefore: seq<bool>, tried: seq<Part>, landed: seq<bool>,
                deltas: seq<ByteString>)
    requires PartOf(Script(responses, deltas), before)
    requires LastInDoubt(landedBefore) && |landedBefore| == |before|
    requires tried == before + [FailurePart(responses)] && |landed| == |tried| && landed[..|before|] == landedBefore
    ensures !AnyClosing(tried) && CutShort(responses, tried, landed, deltas)
  {
    ScriptPlain(responses, deltas);
    assert tried[..|tried| - 1] == before;
  }

  // ---- what a finished request has put on the wire ----

  lemma ScriptPlain(responses: bool, deltas: seq<ByteString>)
    ensures forall i :: 0 <= i < |Script(responses, deltas)| ==>
              !IsTerminal(Script(responses, deltas)[i]) && !IsClosing(Script(responses, deltas)[i])
  {
  }

  /** At most one terminal part, and nothing after it. */
  lemma OneTerminal(responses: bool, tried: seq<Part>, landed: seq<bool>, refused: bool, intact: bool,
                    deltas: seq<ByteString>, i: nat)
    requires Ended(responses, tried, landed, refused, intact, deltas) && i < |tried| && IsTerminal(tried[i])
    ensures i == |tried| - 1
  {
    hide Script, Closing;
    ScriptPlain(responses, deltas);
    ClosingEnds(responses, Concat(deltas));
  }

  /** Only the last closing part is terminal. */
  lemma ClosingEnds(responses: bool, text: ByteString)
    ensures |Closing(responses, text)| == |Closing(responses, [])|
    ensures forall i :: 0 <= i < |Closing(responses, text)| - 1 ==> !IsTerminal(Closing(responses, text)[i])
  {
  }

  /** A closing part is tried only after the opening and every delta, at least one, of a stream the
      helper completed. */
  lemma ClosingAfterScript(responses: bool, tried: seq<Part>, landed: seq<bool>, refused: bool, intact: bool,
                           lines: seq<Line>, deltas: seq<ByteString>, i: nat)
    requires Ended(responses, tried, landed, refused, intact, deltas) && Told(responses, tried, landed, lines, deltas)
    requires i < |tried| && IsClosing(tried[i])
    ensures deltas != [] && Opening(responses) + DeltaParts(responses, deltas) <= tried[..i]
  {
    hide HandedOver, CutWithin, After;
    StreamTheorem(lines);
    var script := Script(responses, deltas);
    ScriptPlain(responses, deltas);
    if CutShort(responses, tried, landed, deltas) {
      NoneClosing(script, tried, i);
    }
    assert script <= tried;
    assert |script| <= i;
  }

  lemma NoneClosing(script: seq<Part>, tried: seq<Part>, i: nat)
    requires tried != [] && PartOf(script, tried[..|tried| - 1]) && !IsClosing(tried[|tried| - 1])
    requires forall j :: 0 <= j < |script| ==> !IsClosing(script[j])
    requires i < |tried|
    ensures !IsClosing(tried[i])
  {
    if i < |tried| - 1 { assert tried[..|tried| - 1][i] == tried[i]; }
  }

  /** A request leaves a number out exactly when the write before a failure frame did not land and
      the failure frame did. */
  lemma GapOnlyBeforeFailure(tried: seq<Part>, landed: seq<bool>, refused: bool, intact: bool, deltas: seq<ByteString>)
    requires |landed| == |tried| && Ended(true, tried, landed, refused, intact, deltas)
    ensures var n := |tried|;
            NumberedFromZero(Survivors(true, tried, landed)) <==>
            !(n >= 2 && !landed[n - 2] && landed[n - 1] && tried[n - 1] == FailurePart(true))
  {
    NumberedUnlessGap(tried, landed);
    var n := |tried|;
    if n >= 2 && !landed[n - 2] && landed[n - 1] {
      assert Gap(landed);
    }
    if Gap(landed) {
      GapIsLast(tried, landed, refused, intact, deltas);
    }
  }

  lemma DoubtOrCut(tried: seq<Part>, landed: seq<bool>, refused: bool, intact: bool, deltas: seq<ByteString>)
    requires |landed| == |tried| && Ended(true, tried, landed, refused, intact, deltas)
    ensures LastInDoubt(landed) || CutShort(true, tried, landed, deltas)
  {
  }

  lemma GapIsLast(tried: seq<Part>, landed: seq<bool>, refused: bool, intact: bool, deltas: seq<ByteString>)
    requires |landed| == |tried| && Ended(true, tried, landed, refused, intact, deltas) && Gap(landed)
    ensures var n := |tried|; n >= 2 && !landed[n - 2] && landed[n - 1] && tried[n - 1] == FailurePart(true)
  {
    DoubtOrCut(tried, landed, refused, intact, deltas);
    GapWithin(landed, landed[..|tried| - 1]);
  }

  lemma GapWithin(landed: seq<bool>, front: seq<bool>)
    requires Gap(landed) && |landed| >= 1 && front == landed[..|landed| - 1]
    ensures !LastInDoubt(landed)
    ensures LastInDoubt(front) ==> |landed| >= 2 && !landed[|landed| - 2] && landed[|landed| - 1]
  {
    var i, j :| 0 <= i < j < |landed| && !landed[i] && landed[j];
    assert !front[i];
  }

  lemma ClosedWhole(responses: bool, tried: seq<Part>, landed: seq<bool>, refused: bool, deltas: seq<ByteString>)
    requires Ended(responses, tried, landed, refused, true, deltas) && AnyClosing(tried)
    ensures Closed(responses, tried, landed, deltas)
  {
    ScriptPlain(responses, deltas);
  }

  /** When no write fails, what a client of a closed request gathers from the delta frames is the
      text the helper completed with, and Responses frames are numbered 0, 1, 2, and on. */
  lemma ClientGathersText(events: StreamEvents, lines: seq<Line>, deltas: seq<ByteString>)
    requires events.Valid() && events.intact && AnyClosing(events.tried)
    requires Ended(events.responses, events.tried, events.landed, events.refused, events.intact, deltas)
    requires Told(events.responses, events.tried, events.landed, lines, deltas)
    ensures After(StreamOperation, lines).Some?
    ensures Gathered(events.Wire()) == After(StreamOperation, lines).value.result.text
    ensures events.responses ==> NumberedFromZero(events.Wire())
  {
    StreamTheorem(lines);
    ClosedWhole(events.responses, events.tried, events.landed, events.refused, deltas);
    AllLandedIntact(events.responses, events.tried, events.landed);
    ScriptGathers(events.responses, events.tried, events.Wire(), deltas);
  }

  lemma ScriptGathers(responses: bool, tried: seq<Part>, wire: seq<Frame>, deltas: seq<ByteString>)
    requires tried == Script(responses, deltas) + Closing(responses, Concat(deltas)) && deltas != []
    requires Intact(responses, tried, wire)
    ensures Gathered(wire) == Concat(deltas)
  {
    hide Concat, Gathered;
    var script := Script(responses, deltas);
    var n := |script|;
    ClosingPlain(responses, Concat(deltas));
    assert forall i :: n <= i < |tried| ==> tried[i] == Closing(responses, Concat(deltas))[i - n];
    GatheredSkips(responses, tried, wire, n);
    ScriptShape(responses, deltas);
    assert Intact(responses, script, wire[..n]);
    GatheredDeltas(responses, script, wire[..n], |Opening(responses)|, deltas);
  }

  lemma ClosingPlain(responses: bool, text: ByteString)
    ensures forall i :: 0 <= i < |Closing(responses, text)| ==>
              Closing(responses, text)[i].kind != TextDelta && Closing(responses, text)[i].kind != ContentChunk
  {
  }

  lemma ScriptShape(responses: bool, deltas: seq<ByteString>)
    requires deltas != []
    ensures var n, script := |Opening(responses)|, Script(responses, deltas);
            && |script| == n + |deltas|
            && (forall i :: 0 <= i < n ==> script[i].kind != TextDelta && script[i].kind != ContentChunk)
            && (forall i :: 0 <= i < |deltas| ==> script[n + i] == DeltaPart(responses, deltas[i]))
  {
  }
}
