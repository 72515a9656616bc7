/** What every interleaving of a child process run guarantees. */
module SubprocSafety {
  import opened Bytes
  import opened SubprocMachine

  // ---- the line splitter does not depend on where reads stopped ----

  /** Bytes already handed out end at a line boundary unless the stream is over. */
  predicate AtBoundary(s: ByteString) {
    s == [] || s[|s| - 1] == NEWLINE
  }

  lemma {:induction false} LinesAppend(a: ByteString, b: ByteString)
    requires AtBoundary(a)
    ensures Lines(a + b) == Lines(a) + Lines(b)
    decreases |a|
  {
    if a == [] {
      assert a + b == b;
    } else {
      var k := FirstNewline(a);
      assert k < |a|;
      FirstNewlineAppend(a, b);
      assert (a + b)[..k] == a[..k];
      assert (a + b)[k + 1..] == a[k + 1..] + b;
      LinesAppend(a[k + 1..], b);
    }
  }

  lemma {:induction false} FirstNewlineAppend(a: ByteString, b: ByteString)
    requires FirstNewline(a) < |a|
    ensures FirstNewline(a + b) == FirstNewline(a)
  {
    if a[0] != NEWLINE {
      assert (a + b)[1..] == a[1..] + b;
      FirstNewlineAppend(a[1..], b);
    }
  }

  lemma OneLine(s: ByteString, k: nat)
    requires k == FirstNewline(s) < |s|
    ensures Lines(s[..k + 1]) == [DropReturn(s[..k])]
  {
    var line := s[..k + 1];
    FirstNewlinePrefix(s);
    assert line[..k] == s[..k];
    assert line[k + 1..] == [];
    assert Lines([]) == [];
  }

  lemma LastLine(s: ByteString)
    requires s != [] && FirstNewline(s) == |s|
    ensures Lines(s) == [DropReturn(s)]
  {
  }

  lemma {:induction false} FirstNewlinePrefix(s: ByteString)
    requires FirstNewline(s) < |s|
    ensures FirstNewline(s[..FirstNewline(s) + 1]) == FirstNewline(s)
  {
    var k := FirstNewline(s);
    if s[0] != NEWLINE {
      FirstNewlinePrefix(s[1..]);
      assert s[..k + 1][1..] == s[1..][..k];
    }
  }

  // ---- what one line is ----

  lemma NewlineAt(l: ByteString, rest: ByteString)
    requires 10 !in l
    ensures FirstNewline(l + [10] + rest) == |l|
  {
    var s := l + [10] + rest;
    assert s[|l|] == 10;
    assert forall j :: 0 <= j < |l| ==> s[j] == l[j] && l[j] in l;
  }

  /** A line is everything before its newline but one carriage return right before it; a last line
      needs no newline. */
  lemma LineIs(l: ByteString, rest: ByteString)
    requires 10 !in l
    ensures l == [] || l[|l| - 1] != 13 ==> Lines(l + [10] + rest) == [l] + Lines(rest)
    ensures Lines(l + [13, 10] + rest) == [l] + Lines(rest)
    ensures l != [] && l[|l| - 1] != 13 ==> Lines(l) == [l]
    ensures Lines(l + [13]) == [l]
  {
    hide Lines, DropReturn;
    ReturnDropped(l);
    TerminatedLine(l, rest);
    TerminatedLine(l + [13], rest);
    assert l + [13] + [10] + rest == l + [13, 10] + rest;
    if l != [] {
      UnterminatedLine(l);
    }
    UnterminatedLine(l + [13]);
  }

  /** One return is dropped from the end of a line, and nothing else. */
  lemma ReturnDropped(l: ByteString)
    ensures DropReturn(l + [13]) == l
    ensures l == [] || l[|l| - 1] != 13 ==> DropReturn(l) == l
  {
    assert (l + [13])[..|l|] == l;
  }

  lemma TerminatedLine(l: ByteString, rest: ByteString)
    requires 10 !in l
    ensures Lines(l + [10] + rest) == [DropReturn(l)] + Lines(rest)
  {
    hide DropReturn;
    var s := l + [10] + rest;
    NewlineAt(l, rest);
    assert s[..|l|] == l && s[|l| + 1..] == rest;
  }

  lemma UnterminatedLine(l: ByteString)
    requires 10 !in l && l != []
    ensures Lines(l) == [DropReturn(l)]
  {
    hide DropReturn;
    NoNewline(l);
  }

  lemma {:induction false} NoNewline(l: ByteString)
    requires 10 !in l
    ensures FirstNewline(l) == |l|
  {
    if l != [] {
      NoNewline(l[1..]);
    }
  }

  /** A line as the callback takes it: no newline in it and no carriage return at its end. */
  predicate PlainLine(l: ByteString) { 10 !in l && (l == [] || l[|l| - 1] != 13) }

  /** Lines written one after another, some of them ended the long way. */
  function Written(ls: seq<ByteString>, long: nat -> bool): ByteString {
    if ls == [] then []
    else ls[0] + (if long(|ls|) then [13, 10] else [10]) + Written(ls[1..], long)
  }

  lemma NoLines()
    ensures Lines([]) == []
  {
  }

  lemma WrittenStep(ls: seq<ByteString>, long: nat -> bool, last: ByteString)
    requires ls != [] && PlainLine(ls[0])
    ensures Lines(Written(ls, long) + last) == [ls[0]] + Lines(Written(ls[1..], long) + last)
  {
    hide Lines;
    var end: ByteString, rest := if long(|ls|) then [13, 10] else [10], Written(ls[1..], long);
    assert Written(ls, long) + last == ls[0] + end + (rest + last);
    LineIs(ls[0], rest + last);
  }

  lemma {:induction false} WrittenLines(ls: seq<ByteString>, long: nat -> bool, last: ByteString)
    requires (forall i :: 0 <= i < |ls| ==> PlainLine(ls[i])) && PlainLine(last)
    ensures Lines(Written(ls, long) + last) == ls + if last == [] then [] else [last]
    decreases |ls|
  {
    hide Lines;
    if ls == [] {
      LastWritten(long, last);
    } else {
      WrittenLines(ls[1..], long, last);
      WrittenStep(ls, long, last);
      assert ls == [ls[0]] + ls[1..];
    }
  }

  lemma LastWritten(long: nat -> bool, last: ByteString)
    requires PlainLine(last)
    ensures Lines(Written([], long) + last) == if last == [] then [] else [last]
  {
    hide Lines;
    assert Written([], long) + last == last;
    NoLines();
    LineIs(last, []);
  }

  // ---- the invariant ----

  /** How much of the stream the callback has been given. */
  function Consumed(s: State): int {
    s.outRead - |s.buffer|
  }

  predicate BufferOk(s: State) {
    && 0 <= Consumed(s) && s.outRead <= |s.outWritten| && s.errRead <= |s.errWritten|
    && s.buffer == s.outWritten[Consumed(s)..s.outRead]
  }

  predicate LinesOk(s: State)
    requires BufferOk(s)
  {
    && s.lines == Lines(s.outWritten[..Consumed(s)])
    && (s.outSource.Open? || s.buffer != [] ==> AtBoundary(s.outWritten[..Consumed(s)]))
  }

  predicate StreamOk(setup: Setup, s: State) {
    && BufferOk(s)
    && (setup.scanning ==> LinesOk(s))
    && (!setup.scanning ==> s.lines == [] && Consumed(s) == 0 && (s.out.Reading? || s.out.Done?))
  }

  /** A pipe that reached EOF has been read whole and nobody can write to it again. */
  predicate EofOk(s: State) {
    && (s.outSource == Ended(Eof) ==> s.outRead == |s.outWritten| && !OutHeld(s))
    && (s.err == Done(Eof) ==> s.errRead == |s.errWritten| && !ErrHeld(s))
    && (s.out.Done? && !s.out.outcome.TooLong? && !s.out.outcome.Rejected? ==> s.outSource == Ended(s.out.outcome))
    && (s.outSource.Ended? ==> !s.outSource.outcome.TooLong? && !s.outSource.outcome.Rejected?)
    && (s.err.Reading? || s.err.Done?)
    && (s.err.Done? ==> !s.err.outcome.TooLong? && !s.err.outcome.Rejected?)
  }

  /** The only ways a read end is closed early are an ended context and a rejected line. */
  predicate CloseOk(s: State) {
    && s.closes == (if s.closed then 1 else 0)
    && (s.closed && !FinalClose(s.main) ==> s.ended || s.out == Done(Rejected))
    && (s.outSource == Ended(Disconnected) || s.err == Done(Disconnected) ==> s.ended || s.out == Done(Rejected))
    && (s.main.Disconnecting? || s.main.AwaitingDrains? ==> s.ended)
    && (s.main.AwaitingDrains? || FinalClose(s.main) ==> s.closed)
    && (StopRequested(s.main) || s.main.StoppingWatcher? ==> Drained(s))
    && (s.watcher.Firing? ==> s.ended)
  }

  predicate FinalClose(m: Main) {
    m.Deciding? || m.Returned?
  }

  /** After a kill, and while nothing alive can join, the group has no living member. */
  predicate GroupDoomed(procs: map<nat, Process>) {
    forall p :: p in procs && procs[p].inGroup ==> procs[p].doomed
  }

  predicate KillOk(s: State) {
    && (LEADER in s.procs ==> s.procs[LEADER].inGroup)
    && (s.main.Waiting? && s.watcher.Gone? ==> GroupDoomed(s.procs))
    && (!s.main.Waiting? ==> LEADER !in s.procs)
    && (s.main.ClosingEnds? || FinalClose(s.main) ==> GroupDoomed(s.procs))
  }

  predicate ReturnOk(setup: Setup, s: State) {
    s.main.Returned? && s.main.verdict.Ok? ==>
      && s.err.Done? && s.err.outcome.Eof?
      && s.out.Done? && (s.out.outcome.Eof? || s.out.outcome.TooLong?)
      && (setup.scanning && s.out.outcome.Eof? ==> s.buffer == [])
  }

  /** Finished scanning leaves nothing undelivered. */
  predicate FinishOk(setup: Setup, s: State) {
    setup.scanning && s.out.Done? && s.out.outcome.Eof? ==> s.buffer == []
  }

  predicate Inv(setup: Setup, s: State) {
    StreamOk(setup, s) && EofOk(s) && CloseOk(s) && KillOk(s) && FinishOk(setup, s) && ReturnOk(setup, s)
  }

  lemma EnvironmentKeepsStream(setup: Setup, s: State, s': State, l: Label)
    requires StreamOk(setup, s) && EnvironmentStep(s, s', l)
    ensures StreamOk(setup, s')
  {
    hide Lines, OutHeld, ErrHeld, KillGroup;
    if l.WriteOut? {
      assert s'.outWritten[..Consumed(s)] == s.outWritten[..Consumed(s)];
      assert s'.outWritten[Consumed(s)..s.outRead] == s.outWritten[Consumed(s)..s.outRead];
    }
  }

  lemma EnvironmentKeeps(setup: Setup, s: State, s': State, l: Label)
    requires EofOk(s) && CloseOk(s) && KillOk(s) && EnvironmentStep(s, s', l)
    ensures EofOk(s') && CloseOk(s') && KillOk(s')
  {
    hide EofOk, CloseOk, KillOk, EnvironmentStep;
    EnvironmentKeepsEof(s, s', l);
    EnvironmentKeepsClose(s, s', l);
    EnvironmentKeepsKill(s, s', l);
  }

  lemma EnvironmentKeepsEof(s: State, s': State, l: Label)
    requires EofOk(s) && EnvironmentStep(s, s', l)
    ensures EofOk(s')
  {
    hide OutHeld, ErrHeld;
    EnvironmentHolds(s, s', l);
    if l.WriteOut? {
      assert OutHeld(s) by { HoldsOut(s, l.pid); }
    } else if l.WriteErr? {
      assert ErrHeld(s) by { HoldsErr(s, l.pid); }
    }
  }

  lemma HoldsOut(s: State, pid: nat)
    requires pid in s.procs && s.procs[pid].holdsOut
    ensures OutHeld(s)
  {
  }

  lemma HoldsErr(s: State, pid: nat)
    requires pid in s.procs && s.procs[pid].holdsErr
    ensures ErrHeld(s)
  {
  }

  /** No step of the environment opens a pipe that nobody holds. */
  lemma EnvironmentHolds(s: State, s': State, l: Label)
    requires EnvironmentStep(s, s', l)
    ensures (OutHeld(s') ==> OutHeld(s)) && (ErrHeld(s') ==> ErrHeld(s))
  {
    hide OutHeld, ErrHeld;
    if l.Fork? {
      ForkHolds(s, s', l.parent, l.child);
    } else if l.Leave? {
      LessHeld(s, s');
    } else if l.Drop? {
      LessHeld(s, s');
    } else if l.Exit? {
      LessHeld(s, s');
    } else {
      LessHeld(s, s');
    }
  }

  lemma ForkHolds(s: State, s': State, parent: nat, child: nat)
    requires parent in s.procs && s'.procs == s.procs[child := s.procs[parent]]
    ensures (OutHeld(s') ==> OutHeld(s)) && (ErrHeld(s') ==> ErrHeld(s))
  {
    assert s.procs[parent].holdsOut ==> OutHeld(s);
    assert s.procs[parent].holdsErr ==> ErrHeld(s);
  }

  lemma LessHeld(s: State, s': State)
    requires forall p :: p in s'.procs ==> p in s.procs && (s'.procs[p].holdsOut ==> s.procs[p].holdsOut)
                                           && (s'.procs[p].holdsErr ==> s.procs[p].holdsErr)
    ensures (OutHeld(s') ==> OutHeld(s)) && (ErrHeld(s') ==> ErrHeld(s))
  {
  }

  lemma EnvironmentKeepsClose(s: State, s': State, l: Label)
    requires CloseOk(s) && EnvironmentStep(s, s', l)
    ensures CloseOk(s')
  {
    hide FinalClose, StopRequested;
  }

  lemma EnvironmentKeepsKill(s: State, s': State, l: Label)
    requires KillOk(s) && EnvironmentStep(s, s', l)
    ensures KillOk(s')
  {
    hide FinalClose, GroupDoomed;
    EnvironmentKeepsDoomed(s, s', l);
  }

  lemma EnvironmentKeepsDoomed(s: State, s': State, l: Label)
    requires EnvironmentStep(s, s', l)
    ensures GroupDoomed(s.procs) ==> GroupDoomed(s'.procs)
  {
  }

  /** Steps that touch neither stream nor drainers leave the stream facts alone. */
  lemma StreamFrame(setup: Setup, s: State, s': State)
    requires StreamOk(setup, s)
    requires s'.outWritten == s.outWritten && s'.outRead == s.outRead && s'.errWritten == s.errWritten
    requires s'.errRead <= |s'.errWritten| && s'.buffer == s.buffer && s'.lines == s.lines
    requires s'.out == s.out && s'.outSource == s.outSource
    ensures StreamOk(setup, s')
  {
  }

  /** A kill leaves who holds which pipe, and dooms the group. */
  lemma KillKeepsHolders(s: State, s': State)
    requires s'.procs == KillGroup(s.procs) || s'.procs == s.procs
    ensures (OutHeld(s') ==> OutHeld(s)) && (ErrHeld(s') ==> ErrHeld(s))
    ensures s'.procs == KillGroup(s.procs) || GroupDoomed(s.procs) ==> GroupDoomed(s'.procs)
    ensures LEADER in s'.procs <==> LEADER in s.procs
    ensures LEADER in s.procs ==> s'.procs[LEADER].inGroup == s.procs[LEADER].inGroup
  {
    hide OutHeld, ErrHeld;
    LessHeld(s, s');
  }

  lemma WatcherKeepsRest(setup: Setup, s: State, s': State, l: Label)
    requires EofOk(s) && CloseOk(s) && KillOk(s) && FinishOk(setup, s) && ReturnOk(setup, s) && WatcherStep(s, s', l)
    ensures EofOk(s') && CloseOk(s') && KillOk(s') && FinishOk(setup, s') && ReturnOk(setup, s')
  {
    hide OutHeld, ErrHeld, KillGroup, GroupDoomed;
    KillKeepsHolders(s, s');
  }

  lemma ErrKeepsRest(setup: Setup, s: State, s': State, l: Label)
    requires EofOk(s) && CloseOk(s) && KillOk(s) && FinishOk(setup, s) && ReturnOk(setup, s) && ErrStep(s, s', l)
    ensures EofOk(s') && CloseOk(s') && KillOk(s') && FinishOk(setup, s') && ReturnOk(setup, s')
  {
    hide OutHeld, ErrHeld, GroupDoomed;
    KillKeepsHolders(s, s');
  }

  lemma MainKeepsRest(setup: Setup, s: State, s': State, l: Label)
    requires EofOk(s) && CloseOk(s) && KillOk(s) && FinishOk(setup, s) && ReturnOk(setup, s) && MainStep(s, s', l)
    ensures EofOk(s') && CloseOk(s') && KillOk(s') && FinishOk(setup, s') && ReturnOk(setup, s')
  {
    MainKeepsPipes(s, s', l);
    MainKeepsReturn(setup, s, s', l);
  }

  lemma MainKeepsPipes(s: State, s': State, l: Label)
    requires EofOk(s) && CloseOk(s) && MainStep(s, s', l)
    ensures EofOk(s') && CloseOk(s')
  {
    hide OutHeld, ErrHeld, KillGroup, GroupDoomed, Decision;
    KillKeepsHolders(s, s');
    MainKeepsEof(s, s', l);
    MainKeepsClose(s, s', l);
  }

  lemma MainKeepsEof(s: State, s': State, l: Label)
    requires EofOk(s) && MainStep(s, s', l) && (OutHeld(s') ==> OutHeld(s)) && (ErrHeld(s') ==> ErrHeld(s))
    ensures EofOk(s')
  {
    hide OutHeld, ErrHeld, KillGroup, Decision;
  }

  lemma MainKeepsClose(s: State, s': State, l: Label)
    requires CloseOk(s) && MainStep(s, s', l)
    ensures CloseOk(s')
  {
    hide KillGroup, Decision;
  }

  lemma MainKeepsReturn(setup: Setup, s: State, s': State, l: Label)
    requires EofOk(s) && CloseOk(s) && KillOk(s) && FinishOk(setup, s) && ReturnOk(setup, s) && MainStep(s, s', l)
    ensures KillOk(s') && FinishOk(setup, s') && ReturnOk(setup, s')
  {
    hide OutHeld, ErrHeld, KillGroup, GroupDoomed;
    KillKeepsHolders(s, s');
  }

  lemma ReadKeepsStream(setup: Setup, s: State, s': State, n: nat)
    requires StreamOk(setup, s) && OutStep(setup, s, s', OutReads(n))
    ensures StreamOk(setup, s')
  {
    hide FirstNewline, Lines;
    assert s'.buffer == s.outWritten[Consumed(s)..s.outRead] + s.outWritten[s.outRead..s.outRead + n];
    assert s'.buffer == s'.outWritten[Consumed(s')..s'.outRead];
  }

  lemma LineAfter(before: ByteString, buffer: ByteString, k: nat)
    requires AtBoundary(before) && k == FirstNewline(buffer) < |buffer|
    ensures Lines(before + buffer[..k + 1]) == Lines(before) + [DropReturn(buffer[..k])]
  {
    OneLine(buffer, k);
    LinesAppend(before, buffer[..k + 1]);
  }

  lemma RestAfter(before: ByteString, buffer: ByteString)
    requires AtBoundary(before) && buffer != [] && FirstNewline(buffer) == |buffer|
    ensures Lines(before + buffer) == Lines(before) + [DropReturn(buffer)]
  {
    LastLine(buffer);
    LinesAppend(before, buffer);
  }

  lemma Slice(written: ByteString, c: nat, r: nat, n: nat)
    requires c <= r <= |written| && n <= r - c
    ensures written[..c + n] == written[..c] + written[c..r][..n]
  {
  }

  lemma DeliverKeepsBuffer(s: State, k: nat)
    requires BufferOk(s) && Deliverable(s) && k == FirstNewline(s.buffer)
    ensures BufferOk(Delivered(s))
    ensures Consumed(Delivered(s)) == Consumed(s) + (if k < |s.buffer| then k + 1 else k)
  {
    var s' := Delivered(s);
    assert k < |s.buffer| ==> s'.buffer == s.buffer[k + 1..];
    assert s'.buffer == s'.outWritten[Consumed(s')..s'.outRead];
  }

  lemma LineDelivered(before: ByteString, buffer: ByteString, k: nat, whole: ByteString)
    requires AtBoundary(before) && k == FirstNewline(buffer) < |buffer| && whole == before + buffer[..k + 1]
    ensures AtBoundary(whole) && Lines(whole) == Lines(before) + [DropReturn(buffer[..k])]
  {
    LineAfter(before, buffer, k);
    assert whole[|whole| - 1] == buffer[k];
  }

  lemma LineKept(s: State, s': State, k: nat)
    requires BufferOk(s) && LinesOk(s) && s.buffer != [] && k == FirstNewline(s.buffer) < |s.buffer|
    requires BufferOk(s') && s'.outWritten == s.outWritten && Consumed(s') == Consumed(s) + k + 1
    requires s'.lines == s.lines + [DropReturn(s.buffer[..k])]
    ensures LinesOk(s')
  {
    var before, whole := s.outWritten[..Consumed(s)], s.outWritten[..Consumed(s')];
    Slice(s.outWritten, Consumed(s), s.outRead, k + 1);
    assert whole == before + s.buffer[..k + 1];
    LineDelivered(before, s.buffer, k, whole);
  }

  lemma RestKept(s: State, s': State)
    requires BufferOk(s) && LinesOk(s) && s.buffer != [] && FirstNewline(s.buffer) == |s.buffer|
    requires BufferOk(s') && s'.outWritten == s.outWritten && Consumed(s') == Consumed(s) + |s.buffer|
    requires s'.lines == s.lines + [DropReturn(s.buffer)] && s'.outSource.Ended? && s'.buffer == []
    ensures LinesOk(s')
  {
    var before, whole := s.outWritten[..Consumed(s)], s.outWritten[..Consumed(s')];
    assert whole == before + s.buffer;
    RestAfter(before, s.buffer);
  }

  lemma DeliverKeepsLines(s: State)
    requires BufferOk(s) && LinesOk(s) && Deliverable(s)
    ensures BufferOk(Delivered(s)) && LinesOk(Delivered(s))
  {
    var k := FirstNewline(s.buffer);
    DeliverKeepsBuffer(s, k);
    if k < |s.buffer| {
      LineKept(s, Delivered(s), k);
    } else {
      assert s.buffer[..k] == s.buffer;
      RestKept(s, Delivered(s));
    }
  }

  lemma OutKeepsStream(setup: Setup, s: State, s': State, l: Label)
    requires StreamOk(setup, s) && OutStep(setup, s, s', l)
    ensures StreamOk(setup, s')
  {
    hide Lines, FirstNewline, KillGroup;
    match l
    case OutDelivers => DeliverKeepsLines(s);
    case OutReads(n) => ReadKeepsStream(setup, s, s', n);
    case _ =>
  }

  lemma OutKeepsRest(setup: Setup, s: State, s': State, l: Label)
    requires EofOk(s) && CloseOk(s) && KillOk(s) && FinishOk(setup, s) && ReturnOk(setup, s) && OutStep(setup, s, s', l)
    ensures EofOk(s') && CloseOk(s') && KillOk(s') && FinishOk(setup, s') && ReturnOk(setup, s')
  {
    hide EofOk, CloseOk, KillOk, FinishOk, ReturnOk, OutStep;
    OutKeepsEof(setup, s, s', l);
    OutKeepsClose(setup, s, s', l);
    OutKeepsKill(setup, s, s', l);
    OutKeepsFinish(setup, s, s', l);
  }

  lemma OutKeepsEof(setup: Setup, s: State, s': State, l: Label)
    requires EofOk(s) && OutStep(setup, s, s', l)
    ensures EofOk(s')
  {
    hide OutHeld, ErrHeld, KillGroup, FirstNewline, DropReturn, Deliverable, GroupDoomed;
    KillKeepsHolders(s, s');
  }

  lemma OutKeepsClose(setup: Setup, s: State, s': State, l: Label)
    requires CloseOk(s) && OutStep(setup, s, s', l)
    ensures CloseOk(s')
  {
    hide OutHeld, KillGroup, FirstNewline, DropReturn, Deliverable;
  }

  lemma OutKeepsKill(setup: Setup, s: State, s': State, l: Label)
    requires KillOk(s) && OutStep(setup, s, s', l)
    ensures KillOk(s')
  {
    hide OutHeld, ErrHeld, KillGroup, FirstNewline, DropReturn, Deliverable, GroupDoomed;
    KillKeepsHolders(s, s');
  }

  lemma OutKeepsFinish(setup: Setup, s: State, s': State, l: Label)
    requires CloseOk(s) && EofOk(s) && FinishOk(setup, s) && ReturnOk(setup, s) && OutStep(setup, s, s', l)
    ensures FinishOk(setup, s') && ReturnOk(setup, s')
  {
    hide OutHeld, ErrHeld, KillGroup, FirstNewline, DropReturn, Deliverable;
  }

  lemma StepKeepsInv(setup: Setup, s: State, s': State, l: Label)
    requires Inv(setup, s) && Next(setup, s, s', l)
    ensures Inv(setup, s')
  {
    hide LinesOk, GroupDoomed, OutHeld, ErrHeld, KillGroup, FirstNewline, DropReturn, EofOk, CloseOk, KillOk;
    if EnvironmentStep(s, s', l) {
      EnvironmentKeepsStream(setup, s, s', l);
      EnvironmentKeeps(setup, s, s', l);
    } else if WatcherStep(s, s', l) {
      StreamFrame(setup, s, s');
      WatcherKeepsRest(setup, s, s', l);
    } else if OutStep(setup, s, s', l) {
      OutKeepsStream(setup, s, s', l);
      OutKeepsRest(setup, s, s', l);
    } else if ErrStep(s, s', l) {
      StreamFrame(setup, s, s');
      ErrKeepsRest(setup, s, s', l);
    } else {
      StreamFrame(setup, s, s');
      MainKeepsRest(setup, s, s', l);
    }
  }

  lemma InitialInv(setup: Setup, s: State)
    requires Initial(s)
    ensures Inv(setup, s)
  {
  }

  lemma {:induction false} RunKeepsInv(setup: Setup, trace: seq<State>, n: nat)
    requires IsRun(setup, trace) && n < |trace|
    ensures Inv(setup, trace[n])
    decreases n
  {
    hide Next, BufferOk, LinesOk, OutHeld, ErrHeld, GroupDoomed, Drained, StopRequested, FinalClose;
    if n > 0 {
      RunKeepsInv(setup, trace, n - 1);
      assert StepTo(setup, trace, n);
      var l :| Next(setup, trace[n - 1], trace[n], l);
      StepKeepsInv(setup, trace[n - 1], trace[n], l);
    } else {
      InitialInv(setup, trace[0]);
    }
  }

  /** A nil error is never partial output: without a line overflow both pipes were read to
      EOF, nobody can still write, and a scan's callback saw exactly the lines of the stream. */
  lemma SuccessIsWhole(setup: Setup, trace: seq<State>)
    requires IsRun(setup, trace)
    requires trace[|trace| - 1].main == Returned(Ok) && trace[|trace| - 1].out != Done(TooLong)
    ensures var s := trace[|trace| - 1];
            && s.outRead == |s.outWritten| && s.errRead == |s.errWritten|
            && (forall p :: p in s.procs ==> !s.procs[p].holdsOut && !s.procs[p].holdsErr)
            && (setup.scanning ==> s.lines == Lines(s.outWritten))
            && (!setup.scanning ==> s.buffer == s.outWritten)
  {
    RunKeepsInv(setup, trace, |trace| - 1);
    var s := trace[|trace| - 1];
    assert s.outWritten[..|s.outWritten|] == s.outWritten;
  }

  /** Only the main thread moves itself; an ended context stays ended and a watcher gone stays gone. */
  lemma MainAlone(setup: Setup, s: State, s': State, l: Label)
    requires Next(setup, s, s', l) && !MainStep(s, s', l)
    ensures s'.main == s.main && (s.ended ==> s'.ended) && (s.watcher.Gone? ==> s'.watcher.Gone?)
  {
    hide MainStep, EnvironmentStep, OutStep, KillGroup, OutHeld, ErrHeld;
    if EnvironmentStep(s, s', l) {
      EnvironmentFrame(s, s', l);
    } else if OutStep(setup, s, s', l) {
      OutFrame(setup, s, s', l);
    }
  }

  lemma EnvironmentFrame(s: State, s': State, l: Label)
    requires EnvironmentStep(s, s', l)
    ensures s'.main == s.main && (s.ended ==> s'.ended) && s'.watcher == s.watcher
  {
  }

  lemma OutFrame(setup: Setup, s: State, s': State, l: Label)
    requires OutStep(setup, s, s', l)
    ensures s'.main == s.main && s'.ended == s.ended && s'.watcher == s.watcher
  {
    hide KillGroup, FirstNewline, DropReturn, Deliverable, OutHeld;
  }

  /** And so exactly the lines that were written one after another, a last one not ended among them. */
  lemma CallbackSees(setup: Setup, trace: seq<State>, ls: seq<ByteString>, long: nat -> bool, last: ByteString)
    requires IsRun(setup, trace) && setup.scanning
    requires trace[|trace| - 1].main == Returned(Ok) && trace[|trace| - 1].out != Done(TooLong)
    requires (forall i :: 0 <= i < |ls| ==> PlainLine(ls[i])) && PlainLine(last)
    requires trace[|trace| - 1].outWritten == Written(ls, long) + last
    ensures trace[|trace| - 1].lines == ls + if last == [] then [] else [last]
  {
    SuccessIsWhole(setup, trace);
    WrittenLines(ls, long, last);
  }

  lemma DecidedOpen(setup: Setup, s: State, s': State, l: Label)
    requires Next(setup, s, s', l) && !s.main.Returned? && s'.main == Returned(Ok)
    ensures s.main.Deciding? && !s.ended
  {
    hide Next;
    if !MainStep(s, s', l) {
      MainAlone(setup, s, s', l);
    }
  }

  lemma VerdictStays(setup: Setup, s: State, s': State, l: Label)
    requires Next(setup, s, s', l) && s.main.Returned?
    ensures s'.main == s.main
  {
    hide Next;
    if !MainStep(s, s', l) {
      MainAlone(setup, s, s', l);
    }
  }

  /** The context has the last word: a run that returned a nil error decided so at a step that found
      the context open, whatever happened to it afterwards. */
  lemma {:induction false} SuccessBeforeDeadline(setup: Setup, trace: seq<State>) returns (k: nat)
    requires IsRun(setup, trace) && trace[|trace| - 1].main == Returned(Ok)
    ensures 0 < k < |trace| && trace[k - 1].main.Deciding? && !trace[k - 1].ended
    ensures forall j :: k <= j < |trace| ==> trace[j].main == Returned(Ok)
    decreases |trace|
  {
    var n := |trace| - 1;
    DecidedOrBefore(setup, trace, n);
    if trace[n - 1].main.Returned? {
      ShorterRun(setup, trace, n);
      k := SuccessBeforeDeadline(setup, trace[..n]);
    } else {
      k := n;
    }
  }

  lemma ShorterRun(setup: Setup, trace: seq<State>, n: nat)
    requires IsRun(setup, trace) && 0 < n <= |trace|
    ensures IsRun(setup, trace[..n])
  {
    forall k | 0 < k < n ensures StepTo(setup, trace[..n], k) {
      assert StepTo(setup, trace, k);
    }
  }

  lemma DecidedOrBefore(setup: Setup, trace: seq<State>, n: nat)
    requires IsRun(setup, trace) && n == |trace| - 1 && trace[n].main == Returned(Ok)
    ensures n > 0 && (trace[n - 1].main == Returned(Ok) || (trace[n - 1].main.Deciding? && !trace[n - 1].ended))
  {
    assert StepTo(setup, trace, n);
    var l :| Next(setup, trace[n - 1], trace[n], l);
    if trace[n - 1].main.Returned? {
      VerdictStays(setup, trace[n - 1], trace[n], l);
    } else {
      DecidedOpen(setup, trace[n - 1], trace[n], l);
    }
  }

  /** What a verdict says of the run. */
  predicate VerdictTold(s: State) {
    s.main.Returned? ==>
      && Drained(s)
      && match s.main.verdict
         case Expired => s.ended
         case EmitError => s.out.outcome == Rejected
         case ReadError => s.out.outcome != Rejected && (s.out.outcome == ReadFailed || s.err.outcome == ReadFailed)
         case Ok => s.out.outcome != Rejected && s.out.outcome != ReadFailed && s.err.outcome != ReadFailed
  }

  lemma StepKeepsVerdict(setup: Setup, s: State, s': State, l: Label)
    requires VerdictTold(s) && Next(setup, s, s', l)
    ensures VerdictTold(s')
  {
    hide Next, EnvironmentStep, OutStep;
    if !MainStep(s, s', l) {
      MainAlone(setup, s, s', l);
      if s.main.Returned? {
        DrainedStays(setup, s, s', l);
      }
    }
  }

  lemma DrainedStays(setup: Setup, s: State, s': State, l: Label)
    requires Drained(s) && Next(setup, s, s', l)
    ensures s'.out == s.out && s'.err == s.err
  {
    hide OutStep, ErrStep, KillGroup, Decision;
    OutDone(setup, s, s', l);
    ErrDone(s, s', l);
    OthersLeaveDrainers(setup, s, s', l);
  }

  lemma OutDone(setup: Setup, s: State, s': State, l: Label)
    requires s.out.Done?
    ensures !OutStep(setup, s, s', l)
  {
    hide KillGroup, FirstNewline, Deliverable, OutHeld;
  }

  lemma ErrDone(s: State, s': State, l: Label)
    requires s.err.Done?
    ensures !ErrStep(s, s', l)
  {
    hide ErrHeld;
  }

  /** The drainers and what stdout has come to stay as they are. */
  predicate DrainersSame(s: State, s': State) {
    && s'.out == s.out && s'.err == s.err
    && s'.buffer == s.buffer && s'.lines == s.lines && s'.outSource == s.outSource
  }

  lemma EnvironmentQuiet(s: State, s': State, l: Label)
    requires EnvironmentStep(s, s', l)
    ensures DrainersSame(s, s')
  {
  }

  lemma WatcherQuiet(s: State, s': State, l: Label)
    requires WatcherStep(s, s', l)
    ensures DrainersSame(s, s')
  {
    hide KillGroup;
  }

  lemma MainQuiet(s: State, s': State, l: Label)
    requires MainStep(s, s', l)
    ensures DrainersSame(s, s')
  {
    hide KillGroup, Decision;
  }

  lemma OthersLeaveDrainers(setup: Setup, s: State, s': State, l: Label)
    requires Next(setup, s, s', l) && !OutStep(setup, s, s', l) && !ErrStep(s, s', l)
    ensures DrainersSame(s, s')
  {
    hide OutStep, ErrStep, EnvironmentStep, WatcherStep, MainStep;
    if EnvironmentStep(s, s', l) {
      EnvironmentQuiet(s, s', l);
    } else if WatcherStep(s, s', l) {
      WatcherQuiet(s, s', l);
    } else {
      MainQuiet(s, s', l);
    }
  }

  /** A rejected line is what a call reports unless its context has ended, a read that failed unless
      a line was rejected, and success only when neither happened. */
  lemma {:induction false} VerdictExplained(setup: Setup, trace: seq<State>, n: nat)
    requires IsRun(setup, trace) && n < |trace|
    ensures VerdictTold(trace[n])
    decreases n
  {
    hide Next, VerdictTold;
    if n > 0 {
      VerdictExplained(setup, trace, n - 1);
      assert StepTo(setup, trace, n);
      var l :| Next(setup, trace[n - 1], trace[n], l);
      StepKeepsVerdict(setup, trace[n - 1], trace[n], l);
    } else {
      NotReturned(trace[0]);
    }
  }

  lemma NotReturned(s: State)
    requires Initial(s)
    ensures VerdictTold(s)
  {
  }

  /** In every reachable state the read ends were closed at most once; once the call has
      returned, they are closed, the leader is gone and no group member is left alive. */
  lemma CleanedUp(setup: Setup, trace: seq<State>)
    requires IsRun(setup, trace)
    ensures var s := trace[|trace| - 1];
            && s.closes <= 1
            && (s.main.Returned? ==>
                  && s.closed && 0 !in s.procs && s.watcher.Gone? && s.out.Done? && s.err.Done?
                  && forall p :: p in s.procs && s.procs[p].inGroup ==> s.procs[p].doomed)
  {
    RunKeepsInv(setup, trace, |trace| - 1);
    WatcherGoneAtReturn(setup, trace, |trace| - 1);
  }

  // ---- the line cap ----

  /** Lines handed over stay below the cap, and only a cap's worth of bytes without a newline overflows. */
  predicate CapKept(cap: nat, s: State) {
    && |s.buffer| <= cap
    && (forall i :: 0 <= i < |s.lines| ==> |s.lines[i]| < cap)
    && (s.outSource.Ended? ==> s.outSource.outcome != TooLong
                               && (FirstNewline(s.buffer) == |s.buffer| ==> |s.buffer| < cap))
    && (s.out == Done(TooLong) ==> |s.buffer| == cap && 10 !in s.buffer)
  }

  lemma NewlineFound(s: ByteString)
    ensures FirstNewline(s) == |s| <==> 10 !in s
  {
    if FirstNewline(s) == |s| {
      assert forall i :: 0 <= i < |s| ==> s[i] != 10;
    }
  }

  lemma DropShortens(line: ByteString)
    ensures |DropReturn(line)| <= |line|
  {
  }

  /** A newline after the first is not the first of what is left, unless none is. */
  lemma DeliveredKeepsCap(cap: nat, s: State)
    requires CapKept(cap, s) && Deliverable(s) && !s.out.Done?
    ensures CapKept(cap, Delivered(s))
  {
    var k := FirstNewline(s.buffer);
    DropShortens(s.buffer[..k]);
  }

  lemma OutStepKeepsCap(setup: Setup, s: State, s': State, l: Label)
    requires CapKept(setup.lineCap, s) && setup.scanning && OutStep(setup, s, s', l)
    ensures CapKept(setup.lineCap, s')
  {
    hide KillGroup, OutHeld, FirstNewline, DropReturn;
    NewlineFound(s.buffer);
    if l.OutDelivers? {
      DeliveredKeepsCap(setup.lineCap, s);
    }
  }

  lemma StepKeepsCap(setup: Setup, s: State, s': State, l: Label)
    requires CapKept(setup.lineCap, s) && setup.scanning && Next(setup, s, s', l)
    ensures CapKept(setup.lineCap, s')
  {
    hide OutStep, KillGroup, FirstNewline, OutHeld, ErrHeld;
    if OutStep(setup, s, s', l) {
      OutStepKeepsCap(setup, s, s', l);
    } else {
      OthersLeaveOutput(setup, s, s', l);
    }
  }

  lemma OthersLeaveOutput(setup: Setup, s: State, s': State, l: Label)
    requires Next(setup, s, s', l) && !OutStep(setup, s, s', l)
    ensures s'.buffer == s.buffer && s'.lines == s.lines && s'.outSource == s.outSource && s'.out == s.out
  {
    hide OutStep, EnvironmentStep, WatcherStep, MainStep, ErrHeld;
    if !ErrStep(s, s', l) {
      OthersLeaveDrainers(setup, s, s', l);
    }
  }

  /** In every run the callback gets only lines shorter than the cap, and a stream overflows only when
      as many bytes as the cap are buffered without a newline. */
  lemma {:induction false} LinesWithinCap(setup: Setup, trace: seq<State>, n: nat)
    requires IsRun(setup, trace) && n < |trace| && setup.scanning && setup.lineCap > 0
    ensures forall i :: 0 <= i < |trace[n].lines| ==> |trace[n].lines[i]| < setup.lineCap
    ensures trace[n].out == Done(TooLong) ==> |trace[n].buffer| == setup.lineCap && 10 !in trace[n].buffer
    ensures CapKept(setup.lineCap, trace[n])
    decreases n
  {
    hide Next, FirstNewline;
    if n > 0 {
      LinesWithinCap(setup, trace, n - 1);
      assert StepTo(setup, trace, n);
      var l :| Next(setup, trace[n - 1], trace[n], l);
      StepKeepsCap(setup, trace[n - 1], trace[n], l);
    }
  }

  predicate WatcherJoined(s: State) {
    StopRequested(s.main) && !s.main.AwaitingWatcher? ==> s.watcher.Gone?
  }

  lemma StepKeepsWatcherJoined(setup: Setup, s: State, s': State, l: Label)
    requires WatcherJoined(s) && Next(setup, s, s', l)
    ensures WatcherJoined(s')
  {
    hide Next;
    if !MainStep(s, s', l) {
      MainAlone(setup, s, s', l);
    }
  }

  lemma {:induction false} WatcherGoneAtReturn(setup: Setup, trace: seq<State>, n: nat)
    requires IsRun(setup, trace) && n < |trace|
    ensures WatcherJoined(trace[n])
    decreases n
  {
    if n > 0 {
      WatcherGoneAtReturn(setup, trace, n - 1);
      assert StepTo(setup, trace, n);
      var l :| Next(setup, trace[n - 1], trace[n], l);
      StepKeepsWatcherJoined(setup, trace[n - 1], trace[n], l);
    }
  }
}
