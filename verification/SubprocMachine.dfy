/** One child process run as interleaved steps: the main thread, the deadline watcher
    and two pipe drainers against an environment of processes that fork, write, leave
    the process group and exit, and a context that may end at any moment. */
module SubprocMachine {
  import opened Bytes

  /** A process that may hold the write ends; a doomed one can only die. */
  datatype Process = Process(inGroup: bool, doomed: bool, holdsOut: bool, holdsErr: bool)

  const LEADER: nat := 0

  datatype Watcher = Watching | Firing | Gone

  datatype Outcome = Eof | Disconnected | TooLong | Rejected | ReadFailed

  /** What the last read of a pipe reported. */
  datatype Source = Open | Ended(outcome: Outcome)

  datatype Drainer = Reading | InCallback | KillingChild | ClosingPipes | Done(outcome: Outcome)

  datatype Verdict = Ok | Expired | EmitError | ReadError

  datatype Main =
    | Waiting
    | Selecting
    | Disconnecting
    | AwaitingDrains
    | StoppingWatcher
    | AwaitingWatcher
    | KillingGroup
    | ClosingEnds
    | Deciding
    | Returned(verdict: Verdict)

  /** Fixed by the call: whether stdout goes line by line to a callback, and the line cap. */
  datatype Setup = Setup(scanning: bool, lineCap: nat)

  datatype State = State(
    procs: map<nat, Process>, ended: bool,
    outWritten: ByteString, outRead: nat, errWritten: ByteString, errRead: nat,
    closed: bool, closes: nat,
    main: Main, watcher: Watcher, out: Drainer, err: Drainer,
    outSource: Source, buffer: ByteString, lines: seq<ByteString>)

  datatype Label =
    // environment
    | EndContext
    | Fork(parent: nat, child: nat)
    | Leave(pid: nat)
    | Drop(pid: nat, keepOut: bool, keepErr: bool)
    | WriteOut(pid: nat, data: ByteString)
    | WriteErr(pid: nat, data: ByteString)
    | Exit(pid: nat)
    // watcher
    | WatcherFires
    | WatcherKills
    | WatcherStops
    // stdout drainer
    | OutReads(n: nat)
    | OutEnds(outcome: Outcome)
    | OutDelivers
    | CallbackReturns(accept: bool)
    | OutOverflows
    | OutFinishes
    | OutKills
    | OutCloses
    // stderr drainer
    | ErrReads(n: nat)
    | ErrEnds(outcome: Outcome)
    // main thread
    | MainReaps
    | MainSeesDrained
    | MainSeesDeadline
    | MainDisconnects
    | MainStopsWatcher
    | MainSeesWatcherGone
    | MainKills
    | MainCloses
    | MainDecides

  const NEWLINE: Byte := 10
  const RETURN: Byte := 13

  function DropReturn(line: ByteString): ByteString {
    if line != [] && line[|line| - 1] == RETURN then line[..|line| - 1] else line
  }

  /** Where the first newline is, or the length when there is none. */
  function FirstNewline(s: ByteString): (k: nat)
    ensures k <= |s|
    ensures k < |s| ==> s[k] == NEWLINE
    ensures forall j :: 0 <= j < k ==> s[j] != NEWLINE
  {
    if s == [] || s[0] == NEWLINE then 0 else 1 + FirstNewline(s[1..])
  }

  /** The lines of a whole stream; a last line needs no newline. */
  function Lines(s: ByteString): seq<ByteString>
    decreases |s|
  {
    if s == [] then []
    else
      var k := FirstNewline(s);
      if k == |s| then [DropReturn(s)] else [DropReturn(s[..k])] + Lines(s[k + 1..])
  }

  predicate OutHeld(s: State) {
    exists p :: p in s.procs && s.procs[p].holdsOut
  }

  predicate ErrHeld(s: State) {
    exists p :: p in s.procs && s.procs[p].holdsErr
  }

  function KillGroup(procs: map<nat, Process>): map<nat, Process> {
    map p | p in procs :: if procs[p].inGroup then procs[p].(doomed := true) else procs[p]
  }

  /** Closing happens once however many times it is asked for. */
  function CloseEnds(s: State): State {
    if s.closed then s else s.(closed := true, closes := s.closes + 1)
  }

  predicate Alive(s: State, pid: nat) {
    pid in s.procs && !s.procs[pid].doomed
  }

  predicate Drained(s: State) {
    s.out.Done? && s.err.Done?
  }

  predicate StopRequested(m: Main) {
    !(m.Waiting? || m.Selecting? || m.Disconnecting? || m.AwaitingDrains? || m.StoppingWatcher?)
  }

  function Decision(s: State): Verdict
    requires Drained(s)
  {
    if s.ended then Expired
    else if s.out.outcome.Rejected? then EmitError
    else if s.out.outcome.ReadFailed? || s.err.outcome.ReadFailed? then ReadError
    else Ok
  }

  predicate EnvironmentStep(s: State, s': State, l: Label) {
    match l
    case EndContext => s' == s.(ended := true)
    case Fork(parent, child) =>
      Alive(s, parent) && child !in s.procs && child != LEADER && s' == s.(procs := s.procs[child := s.procs[parent]])
    case Leave(pid) =>
      Alive(s, pid) && pid != LEADER && s' == s.(procs := s.procs[pid := s.procs[pid].(inGroup := false)])
    case Drop(pid, keepOut, keepErr) =>
      Alive(s, pid) && s' == s.(procs := s.procs[pid := s.procs[pid].(
                                  holdsOut := s.procs[pid].holdsOut && keepOut,
                                  holdsErr := s.procs[pid].holdsErr && keepErr)])
    case WriteOut(pid, data) =>
      Alive(s, pid) && s.procs[pid].holdsOut && s' == s.(outWritten := s.outWritten + data)
    case WriteErr(pid, data) =>
      Alive(s, pid) && s.procs[pid].holdsErr && s' == s.(errWritten := s.errWritten + data)
    case Exit(pid) => pid in s.procs && s' == s.(procs := s.procs - {pid})
    case _ => false
  }

  predicate WatcherStep(s: State, s': State, l: Label) {
    match l
    case WatcherFires => s.watcher.Watching? && s.ended && s' == s.(watcher := Firing)
    case WatcherKills => s.watcher.Firing? && s' == s.(watcher := Gone, procs := KillGroup(s.procs))
    case WatcherStops => s.watcher.Watching? && StopRequested(s.main) && s' == s.(watcher := Gone)
    case _ => false
  }

  predicate Deliverable(s: State) {
    s.buffer != [] && (FirstNewline(s.buffer) < |s.buffer| || s.outSource.Ended?)
  }

  /** The first buffered line leaves the buffer together with its newline. */
  function Delivered(s: State): State {
    var k := FirstNewline(s.buffer);
    s.(out := InCallback, lines := s.lines + [DropReturn(s.buffer[..k])],
       buffer := if k < |s.buffer| then s.buffer[k + 1..] else [])
  }

  /** Reading and, when scanning, handing one buffered line at a time to the callback. A read
      error ends the stream like EOF does: what is buffered is still delivered. */
  predicate OutStep(setup: Setup, s: State, s': State, l: Label) {
    match l
    case OutReads(n) =>
      && s.out.Reading? && s.outSource.Open? && !s.closed && 0 < n && s.outRead + n <= |s.outWritten|
      && (setup.scanning ==> FirstNewline(s.buffer) == |s.buffer| && |s.buffer| + n <= setup.lineCap)
      && s' == s.(buffer := s.buffer + s.outWritten[s.outRead..s.outRead + n], outRead := s.outRead + n)
    case OutEnds(outcome) =>
      && s.out.Reading? && s.outSource.Open?
      && (setup.scanning ==> FirstNewline(s.buffer) == |s.buffer| && |s.buffer| < setup.lineCap)
      && (match outcome
          case Eof => !s.closed && s.outRead == |s.outWritten| && !OutHeld(s)
          case Disconnected => s.closed
          case ReadFailed => !s.closed
          case _ => false)
      && s' == s.(outSource := Ended(outcome))
    case OutDelivers => setup.scanning && s.out.Reading? && Deliverable(s) && s' == Delivered(s)
    case CallbackReturns(accept) =>
      s.out.InCallback? && s' == s.(out := if accept then Reading else KillingChild)
    case OutOverflows =>
      && setup.scanning && s.out.Reading? && s.outSource.Open?
      && |s.buffer| >= setup.lineCap && FirstNewline(s.buffer) == |s.buffer|
      && s' == s.(out := Done(TooLong))
    case OutFinishes =>
      && s.out.Reading? && s.outSource.Ended? && (setup.scanning ==> s.buffer == [])
      && s' == s.(out := Done(s.outSource.outcome))
    case OutKills => s.out.KillingChild? && s' == s.(out := ClosingPipes, procs := KillGroup(s.procs))
    case OutCloses => s.out.ClosingPipes? && s' == CloseEnds(s).(out := Done(Rejected))
    case _ => false
  }

  predicate ErrStep(s: State, s': State, l: Label) {
    match l
    case ErrReads(n) =>
      s.err.Reading? && !s.closed && 0 < n && s.errRead + n <= |s.errWritten| && s' == s.(errRead := s.errRead + n)
    case ErrEnds(outcome) =>
      && s.err.Reading?
      && (match outcome
          case Eof => !s.closed && s.errRead == |s.errWritten| && !ErrHeld(s)
          case Disconnected => s.closed
          case ReadFailed => !s.closed
          case _ => false)
      && s' == s.(err := Done(outcome))
    case _ => false
  }

  predicate MainStep(s: State, s': State, l: Label) {
    match l
    case MainReaps => s.main.Waiting? && LEADER !in s.procs && s' == s.(main := Selecting)
    case MainSeesDrained =>
      (s.main.Selecting? || s.main.AwaitingDrains?) && Drained(s) && s' == s.(main := StoppingWatcher)
    case MainSeesDeadline => s.main.Selecting? && s.ended && s' == s.(main := Disconnecting)
    case MainDisconnects => s.main.Disconnecting? && s' == CloseEnds(s).(main := AwaitingDrains)
    case MainStopsWatcher => s.main.StoppingWatcher? && s' == s.(main := AwaitingWatcher)
    case MainSeesWatcherGone => s.main.AwaitingWatcher? && s.watcher.Gone? && s' == s.(main := KillingGroup)
    case MainKills => s.main.KillingGroup? && s' == s.(main := ClosingEnds, procs := KillGroup(s.procs))
    case MainCloses => s.main.ClosingEnds? && s' == CloseEnds(s).(main := Deciding)
    case MainDecides => s.main.Deciding? && Drained(s) && s' == s.(main := Returned(Decision(s)))
    case _ => false
  }

  predicate Next(setup: Setup, s: State, s': State, l: Label) {
    || EnvironmentStep(s, s', l) || WatcherStep(s, s', l) || OutStep(setup, s, s', l) || ErrStep(s, s', l)
    || MainStep(s, s', l)
  }

  /** The child has just been started, alone in its group, and holds both write ends. */
  predicate Initial(s: State) {
    s == State(map[LEADER := Process(true, false, true, true)], s.ended, [], 0, [], 0, false, 0,
               Waiting, Watching, Reading, Reading, Open, [], [])
  }

  ghost predicate Step(setup: Setup, s: State, s': State) {
    exists l :: Next(setup, s, s', l)
  }

  ghost predicate StepTo(setup: Setup, trace: seq<State>, k: nat)
    requires 0 < k < |trace|
  {
    Step(setup, trace[k - 1], trace[k])
  }

  ghost predicate IsRun(setup: Setup, trace: seq<State>) {
    trace != [] && Initial(trace[0]) && forall k :: 0 < k < |trace| ==> StepTo(setup, trace, k)
  }
}
