/** After the deadline the call returns whatever the environment does: a rank over the
    call's own threads (and the kernel's delivery of SIGKILL to the leader) never grows,
    every own step that matters lowers it, and one is enabled until the call has returned. */
module SubprocProgress {
  import opened SubprocMachine
  import opened SubprocSafety

  function MainRank(m: Main): nat {
    match m
    case Waiting => 9
    case Selecting => 8
    case Disconnecting => 7
    case AwaitingDrains => 6
    case StoppingWatcher => 5
    case AwaitingWatcher => 4
    case KillingGroup => 3
    case ClosingEnds => 2
    case Deciding => 1
    case Returned(_) => 0
  }

  function WatcherRank(w: Watcher): nat {
    match w
    case Watching => 2
    case Firing => 1
    case Gone => 0
  }

  function OutRank(d: Drainer, source: Source): nat {
    match d
    case Reading => if source.Open? then 4 else 3
    case InCallback => if source.Open? then 4 else 3
    case KillingChild => 2
    case ClosingPipes => 1
    case Done(_) => 0
  }

  function Rank(s: State): nat {
    MainRank(s.main) + WatcherRank(s.watcher) + OutRank(s.out, s.outSource)
    + (if s.err.Done? then 0 else 1) + (if LEADER in s.procs then 1 else 0)
  }

  /** What is buffered only counts once nothing more can be read. */
  function Backlog(s: State): nat {
    if s.closed || s.outSource.Ended? then 2 * |s.buffer| + (if s.out.InCallback? then 1 else 0) else 0
  }

  predicate NoMore(s': State, s: State) {
    Rank(s') < Rank(s) || (Rank(s') == Rank(s) && Backlog(s') <= Backlog(s))
  }

  predicate Less(s': State, s: State) {
    Rank(s') < Rank(s) || (Rank(s') == Rank(s) && Backlog(s') < Backlog(s))
  }

  /** Own steps, except handling a stream that is still being read. */
  predicate Counts(s: State, l: Label) {
    match l
    case EndContext => false
    case Fork(_, _) => false
    case Leave(_) => false
    case Drop(_, _, _) => false
    case WriteOut(_, _) => false
    case WriteErr(_, _) => false
    case Exit(pid) => pid == LEADER
    case OutReads(_) => false
    case ErrReads(_) => false
    case OutDelivers => s.closed || s.outSource.Ended?
    case CallbackReturns(accept) => !accept || s.closed || s.outSource.Ended?
    case _ => true
  }

  lemma EnvironmentRank(s: State, s': State, l: Label)
    requires EnvironmentStep(s, s', l)
    ensures NoMore(s', s) && (Counts(s, l) ==> Less(s', s))
  {
  }

  lemma WatcherLowers(s: State, s': State, l: Label)
    requires WatcherStep(s, s', l)
    ensures Less(s', s)
  {
  }

  lemma OutRanks(setup: Setup, s: State, s': State, l: Label)
    requires OutStep(setup, s, s', l)
    ensures NoMore(s', s) && (Counts(s, l) ==> Less(s', s))
  {
    match l {
      case OutDelivers => assert s'.out.InCallback? && |s'.buffer| < |s.buffer|;
      case OutCloses => assert s'.out.Done?;
      case _ =>
    }
  }

  lemma ErrRanks(s: State, s': State, l: Label)
    requires ErrStep(s, s', l)
    ensures NoMore(s', s) && (Counts(s, l) ==> Less(s', s))
  {
  }

  lemma MainLowers(s: State, s': State, l: Label)
    requires MainStep(s, s', l)
    ensures Less(s', s)
  {
  }

  lemma StepRanks(setup: Setup, s: State, s': State, l: Label)
    requires Next(setup, s, s', l)
    ensures NoMore(s', s) && (Counts(s, l) ==> Less(s', s))
  {
    if EnvironmentStep(s, s', l) {
      EnvironmentRank(s, s', l);
    } else if WatcherStep(s, s', l) {
      WatcherLowers(s, s', l);
    } else if OutStep(setup, s, s', l) {
      OutRanks(setup, s, s', l);
    } else if ErrStep(s, s', l) {
      ErrRanks(s, s', l);
    } else {
      MainLowers(s, s', l);
    }
  }

  /** Over a whole run the measure never grows. */
  lemma {:induction false} RankAlongRun(setup: Setup, trace: seq<State>, i: nat, j: nat)
    requires IsRun(setup, trace) && i <= j < |trace|
    ensures NoMore(trace[j], trace[i])
    decreases j
  {
    if i < j {
      RunStepRanks(setup, trace, j);
      RankAlongRun(setup, trace, i, j - 1);
    }
  }

  lemma RunStepRanks(setup: Setup, trace: seq<State>, j: nat)
    requires IsRun(setup, trace) && 0 < j < |trace|
    ensures NoMore(trace[j], trace[j - 1])
  {
    assert StepTo(setup, trace, j);
    var l :| Next(setup, trace[j - 1], trace[j], l);
    StepRanks(setup, trace[j - 1], trace[j], l);
  }

  // ---- who can move ----

  /** Who makes a step: a thread of the call, the kernel delivering SIGKILL to the leader, or others. */
  datatype Thread = MainThread | WatcherThread | OutThread | ErrThread | Kernel | Others

  function ThreadOf(l: Label): Thread {
    match l
    case Exit(pid) => if pid == LEADER then Kernel else Others
    case WatcherFires => WatcherThread
    case WatcherKills => WatcherThread
    case WatcherStops => WatcherThread
    case OutReads(_) => OutThread
    case OutEnds(_) => OutThread
    case OutDelivers => OutThread
    case CallbackReturns(_) => OutThread
    case OutOverflows => OutThread
    case OutFinishes => OutThread
    case OutKills => OutThread
    case OutCloses => OutThread
    case ErrReads(_) => ErrThread
    case ErrEnds(_) => ErrThread
    case EndContext => Others
    case Fork(_, _) => Others
    case Leave(_) => Others
    case Drop(_, _, _) => Others
    case WriteOut(_, _) => Others
    case WriteErr(_, _) => Others
    case _ => MainThread
  }

  /** The thread has a step waiting that nobody else can take away. */
  predicate Ready(t: Thread, s: State) {
    match t
    case MainThread =>
      (match s.main
       case Waiting => LEADER !in s.procs
       case AwaitingDrains => Drained(s)
       case AwaitingWatcher => s.watcher.Gone?
       case Deciding => Drained(s)
       case Returned(_) => false
       case _ => true)
    case WatcherThread => s.ended && !s.watcher.Gone?
    case OutThread => s.closed && !s.out.Done?
    case ErrThread => s.closed && !s.err.Done?
    case Kernel => LEADER in s.procs && s.procs[LEADER].doomed
    case Others => false
  }

  /** Past the deadline some thread is ready until the call has returned. */
  lemma SomeReady(setup: Setup, s: State) returns (t: Thread)
    requires Inv(setup, s) && s.ended && !s.main.Returned?
    ensures Ready(t, s)
  {
    t := match s.main
         case Waiting =>
           if LEADER !in s.procs then MainThread else if s.watcher.Gone? then Kernel else WatcherThread
         case AwaitingDrains => if !s.out.Done? then OutThread else if !s.err.Done? then ErrThread else MainThread
         case AwaitingWatcher => if s.watcher.Gone? then MainThread else WatcherThread
         case _ => MainThread;
  }

  lemma MainEnabled(setup: Setup, s: State) returns (l: Label, s': State)
    requires s.ended && Ready(MainThread, s)
    ensures Next(setup, s, s', l) && ThreadOf(l) == MainThread
  {
    hide MainStep;
    l, s' := MainMoves(s);
  }

  lemma MainMoves(s: State) returns (l: Label, s': State)
    requires s.ended && Ready(MainThread, s)
    ensures MainStep(s, s', l) && ThreadOf(l) == MainThread
  {
    match s.main {
      case Waiting => l, s' := MainReaps, s.(main := Selecting);
      case Selecting => l, s' := MainSeesDeadline, s.(main := Disconnecting);
      case Disconnecting => l, s' := MainDisconnects, CloseEnds(s).(main := AwaitingDrains);
      case AwaitingDrains => l, s' := MainSeesDrained, s.(main := StoppingWatcher);
      case StoppingWatcher => l, s' := MainStopsWatcher, s.(main := AwaitingWatcher);
      case AwaitingWatcher => l, s' := MainSeesWatcherGone, s.(main := KillingGroup);
      case KillingGroup => l, s' := MainKills, s.(main := ClosingEnds, procs := KillGroup(s.procs));
      case ClosingEnds => l, s' := MainCloses, CloseEnds(s).(main := Deciding);
      case Deciding => l, s' := MainDecides, s.(main := Returned(Decision(s)));
    }
  }

  /** A disconnected drainer finishes: what it buffered is delivered, then it stops. */
  lemma OutEnabled(setup: Setup, s: State) returns (l: Label, s': State)
    requires EofOk(s) && Ready(OutThread, s)
    requires !setup.scanning ==> s.out.Reading? || s.out.Done?
    ensures Next(setup, s, s', l) && ThreadOf(l) == OutThread
  {
    hide OutStep;
    l, s' := OutMoves(setup, s);
  }

  lemma OutMoves(setup: Setup, s: State) returns (l: Label, s': State)
    requires EofOk(s) && Ready(OutThread, s)
    requires !setup.scanning ==> s.out.Reading? || s.out.Done?
    ensures OutStep(setup, s, s', l) && ThreadOf(l) == OutThread
  {
    if s.out.InCallback? {
      l, s' := CallbackReturns(true), s.(out := Reading);
    } else if s.out.KillingChild? {
      l, s' := OutKills, s.(out := ClosingPipes, procs := KillGroup(s.procs));
    } else if s.out.ClosingPipes? {
      l, s' := OutCloses, CloseEnds(s).(out := Done(Rejected));
    } else if setup.scanning && Deliverable(s) {
      l, s' := OutDelivers, Delivered(s);
    } else if s.outSource.Ended? {
      l, s' := OutFinishes, s.(out := Done(s.outSource.outcome));
    } else if setup.scanning && |s.buffer| >= setup.lineCap {
      if s.buffer == [] {
        assert FirstNewline(s.buffer) == |s.buffer|;
      }
      l, s' := OutOverflows, s.(out := Done(TooLong));
    } else {
      if s.buffer == [] {
        assert FirstNewline(s.buffer) == |s.buffer|;
      }
      l, s' := OutEnds(Disconnected), s.(outSource := Ended(Disconnected));
    }
  }

  /** A ready thread has a step to take. */
  lemma ReadyEnabled(setup: Setup, t: Thread, s: State) returns (l: Label, s': State)
    requires Inv(setup, s) && s.ended && Ready(t, s)
    ensures Next(setup, s, s', l) && ThreadOf(l) == t
  {
    match t {
      case MainThread => l, s' := MainEnabled(setup, s);
      case WatcherThread =>
        if s.watcher.Watching? {
          l, s' := WatcherFires, s.(watcher := Firing);
        } else {
          l, s' := WatcherKills, s.(watcher := Gone, procs := KillGroup(s.procs));
        }
      case OutThread => l, s' := OutEnabled(setup, s);
      case ErrThread => l, s' := ErrEnds(Disconnected), s.(err := Done(Disconnected));
      case Kernel => l, s' := Exit(LEADER), s.(procs := s.procs - {LEADER});
    }
  }

  /** Readiness lasts until the thread itself takes a step. */
  lemma ReadyStays(setup: Setup, t: Thread, s: State, s': State, l: Label)
    requires Next(setup, s, s', l) && Ready(t, s) && ThreadOf(l) != t
    ensures Ready(t, s')
  {
    if EnvironmentStep(s, s', l) {
      ReadyOutside(t, s, s', l);
    } else if WatcherStep(s, s', l) {
      ReadyPastWatcher(t, s, s', l);
    } else if OutStep(setup, s, s', l) {
      ReadyPastOut(setup, t, s, s', l);
    } else if ErrStep(s, s', l) {
      ReadyPastErr(t, s, s', l);
    } else {
      ReadyPastMain(t, s, s', l);
    }
  }

  lemma ReadyOutside(t: Thread, s: State, s': State, l: Label)
    requires EnvironmentStep(s, s', l) && Ready(t, s) && ThreadOf(l) != t
    ensures Ready(t, s')
  {
  }

  lemma ReadyPastWatcher(t: Thread, s: State, s': State, l: Label)
    requires WatcherStep(s, s', l) && Ready(t, s) && t != WatcherThread
    ensures Ready(t, s')
  {
  }

  lemma ReadyPastOut(setup: Setup, t: Thread, s: State, s': State, l: Label)
    requires OutStep(setup, s, s', l) && Ready(t, s) && t != OutThread
    ensures Ready(t, s')
  {
  }

  lemma ReadyPastErr(t: Thread, s: State, s': State, l: Label)
    requires ErrStep(s, s', l) && Ready(t, s) && t != ErrThread
    ensures Ready(t, s')
  {
  }

  lemma ReadyPastMain(t: Thread, s: State, s': State, l: Label)
    requires MainStep(s, s', l) && Ready(t, s) && t != MainThread
    ensures Ready(t, s')
  {
  }

  /** And that step lowers the measure. */
  lemma ReadyCounts(setup: Setup, t: Thread, s: State, s': State, l: Label)
    requires Next(setup, s, s', l) && Ready(t, s) && ThreadOf(l) == t
    ensures Counts(s, l)
  {
  }

  lemma EndedStays(setup: Setup, s: State, s': State, l: Label)
    requires Next(setup, s, s', l) && s.ended
    ensures s'.ended && (s'.main.Returned? ==> s.main.Returned? || s'.main == Returned(Expired))
  {
    hide Next, MainStep;
    if MainStep(s, s', l) {
      MainDecidesExpired(s, s', l);
    } else {
      MainAlone(setup, s, s', l);
    }
  }

  lemma MainDecidesExpired(s: State, s': State, l: Label)
    requires MainStep(s, s', l) && s.ended
    ensures s'.ended && (s'.main.Returned? ==> s'.main == Returned(Expired))
  {
  }

  /** After the deadline the call is never stuck. */
  lemma DeadlineProgress(setup: Setup, s: State) returns (l: Label, s': State)
    requires Inv(setup, s) && s.ended && !s.main.Returned?
    ensures Next(setup, s, s', l) && Counts(s, l) && Less(s', s) && s'.ended
    ensures s'.main.Returned? ==> s'.main == Returned(Expired)
  {
    var t := SomeReady(setup, s);
    l, s' := ReadyEnabled(setup, t, s);
    ReadyCounts(setup, t, s, s', l);
    StepRanks(setup, s, s', l);
    EndedStays(setup, s, s', l);
  }

  /** From any reachable state after the deadline, with any holders left, the call's own steps
      lead to a return, and that return reports expiry. */
  lemma {:induction false} DeadlineReturns(setup: Setup, trace: seq<State>) returns (longer: seq<State>)
    requires IsRun(setup, trace) && trace[|trace| - 1].ended && !trace[|trace| - 1].main.Returned?
    ensures IsRun(setup, longer) && trace <= longer
    ensures longer[|longer| - 1].main == Returned(Expired)
    decreases Rank(trace[|trace| - 1]), Backlog(trace[|trace| - 1])
  {
    var s := trace[|trace| - 1];
    RunKeepsInv(setup, trace, |trace| - 1);
    var l, s' := DeadlineProgress(setup, s);
    longer := trace + [s'];
    ExtendRun(setup, trace, s', l);
    if !s'.main.Returned? {
      longer := DeadlineReturns(setup, longer);
    }
  }

  lemma ExtendRun(setup: Setup, trace: seq<State>, s': State, l: Label)
    requires IsRun(setup, trace) && Next(setup, trace[|trace| - 1], s', l)
    ensures IsRun(setup, trace + [s'])
  {
    var longer := trace + [s'];
    forall k | 0 < k < |longer|
      ensures StepTo(setup, longer, k)
    {
      if k < |trace| {
        assert StepTo(setup, trace, k);
      } else {
        assert Next(setup, longer[k - 1], longer[k], l);
      }
    }
  }
}
