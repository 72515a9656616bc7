/** The engine itself: one exclusively locked invocation over the durable store, with
    every environment choice (cancellation, I/O errors, the provider's answer, the
    passing of time) left open. Each effect extends `trace`, and `Valid` says that the
    trace is a run of the protocol, so all that is proved of runs holds of the engine,
    cut short at any effect. */
module BatchEngine {
  import opened BatchManifest
  import opened BatchOutcomes
  import opened BatchProtocol
  import opened BatchSafety
  import opened Options

  datatype Verdict = Verified(ref: ResultRef) | Absent | Unverified

  datatype InvocationResult = InvocationResult(
    attempted: int, totalAttempts: int, pending: int, succeeded: int, failed: int, uncertain: int,
    complete: bool, budgetExhausted: bool)

  const NOTHING := InvocationResult(0, 0, 0, 0, 0, 0, false, false)

  function CountStatus(items: seq<Item>, status: Status): nat {
    if items == [] then 0
    else CountStatus(items[..|items| - 1], status) + (if items[|items| - 1].status == status then 1 else 0)
  }

  function SumAttempts(items: seq<Item>): int {
    if items == [] then 0 else SumAttempts(items[..|items| - 1]) + items[|items| - 1].attempts
  }

  /** A running record counts as uncertain; a job is complete when nothing else is left. */
  function Summary(job: Job, attempted: int, budgetExhausted: bool): InvocationResult {
    var pending := CountStatus(job.items, Pending);
    var failed := CountStatus(job.items, Failed);
    var uncertain := CountStatus(job.items, Running) + CountStatus(job.items, Uncertain);
    InvocationResult(attempted, SumAttempts(job.items), pending, CountStatus(job.items, Succeeded), failed, uncertain,
                     pending == 0 && failed == 0 && uncertain == 0, budgetExhausted)
  }

  lemma {:induction false} CountsPartition(items: seq<Item>)
    ensures CountStatus(items, Pending) + CountStatus(items, Running) + CountStatus(items, Succeeded)
            + CountStatus(items, Failed) + CountStatus(items, Uncertain) == |items|
    decreases |items|
  {
    if items != [] {
      CountsPartition(items[..|items| - 1]);
    }
  }

  lemma {:induction false} FullCount(items: seq<Item>, status: Status)
    ensures CountStatus(items, status) <= |items|
    ensures CountStatus(items, status) == |items| <==> forall i :: 0 <= i < |items| ==> items[i].status == status
    decreases |items|
  {
    if items != [] {
      var front := items[..|items| - 1];
      FullCount(front, status);
      assert forall i :: 0 <= i < |front| ==> front[i] == items[i];
    }
  }

  /** In every summary of a job the counts add up to its items, and complete means all succeeded. */
  lemma SummaryAddsUp(job: Job, attempted: int, budgetExhausted: bool)
    ensures var r := Summary(job, attempted, budgetExhausted);
            && r.pending + r.succeeded + r.failed + r.uncertain == |job.items|
            && (r.complete <==> forall i :: 0 <= i < |job.items| ==> job.items[i].status.Succeeded?)
  {
    CountsPartition(job.items);
    FullCount(job.items, Succeeded);
  }

  lemma CountsOneMore(items: seq<Item>, i: nat)
    requires i < |items|
    ensures SumAttempts(items[..i + 1]) == SumAttempts(items[..i]) + items[i].attempts
    ensures forall status :: CountStatus(items[..i + 1], status) ==
                             CountStatus(items[..i], status) + (if items[i].status == status then 1 else 0)
  {
    assert items[..i + 1][..i] == items[..i];
  }

  method Summarize(job: Job, attempted: int, budgetExhausted: bool) returns (r: InvocationResult)
    ensures r == Summary(job, attempted, budgetExhausted)
  {
    r := InvocationResult(attempted, 0, 0, 0, 0, 0, false, budgetExhausted);
    assert forall status :: CountStatus([], status) == 0;
    assert SumAttempts([]) == 0 && job.items[..0] == [];
    hide CountStatus, SumAttempts;
    var i := 0;
    while i < |job.items|
      invariant 0 <= i <= |job.items|
      invariant r.attempted == attempted && r.budgetExhausted == budgetExhausted
      invariant r.totalAttempts == SumAttempts(job.items[..i])
      invariant r.pending == CountStatus(job.items[..i], Pending)
      invariant r.succeeded == CountStatus(job.items[..i], Succeeded)
      invariant r.failed == CountStatus(job.items[..i], Failed)
      invariant r.uncertain == CountStatus(job.items[..i], Running) + CountStatus(job.items[..i], Uncertain)
    {
      var item := job.items[i];
      CountsOneMore(job.items, i);
      r := r.(totalAttempts := r.totalAttempts + item.attempts);
      match item.status {
        case Pending => r := r.(pending := r.pending + 1);
        case Running => r := r.(uncertain := r.uncertain + 1);
        case Succeeded => r := r.(succeeded := r.succeeded + 1);
        case Failed => r := r.(failed := r.failed + 1);
        case Uncertain => r := r.(uncertain := r.uncertain + 1);
      }
      i := i + 1;
    }
    assert job.items[..i] == job.items;
    r := r.(complete := r.pending == 0 && r.failed == 0 && r.uncertain == 0);
  }

  /** The requests called, in order. */
  function Requested(h: seq<Event>): seq<ExecutionRequest> {
    if h == [] then []
    else Requested(h[..|h| - 1]) + (if h[|h| - 1].Called? then [h[|h| - 1].request] else [])
  }

  lemma RequestedMore(h: seq<Event>, e: Event)
    ensures Requested(h + [e]) == Requested(h) + (if e.Called? then [e.request] else [])
  {
    assert (h + [e])[..|h|] == h;
  }

  predicate Eligible(item: Item, options: InvocationOptions) {
    match item.status
    case Pending => true
    case Failed => options.retryFailed
    case Uncertain => options.retryUncertain
    case _ => false
  }

  /** The requests for the eligible among the first n items, in order. */
  function Due(job: Job, options: InvocationOptions, n: nat): seq<ExecutionRequest>
    requires n <= |job.items|
  {
    if n == 0 then []
    else
      var item := job.items[n - 1];
      Due(job, options, n - 1) + if Eligible(item, options) then [NextRequest(job, item)] else []
  }

  lemma {:induction false} DuePrefix(job: Job, options: InvocationOptions, m: nat, n: nat)
    requires m <= n <= |job.items|
    ensures Due(job, options, m) <= Due(job, options, n)
    decreases n
  {
    if m < n {
      DuePrefix(job, options, m, n - 1);
    }
  }

  /** Only pending items are called for unasked; failed and uncertain ones exactly when the options say
      so, each for its own reason; succeeded and running ones never. */
  lemma {:induction false} DueExactly(job: Job, options: InvocationOptions, n: nat, request: ExecutionRequest)
    requires n <= |job.items|
    ensures request in Due(job, options, n) <==>
            exists i :: 0 <= i < n && request == NextRequest(job, job.items[i])
                        && (|| job.items[i].status == Pending
                            || (job.items[i].status == Failed && options.retryFailed)
                            || (job.items[i].status == Uncertain && options.retryUncertain))
  {
    hide NextRequest;
    if n > 0 {
      DueExactly(job, options, n - 1, request);
    }
  }

  lemma {:induction false} SameDue(job: Job, job': Job, options: InvocationOptions, n: nat)
    requires job'.header == job.header && job'.id == job.id && job'.items == job.items && n <= |job.items|
    ensures Due(job', options, n) == Due(job, options, n)
  {
    if n > 0 {
      SameDue(job, job', options, n - 1);
    }
  }

  /** An item as reconciliation leaves it. */
  function RestoredItem(item: Item, results: map<ItemId, Envelope>): Item {
    if item.status.Running? || item.status.Uncertain? then Recovered(item, results) else item
  }

  function Restored(job: Job, results: map<ItemId, Envelope>): (r: Job)
    ensures |r.items| == |job.items| && r.header == job.header && r.id == job.id
  {
    job.(items := seq(|job.items|, i requires 0 <= i < |job.items| => RestoredItem(job.items[i], results)))
  }

  predicate HasStatus(job: Job, status: Status) {
    exists i :: 0 <= i < |job.items| && job.items[i].status == status
  }

  lemma ExtendRun(trace: seq<State>, s': State, l: Label)
    requires IsRun(trace) && Next(trace[|trace| - 1], s', l)
    ensures IsRun(trace + [s'])
  {
    var longer := trace + [s'];
    forall k | 0 < k < |longer|
      ensures Step(longer[k - 1], longer[k])
    {
      if k < |trace| {
        assert Step(trace[k - 1], trace[k]);
      } else {
        assert Next(longer[k - 1], longer[k], l);
      }
    }
  }

  lemma LastInv(trace: seq<State>)
    requires IsRun(trace)
    ensures trace != [] && Inv(trace[|trace| - 1])
  {
    RunKeepsInv(trace, |trace| - 1);
  }

  lemma LastReturns(trace: seq<State>)
    requires IsRun(trace)
    ensures ReturnedBy(trace[|trace| - 1].history, trace[|trace| - 1].now)
  {
    LastInv(trace);
  }

  lemma LastReady(trace: seq<State>)
    requires IsRun(trace) && trace[|trace| - 1].flight.Ready?
    ensures NoneRunning(trace[|trace| - 1].manifest)
    ensures RecordedBut(trace[|trace| - 1].manifest, trace[|trace| - 1].results, -1)
  {
    LastInv(trace);
  }

  /** What is on disk is always in order. */
  lemma LastDurable(trace: seq<State>)
    requires IsRun(trace)
    ensures var s := trace[|trace| - 1]; JobOk(s.manifest) && ResultsOk(s.manifest, s.results)
  {
    LastInv(trace);
  }

  /** No step of the protocol is one that a save would refuse. */
  lemma SavesValid(trace: seq<State>, after: State, l: Label)
    requires IsRun(trace) && Next(trace[|trace| - 1], after, l)
    ensures JobOk(after.manifest) && after.manifest.id == trace[|trace| - 1].manifest.id
  {
    hide IsRun, Next;
    LastInv(trace);
    StepKeepsInv(trace[|trace| - 1], after, l);
    StepGrows(trace[|trace| - 1], after, l);
  }

  /** An admitted invocation has recorded every published result, so no other item has one. */
  lemma ReadyUnpublished(trace: seq<State>, index: nat)
    requires IsRun(trace) && trace[|trace| - 1].flight.Ready? && index < |trace[|trace| - 1].manifest.items|
    requires !trace[|trace| - 1].manifest.items[index].status.Succeeded?
    ensures trace[|trace| - 1].manifest.items[index].planned.id !in trace[|trace| - 1].results
  {
    LastReady(trace);
  }

  /** What the disk says of an item agrees with its record, or can still be brought to. */
  predicate Agrees(item: Item, v: Verdict) {
    match item.status
    case Succeeded => v.Verified? && item.result == Some(v.ref)
    case Pending => v.Absent?
    case Failed => v.Absent?
    case _ => !v.Unverified?
  }

  /** On disk every record agrees with what is published. */
  lemma VerdictAgrees(trace: seq<State>, index: nat, v: Verdict, troubled: bool)
    requires IsRun(trace) && index < |trace[|trace| - 1].manifest.items|
    requires var s := trace[|trace| - 1];
             && (v.Verified? ==> s.manifest.items[index].planned.id in s.results
                                 && v.ref == s.results[s.manifest.items[index].planned.id].result)
             && (v.Absent? ==> s.manifest.items[index].planned.id !in s.results)
             && (v.Unverified? ==> troubled)
    ensures Agrees(trace[|trace| - 1].manifest.items[index], v) || troubled
  {
    hide IsRun, JobOk;
    LastDurable(trace);
  }

  /** An answer comes for an item that has no result yet. */
  lemma AnsweredUnpublished(trace: seq<State>)
    requires IsRun(trace) && trace[|trace| - 1].flight.Answered?
    ensures var s := trace[|trace| - 1];
            s.flight.i < |s.manifest.items| && s.manifest.items[s.flight.i].planned.id !in s.results
  {
    hide IsRun;
    LastInv(trace);
  }

  lemma LastAnswered(trace: seq<State>)
    requires IsRun(trace) && trace[|trace| - 1].flight.Answered?
    ensures var s := trace[|trace| - 1];
            && s.flight.i < |s.manifest.items| && s.manifest.items[s.flight.i].status.Running?
            && ReturnedBy(s.history, s.now)
            && forall j :: 0 <= j < s.flight.i ==>
                 s.manifest.items[j].planned.id != s.manifest.items[s.flight.i].planned.id
  {
    LastInv(trace);
  }

  lemma SameId(job: Job, i: nat, item: Item)
    requires i < |job.items| && item.planned.id == job.items[i].planned.id
    ensures JobOk(job) && item in job.items ==> job.items[i] == item
  {
    if JobOk(job) && item in job.items {
      var j :| 0 <= j < |job.items| && job.items[j] == item;
    }
  }

  /** The first item under the request's identity is the one it was made for. */
  lemma FoundAt(job: Job, i: nat, index: nat, request: ExecutionRequest)
    requires i < |job.items| && request == RequestFor(job, job.items[i]) && index <= |job.items|
    requires forall j :: 0 <= j < i ==> job.items[j].planned.id != request.itemId
    requires forall j :: 0 <= j < index ==> job.items[j].planned.id != request.itemId
    requires index < |job.items| ==> job.items[index].planned.id == request.itemId
    ensures index == i && job.items[i].planned.id == request.itemId && request.model == job.header.model
  {
  }

  /** The commit's own checks of what it is to publish. */
  predicate Publishable(job: Job, request: ExecutionRequest, output: ExecutionOutput) {
    && |output.content| != 0 && |output.content| <= MAX_RESULT_CONTENT_BYTES && output.validUtf8
    && output.modelUsed == request.model && output.modelUsed == job.header.model
  }

  /** Every response in the history is the provider's to that request. */
  predicate AnsweredBy(h: seq<Event>, provider: ExecutionRequest -> Response) {
    forall p :: 0 <= p < |h| && h[p].Returned? ==> h[p].response == provider(h[p].request)
  }

  /** One machine: the disk, the clock, and the invocation that holds the job lock. */
  class Host {
    /** Whether the n-th thing left to the surroundings goes wrong: a disk operation fails, the context
        is cancelled, a source has changed, the lock is refused or lost. */
    const trouble: nat -> bool
    /** What comes of each request; no two attempts make the same one. */
    const provider: ExecutionRequest -> Response
    var asked: nat
    var manifest: Job
    var results: map<ItemId, Envelope>
    var locked: bool
    var now: Instant
    ghost var flight: Flight
    ghost var history: seq<Event>
    ghost var trace: seq<State>

    ghost function Here(): State
      reads this
    {
      State(manifest, results, flight, now, history)
    }

    /** Something has gone wrong from the m-th time on and before the n-th. */
    ghost predicate Troubled(m: nat, n: nat) { exists k :: m <= k < n && trouble(k) }

    ghost predicate Valid()
      reads this
    {
      IsRun(trace) && trace[|trace| - 1] == Here() && (!locked ==> flight.Idle?) && AnsweredBy(history, provider)
    }

    constructor (job: Job, start: Instant, trouble: nat -> bool, provider: ExecutionRequest -> Response)
      requires PlannedJob(job)
      ensures Valid() && !locked && manifest == job && results == map[] && history == []
      ensures this.trouble == trouble && this.provider == provider
    {
      this.trouble, this.provider, asked := trouble, provider, 0;
      manifest, results, locked, now := job, map[], false, start;
      flight, history := Idle, [];
      trace := [State(job, map[], Idle, start, [])];
    }

    ghost method Record(l: Label)
      requires IsRun(trace) && Next(trace[|trace| - 1], Here(), l)
      requires (!locked ==> flight.Idle?) && AnsweredBy(history, provider)
      modifies this`trace
      ensures Valid() && trace == old(trace) + [Here()]
    {
      ExtendRun(trace, Here(), l);
      trace := trace + [Here()];
    }

    method GoesWrong() returns (wrong: bool)
      modifies this`asked
      ensures asked == old(asked) + 1 && wrong == trouble(old(asked))
    {
      wrong := trouble(asked);
      asked := asked + 1;
    }

    /** Time passes; the clock never runs backwards. */
    method Elapse()
      requires Valid()
      modifies this`now, this`trace
      ensures Valid() && old(trace) <= trace && old(now) <= now
    {
      var delay: int := *;
      now := now + if delay < 0 then 0 else delay;
      Record(Tick(now));
    }

    /** The process dies or returns early: only the disk and the clock remain. */
    method Stop()
      requires Valid()
      modifies this`flight, this`locked, this`trace
      ensures Valid() && !locked && flight.Idle? && old(trace) <= trace
    {
      locked := false;
      flight := Idle;
      Record(Abort);
    }

    method Lock() returns (ok: bool)
      requires Valid()
      modifies this`locked, this`flight, this`history, this`trace, this`asked
      ensures Valid() && old(trace) <= trace && old(asked) <= asked
      ensures !ok ==> Here() == old(Here()) && locked == old(locked)
      ensures !ok ==> old(locked) || Troubled(old(asked), asked)
      ensures ok ==> !old(locked) && locked
                     && Here() == old(Here()).(flight := Recovering, history := old(history) + [Began])
    {
      hide IsRun;
      var refused := GoesWrong();
      if locked || refused {
        return false;
      }
      locked, flight, history := true, Recovering, history + [Began];
      Record(Begin);
      return true;
    }

    method Load() returns (job: Option<Job>)
      requires Valid()
      modifies this`asked
      ensures Valid() && old(asked) <= asked
      ensures if job.Some? then job.value == manifest && JobOk(manifest) else Troubled(old(asked), asked)
    {
      hide IsRun, JobOk, ResultsOk;
      LastDurable(trace);
      var failed := GoesWrong();
      var valid := ValidateJob(manifest);
      if failed || !valid {
        return None;
      }
      return Some(manifest);
    }

    /** The rename: the new manifest is in place at once. */
    method Replace(job: Job, ghost after: State, ghost l: Label)
      requires Valid() && locked
      requires Next(Here(), after, l) && after.manifest == job && after.results == results && after.now == now
      requires AnsweredBy(after.history, provider)
      modifies this`manifest, this`flight, this`history, this`trace
      ensures Valid() && old(trace) <= trace && Here() == after
    {
      hide IsRun, Next;
      manifest := job;
      flight, history := after.flight, after.history;
      Record(l);
    }

    /** Replace the manifest; a write may take effect and still be reported as failed. */
    method Save(job: Job, ghost after: State, ghost l: Label) returns (ok: bool)
      requires Valid() && locked
      requires Next(Here(), after, l) && after.manifest == job && after.results == results && after.now == now
      requires AnsweredBy(after.history, provider)
      modifies this
      ensures Valid() && old(trace) <= trace && locked && results == old(results) && old(now) <= now
      ensures old(asked) <= asked && (!ok ==> Troubled(old(asked), asked))
      ensures ok ==> Here() == after.(now := now)
      ensures !ok ==> flight.Idle? && (history == old(history) || history == after.history)
    {
      hide IsRun, Next, JobOk;
      SavesValid(trace, after, l);
      var cancelled := GoesWrong();
      var valid := ValidateJob(job);
      var current := Load();
      if cancelled || !valid || current.None? || current.value.id != job.id {
        Abandon();
        return false;
      }
      Replace(job, after, l);
      Elapse();
      var unsynced := GoesWrong();
      if unsynced {
        Abandon();
        return false;
      }
      return true;
    }

    /** An early return: only the disk, the clock and the lock remain. */
    ghost method Abandon()
      requires Valid()
      modifies this`flight, this`trace
      ensures Valid() && old(trace) <= trace && flight.Idle?
    {
      hide IsRun;
      flight := Idle;
      Record(Abort);
    }

    method FindExactItem(item: Item) returns (found: bool)
      ensures found ==> item in manifest.items
      ensures JobOk(manifest) && item in manifest.items ==> found
    {
      var i := 0;
      while i < |manifest.items|
        invariant 0 <= i <= |manifest.items| && item !in manifest.items[..i]
      {
        if manifest.items[i].planned.id == item.planned.id {
          SameId(manifest, i, item);
          return manifest.items[i] == item;
        }
        i := i + 1;
      }
      return false;
    }

    /** Absence is the only state reported without an envelope and without an error, and an error
        about an item of the manifest is trouble with the disk. */
    method VerifyResult(item: Item) returns (v: Verdict)
      requires Valid()
      modifies this`asked
      ensures Valid() && old(asked) <= asked
      ensures v.Verified? ==> item in manifest.items && item.planned.id in results
                              && EnvelopeOk(manifest, item, results[item.planned.id])
                              && v.ref == results[item.planned.id].result
      ensures v.Absent? ==> item in manifest.items && item.planned.id !in results
      ensures v.Unverified? && item in manifest.items ==> Troubled(old(asked), asked)
    {
      hide IsRun, JobOk, EnvelopeOk;
      LastDurable(trace);
      var failed := GoesWrong();
      var found := FindExactItem(item);
      if failed || !found {
        return Unverified;
      }
      if item.planned.id !in results {
        return Absent;
      }
      var valid := ValidateEnvelope(manifest, item, results[item.planned.id]);
      if !valid {
        return Unverified;
      }
      return Verified(results[item.planned.id].result);
    }

    method FindItem(id: ItemId) returns (index: nat)
      ensures index <= |manifest.items| && forall j :: 0 <= j < index ==> manifest.items[j].planned.id != id
      ensures index < |manifest.items| ==> manifest.items[index].planned.id == id
    {
      index := 0;
      while index < |manifest.items| && manifest.items[index].planned.id != id
        invariant 0 <= index <= |manifest.items|
        invariant forall j :: 0 <= j < index ==> manifest.items[j].planned.id != id
      {
        index := index + 1;
      }
    }

    /** The link: the envelope is in place at once, under a name that nothing held. */
    method Link(item: Item, e: Envelope)
      requires Valid() && locked && flight.Answered? && flight.i < |manifest.items| && item == manifest.items[flight.i]
      requires item.planned.id !in results && Accepts(manifest.header.model, flight.response)
      requires e.content == flight.response.answer.output.content
      requires var request := RequestFor(manifest, item);
               e == Envelope(RESULT_SCHEMA_VERSION, request, RefFor(request, item.planned.resultPath, e.content),
                             e.content)
      modifies this`results, this`flight, this`history, this`trace
      ensures Valid() && old(trace) <= trace && flight == Committed(old(flight).i)
      ensures results == old(results)[item.planned.id := e] && Requested(history) == Requested(old(history))
      ensures forall at :: ReturnedBy(old(history), at) ==> ReturnedBy(history, at)
    {
      hide IsRun, RequestFor, RefFor, Requested;
      RequestedMore(history, Published(e));
      results := results[item.planned.id := e];
      flight, history := Committed(flight.i), history + [Published(e)];
      Record(Publish);
    }

    /** The link, and the directory made durable. */
    method LinkDurably(item: Item, e: Envelope) returns (synced: bool)
      requires Valid() && locked && flight.Answered? && flight.i < |manifest.items| && item == manifest.items[flight.i]
      requires item.planned.id !in results && Accepts(manifest.header.model, flight.response)
      requires e.content == flight.response.answer.output.content
      requires var request := RequestFor(manifest, item);
               e == Envelope(RESULT_SCHEMA_VERSION, request, RefFor(request, item.planned.resultPath, e.content),
                             e.content)
      modifies this`now, this`results, this`flight, this`history, this`trace, this`asked
      ensures Valid() && old(trace) <= trace && old(now) <= now && flight == Committed(old(flight).i)
      ensures results == old(results)[item.planned.id := e] && Requested(history) == Requested(old(history))
      ensures forall at :: ReturnedBy(old(history), at) ==> ReturnedBy(history, at)
      ensures old(asked) <= asked && (!synced ==> Troubled(old(asked), asked))
    {
      hide IsRun, Next, RequestFor, RefFor, Requested, ReturnedBy;
      Link(item, e);
      Elapse();
      var unsynced := GoesWrong();
      synced := !unsynced;
    }

    /** Publish one envelope without replacing any; a link may be made and still be reported as failed. */
    method CommitResult(request: ExecutionRequest, output: ExecutionOutput) returns (ref: Option<ResultRef>)
      requires Valid() && locked && flight.Answered? && flight.i < |manifest.items|
      requires request == RequestFor(manifest, manifest.items[flight.i])
      requires manifest.items[flight.i].status.Running?
      requires forall j :: 0 <= j < flight.i ==> manifest.items[j].planned.id != request.itemId
      requires Usable(manifest.header.model, flight.response) && output == flight.response.answer.output
      modifies this
      ensures Valid() && old(trace) <= trace && locked && manifest == old(manifest) && old(now) <= now
      ensures Requested(history) == Requested(old(history))
      ensures forall at :: ReturnedBy(old(history), at) ==> ReturnedBy(history, at)
      ensures flight == old(flight) || flight == Committed(old(flight).i)
      ensures flight == old(flight) ==> Here() == old(Here()).(now := now)
      ensures ref.Some? ==> flight == Committed(old(flight).i) && request.itemId in results
                            && results[request.itemId].content == output.content
                            && ref.value == results[request.itemId].result
      ensures ref.Some? ==> Accepts(manifest.header.model, old(flight).response)
      ensures old(asked) <= asked
      ensures ref.None? ==> Troubled(old(asked), asked) || !Accepts(manifest.header.model, old(flight).response)
    {
      hide IsRun, Next, RequestFor, RefFor, Requested, ReturnedBy;
      AnsweredUnpublished(trace);
      var failed := GoesWrong();
      var index := FindItem(request.itemId);
      FoundAt(manifest, flight.i, index, request);
      if index == |manifest.items| || !manifest.items[index].status.Running?
         || request != RequestFor(manifest, manifest.items[index])
         || failed || !Publishable(manifest, request, output) || manifest.items[index].planned.id in results
      {
        return None;
      }
      var item := manifest.items[index];
      var e := Envelope(RESULT_SCHEMA_VERSION, request, RefFor(request, item.planned.resultPath, output.content),
                        output.content);
      var synced := LinkDurably(item, e);
      ref := if synced then Some(e.result) else None;
    }

    /** A call begins: no other state changes. */
    ghost method Calls(request: ExecutionRequest)
      requires Valid() && locked && flight.Armed? && flight.i < |manifest.items|
      requires request == RequestFor(manifest, manifest.items[flight.i])
      modifies this`flight, this`history, this`trace
      ensures Valid() && old(trace) <= trace && flight == Calling(old(flight).i)
      ensures history == old(history) + [Called(request, now)]
      ensures Requested(history) == Requested(old(history)) + [request]
    {
      hide IsRun, RequestFor, Requested;
      RequestedMore(history, Called(request, now));
      history := history + [Called(request, now)];
      flight := Calling(flight.i);
      Record(Call);
    }

    /** And ends. */
    ghost method Returns(request: ExecutionRequest, response: Response)
      requires Valid() && locked && flight.Calling? && flight.i < |manifest.items|
      requires request == RequestFor(manifest, manifest.items[flight.i]) && response == provider(request)
      modifies this`flight, this`history, this`trace
      ensures Valid() && old(trace) <= trace && flight == Answered(old(flight).i, response)
      ensures history == old(history) + [Returned(request, now, response)]
      ensures Requested(history) == Requested(old(history))
    {
      hide IsRun, RequestFor, Requested;
      RequestedMore(history, Returned(request, now, response));
      history := history + [Returned(request, now, response)];
      flight := Answered(flight.i, response);
      Record(Return(response));
    }

    /** One provider call, with no retry. */
    method Execute(request: ExecutionRequest) returns (response: Response)
      requires Valid() && locked && flight.Armed? && flight.i < |manifest.items|
      requires request == RequestFor(manifest, manifest.items[flight.i])
      modifies this`now, this`flight, this`history, this`trace
      ensures Valid() && old(trace) <= trace && old(now) <= now
      ensures response == provider(request) && flight == Answered(old(flight).i, response)
      ensures Requested(history) == Requested(old(history)) + [request]
      ensures ReturnedBy(old(history), old(now)) ==> ReturnedBy(history, now)
    {
      hide IsRun, RequestFor, Requested, AnsweredBy;
      Calls(request);
      Elapse();
      response := provider(request);
      Returns(request, response);
    }

    method WaitForPacing(notBefore: Instant) returns (ok: bool)
      requires Valid()
      modifies this`now, this`trace, this`asked
      ensures Valid() && old(trace) <= trace && old(now) <= now && old(asked) <= asked
      ensures if ok then notBefore <= now else Troubled(old(asked), asked)
    {
      hide IsRun;
      if notBefore - now > 0 {
        var interrupted := GoesWrong();
        if interrupted {
          return false;
        }
        now := notBefore;
        Record(Tick(now));
        Elapse();
      }
      return true;
    }
  }

  /** Reconciliation is done with the first n items. */
  predicate Reconciled(job: Job, results: map<ItemId, Envelope>, n: nat) {
    && n <= |job.items|
    && forall k :: 0 <= k < n ==>
         && !job.items[k].status.Running?
         && (job.items[k].planned.id in results ==>
               job.items[k].status.Succeeded? && job.items[k].result == Some(results[job.items[k].planned.id].result))
  }

  /** Compare every item with its result destination; turn running and uncertain items into
      succeeded or uncertain ones and restart the conservative pacing interval. No state that can be
      reached is refused: only trouble with the disk stops it. */
  method ReconcileInterrupted(host: Host, loaded: Job) returns (ok: bool, job: Job)
    requires host.Valid() && host.locked && host.flight.Recovering? && loaded == host.manifest
    modifies host
    ensures host.Valid() && host.locked && old(host.trace) <= host.trace && old(host.asked) <= host.asked
    ensures host.history == old(host.history) && host.results == old(host.results)
    ensures |job.items| == |loaded.items| && SameIdentity(job, loaded)
    ensures if ok then host.flight.Recovering? && job == host.manifest && Reconciled(job, host.results, |job.items|)
                       && job.items == Restored(loaded, host.results).items
            else host.Troubled(old(host.asked), host.asked)
  {
    hide IsRun;
    job := loaded;
    var index := 0;
    while index < |job.items|
      invariant host.Valid() && host.locked && old(host.trace) <= host.trace && old(host.asked) <= host.asked
      invariant host.history == old(host.history) && host.results == old(host.results)
      invariant host.flight.Recovering? && job == host.manifest && SameIdentity(job, loaded)
      invariant index <= |job.items| == |loaded.items| && Reconciled(job, host.results, index)
      invariant RestoredUpTo(job, loaded, host.results, index)
    {
      ok, job := ReconcileItem(host, job, index);
      if !ok {
        return;
      }
      index := index + 1;
    }
    RestoredAll(job, loaded, host.results);
    ok := true;
  }

  /** The same job: what makes up its requests beside the items. */
  predicate SameIdentity(job: Job, loaded: Job) { job.header == loaded.header && job.id == loaded.id }

  /** The first n items are reconciled, the others as they were. */
  predicate RestoredUpTo(job: Job, loaded: Job, results: map<ItemId, Envelope>, n: nat) {
    && |job.items| == |loaded.items|
    && forall k :: 0 <= k < |job.items| ==>
         job.items[k] == if k < n then RestoredItem(loaded.items[k], results) else loaded.items[k]
  }

  lemma RestoredAll(job: Job, loaded: Job, results: map<ItemId, Envelope>)
    requires RestoredUpTo(job, loaded, results, |loaded.items|)
    ensures job.items == Restored(loaded, results).items
  {
  }

  /** One item compared, and recovered if it was left running or uncertain. */
  method ReconcileItem(host: Host, loaded: Job, index: nat) returns (ok: bool, job: Job)
    requires host.Valid() && host.locked && host.flight.Recovering? && loaded == host.manifest
    requires index < |loaded.items| && Reconciled(loaded, host.results, index)
    modifies host
    ensures host.Valid() && host.locked && old(host.trace) <= host.trace && old(host.asked) <= host.asked
    ensures host.history == old(host.history) && host.results == old(host.results)
    ensures |job.items| == |loaded.items| && SameIdentity(job, loaded)
    ensures if ok then host.flight.Recovering? && job == host.manifest && Reconciled(job, host.results, index + 1)
                       && job.items == loaded.items[index := RestoredItem(loaded.items[index], host.results)]
            else host.Troubled(old(host.asked), host.asked)
  {
    hide IsRun, EnvelopeOk;
    job := loaded;
    var item := job.items[index];
    var verdict := host.VerifyResult(item);
    VerdictAgrees(host.trace, index, verdict, host.Troubled(old(host.asked), host.asked));
    if verdict.Unverified? {
      return false, job;
    }
    if item.status.Succeeded? {
      if !verdict.Verified? || item.result != Some(verdict.ref) {
        return false, job;
      }
    } else if item.status.Pending? || item.status.Failed? {
      if verdict.Verified? {
        return false, job;
      }
    } else {
      ok, job := RecoverItem(host, job, index, verdict);
      return;
    }
    ok := true;
  }

  method RecoverItem(host: Host, loaded: Job, index: nat, verdict: Verdict) returns (ok: bool, job: Job)
    requires host.Valid() && host.locked && host.flight.Recovering? && loaded == host.manifest && index < |loaded.items|
    requires loaded.items[index].status.Running? || loaded.items[index].status.Uncertain?
    requires verdict.Verified? ==> loaded.items[index].planned.id in host.results
                                   && verdict.ref == host.results[loaded.items[index].planned.id].result
    requires verdict.Absent? ==> loaded.items[index].planned.id !in host.results
    requires !verdict.Unverified?
    modifies host
    ensures host.Valid() && host.locked && old(host.trace) <= host.trace && old(host.asked) <= host.asked
    ensures host.history == old(host.history) && host.results == old(host.results)
    ensures |job.items| == |loaded.items| && SameIdentity(job, loaded)
    ensures if ok then host.flight.Recovering? && job == host.manifest
                       && job.items == loaded.items[index := Recovered(loaded.items[index], host.results)]
            else host.Troubled(old(host.asked), host.asked)
  {
    hide IsRun;
    var item := loaded.items[index];
    if verdict.Verified? {
      item := item.(result := Some(verdict.ref), status := Succeeded, failure := "");
    } else if item.status.Running? {
      item := item.(status := Uncertain, failure := INTERRUPTED);
    }
    host.Elapse();
    var at := host.now;
    var next := at + SpacingFor(loaded.header.model);
    job := loaded.(items := loaded.items[index := item]);
    if next > job.notBefore {
      job := job.(notBefore := next);
    }
    LastReturns(host.trace);
    ghost var after := host.Here().(manifest := job);
    ok := host.Save(job, after, Recover(index, at));
  }

  /** Some item stands failed or uncertain. */
  predicate Blocked(job: Job) { HasStatus(job, Failed) || HasStatus(job, Uncertain) }

  /** What an uncancelled, unexhausted invocation leaves behind. */
  predicate Drained(job: Job, options: InvocationOptions) {
    forall i :: 0 <= i < |job.items| ==>
      job.items[i].status.Succeeded? || (job.items[i].status.Uncertain? && options.skipUncertain)
  }

  predicate IsSummary(r: InvocationResult, items: nat) {
    r.pending + r.succeeded + r.failed + r.uncertain == items && (r.complete <==> r.succeeded == items)
  }

  method Report(job: Job, attempted: int, budgetExhausted: bool) returns (r: InvocationResult)
    ensures r == Summary(job, attempted, budgetExhausted) && IsSummary(r, |job.items|)
  {
    r := Summarize(job, attempted, budgetExhausted);
    SummaryAddsUp(job, attempted, budgetExhausted);
    FullCount(job.items, Succeeded);
  }

  /** The requests an invocation has to make: for the items eligible once reconciled, in order. */
  ghost function DueNow(host: Host, options: InvocationOptions): seq<ExecutionRequest>
    reads host
  {
    Due(Restored(host.manifest, host.results), options, |host.manifest.items|)
  }

  /** The i-th item has this as its last request and is left as the response to it has it. */
  predicate LeftAt(job: Job, provider: ExecutionRequest -> Response, request: ExecutionRequest, i: nat) {
    && i < |job.items| && RequestFor(job, job.items[i]) == request
    && Left(job.header.model, provider(request), job.items[i])
  }

  predicate LeftBefore(job: Job, provider: ExecutionRequest -> Response, request: ExecutionRequest, n: nat) {
    exists i :: 0 <= i < n && LeftAt(job, provider, request, i)
  }

  /** Every request is the last one of an item that is left as the response to it has it. */
  predicate EachLeft(job: Job, provider: ExecutionRequest -> Response, requests: seq<ExecutionRequest>) {
    forall k :: 0 <= k < |requests| ==> LeftBefore(job, provider, requests[k], |job.items|)
  }

  /** One invocation, from the options check to the unlock. It calls for the items that are due, in
      order, and without trouble leaves each as the provider's response has it. It fails only for bad
      options, a lock already held, trouble from the surroundings, or an item left failed or uncertain. */
  method Run(host: Host, options: InvocationOptions) returns (ok: bool, result: InvocationResult)
    requires host.Valid()
    modifies host
    ensures host.Valid() && host.locked == old(host.locked) && old(host.trace) <= host.trace
    ensures 0 <= result.attempted <= |old(DueNow(host, options))|
    ensures Requested(host.history) == Requested(old(host.history)) + old(DueNow(host, options))[..result.attempted]
    ensures host.Troubled(old(host.asked), host.asked)
            || EachLeft(host.manifest, host.provider, old(DueNow(host, options))[..result.attempted])
    ensures result.attempted <= options.maxCalls || result.attempted == 0
    ensures result == NOTHING || IsSummary(result, |old(host.manifest).items|)
    ensures ok ==> result == Summary(host.manifest, result.attempted, result.budgetExhausted)
                   && RecordedBut(host.manifest, host.results, -1) && NoneRunning(host.manifest)
    ensures ok && !result.budgetExhausted ==>
              Drained(host.manifest, options) && result.attempted == |old(DueNow(host, options))|
    ensures result.budgetExhausted ==> result.attempted == options.maxCalls < |old(DueNow(host, options))|
    ensures old(host.asked) <= host.asked
    ensures ok || result.attempted > 0 ==>
              1 <= options.maxCalls <= 100 && !(options.retryUncertain && options.skipUncertain)
    ensures ok || !(1 <= options.maxCalls <= 100) || (options.retryUncertain && options.skipUncertain)
            || old(host.locked) || host.Troubled(old(host.asked), host.asked) || Blocked(host.manifest)
    ensures !(1 <= options.maxCalls <= 100) || (options.retryUncertain && options.skipUncertain) || old(host.locked)
            || host.Troubled(old(host.asked), host.asked)
            || result == Summary(host.manifest, result.attempted, result.budgetExhausted)
  {
    hide IsRun, RecordedBut, NoneRunning, Drained, Blocked, Summary, IsSummary, JobOk, PlannedJob, Requested, Due,
         Restored, LeftBefore;
    if !OptionsOk(options) {
      return false, NOTHING;
    }
    var cancelled := host.GoesWrong();
    if cancelled {
      return false, NOTHING;
    }
    var locked := host.Lock();
    if !locked {
      return false, NOTHING;
    }
    RequestedMore(old(host.history), Began);
    assert Requested(old(host.history)) + [] == Requested(old(host.history));
    ok, result := RunLocked(host, options);
    host.Stop();
    var unlockFailed := host.GoesWrong();
    ok := ok && !unlockFailed;
  }

  method RunLocked(host: Host, options: InvocationOptions) returns (ok: bool, result: InvocationResult)
    requires OptionsOk(options)
    requires host.Valid() && host.locked && host.flight.Recovering?
    modifies host
    ensures host.Valid() && host.locked && old(host.trace) <= host.trace
    ensures 0 <= result.attempted <= options.maxCalls && result.attempted <= |old(DueNow(host, options))|
    ensures Requested(host.history) == Requested(old(host.history)) + old(DueNow(host, options))[..result.attempted]
    ensures host.Troubled(old(host.asked), host.asked)
            || EachLeft(host.manifest, host.provider, old(DueNow(host, options))[..result.attempted])
    ensures result == NOTHING || IsSummary(result, |old(host.manifest).items|)
    ensures ok ==> result == Summary(host.manifest, result.attempted, result.budgetExhausted)
                   && RecordedBut(host.manifest, host.results, -1) && NoneRunning(host.manifest)
    ensures ok && !result.budgetExhausted ==>
              Drained(host.manifest, options) && result.attempted == |old(DueNow(host, options))|
    ensures result.budgetExhausted ==> result.attempted == options.maxCalls < |old(DueNow(host, options))|
    ensures old(host.asked) <= host.asked
    ensures ok || host.Troubled(old(host.asked), host.asked) || Blocked(host.manifest)
    ensures host.Troubled(old(host.asked), host.asked)
            || result == Summary(host.manifest, result.attempted, result.budgetExhausted)
  {
    hide IsRun, RecordedBut, NoneRunning, Drained, Blocked, Due, Restored, LeftBefore, CountStatus, JobOk;
    var current := host.Load();
    if current.None? {
      return false, NOTHING;
    }
    var loaded := current.value;
    var admitted, job := Preflight(host, options, loaded);
    if !admitted {
      result := Report(job, 0, false);
      return false, result;
    }
    SameDue(Restored(loaded, host.results), job, options, |loaded.items|);
    var attempted, exhausted;
    ok, attempted, exhausted, job := CallItems(host, options, job);
    result := Report(job, attempted, exhausted);
  }

  /** Reconcile, recheck the sources, and refuse to pass over failed or uncertain items unasked. */
  method Preflight(host: Host, options: InvocationOptions, loaded: Job) returns (ok: bool, job: Job)
    requires host.Valid() && host.locked && host.flight.Recovering? && loaded == host.manifest
    modifies host
    ensures host.Valid() && host.locked && old(host.trace) <= host.trace && old(host.asked) <= host.asked
    ensures host.history == old(host.history) && host.results == old(host.results)
    ensures |job.items| == |loaded.items| && SameIdentity(job, loaded)
    ensures ok ==> host.flight.Ready? && job == host.manifest && NoneRunning(job)
                   && job.items == Restored(loaded, host.results).items
    ensures ok || host.Troubled(old(host.asked), host.asked) || Blocked(host.manifest)
    ensures host.Troubled(old(host.asked), host.asked) || job == host.manifest
    ensures ok && HasStatus(job, Failed) ==> options.retryFailed
    ensures ok && HasStatus(job, Uncertain) ==> options.retryUncertain || options.skipUncertain
  {
    hide IsRun;
    ok, job := ReconcileInterrupted(host, loaded);
    var sourcesChanged := host.GoesWrong();
    if !ok || sourcesChanged
       || (HasStatus(job, Failed) && !options.retryFailed)
       || (HasStatus(job, Uncertain) && !options.retryUncertain && !options.skipUncertain)
    {
      return false, job;
    }
    host.flight := Ready;
    host.Record(Admit);
  }

  /** The call loop of an admitted invocation. */
  method CallItems(host: Host, options: InvocationOptions, loaded: Job)
    returns (ok: bool, attempted: int, exhausted: bool, job: Job)
    requires host.Valid() && host.locked && host.flight.Ready? && loaded == host.manifest && NoneRunning(loaded)
    requires options.maxCalls >= 1
    requires HasStatus(loaded, Failed) ==> options.retryFailed
    requires HasStatus(loaded, Uncertain) ==> options.retryUncertain || options.skipUncertain
    modifies host
    ensures host.Valid() && host.locked && old(host.trace) <= host.trace && old(host.asked) <= host.asked
    ensures 0 <= attempted <= options.maxCalls && |job.items| == |loaded.items|
    ensures attempted <= |Due(loaded, options, |loaded.items|)|
    ensures Requested(host.history) ==
            Requested(old(host.history)) + Due(loaded, options, |loaded.items|)[..attempted]
    ensures host.Troubled(old(host.asked), host.asked)
            || EachLeft(host.manifest, host.provider, Due(loaded, options, |loaded.items|)[..attempted])
    ensures ok || host.Troubled(old(host.asked), host.asked) || Blocked(host.manifest)
    ensures ok ==> job == host.manifest && RecordedBut(job, host.results, -1) && NoneRunning(job)
    ensures ok && !exhausted ==> Drained(job, options) && attempted == |Due(loaded, options, |loaded.items|)|
    ensures exhausted ==> ok && attempted == options.maxCalls < |Due(loaded, options, |loaded.items|)|
    ensures host.Troubled(old(host.asked), host.asked) || job == host.manifest
  {
    hide IsRun, RecordedBut, Requested, NextRequest, LeftBefore, Blocked, Visited, Eligible, Drained, Due;
    NoneVisited(loaded, options);
    NoneLeftYet(loaded, host.provider);
    job, attempted := loaded, 0;
    var index := 0;
    while index < |job.items|
      invariant host.Valid() && host.locked && old(host.trace) <= host.trace && old(host.asked) <= host.asked
      invariant host.flight.Ready? && job == host.manifest && |job.items| == |loaded.items|
      invariant 0 <= index <= |job.items| && 0 <= attempted <= options.maxCalls
      invariant attempted == |Due(loaded, options, index)| && SameIdentity(job, loaded)
      invariant Requested(host.history) == Requested(old(host.history)) + Due(loaded, options, index)
      invariant EachLeftBefore(job, host.provider, Due(loaded, options, index), index)
      invariant forall k :: 0 <= k < |job.items| ==> Visited(job.items[k], loaded.items[k], options, k < index)
    {
      DueTaken(loaded, options, index);
      NotYet(job, loaded, options, index);
      if !Eligible(job.items[index], options) {
        LeftLater(job, host.provider, Due(loaded, options, index), index);
        OneMoreVisited(job, job, loaded, options, index);
        index := index + 1;
        continue;
      }
      if attempted == options.maxCalls {
        LastReady(host.trace);
        EachLeftWithin(job, host.provider, Due(loaded, options, index), index);
        DueSoFar(loaded, options, index);
        return true, attempted, true, job;
      }
      ghost var before := job;
      var called, done;
      called, done, job := AttemptNext(host, loaded, options, job, index);
      attempted := attempted + if called then 1 else 0;
      if !done {
        DueSoFar(loaded, options, index + 1);
        DueSoFar(loaded, options, index);
        return false, attempted, false, job;
      }
      OneMoreVisited(before, job, loaded, options, index);
      index := index + 1;
    }
    LastReady(host.trace);
    EachLeftWithin(job, host.provider, Due(loaded, options, index), index);
    AllVisited(job, loaded, options);
    return true, attempted, false, job;
  }

  /** What the loop makes of an item, once it is behind or still ahead. */
  predicate Visited(item: Item, loaded: Item, options: InvocationOptions, behind: bool) {
    if behind && Eligible(loaded, options) then item.status.Succeeded? else item == loaded
  }

  lemma NoneVisited(loaded: Job, options: InvocationOptions)
    ensures forall k :: 0 <= k < |loaded.items| ==> Visited(loaded.items[k], loaded.items[k], options, false)
    ensures Due(loaded, options, 0) == []
  {
  }

  /** The loop moves past one item. */
  lemma OneMoreVisited(before: Job, job: Job, loaded: Job, options: InvocationOptions, index: nat)
    requires index < |job.items| == |before.items| == |loaded.items|
    requires forall k :: 0 <= k < |job.items| ==> Visited(before.items[k], loaded.items[k], options, k < index)
    requires forall k :: 0 <= k < |job.items| && k != index ==> job.items[k] == before.items[k]
    requires if Eligible(before.items[index], options) then job.items[index].status.Succeeded?
             else job.items[index] == before.items[index]
    ensures before.items[index] == loaded.items[index]
    ensures forall k :: 0 <= k < |job.items| ==> Visited(job.items[k], loaded.items[k], options, k < index + 1)
  {
    assert Visited(before.items[index], loaded.items[index], options, false);
    forall k | 0 <= k < |job.items| ensures Visited(job.items[k], loaded.items[k], options, k < index + 1) {
      assert Visited(before.items[k], loaded.items[k], options, k < index);
    }
  }

  lemma NotYet(job: Job, loaded: Job, options: InvocationOptions, index: nat)
    requires index < |job.items| == |loaded.items| && Visited(job.items[index], loaded.items[index], options, false)
    ensures job.items[index] == loaded.items[index]
  {
  }

  lemma AllVisited(job: Job, loaded: Job, options: InvocationOptions)
    requires |job.items| == |loaded.items| && NoneRunning(loaded)
    requires forall k :: 0 <= k < |job.items| ==> Visited(job.items[k], loaded.items[k], options, true)
    requires HasStatus(loaded, Failed) ==> options.retryFailed
    requires HasStatus(loaded, Uncertain) ==> options.retryUncertain || options.skipUncertain
    ensures Drained(job, options)
  {
    forall i | 0 <= i < |job.items|
      ensures job.items[i].status.Succeeded? || (job.items[i].status.Uncertain? && options.skipUncertain)
    {
      assert Visited(job.items[i], loaded.items[i], options, true);
    }
  }

  lemma DueSoFar(job: Job, options: InvocationOptions, n: nat)
    requires n <= |job.items|
    ensures var all := Due(job, options, |job.items|);
            |Due(job, options, n)| <= |all| && all[..|Due(job, options, n)|] == Due(job, options, n)
  {
    DuePrefix(job, options, n, |job.items|);
  }

  /** The attempt at the next eligible item. */
  method AttemptNext(host: Host, ghost loaded: Job, ghost options: InvocationOptions, before: Job, index: nat)
    returns (called: bool, done: bool, job: Job)
    requires host.Valid() && host.locked && host.flight.Ready?
    requires before == host.manifest && SameIdentity(before, loaded)
    requires index < |before.items| == |loaded.items| && before.items[index] == loaded.items[index]
    requires Eligible(loaded.items[index], options)
    requires EachLeftBefore(before, host.provider, Due(loaded, options, index), index)
    modifies host
    ensures host.Valid() && host.locked && old(host.trace) <= host.trace && old(host.asked) <= host.asked
    ensures Requested(host.history) ==
            Requested(old(host.history)) + (if called then [NextRequest(loaded, loaded.items[index])] else [])
    ensures |job.items| == |before.items| && SameIdentity(job, loaded)
    ensures forall k :: 0 <= k < |job.items| && k != index ==> job.items[k] == before.items[k]
    ensures done ==> called && host.flight.Ready? && job == host.manifest && job.items[index].status.Succeeded?
                     && EachLeftBefore(job, host.provider, Due(loaded, options, index + 1), index + 1)
    ensures done || host.Troubled(old(host.asked), host.asked)
            || (called && job == host.manifest && Blocked(host.manifest)
                && EachLeft(host.manifest, host.provider, Due(loaded, options, index + 1)))
  {
    hide IsRun, Requested, NextRequest, LeftAt, Due, LeftBefore;
    SameNext(before, loaded, before.items[index]);
    DueTaken(loaded, options, index);
    called, done, job := AttemptItem(host, before, index);
    if called && (done || !host.Troubled(old(host.asked), host.asked)) {
      OneMoreLeft(before, job, host.provider, Due(loaded, options, index), NextRequest(loaded, loaded.items[index]),
                  index);
    }
  }

  predicate EachLeftBefore(job: Job, provider: ExecutionRequest -> Response, requests: seq<ExecutionRequest>, n: nat) {
    forall k :: 0 <= k < |requests| ==> LeftBefore(job, provider, requests[k], n)
  }

  lemma NoneLeftYet(job: Job, provider: ExecutionRequest -> Response)
    ensures EachLeftBefore(job, provider, [], 0)
  {
  }

  lemma EachLeftWithin(job: Job, provider: ExecutionRequest -> Response, requests: seq<ExecutionRequest>, n: nat)
    requires EachLeftBefore(job, provider, requests, n) && n <= |job.items|
    ensures EachLeft(job, provider, requests)
  {
    LeftLaterBy(job, provider, requests, n, |job.items|);
  }

  lemma LeftLaterBy(job: Job, provider: ExecutionRequest -> Response, requests: seq<ExecutionRequest>, m: nat, n: nat)
    requires EachLeftBefore(job, provider, requests, m) && m <= n
    ensures EachLeftBefore(job, provider, requests, n)
  {
    hide LeftAt;
    forall k | 0 <= k < |requests| ensures LeftBefore(job, provider, requests[k], n) {
      assert LeftBefore(job, provider, requests[k], m);
    }
  }

  lemma LeftLater(job: Job, provider: ExecutionRequest -> Response, requests: seq<ExecutionRequest>, n: nat)
    requires EachLeftBefore(job, provider, requests, n)
    ensures EachLeftBefore(job, provider, requests, n + 1)
  {
    LeftLaterBy(job, provider, requests, n, n + 1);
  }

  /** An attempt at one item leaves the others as they are left, and its own with them. */
  lemma OneMoreLeft(before: Job, job: Job, provider: ExecutionRequest -> Response, requests: seq<ExecutionRequest>,
                    request: ExecutionRequest, n: nat)
    requires EachLeftBefore(before, provider, requests, n) && SameIdentity(job, before)
    requires n < |job.items| == |before.items|
    requires forall k :: 0 <= k < |job.items| && k != n ==> job.items[k] == before.items[k]
    requires LeftAt(job, provider, request, n)
    ensures EachLeftBefore(job, provider, requests + [request], n + 1)
    ensures EachLeft(job, provider, requests + [request])
  {
    hide Left;
    forall k | 0 <= k < |requests + [request]|
      ensures LeftBefore(job, provider, (requests + [request])[k], n + 1)
    {
      if k < |requests| {
        assert LeftBefore(before, provider, requests[k], n);
        var i :| 0 <= i < n && LeftAt(before, provider, requests[k], i);
        assert LeftAt(job, provider, requests[k], i);
      }
    }
    LeftLaterBy(job, provider, requests + [request], n + 1, |job.items|);
  }

  lemma SameNext(job: Job, loaded: Job, item: Item)
    requires SameIdentity(job, loaded)
    ensures NextRequest(job, item) == NextRequest(loaded, item)
  {
  }

  /** What is due of the first items, and with the next, begins all that is due. */
  lemma DueTaken(job: Job, options: InvocationOptions, n: nat)
    requires n < |job.items|
    ensures Due(job, options, n + 1) ==
            Due(job, options, n) + if Eligible(job.items[n], options) then [NextRequest(job, job.items[n])] else []
    ensures Due(job, options, n) <= Due(job, options, n + 1) <= Due(job, options, |job.items|)
  {
    DuePrefix(job, options, n, n + 1);
    DuePrefix(job, options, n + 1, |job.items|);
  }

  /** The call was made, and its item stands failed or uncertain on disk. */
  predicate Stopped(job: Job, manifest: Job, index: nat) {
    job == manifest && index < |job.items| && (job.items[index].status.Failed? || job.items[index].status.Uncertain?)
  }

  /** One pass of the loop: wait, recheck, record, call, publish, confirm. Without trouble the call is
      made, and the item ends on disk as succeeded, failed or uncertain. */
  method AttemptItem(host: Host, loaded: Job, index: nat) returns (called: bool, ok: bool, job: Job)
    requires host.Valid() && host.locked && host.flight.Ready? && loaded == host.manifest
    requires index < |loaded.items|
    requires !loaded.items[index].status.Succeeded? && !loaded.items[index].status.Running?
    modifies host
    ensures host.Valid() && host.locked && old(host.trace) <= host.trace && old(host.asked) <= host.asked
    ensures Requested(host.history) ==
            Requested(old(host.history)) + (if called then [NextRequest(loaded, loaded.items[index])] else [])
    ensures |job.items| == |loaded.items| && SameIdentity(job, loaded)
    ensures ok || !host.Troubled(old(host.asked), host.asked) ==>
              && called && job == host.manifest
              && LeftAt(job, host.provider, NextRequest(loaded, loaded.items[index]), index)
    ensures ok || host.Troubled(old(host.asked), host.asked) || (called && Stopped(job, host.manifest, index))
    ensures ok ==> called && host.flight.Ready? && job == host.manifest && job.items[index].status.Succeeded?
    ensures forall k :: 0 <= k < |job.items| && k != index ==> job.items[k] == loaded.items[k]
  {
    hide IsRun, Stopped, EnvelopeOk, NextRequest, RequestFor, Requested, Left;
    called, job := false, loaded;
    var cancelled := host.GoesWrong();
    if cancelled {
      return false, false, job;
    }
    var waited := host.WaitForPacing(job.notBefore);
    var sourceChanged := host.GoesWrong();
    if !waited || sourceChanged {
      return false, false, job;
    }
    var item := job.items[index];
    ReadyUnpublished(host.trace, index);
    var verdict := host.VerifyResult(item);
    if !verdict.Absent? {
      return false, false, job;
    }

    var request := NextRequest(job, item);
    var recorded;
    recorded, job := RecordAttempt(host, job, index, request);
    if !recorded {
      return false, false, job;
    }
    called := true;
    ok, job := CallAttempt(host, job, index, request);
  }

  /** The call itself, and what becomes of its answer. */
  method CallAttempt(host: Host, recorded: Job, index: nat, request: ExecutionRequest) returns (ok: bool, job: Job)
    requires host.Valid() && host.locked && host.flight == Armed(index) && recorded == host.manifest
    requires index < |recorded.items| && request == RequestFor(recorded, recorded.items[index])
    modifies host
    ensures host.Valid() && host.locked && old(host.trace) <= host.trace && old(host.asked) <= host.asked
    ensures Requested(host.history) == Requested(old(host.history)) + [request]
    ensures |job.items| == |recorded.items| && SameIdentity(job, recorded)
    ensures ok || !host.Troubled(old(host.asked), host.asked) ==>
              job == host.manifest && LeftAt(job, host.provider, request, index)
    ensures ok || host.Troubled(old(host.asked), host.asked) || Stopped(job, host.manifest, index)
    ensures ok ==> host.flight.Ready? && job == host.manifest && job.items[index].status.Succeeded?
    ensures forall k :: 0 <= k < |job.items| && k != index ==> job.items[k] == recorded.items[k]
  {
    hide IsRun, Stopped, RequestFor, SpacingFor, Requested, LeftAt;
    LastReturns(host.trace);
    var response := host.Execute(request);
    host.Elapse();
    var completedAt := host.now;
    job := recorded.(notBefore := completedAt + SpacingFor(recorded.header.model));
    ok, job := FinishAttempt(host, job, index, request, response, completedAt);
  }

  /** The write-ahead record: the item is durably running this attempt before the call. */
  method RecordAttempt(host: Host, loaded: Job, index: nat, request: ExecutionRequest) returns (ok: bool, job: Job)
    requires host.Valid() && host.locked && host.flight.Ready? && loaded == host.manifest && index < |loaded.items|
    requires !loaded.items[index].status.Succeeded? && !loaded.items[index].status.Running?
    requires loaded.items[index].planned.id !in host.results && loaded.notBefore <= host.now
    requires request == NextRequest(loaded, loaded.items[index])
    modifies host
    ensures host.Valid() && host.locked && old(host.trace) <= host.trace && old(host.asked) <= host.asked
    ensures Requested(host.history) == Requested(old(host.history))
    ensures ok || host.Troubled(old(host.asked), host.asked)
    ensures |job.items| == |loaded.items| && SameIdentity(job, loaded)
    ensures forall k :: 0 <= k < |job.items| && k != index ==> job.items[k] == loaded.items[k]
    ensures ok ==> host.flight == Armed(index) && job == host.manifest
                   && request == RequestFor(job, job.items[index])
  {
    hide IsRun;
    var item := loaded.items[index];
    item := item.(attempts := request.attempt, requestId := request.requestId, status := Running,
                  result := None, failure := "");
    job := loaded.(items := loaded.items[index := item]);
    ghost var armed := host.Here().(manifest := job, flight := Armed(index),
                                    history := host.history + [Recorded(request)]);
    RequestedMore(host.history, Recorded(request));
    assert item == Attempted(loaded, loaded.items[index]);
    assert Next(host.Here(), armed, Arm(index));
    ok := host.Save(job, armed, Arm(index));
  }

  /** After the call: publish and confirm the output, or settle the item as failed or uncertain. */
  method FinishAttempt(host: Host, paced: Job, index: nat, request: ExecutionRequest, response: Response, at: Instant)
    returns (ok: bool, job: Job)
    requires host.Valid() && host.locked && host.flight == Answered(index, response) && index < |paced.items|
    requires paced == host.manifest.(notBefore := at + SpacingFor(host.manifest.header.model))
    requires request == RequestFor(host.manifest, host.manifest.items[index]) && response == host.provider(request)
    requires host.now == at
    modifies host
    ensures host.Valid() && host.locked && old(host.trace) <= host.trace && old(host.asked) <= host.asked
    ensures Requested(host.history) == Requested(old(host.history))
    ensures |job.items| == |paced.items| && SameIdentity(job, paced)
    ensures ok || !host.Troubled(old(host.asked), host.asked) ==>
              job == host.manifest && LeftAt(job, host.provider, request, index)
    ensures ok || host.Troubled(old(host.asked), host.asked) || Stopped(job, host.manifest, index)
    ensures ok ==> host.flight.Ready? && job == host.manifest && job.items[index].status.Succeeded?
    ensures forall k :: 0 <= k < |job.items| && k != index ==> job.items[k] == paced.items[k]
  {
    hide IsRun, Next, Settles, Accepts;
    LastAnswered(host.trace);
    var executeError := ExecuteErrorOf(response.answer, paced.header.model);
    if executeError.Some? {
      FailureSettles(paced.header.model, response, executeError.value);
      if AmbiguousExecution(response.ended, executeError.value) {
        job := SettleAttempt(host, paced, index, request, response, Uncertain, UNVERIFIABLE, at);
      } else {
        job := SettleAttempt(host, paced, index, request, response, Failed, FailureLabel(executeError.value), at);
      }
      return false, job;
    }
    UsableSettles(paced.header.model, response);
    var committed := host.CommitResult(request, response.answer.output);
    assert ReturnedBy(host.history, at);
    if committed.None? {
      job := SettleAttempt(host, paced, index, request, response, Uncertain, UNCONFIRMED, at);
      return false, job;
    }
    ok, job := ConfirmAttempt(host, paced, index, request, response, committed.value, at);
  }

  /** The error of an attempt, an answer from another model among them. */
  function ExecuteErrorOf(answer: Answer, model: Model): Option<ExecuteError> {
    match answer
    case NoAnswer(error) => Some(error)
    case Output(output) => if output.modelUsed != model then Some(ExecuteError(false, None)) else None
  }

  /** Whether the provider may yet have answered. */
  function AmbiguousExecution(ended: bool, error: ExecuteError): bool {
    if ended || error.contextual then true
    else if error.kind.None? then false
    else
      var kind := error.kind.value;
      kind == "context_canceled" || kind == "timeout" || kind == "signal" || kind == "sigabrt"
  }

  function FailureLabel(error: ExecuteError): (text: string) {
    if error.kind.Some? then FAILED + ": " + error.kind.value else FAILED
  }

  /** A failed attempt is settled as what its response comes to. */
  lemma FailureSettles(model: Model, r: Response, e: ExecuteError)
    requires ExecuteErrorOf(r.answer, model) == Some(e)
    ensures Settles(model, r, Uncertain, UNVERIFIABLE) == AmbiguousExecution(r.ended, e)
    ensures Settles(model, r, Failed, FailureLabel(e)) == !AmbiguousExecution(r.ended, e)
    ensures !Accepts(model, r)
  {
  }

  lemma UsableSettles(model: Model, r: Response)
    requires ExecuteErrorOf(r.answer, model).None?
    ensures Usable(model, r) && Settles(model, r, Uncertain, UNCONFIRMED)
  {
  }

  /** The item is saved as failed or uncertain, and the invocation gives up. */
  method SettleAttempt(host: Host, paced: Job, index: nat, ghost request: ExecutionRequest, ghost response: Response,
                       status: Status, failure: string, at: Instant)
    returns (job: Job)
    requires host.Valid() && host.locked && index < |paced.items| && response == host.provider(request)
    requires host.flight == Answered(index, response)
             || (host.flight == Committed(index) && status.Uncertain? && failure == UNCONFIRMED)
    requires Settles(paced.header.model, response, status, failure)
    requires paced == host.manifest.(notBefore := at + SpacingFor(host.manifest.header.model))
    requires request == RequestFor(host.manifest, host.manifest.items[index])
    requires at <= host.now && ReturnedBy(host.history, at)
    modifies host
    ensures host.Valid() && host.locked && old(host.trace) <= host.trace && old(host.asked) <= host.asked
    ensures Requested(host.history) == Requested(old(host.history))
    ensures |job.items| == |paced.items| && SameIdentity(job, paced)
    ensures host.Troubled(old(host.asked), host.asked) || Stopped(job, host.manifest, index)
    ensures !Accepts(paced.header.model, response) ==>
              host.Troubled(old(host.asked), host.asked)
              || (job == host.manifest && LeftAt(job, host.provider, request, index))
    ensures forall k :: 0 <= k < |job.items| && k != index ==> job.items[k] == paced.items[k]
  {
    hide IsRun, Accepts, Usable, Definite, Labels;
    var item := paced.items[index].(status := status, failure := failure);
    job := paced.(items := paced.items[index := item]);
    ghost var settled := host.Here().(manifest := job, flight := Idle);
    assert RequestFor(job, item) == request;
    var _ := host.Save(job, settled, Settle(status, failure, at));
  }

  /** The published reference is saved with the item. When that fails the committed result stays
      recoverable while the manifest may still say running. */
  method ConfirmAttempt(host: Host, paced: Job, index: nat, ghost request: ExecutionRequest, ghost response: Response,
                        ref: ResultRef, at: Instant)
    returns (ok: bool, job: Job)
    requires host.Valid() && host.locked && index < |paced.items| && host.flight == Committed(index)
    requires paced == host.manifest.(notBefore := at + SpacingFor(host.manifest.header.model))
    requires request == RequestFor(host.manifest, host.manifest.items[index]) && response == host.provider(request)
    requires Accepts(paced.header.model, response)
    requires at <= host.now && ReturnedBy(host.history, at)
    requires paced.items[index].planned.id in host.results && ref == host.results[paced.items[index].planned.id].result
    modifies host
    ensures host.Valid() && host.locked && old(host.trace) <= host.trace && old(host.asked) <= host.asked
    ensures Requested(host.history) == Requested(old(host.history))
    ensures |job.items| == |paced.items| && SameIdentity(job, paced)
    ensures ok ==> host.flight.Ready? && job == host.manifest && job.items[index].status.Succeeded?
                   && LeftAt(job, host.provider, request, index)
    ensures ok || host.Troubled(old(host.asked), host.asked)
    ensures forall k :: 0 <= k < |job.items| && k != index ==> job.items[k] == paced.items[k]
  {
    hide IsRun, Accepts, Settles;
    var item := paced.items[index].(result := Some(ref), status := Succeeded, failure := "");
    var saved := paced.(items := paced.items[index := item]);
    assert RequestFor(saved, item) == request;
    ghost var confirmed := host.Here().(manifest := saved, flight := Ready);
    ok := host.Save(saved, confirmed, Confirm(at));
    job := if ok then saved else paced;
  }
}
