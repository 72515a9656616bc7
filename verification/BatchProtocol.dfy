/** The batch engine as a write-ahead protocol over durable state (the manifest and
    the published result envelopes) and volatile state (what the lock holder has in
    flight). `Abort` may follow any step: it is a crash, an early return, or a write
    that took effect and yet reported an error. */
module BatchProtocol {
  import opened BatchManifest
  import opened Options

  /** What happened on the job over all invocations. */
  datatype Event =
    | Began
    | Recorded(request: ExecutionRequest)
    | Called(request: ExecutionRequest, at: Instant)
    | Returned(request: ExecutionRequest, at: Instant, response: Response)
    | Published(envelope: Envelope)

  /** Where the invocation holding the lock stands. */
  datatype Flight =
    | Idle
    | Recovering
    | Ready
    | Armed(i: nat)
    | Calling(i: nat)
    | Answered(i: nat, response: Response)
    | Committed(i: nat)

  datatype State = State(
    manifest: Job, results: map<ItemId, Envelope>, flight: Flight, now: Instant, history: seq<Event>)

  datatype Label =
    | Tick(later: Instant)
    | Abort
    | Begin
    | Recover(i: nat, at: Instant)
    | Admit
    | Arm(i: nat)
    | Call
    | Return(response: Response)
    | Settle(status: Status, failure: string, at: Instant)
    | Publish
    | Confirm(at: Instant)

  // ---- what a response comes to ----

  /** The error leaves open whether the provider has answered: a context ended, or the child was
      stopped from outside. */
  predicate Ambiguous(e: ExecuteError) {
    e.contextual || (e.kind.Some? && e.kind.value in {"context_canceled", "timeout", "signal", "sigabrt"})
  }

  /** Output of the planned model. */
  predicate Usable(model: Model, r: Response) { r.answer.Output? && r.answer.output.modelUsed == model }

  /** A failure that nothing leaves open. */
  predicate Definite(model: Model, r: Response) {
    !Usable(model, r) && !r.ended && (r.answer.NoAnswer? ==> !Ambiguous(r.answer.error))
  }

  const UNVERIFIABLE := "provider attempt ended without a verifiable result"
  const UNCONFIRMED := "provider returned output but result commit was not confirmed"
  const FAILED := "provider attempt failed"

  /** How a definite failure is put down. */
  predicate Labels(r: Response, failure: string) {
    if r.answer.NoAnswer? && r.answer.error.kind.Some? then failure == FAILED + ": " + r.answer.error.kind.value
    else failure == FAILED
  }

  /** An attempt not published and confirmed is left failed exactly after a definite failure. */
  predicate Settles(model: Model, r: Response, status: Status, failure: string) {
    if Usable(model, r) then status.Uncertain? && failure == UNCONFIRMED
    else if Definite(model, r) then status.Failed? && Labels(r, failure)
    else status.Uncertain? && failure == UNVERIFIABLE
  }

  /** Output that can be published. */
  predicate Accepts(model: Model, r: Response) {
    Usable(model, r) && 1 <= |r.answer.output.content| <= 16777216 && r.answer.output.validUtf8
  }

  // ---- item updates the engine saves ----

  function Attempted(job: Job, item: Item): Item {
    var request := NextRequest(job, item);
    item.(attempts := request.attempt, requestId := request.requestId, status := Running, result := None, failure := "")
  }

  const INTERRUPTED := "interrupted provider attempt has no verifiable committed result"

  function Recovered(item: Item, results: map<ItemId, Envelope>): Item {
    if item.planned.id in results then
      item.(result := Some(results[item.planned.id].result), status := Succeeded, failure := "")
    else if item.status.Running? then item.(status := Uncertain, failure := INTERRUPTED)
    else item
  }

  function Max(a: int, b: int): int { if a < b then b else a }

  predicate NoneRunning(job: Job) {
    forall i :: 0 <= i < |job.items| ==> !job.items[i].status.Running?
  }

  predicate AtMostOneRunning(job: Job) {
    forall i, j :: 0 <= i < j < |job.items| ==> !(job.items[i].status.Running? && job.items[j].status.Running?)
  }

  /** Every published item but possibly the j-th is recorded as succeeded with exactly its reference. */
  predicate RecordedBut(job: Job, results: map<ItemId, Envelope>, j: int) {
    forall i :: 0 <= i < |job.items| && i != j && job.items[i].planned.id in results ==>
      job.items[i].status.Succeeded? && job.items[i].result == Some(results[job.items[i].planned.id].result)
  }

  predicate ReturnedBy(h: seq<Event>, at: Instant) {
    forall p :: 0 <= p < |h| && h[p].Returned? ==> h[p].at <= at
  }

  predicate Next(s: State, s': State, l: Label) {
    match l
    case Tick(later) => s.now <= later && s' == s.(now := later)
    case Abort => s' == s.(flight := Idle)
    case Begin => s.flight.Idle? && s' == s.(flight := Recovering, history := s.history + [Began])
    case Recover(i, at) =>
      && s.flight.Recovering? && i < |s.manifest.items|
      && (s.manifest.items[i].status.Running? || s.manifest.items[i].status.Uncertain?)
      && at <= s.now && ReturnedBy(s.history, at)
      && var item := Recovered(s.manifest.items[i], s.results);
         s' == s.(manifest := s.manifest.(
                    items := s.manifest.items[i := item],
                    notBefore := Max(s.manifest.notBefore, at + SpacingFor(s.manifest.header.model))))
    case Admit =>
      && s.flight.Recovering? && NoneRunning(s.manifest) && RecordedBut(s.manifest, s.results, -1)
      && s' == s.(flight := Ready)
    case Arm(i) =>
      && s.flight.Ready? && i < |s.manifest.items|
      && !s.manifest.items[i].status.Succeeded? && !s.manifest.items[i].status.Running?
      && s.manifest.items[i].planned.id !in s.results
      && s.manifest.notBefore <= s.now
      && var item := Attempted(s.manifest, s.manifest.items[i]);
         s' == s.(manifest := s.manifest.(items := s.manifest.items[i := item]), flight := Armed(i),
                  history := s.history + [Recorded(NextRequest(s.manifest, s.manifest.items[i]))])
    case Call =>
      && s.flight.Armed? && s.flight.i < |s.manifest.items|
      && s' == s.(flight := Calling(s.flight.i),
                  history := s.history + [Called(RequestFor(s.manifest, s.manifest.items[s.flight.i]), s.now)])
    case Return(response) =>
      && s.flight.Calling? && s.flight.i < |s.manifest.items|
      && s' == s.(flight := Answered(s.flight.i, response),
                  history := s.history
                             + [Returned(RequestFor(s.manifest, s.manifest.items[s.flight.i]), s.now, response)])
    case Settle(status, failure, at) =>
      && at <= s.now && ReturnedBy(s.history, at)
      && (|| (s.flight.Answered? && Settles(s.manifest.header.model, s.flight.response, status, failure))
          || (s.flight.Committed? && status.Uncertain? && failure == UNCONFIRMED))
      && s.flight.i < |s.manifest.items|
      && var item := s.manifest.items[s.flight.i].(status := status, failure := failure);
         s' == s.(flight := Idle, manifest := s.manifest.(
                    items := s.manifest.items[s.flight.i := item],
                    notBefore := at + SpacingFor(s.manifest.header.model)))
    case Publish =>
      && s.flight.Answered? && s.flight.i < |s.manifest.items| && Accepts(s.manifest.header.model, s.flight.response)
      && var item := s.manifest.items[s.flight.i];
      && item.planned.id !in s.results
      && var request := RequestFor(s.manifest, item);
         var content := s.flight.response.answer.output.content;
         var e := Envelope(RESULT_SCHEMA_VERSION, request, RefFor(request, item.planned.resultPath, content), content);
         s' == s.(flight := Committed(s.flight.i), results := s.results[item.planned.id := e],
                  history := s.history + [Published(e)])
    case Confirm(at) =>
      && s.flight.Committed? && s.flight.i < |s.manifest.items|
      && at <= s.now && ReturnedBy(s.history, at)
      && s.manifest.items[s.flight.i].planned.id in s.results
      && var item := s.manifest.items[s.flight.i];
         var saved := item.(result := Some(s.results[item.planned.id].result), status := Succeeded, failure := "");
         s' == s.(flight := Ready, manifest := s.manifest.(
                    items := s.manifest.items[s.flight.i := saved],
                    notBefore := at + SpacingFor(s.manifest.header.model)))
  }

  ghost predicate Step(s: State, s': State) {
    exists l :: Next(s, s', l)
  }

  predicate Initial(s: State) {
    PlannedJob(s.manifest) && s.results == map[] && s.flight.Idle? && s.history == []
  }

  /** Any number of invocations, each possibly cut short anywhere. */
  ghost predicate IsRun(trace: seq<State>) {
    && trace != [] && Initial(trace[0])
    && forall k :: 0 < k < |trace| ==> Step(trace[k - 1], trace[k])
  }

  // ---- what the history of every run satisfies ----

  /** No call for an item follows the publication of its result. */
  predicate NoCallAfterPublication(h: seq<Event>) {
    forall p, q :: 0 <= p < q < |h| && h[p].Published? && h[q].Called? ==>
      h[p].envelope.request.itemId != h[q].request.itemId
  }

  predicate PublishedOnce(h: seq<Event>) {
    forall p, q :: 0 <= p < q < |h| && h[p].Published? && h[q].Published? ==>
      h[p].envelope.request.itemId != h[q].envelope.request.itemId
  }

  /** A call starts no earlier than `gap` after the end of every earlier returned call. */
  predicate Paced(h: seq<Event>, gap: Instant) {
    forall p, q :: 0 <= p < q < |h| && h[p].Returned? && h[q].Called? ==> h[p].at + gap <= h[q].at
  }

  predicate AttemptsIncrease(h: seq<Event>) {
    forall p, q :: 0 <= p < q < |h| && h[p].Called? && h[q].Called? && h[p].request.itemId == h[q].request.itemId ==>
      h[p].request.attempt < h[q].request.attempt
  }

  /** Every call was preceded by a durable running record of that very request. */
  predicate WriteAhead(h: seq<Event>) {
    forall q :: 0 <= q < |h| && h[q].Called? ==> exists p :: 0 <= p < q && h[p] == Recorded(h[q].request)
  }

  predicate PublishesAnswer(e: Event, request: ExecutionRequest) {
    e.Published? && e.envelope.request == request
  }

  /** Between a call and a later one lies a new invocation or the publication of the first answer. */
  predicate Closed(h: seq<Event>, p: nat, q: nat)
    requires p < |h| && h[p].Called? && q <= |h|
  {
    exists k :: p < k < q && (h[k].Began? || PublishesAnswer(h[k], h[p].request))
  }

  predicate StopsAtFailure(h: seq<Event>) {
    forall p, q :: 0 <= p < q < |h| && h[p].Called? && h[q].Called? ==> Closed(h, p, q)
  }

  predicate HistorySafe(h: seq<Event>, gap: Instant) {
    NoCallAfterPublication(h) && PublishedOnce(h) && Paced(h, gap) && AttemptsIncrease(h) && WriteAhead(h)
    && StopsAtFailure(h)
  }

  // ---- the invariant ----

  predicate ResultsOk(job: Job, results: map<ItemId, Envelope>) {
    && (forall id :: id in results ==> id in ItemIds(job.items))
    && (forall i :: 0 <= i < |job.items| && job.items[i].planned.id in results ==>
          EnvelopeOk(job, job.items[i], results[job.items[i].planned.id]))
    && (forall i :: 0 <= i < |job.items| && job.items[i].status.Succeeded? ==> job.items[i].planned.id in results)
  }

  predicate AllClosed(h: seq<Event>) {
    forall p :: 0 <= p < |h| && h[p].Called? ==> Closed(h, p, |h|)
  }

  /** The flight's request is the last one called. */
  predicate LastCalled(h: seq<Event>, request: ExecutionRequest) {
    exists c :: 0 <= c < |h| && h[c].Called? && h[c].request == request
                && forall p :: c < p < |h| ==> !h[p].Called?
  }

  /** The running record is durable and names this request. */
  predicate InFlight(s: State, i: nat) {
    i < |s.manifest.items| && s.manifest.items[i].status.Running?
  }

  /** The checkpoint covers every returned call. */
  predicate Covered(h: seq<Event>, gap: Instant, notBefore: Instant) {
    forall p :: 0 <= p < |h| && h[p].Returned? ==> h[p].at + gap <= notBefore
  }

  predicate RecordedRequest(h: seq<Event>, request: ExecutionRequest) {
    exists p :: 0 <= p < |h| && h[p] == Recorded(request)
  }

  predicate NotYetCalled(h: seq<Event>, id: ItemId, attempt: int) {
    forall p :: 0 <= p < |h| && h[p].Called? && h[p].request.itemId == id ==> h[p].request.attempt < attempt
  }

  /** Some returned call ended at or after the durable checkpoint. */
  predicate EndedAfter(h: seq<Event>, notBefore: Instant) {
    exists p :: 0 <= p < |h| && h[p].Returned? && notBefore <= h[p].at
  }

  function Gap(s: State): Instant {
    SpacingFor(s.manifest.header.model)
  }

  predicate FlightOk(s: State) {
    match s.flight
    case Idle => true
    case Recovering => AllClosed(s.history)
    case Ready => AllClosed(s.history) && NoneRunning(s.manifest) && RecordedBut(s.manifest, s.results, -1)
    case Armed(i) =>
      && InFlight(s, i) && RecordedBut(s.manifest, s.results, -1) && AllClosed(s.history)
      && s.manifest.notBefore <= s.now && s.manifest.items[i].planned.id !in s.results
      && RecordedRequest(s.history, RequestFor(s.manifest, s.manifest.items[i]))
      && NotYetCalled(s.history, s.manifest.items[i].planned.id, s.manifest.items[i].attempts)
      && Covered(s.history, Gap(s), s.manifest.notBefore)
    case Calling(i) =>
      && InFlight(s, i) && RecordedBut(s.manifest, s.results, -1) && s.manifest.items[i].planned.id !in s.results
      && s.manifest.notBefore <= s.now
      && LastCalled(s.history, RequestFor(s.manifest, s.manifest.items[i]))
    case Answered(i, _) =>
      && InFlight(s, i) && RecordedBut(s.manifest, s.results, -1) && s.manifest.items[i].planned.id !in s.results
      && LastCalled(s.history, RequestFor(s.manifest, s.manifest.items[i]))
      && EndedAfter(s.history, s.manifest.notBefore)
    case Committed(i) =>
      && InFlight(s, i) && RecordedBut(s.manifest, s.results, i) && s.manifest.items[i].planned.id in s.results
      && AllClosed(s.history) && EndedAfter(s.history, s.manifest.notBefore)
  }

  /** Calls never outrun the durable attempt counter of their item. */
  predicate Counted(job: Job, e: Event) {
    e.Called? ==> exists i :: 0 <= i < |job.items| && job.items[i].planned.id == e.request.itemId
                              && e.request.attempt <= job.items[i].attempts
  }

  predicate AllCounted(job: Job, h: seq<Event>) {
    forall p :: 0 <= p < |h| ==> Counted(job, h[p])
  }

  predicate PublicationsKept(h: seq<Event>, results: map<ItemId, Envelope>) {
    forall p :: 0 <= p < |h| && h[p].Published? ==>
      h[p].envelope.request.itemId in results && results[h[p].envelope.request.itemId] == h[p].envelope
  }

  predicate HistoryOk(s: State) {
    && HistorySafe(s.history, Gap(s))
    && AllCounted(s.manifest, s.history)
    && PublicationsKept(s.history, s.results)
    && ReturnedBy(s.history, s.now)
    // an uncovered call is one whose running record still marks it as lost
    && (NoneRunning(s.manifest) ==> Covered(s.history, Gap(s), s.manifest.notBefore))
  }

  predicate DurableOk(job: Job, results: map<ItemId, Envelope>) {
    JobOk(job) && AtMostOneRunning(job) && ResultsOk(job, results)
  }

  predicate Inv(s: State) {
    DurableOk(s.manifest, s.results) && FlightOk(s) && HistoryOk(s)
  }
}
