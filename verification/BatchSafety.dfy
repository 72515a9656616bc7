/** Safety of the batch protocol: the invariant of every reachable state, what every
    run's history therefore satisfies, and what one step or many can never undo. */
module BatchSafety {
  import opened BatchManifest
  import opened BatchProtocol
  import opened Options

  // ---- saving one changed item ----

  function WithItem(job: Job, i: nat, item: Item, notBefore: Instant): Job
    requires i < |job.items|
  {
    job.(items := job.items[i := item], notBefore := notBefore)
  }

  lemma SavedJobOk(job: Job, i: nat, item: Item, notBefore: Instant)
    requires JobOk(job) && i < |job.items|
    requires item.planned == job.items[i].planned && ItemOk(job.header, job.id, item)
    ensures JobOk(WithItem(job, i, item, notBefore))
    ensures ItemIds(WithItem(job, i, item, notBefore).items) == ItemIds(job.items)
  {
    var job' := WithItem(job, i, item, notBefore);
    assert ItemIds(job'.items) == ItemIds(job.items);
    forall k | 0 <= k < |job'.items|
      ensures ItemOk(job.header, job.id, job'.items[k]) && job'.items[k].planned == job.items[k].planned
    {
    }
  }

  lemma SavedResultsOk(job: Job, results: map<ItemId, Envelope>, i: nat, item: Item, notBefore: Instant)
    requires JobOk(job) && ResultsOk(job, results) && i < |job.items|
    requires item.planned == job.items[i].planned
    requires item.planned.id in results ==> EnvelopeOk(job, item, results[item.planned.id])
    requires item.status.Succeeded? ==> item.planned.id in results
    ensures ResultsOk(WithItem(job, i, item, notBefore), results)
  {
    var job' := WithItem(job, i, item, notBefore);
    assert ItemIds(job'.items) == ItemIds(job.items);
    forall k | 0 <= k < |job'.items| && job'.items[k].planned.id in results
      ensures EnvelopeOk(job', job'.items[k], results[job'.items[k].planned.id])
    {
      if k != i {
        assert EnvelopeOk(job, job.items[k], results[job.items[k].planned.id]);
      }
    }
  }

  lemma SavedCounted(job: Job, i: nat, item: Item, notBefore: Instant, h: seq<Event>)
    requires i < |job.items| && item.planned == job.items[i].planned && job.items[i].attempts <= item.attempts
    requires AllCounted(job, h)
    ensures AllCounted(WithItem(job, i, item, notBefore), h)
  {
    var job' := WithItem(job, i, item, notBefore);
    forall p | 0 <= p < |h| && h[p].Called?
      ensures Counted(job', h[p])
    {
      assert Counted(job, h[p]);
      var k :| 0 <= k < |job.items| && job.items[k].planned.id == h[p].request.itemId
               && h[p].request.attempt <= job.items[k].attempts;
      assert job'.items[k].planned.id == h[p].request.itemId && h[p].request.attempt <= job'.items[k].attempts;
    }
  }

  lemma CountedMore(job: Job, h: seq<Event>, e: Event)
    requires AllCounted(job, h) && !e.Called?
    ensures AllCounted(job, h + [e])
  {
  }

  lemma SavedDurableOk(job: Job, results: map<ItemId, Envelope>, i: nat, item: Item, notBefore: Instant)
    requires DurableOk(job, results) && i < |job.items|
    requires item.planned == job.items[i].planned && ItemOk(job.header, job.id, item)
    requires item.planned.id in results ==> EnvelopeOk(job, item, results[item.planned.id])
    requires item.status.Succeeded? ==> item.planned.id in results
    requires item.status.Running? ==> NoneRunning(job)
    ensures DurableOk(WithItem(job, i, item, notBefore), results)
  {
    SavedJobOk(job, i, item, notBefore);
    SavedResultsOk(job, results, i, item, notBefore);
  }

  // ---- appending one event ----

  lemma ClosedGrows(h: seq<Event>, e: Event)
    ensures forall p, q :: 0 <= p < |h| && h[p].Called? && 0 <= q <= |h| && Closed(h, p, q) ==>
              Closed(h + [e], p, q)
    ensures StopsAtFailure(h) && !e.Called? ==> StopsAtFailure(h + [e])
    ensures AllClosed(h) && !e.Called? ==> AllClosed(h + [e])
    ensures e.Began? ==> AllClosed(h + [e])
  {
    var h' := h + [e];
    forall p, q | 0 <= p < |h| && h[p].Called? && 0 <= q <= |h| && Closed(h, p, q)
      ensures Closed(h', p, q)
    {
      var k :| p < k < q && (h[k].Began? || PublishesAnswer(h[k], h[p].request));
      assert h'[k] == h[k] && h'[p] == h[p];
    }
    if StopsAtFailure(h) && !e.Called? {
      forall p, q | 0 <= p < q < |h'| && h'[p].Called? && h'[q].Called?
        ensures Closed(h', p, q)
      {
        assert Closed(h, p, q);
      }
    }
    if AllClosed(h) && !e.Called? {
      forall p | 0 <= p < |h'| && h'[p].Called?
        ensures Closed(h', p, |h'|)
      {
        assert Closed(h, p, |h|);
        assert Closed(h', p, |h|);
        var k :| p < k < |h| && (h'[k].Began? || PublishesAnswer(h'[k], h'[p].request));
        assert p < k < |h'|;
      }
    }
    if e.Began? {
      forall p | 0 <= p < |h'| && h'[p].Called?
        ensures Closed(h', p, |h'|)
      {
        assert h'[|h|].Began?;
      }
    }
  }

  /** Events other than calls and publications keep the history safe. */
  lemma QuietEventSafe(h: seq<Event>, e: Event, gap: Instant)
    requires HistorySafe(h, gap) && !e.Called? && !e.Published?
    ensures HistorySafe(h + [e], gap)
  {
    ClosedGrows(h, e);
    WriteAheadGrows(h, e);
  }

  lemma WriteAheadGrows(h: seq<Event>, e: Event)
    requires WriteAhead(h)
    requires e.Called? ==> exists p :: 0 <= p < |h| && h[p] == Recorded(e.request)
    ensures WriteAhead(h + [e])
  {
    var h' := h + [e];
    forall q | 0 <= q < |h'| && h'[q].Called?
      ensures exists p :: 0 <= p < q && h'[p] == Recorded(h'[q].request)
    {
      if q < |h| {
        var p :| 0 <= p < q && h[p] == Recorded(h[q].request);
        assert h'[p] == Recorded(h'[q].request);
      } else {
        var p :| 0 <= p < |h| && h[p] == Recorded(e.request);
        assert h'[p] == Recorded(h'[q].request);
      }
    }
  }

  lemma CallEventSafe(h: seq<Event>, request: ExecutionRequest, at: Instant, gap: Instant)
    requires HistorySafe(h, gap) && AllClosed(h)
    requires forall p :: 0 <= p < |h| && h[p].Published? ==> h[p].envelope.request.itemId != request.itemId
    requires forall p :: 0 <= p < |h| && h[p].Returned? ==> h[p].at + gap <= at
    requires forall p :: 0 <= p < |h| && h[p].Called? && h[p].request.itemId == request.itemId ==>
               h[p].request.attempt < request.attempt
    requires exists p :: 0 <= p < |h| && h[p] == Recorded(request)
    ensures HistorySafe(h + [Called(request, at)], gap)
  {
    var e := Called(request, at);
    ClosedGrows(h, e);
    WriteAheadGrows(h, e);
    var h' := h + [e];
    forall p, q | 0 <= p < q < |h'| && h'[p].Called? && h'[q].Called?
      ensures Closed(h', p, q)
    {
      assert Closed(h, p, q);
    }
  }

  lemma PublishEventSafe(h: seq<Event>, e: Envelope, gap: Instant)
    requires HistorySafe(h, gap) && LastCalled(h, e.request)
    requires forall p :: 0 <= p < |h| && h[p].Published? ==> h[p].envelope.request.itemId != e.request.itemId
    ensures HistorySafe(h + [Published(e)], gap) && AllClosed(h + [Published(e)])
  {
    ClosedGrows(h, Published(e));
    WriteAheadGrows(h, Published(e));
    PublishedAllClosed(h, e);
  }

  lemma PublishedAllClosed(h: seq<Event>, e: Envelope)
    requires StopsAtFailure(h) && LastCalled(h, e.request)
    ensures AllClosed(h + [Published(e)])
  {
    var h' := h + [Published(e)];
    var c :| 0 <= c < |h| && h[c].Called? && h[c].request == e.request && forall p :: c < p < |h| ==> !h[p].Called?;
    forall p | 0 <= p < |h'| && h'[p].Called?
      ensures Closed(h', p, |h'|)
    {
      PublishCloses(h, e, c, p);
    }
  }

  lemma PublishCloses(h: seq<Event>, e: Envelope, c: nat, p: nat)
    requires StopsAtFailure(h) && c < |h| && h[c].Called? && h[c].request == e.request
    requires p <= c && h[p].Called?
    ensures Closed(h + [Published(e)], p, |h| + 1)
  {
    var h' := h + [Published(e)];
    if p < c {
      assert Closed(h, p, c);
      var k :| p < k < c && (h[k].Began? || PublishesAnswer(h[k], h[p].request));
      assert h'[k] == h[k] && h'[p] == h[p];
    } else {
      assert PublishesAnswer(h'[|h|], h'[p].request);
    }
  }

  // ---- each step keeps the invariant ----

  lemma QuietStepKeeps(s: State, s': State, l: Label)
    requires Inv(s) && Next(s, s', l) && (l.Tick? || l.Abort? || l.Admit?)
    ensures Inv(s')
  {
    hide JobOk, ResultsOk, HistorySafe;
  }

  lemma BeginKeeps(s: State, s': State)
    requires Inv(s) && Next(s, s', Begin)
    ensures Inv(s')
  {
    hide JobOk, ResultsOk, HistorySafe, DurableOk;
    QuietEventSafe(s.history, Began, Gap(s));
    ClosedGrows(s.history, Began);
  }

  lemma RecoveredItemOk(s: State, i: nat)
    requires DurableOk(s.manifest, s.results) && i < |s.manifest.items|
    requires s.manifest.items[i].status.Running? || s.manifest.items[i].status.Uncertain?
    ensures var item := Recovered(s.manifest.items[i], s.results);
            && ItemOk(s.manifest.header, s.manifest.id, item) && !item.status.Running?
            && item.planned == s.manifest.items[i].planned && item.attempts == s.manifest.items[i].attempts
            && (item.planned.id in s.results ==> EnvelopeOk(s.manifest, item, s.results[item.planned.id]))
            && (item.status.Succeeded? ==> item.planned.id in s.results)
  {
    var item := s.manifest.items[i];
    assert ItemOk(s.manifest.header, s.manifest.id, item);
    if item.planned.id in s.results {
      assert EnvelopeOk(s.manifest, item, s.results[item.planned.id]);
    }
  }

  lemma RecoverKeeps(s: State, s': State, i: nat, at: Instant)
    requires Inv(s) && Next(s, s', Recover(i, at))
    ensures Inv(s')
  {
    hide JobOk, ResultsOk, HistorySafe, EnvelopeOk, ItemOk;
    var item := Recovered(s.manifest.items[i], s.results);
    RecoveredItemOk(s, i);
    SavedDurableOk(s.manifest, s.results, i, item, s'.manifest.notBefore);
    SavedCounted(s.manifest, i, item, s'.manifest.notBefore, s.history);
  }

  lemma ArmedRequest(job: Job, i: nat, notBefore: Instant)
    requires JobOk(job) && i < |job.items|
    requires !job.items[i].status.Succeeded?
    ensures var item := Attempted(job, job.items[i]);
            && ItemOk(job.header, job.id, item) && item.planned == job.items[i].planned
            && RequestFor(WithItem(job, i, item, notBefore), item) == NextRequest(job, job.items[i])
  {
    assert ItemOk(job.header, job.id, job.items[i]);
  }

  lemma ArmedNotYetCalled(job: Job, i: nat, h: seq<Event>)
    requires JobOk(job) && i < |job.items| && AllCounted(job, h)
    ensures NotYetCalled(h, job.items[i].planned.id, job.items[i].attempts + 1)
  {
    forall p | 0 <= p < |h| && h[p].Called? && h[p].request.itemId == job.items[i].planned.id
      ensures h[p].request.attempt < job.items[i].attempts + 1
    {
      assert Counted(job, h[p]);
    }
  }

  lemma ArmKeeps(s: State, s': State, i: nat)
    requires Inv(s) && Next(s, s', Arm(i))
    ensures Inv(s')
  {
    hide JobOk, ResultsOk, HistorySafe, EnvelopeOk, ItemOk;
    var item := Attempted(s.manifest, s.manifest.items[i]);
    var e := Recorded(NextRequest(s.manifest, s.manifest.items[i]));
    assert s'.manifest == WithItem(s.manifest, i, item, s.manifest.notBefore);
    ArmedRequest(s.manifest, i, s.manifest.notBefore);
    SavedDurableOk(s.manifest, s.results, i, item, s.manifest.notBefore);
    ArmKeepsHistory(s, s', i);
    ArmedNotYetCalled(s.manifest, i, s.history);
    assert s'.history[|s.history|] == e;
    assert s'.manifest.items[i] == item;
  }

  lemma ArmKeepsHistory(s: State, s': State, i: nat)
    requires DurableOk(s.manifest, s.results) && FlightOk(s) && HistoryOk(s) && Next(s, s', Arm(i))
    ensures HistoryOk(s') && AllClosed(s'.history)
    ensures Covered(s'.history, Gap(s'), s'.manifest.notBefore)
  {
    hide JobOk, ResultsOk, HistorySafe, Counted;
    var item := Attempted(s.manifest, s.manifest.items[i]);
    var e := Recorded(NextRequest(s.manifest, s.manifest.items[i]));
    QuietEventSafe(s.history, e, Gap(s));
    ClosedGrows(s.history, e);
    CountedMore(s.manifest, s.history, e);
    SavedCounted(s.manifest, i, item, s.manifest.notBefore, s'.history);
  }

  lemma CallKeeps(s: State, s': State)
    requires Inv(s) && Next(s, s', Call)
    ensures Inv(s')
  {
    hide JobOk, ResultsOk, HistorySafe;
    var i := s.flight.i;
    var request := RequestFor(s.manifest, s.manifest.items[i]);
    CallEventSafe(s.history, request, s.now, Gap(s));
    assert Counted(s.manifest, Called(request, s.now)) by {
      assert s.manifest.items[i].planned.id == request.itemId && request.attempt <= s.manifest.items[i].attempts;
    }
    assert s'.history[|s.history|].Called?;
    assert s'.manifest.items[i].status.Running?;
  }

  lemma ReturnKeepsHistory(s: State, s': State, response: Response)
    requires HistoryOk(s) && FlightOk(s) && Next(s, s', Return(response))
    ensures HistoryOk(s')
  {
    hide HistorySafe;
    var e := Returned(RequestFor(s.manifest, s.manifest.items[s.flight.i]), s.now, response);
    QuietEventSafe(s.history, e, Gap(s));
    assert s'.manifest.items[s.flight.i].status.Running?;
  }

  lemma ReturnKeeps(s: State, s': State, response: Response)
    requires Inv(s) && Next(s, s', Return(response))
    ensures Inv(s')
  {
    hide JobOk, ResultsOk, HistorySafe, DurableOk;
    ReturnKeepsHistory(s, s', response);
    var request := RequestFor(s.manifest, s.manifest.items[s.flight.i]);
    LastCalledGrows(s.history, request, Returned(request, s.now, response));
    assert s'.history[|s.history|] == Returned(request, s.now, response);
  }

  lemma LastCalledGrows(h: seq<Event>, request: ExecutionRequest, e: Event)
    requires LastCalled(h, request) && !e.Called?
    ensures LastCalled(h + [e], request)
  {
    var c :| 0 <= c < |h| && h[c].Called? && h[c].request == request && forall p :: c < p < |h| ==> !h[p].Called?;
    var h' := h + [e];
    assert h'[c].Called? && h'[c].request == request && forall p :: c < p < |h'| ==> !h'[p].Called?;
  }

  lemma SettleKeeps(s: State, s': State, status: Status, failure: string, at: Instant)
    requires Inv(s) && Next(s, s', Settle(status, failure, at))
    ensures Inv(s')
  {
    hide JobOk, ResultsOk, HistorySafe, EnvelopeOk, ItemOk;
    var i := s.flight.i;
    var item := s.manifest.items[i].(status := status, failure := failure);
    SettledItemOk(s, i, item);
    SavedDurableOk(s.manifest, s.results, i, item, s'.manifest.notBefore);
    SavedCounted(s.manifest, i, item, s'.manifest.notBefore, s.history);
  }

  lemma SettledItemOk(s: State, i: nat, item: Item)
    requires DurableOk(s.manifest, s.results) && InFlight(s, i) && item.failure != ""
    requires item == s.manifest.items[i].(status := item.status, failure := item.failure)
    requires item.status.Uncertain? || (item.status.Failed? && item.planned.id !in s.results)
    ensures ItemOk(s.manifest.header, s.manifest.id, item)
    ensures item.planned.id in s.results ==> EnvelopeOk(s.manifest, item, s.results[item.planned.id])
  {
    assert ItemOk(s.manifest.header, s.manifest.id, s.manifest.items[i]);
    if item.planned.id in s.results {
      assert EnvelopeOk(s.manifest, s.manifest.items[i], s.results[item.planned.id]);
    }
  }

  lemma PublishKeeps(s: State, s': State)
    requires Inv(s) && Next(s, s', Publish)
    ensures Inv(s')
  {
    hide JobOk, ResultsOk, HistorySafe, DurableOk, HistoryOk;
    var i := s.flight.i;
    var item := s.manifest.items[i];
    PublishKeepsResults(s, s');
    PublishKeepsHistory(s, s');
  }

  lemma PublishedOk(job: Job, item: Item, content: string)
    requires item.status.Running? && 1 <= |content| <= MAX_RESULT_CONTENT_BYTES
    ensures var request := RequestFor(job, item);
            EnvelopeOk(job, item, Envelope(RESULT_SCHEMA_VERSION, request,
                                           RefFor(request, item.planned.resultPath, content), content))
  {
  }

  lemma AddedResultsOk(job: Job, results: map<ItemId, Envelope>, i: nat, e: Envelope)
    requires JobOk(job) && ResultsOk(job, results) && i < |job.items| && EnvelopeOk(job, job.items[i], e)
    ensures ResultsOk(job, results[job.items[i].planned.id := e])
  {
    hide EnvelopeOk, ItemOk, HeaderOk;
    var id, more := job.items[i].planned.id, results[job.items[i].planned.id := e];
    assert id == ItemIds(job.items)[i];
    forall k | 0 <= k < |job.items| && job.items[k].planned.id in more
      ensures EnvelopeOk(job, job.items[k], more[job.items[k].planned.id])
    {
      if k != i {
        OtherId(job, i, k);
      }
    }
  }

  lemma OtherId(job: Job, i: nat, k: nat)
    requires JobOk(job) && i < |job.items| && k < |job.items| && i != k
    ensures job.items[k].planned.id != job.items[i].planned.id
  {
  }

  lemma PublishKeepsResults(s: State, s': State)
    requires DurableOk(s.manifest, s.results) && FlightOk(s) && Next(s, s', Publish)
    ensures DurableOk(s'.manifest, s'.results) && RecordedBut(s'.manifest, s'.results, s.flight.i)
  {
    hide EnvelopeOk, JobOk, ResultsOk, LastCalled, EndedAfter;
    var i := s.flight.i;
    var item := s.manifest.items[i];
    PublishedOk(s.manifest, item, s.flight.response.answer.output.content);
    AddedResultsOk(s.manifest, s.results, i, s'.results[item.planned.id]);
    forall k | 0 <= k < |s.manifest.items| && k != i
      ensures s.manifest.items[k].planned.id != item.planned.id
    {
      OtherId(s.manifest, i, k);
    }
  }

  lemma PublishKeepsHistory(s: State, s': State)
    requires HistoryOk(s) && FlightOk(s) && Next(s, s', Publish)
    ensures HistoryOk(s') && AllClosed(s'.history) && EndedAfter(s'.history, s'.manifest.notBefore)
  {
    hide HistorySafe;
    var id := s.manifest.items[s.flight.i].planned.id;
    PublishEventSafe(s.history, s'.results[id], Gap(s));
    var p :| 0 <= p < |s.history| && s.history[p].Returned? && s.manifest.notBefore <= s.history[p].at;
    assert s'.history[p] == s.history[p];
    assert s'.manifest.items[s.flight.i].status.Running?;
  }

  lemma ConfirmKeeps(s: State, s': State, at: Instant)
    requires Inv(s) && Next(s, s', Confirm(at))
    ensures Inv(s')
  {
    hide JobOk, ResultsOk, HistorySafe, EnvelopeOk, ItemOk;
    var i := s.flight.i;
    var item := s'.manifest.items[i];
    ConfirmedItemOk(s, i);
    SavedDurableOk(s.manifest, s.results, i, item, s'.manifest.notBefore);
    SavedCounted(s.manifest, i, item, s'.manifest.notBefore, s.history);
    assert s'.manifest == WithItem(s.manifest, i, item, s'.manifest.notBefore);
    assert NoneRunning(s'.manifest);
  }

  lemma ConfirmedItemOk(s: State, i: nat)
    requires DurableOk(s.manifest, s.results) && InFlight(s, i) && s.manifest.items[i].planned.id in s.results
    ensures var e := s.results[s.manifest.items[i].planned.id];
            var item := s.manifest.items[i].(result := Some(e.result), status := Succeeded, failure := "");
            ItemOk(s.manifest.header, s.manifest.id, item) && EnvelopeOk(s.manifest, item, e)
  {
    assert ItemOk(s.manifest.header, s.manifest.id, s.manifest.items[i]);
    assert EnvelopeOk(s.manifest, s.manifest.items[i], s.results[s.manifest.items[i].planned.id]);
  }

  lemma StepKeepsInv(s: State, s': State, l: Label)
    requires Inv(s) && Next(s, s', l)
    ensures Inv(s')
  {
    hide Inv, Next;
    match l
    case Tick(_) => QuietStepKeeps(s, s', l);
    case Abort => QuietStepKeeps(s, s', l);
    case Admit => QuietStepKeeps(s, s', l);
    case Begin => BeginKeeps(s, s');
    case Recover(i, at) => RecoverKeeps(s, s', i, at);
    case Arm(i) => ArmKeeps(s, s', i);
    case Call => CallKeeps(s, s');
    case Return(response) => ReturnKeeps(s, s', response);
    case Settle(status, failure, at) => SettleKeeps(s, s', status, failure, at);
    case Publish => PublishKeeps(s, s');
    case Confirm(at) => ConfirmKeeps(s, s', at);
  }

  // ---- what no step undoes ----

  predicate Grows(s: State, s': State) {
    && s'.manifest.header == s.manifest.header && s'.manifest.id == s.manifest.id
    && |s'.manifest.items| == |s.manifest.items|
    && s.now <= s'.now && s.manifest.notBefore <= s'.manifest.notBefore
    && (forall id :: id in s.results ==> id in s'.results && s'.results[id] == s.results[id])
    && (forall i :: 0 <= i < |s.manifest.items| ==> ItemGrows(s.manifest.items[i], s'.manifest.items[i]))
    && |s.history| <= |s'.history| && s'.history[..|s.history|] == s.history
  }

  predicate ItemGrows(a: Item, b: Item) {
    && b.planned == a.planned && a.attempts <= b.attempts
    && (a.status.Succeeded? ==> b == a)
  }

  lemma StepGrows(s: State, s': State, l: Label)
    requires Inv(s) && Next(s, s', l)
    ensures Grows(s, s')
  {
    hide Next, JobOk, ResultsOk, HistoryOk;
    StepKeepsItems(s, s', l);
    StepKeepsStore(s, s', l);
    StepAdvances(s, s', l);
  }

  lemma StepKeepsStore(s: State, s': State, l: Label)
    requires Next(s, s', l)
    ensures s'.manifest.header == s.manifest.header && s'.manifest.id == s.manifest.id && s.now <= s'.now
    ensures forall id :: id in s.results ==> id in s'.results && s'.results[id] == s.results[id]
    ensures |s.history| <= |s'.history| && s'.history[..|s.history|] == s.history
  {
    hide ReturnedBy, RecordedBut, NoneRunning, Attempted, Recovered;
  }

  lemma StepAdvances(s: State, s': State, l: Label)
    requires FlightOk(s) && Next(s, s', l)
    ensures s.manifest.notBefore <= s'.manifest.notBefore
  {
    hide ReturnedBy, RecordedBut, NoneRunning, Attempted, Recovered, EndedAfter;
    if l.Settle? || l.Confirm? {
      CheckpointAdvances(s, l.at);
    }
  }

  lemma CheckpointAdvances(s: State, at: Instant)
    requires EndedAfter(s.history, s.manifest.notBefore) && ReturnedBy(s.history, at)
    ensures s.manifest.notBefore <= at + Gap(s)
  {
    var p :| 0 <= p < |s.history| && s.history[p].Returned? && s.manifest.notBefore <= s.history[p].at;
    assert s.history[p].at <= at;
  }

  lemma StepKeepsItems(s: State, s': State, l: Label)
    requires FlightOk(s) && Next(s, s', l)
    ensures |s'.manifest.items| == |s.manifest.items|
    ensures forall i :: 0 <= i < |s.manifest.items| ==> ItemGrows(s.manifest.items[i], s'.manifest.items[i])
  {
  }

  // ---- whole runs ----

  lemma InitialInv(s: State)
    requires Initial(s)
    ensures Inv(s)
  {
  }

  lemma {:induction false} RunKeepsInv(trace: seq<State>, n: nat)
    requires IsRun(trace) && n < |trace|
    ensures Inv(trace[n])
    decreases n
  {
    hide Next, DurableOk, FlightOk, HistoryOk;
    if n > 0 {
      RunKeepsInv(trace, n - 1);
      assert Step(trace[n - 1], trace[n]);
      var l :| Next(trace[n - 1], trace[n], l);
      StepKeepsInv(trace[n - 1], trace[n], l);
    } else {
      InitialInv(trace[0]);
    }
  }

  /** Over any sequence of invocations, crashes and misreported writes: published results
      stay, succeeded items stay, the pacing checkpoint and attempt counters never go back. */
  lemma {:induction false} RunGrows(trace: seq<State>, m: nat, n: nat)
    requires IsRun(trace) && m <= n < |trace|
    ensures Grows(trace[m], trace[n])
    decreases n
  {
    hide Next, Grows, DurableOk, FlightOk, HistoryOk;
    if m < n {
      RunGrows(trace, m, n - 1);
      RunKeepsInv(trace, n - 1);
      assert Step(trace[n - 1], trace[n]);
      var l :| Next(trace[n - 1], trace[n], l);
      StepGrows(trace[n - 1], trace[n], l);
      GrowsTransitive(trace[m], trace[n - 1], trace[n]);
    } else {
      GrowsReflexive(trace[m]);
    }
  }

  lemma GrowsReflexive(s: State)
    ensures Grows(s, s)
  {
  }

  lemma GrowsTransitive(a: State, b: State, c: State)
    requires Grows(a, b) && Grows(b, c)
    ensures Grows(a, c)
  {
    forall i | 0 <= i < |a.manifest.items|
      ensures ItemGrows(a.manifest.items[i], c.manifest.items[i])
    {
      assert ItemGrows(a.manifest.items[i], b.manifest.items[i]);
      assert ItemGrows(b.manifest.items[i], c.manifest.items[i]);
    }
    assert c.history[..|a.history|] == c.history[..|b.history|][..|a.history|];
  }

  /** The history of every run: results are published once and never called again,
      calls are paced, write-ahead, strictly numbered, and stop at the first failure. */
  lemma EveryRunIsSafe(trace: seq<State>)
    requires IsRun(trace)
    ensures var s := trace[|trace| - 1];
            HistorySafe(s.history, SpacingFor(s.manifest.header.model))
            && JobOk(s.manifest) && AtMostOneRunning(s.manifest) && ResultsOk(s.manifest, s.results)
            && AllCounted(s.manifest, s.history)
  {
    RunKeepsInv(trace, |trace| - 1);
  }

  /** Once an item's envelope is published, later states hold that envelope and an admitted
      invocation has recorded exactly its reference. */
  lemma PublishedResultIsFinal(trace: seq<State>, m: nat, n: nat, id: ItemId)
    requires IsRun(trace) && m <= n < |trace| && id in trace[m].results
    ensures id in trace[n].results && trace[n].results[id] == trace[m].results[id]
    ensures (trace[n].flight.Ready? || trace[n].flight.Armed? || trace[n].flight.Calling?
             || trace[n].flight.Answered?) ==>
              RecordedAs(trace[n].manifest, id, trace[m].results[id].result)
  {
    RunGrows(trace, m, n);
    RunKeepsInv(trace, n);
    if trace[n].flight.Ready? || trace[n].flight.Armed? || trace[n].flight.Calling? || trace[n].flight.Answered? {
      PublishedIsSucceeded(trace[n], id);
    }
  }

  predicate RecordedAs(job: Job, id: ItemId, ref: ResultRef) {
    exists i :: 0 <= i < |job.items| && job.items[i].planned.id == id
                && job.items[i].status.Succeeded? && job.items[i].result == Some(ref)
  }

  lemma PublishedIsSucceeded(s: State, id: ItemId)
    requires ResultsOk(s.manifest, s.results) && RecordedBut(s.manifest, s.results, -1) && id in s.results
    ensures RecordedAs(s.manifest, id, s.results[id].result)
  {
    var ids := ItemIds(s.manifest.items);
    var i :| 0 <= i < |ids| && ids[i] == id;
    assert s.manifest.items[i].planned.id == id;
  }

  lemma StepOfRun(trace: seq<State>, n: nat) returns (l: Label)
    requires IsRun(trace) && 0 < n < |trace|
    ensures Next(trace[n - 1], trace[n], l) && FlightOk(trace[n - 1])
  {
    RunKeepsInv(trace, n - 1);
    assert Step(trace[n - 1], trace[n]);
    l :| Next(trace[n - 1], trace[n], l);
  }

  predicate NoCallFrom(h: seq<Event>, start: nat, id: ItemId) {
    forall q :: start <= q < |h| && h[q].Called? ==> h[q].request.itemId != id
  }

  /** And no event after the publication is a call for that item. */
  lemma {:induction false} NoLaterCall(trace: seq<State>, m: nat, n: nat, id: ItemId)
    requires IsRun(trace) && m <= n < |trace| && id in trace[m].results
    ensures NoCallFrom(trace[n].history, |trace[m].history|, id)
    decreases n
  {
    hide Next, FlightOk, NoCallFrom;
    if m < n {
      NoLaterCall(trace, m, n - 1, id);
      PublishedResultIsFinal(trace, m, n - 1, id);
      var l := StepOfRun(trace, n);
      StepCallsUnpublished(trace[n - 1], trace[n], l, |trace[m].history|, id);
    } else {
      NoCallYet(trace[m].history, id);
    }
  }

  lemma NoCallYet(h: seq<Event>, id: ItemId)
    ensures NoCallFrom(h, |h|, id)
  {
  }

  lemma StepCallsUnpublished(s: State, s': State, l: Label, start: nat, id: ItemId)
    requires FlightOk(s) && Next(s, s', l) && id in s.results && NoCallFrom(s.history, start, id)
    ensures NoCallFrom(s'.history, start, id)
  {
  }
}
